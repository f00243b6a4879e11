/** The expression dialog run on the linked nodes. */
module ExpressionDialog {
  import opened CursorLaws
  import opened ParseCursor
  import opened ParseTree
  import opened Precedence

  /** One parser action. */
  method Perform(p: Parser, a: Action) returns (raised: Event)
    requires p.Valid() && Enabled(p.Abs(), a)
    modifies p, p.nodes
    ensures p.Valid() && fresh(p.nodes - old(p.nodes))
    ensures Outcome(p.Abs(), raised) == Act(old(p.Abs()), a)
  {
    p.OwnFields();
    raised := Quiet;
    match a
    case Simple(kind, text) => raised := p.InsertSimpleNode(kind, text);
    case Unary(op) => raised := p.InsertUnaryOperator(op);
    case Binary(op) => raised := p.InsertOperator(op);
    case DataSpecifier(kind) => raised := p.InsertDataSpecifier(kind);
    case SpacesOnly(spaces) => raised := p.InsertSpacesOnly(spaces);
    case Ready(field) => raised := p.ReadyFor(field);
    case Count(width, spaces) => p.CountToken(width, spaces);
    case Open => p.AddOneBracket();
    case Close => raised := p.CloseOneBracket();
    case Extend => p.SetExtendFlag();
    case CopyOperator(op) => p.CopyTheOperator(op);
    case Change(kind) => p.ChangeKind(kind);
    case Parent => raised := p.ReturnToParent();
    case Return(target) => raised := p.ReturnTo(target);
  }

  method IsEnabled(p: Parser, a: Action) returns (enabled: bool)
    requires p.Valid()
    ensures enabled == Enabled(p.Abs(), a)
  {
    p.OwnFields();
    enabled := match a
      case Ready(_) => p.Pointee() != null
      case CopyOperator(_) => p.Pointee() != null
      case Change(_) => p.Pointee() != null
      case Binary(op) => op != Undefined
      case Extend => p.Pointee() != null || p.theParent != null
      case _ => true;
  }

  method PerformThen(p: Parser, before: Event, a: Action) returns (raised: Event)
    requires p.Valid()
    modifies p, p.nodes
    ensures p.Valid() && fresh(p.nodes - old(p.nodes))
    ensures Outcome(p.Abs(), raised) == Then(Outcome(old(p.Abs()), before), a)
  {
    var enabled := IsEnabled(p, a);
    raised := before;
    if before == Quiet && enabled {
      raised := Perform(p, a);
    }
  }

  method PerformTwo(p: Parser, a: Action, b: Action) returns (raised: Event)
    requires p.Valid()
    modifies p, p.nodes
    ensures p.Valid() && fresh(p.nodes - old(p.nodes))
    ensures Outcome(p.Abs(), raised) == Then(Then(Outcome(old(p.Abs()), Quiet), a), b)
  {
    raised := PerformThen(p, Quiet, a);
    raised := PerformThen(p, raised, b);
  }

  lemma RunNext(c: Cursor, actions: seq<Action>, i: nat)
    requires i < |actions|
    ensures !Enabled(c, actions[i]) ==> Run(c, actions[i..]) == Outcome(c, Quiet)
    ensures Enabled(c, actions[i]) ==>
      var r := Act(c, actions[i]);
      Run(c, actions[i..]) == if r.raised != Quiet then r else Run(r.cursor, actions[i + 1..])
  {
    assert actions[i..][1..] == actions[i + 1..];
  }

  /** A parser action, if it is enabled. */
  method PerformNext(p: Parser, a: Action) returns (enabled: bool, raised: Event)
    requires p.Valid()
    modifies p, p.nodes
    ensures p.Valid() && fresh(p.nodes - old(p.nodes)) && enabled == Enabled(old(p.Abs()), a)
    ensures Outcome(p.Abs(), raised) == if enabled then Act(old(p.Abs()), a) else Outcome(old(p.Abs()), Quiet)
  {
    enabled := IsEnabled(p, a);
    raised := Quiet;
    if enabled {
      raised := Perform(p, a);
    }
  }

  /** Parser actions, until one is not enabled or raises an exception. */
  method PerformAll(p: Parser, actions: seq<Action>) returns (raised: Event)
    requires p.Valid()
    modifies p, p.nodes
    ensures p.Valid() && fresh(p.nodes - old(p.nodes))
    ensures Outcome(p.Abs(), raised) == Run(old(p.Abs()), actions)
  {
    raised := Quiet;
    var i := 0;
    while i < |actions|
      invariant 0 <= i <= |actions| && raised == Quiet
      invariant p.Valid() && fresh(p.nodes - old(p.nodes))
      invariant Run(p.Abs(), actions[i..]) == Run(old(p.Abs()), actions)
    {
      RunNext(p.Abs(), actions, i);
      var enabled;
      enabled, raised := PerformNext(p, actions[i]);
      if !enabled || raised != Quiet { return; }
      i := i + 1;
    }
  }

  method ReadLexeme(p: Parser, t: Lexeme) returns (raised: Event)
    requires p.Valid()
    modifies p, p.nodes
    ensures p.Valid() && fresh(p.nodes - old(p.nodes))
    ensures Outcome(p.Abs(), raised) == Read(old(p.Abs()), t)
  {
    p.CountToken(0, t.spaces);
    var count := Count(t.width, 0);
    match t.token
    case Operand(kind, text, inner) =>
      raised := PerformTwo(p, Simple(kind, text), count);
      if raised == Quiet {
        raised := PerformAll(p, inner);
      }
    case UnaryOp(op) =>
      raised := PerformTwo(p, count, Unary(op));
      raised := PerformThen(p, raised, Ready(Op2));
    case BinaryOp(op) =>
      raised := PerformTwo(p, Binary(op), count);
      raised := PerformThen(p, raised, Ready(Op2));
    case OpenBracket =>
      raised := PerformTwo(p, Open, count);
    case CloseBracket =>
      raised := PerformTwo(p, Close, count);
  }

  lemma FeedNext(c: Cursor, lexemes: seq<Lexeme>, i: nat)
    requires i < |lexemes|
    ensures var r := Read(c, lexemes[i]);
      Feed(c, lexemes[i..]) == if r.raised != Quiet then r else Feed(r.cursor, lexemes[i + 1..])
  {
    assert lexemes[i..][1..] == lexemes[i + 1..];
  }

  method ReadLexemes(p: Parser, lexemes: seq<Lexeme>) returns (raised: Event)
    requires p.Valid()
    modifies p, p.nodes
    ensures p.Valid() && fresh(p.nodes - old(p.nodes))
    ensures Outcome(p.Abs(), raised) == Feed(old(p.Abs()), lexemes)
  {
    raised := Quiet;
    var i := 0;
    while i < |lexemes|
      invariant 0 <= i <= |lexemes| && raised == Quiet
      invariant p.Valid() && fresh(p.nodes - old(p.nodes))
      invariant Feed(p.Abs(), lexemes[i..]) == Feed(old(p.Abs()), lexemes)
    {
      FeedNext(p.Abs(), lexemes, i);
      raised := ReadLexeme(p, lexemes[i]);
      if raised != Quiet { return; }
      i := i + 1;
    }
  }

  /** Reads a well-formed expression into the empty field under the cursor. It always
      succeeds, builds the tree that precedence demands, leaves the cursor at the field
      and no bracket open, and the tree has all the columns of the script text. */
  method ReadExpression(p: Parser, lexemes: seq<Lexeme>) returns (raised: Event, ghost e: Expr)
    requires p.Valid() && p.Abs().focus.None? && p.brackets == 0
    requires StartsExpression(p.Abs().path)
    requires WellFormed(TokensOf(lexemes))
    modifies p, p.nodes
    ensures p.Valid() && raised == Quiet
    ensures Grouped(e) && Tokens(e) == TokensOf(lexemes)
    ensures p.Abs().focus.Some? && ShapeOf(p.Abs().focus.value) == Erase(e)
    ensures p.Abs().path == old(p.Abs().path) && p.brackets == 0 && p.Abs().focus.value.brackets == 0
    ensures Columns(p.Abs()) == old(Columns(p.Abs())) + LexemeColumns(lexemes)
  {
    e := ExpressionRead(p.Abs(), lexemes);
    raised := ReadLexemes(p, lexemes);
    raised := p.ReturnTo(ToExpression);
  }

  lemma {:induction false} ExpressionRead(c: Cursor, lexemes: seq<Lexeme>) returns (e: Expr)
    requires c.focus.None? && c.brackets == 0 && StartsExpression(c.path)
    requires WellFormed(TokensOf(lexemes))
    ensures Grouped(e) && Tokens(e) == TokensOf(lexemes)
    ensures IsParsedTo(c, lexemes, Erase(e))
    ensures Columns(ReturnTo(Feed(c, lexemes).cursor, ToExpression).cursor) == Columns(c) + LexemeColumns(lexemes)
  {
    e := ParsesEveryExpression(lexemes, c);
    AcceptedAreOperands(lexemes, ExpectOperand, 0);
    FeedConservesColumns(c, lexemes);
    ReturnKeepsColumns(Feed(c, lexemes).cursor, ToExpression);
  }
}
