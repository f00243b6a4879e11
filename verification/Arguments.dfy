/** Calls as operands.

The arguments of a call are expressions, read in the fields of the call's own node. The
dialog that reads them stays inside that node, so a call is an operand like any other, and
what is proved of expressions holds at every depth.
*/
module Arguments {
  import opened CursorFrame
  import opened ParseTree
  import opened Precedence
  import opened Wrappers

  // ----- tokens as actions

  /** The parser actions that a token stands for. */
  function ActionsOf(t: Lexeme): seq<Action> {
    [Count(0, t.spaces)] +
    match t.token
    case Operand(kind, text, inner) => [Simple(kind, text), Count(t.width, 0)] + inner
    case UnaryOp(op) => [Count(t.width, 0), Unary(op), Ready(Op2)]
    case BinaryOp(op) => [Binary(op), Count(t.width, 0), Ready(Op2)]
    case OpenBracket => [Open, Count(t.width, 0)]
    case CloseBracket => [Close, Count(t.width, 0)]
  }

  function AllActions(lexemes: seq<Lexeme>): seq<Action> {
    if lexemes == [] then [] else ActionsOf(lexemes[0]) + AllActions(lexemes[1..])
  }

  // ----- runs inside an operand

  /** One action, done inside the operand around the cursor and raising nothing. */
  predicate StepsInside(c: Cursor, a: Action, d: Cursor) {
    Enabled(c, a) && IsInside(c, a) && Act(c, a) == Outcome(d, Quiet)
  }

  /** The cursors before, between and after some actions. */
  predicate IsTrace(trace: seq<Cursor>, actions: seq<Action>) {
    && |trace| == |actions| + 1
    && forall i | 0 <= i < |actions| :: StepsInside(trace[i], actions[i], trace[i + 1])
  }

  ghost predicate Leads(c: Cursor, actions: seq<Action>, d: Cursor) {
    exists trace: seq<Cursor> :: IsTrace(trace, actions) && trace[0] == c && trace[|actions|] == d
  }

  lemma LeadsNowhere(c: Cursor)
    ensures Leads(c, [], c)
  {
    assert IsTrace([c], []);
  }

  lemma LeadsOn(c: Cursor, first: seq<Action>, d: Cursor, second: seq<Action>, e: Cursor)
    requires Leads(c, first, d) && Leads(d, second, e)
    ensures Leads(c, first + second, e)
  {
    var t :| IsTrace(t, first) && t[0] == c && t[|first|] == d;
    var u :| IsTrace(u, second) && u[0] == d && u[|second|] == e;
    var all := t[..|first|] + u;
    assert all[0] == c;
    forall i | 0 <= i < |first + second| ensures StepsInside(all[i], (first + second)[i], all[i + 1]) {
      if i < |first| {
        assert StepsInside(t[i], first[i], t[i + 1]) && all[i + 1] == t[i + 1];
      } else {
        assert StepsInside(u[i - |first|], second[i - |first|], u[i - |first| + 1]);
      }
    }
    assert IsTrace(all, first + second);
  }

  lemma LeadsOne(c: Cursor, a: Action)
    requires Enabled(c, a) && IsInside(c, a) && Act(c, a).raised == Quiet
    ensures Leads(c, [a], Act(c, a).cursor)
    ensures c.path.In? && !a.Parent? ==> Enclosed(Act(c, a).cursor.path)
  {
    ActEmbed(c, Top, Extra(0, 0, 0), a);
    assert IsTrace([c, Act(c, a).cursor], [a]);
  }

  lemma LeadsFirst(c: Cursor, actions: seq<Action>, d: Cursor) returns (next: Cursor)
    requires Leads(c, actions, d) && actions != []
    ensures StepsInside(c, actions[0], next) && Leads(next, actions[1..], d)
  {
    var t :| IsTrace(t, actions) && t[0] == c && t[|actions|] == d;
    next := t[1];
    var u, rest := t[1..], actions[1..];
    forall i | 0 <= i < |rest| ensures StepsInside(u[i], rest[i], u[i + 1]) {
      assert StepsInside(t[i + 1], actions[i + 1], t[i + 2]);
    }
    assert IsTrace(u, rest);
  }

  /** Such a run that comes back to the operand. */
  lemma {:induction false} LeadsStays(c: Cursor, actions: seq<Action>, d: Cursor)
    requires Leads(c, actions, d) && d.path.Top? && d.focus.Some?
    ensures Stays(c, actions) && Run(c, actions) == Outcome(d, Quiet)
    decreases |actions|
  {
    if actions == [] {
      var t :| IsTrace(t, actions) && t[0] == c && t[|actions|] == d;
    } else {
      var next := LeadsFirst(c, actions, d);
      LeadsStays(next, actions[1..], d);
    }
  }

  lemma {:induction false} EmbeddedIsEnclosed(p: Path, base: Path, x: Extra)
    requires Enclosed(base)
    ensures Enclosed(EmbedPath(p, base, x))
  {
    if p.In? { EmbeddedIsEnclosed(p.up, base, x); }
  }

  /** The dialog of an operand that stands inside another is inside that one too. */
  lemma {:induction false} OperandLeads(c: Cursor, base: Path, x: Extra, inner: seq<Action>)
    requires Stays(c, inner) && Enclosed(base)
    ensures Leads(Embed(c, base, x), inner, Run(Embed(c, base, x), inner).cursor)
    decreases |inner|
  {
    EmbeddedIsEnclosed(c.path, base, x);
    if inner == [] {
      LeadsNowhere(Embed(c, base, x));
    } else {
      var next := Act(c, inner[0]).cursor;
      ActEmbed(c, base, x, inner[0]);
      EmbeddedIsEnclosed(next.path, base, x);
      assert IsTrace([Embed(c, base, x), Embed(next, base, x)], [inner[0]]);
      OperandLeads(next, base, x, inner[1..]);
      RunEmbed(next, base, x, inner[1..]);
      LeadsOn(Embed(c, base, x), [inner[0]], Embed(next, base, x), inner[1..],
              Run(Embed(next, base, x), inner[1..]).cursor);
      assert [inner[0]] + inner[1..] == inner;
    }
  }

  // ----- tokens

  predicate IsToken(t: Token) { IsOperandToken(t) && (t.BinaryOp? ==> t.op != Undefined) }

  lemma LeadsTwo(c: Cursor, a: Action, b: Action)
    requires Enclosed(c.path) && !a.Parent? && !b.Parent? && !a.Return? && !b.Return?
    requires Enabled(c, a) && Enabled(Act(c, a).cursor, b)
    requires Then(Then(Outcome(c, Quiet), a), b).raised == Quiet
    ensures var d := Then(Then(Outcome(c, Quiet), a), b).cursor; Leads(c, [a, b], d) && Enclosed(d.path)
  {
    LeadsOne(c, a);
    LeadsOne(Act(c, a).cursor, b);
    LeadsOn(c, [a], Act(c, a).cursor, [b], Act(Act(c, a).cursor, b).cursor);
    assert [a] + [b] == [a, b];
  }

  lemma LeadsMore(c: Cursor, actions: seq<Action>, d: Cursor, a: Action)
    requires Leads(c, actions, d) && Enabled(d, a) && IsInside(d, a) && Act(d, a).raised == Quiet
    ensures Leads(c, actions + [a], Act(d, a).cursor)
    ensures d.path.In? && !a.Parent? ==> Enclosed(Act(d, a).cursor.path)
  {
    LeadsOne(d, a);
    LeadsOn(c, actions, d, [a], Act(d, a).cursor);
  }

  lemma OperatorLeads(c: Cursor, a: Action, b: Action)
    requires Enclosed(c.path) && ((a.Count? && b.Unary?) || (a.Binary? && b.Count?)) && Enabled(c, a)
    requires Then(Then(Then(Outcome(c, Quiet), a), b), Ready(Op2)).raised == Quiet
    ensures var d := Then(Then(Then(Outcome(c, Quiet), a), b), Ready(Op2)).cursor;
      Leads(c, [a, b, Ready(Op2)], d) && Enclosed(d.path)
  {
    LeadsTwo(c, a, b);
    var d := Then(Then(Outcome(c, Quiet), a), b).cursor;
    LeadsMore(c, [a, b], d, Ready(Op2));
    assert [a, b] + [Ready(Op2)] == [a, b, Ready(Op2)];
  }

  lemma OperandTokenLeads(c: Cursor, t: Lexeme)
    requires Enclosed(c.path) && t.token.Operand? && IsOperandToken(t.token)
    requires Then(Then(Outcome(c, Quiet), Simple(t.token.kind, t.token.text)), Count(t.width, 0)).raised == Quiet
    ensures var d := Then(Then(Outcome(c, Quiet), Simple(t.token.kind, t.token.text)), Count(t.width, 0)).cursor;
      && Leads(c, [Simple(t.token.kind, t.token.text), Count(t.width, 0)] + t.token.inner, Run(d, t.token.inner).cursor)
      && Enclosed(Run(d, t.token.inner).cursor.path)
  {
    var Operand(kind, text, inner) := t.token;
    var d := Then(Then(Outcome(c, Quiet), Simple(kind, text)), Count(t.width, 0)).cursor;
    LeadsTwo(c, Simple(kind, text), Count(t.width, 0));
    OperandCompletes(Outcome(c, Quiet), t);
    OperandLeads(AtLeaf(kind, text), d.path, LayoutOf(d.focus.value), inner);
    BuildsAnywhere(kind, text, inner, d, LayoutOf(d.focus.value));
    LeadsOn(c, [Simple(kind, text), Count(t.width, 0)], d, inner, Run(d, inner).cursor);
  }

  /** Reading a token is a run of its actions inside the operand where it is read. */
  lemma ReadLeads(c: Cursor, t: Lexeme)
    requires Enclosed(c.path) && IsToken(t.token) && Read(c, t).raised == Quiet
    ensures Leads(c, ActionsOf(t), Read(c, t).cursor) && Enclosed(Read(c, t).cursor.path)
  {
    var d := CountToken(c, 0, t.spaces);
    var rest := ActionsOf(t)[1..];
    LeadsOne(c, Count(0, t.spaces));
    match t.token {
      case Operand(_, _, _) => OperandTokenLeads(d, t);
      case UnaryOp(op) => OperatorLeads(d, Count(t.width, 0), Unary(op));
      case BinaryOp(op) => OperatorLeads(d, Binary(op), Count(t.width, 0));
      case OpenBracket => LeadsTwo(d, Open, Count(t.width, 0));
      case CloseBracket => LeadsTwo(d, Close, Count(t.width, 0));
    }
    LeadsOn(c, [Count(0, t.spaces)], d, rest, Read(c, t).cursor);
    assert [Count(0, t.spaces)] + rest == ActionsOf(t);
  }

  /** So is reading many. */
  lemma {:induction false} FeedLeads(c: Cursor, lexemes: seq<Lexeme>)
    requires Enclosed(c.path) && (forall t <- lexemes :: IsToken(t.token)) && Feed(c, lexemes).raised == Quiet
    ensures Leads(c, AllActions(lexemes), Feed(c, lexemes).cursor) && Enclosed(Feed(c, lexemes).cursor.path)
    decreases |lexemes|
  {
    if lexemes == [] {
      LeadsNowhere(c);
    } else {
      var d := Read(c, lexemes[0]).cursor;
      ReadLeads(c, lexemes[0]);
      FeedLeads(d, lexemes[1..]);
      LeadsOn(c, ActionsOf(lexemes[0]), d, AllActions(lexemes[1..]), Feed(c, lexemes).cursor);
    }
  }

  lemma {:induction false} AcceptedAreTokens(ts: seq<Token>, turn: Turn, depth: nat)
    requires Accepts(ts, turn, depth)
    ensures forall t <- ts :: IsToken(t)
    decreases |ts|
  {
    if ts != [] {
      match ts[0]
      case Operand(_, _, _) => AcceptedAreTokens(ts[1..], AllowOperator, depth);
      case UnaryOp(_) => AcceptedAreTokens(ts[1..], ExpectOperand, depth);
      case OpenBracket => AcceptedAreTokens(ts[1..], ExpectOperand, depth + 1);
      case BinaryOp(op) => AcceptedAreTokens(ts[1..], TurnAfter(op), depth);
      case CloseBracket => AcceptedAreTokens(ts[1..], AllowOperator, depth - 1);
      assert ts == [ts[0]] + ts[1..];
    }
  }

  // ----- arguments

  function ExpressionActions(lexemes: seq<Lexeme>): seq<Action> {
    AllActions(lexemes) + [Return(ToExpression)]
  }

  const NEXT_ARGUMENT: seq<Action> := [Binary(NextArg), Count(1, 0), Ready(Op2)]

  const OPEN_CALL: seq<Action> := [Change(Call), Ready(Op1), Count(1, 0)]

  const CLOSE_CALL: seq<Action> := [Count(1, 0), Return(ToArguments), Parent]

  function ArgumentActions(args: seq<seq<Lexeme>>): seq<Action>
    requires args != []
  {
    var n := |args| - 1;
    if n == 0 then ExpressionActions(args[0])
    else ArgumentActions(args[..n]) + NEXT_ARGUMENT + ExpressionActions(args[n])
  }

  /** What the dialog does after the name of a macro or function that is called. */
  function CallActions(args: seq<seq<Lexeme>>): seq<Action>
    requires args != []
  {
    OPEN_CALL + ArgumentActions(args) + CLOSE_CALL
  }

  /** What stands in the field of a call: nothing, or the arguments joined from the left by
      commas. An empty argument leaves its side of the comma empty. When the first is empty,
      the operators of the second climb past its comma. */
  function ArgumentShape(es: seq<Option<Expr>>): (r: Option<Shape>)
    requires es != []
    ensures |es| > 1 ==> r.Some?
  {
    var n := |es| - 1;
    if n == 0 then if es[0].None? then None else Some(Erase(es[0].value))
    else Some(WithArgument(ArgumentShape(es[..n]), es[n]))
  }

  function WithArgument(left: Option<Shape>, e: Option<Expr>): Shape {
    if left.None? then AfterNothing(e) else AfterComma(left.value, e)
  }

  function AfterComma(left: Shape, e: Option<Expr>): Shape {
    if e.None? then SPost(NextArg, left) else SBin(NextArg, left, Erase(e.value))
  }

  function AfterNothing(e: Option<Expr>): Shape {
    if e.None? then SBare(NextArg)
    else if e.value.Bin? || e.value.Post? then Erase(Replant(e.value, Taken(e.value)))
    else SUn(NextArg, Erase(e.value))
  }

  /** The cursor is at the last argument, and these are in the field at `base`. */
  predicate HoldsArguments(c: Cursor, base: Path, shape: Option<Shape>) {
    && c.brackets == 0 && (c.focus.Some? ==> c.focus.value.brackets == 0)
    && if c.path == base then (if shape.None? then c.focus.None?
                               else c.focus.Some? && ShapeOf(c.focus.value) == shape.value)
       else
         && c.path.In? && c.path.up == base && c.path.frame.hole == Op2
         && c.path.frame.node.kind == Operation && c.path.frame.node.op == NextArg
         && c.path.frame.node.brackets == 0
         && shape.Some? && ShapeOf(Lift(c).focus.value) == shape.value
  }

  /** The expression that some tokens spell, if there are any. */
  predicate Spells(e: Option<Expr>, lexemes: seq<Lexeme>) {
    if lexemes == [] then e.None? else e.Some? && Grouped(e.value) && Tokens(e.value) == TokensOf(lexemes)
  }

  predicate AllSpelled(es: seq<Option<Expr>>, args: seq<seq<Lexeme>>) {
    |es| == |args| && forall i | 0 <= i < |args| :: Spells(es[i], args[i])
  }

  predicate MayBeArgument(lexemes: seq<Lexeme>) { lexemes == [] || WellFormed(TokensOf(lexemes)) }

  lemma OneMoreSpelled(es: seq<Option<Expr>>, e: Option<Expr>, args: seq<seq<Lexeme>>)
    requires args != [] && AllSpelled(es, args[..|args| - 1]) && Spells(e, args[|args| - 1])
    ensures AllSpelled(es + [e], args)
  {
    forall i | 0 <= i < |args| ensures Spells((es + [e])[i], args[i]) {
      if i < |es| { assert Spells(es[i], args[..|args| - 1][i]); }
    }
  }

  predicate InCall(base: Path) { base.In? && base.frame.node.kind == Call && Enclosed(base) }

  /** Reading inside an operand and closing off is a run inside it. */
  lemma ClosesOff(c: Cursor, lexemes: seq<Lexeme>)
    requires WellFormed(TokensOf(lexemes)) && Enclosed(c.path) && Feed(c, lexemes).raised == Quiet
    requires ReturnTo(Feed(c, lexemes).cursor, ToExpression).raised == Quiet
    ensures Leads(c, ExpressionActions(lexemes), ReturnTo(Feed(c, lexemes).cursor, ToExpression).cursor)
  {
    var ts, read := TokensOf(lexemes), Feed(c, lexemes).cursor;
    AcceptedAreTokens(ts, ExpectOperand, 0);
    forall t | t in lexemes ensures IsToken(t.token) {
      var i :| 0 <= i < |lexemes| && lexemes[i] == t;
      assert ts[i] == t.token;
    }
    FeedLeads(c, lexemes);
    LeadsMore(c, AllActions(lexemes), read, Return(ToExpression));
  }

  /** An argument is read as an expression of its own. */
  lemma {:induction false} ReadsArgument(c: Cursor, lexemes: seq<Lexeme>) returns (e: Expr, d: Cursor)
    requires WellFormed(TokensOf(lexemes)) && Enclosed(c.path)
    requires c.focus.None? && c.brackets == 0 && StartsExpression(c.path)
    ensures Spells(Some(e), lexemes)
    ensures Leads(c, ExpressionActions(lexemes), d)
    ensures d.path == c.path && d.focus.Some? && d.brackets == d.focus.value.brackets == 0
    ensures ShapeOf(d.focus.value) == Erase(e)
  {
    e := ParsesEveryExpression(lexemes, c);
    ClosesOff(c, lexemes);
    d := ReturnTo(Feed(c, lexemes).cursor, ToExpression).cursor;
  }

  /** So is one after an empty first argument, but its operators climb past the comma. */
  lemma {:induction false} ReadsStolen(c: Cursor, lexemes: seq<Lexeme>) returns (e: Expr, d: Cursor)
    requires WellFormed(TokensOf(lexemes)) && Enclosed(c.path)
    requires c.focus.None? && c.brackets == 0 && AfterEmptyArgument(c.path)
    ensures Spells(Some(e), lexemes)
    ensures Leads(c, ExpressionActions(lexemes), d) && HoldsArguments(d, c.path.up, Some(AfterNothing(Some(e))))
  {
    e := WellFormedIsCanonical(TokensOf(lexemes));
    ArgumentAfterEmpty(e, lexemes, c);
    ClosesOff(c, lexemes);
    d := ReturnTo(Feed(c, lexemes).cursor, ToExpression).cursor;
    if !e.Bin? && !e.Post? { HoldsAlone(d, c.path.up, Erase(e)); }
  }

  lemma HoldsAlone(c: Cursor, base: Path, right: Shape)
    requires c.focus.Some? && c.brackets == c.focus.value.brackets == 0 && ShapeOf(c.focus.value) == right
    requires AfterEmptyArgument(c.path) && c.path.up == base
    ensures HoldsArguments(c, base, Some(SUn(NextArg, right)))
  {
    var t := Lift(c).focus.value;
    assert t.kids.Keys == {Op2} && t.kids[Op2] == c.focus.value;
    assert Depth(c.path) == 1 + Depth(base);
  }

  /** An empty argument leaves the cursor where it is. */
  lemma ReadsNothing(c: Cursor)
    requires Enclosed(c.path) && EndsExpression(c.path)
    ensures Leads(c, ExpressionActions([]), c)
  {
    assert ReturnTo(c, ToExpression) == Outcome(c, Quiet);
    LeadsOne(c, Return(ToExpression));
    assert [] + [Return(ToExpression)] == [Return(ToExpression)];
  }

  const COMMA := Lexeme(BinaryOp(NextArg), 1, 0)

  /** Behind a comma, whose left side is what was read before it. */
  predicate BehindComma(c: Cursor, base: Path, left: Option<Shape>) {
    && c.focus.None? && c.brackets == 0 && c.path.In? && c.path.up == base && c.path.frame.hole == Op2
    && if left.Some? then IsOpened(c.path.frame.node, NextArg, left.value, 0) else AfterEmptyArgument(c.path)
  }

  lemma LandsInCall(c: Cursor, base: Path, shape: Shape)
    requires HoldsArguments(c, base, Some(shape)) && InCall(base)
    ensures Lands(c, NextArg, base, shape, 0)
  {
    if c.path != base { assert ReturnOneLevel(c) == Outcome(Lift(c), Quiet); }
  }

  lemma ReadsComma(c: Cursor, base: Path, shape: Option<Shape>) returns (d: Cursor)
    requires HoldsArguments(c, base, shape) && InCall(base)
    ensures Read(c, COMMA) == Outcome(d, Quiet) && BehindComma(d, base, shape)
  {
    d := Read(c, COMMA).cursor;
    assert CountToken(c, 0, 0) == c;
    if shape.Some? {
      LandsInCall(c, base, shape.value);
      ReadsBinary(c, COMMA, base, shape.value, 0);
    }
  }

  /** A comma goes above all the arguments before it. */
  lemma NextArgument(c: Cursor, base: Path, shape: Option<Shape>) returns (d: Cursor)
    requires HoldsArguments(c, base, shape) && InCall(base)
    ensures Leads(c, NEXT_ARGUMENT, d) && Enclosed(d.path) && BehindComma(d, base, shape)
  {
    d := ReadsComma(c, base, shape);
    assert CountToken(c, 0, 0) == c;
    OperatorLeads(c, Binary(NextArg), Count(1, 0));
  }

  /** All arguments but the last are read before it; then come a comma and the last. */
  lemma {:induction false} ReadsArguments(c: Cursor, args: seq<seq<Lexeme>>)
    returns (es: seq<Option<Expr>>, d: Cursor)
    requires args != [] && forall a <- args :: MayBeArgument(a)
    requires InCall(c.path) && c.focus.None? && c.brackets == 0
    ensures AllSpelled(es, args)
    ensures Leads(c, ArgumentActions(args), d) && HoldsArguments(d, c.path, ArgumentShape(es))
    decreases |args|
  {
    var n := |args| - 1;
    if n == 0 {
      var e;
      e, d := ReadsFirst(c, args[0]);
      es := [e];
    } else {
      var front, before := ReadsArguments(c, args[..n]);
      var e;
      e, d := ReadsOneMore(c, ArgumentActions(args[..n]), before, ArgumentShape(front), args[n]);
      es := front + [e];
      OneMoreSpelled(front, e, args);
      assert es[..n] == front;
    }
  }

  lemma {:induction false} ReadsFirst(c: Cursor, lexemes: seq<Lexeme>) returns (e: Option<Expr>, d: Cursor)
    requires MayBeArgument(lexemes) && InCall(c.path) && c.focus.None? && c.brackets == 0
    ensures Spells(e, lexemes)
    ensures Leads(c, ExpressionActions(lexemes), d)
    ensures HoldsArguments(d, c.path, if e.None? then None else Some(Erase(e.value)))
  {
    if lexemes == [] {
      ReadsNothing(c);
      e, d := None, c;
    } else {
      var first;
      first, d := ReadsArgument(c, lexemes);
      e := Some(first);
    }
  }

  lemma {:induction false} ReadsOneMore(c: Cursor, before: seq<Action>, b: Cursor, shape: Option<Shape>,
                                        lexemes: seq<Lexeme>)
    returns (e: Option<Expr>, d: Cursor)
    requires Leads(c, before, b) && HoldsArguments(b, c.path, shape) && InCall(c.path) && MayBeArgument(lexemes)
    ensures Spells(e, lexemes)
    ensures Leads(c, before + NEXT_ARGUMENT + ExpressionActions(lexemes), d)
    ensures HoldsArguments(d, c.path, Some(WithArgument(shape, e)))
  {
    var comma := NextArgument(b, c.path, shape);
    LeadsOn(c, before, b, NEXT_ARGUMENT, comma);
    e, d := ReadsBehindComma(comma, c.path, shape, lexemes);
    LeadsOn(c, before + NEXT_ARGUMENT, comma, ExpressionActions(lexemes), d);
  }

  lemma {:induction false} ReadsBehindComma(c: Cursor, base: Path, left: Option<Shape>, lexemes: seq<Lexeme>)
    returns (e: Option<Expr>, d: Cursor)
    requires BehindComma(c, base, left) && Enclosed(c.path) && MayBeArgument(lexemes)
    ensures Spells(e, lexemes)
    ensures Leads(c, ExpressionActions(lexemes), d) && HoldsArguments(d, base, Some(WithArgument(left, e)))
  {
    if lexemes == [] {
      ReadsNothing(c);
      e, d := None, c;
      HoldsNothingMore(c, base, left);
    } else if left.None? {
      var stolen;
      stolen, d := ReadsStolen(c, lexemes);
      e := Some(stolen);
    } else {
      var last;
      last, d := ReadsArgument(c, lexemes);
      e := Some(last);
      HoldsOneMore(d, base, left.value, Erase(last));
    }
  }

  lemma HoldsNothingMore(c: Cursor, base: Path, left: Option<Shape>)
    requires BehindComma(c, base, left)
    ensures HoldsArguments(c, base, Some(WithArgument(left, None)))
  {
    assert Depth(c.path) == 1 + Depth(base);
  }

  lemma HoldsOneMore(c: Cursor, base: Path, left: Shape, right: Shape)
    requires c.focus.Some? && c.brackets == c.focus.value.brackets == 0 && ShapeOf(c.focus.value) == right
    requires c.path.In? && c.path.up == base && c.path.frame.hole == Op2
    requires IsOpened(c.path.frame.node, NextArg, left, 0)
    ensures HoldsArguments(c, base, Some(SBin(NextArg, left, right)))
  {
    var t := Lift(c).focus.value;
    assert t.kids.Keys == {Op1, Op2} && t.kids[Op2] == c.focus.value;
    assert Depth(c.path) == 1 + Depth(base);
  }

  // ----- calls

  lemma CountHoldsArguments(c: Cursor, base: Path, shape: Option<Shape>)
    requires HoldsArguments(c, base, shape)
    ensures HoldsArguments(CountToken(c, 1, 0), base, shape)
  {
    var d := CountToken(c, 1, 0);
    if c.focus.Some? { SameShape(c.focus.value, d.focus.value); }
    if c.path != base { SameShape(Lift(c).focus.value, Lift(d).focus.value); }
  }

  lemma ReturnsToCall(c: Cursor, base: Path, shape: Option<Shape>)
    requires HoldsArguments(c, base, shape) && InCall(base)
    ensures var r := ReturnTo(c, ToArguments);
      r.raised == Quiet && r.cursor.path == base && HoldsArguments(r.cursor, base, shape)
  {
    if c.path != base { assert ReturnOneLevel(c) == Outcome(Lift(c), Quiet); }
  }

  /** The cursor is at a call of `f` with these arguments, and nothing is pending. */
  predicate IsCall(d: Cursor, f: string, shape: Option<Shape>) {
    && d.path.Top? && d.brackets == d.deferredWidth == d.deferredSpaces == 0 && d.focus.Some?
    && var t := d.focus.value;
    && t.kind == Call && t.text == f && t.brackets == 0
    && if shape.None? then t.kids == map[] else t.kids.Keys == {Op1} && ShapeOf(t.kids[Op1]) == shape.value
  }

  lemma LeavesCall(c: Cursor, base: Path, shape: Option<Shape>)
    requires HoldsArguments(c, base, shape) && c.path == base && InCall(base) && base.up.Top?
    requires base.frame.hole == Op1 && base.frame.node.kids == map[] && base.frame.node.brackets == 0
    ensures Act(c, Parent) == Outcome(Lift(c), Quiet) && IsCall(Lift(c), base.frame.node.text, shape)
  {
    if c.focus.Some? { assert Lift(c).focus.value.kids == map[Op1 := c.focus.value]; }
  }

  /** At the closing bracket the cursor goes back to the call. */
  lemma ClosesCall(c: Cursor, base: Path, shape: Option<Shape>) returns (d: Cursor)
    requires HoldsArguments(c, base, shape) && InCall(base) && base.up.Top?
    requires base.frame.hole == Op1 && base.frame.node.kids == map[] && base.frame.node.brackets == 0
    ensures Leads(c, CLOSE_CALL, d) && IsCall(d, base.frame.node.text, shape)
  {
    var counted := CountToken(c, 1, 0);
    CountHoldsArguments(c, base, shape);
    d := ReturnsToCallNode(counted, base, shape);
    CountLeads(c);
    LeadsOn(c, [Count(1, 0)], counted, [Return(ToArguments), Parent], d);
    CloseCallIs();
  }

  lemma CloseCallIs()
    ensures [Count(1, 0)] + [Return(ToArguments), Parent] == CLOSE_CALL
  {
  }

  lemma CountLeads(c: Cursor)
    requires Enclosed(c.path)
    ensures Leads(c, [Count(1, 0)], CountToken(c, 1, 0))
  {
    LeadsOne(c, Count(1, 0));
  }

  lemma ReturnsToCallNode(c: Cursor, base: Path, shape: Option<Shape>) returns (d: Cursor)
    requires HoldsArguments(c, base, shape) && InCall(base) && base.up.Top?
    requires base.frame.hole == Op1 && base.frame.node.kids == map[] && base.frame.node.brackets == 0
    ensures Leads(c, [Return(ToArguments), Parent], d) && IsCall(d, base.frame.node.text, shape)
  {
    var back := ReturnTo(c, ToArguments).cursor;
    ReturnsToCall(c, base, shape);
    LeavesCall(back, base, shape);
    LeadsBack(c, back);
    d := Lift(back);
  }

  lemma LeadsBack(c: Cursor, back: Cursor)
    requires Enclosed(c.path) && ReturnTo(c, ToArguments) == Outcome(back, Quiet)
    requires Enclosed(back.path) && Act(back, Parent) == Outcome(Lift(back), Quiet)
    ensures Leads(c, [Return(ToArguments), Parent], Lift(back))
  {
    LeadsOne(c, Return(ToArguments));
    LeadsMore(c, [Return(ToArguments)], back, Parent);
    assert [Return(ToArguments)] + [Parent] == [Return(ToArguments), Parent];
  }

  /** The cursor in the field for the arguments of a call. */
  function InArguments(f: string): Cursor { Cursor(None, In(Frame(NewNode(Call, f), Op1), Top), 0, 1, 0) }

  lemma OpensCall(f: string)
    ensures Leads(AtLeaf(Symbol, f), OPEN_CALL, InArguments(f))
  {
    assert NewNode(Call, f).(kids := NewNode(Call, f).kids - {Op1}) == NewNode(Call, f);
    var c := Cursor(None, In(Frame(NewNode(Call, f), Op1), Top), 0, 0, 0);
    LeadsOne(AtLeaf(Symbol, f), Change(Call));
    LeadsMore(AtLeaf(Symbol, f), [Change(Call)], AtLeaf(Call, f), Ready(Op1));
    LeadsMore(AtLeaf(Symbol, f), [Change(Call)] + [Ready(Op1)], c, Count(1, 0));
    assert [Change(Call)] + [Ready(Op1)] + [Count(1, 0)] == OPEN_CALL;
  }

  /** A call is an operand, whatever its arguments are and whichever of them are empty; one
      empty argument is none. Each is read into its own precedence tree, and commas join these
      in the call's field; only what follows an empty first argument may come out otherwise. */
  lemma {:induction false} CallIsOperand(f: string, args: seq<seq<Lexeme>>) returns (es: seq<Option<Expr>>)
    requires args != [] && forall a <- args :: MayBeArgument(a)
    ensures AllSpelled(es, args)
    ensures IsOperand(Symbol, f, CallActions(args))
    ensures IsCall(Run(AtLeaf(Symbol, f), CallActions(args)).cursor, f, ArgumentShape(es))
  {
    var leaf, c := AtLeaf(Symbol, f), InArguments(f);
    OpensCall(f);
    var held;
    es, held := ReadsArguments(c, args);
    var d := ClosesCall(held, c.path, ArgumentShape(es));
    LeadsOn(leaf, OPEN_CALL, c, ArgumentActions(args), held);
    LeadsOn(leaf, OPEN_CALL + ArgumentActions(args), held, CLOSE_CALL, d);
    LeadsStays(leaf, CallActions(args), d);
  }

  // ----- an empty first argument

  /** What the dialog does on `f (,` up to the second argument. */
  function EmptyFirst(f: string): seq<Action> {
    [Simple(Symbol, f), Change(Call), Ready(Op1)] + [Binary(NextArg), Ready(Op2)]
  }

  function InFirst(f: string): Cursor { Cursor(None, In(Frame(NewNode(Call, f), Op1), Top), 0, 0, 0) }

  function InSecond(f: string): Cursor {
    Cursor(None, In(Frame(NewNode(Operation, "").(op := NextArg), Op2), In(Frame(NewNode(Call, f), Op1), Top)), 0, 0, 0)
  }

  lemma RunThree(c: Cursor, a: Action, b: Action, d: Action, rest: seq<Action>, c1: Cursor, c2: Cursor, c3: Cursor)
    requires Enabled(c, a) && Act(c, a) == Outcome(c1, Quiet) && Enabled(c1, b) && Act(c1, b) == Outcome(c2, Quiet)
    requires Enabled(c2, d) && Act(c2, d) == Outcome(c3, Quiet)
    ensures Run(c, [a, b, d] + rest) == Run(c3, rest)
  {
    RunNext(c2, d, rest, c3);
    RunNext(c1, b, [d] + rest, c2);
    RunNext(c, a, [b] + ([d] + rest), c1);
    ThreeThen(a, b, d, rest);
  }

  lemma ThreeThen(a: Action, b: Action, d: Action, rest: seq<Action>)
    ensures [a] + ([b] + ([d] + rest)) == [a, b, d] + rest
  {
  }

  lemma RunNext(c: Cursor, a: Action, rest: seq<Action>, d: Cursor)
    requires Enabled(c, a) && Act(c, a) == Outcome(d, Quiet)
    ensures Run(c, [a] + rest) == Run(d, rest)
  {
    assert ([a] + rest)[1..] == rest;
  }

  lemma OpensFirst(f: string, rest: seq<Action>)
    ensures Run(START, [Simple(Symbol, f), Change(Call), Ready(Op1)] + rest) == Run(InFirst(f), rest)
  {
    var call := Cursor(Some(NewNode(Call, f)), Top, 0, 0, 0);
    assert NewNode(Call, f).(kids := NewNode(Call, f).kids - {Op1}) == NewNode(Call, f);
    RunThree(START, Simple(Symbol, f), Change(Call), Ready(Op1), rest,
             Cursor(Some(NewNode(Symbol, f)), Top, 0, 0, 0), call, InFirst(f));
  }

  lemma OpensSecond(f: string)
    ensures Run(InFirst(f), [Binary(NextArg), Ready(Op2)]) == Outcome(InSecond(f), Quiet)
  {
    var comma := NewNode(Operation, "").(op := NextArg);
    var inserted := Cursor(Some(comma), In(Frame(NewNode(Call, f), Op1), Top), 0, 0, 0);
    assert comma.(kids := comma.kids - {Op2}) == comma;
    assert Act(InFirst(f), Binary(NextArg)) == Outcome(inserted, Quiet);
    RunNext(InFirst(f), Binary(NextArg), [Ready(Op2)], inserted);
    RunNext(inserted, Ready(Op2), [], InSecond(f));
    assert [Binary(NextArg)] + [Ready(Op2)] == [Binary(NextArg), Ready(Op2)] && [Ready(Op2)] + [] == [Ready(Op2)];
  }

  function SymbolLeaf(text: string): Expr { Leaf(Symbol, text, []) }

  lemma SymbolIsOperand(text: string)
    ensures IsOperand(Symbol, text, []) && Erase(SymbolLeaf(text)) == LeafShape(Symbol, text)
    ensures Tokens(SymbolLeaf(text)) == [Operand(Symbol, text, [])]
  {
  }

  /** `f (, b + c)` is read as `f ((, b) + c)`. */
  lemma EmptyFirstCaptured(f: string, b: Lexeme, plus: Lexeme, c: Lexeme)
    requires b.token.Operand? && b.token.kind == Symbol && b.token.inner == []
    requires plus.token == BinaryOp(Plus) && c.token.Operand? && c.token.kind == Symbol && c.token.inner == []
    ensures Run(START, EmptyFirst(f)) == Outcome(InSecond(f), Quiet) && AfterEmptyArgument(InSecond(f).path)
    ensures var d := ReturnTo(Feed(InSecond(f), [b, plus, c]).cursor, ToExpression).cursor;
      && d.path == InFirst(f).path && d.focus.Some?
      && ShapeOf(d.focus.value)
         == SBin(Plus, SUn(NextArg, LeafShape(Symbol, b.token.text)), LeafShape(Symbol, c.token.text))
  {
    OpensFirst(f, [Binary(NextArg), Ready(Op2)]);
    OpensSecond(f);
    SumCaptured(InSecond(f), b, plus, c);
  }

  lemma SumCaptured(at: Cursor, b: Lexeme, plus: Lexeme, c: Lexeme)
    requires at.focus.None? && at.brackets == 0 && AfterEmptyArgument(at.path)
    requires b.token.Operand? && b.token.kind == Symbol && b.token.inner == []
    requires plus.token == BinaryOp(Plus) && c.token.Operand? && c.token.kind == Symbol && c.token.inner == []
    ensures var d := ReturnTo(Feed(at, [b, plus, c]).cursor, ToExpression).cursor;
      && d.path == at.path.up && d.focus.Some?
      && ShapeOf(d.focus.value)
         == SBin(Plus, SUn(NextArg, LeafShape(Symbol, b.token.text)), LeafShape(Symbol, c.token.text))
  {
    var e := Bin(Plus, SymbolLeaf(b.token.text), SymbolLeaf(c.token.text));
    SymbolIsOperand(b.token.text);
    SymbolIsOperand(c.token.text);
    assert TokensOf([b, plus, c]) == Tokens(e);
    ArgumentAfterEmpty(e, [b, plus, c], at);
  }
}
