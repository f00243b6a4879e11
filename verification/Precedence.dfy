/** The tree built by climbing is the precedence tree.

`Expr` is an expression with its brackets kept as groups. `Canonical` says that it
is grouped by precedence, `Tokens` writes it out, and `Erase` drops the groups. The
main theorem feeds the tokens of any canonical expression to the cursor, wherever
the cursor stands, and finds exactly its erased tree there; every well-formed
sequence of tokens is that of one canonical expression.
*/
module Precedence {
  import opened CursorFrame
  import opened CursorLaws
  import opened ParseTree
  import opened Wrappers

  /** An operand comes with what its own dialog does after its node is inserted. */
  datatype Token =
    | Operand(kind: Kind, text: string, inner: seq<Action>)
    | UnaryOp(op: Operator)
    | BinaryOp(op: Operator)
    | OpenBracket
    | CloseBracket

  /** A token, its width in the script and the spaces before it. */
  datatype Lexeme = Lexeme(token: Token, width: nat, spaces: nat)

  function Then(r: Outcome, a: Action): Outcome {
    if r.raised != Quiet || !Enabled(r.cursor, a) then r else Act(r.cursor, a)
  }

  function ThenAll(r: Outcome, actions: seq<Action>): Outcome {
    if r.raised != Quiet then r else Run(r.cursor, actions)
  }

  /** What the expression dialog does on a token. */
  function Read(c: Cursor, t: Lexeme): Outcome {
    var r := Outcome(CountToken(c, 0, t.spaces), Quiet);
    match t.token
    case Operand(kind, text, inner) => ThenAll(Then(Then(r, Simple(kind, text)), Count(t.width, 0)), inner)
    case UnaryOp(op) => Then(Then(Then(r, Count(t.width, 0)), Unary(op)), Ready(Op2))
    case BinaryOp(op) => Then(Then(Then(r, Binary(op)), Count(t.width, 0)), Ready(Op2))
    case OpenBracket => Then(Then(r, Open), Count(t.width, 0))
    case CloseBracket => Then(Then(r, Close), Count(t.width, 0))
  }

  /** Reads tokens until one raises an exception. */
  function Feed(c: Cursor, lexemes: seq<Lexeme>): Outcome
    decreases |lexemes|
  {
    if lexemes == [] then Outcome(c, Quiet)
    else
      var r := Read(c, lexemes[0]);
      if r.raised != Quiet then r else Feed(r.cursor, lexemes[1..])
  }

  function TokensOf(lexemes: seq<Lexeme>): (ts: seq<Token>)
    ensures |ts| == |lexemes|
  {
    seq(|lexemes|, i requires 0 <= i < |lexemes| => lexemes[i].token)
  }

  predicate IsBinary(op: Operator) { op != Undefined && op != NextArg }

  // ----- expressions

  /** A tree without its layout: operators, and operands with all that is in them. */
  datatype Shape =
    | SNode(node: Tree)
    | SBare(op: Operator)
    | SPost(op: Operator, arg: Shape)
    | SUn(op: Operator, arg: Shape)
    | SBin(op: Operator, left: Shape, right: Shape)
    | SOther

  /** A node without its columns and brackets. */
  function Undressed(t: Tree): Tree { t.(width := 0, spaces := 0, brackets := 0, extend := false) }

  function ShapeOf(t: Tree): Shape {
    if t.kind != Operation then SNode(Undressed(t))
    else if t.kids.Keys == {} then SBare(t.op)
    else if t.kids.Keys == {Op1} then SPost(t.op, ShapeOf(t.kids[Op1]))
    else if t.kids.Keys == {Op2} then SUn(t.op, ShapeOf(t.kids[Op2]))
    else if t.kids.Keys == {Op1, Op2} then SBin(t.op, ShapeOf(t.kids[Op1]), ShapeOf(t.kids[Op2]))
    else SOther
  }

  /** `Placed` stands for an operand that is already in the tree; it can only come first.
      `Post` is `x ?` with nothing after it; it can only come last. */
  datatype Expr =
    | Leaf(kind: Kind, text: string, inner: seq<Action>)
    | Placed(shape: Shape)
    | Post(arg: Expr)
    | Un(op: Operator, arg: Expr)
    | Bin(op: Operator, left: Expr, right: Expr)
    | Group(body: Expr)

  function First(e: Expr): Expr {
    if e.Bin? then First(e.left) else if e.Post? then First(e.arg) else e
  }

  /** The priority of the operator at the top; operands, groups and unary operators bind
      tighter than every operator. */
  function TopPriority(e: Expr): nat {
    if e.Bin? then Priority(e.op) else if e.Post? then Priority(Default) else 9
  }

  /** A left operand's operator is never of lower priority, a right operand's is strictly
      higher, and a unary operator applies to no bare binary expression. */
  predicate Canonical(e: Expr) {
    match e
    case Leaf(kind, text, inner) => IsOperand(kind, text, inner)
    case Placed(_) => true
    case Post(_) => false
    case Un(op, arg) => op != NextArg && !arg.Bin? && !First(arg).Placed? && Canonical(arg)
    case Bin(op, l, r) =>
      && IsBinary(op) && Canonical(l) && Canonical(r) && !First(r).Placed?
      && TopPriority(l) >= Priority(op) && TopPriority(r) > Priority(op)
    case Group(body) => !First(body).Placed? && Canonical(body)
  }

  /** Grouped in the same way, with a last `?` that has nothing after it. */
  predicate Dangles(e: Expr) {
    match e
    case Post(arg) => Canonical(arg) && TopPriority(arg) >= Priority(Default)
    case Bin(op, l, r) =>
      && IsBinary(op) && Canonical(l) && Dangles(r) && !First(r).Placed?
      && TopPriority(l) >= Priority(op) && TopPriority(r) > Priority(op)
    case _ => false
  }

  /** The expressions that a field can hold. */
  predicate Grouped(e: Expr) { (Canonical(e) || Dangles(e)) && !First(e).Placed? }

  function Tokens(e: Expr): seq<Token> {
    match e
    case Leaf(kind, text, inner) => [Operand(kind, text, inner)]
    case Placed(_) => []
    case Post(arg) => Tokens(arg) + [BinaryOp(Default)]
    case Un(op, arg) => [UnaryOp(op)] + Tokens(arg)
    case Bin(op, l, r) => Tokens(l) + [BinaryOp(op)] + Tokens(r)
    case Group(body) => [OpenBracket] + Tokens(body) + [CloseBracket]
  }

  function Erase(e: Expr): Shape {
    match e
    case Leaf(kind, text, inner) =>
      if IsOperand(kind, text, inner) then SNode(Undressed(Built(kind, text, inner))) else SOther
    case Placed(shape) => shape
    case Post(arg) => SPost(Default, Erase(arg))
    case Un(op, arg) => SUn(op, Erase(arg))
    case Bin(op, l, r) => SBin(op, Erase(l), Erase(r))
    case Group(body) => Erase(body)
  }

  // ----- climbing a right spine

  function Depth(p: Path): nat {
    if p.Top? then 0 else 1 + Depth(p.up)
  }

  /** The cursor stands on the last operand of a tree that hangs at `base`: climbing from
      it passes only operators of priority `k` or more (or unary ones), none of them
      bracketed, and ends at `base` on a tree of this shape with `b` open brackets. */
  predicate Hangs(c: Cursor, base: Path, k: nat, shape: Shape, b: nat)
    decreases c.path
  {
    && c.focus.Some? && c.brackets == 0
    && if c.path == base then ShapeOf(c.focus.value) == shape && c.focus.value.brackets == b
       else
         && c.path.In? && c.focus.value.brackets == 0 && Passable(c.path.frame, k)
         && Hangs(Lift(c), base, k, shape, b)
  }

  predicate Passable(f: Frame, k: nat) {
    && f.node.kind == Operation && f.node.op != NextArg && f.hole == Op2
    && (Op1 in f.node.kids ==> Priority(f.node.op) >= k)
  }

  /** The node around the cursor stops the climb of an operator of priority `x`. */
  predicate Blocks(p: Path, x: nat) {
    p.In? && p.frame.node.kind == Operation ==>
      (p.frame.hole == Op1 || Op1 in p.frame.node.kids) && Priority(p.frame.node.op) < x
  }

  /** An expression is read inside no other operator, except as an argument. */
  predicate EndsExpression(p: Path) {
    p.In? && p.frame.node.kind == Operation ==> p.frame.node.op == NextArg
  }

  predicate StartsExpression(p: Path) {
    && EndsExpression(p)
    && (p.In? && p.frame.node.kind == Operation ==> p.frame.hole == Op1 || Op1 in p.frame.node.kids)
  }

  lemma {:induction false} FindsBase(c: Cursor, base: Path, k: nat, shape: Shape, b: nat, op: Operator)
    requires Hangs(c, base, k, shape, b)
    requires Priority(op) <= k && (b > 0 || Blocks(base, Priority(op)))
    ensures var r := FindInsertionPoint(c, op);
      && r.raised == Quiet && r.cursor.path == base
      && Hangs(r.cursor, base, k, shape, b)
    decreases c.path
  {
    if c.path != base {
      FindsBase(Lift(c), base, k, shape, b, op);
    }
  }

  lemma {:induction false} ClosesAtBase(c: Cursor, base: Path, k: nat, shape: Shape, b: nat)
    requires Hangs(c, base, k, shape, b) && b > 0
    ensures var r := CloseClimb(c);
      && r.raised == Quiet && r.cursor.path == base
      && Hangs(r.cursor, base, k, shape, b)
    decreases c.path
  {
    if c.path != base {
      ClosesAtBase(Lift(c), base, k, shape, b);
    }
  }

  lemma {:induction false} ReturnsToBase(c: Cursor, base: Path, k: nat, shape: Shape)
    requires Hangs(c, base, k, shape, 0) && EndsExpression(base)
    ensures var r := ReturnTo(c, ToExpression);
      && r.raised == Quiet && r.cursor.path == base
      && Hangs(r.cursor, base, k, shape, 0)
    decreases c.path
  {
    if c.path != base {
      ReturnsToBase(Lift(c), base, k, shape);
    }
  }

  /** Nodes that differ only in columns and brackets, and in the layout of their operands. */
  predicate SameBuild(t: Tree, u: Tree) {
    if t.kind != Operation then Undressed(t) == Undressed(u)
    else
      && t.kind == u.kind && t.op == u.op && t.kids.Keys == u.kids.Keys
      && forall f | f in t.kids :: ShapeOf(t.kids[f]) == ShapeOf(u.kids[f])
  }

  lemma SameShape(t: Tree, u: Tree)
    requires SameBuild(t, u)
    ensures ShapeOf(t) == ShapeOf(u)
  {
    if t.kind != Operation {
    } else if t.kids.Keys == {Op1} {
      assert ShapeOf(t.kids[Op1]) == ShapeOf(u.kids[Op1]);
    } else if t.kids.Keys == {Op2} {
      assert ShapeOf(t.kids[Op2]) == ShapeOf(u.kids[Op2]);
    } else if t.kids.Keys == {Op1, Op2} {
      assert ShapeOf(t.kids[Op1]) == ShapeOf(u.kids[Op1]);
      assert ShapeOf(t.kids[Op2]) == ShapeOf(u.kids[Op2]);
    }
  }

  /** Trees that differ only in columns. */
  predicate Alike(t: Tree, u: Tree) { SameBuild(t, u) && t.brackets == u.brackets }

  lemma {:induction false} HangingIgnoresLayout(c: Cursor, d: Cursor, base: Path, k: nat, shape: Shape, b: nat)
    requires Hangs(c, base, k, shape, b)
    requires c.path == d.path && c.brackets == d.brackets
    requires d.focus.Some? && Alike(c.focus.value, d.focus.value)
    ensures Hangs(d, base, k, shape, b)
    decreases c.path
  {
    SameShape(c.focus.value, d.focus.value);
    if c.path != base {
      HangingIgnoresLayout(Lift(c), Lift(d), base, k, shape, b);
    }
  }

  /** A tree that hangs in the right field of an operator hangs, with it, one node higher. */
  lemma {:induction false} HangsHigher(c: Cursor, f: Frame, up: Path, k: nat, inner: Shape, j: nat, outer: Shape)
    requires Hangs(c, In(f, up), j, inner, 0)
    requires Passable(f, k) && k <= j && f.node.kids.Keys <= {Op1}
    requires outer == if Op1 in f.node.kids then SBin(f.node.op, ShapeOf(f.node.kids[Op1]), inner)
                      else SUn(f.node.op, inner)
    ensures Hangs(c, up, k, outer, f.node.brackets) && Depth(c.path) > Depth(up)
    decreases c.path
  {
    if c.path == In(f, up) {
      var d := Lift(c);
      var t := d.focus.value;
      assert t.kids[Op2] == c.focus.value;
      assert t.kids.Keys == f.node.kids.Keys + {Op2};
      assert ShapeOf(t) == outer;
      assert Depth(c.path) == 1 + Depth(up);
    } else {
      HangsHigher(Lift(c), f, up, k, inner, j, outer);
    }
  }

  // ----- the main theorem

  lemma {:induction false} FeedConcat(c: Cursor, first: seq<Lexeme>, second: seq<Lexeme>)
    requires Feed(c, first).raised == Quiet
    ensures Feed(c, first + second) == Feed(Feed(c, first).cursor, second)
    decreases |first|
  {
    if first == [] {
      assert first + second == second;
    } else {
      assert (first + second)[1..] == first[1..] + second;
      FeedConcat(Read(c, first[0]).cursor, first[1..], second);
    }
  }

  /** Where the tokens of an expression that starts with `Placed` may be fed. */
  predicate CanTake(c: Cursor, e: Expr, b: nat) {
    if First(e).Placed? then Hangs(c, c.path, 9, First(e).shape, b)
    else c.focus.None? && c.brackets == b
  }

  lemma ReadsOperand(c: Cursor, t: Lexeme)
    requires c.focus.None? && t.token.Operand? && IsOperand(t.token.kind, t.token.text, t.token.inner)
    ensures var r := Read(c, t);
      var Operand(kind, text, inner) := t.token;
      && r.raised == Quiet && r.cursor.path == c.path
      && Hangs(r.cursor, c.path, 9, Erase(Leaf(kind, text, inner)), c.brackets)
  {
    var Operand(kind, text, inner) := t.token;
    var x := Extra(c.deferredWidth + t.width, c.deferredSpaces + t.spaces, c.brackets);
    var d := Cursor(Some(Add(NewNode(kind, text), x)), c.path, 0, 0, 0);
    assert Read(c, t) == Run(d, inner);
    BuildsAnywhere(kind, text, inner, d, x);
  }

  lemma ReadsUnary(c: Cursor, t: Lexeme)
    requires c.focus.None? && t.token.UnaryOp?
    ensures var r := Read(c, t);
      && r.raised == Quiet && r.cursor.focus.None? && r.cursor.brackets == 0
      && r.cursor.path.In? && r.cursor.path.up == c.path && r.cursor.path.frame.hole == Op2
      && var n := r.cursor.path.frame.node;
      n.kind == Operation && n.op == t.token.op && n.brackets == c.brackets && n.kids == map[]
  {
  }

  /** The climb of an operator ends at `base`, on a tree of this shape with `b` brackets. */
  predicate Lands(c: Cursor, op: Operator, base: Path, shape: Shape, b: nat) {
    var r := FindInsertionPoint(c, op);
    && r.raised == Quiet && r.cursor.path == base && r.cursor.brackets == 0
    && r.cursor.focus.Some?
    && ShapeOf(r.cursor.focus.value) == shape && r.cursor.focus.value.brackets == b
  }

  /** An operator node whose right operand is still to come. */
  predicate IsOpened(n: Tree, op: Operator, left: Shape, b: nat) {
    && n.kind == Operation && n.op == op && n.brackets == b
    && n.kids.Keys == {Op1} && ShapeOf(n.kids[Op1]) == left
  }

  /** A binary operator goes above the tree it lands on. */
  lemma ReadsBinary(c: Cursor, t: Lexeme, base: Path, left: Shape, b: nat)
    requires t.token.BinaryOp? && t.token.op != Undefined
    requires Lands(CountToken(c, 0, t.spaces), t.token.op, base, left, b)
    ensures var r := Read(c, t);
      && r.raised == Quiet && r.cursor.focus.None? && r.cursor.brackets == 0
      && r.cursor.path.In? && r.cursor.path.up == base && r.cursor.path.frame.hole == Op2
      && IsOpened(r.cursor.path.frame.node, t.token.op, left, b)
  {
  }

  /** A binary operator goes above the tree that hangs at `base`. */
  lemma ReadsAbove(c: Cursor, t: Lexeme, base: Path, k: nat, left: Shape, b: nat)
    requires t.token.BinaryOp? && IsBinary(t.token.op) && Hangs(c, base, k, left, b)
    requires Priority(t.token.op) <= k && (b > 0 || Blocks(base, Priority(t.token.op)))
    ensures var r := Read(c, t);
      && r.raised == Quiet && r.cursor.focus.None? && r.cursor.brackets == 0
      && r.cursor.path.In? && r.cursor.path.up == base && r.cursor.path.frame.hole == Op2
      && IsOpened(r.cursor.path.frame.node, t.token.op, left, b)
  {
    var c1 := CountToken(c, 0, t.spaces);
    HangingIgnoresLayout(c, c1, base, k, left, b);
    FindsBase(c1, base, k, left, b, t.token.op);
    ReadsBinary(c, t, base, left, b);
  }

  lemma ReadsClose(c: Cursor, t: Lexeme, base: Path, k: nat, shape: Shape, b: nat)
    requires Hangs(c, base, k, shape, b) && b > 0 && t.token.CloseBracket?
    ensures var r := Read(c, t);
      r.raised == Quiet && Hangs(r.cursor, base, 9, shape, b - 1)
  {
    var c1 := CountToken(c, 0, t.spaces);
    HangingIgnoresLayout(c, c1, base, k, shape, b);
    ClosesAtBase(c1, base, k, shape, b);
    CloseActions(c, t);
    var d := CloseClimb(c1).cursor;
    var n := d.focus.value;
    SameShape(n, n.(brackets := b - 1, width := n.width + t.width));
  }

  lemma CloseActions(c: Cursor, t: Lexeme)
    requires t.token.CloseBracket? && c.focus.Some?
    requires var r := CloseClimb(CountToken(c, 0, t.spaces));
      r.raised == Quiet && r.cursor.focus.value.brackets > 0
    ensures var d := CloseClimb(CountToken(c, 0, t.spaces)).cursor;
      var n := d.focus.value;
      Read(c, t) == Outcome(d.(focus := Some(n.(brackets := n.brackets - 1, width := n.width + t.width))), Quiet)
  {
  }

  lemma FeedsClose(c: Cursor, t: Lexeme, base: Path, k: nat, shape: Shape, b: nat)
    requires Hangs(c, base, k, shape, b) && b > 0 && t.token.CloseBracket?
    ensures var r := Feed(c, [t]);
      r.raised == Quiet && Hangs(r.cursor, base, 9, shape, b - 1)
  {
    ReadsClose(c, t, base, k, shape, b);
    FeedFirst(c, [t]);
  }

  /** The tokens of a canonical expression, fed to a cursor that stands on an empty field,
      leave exactly its tree hanging there, whatever is around it. */
  lemma {:induction false} Builds(e: Expr, lexemes: seq<Lexeme>, c: Cursor, b: nat)
    requires Canonical(e) && TokensOf(lexemes) == Tokens(e) && CanTake(c, e, b)
    requires b > 0 || !e.Bin? || Blocks(c.path, TopPriority(e))
    ensures var r := Feed(c, lexemes);
      r.raised == Quiet && Hangs(r.cursor, c.path, TopPriority(e), Erase(e), b)
    decreases e
  {
    match e
    case Leaf(_, _, _) =>
      assert lexemes == [lexemes[0]] && lexemes[0].token == TokensOf(lexemes)[0];
      ReadsOperand(c, lexemes[0]);
    case Placed(_) =>
    case Un(_, _) => BuildsUnary(e, lexemes, c, b);
    case Bin(_, _, _) => BuildsBinary(e, lexemes, c, b);
    case Group(_) => BuildsGroup(e, lexemes, c, b);
  }

  lemma {:induction false} BuildsUnary(e: Expr, lexemes: seq<Lexeme>, c: Cursor, b: nat)
    requires e.Un?
    requires Canonical(e) && TokensOf(lexemes) == Tokens(e) && CanTake(c, e, b)
    ensures var r := Feed(c, lexemes);
      r.raised == Quiet && Hangs(r.cursor, c.path, TopPriority(e), Erase(e), b)
    decreases e, 1
  {
    SplitAt(lexemes, [UnaryOp(e.op)], Tokens(e.arg));
    ReadsUnary(c, lexemes[0]);
    FeedFirst(c, lexemes);
    BuildsArgument(e, lexemes[1..], Read(c, lexemes[0]).cursor, c.path, b);
  }

  lemma {:induction false} BuildsArgument(e: Expr, rest: seq<Lexeme>, c: Cursor, base: Path, b: nat)
    requires e.Un? && Canonical(e) && TokensOf(rest) == Tokens(e.arg)
    requires c.focus.None? && c.brackets == 0
    requires c.path.In? && c.path.up == base && c.path.frame.hole == Op2
    requires var n := c.path.frame.node;
      n.kind == Operation && n.op == e.op && n.brackets == b && n.kids == map[]
    requires e.op != NextArg
    ensures var r := Feed(c, rest);
      r.raised == Quiet && Hangs(r.cursor, base, 9, Erase(e), b)
    decreases e, 0
  {
    Builds(e.arg, rest, c, 0);
    HangsHigher(Feed(c, rest).cursor, c.path.frame, base, 9, Erase(e.arg), 9, Erase(e));
  }

  lemma {:induction false} BuildsGroup(e: Expr, lexemes: seq<Lexeme>, c: Cursor, b: nat)
    requires e.Group?
    requires Canonical(e) && TokensOf(lexemes) == Tokens(e) && CanTake(c, e, b)
    ensures var r := Feed(c, lexemes);
      r.raised == Quiet && Hangs(r.cursor, c.path, TopPriority(e), Erase(e), b)
    decreases e, 1
  {
    SplitAt(lexemes, [OpenBracket], Tokens(e.body) + [CloseBracket]);
    ReadsOpen(c, lexemes[0]);
    FeedFirst(c, lexemes);
    BuildsBody(e, lexemes[1..], Read(c, lexemes[0]).cursor, b);
  }

  lemma ReadsOpen(c: Cursor, t: Lexeme)
    requires c.focus.None? && t.token.OpenBracket?
    ensures var r := Read(c, t);
      && r.raised == Quiet && r.cursor.focus.None? && r.cursor.brackets == c.brackets + 1
      && r.cursor.path == c.path
  {
  }

  lemma {:induction false} BuildsBody(e: Expr, rest: seq<Lexeme>, c: Cursor, b: nat)
    requires e.Group? && Canonical(e) && TokensOf(rest) == Tokens(e.body) + [CloseBracket]
    requires c.focus.None? && c.brackets == b + 1
    ensures var r := Feed(c, rest);
      r.raised == Quiet && Hangs(r.cursor, c.path, 9, Erase(e), b)
    decreases e, 0
  {
    SplitAt(rest, Tokens(e.body), [CloseBracket]);
    var n := |Tokens(e.body)|;
    assert rest[n].token == [CloseBracket][0];
    assert rest == rest[..n] + [rest[n]];
    Builds(e.body, rest[..n], c, b + 1);
    FeedsGroup(c, rest[..n], rest[n], TopPriority(e.body), Erase(e.body), b + 1);
  }

  lemma FeedsGroup(c: Cursor, inner: seq<Lexeme>, last: Lexeme, k: nat, shape: Shape, b: nat)
    requires Feed(c, inner).raised == Quiet && Hangs(Feed(c, inner).cursor, c.path, k, shape, b)
    requires b > 0 && last.token.CloseBracket?
    ensures var r := Feed(c, inner + [last]);
      r.raised == Quiet && Hangs(r.cursor, c.path, 9, shape, b - 1)
  {
    FeedConcat(c, inner, [last]);
    FeedsClose(Feed(c, inner).cursor, last, c.path, k, shape, b);
  }

  lemma FeedFirst(c: Cursor, lexemes: seq<Lexeme>)
    requires lexemes != [] && Read(c, lexemes[0]).raised == Quiet
    ensures Feed(c, lexemes) == Feed(Read(c, lexemes[0]).cursor, lexemes[1..])
    ensures |lexemes| == 1 ==> Feed(c, lexemes) == Read(c, lexemes[0])
  {
  }

  lemma {:induction false} BuildsBinary(e: Expr, lexemes: seq<Lexeme>, c: Cursor, b: nat)
    requires e.Bin?
    requires Canonical(e) && TokensOf(lexemes) == Tokens(e) && CanTake(c, e, b)
    requires b > 0 || Blocks(c.path, TopPriority(e))
    ensures var r := Feed(c, lexemes);
      r.raised == Quiet && Hangs(r.cursor, c.path, TopPriority(e), Erase(e), b)
    decreases e, 2
  {
    var Bin(op, l, r) := e;
    var left, right := SplitBinary(e, lexemes);
    Builds(l, left, c, b);
    FeedConcat(c, left, right);
    BuildsRight(e, right, Feed(c, left).cursor, c.path, b);
  }

  lemma {:induction false} BuildsRight(e: Expr, rest: seq<Lexeme>, c: Cursor, base: Path, b: nat)
    requires e.Bin? && Canonical(e)
    requires rest != [] && rest[0].token == BinaryOp(e.op) && TokensOf(rest[1..]) == Tokens(e.right)
    requires Hangs(c, base, TopPriority(e.left), Erase(e.left), b)
    requires b > 0 || Blocks(base, TopPriority(e))
    ensures var r := Feed(c, rest);
      r.raised == Quiet && Hangs(r.cursor, base, TopPriority(e), Erase(e), b)
    decreases e, 1
  {
    ReadsAbove(c, rest[0], base, TopPriority(e.left), Erase(e.left), b);
    FeedFirst(c, rest);
    BuildsRightOperand(e, rest[1..], Read(c, rest[0]).cursor, base, b);
  }

  lemma {:induction false} BuildsRightOperand(e: Expr, rest: seq<Lexeme>, c: Cursor, base: Path, b: nat)
    requires e.Bin? && Canonical(e) && TokensOf(rest) == Tokens(e.right)
    requires c.focus.None? && c.brackets == 0
    requires c.path.In? && c.path.up == base && c.path.frame.hole == Op2
    requires IsOpened(c.path.frame.node, e.op, Erase(e.left), b)
    ensures var r := Feed(c, rest);
      r.raised == Quiet && Hangs(r.cursor, base, TopPriority(e), Erase(e), b)
    decreases e, 0
  {
    Builds(e.right, rest, c, 0);
    HangsHigher(Feed(c, rest).cursor, c.path.frame, base, Priority(e.op), Erase(e.right),
                TopPriority(e.right), Erase(e));
  }

  lemma SplitAt(lexemes: seq<Lexeme>, first: seq<Token>, second: seq<Token>)
    requires TokensOf(lexemes) == first + second
    ensures |lexemes| == |first| + |second|
    ensures TokensOf(lexemes[..|first|]) == first && TokensOf(lexemes[|first|..]) == second
    ensures forall i | 0 <= i < |first| :: lexemes[i].token == first[i]
    ensures forall i | 0 <= i < |second| :: lexemes[|first| + i].token == second[i]
  {
    assert |lexemes| == |TokensOf(lexemes)|;
    assert forall i | 0 <= i < |lexemes| :: lexemes[i].token == (first + second)[i];
  }

  /** The tokens of the left operand, and the operator with those of the right one. */
  lemma SplitBinary(e: Expr, lexemes: seq<Lexeme>) returns (left: seq<Lexeme>, right: seq<Lexeme>)
    requires e.Bin? && TokensOf(lexemes) == Tokens(e)
    ensures lexemes == left + right && TokensOf(left) == Tokens(e.left)
    ensures right != [] && right[0].token == BinaryOp(e.op) && TokensOf(right[1..]) == Tokens(e.right)
  {
    var n, rest := |Tokens(e.left)|, [BinaryOp(e.op)] + Tokens(e.right);
    assert Tokens(e) == Tokens(e.left) + rest;
    SplitAt(lexemes, Tokens(e.left), rest);
    left, right := lexemes[..n], lexemes[n..];
    assert lexemes == left + right;
    SplitAt(right, [BinaryOp(e.op)], Tokens(e.right));
  }

  // ----- a default operator with nothing after it

  /** The cursor stands on the empty right field of a `?`: climbing from it passes only
      operators of priority `k` or more, and ends at `base` on a tree of this shape. */
  predicate Awaits(c: Cursor, base: Path, k: nat, shape: Shape) {
    && c.focus.None? && c.brackets == 0 && c.path != base && c.path.In?
    && Passable(c.path.frame, k) && Hangs(Lift(c), base, k, shape, 0)
  }

  /** An expression that ends in such a `?` leaves its tree hanging around the empty field. */
  lemma {:induction false} BuildsDangling(e: Expr, lexemes: seq<Lexeme>, c: Cursor)
    requires Dangles(e) && !First(e).Placed? && TokensOf(lexemes) == Tokens(e)
    requires c.focus.None? && c.brackets == 0 && Blocks(c.path, TopPriority(e))
    ensures var r := Feed(c, lexemes);
      r.raised == Quiet && Awaits(r.cursor, c.path, TopPriority(e), Erase(e))
    decreases e, 1
  {
    match e
    case Post(arg) => BuildsPost(arg, lexemes, c);
    case Bin(op, l, r) =>
      var left, right := SplitBinary(e, lexemes);
      Builds(l, left, c, 0);
      FeedConcat(c, left, right);
      BuildsRightDangling(e, right, Feed(c, left).cursor, c.path);
  }

  lemma {:induction false} BuildsPost(arg: Expr, lexemes: seq<Lexeme>, c: Cursor)
    requires Dangles(Post(arg)) && !First(arg).Placed? && TokensOf(lexemes) == Tokens(Post(arg))
    requires c.focus.None? && c.brackets == 0 && Blocks(c.path, Priority(Default))
    ensures var r := Feed(c, lexemes);
      r.raised == Quiet && Awaits(r.cursor, c.path, Priority(Default), SPost(Default, Erase(arg)))
  {
    var n := |Tokens(arg)|;
    SplitAt(lexemes, Tokens(arg), [BinaryOp(Default)]);
    var last := lexemes[n];
    assert last.token == [BinaryOp(Default)][0] && lexemes == lexemes[..n] + [last];
    Builds(arg, lexemes[..n], c, 0);
    FeedConcat(c, lexemes[..n], [last]);
    var d := Feed(c, lexemes[..n]).cursor;
    ReadsAbove(d, last, c.path, TopPriority(arg), Erase(arg), 0);
    FeedFirst(d, [last]);
    OpensPost(Read(d, last).cursor, c.path, Erase(arg));
  }

  lemma OpensPost(c: Cursor, base: Path, left: Shape)
    requires c.focus.None? && c.brackets == 0
    requires c.path.In? && c.path.up == base && c.path.frame.hole == Op2
    requires IsOpened(c.path.frame.node, Default, left, 0)
    ensures Awaits(c, base, Priority(Default), SPost(Default, left))
  {
    assert Depth(c.path) == 1 + Depth(base);
  }

  lemma {:induction false} BuildsRightDangling(e: Expr, rest: seq<Lexeme>, c: Cursor, base: Path)
    requires e.Bin? && Dangles(e)
    requires rest != [] && rest[0].token == BinaryOp(e.op) && TokensOf(rest[1..]) == Tokens(e.right)
    requires Hangs(c, base, TopPriority(e.left), Erase(e.left), 0) && Blocks(base, TopPriority(e))
    ensures var r := Feed(c, rest);
      r.raised == Quiet && Awaits(r.cursor, base, TopPriority(e), Erase(e))
    decreases e, 0
  {
    ReadsAbove(c, rest[0], base, TopPriority(e.left), Erase(e.left), 0);
    FeedFirst(c, rest);
    var d := Read(c, rest[0]).cursor;
    BuildsDangling(e.right, rest[1..], d);
    AwaitsHigher(Feed(d, rest[1..]).cursor, d.path.frame, base, Priority(e.op), Erase(e.right),
                 TopPriority(e.right), Erase(e));
  }

  lemma AwaitsHigher(c: Cursor, f: Frame, up: Path, k: nat, inner: Shape, j: nat, outer: Shape)
    requires Awaits(c, In(f, up), j, inner) && f.node.brackets == 0
    requires Passable(f, k) && k <= j && f.node.kids.Keys == {Op1}
    requires outer == SBin(f.node.op, ShapeOf(f.node.kids[Op1]), inner)
    ensures Awaits(c, up, k, outer)
  {
    HangsHigher(Lift(c), f, up, k, inner, j, outer);
    assert Depth(c.path) > Depth(up);
  }

  // ----- whole expressions

  /** Read in full and closed off, the tokens leave this tree where the cursor stood, with no
      exception, no bracket open and the cursor back in its place. */
  predicate IsParsedTo(c: Cursor, lexemes: seq<Lexeme>, shape: Shape) {
    var r := Feed(c, lexemes);
    && r.raised == Quiet
    && var d := ReturnTo(r.cursor, ToExpression);
    && d.raised == Quiet && d.cursor.path == c.path && d.cursor.brackets == 0
    && d.cursor.focus.Some?
    && ShapeOf(d.cursor.focus.value) == shape && d.cursor.focus.value.brackets == 0
  }

  /** Climbing is precedence parsing: read in full and closed off, an expression grouped by
      precedence becomes its own tree in the field where the cursor stood. */
  lemma {:induction false} ParsesByPrecedence(e: Expr, lexemes: seq<Lexeme>, c: Cursor)
    requires Grouped(e) && TokensOf(lexemes) == Tokens(e)
    requires c.focus.None? && c.brackets == 0 && StartsExpression(c.path)
    ensures IsParsedTo(c, lexemes, Erase(e))
  {
    if Canonical(e) {
      Builds(e, lexemes, c, 0);
      ReturnsToBase(Feed(c, lexemes).cursor, c.path, TopPriority(e), Erase(e));
    } else {
      BuildsDangling(e, lexemes, c);
      ReturnsToBase(Lift(Feed(c, lexemes).cursor), c.path, TopPriority(e), Erase(e));
    }
  }

  /** So a sequence of tokens has one precedence tree. */
  lemma CanonicalTreeUnique(e1: Expr, e2: Expr)
    requires Grouped(e1) && Grouped(e2) && Tokens(e1) == Tokens(e2)
    ensures Erase(e1) == Erase(e2)
  {
    var ts := Tokens(e1);
    var lexemes := seq(|ts|, i requires 0 <= i < |ts| => Lexeme(ts[i], 1, 0));
    assert TokensOf(lexemes) == ts;
    ParsesByPrecedence(e1, lexemes, START);
    ParsesByPrecedence(e2, lexemes, START);
  }

  // ----- every well-formed sequence has a canonical expression

  /** The dialog's states Expect-Operand, Allow-Operand, which follows a `?`, and
      Allow-Operator. */
  datatype Turn = ExpectOperand | AllowOperand | AllowOperator

  /** Operands and operators in their turns, brackets matched, with so many brackets open. */
  predicate Accepts(ts: seq<Token>, turn: Turn, depth: nat) {
    if ts == [] then !turn.ExpectOperand? && depth == 0
    else match ts[0]
      case Operand(kind, text, inner) =>
        !turn.AllowOperator? && IsOperand(kind, text, inner) && Accepts(ts[1..], AllowOperator, depth)
      case UnaryOp(op) => !turn.AllowOperator? && op != NextArg && Accepts(ts[1..], ExpectOperand, depth)
      case OpenBracket => !turn.AllowOperator? && Accepts(ts[1..], ExpectOperand, depth + 1)
      case BinaryOp(op) => turn.AllowOperator? && IsBinary(op) && Accepts(ts[1..], TurnAfter(op), depth)
      case CloseBracket => turn.AllowOperator? && depth > 0 && Accepts(ts[1..], AllowOperator, depth - 1)
  }

  /** What may follow an operator. */
  function TurnAfter(op: Operator): Turn { if op == Default then AllowOperand else ExpectOperand }

  predicate WellFormed(ts: seq<Token>) { Accepts(ts, ExpectOperand, 0) }

  lemma Regroup(a: seq<Token>, b: seq<Token>, c: seq<Token>, d: seq<Token>)
    ensures a + (b + c + d) == a + b + c + d
  {
  }

  /** Puts one more operator and operand at the right end, by precedence. */
  function Append(e: Expr, op: Operator, p: Expr): (r: Expr)
    requires Canonical(e) && IsBinary(op) && Canonical(p) && !p.Bin? && !p.Placed?
    ensures Canonical(r) && r.Bin? && First(r) == First(e)
    ensures TopPriority(r) == if TopPriority(e) < Priority(op) then TopPriority(e) else Priority(op)
    ensures Tokens(r) == Tokens(e) + [BinaryOp(op)] + Tokens(p)
  {
    if TopPriority(e) >= Priority(op) then Bin(op, e, p)
    else
      var right := Append(e.right, op, p);
      Regroup(Tokens(e.left) + [BinaryOp(e.op)], Tokens(e.right), [BinaryOp(op)], Tokens(p));
      Bin(e.op, e.left, right)
  }

  /** Puts a `?` with nothing after it at the right end. */
  function AppendPost(e: Expr): (r: Expr)
    requires Canonical(e)
    ensures Dangles(r) && First(r) == First(e)
    ensures TopPriority(r) == if TopPriority(e) < Priority(Default) then TopPriority(e) else Priority(Default)
    ensures Tokens(r) == Tokens(e) + [BinaryOp(Default)]
  {
    if TopPriority(e) >= Priority(Default) then Post(e)
    else
      var right := AppendPost(e.right);
      assert Tokens(e.left) + [BinaryOp(e.op)] + Tokens(right)
        == Tokens(e.left) + [BinaryOp(e.op)] + Tokens(e.right) + [BinaryOp(Default)];
      Bin(e.op, e.left, right)
  }

  /** Reads an operand with its unary operators, or a bracketed group. */
  lemma {:induction false} TakeOperand(ts: seq<Token>, turn: Turn, depth: nat) returns (e: Expr, rest: seq<Token>)
    requires ts != [] && !turn.AllowOperator? && Accepts(ts, turn, depth)
    ensures ts == Tokens(e) + rest && |rest| < |ts| && Accepts(rest, AllowOperator, depth)
    ensures Canonical(e) && !e.Bin? && !e.Placed?
    decreases |ts|, 0
  {
    match ts[0]
    case Operand(kind, text, inner) =>
      e, rest := Leaf(kind, text, inner), ts[1..];
    case UnaryOp(op) =>
      var arg;
      arg, rest := TakeOperand(ts[1..], ExpectOperand, depth);
      e := Un(op, arg);
      assert ts == [ts[0]] + ts[1..];
    case OpenBracket => e, rest := TakeGroup(ts, depth);
  }

  lemma {:induction false} TakeGroup(ts: seq<Token>, depth: nat) returns (e: Expr, rest: seq<Token>)
    requires ts != [] && ts[0].OpenBracket? && Accepts(ts[1..], ExpectOperand, depth + 1)
    ensures ts == Tokens(e) + rest && |rest| < |ts| && Accepts(rest, AllowOperator, depth)
    ensures Canonical(e) && e.Group?
    decreases |ts| - 1, 2
  {
    var body, close := TakeExpression(ts[1..], depth + 1);
    e, rest := Group(body), close[1..];
    assert ts == [ts[0]] + (Tokens(body) + ([CloseBracket] + rest));
  }

  /** Reads up to the bracket that closes this expression, or to the end. */
  lemma {:induction false} TakeExpression(ts: seq<Token>, depth: nat) returns (e: Expr, rest: seq<Token>)
    requires Accepts(ts, ExpectOperand, depth)
    ensures ts == Tokens(e) + rest && |rest| < |ts| && Accepts(rest, AllowOperator, depth)
    ensures Grouped(e) && (rest != [] ==> Canonical(e))
    ensures if rest == [] then depth == 0 else rest[0] == CloseBracket
    decreases |ts|, 1
  {
    e, rest := TakeOperand(ts, ExpectOperand, depth);
    while rest != [] && rest[0].BinaryOp?
      invariant ts == Tokens(e) + rest && |rest| < |ts| && Accepts(rest, AllowOperator, depth)
      invariant Grouped(e) && (rest != [] ==> Canonical(e))
      decreases |rest|
    {
      e, rest := TakeNext(ts, e, rest, depth);
    }
  }

  lemma {:induction false} TakeNext(ts: seq<Token>, e: Expr, rest: seq<Token>, depth: nat)
    returns (longer: Expr, rest': seq<Token>)
    requires ts == Tokens(e) + rest && |rest| < |ts| && Accepts(rest, AllowOperator, depth)
    requires Canonical(e) && !First(e).Placed? && rest != [] && rest[0].BinaryOp?
    ensures ts == Tokens(longer) + rest' && |rest'| < |rest| && Accepts(rest', AllowOperator, depth)
    ensures Grouped(longer) && (rest' != [] ==> Canonical(longer))
    decreases |ts|, 0
  {
    var op := rest[0].op;
    if rest[1..] == [] {
      longer, rest' := AppendPost(e), [];
      assert rest == [BinaryOp(Default)];
    } else {
      var p;
      p, rest' := TakeOperand(rest[1..], TurnAfter(op), depth);
      longer := Append(e, op, p);
      TokensRegroup(Tokens(e), rest, Tokens(p), rest');
    }
  }

  lemma TokensRegroup(front: seq<Token>, rest: seq<Token>, operand: seq<Token>, rest': seq<Token>)
    requires rest != [] && rest[1..] == operand + rest'
    ensures front + rest == (front + [rest[0]] + operand) + rest'
  {
  }

  lemma {:induction false} WellFormedIsCanonical(ts: seq<Token>) returns (e: Expr)
    requires WellFormed(ts)
    ensures Grouped(e) && Tokens(e) == ts
  {
    var rest;
    e, rest := TakeExpression(ts, 0);
    assert rest == [];
  }

  lemma {:induction false} CanonicalAccepted(e: Expr, rest: seq<Token>, turn: Turn, depth: nat)
    requires Canonical(e) && !First(e).Placed? && Accepts(rest, AllowOperator, depth) && !turn.AllowOperator?
    ensures Accepts(Tokens(e) + rest, turn, depth)
  {
    match e
    case Leaf(kind, text, inner) =>
      AcceptsNext(Operand(kind, text, inner), rest, turn, depth);
    case Un(op, arg) =>
      CanonicalAccepted(arg, rest, ExpectOperand, depth);
      AcceptsUnary(op, Tokens(arg), rest, turn, depth);
    case Bin(op, l, r) =>
      CanonicalAccepted(r, rest, TurnAfter(op), depth);
      AcceptsNext(BinaryOp(op), Tokens(r) + rest, AllowOperator, depth);
      CanonicalAccepted(l, [BinaryOp(op)] + (Tokens(r) + rest), turn, depth);
      AcceptsRegrouped(Tokens(l), BinaryOp(op), Tokens(r), rest, turn, depth);
    case Group(body) =>
      AcceptsNext(CloseBracket, rest, AllowOperator, depth + 1);
      CanonicalAccepted(body, [CloseBracket] + rest, ExpectOperand, depth + 1);
      AcceptsGroup(Tokens(body), rest, turn, depth);
  }

  lemma {:induction false} DanglingAccepted(e: Expr, turn: Turn)
    requires Dangles(e) && !First(e).Placed? && !turn.AllowOperator?
    ensures Accepts(Tokens(e), turn, 0)
  {
    match e
    case Post(arg) =>
      DefaultAccepted();
      CanonicalAccepted(arg, [BinaryOp(Default)], turn, 0);
    case Bin(op, l, r) =>
      DanglingAccepted(r, TurnAfter(op));
      AcceptsNext(BinaryOp(op), Tokens(r), AllowOperator, 0);
      CanonicalAccepted(l, [BinaryOp(op)] + Tokens(r), turn, 0);
      AcceptsJoined(Tokens(l), BinaryOp(op), Tokens(r), turn, 0);
  }

  lemma DefaultAccepted()
    ensures Accepts([BinaryOp(Default)], AllowOperator, 0)
  {
    assert [BinaryOp(Default)][1..] == [];
  }

  lemma AcceptsJoined(left: seq<Token>, t: Token, right: seq<Token>, turn: Turn, depth: nat)
    requires Accepts(left + ([t] + right), turn, depth)
    ensures Accepts(left + [t] + right, turn, depth)
  {
    assert left + [t] + right == left + ([t] + right);
  }

  lemma {:induction false} CanonicalIsWellFormed(e: Expr)
    requires Grouped(e)
    ensures WellFormed(Tokens(e))
  {
    if Canonical(e) {
      CanonicalAccepted(e, [], ExpectOperand, 0);
      assert Tokens(e) + [] == Tokens(e);
    } else {
      DanglingAccepted(e, ExpectOperand);
    }
  }

  lemma AcceptsRegrouped(left: seq<Token>, t: Token, right: seq<Token>, rest: seq<Token>, turn: Turn, depth: nat)
    requires Accepts(left + ([t] + (right + rest)), turn, depth)
    ensures Accepts(left + [t] + right + rest, turn, depth)
  {
    assert left + [t] + right + rest == left + ([t] + (right + rest));
  }

  lemma AcceptsUnary(op: Operator, arg: seq<Token>, rest: seq<Token>, turn: Turn, depth: nat)
    requires op != NextArg && Accepts(arg + rest, ExpectOperand, depth) && !turn.AllowOperator?
    ensures Accepts([UnaryOp(op)] + arg + rest, turn, depth)
  {
    AcceptsNext(UnaryOp(op), arg + rest, turn, depth);
    assert [UnaryOp(op)] + arg + rest == [UnaryOp(op)] + (arg + rest);
  }

  lemma AcceptsGroup(body: seq<Token>, rest: seq<Token>, turn: Turn, depth: nat)
    requires Accepts(body + ([CloseBracket] + rest), ExpectOperand, depth + 1) && !turn.AllowOperator?
    ensures Accepts([OpenBracket] + body + [CloseBracket] + rest, turn, depth)
  {
    AcceptsNext(OpenBracket, body + ([CloseBracket] + rest), turn, depth);
    assert [OpenBracket] + body + [CloseBracket] + rest == [OpenBracket] + (body + ([CloseBracket] + rest));
  }

  lemma AcceptsNext(t: Token, rest: seq<Token>, turn: Turn, depth: nat)
    requires match t
      case Operand(kind, text, inner) =>
        !turn.AllowOperator? && IsOperand(kind, text, inner) && Accepts(rest, AllowOperator, depth)
      case UnaryOp(op) => !turn.AllowOperator? && op != NextArg && Accepts(rest, ExpectOperand, depth)
      case OpenBracket => !turn.AllowOperator? && Accepts(rest, ExpectOperand, depth + 1)
      case BinaryOp(op) => turn.AllowOperator? && IsBinary(op) && Accepts(rest, TurnAfter(op), depth)
      case CloseBracket => turn.AllowOperator? && depth > 0 && Accepts(rest, AllowOperator, depth - 1)
    ensures Accepts([t] + rest, turn, depth)
  {
  }

  /** Every well-formed sequence of tokens, whatever its widths and spaces, is parsed without
      an exception into the one tree, grouped by precedence, that its tokens spell. */
  lemma {:induction false} ParsesEveryExpression(lexemes: seq<Lexeme>, c: Cursor) returns (e: Expr)
    requires WellFormed(TokensOf(lexemes))
    requires c.focus.None? && c.brackets == 0 && StartsExpression(c.path)
    ensures Grouped(e) && Tokens(e) == TokensOf(lexemes)
    ensures IsParsedTo(c, lexemes, Erase(e))
  {
    e := WellFormedIsCanonical(TokensOf(lexemes));
    ParsesByPrecedence(e, lexemes, c);
  }

  // ----- columns

  function LexemeColumns(lexemes: seq<Lexeme>): nat {
    if lexemes == [] then 0
    else ColumnsOf(lexemes[0]) + LexemeColumns(lexemes[1..])
  }

  /** The columns of a token, with those that an operand's dialog counts. */
  function ColumnsOf(t: Lexeme): nat {
    t.width + t.spaces + if t.token.Operand? then TotalCounted(t.token.inner) else 0
  }

  /** The operands among the tokens are finished ones. */
  predicate AreOperands(lexemes: seq<Lexeme>) {
    forall t <- lexemes :: IsOperandToken(t.token)
  }

  predicate IsOperandToken(t: Token) { t.Operand? ==> IsOperand(t.kind, t.text, t.inner) }

  lemma ThenConservesColumns(r: Outcome, a: Action)
    requires Then(r, a).raised == Quiet && (Counted(a) > 0 ==> Enabled(r.cursor, a))
    ensures Columns(Then(r, a).cursor) == Columns(r.cursor) + Counted(a)
  {
    if r.raised == Quiet && Enabled(r.cursor, a) {
      ActConservesColumns(r.cursor, a);
    }
  }

  lemma TwoConserveColumns(r: Outcome, a: Action, b: Action)
    requires Then(Then(r, a), b).raised == Quiet
    requires Counted(a) > 0 ==> Enabled(r.cursor, a)
    requires Counted(b) > 0 ==> Enabled(Then(r, a).cursor, b)
    ensures Columns(Then(Then(r, a), b).cursor) == Columns(r.cursor) + Counted(a) + Counted(b)
  {
    ThenConservesColumns(r, a);
    ThenConservesColumns(Then(r, a), b);
  }

  lemma OperatorConservesColumns(r: Outcome, a: Action, b: Action)
    requires Then(Then(Then(r, a), b), Ready(Op2)).raised == Quiet
    requires Counted(a) > 0 ==> Enabled(r.cursor, a)
    requires Counted(b) > 0 ==> Enabled(Then(r, a).cursor, b)
    ensures Columns(Then(Then(Then(r, a), b), Ready(Op2)).cursor)
      == Columns(r.cursor) + Counted(a) + Counted(b)
  {
    TwoConserveColumns(r, a, b);
    ThenConservesColumns(Then(Then(r, a), b), Ready(Op2));
  }

  lemma {:induction false} AcceptedAreOperands(lexemes: seq<Lexeme>, turn: Turn, depth: nat)
    requires Accepts(TokensOf(lexemes), turn, depth)
    ensures AreOperands(lexemes)
    decreases |lexemes|
  {
    if lexemes != [] {
      var rest := lexemes[1..];
      assert TokensOf(lexemes)[1..] == TokensOf(rest);
      match lexemes[0].token {
        case Operand(_, _, _) => AcceptedAreOperands(rest, AllowOperator, depth);
        case UnaryOp(_) => AcceptedAreOperands(rest, ExpectOperand, depth);
        case OpenBracket => AcceptedAreOperands(rest, ExpectOperand, depth + 1);
        case BinaryOp(op) => AcceptedAreOperands(rest, TurnAfter(op), depth);
        case CloseBracket => AcceptedAreOperands(rest, AllowOperator, depth - 1);
      }
      assert lexemes == [lexemes[0]] + rest;
    }
  }

  function LayoutOf(t: Tree): Extra { Extra(t.width, t.spaces, t.brackets) }

  lemma {:induction false} FindKeepsPending(c: Cursor, op: Operator)
    ensures FindInsertionPoint(c, op).cursor.brackets == c.brackets
    decreases c.path
  {
    if Climbs(c, op) && ReturnOneLevel(c).raised == Quiet {
      FindKeepsPending(Lift(c), op);
    }
  }

  /** After its node is inserted, an operand's dialog runs to its end. */
  lemma OperandCompletes(r: Outcome, t: Lexeme)
    requires t.token.Operand? && IsOperandToken(t.token) && r.raised == Quiet
    requires Then(Then(r, Simple(t.token.kind, t.token.text)), Count(t.width, 0)).raised == Quiet
    ensures var d := Then(Then(r, Simple(t.token.kind, t.token.text)), Count(t.width, 0)).cursor;
      && Completes(d, t.token.inner) && d.focus.Some?
      && d == Embed(AtLeaf(t.token.kind, t.token.text), d.path, LayoutOf(d.focus.value))
  {
    var Operand(kind, text, inner) := t.token;
    var inserted := InsertSimpleNode(r.cursor, kind, text).cursor;
    var leaf := inserted.focus.value;
    FindKeepsPending(r.cursor.(brackets := 0), Undefined);
    var x := Extra(leaf.width + t.width, leaf.spaces, leaf.brackets);
    assert CountToken(inserted, t.width, 0) == Cursor(Some(Add(NewNode(kind, text), x)), inserted.path, 0, 0, 0);
    BuildsAnywhere(kind, text, inner, CountToken(inserted, t.width, 0), x);
  }

  lemma OperandConservesColumns(r: Outcome, t: Lexeme)
    requires t.token.Operand? && IsOperandToken(t.token) && r.raised == Quiet
    requires Then(Then(r, Simple(t.token.kind, t.token.text)), Count(t.width, 0)).raised == Quiet
    ensures var counted := Then(Then(r, Simple(t.token.kind, t.token.text)), Count(t.width, 0));
      Columns(ThenAll(counted, t.token.inner).cursor) == Columns(r.cursor) + t.width + TotalCounted(t.token.inner)
  {
    var counted := Then(Then(r, Simple(t.token.kind, t.token.text)), Count(t.width, 0));
    TwoConserveColumns(r, Simple(t.token.kind, t.token.text), Count(t.width, 0));
    OperandCompletes(r, t);
    RunConservesColumns(counted.cursor, t.token.inner);
  }

  lemma ReadConservesColumns(c: Cursor, t: Lexeme)
    requires Read(c, t).raised == Quiet && IsOperandToken(t.token)
    ensures Columns(Read(c, t).cursor) == Columns(c) + ColumnsOf(t)
  {
    var r := Outcome(CountToken(c, 0, t.spaces), Quiet);
    var count := Count(t.width, 0);
    assert Columns(r.cursor) == Columns(c) + t.spaces;
    match t.token
    case Operand(_, _, _) => OperandConservesColumns(r, t);
    case UnaryOp(op) => OperatorConservesColumns(r, count, Unary(op));
    case BinaryOp(op) => OperatorConservesColumns(r, Binary(op), count);
    case OpenBracket => TwoConserveColumns(r, Open, count);
    case CloseBracket => TwoConserveColumns(r, Close, count);
  }

  lemma {:induction false} FeedConservesColumns(c: Cursor, lexemes: seq<Lexeme>)
    requires Feed(c, lexemes).raised == Quiet && AreOperands(lexemes)
    ensures Columns(Feed(c, lexemes).cursor) == Columns(c) + LexemeColumns(lexemes)
    decreases |lexemes|
  {
    if lexemes != [] {
      ReadConservesColumns(c, lexemes[0]);
      FeedConservesColumns(Read(c, lexemes[0]).cursor, lexemes[1..]);
    }
  }

  // ----- empty arguments

  /** The second argument of a call whose first argument is empty: `f (, ...)`. */
  predicate AfterEmptyArgument(p: Path) {
    && p.In? && p.frame.node.kind == Operation && p.frame.node.op == NextArg
    && p.frame.hole == Op2 && p.frame.node.kids == map[] && p.frame.node.brackets == 0
    && p.up.In? && p.up.frame.node.kind == Call
  }

  /** Puts a placed operand where the leftmost operand was. */
  function Replant(e: Expr, shape: Shape): (r: Expr)
    ensures Canonical(e) ==> Canonical(r)
    ensures Dangles(e) ==> Dangles(r)
    ensures First(r) == Placed(shape) && r.Bin? == e.Bin? && r.Post? == e.Post?
    ensures e.Bin? || e.Post? ==> TopPriority(r) == TopPriority(e)
  {
    match e
    case Bin(op, l, right) => Bin(op, Replant(l, shape), right)
    case Post(arg) => Post(Replant(arg, shape))
    case _ => Placed(shape)
  }

  /** What the argument's first operand becomes: the right side of the comma before it. */
  function Taken(e: Expr): Shape { SUn(NextArg, Erase(First(e))) }

  lemma {:induction false} LandsPastComma(c: Cursor, base: Path, k: nat, shape: Shape, op: Operator)
    requires Hangs(c, base, k, shape, 0) && AfterEmptyArgument(base)
    requires IsBinary(op) && Priority(op) <= k
    ensures Lands(c, op, base.up, SUn(NextArg, shape), 0)
    decreases c.path
  {
    if c.path != base {
      assert FindInsertionPoint(c, op) == FindInsertionPoint(Lift(c), op);
      LandsPastComma(Lift(c), base, k, shape, op);
    } else {
      CrossesComma(c, shape, op);
    }
  }

  lemma CrossesComma(c: Cursor, shape: Shape, op: Operator)
    requires c.focus.Some? && c.brackets == 0 && AfterEmptyArgument(c.path)
    requires ShapeOf(c.focus.value) == shape && c.focus.value.brackets == 0
    ensures Lands(c, op, c.path.up, SUn(NextArg, shape), 0)
  {
    var t := Lift(c).focus.value;
    assert t.kids.Keys == {Op2} && t.kids[Op2] == c.focus.value;
    assert ReturnOneLevel(c) == Outcome(Lift(c), Quiet);
    assert FindInsertionPoint(Lift(c), op) == Outcome(Lift(c), Quiet);
  }

  lemma {:induction false} BuildsStolen(e: Expr, lexemes: seq<Lexeme>, c: Cursor)
    requires Canonical(e) && e.Bin? && !First(e).Placed?
    requires TokensOf(lexemes) == Tokens(e)
    requires c.focus.None? && c.brackets == 0 && AfterEmptyArgument(c.path)
    ensures var r := Feed(c, lexemes);
      r.raised == Quiet && Hangs(r.cursor, c.path.up, TopPriority(e), Erase(Replant(e, Taken(e))), 0)
    decreases e
  {
    var Bin(op, l, r) := e;
    var left, right := SplitBinary(e, lexemes);
    if l.Bin? {
      BuildsStolen(l, left, c);
      FeedConcat(c, left, right);
      BuildsRight(Replant(e, Taken(e)), right, Feed(c, left).cursor, c.path.up, 0);
    } else {
      Builds(l, left, c, 0);
      FeedConcat(c, left, right);
      BuildsFirstStolen(e, right, Feed(c, left).cursor, c.path);
    }
  }

  lemma LandsStolen(c: Cursor, t: Lexeme, base: Path, left: Expr, op: Operator)
    requires Hangs(c, base, 9, Erase(left), 0) && AfterEmptyArgument(base) && IsBinary(op)
    ensures Lands(CountToken(c, 0, t.spaces), op, base.up, SUn(NextArg, Erase(left)), 0)
  {
    var d := CountToken(c, 0, t.spaces);
    HangingIgnoresLayout(c, d, base, 9, Erase(left), 0);
    LandsPastComma(d, base, 9, Erase(left), op);
  }

  lemma ReplantsFirst(e: Expr)
    requires e.Bin? && Canonical(e.left) && !e.left.Bin?
    ensures First(e) == e.left && Erase(Replant(e, Taken(e))) == SBin(e.op, Taken(e), Erase(e.right))
  {
  }

  lemma {:induction false} BuildsFirstStolen(e: Expr, rest: seq<Lexeme>, c: Cursor, base: Path)
    requires Canonical(e) && e.Bin? && !e.left.Bin?
    requires rest != [] && rest[0].token == BinaryOp(e.op) && TokensOf(rest[1..]) == Tokens(e.right)
    requires Hangs(c, base, 9, Erase(e.left), 0) && AfterEmptyArgument(base)
    ensures var r := Feed(c, rest);
      r.raised == Quiet && Hangs(r.cursor, base.up, TopPriority(e), Erase(Replant(e, Taken(e))), 0)
  {
    ReplantsFirst(e);
    LandsStolen(c, rest[0], base, e.left, e.op);
    ReadsBinary(c, rest[0], base.up, Taken(e), 0);
    FeedFirst(c, rest);
    BuildsRightOperand(Replant(e, Taken(e)), rest[1..], Read(c, rest[0]).cursor, base.up, 0);
  }

  // ----- such an argument that ends in a default operator

  lemma {:induction false} BuildsStolenDangling(e: Expr, lexemes: seq<Lexeme>, c: Cursor)
    requires Dangles(e) && !First(e).Placed? && TokensOf(lexemes) == Tokens(e)
    requires c.focus.None? && c.brackets == 0 && AfterEmptyArgument(c.path)
    ensures var r := Feed(c, lexemes);
      r.raised == Quiet && Awaits(r.cursor, c.path.up, TopPriority(e), Erase(Replant(e, Taken(e))))
  {
    match e
    case Post(arg) =>
      BuildsStolenPost(arg, lexemes, c);
    case Bin(op, l, r) =>
      var left, right := SplitBinary(e, lexemes);
      if l.Bin? {
        BuildsStolen(l, left, c);
        FeedConcat(c, left, right);
        BuildsRightDangling(Replant(e, Taken(e)), right, Feed(c, left).cursor, c.path.up);
      } else {
        Builds(l, left, c, 0);
        FeedConcat(c, left, right);
        FirstStolenDangling(e, right, Feed(c, left).cursor, c.path);
      }
  }

  lemma {:induction false} FirstStolenDangling(e: Expr, rest: seq<Lexeme>, c: Cursor, base: Path)
    requires Dangles(e) && e.Bin? && !e.left.Bin?
    requires rest != [] && rest[0].token == BinaryOp(e.op) && TokensOf(rest[1..]) == Tokens(e.right)
    requires Hangs(c, base, 9, Erase(e.left), 0) && AfterEmptyArgument(base)
    ensures var r := Feed(c, rest);
      r.raised == Quiet && Awaits(r.cursor, base.up, TopPriority(e), Erase(Replant(e, Taken(e))))
  {
    ReplantsFirst(e);
    LandsStolen(c, rest[0], base, e.left, e.op);
    ReadsBinary(c, rest[0], base.up, Taken(e), 0);
    FeedFirst(c, rest);
    var d := Read(c, rest[0]).cursor;
    BuildsDangling(e.right, rest[1..], d);
    AwaitsHigher(Feed(d, rest[1..]).cursor, d.path.frame, base.up, Priority(e.op), Erase(e.right),
                 TopPriority(e.right), Erase(Replant(e, Taken(e))));
  }

  lemma {:induction false} BuildsStolenPost(arg: Expr, lexemes: seq<Lexeme>, c: Cursor)
    requires Dangles(Post(arg)) && !First(arg).Placed? && TokensOf(lexemes) == Tokens(Post(arg))
    requires c.focus.None? && c.brackets == 0 && AfterEmptyArgument(c.path)
    ensures var r, e := Feed(c, lexemes), Post(arg);
      r.raised == Quiet && Awaits(r.cursor, c.path.up, TopPriority(e), Erase(Replant(e, Taken(e))))
  {
    var n := |Tokens(arg)|;
    SplitAt(lexemes, Tokens(arg), [BinaryOp(Default)]);
    var last := lexemes[n];
    assert last.token == [BinaryOp(Default)][0] && lexemes == lexemes[..n] + [last];
    var d := Feed(c, lexemes[..n]).cursor;
    if arg.Bin? {
      BuildsStolen(arg, lexemes[..n], c);
      ReadsAbove(d, last, c.path.up, TopPriority(arg), Erase(Replant(arg, Taken(arg))), 0);
      OpensPost(Read(d, last).cursor, c.path.up, Erase(Replant(arg, Taken(arg))));
    } else {
      Builds(arg, lexemes[..n], c, 0);
      LandsStolen(d, last, c.path, arg, Default);
      ReadsBinary(d, last, c.path.up, Taken(arg), 0);
      OpensPost(Read(d, last).cursor, c.path.up, Taken(arg));
    }
    FeedConcat(c, lexemes[..n], [last]);
    FeedFirst(d, [last]);
  }

  /** An argument after an empty first argument is parsed as its own tree in its own field
      exactly when it has no binary operator outside brackets, a last `?` included. Otherwise
      its operators climb past the comma: `f (, b + c)` is read as `f ((, b) + c)`, and
      `f (, b ?)` as `f ((, b) ?)`. */
  lemma {:induction false} ArgumentAfterEmpty(e: Expr, lexemes: seq<Lexeme>, c: Cursor)
    requires Grouped(e) && TokensOf(lexemes) == Tokens(e)
    requires c.focus.None? && c.brackets == 0 && AfterEmptyArgument(c.path)
    ensures var r := Feed(c, lexemes);
      var d := ReturnTo(r.cursor, ToExpression);
      && r.raised == Quiet && d.raised == Quiet && d.cursor.brackets == 0
      && d.cursor.focus.Some? && d.cursor.focus.value.brackets == 0
      && (d.cursor.path == c.path <==> !e.Bin? && !e.Post?)
      && (!e.Bin? && !e.Post? ==> ShapeOf(d.cursor.focus.value) == Erase(e))
      && (e.Bin? || e.Post? ==>
            d.cursor.path == c.path.up && ShapeOf(d.cursor.focus.value) == Erase(Replant(e, Taken(e))))
  {
    assert Depth(c.path) == 1 + Depth(c.path.up);
    if Dangles(e) {
      BuildsStolenDangling(e, lexemes, c);
      ReturnsToBase(Lift(Feed(c, lexemes).cursor), c.path.up, TopPriority(e), Erase(Replant(e, Taken(e))));
    } else if e.Bin? {
      BuildsStolen(e, lexemes, c);
      ReturnsToBase(Feed(c, lexemes).cursor, c.path.up, TopPriority(e), Erase(Replant(e, Taken(e))));
    } else {
      Builds(e, lexemes, c, 0);
      ReturnsToBase(Feed(c, lexemes).cursor, c.path, 9, Erase(e));
    }
  }

  // ----- pieces of text

  function LeafShape(kind: Kind, text: string): Shape { SNode(NewNode(kind, text)) }

  /** Pieces of text, a string or a template line, joined from the left. */
  function Joined(left: Shape, pieces: seq<(Kind, string)>): Shape
    decreases |pieces|
  {
    if pieces == [] then left
    else Joined(SBin(Undefined, left, LeafShape(pieces[0].0, pieces[0].1)), pieces[1..])
  }

  function InsertPieces(c: Cursor, pieces: seq<(Kind, string)>): Outcome
    decreases |pieces|
  {
    if pieces == [] then Outcome(c, Quiet)
    else
      var r := InsertSimpleNode(c, pieces[0].0, pieces[0].1);
      if r.raised != Quiet then r else InsertPieces(r.cursor, pieces[1..])
  }

  lemma AppendsPiece(c: Cursor, base: Path, left: Shape, kind: Kind, text: string)
    requires Hangs(c, base, 8, left, 0) && Blocks(base, 8) && kind != Operation
    ensures var r := InsertSimpleNode(c, kind, text);
      r.raised == Quiet && Hangs(r.cursor, base, 8, SBin(Undefined, left, LeafShape(kind, text)), 0)
  {
    FindsBase(c, base, 8, left, 0, Undefined);
    var d := FindInsertionPoint(c, Undefined).cursor;
    var l := d.focus.value;
    SameShape(l, l.(spaces := 0, brackets := 0));
    var r := InsertSimpleNode(c, kind, text).cursor;
    assert c.(brackets := 0) == c;
    HangsHigher(r, r.path.frame, base, 8, LeafShape(kind, text), 8, SBin(Undefined, left, LeafShape(kind, text)));
  }

  /** Each further piece is joined to all the pieces before it. */
  lemma {:induction false} JoinsPieces(c: Cursor, base: Path, left: Shape, pieces: seq<(Kind, string)>)
    requires Hangs(c, base, 8, left, 0) && Blocks(base, 8)
    requires forall p <- pieces :: p.0 != Operation
    ensures var r := InsertPieces(c, pieces);
      r.raised == Quiet && Hangs(r.cursor, base, 8, Joined(left, pieces), 0)
    decreases |pieces|
  {
    if pieces != [] {
      var (kind, text) := pieces[0];
      AppendsPiece(c, base, left, kind, text);
      JoinsPieces(InsertSimpleNode(c, kind, text).cursor, base,
                  SBin(Undefined, left, LeafShape(kind, text)), pieces[1..]);
    }
  }
}
