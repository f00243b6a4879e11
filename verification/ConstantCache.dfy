/** The results kept on script nodes.

A node whose result does not depend on the symbols is marked constant and keeps its
result, which later evaluations copy. Each evaluator decides from the results of its
operands whether its own is constant. Whatever the symbols are, and whatever macros run
in between and evaluate the same nodes, evaluation with these results gives what
evaluation without them gives; the exception is a substitution filled into the space
that the text before it leaves.
*/
module ConstantCache {
  import opened Evaluation
  import B = Blocks
  import J = Justify
  import L = LayoutSpec
  import P = PrettyPrint
  import opened Wrappers

  /** The result of a node whatever the symbols, the calls and the text before it are. */
  ghost predicate IsFixed(u: Setup, e: Expr, v: Datum) {
    && v.Plain?
    && forall before: Datum, s: Symbols, depth: nat {:trigger Eval(u, e, before, s, depth)} ::
      Eval(u, e, before, s, depth) == Whole(u, e, v, s)
  }

  ghost predicate FixedPart(u: Setup, o: Option<Expr>, v: Datum) {
    if o.None? then v == Undefined else IsFixed(u, o.value, v)
  }

  lemma FixedPartIs(u: Setup, o: Option<Expr>, v: Datum, before: Datum, s: Symbols, depth: nat)
    requires FixedPart(u, o, v)
    ensures o.Some? ==> v.Plain?
    ensures Part(u, o, before, s, depth) == Given(u, o, v, s)
  {
  }

  lemma FixedText(u: Setup, e: Expr)
    requires e.kind.TextKind? && e.op1.None?
    ensures IsFixed(u, e, Plain(u.text(e.text)))
  {
  }

  lemma FixedLiteral(u: Setup, e: Expr, a: Datum)
    requires e.kind.LiteralKind? && e.op1.Some? && FixedPart(u, e.op1, a)
    ensures IsFixed(u, e, Plain(u.literal(e.op1.value.place.spaces, a.scalar)))
  {
    forall before: Datum, s: Symbols, depth: nat
      ensures Eval(u, e, before, s, depth) == Whole(u, e, Plain(u.literal(e.op1.value.place.spaces, a.scalar)), s)
    {
      FixedPartIs(u, e.op1, a, Undefined, s, depth);
    }
  }

  lemma FixedNumber(u: Setup, e: Expr, a: Datum, b: Datum)
    requires e.kind.NumberKind? && FixedPart(u, e.op1, a) && FixedPart(u, e.op2, b)
    ensures IsFixed(u, e, Plain(u.number(e.text, Plainly(a), Plainly(b))))
  {
    forall before: Datum, s: Symbols, depth: nat
      ensures Eval(u, e, before, s, depth) == Whole(u, e, Plain(u.number(e.text, Plainly(a), Plainly(b))), s)
    {
      FixedPartIs(u, e.op1, a, Undefined, s, depth);
      FixedPartIs(u, e.op2, b, Undefined, s, depth);
    }
  }

  function Plainly(v: Datum): Option<Scalar> {
    if v.Plain? then Some(v.scalar) else None
  }

  /** `x ? y` with `x` fixed never comes to `y`. */
  lemma FixedDefault(u: Setup, e: Expr, a: Datum)
    requires e.kind.OperatorKind? && e.op.Default? && FixedPart(u, e.op1, a) && a != Undefined
    ensures IsFixed(u, e, a)
  {
    forall before: Datum, s: Symbols, depth: nat
      ensures Eval(u, e, before, s, depth) == Whole(u, e, a, s)
    {
      FixedPartIs(u, e.op1, a, Undefined, s, depth);
    }
  }

  /** An operator whose operands are fixed, when it comes to the second of them. */
  lemma FixedOperator(u: Setup, e: Expr, a: Datum, b: Datum, v: Datum)
    requires e.kind.OperatorKind? && FixedPart(u, e.op1, a) && FixedPart(u, e.op2, b)
    requires v.Plain?
    requires forall s: Symbols :: !Returns(u, e, Given(u, e.op1, a, s))
    requires forall s: Symbols ::
      FinishOperator(u, e, Given(u, e.op1, a, s), Given(u, e.op2, b, s)) == Whole(u, e, v, s)
    ensures IsFixed(u, e, v)
  {
    forall before: Datum, s: Symbols, depth: nat
      ensures Eval(u, e, before, s, depth) == Whole(u, e, v, s)
    {
      OperatorOfFixed(u, e, a, b, before, s, depth);
    }
  }

  lemma OperatorOfFixed(u: Setup, e: Expr, a: Datum, b: Datum, before: Datum, s: Symbols, depth: nat)
    requires e.kind.OperatorKind? && FixedPart(u, e.op1, a) && FixedPart(u, e.op2, b)
    requires !Returns(u, e, Given(u, e.op1, a, s))
    ensures Eval(u, e, before, s, depth) == FinishOperator(u, e, Given(u, e.op1, a, s), Given(u, e.op2, b, s))
  {
    FixedPartIs(u, e.op1, a, Undefined, s, depth);
    FixedPartIs(u, e.op2, b, a, s, depth);
  }

  /** Why the second of two pieces must have no spaces before it: then shuffling moves
      neither, so a change of `shuffle` cannot make the text that is kept wrong. */
  lemma PairIgnoresShuffle(u: Setup, shuffle: int, operands: seq<L.Operand>)
    requires |operands| == 2 && operands[1].lead == 0
    ensures Joined(u, operands) == Joined(u.(shuffle := shuffle), operands)
  {
    var ops := operands[0 := operands[0].(lead := 0)];
    assert ops == [ops[0]] + [ops[1]];
    assert ops[..1] == [ops[0]] && [ops[0]][..0] == [];
    assert L.Measure([ops[0]], u.shuffle) == L.Measure([ops[0]], shuffle);
  }

  predicate IsArithmetic(op: Operator) {
    op.Times? || op.Divide? || op.Plus? || op.Minus? || op.Not? || op.Or? || op.And?
  }

  function Given(u: Setup, o: Option<Expr>, v: Datum, s: Symbols): Outcome {
    if o.None? then Done(Undefined, [], [], false, s) else Whole(u, o.value, v, s)
  }

  // ----- the values that are kept

  /** The value that a node keeps, if it keeps one: texts do, literals, numbers, operators
      and substitutions do as their operands do; symbols, calls and comparisons do not. */
  function Kept(u: Setup, e: Expr): Option<Scalar>
    decreases e, 2
  {
    match e.kind
    case TextKind => Some(u.text(e.text))
    case LiteralKind =>
      if e.op1.None? || !PartKept(u, e.op1) then None
      else Some(u.literal(e.op1.value.place.spaces, PartValue(u, e.op1).value))
    case NumberKind =>
      if !PartKept(u, e.op1) || !PartKept(u, e.op2) then None
      else Some(u.number(e.text, PartValue(u, e.op1), PartValue(u, e.op2)))
    case OperatorKind =>
      if !PartKept(u, e.op1) then None
      else if e.op.Default? && PartValue(u, e.op1).Some? then PartValue(u, e.op1)
      else if !PartKept(u, e.op2) || ReturnsEarly(u, e.op, PartValue(u, e.op1)) then None
      else Combined(u, e, PartValue(u, e.op1), PartValue(u, e.op2))
    case SubstituteKind =>
      if !PartsKept(u, e) then None
      else
        var width := FormatWidth(u, PartValue(u, e.format));
        if width < 0 then None else Printed(u, e, Space(u, e.place, width, 0))
    case _ => None
  }

  /** Is an operand missing, or its value kept? */
  predicate PartKept(u: Setup, o: Option<Expr>)
    decreases o, 0
  {
    o.None? || Kept(u, o.value).Some?
  }

  predicate PartsKept(u: Setup, e: Expr)
    decreases e, 0
  {
    e.op1.Some? && PartKept(u, e.op1) && PartKept(u, e.op2) && PartKept(u, e.format)
  }

  function PartValue(u: Setup, o: Option<Expr>): (v: Option<Scalar>)
    ensures o.Some? && PartKept(u, o) ==> v.Some?
    decreases o, 1
  {
    if o.None? then None else Kept(u, o.value)
  }

  /** What a substitution whose parts are kept prints into a space. */
  function Printed(u: Setup, e: Expr, space: int): Option<Scalar>
    requires PartsKept(u, e)
    decreases e, 1
  {
    Print(u, PartValue(u, e.op1).value, PartValue(u, e.op2), PartValue(u, e.format), space)
  }

  predicate ReturnsEarly(u: Setup, op: Operator, a: Option<Scalar>) {
    match op
    case Or => a.Some? && u.truth(a.value)
    case And => a.Some? && !u.truth(a.value)
    case Iif => a.None? || !u.truth(a.value)
    case _ => false
  }

  /** What an operator makes of two operands that are kept. */
  function Combined(u: Setup, e: Expr, a: Option<Scalar>, b: Option<Scalar>): Option<Scalar>
    requires e.op1.Some? <==> a.Some?
    requires e.op2.Some? <==> b.Some?
  {
    match e.op
    case Join =>
      if e.place.delayed || a.None? || b.None? || e.op2.value.place.spaces != 0 then None
      else
        var first := Operands(u, e.op1.value.place, Plain(a.value));
        Plainly(Joined(u, first + Operands(u, e.op2.value.place, Plain(b.value))))
    case Default => b
    case Iif => b
    case Compare(_) => None
    case NextArg => None
    case _ => if b.None? then None else u.arithmetic(e.op, a, b.value)
  }

  /** An operator that comes to its second operand keeps what it makes of the two. */
  lemma CombinedIsKept(u: Setup, e: Expr)
    requires e.kind.OperatorKind? && PartKept(u, e.op1) && PartKept(u, e.op2)
    requires !(e.op.Default? && e.op1.Some?) && !ReturnsEarly(u, e.op, PartValue(u, e.op1))
    ensures Kept(u, e) == Combined(u, e, PartValue(u, e.op1), PartValue(u, e.op2))
  {
  }

  lemma JoinIsKept(u: Setup, e: Expr)
    requires e.kind.OperatorKind? && e.op.Join? && e.op1.Some? && e.op2.Some?
    requires PartKept(u, e.op1) && PartKept(u, e.op2) && !e.place.delayed && e.op2.value.place.spaces == 0
    ensures Kept(u, e) == Plainly(Joined(u,
      Operands(u, e.op1.value.place, AsDatum(PartValue(u, e.op1)))
      + Operands(u, e.op2.value.place, AsDatum(PartValue(u, e.op2)))))
  {
    CombinedIsKept(u, e);
  }

  function AsDatum(v: Option<Scalar>): Datum { if v.None? then Undefined else Plain(v.value) }

  // ----- substitutions

  /** The space of a substitution is what the text before it leaves: it ends an extended line
      after something else, and the spaces before it do not decide. */
  predicate OpenEnded(u: Setup, place: Place) {
    && place.second && place.extend && place.nextLine.Some?
    && !(place.beside.Some? && place.beside.value >= u.shuffle)
  }

  /** The space it has if nothing is before it. */
  function Room(u: Setup, place: Place): int
    requires place.nextLine.Some?
  {
    place.nextLine.value - place.spaces - u.shuffle
  }

  /** A substitution that is kept although what it prints depends on the text before it. */
  predicate Stale(u: Setup, e: Expr) {
    && e.kind.SubstituteKind? && OpenEnded(u, e.place) && PartsKept(u, e)
    && FormatWidth(u, PartValue(u, e.format)) == 0
    && exists space | 0 < space <= Room(u, e.place) :: Printed(u, e, space) != Printed(u, e, 0)
  }

  /** The operands that the parser gives each kind of node: `-`, `+` and `NOT` may lack the
      first, `?` the second, and a `,` either. */
  predicate Shaped(e: Expr) {
    && (e.kind.TextKind? ==> e.op1.None?)
    && (e.kind.LiteralKind? || e.kind.SubstituteKind? ==> e.op1.Some?)
    && (e.kind.OperatorKind? ==> e.op1.Some? || e.op.Minus? || e.op.Plus? || e.op.Not? || e.op.NextArg?)
    && (e.kind.OperatorKind? && !e.op.Default? && !e.op.NextArg? ==> e.op2.Some?)
  }

  /** The trees in which no such substitution is. */
  predicate Steady(u: Setup, e: Expr) {
    && Shaped(e) && !Stale(u, e)
    && (e.op1.Some? ==> Steady(u, e.op1.value))
    && (e.op2.Some? ==> Steady(u, e.op2.value))
    && (e.format.Some? ==> Steady(u, e.format.value))
  }

  predicate PartsSteady(u: Setup, e: Expr) {
    && (e.op1.Some? ==> Steady(u, e.op1.value))
    && (e.op2.Some? ==> Steady(u, e.op2.value))
    && (e.format.Some? ==> Steady(u, e.format.value))
  }

  lemma PrintBelow(u: Setup, e: Expr, space: int)
    requires PartsKept(u, e) && space <= 0
    ensures Printed(u, e, space) == Printed(u, e, 0)
  {
    var x := PartValue(u, e.op1).value;
    P.PrettyBelow(Modifiers(u, PartValue(u, e.op2)), P.Paper(TextOf(u, x), x.Rows?), space);
  }

  /** All the spaces that texts before an open-ended substitution can leave. */
  lemma SpaceIs(u: Setup, e: Expr, laid: nat)
    requires OpenEnded(u, e.place)
    ensures Space(u, e.place, 0, laid) == Room(u, e.place) - laid
  {
  }

  /** A substitution that is not stale prints the same after every text. */
  lemma SteadyPrint(u: Setup, e: Expr, laid: nat, other: nat)
    requires e.kind.SubstituteKind? && PartsKept(u, e) && !Stale(u, e)
    ensures var width := FormatWidth(u, PartValue(u, e.format));
      Printed(u, e, Space(u, e.place, width, laid)) == Printed(u, e, Space(u, e.place, width, other))
  {
    var width := FormatWidth(u, PartValue(u, e.format));
    if width == 0 && OpenEnded(u, e.place) {
      SteadySpace(u, e, Space(u, e.place, 0, laid));
      SteadySpace(u, e, Space(u, e.place, 0, other));
    }
  }

  /** So it keeps what it prints, whatever is before it. */
  lemma PrintedIsKept(u: Setup, e: Expr, laid: nat)
    requires e.kind.SubstituteKind? && PartsKept(u, e) && !Stale(u, e)
    ensures var width := FormatWidth(u, PartValue(u, e.format));
      Kept(u, e) == if width < 0 then None else Printed(u, e, Space(u, e.place, width, laid))
  {
    SteadyPrint(u, e, laid, 0);
  }

  lemma SteadySpace(u: Setup, e: Expr, space: int)
    requires e.kind.SubstituteKind? && PartsKept(u, e) && !Stale(u, e) && OpenEnded(u, e.place)
    requires FormatWidth(u, PartValue(u, e.format)) == 0 && space <= Room(u, e.place)
    ensures Printed(u, e, space) == Printed(u, e, 0)
  {
    if space <= 0 { PrintBelow(u, e, space); }
  }

  /** The parts of a substitution have the values that they keep. */
  ghost predicate PartsFixed(u: Setup, e: Expr) {
    && PartsKept(u, e)
    && FixedPart(u, e.op1, AsDatum(PartValue(u, e.op1)))
    && FixedPart(u, e.op2, AsDatum(PartValue(u, e.op2)))
    && FixedPart(u, e.format, AsDatum(PartValue(u, e.format)))
  }

  /** What a substitution of fixed parts gives. */
  lemma SubstituteOfFixed(u: Setup, e: Expr, before: Datum, s: Symbols, depth: nat)
    requires e.kind.SubstituteKind? && PartsFixed(u, e)
    ensures var width := FormatWidth(u, PartValue(u, e.format));
      var text := Printed(u, e, Space(u, e.place, width, Laid(u, s, before)));
      Eval(u, e, before, s, depth) == if width < 0 || text.None? then Failed else Whole(u, e, Plain(text.value), s)
  {
    var a, b, c := PartValue(u, e.op1), PartValue(u, e.op2), PartValue(u, e.format);
    FixedPartIs(u, e.op1, AsDatum(a), Undefined, s, depth);
    FixedPartIs(u, e.op2, AsDatum(b), Undefined, s, depth);
    FixedPartIs(u, e.format, AsDatum(c), Undefined, s, depth);
    FinishOfFixed(u, e, before, a, b, c, s);
    assert Eval(u, e, before, s, depth)
      == FinishSubstitute(u, e, before, Given(u, e.op1, AsDatum(a), s), AsDatum(b), Given(u, e.format, AsDatum(c), s));
  }

  lemma FinishOfFixed(u: Setup, e: Expr, before: Datum, a: Option<Scalar>, b: Option<Scalar>, c: Option<Scalar>,
                      s: Symbols)
    requires e.op1.Some? && a.Some? && (e.op2.Some? ==> b.Some?) && (e.format.Some? <==> c.Some?)
    ensures
      FinishSubstitute(u, e, before, Given(u, e.op1, AsDatum(a), s), AsDatum(b), Given(u, e.format, AsDatum(c), s))
      == PrintOut(u, e, before, a.value, b, c, s)
  {
  }

  lemma FixedSubstitute(u: Setup, e: Expr)
    requires e.kind.SubstituteKind? && !Stale(u, e) && PartsFixed(u, e) && Kept(u, e).Some?
    ensures IsFixed(u, e, Plain(Kept(u, e).value))
  {
    forall before: Datum, s: Symbols, depth: nat
      ensures Eval(u, e, before, s, depth) == Whole(u, e, Plain(Kept(u, e).value), s)
    {
      SubstituteOfFixed(u, e, before, s, depth);
      SteadyPrint(u, e, Laid(u, s, before), 0);
    }
  }

  // ----- what is kept is right

  lemma PartIsFixed(u: Setup, o: Option<Expr>)
    requires PartKept(u, o) && (o.Some? ==> Steady(u, o.value))
    ensures FixedPart(u, o, AsDatum(PartValue(u, o)))
    decreases o, 1
  {
    if o.Some? { KeptIsFixed(u, o.value); }
  }

  /** The value that is kept for a node is its value in every state, after every text. */
  lemma {:induction false} KeptIsFixed(u: Setup, e: Expr)
    requires Steady(u, e) && Kept(u, e).Some?
    ensures IsFixed(u, e, Plain(Kept(u, e).value))
    decreases e, 0
  {
    var a, b := AsDatum(PartValue(u, e.op1)), AsDatum(PartValue(u, e.op2));
    match e.kind
    case TextKind => FixedText(u, e);
    case LiteralKind =>
      PartIsFixed(u, e.op1);
      FixedLiteral(u, e, a);
    case NumberKind =>
      PartIsFixed(u, e.op1);
      PartIsFixed(u, e.op2);
      FixedNumber(u, e, a, b);
    case OperatorKind =>
      PartIsFixed(u, e.op1);
      if e.op.Default? && PartValue(u, e.op1).Some? {
        FixedDefault(u, e, a);
      } else {
        PartIsFixed(u, e.op2);
        FixedOperator(u, e, a, b, Plain(Kept(u, e).value));
      }
    case SubstituteKind =>
      PartIsFixed(u, e.op1);
      PartIsFixed(u, e.op2);
      PartIsFixed(u, e.format);
      FixedSubstitute(u, e);
  }

  // ----- when a kept substitution is wrong

  /** A text of each length. */
  function OfLength(n: nat): Datum { Plain(Str(L.Spaces(n))) }

  function Gives(u: Setup, e: Expr, text: Option<Scalar>): Outcome {
    if text.None? then Failed else Whole(u, e, Plain(text.value), map[])
  }

  lemma GivesApart(u: Setup, e: Expr, x: Option<Scalar>, y: Option<Scalar>)
    requires x != y
    ensures Gives(u, e, x) != Gives(u, e, y)
  {
  }

  lemma PrintsAfter(u: Setup, e: Expr, n: nat)
    requires e.kind.SubstituteKind? && PartsFixed(u, e) && OpenEnded(u, e.place)
    requires FormatWidth(u, PartValue(u, e.format)) == 0
    ensures Eval(u, e, OfLength(n), map[], 0) == Gives(u, e, Printed(u, e, Room(u, e.place) - n))
  {
    assert Laid(u, map[], OfLength(n)) == n;
    SpaceIs(u, e, n);
    SubstituteOfFixed(u, e, OfLength(n), map[], 0);
  }

  lemma StaleDiffers(u: Setup, e: Expr) returns (one: Datum, other: Datum)
    requires e.kind.SubstituteKind? && PartsFixed(u, e) && Stale(u, e)
    ensures Eval(u, e, one, map[], 0) != Eval(u, e, other, map[], 0)
  {
    var space :| 0 < space <= Room(u, e.place) && Printed(u, e, space) != Printed(u, e, 0);
    one, other := OfLength(Room(u, e.place) - space), OfLength(Room(u, e.place));
    PrintsAfter(u, e, Room(u, e.place) - space);
    PrintsAfter(u, e, Room(u, e.place));
    GivesApart(u, e, Printed(u, e, space), Printed(u, e, 0));
  }

  /** A substitution that is kept has one result for all states if and only if it is not
      stale. */
  lemma FixedExactly(u: Setup, e: Expr)
    requires e.kind.SubstituteKind? && PartsSteady(u, e) && Kept(u, e).Some?
    ensures (exists v: Datum :: IsFixed(u, e, v)) <==> !Stale(u, e)
  {
    PartIsFixed(u, e.op1);
    PartIsFixed(u, e.op2);
    PartIsFixed(u, e.format);
    if Stale(u, e) {
      var one, other := StaleDiffers(u, e);
    } else {
      FixedSubstitute(u, e);
    }
  }

  /** Without a format: it is stale if and only if its text has more than one word when it
      comes to a `justify`, no later modifier erases the difference, and there is room. */
  lemma StaleExactly(u: Setup, e: Expr)
    requires e.kind.SubstituteKind? && PartsKept(u, e) && Kept(u, e).Some? && e.format.None?
    ensures Stale(u, e) <==>
      && OpenEnded(u, e.place) && Room(u, e.place) > 0
      && !P.Settles(Modifiers(u, PartValue(u, e.op2)), TextOf(u, PartValue(u, e.op1).value))
  {
    var x := PartValue(u, e.op1).value;
    var paper := P.Paper(TextOf(u, x), x.Rows?);
    var how := Modifiers(u, PartValue(u, e.op2));
    P.FailsExactly(how, paper, Space(u, e.place, 0, 0));
    P.FailsExactly(how, paper, 0);
    P.SpaceMatters(how, paper);
    if !P.Settles(how, paper.text) {
      var p, q := P.Pretty(how, paper, 0).value, P.Pretty(how, paper, 1).value;
      B.JoinOfSplit(p.text);
      B.JoinOfSplit(q.text);
      assert Printed(u, e, 1) != Printed(u, e, 0);
    }
  }

  /** A script that knows nothing but texts and `justify`. */
  const TEXTS := Setup(
    1, s => Str(s), (n, x) => x, (s, x, y) => Str(s), x => true, (op, x, y) => None, (r, x, y) => None, n => "",
    x => [P.ToWidth], x => 0, (f, x, s) => Some(s), (s, x, y) => None, (s, i) => None, (n, x, s) => None,
    (n, x, s) => s, (s, t) => s, map[])

  function TextNode(s: string): Expr {
    Expr(TextKind, Join, s, Place(0, |s|, false, false, None, None, false), None, None, None)
  }

  /** `$("a b":justify)`, for any two words, after something else on an extended line; the
      next line begins one column behind what the two words take. */
  function TwoWordsJustified(a: string, b: string): Expr {
    Expr(SubstituteKind, Join, "", Place(0, |a| + |b| + 14, true, true, Some(0), Some(|a| + |b| + 3), false),
         Some(TextNode(a + " " + b)), Some(TextNode("justify")), None)
  }

  /** It is kept; after one character it fits on the line, after two it does not. */
  lemma StaleSubstitution(a: string, b: string, s: Symbols, depth: nat)
    requires J.IsWord(a) && J.IsWord(b)
    ensures var e := TwoWordsJustified(a, b);
      && PartsSteady(TEXTS, e) && Kept(TEXTS, e) == Some(Unknown(a + " " + b)) && Stale(TEXTS, e)
      && Eval(TEXTS, e, OfLength(1), s, depth) == Whole(TEXTS, e, Plain(Unknown(a + " " + b)), s)
      && Eval(TEXTS, e, OfLength(2), s, depth) == Whole(TEXTS, e, Plain(Unknown(a + "\n" + b)), s)
  {
    TwoWordsKept(a, b);
    TwoWordsStale(a, b);
    TwoWordsAfter(a, b, 1, s, depth);
    TwoWordsAfter(a, b, 2, s, depth);
  }

  lemma TextIsFixed(u: Setup, s: string)
    ensures Kept(u, TextNode(s)) == Some(u.text(s)) && Steady(u, TextNode(s))
    ensures IsFixed(u, TextNode(s), Plain(u.text(s)))
  {
    FixedText(u, TextNode(s));
  }

  lemma PartsOfTwoWords(a: string, b: string)
    ensures PartsFixed(TEXTS, TwoWordsJustified(a, b)) && PartsSteady(TEXTS, TwoWordsJustified(a, b))
    ensures FormatWidth(TEXTS, PartValue(TEXTS, TwoWordsJustified(a, b).format)) == 0
  {
    TextIsFixed(TEXTS, a + " " + b);
    TextIsFixed(TEXTS, "justify");
  }

  lemma TwoWordsKept(a: string, b: string)
    requires J.IsWord(a) && J.IsWord(b)
    ensures PartsSteady(TEXTS, TwoWordsJustified(a, b))
    ensures Kept(TEXTS, TwoWordsJustified(a, b)) == Some(Unknown(a + " " + b))
  {
    PartsOfTwoWords(a, b);
    PrintsTwoWords(a, b, |a| + |b| + 2);
    SpaceIs(TEXTS, TwoWordsJustified(a, b), 0);
  }

  /** What is left for the two words after `n` characters. */
  lemma SpaceAfter(a: string, b: string, n: nat, s: Symbols)
    ensures Space(TEXTS, TwoWordsJustified(a, b).place, 0, Laid(TEXTS, s, OfLength(n))) == |a| + |b| + 2 - n
  {
    assert TEXTS.shuffle == 1 && Laid(TEXTS, s, OfLength(n)) == n;
  }

  lemma TwoWordsAfter(a: string, b: string, n: nat, s: Symbols, depth: nat)
    requires J.IsWord(a) && J.IsWord(b)
    ensures var e, room := TwoWordsJustified(a, b), |a| + |b| + 2 - n;
      Eval(TEXTS, e, OfLength(n), s, depth)
      == Whole(TEXTS, e, Plain(Unknown(if 0 < room < |a| + 1 + |b| then a + "\n" + b else a + " " + b)), s)
  {
    PartsOfTwoWords(a, b);
    SpaceAfter(a, b, n, s);
    PrintsTwoWords(a, b, |a| + |b| + 2 - n);
    SubstituteOfFixed(TEXTS, TwoWordsJustified(a, b), OfLength(n), s, depth);
  }

  lemma TwoWordsStale(a: string, b: string)
    requires J.IsWord(a) && J.IsWord(b)
    ensures Stale(TEXTS, TwoWordsJustified(a, b))
  {
    PrintsTwoWords(a, b, 1);
    PrintsTwoWords(a, b, 0);
    var e := TwoWordsJustified(a, b);
    assert Printed(TEXTS, e, 1).value.s[|a|] != Printed(TEXTS, e, 0).value.s[|a|];
  }

  lemma PrintsTwoWords(a: string, b: string, space: int)
    requires J.IsWord(a) && J.IsWord(b)
    ensures PartsKept(TEXTS, TwoWordsJustified(a, b))
    ensures Printed(TEXTS, TwoWordsJustified(a, b), space) ==
      Some(Unknown(if 0 < space < |a| + 1 + |b| then a + "\n" + b else a + " " + b))
  {
    var e := TwoWordsJustified(a, b);
    J.TwoWords(a, b, space);
    JustifyAlone(a + " " + b, space);
    assert PartValue(TEXTS, e.op1) == Some(Str(a + " " + b)) && PartValue(TEXTS, e.op2) == Some(Str("justify")) by {
      TextIsFixed(TEXTS, a + " " + b);
      TextIsFixed(TEXTS, "justify");
    }
    assert Modifiers(TEXTS, PartValue(TEXTS, e.op2)) == [P.ToWidth];
    assert TextOf(TEXTS, PartValue(TEXTS, e.op1).value) == a + " " + b;
  }

  lemma JustifyAlone(s: string, space: int)
    ensures P.Pretty([P.ToWidth], P.Paper(s, false), space) == Some(P.Paper(J.Justified(s, space), false))
  {
    assert [P.ToWidth][1..] == [];
  }

  /** So, without a format, a kept substitution has one result for all states if and only if
      its space is not what the text before it leaves, or there is no room, or its text has
      at most one word where it comes to a `justify`, or a later modifier erases the spaces. */
  lemma JustifiedExactly(u: Setup, e: Expr)
    requires e.kind.SubstituteKind? && PartsSteady(u, e) && PartsKept(u, e) && Kept(u, e).Some? && e.format.None?
    ensures (exists v: Datum :: IsFixed(u, e, v)) <==>
      || !OpenEnded(u, e.place) || Room(u, e.place) <= 0
      || P.Settles(Modifiers(u, PartValue(u, e.op2)), TextOf(u, PartValue(u, e.op1).value))
  {
    FixedExactly(u, e);
    StaleExactly(u, e);
  }

  // ----- script trees

  class CodeNode {
    const kind: Kind
    const op: Operator
    const text: string
    const place: Place
    const op1: CodeNode?
    const op2: CodeNode?
    const format: CodeNode?
    ghost const syntax: Expr
    var constant: bool
    var result: Datum

    constructor (kind: Kind, op: Operator, text: string, place: Place, op1: CodeNode?, op2: CodeNode?,
                 format: CodeNode?)
      ensures !constant
      ensures this.kind == kind && this.op == op && this.text == text && this.place == place
      ensures this.op1 == op1 && this.op2 == op2 && this.format == format
      ensures syntax == Expr(kind, op, text, place, SyntaxOf(op1), SyntaxOf(op2), SyntaxOf(format))
    {
      this.kind, this.op, this.text, this.place := kind, op, text, place;
      this.op1, this.op2, this.format := op1, op2, format;
      syntax := Expr(kind, op, text, place, SyntaxOf(op1), SyntaxOf(op2), SyntaxOf(format));
      constant, result := false, Undefined;
    }
  }

  ghost function SyntaxOf(n: CodeNode?): Option<Expr> {
    if n == null then None else Some(n.syntax)
  }

  /** The node and those under it are among `nodes`. */
  ghost predicate Linked(n: CodeNode, nodes: set<CodeNode>)
    decreases n.syntax
  {
    && n in nodes
    && n.syntax == Expr(n.kind, n.op, n.text, n.place, SyntaxOf(n.op1), SyntaxOf(n.op2), SyntaxOf(n.format))
    && (n.op1 != null ==> n.syntax.op1 == Some(n.op1.syntax) && Linked(n.op1, nodes))
    && (n.op2 != null ==> n.syntax.op2 == Some(n.op2.syntax) && Linked(n.op2, nodes))
    && (n.format != null ==> n.syntax.format == Some(n.format.syntax) && Linked(n.format, nodes))
  }

  /** A kept result is the value that the node keeps. */
  ghost predicate Keeps(u: Setup, n: CodeNode)
    reads n
  {
    n.constant ==> n.result.Plain? && Kept(u, n.syntax) == Some(n.result.scalar)
  }

  // ----- evaluating with kept results

  /** What a node's evaluator leaves: a result, and whether it is constant. */
  datatype Result =
    Error | Result(value: Datum, operands: seq<L.Operand>, args: seq<Option<Datum>>, cut: bool, constant: bool)

  const MISSING := Result(Undefined, [], [], false, true)

  /** The result agrees with the meaning, and is constant only if it is fixed. */
  ghost predicate Agrees(meaning: Outcome, r: Result, s: Symbols) {
    match meaning
    case Failed => r.Error?
    case Done(v, operands, args, cut, after) =>
      r.Result? && r.value == v && r.operands == operands && r.args == args && r.cut == cut && s == after
  }

  /** Only the value that a node keeps is marked constant. */
  ghost predicate Sound(u: Setup, e: Expr, r: Result) {
    r.Result? && r.constant ==>
      r.value.Plain? && Kept(u, e) == Some(r.value.scalar) && r.operands == Operands(u, e.place, r.value)
  }

  ghost predicate SoundPart(u: Setup, o: Option<Expr>, r: Result) {
    r.Result? && r.constant ==>
      && PartKept(u, o) && r.value == AsDatum(PartValue(u, o))
      && (o.Some? ==> r.operands == Operands(u, o.value.place, r.value))
  }

  datatype Line = Line(name: string, node: CodeNode)

  datatype Code = Code(body: seq<Line>, result: CodeNode)

  ghost predicate Loads(u: Setup, code: map<string, Code>, nodes: set<CodeNode>) {
    && code.Keys == u.macros.Keys
    && forall name <- code :: LoadsMacro(u, code[name], u.macros[name], nodes)
  }

  ghost predicate LoadsMacro(u: Setup, c: Code, m: Macro, nodes: set<CodeNode>) {
    && c.result.syntax == m.result && Linked(c.result, nodes) && Steady(u, m.result)
    && |c.body| == |m.body|
    && forall i | 0 <= i < |c.body| :: LoadsLine(u, c.body[i], m.body[i], nodes)
  }

  ghost predicate LoadsLine(u: Setup, c: Line, d: Definition, nodes: set<CodeNode>) {
    c.name == d.name && c.node.syntax == d.value && Linked(c.node, nodes) && Steady(u, d.value)
  }

  class Evaluator {
    const u: Setup
    const code: map<string, Code>
    ghost const nodes: set<CodeNode>
    var symbols: Symbols

    constructor (u: Setup, code: map<string, Code>, symbols: Symbols, ghost nodes: set<CodeNode>)
      requires Loads(u, code, nodes)
      ensures this.u == u && this.code == code && this.nodes == nodes && this.symbols == symbols
    {
      this.u, this.code, this.symbols := u, code, symbols;
      this.nodes := nodes;
    }

    /** Every kept result can be used. */
    ghost predicate Valid()
      reads nodes
    {
      Loads(u, code, nodes) && forall n <- nodes :: Keeps(u, n)
    }

    ghost predicate Ready(n: CodeNode) { Linked(n, nodes) && Steady(u, n.syntax) }

    /** Evaluates a node: copies its result if it is kept, and keeps it if it is constant. */
    method Evaluate(n: CodeNode, before: Datum, depth: nat) returns (r: Result)
      requires Valid() && Ready(n)
      modifies `symbols, nodes
      ensures Valid() && Sound(u, n.syntax, r)
      ensures Agrees(Eval(u, n.syntax, before, old(symbols), depth), r, symbols)
      decreases depth, 3, n.syntax, 3
    {
      if n.constant {
        assert Keeps(u, n);
        KeptIsFixed(u, n.syntax);
        r := Result(n.result, Operands(u, n.place, n.result), [Some(n.result)], false, false);
      } else {
        r := EvaluateNode(n, before, depth);
        if r.Result? && r.constant && !n.constant {
          n.constant, n.result := true, r.value;
        }
      }
    }

    method EvaluatePart(n: CodeNode?, before: Datum, depth: nat) returns (r: Result)
      requires Valid() && (n != null ==> Ready(n))
      modifies `symbols, nodes
      ensures Valid() && SoundPart(u, SyntaxOf(n), r)
      ensures Agrees(Part(u, SyntaxOf(n), before, old(symbols), depth), r, symbols)
      decreases depth, 3, SyntaxOf(n), 4
    {
      if n == null {
        r := MISSING;
      } else {
        r := Evaluate(n, before, depth);
      }
    }

    ghost predicate IsPart(e: Expr, o: Option<Expr>) { o == e.op1 || o == e.op2 || o == e.format }

    /** Evaluates two parts of a node, the second with the symbols that the first leaves. */
    method EvaluateTwo(ghost of: Expr, x: CodeNode?, y: CodeNode?, depth: nat) returns (a: Result, b: Result)
      requires Valid() && (x != null ==> Ready(x)) && (y != null ==> Ready(y))
      requires IsPart(of, SyntaxOf(x)) && IsPart(of, SyntaxOf(y))
      modifies `symbols, nodes
      ensures Valid() && SoundPart(u, SyntaxOf(x), a) && SoundPart(u, SyntaxOf(y), b)
      ensures var first := Part(u, SyntaxOf(x), Undefined, old(symbols), depth);
        if first.Failed? then b.Error?
        else
          && Agrees(first, a, first.symbols)
          && Agrees(Part(u, SyntaxOf(y), Undefined, first.symbols, depth), b, symbols)
      decreases depth, 3, of, 0
    {
      a, b := Error, Error;
      a := EvaluatePart(x, Undefined, depth);
      if a.Result? {
        b := EvaluatePart(y, Undefined, depth);
      }
    }

    method EvaluateNode(n: CodeNode, before: Datum, depth: nat) returns (r: Result)
      requires Valid() && Ready(n)
      modifies `symbols, nodes
      ensures Valid() && Sound(u, n.syntax, r)
      ensures Agrees(Eval(u, n.syntax, before, old(symbols), depth), r, symbols)
      decreases depth, 3, n.syntax, 2
    {
      match n.kind
      case TextKind =>
        FixedText(u, n.syntax);
        r := Own(n.place, Plain(u.text(n.text)), true);
      case LiteralKind => r := EvaluateLiteral(n, before, depth);
      case NumberKind => r := EvaluateNumber(n, before, depth);
      case SymbolKind => r := EvaluateSymbol(n, before, depth);
      case CallKind => r := EvaluateCall(n, before, depth);
      case OperatorKind => r := EvaluateOperator(n, before, depth);
      case SubstituteKind => r := EvaluateSubstitute(n, before, depth);
    }

    /** A node's own result. */
    function Own(place: Place, v: Datum, constant: bool): Result {
      Result(v, Operands(u, place, v), [Some(v)], false, constant)
    }

    method EvaluateLiteral(n: CodeNode, ghost before: Datum, depth: nat) returns (r: Result)
      requires Valid() && Ready(n) && n.kind.LiteralKind?
      modifies `symbols, nodes
      ensures Valid() && Sound(u, n.syntax, r)
      ensures Agrees(Eval(u, n.syntax, before, old(symbols), depth), r, symbols)
      decreases depth, 3, n.syntax, 1
    {
      var a := EvaluatePart(n.op1, Undefined, depth);
      if a.Error? { return Error; }
      if a.value.Plain? {
        r := Own(n.place, Plain(u.literal(n.op1.place.spaces, a.value.scalar)), a.constant);
      } else {
        r := Own(n.place, Undefined, a.constant);
      }
    }

    method EvaluateNumber(n: CodeNode, ghost before: Datum, depth: nat) returns (r: Result)
      requires Valid() && Ready(n) && n.kind.NumberKind?
      modifies `symbols, nodes
      ensures Valid() && Sound(u, n.syntax, r)
      ensures Agrees(Eval(u, n.syntax, before, old(symbols), depth), r, symbols)
      decreases depth, 3, n.syntax, 1
    {
      var a, b := EvaluateTwo(n.syntax, n.op1, n.op2, depth);
      if b.Error? { return Error; }
      var v := Plain(u.number(n.text, Resolve(u, symbols, a.value), Resolve(u, symbols, b.value)));
      r := Own(n.place, v, a.constant && b.constant);
    }

    method EvaluateSymbol(n: CodeNode, ghost before: Datum, depth: nat) returns (r: Result)
      requires Valid() && Ready(n) && n.kind.SymbolKind?
      modifies `symbols, nodes
      ensures Valid() && Sound(u, n.syntax, r)
      ensures Agrees(Eval(u, n.syntax, before, old(symbols), depth), r, symbols)
      decreases depth, 3, n.syntax, 1
    {
      var scope, name := EvaluateTwo(n.syntax, n.op2, n.op1, depth);
      if name.Error? { return Error; }
      if n.op2 != null && scope.value == Undefined { return Own(n.place, Undefined, false); }
      var v := u.lookup(symbols, scope.value, name.value);
      r := if v.None? then Error else Own(n.place, v.value, false);
    }

    method EvaluateCall(n: CodeNode, ghost before: Datum, depth: nat) returns (r: Result)
      requires Valid() && Ready(n) && n.kind.CallKind?
      modifies `symbols, nodes
      ensures Valid() && Sound(u, n.syntax, r)
      ensures Agrees(Eval(u, n.syntax, before, old(symbols), depth), r, symbols)
      decreases depth, 3, n.syntax, 1
    {
      var a := EvaluatePart(n.op1, Undefined, depth);
      if a.Error? { return Error; }
      assert n.text in code.Keys <==> n.text in u.macros.Keys;
      if n.text in code {
        r := CallMacro(n, a.args, depth);
      } else {
        r := CallExternal(n, a.args, depth);
      }
    }

    method CallExternal(n: CodeNode, args: seq<Option<Datum>>, ghost depth: nat) returns (r: Result)
      requires Ready(n) && n.text !in u.macros
      modifies `symbols
      ensures r.Result? ==> !r.constant
      ensures Agrees(Invoke(u, n.syntax, args, old(symbols), depth), r, symbols)
    {
      var x := u.external(n.text, args, symbols);
      if x.None? { return Error; }
      symbols := x.value.1;
      r := Own(n.place, x.value.0, false);
    }

    /** Runs a macro, which may evaluate any node again. */
    method CallMacro(n: CodeNode, args: seq<Option<Datum>>, depth: nat) returns (r: Result)
      requires Valid() && Ready(n) && n.text in code
      modifies `symbols, nodes
      ensures Valid() && (r.Result? ==> !r.constant)
      ensures Agrees(Invoke(u, n.syntax, args, old(symbols), depth), r, symbols)
      decreases depth, 2
    {
      if depth == 0 { return Error; }
      var was, c := symbols, code[n.text];
      assert LoadsMacro(u, c, u.macros[n.text], nodes);
      symbols := u.enter(n.text, args, symbols);
      var value := RunMacro(c, u.macros[n.text], depth);
      if value.None? { return Error; }
      symbols := u.leave(was, symbols);
      r := Own(n.place, value.value, false);
    }

    /** Runs the body of a macro and evaluates what it returns. */
    method RunMacro(c: Code, ghost m: Macro, depth: nat) returns (value: Option<Datum>)
      requires Valid() && LoadsMacro(u, c, m, nodes) && depth > 0
      modifies `symbols, nodes
      ensures Valid()
      ensures var run := RunBody(u, m.body, old(symbols), depth);
        if run.None? then value.None?
        else
          var r := Eval(u, m.result, Undefined, run.value, depth - 1);
          if r.Failed? then value.None? else value == Some(r.value) && symbols == r.symbols
      decreases depth, 1, |c.body| + 1
    {
      var ok := RunLines(c.body, m.body, depth);
      if !ok { return None; }
      var x := Evaluate(c.result, Undefined, depth - 1);
      value := if x.Error? then None else Some(x.value);
    }

    method RunLines(body: seq<Line>, ghost meaning: seq<Definition>, depth: nat) returns (ok: bool)
      requires Valid() && depth > 0 && |body| == |meaning|
      requires forall i | 0 <= i < |body| :: LoadsLine(u, body[i], meaning[i], nodes)
      modifies `symbols, nodes
      ensures Valid()
      ensures var run := RunBody(u, meaning, old(symbols), depth);
        if ok then run == Some(symbols) else run == None
      decreases depth, 1, |body|
    {
      ok := true;
      if body != [] {
        assert LoadsLine(u, body[0], meaning[0], nodes);
        var x := Evaluate(body[0].node, Undefined, depth - 1);
        if x.Error? { return false; }
        symbols := symbols[body[0].name := x.value];
        ok := RunLines(body[1..], meaning[1..], depth);
      }
    }

    method EvaluateOperator(n: CodeNode, ghost before: Datum, depth: nat) returns (r: Result)
      requires Valid() && Ready(n) && n.kind.OperatorKind?
      modifies `symbols, nodes
      ensures Valid() && Sound(u, n.syntax, r)
      ensures Agrees(Eval(u, n.syntax, before, old(symbols), depth), r, symbols)
      decreases depth, 3, n.syntax, 1
    {
      ghost var meaning := Part(u, n.syntax.op1, Undefined, symbols, depth);
      var a := EvaluatePart(n.op1, Undefined, depth);
      if a.Error? { return Error; }
      var early: Option<Result> := ReturnEarly(n, a, meaning);
      if early.Some? { return early.value; }
      ghost var second := Part(u, n.syntax.op2, a.value, symbols, depth);
      var b := EvaluatePart(n.op2, a.value, depth);
      if b.Error? { return Error; }
      r := FinishNode(n, a, b, meaning, second);
    }

    /** The early return of `?`, `|`, `&` and `??`: only the first keeps that it is constant. */
    method ReturnEarly(n: CodeNode, a: Result, ghost meaning: Outcome) returns (r: Option<Result>)
      requires Ready(n) && n.kind.OperatorKind? && a.Result? && SoundPart(u, n.syntax.op1, a)
      requires Agrees(meaning, a, symbols)
      ensures r.Some? <==> Returns(u, n.syntax, meaning)
      ensures r.Some? ==> Agrees(Returned(u, n.syntax, meaning), r.value, symbols) && Sound(u, n.syntax, r.value)
    {
      r := None;
      match n.op
      case Default =>
        if a.value != Undefined {
          r := Some(Own(n.place, a.value, a.constant));
        }
      case Or =>
        if a.value != Undefined && True(u, symbols, a.value) { r := Some(Own(n.place, Plain(Number(1.0)), false)); }
      case And =>
        if a.value != Undefined && !True(u, symbols, a.value) { r := Some(Own(n.place, Plain(Number(0.0)), false)); }
      case Iif =>
        if a.value == Undefined || !True(u, symbols, a.value) {
          r := Some(Result(Undefined, Operands(u, n.place, Undefined), [Some(Undefined)], true, false));
        }
      case _ =>
    }

    /** What an operator makes of both operands. */
    method FinishNode(n: CodeNode, a: Result, b: Result, ghost first: Outcome, ghost second: Outcome)
      returns (r: Result)
      requires Ready(n) && n.kind.OperatorKind? && a.Result? && b.Result?
      requires SoundPart(u, n.syntax.op1, a) && SoundPart(u, n.syntax.op2, b)
      requires first.Done? && Agrees(first, a, first.symbols) && Agrees(second, b, symbols)
      requires !Returns(u, n.syntax, first)
      ensures Sound(u, n.syntax, r) && Agrees(FinishOperator(u, n.syntax, first, second), r, symbols)
    {
      match n.op
      case Join => r := Concatenate(n, a, b, first, second);
      case Compare(relation) =>
        var v := u.compare(relation, a.value, b.value);
        r := if v.None? then Error else Own(n.place, v.value, false);
      case NextArg =>
        var args := Arguments(n.op1 != null, a.args, n.op2 != null, b.value);
        r := Result(Undefined, Operands(u, n.place, Undefined), args, false, false);
      case Default => r := ReturnSecond(n, a, b, first, second);
      case Iif => r := ReturnSecond(n, a, b, first, second);
      case _ =>
        assert a.constant ==> !ReturnsEarly(u, n.op, PartValue(u, n.syntax.op1));
        r := Calculate(n, a, b, second);
    }

    method ReturnSecond(n: CodeNode, a: Result, b: Result, ghost first: Outcome, ghost second: Outcome)
      returns (r: Result)
      requires Ready(n) && n.kind.OperatorKind? && a.Result? && b.Result? && (n.op.Default? || n.op.Iif?)
      requires SoundPart(u, n.syntax.op1, a) && SoundPart(u, n.syntax.op2, b)
      requires first.Done? && Agrees(first, a, first.symbols) && Agrees(second, b, symbols)
      requires !Returns(u, n.syntax, first)
      ensures Sound(u, n.syntax, r) && Agrees(FinishOperator(u, n.syntax, first, second), r, symbols)
    {
      r := Own(n.place, b.value, a.constant && b.constant);
      if r.constant { CombinedIsKept(u, n.syntax); }
    }

    method Calculate(n: CodeNode, a: Result, b: Result, ghost second: Outcome) returns (r: Result)
      requires Ready(n) && n.kind.OperatorKind? && a.Result? && b.Result? && IsArithmetic(n.op)
      requires SoundPart(u, n.syntax.op1, a) && SoundPart(u, n.syntax.op2, b) && Agrees(second, b, symbols)
      requires a.constant ==> !ReturnsEarly(u, n.op, PartValue(u, n.syntax.op1))
      ensures Sound(u, n.syntax, r) && Agrees(FinishArithmetic(u, n.syntax, a.value, second), r, symbols)
    {
      var constant := a.constant && b.constant;
      if (n.op1 != null && a.value == Undefined) || b.value == Undefined { return Own(n.place, Undefined, constant); }
      var x, y := Resolve(u, symbols, a.value), Resolve(u, symbols, b.value);
      if (n.op1 != null && x.None?) || y.None? { return Error; }
      var z := u.arithmetic(n.op, x, y.value);
      if z.None? { return Error; }
      r := Own(n.place, Plain(z.value), constant);
      if r.constant { CombinedIsKept(u, n.syntax); }
    }

    method Concatenate(n: CodeNode, a: Result, b: Result, ghost first: Outcome, ghost second: Outcome)
      returns (r: Result)
      requires Ready(n) && n.kind.OperatorKind? && a.Result? && b.Result? && n.op.Join?
      requires SoundPart(u, n.syntax.op1, a) && SoundPart(u, n.syntax.op2, b)
      requires first.Done? && Agrees(first, a, first.symbols) && Agrees(second, b, symbols)
      ensures Sound(u, n.syntax, r) && Agrees(FinishOperator(u, n.syntax, first, second), r, symbols)
    {
      var operands := a.operands + b.operands;
      if n.place.delayed {
        if operands != [] { operands := operands[0 := operands[0].(lead := n.place.spaces)]; }
        return Result(Undefined, operands, [Some(Undefined)], false, false);
      }
      var v := JoinOperands(operands);
      r := Own(n.place, v, v.Plain? && a.constant && n.op2.place.spaces == 0 && b.constant);
      assert Linked(n.op2, nodes);
      if r.constant { JoinIsKept(u, n.syntax); }
    }

    /** A substitution, stale or not, gives what it means; what is kept of its parts stays
        right. */
    method EvaluateSubstitute(n: CodeNode, before: Datum, depth: nat) returns (r: Result)
      requires Valid() && Linked(n, nodes) && n.kind.SubstituteKind? && Shaped(n.syntax) && PartsSteady(u, n.syntax)
      modifies `symbols, nodes
      ensures Valid() && (!Stale(u, n.syntax) ==> Sound(u, n.syntax, r))
      ensures Agrees(Eval(u, n.syntax, before, old(symbols), depth), r, symbols)
      decreases depth, 3, n.syntax, 1
    {
      ghost var first := Part(u, n.syntax.op1, Undefined, symbols, depth);
      var a, b := EvaluateTwo(n.syntax, n.op1, n.op2, depth);
      if b.Error? { return Error; }
      ghost var third := Part(u, n.syntax.format, Undefined, symbols, depth);
      var c := EvaluatePart(n.format, Undefined, depth);
      if c.Error? { return Error; }
      r := PrintSubstitute(n, before, a, b, c, first, third);
    }

    /** Does it print nothing, and not fail, when its value is undefined? */
    method PrintsBlank(n: CodeNode, cut: bool) returns (blank: bool)
      requires Linked(n, nodes) && n.syntax.op1.Some?
      ensures blank == IsBlank(n.syntax.op1.value, cut)
    {
      assert Linked(n.op1, nodes);
      blank := n.op1.kind.OperatorKind? && ((n.op1.op.Default? && n.op1.op2 == null) || (n.op1.op.Iif? && cut));
    }

    /** It is constant as its parts are, whether or not its space can change. */
    method PrintSubstitute(n: CodeNode, before: Datum, a: Result, b: Result, c: Result,
                           ghost first: Outcome, ghost third: Outcome)
      returns (r: Result)
      requires Linked(n, nodes) && Shaped(n.syntax) && n.kind.SubstituteKind? && a.Result? && b.Result? && c.Result?
      requires SoundPart(u, n.syntax.op1, a) && SoundPart(u, n.syntax.op2, b) && SoundPart(u, n.syntax.format, c)
      requires first.Done? && Agrees(first, a, first.symbols) && Agrees(third, c, symbols)
      ensures !Stale(u, n.syntax) ==> Sound(u, n.syntax, r)
      ensures r.Result? ==> r.constant == (a.constant && b.constant && c.constant)
      ensures Agrees(FinishSubstitute(u, n.syntax, before, first, b.value, third), r, symbols)
    {
      var how, format := Resolve(u, symbols, b.value), Resolve(u, symbols, c.value);
      if (n.op2 != null && how.None?) || (n.format != null && format.None?) { return Error; }
      var constant := a.constant && b.constant && c.constant;
      var v := Resolve(u, symbols, a.value);
      var blank := PrintsBlank(n, a.cut);
      if v.None? && !blank { return Own(n.place, Undefined, constant); }
      r := PrintOut(n, before, if v.Some? then v.value else Unknown(""), how, format, constant);
      if r.Result? && r.constant && !Stale(u, n.syntax) {
        PrintedIsKept(u, n.syntax, Laid(u, symbols, before));
      }
    }

    /** Prints a value into the space of its substitution. */
    method PrintOut(n: CodeNode, before: Datum, x: Scalar, how: Option<Scalar>, format: Option<Scalar>, constant: bool)
      returns (r: Result)
      requires Linked(n, nodes)
      ensures Agrees(Evaluation.PrintOut(u, n.syntax, before, x, how, format, symbols), r, symbols)
      ensures r.Result? ==> r.constant == constant
    {
      var width := FormatWidth(u, format);
      if width < 0 { return Error; }
      var text := PrintText(x, how, format, Space(u, n.place, width, Laid(u, symbols, before)));
      r := if text.None? then Error else Own(n.place, Plain(text.value), constant);
    }

    method PrintText(x: Scalar, how: Option<Scalar>, format: Option<Scalar>, space: int) returns (r: Option<Scalar>)
      ensures r == Print(u, x, how, format, space)
    {
      var p := P.PrettyPrint(Modifiers(u, how), TextOf(u, x), x.Rows?, space);
      if p.None? { return None; }
      var text := if format.None? then Some(p.value.text) else u.formatted(format.value, x, p.value.text);
      r := if text.None? then None
           else Some(if p.value.block then Rows(B.SplitLines(text.value)) else Unknown(text.value));
    }

    /** The text of a concatenation, or nothing. */
    method JoinOperands(operands: seq<L.Operand>) returns (v: Datum)
      ensures v == Joined(u, operands)
    {
      v := Joined(u, operands);
    }

    /** Whatever nodes are evaluated one after the other, each with the symbols and after the
        text that a script may have given it, the results are those without anything kept. */
    method EvaluateAll(ns: seq<CodeNode>, befores: seq<Datum>, states: seq<Symbols>, depth: nat)
      returns (rs: seq<Result>, afters: seq<Symbols>)
      requires Valid() && |ns| == |befores| == |states| && forall n <- ns :: Ready(n)
      modifies `symbols, nodes
      ensures Valid() && |rs| == |afters| == |ns|
      ensures forall i | 0 <= i < |ns| :: Agrees(Eval(u, ns[i].syntax, befores[i], states[i], depth), rs[i], afters[i])
    {
      rs, afters := [], [];
      for i := 0 to |ns|
        invariant Valid() && |rs| == |afters| == i
        invariant forall j | 0 <= j < i :: Agrees(Eval(u, ns[j].syntax, befores[j], states[j], depth), rs[j], afters[j])
      {
        symbols := states[i];
        var r := Evaluate(ns[i], befores[i], depth);
        rs, afters := rs + [r], afters + [symbols];
      }
    }
  }
}
