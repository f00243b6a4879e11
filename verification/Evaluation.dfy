/** What an expression of a script means.

The value of an expression node depends on the symbols, on the macros it calls and, for
one kind of node, on the text before it on its line. Arithmetic, comparison, formats and
the look-up of names are left open: they can be any functions. Evaluation follows
the order of the script nodes, with the early returns of `|`, `&`, `?` and `??`, and may
change the symbols through the macros it calls.
*/
module Evaluation {
  import B = Blocks
  import L = LayoutSpec
  import P = PrettyPrint
  import T = Trim
  import opened Wrappers

  // ----- values

  datatype Scalar = Unknown(s: string) | Str(s: string) | Number(n: real) | Rows(lines: seq<string>)

  datatype Datum = Undefined | Pointer(item: int) | Plain(scalar: Scalar)

  type Symbols = map<string, Datum>

  // ----- script nodes

  datatype Operator =
    Join | Times | Divide | Plus | Minus | Not | Or | And | Iif | Default | Compare(relation: int) | NextArg

  datatype Kind = TextKind | LiteralKind | NumberKind | SymbolKind | CallKind | OperatorKind | SubstituteKind

  /** Where a node stands in its line: the spaces before it and its width; whether it ends
      an extended line; whether it is the second operand of a concatenation; the spaces of
      the highest concatenation operand it ends; the column at which the next line begins.
      A concatenation is delayed when it is itself an operand of one, or a whole line. */
  datatype Place = Place(spaces: nat, width: nat, extend: bool, second: bool, beside: Option<nat>,
                         nextLine: Option<nat>, delayed: bool)

  /** A script node with its operands; `text` is the text, the name or the sign. */
  datatype Expr = Expr(kind: Kind, op: Operator, text: string, place: Place,
                       op1: Option<Expr>, op2: Option<Expr>, format: Option<Expr>)

  datatype Definition = Definition(name: string, value: Expr)

  datatype Macro = Macro(body: seq<Definition>, result: Expr)

  /** Everything that is fixed while a script runs. */
  datatype Setup = Setup(
    shuffle: int,
    text: string -> Scalar,
    literal: (nat, Scalar) -> Scalar,
    number: (string, Option<Scalar>, Option<Scalar>) -> Scalar,
    truth: Scalar -> bool,
    arithmetic: (Operator, Option<Scalar>, Scalar) -> Option<Scalar>,
    compare: (int, Datum, Datum) -> Option<Datum>,
    digits: real -> string,
    modifiers: Scalar -> seq<P.Modifier>,
    formatWidth: Scalar -> int,
    formatted: (Scalar, Scalar, string) -> Option<string>,
    lookup: (Symbols, Datum, Datum) -> Option<Datum>,
    deref: (Symbols, int) -> Option<Scalar>,
    external: (string, seq<Option<Datum>>, Symbols) -> Option<(Datum, Symbols)>,
    enter: (string, seq<Option<Datum>>, Symbols) -> Symbols,
    leave: (Symbols, Symbols) -> Symbols,
    macros: map<string, Macro>)

  /** The value of a node, what it brings to a concatenation and to the arguments of a call,
      whether it is an `if` that was false, and the symbols after it. */
  datatype Outcome =
    | Failed
    | Done(value: Datum, operands: seq<L.Operand>, args: seq<Option<Datum>>, cut: bool, symbols: Symbols)

  // ----- helpers

  function TextOf(u: Setup, x: Scalar): string {
    match x
    case Number(n) => u.digits(n)
    case Rows(lines) => B.BlockText(lines)
    case _ => x.s
  }

  function Shown(u: Setup, v: Datum): L.Value {
    if !v.Plain? then L.Undefined
    else if v.scalar.Rows? then L.Block(v.scalar.lines)
    else L.Text(TextOf(u, v.scalar))
  }

  /** An operand of its own. */
  function Whole(u: Setup, e: Expr, v: Datum, s: Symbols): Outcome {
    Done(v, Operands(u, e.place, v), [Some(v)], false, s)
  }

  function Operands(u: Setup, place: Place, v: Datum): seq<L.Operand> {
    [L.Operand(place.spaces, Shown(u, v), place.width, place.extend)]
  }

  function Resolve(u: Setup, s: Symbols, v: Datum): Option<Scalar> {
    match v
    case Undefined => None
    case Pointer(item) => u.deref(s, item)
    case Plain(x) => Some(x)
  }

  function True(u: Setup, s: Symbols, v: Datum): bool {
    var x := Resolve(u, s, v);
    x.Some? && u.truth(x.value)
  }

  /** The length of the text of a value: the lines of a block are padded and have newlines
      between them, and what is undefined has no text. */
  function Laid(u: Setup, s: Symbols, v: Datum): nat {
    var x := Resolve(u, s, v);
    if x.None? then 0 else |TextOf(u, x.value)|
  }

  /** The arguments on both sides of a `,`; either may be missing. */
  function Arguments(isFirst: bool, first: seq<Option<Datum>>, isSecond: bool, second: Datum): seq<Option<Datum>> {
    (if isFirst then first else [None]) + [if isSecond then Some(second) else None]
  }

  /** The text of a concatenation; the spaces before it do not count. */
  function Joined(u: Setup, operands: seq<L.Operand>): Datum {
    if operands == [] || !(forall o <- operands :: L.Defined(o.value)) then Undefined
    else
      var ops := operands[0 := operands[0].(lead := 0)];
      Plain(Str(T.Trimmed(L.Joined(L.Measure(ops, u.shuffle).placed))))
  }

  /** The columns a substitution may fill: those of its format, or else what its place in
      the line leaves it, after a text that is `laid` long. */
  function Space(u: Setup, place: Place, width: int, laid: nat): int {
    if width != 0 then width
    else if place.beside.Some? && place.beside.value >= u.shuffle then place.width + place.beside.value - u.shuffle
    else if place.extend && place.nextLine.Some? then
      place.nextLine.value - place.spaces - u.shuffle - (if place.second then laid else 0)
    else place.width
  }

  /** What a substitution prints: its text, changed by the modifiers and then formatted. */
  function Print(u: Setup, x: Scalar, how: Option<Scalar>, format: Option<Scalar>, space: int): Option<Scalar> {
    var p := P.Pretty(Modifiers(u, how), P.Paper(TextOf(u, x), x.Rows?), space);
    if p.None? then None
    else
      var text := if format.None? then Some(p.value.text) else u.formatted(format.value, x, p.value.text);
      if text.None? then None
      else Some(if p.value.block then Rows(B.SplitLines(text.value)) else Unknown(text.value))
  }

  function Modifiers(u: Setup, how: Option<Scalar>): seq<P.Modifier> {
    if how.None? then [] else u.modifiers(how.value)
  }

  /** The width of a format; below zero it is wrong. */
  function FormatWidth(u: Setup, format: Option<Scalar>): int {
    if format.None? then 0 else u.formatWidth(format.value)
  }

  // ----- what each kind of node makes of its operands

  function FinishLiteral(u: Setup, e: Expr, a: Outcome): Outcome
    requires a.Done? && e.op1.Some?
  {
    var x := if a.value.Plain? then Plain(u.literal(e.op1.value.place.spaces, a.value.scalar)) else Undefined;
    Whole(u, e, x, a.symbols)
  }

  function FinishNumber(u: Setup, e: Expr, a: Datum, b: Outcome): Outcome
    requires b.Done?
  {
    Whole(u, e, Plain(u.number(e.text, Resolve(u, b.symbols, a), Resolve(u, b.symbols, b.value))), b.symbols)
  }

  function FinishSymbol(u: Setup, e: Expr, scope: Datum, b: Outcome): Outcome
    requires b.Done?
  {
    if e.op2.Some? && scope == Undefined then Whole(u, e, Undefined, b.symbols)
    else
      var v := u.lookup(b.symbols, scope, b.value);
      if v.None? then Failed else Whole(u, e, v.value, b.symbols)
  }

  function FinishArithmetic(u: Setup, e: Expr, a: Datum, b: Outcome): Outcome
    requires b.Done?
  {
    if (e.op1.Some? && a == Undefined) || b.value == Undefined then Whole(u, e, Undefined, b.symbols)
    else
      var x, y := Resolve(u, b.symbols, a), Resolve(u, b.symbols, b.value);
      if (e.op1.Some? && x.None?) || y.None? then Failed
      else
        var z := u.arithmetic(e.op, x, y.value);
        if z.None? then Failed else Whole(u, e, Plain(z.value), b.symbols)
  }

  function FinishComparison(u: Setup, e: Expr, a: Datum, b: Outcome): Outcome
    requires b.Done? && e.op.Compare?
  {
    var v := u.compare(e.op.relation, a, b.value);
    if v.None? then Failed else Whole(u, e, v.value, b.symbols)
  }

  function FinishJoin(u: Setup, e: Expr, a: Outcome, b: Outcome): Outcome
    requires a.Done? && b.Done?
  {
    var operands := a.operands + b.operands;
    if e.place.delayed then
      var all := if operands == [] then [] else operands[0 := operands[0].(lead := e.place.spaces)];
      Done(Undefined, all, [Some(Undefined)], false, b.symbols)
    else Whole(u, e, Joined(u, operands), b.symbols)
  }

  /** Whether the early return of an operator is taken. */
  function Returns(u: Setup, e: Expr, a: Outcome): bool
    requires a.Done?
  {
    match e.op
    case Default => a.value != Undefined
    case Or => a.value != Undefined && True(u, a.symbols, a.value)
    case And => a.value != Undefined && !True(u, a.symbols, a.value)
    case Iif => a.value == Undefined || !True(u, a.symbols, a.value)
    case _ => false
  }

  function Returned(u: Setup, e: Expr, a: Outcome): Outcome
    requires a.Done?
  {
    match e.op
    case Default => Whole(u, e, a.value, a.symbols)
    case Or => Whole(u, e, Plain(Number(1.0)), a.symbols)
    case And => Whole(u, e, Plain(Number(0.0)), a.symbols)
    case _ => Done(Undefined, Operands(u, e.place, Undefined), [Some(Undefined)], true, a.symbols)
  }

  function FinishOperator(u: Setup, e: Expr, a: Outcome, b: Outcome): Outcome
    requires a.Done? && b.Done?
  {
    match e.op
    case Join => FinishJoin(u, e, a, b)
    case Compare(_) => FinishComparison(u, e, a.value, b)
    case NextArg =>
      Done(Undefined, Operands(u, e.place, Undefined), Arguments(e.op1.Some?, a.args, e.op2.Some?, b.value), false,
           b.symbols)
    case Default => Whole(u, e, b.value, b.symbols)
    case Iif => Whole(u, e, b.value, b.symbols)
    case _ => FinishArithmetic(u, e, a.value, b)
  }

  /** `x ?`, and `c ?? x` with `c` false: these may be undefined and then print nothing. */
  predicate IsBlank(e: Expr, cut: bool) {
    e.kind.OperatorKind? && ((e.op.Default? && e.op2.None?) || (e.op.Iif? && cut))
  }

  function FinishSubstitute(u: Setup, e: Expr, before: Datum, a: Outcome, pretty: Datum, c: Outcome): Outcome
    requires a.Done? && c.Done? && e.op1.Some?
  {
    var s := c.symbols;
    var how, format := Resolve(u, s, pretty), Resolve(u, s, c.value);
    if (e.op2.Some? && how.None?) || (e.format.Some? && format.None?) then Failed
    else
      var v := Resolve(u, s, a.value);
      if v.None? && !IsBlank(e.op1.value, a.cut) then Whole(u, e, Undefined, s)
      else PrintOut(u, e, before, if v.Some? then v.value else Unknown(""), how, format, s)
  }

  /** Prints a value into the space of its substitution. */
  function PrintOut(u: Setup, e: Expr, before: Datum, x: Scalar, how: Option<Scalar>, format: Option<Scalar>,
                    s: Symbols): Outcome
  {
    var width := FormatWidth(u, format);
    if width < 0 then Failed
    else
      var text := Print(u, x, how, format, Space(u, e.place, width, Laid(u, s, before)));
      if text.None? then Failed else Whole(u, e, Plain(text.value), s)
  }

  // ----- the meaning

  /** The value of a node, after `before` on its line, with `depth` macro calls to go. */
  function Eval(u: Setup, e: Expr, before: Datum, s: Symbols, depth: nat): Outcome
    decreases depth, 2, e
  {
    var first := if e.kind.SymbolKind? then Part(u, e.op2, Undefined, s, depth)
      else Part(u, e.op1, Undefined, s, depth);
    if first.Failed? then Failed
    else
      match e.kind
      case TextKind => Whole(u, e, Plain(u.text(e.text)), s)
      case LiteralKind => if e.op1.None? then Failed else FinishLiteral(u, e, first)
      case SymbolKind =>
        var name := Part(u, e.op1, Undefined, first.symbols, depth);
        if name.Failed? then Failed else FinishSymbol(u, e, first.value, name)
      case CallKind => Invoke(u, e, first.args, first.symbols, depth)
      case NumberKind =>
        var second := Part(u, e.op2, Undefined, first.symbols, depth);
        if second.Failed? then Failed else FinishNumber(u, e, first.value, second)
      case OperatorKind =>
        if Returns(u, e, first) then Returned(u, e, first)
        else
          var second := Part(u, e.op2, first.value, first.symbols, depth);
          if second.Failed? then Failed else FinishOperator(u, e, first, second)
      case SubstituteKind =>
        if e.op1.None? then Failed
        else
          var pretty := Part(u, e.op2, Undefined, first.symbols, depth);
          if pretty.Failed? then Failed
          else
            var format := Part(u, e.format, Undefined, pretty.symbols, depth);
            if format.Failed? then Failed else FinishSubstitute(u, e, before, first, pretty.value, format)
  }

  /** An operand that may be missing. */
  function Part(u: Setup, o: Option<Expr>, before: Datum, s: Symbols, depth: nat): Outcome
    decreases depth, 2, o
  {
    if o.None? then Done(Undefined, [], [], false, s) else Eval(u, o.value, before, s, depth)
  }

  /** A call: of a macro of the script, or of a function outside it. */
  function Invoke(u: Setup, e: Expr, args: seq<Option<Datum>>, s: Symbols, depth: nat): Outcome
    decreases depth, 1
  {
    if e.text !in u.macros then
      var r := u.external(e.text, args, s);
      if r.None? then Failed else Whole(u, e, r.value.0, r.value.1)
    else if depth == 0 then Failed
    else
      var m := u.macros[e.text];
      var run := RunBody(u, m.body, u.enter(e.text, args, s), depth);
      if run.None? then Failed
      else
        var r := Eval(u, m.result, Undefined, run.value, depth - 1);
        if r.Failed? then Failed else Whole(u, e, r.value, u.leave(s, r.symbols))
  }

  function RunBody(u: Setup, body: seq<Definition>, s: Symbols, depth: nat): Option<Symbols>
    requires depth > 0
    decreases depth, 0, |body|
  {
    if body == [] then Some(s)
    else
      var r := Eval(u, body[0].value, Undefined, s, depth - 1);
      if r.Failed? then None else RunBody(u, body[1..], r.symbols[body[0].name := r.value], depth)
  }

  // ----- the arguments of a call

  /** The items of a list of arguments, from left to right; an item may be missing. */
  function Items(e: Expr): seq<Option<Expr>> {
    if IsList(e) then (if e.op1.None? then [None] else Items(e.op1.value)) + [e.op2]
    else [Some(e)]
  }

  predicate IsList(e: Expr) { e.kind.OperatorKind? && e.op.NextArg? }

  predicate IsOne(r: Outcome) { r.Done? ==> |r.args| == 1 && r.args[0].Some? }

  lemma OneOfOperator(u: Setup, e: Expr, a: Outcome, b: Outcome)
    requires a.Done? && b.Done? && !e.op.NextArg?
    ensures IsOne(FinishOperator(u, e, a, b))
  {
  }

  lemma OneOfCall(u: Setup, e: Expr, args: seq<Option<Datum>>, s: Symbols, depth: nat)
    ensures IsOne(Invoke(u, e, args, s, depth))
  {
  }

  lemma OneOfSubstitute(u: Setup, e: Expr, before: Datum, a: Outcome, pretty: Datum, c: Outcome)
    requires a.Done? && c.Done? && e.op1.Some?
    ensures IsOne(FinishSubstitute(u, e, before, a, pretty, c))
  {
  }

  lemma OneArgument(u: Setup, e: Expr, before: Datum, s: Symbols, depth: nat)
    requires !IsList(e)
    ensures IsOne(Eval(u, e, before, s, depth))
  {
    var first := Part(u, e.op1, Undefined, s, depth);
    if first.Done? {
      match e.kind
      case CallKind => OneOfCall(u, e, first.args, first.symbols, depth);
      case OperatorKind =>
        var second := Part(u, e.op2, first.value, first.symbols, depth);
        if second.Done? { OneOfOperator(u, e, first, second); }
      case SubstituteKind =>
        var pretty := Part(u, e.op2, Undefined, first.symbols, depth);
        if pretty.Done? && e.op1.Some? {
          var format := Part(u, e.format, Undefined, pretty.symbols, depth);
          if format.Done? { OneOfSubstitute(u, e, before, first, pretty.value, format); }
        }
      case _ =>
    }
  }

  lemma ListArguments(u: Setup, e: Expr, before: Datum, s: Symbols, depth: nat)
    requires IsList(e) && Eval(u, e, before, s, depth).Done?
    ensures var first := Part(u, e.op1, Undefined, s, depth);
      && first.Done?
      && var second := Part(u, e.op2, first.value, first.symbols, depth);
      && second.Done?
      && Eval(u, e, before, s, depth).args == Arguments(e.op1.Some?, first.args, e.op2.Some?, second.value)
  {
  }

  /** A call gets an argument for each of them, in their places, and none for one that is
      missing. */
  lemma {:induction false} ArgumentsAreItems(u: Setup, e: Expr, before: Datum, s: Symbols, depth: nat)
    requires Eval(u, e, before, s, depth).Done?
    ensures var args := Eval(u, e, before, s, depth).args;
      |args| == |Items(e)| && forall i | 0 <= i < |args| :: args[i].None? <==> Items(e)[i].None?
    decreases e
  {
    if IsList(e) {
      ListArguments(u, e, before, s, depth);
      if e.op1.Some? { ArgumentsAreItems(u, e.op1.value, Undefined, s, depth); }
    } else {
      OneArgument(u, e, before, s, depth);
    }
  }
}
