/** How operands are laid out side by side, as values.

An operand is a text or a block of lines, with the number of spaces before it in the
script. A first pass gives each operand its indent in the output, sliding it to or
from its script column; then row `k` of the result is, for every operand in turn, its
indent followed by its text or by line `k` of its block padded to the block's width.
*/
module LayoutSpec {

  datatype Value = Undefined | Text(s: string) | Block(lines: seq<string>) | MissingBlock

  /** An operand: the spaces and the width it has in the script, and whether the script
      line goes on after it. */
  datatype Operand = Operand(lead: nat, value: Value, width: nat, extend: bool)

  function Max(a: nat, b: nat): nat { if a > b then a else b }

  function Spaces(n: nat): string { seq(n, _ => ' ') }

  function Width(lines: seq<string>): nat {
    if lines == [] then 0 else Max(|lines[0]|, Width(lines[1..]))
  }

  /** The text after the last newline. */
  function LastLine(s: string): string {
    if '\n' !in s then s else LastLine(s[1..])
  }

  // ----- measuring

  datatype Totals = Totals(lines: nat, width: nat, lineLength: nat, shuffleCount: int)

  const ZERO := Totals(0, 0, 0, 0)

  /** The indent of an operand, given how far the output is ahead of the script. */
  function Indent(lead: nat, shuffle: int, shuffleCount: int): nat {
    if shuffle > 0 && lead >= shuffle then
      if lead - shuffleCount >= shuffle then lead - shuffleCount else shuffle
    else lead
  }

  function Lines(v: Value): nat {
    if v.Block? then |v.lines| else 1
  }

  /** The characters of an operand in a row of the result. */
  function Length(v: Value): nat {
    match v
    case Text(s) => |s|
    case Block(lines) => Width(lines)
    case _ => 0
  }

  predicate HasNewline(v: Value) { v.Text? && '\n' in v.s }

  predicate Defined(v: Value) { v.Text? || v.Block? }

  function Add(t: Totals, op: Operand, indent: nat): Totals {
    var width := indent + (if op.value.Text? then |LastLine(op.value.s)| else Length(op.value));
    var total := if HasNewline(op.value) then width else t.width + width;
    Totals(
      Max(t.lines, Lines(op.value)),
      total,
      t.lineLength + indent + Length(op.value),
      if HasNewline(op.value) then 0
      else if op.extend then total
      else t.shuffleCount + width - (op.width + op.lead))
  }

  /** An operand with its indent in the output. */
  datatype Placed = Placed(indent: nat, value: Value)

  datatype Measured = Measured(placed: seq<Placed>, totals: Totals)

  function MeasureNext(m: Measured, op: Operand, shuffle: int): Measured {
    var indent := Indent(op.lead, shuffle, m.totals.shuffleCount);
    Measured(m.placed + [Placed(indent, op.value)], Add(m.totals, op, indent))
  }

  /** The first pass. */
  function Measure(ops: seq<Operand>, shuffle: int): (m: Measured)
    ensures |m.placed| == |ops|
  {
    if ops == [] then Measured([], ZERO)
    else MeasureNext(Measure(ops[..|ops| - 1], shuffle), ops[|ops| - 1], shuffle)
  }

  // ----- rows

  /** An operand's characters in row `k`: a text is the same in every row. */
  function Cell(p: Placed, k: nat): (s: string)
    ensures |s| == p.indent + Length(p.value)
  {
    Spaces(p.indent) +
    match p.value
    case Text(s) => s
    case Block(lines) =>
      if k < |lines| then
        WidthBounds(lines, k);
        lines[k] + Spaces(Width(lines) - |lines[k]|)
      else Spaces(Width(lines))
    case _ => ""
  }

  lemma {:induction false} WidthBounds(lines: seq<string>, k: nat)
    requires k < |lines|
    ensures |lines[k]| <= Width(lines)
  {
    if k > 0 { WidthBounds(lines[1..], k - 1); }
  }

  lemma {:induction false} WidthOfMore(lines: seq<string>, line: string)
    ensures Width(lines + [line]) == Max(Width(lines), |line|)
  {
    if lines != [] {
      assert (lines + [line])[1..] == lines[1..] + [line];
      WidthOfMore(lines[1..], line);
    }
  }

  function Row(placed: seq<Placed>, k: nat): string {
    if placed == [] then "" else Row(placed[..|placed| - 1], k) + Cell(placed[|placed| - 1], k)
  }

  function RowLength(placed: seq<Placed>): nat {
    if placed == [] then 0
    else RowLength(placed[..|placed| - 1]) + placed[|placed| - 1].indent + Length(placed[|placed| - 1].value)
  }

  function RowCount(placed: seq<Placed>): nat {
    if placed == [] then 0
    else Max(RowCount(placed[..|placed| - 1]), Lines(placed[|placed| - 1].value))
  }

  lemma {:induction false} RowIsLong(placed: seq<Placed>, k: nat)
    ensures |Row(placed, k)| == RowLength(placed)
  {
    if placed != [] { RowIsLong(placed[..|placed| - 1], k); }
  }

  function Flat(rows: seq<string>): string {
    if rows == [] then "" else rows[0] + Flat(rows[1..])
  }

  function Rows(placed: seq<Placed>, count: nat): seq<string> {
    seq(count, k requires 0 <= k < count => Row(placed, k))
  }

  /** The result: the rows one after the other. */
  function Joined(placed: seq<Placed>): string { Flat(Rows(placed, RowCount(placed))) }

  /** The two passes agree: the measured totals are the size of the rows. */
  lemma {:induction false} PassesAgree(ops: seq<Operand>, shuffle: int)
    ensures var m := Measure(ops, shuffle);
      m.totals.lineLength == RowLength(m.placed) && m.totals.lines == RowCount(m.placed)
  {
    if ops != [] {
      var front := Measure(ops[..|ops| - 1], shuffle);
      PassesAgree(ops[..|ops| - 1], shuffle);
      var m := Measure(ops, shuffle);
      assert m.placed[..|m.placed| - 1] == front.placed;
    }
  }

  // ----- shuffling

  /** The column reached in the output. */
  function OutputColumn(placed: seq<Placed>): nat { RowLength(placed) }

  /** The column reached in the script, which starts again after an extended line. */
  function ScriptColumn(ops: seq<Operand>): nat {
    if ops == [] || ops[|ops| - 1].extend then 0
    else ScriptColumn(ops[..|ops| - 1]) + ops[|ops| - 1].lead + ops[|ops| - 1].width
  }

  /** As long as no text has a newline, the shuffle count is how far the output is ahead of
      the script. */
  lemma {:induction false} ShuffleCountIsDrift(ops: seq<Operand>, shuffle: int)
    requires forall op <- ops :: !HasNewline(op.value)
    ensures var m := Measure(ops, shuffle);
      && m.totals.width == OutputColumn(m.placed)
      && m.totals.shuffleCount == OutputColumn(m.placed) - ScriptColumn(ops)
  {
    if ops != [] {
      var front, last := ops[..|ops| - 1], ops[|ops| - 1];
      ShuffleCountIsDrift(front, shuffle);
      var m := Measure(ops, shuffle);
      assert m.placed[..|m.placed| - 1] == Measure(front, shuffle).placed;
      if last.value.Text? { LastLineWhole(last.value.s); }
    }
  }

  lemma LastLineWhole(s: string)
    requires '\n' !in s
    ensures LastLine(s) == s
  {
  }

  /** Where an operand goes: after fewer than `shuffle` spaces it keeps its gap; otherwise
      it starts at its own script column if that leaves at least `shuffle` spaces after
      what is before it, and `shuffle` spaces after it if not. */
  lemma ShuffleAligns(ops: seq<Operand>, op: Operand, shuffle: int)
    requires forall o <- ops :: !HasNewline(o.value)
    ensures var m := Measure(ops, shuffle);
      var p := Measure(ops + [op], shuffle).placed[|ops|];
      var start := OutputColumn(m.placed) + p.indent;
      var wanted := ScriptColumn(ops) + op.lead;
      && p.value == op.value
      && if shuffle <= 0 || op.lead < shuffle then p.indent == op.lead
         else if wanted >= OutputColumn(m.placed) + shuffle then start == wanted
         else p.indent == shuffle
  {
    ShuffleCountIsDrift(ops, shuffle);
    assert (ops + [op])[..|ops|] == ops;
  }

  // ----- the flat buffer

  lemma OneMoreRow(n: nat, length: nat)
    requires n > 0
    ensures n * length == length + (n - 1) * length
  {
  }

  predicate Even(rows: seq<string>, length: nat) {
    forall k | 0 <= k < |rows| :: |rows[k]| == length
  }

  lemma {:induction false} FlatLength(rows: seq<string>, length: nat)
    requires Even(rows, length)
    ensures |Flat(rows)| == |rows| * length
  {
    if rows != [] {
      FlatLength(rows[1..], length);
      OneMoreRow(|rows|, length);
    }
  }

  lemma {:induction false} FlatSplit(rows: seq<string>, k: nat)
    requires k < |rows|
    ensures Flat(rows) == Flat(rows[..k]) + rows[k] + Flat(rows[k + 1..])
  {
    if k == 0 {
      assert Flat(rows[..0]) == "";
    } else {
      FlatSplit(rows[1..], k - 1);
      assert rows[..k][1..] == rows[1..][..k - 1];
      assert rows[k + 1..] == rows[1..][k..];
    }
  }

  /** The text with the characters from `at` on written over. */
  function Put(row: string, at: nat, s: string): (r: string)
    requires at + |s| <= |row|
    ensures |r| == |row|
  {
    seq(|row|, i requires 0 <= i < |row| => if at <= i < at + |s| then s[i - at] else row[i])
  }

  /** The place of a column of row `line` in the flat buffer. */
  function At(line: nat, length: nat, column: nat): nat { line * length + column }

  /** Writing inside row `k` of the flat buffer changes that row and no other. */
  lemma FlatWrite(rows: seq<string>, length: nat, k: nat, column: nat, s: string, row: string)
    requires Even(rows, length) && k < |rows| && column + |s| <= length && row == Put(rows[k], column, s)
    ensures At(k, length, column) + |s| <= |Flat(rows)|
    ensures Flat(rows[k := row]) == Put(Flat(rows), At(k, length, column), s)
  {
    FlatSplit(rows, k);
    FlatSplit(rows[k := row], k);
    FlatLength(rows[..k], length);
    assert rows[k := row][..k] == rows[..k] && rows[k := row][k + 1..] == rows[k + 1..];
    Splice(Flat(rows[..k]), rows[k], Flat(rows[k + 1..]), column, s);
  }

  lemma Splice(before: string, row: string, after: string, column: nat, s: string)
    requires column + |s| <= |row|
    ensures before + Put(row, column, s) + after == Put(before + row + after, |before| + column, s)
  {
  }
}
