/** Concatenating results: measure, then fill a flat buffer, then trim. */
module Concatenate {
  import opened LayoutSpec
  import opened ResultWalk
  import opened Trim
  import opened Wrappers

  // ----- values

  /** The first operand without a value, if any; a missing block is not reported. */
  datatype Failure = Reported | Silent

  function FailureOf(v: Value): Option<Failure> {
    match v
    case Undefined => Some(Reported)
    case MissingBlock => Some(Silent)
    case _ => None
  }

  function FirstFailure(ops: seq<Operand>): Option<Failure> {
    if ops == [] then None
    else
      var front := FirstFailure(ops[..|ops| - 1]);
      if front.Some? then front else FailureOf(ops[|ops| - 1].value)
  }

  lemma {:induction false} FailureMeansUndefined(ops: seq<Operand>)
    ensures FirstFailure(ops).None? <==> forall op <- ops :: Defined(op.value)
  {
    if ops != [] {
      FailureMeansUndefined(ops[..|ops| - 1]);
      assert ops == ops[..|ops| - 1] + [ops[|ops| - 1]];
    }
  }

  lemma {:induction false} FailureStays(ops: seq<Operand>, i: nat)
    requires i <= |ops| && FirstFailure(ops[..i]).Some?
    ensures FirstFailure(ops) == FirstFailure(ops[..i])
  {
    if i < |ops| {
      assert ops[..|ops| - 1][..i] == ops[..i];
      FailureStays(ops[..|ops| - 1], i);
    } else {
      assert ops[..i] == ops;
    }
  }

  lemma {:induction false} LeavesAreDistinct(t: Shape)
    requires IsTree(t)
    ensures forall i | 0 <= i < |Leaves(t)| :: Leaves(t)[i] in Members(t)
    ensures forall i, j | 0 <= i < j < |Leaves(t)| :: Leaves(t)[i] != Leaves(t)[j]
  {
    if t.Join? {
      LeavesAreDistinct(t.left);
      LeavesAreDistinct(t.right);
    }
  }

  lemma {:induction false} LeadsBegin(t: Shape, a: nat, b: nat, script: map<ResultNode, nat>)
    requires Members(t) <= script.Keys
    ensures Leads(t, a, script)[0] == a
    ensures Leads(t, b, script) == [b] + Leads(t, a, script)[1..]
  {
    if t.Join? {
      LeadsBegin(t.left, a, b, script);
    }
  }

  // ----- measuring

  ghost predicate IsOperand(op: Operand, n: ResultNode, lead: nat)
    reads n`value, n`width, n`extend
  {
    op == Operand(lead, n.value, n.width, n.extend)
  }

  /** The operands of a concatenation, in order, the first one after `first` spaces. */
  ghost predicate AreOperands(ops: seq<Operand>, w: Tour, first: nat)
    reads w.nodes`value, w.nodes`width, w.nodes`extend
  {
    && |ops| == |w.leaves| == |w.leads| && (forall n <- w.leaves :: n in w.nodes)
    && forall i | 0 <= i < |ops| :: IsOperand(ops[i], w.leaves[i], if i == 0 then first else w.leads[i])
  }

  /** The number of lines of a block and the length of its longest line. */
  method BlockSize(lines: seq<string>) returns (count: nat, width: nat)
    ensures count == |lines| && width == Width(lines)
  {
    count, width := 0, 0;
    while count < |lines|
      invariant count <= |lines| && width == Width(lines[..count])
    {
      WidthOfMore(lines[..count], lines[count]);
      assert lines[..count + 1] == lines[..count] + [lines[count]];
      if |lines[count]| > width {
        width := |lines[count]|;
      }
      count := count + 1;
    }
    assert lines[..count] == lines;
  }

  /** The length of the text after the last newline. */
  method LastLineLength(s: string) returns (length: nat)
    ensures length == |LastLine(s)|
  {
    var c := |s|;
    while c > 0 && s[c - 1] != '\n'
      invariant 0 <= c <= |s| && '\n' !in s[c..]
    {
      c := c - 1;
    }
    LastLineFrom(s, c);
    length := |s| - c;
  }

  lemma {:induction false} LastLineFrom(s: string, c: nat)
    requires c <= |s| && '\n' !in s[c..] && (c > 0 ==> s[c - 1] == '\n')
    ensures LastLine(s) == s[c..]
  {
    if c > 0 {
      assert s[c - 1] in s;
      assert s[1..][c - 1..] == s[c..];
      LastLineFrom(s[1..], c - 1);
    } else {
      assert s[0..] == s;
    }
  }

  /** Adds an operand to the totals, once it has its indent. */
  method AddOperand(totals: Totals, op: ResultNode, lead: nat, ghost o: Operand) returns (r: Totals)
    requires IsOperand(o, op, lead) && Defined(op.value)
    ensures r == Add(totals, o, op.indent)
  {
    var lines, width, length;
    if op.value.Block? {
      lines, width := BlockSize(op.value.lines);
      width := width + op.indent;
      length := width;
    } else {
      lines := 1;
      width := LastLineLength(op.value.s);
      width := op.indent + width;
      length := op.indent + |op.value.s|;
    }
    var newline := op.value.Text? && '\n' in op.value.s;
    var total := if newline then width else totals.width + width;
    r := Totals(
      if lines > totals.lines then lines else totals.lines,
      total,
      totals.lineLength + length,
      if newline then 0
      else if op.extend then total
      else totals.shuffleCount + width - (op.width + lead));
  }

  /** What the first pass does with one operand. */
  method MeasureOperand(totals: Totals, op: ResultNode, lead: nat, shuffle: int, ghost o: Operand)
    returns (failure: Option<Failure>, r: Totals)
    requires IsOperand(o, op, lead)
    modifies op`indent
    ensures failure == FailureOf(o.value)
    ensures op.indent == Indent(lead, shuffle, totals.shuffleCount)
    ensures failure.None? ==> r == Add(totals, o, op.indent)
  {
    failure, r := None, totals;
    op.indent := lead;
    if shuffle > 0 && op.indent >= shuffle {
      if op.indent - totals.shuffleCount >= shuffle {
        op.indent := op.indent - totals.shuffleCount;
      } else {
        op.indent := shuffle;
      }
    }
    if op.value.MissingBlock? { return Some(Silent), totals; }
    if op.value.Undefined? { return Some(Reported), totals; }
    r := AddOperand(totals, op, lead, o);
  }

  lemma MeasureOneMore(ops: seq<Operand>, i: nat, shuffle: int)
    requires i < |ops|
    ensures Measure(ops[..i + 1], shuffle) == MeasureNext(Measure(ops[..i], shuffle), ops[i], shuffle)
    ensures FirstFailure(ops[..i]).None? ==> FirstFailure(ops[..i + 1]) == FailureOf(ops[i].value)
  {
    assert ops[..i + 1][..i] == ops[..i];
  }

  /** The operands measured so far have their indents. */
  ghost predicate Indented(w: Tour, placed: seq<Placed>)
    reads w.nodes`indent
  {
    && |placed| <= |w.leaves|
    && forall j | 0 <= j < |placed| :: w.leaves[j] in w.nodes && w.leaves[j].indent == placed[j].indent
  }

  /** The first pass before its `i`-th operand. */
  ghost predicate MeasuredUpTo(w: Tour, ops: seq<Operand>, i: nat, shuffle: int, totals: Totals)
    reads w.nodes`indent
  {
    && i <= |ops| && FirstFailure(ops[..i]).None?
    && totals == Measure(ops[..i], shuffle).totals && Indented(w, Measure(ops[..i], shuffle).placed)
  }

  /** Measures the operand the walk stands on. */
  method MeasureNextOperand(totals: Totals, op: ResultNode, lead: nat, shuffle: int,
                            ghost w: Tour, ghost ops: seq<Operand>, ghost i: nat)
    returns (failure: Option<Failure>, r: Totals)
    requires i < |ops| == |w.leaves| && w.leaves[i] == op && op in w.nodes && IsOperand(ops[i], op, lead)
    requires forall j | 0 <= j < i :: w.leaves[j] != op
    requires MeasuredUpTo(w, ops, i, shuffle, totals)
    modifies op`indent
    ensures failure.Some? ==> failure == FirstFailure(ops)
    ensures failure.None? ==> MeasuredUpTo(w, ops, i + 1, shuffle, r)
  {
    MeasureOneMore(ops, i, shuffle);
    failure, r := MeasureOperand(totals, op, lead, shuffle, ops[i]);
    if failure.Some? {
      FailureStays(ops, i + 1);
    }
  }

  /** The walk stands on the `i`-th operand, or has passed the last. */
  ghost predicate AtOperand(w: Tour, ops: seq<Operand>, op: ResultNode?, at: Context, i: nat, lead: nat)
    reads AfterMembers(at)`indent
    reads (if op == null then {} else {op})`value, (if op == null then {} else {op})`width
    reads (if op == null then {} else {op})`extend
  {
    if op == null then i == |ops| else i < |ops| && StandsOn(w, op, at, i) && IsOperand(ops[i], op, lead)
  }

  /** One turn of the first pass. */
  method MeasureAndStep(totals: Totals, op: ResultNode, lead: nat, shuffle: int,
                        ghost w: Tour, ghost ops: seq<Operand>, ghost at: Context, ghost i: nat)
    returns (failure: Option<Failure>, r: Totals, next: ResultNode?, lead': nat, ghost at': Context)
    requires Walkable(w) && AtOperand(w, ops, op, at, i, lead) && AreOperands(ops, w, ops[0].lead)
    requires MeasuredUpTo(w, ops, i, shuffle, totals)
    modifies op`indent
    ensures Walkable(w) && AreOperands(ops, w, ops[0].lead)
    ensures failure.Some? ==> failure == FirstFailure(ops)
    ensures failure.None? ==> MeasuredUpTo(w, ops, i + 1, shuffle, r) && AtOperand(w, ops, next, at', i + 1, lead')
  {
    LeavesAreDistinct(w.t);
    failure, r := MeasureNextOperand(totals, op, lead, shuffle, w, ops, i);
    next, lead', at' := null, 0, at;
    if failure.None? {
      next, lead', at' := Step(op, w, at, i);
    }
  }

  /** Finds the first operand and takes the spaces before it off the root. */
  method BeginMeasuring(r: ResultNode, shuffle: int, convertIndent: bool, ghost w: Tour, ghost ops: seq<Operand>)
    returns (op: ResultNode, lead: nat, ghost at: Context)
    requires Walkable(w) && w.t.node == r && forall n <- w.nodes :: n.indent == w.script[n]
    requires AreOperands(ops, w, if convertIndent then r.indent else 0)
    modifies r`indent
    ensures Walkable(w) && AtOperand(w, ops, op, at, 0, lead)
    ensures AreOperands(ops, w, ops[0].lead) && MeasuredUpTo(w, ops, 0, shuffle, ZERO)
  {
    op, lead, at := Begin(r, w);
    if convertIndent {
      r.indent := 0;
    } else {
      lead := 0;
    }
  }

  /** The first pass: gives every operand its indent in the output and adds up the totals. */
  method MeasureOperands(r: ResultNode, shuffle: int, convertIndent: bool, ghost w: Tour, ghost ops: seq<Operand>)
    returns (failure: Option<Failure>, totals: Totals)
    requires Walkable(w) && w.t.node == r && forall n <- w.nodes :: n.indent == w.script[n]
    requires AreOperands(ops, w, if convertIndent then r.indent else 0)
    modifies w.nodes`indent
    ensures failure == FirstFailure(ops) && Walkable(w)
    ensures failure.None? ==> MeasuredUpTo(w, ops, |ops|, shuffle, totals)
  {
    failure, totals := None, ZERO;
    var op: ResultNode?, lead, at := BeginMeasuring(r, shuffle, convertIndent, w, ops);
    ghost var i := 0;
    while op != null
      invariant failure.None? && Walkable(w) && AreOperands(ops, w, ops[0].lead)
      invariant MeasuredUpTo(w, ops, i, shuffle, totals) && AtOperand(w, ops, op, at, i, lead)
      decreases |ops| - i
    {
      failure, totals, op, lead, at := MeasureAndStep(totals, op, lead, shuffle, w, ops, at, i);
      if failure.Some? { return; }
      i := i + 1;
    }
    assert ops[..i] == ops;
  }

  // ----- filling

  /** The rows of the buffer once the operands in `placed` are written, the rest of each
      row being spaces. */
  function PartRow(placed: seq<Placed>, k: nat, length: nat): (s: string)
    requires RowLength(placed) <= length
    ensures |s| == length
  {
    RowIsLong(placed, k);
    Row(placed, k) + Spaces(length - RowLength(placed))
  }

  /** The rows while the next operand is being written: it is in the first `line` rows. */
  function PartRows(placed: seq<Placed>, p: Placed, line: nat, count: nat, length: nat): (rows: seq<string>)
    requires RowLength(placed + [p]) <= length
    ensures Even(rows, length)
  {
    OneMoreCell(placed, p, 0);
    seq(count, k requires 0 <= k < count =>
      if k < line then PartRow(placed + [p], k, length) else PartRow(placed, k, length))
  }

  function FilledRows(placed: seq<Placed>, count: nat, length: nat): (rows: seq<string>)
    requires RowLength(placed) <= length
    ensures Even(rows, length)
  {
    seq(count, k requires 0 <= k < count => PartRow(placed, k, length))
  }

  lemma OneMoreCell(placed: seq<Placed>, p: Placed, k: nat)
    ensures Row(placed + [p], k) == Row(placed, k) + Cell(p, k)
    ensures RowLength(placed + [p]) == RowLength(placed) + p.indent + Length(p.value)
  {
  }

  /** What is copied into row `k` for an operand. */
  function Ink(v: Value, k: nat): string
    requires Defined(v) && (v.Block? ==> k < |v.lines|)
  {
    if v.Text? then v.s else v.lines[k]
  }

  lemma OverBlanks(before: string, indent: nat, s: string, pad: nat, rest: nat)
    ensures Put(before + Spaces(indent + |s| + pad + rest), |before| + indent, s)
      == before + (Spaces(indent) + s + Spaces(pad)) + Spaces(rest)
  {
  }

  lemma BlanksJoin(a: nat, b: nat)
    ensures Spaces(a) + Spaces(b) == Spaces(a + b)
  {
  }

  lemma CellIsInk(p: Placed, k: nat)
    requires Defined(p.value) && (p.value.Block? ==> k < |p.value.lines|)
    ensures |Ink(p.value, k)| <= Length(p.value)
    ensures Cell(p, k) == Spaces(p.indent) + Ink(p.value, k) + Spaces(Length(p.value) - |Ink(p.value, k)|)
  {
    if p.value.Block? { WidthBounds(p.value.lines, k); }
  }

  /** Copying an operand's characters at its place completes its cell. */
  lemma CellWritten(placed: seq<Placed>, p: Placed, k: nat, length: nat)
    requires RowLength(placed + [p]) <= length && Defined(p.value) && (p.value.Block? ==> k < |p.value.lines|)
    ensures RowLength(placed) + p.indent + |Ink(p.value, k)| <= RowLength(placed + [p])
    ensures PartRow(placed + [p], k, length)
      == Put(PartRow(placed, k, length), RowLength(placed) + p.indent, Ink(p.value, k))
  {
    var ink := Ink(p.value, k);
    OneMoreCell(placed, p, k);
    RowIsLong(placed, k);
    CellIsInk(p, k);
    OverBlanks(Row(placed, k), p.indent, ink, Length(p.value) - |ink|, length - RowLength(placed + [p]));
  }

  /** Below a block its cells are blank, so the buffer already holds them. */
  lemma BlockWritten(placed: seq<Placed>, p: Placed, count: nat, length: nat)
    requires RowLength(placed + [p]) <= length && p.value.Block? && |p.value.lines| <= count
    ensures PartRows(placed, p, |p.value.lines|, count, length) == FilledRows(placed + [p], count, length)
  {
    forall k: nat | |p.value.lines| <= k < count
      ensures PartRow(placed + [p], k, length) == PartRow(placed, k, length)
    {
      OneMoreCell(placed, p, k);
      assert Cell(p, k) == Spaces(p.indent) + Spaces(Width(p.value.lines));
    }
  }

  method Memcpy(rc: array<char>, at: nat, s: string)
    requires at + |s| <= rc.Length
    modifies rc
    ensures rc[..] == Put(old(rc[..]), at, s)
  {
    forall k | 0 <= k < |s| { rc[at + k] := s[k]; }
  }

  lemma RowWritten(placed: seq<Placed>, p: Placed, line: nat, column: nat, count: nat, length: nat)
    requires RowLength(placed + [p]) <= length && Defined(p.value) && (p.value.Block? ==> line < |p.value.lines|)
    requires line < count && column == RowLength(placed) + p.indent
    ensures At(line, length, column) + |Ink(p.value, line)| <= |Flat(PartRows(placed, p, line, count, length))|
    ensures Flat(PartRows(placed, p, line + 1, count, length))
      == Put(Flat(PartRows(placed, p, line, count, length)), At(line, length, column), Ink(p.value, line))
  {
    var rows, next := PartRows(placed, p, line, count, length), PartRows(placed, p, line + 1, count, length);
    CellWritten(placed, p, line, length);
    NextRow(placed, p, line, count, length);
    RowReplaced(rows, next, PartRow(placed + [p], line, length), line, column, length, Ink(p.value, line));
  }

  lemma RowReplaced(rows: seq<string>, next: seq<string>, row: string, line: nat, column: nat, length: nat, s: string)
    requires Even(rows, length) && line < |rows| && column + |s| <= length
    requires row == Put(rows[line], column, s) && next == rows[line := row]
    ensures At(line, length, column) + |s| <= |Flat(rows)|
    ensures Flat(next) == Put(Flat(rows), At(line, length, column), s)
  {
    FlatWrite(rows, length, line, column, s, row);
  }

  lemma NextRow(placed: seq<Placed>, p: Placed, line: nat, count: nat, length: nat)
    requires RowLength(placed + [p]) <= length && line < count
    ensures PartRows(placed, p, line, count, length)[line] == PartRow(placed, line, length)
    ensures PartRows(placed, p, line + 1, count, length)
      == PartRows(placed, p, line, count, length)[line := PartRow(placed + [p], line, length)]
  {
  }

  /** Copies an operand's characters into row `line` of the flat buffer. */
  method WriteRow(rc: array<char>, s: string, line: nat, length: nat, column: nat,
                  ghost placed: seq<Placed>, ghost p: Placed, ghost count: nat)
    requires RowLength(placed + [p]) <= length && Defined(p.value) && (p.value.Block? ==> line < |p.value.lines|)
    requires line < count && column == RowLength(placed) + p.indent && s == Ink(p.value, line)
    requires rc[..] == Flat(PartRows(placed, p, line, count, length))
    modifies rc
    ensures rc[..] == Flat(PartRows(placed, p, line + 1, count, length))
  {
    RowWritten(placed, p, line, column, count, length);
    Memcpy(rc, At(line, length, column), s);
  }

  /** Writes an operand into the rows of the flat buffer and gives the new run length. */
  method WriteOperand(rc: array<char>, op: ResultNode, count: nat, length: nat, runLength: nat,
                      ghost placed: seq<Placed>, ghost p: Placed)
    returns (r: nat)
    requires p == Placed(op.indent, op.value) && Defined(p.value)
    requires RowLength(placed + [p]) <= length && Lines(p.value) <= count && runLength == RowLength(placed)
    requires rc[..] == Flat(FilledRows(placed, count, length))
    modifies rc
    ensures rc[..] == Flat(FilledRows(placed + [p], count, length)) && r == RowLength(placed + [p])
  {
    OneMoreCell(placed, p, 0);
    assert FilledRows(placed, count, length) == PartRows(placed, p, 0, count, length);
    if op.value.Block? {
      var lines := op.value.lines;
      for line := 0 to |lines|
        invariant rc[..] == Flat(PartRows(placed, p, line, count, length))
      {
        WriteRow(rc, lines[line], line, length, runLength + op.indent, placed, p, count);
      }
      BlockWritten(placed, p, count, length);
      var height, width := BlockSize(lines);
      r := runLength + width + op.indent;
    } else {
      var s := op.value.s;
      for line := 0 to count
        invariant rc[..] == Flat(PartRows(placed, p, line, count, length))
      {
        WriteRow(rc, s, line, length, runLength + op.indent, placed, p, count);
      }
      assert PartRows(placed, p, count, count, length) == FilledRows(placed + [p], count, length);
      r := runLength + op.indent + |s|;
    }
  }

  // ----- the second pass

  /** Every operand has its indent and can be written. */
  ghost predicate ArePlaced(w: Tour, placed: seq<Placed>)
    reads w.nodes`indent, w.nodes`value
  {
    && |placed| == |w.leaves|
    && forall i | 0 <= i < |placed| ::
      w.leaves[i] in w.nodes && Defined(placed[i].value) && placed[i] == Placed(w.leaves[i].indent, w.leaves[i].value)
  }

  lemma {:induction false} Fits(placed: seq<Placed>, i: nat)
    requires i < |placed|
    ensures placed[..i + 1] == placed[..i] + [placed[i]]
    ensures RowLength(placed[..i + 1]) <= RowLength(placed) && Lines(placed[i].value) <= RowCount(placed)
  {
    if i + 1 == |placed| {
      assert placed[..i + 1] == placed;
    } else {
      Fits(placed[..|placed| - 1], i);
      assert placed[..|placed| - 1][..i + 1] == placed[..i + 1];
    }
  }

  lemma {:induction false} BlankBuffer(count: nat, length: nat)
    ensures Flat(FilledRows([], count, length)) == Spaces(At(count, length, 0))
  {
    var rows := FilledRows([], count, length);
    if count > 0 {
      BlankBuffer(count - 1, length);
      assert rows[1..] == FilledRows([], count - 1, length);
      assert rows[0] == Spaces(length);
      OneMoreRow(count, length);
      BlanksJoin(length, At(count - 1, length, 0));
    }
  }

  lemma FullBuffer(placed: seq<Placed>)
    ensures Flat(FilledRows(placed, RowCount(placed), RowLength(placed))) == Joined(placed)
  {
    forall k: nat ensures PartRow(placed, k, RowLength(placed)) == Row(placed, k) {
      assert Row(placed, k) + Spaces(0) == Row(placed, k);
    }
    assert FilledRows(placed, RowCount(placed), RowLength(placed)) == Rows(placed, RowCount(placed));
  }

  /** What the buffer holds once the first `i` operands are written. */
  ghost predicate FilledUpTo(rc: array<char>, placed: seq<Placed>, i: nat, runLength: nat)
    reads rc
  {
    && i <= |placed| && RowLength(placed[..i]) == runLength <= RowLength(placed)
    && rc[..] == Flat(FilledRows(placed[..i], RowCount(placed), RowLength(placed)))
  }

  ghost predicate AtPlaced(w: Tour, op: ResultNode?, at: Context, i: nat)
    reads AfterMembers(at)`indent
  {
    if op == null then i == |w.leaves| else StandsOn(w, op, at, i)
  }

  /** One turn of the second pass. */
  method FillAndStep(rc: array<char>, op: ResultNode, count: nat, length: nat, runLength: nat,
                     ghost w: Tour, ghost placed: seq<Placed>, ghost at: Context, ghost i: nat)
    returns (r: nat, next: ResultNode?, ghost at': Context)
    requires Walkable(w) && StandsOn(w, op, at, i) && ArePlaced(w, placed)
    requires count == RowCount(placed) && length == RowLength(placed) && FilledUpTo(rc, placed, i, runLength)
    modifies rc
    ensures Walkable(w) && AtPlaced(w, next, at', i + 1) && ArePlaced(w, placed)
    ensures FilledUpTo(rc, placed, i + 1, r)
  {
    r := FillNext(rc, op, count, length, runLength, w, placed, i);
    var lead;
    next, lead, at' := Step(op, w, at, i);
  }

  /** Writes the operand the walk stands on. */
  method FillNext(rc: array<char>, op: ResultNode, count: nat, length: nat, runLength: nat,
                  ghost w: Tour, ghost placed: seq<Placed>, ghost i: nat)
    returns (r: nat)
    requires i < |w.leaves| && w.leaves[i] == op && ArePlaced(w, placed)
    requires count == RowCount(placed) && length == RowLength(placed) && FilledUpTo(rc, placed, i, runLength)
    modifies rc
    ensures FilledUpTo(rc, placed, i + 1, r)
  {
    Fits(placed, i);
    r := WriteOperand(rc, op, count, length, runLength, placed[..i], placed[i]);
  }

  /** The second pass: writes every operand into the rows of the flat buffer. */
  method FillOperands(r: ResultNode, rc: array<char>, count: nat, length: nat, ghost w: Tour, ghost placed: seq<Placed>)
    returns (runLength: nat)
    requires Walkable(w) && w.t.node == r && (forall n <- w.nodes :: n.indent == w.script[n]) && ArePlaced(w, placed)
    requires count == RowCount(placed) && length == RowLength(placed)
    requires rc[..] == Spaces(At(count, length, 0))
    modifies rc
    ensures rc[..] == Joined(placed) && runLength == length
  {
    BlankBuffer(count, length);
    FullBuffer(placed);
    runLength := 0;
    var op: ResultNode?, lead, at := Begin(r, w);
    ghost var i := 0;
    while op != null
      invariant Walkable(w) && AtPlaced(w, op, at, i) && ArePlaced(w, placed)
      invariant FilledUpTo(rc, placed, i, runLength)
      decreases |placed| - i
    {
      runLength, op, at := FillAndStep(rc, op, count, length, runLength, w, placed, at, i);
      i := i + 1;
    }
    assert placed[..i] == placed;
  }

  // ----- both passes

  lemma {:induction false} MeasuredValues(ops: seq<Operand>, shuffle: int, i: nat)
    requires i < |ops|
    ensures Measure(ops, shuffle).placed[i].value == ops[i].value
  {
    if i < |ops| - 1 { MeasuredValues(ops[..|ops| - 1], shuffle, i); }
  }

  /** What the first pass leaves is what the second needs. */
  lemma ReadyToFill(w: Tour, ops: seq<Operand>, first: nat, shuffle: int, totals: Totals)
    requires AreOperands(ops, w, first) && MeasuredUpTo(w, ops, |ops|, shuffle, totals)
    ensures ArePlaced(w, Measure(ops, shuffle).placed)
    ensures totals.lines == RowCount(Measure(ops, shuffle).placed)
    ensures totals.lineLength == RowLength(Measure(ops, shuffle).placed)
  {
    var placed := Measure(ops, shuffle).placed;
    assert ops[..|ops|] == ops;
    PassesAgree(ops, shuffle);
    FailureMeansUndefined(ops);
    forall i | 0 <= i < |placed|
      ensures w.leaves[i] in w.nodes && Defined(placed[i].value)
      ensures placed[i] == Placed(w.leaves[i].indent, w.leaves[i].value)
    {
      MeasuredValues(ops, shuffle, i);
      assert w.leaves[i] in w.leaves && IsOperand(ops[i], w.leaves[i], ops[i].lead);
      assert ops[i] in ops;
    }
  }

  /** Concatenates the results under `r`: nothing if an operand has no value, and otherwise
      the rows of the layout, trimmed. An undefined value is reported, a missing block not. */
  method ConcatenateResults(r: ResultNode, shuffle: int, convertIndent: bool,
                            ghost t: Shape, ghost top: ResultNode?, ghost nodes: set<ResultNode>,
                            ghost ops: seq<Operand>)
    returns (result: Option<string>, reported: bool)
    requires Members(t) == nodes && t.node == r && Walkable(TourOf(t, top, nodes))
    requires AreOperands(ops, TourOf(t, top, nodes), if convertIndent then r.indent else 0)
    modifies nodes`indent
    ensures Holds(t, top)
    ensures result.Some? <==> forall op <- ops :: Defined(op.value)
    ensures result.Some? ==> result.value == Trimmed(Joined(Measure(ops, shuffle).placed))
    ensures reported <==> FirstFailure(ops) == Some(Reported)
  {
    FailureMeansUndefined(ops);
    ghost var w := TourOf(t, top, nodes);
    ghost var first := if convertIndent then r.indent else 0;
    var failure, totals := MeasureOperands(r, shuffle, convertIndent, w, ops);
    if failure.Some? { return None, failure == Some(Reported); }
    ReadyToFill(w, ops, first, shuffle, totals);
    var text := Fill(r, totals, t, top, nodes, Measure(ops, shuffle).placed);
    return Some(text), false;
  }

  /** Builds the result once the operands have their indents. */
  method Fill(r: ResultNode, totals: Totals, ghost t: Shape, ghost top: ResultNode?, ghost nodes: set<ResultNode>,
              ghost placed: seq<Placed>)
    returns (text: string)
    requires Members(t) == nodes && t.node == r && Walkable(TourOf(t, top, nodes))
    requires ArePlaced(TourOf(t, top, nodes), placed)
    requires totals.lines == RowCount(placed) && totals.lineLength == RowLength(placed)
    ensures text == Trimmed(Joined(placed))
  {
    var rc := new char[At(totals.lines, totals.lineLength, 0)](_ => ' ');
    assert rc[..] == Spaces(At(totals.lines, totals.lineLength, 0));
    ghost var w := TourOf(t, top, nodes);
    var runLength := FillOperands(r, rc, totals.lines, totals.lineLength, w, placed);
    var beforeBuffer: char := *;
    var length, looked := TrimLines(rc, beforeBuffer);
    assert runLength == totals.lineLength;
    text := rc[..length];
  }
}
