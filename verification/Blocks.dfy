/** Blocks of lines.

A block holds the lines of a text packed one after the other, each with a null at its
end, and the places where they start. It is built in two passes, one to measure and one
to copy; a copy finds the places again from the packed text; and it becomes a text again
with every line as long as the longest.
*/
module Blocks {
  import L = LayoutSpec
  import T = Trim

  const NUL := '\0'

  predicate IsText(s: string) { forall i | 0 <= i < |s| :: s[i] != NUL }

  /** The lines of a text: a newline at the end is followed by an empty line. */
  function SplitLines(s: string): (lines: seq<string>)
    ensures lines != []
    decreases |s|
  {
    var i := T.FirstNewline(s);
    if i == |s| then [s] else [s[..i]] + SplitLines(s[i + 1..])
  }

  predicate IsLine(line: string) { IsText(line) && '\n' !in line }

  predicate AreLines(lines: seq<string>) { lines != [] && forall i | 0 <= i < |lines| :: IsLine(lines[i]) }

  lemma {:induction false} SplitIsLines(s: string)
    requires IsText(s)
    ensures AreLines(SplitLines(s))
    decreases |s|
  {
    var i := T.FirstNewline(s);
    T.FirstNewlineIs(s);
    if i < |s| {
      SplitIsLines(s[i + 1..]);
    } else {
      assert s[..i] == s;
    }
  }

  // ----- packed lines

  function Packed(lines: seq<string>): string {
    if lines == [] then "" else Packed(lines[..|lines| - 1]) + lines[|lines| - 1] + [NUL]
  }

  /** Where a line starts. */
  function Offset(lines: seq<string>, k: nat): nat
    requires k <= |lines|
  {
    |Packed(lines[..k])|
  }

  lemma PackedNext(lines: seq<string>, k: nat)
    requires k < |lines|
    ensures Packed(lines[..k + 1]) == Packed(lines[..k]) + lines[k] + [NUL]
    ensures Offset(lines, k + 1) == Offset(lines, k) + |lines[k]| + 1
  {
    assert lines[..k + 1][..k] == lines[..k];
  }

  lemma {:induction false} PackedFirst(line: string, lines: seq<string>)
    ensures Packed([line] + lines) == line + [NUL] + Packed(lines)
  {
    if lines == [] {
      assert [line] + lines == [line] && [line][..0] == [];
    } else {
      var n := |lines| - 1;
      assert ([line] + lines)[..n + 1] == [line] + lines[..n];
      PackedFirst(line, lines[..n]);
    }
  }

  /** Packing takes one character more than the text. */
  lemma {:induction false} PackedSize(s: string)
    ensures |Packed(SplitLines(s))| == |s| + 1
    decreases |s|
  {
    var i := T.FirstNewline(s);
    if i < |s| {
      PackedSize(s[i + 1..]);
      PackedFirst(s[..i], SplitLines(s[i + 1..]));
    } else {
      assert SplitLines(s)[..0] == [];
    }
  }

  /** A block in memory. */
  class Block {
    const starts: array<nat>
    const text: array<char>

    constructor (lines: nat, size: nat)
      ensures fresh(starts) && fresh(text) && starts.Length == lines && text.Length == size
    {
      starts, text := new nat[lines], new char[size];
    }

    /** What the block holds. */
    ghost predicate Denotes(lines: seq<string>)
      reads starts, text
    {
      && starts.Length == |lines| && text[..] == Packed(lines)
      && forall k | 0 <= k < |lines| :: starts[k] == Offset(lines, k)
    }

    /** The first lines are in their places. */
    ghost predicate Holds(lines: seq<string>, k: nat)
      reads starts, text
    {
      && k <= |lines| == starts.Length && Offset(lines, k) <= text.Length == |Packed(lines)|
      && text[..Offset(lines, k)] == Packed(lines[..k])
      && forall j | 0 <= j < k :: starts[j] == Offset(lines, j)
    }

    lemma NoneHeld(lines: seq<string>)
      requires starts.Length == |lines| && text.Length == |Packed(lines)|
      ensures Holds(lines, 0)
    {
      assert lines[..0] == [];
    }

    lemma AllHeld(lines: seq<string>)
      requires Holds(lines, |lines|)
      ensures Denotes(lines)
    {
      assert lines[..|lines|] == lines;
    }

    /** Copies a line to its place. */
    method PutLine(line: string, k: nat, at: nat, ghost lines: seq<string>)
      requires k < |lines| && line == lines[k] && Holds(lines, k) && at == Offset(lines, k)
      requires starts != text as object
      modifies starts, text
      ensures Holds(lines, k + 1)
    {
      PackedNext(lines, k);
      ghost var before := text[..at];
      OffsetFits(lines, k + 1);
      forall i | 0 <= i < |line| { text[at + i] := line[i]; }
      text[at + |line|] := NUL;
      starts[k] := at;
      assert text[..at] == before;
      assert text[at..at + |line|] == line;
      Appended(text[..], at, line, NUL);
    }
  }

  lemma Appended(text: seq<char>, at: nat, line: string, end: char)
    requires at + |line| < |text| && text[at..at + |line|] == line && text[at + |line|] == end
    ensures text[..at + |line| + 1] == text[..at] + line + [end]
  {
  }

  lemma {:induction false} OffsetFits(lines: seq<string>, k: nat)
    requires k <= |lines|
    ensures Offset(lines, k) <= |Packed(lines)|
    decreases |lines| - k
  {
    if k < |lines| {
      PackedNext(lines, k);
      OffsetFits(lines, k + 1);
    } else {
      assert lines[..k] == lines;
    }
  }

  // ----- construct_block

  method FindLineEnd(s: string, from: nat) returns (end: nat)
    requires from <= |s|
    ensures from <= end <= |s| && end - from == T.FirstNewline(s[from..])
  {
    end := from;
    while end < |s| && s[end] != '\n'
      invariant from <= end <= |s| && T.FirstNewline(s[from..]) == end - from + T.FirstNewline(s[end..])
    {
      assert s[end..][1..] == s[end + 1..];
      end := end + 1;
    }
  }

  lemma SplitNext(s: string, from: nat, end: nat)
    requires from <= end <= |s| && end - from == T.FirstNewline(s[from..])
    ensures SplitLines(s[from..]) == if end == |s| then [s[from..end]] else [s[from..end]] + SplitLines(s[end + 1..])
  {
    var t, i := s[from..], end - from;
    assert t[..i] == s[from..end];
    if end < |s| { assert t[i + 1..] == s[end + 1..]; } else { assert t[..i] == t; }
  }

  /** Where the scan of the lines of a text is: before line `k`, or past the last. */
  ghost predicate AtLine(s: string, all: seq<string>, k: nat, start: nat, more: bool) {
    if more then start <= |s| && k < |all| && all[k..] == SplitLines(s[start..]) else k == |all|
  }

  lemma AtFirst(s: string)
    ensures AtLine(s, SplitLines(s), 0, 0, true)
  {
  }

  /** Finds the end of a line. */
  method NextLine(s: string, start: nat, ghost all: seq<string>, ghost k: nat) returns (end: nat)
    requires AtLine(s, all, k, start, true)
    ensures start <= end <= |s| && k < |all| && all[k] == s[start..end] && end - start == T.FirstNewline(s[start..])
    ensures AtLine(s, all, k + 1, end + 1, end < |s|)
  {
    end := FindLineEnd(s, start);
    SplitNext(s, start, end);
    assert all[k] == all[k..][0] && all[k + 1..] == all[k..][1..];
  }

  /** The first pass: the number of lines and the room they take. */
  method MeasureBlock(s: string) returns (lines: nat, size: nat)
    ensures lines == |SplitLines(s)| && size == |s| + 1
  {
    lines, size := 0, 0;
    var start, more := 0, true;
    AtFirst(s);
    while more
      invariant size == start && AtLine(s, SplitLines(s), lines, start, more) && (!more ==> start == |s| + 1)
      decreases |s| + 1 - start, more
    {
      var end := NextLine(s, start, SplitLines(s), lines);
      lines := lines + 1;
      size := size + (end - start) + 1;
      more := end < |s|;
      start := end + 1;
    }
  }

  /** The second pass, and both: a block with exactly the lines of the text, packed in
      exactly the room that was measured. */
  method ConstructBlock(s: string) returns (block: Block)
    ensures fresh(block) && fresh(block.starts) && fresh(block.text)
    ensures block.Denotes(SplitLines(s)) && block.text.Length == |s| + 1
  {
    PackedSize(s);
    var count, size := MeasureBlock(s);
    block := new Block(count, size);
    CopyLines(s, block);
  }

  method CopyLines(s: string, block: Block)
    requires block.starts.Length == |SplitLines(s)| && block.text.Length == |Packed(SplitLines(s))|
    requires block.starts != block.text as object
    modifies block.starts, block.text
    ensures block.Denotes(SplitLines(s))
  {
    ghost var all := SplitLines(s);
    var start, more, k, at := 0, true, 0, 0;
    AtFirst(s);
    block.NoneHeld(all);
    while more
      invariant AtLine(s, all, k, start, more) && block.Holds(all, k) && at == Offset(all, k)
      decreases |s| + 1 - start, more
    {
      var end := NextLine(s, start, all, k);
      PackedNext(all, k);
      block.PutLine(s[start..end], k, at, all);
      k, at := k + 1, at + (end - start) + 1;
      more := end < |s|;
      start := end + 1;
    }
    block.AllHeld(all);
  }

  // ----- copy_value_

  /** The length of the text up to its null. */
  method StrLen(text: array<char>, at: nat, ghost line: string, ghost rest: string) returns (length: nat)
    requires at <= text.Length && text[at..] == line + [NUL] + rest && IsText(line)
    ensures length == |line|
  {
    length := 0;
    assert forall i | 0 <= i < |line| + 1 :: text[at + i] == text[at..][i];
    while text[at + length] != NUL
      invariant length <= |line|
      decreases |line| - length
    {
      length := length + 1;
    }
  }

  lemma {:induction false} PackedFrom(lines: seq<string>, k: nat)
    requires k < |lines|
    ensures Offset(lines, k) <= |Packed(lines)|
    ensures Packed(lines)[Offset(lines, k)..] == lines[k] + [NUL] + Packed(lines[k + 1..])
    decreases |lines|
  {
    OffsetFits(lines, k);
    if k == 0 {
      assert lines == [lines[0]] + lines[1..] && lines[..0] == [];
      PackedFirst(lines[0], lines[1..]);
    } else {
      var rest := lines[1..];
      assert lines == [lines[0]] + rest && lines[..k] == [lines[0]] + rest[..k - 1] && lines[k + 1..] == rest[k..];
      PackedFrom(rest, k - 1);
      PackedFirst(lines[0], rest);
      PackedFirst(lines[0], rest[..k - 1]);
      assert Packed(lines)[Offset(lines, k)..] == Packed(rest)[Offset(rest, k - 1)..];
    }
  }

  /** Copies the memory of a block, and then finds the start of every line again by going
      over the packed text. */
  method CopyBlock(source: Block, ghost lines: seq<string>) returns (copy: Block)
    requires source.Denotes(lines) && forall i | 0 <= i < |lines| :: IsText(lines[i])
    ensures fresh(copy) && fresh(copy.starts) && fresh(copy.text) && copy.Denotes(lines)
  {
    copy := new Block(source.starts.Length, source.text.Length);
    forall i | 0 <= i < source.text.Length { copy.text[i] := source.text[i]; }
    assert copy.text[..] == source.text[..];
    var at := 0;
    assert lines[..0] == [];
    for k := 0 to source.starts.Length
      invariant fresh(copy.starts) && fresh(copy.text) && copy.text[..] == Packed(lines) && at == Offset(lines, k)
      invariant forall j | 0 <= j < k :: copy.starts[j] == Offset(lines, j)
    {
      PackedFrom(lines, k);
      PackedNext(lines, k);
      copy.starts[k] := at;
      assert copy.text[at..] == Packed(lines)[at..];
      var length := StrLen(copy.text, at, lines[k], Packed(lines[k + 1..]));
      at := at + length + 1;
    }
  }

  // ----- string_value

  function Pad(line: string, width: nat): string {
    line + L.Spaces(if |line| < width then width - |line| else 0)
  }

  function Padded(lines: seq<string>, width: nat): seq<string> {
    seq(|lines|, i requires 0 <= i < |lines| => Pad(lines[i], width))
  }

  /** Lines with a newline between them. */
  function Rejoined(lines: seq<string>): string {
    if lines == [] then "" else if |lines| == 1 then lines[0] else lines[0] + "\n" + Rejoined(lines[1..])
  }

  /** The text of a block. */
  function BlockText(lines: seq<string>): string { Rejoined(Padded(lines, L.Width(lines))) }

  lemma FirstOfLine(line: string, rest: string)
    requires '\n' !in line && (rest == "" || rest[0] == '\n')
    ensures T.FirstNewline(line + rest) == |line|
  {
    if rest == "" {
      assert line + rest == line;
      T.FirstNewlineIs(line);
    } else {
      T.FirstNewlineAt(line, rest);
    }
  }

  /** Splitting undoes joining. */
  lemma {:induction false} SplitOfJoin(lines: seq<string>)
    requires lines != [] && forall i | 0 <= i < |lines| :: '\n' !in lines[i]
    ensures SplitLines(Rejoined(lines)) == lines
  {
    if |lines| == 1 {
      FirstOfLine(lines[0], "");
      assert lines[0] + "" == lines[0];
    } else {
      var rest := "\n" + Rejoined(lines[1..]);
      SplitOfJoin(lines[1..]);
      FirstOfLine(lines[0], rest);
      var s := lines[0] + rest;
      assert Rejoined(lines) == s;
      assert s[..|lines[0]|] == lines[0] && s[|lines[0]| + 1..] == Rejoined(lines[1..]);
    }
  }

  /** Joining undoes splitting. */
  lemma {:induction false} JoinOfSplit(s: string)
    ensures Rejoined(SplitLines(s)) == s
    decreases |s|
  {
    var i := T.FirstNewline(s);
    T.FirstNewlineIs(s);
    if i < |s| {
      JoinOfSplit(s[i + 1..]);
      RejoinedMore(s[..i], SplitLines(s[i + 1..]));
      CutAt(s, i);
    }
  }

  lemma CutAt(s: string, i: nat)
    requires i < |s| && s[i] == '\n'
    ensures s[..i] + "\n" + s[i + 1..] == s
  {
  }

  lemma RejoinedMore(line: string, lines: seq<string>)
    requires lines != []
    ensures Rejoined([line] + lines) == line + "\n" + Rejoined(lines)
  {
    assert ([line] + lines)[1..] == lines;
  }

  lemma PaddedAreLines(lines: seq<string>, width: nat)
    requires AreLines(lines)
    ensures AreLines(Padded(lines, width))
  {
  }

  lemma {:induction false} WidthIsMost(lines: seq<string>, width: nat)
    requires lines != [] && forall i | 0 <= i < |lines| :: |lines[i]| == width
    ensures L.Width(lines) == width
  {
    if |lines| > 1 { WidthIsMost(lines[1..], width); }
  }

  lemma {:induction false} NoneIsWider(lines: seq<string>, i: nat)
    requires i < |lines|
    ensures |lines[i]| <= L.Width(lines)
  {
    if i > 0 { NoneIsWider(lines[1..], i - 1); }
  }

  /** The lines of the text of a block are its lines, padded to the widest. */
  lemma SplitOfBlockText(lines: seq<string>)
    requires AreLines(lines)
    ensures SplitLines(BlockText(lines)) == Padded(lines, L.Width(lines))
  {
    PaddedAreLines(lines, L.Width(lines));
    SplitOfJoin(Padded(lines, L.Width(lines)));
  }

  /** After one round of joining and splitting nothing changes any more. */
  lemma StableAfterOneRound(lines: seq<string>)
    requires AreLines(lines)
    ensures var once := SplitLines(BlockText(lines));
      AreLines(once) && SplitLines(BlockText(once)) == once && BlockText(once) == BlockText(lines)
  {
    var width := L.Width(lines);
    var once := Padded(lines, width);
    SplitOfBlockText(lines);
    PaddedAreLines(lines, width);
    forall i | 0 <= i < |once| ensures |once[i]| == width && Pad(once[i], width) == once[i] {
      NoneIsWider(lines, i);
      assert once[i] + L.Spaces(0) == once[i];
    }
    WidthIsMost(once, width);
    assert Padded(once, width) == once;
    SplitOfBlockText(once);
  }

  /** A text that is split, copied and joined: the same lines, padded. */
  lemma TextOfBlock(s: string)
    requires IsText(s)
    ensures BlockText(SplitLines(s)) == s <==>
      forall i, j | 0 <= i < |SplitLines(s)| && 0 <= j < |SplitLines(s)| :: |SplitLines(s)[i]| == |SplitLines(s)[j]|
  {
    var lines := SplitLines(s);
    SplitIsLines(s);
    SplitOfBlockText(lines);
    JoinOfSplit(s);
    if BlockText(lines) == s {
      forall i, j | 0 <= i < |lines| && 0 <= j < |lines| ensures |lines[i]| == |lines[j]| {
        NoneIsWider(lines, i);
        NoneIsWider(lines, j);
        assert lines[i] == Pad(lines[i], L.Width(lines)) && lines[j] == Pad(lines[j], L.Width(lines));
      }
    }
    if forall i, j | 0 <= i < |lines| && 0 <= j < |lines| :: |lines[i]| == |lines[j]| {
      WidthIsMost(lines, |lines[0]|);
      forall i | 0 <= i < |lines| ensures Pad(lines[i], |lines[0]|) == lines[i] {
        assert |lines[i]| == |lines[0]| && lines[i] + L.Spaces(0) == lines[i];
      }
      assert Padded(lines, |lines[0]|) == lines;
    }
  }

  // ----- string_value in place

  /** Lines with a newline after each. */
  function Terminated(lines: seq<string>): string {
    if lines == [] then "" else Terminated(lines[..|lines| - 1]) + lines[|lines| - 1] + "\n"
  }

  lemma TerminatedNext(lines: seq<string>, k: nat)
    requires k < |lines|
    ensures Terminated(lines[..k + 1]) == Terminated(lines[..k]) + lines[k] + "\n"
  {
    assert lines[..k + 1][..k] == lines[..k];
  }

  lemma {:induction false} TerminatedFirst(line: string, lines: seq<string>)
    ensures Terminated([line] + lines) == line + "\n" + Terminated(lines)
  {
    if lines == [] {
      assert [line] + lines == [line] && [line][..0] == [];
    } else {
      var n := |lines| - 1;
      assert ([line] + lines)[..n + 1] == [line] + lines[..n];
      TerminatedFirst(line, lines[..n]);
    }
  }

  lemma {:induction false} RejoinedIsTerminated(lines: seq<string>)
    requires lines != []
    ensures Terminated(lines) == Rejoined(lines) + "\n"
  {
    assert lines == [lines[0]] + lines[1..];
    TerminatedFirst(lines[0], lines[1..]);
    if |lines| > 1 { RejoinedIsTerminated(lines[1..]); }
  }

  lemma {:induction false} TerminatedSize(lines: seq<string>, k: nat, width: nat)
    requires k <= |lines| && forall i | 0 <= i < k :: |lines[i]| == width
    ensures |Terminated(lines[..k])| == k * (width + 1)
  {
    if k > 0 {
      TerminatedSize(lines, k - 1, width);
      TerminatedNext(lines, k - 1);
    }
  }

  /** The length of a line of a block. */
  method LineLength(block: Block, k: nat, ghost lines: seq<string>) returns (length: nat)
    requires k < |lines| && block.Denotes(lines) && IsText(lines[k])
    ensures length == |lines[k]| && block.starts[k] + length <= block.text.Length
    ensures block.text[block.starts[k]..block.starts[k] + length] == lines[k]
  {
    PackedFrom(lines, k);
    var at := block.starts[k];
    assert block.text[at..] == Packed(lines)[at..];
    length := StrLen(block.text, at, lines[k], Packed(lines[k + 1..]));
    assert block.text[at..][..length] == lines[k];
    assert block.text[at..][..length] == block.text[at..at + length];
  }

  method MeasureLines(block: Block, ghost lines: seq<string>) returns (count: nat, width: nat)
    requires block.Denotes(lines) && forall i | 0 <= i < |lines| :: IsText(lines[i])
    ensures count == |lines| && width == L.Width(lines)
  {
    count, width := 0, 0;
    while count < block.starts.Length
      invariant count <= |lines| && width == L.Width(lines[..count])
    {
      var length := LineLength(block, count, lines);
      assert lines[..count + 1] == lines[..count] + [lines[count]];
      L.WidthOfMore(lines[..count], lines[count]);
      if length > width { width := length; }
      count := count + 1;
    }
    assert lines[..count] == lines;
  }

  /** The first `k` lines are written, each with a newline after it. */
  ghost predicate Filled(text: array<char>, at: nat, lines: seq<string>, k: nat)
    reads text
  {
    && k <= |lines| && |Terminated(lines)| == text.Length
    && at == |Terminated(lines[..k])| <= text.Length && text[..at] == Terminated(lines[..k])
  }

  lemma NoneFilled(text: array<char>, lines: seq<string>)
    requires |Terminated(lines)| == text.Length
    ensures Filled(text, 0, lines, 0)
  {
    assert lines[..0] == [];
  }

  lemma AllFilled(text: array<char>, at: nat, lines: seq<string>)
    requires Filled(text, at, lines, |lines|)
    ensures at == text.Length && text[..at] == Terminated(lines)
  {
    assert lines[..|lines|] == lines;
  }

  /** The room that the lines of a block take, all as long as the widest. */
  lemma PaddedSize(lines: seq<string>, width: nat)
    requires width == L.Width(lines)
    ensures |Terminated(Padded(lines, width))| == |lines| * (width + 1)
  {
    var padded := Padded(lines, width);
    forall i | 0 <= i < |lines| ensures |padded[i]| == width { NoneIsWider(lines, i); }
    TerminatedSize(padded, |lines|, width);
    assert padded[..|lines|] == padded;
  }

  /** The text of a block: measured, then filled line by line, with spaces up to the width. */
  method BlockToText(block: Block, ghost lines: seq<string>) returns (s: string)
    requires block.Denotes(lines) && AreLines(lines)
    ensures s == BlockText(lines)
  {
    var count, width := MeasureLines(block, lines);
    ghost var padded := Padded(lines, width);
    PaddedSize(lines, width);
    var text := new char[count * (width + 1)];
    var at := 0;
    NoneFilled(text, padded);
    for k := 0 to count
      invariant Filled(text, at, padded, k)
    {
      at := PadLine(block, k, width, text, at, lines, padded);
    }
    AllFilled(text, at, padded);
    RejoinedIsTerminated(padded);
    s := text[..at - 1];
  }

  /** Copies a line of a block, and ends it at the width. */
  method PadLine(block: Block, k: nat, width: nat, text: array<char>, at: nat, ghost lines: seq<string>,
                 ghost padded: seq<string>)
    returns (next: nat)
    requires block.Denotes(lines) && k < |lines| && IsText(lines[k]) && width == L.Width(lines)
    requires padded == Padded(lines, width) && Filled(text, at, padded, k)
    modifies text
    ensures Filled(text, next, padded, k + 1)
  {
    TerminatedNext(padded, k);
    TerminatedFits(padded, k + 1);
    NoneIsWider(lines, k);
    var length := LineLength(block, k, lines);
    FillLine(text, at, block.text[block.starts[k]..block.starts[k] + length], width);
    next := at + width + 1;
  }

  lemma {:induction false} TerminatedFits(lines: seq<string>, k: nat)
    requires k <= |lines|
    ensures |Terminated(lines[..k])| <= |Terminated(lines)|
    decreases |lines| - k
  {
    if k < |lines| {
      TerminatedNext(lines, k);
      TerminatedFits(lines, k + 1);
    } else {
      assert lines[..k] == lines;
    }
  }

  method FillLine(text: array<char>, at: nat, line: string, width: nat)
    requires |line| <= width && at + width + 1 <= text.Length
    modifies text
    ensures text[..at + width + 1] == old(text[..at]) + Pad(line, width) + "\n"
  {
    forall i | 0 <= i < |line| { text[at + i] := line[i]; }
    forall i | |line| <= i < width { text[at + i] := ' '; }
    text[at + width] := '\n';
    assert text[..at] == old(text[..at]);
    assert text[at..at + width] == Pad(line, width);
    assert text[..at + width + 1] == text[..at] + text[at..at + width] + "\n";
  }
}
