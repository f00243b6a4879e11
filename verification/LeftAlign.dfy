/** Moving a text to the left.

`strleft` takes off every line the leading spaces that all lines have in common; a line
of nothing but spaces becomes empty. It goes over the text twice, first to find the
common spaces and the size of the result, then to copy.
*/
module LeftAlign {
  import opened Blocks
  import opened Trim
  import opened Wrappers

  /** The leading spaces of a line. */
  function Lead(line: string): (n: nat)
    ensures n <= |line|
  {
    if line == "" || line[0] != ' ' then 0 else Lead(line[1..]) + 1
  }

  predicate IsBlank(line: string) { Lead(line) == |line| }

  function Least(a: Option<nat>, n: nat): Option<nat> {
    if a.None? || n < a.value then Some(n) else a
  }

  /** The spaces that the lines that are not blank have in common; none if all are blank. */
  function Common(lines: seq<string>): Option<nat> {
    if lines == [] then None
    else
      var front, line := Common(lines[..|lines| - 1]), lines[|lines| - 1];
      if IsBlank(line) then front else Least(front, Lead(line))
  }

  function Moved(line: string, n: nat): string {
    if IsBlank(line) || |line| < n then "" else line[n..]
  }

  function MovedLines(lines: seq<string>, n: nat): (r: seq<string>)
    ensures |r| == |lines|
  {
    seq(|lines|, i requires 0 <= i < |lines| => Moved(lines[i], n))
  }

  function Amount(common: Option<nat>): nat {
    if common.None? then 0 else common.value
  }

  /** The lines moved to the left. */
  function LeftLines(lines: seq<string>): (r: seq<string>)
    ensures |r| == |lines|
  {
    MovedLines(lines, Amount(Common(lines)))
  }

  function LeftText(s: string): string { Rejoined(LeftLines(SplitLines(s))) }

  // ----- what it does to the lines

  /** The common spaces are the least, and some line has no more. */
  lemma {:induction false} CommonIsLeast(lines: seq<string>)
    ensures Common(lines).None? <==> forall i | 0 <= i < |lines| :: IsBlank(lines[i])
    ensures Common(lines).Some? ==>
      && (forall i | 0 <= i < |lines| && !IsBlank(lines[i]) :: Common(lines).value <= Lead(lines[i]))
      && exists i :: 0 <= i < |lines| && !IsBlank(lines[i]) && Lead(lines[i]) == Common(lines).value
  {
    if lines != [] {
      var n := |lines| - 1;
      var front := lines[..n];
      CommonIsLeast(front);
      assert forall i | 0 <= i < n :: front[i] == lines[i];
      if Common(front).Some? {
        var i :| 0 <= i < n && !IsBlank(front[i]) && Lead(front[i]) == Common(front).value;
        assert !IsBlank(lines[i]) && Lead(lines[i]) == Common(front).value;
      }
    }
  }

  lemma {:induction false} LeadOfRest(line: string, n: nat)
    requires n <= Lead(line)
    ensures Lead(line[n..]) == Lead(line) - n && (IsBlank(line[n..]) <==> IsBlank(line))
  {
    if n > 0 {
      LeadOfRest(line[1..], n - 1);
      assert line[1..][n - 1..] == line[n..];
    }
  }

  /** Blank lines become empty; the others lose the same number of spaces, so that how far
      each is indented beyond another stays the same; and one of them, if there are any,
      then starts at the left. */
  lemma LeftKeepsShape(lines: seq<string>)
    ensures var left := LeftLines(lines);
      && (forall i | 0 <= i < |lines| && IsBlank(lines[i]) :: left[i] == "")
      && (forall i | 0 <= i < |lines| && !IsBlank(lines[i]) ::
            !IsBlank(left[i]) && left[i][Lead(left[i])..] == lines[i][Lead(lines[i])..])
      && (forall i, j | 0 <= i < |lines| && 0 <= j < |lines| && !IsBlank(lines[i]) && !IsBlank(lines[j]) ::
            Lead(left[i]) - Lead(left[j]) == Lead(lines[i]) - Lead(lines[j]))
      && ((exists i :: 0 <= i < |lines| && !IsBlank(lines[i])) ==>
            exists i :: 0 <= i < |lines| && !IsBlank(left[i]) && Lead(left[i]) == 0)
  {
    CommonIsLeast(lines);
    var left, n := LeftLines(lines), Amount(Common(lines));
    forall i | 0 <= i < |lines| && !IsBlank(lines[i])
      ensures !IsBlank(left[i]) && Lead(left[i]) == Lead(lines[i]) - n
      ensures left[i][Lead(left[i])..] == lines[i][Lead(lines[i])..]
    {
      LeadOfRest(lines[i], n);
      assert left[i] == lines[i][n..];
    }
    if k :| 0 <= k < |lines| && !IsBlank(lines[k]) {
      var i :| 0 <= i < |lines| && !IsBlank(lines[i]) && Lead(lines[i]) == n;
      assert Lead(left[i]) == 0 && !IsBlank(left[i]);
    }
  }

  /** Moving to the left a second time changes nothing. */
  lemma LeftTwice(lines: seq<string>)
    ensures LeftLines(LeftLines(lines)) == LeftLines(lines)
  {
    var left := LeftLines(lines);
    LeftKeepsShape(lines);
    CommonIsLeast(lines);
    CommonIsLeast(left);
    assert Amount(Common(left)) == 0;
    forall i | 0 <= i < |left| ensures Moved(left[i], 0) == left[i] {
      assert left[i][0..] == left[i];
      if IsBlank(lines[i]) { assert left[i] == ""; }
    }
  }

  /** The text that is made has these lines, as many as there were. */
  lemma LeftTextLines(s: string)
    requires IsText(s)
    ensures SplitLines(LeftText(s)) == LeftLines(SplitLines(s))
    ensures LeftText(LeftText(s)) == LeftText(s)
  {
    var lines := SplitLines(s);
    SplitIsLines(s);
    var left := LeftLines(lines);
    forall i | 0 <= i < |left| ensures '\n' !in left[i] {
      assert IsLine(lines[i]);
    }
    SplitOfJoin(left);
    LeftTwice(lines);
  }

  // ----- the size of the result

  function Count(lines: seq<string>): nat {
    if lines == [] then 0 else Count(lines[..|lines| - 1]) + if IsBlank(lines[|lines| - 1]) then 0 else 1
  }

  function Characters(lines: seq<string>): nat {
    if lines == [] then 0
    else Characters(lines[..|lines| - 1]) + if IsBlank(lines[|lines| - 1]) then 0 else |lines[|lines| - 1]|
  }

  lemma OneMore(n: int, k: int)
    ensures n * (k + 1) == n * k + n
  {
  }

  lemma MovedFront(lines: seq<string>, n: nat)
    requires lines != []
    ensures var k := |lines| - 1;
      |Terminated(MovedLines(lines, n))| == |Terminated(MovedLines(lines[..k], n))| + |Moved(lines[k], n)| + 1
  {
    var k := |lines| - 1;
    assert MovedLines(lines, n)[..k] == MovedLines(lines[..k], n);
  }

  /** The size that is computed is the size of the lines, each with a character after it. */
  lemma {:induction false} SizeIs(lines: seq<string>, n: nat)
    requires forall i | 0 <= i < |lines| && !IsBlank(lines[i]) :: n <= Lead(lines[i])
    ensures |Terminated(MovedLines(lines, n))| == Characters(lines) - n * Count(lines) + |lines|
  {
    if lines != [] {
      var k := |lines| - 1;
      var front := lines[..k];
      SizeIs(front, n);
      MovedFront(lines, n);
      OneMore(n, Count(front));
    }
  }

  // ----- strleft

  method StrSpn(s: string, from: nat, ghost end: nat) returns (spaces: nat)
    requires from <= end <= |s| && (end < |s| ==> s[end] == '\n')
    ensures spaces == Lead(s[from..end])
  {
    spaces := 0;
    while from + spaces < |s| && s[from + spaces] == ' '
      invariant from + spaces <= end && Lead(s[from..end]) == spaces + Lead(s[from + spaces..end])
    {
      assert s[from + spaces..end][1..] == s[from + spaces + 1..end];
      spaces := spaces + 1;
    }
  }

  /** Finds the leading spaces and the end of a line. */
  method ScanLine(s: string, start: nat, ghost all: seq<string>, ghost k: nat) returns (spaces: nat, end: nat)
    requires AtLine(s, all, k, start, true)
    ensures start <= end <= |s| && k < |all| && all[k] == s[start..end] && spaces == Lead(all[k])
    ensures AtLine(s, all, k + 1, end + 1, end < |s|)
  {
    end := NextLine(s, start, all, k);
    LineEnds(s, start, end);
    spaces := StrSpn(s, start, end);
  }

  lemma CountsNext(all: seq<string>, k: nat)
    requires k < |all|
    ensures var blank, n := IsBlank(all[k]), all[..k + 1];
      && Common(n) == (if blank then Common(all[..k]) else Least(Common(all[..k]), Lead(all[k])))
      && Characters(n) == Characters(all[..k]) + (if blank then 0 else |all[k]|)
      && Count(n) == Count(all[..k]) + (if blank then 0 else 1)
  {
    assert all[..k + 1][..k] == all[..k];
  }

  /** What the first pass has found in the first `k` lines. */
  ghost predicate Counted(all: seq<string>, k: nat, common: Option<nat>, chars: nat, blank: nat) {
    && k <= |all|
    && common == Common(all[..k]) && chars == Characters(all[..k]) && k - blank == Count(all[..k])
  }

  /** Measures a line. */
  method MeasureNext(s: string, start: nat, common: Option<nat>, chars: nat, blank: nat,
                     ghost all: seq<string>, ghost k: nat)
    returns (common': Option<nat>, chars': nat, blank': nat, end: nat)
    requires AtLine(s, all, k, start, true) && Counted(all, k, common, chars, blank)
    ensures start <= end <= |s| && AtLine(s, all, k + 1, end + 1, end < |s|)
    ensures Counted(all, k + 1, common', chars', blank')
  {
    common', chars', blank' := common, chars, blank;
    var spaces;
    spaces, end := ScanLine(s, start, all, k);
    CountsNext(all, k);
    if spaces < end - start {
      common', chars' := Least(common, spaces), chars + (end - start);
    } else {
      blank' := blank + 1;
    }
  }

  /** The first pass: the common spaces and the size of the result. */
  method MeasureLeft(s: string) returns (minSpaces: Option<nat>, newSize: int)
    ensures minSpaces == Common(SplitLines(s)) && newSize == |Terminated(LeftLines(SplitLines(s)))|
  {
    ghost var all := SplitLines(s);
    var total: nat, blank: nat, chars: nat := 0, 0, 0;
    minSpaces := None;
    var start: nat, more := 0, true;
    AtFirst(s);
    assert all[..0] == [];
    while more
      invariant AtLine(s, all, total, start, more) && Counted(all, total, minSpaces, chars, blank)
      decreases |s| + 1 - start, more
    {
      var end;
      minSpaces, chars, blank, end := MeasureNext(s, start, minSpaces, chars, blank, all, total);
      total := total + 1;
      more := end < |s|;
      start := end + 1;
    }
    LeftSize(all, minSpaces, chars, blank);
    newSize := chars - Amount(minSpaces) * (total - blank) + total;
  }

  lemma LeftSize(all: seq<string>, common: Option<nat>, chars: nat, blank: nat)
    requires Counted(all, |all|, common, chars, blank)
    ensures common == Common(all)
    ensures |Terminated(LeftLines(all))| == chars - Amount(common) * (|all| - blank) + |all|
  {
    assert all[..|all|] == all;
    CommonIsLeast(all);
    SizeIs(all, Amount(Common(all)));
  }

  lemma LineEnds(s: string, from: nat, end: nat)
    requires from <= end <= |s| && end - from == FirstNewline(s[from..])
    ensures end < |s| ==> s[end] == '\n'
  {
    FirstNewlineIs(s[from..]);
  }

  /** Both passes: the second fills exactly the room that the first measured. */
  method StrLeft(s: string) returns (r: string)
    ensures r == LeftText(s)
  {
    ghost var left := LeftLines(SplitLines(s));
    var minSpaces, newSize := MeasureLeft(s);
    var text := new char[newSize];
    AtFirst(s);
    var size := FillLeft(s, minSpaces, text, SplitLines(s), left);
    AllFilled(text, size, left);
    RejoinedIsTerminated(left);
    r := text[..size - 1];
  }

  /** What each line becomes. */
  ghost predicate AreMoved(all: seq<string>, minSpaces: Option<nat>, left: seq<string>) {
    && |left| == |all| && minSpaces == Common(all)
    && forall k | 0 <= k < |left| :: left[k] == Moved(all[k], Amount(minSpaces))
  }

  /** Copies the next line, moved to the left. */
  method FillNext(s: string, start: nat, minSpaces: Option<nat>, text: array<char>, at: nat,
                  ghost all: seq<string>, ghost left: seq<string>, ghost k: nat)
    returns (next: nat, end: nat)
    requires AtLine(s, all, k, start, true) && AreMoved(all, minSpaces, left) && Filled(text, at, left, k)
    modifies text
    ensures start <= end <= |s| && AtLine(s, all, k + 1, end + 1, end < |s|) && Filled(text, next, left, k + 1)
  {
    var spaces;
    spaces, end := ScanLine(s, start, all, k);
    next := PutMoved(s, start, end, spaces, minSpaces, text, at, all, left, k);
  }

  method FillLeft(s: string, minSpaces: Option<nat>, text: array<char>, ghost all: seq<string>, ghost left: seq<string>)
    returns (at: nat)
    requires AtLine(s, all, 0, 0, true) && AreMoved(all, minSpaces, left) && text.Length == |Terminated(left)|
    modifies text
    ensures Filled(text, at, left, |left|)
  {
    var start: nat, more := 0, true;
    ghost var k: nat := 0;
    at := 0;
    NoneFilled(text, left);
    while more
      invariant AtLine(s, all, k, start, more) && Filled(text, at, left, k)
      decreases |s| + 1 - start, more
    {
      var end;
      at, end := FillNext(s, start, minSpaces, text, at, all, left, k);
      k := k + 1;
      more := end < |s|;
      start := end + 1;
    }
  }

  /** Copies a line, moved to the left. */
  method PutMoved(s: string, start: nat, end: nat, spaces: nat, minSpaces: Option<nat>, text: array<char>, at: nat,
                  ghost all: seq<string>, ghost left: seq<string>, ghost k: nat)
    returns (next: nat)
    requires start <= end <= |s| && k < |all| && all[k] == s[start..end] && spaces == Lead(all[k])
    requires AreMoved(all, minSpaces, left) && Filled(text, at, left, k)
    modifies text
    ensures Filled(text, next, left, k + 1)
  {
    var line := MoveLine(s, start, end, spaces, minSpaces, all, k);
    assert left[k] == LeftLines(all)[k];
    next := PutLine(text, at, line, left, k);
  }

  method MoveLine(s: string, start: nat, end: nat, spaces: nat, minSpaces: Option<nat>, ghost all: seq<string>,
                  ghost k: nat)
    returns (line: string)
    requires start <= end <= |s| && k < |all| && all[k] == s[start..end] && spaces == Lead(all[k])
    requires minSpaces == Common(all)
    ensures line == LeftLines(all)[k]
  {
    MovedLine(all, k);
    if spaces < end - start {
      SliceOfSlice(s, start, end, Amount(minSpaces));
      line := s[start + Amount(minSpaces)..end];
    } else {
      line := "";
    }
  }

  lemma SliceOfSlice(s: string, from: nat, to: nat, n: nat)
    requires from + n <= to <= |s|
    ensures s[from..to][n..] == s[from + n..to]
  {
  }

  lemma {:induction false} MovedLine(all: seq<string>, k: nat)
    requires k < |all|
    ensures var n := Amount(Common(all));
      if IsBlank(all[k]) then LeftLines(all)[k] == "" else n <= Lead(all[k]) && LeftLines(all)[k] == all[k][n..]
  {
    CommonIsLeast(all);
  }

  /** Copies a line and ends it. */
  method PutLine(text: array<char>, at: nat, line: string, ghost lines: seq<string>, ghost k: nat) returns (next: nat)
    requires k < |lines| && line == lines[k] && |Terminated(lines)| == text.Length
    requires at == |Terminated(lines[..k])| <= text.Length && text[..at] == Terminated(lines[..k])
    modifies text
    ensures next == |Terminated(lines[..k + 1])| <= text.Length && text[..next] == Terminated(lines[..k + 1])
  {
    TerminatedNext(lines, k);
    TerminatedFits(lines, k + 1);
    forall i | 0 <= i < |line| { text[at + i] := line[i]; }
    text[at + |line|] := '\n';
    assert text[..at] == old(text[..at]);
    assert text[at..at + |line|] == line;
    next := at + |line| + 1;
  }
}
