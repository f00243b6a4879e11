/** Trailing white space taken off the lines of a result, in place. */
module Trim {
  predicate IsSpace(c: char) {
    c == ' ' || c == '\t' || c == '\n' || c == '\r' || c == '\U{0B}' || c == '\U{0C}'
  }

  /** A text cut after its first newline. */
  datatype Cut = Cut(body: string, ending: string, rest: string)

  predicate IsCut(s: string, c: Cut) {
    && s == c.body + c.ending + c.rest
    && '\n' !in c.body
    && (c.ending == "\r\n" || (c.ending == "\n" && (c.body != [] ==> c.body[|c.body| - 1] != '\r')))
  }

  function FirstNewline(s: string): (i: nat)
    ensures i <= |s|
  {
    if s == [] || s[0] == '\n' then 0 else FirstNewline(s[1..]) + 1
  }

  lemma {:induction false} FirstNewlineIs(s: string)
    ensures var i := FirstNewline(s); '\n' !in s[..i] && (i < |s| ==> s[i] == '\n')
    ensures FirstNewline(s) < |s| <==> '\n' in s
  {
    if s != [] && s[0] != '\n' {
      FirstNewlineIs(s[1..]);
      assert s == [s[0]] + s[1..];
      assert s[..FirstNewline(s)] == [s[0]] + s[1..][..FirstNewline(s[1..])];
    }
  }

  /** The first line; a carriage return before its newline belongs to the ending. */
  function FirstLine(s: string): Cut
    requires FirstNewline(s) < |s|
  {
    var i := FirstNewline(s);
    Cut(s[..LineEnd(s)], s[LineEnd(s)..i + 1], s[i + 1..])
  }

  function LineEnd(s: string): (e: nat)
    ensures e <= FirstNewline(s)
  {
    var i := FirstNewline(s);
    if 0 < i < |s| && s[i - 1] == '\r' then i - 1 else i
  }

  lemma FirstLineCuts(s: string)
    requires FirstNewline(s) < |s|
    ensures IsCut(s, FirstLine(s))
    ensures |FirstLine(s).body| == LineEnd(s) && |FirstLine(s).body + FirstLine(s).ending| == FirstNewline(s) + 1
  {
    FirstNewlineIs(s);
    CutAt(s, LineEnd(s), FirstNewline(s));
  }

  lemma CutAt(s: string, e: nat, i: nat)
    requires i < |s| && '\n' !in s[..i] && s[i] == '\n'
    requires e == if i > 0 && s[i - 1] == '\r' then i - 1 else i
    ensures IsCut(s, Cut(s[..e], s[e..i + 1], s[i + 1..]))
  {
    assert forall c <- s[..e] :: c in s[..i];
    assert s[e..i + 1] == if e == i then "\n" else "\r\n";
  }

  function Stripped(s: string): (r: string)
    ensures |r| <= |s|
  {
    if s == [] || !IsSpace(s[|s| - 1]) then s else Stripped(s[..|s| - 1])
  }

  lemma {:induction false} StrippedIs(s: string)
    ensures Stripped(s) <= s && (Stripped(s) != [] ==> !IsSpace(Stripped(s)[|Stripped(s)| - 1]))
    ensures forall i | |Stripped(s)| <= i < |s| :: IsSpace(s[i])
  {
    if s != [] && IsSpace(s[|s| - 1]) { StrippedIs(s[..|s| - 1]); }
  }

  /** A line without the white space before its ending. */
  function Kept(s: string): string
    requires FirstNewline(s) < |s|
  {
    Stripped(FirstLine(s).body) + FirstLine(s).ending
  }

  /** Every line that ends in a newline loses the white space before its ending; what comes
      after the last newline stays as it is. */
  function Trimmed(s: string): string
    decreases |s|
  {
    if FirstNewline(s) == |s| then s else Kept(s) + Trimmed(FirstLine(s).rest)
  }

  // ----- what trimming keeps

  function Newlines(s: string): nat {
    if s == [] then 0 else (if s[0] == '\n' then 1 else 0) + Newlines(s[1..])
  }

  /** What can be seen of a text. */
  function Ink(s: string): string {
    if s == [] then "" else (if IsSpace(s[0]) then "" else [s[0]]) + Ink(s[1..])
  }

  lemma {:induction false} OfSum(a: string, b: string)
    ensures Ink(a + b) == Ink(a) + Ink(b) && Newlines(a + b) == Newlines(a) + Newlines(b)
  {
    if a == [] {
      assert a + b == b;
    } else {
      assert (a + b)[1..] == a[1..] + b;
      OfSum(a[1..], b);
    }
  }

  lemma {:induction false} Blank(s: string)
    requires forall i | 0 <= i < |s| :: IsSpace(s[i])
    ensures Ink(s) == ""
  {
    if s != [] {
      Blank(s[1..]);
    }
  }

  lemma {:induction false} OneLine(s: string)
    requires '\n' !in s
    ensures Newlines(s) == 0
  {
    if s != [] {
      OneLine(s[1..]);
    }
  }

  lemma StrippedKeeps(s: string)
    requires '\n' !in s
    ensures Ink(Stripped(s)) == Ink(s) && Newlines(Stripped(s)) == Newlines(s)
  {
    var r := Stripped(s);
    StrippedIs(s);
    assert s == r + s[|r|..];
    OfSum(r, s[|r|..]);
    Blank(s[|r|..]);
    OneLine(s);
    OneLine(r);
  }

  lemma OfCut(c: Cut)
    ensures Ink(c.body + c.ending + c.rest) == Ink(c.body) + Ink(c.ending) + Ink(c.rest)
    ensures Newlines(c.body + c.ending + c.rest) == Newlines(c.body) + Newlines(c.ending) + Newlines(c.rest)
  {
    OfSum(c.body + c.ending, c.rest);
    OfSum(c.body, c.ending);
  }

  /** Trimming loses no visible character and no line. */
  lemma {:induction false} TrimKeeps(s: string)
    ensures Ink(Trimmed(s)) == Ink(s) && Newlines(Trimmed(s)) == Newlines(s)
    decreases |s|
  {
    if FirstNewline(s) < |s| {
      var c := FirstLine(s);
      FirstLineCuts(s);
      StrippedKeeps(c.body);
      TrimKeeps(c.rest);
      OfCut(c);
      OfCut(Cut(Stripped(c.body), c.ending, Trimmed(c.rest)));
    }
  }

  lemma {:induction false} FirstNewlineAt(a: string, b: string)
    requires '\n' !in a && b != [] && b[0] == '\n'
    ensures FirstNewline(a + b) == |a|
  {
    if a != [] {
      assert (a + b)[1..] == a[1..] + b;
      FirstNewlineAt(a[1..], b);
    } else {
      assert a + b == b;
    }
  }

  /** A text is cut in one way only. */
  lemma CutIsFirstLine(s: string, c: Cut)
    requires IsCut(s, c)
    ensures FirstNewline(s) < |s| && FirstLine(s) == c
  {
    NewlineOfCut(s, c);
    Parts(c.body, c.ending, c.rest);
  }

  lemma NewlineOfCut(s: string, c: Cut)
    requires IsCut(s, c)
    ensures FirstNewline(s) == |c.body| + |c.ending| - 1 && LineEnd(s) == |c.body|
  {
    var before := if c.ending == "\n" then c.body else c.body + "\r";
    var after := "\n" + c.rest;
    assert s == before + after by {
      if c.ending == "\n" { Regroup3(c.body, "\n", c.rest); } else { Regroup4(c.body, "\r", "\n", c.rest); }
    }
    FirstNewlineAt(before, after);
    Last(before, after);
  }

  lemma Regroup3(a: string, b: string, c: string)
    ensures a + b + c == a + (b + c)
  {
  }

  lemma Regroup4(a: string, b: string, c: string, d: string)
    ensures a + (b + c) + d == (a + b) + (c + d)
  {
  }

  lemma Last(a: string, b: string)
    ensures a != [] ==> (a + b)[|a| - 1] == a[|a| - 1]
    ensures b != [] ==> (a + b)[|a|] == b[0] && (a + b)[|a + b| - 1] == b[|b| - 1]
  {
  }

  lemma Parts(a: string, b: string, c: string)
    ensures var s := a + b + c;
      s[..|a|] == a && s[|a|..|a| + |b|] == b && s[|a| + |b|..] == c
  {
  }

  lemma StrippedTwice(s: string)
    ensures Stripped(Stripped(s)) == Stripped(s)
  {
    StrippedIs(s);
  }

  lemma {:induction false} KeptCuts(s: string, rest: string)
    requires FirstNewline(s) < |s|
    ensures IsCut(Kept(s) + rest, Cut(Stripped(FirstLine(s).body), FirstLine(s).ending, rest))
  {
    FirstLineCuts(s);
    StrippedIs(FirstLine(s).body);
  }

  /** No line of a trimmed text has anything to trim. */
  lemma {:induction false} TrimTwice(s: string)
    ensures Trimmed(Trimmed(s)) == Trimmed(s)
    decreases |s|
  {
    if FirstNewline(s) < |s| {
      var c := FirstLine(s);
      KeptCuts(s, Trimmed(c.rest));
      CutIsFirstLine(Trimmed(s), Cut(Stripped(c.body), c.ending, Trimmed(c.rest)));
      StrippedTwice(c.body);
      TrimTwice(c.rest);
    }
  }

  // ----- in place

  ghost predicate Contains(rc: array<char>, at: nat, s: string)
    reads rc
  {
    at + |s| <= rc.Length && forall i | 0 <= i < |s| :: rc[at + i] == s[i]
  }

  lemma ContainsSum(rc: array<char>, at: nat, a: string, b: string)
    ensures Contains(rc, at, a + b) <==> Contains(rc, at, a) && Contains(rc, at + |a|, b)
  {
    if Contains(rc, at, a + b) {
      assert forall i | 0 <= i < |a| :: (a + b)[i] == a[i];
      forall i | 0 <= i < |b| ensures rc[at + |a| + i] == b[i] {
        assert (a + b)[|a| + i] == b[i] && rc[at + (|a| + i)] == (a + b)[|a| + i];
      }
    }
  }

  method FindNewline(rc: array<char>, from: nat, length: nat, ghost s: string) returns (at: nat)
    requires Contains(rc, from, s) && length == from + |s|
    ensures from <= at <= length && at == from + FirstNewline(s)
  {
    at := from;
    while at < length && rc[at] != '\n'
      invariant from <= at <= length
      invariant FirstNewline(s) == at - from + FirstNewline(s[at - from..])
    {
      assert rc[at] == rc[from + (at - from)] == s[at - from];
      assert s[at - from..][1..] == s[at - from + 1..];
      at := at + 1;
    }
    assert at < length ==> rc[at] == rc[from + (at - from)] == s[at - from];
  }

  method FindEnd(rc: array<char>, from: nat, to: nat, ghost s: string) returns (at: nat)
    requires Contains(rc, from, s) && to == from + |s|
    ensures at == from + |Stripped(s)|
  {
    at := to;
    assert s[..|s|] == s;
    while at > from && IsSpace(rc[at - 1])
      invariant from <= at <= to && Stripped(s) == Stripped(s[..at - from])
    {
      assert rc[at - 1] == rc[from + (at - from - 1)] == s[at - from - 1];
      assert s[..at - from][..at - from - 1] == s[..at - from - 1];
      at := at - 1;
    }
    assert at > from ==> rc[at - 1] == rc[from + (at - from - 1)] == s[at - from - 1];
  }

  /** Moves the end of the text down. */
  method Memmove(rc: array<char>, to: nat, from: nat, length: nat, ghost before: string, ghost s: string)
    requires Contains(rc, 0, before) && |before| == to <= from && Contains(rc, from, s) && length == from + |s|
    modifies rc
    ensures Contains(rc, 0, before) && Contains(rc, to, s)
  {
    for k := 0 to length - from
      invariant forall i | 0 <= i < to :: rc[i] == before[i]
      invariant Contains(rc, to, s[..k])
      invariant forall i | k <= i < |s| :: rc[from + i] == s[i]
    {
      rc[to + k] := rc[from + k];
    }
    assert s[..|s|] == s;
  }

  /** Takes the white space off a line whose cut is known; `after` is where the next one
      begins. */
  method TrimCut(rc: array<char>, from: nat, newline: nat, length: nat, ghost done: string, ghost s: string,
                 ghost c: Cut)
    returns (after: nat, r: nat)
    requires Contains(rc, 0, done) && |done| == from && Contains(rc, from, s) && length == from + |s|
    requires IsCut(s, c) && newline == from + |c.body| + |c.ending| - 1
    requires done != [] ==> done[|done| - 1] == '\n'
    modifies rc
    ensures after == from + |Stripped(c.body) + c.ending| && r == after + |c.rest| && r <= length
    ensures Contains(rc, 0, done + (Stripped(c.body) + c.ending)) && Contains(rc, after, c.rest)
  {
    var end := EndOfLine(rc, from, newline, length, done, s, c);
    BeforeMove(rc, from, done, s, c);
    var last := FindEnd(rc, from, end, c.body);
    Memmove(rc, last, end, length, done + Stripped(c.body), c.ending + c.rest);
    after, r := last + (newline - end + 1), last + (length - end);
    AfterMove(rc, done, Stripped(c.body), c.ending, c.rest);
  }

  lemma AfterMove(rc: array<char>, done: string, body: string, ending: string, rest: string)
    requires Contains(rc, 0, done + body) && Contains(rc, |done + body|, ending + rest)
    ensures Contains(rc, 0, done + (body + ending)) && Contains(rc, |done| + |body + ending|, rest)
  {
    ContainsSum(rc, |done + body|, ending, rest);
    ContainsSum(rc, 0, done + body, ending);
    Regroup3(done, body, ending);
  }

  lemma BeforeMove(rc: array<char>, from: nat, done: string, s: string, c: Cut)
    requires Contains(rc, 0, done) && |done| == from && Contains(rc, from, s) && IsCut(s, c)
    ensures Contains(rc, from, c.body) && Contains(rc, from + |c.body|, c.ending + c.rest)
    ensures Contains(rc, 0, done + Stripped(c.body))
  {
    var body, gap := Stripped(c.body), c.body[|Stripped(c.body)|..];
    Regroup3(c.body, c.ending, c.rest);
    ContainsSum(rc, from, c.body, c.ending + c.rest);
    StrippedIs(c.body);
    assert c.body == body + gap;
    ContainsSum(rc, from, body, gap);
    ContainsSum(rc, 0, done, body);
  }

  /** Steps back over a carriage return. */
  method EndOfLine(rc: array<char>, from: nat, newline: nat, length: nat, ghost done: string, ghost s: string,
                   ghost c: Cut)
    returns (end: nat)
    requires Contains(rc, 0, done) && |done| == from && Contains(rc, from, s) && length == from + |s|
    requires IsCut(s, c) && newline == from + |c.body| + |c.ending| - 1
    requires done != [] ==> done[|done| - 1] == '\n'
    ensures end == from + |c.body|
  {
    ghost var i := newline - from;
    assert i > 0 ==> rc[from + (i - 1)] == s[i - 1];
    assert i == 0 && from > 0 ==> rc[0 + (from - 1)] == done[from - 1];
    end := if newline > 0 && rc[newline - 1] == '\r' then newline - 1 else newline;
  }

  /** Takes the white space off the line that begins at `from`. The source looks at the
      character before the newline even if that is before the buffer, where `outside` is. A
      carriage return there is taken for a part of the line's ending; nothing is moved then
      either, and the next line begins where it does. */
  method TrimLine(rc: array<char>, from: nat, newline: nat, length: nat, outside: char, ghost done: string,
                  ghost s: string)
    returns (after: nat, r: nat)
    requires Contains(rc, 0, done) && |done| == from && Contains(rc, from, s) && length == from + |s|
    requires newline < length && newline == from + FirstNewline(s)
    requires done != [] ==> done[|done| - 1] == '\n'
    modifies rc
    ensures after == from + |Kept(s)| && r == after + |FirstLine(s).rest| && r <= length
    ensures Contains(rc, 0, done + Kept(s)) && Contains(rc, after, FirstLine(s).rest)
  {
    if newline == 0 && outside == '\r' {
      EmptyFirst(rc, done, s);
      var end := -1;
      after, r := end + 2, length;
    } else {
      FirstLineCuts(s);
      after, r := TrimCut(rc, from, newline, length, done, s, FirstLine(s));
    }
  }

  lemma EmptyFirst(rc: array<char>, done: string, s: string)
    requires |done| == 0 && Contains(rc, 0, s) && s != [] && s[0] == '\n'
    ensures |Kept(s)| == 1 && |FirstLine(s).rest| == |s| - 1
    ensures Contains(rc, 0, done + Kept(s)) && Contains(rc, 1, FirstLine(s).rest)
  {
    var line := FirstLine(s);
    assert |line.body| == 0 && |line.ending| == 1 && line.ending[0] == '\n' && line.rest == s[1..];
    assert |Stripped(line.body)| == 0;
    assert |Kept(s)| == 1 && Kept(s)[0] == '\n';
    assert (done + Kept(s))[0] == '\n';
    forall i | 0 <= i < |line.rest| ensures rc[1 + i] == line.rest[i] {
      assert rc[0 + (i + 1)] == s[i + 1];
    }
  }

  lemma {:induction false} TrimStep(trimmed: string, done: string, s: string)
    requires trimmed == done + Trimmed(s) && FirstNewline(s) < |s|
    ensures trimmed == done + Kept(s) + Trimmed(FirstLine(s).rest)
    ensures var next := done + Kept(s); |next| > 0 && next[|next| - 1] == '\n'
  {
    var c := FirstLine(s);
    Regroup3(done, Kept(s), Trimmed(c.rest));
    FirstLineCuts(s);
    Last(Stripped(c.body), c.ending);
    Last(done, Kept(s));
  }

  /** Trims every line of the text and gives the new length, whatever is before the buffer;
      that is looked at if and only if the text begins with a newline. */
  method TrimLines(rc: array<char>, outside: char) returns (length: nat, looked: bool)
    modifies rc
    ensures length <= rc.Length && rc[..length] == Trimmed(old(rc[..]))
    ensures looked <==> rc.Length > 0 && old(rc[..])[0] == '\n'
  {
    length, looked := rc.Length, false;
    var from: nat := 0;
    ghost var was := rc[..];
    ghost var done, s, trimmed := "", was, Trimmed(was);
    var newline: nat := FindNewline(rc, from, length, s);
    assert done + trimmed == trimmed;
    while newline < length
      invariant Trimming(rc, from, newline, length, done, s) && trimmed == done + Trimmed(s)
      invariant looked <==> from > 0 && was[0] == '\n'
      invariant from == 0 ==> s == was
      decreases |s|
    {
      if newline == 0 { looked := true; }
      from, length := TrimLine(rc, from, newline, length, outside, done, s);
      TrimStep(trimmed, done, s);
      done, s := done + Kept(s), FirstLine(s).rest;
      newline := FindNewline(rc, from, length, s);
    }
    TrimmingDone(rc, from, newline, length, done, s);
  }

  /** Before each line: what is done, and what is still to do. */
  ghost predicate Trimming(rc: array<char>, from: nat, newline: nat, length: nat, done: string, s: string)
    reads rc
  {
    && Contains(rc, 0, done) && |done| == from && Contains(rc, from, s) && length == from + |s|
    && (done != [] ==> done[|done| - 1] == '\n')
    && from <= newline <= length && newline == from + FirstNewline(s)
  }

  lemma TrimmingDone(rc: array<char>, from: nat, newline: nat, length: nat, done: string, s: string)
    requires Trimming(rc, from, newline, length, done, s) && newline == length
    ensures length <= rc.Length && rc[..length] == done + Trimmed(s)
  {
    ContainsSum(rc, 0, done, s);
    assert rc[..length] == done + s;
  }
}
