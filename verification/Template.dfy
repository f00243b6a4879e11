/** Reading the tokens of a template line, and evaluating its texts.

A template line is cut into spaces, texts, substitutions and, at its end, an escape that
extends the line. A text holds escapes; when it is evaluated each becomes the character
it stands for.
*/
module Template {
  import opened Wrappers

  const NUL := '\0'

  datatype Event = Text | Substitute | Extend | EndOfLine | Other

  /** The escape character and what begins a substitution. */
  datatype Marks = Marks(escape: char, substitute: string)

  predicate Valid(m: Marks) {
    && m.escape != ' ' && m.escape != NUL && m.escape != '\n' && m.substitute != ""
    && m.substitute[0] != NUL && m.substitute[0] != ' ' && m.substitute[0] != '\n' && m.substitute[0] != m.escape
  }

  function At(line: string, i: nat): char { if i < |line| then line[i] else NUL }

  predicate IsLine(line: string) { forall i | 0 <= i < |line| :: line[i] != NUL }

  function AfterSpaces(line: string, i: nat): (j: nat)
    requires i <= |line|
    ensures i <= j <= |line| && At(line, j) != ' ' && forall k | i <= k < j :: line[k] == ' '
    decreases |line| - i
  {
    if i < |line| && line[i] == ' ' then AfterSpaces(line, i + 1) else i
  }

  /** Whether an escape is the last thing on the line. */
  predicate EndsLine(line: string, i: nat)
    requires i < |line|
  {
    var j := AfterSpaces(line, i + 1);
    At(line, j) == NUL || At(line, j) == '\n'
  }

  predicate Stops(m: Marks, line: string, i: nat)
    requires i <= |line| && m.substitute != ""
  {
    || i == |line|
    || (if line[i] == m.escape then EndsLine(line, i)
        else line[i] == ' ' || (line[i] == m.substitute[0] && At(line, i + 1) == '('))
  }

  /** Where a text that begins at `i` ends: an escape takes the next character with it. */
  function TextEnd(m: Marks, line: string, i: nat): (j: nat)
    requires i <= |line| && m.substitute != "" && IsLine(line)
    ensures i <= j <= |line| && Stops(m, line, j)
    decreases |line| - i
  {
    if Stops(m, line, i) then i
    else if line[i] == m.escape then
      assert AfterSpaces(line, i + 1) < |line|;
      TextEnd(m, line, i + 2)
    else TextEnd(m, line, i + 1)
  }

  datatype Token = Token(event: Event, posn: nat, width: nat, ptr: nat)

  /** The token after some spaces. */
  function TokenAt(m: Marks, line: string, ptr: nat): (t: Token)
    requires ptr <= |line| && m.substitute != "" && IsLine(line)
  {
    var start := AfterSpaces(line, ptr);
    var end := TextEnd(m, line, start);
    if end > start then Token(Text, start, end - start, end)
    else if m.substitute <= line[start..] then Token(Substitute, start, |m.substitute|, start + |m.substitute|)
    else if At(line, start) == m.escape && start < |line| then Token(Extend, start, 1, AfterSpaces(line, start + 1))
    else if At(line, start) == NUL || At(line, start) == '\n' then Token(EndOfLine, start, 0, start)
    else Token(Other, start, 0, start)
  }

  // ----- what a token is

  /** What is read is the spaces, the token and, for an extension, the spaces after it;
      texts, substitutions and extensions take something. */
  lemma TokenIsLossless(m: Marks, line: string, ptr: nat)
    requires ptr <= |line| && Valid(m) && IsLine(line)
    ensures var t := TokenAt(m, line, ptr);
      && ptr <= t.posn && t.posn + t.width <= t.ptr <= |line|
      && (forall i | ptr <= i < t.posn :: line[i] == ' ')
      && (t.event != Extend ==> t.ptr == t.posn + t.width)
      && (forall i | t.posn + t.width <= i < t.ptr :: line[i] == ' ')
      && (t.event != EndOfLine && t.event != Other ==> t.width > 0)
      && (t.event == EndOfLine ==> t.ptr == |line|)
  {
  }

  /** There is a token of no known kind exactly where the first character of the mark is
      followed by a parenthesis that does not belong to the mark; with a mark that ends in
      a parenthesis as its second character, never. */
  lemma OtherExactly(m: Marks, line: string, ptr: nat)
    requires ptr <= |line| && Valid(m) && IsLine(line)
    ensures var start := AfterSpaces(line, ptr);
      TokenAt(m, line, ptr).event == Other
      <==>
      && start < |line| && line[start] == m.substitute[0]
      && At(line, start + 1) == '(' && !(m.substitute <= line[start..])
    ensures |m.substitute| == 2 && m.substitute[1] == '(' ==> TokenAt(m, line, ptr).event != Other
  {
  }

  /** A mark begins a substitution if and only if the character after its first is a
      parenthesis; if it is not, a text has already taken the mark. So a longer mark with
      another second character is never recognised. */
  lemma MarkNeedsParenthesis(m: Marks, line: string, ptr: nat)
    requires ptr <= |line| && Valid(m) && IsLine(line)
    ensures var start := AfterSpaces(line, ptr);
      TokenAt(m, line, ptr).event == Substitute <==> m.substitute <= line[start..] && At(line, start + 1) == '('
    ensures var start := AfterSpaces(line, ptr);
      m.substitute <= line[start..] && At(line, start + 1) != '(' ==> TokenAt(m, line, ptr).event == Text
    ensures |m.substitute| >= 2 && m.substitute[1] != '(' ==> TokenAt(m, line, ptr).event != Substitute
  {
    var start := AfterSpaces(line, ptr);
    if m.substitute <= line[start..] {
      assert line[start..][0] == m.substitute[0];
      if |m.substitute| >= 2 { assert line[start..][1] == m.substitute[1]; }
    }
  }

  /** With the mark `%%` all of `%%x` is a text. */
  lemma MarkIsTakenAsText()
    ensures TokenAt(Marks('\\', "%%"), "%%x", 0) == Token(Text, 0, 3, 3)
  {
    var m := Marks('\\', "%%");
    assert TextEnd(m, "%%x", 2) == TextEnd(m, "%%x", 3) == 3;
    assert TextEnd(m, "%%x", 1) == TextEnd(m, "%%x", 2);
  }

  // ----- a whole line

  /** A token with all that was read for it. */
  datatype Piece = Piece(token: Token, read: string)

  /** The tokens up to the end of the line, or to one of no known kind. */
  function Pieces(m: Marks, line: string, ptr: nat): (ps: seq<Piece>)
    requires ptr <= |line| && Valid(m) && IsLine(line)
    ensures ps != []
    decreases |line| - ptr
  {
    var t := TokenAt(m, line, ptr);
    TokenIsLossless(m, line, ptr);
    var p := Piece(t, line[ptr..t.ptr]);
    if t.event == EndOfLine || t.event == Other then [p] else [p] + Pieces(m, line, t.ptr)
  }

  function Joined(ps: seq<Piece>): string {
    if ps == [] then "" else ps[0].read + Joined(ps[1..])
  }

  /** Only the last token takes nothing. */
  predicate Ends(ps: seq<Piece>) {
    && ps != [] && ps[|ps| - 1].token.event == EndOfLine
    && forall i | 0 <= i < |ps| - 1 :: ps[i].read != "" && ps[i].token.event != EndOfLine && ps[i].token.event != Other
  }

  /** With the usual marks a line is cut into its tokens without a rest. */
  lemma {:induction false} LineIsItsTokens(m: Marks, line: string, ptr: nat)
    requires ptr <= |line| && Valid(m) && IsLine(line) && |m.substitute| == 2 && m.substitute[1] == '('
    ensures Joined(Pieces(m, line, ptr)) == line[ptr..]
    decreases |line| - ptr
  {
    var t := TokenAt(m, line, ptr);
    TokenIsLossless(m, line, ptr);
    OtherExactly(m, line, ptr);
    var p := Piece(t, line[ptr..t.ptr]);
    if t.event == EndOfLine {
      JoinedFirst(p, []);
      assert [p] + [] == [p] && p.read + "" == line[ptr..];
    } else {
      LineIsItsTokens(m, line, t.ptr);
      JoinedFirst(p, Pieces(m, line, t.ptr));
      CutInTwo(line, ptr, t.ptr);
    }
  }

  lemma JoinedFirst(p: Piece, ps: seq<Piece>)
    ensures Joined([p] + ps) == p.read + Joined(ps)
  {
  }

  lemma CutInTwo(line: string, i: nat, j: nat)
    requires i <= j <= |line|
    ensures line[i..j] + line[j..] == line[i..]
  {
  }

  lemma EndsLater(p: Piece, ps: seq<Piece>)
    requires Ends(ps) && p.read != "" && p.token.event != EndOfLine && p.token.event != Other
    ensures Ends([p] + ps)
  {
  }

  /** That takes no more steps than the line has characters, and one for its end. */
  lemma {:induction false} LineEnds(m: Marks, line: string, ptr: nat)
    requires ptr <= |line| && Valid(m) && IsLine(line) && |m.substitute| == 2 && m.substitute[1] == '('
    ensures Ends(Pieces(m, line, ptr)) && |Pieces(m, line, ptr)| <= |line| - ptr + 1
    decreases |line| - ptr
  {
    var t := TokenAt(m, line, ptr);
    TokenIsLossless(m, line, ptr);
    OtherExactly(m, line, ptr);
    if t.event != EndOfLine {
      LineEnds(m, line, t.ptr);
      EndsLater(Piece(t, line[ptr..t.ptr]), Pieces(m, line, t.ptr));
    }
  }

  // ----- texts

  /** Every escape is followed by a character. */
  predicate WellEscaped(escape: char, s: string) {
    s == "" || (if s[0] == escape then |s| > 1 && WellEscaped(escape, s[2..]) else WellEscaped(escape, s[1..]))
  }

  lemma {:induction false} TextIsWellEscaped(m: Marks, line: string, i: nat)
    requires i <= |line| && m.substitute != "" && IsLine(line)
    ensures WellEscaped(m.escape, line[i..TextEnd(m, line, i)])
    decreases |line| - i
  {
    if !Stops(m, line, i) {
      var end := TextEnd(m, line, i);
      var s := line[i..end];
      if line[i] == m.escape {
        assert AfterSpaces(line, i + 1) < |line|;
        TextIsWellEscaped(m, line, i + 2);
        assert s[2..] == line[i + 2..end];
      } else {
        TextIsWellEscaped(m, line, i + 1);
        assert s[1..] == line[i + 1..end];
      }
    }
  }

  /** The text of a token has a character after every escape. */
  lemma TokenTextIsWellEscaped(m: Marks, line: string, ptr: nat)
    requires ptr <= |line| && Valid(m) && IsLine(line) && TokenAt(m, line, ptr).event == Text
    ensures var t := TokenAt(m, line, ptr);
      t.posn + t.width <= |line| && WellEscaped(m.escape, line[t.posn..t.posn + t.width])
  {
    TextIsWellEscaped(m, line, AfterSpaces(line, ptr));
  }

  // ----- the tokeniser

  class Tokeniser {
    const m: Marks
    const line: string
    var ptr: nat
    var spaces: nat
    var posn: nat
    var width: nat
    var token: char
    var event: Option<Event>

    constructor (m: Marks, line: string)
      ensures this.m == m && this.line == line && ptr == 0 && spaces == 0
    {
      this.m, this.line, ptr, spaces, posn, width, token, event := m, line, 0, 0, 0, 0, NUL, None;
    }

    ghost predicate Good()
      reads this
    {
      Valid(m) && IsLine(line) && ptr <= |line|
    }

    /** The position, place and width of the token that was found. */
    ghost predicate Found(t: Token)
      reads this
    {
      event == Some(t.event) && ptr == t.ptr && posn == t.posn && width == t.width
    }

    method CollectSpaces()
      requires Good()
      modifies `ptr, `spaces
      ensures ptr == AfterSpaces(line, old(ptr)) && spaces == old(spaces) + (ptr - old(ptr))
    {
      while ptr < |line| && line[ptr] == ' '
        invariant old(ptr) <= ptr <= |line| && AfterSpaces(line, ptr) == AfterSpaces(line, old(ptr))
        invariant spaces == old(spaces) + (ptr - old(ptr))
      {
        ptr, spaces := ptr + 1, spaces + 1;
      }
    }

    /** The place after the spaces from `from` on. */
    method LookAhead(from: nat) returns (j: nat)
      requires from <= |line|
      ensures j == AfterSpaces(line, from)
    {
      j := from;
      while j < |line| && line[j] == ' '
        invariant from <= j <= |line| && AfterSpaces(line, j) == AfterSpaces(line, from)
      {
        j := j + 1;
      }
    }

    /** How many characters of a text the one at `at` takes with it; none if it ends it. */
    method Takes(at: nat) returns (n: nat)
      requires Good() && at < |line|
      ensures n == if Stops(m, line, at) then 0 else if line[at] == m.escape then 2 else 1
    {
      if line[at] == m.escape {
        var j := LookAhead(at + 1);
        n := if At(line, j) == NUL || At(line, j) == '\n' then 0 else 2;
      } else {
        n := if (line[at] == m.substitute[0] && At(line, at + 1) == '(') || line[at] == ' ' then 0 else 1;
      }
    }

    /** Takes a text; stops at the character that ends it. */
    method GenerateTextEvent()
      requires Good() && event == None
      modifies `ptr, `posn, `width, `token, `event
      ensures Good() && posn == old(ptr) && ptr == TextEnd(m, line, old(ptr)) && width == ptr - posn
      ensures token == At(line, ptr) && event == if width > 0 then Some(Text) else None
    {
      posn, width := ptr, 0;
      token := At(line, ptr);
      while token != NUL
        invariant posn == old(ptr) <= ptr <= |line| && width == ptr - posn && token == At(line, ptr) && event == None
        invariant TextEnd(m, line, posn) == TextEnd(m, line, ptr)
        decreases |line| - ptr
      {
        var n := Takes(ptr);
        if n == 0 { break; }
        assert n == 2 ==> AfterSpaces(line, ptr + 1) < |line|;
        ptr, width := ptr + n, width + n;
        token := At(line, ptr);
      }
      if width > 0 { event := Some(Text); }
    }

    method GenerateSimpleTokenEvent(text: string, e: Event)
      requires Good()
      modifies `ptr, `posn, `width, `event
      ensures var hit := old(event).None? && text <= line[old(ptr)..];
        && event == (if hit then Some(e) else old(event))
        && ptr == (if hit then old(ptr) + |text| else old(ptr))
        && (if hit then posn == old(ptr) && width == |text| else posn == old(posn) && width == old(width))
    {
      if event.None? && text <= line[ptr..] {
        event, posn, width := Some(e), ptr, |text|;
        ptr := ptr + width;
      }
    }

    method GenerateExtendEvent()
      requires Good() && (event.None? ==> token == At(line, ptr))
      modifies `ptr, `posn, `width, `event
      ensures Good()
      ensures var hit := old(event).None? && old(ptr) < |line| && line[old(ptr)] == m.escape
        && EndsLine(line, old(ptr));
        && event == (if hit then Some(Extend) else old(event))
        && ptr == (if hit then AfterSpaces(line, old(ptr) + 1) else old(ptr))
        && (if hit then posn == old(ptr) && width == 1 else posn == old(posn) && width == old(width))
    {
      if event.None? && token == m.escape {
        var j := LookAhead(ptr + 1);
        if At(line, j) == NUL || At(line, j) == '\n' {
          event, posn, width := Some(Extend), ptr, 1;
          ptr := j;
        }
      }
    }

    /** The next token of a template line. */
    method GetTemplateToken()
      requires Good()
      modifies this
      ensures Good() && Found(TokenAt(m, line, old(ptr)))
      ensures spaces == old(spaces) + (posn - old(ptr))
    {
      CollectSpaces();
      token, event := At(line, ptr), None;
      GenerateTextEvent();
      GenerateSimpleTokenEvent(m.substitute, Substitute);
      GenerateExtendEvent();
      if event.None? && (token == NUL || token == '\n') { event := Some(EndOfLine); }
      if event.None? { event, posn, width := Some(Other), ptr, 0; }
    }
  }

  // ----- evaluating a text

  /** What the character after an escape stands for. */
  function Stands(c: char): char {
    if c == 'n' then '\n' else if c == 'r' then '\r' else if c == 't' then '\t' else c
  }

  function Unescaped(escape: char, s: string): string
    requires WellEscaped(escape, s)
  {
    if s == "" then ""
    else if s[0] == escape then [Stands(s[1])] + Unescaped(escape, s[2..])
    else [s[0]] + Unescaped(escape, s[1..])
  }

  /** Where the next escape is, or the end. */
  function NextEscape(escape: char, s: string): (k: nat)
    ensures k <= |s| && (k < |s| ==> s[k] == escape)
  {
    if s == "" || s[0] == escape then 0 else NextEscape(escape, s[1..]) + 1
  }

  lemma {:induction false} UnescapedChunk(escape: char, s: string)
    requires WellEscaped(escape, s)
    ensures var k := NextEscape(escape, s);
      && (k < |s| ==> k + 1 < |s| && WellEscaped(escape, s[k + 2..]))
      && Unescaped(escape, s) == s[..k] + (if k == |s| then "" else [Stands(s[k + 1])] + Unescaped(escape, s[k + 2..]))
  {
    if s != "" && s[0] != escape {
      UnescapedChunk(escape, s[1..]);
      var k := NextEscape(escape, s[1..]);
      Shifted(s, k);
      Regroup([s[0]], s[1..][..k],
              if k == |s[1..]| then "" else [Stands(s[1..][k + 1])] + Unescaped(escape, s[1..][k + 2..]));
    }
  }

  lemma Shifted(s: string, k: nat)
    requires 0 < |s| && k <= |s[1..]|
    ensures s[..k + 1] == [s[0]] + s[1..][..k]
    ensures k + 1 < |s[1..]| ==> s[1..][k + 1] == s[k + 2] && s[1..][k + 2..] == s[k + 3..]
  {
  }

  lemma Regroup(a: string, b: string, c: string)
    ensures a + (b + c) == a + b + c
  {
  }

  method FindEscape(escape: char, s: string, from: nat) returns (ptr: nat)
    requires from <= |s|
    ensures from <= ptr <= |s| && ptr - from == NextEscape(escape, s[from..])
  {
    ptr := from;
    while ptr < |s| && s[ptr] != escape
      invariant from <= ptr <= |s| && NextEscape(escape, s[from..]) == ptr - from + NextEscape(escape, s[ptr..])
    {
      assert s[ptr..][1..] == s[ptr + 1..];
      ptr := ptr + 1;
    }
  }

  lemma ChunkAt(escape: char, s: string, i: nat, ptr: nat)
    requires i <= ptr <= |s| && ptr - i == NextEscape(escape, s[i..]) && WellEscaped(escape, s[i..])
    ensures ptr < |s| ==> ptr + 2 <= |s| && WellEscaped(escape, s[ptr + 2..])
    ensures Unescaped(escape, s[i..])
      == s[i..ptr] + (if ptr == |s| then "" else [Stands(s[ptr + 1])] + Unescaped(escape, s[ptr + 2..]))
  {
    UnescapedChunk(escape, s[i..]);
    assert s[i..][..ptr - i] == s[i..ptr];
    if ptr < |s| { assert s[i..][ptr - i + 2..] == s[ptr + 2..]; }
  }

  /** The first pass: the size of the result. */
  method MeasureText(escape: char, sign: string, s: string) returns (length: nat)
    requires WellEscaped(escape, s)
    ensures length == |sign| + |Unescaped(escape, s)|
  {
    length := |sign|;
    var i, more := 0, true;
    assert s[0..] == s;
    while more
      invariant i <= |s| && (more ==> WellEscaped(escape, s[i..]))
      invariant |sign| + |Unescaped(escape, s)| == length + if more then |Unescaped(escape, s[i..])| else 0
      decreases |s| - i, more
    {
      var ptr := FindEscape(escape, s, i);
      ChunkAt(escape, s, i, ptr);
      if ptr < |s| {
        length := length + (ptr - i) + 1;
        i := ptr + 2;
      } else {
        length := length + (|s| - i);
        more := false;
      }
    }
  }

  /** Both passes of `evaluate_text_node`: the sign and the text, with every escape replaced
      by what it stands for. */
  method EvaluateText(escape: char, sign: string, s: string) returns (r: string)
    requires WellEscaped(escape, s)
    ensures r == sign + Unescaped(escape, s)
  {
    var length := MeasureText(escape, sign, s);
    var text := new char[length];
    forall k | 0 <= k < |sign| { text[k] := sign[k]; }
    var out: nat, i: nat, more := |sign|, 0, true;
    ghost var all := sign + Unescaped(escape, s);
    assert s[0..] == s && text[..out] == sign;
    while more
      invariant i <= |s| && (more ==> WellEscaped(escape, s[i..])) && out <= text.Length == |all|
      invariant more ==> all == text[..out] + Unescaped(escape, s[i..])
      invariant !more ==> all == text[..out]
      decreases |s| - i, more
    {
      out, i, more := EvaluateChunk(escape, s, text, out, i, all);
    }
    r := text[..out];
  }

  /** Copies up to the next escape, and what that stands for. */
  method EvaluateChunk(escape: char, s: string, text: array<char>, at: nat, i: nat, ghost all: string)
    returns (out: nat, next: nat, more: bool)
    requires i <= |s| && WellEscaped(escape, s[i..]) && at <= text.Length == |all|
    requires all == text[..at] + Unescaped(escape, s[i..])
    modifies text
    ensures out <= text.Length && i <= next <= |s| && (more ==> i < next && WellEscaped(escape, s[next..]))
    ensures all == if more then text[..out] + Unescaped(escape, s[next..]) else text[..out]
  {
    var ptr := FindEscape(escape, s, i);
    ChunkAt(escape, s, i, ptr);
    if ptr < |s| {
      ghost var rest := Unescaped(escape, s[ptr + 2..]);
      out := Append(text, at, s[i..ptr], all, [Stands(s[ptr + 1])] + rest);
      out := Append(text, out, [Stands(s[ptr + 1])], all, rest);
      next, more := ptr + 2, true;
    } else {
      out := Append(text, at, s[i..ptr], all, "");
      next, more := i, false;
    }
  }

  method Append(text: array<char>, at: nat, s: string, ghost all: string, ghost rest: string) returns (out: nat)
    requires at <= text.Length == |all| && all == text[..at] + (s + rest)
    modifies text
    ensures out == at + |s| <= text.Length && all == text[..out] + rest
    ensures rest == "" ==> all == text[..out]
  {
    Regroup(text[..at], s, rest);
    forall k | 0 <= k < |s| { text[at + k] := s[k]; }
    out := at + |s|;
    assert text[..at] == old(text[..at]);
    assert text[..out] == old(text[..at]) + s;
    assert rest == "" ==> text[..out] + rest == text[..out];
  }
}
