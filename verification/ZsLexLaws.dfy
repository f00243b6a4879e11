/** What whole runs of the ZeroScript lexer do. */
module ZsLexLaws {
  import opened ZsLexTable

  // ----- progress

  /** The state between calls: waiting for a token, or inside a string left open. */
  predicate Between(core: Core) {
    core.Valid() && (core.state == ExpectingToken || (core.state == ReadingString && core.kind == Null))
  }

  /** The state within a call. */
  predicate Within(core: Core) {
    core.Valid() && (core.state == ExpectingToken || core.kind == Null)
  }

  /** A call never moves back, it moves forward unless it returns null, and it returns null
      only at the end of the text. */
  lemma {:induction false} Progress(input: string, p: nat, core: Core)
    requires Within(core) && p <= |input|
    ensures var r := Scan(input, p, core);
      && p <= r.ptr <= |input| && Between(r.core)
      && (r.core.kind != Null && (core.state == ExpectingToken || core.state == ReadingString) ==> p < r.ptr)
      && (r.core.kind == Null ==> Peek(input, r.ptr) == '\0')
    decreases |input| - p
  {
    var c := Peek(input, p);
    var m := Dispatch(core, c);
    if m.Continue? {
      Progress(input, p + 1, m.core);
    }
  }

  /** Null comes again and again once the lexer waits at the end of the text; but inside an
      open string every further call adds one more newline. */
  lemma NullStable(input: string, p: nat, core: Core)
    requires Between(core) && p <= |input| && Scan(input, p, core).core.kind == Null
    ensures var r := Scan(input, p, core);
      && (Scan(input, r.ptr, r.core) == r <==> r.core.state == ExpectingToken)
      && (r.core.state == ReadingString ==>
            Scan(input, r.ptr, r.core) == Result(r.core.Store('\n'), r.ptr))
  {
    Progress(input, p, core);
    var r := Scan(input, p, core);
    assert Scan(input, r.ptr, r.core) == Handle(input, r.ptr, r.core, '\0');
    if r.core.state == ReadingString {
      assert r.core.Store('\n').size == r.core.size + 1;
    }
  }

  // ----- the tokens themselves

  predicate IsBlank(c: char) { c == ' ' || c == '\t' || c == '\n' }

  predicate IsLetter(c: char) { 'A' <= c <= 'Z' || 'a' <= c <= 'z' }

  predicate IsDigit(c: char) { '0' <= c <= '9' }

  /** The characters that go on with a function name, a number or a string. */
  predicate GoesOn(state: State, c: char) {
    match state
    case ExpectingToken => IsBlank(c)
    case ReadingFunction => IsLetter(c) || IsDigit(c) || c == '-' || c == '.' || c == '/' || c == '_'
    case ReadingNumber => 
      || IsLetter(c) || IsDigit(c) || c == '-' || c == '+' || c == '/' || c == '.' || c == ','
      || c == ':' || c == '*' || c == '^' || c == '%'
    case ReadingString => c != '>' && c != '\0'
  }

  /** The first position from `p` whose character does not go on. */
  function RunEnd(input: string, p: nat, state: State): (r: nat)
    requires p <= |input|
    ensures p <= r <= |input|
    ensures forall i | p <= i < r :: GoesOn(state, input[i])
    ensures r < |input| ==> !GoesOn(state, input[r])
    decreases |input| - p
  {
    if p < |input| && GoesOn(state, input[p]) then RunEnd(input, p + 1, state) else p
  }

  /** A token so far with more characters stored. */
  function Extended(core: Core, more: string): Core
    requires core.Valid()
  {
    if more == "" then core else core.(text := core.text[..core.size] + more, size := core.size + |more|)
  }

  lemma ExtendedOnce(core: Core, c: char, more: string)
    requires core.Valid()
    ensures Extended(core.Store(c), more) == Extended(core, [c] + more)
  {
  }

  lemma StoresNext(input: string, p: nat, core: Core)
    requires core.Valid() && core.state != ExpectingToken
    requires p < |input| && GoesOn(core.state, input[p])
    ensures Scan(input, p, core) == Scan(input, p + 1, core.Store(input[p]))
  {
  }

  /** Inside a token, a call stores the longest run of characters that go on, as they are. */
  lemma {:induction false} ReadsRun(input: string, p: nat, core: Core)
    requires core.Valid() && core.state != ExpectingToken && p <= |input|
    ensures var r := RunEnd(input, p, core.state);
      Scan(input, p, core) == Scan(input, r, Extended(core, input[p..r]))
    decreases |input| - p
  {
    var r := RunEnd(input, p, core.state);
    if p < r {
      StoresNext(input, p, core);
      ReadsRun(input, p + 1, core.Store(input[p]));
      ExtendedOnce(core, input[p], input[p + 1..r]);
      SliceFirst(input, p, r);
    }
  }

  lemma {:induction false} SkipsBlanks(input: string, p: nat, core: Core)
    requires core.Valid() && core.state == ExpectingToken && p <= |input|
    ensures var q := RunEnd(input, p, ExpectingToken); Scan(input, p, core) == Scan(input, q, core)
    decreases |input| - p
  {
    if p < RunEnd(input, p, ExpectingToken) {
      SkipsBlanks(input, p + 1, core);
    }
  }

  /** How a function name ends: at the end of the text, before a bracket, or after the
      character that ends it, which is lost only if it is blank, a colon or invalid. */
  function FunctionEnd(stop: char): (TokenType, nat) {
    if stop == '\0' then (Function, 0)
    else if IsBlank(stop) then (Function, 1)
    else if stop == ':' then (Compose, 1)
    else if stop == '(' || stop == ')' then (Function, 0)
    else (Invalid, 1)
  }

  function NumberEnd(stop: char): (TokenType, nat) {
    if stop == '\0' then (Number, 0)
    else if IsBlank(stop) then (Number, 1)
    else if stop == ')' then (Number, 0)
    else (Invalid, 1)
  }

  function EndOf(state: State, stop: char): (TokenType, nat) {
    if state == ReadingFunction then FunctionEnd(stop) else NumberEnd(stop)
  }

  lemma RunStops(input: string, r: nat, core: Core)
    requires core.Valid() && (core.state == ReadingFunction || core.state == ReadingNumber)
    requires r <= |input| && !GoesOn(core.state, Peek(input, r))
    ensures var (kind, past) := EndOf(core.state, Peek(input, r));
      Scan(input, r, core) == Result(core.(kind := kind, state := ExpectingToken), r + past)
  {
  }

  predicate Starts(state: State, c: char) {
    if state == ReadingFunction then IsLetter(c)
    else state == ReadingNumber && (IsDigit(c) || c == '-' || c == '+' || c == '.')
  }

  /** From the first character that is not blank: a function name or a number is the longest
      run of its characters, exactly as in the text. */
  lemma RunToken(input: string, p: nat, core: Core, state: State)
    requires core.Valid() && core.state == ExpectingToken && p <= |input|
    requires Starts(state, Peek(input, RunEnd(input, p, ExpectingToken)))
    ensures var q := RunEnd(input, p, ExpectingToken);
      var r := RunEnd(input, q, state);
      var (kind, past) := EndOf(state, Peek(input, r));
      q < r && Scan(input, p, core) == Result(Core(ExpectingToken, input[q..r], r - q, kind), r + past)
  {
    SkipsBlanks(input, p, core);
    RunTokenAt(input, RunEnd(input, p, ExpectingToken), core, state);
  }

  lemma RunTokenAt(input: string, q: nat, core: Core, state: State)
    requires core.Valid() && core.state == ExpectingToken && q < |input| && Starts(state, input[q])
    ensures var r := RunEnd(input, q, state);
      var (kind, past) := EndOf(state, Peek(input, r));
      q < r && Scan(input, q, core) == Result(Core(ExpectingToken, input[q..r], r - q, kind), r + past)
  {
    var r := RunEnd(input, q, state);
    var run := Core(state, input[q..r], r - q, Null);
    BeginsRun(input, q, core, state);
    assert Scan(input, q, core) == Scan(input, r, run) by { ReadsFirstRun(input, q, state); }
    RunStops(input, r, run);
  }

  lemma ReadsFirstRun(input: string, q: nat, state: State)
    requires q < |input| && Starts(state, input[q])
    ensures var r := RunEnd(input, q + 1, state);
      Scan(input, q + 1, Core(state, [input[q]], 1, Null)) == Scan(input, r, Core(state, input[q..r], r - q, Null))
  {
    var r := RunEnd(input, q + 1, state);
    ReadsRun(input, q + 1, Core(state, [input[q]], 1, Null));
    FirstRunIs(input, q, r, state);
  }

  lemma FirstRunIs(input: string, q: nat, r: nat, state: State)
    requires q < r <= |input|
    ensures Extended(Core(state, [input[q]], 1, Null), input[q + 1..r]) == Core(state, input[q..r], r - q, Null)
  {
    ExtendedFirst(state, input[q], input[q + 1..r]);
    SliceFirst(input, q, r);
  }

  lemma SliceFirst(input: string, q: nat, r: nat)
    requires q < r <= |input|
    ensures [input[q]] + input[q + 1..r] == input[q..r]
  {
  }

  lemma ExtendedFirst(state: State, c: char, more: string)
    ensures Extended(Core(state, [c], 1, Null), more) == Core(state, [c] + more, 1 + |more|, Null)
  {
  }

  lemma BeginsRun(input: string, q: nat, core: Core, state: State)
    requires core.Valid() && core.state == ExpectingToken && q < |input|
    requires Starts(state, input[q])
    ensures Scan(input, q, core) == Scan(input, q + 1, Core(state, [input[q]], 1, Null))
    ensures RunEnd(input, q, state) == RunEnd(input, q + 1, state)
  {
    assert Dispatch(core, input[q]) == Continue(Core(state, [input[q]], 1, Null));
  }

  /** A string is the text between its quotes, and it is left open with a newline added when
      the text ends first. An empty string leaves the token buffer as it was. */
  lemma StringToken(input: string, p: nat, core: Core)
    requires core.Valid() && core.state == ExpectingToken && p <= |input|
    requires Peek(input, RunEnd(input, p, ExpectingToken)) == '<'
    ensures var q := RunEnd(input, p, ExpectingToken) + 1;
      var r := RunEnd(input, q, ReadingString);
      var body := input[q..r];
      Scan(input, p, core) ==
        if Peek(input, r) == '>'
        then Result(Core(ExpectingToken, if body == "" then core.text else body, r - q, String), r + 1)
        else Result(Core(ReadingString, body + "\n", r - q + 1, Null), r)
  {
    var q := RunEnd(input, p, ExpectingToken) + 1;
    var r := RunEnd(input, q, ReadingString);
    SkipsBlanks(input, p, core);
    BeginsString(input, q - 1, core);
    ReadsBody(input, q, core.text);
    StringEnds(input, r, core.text, input[q..r]);
  }

  lemma BeginsString(input: string, p: nat, core: Core)
    requires core.Valid() && core.state == ExpectingToken && p < |input| && input[p] == '<'
    ensures Scan(input, p, core) == Scan(input, p + 1, Core(ReadingString, core.text, 0, Null))
  {
    assert Dispatch(core, '<') == Continue(Core(ReadingString, core.text, 0, Null));
  }

  /** The token buffer keeps its text until something is stored. */
  function StringBody(text: string, body: string): Core {
    Core(ReadingString, if body == "" then text else body, |body|, Null)
  }

  lemma ReadsBody(input: string, q: nat, text: string)
    requires q <= |input|
    ensures var r := RunEnd(input, q, ReadingString);
      Scan(input, q, Core(ReadingString, text, 0, Null)) == Scan(input, r, StringBody(text, input[q..r]))
  {
    ReadsRun(input, q, Core(ReadingString, text, 0, Null));
    ExtendedFromStart(text, input[q..RunEnd(input, q, ReadingString)]);
  }

  lemma ExtendedFromStart(text: string, body: string)
    ensures Extended(Core(ReadingString, text, 0, Null), body) == StringBody(text, body)
  {
    assert text[..0] == [] && [] + body == body;
  }

  lemma StringEnds(input: string, r: nat, text: string, body: string)
    requires r <= |input| && !GoesOn(ReadingString, Peek(input, r))
    ensures Scan(input, r, StringBody(text, body)) ==
      if Peek(input, r) == '>'
      then Result(Core(ExpectingToken, if body == "" then text else body, |body|, String), r + 1)
      else Result(Core(ReadingString, body + "\n", |body| + 1, Null), r)
  {
    var core := StringBody(text, body);
    StringStops(input, r, core);
    assert core.text[..core.size] == body;
  }

  lemma StringStops(input: string, r: nat, core: Core)
    requires core.Valid() && core.state == ReadingString
    requires r <= |input| && !GoesOn(ReadingString, Peek(input, r))
    ensures Scan(input, r, core) ==
      if Peek(input, r) == '>' then Result(core.(kind := String, state := ExpectingToken), r + 1)
      else Result(core.Store('\n'), r)
  {
  }

  /** A string's token text is the text between the quotes, unless it is empty and the
      token before it was not: then the caller sees that token's text again. */
  lemma StringTextExact(input: string, p: nat, core: Core)
    requires core.Valid() && core.state == ExpectingToken && p <= |input|
    requires Peek(input, RunEnd(input, p, ExpectingToken)) == '<'
    requires Scan(input, p, core).core.kind == String
    ensures var q := RunEnd(input, p, ExpectingToken) + 1;
      var body := input[q..RunEnd(input, q, ReadingString)];
      Scan(input, p, core).core.text == body <==> (body != "" || core.text == "")
  {
    StringToken(input, p, core);
  }

  /** Lists and invalid characters are single characters, and their token text is whatever
      the token before them had. */
  lemma SingleToken(input: string, p: nat, core: Core)
    requires core.Valid() && core.state == ExpectingToken && p <= |input|
    requires var c := Peek(input, RunEnd(input, p, ExpectingToken));
      !IsLetter(c) && !IsDigit(c) && c != '-' && c != '+' && c != '.' && c != '<'
    ensures var q := RunEnd(input, p, ExpectingToken);
      var c := Peek(input, q);
      Scan(input, p, core) == Result(
        core.(kind := if c == '(' then Open else if c == ')' then Close else if c == '\0' then Null else Invalid),
        if c == '\0' then q else q + 1)
  {
    SkipsBlanks(input, p, core);
  }

  // ----- whole texts

  datatype Token = Token(kind: TokenType, text: string)

  datatype Run = Run(tokens: seq<Token>, end: Result)

  /** Calls until null: the tokens before it, and where the lexer is left. */
  function Drain(input: string, p: nat, core: Core): Run
    requires Between(core) && p <= |input|
    decreases |input| - p
  {
    Progress(input, p, core);
    var r := Scan(input, p, core);
    if r.core.kind == Null then Run([], r)
    else
      var rest := Drain(input, r.ptr, r.core);
      rest.(tokens := [Token(r.core.kind, r.core.text)] + rest.tokens)
  }

  lemma {:induction false} DrainEnds(input: string, p: nat, core: Core)
    requires Between(core) && p <= |input|
    ensures var d := Drain(input, p, core);
      && |d.tokens| <= |input| - p
      && d.end.ptr <= |input| && Peek(input, d.end.ptr) == '\0'
      && d.end.core.kind == Null && Between(d.end.core)
    decreases |input| - p
  {
    Progress(input, p, core);
    var r := Scan(input, p, core);
    if r.core.kind != Null {
      DrainEnds(input, r.ptr, r.core);
    }
  }

  // ----- lexing line by line

  /** While it waits for a token, the type of the last token does not matter. */
  lemma {:induction false} KindIgnored(input: string, p: nat, core: Core, kind: TokenType)
    requires core.Valid() && core.state == ExpectingToken && p <= |input|
    ensures Scan(input, p, core) == Scan(input, p, core.(kind := kind))
    decreases |input| - p
  {
    var c := Peek(input, p);
    if EventOf(c) == Whitespace || EventOf(c) == Newline {
      KindIgnored(input, p + 1, core, kind);
    } else {
      assert Dispatch(core, c) == Dispatch(core.(kind := kind), c);
    }
  }

  /** Text before the lexer's pointer does not matter. */
  lemma {:induction false} ScanShifted(before: string, input: string, p: nat, core: Core)
    requires core.Valid() && p <= |input|
    ensures var r := Scan(input, p, core);
      Scan(before + input, |before| + p, core) == Result(r.core, |before| + r.ptr)
    decreases |input| - p
  {
    var c := Peek(input, p);
    assert Peek(before + input, |before| + p) == c;
    var m := Dispatch(core, c);
    if m.Continue? {
      ScanShifted(before, input, p + 1, m.core);
    }
  }

  lemma {:induction false} DrainShifted(before: string, input: string, p: nat, core: Core)
    requires Between(core) && p <= |input|
    ensures var d := Drain(input, p, core);
      Drain(before + input, |before| + p, core) == Run(d.tokens, Result(d.end.core, |before| + d.end.ptr))
    decreases |input| - p
  {
    Progress(input, p, core);
    Progress(before + input, |before| + p, core);
    ScanShifted(before, input, p, core);
    var r := Scan(input, p, core);
    if r.core.kind != Null {
      DrainShifted(before, input, r.ptr, r.core);
    }
  }

  predicate NoNul(s: string) { '\0' !in s }

  /** One call on a line, and the same call on the line with more after it: the same token,
      ended by the newline instead of by the end; or the call that returned null goes on
      after the newline. */
  lemma {:induction false} ScanLine(line: string, rest: string, p: nat, core: Core)
    requires NoNul(line) && Within(core) && p <= |line|
    ensures var r := Scan(line, p, core);
      var w := Scan(line + ['\n'] + rest, p, core);
      if r.core.kind == Null then
        r.ptr == |line| && Between(r.core) && w == Scan(line + ['\n'] + rest, |line| + 1, r.core)
      else (w == r && r.ptr <= |line|) || (r.ptr == |line| && w == r.(ptr := |line| + 1))
    decreases |line| - p
  {
    var whole := line + ['\n'] + rest;
    if p < |line| {
      assert whole[p] == line[p] && line[p] in line;
      var m := Dispatch(core, line[p]);
      if m.Continue? {
        ScanLine(line, rest, p + 1, m.core);
      }
    } else {
      assert Peek(line, p) == '\0' && Peek(whole, p) == '\n';
      if core.state == ExpectingToken {
        KindIgnored(whole, p + 1, core, Null);
      }
    }
  }

  lemma {:induction false} DrainKindIgnored(input: string, p: nat, core: Core, kind: TokenType)
    requires core.Valid() && core.state == ExpectingToken && p <= |input|
    ensures Drain(input, p, core) == Drain(input, p, core.(kind := kind))
  {
    KindIgnored(input, p, core, kind);
  }

  /** Lexing a line to its null and then the rest through a new text gives the tokens, and
      leaves the state, of lexing both in one text with a newline between; a string may be
      left open across the join. */
  lemma {:induction false} LineByLine(line: string, rest: string, p: nat, core: Core)
    requires NoNul(line) && Between(core) && p <= |line|
    ensures var a := Drain(line, p, core);
      Between(a.end.core)
    ensures var a := Drain(line, p, core);
      var b := Drain(rest, 0, a.end.core);
      Drain(line + ['\n'] + rest, p, core)
        == Run(a.tokens + b.tokens, Result(b.end.core, |line| + 1 + b.end.ptr))
    decreases |line| - p
  {
    var whole := line + ['\n'] + rest;
    DrainEnds(line, p, core);
    Progress(line, p, core);
    ScanLine(line, rest, p, core);
    var r, w := Scan(line, p, core), Scan(whole, p, core);
    if r.core.kind == Null {
      NewlineThenRest(line, rest, r.core);
      DrainSame(whole, p, core, |line| + 1, r.core);
    } else if w == r {
      LineByLine(line, rest, r.ptr, r.core);
      TokenFirst(line, rest, p, core);
    } else {
      DrainNext(line, p, core);
      DrainNext(whole, p, core);
      EndOfLine(line, r.core);
      NewlineThenRest(line, rest, r.core);
      DrainKindIgnored(rest, 0, r.core, Null);
    }
  }

  /** A token inside the line comes first either way. */
  lemma TokenFirst(line: string, rest: string, p: nat, core: Core)
    requires Between(core) && p <= |line| && Scan(line, p, core).core.kind != Null
    requires Scan(line + ['\n'] + rest, p, core) == Scan(line, p, core)
    requires var r := Scan(line, p, core);
      && Between(r.core) && r.ptr <= |line| && Between(Drain(line, r.ptr, r.core).end.core)
      && var b := Drain(rest, 0, Drain(line, r.ptr, r.core).end.core);
      Drain(line + ['\n'] + rest, r.ptr, r.core)
        == Run(Drain(line, r.ptr, r.core).tokens + b.tokens, Result(b.end.core, |line| + 1 + b.end.ptr))
    ensures var a := Drain(line, p, core);
      && Between(a.end.core)
      && var b := Drain(rest, 0, a.end.core);
      Drain(line + ['\n'] + rest, p, core) == Run(a.tokens + b.tokens, Result(b.end.core, |line| + 1 + b.end.ptr))
  {
    var r := Scan(line, p, core);
    var a := Drain(line, r.ptr, r.core);
    var b := Drain(rest, 0, a.end.core);
    DrainNext(line, p, core);
    DrainNext(line + ['\n'] + rest, p, core);
    TokensRegroup([Token(r.core.kind, r.core.text)], a.tokens, b.tokens);
  }

  lemma TokensRegroup(a: seq<Token>, b: seq<Token>, c: seq<Token>)
    ensures a + (b + c) == (a + b) + c
  {
  }

  /** A call that returns a token is the first of the run. */
  lemma DrainNext(input: string, p: nat, core: Core)
    requires Between(core) && p <= |input| && Scan(input, p, core).core.kind != Null
    ensures var r := Scan(input, p, core);
      && Between(r.core) && r.ptr <= |input|
      && var d := Drain(input, r.ptr, r.core);
      Drain(input, p, core) == Run([Token(r.core.kind, r.core.text)] + d.tokens, d.end)
  {
    Progress(input, p, core);
  }

  lemma EndOfLine(line: string, core: Core)
    requires core.Valid() && core.state == ExpectingToken && core.kind != Null
    ensures Drain(line, |line|, core) == Run([], Result(core.(kind := Null), |line|))
  {
    assert Scan(line, |line|, core) == Result(core.(kind := Null), |line|);
  }

  lemma {:induction false} NewlineThenRest(line: string, rest: string, core: Core)
    requires Between(core)
    ensures var b := Drain(rest, 0, core);
      Drain(line + ['\n'] + rest, |line| + 1, core) == Run(b.tokens, Result(b.end.core, |line| + 1 + b.end.ptr))
  {
    DrainShifted(line + ['\n'], rest, 0, core);
  }

  lemma DrainSame(input: string, p: nat, core: Core, q: nat, core': Core)
    requires Between(core) && Between(core') && p <= q <= |input|
    requires Scan(input, p, core) == Scan(input, q, core')
    ensures Drain(input, p, core) == Drain(input, q, core')
  {
  }

  /** Lines lexed one text at a time. */
  function DrainLines(lines: seq<string>, core: Core): Run
    requires Between(core) && lines != []
  {
    DrainEnds(lines[0], 0, core);
    var first := Drain(lines[0], 0, core);
    if |lines| == 1 then first
    else
      var rest := DrainLines(lines[1..], first.end.core);
      Run(first.tokens + rest.tokens, rest.end)
  }

  function Join(lines: seq<string>): string
    requires lines != []
  {
    if |lines| == 1 then lines[0] else lines[0] + ['\n'] + Join(lines[1..])
  }

  /** However a text is cut into lines, the tokens and the final state are the same. */
  lemma {:induction false} LinesAreOneText(lines: seq<string>, core: Core)
    requires Between(core) && lines != []
    requires forall line <- lines :: NoNul(line)
    ensures var whole, byLine := Drain(Join(lines), 0, core), DrainLines(lines, core);
      whole.tokens == byLine.tokens && whole.end.core == byLine.end.core
    decreases |lines|
  {
    if |lines| > 1 {
      DrainEnds(lines[0], 0, core);
      LineByLine(lines[0], Join(lines[1..]), 0, core);
      LinesAreOneText(lines[1..], Drain(lines[0], 0, core).end.core);
    }
  }

  // ----- the empty string

  /** `abc <>` returns the empty string with the text `abc`. */
  lemma {:induction false} EmptyStringShowsLastToken()
    ensures Drain("abc <>", 0, FRESH).tokens == [Token(Function, "abc"), Token(String, "abc")]
  {
    var input := "abc <>";
    AbcFirst();
    EmptyStringNext();
    DrainNext(input, 0, FRESH);
    DrainNext(input, 4, Core(ExpectingToken, "abc", 3, Function));
    EndOfLine(input, Core(ExpectingToken, "abc", 0, String));
  }

  lemma AbcFirst()
    ensures Scan("abc <>", 0, FRESH) == Result(Core(ExpectingToken, "abc", 3, Function), 4)
  {
    var input := "abc <>";
    assert RunEnd(input, 0, ReadingFunction) == RunEnd(input, 3, ReadingFunction) == 3;
    RunTokenAt(input, 0, FRESH, ReadingFunction);
    assert input[0..3] == "abc";
  }

  lemma EmptyStringNext()
    ensures Scan("abc <>", 4, Core(ExpectingToken, "abc", 3, Function))
      == Result(Core(ExpectingToken, "abc", 0, String), 6)
  {
  }
}
