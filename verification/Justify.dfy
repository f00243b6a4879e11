/** Filling lines with the words of a text.

`strjustify` takes a text apart into words and puts as many of them on each line as its
width allows. A width of zero puts all of them on one line; so does one below zero, which
the source reads as a very large one.
*/
module Justify {
  import opened Blocks
  import opened Trim

  // ----- words

  function WordEnd(s: string): (n: nat)
    ensures n <= |s| && (n < |s| ==> IsSpace(s[n]))
    ensures forall i | 0 <= i < n :: !IsSpace(s[i])
  {
    if s == "" || IsSpace(s[0]) then 0 else WordEnd(s[1..]) + 1
  }

  /** What stands between the white space of a text. */
  function Words(s: string): seq<string>
    decreases |s|
  {
    if s == "" then []
    else if IsSpace(s[0]) then Words(s[1..])
    else [s[..WordEnd(s)]] + Words(s[WordEnd(s)..])
  }

  predicate IsWord(w: string) { w != "" && forall i | 0 <= i < |w| :: !IsSpace(w[i]) }

  predicate AreWords(words: seq<string>) { forall i | 0 <= i < |words| :: IsWord(words[i]) }

  lemma {:induction false} WordsAreWords(s: string)
    ensures AreWords(Words(s))
    decreases |s|
  {
    if s == "" {
    } else if IsSpace(s[0]) {
      WordsAreWords(s[1..]);
    } else {
      WordsAreWords(s[WordEnd(s)..]);
    }
  }

  lemma {:induction false} WordEndIs(w: string, rest: string)
    requires IsWord(w) && (rest == "" || IsSpace(rest[0]))
    ensures WordEnd(w + rest) == |w|
  {
    if |w| == 1 {
      assert (w + rest)[1..] == rest;
    } else {
      assert (w + rest)[1..] == w[1..] + rest;
      WordEndIs(w[1..], rest);
    }
  }

  lemma WordFirst(w: string, rest: string)
    requires IsWord(w) && (rest == "" || IsSpace(rest[0]))
    ensures Words(w + rest) == [w] + Words(rest)
  {
    WordEndIs(w, rest);
    assert (w + rest)[..|w|] == w && (w + rest)[|w|..] == rest;
  }

  lemma WordAlone(w: string)
    requires IsWord(w)
    ensures Words(w) == [w]
  {
    WordFirst(w, "");
    assert w + "" == w;
  }

  /** A space between two texts keeps their words apart. */
  lemma {:induction false} WordsApart(a: string, c: char, b: string)
    requires IsSpace(c)
    ensures Words(a + [c] + b) == Words(a) + Words(b)
    decreases |a|
  {
    if a == "" {
      assert (a + [c] + b)[1..] == b;
    } else if IsSpace(a[0]) {
      assert (a + [c] + b)[1..] == a[1..] + [c] + b;
      WordsApart(a[1..], c, b);
    } else {
      WordsApart(a[WordEnd(a)..], c, b);
      WordApart(a[..WordEnd(a)], a[WordEnd(a)..], c, b);
      assert a == a[..WordEnd(a)] + a[WordEnd(a)..];
    }
  }

  lemma WordApart(w: string, rest: string, c: char, b: string)
    requires IsWord(w) && (rest == "" || IsSpace(rest[0])) && IsSpace(c)
    requires Words(rest + [c] + b) == Words(rest) + Words(b)
    ensures Words(w + rest + [c] + b) == Words(w + rest) + Words(b)
  {
    WordFirst(w, rest);
    WordFirst(w, rest + [c] + b);
    Regroup(w, rest, [c], b);
    Regroup([w], Words(rest), [], Words(b));
  }

  lemma Regroup<T>(a: seq<T>, b: seq<T>, c: seq<T>, d: seq<T>)
    ensures a + (b + c + d) == a + b + c + d && b + [] == b && a + b + [] == a + b
  {
  }

  // ----- lines

  function Last(lines: seq<string>): string
    requires lines != []
  {
    lines[|lines| - 1]
  }

  function Front<T>(items: seq<T>): seq<T>
    requires items != []
  {
    items[..|items| - 1]
  }

  /** Does the next word begin a new line? */
  predicate Breaks(lines: seq<string>, word: string, width: int)
    requires lines != []
  {
    0 < width < |Last(lines)| + 1 + |word|
  }

  function PutWord(lines: seq<string>, word: string, width: int): (r: seq<string>)
    ensures r != []
  {
    if lines == [] then [word]
    else if Breaks(lines, word, width) then lines + [word]
    else Front(lines) + [Last(lines) + " " + word]
  }

  /** The lines that the words fill. */
  function FillLines(words: seq<string>, width: int): (lines: seq<string>)
    ensures lines == [] <==> words == []
  {
    if words == [] then [] else PutWord(FillLines(Front(words), width), Last(words), width)
  }

  function Justified(s: string, width: int): string { Rejoined(FillLines(Words(s), width)) }

  /** The first word of a line. */
  function FirstWord(line: string): string { line[..WordEnd(line)] }

  /** Each line is as wide as it may be: it fits, unless it is a single word, and the first
      word of the next line does not. */
  predicate AreFull(lines: seq<string>, width: int) {
    && (forall i | 0 <= i < |lines| :: |lines[i]| <= width || IsWord(lines[i]))
    && (forall i | 0 <= i < |lines| - 1 :: |lines[i]| + 1 + |FirstWord(lines[i + 1])| > width)
  }

  lemma FirstWordStays(line: string, rest: string)
    requires line != "" && !IsSpace(line[0]) && (rest == "" || IsSpace(rest[0]))
    ensures FirstWord(line + rest) == FirstWord(line)
  {
    var n := WordEnd(line);
    var after := line[n..] + rest;
    assert line + rest == line[..n] + after;
    WordEndIs(line[..n], after);
  }

  predicate StartWithWords(lines: seq<string>) {
    forall i | 0 <= i < |lines| :: lines[i] != "" && !IsSpace(lines[i][0])
  }

  lemma PutWordFits(lines: seq<string>, word: string, width: int)
    requires AreFull(lines, width) && StartWithWords(lines) && IsWord(word) && width > 0
    ensures AreFull(PutWord(lines, word, width), width) && StartWithWords(PutWord(lines, word, width))
  {
    WordEndIs(word, "");
    assert word + "" == word;
    if lines != [] && !Breaks(lines, word, width) {
      FirstWordStays(Last(lines), " " + word);
      assert Last(lines) + (" " + word) == Last(lines) + " " + word;
    }
  }

  /** The filling is greedy, and no line is too long that has a second word. */
  lemma {:induction false} FillsLines(words: seq<string>, width: int)
    requires AreWords(words) && width > 0
    ensures AreFull(FillLines(words, width), width) && StartWithWords(FillLines(words, width))
  {
    if words != [] {
      FillsLines(Front(words), width);
      PutWordFits(FillLines(Front(words), width), Last(words), width);
    }
  }

  // ----- the text

  lemma RejoinedNext(lines: seq<string>, line: string)
    requires lines != []
    ensures Rejoined(lines + [line]) == Rejoined(lines) + "\n" + line
  {
    RejoinedIsTerminated(lines);
    RejoinedIsTerminated(lines + [line]);
    TerminatedNext(lines + [line], |lines|);
    assert (lines + [line])[..|lines|] == lines && (lines + [line])[..|lines| + 1] == lines + [line];
    SameBeforeLast(Rejoined(lines + [line]), Rejoined(lines) + "\n" + line, '\n');
  }

  lemma SameBeforeLast(s: string, t: string, c: char)
    requires s + [c] == t + [c]
    ensures s == t
  {
    assert (s + [c])[..|s|] == s && (t + [c])[..|t|] == t;
  }

  lemma RejoinedLonger(lines: seq<string>, more: string)
    requires lines != []
    ensures Rejoined(Front(lines) + [Last(lines) + more]) == Rejoined(lines) + more
  {
    if |lines| == 1 {
      assert Front(lines) + [Last(lines) + more] == [lines[0] + more];
    } else {
      RejoinedNext(Front(lines), Last(lines));
      RejoinedNext(Front(lines), Last(lines) + more);
      assert Front(lines) + [Last(lines)] == lines;
      assert Rejoined(Front(lines)) + "\n" + (Last(lines) + more)
        == (Rejoined(Front(lines)) + "\n" + Last(lines)) + more;
    }
  }

  /** What a word adds to the text. */
  lemma PutWordText(lines: seq<string>, word: string, width: int)
    ensures Rejoined(PutWord(lines, word, width)) ==
      if lines == [] then word
      else Rejoined(lines) + (if Breaks(lines, word, width) then "\n" else " ") + word
  {
    if lines != [] {
      if Breaks(lines, word, width) {
        RejoinedNext(lines, word);
      } else {
        RejoinedLonger(lines, " " + word);
        assert Last(lines) + " " + word == Last(lines) + (" " + word);
        assert Rejoined(lines) + " " + word == Rejoined(lines) + (" " + word);
      }
    }
  }

  lemma FilledText(words: seq<string>, width: int)
    requires words != []
    ensures var lines := FillLines(Front(words), width);
      Rejoined(FillLines(words, width)) ==
        if lines == [] then Last(words)
        else Rejoined(lines) + (if Breaks(lines, Last(words), width) then "\n" else " ") + Last(words)
  {
    PutWordText(FillLines(Front(words), width), Last(words), width);
  }

  /** No word is lost, split or joined to another. */
  lemma {:induction false} WordsOfFilled(words: seq<string>, width: int)
    requires AreWords(words)
    ensures Words(Rejoined(FillLines(words, width))) == words
  {
    if words != [] {
      var front, w := Front(words), Last(words);
      var lines := FillLines(front, width);
      WordsOfFilled(front, width);
      FilledText(words, width);
      WordAlone(w);
      assert words == front + [w];
      if lines != [] {
        WordsApart(Rejoined(lines), if Breaks(lines, w, width) then '\n' else ' ', w);
      }
    }
  }

  /** So the words of a text stay, and filling twice is filling once. */
  lemma JustifyKeepsWords(s: string, width: int)
    ensures Words(Justified(s, width)) == Words(s)
    ensures forall other: int :: Justified(Justified(s, width), other) == Justified(s, other)
  {
    WordsAreWords(s);
    WordsOfFilled(Words(s), width);
  }

  // ----- how the width matters

  /** Texts that differ at most in which white space they have. */
  predicate Alike(s: string, t: string) {
    |s| == |t| && forall i | 0 <= i < |s| :: s[i] == t[i] || (IsSpace(s[i]) && IsSpace(t[i]))
  }

  /** No white space at the ends, and never two of it together. */
  predicate Tidy(s: string) {
    && (s != "" ==> !IsSpace(s[0]) && !IsSpace(s[|s| - 1]))
    && forall i | 0 <= i < |s| - 1 :: !IsSpace(s[i]) || !IsSpace(s[i + 1])
  }

  lemma LongerAlike(s: string, t: string, c: char, d: char, word: string)
    requires Alike(s, t) && Tidy(s) && s != "" && IsSpace(c) && IsSpace(d) && IsWord(word)
    ensures Alike(s + [c] + word, t + [d] + word) && Tidy(s + [c] + word)
  {
  }

  lemma {:induction false} FilledAlike(words: seq<string>, v: int, w: int)
    requires AreWords(words)
    ensures Alike(Rejoined(FillLines(words, v)), Rejoined(FillLines(words, w)))
    ensures Tidy(Rejoined(FillLines(words, v))) && (words != [] ==> Rejoined(FillLines(words, v)) != "")
  {
    if words != [] {
      FilledAlike(Front(words), v, w);
      FilledText(words, v);
      FilledText(words, w);
      var one, other := FillLines(Front(words), v), FillLines(Front(words), w);
      if one != [] {
        LongerAlike(Rejoined(one), Rejoined(other), if Breaks(one, Last(words), v) then '\n' else ' ',
                    if Breaks(other, Last(words), w) then '\n' else ' ', Last(words));
      }
    }
  }

  /** Below zero every width is like zero. */
  lemma {:induction false} FillOneLine(words: seq<string>, width: int)
    requires width <= 0
    ensures FillLines(words, width) == FillLines(words, 0)
  {
    if words != [] { FillOneLine(Front(words), width); }
  }

  lemma {:induction false} OneLineHasNoNewline(words: seq<string>)
    requires AreWords(words)
    ensures '\n' !in Rejoined(FillLines(words, 0))
  {
    if words != [] {
      OneLineHasNoNewline(Front(words));
      FilledText(words, 0);
    }
  }

  /** The width matters as soon as there are two words: then zero and one differ. */
  lemma WidthMatters(words: seq<string>)
    requires AreWords(words)
    ensures |words| >= 2 <==> Rejoined(FillLines(words, 0)) != Rejoined(FillLines(words, 1))
    ensures |words| < 2 ==> forall v: int, w: int {:trigger FillLines(words, v), FillLines(words, w)} ::
      FillLines(words, v) == FillLines(words, w)
  {
    if |words| >= 2 {
      OneLineHasNoNewline(words);
      FilledText(words, 1);
      assert |Last(words)| > 0;
      assert '\n' in Rejoined(FillLines(words, 1));
    } else if |words| == 1 {
      assert Front(words) == [];
    }
  }

  // ----- the words of texts that are alike

  lemma {:induction false} WordEndAlike(s: string, t: string)
    requires Alike(s, t)
    ensures WordEnd(s) == WordEnd(t) && s[..WordEnd(s)] == t[..WordEnd(t)]
  {
    if s != "" && !IsSpace(s[0]) {
      WordEndAlike(s[1..], t[1..]);
      assert s[..WordEnd(s)] == [s[0]] + s[1..][..WordEnd(s[1..])];
    }
  }

  lemma {:induction false} WordsAlike(s: string, t: string)
    requires Alike(s, t)
    ensures Words(s) == Words(t)
    decreases |s|
  {
    if s == "" {
    } else if IsSpace(s[0]) {
      WordsAlike(s[1..], t[1..]);
    } else {
      WordEndAlike(s, t);
      WordsAlike(s[WordEnd(s)..], t[WordEnd(s)..]);
    }
  }

  // ----- strjustify

  /** The room that words take, each with a character after it. */
  function TextSize(words: seq<string>): nat {
    if words == [] then 0 else TextSize(Front(words)) + |Last(words)| + 1
  }

  /** However the words are filled, the text is one shorter than that, unless it is empty. */
  lemma {:induction false} FilledSize(words: seq<string>, width: int)
    ensures |Rejoined(FillLines(words, width))| == if words == [] then 0 else TextSize(words) - 1
  {
    if words != [] {
      FilledSize(Front(words), width);
      FilledText(words, width);
    }
  }

  lemma {:induction false} SizeGrows(words: seq<string>, k: nat)
    requires k <= |words|
    ensures TextSize(words[..k]) <= TextSize(words)
    decreases |words| - k
  {
    if k < |words| {
      assert Front(words[..k + 1]) == words[..k];
      SizeGrows(words, k + 1);
    } else {
      assert words[..k] == words;
    }
  }

  method MeasureWords(words: seq<string>) returns (size: nat)
    ensures size == TextSize(words)
  {
    size := 0;
    for k := 0 to |words|
      invariant size == TextSize(words[..k])
    {
      assert Front(words[..k + 1]) == words[..k];
      size := size + |words[k]| + 1;
    }
    assert words[..|words|] == words;
  }

  /** What the buffer holds after the first words. */
  ghost predicate HoldsWords(buffer: array<char>, at: nat, column: nat, words: seq<string>, width: int)
    reads buffer
  {
    var lines := FillLines(words, width);
    && at <= buffer.Length && buffer[..at] == Rejoined(lines)
    && column == if lines == [] then 0 else |Last(lines)|
  }

  method AppendWord(buffer: array<char>, at: nat, word: string)
    requires at + |word| <= buffer.Length
    modifies buffer
    ensures buffer[..at + |word|] == old(buffer[..at]) + word
  {
    forall i | 0 <= i < |word| { buffer[at + i] := word[i]; }
    assert buffer[..at] == old(buffer[..at]);
    assert buffer[at..at + |word|] == word;
  }

  /** Puts one more word into the buffer, after a space or on a new line. */
  method PutNext(buffer: array<char>, at: nat, column: nat, word: string, first: bool, width: int,
                 ghost words: seq<string>)
    returns (next: nat, column': nat)
    requires first <==> words == []
    requires HoldsWords(buffer, at, column, words, width) && at + |word| + 1 <= buffer.Length
    modifies buffer
    ensures HoldsWords(buffer, next, column', words + [word], width)
    ensures next == at + |word| + if words == [] then 0 else 1
  {
    ghost var lines := FillLines(words, width);
    assert Front(words + [word]) == words;
    FilledText(words + [word], width);
    next, column' := at, column;
    if !first {
      if width > 0 && |word| + column + 1 > width {
        buffer[next], column' := '\n', 0;
      } else {
        buffer[next], column' := ' ', column + 1;
      }
      next := next + 1;
      assert buffer[..at] == old(buffer[..at]);
      assert buffer[..next] == Rejoined(lines) + (if Breaks(lines, word, width) then "\n" else " ");
    }
    AppendWord(buffer, next, word);
    next, column' := next + |word|, column' + |word|;
  }

  /** The text with its words filled into lines, written into a buffer with room for it, the
      null at its end and, if there are words, one character more. */
  method StrJustify(source: string, width: int) returns (r: string, room: nat)
    ensures r == Justified(source, width)
    ensures room == |r| + 1 + if Words(source) == [] then 0 else 1
  {
    var words := Words(source);
    var size := MeasureWords(words);
    var buffer := new char[size + 1];
    var at, column := 0, 0;
    assert words[..0] == [];
    for k := 0 to |words|
      invariant 0 <= at && 0 <= column && HoldsWords(buffer, at, column, words[..k], width)
      invariant at == if k == 0 then 0 else TextSize(words[..k]) - 1
    {
      assert words[..k + 1] == words[..k] + [words[k]] && Front(words[..k + 1]) == words[..k];
      SizeGrows(words, k + 1);
      at, column := PutNext(buffer, at, column, words[k], k == 0, width, words[..k]);
    }
    assert words[..|words|] == words;
    FilledSize(words, width);
    r, room := buffer[..at], buffer.Length;
    buffer[at] := '\0';
  }

  /** Two words on a line that holds both, and on one that does not. */
  lemma TwoWords(a: string, b: string, width: int)
    requires IsWord(a) && IsWord(b)
    ensures Justified(a + " " + b, width) == if 0 < width < |a| + 1 + |b| then a + "\n" + b else a + " " + b
  {
    WordsApart(a, ' ', b);
    WordAlone(a);
    WordAlone(b);
    assert Words(a + " " + b) == [a, b];
    FilledText([a, b], width);
    assert Front([a, b]) == [a] && Front([a]) == [];
  }
}
