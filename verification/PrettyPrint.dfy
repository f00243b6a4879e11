/** The modifiers of a substitution.

A substitution may name modifiers after a colon, which are applied to its text from left
to right. Only one of them, `justify`, looks at the space the substitution has in its line.
Whether the result depends on that space can be seen from the text and the modifiers.
*/
module PrettyPrint {
  import opened Blocks
  import opened Justify
  import opened LeftAlign
  import opened Trim
  import opened Wrappers

  datatype Modifier = Lower | Upper | Camel | Pascal | AsIs | Neat | C | Cobol | ToWidth | ToLeft | ToBlock | Unknown

  /** A text, and whether it is to become a block. */
  datatype Paper = Paper(text: string, block: bool)

  // ----- characters

  predicate IsUpper(c: char) { 'A' <= c <= 'Z' }

  predicate IsLower(c: char) { 'a' <= c <= 'z' }

  predicate IsAlpha(c: char) { IsUpper(c) || IsLower(c) }

  predicate IsAlnum(c: char) { IsAlpha(c) || '0' <= c <= '9' }

  function ToUpper(c: char): char { if IsLower(c) then c - 'a' + 'A' else c }

  function ToLower(c: char): char { if IsUpper(c) then c - 'A' + 'a' else c }

  // ----- texts

  function LowerCase(s: string): string { seq(|s|, i requires 0 <= i < |s| => ToLower(s[i])) }

  function UpperCase(s: string): string { seq(|s|, i requires 0 <= i < |s| => ToUpper(s[i])) }

  /** Capitals at the start of each run of letters. */
  function NeatCase(s: string): string {
    seq(|s|, i requires 0 <= i < |s| => if i > 0 && IsAlpha(s[i - 1]) then ToLower(s[i]) else ToUpper(s[i]))
  }

  /** Without what is not a letter or digit, and with a capital after it. */
  function CamelCase(s: string, newWord: bool): string {
    if s == "" then ""
    else if !IsAlnum(s[0]) then CamelCase(s[1..], true)
    else [if newWord then ToUpper(s[0]) else s[0]] + CamelCase(s[1..], false)
  }

  /** An identifier: a letter, then letters and digits, and `fill` for all else. */
  function Identifier(s: string, fill: char): string {
    seq(|s|, i requires 0 <= i < |s| => if IsAlpha(s[i]) || (i > 0 && IsAlnum(s[i])) then s[i] else fill)
  }

  function Modified(m: Modifier, text: string, space: int): string {
    match m
    case Lower => LowerCase(text)
    case Upper => UpperCase(text)
    case Camel => CamelCase(text, false)
    case Pascal => CamelCase(text, true)
    case Neat => NeatCase(text)
    case C => Identifier(text, '_')
    case Cobol => Identifier(text, '-')
    case ToWidth => Justified(text, space)
    case ToLeft => LeftText(text)
    case AsIs | ToBlock | Unknown => text
  }

  /** Applies the modifiers in turn; an unknown one is an error. */
  function Pretty(modifiers: seq<Modifier>, p: Paper, space: int): Option<Paper> {
    if modifiers == [] then Some(p)
    else if modifiers[0].Unknown? then None
    else
      Pretty(modifiers[1..], Paper(Modified(modifiers[0], p.text, space), p.block || modifiers[0].ToBlock?), space)
  }

  // ----- when the space matters

  /** These leave no white space in the text. */
  predicate Erases(m: Modifier) { m.Camel? || m.Pascal? || m.C? || m.Cobol? }

  predicate EraseLater(modifiers: seq<Modifier>) { exists m <- modifiers :: Erases(m) }

  /** Where the text comes to a `justify`, it has at most one word, or what is different is
      erased later. */
  predicate Settles(modifiers: seq<Modifier>, text: string) {
    if modifiers == [] then true
    else if modifiers[0].ToWidth? && |Words(text)| >= 2 then EraseLater(modifiers[1..])
    else Settles(modifiers[1..], Modified(modifiers[0], text, 0))
  }

  predicate NoSpace(s: string) { forall i | 0 <= i < |s| :: !IsSpace(s[i]) }

  lemma {:induction false} CamelAlike(s: string, t: string, newWord: bool)
    requires Alike(s, t)
    ensures CamelCase(s, newWord) == CamelCase(t, newWord) && NoSpace(CamelCase(s, newWord))
  {
    if s != "" {
      CamelAlike(s[1..], t[1..], newWord);
      CamelAlike(s[1..], t[1..], true);
      CamelAlike(s[1..], t[1..], false);
    }
  }

  lemma ErasedAlike(m: Modifier, s: string, t: string, v: int, w: int)
    requires Erases(m) && Alike(s, t)
    ensures Modified(m, s, v) == Modified(m, t, w) && NoSpace(Modified(m, s, v))
  {
    CamelAlike(s, t, false);
    CamelAlike(s, t, true);
  }

  // ----- texts without white space

  lemma {:induction false} OneWord(s: string)
    requires NoSpace(s)
    ensures Words(s) == if s == "" then [] else [s]
  {
    if s != "" { WordAlone(s); }
  }

  /** A text with no line that starts with a space stays where it is. */
  lemma LeftStays(s: string)
    requires StartWithWords(SplitLines(s)) || s == ""
    ensures LeftText(s) == s
  {
    var lines := SplitLines(s);
    CommonIsLeast(lines);
    JoinOfSplit(s);
    forall i | 0 <= i < |lines| ensures LeftLines(lines)[i] == lines[i] {
      assert lines[i] != "" ==> Lead(lines[i]) == 0;
    }
    assert LeftLines(lines) == lines;
  }

  lemma {:induction false} TidyLines(s: string)
    requires Tidy(s) && s != ""
    ensures StartWithWords(SplitLines(s))
    decreases |s|
  {
    var i := FirstNewline(s);
    FirstNewlineIs(s);
    if i < |s| {
      assert IsSpace(s[i]) && i < |s| - 1;
      TidyLines(s[i + 1..]);
    }
  }

  lemma TidyStaysLeft(s: string)
    requires Tidy(s)
    ensures LeftText(s) == s
  {
    if s != "" { TidyLines(s); }
    LeftStays(s);
  }

  lemma NoSpaceModified(m: Modifier, s: string, v: int)
    requires NoSpace(s)
    ensures NoSpace(Modified(m, s, v)) && Modified(m, s, v) == Modified(m, s, 0)
  {
    match m
    case Camel => CamelAlike(s, s, false);
    case Pascal => CamelAlike(s, s, true);
    case ToLeft => TidyStaysLeft(s);
    case ToWidth =>
      OneWord(s);
      if s != "" {
        FilledText(Words(s), v);
        FilledText(Words(s), 0);
      }
    case _ =>
  }

  lemma {:induction false} NoSpaceSettles(modifiers: seq<Modifier>, p: Paper, v: int)
    requires NoSpace(p.text)
    ensures Pretty(modifiers, p, v) == Pretty(modifiers, p, 0) && Settles(modifiers, p.text)
  {
    if modifiers != [] {
      OneWord(p.text);
      NoSpaceModified(modifiers[0], p.text, v);
      var text := Modified(modifiers[0], p.text, 0);
      NoSpaceSettles(modifiers[1..], Paper(text, p.block || modifiers[0].ToBlock?), v);
    }
  }

  // ----- texts filled to two widths

  /** What one modifier that changes only letters makes of texts that differ in white space. */
  lemma CaseAlike(m: Modifier, s: string, t: string, v: int, w: int)
    requires Alike(s, t) && Tidy(s) && (m.Lower? || m.Upper? || m.Neat?)
    ensures var (x, y) := (Modified(m, s, v), Modified(m, t, w));
      Alike(x, y) && Tidy(x) && |Words(x)| == |Words(s)| && (s != t ==> x != y)
  {
    var x, y := Modified(m, s, v), Modified(m, t, w);
    CaseKeepsSpace(m, s, v);
    CaseKeepsSpace(m, t, w);
    WordsCounted(s, x);
    LettersAlike(m, s, t, v, w);
    assert Tidy(x);
    if s != t {
      var i :| 0 <= i < |s| && s[i] != t[i];
      assert x[i] == s[i] && y[i] == t[i];
    }
  }

  /** What one modifier that erases nothing makes of texts that differ in white space. */
  lemma StepApart(m: Modifier, s: string, t: string, v: int, w: int)
    requires Alike(s, t) && Tidy(s) && !Erases(m)
    ensures var (x, y) := (Modified(m, s, v), Modified(m, t, w));
      && Alike(x, y) && Tidy(x) && |Words(x)| == |Words(s)|
      && (v == 0 && w == 1 && |Words(s)| >= 2 && s != t ==> x != y)
  {
    match m
    case ToWidth =>
      WordsAreWords(s);
      WordsAlike(s, t);
      RefilledAlike(Words(s), v, w);
      WordsOfFilled(Words(s), v);
    case ToLeft =>
      TidyStaysLeft(s);
      TidyStaysLeft(t);
    case Lower => CaseAlike(m, s, t, v, w);
    case Upper => CaseAlike(m, s, t, v, w);
    case Neat => CaseAlike(m, s, t, v, w);
    case _ =>
  }

  /** Texts with white space in the same places. */
  predicate SpacedAlike(s: string, t: string) {
    |s| == |t| && forall i | 0 <= i < |s| :: IsSpace(s[i]) == IsSpace(t[i])
  }

  lemma CaseKeepsSpace(m: Modifier, s: string, v: int)
    requires m.Lower? || m.Upper? || m.Neat?
    ensures var x := Modified(m, s, v);
      SpacedAlike(s, x) && forall i | 0 <= i < |s| :: IsSpace(s[i]) ==> x[i] == s[i]
  {
  }

  lemma LettersAlike(m: Modifier, s: string, t: string, v: int, w: int)
    requires Alike(s, t) && (m.Lower? || m.Upper? || m.Neat?)
    ensures Alike(Modified(m, s, v), Modified(m, t, w))
  {
  }

  lemma {:induction false} WordsCounted(s: string, t: string)
    requires SpacedAlike(s, t)
    ensures |Words(s)| == |Words(t)|
    decreases |s|
  {
    if s == "" {
    } else if IsSpace(s[0]) {
      WordsCounted(s[1..], t[1..]);
    } else {
      WordEndSpaced(s, t);
      WordsCounted(s[WordEnd(s)..], t[WordEnd(s)..]);
    }
  }

  lemma {:induction false} WordEndSpaced(s: string, t: string)
    requires SpacedAlike(s, t)
    ensures WordEnd(s) == WordEnd(t)
  {
    if s != "" && !IsSpace(s[0]) { WordEndSpaced(s[1..], t[1..]); }
  }

  /** Two texts of the same words that differ in white space: after the other modifiers they
      are the same if and only if one of these erases white space. */
  lemma {:induction false} PrettyApart(modifiers: seq<Modifier>, p: Paper, q: Paper, v: int, w: int)
    requires Alike(p.text, q.text) && Tidy(p.text) && p.block == q.block
    ensures Pretty(modifiers, p, v).None? <==> Pretty(modifiers, q, w).None?
    ensures EraseLater(modifiers) ==> Pretty(modifiers, p, v) == Pretty(modifiers, q, w)
    ensures (v == 0 && w == 1 && |Words(p.text)| >= 2 && p.text != q.text && !EraseLater(modifiers)
             && Pretty(modifiers, p, v).Some?) ==>
      Pretty(modifiers, p, v).value.text != Pretty(modifiers, q, w).value.text
    decreases |modifiers|
  {
    if modifiers != [] && !modifiers[0].Unknown? {
      var m, rest := modifiers[0], modifiers[1..];
      var x, y := Modified(m, p.text, v), Modified(m, q.text, w);
      var block := p.block || m.ToBlock?;
      assert EraseLater(modifiers) <==> Erases(m) || EraseLater(rest);
      if Erases(m) {
        ErasedAlike(m, p.text, q.text, v, w);
        NoSpaceSettles(rest, Paper(x, block), v);
        NoSpaceSettles(rest, Paper(x, block), w);
      } else {
        StepApart(m, p.text, q.text, v, w);
        PrettyApart(rest, Paper(x, block), Paper(y, block), v, w);
      }
    }
  }

  lemma RefilledAlike(words: seq<string>, v: int, w: int)
    requires AreWords(words)
    ensures var (x, y) := (Rejoined(FillLines(words, v)), Rejoined(FillLines(words, w)));
      Alike(x, y) && Tidy(x) && (v == 0 && w == 1 && |words| >= 2 ==> x != y)
  {
    FilledAlike(words, v, w);
    WidthMatters(words);
  }

  /** What is printed is the same for every space if and only if the modifiers settle it;
      otherwise it is already different for no space and for one column. */
  lemma {:induction false} SpaceMatters(modifiers: seq<Modifier>, p: Paper)
    requires Pretty(modifiers, p, 0).Some?
    ensures Settles(modifiers, p.text) ==> forall v: int :: Pretty(modifiers, p, v) == Pretty(modifiers, p, 0)
    ensures !Settles(modifiers, p.text) ==>
      Pretty(modifiers, p, 1).Some? && Pretty(modifiers, p, 0).value.text != Pretty(modifiers, p, 1).value.text
    decreases |modifiers|
  {
    if modifiers != [] {
      var m, rest := modifiers[0], modifiers[1..];
      if !m.ToWidth? {
        SpaceMatters(rest, Paper(Modified(m, p.text, 0), p.block || m.ToBlock?));
      } else if |Words(p.text)| < 2 {
        JustifiedWord(rest, p);
      } else {
        forall v: int ensures EraseLater(rest) ==> Pretty(modifiers, p, v) == Pretty(modifiers, p, 0) {
          JustifiedApart(rest, p, v, 0);
        }
        JustifiedApart(rest, p, 0, 1);
      }
    }
  }

  /** A single word does not depend on the width. */
  lemma JustifiedWord(rest: seq<Modifier>, p: Paper)
    requires |Words(p.text)| < 2
    ensures Settles(rest, Justified(p.text, 0))
    ensures forall v: int ::
      Pretty(rest, Paper(Justified(p.text, v), p.block), v) == Pretty(rest, Paper(Justified(p.text, 0), p.block), 0)
  {
    var words, text := Words(p.text), Justified(p.text, 0);
    WordsAreWords(p.text);
    WidthMatters(words);
    if words != [] { FilledText(words, 0); }
    forall v: int
      ensures Pretty(rest, Paper(Justified(p.text, v), p.block), v) == Pretty(rest, Paper(text, p.block), 0)
    {
      assert FillLines(words, v) == FillLines(words, 0);
      NoSpaceSettles(rest, Paper(text, p.block), v);
    }
    NoSpaceSettles(rest, Paper(text, p.block), 0);
  }

  lemma JustifiedApart(rest: seq<Modifier>, p: Paper, v: int, w: int)
    requires |Words(p.text)| >= 2
    ensures var x := Pretty(rest, Paper(Justified(p.text, v), p.block), v);
      var y := Pretty(rest, Paper(Justified(p.text, w), p.block), w);
      && (x.None? <==> y.None?) && (EraseLater(rest) ==> x == y)
      && (v == 0 && w == 1 && !EraseLater(rest) && x.Some? ==> x.value.text != y.value.text)
  {
    var words := Words(p.text);
    WordsAreWords(p.text);
    RefilledAlike(words, v, w);
    WordsOfFilled(words, v);
    PrettyApart(rest, Paper(Justified(p.text, v), p.block), Paper(Justified(p.text, w), p.block), v, w);
  }

  /** A space below zero is as none. */
  lemma {:induction false} PrettyBelow(modifiers: seq<Modifier>, p: Paper, space: int)
    requires space <= 0
    ensures Pretty(modifiers, p, space) == Pretty(modifiers, p, 0)
  {
    if modifiers != [] {
      FillOneLine(Words(p.text), space);
      var text := Modified(modifiers[0], p.text, 0);
      PrettyBelow(modifiers[1..], Paper(text, p.block || modifiers[0].ToBlock?), space);
    }
  }

  /** Whether there is an error does not depend on the space. */
  lemma {:induction false} FailsExactly(modifiers: seq<Modifier>, p: Paper, space: int)
    ensures Pretty(modifiers, p, space).None? <==> Unknown in modifiers
  {
    if modifiers != [] && !modifiers[0].Unknown? {
      var text := Modified(modifiers[0], p.text, space);
      FailsExactly(modifiers[1..], Paper(text, p.block || modifiers[0].ToBlock?), space);
    }
  }

  // ----- pretty_print

  /** Applies one modifier after the other. */
  method PrettyPrint(modifiers: seq<Modifier>, text: string, block: bool, space: int) returns (r: Option<Paper>)
    ensures r == Pretty(modifiers, Paper(text, block), space)
  {
    var p, k := Paper(text, block), 0;
    while k < |modifiers|
      invariant 0 <= k <= |modifiers|
      invariant Pretty(modifiers, Paper(text, block), space) == Pretty(modifiers[k..], p, space)
    {
      var m := modifiers[k];
      assert modifiers[k..][1..] == modifiers[k + 1..];
      if m.Unknown? { return None; }
      var s := Modify(m, p.text, space);
      p, k := Paper(s, p.block || m.ToBlock?), k + 1;
    }
    r := Some(p);
  }

  method Modify(m: Modifier, text: string, space: int) returns (s: string)
    ensures s == Modified(m, text, space)
  {
    match m
    case ToWidth =>
      var room;
      s, room := StrJustify(text, space);
    case ToLeft => s := StrLeft(text);
    case _ => s := Modified(m, text, space);
  }
}
