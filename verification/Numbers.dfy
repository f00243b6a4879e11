/** Reading numbers from texts and writing them as texts.

`number_value` reads an optional sign, digits, and a point with more digits; any of the
parts may be missing, but the text may not be empty. `string_value` writes a number with
nine decimals and strips the zeros at its end. The numbers here are exact decimals, not
floating point.
*/
module Numbers {
  import opened Wrappers

  predicate IsDigit(c: char) { '0' <= c <= '9' }

  function Digit(c: char): int
    requires IsDigit(c)
  {
    c as int - '0' as int
  }

  predicate Digits(s: string) { forall i | 0 <= i < |s| :: IsDigit(s[i]) }

  // ----- what texts mean

  /** The value of digits before the point. */
  function Whole(s: string): int
    requires Digits(s)
  {
    if s == "" then 0 else 10 * Whole(s[..|s| - 1]) + Digit(s[|s| - 1])
  }

  /** The value of digits after the point. */
  function Fraction(s: string): real
    requires Digits(s)
  {
    if s == "" then 0.0 else (Digit(s[0]) as real + Fraction(s[1..])) / 10.0
  }

  /** A number as it may be written. */
  datatype Numeral = Numeral(sign: string, whole: string, point: bool, fraction: string)

  predicate IsNumeral(n: Numeral) {
    && (n.sign == "" || n.sign == "-" || n.sign == "+")
    && Digits(n.whole) && Digits(n.fraction) && (!n.point ==> n.fraction == "")
  }

  function Written(n: Numeral): string {
    n.sign + n.whole + (if n.point then "." + n.fraction else "")
  }

  function Meaning(n: Numeral): real
    requires IsNumeral(n)
  {
    (if n.sign == "-" then -1.0 else 1.0) * (Whole(n.whole) as real + Fraction(n.fraction))
  }

  // ----- reading

  datatype Cut = Cut(head: string, rest: string)

  function CutSign(s: string): Cut {
    if s != "" && (s[0] == '-' || s[0] == '+') then Cut([s[0]], s[1..]) else Cut("", s)
  }

  function CutDigits(s: string): Cut {
    if s == "" || !IsDigit(s[0]) then Cut("", s)
    else
      var c := CutDigits(s[1..]);
      Cut([s[0]] + c.head, c.rest)
  }

  lemma OneMoreDigit(c: char, s: string)
    requires IsDigit(c) && Digits(s)
    ensures Digits([c] + s) && ([c] + s)[1..] == s
  {
  }

  lemma {:induction false} CutDigitsIs(s: string)
    ensures var c := CutDigits(s); s == c.head + c.rest && Digits(c.head) && (c.rest != "" ==> !IsDigit(c.rest[0]))
  {
    if s != "" && IsDigit(s[0]) {
      var c := CutDigits(s[1..]);
      CutDigitsIs(s[1..]);
      assert s == [s[0]] + s[1..];
      Regroup([s[0]], c.head, c.rest);
      OneMoreDigit(s[0], c.head);
    }
  }

  lemma {:induction false} CutDigitsOf(a: string, b: string)
    requires Digits(a) && (b != "" ==> !IsDigit(b[0]))
    ensures CutDigits(a + b) == Cut(a, b)
  {
    if a == "" {
      assert a + b == b;
    } else {
      assert (a + b)[1..] == a[1..] + b;
      CutDigitsOf(a[1..], b);
      assert a == [a[0]] + a[1..];
    }
  }

  lemma CutSignOf(a: string, b: string)
    requires a == "-" || a == "+" || (a == "" && (b != "" ==> b[0] != '-' && b[0] != '+'))
    ensures CutSign(a + b) == Cut(a, b)
  {
  }

  /** What can be read of a text as a number, and the rest. */
  datatype Read = Read(numeral: Numeral, rest: string)

  function ReadNumeral(s: string): Read {
    var sign := CutSign(s);
    var whole := CutDigits(sign.rest);
    if whole.rest != "" && whole.rest[0] == '.' then
      var fraction := CutDigits(whole.rest[1..]);
      Read(Numeral(sign.head, whole.head, true, fraction.head), fraction.rest)
    else Read(Numeral(sign.head, whole.head, false, ""), whole.rest)
  }

  lemma Regroup(a: string, b: string, c: string)
    ensures a + b + c == a + (b + c)
  {
  }

  lemma FirstAndRest(s: string)
    requires s != ""
    ensures [s[0]] + s[1..] == s
  {
  }

  lemma ReadIs(s: string)
    ensures var r := ReadNumeral(s); IsNumeral(r.numeral) && s == Written(r.numeral) + r.rest
  {
    var sign := CutSign(s);
    var whole := CutDigits(sign.rest);
    assert s == sign.head + sign.rest;
    CutDigitsIs(sign.rest);
    Regroup(sign.head, whole.head, whole.rest);
    if whole.rest != "" && whole.rest[0] == '.' {
      var fraction := CutDigits(whole.rest[1..]);
      CutDigitsIs(whole.rest[1..]);
      FirstAndRest(whole.rest);
      Regroup(".", fraction.head, fraction.rest);
      Regroup(sign.head + whole.head, "." + fraction.head, fraction.rest);
    } else {
      assert sign.head + whole.head + "" == sign.head + whole.head;
    }
  }

  /** A numeral is read back as it was written. */
  lemma ReadOfWritten(n: Numeral)
    requires IsNumeral(n)
    ensures ReadNumeral(Written(n)) == Read(n, "")
  {
    var tail := if n.point then "." + n.fraction else "";
    Regroup(n.sign, n.whole, tail);
    if n.sign == "" && n.whole == "" { assert n.whole + tail == tail; }
    CutSignOf(n.sign, n.whole + tail);
    CutDigitsOf(n.whole, tail);
    if n.point { ReadOfFraction(n.fraction); }
  }

  lemma ReadOfFraction(fraction: string)
    requires Digits(fraction)
    ensures ("." + fraction)[1..] == fraction && CutDigits(fraction) == Cut(fraction, "")
  {
  }

  // ----- number_value

  /** The texts that are numbers. */
  ghost predicate IsNumber(s: string) {
    s != "" && exists n: Numeral :: IsNumeral(n) && Written(n) == s
  }

  /** Exactly these are read to their end. */
  lemma NumberIsReadToEnd(s: string)
    ensures IsNumber(s) <==> s != "" && ReadNumeral(s).rest == ""
  {
    ReadIs(s);
    var r := ReadNumeral(s);
    if r.rest == "" { assert Written(r.numeral) + "" == Written(r.numeral); }
    if IsNumber(s) {
      var n :| IsNumeral(n) && Written(n) == s;
      ReadOfWritten(n);
    }
  }

  /** `number_value` on a text that is not converted yet: the number, or none. */
  method NumberValue(s: string) returns (r: Option<real>)
    ensures r.Some? <==> IsNumber(s)
    ensures r.Some? ==> IsNumeral(ReadNumeral(s).numeral) && r.value == Meaning(ReadNumeral(s).numeral)
  {
    NumberIsReadToEnd(s);
    if s == "" { return None; }
    MeaningOfRead(s);
    var ch, sign := ReadSign(s);
    var n;
    ch, n := ReadDigits(s, ch);
    r := if ch < |s| then None else Some(Signed(sign, n));
  }

  method ReadSign(s: string) returns (ch: nat, sign: real)
    requires s != ""
    ensures ch <= |s| && s[ch..] == CutSign(s).rest && sign == if CutSign(s).head == "-" then -1.0 else 1.0
  {
    ch, sign := 0, 1.0;
    if s[0] == '-' {
      sign, ch := -1.0, 1;
    } else if s[0] == '+' {
      ch := 1;
    }
  }

  /** What is after the sign. */
  ghost function ReadAfter(s: string): Read {
    var whole := CutDigits(s);
    if whole.rest != "" && whole.rest[0] == '.' then
      var fraction := CutDigits(whole.rest[1..]);
      Read(Numeral("", whole.head, true, fraction.head), fraction.rest)
    else Read(Numeral("", whole.head, false, ""), whole.rest)
  }

  function Signed(sign: real, n: real): real { sign * n }

  /** The meaning of what is read, from its sign and its digits. */
  lemma MeaningOfRead(s: string)
    ensures var r, after := ReadNumeral(s), ReadAfter(CutSign(s).rest);
      && IsNumeral(r.numeral) && r.rest == after.rest
      && Digits(after.numeral.whole) && Digits(after.numeral.fraction)
      && var n := Whole(after.numeral.whole) as real + Fraction(after.numeral.fraction);
      && Meaning(r.numeral) == Signed(if CutSign(s).head == "-" then -1.0 else 1.0, n)
  {
    ReadIs(s);
  }

  method ReadDigits(s: string, from: nat) returns (ch: nat, n: real)
    requires from <= |s|
    ensures ch <= |s| && s[ch..] == ReadAfter(s[from..]).rest
    ensures var m := ReadAfter(s[from..]).numeral;
      Digits(m.whole) && Digits(m.fraction) && n == Whole(m.whole) as real + Fraction(m.fraction)
  {
    var whole;
    ch, whole := ReadWhole(s, from);
    n := whole as real;
    if ch < |s| && s[ch] == '.' {
      assert s[ch..][1..] == s[ch + 1..];
      ch, n := ReadFraction(s, ch + 1, n);
    }
  }

  method ReadWhole(s: string, from: nat) returns (ch: nat, n: int)
    requires from <= |s|
    ensures from <= ch <= |s| && s[ch..] == CutDigits(s[from..]).rest
    ensures Digits(CutDigits(s[from..]).head) && n == Whole(CutDigits(s[from..]).head)
  {
    ghost var head := "";
    ghost var cut := CutDigits(s[from..]);
    ch, n := from, 0;
    assert "" + cut.head == cut.head;
    while ch < |s| && IsDigit(s[ch])
      invariant from <= ch <= |s| && cut == Cut(head + CutDigits(s[ch..]).head, CutDigits(s[ch..]).rest)
      invariant Digits(head) && n == Whole(head)
    {
      assert s[ch..][1..] == s[ch + 1..];
      Regroup(head, [s[ch]], CutDigits(s[ch + 1..]).head);
      assert (head + [s[ch]])[..|head|] == head;
      n := n * 10 + Digit(s[ch]);
      head, ch := head + [s[ch]], ch + 1;
    }
    assert head + "" == head;
  }

  /** What digits are worth when the first is worth `place`. */
  function Worth(s: string, place: real): real
    requires Digits(s)
  {
    if s == "" then 0.0 else Digit(s[0]) as real * place + Worth(s[1..], place / 10.0)
  }

  lemma NextDigit(place: real, digit: real, fraction: real)
    ensures place * 10.0 * ((digit + fraction) / 10.0) == digit * place + place / 10.0 * 10.0 * fraction
  {
  }

  lemma {:induction false} WorthIs(s: string, place: real)
    requires Digits(s)
    ensures Worth(s, place) == place * 10.0 * Fraction(s)
  {
    if s != "" {
      WorthIs(s[1..], place / 10.0);
      NextDigit(place, Digit(s[0]) as real, Fraction(s[1..]));
    }
  }

  lemma FractionIsWorth(s: string)
    requires Digits(s)
    ensures Worth(s, 0.1) == Fraction(s)
  {
    WorthIs(s, 0.1);
  }

  lemma CutNext(s: string, ch: nat, left: string, rest: string)
    requires ch < |s| && IsDigit(s[ch]) && CutDigits(s[ch..]) == Cut(left, rest) && Digits(left)
    ensures left != "" && left[0] == s[ch] && CutDigits(s[ch + 1..]) == Cut(left[1..], rest)
  {
  }

  lemma HeadIsDigits(s: string)
    ensures Digits(CutDigits(s).head)
  {
  }

  lemma CutEnds(s: string, ch: nat, place: real)
    requires ch <= |s| && (ch < |s| ==> !IsDigit(s[ch]))
    ensures CutDigits(s[ch..]) == Cut("", s[ch..]) && Worth("", place) == 0.0
  {
  }

  method AddDigit(n: real, c: char, place: real, ghost left: string, ghost total: real) returns (r: real)
    requires Digits(left) && left != "" && left[0] == c && n + Worth(left, place) == total
    ensures r + Worth(left[1..], place / 10.0) == total
  {
    r := n + Digit(c) as real * place;
  }

  /** The digits after the point, each worth a tenth of the one before. */
  method ReadFraction(s: string, from: nat, whole: real) returns (ch: nat, n: real)
    requires from <= |s|
    ensures from <= ch <= |s| && s[ch..] == CutDigits(s[from..]).rest
    ensures Digits(CutDigits(s[from..]).head) && n == whole + Fraction(CutDigits(s[from..]).head)
  {
    ghost var cut := CutDigits(s[from..]);
    HeadIsDigits(s[from..]);
    ghost var left := cut.head;
    var place := 0.1;
    ch, n := from, whole;
    while ch < |s| && IsDigit(s[ch])
      invariant from <= ch <= |s| && CutDigits(s[ch..]) == Cut(left, cut.rest) && Digits(left)
      invariant n + Worth(left, place) == whole + Worth(cut.head, 0.1)
      decreases |s| - ch
    {
      CutNext(s, ch, left, cut.rest);
      n := AddDigit(n, s[ch], place, left, whole + Worth(cut.head, 0.1));
      left, place, ch := left[1..], place / 10.0, ch + 1;
    }
    CutEnds(s, ch, place);
    FractionIsWorth(cut.head);
  }

  // ----- writing

  const BILLION := 1000000000

  function Character(d: int): char
    requires 0 <= d < 10
  {
    ('0' as int + d) as char
  }

  function Decimal(n: nat): string {
    if n < 10 then [Character(n)] else Decimal(n / 10) + [Character(n % 10)]
  }

  /** The last `k` digits, with zeros in front. */
  function Padded(n: nat, k: nat): string {
    if k == 0 then "" else Padded(n / 10, k - 1) + [Character(n % 10)]
  }

  function Abs(m: int): nat { if m < 0 then -m else m }

  /** A number of billionths with nine decimals, as `%.9f` prints it. */
  function Printed(m: int): string {
    (if m < 0 then "-" else "") + Decimal(Abs(m) / BILLION) + "." + Padded(Abs(m) % BILLION, 9)
  }

  function WithoutZeros(s: string): string {
    if s != "" && s[|s| - 1] == '0' then WithoutZeros(s[..|s| - 1]) else s
  }

  /** The numeral that is left when the zeros at the end, and then the point, are gone. */
  function NumeralOf(m: int): Numeral {
    var fraction := WithoutZeros(Padded(Abs(m) % BILLION, 9));
    Numeral(if m < 0 then "-" else "", Decimal(Abs(m) / BILLION), fraction != "", fraction)
  }

  lemma {:induction false} DecimalIs(n: nat)
    ensures Digits(Decimal(n)) && Whole(Decimal(n)) == n && Decimal(n) != ""
  {
    if n >= 10 {
      DecimalIs(n / 10);
      LastDigit(Decimal(n / 10), n % 10);
    }
  }

  lemma LastDigit(s: string, d: int)
    requires Digits(s) && 0 <= d < 10
    ensures Digits(s + [Character(d)]) && Whole(s + [Character(d)]) == 10 * Whole(s) + d
  {
  }

  function Power(k: nat): int { if k == 0 then 1 else 10 * Power(k - 1) }

  lemma {:induction false} PaddedIs(n: nat, k: nat)
    requires n < Power(k)
    ensures |Padded(n, k)| == k && Digits(Padded(n, k)) && Whole(Padded(n, k)) == n
  {
    if k > 0 {
      PaddedIs(n / 10, k - 1);
      LastDigit(Padded(n / 10, k - 1), n % 10);
    }
  }

  lemma {:induction false} WholeFirst(c: char, s: string)
    requires IsDigit(c) && Digits(s)
    ensures Digits([c] + s) && Whole([c] + s) == Digit(c) * Power(|s|) + Whole(s)
  {
    if s == "" {
      assert [c] + s == [c];
      assert Whole([c]) == 10 * Whole([c][..0]) + Digit(c);
    } else {
      var front, last := s[..|s| - 1], s[|s| - 1];
      WholeFirst(c, front);
      assert ([c] + s)[..|s|] == [c] + front;
      Shift(Digit(c), Power(|front|), Whole(front), Digit(last));
    }
  }

  lemma Shift(c: int, p: int, w: int, d: int)
    ensures 10 * (c * p + w) + d == c * (10 * p) + (10 * w + d)
  {
  }

  /** `x` is `w` divided by `p`. */
  predicate Scaled(x: real, p: int, w: int) { x * p as real == w as real }

  /** Digits after the point are those before it, divided by a power of ten. */
  lemma {:induction false} FractionIsWhole(s: string)
    requires Digits(s)
    ensures Scaled(Fraction(s), Power(|s|), Whole(s))
  {
    if s != "" {
      FractionIsWhole(s[1..]);
      assert s == [s[0]] + s[1..];
      WholeFirst(s[0], s[1..]);
      Tenth(Digit(s[0]), Fraction(s[1..]), Power(|s[1..]|), Whole(s[1..]));
      assert Power(|s|) == 10 * Power(|s[1..]|);
    }
  }

  lemma Tenth(d: int, f: real, p: int, w: int)
    requires Scaled(f, p, w)
    ensures Scaled((d as real + f) / 10.0, 10 * p, d * p + w)
  {
  }

  lemma {:induction false} ZerosAreNothing(s: string)
    requires Digits(s)
    ensures Digits(WithoutZeros(s)) && Fraction(WithoutZeros(s)) == Fraction(s) && WithoutZeros(s) <= s
  {
    if s != "" && s[|s| - 1] == '0' {
      ZerosAreNothing(s[..|s| - 1]);
      OneZero(s[..|s| - 1]);
      assert s == s[..|s| - 1] + "0";
    }
  }

  lemma {:induction false} OneZero(s: string)
    requires Digits(s)
    ensures Fraction(s + "0") == Fraction(s)
  {
    if s == "" {
      assert s + "0" == "0";
      assert Fraction("0") == (0.0 + Fraction("0"[1..])) / 10.0;
    } else {
      assert (s + "0")[1..] == s[1..] + "0";
      OneZero(s[1..]);
    }
  }

  /** The numeral stands for the number. */
  lemma NumeralMeans(m: int)
    ensures IsNumeral(NumeralOf(m)) && Meaning(NumeralOf(m)) == m as real / BILLION as real
  {
    var a := Abs(m);
    var padded := Padded(a % BILLION, 9);
    assert Power(9) == BILLION by { NinthPower(); }
    PaddedIs(a % BILLION, 9);
    DecimalIs(a / BILLION);
    ZerosAreNothing(padded);
    FractionIsWhole(padded);
    Parts(a, Fraction(padded));
  }

  lemma NinthPower()
    ensures Power(9) == BILLION
  {
  }

  lemma Parts(a: nat, f: real)
    requires f * BILLION as real == (a % BILLION) as real
    ensures (a / BILLION) as real + f == a as real / BILLION as real
  {
  }

  /** `string_value` for a number: prints it and takes the zeros off its end. */
  method StringValue(m: int) returns (s: string)
    ensures s == Written(NumeralOf(m))
  {
    ghost var before := (if m < 0 then "-" else "") + Decimal(Abs(m) / BILLION) + ".";
    ghost var fraction := Padded(Abs(m) % BILLION, 9);
    s := Printed(m);
    NinthPower();
    PaddedIs(Abs(m) % BILLION, 9);
    while s[|s| - 1] == '0'
      invariant s == before + fraction && Digits(fraction)
        && WithoutZeros(fraction) == WithoutZeros(Padded(Abs(m) % BILLION, 9))
      decreases |s|
    {
      assert fraction != "" && s[|s| - 1] == fraction[|fraction| - 1];
      assert s[..|s| - 1] == before + fraction[..|fraction| - 1];
      s, fraction := s[..|s| - 1], fraction[..|fraction| - 1];
    }
    assert fraction != "" ==> s[|s| - 1] == fraction[|fraction| - 1] && IsDigit(fraction[|fraction| - 1]);
    assert fraction == WithoutZeros(Padded(Abs(m) % BILLION, 9));
    Regroup((if m < 0 then "-" else "") + Decimal(Abs(m) / BILLION), ".", fraction);
    if s[|s| - 1] == '.' {
      assert fraction == "" && before + "" == before;
      s := s[..|s| - 1];
      assert s == Written(NumeralOf(m)) + "";
    }
  }

  /** A number that is written is read back as the same number. */
  lemma RoundTrip(m: int)
    ensures IsNumeral(NumeralOf(m))
    ensures var n := NumeralOf(m);
      IsNumber(Written(n)) && ReadNumeral(Written(n)).numeral == n && Meaning(n) == m as real / BILLION as real
  {
    NumeralMeans(m);
    DecimalIs(Abs(m) / BILLION);
    ReadOfWritten(NumeralOf(m));
  }
}
