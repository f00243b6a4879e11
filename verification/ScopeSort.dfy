/** Sorting the items of a scope by their keys.

The keys are first brought to one type: as long as every key is a number they are
compared as numbers, and from the first that is not they are all compared as texts.
The list of scope items is then sorted by a comb sort.
*/
module ScopeSort {
  import opened Wrappers

  // ----- keys

  datatype KeyType = Unknown | Text | Number

  /** The value of a key expression; a computed number has no text until it needs one. */
  datatype Key = Key(kind: KeyType, s: Option<string>, n: real)

  datatype SortType = ByNumber | ByText

  /** How texts are read as numbers, and numbers written as texts. */
  datatype Conversion = Conversion(read: string -> Option<real>, write: real -> string)

  predicate WellFormed(k: Key) { k.kind != Number ==> k.s.Some? }

  /** A value that is not marked as a text and can be a number. */
  predicate Numeric(c: Conversion, k: Key) {
    k.kind == Number || (k.kind == Unknown && k.s.Some? && k.s.value != "" && c.read(k.s.value).Some?)
  }

  function NumberOf(c: Conversion, k: Key): real
    requires Numeric(c, k)
  {
    if k.kind == Number then k.n else c.read(k.s.value).value
  }

  function TextOf(c: Conversion, k: Key): string {
    if k.s.Some? then k.s.value else c.write(k.n)
  }

  /** `number_value`: an unknown text becomes a number, or a text. */
  function ToNumber(c: Conversion, k: Key): Key {
    if k.kind == Number || k.s.None? || k.s.value == "" then k
    else
      var n := c.read(k.s.value);
      if n.Some? then Key(Number, k.s, n.value) else Key(Text, k.s, k.n)
  }

  /** `string_value`: a value gets its text. */
  function ToText(c: Conversion, k: Key): Key { k.(s := Some(TextOf(c, k))) }

  /** The key that is kept for a value, and the type of sort from then on. */
  method SaveKey(c: Conversion, value: Key, order: SortType) returns (key: Key, order': SortType)
    requires WellFormed(value)
    ensures WellFormed(key) && TextOf(c, key) == TextOf(c, value)
    ensures order' == if order == ByNumber && Numeric(c, value) then ByNumber else ByText
    ensures order' == ByNumber ==> key.kind == Number && key.n == NumberOf(c, value)
  {
    if value.kind == Unknown && order == ByNumber {
      key := ToNumber(c, value);
    } else {
      key := ToText(c, value);
    }
    order' := if key.kind != Number then ByText else order;
  }

  /** The keys of all values, and how they are to be compared: as numbers if and only if
      every one of them is a number; otherwise as texts. */
  method SaveKeys(c: Conversion, values: seq<Key>) returns (keys: seq<Key>, order: SortType)
    requires forall v <- values :: WellFormed(v)
    ensures |keys| == |values|
    ensures forall i | 0 <= i < |keys| :: WellFormed(keys[i]) && TextOf(c, keys[i]) == TextOf(c, values[i])
    ensures order == ByNumber <==> forall v <- values :: Numeric(c, v)
    ensures order == ByNumber ==>
      forall i | 0 <= i < |keys| :: keys[i].kind == Number && keys[i].n == NumberOf(c, values[i])
  {
    keys, order := [], ByNumber;
    for i := 0 to |values|
      invariant |keys| == i
      invariant forall j | 0 <= j < i :: WellFormed(keys[j]) && TextOf(c, keys[j]) == TextOf(c, values[j])
      invariant order == ByNumber <==> forall v <- values[..i] :: Numeric(c, v)
      invariant order == ByNumber ==>
        forall j | 0 <= j < i :: keys[j].kind == Number && keys[j].n == NumberOf(c, values[j])
    {
      var key;
      key, order := SaveKey(c, values[i], order);
      keys := keys + [key];
      assert values[..i + 1] == values[..i] + [values[i]];
    }
    assert values[..|values|] == values;
  }

  // ----- comparing

  /** `strcmp (a, b) > 0` */
  predicate TextGreater(a: string, b: string) {
    if a == "" then false
    else if b == "" then true
    else a[0] > b[0] || (a[0] == b[0] && TextGreater(a[1..], b[1..]))
  }

  lemma {:induction false} TextTotal(a: string, b: string)
    ensures TextGreater(a, b) ==> !TextGreater(b, a)
  {
    if a != "" && b != "" { TextTotal(a[1..], b[1..]); }
  }

  lemma {:induction false} TextTransitive(a: string, b: string, c: string)
    requires !TextGreater(a, b) && !TextGreater(b, c)
    ensures !TextGreater(a, c)
  {
    if a != "" && b != "" && c != "" && a[0] == b[0] == c[0] { TextTransitive(a[1..], b[1..], c[1..]); }
  }

  datatype ScopeItem = ScopeItem(item: nat, key: Key)

  predicate Greater(c: Conversion, order: SortType, a: ScopeItem, b: ScopeItem) {
    if order == ByText then TextGreater(TextOf(c, a.key), TextOf(c, b.key)) else a.key.n > b.key.n
  }

  predicate Leq(c: Conversion, order: SortType, a: ScopeItem, b: ScopeItem) { !Greater(c, order, a, b) }

  lemma LeqTotal(c: Conversion, order: SortType, a: ScopeItem, b: ScopeItem)
    ensures Leq(c, order, a, b) || Leq(c, order, b, a)
  {
    TextTotal(TextOf(c, a.key), TextOf(c, b.key));
  }

  lemma LeqTransitive(c: Conversion, order: SortType, x: ScopeItem, y: ScopeItem, z: ScopeItem)
    requires Leq(c, order, x, y) && Leq(c, order, y, z)
    ensures Leq(c, order, x, z)
  {
    if order == ByText { TextTransitive(TextOf(c, x.key), TextOf(c, y.key), TextOf(c, z.key)); }
  }

  // ----- comb sort

  predicate Sorted(c: Conversion, order: SortType, s: seq<ScopeItem>) { Settled(c, order, s, 0) }

  /** Everything from `from` on is in its place. */
  predicate Settled(c: Conversion, order: SortType, s: seq<ScopeItem>, from: int) {
    forall i, j | 0 <= i < j < |s| && from <= j :: Leq(c, order, s[i], s[j])
  }

  lemma {:induction false} StepsAreSorted(c: Conversion, order: SortType, s: seq<ScopeItem>, i: nat, j: nat)
    requires forall k | 0 <= k < |s| - 1 :: Leq(c, order, s[k], s[k + 1])
    requires i < j < |s|
    ensures Leq(c, order, s[i], s[j])
  {
    if i + 1 < j {
      StepsAreSorted(c, order, s, i, j - 1);
      LeqTransitive(c, order, s[i], s[j - 1], s[j]);
    }
  }

  /** Before the `b`-th step of a pass over neighbours the largest item so far is at `b`. */
  predicate Bubbled(c: Conversion, order: SortType, s: seq<ScopeItem>, b: nat) {
    b < |s| && forall i | 0 <= i < b :: Leq(c, order, s[i], s[b])
  }

  /** Two items, in order. */
  function Exchanged(c: Conversion, order: SortType, s: seq<ScopeItem>, i: nat, j: nat): (t: seq<ScopeItem>)
    requires i < j < |s|
    ensures |t| == |s|
  {
    if Greater(c, order, s[i], s[j]) then s[i := s[j]][j := s[i]] else s
  }

  lemma Bubble(c: Conversion, order: SortType, s: seq<ScopeItem>, b: nat, from: int)
    requires b + 1 < |s| && Bubbled(c, order, s, b) && Settled(c, order, s, from)
    ensures var t := Exchanged(c, order, s, b, b + 1);
      && Bubbled(c, order, t, b + 1) && Settled(c, order, t, from)
      && Leq(c, order, t[b], t[b + 1]) && (from == 0 ==> t == s)
  {
    var t := Exchanged(c, order, s, b, b + 1);
    LeqTotal(c, order, s[b], s[b + 1]);
    forall i | 0 <= i < b + 1 ensures Leq(c, order, t[i], t[b + 1]) {
      if i < b && t == s { LeqTransitive(c, order, s[i], s[b], s[b + 1]); }
    }
  }

  method Exchange(c: Conversion, order: SortType, a: array<ScopeItem>, i: nat, j: nat) returns (swapped: bool)
    requires i < j < a.Length
    modifies a
    ensures a[..] == Exchanged(c, order, old(a[..]), i, j) && multiset(a[..]) == multiset(old(a[..]))
    ensures !swapped ==> a[..] == old(a[..]) && Leq(c, order, a[i], a[j])
    ensures swapped ==> Greater(c, order, old(a[i]), old(a[j]))
  {
    swapped := Greater(c, order, a[i], a[j]);
    if swapped { a[i], a[j] := a[j], a[i]; }
  }

  predicate Stepped(c: Conversion, order: SortType, s: seq<ScopeItem>, b: nat) {
    forall k | 0 <= k < b && k + 1 < |s| :: Leq(c, order, s[k], s[k + 1])
  }

  /** What a pass over neighbours has done before its `b`-th step. */
  predicate Passing(c: Conversion, order: SortType, s: seq<ScopeItem>, b: nat, from: nat, swapped: bool) {
    && Settled(c, order, s, from) && Bubbled(c, order, s, b)
    && (0 < from <= b + 1 ==> Settled(c, order, s, from - 1))
    && (if swapped then from > 0 else Stepped(c, order, s, b))
  }

  lemma NextStep(c: Conversion, order: SortType, s: seq<ScopeItem>, b: nat, from: nat, swapped: bool)
    requires b + 1 < |s| && Passing(c, order, s, b, from, swapped)
    ensures Passing(c, order, Exchanged(c, order, s, b, b + 1), b + 1, from,
      swapped || Greater(c, order, s[b], s[b + 1]))
  {
    Bubble(c, order, s, b, from);
    if 0 < from <= b + 1 { Bubble(c, order, s, b, from - 1); }
  }

  lemma LastStep(c: Conversion, order: SortType, s: seq<ScopeItem>, from: nat)
    requires s != [] && from <= |s| && Passing(c, order, s, |s| - 1, from, false)
    ensures Sorted(c, order, s)
  {
    forall i: nat, j: nat | i < j < |s| ensures Leq(c, order, s[i], s[j]) {
      StepsAreSorted(c, order, s, i, j);
    }
  }

  /** A pass over the items that are `jump` apart. Over neighbours, either no two were out
      of order and all are sorted, or one more item is in its place. */
  method Pass(c: Conversion, order: SortType, a: array<ScopeItem>, jump: nat, ghost from: nat) returns (swapped: bool)
    requires jump <= a.Length && from <= a.Length && (jump == 0 <==> a.Length == 0) && Settled(c, order, a[..], from)
    modifies a
    ensures multiset(a[..]) == multiset(old(a[..]))
    ensures jump <= 1 && swapped ==> jump == 1 && from > 0 && Settled(c, order, a[..], from - 1)
    ensures jump <= 1 && !swapped ==> Sorted(c, order, a[..])
  {
    swapped := false;
    var base, swap := 0, jump;
    while swap < a.Length
      invariant swap == base + jump <= a.Length && multiset(a[..]) == multiset(old(a[..]))
      invariant a.Length == 0 ==> !swapped
      invariant jump == 1 ==> Passing(c, order, a[..], base, from, swapped)
    {
      if jump == 1 { NextStep(c, order, a[..], base, from, swapped); }
      var s := Exchange(c, order, a, base, swap);
      swapped := swapped || s;
      base, swap := base + 1, swap + 1;
    }
    if jump == 1 && !swapped { LastStep(c, order, a[..], from); }
  }

  /** The comb sort. */
  method ListSort(c: Conversion, order: SortType, a: array<ScopeItem>)
    modifies a
    ensures Sorted(c, order, a[..]) && multiset(a[..]) == multiset(old(a[..]))
  {
    var jump: nat, swapped := a.Length, true;
    ghost var from: nat := a.Length;
    while jump > 1 || swapped
      invariant jump <= a.Length && (a.Length > 0 ==> jump > 0) && from <= a.Length
      invariant multiset(a[..]) == multiset(old(a[..])) && Settled(c, order, a[..], from)
      invariant jump <= 1 && !swapped ==> Sorted(c, order, a[..])
      decreases jump, from, swapped
    {
      jump := (10 * jump + 3) / 13;
      swapped := Pass(c, order, a, jump, from);
      from := if jump > 1 then a.Length else if jump == 1 && swapped then from - 1 else from;
    }
  }
}
