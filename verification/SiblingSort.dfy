/** Sorting the items of a scope where they are.

The items of a scope are some of the children of one item, in their order. The sort
first finds for each the sibling after it that is not in the scope, its anchor; it then
sorts the scope and moves its items, one by one, in front of the anchors. What is not in
the scope stays where it is, and the places of the scope are filled in sorted order.
*/
module SiblingSort {
  import opened ScopeSort
  import opened Wrappers

  predicate Distinct(s: seq<nat>) {
    forall i, j | 0 <= i < j < |s| :: s[i] != s[j]
  }

  // ----- the children of an item

  function Without(s: seq<nat>, x: nat): seq<nat> {
    if s == [] then [] else if s[0] == x then s[1..] else [s[0]] + Without(s[1..], x)
  }

  /** In front of a sibling, or at the end. */
  function Inserted(s: seq<nat>, x: nat, before: Option<nat>): seq<nat> {
    if s == [] then [x]
    else if before == Some(s[0]) then [x] + s
    else [s[0]] + Inserted(s[1..], x, before)
  }

  function After(s: seq<nat>, x: nat): Option<nat> {
    if s == [] then None
    else if s[0] == x then (if |s| > 1 then Some(s[1]) else None)
    else After(s[1..], x)
  }

  /** The children of an item. */
  class Children {
    var items: seq<nat>

    constructor (items: seq<nat>)
      ensures this.items == items
    {
      this.items := items;
    }

    method NextSibling(x: nat) returns (next: Option<nat>)
      ensures next == After(items, x)
    {
      var i := 0;
      while i < |items| && items[i] != x
        invariant i <= |items| && After(items, x) == After(items[i..], x)
      {
        assert items[i..][1..] == items[i + 1..];
        i := i + 1;
      }
      next := if i + 1 < |items| then Some(items[i + 1]) else None;
    }

    /** Takes an item out and puts it in front of a sibling, or at the end. */
    method Move(x: nat, before: Option<nat>)
      requires before != Some(x)
      modifies this
      ensures items == Inserted(Without(old(items), x), x, before)
    {
      Detach(x);
      Attach(x, before);
    }

    method Detach(x: nat)
      modifies this
      ensures items == Without(old(items), x)
    {
      var i := 0;
      while i < |items| && items[i] != x
        invariant i <= |items| && items == old(items)
        invariant Without(items, x) == items[..i] + Without(items[i..], x)
      {
        assert items[i..][1..] == items[i + 1..];
        i := i + 1;
      }
      if i < |items| {
        assert items[i..][1..] == items[i + 1..];
        items := items[..i] + items[i + 1..];
      }
    }

    method Attach(x: nat, before: Option<nat>)
      modifies this
      ensures items == Inserted(old(items), x, before)
    {
      var i := 0;
      while i < |items| && before != Some(items[i])
        invariant i <= |items| && items == old(items)
        invariant Inserted(items, x, before) == items[..i] + Inserted(items[i..], x, before)
      {
        assert items[i..][1..] == items[i + 1..];
        i := i + 1;
      }
      items := items[..i] + [x] + items[i..];
    }
  }

  // ----- scopes

  /** The children that are in a scope. */
  function Members(s: seq<nat>, scope: set<nat>): seq<nat> {
    if s == [] then [] else (if s[0] in scope then [s[0]] else []) + Members(s[1..], scope)
  }

  /** The places of the scope filled with other items, in their order. */
  function Refilled(s: seq<nat>, scope: set<nat>, items: seq<nat>): (r: seq<nat>)
    requires |items| == |Members(s, scope)|
    ensures |r| == |s|
  {
    if s == [] then []
    else if s[0] in scope then [items[0]] + Refilled(s[1..], scope, items[1..])
    else [s[0]] + Refilled(s[1..], scope, items)
  }

  /** What is not in the scope keeps its place. */
  lemma {:induction false} OthersStay(s: seq<nat>, scope: set<nat>, items: seq<nat>, i: nat)
    requires |items| == |Members(s, scope)| && i < |s| && s[i] !in scope
    ensures Refilled(s, scope, items)[i] == s[i]
  {
    if i > 0 { OthersStay(s[1..], scope, if s[0] in scope then items[1..] else items, i - 1); }
  }

  /** The places of the scope hold the new items, in order. */
  lemma {:induction false} PlacesFilled(s: seq<nat>, scope: set<nat>, items: seq<nat>)
    requires |items| == |Members(s, scope)| && forall x <- items :: x in scope
    ensures Members(Refilled(s, scope, items), scope) == items
  {
    if s != [] {
      PlacesFilled(s[1..], scope, if s[0] in scope then items[1..] else items);
    }
  }

  /** Filling the places with what they hold changes nothing. */
  lemma {:induction false} RefillSame(s: seq<nat>, scope: set<nat>)
    ensures Refilled(s, scope, Members(s, scope)) == s
  {
    if s != [] {
      RefillSame(s[1..], scope);
      var rest := Members(s[1..], scope);
      assert ([s[0]] + rest)[1..] == rest && [] + rest == rest;
    }
  }

  // ----- anchors

  function FirstOutside(s: seq<nat>, scope: set<nat>): Option<nat> {
    if s == [] then None else if s[0] in scope then FirstOutside(s[1..], scope) else Some(s[0])
  }

  /** The anchor of the `k`-th place of the scope. */
  function Anchor(s: seq<nat>, scope: set<nat>, k: nat): Option<nat> {
    if s == [] then None
    else if s[0] !in scope then Anchor(s[1..], scope, k)
    else if k == 0 then FirstOutside(s[1..], scope)
    else Anchor(s[1..], scope, k - 1)
  }

  // ----- moving

  /** The children when the items in `gone` have been taken out, and those in `placed` put
      in front of the anchors of the first places; `run` is what waits for the next anchor. */
  function Partly(s: seq<nat>, scope: set<nat>, gone: set<nat>, placed: seq<nat>, run: seq<nat>): seq<nat> {
    if s == [] then run
    else if s[0] in scope then
      (if s[0] in gone then [] else [s[0]])
      + Partly(s[1..], scope, gone, if placed == [] then [] else placed[1..],
               if placed == [] then run else run + [placed[0]])
    else run + [s[0]] + Partly(s[1..], scope, gone, placed, [])
  }

  lemma {:induction false} NothingMoved(s: seq<nat>, scope: set<nat>)
    ensures Partly(s, scope, {}, [], []) == s
  {
    if s != [] { NothingMoved(s[1..], scope); }
  }

  lemma {:induction false} AllMoved(s: seq<nat>, scope: set<nat>, placed: seq<nat>, run: seq<nat>)
    requires |placed| == |Members(s, scope)|
    ensures Partly(s, scope, scope, placed, run) == run + Refilled(s, scope, placed)
  {
    if s != [] {
      if s[0] in scope {
        AllMoved(s[1..], scope, placed[1..], run + [placed[0]]);
      } else {
        AllMoved(s[1..], scope, placed, []);
      }
    }
  }

  lemma {:induction false} WithoutSum(a: seq<nat>, b: seq<nat>, x: nat)
    requires x !in a
    ensures Without(a + b, x) == a + Without(b, x)
  {
    if a == [] {
      assert a + b == b;
    } else {
      assert (a + b)[1..] == a[1..] + b;
      WithoutSum(a[1..], b, x);
    }
  }

  lemma {:induction false} InsertedSum(a: seq<nat>, b: seq<nat>, y: nat, before: Option<nat>)
    requires before.Some? ==> before.value !in a
    ensures Inserted(a + b, y, before) == a + Inserted(b, y, before)
  {
    if a == [] {
      assert a + b == b;
    } else {
      assert (a + b)[1..] == a[1..] + b;
      InsertedSum(a[1..], b, y, before);
    }
  }

  lemma {:induction false} GoneElsewhere(s: seq<nat>, scope: set<nat>, gone: set<nat>, placed: seq<nat>, run: seq<nat>,
                                         x: nat)
    requires x !in s
    ensures Partly(s, scope, gone, placed, run) == Partly(s, scope, gone + {x}, placed, run)
  {
    if s != [] {
      if s[0] in scope {
        GoneElsewhere(s[1..], scope, gone, if placed == [] then [] else placed[1..],
                      if placed == [] then run else run + [placed[0]], x);
      } else {
        GoneElsewhere(s[1..], scope, gone, placed, [], x);
      }
    }
  }

  /** Taking out an item that has not moved. */
  lemma {:induction false} TakeOut(s: seq<nat>, scope: set<nat>, gone: set<nat>, placed: seq<nat>, run: seq<nat>,
                                   x: nat)
    requires Distinct(s) && x in s && x in scope && x !in gone && x !in placed && x !in run
    ensures Without(Partly(s, scope, gone, placed, run), x) == Partly(s, scope, gone + {x}, placed, run)
  {
    if s[0] in scope {
      var placed', run' := if placed == [] then [] else placed[1..], if placed == [] then run else run + [placed[0]];
      if s[0] == x {
        GoneElsewhere(s[1..], scope, gone, placed', run', x);
      } else {
        TakeOut(s[1..], scope, gone, placed', run', x);
        WithoutSum(if s[0] in gone then [] else [s[0]], Partly(s[1..], scope, gone, placed', run'), x);
      }
    } else {
      TakeOut(s[1..], scope, gone, placed, [], x);
      WithoutSum(run + [s[0]], Partly(s[1..], scope, gone, placed, []), x);
    }
  }

  lemma {:induction false} FirstOutsideIs(s: seq<nat>, scope: set<nat>)
    ensures FirstOutside(s, scope).Some? ==> FirstOutside(s, scope).value in s && FirstOutside(s, scope).value !in scope
  {
    if s != [] { FirstOutsideIs(s[1..], scope); }
  }

  lemma {:induction false} AnchorIs(s: seq<nat>, scope: set<nat>, k: nat)
    ensures Anchor(s, scope, k).Some? ==> Anchor(s, scope, k).value in s && Anchor(s, scope, k).value !in scope
  {
    if s != [] {
      AnchorIs(s[1..], scope, k);
      if k > 0 { AnchorIs(s[1..], scope, k - 1); }
      FirstOutsideIs(s[1..], scope);
    }
  }

  /** Putting an item at the end of the run before the next anchor. */
  lemma {:induction false} EndOfRun(s: seq<nat>, scope: set<nat>, gone: set<nat>, run: seq<nat>, y: nat)
    requires Distinct(s) && forall x <- run :: x in scope
    ensures Inserted(Partly(s, scope, gone, [], run), y, FirstOutside(s, scope))
      == Partly(s, scope, gone, [], run + [y])
  {
    FirstOutsideIs(s, scope);
    if s == [] {
      InsertedSum(run, [], y, None);
      assert run + [] == run;
    } else if s[0] in scope {
      EndOfRun(s[1..], scope, gone, run, y);
      InsertedSum(if s[0] in gone then [] else [s[0]], Partly(s[1..], scope, gone, [], run), y, FirstOutside(s, scope));
    } else {
      var rest := Partly(s[1..], scope, gone, [], []);
      InsertedSum(run, [s[0]] + rest, y, Some(s[0]));
      assert run + [s[0]] + rest == run + ([s[0]] + rest);
      assert run + [y] + [s[0]] + rest == run + ([y] + ([s[0]] + rest));
    }
  }

  /** The step past a first child of the scope, when items are placed before it. */
  lemma PastMember(s: seq<nat>, scope: set<nat>, gone: set<nat>, placed: seq<nat>, run: seq<nat>, y: nat,
                   anchor: Option<nat>)
    requires s != [] && s[0] in scope && placed != [] && (anchor.Some? ==> anchor.value !in scope)
    requires Inserted(Partly(s[1..], scope, gone, placed[1..], run + [placed[0]]), y, anchor)
      == Partly(s[1..], scope, gone, placed[1..] + [y], run + [placed[0]])
    ensures Inserted(Partly(s, scope, gone, placed, run), y, anchor) == Partly(s, scope, gone, placed + [y], run)
  {
    var head := if s[0] in gone then [] else [s[0]];
    InsertedSum(head, Partly(s[1..], scope, gone, placed[1..], run + [placed[0]]), y, anchor);
    assert (placed + [y])[1..] == placed[1..] + [y] && (placed + [y])[0] == placed[0];
  }

  /** The step past a first child that is not in the scope. */
  lemma PastOther(s: seq<nat>, scope: set<nat>, gone: set<nat>, placed: seq<nat>, run: seq<nat>, y: nat,
                  anchor: Option<nat>)
    requires s != [] && s[0] !in scope && (anchor.Some? ==> anchor.value !in run && anchor.value != s[0])
    requires Inserted(Partly(s[1..], scope, gone, placed, []), y, anchor)
      == Partly(s[1..], scope, gone, placed + [y], [])
    ensures Inserted(Partly(s, scope, gone, placed, run), y, anchor) == Partly(s, scope, gone, placed + [y], run)
  {
    InsertedSum(run + [s[0]], Partly(s[1..], scope, gone, placed, []), y, anchor);
  }

  /** At the first place: the item goes to the end of the run. */
  lemma AtFirstPlace(s: seq<nat>, scope: set<nat>, gone: set<nat>, run: seq<nat>, y: nat)
    requires Distinct(s) && s != [] && s[0] in scope && forall x <- run :: x in scope
    ensures Inserted(Partly(s, scope, gone, [], run), y, FirstOutside(s[1..], scope))
      == Partly(s, scope, gone, [y], run)
  {
    var head := if s[0] in gone then [] else [s[0]];
    EndOfRun(s[1..], scope, gone, run, y);
    FirstOutsideIs(s[1..], scope);
    InsertedSum(head, Partly(s[1..], scope, gone, [], run), y, FirstOutside(s[1..], scope));
    assert [y][1..] == [] && run + [[y][0]] == run + [y];
  }

  /** Putting the next item in front of the anchor of the next place. */
  lemma {:induction false} PutIn(s: seq<nat>, scope: set<nat>, gone: set<nat>, placed: seq<nat>, run: seq<nat>, y: nat)
    requires Distinct(s) && |placed| < |Members(s, scope)|
    requires (forall x <- run :: x in scope) && (forall x <- placed :: x in scope)
    ensures Inserted(Partly(s, scope, gone, placed, run), y, Anchor(s, scope, |placed|))
      == Partly(s, scope, gone, placed + [y], run)
  {
    AnchorIs(s, scope, |placed|);
    if s[0] !in scope {
      AnchorIs(s[1..], scope, |placed|);
      PutIn(s[1..], scope, gone, placed, [], y);
      PastOther(s, scope, gone, placed, run, y, Anchor(s, scope, |placed|));
    } else if placed == [] {
      AtFirstPlace(s, scope, gone, run, y);
      assert placed + [y] == [y];
    } else {
      PutIn(s[1..], scope, gone, placed[1..], run + [placed[0]], y);
      PastMember(s, scope, gone, placed, run, y, Anchor(s, scope, |placed|));
    }
  }

  // ----- the sort

  function Items(s: seq<ScopeItem>): seq<nat> {
    seq(|s|, i requires 0 <= i < |s| => s[i].item)
  }

  function Elements(s: seq<nat>): set<nat> { set x | x in s }

  lemma {:induction false} MembersAre(s: seq<nat>, scope: set<nat>)
    requires Distinct(s)
    ensures Distinct(Members(s, scope)) && forall x :: x in Members(s, scope) <==> x in s && x in scope
  {
    if s != [] { MembersAre(s[1..], scope); }
  }

  /** The sibling after an item of the scope is the next one of the scope, with the same
      anchor, or it is the anchor. */
  lemma {:induction false} AnchorFromNext(s: seq<nat>, scope: set<nat>, k: nat)
    requires Distinct(s) && k < |Members(s, scope)|
    ensures var members := Members(s, scope);
      var next := After(s, members[k]);
      if next.Some? && next.value in scope then
        k + 1 < |members| && members[k + 1] == next.value && Anchor(s, scope, k) == Anchor(s, scope, k + 1)
      else Anchor(s, scope, k) == next
  {
    MembersAre(s[1..], scope);
    if s[0] in scope && k == 0 {
      if |s| > 1 { assert s[1..][0] == s[1]; }
    } else {
      var j := if s[0] in scope then k - 1 else k;
      AnchorFromNext(s[1..], scope, j);
      assert Members(s, scope)[k] == Members(s[1..], scope)[j];
      assert Members(s, scope)[k] in s[1..];
    }
  }

  /** The anchors of all the places: those of a run of neighbours are found together. */
  method FindAnchors(children: Children, items: seq<ScopeItem>, ghost scope: set<nat>)
    returns (anchors: seq<Option<nat>>)
    requires Distinct(children.items) && Items(items) == Members(children.items, scope)
    ensures |anchors| == |items| && forall k | 0 <= k < |items| :: anchors[k] == Anchor(children.items, scope, k)
  {
    ghost var s, members := children.items, Members(children.items, scope);
    MembersAre(s, scope);
    anchors := [];
    var index := 0;
    while index < |items|
      invariant index == |anchors| <= |items|
      invariant forall k | 0 <= k < index :: anchors[k] == Anchor(s, scope, k)
    {
      ghost var start := index;
      var next := children.NextSibling(items[index].item);
      var count := 1;
      AnchorFromNext(s, scope, index);
      index := index + 1;
      while next.Some? && index < |items| && next.value == items[index].item
        invariant start < index <= |items| && count == index - start && next == After(s, members[index - 1])
        invariant forall k | start <= k < index :: Anchor(s, scope, k) == Anchor(s, scope, index - 1)
      {
        AnchorFromNext(s, scope, index - 1);
        next := children.NextSibling(items[index].item);
        index, count := index + 1, count + 1;
      }
      AnchorFromNext(s, scope, index - 1);
      while count > 0
        invariant 0 <= count && |anchors| == index - count && start <= |anchors|
        invariant forall k | 0 <= k < |anchors| :: anchors[k] == Anchor(s, scope, k)
      {
        anchors, count := anchors + [next], count - 1;
      }
    }
  }

  lemma OneLess<T>(b: seq<T>, i: nat)
    requires i < |b|
    ensures multiset(b) == multiset(b[..i] + b[i + 1..]) + multiset{b[i]}
  {
    assert b == b[..i] + [b[i]] + b[i + 1..];
  }

  lemma Cancel<T>(m: multiset<T>, n: multiset<T>, x: T)
    requires m + multiset{x} == n + multiset{x}
    ensures m == n
  {
    assert m == m + multiset{x} - multiset{x} && n == n + multiset{x} - multiset{x};
  }

  lemma {:induction false} ItemsPermuted(a: seq<ScopeItem>, b: seq<ScopeItem>)
    requires multiset(a) == multiset(b)
    ensures multiset(Items(a)) == multiset(Items(b))
  {
    if a == [] {
      assert |b| == |multiset(b)| == 0;
    } else {
      var i := PlaceOf(a, b);
      ItemsPermuted(a[1..], b[..i] + b[i + 1..]);
      ItemsOneLess(a, 0);
      ItemsOneLess(b, i);
      assert a[..0] + a[1..] == a[1..];
    }
  }

  /** Where the first of the items is in another order, and that the others are the same. */
  lemma PlaceOf(a: seq<ScopeItem>, b: seq<ScopeItem>) returns (i: nat)
    requires multiset(a) == multiset(b) && a != []
    ensures i < |b| && b[i] == a[0] && multiset(a[1..]) == multiset(b[..i] + b[i + 1..])
  {
    assert a[0] in multiset(a);
    i :| 0 <= i < |b| && b[i] == a[0];
    OneLess(a, 0);
    assert a[..0] + a[1..] == a[1..];
    OneLess(b, i);
    Cancel(multiset(a[1..]), multiset(b[..i] + b[i + 1..]), a[0]);
  }

  lemma ItemsOneLess(b: seq<ScopeItem>, i: nat)
    requires i < |b|
    ensures multiset(Items(b)) == multiset(Items(b[..i] + b[i + 1..])) + multiset{b[i].item}
  {
    OneLess(Items(b), i);
    assert Items(b)[..i] + Items(b)[i + 1..] == Items(b[..i] + b[i + 1..]);
  }

  lemma DistinctPermuted(a: seq<nat>, b: seq<nat>)
    requires Distinct(a) && multiset(a) == multiset(b)
    ensures Distinct(b) && |a| == |b| && forall x :: x in a <==> x in b
  {
    assert |multiset(a)| == |a| && |multiset(b)| == |b|;
    forall x ensures x in a <==> x in b {
      assert x in a <==> x in multiset(a);
      assert x in b <==> x in multiset(b);
    }
    forall i, j | 0 <= i < j < |b| ensures b[i] != b[j] {
      if b[i] == b[j] {
        assert b == b[..i] + [b[i]] + b[i + 1..j] + [b[j]] + b[j + 1..];
        assert multiset(b)[b[i]] >= 2;
        CountOfDistinct(a, b[i]);
      }
    }
  }

  lemma {:induction false} CountOfDistinct(a: seq<nat>, x: nat)
    requires Distinct(a)
    ensures multiset(a)[x] <= 1
  {
    if a != [] {
      assert a == [a[0]] + a[1..];
      CountOfDistinct(a[1..], x);
      assert x == a[0] ==> x !in a[1..];
    }
  }

  lemma MoveOne(s: seq<nat>, scope: set<nat>, sorted: seq<nat>, k: nat)
    requires Distinct(s) && Distinct(sorted) && k < |sorted| == |Members(s, scope)|
    requires forall x <- sorted :: x in scope && x in s
    ensures var y, anchor := sorted[k], Anchor(s, scope, k);
      && anchor != Some(y)
      && Inserted(Without(Partly(s, scope, Elements(sorted[..k]), sorted[..k], []), y), y, anchor)
         == Partly(s, scope, Elements(sorted[..k + 1]), sorted[..k + 1], [])
  {
    var placed, y := sorted[..k], sorted[k];
    assert y in sorted && y !in placed;
    AnchorIs(s, scope, k);
    TakeOut(s, scope, Elements(placed), placed, [], y);
    PutIn(s, scope, Elements(placed) + {y}, placed, [], y);
    assert sorted[..k + 1] == placed + [y];
    assert Elements(sorted[..k + 1]) == Elements(placed) + {y};
  }

  /** Moves the items of the scope, in their new order, in front of their anchors. */
  method Reattach(children: Children, items: seq<ScopeItem>, anchors: seq<Option<nat>>, ghost scope: set<nat>)
    requires Distinct(children.items) && Distinct(Items(items))
      && |anchors| == |items| == |Members(children.items, scope)|
    requires forall x <- Items(items) :: x in scope && x in children.items
    requires scope == Elements(Items(items))
    requires forall k | 0 <= k < |items| :: anchors[k] == Anchor(children.items, scope, k)
    modifies children
    ensures children.items == Refilled(old(children.items), scope, Items(items))
  {
    ghost var s, sorted := children.items, Items(items);
    NothingMoved(s, scope);
    assert sorted[..0] == [] && Elements([]) == {};
    for index := 0 to |items|
      invariant children.items == Partly(s, scope, Elements(sorted[..index]), sorted[..index], [])
    {
      MoveOne(s, scope, sorted, index);
      children.Move(items[index].item, anchors[index]);
    }
    assert sorted[..|sorted|] == sorted;
    AllMoved(s, scope, sorted, []);
  }

  /** The whole sort. The items of the scope end up in order in the places that the scope
      had; every other child is where it was. */
  method SortTheItems(c: Conversion, order: SortType, children: Children, a: array<ScopeItem>, ghost scope: set<nat>)
    requires Distinct(children.items) && Items(a[..]) == Members(children.items, scope)
    requires scope == Elements(Items(a[..]))
    modifies children, a
    ensures Sorted(c, order, a[..]) && multiset(a[..]) == multiset(old(a[..]))
    ensures |Items(a[..])| == |Members(old(children.items), scope)|
    ensures children.items == Refilled(old(children.items), scope, Items(a[..]))
  {
    MembersAre(children.items, scope);
    if a.Length > 1 {
      var anchors := FindAnchors(children, a[..], scope);
      ListSort(c, order, a);
      ItemsPermuted(old(a[..]), a[..]);
      DistinctPermuted(Items(old(a[..])), Items(a[..]));
      Reattach(children, a[..], anchors, scope);
    } else {
      RefillSame(children.items, scope);
    }
  }

  // ----- sorting by the values of the keys

  /** The values of items, in the order that all of them allow: by number if every one is a
      number, and otherwise by text. */
  predicate InOrder(c: Conversion, values: seq<Key>) {
    if forall v <- values :: Numeric(c, v) then
      forall i, j | 0 <= i < j < |values| :: NumberOf(c, values[i]) <= NumberOf(c, values[j])
    else
      forall i, j | 0 <= i < j < |values| :: !TextGreater(TextOf(c, values[i]), TextOf(c, values[j]))
  }

  /** The value that belongs to each item. */
  function ValuesOf(items: seq<nat>, value: map<nat, Key>): seq<Key>
    requires forall x <- items :: x in value
  {
    seq(|items|, i requires 0 <= i < |items| => value[items[i]])
  }

  /** Each kept key is that of a value. */
  ghost predicate KeysOf(c: Conversion, a: seq<ScopeItem>, value: map<nat, Key>, order: SortType) {
    forall x <- a ::
      && x.item in value && TextOf(c, x.key) == TextOf(c, value[x.item])
      && (order == ByNumber ==> Numeric(c, value[x.item]) && x.key.n == NumberOf(c, value[x.item]))
  }

  lemma KeysPermuted(c: Conversion, a: seq<ScopeItem>, b: seq<ScopeItem>, value: map<nat, Key>, order: SortType)
    requires KeysOf(c, a, value, order) && multiset(a) == multiset(b)
    ensures KeysOf(c, b, value, order)
  {
    forall x | x in b ensures x in a {
      assert x in multiset(b);
    }
  }

  lemma SortedByValues(c: Conversion, order: SortType, a: seq<ScopeItem>, value: map<nat, Key>)
    requires Sorted(c, order, a) && KeysOf(c, a, value, order) && (forall x <- Items(a) :: x in value)
    requires order == ByNumber <==> forall v <- ValuesOf(Items(a), value) :: Numeric(c, v)
    ensures InOrder(c, ValuesOf(Items(a), value))
  {
    var values := ValuesOf(Items(a), value);
    forall i, j | 0 <= i < j < |values|
      ensures !Greater(c, order, a[i], a[j]) && a[i] in a && a[j] in a
      ensures values[i] == value[a[i].item] && values[j] == value[a[j].item]
    {
      assert Leq(c, order, a[i], a[j]);
    }
  }

  lemma SameValues(a: seq<nat>, b: seq<nat>, value: map<nat, Key>)
    requires multiset(a) == multiset(b) && (forall x <- a :: x in value)
    ensures (forall x <- b :: x in value)
    ensures forall v :: v in ValuesOf(a, value) <==> v in ValuesOf(b, value)
  {
    forall x ensures x in a <==> x in b {
      assert x in multiset(a) <==> x in multiset(b);
    }
    ValuesAre(a, value);
    ValuesAre(b, value);
  }

  lemma ValuesAre(a: seq<nat>, value: map<nat, Key>)
    requires forall x <- a :: x in value
    ensures forall v :: v in ValuesOf(a, value) <==> exists x :: x in a && value[x] == v
  {
    forall x | x in a ensures value[x] in ValuesOf(a, value) {
      var i :| 0 <= i < |a| && a[i] == x;
      assert ValuesOf(a, value)[i] == value[x];
    }
  }

  /** Keys are saved for the items of a scope, and then these are sorted: the places of the
      scope hold the same items, in the order of the values of their keys. */
  method SortByKeys(c: Conversion, children: Children, items: seq<nat>, values: seq<Key>, ghost scope: set<nat>,
                    ghost value: map<nat, Key>)
    returns (sorted: seq<nat>)
    requires Distinct(children.items) && items == Members(children.items, scope) && scope == Elements(items)
    requires |values| == |items| && (forall v <- values :: ScopeSort.WellFormed(v))
    requires forall i | 0 <= i < |items| :: items[i] in value && value[items[i]] == values[i]
    modifies children
    ensures |sorted| == |Members(old(children.items), scope)|
    ensures children.items == Refilled(old(children.items), scope, sorted)
    ensures multiset(sorted) == multiset(items) && (forall x <- sorted :: x in value)
    ensures InOrder(c, ValuesOf(sorted, value))
  {
    var keys, order := SaveKeys(c, values);
    var a := new ScopeItem[|items|](i requires 0 <= i < |items| => ScopeItem(items[i], keys[i]));
    assert Items(a[..]) == items;
    assert KeysOf(c, a[..], value, order);
    ghost var was := a[..];
    SortTheItems(c, order, children, a, scope);
    sorted := Items(a[..]);
    ItemsPermuted(was, a[..]);
    KeysPermuted(c, was, a[..], value, order);
    SameValues(items, sorted, value);
    assert ValuesOf(items, value) == values;
    SortedByValues(c, order, a[..], value);
  }
}
