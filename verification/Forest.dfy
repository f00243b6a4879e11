/** Moving items of a data tree.

`.move` takes an item and puts it among the children of another: at their end, or before
or after one of them. It goes ahead only if the new parent is not inside what is moved.
No run of such moves makes an item its own ancestor, and every other item keeps its
parent and its order among its siblings.
*/
module Forest {
  import opened SiblingSort
  import opened Wrappers

  datatype Outcome = Moved | BothGiven | NotAChild | NoParent | OwnChild | Unable

  /** Where to put an item; any of the three may be given. */
  datatype Locator = Locator(to: Option<nat>, before: Option<nat>, after: Option<nat>)

  predicate IsEmpty(at: Locator) { at.to.None? && at.before.None? && at.after.None? }

  type Parents = map<nat, nat>

  /** What is wrong with a locator, if anything is. */
  function LocatorError(at: Locator, parent: Parents): Option<Outcome> {
    if at.before.Some? && at.after.Some? then Some(BothGiven)
    else if at.before.None? && at.after.None? then None
    else
      var x := if at.before.Some? then at.before.value else at.after.value;
      if at.to.Some? && !(x in parent && parent[x] == at.to.value) then Some(NotAChild)
      else if at.to.None? && x !in parent then Some(NoParent)
      else None
  }

  /** The items from `y` up to `a`, each followed by its parent. */
  ghost predicate IsPath(parent: Parents, path: seq<nat>, y: nat, a: nat) {
    && path != [] && path[0] == y && path[|path| - 1] == a
    && forall i | 0 <= i < |path| - 1 :: path[i] in parent && parent[path[i]] == path[i + 1]
  }

  /** `a` is `y` or an ancestor of it. */
  ghost predicate IsAbove(parent: Parents, a: nat, y: nat) {
    exists path: seq<nat> :: IsPath(parent, path, y, a)
  }

  ghost predicate Rises(parent: Parents, rank: map<nat, nat>) {
    forall x <- parent :: x in rank && parent[x] in rank && rank[x] < rank[parent[x]]
  }

  lemma PathGoesOn(parent: Parents, path: seq<nat>, y: nat, a: nat)
    requires IsPath(parent, path, y, a) && |path| > 1
    ensures y in parent && path[1] == parent[y] && IsPath(parent, path[1..], path[1], a)
  {
  }

  lemma PathGrows(parent: Parents, path: seq<nat>, y: nat, a: nat)
    requires IsPath(parent, path, y, a) && a in parent
    ensures IsPath(parent, path + [parent[a]], y, parent[a])
  {
  }

  // ----- lists of children

  lemma DistinctFirst(x: nat, s: seq<nat>)
    ensures Distinct([x] + s) <==> Distinct(s) && x !in s
  {
    var t := [x] + s;
    if Distinct(t) {
      forall i, j | 0 <= i < j < |s| ensures s[i] != s[j] { assert t[i + 1] != t[j + 1]; }
      forall i | 0 <= i < |s| ensures s[i] != x { assert t[0] != t[i + 1]; }
    }
  }

  lemma {:induction false} WithoutIs(s: seq<nat>, x: nat)
    requires Distinct(s)
    ensures Distinct(Without(s, x)) && forall y :: y in Without(s, x) <==> y in s && y != x
  {
    if s != [] {
      assert s == [s[0]] + s[1..];
      DistinctFirst(s[0], s[1..]);
      if s[0] != x {
        WithoutIs(s[1..], x);
        DistinctFirst(s[0], Without(s[1..], x));
      }
    }
  }

  lemma {:induction false} InsertedIs(s: seq<nat>, x: nat, before: Option<nat>)
    requires Distinct(s) && x !in s
    ensures Distinct(Inserted(s, x, before)) && forall y :: y in Inserted(s, x, before) <==> y in s || y == x
  {
    DistinctFirst(x, s);
    if s != [] && before != Some(s[0]) {
      assert s == [s[0]] + s[1..];
      DistinctFirst(s[0], s[1..]);
      InsertedIs(s[1..], x, before);
      DistinctFirst(s[0], Inserted(s[1..], x, before));
    }
  }

  lemma {:induction false} WithoutInserted(s: seq<nat>, x: nat, before: Option<nat>)
    requires x !in s
    ensures Without(Inserted(s, x, before), x) == s
  {
    if s != [] && before != Some(s[0]) { WithoutInserted(s[1..], x, before); }
  }

  lemma {:induction false} WithoutAbsent(s: seq<nat>, x: nat)
    requires x !in s
    ensures Without(s, x) == s
  {
    if s != [] { WithoutAbsent(s[1..], x); }
  }

  /** Taking an item out and putting it back in front of what followed it. */
  lemma {:induction false} KeepsPlace(s: seq<nat>, x: nat)
    requires Distinct(s) && x in s
    ensures Inserted(Without(s, x), x, After(s, x)) == s
  {
    if s[0] == x {
      BackInFront(x, s[1..]);
    } else {
      KeepsPlace(s[1..], x);
      AfterIs(s[1..], x);
      InsertedFurther(s[0], Without(s[1..], x), x, After(s, x));
    }
  }

  lemma BackInFront(x: nat, s: seq<nat>)
    ensures Inserted(s, x, if s == [] then None else Some(s[0])) == [x] + s
  {
  }

  lemma InsertedFurther(first: nat, s: seq<nat>, x: nat, before: Option<nat>)
    requires before != Some(first)
    ensures Inserted([first] + s, x, before) == [first] + Inserted(s, x, before)
  {
    assert ([first] + s)[1..] == s;
  }

  lemma {:induction false} AfterIs(s: seq<nat>, x: nat)
    requires Distinct(s)
    ensures After(s, x).Some? ==> x in s && After(s, x).value in s && After(s, x).value != x
  {
    if s != [] && s[0] != x { AfterIs(s[1..], x); }
  }

  // ----- ancestors

  /** A higher rank for every parent leaves no room for a cycle. */
  lemma {:induction false} NoCycle(parent: Parents, rank: map<nat, nat>, path: seq<nat>, y: nat, a: nat)
    requires Rises(parent, rank) && IsPath(parent, path, y, a) && y in rank
    ensures a in rank && (|path| > 1 ==> rank[y] < rank[a] && a != y)
  {
    if |path| > 1 {
      PathGoesOn(parent, path, y, a);
      NoCycle(parent, rank, path[1..], path[1], a);
    }
  }

  /** A set that holds the parents of its items holds everything above them. */
  lemma {:induction false} ClosedUpwards(parent: Parents, seen: set<nat>, path: seq<nat>, y: nat, a: nat)
    requires (forall x <- seen :: x in parent ==> parent[x] in seen) && y in seen && IsPath(parent, path, y, a)
    ensures a in seen
  {
    if |path| > 1 {
      PathGoesOn(parent, path, y, a);
      ClosedUpwards(parent, seen, path[1..], path[1], a);
    }
  }

  // ----- the tree as maps

  type Children = map<nat, seq<nat>>

  /** Every child is in the list of its parent, and only there. */
  ghost predicate Listed(parent: Parents, children: Children) {
    && (forall x <- parent :: x in children && parent[x] in children && x in children[parent[x]])
    && forall p <- children :: ListedUnder(parent, children[p], p)
  }

  ghost predicate ListedUnder(parent: Parents, s: seq<nat>, p: nat) {
    Distinct(s) && forall c <- s :: c in parent && parent[c] == p
  }

  /** The lists of children after a move. */
  function Relinked(children: Children, from: nat, into: nat, sibling: Option<nat>): Children {
    map p | p in children :: RelinkedList(children[p], p, from, into, sibling)
  }

  function RelinkedList(s: seq<nat>, p: nat, from: nat, into: nat, sibling: Option<nat>): seq<nat> {
    if p == into then Inserted(Without(s, from), from, sibling) else Without(s, from)
  }

  lemma ListStays(parent: Parents, s: seq<nat>, p: nat, from: nat, into: nat, sibling: Option<nat>)
    requires ListedUnder(parent, s, p)
    ensures ListedUnder(parent[from := into], RelinkedList(s, p, from, into, sibling), p)
    ensures forall y ::
      y in RelinkedList(s, p, from, into, sibling) <==> (y in s && y != from) || (y == from && p == into)
  {
    WithoutIs(s, from);
    if p == into { InsertedIs(Without(s, from), from, sibling); }
  }

  lemma StillListed(parent: Parents, children: Children, from: nat, into: nat, sibling: Option<nat>)
    requires Listed(parent, children) && from in children && into in children
    ensures Listed(parent[from := into], Relinked(children, from, into, sibling))
  {
    var parent', children' := parent[from := into], Relinked(children, from, into, sibling);
    forall p | p in children ensures ListedUnder(parent', children'[p], p) {
      ListStays(parent, children[p], p, from, into, sibling);
    }
    forall x | x in parent' ensures x in children' && parent'[x] in children' && x in children'[parent'[x]] {
      ListStays(parent, children[parent'[x]], parent'[x], from, into, sibling);
    }
  }

  function TakenOut(children: Children, from: nat): Children {
    map p | p in children :: Without(children[p], from)
  }

  /** An item is taken out of the one list it is in. */
  lemma OneListChanges(parent: Parents, children: Children, from: nat)
    requires Listed(parent, children)
    ensures from in parent ==>
      TakenOut(children, from) == children[parent[from] := Without(children[parent[from]], from)]
    ensures from !in parent ==> TakenOut(children, from) == children
  {
    forall p | p in children && (from in parent ==> p != parent[from])
      ensures Without(children[p], from) == children[p]
    {
      assert ListedUnder(parent, children[p], p);
      WithoutAbsent(children[p], from);
    }
  }

  lemma PutInto(children: Children, from: nat, into: nat, sibling: Option<nat>)
    requires into in children
    ensures var out := TakenOut(children, from);
      out[into := Inserted(out[into], from, sibling)] == Relinked(children, from, into, sibling)
  {
  }

  lemma RelinkedByUpdates(parent: Parents, children: Children, from: nat, into: nat, sibling: Option<nat>)
    requires Listed(parent, children) && into in children
    ensures from in parent ==> parent[from] in children
    ensures var out := if from in parent then children[parent[from] := Without(children[parent[from]], from)]
      else children;
      into in out && out[into := Inserted(out[into], from, sibling)] == Relinked(children, from, into, sibling)
  {
    OneListChanges(parent, children, from);
    PutInto(children, from, into, sibling);
  }

  /** The other children keep their order. */
  lemma OrderKept(parent: Parents, children: Children, from: nat, into: nat, sibling: Option<nat>, p: nat)
    requires Listed(parent, children) && p in children
    ensures Without(Relinked(children, from, into, sibling)[p], from) == Without(children[p], from)
  {
    assert ListedUnder(parent, children[p], p);
    WithoutIs(children[p], from);
    WithoutAbsent(Without(children[p], from), from);
    WithoutInserted(Without(children[p], from), from, sibling);
  }

  /** What is above the new parent can rank above what is moved. */
  lemma StillRises(parent: Parents, rank: map<nat, nat>, rank': map<nat, nat>, from: nat, into: nat, seen: set<nat>)
    requires Rises(parent, rank) && from in rank && into in rank
    requires from !in seen && into in seen && seen <= rank.Keys
    requires forall x <- seen :: x in parent ==> parent[x] in seen
    requires rank'.Keys == rank.Keys
    requires forall x <- rank :: rank'[x] == if x in seen then rank[x] + rank[from] + 1 else rank[x]
    ensures Rises(parent[from := into], rank')
  {
  }

  /** Before itself, or after what it follows, an item stays where it is. */
  lemma StaysPut(parent: Parents, children: Children, from: nat)
    requires Listed(parent, children) && from in parent
    ensures parent[from := parent[from]] == parent
    ensures Relinked(children, from, parent[from], After(children[parent[from]], from)) == children
  {
    forall p | p in children
      ensures Relinked(children, from, parent[from], After(children[parent[from]], from))[p] == children[p]
    {
      assert ListedUnder(parent, children[p], p);
      if p == parent[from] {
        KeepsPlace(children[p], from);
      } else {
        WithoutAbsent(children[p], from);
      }
    }
  }

  class Tree {
    var parent: map<nat, nat>
    var children: map<nat, seq<nat>>
    ghost var rank: map<nat, nat>

    constructor (items: set<nat>)
      ensures Valid() && parent == map[] && children.Keys == items
    {
      parent := map[];
      children := map x | x in items :: [];
      rank := map x | x in items :: 0;
    }

    /** Children and parents agree, and every parent ranks higher. */
    ghost predicate Valid()
      reads this
    {
      Listed(parent, children) && rank.Keys == children.Keys && Rises(parent, rank)
    }

    /** No item is above itself by way of a parent. */
    lemma NoneIsItsOwnAncestor(path: seq<nat>, x: nat)
      requires Valid() && IsPath(parent, path, x, x) && x in children
      ensures |path| == 1
    {
      NoCycle(parent, rank, path, x, x);
    }

    method NextSibling(x: nat) returns (next: Option<nat>)
      requires Valid()
      ensures next == if x in parent then After(children[parent[x]], x) else None
      ensures next.Some? ==> x in parent && next.value in parent && parent[next.value] == parent[x]
    {
      if x !in parent { return None; }
      var s := children[parent[x]];
      assert ListedUnder(parent, s, parent[x]);
      var i := 0;
      while i < |s| && s[i] != x
        invariant i <= |s| && After(s, x) == After(s[i..], x)
      {
        assert s[i..][1..] == s[i + 1..];
        i := i + 1;
      }
      next := if i + 1 < |s| then Some(s[i + 1]) else None;
    }

    /** The parent and the sibling that a locator stands for; an empty one stands for the
        innermost item of the scopes. */
    method ParseLocator(at: Locator, innermost: nat) returns (outcome: Outcome, into: nat, sibling: Option<nat>)
      requires Valid() && innermost in children
      requires at.to.Some? ==> at.to.value in children
      requires at.before.Some? ==> at.before.value in children
      requires at.after.Some? ==> at.after.value in children
      ensures outcome != OwnChild && outcome != Unable
      ensures IsEmpty(at) ==> outcome == Moved && into == innermost && sibling == None
      ensures outcome == BothGiven <==> at.before.Some? && at.after.Some?
      ensures outcome == Moved ==> into in children && (at.to.Some? ==> into == at.to.value)
      ensures outcome == Moved ==> sibling.Some? ==> sibling.value in parent && parent[sibling.value] == into
      ensures outcome == Moved && at.before.Some? ==> sibling == at.before
      ensures outcome == Moved && at.after.Some? ==>
        at.after.value in parent && parent[at.after.value] == into && sibling == After(children[into], at.after.value)
      ensures outcome == Moved && at.before.None? && at.after.None? ==> sibling == None
      ensures outcome == NotAChild <==>
        && at.to.Some? && (at.before.Some? != at.after.Some?)
        && !(NextTo(at) in parent && parent[NextTo(at)] == at.to.value)
      ensures outcome == NoParent <==>
        at.to.None? && (at.before.Some? != at.after.Some?) && NextTo(at) !in parent
    {
      into, sibling := 0, None;
      if at.to.Some? { into := at.to.value; }
      if IsEmpty(at) { return Moved, innermost, None; }
      if at.before.Some? && at.after.Some? { return BothGiven, into, None; }
      if at.before.Some? || at.after.Some? {
        var x := if at.before.Some? then at.before.value else at.after.value;
        if at.to.Some? {
          if !(x in parent && parent[x] == at.to.value) { return NotAChild, into, None; }
        } else {
          if x !in parent { return NoParent, into, None; }
        }
        into, sibling := parent[x], Some(x);
      }
      if at.after.Some? {
        sibling := NextSibling(at.after.value);
      }
      outcome := Moved;
    }

    /** The sibling that a locator names. */
    function NextTo(at: Locator): nat {
      if at.before.Some? then at.before.value else if at.after.Some? then at.after.value else 0
    }

    /** The climb from `into` has come to `scan`, or past the last item. */
    ghost predicate Climbed(seen: set<nat>, scan: Option<nat>, into: nat)
      reads this
    {
      && seen <= children.Keys && (into in seen || scan == Some(into))
      && (forall x <- seen :: x in parent ==> parent[x] in seen || scan == Some(parent[x]))
      && (scan.Some? ==>
            && scan.value in children && IsAbove(parent, scan.value, into)
            && forall x <- seen :: x in rank && scan.value in rank && rank[x] < rank[scan.value])
    }

    lemma ClimbStarts(into: nat)
      requires Valid() && into in children
      ensures Climbed({}, Some(into), into)
    {
      assert IsPath(parent, [into], into, into);
    }

    lemma ClimbGoesOn(seen: set<nat>, x: nat, into: nat)
      requires Valid() && Climbed(seen, Some(x), into)
      ensures x !in seen && Climbed(seen + {x}, if x in parent then Some(parent[x]) else None, into)
    {
      if x in parent {
        var path :| IsPath(parent, path, into, x);
        PathGrows(parent, path, into, x);
      }
    }

    /** What is above `into` has all been seen. */
    lemma ClimbIsOver(seen: set<nat>, from: nat, into: nat)
      requires Valid() && Climbed(seen, None, into) && from !in seen
      ensures !IsAbove(parent, from, into)
    {
      forall p: seq<nat> | IsPath(parent, p, into, from) ensures false {
        ClosedUpwards(parent, seen, p, into, from);
      }
    }

    /** Climbs from an item to see whether `from` is met; if not, `seen` is all that is
        above. */
    method Scan(from: nat, into: nat) returns (met: bool, ghost seen: set<nat>)
      requires Valid() && into in children
      ensures met <==> IsAbove(parent, from, into)
      ensures !met ==> from !in seen && into in seen && seen <= children.Keys
      ensures !met ==> forall x <- seen :: x in parent ==> parent[x] in seen
    {
      var scan := Some(into);
      seen := {};
      ClimbStarts(into);
      while scan.Some?
        invariant Climbed(seen, scan, into) && from !in seen
        decreases |children.Keys - seen|, scan.Some?
      {
        var x := scan.value;
        if x == from { return true, {}; }
        ClimbGoesOn(seen, x, into);
        ghost var left := children.Keys - seen;
        seen := seen + {x};
        assert children.Keys - seen == left - {x};
        scan := if x in parent then Some(parent[x]) else None;
      }
      met := false;
      ClimbIsOver(seen, from, into);
    }

    /** Detaches an item and attaches it again. */
    method Relink(from: nat, into: nat, sibling: Option<nat>, ghost seen: set<nat>)
      requires Valid() && from in children && into in children && sibling != Some(from)
      requires from !in seen && into in seen && seen <= children.Keys
      requires forall x <- seen :: x in parent ==> parent[x] in seen
      modifies this
      ensures Valid() && parent == old(parent)[from := into]
      ensures children == Relinked(old(children), from, into, sibling)
    {
      RelinkedByUpdates(parent, children, from, into, sibling);
      StillListed(parent, children, from, into, sibling);
      ghost var raised := map x | x in rank :: if x in seen then rank[x] + rank[from] + 1 else rank[x];
      StillRises(parent, rank, raised, from, into, seen);
      if from in parent {
        var p := parent[from];
        children := children[p := Without(children[p], from)];
      }
      children := children[into := Inserted(children[into], from, sibling)];
      parent, rank := parent[from := into], raised;
    }

    /** Moves an item to where a locator says. It is refused if and only if the locator is
        wrong or empty, or the item is the new parent or above it. For an empty one the source
        then reads the name of the new parent's class, which is null, to report it. */
    method MoveTheItem(from: nat, at: Locator) returns (outcome: Outcome, into: nat, sibling: Option<nat>)
      requires Valid() && from in children
      requires at.to.Some? ==> at.to.value in children
      requires at.before.Some? ==> at.before.value in children
      requires at.after.Some? ==> at.after.value in children
      modifies this
      ensures Valid()
      ensures outcome == Moved || outcome == OwnChild ==> into in old(children) && IsInto(at, into, old(parent))
      ensures outcome == Moved ==> IsAt(at, into, sibling, from, old(parent), old(children))
      ensures outcome == OwnChild ==> IsAbove(old(parent), from, into)
      ensures outcome == Unable <==> IsEmpty(at)
      ensures outcome == BothGiven || outcome == NotAChild || outcome == NoParent
        <==> LocatorError(at, old(parent)).Some?
      ensures LocatorError(at, old(parent)).Some? ==> outcome == LocatorError(at, old(parent)).value
      ensures outcome != Moved ==> parent == old(parent) && children == old(children)
      ensures outcome == Moved ==> !IsAbove(old(parent), from, into)
      ensures outcome == Moved ==>
        parent == old(parent)[from := into] && children == Relinked(old(children), from, into, sibling)
    {
      if IsEmpty(at) { return Unable, 0, None; }
      outcome, into, sibling := ParseLocator(at, from);
      if outcome != Moved { return; }
      assert ListedUnder(parent, children[into], into);
      if at.after.Some? { AfterIs(children[into], at.after.value); }
      var met, seen := Scan(from, into);
      if met { return OwnChild, into, sibling; }
      if sibling == Some(from) {
        AfterIs(children[into], from);
        sibling := NextSibling(from);
      }
      Relink(from, into, sibling, seen);
    }
  }

  /** The parent that a locator stands for. */
  ghost predicate IsInto(at: Locator, into: nat, parent: Parents) {
    && (at.to.Some? ==> into == at.to.value)
    && (at.before.Some? ==> at.before.value in parent && parent[at.before.value] == into)
    && (at.after.Some? ==> at.after.value in parent && parent[at.after.value] == into)
  }

  /** The parent and the sibling to move in front of: an item is never put in front of
      itself, but of what follows it. */
  ghost predicate IsAt(at: Locator, into: nat, sibling: Option<nat>, from: nat, parent: Parents, children: Children)
    requires into in children
  {
    && IsInto(at, into, parent)
    && var place := if at.before.Some? then at.before
                    else if at.after.Some? then After(children[into], at.after.value)
                    else None;
       sibling == if place == Some(from) then After(children[into], from) else place
  }

  /** Moving an item before itself, after itself or after what it follows changes nothing. */
  lemma MoveInPlace(at: Locator, into: nat, sibling: Option<nat>, from: nat, parent: Parents, children: Children)
    requires Listed(parent, children) && into in children && IsAt(at, into, sibling, from, parent, children)
    requires at.before == Some(from) || (at.before.None? && at.after == Some(from))
      || (at.before.None? && at.after.Some? && After(children[into], at.after.value) == Some(from))
    ensures parent[from := into] == parent && Relinked(children, from, into, sibling) == children
  {
    assert ListedUnder(parent, children[into], into);
    if at.after.Some? { AfterIs(children[into], at.after.value); }
    StaysPut(parent, children, from);
  }
}
