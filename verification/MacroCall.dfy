/** Calling a macro: its parameters and its scopes.

Formal and actual parameters are lists of `,` nodes that nest to the left. To bind them
both lists are descended to their first item and climbed again in step. The scopes that
a macro opens go on a stack above its own two; a return, wherever in the body it is,
takes them all off.
*/
module MacroCall {
  import opened Wrappers

  // ----- parameter lists

  /** A node of a list: a `,` with two operands, or an item with a name or a value. */
  class ListNode {
    const comma: bool
    const text: string
    const op1: ListNode?
    const op2: ListNode?
    var parent: ListNode?

    constructor (comma: bool, text: string, op1: ListNode?, op2: ListNode?)
      ensures this.comma == comma && this.text == text && this.op1 == op1 && this.op2 == op2 && parent == null
    {
      this.comma, this.text, this.op1, this.op2, parent := comma, text, op1, op2, null;
    }
  }

  /** The `,` nodes from the root down, each the first operand of the one before it. */
  ghost predicate IsList(root: ListNode?, spine: seq<ListNode>)
    reads spine, (if spine != [] && spine[|spine| - 1].op1 != null then {spine[|spine| - 1].op1} else {})
  {
    if spine == [] then root == null || !root.comma
    else
      && root == spine[0] && (forall i | 0 <= i < |spine| :: spine[i].comma)
      && (forall i | 0 < i < |spine| :: spine[i] != root)
      && (forall i | 0 <= i < |spine| - 1 :: spine[i].op1 == spine[i + 1] && spine[i + 1].parent == spine[i])
      && var first := spine[|spine| - 1].op1;
         first != null ==> !first.comma && first.parent == spine[|spine| - 1]
  }

  /** The node `k` steps down the spine; the last one is the first item. */
  function Below(root: ListNode?, spine: seq<ListNode>, k: int): ListNode?
    requires 0 <= k <= |spine|
  {
    if k < |spine| then spine[k] else if spine == [] then root else spine[k - 1].op1
  }

  function TextOf(n: ListNode?): Option<string> {
    if n == null then None else Some(n.text)
  }

  /** The items of a list, from left to right; an item may be missing. */
  ghost function Items(root: ListNode?, spine: seq<ListNode>): (s: seq<Option<string>>)
    ensures |s| == |spine| + 1
  {
    if spine == [] then [TextOf(root)]
    else
      [TextOf(spine[|spine| - 1].op1)]
      + seq(|spine|, k requires 0 <= k < |spine| => TextOf(spine[|spine| - 1 - k].op2))
  }

  /** How many items a list has; a list that is missing has none. */
  function Count(root: ListNode?, spine: seq<ListNode>): nat {
    if root == null then 0 else |spine| + 1
  }

  // ----- the symbols of a call

  type Attributes = map<Option<string>, Option<string>>

  /** The values put one after the other under their names. */
  function PutAll(attrs: Attributes, names: seq<Option<string>>, values: seq<Option<string>>): Attributes
    requires |values| <= |names|
  {
    if values == [] then attrs
    else PutAll(attrs, names[..|values| - 1], values[..|values| - 1])[names[|values| - 1] := values[|values| - 1]]
  }

  /** With different names, each has its own value. */
  lemma {:induction false} EachIsBound(attrs: Attributes, names: seq<Option<string>>, values: seq<Option<string>>,
                                       i: nat)
    requires i < |values| <= |names| && forall j, k | 0 <= j < k < |names| :: names[j] != names[k]
    ensures names[i] in PutAll(attrs, names, values) && PutAll(attrs, names, values)[names[i]] == values[i]
  {
    if i < |values| - 1 {
      EachIsBound(attrs, names[..|values| - 1], values[..|values| - 1], i);
    }
  }

  /** What has no formal keeps what it had. */
  lemma {:induction false} OthersUnbound(attrs: Attributes, names: seq<Option<string>>, values: seq<Option<string>>,
                                         x: Option<string>)
    requires |values| <= |names| && x !in names[..|values|]
    ensures x in PutAll(attrs, names, values) <==> x in attrs
    ensures x in attrs ==> PutAll(attrs, names, values)[x] == attrs[x]
  {
    if values != [] {
      var n := |values| - 1;
      assert names[n] == names[..|values|][n];
      assert names[..n][..n] == names[..|values|][..n];
      OthersUnbound(attrs, names[..n], values[..n], x);
    }
  }

  lemma PutOneMore(attrs: Attributes, names: seq<Option<string>>, values: seq<Option<string>>, i: nat)
    requires i < |values| <= |names|
    ensures PutAll(attrs, names[..i + 1], values[..i + 1])
      == PutAll(attrs, names[..i], values[..i])[names[i] := values[i]]
  {
    assert names[..i + 1][..i] == names[..i] && values[..i + 1][..i] == values[..i];
  }

  lemma WholeLists(attrs: Attributes, names: seq<Option<string>>, values: seq<Option<string>>, i: nat)
    requires i == |values| <= |names|
    ensures PutAll(attrs, names[..i], values[..i]) == PutAll(attrs, names, values)
  {
    assert values[..i] == values;
    if i > 0 { assert names[..i][..i - 1] == names[..i - 1]; }
  }

  lemma ItemAt(root: ListNode?, spine: seq<ListNode>, i: nat)
    requires 0 < i <= |spine|
    ensures Items(root, spine)[i] == TextOf(spine[|spine| - i].op2)
  {
  }

  lemma ParentBelow(root: ListNode?, spine: seq<ListNode>, k: nat)
    requires IsList(root, spine) && 0 < k <= |spine| && Below(root, spine, k) != null
    ensures Below(root, spine, k).parent == spine[k - 1]
  {
  }

  /** Goes down to the first item, counting. */
  method FindFirst(root: ListNode?, ghost spine: seq<ListNode>) returns (first: ListNode?, above: ListNode?, count: nat)
    requires IsList(root, spine)
    ensures count == |spine| + 1 && first == Below(root, spine, |spine|)
    ensures spine != [] ==> above == spine[|spine| - 1]
  {
    first, above, count := root, null, 1;
    while first != null && first.comma
      invariant 1 <= count <= |spine| + 1 && first == Below(root, spine, count - 1)
      invariant above == if count == 1 then null else spine[count - 2]
      decreases |spine| - count
    {
      above, first, count := first, first.op1, count + 1;
    }
  }

  /** From the `i`-th item up to the `,` that it is on the left of. */
  method ParentOf(n: ListNode?, ghost root: ListNode?, ghost spine: seq<ListNode>, ghost i: nat) returns (up: ListNode)
    requires IsList(root, spine) && 0 < i <= |spine| && n != null && n == Below(root, spine, |spine| + 1 - i)
    ensures up == spine[|spine| - i] == Below(root, spine, |spine| - i) && TextOf(up.op2) == Items(root, spine)[i]
  {
    ParentBelow(root, spine, |spine| + 1 - i);
    ItemAt(root, spine, i);
    up := n.parent;
  }

  method StepUp(root: ListNode, ghost spine: seq<ListNode>, above: ListNode?, ghost i: nat)
    returns (up: ListNode, above': ListNode?)
    requires IsList(root, spine) && 0 < i <= |spine| && above == spine[|spine| - i]
    ensures up == spine[|spine| - i] == Below(root, spine, |spine| - i) && TextOf(up.op2) == Items(root, spine)[i]
    ensures i < |spine| ==> above' == spine[|spine| - i - 1] && up != root
    ensures i == |spine| ==> up == root
  {
    if i < |spine| { ParentBelow(root, spine, |spine| - i); }
    ItemAt(root, spine, i);
    up := above;
    above' := up.parent;
  }

  /** From the `i`-th items of both lists up to the `,` nodes with the next ones. */
  method StepBoth(arg: ListNode, paramParent: ListNode?, ghost args: ListNode?, params: ListNode,
                  ghost formals: seq<ListNode>, ghost actuals: seq<ListNode>, ghost i: nat)
    returns (arg': ListNode, param': ListNode, paramParent': ListNode?)
    requires IsList(args, formals) && IsList(params, actuals) && 0 < i <= |actuals| <= |formals|
    requires arg == Below(args, formals, |formals| + 1 - i) && paramParent == actuals[|actuals| - i]
    ensures arg' == Below(args, formals, |formals| - i) && param' == Below(params, actuals, |actuals| - i)
    ensures TextOf(arg'.op2) == Items(args, formals)[i] && TextOf(param'.op2) == Items(params, actuals)[i]
    ensures i < |actuals| ==> paramParent' == actuals[|actuals| - i - 1]
  {
    param', paramParent' := StepUp(params, actuals, paramParent, i);
    arg' := ParentOf(arg, args, formals, i);
  }

  class Symb {
    var attrs: Attributes

    constructor ()
      ensures attrs == map[]
    {
      attrs := map[];
    }

    method PutAttr(name: Option<string>, value: Option<string>)
      modifies this
      ensures attrs == old(attrs)[name := value]
    {
      attrs := attrs[name := value];
    }

    /** The climb of both lists has bound the first `i` items. */
    ghost predicate BoundSoFar(args: ListNode?, params: ListNode?, formals: seq<ListNode>, actuals: seq<ListNode>,
                               was: Attributes, i: nat, arg: ListNode?, param: ListNode?, paramParent: ListNode?)
      reads `attrs
    {
      && 1 <= i <= |actuals| + 1 <= |formals| + 1
      && attrs == PutAll(was, Items(args, formals)[..i], Items(params, actuals)[..i])
      && arg == Below(args, formals, |formals| + 1 - i) && param == Below(params, actuals, |actuals| + 1 - i)
      && (i <= |actuals| ==> arg != null && paramParent == actuals[|actuals| - i])
    }

    /** Binds the next item. */
    method BindNext(arg: ListNode, paramParent: ListNode?, ghost args: ListNode?, params: ListNode,
                    ghost formals: seq<ListNode>, ghost actuals: seq<ListNode>, ghost was: Attributes, ghost i: nat,
                    ghost param: ListNode?)
      returns (arg': ListNode, param': ListNode, paramParent': ListNode?)
      requires IsList(args, formals) && IsList(params, actuals)
      requires i <= |actuals| && BoundSoFar(args, params, formals, actuals, was, i, arg, param, paramParent)
      modifies this
      ensures BoundSoFar(args, params, formals, actuals, was, i + 1, arg', param', paramParent')
    {
      arg', param', paramParent' := StepBoth(arg, paramParent, args, params, formals, actuals, i);
      PutAttr(TextOf(arg'.op2), TextOf(param'.op2));
      PutOneMore(was, Items(args, formals), Items(params, actuals), i);
    }

    /** Climbs both lists in step, binding what is on the right of every `,`. */
    method BindInStep(first: ListNode?, firstParam: ListNode?, above: ListNode?, ghost args: ListNode?,
                      params: ListNode?, ghost formals: seq<ListNode>, ghost actuals: seq<ListNode>,
                      ghost was: Attributes)
      requires IsList(args, formals) && IsList(params, actuals) && params != null && |actuals| <= |formals|
      requires first == Below(args, formals, |formals|) && first != null
      requires firstParam == Below(params, actuals, |actuals|)
      requires actuals != [] ==> above == actuals[|actuals| - 1]
      requires attrs == was[TextOf(first) := TextOf(firstParam)]
      modifies this
      ensures attrs == PutAll(was, Items(args, formals), Items(params, actuals))
    {
      var arg: ListNode?, param: ListNode?, paramParent: ListNode? := first, firstParam, above;
      ghost var i := 1;
      PutOneMore(was, Items(args, formals), Items(params, actuals), 0);
      while param != params
        invariant BoundSoFar(args, params, formals, actuals, was, i, arg, param, paramParent)
        decreases |actuals| + 1 - i
      {
        arg, param, paramParent := BindNext(arg, paramParent, args, params, formals, actuals, was, i, param);
        i := i + 1;
      }
      WholeLists(was, Items(args, formals), Items(params, actuals), i);
    }

    /** Binds actual parameters to formal ones. */
    method SubstituteParams(args: ListNode?, params: ListNode?, ghost formals: seq<ListNode>,
                            ghost actuals: seq<ListNode>)
      returns (ok: bool)
      requires IsList(args, formals) && IsList(params, actuals)
      requires formals != [] ==> formals[|formals| - 1].op1 != null
      modifies this
      ensures ok <==> Count(params, actuals) <= Count(args, formals)
      ensures !ok || params == null ==> attrs == old(attrs)
      ensures ok && params != null ==> attrs == PutAll(old(attrs), Items(args, formals), Items(params, actuals))
    {
      if params == null { return true; }
      var param, paramParent, paramn := FindFirst(params, actuals);
      var arg, argParent, argn := FindFirst(args, formals);
      if args == null { argn := 0; }
      if argn < paramn { return false; }
      PutAttr(TextOf(arg), TextOf(param));
      BindInStep(arg, param, paramParent, args, params, formals, actuals, old(attrs));
      ok := true;
    }
  }
}
