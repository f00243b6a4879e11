/** Walking the operands of a concatenation.

The results of a concatenation hang in a tree of nodes linked to their parents and
operands. The walk keeps no stack: it goes down to a first operand, and from an
operand it climbs its parents to the next one. Here a ghost context, the path from the
operand to the root with what hangs to the left and to the right of it, shows that the
walk visits exactly the leaves, from left to right, with the leading spaces that the
highest node starting at each of them holds.
*/
module ResultWalk {
  import opened LayoutSpec

  class ResultNode {
    var parent: ResultNode?
    var op1: ResultNode?
    var op2: ResultNode?
    var indent: nat
    var value: Value
    var width: nat        // of the script construct
    var extend: bool      // of the script line
    const operator: bool  // an operator, or a node made to join two lines
    const joins: bool     // a concatenation, or a node made to join two lines

    constructor (operator: bool, joins: bool)
      ensures parent == null && op1 == null && op2 == null && indent == 0
      ensures this.operator == operator && this.joins == joins
    {
      parent, op1, op2, indent := null, null, null, 0;
      this.operator, this.joins := operator, joins;
      value, width, extend := Undefined, 0, false;
    }
  }

  // ----- shapes

  /** What a node and the nodes under it look like. */
  datatype Shape = Leaf(node: ResultNode) | Join(node: ResultNode, left: Shape, right: Shape)

  ghost function Members(t: Shape): (s: set<ResultNode>)
    ensures t.node in s
  {
    match t
    case Leaf(n) => {n}
    case Join(n, l, r) => {n} + Members(l) + Members(r)
  }

  /** No node occurs twice. */
  ghost predicate IsTree(t: Shape) {
    match t
    case Leaf(_) => true
    case Join(n, l, r) =>
      && IsTree(l) && IsTree(r) && Members(l) !! Members(r)
      && n !in Members(l) && n !in Members(r)
  }

  /** The links are those of the tree. */
  ghost predicate Linked(t: Shape, parent: ResultNode?)
    reads Members(t)`parent, Members(t)`op1, Members(t)`op2
  {
    && t.node.parent == parent
    && match t
       case Leaf(n) => !n.operator && !n.joins
       case Join(n, l, r) => n.operator && n.op1 == l.node && n.op2 == r.node && Linked(l, n) && Linked(r, n)
  }

  /** Every operator is a concatenation. */
  predicate AllJoin(t: Shape) {
    t.Join? ==> t.node.joins && AllJoin(t.left) && AllJoin(t.right)
  }

  ghost predicate Holds(t: Shape, parent: ResultNode?)
    reads Members(t)`parent, Members(t)`op1, Members(t)`op2
  {
    Linked(t, parent) && AllJoin(t)
  }

  function Leaves(t: Shape): (s: seq<ResultNode>)
    ensures s != []
  {
    match t
    case Leaf(n) => [n]
    case Join(_, l, r) => Leaves(l) + Leaves(r)
  }

  /** The leading spaces of each leaf: those of the highest node that starts with it. */
  ghost function Leads(t: Shape, lead: nat, script: map<ResultNode, nat>): (s: seq<nat>)
    requires Members(t) <= script.Keys
    ensures |s| == |Leaves(t)|
  {
    match t
    case Leaf(_) => [lead]
    case Join(_, l, r) => Leads(l, lead, script) + Leads(r, script[r.node], script)
  }

  // ----- contexts

  datatype Context =
    | Whole
    | LeftOf(node: ResultNode, right: Shape, up: Context)
    | RightOf(left: Shape, node: ResultNode, up: Context)

  function Plug(ctx: Context, t: Shape): Shape {
    match ctx
    case Whole => t
    case LeftOf(n, r, up) => Plug(up, Join(n, t, r))
    case RightOf(l, n, up) => Plug(up, Join(n, l, t))
  }

  function ParentIn(ctx: Context, top: ResultNode?): ResultNode? {
    if ctx.Whole? then top else ctx.node
  }

  /** The leaves to the right. */
  function After(ctx: Context): seq<ResultNode> {
    match ctx
    case Whole => []
    case LeftOf(_, r, up) => Leaves(r) + After(up)
    case RightOf(_, _, up) => After(up)
  }

  ghost function AfterMembers(ctx: Context): set<ResultNode> {
    match ctx
    case Whole => {}
    case LeftOf(_, r, up) => Members(r) + AfterMembers(up)
    case RightOf(_, _, up) => AfterMembers(up)
  }

  ghost function AfterLeads(ctx: Context, script: map<ResultNode, nat>): (s: seq<nat>)
    requires AfterMembers(ctx) <= script.Keys
    ensures |s| == |After(ctx)|
  {
    match ctx
    case Whole => []
    case LeftOf(_, r, up) => Leads(r, script[r.node], script) + AfterLeads(up, script)
    case RightOf(_, _, up) => AfterLeads(up, script)
  }

  /** What is seen from inside a tree. */
  lemma {:induction false} Inside(ctx: Context, t: Shape, top: ResultNode?)
    requires IsTree(Plug(ctx, t)) && Linked(Plug(ctx, t), top)
    ensures IsTree(t) && Linked(t, ParentIn(ctx, top))
    ensures Members(t) <= Members(Plug(ctx, t)) && AfterMembers(ctx) <= Members(Plug(ctx, t))
    ensures Members(t) !! AfterMembers(ctx)
    ensures Plug(ctx, t).node !in AfterMembers(ctx)
    ensures ctx != Whole ==> Plug(ctx, t).node !in Members(t)
    ensures ctx.LeftOf? ==> Linked(Join(ctx.node, t, ctx.right), ParentIn(ctx.up, top)) && t.node != ctx.right.node
    ensures ctx.RightOf? ==> Linked(Join(ctx.node, ctx.left, t), ParentIn(ctx.up, top)) && t.node != ctx.left.node
    decreases ctx
  {
    match ctx
    case Whole =>
    case LeftOf(n, r, up) =>
      Inside(up, Join(n, t, r), top);
    case RightOf(l, n, up) =>
      Inside(up, Join(n, l, t), top);
  }

  /** The climb from here comes to an operand: the operators up to the first one that is
      left by its first operand are concatenations. */
  predicate GoesOn(ctx: Context) {
    match ctx
    case Whole => false
    case LeftOf(n, _, _) => n.joins
    case RightOf(_, n, up) => n.joins && GoesOn(up)
  }

  /** When all are, it ends only after the last operand. */
  lemma {:induction false} GoesOnToTheLast(ctx: Context, t: Shape)
    requires AllJoin(Plug(ctx, t))
    ensures AllJoin(t) && (GoesOn(ctx) <==> After(ctx) != [])
    decreases ctx
  {
    match ctx
    case Whole =>
    case LeftOf(n, r, up) => GoesOnToTheLast(up, Join(n, t, r));
    case RightOf(l, n, up) => GoesOnToTheLast(up, Join(n, l, t));
  }

  /** Going down to the left leaves the right operand for later. */
  lemma DownLeft(t: Shape, ctx: Context, lead: nat, script: map<ResultNode, nat>)
    requires t.Join? && Members(t) <= script.Keys && AfterMembers(ctx) <= script.Keys
    ensures var down := LeftOf(t.node, t.right, ctx);
      && Plug(down, t.left) == Plug(ctx, t)
      && Members(t.left) + AfterMembers(down) <= Members(t) + AfterMembers(ctx)
      && Leaves(t.left) + After(down) == Leaves(t) + After(ctx)
      && Leads(t.left, lead, script) + AfterLeads(down, script) == Leads(t, lead, script) + AfterLeads(ctx, script)
  {
  }

  // ----- the walk

  /** Goes down to the first operand under a node. */
  method FirstOperand(r: ResultNode, ghost t: Shape, ghost ctx: Context, ghost top: ResultNode?,
                      ghost script: map<ResultNode, nat>)
    returns (op: ResultNode, lead: nat, ghost at: Context)
    requires t.node == r && IsTree(Plug(ctx, t)) && Linked(Plug(ctx, t), top)
    requires Members(Plug(ctx, t)) <= script.Keys
    ensures lead == r.indent
    ensures Plug(at, Leaf(op)) == Plug(ctx, t) && AfterMembers(at) <= Members(Plug(ctx, t))
    ensures AfterMembers(at) <= Members(t) + AfterMembers(ctx)
    ensures Leaves(t) + After(ctx) == [op] + After(at)
    ensures AfterMembers(ctx) <= script.Keys && Members(t) <= script.Keys
    ensures Leads(t, lead, script) + AfterLeads(ctx, script) == [lead] + AfterLeads(at, script)
  {
    lead := r.indent;
    op, at := r, ctx;
    ghost var u := t;
    Inside(ctx, t, top);
    while op.operator
      invariant u.node == op && Plug(at, u) == Plug(ctx, t)
      invariant IsTree(u) && Linked(u, ParentIn(at, top))
      invariant Members(u) <= script.Keys && AfterMembers(at) <= Members(Plug(ctx, t))
      invariant Members(u) + AfterMembers(at) <= Members(t) + AfterMembers(ctx)
      invariant Leaves(t) + After(ctx) == Leaves(u) + After(at)
      invariant Leads(t, lead, script) + AfterLeads(ctx, script) == Leads(u, lead, script) + AfterLeads(at, script)
      decreases u
    {
      DownLeft(u, at, lead, script);
      at, u := LeftOf(op, u.right, at), u.left;
      op := op.op1;
      Inside(at, u, top);
    }
  }

  /** Climbs from an operand to the next one. It ends exactly where the climb meets no
      operator to go on from, or first one that is no concatenation. */
  method NextOperand(op: ResultNode, ghost ctx: Context, ghost top: ResultNode?,
                     ghost script: map<ResultNode, nat>)
    returns (next: ResultNode?, lead: nat, ghost at: Context)
    requires IsTree(Plug(ctx, Leaf(op))) && Linked(Plug(ctx, Leaf(op)), top)
    requires Members(Plug(ctx, Leaf(op))) <= script.Keys
    requires top != null ==> !top.joins
    requires forall n <- AfterMembers(ctx) :: n in script && n.indent == script[n]
    ensures next == null <==> !GoesOn(ctx)
    ensures next != null ==>
      && Plug(at, Leaf(next)) == Plug(ctx, Leaf(op)) && After(ctx) == [next] + After(at)
      && AfterMembers(at) <= AfterMembers(ctx)
      && AfterLeads(ctx, script) == [lead] + AfterLeads(at, script)
  {
    ghost var t := Leaf(op);
    at, lead := ctx, 0;
    Inside(at, t, top);
    var r: ResultNode := op;
    var p := r.parent;
    if p == null { return null, 0, at; }

    while p.parent != null && p.joins && r == p.op2
      invariant p != null && p == r.parent
      invariant t.node == r && Plug(at, t) == Plug(ctx, Leaf(op))
      invariant After(at) == After(ctx) && AfterMembers(at) <= AfterMembers(ctx)
      invariant AfterLeads(at, script) == AfterLeads(ctx, script) && (GoesOn(at) <==> GoesOn(ctx))
      decreases at
    {
      Inside(at, t, top);
      at, t := at.up, Join(at.node, at.left, t);
      Inside(at, t, top);
      r := p;
      p := r.parent;
    }
    Inside(at, t, top);
    if p.joins && r != p.op2 {
      assert at.LeftOf? && GoesOn(at);
      ghost var right := at.right;
      ghost var here := RightOf(t, at.node, at.up);
      Inside(here, right, top);
      next, lead, at := FirstOperand(p.op2, right, here, top, script);
    } else {
      AtTheEnd(at, t, top);
      next := null;
    }
  }

  /** When the climb stops without turning, it does not go on. */
  lemma AtTheEnd(ctx: Context, t: Shape, top: ResultNode?)
    requires IsTree(Plug(ctx, t)) && Linked(Plug(ctx, t), top)
    requires top != null ==> !top.joins
    requires t.node.parent != null
    requires !(t.node.parent.parent != null && t.node.parent.joins && t.node == t.node.parent.op2)
    requires !(t.node.parent.joins && t.node != t.node.parent.op2)
    ensures !GoesOn(ctx)
  {
    Inside(ctx, t, top);
    if ctx.RightOf? {
      Inside(ctx.up, Join(ctx.node, ctx.left, t), top);
    }
  }

  // ----- the whole walk

  /** A tree of results under `top`, with its nodes, its leaves, and the leading spaces of
      each, taken when the walk begins. */
  datatype Tour = Tour(t: Shape, top: ResultNode?, nodes: set<ResultNode>, leaves: seq<ResultNode>,
                       script: map<ResultNode, nat>, leads: seq<nat>)

  /** The spaces that nodes now hold. */
  ghost function Indents(nodes: set<ResultNode>): map<ResultNode, nat>
    reads nodes`indent
  {
    map n: ResultNode | n in nodes :: n.indent
  }

  /** The leading spaces of the leaves of a tree, as its nodes now hold them. */
  ghost function LeadsNow(t: Shape, nodes: set<ResultNode>): (s: seq<nat>)
    requires Members(t) == nodes
    ensures |s| == |Leaves(t)|
    reads nodes`indent
  {
    Leads(t, Indents(nodes)[t.node], Indents(nodes))
  }

  /** The tour of a tree as it now is. */
  ghost function TourOf(t: Shape, top: ResultNode?, nodes: set<ResultNode>): Tour
    requires Members(t) == nodes
    reads nodes`indent
  {
    Tour(t, top, nodes, Leaves(t), Indents(nodes), LeadsNow(t, nodes))
  }

  ghost predicate Walkable(w: Tour)
    reads w.nodes`parent, w.nodes`op1, w.nodes`op2
  {
    && IsTree(w.t) && Members(w.t) == w.nodes == w.script.Keys && Leaves(w.t) == w.leaves
    && Leads(w.t, w.script[w.t.node], w.script) == w.leads
    && Holds(w.t, w.top) && (w.top != null ==> !w.top.joins)
  }

  /** The walk stands on the `i`-th leaf, and what is ahead has the spaces it had. */
  ghost predicate StandsOn(w: Tour, op: ResultNode, at: Context, i: nat)
    reads AfterMembers(at)`indent
  {
    && Plug(at, Leaf(op)) == w.t && op in w.nodes && op !in AfterMembers(at) && AfterMembers(at) <= w.nodes
    && i < |w.leads| == |w.leaves| && w.leaves[i] == op && After(at) == w.leaves[i + 1..]
    && AfterMembers(at) <= w.script.Keys && AfterLeads(at, w.script) == w.leads[i + 1..]
    && forall n <- AfterMembers(at) :: n.indent == w.script[n]
  }

  method Begin(r: ResultNode, ghost w: Tour)
    returns (op: ResultNode, lead: nat, ghost at: Context)
    requires Walkable(w) && w.t.node == r
    requires forall n <- w.nodes :: n.indent == w.script[n]
    ensures lead == r.indent == w.leads[0] && StandsOn(w, op, at, 0) && r !in AfterMembers(at)
  {
    op, lead, at := FirstOperand(r, w.t, Whole, w.top, w.script);
    assert Leaves(w.t) + [] == Leaves(w.t) && Leads(w.t, lead, w.script) + [] == Leads(w.t, lead, w.script);
    Inside(at, Leaf(op), w.top);
  }

  /** Goes to the next leaf, or ends after the last. */
  method Step(op: ResultNode, ghost w: Tour, ghost at: Context, ghost i: nat)
    returns (next: ResultNode?, lead: nat, ghost at': Context)
    requires Walkable(w) && StandsOn(w, op, at, i)
    ensures Walkable(w)
    ensures next == null <==> i + 1 == |w.leaves|
    ensures next != null ==> StandsOn(w, next, at', i + 1) && lead == w.leads[i + 1]
  {
    GoesOnToTheLast(at, Leaf(op));
    assert After(at) == w.leaves[i + 1..];
    next, lead, at' := NextOperand(op, at, w.top, w.script);
    if next != null {
      StandsNext(w, op, next, at, at', i, lead);
    }
  }

  /** One operand further, what is ahead is one shorter. */
  lemma StandsNext(w: Tour, op: ResultNode, next: ResultNode, at: Context, at': Context, i: nat, lead: nat)
    requires Walkable(w) && StandsOn(w, op, at, i)
    requires Plug(at', Leaf(next)) == w.t && After(at) == [next] + After(at') && AfterMembers(at') <= AfterMembers(at)
    requires AfterLeads(at, w.script) == [lead] + AfterLeads(at', w.script)
    ensures StandsOn(w, next, at', i + 1) && lead == w.leads[i + 1]
  {
    Inside(at', Leaf(next), w.top);
    assert w.leaves[i + 1..] == [next] + After(at') && w.leaves[i + 1..][1..] == w.leaves[i + 2..];
    assert w.leads[i + 1..] == [lead] + AfterLeads(at', w.script) && w.leads[i + 1..][1..] == w.leads[i + 2..];
  }
}
