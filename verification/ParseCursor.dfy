/** The script parser's cursor, updated in place.

The nodes are linked as the parser links them, with a pointer to the parent and
pointers to the children, and the cursor is the parent node with the field of it
that is being filled (the root pointer when there is no parent). Each method
does to the nodes what the function of the same name in ParseTree does to the
value `Abs()`. Every fact the proofs need about the shape of the tree is local to
a node and its neighbours: ghost fields say which nodes are on the cursor's path
(`open`), what a finished node means (`tree`) and what an unfinished node and the
nodes around it mean (`above`).
*/
module ParseCursor {
  import opened ParseTree
  import opened Wrappers

  class ScriptNode {
    var parent: ScriptNode?
    var kids: map<Field, ScriptNode>
    var own: Tree  // the fields that hold no node: kind, operator, text and layout

    ghost var slot: Field  // the field of the parent that holds this node
    ghost var open: bool   // is the node on the cursor's path?
    ghost var hole: Field  // if so, the field through which the path goes on
    ghost var around: Path // and the path around the node
    ghost var view: Tree   // the node and its children, but not the one in the hole

    constructor (own: Tree)
      requires own.kids == map[]
      ensures parent == null && kids == map[] && !open
      ensures this.own == own && view == own
    {
      this.own := own;
      parent, kids, open := null, map[], false;
      slot, hole, view, around := Op1, Op1, own, Top;
    }

    /** The path from this node's hole outwards. */
    ghost function Outward(): Path
      reads this
    {
      In(Frame(view, hole), around)
    }
  }

  /** A tree without its children. */
  function Bare(t: Tree): Tree { t.(kids := map[]) }

  /** The node of a frame with its hole filled. */
  function Filled(f: Frame, focus: Option<Tree>): Tree {
    if focus.Some? then f.node.(kids := f.node.kids[f.hole := focus.value]) else f.node
  }

  class Parser {
    var theParent: ScriptNode?
    var theField: Field
    var theRoot: ScriptNode?
    var brackets: nat
    var deferredWidth: nat
    var deferredSpaces: nat

    ghost var nodes: set<ScriptNode>

    /** The node the cursor points to, if any. */
    function Pointee(): ScriptNode?
      reads this, theParent
    {
      if theParent == null then theRoot
      else if theField in theParent.kids then theParent.kids[theField]
      else null
    }

    /** The node around the cursor, as a frame. */
    ghost function Around(): set<ScriptNode>
      reads `theParent
    {
      if theParent == null then {} else {theParent}
    }

    /** The node's parent holds it in the field the node's slot names. */
    ghost predicate HeldByParent(n: ScriptNode)
      reads `nodes, n, n.parent
    {
      n.parent != null ==>
        n.parent in nodes && n.slot in n.parent.kids && n.parent.kids[n.slot] == n
    }

    /** A child knows its parent and its field. */
    ghost predicate KnowsParent(n: ScriptNode, f: Field, kid: ScriptNode)
      reads `nodes, kid`parent, kid`slot
    {
      kid in nodes && kid.parent == n && kid.slot == f
    }

    /** The node's view says what its own fields and its children off the path say. */
    ghost predicate Viewed(n: ScriptNode)
      reads n, n.parent
    {
      && Bare(n.view) == n.own
      && n.view.kids.Keys == (if n.open then n.kids.Keys - {n.hole} else n.kids.Keys)
      && (n.parent != null && (!n.parent.open || n.slot != n.parent.hole) ==>
            !n.open && n.slot in n.parent.view.kids && n.parent.view.kids[n.slot] == n.view)
    }

    /** A node on the path is in the hole of the node around it. */
    ghost predicate OnPath(n: ScriptNode)
      reads `theRoot, n, n.parent
    {
      if n.parent == null then theRoot == n && n.around == Top
      else n.parent.open && n.slot == n.parent.hole && n.around == n.parent.Outward()
    }

    ghost predicate Sound(n: ScriptNode)
      reads `nodes, `theRoot, n, n.parent
    {
      HeldByParent(n) && Viewed(n) && (n.open ==> OnPath(n))
    }

    ghost predicate Consistent()
      reads `nodes, `theRoot, nodes
    {
      && (forall n {:trigger Sound(n)} | n in nodes :: (n.parent != null ==> n.parent in nodes) && Sound(n))
      && (forall n, f {:trigger KnowsParent(n, f, n.kids[f])} | n in nodes && f in n.kids ::
            n.kids[f] in nodes && KnowsParent(n, f, n.kids[f]))
    }

    ghost predicate Valid()
      reads this, nodes, theParent
    {
      && Consistent()
      && (theParent != null ==>
            theParent in nodes && theParent.open && theParent.hole == theField)
      && (Pointee() != null ==>
            Pointee() in nodes && !Pointee().open && Pointee().parent == theParent)
    }

    ghost function Abs(): Cursor
      requires Valid()
      reads this, nodes, theParent
    {
      Cursor(
        if Pointee() == null then None else Some(Pointee().view),
        if theParent == null then Top else theParent.Outward(),
        brackets, deferredWidth, deferredSpaces)
    }

    constructor ()
      ensures Valid() && Abs() == START && nodes == {}
    {
      theParent, theRoot, theField := null, null, Op1;
      brackets, deferredWidth, deferredSpaces := 0, 0, 0;
      nodes := {};
    }

    /** Which field of its parent a node is in. The parser looks through the fields in
        turn; a child has one parent and one field, so the search cannot fail. */
    method FieldHolding(child: ScriptNode, up: ScriptNode) returns (f: Field)
      requires child.slot in up.kids && up.kids[child.slot] == child
      requires forall g | g in up.kids :: up.kids[g].slot == g
      ensures f == child.slot
    {
      if Scope in up.kids && up.kids[Scope] == child { f := Scope; }
      else if Name in up.kids && up.kids[Name] == child { f := Name; }
      else if Op1 in up.kids && up.kids[Op1] == child { f := Op1; }
      else if Op2 in up.kids && up.kids[Op2] == child { f := Op2; }
      else if As in up.kids && up.kids[As] == child { f := As; }
      else if To in up.kids && up.kids[To] == child { f := To; }
      else if Before in up.kids && up.kids[Before] == child { f := Before; }
      else if After in up.kids && up.kids[After] == child { f := After; }
      else { assert false; }
    }

    /** The innermost node on the path says something else of itself. */
    method SetOpen(p: ScriptNode, own: Tree)
      requires Consistent() && p in nodes && p.open && (p.hole in p.kids ==> !p.kids[p.hole].open)
      requires own.kids == map[]
      modifies p`own, p`view
      ensures Consistent() && p.own == own && p.view == own.(kids := old(p.view.kids))
    {
      p.own := own;
      p.view := own.(kids := p.view.kids);
      forall n, f | n in nodes && f in n.kids ensures n.kids[f] in nodes && KnowsParent(n, f, n.kids[f]) {
        ghost var knows := old(KnowsParent(n, f, n.kids[f]));
      }
      forall n | n in nodes ensures (n.parent != null ==> n.parent in nodes) && Sound(n) {
        ghost var sound := old(Sound(n));
      }
    }

    /** Changes what the node around the cursor says of itself. */
    method SetParent(own: Tree)
      requires Valid() && theParent != null && own.kids == map[]
      modifies theParent`own, theParent`view
      ensures Valid()
      ensures var c := old(Abs());
        Abs() == c.(path := In(c.path.frame.(node := own.(kids := c.path.frame.node.kids)), c.path.up))
    {
      SetOpen(theParent, own);
    }

    /** Changes what the node under the cursor says of itself. */
    method SetPointee(own: Tree)
      requires Valid() && Pointee() != null && own.kids == map[]
      modifies Pointee()`own, Pointee()`view
      ensures Valid() && Pointee().own == own
      ensures var c := old(Abs()); Abs() == c.(focus := Some(own.(kids := c.focus.value.kids)))
    {
      var p := Pointee();
      p.own := own;
      p.view := own.(kids := p.view.kids);
      forall n, f | n in nodes && f in n.kids ensures n.kids[f] in nodes && KnowsParent(n, f, n.kids[f]) {
        ghost var knows := old(KnowsParent(n, f, n.kids[f]));
      }
      forall n | n in nodes ensures (n.parent != null ==> n.parent in nodes) && Sound(n) {
        ghost var sound := old(Sound(n));
      }
    }

    /** Finishes the view of the node around the cursor. */
    ghost method CloseParent()
      requires Valid() && theParent != null
      modifies theParent`view, theParent`open
      ensures Consistent() && !theParent.open
      ensures theParent.view == old(Filled(Abs().path.frame, Abs().focus))
    {
      var p := theParent;
      p.view := Filled(Frame(p.view, p.hole), Abs().focus);
      p.open := false;
      forall n, f | n in nodes && f in n.kids ensures n.kids[f] in nodes && KnowsParent(n, f, n.kids[f]) {
        ghost var knows := old(KnowsParent(n, f, n.kids[f]));
      }
      forall n | n in nodes ensures (n.parent != null ==> n.parent in nodes) && Sound(n) {
        ghost var sound := old(Sound(n));
      }
    }

    /** Moves the cursor to the pointer at the node around it. */
    method LeaveParent()
      requires Valid() && theParent != null
      modifies this`theParent, this`theField, theParent`view, theParent`open
      ensures Valid() && Pointee() == old(theParent)
      ensures var c := old(Abs());
        Abs() == c.(focus := Some(Filled(c.path.frame, c.focus)), path := c.path.up)
    {
      var p := theParent;
      var up, field := p.parent, theField;
      assert Sound(p);
      if up != null {
        forall f | f in up.kids ensures up.kids[f].slot == f { assert KnowsParent(up, f, up.kids[f]); }
        field := FieldHolding(p, up);
      }
      CloseParent();
      theParent, theField := up, field;
    }

    /** The fields of the nodes at the cursor are those of the cursor's value. */
    lemma OwnFields()
      requires Valid()
      ensures Pointee() != null ==> Abs().focus.Some? && Pointee().own == Bare(Abs().focus.value)
      ensures Pointee() == null ==> Abs().focus == None
      ensures theParent != null ==>
        && Abs().path.In? && Abs().path.frame.hole == theField
        && theParent.own == Bare(Abs().path.frame.node)
        && Abs().path.frame.node.kids.Keys == theParent.kids.Keys - {theField}
      ensures theParent == null <==> Abs().path == Top
    {
      if theParent != null { assert Sound(theParent); }
      if Pointee() != null { assert Sound(Pointee()); }
    }

    method ReturnOneLevel() returns (raised: Event)
      requires Valid() && theParent != null
      modifies this, nodes
      ensures Valid() && nodes == old(nodes)
      ensures Outcome(Abs(), raised) == ParseTree.ReturnOneLevel(old(Abs()))
    {
      var node := Pointee();
      OwnFields();
      if brackets > 0 { return UnexpectedToken; }
      if node != null && node.own.brackets > 0 { return MismatchedBrackets; }

      var width := theParent.own.width + deferredSpaces + deferredWidth;
      var extend := theParent.own.extend;
      if node != null {
        width := width + node.own.spaces + node.own.width;
        extend := extend || (theField == Op2 && node.own.extend);
      }
      SetParent(theParent.own.(width := width, extend := extend));
      deferredSpaces, deferredWidth := 0, 0;
      LeaveParent();
      raised := Quiet;
    }

    // ----- the three ways of putting a node into the tree

    /** A finished tree that no node holds. */
    ghost predicate Loose(n: ScriptNode)
      reads `nodes, n
    {
      n in nodes && n.parent == null && !n.open
    }

    /** A finished node, apart from who holds it. */
    ghost predicate Whole(n: ScriptNode)
      reads n
    {
      !n.open && Bare(n.view) == n.own && n.view.kids.Keys == n.kids.Keys
    }

    /** Everything is as it should be but for who holds one node. */
    ghost predicate ConsistentBut(node: ScriptNode)
      reads `nodes, `theRoot, nodes
    {
      && node in nodes && Whole(node)
      && (forall n {:trigger Sound(n)} | n in nodes && n != node ::
            (n.parent != null ==> n.parent in nodes) && Sound(n))
      && (forall n, f {:trigger KnowsParent(n, f, n.kids[f])} | n in nodes && f in n.kids ::
            n.kids[f] in nodes && KnowsParent(n, f, n.kids[f]))
    }

    ghost predicate Unheld(node: ScriptNode)
      reads `nodes, nodes
    {
      forall n, f | n in nodes && f in n.kids :: n.kids[f] != node
    }

    lemma LooseIsUnheld(node: ScriptNode)
      requires Consistent() && Loose(node)
      ensures ConsistentBut(node) && Unheld(node)
    {
      assert Sound(node);
      forall n, f | n in nodes && f in n.kids
        ensures n.kids[f] in nodes && n.kids[f] != node && KnowsParent(n, f, n.kids[f])
      {
        assert KnowsParent(n, f, n.kids[f]);
      }
      forall n | n in nodes ensures (n.parent != null ==> n.parent in nodes) && Sound(n) { assert Sound(n); }
    }

    lemma LooseIsConsistent(node: ScriptNode)
      requires ConsistentBut(node) && node.parent == null
      ensures Consistent()
    {
      forall n, f | n in nodes && f in n.kids ensures n.kids[f] in nodes && KnowsParent(n, f, n.kids[f]) {
        assert KnowsParent(n, f, n.kids[f]);
      }
      forall n | n in nodes ensures (n.parent != null ==> n.parent in nodes) && Sound(n) {
        if n != node { assert Sound(n); }
      }
    }

    /** Changes the parent of a node that no node holds. */
    method SetUp(node: ScriptNode, up: ScriptNode?, field: Field)
      requires ConsistentBut(node) && Unheld(node)
      modifies node`parent, node`slot
      ensures ConsistentBut(node) && node.parent == up && node.slot == field
    {
      node.parent, node.slot := up, field;
      forall n, f | n in nodes && f in n.kids ensures n.kids[f] in nodes && KnowsParent(n, f, n.kids[f]) {
        ghost var knows := old(KnowsParent(n, f, n.kids[f]));
      }
      forall n | n in nodes && n != node ensures (n.parent != null ==> n.parent in nodes) && Sound(n) {
        ghost var sound := old(Sound(n));
      }
    }

    /** Empties the root pointer. */
    method DetachRoot()
      requires Valid() && Pointee() != null && theParent == null
      modifies this`theRoot
      ensures Valid() && Loose(old(Pointee())) && Abs() == old(Abs()).(focus := None)
    {
      theRoot := null;
      forall n, f | n in nodes && f in n.kids ensures n.kids[f] in nodes && KnowsParent(n, f, n.kids[f]) {
        ghost var knows := old(KnowsParent(n, f, n.kids[f]));
      }
      forall n | n in nodes ensures (n.parent != null ==> n.parent in nodes) && Sound(n) {
        ghost var sound := old(Sound(n));
      }
    }

    /** Empties the hole of a node on the path. */
    method EmptyHole(p: ScriptNode, field: Field, kid: ScriptNode)
      requires Consistent() && p in nodes && p.open && p.hole == field
      requires field in p.kids && p.kids[field] == kid && !kid.open
      modifies p`kids
      ensures ConsistentBut(kid) && Unheld(kid) && p.kids == old(p.kids) - {field}
    {
      assert KnowsParent(p, field, kid) && Sound(kid) && Sound(p);
      p.kids := p.kids - {field};
      forall n, f | n in nodes && f in n.kids ensures n.kids[f] in nodes && KnowsParent(n, f, n.kids[f]) {
        ghost var knows := old(KnowsParent(n, f, n.kids[f]));
      }
      forall n | n in nodes && n != kid ensures (n.parent != null ==> n.parent in nodes) && Sound(n) {
        ghost var sound := old(Sound(n));
      }
    }

    /** Empties the field of the node around the cursor. */
    method DetachChild()
      requires Valid() && Pointee() != null && theParent != null
      modifies theParent`kids, Pointee()`parent, Pointee()`slot
      ensures Valid() && Loose(old(Pointee())) && Abs() == old(Abs()).(focus := None)
      ensures old(Pointee()).view == old(Pointee().view)
    {
      var kid := Pointee();
      EmptyHole(theParent, theField, kid);
      SetUp(kid, null, theField);
      LooseIsConsistent(kid);
    }

    /** Empties the field under the cursor. */
    method Detach() returns (kid: ScriptNode)
      requires Valid() && Pointee() != null
      modifies this`theRoot, Around()`kids, Pointee()`parent, Pointee()`slot
      ensures Valid() && Loose(kid) && Abs() == old(Abs()).(focus := None)
      ensures old(Abs()).focus == Some(kid.view) && kid == old(Pointee())
    {
      kid := Pointee();
      if theParent == null {
        DetachRoot();
      } else {
        DetachChild();
      }
    }

    /** Makes a new node that no node holds yet. */
    method NewLoose(own: Tree) returns (node: ScriptNode)
      requires Valid() && own.kids == map[]
      modifies this`nodes
      ensures Valid() && Loose(node) && Abs() == old(Abs())
      ensures nodes == old(nodes) + {node} && fresh(node)
      ensures node.own == own && node.view == own && node.kids == map[]
    {
      node := new ScriptNode(own);
      nodes := nodes + {node};
      forall n, f | n in nodes && f in n.kids ensures n.kids[f] in nodes && KnowsParent(n, f, n.kids[f]) {
        ghost var knows := old(KnowsParent(n, f, n.kids[f]));
      }
      forall n | n in nodes ensures (n.parent != null ==> n.parent in nodes) && Sound(n) {
        if n != node { ghost var sound := old(Sound(n)); }
      }
    }

    /** Makes a node the only child of its parent. */
    method HoldOnly(p: ScriptNode, field: Field, kid: ScriptNode)
      requires ConsistentBut(kid) && kid.parent == p && kid.slot == field
      requires p != kid && p in nodes && !p.open && p.parent == null && p.kids == map[]
      modifies p`kids, p`view
      ensures Consistent() && p.view == old(p.own).(kids := map[field := kid.view])
    {
      assert Sound(p);
      p.kids := map[field := kid];
      p.view := p.own.(kids := map[field := kid.view]);
      forall n, f | n in nodes && f in n.kids ensures n.kids[f] in nodes && KnowsParent(n, f, n.kids[f]) {
        if n != p { ghost var knows := old(KnowsParent(n, f, n.kids[f])); }
      }
      forall n | n in nodes ensures (n.parent != null ==> n.parent in nodes) && Sound(n) {
        if n != kid && n != p { ghost var sound := old(Sound(n)); }
      }
    }

    /** Makes a loose node the only child of another. */
    method Adopt(node: ScriptNode, field: Field, kid: ScriptNode)
      requires Valid() && Loose(node) && Loose(kid) && node != kid && node.kids == map[] && Pointee() == null
      modifies node`kids, node`view, kid`parent, kid`slot
      ensures Valid() && Loose(node) && Abs() == old(Abs())
      ensures node.view == old(node.own).(kids := map[field := kid.view])
    {
      LooseIsUnheld(kid);
      SetUp(kid, node, field);
      HoldOnly(node, field, kid);
    }

    /** Points the empty root pointer at a loose node. */
    method AttachRoot(node: ScriptNode)
      requires Valid() && Loose(node) && Pointee() == null && theParent == null
      modifies this`theRoot, node`slot
      ensures Valid() && Pointee() == node && Abs() == old(Abs()).(focus := Some(node.view))
    {
      node.slot := theField;
      theRoot := node;
      forall n | n in nodes ensures (n.parent != null ==> n.parent in nodes) && Sound(n) {
        ghost var sound := old(Sound(n));
      }
      forall n, f | n in nodes && f in n.kids ensures n.kids[f] in nodes && KnowsParent(n, f, n.kids[f]) {
        ghost var knows := old(KnowsParent(n, f, n.kids[f]));
      }
    }

    /** Fills the hole of a node on the path. */
    method FillHole(p: ScriptNode, field: Field, node: ScriptNode)
      requires ConsistentBut(node) && node.parent == p && node.slot == field
      requires p != node && p in nodes && p.open && p.hole == field && field !in p.kids
      modifies p`kids
      ensures Consistent() && p.kids == old(p.kids)[field := node]
    {
      assert Sound(p);
      p.kids := p.kids[field := node];
      forall n, f | n in nodes && f in n.kids ensures n.kids[f] in nodes && KnowsParent(n, f, n.kids[f]) {
        if n != p || f != field { ghost var knows := old(KnowsParent(n, f, n.kids[f])); }
      }
      forall n | n in nodes ensures (n.parent != null ==> n.parent in nodes) && Sound(n) {
        if n != node { ghost var sound := old(Sound(n)); }
      }
    }

    /** Points an empty field of the node around the cursor at a loose node. */
    method AttachChild(node: ScriptNode)
      requires Valid() && Loose(node) && Pointee() == null && theParent != null
      modifies theParent`kids, node`parent, node`slot
      ensures Valid() && Pointee() == node && Abs() == old(Abs()).(focus := Some(node.view))
    {
      LooseIsUnheld(node);
      SetUp(node, theParent, theField);
      FillHole(theParent, theField, node);
    }

    /** Points the empty field under the cursor at a loose node. */
    method Attach(node: ScriptNode)
      requires Valid() && Loose(node) && Pointee() == null
      modifies this`theRoot, Around()`kids, node`parent, node`slot
      ensures Valid() && Pointee() == node && Abs() == old(Abs()).(focus := Some(node.view))
    {
      if theParent == null {
        AttachRoot(node);
      } else {
        AttachChild(node);
      }
    }

    /** Puts a new node in the empty field under the cursor. */
    method Place(own: Tree)
      requires Valid() && Pointee() == null && own.kids == map[]
      modifies this`nodes, this`theRoot, Around()`kids
      ensures Valid() && fresh(nodes - old(nodes)) && Abs() == old(Abs()).(focus := Some(own))
    {
      var node := NewLoose(own);
      Attach(node);
    }

    /** Makes a new node that holds a loose one and that no node holds yet. */
    method NewAbove(own: Tree, field: Field, kid: ScriptNode) returns (node: ScriptNode)
      requires Valid() && Loose(kid) && Pointee() == null && own.kids == map[]
      modifies this`nodes, kid`parent, kid`slot
      ensures Valid() && Loose(node) && Abs() == old(Abs())
      ensures nodes == old(nodes) + {node} && fresh(node)
      ensures node.view == own.(kids := map[field := kid.view])
    {
      node := NewLoose(own);
      Adopt(node, field, kid);
    }

    /** Puts a new node between the field under the cursor and the node it points to, which
        becomes the new node's child. */
    method Wrap(own: Tree, field: Field)
      requires Valid() && Pointee() != null && own.kids == map[]
      modifies this`nodes, this`theRoot, Around()`kids, Pointee()`parent, Pointee()`slot
      ensures Valid() && fresh(nodes - old(nodes))
      ensures Abs() == old(Abs()).(focus := Some(own.(kids := map[field := old(Abs()).focus.value])))
    {
      var kid := Detach();
      var node := NewAbove(own, field, kid);
      Attach(node);
    }

    /** Takes a finished node into the path, below a node on it or at the root. */
    ghost method Open(p: ScriptNode, field: Field, path: Path)
      requires Consistent() && p in nodes && !p.open
      requires if p.parent == null then theRoot == p && path == Top
               else p.parent.open && p.slot == p.parent.hole && path == p.parent.Outward()
      modifies p`open, p`hole, p`around, p`view
      ensures Consistent() && p.open && p.hole == field && p.around == path
      ensures p.view == old(p.view.(kids := p.view.kids - {field}))
    {
      p.view := p.view.(kids := p.view.kids - {field});
      p.open, p.hole, p.around := true, field, path;
      forall n, f | n in nodes && f in n.kids ensures n.kids[f] in nodes && KnowsParent(n, f, n.kids[f]) {
        ghost var knows := old(KnowsParent(n, f, n.kids[f]));
      }
      forall n | n in nodes ensures (n.parent != null ==> n.parent in nodes) && Sound(n) {
        ghost var sound := old(Sound(n));
      }
    }

    /** Takes the node under the cursor into the path. */
    ghost method OpenPointee(field: Field)
      requires Valid() && Pointee() != null
      modifies Pointee()`open, Pointee()`hole, Pointee()`around, Pointee()`view
      ensures Consistent() && Pointee().open && Pointee().hole == field
      ensures Pointee().around == old(Abs()).path
      ensures Pointee().view == old(Pointee().view.(kids := Pointee().view.kids - {field}))
    {
      var p, path := Pointee(), Abs().path;
      assert Sound(p);
      if theParent != null { assert KnowsParent(theParent, theField, p); }
      Open(p, field, path);
    }

    /** Moves the cursor into a field of the node under it. */
    method ReadyFor(field: Field) returns (raised: Event)
      requires Valid() && Pointee() != null
      modifies this`theParent, this`theField, Pointee()`open, Pointee()`hole, Pointee()`around, Pointee()`view
      ensures Valid()
      ensures Outcome(Abs(), raised) == ParseTree.ReadyFor(old(Abs()), field)
    {
      var p := Pointee();
      assert Sound(p);
      if field in p.kids {
        assert KnowsParent(p, field, p.kids[field]) && Sound(p.kids[field]);
      }
      OpenPointee(field);
      theParent, theField := p, field;
      raised := if field in p.kids then FieldTaken else Quiet;
    }

    // ----- the actions

    /** The guard of the climb to an insertion point. */
    predicate ClimbsHere(op: Operator)
      requires Valid()
      reads this, nodes, theParent
      ensures ClimbsHere(op) <==> Climbs(Abs(), op)
    {
      OwnFields();
      && theParent != null
      && theParent.own.kind == Operation
      && (Pointee() != null ==> Pointee().own.brackets == 0)
      && (Op1 !in theParent.kids || Priority(theParent.own.op) >= Priority(op))
    }

    method FindInsertionPoint(op: Operator) returns (raised: Event)
      requires Valid()
      modifies this, nodes
      ensures Valid() && nodes == old(nodes)
      ensures Outcome(Abs(), raised) == ParseTree.FindInsertionPoint(old(Abs()), op)
    {
      raised := Quiet;
      while ClimbsHere(op)
        invariant Valid() && nodes == old(nodes) && raised == Quiet
        invariant ParseTree.FindInsertionPoint(Abs(), op) == ParseTree.FindInsertionPoint(old(Abs()), op)
        decreases Abs().path
      {
        OwnFields();
        raised := ReturnOneLevel();
        if raised != Quiet { return; }
      }
    }

    predicate PassesHere(target: Target)
      requires Valid()
      reads this, nodes, theParent
      ensures PassesHere(target) <==> Abs().path.In? && Passes(target, Abs().path.frame.node)
    {
      OwnFields();
      theParent != null && Passes(target, theParent.own)
    }

    method ReturnTo(target: Target) returns (raised: Event)
      requires Valid()
      modifies this, nodes
      ensures Valid() && nodes == old(nodes)
      ensures Outcome(Abs(), raised) == ParseTree.ReturnTo(old(Abs()), target)
    {
      raised := Quiet;
      while PassesHere(target)
        invariant Valid() && nodes == old(nodes) && raised == Quiet
        invariant ParseTree.ReturnTo(Abs(), target) == ParseTree.ReturnTo(old(Abs()), target)
        decreases Abs().path
      {
        OwnFields();
        raised := ReturnOneLevel();
        if raised != Quiet { return; }
      }
    }

    method ReturnToParent() returns (raised: Event)
      requires Valid()
      modifies this, nodes
      ensures Valid() && nodes == old(nodes)
      ensures Outcome(Abs(), raised) == ParseTree.ReturnToParent(old(Abs()))
    {
      OwnFields();
      raised := Quiet;
      if theParent != null {
        raised := ReturnOneLevel();
      }
    }

    /** Puts an operator node above what the cursor points to, as its first operand. */
    method PutAbove(op: Operator)
      requires Valid()
      modifies this, nodes
      ensures Valid() && fresh(nodes - old(nodes))
      ensures var c := old(Abs()); Abs() == Cursor(Some(Above(c, op)), c.path, c.brackets, 0, 0)
    {
      ghost var c := Abs();
      OwnFields();
      var own := NewNode(Operation, "").(op := op, width := deferredWidth, spaces := deferredSpaces);
      deferredWidth, deferredSpaces := 0, 0;
      if Pointee() == null {
        Place(own);
      } else {
        var kid := Pointee().own;
        own := own.(spaces := own.spaces + kid.spaces, width := own.width + kid.width, brackets := kid.brackets);
        SetPointee(kid.(spaces := 0, brackets := 0));
        Wrap(own, Op1);
      }
    }

    /** Puts a leaf in the empty field under the cursor, with the deferred columns. */
    method PutLeaf(app: Tree)
      requires Valid() && Pointee() == null && app.kids == map[]
      modifies this, nodes
      ensures Valid() && fresh(nodes - old(nodes))
      ensures var c := old(Abs());
        var leaf := app.(width := app.width + c.deferredWidth, spaces := app.spaces + c.deferredSpaces);
        Abs() == c.(focus := Some(leaf), deferredWidth := 0, deferredSpaces := 0)
    {
      var leaf := app.(width := app.width + deferredWidth, spaces := app.spaces + deferredSpaces);
      deferredWidth, deferredSpaces := 0, 0;
      Place(leaf);
    }

    /** Puts a leaf in the empty second field of the node under the cursor. */
    method PlaceSecond(app: Tree)
      requires Valid() && Abs().focus.Some? && Op2 !in Abs().focus.value.kids && app.kids == map[]
      modifies this, nodes
      ensures Valid() && fresh(nodes - old(nodes))
      ensures var c := old(Abs()); Abs() == c.(focus := Some(app), path := In(Frame(c.focus.value, Op2), c.path))
    {
      OwnFields();
      ghost var kids := Abs().focus.value.kids;
      var taken := ReadyFor(Op2);
      assert kids - {Op2} == kids;
      Place(app);
    }

    method InsertTheNode(app: Option<Tree>, op: Operator) returns (raised: Event)
      requires Valid() && (op == Undefined ==> app.Some?) && (app.Some? ==> app.value.kids == map[])
      modifies this, nodes
      ensures Valid() && fresh(nodes - old(nodes))
      ensures Outcome(Abs(), raised) == ParseTree.InsertTheNode(old(Abs()), app, op)
    {
      if op != Undefined || Pointee() != null {
        raised := FindInsertionPoint(op);
        PutAbove(op);
        if app.Some? { PlaceSecond(app.value); }
      } else {
        raised := Quiet;
        PutLeaf(app.value);
      }
    }

    method InsertSimpleNode(kind: Kind, text: string) returns (raised: Event)
      requires Valid()
      modifies this, nodes
      ensures Valid() && fresh(nodes - old(nodes)) && Pointee() != null
      ensures Outcome(Abs(), raised) == ParseTree.InsertSimpleNode(old(Abs()), kind, text)
    {
      var leaf := NewNode(kind, text).(brackets := brackets);
      brackets := 0;
      raised := InsertTheNode(Some(leaf), Undefined);
    }

    method InsertUnaryOperator(op: Operator) returns (raised: Event)
      requires Valid()
      modifies this, nodes
      ensures Valid() && fresh(nodes - old(nodes))
      ensures Outcome(Abs(), raised) == ParseTree.InsertUnaryOperator(old(Abs()), op)
    {
      raised := InsertSimpleNode(Operation, "");
      OwnFields();
      SetPointee(Pointee().own.(op := op));
    }

    /** Gives the pending brackets to the node under the cursor. */
    method GiveBrackets()
      requires Valid() && Abs().focus.Some?
      modifies this, nodes
      ensures Valid() && nodes == old(nodes)
      ensures var c := old(Abs()); var t := c.focus.value;
        Abs() == c.(focus := Some(t.(brackets := t.brackets + c.brackets)), brackets := 0)
    {
      OwnFields();
      var own := Pointee().own;
      SetPointee(own.(brackets := own.brackets + brackets));
      brackets := 0;
    }

    method InsertOperator(op: Operator) returns (raised: Event)
      requires Valid() && op != Undefined
      modifies this, nodes
      ensures Valid() && fresh(nodes - old(nodes))
      ensures Outcome(Abs(), raised) == ParseTree.InsertOperator(old(Abs()), op)
    {
      raised := InsertTheNode(None, op);
      GiveBrackets();
    }

    method InsertDataSpecifier(kind: Kind) returns (raised: Event)
      requires Valid()
      modifies this, nodes
      ensures Valid() && fresh(nodes - old(nodes))
      ensures Outcome(Abs(), raised) == ParseTree.InsertDataSpecifier(old(Abs()), kind)
    {
      var own := NewNode(kind, "").(stacked := kind == Member);
      OwnFields();
      raised := Quiet;
      if Pointee() == null {
        Place(own);
      } else {
        var kid := Pointee().own;
        own := own.(spaces := kid.spaces, width := kid.width, brackets := kid.brackets);
        SetPointee(kid.(brackets := 0));
        Wrap(own, Scope);
      }
    }

    method InsertSpacesOnly(tokenSpaces: nat) returns (raised: Event)
      requires Valid()
      modifies this, nodes
      ensures Valid() && fresh(nodes - old(nodes))
      ensures Outcome(Abs(), raised) == ParseTree.InsertSpacesOnly(old(Abs()), tokenSpaces)
    {
      OwnFields();
      raised := Quiet;
      if tokenSpaces > 0 || Pointee() == null {
        raised := InsertSimpleNode(Text, "");
        OwnFields();
        SetPointee(Pointee().own.(spaces := Pointee().own.spaces + tokenSpaces));
      }
    }

    method CountToken(width: nat, spaces: nat)
      requires Valid()
      modifies this, nodes
      ensures Valid() && nodes == old(nodes)
      ensures Abs() == ParseTree.CountToken(old(Abs()), width, spaces)
    {
      OwnFields();
      var node := Pointee();
      if node != null {
        SetPointee(node.own.(width := node.own.width + width, spaces := node.own.spaces + spaces));
      } else {
        deferredWidth := deferredWidth + width;
        deferredSpaces := deferredSpaces + spaces;
      }
    }

    method AddOneBracket()
      requires Valid()
      modifies this`brackets
      ensures Valid() && Abs() == old(Abs()).(brackets := old(Abs()).brackets + 1)
    {
      brackets := brackets + 1;
    }

    /** The guard of the climb to the bracket that a closing bracket closes. */
    predicate ClosesBeyond()
      requires Valid() && Abs().focus.Some?
      reads this, nodes, theParent
      ensures ClosesBeyond() <==> var c := Abs();
        c.path.In? && c.focus.value.brackets == 0
        && c.path.frame.node.kind == Operation && c.path.frame.node.op != NextArg
    {
      OwnFields();
      theParent != null && Pointee().own.brackets == 0
      && theParent.own.kind == Operation && theParent.own.op != NextArg
    }

    method ClimbToBracket() returns (raised: Event)
      requires Valid() && Abs().focus.Some?
      modifies this, nodes
      ensures Valid() && nodes == old(nodes)
      ensures Outcome(Abs(), raised) == CloseClimb(old(Abs()))
    {
      raised := Quiet;
      while ClosesBeyond()
        invariant Valid() && nodes == old(nodes) && raised == Quiet && Abs().focus.Some?
        invariant CloseClimb(Abs()) == CloseClimb(old(Abs()))
        decreases Abs().path
      {
        OwnFields();
        raised := ReturnOneLevel();
        if raised != Quiet { return; }
      }
    }

    method CloseOneBracket() returns (raised: Event)
      requires Valid()
      modifies this, nodes
      ensures Valid() && nodes == old(nodes)
      ensures Outcome(Abs(), raised) == CloseBracket(old(Abs()))
    {
      OwnFields();
      if Pointee() == null {
        return if brackets > 0 then UnexpectedToken else NoBracket;
      }
      raised := ClimbToBracket();
      if raised != Quiet { return; }
      OwnFields();
      var own := Pointee().own;
      if own.brackets > 0 {
        SetPointee(own.(brackets := own.brackets - 1));
      } else {
        raised := NoBracket;
      }
    }

    method SetExtendFlag()
      requires Valid() && (Pointee() != null || theParent != null)
      modifies this, nodes
      ensures Valid() && nodes == old(nodes)
      ensures Abs() == SetExtend(old(Abs()))
    {
      OwnFields();
      if Pointee() != null {
        SetPointee(Pointee().own.(extend := true));
      } else {
        SetParent(theParent.own.(extend := true));
      }
    }

    method ChangeKind(kind: Kind)
      requires Valid() && Pointee() != null
      modifies this, nodes
      ensures Valid() && nodes == old(nodes)
      ensures Abs() == old(Abs()).(focus := Some(old(Abs()).focus.value.(kind := kind)))
    {
      OwnFields();
      SetPointee(Pointee().own.(kind := kind));
    }

    method CopyTheOperator(op: Operator)
      requires Valid() && Pointee() != null
      modifies this, nodes
      ensures Valid() && nodes == old(nodes)
      ensures Abs() == old(Abs()).(focus := Some(old(Abs()).focus.value.(op := op)))
    {
      OwnFields();
      SetPointee(Pointee().own.(op := op));
    }
  }
}
