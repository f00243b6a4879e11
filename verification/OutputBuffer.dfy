/** Extended output lines.

A line that is extended is kept, as a tree of results, until a line that is not; each
new line is hung beside what is kept, under a new node that takes over the spaces
before it. What is written in the end is one concatenation, whose operands are those
of all the lines.
*/
module OutputBuffer {
  import opened LayoutSpec
  import opened ResultWalk
  import opened Trim
  import opened Concatenate
  import opened Wrappers

  ghost predicate Agree(nodes: set<ResultNode>, a: map<ResultNode, nat>, b: map<ResultNode, nat>) {
    forall n <- nodes :: n in a && n in b && a[n] == b[n]
  }

  /** The spaces of the root are passed on from outside, so those it holds do not matter. */
  lemma {:induction false} LeadsAgree(t: Shape, lead: nat, a: map<ResultNode, nat>, b: map<ResultNode, nat>)
    requires IsTree(t) && Members(t) <= a.Keys && Members(t) <= b.Keys
    requires Agree(Members(t) - {t.node}, a, b)
    ensures Leads(t, lead, a) == Leads(t, lead, b)
  {
    if t.Join? {
      LeadsAgree(t.left, lead, a, b);
      LeadsAgree(t.right, a[t.right.node], a, b);
    }
  }

  /** The new node takes over the spaces before the lines kept. */
  lemma {:induction false} GraftLeads(a: Shape, b: Shape, root: ResultNode,
                   inA: map<ResultNode, nat>, inB: map<ResultNode, nat>, now: map<ResultNode, nat>)
    requires IsTree(a) && IsTree(b) && Members(a) == inA.Keys && Members(b) == inB.Keys
    requires Members(Join(root, a, b)) <= now.Keys && now[root] == inA[a.node]
    requires Agree(Members(a) - {a.node}, inA, now) && Agree(Members(b), inB, now)
    ensures Leads(Join(root, a, b), now[root], now) == Leads(a, inA[a.node], inA) + Leads(b, inB[b.node], inB)
  {
    LeadsAgree(a, now[root], inA, now);
    LeadsAgree(b, now[b.node], inB, now);
    LeadsOfJoin(a, b, root, now[root], now);
  }

  lemma LeadsOfJoin(a: Shape, b: Shape, root: ResultNode, lead: nat, script: map<ResultNode, nat>)
    requires Members(Join(root, a, b)) <= script.Keys
    ensures Members(a) <= script.Keys && Members(b) <= script.Keys && b.node in script.Keys
    ensures Leads(Join(root, a, b), lead, script) == Leads(a, lead, script) + Leads(b, script[b.node], script)
  {
  }

  /** A tree whose root has got another parent. */
  twostate predicate Rehung(t: Shape, nodes: set<ResultNode>, was: ResultNode?, new parent: ResultNode?)
    requires IsTree(t) && Members(t) <= nodes && old(Holds(t, was)) && t.node.parent == parent
    requires forall n <- Members(t) :: n in nodes && n.op1 == old(n.op1) && n.op2 == old(n.op2)
    requires forall n <- Members(t) :: n in nodes && (n != t.node ==> n.parent == old(n.parent))
    reads nodes
    ensures Holds(t, parent)
  {
    match t
    case Leaf(_) => true
    case Join(n, l, r) =>
      assert old(Holds(l, n)) && old(Holds(r, n));
      assert l.node in Members(l) && r.node in Members(r);
      assert Rehung(l, nodes, n, n) && Rehung(r, nodes, n, n);
      true
  }

  /** A new node with the lines kept on its left and the new one on its right. */
  method Link(first: ResultNode, line: ResultNode, ghost top: ResultNode,
              ghost a: Shape, ghost b: Shape, ghost inA: set<ResultNode>, ghost inB: set<ResultNode>)
    returns (root: ResultNode, ghost whole: Shape, ghost members: set<ResultNode>)
    requires a.node == first && IsTree(a) && Members(a) == inA && Holds(a, null)
    requires b.node == line && IsTree(b) && Members(b) == inB && Holds(b, top)
    requires inA !! inB && top !in inA && top !in inB
    modifies first`parent, line`parent
    ensures fresh(root) && whole == Join(root, a, b) && members == {root} + inA + inB
    ensures IsTree(whole) && Members(whole) == members && Holds(whole, null)
  {
    root := new ResultNode(true, true);
    root.op1 := first;
    first.parent := root;
    root.op2 := line;
    line.parent := root;
    whole, members := Join(root, a, b), {root} + inA + inB;
    assert Rehung(a, inA, null, root);
    assert Rehung(b, inB, top, root);
  }

  /** The spaces before the lines kept go to the new node. */
  method Migrate(first: ResultNode, root: ResultNode, ghost a: Shape, ghost b: Shape,
                 ghost inA: set<ResultNode>, ghost inB: set<ResultNode>, ghost members: set<ResultNode>)
    requires Members(a) == inA && Members(b) == inB && members == {root} + inA + inB && a.node == first
    requires IsTree(Join(root, a, b)) && Holds(Join(root, a, b), null)
    modifies first`indent, root`indent
    ensures Holds(Join(root, a, b), null)
    ensures LeadsNow(Join(root, a, b), members) == old(LeadsNow(a, inA)) + old(LeadsNow(b, inB))
  {
    ghost var before, other := Indents(inA), Indents(inB);
    root.indent := first.indent;
    first.indent := 0;
    GraftLeads(a, b, root, before, other, Indents(members));
  }

  /** Both: the leaves of the whole are those of the two, with their spaces. */
  method Hang(first: ResultNode, line: ResultNode, ghost top: ResultNode,
              ghost a: Shape, ghost b: Shape, ghost inA: set<ResultNode>, ghost inB: set<ResultNode>)
    returns (root: ResultNode, ghost whole: Shape, ghost members: set<ResultNode>)
    requires a.node == first && IsTree(a) && Members(a) == inA && Holds(a, null)
    requires b.node == line && IsTree(b) && Members(b) == inB && Holds(b, top)
    requires inA !! inB && top !in inA && top !in inB
    modifies first`parent, first`indent, line`parent
    ensures fresh(root) && whole.node == root && members == {root} + inA + inB
    ensures IsTree(whole) && Members(whole) == members && Holds(whole, null)
    ensures Leaves(whole) == Leaves(a) + Leaves(b)
    ensures LeadsNow(whole, members) == old(LeadsNow(a, inA)) + old(LeadsNow(b, inB))
  {
    root, whole, members := Link(first, line, top, a, b, inA, inB);
    Migrate(first, root, a, b, inA, inB, members);
  }

  /** The operands that leaves are, with the spaces before each. */
  ghost predicate AreOperandsAt(ops: seq<Operand>, leaves: seq<ResultNode>, leads: seq<nat>, nodes: set<ResultNode>)
    reads nodes`value, nodes`width, nodes`extend
  {
    && |ops| == |leaves| == |leads| && (forall n <- leaves :: n in nodes)
    && forall i | 0 <= i < |ops| :: IsOperand(ops[i], leaves[i], leads[i])
  }

  /** Hanging operands elsewhere does not change them. */
  twostate predicate SameOperands(ops: seq<Operand>, leaves: seq<ResultNode>, leads: seq<nat>, nodes: set<ResultNode>,
                                  new members: set<ResultNode>)
    requires old(AreOperandsAt(ops, leaves, leads, nodes)) && nodes <= members
    requires forall n <- nodes :: n.value == old(n.value) && n.width == old(n.width) && n.extend == old(n.extend)
    reads nodes, members
    ensures AreOperandsAt(ops, leaves, leads, members)
  {
    assert forall i | 0 <= i < |ops| :: IsOperand(ops[i], leaves[i], leads[i]);
    true
  }

  /** The text of one concatenation, unless an operand is undefined. */
  function Written(ops: seq<Operand>, shuffle: int): Option<string> {
    if forall op <- ops :: Defined(op.value) then Some(Trimmed(Joined(Measure(ops, shuffle).placed))) else None
  }

  /** Writes a whole line. */
  method Write(root: ResultNode, shuffle: int, ghost whole: Shape, ghost top: ResultNode?,
               ghost members: set<ResultNode>, ghost ops: seq<Operand>)
    returns (text: Option<string>)
    requires whole.node == root && Members(whole) == members && Walkable(TourOf(whole, top, members))
    requires AreOperandsAt(ops, Leaves(whole), LeadsNow(whole, members), members)
    modifies members`indent
    ensures text == Written(ops, shuffle)
  {
    LeadsBegin(whole, root.indent, root.indent, Indents(members));
    var reported;
    text, reported := ConcatenateResults(root, shuffle, true, whole, top, members, ops);
  }

  /** The operands of a line, and whether the next one follows it. */
  datatype Row = Row(ops: seq<Operand>, extend: bool)

  /** What is written for lines, after some operands that are kept: an extended line joins
      the one after it, and an undefined operand is an error that ends the run. */
  function Outputs(kept: seq<Operand>, rows: seq<Row>, shuffle: int): seq<Option<string>>
    decreases |rows|
  {
    if rows == [] then []
    else
      var rest := Outputs(KeptAfter(kept, rows[0]), rows[1..], shuffle);
      Next(rows[0].extend, Written(kept + rows[0].ops, shuffle), rest)
  }

  /** A line that goes on has no text of its own, and one that fails is the last. */
  function Next(extend: bool, text: Option<string>, rest: seq<Option<string>>): seq<Option<string>> {
    if extend then rest else if text.None? then [None] else [text] + rest
  }

  /** The operands that are kept after a line. */
  function KeptAfter(kept: seq<Operand>, row: Row): seq<Operand> {
    if row.extend then kept + row.ops else []
  }

  lemma OutputsNext(kept: seq<Operand>, rows: seq<Row>, i: nat, shuffle: int)
    requires i < |rows|
    ensures var rest := Outputs(KeptAfter(kept, rows[i]), rows[i + 1..], shuffle);
      Outputs(kept, rows[i..], shuffle) == Next(rows[i].extend, Written(kept + rows[i].ops, shuffle), rest)
  {
    assert rows[i..][1..] == rows[i + 1..];
  }

  /** A line as it is evaluated: a tree under `top`, and its operands. */
  ghost predicate IsLine(line: ResultNode, t: Shape, nodes: set<ResultNode>, top: ResultNode, ops: seq<Operand>)
    reads nodes
  {
    && t.node == line && IsTree(t) && Members(t) == nodes && Holds(t, top) && top !in nodes
    && AreOperandsAt(ops, Leaves(t), LeadsNow(t, nodes), nodes)
  }

  /** Lines that are evaluated one after the other, each in its own nodes. */
  datatype Script = Script(lines: seq<ResultNode>, ts: seq<Shape>, sets: seq<set<ResultNode>>, rows: seq<Row>,
                           top: ResultNode, all: set<ResultNode>)
  {
    ghost predicate Fits() {
      && |lines| == |ts| == |sets| == |rows|
      && (forall i | 0 <= i < |lines| :: sets[i] <= all)
      && forall i, j | 0 <= i < j < |lines| :: sets[i] !! sets[j]
    }

    ghost predicate IsLineAt(i: nat)
      requires Fits() && i < |lines|
      reads all
    {
      IsLine(lines[i], ts[i], sets[i], top, rows[i].ops)
    }
  }

  lemma OperandsTogether(first: seq<Operand>, a: seq<ResultNode>, x: seq<nat>, inA: set<ResultNode>,
                         second: seq<Operand>, b: seq<ResultNode>, y: seq<nat>, inB: set<ResultNode>)
    requires AreOperandsAt(first, a, x, inA) && AreOperandsAt(second, b, y, inB)
    ensures AreOperandsAt(first + second, a + b, x + y, inA + inB)
  {
  }

  datatype View = Nothing | Lines(shape: Shape, nodes: set<ResultNode>)

  /** The lines kept so far. */
  class Buffer {
    var kept: ResultNode?
    ghost var view: View

    ghost function Nodes(): set<ResultNode>
      reads this
    {
      if view.Lines? then view.nodes else {}
    }

    ghost predicate Valid()
      reads this, Nodes()
    {
      if view.Nothing? then kept == null
      else kept == view.shape.node && IsTree(view.shape) && Members(view.shape) == view.nodes && Holds(view.shape, null)
    }

    /** The operands kept. */
    ghost function Operands(): seq<ResultNode>
      reads this
    {
      if view.Nothing? then [] else Leaves(view.shape)
    }

    /** The spaces before each. */
    ghost function Spaces(): seq<nat>
      requires Valid()
      reads this, Nodes()
    {
      if view.Nothing? then [] else LeadsNow(view.shape, view.nodes)
    }

    /** Hangs a line beside the lines kept, under a new node without a parent. */
    method LinkKept(line: ResultNode, ghost top: ResultNode, ghost t: Shape, ghost others: set<ResultNode>)
      returns (root: ResultNode, ghost whole: Shape, ghost members: set<ResultNode>)
      requires Valid() && kept != null
      requires t.node == line && IsTree(t) && Members(t) == others && Holds(t, top)
      requires Nodes() !! others && top !in Nodes() && top !in others
      modifies this, Nodes()`parent, Nodes()`indent, line`parent
      ensures view == Nothing && Valid()
      ensures old(Nodes()) + others <= members && fresh(members - old(Nodes()) - others)
      ensures whole.node == root && IsTree(whole) && Members(whole) == members && Holds(whole, null)
      ensures Leaves(whole) == old(Operands()) + Leaves(t)
      ensures LeadsNow(whole, members) == old(Spaces()) + old(LeadsNow(t, others))
    {
      var first: ResultNode := kept;
      root, whole, members := Hang(first, line, top, view.shape, t, view.nodes, others);
      kept, view := null, Nothing;
    }

    /** Hangs a line beside the lines kept, if there are any; the result is the whole line so
        far. */
    method Graft(line: ResultNode, ghost top: ResultNode, ghost t: Shape, ghost others: set<ResultNode>)
      returns (root: ResultNode, ghost whole: Shape, ghost members: set<ResultNode>, ghost over: ResultNode?)
      requires Valid()
      requires t.node == line && IsTree(t) && Members(t) == others && Holds(t, top)
      requires Nodes() !! others && top !in Nodes() && top !in others
      modifies this, Nodes()`parent, Nodes()`indent, line`parent
      ensures view == Nothing && Valid()
      ensures old(Nodes()) + others <= members && fresh(members - old(Nodes()) - others)
      ensures over == if old(kept) == null then top else null
      ensures whole.node == root && IsTree(whole) && Members(whole) == members && Holds(whole, over)
      ensures Leaves(whole) == old(Operands()) + Leaves(t)
      ensures LeadsNow(whole, members) == old(Spaces()) + old(LeadsNow(t, others))
    {
      if kept == null {
        root, whole, members, over := line, t, others, top;
      } else {
        root, whole, members := LinkKept(line, top, t, others);
        over := null;
      }
    }

    /** Keeps the line, which the next one will follow. */
    method Keep(root: ResultNode, ghost over: ResultNode?, ghost whole: Shape, ghost members: set<ResultNode>)
      requires Valid() && view == Nothing
      requires whole.node == root && IsTree(whole) && Members(whole) == members && Holds(whole, over)
      modifies this, root`parent
      ensures Valid() && view == Lines(whole, members) && Nodes() == members && Operands() == Leaves(whole)
      ensures Spaces() == old(LeadsNow(whole, members))
    {
      root.parent := null;
      assert Rehung(whole, members, over, null);
      kept, view := root, Lines(whole, members);
    }

    /** The operands of the whole line are those kept and those of the line. */
    method GraftOperands(line: ResultNode, ghost top: ResultNode, ghost t: Shape, ghost others: set<ResultNode>,
                         ghost leaves: seq<ResultNode>, ghost leads: seq<nat>, ghost ops: seq<Operand>)
      returns (root: ResultNode, ghost whole: Shape, ghost members: set<ResultNode>, ghost over: ResultNode?)
      requires Valid() && !top.joins
      requires t.node == line && IsTree(t) && Members(t) == others && Holds(t, top)
      requires Nodes() !! others && top !in Nodes() && top !in others
      requires leaves == Operands() + Leaves(t) && leads == Spaces() + LeadsNow(t, others)
      requires AreOperandsAt(ops, leaves, leads, Nodes() + others)
      modifies this, Nodes()`parent, Nodes()`indent, line`parent
      ensures view == Nothing && Valid() && fresh(members - old(Nodes()) - others)
      ensures whole.node == root && Members(whole) == members && Walkable(TourOf(whole, over, members))
      ensures Leaves(whole) == leaves && LeadsNow(whole, members) == leads
      ensures AreOperandsAt(ops, leaves, leads, members)
    {
      root, whole, members, over := Graft(line, top, t, others);
      assert SameOperands(ops, leaves, leads, old(Nodes()) + others, members);
    }

    /** Keeps the whole line so far, or writes it. */
    method Finish(root: ResultNode, extend: bool, shuffle: int, ghost whole: Shape, ghost members: set<ResultNode>,
                  ghost over: ResultNode?, ghost leaves: seq<ResultNode>, ghost leads: seq<nat>,
                  ghost ops: seq<Operand>)
      returns (text: Option<string>)
      requires Valid() && view == Nothing
      requires whole.node == root && Members(whole) == members && Walkable(TourOf(whole, over, members))
      requires Leaves(whole) == leaves && LeadsNow(whole, members) == leads
      requires AreOperandsAt(ops, leaves, leads, members)
      modifies this, root`parent, members`indent
      ensures Valid() && Nodes() <= members
      ensures extend ==> text == None && Operands() == leaves && Spaces() == leads
      ensures extend ==> AreOperandsAt(ops, leaves, leads, Nodes())
      ensures !extend ==> view == Nothing
      ensures !extend ==> text == Written(ops, shuffle)
    {
      text := None;
      if extend {
        Keep(root, over, whole, members);
      } else {
        text := Write(root, shuffle, whole, over, members, ops);
      }
    }

    /** Copies a line to the output. An extended line is kept. One that is not is written
        with all the lines kept before it: the text is that of one concatenation, whose
        operands are those of every line in turn, each after its own spaces. */
    method CopyLine(line: ResultNode, extend: bool, shuffle: int, ghost top: ResultNode, ghost t: Shape,
                    ghost others: set<ResultNode>, ghost leaves: seq<ResultNode>, ghost leads: seq<nat>,
                    ghost ops: seq<Operand>)
      returns (text: Option<string>)
      requires Valid() && !top.joins
      requires t.node == line && IsTree(t) && Members(t) == others && Holds(t, top)
      requires Nodes() !! others && top !in Nodes() && top !in others
      requires leaves == Operands() + Leaves(t) && leads == Spaces() + LeadsNow(t, others)
      requires AreOperandsAt(ops, leaves, leads, Nodes() + others)
      modifies this, Nodes()`parent, Nodes()`indent, others`parent, others`indent
      ensures Valid()
      ensures fresh(Nodes() - old(Nodes()) - others)
      ensures extend ==> text == None && Operands() == leaves && Spaces() == leads
      ensures extend ==> AreOperandsAt(ops, leaves, leads, Nodes())
      ensures !extend ==> view == Nothing
      ensures !extend ==> text == Written(ops, shuffle)
    {
      ghost var whole, members, over;
      var root;
      root, whole, members, over := GraftOperands(line, top, t, others, leaves, leads, ops);
      text := Finish(root, extend, shuffle, whole, members, over, leaves, leads, ops);
    }

    /** Copies a line after those that are kept. */
    method CopyNext(line: ResultNode, extend: bool, shuffle: int, ghost top: ResultNode, ghost t: Shape,
                    ghost others: set<ResultNode>, ghost ops: seq<Operand>, ghost kept: seq<Operand>)
      returns (text: Option<string>)
      requires Valid() && !top.joins && top !in Nodes() && AreOperandsAt(kept, Operands(), Spaces(), Nodes())
      requires IsLine(line, t, others, top, ops) && Nodes() !! others
      modifies this, Nodes()`parent, Nodes()`indent, others`parent, others`indent
      ensures Valid() && fresh(Nodes() - old(Nodes()) - others)
      ensures extend ==> text == None && AreOperandsAt(kept + ops, Operands(), Spaces(), Nodes())
      ensures !extend ==> text == Written(kept + ops, shuffle) && AreOperandsAt([], Operands(), Spaces(), Nodes())
    {
      ghost var leaves, leads := Operands() + Leaves(t), Spaces() + LeadsNow(t, others);
      OperandsTogether(kept, Operands(), Spaces(), Nodes(), ops, Leaves(t), LeadsNow(t, others), others);
      text := CopyLine(line, extend, shuffle, top, t, others, leaves, leads, kept + ops);
    }

    /** The lines from the `i`-th on are still as they were evaluated. */
    ghost predicate Waiting(script: Script, i: nat)
      reads this, Nodes(), script.all
    {
      && Valid() && script.Fits() && script.top !in Nodes() && !script.top.joins
      && forall j | i <= j < |script.lines| :: Nodes() !! script.sets[j] && script.IsLineAt(j)
    }

    method CopyNth(line: ResultNode, extend: bool, shuffle: int, ghost script: Script, ghost i: nat,
                   ghost kept: seq<Operand>)
      returns (text: Option<string>)
      requires Waiting(script, i) && AreOperandsAt(kept, Operands(), Spaces(), Nodes())
      requires i < |script.lines| && line == script.lines[i] && extend == script.rows[i].extend
      modifies this, Nodes()`parent, Nodes()`indent, script.all`parent, script.all`indent
      ensures Waiting(script, i + 1) && fresh(Nodes() - old(Nodes()) - script.all)
      ensures extend ==> text == None
      ensures !extend ==> text == Written(kept + script.rows[i].ops, shuffle)
      ensures AreOperandsAt(KeptAfter(kept, script.rows[i]), Operands(), Spaces(), Nodes())
    {
      assert script.IsLineAt(i);
      ghost var others := script.sets[i];
      text := CopyNext(line, extend, shuffle, script.top, script.ts[i], others, script.rows[i].ops, kept);
      forall j | i + 1 <= j < |script.lines| ensures Nodes() !! script.sets[j] && script.IsLineAt(j) {
        assert old(script.IsLineAt(j)) && script.sets[j] !! others;
      }
    }

    /** Copies line after line: what is written is what the rows of operands say. */
    method CopyLines(lines: seq<ResultNode>, goesOn: seq<bool>, i: nat, shuffle: int, ghost script: Script,
                     ghost kept: seq<Operand>)
      returns (texts: seq<Option<string>>)
      requires i <= |lines| == |goesOn| && lines == script.lines
      requires Waiting(script, i) && AreOperandsAt(kept, Operands(), Spaces(), Nodes())
      requires forall j | 0 <= j < |lines| :: goesOn[j] == script.rows[j].extend
      modifies this, Nodes()`parent, Nodes()`indent, script.all`parent, script.all`indent
      ensures texts == Outputs(kept, script.rows[i..], shuffle)
      decreases |lines| - i, 1
    {
      if i == |lines| { return []; }
      var text := CopyNth(lines[i], goesOn[i], shuffle, script, i, kept);
      texts := CopyRest(lines, goesOn, i, shuffle, text, script, KeptAfter(kept, script.rows[i]));
      OutputsNext(kept, script.rows, i, shuffle);
    }

    /** The text of a line, unless it was kept, and those of the lines after it, unless it
        has none. */
    method CopyRest(lines: seq<ResultNode>, goesOn: seq<bool>, i: nat, shuffle: int, text: Option<string>,
                    ghost script: Script, ghost kept: seq<Operand>)
      returns (texts: seq<Option<string>>)
      requires i < |lines| == |goesOn| && lines == script.lines
      requires Waiting(script, i + 1) && AreOperandsAt(kept, Operands(), Spaces(), Nodes())
      requires forall j | 0 <= j < |lines| :: goesOn[j] == script.rows[j].extend
      modifies this, Nodes()`parent, Nodes()`indent, script.all`parent, script.all`indent
      ensures texts == Next(goesOn[i], text, Outputs(kept, script.rows[i + 1..], shuffle))
      decreases |lines| - i, 0
    {
      texts := [text];
      if goesOn[i] || text != None {
        var rest := CopyLines(lines, goesOn, i + 1, shuffle, script, kept);
        texts := if goesOn[i] then rest else texts + rest;
      }
    }
  }
}
