/** Work inside an operand does not depend on what is around it.

The parser reads an operand by inserting a node, going into its fields and coming back to
it. Climbing stops at the operand's own node, which is no operator. So such a run can be
looked at on its own, with the operand as the root, and then does the same wherever the
operand stands and whatever columns and brackets its node already has.
*/
module CursorFrame {
  import opened ParseTree
  import opened Wrappers

  /** The columns and brackets that a node has beside those of its own run. */
  datatype Extra = Extra(width: nat, spaces: nat, brackets: nat)

  function Add(t: Tree, x: Extra): Tree {
    t.(width := t.width + x.width, spaces := t.spaces + x.spaces, brackets := t.brackets + x.brackets)
  }

  /** A path put into `base`: its outermost node, the operand, has the extra layout. */
  function EmbedPath(p: Path, base: Path, x: Extra): Path {
    match p
    case Top => base
    case In(f, up) => In(if up.Top? then Frame(Add(f.node, x), f.hole) else f, EmbedPath(up, base, x))
  }

  function Embed(c: Cursor, base: Path, x: Extra): Cursor {
    c.(focus := if c.path.Top? && c.focus.Some? then Some(Add(c.focus.value, x)) else c.focus,
       path := EmbedPath(c.path, base, x))
  }

  function EmbedOutcome(r: Outcome, base: Path, x: Extra): Outcome {
    Outcome(Embed(r.cursor, base, x), r.raised)
  }

  /** No climb but those to the parent and to the root passes such a node. */
  predicate IsBarrier(kind: Kind) { kind != Operation && kind != Member && kind != Attribute }

  predicate Enclosed(p: Path) {
    p.In? && if p.up.Top? then IsBarrier(p.frame.node.kind) else Enclosed(p.up)
  }

  /** What may be done at the operand's node, and in its fields. */
  predicate IsInside(c: Cursor, a: Action) {
    if c.path.Top? then c.focus.Some? && (a.Ready? || a.Count? || a.CopyOperator? || a.Extend? || a.Change?)
    else Enclosed(c.path) && a != Return(ToRoot)
  }

  lemma LiftEmbed(c: Cursor, base: Path, x: Extra)
    requires c.path.In?
    ensures Lift(Embed(c, base, x)) == Embed(Lift(c), base, x)
    ensures ReturnOneLevel(Embed(c, base, x)) == EmbedOutcome(ReturnOneLevel(c), base, x)
  {
  }

  lemma {:induction false} FindEmbed(c: Cursor, base: Path, x: Extra, op: Operator)
    requires Enclosed(c.path)
    ensures FindInsertionPoint(Embed(c, base, x), op) == EmbedOutcome(FindInsertionPoint(c, op), base, x)
    ensures Enclosed(FindInsertionPoint(c, op).cursor.path)
    decreases c.path
  {
    LiftEmbed(c, base, x);
    if Climbs(c, op) && ReturnOneLevel(c).raised == Quiet {
      FindEmbed(Lift(c), base, x, op);
    }
  }

  lemma {:induction false} ReturnEmbed(c: Cursor, base: Path, x: Extra, target: Target)
    requires Enclosed(c.path) && target != ToRoot
    ensures ReturnTo(Embed(c, base, x), target) == EmbedOutcome(ReturnTo(c, target), base, x)
    ensures Enclosed(ReturnTo(c, target).cursor.path)
    decreases c.path
  {
    LiftEmbed(c, base, x);
    if Passes(target, c.path.frame.node) && ReturnOneLevel(c).raised == Quiet {
      ReturnEmbed(Lift(c), base, x, target);
    }
  }

  lemma {:induction false} CloseEmbed(c: Cursor, base: Path, x: Extra)
    requires Enclosed(c.path) && c.focus.Some?
    ensures CloseClimb(Embed(c, base, x)) == EmbedOutcome(CloseClimb(c), base, x)
    ensures Enclosed(CloseClimb(c).cursor.path)
    decreases c.path
  {
    LiftEmbed(c, base, x);
    if c.focus.value.brackets == 0 && c.path.frame.node.kind == Operation && c.path.frame.node.op != NextArg
       && ReturnOneLevel(c).raised == Quiet {
      CloseEmbed(Lift(c), base, x);
    }
  }

  lemma InsertEmbed(c: Cursor, base: Path, x: Extra, app: Option<Tree>, op: Operator)
    requires Enclosed(c.path) && (op == Undefined ==> app.Some?)
    ensures InsertTheNode(Embed(c, base, x), app, op) == EmbedOutcome(InsertTheNode(c, app, op), base, x)
    ensures Enclosed(InsertTheNode(c, app, op).cursor.path)
  {
    FindEmbed(c, base, x, op);
  }

  lemma SimpleEmbed(c: Cursor, base: Path, x: Extra, kind: Kind, text: string)
    requires Enclosed(c.path)
    ensures InsertSimpleNode(Embed(c, base, x), kind, text) == EmbedOutcome(InsertSimpleNode(c, kind, text), base, x)
    ensures Enclosed(InsertSimpleNode(c, kind, text).cursor.path)
  {
    InsertEmbed(c.(brackets := 0), base, x, Some(NewNode(kind, text).(brackets := c.brackets)), Undefined);
  }

  lemma InsertsEmbed(c: Cursor, base: Path, x: Extra, a: Action)
    requires Enclosed(c.path) && Enabled(c, a) && (a.Simple? || a.Unary? || a.SpacesOnly? || a.Binary?)
    ensures Act(Embed(c, base, x), a) == EmbedOutcome(Act(c, a), base, x)
    ensures Enclosed(Act(c, a).cursor.path)
  {
    match a
    case Simple(kind, text) => SimpleEmbed(c, base, x, kind, text);
    case Unary(_) => SimpleEmbed(c, base, x, Operation, "");
    case SpacesOnly(_) => SimpleEmbed(c, base, x, Text, "");
    case Binary(op) => InsertEmbed(c, base, x, None, op);
  }

  lemma ReadyEmbed(c: Cursor, base: Path, x: Extra, field: Field)
    requires c.focus.Some?
    ensures ReadyFor(Embed(c, base, x), field) == EmbedOutcome(ReadyFor(c, field), base, x)
    ensures Enclosed(c.path) ==> Enclosed(ReadyFor(c, field).cursor.path)
  {
  }

  lemma OthersEmbed(c: Cursor, base: Path, x: Extra, a: Action)
    requires Enclosed(c.path) && Enabled(c, a)
    requires a.DataSpecifier? || a.Count? || a.Open? || a.Extend? || a.CopyOperator? || a.Change?
    ensures Act(Embed(c, base, x), a) == EmbedOutcome(Act(c, a), base, x)
    ensures Enclosed(Act(c, a).cursor.path)
  {
  }

  lemma ClimbsEmbed(c: Cursor, base: Path, x: Extra, a: Action)
    requires Enclosed(c.path) && (a.Close? || a.Parent? || (a.Return? && a.target != ToRoot))
    ensures Act(Embed(c, base, x), a) == EmbedOutcome(Act(c, a), base, x)
    ensures !a.Parent? ==> Enclosed(Act(c, a).cursor.path)
  {
    match a
    case Close => if c.focus.Some? { CloseEmbed(c, base, x); }
    case Parent => LiftEmbed(c, base, x);
    case Return(target) => ReturnEmbed(c, base, x, target);
  }

  lemma AtNodeEmbed(c: Cursor, base: Path, x: Extra, a: Action)
    requires c.path.Top? && c.focus.Some? && (a.Count? || a.CopyOperator? || a.Extend? || a.Change?)
    ensures Act(Embed(c, base, x), a) == EmbedOutcome(Act(c, a), base, x)
  {
  }

  /** An action inside an operand does the same with the operand in its place. */
  lemma ActEmbed(c: Cursor, base: Path, x: Extra, a: Action)
    requires Enabled(c, a) && IsInside(c, a)
    ensures Enabled(Embed(c, base, x), a)
    ensures Act(Embed(c, base, x), a) == EmbedOutcome(Act(c, a), base, x)
    ensures c.path.In? && !a.Parent? ==> Enclosed(Act(c, a).cursor.path)
  {
    if a.Ready? {
      ReadyEmbed(c, base, x, a.field);
    } else if c.path.Top? {
      AtNodeEmbed(c, base, x, a);
    } else {
      match a
      case Simple(_, _) => InsertsEmbed(c, base, x, a);
      case Unary(_) => InsertsEmbed(c, base, x, a);
      case SpacesOnly(_) => InsertsEmbed(c, base, x, a);
      case Binary(_) => InsertsEmbed(c, base, x, a);
      case Close => ClimbsEmbed(c, base, x, a);
      case Parent => ClimbsEmbed(c, base, x, a);
      case Return(_) => ClimbsEmbed(c, base, x, a);
      case _ => OthersEmbed(c, base, x, a);
    }
  }

  /** The actions stay inside the operand, raise nothing and come back to it. */
  predicate Stays(c: Cursor, actions: seq<Action>)
    decreases |actions|
  {
    if actions == [] then c.path.Top? && c.focus.Some?
    else
      && Enabled(c, actions[0]) && IsInside(c, actions[0])
      && Act(c, actions[0]).raised == Quiet && Stays(Act(c, actions[0]).cursor, actions[1..])
  }

  lemma {:induction false} RunEmbed(c: Cursor, base: Path, x: Extra, actions: seq<Action>)
    requires Stays(c, actions)
    ensures Completes(c, actions) && Run(c, actions).raised == Quiet && Run(c, actions).cursor.path.Top?
    ensures Run(c, actions).cursor.focus.Some?
    ensures Completes(Embed(c, base, x), actions)
    ensures Run(Embed(c, base, x), actions) == EmbedOutcome(Run(c, actions), base, x)
    decreases |actions|
  {
    if actions != [] {
      ActEmbed(c, base, x, actions[0]);
      RunEmbed(Act(c, actions[0]).cursor, base, x, actions[1..]);
    }
  }

  // ----- operands

  /** The cursor on a new node, which is the root. */
  function AtLeaf(kind: Kind, text: string): Cursor { Cursor(Some(NewNode(kind, text)), Top, 0, 0, 0) }

  /** Actions that make a new node into a finished operand: they stay inside it, and leave
      nothing pending. */
  predicate IsOperand(kind: Kind, text: string, inner: seq<Action>) {
    && kind != Operation && Stays(AtLeaf(kind, text), inner)
    && var d := Run(AtLeaf(kind, text), inner).cursor;
    && d.brackets == d.deferredWidth == d.deferredSpaces == 0
    && d.focus.Some? && d.focus.value.kind != Operation && d.focus.value.brackets == 0
  }

  /** The operand that they make. */
  function Built(kind: Kind, text: string, inner: seq<Action>): Tree
    requires IsOperand(kind, text, inner)
  {
    Run(AtLeaf(kind, text), inner).cursor.focus.value
  }

  /** Wherever the new node stands, they make the same operand there. */
  lemma BuildsAnywhere(kind: Kind, text: string, inner: seq<Action>, c: Cursor, x: Extra)
    requires IsOperand(kind, text, inner) && c == Cursor(Some(Add(NewNode(kind, text), x)), c.path, 0, 0, 0)
    ensures Completes(c, inner)
    ensures Run(c, inner) == Outcome(c.(focus := Some(Add(Built(kind, text, inner), x))), Quiet)
  {
    RunEmbed(AtLeaf(kind, text), c.path, x, inner);
  }
}
