/** The script parser's tree cursor, as a value.

The parser builds its tree around a cursor: a pointer to the pointer field being
filled, and the node that holds that field. Here the cursor is a focus (what the
field points to, if anything) and a path of frames, one for each node between
the field and the root, innermost first. Module ParseCursor updates the same
cursor in place in linked nodes and is proved against these functions.
*/
module ParseTree {
  import opened Wrappers

  datatype Operator =
    | Undefined
    | Times | Divide
    | Plus | Minus
    | Iif | Default
    | Equals | NotEquals | GreaterThan | LessThan | GreaterEqual | LessEqual
    | SafeEquals | SafeNotEquals | SafeGreaterThan | SafeLessThan | SafeGreaterEqual | SafeLessEqual
    | Not
    | Or | And
    | NextArg

  function Priority(op: Operator): nat {
    match op
    case Undefined => 8
    case Times | Divide => 7
    case Plus | Minus => 6
    case Iif | Default => 5
    case Not => 3
    case Or | And => 2
    case NextArg => 1
    case _ => 4
  }

  datatype Kind =
    | Comment | Line | Text | Substitute | Operation | Literal | Number | Symbol
    | Member | Attribute | Call | Statement

  datatype Field = Scope | Name | Op1 | Op2 | As | To | Before | After

  datatype Tree = Node(
    kind: Kind, op: Operator, text: string,
    width: nat, spaces: nat, brackets: nat,
    extend: bool, stacked: bool,
    kids: map<Field, Tree>)

  function NewNode(kind: Kind, text: string): Tree {
    Node(kind, Undefined, text, 0, 0, 0, false, false, map[])
  }

  /** A node with one pointer field, the hole, left out. */
  datatype Frame = Frame(node: Tree, hole: Field)

  datatype Path = Top | In(frame: Frame, up: Path)

  datatype Cursor = Cursor(
    focus: Option<Tree>, path: Path,
    brackets: nat, deferredWidth: nat, deferredSpaces: nat)

  const START := Cursor(None, Top, 0, 0, 0)

  /** The exception a parser action raises, if any. */
  datatype Event = Quiet | UnexpectedToken | MismatchedBrackets | NoBracket | FieldTaken

  datatype Outcome = Outcome(cursor: Cursor, raised: Event)

  // ----- climbing

  /** Moves the cursor to the pointer at the node that now holds it. */
  function Lift(c: Cursor): Cursor
    requires c.path.In?
  {
    var Frame(node, hole) := c.path.frame;
    var inner := if c.focus.Some? then c.focus.value.spaces + c.focus.value.width else 0;
    var node := node.(
      width := node.width + inner + c.deferredSpaces + c.deferredWidth,
      extend := node.extend || (hole == Op2 && c.focus.Some? && c.focus.value.extend),
      kids := if c.focus.Some? then node.kids[hole := c.focus.value] else node.kids);
    Cursor(Some(node), c.path.up, c.brackets, 0, 0)
  }

  function ReturnOneLevel(c: Cursor): Outcome
    requires c.path.In?
  {
    if c.brackets > 0 then Outcome(c, UnexpectedToken)
    else if c.focus.Some? && c.focus.value.brackets > 0 then Outcome(c, MismatchedBrackets)
    else Outcome(Lift(c), Quiet)
  }

  predicate ParentHasOp1(c: Cursor)
    requires c.path.In?
  {
    if c.path.frame.hole == Op1 then c.focus.Some? else Op1 in c.path.frame.node.kids
  }

  /** Does inserting `op` climb past the node that holds the cursor? */
  predicate Climbs(c: Cursor, op: Operator) {
    && c.path.In?
    && c.path.frame.node.kind == Operation
    && (c.focus.Some? ==> c.focus.value.brackets == 0)
    && (!ParentHasOp1(c) || Priority(c.path.frame.node.op) >= Priority(op))
  }

  function FindInsertionPoint(c: Cursor, op: Operator): Outcome
    decreases c.path
  {
    if Climbs(c, op) then
      var r := ReturnOneLevel(c);
      if r.raised != Quiet then r else FindInsertionPoint(r.cursor, op)
    else Outcome(c, Quiet)
  }

  /** What a `return_to_...` action climbs past. */
  datatype Target = ToRoot | ToString | ToArguments | ToExpression | ToDataSpecifier

  predicate Passes(target: Target, node: Tree) {
    match target
    case ToRoot => true
    case ToString => node.kind == Operation && node.op == Undefined
    case ToArguments => node.kind == Operation && node.op == NextArg
    case ToExpression => node.kind == Operation && node.op != NextArg
    case ToDataSpecifier => node.kind == Member || node.kind == Attribute
  }

  function ReturnTo(c: Cursor, target: Target): Outcome
    decreases c.path
  {
    if c.path.In? && Passes(target, c.path.frame.node) then
      var r := ReturnOneLevel(c);
      if r.raised != Quiet then r else ReturnTo(r.cursor, target)
    else Outcome(c, Quiet)
  }

  function ReturnToParent(c: Cursor): Outcome {
    if c.path.In? then ReturnOneLevel(c) else Outcome(c, Quiet)
  }

  // ----- inserting

  /** The operator node put above what the cursor points to. */
  function Above(c: Cursor, op: Operator): Tree {
    var n := NewNode(Operation, "").(op := op, width := c.deferredWidth, spaces := c.deferredSpaces);
    match c.focus
    case None => n
    case Some(t) =>
      n.(spaces := n.spaces + t.spaces, width := n.width + t.width, brackets := t.brackets,
         kids := map[Op1 := t.(spaces := 0, brackets := 0)])
  }

  function InsertTheNode(c: Cursor, app: Option<Tree>, op: Operator): Outcome
    requires op == Undefined ==> app.Some?
  {
    if op != Undefined || c.focus.Some? then
      var r := FindInsertionPoint(c, op);
      var d := r.cursor;
      Outcome(
        if app.Some? then Cursor(app, In(Frame(Above(d, op), Op2), d.path), d.brackets, 0, 0)
        else Cursor(Some(Above(d, op)), d.path, d.brackets, 0, 0),
        r.raised)
    else
      var leaf := app.value.(width := app.value.width + c.deferredWidth,
                             spaces := app.value.spaces + c.deferredSpaces);
      Outcome(c.(focus := Some(leaf), deferredWidth := 0, deferredSpaces := 0), Quiet)
  }

  function InsertSimpleNode(c: Cursor, kind: Kind, text: string): (r: Outcome)
    ensures r.cursor.focus.Some?
  {
    InsertTheNode(c.(brackets := 0), Some(NewNode(kind, text).(brackets := c.brackets)), Undefined)
  }

  function InsertUnaryOperator(c: Cursor, op: Operator): Outcome {
    var r := InsertSimpleNode(c, Operation, "");
    r.(cursor := r.cursor.(focus := Some(r.cursor.focus.value.(op := op))))
  }

  function InsertOperator(c: Cursor, op: Operator): Outcome
    requires op != Undefined
  {
    var r := InsertTheNode(c, None, op);
    var t := r.cursor.focus.value;
    r.(cursor := r.cursor.(focus := Some(t.(brackets := t.brackets + r.cursor.brackets)), brackets := 0))
  }

  function InsertDataSpecifier(c: Cursor, kind: Kind): Outcome {
    var n := NewNode(kind, "").(stacked := kind == Member);
    var n := match c.focus
      case None => n
      case Some(t) =>
        n.(spaces := t.spaces, width := t.width, brackets := t.brackets,
           kids := map[Scope := t.(brackets := 0)]);
    Outcome(c.(focus := Some(n)), Quiet)
  }

  function InsertSpacesOnly(c: Cursor, tokenSpaces: nat): Outcome {
    if tokenSpaces > 0 || c.focus.None? then
      var r := InsertSimpleNode(c, Text, "");
      var t := r.cursor.focus.value;
      r.(cursor := r.cursor.(focus := Some(t.(spaces := t.spaces + tokenSpaces))))
    else Outcome(c, Quiet)
  }

  // ----- the other actions

  function ReadyFor(c: Cursor, field: Field): Outcome
    requires c.focus.Some?
  {
    var t := c.focus.value;
    var taken := field in t.kids;
    Outcome(
      c.(focus := if taken then Some(t.kids[field]) else None,
         path := In(Frame(t.(kids := t.kids - {field}), field), c.path)),
      if taken then FieldTaken else Quiet)
  }

  function CountToken(c: Cursor, width: nat, spaces: nat): Cursor {
    match c.focus
    case Some(t) => c.(focus := Some(t.(width := t.width + width, spaces := t.spaces + spaces)))
    case None => c.(deferredWidth := c.deferredWidth + width, deferredSpaces := c.deferredSpaces + spaces)
  }

  function CloseClimb(c: Cursor): (r: Outcome)
    requires c.focus.Some?
    ensures r.cursor.focus.Some?
    decreases c.path
  {
    if c.path.In? && c.focus.value.brackets == 0
       && c.path.frame.node.kind == Operation && c.path.frame.node.op != NextArg then
      var r := ReturnOneLevel(c);
      if r.raised != Quiet then r else CloseClimb(r.cursor)
    else Outcome(c, Quiet)
  }

  function CloseBracket(c: Cursor): Outcome {
    if c.focus.None? then
      Outcome(c, if c.brackets > 0 then UnexpectedToken else NoBracket)
    else
      var r := CloseClimb(c);
      var t := r.cursor.focus.value;
      if r.raised != Quiet then r
      else if t.brackets > 0 then
        Outcome(r.cursor.(focus := Some(t.(brackets := t.brackets - 1))), Quiet)
      else Outcome(r.cursor, NoBracket)
  }

  function SetExtend(c: Cursor): Cursor
    requires c.focus.Some? || c.path.In?
  {
    if c.focus.Some? then c.(focus := Some(c.focus.value.(extend := true)))
    else c.(path := In(c.path.frame.(node := c.path.frame.node.(extend := true)), c.path.up))
  }

  // ----- runs

  datatype Action =
    | Simple(kind: Kind, text: string)
    | Unary(op: Operator)
    | Binary(op: Operator)
    | DataSpecifier(kind: Kind)
    | SpacesOnly(spaces: nat)
    | Ready(field: Field)
    | Count(width: nat, spaces: nat)
    | Open
    | Close
    | Extend
    | CopyOperator(op: Operator)
    | Change(kind: Kind)
    | Parent
    | Return(target: Target)

  /** What the source asserts before an action: a node to descend into, an operator to insert. */
  predicate Enabled(c: Cursor, a: Action) {
    match a
    case Ready(_) => c.focus.Some?
    case CopyOperator(_) => c.focus.Some?
    case Change(_) => c.focus.Some?
    case Binary(op) => op != Undefined
    case Extend => c.focus.Some? || c.path.In?
    case _ => true
  }

  function Act(c: Cursor, a: Action): Outcome
    requires Enabled(c, a)
  {
    match a
    case Simple(kind, text) => InsertSimpleNode(c, kind, text)
    case Unary(op) => InsertUnaryOperator(c, op)
    case Binary(op) => InsertOperator(c, op)
    case DataSpecifier(kind) => InsertDataSpecifier(c, kind)
    case SpacesOnly(spaces) => InsertSpacesOnly(c, spaces)
    case Ready(field) => ReadyFor(c, field)
    case Count(width, spaces) => Outcome(CountToken(c, width, spaces), Quiet)
    case Open => Outcome(c.(brackets := c.brackets + 1), Quiet)
    case Close => CloseBracket(c)
    case Extend => Outcome(SetExtend(c), Quiet)
    case CopyOperator(op) => Outcome(c.(focus := Some(c.focus.value.(op := op))), Quiet)
    case Change(kind) => Outcome(c.(focus := Some(c.focus.value.(kind := kind))), Quiet)
    case Parent => ReturnToParent(c)
    case Return(target) => ReturnTo(c, target)
  }

  /** Runs actions until one is not enabled or raises an exception. */
  function Run(c: Cursor, actions: seq<Action>): Outcome
    decreases |actions|
  {
    if actions == [] || !Enabled(c, actions[0]) then Outcome(c, Quiet)
    else
      var r := Act(c, actions[0]);
      if r.raised != Quiet then r else Run(r.cursor, actions[1..])
  }

  /** Every action is enabled in its turn and none raises an exception. */
  predicate Completes(c: Cursor, actions: seq<Action>)
    decreases |actions|
  {
    actions == [] ||
    (Enabled(c, actions[0])
     && var r := Act(c, actions[0]);
     r.raised == Quiet && Completes(r.cursor, actions[1..]))
  }
}
