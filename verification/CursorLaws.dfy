/** What every parser action keeps, and so every run of actions. */
module CursorLaws {
  import opened ParseTree
  import opened Wrappers

  // ----- columns

  function NodeColumns(t: Tree): nat { t.width + t.spaces }

  function PathColumns(p: Path): nat {
    match p
    case Top => 0
    case In(frame, up) => NodeColumns(frame.node) + PathColumns(up)
  }

  function FocusColumns(focus: Option<Tree>): nat {
    if focus.Some? then NodeColumns(focus.value) else 0
  }

  /** The columns held from the root down to the cursor, and those still deferred. */
  function Columns(c: Cursor): nat {
    FocusColumns(c.focus) + PathColumns(c.path) + c.deferredWidth + c.deferredSpaces
  }

  /** The columns an action takes from the script. */
  function Counted(a: Action): nat {
    match a
    case Count(width, spaces) => width + spaces
    case SpacesOnly(spaces) => spaces
    case _ => 0
  }

  function TotalCounted(actions: seq<Action>): nat {
    if actions == [] then 0 else Counted(actions[0]) + TotalCounted(actions[1..])
  }

  lemma {:induction false} FindKeepsColumns(c: Cursor, op: Operator)
    ensures Columns(FindInsertionPoint(c, op).cursor) == Columns(c)
    decreases c.path
  {
    if Climbs(c, op) && ReturnOneLevel(c).raised == Quiet {
      FindKeepsColumns(Lift(c), op);
    }
  }

  lemma {:induction false} ReturnKeepsColumns(c: Cursor, target: Target)
    ensures Columns(ReturnTo(c, target).cursor) == Columns(c)
    decreases c.path
  {
    if c.path.In? && Passes(target, c.path.frame.node) && ReturnOneLevel(c).raised == Quiet {
      ReturnKeepsColumns(Lift(c), target);
    }
  }

  lemma {:induction false} CloseClimbKeepsColumns(c: Cursor)
    requires c.focus.Some?
    ensures Columns(CloseClimb(c).cursor) == Columns(c)
    decreases c.path
  {
    if c.path.In? && c.focus.value.brackets == 0
       && c.path.frame.node.kind == Operation && c.path.frame.node.op != NextArg
       && ReturnOneLevel(c).raised == Quiet {
      CloseClimbKeepsColumns(Lift(c));
    }
  }

  lemma AboveKeepsColumns(c: Cursor, op: Operator)
    ensures NodeColumns(Above(c, op)) == FocusColumns(c.focus) + c.deferredWidth + c.deferredSpaces
  {
  }

  lemma InsertKeepsColumns(c: Cursor, app: Option<Tree>, op: Operator)
    requires op == Undefined ==> app.Some?
    ensures Columns(InsertTheNode(c, app, op).cursor) == Columns(c) + FocusColumns(app)
  {
    FindKeepsColumns(c, op);
    var d := FindInsertionPoint(c, op).cursor;
    AboveKeepsColumns(d, op);
    if op != Undefined || c.focus.Some? {
      assert InsertTheNode(c, app, op).cursor ==
        if app.Some? then Cursor(app, In(Frame(Above(d, op), Op2), d.path), d.brackets, 0, 0)
        else Cursor(Some(Above(d, op)), d.path, d.brackets, 0, 0);
    }
  }

  lemma {:induction false} ClimbsTakeNothing(c: Cursor, op: Operator, target: Target)
    ensures FindInsertionPoint(c, op).raised != FieldTaken && ReturnTo(c, target).raised != FieldTaken
    ensures c.focus.Some? ==> CloseClimb(c).raised != FieldTaken
    decreases c.path
  {
    if c.path.In? && ReturnOneLevel(c).raised == Quiet {
      ClimbsTakeNothing(Lift(c), op, target);
    }
  }

  lemma OnlyReadyTakes(c: Cursor, a: Action)
    requires Enabled(c, a) && Act(c, a).raised == FieldTaken
    ensures a.Ready?
  {
    var op := if a.Binary? then a.op else Undefined;
    var target := if a.Return? then a.target else ToRoot;
    ClimbsTakeNothing(c, op, target);
    ClimbsTakeNothing(c.(brackets := 0), op, target);
  }

  /** No action loses or invents columns, whether or not it raises an exception. When it
      finds a field taken, the cursor has gone into it, and so it counts the columns of the
      node there a second time, since those are among its parent's already. */
  lemma ActConservesColumns(c: Cursor, a: Action)
    requires Enabled(c, a)
    ensures var r := Act(c, a);
      Columns(r.cursor) == Columns(c) + Counted(a) + if r.raised == FieldTaken then FocusColumns(r.cursor.focus) else 0
  {
    var bare := c.(brackets := 0);
    if Act(c, a).raised == FieldTaken { OnlyReadyTakes(c, a); }
    match a
    case Simple(kind, text) =>
      InsertKeepsColumns(bare, Some(NewNode(kind, text).(brackets := c.brackets)), Undefined);
    case Unary(_) =>
      InsertKeepsColumns(bare, Some(NewNode(Operation, "").(brackets := c.brackets)), Undefined);
    case SpacesOnly(_) =>
      InsertKeepsColumns(bare, Some(NewNode(Text, "").(brackets := c.brackets)), Undefined);
    case Binary(op) => InsertKeepsColumns(c, None, op);
    case Close => if c.focus.Some? { CloseClimbKeepsColumns(c); }
    case Return(target) => ReturnKeepsColumns(c, target);
    case _ =>
  }

  lemma {:induction false} RunConservesColumns(c: Cursor, actions: seq<Action>)
    requires Completes(c, actions)
    ensures Columns(Run(c, actions).cursor) == Columns(c) + TotalCounted(actions)
    decreases |actions|
  {
    if actions != [] {
      ActConservesColumns(c, actions[0]);
      RunConservesColumns(Act(c, actions[0]).cursor, actions[1..]);
    }
  }

  /** After a run that ends at the root, the root's width and leading spaces, with
      any columns still deferred, are exactly the columns counted (and those held to
      begin with); and nothing is still deferred if the return climbed at all. */
  lemma RootHoldsAllColumns(start: Cursor, actions: seq<Action>, before: Cursor)
    requires Completes(start, actions) && before == Run(start, actions).cursor
    requires ReturnTo(before, ToRoot).raised == Quiet
    ensures var c := ReturnTo(before, ToRoot).cursor;
      && c.path == Top
      && FocusColumns(c.focus) + c.deferredWidth + c.deferredSpaces
         == Columns(start) + TotalCounted(actions)
      && (before.path.In? ==> c.focus.Some? && c.deferredWidth == c.deferredSpaces == 0)
  {
    RunConservesColumns(start, actions);
    RootHoldsColumns(before);
  }

  lemma RootHoldsColumns(c: Cursor)
    requires ReturnTo(c, ToRoot).raised == Quiet
    ensures var r := ReturnTo(c, ToRoot).cursor;
      && r.path == Top
      && FocusColumns(r.focus) + r.deferredWidth + r.deferredSpaces == Columns(c)
      && (c.path.In? ==> r.focus.Some? && r.deferredWidth == r.deferredSpaces == 0)
  {
    ReturnKeepsColumns(c, ToRoot);
    ReachesRoot(c);
  }

  lemma {:induction false} ReachesRoot(c: Cursor)
    requires ReturnTo(c, ToRoot).raised == Quiet
    ensures var r := ReturnTo(c, ToRoot).cursor;
      && r.path == Top
      && (c.path.In? ==> r.focus.Some? && r.deferredWidth == r.deferredSpaces == 0)
    decreases c.path
  {
    if c.path.In? {
      var d := Lift(c);
      assert ReturnTo(c, ToRoot) == ReturnTo(d, ToRoot);
      ReachesRoot(d);
    }
  }

  // ----- brackets

  predicate NoBrackets(t: Tree) {
    t.brackets == 0 && forall f | f in t.kids :: NoBrackets(t.kids[f])
  }

  /** Only nodes between the root and the cursor hold brackets. */
  predicate CleanKids(t: Tree) {
    forall f | f in t.kids :: NoBrackets(t.kids[f])
  }

  predicate CleanPath(p: Path) {
    match p
    case Top => true
    case In(frame, up) => CleanKids(frame.node) && CleanPath(up)
  }

  predicate Clean(c: Cursor) {
    (c.focus.Some? ==> CleanKids(c.focus.value)) && CleanPath(c.path)
  }

  function PathBrackets(p: Path): nat {
    match p
    case Top => 0
    case In(frame, up) => frame.node.brackets + PathBrackets(up)
  }

  function FocusBrackets(focus: Option<Tree>): nat {
    if focus.Some? then focus.value.brackets else 0
  }

  /** All brackets opened and not yet closed: pending ones and those given to nodes. */
  function OpenBrackets(c: Cursor): nat {
    c.brackets + FocusBrackets(c.focus) + PathBrackets(c.path)
  }

  /** What an action that raises nothing adds to the open brackets. */
  function Balance(a: Action): int {
    match a
    case Open => 1
    case Close => -1
    case _ => 0
  }

  function TotalBalance(actions: seq<Action>): int {
    if actions == [] then 0 else Balance(actions[0]) + TotalBalance(actions[1..])
  }

  lemma {:induction false} FindKeepsBrackets(c: Cursor, op: Operator)
    requires Clean(c)
    ensures var d := FindInsertionPoint(c, op).cursor;
      Clean(d) && OpenBrackets(d) == OpenBrackets(c) && d.brackets == c.brackets
    decreases c.path
  {
    if Climbs(c, op) && ReturnOneLevel(c).raised == Quiet {
      FindKeepsBrackets(Lift(c), op);
    }
  }

  lemma {:induction false} ReturnKeepsBrackets(c: Cursor, target: Target)
    requires Clean(c)
    ensures var d := ReturnTo(c, target).cursor;
      Clean(d) && OpenBrackets(d) == OpenBrackets(c)
    decreases c.path
  {
    if c.path.In? && Passes(target, c.path.frame.node) && ReturnOneLevel(c).raised == Quiet {
      ReturnKeepsBrackets(Lift(c), target);
    }
  }

  lemma {:induction false} CloseClimbKeepsBrackets(c: Cursor)
    requires c.focus.Some? && Clean(c)
    ensures var d := CloseClimb(c).cursor;
      Clean(d) && OpenBrackets(d) == OpenBrackets(c)
    decreases c.path
  {
    if c.path.In? && c.focus.value.brackets == 0
       && c.path.frame.node.kind == Operation && c.path.frame.node.op != NextArg
       && ReturnOneLevel(c).raised == Quiet {
      CloseClimbKeepsBrackets(Lift(c));
    }
  }

  lemma InsertKeepsBrackets(c: Cursor, app: Option<Tree>, op: Operator)
    requires Clean(c)
    requires op == Undefined ==> app.Some?
    requires app.Some? ==> app.value.kids == map[]
    ensures var d := InsertTheNode(c, app, op).cursor;
      && Clean(d)
      && OpenBrackets(d) == OpenBrackets(c) + FocusBrackets(app)
      && d.brackets == c.brackets
  {
    FindKeepsBrackets(c, op);
    if op != Undefined || c.focus.Some? {
      var d := FindInsertionPoint(c, op).cursor;
      assert CleanKids(Above(d, op));
    }
  }

  lemma InsertsAccountForBrackets(c: Cursor, a: Action)
    requires Enabled(c, a) && Clean(c) && (a.Simple? || a.Unary? || a.SpacesOnly? || a.Binary?)
    ensures Clean(Act(c, a).cursor) && OpenBrackets(Act(c, a).cursor) == OpenBrackets(c)
  {
    var bare := c.(brackets := 0);
    match a
    case Simple(kind, text) =>
      InsertKeepsBrackets(bare, Some(NewNode(kind, text).(brackets := c.brackets)), Undefined);
    case Unary(_) =>
      InsertKeepsBrackets(bare, Some(NewNode(Operation, "").(brackets := c.brackets)), Undefined);
    case SpacesOnly(_) =>
      InsertKeepsBrackets(bare, Some(NewNode(Text, "").(brackets := c.brackets)), Undefined);
    case Binary(op) => InsertKeepsBrackets(c, None, op);
  }

  lemma ClimbsAccountForBrackets(c: Cursor, a: Action)
    requires Enabled(c, a) && Clean(c) && (a.Close? || a.Parent? || a.Return?)
    ensures var r := Act(c, a);
      && Clean(r.cursor)
      && OpenBrackets(r.cursor) == OpenBrackets(c) + if r.raised == Quiet then Balance(a) else 0
  {
    match a
    case Close => if c.focus.Some? { CloseClimbKeepsBrackets(c); }
    case Return(target) => ReturnKeepsBrackets(c, target);
    case Parent =>
  }

  /** Brackets stay on the cursor's path, and only an opening or closing bracket changes
      how many are open. */
  lemma ActAccountsForBrackets(c: Cursor, a: Action)
    requires Enabled(c, a) && Clean(c)
    ensures var r := Act(c, a);
      && Clean(r.cursor)
      && OpenBrackets(r.cursor) == OpenBrackets(c) + if r.raised == Quiet then Balance(a) else 0
  {
    match a
    case Simple(_, _) => InsertsAccountForBrackets(c, a);
    case Unary(_) => InsertsAccountForBrackets(c, a);
    case SpacesOnly(_) => InsertsAccountForBrackets(c, a);
    case Binary(_) => InsertsAccountForBrackets(c, a);
    case Close => ClimbsAccountForBrackets(c, a);
    case Parent => ClimbsAccountForBrackets(c, a);
    case Return(_) => ClimbsAccountForBrackets(c, a);
    case _ =>
  }

  lemma {:induction false} RunAccountsForBrackets(c: Cursor, actions: seq<Action>)
    requires Completes(c, actions) && Clean(c)
    ensures var d := Run(c, actions).cursor;
      Clean(d) && OpenBrackets(d) == OpenBrackets(c) + TotalBalance(actions)
    decreases |actions|
  {
    if actions != [] {
      ActAccountsForBrackets(c, actions[0]);
      RunAccountsForBrackets(Act(c, actions[0]).cursor, actions[1..]);
    }
  }

  // ----- unclosed brackets

  /** The brackets on the nodes of a path, its outermost node (the root) left out. */
  function InnerBrackets(p: Path): nat {
    if p.In? && p.up.In? then p.frame.node.brackets + InnerBrackets(p.up) else 0
  }

  /** A bracket left open is reported at the end of the line unless the root node holds
      it: the climb looks at every node it leaves, and it never leaves the root. */
  lemma {:induction false} UnclosedReported(c: Cursor)
    ensures ReturnTo(c, ToRoot).raised != Quiet
      <==> c.path.In? && c.brackets + FocusBrackets(c.focus) + InnerBrackets(c.path) > 0
    decreases c.path
  {
    if c.path.In? && ReturnOneLevel(c).raised == Quiet {
      UnclosedReported(Lift(c));
    }
  }

  /** When nothing is reported, the root's bracket count is the number of brackets that
      were opened and never closed, and no other node holds any. */
  lemma UnclosedLeftOnRoot(start: Cursor, actions: seq<Action>, before: Cursor)
    requires Clean(start) && Completes(start, actions) && before == Run(start, actions).cursor
    requires ReturnTo(before, ToRoot).raised == Quiet
    ensures var c := ReturnTo(before, ToRoot).cursor;
      && c.path == Top
      && c.brackets + FocusBrackets(c.focus) == OpenBrackets(start) + TotalBalance(actions)
      && (c.focus.Some? ==> CleanKids(c.focus.value))
  {
    RunAccountsForBrackets(start, actions);
    UnclosedAtRoot(before);
  }

  lemma UnclosedAtRoot(c: Cursor)
    requires Clean(c) && ReturnTo(c, ToRoot).raised == Quiet
    ensures var r := ReturnTo(c, ToRoot).cursor;
      && r.path == Top
      && r.brackets + FocusBrackets(r.focus) == OpenBrackets(c)
      && (r.focus.Some? ==> CleanKids(r.focus.value))
  {
    ReturnKeepsBrackets(c, ToRoot);
    ReachesRoot(c);
  }

  /** `(a` read as a whole expression is accepted with its bracket still open. */
  lemma UnclosedAtRootAccepted(a: string)
    ensures var actions := [Open, Simple(Symbol, a), Return(ToRoot)];
      Completes(START, actions) && OpenBrackets(Run(START, actions).cursor) == 1
  {
    var c1 := Act(START, Open).cursor;
    var c2 := Act(c1, Simple(Symbol, a)).cursor;
    assert c2 == Cursor(Some(NewNode(Symbol, a).(brackets := 1)), Top, 0, 0, 0);
    var actions := [Open, Simple(Symbol, a), Return(ToRoot)];
    assert actions[1..] == [Simple(Symbol, a), Return(ToRoot)];
    assert actions[1..][1..] == [Return(ToRoot)];
    assert Act(c2, Return(ToRoot)) == Outcome(c2, Quiet);
    assert Run(c2, [Return(ToRoot)]).cursor == c2;
    assert Run(c1, actions[1..]) == Run(c2, [Return(ToRoot)]);
  }
}
