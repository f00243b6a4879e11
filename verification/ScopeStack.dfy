/** The stack of scopes, and what a macro call does to it.

A call pushes two scopes, that of the macro and its alias `my`. The body opens further
scopes, closes them, and calls other macros. A return takes scopes off until it has
taken off that of a macro. However many scopes are open when it comes, the stack is then
what it was before the call.
*/
module ScopeStack {
  import M = MacroCall
  import opened Wrappers

  datatype Kind = MacroKind | ForKind | OtherKind

  datatype Block = Block(kind: Kind, name: string)

  /** What a script does to the stack. */
  datatype Event =
    | Open(block: Block)   // .for, .scope, .new and aliases
    | CloseTop             // .endscope, .endnew and the ends of aliases
    | EndFor(more: bool)   // back to the top of a loop, or out of it
    | LeaveFor             // .last
    | Call(name: string)
    | Return               // .return, .endmacro and .endfunction

  // ----- the stack, its top last

  type Stack = seq<Block>

  /** The stack down to the last block of a kind, if there is one. */
  function DownTo(s: Stack, kind: Kind): Stack {
    if s == [] || s[|s| - 1].kind == kind then s else DownTo(s[..|s| - 1], kind)
  }

  lemma {:induction false} DownToIs(s: Stack, kind: Kind)
    ensures DownTo(s, kind) <= s && (DownTo(s, kind) != [] ==> DownTo(s, kind)[|DownTo(s, kind)| - 1].kind == kind)
  {
    if s != [] && s[|s| - 1].kind != kind { DownToIs(s[..|s| - 1], kind); }
  }

  function Entered(s: Stack, name: string): Stack {
    s + [Block(MacroKind, name), Block(OtherKind, "my")]
  }

  /** The stack after an event; none if there is nothing to close. */

  function Front(s: Stack): Option<Stack> {
    if s == [] then None else Some(s[..|s| - 1])
  }

  function Step(s: Stack, e: Event): Option<Stack> {
    match e
    case Open(b) => Some(s + [b])
    case CloseTop => Front(s)
    case EndFor(more) =>
      if more then (if DownTo(s, ForKind) == [] then None else Some(DownTo(s, ForKind))) else Front(DownTo(s, ForKind))
    case LeaveFor => Front(DownTo(s, ForKind))
    case Call(name) => Some(Entered(s, name))
    case Return => Front(DownTo(s, MacroKind))
  }

  function Run(s: Stack, events: seq<Event>): Option<Stack>
    decreases |events|
  {
    if events == [] then Some(s)
    else
      var next := Step(s, events[0]);
      if next.None? then None else Run(next.value, events[1..])
  }

  // ----- frames

  /** A macro that is running: its two blocks and those opened in it. */
  datatype Frame = Frame(name: string, inner: Stack)

  predicate Plain(s: Stack) { forall b <- s :: b.kind != MacroKind }

  function Blocks(frames: seq<Frame>): Stack {
    if frames == [] then []
    else Entered(Blocks(frames[..|frames| - 1]), frames[|frames| - 1].name) + frames[|frames| - 1].inner
  }

  predicate HasFor(s: Stack) { exists b <- s :: b.kind == ForKind }

  /** What a script's own block structure allows: it closes only what it opened. */
  predicate LegalInside(inner: Stack, e: Event) {
    match e
    case Open(b) => b.kind != MacroKind
    case CloseTop => inner != []
    case EndFor(_) => HasFor(inner)
    case LeaveFor => HasFor(inner)
    case _ => false
  }

  predicate Legal(frames: seq<Frame>, e: Event) {
    frames != [] && (e.Call? || e.Return? || LegalInside(frames[|frames| - 1].inner, e))
  }

  function Inside(inner: Stack, e: Event): Stack
    requires LegalInside(inner, e)
  {
    match e
    case Open(b) => inner + [b]
    case CloseTop => inner[..|inner| - 1]
    case EndFor(more) =>
      DownToSum([], inner, ForKind);
      var loop := DownTo(inner, ForKind);
      if more then loop else loop[..|loop| - 1]
    case LeaveFor =>
      DownToSum([], inner, ForKind);
      var loop := DownTo(inner, ForKind);
      loop[..|loop| - 1]
  }

  function StepFrame(rest: seq<Frame>, top: Frame, e: Event): seq<Frame>
    requires e.Call? || e.Return? || LegalInside(top.inner, e)
  {
    match e
    case Call(name) => rest + [top] + [Frame(name, [])]
    case Return => rest
    case _ => rest + [Frame(top.name, Inside(top.inner, e))]
  }

  function StepFrames(frames: seq<Frame>, e: Event): seq<Frame>
    requires Legal(frames, e)
  {
    StepFrame(frames[..|frames| - 1], frames[|frames| - 1], e)
  }

  /** The frames after a legal run of events, which returns from no more macros than are
      running. */
  function RunFrames(frames: seq<Frame>, events: seq<Event>): Option<seq<Frame>>
    decreases |events|
  {
    if events == [] then Some(frames)
    else if !Legal(frames, events[0]) then None
    else RunFrames(StepFrames(frames, events[0]), events[1..])
  }

  predicate AllPlain(frames: seq<Frame>) { forall f <- frames :: Plain(f.inner) }

  lemma {:induction false} DownToSum(s: Stack, t: Stack, kind: Kind)
    requires exists b <- t :: b.kind == kind
    ensures DownTo(s + t, kind) == s + DownTo(t, kind) && DownTo(t, kind) != []
  {
    var last := t[|t| - 1];
    assert (s + t)[|s + t| - 1] == last;
    if last.kind != kind {
      assert t == t[..|t| - 1] + [last];
      assert (s + t)[..|s + t| - 1] == s + t[..|t| - 1];
      DownToSum(s, t[..|t| - 1], kind);
    }
  }

  lemma {:induction false} DownToNone(s: Stack, t: Stack, kind: Kind)
    requires forall b <- t :: b.kind != kind
    ensures DownTo(s + t, kind) == DownTo(s, kind)
  {
    if t == [] {
      assert s + t == s;
    } else {
      assert (s + t)[|s + t| - 1] == t[|t| - 1];
      assert (s + t)[..|s + t| - 1] == s + t[..|t| - 1];
      assert forall b <- t[..|t| - 1] :: b in t;
      DownToNone(s, t[..|t| - 1], kind);
    }
  }

  /** A return takes off the two blocks of the macro and everything above them. */
  lemma ReturnUndoesCall(s: Stack, name: string, inner: Stack)
    requires Plain(inner)
    ensures Step(Entered(s, name) + inner, Return) == Some(s)
  {
    var macro := [Block(MacroKind, name)];
    assert Entered(s, name) + inner == (s + macro) + ([Block(OtherKind, "my")] + inner);
    DownToNone(s + macro, [Block(OtherKind, "my")] + inner, MacroKind);
    assert (s + macro)[..|s|] == s;
  }

  lemma Regroup(a: Stack, b: Stack, c: Stack)
    ensures a + b + c == a + (b + c)
  {
  }

  lemma FrontOfSum(s: Stack, t: Stack)
    requires t != []
    ensures Front(s + t) == Some(s + t[..|t| - 1])
  {
    assert (s + t)[..|s + t| - 1] == s + t[..|t| - 1];
  }

  lemma StepInside(s: Stack, inner: Stack, e: Event)
    requires LegalInside(inner, e) && Plain(inner)
    ensures Step(s + inner, e) == Some(s + Inside(inner, e)) && Plain(Inside(inner, e))
  {
    match e
    case Open(b) => Regroup(s, inner, [b]);
    case CloseTop => FrontOfSum(s, inner);
    case _ =>
      DownToSum(s, inner, ForKind);
      DownToIs(inner, ForKind);
      FrontOfSum(s, DownTo(inner, ForKind));
  }


  /** The stack under the blocks that a frame has open. */
  lemma StackOf(base: Stack, rest: seq<Frame>, top: Frame)
    ensures base + Blocks(rest + [top]) == Entered(base + Blocks(rest), top.name) + top.inner
  {
    var two := [Block(MacroKind, top.name), Block(OtherKind, "my")];
    assert (rest + [top])[..|rest|] == rest;
    assert Blocks(rest + [top]) == Blocks(rest) + two + top.inner;
    Regroup(base, Blocks(rest) + two, top.inner);
    Regroup(base, Blocks(rest), two);
  }

  lemma StepAgrees(base: Stack, rest: seq<Frame>, top: Frame, e: Event)
    requires e.Call? || e.Return? || LegalInside(top.inner, e)
    requires Plain(top.inner)
    ensures Step(base + Blocks(rest + [top]), e) == Some(base + Blocks(StepFrame(rest, top, e)))
  {
    StackOf(base, rest, top);
    match e
    case Call(name) =>
      StackOf(base, rest + [top], Frame(name, []));
      var entered := Entered(base + Blocks(rest + [top]), name);
      assert entered + [] == entered;
    case Return => ReturnUndoesCall(base + Blocks(rest), top.name, top.inner);
    case _ =>
      StepInside(Entered(base + Blocks(rest), top.name), top.inner, e);
      StackOf(base, rest, Frame(top.name, Inside(top.inner, e)));
  }

  lemma StillPlain(rest: seq<Frame>, top: Frame, e: Event)
    requires e.Call? || e.Return? || LegalInside(top.inner, e)
    requires AllPlain(rest) && Plain(top.inner)
    ensures AllPlain(StepFrame(rest, top, e))
  {
    if !e.Call? && !e.Return? { StepInside([], top.inner, e); }
  }

  /** One event does to the stack what it does to the frames. */
  lemma StepsAgree(base: Stack, frames: seq<Frame>, e: Event)
    requires Legal(frames, e) && AllPlain(frames)
    ensures AllPlain(StepFrames(frames, e))
    ensures Step(base + Blocks(frames), e) == Some(base + Blocks(StepFrames(frames, e)))
  {
    var rest, top := frames[..|frames| - 1], frames[|frames| - 1];
    assert frames == rest + [top];
    StepAgrees(base, rest, top, e);
    StillPlain(rest, top, e);
  }

  lemma {:induction false} RunsAgree(base: Stack, frames: seq<Frame>, events: seq<Event>)
    requires AllPlain(frames) && RunFrames(frames, events).Some?
    ensures AllPlain(RunFrames(frames, events).value)
    ensures Run(base + Blocks(frames), events) == Some(base + Blocks(RunFrames(frames, events).value))
    decreases |events|
  {
    if events != [] {
      StepsAgree(base, frames, events[0]);
      RunsAgree(base, StepFrames(frames, events[0]), events[1..]);
    }
  }

  /** A call, any run of its body in which the macros it calls return, and a return: the
      stack is what it was, whatever the body has left open. */
  lemma CallReturns(base: Stack, name: string, body: seq<Event>)
    requires RunFrames([Frame(name, [])], body).Some? && |RunFrames([Frame(name, [])], body).value| == 1
    ensures Run(base, [Call(name)] + body + [Return]) == Some(base)
  {
    var first := Frame(name, []);
    var last := RunFrames([first], body).value[0];
    RunsAgree(base, [first], body);
    assert [] + [first] == [first] && [last] == RunFrames([first], body).value;
    StackOf(base, [], first);
    StackOf(base, [], last);
    assert [] + [last] == [last] && base + [] == base && Entered(base, name) + [] == Entered(base, name);
    ReturnUndoesCall(base, last.name, last.inner);
    CallThenBody(base, name, body);
  }

  lemma CallThenBody(base: Stack, name: string, body: seq<Event>)
    ensures var end := Run(Entered(base, name), body);
      Run(base, [Call(name)] + body + [Return]) == if end.None? then None else Step(end.value, Return)
  {
    RunSum(Entered(base, name), body, [Return]);
    assert ([Call(name)] + body + [Return])[1..] == body + [Return];
    var end := Run(Entered(base, name), body);
    if end.Some? { assert Run(end.value, [Return]) == Step(end.value, Return); }
  }

  lemma {:induction false} RunSum(s: Stack, a: seq<Event>, b: seq<Event>)
    ensures Run(s, a + b) == if Run(s, a).None? then None else Run(Run(s, a).value, b)
    decreases |a|
  {
    if a == [] {
      assert a + b == b;
    } else {
      assert (a + b)[1..] == a[1..] + b;
      var next := Step(s, a[0]);
      if next.Some? { RunSum(next.value, a[1..], b); }
    }
  }

  /** A return with no macro on the stack is the only one that fails. */
  lemma ReturnFails(s: Stack)
    ensures Step(s, Return) == None <==> forall b <- s :: b.kind != MacroKind
  {
    if forall b <- s :: b.kind != MacroKind {
      DownToNone([], s, MacroKind);
      assert [] + s == s;
    } else {
      DownToSum([], s, MacroKind);
      assert [] + s == s && forall b <- s :: b in s;
    }
  }

  /** A call whose parameters do not match leaves the two scopes of its macro; a return of
      the macro that called it then takes these off, and not its own. */
  lemma FailedCallMisleadsReturn(base: Stack, caller: string, inner: Stack, name: string)
    requires Plain(inner)
    ensures var running := Entered(base, caller) + inner;
      Step(Entered(running, name), Return) == Some(running) && running != base
  {
    var running := Entered(base, caller) + inner;
    assert Entered(running, name) + [] == Entered(running, name);
    ReturnUndoesCall(running, name, []);
    assert |running| > |base|;
  }

  // ----- in place

  class Scopes {
    var blocks: Stack

    constructor ()
      ensures blocks == []
    {
      blocks := [];
    }

    method Create(b: Block)
      modifies this
      ensures blocks == old(blocks) + [b]
    {
      blocks := blocks + [b];
    }

    method DestroyLast()
      requires blocks != []
      modifies this
      ensures blocks == old(blocks)[..|old(blocks)| - 1]
    {
      blocks := blocks[..|blocks| - 1];
    }

    /** Pushes the scope of a macro and its alias. */
    method PushMacro(name: string)
      modifies this
      ensures blocks == Entered(old(blocks), name)
    {
      Create(Block(MacroKind, name));
      Create(Block(OtherKind, "my"));
      assert blocks == Entered(old(blocks), name);
    }

    /** Begins a macro: pushes its scopes, and then binds its parameters in a new scope item.
        It fails if and only if there are more actual parameters than formal ones, and then
        the scopes stay. */
    method InitialiseMacroBlock(name: string, args: M.ListNode?, params: M.ListNode?,
                                ghost formals: seq<M.ListNode>, ghost actuals: seq<M.ListNode>)
      returns (ok: bool, item: M.Symb)
      requires M.IsList(args, formals) && M.IsList(params, actuals)
      requires formals != [] ==> formals[|formals| - 1].op1 != null
      modifies this
      ensures blocks == Entered(old(blocks), name) != old(blocks) && fresh(item)
      ensures ok <==> M.Count(params, actuals) <= M.Count(args, formals)
      ensures ok ==> Some(blocks) == Step(old(blocks), Call(name))
      ensures !ok || params == null ==> item.attrs == map[]
      ensures ok && params != null ==>
        item.attrs == M.PutAll(map[], M.Items(args, formals), M.Items(params, actuals))
    {
      PushMacro(name);
      assert |blocks| == |old(blocks)| + 2;
      item := new M.Symb();
      ok := item.SubstituteParams(args, params, formals, actuals);
    }

    /** Closes a macro, with whatever is open in it. */
    method CloseMacroBlock() returns (ok: bool)
      modifies this
      ensures if ok then Some(blocks) == Step(old(blocks), Return)
        else Step(old(blocks), Return) == None && blocks == []
    {
      while blocks != [] && blocks[|blocks| - 1].kind != MacroKind
        invariant DownTo(blocks, MacroKind) == DownTo(old(blocks), MacroKind)
        decreases |blocks|
      {
        DestroyLast();
      }
      if blocks == [] { return false; }
      DestroyLast();
      ok := true;
    }

    /** Leaves a loop, with whatever is open in it. */
    method DestroyForBlock()
      requires Step(blocks, LeaveFor).Some?
      modifies this
      ensures Some(blocks) == Step(old(blocks), LeaveFor)
    {
      var kind := blocks[|blocks| - 1].kind;
      DestroyLast();
      while kind != ForKind
        invariant if kind == ForKind then Some(blocks) == Front(DownTo(old(blocks), ForKind))
                  else blocks != [] && DownTo(blocks, ForKind) == DownTo(old(blocks), ForKind)
        decreases |blocks|, kind != ForKind
      {
        kind := blocks[|blocks| - 1].kind;
        DestroyLast();
      }
    }

    method IterateForLoop(more: bool)
      requires Step(blocks, EndFor(more)).Some?
      modifies this
      ensures Some(blocks) == Step(old(blocks), EndFor(more))
    {
      while blocks[|blocks| - 1].kind != ForKind
        invariant blocks != [] && DownTo(blocks, ForKind) == DownTo(old(blocks), ForKind) != []
        decreases |blocks|
      {
        DestroyLast();
      }
      if !more { DestroyLast(); }
    }

    method Perform(e: Event)
      requires Step(blocks, e).Some?
      modifies this
      ensures Some(blocks) == Step(old(blocks), e)
    {
      match e
      case Open(b) => Create(b);
      case CloseTop => DestroyLast();
      case EndFor(more) => IterateForLoop(more);
      case LeaveFor => DestroyForBlock();
      case Call(name) => PushMacro(name);
      case Return => var ok := CloseMacroBlock();
    }

    method Execute(events: seq<Event>)
      requires Run(blocks, events).Some?
      modifies this
      ensures Some(blocks) == Run(old(blocks), events)
    {
      for i := 0 to |events|
        invariant Run(old(blocks), events) == Run(blocks, events[i..]) && Run(blocks, events[i..]).Some?
      {
        assert events[i..][1..] == events[i + 1..];
        Perform(events[i]);
      }
    }
  }

  /** One actual parameter for a macro without formal ones: the call fails, and the stack,
      which was empty, holds its scopes. */
  method CallWithoutFormals(value: string) returns (scopes: Scopes, ok: bool)
    ensures fresh(scopes) && !ok && scopes.blocks == [Block(MacroKind, "m"), Block(OtherKind, "my")]
  {
    scopes := new Scopes();
    var param := new M.ListNode(false, value, null, null);
    var item;
    ok, item := scopes.InitialiseMacroBlock("m", null, param, [], []);
  }
}
