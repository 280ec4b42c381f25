/** The traced-future state machine: which tree operation a poll or a drop of a
    `StackTraced` future performs, decided from the ambient trace context.

    The ambient task-local context is an explicit `Option<TraceContext>`
    argument, and polling the wrapped (inner) future is a function parameter: it
    receives the ambient context and returns the context it leaves behind
    together with whether it finished, or the panic raised inside it. */
module StackTraced {
  import opened Common
  import opened SpanTree
  import opened SpanTreeWf

  datatype TracedState =
    | Initial(span: string)
    | Polled(thisNode: NodeId, thisContext: ContextId)
    | Ready

  /** Polling the inner future: the ambient context in, the ambient context out
      and `true` for `Poll::Ready`; a panic inside the inner future unwinds
      through the traced poll. */
  type InnerPoll = Option<TraceContext> -> Outcome<(Option<TraceContext>, bool)>

  /** The outcome of one poll of the traced future. */
  datatype PollStep = PollStep(state: TracedState, ambient: Option<TraceContext>, ready: bool)

  const NoContextPanic: string := "cannot access a task-local storage value without setting it first"
  const AssertEqPanic: string := "assertion `left == right` failed"
  const UnfusedPanic: string := "internal error: entered unreachable code: the traced future should always be fused"

  /** Polling the inner future without touching the tree (the untraced arms). */
  function Untraced(state: TracedState, ambient: Option<TraceContext>, inner: InnerPoll): (r: Outcome<PollStep>)
    ensures r.Done? <==> inner(ambient).Done?
    ensures r.Done? ==>
      r.value.state == state && r.value.ambient == inner(ambient).value.0 && r.value.ready == inner(ambient).value.1
  {
    match inner(ambient)
    case Panic(m) => Panic(m)
    case Done(out) => Done(PollStep(state, out.0, out.1))
  }

  /** Entering the span before the inner poll, in the matching context: a first
      poll pushes a fresh node, a later one steps back into its node. Returns the
      new state, the context and the future's node. */
  function Enter(state: TracedState, c: TraceContext): (r: Outcome<(TracedState, TraceContext, NodeId)>)
    requires state.Initial? || (state.Polled? && state.thisContext == c.id)
    ensures r.Done? ==> r.value.0 == Polled(r.value.2, c.id) && r.value.1.current == r.value.2
  {
    match state
    case Initial(span) =>
      (match Push(c, span)
       case Panic(m) => Panic(m)
       case Done(pushed) => Done((Polled(pushed.1, c.id), pushed.0, pushed.1)))
    case Polled(n, _) =>
      (match StepIn(c, n)
       case Panic(m) => Panic(m)
       case Done(d) => Done((state, d, n)))
  }

  /** Leaving the span after the inner poll: on `Ready` the node is popped and
      the state becomes `Ready`; on `Pending` the cursor steps out. Both arms then
      assert that the cursor is back at `oldCurrent`. */
  function Exit(state: TracedState, ambient: Option<TraceContext>, node: NodeId, oldCurrent: NodeId, ready: bool)
    : (r: Outcome<PollStep>)
    ensures r.Done? ==> r.value.ambient.Some? && r.value.ambient.value.current == oldCurrent
    ensures r.Done? ==> r.value.ready == ready
    ensures r.Done? ==> if ready then r.value.state.Ready? else r.value.state == state
  {
    if ambient.None? then Panic(NoContextPanic)
    else
      var e := ambient.value;
      if ready then
        if e.current != node then Panic(AssertEqPanic)
        else
          match Pop(e)
          case Panic(m) => Panic(m)
          case Done(f) =>
            if f.current != oldCurrent then Panic(AssertEqPanic)
            else Done(PollStep(Ready, Some(f), true))
      else
        match StepOut(e)
        case Panic(m) => Panic(m)
        case Done(f) =>
          if f.current != oldCurrent then Panic(AssertEqPanic)
          else Done(PollStep(state, Some(f), false))
  }

  /** The traced path of a poll once the ambient context is known to match:
      enter, assert the cursor is the node, poll the inner future, exit. */
  function Traced(state: TracedState, c: TraceContext, inner: InnerPoll): (r: Outcome<PollStep>)
    requires state.Initial? || (state.Polled? && state.thisContext == c.id)
    ensures r.Done? ==> r.value.ambient.Some? && r.value.ambient.value.current == c.current
    ensures r.Done? ==> (r.value.state.Ready? <==> r.value.ready)
  {
    match Enter(state, c)
    case Panic(m) => Panic(m)
    case Done(entered) =>
      var (s, d, node) := entered;
      if d.current != node then Panic(AssertEqPanic)
      else
        match inner(Some(d))
        case Panic(m) => Panic(m)
        case Done(out) => Exit(s, out.0, node, c.current, out.1)
  }

  /** `StackTraced::poll` as written: the cursor is read through the panicking
      accessor before the state is inspected, so a poll outside any context
      panics even where the code means to run the inner future untraced. */
  function PollAsWritten(state: TracedState, ambient: Option<TraceContext>, inner: InnerPoll): (r: Outcome<PollStep>)
    ensures ambient.None? ==> r.Panic?
  {
    if ambient.None? then Panic(NoContextPanic)
    else
      var c := ambient.value;
      match state
      case Ready => Panic(UnfusedPanic)
      case Initial(_) => Traced(state, c, inner)
      case Polled(_, ctx) =>
        if ctx == c.id then Traced(state, c, inner)
        else Untraced(state, ambient, inner)
  }

  /** `StackTraced::poll` with the cursor read only inside a context: outside
      one, an `Initial` or `Polled` future runs untraced. */
  function Poll(state: TracedState, ambient: Option<TraceContext>, inner: InnerPoll): (r: Outcome<PollStep>)
    ensures r.Done? ==> (r.value.state.Ready? ==> r.value.ready)
    ensures state.Ready? ==> r.Panic?
    ensures ambient.None? && !state.Ready? ==>
      && (r.Done? <==> inner(None).Done?)
      && (r.Done? ==> r.value.state == state && r.value.ambient == inner(None).value.0 && r.value.ready == inner(None).value.1)
    ensures state.Polled? && ambient.Some? && ambient.value.id != state.thisContext ==>
      && (r.Done? <==> inner(ambient).Done?)
      && (r.Done? ==> r.value.state == state && r.value.ambient == inner(ambient).value.0 && r.value.ready == inner(ambient).value.1)
  {
    if ambient.None? then
      if state.Ready? then Panic(UnfusedPanic) else Untraced(state, ambient, inner)
    else PollAsWritten(state, ambient, inner)
  }

  /** `PinnedDrop::drop`: only a polled future dropped in the context it was
      first polled in cleans up, by removing its node and detaching its children. */
  function Drop(state: TracedState, ambient: Option<TraceContext>): (r: Outcome<Option<TraceContext>>)
    ensures !(state.Polled? && ambient.Some? && ambient.value.id == state.thisContext) ==> r == Done(ambient)
    ensures state.Polled? && ambient.Some? && ambient.value.id == state.thisContext ==>
      && (r.Done? <==> state.thisNode < |ambient.value.arena|)
      && (r.Done? ==> r.value == Some(RemoveAndDetach(ambient.value, state.thisNode).value))
  {
    match state
    case Polled(n, ctx) =>
      if ambient.Some? && ambient.value.id == ctx then
        match RemoveAndDetach(ambient.value, n)
        case Panic(m) => Panic(m)
        case Done(d) => Done(Some(d))
      else Done(ambient)
    case _ => Done(ambient)
  }

  // ---------------------------------------------------------------------------
  // Fusing (`stack_trace` wraps the traced future in `Fuse`)
  // ---------------------------------------------------------------------------

  /** A fused traced future: `Terminated` once the inner future has completed
      and been dropped. */
  datatype Fused = Active(traced: TracedState) | Terminated

  datatype FuseStep = FuseStep(fused: Fused, ambient: Option<TraceContext>, ready: bool)

  /** `stack_trace(span)`: a fresh traced future, fused. */
  function StackTrace(span: string): (r: Fused)
    ensures r.Active? && r.traced.Initial? && r.traced.span == span
  {
    Active(Initial(span))
  }

  /** `Fuse::poll`: a terminated future reports `Pending` and does nothing; an
      active one is polled and, when it completes, dropped at once. */
  function FusePoll(f: Fused, ambient: Option<TraceContext>, inner: InnerPoll): (r: Outcome<FuseStep>)
    ensures f.Terminated? ==> r == Done(FuseStep(Terminated, ambient, false))
    ensures r.Done? ==> (r.value.fused.Terminated? <==> f.Terminated? || r.value.ready)
    ensures r.Done? ==> r.value.fused != Active(Ready)
  {
    match f
    case Terminated => Done(FuseStep(Terminated, ambient, false))
    case Active(s) =>
      match Poll(s, ambient, inner)
      case Panic(m) => Panic(m)
      case Done(p) =>
        if p.ready then
          match Drop(p.state, p.ambient)
          case Panic(m) => Panic(m)
          case Done(a) => Done(FuseStep(Terminated, a, true))
        else Done(FuseStep(Active(p.state), p.ambient, false))
  }

  /** Dropping a fused future drops the traced future if it is still there. */
  function FuseDrop(f: Fused, ambient: Option<TraceContext>): (r: Outcome<Option<TraceContext>>)
    ensures f.Terminated? ==> r == Done(ambient)
  {
    match f
    case Terminated => Done(ambient)
    case Active(s) => Drop(s, ambient)
  }

  // ---------------------------------------------------------------------------
  // Drop glue: the traced futures an inner future owns
  // ---------------------------------------------------------------------------

  /** A fused traced future together with the traced futures its inner future
      owns, such as the branches of a `join_all` it is awaiting. Dropping it
      runs `PinnedDrop::drop` first and then Rust's drop glue, which drops the
      inner future and, with it, each owned traced future in field order. */
  datatype Held = Held(fused: Fused, nested: seq<Held>)

  /** Dropping a held traced future: its own `PinnedDrop::drop`, then the
      traced futures it owns. Outside any context nothing changes, and inside
      one the cursor, the context id and the arena size are kept. */
  function DropHeld(h: Held, ambient: Option<TraceContext>): (r: Outcome<Option<TraceContext>>)
    ensures ambient.None? ==> r == Done(None)
    ensures r.Done? && ambient.Some? ==>
      && r.value.Some? && r.value.value.current == ambient.value.current
      && r.value.value.id == ambient.value.id && |r.value.value.arena| == |ambient.value.arena|
    decreases h, 1
  {
    match FuseDrop(h.fused, ambient)
    case Panic(m) => Panic(m)
    case Done(a) => DropAll(h.nested, a)
  }

  /** Dropping owned traced futures one after another, stopping at a panic. */
  function DropAll(hs: seq<Held>, ambient: Option<TraceContext>): (r: Outcome<Option<TraceContext>>)
    ensures ambient.None? ==> r == Done(None)
    ensures r.Done? && ambient.Some? ==>
      && r.value.Some? && r.value.value.current == ambient.value.current
      && r.value.value.id == ambient.value.id && |r.value.value.arena| == |ambient.value.arena|
    decreases hs, 0
  {
    if |hs| == 0 then Done(ambient)
    else
      match DropHeld(hs[0], ambient)
      case Panic(m) => Panic(m)
      case Done(a) => DropAll(hs[1..], a)
  }
}
