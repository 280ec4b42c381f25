/** What a traced poll does to the tree: it is balanced (the cursor comes back
    to where it was), a completed future's node is popped, a pending one stays
    live under the cursor, and a cancelled future's node is removed on drop. */
module StackTracedProps {
  import opened Common
  import opened SpanTree
  import opened SpanTreeWf
  import opened StackTraced

  /** What a well-behaved inner future does when a traced poll hands it `x`,
      whose cursor is this future's node: it does not panic, stays inside the
      context, keeps it well-formed, and leaves the cursor and the cursor's
      parent link where they were. Every child of this future's node is a span
      the inner future created, so when it completes it must have removed them
      all: `pop` asserts that the node has no children. */
  ghost predicate InnerKeeps(inner: InnerPoll, x: TraceContext) {
    Wf(x) ==>
      && inner(Some(x)).Done?
      && var (a, ready) := inner(Some(x)).value;
      && a.Some? && Wf(a.value)
      && a.value.id == x.id && a.value.current == x.current
      && a.value.arena[x.current].parent == x.arena[x.current].parent
      && (ready ==> a.value.arena[x.current].children == [])
  }

  /** The node a traced poll in context `c` works on. */
  function NodeOf(state: TracedState, c: TraceContext): (n: NodeId)
    requires state.Initial? || state.Polled?
    ensures state.Polled? ==> n == state.thisNode
    ensures state.Initial? ==> n !in LiveSet(c) && n == |c.arena|
  {
    if state.Initial? then |c.arena| else state.thisNode
  }

  /** A poll in the matching context with a balanced inner future never panics:
      the inner future sees this future's node as the cursor, the cursor is back
      at its old place afterwards, a completed future's node is removed and the
      state becomes `Ready`, and a pending future's node stays live as a child of
      the cursor, recorded in the `Polled` state. */
  lemma TracedPollBalanced(state: TracedState, c: TraceContext, inner: InnerPoll)
    requires Wf(c)
    requires state.Initial? || (state.Polled? && state.thisContext == c.id && StepIn(c, state.thisNode).Done?)
    requires Enter(state, c).Done? ==> InnerKeeps(inner, Enter(state, c).value.1)
    ensures var r := Poll(state, Some(c), inner);
      && r.Done?
      && Enter(state, c).Done? && inner(Some(Enter(state, c).value.1)).Done?
      && inner(Some(Enter(state, c).value.1)).value.0.Some?
      && inner(Some(Enter(state, c).value.1)).value.0.value.current == NodeOf(state, c)
      && var f := r.value.ambient.value;
      var n := NodeOf(state, c);
      && Wf(f) && f.id == c.id && f.current == c.current
      && n < |f.arena|
      && (r.value.ready ==> r.value.state == Ready && f.arena[n].removed)
      && (!r.value.ready ==> r.value.state == Polled(n, c.id) && Live(f, n) && IsChild(f, c.current, n))
  {
    var n := NodeOf(state, c);
    var d := Enter(state, c).value.1;
    if state.Initial? {
      PushKeepsWf(c, state.span);
    } else {
      StepInKeepsWf(c, n);
    }
    assert Wf(d) && d.current == n && d.arena[n].parent == Some(c.current);
    assert InnerKeeps(inner, d);
    var (a, ready) := inner(Some(d)).value;
    var e := a.value;
    assert Live(e, n);
    if ready {
      PopKeepsWf(e);
    } else {
      StepOutKeepsWf(e);
      var f := StepOut(e).value;
      assert f.arena[n].parent == Some(c.current);
    }
  }

  /** A future that does no tracing of its own and reports `ready`. */
  function Leaf(ready: bool): (inner: InnerPoll)
    ensures forall a :: inner(a) == Done((a, ready))
  {
    a => Done((a, ready))
  }

  /** A leaf future meets `InnerKeeps` wherever completing is allowed: always
      when it stays pending, and, when it completes, wherever this future's node
      has no children, as on a first poll. */
  lemma LeafKeeps(ready: bool, x: TraceContext)
    requires ready && Wf(x) ==> x.arena[x.current].children == []
    ensures InnerKeeps(Leaf(ready), x)
  {
  }

  /** So a leaf future that completes on its first traced poll is one the ready
      branch of `TracedPollBalanced` covers. */
  lemma LeafFirstPollKeeps(c: TraceContext, span: string)
    requires Wf(c)
    ensures Enter(Initial(span), c).Done?
    ensures InnerKeeps(Leaf(true), Enter(Initial(span), c).value.1)
  {
    PushKeepsWf(c, span);
    LeafKeeps(true, Enter(Initial(span), c).value.1);
  }

  /** A leaf future that completes on its first traced poll leaves the live set
      as it found it: the pushed node is popped at once. */
  lemma LeafReadyCleansUp(c: TraceContext, span: string)
    requires Wf(c)
    ensures var r := Poll(Initial(span), Some(c), Leaf(true));
      && r.Done? && r.value.state == Ready && r.value.ready
      && Wf(r.value.ambient.value) && r.value.ambient.value.current == c.current
      && LiveSet(r.value.ambient.value) == LiveSet(c)
  {
    PushKeepsWf(c, span);
    var d := Push(c, span).value.0;
    PopKeepsWf(d);
  }

  /** A leaf future polled once (pending) and then cancelled leaves the live set
      as it found it: the poll adds its node, the drop removes exactly it. */
  lemma LeafCancelCleansUp(c: TraceContext, span: string)
    requires Wf(c)
    ensures var r := Poll(Initial(span), Some(c), Leaf(false));
      && r.Done? && !r.value.ready && r.value.state == Polled(|c.arena|, c.id)
      && LiveSet(r.value.ambient.value) == LiveSet(c) + {|c.arena|}
      && var dropped := Drop(r.value.state, r.value.ambient);
      && dropped.Done? && dropped.value.Some?
      && Wf(dropped.value.value) && dropped.value.value.current == c.current
      && LiveSet(dropped.value.value) == LiveSet(c)
  {
    PushKeepsWf(c, span);
    var d := Push(c, span).value.0;
    StepOutKeepsWf(d);
    var e := StepOut(d).value;
    assert e.arena == d.arena;
    RemoveAndDetachKeepsWf(e, |c.arena|);
  }

  /** A run of polls of one fused traced future, each with its own ambient
      context and inner poll; stops at the first panic. */
  function FuseRun(f: Fused, polls: seq<(Option<TraceContext>, InnerPoll)>): (r: Outcome<Fused>)
    ensures |polls| == 0 ==> r == Done(f)
    decreases |polls|
  {
    if |polls| == 0 then Done(f)
    else
      match FusePoll(f, polls[0].0, polls[0].1)
      case Panic(m) => Panic(m)
      case Done(step) => FuseRun(step.fused, polls[1..])
  }

  /** Because `stack_trace` fuses the traced future, no run of polls ever hands
      a `Ready` state to `StackTraced::poll`, so its `unreachable!` arm is never
      reached. */
  lemma {:induction false} FuseRunNeverReady(f: Fused, polls: seq<(Option<TraceContext>, InnerPoll)>)
    requires f != Active(Ready)
    ensures FuseRun(f, polls).Done? ==> FuseRun(f, polls).value != Active(Ready)
    ensures forall i :: 0 <= i < |polls| && FuseRun(f, polls[..i]).Done? ==> FuseRun(f, polls[..i]).value != Active(Ready)
    decreases |polls|
  {
    if |polls| > 0 {
      match FusePoll(f, polls[0].0, polls[0].1)
      case Panic(_) =>
      case Done(step) =>
        FuseRunNeverReady(step.fused, polls[1..]);
        forall i | 0 <= i < |polls| && FuseRun(f, polls[..i]).Done?
          ensures FuseRun(f, polls[..i]).value != Active(Ready)
        {
          if i > 0 {
            assert polls[..i][1..] == polls[1..][..i - 1];
          }
        }
    }
  }

  /** A leaf future already polled in this context, whose node is a childless
      child of the cursor, completes on its next poll: it steps back in, its node
      is popped, and the live set loses exactly that node. */
  lemma LeafPolledReady(c: TraceContext, n: NodeId)
    requires Wf(c) && IsChild(c, c.current, n) && c.arena[n].children == []
    ensures var r := Poll(Polled(n, c.id), Some(c), Leaf(true));
      && r.Done? && r.value.state == Ready && r.value.ready
      && Wf(r.value.ambient.value) && r.value.ambient.value.current == c.current
      && r.value.ambient.value.id == c.id && |r.value.ambient.value.arena| == |c.arena|
      && LiveSet(r.value.ambient.value) == LiveSet(c) - {n}
  {
    ChildIsLive(c, c.current, n);
    var d := c.(current := n);
    assert StepIn(c, n) == Done(d);
    PopKeepsWf(d);
  }

  /** A leaf future's first, pending poll in any context whose cursor is live:
      the pushed node is left in the arena as the cursor's last child, and no
      other node changes. */
  lemma LeafPendingShape(c: TraceContext, span: string)
    requires Live(c, c.current)
    ensures var r := Poll(Initial(span), Some(c), Leaf(false));
      && r.Done? && !r.value.ready && r.value.ambient.Some?
      && r.value.state == Polled(|c.arena|, c.id)
      && var d := r.value.ambient.value;
      && d.current == c.current && d.id == c.id
      && |d.arena| == |c.arena| + 1
      && d.arena[|c.arena|] == Node(span, Some(c.current), [], false)
      && d.arena[c.current] == c.arena[c.current].(children := c.arena[c.current].children + [|c.arena|])
      && (forall m :: 0 <= m < |c.arena| && m != c.current ==> d.arena[m] == c.arena[m])
  {
    var d := Push(c, span).value.0;
    assert StepOut(d) == Done(d.(current := c.current));
  }

  /** A leaf future's first, pending poll: its fresh node is left as the last
      child of the cursor, with no children, and no other node changes. */
  lemma LeafPendingFacts(c: TraceContext, span: string)
    requires Wf(c)
    ensures var r := Poll(Initial(span), Some(c), Leaf(false));
      && r.Done? && !r.value.ready && r.value.ambient.Some?
      && r.value.state == Polled(|c.arena|, c.id)
      && var d := r.value.ambient.value;
      && Wf(d) && d.current == c.current && d.id == c.id
      && |d.arena| == |c.arena| + 1
      && d.arena[|c.arena|].children == []
      && IsChild(d, c.current, |c.arena|)
      && LiveSet(d) == LiveSet(c) + {|c.arena|}
      && (forall m :: 0 <= m < |c.arena| && m != c.current ==> d.arena[m] == c.arena[m])
      && d.arena[c.current] == c.arena[c.current].(children := c.arena[c.current].children + [|c.arena|])
  {
    LeafPendingShape(c, span);
    PushKeepsWf(c, span);
    StepOutKeepsWf(Push(c, span).value.0);
  }

  // ---------------------------------------------------------------------------
  // Nested traced futures: a traced `join_all` of traced leaves (`sleep_nested`)
  // ---------------------------------------------------------------------------

  /** The ids `lo`, ..., `lo + k - 1`, in order and as a set. */
  function Ids(lo: nat, k: nat): (r: seq<NodeId>)
    ensures |r| == k && forall i :: 0 <= i < k ==> r[i] == lo + i
  {
    seq(k, i => lo + i)
  }

  function NewIds(lo: nat, k: nat): (r: set<NodeId>)
    ensures forall m :: m in r <==> lo <= m < lo + k
    decreases k
  {
    if k == 0 then {} else {lo} + NewIds(lo + 1, k - 1)
  }

  lemma MinusSplit(a: set<NodeId>, x: NodeId, b: set<NodeId>)
    ensures a - {x} - b == a - ({x} + b)
  {
  }

  /** Adding a node and a block of higher ids to a set of lower ids, then
      taking them out again, gives the set back. */
  lemma BackOut(a: set<NodeId>, x: NodeId, b: set<NodeId>)
    requires forall m :: m in a ==> m < x
    requires forall m :: m in b ==> x < m
    ensures a + {x} + b - {x} - b == a
  {
  }

  lemma UnionSplit(a: set<NodeId>, x: NodeId, b: set<NodeId>)
    ensures a + {x} + b == a + ({x} + b)
  {
  }

  /** The branches of a `join_all` over traced leaf futures, each polled once
      in order, all staying pending. */
  function PollBranches(spans: seq<string>, a: Option<TraceContext>): (r: Outcome<(Option<TraceContext>, bool)>)
    ensures r.Done? ==> !r.value.1
    decreases |spans|
  {
    if |spans| == 0 then Done((a, false))
    else
      match Poll(Initial(spans[0]), a, Leaf(false))
      case Panic(m) => Panic(m)
      case Done(p) => PollBranches(spans[1..], p.ambient)
  }

  /** The first poll of `join_all` over traced leaf futures that all stay
      pending, as the inner future of a traced future; the test's
      `sleep_nested` with two branches. */
  function JoinPending(spans: seq<string>): (inner: InnerPoll)
    ensures forall a :: inner(a) == PollBranches(spans, a)
  {
    a => PollBranches(spans, a)
  }

  /** Polling the branches pushes one pending node per branch under the cursor,
      in order, with fresh ids, and changes no other node of the arena. */
  lemma {:induction false} PollBranchesShape(x: TraceContext, spans: seq<string>)
    requires Live(x, x.current)
    ensures var r := PollBranches(spans, Some(x));
      && r.Done? && r.value.0.Some?
      && var y := r.value.0.value;
      && y.current == x.current && y.id == x.id
      && |y.arena| == |x.arena| + |spans|
      && y.arena[x.current] == x.arena[x.current].(children := x.arena[x.current].children + Ids(|x.arena|, |spans|))
      && (forall m :: 0 <= m < |x.arena| && m != x.current ==> y.arena[m] == x.arena[m])
    decreases |spans|
  {
    if |spans| > 0 {
      var n := |x.arena|;
      LeafPendingShape(x, spans[0]);
      var x1 := Poll(Initial(spans[0]), Some(x), Leaf(false)).value.ambient.value;
      PollBranchesShape(x1, spans[1..]);
      assert Ids(n, |spans|) == [n] + Ids(n + 1, |spans| - 1);
    }
  }

  /** On a well-formed tree, polling the branches keeps it well-formed and adds
      exactly their nodes to the live set. */
  lemma {:induction false} PollBranchesFacts(x: TraceContext, spans: seq<string>)
    requires Wf(x)
    ensures var r := PollBranches(spans, Some(x));
      && r.Done? && r.value.0.Some?
      && var y := r.value.0.value;
      && Wf(y) && y.current == x.current && y.id == x.id
      && |y.arena| == |x.arena| + |spans|
      && LiveSet(y) == LiveSet(x) + NewIds(|x.arena|, |spans|)
    decreases |spans|
  {
    if |spans| > 0 {
      var n := |x.arena|;
      LeafPendingFacts(x, spans[0]);
      var x1 := Poll(Initial(spans[0]), Some(x), Leaf(false)).value.ambient.value;
      PollBranchesFacts(x1, spans[1..]);
      UnionSplit(LiveSet(x), n, NewIds(n + 1, |spans| - 1));
    }
  }

  /** The inner future of `sleep_nested`, on its first poll, is well-behaved in
      every context. */
  lemma JoinPendingKeeps(spans: seq<string>, x: TraceContext)
    ensures InnerKeeps(JoinPending(spans), x)
  {
    if Wf(x) {
      PollBranchesShape(x, spans);
      PollBranchesFacts(x, spans);
    }
  }

  /** The context a traced `join_all` of pending traced leaves leaves behind on
      its first poll in `c`: its node pushed, the branches polled under it, the
      cursor stepped back out. */
  function JoinAfter(c: TraceContext, span: string, spans: seq<string>): TraceContext
    requires Live(c, c.current)
  {
    var d := Push(c, span).value.0;
    PollBranchesShape(d, spans);
    var e := PollBranches(spans, Some(d)).value.0.value;
    e.(current := c.current)
  }

  /** That first poll does not panic, stays pending and leaves `JoinAfter`. */
  lemma JoinPollUnfold(c: TraceContext, span: string, spans: seq<string>)
    requires Live(c, c.current)
    ensures Poll(Initial(span), Some(c), JoinPending(spans))
         == Done(PollStep(Polled(|c.arena|, c.id), Some(JoinAfter(c, span, spans)), false))
  {
    var n := |c.arena|;
    var d := Push(c, span).value.0;
    assert Enter(Initial(span), c) == Done((Polled(n, c.id), d, n));
    PollBranchesShape(d, spans);
    var e := PollBranches(spans, Some(d)).value.0.value;
    assert JoinPending(spans)(Some(d)) == Done((Some(e), false));
    assert StepOut(e) == Done(e.(current := c.current));
  }

  /** Before the cursor steps back out: once the `join_all`'s node `|c.arena|`
      is pushed onto `c`, giving `d`, its branches are pushed too, and the tree
      stays well-formed. */
  lemma JoinInnerWf(c: TraceContext, d: TraceContext, spans: seq<string>)
    requires Wf(d) && |d.arena| == |c.arena| + 1 && LiveSet(d) == LiveSet(c) + {|c.arena|}
    ensures var r := PollBranches(spans, Some(d));
      && r.Done? && r.value.0.Some?
      && var e := r.value.0.value;
      && Wf(e) && LiveSet(e) == LiveSet(c) + NewIds(|c.arena|, 1 + |spans|)
  {
    PollBranchesFacts(d, spans);
    UnionSplit(LiveSet(c), |c.arena|, NewIds(|c.arena| + 1, |spans|));
  }

  /** `JoinAfter` is well-formed, in the same context with the same cursor, and
      has one new live node per span. */
  lemma JoinAfterWf(c: TraceContext, span: string, spans: seq<string>)
    requires Wf(c)
    ensures var d := JoinAfter(c, span, spans);
      && Wf(d) && d.current == c.current && d.id == c.id
      && LiveSet(d) == LiveSet(c) + NewIds(|c.arena|, 1 + |spans|)
  {
    PushKeepsWf(c, span);
    var d := Push(c, span).value.0;
    PollBranchesShape(d, spans);
    JoinInnerWf(c, d, spans);
    var e := PollBranches(spans, Some(d)).value.0.value;
    StepOutKeepsWf(e);
    assert StepOut(e) == Done(JoinAfter(c, span, spans));
  }

  /** The shape of `JoinAfter`: the `join_all`'s node is the cursor's last
      child, the branches are its children in order, and no other node of `c`
      changes. */
  lemma JoinAfterShape(c: TraceContext, span: string, spans: seq<string>)
    requires Live(c, c.current)
    ensures var d := JoinAfter(c, span, spans);
      && |d.arena| == |c.arena| + 1 + |spans|
      && d.arena[c.current].children == c.arena[c.current].children + [|c.arena|]
      && d.arena[|c.arena|].children == Ids(|c.arena| + 1, |spans|)
      && (forall m :: 0 <= m < |c.arena| && m != c.current ==> d.arena[m] == c.arena[m])
  {
    var n := |c.arena|;
    var d := Push(c, span).value.0;
    PollBranchesShape(d, spans);
    assert [] + Ids(n + 1, |spans|) == Ids(n + 1, |spans|);
  }

  /** The first poll of a traced `join_all` of traced leaves with every branch
      pending: its node is pushed under the cursor, the branches are pushed
      under that node in order, and the cursor is back where it was. */
  lemma JoinFirstPollFacts(c: TraceContext, span: string, spans: seq<string>)
    requires Wf(c)
    ensures var r := Poll(Initial(span), Some(c), JoinPending(spans));
      && r.Done? && !r.value.ready && r.value.state == Polled(|c.arena|, c.id)
      && r.value.ambient.Some?
      && var d := r.value.ambient.value;
      && Wf(d) && d.current == c.current && d.id == c.id
      && |d.arena| == |c.arena| + 1 + |spans|
      && LiveSet(d) == LiveSet(c) + NewIds(|c.arena|, 1 + |spans|)
      && d.arena[c.current].children == c.arena[c.current].children + [|c.arena|]
      && d.arena[|c.arena|].children == Ids(|c.arena| + 1, |spans|)
      && (forall m :: 0 <= m < |c.arena| && m != c.current ==> d.arena[m] == c.arena[m])
  {
    JoinPollUnfold(c, span, spans);
    JoinAfterWf(c, span, spans);
    JoinAfterShape(c, span, spans);
  }

  /** The traced futures a pending traced `join_all` of `k` traced leaves owns
      after its first poll in context `id`: the branches with nodes `lo`, ...,
      `lo + k - 1`, in order, each a polled leaf owning nothing. */
  function Branches(lo: nat, k: nat, id: ContextId): (hs: seq<Held>)
    ensures |hs| == k
    decreases k
  {
    if k == 0 then [] else [Held(Active(Polled(lo, id)), [])] + Branches(lo + 1, k - 1, id)
  }

  /** Dropping the first of the pending branches is `remove_and_detach` of its
      node; the rest are dropped afterwards. */
  lemma DropBranchesStep(e: TraceContext, lo: nat, k: nat)
    requires lo < |e.arena| && k > 0
    ensures RemoveAndDetach(e, lo).value.id == e.id && RemoveAndDetach(e, lo).value.current == e.current
    ensures |RemoveAndDetach(e, lo).value.arena| == |e.arena|
    ensures DropAll(Branches(lo, k, e.id), Some(e))
         == DropAll(Branches(lo + 1, k - 1, RemoveAndDetach(e, lo).value.id), Some(RemoveAndDetach(e, lo).value))
  {
    var hs := Branches(lo, k, e.id);
    assert hs[1..] == Branches(lo + 1, k - 1, e.id);
    var e1 := RemoveAndDetach(e, lo).value;
    assert Drop(Polled(lo, e.id), Some(e)) == Done(Some(e1));
    assert DropHeld(hs[0], Some(e)) == Done(Some(e1));
  }

  /** Dropping pending branches removes exactly their nodes from the live set
      and keeps the cursor. */
  lemma {:induction false} DropBranchesCleansUp(e: TraceContext, lo: nat, k: nat)
    requires lo + k <= |e.arena|
    ensures DropAll(Branches(lo, k, e.id), Some(e)).Done? && DropAll(Branches(lo, k, e.id), Some(e)).value.Some?
    ensures DropAll(Branches(lo, k, e.id), Some(e)).value.value.current == e.current
    ensures DropAll(Branches(lo, k, e.id), Some(e)).value.value.id == e.id
    ensures LiveSet(DropAll(Branches(lo, k, e.id), Some(e)).value.value) == LiveSet(e) - NewIds(lo, k)
    decreases k
  {
    if k > 0 {
      DropBranchesStep(e, lo, k);
      RemoveAndDetachLive(e, lo);
      DropBranchesCleansUp(RemoveAndDetach(e, lo).value, lo + 1, k - 1);
      MinusSplit(LiveSet(e), lo, NewIds(lo + 1, k - 1));
    }
  }

  /** `remove_and_detach` of a node other than the cursor keeps the tree
      well-formed (the part of `RemoveAndDetachKeepsWf` the drop proofs need). */
  lemma RemoveAndDetachWf(e: TraceContext, n: NodeId)
    requires Wf(e) && n < |e.arena| && n != e.current
    ensures Wf(RemoveAndDetach(e, n).value)
  {
    RemoveAndDetachKeepsWf(e, n);
  }

  /** Dropping pending branches none of whose nodes is the cursor keeps the
      tree well-formed. */
  lemma {:induction false} DropBranchesKeepsWf(e: TraceContext, lo: nat, k: nat) returns (r: TraceContext)
    requires Wf(e) && lo + k <= |e.arena| && (e.current < lo || e.current >= lo + k)
    ensures DropAll(Branches(lo, k, e.id), Some(e)) == Done(Some(r)) && Wf(r)
    decreases k
  {
    if k == 0 {
      r := e;
    } else {
      DropBranchesStep(e, lo, k);
      RemoveAndDetachWf(e, lo);
      r := DropBranchesKeepsWf(RemoveAndDetach(e, lo).value, lo + 1, k - 1);
      assert DropAll(Branches(lo + 1, k - 1, RemoveAndDetach(e, lo).value.id), Some(RemoveAndDetach(e, lo).value)) == Done(Some(r));
      assert DropAll(Branches(lo, k, e.id), Some(e)) == DropAll(Branches(lo + 1, k - 1, RemoveAndDetach(e, lo).value.id), Some(RemoveAndDetach(e, lo).value));
    }
  }

  /** `select_all` dropping the other future, a pending traced `join_all`
      (state `loser`), together with the `k` traced branches it owns, whose
      nodes follow the loser's own node. */
  function CancelJoin(loser: TracedState, k: nat, ambient: Option<TraceContext>): Outcome<Option<TraceContext>>
  {
    var owned := if loser.Polled? then Branches(loser.thisNode + 1, k, loser.thisContext) else [];
    DropHeld(Held(Active(loser), owned), ambient)
  }

  /** The loser's `PinnedDrop::drop` removes its node and detaches the
      branches; the drop glue then drops the branches. */
  lemma DropJoinStep(e: TraceContext, n: NodeId, k: nat, loser: TracedState, ambient: Option<TraceContext>)
    requires n < |e.arena| && loser == Polled(n, e.id) && ambient == Some(e)
    ensures CancelJoin(loser, k, ambient)
         == DropAll(Branches(n + 1, k, RemoveAndDetach(e, n).value.id), Some(RemoveAndDetach(e, n).value))
  {
  }

  /** Cancelling a pending traced `join_all` whose branches are still pending
      leaves none of its spans behind: its `PinnedDrop::drop` removes its node
      and detaches the branches, then the drop glue drops each branch, which
      removes the branch's node. */
  lemma DropJoinCleansUp(e: TraceContext, n: NodeId, k: nat, loser: TracedState, ambient: Option<TraceContext>)
    requires n + 1 + k <= |e.arena| && loser == Polled(n, e.id) && ambient == Some(e)
    ensures CancelJoin(loser, k, ambient).Done? && CancelJoin(loser, k, ambient).value.Some?
    ensures CancelJoin(loser, k, ambient).value.value.current == e.current
    ensures CancelJoin(loser, k, ambient).value.value.id == e.id
    ensures LiveSet(CancelJoin(loser, k, ambient).value.value) == LiveSet(e) - NewIds(n, 1 + k)
  {
    var e1 := RemoveAndDetach(e, n).value;
    DropJoinStep(e, n, k, loser, ambient);
    RemoveAndDetachLive(e, n);
    DropBranchesCleansUp(e1, n + 1, k);
    MinusSplit(LiveSet(e), n, NewIds(n + 1, k));
  }

  /** Dropping the pending `join_all` elsewhere than at the cursor keeps the
      tree well-formed. */
  lemma DropJoinKeepsWf(e: TraceContext, n: NodeId, k: nat, loser: TracedState, ambient: Option<TraceContext>)
    returns (r: TraceContext)
    requires Wf(e) && n + 1 + k <= |e.arena| && (e.current < n || e.current > n + k)
    requires loser == Polled(n, e.id) && ambient == Some(e)
    ensures CancelJoin(loser, k, ambient) == Done(Some(r)) && Wf(r)
  {
    var e1 := RemoveAndDetach(e, n).value;
    assert Wf(e1) && e1.current == e.current && |e1.arena| == |e.arena| by {
      RemoveAndDetachWf(e, n);
    }
    r := DropBranchesKeepsWf(e1, n + 1, k);
    assert CancelJoin(loser, k, ambient) == DropAll(Branches(n + 1, k, e1.id), Some(e1)) by {
      DropJoinStep(e, n, k, loser, ambient);
    }
  }

  /** The first half of the cancel step: the leaf and then the nested future
      are polled once and stay pending; the leaf's node is a childless child of
      the cursor, and the nested future's node and branches are the next ids. */
  lemma PendingPair(c: TraceContext, spanA: string, spanB: string, nested: seq<string>)
    requires Wf(c)
    ensures var a1 := Poll(Initial(spanA), Some(c), Leaf(false));
      && a1.Done? && a1.value.state == Polled(|c.arena|, c.id) && a1.value.ambient.Some?
      && var b1 := Poll(Initial(spanB), a1.value.ambient, JoinPending(nested));
      && b1.Done? && !b1.value.ready && b1.value.state == Polled(|c.arena| + 1, c.id)
      && b1.value.ambient.Some?
      && var c2 := b1.value.ambient.value;
      && Wf(c2) && c2.current == c.current && c2.id == c.id
      && IsChild(c2, c.current, |c.arena|) && c2.arena[|c.arena|].children == []
      && |c2.arena| == |c.arena| + 2 + |nested|
      && LiveSet(c2) == LiveSet(c) + {|c.arena|} + NewIds(|c.arena| + 1, 1 + |nested|)
  {
    var nA := |c.arena|;
    LeafPendingFacts(c, spanA);
    var c1 := Poll(Initial(spanA), Some(c), Leaf(false)).value.ambient.value;
    JoinFirstPollFacts(c1, spanB, nested);
    var c2 := Poll(Initial(spanB), Some(c1), JoinPending(nested)).value.ambient.value;
    assert nA in c1.arena[c.current].children;
    assert nA in c2.arena[c.current].children;
    assert c2.arena[nA] == c1.arena[nA];
  }
  /** The second half of the test's select-and-cancel step: the leaf (state
      `leaf`) is polled again and completes, and `select_all` then drops the
      other future (state `loser`) together with the `k` traced branches its
      `join_all` owns, whose nodes follow the loser's own node. The context it
      leaves, or the panic raised on the way. */
  function FinishThenCancel(leaf: TracedState, ambient: Option<TraceContext>, loser: TracedState, k: nat)
    : Outcome<Option<TraceContext>>
  {
    match Poll(leaf, ambient, Leaf(true))
    case Panic(m) => Panic(m)
    case Done(a2) => CancelJoin(loser, k, a2.ambient)
  }

  /** The select-and-cancel step of the tracer's test, in context `c`:
      `select_all` over a traced leaf (`sleep 666`) and a traced `sleep_nested`
      with the given branches polls each once, then finishes the leaf and
      cancels the nested future. */
  function SelectCancel(c: TraceContext, spanA: string, spanB: string, nested: seq<string>)
    : Outcome<Option<TraceContext>>
  {
    match Poll(Initial(spanA), Some(c), Leaf(false))
    case Panic(m) => Panic(m)
    case Done(a1) =>
      match Poll(Initial(spanB), a1.ambient, JoinPending(nested))
      case Panic(m) => Panic(m)
      case Done(b1) => FinishThenCancel(a1.state, b1.ambient, b1.state, |nested|)
  }

  /** The cancel step of the tracer's own test, on any well-formed context:
      both futures are polled once and stay pending (`PendingPair`), the leaf
      completes, and the nested future is dropped with its branches. The step
      raises no panic, keeps the tree well-formed, and the live set ends as it
      began: nothing of the cancelled future is left behind. */
  lemma SelectCancelCleansUp(c: TraceContext, spanA: string, spanB: string, nested: seq<string>)
    requires Wf(c)
    ensures SelectCancel(c, spanA, spanB, nested).Done? && SelectCancel(c, spanA, spanB, nested).value.Some?
    ensures Wf(SelectCancel(c, spanA, spanB, nested).value.value)
    ensures SelectCancel(c, spanA, spanB, nested).value.value.current == c.current
    ensures LiveSet(SelectCancel(c, spanA, spanB, nested).value.value) == LiveSet(c)
  {
    PendingPair(c, spanA, spanB, nested);
    var a1 := Poll(Initial(spanA), Some(c), Leaf(false));
    var b1 := Poll(Initial(spanB), a1.value.ambient, JoinPending(nested));
    assert forall m :: m in LiveSet(c) ==> m < |c.arena|;
    ReadyThenDrop(c, b1.value.ambient.value, |c.arena|, |nested|, a1.value.state, b1.value.ambient, b1.value.state);
    assert SelectCancel(c, spanA, spanB, nested)
        == FinishThenCancel(a1.value.state, b1.value.ambient, b1.value.state, |nested|);
  }

  /** The second half of the cancel step: the leaf (state `leaf`, node `nA`),
      pending under the cursor, completes, and the pending nested future (state
      `loser`), whose node and branches are the ids after `nA`, is dropped with
      them. */
  lemma ReadyThenDrop(c: TraceContext, c2: TraceContext, nA: NodeId, k: nat,
                      leaf: TracedState, ambient: Option<TraceContext>, loser: TracedState)
    requires Wf(c2) && IsChild(c2, c.current, nA) && c2.arena[nA].children == []
    requires c2.current == c.current && c2.id == c.id && c.current < nA
    requires nA + 2 + k <= |c2.arena|
    requires LiveSet(c2) == LiveSet(c) + {nA} + NewIds(nA + 1, 1 + k)
    requires forall m :: m in LiveSet(c) ==> m < nA
    requires leaf == Polled(nA, c.id) && ambient == Some(c2) && loser == Polled(nA + 1, c.id)
    ensures Poll(leaf, ambient, Leaf(true)).Done? && Poll(leaf, ambient, Leaf(true)).value.ready
    ensures FinishThenCancel(leaf, ambient, loser, k).Done? && FinishThenCancel(leaf, ambient, loser, k).value.Some?
    ensures Wf(FinishThenCancel(leaf, ambient, loser, k).value.value)
    ensures FinishThenCancel(leaf, ambient, loser, k).value.value.current == c.current
    ensures LiveSet(FinishThenCancel(leaf, ambient, loser, k).value.value) == LiveSet(c)
  {
    LeafPolledReady(c2, nA);
    var a2 := Poll(leaf, ambient, Leaf(true));
    assert a2 == Poll(Polled(nA, c2.id), Some(c2), Leaf(true));
    var c3 := a2.value.ambient.value;
    DropJoinCleansUp(c3, nA + 1, k, loser, a2.value.ambient);
    var final := DropJoinKeepsWf(c3, nA + 1, k, loser, a2.value.ambient);
    FinishThenCancelDrops(leaf, ambient, loser, k);
    BackOut(LiveSet(c), nA, NewIds(nA + 1, 1 + k));
  }

  /** Once the leaf's poll has returned, `FinishThenCancel` is the drop of the
      loser with the branches it owns, in the context the poll left. */
  lemma FinishThenCancelDrops(leaf: TracedState, ambient: Option<TraceContext>, loser: TracedState, k: nat)
    requires Poll(leaf, ambient, Leaf(true)).Done?
    ensures FinishThenCancel(leaf, ambient, loser, k) == CancelJoin(loser, k, Poll(leaf, ambient, Leaf(true)).value.ambient)
  {}

  /** The tracer's test ends by asserting that only the root is active: in a
      fresh context, the select-and-cancel step with a nested loser raises no
      panic and leaves the root as the only live node. */
  lemma FreshContextSelectCancel(counter: nat, rootSpan: string, spanA: string, spanB: string, nested: seq<string>)
    ensures SelectCancel(New(counter, rootSpan), spanA, spanB, nested).Done?
    ensures SelectCancel(New(counter, rootSpan), spanA, spanB, nested).value.Some?
    ensures LiveSet(SelectCancel(New(counter, rootSpan), spanA, spanB, nested).value.value) == {New(counter, rootSpan).root}
    ensures ActiveNodeCount(SelectCancel(New(counter, rootSpan), spanA, spanB, nested).value.value) == 1
  {
    SelectCancelCleansUp(New(counter, rootSpan), spanA, spanB, nested);
  }
}
