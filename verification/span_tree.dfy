/** The span tree behind the stack tracer: an arena of span nodes addressed by
    integer ids, with a `current` cursor and the five cursor operations
    (`push`, `step_in`, `pop`, `step_out`, `remove_and_detach`). */
module SpanTree {
  import opened Common

  type NodeId = nat
  type ContextId = nat

  /** One arena slot. A removed slot stays in the arena (as in the arena
      library) but has no parent and no children. */
  datatype Node = Node(span: string, parent: Option<NodeId>, children: seq<NodeId>, removed: bool)

  /** The arena is a vector of slots: a node id is an index, and a new node
      always gets the id `|arena|`. */
  datatype TraceContext = TraceContext(
    id: ContextId,
    arena: seq<Node>,
    root: NodeId,
    current: NodeId)

  /** The process-wide context-id counter is a `u64` that wraps on overflow. */
  const IdModulus: nat := 0x1_0000_0000_0000_0000

  predicate Live(c: TraceContext, n: NodeId) {
    n < |c.arena| && !c.arena[n].removed
  }

  function LiveSet(c: TraceContext): set<NodeId> {
    set n | 0 <= n < |c.arena| && !c.arena[n].removed
  }

  /** `active_node_count`: the number of slots that are not removed. */
  function ActiveNodeCount(c: TraceContext): nat {
    |LiveSet(c)|
  }

  predicate IsChild(c: TraceContext, p: NodeId, n: NodeId) {
    p < |c.arena| && n in c.arena[p].children
  }

  /** Structural well-formedness of the arena: parent and child links agree,
      removed slots are unlinked, children lists have no duplicates, and the
      root and the cursor are valid ids, the cursor a live one, and no node is its
      own parent. */
  ghost predicate Wf(c: TraceContext) {
    && c.root < |c.arena|
    && Live(c, c.current)
    && RemovedUnlinked(c)
    && ParentLinks(c)
    && ChildLinks(c)
    && ChildrenNoDup(c)
  }

  ghost predicate RemovedUnlinked(c: TraceContext) {
    forall n :: 0 <= n < |c.arena| && c.arena[n].removed ==>
      c.arena[n].parent.None? && c.arena[n].children == []
  }

  /** Every parent link points at a live node other than the child itself, and
      that node lists the child. */
  ghost predicate ParentLinks(c: TraceContext) {
    forall n :: 0 <= n < |c.arena| && c.arena[n].parent.Some? ==>
      && c.arena[n].parent.value != n
      && Live(c, c.arena[n].parent.value)
      && n in c.arena[c.arena[n].parent.value].children
  }

  /** Every listed child is a valid id whose parent link points back. */
  ghost predicate ChildLinks(c: TraceContext) {
    forall n, i :: 0 <= n < |c.arena| && 0 <= i < |c.arena[n].children| ==>
      c.arena[n].children[i] < |c.arena| && c.arena[c.arena[n].children[i]].parent == Some(n)
  }

  ghost predicate ChildrenNoDup(c: TraceContext) {
    forall n :: 0 <= n < |c.arena| ==> NoDup(c.arena[n].children)
  }

  lemma ChildIsLive(c: TraceContext, p: NodeId, n: NodeId)
    requires Wf(c) && IsChild(c, p, n)
    ensures Live(c, n) && c.arena[n].parent == Some(p)
  {
    var i :| 0 <= i < |c.arena[p].children| && c.arena[p].children[i] == n;
  }

  // ---------------------------------------------------------------------------
  // Creation
  // ---------------------------------------------------------------------------

  /** `TraceContext::new`: a one-node arena whose root is the cursor; `counter`
      is the value fetched from the global id counter. */
  function New(counter: nat, rootSpan: string): (c: TraceContext)
    ensures Wf(c)
    ensures c.current == c.root && c.id == counter
    ensures LiveSet(c) == {c.root} && ActiveNodeCount(c) == 1
    ensures c.arena[c.root] == Node(rootSpan, None, [], false)
  {
    var c := TraceContext(counter, [Node(rootSpan, None, [], false)], 0, 0);
    assert LiveSet(c) == {0};
    c
  }

  /** Creates one context per span in order; each takes the value of the global
      counter and increments it (`fetch_add(1)` on a `u64`). */
  function NewContexts(counter: nat, spans: seq<string>): (r: seq<TraceContext>)
    requires counter < IdModulus
    ensures |r| == |spans|
    decreases |spans|
  {
    if |spans| == 0 then []
    else [New(counter, spans[0])] + NewContexts((counter + 1) % IdModulus, spans[1..])
  }

  /** Every context created starts as a lone root node carrying its span, with
      the cursor at the root. */
  lemma {:induction false} NewContextsFresh(counter: nat, spans: seq<string>, i: nat)
    requires counter < IdModulus && i < |spans|
    ensures var c := NewContexts(counter, spans)[i];
      && LiveSet(c) == {c.root} && c.current == c.root && c.arena[c.root].span == spans[i]
    decreases i
  {
    if i > 0 {
      NewContextsFresh((counter + 1) % IdModulus, spans[1..], i - 1);
    }
  }

  lemma {:induction false} NewContextsIds(counter: nat, spans: seq<string>, i: nat)
    requires counter < IdModulus && i < |spans|
    ensures NewContexts(counter, spans)[i].id == (counter + i) % IdModulus
    decreases i
  {
    if i > 0 {
      var next := (counter + 1) % IdModulus;
      NewContextsIds(next, spans[1..], i - 1);
      if counter + 1 < IdModulus {
        assert next == counter + 1;
      } else {
        assert next == 0;
        assert (i - 1) % IdModulus == (counter + i) % IdModulus;
      }
    }
  }

  /** Contexts created one after another get pairwise distinct ids as long as
      fewer than 2^64 of them are created. */
  lemma ContextIdsDistinct(counter: nat, spans: seq<string>, i: nat, j: nat)
    requires counter < IdModulus && |spans| <= IdModulus
    requires i < j < |spans|
    ensures NewContexts(counter, spans)[i].id != NewContexts(counter, spans)[j].id
  {
    NewContextsIds(counter, spans, i);
    NewContextsIds(counter, spans, j);
    var a, b := counter + i, counter + j;
    if b < IdModulus {
      assert a % IdModulus == a && b % IdModulus == b;
    } else if a < IdModulus {
      assert a % IdModulus == a && b % IdModulus == b - IdModulus;
    } else {
      assert a % IdModulus == a - IdModulus && b % IdModulus == b - IdModulus;
    }
  }

  // ---------------------------------------------------------------------------
  // Arena primitives (the behaviour the tracer relies on)
  // ---------------------------------------------------------------------------

  function RemoveElem(s: seq<NodeId>, x: NodeId): (r: seq<NodeId>)
    ensures forall y :: y in r <==> y in s && y != x
    ensures NoDup(s) ==> NoDup(r)
  {
    if |s| == 0 then []
    else if s[0] == x then RemoveElem(s[1..], x)
    else
      var rest := RemoveElem(s[1..], x);
      assert NoDup(s) ==> s[0] !in s[1..];
      [s[0]] + rest
  }

  /** `p` lies on the parent chain of `n` (or is `n`), following at most `fuel`
      parent links. */
  predicate AncestorOrSelf(c: TraceContext, p: NodeId, n: NodeId, fuel: nat)
    decreases fuel
  {
    n == p || (fuel > 0 && n < |c.arena| && c.arena[n].parent.Some?
               && AncestorOrSelf(c, p, c.arena[n].parent.value, fuel - 1))
  }

  /** More parent links never lose an ancestor: a bound that suffices for
      some fuel suffices for any larger one. */
  lemma {:induction false} AncestorOrSelfMono(c: TraceContext, p: NodeId, n: NodeId, fuel: nat, more: nat)
    requires fuel <= more && AncestorOrSelf(c, p, n, fuel)
    ensures AncestorOrSelf(c, p, n, more)
    decreases fuel
  {
    if n != p {
      AncestorOrSelfMono(c, p, c.arena[n].parent.value, fuel - 1, more - 1);
    }
  }

  /** Cut `n` from its parent's children list; `n` and its subtree stay in the arena. */
  function Detach(c: TraceContext, n: NodeId): (r: TraceContext)
    requires n < |c.arena|
    ensures r.id == c.id && r.root == c.root && r.current == c.current
    ensures |r.arena| == |c.arena|
    ensures r.arena[n].parent.None? && r.arena[n].span == c.arena[n].span
    ensures r.arena[n].removed == c.arena[n].removed
  {
    match c.arena[n].parent
    case None => c
    case Some(p) =>
      if p < |c.arena| then
        var a := c.arena[p := c.arena[p].(children := RemoveElem(c.arena[p].children, n))];
        c.(arena := a[n := a[n].(parent := None)])
      else
        c.(arena := c.arena[n := c.arena[n].(parent := None)])
  }

  /** The arena's `append`: detach `child`, then make it the last child of
      `parent`. The arena panics if the two are equal, if either is removed, or if
      `child` is an ancestor of `parent`. */
  function Append(c: TraceContext, parent: NodeId, child: NodeId): (r: Outcome<TraceContext>)
    ensures r.Done? <==>
      parent != child && Live(c, parent) && Live(c, child) && !AncestorOrSelf(c, child, parent, |c.arena|)
  {
    if parent == child then Panic("Preconditions not met: invalid argument (append self)")
    else if !Live(c, parent) || !Live(c, child) then Panic("Preconditions not met: invalid argument (removed)")
    else if AncestorOrSelf(c, child, parent, |c.arena|) then Panic("Preconditions not met: invalid argument (append ancestor)")
    else
      var d := Detach(c, child);
      var a := d.arena[parent := d.arena[parent].(children := d.arena[parent].children + [child])];
      Done(d.(arena := a[child := a[child].(parent := Some(parent))]))
  }

  /** The arena's `remove` of a node that has no parent or no children: the slot
      is marked removed and unlinked, and its children become parentless. (When a
      removed node has both, the arena splices its children into the parent; the
      tracer only removes leaves or detached nodes, so that case is not needed.) */
  function Remove(c: TraceContext, n: NodeId): (r: TraceContext)
    requires n < |c.arena|
    requires c.arena[n].parent.None? || c.arena[n].children == []
    ensures |r.arena| == |c.arena| && r.id == c.id && r.root == c.root && r.current == c.current
  {
    var node := c.arena[n];
    var a := seq(|c.arena|, m requires 0 <= m < |c.arena| =>
      if m == n then Node(node.span, None, [], true)
      else if m in node.children then c.arena[m].(parent := None)
      else if node.parent == Some(m) then c.arena[m].(children := RemoveElem(c.arena[m].children, n))
      else c.arena[m]);
    c.(arena := a)
  }

  /** What `remove` does to each slot: the node becomes a removed, unlinked
      slot, its children lose their parent, its parent loses it as a child, and
      every other slot is untouched. */
  lemma RemoveFacts(c: TraceContext, n: NodeId)
    requires n < |c.arena|
    requires c.arena[n].parent.None? || c.arena[n].children == []
    ensures Remove(c, n).arena[n] == Node(c.arena[n].span, None, [], true)
    ensures forall m :: 0 <= m < |c.arena| && m != n && m in c.arena[n].children ==>
      Remove(c, n).arena[m] == c.arena[m].(parent := None)
    ensures c.arena[n].parent.Some? && c.arena[n].parent.value < |c.arena| && c.arena[n].parent.value != n ==>
      var p := c.arena[n].parent.value;
      Remove(c, n).arena[p] == c.arena[p].(children := RemoveElem(c.arena[p].children, n))
    ensures forall m :: 0 <= m < |c.arena| && m != n && m !in c.arena[n].children && c.arena[n].parent != Some(m) ==>
      Remove(c, n).arena[m] == c.arena[m]
  {
  }

  // ---------------------------------------------------------------------------
  // The five cursor operations
  // ---------------------------------------------------------------------------

  /** `push`: a fresh node becomes the last child of the cursor and the new
      cursor; it is returned. Nothing else changes. */
  function Push(c: TraceContext, span: string): (r: Outcome<(TraceContext, NodeId)>)
    ensures r.Panic? <==> !Live(c, c.current)
    ensures r.Done? ==>
      var d := r.value.0;
      var child := r.value.1;
      && child == |c.arena| && |d.arena| == |c.arena| + 1
      && d.current == child
      && d.id == c.id && d.root == c.root
      && d.arena[child] == Node(span, Some(c.current), [], false)
      && d.arena[c.current] == c.arena[c.current].(children := c.arena[c.current].children + [child])
      && (forall m :: 0 <= m < |c.arena| && m != c.current ==> d.arena[m] == c.arena[m])
  {
    if !Live(c, c.current) then Outcome<(TraceContext, NodeId)>.Panic("Preconditions not met: invalid argument (removed)")
    else
      var child: NodeId := |c.arena|;
      var cur := c.arena[c.current];
      var a := c.arena[c.current := cur.(children := cur.children + [child])] + [Node(span, Some(c.current), [], false)];
      Done((c.(arena := a, current := child), child))
  }

  /** `step_in`: make `child` the cursor, first moving it under the cursor unless
      it already is one of the cursor's children. */
  function StepIn(c: TraceContext, child: NodeId): (r: Outcome<TraceContext>)
    ensures IsChild(c, c.current, child) ==> r == Done(c.(current := child))
    ensures r.Done? ==>
      && r.value.current == child && r.value.id == c.id
      && r.value.root == c.root && |r.value.arena| == |c.arena|
  {
    if c.current >= |c.arena| then Panic("node id out of range")
    else if child in c.arena[c.current].children then Done(c.(current := child))
    else
      match Append(c, c.current, child)
      case Panic(m) => Panic(m)
      case Done(d) => Done(d.(current := child))
  }

  /** `pop`: the cursor must have no children and must have a parent; it is
      removed and its parent becomes the cursor. */
  function Pop(c: TraceContext): (r: Outcome<TraceContext>)
    ensures r.Done? <==>
      c.current < |c.arena| && c.arena[c.current].children == [] && c.arena[c.current].parent.Some?
    ensures r.Done? ==>
      && r.value.current == c.arena[c.current].parent.value
      && |r.value.arena| == |c.arena|
      && r.value.arena[c.current] == Node(c.arena[c.current].span, None, [], true)
      && r.value.id == c.id && r.value.root == c.root
  {
    if c.current >= |c.arena| then Panic("node id out of range")
    else if c.arena[c.current].children != [] then Panic("assertion failed: current has children")
    else if c.arena[c.current].parent.None? then Panic("the root node should not be popped")
    else
      var parent := c.arena[c.current].parent.value;
      Done(Remove(c, c.current).(current := parent))
  }

  /** `step_out`: only the cursor moves, to its parent. */
  function StepOut(c: TraceContext): (r: Outcome<TraceContext>)
    ensures r.Done? <==> c.current < |c.arena| && c.arena[c.current].parent.Some?
    ensures r.Done? ==> r.value == c.(current := c.arena[c.current].parent.value)
  {
    if c.current >= |c.arena| then Panic("node id out of range")
    else if c.arena[c.current].parent.None? then Panic("the root node should not be stepped out")
    else Done(c.(current := c.arena[c.current].parent.value))
  }

  /** `remove_and_detach`: detach `n`, then remove it; its children stay live but
      are left without a parent. Used when a traced future is dropped. */
  function RemoveAndDetach(c: TraceContext, n: NodeId): (r: Outcome<TraceContext>)
    ensures r.Done? <==> n < |c.arena|
    ensures r.Done? ==>
      && |r.value.arena| == |c.arena|
      && r.value.arena[n] == Node(c.arena[n].span, None, [], true)
      && r.value.current == c.current && r.value.id == c.id && r.value.root == c.root
  {
    if n >= |c.arena| then Panic("node id out of range")
    else Done(Remove(Detach(c, n), n))
  }
}
