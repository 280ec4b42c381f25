/** The tree invariant `SpanTree.Wf` is kept by every cursor operation whose
    own assertions pass, and each operation changes the set of live nodes exactly
    as the tracer expects. */
module SpanTreeWf {
  import opened Common
  import opened SpanTree

  /** `push` never panics on a well-formed tree, keeps it well-formed and adds
      exactly one live node. */
  lemma PushKeepsWf(c: TraceContext, span: string)
    requires Wf(c)
    ensures Push(c, span).Done?
    ensures var d := Push(c, span).value.0;
      && Wf(d)
      && LiveSet(d) == LiveSet(c) + {|c.arena|}
      && |c.arena| !in LiveSet(c)
      && ActiveNodeCount(d) == ActiveNodeCount(c) + 1
  {
    var d := Push(c, span).value.0;
    assert PushShape(c, d, span);
    PushParentLinks(c, d, span);
    PushChildLinks(c, d, span);
    PushNoDup(c, d, span);
    assert LiveSet(d) == LiveSet(c) + {|c.arena|};
  }

  /** The arena after `push`: a new live leaf under the cursor, appended to the
      cursor's children; nothing else changes. */
  ghost predicate PushShape(c: TraceContext, d: TraceContext, span: string) {
    && |d.arena| == |c.arena| + 1
    && c.current < |c.arena|
    && forall m :: 0 <= m < |d.arena| ==>
         d.arena[m] == (if m == |c.arena| then Node(span, Some(c.current), [], false)
                        else if m == c.current then c.arena[m].(children := c.arena[m].children + [|c.arena|])
                        else c.arena[m])
  }

  lemma PushParentLinks(c: TraceContext, d: TraceContext, span: string)
    requires Wf(c) && PushShape(c, d, span)
    ensures ParentLinks(d)
  {
    forall m | 0 <= m < |d.arena| && d.arena[m].parent.Some?
      ensures d.arena[m].parent.value != m
      ensures Live(d, d.arena[m].parent.value) && m in d.arena[d.arena[m].parent.value].children
    {
      if m != |c.arena| {
        var q := c.arena[m].parent.value;
        assert m in c.arena[q].children;
      }
    }
  }

  lemma PushChildLinks(c: TraceContext, d: TraceContext, span: string)
    requires Wf(c) && PushShape(c, d, span)
    ensures ChildLinks(d)
  {
    forall n, i | 0 <= n < |d.arena| && 0 <= i < |d.arena[n].children|
      ensures d.arena[n].children[i] < |d.arena| && d.arena[d.arena[n].children[i]].parent == Some(n)
    {
      if n == c.current && i == |c.arena[n].children| {
        assert d.arena[n].children[i] == |c.arena|;
      } else {
        assert d.arena[n].children[i] == c.arena[n].children[i];
      }
    }
  }

  lemma PushNoDup(c: TraceContext, d: TraceContext, span: string)
    requires Wf(c) && PushShape(c, d, span)
    ensures ChildrenNoDup(d) && RemovedUnlinked(d)
  {
    forall n | 0 <= n < |d.arena|
      ensures NoDup(d.arena[n].children)
    {
      if n == c.current {
        forall i | 0 <= i < |c.arena[n].children|
          ensures c.arena[n].children[i] != |c.arena|
        {}
      }
    }
  }

  /** `step_in` panics exactly when the node is not already a child of the
      cursor and cannot be appended to it (it is the cursor, it is removed, or it
      is an ancestor of the cursor). */
  lemma StepInPanics(c: TraceContext, child: NodeId)
    requires Wf(c)
    ensures StepIn(c, child).Panic? <==>
      !IsChild(c, c.current, child)
      && (child == c.current || !Live(c, child) || AncestorOrSelf(c, child, c.current, |c.arena|))
  {
  }

  /** Where `step_in` succeeds, the node ends up a child of the former cursor
      and of no other node (it is moved, not duplicated), it becomes the cursor,
      and the live set is unchanged. */
  lemma StepInKeepsWf(c: TraceContext, child: NodeId)
    requires Wf(c) && StepIn(c, child).Done?
    ensures var d := StepIn(c, child).value;
      && Wf(d)
      && d.current == child
      && LiveSet(d) == LiveSet(c)
      && d.arena[child].parent == Some(c.current)
      && (forall p :: 0 <= p < |d.arena| ==> (IsChild(d, p, child) <==> p == c.current))
      && d.arena[child].children == c.arena[child].children
  {
    if IsChild(c, c.current, child) {
      StepIntoChild(c, child);
    } else {
      AppendKeepsWf(c, c.current, child);
    }
  }

  /** Stepping into an existing child only moves the cursor. */
  lemma StepIntoChild(c: TraceContext, child: NodeId)
    requires Wf(c) && IsChild(c, c.current, child)
    ensures StepIn(c, child) == Done(c.(current := child))
    ensures Live(c, child) && c.arena[child].parent == Some(c.current)
    ensures forall p :: 0 <= p < |c.arena| ==> (IsChild(c, p, child) <==> p == c.current)
  {
    ChildIsLive(c, c.current, child);
    forall p | 0 <= p < |c.arena| && IsChild(c, p, child)
      ensures p == c.current
    {
      ChildIsLive(c, p, child);
    }
  }

  lemma AppendKeepsWf(c: TraceContext, parent: NodeId, child: NodeId)
    requires Wf(c) && Live(c, parent) && !IsChild(c, parent, child)
    requires Append(c, parent, child).Done?
    ensures var d := Append(c, parent, child).value;
      && Wf(d.(current := child))
      && LiveSet(d) == LiveSet(c)
      && d.arena[child].parent == Some(parent)
      && (forall p :: 0 <= p < |d.arena| ==> (IsChild(d, p, child) <==> p == parent))
      && d.arena[child].children == c.arena[child].children
  {
    var e := Detach(c, child);
    DetachFacts(c, child);
    var d := Append(c, parent, child).value;
    AppendPointwise(c, parent, child);
    AppendParentLinks(c, e, d, parent, child);
    assert RemovedUnlinked(d);
    AppendChildLinks(c, e, d, parent, child);
    forall n | 0 <= n < |d.arena|
      ensures NoDup(d.arena[n].children)
    {
      if n == parent {
        assert child !in e.arena[parent].children;
      }
    }
    forall p | 0 <= p < |d.arena| && IsChild(d, p, child)
      ensures p == parent
    {
    }
    assert LiveSet(d) == LiveSet(c);
  }

  /** The arena after `append`: relative to the detached arena `e`, only the
      child's parent link and the new parent's children list change. */
  ghost predicate AppendShape(e: TraceContext, d: TraceContext, parent: NodeId, child: NodeId) {
    && |d.arena| == |e.arena|
    && forall m :: 0 <= m < |d.arena| ==>
         d.arena[m] == (if m == child then e.arena[m].(parent := Some(parent))
                        else if m == parent then e.arena[m].(children := e.arena[m].children + [child])
                        else e.arena[m])
  }

  lemma AppendPointwise(c: TraceContext, parent: NodeId, child: NodeId)
    requires Wf(c) && Append(c, parent, child).Done?
    ensures child < |c.arena| && AppendShape(Detach(c, child), Append(c, parent, child).value, parent, child)
  {
  }

  lemma AppendParentLinks(c: TraceContext, e: TraceContext, d: TraceContext, parent: NodeId, child: NodeId)
    requires Wf(c) && Live(c, parent) && child < |c.arena| && parent != child
    requires e == Detach(c, child) && AppendShape(e, d, parent, child)
    requires forall m :: 0 <= m < |c.arena| ==> e.arena[m].removed == c.arena[m].removed
    requires forall m :: 0 <= m < |c.arena| && m != child ==> e.arena[m].parent == c.arena[m].parent
    requires forall m :: 0 <= m < |c.arena| && Some(m) != c.arena[child].parent ==> e.arena[m].children == c.arena[m].children
    requires forall m :: 0 <= m < |c.arena| && Some(m) == c.arena[child].parent ==>
               e.arena[m].children == RemoveElem(c.arena[m].children, child)
    ensures ParentLinks(d)
  {
    forall n | 0 <= n < |d.arena| && d.arena[n].parent.Some?
      ensures d.arena[n].parent.value != n
      ensures Live(d, d.arena[n].parent.value) && n in d.arena[d.arena[n].parent.value].children
    {
      if n != child {
        var q := c.arena[n].parent.value;
        assert d.arena[n].parent == e.arena[n].parent == c.arena[n].parent;
        assert n in c.arena[q].children;
        assert n in e.arena[q].children;
        assert e.arena[q].children <= d.arena[q].children;
      } else {
        assert d.arena[parent].children == e.arena[parent].children + [child];
      }
    }
  }

  lemma AppendChildLinks(c: TraceContext, e: TraceContext, d: TraceContext, parent: NodeId, child: NodeId)
    requires Wf(c) && Live(c, parent) && child < |c.arena| && parent != child
    requires e == Detach(c, child) && AppendShape(e, d, parent, child)
    requires forall m :: 0 <= m < |c.arena| && m != child ==> e.arena[m].parent == c.arena[m].parent
    requires forall m :: 0 <= m < |c.arena| && Some(m) != c.arena[child].parent ==> e.arena[m].children == c.arena[m].children
    requires forall m :: 0 <= m < |c.arena| && Some(m) == c.arena[child].parent ==>
               e.arena[m].children == RemoveElem(c.arena[m].children, child)
    requires forall m :: 0 <= m < |c.arena| ==> child !in e.arena[m].children
    ensures ChildLinks(d)
  {
    forall n, i | 0 <= n < |d.arena| && 0 <= i < |d.arena[n].children|
      ensures d.arena[n].children[i] < |d.arena| && d.arena[d.arena[n].children[i]].parent == Some(n)
    {
      if n == parent && i == |e.arena[n].children| {
        assert d.arena[n].children[i] == child;
      } else {
        var k := e.arena[n].children[i];
        assert d.arena[n].children[i] == k;
        assert k != child;
        assert k in c.arena[n].children;
        ChildIsLive(c, n, k);
      }
    }
  }

  /** What detaching a node of a well-formed tree does: the node loses its
      parent link, the former parent loses the child, nothing else changes. */
  lemma DetachFacts(c: TraceContext, n: NodeId)
    requires Wf(c) && n < |c.arena|
    ensures var e := Detach(c, n);
      && e.arena[n] == c.arena[n].(parent := None)
      && (forall m :: 0 <= m < |c.arena| ==> e.arena[m].removed == c.arena[m].removed)
      && (forall m :: 0 <= m < |c.arena| && m != n ==> e.arena[m].parent == c.arena[m].parent)
      && (forall m :: 0 <= m < |c.arena| && Some(m) != c.arena[n].parent ==> e.arena[m].children == c.arena[m].children)
      && (forall m :: 0 <= m < |c.arena| && Some(m) == c.arena[n].parent ==>
            e.arena[m].children == RemoveElem(c.arena[m].children, n))
      && (forall m :: 0 <= m < |c.arena| ==> n !in e.arena[m].children)
      && (forall m :: 0 <= m < |c.arena| ==> NoDup(e.arena[m].children))
  {
    DetachPointwise(c, n);
    DetachUnlinks(c, n);
  }

  /** After detaching, no node lists `n`, and no children list has a duplicate. */
  lemma DetachUnlinks(c: TraceContext, n: NodeId)
    requires Wf(c) && n < |c.arena|
    ensures var e := Detach(c, n);
      && (forall m :: 0 <= m < |c.arena| ==> n !in e.arena[m].children)
      && (forall m :: 0 <= m < |c.arena| ==> NoDup(e.arena[m].children))
  {
    var e := Detach(c, n);
    DetachPointwise(c, n);
    forall m | 0 <= m < |c.arena|
      ensures n !in e.arena[m].children
    {
      if n in c.arena[m].children {
        ChildIsLive(c, m, n);
      }
    }
  }

  lemma DetachPointwise(c: TraceContext, n: NodeId)
    requires n < |c.arena|
    ensures var e := Detach(c, n);
      forall m :: 0 <= m < |c.arena| ==>
        e.arena[m] == (if m == n && Some(m) == c.arena[n].parent
                         then c.arena[m].(parent := None, children := RemoveElem(c.arena[m].children, n))
                       else if m == n then c.arena[m].(parent := None)
                       else if Some(m) == c.arena[n].parent then c.arena[m].(children := RemoveElem(c.arena[m].children, n))
                       else c.arena[m])
  {
  }

  /** `pop` on a well-formed tree keeps it well-formed, removes exactly the old
      cursor from the live set and unlinks it from its parent. */
  lemma PopKeepsWf(c: TraceContext)
    requires Wf(c) && Pop(c).Done?
    ensures var d := Pop(c).value;
      && Wf(d)
      && LiveSet(d) == LiveSet(c) - {c.current}
      && c.current in LiveSet(c)
      && ActiveNodeCount(d) == ActiveNodeCount(c) - 1
      && !IsChild(d, d.current, c.current)
  {
    var d := Pop(c).value;
    var n := c.current;
    var p := c.arena[n].parent.value;
    assert p != n;
    forall m | 0 <= m < |d.arena|
      ensures d.arena[m] == (if m == n then Node(c.arena[n].span, None, [], true)
                             else if m == p then c.arena[m].(children := RemoveElem(c.arena[m].children, n))
                             else c.arena[m])
    {}
    PopChildLinks(c, d, n, p);
    PopParentLinks(c, d, n, p);
    assert LiveSet(d) == LiveSet(c) - {n};
  }

  /** The arena after `pop` of the leaf `n` under `p`: `n` is removed and
      unlinked, `p` loses it from its children; nothing else changes. */
  ghost predicate PopShape(c: TraceContext, d: TraceContext, n: NodeId, p: NodeId) {
    && |d.arena| == |c.arena|
    && n < |c.arena| && c.arena[n].parent == Some(p) && c.arena[n].children == []
    && forall m :: 0 <= m < |d.arena| ==>
         d.arena[m] == (if m == n then Node(c.arena[n].span, None, [], true)
                        else if m == p then c.arena[m].(children := RemoveElem(c.arena[m].children, n))
                        else c.arena[m])
  }

  lemma PopChildLinks(c: TraceContext, d: TraceContext, n: NodeId, p: NodeId)
    requires Wf(c) && PopShape(c, d, n, p)
    ensures ChildLinks(d)
  {
    forall m, i | 0 <= m < |d.arena| && 0 <= i < |d.arena[m].children|
      ensures d.arena[m].children[i] < |d.arena| && d.arena[d.arena[m].children[i]].parent == Some(m)
    {
      var k := d.arena[m].children[i];
      assert k in c.arena[m].children;
      ChildIsLive(c, m, k);
    }
  }

  lemma PopParentLinks(c: TraceContext, d: TraceContext, n: NodeId, p: NodeId)
    requires Wf(c) && PopShape(c, d, n, p)
    ensures ParentLinks(d)
  {
    forall m | 0 <= m < |d.arena| && d.arena[m].parent.Some?
      ensures d.arena[m].parent.value != m
      ensures Live(d, d.arena[m].parent.value) && m in d.arena[d.arena[m].parent.value].children
    {
      var q := c.arena[m].parent.value;
      assert q != n;
    }
  }

  /** `step_out` keeps the tree and the live set and moves the cursor to a live node. */
  lemma StepOutKeepsWf(c: TraceContext)
    requires Wf(c) && StepOut(c).Done?
    ensures Wf(StepOut(c).value) && LiveSet(StepOut(c).value) == LiveSet(c)
  {
  }

  /** `remove_and_detach` of a node other than the cursor keeps the tree
      well-formed, removes exactly that node from the live set, and leaves each of
      its former children live and parentless. */
  lemma RemoveAndDetachKeepsWf(c: TraceContext, n: NodeId)
    requires Wf(c) && n < |c.arena| && n != c.current
    ensures var d := RemoveAndDetach(c, n).value;
      && Wf(d)
      && LiveSet(d) == LiveSet(c) - {n}
      && (forall k :: k in c.arena[n].children ==> Live(d, k) && d.arena[k].parent.None?)
  {
    var e := Detach(c, n);
    DetachFacts(c, n);
    var d := RemoveAndDetach(c, n).value;
    var kids := c.arena[n].children;
    forall m | 0 <= m < |d.arena|
      ensures d.arena[m] == (if m == n then Node(c.arena[n].span, None, [], true)
                             else if m in kids then e.arena[m].(parent := None)
                             else e.arena[m])
    {}
    RemoveParentLinks(c, e, d, n);
    RemoveChildLinks(c, e, d, n);
    forall k | k in kids
      ensures Live(d, k) && d.arena[k].parent.None?
    {
      ChildIsLive(c, n, k);
    }
    assert LiveSet(d) == LiveSet(c) - {n};
  }

  /** On any arena, well-formed or not, `remove_and_detach` of a valid id takes
      exactly that node out of the live set: detaching changes no `removed` flag. */
  lemma RemoveAndDetachLive(c: TraceContext, n: NodeId)
    requires n < |c.arena|
    ensures LiveSet(RemoveAndDetach(c, n).value) == LiveSet(c) - {n}
  {
    var d := RemoveAndDetach(c, n).value;
    DetachPointwise(c, n);
    forall m | 0 <= m < |c.arena|
      ensures d.arena[m].removed == (m == n || c.arena[m].removed)
    {}
  }

  /** The arena after `remove_and_detach`, relative to the detached arena `e`:
      `n` is removed and emptied and its former children lose their parent. */
  ghost predicate RemoveShape(c: TraceContext, e: TraceContext, d: TraceContext, n: NodeId) {
    && n < |c.arena| && |e.arena| == |c.arena| && |d.arena| == |c.arena|
    && forall m :: 0 <= m < |d.arena| ==>
         d.arena[m] == (if m == n then Node(c.arena[n].span, None, [], true)
                        else if m in c.arena[n].children then e.arena[m].(parent := None)
                        else e.arena[m])
  }

  lemma RemoveParentLinks(c: TraceContext, e: TraceContext, d: TraceContext, n: NodeId)
    requires Wf(c) && n < |c.arena| && e == Detach(c, n) && RemoveShape(c, e, d, n)
    ensures ParentLinks(d)
  {
    DetachFacts(c, n);
    var kids := c.arena[n].children;
    forall m | 0 <= m < |d.arena| && d.arena[m].parent.Some?
      ensures d.arena[m].parent.value != m
      ensures Live(d, d.arena[m].parent.value) && m in d.arena[d.arena[m].parent.value].children
    {
      assert m !in kids && m != n;
      var q := c.arena[m].parent.value;
      assert m in c.arena[q].children;
    }
  }

  lemma RemoveChildLinks(c: TraceContext, e: TraceContext, d: TraceContext, n: NodeId)
    requires Wf(c) && n < |c.arena| && e == Detach(c, n) && RemoveShape(c, e, d, n)
    ensures ChildLinks(d)
  {
    DetachFacts(c, n);
    var kids := c.arena[n].children;
    forall m, i | 0 <= m < |d.arena| && 0 <= i < |d.arena[m].children|
      ensures d.arena[m].children[i] < |d.arena| && d.arena[d.arena[m].children[i]].parent == Some(m)
    {
      var k := d.arena[m].children[i];
      assert k in e.arena[m].children;
      assert m != n;
      assert k in c.arena[m].children;
      ChildIsLive(c, m, k);
      assert k !in kids;
    }
  }
}
