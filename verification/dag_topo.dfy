/** Kahn's topological sort (`Dag::topo`): every node is output at most once,
    an edge's source always comes before its target, and the order covers all
    nodes exactly when the graph is acyclic. */
module DagTopo {
  import opened Common
  import opened DagGraph

  /** A ranking witnessing acyclicity: every edge goes to a higher rank. */
  ghost predicate Ranked(g: Dag, rank: seq<nat>) {
    && |rank| == |g.nodes| && |g.adj| == |g.nodes|
    && forall u, j :: 0 <= u < |g.adj| && 0 <= j < |g.adj[u]| && g.adj[u][j] < |rank| ==>
         rank[u] < rank[g.adj[u][j]]
  }

  ghost predicate Acyclic(g: Dag) {
    exists rank :: Ranked(g, rank)
  }

  /** The number of edges into `v` from nodes below `k` that are not in `done`. */
  function Unproc(g: Dag, v: nat, done: seq<nat>, k: nat): nat
    requires k <= |g.adj|
  {
    if k == 0 then 0
    else Unproc(g, v, done, k - 1) + (if k - 1 in done then 0 else multiset(g.adj[k - 1])[v])
  }

  lemma {:induction false} UnprocAdd(g: Dag, v: nat, done: seq<nat>, u: nat, k: nat)
    requires k <= |g.adj| && u !in done
    ensures Unproc(g, v, done, k) == Unproc(g, v, done + [u], k) + (if u < k then multiset(g.adj[u])[v] else 0)
  {
    if k > 0 {
      UnprocAdd(g, v, done, u, k - 1);
    }
  }

  lemma {:induction false} UnprocZero(g: Dag, v: nat, done: seq<nat>, k: nat)
    requires k <= |g.adj|
    ensures Unproc(g, v, done, k) == 0 <==> forall p :: 0 <= p < k && p !in done ==> v !in g.adj[p]
  {
    if k > 0 {
      UnprocZero(g, v, done, k - 1);
    }
  }

  /** Sum over `u < k` of the number of occurrences of `u` in `s`. */
  function CountBelow(s: seq<nat>, k: nat): nat {
    if k == 0 then 0 else CountBelow(s, k - 1) + multiset(s)[k - 1]
  }

  lemma {:induction false} CountBelowAppend(s: seq<nat>, x: nat, k: nat)
    ensures CountBelow(s + [x], k) == CountBelow(s, k) + (if x < k then 1 else 0)
  {
    if k > 0 {
      CountBelowAppend(s, x, k - 1);
    }
  }

  lemma {:induction false} CountBelowAll(s: seq<nat>, k: nat)
    requires forall j :: 0 <= j < |s| ==> s[j] < k
    ensures CountBelow(s, k) == |s|
    decreases |s|
  {
    if |s| == 0 {
      CountBelowEmpty(s, k);
    } else {
      var init := s[..|s| - 1];
      assert s == init + [s[|s| - 1]];
      CountBelowAll(init, k);
      CountBelowAppend(init, s[|s| - 1], k);
    }
  }

  lemma {:induction false} CountBelowEmpty(s: seq<nat>, k: nat)
    requires |s| == 0
    ensures CountBelow(s, k) == 0
  {
    if k > 0 {
      CountBelowEmpty(s, k - 1);
    }
  }

  lemma {:induction false} UnprocIsCount(g: Dag, v: nat, k: nat)
    requires Consistent(g) && v < |g.nodes| && k <= |g.nodes|
    ensures Unproc(g, v, [], k) == CountBelow(g.rev[v], k)
  {
    if k > 0 {
      UnprocIsCount(g, v, k - 1);
    }
  }

  /** Before anything is processed, the edges into `v` are exactly `rev[v]`. */
  lemma UnprocInitial(g: Dag, v: nat)
    requires Consistent(g) && v < |g.nodes|
    ensures Unproc(g, v, [], |g.nodes|) == |g.rev[v]|
  {
    UnprocIsCount(g, v, |g.nodes|);
    CountBelowAll(g.rev[v], |g.nodes|);
  }

  predicate AllBelow(s: seq<nat>, n: nat) {
    forall i :: 0 <= i < |s| ==> s[i] < n
  }

  /** An edge's source comes before its target. */
  predicate EdgesForward(g: Dag, order: seq<nat>) {
    forall i, k :: 0 <= i < |order| && 0 <= k < |order| && order[i] < |g.adj| && order[k] in g.adj[order[i]] ==> i < k
  }

  lemma {:induction false} NoDupCount(s: seq<nat>, x: nat)
    requires NoDup(s)
    ensures multiset(s)[x] <= 1
    ensures x in s ==> multiset(s)[x] == 1
  {
    if |s| > 0 {
      assert s == [s[0]] + s[1..];
      NoDupCount(s[1..], x);
      if s[0] == x {
        assert x !in s[1..];
      }
    }
  }

  lemma {:induction false} CountBelowBound(s: seq<nat>, k: nat)
    requires NoDup(s)
    ensures CountBelow(s, k) <= k
    ensures CountBelow(s, k) == k ==> forall x :: 0 <= x < k ==> x in s
    ensures (forall x :: 0 <= x < k ==> x in s) ==> CountBelow(s, k) == k
  {
    if k > 0 {
      CountBelowBound(s, k - 1);
      NoDupCount(s, k - 1);
    }
  }

  /** A duplicate-free sequence of ids below `n` has at most `n` elements, and
      exactly `n` only when it contains every id below `n`. */
  lemma Pigeonhole(s: seq<nat>, n: nat)
    requires NoDup(s) && AllBelow(s, n)
    ensures |s| <= n
    ensures |s| == n <==> forall x :: 0 <= x < n ==> x in s
  {
    CountBelowAll(s, n);
    CountBelowBound(s, n);
  }

  /** Every node is in `order` when the graph is ranked and a node is in `order`
      exactly when none of its in-edges comes from outside `order` (the state of
      Kahn's algorithm once the queue is empty). Strong induction on the rank. */
  lemma {:induction false} AllOutput(g: Dag, order: seq<nat>, rank: seq<nat>, w: nat)
    requires Consistent(g) && Ranked(g, rank) && w < |g.nodes|
    requires forall x :: 0 <= x < |g.nodes| ==> (x in order <==> Unproc(g, x, order, |g.nodes|) == 0)
    ensures w in order
    decreases rank[w]
  {
    forall p | 0 <= p < |g.nodes| && w in g.adj[p]
      ensures p in order
    {
      var j :| 0 <= j < |g.adj[p]| && g.adj[p][j] == w;
      AllOutput(g, order, rank, p);
    }
    UnprocZero(g, w, order, |g.nodes|);
  }

  function IndexOf(s: seq<nat>, x: nat): (i: nat)
    requires x in s
    ensures i < |s| && s[i] == x
  {
    if s[0] == x then 0 else 1 + IndexOf(s[1..], x)
  }

  /** A complete order with every edge going forward ranks the graph. */
  lemma OrderRanks(g: Dag, order: seq<nat>)
    requires Consistent(g) && NoDup(order) && AllBelow(order, |g.nodes|) && |order| == |g.nodes|
    requires EdgesForward(g, order)
    ensures Acyclic(g)
  {
    Pigeonhole(order, |g.nodes|);
    var rank := seq(|g.nodes|, u requires 0 <= u < |g.nodes| => IndexOf(order, u));
    forall u, j | 0 <= u < |g.adj| && 0 <= j < |g.adj[u]| && g.adj[u][j] < |rank|
      ensures rank[u] < rank[g.adj[u][j]]
    {
      var i, k := IndexOf(order, u), IndexOf(order, g.adj[u][j]);
      assert order[k] in g.adj[order[i]];
    }
    assert Ranked(g, rank);
  }

  /** The state of Kahn's algorithm between two visits: `indeg[v]` counts the
      edges into `v` from nodes not yet output, the output and the queue hold
      distinct ids, and a node is output or queued exactly when its count is 0. */
  ghost predicate KahnState(g: Dag, order: seq<nat>, q: seq<nat>, indeg: seq<nat>) {
    && Consistent(g) && |indeg| == |g.nodes|
    && (forall v :: 0 <= v < |g.nodes| ==> indeg[v] == Unproc(g, v, order, |g.nodes|))
    && NoDup(order + q) && AllBelow(order + q, |g.nodes|)
    && (forall x :: 0 <= x < |g.nodes| ==> (x in order || x in q <==> indeg[x] == 0))
  }

  /** `Dag::topo`: Kahn's algorithm with a FIFO queue seeded, in id order, with
      the nodes of in-degree zero. */
  method Topo(g: Dag) returns (order: seq<nat>)
    requires Consistent(g)
    ensures NoDup(order) && AllBelow(order, |g.nodes|)
    ensures EdgesForward(g, order)
    ensures |order| == |g.nodes| <==> Acyclic(g)
  {
    var n := |g.nodes|;
    var indeg: seq<nat> := seq(n, v requires 0 <= v < n => |g.rev[v]|);
    forall v | 0 <= v < n ensures indeg[v] == Unproc(g, v, [], n) {
      UnprocInitial(g, v);
    }
    var q: seq<nat> := [];
    var w := 0;
    while w < n
      invariant 0 <= w <= n
      invariant NoDup(q) && AllBelow(q, w)
      invariant forall x :: 0 <= x < n ==> (x in q <==> x < w && indeg[x] == 0)
    {
      if indeg[w] == 0 {
        q := q + [w];
      }
      w := w + 1;
    }
    order := [];
    assert order + q == q;
    while |q| > 0
      invariant KahnState(g, order, q, indeg)
      invariant EdgesForward(g, order)
      decreases n - |order|
    {
      Pigeonhole(order + q, n);
      var u := q[0];
      VisitStep(g, order, q, indeg);
      order := order + [u];
      indeg, q := Relax(g, order, u, indeg, q[1..]);
    }
    assert order + q == order;
    if |order| == n {
      OrderRanks(g, order);
    }
    if Acyclic(g) {
      var rank :| Ranked(g, rank);
      forall x | 0 <= x < n ensures x in order {
        AllOutput(g, order, rank, x);
      }
      Pigeonhole(order, n);
    }
  }

  /** Popping `u` off the queue and outputting it keeps every edge forward and
      leaves, for each node, the in-edges of `u` still to be subtracted. */
  lemma VisitStep(g: Dag, order: seq<nat>, q: seq<nat>, indeg: seq<nat>)
    requires KahnState(g, order, q, indeg) && EdgesForward(g, order) && |q| > 0
    ensures var u := q[0];
      && u < |g.nodes| && u !in order
      && EdgesForward(g, order + [u])
      && NoDup(order + [u] + q[1..]) && AllBelow(order + [u] + q[1..], |g.nodes|)
      && (forall x :: 0 <= x < |g.nodes| ==> (x in order + [u] || x in q[1..] <==> indeg[x] == 0))
      && (forall v :: 0 <= v < |g.nodes| ==>
            indeg[v] == Unproc(g, v, order + [u], |g.nodes|) + multiset(g.adj[u])[v])
  {
    var n := |g.nodes|;
    var u := q[0];
    assert (order + q)[|order|] == u;
    assert forall i :: 0 <= i < |order| ==> (order + q)[i] == order[i];
    assert order + q == order + ([u] + q[1..]);
    NoDupSplit(order, [u] + q[1..]);
    assert order + [u] + q[1..] == order + q;
    forall v | 0 <= v < n
      ensures indeg[v] == Unproc(g, v, order + [u], n) + multiset(g.adj[u])[v]
    {
      UnprocAdd(g, v, order, u, n);
    }
    VisitKeepsForward(g, order, u);
  }

  /** What the inner loop of `topo` keeps: each count still includes the
      edges of `rest`, the out-edges of the visited node not yet subtracted. */
  ghost predicate RelaxInv(g: Dag, order: seq<nat>, rest: seq<nat>, indeg: seq<nat>, q: seq<nat>) {
    && Consistent(g) && |indeg| == |g.nodes| && AllBelow(rest, |g.nodes|)
    && (forall v :: 0 <= v < |g.nodes| ==> indeg[v] == Unproc(g, v, order, |g.nodes|) + multiset(rest)[v])
    && NoDup(order + q) && AllBelow(order + q, |g.nodes|)
    && (forall x :: 0 <= x < |g.nodes| ==> (x in order || x in q <==> indeg[x] == 0))
  }

  /** Subtracting the edge to `rest[0]`, and queueing its target when its
      count reaches 0, keeps `RelaxInv` for the rest of the edges. */
  lemma RelaxStep(g: Dag, order: seq<nat>, rest: seq<nat>, indeg: seq<nat>, q: seq<nat>)
    requires RelaxInv(g, order, rest, indeg, q) && |rest| > 0
    ensures rest[0] < |indeg| && indeg[rest[0]] > 0
    ensures var v := rest[0];
      var indeg' := indeg[v := indeg[v] - 1];
      RelaxInv(g, order, rest[1..], indeg', if indeg'[v] == 0 then q + [v] else q)
  {
    var n := |g.nodes|;
    var v := rest[0];
    var indeg' := indeg[v := indeg[v] - 1];
    var q' := if indeg'[v] == 0 then q + [v] else q;
    assert multiset(rest) == multiset{v} + multiset(rest[1..]) by {
      assert rest == [v] + rest[1..];
    }
    assert AllBelow(rest[1..], n) by {
      assert forall i :: 0 <= i < |rest[1..]| ==> rest[1..][i] == rest[i + 1];
    }
    assert forall w :: 0 <= w < n ==> indeg'[w] == Unproc(g, w, order, n) + multiset(rest[1..])[w];
    if indeg'[v] == 0 {
      assert v !in order + q;
      QueuePush(order, q, v, n);
    }
    assert forall x :: 0 <= x < n ==> (x in order || x in q' <==> indeg'[x] == 0);
  }

  lemma QueuePush(order: seq<nat>, q: seq<nat>, v: nat, n: nat)
    requires NoDup(order + q) && AllBelow(order + q, n) && v < n && v !in order + q
    ensures NoDup(order + (q + [v])) && AllBelow(order + (q + [v]), n)
  {
    assert order + (q + [v]) == (order + q) + [v];
  }

  /** The inner loop of `topo`: subtract each out-edge of `u` from its target's
      count, queueing the targets whose count reaches 0. */
  method Relax(g: Dag, order: seq<nat>, u: nat, indeg0: seq<nat>, q0: seq<nat>) returns (indeg: seq<nat>, q: seq<nat>)
    requires Consistent(g) && u < |g.nodes| && |indeg0| == |g.nodes|
    requires forall v :: 0 <= v < |g.nodes| ==> indeg0[v] == Unproc(g, v, order, |g.nodes|) + multiset(g.adj[u])[v]
    requires NoDup(order + q0) && AllBelow(order + q0, |g.nodes|)
    requires forall x :: 0 <= x < |g.nodes| ==> (x in order || x in q0 <==> indeg0[x] == 0)
    ensures KahnState(g, order, q, indeg)
    ensures q0 <= q
  {
    indeg, q := indeg0, q0;
    assert g.adj[u][0..] == g.adj[u];
    var j := 0;
    while j < |g.adj[u]|
      invariant 0 <= j <= |g.adj[u]| && q0 <= q
      invariant RelaxInv(g, order, g.adj[u][j..], indeg, q)
    {
      var v := g.adj[u][j];
      RelaxStep(g, order, g.adj[u][j..], indeg, q);
      assert g.adj[u][j..][1..] == g.adj[u][j + 1..];
      indeg := indeg[v := indeg[v] - 1];
      if indeg[v] == 0 {
        q := q + [v];
      }
      j := j + 1;
    }
    assert multiset(g.adj[u][j..]) == multiset{};
  }

  /** Appending `u`, whose in-edges all come from `before`, keeps every edge
      going forward. */
  lemma VisitKeepsForward(g: Dag, before: seq<nat>, u: nat)
    requires Consistent(g) && u < |g.nodes| && u !in before && AllBelow(before, |g.nodes|)
    requires EdgesForward(g, before)
    requires Unproc(g, u, before, |g.nodes|) == 0
    requires forall x :: x in before ==> Unproc(g, x, before, |g.nodes|) == 0
    ensures EdgesForward(g, before + [u])
  {
    var order := before + [u];
    forall k | 0 <= k < |order|
      ensures order[k] !in g.adj[u]
    {
      UnprocZero(g, order[k], before, |g.nodes|);
    }
  }

  lemma NoDupSplit<T>(a: seq<T>, b: seq<T>)
    requires NoDup(a + b)
    ensures NoDup(a) && NoDup(b)
    ensures forall x :: x in a ==> x !in b
  {
    assert forall i :: 0 <= i < |a| ==> (a + b)[i] == a[i];
    assert forall j :: 0 <= j < |b| ==> (a + b)[|a| + j] == b[j];
  }
}
