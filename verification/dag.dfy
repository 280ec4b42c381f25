/** The directed acyclic graph of the isomorphism matcher: nodes with a small
    kind tag, forward (`adj`) and reverse (`rev`) adjacency lists built from an
    edge list, degrees, and Kahn's topological order. */
module DagGraph {
  import opened Common

  datatype Node = Node(kind: byte, name: string)

  datatype Dag = Dag(nodes: seq<Node>, adj: seq<seq<nat>>, rev: seq<seq<nat>>)

  type Edge = (nat, nat)

  /** The targets of the edges leaving `u`, in edge-list order. */
  function Targets(edges: seq<Edge>, u: nat): (r: seq<nat>)
    ensures |r| <= |edges|
  {
    if |edges| == 0 then []
    else
      var e := edges[|edges| - 1];
      Targets(edges[..|edges| - 1], u) + (if e.0 == u then [e.1] else [])
  }

  /** The sources of the edges entering `v`, in edge-list order. */
  function Sources(edges: seq<Edge>, v: nat): (r: seq<nat>)
    ensures |r| <= |edges|
  {
    if |edges| == 0 then []
    else
      var e := edges[|edges| - 1];
      Sources(edges[..|edges| - 1], v) + (if e.1 == v then [e.0] else [])
  }

  lemma {:induction false} TargetsCount(edges: seq<Edge>, u: nat, v: nat)
    ensures multiset(Targets(edges, u))[v] == multiset(edges)[(u, v)]
    ensures multiset(Sources(edges, v))[u] == multiset(edges)[(u, v)]
    decreases |edges|
  {
    if |edges| > 0 {
      var init := edges[..|edges| - 1];
      assert edges == init + [edges[|edges| - 1]];
      TargetsCount(init, u, v);
    }
  }

  predicate EdgesInRange(edges: seq<Edge>, n: nat) {
    forall i :: 0 <= i < |edges| ==> edges[i].0 < n && edges[i].1 < n
  }

  /** The adjacency lists agree: `v` occurs in `adj[u]` exactly as often as `u`
      occurs in `rev[v]`, and every listed node exists. */
  ghost predicate Consistent(g: Dag) {
    && |g.adj| == |g.nodes| && |g.rev| == |g.nodes|
    && (forall u, j :: 0 <= u < |g.adj| && 0 <= j < |g.adj[u]| ==> g.adj[u][j] < |g.nodes|)
    && (forall v, j :: 0 <= v < |g.rev| && 0 <= j < |g.rev[v]| ==> g.rev[v][j] < |g.nodes|)
    && (forall u, v :: 0 <= u < |g.nodes| && 0 <= v < |g.nodes| ==> multiset(g.adj[u])[v] == multiset(g.rev[v])[u])
  }

  /** `Dag::new`: pushes each edge's target onto its source's list and its source
      onto its target's list; an endpoint out of range is an index panic. */
  method New(nodes: seq<Node>, edges: seq<Edge>) returns (r: Outcome<Dag>)
    ensures r.Done? <==> EdgesInRange(edges, |nodes|)
    ensures r.Done? ==>
      && r.value.nodes == nodes && Consistent(r.value)
      && (forall u :: 0 <= u < |nodes| ==> r.value.adj[u] == Targets(edges, u))
      && (forall v :: 0 <= v < |nodes| ==> r.value.rev[v] == Sources(edges, v))
  {
    var n := |nodes|;
    var adj: seq<seq<nat>> := seq(n, _ => []);
    var rev: seq<seq<nat>> := seq(n, _ => []);
    var i := 0;
    while i < |edges|
      invariant 0 <= i <= |edges|
      invariant |adj| == n && |rev| == n
      invariant EdgesInRange(edges[..i], n)
      invariant forall u :: 0 <= u < n ==> adj[u] == Targets(edges[..i], u)
      invariant forall v :: 0 <= v < n ==> rev[v] == Sources(edges[..i], v)
    {
      var (u, v) := edges[i];
      if u >= n || v >= n {
        return Panic("index out of bounds");
      }
      assert edges[..i + 1][..i] == edges[..i];
      adj := adj[u := adj[u] + [v]];
      rev := rev[v := rev[v] + [u]];
      i := i + 1;
    }
    assert edges[..i] == edges;
    var g := Dag(nodes, adj, rev);
    forall u, j | 0 <= u < n && 0 <= j < |adj[u]|
      ensures adj[u][j] < n
    {
      TargetsInRange(edges, n, u);
    }
    forall v, j | 0 <= v < n && 0 <= j < |rev[v]|
      ensures rev[v][j] < n
    {
      TargetsInRange(edges, n, v);
    }
    forall u, v | 0 <= u < n && 0 <= v < n
      ensures multiset(adj[u])[v] == multiset(rev[v])[u]
    {
      TargetsCount(edges, u, v);
    }
    return Done(g);
  }

  lemma {:induction false} TargetsInRange(edges: seq<Edge>, n: nat, x: nat)
    requires EdgesInRange(edges, n)
    ensures forall j :: 0 <= j < |Targets(edges, x)| ==> Targets(edges, x)[j] < n
    ensures forall j :: 0 <= j < |Sources(edges, x)| ==> Sources(edges, x)[j] < n
    decreases |edges|
  {
    if |edges| > 0 {
      TargetsInRange(edges[..|edges| - 1], n, x);
    }
  }

  function InDeg(g: Dag, u: nat): nat
    requires u < |g.rev|
  {
    |g.rev[u]|
  }

  function OutDeg(g: Dag, u: nat): nat
    requires u < |g.adj|
  {
    |g.adj[u]|
  }

  /** The sum of `InDeg` (or `OutDeg`) over the nodes below `k`. */
  function SumIn(g: Dag, k: nat): nat
    requires k <= |g.rev|
  {
    if k == 0 then 0 else SumIn(g, k - 1) + InDeg(g, k - 1)
  }

  function SumOut(g: Dag, k: nat): nat
    requires k <= |g.adj|
  {
    if k == 0 then 0 else SumOut(g, k - 1) + OutDeg(g, k - 1)
  }

  /** The number of edges whose source (`Targets`) or target (`Sources`) is
      below `k`. */
  function SumTargets(edges: seq<Edge>, k: nat): nat {
    if k == 0 then 0 else SumTargets(edges, k - 1) + |Targets(edges, k - 1)|
  }

  function SumSources(edges: seq<Edge>, k: nat): nat {
    if k == 0 then 0 else SumSources(edges, k - 1) + |Sources(edges, k - 1)|
  }

  lemma {:induction false} SumTargetsStep(edges: seq<Edge>, e: Edge, k: nat)
    ensures SumTargets(edges + [e], k) == SumTargets(edges, k) + (if e.0 < k then 1 else 0)
    ensures SumSources(edges + [e], k) == SumSources(edges, k) + (if e.1 < k then 1 else 0)
  {
    assert (edges + [e])[..|edges + [e]| - 1] == edges;
    if k > 0 {
      SumTargetsStep(edges, e, k - 1);
    }
  }

  lemma {:induction false} SumTargetsAll(edges: seq<Edge>, n: nat)
    requires EdgesInRange(edges, n)
    ensures SumTargets(edges, n) == |edges| && SumSources(edges, n) == |edges|
    decreases |edges|
  {
    if |edges| == 0 {
      SumTargetsEmpty(edges, n);
    } else {
      var init := edges[..|edges| - 1];
      assert edges == init + [edges[|edges| - 1]];
      SumTargetsAll(init, n);
      SumTargetsStep(init, edges[|edges| - 1], n);
    }
  }

  lemma {:induction false} SumTargetsEmpty(edges: seq<Edge>, k: nat)
    requires |edges| == 0
    ensures SumTargets(edges, k) == 0 && SumSources(edges, k) == 0
  {
    if k > 0 {
      SumTargetsEmpty(edges, k - 1);
    }
  }

  /** Every edge adds one to an out-degree and one to an in-degree, so both
      degree sums of a graph built by `New` equal the number of edges. */
  lemma {:induction false} DegreeSums(nodes: seq<Node>, edges: seq<Edge>, g: Dag)
    requires EdgesInRange(edges, |nodes|)
    requires g.nodes == nodes && |g.adj| == |nodes| && |g.rev| == |nodes|
    requires forall u :: 0 <= u < |nodes| ==> g.adj[u] == Targets(edges, u)
    requires forall v :: 0 <= v < |nodes| ==> g.rev[v] == Sources(edges, v)
    ensures SumOut(g, |nodes|) == |edges| && SumIn(g, |nodes|) == |edges|
  {
    SumTargetsAll(edges, |nodes|);
    SumsAgree(edges, g, |nodes|);
  }

  lemma {:induction false} SumsAgree(edges: seq<Edge>, g: Dag, k: nat)
    requires k <= |g.adj| && k <= |g.rev|
    requires forall u :: 0 <= u < k ==> g.adj[u] == Targets(edges, u) && g.rev[u] == Sources(edges, u)
    ensures SumOut(g, k) == SumTargets(edges, k) && SumIn(g, k) == SumSources(edges, k)
  {
    if k > 0 {
      SumsAgree(edges, g, k - 1);
    }
  }
}
