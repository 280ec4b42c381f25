/** Structural fingerprints (`fingerprints`): nodes are visited in reverse
    topological order, so each node is hashed from its kind, its degrees and the
    multiset of its children's already computed fingerprints. The 64-bit hash is
    a parameter; since the children's fingerprints are sorted before hashing,
    what it sees is their multiset. */
module DagFingerprint {
  import opened Common
  import opened DagGraph
  import opened DagTopo

  type Hasher = (byte, nat, nat, multiset<nat>) -> nat

  /** The multiset of the fingerprints of `u`'s children. */
  function ChildFps(g: Dag, fp: seq<nat>, u: nat): (r: multiset<nat>)
    requires Consistent(g) && |fp| == |g.nodes| && u < |g.nodes|
    ensures |r| == OutDeg(g, u)
  {
    multiset(seq(|g.adj[u]|, j requires 0 <= j < |g.adj[u]| => fp[g.adj[u][j]]))
  }

  /** `fp[u]` is the hash of `u`'s kind, degrees and children's fingerprints. */
  ghost predicate FpAt(g: Dag, hash: Hasher, fp: seq<nat>, u: nat)
    requires Consistent(g) && |fp| == |g.nodes| && u < |g.nodes|
  {
    fp[u] == hash(g.nodes[u].kind, InDeg(g, u), OutDeg(g, u), ChildFps(g, fp, u))
  }

  lemma ChildFpsUnchanged(g: Dag, fp: seq<nat>, u: nat, w: nat, x: nat)
    requires Consistent(g) && |fp| == |g.nodes| && u < |g.nodes| && w < |g.nodes|
    requires w !in g.adj[u]
    ensures ChildFps(g, fp[w := x], u) == ChildFps(g, fp, u)
  {
    assert seq(|g.adj[u]|, j requires 0 <= j < |g.adj[u]| => fp[w := x][g.adj[u][j]])
        == seq(|g.adj[u]|, j requires 0 <= j < |g.adj[u]| => fp[g.adj[u][j]]);
  }

  /** On an acyclic graph every fingerprint is the hash of its node's data and
      of its children's fingerprints; on any graph, nodes never output by the
      topological sort keep the initial 0. */
  method Fingerprints(g: Dag, hash: Hasher) returns (fp: seq<nat>)
    requires Consistent(g)
    ensures |fp| == |g.nodes|
    ensures Acyclic(g) ==> forall u :: 0 <= u < |g.nodes| ==> FpAt(g, hash, fp, u)
  {
    var n := |g.nodes|;
    var order := Topo(g);
    fp := seq(n, _ => 0);
    var i := |order|;
    while i > 0
      invariant 0 <= i <= |order| && |fp| == n
      invariant forall k :: i <= k < |order| ==> FpAt(g, hash, fp, order[k])
    {
      i := i - 1;
      var u := order[i];
      var h := hash(g.nodes[u].kind, InDeg(g, u), OutDeg(g, u), ChildFps(g, fp, u));
      ChildFpsUnchanged(g, fp, u, u, h);
      forall k | i < k < |order|
        ensures ChildFps(g, fp[u := h], order[k]) == ChildFps(g, fp, order[k])
      {
        ChildFpsUnchanged(g, fp, order[k], u, h);
      }
      fp := fp[u := h];
    }
    if Acyclic(g) {
      Pigeonhole(order, n);
      forall u | 0 <= u < n ensures FpAt(g, hash, fp, u) {
        var k := IndexOf(order, u);
      }
    }
  }
}
