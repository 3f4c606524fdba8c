/** Cluster chains of a FAT32 volume: following, checking, allocating and freeing them. */
module Fat32Chains {
  import opened Counting
  import opened Bytes
  import opened VolumeLayout
  import opened Fat32Volume

  /** The clusters whose entry is zero. */
  ghost function Free(g: Geometry, v: View): set<nat>
    requires |v.fat| == g.clusterCount + 2
  {
    set c | 2 <= c < g.clusterCount + 2 && Entry(v.fat[c]) == 0
  }

  /** w is a walk along links, every cluster in range. */
  ghost predicate Walk(g: Geometry, v: View, w: seq<nat>) {
    && |v.fat| == g.clusterCount + 2 && |w| >= 1
    && (forall i :: 0 <= i < |w| ==> ValidCluster(g, w[i]))
    && (forall i :: 0 <= i < |w| - 1 ==> Entry(v.fat[w[i]]) == w[i + 1])
  }

  /** A finite chain: a walk that stops at an end mark.  Nothing is said about repetition or length. */
  ghost predicate Chain(g: Geometry, v: View, cl: seq<nat>) {
    Walk(g, v, cl) && Entry(v.fat[cl[|cl| - 1]]) >= EOC
  }

  ghost predicate ChainFrom(g: Geometry, v: View, first: nat, cl: seq<nat>) {
    Chain(g, v, cl) && cl[0] == first
  }

  /** Two walks from the same cluster agree as far as both go. */
  lemma {:induction false} WalksAgree(g: Geometry, v: View, a: seq<nat>, b: seq<nat>, i: nat, j: nat, n: nat)
    requires Walk(g, v, a) && Walk(g, v, b) && i + n < |a| && j + n < |b| && a[i] == b[j]
    ensures a[i + n] == b[j + n]
  {
    if n > 0 {
      WalksAgree(g, v, a, b, i, j, n - 1);
      assert Entry(v.fat[a[i + (n - 1)]]) == a[i + (n - 1) + 1];
      assert Entry(v.fat[b[j + (n - 1)]]) == b[j + (n - 1) + 1];
    }
  }

  lemma NotAtEnd(g: Geometry, v: View, w: seq<nat>, i: nat)
    requires Walk(g, v, w) && i + 1 < |w| && g.clusterCount + 2 <= EOC
    ensures Entry(v.fat[w[i]]) < EOC
  {
    assert Entry(v.fat[w[i]]) == w[i + 1];
  }

  /** A chain never meets a cluster twice: from a repeated cluster it could not reach the end mark. */
  lemma ChainDistinct(g: Geometry, v: View, cl: seq<nat>, i: nat, j: nat)
    requires Chain(g, v, cl) && i < j < |cl| && g.clusterCount + 2 <= EOC
    ensures cl[i] != cl[j]
  {
    if cl[i] == cl[j] {
      var n := |cl| - 1 - j;
      WalksAgree(g, v, cl, cl, i, j, n);
      NotAtEnd(g, v, cl, i + n);
      assert false;
    }
  }

  /** So a chain has at most as many clusters as the volume. */
  lemma ChainClusters(g: Geometry, v: View, cl: seq<nat>)
    requires Chain(g, v, cl) && g.clusterCount + 2 <= EOC
    ensures Clusters(g, cl)
  {
    forall i, j | 0 <= i < j < |cl|
      ensures cl[i] != cl[j]
    {
      ChainDistinct(g, v, cl, i, j);
    }
    Pigeonhole(cl, 2, g.clusterCount);
  }

  /** A chain goes on at least as far as any walk that has not met an end mark. */
  lemma WalkInChain(g: Geometry, v: View, w: seq<nat>, cl: seq<nat>)
    requires Walk(g, v, w) && Chain(g, v, cl) && w[0] == cl[0] && g.clusterCount + 2 <= EOC
    ensures |w| <= |cl| && forall i :: 0 <= i < |w| ==> w[i] == cl[i]
  {
    if |w| > |cl| {
      WalksAgree(g, v, w, cl, 0, 0, |cl| - 1);
      NotAtEnd(g, v, w, |cl| - 1);
      assert false;
    }
    forall i | 0 <= i < |w|
      ensures w[i] == cl[i]
    {
      WalksAgree(g, v, w, cl, 0, 0, i);
    }
  }

  lemma ChainUnique(g: Geometry, v: View, a: seq<nat>, b: seq<nat>)
    requires Chain(g, v, a) && Chain(g, v, b) && a[0] == b[0] && g.clusterCount + 2 <= EOC
    ensures a == b
  {
    WalkInChain(g, v, a, b);
    WalkInChain(g, v, b, a);
  }

  /** One step along a chain: the next cluster, EOC at an end mark, nothing at a broken link. */
  function Step(g: Geometry, word: nat): Option<nat> {
    var value := Entry(word);
    if value >= EOC then Some(EOC)
    else if value == 0 || value == BAD_CLUSTER || value >= RESERVED_START || !ValidCluster(g, value) then None
    else Some(value)
  }

  /** No entry of s leads to a cluster outside s. */
  ghost predicate Closed(g: Geometry, v: View, s: set<nat>) {
    && |v.fat| == g.clusterCount + 2
    && forall c :: c in s ==> ValidCluster(g, c) && (ValidCluster(g, Entry(v.fat[c])) ==> Entry(v.fat[c]) in s)
  }

  method ChainAdvance(x: Context, c: nat) returns (ok: bool, next: nat)
    requires x.Valid()
    modifies x.m`faults
    ensures x.Valid() && x.m.faults >= old(x.m.faults)
    ensures x.m.faults > old(x.m.faults) ==> ok && next == EOC
    ensures ok ==> ValidCluster(x.G(), c) && (next == EOC || (ValidCluster(x.G(), next) && next == Entry(x.V().fat[c])))
    ensures x.m.faults == old(x.m.faults) ==> (ok <==> ValidCluster(x.G(), c) && Step(x.G(), x.V().fat[c]).Some?)
    ensures x.m.faults == old(x.m.faults) && ok ==> Step(x.G(), x.V().fat[c]) == Some(next)
  {
    hide Layout, ViewOf, StateOf, Traced, Shaped;
    next := 0;
    if !ValidCluster(x.copies[0], c) {
      return false, next;
    }
    var value := x.NextCluster(c);
    if value >= EOC {
      return true, EOC;
    }
    if value == 0 || value == BAD_CLUSTER || value >= RESERVED_START || !ValidCluster(x.copies[0], value) {
      return false, next;
    }
    return true, value;
  }

  /** fat32_chain_valid: without device errors, yes exactly for the start of a finite chain in range. */
  method ChainValid(x: Context, first: nat) returns (ok: bool)
    requires x.Valid()
    modifies x.m`faults
    ensures x.Valid() && x.m.faults >= old(x.m.faults)
    ensures ok ==> ValidCluster(x.G(), first)
    ensures x.m.faults == old(x.m.faults) ==> (ok <==> exists cl :: ChainFrom(x.G(), x.V(), first, cl))
  {
    hide Layout, ViewOf, StateOf, Traced, Step, Chain, Walk;
    var current := first;
    var limit := x.copies[0].clusterCount;
    if !ValidCluster(x.copies[0], current) {
      NoChainOutside(x.G(), x.V(), first);
      return false;
    }
    ghost var w: seq<nat> := [first];
    WalkStart(x.G(), x.V(), first);
    for hops := 0 to limit
      invariant x.Valid() && x.m.faults >= old(x.m.faults) && |w| == hops + 1 && w[0] == first && w[hops] == current
      invariant ValidCluster(x.G(), current)
      invariant x.m.faults == old(x.m.faults) ==> Walk(x.G(), x.V(), w)
    {
      var next;
      ok, next := ChainAdvance(x, current);
      if !ok {
        if x.m.faults == old(x.m.faults) {
          BrokenWalk(x.G(), x.V(), w);
        }
        return false;
      }
      if next >= EOC {
        if x.m.faults == old(x.m.faults) {
          WalkEnds(x.G(), x.V(), w);
        }
        return true;
      }
      if x.m.faults == old(x.m.faults) {
        WalkOn(x.G(), x.V(), w, next);
      }
      w := w + [next];
      current := next;
    }
    ok := false;
    if x.m.faults == old(x.m.faults) {
      LongWalk(x.G(), x.V(), w);
    }
  }

  lemma WalkStart(g: Geometry, v: View, first: nat)
    requires ValidCluster(g, first) && |v.fat| == g.clusterCount + 2
    ensures Walk(g, v, [first])
  {
  }

  lemma NoChainOutside(g: Geometry, v: View, first: nat)
    requires !ValidCluster(g, first)
    ensures !exists cl :: ChainFrom(g, v, first, cl)
  {
  }

  lemma WalkOn(g: Geometry, v: View, w: seq<nat>, next: nat)
    requires Walk(g, v, w) && Step(g, v.fat[w[|w| - 1]]) == Some(next) && next < EOC
    ensures Walk(g, v, w + [next])
  {
  }

  lemma WalkEnds(g: Geometry, v: View, w: seq<nat>)
    requires Walk(g, v, w) && Step(g, v.fat[w[|w| - 1]]) == Some(EOC) && g.clusterCount + 2 <= EOC
    ensures ChainFrom(g, v, w[0], w)
  {
  }

  lemma BrokenWalk(g: Geometry, v: View, w: seq<nat>)
    requires Walk(g, v, w) && Step(g, v.fat[w[|w| - 1]]) == None && g.clusterCount + 2 <= RESERVED_START
    ensures !exists cl :: ChainFrom(g, v, w[0], cl)
  {
    if cl :| ChainFrom(g, v, w[0], cl) {
      WalkInChain(g, v, w, cl);
      ChainSteps(g, v, cl, |w| - 1);
      assert false;
    }
  }

  lemma ChainSteps(g: Geometry, v: View, cl: seq<nat>, i: nat)
    requires Chain(g, v, cl) && i < |cl| && g.clusterCount + 2 <= RESERVED_START
    ensures Step(g, v.fat[cl[i]]) == Some(if i + 1 < |cl| then cl[i + 1] else EOC)
  {
  }

  lemma LongWalk(g: Geometry, v: View, w: seq<nat>)
    requires Walk(g, v, w) && |w| > g.clusterCount && g.clusterCount + 2 <= EOC
    ensures !exists cl :: ChainFrom(g, v, w[0], cl)
  {
    if cl :| ChainFrom(g, v, w[0], cl) {
      WalkInChain(g, v, w, cl);
      ChainClusters(g, v, cl);
      assert false;
    }
  }
}
