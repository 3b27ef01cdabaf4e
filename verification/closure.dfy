/**
 * What relevance resolution computes, stated as reachability in the
 * relevance graph: edges go from a literal key to the keys of its relevance
 * list and from a pattern to the keys its scan delivers.
 */
module Closure {
  import opened CacheTypes
  import opened Relevance

  /** `j` lies on a path from `k` that visits at most `fuel` keys, `k` included. */
  ghost predicate Within(v: View, k: Key, j: Key, fuel: nat)
    decreases fuel
  {
    fuel > 0 &&
    (k == j || exists i :: 0 <= i < |Children(v, k)| && Within(v, Children(v, k)[i], j, fuel - 1))
  }

  /** `j` is reachable from `k` in the relevance graph. */
  ghost predicate Reachable(v: View, k: Key, j: Key) {
    exists fuel: nat :: Within(v, k, j, fuel)
  }

  /**
   * Every path from `k` visits fewer than `n + 1` keys: the part of the graph
   * below `k` is acyclic and at most `n` levels deep.
   */
  ghost predicate DepthBelow(v: View, k: Key, n: nat)
    decreases n
  {
    n > 0 && forall i :: 0 <= i < |Children(v, k)| ==> DepthBelow(v, Children(v, k)[i], n - 1)
  }

  /** Resolution returns exactly the stored literal keys within `fuel` levels of the root. */
  lemma {:induction false} ResolveMembers(v: View, k: Key, fuel: nat)
    ensures forall j :: j in Resolve(v, k, fuel) <==> Emits(v, j) && Within(v, k, j, fuel)
    decreases fuel, 0, 0
  {
    if fuel > 0 {
      ResolveUnfold(v, k, fuel);
      var cs := Children(v, k);
      ResolveAllMembers(v, cs, fuel - 1);
    }
  }

  lemma {:induction false} ResolveAllMembers(v: View, ks: seq<Key>, fuel: nat)
    ensures forall j :: j in ResolveAll(v, ks, fuel) <==>
      Emits(v, j) && exists i :: 0 <= i < |ks| && Within(v, ks[i], j, fuel)
    decreases fuel, 1, |ks|
  {
    if ks != [] {
      var n := |ks| - 1;
      var front := ks[..n];
      ResolveAllMembers(v, front, fuel);
      ResolveMembers(v, ks[n], fuel);
      forall j
        ensures j in ResolveAll(v, ks, fuel) <==>
          Emits(v, j) && exists i :: 0 <= i < |ks| && Within(v, ks[i], j, fuel)
      {
        if exists i :: 0 <= i < |ks| && Within(v, ks[i], j, fuel) {
          var i :| 0 <= i < |ks| && Within(v, ks[i], j, fuel);
          if i < n {
            assert front[i] == ks[i];
          }
        }
        if exists i :: 0 <= i < n && Within(v, front[i], j, fuel) {
          var i :| 0 <= i < n && Within(v, front[i], j, fuel);
          assert ks[i] == front[i];
        }
      }
    }
  }

  /** Below the depth of the graph, extra fuel changes nothing. */
  lemma {:induction false} ResolveStable(v: View, k: Key, n: nat, fuel: nat)
    requires DepthBelow(v, k, n) && fuel >= n
    ensures Resolve(v, k, fuel) == Resolve(v, k, n)
    decreases n, 0, 0
  {
    ResolveUnfold(v, k, fuel);
    ResolveUnfold(v, k, n);
    ResolveAllStable(v, Children(v, k), n - 1, fuel - 1);
  }

  lemma {:induction false} ResolveAllStable(v: View, ks: seq<Key>, n: nat, fuel: nat)
    requires forall i :: 0 <= i < |ks| ==> DepthBelow(v, ks[i], n)
    requires fuel >= n
    ensures ResolveAll(v, ks, fuel) == ResolveAll(v, ks, n)
    decreases n, 1, |ks|
  {
    if ks != [] {
      ResolveAllStable(v, ks[..|ks| - 1], n, fuel);
      ResolveStable(v, ks[|ks| - 1], n, fuel);
    }
  }

  /** On a graph at most `n` levels deep, every path from `k` fits in `n` levels. */
  lemma {:induction false} WithinDepth(v: View, k: Key, j: Key, n: nat, fuel: nat)
    requires DepthBelow(v, k, n) && Within(v, k, j, fuel)
    ensures Within(v, k, j, n)
    decreases fuel
  {
    if k != j {
      var i :| 0 <= i < |Children(v, k)| && Within(v, Children(v, k)[i], j, fuel - 1);
      WithinDepth(v, Children(v, k)[i], j, n - 1, fuel - 1);
    }
  }

  /**
   * On a graph whose paths from `k` visit fewer than `n + 1` keys, resolving
   * `k` with fuel `n` yields exactly the stored literal keys reachable from
   * `k` (its transitive closure), and any larger fuel yields the same list.
   */
  lemma ResolveIsClosure(v: View, k: Key, n: nat)
    requires DepthBelow(v, k, n)
    ensures forall j :: j in Resolve(v, k, n) <==> Emits(v, j) && Reachable(v, k, j)
    ensures forall fuel: nat :: fuel >= n ==> Resolve(v, k, fuel) == Resolve(v, k, n)
  {
    ResolveMembers(v, k, n);
    forall j | Emits(v, j) && Reachable(v, k, j)
      ensures Within(v, k, j, n)
    {
      var fuel: nat :| Within(v, k, j, fuel);
      WithinDepth(v, k, j, n, fuel);
    }
    forall fuel: nat | fuel >= n
      ensures Resolve(v, k, fuel) == Resolve(v, k, n)
    {
      ResolveStable(v, k, n, fuel);
    }
  }

  /**
   * If `a` lists `b` and `b` lists `c`, and all three are stored literal
   * keys, resolving `a` with at least three levels of fuel returns all three.
   */
  lemma ChainResolved(v: View, a: Key, b: Key, c: Key, fuel: nat)
    requires Emits(v, a) && Emits(v, b) && Emits(v, c)
    requires b in Children(v, a) && c in Children(v, b)
    requires fuel >= 3
    ensures a in Resolve(v, a, fuel) && b in Resolve(v, a, fuel) && c in Resolve(v, a, fuel)
  {
    ResolveMembers(v, a, fuel);
    var ib :| 0 <= ib < |Children(v, a)| && Children(v, a)[ib] == b;
    var ic :| 0 <= ic < |Children(v, b)| && Children(v, b)[ic] == c;
    assert Within(v, c, c, fuel - 2);
    assert Within(v, b, c, fuel - 1);
    assert Within(v, b, b, fuel - 1);
    assert Within(v, a, c, fuel);
    assert Within(v, a, b, fuel);
  }

  /**
   * Resolving a pattern yields exactly the stored literal keys reachable
   * from the keys its scan delivered; when the scan only delivers keys that
   * match the pattern, every result is reached from a matching key.
   */
  lemma PatternResolution(v: View, p: Key, matches: (Key, Key) -> bool, fuel: nat)
    requires HasAsterisk(p) && fuel > 0
    requires forall k :: k in ScannedKeys(v.scan(p)) ==> matches(p, k)
    ensures forall j :: j in Resolve(v, p, fuel) ==>
      Emits(v, j) &&
      exists k :: k in ScannedKeys(v.scan(p)) && matches(p, k) && Within(v, k, j, fuel - 1)
    ensures forall j, k :: k in ScannedKeys(v.scan(p)) && Emits(v, j) && Within(v, k, j, fuel - 1) ==>
      j in Resolve(v, p, fuel)
  {
    var scanned := ScannedKeys(v.scan(p));
    assert Children(v, p) == scanned;
    ResolveUnfold(v, p, fuel);
    ResolveAllMembers(v, scanned, fuel - 1);
    forall j | j in Resolve(v, p, fuel)
      ensures exists k :: k in scanned && matches(p, k) && Within(v, k, j, fuel - 1)
    {
      var i :| 0 <= i < |scanned| && Within(v, scanned[i], j, fuel - 1);
      assert scanned[i] in scanned;
    }
    forall j, k | k in scanned && Emits(v, j) && Within(v, k, j, fuel - 1)
      ensures j in Resolve(v, p, fuel)
    {
      var i :| 0 <= i < |scanned| && scanned[i] == k;
    }
  }
}
