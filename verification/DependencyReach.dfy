/** The part of a dependency graph that a walk from the root can meet. */
module DependencyReach {
  import opened DependencyGraph

  ghost predicate ReachesFrom(e: Edges, root: string, n: string) {
    exists w :: WalkFrom(e, root, w) && w[|w| - 1] == n
  }

  ghost function Reachable(e: Edges, root: string): Edges {
    map n | n in e && ReachesFrom(e, root, n) :: e[n]
  }

  lemma WalkConcat(e: Edges, a: seq<string>, b: seq<string>)
    requires Walk(e, a) && Walk(e, b) && a != [] && b != [] && a[|a| - 1] == b[0]
    ensures Walk(e, a + b[1..])
  {
    var w := a + b[1..];
    forall i | 0 <= i < |w| - 1 ensures w[i + 1] in Deps(e, w[i]) {
      if i >= |a| - 1 {
        var j := i - (|a| - 1);
        assert b[j + 1] in Deps(e, b[j]);
        assert w[i] == b[j] && w[i + 1] == b[j + 1];
      } else {
        assert a[i + 1] in Deps(e, a[i]);
      }
    }
  }

  lemma RootIsReached(e: Edges, root: string)
    ensures ReachesFrom(e, root, root)
  {
    assert WalkFrom(e, root, [root]) && [root][0] == root;
  }

  lemma DependencyIsReached(e: Edges, root: string, n: string, d: string)
    requires ReachesFrom(e, root, n) && d in Deps(e, n)
    ensures ReachesFrom(e, root, d)
  {
    var w :| WalkFrom(e, root, w) && w[|w| - 1] == n;
    assert Walk(e, [n, d]);
    WalkConcat(e, w, [n, d]);
    var longer := w + [n, d][1..];
    assert WalkFrom(e, root, longer) && longer[|longer| - 1] == d;
  }

  lemma ReachedDeps(e: Edges, root: string, n: string)
    ensures Deps(Reachable(e, root), n) == if ReachesFrom(e, root, n) then Deps(e, n) else []
  {
  }

  lemma ReachableIsPart(e: Edges, root: string, w: seq<string>)
    requires Walk(Reachable(e, root), w)
    ensures Walk(e, w)
  {
    forall i | 0 <= i < |w| - 1 ensures w[i + 1] in Deps(e, w[i]) {
      ReachedDeps(e, root, w[i]);
      assert w[i + 1] in Deps(Reachable(e, root), w[i]);
    }
  }

  lemma WalkFront(e: Edges, w: seq<string>, i: nat)
    requires Walk(e, w) && i < |w|
    ensures Walk(e, w[..i + 1])
  {
    var front := w[..i + 1];
    forall k | 0 <= k < |front| - 1 ensures front[k + 1] in Deps(e, front[k]) {
      assert w[k + 1] in Deps(e, w[k]);
    }
  }

  /** Nothing that a walk from the root meets is left out. */
  lemma WalksFromRoot(e: Edges, root: string, w: seq<string>)
    ensures WalkFrom(Reachable(e, root), root, w) <==> WalkFrom(e, root, w)
  {
    if WalkFrom(Reachable(e, root), root, w) {
      ReachableIsPart(e, root, w);
    }
    if WalkFrom(e, root, w) {
      forall i | 0 <= i < |w| - 1 ensures w[i + 1] in Deps(Reachable(e, root), w[i]) {
        WalkFront(e, w, i);
        assert WalkFrom(e, root, w[..i + 1]) && w[..i + 1][i] == w[i];
        ReachedDeps(e, root, w[i]);
      }
    }
  }

  ghost predicate WalksAreBounded(e: Edges, root: string, bound: nat) {
    forall w :: WalkFrom(e, root, w) ==> |w| <= bound
  }

  /** A cycle that the root reaches can be gone round any number of times. */
  lemma {:induction false} Pump(e: Edges, root: string, front: seq<string>, loop: seq<string>, times: nat)
    returns (w: seq<string>)
    requires WalkFrom(e, root, front) && Walk(e, loop) && |loop| >= 2
    requires front[|front| - 1] == loop[0] == loop[|loop| - 1]
    ensures WalkFrom(e, root, w) && w[|w| - 1] == loop[0] && |w| > times
  {
    w := front;
    if times > 0 {
      var shorter := Pump(e, root, front, loop, times - 1);
      WalkConcat(e, shorter, loop);
      w := shorter + loop[1..];
    }
  }

  /** The dependency paths from the root are bounded exactly when it reaches no cycle. */
  lemma BoundedIffAcyclic(e: Edges, root: string)
    ensures (exists bound :: WalksAreBounded(e, root, bound)) <==> Acyclic(Reachable(e, root))
  {
    var part := Reachable(e, root);
    if Acyclic(part) {
      forall w | WalkFrom(e, root, w) ensures |w| <= |part.Keys| + 1 {
        WalksFromRoot(e, root, w);
        WalksAreShort(part, w);
      }
      assert WalksAreBounded(e, root, |part.Keys| + 1);
    } else {
      var loop :| Walk(part, loop) && |loop| >= 2 && loop[0] == loop[|loop| - 1];
      ReachableIsPart(e, root, loop);
      assert loop[0 + 1] in Deps(part, loop[0]);
      ReachedDeps(e, root, loop[0]);
      var front :| WalkFrom(e, root, front) && front[|front| - 1] == loop[0];
      forall bound: nat ensures !WalksAreBounded(e, root, bound) {
        var w := Pump(e, root, front, loop, bound);
      }
    }
  }
}
