/** Dependency edges between recipes, the longest remaining path, and reachability. */
module DependencyGraph {
  import opened Distinctness

  /** The dependencies of each recipe, those assumed provided left out. */
  type Edges = map<string, seq<string>>

  function Deps(e: Edges, n: string): seq<string> {
    if n in e then e[n] else []
  }

  ghost predicate Walk(e: Edges, w: seq<string>) {
    forall i :: 0 <= i < |w| - 1 ==> w[i + 1] in Deps(e, w[i])
  }

  ghost predicate WalkFrom(e: Edges, n: string, w: seq<string>) {
    w != [] && w[0] == n && Walk(e, w)
  }

  ghost predicate Acyclic(e: Edges) {
    forall w :: Walk(e, w) && |w| >= 2 ==> w[0] != w[|w| - 1]
  }

  function Elements(s: seq<string>): set<string> {
    set x | x in s
  }

  lemma NoReturn(e: Edges, w: seq<string>, i: nat, j: nat)
    requires Acyclic(e) && Walk(e, w) && i < j < |w|
    ensures w[i] != w[j]
  {
    var loop := w[i..j + 1];
    assert Walk(e, loop) by {
      forall k | 0 <= k < |loop| - 1 ensures loop[k + 1] in Deps(e, loop[k]) {
        assert w[i + k + 1] in Deps(e, w[i + k]);
      }
    }
    assert loop[0] == w[i] && loop[|loop| - 1] == w[j];
  }

  lemma WalkIsDistinct(e: Edges, w: seq<string>)
    requires Acyclic(e) && Walk(e, w)
    ensures Distinct(w)
  {
    forall j ensures FirstAt(w, j) {
      if 0 <= j < |w| && w[j] in w[..j] {
        var i :| 0 <= i < j && w[..j][i] == w[j];
        NoReturn(e, w, i, j);
      }
    }
  }

  lemma WalksAreShort(e: Edges, w: seq<string>)
    requires Acyclic(e) && Walk(e, w) && w != []
    ensures |w| - 1 <= |e.Keys|
  {
    WalkIsDistinct(e, w);
    var front := w[..|w| - 1];
    forall i ensures FirstAt(front, i) {
      assert FirstAt(w, i);
      assert 0 <= i < |front| ==> front[..i] == w[..i];
    }
    forall x | x in front ensures x in e.Keys {
      var i :| 0 <= i < |front| && front[i] == x;
      assert w[i + 1] in Deps(e, w[i]);
    }
    DistinctFits(front, e.Keys);
  }

  // ----- The longest remaining path, the measure of the recursion -----

  /** The longest walk from `n`, cut off at `fuel` steps. */
  function Longest(e: Edges, n: string, fuel: nat): nat
    decreases fuel, 1, 0
  {
    if fuel == 0 then 0 else LongestOf(e, Deps(e, n), fuel - 1)
  }

  function LongestOf(e: Edges, ds: seq<string>, fuel: nat): nat
    decreases fuel, 2, |ds|
  {
    if ds == [] then 0
    else
      var first, rest := 1 + Longest(e, ds[0], fuel), LongestOf(e, ds[1..], fuel);
      if first < rest then rest else first
  }

  lemma {:induction false} LongestOfBounds(e: Edges, ds: seq<string>, fuel: nat, d: string)
    requires d in ds
    ensures Longest(e, d, fuel) < LongestOf(e, ds, fuel)
  {
    if d != ds[0] {
      LongestOfBounds(e, ds[1..], fuel, d);
    }
  }

  lemma {:induction false} LongestOfAttained(e: Edges, ds: seq<string>, fuel: nat) returns (d: string)
    requires LongestOf(e, ds, fuel) > 0
    ensures d in ds && LongestOf(e, ds, fuel) == 1 + Longest(e, d, fuel)
  {
    d := ds[0];
    if 1 + Longest(e, d, fuel) < LongestOf(e, ds[1..], fuel) {
      d := LongestOfAttained(e, ds[1..], fuel);
    }
  }

  lemma {:induction false} LongestIsWalked(e: Edges, n: string, fuel: nat) returns (w: seq<string>)
    ensures WalkFrom(e, n, w) && |w| == 1 + Longest(e, n, fuel)
    decreases fuel
  {
    w := [n];
    if fuel > 0 && LongestOf(e, Deps(e, n), fuel - 1) > 0 {
      var d := LongestOfAttained(e, Deps(e, n), fuel - 1);
      var tail := LongestIsWalked(e, d, fuel - 1);
      WalkExtends(e, n, tail);
      w := [n] + tail;
    }
  }

  lemma WalkExtends(e: Edges, n: string, tail: seq<string>)
    requires Walk(e, tail) && tail != [] && tail[0] in Deps(e, n)
    ensures WalkFrom(e, n, [n] + tail)
  {
    var w := [n] + tail;
    forall i | 0 <= i < |w| - 1 ensures w[i + 1] in Deps(e, w[i]) {
      if i > 0 {
        assert tail[i] in Deps(e, tail[i - 1]);
      }
    }
  }

  lemma WalkShortens(e: Edges, w: seq<string>)
    requires Walk(e, w) && |w| > 1
    ensures WalkFrom(e, w[1], w[1..]) && w[1] in Deps(e, w[0])
  {
    assert w[0 + 1] in Deps(e, w[0]);
    forall i | 0 <= i < |w[1..]| - 1 ensures w[1..][i + 1] in Deps(e, w[1..][i]) {
      assert w[i + 1 + 1] in Deps(e, w[i + 1]);
    }
  }

  /** Once it stays below the fuel, more fuel does not change it. */
  lemma {:induction false} LongestSettles(e: Edges, n: string, fuel: nat)
    requires Longest(e, n, fuel) < fuel
    ensures Longest(e, n, fuel + 1) == Longest(e, n, fuel)
    decreases fuel, 1, 0
  {
    LongestOfSettles(e, Deps(e, n), fuel - 1);
  }

  lemma {:induction false} LongestOfSettles(e: Edges, ds: seq<string>, fuel: nat)
    requires LongestOf(e, ds, fuel) <= fuel
    ensures LongestOf(e, ds, fuel + 1) == LongestOf(e, ds, fuel)
    decreases fuel, 2, |ds|
  {
    if ds != [] {
      LongestSettles(e, ds[0], fuel);
      LongestOfSettles(e, ds[1..], fuel);
    }
  }

  function Height(e: Edges, n: string): nat {
    Longest(e, n, |e.Keys| + 1)
  }

  lemma HeightDropsTo(e: Edges, n: string, d: string)
    requires Acyclic(e) && d in Deps(e, n)
    ensures Height(e, d) < Height(e, n)
  {
    var k := |e.Keys|;
    var w := LongestIsWalked(e, n, k + 1);
    WalksAreShort(e, w);
    LongestOfBounds(e, Deps(e, n), k, d);
    LongestSettles(e, d, k);
  }

  /** `Height` is the length of the longest walk. */
  lemma {:induction false} HeightBoundsWalks(e: Edges, n: string, w: seq<string>)
    requires Acyclic(e) && WalkFrom(e, n, w)
    ensures |w| - 1 <= Height(e, n)
    decreases |w|
  {
    if |w| > 1 {
      WalkShortens(e, w);
      HeightDropsTo(e, n, w[1]);
      HeightBoundsWalks(e, w[1], w[1..]);
    }
  }

  lemma HeightIsAttained(e: Edges, n: string)
    ensures exists w :: WalkFrom(e, n, w) && |w| - 1 == Height(e, n)
  {
    var w := LongestIsWalked(e, n, |e.Keys| + 1);
  }

  // ----- Graphs with a measure -----

  /** Edges together with a measure that drops along each of them. */
  datatype Dag = Dag(edges: Edges, rank: string -> nat)

  ghost predicate DropsAt(g: Dag, n: string, d: string) {
    d in Deps(g.edges, n) ==> g.rank(d) < g.rank(n)
  }

  ghost predicate Measured(g: Dag) {
    forall n, d {:trigger DropsAt(g, n, d)} :: DropsAt(g, n, d)
  }

  function DagOf(e: Edges): Dag {
    Dag(e, n => Height(e, n))
  }

  /** Without cycles the longest remaining path is such a measure. */
  lemma AcyclicIsMeasured(e: Edges)
    requires Acyclic(e)
    ensures Measured(DagOf(e))
  {
    forall n: string, d: string ensures DropsAt(DagOf(e), n, d) {
      if d in Deps(e, n) {
        HeightDropsTo(e, n, d);
      }
    }
  }

  /** And no measure drops around a cycle. */
  lemma MeasuredIsAcyclic(g: Dag)
    requires Measured(g)
    ensures Acyclic(g.edges)
  {
    forall w | Walk(g.edges, w) && |w| >= 2 ensures w[0] != w[|w| - 1] {
      RankDropsAlong(g, w);
    }
  }

  lemma {:induction false} RankDropsAlong(g: Dag, w: seq<string>)
    requires Measured(g) && Walk(g.edges, w) && |w| >= 2
    ensures g.rank(w[|w| - 1]) < g.rank(w[0])
    decreases |w|
  {
    WalkShortens(g.edges, w);
    assert DropsAt(g, w[0], w[1]);
    if |w| > 2 {
      RankDropsAlong(g, w[1..]);
    }
  }

  ghost predicate BelowAt(g: Dag, ds: seq<string>, h: nat, d: string) {
    d in ds ==> g.rank(d) < h
  }

  ghost predicate Below(g: Dag, ds: seq<string>, h: nat) {
    forall d {:trigger BelowAt(g, ds, h, d)} :: BelowAt(g, ds, h, d)
  }

  lemma DepsBelow(g: Dag, n: string)
    requires Measured(g)
    ensures Below(g, Deps(g.edges, n), g.rank(n))
  {
    forall d: string ensures BelowAt(g, Deps(g.edges, n), g.rank(n), d) {
      assert DropsAt(g, n, d);
    }
  }

  // ----- Reachability -----

  ghost function ReachSet(g: Dag, n: string): set<string>
    requires Measured(g)
    decreases g.rank(n), |Deps(g.edges, n)| + 1
  {
    DepsBelow(g, n);
    ReachFirst(g, Deps(g.edges, n), |Deps(g.edges, n)|, g.rank(n))
  }

  /** The first `i` of `ds` and what is reachable from them. */
  ghost function ReachFirst(g: Dag, ds: seq<string>, i: nat, h: nat): set<string>
    requires Measured(g) && i <= |ds| && Below(g, ds, h)
    decreases h, i
  {
    if i == 0 then {}
    else
      assert BelowAt(g, ds, h, ds[i - 1]);
      ReachFirst(g, ds, i - 1, h) + {ds[i - 1]} + ReachSet(g, ds[i - 1])
  }

  ghost predicate ReachedVia(g: Dag, ds: seq<string>, i: nat, x: string)
    requires Measured(g) && i <= |ds|
  {
    exists j :: 0 <= j < i && (x == ds[j] || x in ReachSet(g, ds[j]))
  }

  lemma ReachedViaNext(g: Dag, ds: seq<string>, i: nat, x: string)
    requires Measured(g) && 0 < i <= |ds|
    ensures ReachedVia(g, ds, i, x) <==> ReachedVia(g, ds, i - 1, x) || x == ds[i - 1] || x in ReachSet(g, ds[i - 1])
  {
    if ReachedVia(g, ds, i, x) {
      var j :| 0 <= j < i && (x == ds[j] || x in ReachSet(g, ds[j]));
    }
  }

  lemma {:induction false} ReachFirstMembers(g: Dag, ds: seq<string>, i: nat, h: nat, x: string)
    requires Measured(g) && i <= |ds| && Below(g, ds, h)
    ensures x in ReachFirst(g, ds, i, h) <==> ReachedVia(g, ds, i, x)
  {
    if i > 0 {
      ReachFirstMembers(g, ds, i - 1, h, x);
      ReachedViaNext(g, ds, i, x);
    }
  }

  lemma ReachSetMembers(g: Dag, n: string, x: string)
    requires Measured(g)
    ensures x in ReachSet(g, n) <==> ReachedVia(g, Deps(g.edges, n), |Deps(g.edges, n)|, x)
  {
    DepsBelow(g, n);
    ReachFirstMembers(g, Deps(g.edges, n), |Deps(g.edges, n)|, g.rank(n), x);
  }

  /** The set collected by the recursion is exactly what a walk of one step or more ends in. */
  lemma ReachSetIsWalks(g: Dag, n: string, x: string)
    requires Measured(g)
    ensures x in ReachSet(g, n) <==> exists w :: WalkFrom(g.edges, n, w) && |w| >= 2 && w[|w| - 1] == x
  {
    if x in ReachSet(g, n) {
      var w := ReachedByWalk(g, n, x);
    }
    if w :| WalkFrom(g.edges, n, w) && |w| >= 2 && w[|w| - 1] == x {
      WalkReaches(g, n, w);
    }
  }

  lemma {:induction false} ReachedByWalk(g: Dag, n: string, x: string) returns (w: seq<string>)
    requires Measured(g) && x in ReachSet(g, n)
    ensures WalkFrom(g.edges, n, w) && |w| >= 2 && w[|w| - 1] == x
    decreases g.rank(n)
  {
    ReachSetMembers(g, n, x);
    var j :| 0 <= j < |Deps(g.edges, n)| && (x == Deps(g.edges, n)[j] || x in ReachSet(g, Deps(g.edges, n)[j]));
    var d := Deps(g.edges, n)[j];
    assert DropsAt(g, n, d);
    var tail := [d];
    if x != d {
      tail := ReachedByWalk(g, d, x);
    }
    WalkExtends(g.edges, n, tail);
    w := [n] + tail;
  }

  lemma {:induction false} WalkReaches(g: Dag, n: string, w: seq<string>)
    requires Measured(g) && WalkFrom(g.edges, n, w) && |w| >= 2
    ensures w[|w| - 1] in ReachSet(g, n)
    decreases |w|
  {
    WalkShortens(g.edges, w);
    if |w| > 2 {
      WalkReaches(g, w[1], w[1..]);
    }
    var j :| 0 <= j < |Deps(g.edges, n)| && Deps(g.edges, n)[j] == w[1];
    assert w[|w| - 1] == Deps(g.edges, n)[j] || w[|w| - 1] in ReachSet(g, Deps(g.edges, n)[j]);
    ReachSetMembers(g, n, w[|w| - 1]);
  }
}
