/** `find_dependencies` and `main`: the recursion over shared, growing accumulators. */
module DependencyWalk {
  import opened Options
  import opened Distinctness
  import opened DependencyGraph
  import opened DependencyReach
  import opened DependencyText

  datatype Layer = Layer(recipes: Recipes, provided: set<string>)

  /** The filter at the head of `find_dependencies`. */
  function Filter(depends: seq<string>, provided: set<string>): seq<string> {
    if depends == [] then []
    else
      var n := |depends| - 1;
      Filter(depends[..n], provided) + (if depends[n] in provided then [] else [depends[n]])
  }

  /** What is kept, and that order and repetitions are: list by list, and name by name. */
  lemma {:induction false} FilterOfConcat(a: seq<string>, b: seq<string>, provided: set<string>)
    ensures Filter(a + b, provided) == Filter(a, provided) + Filter(b, provided)
  {
    if b == [] {
      assert a + b == a;
    } else {
      var n := |b| - 1;
      FilterOfConcat(a, b[..n], provided);
      assert (a + b)[..|a + b| - 1] == a + b[..n];
    }
  }

  lemma FilterOfOne(x: string, provided: set<string>)
    ensures Filter([x], provided) == if x in provided then [] else [x]
    ensures Filter([], provided) == []
  {
    assert [x][..0] == [];
  }

  lemma {:induction false} FilterMembers(depends: seq<string>, provided: set<string>, x: string)
    ensures x in Filter(depends, provided) <==> x in depends && x !in provided
  {
    if depends != [] {
      FilterMembers(depends[..|depends| - 1], provided, x);
      assert depends == depends[..|depends| - 1] + [depends[|depends| - 1]];
    }
  }

  lemma {:induction false} FilterTwice(depends: seq<string>, provided: set<string>)
    ensures Filter(Filter(depends, provided), provided) == Filter(depends, provided)
  {
    if depends != [] {
      var n := |depends| - 1;
      var once := Filter(depends[..n], provided);
      FilterTwice(depends[..n], provided);
      if depends[n] !in provided {
        assert (once + [depends[n]])[..|once|] == once;
      } else {
        assert once + [] == once;
      }
    }
  }

  function EdgesOf(layer: Layer): Edges {
    map n | n in layer.recipes :: Filter(layer.recipes[n].depends, layer.provided)
  }

  /** The package at `i` is a dependency of the root or of a package listed before it. */
  ghost predicate IntroducedAt(e: Edges, root: string, packages: seq<string>, i: int) {
    0 <= i < |packages| ==>
      packages[i] in Deps(e, root) || exists p :: p in packages[..i] && packages[i] in Deps(e, p)
  }

  ghost predicate Introduced(e: Edges, root: string, packages: seq<string>) {
    forall i {:trigger IntroducedAt(e, root, packages, i)} :: IntroducedAt(e, root, packages, i)
  }

  /** The edges are those of the recipes that the root reaches. */
  ghost function EdgesFrom(layer: Layer, root: string): Edges {
    Reachable(EdgesOf(layer), root)
  }

  ghost function DagFrom(layer: Layer, root: string): Dag {
    DagOf(EdgesFrom(layer, root))
  }

  /** What a dependency of a recipe depends on is what its own recipe says. */
  ghost predicate EdgeAgrees(layer: Layer, e: Edges, n: string, d: string) {
    d in Deps(e, n) && d in layer.recipes ==> Deps(e, d) == Filter(layer.recipes[d].depends, layer.provided)
  }

  ghost predicate EdgesAgree(layer: Layer, e: Edges) {
    forall n, d {:trigger EdgeAgrees(layer, e, n, d)} :: EdgeAgrees(layer, e, n, d)
  }

  lemma ReachedEdgesAgree(layer: Layer, root: string)
    ensures EdgesAgree(layer, EdgesFrom(layer, root))
  {
    var e := EdgesFrom(layer, root);
    forall n, d ensures EdgeAgrees(layer, e, n, d) {
      if d in Deps(e, n) {
        ReachedDeps(EdgesOf(layer), root, n);
        DependencyIsReached(EdgesOf(layer), root, n, d);
        ReachedDeps(EdgesOf(layer), root, d);
      }
    }
  }

  /** The memo answers as a direct lookup would, once the provided dependencies are dropped. */
  ghost predicate EntryAgrees(layer: Layer, e: Edges, memo: map<string, Recipe>, k: string) {
    k in memo ==>
      && k in layer.recipes
      && memo[k].pn == layer.recipes[k].pn && memo[k].pv == layer.recipes[k].pv
      && Filter(memo[k].depends, layer.provided) == Deps(e, k)
  }

  ghost predicate MemoAgrees(layer: Layer, e: Edges, memo: map<string, Recipe>) {
    forall k {:trigger EntryAgrees(layer, e, memo, k)} :: EntryAgrees(layer, e, memo, k)
  }

  lemma IntroducedNext(e: Edges, root: string, packages: seq<string>, parent: string, dep: string)
    requires Introduced(e, root, packages)
    requires parent == root || parent in packages
    requires dep in Deps(e, parent)
    ensures Introduced(e, root, packages + [dep])
  {
    var next := packages + [dep];
    forall i ensures IntroducedAt(e, root, next, i) {
      if 0 <= i < |packages| {
        assert IntroducedAt(e, root, packages, i);
        assert next[..i] == packages[..i];
      } else if i == |packages| {
        assert next[..i] == packages;
      }
    }
  }

  lemma MemoNext(layer: Layer, e: Edges, memo: map<string, Recipe>, rn: string, dep: string)
    requires MemoAgrees(layer, e, memo) && EdgesAgree(layer, e) && dep in Deps(e, rn) && dep in layer.recipes
    ensures MemoAgrees(layer, e, memo[dep := layer.recipes[dep]])
  {
    var next := memo[dep := layer.recipes[dep]];
    assert EdgeAgrees(layer, e, rn, dep);
    forall k: string ensures EntryAgrees(layer, e, next, k) {
      assert EntryAgrees(layer, e, memo, k);
    }
  }

  lemma ElementsNext(s: seq<string>, x: string)
    ensures Elements(s + [x]) == Elements(s) + {x}
  {
  }

  lemma UnionNext(a: set<string>, b: set<string>, x: string, c: set<string>)
    requires x in a + b
    ensures (a + b) + c == a + (b + {x} + c)
  {
  }

  /** What the accumulators keep to between any two calls. */
  ghost predicate Consistent(layer: Layer, e: Edges, root: string, memo: Recipes, packages: seq<string>,
                             lookups: seq<string>)
  {
    && EdgesAgree(layer, e) && MemoAgrees(layer, e, memo)
    && memo.Keys == {root} + Elements(packages)
    && Distinct(packages) && lookups == packages
    && Introduced(e, root, packages)
  }

  class Walker {
    const layer: Layer
    const root: string
    ghost const dag: Dag
    var recipeInfo: map<string, Recipe>
    var packages: seq<string>
    var manifest: seq<string>
    ghost var lookups: seq<string>

    constructor (layer: Layer, root: string)
      requires root in layer.recipes
      ensures Valid() && dag == DagFrom(layer, root) && this.layer == layer && this.root == root
      ensures packages == [] && manifest == []
    {
      this.layer, this.root, dag := layer, root, DagFrom(layer, root);
      var data := layer.recipes[root];
      recipeInfo := map[root := data.(depends := Filter(data.depends, layer.provided))];
      packages, manifest, lookups := [], [], [];
      FilterTwice(data.depends, layer.provided);
      RootIsReached(EdgesOf(layer), root);
      ReachedDeps(EdgesOf(layer), root, root);
      ReachedEdgesAgree(layer, root);
      new;
      forall k ensures EntryAgrees(layer, dag.edges, recipeInfo, k) {
      }
    }

    ghost predicate Valid()
      reads this
    {
      Consistent(layer, dag.edges, root, recipeInfo, packages, lookups)
    }

    method GetRecipeInfo(rn: string) returns (data: Option<Recipe>)
      modifies this`lookups
      ensures data == if rn in layer.recipes then Some(layer.recipes[rn]) else None
      ensures lookups == old(lookups) + [rn]
    {
      lookups := lookups + [rn];
      data := if rn in layer.recipes then Some(layer.recipes[rn]) else None;
    }

    /** The loop that drops what is assumed provided. */
    method FilterDepends(depends: seq<string>) returns (r: seq<string>)
      ensures r == Filter(depends, layer.provided)
      ensures forall x :: x in r <==> x in depends && x !in layer.provided
    {
      r := [];
      for i := 0 to |depends|
        invariant r == Filter(depends[..i], layer.provided)
      {
        assert depends[..i + 1][..i] == depends[..i];
        if depends[i] !in layer.provided {
          r := r + [depends[i]];
        }
      }
      assert depends[..|depends|] == depends;
      forall x ensures x in r <==> x in depends && x !in layer.provided {
        FilterMembers(depends, layer.provided, x);
      }
    }

    /** The `dependencies` key of the scope. */
    method ScopeHeader(depends: seq<string>) returns (header: string)
      ensures header == if forall d :: d in depends ==> d in layer.provided
                        then "    dependencies: []" else "    dependencies:"
    {
      var kept := FilterDepends(depends);
      NothingKeptIff(depends, layer.provided);
      header := if kept == [] then "    dependencies: []" else "    dependencies:";
    }

    /** The first loop: every dependency not seen yet is listed and looked up; false if a lookup fails. */
    method LearnAll(rn: string, depends: seq<string>) returns (ok: bool)
      requires Valid() && depends == Deps(dag.edges, rn) && (rn == root || rn in packages)
      modifies this`recipeInfo, this`packages, this`lookups
      ensures ok == forall d :: d in depends ==> d in layer.recipes
      ensures ok ==> Valid() && old(packages) <= packages
      ensures ok ==> Elements(packages) == old(Elements(packages)) + Elements(depends)
      ensures ok ==> forall d :: d in depends ==> d in packages
    {
      for i := 0 to |depends|
        invariant Valid() && old(packages) <= packages
        invariant Elements(packages) == old(Elements(packages)) + Elements(depends[..i])
        invariant forall d :: d in depends[..i] ==> d in layer.recipes
      {
        var dep := depends[i];
        assert depends[..i + 1] == depends[..i] + [dep];
        ElementsNext(depends[..i], dep);
        if dep !in packages {
          ok := Learn(rn, dep);
          if !ok { return; }
        } else {
          assert EntryAgrees(layer, dag.edges, recipeInfo, dep) && dep in recipeInfo.Keys;
        }
      }
      assert depends[..|depends|] == depends;
      ok := true;
      forall d | d in depends ensures d in packages {
        assert d in Elements(depends);
      }
    }

    method Learn(rn: string, dep: string) returns (ok: bool)
      requires Valid() && dep in Deps(dag.edges, rn) && dep !in packages && (rn == root || rn in packages)
      modifies this`recipeInfo, this`packages, this`lookups
      ensures ok == (dep in layer.recipes)
      ensures ok ==> Valid() && packages == old(packages) + [dep]
      ensures ok ==> Elements(packages) == old(Elements(packages)) + {dep}
    {
      IntroducedNext(dag.edges, root, packages, rn, dep);
      ElementsNext(packages, dep);
      DistinctNext(packages, dep);
      packages := packages + [dep];
      var data := GetRecipeInfo(dep);
      ok := data.Some?;
      if ok {
        MemoNext(layer, dag.edges, recipeInfo, rn, dep);
        recipeInfo := recipeInfo[dep := data.value];
      }
    }

    /**
      `find_dependencies`: succeeds exactly when everything reachable has a recipe, and then
      the list has grown by exactly what is reachable and the text by exactly the tree of paths.
     */
    method FindDependencies(rn: string, order: nat) returns (ok: bool)
      requires Measured(dag) && Valid() && order >= 1 && (rn == root || rn in packages)
      modifies this
      ensures ok == (ReachSet(dag, rn) <= layer.recipes.Keys)
      ensures ok ==> Valid() && old(packages) <= packages
      ensures ok ==> Elements(packages) == old(Elements(packages)) + ReachSet(dag, rn)
      ensures ok && order == 1 ==> manifest == old(manifest) + RenderAll(DepTree(layer.recipes, dag, rn).children, 2)
      ensures ok && order > 1 ==> manifest == old(manifest) + Render(DepTree(layer.recipes, dag, rn), order)
      decreases dag.rank(rn), 3
    {
      assert EntryAgrees(layer, dag.edges, recipeInfo, rn) && rn in recipeInfo.Keys;
      var data := recipeInfo[rn];
      var depends := FilterDepends(data.depends);
      ghost var tree, start := DepTree(layer.recipes, dag, rn), manifest;
      ghost var head, body := Head(data.pn, data.pv, depends == [], order), RenderAll(tree.children, order + 1);
      ForestSize(layer.recipes, dag, rn);
      if order > 1 {
        manifest := manifest + Head(data.pn, data.pv, depends == [], order);
      }
      ok := Expand(rn, depends, order);
      if ok && order > 1 {
        manifest := manifest + [KeyLine(order, ERRORS)];
        Associative(start, head, body);
        Associative(start, head + body, [KeyLine(order, ERRORS)]);
      }
    }

    method Expand(rn: string, depends: seq<string>, order: nat) returns (ok: bool)
      requires Measured(dag) && Valid() && order >= 1
      requires (rn == root || rn in packages) && depends == Deps(dag.edges, rn)
      modifies this
      ensures ok == (ReachSet(dag, rn) <= layer.recipes.Keys)
      ensures ok ==> Valid() && old(packages) <= packages
      ensures ok ==> Elements(packages) == old(Elements(packages)) + ReachSet(dag, rn)
      ensures ok ==> manifest == old(manifest) + RenderAll(DepTree(layer.recipes, dag, rn).children, order + 1)
      decreases dag.rank(rn), 2
    {
      LearnedPart(dag, rn);
      ok := LearnAll(rn, depends);
      if !ok {
        assert exists d :: d in Elements(depends) && d !in layer.recipes;
        return;
      }
      DepsBelow(dag, rn);
      ghost var trees := DepTree(layer.recipes, dag, rn).children;
      TreesMatch(layer.recipes, dag, rn);
      ok := ExpandAll(depends, order, dag.rank(rn), trees);
    }

    /** The second loop: the dependencies one after the other, each to its full depth. */
    method ExpandAll(depends: seq<string>, order: nat, ghost h: nat, ghost trees: seq<Tree>) returns (ok: bool)
      requires Measured(dag) && Valid() && order >= 1
      requires Below(dag, depends, h) && Match(layer.recipes, dag, depends, trees)
      requires forall d :: d in depends ==> d in packages
      modifies this
      ensures ok == (ReachFirst(dag, depends, |depends|, h) <= layer.recipes.Keys)
      ensures ok ==> Valid() && old(packages) <= packages
      ensures ok ==> Elements(packages) == old(Elements(packages)) + ReachFirst(dag, depends, |depends|, h)
      ensures ok ==> manifest == old(manifest) + RenderAll(trees, order + 1)
      decreases h, 1
    {
      ghost var known, text := Elements(packages), manifest;
      for i := 0 to |depends|
        invariant Valid() && old(packages) <= packages
        invariant Expanded(layer.recipes, dag, depends, i, h, trees, order, known, text, Elements(packages), manifest)
      {
        assert depends[i] in depends;
        ok := ExpandNext(depends, i, order, h, trees, known, text);
        if !ok { return; }
      }
      ok := true;
    }

    method ExpandNext(ds: seq<string>, i: nat, order: nat, ghost h: nat, ghost trees: seq<Tree>,
                      ghost known: set<string>, ghost text: seq<string>)
      returns (ok: bool)
      requires Measured(dag) && Valid() && order >= 1
      requires i < |ds| && ds[i] in packages && Below(dag, ds, h) && Match(layer.recipes, dag, ds, trees)
      requires Expanded(layer.recipes, dag, ds, i, h, trees, order, known, text, Elements(packages), manifest)
      modifies this
      ensures !ok ==> !(ReachFirst(dag, ds, |ds|, h) <= layer.recipes.Keys)
      ensures ok ==> Valid() && old(packages) <= packages
      ensures ok ==> Expanded(layer.recipes, dag, ds, i + 1, h, trees, order, known, text, Elements(packages), manifest)
      decreases h, 0
    {
      var dep := ds[i];
      assert BelowAt(dag, ds, h, dep);
      assert EntryAgrees(layer, dag.edges, recipeInfo, dep) && dep in recipeInfo.Keys;
      ghost var was, wrote := Elements(packages), manifest;
      ok := FindDependencies(dep, order + 1);
      if ok {
        ExpandedNext(layer.recipes, dag, ds, i, h, trees, order, known, text, was, wrote, Elements(packages), manifest);
      } else {
        ReachedFromList(dag, ds, h, i);
      }
    }
  }

  ghost predicate MatchAt(r: Recipes, g: Dag, ds: seq<string>, trees: seq<Tree>, i: int)
    requires Measured(g) && |trees| == |ds|
  {
    0 <= i < |ds| ==> trees[i] == DepTree(r, g, ds[i])
  }

  ghost predicate Match(r: Recipes, g: Dag, ds: seq<string>, trees: seq<Tree>)
    requires Measured(g)
  {
    |trees| == |ds| && forall i {:trigger MatchAt(r, g, ds, trees, i)} :: MatchAt(r, g, ds, trees, i)
  }

  lemma TreesMatch(r: Recipes, g: Dag, n: string)
    requires Measured(g)
    ensures Match(r, g, Deps(g.edges, n), DepTree(r, g, n).children)
  {
    ChildAt(r, g, n, 0);
    forall i ensures MatchAt(r, g, Deps(g.edges, n), DepTree(r, g, n).children, i) {
      ChildAt(r, g, n, i);
    }
  }

  /** The listed packages and the text after the first `i` of `ds`, starting from `known` and `text`. */
  ghost predicate Expanded(r: Recipes, g: Dag, ds: seq<string>, i: nat, h: nat, trees: seq<Tree>, order: nat,
                           known: set<string>, text: seq<string>, listed: set<string>, manifest: seq<string>)
    requires Measured(g) && i <= |ds| && |trees| == |ds| && Below(g, ds, h)
  {
    && ReachFirst(g, ds, i, h) <= r.Keys
    && listed == known + ReachFirst(g, ds, i, h)
    && manifest == text + RenderFirst(trees, i, order + 1)
  }

  lemma ExpandedNext(r: Recipes, g: Dag, ds: seq<string>, i: nat, h: nat, trees: seq<Tree>, order: nat,
                     known: set<string>, text: seq<string>,
                     listed: set<string>, manifest: seq<string>, listed': set<string>, manifest': seq<string>)
    requires Measured(g) && i < |ds| && Below(g, ds, h) && Match(r, g, ds, trees)
    requires Expanded(r, g, ds, i, h, trees, order, known, text, listed, manifest)
    requires ds[i] in listed && ds[i] in r && ReachSet(g, ds[i]) <= r.Keys
    requires listed' == listed + ReachSet(g, ds[i])
    requires manifest' == manifest + Render(DepTree(r, g, ds[i]), order + 1)
    ensures Expanded(r, g, ds, i + 1, h, trees, order, known, text, listed', manifest')
  {
    assert MatchAt(r, g, ds, trees, i);
    UnionNext(known, ReachFirst(g, ds, i, h), ds[i], ReachSet(g, ds[i]));
    Associative(text, RenderFirst(trees, i, order + 1), Render(trees[i], order + 1));
  }

  lemma ReachedFromList(g: Dag, ds: seq<string>, h: nat, i: nat)
    requires Measured(g) && i < |ds| && Below(g, ds, h)
    ensures ReachSet(g, ds[i]) <= ReachFirst(g, ds, |ds|, h)
  {
    forall x | x in ReachSet(g, ds[i]) ensures x in ReachFirst(g, ds, |ds|, h) {
      assert ReachedVia(g, ds, |ds|, x);
      ReachFirstMembers(g, ds, |ds|, h, x);
    }
  }

  lemma Associative(a: seq<string>, b: seq<string>, c: seq<string>)
    ensures (a + b) + c == a + (b + c)
  {
  }

  lemma ForestSize(r: Recipes, g: Dag, n: string)
    requires Measured(g)
    ensures |DepTree(r, g, n).children| == |Deps(g.edges, n)|
  {
    ChildAt(r, g, n, 0);
  }

  lemma LearnedPart(g: Dag, n: string)
    requires Measured(g)
    ensures Elements(Deps(g.edges, n)) <= ReachSet(g, n)
  {
    forall i | 0 <= i < |Deps(g.edges, n)| ensures Deps(g.edges, n)[i] in ReachSet(g, n) {
      ReachSetMembers(g, n, Deps(g.edges, n)[i]);
    }
  }

  // ----- main -----

  /** How `main` ends: no recipe, an exception on a failing lookup, or the file and the listed packages. */
  datatype Report = NothingToDo | Crashed | Written(lines: seq<string>, listed: seq<string>)

  lemma RootNotReached(e: Edges, rn: string)
    requires Acyclic(e) && Measured(DagOf(e))
    ensures rn !in ReachSet(DagOf(e), rn)
  {
    ReachSetIsWalks(DagOf(e), rn, rn);
  }

  /** Exactly the reachable recipes, each once, each after a recipe that depends on it. */
  ghost predicate ListsReachable(g: Dag, rn: string, listed: seq<string>)
    requires Measured(g)
  {
    Elements(listed) == ReachSet(g, rn) && Distinct(listed) && Introduced(g.edges, rn, listed)
  }

  /** Below the `dependencies` key the lines, and their text, read back as the trees under the root. */
  ghost predicate ReadsBack(r: Recipes, g: Dag, rn: string, lines: seq<string>)
    requires Measured(g)
  {
    var ts := DepTree(r, g, rn).children;
    && lines != []
    && ParseList(lines[1..], 2) == Some((ts, ["packages:"]))
    && (CleanRecipes(r) ==> ParseList(FromText(ToText(lines[1..]), ""), 2) == Some((ts, ["packages:"])))
  }

  lemma LinesReadBack(r: Recipes, g: Dag, rn: string, header: string, manifest: seq<string>)
    requires Measured(g) && manifest == RenderAll(DepTree(r, g, rn).children, 2)
    ensures ReadsBack(r, g, rn, [header] + (manifest + ["packages:"]))
  {
    var ts := DepTree(r, g, rn).children;
    assert ([header] + (manifest + ["packages:"]))[1..] == manifest + ["packages:"];
    assert Indentation("packages:") == 0;
    ParseRenderAll(ts, 2, ["packages:"]);
    if CleanRecipes(r) {
      DepTreeIsClean(r, g, rn);
      TextReadsBack(ts, 2, ["packages:"]);
    }
  }

  // ----- In terms of the recipes alone -----

  /** One recipe lists another among its dependencies, and that is not assumed provided. */
  predicate DependsOn(layer: Layer, n: string, d: string) {
    n in layer.recipes && d in layer.recipes[n].depends && d !in layer.provided
  }

  /** A path of dependencies that are not assumed provided, of one step or more. */
  ghost predicate DependencyPath(layer: Layer, rn: string, w: seq<string>) {
    |w| >= 2 && w[0] == rn && forall i :: 0 <= i < |w| - 1 ==> DependsOn(layer, w[i], w[i + 1])
  }

  lemma EdgeIsDependency(layer: Layer, n: string, d: string)
    ensures d in Deps(EdgesOf(layer), n) <==> DependsOn(layer, n, d)
  {
    if n in layer.recipes {
      FilterMembers(layer.recipes[n].depends, layer.provided, d);
    }
  }

  lemma PathIsWalkOfEdges(layer: Layer, rn: string, w: seq<string>)
    ensures DependencyPath(layer, rn, w) <==> WalkFrom(EdgesOf(layer), rn, w) && |w| >= 2
  {
    forall i | 0 <= i < |w| - 1
      ensures w[i + 1] in Deps(EdgesOf(layer), w[i]) <==> DependsOn(layer, w[i], w[i + 1])
    {
      EdgeIsDependency(layer, w[i], w[i + 1]);
    }
  }

  ghost predicate DependsOnAtLast(layer: Layer, rn: string, x: string) {
    exists w :: DependencyPath(layer, rn, w) && w[|w| - 1] == x
  }

  lemma ReachedByDependencies(layer: Layer, rn: string, x: string)
    requires Measured(DagFrom(layer, rn))
    ensures x in ReachSet(DagFrom(layer, rn), rn) <==> DependsOnAtLast(layer, rn, x)
    ensures DependsOnAtLast(layer, rn, x) ==> x !in layer.provided
  {
    ReachSetOfLayer(layer, rn, x);
    if w :| WalkFrom(EdgesOf(layer), rn, w) && |w| >= 2 && w[|w| - 1] == x {
      PathIsWalkOfEdges(layer, rn, w);
    }
    if w :| DependencyPath(layer, rn, w) && w[|w| - 1] == x {
      PathIsWalkOfEdges(layer, rn, w);
      assert DependsOn(layer, w[|w| - 2], w[|w| - 2 + 1]);
    }
  }

  /** The listed packages are what the root depends on at last; none of them is assumed provided. */
  ghost predicate ListsDependencies(layer: Layer, rn: string, listed: seq<string>) {
    && (forall x :: x in listed <==> DependsOnAtLast(layer, rn, x))
    && (forall x :: x in listed ==> x in layer.recipes && x !in layer.provided)
    && (forall i, j :: 0 <= i < j < |listed| ==> listed[i] != listed[j])
  }

  lemma ListedAreDependencies(layer: Layer, rn: string, listed: seq<string>)
    requires Measured(DagFrom(layer, rn)) && ListsReachable(DagFrom(layer, rn), rn, listed)
    requires ReachSet(DagFrom(layer, rn), rn) <= layer.recipes.Keys
    ensures ListsDependencies(layer, rn, listed)
  {
    forall x ensures x in listed <==> DependsOnAtLast(layer, rn, x) {
      ReachedByDependencies(layer, rn, x);
      assert x in Elements(listed) <==> x in listed;
    }
    forall x | x in listed ensures x in layer.recipes && x !in layer.provided {
      ReachedByDependencies(layer, rn, x);
      assert x in Elements(listed);
    }
    forall i, j | 0 <= i < j < |listed| ensures listed[i] != listed[j] {
      assert FirstAt(listed, j);
    }
  }

  /** Something that the root depends on at last has no recipe. */
  ghost predicate LacksRecipe(layer: Layer, rn: string) {
    exists x :: DependsOnAtLast(layer, rn, x) && x !in layer.recipes
  }

  lemma LacksRecipeIff(layer: Layer, rn: string)
    requires Measured(DagFrom(layer, rn))
    ensures LacksRecipe(layer, rn) <==> !(ReachSet(DagFrom(layer, rn), rn) <= layer.recipes.Keys)
  {
    if x :| DependsOnAtLast(layer, rn, x) && x !in layer.recipes {
      ReachedByDependencies(layer, rn, x);
    }
    if x :| x in ReachSet(DagFrom(layer, rn), rn) && x !in layer.recipes {
      ReachedByDependencies(layer, rn, x);
    }
  }

  /** The reachable recipes, by walks over all edges of the layer. */
  lemma ReachSetOfLayer(layer: Layer, rn: string, x: string)
    requires Measured(DagFrom(layer, rn))
    ensures x in ReachSet(DagFrom(layer, rn), rn) <==>
            exists w :: WalkFrom(EdgesOf(layer), rn, w) && |w| >= 2 && w[|w| - 1] == x
  {
    ReachSetIsWalks(DagFrom(layer, rn), rn, x);
    forall w ensures WalkFrom(EdgesFrom(layer, rn), rn, w) <==> WalkFrom(EdgesOf(layer), rn, w) {
      WalksFromRoot(EdgesOf(layer), rn, w);
    }
  }

  /**
    Nothing without a recipe; an exception where something the root depends on at last has none;
    otherwise the packages are what it depends on at last, each once and after one that depends on
    it, and the lines hold the key with or without entries, the trees, and the next key.
   */
  ghost predicate ReportIsRight(layer: Layer, rn: string, r: Report)
    requires Measured(DagFrom(layer, rn))
  {
    match r
    case NothingToDo => rn !in layer.recipes
    case Crashed => rn in layer.recipes && LacksRecipe(layer, rn)
    case Written(lines, listed) =>
      && rn in layer.recipes && !LacksRecipe(layer, rn)
      && ListsDependencies(layer, rn, listed) && ListsReachable(DagFrom(layer, rn), rn, listed)
      && ReadsBack(layer.recipes, DagFrom(layer, rn), rn, lines)
      && lines[|lines| - 1] == "packages:"
      && lines[0] == if forall d :: d in layer.recipes[rn].depends ==> d in layer.provided
                     then "    dependencies: []" else "    dependencies:"
  }

  /** The same over the graph of what the root reaches. */
  ghost predicate RightOnGraph(layer: Layer, g: Dag, rn: string, r: Report)
    requires Measured(g)
  {
    match r
    case NothingToDo => rn !in layer.recipes
    case Crashed => rn in layer.recipes && !(ReachSet(g, rn) <= layer.recipes.Keys)
    case Written(lines, listed) =>
      && rn in layer.recipes && ReachSet(g, rn) <= layer.recipes.Keys
      && ListsReachable(g, rn, listed) && ReadsBack(layer.recipes, g, rn, lines)
      && lines[|lines| - 1] == "packages:"
      && lines[0] == if forall d :: d in layer.recipes[rn].depends ==> d in layer.provided
                     then "    dependencies: []" else "    dependencies:"
  }

  lemma RightInRecipes(layer: Layer, rn: string, r: Report)
    requires Measured(DagFrom(layer, rn)) && RightOnGraph(layer, DagFrom(layer, rn), rn, r)
    ensures ReportIsRight(layer, rn, r)
  {
    LacksRecipeIff(layer, rn);
    if r.Written? {
      ListedAreDependencies(layer, rn, r.listed);
    }
  }

  /** `main`, from the `dependencies` key of the scope to the list of packages; no cycle may be in reach of the root. */
  method FindAll(layer: Layer, rn: string) returns (r: Report)
    requires Acyclic(EdgesFrom(layer, rn))
    ensures Measured(DagFrom(layer, rn)) && ReportIsRight(layer, rn, r)
  {
    AcyclicIsMeasured(EdgesFrom(layer, rn));
    RootNotReached(EdgesFrom(layer, rn), rn);
    r := FindOnGraph(layer, rn, DagFrom(layer, rn));
    RightInRecipes(layer, rn, r);
  }

  method FindOnGraph(layer: Layer, rn: string, ghost g: Dag) returns (r: Report)
    requires Measured(g) && g == DagFrom(layer, rn) && rn !in ReachSet(g, rn)
    ensures RightOnGraph(layer, g, rn, r)
  {
    if rn !in layer.recipes { return NothingToDo; }
    var walker := new Walker(layer, rn);
    var header := walker.ScopeHeader(layer.recipes[rn].depends);
    var ok := walker.FindDependencies(rn, 1);
    if !ok { return Crashed; }
    var listed := ListPackages(walker.packages, rn);
    r := Written([header] + (walker.manifest + ["packages:"]), listed);
    WrittenIsRight(layer, g, rn, header, walker.manifest, listed);
  }

  lemma WrittenIsRight(layer: Layer, g: Dag, rn: string, header: string, manifest: seq<string>, listed: seq<string>)
    requires Measured(g) && rn in layer.recipes
    requires ReachSet(g, rn) <= layer.recipes.Keys && ListsReachable(g, rn, listed)
    requires manifest == RenderAll(DepTree(layer.recipes, g, rn).children, 2)
    requires header == if forall d :: d in layer.recipes[rn].depends ==> d in layer.provided
                       then "    dependencies: []" else "    dependencies:"
    ensures RightOnGraph(layer, g, rn, Written([header] + (manifest + ["packages:"]), listed))
  {
    var lines := [header] + (manifest + ["packages:"]);
    assert lines[0] == header && lines[|lines| - 1] == "packages:";
    LinesReadBack(layer.recipes, g, rn, header, manifest);
  }

  lemma NothingKeptIff(depends: seq<string>, provided: set<string>)
    ensures Filter(depends, provided) == [] <==> forall d :: d in depends ==> d in provided
  {
    forall d | d in depends ensures d in provided <==> d !in Filter(depends, provided) {
      FilterMembers(depends, provided, d);
    }
    if Filter(depends, provided) != [] {
      FilterMembers(depends, provided, Filter(depends, provided)[0]);
    }
  }

  /** The final loop, which passes over the root. */
  method ListPackages(packages: seq<string>, rn: string) returns (listed: seq<string>)
    requires rn !in Elements(packages)
    ensures listed == packages
  {
    listed := [];
    for i := 0 to |packages|
      invariant listed == packages[..i]
    {
      assert packages[i] in Elements(packages);
      if packages[i] != rn {
        listed := listed + [packages[i]];
      }
    }
  }
}
