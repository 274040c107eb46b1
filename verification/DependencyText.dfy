/** The nested `dependencies` text of the manifest, and a reader that goes by indentation. */
module DependencyText {
  import opened Options
  import opened DependencyGraph

  datatype Tree = Node(name: string, version: string, children: seq<Tree>)

  function Spaces(n: nat): (s: string)
    ensures |s| == n && forall i :: 0 <= i < n ==> s[i] == ' '
  {
    seq(n, i => ' ')
  }

  // ----- Writing -----

  function OpeningLine(order: nat): string {
    Spaces(2 * order) + "- namespace: \"\""
  }

  function KeyLine(order: nat, body: string): string {
    Spaces(2 * order) + "  " + body
  }

  function Quoted(key: string, value: string): string {
    key + value + "\""
  }

  const NAME := "name: \""
  const VERSION := "version: \""
  const NO_CHILDREN := "dependencies: []"
  const CHILDREN := "dependencies:"
  const ERRORS := "errors: []"

  function Head(name: string, version: string, leaf: bool, order: nat): seq<string> {
    [OpeningLine(order),
     KeyLine(order, Quoted(NAME, name)),
     KeyLine(order, Quoted(VERSION, version)),
     KeyLine(order, if leaf then NO_CHILDREN else CHILDREN)]
  }

  function Render(t: Tree, order: nat): seq<string>
    decreases t, 0
  {
    Head(t.name, t.version, t.children == [], order)
    + RenderFirst(t.children, |t.children|, order + 1)
    + [KeyLine(order, ERRORS)]
  }

  /** The lines of an entry, as text: four, those of its children two further in, and one. */
  lemma EntryLines(t: Tree, order: nat)
    ensures var lines, space := Render(t, order), Spaces(2 * order);
            && |lines| >= 5
            && lines[0] == space + "- namespace: \"\""
            && lines[1] == space + "  name: \"" + t.name + "\""
            && lines[2] == space + "  version: \"" + t.version + "\""
            && lines[3] == space + (if t.children == [] then "  dependencies: []" else "  dependencies:")
            && lines[|lines| - 1] == space + "  errors: []"
            && lines[4..|lines| - 1] == RenderAll(t.children, order + 1)
  {
    KeyLines(order, t);
    var head, inner, close := Head(t.name, t.version, t.children == [], order),
                              RenderAll(t.children, order + 1), [KeyLine(order, ERRORS)];
    Sandwich(head, inner, close);
  }

  lemma KeyLines(order: nat, t: Tree)
    ensures var space := Spaces(2 * order);
            && OpeningLine(order) == space + "- namespace: \"\""
            && KeyLine(order, Quoted(NAME, t.name)) == space + "  name: \"" + t.name + "\""
            && KeyLine(order, Quoted(VERSION, t.version)) == space + "  version: \"" + t.version + "\""
            && KeyLine(order, NO_CHILDREN) == space + "  dependencies: []"
            && KeyLine(order, CHILDREN) == space + "  dependencies:"
            && KeyLine(order, ERRORS) == space + "  errors: []"
  {
    var space := Spaces(2 * order);
    assert KeyLine(order, NO_CHILDREN) == space + "  dependencies: []";
    assert KeyLine(order, CHILDREN) == space + "  dependencies:";
    assert KeyLine(order, ERRORS) == space + "  errors: []";
    QuotedLine(space, NAME, "  name: \"", t.name);
    QuotedLine(space, VERSION, "  version: \"", t.version);
  }

  lemma QuotedLine(space: string, key: string, indented: string, value: string)
    requires indented == "  " + key
    ensures space + "  " + Quoted(key, value) == space + indented + value + "\""
  {
  }

  lemma Sandwich(head: seq<string>, inner: seq<string>, close: seq<string>)
    requires |head| == 4 && |close| == 1
    ensures var lines := head + inner + close;
            && lines[0] == head[0] && lines[1] == head[1] && lines[2] == head[2] && lines[3] == head[3]
            && |lines| >= 5 && lines[|lines| - 1] == close[0] && lines[4..|lines| - 1] == inner
  {
  }

  /** Entries are written one after the other. */
  lemma ListLines(ts: seq<Tree>, t: Tree, order: nat)
    ensures RenderAll([], order) == []
    ensures RenderAll(ts + [t], order) == RenderAll(ts, order) + Render(t, order)
  {
    FirstOfLonger(ts, t, |ts|, order);
  }

  lemma {:induction false} FirstOfLonger(ts: seq<Tree>, t: Tree, i: nat, order: nat)
    requires i <= |ts|
    ensures RenderFirst(ts + [t], i, order) == RenderFirst(ts, i, order)
  {
    if i > 0 {
      FirstOfLonger(ts, t, i - 1, order);
    }
  }

  /** The first `i` entries of a list. */
  function RenderFirst(ts: seq<Tree>, i: nat, order: nat): seq<string>
    requires i <= |ts|
    decreases ts, i
  {
    if i == 0 then [] else RenderFirst(ts, i - 1, order) + Render(ts[i - 1], order)
  }

  function RenderAll(ts: seq<Tree>, order: nat): seq<string> {
    RenderFirst(ts, |ts|, order)
  }

  // ----- Reading -----

  function Indentation(line: string): (n: nat)
    ensures n <= |line|
  {
    if line == "" || line[0] != ' ' then 0 else 1 + Indentation(line[1..])
  }

  predicate Is(line: string, indentation: nat, body: string) {
    Indentation(line) == indentation && line[Indentation(line)..] == body
  }

  function Unquote(line: string, indentation: nat, key: string): Option<string> {
    var body := line[Indentation(line)..];
    if Indentation(line) == indentation && key <= body && |key| < |body| && body[|body| - 1] == '\"'
    then Some(body[|key|..|body| - 1])
    else None
  }

  function ParseNode(lines: seq<string>, order: nat): (r: Option<(Tree, seq<string>)>)
    ensures r.Some? ==> |r.value.1| < |lines|
    decreases |lines|, 0
  {
    var inner := 2 * order + 2;
    if |lines| < 5 || !Is(lines[0], 2 * order, "- namespace: \"\"") then None
    else
      var name, version := Unquote(lines[1], inner, NAME), Unquote(lines[2], inner, VERSION);
      var children :=
        if Is(lines[3], inner, NO_CHILDREN) then Some(([], lines[4..]))
        else if Is(lines[3], inner, CHILDREN) then ParseList(lines[4..], order + 1)
        else None;
      if name.None? || version.None? || children.None? then None
      else Close(Node(name.value, version.value, children.value.0), children.value.1, order)
  }

  /** The `errors` line that ends an entry. */
  function Close(t: Tree, lines: seq<string>, order: nat): Option<(Tree, seq<string>)> {
    if lines != [] && Is(lines[0], 2 * order + 2, ERRORS) then Some((t, lines[1..])) else None
  }

  /** Entries at one depth, up to the first line that does not open one. */
  function ParseList(lines: seq<string>, order: nat): (r: Option<(seq<Tree>, seq<string>)>)
    ensures r.Some? ==> |r.value.1| <= |lines|
    decreases |lines|, 1
  {
    if lines == [] || !Is(lines[0], 2 * order, "- namespace: \"\"") then Some(([], lines))
    else
      var first := ParseNode(lines, order);
      if first.None? then None
      else
        var others := ParseList(first.value.1, order);
        if others.None? then None else Some(([first.value.0] + others.value.0, others.value.1))
  }

  // ----- The reader undoes the writer -----

  lemma {:induction false} IndentedIs(n: nat, body: string)
    requires body != "" && body[0] != ' '
    ensures Indentation(Spaces(n) + body) == n && (Spaces(n) + body)[n..] == body
  {
    var line := Spaces(n) + body;
    if n > 0 {
      assert line[1..] == Spaces(n - 1) + body;
      IndentedIs(n - 1, body);
    }
  }

  lemma KeyLineReads(order: nat, body: string)
    requires body != "" && body[0] != ' '
    ensures Is(KeyLine(order, body), 2 * order + 2, body)
  {
    assert KeyLine(order, body) == Spaces(2 * order + 2) + body;
    IndentedIs(2 * order + 2, body);
  }

  lemma HeadReads(name: string, version: string, leaf: bool, order: nat)
    ensures var head := Head(name, version, leaf, order);
            && Is(head[0], 2 * order, "- namespace: \"\"")
            && Unquote(head[1], 2 * order + 2, NAME) == Some(name)
            && Unquote(head[2], 2 * order + 2, VERSION) == Some(version)
            && Is(head[3], 2 * order + 2, if leaf then NO_CHILDREN else CHILDREN)
  {
    IndentedIs(2 * order, "- namespace: \"\"");
    KeyLineReads(order, Quoted(NAME, name));
    KeyLineReads(order, Quoted(VERSION, version));
    KeyLineReads(order, if leaf then NO_CHILDREN else CHILDREN);
  }

  lemma {:induction false} RenderFromFront(ts: seq<Tree>, i: nat, order: nat)
    requires 0 < i <= |ts|
    ensures RenderFirst(ts, i, order) == Render(ts[0], order) + RenderFirst(ts[1..], i - 1, order)
  {
    if i > 1 {
      RenderFromFront(ts, i - 1, order);
      assert ts[1..][i - 2] == ts[i - 1];
    }
  }

  ghost predicate OpensNothing(rest: seq<string>, order: nat) {
    rest == [] || !Is(rest[0], 2 * order, "- namespace: \"\"")
  }

  lemma ParseAfterHead(name: string, version: string, leaf: bool, order: nat, middle: seq<string>)
    requires middle != []
    ensures var children := if leaf then Some(([], middle)) else ParseList(middle, order + 1);
            ParseNode(Head(name, version, leaf, order) + middle, order)
            == if children.None? then None else Close(Node(name, version, children.value.0), children.value.1, order)
  {
    var lines := Head(name, version, leaf, order) + middle;
    assert lines[4..] == middle;
    HeadReads(name, version, leaf, order);
    var head := Head(name, version, leaf, order);
    assert lines[0] == head[0] && lines[1] == head[1] && lines[2] == head[2] && lines[3] == head[3];
  }

  lemma {:induction false} ParseRender(t: Tree, order: nat, rest: seq<string>)
    ensures ParseNode(Render(t, order) + rest, order) == Some((t, rest))
    decreases t, 0
  {
    var leaf, close := t.children == [], KeyLine(order, ERRORS);
    var tail := [close] + rest;
    var middle := RenderAll(t.children, order + 1) + tail;
    assert Render(t, order) + rest == Head(t.name, t.version, leaf, order) + middle;
    ParseAfterHead(t.name, t.version, leaf, order, middle);
    KeyLineReads(order, ERRORS);
    if leaf {
      assert middle == tail;
    } else {
      ParseRenderAll(t.children, order + 1, tail);
    }
    assert tail[1..] == rest;
  }

  lemma {:induction false} ParseRenderAll(ts: seq<Tree>, order: nat, rest: seq<string>)
    requires OpensNothing(rest, order)
    ensures ParseList(RenderAll(ts, order) + rest, order) == Some((ts, rest))
    decreases ts, |ts|
  {
    if ts == [] {
      assert RenderAll(ts, order) + rest == rest;
    } else {
      var more := RenderAll(ts[1..], order) + rest;
      ParseRender(ts[0], order, more);
      ParseRenderAll(ts[1..], order, rest);
      ParseFirstAndRest(ts, order, rest);
    }
  }

  lemma ParseFirstAndRest(ts: seq<Tree>, order: nat, rest: seq<string>)
    requires ts != []
    requires var more := RenderAll(ts[1..], order) + rest;
             && ParseNode(Render(ts[0], order) + more, order) == Some((ts[0], more))
             && ParseList(more, order) == Some((ts[1..], rest))
    ensures ParseList(RenderAll(ts, order) + rest, order) == Some((ts, rest))
  {
    var more := RenderAll(ts[1..], order) + rest;
    RenderAllSplits(ts, order, rest);
    RenderOpens(ts[0], order, more);
    ParseListStep(Render(ts[0], order) + more, order, ts[0], more, ts[1..], rest);
    assert [ts[0]] + ts[1..] == ts;
  }

  lemma RenderAllSplits(ts: seq<Tree>, order: nat, rest: seq<string>)
    requires ts != []
    ensures RenderAll(ts, order) + rest == Render(ts[0], order) + (RenderAll(ts[1..], order) + rest)
  {
    RenderFromFront(ts, |ts|, order);
  }

  lemma ParseListStep(lines: seq<string>, order: nat, t: Tree, more: seq<string>, ts: seq<Tree>, rest: seq<string>)
    requires !OpensNothing(lines, order) && ParseNode(lines, order) == Some((t, more))
    requires ParseList(more, order) == Some((ts, rest))
    ensures ParseList(lines, order) == Some(([t] + ts, rest))
  {
  }

  lemma RenderOpens(t: Tree, order: nat, rest: seq<string>)
    ensures Render(t, order) != [] && Is((Render(t, order) + rest)[0], 2 * order, "- namespace: \"\"")
  {
    HeadReads(t.name, t.version, t.children == [], order);
    assert (Render(t, order) + rest)[0] == Head(t.name, t.version, t.children == [], order)[0];
  }

  // ----- Lines as one text -----

  function ToText(lines: seq<string>): string {
    if lines == [] then "" else ToText(lines[..|lines| - 1]) + lines[|lines| - 1] + "\n"
  }

  /** Every line ends with a line feed, and nothing else is added. */
  lemma {:induction false} TextOfConcat(a: seq<string>, b: seq<string>)
    ensures ToText(a + b) == ToText(a) + ToText(b)
  {
    if b == [] {
      assert a + b == a;
    } else {
      var n := |b| - 1;
      TextOfConcat(a, b[..n]);
      assert (a + b)[..|a + b| - 1] == a + b[..n];
    }
  }

  lemma TextOfOne(line: string)
    ensures ToText([line]) == line + "\n" && ToText([]) == ""
  {
    assert [line][..0] == [];
  }

  /** The lines of a text, `current` being the part of a line already read. */
  function FromText(text: string, current: string): seq<string>
    decreases |text|
  {
    if text == "" then []
    else if text[0] == '\n' then [current] + FromText(text[1..], "")
    else FromText(text[1..], current + [text[0]])
  }

  lemma {:induction false} ReadLine(line: string, text: string, current: string)
    requires '\n' !in line
    ensures FromText(line + "\n" + text, current) == [current + line] + FromText(text, "")
    decreases |line|
  {
    var all := line + "\n" + text;
    if line == "" {
      assert all[1..] == text && current + line == current;
    } else {
      assert all[1..] == line[1..] + "\n" + text;
      ReadLine(line[1..], text, current + [line[0]]);
      assert current + [line[0]] + line[1..] == current + line;
    }
  }

  lemma {:induction false} ReadText(lines: seq<string>, text: string)
    requires forall line :: line in lines ==> '\n' !in line
    ensures FromText(ToText(lines) + text, "") == lines + FromText(text, "")
  {
    if lines == [] {
      assert ToText(lines) + text == text;
    } else {
      var n := |lines| - 1;
      assert ToText(lines) + text == ToText(lines[..n]) + (lines[n] + "\n" + text);
      ReadText(lines[..n], lines[n] + "\n" + text);
      ReadLine(lines[n], text, "");
      assert "" + lines[n] == lines[n];
      assert lines == lines[..n] + [lines[n]];
    }
  }

  // ----- From the text back to the trees -----

  ghost predicate Clean(t: Tree) {
    '\n' !in t.name && '\n' !in t.version && forall c :: c in t.children ==> Clean(c)
  }

  lemma HeadIsClean(name: string, version: string, leaf: bool, order: nat)
    requires '\n' !in name && '\n' !in version
    ensures forall line :: line in Head(name, version, leaf, order) ==> '\n' !in line
  {
  }

  lemma {:induction false} RenderIsClean(t: Tree, order: nat)
    requires Clean(t)
    ensures forall line :: line in Render(t, order) ==> '\n' !in line
    decreases t, 0
  {
    HeadIsClean(t.name, t.version, t.children == [], order);
    RenderFirstIsClean(t.children, |t.children|, order + 1);
  }

  lemma {:induction false} RenderFirstIsClean(ts: seq<Tree>, i: nat, order: nat)
    requires i <= |ts| && forall c :: c in ts ==> Clean(c)
    ensures forall line :: line in RenderFirst(ts, i, order) ==> '\n' !in line
    decreases ts, i
  {
    if i > 0 {
      RenderFirstIsClean(ts, i - 1, order);
      RenderIsClean(ts[i - 1], order);
    }
  }

  /** The text of a dependency list, followed by lines that open no entry, reads back as the list. */
  lemma TextReadsBack(ts: seq<Tree>, order: nat, rest: seq<string>)
    requires OpensNothing(rest, order)
    requires (forall t :: t in ts ==> Clean(t)) && forall line :: line in rest ==> '\n' !in line
    ensures ParseList(FromText(ToText(RenderAll(ts, order) + rest), ""), order) == Some((ts, rest))
  {
    var lines := RenderAll(ts, order) + rest;
    RenderFirstIsClean(ts, |ts|, order);
    ReadText(lines, "");
    assert ToText(lines) + "" == ToText(lines) && lines + [] == lines;
    ParseRenderAll(ts, order, rest);
  }

  // ----- The tree of all dependency paths -----

  /** What a lookup yields: the package name and version, and `DEPENDS` split into words. */
  datatype Recipe = Recipe(pn: string, pv: string, depends: seq<string>)

  type Recipes = map<string, Recipe>

  function Label(r: Recipes, n: string): string {
    if n in r then r[n].pn else ""
  }

  ghost function DepTree(r: Recipes, g: Dag, n: string): Tree
    requires Measured(g)
    decreases g.rank(n), |Deps(g.edges, n)| + 1
  {
    DepsBelow(g, n);
    Node(Label(r, n), if n in r then r[n].pv else "", Forest(r, g, Deps(g.edges, n), |Deps(g.edges, n)|, g.rank(n)))
  }

  /** The trees of the first `i` of `ds`. */
  ghost function Forest(r: Recipes, g: Dag, ds: seq<string>, i: nat, h: nat): seq<Tree>
    requires Measured(g) && i <= |ds| && Below(g, ds, h)
    decreases h, i
  {
    if i == 0 then []
    else
      assert BelowAt(g, ds, h, ds[i - 1]);
      Forest(r, g, ds, i - 1, h) + [DepTree(r, g, ds[i - 1])]
  }

  lemma {:induction false} ForestAt(r: Recipes, g: Dag, ds: seq<string>, i: nat, h: nat, j: int)
    requires Measured(g) && i <= |ds| && Below(g, ds, h)
    ensures |Forest(r, g, ds, i, h)| == i
    ensures 0 <= j < i ==> Forest(r, g, ds, i, h)[j] == DepTree(r, g, ds[j])
  {
    if i > 0 {
      ForestAt(r, g, ds, i - 1, h, j);
    }
  }

  /** The tree of a recipe shows its package name and version, and its dependencies in their order. */
  lemma TreeShows(r: Recipes, g: Dag, n: string)
    requires Measured(g) && n in r
    ensures var t := DepTree(r, g, n);
            && t.name == r[n].pn && t.version == r[n].pv && |t.children| == |Deps(g.edges, n)|
            && forall j :: 0 <= j < |t.children| ==> t.children[j] == DepTree(r, g, Deps(g.edges, n)[j])
  {
    ChildAt(r, g, n, 0);
    forall j | 0 <= j < |Deps(g.edges, n)|
      ensures DepTree(r, g, n).children[j] == DepTree(r, g, Deps(g.edges, n)[j])
    {
      ChildAt(r, g, n, j);
    }
  }

  lemma ChildAt(r: Recipes, g: Dag, n: string, j: int)
    requires Measured(g)
    ensures |DepTree(r, g, n).children| == |Deps(g.edges, n)|
    ensures 0 <= j < |Deps(g.edges, n)| ==> DepTree(r, g, n).children[j] == DepTree(r, g, Deps(g.edges, n)[j])
  {
    DepsBelow(g, n);
    ForestAt(r, g, Deps(g.edges, n), |Deps(g.edges, n)|, g.rank(n), j);
  }

  ghost predicate IsPath(t: Tree, p: seq<string>)
    decreases p
  {
    && p != [] && p[0] == t.name
    && (|p| == 1 || exists i :: 0 <= i < |t.children| && IsPath(t.children[i], p[1..]))
  }

  function Labels(r: Recipes, w: seq<string>): seq<string> {
    seq(|w|, i requires 0 <= i < |w| => Label(r, w[i]))
  }

  /** The paths of the tree are the labels of the walks from its root: all of them and nothing else. */
  lemma PathsAreWalks(r: Recipes, g: Dag, n: string, p: seq<string>)
    requires Measured(g)
    ensures IsPath(DepTree(r, g, n), p) <==> exists w :: WalkFrom(g.edges, n, w) && Labels(r, w) == p
  {
    if IsPath(DepTree(r, g, n), p) {
      var w := PathIsWalk(r, g, n, p);
    }
    if w :| WalkFrom(g.edges, n, w) && Labels(r, w) == p {
      WalkIsPath(r, g, n, w);
    }
  }

  lemma FirstStep(r: Recipes, g: Dag, n: string, p: seq<string>) returns (d: string)
    requires Measured(g) && IsPath(DepTree(r, g, n), p) && |p| > 1
    ensures d in Deps(g.edges, n) && IsPath(DepTree(r, g, d), p[1..])
  {
    var t := DepTree(r, g, n);
    var i :| 0 <= i < |t.children| && IsPath(t.children[i], p[1..]);
    ChildAt(r, g, n, i);
    d := Deps(g.edges, n)[i];
  }

  lemma LabelsFromFront(r: Recipes, n: string, tail: seq<string>)
    ensures Labels(r, [n] + tail) == [Label(r, n)] + Labels(r, tail)
  {
  }

  lemma {:induction false} PathIsWalk(r: Recipes, g: Dag, n: string, p: seq<string>) returns (w: seq<string>)
    requires Measured(g) && IsPath(DepTree(r, g, n), p)
    ensures WalkFrom(g.edges, n, w) && Labels(r, w) == p
    decreases |p|
  {
    var tail := [];
    if |p| > 1 {
      var d := FirstStep(r, g, n, p);
      tail := PathIsWalk(r, g, d, p[1..]);
      WalkExtends(g.edges, n, tail);
    }
    w := [n] + tail;
    LabelsFromFront(r, n, tail);
    assert p == [p[0]] + p[1..];
  }

  lemma {:induction false} WalkIsPath(r: Recipes, g: Dag, n: string, w: seq<string>)
    requires Measured(g) && WalkFrom(g.edges, n, w)
    ensures IsPath(DepTree(r, g, n), Labels(r, w))
    decreases |w|
  {
    if |w| > 1 {
      WalkShortens(g.edges, w);
      WalkIsPath(r, g, w[1], w[1..]);
      assert Labels(r, w)[1..] == Labels(r, w[1..]);
      var i :| 0 <= i < |Deps(g.edges, n)| && Deps(g.edges, n)[i] == w[1];
      ChildAt(r, g, n, i);
      assert IsPath(DepTree(r, g, n).children[i], Labels(r, w)[1..]);
    }
  }

  ghost predicate CleanRecipes(r: Recipes) {
    forall n :: n in r ==> '\n' !in r[n].pn && '\n' !in r[n].pv
  }

  lemma {:induction false} DepTreeIsClean(r: Recipes, g: Dag, n: string)
    requires Measured(g) && CleanRecipes(r)
    ensures Clean(DepTree(r, g, n))
    decreases g.rank(n)
  {
    var t := DepTree(r, g, n);
    ChildAt(r, g, n, 0);
    forall c | c in t.children ensures Clean(c) {
      var i :| 0 <= i < |t.children| && t.children[i] == c;
      ChildAt(r, g, n, i);
      assert DropsAt(g, n, Deps(g.edges, n)[i]);
      DepTreeIsClean(r, g, Deps(g.edges, n)[i]);
    }
  }
}
