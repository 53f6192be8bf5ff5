/** Expanding `{ all: true, nested: true }` over the associations of a model. */
module IncludeAll {
  type ModelName = nat

  /** `wanted`: of one of the requested types, and not the hidden half of a many-to-many association. */
  datatype Association = Association(name: nat, target: ModelName, wanted: bool)

  type Graph = map<ModelName, seq<Association>>

  datatype Include = Include(association: Association, nested: seq<Include>)

  predicate Closed(g: Graph) {
    forall m, a :: m in g && a in g[m] ==> a.target in g
  }

  predicate Has(list: seq<Include>, a: Association) {
    exists x :: x in list && x.association == a
  }

  function Visited(models: seq<ModelName>): set<ModelName> {
    set m | m in models
  }

  /** The includes added to `list` for the associations `todo` of `parent`. */
  function Added(g: Graph, nested: bool, parent: ModelName, visited: seq<ModelName>,
                 todo: seq<Association>, list: seq<Include>): seq<Include>
    requires Closed(g) && parent in g && forall a :: a in todo ==> a in g[parent]
    decreases |g.Keys - Visited(visited)|, if parent in visited then 1 else 0, |todo|
  {
    if todo == [] then list
    else
      var a := todo[0];
      if Skipped(nested, visited, a, list) then Added(g, nested, parent, visited, todo[1..], list)
      else
        var x := Include(a, if nested then
                              assert g.Keys - Visited(visited + [parent]) == g.Keys - Visited(visited) - {parent};
                              Added(g, nested, a.target, visited + [parent], g[a.target], [])
                            else []);
        Added(g, nested, parent, visited, todo[1..], list + [x])
  }

  predicate Skipped(nested: bool, visited: seq<ModelName>, a: Association, list: seq<Include>) {
    !a.wanted || Has(list, a) || (nested && a.target in visited)
  }

  /** `addAllIncludes`. It ends on every finite graph, whatever its cycles. */
  method AddAllIncludes(g: Graph, nested: bool, parent: ModelName, visited: seq<ModelName>, includes: seq<Include>)
    returns (list: seq<Include>)
    requires Closed(g) && parent in g
    ensures list == Added(g, nested, parent, visited, g[parent], includes)
    decreases |g.Keys - Visited(visited)|, if parent in visited then 1 else 0
  {
    list := includes;
    var visitedModels := visited;
    for k := 0 to |g[parent]|
      invariant visitedModels == visited
      invariant Added(g, nested, parent, visited, g[parent], includes) ==
                Added(g, nested, parent, visited, g[parent][k..], list)
    {
      var a := g[parent][k];
      assert g[parent][k..][0] == a && g[parent][k..][1..] == g[parent][k + 1..];
      if !a.wanted || Has(list, a) || (nested && a.target in visitedModels) {
        continue;
      }
      var subIncludes := [];
      if nested {
        visitedModels := visitedModels + [parent];
        assert g.Keys - Visited(visitedModels) == g.Keys - Visited(visited) - {parent};
        subIncludes := AddAllIncludes(g, nested, a.target, visitedModels, []);
        visitedModels := visitedModels[..|visitedModels| - 1];
      }
      list := list + [Include(a, subIncludes)];
    }
  }

  // ----- what is included -----

  predicate Present(list: seq<Include>, path: seq<Association>)
    requires path != []
    decreases |path|
  {
    exists x :: x in list && x.association == path[0] && (|path| == 1 || Present(x.nested, path[1..]))
  }

  /** The models a path goes through, its start included. */
  function ModelAt(parent: ModelName, path: seq<Association>, i: nat): ModelName
    requires i <= |path|
  {
    if i == 0 then parent else path[i - 1].target
  }

  /** A path of wanted associations that meets no visited model, and no model of its own again except the
      one it has just come from. */
  predicate Allowed(g: Graph, parent: ModelName, visited: seq<ModelName>, path: seq<Association>) {
    && (forall i :: 0 <= i < |path| ==>
          var m := ModelAt(parent, path, i); m in g && path[i] in g[m] && path[i].wanted && path[i].target !in visited)
    && (forall i, j :: 0 <= i && i + 2 <= j <= |path| ==> ModelAt(parent, path, i) != ModelAt(parent, path, j))
  }

  lemma {:induction false} AllowedStep(g: Graph, parent: ModelName, visited: seq<ModelName>, path: seq<Association>)
    requires Closed(g) && parent in g && |path| > 1
    ensures Allowed(g, parent, visited, path) <==>
            && path[0] in g[parent] && path[0].wanted && path[0].target !in visited
            && Allowed(g, path[0].target, visited + [parent], path[1..])
  {
    var m, rest := path[0].target, path[1..];
    assert forall i :: 0 <= i <= |rest| ==> ModelAt(m, rest, i) == ModelAt(parent, path, i + 1);
    if Allowed(g, parent, visited, path) {
      forall i | 0 <= i < |rest|
        ensures var n := ModelAt(m, rest, i);
                n in g && rest[i] in g[n] && rest[i].wanted && rest[i].target !in visited + [parent]
      {
        assert ModelAt(parent, path, i + 1) == ModelAt(m, rest, i) && path[i + 1] == rest[i];
        assert ModelAt(parent, path, 0) != ModelAt(parent, path, i + 2);
      }
    }
    if path[0] in g[parent] && path[0].wanted && path[0].target !in visited && Allowed(g, m, visited + [parent], rest) {
      forall i | 0 <= i < |path|
        ensures var n := ModelAt(parent, path, i);
                n in g && path[i] in g[n] && path[i].wanted && path[i].target !in visited
      {
        if i > 0 { assert path[i] == rest[i - 1] && ModelAt(m, rest, i - 1) == ModelAt(parent, path, i); }
      }
      forall i, j | 0 <= i && i + 2 <= j <= |path| ensures ModelAt(parent, path, i) != ModelAt(parent, path, j) {
        if i == 0 {
          assert rest[j - 2].target !in visited + [parent];
        } else {
          assert ModelAt(m, rest, i - 1) != ModelAt(m, rest, j - 1);
        }
      }
    }
  }

  lemma AllowedStart(g: Graph, parent: ModelName, visited: seq<ModelName>, path: seq<Association>)
    requires parent in g && path != []
    ensures Allowed(g, parent, visited, path) ==>
              path[0] in g[parent] && path[0].wanted && path[0].target !in visited
    ensures |path| == 1 ==>
              (Allowed(g, parent, visited, path) <==>
               path[0] in g[parent] && path[0].wanted && path[0].target !in visited)
  {
    assert ModelAt(parent, path, 0) == parent;
  }

  /** Nested expansion includes, besides what was there, exactly the allowed paths. */
  lemma {:induction false} ExactlyTheAllowedPaths(g: Graph, parent: ModelName, visited: seq<ModelName>,
                                                  todo: seq<Association>, list: seq<Include>, path: seq<Association>)
    requires Closed(g) && parent in g && path != [] && forall a :: a in todo ==> a in g[parent]
    ensures Present(Added(g, true, parent, visited, todo, list), path) <==>
            Present(list, path) || (path[0] in todo && !Has(list, path[0]) && Allowed(g, parent, visited, path))
    decreases |g.Keys - Visited(visited)|, if parent in visited then 1 else 0, |todo|
  {
    hide Allowed;
    if todo != [] {
      var a := todo[0];
      AllowedStart(g, parent, visited, path);
      if Skipped(true, visited, a, list) {
        ExactlyTheAllowedPaths(g, parent, visited, todo[1..], list, path);
      } else {
        assert g.Keys - Visited(visited + [parent]) == g.Keys - Visited(visited) - {parent};
        var sub := Added(g, true, a.target, visited + [parent], g[a.target], []);
        var x := Include(a, sub);
        ExactlyTheAllowedPaths(g, parent, visited, todo[1..], list + [x], path);
        PresentConcat(list, x, path);
        if path[0] == a && |path| > 1 {
          ExactlyTheAllowedPaths(g, a.target, visited + [parent], g[a.target], [], path[1..]);
          AllowedStep(g, parent, visited, path);
          assert !Present([], path[1..]);
          AllowedStart(g, a.target, visited + [parent], path[1..]);
        }
        assert Has(list + [x], path[0]) <==> Has(list, path[0]) || path[0] == a by {
          assert x in list + [x];
        }
      }
    }
  }

  lemma {:induction false} PresentConcat(list: seq<Include>, x: Include, path: seq<Association>)
    requires path != []
    ensures Present(list + [x], path) <==>
            Present(list, path) || (x.association == path[0] && (|path| == 1 || Present(x.nested, path[1..])))
  {
  }

  /** Without `nested` exactly the wanted associations of the model itself are added, with nothing below them. */
  lemma {:induction false} PlainAddsOneLevel(g: Graph, parent: ModelName, visited: seq<ModelName>,
                                             todo: seq<Association>, list: seq<Include>, path: seq<Association>)
    requires Closed(g) && parent in g && path != [] && forall a :: a in todo ==> a in g[parent]
    ensures Present(Added(g, false, parent, visited, todo, list), path) <==>
            Present(list, path) || (|path| == 1 && path[0] in todo && path[0].wanted && !Has(list, path[0]))
    decreases |todo|
  {
    if todo != [] {
      var a, x := todo[0], Include(todo[0], []);
      if Skipped(false, visited, a, list) {
        PlainAddsOneLevel(g, parent, visited, todo[1..], list, path);
      } else {
        PlainAddsOneLevel(g, parent, visited, todo[1..], list + [x], path);
        PresentConcat(list, x, path);
        assert Has(list + [x], path[0]) <==> Has(list, path[0]) || path[0] == a by {
          assert x in list + [x];
        }
        if |path| > 1 { assert !Present([], path[1..]); }
      }
    }
  }

  predicate InOrder(s: seq<Association>, todo: seq<Association>) {
    s == [] || (todo != [] && (InOrder(s, todo[1..]) || (s[0] == todo[0] && InOrder(s[1..], todo[1..]))))
  }

  function Names(list: seq<Include>): seq<Association> {
    if list == [] then [] else [list[0].association] + Names(list[1..])
  }

  /** What was there stays first, and what is added follows the order of the associations. */
  lemma {:induction false} AddedInOrder(g: Graph, nested: bool, parent: ModelName, visited: seq<ModelName>,
                                        todo: seq<Association>, list: seq<Include>)
    requires Closed(g) && parent in g && forall a :: a in todo ==> a in g[parent]
    ensures var r := Added(g, nested, parent, visited, todo, list);
            list <= r && InOrder(Names(r[|list|..]), todo)
    decreases |todo|
  {
    if todo != [] {
      var a, r := todo[0], Added(g, nested, parent, visited, todo, list);
      if Skipped(nested, visited, a, list) {
        AddedInOrder(g, nested, parent, visited, todo[1..], list);
      } else {
        var sub := if nested then
                     assert g.Keys - Visited(visited + [parent]) == g.Keys - Visited(visited) - {parent};
                     Added(g, nested, a.target, visited + [parent], g[a.target], [])
                   else [];
        AddedInOrder(g, nested, parent, visited, todo[1..], list + [Include(a, sub)]);
        assert r[|list|..] == [Include(a, sub)] + r[|list| + 1..];
      }
    } else {
      assert list[|list|..] == [];
    }
  }

  /** No list of the expansion names an association twice. */
  predicate NoListRepeats(list: seq<Include>) {
    (forall i, j :: 0 <= i < j < |list| ==> list[i].association != list[j].association) &&
    (forall x :: x in list ==> NoListRepeats(x.nested))
  }

  lemma {:induction false} ExpansionRepeatsNothing(g: Graph, nested: bool, parent: ModelName, visited: seq<ModelName>,
                                                   todo: seq<Association>, list: seq<Include>)
    requires Closed(g) && parent in g && (forall a :: a in todo ==> a in g[parent]) && NoListRepeats(list)
    ensures NoListRepeats(Added(g, nested, parent, visited, todo, list))
    ensures list <= Added(g, nested, parent, visited, todo, list)
    decreases |g.Keys - Visited(visited)|, if parent in visited then 1 else 0, |todo|
  {
    if todo != [] {
      var a := todo[0];
      if Skipped(nested, visited, a, list) {
        ExpansionRepeatsNothing(g, nested, parent, visited, todo[1..], list);
      } else {
        var sub := [];
        if nested {
          assert g.Keys - Visited(visited + [parent]) == g.Keys - Visited(visited) - {parent};
          ExpansionRepeatsNothing(g, nested, a.target, visited + [parent], g[a.target], []);
          sub := Added(g, nested, a.target, visited + [parent], g[a.target], []);
        }
        var x := Include(a, sub);
        assert forall i :: 0 <= i < |list| ==> list[i] in list;
        ExpansionRepeatsNothing(g, nested, parent, visited, todo[1..], list + [x]);
      }
    }
  }

  /** The models at the even places of a path are all different. */
  function EvenModels(parent: ModelName, path: seq<Association>, k: nat): (r: set<ModelName>)
    requires k <= |path| / 2 + 1
  {
    if k == 0 then {} else EvenModels(parent, path, k - 1) + {ModelAt(parent, path, 2 * (k - 1))}
  }

  lemma ModelsDiffer(g: Graph, parent: ModelName, path: seq<Association>, i: nat, j: nat)
    requires Allowed(g, parent, [], path) && i + 2 <= j <= |path|
    ensures ModelAt(parent, path, i) != ModelAt(parent, path, j)
  {
  }

  lemma {:induction false} NotAmongEarlier(g: Graph, parent: ModelName, path: seq<Association>, k: nat, j: nat)
    requires Allowed(g, parent, [], path) && 2 * k <= j <= |path|
    ensures ModelAt(parent, path, j) !in EvenModels(parent, path, k)
  {
    hide Allowed, ModelAt;
    if k > 0 {
      NotAmongEarlier(g, parent, path, k - 1, j);
      ModelsDiffer(g, parent, path, 2 * (k - 1), j);
    }
  }

  lemma {:induction false} PathStaysInGraph(g: Graph, parent: ModelName, path: seq<Association>, i: nat)
    requires Closed(g) && parent in g && Allowed(g, parent, [], path) && i <= |path|
    ensures ModelAt(parent, path, i) in g
  {
  }

  lemma {:induction false} EvenModelsDiffer(g: Graph, parent: ModelName, path: seq<Association>, k: nat)
    requires Closed(g) && parent in g && Allowed(g, parent, [], path) && k <= |path| / 2 + 1
    ensures |EvenModels(parent, path, k)| == k && EvenModels(parent, path, k) <= g.Keys
  {
    hide Allowed, ModelAt;
    if k > 0 {
      EvenModelsDiffer(g, parent, path, k - 1);
      NotAmongEarlier(g, parent, path, k - 1, 2 * (k - 1));
      PathStaysInGraph(g, parent, path, 2 * (k - 1));
    }
  }

  /** Every included path goes through at most twice as many models as there are. */
  lemma {:induction false} PathsAreShort(g: Graph, parent: ModelName, path: seq<Association>)
    requires Closed(g) && parent in g && path != []
    requires Present(Added(g, true, parent, [], g[parent], []), path)
    ensures |path| + 1 <= 2 * |g|
  {
    ExactlyTheAllowedPaths(g, parent, [], g[parent], [], path);
    assert !Present([], path);
    var k := |path| / 2 + 1;
    EvenModelsDiffer(g, parent, path, k);
    SubsetIsSmaller(EvenModels(parent, path, k), g.Keys);
  }

  lemma {:induction false} SubsetIsSmaller(a: set<ModelName>, b: set<ModelName>)
    requires a <= b
    ensures |a| <= |b|
  {
    assert b == a + (b - a);
  }
}
