/** Extracting one concrete cycle from a component, by depth-first search. */
module CycleWitness {
  import opened Options
  import opened ImportGraph
  import opened ComponentSearch
  import opened Sorting
  import opened StronglyConnected

  /** `new Set(component)` */
  function Members(component: seq<File>): set<File> {
    set n | n in component
  }

  /** A closed walk inside `c` that repeats only its first file, as its last. */
  ghost predicate IsSimpleCycle(g: Graph, c: set<File>, w: seq<File>) {
    && |w| >= 2
    && IsWalk(g, w)
    && w[0] == w[|w| - 1]
    && Distinct(w[..|w| - 1])
    && forall i :: 0 <= i < |w| ==> w[i] in c
  }

  /** `path` is a walk of distinct files; the other visited files are in `finished`, in the order in
      which their visits ended, and each of them imports from `c` only files finished before it. */
  ghost predicate Searching(g: Graph, c: set<File>, path: seq<File>, visited: set<File>, finished: seq<File>) {
    && Distinct(path)
    && (forall i, j :: 0 <= i < j < |path| && j == i + 1 ==> Edge(g, path[i], path[j]))
    && visited <= c
    && (forall n :: n in visited <==> n in path || n in finished)
    && (forall n :: n in finished ==> n !in path)
    && (forall i, m :: 0 <= i < |finished| && m in c && Edge(g, finished[i], m) ==> m in finished[..i])
  }

  lemma {:induction false} CycleFound(g: Graph, c: set<File>, path: seq<File>, visited: set<File>, finished: seq<File>, k: nat, next: File)
    requires Searching(g, c, path, visited, finished)
    requires k < |path| && path[k] == next && Edge(g, path[|path| - 1], next)
    ensures IsSimpleCycle(g, c, path[k..] + [next])
  {
    hide Edge;
    var w := path[k..] + [next];
    forall i, j | 0 <= i < j < |w| && j == i + 1 ensures Edge(g, w[i], w[j]) {
      assert w[i] == path[k + i];
    }
    assert w[..|w| - 1] == path[k..];
    forall i | 0 <= i < |w| ensures w[i] in c {
      assert w[i] in path;
    }
  }

  lemma {:induction false} PathGrows(g: Graph, c: set<File>, path: seq<File>, visited: set<File>, finished: seq<File>, node: File)
    requires Searching(g, c, path, visited, finished) && node in c && node !in visited
    requires path != [] ==> Edge(g, path[|path| - 1], node)
    ensures Searching(g, c, path + [node], visited + {node}, finished)
  {
    hide Edge;
    var p := path + [node];
    forall n ensures n in visited + {node} <==> n in p || n in finished {
      if n in visited + {node} && n !in finished {
        if n == node {
          assert p[|path|] == node;
        } else {
          assert n in path;
        }
      }
    }
  }

  lemma {:induction false} PathShrinks(g: Graph, c: set<File>, path: seq<File>, visited: set<File>, finished: seq<File>, node: File)
    requires Searching(g, c, path + [node], visited, finished)
    requires forall m :: Edge(g, node, m) && m in c ==> m in finished
    ensures Searching(g, c, path, visited, finished + [node])
  {
    hide Edge;
    var p, f := path + [node], finished + [node];
    assert p[|path|] == node;
    forall i, j | 0 <= i < j < |path| && j == i + 1 ensures Edge(g, path[i], path[j]) {
      assert path[i] == p[i] && path[j] == p[j];
    }
    forall n ensures n in visited <==> n in path || n in f {
      assert n in p <==> n in path || n == node;
      assert n in f <==> n in finished || n == node;
    }
    forall i, j | 0 <= i < j < |path| ensures path[i] != path[j] {
      assert path[i] == p[i] && path[j] == p[j];
    }
    forall i | 0 <= i < |path| ensures path[i] != node {
      assert p[i] == path[i];
    }
    forall i, m | 0 <= i < |f| && m in c && Edge(g, f[i], m) ensures m in f[..i] {
      if i < |finished| {
        assert m in finished[..i];
        assert f[..i] == finished[..i];
      } else {
        assert f[..i] == finished;
      }
    }
  }

  /** The first file to finish imports nothing from `c`. */
  lemma {:induction false} FirstFinished(g: Graph, c: set<File>, path: seq<File>, visited: set<File>, finished: seq<File>)
    requires Searching(g, c, path, visited, finished) && finished != []
    ensures finished[0] in c && forall m :: m in c ==> !Edge(g, finished[0], m)
  {
    assert finished[0] in visited;
    assert finished[..0] == [];
  }

  /** Inside a cyclic component every file imports a file of the component. */
  lemma {:induction false} ComponentImportsItself(g: Graph, component: seq<File>, n: File)
    requires IsCyclicComponent(g, component) && n in component
    ensures exists m :: m in component && Edge(g, n, m)
  {
    hide Reach, Edge;
    var a := component[0];
    if n == a {
      var b :| Edge(g, a, b) && Reach(g, b, a);
      ReachEdge(g, a, b);
      assert b in component;
    } else {
      FirstStep(g, n, a);
      var b :| Edge(g, n, b) && Reach(g, b, a);
      ReachEdge(g, n, b);
      ReachTrans(g, a, n, b);
      assert b in component;
    }
  }

  class WitnessFinder {
    const graph: Graph
    const componentSet: set<File>
    var activePath: seq<File>
    var visited: set<File>
    ghost var finished: seq<File>

    constructor (graph: Graph, component: seq<File>)
      ensures this.graph == graph && componentSet == Members(component)
      ensures activePath == [] && visited == {} && finished == []
    {
      this.graph, componentSet := graph, Members(component);
      activePath, visited, finished := [], {}, [];
    }

    ghost predicate Valid()
      reads this
    {
      Searching(graph, componentSet, activePath, visited, finished)
    }

    /** `activePath.indexOf(next)`, or the length of the path when it is not there. */
    method IndexOf(next: File) returns (k: nat)
      ensures k <= |activePath|
      ensures k < |activePath| ==> activePath[k] == next
      ensures k == |activePath| ==> next !in activePath
    {
      k := 0;
      while k < |activePath| && activePath[k] != next
        invariant k <= |activePath|
        invariant forall i :: 0 <= i < k ==> activePath[i] != next
      {
        k := k + 1;
      }
    }

    method Visit(node: File) returns (result: Option<seq<File>>)
      requires Valid() && node in componentSet && node !in visited
      requires activePath != [] ==> Edge(graph, activePath[|activePath| - 1], node)
      modifies this
      ensures result.Some? ==> IsSimpleCycle(graph, componentSet, result.value)
      ensures result.None? ==> Valid() && activePath == old(activePath) && node in finished
      ensures result.None? ==> old(visited) <= visited && forall n :: n in old(finished) ==> n in finished
      decreases componentSet - visited
    {
      hide Searching, Edge, IsSimpleCycle;
      VisitedInside(graph, componentSet, activePath, visited, finished);
      PathGrows(graph, componentSet, activePath, visited, finished, node);
      activePath := activePath + [node];
      visited := visited + {node};
      var imports := Imports(graph, node);
      for k := 0 to |imports|
        invariant Valid() && activePath == old(activePath) + [node]
        invariant old(visited) + {node} <= visited && forall n :: n in old(finished) ==> n in finished
        invariant forall j :: 0 <= j < k && imports[j] in componentSet ==> imports[j] in finished
      {
        var next := imports[k];
        EdgeAt(graph, node, k);
        if next in componentSet {
          var existingIndex := IndexOf(next);
          if existingIndex < |activePath| {
            CycleFound(graph, componentSet, activePath, visited, finished, existingIndex, next);
            return Some(activePath[existingIndex..] + [next]);
          }
          VisitedInside(graph, componentSet, activePath, visited, finished);
          if next !in visited {
            result := Visit(next);
            if result.Some? {
              return;
            }
          }
        }
      }
      AllImports(graph, node);
      PathShrinks(graph, componentSet, old(activePath), visited, finished, node);
      activePath := activePath[..|activePath| - 1];
      finished := finished + [node];
      result := None;
    }
  }

  lemma {:induction false} EdgeAt(g: Graph, node: File, k: nat)
    requires k < |Imports(g, node)|
    ensures Edge(g, node, Imports(g, node)[k])
  {
  }

  lemma {:induction false} AllImports(g: Graph, node: File)
    ensures forall m :: Edge(g, node, m) ==> exists j :: 0 <= j < |Imports(g, node)| && Imports(g, node)[j] == m
  {
  }

  lemma {:induction false} VisitedInside(g: Graph, c: set<File>, path: seq<File>, visited: set<File>, finished: seq<File>)
    requires Searching(g, c, path, visited, finished)
    ensures visited <= c && forall n :: n in visited <==> n in path || n in finished
  {
  }

  /** `findCycleWitness`.  The fallback to the whole component is taken only when the search finds
      nothing, which a component in which every file imports another of its files rules out. */
  method FindCycleWitness(component: seq<File>, graph: Graph) returns (cycle: seq<File>)
    ensures component == [] || component[0].path == "" ==> cycle == []
    ensures component != [] && component[0].path != ""
            && (forall n :: n in component ==> exists m :: m in component && Edge(graph, n, m))
            ==> IsSimpleCycle(graph, Members(component), cycle)
    ensures IsCyclicComponent(graph, component) && component[0].path != ""
            ==> IsSimpleCycle(graph, Members(component), cycle)
  {
    hide Edge, Reach, Mutual, OnCycle, IsSimpleCycle;
    if component == [] || component[0].path == "" {
      return [];
    }
    var finder := new WitnessFinder(graph, component);
    assert component[0] in component;
    var result := finder.Visit(component[0]);
    cycle := if result.Some? then result.value else component;
    if result.None? {
      FirstFinished(graph, finder.componentSet, [], finder.visited, finder.finished);
      assert exists n :: n in component && forall m :: m in component ==> !Edge(graph, n, m);
    }
    if IsCyclicComponent(graph, component) {
      forall n | n in component ensures exists m :: m in component && Edge(graph, n, m) {
        ComponentImportsItself(graph, component, n);
      }
    }
  }

  /** The whole check: one simple cycle per component, and exit code 0 exactly for an acyclic graph. */
  method CheckImportCycles(graph: Graph, collate: Collation) returns (threw: bool, exitCode: int, cycles: seq<seq<File>>)
    requires ValidGraph(graph)
    ensures threw <==> File("") in Files(graph)
    ensures !threw ==> exitCode == (if exists n :: OnCycle(graph, n) then 1 else 0)
    ensures !threw ==> forall n :: OnCycle(graph, n) ==>
              exists i :: 0 <= i < |cycles| && cycles[i] != [] && Mutual(graph, n, cycles[i][0])
    ensures !threw ==> forall i :: 0 <= i < |cycles| ==> IsSimpleCycle(graph, Members(cycles[i]), cycles[i])
    ensures !threw ==> forall i, j, n :: 0 <= i < j < |cycles| && n in cycles[i] ==> n !in cycles[j]
  {
    hide Edge, Reach, OnCycle, Files;
    exitCode, cycles := 0, [];
    var finder := new SccFinder(graph, collate);
    var ok, components := finder.CollectStronglyConnectedComponents();
    if !ok {
      return true, 1, [];
    }
    threw := false;
    if components == [] {
      return;
    }
    for k := 0 to |components|
      invariant |cycles| == k
      invariant forall i :: 0 <= i < k ==> IsSimpleCycle(graph, Members(components[i]), cycles[i])
    {
      assert components[k][0] != File("") by {
        ComponentInFiles(graph, components[k]);
      }
      var cycle := FindCycleWitness(components[k], graph);
      cycles := cycles + [cycle];
    }
    exitCode := 1;
    CyclesCover(graph, components, cycles);
    CyclesApart(graph, components, cycles);
  }

  lemma {:induction false} ComponentInFiles(g: Graph, component: seq<File>)
    requires IsCyclicComponent(g, component)
    ensures component[0] in Files(g)
  {
    hide Reach;
    var b :| Edge(g, component[0], b) && Reach(g, b, component[0]);
    EdgeInFiles(g, component[0], b);
  }

  lemma {:induction false} CyclesApart(g: Graph, components: seq<seq<File>>, cycles: seq<seq<File>>)
    requires AreComponents(g, components) && |cycles| == |components|
    requires forall i :: 0 <= i < |cycles| ==> IsSimpleCycle(g, Members(components[i]), cycles[i])
    ensures forall i, j, n :: 0 <= i < j < |cycles| && n in cycles[i] ==> n !in cycles[j]
  {
    hide IsCyclicComponent, OnCycle, IsWalk, Distinct;
    forall i, n | 0 <= i < |cycles| && n in cycles[i] ensures n in components[i] {
      assert n in Members(components[i]);
    }
  }

  lemma {:induction false} CyclesCover(g: Graph, components: seq<seq<File>>, cycles: seq<seq<File>>)
    requires AreComponents(g, components) && components != [] && |cycles| == |components|
    requires forall i :: 0 <= i < |cycles| ==> IsSimpleCycle(g, Members(components[i]), cycles[i])
    ensures exists n :: OnCycle(g, n)
    ensures forall n :: OnCycle(g, n) ==>
              exists i :: 0 <= i < |cycles| && cycles[i] != [] && Mutual(g, n, cycles[i][0])
    ensures forall i :: 0 <= i < |cycles| ==> IsSimpleCycle(g, Members(cycles[i]), cycles[i])
  {
    hide Reach, Edge, OnCycle;
    assert OnCycle(g, components[0][0]);
    forall n | OnCycle(g, n)
      ensures exists i :: 0 <= i < |cycles| && cycles[i] != [] && Mutual(g, n, cycles[i][0])
    {
      assert Listed(components, n);
      var i :| 0 <= i < |components| && n in components[i];
      assert cycles[i][0] in components[i];
      MutualTrans(g, n, components[i][0], cycles[i][0]);
    }
  }
}
