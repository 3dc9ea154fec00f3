/** Tarjan's search for the strongly connected components of the import graph. */
module StronglyConnected {
  import opened ImportGraph
  import opened ComponentSearch
  import opened Sorting

  /** `left.localeCompare(right) <= 0`, for some locale. */
  type Collation = (string, string) -> bool

  function Join(lines: seq<string>): string {
    if |lines| == 0 then "" else if |lines| == 1 then lines[0] else lines[0] + "\n" + Join(lines[1..])
  }

  function FileOrder(collate: Collation): (File, File) -> bool {
    (a: File, b: File) => collate(a.path, b.path)
  }

  function CycleSignature(collate: Collation, files: seq<File>): string {
    var sorted := SortBy(FileOrder(collate), files);
    Join(seq(|sorted|, i requires 0 <= i < |sorted| => sorted[i].path))
  }

  /** Larger components first, ties by signature. */
  function ComponentOrder(collate: Collation): (seq<File>, seq<File>) -> bool {
    (a: seq<File>, b: seq<File>) =>
      |a| > |b| || (|a| == |b| && collate(CycleSignature(collate, a), CycleSignature(collate, b)))
  }

  /** The components of `g`: each cyclic class once, and nothing else. */
  ghost predicate AreComponents(g: Graph, components: seq<seq<File>>) {
    && (forall i :: 0 <= i < |components| ==> IsCyclicComponent(g, components[i]))
    && (forall i, j, n :: 0 <= i < j < |components| && n in components[i] ==> n !in components[j])
    && (forall n :: Listed(components, n) <==> OnCycle(g, n))
  }

  /** The members of every component are in order, if the collation orders any two. */
  ghost predicate MembersSorted(collate: Collation, components: seq<seq<File>>) {
    TotalPreorder(collate) ==> forall i :: 0 <= i < |components| ==> Sorted(FileOrder(collate), components[i])
  }

  lemma {:induction false} SortedJoins(collate: Collation, components: seq<seq<File>>, component: seq<File>)
    requires MembersSorted(collate, components)
    ensures MembersSorted(collate, components + [SortBy(FileOrder(collate), component)])
  {
    hide SortBy, Sorted;
    if TotalPreorder(collate) {
      FileOrderTotal(collate);
      SortBySorted(FileOrder(collate), component);
    }
  }

  lemma {:induction false} FileOrderTotal(collate: Collation)
    requires TotalPreorder(collate)
    ensures TotalPreorder(FileOrder(collate))
  {
    var le := FileOrder(collate);
    forall x: File, y: File ensures le(x, y) || le(y, x) {
      assert collate(x.path, y.path) || collate(y.path, x.path);
    }
    forall x: File, y: File, z: File | le(x, y) && le(y, z) ensures le(x, z) {
      assert collate(x.path, y.path) && collate(y.path, z.path);
    }
  }

  lemma {:induction false} MembersPermuted(collate: Collation, a: seq<seq<File>>, b: seq<seq<File>>)
    requires MembersSorted(collate, a) && multiset(a) == multiset(b)
    ensures MembersSorted(collate, b)
  {
    hide Sorted, FileOrder;
    SameElements(a, b);
    if TotalPreorder(collate) {
      forall i | 0 <= i < |b| ensures Sorted(FileOrder(collate), b[i]) {
        assert b[i] in a;
        var j :| 0 <= j < |a| && a[j] == b[i];
      }
    }
  }

  function Min(a: nat, b: nat): nat {
    if b < a then b else a
  }

  /** No file with an empty name has been taken off the stack. */
  ghost predicate Named(s: Search) {
    forall n :: n in s.index && n !in s.onStack ==> n.path != ""
  }

  lemma {:induction false} Opened(g: Graph, s0: Search, active: set<File>, node: File)
    requires Inv(g, s0, active) && Named(s0) && node !in s0.index && node in Files(g)
    requires forall a :: a in active ==> Reach(g, a, node)
    ensures node !in active
    ensures Inv(g, Enter(s0, node), active + {node}) && Named(Enter(s0, node))
    ensures Scanning(g, s0, Enter(s0, node), node, 0) && KeepsLow(s0, Enter(s0, node))
  {
    hide Reach, Files, StackMatches, Explored, Sealed, Chained, Anchored, Reported;
    EnterKeeps(g, s0, active, node);
  }

  lemma {:induction false} NestedStart(g: Graph, s0: Search, s: Search, active: set<File>, node: File, k: nat)
    requires Inv(g, s0, active) && Inv(g, s, active + {node}) && node !in active
    requires Scanning(g, s0, s, node, k) && k < |Imports(g, node)|
    ensures node in s.index && node in s.low && node !in s0.low
    ensures Imports(g, node)[k] in Files(g)
    ensures forall a :: a in active + {node} ==> Reach(g, a, Imports(g, node)[k])
    ensures Files(g) - s.index.Keys < Files(g) - s0.index.Keys
  {
    hide Reach, Files, StackMatches, Explored, Sealed, Chained, Anchored, Reported;
    assert active + {node} - {node} == active;
    NestedMayStart(g, s0, s, active + {node}, node, Imports(g, node)[k]);
  }

  lemma {:induction false} NestedKnown(g: Graph, s0: Search, s: Search, s1: Search, active: set<File>, node: File, next: File)
    requires Inv(g, s1, active) && node in s.index && Visited(g, s, s1, next)
    ensures node in s1.low && node in s1.index && next in s1.low
  {
    hide Reach, Files, StackMatches, Explored, Sealed, Chained, Anchored, Reported;
  }

  lemma {:induction false} NestedDone(g: Graph, s0: Search, s: Search, s1: Search, active: set<File>, node: File, k: nat)
    requires Inv(g, s0, active) && Inv(g, s, active + {node}) && Inv(g, s1, active + {node}) && node !in active
    requires Scanning(g, s0, s, node, k) && k < |Imports(g, node)| && KeepsLow(s0, s) && Named(s1)
    requires Visited(g, s, s1, Imports(g, node)[k])
    requires node in s1.low && Imports(g, node)[k] in s1.low
    ensures Inv(g, Lower(s1, node, s1.low[Imports(g, node)[k]]), active + {node})
    ensures Named(Lower(s1, node, s1.low[Imports(g, node)[k]]))
    ensures Scanning(g, s0, Lower(s1, node, s1.low[Imports(g, node)[k]]), node, k + 1)
    ensures KeepsLow(s0, Lower(s1, node, s1.low[Imports(g, node)[k]]))
  {
    hide Reach, Files, StackMatches, Explored, Sealed, Chained, Anchored, Reported, Visited;
    assert active + {node} - {node} == active;
    NestedKeeps(g, s0, s, s1, active + {node}, node, k);
    NestedKeepsLow(g, s0, s, s1, node, Imports(g, node)[k]);
  }

  lemma {:induction false} MetDone(g: Graph, s0: Search, s: Search, active: set<File>, node: File, k: nat)
    requires Inv(g, s, active) && Scanning(g, s0, s, node, k) && KeepsLow(s0, s) && Named(s)
    requires k < |Imports(g, node)| && Imports(g, node)[k] in s.index && Imports(g, node)[k] in s.onStack
    requires node !in s0.low && node in s.low
    ensures Inv(g, Lower(s, node, s.index[Imports(g, node)[k]]), active)
    ensures Named(Lower(s, node, s.index[Imports(g, node)[k]]))
    ensures Scanning(g, s0, Lower(s, node, s.index[Imports(g, node)[k]]), node, k + 1)
    ensures KeepsLow(s0, Lower(s, node, s.index[Imports(g, node)[k]]))
  {
    hide Inv, Scanning;
    MetKeeps(g, s0, s, active, node, k);
  }

  lemma {:induction false} ReadyToLeave(g: Graph, s0: Search, s: Search, active: set<File>, node: File)
    requires Inv(g, s, active) && Scanning(g, s0, s, node, |Imports(g, node)|)
    ensures StackMatches(s) && node in s.onStack && node in s.index && node in s.low
    ensures s.low[node] <= s.index[node] && s.onStack <= Files(g)
  {
    hide Reach, Files, StackMatches, Explored, Sealed, Chained, Anchored, Reported;
  }

  lemma {:induction false} PopDone(g: Graph, s0: Search, s: Search, s1: Search, active: set<File>, node: File,
                popped: seq<File>, component: seq<File>)
    requires Inv(g, s0, active) && Inv(g, s, active + {node}) && KeepsLow(s0, s) && Named(s)
    requires Scanning(g, s0, s, node, |Imports(g, node)|)
    requires node in s.low && node in s.index && s.low[node] == s.index[node]
    requires Popped(s, s1, node)
    requires Distinct(popped) && forall n :: n in popped <==> n in Above(s, node)
    requires forall n :: n in popped ==> n.path != ""
    requires multiset(component) == multiset(popped)
    requires s1.components == if |popped| > 1 || node in Imports(g, node)
                              then s.components + [component] else s.components
    ensures Inv(g, s1, active) && Visited(g, s0, s1, node) && Named(s1)
  {
    hide Reach, Files, Inv, Scanning, KeepsLow, Visited, Above, StackMatches;
    SameElements(popped, component);
    DistinctPermuted(popped, component);
    PopKeeps(g, s0, s, s1, active, node, component);
  }

  lemma {:induction false} StackDistinct(s: Search)
    requires StackMatches(s)
    ensures Distinct(s.stack) && forall n :: n in s.stack <==> n in s.onStack
  {
  }

  /** In the middle of popping: the popped files are the top of the old stack, in reverse. */
  ghost predicate Popping(s: Search, stack: seq<File>, onStack: set<File>, component: seq<File>) {
    && stack <= s.stack
    && |s.stack| == |stack| + |component|
    && Distinct(s.stack)
    && (forall i :: 0 <= i < |component| ==> component[i] == s.stack[|s.stack| - 1 - i])
    && (forall i :: 0 <= i < |component| ==> component[i].path != "")
    && (forall n :: n in onStack <==> n in stack)
  }

  lemma {:induction false} PopStart(s: Search)
    requires StackMatches(s) && Distinct(s.stack)
    ensures Popping(s, s.stack, s.onStack, [])
    ensures forall n :: n in s.stack ==> n in s.onStack
  {
  }

  lemma {:induction false} PopStep(s: Search, stack: seq<File>, onStack: set<File>, component: seq<File>)
    requires Popping(s, stack, onStack, component) && |stack| > 0
    ensures var top := stack[|stack| - 1];
            && |stack| <= |s.stack| && top in s.stack && top == s.stack[|stack| - 1]
            && (top.path != "" ==> Popping(s, stack[..|stack| - 1], onStack - {top}, component + [top]))
  {
    var top := stack[|stack| - 1];
    var rest := stack[..|stack| - 1];
    forall n ensures n in onStack - {top} <==> n in rest {
      if n in onStack && n != top {
        var i :| 0 <= i < |stack| && stack[i] == n;
        assert rest[i] == n;
      }
    }
  }

  /** The files above a stack position are those from there upwards. */
  lemma {:induction false} AboveAt(s: Search, k: nat, i: nat)
    requires StackMatches(s) && k < |s.stack| && i < |s.stack|
    ensures s.stack[i] in Above(s, s.stack[k]) <==> k <= i
  {
    assert s.stack[i] in s.onStack && s.stack[k] in s.onStack;
  }

  lemma {:induction false} PoppedComponent(s: Search, stack: seq<File>, onStack: set<File>, k: nat, component: seq<File>)
    requires StackMatches(s) && k < |s.stack| && |stack| == k && Popping(s, stack, onStack, component)
    ensures forall n :: n in component <==> n in Above(s, s.stack[k])
  {
    forall i | 0 <= i < |s.stack| ensures s.stack[i] in Above(s, s.stack[k]) <==> k <= i {
      AboveAt(s, k, i);
    }
    forall n | n in Above(s, s.stack[k]) ensures n in component {
      assert n in s.stack;
      var i :| 0 <= i < |s.stack| && s.stack[i] == n;
      assert component[|s.stack| - 1 - i] == n;
    }
  }

  lemma {:induction false} PoppedStack(s: Search, stack: seq<File>, onStack: set<File>, k: nat, component: seq<File>)
    requires StackMatches(s) && k < |s.stack| && |stack| == k && Popping(s, stack, onStack, component)
    ensures onStack == s.onStack - Above(s, s.stack[k])
  {
    forall i | 0 <= i < |s.stack| ensures s.stack[i] in Above(s, s.stack[k]) <==> k <= i {
      AboveAt(s, k, i);
    }
    hide Above;
    forall n ensures n in onStack <==> n in s.onStack && n !in Above(s, s.stack[k]) {
      if n in s.onStack {
        var i :| 0 <= i < |s.stack| && s.stack[i] == n;
        assert i < k ==> stack[i] == n;
      }
    }
  }

  /** Popping down to position `k` takes off exactly the files from there upwards. */
  lemma {:induction false} PoppedAll(s: Search, s1: Search, k: nat, component: seq<File>)
    requires StackMatches(s) && k < |s.stack| && |s1.stack| == k
    requires s1 == s.(stack := s1.stack, onStack := s1.onStack)
    requires Popping(s, s1.stack, s1.onStack, component)
    ensures Popped(s, s1, s.stack[k])
    ensures Distinct(component) && forall n :: n in component <==> n in Above(s, s.stack[k])
    ensures forall n :: n in component ==> n.path != ""
  {
    hide Above;
    PoppedComponent(s, s1.stack, s1.onStack, k, component);
    PoppedStack(s, s1.stack, s1.onStack, k, component);
  }

  lemma {:induction false} StartKeeps(g: Graph, s: Search)
    requires s == Search(0, [], {}, map[], map[], [])
    ensures Inv(g, s, {}) && Named(s)
  {
    hide Files, Edge, Reach;
  }

  lemma {:induction false} KeyIsFile(g: Graph, n: File)
    requires ValidGraph(g) && n in g.keys
    ensures n in Files(g)
  {
  }

  lemma {:induction false} EmptyStack(s: Search)
    requires StackMatches(s)
    ensures s.onStack == {} ==> s.stack == []
  {
    if |s.stack| > 0 {
      assert s.stack[0] in s.onStack;
    }
  }

  /** With no visit under way the stack is empty: everything on it would lead to an active file. */
  lemma {:induction false} StackEmpties(g: Graph, s: Search)
    requires Inv(g, s, {})
    ensures s.stack == [] && s.onStack == {}
  {
    hide Files, Reach, Edge, Indexed, Explored, Sealed, Chained, Reported;
    forall n, a ensures !IsAnchor(g, s, {}, n, a) {
    }
    forall n ensures n !in s.onStack {
    }
    EmptyStack(s);
  }

  lemma {:induction false} RootDone(g: Graph, s0: Search, s: Search, node: File)
    requires Inv(g, s, {}) && Visited(g, s0, s, node)
    ensures s.stack == [] && node in s.index
    ensures forall n :: n in s0.index ==> n in s.index
  {
    hide Inv, LowWitness, LowBound, Bounded;
    StackEmpties(g, s);
  }

  /** When every key was met, every file was, and the components are complete. */
  lemma {:induction false} AllDone(g: Graph, s: Search)
    requires ValidGraph(g) && Inv(g, s, {}) && Named(s) && s.stack == []
    requires forall j :: 0 <= j < |g.keys| ==> g.keys[j] in s.index
    ensures AreComponents(g, s.components) && File("") !in Files(g)
  {
    hide Reach;
    assert s.onStack == {};
    forall n | n in Files(g) ensures n in s.index {
      if n !in g.imports {
        var m :| m in g.imports && n in g.imports[m];
        assert Edge(g, m, n);
      }
    }
    forall n ensures Listed(s.components, n) <==> OnCycle(g, n) {
      if OnCycle(g, n) {
        var b :| Edge(g, n, b) && Reach(g, b, n);
        EdgeInFiles(g, n, b);
      } else if Listed(s.components, n) {
        var i :| 0 <= i < |s.components| && n in s.components[i];
        MemberOnCycle(g, s.components[i], n);
      }
    }
  }

  lemma {:induction false} MemberOnCycle(g: Graph, c: seq<File>, n: File)
    requires IsCyclicComponent(g, c) && n in c
    ensures OnCycle(g, n)
  {
    hide Reach, Edge;
    if n != c[0] {
      FirstStep(g, n, c[0]);
      var b :| Edge(g, n, b) && Reach(g, b, c[0]);
      ReachTrans(g, b, c[0], n);
    }
  }

  lemma {:induction false} ListedPermuted(a: seq<seq<File>>, b: seq<seq<File>>, n: File)
    requires (forall c :: c in a ==> c in b) && Listed(a, n)
    ensures Listed(b, n)
  {
    var i :| 0 <= i < |a| && n in a[i];
    assert a[i] in b;
  }

  lemma {:induction false} ComponentsPermuted(g: Graph, a: seq<seq<File>>, b: seq<seq<File>>)
    requires AreComponents(g, a) && multiset(a) == multiset(b)
    ensures AreComponents(g, b)
  {
    hide OnCycle, IsCyclicComponent, Listed, Distinct;
    SameElements(a, b);
    ComponentsDistinct(g, a);
    DistinctPermuted(a, b);
    forall i | 0 <= i < |b| ensures IsCyclicComponent(g, b[i]) {
      assert b[i] in a;
    }
    forall n ensures Listed(b, n) <==> Listed(a, n) {
      if Listed(b, n) {
        ListedPermuted(b, a, n);
      }
      if Listed(a, n) {
        ListedPermuted(a, b, n);
      }
    }
    forall i, j, n | 0 <= i < j < |b| && n in b[i] ensures n !in b[j] {
      DistinctAt(b, i, j);
      assert b[i] in a && b[j] in a;
    }
  }

  lemma {:induction false} DistinctAt<T>(s: seq<T>, i: nat, j: nat)
    requires Distinct(s) && i < j < |s|
    ensures s[i] != s[j]
  {
  }

  lemma {:induction false} ComponentsDistinct(g: Graph, a: seq<seq<File>>)
    requires AreComponents(g, a)
    ensures Distinct(a)
  {
    hide Mutual, OnCycle, Listed;
    forall i, j | 0 <= i < j < |a| ensures a[i] != a[j] {
      assert a[i][0] in a[i];
    }
  }

  lemma {:induction false} ComponentOrderTotal(collate: Collation)
    requires TotalPreorder(collate)
    ensures TotalPreorder(ComponentOrder(collate))
  {
    hide CycleSignature;
    var le := ComponentOrder(collate);
    forall x: seq<File>, y: seq<File> ensures le(x, y) || le(y, x) {
      assert collate(CycleSignature(collate, x), CycleSignature(collate, y))
          || collate(CycleSignature(collate, y), CycleSignature(collate, x));
    }
    forall x: seq<File>, y: seq<File>, z: seq<File> | le(x, y) && le(y, z) ensures le(x, z) {
      if |x| == |z| {
        assert collate(CycleSignature(collate, x), CycleSignature(collate, y));
        assert collate(CycleSignature(collate, y), CycleSignature(collate, z));
        assert collate(CycleSignature(collate, x), CycleSignature(collate, z));
      }
    }
  }

  /** The paths of some files, one on each line. */
  ghost function Lines(files: seq<File>): string {
    if files == [] then ""
    else if |files| == 1 then files[0].path
    else files[0].path + "\n" + Lines(files[1..])
  }

  lemma {:induction false} LinesAreJoined(files: seq<File>, paths: seq<string>)
    requires |paths| == |files| && forall i :: 0 <= i < |files| ==> paths[i] == files[i].path
    ensures Join(paths) == Lines(files)
  {
    if |files| <= 1 {
    } else {
      LinesAreJoined(files[1..], paths[1..]);
    }
  }

  lemma {:induction false} SignatureIs(collate: Collation, files: seq<File>)
    requires Sorted(FileOrder(collate), files) && TotalPreorder(collate)
    ensures CycleSignature(collate, files) == Lines(files)
  {
    hide Sorted, FileOrder, Join, Lines, TotalPreorder;
    SortSorted(FileOrder(collate), files);
    var sorted := SortBy(FileOrder(collate), files);
    LinesAreJoined(files, seq(|sorted|, i requires 0 <= i < |sorted| => sorted[i].path));
  }

  /** The order of the components and of the files in each, in terms of sizes and paths. */
  lemma {:induction false} OrderMeans(collate: Collation, components: seq<seq<File>>)
    requires TotalPreorder(collate) && MembersSorted(collate, components)
    requires Sorted(ComponentOrder(collate), components)
    ensures forall i, j :: 0 <= i < j < |components| ==>
              || |components[i]| > |components[j]|
              || (|components[i]| == |components[j]| && collate(Lines(components[i]), Lines(components[j])))
    ensures forall i, j, k :: 0 <= i < |components| && 0 <= j < k < |components[i]| ==>
              collate(components[i][j].path, components[i][k].path)
  {
    hide CycleSignature, Lines, TotalPreorder;
    forall i, j | 0 <= i < j < |components|
      ensures || |components[i]| > |components[j]|
              || (|components[i]| == |components[j]| && collate(Lines(components[i]), Lines(components[j])))
    {
      SignatureIs(collate, components[i]);
      SignatureIs(collate, components[j]);
      assert ComponentOrder(collate)(components[i], components[j]);
    }
    forall i, j, k | 0 <= i < |components| && 0 <= j < k < |components[i]|
      ensures collate(components[i][j].path, components[i][k].path)
    {
      assert FileOrder(collate)(components[i][j], components[i][k]);
    }
  }

  class SccFinder {
    const graph: Graph
    const collate: Collation
    var nextIndex: nat
    var stack: seq<File>
    var onStack: set<File>
    var indexByNode: map<File, nat>
    var lowLinkByNode: map<File, nat>
    var components: seq<seq<File>>

    constructor (graph: Graph, collate: Collation)
      ensures this.graph == graph && this.collate == collate
      ensures Snapshot() == Search(0, [], {}, map[], map[], [])
    {
      this.graph, this.collate := graph, collate;
      nextIndex, stack, onStack := 0, [], {};
      indexByNode, lowLinkByNode, components := map[], map[], [];
    }

    ghost function Snapshot(): Search
      reads this
    {
      Search(nextIndex, stack, onStack, indexByNode, lowLinkByNode, components)
    }

    /** The do-while loop: pop until `node` comes off.  `!current` is also true of an empty name,
        which then raises "stack underflow" although the stack is not empty. */
    method PopComponent(node: File) returns (ok: bool, component: seq<File>)
      requires StackMatches(Snapshot()) && node in onStack
      modifies this`stack, this`onStack
      ensures ok ==> Popped(old(Snapshot()), Snapshot(), node)
      ensures ok ==> Distinct(component) && forall n :: n in component <==> n in Above(old(Snapshot()), node)
      ensures ok ==> forall n :: n in component ==> n.path != ""
      ensures !ok ==> File("") in old(onStack)
    {
      ghost var before := Snapshot();
      StackDistinct(before);
      PopStart(before);
      ghost var k: nat :| k < |stack| && stack[k] == node;
      hide StackMatches, Popping, Above, Popped;
      component := [];
      while true
        invariant k < |stack| && Popping(before, stack, onStack, component)
        decreases |stack|
      {
        var current := stack[|stack| - 1];
        PopStep(before, stack, onStack, component);
        stack := stack[..|stack| - 1];
        if current.path == "" {
          return false, component;
        }
        onStack := onStack - {current};
        component := component + [current];
        if current == node {
          PoppedAll(before, Snapshot(), k, component);
          return true, component;
        }
      }
    }

    /** `visit`: `active` are the files whose visits are under way.  Fails only by the "stack underflow"
        error, and only because of a file with an empty name. */
    method Visit(node: File, ghost active: set<File>) returns (ok: bool)
      requires Inv(graph, Snapshot(), active) && Named(Snapshot())
      requires node !in indexByNode && node in Files(graph)
      requires forall a :: a in active ==> Reach(graph, a, node)
      requires MembersSorted(collate, components)
      modifies this
      ensures ok ==> Inv(graph, Snapshot(), active) && Named(Snapshot())
      ensures MembersSorted(collate, components)
      ensures ok ==> Visited(graph, old(Snapshot()), Snapshot(), node)
      ensures !ok ==> File("") in Files(graph)
      decreases Files(graph) - indexByNode.Keys
    {
      hide Files, Inv, Named, Reach, Scanning, KeepsLow, Visited, Above, MembersSorted;
      ghost var s0 := Snapshot();
      Opened(graph, s0, active, node);
      indexByNode := indexByNode[node := nextIndex];
      lowLinkByNode := lowLinkByNode[node := nextIndex];
      nextIndex := nextIndex + 1;
      stack := stack + [node];
      onStack := onStack + {node};
      ghost var now := active + {node};

      var imports := Imports(graph, node);
      for k := 0 to |imports|
        invariant Inv(graph, Snapshot(), now) && Named(Snapshot())
        invariant Scanning(graph, s0, Snapshot(), node, k) && KeepsLow(s0, Snapshot())
        invariant MembersSorted(collate, components)
      {
        var next := imports[k];
        ghost var s := Snapshot();
        NestedStart(graph, s0, s, active, node, k);
        if next !in indexByNode {
          ok := Visit(next, now);
          if !ok {
            return;
          }
          NestedKnown(graph, s0, s, Snapshot(), now, node, next);
          NestedDone(graph, s0, s, Snapshot(), active, node, k);
          lowLinkByNode := lowLinkByNode[node := Min(lowLinkByNode[node], lowLinkByNode[next])];
        } else if next in onStack {
          MetDone(graph, s0, s, now, node, k);
          lowLinkByNode := lowLinkByNode[node := Min(lowLinkByNode[node], indexByNode[next])];
        } else {
          PassedKeeps(graph, s0, s, node, k);
        }
      }

      ghost var s := Snapshot();
      ReadyToLeave(graph, s0, s, now, node);
      if lowLinkByNode[node] != indexByNode[node] {
        LeaveKeeps(graph, s0, s, active, node);
        return true;
      }
      var component;
      ok, component := PopComponent(node);
      if !ok {
        return;
      }
      if |component| > 1 || node in imports {
        SortedJoins(collate, components, component);
        components := components + [SortBy(FileOrder(collate), component)];
      }
      PopDone(graph, s0, s, Snapshot(), active, node, component, SortBy(FileOrder(collate), component));
      ok := true;
    }

    /** `collectStronglyConnectedComponents`, called on a fresh object.  It throws exactly when some
        file has an empty name; otherwise it returns the cyclic classes, largest first. */
    method CollectStronglyConnectedComponents() returns (ok: bool, result: seq<seq<File>>)
      requires ValidGraph(graph) && Snapshot() == Search(0, [], {}, map[], map[], [])
      modifies this
      ensures ok <==> File("") !in Files(graph)
      ensures ok ==> AreComponents(graph, result)
      ensures ok && TotalPreorder(collate) ==> forall i, j :: 0 <= i < j < |result| ==>
                || |result[i]| > |result[j]|
                || (|result[i]| == |result[j]| && collate(Lines(result[i]), Lines(result[j])))
      ensures ok && TotalPreorder(collate) ==> forall i, j, k :: 0 <= i < |result| && 0 <= j < k < |result[i]| ==>
                collate(result[i][j].path, result[i][k].path)
    {
      hide Files, Inv, Named, Reach, Visited;
      result := [];
      StartKeeps(graph, Snapshot());
      for i := 0 to |graph.keys|
        invariant Inv(graph, Snapshot(), {}) && Named(Snapshot())
        invariant stack == [] && MembersSorted(collate, components)
        invariant forall j :: 0 <= j < i ==> graph.keys[j] in indexByNode
      {
        var node := graph.keys[i];
        if node !in indexByNode {
          KeyIsFile(graph, node);
          ghost var s0 := Snapshot();
          ok := Visit(node, {});
          if !ok {
            return;
          }
          RootDone(graph, s0, Snapshot(), node);
        }
      }
      AllDone(graph, Snapshot());
      result := SortBy(ComponentOrder(collate), components);
      ComponentsPermuted(graph, components, result);
      MembersPermuted(collate, components, result);
      if TotalPreorder(collate) {
        ComponentOrderTotal(collate);
        SortBySorted(ComponentOrder(collate), components);
        OrderMeans(collate, result);
      }
      ok := true;
    }
  }
}
