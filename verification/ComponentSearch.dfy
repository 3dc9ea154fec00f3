/** The bookkeeping of the component search, and what every step of it keeps. */
module ComponentSearch {
  import opened ImportGraph
  import opened Sorting

  /** The variables the search shares between its recursive calls. */
  datatype Search = Search(
    nextIndex: nat,
    stack: seq<File>,
    onStack: set<File>,
    index: map<File, nat>,
    low: map<File, nat>,
    components: seq<seq<File>>)

  // ---------- the invariant ----------

  /** `onStack` is the content of `stack`; indices grow along it, so it holds no file twice. */
  ghost predicate StackMatches(s: Search) {
    && (forall i :: 0 <= i < |s.stack| ==> s.stack[i] in s.onStack && s.stack[i] in s.index)
    && (forall n :: n in s.onStack ==> n in s.stack)
    && (forall i, j | 0 <= i < j < |s.stack| && s.stack[i] in s.index && s.stack[j] in s.index ::
          s.index[s.stack[i]] < s.index[s.stack[j]])
  }

  /** Every met file has an index and a low link, all indices differ, active files are on the stack. */
  ghost predicate Indexed(g: Graph, s: Search, active: set<File>) {
    && (forall n :: n in s.index <==> n in s.low)
    && s.index.Keys <= Files(g)
    && s.onStack <= s.index.Keys
    && active <= s.onStack
    && (forall n :: n in s.index ==> s.index[n] < s.nextIndex)
    && (forall n, m :: n in s.index && m in s.index && s.index[n] == s.index[m] ==> n == m)
  }

  /** A file whose visit has ended imports only files that were already met. */
  ghost predicate Explored(g: Graph, s: Search, active: set<File>) {
    forall n, m :: n in s.index && n !in active && Edge(g, n, m) ==> m in s.index
  }

  /** Files taken off the stack import only files taken off the stack. */
  ghost predicate Sealed(g: Graph, s: Search) {
    forall n, m :: n in s.index && n !in s.onStack && Edge(g, n, m) ==> m in s.index && m !in s.onStack
  }

  /** Every file on the stack reaches all files above it. */
  ghost predicate Chained(g: Graph, s: Search) {
    forall n, m | n in s.onStack && m in s.onStack && n in s.index && m in s.index ::
      s.index[n] <= s.index[m] ==> Reach(g, n, m)
  }

  /** Every file on the stack reaches an active file at or below it. */
  ghost predicate Anchored(g: Graph, s: Search, active: set<File>) {
    forall n :: n in s.onStack ==> exists a :: IsAnchor(g, s, active, n, a)
  }

  ghost predicate IsAnchor(g: Graph, s: Search, active: set<File>, n: File, a: File) {
    a in active && a in s.index && n in s.index && s.index[a] <= s.index[n] && Reach(g, n, a)
  }

  /** A whole class of mutually reachable files that lie on a cycle, listed without repetition. */
  ghost predicate IsCyclicComponent(g: Graph, c: seq<File>) {
    && |c| > 0
    && Distinct(c)
    && (forall n :: n in c <==> Mutual(g, c[0], n))
    && OnCycle(g, c[0])
  }

  ghost predicate Listed(components: seq<seq<File>>, n: File) {
    exists i :: 0 <= i < |components| && n in components[i]
  }

  /** The components so far are exactly the cyclic classes among the files taken off the stack. */
  ghost predicate Reported(g: Graph, s: Search) {
    && (forall i :: 0 <= i < |s.components| ==> IsCyclicComponent(g, s.components[i]))
    && (forall i, j, n :: 0 <= i < j < |s.components| && n in s.components[i] ==> n !in s.components[j])
    && (forall n :: Listed(s.components, n) ==> n in s.index && n !in s.onStack)
    && (forall n :: n in s.index && n !in s.onStack && OnCycle(g, n) ==> Listed(s.components, n))
  }

  ghost predicate Inv(g: Graph, s: Search, active: set<File>) {
    && StackMatches(s)
    && Indexed(g, s, active)
    && Explored(g, s, active)
    && Sealed(g, s)
    && Chained(g, s)
    && Anchored(g, s, active)
    && Reported(g, s)
  }

  // ---------- what a visit does ----------

  /** Nothing already known is forgotten; only new files are put on the stack, and no old one leaves it. */
  ghost predicate Extends(s0: Search, s: Search) {
    && (forall n :: n in s0.index ==> n in s.index && s.index[n] == s0.index[n])
    && (forall n :: n in s0.onStack ==> n in s.onStack)
    && (forall n :: n in s.onStack && n in s0.index ==> n in s0.onStack)
    && (forall n :: n in s.index && n !in s0.index ==> s0.nextIndex <= s.index[n])
    && s0.nextIndex <= s.nextIndex
  }

  ghost predicate KeepsLow(s0: Search, s: Search) {
    forall n :: n in s0.low ==> n in s.low && s.low[n] == s0.low[n]
  }

  /** `low[node]` is the index of a file on the stack that `node` reaches. */
  ghost predicate LowWitness(g: Graph, s: Search, node: File) {
    exists y :: IsLowWitness(g, s, node, y)
  }

  ghost predicate IsLowWitness(g: Graph, s: Search, node: File, y: File) {
    y in s.onStack && y in s.index && node in s.low && s.index[y] == s.low[node] && Reach(g, node, y)
  }

  /** An import of `n` that is still on the stack is not below `low[node]`. */
  ghost predicate Bounded(g: Graph, s: Search, node: File, n: File) {
    forall m :: Edge(g, n, m) && m in s.onStack && m in s.index && node in s.low ==> s.low[node] <= s.index[m]
  }

  /** No import from a file above `node` on the stack goes below `low[node]`. */
  ghost predicate LowBound(g: Graph, s: Search, node: File) {
    forall n | n in s.onStack && n in s.index && node in s.index ::
      s.index[node] < s.index[n] ==> Bounded(g, s, node, n)
  }

  /** The first `k` imports of `node` were met, and `low[node]` accounts for them. */
  ghost predicate ImportsDone(g: Graph, s: Search, node: File, k: nat) {
    forall j :: 0 <= j < k && j < |Imports(g, node)| ==> ImportDone(s, node, Imports(g, node)[j])
  }

  ghost predicate ImportDone(s: Search, node: File, m: File) {
    m in s.index && (m in s.onStack && node in s.low ==> s.low[node] <= s.index[m])
  }

  /** Between two imports of `node`, in a visit that started from `s0`. */
  ghost predicate Scanning(g: Graph, s0: Search, s: Search, node: File, k: nat) {
    && Extends(s0, s)
    && node !in s0.index && node in s.index && node in s.low && node in s.onStack
    && s.index[node] == s0.nextIndex
    && s.low[node] <= s.index[node]
    && LowWitness(g, s, node)
    && LowBound(g, s, node)
    && ImportsDone(g, s, node, k)
  }

  /** The effect of a finished visit of `node`: it either left the stack as it found it, or left
      `node` on it because `node` leads to something older. */
  ghost predicate Visited(g: Graph, s0: Search, s: Search, node: File) {
    && Extends(s0, s)
    && KeepsLow(s0, s)
    && node !in s0.index && node in s.index && node in s.low
    && s.index[node] == s0.nextIndex
    && if node in s.onStack then
         && s.low[node] < s.index[node]
         && LowWitness(g, s, node)
         && LowBound(g, s, node)
         && Bounded(g, s, node, node)
       else
         s.onStack == s0.onStack && s.low[node] == s.index[node]
  }

  /** The active files lie on the stack, none of them above `node`. */
  ghost predicate ActiveBelow(s: Search, active: set<File>, node: File) {
    node in s.index && forall a :: a in active ==> a in s.onStack && a in s.index && s.index[a] <= s.index[node]
  }

  lemma {:induction false} ActiveIsBelow(g: Graph, s0: Search, s: Search, active: set<File>, node: File)
    requires Indexed(g, s0, active - {node}) && Extends(s0, s) && node in s.onStack && node in s.index
    requires s0.nextIndex <= s.index[node]
    ensures ActiveBelow(s, active, node)
  {
    hide Files;
  }

  // ---------- opening a file ----------

  function Enter(s: Search, node: File): Search {
    s.(nextIndex := s.nextIndex + 1,
       stack := s.stack + [node],
       onStack := s.onStack + {node},
       index := s.index[node := s.nextIndex],
       low := s.low[node := s.nextIndex])
  }

  lemma {:induction false} EnterBooks(g: Graph, s0: Search, active: set<File>, node: File)
    requires StackMatches(s0) && Indexed(g, s0, active) && node !in s0.index && node in Files(g)
    ensures StackMatches(Enter(s0, node)) && Indexed(g, Enter(s0, node), active + {node})
  {
    hide Files;
    var s := Enter(s0, node);
    forall n | n in s.onStack ensures n in s.stack {
      if n in s0.onStack {
        assert n in s0.stack;
      } else {
        assert s.stack[|s0.stack|] == node;
      }
    }
  }

  lemma {:induction false} EnterChained(g: Graph, s0: Search, active: set<File>, node: File)
    requires Indexed(g, s0, active) && Chained(g, s0) && Anchored(g, s0, active) && node !in s0.index
    requires forall a :: a in active ==> Reach(g, a, node)
    ensures Chained(g, Enter(s0, node))
  {
    hide Reach;
    var s := Enter(s0, node);
    forall n, m | n in s.onStack && m in s.onStack && s.index[n] <= s.index[m] ensures Reach(g, n, m) {
      if n == node {
        ReachRefl(g, node);
      } else if m == node {
        var a :| IsAnchor(g, s0, active, n, a);
        ReachTrans(g, n, a, node);
      }
    }
  }

  lemma {:induction false} EnterAnchored(g: Graph, s0: Search, active: set<File>, node: File)
    requires Anchored(g, s0, active) && node !in s0.index
    ensures Anchored(g, Enter(s0, node), active + {node})
  {
    hide Reach;
    var s := Enter(s0, node);
    forall n | n in s.onStack ensures exists a :: IsAnchor(g, s, active + {node}, n, a) {
      if n in s0.onStack {
        var a :| IsAnchor(g, s0, active, n, a);
        assert IsAnchor(g, s, active + {node}, n, a);
      } else {
        ReachRefl(g, node);
        assert IsAnchor(g, s, active + {node}, node, node);
      }
    }
  }

  lemma {:induction false} EnterClosed(g: Graph, s0: Search, active: set<File>, node: File)
    requires Indexed(g, s0, active) && Explored(g, s0, active) && Sealed(g, s0) && node !in s0.index
    ensures Explored(g, Enter(s0, node), active + {node}) && Sealed(g, Enter(s0, node))
  {
    hide Edge, Files;
  }

  lemma {:induction false} EnterReported(g: Graph, s0: Search, active: set<File>, node: File)
    requires Indexed(g, s0, active) && Reported(g, s0) && node !in s0.index
    ensures Reported(g, Enter(s0, node))
  {
    hide OnCycle, IsCyclicComponent, Listed, Files;
  }

  lemma {:induction false} EnterScanning(g: Graph, s0: Search, active: set<File>, node: File)
    requires Indexed(g, s0, active) && node !in s0.index
    ensures Scanning(g, s0, Enter(s0, node), node, 0)
  {
    hide Reach;
    var s := Enter(s0, node);
    ReachRefl(g, node);
    assert IsLowWitness(g, s, node, node);
  }

  /** Opening a file that every active file reaches. */
  lemma {:induction false} EnterKeeps(g: Graph, s0: Search, active: set<File>, node: File)
    requires Inv(g, s0, active) && node !in s0.index && node in Files(g)
    requires forall a :: a in active ==> Reach(g, a, node)
    ensures Inv(g, Enter(s0, node), active + {node})
    ensures Scanning(g, s0, Enter(s0, node), node, 0)
  {
    hide Reach, StackMatches, Indexed, Explored, Sealed, Chained, Anchored, Reported, Scanning;
    EnterBooks(g, s0, active, node);
    EnterChained(g, s0, active, node);
    EnterAnchored(g, s0, active, node);
    EnterClosed(g, s0, active, node);
    EnterReported(g, s0, active, node);
    EnterScanning(g, s0, active, node);
  }

  // ---------- one import ----------

  /** `lowLinkByNode.set(node, Math.min(lowLinkByNode.get(node)!, v))` */
  function Lower(s: Search, node: File, v: nat): Search
    requires node in s.low
  {
    s.(low := s.low[node := if v < s.low[node] then v else s.low[node]])
  }

  lemma {:induction false} LowerReach(g: Graph, s: Search, active: set<File>, node: File, v: nat)
    requires Chained(g, s) && Anchored(g, s, active) && Reported(g, s) && node in s.low
    ensures Chained(g, Lower(s, node, v)) && Anchored(g, Lower(s, node, v), active)
    ensures Reported(g, Lower(s, node, v))
  {
    hide Reach, Edge, OnCycle, IsCyclicComponent, Listed;
    assert forall n, a :: IsAnchor(g, s, active, n, a) ==> IsAnchor(g, Lower(s, node, v), active, n, a);
  }

  lemma {:induction false} LowerKeeps(g: Graph, s: Search, active: set<File>, node: File, v: nat)
    requires Inv(g, s, active) && node in s.low
    ensures Inv(g, Lower(s, node, v), active)
  {
    hide Reach, Edge, OnCycle, IsCyclicComponent, Listed, Files, Chained, Anchored, Reported;
    LowerReach(g, s, active, node, v);
  }

  lemma {:induction false} ExtendsTrans(s0: Search, s: Search, s1: Search)
    requires Extends(s0, s) && Extends(s, s1)
    ensures Extends(s0, s1)
  {
  }

  /** What is still on the stack after a nested visit and was met before it was on the stack before it. */
  lemma {:induction false} BoundedBefore(g: Graph, s: Search, s1: Search, active: set<File>, node: File, n: File)
    requires Extends(s, s1) && Explored(g, s, active) && n in s.index && n !in active
    requires node in s.low && node in s1.low && s1.low[node] <= s.low[node]
    requires Bounded(g, s, node, n)
    ensures Bounded(g, s1, node, n)
  {
    hide Edge;
  }

  /** A nested visit may be made: its file is known, every active file reaches it, and fewer files are unmet. */
  lemma {:induction false} NestedMayStart(g: Graph, s0: Search, s: Search, active: set<File>, node: File, next: File)
    requires Indexed(g, s0, active - {node}) && Inv(g, s, active) && node in active
    requires Extends(s0, s) && node !in s0.index && node in s.onStack && node in s.index
    requires s0.nextIndex <= s.index[node] && Edge(g, node, next)
    ensures next in Files(g)
    ensures forall a :: a in active ==> Reach(g, a, next)
    ensures Files(g) - s.index.Keys < Files(g) - s0.index.Keys
  {
    hide Reach, Files, Edge, StackMatches, Explored, Sealed, Anchored, Reported;
    EdgeInFiles(g, node, next);
    ReachEdge(g, node, next);
    ActiveIsBelow(g, s0, s, active, node);
    forall a | a in active ensures Reach(g, a, next) {
      ReachTrans(g, a, node, next);
    }
    assert node in Files(g) - s0.index.Keys;
  }

  lemma {:induction false} NestedKeepsLow(g: Graph, s0: Search, s: Search, s1: Search, node: File, next: File)
    requires KeepsLow(s0, s) && Visited(g, s, s1, next) && node !in s0.low && node in s1.low
    ensures KeepsLow(s0, Lower(s1, node, s1.low[next]))
  {
    hide Extends;
  }

  lemma {:induction false} NestedWitness(g: Graph, s: Search, s1: Search, node: File, next: File)
    requires Extends(s, s1) && KeepsLow(s, s1) && node in s.low && node in s.index && node in s.onStack
    requires s.low[node] <= s.index[node] && s.index[node] < s.nextIndex
    requires LowWitness(g, s, node) && Visited(g, s, s1, next) && Edge(g, node, next)
    ensures LowWitness(g, Lower(s1, node, s1.low[next]), node)
  {
    hide Reach, Edge, LowBound, Bounded;
    var s2 := Lower(s1, node, s1.low[next]);
    if s1.low[next] < s.low[node] {
      var y :| IsLowWitness(g, s1, next, y);
      ReachEdge(g, node, next);
      ReachTrans(g, node, next, y);
      assert IsLowWitness(g, s2, node, y);
    } else {
      var y :| IsLowWitness(g, s, node, y);
      assert IsLowWitness(g, s2, node, y);
    }
  }

  lemma {:induction false} NestedLowBound(g: Graph, s: Search, s1: Search, active: set<File>, node: File, next: File)
    requires Extends(s, s1) && KeepsLow(s, s1) && node in s.low && node in s.index
    requires Indexed(g, s, active) && Indexed(g, s1, active) && Explored(g, s, active)
    requires ActiveBelow(s, active, node)
    requires LowBound(g, s, node) && Visited(g, s, s1, next)
    ensures LowBound(g, Lower(s1, node, s1.low[next]), node)
  {
    hide Reach, Edge, LowWitness, Files, Explored;
    var s2 := Lower(s1, node, s1.low[next]);
    forall n | n in s2.onStack && s2.index[node] < s2.index[n] ensures Bounded(g, s2, node, n) {
      if n in s.index {
        BoundedBefore(g, s, s2, active, node, n);
      } else {
        assert Bounded(g, s1, next, n);
      }
    }
  }

  lemma {:induction false} NestedImports(g: Graph, s: Search, s1: Search, node: File, next: File, k: nat)
    requires Extends(s, s1) && KeepsLow(s, s1) && node in s.low
    requires k < |Imports(g, node)| && Imports(g, node)[k] == next
    requires ImportsDone(g, s, node, k) && Visited(g, s, s1, next)
    ensures ImportsDone(g, Lower(s1, node, s1.low[next]), node, k + 1)
  {
    hide LowBound, LowWitness, Bounded;
    var s2 := Lower(s1, node, s1.low[next]);
    forall j | 0 <= j < k + 1 ensures ImportDone(s2, node, Imports(g, node)[j]) {
      if j < k {
        assert ImportDone(s, node, Imports(g, node)[j]);
      }
    }
  }

  lemma {:induction false} IndexBound(g: Graph, s: Search, active: set<File>, n: File)
    requires Indexed(g, s, active) && n in s.index
    ensures s.index[n] < s.nextIndex
  {
    hide Files;
  }

  lemma {:induction false} NestedScanning(g: Graph, s0: Search, s: Search, s1: Search, active: set<File>, node: File, k: nat)
    requires Indexed(g, s0, active - {node}) && Indexed(g, s, active) && Indexed(g, s1, active)
    requires Explored(g, s, active)
    requires Scanning(g, s0, s, node, k) && k < |Imports(g, node)|
    requires Visited(g, s, s1, Imports(g, node)[k])
    ensures Scanning(g, s0, Lower(s1, node, s1.low[Imports(g, node)[k]]), node, k + 1)
  {
    hide Reach, Explored, LowBound, LowWitness, ImportsDone, Bounded, Files, ActiveBelow, Indexed;
    IndexBound(g, s, active, node);
    var next := Imports(g, node)[k];
    ExtendsTrans(s0, s, s1);
    NestedWitness(g, s, s1, node, next);
    ActiveIsBelow(g, s0, s, active, node);
    NestedLowBound(g, s, s1, active, node, next);
    NestedImports(g, s, s1, node, next, k);
  }

  /** An import met for the first time is visited, and its low link taken over. */
  lemma {:induction false} NestedKeeps(g: Graph, s0: Search, s: Search, s1: Search, active: set<File>, node: File, k: nat)
    requires Indexed(g, s0, active - {node}) && Inv(g, s, active) && Inv(g, s1, active)
    requires Scanning(g, s0, s, node, k) && k < |Imports(g, node)|
    requires Visited(g, s, s1, Imports(g, node)[k])
    ensures node in s1.low && Imports(g, node)[k] in s1.low
    ensures Inv(g, Lower(s1, node, s1.low[Imports(g, node)[k]]), active)
    ensures Scanning(g, s0, Lower(s1, node, s1.low[Imports(g, node)[k]]), node, k + 1)
  {
    hide Indexed, Explored, Sealed, Chained, Anchored, Reported, StackMatches, LowBound, LowWitness, ImportsDone, Bounded;
    LowerKeeps(g, s1, active, node, s1.low[Imports(g, node)[k]]);
    NestedScanning(g, s0, s, s1, active, node, k);
  }

  lemma {:induction false} MetLow(g: Graph, s: Search, node: File, k: nat)
    requires node in s.index && node in s.low && node in s.onStack && s.low[node] <= s.index[node]
    requires LowWitness(g, s, node) && LowBound(g, s, node) && ImportsDone(g, s, node, k)
    requires k < |Imports(g, node)| && Imports(g, node)[k] in s.index && Imports(g, node)[k] in s.onStack
    ensures LowWitness(g, Lower(s, node, s.index[Imports(g, node)[k]]), node)
    ensures LowBound(g, Lower(s, node, s.index[Imports(g, node)[k]]), node)
    ensures ImportsDone(g, Lower(s, node, s.index[Imports(g, node)[k]]), node, k + 1)
  {
    hide Reach;
    var next := Imports(g, node)[k];
    var s1 := Lower(s, node, s.index[next]);
    assert LowWitness(g, s1, node) by {
      if s.index[next] < s.low[node] {
        ReachEdge(g, node, next);
        assert IsLowWitness(g, s1, node, next);
      } else {
        var y :| IsLowWitness(g, s, node, y);
        assert IsLowWitness(g, s1, node, y);
      }
    }
    forall n | n in s1.onStack && n in s1.index && s1.index[node] < s1.index[n] ensures Bounded(g, s1, node, n) {
      assert Bounded(g, s, node, n);
    }
    forall j | 0 <= j < k + 1 ensures ImportDone(s1, node, Imports(g, node)[j]) {
      if j < k {
        assert ImportDone(s, node, Imports(g, node)[j]);
      }
    }
  }

  /** An import that is on the stack lends its index. */
  lemma {:induction false} MetKeeps(g: Graph, s0: Search, s: Search, active: set<File>, node: File, k: nat)
    requires Inv(g, s, active) && Scanning(g, s0, s, node, k)
    requires k < |Imports(g, node)| && Imports(g, node)[k] in s.index && Imports(g, node)[k] in s.onStack
    ensures Inv(g, Lower(s, node, s.index[Imports(g, node)[k]]), active)
    ensures Scanning(g, s0, Lower(s, node, s.index[Imports(g, node)[k]]), node, k + 1)
  {
    hide Inv, LowBound, LowWitness, ImportsDone;
    LowerKeeps(g, s, active, node, s.index[Imports(g, node)[k]]);
    MetLow(g, s, node, k);
  }

  /** An import that has left the stack changes nothing. */
  lemma {:induction false} PassedKeeps(g: Graph, s0: Search, s: Search, node: File, k: nat)
    requires Scanning(g, s0, s, node, k)
    requires k < |Imports(g, node)| && Imports(g, node)[k] in s.index && Imports(g, node)[k] !in s.onStack
    ensures Scanning(g, s0, s, node, k + 1)
  {
    hide Extends, LowBound, LowWitness;
    forall j | 0 <= j < k + 1 ensures ImportDone(s, node, Imports(g, node)[j]) {
      if j < k {
        assert ImportDone(s, node, Imports(g, node)[j]);
      }
    }
  }

  // ---------- leaving a file that leads to something older ----------

  lemma {:induction false} LeaveAnchored(g: Graph, s0: Search, s: Search, active: set<File>, node: File)
    requires Indexed(g, s0, active) && Extends(s0, s) && node in s.index && s0.nextIndex <= s.index[node]
    requires Anchored(g, s, active + {node}) && node in s.low
    requires LowWitness(g, s, node) && s.low[node] < s.index[node]
    ensures Anchored(g, s, active)
  {
    hide Reach, Files;
    var y :| IsLowWitness(g, s, node, y);
    var b :| IsAnchor(g, s, active + {node}, y, b);
    forall n | n in s.onStack ensures exists a :: IsAnchor(g, s, active, n, a) {
      var a :| IsAnchor(g, s, active + {node}, n, a);
      if a == node {
        ReachTrans(g, n, node, y);
        ReachTrans(g, n, y, b);
        assert IsAnchor(g, s, active, n, b);
      } else {
        assert IsAnchor(g, s, active, n, a);
      }
    }
  }

  lemma {:induction false} LeaveExplored(g: Graph, s: Search, active: set<File>, node: File)
    requires Explored(g, s, active + {node}) && node in s.low
    requires ImportsDone(g, s, node, |Imports(g, node)|)
    ensures Explored(g, s, active) && Bounded(g, s, node, node)
  {
    forall m | Edge(g, node, m) ensures ImportDone(s, node, m) {
      var j :| 0 <= j < |Imports(g, node)| && Imports(g, node)[j] == m;
    }
  }

  lemma {:induction false} LeaveKeeps(g: Graph, s0: Search, s: Search, active: set<File>, node: File)
    requires Inv(g, s0, active) && Inv(g, s, active + {node}) && KeepsLow(s0, s)
    requires Scanning(g, s0, s, node, |Imports(g, node)|) && s.low[node] < s.index[node]
    ensures Inv(g, s, active) && Visited(g, s0, s, node)
  {
    hide Reach, Edge, StackMatches, Explored, Sealed, Chained, Anchored, Reported, LowBound, LowWitness, ImportsDone, Bounded, Files;
    LeaveAnchored(g, s0, s, active, node);
    LeaveExplored(g, s, active, node);
    assert Indexed(g, s, active) by {
      assert forall n :: n in active ==> n in s.onStack;
    }
  }

  // ---------- closing a component ----------

  /** The files from `node` upwards on the stack. */
  ghost function Above(s: Search, node: File): set<File> {
    set n | n in s.onStack && n in s.index && node in s.index && s.index[node] <= s.index[n]
  }

  /** What the source's do-while loop leaves: everything from `node` upwards is gone from the stack. */
  ghost predicate Popped(s: Search, s1: Search, node: File) {
    && s1.index == s.index && s1.low == s.low && s1.nextIndex == s.nextIndex
    && s1.onStack == s.onStack - Above(s, node)
    && StackMatches(s1)
  }

  /** Nothing above `node` imports anything still below it. */
  lemma {:induction false} AboveClosed(g: Graph, s0: Search, s: Search, active: set<File>, node: File, n: File, m: File)
    requires Indexed(g, s0, active) && Explored(g, s, active + {node}) && Indexed(g, s, active + {node})
    requires Scanning(g, s0, s, node, |Imports(g, node)|) && s.low[node] == s.index[node]
    requires n in Above(s, node) && Edge(g, n, m)
    ensures m in s.index && (m in s.onStack ==> m in Above(s, node))
  {
    hide Reach, Files, Edge, LowWitness;
    if n == node {
      LeaveExplored(g, s, active, node);
      assert Bounded(g, s, node, node);
    } else {
      assert n !in active;
      assert Bounded(g, s, node, n);
    }
  }

  /** Every file above `node` leads back to it. */
  lemma {:induction false} AboveReturns(g: Graph, s: Search, active: set<File>, node: File, n: File)
    requires ActiveBelow(s, active, node) && node in s.onStack
    requires Chained(g, s) && Anchored(g, s, active + {node})
    requires n in Above(s, node)
    ensures Mutual(g, node, n)
  {
    hide Reach;
    var a :| IsAnchor(g, s, active + {node}, n, a);
    assert Reach(g, a, node);
    ReachTrans(g, n, a, node);
  }

  /** Leaving the class of `node` means never coming back. */
  lemma {:induction false} ClassInside(g: Graph, s0: Search, s: Search, active: set<File>, node: File, n: File)
    requires Indexed(g, s0, active) && Explored(g, s, active + {node}) && Indexed(g, s, active + {node})
    requires Sealed(g, s)
    requires Scanning(g, s0, s, node, |Imports(g, node)|) && s.low[node] == s.index[node]
    requires Mutual(g, node, n)
    ensures n in Above(s, node)
  {
    hide Reach, Files, Edge, LowWitness, LowBound, ImportsDone;
    var gone := iset x | x in s.index && x !in s.onStack;
    var closed := iset x | x in gone || x in Above(s, node);
    forall x, y | x in closed && Edge(g, x, y) ensures y in closed {
      if x in Above(s, node) {
        AboveClosed(g, s0, s, active, node, x, y);
      }
    }
    ReachStays(g, closed, node, n);
    if n in gone {
      ReachStays(g, gone, n, node);
    }
  }

  lemma {:induction false} AboveIsClass(g: Graph, s0: Search, s: Search, active: set<File>, node: File)
    requires Inv(g, s0, active) && Inv(g, s, active + {node})
    requires Scanning(g, s0, s, node, |Imports(g, node)|) && s.low[node] == s.index[node]
    ensures forall n :: n in Above(s, node) <==> Mutual(g, node, n)
  {
    hide Reach, Files, Mutual, StackMatches, Indexed, Explored, Sealed, Chained, Anchored, Reported, LowWitness, LowBound, ImportsDone, ActiveBelow, Above, Extends;
    assert ActiveBelow(s, active + {node}, node) by {
      assert active + {node} - {node} <= active;
      SubsetIndexed(g, s0, active, active + {node} - {node});
      ActiveIsBelow(g, s0, s, active + {node}, node);
    }
    forall n ensures n in Above(s, node) <==> Mutual(g, node, n) {
      if n in Above(s, node) {
        WeakenBelow(s, active, active + {node}, node);
        AboveReturns(g, s, active, node, n);
      } else if Mutual(g, node, n) {
        ClassInside(g, s0, s, active, node, n);
      }
    }
  }

  lemma {:induction false} SubsetIndexed(g: Graph, s: Search, active: set<File>, fewer: set<File>)
    requires Indexed(g, s, active) && fewer <= active
    ensures Indexed(g, s, fewer)
  {
    hide Files;
  }

  lemma {:induction false} WeakenBelow(s: Search, fewer: set<File>, active: set<File>, node: File)
    requires ActiveBelow(s, active, node) && fewer <= active
    ensures ActiveBelow(s, fewer, node)
  {
  }

  lemma {:induction false} PopBooks(g: Graph, s0: Search, s: Search, s1: Search, active: set<File>, node: File)
    requires Indexed(g, s0, active) && Indexed(g, s, active + {node})
    requires Extends(s0, s) && node in s.onStack && node in s.index && s.index[node] == s0.nextIndex
    requires Popped(s, s1, node)
    ensures s1.onStack == s0.onStack && Indexed(g, s1, active) && Extends(s0, s1)
  {
    hide Files;
    assert forall n :: n in s1.onStack <==> n in s0.onStack;
  }

  lemma {:induction false} PopClosed(g: Graph, s0: Search, s: Search, s1: Search, active: set<File>, node: File)
    requires Inv(g, s0, active) && Inv(g, s, active + {node})
    requires Scanning(g, s0, s, node, |Imports(g, node)|) && s.low[node] == s.index[node]
    requires Popped(s, s1, node)
    ensures Explored(g, s1, active) && Sealed(g, s1)
  {
    hide Reach, Files, Edge, StackMatches, Chained, Anchored, Reported, LowWitness, LowBound, ImportsDone, Indexed, Extends;
    LeaveExplored(g, s, active, node);
    forall n, m | n in s1.index && n !in s1.onStack && Edge(g, n, m) ensures m in s1.index && m !in s1.onStack {
      if n in Above(s, node) {
        AboveClosed(g, s0, s, active, node, n, m);
      }
    }
  }

  lemma {:induction false} PopLinked(g: Graph, s: Search, s1: Search, active: set<File>, node: File)
    requires Chained(g, s) && Anchored(g, s, active + {node}) && Popped(s, s1, node)
    requires node in s.index && s.onStack <= s.index.Keys
    ensures Chained(g, s1) && Anchored(g, s1, active)
  {
    hide Reach, StackMatches;
    forall n | n in s1.onStack ensures exists a :: IsAnchor(g, s1, active, n, a) {
      var a :| IsAnchor(g, s, active + {node}, n, a);
      assert IsAnchor(g, s1, active, n, a);
    }
  }

  /** What the source appends: the popped files if they are several or one that imports itself. */
  ghost predicate Appended(g: Graph, s: Search, s1: Search, node: File, component: seq<File>) {
    && Distinct(component)
    && (forall n :: n in component <==> n in Above(s, node))
    && s1.components == if |component| > 1 || node in Imports(g, node)
                        then s.components + [component] else s.components
  }

  lemma {:induction false} MutualTrans(g: Graph, a: File, b: File, c: File)
    requires Mutual(g, a, b) && Mutual(g, b, c)
    ensures Mutual(g, a, c) && Mutual(g, c, a)
  {
    hide Reach;
    ReachTrans(g, a, b, c);
    ReachTrans(g, c, b, a);
  }

  lemma {:induction false} ClassIsComponent(g: Graph, node: File, c: seq<File>)
    requires forall n :: n in c <==> Mutual(g, node, n)
    requires Distinct(c)
    requires |c| > 1 || node in Imports(g, node)
    ensures IsCyclicComponent(g, c)
  {
    hide Reach;
    ReachRefl(g, node);
    assert node in c;
    forall n ensures n in c <==> Mutual(g, c[0], n) {
      assert c[0] in c;
      if n in c {
        MutualTrans(g, c[0], node, n);
      } else if Mutual(g, c[0], n) {
        MutualTrans(g, node, c[0], n);
      }
    }
    if |c| > 1 {
      assert c[1] in c;
      FirstStep(g, c[0], c[1]);
      var b :| Edge(g, c[0], b) && Reach(g, b, c[1]);
      ReachTrans(g, b, c[1], c[0]);
    } else {
      assert c[0] == node;
      assert Edge(g, node, node);
    }
  }

  /** A file that is its whole class lies on a cycle exactly if it imports itself. */
  lemma {:induction false} CycleOfOne(g: Graph, node: File)
    requires forall n :: Mutual(g, node, n) ==> n == node
    ensures OnCycle(g, node) <==> node in Imports(g, node)
  {
    hide Reach;
    if OnCycle(g, node) {
      var b :| Edge(g, node, b) && Reach(g, b, node);
      ReachEdge(g, node, b);
      assert Mutual(g, node, b);
    }
    if node in Imports(g, node) {
      ReachRefl(g, node);
      assert Edge(g, node, node);
    }
  }

  /** A lone file that does not import itself lies on no cycle. */
  lemma {:induction false} LoneIsAcyclic(g: Graph, node: File, c: seq<File>)
    requires forall n :: n in c <==> Mutual(g, node, n)
    requires |c| <= 1 && node !in Imports(g, node)
    ensures forall n :: n in c ==> !OnCycle(g, n)
  {
    hide Reach, OnCycle;
    ReachRefl(g, node);
    assert node in c && c == [node];
    CycleOfOne(g, node);
  }

  lemma {:induction false} PopReported(g: Graph, s: Search, s1: Search, node: File, component: seq<File>)
    requires Reported(g, s) && Popped(s, s1, node) && Appended(g, s, s1, node, component)
    requires forall n :: n in Above(s, node) <==> Mutual(g, node, n)
    requires s.onStack <= s.index.Keys
    ensures Reported(g, s1)
  {
    hide Reach, Mutual, OnCycle, IsCyclicComponent, StackMatches, Edge;
    if |component| > 1 || node in Imports(g, node) {
      ClassIsComponent(g, node, component);
      var k := |s.components|;
      assert s1.components[k] == component;
      forall n ensures Listed(s1.components, n) <==> Listed(s.components, n) || n in component {
        if Listed(s.components, n) {
          var i :| 0 <= i < k && n in s.components[i];
          assert n in s1.components[i];
        }
      }
      forall i, j, n | 0 <= i < j < |s1.components| && n in s1.components[i] ensures n !in s1.components[j] {
        assert Listed(s.components, n);
      }
    } else {
      LoneIsAcyclic(g, node, component);
    }
  }

  lemma {:induction false} PopKeeps(g: Graph, s0: Search, s: Search, s1: Search, active: set<File>, node: File, component: seq<File>)
    requires Inv(g, s0, active) && Inv(g, s, active + {node}) && KeepsLow(s0, s)
    requires Scanning(g, s0, s, node, |Imports(g, node)|) && s.low[node] == s.index[node]
    requires Popped(s, s1, node) && Appended(g, s, s1, node, component)
    ensures Inv(g, s1, active) && Visited(g, s0, s1, node)
  {
    hide Reach, Files, Mutual, Appended, Explored, Sealed, Chained, Anchored, Reported, LowWitness, LowBound, ImportsDone;
    AboveIsClass(g, s0, s, active, node);
    PopBooks(g, s0, s, s1, active, node);
    PopClosed(g, s0, s, s1, active, node);
    PopLinked(g, s, s1, active, node);
    PopReported(g, s, s1, node, component);
  }
}
