/** The runtime import graph and reachability in it. */
module ImportGraph {

  /** A repository-relative path.  Only its emptiness and identity matter here. */
  datatype File = File(path: string)

  /** `keys` is the insertion order of the source's `Map`, `imports` its content. */
  datatype Graph = Graph(keys: seq<File>, imports: map<File, seq<File>>)

  ghost predicate ValidGraph(g: Graph) {
    && (forall n :: n in g.keys <==> n in g.imports)
    && (forall i, j :: 0 <= i < j < |g.keys| ==> g.keys[i] != g.keys[j])
  }

  /** `graph.get(node) ?? []` */
  function Imports(g: Graph, n: File): seq<File> {
    if n in g.imports then g.imports[n] else []
  }

  /** Every file the graph mentions, as importer or as imported. */
  function Files(g: Graph): set<File> {
    g.imports.Keys + (set n, m | n in g.imports && m in g.imports[n] :: m)
  }

  ghost predicate Edge(g: Graph, a: File, b: File) {
    b in Imports(g, a)
  }

  ghost predicate IsWalk(g: Graph, p: seq<File>) {
    |p| > 0 && forall i, j :: 0 <= i < j < |p| && j == i + 1 ==> Edge(g, p[i], p[j])
  }

  ghost predicate Reach(g: Graph, a: File, b: File) {
    exists p :: IsWalk(g, p) && p[0] == a && p[|p| - 1] == b
  }

  ghost predicate Mutual(g: Graph, a: File, b: File) {
    Reach(g, a, b) && Reach(g, b, a)
  }

  /** `a` lies on a cycle: some file it imports leads back to it. */
  ghost predicate OnCycle(g: Graph, a: File) {
    exists b :: Edge(g, a, b) && Reach(g, b, a)
  }

  lemma {:induction false} ReachRefl(g: Graph, a: File)
    ensures Reach(g, a, a)
  {
    assert IsWalk(g, [a]);
  }

  lemma {:induction false} ReachEdge(g: Graph, a: File, b: File)
    requires Edge(g, a, b)
    ensures Reach(g, a, b)
  {
    assert IsWalk(g, [a, b]);
  }

  lemma {:induction false} ReachTrans(g: Graph, a: File, b: File, c: File)
    requires Reach(g, a, b) && Reach(g, b, c)
    ensures Reach(g, a, c)
  {
    var p :| IsWalk(g, p) && p[0] == a && p[|p| - 1] == b;
    var q :| IsWalk(g, q) && q[0] == b && q[|q| - 1] == c;
    hide Edge;
    var r := p + q[1..];
    forall i, j | 0 <= i < j < |r| && j == i + 1 ensures Edge(g, r[i], r[j]) {
      if j < |p| {
        assert r[i] == p[i] && r[j] == p[j];
      } else {
        assert r[i] == q[j - |p|] && r[j] == q[j - |p| + 1];
      }
    }
    assert IsWalk(g, r) && r[0] == a && r[|r| - 1] == c;
  }

  /** A set closed under imports is never left by a walk. */
  lemma {:induction false} WalkStays(g: Graph, s: iset<File>, p: seq<File>)
    requires IsWalk(g, p) && p[0] in s
    requires forall a, b :: a in s && Edge(g, a, b) ==> b in s
    ensures p[|p| - 1] in s
    decreases |p|
  {
    if |p| <= 1 {
    } else {
      assert Edge(g, p[0], p[1]);
      var t := p[1..];
      forall i, j | 0 <= i < j < |t| && j == i + 1 ensures Edge(g, t[i], t[j]) {
        assert t[i] == p[i + 1] && t[j] == p[j + 1];
      }
      WalkStays(g, s, t);
    }
  }

  lemma {:induction false} ReachStays(g: Graph, s: iset<File>, a: File, b: File)
    requires Reach(g, a, b) && a in s
    requires forall x, y :: x in s && Edge(g, x, y) ==> y in s
    ensures b in s
  {
    var p :| IsWalk(g, p) && p[0] == a && p[|p| - 1] == b;
    WalkStays(g, s, p);
  }

  /** A walk that goes anywhere starts with an import. */
  lemma {:induction false} FirstStep(g: Graph, a: File, b: File)
    requires Reach(g, a, b) && a != b
    ensures exists c :: Edge(g, a, c) && Reach(g, c, b)
  {
    var p :| IsWalk(g, p) && p[0] == a && p[|p| - 1] == b;
    var t := p[1..];
    forall i, j | 0 <= i < j < |t| && j == i + 1 ensures Edge(g, t[i], t[j]) {
      assert t[i] == p[i + 1] && t[j] == p[j + 1];
    }
    assert IsWalk(g, t) && t[0] == p[1] && t[|t| - 1] == b;
    assert Edge(g, p[0], p[1]);
  }

  lemma {:induction false} EdgeInFiles(g: Graph, a: File, b: File)
    requires Edge(g, a, b)
    ensures a in Files(g) && b in Files(g)
  {
  }
}
