/** The files a module needs: everything it reaches by relative imports. */
module ImportClosure {
  import opened Options
  import opened ImportGraph

  /** One import found in the text of a file.  `resolved` is the existing file it leads to, if there is one. */
  datatype Match = Match(relative: bool, resolved: Option<File>)

  /** The readable files, each with its imports in textual order. */
  type Sources = map<File, seq<Match>>

  /** A resolved import exists, for resolution only returns candidates that do. */
  ghost predicate ResolvedExist(sources: Sources) {
    forall f, i :: f in sources && 0 <= i < |sources[f]| && sources[f][i].resolved.Some? ==>
      sources[f][i].resolved.value in sources
  }

  predicate Follows(m: Match, f: File) {
    m.relative && m.resolved == Some(f) && f.path != ""
  }

  predicate Imported(matches: seq<Match>, f: File) {
    exists i :: 0 <= i < |matches| && Follows(matches[i], f)
  }

  lemma {:induction false} ImportedSplit(matches: seq<Match>, f: File)
    requires matches != []
    ensures Imported(matches, f) <==> Imported(matches[..|matches| - 1], f) || Follows(matches[|matches| - 1], f)
  {
    hide Follows;
    var n, init := |matches| - 1, matches[..|matches| - 1];
    assert forall i :: 0 <= i < n ==> init[i] == matches[i];
  }

  function Targets(matches: seq<Match>): seq<File> {
    if matches == [] then []
    else
      var m := matches[|matches| - 1];
      var init := Targets(matches[..|matches| - 1]);
      if m.relative && m.resolved.Some? && m.resolved.value.path != "" then init + [m.resolved.value] else init
  }

  lemma {:induction false} TargetsAre(matches: seq<Match>, f: File)
    ensures f in Targets(matches) <==> Imported(matches, f)
  {
    if matches == [] {
    } else {
      hide Imported;
      TargetsAre(matches[..|matches| - 1], f);
      ImportedSplit(matches, f);
    }
  }

  /** The graph of the relative imports that resolve. */
  function Resolved(sources: Sources): Graph {
    Graph([], map f | f in sources :: Targets(sources[f]))
  }

  /** The edges of that graph: relative imports that lead to a file. */
  lemma {:induction false} EdgeIff(sources: Sources, a: File, b: File)
    ensures Edge(Resolved(sources), a, b) <==>
              a in sources && b.path != ""
              && exists i :: 0 <= i < |sources[a]| && sources[a][i].relative && sources[a][i].resolved == Some(b)
  {
    if a in sources {
      hide Targets;
      TargetsAre(sources[a], b);
      if i :| 0 <= i < |sources[a]| && sources[a][i].relative && sources[a][i].resolved == Some(b) && b.path != "" {
        assert Follows(sources[a][i], b);
      }
    }
  }

  // ---------- the worklist ----------

  /** What the loop maintains: everything seen is reachable, and an import of a discovered file is discovered
      or waiting. */
  ghost predicate Exploring(sources: Sources, entry: File, discovered: set<File>, queue: seq<File>) {
    && (entry in discovered || entry in queue)
    && discovered <= sources.Keys
    && (forall f :: f in queue ==> f in sources && f.path != "")
    && (forall f :: f in discovered || f in queue ==> Reach(Resolved(sources), entry, f))
    && (forall a, b :: a in discovered && Edge(Resolved(sources), a, b) ==> b in discovered || b in queue)
  }

  lemma {:induction false} Visit(sources: Sources, entry: File, discovered: set<File>, queue: seq<File>)
    requires ResolvedExist(sources) && Exploring(sources, entry, discovered, queue)
    requires queue != [] && queue[|queue| - 1] !in discovered
    ensures var f := queue[|queue| - 1];
            f in sources && Exploring(sources, entry, discovered + {f}, queue[..|queue| - 1] + Targets(sources[f]))
  {
    hide Targets, Reach, ResolvedExist, Edge;
    var g, f, rest := Resolved(sources), queue[|queue| - 1], queue[..|queue| - 1];
    assert queue == rest + [f];
    assert f in sources;
    var more := Targets(sources[f]);
    forall b | b in more ensures b in sources && b.path != "" && Reach(g, entry, b) {
      TargetFound(sources, entry, f, b);
    }
    forall b | Edge(g, f, b) ensures b in more {
      EdgeIsTarget(sources, f, b);
    }
  }

  lemma {:induction false} EdgeIsTarget(sources: Sources, f: File, b: File)
    requires f in sources
    ensures Edge(Resolved(sources), f, b) <==> b in Targets(sources[f])
  {
    hide Targets;
  }

  lemma {:induction false} TargetFound(sources: Sources, entry: File, f: File, b: File)
    requires ResolvedExist(sources) && f in sources && b in Targets(sources[f])
    requires Reach(Resolved(sources), entry, f)
    ensures b in sources && b.path != "" && Reach(Resolved(sources), entry, b)
  {
    hide Targets, Reach;
    TargetsAre(sources[f], b);
    var i :| 0 <= i < |sources[f]| && Follows(sources[f][i], b);
    ReachEdge(Resolved(sources), f, b);
    ReachTrans(Resolved(sources), entry, f, b);
  }

  lemma {:induction false} Skip(sources: Sources, entry: File, discovered: set<File>, queue: seq<File>)
    requires Exploring(sources, entry, discovered, queue) && queue != [] && queue[|queue| - 1] in discovered
    ensures Exploring(sources, entry, discovered, queue[..|queue| - 1])
  {
    hide Reach, Edge;
    assert queue == queue[..|queue| - 1] + [queue[|queue| - 1]];
  }

  lemma {:induction false} Explored(sources: Sources, entry: File, discovered: set<File>)
    requires Exploring(sources, entry, discovered, [])
    ensures forall f :: f in discovered <==> Reach(Resolved(sources), entry, f)
  {
    hide Reach, Edge;
    var s := iset f | f in discovered;
    forall f | Reach(Resolved(sources), entry, f) ensures f in discovered {
      ReachStays(Resolved(sources), s, entry, f);
    }
  }

  method PushTargets(matches: seq<Match>, queue: seq<File>) returns (queue1: seq<File>)
    ensures queue1 == queue + Targets(matches)
  {
    queue1 := queue;
    for i := 0 to |matches|
      invariant queue1 == queue + Targets(matches[..i])
    {
      assert matches[..i + 1][..i] == matches[..i];
      if !matches[i].relative {
        continue;
      }
      var resolved := matches[i].resolved;
      if resolved.Some? && resolved.value.path != "" {
        queue1 := queue1 + [resolved.value];
      }
    }
    assert matches[..|matches|] == matches;
  }

  /** `collectRelativeImportGraph`: cyclic imports or not, it ends, with exactly the files reachable from the
      entry; an entry that cannot be read makes it throw. */
  method CollectRelativeImportGraph(sources: Sources, entry: File) returns (r: Option<set<File>>)
    requires ResolvedExist(sources) && entry.path != ""
    ensures r.None? <==> entry !in sources
    ensures r.Some? ==> forall f :: f in r.value <==> Reach(Resolved(sources), entry, f)
  {
    hide Reach, Edge, ResolvedExist, Resolved;
    if entry !in sources {
      return None;
    }
    var discovered: set<File> := {};
    var queue := [entry];
    Begin(sources, entry);
    while |queue| > 0
      invariant Exploring(sources, entry, discovered, queue)
      decreases |sources.Keys - discovered|, |queue|
    {
      var currentPath := queue[|queue| - 1];
      var rest := queue[..|queue| - 1];
      if currentPath.path == "" || currentPath in discovered {
        Skip(sources, entry, discovered, queue);
        queue := rest;
        continue;
      }
      Visit(sources, entry, discovered, queue);
      Shrinks(sources.Keys, discovered, currentPath);
      discovered := discovered + {currentPath};
      queue := PushTargets(sources[currentPath], rest);
    }
    Explored(sources, entry, discovered);
    r := Some(discovered);
  }

  lemma {:induction false} Begin(sources: Sources, entry: File)
    requires entry in sources && entry.path != ""
    ensures Exploring(sources, entry, {}, [entry])
  {
    ReachRefl(Resolved(sources), entry);
  }

  lemma {:induction false} Shrinks(all: set<File>, discovered: set<File>, f: File)
    requires f in all && f !in discovered
    ensures |all - (discovered + {f})| < |all - discovered|
  {
    assert all - discovered == (all - (discovered + {f})) + {f};
  }

  /** The reachable files are the least set that holds the entry and the relative imports of its members. */
  lemma {:induction false} ReachableIsLeast(sources: Sources, entry: File, discovered: set<File>, s: set<File>)
    requires forall f :: f in discovered <==> Reach(Resolved(sources), entry, f)
    ensures entry in discovered
    ensures forall a, b :: a in discovered && Edge(Resolved(sources), a, b) ==> b in discovered
    ensures entry in s && (forall a, b :: a in s && Edge(Resolved(sources), a, b) ==> b in s) ==> discovered <= s
  {
    hide Reach, Edge, Resolved;
    var g := Resolved(sources);
    ReachRefl(g, entry);
    forall a, b | a in discovered && Edge(g, a, b) ensures b in discovered {
      ReachEdge(g, a, b);
      ReachTrans(g, entry, a, b);
    }
    if entry in s && forall a, b :: a in s && Edge(g, a, b) ==> b in s {
      var all := iset f | f in s;
      forall f | f in discovered ensures f in s {
        ReachStays(g, all, entry, f);
      }
    }
  }
}
