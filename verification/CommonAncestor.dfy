/** The directory under which a module and what it imports are copied. */
module CommonAncestor {
  import opened Options

  /** An absolute, normalised path by its segments; the root has none. */
  type Path = seq<string>

  /** The number of leading segments two paths share. */
  function Agreement(a: Path, b: Path): (k: nat)
    ensures k <= |a| && k <= |b| && a[..k] == b[..k]
    ensures k < |a| && k < |b| ==> a[k] != b[k]
  {
    if a == [] || b == [] || a[0] != b[0] then 0 else 1 + Agreement(a[1..], b[1..])
  }

  function Ups(n: nat): (r: seq<string>)
    ensures |r| == n && forall i :: 0 <= i < n ==> r[i] == ".."
  {
    seq(n, _ => "..")
  }

  /** `path.relative`: up to where the paths part, and down again. */
  function Relative(from: Path, to: Path): seq<string> {
    var k := Agreement(from, to);
    Ups(|from| - k) + to[k..]
  }

  /** The relative path, written out, starts with `../`: it goes up, and does not end there. */
  predicate StartsUpwards(relative: seq<string>) {
    |relative| >= 2 && relative[0] == ".."
  }

  /** `..` never is a segment of a normalised path. */
  predicate Normal(p: Path) {
    forall i :: 0 <= i < |p| ==> p[i] != ".."
  }

  // ---------- the loop ----------

  /** How many segments of `first` the loop keeps on account of another path.  It takes a path that is a proper
      prefix of `first` to be one segment longer, because going up by one and stopping is not seen as escaping. */
  function Kept(first: Path, p: Path): (k: nat)
    ensures k <= |first|
  {
    if p < first then |p| + 1 else Agreement(first, p)
  }

  function KeptOfAll(first: Path, rest: seq<Path>): (k: nat)
    ensures k <= |first|
    ensures forall i :: 0 <= i < |rest| ==> k <= Kept(first, rest[i])
    ensures k == |first| || exists i :: 0 <= i < |rest| && k == Kept(first, rest[i])
  {
    if rest == [] then |first|
    else
      var n, k := |rest| - 1, KeptOfAll(first, rest[..|rest| - 1]);
      assert forall i :: 0 <= i < n ==> rest[..n][i] == rest[i];
      if Kept(first, rest[n]) < k then Kept(first, rest[n]) else k
  }

  lemma {:induction false} AgreementIs(a: Path, b: Path, k: nat)
    requires k <= |a| && k <= |b| && a[..k] == b[..k]
    requires k < |a| && k < |b| ==> a[k] != b[k]
    ensures Agreement(a, b) == k
  {
    hide Agreement;
    var f := Agreement(a, b);
    forall i | 0 <= i < k ensures a[i] == b[i] {
      assert a[..k][i] == b[..k][i];
    }
    forall i | 0 <= i < f ensures a[i] == b[i] {
      assert a[..f][i] == b[..f][i];
    }
  }

  lemma {:induction false} AgreementOfPrefix(first: Path, k: nat, p: Path)
    requires k <= |first|
    ensures Agreement(first[..k], p) == if Agreement(first, p) < k then Agreement(first, p) else k
  {
    hide Agreement;
    var a := Agreement(first, p);
    if a < k {
      assert first[..k][..a] == first[..a];
      AgreementIs(first[..k], p, a);
    } else {
      assert first[..k] == first[..a][..k] == p[..a][..k] == p[..k];
      AgreementIs(first[..k], p, k);
    }
  }

  /** When the loop goes on: the ancestor is still longer than what is kept. */
  lemma {:induction false} EscapesIff(first: Path, k: nat, p: Path)
    requires k <= |first| && Normal(p)
    ensures StartsUpwards(Relative(first[..k], p)) <==> k > Kept(first, p)
  {
    hide Agreement;
    AgreementOfPrefix(first, k, p);
    var a, c := Agreement(first, p), Agreement(first[..k], p);
    PrefixIff(first, p);
    var r := Relative(first[..k], p);
    assert |r| == k - c + |p| - c;
    if k == c {
      if r != [] {
        assert r[0] == p[c];
      }
    } else {
      assert r[0] == "..";
    }
  }

  lemma {:induction false} PrefixIff(first: Path, p: Path)
    ensures p < first <==> Agreement(first, p) == |p| < |first|
  {
    hide Agreement;
    var a := Agreement(first, p);
    if p < first {
      assert first[..|p|] == p[..|p|];
      AgreementIs(first, p, |p|);
    }
  }

  /** `resolveCommonAncestor`; the empty list makes it throw. */
  method ResolveCommonAncestor(paths: seq<Path>) returns (r: Option<Path>)
    requires forall i :: 0 <= i < |paths| ==> Normal(paths[i])
    ensures r == if paths == [] then None else Some(paths[0][..KeptOfAll(paths[0], paths[1..])])
  {
    hide Agreement, Relative, StartsUpwards, Kept, KeptOfAll;
    if |paths| == 0 {
      return None;
    }
    var first, rest := paths[0], paths[1..];
    var ancestor := first;
    ghost var k: nat := |first|;
    KeptStarts(first, rest);
    for i := 0 to |rest|
      invariant k == KeptOfAll(first, rest[..i]) <= |first| && ancestor == first[..k]
    {
      var candidate := rest[i];
      KeptStep(first, rest, i);
      EscapesIff(first, k, candidate);
      ghost var before: nat := k;
      while StartsUpwards(Relative(ancestor, candidate))
        invariant k <= before <= |first| && ancestor == first[..k]
        invariant StartsUpwards(Relative(ancestor, candidate)) <==> k > Kept(first, candidate)
        invariant k == before || k >= Kept(first, candidate)
        decreases k
      {
        var parent := if |ancestor| > 0 then ancestor[..|ancestor| - 1] else ancestor;
        if parent == ancestor {
          assert false;
          return Some(ancestor);
        }
        EscapesIff(first, k - 1, candidate);
        ancestor := parent;
        k := k - 1;
      }
    }
    assert rest[..|rest|] == rest;
    r := Some(ancestor);
  }

  lemma {:induction false} KeptStarts(first: Path, rest: seq<Path>)
    ensures KeptOfAll(first, rest[..0]) == |first| && first[..|first|] == first
  {
  }

  lemma {:induction false} KeptStep(first: Path, rest: seq<Path>, i: nat)
    requires i < |rest|
    ensures var k := KeptOfAll(first, rest[..i]);
            KeptOfAll(first, rest[..i + 1]) == if Kept(first, rest[i]) < k then Kept(first, rest[i]) else k
  {
    assert rest[..i + 1][..i] == rest[..i];
  }

  // ---------- what it computes ----------

  ghost predicate PrefixOfAll(prefix: Path, paths: seq<Path>) {
    forall i :: 0 <= i < |paths| ==> prefix <= paths[i]
  }

  /** The longest path that is a prefix of all the given ones. */
  ghost predicate LongestCommonPrefix(prefix: Path, paths: seq<Path>) {
    PrefixOfAll(prefix, paths) && forall p :: PrefixOfAll(p, paths) ==> |p| <= |prefix|
  }

  lemma {:induction false} PrefixOfFirst(first: Path, k: nat, p: Path)
    requires k <= |first|
    ensures first[..k] <= p <==> k <= Agreement(first, p)
  {
    hide Agreement;
    AgreementOfPrefix(first, k, p);
    if first[..k] <= p {
      assert first[..k][..k] == p[..k];
      AgreementIs(first[..k], p, k);
    }
  }

  /** The other paths part from the first one nowhere sooner than at a path that is not a proper prefix of it. */
  ghost predicate SomeTightest(first: Path, rest: seq<Path>) {
    || (forall i :: 0 <= i < |rest| ==> first <= rest[i])
    || exists i :: 0 <= i < |rest| && !(rest[i] < first)
         && forall j :: 0 <= j < |rest| ==> Agreement(first, rest[i]) <= Agreement(first, rest[j])
  }

  /** The result is the longest common prefix exactly if that is the first path itself, or is forced by a path that
      is not a proper prefix of the first. */
  lemma {:induction false} AncestorIsLongestPrefixIff(first: Path, rest: seq<Path>)
    ensures LongestCommonPrefix(first[..KeptOfAll(first, rest)], [first] + rest) <==> SomeTightest(first, rest)
  {
    hide Agreement, KeptOfAll, SomeTightest, LongestCommonPrefix;
    if SomeTightest(first, rest) {
      TightIsLongest(first, rest);
    } else {
      LooseIsNotCommon(first, rest);
    }
  }

  lemma {:induction false} KeptAtLeast(first: Path, p: Path)
    ensures Agreement(first, p) <= Kept(first, p)
    ensures !(p < first) ==> Kept(first, p) == Agreement(first, p)
    ensures p < first ==> Kept(first, p) == Agreement(first, p) + 1
    ensures first <= p <==> Agreement(first, p) == |first|
  {
    hide Agreement;
    PrefixIff(first, p);
    PrefixOfFirst(first, |first|, p);
    assert first[..|first|] == first;
  }

  lemma {:induction false} TightIsLongest(first: Path, rest: seq<Path>)
    requires SomeTightest(first, rest)
    ensures LongestCommonPrefix(first[..KeptOfAll(first, rest)], [first] + rest)
  {
    hide Agreement, Kept, KeptOfAll, SomeTightest;
    var k, paths := KeptOfAll(first, rest), [first] + rest;
    forall i | 0 <= i < |paths| ensures first[..k] <= paths[i] {
      if i > 0 {
        TightIsCommon(first, rest, i - 1);
      }
    }
    forall p | PrefixOfAll(p, paths) ensures |p| <= k {
      assert p <= paths[0];
      forall j | 0 <= j < |rest| ensures p <= rest[j] {
        assert p <= paths[j + 1];
      }
      CommonIsShort(first, rest, p);
    }
  }

  lemma {:induction false} TightIsCommon(first: Path, rest: seq<Path>, j: nat)
    requires SomeTightest(first, rest) && j < |rest|
    ensures first[..KeptOfAll(first, rest)] <= rest[j]
  {
    hide Agreement, Kept, KeptOfAll;
    KeptAtLeast(first, rest[j]);
    PrefixOfFirst(first, KeptOfAll(first, rest), rest[j]);
    if !(first <= rest[j]) {
      var i :| 0 <= i < |rest| && !(rest[i] < first)
        && forall j :: 0 <= j < |rest| ==> Agreement(first, rest[i]) <= Agreement(first, rest[j]);
      KeptAtLeast(first, rest[i]);
    }
  }

  lemma {:induction false} CommonIsShort(first: Path, rest: seq<Path>, p: Path)
    requires p <= first && PrefixOfAll(p, rest)
    ensures |p| <= KeptOfAll(first, rest)
  {
    hide Agreement, Kept, KeptOfAll;
    var k := KeptOfAll(first, rest);
    if k < |first| {
      var i :| 0 <= i < |rest| && k == Kept(first, rest[i]);
      PrefixOfFirst(first, |p|, rest[i]);
      KeptAtLeast(first, rest[i]);
    }
  }

  lemma {:induction false} LooseIsNotCommon(first: Path, rest: seq<Path>)
    requires !SomeTightest(first, rest)
    ensures !LongestCommonPrefix(first[..KeptOfAll(first, rest)], [first] + rest)
  {
    hide Agreement, Kept, KeptOfAll;
    var i := Tightest(first, rest);
    var paths := [first] + rest;
    forall j | 0 <= j < |rest| ensures Kept(first, rest[j]) > Agreement(first, rest[i]) {
      KeptAtLeast(first, rest[j]);
      assert Agreement(first, rest[j]) == Agreement(first, rest[i]) && !(rest[j] < first) ==> SomeTightest(first, rest);
    }
    KeptAtLeast(first, rest[i]);
    var k := KeptOfAll(first, rest);
    assert k > Agreement(first, rest[i]);
    PrefixOfFirst(first, k, rest[i]);
    assert paths[i + 1] == rest[i];
  }

  /** A path that parts from `first` soonest. */
  lemma {:induction false} Tightest(first: Path, rest: seq<Path>) returns (i: nat)
    requires exists j :: 0 <= j < |rest| && !(first <= rest[j])
    ensures i < |rest| && !(first <= rest[i])
    ensures forall j :: 0 <= j < |rest| ==> Agreement(first, rest[i]) <= Agreement(first, rest[j])
  {
    hide Agreement;
    var j :| 0 <= j < |rest| && !(first <= rest[j]);
    i := Least(first, rest, |rest|);
    KeptAtLeast(first, rest[i]);
    KeptAtLeast(first, rest[j]);
  }

  lemma {:induction false} Least(first: Path, rest: seq<Path>, n: nat) returns (i: nat)
    requires 0 < n <= |rest|
    ensures i < n && forall j :: 0 <= j < n ==> Agreement(first, rest[i]) <= Agreement(first, rest[j])
  {
    hide Agreement;
    i := n - 1;
    if n == 1 {
    } else {
      var k := Least(first, rest, n - 1);
      if Agreement(first, rest[k]) < Agreement(first, rest[i]) {
        i := k;
      }
    }
  }

  /** Where it goes wrong: beside the directory `/a/b`, the path `/a` is not brought under the ancestor. */
  lemma {:induction false} ParentIsMissed()
    ensures KeptOfAll(["a", "b"], [["a"]]) == 2
    ensures !PrefixOfAll(["a", "b"], [["a", "b"], ["a"]])
  {
    assert ["a"] == ["a", "b"][..1];
    assert [["a", "b"], ["a"]][1] == ["a"];
    var rest: seq<Path> := [["a"]];
    assert rest[..0] == [];
    assert KeptOfAll(["a", "b"], rest[..0]) == 2;
  }

  /** With the package root first and no file a proper prefix of it, the ancestor is the longest common prefix. */
  lemma {:induction false} PackageRootFirst(packageRoot: Path, files: seq<Path>)
    requires forall i :: 0 <= i < |files| ==> !(files[i] < packageRoot)
    ensures LongestCommonPrefix(packageRoot[..KeptOfAll(packageRoot, files)], [packageRoot] + files)
  {
    hide Agreement, KeptOfAll, LongestCommonPrefix;
    if exists j :: 0 <= j < |files| && !(packageRoot <= files[j]) {
      var i := Tightest(packageRoot, files);
      assert SomeTightest(packageRoot, files);
    }
    AncestorIsLongestPrefixIff(packageRoot, files);
  }

  // ---------- the copies ----------

  /** `path.join` with a relative path: each `..` takes a segment away. */
  function JoinPath(base: Path, relative: seq<string>): Path
    decreases |relative|
  {
    if relative == [] then base
    else if relative[0] == ".." then JoinPath(if base == [] then [] else base[..|base| - 1], relative[1..])
    else JoinPath(base + [relative[0]], relative[1..])
  }

  function Target(isolatedRoot: Path, copyRoot: Path, source: Path): Path {
    JoinPath(isolatedRoot, Relative(copyRoot, source))
  }

  lemma {:induction false} JoinDown(base: Path, relative: seq<string>)
    requires Normal(relative)
    ensures JoinPath(base, relative) == base + relative
    decreases |relative|
  {
    if relative == [] {
      assert base + [] == base;
    } else {
      JoinDown(base + [relative[0]], relative[1..]);
      assert base + [relative[0]] + relative[1..] == base + relative;
    }
  }

  lemma {:induction false} JoinUps(base: Path, n: nat, relative: seq<string>)
    requires n <= |base|
    ensures JoinPath(base, Ups(n) + relative) == JoinPath(base[..|base| - n], relative)
    decreases n
  {
    if n == 0 {
      assert base[..|base|] == base && Ups(0) + relative == relative;
    } else {
      var init := base[..|base| - 1];
      JoinUps(init, n - 1, relative);
      assert (Ups(n) + relative)[1..] == Ups(n - 1) + relative;
      assert init[..|init| - (n - 1)] == base[..|base| - n];
    }
  }

  /** Following the relative path from one place to another leads there. */
  lemma {:induction false} RelativeLeadsThere(from: Path, to: Path)
    requires Normal(to)
    ensures JoinPath(from, Relative(from, to)) == to
  {
    hide Agreement, JoinPath;
    var k := Agreement(from, to);
    JoinUps(from, |from| - k, to[k..]);
    JoinDown(from[..k], to[k..]);
    assert from[..k] + to[k..] == to;
  }

  lemma {:induction false} TargetUnder(isolatedRoot: Path, copyRoot: Path, source: Path)
    requires copyRoot <= source && Normal(source)
    ensures Target(isolatedRoot, copyRoot, source) == isolatedRoot + source[|copyRoot|..]
  {
    hide Agreement;
    assert copyRoot == source[..|copyRoot|] && copyRoot[..|copyRoot|] == copyRoot;
    AgreementIs(copyRoot, source, |copyRoot|);
    assert Relative(copyRoot, source) == source[|copyRoot|..];
    JoinDown(isolatedRoot, source[|copyRoot|..]);
  }

  /** The copies lie under the isolated root, different files go to different places, and each file finds every
      other one where it found it before: the relative paths between them are the same. */
  lemma {:induction false} CopiesKeepShape(isolatedRoot: Path, packageRoot: Path, files: seq<Path>, i: nat, j: nat)
    requires forall k :: 0 <= k < |files| ==> Normal(files[k]) && !(files[k] < packageRoot)
    requires i < |files| && j < |files|
    ensures var copyRoot := packageRoot[..KeptOfAll(packageRoot, files)];
            var a, b := Target(isolatedRoot, copyRoot, files[i]), Target(isolatedRoot, copyRoot, files[j]);
            && isolatedRoot <= a
            && (a == b <==> files[i] == files[j])
            && Relative(a, b) == Relative(files[i], files[j])
  {
    hide Agreement, KeptOfAll, Target, Relative, Normal;
    var copyRoot := packageRoot[..KeptOfAll(packageRoot, files)];
    assert copyRoot <= files[i] && copyRoot <= files[j] by {
      CopyRootAbove(packageRoot, files, i);
      CopyRootAbove(packageRoot, files, j);
    }
    TwoCopies(isolatedRoot, copyRoot, files[i], files[j]);
  }

  lemma {:induction false} CopyRootAbove(packageRoot: Path, files: seq<Path>, i: nat)
    requires i < |files| && forall k :: 0 <= k < |files| ==> !(files[k] < packageRoot)
    ensures packageRoot[..KeptOfAll(packageRoot, files)] <= files[i]
  {
    hide KeptOfAll, Agreement, Kept;
    PackageRootFirst(packageRoot, files);
    assert ([packageRoot] + files)[i + 1] == files[i];
  }

  lemma {:induction false} TwoCopies(isolatedRoot: Path, copyRoot: Path, a: Path, b: Path)
    requires copyRoot <= a && copyRoot <= b && Normal(a) && Normal(b)
    ensures isolatedRoot <= Target(isolatedRoot, copyRoot, a)
    ensures Target(isolatedRoot, copyRoot, a) == Target(isolatedRoot, copyRoot, b) <==> a == b
    ensures Relative(Target(isolatedRoot, copyRoot, a), Target(isolatedRoot, copyRoot, b)) == Relative(a, b)
  {
    hide Agreement, Target, Relative;
    TargetUnder(isolatedRoot, copyRoot, a);
    TargetUnder(isolatedRoot, copyRoot, b);
    var x, y := a[|copyRoot|..], b[|copyRoot|..];
    assert a == copyRoot + x && b == copyRoot + y;
    RelativeUnder(isolatedRoot, x, y);
    RelativeUnder(copyRoot, x, y);
    assert (isolatedRoot + x)[|isolatedRoot|..] == x && (isolatedRoot + y)[|isolatedRoot|..] == y;
  }

  lemma {:induction false} RelativeUnder(base: Path, x: Path, y: Path)
    ensures Relative(base + x, base + y) == Relative(x, y)
  {
    hide Agreement;
    var k := Agreement(x, y);
    assert (base + x)[..|base| + k] == base + x[..k] == base + y[..k] == (base + y)[..|base| + k];
    AgreementIs(base + x, base + y, |base| + k);
    assert (base + y)[|base| + k..] == y[k..];
  }
}
