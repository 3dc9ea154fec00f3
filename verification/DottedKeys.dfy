/** The dotted names of flattened translations. */
module DottedKeys {
  import opened Options
  import opened TranslationTree

  /** `dottedKey.split(".")` */
  function Split(name: string): (parts: seq<string>)
    ensures |parts| >= 1
    decreases |name|
  {
    var k := FirstDot(name);
    if k == |name| then [name] else [name[..k]] + Split(name[k + 1..])
  }

  function FirstDot(name: string): (k: nat)
    ensures k <= |name| && '.' !in name[..k]
    ensures k < |name| ==> name[k] == '.'
  {
    if name == "" || name[0] == '.' then 0
    else
      assert name[..1 + FirstDot(name[1..])] == [name[0]] + name[1..][..FirstDot(name[1..])];
      1 + FirstDot(name[1..])
  }

  function Join(path: seq<string>): string {
    if path == [] then "" else if |path| == 1 then path[0] else path[0] + "." + Join(path[1..])
  }

  ghost predicate SimplePath(path: seq<string>) {
    path != [] && forall i :: 0 <= i < |path| ==> Simple(path[i])
  }

  lemma {:induction false} FirstDotAt(name: string, k: nat)
    requires k <= |name| && '.' !in name[..k] && (k < |name| ==> name[k] == '.')
    ensures FirstDot(name) == k
  {
    NoDotBefore(name, k);
    NoDotBefore(name, FirstDot(name));
  }

  lemma {:induction false} NoDotBefore(name: string, k: nat)
    requires k <= |name| && '.' !in name[..k]
    ensures forall i :: 0 <= i < k ==> name[i] != '.'
  {
    forall i | 0 <= i < k ensures name[i] != '.' {
      assert name[i] == name[..k][i];
    }
  }

  /** Splitting undoes joining. */
  lemma {:induction false} SplitJoin(path: seq<string>)
    requires path != [] && forall i :: 0 <= i < |path| ==> '.' !in path[i]
    ensures Split(Join(path)) == path
    decreases |path|
  {
    var name := Join(path);
    if |path| == 1 {
      FirstDotAt(name, |name|);
    } else {
      var k := |path[0]|;
      assert name[..k] == path[0] && name[k + 1..] == Join(path[1..]);
      FirstDotAt(name, k);
      SplitJoin(path[1..]);
    }
  }

  /** ``prefix ? `${prefix}.${key}` : key`` */
  function FullKey(prefix: string, key: string): string {
    if prefix == "" then key else prefix + "." + key
  }

  /** One entry of the flat map. */
  datatype Named = Named(name: string, text: string)

  /** The source's recursion over an object, with the name built up so far. */
  function FlattenText(es: seq<Entry>, prefix: string): seq<Named>
    decreases es
  {
    if es == [] then []
    else FlattenTextEntry(es[0], prefix) + FlattenText(es[1..], prefix)
  }

  function FlattenTextEntry(e: Entry, prefix: string): seq<Named>
    decreases e
  {
    match e.value
    case Text(t) => [Named(FullKey(prefix, e.key), t)]
    case Branch(sub) => FlattenText(sub, FullKey(prefix, e.key))
  }

  /** The leaves under their dotted names. */
  function Names(leaves: seq<Leaf>, prefix: string): (r: seq<Named>)
    ensures |r| == |leaves|
  {
    seq(|leaves|, i requires 0 <= i < |leaves| => Named(FullKey(prefix, Join(leaves[i].path)), leaves[i].text))
  }

  lemma {:induction false} NamesUnder(leaves: seq<Leaf>, key: string, prefix: string)
    requires Simple(key) && forall i :: 0 <= i < |leaves| ==> leaves[i].path != []
    ensures Names(Under(key, leaves), prefix) == Names(leaves, FullKey(prefix, key))
  {
    var u := Under(key, leaves);
    forall i | 0 <= i < |leaves|
      ensures FullKey(prefix, Join(u[i].path)) == FullKey(FullKey(prefix, key), Join(leaves[i].path))
    {
      assert u[i].path[1..] == leaves[i].path;
      if prefix != "" {
        assert prefix + "." + (key + "." + Join(leaves[i].path)) == (prefix + "." + key) + "." + Join(leaves[i].path);
      }
    }
  }

  /** The recursion names every leaf by its path, joined with dots. */
  lemma {:induction false} FlattenTextNames(es: seq<Entry>, prefix: string)
    requires WellFormed(es)
    ensures FlattenText(es, prefix) == Names(Flatten(es), prefix)
    decreases es
  {
    if es == [] {
    } else {
      var e := es[0];
      WellFormedTail(es);
      FlattenTextNames(es[1..], prefix);
      assert FlattenTextEntry(e, prefix) == Names(FlattenEntry(e), prefix) by {
        if e.value.Branch? {
          FlattenTextNames(e.value.entries, FullKey(prefix, e.key));
          PathsNonEmpty(e.value.entries);
          NamesUnder(Flatten(e.value.entries), e.key, prefix);
        }
      }
      assert Names(Flatten(es), prefix) == Names(FlattenEntry(e), prefix) + Names(Flatten(es[1..]), prefix);
    }
  }

  lemma {:induction false} SimplePaths(es: seq<Entry>)
    requires WellFormed(es)
    ensures forall i :: 0 <= i < |Flatten(es)| ==> SimplePath(Flatten(es)[i].path)
    decreases es
  {
    if es == [] {
    } else {
      WellFormedTail(es);
      SimplePaths(es[1..]);
      if es[0].value.Branch? {
        SimplePaths(es[0].value.entries);
        forall i | 0 <= i < |FlattenEntry(es[0])| ensures SimplePath(FlattenEntry(es[0])[i].path) {
          SimpleCons(es[0].key, Flatten(es[0].value.entries)[i].path);
        }
      }
    }
  }

  lemma {:induction false} SimpleCons(key: string, path: seq<string>)
    requires Simple(key) && SimplePath(path)
    ensures SimplePath([key] + path)
  {
  }

  /** The dotted names of an object all differ. */
  lemma {:induction false} NamesDiffer(es: seq<Entry>, i: nat, j: nat)
    requires WellFormed(es) && i < j < |Flatten(es)|
    ensures Join(Flatten(es)[i].path) != Join(Flatten(es)[j].path)
  {
    FlattenPrefixFree(es);
    SimplePaths(es);
    SplitJoin(Flatten(es)[i].path);
    SplitJoin(Flatten(es)[j].path);
  }

  /** `setNestedValue` for each entry of a flat map, starting from an empty object. */
  function SetAllNamed(es: seq<Entry>, flat: seq<Named>): seq<Entry>
    decreases |flat|
  {
    if flat == [] then es
    else SetAllNamed(SetPath(es, Split(flat[0].name), flat[0].text), flat[1..])
  }

  lemma {:induction false} SetAllNames(es: seq<Entry>, leaves: seq<Leaf>)
    requires forall i :: 0 <= i < |leaves| ==> SimplePath(leaves[i].path)
    ensures SetAllNamed(es, Names(leaves, "")) == SetAll(es, leaves)
    decreases |leaves|
  {
    if leaves == [] {
    } else {
      SplitJoin(leaves[0].path);
      assert Names(leaves, "")[1..] == Names(leaves[1..], "");
      SetAllNames(SetPath(es, leaves[0].path, leaves[0].text), leaves[1..]);
    }
  }

  /** The flat map of `es` with other texts under the same names. */
  function Retexted(es: seq<Entry>, texts: seq<string>): (r: seq<Named>)
    requires |texts| == |FlattenText(es, "")|
    ensures |r| == |texts|
  {
    seq(|texts|, i requires 0 <= i < |texts| => Named(FlattenText(es, "")[i].name, texts[i]))
  }

  /** Whatever texts replace those of an object, rebuilding from the names and flattening again gives exactly
      these names and texts, in order. */
  lemma {:induction false} NamedRoundTrip(es: seq<Entry>, texts: seq<string>)
    requires WellFormed(es) && |texts| == |FlattenText(es, "")|
    ensures FlattenText(SetAllNamed([], Retexted(es, texts)), "") == Retexted(es, texts)
  {
    FlattenTextNames(es, "");
    SimplePaths(es);
    var leaves := WithTexts(Flatten(es), texts);
    assert Retexted(es, texts) == Names(leaves, "");
    SetAllNames([], leaves);
    FlattenRetext(es, texts);
    RetextWellFormed(es, texts);
    RebuildFlatten(Retext(es, texts));
    FlattenPrune(Retext(es, texts));
    PruneWellFormed(Retext(es, texts));
    FlattenTextNames(Prune(Retext(es, texts)), "");
  }

  ghost predicate HasKey(es: seq<Entry>, key: string) {
    exists j :: 0 <= j < |es| && es[j].key == key
  }

  lemma {:induction false} PruneKeys(es: seq<Entry>, key: string)
    requires HasKey(Prune(es), key)
    ensures HasKey(es, key)
    decreases |es|
  {
    var p, rest := Prune(es), Prune(es[1..]);
    var i :| 0 <= i < |p| && p[i].key == key;
    if i < |PruneEntry(es[0])| {
      assert es[0].key == key;
    } else {
      assert rest[i - |PruneEntry(es[0])|].key == key;
      PruneKeys(es[1..], key);
      var j :| 0 <= j < |es[1..]| && es[1..][j].key == key;
      assert es[j + 1].key == key;
    }
  }

  lemma {:induction false} PruneWellFormed(es: seq<Entry>)
    requires WellFormed(es)
    ensures WellFormed(Prune(es))
    decreases es
  {
    if es == [] {
    } else {
      var e, p := es[0], Prune(es[1..]);
      WellFormedTail(es);
      PruneWellFormed(es[1..]);
      if e.value.Branch? {
        PruneWellFormed(e.value.entries);
      }
      forall j | 0 <= j < |p| ensures e.key != p[j].key {
        PruneKeys(es[1..], p[j].key);
      }
      if PruneEntry(e) != [] {
        WellFormedCons(PruneEntry(e)[0], p);
        assert Prune(es) == [PruneEntry(e)[0]] + p;
      } else {
        assert Prune(es) == p;
      }
    }
  }

  // ---------- maps from names to texts ----------

  function FindName(flat: seq<Named>, name: string): (k: nat)
    ensures k <= |flat|
    ensures k < |flat| ==> flat[k].name == name
    ensures forall i :: 0 <= i < k ==> flat[i].name != name
  {
    if flat == [] || flat[0].name == name then 0 else 1 + FindName(flat[1..], name)
  }

  lemma {:induction false} FindNameIs(flat: seq<Named>, name: string, k: nat)
    requires k <= |flat| && (forall i :: 0 <= i < k ==> flat[i].name != name) && (k < |flat| ==> flat[k].name == name)
    ensures FindName(flat, name) == k
  {
    hide FindName;
    var f := FindName(flat, name);
    assert f <= |flat|;
  }

  /** `Map.get` */
  function Lookup(flat: seq<Named>, name: string): Option<string> {
    var k := FindName(flat, name);
    if k < |flat| then Some(flat[k].text) else None
  }

  /** `Map.set` keeps the place of a name that is already there. */
  function PutName(flat: seq<Named>, name: string, text: string): seq<Named> {
    var k := FindName(flat, name);
    if k < |flat| then flat[k := Named(name, text)] else flat + [Named(name, text)]
  }

  function PutAllNames(flat: seq<Named>, more: seq<Named>): seq<Named>
    decreases |more|
  {
    if more == [] then flat else PutAllNames(PutName(flat, more[0].name, more[0].text), more[1..])
  }

  lemma {:induction false} PutAllConcat(flat: seq<Named>, a: seq<Named>, b: seq<Named>)
    ensures PutAllNames(flat, a + b) == PutAllNames(PutAllNames(flat, a), b)
    decreases |a|
  {
    if a == [] {
      assert a + b == b;
    } else {
      assert (a + b)[1..] == a[1..] + b;
      PutAllConcat(PutName(flat, a[0].name, a[0].text), a[1..], b);
    }
  }

  lemma {:induction false} PutAllOne(flat: seq<Named>, n: Named)
    ensures PutAllNames(flat, [n]) == PutName(flat, n.name, n.text)
  {
    assert [n][1..] == [];
  }

  ghost predicate DistinctNames(flat: seq<Named>) {
    forall i, j :: 0 <= i < j < |flat| ==> flat[i].name != flat[j].name
  }

  /** A map has no name twice. */
  lemma {:induction false} PutAllKeepsDistinct(flat: seq<Named>, more: seq<Named>)
    requires DistinctNames(flat)
    ensures DistinctNames(PutAllNames(flat, more))
    decreases |more|
  {
    if more == [] {
    } else {
      PutNameKeepsDistinct(flat, more[0].name, more[0].text);
      PutAllKeepsDistinct(PutName(flat, more[0].name, more[0].text), more[1..]);
    }
  }

  lemma {:induction false} PutNameKeepsDistinct(flat: seq<Named>, name: string, text: string)
    requires DistinctNames(flat)
    ensures DistinctNames(PutName(flat, name, text))
  {
    hide FindName;
    assert FindName(flat, name) <= |flat|;
  }

  /** New names are appended in order. */
  lemma {:induction false} PutAllDistinct(flat: seq<Named>, more: seq<Named>)
    requires DistinctNames(flat + more)
    ensures PutAllNames(flat, more) == flat + more
    decreases |more|
  {
    if more == [] {
    } else {
      var all := flat + more;
      forall i | 0 <= i < |flat| ensures flat[i].name != more[0].name {
        assert all[i].name != all[|flat|].name;
      }
      FindNameIs(flat, more[0].name, |flat|);
      assert flat + [more[0]] + more[1..] == all;
      PutAllDistinct(flat + [more[0]], more[1..]);
    }
  }

  lemma {:induction false} NamesDistinct(es: seq<Entry>)
    requires WellFormed(es)
    ensures DistinctNames(FlattenText(es, ""))
  {
    FlattenTextNames(es, "");
    forall i, j | 0 <= i < j < |Flatten(es)|
      ensures FlattenText(es, "")[i].name != FlattenText(es, "")[j].name
    {
      NamesDiffer(es, i, j);
    }
  }

  lemma {:induction false} FlattenTextConcat(a: seq<Entry>, b: seq<Entry>, prefix: string)
    ensures FlattenText(a + b, prefix) == FlattenText(a, prefix) + FlattenText(b, prefix)
    decreases |a|
  {
    if a == [] {
      assert a + b == b;
    } else {
      assert (a + b)[1..] == a[1..] + b;
      FlattenTextConcat(a[1..], b, prefix);
    }
  }

  lemma {:induction false} FlattenTextSnoc(es: seq<Entry>, i: nat, prefix: string)
    requires i < |es|
    ensures FlattenText(es[..i + 1], prefix) == FlattenText(es[..i], prefix) + FlattenTextEntry(es[i], prefix)
  {
    assert es[..i + 1] == es[..i] + [es[i]];
    FlattenTextConcat(es[..i], [es[i]], prefix);
    assert [es[i]][1..] == [];
  }
}
