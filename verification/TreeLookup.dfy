/** Reading back what was set: objects rebuilt from any names that do not get in each other's way. */
module TreeLookup {
  import opened Options
  import opened TranslationTree
  import opened DottedKeys

  /** The text at the end of a path. */
  function TextAt(es: seq<Entry>, path: seq<string>): Option<string>
    decreases |path|
  {
    if path == [] then None
    else
      var k := Find(es, path[0]);
      if k == |es| then None
      else match es[k].value
        case Text(t) => if |path| == 1 then Some(t) else None
        case Branch(sub) => TextAt(sub, path[1..])
  }

  ghost predicate Apart(p: seq<string>, q: seq<string>) {
    !(p <= q) && !(q <= p)
  }

  // ---------- setting one path ----------

  lemma {:induction false} FindPut(es: seq<Entry>, key: string, value: Tree, other: string)
    ensures var r, k := Put(es, key, value), Find(Put(es, key, value), other);
            if other == key then k < |r| && r[k] == Entry(key, value)
            else (k == |r| <==> Find(es, other) == |es|) && (k < |r| ==> Find(es, other) < |es| && r[k] == es[Find(es, other)])
  {
    hide Find;
    var r, k, f := Put(es, key, value), Find(es, key), Find(es, other);
    if other == key {
      FindIs(r, key, k);
    } else if f < |es| {
      FindIs(r, other, f);
    } else {
      FindIs(r, other, |r|);
    }
  }

  lemma {:induction false} SetThenGet(es: seq<Entry>, path: seq<string>, text: string)
    requires path != []
    ensures TextAt(SetPath(es, path, text), path) == Some(text)
    decreases |path|
  {
    hide Find, Put;
    if |path| == 1 {
      FindPut(es, path[0], Text(text), path[0]);
    } else {
      var sub := SetPath(Child(es, path[0]), path[1..], text);
      FindPut(es, path[0], Branch(sub), path[0]);
      SetThenGet(Child(es, path[0]), path[1..], text);
    }
  }

  lemma {:induction false} ApartTails(p: seq<string>, q: seq<string>)
    requires p != [] && q != [] && p[0] == q[0] && Apart(p, q)
    ensures |p| > 1 && |q| > 1 && Apart(p[1..], q[1..])
  {
    assert p == [p[0]] + p[1..] && q == [q[0]] + q[1..];
    ConsPrefix(p[0], p[1..], q[1..]);
    ConsPrefix(p[0], q[1..], p[1..]);
  }

  /** What a path reads in the object under its first key. */
  lemma {:induction false} TextBelow(es: seq<Entry>, path: seq<string>)
    requires |path| > 1
    ensures TextAt(es, path) == TextAt(Child(es, path[0]), path[1..])
  {
    hide Find;
    if Child(es, path[0]) == [] {
      assert Find([], path[1]) == 0;
    }
  }

  lemma {:induction false} SetElsewhere(es: seq<Entry>, path: seq<string>, text: string, other: seq<string>)
    requires path != [] && other != [] && Apart(path, other)
    ensures TextAt(SetPath(es, path, text), other) == TextAt(es, other)
    decreases |path|
  {
    if path[0] == other[0] {
      ApartTails(path, other);
      var sub := SetPath(Child(es, path[0]), path[1..], text);
      FindPut(es, path[0], Branch(sub), path[0]);
      SetElsewhere(Child(es, path[0]), path[1..], text, other[1..]);
      hide Find, Put, Apart;
      TextBelow(es, other);
      TextBelow(SetPath(es, path, text), other);
    } else {
      hide Find, Put, Child;
      FindPut(es, path[0], if |path| == 1 then Text(text) else Branch(SetPath(Child(es, path[0]), path[1..], text)), other[0]);
    }
  }

  /** Keys are free of dots and differ within an object. */
  ghost predicate Keyed(es: seq<Entry>)
    decreases es
  {
    && (forall i, j :: 0 <= i < j < |es| ==> es[i].key != es[j].key)
    && (forall i :: 0 <= i < |es| ==> '.' !in es[i].key)
    && (forall i :: 0 <= i < |es| && es[i].value.Branch? ==> Keyed(es[i].value.entries))
  }

  /** Nothing is nested under the empty key. */
  ghost predicate EmptyIsText(es: seq<Entry>) {
    forall i :: 0 <= i < |es| && es[i].key == "" ==> es[i].value.Text?
  }

  ghost predicate DotFreePath(path: seq<string>) {
    path != [] && forall i :: 0 <= i < |path| ==> '.' !in path[i]
  }

  lemma {:induction false} PutKeyed(es: seq<Entry>, key: string, value: Tree)
    requires Keyed(es) && '.' !in key && (value.Branch? ==> Keyed(value.entries))
    ensures Keyed(Put(es, key, value))
  {
    hide Find;
    assert Find(es, key) <= |es|;
  }

  lemma {:induction false} SetKeepsKeyed(es: seq<Entry>, path: seq<string>, text: string)
    requires Keyed(es) && DotFreePath(path)
    ensures Keyed(SetPath(es, path, text))
    decreases |path|
  {
    if |path| == 1 {
      PutKeyed(es, path[0], Text(text));
    } else {
      assert Keyed(Child(es, path[0])) by {
        assert Find(es, path[0]) <= |es|;
      }
      SetKeepsKeyed(Child(es, path[0]), path[1..], text);
      PutKeyed(es, path[0], Branch(SetPath(Child(es, path[0]), path[1..], text)));
    }
  }

  lemma {:induction false} SetKeepsEmptyText(es: seq<Entry>, path: seq<string>, text: string)
    requires EmptyIsText(es) && path != [] && (path[0] == "" ==> |path| == 1)
    ensures EmptyIsText(SetPath(es, path, text))
  {
    hide Find;
    assert Find(es, path[0]) <= |es|;
  }

  /** A text has nothing below it. */
  lemma {:induction false} NothingBelowText(es: seq<Entry>, p: seq<string>, q: seq<string>)
    requires TextAt(es, p).Some? && p < q
    ensures TextAt(es, q) == None
    decreases |p|
  {
    assert q[0] == p[0];
    var k := Find(es, p[0]);
    if |p| <= 1 {
    } else {
      assert p[1..] < q[1..];
      NothingBelowText(es[k].value.entries, p[1..], q[1..]);
    }
  }

  // ---------- from the object to its flat map and back ----------

  ghost predicate HasNamed(flat: seq<Named>, name: string, text: string) {
    exists i :: 0 <= i < |flat| && flat[i] == Named(name, text)
  }

  /** The name that the recursion gives to the text at the end of a path. */
  function NameUnder(prefix: string, path: seq<string>): string
    requires path != []
    decreases |path|
  {
    if |path| == 1 then FullKey(prefix, path[0]) else NameUnder(FullKey(prefix, path[0]), path[1..])
  }

  lemma {:induction false} NameIsJoin(prefix: string, path: seq<string>)
    requires path != []
    ensures prefix != "" ==> NameUnder(prefix, path) == prefix + "." + Join(path)
    ensures prefix == "" && (path[0] == "" ==> |path| == 1) ==> NameUnder(prefix, path) == Join(path)
    decreases |path|
  {
    if |path| <= 1 {
    } else {
      NameIsJoin(FullKey(prefix, path[0]), path[1..]);
      if prefix != "" {
        assert prefix + "." + path[0] + "." + Join(path[1..]) == prefix + "." + (path[0] + "." + Join(path[1..]));
      }
    }
  }

  predicate StartsWithDot(name: string) {
    name != "" && name[0] == '.'
  }

  /** The recursion never names anything with a dot in front. */
  lemma {:induction false} NeverDotFirst(prefix: string, path: seq<string>)
    requires DotFreePath(path) && !StartsWithDot(prefix)
    ensures !StartsWithDot(NameUnder(prefix, path))
    decreases |path|
  {
    assert '.' !in path[0];
    if |path| <= 1 {
    } else {
      assert forall i :: 0 <= i < |path[1..]| ==> path[1..][i] == path[i + 1];
      NeverDotFirst(FullKey(prefix, path[0]), path[1..]);
    }
  }

  lemma {:induction false} NamedConcat(a: seq<Named>, b: seq<Named>, name: string, text: string)
    requires HasNamed(a, name, text) || HasNamed(b, name, text)
    ensures HasNamed(a + b, name, text)
  {
    if HasNamed(a, name, text) {
      var i :| 0 <= i < |a| && a[i] == Named(name, text);
      assert (a + b)[i] == a[i];
    } else {
      var i :| 0 <= i < |b| && b[i] == Named(name, text);
      assert (a + b)[|a| + i] == b[i];
    }
  }

  lemma {:induction false} FlattenOpened(es: seq<Entry>, prefix: string)
    requires es != []
    ensures FlattenText(es, prefix) == FlattenTextEntry(es[0], prefix) + FlattenText(es[1..], prefix)
  {
  }

  /** Every text is found in the flat map, under the name of its path. */
  lemma {:induction false} TextIsNamed(es: seq<Entry>, path: seq<string>, text: string, prefix: string)
    requires TextAt(es, path) == Some(text)
    ensures HasNamed(FlattenText(es, prefix), NameUnder(prefix, path), text)
    decreases es
  {
    var k := Find(es, path[0]);
    if k == 0 {
      NamedOfEntry(es[0], path, text, prefix);
    } else {
      assert es[1..][k - 1] == es[k];
      FindIs(es[1..], path[0], k - 1);
      TextIsNamed(es[1..], path, text, prefix);
    }
    hide FlattenText, FlattenTextEntry, TextAt, Find, HasNamed, NameUnder;
    FlattenOpened(es, prefix);
    NamedConcat(FlattenTextEntry(es[0], prefix), FlattenText(es[1..], prefix), NameUnder(prefix, path), text);
  }

  lemma {:induction false} NamedOfEntry(e: Entry, path: seq<string>, text: string, prefix: string)
    requires path != [] && path[0] == e.key
    requires match e.value
             case Text(t) => |path| == 1 && t == text
             case Branch(sub) => TextAt(sub, path[1..]) == Some(text)
    ensures HasNamed(FlattenTextEntry(e, prefix), NameUnder(prefix, path), text)
    decreases e, 0
  {
    match e.value
    case Text(t) =>
      assert FlattenTextEntry(e, prefix)[0] == Named(NameUnder(prefix, path), text);
    case Branch(sub) =>
      TextIsNamed(sub, path[1..], text, FullKey(prefix, e.key));
      hide FlattenText, HasNamed;
      assert NameUnder(prefix, path) == NameUnder(FullKey(prefix, e.key), path[1..]);
  }

  /** Every entry of the flat map is a text of the object. */
  lemma {:induction false} NamedIsText(es: seq<Entry>, name: string, text: string, prefix: string) returns (path: seq<string>)
    requires Keyed(es) && HasNamed(FlattenText(es, prefix), name, text)
    ensures DotFreePath(path) && TextAt(es, path) == Some(text) && name == NameUnder(prefix, path)
    decreases es
  {
    var i :| 0 <= i < |FlattenText(es, prefix)| && FlattenText(es, prefix)[i] == Named(name, text);
    FlattenOpened(es, prefix);
    var first := FlattenTextEntry(es[0], prefix);
    if i < |first| {
      assert first[i] == Named(name, text);
      path := EntryIsText(es[0], name, text, prefix);
      FindIs(es, es[0].key, 0);
    } else {
      assert FlattenText(es[1..], prefix)[i - |first|] == Named(name, text);
      path := NamedIsText(es[1..], name, text, prefix);
      var k := Find(es[1..], path[0]);
      assert es[k + 1] == es[1..][k];
      FindIs(es, path[0], k + 1);
    }
  }

  lemma {:induction false} EntryIsText(e: Entry, name: string, text: string, prefix: string) returns (path: seq<string>)
    requires '.' !in e.key && (e.value.Branch? ==> Keyed(e.value.entries))
    requires HasNamed(FlattenTextEntry(e, prefix), name, text)
    ensures DotFreePath(path) && path[0] == e.key && name == NameUnder(prefix, path)
    ensures match e.value
            case Text(t) => |path| == 1 && t == text
            case Branch(sub) => TextAt(sub, path[1..]) == Some(text) && |path| > 1
    decreases e, 0
  {
    match e.value
    case Text(t) =>
      path := [e.key];
    case Branch(sub) =>
      var rest := NamedIsText(sub, name, text, FullKey(prefix, e.key));
      path := [e.key] + rest;
      assert path[1..] == rest;
  }

  // ---------- a name in the map ----------

  lemma {:induction false} LookupPut(flat: seq<Named>, name: string, text: string, other: string)
    ensures Lookup(PutName(flat, name, text), other) == if other == name then Some(text) else Lookup(flat, other)
  {
    hide FindName;
    var r, k, f := PutName(flat, name, text), FindName(flat, name), FindName(flat, other);
    if other == name {
      FindNameIs(r, other, k);
    } else {
      FindNameIs(r, other, if f < |flat| then f else |r|);
    }
  }

  /** A map filled from a list holds for a name a text that the list has for it, if it has any. */
  lemma {:induction false} LookupFilled(flat: seq<Named>, more: seq<Named>, name: string)
    ensures var r := Lookup(PutAllNames(flat, more), name);
            && (r.Some? ==> r == Lookup(flat, name) || HasNamed(more, name, r.value))
            && (r.None? ==> Lookup(flat, name).None? && forall text :: !HasNamed(more, name, text))
    decreases |more|
  {
    hide Lookup, PutName;
    if more == [] {
    } else {
      LookupPut(flat, more[0].name, more[0].text, name);
      LookupFilled(PutName(flat, more[0].name, more[0].text), more[1..], name);
      forall text ensures HasNamed(more, name, text) <==> more[0] == Named(name, text) || HasNamed(more[1..], name, text) {
        HasNamedCons(more, name, text);
      }
    }
  }

  lemma {:induction false} HasNamedCons(flat: seq<Named>, name: string, text: string)
    requires flat != []
    ensures HasNamed(flat, name, text) <==> flat[0] == Named(name, text) || HasNamed(flat[1..], name, text)
  {
    assert flat == [flat[0]] + flat[1..];
    if HasNamed(flat[1..], name, text) {
      NamedConcat([flat[0]], flat[1..], name, text);
    }
    if HasNamed(flat, name, text) && flat[0] != Named(name, text) {
      var i :| 0 <= i < |flat| && flat[i] == Named(name, text);
      assert flat[1..][i - 1] == flat[i];
    }
  }

  /** The flat map of an object that was written and is read again. */
  function Reread(es: seq<Entry>): seq<Named> {
    PutAllNames([], FlattenText(es, ""))
  }

  lemma {:induction false} RereadNone(es: seq<Entry>, name: string)
    requires Lookup(Reread(es), name).None?
    ensures forall text :: !HasNamed(FlattenText(es, ""), name, text)
  {
    hide FlattenText, HasNamed;
    LookupFilled([], FlattenText(es, ""), name);
  }

  lemma {:induction false} RereadSome(es: seq<Entry>, name: string)
    requires Keyed(es) && EmptyIsText(es) && Lookup(Reread(es), name).Some?
    ensures TextAt(es, Split(name)) == Lookup(Reread(es), name)
  {
    var text := Lookup(Reread(es), name).value;
    hide FlattenText, HasNamed, Keyed, Lookup, PutAllNames;
    LookupFilled([], FlattenText(es, ""), name);
    EmptyLookup(name);
    var path := NamedIsText(es, name, text, "");
    EmptyKeyAlone(es, path);
    NameIsJoin("", path);
    SplitJoin(path);
  }

  lemma {:induction false} EmptyLookup(name: string)
    ensures Lookup([], name) == None
  {
  }

  lemma {:induction false} EmptyKeyAlone(es: seq<Entry>, path: seq<string>)
    requires EmptyIsText(es) && TextAt(es, path).Some?
    ensures path != [] && (path[0] == "" ==> |path| == 1)
  {
    var k := Find(es, path[0]);
  }

  // ---------- names that can be read back ----------

  lemma {:induction false} JoinCons(key: string, path: seq<string>)
    requires path != []
    ensures Join([key] + path) == key + "." + Join(path)
  {
    assert ([key] + path)[1..] == path;
  }

  lemma {:induction false} AroundDot(name: string, k: nat)
    requires k < |name| && name[k] == '.'
    ensures name[..k] + "." + name[k + 1..] == name
  {
  }

  /** Joining undoes splitting, for any name. */
  lemma {:induction false} JoinSplit(name: string)
    ensures Join(Split(name)) == name
    decreases |name|
  {
    var k := FirstDot(name);
    if k == |name| {
    } else {
      JoinSplit(name[k + 1..]);
      assert Split(name) == [name[..k]] + Split(name[k + 1..]);
      hide Split, Join, FirstDot;
      JoinCons(name[..k], Split(name[k + 1..]));
      AroundDot(name, k);
    }
  }

  lemma {:induction false} SplitDotFree(name: string)
    ensures DotFreePath(Split(name))
    decreases |name|
  {
    var k := FirstDot(name);
    if k == |name| {
    } else {
      SplitDotFree(name[k + 1..]);
      var path, rest := Split(name), Split(name[k + 1..]);
      assert forall i :: 0 < i < |path| ==> path[i] == rest[i - 1];
    }
  }

  lemma {:induction false} SplitStart(name: string)
    ensures StartsWithDot(name) <==> Split(name)[0] == "" && |Split(name)| > 1
  {
    var k := FirstDot(name);
    assert k < |name| ==> |Split(name[k + 1..])| >= 1;
    if k == 0 && name != "" {
      assert name[..0] == "";
    }
  }

  /** No name starts with a dot, and none is a dotted beginning of another. */
  ghost predicate Rereadable(flat: seq<Named>) {
    && (forall i :: 0 <= i < |flat| ==> !StartsWithDot(flat[i].name))
    && (forall i, j :: 0 <= i < j < |flat| ==> Apart(Split(flat[i].name), Split(flat[j].name)))
  }

  lemma {:induction false} SetAllElsewhere(es: seq<Entry>, flat: seq<Named>, path: seq<string>)
    requires path != [] && forall i :: 0 <= i < |flat| ==> Apart(Split(flat[i].name), path)
    ensures TextAt(SetAllNamed(es, flat), path) == TextAt(es, path)
    decreases |flat|
  {
    hide TextAt, SetPath, Split, Apart;
    if flat == [] {
    } else {
      SetElsewhere(es, Split(flat[0].name), flat[0].text, path);
      SetAllElsewhere(SetPath(es, Split(flat[0].name), flat[0].text), flat[1..], path);
    }
  }

  lemma {:induction false} SetAllThenGet(es: seq<Entry>, flat: seq<Named>, j: nat)
    requires j < |flat| && forall i, k :: 0 <= i < k < |flat| ==> Apart(Split(flat[i].name), Split(flat[k].name))
    ensures TextAt(SetAllNamed(es, flat), Split(flat[j].name)) == Some(flat[j].text)
    decreases |flat|
  {
    hide TextAt, SetPath, Split, Apart;
    var es1, p := SetPath(es, Split(flat[0].name), flat[0].text), Split(flat[0].name);
    if j == 0 {
      SetThenGet(es, p, flat[0].text);
      forall i | 0 <= i < |flat[1..]| ensures Apart(Split(flat[1..][i].name), p) {
        ApartCommutes(p, Split(flat[i + 1].name));
      }
      SetAllElsewhere(es1, flat[1..], p);
    } else {
      SetAllThenGet(es1, flat[1..], j - 1);
    }
  }

  lemma {:induction false} ApartCommutes(p: seq<string>, q: seq<string>)
    requires Apart(p, q)
    ensures Apart(q, p)
  {
  }

  lemma {:induction false} SetAllKeyed(es: seq<Entry>, flat: seq<Named>)
    requires Keyed(es)
    ensures Keyed(SetAllNamed(es, flat))
    decreases |flat|
  {
    hide SetPath, Split, Keyed;
    if flat == [] {
    } else {
      SplitDotFree(flat[0].name);
      SetKeepsKeyed(es, Split(flat[0].name), flat[0].text);
      SetAllKeyed(SetPath(es, Split(flat[0].name), flat[0].text), flat[1..]);
    }
  }

  lemma {:induction false} SetAllEmptyText(es: seq<Entry>, flat: seq<Named>)
    requires EmptyIsText(es) && forall i :: 0 <= i < |flat| ==> !StartsWithDot(flat[i].name)
    ensures EmptyIsText(SetAllNamed(es, flat))
    decreases |flat|
  {
    hide SetPath, Split, EmptyIsText, StartsWithDot;
    if flat == [] {
    } else {
      SplitStart(flat[0].name);
      SetKeepsEmptyText(es, Split(flat[0].name), flat[0].text);
      SetAllEmptyText(SetPath(es, Split(flat[0].name), flat[0].text), flat[1..]);
    }
  }

  /** An object built from names that can be read back has, read again, each text under its name. */
  lemma {:induction false} RebuiltIsReread(flat: seq<Named>, j: nat)
    requires Rereadable(flat) && j < |flat|
    ensures Lookup(Reread(SetAllNamed([], flat)), flat[j].name) == Some(flat[j].text)
  {
    SetAllKeyed([], flat);
    SetAllEmptyText([], flat);
    SetAllThenGet([], flat, j);
    SplitStart(flat[j].name);
    hide *;
    var es, name := SetAllNamed([], flat), flat[j].name;
    TextIsNamed(es, Split(name), flat[j].text, "");
    NameIsJoin("", Split(name));
    JoinSplit(name);
    if Lookup(Reread(es), name).None? {
      RereadNone(es, name);
    } else {
      RereadSome(es, name);
    }
  }

  /** If the names cannot all be read back, one of them is not there at all when the object is read again. */
  lemma {:induction false} OneIsLost(flat: seq<Named>) returns (j: nat)
    requires DistinctNames(flat) && !Rereadable(flat)
    ensures j < |flat| && Lookup(Reread(SetAllNamed([], flat)), flat[j].name) == None
  {
    SetAllKeyed([], flat);
    hide SetAllNamed, Lookup, Reread, Keyed, Apart, Split;
    var es := SetAllNamed([], flat);
    if i :| 0 <= i < |flat| && StartsWithDot(flat[i].name) {
      j := i;
      DotFirstIsLost(es, flat[i].name);
    } else {
      SetAllEmptyText([], flat);
      var i, k :| 0 <= i < k < |flat| && !Apart(Split(flat[i].name), Split(flat[k].name));
      j := if Lookup(Reread(es), flat[i].name).None? then i else k;
      if Lookup(Reread(es), flat[i].name).Some? && Lookup(Reread(es), flat[k].name).Some? {
        RereadSome(es, flat[i].name);
        RereadSome(es, flat[k].name);
        NotBothThere(es, flat[i].name, flat[k].name);
      }
    }
  }

  lemma {:induction false} DotFirstIsLost(es: seq<Entry>, name: string)
    requires Keyed(es) && StartsWithDot(name)
    ensures Lookup(Reread(es), name) == None
  {
    hide Lookup, FlattenText, PutAllNames, Keyed, HasNamed;
    LookupFilled([], FlattenText(es, ""), name);
    EmptyLookup(name);
    if Lookup(Reread(es), name).Some? {
      var path := NamedIsText(es, name, Lookup(Reread(es), name).value, "");
      NeverDotFirst("", path);
    }
  }

  lemma {:induction false} NotBothThere(es: seq<Entry>, a: string, b: string)
    requires a != b && !Apart(Split(a), Split(b))
    ensures TextAt(es, Split(a)).None? || TextAt(es, Split(b)).None?
  {
    hide TextAt, Split;
    JoinSplit(a);
    JoinSplit(b);
    ProperPrefix(Split(a), Split(b));
    if TextAt(es, Split(a)).Some? && Split(a) < Split(b) {
      NothingBelowText(es, Split(a), Split(b));
    }
    if TextAt(es, Split(b)).Some? && Split(b) < Split(a) {
      NothingBelowText(es, Split(b), Split(a));
    }
  }

  lemma {:induction false} ProperPrefix(p: seq<string>, q: seq<string>)
    requires p != q && !Apart(p, q)
    ensures p < q || q < p
  {
  }

  /** Exactly such names survive being written and read, whatever the texts. */
  lemma {:induction false} RereadIff(flat: seq<Named>)
    requires DistinctNames(flat)
    ensures Rereadable(flat) <==>
            forall j :: 0 <= j < |flat| ==> Lookup(Reread(SetAllNamed([], flat)), flat[j].name) == Some(flat[j].text)
  {
    hide *;
    if Rereadable(flat) {
      forall j | 0 <= j < |flat| ensures Lookup(Reread(SetAllNamed([], flat)), flat[j].name) == Some(flat[j].text) {
        RebuiltIsReread(flat, j);
      }
    } else {
      var j := OneIsLost(flat);
    }
  }

  /** The names of an object with non-empty, dot-free keys can be read back. */
  lemma {:induction false} WellFormedIsRereadable(es: seq<Entry>)
    requires WellFormed(es)
    ensures Rereadable(FlattenText(es, ""))
  {
    hide Flatten, FlattenText, WellFormed, Split, Join;
    FlattenTextNames(es, "");
    SimplePaths(es);
    FlattenPrefixFree(es);
    var leaves, flat := Flatten(es), FlattenText(es, "");
    forall i | 0 <= i < |flat| ensures Split(flat[i].name) == leaves[i].path && !StartsWithDot(flat[i].name) {
      SplitJoin(leaves[i].path);
      SplitStart(flat[i].name);
    }
  }
}
