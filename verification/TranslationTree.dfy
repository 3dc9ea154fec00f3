/** Nested translation maps and their flat form, on values. */
module TranslationTree {
  /** A translation object: its own entries in insertion order, each a text or a nested object. */
  datatype Tree = Text(text: string) | Branch(entries: seq<Entry>)
  datatype Entry = Entry(key: string, value: Tree)

  /** A text together with the keys that lead to it. */
  datatype Leaf = Leaf(path: seq<string>, text: string)

  // ---------- the two directions ----------

  function Under(key: string, leaves: seq<Leaf>): (r: seq<Leaf>)
    ensures |r| == |leaves|
  {
    seq(|leaves|, i requires 0 <= i < |leaves| => Leaf([key] + leaves[i].path, leaves[i].text))
  }

  function FlattenEntry(e: Entry): seq<Leaf>
    decreases e
  {
    match e.value
    case Text(t) => [Leaf([e.key], t)]
    case Branch(sub) => Under(e.key, Flatten(sub))
  }

  /** The leaves of an object in the order of its entries. */
  function Flatten(es: seq<Entry>): seq<Leaf>
    decreases es
  {
    if es == [] then [] else FlattenEntry(es[0]) + Flatten(es[1..])
  }

  /** The position of `key`, or the number of entries when it has none. */
  function Find(es: seq<Entry>, key: string): (k: nat)
    ensures k <= |es|
    ensures k < |es| ==> es[k].key == key
    ensures forall i :: 0 <= i < k ==> es[i].key != key
  {
    if es == [] || es[0].key == key then 0 else 1 + Find(es[1..], key)
  }

  lemma {:induction false} FindIs(es: seq<Entry>, key: string, k: nat)
    requires k <= |es| && (forall i :: 0 <= i < k ==> es[i].key != key) && (k < |es| ==> es[k].key == key)
    ensures Find(es, key) == k
  {
    hide Find;
    assert Find(es, key) <= |es|;
  }

  /** Assignment to a property: an existing one keeps its place, a new one comes last. */
  function Put(es: seq<Entry>, key: string, value: Tree): seq<Entry> {
    var k := Find(es, key);
    if k < |es| then es[k := Entry(key, value)] else es + [Entry(key, value)]
  }

  /** The nested object under `key`, or a new empty one when there is none or a text in its place. */
  function Child(es: seq<Entry>, key: string): seq<Entry> {
    var k := Find(es, key);
    if k < |es| && es[k].value.Branch? then es[k].value.entries else []
  }

  function SetPath(es: seq<Entry>, path: seq<string>, text: string): seq<Entry>
    decreases |path|
  {
    if path == [] then es
    else if |path| == 1 then Put(es, path[0], Text(text))
    else Put(es, path[0], Branch(SetPath(Child(es, path[0]), path[1..], text)))
  }

  /** Setting the leaves one after the other. */
  function SetAll(es: seq<Entry>, leaves: seq<Leaf>): seq<Entry>
    decreases |leaves|
  {
    if leaves == [] then es
    else SetAll(SetPath(es, leaves[0].path, leaves[0].text), leaves[1..])
  }

  function Rebuild(leaves: seq<Leaf>): seq<Entry> {
    SetAll([], leaves)
  }

  // ---------- well-formed objects ----------

  predicate Simple(key: string) {
    key != "" && '.' !in key
  }

  /** Keys are non-empty, free of dots, and differ within an object. */
  ghost predicate WellFormed(es: seq<Entry>)
    decreases es
  {
    && (forall i, j :: 0 <= i < j < |es| ==> es[i].key != es[j].key)
    && (forall i :: 0 <= i < |es| ==> Simple(es[i].key))
    && (forall i :: 0 <= i < |es| && es[i].value.Branch? ==> WellFormed(es[i].value.entries))
  }

  /** No nested object is empty, at any depth. */
  ghost predicate Full(es: seq<Entry>)
    decreases es
  {
    forall i :: 0 <= i < |es| && es[i].value.Branch? ==> es[i].value.entries != [] && Full(es[i].value.entries)
  }

  function PruneEntry(e: Entry): seq<Entry>
    decreases e
  {
    match e.value
    case Text(_) => [e]
    case Branch(sub) => var p := Prune(sub); if p == [] then [] else [Entry(e.key, Branch(p))]
  }

  /** The object without the nested objects that hold no text. */
  function Prune(es: seq<Entry>): seq<Entry>
    decreases es
  {
    if es == [] then [] else PruneEntry(es[0]) + Prune(es[1..])
  }

  // ---------- rebuilding ----------

  lemma {:induction false} SetAllConcat(es: seq<Entry>, a: seq<Leaf>, b: seq<Leaf>)
    ensures SetAll(es, a + b) == SetAll(SetAll(es, a), b)
    decreases |a|
  {
    if a == [] {
      assert a + b == b;
    } else {
      assert (a + b)[1..] == a[1..] + b;
      SetAllConcat(SetPath(es, a[0].path, a[0].text), a[1..], b);
    }
  }

  lemma {:induction false} FindLast(es: seq<Entry>, e: Entry)
    requires forall i :: 0 <= i < |es| ==> es[i].key != e.key
    ensures Find(es, e.key) == |es| && Find(es + [e], e.key) == |es|
  {
    hide Find;
    var k := Find(es + [e], e.key);
    assert (es + [e])[|es|] == e;
    assert forall i :: 0 <= i < |es| ==> (es + [e])[i] == es[i];
    assert k >= |es|;
  }

  /** Setting below a last entry that is an object works inside that object. */
  lemma {:induction false} SetAllUnder(es: seq<Entry>, key: string, sub: seq<Entry>, leaves: seq<Leaf>)
    requires forall i :: 0 <= i < |es| ==> es[i].key != key
    requires forall i :: 0 <= i < |leaves| ==> leaves[i].path != []
    ensures SetAll(es + [Entry(key, Branch(sub))], Under(key, leaves)) == es + [Entry(key, Branch(SetAll(sub, leaves)))]
    decreases |leaves|
  {
    if leaves == [] {
    } else {
      var under := Under(key, leaves);
      var e := Entry(key, Branch(sub));
      FindLast(es, e);
      assert under[0].path[1..] == leaves[0].path;
      var sub1 := SetPath(sub, leaves[0].path, leaves[0].text);
      assert SetPath(es + [e], under[0].path, under[0].text) == es + [Entry(key, Branch(sub1))];
      assert under[1..] == Under(key, leaves[1..]);
      SetAllUnder(es, key, sub1, leaves[1..]);
    }
  }

  lemma {:induction false} SetAllFresh(es: seq<Entry>, key: string, leaves: seq<Leaf>)
    requires forall i :: 0 <= i < |es| ==> es[i].key != key
    requires forall i :: 0 <= i < |leaves| ==> leaves[i].path != []
    requires leaves != []
    ensures SetAll(es, Under(key, leaves)) == es + [Entry(key, Branch(SetAll([], leaves)))]
  {
    var under := Under(key, leaves);
    FindLast(es, Entry(key, Branch([])));
    assert under[0].path[1..] == leaves[0].path;
    assert Child(es, key) == [];
    var sub1 := SetPath([], leaves[0].path, leaves[0].text);
    assert SetPath(es, under[0].path, under[0].text) == es + [Entry(key, Branch(sub1))];
    assert under[1..] == Under(key, leaves[1..]);
    SetAllUnder(es, key, sub1, leaves[1..]);
  }

  lemma {:induction false} PathsNonEmpty(es: seq<Entry>)
    ensures forall i :: 0 <= i < |Flatten(es)| ==> Flatten(es)[i].path != []
    decreases es
  {
    if es == [] {
    } else {
      PathsNonEmpty(es[1..]);
    }
  }

  lemma {:induction false} PruneEmpty(es: seq<Entry>)
    ensures Prune(es) == [] <==> Flatten(es) == []
    decreases es
  {
    if es == [] {
    } else {
      PruneEmpty(es[1..]);
      if es[0].value.Branch? {
        PruneEmpty(es[0].value.entries);
      }
    }
  }

  /** Setting all leaves of an object after entries with other keys appends the object without its empty parts. */
  lemma {:induction false} RebuildAfter(acc: seq<Entry>, es: seq<Entry>)
    requires WellFormed(es)
    requires forall i, j :: 0 <= i < |acc| && 0 <= j < |es| ==> acc[i].key != es[j].key
    ensures SetAll(acc, Flatten(es)) == acc + Prune(es)
    decreases es
  {
    hide WellFormed, SetAll, PruneEntry, FlattenEntry;
    if es == [] {
      assert acc + Prune(es) == acc;
      SetNone(acc);
    } else {
      var e, rest := es[0], es[1..];
      SetAllConcat(acc, FlattenEntry(e), Flatten(rest));
      WellFormedTail(es);
      RebuildEntry(acc, e);
      PruneEntryKey(acc, e, rest);
      RebuildAfter(acc + PruneEntry(e), rest);
      assert acc + PruneEntry(e) + Prune(rest) == acc + Prune(es);
    }
  }

  lemma {:induction false} SetNone(es: seq<Entry>)
    ensures SetAll(es, []) == es
  {
  }

  lemma {:induction false} WellFormedTail(es: seq<Entry>)
    requires WellFormed(es) && es != []
    ensures WellFormed(es[1..])
    ensures es[0].value.Branch? ==> WellFormed(es[0].value.entries)
    ensures forall j :: 0 <= j < |es[1..]| ==> es[0].key != es[1..][j].key
  {
  }

  lemma {:induction false} PruneEntryKey(acc: seq<Entry>, e: Entry, rest: seq<Entry>)
    requires forall j :: 0 <= j < |rest| ==> e.key != rest[j].key
    requires forall i, j :: 0 <= i < |acc| && 0 <= j < |rest| ==> acc[i].key != rest[j].key
    ensures forall i, j :: 0 <= i < |acc + PruneEntry(e)| && 0 <= j < |rest| ==> (acc + PruneEntry(e))[i].key != rest[j].key
  {
    assert forall i :: 0 <= i < |PruneEntry(e)| ==> PruneEntry(e)[i].key == e.key;
  }

  lemma {:induction false} RebuildEntry(acc: seq<Entry>, e: Entry)
    requires e.value.Branch? ==> WellFormed(e.value.entries)
    requires forall i :: 0 <= i < |acc| ==> acc[i].key != e.key
    ensures SetAll(acc, FlattenEntry(e)) == acc + PruneEntry(e)
    decreases e
  {
    match e.value
    case Text(t) =>
      FindLast(acc, e);
      assert FlattenEntry(e)[1..] == [];
      assert SetAll(acc, FlattenEntry(e)) == SetAll(SetPath(acc, [e.key], t), []);
    case Branch(sub) =>
      RebuildAfter([], sub);
      assert [] + Prune(sub) == Prune(sub);
      PathsNonEmpty(sub);
      PruneEmpty(sub);
      if Flatten(sub) == [] {
        assert FlattenEntry(e) == [];
        assert acc + PruneEntry(e) == acc;
      } else {
        SetAllFresh(acc, e.key, Flatten(sub));
      }
  }

  /** Rebuilding from the flat form gives the object back, without its empty parts. */
  lemma {:induction false} RebuildFlatten(es: seq<Entry>)
    requires WellFormed(es)
    ensures Rebuild(Flatten(es)) == Prune(es)
  {
    RebuildAfter([], es);
  }

  lemma {:induction false} PruneShrinks(es: seq<Entry>)
    ensures |Prune(es)| <= |es|
    ensures Prune(es) == es <==> Full(es)
    decreases es
  {
    if es != [] {
      PruneShrinks(es[1..]);
      var e := es[0];
      assert Full(es) <==> Full(es[1..]) && (e.value.Branch? ==> e.value.entries != [] && Full(e.value.entries)) by {
        FullCons(es);
      }
      if e.value.Branch? {
        PruneShrinks(e.value.entries);
      }
      assert es == [e] + es[1..];
      if Prune(es) == es {
        assert |PruneEntry(e)| == 1;
        assert PruneEntry(e) == [e];
        assert Prune(es)[1..] == Prune(es[1..]);
      }
    } 
  }

  lemma {:induction false} FullCons(es: seq<Entry>)
    requires es != []
    ensures Full(es) <==> Full(es[1..]) && (es[0].value.Branch? ==> es[0].value.entries != [] && Full(es[0].value.entries))
  {
    assert forall i :: 0 < i < |es| ==> es[i] == es[1..][i - 1];
  }

  /** The round trip is the identity exactly on objects without empty nested objects. */
  lemma {:induction false} RoundTrip(es: seq<Entry>)
    requires WellFormed(es)
    ensures Rebuild(Flatten(es)) == es <==> Full(es)
  {
    RebuildFlatten(es);
    PruneShrinks(es);
  }

  // ---------- the same keys with other texts ----------

  function WithTexts(leaves: seq<Leaf>, texts: seq<string>): (r: seq<Leaf>)
    requires |leaves| == |texts|
    ensures |r| == |leaves|
  {
    seq(|leaves|, i requires 0 <= i < |leaves| => Leaf(leaves[i].path, texts[i]))
  }

  ghost function RetextEntry(e: Entry, texts: seq<string>): Entry
    requires |texts| == |FlattenEntry(e)|
    decreases e
  {
    match e.value
    case Text(_) => Entry(e.key, Text(texts[0]))
    case Branch(sub) => Entry(e.key, Branch(Retext(sub, texts)))
  }

  /** The object with its texts replaced, in order. */
  ghost function Retext(es: seq<Entry>, texts: seq<string>): (r: seq<Entry>)
    requires |texts| == |Flatten(es)|
    ensures |r| == |es| && forall i :: 0 <= i < |es| ==> r[i].key == es[i].key
    decreases es
  {
    if es == [] then []
    else
      var n := |FlattenEntry(es[0])|;
      [RetextEntry(es[0], texts[..n])] + Retext(es[1..], texts[n..])
  }

  lemma {:induction false} UnderWithTexts(key: string, leaves: seq<Leaf>, texts: seq<string>)
    requires |leaves| == |texts|
    ensures Under(key, WithTexts(leaves, texts)) == WithTexts(Under(key, leaves), texts)
  {
  }

  lemma {:induction false} FlattenRetextEntry(e: Entry, texts: seq<string>)
    requires |texts| == |FlattenEntry(e)|
    ensures FlattenEntry(RetextEntry(e, texts)) == WithTexts(FlattenEntry(e), texts)
    decreases e
  {
    if e.value.Branch? {
      FlattenRetext(e.value.entries, texts);
      UnderWithTexts(e.key, Flatten(e.value.entries), texts);
    }
  }

  lemma {:induction false} FlattenRetext(es: seq<Entry>, texts: seq<string>)
    requires |texts| == |Flatten(es)|
    ensures Flatten(Retext(es, texts)) == WithTexts(Flatten(es), texts)
    decreases es
  {
    hide FlattenEntry, RetextEntry;
    if es == [] {
    } else {
      var e, n := es[0], |FlattenEntry(es[0])|;
      FlattenRetext(es[1..], texts[n..]);
      FlattenRetextEntry(e, texts[..n]);
      assert Retext(es, texts)[1..] == Retext(es[1..], texts[n..]);
      assert WithTexts(Flatten(es), texts)
          == WithTexts(FlattenEntry(e), texts[..n]) + WithTexts(Flatten(es[1..]), texts[n..]);
    }
  }

  lemma {:induction false} RetextWellFormed(es: seq<Entry>, texts: seq<string>)
    requires WellFormed(es) && |texts| == |Flatten(es)|
    ensures WellFormed(Retext(es, texts))
    decreases es
  {
    if es == [] {
    } else {
      var e, n := es[0], |FlattenEntry(es[0])|;
      WellFormedTail(es);
      RetextWellFormed(es[1..], texts[n..]);
      if e.value.Branch? {
        RetextWellFormed(e.value.entries, texts[..n]);
      }
      WellFormedCons(RetextEntry(e, texts[..n]), Retext(es[1..], texts[n..]));
    }
  }

  lemma {:induction false} WellFormedCons(e: Entry, rest: seq<Entry>)
    requires WellFormed(rest) && Simple(e.key) && (e.value.Branch? ==> WellFormed(e.value.entries))
    requires forall j :: 0 <= j < |rest| ==> e.key != rest[j].key
    ensures WellFormed([e] + rest)
  {
  }

  lemma {:induction false} FlattenConcat(a: seq<Entry>, b: seq<Entry>)
    ensures Flatten(a + b) == Flatten(a) + Flatten(b)
    decreases |a|
  {
    if a == [] {
      assert a + b == b;
    } else {
      assert (a + b)[1..] == a[1..] + b;
      FlattenConcat(a[1..], b);
    }
  }

  lemma {:induction false} FlattenPrune(es: seq<Entry>)
    ensures Flatten(Prune(es)) == Flatten(es)
    decreases es
  {
    if es == [] {
    } else {
      FlattenPrune(es[1..]);
      FlattenPruneEntry(es[0]);
      FlattenConcat(PruneEntry(es[0]), Prune(es[1..]));
    }
  }

  lemma {:induction false} FlattenPruneEntry(e: Entry)
    ensures Flatten(PruneEntry(e)) == FlattenEntry(e)
    decreases e
  {
    if e.value.Branch? {
      FlattenPrune(e.value.entries);
      PruneEmpty(e.value.entries);
    }
    if PruneEntry(e) != [] {
      assert PruneEntry(e)[1..] == [];
    }
  }

  /** Whatever texts are put under the keys of an object, rebuilding and flattening gives exactly them. */
  lemma {:induction false} RetextRoundTrip(es: seq<Entry>, texts: seq<string>)
    requires WellFormed(es) && |texts| == |Flatten(es)|
    ensures Flatten(Rebuild(WithTexts(Flatten(es), texts))) == WithTexts(Flatten(es), texts)
  {
    FlattenRetext(es, texts);
    RetextWellFormed(es, texts);
    RebuildFlatten(Retext(es, texts));
    FlattenPrune(Retext(es, texts));
  }

  // ---------- flat keys ----------

  /** No path is a prefix of another, so in particular they all differ. */
  ghost predicate PrefixFree(leaves: seq<Leaf>) {
    forall i, j :: 0 <= i < |leaves| && 0 <= j < |leaves| && i != j ==> !(leaves[i].path <= leaves[j].path)
  }

  lemma {:induction false} ConsPrefix(key: string, p: seq<string>, q: seq<string>)
    ensures [key] + p <= [key] + q <==> p <= q
  {
    if [key] + p <= [key] + q {
      assert p == ([key] + p)[1..] && q == ([key] + q)[1..];
    }
  }

  lemma {:induction false} UnderPrefixFree(key: string, leaves: seq<Leaf>)
    requires PrefixFree(leaves)
    ensures PrefixFree(Under(key, leaves))
  {
    var u := Under(key, leaves);
    forall i, j | 0 <= i < |u| && 0 <= j < |u| && i != j ensures !(u[i].path <= u[j].path) {
      ConsPrefix(key, leaves[i].path, leaves[j].path);
    }
  }

  ghost predicate StartsWithKey(es: seq<Entry>, path: seq<string>) {
    path != [] && exists k :: 0 <= k < |es| && es[k].key == path[0]
  }

  lemma {:induction false} PathsStartWithKeys(es: seq<Entry>)
    ensures forall i :: 0 <= i < |Flatten(es)| ==> StartsWithKey(es, Flatten(es)[i].path)
    decreases es
  {
    if es == [] {
    } else {
      PathsStartWithKeys(es[1..]);
      var n := |FlattenEntry(es[0])|;
      forall i | 0 <= i < |Flatten(es)| ensures StartsWithKey(es, Flatten(es)[i].path) {
        if i < n {
          assert es[0].key == Flatten(es)[i].path[0];
        } else {
          var path := Flatten(es[1..])[i - n].path;
          var k :| 0 <= k < |es[1..]| && es[1..][k].key == path[0];
          assert es[k + 1].key == path[0];
        }
      }
    }
  }

  lemma {:induction false} FlattenPrefixFree(es: seq<Entry>)
    requires WellFormed(es)
    ensures PrefixFree(Flatten(es))
    decreases es
  {
    if es == [] {
    } else {
      var first, rest := FlattenEntry(es[0]), Flatten(es[1..]);
      WellFormedTail(es);
      FlattenPrefixFree(es[1..]);
      PathsStartWithKeys(es[1..]);
      if es[0].value.Branch? {
        FlattenPrefixFree(es[0].value.entries);
        UnderPrefixFree(es[0].key, Flatten(es[0].value.entries));
      }
      assert forall i :: 0 <= i < |first| ==> first[i].path[0] == es[0].key;
      assert forall i :: 0 <= i < |rest| ==> rest[i].path[0] != es[0].key;
      PrefixFreeConcat(first, rest, es[0].key);
    }
  }

  lemma {:induction false} HeadPrefix(p: seq<string>, q: seq<string>)
    requires p != [] && q != [] && p[0] != q[0]
    ensures !(p <= q)
  {
  }

  lemma {:induction false} PrefixFreeConcat(a: seq<Leaf>, b: seq<Leaf>, key: string)
    requires PrefixFree(a) && PrefixFree(b)
    requires forall i :: 0 <= i < |a| ==> a[i].path != [] && a[i].path[0] == key
    requires forall i :: 0 <= i < |b| ==> b[i].path != [] && b[i].path[0] != key
    ensures PrefixFree(a + b)
  {
    var c := a + b;
    forall i, j | 0 <= i < |c| && 0 <= j < |c| && i != j ensures !(c[i].path <= c[j].path) {
      assert c[i] == if i < |a| then a[i] else b[i - |a|];
      assert c[j] == if j < |a| then a[j] else b[j - |a|];
      if (i < |a|) != (j < |a|) {
        HeadPrefix(c[i].path, c[j].path);
      }
    }
  }
}
