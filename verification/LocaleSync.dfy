/** The synchronisation of one locale, step by step. */
module LocaleSync {
  import opened Options
  import opened Sorting
  import opened TranslationTree
  import opened DottedKeys
  import opened TreeLookup
  import opened TranslationMap
  import opened TranslationBatches
  import opened BatchTranslation
  import opened SyncRules
  import opened SyncFixpoint

  /** The files of one locale. */
  class LocaleFiles {
    var locale: File<seq<Entry>>
    var meta: File<Meta>
    var glossary: File<seq<GlossaryEntry>>
    var memory: File<seq<Memo>>

    constructor (disk: Disk)
      ensures Snapshot() == disk
    {
      locale, meta, glossary, memory := disk.locale, disk.meta, disk.glossary, disk.memory;
    }

    function Snapshot(): Disk
      reads this
    {
      Disk(locale, meta, glossary, memory)
    }
  }

  // ---------- objects from and to files ----------

  /** Importing a locale module: the object it exports. */
  method LoadObject(es: seq<Entry>) returns (o: TranslationObject)
    ensures o.Is(es) && fresh(o.Repr)
    decreases es
  {
    o := new TranslationObject();
    for i := 0 to |es|
      invariant o.Is(es[..i]) && fresh(o.Repr)
    {
      var cell;
      if es[i].value.Text? {
        cell := Str(es[i].value.text);
      } else {
        var nested := LoadObject(es[i].value.entries);
        cell := Sub(nested);
      }
      AddProperty(o, es[i], cell, es[..i]);
      assert es[..i + 1] == es[..i] + [es[i]];
    }
    assert es[..|es|] == es;
  }

  method AddProperty(o: TranslationObject, e: Entry, cell: Cell, ghost es: seq<Entry>)
    requires o.Is(es)
    requires match cell
             case Str(t) => e.value == Text(t)
             case Sub(m) => e.value.Branch? && m.Is(e.value.entries) && m.Repr !! o.Repr
    modifies o
    ensures o.Is(es + [e]) && o.Repr == old(o.Repr) + if cell.Sub? then cell.map_.Repr else {}
  {
    ghost var k := |es|;
    RestApart(o, k, es);
    ghost var rest := RestOf(o, k);
    o.properties := o.properties + [Property(e.key, cell)];
    if cell.Sub? {
      o.Repr := o.Repr + cell.map_.Repr;
    }
    Assembled(o, k, es + [e], rest, e);
    assert (es + [e])[k := e] == es + [e];
  }

  /** `renderTranslationValue`: the entries of an object, in order. */
  method RenderObject(o: TranslationObject, ghost es: seq<Entry>) returns (r: seq<Entry>)
    requires o.Is(es)
    ensures r == es
    decreases es
  {
    r := [];
    for i := 0 to |o.properties|
      invariant o.Is(es) && r == es[..i]
    {
      var p := o.properties[i];
      assert o.CellIs(p.cell, es[i].value);
      match p.cell {
        case Str(t) => r := r + [Entry(p.key, Text(t))];
        case Sub(m) =>
          var sub := RenderObject(m, es[i].value.entries);
          r := r + [Entry(p.key, Branch(sub))];
      }
    }
  }

  /** The names of `flat`, each with its text in `texts` or else its own. */
  function Reworded(flat: seq<Named>, texts: map<string, string>): (r: seq<Named>)
    ensures |r| == |flat|
  {
    seq(|flat|, i requires 0 <= i < |flat| =>
      Named(flat[i].name, if flat[i].name in texts then texts[flat[i].name] else flat[i].text))
  }

  /** The object to be written: one nested assignment for each key of the source. */
  method BuildNextMap(sourceFlat: StringMap, nextFlat: map<string, string>) returns (next: TranslationObject)
    ensures next.Is(SetAllNamed([], Reworded(sourceFlat.entries, nextFlat))) && fresh(next.Repr)
  {
    next := new TranslationObject();
    var flat := sourceFlat.entries;
    ghost var all := Reworded(flat, nextFlat);
    for i := 0 to |flat|
      invariant next.Is(SetAllNamed([], all[..i])) && fresh(next.Repr)
    {
      SetAllSnoc([], all, i);
      var value := if flat[i].name in nextFlat then nextFlat[flat[i].name] else flat[i].text;
      SetNestedValue(next, flat[i].name, value, SetAllNamed([], all[..i]));
    }
    assert all[..|flat|] == all;
  }

  lemma {:induction false} SetAllNamedConcat(es: seq<Entry>, a: seq<Named>, b: seq<Named>)
    ensures SetAllNamed(es, a + b) == SetAllNamed(SetAllNamed(es, a), b)
    decreases |a|
  {
    hide SetPath, Split;
    if a == [] {
      assert a + b == b;
    } else {
      assert (a + b)[1..] == a[1..] + b;
      SetAllNamedConcat(SetPath(es, Split(a[0].name), a[0].text), a[1..], b);
    }
  }

  lemma {:induction false} SetAllSnoc(es: seq<Entry>, flat: seq<Named>, i: nat)
    requires i < |flat|
    ensures SetAllNamed(es, flat[..i + 1]) == SetPath(SetAllNamed(es, flat[..i]), Split(flat[i].name), flat[i].text)
  {
    hide SetPath, Split;
    assert flat[..i + 1] == flat[..i] + [flat[i]];
    SetAllNamedConcat(es, flat[..i], [flat[i]]);
    assert [flat[i]][1..] == [];
  }

  // ---------- the first loop: reuse or leave pending ----------

  /** After the first loop has gone through `flat`. */
  ghost predicate Chosen(env: Env, disk: Disk, force: bool, flat: seq<Named>, nextFlat: map<string, string>,
                         pending: seq<Item>, fallbackKeys: seq<string>)
  {
    && pending == PendingItems(env, disk, flat)
    && fallbackKeys == MarkedNames(env, disk, force, map[], flat, false)
    && (forall j :: 0 <= j < |flat| ==>
          match Choose(env, disk, flat[j])
          case Reuse(text, _) => flat[j].name in nextFlat && nextFlat[flat[j].name] == text
          case Pending => flat[j].name !in nextFlat)
    && (forall name :: name in nextFlat ==> HasName(flat, name))
  }

  ghost predicate HasName(flat: seq<Named>, name: string) {
    exists j :: 0 <= j < |flat| && flat[j].name == name
  }

  lemma {:induction false} ChosenStep(env: Env, disk: Disk, force: bool, flat: seq<Named>, k: nat, nextFlat: map<string, string>,
                                      pending: seq<Item>, fallbackKeys: seq<string>)
    requires DistinctNames(flat) && k < |flat|
    requires Chosen(env, disk, force, flat[..k], nextFlat, pending, fallbackKeys)
    ensures var n := flat[k];
            match Choose(env, disk, n)
            case Reuse(text, fallback) =>
              Chosen(env, disk, force, flat[..k + 1], nextFlat[n.name := text], pending,
                     if fallback then fallbackKeys + [n.name] else fallbackKeys)
            case Pending =>
              Chosen(env, disk, force, flat[..k + 1], nextFlat, pending + [ItemOf(env, n)], fallbackKeys)
  {
    hide Choose, CacheKeyOf, FallBack;
    var f0, f, n := flat[..k], flat[..k + 1], flat[k];
    assert f[..|f| - 1] == f0 && f[|f| - 1] == n;
    assert !HasName(f0, n.name) by {
      assert forall j :: 0 <= j < k ==> f0[j].name == flat[j].name;
    }
    assert n.name !in nextFlat;
    forall name | HasName(f0, name) || name == n.name ensures HasName(f, name) {
      if j :| 0 <= j < |f0| && f0[j].name == name {
        assert f[j].name == name;
      } else {
        assert f[k].name == name;
      }
    }
    forall j | 0 <= j < k ensures f[j] == f0[j] && f[j].name != n.name {
    }
  }

  method ChooseTexts(env: Env, tm: seq<Memo>, existingFlat: StringMap, previousFallbackKeys: seq<string>, flat: seq<Named>,
                     ghost disk: Disk, ghost force: bool)
      returns (nextFlat: map<string, string>, pending: seq<Item>, fallbackKeys: seq<string>)
    requires tm == LoadMemory(ContentOr(disk.memory, [])) && existingFlat.entries == ExistingFlat(disk)
    requires previousFallbackKeys == PreviousFallback(disk) && DistinctNames(flat)
    ensures Chosen(env, disk, force, flat, nextFlat, pending, fallbackKeys)
  {
    hide Chosen, LoadMemory, ExistingFlat, FindMemo, FindName;
    nextFlat, pending, fallbackKeys := map[], [], [];
    ChosenStarts(env, disk, force);
    for k := 0 to |flat|
      invariant Chosen(env, disk, force, flat[..k], nextFlat, pending, fallbackKeys)
    {
      ChosenStep(env, disk, force, flat, k, nextFlat, pending, fallbackKeys);
      var n := flat[k];
      var textHash := env.hashText(n.text);
      var segmentCacheKey := env.cacheKey(n.name, textHash);
      var cached := FindMemo(tm, segmentCacheKey);
      var existing := Lookup(existingFlat.entries, n.name);
      var shouldRefreshFallback := n.name in previousFallbackKeys;
      if cached < |tm| && !(env.allowTranslate && shouldRefreshFallback) {
        nextFlat := nextFlat[n.name := tm[cached].translated];
        if shouldRefreshFallback {
          fallbackKeys := fallbackKeys + [n.name];
        }
      } else if existing.Some? && !(env.allowTranslate && shouldRefreshFallback) {
        nextFlat := nextFlat[n.name := existing.value];
        if shouldRefreshFallback {
          fallbackKeys := fallbackKeys + [n.name];
        }
      } else {
        pending := pending + [Item(segmentCacheKey, n.name, n.text, textHash)];
      }
    }
    assert flat[..|flat|] == flat;
  }

  lemma {:induction false} ChosenStarts(env: Env, disk: Disk, force: bool)
    ensures forall flat: seq<Named> :: Chosen(env, disk, force, flat[..0], map[], [], [])
  {
  }

  // ---------- translating what is pending ----------

  ghost predicate DistinctKeys(items: seq<Item>) {
    forall i, j :: 0 <= i < j < |items| ==> items[i].key != items[j].key
  }

  /** A memory built for some items does not depend on the translations of others. */
  lemma {:induction false} RememberSame(env: Env, memory: seq<Memo>, items: seq<Item>, t1: map<string, string>,
                                        t2: map<string, string>, at: string -> string)
    requires forall i :: 0 <= i < |items| ==>
               items[i].key in t1 && items[i].key in t2 && t1[items[i].key] == t2[items[i].key]
    ensures Remember(env, memory, items, t1, at) == Remember(env, memory, items, t2, at)
    decreases |items|
  {
    hide PutMemo;
    if items == [] {
    } else {
      RememberSame(env, memory, items[..|items| - 1], t1, t2, at);
    }
  }

  lemma {:induction false} RememberConcat(env: Env, memory: seq<Memo>, a: seq<Item>, b: seq<Item>, t: map<string, string>,
                                          at: string -> string)
    ensures Remember(env, memory, a + b, t, at) == Remember(env, Remember(env, memory, a, t, at), b, t, at)
    decreases |b|
  {
    hide PutMemo;
    if b == [] {
      assert a + b == a;
    } else {
      assert (a + b)[..|a + b| - 1] == a + b[..|b| - 1];
      RememberConcat(env, memory, a, b[..|b| - 1], t, at);
    }
  }

  ghost predicate Translated(items: seq<Item>, t: map<string, string>) {
    (forall i :: 0 <= i < |items| ==> items[i].key in t && !IsBlank(t[items[i].key]))
    && (forall k :: k in t ==> SomeItem(items, k))
  }

  /** The translations of the given items. */
  function Restrict(t: map<string, string>, items: seq<Item>): map<string, string> {
    if items == [] then map[]
    else
      var key := items[|items| - 1].key;
      Restrict(t, items[..|items| - 1])[key := if key in t then t[key] else ""]
  }

  lemma {:induction false} RestrictMeans(t: map<string, string>, items: seq<Item>)
    requires forall i :: 0 <= i < |items| ==> items[i].key in t
    ensures forall k :: k in Restrict(t, items) <==> SomeItem(items, k)
    ensures forall k :: k in Restrict(t, items) ==> k in t && Restrict(t, items)[k] == t[k]
    decreases |items|
  {
    if items == [] {
    } else {
      var init, last := items[..|items| - 1], items[|items| - 1];
      RestrictMeans(t, init);
      forall k ensures SomeItem(items, k) <==> SomeItem(init, k) || k == last.key {
        assert items == init + [last] && [last][0] == last;
        SomeItemConcat(init, [last], k);
      }
    }
  }

  lemma {:induction false} RestrictAll(t: map<string, string>, items: seq<Item>)
    requires Translated(items, t)
    ensures Restrict(t, items) == t
  {
    hide SomeItem, IsBlank, Restrict;
    RestrictMeans(t, items);
  }

  /** The inner loop over one translated batch: fill the flat map and the memory. */
  method StoreBatch(env: Env, batch: seq<Item>, translated: map<string, string>, nextFlat: map<string, string>,
                    tm: seq<Memo>, at: string -> string)
      returns (nextFlat1: map<string, string>, tm1: seq<Memo>)
    requires Translated(batch, translated)
    ensures nextFlat1 == nextFlat + translated && tm1 == Remember(env, tm, batch, translated, at)
  {
    hide PutMemo, IsBlank, SomeItem;
    nextFlat1, tm1 := nextFlat, tm;
    for i := 0 to |batch|
      invariant tm1 == Remember(env, tm, batch[..i], translated, at)
      invariant nextFlat1 == nextFlat + Restrict(translated, batch[..i])
    {
      var item := batch[i];
      assert batch[..i + 1][..i] == batch[..i];
      NotBlank(translated[item.key]);
      nextFlat1 := nextFlat1[item.key := translated[item.key]];
      tm1 := PutMemo(tm1, NewMemo(env, item, translated[item.key], at(item.key)));
    }
    assert batch[..|batch|] == batch;
    RestrictAll(translated, batch);
  }

  /** What the loop over the batches has obtained after some of them. */
  ghost predicate Obtained(env: Env, items: seq<Item>, t: map<string, string>, nextFlat0: map<string, string>, tm0: seq<Memo>,
                           at: string -> string, nextFlat: map<string, string>, tm: seq<Memo>)
  {
    && Translated(items, t)
    && nextFlat == nextFlat0 + t
    && tm == Remember(env, tm0, items, t, at)
  }

  lemma {:induction false} TranslatedConcat(a: seq<Item>, ta: map<string, string>, b: seq<Item>, tb: map<string, string>)
    requires Translated(a, ta) && Translated(b, tb) && DistinctKeys(a + b)
    ensures Translated(a + b, ta + tb)
    ensures forall i :: 0 <= i < |a| ==> a[i].key !in tb
  {
    hide IsBlank;
    var c := a + b;
    forall i, j | 0 <= i < |a| && 0 <= j < |b| ensures a[i].key != b[j].key {
      assert c[i] == a[i] && c[|a| + j] == b[j];
    }
    forall i | 0 <= i < |a| ensures a[i].key !in tb {
      assert a[i].key in tb ==> SomeItem(b, a[i].key);
    }
    forall i | 0 <= i < |c| ensures c[i].key in ta + tb && !IsBlank((ta + tb)[c[i].key]) {
      assert c[i] == if i < |a| then a[i] else b[i - |a|];
    }
    forall k | k in ta + tb ensures SomeItem(c, k) {
      SomeItemConcat(a, b, k);
    }
  }

  lemma {:induction false} ObtainedStep(env: Env, items: seq<Item>, t: map<string, string>, nextFlat0: map<string, string>,
                                        tm0: seq<Memo>, at: string -> string, nextFlat: map<string, string>, tm: seq<Memo>,
                                        batch: seq<Item>, more: map<string, string>)
    requires Obtained(env, items, t, nextFlat0, tm0, at, nextFlat, tm) && Translated(batch, more)
    requires DistinctKeys(items + batch)
    ensures Obtained(env, items + batch, t + more, nextFlat0, tm0, at, nextFlat + more, Remember(env, tm, batch, more, at))
  {
    hide IsBlank, SomeItem, Remember, DistinctKeys;
    TranslatedConcat(items, t, batch, more);
    RememberConcat(env, tm0, items, batch, t + more, at);
    assert nextFlat0 + t + more == nextFlat0 + (t + more);
    RememberMore(env, tm0, items, t, more, at);
    RememberLess(env, tm, batch, t, more, at);
  }

  lemma {:induction false} RememberMore(env: Env, memory: seq<Memo>, items: seq<Item>, t: map<string, string>,
                                        more: map<string, string>, at: string -> string)
    requires forall i :: 0 <= i < |items| ==> items[i].key in t && items[i].key !in more
    ensures Remember(env, memory, items, t + more, at) == Remember(env, memory, items, t, at)
  {
    hide Remember;
    RememberSame(env, memory, items, t + more, t, at);
  }

  lemma {:induction false} RememberLess(env: Env, memory: seq<Memo>, items: seq<Item>, t: map<string, string>,
                                        more: map<string, string>, at: string -> string)
    requires forall i :: 0 <= i < |items| ==> items[i].key in more
    ensures Remember(env, memory, items, t + more, at) == Remember(env, memory, items, more, at)
  {
    hide Remember;
    RememberSame(env, memory, items, t + more, more, at);
  }

  lemma {:induction false} ConcatSplit(a: seq<seq<Item>>, b: seq<seq<Item>>)
    ensures Concat(a + b) == Concat(a) + Concat(b)
    decreases |a|
  {
    if a == [] {
      assert a + b == b;
    } else {
      assert (a + b)[1..] == a[1..] + b;
      ConcatSplit(a[1..], b);
    }
  }

  lemma {:induction false} PrefixDistinct(batches: seq<seq<Item>>, k: nat)
    requires k < |batches| && DistinctKeys(Concat(batches))
    ensures Concat(batches[..k + 1]) == Concat(batches[..k]) + batches[k]
    ensures DistinctKeys(Concat(batches[..k + 1]))
  {
    assert batches[..k + 1] == batches[..k] + [batches[k]];
    ConcatSnoc(batches[..k], batches[k]);
    assert batches == batches[..k + 1] + batches[k + 1..];
    ConcatSplit(batches[..k + 1], batches[k + 1..]);
    var a, c := Concat(batches[..k + 1]), Concat(batches);
    forall i, j | 0 <= i < j < |a| ensures a[i].key != a[j].key {
      assert a[i] == c[i] && a[j] == c[j];
    }
  }

  lemma {:induction false} FaithfulTranslates(s: Service, items: seq<Item>, at: nat, t: Trace)
    requires Faithful(s, items, at, t) && t.outcome.Done?
    ensures Translated(items, t.outcome.translated)
  {
    hide IsBlank, AnsweredBy;
    forall i | 0 <= i < |items| ensures items[i].key in t.outcome.translated {
      assert SomeItem(items, items[i].key);
    }
  }

  /** The bound on the work for some items: four prompts for each, less two for every batch they are cut into. */
  ghost predicate WithinBound(items: seq<Item>, budget: real, prompts: int) {
    forall batches :: IsGreedy(items, batches, budget) ==> prompts <= 4 * |items| - 2 * |batches|
  }

  lemma {:induction false} ConcatLength(batches: seq<seq<Item>>, k: nat)
    requires k <= |batches| && forall i :: 0 <= i < |batches| ==> batches[i] != []
    ensures |Concat(batches[..k])| + |batches| - k <= |Concat(batches)|
  {
    assert batches == batches[..k] + batches[k..];
    ConcatSplit(batches[..k], batches[k..]);
    NonEmptyLength(batches[k..]);
  }

  lemma {:induction false} NonEmptyLength(batches: seq<seq<Item>>)
    requires forall i :: 0 <= i < |batches| ==> batches[i] != []
    ensures |batches| <= |Concat(batches)|
    decreases |batches|
  {
    if batches == [] {
    } else {
      NonEmptyLength(batches[1..]);
    }
  }

  lemma {:induction false} NoBatchEmpty(items: seq<Item>, batches: seq<seq<Item>>, budget: real)
    requires IsGreedy(items, batches, budget)
    ensures forall i :: 0 <= i < |batches| ==> batches[i] != []
  {
  }

  /** The prompts for the batches done so far leave room for those to come. */
  lemma {:induction false} StillWithin(items: seq<Item>, batches: seq<seq<Item>>, budget: real, k: nat, prompts: int)
    requires IsGreedy(items, batches, budget) && k <= |batches|
    requires prompts <= 4 * |Concat(batches[..k])| - 2 * k
    ensures WithinBound(items, budget, prompts)
  {
    NoBatchEmpty(items, batches, budget);
    ConcatLength(batches, k);
    GreedyCovers(items, batches, budget);
    hide IsGreedy;
    forall others | IsGreedy(items, others, budget) ensures prompts <= 4 * |items| - 2 * |others| {
      GreedyUnique(items, batches, others, budget);
    }
  }

  /** The attempts for some batches, one batch after the other up to the first that fails, and its error. */
  datatype Asking = Asking(tries: seq<seq<Item>>, failure: Option<string>)

  ghost function AskBatches(s: Service, batches: seq<seq<Item>>, at: nat): Asking
    decreases |batches|
  {
    if batches == [] then Asking([], None)
    else
      var first := Translate(s, batches[0], 0, at);
      if first.outcome.Threw? then Asking(first.tries, Some(first.outcome.error))
      else Behind(first.tries, AskBatches(s, batches[1..], first.next))
  }

  ghost function Behind(tries: seq<seq<Item>>, a: Asking): Asking {
    Asking(tries + a.tries, a.failure)
  }

  /** With a provider the items are asked for in the batches they are cut into; without one nothing is. */
  ghost predicate AskedFor(s: Service, env: Env, items: seq<Item>, budget: real, at: nat, tries: seq<seq<Item>>,
                           failure: Option<string>)
  {
    if env.allowTranslate then
      forall batches :: IsGreedy(items, batches, budget) ==> AskBatches(s, batches, at) == Asking(tries, failure)
    else tries == [] && failure.None?
  }

  lemma {:induction false} NothingAsked(s: Service, env: Env, items: seq<Item>, budget: real, at: nat)
    requires !env.allowTranslate || items == []
    ensures AskedFor(s, env, items, budget, at, [], None)
  {
    hide IsGreedy;
    forall batches | IsGreedy(items, batches, budget) && items == [] ensures batches == [] {
      GreedyCovers(items, batches, budget);
    }
  }

  lemma {:induction false} AskedIs(s: Service, env: Env, items: seq<Item>, budget: real, at: nat,
                                   batches: seq<seq<Item>>, tries: seq<seq<Item>>, failure: Option<string>)
    requires env.allowTranslate && IsGreedy(items, batches, budget)
    requires AskBatches(s, batches, at) == Asking(tries, failure)
    ensures AskedFor(s, env, items, budget, at, tries, failure)
  {
    hide IsGreedy, AskBatches;
    forall others | IsGreedy(items, others, budget) ensures AskBatches(s, others, at) == Asking(tries, failure) {
      GreedyUnique(items, batches, others, budget);
    }
  }

  /** The batches from number k on, behind the attempts so far. */
  lemma {:induction false} AskedStep(s: Service, batches: seq<seq<Item>>, k: nat, at: nat, tries: seq<seq<Item>>)
    requires k < |batches|
    ensures var t := Translate(s, batches[k], 0, at);
            Behind(tries, AskBatches(s, batches[k..], at)) ==
              if t.outcome.Threw? then Asking(tries + t.tries, Some(t.outcome.error))
              else Behind(tries + t.tries, AskBatches(s, batches[k + 1..], t.next))
  {
    hide Translate;
    var t := Translate(s, batches[k], 0, at);
    assert batches[k..][1..] == batches[k + 1..];
    if t.outcome.Done? {
      Appended(tries, t.tries, AskBatches(s, batches[k + 1..], t.next).tries);
    }
  }

  lemma {:induction false} AskedStart(s: Service, batches: seq<seq<Item>>, at: nat, end: nat, tries: seq<seq<Item>>)
    ensures Behind([], AskBatches(s, batches[0..], at)) == AskBatches(s, batches, at)
    ensures Behind(tries, AskBatches(s, batches[|batches|..], end)) == Asking(tries, None)
  {
    var a := AskBatches(s, batches, at);
    assert batches[0..] == batches && [] + a.tries == a.tries && tries + [] == tries;
  }

  /** After some batches: what was obtained, and what is still to be asked for. */
  ghost predicate Underway(s: Service, batches: seq<seq<Item>>, k: nat, at0: nat, at: nat, tries: seq<seq<Item>>,
                           obtained: map<string, string>, asking: Asking)
    requires k <= |batches|
  {
    && at == at0 + |tries| && obtained == Gathered(s, at0, tries)
    && asking == Behind(tries, AskBatches(s, batches[k..], at))
  }

  lemma {:induction false} UnderwayStart(s: Service, batches: seq<seq<Item>>, at: nat)
    ensures Underway(s, batches, 0, at, at, [], map[], AskBatches(s, batches, at))
  {
    GatheredNone(s, at);
    AskedStart(s, batches, at, 0, []);
  }

  lemma {:induction false} UnderwayStep(s: Service, batches: seq<seq<Item>>, k: nat, at0: nat, at: nat, tries: seq<seq<Item>>,
                                        obtained: map<string, string>, asking: Asking)
    requires k < |batches| && Underway(s, batches, k, at0, at, tries, obtained, asking)
    ensures var t := Translate(s, batches[k], 0, at);
            if t.outcome.Threw? then asking == Asking(tries + t.tries, Some(t.outcome.error))
            else Underway(s, batches, k + 1, at0, t.next, tries + t.tries, obtained + t.outcome.translated, asking)
  {
    hide Translate, Gathered, AskBatches, Behind;
    RunGathers(s, batches[k], 0, at);
    AskedStep(s, batches, k, at, tries);
    GatheredConcat(s, at0, tries, Translate(s, batches[k], 0, at).tries);
  }

  lemma {:induction false} UnderwayEnd(s: Service, batches: seq<seq<Item>>, at0: nat, at: nat, tries: seq<seq<Item>>,
                                       obtained: map<string, string>, asking: Asking)
    requires Underway(s, batches, |batches|, at0, at, tries, obtained, asking)
    ensures asking == Asking(tries, None) && obtained == Gathered(s, at0, tries)
  {
    AskedStart(s, batches, at0, at, tries);
  }

  /** Cut into batches, translate each, store what comes back; the first failure ends it. */
  method TranslatePending(translator: Translator, env: Env, pending: seq<Item>, nextFlat0: map<string, string>, tm0: seq<Memo>,
                          budget: real, at: string -> string)
      returns (failure: Option<string>, nextFlat: map<string, string>, tm: seq<Memo>, ghost obtained: map<string, string>)
    requires DistinctKeys(pending) && translator.Valid() && env.allowTranslate
    modifies translator
    ensures translator.Valid() && translator.client.None?
    ensures failure.None? ==> Obtained(env, pending, obtained, nextFlat0, tm0, at, nextFlat, tm)
    ensures old(translator.tries) <= translator.tries
    ensures failure.None? ==>
              obtained == Gathered(translator.service, old(translator.next), translator.tries[|old(translator.tries)|..])
    ensures AskedFor(translator.service, env, pending, budget, old(translator.next),
                     translator.tries[|old(translator.tries)|..], failure)
    ensures pending == [] ==> failure.None? && translator.prompts == old(translator.prompts)
    ensures WithinBound(pending, budget, translator.prompts - old(translator.prompts))
  {
    hide Obtained, Translate, Faithful, Translated, IsGreedy, WithinBound, DistinctKeys, Underway, AskBatches, Behind, AskedFor, Extends,
      Remember, Gathered, Translator.OnFreshClients;
    nextFlat, tm, obtained, failure := nextFlat0, tm0, map[], None;
    ObtainedStart(env, nextFlat0, tm0, at);
    ghost var tries: seq<seq<Item>> := [];
    ExtendsNothing(translator.tries);
    var batches := BuildTranslationBatches(pending, budget);
    GreedyCovers(pending, batches, budget);
    NoBatchEmpty(pending, batches, budget);
    ghost var asking := AskBatches(translator.service, batches, translator.next);
    UnderwayStart(translator.service, batches, translator.next);
    for b := 0 to |batches|
      invariant Obtained(env, Concat(batches[..b]), obtained, nextFlat0, tm0, at, nextFlat, tm)
      invariant translator.Valid() && (b == 0 ==> translator.prompts == old(translator.prompts))
      invariant Extends(old(translator.tries), translator.tries, tries)
      invariant Underway(translator.service, batches, b, old(translator.next), translator.next, tries, obtained, asking)
      invariant translator.prompts - old(translator.prompts) <= 4 * |Concat(batches[..b])| - 2 * b
    {
      ghost var replyAt := translator.next;
      PrefixDistinct(batches, b);
      PromptBound(translator.service, batches[b], 0, replyAt);
      UnderwayStep(translator.service, batches, b, old(translator.next), replyAt, tries, obtained, asking);
      ghost var more := Translate(translator.service, batches[b], 0, replyAt).tries;
      ghost var before := translator.tries;
      var outcome := translator.TranslateBatch(batches[b], 0);
      ExtendsMore(old(translator.tries), before, tries, translator.tries, more);
      if outcome.Threw? {
        failure := Some(outcome.error);
        ExtendsMeans(old(translator.tries), translator.tries, tries + more);
        AskedIs(translator.service, env, pending, budget, old(translator.next), batches, tries + more, failure);
        StillWithin(pending, batches, budget, b + 1, translator.prompts - old(translator.prompts));
        translator.ResetClient();
        return;
      }
      SuccessMeans(translator.service, batches[b], 0, replyAt);
      FaithfulTranslates(translator.service, batches[b], replyAt, Translate(translator.service, batches[b], 0, replyAt));
      ObtainedStep(env, Concat(batches[..b]), obtained, nextFlat0, tm0, at, nextFlat, tm, batches[b], outcome.translated);
      nextFlat, tm := StoreBatch(env, batches[b], outcome.translated, nextFlat, tm, at);
      obtained, tries := obtained + outcome.translated, tries + more;
    }
    assert batches[..|batches|] == batches;
    UnderwayEnd(translator.service, batches, old(translator.next), translator.next, tries, obtained, asking);
    AskedIs(translator.service, env, pending, budget, old(translator.next), batches, tries, failure);
    StillWithin(pending, batches, budget, |batches|, translator.prompts - old(translator.prompts));
    ExtendsMeans(old(translator.tries), translator.tries, tries);
    translator.ResetClient();
  }

  lemma {:induction false} GatheredNone(s: Service, at: nat)
    ensures Gathered(s, at, []) == map[]
  {
  }

  ghost predicate Extends<T>(a: seq<T>, b: seq<T>, more: seq<T>) {
    b == a + more
  }

  lemma {:induction false} ExtendsNothing<T>(a: seq<T>)
    ensures Extends(a, a, [])
  {
  }

  lemma {:induction false} ExtendsMore<T>(a: seq<T>, b: seq<T>, more: seq<T>, c: seq<T>, yet: seq<T>)
    requires Extends(a, b, more) && c == b + yet
    ensures Extends(a, c, more + yet)
  {
  }

  lemma {:induction false} ExtendsMeans<T>(a: seq<T>, b: seq<T>, more: seq<T>)
    requires Extends(a, b, more)
    ensures a <= b && b[|a|..] == more
  {
  }

  lemma {:induction false} Appended<T>(a: seq<T>, b: seq<T>, c: seq<T>)
    ensures (a + b) + c == a + (b + c) && (a + b)[|a|..] == b
  {
  }

  lemma {:induction false} ObtainedStart(env: Env, nextFlat0: map<string, string>, tm0: seq<Memo>, at: string -> string)
    ensures Obtained(env, [], map[], nextFlat0, tm0, at, nextFlat0, tm0)
    ensures forall batches: seq<seq<Item>> :: Concat(batches[..0]) == []
  {
  }

  lemma {:induction false} GreedyCovers(items: seq<Item>, batches: seq<seq<Item>>, budget: real)
    requires IsGreedy(items, batches, budget)
    ensures Concat(batches) == items && (items == [] ==> batches == [])
  {
    if batches != [] {
      ConcatNonEmpty(batches);
    }
  }

  // ---------- the last loop: fall back ----------

  /** The marks that the last loop sets for the given pending items. */
  function ItemMarks(disk: Disk, force: bool, t: map<string, string>, items: seq<Item>): seq<string> {
    if items == [] then []
    else
      var item := items[|items| - 1];
      ItemMarks(disk, force, t, items[..|items| - 1]) +
      if !(item.key in t && t[item.key] != "") && ItemFallBack(disk, force, item).fallback then [item.key] else []
  }

  function ItemFallBack(disk: Disk, force: bool, item: Item): (c: Choice)
    ensures c.Reuse?
  {
    FallBack(disk, force, Named(item.key, item.text))
  }

  lemma {:induction false} ItemMarksMeans(env: Env, disk: Disk, force: bool, t: map<string, string>, flat: seq<Named>)
    ensures ItemMarks(disk, force, t, PendingItems(env, disk, flat)) == MarkedNames(env, disk, force, t, flat, true)
    decreases |flat|
  {
    hide Choose, Settle, ItemOf, ItemFallBack;
    if flat == [] {
    } else {
      var init, n := flat[..|flat| - 1], flat[|flat| - 1];
      ItemMarksMeans(env, disk, force, t, init);
      var p0 := PendingItems(env, disk, init);
      if Choose(env, disk, n).Pending? {
        MarkOfItem(env, disk, force, t, n);
        var p := PendingItems(env, disk, flat);
        assert p == p0 + [ItemOf(env, n)];
        assert p[..|p| - 1] == p0 && p[|p| - 1] == ItemOf(env, n);
      } else {
        assert PendingItems(env, disk, flat) == p0;
      }
    }
  }

  lemma {:induction false} MarkOfItem(env: Env, disk: Disk, force: bool, t: map<string, string>, n: Named)
    requires Choose(env, disk, n).Pending?
    ensures Item(CacheKeyOf(env, n), n.name, n.text, env.hashText(n.text)) == ItemOf(env, n) && ItemOf(env, n).key == n.name
    ensures !(n.name in t && t[n.name] != "") && ItemFallBack(disk, force, ItemOf(env, n)).fallback
       <==> Settle(env, disk, force, t, n).fallback
  {
    hide Choose, CacheKeyOf, FallBack;
    assert Named(n.name, n.text) == n;
  }

  /** Marks of the first loop do not depend on what is translated later. */
  lemma {:induction false} FirstMarksFixed(env: Env, disk: Disk, force: bool, t: map<string, string>, flat: seq<Named>)
    ensures MarkedNames(env, disk, force, map[], flat, false) == MarkedNames(env, disk, force, t, flat, false)
    decreases |flat|
  {
    hide Choose, FallBack;
    if flat == [] {
    } else {
      FirstMarksFixed(env, disk, force, t, flat[..|flat| - 1]);
    }
  }

  /** After the last loop has gone through `items`: texts and marks of those without a translation are added. */
  ghost predicate FellBack(disk: Disk, force: bool, t: map<string, string>, items: seq<Item>,
                           nextFlat0: map<string, string>, nextFlat: map<string, string>)
  {
    && (forall k :: k in nextFlat0 ==> k in nextFlat && nextFlat[k] == nextFlat0[k])
    && (forall i :: 0 <= i < |items| && items[i].key !in nextFlat0 ==>
          items[i].key in nextFlat && nextFlat[items[i].key] == ItemFallBack(disk, force, items[i]).text)
    && (forall k :: k in nextFlat ==> k in nextFlat0 || SomeItem(items, k))
  }

  method FallBackTexts(force: bool, pending: seq<Item>, existingFlat: StringMap, previousFallbackKeys: seq<string>,
                       nextFlat0: map<string, string>, fallbackKeys0: seq<string>,
                       ghost disk: Disk, ghost t: map<string, string>)
      returns (nextFlat: map<string, string>, fallbackKeys: seq<string>)
    requires existingFlat.entries == ExistingFlat(disk) && previousFallbackKeys == PreviousFallback(disk)
    requires DistinctKeys(pending)
    requires forall i :: 0 <= i < |pending| ==>
               (pending[i].key in nextFlat0 <==> pending[i].key in t && t[pending[i].key] != "")
    ensures FellBack(disk, force, t, pending, nextFlat0, nextFlat)
    ensures fallbackKeys == fallbackKeys0 + ItemMarks(disk, force, t, pending)
  {
    hide ExistingFlat, Lookup, FellBack, DistinctKeys;
    nextFlat, fallbackKeys := nextFlat0, fallbackKeys0;
    FellBackStart(disk, force, t, pending, nextFlat0);
    for i := 0 to |pending|
      invariant FellBack(disk, force, t, pending[..i], nextFlat0, nextFlat)
      invariant fallbackKeys == fallbackKeys0 + ItemMarks(disk, force, t, pending[..i])
    {
      var item := pending[i];
      assert pending[..i + 1][..i] == pending[..i];
      FellBackStep(disk, force, t, pending, i, nextFlat0, nextFlat);
      if item.key !in nextFlat {
        var existing := Lookup(existingFlat.entries, item.key);
        if existing.Some? && !force {
          nextFlat := nextFlat[item.key := existing.value];
          if item.key in previousFallbackKeys {
            fallbackKeys := fallbackKeys + [item.key];
          }
        } else {
          nextFlat := nextFlat[item.key := item.text];
          fallbackKeys := fallbackKeys + [item.key];
        }
      }
    }
    assert pending[..|pending|] == pending;
  }

  lemma {:induction false} FellBackStart(disk: Disk, force: bool, t: map<string, string>, pending: seq<Item>,
                                         nextFlat0: map<string, string>)
    ensures FellBack(disk, force, t, pending[..0], nextFlat0, nextFlat0)
  {
  }

  lemma {:induction false} FellBackStep(disk: Disk, force: bool, t: map<string, string>, pending: seq<Item>, i: nat,
                                        nextFlat0: map<string, string>, nextFlat: map<string, string>)
    requires i < |pending| && DistinctKeys(pending)
    requires FellBack(disk, force, t, pending[..i], nextFlat0, nextFlat)
    ensures var item := pending[i];
            && (item.key in nextFlat <==> item.key in nextFlat0)
            && FellBack(disk, force, t, pending[..i + 1], nextFlat0,
                        if item.key in nextFlat then nextFlat
                        else nextFlat[item.key := ItemFallBack(disk, force, item).text])
  {
    hide ItemFallBack;
    var a, b, item := pending[..i], pending[..i + 1], pending[i];
    assert b == a + [item];
    assert !SomeItem(a, item.key) by {
      assert forall j :: 0 <= j < |a| ==> a[j].key == pending[j].key;
    }
    forall k | k in nextFlat || k == item.key ensures k in nextFlat0 || SomeItem(b, k) {
      SomeItemConcat(a, [item], k);
      assert [item][0] == item;
    }
    forall j | 0 <= j < |b| ensures b[j] == if j < |a| then a[j] else item {
    }
    forall j | 0 <= j < |a| ensures a[j].key != item.key {
      assert SomeItem(a, a[j].key);
    }
  }

  // ---------- the whole run ----------

  datatype SyncResult = SyncFailed(error: string) | Synced(changed: bool, fallbackCount: nat, wrote: bool)

  lemma {:induction false} PendingDistinct(env: Env, disk: Disk, flat: seq<Named>)
    requires DistinctNames(flat)
    ensures DistinctKeys(PendingItems(env, disk, flat))
  {
    hide Choose;
    PendingMeans(env, disk, flat);
  }

  /** The flat map after translation: a pending key is in it exactly if it was translated. */
  lemma {:induction false} TranslatedKeys(env: Env, disk: Disk, force: bool, flat: seq<Named>, nextFlat0: map<string, string>,
                                          pending: seq<Item>, fallbackKeys: seq<string>, t: map<string, string>)
    requires DistinctNames(flat) && Chosen(env, disk, force, flat, nextFlat0, pending, fallbackKeys)
    requires t == map[] || Translated(pending, t)
    ensures forall i :: 0 <= i < |pending| ==>
              pending[i].key !in nextFlat0
              && (pending[i].key in nextFlat0 + t <==> pending[i].key in t && t[pending[i].key] != "")
  {
    hide Choose, IsBlank, MarkedNames;
    PendingMeans(env, disk, flat);
    forall i | 0 <= i < |pending|
      ensures pending[i].key !in nextFlat0
      ensures pending[i].key in nextFlat0 + t <==> pending[i].key in t && t[pending[i].key] != ""
    {
      assert IsPendingItem(env, disk, flat, pending[i]);
      if t != map[] {
        NotBlank(t[pending[i].key]);
      }
    }
  }

  /** In the end every key has the text it is settled on. */
  lemma {:induction false} FinalText(env: Env, disk: Disk, force: bool, flat: seq<Named>, nextFlat0: map<string, string>,
                                     pending: seq<Item>, fallbackKeys: seq<string>, t: map<string, string>,
                                     nextFlat: map<string, string>, j: nat)
    requires DistinctNames(flat) && Chosen(env, disk, force, flat, nextFlat0, pending, fallbackKeys)
    requires t == map[] || Translated(pending, t)
    requires FellBack(disk, force, t, pending, nextFlat0 + t, nextFlat) && j < |flat|
    ensures flat[j].name in nextFlat && nextFlat[flat[j].name] == Settle(env, disk, force, t, flat[j]).text
  {
    hide Choose, IsBlank, MarkedNames, FallBack, CacheKeyOf, SomeItem;
    PendingMeans(env, disk, flat);
    TranslatedKeys(env, disk, force, flat, nextFlat0, pending, fallbackKeys, t);
    var n := flat[j];
    if Choose(env, disk, n).Pending? {
      var i :| 0 <= i < |pending| && pending[i] == ItemOf(env, n);
      assert Named(n.name, n.text) == n;
      assert ItemFallBack(disk, force, pending[i]) == FallBack(disk, force, n);
    } else if n.name in t {
      ReusedNotTranslated(env, disk, flat, pending, t, j);
    }
  }

  lemma {:induction false} ReusedNotTranslated(env: Env, disk: Disk, flat: seq<Named>, pending: seq<Item>, t: map<string, string>, j: nat)
    requires DistinctNames(flat) && pending == PendingItems(env, disk, flat) && j < |flat|
    requires Choose(env, disk, flat[j]).Reuse? && (t == map[] || Translated(pending, t))
    ensures flat[j].name !in t
  {
    hide Choose, IsBlank, CacheKeyOf;
    PendingMeans(env, disk, flat);
    forall i | 0 <= i < |pending| ensures pending[i].key != flat[j].name {
      assert IsPendingItem(env, disk, flat, pending[i]);
    }
    assert flat[j].name in t ==> SomeItem(pending, flat[j].name);
  }

  /** What a run that got through reports and leaves behind. */
  ghost predicate RunDone(env: Env, disk: Disk, mode: Mode, source: seq<Entry>, sourceHash: string, t: map<string, string>,
                          now: string, at: string -> string, result: SyncResult, disk1: Disk)
  {
    var e := Expect(env, disk, mode.force, source, sourceHash, t, now, at);
    && Completed(env, disk, SourceFlat(source), t)
    && result.Synced?
    && result.changed == !UpToDate(disk, e)
    && result.fallbackCount == |e.meta.fallbackKeys|
    && result.wrote == (result.changed && mode.write && !mode.checkOnly)
    && disk1 == if result.wrote then Written(disk, e) else disk
  }

  /** The texts and marks that a run settles on, however it obtained the translations `t`. */
  ghost predicate TextsDone(env: Env, disk: Disk, force: bool, flat: seq<Named>, t: map<string, string>,
                            nextFlat: map<string, string>, fallbackKeys: seq<string>, tm: seq<Memo>, at: string -> string)
  {
    && Completed(env, disk, flat, t)
    && (forall j :: 0 <= j < |flat| ==>
          flat[j].name in nextFlat && nextFlat[flat[j].name] == Settle(env, disk, force, t, flat[j]).text)
    && fallbackKeys == FallbackNames(env, disk, force, t, flat)
    && tm == MemoryAfter(env, disk, flat, t, at)
  }

  /** The three loops of `syncLocale`. */
  method SettleTexts(translator: Translator, env: Env, tm0: seq<Memo>, existingFlat: StringMap, previousFallbackKeys: seq<string>,
                     flat: seq<Named>, force: bool, budget: real, at: string -> string, ghost disk: Disk)
      returns (failure: Option<string>, nextFlat: map<string, string>, fallbackKeys: seq<string>, tm: seq<Memo>,
               ghost t: map<string, string>)
    requires tm0 == LoadMemory(ContentOr(disk.memory, [])) && existingFlat.entries == ExistingFlat(disk)
    requires previousFallbackKeys == PreviousFallback(disk) && DistinctNames(flat)
    requires translator.Valid() && translator.client.None?
    modifies translator
    ensures translator.Valid() && translator.client.None?
    ensures failure.None? ==> TextsDone(env, disk, force, flat, t, nextFlat, fallbackKeys, tm, at)
    ensures !env.allowTranslate ==> failure.None?
    ensures old(translator.tries) <= translator.tries
    ensures failure.None? ==>
              t == Gathered(translator.service, old(translator.next), translator.tries[|old(translator.tries)|..])
    ensures !env.allowTranslate || PendingItems(env, disk, flat) == [] ==>
              failure.None? && translator.prompts == old(translator.prompts)
    ensures AskedFor(translator.service, env, PendingItems(env, disk, flat), budget, old(translator.next),
                     translator.tries[|old(translator.tries)|..], failure)
    ensures WithinBound(PendingItems(env, disk, flat), budget, translator.prompts - old(translator.prompts))
  {
    hide *;
    GatheredNone(translator.service, translator.next);
    assert translator.tries[|translator.tries|..] == [];
    var pending;
    nextFlat, pending, fallbackKeys := ChooseTexts(env, tm0, existingFlat, previousFallbackKeys, flat, disk, force);
    tm, t, failure := tm0, map[], None;
    ghost var chosen, marks := nextFlat, fallbackKeys;
    PendingIs(env, disk, force, flat, chosen, pending, marks);
    PendingDistinct(env, disk, flat);
    NoPrompts(pending, budget);
    if !env.allowTranslate || pending == [] {
      NothingAsked(translator.service, env, pending, budget, translator.next);
    }
    if env.allowTranslate && |pending| > 0 {
      failure, nextFlat, tm, t := TranslatePending(translator, env, pending, nextFlat, tm0, budget, at);
      if failure.Some? {
        return;
      }
    }
    ObtainedMeans(env, pending, t, chosen, tm0, at, nextFlat, tm);
    TranslatedKeys(env, disk, force, flat, chosen, pending, marks, t);
    nextFlat, fallbackKeys := FallBackTexts(force, pending, existingFlat, previousFallbackKeys, nextFlat, fallbackKeys, disk, t);
    SettledIs(env, disk, force, flat, chosen, pending, marks, t, nextFlat, fallbackKeys, tm, at);
  }

  lemma {:induction false} NoPrompts(items: seq<Item>, budget: real)
    ensures WithinBound(items, budget, 0)
  {
    hide IsGreedy;
    forall batches | IsGreedy(items, batches, budget) ensures 0 <= 4 * |items| - 2 * |batches| {
      NoBatchEmpty(items, batches, budget);
      NonEmptyLength(batches);
      GreedyCovers(items, batches, budget);
    }
  }

  lemma {:induction false} PendingIs(env: Env, disk: Disk, force: bool, flat: seq<Named>, nextFlat0: map<string, string>,
                                     pending: seq<Item>, marks: seq<string>)
    requires Chosen(env, disk, force, flat, nextFlat0, pending, marks)
    ensures pending == PendingItems(env, disk, flat)
  {
  }

  lemma {:induction false} ObtainedMeans(env: Env, items: seq<Item>, t: map<string, string>, nextFlat0: map<string, string>,
                                         tm0: seq<Memo>, at: string -> string, nextFlat: map<string, string>, tm: seq<Memo>)
    requires Obtained(env, items, t, nextFlat0, tm0, at, nextFlat, tm)
             || (t == map[] && nextFlat == nextFlat0 && tm == tm0)
    ensures nextFlat == nextFlat0 + t && tm == Remember(env, tm0, items, t, at)
    ensures t == map[] || Translated(items, t)
    ensures Obtained(env, items, t, nextFlat0, tm0, at, nextFlat, tm) ==> Translated(items, t)
  {
    if t == map[] {
      RememberNothing(env, tm0, items, at);
    }
  }

  lemma {:induction false} SettledIs(env: Env, disk: Disk, force: bool, flat: seq<Named>, chosen: map<string, string>,
                                     pending: seq<Item>, marks: seq<string>, t: map<string, string>,
                                     nextFlat: map<string, string>, fallbackKeys: seq<string>, tm: seq<Memo>, at: string -> string)
    requires DistinctNames(flat) && Chosen(env, disk, force, flat, chosen, pending, marks)
    requires if env.allowTranslate && |pending| > 0 then Translated(pending, t) else t == map[]
    requires FellBack(disk, force, t, pending, chosen + t, nextFlat)
    requires fallbackKeys == marks + ItemMarks(disk, force, t, pending)
    requires tm == Remember(env, LoadMemory(ContentOr(disk.memory, [])), pending, t, at)
    ensures TextsDone(env, disk, force, flat, t, nextFlat, fallbackKeys, tm, at)
  {
    PendingIs(env, disk, force, flat, chosen, pending, marks);
    MarksAre(env, disk, force, flat, chosen, pending, marks, t);
    CompletedIs(env, disk, flat, t);
    hide *;
    forall j | 0 <= j < |flat|
      ensures flat[j].name in nextFlat && nextFlat[flat[j].name] == Settle(env, disk, force, t, flat[j]).text
    {
      FinalText(env, disk, force, flat, chosen, pending, marks, t, nextFlat, j);
    }
    TextsAre(env, disk, force, flat, t, nextFlat, fallbackKeys, tm, at);
  }

  lemma {:induction false} MarksAre(env: Env, disk: Disk, force: bool, flat: seq<Named>, chosen: map<string, string>,
                                    pending: seq<Item>, marks: seq<string>, t: map<string, string>)
    requires Chosen(env, disk, force, flat, chosen, pending, marks)
    ensures marks + ItemMarks(disk, force, t, pending) == FallbackNames(env, disk, force, t, flat)
  {
    hide Choose, Settle, ItemMarks, MarkedNames, PendingItems;
    FirstMarksFixed(env, disk, force, t, flat);
    ItemMarksMeans(env, disk, force, t, flat);
  }

  lemma {:induction false} CompletedIs(env: Env, disk: Disk, flat: seq<Named>, t: map<string, string>)
    requires var p := PendingItems(env, disk, flat);
             if env.allowTranslate && |p| > 0 then Translated(p, t) else t == map[]
    ensures Completed(env, disk, flat, t)
  {
    hide PendingItems, IsBlank;
  }

  lemma {:induction false} TextsAre(env: Env, disk: Disk, force: bool, flat: seq<Named>, t: map<string, string>,
                                    nextFlat: map<string, string>, fallbackKeys: seq<string>, tm: seq<Memo>, at: string -> string)
    requires Completed(env, disk, flat, t)
    requires forall j :: 0 <= j < |flat| ==>
               flat[j].name in nextFlat && nextFlat[flat[j].name] == Settle(env, disk, force, t, flat[j]).text
    requires fallbackKeys == FallbackNames(env, disk, force, t, flat)
    requires tm == Remember(env, LoadMemory(ContentOr(disk.memory, [])), PendingItems(env, disk, flat), t, at)
    ensures TextsDone(env, disk, force, flat, t, nextFlat, fallbackKeys, tm, at)
  {
    hide Completed, Settle, FallbackNames, Remember, LoadMemory, PendingItems;
  }

  // ---------- the files to be written ----------

  /** `new Set(...)`, in the order of first appearance. */
  function Unique(names: seq<string>): seq<string> {
    if names == [] then []
    else
      var rest := Unique(names[..|names| - 1]);
      if names[|names| - 1] in names[..|names| - 1] then rest else rest + [names[|names| - 1]]
  }

  lemma {:induction false} UniqueIdentity(names: seq<string>)
    requires Distinct(names)
    ensures Unique(names) == names
  {
    if names == [] {
    } else {
      UniqueIdentity(names[..|names| - 1]);
      assert names == names[..|names| - 1] + [names[|names| - 1]];
    }
  }

  lemma {:induction false} RewordedIsRenamed(env: Env, disk: Disk, force: bool, source: seq<Entry>, t: map<string, string>,
                                              nextFlat: map<string, string>, fallbackKeys: seq<string>, tm: seq<Memo>,
                                              at: string -> string)
    requires TextsDone(env, disk, force, SourceFlat(source), t, nextFlat, fallbackKeys, tm, at)
    ensures var flat := SourceFlat(source);
            Reworded(flat, nextFlat) == Renamed(flat, Texts(env, disk, force, t, flat))
  {
    hide Completed, Settle, FallbackNames, MemoryAfter, SourceFlat;
  }

  /** The metadata, with its time stamp kept unless something else in it changes. */
  method BuildMeta(env: Env, previousMeta: File<Meta>, sourceHash: string, total: nat, sortedFallbackKeys: seq<string>, now: string,
                   ghost disk: Disk)
      returns (meta: Meta)
    requires previousMeta == disk.meta
    ensures meta == NextMeta(env, disk, sourceHash, total, sortedFallbackKeys, now)
  {
    var provider, model := env.provider, env.model;
    if !env.allowTranslate {
      provider := if previousMeta.Present? then previousMeta.content.provider else "";
      model := if previousMeta.Present? then previousMeta.content.model else "";
    }
    var translatedKeys := total - |sortedFallbackKeys|;
    var semanticMetaChanged :=
      !previousMeta.Present?
      || previousMeta.content.locale != env.locale
      || previousMeta.content.sourceHash != sourceHash
      || previousMeta.content.provider != provider
      || previousMeta.content.model != model
      || previousMeta.content.totalKeys != total
      || previousMeta.content.translatedKeys != translatedKeys
      || previousMeta.content.workflow != WORKFLOW
      || previousMeta.content.fallbackKeys != sortedFallbackKeys;
    meta := Meta(sortedFallbackKeys, if semanticMetaChanged then now else previousMeta.content.generatedAt,
                 env.locale, model, provider, sourceHash, total, translatedKeys, WORKFLOW);
  }

  /** Everything a run would write, from the texts it has settled on. */
  method BuildFiles(files: LocaleFiles, env: Env, sourceFlat: StringMap, nextFlat: map<string, string>, fallbackKeys: seq<string>,
                    tm: seq<Memo>, sourceHash: string, now: string,
                    ghost source: seq<Entry>, ghost force: bool, ghost t: map<string, string>, ghost at: string -> string)
      returns (e: Expected)
    requires sourceFlat.entries == SourceFlat(source)
    requires TextsDone(env, files.Snapshot(), force, sourceFlat.entries, t, nextFlat, fallbackKeys, tm, at)
    ensures e == Expect(env, files.Snapshot(), force, source, sourceHash, t, now, at)
  {
    hide TextsDone, Distinct, SetAllNamed, SourceFlat, NextMeta, FallbackNames, Texts, Reworded, Renamed;
    ghost var disk := files.Snapshot();
    var nextMap := BuildNextMap(sourceFlat, nextFlat);
    RewordedIsRenamed(env, disk, force, source, t, nextFlat, fallbackKeys, tm, at);
    var locale := RenderObject(nextMap, SetAllNamed([], Reworded(sourceFlat.entries, nextFlat)));
    FallbackUnique(env, disk, force, source, t, nextFlat, fallbackKeys, tm, at);
    var sortedFallbackKeys := SortBy(env.collate, Unique(fallbackKeys));
    var meta := BuildMeta(env, files.meta, sourceHash, |sourceFlat.entries|, sortedFallbackKeys, now, disk);
    var glossary := ContentOr(files.glossary, []);
    e := Expected(locale, meta, if |glossary| == 0 then DEFAULT_GLOSSARY else glossary, RenderMemory(env, tm));
    FilesAre(env, disk, force, source, sourceHash, t, now, at, nextFlat, fallbackKeys, tm, e);
  }

  lemma {:induction false} FallbackUnique(env: Env, disk: Disk, force: bool, source: seq<Entry>, t: map<string, string>,
                                          nextFlat: map<string, string>, fallbackKeys: seq<string>, tm: seq<Memo>,
                                          at: string -> string)
    requires TextsDone(env, disk, force, SourceFlat(source), t, nextFlat, fallbackKeys, tm, at)
    ensures Unique(fallbackKeys) == FallbackNames(env, disk, force, t, SourceFlat(source))
  {
    hide Completed, Settle, FallbackNames, MemoryAfter, SourceFlat, Distinct;
    SourceDistinct(source);
    FallbackMeans(env, disk, force, t, SourceFlat(source));
    UniqueIdentity(fallbackKeys);
  }

  lemma {:induction false} FilesAre(env: Env, disk: Disk, force: bool, source: seq<Entry>, sourceHash: string, t: map<string, string>,
                                    now: string, at: string -> string, nextFlat: map<string, string>, fallbackKeys: seq<string>,
                                    tm: seq<Memo>, e: Expected)
    requires TextsDone(env, disk, force, SourceFlat(source), t, nextFlat, fallbackKeys, tm, at)
    requires var flat := SourceFlat(source);
             && e.locale == SetAllNamed([], Renamed(flat, Texts(env, disk, force, t, flat)))
             && e.meta == NextMeta(env, disk, sourceHash, |flat|,
                                   SortBy(env.collate, FallbackNames(env, disk, force, t, flat)), now)
             && e.glossary == (var g := ContentOr(disk.glossary, []); if g == [] then DEFAULT_GLOSSARY else g)
             && e.memory == RenderMemory(env, tm)
    ensures e == Expect(env, disk, force, source, sourceHash, t, now, at)
  {
    hide Completed, Settle, FallbackNames, SourceFlat, SetAllNamed, Texts, NextMeta, RenderMemory, Remember, LoadMemory, PendingItems, SortBy;
  }

  /** Importing a locale module and flattening what it exports. */
  method LoadFlat(es: seq<Entry>) returns (flat: StringMap)
    ensures fresh(flat) && flat.entries == PutAllNames([], FlattenText(es, ""))
  {
    var object_ := LoadObject(es);
    flat := new StringMap();
    FlattenTranslations(object_, "", flat, es);
  }

  lemma {:induction false} SourceIs(source: seq<Entry>)
    ensures SourceFlat(source) == PutAllNames([], FlattenText(source, ""))
  {
  }

  lemma {:induction false} ExistingIs(disk: Disk)
    ensures ExistingFlat(disk) == PutAllNames([], FlattenText(ContentOr(disk.locale, []), ""))
  {
  }

  method WriteFiles(files: LocaleFiles, e: Expected)
    modifies files
    ensures files.Snapshot() == Written(old(files.Snapshot()), e)
  {
    files.locale := Present(e.locale, true);
    files.meta := Present(e.meta, true);
    files.glossary := Present(e.glossary, true);
    if |e.memory| > 0 || files.memory.Present? {
      files.memory := Present(e.memory, true);
    }
  }

  lemma {:induction false} RunIs(env: Env, disk: Disk, mode: Mode, source: seq<Entry>, sourceHash: string, t: map<string, string>,
                                 now: string, at: string -> string, flat: seq<Named>, nextFlat: map<string, string>,
                                 fallbackKeys: seq<string>, tm: seq<Memo>, result: SyncResult, disk1: Disk)
    requires flat == SourceFlat(source)
    requires TextsDone(env, disk, mode.force, flat, t, nextFlat, fallbackKeys, tm, at)
    requires var e := Expect(env, disk, mode.force, source, sourceHash, t, now, at);
             && result == Synced(!UpToDate(disk, e), |e.meta.fallbackKeys|, !UpToDate(disk, e) && mode.write && !mode.checkOnly)
             && disk1 == if result.wrote then Written(disk, e) else disk
    ensures RunDone(env, disk, mode, source, sourceHash, t, now, at, result, disk1)
  {
    hide Completed, Settle, FallbackNames, SourceFlat, Expect, UpToDate, Written, MemoryAfter;
  }

  // ---------- the whole run ----------

  /** `syncLocale`: read the files, settle a text for every source key, and write what differs. */
  method SyncLocale(files: LocaleFiles, translator: Translator, env: Env, mode: Mode, source: seq<Entry>, sourceHash: string,
                    budget: real, now: string, at: string -> string)
      returns (result: SyncResult, ghost t: map<string, string>)
    requires translator.Valid() && translator.client.None?
    modifies files, translator
    ensures translator.Valid() && translator.client.None?
    ensures result.SyncFailed? ==> files.Snapshot() == old(files.Snapshot()) && env.allowTranslate
    ensures result.Synced? ==>
              RunDone(env, old(files.Snapshot()), mode, source, sourceHash, t, now, at, result, files.Snapshot())
    ensures old(translator.tries) <= translator.tries
    ensures AskedFor(translator.service, env, PendingItems(env, old(files.Snapshot()), SourceFlat(source)), budget,
                     old(translator.next), translator.tries[|old(translator.tries)|..],
                     if result.SyncFailed? then Some(result.error) else None)
    ensures result.Synced? ==>
              forall k :: k in t ==>
                GivenLast(translator.service, old(translator.next), translator.tries[|old(translator.tries)|..], k, t[k])
    ensures !env.allowTranslate || PendingItems(env, old(files.Snapshot()), SourceFlat(source)) == [] ==>
              result.Synced? && translator.prompts == old(translator.prompts)
    ensures WithinBound(PendingItems(env, old(files.Snapshot()), SourceFlat(source)), budget,
                        translator.prompts - old(translator.prompts))
  {
    hide *;
    ghost var disk := files.Snapshot();
    var sourceFlat := LoadFlat(source);
    SourceIs(source);
    var existingFlat := LoadFlat(ContentOr(files.Snapshot().locale, []));
    ExistingIs(disk);
    var previousFallbackKeys := PreviousFallback(files.Snapshot());
    var tm := LoadMemory(ContentOr(files.Snapshot().memory, []));
    SourceDistinct(source);
    var failure, nextFlat, fallbackKeys;
    failure, nextFlat, fallbackKeys, tm, t := SettleTexts(translator, env, tm, existingFlat, previousFallbackKeys,
                                                          sourceFlat.entries, mode.force, budget, at, disk);
    if failure.Some? {
      return SyncFailed(failure.value), t;
    }
    AllGiven(translator.service, old(translator.next), translator.tries[|old(translator.tries)|..]);
    var expected := BuildFiles(files, env, sourceFlat, nextFlat, fallbackKeys, tm, sourceHash, now, source, mode.force, t, at);
    var changed := !UpToDate(files.Snapshot(), expected);
    result := Synced(changed, |expected.meta.fallbackKeys|, changed && mode.write && !mode.checkOnly);
    if changed && !mode.checkOnly && mode.write {
      WriteFiles(files, expected);
    }
    RunIs(env, disk, mode, source, sourceHash, t, now, at, sourceFlat.entries, nextFlat, fallbackKeys, tm, result, files.Snapshot());
  }

  // ---------- one run after another ----------

  lemma {:induction false} WrittenIsUpToDate(disk: Disk, e: Expected)
    ensures UpToDate(Written(disk, e), e)
  {
  }

  /** After a run that may write, whatever it found and obtained, the files are what it expects. */
  lemma {:induction false} LeavesUpToDate(env: Env, disk: Disk, mode: Mode, source: seq<Entry>, sourceHash: string,
                                          t: map<string, string>, now: string, at: string -> string, result: SyncResult, disk1: Disk)
    requires RunDone(env, disk, mode, source, sourceHash, t, now, at, result, disk1)
    requires mode.write && !mode.checkOnly
    ensures UpToDate(disk1, Expect(env, disk, mode.force, source, sourceHash, t, now, at))
  {
    hide UpToDate, Written, Expect, Completed, SourceFlat;
    WrittenIsUpToDate(disk, Expect(env, disk, mode.force, source, sourceHash, t, now, at));
  }

  /** Once a run has been written, a second run over the same source finds nothing to translate and nothing to
      change, in whatever mode and at whatever time; and a run with a provider leaves no fallback. */
  lemma {:induction false} SecondRunIsIdle(
      env: Env, disk: Disk, mode: Mode, source: seq<Entry>, sourceHash: string, t: map<string, string>,
      now: string, at: string -> string, result: SyncResult, disk1: Disk,
      mode1: Mode, t1: map<string, string>, now1: string, at1: string -> string, result1: SyncResult, disk2: Disk)
    requires Rereadable(SourceFlat(source)) && NamesApart(env, SourceFlat(source)) && ValidEnv(env)
    requires mode.write && !mode.checkOnly
    requires RunDone(env, disk, mode, source, sourceHash, t, now, at, result, disk1)
    requires RunDone(env, disk1, mode1, source, sourceHash, t1, now1, at1, result1, disk2)
    ensures PendingItems(env, disk1, SourceFlat(source)) == []
    ensures result1 == Synced(false, result.fallbackCount, false) && disk2 == disk1
    ensures env.allowTranslate ==> result.fallbackCount == 0
  {
    hide UpToDate, Written, Expect, Completed, SourceFlat, PendingItems;
    LeavesUpToDate(env, disk, mode, source, sourceHash, t, now, at, result, disk1);
    SecondRunExpectsTheSame(env, disk, mode.force, source, sourceHash, t, now, at, disk1, mode1.force, t1, now1, at1);
    if env.allowTranslate {
      ProviderLeavesNoFallback(env, disk, mode.force, source, sourceHash, t, now, at);
    }
  }

  /** In particular for a source whose keys are non-empty and free of dots. */
  lemma {:induction false} SecondRunOfSimpleSource(
      env: Env, disk: Disk, mode: Mode, source: seq<Entry>, sourceHash: string, t: map<string, string>,
      now: string, at: string -> string, result: SyncResult, disk1: Disk,
      mode1: Mode, t1: map<string, string>, now1: string, at1: string -> string, result1: SyncResult, disk2: Disk)
    requires WellFormed(source) && NamesApart(env, FlattenText(source, "")) && ValidEnv(env)
    requires mode.write && !mode.checkOnly
    requires RunDone(env, disk, mode, source, sourceHash, t, now, at, result, disk1)
    requires RunDone(env, disk1, mode1, source, sourceHash, t1, now1, at1, result1, disk2)
    ensures PendingItems(env, disk1, FlattenText(source, "")) == []
    ensures result1 == Synced(false, result.fallbackCount, false) && disk2 == disk1
  {
    hide *;
    WellFormedSource(source);
    SecondRunIsIdle(env, disk, mode, source, sourceHash, t, now, at, result, disk1, mode1, t1, now1, at1, result1, disk2);
  }

  /** A check where no provider is configured, and cache keys may be made with other names, passes exactly if the
      memory left by the run holds no other text under those keys than the locale file; so it passes if the cache
      keys stay the same. */
  lemma {:induction false} CheckWithoutProviderIff(
      env: Env, disk: Disk, mode: Mode, source: seq<Entry>, sourceHash: string, t: map<string, string>,
      now: string, at: string -> string, result: SyncResult, disk1: Disk, env1: Env,
      mode1: Mode, t1: map<string, string>, now1: string, at1: string -> string, result1: SyncResult, disk2: Disk)
    requires Rereadable(SourceFlat(source)) && NamesApart(env, SourceFlat(source)) && ValidEnv(env)
    requires mode.write && !mode.checkOnly
    requires RunDone(env, disk, mode, source, sourceHash, t, now, at, result, disk1)
    requires Elsewhere(env, env1)
    requires RunDone(env1, disk1, mode1, source, sourceHash, t1, now1, at1, result1, disk2)
    ensures result1.Synced?
    ensures var flat := SourceFlat(source);
            !result1.changed <==> forall j :: 0 <= j < |flat| ==> MemoAgrees(env1, disk1, flat[j])
    ensures (forall n: Named :: CacheKeyOf(env1, n) == CacheKeyOf(env, n)) ==> !result1.changed && disk2 == disk1
  {
    hide UpToDate, Written, Expect, SourceFlat, PendingItems, MemoAgrees, CacheKeyOf, Rereadable;
    LeavesUpToDate(env, disk, mode, source, sourceHash, t, now, at, result, disk1);
    CheckElsewhereIff(env, disk, mode.force, source, sourceHash, t, now, at, disk1, env1, mode1.force, now1, at1);
    if forall n: Named :: CacheKeyOf(env1, n) == CacheKeyOf(env, n) {
      SameKeysAgree(env, disk, mode.force, source, sourceHash, t, now, at, disk1, env1);
    }
  }
}
