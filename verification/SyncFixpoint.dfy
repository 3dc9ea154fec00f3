/** A synchronised locale stays as it is: what a second run expects is what the first run wrote. */
module SyncFixpoint {
  import opened Options
  import opened Sorting
  import opened TranslationTree
  import opened DottedKeys
  import opened TreeLookup
  import opened TranslationBatches
  import opened BatchTranslation
  import opened SyncRules

  // ---------- the translation memory as a map ----------

  function MemoOf(memory: seq<Memo>, cacheKey: string): Option<Memo> {
    var k := FindMemo(memory, cacheKey);
    if k < |memory| then Some(memory[k]) else None
  }

  ghost predicate DistinctMemos(memory: seq<Memo>) {
    forall i, j :: 0 <= i < j < |memory| ==> memory[i].cacheKey != memory[j].cacheKey
  }

  ghost predicate AllUsable(memory: seq<Memo>) {
    forall i :: 0 <= i < |memory| ==> Usable(memory[i])
  }

  lemma {:induction false} FindMemoIs(memory: seq<Memo>, key: string, k: nat)
    requires k <= |memory| && (forall i :: 0 <= i < k ==> memory[i].cacheKey != key)
    requires k < |memory| ==> memory[k].cacheKey == key
    ensures FindMemo(memory, key) == k
  {
    hide FindMemo;
    var f := FindMemo(memory, key);
    assert f <= |memory|;
  }

  lemma {:induction false} PutMemoMeans(memory: seq<Memo>, memo: Memo, key: string)
    ensures MemoOf(PutMemo(memory, memo), key) == if key == memo.cacheKey then Some(memo) else MemoOf(memory, key)
  {
    hide FindMemo;
    var k, m := FindMemo(memory, memo.cacheKey), PutMemo(memory, memo);
    var f := FindMemo(memory, key);
    if key == memo.cacheKey {
      FindMemoIs(m, key, k);
    } else {
      FindMemoIs(m, key, if f < |memory| then f else |m|);
    }
  }

  lemma {:induction false} PutMemoKeeps(memory: seq<Memo>, memo: Memo)
    requires DistinctMemos(memory) && AllUsable(memory) && Usable(memo)
    ensures DistinctMemos(PutMemo(memory, memo)) && AllUsable(PutMemo(memory, memo))
  {
    hide FindMemo, Usable;
  }

  lemma {:induction false} LoadKeeps(lines: seq<Memo>)
    ensures DistinctMemos(LoadMemory(lines)) && AllUsable(LoadMemory(lines))
  {
    if lines == [] {
    } else {
      LoadKeeps(lines[..|lines| - 1]);
      if Usable(lines[|lines| - 1]) {
        PutMemoKeeps(LoadMemory(lines[..|lines| - 1]), lines[|lines| - 1]);
      }
    }
  }

  /** A file with usable lines under different keys is loaded as it stands. */
  lemma {:induction false} LoadIsIdentity(lines: seq<Memo>)
    requires DistinctMemos(lines) && AllUsable(lines)
    ensures LoadMemory(lines) == lines
  {
    if lines == [] {
    } else {
      var init, last := lines[..|lines| - 1], lines[|lines| - 1];
      LoadIsIdentity(init);
      FindMemoIs(init, last.cacheKey, |init|);
      assert lines == init + [last];
    }
  }

  lemma {:induction false} MemoMember(memory: seq<Memo>, i: nat)
    requires DistinctMemos(memory) && i < |memory|
    ensures MemoOf(memory, memory[i].cacheKey) == Some(memory[i])
  {
    FindMemoIs(memory, memory[i].cacheKey, i);
  }

  lemma {:induction false} MemoDistinct(memory: seq<Memo>)
    requires DistinctMemos(memory)
    ensures Distinct(memory)
  {
  }

  /** Rendering sorts the memory, which changes neither its lines nor what is found in it. */
  lemma {:induction false} RenderKeeps(env: Env, memory: seq<Memo>)
    requires DistinctMemos(memory) && AllUsable(memory)
    ensures var r := RenderMemory(env, memory);
            DistinctMemos(r) && AllUsable(r) && forall key :: MemoOf(r, key) == MemoOf(memory, key)
  {
    hide FindMemo, Usable, SortBy;
    var r := RenderMemory(env, memory);
    SameElements(memory, r);
    MemoDistinct(memory);
    DistinctPermuted(memory, r);
    forall i, j | 0 <= i < j < |r| ensures r[i].cacheKey != r[j].cacheKey {
      assert r[i] in memory && r[j] in memory && r[i] != r[j];
    }
    assert AllUsable(r) by {
      forall i | 0 <= i < |r| ensures Usable(r[i]) {
        assert r[i] in memory;
      }
    }
    forall key ensures MemoOf(r, key) == MemoOf(memory, key) {
      RenderFinds(memory, r, key);
    }
  }

  lemma {:induction false} RenderFinds(memory: seq<Memo>, r: seq<Memo>, key: string)
    requires DistinctMemos(memory) && DistinctMemos(r) && forall x :: x in memory <==> x in r
    ensures MemoOf(r, key) == MemoOf(memory, key)
  {
    hide FindMemo;
    FoundThere(memory, r, key);
    FoundThere(r, memory, key);
  }

  lemma {:induction false} FoundThere(a: seq<Memo>, b: seq<Memo>, key: string)
    requires DistinctMemos(b) && forall x :: x in a ==> x in b
    ensures MemoOf(a, key).Some? ==> MemoOf(b, key) == MemoOf(a, key)
  {
    hide FindMemo;
    var k := FindMemo(a, key);
    if k < |a| {
      assert a[k] in b;
      var i :| 0 <= i < |b| && b[i] == a[k];
      MemoMember(b, i);
    }
  }

  lemma {:induction false} MemoOrderTotal(collate: (string, string) -> bool)
    requires TotalPreorder(collate)
    ensures TotalPreorder(MemoOrder(collate))
  {
    var le := MemoOrder(collate);
    forall x: Memo, y: Memo ensures le(x, y) || le(y, x) {
      assert collate(x.cacheKey, y.cacheKey) || collate(y.cacheKey, x.cacheKey);
    }
    forall x: Memo, y: Memo, z: Memo | le(x, y) && le(y, z) ensures le(x, z) {
      assert collate(x.cacheKey, y.cacheKey) && collate(y.cacheKey, z.cacheKey);
    }
  }

  lemma {:induction false} RenderTwice(env: Env, memory: seq<Memo>)
    requires TotalPreorder(env.collate)
    ensures RenderMemory(env, RenderMemory(env, memory)) == RenderMemory(env, memory)
  {
    var le := MemoOrder(env.collate);
    MemoOrderTotal(env.collate);
    SortBySorted(le, memory);
    SortSorted(le, SortBy(le, memory));
  }

  // ---------- remembering translations ----------

  ghost predicate HasCacheKey(items: seq<Item>, cacheKey: string) {
    exists i :: 0 <= i < |items| && items[i].cacheKey == cacheKey
  }

  ghost predicate DistinctCacheKeys(items: seq<Item>) {
    forall i, j :: 0 <= i < j < |items| ==> items[i].cacheKey != items[j].cacheKey
  }

  /** Every pending item has its translation. */
  ghost predicate Complete(items: seq<Item>, translated: map<string, string>) {
    forall i :: 0 <= i < |items| ==> items[i].key in translated && !IsBlank(translated[items[i].key])
  }

  /** Other entries of the memory stay. */
  lemma {:induction false} RememberOthers(env: Env, memory: seq<Memo>, items: seq<Item>, translated: map<string, string>,
                                          at: string -> string, key: string)
    requires !HasCacheKey(items, key)
    ensures MemoOf(Remember(env, memory, items, translated, at), key) == MemoOf(memory, key)
    decreases |items|
  {
    hide MemoOf, PutMemo;
    if items == [] {
    } else {
      var init, last := items[..|items| - 1], items[|items| - 1];
      assert last.cacheKey != key;
      RememberOthers(env, memory, init, translated, at, key);
      var rest := Remember(env, memory, init, translated, at);
      if last.key in translated {
        PutMemoMeans(rest, NewMemo(env, last, translated[last.key], at(last.key)), key);
      }
    }
  }

  /** A translated item is found under its key. */
  lemma {:induction false} RememberItem(env: Env, memory: seq<Memo>, items: seq<Item>, translated: map<string, string>,
                                        at: string -> string, i: nat)
    requires i < |items| && Complete(items, translated) && DistinctCacheKeys(items)
    ensures MemoOf(Remember(env, memory, items, translated, at), items[i].cacheKey)
         == Some(NewMemo(env, items[i], translated[items[i].key], at(items[i].key)))
    decreases |items|
  {
    hide MemoOf, PutMemo, IsBlank;
    var init, last := items[..|items| - 1], items[|items| - 1];
    var rest := Remember(env, memory, init, translated, at);
    NotBlank(translated[last.key]);
    PutMemoMeans(rest, NewMemo(env, last, translated[last.key], at(last.key)), items[i].cacheKey);
    if i < |init| {
      assert init[i] == items[i];
      RememberItem(env, memory, init, translated, at, i);
    }
  }

  lemma {:induction false} NotBlank(s: string)
    requires !IsBlank(s)
    ensures s != ""
  {
  }

  lemma {:induction false} RememberKeeps(env: Env, memory: seq<Memo>, items: seq<Item>, translated: map<string, string>,
                                         at: string -> string)
    requires DistinctMemos(memory) && AllUsable(memory) && Complete(items, translated)
    requires forall i :: 0 <= i < |items| ==> items[i].cacheKey != ""
    ensures var m := Remember(env, memory, items, translated, at); DistinctMemos(m) && AllUsable(m)
    decreases |items|
  {
    hide PutMemo, IsBlank, DistinctMemos, AllUsable;
    if items == [] {
    } else {
      var init, last := items[..|items| - 1], items[|items| - 1];
      RememberKeeps(env, memory, init, translated, at);
      PutMemoKeeps(Remember(env, memory, init, translated, at), NewMemo(env, last, translated[last.key], at(last.key)));
    }
  }

  lemma {:induction false} RememberNothing(env: Env, memory: seq<Memo>, items: seq<Item>, at: string -> string)
    ensures Remember(env, memory, items, map[], at) == memory
    decreases |items|
  {
    if items == [] {
    } else {
      RememberNothing(env, memory, items[..|items| - 1], at);
    }
  }

  // ---------- the pending items ----------

  ghost predicate InjectiveCacheKey(env: Env) {
    forall a: Named, b: Named :: a.name != b.name ==> CacheKeyOf(env, a) != CacheKeyOf(env, b)
  }

  ghost predicate IsPendingItem(env: Env, disk: Disk, flat: seq<Named>, item: Item) {
    exists j :: 0 <= j < |flat| && Choose(env, disk, flat[j]).Pending? && item == ItemOf(env, flat[j])
  }

  function ItemOf(env: Env, n: Named): Item {
    Item(CacheKeyOf(env, n), n.name, n.text, env.hashText(n.text))
  }

  ghost predicate PendingOf(env: Env, disk: Disk, flat: seq<Named>, p: seq<Item>) {
    && (forall i :: 0 <= i < |p| ==> IsPendingItem(env, disk, flat, p[i]))
    && (forall j :: 0 <= j < |flat| && Choose(env, disk, flat[j]).Pending? ==> ItemOf(env, flat[j]) in p)
    && (forall i, j :: 0 <= i < j < |p| ==> p[i].key != p[j].key)
  }

  /** The pending items are those of the pending keys, in order. */
  lemma {:induction false} PendingMeans(env: Env, disk: Disk, flat: seq<Named>)
    requires DistinctNames(flat)
    ensures PendingOf(env, disk, flat, PendingItems(env, disk, flat))
    decreases |flat|
  {
    hide Choose, CacheKeyOf;
    if flat == [] {
    } else {
      hide PendingOf;
      PendingMeans(env, disk, flat[..|flat| - 1]);
      OneMorePending(env, disk, flat[..|flat| - 1], PendingItems(env, disk, flat[..|flat| - 1]), flat);
    }
  }

  lemma {:induction false} OneMorePending(env: Env, disk: Disk, init: seq<Named>, p0: seq<Item>, flat: seq<Named>)
    requires flat != [] && init == flat[..|flat| - 1] && DistinctNames(flat) && PendingOf(env, disk, init, p0)
    ensures var last := flat[|flat| - 1];
            PendingOf(env, disk, flat, p0 + if Choose(env, disk, last).Pending? then [ItemOf(env, last)] else [])
  {
    hide Choose, CacheKeyOf, IsPendingItem;
    var n, last := |init|, flat[|flat| - 1];
    var p := p0 + if Choose(env, disk, last).Pending? then [ItemOf(env, last)] else [];
    forall i | 0 <= i < |p0| ensures IsPendingItem(env, disk, flat, p0[i]) && p0[i].key != last.name {
      StillPending(env, disk, init, flat, p0[i]);
    }
    if Choose(env, disk, last).Pending? {
      LastIsPending(env, disk, flat);
      assert p[|p0|] == ItemOf(env, last);
    }
    forall j | 0 <= j < |flat| && Choose(env, disk, flat[j]).Pending? ensures ItemOf(env, flat[j]) in p {
      if j < n {
        assert init[j] == flat[j];
      }
    }
  }

  lemma {:induction false} StillPending(env: Env, disk: Disk, init: seq<Named>, flat: seq<Named>, item: Item)
    requires flat != [] && init == flat[..|flat| - 1] && DistinctNames(flat) && IsPendingItem(env, disk, init, item)
    ensures IsPendingItem(env, disk, flat, item) && item.key != flat[|flat| - 1].name
  {
    hide Choose, CacheKeyOf;
    var j :| 0 <= j < |init| && Choose(env, disk, init[j]).Pending? && item == ItemOf(env, init[j]);
    assert init[j] == flat[j] && flat[j].name != flat[|flat| - 1].name;
  }

  lemma {:induction false} LastIsPending(env: Env, disk: Disk, flat: seq<Named>)
    requires flat != [] && Choose(env, disk, flat[|flat| - 1]).Pending?
    ensures IsPendingItem(env, disk, flat, ItemOf(env, flat[|flat| - 1]))
  {
    hide Choose, CacheKeyOf;
    assert flat[|flat| - 1] == flat[|flat| - 1];
  }

  lemma {:induction false} PendingKeysDistinct(env: Env, disk: Disk, flat: seq<Named>)
    requires DistinctNames(flat) && InjectiveCacheKey(env)
    ensures DistinctCacheKeys(PendingItems(env, disk, flat))
  {
    hide Choose, InjectiveCacheKey;
    var p := PendingItems(env, disk, flat);
    PendingMeans(env, disk, flat);
    forall i, j | 0 <= i < j < |p| ensures p[i].cacheKey != p[j].cacheKey {
      var a :| 0 <= a < |flat| && Choose(env, disk, flat[a]).Pending? && p[i] == ItemOf(env, flat[a]);
      var b :| 0 <= b < |flat| && Choose(env, disk, flat[b]).Pending? && p[j] == ItemOf(env, flat[b]);
      KeysDiffer(env, flat[a], flat[b]);
    }
  }

  lemma {:induction false} KeysDiffer(env: Env, a: Named, b: Named)
    requires InjectiveCacheKey(env) && a.name != b.name
    ensures CacheKeyOf(env, a) != CacheKeyOf(env, b)
  {
  }

  /** A key that is not pending has a cache key of its own. */
  lemma {:induction false} NotPendingKey(env: Env, disk: Disk, flat: seq<Named>, j: nat)
    requires DistinctNames(flat) && InjectiveCacheKey(env) && j < |flat| && Choose(env, disk, flat[j]).Reuse?
    ensures !HasCacheKey(PendingItems(env, disk, flat), CacheKeyOf(env, flat[j]))
  {
    hide Choose, InjectiveCacheKey;
    var p := PendingItems(env, disk, flat);
    PendingMeans(env, disk, flat);
    forall i | 0 <= i < |p| ensures p[i].cacheKey != CacheKeyOf(env, flat[j]) {
      var a :| 0 <= a < |flat| && Choose(env, disk, flat[a]).Pending? && p[i] == ItemOf(env, flat[a]);
      KeysDiffer(env, flat[a], flat[j]);
    }
  }

  // ---------- the fallback marks ----------

  ghost predicate MarkedBy(env: Env, disk: Disk, force: bool, translated: map<string, string>, flat: seq<Named>, name: string) {
    exists j :: 0 <= j < |flat| && flat[j].name == name && Settle(env, disk, force, translated, flat[j]).fallback
  }

  ghost predicate Marks(env: Env, disk: Disk, force: bool, translated: map<string, string>, n: Named, pending: bool) {
    Choose(env, disk, n).Pending? == pending && Settle(env, disk, force, translated, n).fallback
  }

  lemma {:induction false} MarkedMeans(env: Env, disk: Disk, force: bool, translated: map<string, string>, flat: seq<Named>, pending: bool)
    requires DistinctNames(flat)
    ensures var m := MarkedNames(env, disk, force, translated, flat, pending);
            && Distinct(m) && |m| <= |flat|
            && forall name :: name in m <==>
                 exists j :: 0 <= j < |flat| && flat[j].name == name && Marks(env, disk, force, translated, flat[j], pending)
    decreases |flat|
  {
    hide Choose, Settle;
    if flat == [] {
    } else {
      var init, last := flat[..|flat| - 1], flat[|flat| - 1];
      MarkedMeans(env, disk, force, translated, init, pending);
      var m0, m := MarkedNames(env, disk, force, translated, init, pending), MarkedNames(env, disk, force, translated, flat, pending);
      forall name
        ensures name in m <==>
          exists j :: 0 <= j < |flat| && flat[j].name == name && Marks(env, disk, force, translated, flat[j], pending)
      {
        if name in m0 {
          var j :| 0 <= j < |init| && init[j].name == name && Marks(env, disk, force, translated, init[j], pending);
          assert flat[j] == init[j];
        }
        if j :| 0 <= j < |flat| && flat[j].name == name && Marks(env, disk, force, translated, flat[j], pending) {
          if j < |init| {
            assert init[j].name == name && Marks(env, disk, force, translated, init[j], pending);
          }
        }
      }
      assert last.name !in m0;
    }
  }

  /** The fallback list holds each name that ended up as a fallback once. */
  lemma {:induction false} FallbackMeans(env: Env, disk: Disk, force: bool, translated: map<string, string>, flat: seq<Named>)
    requires DistinctNames(flat)
    ensures var f := FallbackNames(env, disk, force, translated, flat);
            Distinct(f) && forall name :: name in f <==> MarkedBy(env, disk, force, translated, flat, name)
  {
    hide Choose, Settle, MarkedNames;
    MarkedMeans(env, disk, force, translated, flat, false);
    MarkedMeans(env, disk, force, translated, flat, true);
    var a, b := MarkedNames(env, disk, force, translated, flat, false), MarkedNames(env, disk, force, translated, flat, true);
    forall name ensures !(name in a && name in b) {
      if name in a {
        var i :| 0 <= i < |flat| && flat[i].name == name && Marks(env, disk, force, translated, flat[i], false);
        assert forall j :: 0 <= j < |flat| && flat[j].name == name ==> j == i;
      }
    }
    forall name ensures name in a || name in b <==> MarkedBy(env, disk, force, translated, flat, name) {
      if j :| 0 <= j < |flat| && flat[j].name == name && Settle(env, disk, force, translated, flat[j]).fallback {
        assert Marks(env, disk, force, translated, flat[j], Choose(env, disk, flat[j]).Pending?);
      }
    }
    DistinctConcat(a, b);
  }

  lemma {:induction false} DistinctConcat<T>(a: seq<T>, b: seq<T>)
    requires Distinct(a) && Distinct(b) && forall x :: !(x in a && x in b)
    ensures Distinct(a + b)
  {
    var c := a + b;
    forall i, j | 0 <= i < j < |c| ensures c[i] != c[j] {
      if i < |a| && j >= |a| {
        assert c[i] in a && c[j] in b;
      }
    }
  }

  lemma {:induction false} SameMembersSameMultiset<T>(a: seq<T>, b: seq<T>)
    requires Distinct(a) && Distinct(b) && forall x :: x in a <==> x in b
    ensures multiset(a) == multiset(b)
  {
    forall x ensures multiset(a)[x] == multiset(b)[x] {
      DistinctMultiplicity(a, x);
      DistinctMultiplicity(b, x);
      assert x in multiset(a) <==> x in a;
      assert x in multiset(b) <==> x in b;
    }
  }

  // ---------- one key, before and after ----------

  /** What a run needs to have gone through: without a provider nothing is translated, with one every pending
      key is. */
  ghost predicate Completed(env: Env, disk: Disk, flat: seq<Named>, translated: map<string, string>) {
    if env.allowTranslate then Complete(PendingItems(env, disk, flat), translated) else translated == map[]
  }

  ghost predicate ValidEnv(env: Env) {
    && TotalPreorder(env.collate)
    && (env.allowTranslate ==> InjectiveCacheKey(env))
    && (forall n: Named :: CacheKeyOf(env, n) != "")
  }

  function MemoryAfter(env: Env, disk: Disk, flat: seq<Named>, translated: map<string, string>, at: string -> string): seq<Memo> {
    Remember(env, LoadMemory(ContentOr(disk.memory, [])), PendingItems(env, disk, flat), translated, at)
  }

  lemma {:induction false} PendingTranslated(env: Env, disk: Disk, flat: seq<Named>, translated: map<string, string>, j: nat)
    requires DistinctNames(flat) && j < |flat| && Choose(env, disk, flat[j]).Pending?
    requires Complete(PendingItems(env, disk, flat), translated)
    ensures flat[j].name in translated && !IsBlank(translated[flat[j].name])
  {
    hide Choose, IsBlank;
    PendingMeans(env, disk, flat);
    var p := PendingItems(env, disk, flat);
    var i :| 0 <= i < |p| && p[i] == ItemOf(env, flat[j]);
  }

  /** What the memory holds for a key after a run is what the run wrote for it. */
  lemma {:induction false} MemoryAgrees(env: Env, disk: Disk, force: bool, flat: seq<Named>, translated: map<string, string>,
                                        at: string -> string, j: nat)
    requires DistinctNames(flat) && j < |flat| && ValidEnv(env) && Completed(env, disk, flat, translated)
    ensures var m := MemoOf(MemoryAfter(env, disk, flat, translated, at), CacheKeyOf(env, flat[j]));
            m.Some? ==> m.value.translated == Settle(env, disk, force, translated, flat[j]).text
  {
    hide IsBlank, InjectiveCacheKey, CacheKeyOf, FallBack, LoadMemory, ExistingFlat, Lookup, Remember, PendingItems, FindMemo;
    var n, memory, p := flat[j], LoadMemory(ContentOr(disk.memory, [])), PendingItems(env, disk, flat);
    if !env.allowTranslate {
      RememberNothing(env, memory, p, at);
    } else if Choose(env, disk, n).Pending? {
      PendingTranslated(env, disk, flat, translated, j);
      NotBlank(translated[n.name]);
      PendingMeans(env, disk, flat);
      PendingKeysDistinct(env, disk, flat);
      var i :| 0 <= i < |p| && p[i] == ItemOf(env, n);
      RememberItem(env, memory, p, translated, at, i);
    } else {
      NotPendingKey(env, disk, flat, j);
      RememberOthers(env, memory, p, translated, at, CacheKeyOf(env, n));
    }
  }

  /** With a provider no key ends up as a fallback. */
  lemma {:induction false} NoFallbackWithProvider(env: Env, disk: Disk, force: bool, flat: seq<Named>, translated: map<string, string>, j: nat)
    requires DistinctNames(flat) && j < |flat| && env.allowTranslate && Completed(env, disk, flat, translated)
    ensures !Settle(env, disk, force, translated, flat[j]).fallback
  {
    hide IsBlank, FindMemo, ExistingFlat, LoadMemory, Lookup, PendingItems;
    if Choose(env, disk, flat[j]).Pending? {
      PendingTranslated(env, disk, flat, translated, j);
      NotBlank(translated[flat[j].name]);
    }
  }

  // ---------- the files after a run ----------

  lemma {:induction false} SourceDistinct(source: seq<Entry>)
    ensures DistinctNames(SourceFlat(source))
  {
    PutAllKeepsDistinct([], FlattenText(source, ""));
  }

  /** With non-empty, dot-free keys the flattened source is its leaves in order, and its names can be read back. */
  lemma {:induction false} WellFormedSource(source: seq<Entry>)
    requires WellFormed(source)
    ensures SourceFlat(source) == FlattenText(source, "") && Rereadable(SourceFlat(source))
  {
    WellFormedIsRereadable(source);
    hide Rereadable;
    NamesDistinct(source);
    assert [] + FlattenText(source, "") == FlattenText(source, "");
    PutAllDistinct([], FlattenText(source, ""));
  }

  /** The collation tells the names of the source apart.  Only runs without a provider list any of them. */
  ghost predicate NamesApart(env: Env, flat: seq<Named>) {
    !env.allowTranslate ==>
      forall i, j :: 0 <= i < j < |flat| ==> !(env.collate(flat[i].name, flat[j].name) && env.collate(flat[j].name, flat[i].name))
  }

  /** The first run of a pair: what it read, what it obtained, and that the names of its source can be read back
      and told apart. */
  ghost predicate FirstRun(env: Env, disk: Disk, source: seq<Entry>, translated: map<string, string>) {
    && Rereadable(SourceFlat(source)) && NamesApart(env, SourceFlat(source)) && ValidEnv(env)
    && Completed(env, disk, SourceFlat(source), translated)
  }

  lemma {:induction false} MemoryWritten(env: Env, disk: Disk, source: seq<Entry>, translated: map<string, string>, at: string -> string)
    requires ValidEnv(env) && Completed(env, disk, SourceFlat(source), translated)
    ensures var m := MemoryAfter(env, disk, SourceFlat(source), translated, at);
            DistinctMemos(m) && AllUsable(m)
  {
    hide Choose, IsBlank, CacheKeyOf;
    var flat := SourceFlat(source);
    var lines := ContentOr(disk.memory, []);
    LoadKeeps(lines);
    SourceDistinct(source);
    if env.allowTranslate {
      var p := PendingItems(env, disk, flat);
      PendingKeysNonEmpty(env, disk, flat);
      RememberKeeps(env, LoadMemory(lines), p, translated, at);
    } else {
      RememberNothing(env, LoadMemory(lines), PendingItems(env, disk, flat), at);
    }
  }

  lemma {:induction false} PendingKeysNonEmpty(env: Env, disk: Disk, flat: seq<Named>)
    requires ValidEnv(env)
    ensures forall i :: 0 <= i < |PendingItems(env, disk, flat)| ==> PendingItems(env, disk, flat)[i].cacheKey != ""
    decreases |flat|
  {
    hide Choose;
    if flat == [] {
    } else {
      PendingKeysNonEmpty(env, disk, flat[..|flat| - 1]);
      CacheKeyNonEmpty(env, flat[|flat| - 1]);
    }
  }

  lemma {:induction false} CacheKeyNonEmpty(env: Env, n: Named)
    requires ValidEnv(env)
    ensures CacheKeyOf(env, n) != ""
  {
  }

  /** The memory file, once up to date, is loaded as it was written. */
  lemma {:induction false} MemoryReloaded(env: Env, disk: Disk, force: bool, source: seq<Entry>, sourceHash: string,
                                          translated: map<string, string>, now: string, at: string -> string, disk1: Disk)
    requires FirstRun(env, disk, source, translated)
    requires UpToDate(disk1, Expect(env, disk, force, source, sourceHash, translated, now, at))
    ensures var m := MemoryAfter(env, disk, SourceFlat(source), translated, at);
            var m1 := LoadMemory(ContentOr(disk1.memory, []));
            && (forall key :: MemoOf(m1, key) == MemoOf(m, key))
            && RenderMemory(env, m1) == RenderMemory(env, m)
  {
    hide MemoOf, LoadMemory, MemoryAfter;
    var m := MemoryAfter(env, disk, SourceFlat(source), translated, at);
    var lines := RenderMemory(env, m);
    assert ContentOr(disk1.memory, []) == lines by {
      MemoryLines(env, disk, force, source, sourceHash, translated, now, at, disk1);
    }
    MemoryWritten(env, disk, source, translated, at);
    RenderKeeps(env, m);
    LoadIsIdentity(lines);
    RenderTwice(env, m);
  }

  lemma {:induction false} MemoryLines(env: Env, disk: Disk, force: bool, source: seq<Entry>, sourceHash: string,
                                       translated: map<string, string>, now: string, at: string -> string, disk1: Disk)
    requires UpToDate(disk1, Expect(env, disk, force, source, sourceHash, translated, now, at))
    ensures ContentOr(disk1.memory, []) == RenderMemory(env, MemoryAfter(env, disk, SourceFlat(source), translated, at))
  {
    hide RenderMemory, LoadMemory, Remember, PendingItems, SourceFlat;
  }

  /** The locale file, once up to date, flattens to the texts that the run settled on. */
  lemma {:induction false} LocaleReloaded(env: Env, disk: Disk, force: bool, source: seq<Entry>, sourceHash: string,
                                          translated: map<string, string>, now: string, at: string -> string, disk1: Disk, j: nat)
    requires Rereadable(SourceFlat(source)) && j < |SourceFlat(source)|
    requires UpToDate(disk1, Expect(env, disk, force, source, sourceHash, translated, now, at))
    ensures var n := SourceFlat(source)[j];
            Lookup(ExistingFlat(disk1), n.name) == Some(Settle(env, disk, force, translated, n).text)
  {
    hide RenderMemory, LoadMemory, Remember, PendingItems, SourceFlat, Settle, SetAllNamed, Completed, Lookup, PutAllNames,
      Rereadable;
    var flat := SourceFlat(source);
    var texts := Texts(env, disk, force, translated, flat);
    assert ContentOr(disk1.locale, []) == SetAllNamed([], Renamed(flat, texts));
    RenamedIsReread(flat, texts, j);
  }

  lemma {:induction false} RenamedIsReread(flat: seq<Named>, texts: seq<string>, j: nat)
    requires Rereadable(flat) && |texts| == |flat| && j < |flat|
    ensures Lookup(PutAllNames([], FlattenText(SetAllNamed([], Renamed(flat, texts)), "")), flat[j].name) == Some(texts[j])
  {
    hide Lookup, PutAllNames, FlattenText, SetAllNamed, Split, Apart;
    assert Rereadable(Renamed(flat, texts));
    RebuiltIsReread(Renamed(flat, texts), j);
  }

  /** The metadata, once up to date, lists exactly the keys that ended up as fallbacks. */
  lemma {:induction false} MetaReloaded(env: Env, disk: Disk, force: bool, source: seq<Entry>, sourceHash: string,
                                        translated: map<string, string>, now: string, at: string -> string, disk1: Disk, j: nat)
    requires j < |SourceFlat(source)|
    requires UpToDate(disk1, Expect(env, disk, force, source, sourceHash, translated, now, at))
    ensures var n := SourceFlat(source)[j];
            n.name in PreviousFallback(disk1) <==> Settle(env, disk, force, translated, n).fallback
  {
    hide RenderMemory, LoadMemory, Remember, PendingItems, SourceFlat, Settle, SetAllNamed, Completed, SortBy, FallbackNames;
    var flat := SourceFlat(source);
    var f := FallbackNames(env, disk, force, translated, flat);
    assert PreviousFallback(disk1) == SortBy(env.collate, f);
    SourceDistinct(source);
    FallbackMeans(env, disk, force, translated, flat);
    SameElements(f, SortBy(env.collate, f));
    if i :| 0 <= i < |flat| && flat[i].name == flat[j].name && Settle(env, disk, force, translated, flat[i]).fallback {
      assert i == j;
    }
  }

  /** After a run every key is reused as it was settled: nothing is pending any more. */
  lemma {:induction false} Stable(env: Env, disk: Disk, force: bool, source: seq<Entry>, sourceHash: string,
                                  translated: map<string, string>, now: string, at: string -> string, disk1: Disk, j: nat)
    requires FirstRun(env, disk, source, translated) && j < |SourceFlat(source)|
    requires UpToDate(disk1, Expect(env, disk, force, source, sourceHash, translated, now, at))
    ensures var n := SourceFlat(source)[j];
            Choose(env, disk1, n) == Settle(env, disk, force, translated, n)
  {
    var flat := SourceFlat(source);
    assert ValidEnv(env) && Completed(env, disk, flat, translated) && Rereadable(flat);
    hide *;
    LocaleReloaded(env, disk, force, source, sourceHash, translated, now, at, disk1, j);
    MetaReloaded(env, disk, force, source, sourceHash, translated, now, at, disk1, j);
    MemoryReloaded(env, disk, force, source, sourceHash, translated, now, at, disk1);
    SourceDistinct(source);
    MemoryAgrees(env, disk, force, flat, translated, at, j);
    if env.allowTranslate {
      NoFallbackWithProvider(env, disk, force, flat, translated, j);
    }
    assert MemoOf(LoadMemory(ContentOr(disk1.memory, [])), CacheKeyOf(env, flat[j]))
        == MemoOf(MemoryAfter(env, disk, flat, translated, at), CacheKeyOf(env, flat[j]));
    ReusedAs(env, disk1, flat[j], Settle(env, disk, force, translated, flat[j]));
  }

  /** A key whose text, mark and memory entry agree is reused with them. */
  lemma {:induction false} ReusedAs(env: Env, disk: Disk, n: Named, settled: Choice)
    requires settled.Reuse? && Lookup(ExistingFlat(disk), n.name) == Some(settled.text)
    requires n.name in PreviousFallback(disk) <==> settled.fallback
    requires env.allowTranslate ==> !settled.fallback
    requires var m := MemoOf(LoadMemory(ContentOr(disk.memory, [])), CacheKeyOf(env, n));
             m.Some? ==> m.value.translated == settled.text
    ensures Choose(env, disk, n) == settled
  {
    hide LoadMemory, ExistingFlat, PreviousFallback, FindMemo, CacheKeyOf, Lookup;
  }

  // ---------- the second run ----------

  lemma {:induction false} NothingPending(env: Env, disk: Disk, flat: seq<Named>)
    requires forall j :: 0 <= j < |flat| ==> Choose(env, disk, flat[j]).Reuse?
    ensures PendingItems(env, disk, flat) == []
    decreases |flat|
  {
    hide Choose;
    if flat == [] {
    } else {
      NothingPending(env, disk, flat[..|flat| - 1]);
    }
  }

  /** Whatever the first run did and whatever mode and clock the second one has: the second run expects
      exactly the files that the first one left up to date. */
  lemma {:induction false} SecondRunExpectsTheSame(
      env: Env, disk: Disk, force: bool, source: seq<Entry>, sourceHash: string, translated: map<string, string>,
      now: string, at: string -> string,
      disk1: Disk, force1: bool, translated1: map<string, string>, now1: string, at1: string -> string)
    requires FirstRun(env, disk, source, translated)
    requires UpToDate(disk1, Expect(env, disk, force, source, sourceHash, translated, now, at))
    ensures PendingItems(env, disk1, SourceFlat(source)) == []
    ensures Expect(env, disk1, force1, source, sourceHash, translated1, now1, at1)
         == Expect(env, disk, force, source, sourceHash, translated, now, at)
  {
    var flat := SourceFlat(source);
    assert NamesApart(env, flat) && TotalPreorder(env.collate);
    hide *;
    Repeats(env, disk, force, source, sourceHash, translated, now, at, disk1, force1, translated1, flat);
    if env.allowTranslate {
      NoneFallsBack(env, disk, force, source, translated);
    }
    SameTexts(env, disk, force, translated, disk1, force1, translated1, flat);
    SourceDistinct(source);
    SameFallback(env, disk, force, translated, disk1, force1, translated1, flat);
    MemoryReloaded(env, disk, force, source, sourceHash, translated, now, at, disk1);
    SameFiles(env, disk, force, source, sourceHash, translated, now, at, disk1, force1, translated1, now1, at1);
  }

  /** Nothing is pending, and every key is settled as before. */
  lemma {:induction false} Repeats(
      env: Env, disk: Disk, force: bool, source: seq<Entry>, sourceHash: string, translated: map<string, string>,
      now: string, at: string -> string, disk1: Disk, force1: bool, translated1: map<string, string>, flat: seq<Named>)
    requires FirstRun(env, disk, source, translated) && flat == SourceFlat(source)
    requires UpToDate(disk1, Expect(env, disk, force, source, sourceHash, translated, now, at))
    ensures PendingItems(env, disk1, flat) == []
    ensures SettledAlike(env, disk, force, translated, disk1, force1, translated1, flat)
  {
    hide Choose, Settle, FirstRun, UpToDate, Expect, SourceFlat, PendingItems;
    forall j | 0 <= j < |flat|
      ensures Choose(env, disk1, flat[j]).Reuse?
      ensures Settle(env, disk1, force1, translated1, flat[j]) == Settle(env, disk, force, translated, flat[j])
    {
      Stable(env, disk, force, source, sourceHash, translated, now, at, disk1, j);
      ReuseSettles(env, disk1, force1, translated1, flat[j]);
    }
    NothingPending(env, disk1, flat);
  }

  lemma {:induction false} ReuseSettles(env: Env, disk: Disk, force: bool, t: map<string, string>, n: Named)
    requires Choose(env, disk, n).Reuse?
    ensures Settle(env, disk, force, t, n) == Choose(env, disk, n)
  {
    hide Choose;
  }

  lemma {:induction false} NoneFallsBack(env: Env, disk: Disk, force: bool, source: seq<Entry>, translated: map<string, string>)
    requires FirstRun(env, disk, source, translated) && env.allowTranslate
    ensures var flat := SourceFlat(source);
            forall j :: 0 <= j < |flat| ==> !Settle(env, disk, force, translated, flat[j]).fallback
  {
    hide Settle, SourceFlat, Completed, ValidEnv;
    var flat := SourceFlat(source);
    SourceDistinct(source);
    forall j | 0 <= j < |flat| ensures !Settle(env, disk, force, translated, flat[j]).fallback {
      NoFallbackWithProvider(env, disk, force, flat, translated, j);
    }
  }

  ghost predicate SettledAlike(env: Env, disk: Disk, force: bool, translated: map<string, string>,
                               disk1: Disk, force1: bool, translated1: map<string, string>, flat: seq<Named>)
  {
    forall j :: 0 <= j < |flat| ==>
      Settle(env, disk1, force1, translated1, flat[j]) == Settle(env, disk, force, translated, flat[j])
  }

  lemma {:induction false} SameTexts(env: Env, disk: Disk, force: bool, translated: map<string, string>,
                                     disk1: Disk, force1: bool, translated1: map<string, string>, flat: seq<Named>)
    requires SettledAlike(env, disk, force, translated, disk1, force1, translated1, flat)
    ensures Texts(env, disk1, force1, translated1, flat) == Texts(env, disk, force, translated, flat)
  {
    hide Settle;
  }

  lemma {:induction false} SameFallback(env: Env, disk: Disk, force: bool, translated: map<string, string>,
                                        disk1: Disk, force1: bool, translated1: map<string, string>, flat: seq<Named>)
    requires SettledAlike(env, disk, force, translated, disk1, force1, translated1, flat)
    requires DistinctNames(flat) && TotalPreorder(env.collate) && NamesApart(env, flat)
    requires env.allowTranslate ==> forall j :: 0 <= j < |flat| ==> !Settle(env, disk, force, translated, flat[j]).fallback
    ensures SortBy(env.collate, FallbackNames(env, disk1, force1, translated1, flat))
         == SortBy(env.collate, FallbackNames(env, disk, force, translated, flat))
  {
    hide Settle, FallbackNames, SortBy;
    var f, f1 := FallbackNames(env, disk, force, translated, flat), FallbackNames(env, disk1, force1, translated1, flat);
    FallbackMeans(env, disk, force, translated, flat);
    FallbackMeans(env, disk1, force1, translated1, flat);
    assert forall name :: name in f ==> MarkedBy(env, disk, force, translated, flat, name);
    SameMembersSameMultiset(f, f1);
    SortBySorted(env.collate, f);
    SortBySorted(env.collate, f1);
    MarksApart(env, disk, force, translated, flat, f);
    SameElements(f, SortBy(env.collate, f));
    hide SettledAlike, DistinctNames, NamesApart, MarkedBy;
    SortedUnique(env.collate, SortBy(env.collate, f), SortBy(env.collate, f1));
  }

  lemma {:induction false} MarksApart(env: Env, disk: Disk, force: bool, translated: map<string, string>, flat: seq<Named>, f: seq<string>)
    requires NamesApart(env, flat) && forall name :: name in f ==> MarkedBy(env, disk, force, translated, flat, name)
    requires env.allowTranslate ==> forall j :: 0 <= j < |flat| ==> !Settle(env, disk, force, translated, flat[j]).fallback
    ensures TellsApart(env.collate, f)
  {
    hide Settle;
    forall x, y | x in f && y in f && env.collate(x, y) && env.collate(y, x) ensures x == y {
      var i :| 0 <= i < |flat| && flat[i].name == x && Settle(env, disk, force, translated, flat[i]).fallback;
      var j :| 0 <= j < |flat| && flat[j].name == y && Settle(env, disk, force, translated, flat[j]).fallback;
      assert i < j || j < i || i == j;
    }
  }

  lemma {:induction false} SameFiles(
      env: Env, disk: Disk, force: bool, source: seq<Entry>, sourceHash: string, translated: map<string, string>,
      now: string, at: string -> string,
      disk1: Disk, force1: bool, translated1: map<string, string>, now1: string, at1: string -> string)
    requires UpToDate(disk1, Expect(env, disk, force, source, sourceHash, translated, now, at))
    requires var flat := SourceFlat(source);
             && PendingItems(env, disk1, flat) == []
             && Texts(env, disk1, force1, translated1, flat) == Texts(env, disk, force, translated, flat)
             && SortBy(env.collate, FallbackNames(env, disk1, force1, translated1, flat))
             == SortBy(env.collate, FallbackNames(env, disk, force, translated, flat))
             && RenderMemory(env, LoadMemory(ContentOr(disk1.memory, [])))
             == RenderMemory(env, MemoryAfter(env, disk, flat, translated, at))
    ensures Expect(env, disk1, force1, source, sourceHash, translated1, now1, at1)
         == Expect(env, disk, force, source, sourceHash, translated, now, at)
  {
    hide Texts, FallbackNames, SortBy, RenderMemory, LoadMemory, PendingItems, SourceFlat, SetAllNamed;
  }

  // ---------- what a run reports ----------

  /** Translated and fallback keys add up to the source keys; the latter are source keys, without repetition
      and in order; with a provider there are none. */
  lemma {:induction false} MetaCounts(env: Env, disk: Disk, force: bool, source: seq<Entry>, sourceHash: string,
                                      translated: map<string, string>, now: string, at: string -> string)
    requires TotalPreorder(env.collate)
    ensures var meta := Expect(env, disk, force, source, sourceHash, translated, now, at).meta;
            && meta.totalKeys == |SourceFlat(source)|
            && 0 <= meta.translatedKeys && meta.translatedKeys + |meta.fallbackKeys| == meta.totalKeys
            && Distinct(meta.fallbackKeys) && Sorted(env.collate, meta.fallbackKeys)
            && forall name :: name in meta.fallbackKeys <==> MarkedBy(env, disk, force, translated, SourceFlat(source), name)
  {
    hide Choose, Settle, SourceFlat, SortBy, FallbackNames;
    var flat := SourceFlat(source);
    var f := FallbackNames(env, disk, force, translated, flat);
    SourceDistinct(source);
    FallbackMeans(env, disk, force, translated, flat);
    SortBySorted(env.collate, f);
    SameElements(f, SortBy(env.collate, f));
    DistinctPermuted(f, SortBy(env.collate, f));
    FallbackFits(env, disk, force, translated, flat);
  }

  lemma {:induction false} FallbackFits(env: Env, disk: Disk, force: bool, translated: map<string, string>, flat: seq<Named>)
    ensures |FallbackNames(env, disk, force, translated, flat)| <= |flat|
  {
    hide Choose, Settle;
    FallbackFitsBoth(env, disk, force, translated, flat);
  }

  lemma {:induction false} FallbackFitsBoth(env: Env, disk: Disk, force: bool, translated: map<string, string>, flat: seq<Named>)
    ensures |MarkedNames(env, disk, force, translated, flat, false)| + |MarkedNames(env, disk, force, translated, flat, true)| <= |flat|
    decreases |flat|
  {
    hide Choose, Settle;
    if flat == [] {
    } else {
      FallbackFitsBoth(env, disk, force, translated, flat[..|flat| - 1]);
    }
  }

  /** A run with a provider that gets through leaves no fallback keys behind. */
  lemma {:induction false} ProviderLeavesNoFallback(env: Env, disk: Disk, force: bool, source: seq<Entry>, sourceHash: string,
                                                    translated: map<string, string>, now: string, at: string -> string)
    requires FirstRun(env, disk, source, translated) && env.allowTranslate
    ensures var meta := Expect(env, disk, force, source, sourceHash, translated, now, at).meta;
            meta.fallbackKeys == [] && meta.translatedKeys == meta.totalKeys
  {
    var flat := SourceFlat(source);
    MetaCounts(env, disk, force, source, sourceHash, translated, now, at);
    var meta := Expect(env, disk, force, source, sourceHash, translated, now, at).meta;
    SourceDistinct(source);
    hide Choose, Settle, SourceFlat, Expect;
    if meta.fallbackKeys != [] {
      var name := meta.fallbackKeys[0];
      assert name in meta.fallbackKeys;
      var j :| 0 <= j < |flat| && flat[j].name == name && Settle(env, disk, force, translated, flat[j]).fallback;
      NoFallbackWithProvider(env, disk, force, flat, translated, j);
      assert false;
    }
  }

  // ---------- checking without the provider ----------

  /** The same run where no provider is configured.  The names of provider and model are part of what the cache
      keys are made from, so these may be others. */
  ghost predicate Elsewhere(env: Env, env1: Env) {
    !env1.allowTranslate && env1.locale == env.locale && env1.hashText == env.hashText && env1.collate == env.collate
  }

  /** What the memory holds under the cache key of `n`, if anything, is the text in the locale file. */
  predicate MemoAgrees(env: Env, disk: Disk, n: Named) {
    var memory := LoadMemory(ContentOr(disk.memory, []));
    var k := FindMemo(memory, CacheKeyOf(env, n));
    k < |memory| ==> Lookup(ExistingFlat(disk), n.name) == Some(memory[k].translated)
  }

  /** A key that is reused, and has its text in the locale file. */
  ghost predicate AtRest(env: Env, disk: Disk, n: Named) {
    var c := Choose(env, disk, n);
    c.Reuse? && Lookup(ExistingFlat(disk), n.name) == Some(c.text)
  }

  lemma {:induction false} ChooseElsewhere(env: Env, disk: Disk, n: Named, env1: Env)
    requires Elsewhere(env, env1) && AtRest(env, disk, n)
    ensures var c := Choose(env1, disk, n);
            && c.Reuse? && c.fallback == Choose(env, disk, n).fallback
            && (c.text == Choose(env, disk, n).text <==> MemoAgrees(env1, disk, n))
    ensures MemoAgrees(env, disk, n)
  {
    hide FindMemo, LoadMemory, ExistingFlat, Lookup;
  }

  /** Files that a run left up to date pass a check made without a provider exactly if no memory entry under the
      cache keys in use there says otherwise than the locale file. */
  lemma {:induction false} CheckElsewhereIff(
      env: Env, disk: Disk, force: bool, source: seq<Entry>, sourceHash: string, translated: map<string, string>,
      now: string, at: string -> string,
      disk1: Disk, env1: Env, force1: bool, now1: string, at1: string -> string)
    requires FirstRun(env, disk, source, translated) && Elsewhere(env, env1)
    requires UpToDate(disk1, Expect(env, disk, force, source, sourceHash, translated, now, at))
    ensures var flat := SourceFlat(source);
            UpToDate(disk1, Expect(env1, disk1, force1, source, sourceHash, map[], now1, at1))
            <==> forall j :: 0 <= j < |flat| ==> MemoAgrees(env1, disk1, flat[j])
  {
    assert Rereadable(SourceFlat(source));
    hide *;
    var flat := SourceFlat(source);
    SecondRunExpectsTheSame(env, disk, force, source, sourceHash, translated, now, at, disk1, force1, map[], now1, at1);
    assert UpToDate(disk1, Expect(env, disk1, force1, source, sourceHash, map[], now1, at1));
    AllAtRest(env, disk, force, source, sourceHash, translated, now, at, disk1, flat);
    RestIsReuse(env, disk1, flat, env1);
    MarksElsewhere(env, disk1, force1, flat, env1);
    FilesElsewhere(env, disk1, force1, source, sourceHash, now1, at1, env1);
    TextsElsewhereIff(env, disk1, force1, source, flat, env1);
  }

  lemma {:induction false} AllAtRest(
      env: Env, disk: Disk, force: bool, source: seq<Entry>, sourceHash: string, translated: map<string, string>,
      now: string, at: string -> string, disk1: Disk, flat: seq<Named>)
    requires FirstRun(env, disk, source, translated) && flat == SourceFlat(source)
    requires UpToDate(disk1, Expect(env, disk, force, source, sourceHash, translated, now, at))
    ensures forall j :: 0 <= j < |flat| ==> AtRest(env, disk1, flat[j])
  {
    assert Rereadable(flat);
    hide Choose, Settle, FirstRun, UpToDate, Expect, SourceFlat, ExistingFlat, Lookup;
    forall j | 0 <= j < |flat| ensures AtRest(env, disk1, flat[j]) {
      Stable(env, disk, force, source, sourceHash, translated, now, at, disk1, j);
      LocaleReloaded(env, disk, force, source, sourceHash, translated, now, at, disk1, j);
    }
  }

  lemma {:induction false} RestIsReuse(env: Env, disk: Disk, flat: seq<Named>, env1: Env)
    requires Elsewhere(env, env1) && forall j :: 0 <= j < |flat| ==> AtRest(env, disk, flat[j])
    ensures PendingItems(env, disk, flat) == [] == PendingItems(env1, disk, flat)
  {
    hide Choose, Elsewhere, MemoAgrees;
    forall j | 0 <= j < |flat| ensures Choose(env1, disk, flat[j]).Reuse? {
      ChooseElsewhere(env, disk, flat[j], env1);
    }
    NothingPending(env, disk, flat);
    NothingPending(env1, disk, flat);
  }

  lemma {:induction false} MarkedElsewhere(env: Env, disk: Disk, force: bool, flat: seq<Named>, pending: bool,
                                           env1: Env)
    requires Elsewhere(env, env1) && forall j :: 0 <= j < |flat| ==> AtRest(env, disk, flat[j])
    ensures MarkedNames(env1, disk, force, map[], flat, pending)
         == MarkedNames(env, disk, force, map[], flat, pending)
    decreases |flat|
  {
    hide Choose, Elsewhere, MemoAgrees;
    if flat == [] {
    } else {
      MarkedElsewhere(env, disk, force, flat[..|flat| - 1], pending, env1);
      assert AtRest(env, disk, flat[|flat| - 1]);
      ChooseElsewhere(env, disk, flat[|flat| - 1], env1);
    }
  }

  lemma {:induction false} MarksElsewhere(env: Env, disk: Disk, force: bool, flat: seq<Named>, env1: Env)
    requires Elsewhere(env, env1) && forall j :: 0 <= j < |flat| ==> AtRest(env, disk, flat[j])
    ensures FallbackNames(env1, disk, force, map[], flat) == FallbackNames(env, disk, force, map[], flat)
  {
    hide MarkedNames, Elsewhere, AtRest;
    MarkedElsewhere(env, disk, force, flat, false, env1);
    MarkedElsewhere(env, disk, force, flat, true, env1);
  }

  /** Of all that is expected only the locale file can differ. */
  lemma {:induction false} FilesElsewhere(env: Env, disk: Disk, force: bool, source: seq<Entry>, sourceHash: string,
                                          now: string, at: string -> string, env1: Env)
    requires Elsewhere(env, env1) && UpToDate(disk, Expect(env, disk, force, source, sourceHash, map[], now, at))
    requires var flat := SourceFlat(source);
             && PendingItems(env, disk, flat) == [] == PendingItems(env1, disk, flat)
             && FallbackNames(env1, disk, force, map[], flat) == FallbackNames(env, disk, force, map[], flat)
    ensures var flat := SourceFlat(source);
            UpToDate(disk, Expect(env1, disk, force, source, sourceHash, map[], now, at)) <==>
            SetAllNamed([], Renamed(flat, Texts(env1, disk, force, map[], flat)))
            == SetAllNamed([], Renamed(flat, Texts(env, disk, force, map[], flat)))
  {
    hide Texts, FallbackNames, SortBy, LoadMemory, PendingItems, SourceFlat, SetAllNamed, Renamed;
  }

  lemma {:induction false} TextsElsewhereIff(env: Env, disk: Disk, force: bool, source: seq<Entry>, flat: seq<Named>,
                                             env1: Env)
    requires Rereadable(flat) && flat == SourceFlat(source)
    requires Elsewhere(env, env1) && forall j :: 0 <= j < |flat| ==> AtRest(env, disk, flat[j])
    ensures SetAllNamed([], Renamed(flat, Texts(env1, disk, force, map[], flat)))
            == SetAllNamed([], Renamed(flat, Texts(env, disk, force, map[], flat)))
            <==> forall j :: 0 <= j < |flat| ==> MemoAgrees(env1, disk, flat[j])
  {
    hide Choose, Elsewhere, MemoAgrees, SourceFlat, SetAllNamed, Renamed, AtRest;
    var a, b := Texts(env1, disk, force, map[], flat), Texts(env, disk, force, map[], flat);
    forall j | 0 <= j < |flat| ensures a[j] == b[j] <==> MemoAgrees(env1, disk, flat[j]) {
      RestIsText(env, disk, force, flat[j], env1);
    }
    RenamedInjective(flat, a, b);
  }

  lemma {:induction false} RestIsText(env: Env, disk: Disk, force: bool, n: Named, env1: Env)
    requires Elsewhere(env, env1) && AtRest(env, disk, n)
    ensures Settle(env1, disk, force, map[], n).text == Settle(env, disk, force, map[], n).text <==> MemoAgrees(env1, disk, n)
  {
    hide Choose, Elsewhere, MemoAgrees;
    ChooseElsewhere(env, disk, n, env1);
  }

  /** Objects rebuilt with different texts differ. */
  lemma {:induction false} RenamedInjective(flat: seq<Named>, a: seq<string>, b: seq<string>)
    requires Rereadable(flat) && |a| == |b| == |flat|
    ensures SetAllNamed([], Renamed(flat, a)) == SetAllNamed([], Renamed(flat, b)) <==> forall j :: 0 <= j < |a| ==> a[j] == b[j]
  {
    hide Lookup, PutAllNames, FlattenText, SetAllNamed, Rereadable, Renamed;
    if SetAllNamed([], Renamed(flat, a)) == SetAllNamed([], Renamed(flat, b)) {
      forall j | 0 <= j < |a| ensures a[j] == b[j] {
        RenamedIsReread(flat, a, j);
        RenamedIsReread(flat, b, j);
      }
    }
    if forall j :: 0 <= j < |a| ==> a[j] == b[j] {
      assert a == b;
    }
  }

  /** In particular under the same cache keys. */
  lemma {:induction false} SameKeysAgree(
      env: Env, disk: Disk, force: bool, source: seq<Entry>, sourceHash: string, translated: map<string, string>,
      now: string, at: string -> string, disk1: Disk, env1: Env)
    requires FirstRun(env, disk, source, translated)
    requires UpToDate(disk1, Expect(env, disk, force, source, sourceHash, translated, now, at))
    requires Elsewhere(env, env1) && forall n: Named :: CacheKeyOf(env1, n) == CacheKeyOf(env, n)
    ensures var flat := SourceFlat(source);
            forall j :: 0 <= j < |flat| ==> MemoAgrees(env1, disk1, flat[j])
  {
    hide Choose, Settle, FirstRun, UpToDate, Expect, SourceFlat, ExistingFlat, Lookup, MemoAgrees, AtRest, CacheKeyOf;
    var flat := SourceFlat(source);
    AllAtRest(env, disk, force, source, sourceHash, translated, now, at, disk1, flat);
    forall j | 0 <= j < |flat| ensures MemoAgrees(env1, disk1, flat[j]) {
      ChooseElsewhere(env, disk1, flat[j], env1);
      SameKeysSame(env, disk1, flat[j], env1);
    }
  }

  lemma {:induction false} SameKeysSame(env: Env, disk: Disk, n: Named, env1: Env)
    requires CacheKeyOf(env1, n) == CacheKeyOf(env, n)
    ensures MemoAgrees(env1, disk, n) <==> MemoAgrees(env, disk, n)
  {
    hide FindMemo, LoadMemory, ExistingFlat, Lookup, CacheKeyOf;
  }
}
