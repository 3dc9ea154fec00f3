/** Where a second run does find something to change. */
module SecondRuns {
  import opened Options
  import opened Sorting
  import opened Whitespace
  import opened TranslationTree
  import opened DottedKeys
  import opened TreeLookup
  import opened TranslationBatches
  import opened BatchTranslation
  import opened SyncRules
  import opened SyncFixpoint
  import opened LocaleSync
  import opened ProviderSettings

  const WRITING := Mode(false, false, true)
  const CHECKING := Mode(true, false, false)

  /** The outcome of a run, given the translations it obtains. */
  function Report(env: Env, disk: Disk, mode: Mode, source: seq<Entry>, sourceHash: string, now: string,
                  at: string -> string): SyncResult
  {
    var e := Expect(env, disk, mode.force, source, sourceHash, map[], now, at);
    Synced(!UpToDate(disk, e), |e.meta.fallbackKeys|, !UpToDate(disk, e) && mode.write && !mode.checkOnly)
  }

  function DiskAfter(env: Env, disk: Disk, mode: Mode, source: seq<Entry>, sourceHash: string, now: string,
                     at: string -> string): Disk
  {
    var e := Expect(env, disk, mode.force, source, sourceHash, map[], now, at);
    if !UpToDate(disk, e) && mode.write && !mode.checkOnly then Written(disk, e) else disk
  }

  lemma {:induction false} IsRun(env: Env, disk: Disk, mode: Mode, source: seq<Entry>, sourceHash: string, now: string,
                                 at: string -> string)
    requires env.allowTranslate ==> PendingItems(env, disk, SourceFlat(source)) == []
    ensures RunDone(env, disk, mode, source, sourceHash, map[], now, at,
                    Report(env, disk, mode, source, sourceHash, now, at), DiskAfter(env, disk, mode, source, sourceHash, now, at))
  {
    hide PendingItems, SourceFlat, Expect, UpToDate, Written;
  }

  // ---------- without the keys ----------

  /** A check made after any run, in the same environment but for the keys, passes if provider and model keep their
      names without them. */
  lemma {:induction false} CheckPassesIfNamesSurvive(
      s: Settings, locale: string, sha256: string -> string, collate: (string, string) -> bool,
      disk: Disk, mode: Mode, source: seq<Entry>, sourceHash: string, t: map<string, string>,
      now: string, at: string -> string, result: SyncResult, disk1: Disk,
      mode1: Mode, t1: map<string, string>, now1: string, at1: string -> string, result1: SyncResult, disk2: Disk)
    requires GoodHash(sha256) && TotalPreorder(collate)
    requires Rereadable(SourceFlat(source)) && NamesApart(EnvOf(s, locale, sha256, collate), SourceFlat(source))
    requires NamesSurvive(s) && mode.write && !mode.checkOnly
    requires RunDone(EnvOf(s, locale, sha256, collate), disk, mode, source, sourceHash, t, now, at, result, disk1)
    requires RunDone(EnvOf(WithoutKeys(s), locale, sha256, collate), disk1, mode1, source, sourceHash, t1, now1, at1, result1, disk2)
    ensures result1.Synced? && !result1.changed && disk2 == disk1
  {
    hide *;
    var env, env1 := EnvOf(s, locale, sha256, collate), EnvOf(WithoutKeys(s), locale, sha256, collate);
    EnvIsValid(s, locale, sha256, collate);
    WithoutKeysIsElsewhere(s, locale, sha256, collate);
    forall n: Named ensures CacheKeyOf(env1, n) == CacheKeyOf(env, n) {
      CacheKeysSurviveIff(s, locale, sha256, collate, n, n);
    }
    CheckWithoutProviderIff(env, disk, mode, source, sourceHash, t, now, at, result, disk1, env1,
                            mode1, t1, now1, at1, result1, disk2);
  }

  const ONE: Named := Named("a", "hello")
  const ONE_SOURCE: seq<Entry> := [Entry("a", Text("hello"))]

  /** An old translation made with the names in use without the keys. */
  function StaleMemo(env1: Env): Memo {
    Memo(CacheKeyOf(env1, ONE), DEFAULT_OPENAI_MODEL, DEFAULT_PROVIDER, "a", "hello", env1.hashText("hello"), "old", "then")
  }

  function StaleDisk(env1: Env): Disk {
    Disk(Present([Entry("a", Text("new"))], true), Missing, Missing, Present([StaleMemo(env1)], true))
  }

  lemma {:induction false} OneName(text: string)
    ensures PutAllNames([], FlattenText([Entry("a", Text(text))], "")) == [Named("a", text)]
  {
    var es, n := [Entry("a", Text(text))], Named("a", text);
    assert es[1..] == [] && FlattenTextEntry(es[0], "") == [n];
    assert FlattenText(es, "") == [n] + FlattenText(es[1..], "") == [n];
    PutAllOne([], n);
    assert PutName([], "a", text) == [n];
  }

  lemma {:induction false} OneIsRereadable()
    ensures SourceFlat(ONE_SOURCE) == [ONE] && Rereadable(SourceFlat(ONE_SOURCE))
  {
    OneName("hello");
    hide PutAllNames, FlattenText, Apart, Split;
    assert |SourceFlat(ONE_SOURCE)| == 1;
  }

  /** With the key set the existing text is reused: the stale entry has another cache key. */
  lemma {:induction false} NewIsReused(env: Env, env1: Env)
    requires CacheKeyOf(env1, ONE) != CacheKeyOf(env, ONE) && CacheKeyOf(env1, ONE) != ""
    ensures LoadMemory([StaleMemo(env1)]) == [StaleMemo(env1)]
    ensures Choose(env, StaleDisk(env1), ONE) == Reuse("new", false)
    ensures PendingItems(env, StaleDisk(env1), [ONE]) == []
  {
    hide CacheKeyOf, PutAllNames, FlattenText;
    var memo := StaleMemo(env1);
    assert Usable(memo) by {
      assert 'o' in memo.translated && !IsSpace('o');
    }
    LoadIsIdentity([memo]);
    FindMemoIs([memo], CacheKeyOf(env, ONE), 1);
    OneName("new");
    FindNameIs([Named("a", "new")], "a", 0);
    hide LoadMemory, FindMemo;
    var flat := [ONE];
    assert flat[..|flat| - 1] == [] && flat[|flat| - 1] == ONE;
  }

  /** Where the names do not survive, a check can fail right after a run: the memory still holds another text
      under the cache key that is then in use. */
  lemma {:induction false} CheckFailsWithoutKeys(
      s: Settings, locale: string, sha256: string -> string, collate: (string, string) -> bool,
      sourceHash: string, now: string, at: string -> string, now1: string, at1: string -> string)
    requires GoodHash(sha256) && TotalPreorder(collate) && !NamesSurvive(s)
    ensures var env, env1 := EnvOf(s, locale, sha256, collate), EnvOf(WithoutKeys(s), locale, sha256, collate);
            var disk := StaleDisk(env1);
            var disk1 := DiskAfter(env, disk, WRITING, ONE_SOURCE, sourceHash, now, at);
            var result, result1 := Report(env, disk, WRITING, ONE_SOURCE, sourceHash, now, at),
                                   Report(env1, disk1, CHECKING, ONE_SOURCE, sourceHash, now1, at1);
            && RunDone(env, disk, WRITING, ONE_SOURCE, sourceHash, map[], now, at, result, disk1)
            && RunDone(env1, disk1, CHECKING, ONE_SOURCE, sourceHash, map[], now1, at1, result1, disk1)
            && result1.changed
  {
    hide *;
    var env, env1 := EnvOf(s, locale, sha256, collate), EnvOf(WithoutKeys(s), locale, sha256, collate);
    EnvIsValid(s, locale, sha256, collate);
    WithoutKeysIsElsewhere(s, locale, sha256, collate);
    CacheKeysSurviveIff(s, locale, sha256, collate, ONE, ONE);
    StaleCheckFails(env, env1, sourceHash, now, at, now1, at1) by {
      KeyIsNotEmpty(WithoutKeys(s), locale, sha256, collate);
    }
  }

  lemma {:induction false} KeyIsNotEmpty(s: Settings, locale: string, sha256: string -> string, collate: (string, string) -> bool)
    requires GoodHash(sha256)
    ensures CacheKeyOf(EnvOf(s, locale, sha256, collate), ONE) != ""
  {
    hide CacheKeyOf, GoodHash;
    KeyIs(s, locale, sha256, collate, ONE);
    HashNotEmpty(sha256, CacheText(s, locale, ONE.name, sha256(NormalizeText(ONE.text))));
  }

  lemma {:induction false} StaleCheckFails(env: Env, env1: Env, sourceHash: string, now: string, at: string -> string,
                                           now1: string, at1: string -> string)
    requires ValidEnv(env) && Elsewhere(env, env1)
    requires CacheKeyOf(env1, ONE) != CacheKeyOf(env, ONE) && CacheKeyOf(env1, ONE) != ""
    ensures var disk := StaleDisk(env1);
            var disk1 := DiskAfter(env, disk, WRITING, ONE_SOURCE, sourceHash, now, at);
            var result, result1 := Report(env, disk, WRITING, ONE_SOURCE, sourceHash, now, at),
                                   Report(env1, disk1, CHECKING, ONE_SOURCE, sourceHash, now1, at1);
            && RunDone(env, disk, WRITING, ONE_SOURCE, sourceHash, map[], now, at, result, disk1)
            && RunDone(env1, disk1, CHECKING, ONE_SOURCE, sourceHash, map[], now1, at1, result1, disk1)
            && result1.changed
  {
    assert !env1.allowTranslate;
    hide *;
    var disk := StaleDisk(env1);
    var disk1 := DiskAfter(env, disk, WRITING, ONE_SOURCE, sourceHash, now, at);
    OneIsRereadable();
    NewIsReused(env, env1);
    IsRun(env, disk, WRITING, ONE_SOURCE, sourceHash, now, at);
    IsRun(env1, disk1, CHECKING, ONE_SOURCE, sourceHash, now1, at1);
    CheckWritesNothing(env1, disk1, sourceHash, now1, at1);
    StaleDisagrees(env, env1, sourceHash, now, at);
    CheckWithoutProviderIff(env, disk, WRITING, ONE_SOURCE, sourceHash, map[], now, at,
                            Report(env, disk, WRITING, ONE_SOURCE, sourceHash, now, at), disk1, env1,
                            CHECKING, map[], now1, at1, Report(env1, disk1, CHECKING, ONE_SOURCE, sourceHash, now1, at1), disk1);
  }

  lemma {:induction false} CheckWritesNothing(env: Env, disk: Disk, sourceHash: string, now: string, at: string -> string)
    ensures DiskAfter(env, disk, CHECKING, ONE_SOURCE, sourceHash, now, at) == disk
  {
  }

  /** After the run the stale entry is still in the memory, beside the other text in the locale file. */
  lemma {:induction false} StaleDisagrees(env: Env, env1: Env, sourceHash: string, now: string, at: string -> string)
    requires ValidEnv(env) && CacheKeyOf(env1, ONE) != CacheKeyOf(env, ONE) && CacheKeyOf(env1, ONE) != ""
    ensures !MemoAgrees(env1, DiskAfter(env, StaleDisk(env1), WRITING, ONE_SOURCE, sourceHash, now, at), ONE)
  {
    hide *;
    var disk := StaleDisk(env1);
    var e := Expect(env, disk, false, ONE_SOURCE, sourceHash, map[], now, at);
    OneIsRereadable();
    NewIsReused(env, env1);
    StaleIsKept(env, env1, sourceHash, now, at);
    StaleIsWritten(env, env1, sourceHash, now, at);
    NewIsSettled(env, disk);
    LocaleReloaded(env, disk, false, ONE_SOURCE, sourceHash, map[], now, at, Written(disk, e), 0);
    StaleIsFound(env1, Written(disk, e));
  }

  lemma {:induction false} StaleIsWritten(env: Env, env1: Env, sourceHash: string, now: string, at: string -> string)
    ensures var disk := StaleDisk(env1);
            var e := Expect(env, disk, false, ONE_SOURCE, sourceHash, map[], now, at);
            && UpToDate(Written(disk, e), e) && Written(disk, e).memory == Present(e.memory, true)
            && DiskAfter(env, disk, WRITING, ONE_SOURCE, sourceHash, now, at) == Written(disk, e)
  {
    hide Expect, StaleMemo;
  }

  lemma {:induction false} NewIsSettled(env: Env, disk: Disk)
    requires ValidEnv(env) && SourceFlat(ONE_SOURCE) == [ONE] && Rereadable(SourceFlat(ONE_SOURCE))
    requires Choose(env, disk, ONE) == Reuse("new", false) && PendingItems(env, disk, [ONE]) == []
    ensures FirstRun(env, disk, ONE_SOURCE, map[]) && Settle(env, disk, false, map[], ONE).text == "new"
  {
    hide Choose, PendingItems, SourceFlat, Rereadable, ValidEnv;
  }

  lemma {:induction false} StaleIsFound(env1: Env, disk: Disk)
    requires disk.memory == Present([StaleMemo(env1)], true) && LoadMemory([StaleMemo(env1)]) == [StaleMemo(env1)]
    requires Lookup(ExistingFlat(disk), ONE.name) == Some("new")
    ensures !MemoAgrees(env1, disk, ONE)
  {
    hide LoadMemory, ExistingFlat, Lookup, CacheKeyOf;
    FindMemoIs([StaleMemo(env1)], CacheKeyOf(env1, ONE), 0);
  }

  lemma {:induction false} StaleIsKept(env: Env, env1: Env, sourceHash: string, now: string, at: string -> string)
    requires LoadMemory([StaleMemo(env1)]) == [StaleMemo(env1)]
    requires SourceFlat(ONE_SOURCE) == [ONE] && PendingItems(env, StaleDisk(env1), [ONE]) == []
    ensures Expect(env, StaleDisk(env1), false, ONE_SOURCE, sourceHash, map[], now, at).memory == [StaleMemo(env1)]
  {
    hide LoadMemory, PendingItems, SourceFlat, Texts, FallbackNames, SetAllNamed, StaleMemo;
    var memory := [StaleMemo(env1)];
    SortSorted(MemoOrder(env.collate), memory);
  }

  // ---------- names that cannot be read back ----------

  function EntriesOf(flat: seq<Named>): seq<Entry> {
    if flat == [] then [] else [Entry(flat[0].name, Text(flat[0].text))] + EntriesOf(flat[1..])
  }

  lemma {:induction false} FlattenEntries(flat: seq<Named>)
    ensures FlattenText(EntriesOf(flat), "") == flat
  {
    if flat == [] {
    } else {
      FlattenEntries(flat[1..]);
      var es := EntriesOf(flat);
      assert es[1..] == EntriesOf(flat[1..]) && FlattenTextEntry(es[0], "") == [flat[0]];
      assert flat == [flat[0]] + flat[1..];
    }
  }

  /** A locale in which every name of the source has a translation, under one key each. */
  function FullyTranslated(flat: seq<Named>): Disk {
    Disk(Present(EntriesOf(flat), true), Missing, Missing, Missing)
  }

  lemma {:induction false} ExistingNames(flat: seq<Named>)
    requires DistinctNames(flat)
    ensures ExistingFlat(FullyTranslated(flat)) == flat
  {
    FlattenEntries(flat);
    hide PutAllNames, FlattenText, EntriesOf;
    assert [] + flat == flat;
    PutAllDistinct([], flat);
  }

  lemma {:induction false} FoundIn(flat: seq<Named>, j: nat)
    requires DistinctNames(flat) && j < |flat|
    ensures Lookup(flat, flat[j].name) == Some(flat[j].text)
  {
    hide FindName;
    FindNameIs(flat, flat[j].name, j);
  }

  /** At first every name is reused, and nothing is a fallback. */
  lemma {:induction false} AllReused(env: Env, flat: seq<Named>, j: nat)
    requires DistinctNames(flat) && j < |flat|
    ensures Choose(env, FullyTranslated(flat), flat[j]) == Reuse(flat[j].text, false)
    ensures Settle(env, FullyTranslated(flat), false, map[], flat[j]) == Reuse(flat[j].text, false)
  {
    ExistingNames(flat);
    FoundIn(flat, j);
    NoMemory(env, flat[j]);
    NothingElse(flat);
    hide ExistingFlat, Lookup, FullyTranslated, LoadMemory, FindMemo, CacheKeyOf, DistinctNames;
  }

  lemma {:induction false} NoMemory(env: Env, n: Named)
    ensures LoadMemory([]) == [] && FindMemo([], CacheKeyOf(env, n)) == 0
  {
  }

  /** The first run writes the object rebuilt from the names, without a memory. */
  lemma {:induction false} RebuiltIsWritten(env: Env, source: seq<Entry>, sourceHash: string, now: string, at: string -> string)
    ensures var flat := SourceFlat(source);
            var e := Expect(env, FullyTranslated(flat), false, source, sourceHash, map[], now, at);
            var disk1 := DiskAfter(env, FullyTranslated(flat), WRITING, source, sourceHash, now, at);
            && disk1.memory == Missing && disk1.meta == Present(e.meta, true)
            && disk1.locale == Present(SetAllNamed([], flat), true)
  {
    SourceDistinct(source);
    var flat := SourceFlat(source);
    var disk := FullyTranslated(flat);
    forall j | 0 <= j < |flat| ensures Settle(env, disk, false, map[], flat[j]).text == flat[j].text {
      AllReused(env, flat, j);
    }
    hide Settle, SourceFlat, SetAllNamed, NextMeta, FallbackNames, SortBy, FullyTranslated;
    assert Renamed(flat, Texts(env, disk, false, map[], flat)) == flat;
    NothingRemembered(env);
    assert disk.memory == Missing && disk.meta == Missing by {
      NothingElse(flat);
    }
  }

  lemma {:induction false} NothingElse(flat: seq<Named>)
    ensures FullyTranslated(flat).memory == Missing && FullyTranslated(flat).meta == Missing
  {
  }

  lemma {:induction false} NothingRemembered(env: Env)
    ensures forall items, at: string -> string :: RenderMemory(env, Remember(env, LoadMemory([]), items, map[], at)) == []
  {
    forall items, at: string -> string ensures Remember(env, [], items, map[], at) == [] {
      RememberNothing(env, [], items, at);
    }
    assert LoadMemory([]) == [];
  }

  /** A name that is not there is pending, with or without a provider. */
  lemma {:induction false} LostIsPending(env: Env, disk: Disk, n: Named)
    requires disk.memory == Missing && Lookup(ExistingFlat(disk), n.name) == None
    ensures Choose(env, disk, n) == Pending
  {
    hide ExistingFlat, Lookup;
    NoMemory(env, n);
  }

  /** Without one it falls back to its source text. */
  lemma {:induction false} LostFallsBack(env: Env, disk: Disk, force: bool, n: Named)
    requires disk.memory == Missing && Lookup(ExistingFlat(disk), n.name) == None
    ensures Settle(env, disk, force, map[], n) == Reuse(n.text, true)
  {
    hide ExistingFlat, Lookup;
    LostIsPending(env, disk, n);
  }

  lemma {:induction false} NothingPendingAtFirst(env: Env, flat: seq<Named>)
    requires DistinctNames(flat)
    ensures PendingItems(env, FullyTranslated(flat), flat) == []
  {
    hide Choose, FullyTranslated, DistinctNames;
    forall j | 0 <= j < |flat| ensures Choose(env, FullyTranslated(flat), flat[j]).Reuse? {
      AllReused(env, flat, j);
    }
    NothingPending(env, FullyTranslated(flat), flat);
  }

  lemma {:induction false} SomethingPending(env: Env, disk: Disk, flat: seq<Named>, j: nat)
    requires DistinctNames(flat) && j < |flat| && Choose(env, disk, flat[j]) == Pending
    ensures PendingItems(env, disk, flat) != []
  {
    hide Choose, PendingItems, IsPendingItem;
    PendingMeans(env, disk, flat);
    assert ItemOf(env, flat[j]) in PendingItems(env, disk, flat);
  }

  /** The state that a written run over a fully translated locale leaves. */
  function AfterFirst(env: Env, source: seq<Entry>, sourceHash: string, now: string, at: string -> string): Disk {
    DiskAfter(env, FullyTranslated(SourceFlat(source)), WRITING, source, sourceHash, now, at)
  }

  lemma {:induction false} AfterFirstIs(env: Env, source: seq<Entry>, sourceHash: string, now: string, at: string -> string)
    ensures AfterFirst(env, source, sourceHash, now, at)
         == DiskAfter(env, FullyTranslated(SourceFlat(source)), WRITING, source, sourceHash, now, at)
  {
    hide DiskAfter;
  }

  /** The condition on the names of the source is needed, for every source and with or without a provider: where
      they cannot all be read back, there are files, with a translation for every name, after a written run over
      which something is pending. */
  lemma {:induction false} UnreadableIsPending(env: Env, source: seq<Entry>, sourceHash: string, now: string, at: string -> string)
    requires TotalPreorder(env.collate) && !Rereadable(SourceFlat(source))
    ensures var disk := FullyTranslated(SourceFlat(source));
            var result := Report(env, disk, WRITING, source, sourceHash, now, at);
            && RunDone(env, disk, WRITING, source, sourceHash, map[], now, at, result, AfterFirst(env, source, sourceHash, now, at))
            && PendingItems(env, disk, SourceFlat(source)) == [] && result.fallbackCount == 0
            && PendingItems(env, AfterFirst(env, source, sourceHash, now, at), SourceFlat(source)) != []
  {
    hide *;
    var flat := SourceFlat(source);
    SourceDistinct(source);
    NothingPendingAtFirst(env, flat);
    IsRun(env, FullyTranslated(flat), WRITING, source, sourceHash, now, at);
    AfterFirstIs(env, source, sourceHash, now, at);
    NoFallbackAtFirst(env, source, sourceHash, now, at);
    Reported(env, FullyTranslated(flat), source, sourceHash, now, at);
    var j := LostAfterFirst(env, source, sourceHash, now, at);
    LostIsPending(env, AfterFirst(env, source, sourceHash, now, at), flat[j]);
    SomethingPending(env, AfterFirst(env, source, sourceHash, now, at), flat, j);
  }

  /** After the first run some name is missing from the locale file, and there is no memory. */
  lemma {:induction false} LostAfterFirst(env: Env, source: seq<Entry>, sourceHash: string, now: string, at: string -> string)
      returns (j: nat)
    requires !Rereadable(SourceFlat(source))
    ensures var disk1 := AfterFirst(env, source, sourceHash, now, at);
            && j < |SourceFlat(source)| && disk1.memory == Missing
            && Lookup(ExistingFlat(disk1), SourceFlat(source)[j].name) == None
  {
    hide Expect, DiskAfter, SourceFlat, Rereadable, ExistingFlat, Lookup;
    SourceDistinct(source);
    j := OneIsLost(SourceFlat(source));
    RebuiltIsWritten(env, source, sourceHash, now, at);
    ExistingIsReread(AfterFirst(env, source, sourceHash, now, at), SetAllNamed([], SourceFlat(source)));
  }

  /** And so, whatever its mode, its clock and the translations it obtains, every second run that gets through
      has something to change; without a provider it falls back for some name. */
  lemma {:induction false} UnreadableIsNotIdle(
      env: Env, source: seq<Entry>, sourceHash: string, now: string, at: string -> string,
      mode1: Mode, t1: map<string, string>, now1: string, at1: string -> string, result1: SyncResult, disk2: Disk)
    requires TotalPreorder(env.collate) && !Rereadable(SourceFlat(source))
    requires RunDone(env, AfterFirst(env, source, sourceHash, now, at), mode1, source, sourceHash, t1, now1, at1, result1, disk2)
    ensures result1.Synced? && result1.changed
    ensures env.allowTranslate ==> PendingItems(env, AfterFirst(env, source, sourceHash, now, at), SourceFlat(source)) != []
    ensures !env.allowTranslate ==> result1.fallbackCount > 0
  {
    hide Expect, UpToDate, Written, Rereadable, SourceFlat, TotalPreorder, PendingItems, ExistingFlat, AfterFirst, Complete, Lookup;
    var flat, disk1 := SourceFlat(source), AfterFirst(env, source, sourceHash, now, at);
    UnreadableIsPending(env, source, sourceHash, now, at);
    var j := LostAfterFirst(env, source, sourceHash, now, at);
    if env.allowTranslate {
      PendingIsRemembered(env, disk1, mode1.force, source, sourceHash, t1, now1, at1);
    } else {
      LostFallsBack(env, disk1, mode1.force, flat[j]);
      MetaDiffers(env, source, mode1.force, sourceHash, now, at, now1, at1, j);
    }
  }

  /** What was pending and is translated enters the memory, of which there was none. */
  lemma {:induction false} PendingIsRemembered(env: Env, disk: Disk, force: bool, source: seq<Entry>, sourceHash: string,
                                               t: map<string, string>, now: string, at: string -> string)
    requires disk.memory == Missing && PendingItems(env, disk, SourceFlat(source)) != []
    requires Complete(PendingItems(env, disk, SourceFlat(source)), t)
    ensures !UpToDate(disk, Expect(env, disk, force, source, sourceHash, t, now, at))
  {
    var items := PendingItems(env, disk, SourceFlat(source));
    LastIsRemembered(env, LoadMemory([]), items, t, at);
    SameElements(Remember(env, LoadMemory([]), items, t, at), RenderMemory(env, Remember(env, LoadMemory([]), items, t, at)));
    hide PendingItems, SourceFlat, Remember, RenderMemory, LoadMemory, Texts, FallbackNames, SetAllNamed, NextMeta, SortBy;
  }

  lemma {:induction false} LastIsRemembered(env: Env, memory: seq<Memo>, items: seq<Item>, t: map<string, string>, at: string -> string)
    requires items != [] && Complete(items, t)
    ensures Remember(env, memory, items, t, at) != []
  {
    hide FindMemo, IsBlank;
    NotBlank(t[items[|items| - 1].key]);
  }

  lemma {:induction false} Reported(env: Env, disk: Disk, source: seq<Entry>, sourceHash: string, now: string, at: string -> string)
    ensures var e, r := Expect(env, disk, false, source, sourceHash, map[], now, at), Report(env, disk, WRITING, source, sourceHash, now, at);
            r.Synced? && r.changed == !UpToDate(disk, e) && r.fallbackCount == |e.meta.fallbackKeys|
  {
    hide Expect, UpToDate;
  }

  lemma {:induction false} ExistingIsReread(disk: Disk, es: seq<Entry>)
    requires disk.locale == Present(es, true)
    ensures ExistingFlat(disk) == Reread(es)
  {
  }

  lemma {:induction false} OneIsMarked(env: Env, disk: Disk, force: bool, flat: seq<Named>, j: nat)
    requires j < |flat| && Settle(env, disk, force, map[], flat[j]).fallback
    ensures MarkedBy(env, disk, force, map[], flat, flat[j].name)
  {
    hide Settle;
  }

  lemma {:induction false} NoneIsMarked(env: Env, flat: seq<Named>)
    requires DistinctNames(flat)
    ensures forall name :: !MarkedBy(env, FullyTranslated(flat), false, map[], flat, name)
  {
    hide Settle, FullyTranslated, DistinctNames;
    forall j | 0 <= j < |flat| ensures !Settle(env, FullyTranslated(flat), false, map[], flat[j]).fallback {
      AllReused(env, flat, j);
    }
  }

  lemma {:induction false} HasMember(names: seq<string>)
    ensures names != [] ==> exists name :: name in names
  {
    if names != [] {
      assert names[0] in names;
    }
  }

  lemma {:induction false} NoFallbackAtFirst(env: Env, source: seq<Entry>, sourceHash: string, now: string, at: string -> string)
    requires TotalPreorder(env.collate)
    ensures Expect(env, FullyTranslated(SourceFlat(source)), false, source, sourceHash, map[], now, at).meta.fallbackKeys == []
  {
    hide *;
    var flat := SourceFlat(source);
    MetaCounts(env, FullyTranslated(flat), false, source, sourceHash, map[], now, at);
    SourceDistinct(source);
    NoneIsMarked(env, flat);
    HasMember(Expect(env, FullyTranslated(flat), false, source, sourceHash, map[], now, at).meta.fallbackKeys);
  }

  lemma {:induction false} OtherFallback(disk1: Disk, e: Expected, e1: Expected, name: string)
    requires disk1.meta == Present(e.meta, true) && name in e1.meta.fallbackKeys && e.meta.fallbackKeys == []
    ensures !UpToDate(disk1, e1) && |e1.meta.fallbackKeys| > 0
  {
  }

  lemma {:induction false} MetaDiffers(env: Env, source: seq<Entry>, force: bool, sourceHash: string,
                                       now: string, at: string -> string, now1: string, at1: string -> string, j: nat)
    requires TotalPreorder(env.collate) && j < |SourceFlat(source)|
    requires Settle(env, AfterFirst(env, source, sourceHash, now, at), force, map[], SourceFlat(source)[j]).fallback
    ensures var disk1 := AfterFirst(env, source, sourceHash, now, at);
            var e1 := Expect(env, disk1, force, source, sourceHash, map[], now1, at1);
            !UpToDate(disk1, e1) && |e1.meta.fallbackKeys| > 0
  {
    var flat, disk1 := SourceFlat(source), AfterFirst(env, source, sourceHash, now, at);
    hide *;
    RebuiltIsWritten(env, source, sourceHash, now, at);
    AfterFirstIs(env, source, sourceHash, now, at);
    var e := Expect(env, FullyTranslated(flat), false, source, sourceHash, map[], now, at);
    var e1 := Expect(env, disk1, force, source, sourceHash, map[], now1, at1);
    NoFallbackAtFirst(env, source, sourceHash, now, at);
    MetaCounts(env, disk1, force, source, sourceHash, map[], now1, at1);
    OneIsMarked(env, disk1, force, flat, j);
    OtherFallback(disk1, e, e1, flat[j].name);
  }

  // ---------- names that the collation does not tell apart ----------

  lemma {:induction false} PickNone(env: Env, disk: Disk, t: map<string, string>, flat: seq<Named>, pending: bool)
    requires forall k :: 0 <= k < |flat| ==> !Marks(env, disk, false, t, flat[k], pending)
    ensures MarkedNames(env, disk, false, t, flat, pending) == []
    decreases |flat|
  {
    hide Choose, Settle;
    if flat == [] {
    } else {
      PickNone(env, disk, t, flat[..|flat| - 1], pending);
      assert !Marks(env, disk, false, t, flat[|flat| - 1], pending);
    }
  }

  lemma {:induction false} PickOne(env: Env, disk: Disk, t: map<string, string>, flat: seq<Named>, pending: bool, i: nat)
    requires i < |flat| && forall k :: 0 <= k < |flat| ==> (Marks(env, disk, false, t, flat[k], pending) <==> k == i)
    ensures MarkedNames(env, disk, false, t, flat, pending) == [flat[i].name]
    decreases |flat|
  {
    hide Choose, Settle;
    var init := flat[..|flat| - 1];
    assert Marks(env, disk, false, t, flat[|flat| - 1], pending) <==> i == |flat| - 1;
    if i == |flat| - 1 {
      PickNone(env, disk, t, init, pending);
    } else {
      PickOne(env, disk, t, init, pending, i);
    }
  }

  lemma {:induction false} PickTwo(env: Env, disk: Disk, t: map<string, string>, flat: seq<Named>, pending: bool, i: nat, j: nat)
    requires i < j < |flat| && forall k :: 0 <= k < |flat| ==> (Marks(env, disk, false, t, flat[k], pending) <==> k == i || k == j)
    ensures MarkedNames(env, disk, false, t, flat, pending) == [flat[i].name, flat[j].name]
    decreases |flat|
  {
    hide Choose, Settle;
    var init := flat[..|flat| - 1];
    assert Marks(env, disk, false, t, flat[|flat| - 1], pending) <==> j == |flat| - 1;
    if j == |flat| - 1 {
      PickOne(env, disk, t, init, pending, i);
    } else {
      PickTwo(env, disk, t, init, pending, i, j);
    }
  }

  /** Sorting leaves two names that are tied as they are. */
  lemma {:induction false} SortTied(le: (string, string) -> bool, a: string, b: string)
    requires le(a, b)
    ensures SortBy(le, [a, b]) == [a, b]
  {
    assert [a, b][1..] == [b] && [b][1..] == [];
    assert SortBy(le, [b]) == Insert(le, b, []) == [b];
    assert SortBy(le, [a, b]) == Insert(le, a, [b]);
  }

  /** Every name but number `i` has its text already, and number `j` is known to be a fallback. */
  function Tied(flat: seq<Named>, i: nat, j: nat): Disk
    requires i < |flat| && j < |flat|
  {
    Disk(Present(EntriesOf(flat[..i] + flat[i + 1..]), true),
         Present(Meta([flat[j].name], "", "", "", "", "", 0, 0, WORKFLOW), true), Missing, Missing)
  }

  lemma {:induction false} WithoutOne(flat: seq<Named>, i: nat, k: nat)
    requires DistinctNames(flat) && i < |flat| && k < |flat|
    ensures var rest := flat[..i] + flat[i + 1..];
            DistinctNames(rest) && Lookup(rest, flat[k].name) == if k == i then None else Some(flat[k].text)
  {
    hide FindName;
    var rest := flat[..i] + flat[i + 1..];
    forall m | 0 <= m < |rest| ensures rest[m] == flat[if m < i then m else m + 1] {
    }
    if k == i {
      FindNameIs(rest, flat[k].name, |rest|);
    } else {
      FindNameIs(rest, flat[k].name, if k < i then k else k - 1);
    }
  }

  lemma {:induction false} TiedExisting(flat: seq<Named>, i: nat, j: nat, k: nat)
    requires DistinctNames(flat) && i < |flat| && j < |flat| && k < |flat|
    ensures Lookup(ExistingFlat(Tied(flat, i, j)), flat[k].name) == if k == i then None else Some(flat[k].text)
  {
    var rest := flat[..i] + flat[i + 1..];
    FlattenEntries(rest);
    WithoutOne(flat, i, k);
    hide PutAllNames, FlattenText, EntriesOf, Lookup;
    assert [] + rest == rest;
    PutAllDistinct([], rest);
  }

  lemma {:induction false} TiedFiles(flat: seq<Named>, i: nat, j: nat)
    requires i < |flat| && j < |flat|
    ensures Tied(flat, i, j).memory == Missing && PreviousFallback(Tied(flat, i, j)) == [flat[j].name]
    ensures Tied(flat, i, j).glossary == Missing
  {
    hide EntriesOf;
  }

  /** In the first run the later name is reused as a fallback by the first loop, the earlier one falls back in the
      last loop, and everything else is reused. */
  lemma {:induction false} FirstSettles(env: Env, flat: seq<Named>, i: nat, j: nat, k: nat)
    requires !env.allowTranslate && DistinctNames(flat) && i < j < |flat| && k < |flat|
    ensures var disk := Tied(flat, i, j);
            && Settle(env, disk, false, map[], flat[k]) == Reuse(flat[k].text, k == i || k == j)
            && (Choose(env, disk, flat[k]).Pending? <==> k == i)
  {
    TiedExisting(flat, i, j, k);
    TiedFiles(flat, i, j);
    NoMemory(env, flat[k]);
    assert flat[k].name == flat[j].name <==> k == j;
    hide ExistingFlat, Lookup, Tied, PreviousFallback, LoadMemory, FindMemo, CacheKeyOf, DistinctNames;
  }

  lemma {:induction false} FirstMark(env: Env, flat: seq<Named>, i: nat, j: nat, k: nat)
    requires !env.allowTranslate && DistinctNames(flat) && i < j < |flat| && k < |flat|
    ensures Marks(env, Tied(flat, i, j), false, map[], flat[k], false) <==> k == j
    ensures Marks(env, Tied(flat, i, j), false, map[], flat[k], true) <==> k == i
  {
    FirstSettles(env, flat, i, j, k);
    hide Choose, Settle, Tied, DistinctNames;
  }

  lemma {:induction false} FirstMarks(env: Env, flat: seq<Named>, i: nat, j: nat)
    requires !env.allowTranslate && DistinctNames(flat) && i < j < |flat|
    ensures FallbackNames(env, Tied(flat, i, j), false, map[], flat) == [flat[j].name, flat[i].name]
  {
    hide Marks, MarkedNames, Tied, DistinctNames;
    forall k | 0 <= k < |flat|
      ensures Marks(env, Tied(flat, i, j), false, map[], flat[k], false) <==> k == j
      ensures Marks(env, Tied(flat, i, j), false, map[], flat[k], true) <==> k == i
    {
      FirstMark(env, flat, i, j, k);
    }
    PickOne(env, Tied(flat, i, j), map[], flat, false, j);
    PickOne(env, Tied(flat, i, j), map[], flat, true, i);
  }

  lemma {:induction false} FirstTexts(env: Env, flat: seq<Named>, i: nat, j: nat)
    requires !env.allowTranslate && DistinctNames(flat) && i < j < |flat|
    ensures Renamed(flat, Texts(env, Tied(flat, i, j), false, map[], flat)) == flat
  {
    hide Settle, Tied, DistinctNames;
    forall k | 0 <= k < |flat| ensures Settle(env, Tied(flat, i, j), false, map[], flat[k]).text == flat[k].text {
      FirstSettles(env, flat, i, j, k);
    }
  }

  lemma {:induction false} MetaLists(env: Env, disk: Disk, sourceHash: string, total: nat, fallback: seq<string>, now: string)
    ensures NextMeta(env, disk, sourceHash, total, fallback, now).fallbackKeys == fallback
  {
  }

  lemma {:induction false} FirstExpects(env: Env, source: seq<Entry>, sourceHash: string, now: string, at: string -> string, i: nat, j: nat)
    requires !env.allowTranslate && i < j < |SourceFlat(source)|
    requires env.collate(SourceFlat(source)[j].name, SourceFlat(source)[i].name)
    ensures var flat := SourceFlat(source);
            var e := Expect(env, Tied(flat, i, j), false, source, sourceHash, map[], now, at);
            && e.memory == [] && e.meta.fallbackKeys == [flat[j].name, flat[i].name] && e.locale == SetAllNamed([], flat)
  {
    var flat := SourceFlat(source);
    SourceDistinct(source);
    hide Settle, SourceFlat, SetAllNamed, FallbackNames, SortBy, Tied, Texts, Renamed, DistinctNames, NextMeta, RenderMemory,
      Remember, LoadMemory, PendingItems;
    TiedFiles(flat, i, j);
    FirstMarks(env, flat, i, j);
    FirstTexts(env, flat, i, j);
    SortTied(env.collate, flat[j].name, flat[i].name);
    MetaLists(env, Tied(flat, i, j), sourceHash, |flat|, [flat[j].name, flat[i].name], now);
    NothingRemembered(env);
  }

  lemma {:induction false} WrittenFirst(env: Env, disk: Disk, source: seq<Entry>, sourceHash: string, now: string, at: string -> string)
    requires disk.glossary == Missing && disk.memory == Missing
    ensures var e := Expect(env, disk, false, source, sourceHash, map[], now, at);
            var disk1 := DiskAfter(env, disk, WRITING, source, sourceHash, now, at);
            && disk1.locale == Present(e.locale, true) && disk1.meta == Present(e.meta, true)
            && (e.memory == [] ==> disk1.memory == Missing) && PreviousFallback(disk1) == e.meta.fallbackKeys
  {
    hide Expect;
  }

  /** The first run writes every text, and the two names with the later one first. */
  lemma {:induction false} FirstWrites(env: Env, source: seq<Entry>, sourceHash: string, now: string, at: string -> string, i: nat, j: nat)
    requires !env.allowTranslate && i < j < |SourceFlat(source)|
    requires env.collate(SourceFlat(source)[j].name, SourceFlat(source)[i].name)
    ensures var flat := SourceFlat(source);
            var disk1 := DiskAfter(env, Tied(flat, i, j), WRITING, source, sourceHash, now, at);
            && disk1.memory == Missing && PreviousFallback(disk1) == [flat[j].name, flat[i].name]
            && disk1.locale == Present(SetAllNamed([], flat), true) && disk1.meta.Present?
  {
    hide *;
    FirstExpects(env, source, sourceHash, now, at, i, j);
    TiedFiles(SourceFlat(source), i, j);
    WrittenFirst(env, Tied(SourceFlat(source), i, j), source, sourceHash, now, at);
  }

  /** In the second run everything is reused, and the two names are met in the order of the source. */
  lemma {:induction false} SecondMarks(env: Env, disk1: Disk, flat: seq<Named>, i: nat, j: nat)
    requires !env.allowTranslate && DistinctNames(flat) && Rereadable(flat) && i < j < |flat|
    requires disk1.memory == Missing && PreviousFallback(disk1) == [flat[j].name, flat[i].name]
    requires disk1.locale == Present(SetAllNamed([], flat), true)
    ensures FallbackNames(env, disk1, false, map[], flat) == [flat[i].name, flat[j].name]
  {
    ExistingIsReread(disk1, SetAllNamed([], flat));
    forall k | 0 <= k < |flat|
      ensures Marks(env, disk1, false, map[], flat[k], false) <==> k == i || k == j
      ensures !Marks(env, disk1, false, map[], flat[k], true)
    {
      RebuiltIsReread(flat, k);
      SecondReuses(env, disk1, flat, i, j, k);
    }
    hide Marks, Settle, DistinctNames, Rereadable, SetAllNamed;
    PickTwo(env, disk1, map[], flat, false, i, j);
    PickNone(env, disk1, map[], flat, true);
  }

  lemma {:induction false} SecondReuses(env: Env, disk1: Disk, flat: seq<Named>, i: nat, j: nat, k: nat)
    requires !env.allowTranslate && DistinctNames(flat) && i < j < |flat| && k < |flat|
    requires disk1.memory == Missing && PreviousFallback(disk1) == [flat[j].name, flat[i].name]
    requires Lookup(ExistingFlat(disk1), flat[k].name) == Some(flat[k].text)
    ensures Choose(env, disk1, flat[k]) == Reuse(flat[k].text, k == i || k == j)
  {
    NoMemory(env, flat[k]);
    assert (flat[k].name == flat[j].name <==> k == j) && (flat[k].name == flat[i].name <==> k == i);
    hide ExistingFlat, Lookup, PreviousFallback, LoadMemory, FindMemo, CacheKeyOf, DistinctNames;
  }

  /** Without a provider the condition on the collation is needed too: where it does not tell two names apart, there
      are files after a written run over which the next run lists them the other way round. */
  lemma {:induction false} TiedNamesAreNotIdle(env: Env, source: seq<Entry>, sourceHash: string,
                                               now: string, at: string -> string, now1: string, at1: string -> string, i: nat, j: nat)
    requires Rereadable(SourceFlat(source)) && !env.allowTranslate && i < j < |SourceFlat(source)|
    requires env.collate(SourceFlat(source)[i].name, SourceFlat(source)[j].name)
    requires env.collate(SourceFlat(source)[j].name, SourceFlat(source)[i].name)
    ensures var disk := Tied(SourceFlat(source), i, j);
            var disk1 := DiskAfter(env, disk, WRITING, source, sourceHash, now, at);
            var result, result1 := Report(env, disk, WRITING, source, sourceHash, now, at),
                                   Report(env, disk1, WRITING, source, sourceHash, now1, at1);
            && RunDone(env, disk, WRITING, source, sourceHash, map[], now, at, result, disk1)
            && RunDone(env, disk1, WRITING, source, sourceHash, map[], now1, at1, result1,
                       DiskAfter(env, disk1, WRITING, source, sourceHash, now1, at1))
            && result1.changed
  {
    hide *;
    var flat := SourceFlat(source);
    var disk1 := DiskAfter(env, Tied(flat, i, j), WRITING, source, sourceHash, now, at);
    IsRun(env, Tied(flat, i, j), WRITING, source, sourceHash, now, at);
    IsRun(env, disk1, WRITING, source, sourceHash, now1, at1);
    SourceDistinct(source);
    FirstWrites(env, source, sourceHash, now, at, i, j);
    SecondMarks(env, disk1, flat, i, j);
    SortTied(env.collate, flat[i].name, flat[j].name);
    TwoNamesDiffer(flat, i, j);
    OrderDiffers(env, disk1, source, sourceHash, now1, at1, flat[i].name, flat[j].name);
    Reported(env, disk1, source, sourceHash, now1, at1);
  }

  lemma {:induction false} TwoNamesDiffer(flat: seq<Named>, i: nat, j: nat)
    requires DistinctNames(flat) && i < j < |flat|
    ensures flat[i].name != flat[j].name
  {
  }

  lemma {:induction false} OrderDiffers(env: Env, disk1: Disk, source: seq<Entry>, sourceHash: string,
                                        now1: string, at1: string -> string, a: string, b: string)
    requires a != b && disk1.meta.Present? && PreviousFallback(disk1) == [b, a]
    requires SortBy(env.collate, FallbackNames(env, disk1, false, map[], SourceFlat(source))) == [a, b]
    ensures !UpToDate(disk1, Expect(env, disk1, false, source, sourceHash, map[], now1, at1))
  {
    hide SourceFlat, FallbackNames, SortBy, SetAllNamed, Texts, Renamed, RenderMemory, Remember, PendingItems, LoadMemory;
    assert [a, b][0] != [b, a][0];
  }
}
