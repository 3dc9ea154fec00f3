/** What stands in the files of a locale after a run that may write, item by item. */
module WrittenFiles {
  import opened Options
  import opened Sorting
  import opened TranslationTree
  import opened DottedKeys
  import opened TreeLookup
  import opened TranslationBatches
  import opened BatchTranslation
  import opened SyncRules
  import opened SyncFixpoint
  import opened LocaleSync

  // ---------- what was changed ----------

  lemma {:induction false} UpToDateIff(disk: Disk, e: Expected)
    ensures UpToDate(disk, e) <==> Written(disk, e) == disk
  {
  }

  /** A run reports a change exactly if what it writes differs from what it found; one that only checks, or may
      not write, leaves the files alone. */
  lemma {:induction false} ChangeIsReported(env: Env, disk: Disk, mode: Mode, source: seq<Entry>, sourceHash: string,
                                            t: map<string, string>, now: string, at: string -> string,
                                            result: SyncResult, disk1: Disk)
    requires RunDone(env, disk, mode, source, sourceHash, t, now, at, result, disk1)
    ensures mode.checkOnly || !mode.write ==> disk1 == disk && !result.wrote
    ensures mode.write && !mode.checkOnly ==>
              && (result.changed <==> disk1 != disk) && result.wrote == result.changed
              && disk1.locale.Present? && disk1.locale.canonical && disk1.meta.Present? && disk1.meta.canonical
              && disk1.glossary.Present? && disk1.glossary.canonical
              && (disk1.memory.Present? ==> disk1.memory.canonical)
              && result.fallbackCount == |disk1.meta.content.fallbackKeys|
  {
    var e := Expect(env, disk, mode.force, source, sourceHash, t, now, at);
    hide Expect, Completed, SourceFlat;
    UpToDateIff(disk, e);
  }

  /** A check reports a change exactly if the same run, let write, would change a file. */
  lemma {:induction false} CheckForetells(env: Env, disk: Disk, mode: Mode, source: seq<Entry>, sourceHash: string,
                                          t: map<string, string>, now: string, at: string -> string,
                                          result: SyncResult, disk1: Disk,
                                          mode2: Mode, result2: SyncResult, disk2: Disk)
    requires RunDone(env, disk, mode, source, sourceHash, t, now, at, result, disk1)
    requires RunDone(env, disk, mode2, source, sourceHash, t, now, at, result2, disk2)
    requires mode2.force == mode.force && mode2.write && !mode2.checkOnly
    ensures result.changed <==> disk2 != disk
    ensures result.fallbackCount == |disk2.meta.content.fallbackKeys|
  {
    hide Expect, Completed, SourceFlat, UpToDate, Written;
    ChangeIsReported(env, disk, mode2, source, sourceHash, t, now, at, result2, disk2);
  }

  // ---------- the metadata and the glossary ----------

  lemma {:induction false} MetaIsNext(env: Env, disk: Disk, mode: Mode, source: seq<Entry>, sourceHash: string,
                                      t: map<string, string>, now: string, at: string -> string,
                                      result: SyncResult, disk1: Disk)
    requires RunDone(env, disk, mode, source, sourceHash, t, now, at, result, disk1)
    requires mode.write && !mode.checkOnly
    ensures disk1.meta.Present?
    ensures exists fallback :: disk1.meta.content == NextMeta(env, disk, sourceHash, |SourceFlat(source)|, fallback, now)
  {
    hide FallbackNames, SortBy, SourceFlat, NextMeta, Texts, SetAllNamed, Remember, LoadMemory, RenderMemory, Completed, Renamed;
    var fallback := SortBy(env.collate, FallbackNames(env, disk, mode.force, t, SourceFlat(source)));
    assert disk1.meta.content == NextMeta(env, disk, sourceHash, |SourceFlat(source)|, fallback, now);
  }

  /** The metadata a run leaves.  The time stamp is the old one exactly if nothing else in it has changed. */
  lemma {:induction false} MetaLeft(env: Env, disk: Disk, mode: Mode, source: seq<Entry>, sourceHash: string,
                                    t: map<string, string>, now: string, at: string -> string,
                                    result: SyncResult, disk1: Disk)
    requires RunDone(env, disk, mode, source, sourceHash, t, now, at, result, disk1)
    requires mode.write && !mode.checkOnly
    ensures disk1.meta.Present?
    ensures var meta := disk1.meta.content;
            && meta.locale == env.locale && meta.sourceHash == sourceHash && meta.workflow == 1
            && meta.totalKeys == |SourceFlat(source)| && meta.translatedKeys == meta.totalKeys - |meta.fallbackKeys|
    ensures var meta := disk1.meta.content;
            if env.allowTranslate then meta.provider == env.provider && meta.model == env.model
            else if disk.meta.Present? then
              meta.provider == disk.meta.content.provider && meta.model == disk.meta.content.model
            else meta.provider == "" && meta.model == ""
    ensures var meta := disk1.meta.content;
            meta.generatedAt ==
              if && disk.meta.Present?
                 && disk.meta.content.locale == meta.locale && disk.meta.content.sourceHash == meta.sourceHash
                 && disk.meta.content.provider == meta.provider && disk.meta.content.model == meta.model
                 && disk.meta.content.totalKeys == meta.totalKeys
                 && disk.meta.content.translatedKeys == meta.translatedKeys
                 && disk.meta.content.workflow == meta.workflow
                 && disk.meta.content.fallbackKeys == meta.fallbackKeys
              then disk.meta.content.generatedAt else now
  {
    hide RunDone, SourceFlat;
    MetaIsNext(env, disk, mode, source, sourceHash, t, now, at, result, disk1);
  }

  /** The glossary is kept unless there is none, and then it is this one. */
  lemma {:induction false} GlossaryLeft(env: Env, disk: Disk, mode: Mode, source: seq<Entry>, sourceHash: string,
                                        t: map<string, string>, now: string, at: string -> string,
                                        result: SyncResult, disk1: Disk)
    requires RunDone(env, disk, mode, source, sourceHash, t, now, at, result, disk1)
    requires mode.write && !mode.checkOnly
    ensures disk1.glossary.Present?
    ensures if disk.glossary.Present? && disk.glossary.content != [] then
              disk1.glossary.content == disk.glossary.content
            else
              var names := ["OpenClaw", "Gateway", "Control UI", "Skills", "Tailscale", "WhatsApp", "Telegram",
                            "Discord", "Signal", "iMessage"];
              disk1.glossary.content == seq(|names|, i requires 0 <= i < |names| => GlossaryEntry(names[i], names[i]))
  {
    hide FallbackNames, SortBy, SourceFlat, NextMeta, Texts, SetAllNamed, Remember, LoadMemory, RenderMemory, Completed, Renamed;
  }

  // ---------- the memory as lines ----------

  /** This line decides what is cached under the key: it has a text, and no later one with this key has. */
  ghost predicate Decides(lines: seq<Memo>, i: nat, key: string, memo: Memo) {
    && i < |lines| && lines[i] == memo && memo.cacheKey == key && !IsBlank(memo.translated)
    && forall j :: i < j < |lines| && lines[j].cacheKey == key ==> IsBlank(lines[j].translated)
  }

  ghost predicate Cached(lines: seq<Memo>, key: string, memo: Memo) {
    key != "" && exists i: nat :: Decides(lines, i, key, memo)
  }

  ghost predicate NotCached(lines: seq<Memo>, key: string) {
    key == "" || forall i :: 0 <= i < |lines| && lines[i].cacheKey == key ==> IsBlank(lines[i].translated)
  }

  /** Loading keeps, for each key, the last line with a text. */
  lemma {:induction false} LoadMeans(lines: seq<Memo>, key: string)
    ensures match MemoOf(LoadMemory(lines), key)
            case Some(memo) => Cached(lines, key, memo)
            case None => NotCached(lines, key)
  {
    hide MemoOf, IsBlank;
    if lines == [] {
      NothingThere(key);
    } else {
      var init, last := lines[..|lines| - 1], lines[|lines| - 1];
      LoadMeans(init, key);
      if Usable(last) {
        PutMemoMeans(LoadMemory(init), last, key);
      }
      if Usable(last) && last.cacheKey == key {
        assert Decides(lines, |init|, key, last);
      } else {
        LineAdded(lines, key);
      }
    }
  }

  lemma {:induction false} NothingThere(key: string)
    ensures MemoOf(LoadMemory([]), key).None?
  {
  }

  lemma {:induction false} LineAdded(lines: seq<Memo>, key: string)
    requires lines != [] && !(Usable(lines[|lines| - 1]) && lines[|lines| - 1].cacheKey == key)
    ensures forall memo :: Cached(lines[..|lines| - 1], key, memo) ==> Cached(lines, key, memo)
    ensures NotCached(lines[..|lines| - 1], key) ==> NotCached(lines, key)
  {
    hide IsBlank;
    var init := lines[..|lines| - 1];
    forall memo | Cached(init, key, memo) ensures Cached(lines, key, memo) {
      var i: nat :| Decides(init, i, key, memo);
      assert Decides(lines, i, key, memo);
    }
  }

  /** At most one line decides. */
  lemma {:induction false} CachedOnce(lines: seq<Memo>, key: string)
    ensures forall a, b :: Cached(lines, key, a) && Cached(lines, key, b) ==> a == b
    ensures forall a :: Cached(lines, key, a) ==> !NotCached(lines, key)
  {
    hide IsBlank;
    forall a, b | Cached(lines, key, a) && Cached(lines, key, b) ensures a == b {
      var i: nat :| Decides(lines, i, key, a);
      var j: nat :| Decides(lines, j, key, b);
      assert i < j || j < i || i == j;
    }
    forall a | Cached(lines, key, a) ensures !NotCached(lines, key) {
      var i: nat :| Decides(lines, i, key, a);
    }
  }

  // ---------- the text of a name ----------

  function LinesOf(disk: Disk): seq<Memo> {
    if disk.memory.Present? then disk.memory.content else []
  }

  /** The name was a fallback in the metadata. */
  predicate Listed(disk: Disk, name: string) {
    disk.meta.Present? && name in disk.meta.content.fallbackKeys
  }

  function KeyOf(env: Env, n: Named): string {
    env.cacheKey(n.name, env.hashText(n.text))
  }

  /** Nothing is known about a name: no line of the memory and no text in the locale file. */
  ghost predicate Unknown(env: Env, disk: Disk, n: Named) {
    NotCached(LinesOf(disk), KeyOf(env, n)) && Lookup(ExistingFlat(disk), n.name).None?
  }

  /** The names to be translated: with a provider, fallbacks and unknown names. */
  ghost predicate Refreshed(env: Env, disk: Disk, n: Named) {
    env.allowTranslate && (Listed(disk, n.name) || Unknown(env, disk, n))
  }

  /** The text that a name is left with: the cached one, else the existing one, but with a provider a fallback
      or an unknown name has its translation, and without one an unknown name has the text of the source. */
  ghost predicate TextOf(env: Env, disk: Disk, t: map<string, string>, n: Named, text: string) {
    if Refreshed(env, disk, n) then n.name in t && !IsBlank(t[n.name]) && text == t[n.name]
    else if Unknown(env, disk, n) then text == n.text
    else if NotCached(LinesOf(disk), KeyOf(env, n)) then Lookup(ExistingFlat(disk), n.name) == Some(text)
    else exists memo :: Cached(LinesOf(disk), KeyOf(env, n), memo) && memo.translated == text
  }

  lemma {:induction false} ChoiceMeans(env: Env, disk: Disk, n: Named)
    ensures Choose(env, disk, n).Pending? <==>
            Refreshed(env, disk, n) || Unknown(env, disk, n)
    ensures Choose(env, disk, n).Reuse? ==>
              && Choose(env, disk, n).fallback == Listed(disk, n.name)
              && forall t :: TextOf(env, disk, t, n, Choose(env, disk, n).text)
  {
    var lines := LinesOf(disk);
    var memory := LoadMemory(lines);
    LoadMeans(lines, KeyOf(env, n));
    CachedOnce(lines, KeyOf(env, n));
    hide LoadMemory, FindMemo, ExistingFlat, Lookup, Cached, NotCached, IsBlank;
    assert MemoOf(memory, KeyOf(env, n)) ==
           var k := FindMemo(memory, KeyOf(env, n)); if k < |memory| then Some(memory[k]) else None;
  }

  lemma {:induction false} SettledMeans(env: Env, disk: Disk, force: bool, t: map<string, string>, flat: seq<Named>, j: nat)
    requires DistinctNames(flat) && Completed(env, disk, flat, t) && j < |flat|
    ensures var n := flat[j];
            var c := Settle(env, disk, force, t, n);
            && TextOf(env, disk, t, n, c.text)
            && (c.fallback <==> !env.allowTranslate && (Listed(disk, n.name) || Unknown(env, disk, n)))
  {
    hide Choose, Unknown, Cached, NotCached, IsBlank, ExistingFlat, Lookup, PendingItems;
    var n := flat[j];
    ChoiceMeans(env, disk, n);
    if Choose(env, disk, n).Pending? {
      if env.allowTranslate {
        PendingTranslated(env, disk, flat, t, j);
        NotBlank(t[n.name]);
      } else {
        UnknownHasNoText(env, disk, n);
      }
    }
  }

  lemma {:induction false} UnknownHasNoText(env: Env, disk: Disk, n: Named)
    requires Unknown(env, disk, n)
    ensures Lookup(ExistingFlat(disk), n.name).None?
  {
  }

  /** The text and the fallback mark of every name of the source, as the files left have them. */
  lemma {:induction false} TextsLeft(env: Env, disk: Disk, mode: Mode, source: seq<Entry>, sourceHash: string,
                                     t: map<string, string>, now: string, at: string -> string,
                                     result: SyncResult, disk1: Disk, j: nat)
    requires RunDone(env, disk, mode, source, sourceHash, t, now, at, result, disk1)
    requires mode.write && !mode.checkOnly && j < |SourceFlat(source)|
    ensures var n := SourceFlat(source)[j];
            Listed(disk1, n.name) <==> !env.allowTranslate && (Listed(disk, n.name) || Unknown(env, disk, n))
    ensures Rereadable(SourceFlat(source)) ==>
              var n := SourceFlat(source)[j];
              var text := Lookup(ExistingFlat(disk1), n.name);
              text.Some? && TextOf(env, disk, t, n, text.value)
  {
    var flat := SourceFlat(source);
    assert Completed(env, disk, flat, t);
    LeavesUpToDate(env, disk, mode, source, sourceHash, t, now, at, result, disk1);
    SourceDistinct(source);
    hide *;
    SettledMeans(env, disk, mode.force, t, flat, j);
    MetaReloaded(env, disk, mode.force, source, sourceHash, t, now, at, disk1, j);
    if Rereadable(flat) {
      LocaleReloaded(env, disk, mode.force, source, sourceHash, t, now, at, disk1, j);
    }
  }
  // ---------- the memory left ----------

  lemma {:induction false} MemoryIsRendered(env: Env, disk: Disk, mode: Mode, source: seq<Entry>, sourceHash: string,
                                            t: map<string, string>, now: string, at: string -> string,
                                            result: SyncResult, disk1: Disk)
    requires RunDone(env, disk, mode, source, sourceHash, t, now, at, result, disk1)
    requires mode.write && !mode.checkOnly && ValidEnv(env)
    ensures var m := MemoryAfter(env, disk, SourceFlat(source), t, at);
            && DistinctMemos(m) && DistinctMemos(LinesOf(disk1)) && (forall x :: x in LinesOf(disk1) <==> x in m)
            && Sorted(MemoOrder(env.collate), LinesOf(disk1))
  {
    var m := MemoryAfter(env, disk, SourceFlat(source), t, at);
    assert Completed(env, disk, SourceFlat(source), t);
    assert TotalPreorder(env.collate);
    LeavesUpToDate(env, disk, mode, source, sourceHash, t, now, at, result, disk1);
    MemoryLines(env, disk, mode.force, source, sourceHash, t, now, at, disk1);
    hide RunDone, Completed, SourceFlat, MemoryAfter, DistinctMemos, AllUsable, Sorted, SortBy, UpToDate, Expect, TotalPreorder;
    MemoryWritten(env, disk, source, t, at);
    RenderKeeps(env, m);
    MemoOrderTotal(env.collate);
    SortBySorted(MemoOrder(env.collate), m);
    SameElements(m, RenderMemory(env, m));
  }

  lemma {:induction false} MemberIff(memory: seq<Memo>, memo: Memo)
    requires DistinctMemos(memory)
    ensures memo in memory <==> MemoOf(memory, memo.cacheKey) == Some(memo)
  {
    hide FindMemo;
    if memo in memory {
      var i :| 0 <= i < |memory| && memory[i] == memo;
      MemoMember(memory, i);
    }
  }

  /** The line of a name that was translated. */
  function FreshLine(env: Env, n: Named, translated: string, at: string): Memo {
    Memo(env.cacheKey(n.name, env.hashText(n.text)), env.model, env.provider, n.name, n.text, env.hashText(n.text),
         translated, at)
  }

  lemma {:induction false} TranslatedLine(env: Env, disk: Disk, flat: seq<Named>, t: map<string, string>, at: string -> string, j: nat)
    requires ValidEnv(env) && Completed(env, disk, flat, t) && DistinctNames(flat)
    requires j < |flat| && Refreshed(env, disk, flat[j])
    ensures var n := flat[j];
            && n.name in t
            && MemoOf(MemoryAfter(env, disk, flat, t, at), KeyOf(env, n)) == Some(FreshLine(env, n, t[n.name], at(n.name)))
  {
    assert InjectiveCacheKey(env) && Complete(PendingItems(env, disk, flat), t);
    hide Choose, Unknown, Remember, LoadMemory, PendingItems, DistinctCacheKeys, InjectiveCacheKey, ValidEnv, IsBlank, DistinctNames;
    var p := PendingItems(env, disk, flat);
    ChoiceMeans(env, disk, flat[j]);
    PendingMeans(env, disk, flat);
    PendingKeysDistinct(env, disk, flat);
    var i :| 0 <= i < |p| && p[i] == ItemOf(env, flat[j]);
    RememberItem(env, LoadMemory(ContentOr(disk.memory, [])), p, t, at, i);
  }

  lemma {:induction false} OtherLine(env: Env, disk: Disk, flat: seq<Named>, t: map<string, string>, at: string -> string, key: string)
    requires Completed(env, disk, flat, t) && DistinctNames(flat)
    requires forall j :: 0 <= j < |flat| && Refreshed(env, disk, flat[j]) ==> KeyOf(env, flat[j]) != key
    ensures MemoOf(MemoryAfter(env, disk, flat, t, at), key) == MemoOf(LoadMemory(LinesOf(disk)), key)
  {
    hide Choose, Unknown, Listed, Remember, LoadMemory, PendingItems, MemoOf;
    var p, memory := PendingItems(env, disk, flat), LoadMemory(ContentOr(disk.memory, []));
    if env.allowTranslate {
      PendingMeans(env, disk, flat);
      forall i | 0 <= i < |p| ensures p[i].cacheKey != key {
        assert IsPendingItem(env, disk, flat, p[i]);
        var j :| 0 <= j < |flat| && Choose(env, disk, flat[j]).Pending? && p[i] == ItemOf(env, flat[j]);
        ChoiceMeans(env, disk, flat[j]);
      }
      RememberOthers(env, memory, p, t, at, key);
    } else {
      RememberNothing(env, memory, p, at);
    }
  }

  /** The memory a run leaves: sorted, one line for each key; a new one for every name translated, and for every
      other key the line that decided before, if any. */
  lemma {:induction false} MemoryLeft(env: Env, disk: Disk, mode: Mode, source: seq<Entry>, sourceHash: string,
                                      t: map<string, string>, now: string, at: string -> string,
                                      result: SyncResult, disk1: Disk)
    requires RunDone(env, disk, mode, source, sourceHash, t, now, at, result, disk1)
    requires mode.write && !mode.checkOnly && ValidEnv(env)
    ensures var lines := LinesOf(disk1);
            forall i, j :: 0 <= i < j < |lines| ==>
              lines[i].cacheKey != lines[j].cacheKey && env.collate(lines[i].cacheKey, lines[j].cacheKey)
    ensures var flat := SourceFlat(source);
            forall j :: 0 <= j < |flat| && Refreshed(env, disk, flat[j]) ==>
              flat[j].name in t && FreshLine(env, flat[j], t[flat[j].name], at(flat[j].name)) in LinesOf(disk1)
    ensures var flat := SourceFlat(source);
            forall memo: Memo ::
              (forall j :: 0 <= j < |flat| && Refreshed(env, disk, flat[j]) ==> KeyOf(env, flat[j]) != memo.cacheKey) ==>
              (memo in LinesOf(disk1) <==> Cached(LinesOf(disk), memo.cacheKey, memo))
  {
    var flat := SourceFlat(source);
    var m := MemoryAfter(env, disk, flat, t, at);
    assert Completed(env, disk, flat, t);
    SourceDistinct(source);
    MemoryIsRendered(env, disk, mode, source, sourceHash, t, now, at, result, disk1);
    hide RunDone, Completed, SourceFlat, MemoryAfter, SortBy, Unknown, Cached, LoadMemory, ValidEnv, DistinctNames, MemoOf, KeyOf, Refreshed;
    forall j | 0 <= j < |flat| && Refreshed(env, disk, flat[j])
      ensures flat[j].name in t && FreshLine(env, flat[j], t[flat[j].name], at(flat[j].name)) in LinesOf(disk1)
    {
      TranslatedLine(env, disk, flat, t, at, j);
      KeyOfLine(env, flat[j], t[flat[j].name], at(flat[j].name));
      MemberIff(m, FreshLine(env, flat[j], t[flat[j].name], at(flat[j].name)));
    }
    forall memo: Memo | forall j :: 0 <= j < |flat| && Refreshed(env, disk, flat[j]) ==> KeyOf(env, flat[j]) != memo.cacheKey
      ensures memo in LinesOf(disk1) <==> Cached(LinesOf(disk), memo.cacheKey, memo)
    {
      OtherLine(env, disk, flat, t, at, memo.cacheKey);
      MemberIff(m, memo);
      CachedIff(LinesOf(disk), memo);
    }
  }

  lemma {:induction false} KeyOfLine(env: Env, n: Named, translated: string, at: string)
    ensures FreshLine(env, n, translated, at).cacheKey == KeyOf(env, n)
  {
  }

  lemma {:induction false} CachedIff(lines: seq<Memo>, memo: Memo)
    ensures MemoOf(LoadMemory(lines), memo.cacheKey) == Some(memo) <==> Cached(lines, memo.cacheKey, memo)
  {
    hide MemoOf, LoadMemory, Cached, NotCached;
    LoadMeans(lines, memo.cacheKey);
    CachedOnce(lines, memo.cacheKey);
  }
}
