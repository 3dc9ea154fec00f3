/** One locale synchronisation as a function of the files it reads. */
module SyncRules {
  import opened Options
  import opened Sorting
  import opened TranslationTree
  import opened DottedKeys
  import opened TranslationBatches
  import opened BatchTranslation

  const WORKFLOW := 1

  datatype GlossaryEntry = GlossaryEntry(source: string, target: string)

  const DEFAULT_GLOSSARY: seq<GlossaryEntry> := [
    GlossaryEntry("OpenClaw", "OpenClaw"), GlossaryEntry("Gateway", "Gateway"),
    GlossaryEntry("Control UI", "Control UI"), GlossaryEntry("Skills", "Skills"),
    GlossaryEntry("Tailscale", "Tailscale"), GlossaryEntry("WhatsApp", "WhatsApp"),
    GlossaryEntry("Telegram", "Telegram"), GlossaryEntry("Discord", "Discord"),
    GlossaryEntry("Signal", "Signal"), GlossaryEntry("iMessage", "iMessage")]

  /** One line of the translation memory. */
  datatype Memo = Memo(cacheKey: string, model: string, provider: string, key: string, text: string,
                       textHash: string, translated: string, updatedAt: string)

  datatype Meta = Meta(fallbackKeys: seq<string>, generatedAt: string, locale: string, model: string, provider: string,
                       sourceHash: string, totalKeys: nat, translatedKeys: int, workflow: int)

  /** A file that parses to `content`; `canonical` says that its text is exactly what would be written for it. */
  datatype File<V> = Missing | Present(content: V, canonical: bool)

  /** The four files of a locale. */
  datatype Disk = Disk(locale: File<seq<Entry>>, meta: File<Meta>, glossary: File<seq<GlossaryEntry>>, memory: File<seq<Memo>>)

  /** What is fixed during a run: the target, the configured provider, and the hash and collation functions. */
  datatype Env = Env(locale: string, allowTranslate: bool, provider: string, model: string,
                     hashText: string -> string, cacheKey: (string, string) -> string,
                     collate: (string, string) -> bool)

  datatype Mode = Mode(checkOnly: bool, force: bool, write: bool)

  // ---------- reading ----------

  function ContentOr<V>(f: File<V>, default: V): V {
    if f.Present? then f.content else default
  }

  function FindMemo(memory: seq<Memo>, cacheKey: string): (k: nat)
    ensures k <= |memory|
    ensures k < |memory| ==> memory[k].cacheKey == cacheKey
    ensures forall i :: 0 <= i < k ==> memory[i].cacheKey != cacheKey
  {
    if memory == [] || memory[0].cacheKey == cacheKey then 0 else 1 + FindMemo(memory[1..], cacheKey)
  }

  function PutMemo(memory: seq<Memo>, memo: Memo): seq<Memo> {
    var k := FindMemo(memory, memo.cacheKey);
    if k < |memory| then memory[k := memo] else memory + [memo]
  }

  predicate Usable(memo: Memo) {
    memo.cacheKey != "" && !IsBlank(memo.translated)
  }

  /** `loadTranslationMemory`: later lines win, useless ones are dropped. */
  function LoadMemory(lines: seq<Memo>): seq<Memo> {
    if lines == [] then []
    else
      var rest := LoadMemory(lines[..|lines| - 1]);
      var last := lines[|lines| - 1];
      if Usable(last) then PutMemo(rest, last) else rest
  }

  function MemoOrder(collate: (string, string) -> bool): (Memo, Memo) -> bool {
    (a: Memo, b: Memo) => collate(a.cacheKey, b.cacheKey)
  }

  /** `renderTranslationMemory` */
  function RenderMemory(env: Env, memory: seq<Memo>): seq<Memo> {
    SortBy(MemoOrder(env.collate), memory)
  }

  /** The flattened texts of the locale as it is. */
  function ExistingFlat(disk: Disk): seq<Named> {
    PutAllNames([], FlattenText(ContentOr(disk.locale, []), ""))
  }

  /** The flattened texts of the source locale. */
  function SourceFlat(source: seq<Entry>): seq<Named> {
    PutAllNames([], FlattenText(source, ""))
  }

  /** The same names with other texts. */
  function Renamed(flat: seq<Named>, texts: seq<string>): (r: seq<Named>)
    requires |texts| == |flat|
    ensures |r| == |texts|
  {
    seq(|texts|, i requires 0 <= i < |texts| => Named(flat[i].name, texts[i]))
  }

  function PreviousFallback(disk: Disk): seq<string> {
    if disk.meta.Present? then disk.meta.content.fallbackKeys else []
  }

  // ---------- what becomes of one key ----------

  datatype Choice = Reuse(text: string, fallback: bool) | Pending

  function CacheKeyOf(env: Env, n: Named): string {
    env.cacheKey(n.name, env.hashText(n.text))
  }

  /** The first loop: take the cached translation, else the existing one, unless a provider is to refresh a
      fallback. */
  function Choose(env: Env, disk: Disk, n: Named): Choice {
    var memory := LoadMemory(ContentOr(disk.memory, []));
    var k := FindMemo(memory, CacheKeyOf(env, n));
    var existing := Lookup(ExistingFlat(disk), n.name);
    var refresh := n.name in PreviousFallback(disk);
    if env.allowTranslate && refresh then Pending
    else if k < |memory| then Reuse(memory[k].translated, refresh)
    else if existing.Some? then Reuse(existing.value, refresh)
    else Pending
  }

  /** The last loop, for a key that neither loop before has settled. */
  function FallBack(disk: Disk, force: bool, n: Named): Choice {
    var existing := Lookup(ExistingFlat(disk), n.name);
    if existing.Some? && !force then Reuse(existing.value, n.name in PreviousFallback(disk))
    else Reuse(n.text, true)
  }

  /** The text and the fallback mark a key ends up with, given the translations obtained. */
  function Settle(env: Env, disk: Disk, force: bool, translated: map<string, string>, n: Named): (c: Choice)
    ensures c.Reuse?
  {
    match Choose(env, disk, n)
    case Reuse(text, fallback) => Reuse(text, fallback)
    case Pending =>
      if n.name in translated && translated[n.name] != "" then Reuse(translated[n.name], false)
      else FallBack(disk, force, n)
  }

  function PendingItems(env: Env, disk: Disk, flat: seq<Named>): seq<Item> {
    if flat == [] then []
    else
      var n := flat[|flat| - 1];
      PendingItems(env, disk, flat[..|flat| - 1]) +
      if Choose(env, disk, n).Pending? then [Item(CacheKeyOf(env, n), n.name, n.text, env.hashText(n.text))] else []
  }

  function NewMemo(env: Env, item: Item, translated: string, at: string): Memo {
    Memo(item.cacheKey, env.model, env.provider, item.key, item.text, item.textHash, translated, at)
  }

  /** Entering the translations of the pending items into the memory, in order. */
  function Remember(env: Env, memory: seq<Memo>, items: seq<Item>, translated: map<string, string>, at: string -> string): seq<Memo> {
    if items == [] then memory
    else
      var rest := Remember(env, memory, items[..|items| - 1], translated, at);
      var item := items[|items| - 1];
      if item.key in translated && translated[item.key] != ""
      then PutMemo(rest, NewMemo(env, item, translated[item.key], at(item.key)))
      else rest
  }

  // ---------- what the files should be ----------

  datatype Expected = Expected(locale: seq<Entry>, meta: Meta, glossary: seq<GlossaryEntry>, memory: seq<Memo>)

  function Texts(env: Env, disk: Disk, force: bool, translated: map<string, string>, flat: seq<Named>): (r: seq<string>)
    ensures |r| == |flat|
  {
    seq(|flat|, i requires 0 <= i < |flat| => Settle(env, disk, force, translated, flat[i]).text)
  }

  /** The fallback marks set by the first loop, then those set by the last one, each in source order. */
  function FallbackNames(env: Env, disk: Disk, force: bool, translated: map<string, string>, flat: seq<Named>): seq<string> {
    MarkedNames(env, disk, force, translated, flat, false) + MarkedNames(env, disk, force, translated, flat, true)
  }

  function MarkedNames(env: Env, disk: Disk, force: bool, translated: map<string, string>, flat: seq<Named>,
                       pending: bool): seq<string>
  {
    if flat == [] then []
    else
      var n := flat[|flat| - 1];
      MarkedNames(env, disk, force, translated, flat[..|flat| - 1], pending) +
      if Choose(env, disk, n).Pending? == pending && Settle(env, disk, force, translated, n).fallback then [n.name] else []
  }

  function NextMeta(env: Env, disk: Disk, sourceHash: string, total: nat, fallback: seq<string>, now: string): Meta {
    var previous := disk.meta;
    var meta := Meta(fallback, now, env.locale,
                     if env.allowTranslate then env.model else if previous.Present? then previous.content.model else "",
                     if env.allowTranslate then env.provider else if previous.Present? then previous.content.provider else "",
                     sourceHash, total, total - |fallback|, WORKFLOW);
    if previous.Present? && meta.(generatedAt := previous.content.generatedAt) == previous.content
    then previous.content else meta
  }

  function Expect(env: Env, disk: Disk, force: bool, source: seq<Entry>, sourceHash: string,
                  translated: map<string, string>, now: string, at: string -> string): Expected
  {
    var flat := SourceFlat(source);
    var fallback := SortBy(env.collate, FallbackNames(env, disk, force, translated, flat));
    var glossary := ContentOr(disk.glossary, []);
    Expected(
      SetAllNamed([], Renamed(flat, Texts(env, disk, force, translated, flat))),
      NextMeta(env, disk, sourceHash, |flat|, fallback, now),
      if glossary == [] then DEFAULT_GLOSSARY else glossary,
      RenderMemory(env, Remember(env, LoadMemory(ContentOr(disk.memory, [])), PendingItems(env, disk, flat), translated, at)))
  }

  predicate IsCurrent<V(==)>(f: File<V>, content: V) {
    f.Present? && f.canonical && f.content == content
  }

  /** No file would be written differently.  An absent memory file counts as an empty one. */
  predicate UpToDate(disk: Disk, e: Expected) {
    && IsCurrent(disk.locale, e.locale) && IsCurrent(disk.meta, e.meta) && IsCurrent(disk.glossary, e.glossary)
    && (IsCurrent(disk.memory, e.memory) || (disk.memory.Missing? && e.memory == []))
  }

  function Written(disk: Disk, e: Expected): Disk {
    Disk(Present(e.locale, true), Present(e.meta, true), Present(e.glossary, true),
         if e.memory == [] && disk.memory.Missing? then Missing else Present(e.memory, true))
  }
}
