/** Provider, model and cache keys, as they follow from the environment variables. */
module ProviderSettings {
  import opened Options
  import opened Whitespace
  import opened DottedKeys
  import opened Sorting
  import opened SyncRules
  import opened SyncFixpoint

  const DEFAULT_PROVIDER := "openai"
  const DEFAULT_OPENAI_MODEL := "gpt-5.4"
  const DEFAULT_ANTHROPIC_MODEL := "claude-opus-4-6"

  /** The configured provider and model, and the two keys, each perhaps absent. */
  datatype Settings = Settings(provider: Option<string>, model: Option<string>,
                               openaiKey: Option<string>, anthropicKey: Option<string>)

  /** `value?.trim()`, with the empty string for an absent one: both are false. */
  function Trimmed(value: Option<string>): string {
    if value.Some? then Trim(value.value) else ""
  }

  /** `resolveConfiguredProvider` */
  function ConfiguredProvider(s: Settings): string {
    if Trimmed(s.provider) != "" then Trimmed(s.provider)
    else if Trimmed(s.openaiKey) != "" then "openai"
    else if Trimmed(s.anthropicKey) != "" then "anthropic"
    else DEFAULT_PROVIDER
  }

  /** `resolveConfiguredModel` */
  function ConfiguredModel(s: Settings): string {
    if Trimmed(s.model) != "" then Trimmed(s.model)
    else if ConfiguredProvider(s) == "anthropic" then DEFAULT_ANTHROPIC_MODEL else DEFAULT_OPENAI_MODEL
  }

  /** `hasTranslationProvider` */
  predicate HasTranslationProvider(s: Settings) {
    Trimmed(s.openaiKey) != "" || Trimmed(s.anthropicKey) != ""
  }

  /** The names in each case: the configured provider, else the one whose key is set, OpenAI first; the
      configured model, else the default one of the provider. */
  lemma {:induction false} NamesAre(s: Settings)
    ensures var provider := if s.provider.Some? then Trim(s.provider.value) else "";
            var openai := s.openaiKey.Some? && Trim(s.openaiKey.value) != "";
            var anthropic := s.anthropicKey.Some? && Trim(s.anthropicKey.value) != "";
            && (HasTranslationProvider(s) <==> openai || anthropic)
            && (provider != "" ==> ConfiguredProvider(s) == provider)
            && (provider == "" ==> ConfiguredProvider(s) == if anthropic && !openai then "anthropic" else "openai")
    ensures var model := if s.model.Some? then Trim(s.model.value) else "";
            && (model != "" ==> ConfiguredModel(s) == model)
            && (model == "" ==>
                  ConfiguredModel(s) == if ConfiguredProvider(s) == "anthropic" then "claude-opus-4-6" else "gpt-5.4")
  {
    hide Trim;
  }

  // ---------- cache keys ----------

  /** `text.trim().split(/\s+/).join(" ")` */
  function NormalizeText(text: string): string {
    Collapse(Trim(text))
  }

  function Collapse(s: string): string
    decreases |s|
  {
    if s == "" then ""
    else if IsSpace(s[0]) then " " + Collapse(TrimStart(s[1..]))
    else [s[0]] + Collapse(s[1..])
  }

  /** A word and the space behind it. */
  datatype Word = Word(text: string, gap: string)

  ghost predicate IsWord(s: string) {
    s != "" && forall i :: 0 <= i < |s| ==> !IsSpace(s[i])
  }

  /** Words with some space behind each; behind the last there may be none. */
  ghost predicate AreWords(words: seq<Word>) {
    && (forall i :: 0 <= i < |words| ==> IsWord(words[i].text) && AllSpace(words[i].gap))
    && (forall i :: 0 <= i < |words| - 1 ==> words[i].gap != "")
  }

  ghost function Spaced(words: seq<Word>): string {
    if words == [] then ""
    else if |words| == 1 then words[0].text
    else words[0].text + (words[0].gap + Spaced(words[1..]))
  }

  ghost function OneSpaced(words: seq<Word>): string {
    if words == [] then ""
    else if |words| == 1 then words[0].text
    else words[0].text + (" " + OneSpaced(words[1..]))
  }

  lemma {:induction false} CollapseWord(word: string, rest: string)
    requires forall i :: 0 <= i < |word| ==> !IsSpace(word[i])
    ensures Collapse(word + rest) == word + Collapse(rest)
    decreases |word|
  {
    hide IsSpace;
    if word == "" {
      assert word + rest == rest;
    } else {
      assert (word + rest)[1..] == word[1..] + rest;
      CollapseWord(word[1..], rest);
      assert word + Collapse(rest) == [word[0]] + (word[1..] + Collapse(rest));
    }
  }

  lemma {:induction false} CollapseGap(gap: string, rest: string)
    requires gap != "" && AllSpace(gap) && rest != "" && !IsSpace(rest[0])
    ensures Collapse(gap + rest) == " " + Collapse(rest)
  {
    hide IsSpace;
    assert (gap + rest)[1..] == gap[1..] + rest;
    TrimStartBefore(gap[1..], rest);
  }

  lemma {:induction false} SpacedEnds(words: seq<Word>)
    requires words != [] && AreWords(words)
    ensures var s := Spaced(words); s != "" && !IsSpace(s[0]) && !IsSpace(s[|s| - 1])
    decreases |words|
  {
    hide IsSpace, AllSpace;
    if |words| == 1 {
    } else {
      SpacedEnds(words[1..]);
    }
  }

  lemma {:induction false} CollapseSpaced(words: seq<Word>)
    requires words != [] && AreWords(words)
    ensures Collapse(Spaced(words)) == OneSpaced(words)
    decreases |words|
  {
    hide IsSpace, AllSpace, Collapse;
    CollapseNothing();
    if |words| == 1 {
      CollapseWord(words[0].text, "");
      assert words[0].text + "" == words[0].text;
    } else {
      SpacedEnds(words[1..]);
      CollapseSpaced(words[1..]);
      CollapseGap(words[0].gap, Spaced(words[1..]));
      CollapseWord(words[0].text, words[0].gap + Spaced(words[1..]));
    }
  }

  lemma {:induction false} CollapseNothing()
    ensures Collapse("") == ""
  {
  }

  /** Texts are hashed word by word: whatever space stands before, between and behind the words, the normal form
      has one blank between any two. */
  lemma {:induction false} NormalForm(before: string, words: seq<Word>, after: string)
    requires AllSpace(before) && AllSpace(after) && AreWords(words)
    ensures NormalizeText(before + (Spaced(words) + after)) == OneSpaced(words)
  {
    hide IsSpace, AllSpace, Collapse, Trim, AreWords, Spaced, OneSpaced;
    TrimSurrounded(before, Spaced(words), after);
    if words == [] {
      NoWords();
    } else {
      SpacedEnds(words);
      TightIsTrimmed(Spaced(words));
      CollapseSpaced(words);
    }
  }

  lemma {:induction false} NoWords()
    ensures Spaced([]) == "" == OneSpaced([]) && Collapse(Trim("")) == ""
  {
  }

  lemma {:induction false} TightIsTrimmed(s: string)
    requires s != "" && !IsSpace(s[0]) && !IsSpace(s[|s| - 1])
    ensures Trim(s) == s
  {
    hide IsSpace;
  }

  const NAMESPACE_START := "wf=1|engine=pi|provider="

  /** What is hashed into a cache key; `cacheNamespace` is its beginning, up to the model. */
  function CacheText(s: Settings, locale: string, name: string, textHash: string): string {
    CacheStart(s, locale) + (name + ("|" + textHash))
  }

  function CacheStart(s: Settings, locale: string): string {
    NAMESPACE_START + (ConfiguredProvider(s) + ("|model=" + ConfiguredModel(s) + "|en|" + locale + "|"))
  }

  /** What a run is given by the environment variables, the locale and the two functions it relies on. */
  function EnvOf(s: Settings, locale: string, sha256: string -> string, collate: (string, string) -> bool): Env {
    Env(locale, HasTranslationProvider(s), ConfiguredProvider(s), ConfiguredModel(s),
        HashText(sha256), (name, textHash) => sha256(CacheText(s, locale, name, textHash)), collate)
  }

  function HashText(sha256: string -> string): string -> string {
    text => sha256(NormalizeText(text))
  }

  /** Hashes of different texts differ, and are written without a bar. */
  ghost predicate GoodHash(sha256: string -> string) {
    && (forall x, y :: sha256(x) == sha256(y) ==> x == y)
    && (forall x :: sha256(x) != "" && '|' !in sha256(x))
  }

  lemma {:induction false} BarInside(a: string, x: string, b: string, y: string)
    requires a + ("|" + x) == b + ("|" + y) && |a| < |b|
    ensures '|' in x
  {
    assert (b + ("|" + y))[|b|] == '|';
    assert x[|b| - |a| - 1] == '|';
  }

  /** What stands before the last bar of a text is determined by the text. */
  lemma {:induction false} LastBar(a: string, x: string, b: string, y: string)
    requires a + ("|" + x) == b + ("|" + y) && '|' !in x && '|' !in y
    ensures a == b
  {
    if |a| < |b| {
      BarInside(a, x, b, y);
    } else if |b| < |a| {
      BarInside(b, y, a, x);
    } else {
      assert a == (a + ("|" + x))[..|a|] == (b + ("|" + y))[..|a|] == b;
    }
  }

  lemma {:induction false} SameStart(start: string, a: string, b: string)
    requires start + a == start + b
    ensures a == b
  {
    assert a == (start + a)[|start|..] && b == (start + b)[|start|..];
  }

  lemma {:induction false} KeyIs(s: Settings, locale: string, sha256: string -> string, collate: (string, string) -> bool, n: Named)
    ensures CacheKeyOf(EnvOf(s, locale, sha256, collate), n)
         == sha256(CacheText(s, locale, n.name, sha256(NormalizeText(n.text))))
  {
    hide NormalizeText, CacheText;
  }

  /** What a cache key is the hash of, written out. */
  lemma {:induction false} KeyOfName(s: Settings, locale: string, sha256: string -> string,
                                     collate: (string, string) -> bool, name: string, text: string)
    ensures CacheKeyOf(EnvOf(s, locale, sha256, collate), Named(name, text))
         == sha256("wf=1|engine=pi|provider=" + ConfiguredProvider(s) + "|model=" + ConfiguredModel(s) + "|en|" + locale
                   + "|" + name + "|" + sha256(NormalizeText(text)))
  {
    hide NormalizeText, ConfiguredProvider, ConfiguredModel;
    var p, m, h := ConfiguredProvider(s), ConfiguredModel(s), sha256(NormalizeText(text));
    assert CacheText(s, locale, name, h)
        == "wf=1|engine=pi|provider=" + p + "|model=" + m + "|en|" + locale + "|" + name + "|" + h;
  }

  /** Under a good hash the cache keys of different names differ, as the second run of a pair relies on. */
  lemma {:induction false} EnvIsValid(s: Settings, locale: string, sha256: string -> string, collate: (string, string) -> bool)
    requires GoodHash(sha256) && TotalPreorder(collate)
    ensures ValidEnv(EnvOf(s, locale, sha256, collate))
  {
    hide CacheStart, NormalizeText, TotalPreorder, CacheKeyOf, GoodHash;
    var env := EnvOf(s, locale, sha256, collate);
    forall a: Named, b: Named | a.name != b.name ensures CacheKeyOf(env, a) != CacheKeyOf(env, b) {
      KeysOfNames(s, locale, sha256, collate, a, b);
    }
    forall n: Named ensures CacheKeyOf(env, n) != "" {
      KeyIs(s, locale, sha256, collate, n);
      HashNotEmpty(sha256, CacheText(s, locale, n.name, sha256(NormalizeText(n.text))));
    }
  }

  lemma {:induction false} HashNotEmpty(sha256: string -> string, x: string)
    requires GoodHash(sha256)
    ensures sha256(x) != "" && '|' !in sha256(x)
  {
  }

  lemma {:induction false} KeysOfNames(s: Settings, locale: string, sha256: string -> string,
                                       collate: (string, string) -> bool, a: Named, b: Named)
    requires GoodHash(sha256) && a.name != b.name
    ensures CacheKeyOf(EnvOf(s, locale, sha256, collate), a) != CacheKeyOf(EnvOf(s, locale, sha256, collate), b)
  {
    hide CacheStart, NormalizeText, CacheKeyOf;
    var x, y := sha256(NormalizeText(a.text)), sha256(NormalizeText(b.text));
    KeyIs(s, locale, sha256, collate, a);
    KeyIs(s, locale, sha256, collate, b);
    if CacheText(s, locale, a.name, x) == CacheText(s, locale, b.name, y) {
      SameStart(CacheStart(s, locale), a.name + ("|" + x), b.name + ("|" + y));
      LastBar(a.name, x, b.name, y);
    }
  }

  // ---------- losing the keys ----------

  /** The same settings where neither key is set. */
  function WithoutKeys(s: Settings): Settings {
    s.(openaiKey := None, anthropicKey := None)
  }

  predicate NamesSurvive(s: Settings) {
    ConfiguredProvider(WithoutKeys(s)) == ConfiguredProvider(s) && ConfiguredModel(WithoutKeys(s)) == ConfiguredModel(s)
  }

  /** Provider and model keep their names without the keys, except where the provider was read off the Anthropic
      key: no provider is configured, there is an Anthropic key, and no OpenAI key. */
  lemma {:induction false} NamesSurviveIff(s: Settings)
    ensures NamesSurvive(s) <==>
            Trimmed(s.provider) != "" || Trimmed(s.openaiKey) != "" || Trimmed(s.anthropicKey) == ""
    ensures !NamesSurvive(s) ==> ConfiguredProvider(s) == "anthropic" && ConfiguredProvider(WithoutKeys(s)) == "openai"
    ensures !NamesSurvive(s) ==> HasTranslationProvider(s)
  {
    hide Trim;
    assert "anthropic"[0] != "openai"[0];
  }

  /** The environment without the keys differs in nothing but the provider, and so in the cache keys. */
  lemma {:induction false} WithoutKeysIsElsewhere(s: Settings, locale: string, sha256: string -> string, collate: (string, string) -> bool)
    ensures Elsewhere(EnvOf(s, locale, sha256, collate), EnvOf(WithoutKeys(s), locale, sha256, collate))
  {
  }

  /** If the names survive, every cache key stays; if not, no cache key of the one is a cache key of the other. */
  lemma {:induction false} CacheKeysSurviveIff(s: Settings, locale: string, sha256: string -> string,
                                               collate: (string, string) -> bool, a: Named, b: Named)
    requires GoodHash(sha256)
    ensures var env, env1 := EnvOf(s, locale, sha256, collate), EnvOf(WithoutKeys(s), locale, sha256, collate);
            if NamesSurvive(s) then CacheKeyOf(env1, a) == CacheKeyOf(env, a) else CacheKeyOf(env1, a) != CacheKeyOf(env, b)
  {
    hide NormalizeText, ConfiguredProvider, ConfiguredModel, HasTranslationProvider, CacheKeyOf;
    KeyIs(WithoutKeys(s), locale, sha256, collate, a);
    KeyIs(s, locale, sha256, collate, a);
    KeyIs(s, locale, sha256, collate, b);
    if !NamesSurvive(s) {
      NamesSurviveIff(s);
      var x, y := sha256(NormalizeText(a.text)), sha256(NormalizeText(b.text));
      StartsDiffer(s, locale, a.name + ("|" + x), b.name + ("|" + y));
    }
  }

  lemma {:induction false} StartsDiffer(s: Settings, locale: string, a: string, b: string)
    requires ConfiguredProvider(s) == "anthropic" && ConfiguredProvider(WithoutKeys(s)) == "openai"
    ensures CacheStart(WithoutKeys(s), locale) + a != CacheStart(s, locale) + b
  {
    hide ConfiguredProvider, ConfiguredModel;
    var k := |NAMESPACE_START|;
    assert (CacheStart(WithoutKeys(s), locale) + a)[k] == "openai"[0];
    assert (CacheStart(s, locale) + b)[k] == "anthropic"[0];
  }
}
