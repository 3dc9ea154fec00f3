/** Configuration trees as values, and what the migration of the legacy discovery block means on them. */
module ConfigValues {

  /** A value of a configuration record: arrays and other non-records are opaque. */
  datatype Json = Undefined | Scalar(token: string) | Record(fields: map<string, Json>)

  predicate Blocked(key: string) {
    key in {"__proto__", "prototype", "constructor"}
  }

  /** Reading a property: an absent one reads as `undefined`. */
  function Get(r: map<string, Json>, key: string): Json {
    if key in r then r[key] else Undefined
  }

  // ---------- merging ----------

  /** The source of a merge fills a property the target does not define. */
  predicate Fills(target: map<string, Json>, source: map<string, Json>, key: string) {
    Get(source, key) != Undefined && !Blocked(key) && Get(target, key) == Undefined
  }

  function MergeKey(target: map<string, Json>, source: map<string, Json>, key: string): Json
    decreases Record(source), 0
  {
    if Fills(target, source, key) then Get(source, key)
    else if key in target && key in source && !Blocked(key) && target[key].Record? && source[key].Record? then
      Record(Merge(target[key].fields, source[key].fields))
    else Get(target, key)
  }

  /** `mergeMissing`: what the target defines stays, what it lacks comes from the source, records are
      merged in depth. */
  function Merge(target: map<string, Json>, source: map<string, Json>): map<string, Json>
    decreases Record(source), 1
  {
    map k | k in target.Keys + source.Keys && (k in target || Fills(target, source, k)) :: MergeKey(target, source, k)
  }

  lemma {:induction false} Merged(target: map<string, Json>, source: map<string, Json>, k: string)
    ensures k in Merge(target, source) <==> k in target || Fills(target, source, k)
    ensures k in Merge(target, source) ==> Merge(target, source)[k] == MergeKey(target, source, k)
    ensures Fills(target, source, k) ==> MergeKey(target, source, k) == source[k]
  {
  }

  /** What a merge leaves under a key: a value of the target stays, unless both are records; what it lacks comes
      from the source, except under the three names that lead to prototypes. */
  lemma {:induction false} MergeMeans(target: map<string, Json>, source: map<string, Json>, k: string)
    ensures Get(Merge(target, source), k) ==
              if k == "__proto__" || k == "prototype" || k == "constructor" then Get(target, k)
              else if Get(target, k) == Undefined then Get(source, k)
              else if Get(target, k).Record? && Get(source, k).Record? then
                Record(Merge(Get(target, k).fields, Get(source, k).fields))
              else Get(target, k)
  {
    Merged(target, source, k);
  }

  /** The effect of merging one more property of the source. */
  function MergeOne(target: map<string, Json>, source: map<string, Json>, key: string): map<string, Json> {
    if Fills(target, source, key) then target[key := source[key]]
    else if !Blocked(key) && Get(target, key).Record? && Get(source, key).Record? then
      target[key := Record(Merge(target[key].fields, source[key].fields))]
    else target
  }

  /** A merge may be done one property at a time, in any order. */
  lemma {:induction false} MergeStep(target: map<string, Json>, source: map<string, Json>, todo: set<string>, key: string)
    requires key in todo && key in source
    ensures Get(Merge(target, source - todo), key) == Get(target, key)
    ensures Merge(target, source - (todo - {key})) == MergeOne(Merge(target, source - todo), source, key)
  {
    var s0, s1 := source - todo, source - (todo - {key});
    var m0, m1 := Merge(target, s0), Merge(target, s1);
    Merged(target, s0, key);
    Merged(target, s1, key);
    assert s1 == s0[key := source[key]];
    var one := MergeOne(m0, source, key);
    forall k ensures (k in m1 <==> k in one) && (k in m1 ==> m1[k] == one[k]) {
      Merged(target, s0, k);
      Merged(target, s1, k);
    }
  }

  lemma {:induction false} MergeNothing(target: map<string, Json>, source: map<string, Json>)
    ensures Merge(target, source - source.Keys) == target
  {
    assert source - source.Keys == map[];
    assert forall k :: k in target ==> MergeKey(target, map[], k) == target[k];
  }

  /** Nothing is left for the source to fill, at any depth. */
  ghost predicate Covers(target: map<string, Json>, source: map<string, Json>)
    decreases Record(source)
  {
    forall k :: k in source && source[k] != Undefined && !Blocked(k) ==>
      Get(target, k) != Undefined
      && (Get(target, k).Record? && source[k].Record? ==> Covers(Get(target, k).fields, source[k].fields))
  }

  lemma {:induction false} MergeIsNoop(target: map<string, Json>, source: map<string, Json>)
    ensures Merge(target, source) == target <==> Covers(target, source)
    decreases Record(source)
  {
    var m := Merge(target, source);
    forall k | k in source && source[k] != Undefined && !Blocked(k) && Get(target, k) != Undefined
               && Get(target, k).Record? && source[k].Record?
      ensures Merge(Get(target, k).fields, source[k].fields) == Get(target, k).fields
         <==> Covers(Get(target, k).fields, source[k].fields)
    {
      MergeIsNoop(target[k].fields, source[k].fields);
    }
    if Covers(target, source) {
      assert forall k :: !Fills(target, source, k);
      assert m.Keys == target.Keys;
      assert forall k :: k in target ==> MergeKey(target, source, k) == target[k];
    } else {
      var k :| k in source && source[k] != Undefined && !Blocked(k) &&
        !(Get(target, k) != Undefined
          && (Get(target, k).Record? && source[k].Record? ==> Covers(Get(target, k).fields, source[k].fields)));
      Merged(target, source, k);
    }
  }

  lemma {:induction false} MergeCovers(target: map<string, Json>, source: map<string, Json>)
    ensures Covers(Merge(target, source), source)
    decreases Record(source)
  {
    var m := Merge(target, source);
    forall k | k in source && source[k] != Undefined && !Blocked(k)
      ensures Get(m, k) != Undefined
      ensures Get(m, k).Record? && source[k].Record? ==> Covers(Get(m, k).fields, source[k].fields)
    {
      Merged(target, source, k);
      if Fills(target, source, k) {
        if source[k].Record? {
          CoversItself(source[k].fields);
        }
      } else if Get(target, k).Record? && source[k].Record? {
        MergeCovers(target[k].fields, source[k].fields);
      }
    }
  }

  lemma {:induction false} CoversItself(r: map<string, Json>)
    ensures Covers(r, r)
    decreases Record(r)
  {
    forall k | k in r && r[k].Record? ensures Covers(r[k].fields, r[k].fields) {
      CoversItself(r[k].fields);
    }
  }

  /** Merging the same source again changes nothing. */
  lemma {:induction false} MergeIdempotent(target: map<string, Json>, source: map<string, Json>)
    ensures Merge(Merge(target, source), source) == Merge(target, source)
  {
    MergeCovers(target, source);
    MergeIsNoop(Merge(target, source), source);
  }

  /** Reading along a path of keys. */
  function At(r: map<string, Json>, path: seq<string>): Json
    decreases |path|
  {
    if path == [] then Record(r)
    else if |path| == 1 then Get(r, path[0])
    else if Get(r, path[0]).Record? then At(Get(r, path[0]).fields, path[1..])
    else Undefined
  }

  /** Every explicit value of the target survives, and every value of the result that is not a record was
      at the same place in the target or in the source. */
  lemma {:induction false} MergeKeepsLeaves(target: map<string, Json>, source: map<string, Json>, path: seq<string>)
    ensures At(target, path).Scalar? ==> At(Merge(target, source), path) == At(target, path)
    ensures At(Merge(target, source), path).Scalar? ==>
              At(Merge(target, source), path) == if At(target, path).Scalar? then At(target, path) else At(source, path)
    decreases |path|
  {
    if path == [] {
    } else {
      var k, m := path[0], Merge(target, source);
      assert Get(m, k) == if k in target || Fills(target, source, k) then MergeKey(target, source, k) else Undefined;
      if |path| > 1 && Get(target, k).Record? && Get(source, k).Record? {
        MergeKeepsLeaves(Get(target, k).fields, Get(source, k).fields, path[1..]);
      }
    }
  }

  // ---------- the migration ----------

  const LEGACY_KEY := "bedrockDiscovery"
  const PLUGIN_PATH := ["plugins", "entries", "amazon-bedrock", "config"]
  const DISCOVERY := "discovery"

  /** The legacy block, if it is there and is a record. */
  predicate HasLegacy(root: map<string, Json>) {
    Get(root, "models").Record? && Get(Get(root, "models").fields, LEGACY_KEY).Record?
  }

  function Legacy(root: map<string, Json>): map<string, Json> {
    if HasLegacy(root) then root["models"].fields[LEGACY_KEY].fields else map[]
  }

  /** `delete models.bedrockDiscovery`, then the record of models if nothing else was in it. */
  function DropLegacy(root: map<string, Json>): map<string, Json>
    requires HasLegacy(root)
  {
    var models := root["models"].fields - {LEGACY_KEY};
    if models == map[] then root - {"models"} else root["models" := Record(models)]
  }

  function FieldsOr(value: Json): map<string, Json> {
    if value.Record? then value.fields else map[]
  }

  function MovedOrMerged(existing: Json, legacy: map<string, Json>): map<string, Json> {
    if existing.Record? then Merge(existing.fields, legacy) else legacy
  }

  /** The chain of `ensureRecord` calls down to the plugin's configuration, and the move or merge there. */
  function MoveInto(r: map<string, Json>, path: seq<string>, legacy: map<string, Json>): map<string, Json>
    decreases |path|
  {
    if path == [] then
      r[DISCOVERY := Record(MovedOrMerged(Get(r, DISCOVERY), legacy))]
    else
      r[path[0] := Record(MoveInto(FieldsOr(Get(r, path[0])), path[1..], legacy))]
  }

  function Migrate(root: map<string, Json>): map<string, Json> {
    if !HasLegacy(root) then root
    else if Legacy(root) == map[] then DropLegacy(root)
    else MoveInto(DropLegacy(root), PLUGIN_PATH, Legacy(root))
  }

  /** The plugin's own discovery block. */
  function PluginDiscovery(root: map<string, Json>): Json {
    At(root, PLUGIN_PATH + [DISCOVERY])
  }

  /** The configuration discovery runs with: the legacy block spread under the plugin's block. */
  function Effective(root: map<string, Json>): map<string, Json> {
    Legacy(root) + FieldsOr(PluginDiscovery(root))
  }

  /** Both read the same under every key. */
  ghost predicate SameReading(a: map<string, Json>, b: map<string, Json>) {
    forall k :: Get(a, k) == Get(b, k)
  }

  lemma {:induction false} MoveIntoDiscovery(r: map<string, Json>, path: seq<string>, legacy: map<string, Json>)
    ensures At(MoveInto(r, path, legacy), path + [DISCOVERY])
         == Record(MovedOrMerged(At(r, path + [DISCOVERY]), legacy))
    decreases |path|
  {
    if path == [] {
    } else {
      MoveIntoDiscovery(FieldsOr(Get(r, path[0])), path[1..], legacy);
      assert (path + [DISCOVERY])[1..] == path[1..] + [DISCOVERY];
      if !Get(r, path[0]).Record? {
        EmptyReads(path[1..] + [DISCOVERY]);
      }
    }
  }

  lemma {:induction false} EmptyReads(path: seq<string>)
    requires path != []
    ensures At(map[], path) == Undefined
  {
  }

  lemma {:induction false} MigratedBlocks(root: map<string, Json>)
    requires HasLegacy(root)
    ensures !HasLegacy(Migrate(root))
    ensures PluginDiscovery(Migrate(root))
         == if Legacy(root) == map[] then PluginDiscovery(root)
            else Record(MovedOrMerged(PluginDiscovery(root), Legacy(root)))
  {
    var dropped := DropLegacy(root);
    assert PLUGIN_PATH[0] == "plugins";
    assert !HasLegacy(dropped) && Get(dropped, "plugins") == Get(root, "plugins");
    var path := PLUGIN_PATH + [DISCOVERY];
    assert At(dropped, path) == At(root, path);
    MoveIntoDiscovery(dropped, PLUGIN_PATH, Legacy(root));
  }

  /** What a migration does, place by place.  Without a legacy block that is a record nothing changes; with one
      it goes, and the record of models with it if nothing else is left there; what is in it becomes the
      plugin's discovery block, or is merged into it if that is a record. */
  lemma {:induction false} MigrationMeans(root: map<string, Json>)
    ensures !At(root, ["models", "bedrockDiscovery"]).Record? ==> Migrate(root) == root
    ensures At(root, ["models", "bedrockDiscovery"]).Record? ==>
              var models := root["models"].fields;
              var legacy := models["bedrockDiscovery"].fields;
              var discovery := ["plugins", "entries", "amazon-bedrock", "config", "discovery"];
              && ("models" in Migrate(root) <==> models.Keys != {"bedrockDiscovery"})
              && ("models" in Migrate(root) ==> Migrate(root)["models"] == Record(models - {"bedrockDiscovery"}))
              && (forall k :: k != "models" && k != "plugins" ==>
                    (k in Migrate(root) <==> k in root) && Get(Migrate(root), k) == Get(root, k))
              && (legacy == map[] ==> Get(Migrate(root), "plugins") == Get(root, "plugins"))
              && (legacy != map[] && At(root, discovery).Record? ==>
                    At(Migrate(root), discovery) == Record(Merge(At(root, discovery).fields, legacy)))
              && (legacy != map[] && !At(root, discovery).Record? ==> At(Migrate(root), discovery) == Record(legacy))
  {
    assert ["models", "bedrockDiscovery"][1..] == ["bedrockDiscovery"];
    assert At(root, ["models", "bedrockDiscovery"]).Record? <==> HasLegacy(root);
    if HasLegacy(root) {
      MigratedBlocks(root);
      DroppedModels(root["models"].fields);
      assert PLUGIN_PATH[0] == "plugins";
      assert PLUGIN_PATH + [DISCOVERY] == ["plugins", "entries", "amazon-bedrock", "config", "discovery"];
      hide MoveInto, Merge;
      MoveIntoFirst(DropLegacy(root), Legacy(root));
    }
  }

  lemma {:induction false} MoveIntoFirst(r: map<string, Json>, legacy: map<string, Json>)
    ensures forall k :: k != "plugins" ==>
              (k in MoveInto(r, PLUGIN_PATH, legacy) <==> k in r) && Get(MoveInto(r, PLUGIN_PATH, legacy), k) == Get(r, k)
  {
  }

  lemma {:induction false} DroppedModels(models: map<string, Json>)
    requires LEGACY_KEY in models
    ensures models - {LEGACY_KEY} == map[] <==> models.Keys == {"bedrockDiscovery"}
  {
    if models - {LEGACY_KEY} == map[] {
      forall k ensures k in models.Keys <==> k in {LEGACY_KEY} {
        assert k in models && k != LEGACY_KEY ==> k in models - {LEGACY_KEY};
      }
    }
  }

  /** A second migration finds nothing to do. */
  lemma {:induction false} MigrateIdempotent(root: map<string, Json>)
    ensures Migrate(Migrate(root)) == Migrate(root)
  {
    if HasLegacy(root) {
      MigratedBlocks(root);
    }
  }

  /** A legacy setting `k` keeps its effect: it has none, or the plugin block overrides it with a value,
      or it can be filled in whole. */
  ghost predicate Preserved(plugin: map<string, Json>, legacy: map<string, Json>, k: string)
    requires k in legacy
  {
    || legacy[k] == Undefined
    || (Blocked(k) && k in plugin)
    || (!Blocked(k) && k !in plugin)
    || (!Blocked(k) && Get(plugin, k) != Undefined
        && (plugin[k].Record? && legacy[k].Record? ==> Covers(plugin[k].fields, legacy[k].fields)))
  }

  /** Migration keeps the effective discovery configuration exactly when every legacy setting is preserved;
      without a plugin block to merge with it always does. */
  lemma {:induction false} MigrationKeepsMeaning(root: map<string, Json>)
    ensures SameReading(Effective(Migrate(root)), Effective(root))
       <==> (HasLegacy(root) && PluginDiscovery(root).Record? ==>
               forall k :: k in Legacy(root) ==> Preserved(PluginDiscovery(root).fields, Legacy(root), k))
  {
    if HasLegacy(root) {
      MigratedBlocks(root);
      var l, p := Legacy(root), FieldsOr(PluginDiscovery(root));
      if PluginDiscovery(root).Record? {
        MergeKeepsMeaning(p, l);
      }
    }
  }

  lemma {:induction false} MergeReading(p: map<string, Json>, l: map<string, Json>, k: string)
    requires k in l
    ensures Get(Merge(p, l), k) == Get(l + p, k) <==> Preserved(p, l, k)
  {
    var m := Merge(p, l);
    assert Get(m, k) == if k in p || Fills(p, l, k) then MergeKey(p, l, k) else Undefined;
    if k in p && p[k].Record? && l[k].Record? {
      MergeIsNoop(p[k].fields, l[k].fields);
    }
  }

  lemma {:induction false} MergeKeepsMeaning(p: map<string, Json>, l: map<string, Json>)
    ensures SameReading(Merge(p, l), l + p) <==> forall k :: k in l ==> Preserved(p, l, k)
    ensures l == map[] ==> Merge(p, l) == p
  {
    forall k | k in l ensures Get(Merge(p, l), k) == Get(l + p, k) <==> Preserved(p, l, k) {
      MergeReading(p, l, k);
    }
    assert forall k :: k !in l ==> Get(Merge(p, l), k) == Get(l + p, k);
  }

  /** In particular for settings that are plain values, under ordinary names, none of them `undefined`. */
  lemma {:induction false} PlainSettingsKeepMeaning(root: map<string, Json>)
    requires forall k :: k in Legacy(root) ==> !Blocked(k)
    requires forall k :: k in FieldsOr(PluginDiscovery(root)) ==> FieldsOr(PluginDiscovery(root))[k].Scalar?
    ensures SameReading(Effective(Migrate(root)), Effective(root))
  {
    MigrationKeepsMeaning(root);
  }

  /** A whole configuration with the two blocks. */
  function Configuration(legacy: map<string, Json>, plugin: map<string, Json>): map<string, Json> {
    var config := Record(map[DISCOVERY := Record(plugin)]);
    map["models" := Record(map[LEGACY_KEY := Record(legacy)]),
        "plugins" := Record(map["entries" := Record(map["amazon-bedrock" := Record(map["config" := config])])])]
  }

  lemma {:induction false} BlocksOf(legacy: map<string, Json>, plugin: map<string, Json>)
    ensures var root := Configuration(legacy, plugin);
            HasLegacy(root) && Legacy(root) == legacy && PluginDiscovery(root) == Record(plugin)
  {
    var root := Configuration(legacy, plugin);
    var path := PLUGIN_PATH + [DISCOVERY];
    var entries := root["plugins"].fields;
    var entry := entries["entries"].fields;
    var config := entry["amazon-bedrock"].fields;
    assert path[1..] == ["entries", "amazon-bedrock", "config", DISCOVERY];
    assert path[1..][1..] == ["amazon-bedrock", "config", DISCOVERY];
    assert path[1..][1..][1..] == ["config", DISCOVERY];
    assert path[1..][1..][1..][1..] == [DISCOVERY];
    assert At(config["config"].fields, [DISCOVERY]) == Record(plugin);
    assert At(config, ["config", DISCOVERY]) == Record(plugin);
    assert At(entry, ["amazon-bedrock", "config", DISCOVERY]) == Record(plugin);
    assert At(entries, ["entries", "amazon-bedrock", "config", DISCOVERY]) == Record(plugin);
  }

  /** The exception is real: in a configuration where the plugin block holds a nested setting as a smaller record,
      migration widens what discovery runs with. */
  lemma {:induction false} NestedSettingsAreWidened(inner: Json)
    requires inner != Undefined
    ensures var root := Configuration(map["filter" := Record(map["on" := inner])], map["filter" := Record(map[])]);
            && Get(Effective(root), "filter") == Record(map[])
            && Get(Effective(Migrate(root)), "filter") == Record(map["on" := inner])
            && !SameReading(Effective(Migrate(root)), Effective(root))
  {
    var legacy, plugin := map["filter" := Record(map["on" := inner])], map["filter" := Record(map[])];
    var root := Configuration(legacy, plugin);
    BlocksOf(legacy, plugin);
    MigratedBlocks(root);
    assert legacy != map[] by {
      assert "filter" in legacy;
    }
    FilterIsWidened(inner);
    hide Merge, Migrate, PluginDiscovery, Configuration;
    assert "on" in map["on" := inner] && map["on" := inner] != map[];
  }

  lemma {:induction false} FilterIsWidened(inner: Json)
    requires inner != Undefined
    ensures var merged := Merge(map["filter" := Record(map[])], map["filter" := Record(map["on" := inner])]);
            Get(merged, "filter") == Record(map["on" := inner])
  {
    var target, source: map<string, Json> := map[], map["on" := inner];
    Merged(target, source, "on");
    assert Fills(target, source, "on");
    assert Merge(target, source) == source;
    Merged(map["filter" := Record(target)], map["filter" := Record(source)], "filter");
  }

  lemma {:induction false} MoveIntoElsewhere(r: map<string, Json>, to: seq<string>, legacy: map<string, Json>, path: seq<string>)
    requires At(r, path).Scalar? && !(path <= to) && !(to + [DISCOVERY] <= path)
    ensures At(MoveInto(r, to, legacy), path) == At(r, path)
    decreases |to|
  {
    if to == [] {
      assert path[0] != DISCOVERY by {
        assert [DISCOVERY] == [] + [DISCOVERY];
      }
    } else if path[0] == to[0] {
      var below, rest := to[1..], path[1..];
      assert to == [to[0]] + below && path == [to[0]] + rest;
      assert to + [DISCOVERY] == [to[0]] + (below + [DISCOVERY]);
      PrefixCons(to[0], rest, below);
      PrefixCons(to[0], below + [DISCOVERY], rest);
      MoveIntoElsewhere(Get(r, to[0]).fields, below, legacy, rest);
    }
  }

  lemma {:induction false} PrefixCons(k: string, a: seq<string>, b: seq<string>)
    ensures [k] + a <= [k] + b <==> a <= b
  {
    if [k] + a <= [k] + b {
      assert a == ([k] + a)[1..] && b == ([k] + b)[1..];
    }
  }

  /** Every plain value outside the legacy block, the plugin's discovery block and the records that lead to
      it is where it was. */
  lemma {:induction false} MigrationKeepsTheRest(root: map<string, Json>, path: seq<string>)
    requires At(root, path).Scalar?
    requires !(["models", LEGACY_KEY] <= path) && !(path <= PLUGIN_PATH) && !(PLUGIN_PATH + [DISCOVERY] <= path)
    ensures At(Migrate(root), path) == At(root, path)
  {
    if HasLegacy(root) {
      var dropped := DropLegacy(root);
      assert At(dropped, path) == At(root, path) by {
        if path[0] == "models" {
          assert path == ["models"] + path[1..];
          assert path[1] != LEGACY_KEY;
          assert path[1] in root["models"].fields - {LEGACY_KEY};
        }
      }
      if Legacy(root) != map[] {
        MoveIntoElsewhere(dropped, PLUGIN_PATH, Legacy(root), path);
      }
    }
  }
}
