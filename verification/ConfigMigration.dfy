/** The migration on mutable records: cloning, merging in place, and what it shares with its input. */
module ConfigMigration {
  import opened ConfigValues
  import opened Options

  datatype Cell = Absent | Plain(token: string) | Nested(record: JsonRecord)

  /** A configuration object.  `Repr` is the tree of objects it consists of. */
  class JsonRecord {
    var fields: map<string, Cell>
    ghost var Repr: set<JsonRecord>

    constructor ()
      ensures Valid() && fresh(Repr) && Value() == map[] && Repr == {this} && fields == map[]
    {
      fields := map[];
      Repr := {this};
    }

    ghost predicate Valid()
      reads this, Repr
      ensures Valid() ==> this in Repr
      decreases Repr
    {
      && this in Repr
      && (forall k | k in fields && fields[k].Nested? ::
            && fields[k].record in Repr && fields[k].record.Repr <= Repr && this !in fields[k].record.Repr
            && fields[k].record.Valid())
      && (forall k, l | k in fields && l in fields && k != l && fields[k].Nested? && fields[l].Nested? ::
            fields[k].record.Repr !! fields[l].record.Repr)
    }

    /** The value of the property `k`. */
    ghost function ValueAt(k: string): Json
      requires Valid() && k in fields
      reads this, Repr
      decreases Repr, 0
    {
      match fields[k]
      case Absent => Undefined
      case Plain(token) => Scalar(token)
      case Nested(r) => Record(r.Value())
    }

    /** The value this object stands for. */
    ghost function Value(): map<string, Json>
      requires Valid()
      reads this, Repr
      decreases Repr, 1
    {
      map k | k in fields :: ValueAt(k)
    }
  }

  ghost function CellValue(cell: Cell): Json
    requires cell.Nested? ==> cell.record.Valid()
    reads if cell.Nested? then {cell.record} + cell.record.Repr else {}
  {
    match cell
    case Absent => Undefined
    case Plain(token) => Scalar(token)
    case Nested(r) => Record(r.Value())
  }

  // ---------- a nested object has changed ----------

  /** Apart from what is under `key`, `r` is as `Valid` wants it: it consists of `rest`, and `before` gives
      its values. */
  ghost predicate RestHolds(r: JsonRecord, key: string, before: map<string, Json>, rest: set<JsonRecord>)
    reads r, rest
  {
    && r in rest && rest <= r.Repr
    && before.Keys + {key} == r.fields.Keys + {key}
    && (forall k | k in r.fields && k != key && r.fields[k].Nested? ::
          && r.fields[k].record in rest && r.fields[k].record.Repr <= rest
          && r !in r.fields[k].record.Repr && r.fields[k].record.Valid()
          && before[k] == Record(r.fields[k].record.Value()))
    && (forall k | k in r.fields && k != key && r.fields[k].Plain? :: before[k] == Scalar(r.fields[k].token))
    && (forall k | k in r.fields && k != key && r.fields[k].Absent? :: before[k] == Undefined)
    && (forall k, l | k in r.fields && l in r.fields && k != l && r.fields[k].Nested? && r.fields[l].Nested? ::
          k != key && l != key ==> r.fields[k].record.Repr !! r.fields[l].record.Repr)
  }

  ghost function RestOf(r: JsonRecord, key: string): set<JsonRecord>
    requires r.Valid()
    reads r, r.Repr
  {
    if key in r.fields && r.fields[key].Nested? then r.Repr - r.fields[key].record.Repr else r.Repr
  }

  /** The object under `key` may be written to without touching the rest. */
  lemma {:induction false} RestApart(r: JsonRecord, key: string)
    requires r.Valid()
    ensures RestHolds(r, key, r.Value(), RestOf(r, key))
  {
    assert forall k | k in r.fields && k != key && r.fields[k].Nested? :: r.fields[k].record in r.fields[k].record.Repr;
  }

  /** The rest together with what is under `key` is the whole object. */
  lemma {:induction false} Assembled(r: JsonRecord, key: string, before: map<string, Json>, rest: set<JsonRecord>)
    requires RestHolds(r, key, before, rest) && key in r.fields
    requires r.fields[key].Nested? ==>
               var child := r.fields[key].record; child.Valid() && child.Repr <= r.Repr && rest !! child.Repr
    ensures r.Valid() && r.Value() == before[key := CellValue(r.fields[key])]
  {
    assert r.ValueAt(key) == CellValue(r.fields[key]);
  }

  /** Taking in what a changed nested object has grown by. */
  ghost method Adopt(r: JsonRecord, key: string, before: map<string, Json>, rest: set<JsonRecord>)
    requires RestHolds(r, key, before, rest) && key in r.fields && r.fields[key].Nested?
    requires r.fields[key].record.Valid() && rest !! r.fields[key].record.Repr
    modifies r`Repr
    ensures r.Valid() && r.Repr == old(r.Repr) + r.fields[key].record.Repr
    ensures r.fields[key].record.Valid()
    ensures r.Value() == before[key := Record(r.fields[key].record.Value())]
    ensures r.fields[key].record.Repr == old(r.fields[key].record.Repr)
    ensures r.fields[key].record.Value() == old(r.fields[key].record.Value())
  {
    r.Repr := r.Repr + r.fields[key].record.Repr;
    Assembled(r, key, before, rest);
  }

  /** `r[key] = cell`, where what was under `key` may have been written to. */
  method SetCell(r: JsonRecord, key: string, cell: Cell, ghost before: map<string, Json>, ghost rest: set<JsonRecord>)
    requires RestHolds(r, key, before, rest)
    requires cell.Nested? ==> cell.record.Valid() && rest !! cell.record.Repr
    modifies r
    ensures r.Valid() && r.fields == old(r.fields)[key := cell]
    ensures r.Repr == old(r.Repr) + if cell.Nested? then cell.record.Repr else {}
    ensures r.Value() == before[key := CellValue(cell)]
    ensures cell.Nested? ==> cell.record.Valid() && cell.record.Value() == old(cell.record.Value())
  {
    hide JsonRecord.Value, JsonRecord.ValueAt, JsonRecord.Valid;
    r.fields := r.fields[key := cell];
    if cell.Nested? {
      r.Repr := r.Repr + cell.record.Repr;
    }
    Assembled(r, key, before, rest);
  }

  /** `r[key] = cell` */
  method Put(r: JsonRecord, key: string, cell: Cell)
    requires r.Valid()
    requires cell.Nested? ==> cell.record.Valid() && r.Repr !! cell.record.Repr
    modifies r
    ensures r.Valid() && r.fields == old(r.fields)[key := cell]
    ensures r.Repr == old(r.Repr) + if cell.Nested? then cell.record.Repr else {}
    ensures r.Value() == old(r.Value())[key := CellValue(cell)]
    ensures cell.Nested? ==> cell.record.Valid() && cell.record.Value() == old(cell.record.Value())
  {
    hide RestHolds, JsonRecord.Value, JsonRecord.ValueAt;
    ghost var rest := RestOf(r, key);
    RestApart(r, key);
    SetCell(r, key, cell, r.Value(), rest);
  }

  /** What an object knows of the object under `key`. */
  lemma {:induction false} Child(r: JsonRecord, key: string)
    requires r.Valid() && key in r.fields
    ensures key in r.Value() && r.Value()[key] == r.ValueAt(key)
    ensures r.fields[key].Nested? ==>
              var child := r.fields[key].record;
              && child in r.Repr && child.Repr <= r.Repr && r !in child.Repr && child.Repr < r.Repr
              && child.Valid() && r.ValueAt(key) == Record(child.Value())
    ensures r.fields[key].Plain? ==> r.ValueAt(key) == Scalar(r.fields[key].token)
    ensures r.fields[key].Absent? ==> r.ValueAt(key) == Undefined
  {
  }

  lemma {:induction false} SameKeys(r: JsonRecord)
    requires r.Valid()
    ensures r.Value().Keys == r.fields.Keys
  {
  }

  /** `delete r[key]` */
  method Delete(r: JsonRecord, key: string)
    requires r.Valid()
    modifies r
    ensures r.Valid() && r.Repr == old(r.Repr) && r.fields == old(r.fields) - {key}
    ensures r.Value() == old(r.Value()) - {key}
  {
    r.fields := r.fields - {key};
    assert forall k :: k in r.fields ==> r.ValueAt(k) == old(if k in r.fields then r.ValueAt(k) else Undefined);
  }

  /** `cloneRecord`: a new object with the same properties, sharing the nested objects. */
  method CloneRecord(r: JsonRecord) returns (copy: JsonRecord)
    requires r.Valid()
    ensures copy.Valid() && fresh(copy) && copy.Value() == r.Value()
    ensures copy.Repr == r.Repr - {r} + {copy}
  {
    copy := new JsonRecord();
    copy.fields := r.fields;
    copy.Repr := r.Repr - {r} + {copy};
    assert forall k :: k in copy.fields ==> copy.ValueAt(k) == r.ValueAt(k);
  }

  /** A deep copy shares nothing with the original. */
  method StructuredClone(r: JsonRecord) returns (copy: JsonRecord)
    requires r.Valid()
    ensures copy.Valid() && fresh(copy.Repr) && copy.Value() == r.Value()
    decreases r.Repr
  {
    hide JsonRecord.Valid, JsonRecord.Value, JsonRecord.ValueAt;
    copy := new JsonRecord();
    var todo := r.fields.Keys;
    SameKeys(r);
    while todo != {}
      invariant todo <= r.fields.Keys
      invariant copy.Valid() && fresh(copy.Repr)
      invariant copy.Value() == r.Value() - todo
      decreases todo
    {
      var key :| key in todo;
      var cell := r.fields[key];
      Child(r, key);
      if cell.Nested? {
        var child := StructuredClone(cell.record);
        cell := Nested(child);
      }
      Put(copy, key, cell);
      todo := todo - {key};
    }
  }

  // ---------- merging in place ----------

  /** Between two properties of a merge: what is still to come from the source is no part of the target, and
      the target's own nested objects for those keys are still the old ones. */
  ghost predicate Merging(target: JsonRecord, source: JsonRecord, todo: set<string>, footprint: set<JsonRecord>)
    requires source.Valid()
    reads target, target.Repr, source, source.Repr
  {
    && target.Valid()
    && todo <= source.fields.Keys
    && (forall k | k in todo && source.fields[k].Nested? :: target.Repr !! source.fields[k].record.Repr)
    && (forall k | k in todo && k in target.fields && target.fields[k].Nested? ::
          target.fields[k].record.Repr <= footprint)
  }

  lemma {:induction false} MergingStarts(target: JsonRecord, source: JsonRecord)
    requires target.Valid() && source.Valid() && target.Repr !! source.Repr
    ensures Merging(target, source, source.fields.Keys, target.Repr)
  {
  }

  /** `mergeMissing`, in place.  Only objects of the target are written to; afterwards the target may share
      nested objects with the source. */
  method MergeMissing(target: JsonRecord, source: JsonRecord)
    requires target.Valid() && source.Valid() && target.Repr !! source.Repr
    modifies target.Repr
    ensures target.Valid() && old(target.Repr) <= target.Repr <= old(target.Repr) + source.Repr
    ensures source.Valid() && target.Value() == Merge(old(target.Value()), source.Value())
    decreases source.Repr, 1
  {
    hide JsonRecord.Valid, JsonRecord.Value, JsonRecord.ValueAt;
    ghost var footprint, before, from := target.Repr, target.Value(), source.Value();
    var todo := source.fields.Keys;
    SameKeys(source);
    MergingStarts(target, source);
    MergeNothing(before, from);
    while todo != {}
      invariant source.Valid() && source.Value() == from && todo <= source.fields.Keys
      invariant Merging(target, source, todo, footprint)
      invariant footprint <= target.Repr <= footprint + source.Repr
      invariant target.Value() == Merge(before, from - todo)
      decreases todo
    {
      var key :| key in todo;
      var value := source.fields[key];
      MergeStep(before, from, todo, key);
      Child(source, key);
      MergeProperty(target, source, todo, footprint, key);
      todo := todo - {key};
    }
    assert from - {} == from;
  }

  /** The body of the loop. */
  method MergeProperty(target: JsonRecord, source: JsonRecord, ghost todo: set<string>, ghost footprint: set<JsonRecord>,
                       key: string)
    requires target.Valid() && source.Valid() && key in todo
    requires Merging(target, source, todo, footprint)
    requires footprint <= target.Repr <= footprint + source.Repr
    requires footprint !! source.Repr && target in footprint
    modifies footprint
    ensures source.Valid() && source.Value() == old(source.Value())
    ensures Merging(target, source, todo - {key}, footprint)
    ensures footprint <= target.Repr <= footprint + source.Repr
    ensures target.Value() == MergeOne(old(target.Value()), source.Value(), key)
    decreases source.Repr, 0
  {
    hide JsonRecord.Value, JsonRecord.ValueAt, RestHolds;
    SameKeys(target);
    Child(source, key);
    if key in target.fields {
      Child(target, key);
    }
    var value := source.fields[key];
    if value.Absent? || Blocked(key) {
      return;
    }
    var existing := if key in target.fields then target.fields[key] else Absent;
    if existing.Absent? {
      Put(target, key, value);
      return;
    }
    if existing.Nested? && value.Nested? {
      ghost var rest := RestOf(target, key);
      RestApart(target, key);
      MergeMissing(existing.record, value.record);
      Adopt(target, key, old(target.Value()), rest);
    }
  }

  // ---------- the migration ----------

  /** `ensureRecord`: the object under `key`, after putting a new empty one there if there was none. */
  method EnsureRecord(r: JsonRecord, key: string) returns (child: JsonRecord)
    requires r.Valid()
    modifies r
    ensures r.Valid() && key in r.fields && r.fields[key] == Nested(child)
    ensures child in r.Repr && child.Valid() && child.Repr <= r.Repr && r !in child.Repr
    ensures child.Value() == FieldsOr(Get(old(r.Value()), key))
    ensures r.Value() == old(r.Value())[key := Record(child.Value())]
    ensures old(r.Repr) <= r.Repr && fresh(r.Repr - old(r.Repr))
    ensures key in old(r.fields) && old(r.fields)[key].Nested? ==>
              child == old(r.fields)[key].record && r.Repr == old(r.Repr)
  {
    hide JsonRecord.Valid, JsonRecord.Value, JsonRecord.ValueAt;
    SameKeys(r);
    if key in r.fields {
      Child(r, key);
      if r.fields[key].Nested? {
        child := r.fields[key].record;
        assert r.Value() == old(r.Value())[key := Record(child.Value())];
        return;
      }
    }
    child := new JsonRecord();
    Put(r, key, Nested(child));
    Child(r, key);
  }

  /** What an object may consist of after the legacy block was moved into it. */
  twostate predicate GrewBy(r: JsonRecord, legacy: JsonRecord)
    reads r
  {
    forall o | o in r.Repr :: o in old(r.Repr) || o in old(legacy.Repr) || fresh(o)
  }

  /** The last step, at the plugin's configuration: move the legacy block there or merge it. */
  method PlaceDiscovery(config: JsonRecord, legacy: JsonRecord) returns (merged: bool)
    requires config.Valid() && legacy.Valid() && config.Repr !! legacy.Repr
    modifies config.Repr
    ensures config.Valid() && legacy.Valid() && GrewBy(config, legacy)
    ensures merged <==> Get(old(config.Value()), DISCOVERY).Record?
    ensures config.Value() == MoveInto(old(config.Value()), [], legacy.Value())
  {
    hide JsonRecord.Value, JsonRecord.ValueAt, RestHolds;
    SameKeys(config);
    if DISCOVERY in config.fields {
      Child(config, DISCOVERY);
    }
    if DISCOVERY !in config.fields || !config.fields[DISCOVERY].Nested? {
      var clone := CloneRecord(legacy);
      Put(config, DISCOVERY, Nested(clone));
      return false;
    }
    var existing := config.fields[DISCOVERY].record;
    var copy := CloneRecord(existing);
    ghost var rest := RestOf(config, DISCOVERY);
    RestApart(config, DISCOVERY);
    MergeMissing(copy, legacy);
    SetCell(config, DISCOVERY, Nested(copy), old(config.Value()), rest);
    merged := true;
  }

  /** The `ensureRecord` calls from the root down to the plugin's configuration, and the step made there. */
  method MoveDiscovery(r: JsonRecord, path: seq<string>, legacy: JsonRecord) returns (merged: bool)
    requires r.Valid() && legacy.Valid() && r.Repr !! legacy.Repr
    modifies r.Repr
    ensures r.Valid() && legacy.Valid() && GrewBy(r, legacy)
    ensures merged <==> At(old(r.Value()), path + [DISCOVERY]).Record?
    ensures r.Value() == MoveInto(old(r.Value()), path, legacy.Value())
    decreases |path|
  {
    hide JsonRecord.Value, JsonRecord.ValueAt, RestHolds, JsonRecord.Valid;
    if path == [] {
      merged := PlaceDiscovery(r, legacy);
      return;
    }
    var child := EnsureRecord(r, path[0]);
    ghost var before, rest := r.Value(), RestOf(r, path[0]);
    AtBelow(old(r.Value()), path);
    RestApart(r, path[0]);
    merged := MoveDiscovery(child, path[1..], legacy);
    Adopt(r, path[0], before, rest);
  }

  lemma {:induction false} AtBelow(r: map<string, Json>, path: seq<string>)
    requires path != []
    ensures At(r, path + [DISCOVERY]).Record?
       <==> At(FieldsOr(Get(r, path[0])), path[1..] + [DISCOVERY]).Record?
  {
    assert (path + [DISCOVERY])[1..] == path[1..] + [DISCOVERY];
    EmptyReads(path[1..] + [DISCOVERY]);
  }

  /** `Merged` stands for both messages about an existing plugin block. */
  datatype Change = Nothing | RemovedEmpty | Moved | Merged

  lemma {:induction false} EmptyByKeys<T>(m: map<string, T>)
    ensures m == map[] <==> m.Keys == {}
  {
  }

  /** `delete models.bedrockDiscovery` */
  method DeleteLegacy(root: JsonRecord)
    requires root.Valid() && HasLegacy(root.Value())
    modifies root.Repr
    ensures root.Valid() && root.Repr == old(root.Repr)
    ensures root.Value() == old(root.Value())["models" := Record(old(root.Value())["models"].fields - {LEGACY_KEY})]
  {
    hide JsonRecord.Value, JsonRecord.ValueAt, RestHolds, JsonRecord.Valid;
    SameKeys(root);
    Child(root, "models");
    var models := EnsureRecord(root, "models");
    ghost var before, rest := root.Value(), RestOf(root, "models");
    RestApart(root, "models");
    Delete(models, LEGACY_KEY);
    Adopt(root, "models", before, rest);
  }

  method PruneEmptyModelsRoot(root: JsonRecord)
    requires root.Valid()
    modifies root
    ensures root.Valid() && root.Repr == old(root.Repr)
    ensures root.Value() == if Get(old(root.Value()), "models") == Record(map[])
                            then old(root.Value()) - {"models"} else old(root.Value())
  {
    hide JsonRecord.Value, JsonRecord.ValueAt, JsonRecord.Valid;
    SameKeys(root);
    if "models" in root.fields {
      Child(root, "models");
      if root.fields["models"].Nested? {
        var models := root.fields["models"].record;
        SameKeys(models);
        EmptyByKeys(models.Value());
        EmptyByKeys(models.fields);
        if models.fields == map[] {
          Delete(root, "models");
        }
      }
    }
  }

  lemma {:induction false} DropInTwoSteps(root: map<string, Json>)
    requires HasLegacy(root)
    ensures var deleted := root["models" := Record(root["models"].fields - {LEGACY_KEY})];
            DropLegacy(root) == if Get(deleted, "models") == Record(map[]) then deleted - {"models"} else deleted
  {
    var deleted := root["models" := Record(root["models"].fields - {LEGACY_KEY})];
    assert deleted - {"models"} == root - {"models"};
  }

  /** `migrateAmazonBedrockLegacyConfig`.  It writes to no object that existed before, so the input keeps
      its value; the result may share nested objects with it. */
  method MigrateAmazonBedrockLegacyConfig(raw: Cell) returns (config: Cell, change: Change)
    requires raw.Nested? ==> raw.record.Valid()
    ensures !raw.Nested? || !HasLegacy(raw.record.Value()) ==> config == raw && change == Nothing
    ensures raw.Nested? ==> raw.record.Valid() && raw.record.Value() == old(raw.record.Value())
    ensures raw.Nested? ==> config.Nested? && config.record.Valid() && config.record.Value() == Migrate(raw.record.Value())
    ensures raw.Nested? && HasLegacy(raw.record.Value()) ==>
              && fresh(config.record)
              && change == if Legacy(raw.record.Value()) == map[] then RemovedEmpty
                           else if PluginDiscovery(raw.record.Value()).Record? then Merged else Moved
  {
    hide JsonRecord.Value, JsonRecord.ValueAt, JsonRecord.Valid, MoveInto, DropLegacy, At, Merge;
    if !raw.Nested? {
      return raw, Nothing;
    }
    var legacy := ResolveLegacy(raw.record);
    if legacy.None? {
      return raw, Nothing;
    }
    var root := raw.record;
    ghost var value := root.Value();
    var nextRoot := StructuredClone(root);
    DeleteLegacy(nextRoot);
    PruneEmptyModelsRoot(nextRoot);
    DropInTwoSteps(value);
    config := Nested(nextRoot);
    SameKeys(legacy.value);
    if legacy.value.fields == map[] {
      return config, RemovedEmpty;
    }
    var merged := MoveDiscovery(nextRoot, PLUGIN_PATH, legacy.value);
    DropKeepsPlugin(value);
    change := if merged then Merged else Moved;
  }

  /** `resolveLegacyBedrockDiscoveryConfig` */
  method ResolveLegacy(root: JsonRecord) returns (legacy: Option<JsonRecord>)
    requires root.Valid()
    ensures legacy.Some? <==> HasLegacy(root.Value())
    ensures legacy.Some? ==> legacy.value.Valid() && legacy.value.Repr <= root.Repr
    ensures legacy.Some? ==> legacy.value.Value() == Legacy(root.Value())
  {
    hide JsonRecord.Value, JsonRecord.ValueAt, JsonRecord.Valid;
    SameKeys(root);
    if "models" !in root.fields {
      return None;
    }
    Child(root, "models");
    if !root.fields["models"].Nested? {
      return None;
    }
    var models := root.fields["models"].record;
    SameKeys(models);
    if LEGACY_KEY !in models.fields {
      return None;
    }
    Child(models, LEGACY_KEY);
    if !models.fields[LEGACY_KEY].Nested? {
      return None;
    }
    legacy := Some(models.fields[LEGACY_KEY].record);
  }

  lemma {:induction false} DropKeepsPlugin(root: map<string, Json>)
    requires HasLegacy(root)
    ensures At(DropLegacy(root), PLUGIN_PATH + [DISCOVERY]) == PluginDiscovery(root)
  {
    assert PLUGIN_PATH[0] == "plugins";
    assert Get(DropLegacy(root), "plugins") == Get(root, "plugins");
  }
}
