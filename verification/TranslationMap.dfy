/** Translation objects in memory: nested assignment in place, and flattening into a map. */
module TranslationMap {
  import opened TranslationTree
  import opened DottedKeys

  datatype Cell = Str(text: string) | Sub(map_: TranslationObject)
  datatype Property = Property(key: string, cell: Cell)

  /** An object with its own properties in insertion order.  `Repr` is the tree of objects below it. */
  class TranslationObject {
    var properties: seq<Property>
    ghost var Repr: set<TranslationObject>

    constructor ()
      ensures Is([]) && fresh(Repr) && properties == [] && Repr == {this}
    {
      properties := [];
      Repr := {this};
    }

    /** The object is a tree of objects, and stands for `es`. */
    ghost predicate Is(es: seq<Entry>)
      reads this, Repr
      ensures Is(es) ==> this in Repr
      decreases es
    {
      && this in Repr
      && |properties| == |es|
      && (forall i :: 0 <= i < |es| ==> properties[i].key == es[i].key && CellIs(properties[i].cell, es[i].value))
      && (forall i, j | 0 <= i < j < |es| && properties[i].cell.Sub? && properties[j].cell.Sub? ::
            properties[i].cell.map_.Repr !! properties[j].cell.map_.Repr)
    }

    ghost predicate CellIs(cell: Cell, value: Tree)
      reads this, Repr
      decreases value
    {
      match cell
      case Str(t) => value == Text(t)
      case Sub(m) => value.Branch? && m in Repr && m.Repr <= Repr && this !in m.Repr && m.Is(value.entries)
    }

    /** The position of the property `key`, or their number. */
    method IndexOf(key: string, ghost es: seq<Entry>) returns (k: nat)
      requires Is(es)
      ensures k == Find(es, key)
    {
      k := 0;
      while k < |properties| && properties[k].key != key
        invariant k <= |properties| && forall i :: 0 <= i < k ==> properties[i].key != key
      {
        k := k + 1;
      }
      FindIs(es, key, k);
    }
  }

  // ---------- an object except for one of its properties ----------

  /** Apart from property number `k`, `o` stands for `es` and consists of `rest`. */
  ghost predicate RestIs(o: TranslationObject, k: nat, es: seq<Entry>, rest: set<TranslationObject>)
    reads o, rest
  {
    && o in rest && rest <= o.Repr
    && |o.properties| == |es|
    && (forall i :: 0 <= i < |es| && i != k ==>
          o.properties[i].key == es[i].key && CellRests(o, o.properties[i].cell, es[i].value, rest))
    && (forall i, j | 0 <= i < j < |es| && o.properties[i].cell.Sub? && o.properties[j].cell.Sub? ::
          i != k && j != k ==> o.properties[i].cell.map_.Repr !! o.properties[j].cell.map_.Repr)
  }

  ghost predicate CellRests(o: TranslationObject, cell: Cell, value: Tree, rest: set<TranslationObject>)
    reads o, rest
  {
    match cell
    case Str(t) => value == Text(t)
    case Sub(m) => value.Branch? && m in rest && m.Repr <= rest && o !in m.Repr && m.Is(value.entries)
  }

  ghost function RestOf(o: TranslationObject, k: nat): set<TranslationObject>
    reads o, o.Repr
  {
    if k < |o.properties| && o.properties[k].cell.Sub? && o.properties[k].cell.map_ in o.Repr
    then o.Repr - o.properties[k].cell.map_.Repr else o.Repr
  }

  lemma {:induction false} RestApart(o: TranslationObject, k: nat, es: seq<Entry>)
    requires o.Is(es)
    ensures RestIs(o, k, es, RestOf(o, k))
  {
    assert forall i | 0 <= i < |es| && o.properties[i].cell.Sub? :: o.CellIs(o.properties[i].cell, es[i].value);
  }

  /** The rest and a fitting property number `k` make up the object. */
  lemma {:induction false} Assembled(o: TranslationObject, k: nat, es: seq<Entry>, rest: set<TranslationObject>, e: Entry)
    requires RestIs(o, k, es, rest) && k < |es| && o.properties[k].key == e.key
    requires match o.properties[k].cell
             case Str(t) => e.value == Text(t)
             case Sub(m) => e.value.Branch? && m.Is(e.value.entries) && m.Repr <= o.Repr && rest !! m.Repr
    ensures o.Is(es[k := e])
  {
    var es1 := es[k := e];
    forall i | 0 <= i < |es1| ensures o.properties[i].key == es1[i].key && o.CellIs(o.properties[i].cell, es1[i].value) {
      if i != k {
        assert CellRests(o, o.properties[i].cell, es[i].value, rest);
      }
    }
  }

  /** `o[key] = cell`: property number `k` is replaced, or a new last one added. */
  method Assign(o: TranslationObject, k: nat, key: string, cell: Cell, ghost es: seq<Entry>)
      returns (ghost es1: seq<Entry>, ghost rest: set<TranslationObject>)
    requires o.Is(es) && k == Find(es, key)
    requires cell.Sub? ==> cell.map_.Is([]) && cell.map_.Repr !! o.Repr
    modifies o
    ensures k < |o.properties| && o.properties[k] == Property(key, cell)
    ensures RestIs(o, k, es1, rest) && rest == old(RestOf(o, k)) && o.Repr == old(o.Repr)
    ensures forall value :: es1[k := Entry(key, value)] == Put(es, key, value)
    ensures |es1| > k
  {
    RestApart(o, k, es);
    es1, rest := es, RestOf(o, k);
    if k < |o.properties| {
      o.properties := o.properties[k := Property(key, cell)];
    } else {
      o.properties := o.properties + [Property(key, cell)];
      es1 := es + [Entry(key, Text(""))];
    }
  }

  // ---------- setting a nested value ----------

  /** One object on the way to the place of the assignment: all of it but property number `k`, which holds
      the next object on the way. */
  datatype Level = Level(o: TranslationObject, k: nat, es: seq<Entry>, rest: set<TranslationObject>)

  /** Giving `lv.o` a new object under `key` amounts to that assignment on `es`. */
  ghost predicate LevelOk(lv: Level, es: seq<Entry>, key: string, next: TranslationObject)
    reads lv.o, lv.rest
  {
    && RestIs(lv.o, lv.k, lv.es, lv.rest)
    && lv.k < |lv.es| && lv.o.properties[lv.k] == Property(key, Sub(next))
    && forall value :: lv.es[lv.k := Entry(key, value)] == Put(es, key, value)
  }

  /** The entries at depth `j` on the way. */
  ghost function SubAt(es: seq<Entry>, parts: seq<string>, j: nat): seq<Entry>
    requires j <= |parts|
  {
    if j == 0 then es else Child(SubAt(es, parts, j - 1), parts[j - 1])
  }

  /** The body of the loop: go to the object under `key`, putting a new empty one there if there is none. */
  method Descend(cursor: TranslationObject, key: string, ghost es: seq<Entry>)
      returns (next: TranslationObject, ghost lv: Level)
    requires cursor.Is(es)
    modifies cursor
    ensures lv.o == cursor && LevelOk(lv, es, key, next) && next.Is(Child(es, key))
    ensures lv.rest !! next.Repr && lv.rest <= old(cursor.Repr)
    ensures next.Repr <= old(cursor.Repr) || fresh(next.Repr)
  {
    var k := cursor.IndexOf(key, es);
    if k < |cursor.properties| {
      assert cursor.CellIs(cursor.properties[k].cell, es[k].value);
      if cursor.properties[k].cell.Sub? {
        next := cursor.properties[k].cell.map_;
        RestApart(cursor, k, es);
        lv := Level(cursor, k, es, RestOf(cursor, k));
        return;
      }
    }
    next := new TranslationObject();
    ghost var es1, rest := Assign(cursor, k, key, Sub(next), es);
    lv := Level(cursor, k, es1, rest);
  }

  /** Way back: the object of a level takes in what the next one has become. */
  ghost method Ascend(lv: Level, es: seq<Entry>, key: string, next: TranslationObject, below: seq<Entry>)
    requires LevelOk(lv, es, key, next) && next.Is(below) && lv.rest !! next.Repr
    modifies lv.o`Repr
    ensures lv.o.Is(Put(es, key, Branch(below))) && lv.o.Repr == lv.rest + next.Repr
  {
    lv.o.Repr := lv.rest + next.Repr;
    Assembled(lv.o, lv.k, lv.es, lv.rest, Entry(key, Branch(below)));
  }

  function NextOn(levels: seq<Level>, j: nat, cursor: TranslationObject): TranslationObject {
    if j + 1 < |levels| then levels[j + 1].o else cursor
  }

  /** What the object at depth `j` on the way becomes. */
  ghost function SetFrom(es: seq<Entry>, parts: seq<string>, j: nat, text: string): seq<Entry>
    requires j <= |parts|
  {
    SetPath(SubAt(es, parts, j), parts[j..], text)
  }

  lemma {:induction false} SetFromStep(es: seq<Entry>, parts: seq<string>, j: nat, text: string)
    requires j < |parts|
    ensures SetFrom(es, parts, j, text) == Put(SubAt(es, parts, j), parts[j],
              if j + 1 == |parts| then Text(text) else Branch(SetFrom(es, parts, j + 1, text)))
  {
    assert parts[j..][1..] == parts[j + 1..];
  }

  /** The levels passed on the way from the root to `cursor`: they share no object, and together they
      consist of `behind`. */
  ghost predicate Levels(levels: seq<Level>, es: seq<Entry>, parts: seq<string>, cursor: TranslationObject,
                         behind: set<TranslationObject>)
    reads behind
  {
    && |levels| <= |parts|
    && (forall j :: 0 <= j < |levels| ==> levels[j].o in levels[j].rest && levels[j].rest <= behind)
    && (forall j :: 0 <= j < |levels| ==>
          LevelOk(levels[j], SubAt(es, parts, j), parts[j], NextOn(levels, j, cursor)))
    && (forall i, j :: 0 <= i < j < |levels| ==> levels[i].rest !! levels[j].rest)
  }

  lemma {:induction false} LevelsPush(levels: seq<Level>, es: seq<Entry>, parts: seq<string>, lv: Level, next: TranslationObject,
                   behind: set<TranslationObject>)
    requires Levels(levels, es, parts, lv.o, behind) && |levels| < |parts| && behind !! lv.rest
    requires LevelOk(lv, SubAt(es, parts, |levels|), parts[|levels|], next)
    ensures Levels(levels + [lv], es, parts, next, behind + lv.rest)
  {
    hide LevelOk, SubAt;
    LevelInside(lv, SubAt(es, parts, |levels|), parts[|levels|], next);
    var levels1 := levels + [lv];
    forall j | 0 <= j < |levels1|
      ensures LevelOk(levels1[j], SubAt(es, parts, j), parts[j], NextOn(levels1, j, next))
    {
      if j < |levels| {
        assert NextOn(levels1, j, next) == NextOn(levels, j, lv.o);
      }
    }
  }

  lemma {:induction false} LevelsPop(levels: seq<Level>, es: seq<Entry>, parts: seq<string>, cursor: TranslationObject,
                  behind: set<TranslationObject>)
    requires Levels(levels, es, parts, cursor, behind) && |levels| > 0
    ensures var n := |levels| - 1; var lv := levels[n];
            && n < |parts| && lv.o in lv.rest && lv.rest <= behind
            && LevelOk(lv, SubAt(es, parts, n), parts[n], cursor)
            && Levels(levels[..n], es, parts, lv.o, behind - lv.rest)
  {
    hide LevelOk, SubAt;
    var n := |levels| - 1;
    var lv, levels1 := levels[n], levels[..n];
    forall j | 0 <= j < n
      ensures LevelOk(levels1[j], SubAt(es, parts, j), parts[j], NextOn(levels1, j, lv.o))
    {
      assert NextOn(levels1, j, lv.o) == NextOn(levels, j, cursor);
    }
  }

  lemma {:induction false} LevelInside(lv: Level, es: seq<Entry>, key: string, next: TranslationObject)
    requires LevelOk(lv, es, key, next)
    ensures lv.o in lv.rest
  {
  }

  /** All the way back from the place of the assignment to the root. */
  ghost method GoUp(root: TranslationObject, levels: seq<Level>, es: seq<Entry>, parts: seq<string>,
                    cursor: TranslationObject, behind: set<TranslationObject>, text: string)
    requires |levels| < |parts| && Levels(levels, es, parts, cursor, behind) && behind !! cursor.Repr
    requires cursor.Is(SetFrom(es, parts, |levels|, text))
    requires root == if levels == [] then cursor else levels[0].o
    modifies behind
    ensures root.Is(SetPath(es, parts, text)) && root.Repr <= old(behind + cursor.Repr)
    decreases |levels|
  {
    hide LevelOk, Levels, TranslationObject.Is, SetPath, SubAt, SetFrom;
    if levels == [] {
      SetFromRoot(es, parts, text);
    } else {
      var n := |levels| - 1;
      var lv := levels[n];
      LevelsPop(levels, es, parts, cursor, behind);
      SetFromStep(es, parts, n, text);
      Ascend(lv, SubAt(es, parts, n), parts[n], cursor, SetFrom(es, parts, n + 1, text));
      GoUp(root, levels[..n], es, parts, lv.o, behind - lv.rest, text);
    }
  }

  lemma {:induction false} SetFromRoot(es: seq<Entry>, parts: seq<string>, text: string)
    ensures SetFrom(es, parts, 0, text) == SetPath(es, parts, text)
  {
    assert parts[0..] == parts;
  }

  /** `setNestedValue`, in place: the objects on the way are created where missing or replaced by text. */
  method SetNestedValue(root: TranslationObject, dottedKey: string, value: string, ghost es: seq<Entry>)
    requires root.Is(es)
    modifies root.Repr
    ensures root.Is(SetPath(es, Split(dottedKey), value))
    ensures forall o :: o in root.Repr ==> o in old(root.Repr) || fresh(o)
  {
    hide LevelOk, Levels, TranslationObject.Is, Put, Child, SetPath, SetFrom;
    var parts := Split(dottedKey);
    var cursor := root;
    var index := 0;
    ghost var levels: seq<Level>, behind := [], {};
    ghost var footprint := root.Repr;
    LevelsStart(es, parts, root);
    while index < |parts| - 1
      invariant index == |levels| < |parts|
      invariant cursor.Is(SubAt(es, parts, index))
      invariant Levels(levels, es, parts, cursor, behind) && behind !! cursor.Repr
      invariant root == if levels == [] then cursor else levels[0].o
      invariant forall o :: o in behind + cursor.Repr ==> o in footprint || fresh(o)
    {
      IsInside(cursor, SubAt(es, parts, index));
      var next; ghost var lv;
      next, lv := Descend(cursor, parts[index], SubAt(es, parts, index));
      SubAtNext(es, parts, index);
      LevelsPush(levels, es, parts, lv, next, behind);
      levels, behind := levels + [lv], behind + lv.rest;
      cursor := next;
      index := index + 1;
    }
    SetLast(cursor, parts[index], value, SubAt(es, parts, index));
    SetFromStep(es, parts, index, value);
    GoUp(root, levels, es, parts, cursor, behind, value);
  }

  /** `cursor[parts.at(-1)] = value` */
  method SetLast(cursor: TranslationObject, key: string, value: string, ghost es: seq<Entry>)
    requires cursor.Is(es)
    modifies cursor
    ensures cursor.Is(Put(es, key, Text(value))) && cursor.Repr == old(cursor.Repr)
  {
    var k := cursor.IndexOf(key, es);
    ghost var es1, rest := Assign(cursor, k, key, Str(value), es);
    Assembled(cursor, k, es1, rest, Entry(key, Text(value)));
  }

  lemma {:induction false} LevelsStart(es: seq<Entry>, parts: seq<string>, root: TranslationObject)
    ensures Levels([], es, parts, root, {}) && SubAt(es, parts, 0) == es
  {
  }

  lemma {:induction false} SubAtNext(es: seq<Entry>, parts: seq<string>, j: nat)
    requires j < |parts|
    ensures SubAt(es, parts, j + 1) == Child(SubAt(es, parts, j), parts[j])
  {
  }

  lemma {:induction false} IsInside(o: TranslationObject, es: seq<Entry>)
    requires o.Is(es)
    ensures o in o.Repr
  {
  }

  // ---------- flattening ----------

  /** A `Map<string, string>`: iteration follows the first insertion of each name. */
  class StringMap {
    var entries: seq<Named>

    constructor ()
      ensures entries == []
    {
      entries := [];
    }

    method Set(name: string, text: string)
      modifies this
      ensures entries == PutName(old(entries), name, text)
    {
      var k := 0;
      while k < |entries| && entries[k].name != name
        invariant k <= |entries| && forall i :: 0 <= i < k ==> entries[i].name != name
      {
        k := k + 1;
      }
      FindNameIs(entries, name, k);
      entries := if k < |entries| then entries[k := Named(name, text)] else entries + [Named(name, text)];
    }
  }

  /** `flattenTranslations` */
  method FlattenTranslations(value: TranslationObject, prefix: string, out: StringMap, ghost es: seq<Entry>)
    requires value.Is(es)
    modifies out
    ensures out.entries == PutAllNames(old(out.entries), FlattenText(es, prefix))
    decreases es
  {
    for i := 0 to |value.properties|
      invariant value.Is(es)
      invariant out.entries == PutAllNames(old(out.entries), FlattenText(es[..i], prefix))
    {
      var property := value.properties[i];
      assert value.CellIs(property.cell, es[i].value);
      var fullKey := FullKey(prefix, property.key);
      FlattenTextSnoc(es, i, prefix);
      PutAllConcat(old(out.entries), FlattenText(es[..i], prefix), FlattenTextEntry(es[i], prefix));
      match property.cell {
        case Str(text) =>
          PutAllOne(out.entries, Named(fullKey, text));
          out.Set(fullKey, text);
        case Sub(nested) =>
          FlattenTranslations(nested, fullKey, out, es[i].value.entries);
      }
    }
    assert es[..|es|] == es;
  }

  /** On an empty map, the names of a well-formed object arrive as they are. */
  method FlattenAll(value: TranslationObject, ghost es: seq<Entry>) returns (out: StringMap)
    requires value.Is(es) && WellFormed(es)
    ensures fresh(out) && out.entries == FlattenText(es, "")
  {
    out := new StringMap();
    FlattenTranslations(value, "", out, es);
    NamesDistinct(es);
    PutAllDistinct([], FlattenText(es, ""));
  }
}
