/** The check of the build numbers in the update feed. */
module Appcast {
  import opened Options
  import opened Sorting
  import opened SparkleBuild

  const LANE_FLOOR_ADOPTION_DATE_KEY := 20260227

  /** What is taken out of one item of the feed. */
  datatype Item = Item(title: Option<string>, shortVersion: Option<string>, sparkleVersion: Option<string>)

  datatype Problem =
    | NoItems
    | MissingVersion(title: string)
    | NonNumeric(title: string, version: string)
    | BelowFloor(title: string, build: nat, lane: bool, floor: nat)

  datatype CalverItem = CalverItem(title: string, sparkleBuild: nat, floors: Floors)

  function TitleOf(item: Item): string {
    if item.title.Some? then item.title.value else "unknown"
  }

  predicate HasVersion(item: Item) {
    item.sparkleVersion.Some? && item.sparkleVersion.value != ""
  }

  predicate HasBuild(item: Item) {
    HasVersion(item) && AllDigits(item.sparkleVersion.value)
  }

  function Build(item: Item): nat
    requires HasBuild(item)
  {
    ParseNumber(item.sparkleVersion.value)
  }

  /** The item takes part in the comparison: its short version is a calendar version. */
  predicate IsDatedItem(item: Item) {
    HasBuild(item) && item.shortVersion.Some? && item.shortVersion.value != ""
    && FloorsFromShortVersion(item.shortVersion.value).Some?
  }

  function FloorsOf(item: Item): Floors
    requires IsDatedItem(item)
  {
    FloorsFromShortVersion(item.shortVersion.value).value
  }

  function Summary(item: Item): CalverItem
    requires IsDatedItem(item)
  {
    CalverItem(TitleOf(item), Build(item), FloorsOf(item))
  }

  // ---------- the first loop ----------

  function FormatProblem(item: Item): seq<Problem> {
    if !HasVersion(item) then [MissingVersion(TitleOf(item))]
    else if !HasBuild(item) then [NonNumeric(TitleOf(item), item.sparkleVersion.value)]
    else []
  }

  function FormatProblems(items: seq<Item>): (r: seq<Problem>)
    ensures r == [] <==> forall i :: 0 <= i < |items| ==> HasBuild(items[i])
  {
    if items == [] then []
    else
      var n := |items| - 1;
      assert forall i :: 0 <= i < n ==> items[..n][i] == items[i];
      FormatProblems(items[..n]) + FormatProblem(items[n])
  }

  function DatedItem(item: Item): seq<CalverItem> {
    if IsDatedItem(item) then [Summary(item)] else []
  }

  function DatedItems(items: seq<Item>): seq<CalverItem> {
    if items == [] then [] else DatedItems(items[..|items| - 1]) + DatedItem(items[|items| - 1])
  }

  /** The branches of the loop body. */
  lemma {:induction false} ItemCases(item: Item)
    ensures !HasVersion(item) ==> FormatProblem(item) == [MissingVersion(TitleOf(item))]
    ensures HasVersion(item) && !AllDigits(item.sparkleVersion.value) ==>
              FormatProblem(item) == [NonNumeric(TitleOf(item), item.sparkleVersion.value)]
    ensures HasBuild(item) ==> FormatProblem(item) == []
    ensures !IsDatedItem(item) ==> DatedItem(item) == []
    ensures IsDatedItem(item) ==>
              DatedItem(item) == [CalverItem(TitleOf(item), ParseNumber(item.sparkleVersion.value),
                                             FloorsFromShortVersion(item.shortVersion.value).value)]
  {
    hide ParseNumber, FloorsFromShortVersion, AllDigits;
  }

  method ReadItems(items: seq<Item>) returns (errors: seq<Problem>, calverItems: seq<CalverItem>)
    ensures errors == (if items == [] then [NoItems] else []) + FormatProblems(items)
    ensures calverItems == DatedItems(items)
  {
    hide ParseNumber, FloorsFromShortVersion, AllDigits, FormatProblem, DatedItem, TitleOf;
    errors, calverItems := [], [];
    if |items| == 0 {
      errors := errors + [NoItems];
    }
    ghost var before := errors;
    for i := 0 to |items|
      invariant errors == before + FormatProblems(items[..i])
      invariant calverItems == DatedItems(items[..i])
    {
      assert items[..i + 1][..i] == items[..i];
      ItemCases(items[i]);
      var title := TitleOf(items[i]);
      var sparkleVersion := items[i].sparkleVersion;
      if sparkleVersion.None? || sparkleVersion.value == "" {
        errors := errors + [MissingVersion(title)];
        continue;
      }
      if !AllDigits(sparkleVersion.value) {
        errors := errors + [NonNumeric(title, sparkleVersion.value)];
        continue;
      }
      if items[i].shortVersion.None? || items[i].shortVersion.value == "" {
        continue;
      }
      var floors := FloorsFromShortVersion(items[i].shortVersion.value);
      if floors.None? {
        continue;
      }
      calverItems := calverItems + [CalverItem(title, ParseNumber(sparkleVersion.value), floors.value)];
    }
    assert items[..|items|] == items;
  }

  // ---------- the adoption date ----------

  function LaneDates(calverItems: seq<CalverItem>): seq<int> {
    if calverItems == [] then []
    else
      var item := calverItems[|calverItems| - 1];
      LaneDates(calverItems[..|calverItems| - 1]) +
      if item.sparkleBuild >= LANE_BUILD_MIN then [item.floors.dateKey] else []
  }

  predicate IsLaneDate(item: CalverItem, date: int) {
    item.sparkleBuild >= LANE_BUILD_MIN && item.floors.dateKey == date
  }

  lemma {:induction false} LaneDateIff(calverItems: seq<CalverItem>, date: int)
    ensures date in LaneDates(calverItems) <==> exists i :: 0 <= i < |calverItems| && IsLaneDate(calverItems[i], date)
  {
    if calverItems == [] {
    } else {
      var n := |calverItems| - 1;
      LaneDateIff(calverItems[..n], date);
      assert forall i :: 0 <= i < n ==> calverItems[..n][i] == calverItems[i];
    }
  }

  function AtMost(): (int, int) -> bool {
    (a: int, b: int) => a <= b
  }

  /** The earliest date of an item with a lane number, or the fixed adoption date if that is earlier. */
  function AdoptionDate(calverItems: seq<CalverItem>): int {
    var sorted := SortBy(AtMost(), LaneDates(calverItems));
    if sorted != [] && sorted[0] < LANE_FLOOR_ADOPTION_DATE_KEY then sorted[0] else LANE_FLOOR_ADOPTION_DATE_KEY
  }

  lemma {:induction false} AdoptionDateIsLeast(calverItems: seq<CalverItem>)
    ensures var date := AdoptionDate(calverItems);
            && date <= 20260227
            && (forall i :: 0 <= i < |calverItems| && calverItems[i].sparkleBuild >= 1_000_000_000 ==>
                  date <= calverItems[i].floors.dateKey)
            && (date == 20260227 ||
                exists i :: 0 <= i < |calverItems| && calverItems[i].sparkleBuild >= 1_000_000_000
                            && calverItems[i].floors.dateKey == date)
  {
    hide LaneDates;
    var date := AdoptionDate(calverItems);
    LeastLaneDate(calverItems);
    forall i | 0 <= i < |calverItems| && calverItems[i].sparkleBuild >= 1_000_000_000
      ensures date <= calverItems[i].floors.dateKey
    {
      LaneDateIff(calverItems, calverItems[i].floors.dateKey);
      assert IsLaneDate(calverItems[i], calverItems[i].floors.dateKey);
    }
    if date != 20260227 {
      LaneDateIff(calverItems, date);
      var i :| 0 <= i < |calverItems| && IsLaneDate(calverItems[i], date);
    }
  }

  lemma {:induction false} LeastLaneDate(calverItems: seq<CalverItem>)
    ensures var date := AdoptionDate(calverItems);
            && date <= LANE_FLOOR_ADOPTION_DATE_KEY
            && (forall d :: d in LaneDates(calverItems) ==> date <= d)
            && (date == LANE_FLOOR_ADOPTION_DATE_KEY || date in LaneDates(calverItems))
  {
    hide SortBy, LaneDates;
    var dates := LaneDates(calverItems);
    var sorted := SortBy(AtMost(), dates);
    SortBySorted(AtMost(), dates);
    SameElements(dates, sorted);
    forall d | d in dates ensures AdoptionDate(calverItems) <= d {
      assert d in sorted;
      var i :| 0 <= i < |sorted| && sorted[i] == d;
      assert i > 0 ==> AtMost()(sorted[0], sorted[i]);
    }
    assert sorted != [] ==> sorted[0] in sorted;
  }

  // ---------- the second loop ----------

  function FloorFor(item: CalverItem, adoption: int): (bool, nat) {
    var lane := item.sparkleBuild >= LANE_BUILD_MIN || item.floors.dateKey >= adoption;
    (lane, if lane then item.floors.laneFloor else item.floors.legacyFloor)
  }

  predicate MeetsFloor(item: CalverItem, adoption: int) {
    item.sparkleBuild >= FloorFor(item, adoption).1
  }

  function FloorProblems(calverItems: seq<CalverItem>, adoption: int): (r: seq<Problem>)
    ensures r == [] <==> forall i :: 0 <= i < |calverItems| ==> MeetsFloor(calverItems[i], adoption)
  {
    if calverItems == [] then []
    else
      var n := |calverItems| - 1;
      var item := calverItems[n];
      assert forall i :: 0 <= i < n ==> calverItems[..n][i] == calverItems[i];
      FloorProblems(calverItems[..n], adoption) +
      if MeetsFloor(item, adoption) then []
      else [BelowFloor(item.title, item.sparkleBuild, FloorFor(item, adoption).0, FloorFor(item, adoption).1)]
  }

  /** Everything the check reports, in order. */
  function Report(items: seq<Item>): seq<Problem> {
    (if items == [] then [NoItems] else []) + FormatProblems(items)
    + FloorProblems(DatedItems(items), AdoptionDate(DatedItems(items)))
  }

  /** `collectAppcastSparkleVersionErrors`, once the items are extracted. */
  method CollectErrors(items: seq<Item>) returns (errors: seq<Problem>)
    ensures errors == Report(items)
  {
    hide FormatProblems, FloorProblems, DatedItems, LaneDates, MeetsFloor, SortBy;
    var calverItems;
    errors, calverItems := ReadItems(items);
    var laneDates := CollectLaneDates(calverItems);
    var sorted := SortBy(AtMost(), laneDates);
    var adoption :=
      if |sorted| > 0 && sorted[0] < LANE_FLOOR_ADOPTION_DATE_KEY then sorted[0] else LANE_FLOOR_ADOPTION_DATE_KEY;
    var more := CompareWithFloors(calverItems, adoption);
    errors := errors + more;
  }

  method CollectLaneDates(calverItems: seq<CalverItem>) returns (dates: seq<int>)
    ensures dates == LaneDates(calverItems)
  {
    dates := [];
    for i := 0 to |calverItems|
      invariant dates == LaneDates(calverItems[..i])
    {
      assert calverItems[..i + 1][..i] == calverItems[..i];
      if calverItems[i].sparkleBuild >= LANE_BUILD_MIN {
        dates := dates + [calverItems[i].floors.dateKey];
      }
    }
    assert calverItems[..|calverItems|] == calverItems;
  }

  method CompareWithFloors(calverItems: seq<CalverItem>, adoption: int) returns (errors: seq<Problem>)
    ensures errors == FloorProblems(calverItems, adoption)
  {
    errors := [];
    for i := 0 to |calverItems|
      invariant errors == FloorProblems(calverItems[..i], adoption)
    {
      assert calverItems[..i + 1][..i] == calverItems[..i];
      var item := calverItems[i];
      var expectLaneFloor := item.sparkleBuild >= LANE_BUILD_MIN || item.floors.dateKey >= adoption;
      var floor := if expectLaneFloor then item.floors.laneFloor else item.floors.legacyFloor;
      if item.sparkleBuild < floor {
        errors := errors + [BelowFloor(item.title, item.sparkleBuild, expectLaneFloor, floor)];
      }
    }
    assert calverItems[..|calverItems|] == calverItems;
  }

  // ---------- what a feed without problems is ----------

  /** From the date `adoption` on builds are at or above their lane floor; before it they are legacy numbers at or
      above theirs. */
  ghost predicate Banded(item: Item, adoption: int)
    requires IsDatedItem(item)
  {
    var floors := FloorsOf(item);
    if floors.dateKey >= adoption then Build(item) >= floors.laneFloor
    else floors.legacyFloor <= Build(item) < 1_000_000_000
  }

  ghost predicate AllBanded(items: seq<Item>, adoption: int) {
    forall i :: 0 <= i < |items| && IsDatedItem(items[i]) ==> Banded(items[i], adoption)
  }

  lemma {:induction false} DatedItemsAre(items: seq<Item>, c: CalverItem)
    ensures c in DatedItems(items) <==> exists i :: 0 <= i < |items| && IsDatedItem(items[i]) && c == Summary(items[i])
  {
    hide IsDatedItem, Summary;
    if items == [] {
    } else {
      var n := |items| - 1;
      DatedItemsAre(items[..n], c);
      assert forall i :: 0 <= i < n ==> items[..n][i] == items[i];
    }
  }

  /** The check passes exactly if there are items, all builds are numeric, and some date not after the fixed one
      separates legacy numbers from lane numbers, each at or above its floor.  The order of the items and their
      titles do not matter. */
  lemma {:induction false} CheckPassesIff(items: seq<Item>)
    ensures Report(items) == [] <==>
              && items != [] && (forall i :: 0 <= i < |items| ==> HasBuild(items[i]))
              && exists adoption :: adoption <= 20260227 && AllBanded(items, adoption)
  {
    hide AdoptionDate, AllBanded, DatedItems, MeetsFloor, HasBuild;
    var calverItems := DatedItems(items);
    var date := AdoptionDate(calverItems);
    LeastLaneDate(calverItems);
    if forall i :: 0 <= i < |calverItems| ==> MeetsFloor(calverItems[i], date) {
      FloorsMetBand(items);
      assert date <= 20260227 && AllBanded(items, date);
    }
    if adoption :| adoption <= 20260227 && AllBanded(items, adoption) {
      BandedMeetFloors(items, adoption);
    }
  }

  lemma {:induction false} FloorsMetBand(items: seq<Item>)
    requires forall i :: 0 <= i < |DatedItems(items)| ==> MeetsFloor(DatedItems(items)[i], AdoptionDate(DatedItems(items)))
    ensures AllBanded(items, AdoptionDate(DatedItems(items)))
  {
    hide AdoptionDate, DatedItems, IsDatedItem, Build, FloorsOf, LaneDates;
    var calverItems := DatedItems(items);
    LeastLaneDate(calverItems);
    forall i | 0 <= i < |items| && IsDatedItem(items[i]) ensures Banded(items[i], AdoptionDate(calverItems)) {
      var c := Summary(items[i]);
      DatedItemsAre(items, c);
      LaneDateIff(calverItems, c.floors.dateKey);
      var k :| 0 <= k < |calverItems| && calverItems[k] == c;
      assert MeetsFloor(calverItems[k], AdoptionDate(calverItems));
      assert IsLaneDate(c, c.floors.dateKey) ==> c.floors.dateKey in LaneDates(calverItems);
    }
  }

  lemma {:induction false} BandedMeetFloors(items: seq<Item>, adoption: int)
    requires adoption <= 20260227 && AllBanded(items, adoption)
    ensures forall i :: 0 <= i < |DatedItems(items)| ==> MeetsFloor(DatedItems(items)[i], AdoptionDate(DatedItems(items)))
  {
    hide AdoptionDate, DatedItems, LaneDates;
    var calverItems := DatedItems(items);
    var date := AdoptionDate(calverItems);
    LeastLaneDate(calverItems);
    assert adoption <= date by {
      if date in LaneDates(calverItems) {
        LaneDateIff(calverItems, date);
        var k :| 0 <= k < |calverItems| && IsLaneDate(calverItems[k], date);
        BandOf(items, adoption, calverItems[k]);
      }
    }
    forall k | 0 <= k < |calverItems| ensures MeetsFloor(calverItems[k], date) {
      BandOf(items, adoption, calverItems[k]);
    }
  }

  lemma {:induction false} BandOf(items: seq<Item>, adoption: int, c: CalverItem)
    requires AllBanded(items, adoption) && c in DatedItems(items)
    ensures c.floors.legacyFloor <= c.floors.laneFloor
    ensures if c.floors.dateKey >= adoption then c.sparkleBuild >= c.floors.laneFloor
            else c.floors.legacyFloor <= c.sparkleBuild < 1_000_000_000
  {
    hide DatedItems, IsDatedItem, Build, FloorsOf;
    DatedItemsAre(items, c);
    var i :| 0 <= i < |items| && IsDatedItem(items[i]) && c == Summary(items[i]);
    FloorsOrdered(items[i]);
  }

  lemma {:induction false} FloorsOrdered(item: Item)
    requires IsDatedItem(item)
    ensures FloorsOf(item).legacyFloor <= FloorsOf(item).laneFloor
  {
    hide FloorsFromShortVersion, Dated;
    var v := FloorsHaveDate(item.shortVersion.value);
    FloorBands(item.shortVersion.value, v);
  }

  // ---------- what is reported ----------

  /** An item of a feed whose build is not at or above its floor: that of its lane if the build is a lane number
      or the date is not before `adoption`, else the legacy one. */
  ghost predicate TooLow(item: Item, adoption: int, p: Problem) {
    && IsDatedItem(item)
    && var floors, build := FloorsOf(item), Build(item);
       var lane := build >= 1_000_000_000 || floors.dateKey >= adoption;
       var floor := if lane then floors.laneFloor else floors.legacyFloor;
       build < floor && p == BelowFloor(TitleOf(item), build, lane, floor)
  }

  /** An item without a build number, or with one that is not made of digits. */
  ghost predicate BadFormat(item: Item, p: Problem) {
    if item.sparkleVersion.None? || item.sparkleVersion.value == "" then p == MissingVersion(TitleOf(item))
    else !AllDigits(item.sparkleVersion.value) && p == NonNumeric(TitleOf(item), item.sparkleVersion.value)
  }

  lemma {:induction false} OneReported(item: Item, p: Problem)
    ensures p in FormatProblem(item) <==> BadFormat(item, p)
  {
    hide AllDigits, TitleOf;
  }

  lemma {:induction false} FormatSnoc(items: seq<Item>)
    ensures FormatProblems([]) == []
    ensures items != [] ==>
              FormatProblems(items) == FormatProblems(items[..|items| - 1]) + FormatProblem(items[|items| - 1])
  {
    hide FormatProblem, HasBuild;
  }

  lemma {:induction false} FormatReported(items: seq<Item>, p: Problem)
    ensures p in FormatProblems(items) <==> exists i :: 0 <= i < |items| && BadFormat(items[i], p)
  {
    hide BadFormat, FormatProblem, FormatProblems, HasBuild;
    FormatSnoc(items);
    if items == [] {
    } else {
      var n := |items| - 1;
      FormatReported(items[..n], p);
      OneReported(items[n], p);
      if i :| 0 <= i < n && BadFormat(items[i], p) {
        assert items[..n][i] == items[i];
      }
      if i :| 0 <= i < n && BadFormat(items[..n][i], p) {
        assert items[..n][i] == items[i];
      }
    }
  }

  ghost predicate LowItem(c: CalverItem, adoption: int, p: Problem) {
    var lane := c.sparkleBuild >= 1_000_000_000 || c.floors.dateKey >= adoption;
    var floor := if lane then c.floors.laneFloor else c.floors.legacyFloor;
    c.sparkleBuild < floor && p == BelowFloor(c.title, c.sparkleBuild, lane, floor)
  }

  lemma {:induction false} OneTooLow(c: CalverItem, adoption: int, p: Problem)
    ensures LowItem(c, adoption, p) <==>
              !MeetsFloor(c, adoption)
              && p == BelowFloor(c.title, c.sparkleBuild, FloorFor(c, adoption).0, FloorFor(c, adoption).1)
  {
  }

  lemma {:induction false} FloorReported(calverItems: seq<CalverItem>, adoption: int, p: Problem)
    ensures p in FloorProblems(calverItems, adoption) <==>
            exists i :: 0 <= i < |calverItems| && LowItem(calverItems[i], adoption, p)
  {
    if calverItems == [] {
    } else {
      var n := |calverItems| - 1;
      FloorReported(calverItems[..n], adoption, p);
      OneTooLow(calverItems[n], adoption, p);
      hide LowItem, MeetsFloor, FloorFor;
      assert forall i :: 0 <= i < n ==> calverItems[..n][i] == calverItems[i];
    }
  }

  /** Exactly what the check reports: an empty feed, items without a proper build number, and dated items whose
      build is too low. */
  lemma {:induction false} ReportedIff(items: seq<Item>, p: Problem)
    ensures p in Report(items) <==>
              || (items == [] && p == NoItems)
              || (exists i :: 0 <= i < |items| && BadFormat(items[i], p))
              || (exists i :: 0 <= i < |items| && TooLow(items[i], AdoptionDate(DatedItems(items)), p))
  {
    hide FormatProblems, FloorProblems, DatedItems, AdoptionDate, IsDatedItem, Build, FloorsOf, BadFormat, TitleOf;
    var calverItems, adoption := DatedItems(items), AdoptionDate(DatedItems(items));
    FormatReported(items, p);
    FloorReported(calverItems, adoption, p);
    if i :| 0 <= i < |items| && TooLow(items[i], adoption, p) {
      DatedItemsAre(items, Summary(items[i]));
      var k :| 0 <= k < |calverItems| && calverItems[k] == Summary(items[i]);
      assert LowItem(calverItems[k], adoption, p);
    }
    if k :| 0 <= k < |calverItems| && LowItem(calverItems[k], adoption, p) {
      DatedItemsAre(items, calverItems[k]);
      var i :| 0 <= i < |items| && IsDatedItem(items[i]) && calverItems[k] == Summary(items[i]);
      assert TooLow(items[i], adoption, p);
    }
  }

  // ---------- order of the items ----------

  /** In a feed that passes, an item dated on or after one with a lane number is itself at or above its lane floor,
      wherever the two stand. */
  lemma {:induction false} LanesAreUpwardClosed(items: seq<Item>, i: nat, j: nat)
    requires Report(items) == []
    requires i < |items| && IsDatedItem(items[i]) && Build(items[i]) >= 1_000_000_000
    requires j < |items| && IsDatedItem(items[j]) && FloorsOf(items[j]).dateKey >= FloorsOf(items[i]).dateKey
    ensures Build(items[j]) >= FloorsOf(items[j]).laneFloor
  {
    hide Report, Build, FloorsOf;
    CheckPassesIff(items);
    var adoption :| adoption <= 20260227 && AllBanded(items, adoption);
    assert Banded(items[i], adoption) && Banded(items[j], adoption);
  }
}
