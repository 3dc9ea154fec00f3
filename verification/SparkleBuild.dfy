/** Build numbers of the desktop application, derived from calendar versions. */
module SparkleBuild {
  import opened Options
  import opened Whitespace

  datatype Floors = Floors(dateKey: nat, legacyFloor: nat, laneFloor: nat, lane: nat)

  // ---------- decimal numerals ----------

  predicate IsDigit(c: char) {
    '0' <= c <= '9'
  }

  predicate AllDigits(s: string) {
    forall i :: 0 <= i < |s| ==> IsDigit(s[i])
  }

  /** `Number.parseInt(s, 10)` */
  function ParseNumber(s: string): nat
    requires AllDigits(s)
  {
    if s == [] then 0 else 10 * ParseNumber(s[..|s| - 1]) + (s[|s| - 1] as int - '0' as int)
  }

  function DigitChar(d: nat): (c: char)
    requires d < 10
    ensures IsDigit(c) && c as int - '0' as int == d
  {
    ('0' as int + d) as char
  }

  /** `String(n)` */
  function Numeral(n: nat): (s: string)
    ensures s != [] && AllDigits(s)
  {
    if n < 10 then [DigitChar(n)] else Numeral(n / 10) + [DigitChar(n % 10)]
  }

  /** `String(n).padStart(2, "0")` */
  function Padded(n: nat): (s: string)
    ensures AllDigits(s)
  {
    if |Numeral(n)| < 2 then "0" + Numeral(n) else Numeral(n)
  }

  lemma {:induction false} ParseSnoc(s: string, c: char)
    requires AllDigits(s) && IsDigit(c)
    ensures AllDigits(s + [c]) && ParseNumber(s + [c]) == 10 * ParseNumber(s) + (c as int - '0' as int)
  {
    assert (s + [c])[..|s + [c]| - 1] == s;
  }

  lemma {:induction false} ParseNumeral(n: nat)
    ensures ParseNumber(Numeral(n)) == n
  {
    if n < 10 {
      ParseSnoc("", DigitChar(n));
      assert "" + [DigitChar(n)] == [DigitChar(n)];
    } else {
      ParseNumeral(n / 10);
      ParseSnoc(Numeral(n / 10), DigitChar(n % 10));
    }
  }

  /** Appending a two-digit numeral. */
  lemma {:induction false} ParsePadded(s: string, n: nat)
    requires AllDigits(s) && n < 100
    ensures AllDigits(s + Padded(n)) && ParseNumber(s + Padded(n)) == 100 * ParseNumber(s) + n
  {
    hide ParseNumber;
    var tens, ones := DigitChar(n / 10), DigitChar(n % 10);
    assert Padded(n) == [tens, ones] by {
      PaddedIs(n);
    }
    ParseSnoc(s, tens);
    ParseSnoc(s + [tens], ones);
    assert s + [tens, ones] == s + [tens] + [ones];
  }

  lemma {:induction false} PaddedIs(n: nat)
    requires n < 100
    ensures Padded(n) == [DigitChar(n / 10), DigitChar(n % 10)]
  {
    if n >= 10 {
      assert Numeral(n / 10) == [DigitChar(n / 10)];
    }
  }

  // ---------- calendar versions ----------

  datatype Calver = Calver(year: string, month: string, day: string, suffix: string)

  predicate HasDigits(v: Calver) {
    AllDigits(v.year) && AllDigits(v.month) && AllDigits(v.day)
  }

  predicate IsLineTerminator(c: char) {
    c in {'\n', '\r', '\U{2028}', '\U{2029}'}
  }

  predicate IsSuffix(s: string) {
    s != [] ==> (s[0] == '.' || s[0] == '-') && forall i :: 1 <= i < |s| ==> !IsLineTerminator(s[i])
  }

  ghost predicate Decimal(s: string) {
    forall i :: 0 <= i < |s| ==> '0' <= s[i] <= '9'
  }

  ghost predicate DotOrDash(s: string) {
    && (s != "" ==> s[0] == '.' || s[0] == '-')
    && (forall i :: 1 <= i < |s| ==> s[i] != '\n' && s[i] != '\r' && s[i] != '\U{2028}' && s[i] != '\U{2029}')
  }

  lemma {:induction false} PatternParts(v: Calver)
    ensures Decimal(v.year) && Decimal(v.month) && Decimal(v.day) <==> HasDigits(v)
    ensures DotOrDash(v.suffix) <==> IsSuffix(v.suffix)
  {
  }

  /** The pattern: four digits, a dot, one or two digits, a dot, one or two digits, and perhaps a suffix that starts
      with a dot or a dash. */
  ghost predicate IsCalver(s: string, v: Calver): (r: bool)
    ensures r ==> HasDigits(v)
  {
    && s == v.year + ("." + (v.month + ("." + (v.day + v.suffix))))
    && |v.year| == 4 && 1 <= |v.month| <= 2 && 1 <= |v.day| <= 2
    && Decimal(v.year) && Decimal(v.month) && Decimal(v.day)
    && DotOrDash(v.suffix)
  }

  function DigitRun(s: string): (n: nat)
    ensures n <= |s| && forall i :: 0 <= i < n ==> IsDigit(s[i])
    ensures n < |s| ==> !IsDigit(s[n])
  {
    if s == [] || !IsDigit(s[0]) then 0 else 1 + DigitRun(s[1..])
  }

  function MatchDay(s: string, year: string, month: string): (r: Option<Calver>)
    requires AllDigits(year) && AllDigits(month)
    ensures r.Some? ==> HasDigits(r.value)
  {
    var n := DigitRun(s);
    if n == 0 || n > 2 || !IsSuffix(s[n..]) then None else Some(Calver(year, month, s[..n], s[n..]))
  }

  function MatchMonth(s: string, year: string): (r: Option<Calver>)
    requires AllDigits(year)
    ensures r.Some? ==> HasDigits(r.value)
  {
    var n := DigitRun(s);
    if n == 0 || n > 2 || |s| == n || s[n] != '.' then None else MatchDay(s[n + 1..], year, s[..n])
  }

  function Match(s: string): (r: Option<Calver>)
    ensures r.Some? ==> HasDigits(r.value)
  {
    var n := DigitRun(s);
    if n != 4 || |s| == 4 || s[4] != '.' then None else MatchMonth(s[5..], s[..4])
  }

  lemma {:induction false} DigitRunIs(a: string, b: string)
    requires AllDigits(a) && (b != [] ==> !IsDigit(b[0]))
    ensures DigitRun(a + b) == |a|
  {
    hide DigitRun;
    var s := a + b;
    assert forall i :: 0 <= i < |a| ==> s[i] == a[i];
    assert b != [] ==> s[|a|] == b[0];
    assert DigitRun(s) <= |s|;
  }

  /** The match is the only way to read a string by the pattern. */
  lemma {:induction false} MatchIff(s: string, v: Calver)
    ensures Match(s) == Some(v) <==> IsCalver(s, v)
  {
    if IsCalver(s, v) {
      MatchFinds(s, v);
    }
    if Match(s) == Some(v) {
      MatchReads(s, v);
    }
  }

  lemma {:induction false} MatchFinds(s: string, v: Calver)
    requires IsCalver(s, v)
    ensures Match(s) == Some(v)
  {
    hide DigitRun, AllDigits, IsSuffix, MatchMonth;
    var t := v.month + ("." + (v.day + v.suffix));
    DigitRunIs(v.year, "." + t);
    assert s[5..] == t && s[..4] == v.year;
    MonthFinds(t, v);
  }

  lemma {:induction false} MonthFinds(t: string, v: Calver)
    requires IsCalver(v.year + ("." + t), v) && t == v.month + ("." + (v.day + v.suffix))
    ensures MatchMonth(t, v.year) == Some(v)
  {
    hide DigitRun, AllDigits, IsSuffix, MatchDay;
    var u := v.day + v.suffix;
    DigitRunIs(v.month, "." + u);
    assert t[|v.month| + 1..] == u && t[..|v.month|] == v.month;
    PatternParts(v);
    DayFinds(u, v);
  }

  lemma {:induction false} DayFinds(u: string, v: Calver)
    requires HasDigits(v) && IsSuffix(v.suffix)
    requires 1 <= |v.day| <= 2 && u == v.day + v.suffix
    ensures MatchDay(u, v.year, v.month) == Some(v)
  {
    hide DigitRun, AllDigits, IsSuffix;
    SuffixStart(v.suffix);
    DigitRunIs(v.day, v.suffix);
    assert u[|v.day|..] == v.suffix && u[..|v.day|] == v.day;
  }

  lemma {:induction false} SuffixStart(s: string)
    requires IsSuffix(s)
    ensures s != [] ==> !IsDigit(s[0])
  {
  }

  lemma {:induction false} SplitAtDot(s: string, n: nat)
    requires n < |s| && s[n] == '.'
    ensures s == s[..n] + ("." + s[n + 1..])
  {
  }

  lemma {:induction false} RunsAreDigits(s: string)
    ensures AllDigits(s[..DigitRun(s)]) && s == s[..DigitRun(s)] + s[DigitRun(s)..]
  {
    hide DigitRun;
    assert DigitRun(s) <= |s|;
  }

  lemma {:induction false} MatchReads(s: string, v: Calver)
    requires Match(s) == Some(v)
    ensures IsCalver(s, v)
  {
    hide AllDigits, IsSuffix, DigitRun, MatchMonth, MatchDay;
    RunsAreDigits(s);
    PatternParts(v);
    SplitAtDot(s, 4);
    MonthReads(s[5..], s[..4], v);
  }

  lemma {:induction false} MonthReads(t: string, year: string, v: Calver)
    requires AllDigits(year) && MatchMonth(t, year) == Some(v)
    ensures v.year == year && t == v.month + ("." + (v.day + v.suffix))
    ensures 1 <= |v.month| <= 2 && 1 <= |v.day| <= 2 && HasDigits(v) && IsSuffix(v.suffix)
  {
    hide AllDigits, IsSuffix, DigitRun, MatchDay;
    var n := DigitRun(t);
    SplitAtDot(t, n);
    RunsAreDigits(t);
    DayReads(t[n + 1..], year, t[..n], v);
  }

  lemma {:induction false} DayReads(u: string, year: string, month: string, v: Calver)
    requires AllDigits(year) && AllDigits(month) && MatchDay(u, year, month) == Some(v)
    ensures v.year == year && v.month == month && u == v.day + v.suffix
    ensures 1 <= |v.day| <= 2 && HasDigits(v) && IsSuffix(v.suffix)
  {
    hide AllDigits, IsSuffix, DigitRun;
    RunsAreDigits(u);
  }

  // ---------- the floors ----------

  function TrailingDigits(s: string): (n: nat)
    ensures n <= |s| && forall i :: |s| - n <= i < |s| ==> IsDigit(s[i])
    ensures n < |s| ==> !IsDigit(s[|s| - n - 1])
  {
    if s == [] || !IsDigit(s[|s| - 1]) then 0 else 1 + TrailingDigits(s[..|s| - 1])
  }

  /** The lane: 90 for a plain version, and for a suffixed one at most 89, by the number it ends with. */
  function Lane(suffix: string): (lane: nat)
    ensures lane == 90 <==> suffix == ""
    ensures lane <= 90
  {
    if suffix == "" then 90
    else
      var n := TrailingDigits(suffix);
      if n > 0 then
        var k := ParseNumber(suffix[|suffix| - n..]);
        if k < 89 then k else 89
      else 1
  }

  /** Lanes, case by case: 90 without a suffix, 1 for one that does not end with a digit, and otherwise the number
      it ends with, or 89 if that is more. */
  lemma {:induction false} LaneIs(prefix: string, n: nat)
    requires prefix != "" && !IsDigit(prefix[|prefix| - 1])
    ensures Lane("") == 90 && Lane(prefix) == 1
    ensures Lane(prefix + Numeral(n)) == if n <= 89 then n else 89
  {
    hide ParseNumber, Numeral;
    var s := prefix + Numeral(n);
    TrailingIs(prefix, Numeral(n));
    TrailingIs(prefix, "");
    assert prefix + "" == prefix;
    assert s[|prefix|..] == Numeral(n);
    ParseNumeral(n);
  }

  lemma {:induction false} TrailingIs(a: string, b: string)
    requires a != "" && !IsDigit(a[|a| - 1]) && AllDigits(b)
    ensures TrailingDigits(a + b) == |b|
  {
    hide TrailingDigits;
    var s := a + b;
    assert s[|a| - 1] == a[|a| - 1];
    assert forall i :: 0 <= i < |b| ==> s[|a| + i] == b[i];
    assert TrailingDigits(s) <= |s|;
  }

  /** Year, month and day of a matched version. */
  datatype Date = Date(year: nat, month: nat, day: nat)

  function DateOf(v: Calver): Date
    requires HasDigits(v)
  {
    Date(ParseNumber(v.year), ParseNumber(v.month), ParseNumber(v.day))
  }

  predicate InCalendar(d: Date) {
    1 <= d.month <= 12 && 1 <= d.day <= 31
  }

  /** Two numerals written one after the other. */
  function Digits(a: string, b: string): (r: string)
    requires AllDigits(a) && AllDigits(b)
    ensures r == a + b && AllDigits(r)
  {
    a + b
  }

  /** `sparkleBuildFloorsFromShortVersion` */
  function FloorsFromShortVersion(shortVersion: string): Option<Floors> {
    var m := Match(Trim(shortVersion));
    if m.None? then None
    else
      var v := m.value;
      var d := DateOf(v);
      if !InCalendar(d) then None
      else
        var dateKey := ParseNumber(Digits(Digits(Numeral(d.year), Padded(d.month)), Padded(d.day)));
        var lane := Lane(v.suffix);
        Some(Floors(dateKey, ParseNumber(Digits(Numeral(dateKey), "0")), ParseNumber(Digits(Numeral(dateKey), Padded(lane))), lane))
  }

  // ---------- what the floors are ----------

  /** The trimmed short version reads as `v`, and that is a date. */
  ghost predicate Dated(shortVersion: string, v: Calver) {
    && IsCalver(Trim(shortVersion), v)
    && 1 <= ParseNumber(v.month) <= 12 && 1 <= ParseNumber(v.day) <= 31
  }

  function DateKey(d: Date): nat {
    d.year * 10000 + d.month * 100 + d.day
  }

  lemma {:induction false} DateKeyParsed(d: Date)
    requires InCalendar(d)
    ensures ParseNumber(Numeral(d.year) + Padded(d.month) + Padded(d.day)) == DateKey(d)
  {
    hide ParseNumber, Padded, AllDigits;
    ParseNumeral(d.year);
    ParsePadded(Numeral(d.year), d.month);
    ParsePadded(Numeral(d.year) + Padded(d.month), d.day);
  }

  lemma {:induction false} FloorsParsed(key: nat, lane: nat)
    requires lane < 100
    ensures ParseNumber(Numeral(key) + "0") == 10 * key
    ensures ParseNumber(Numeral(key) + Padded(lane)) == 100 * key + lane
  {
    hide ParseNumber, Padded, AllDigits;
    ParseNumeral(key);
    assert AllDigits(Numeral(key)) && IsDigit('0');
    ParseSnoc(Numeral(key), '0');
    ParsePadded(Numeral(key), lane);
  }

  /** Both floors are the date in decimal digits with one more zero, or with the two digits of the lane. */
  lemma {:induction false} FloorsOfDate(shortVersion: string, v: Calver)
    requires Dated(shortVersion, v)
    ensures var key, lane := DateKey(DateOf(v)), Lane(v.suffix);
            FloorsFromShortVersion(shortVersion) == Some(Floors(key, 10 * key, 100 * key + lane, lane))
  {
    hide Match, ParseNumber, Padded, AllDigits, Lane, Trim;
    MatchIff(Trim(shortVersion), v);
    DateKeyParsed(DateOf(v));
    FloorsParsed(DateKey(DateOf(v)), Lane(v.suffix));
  }

  /** There are floors exactly for what reads as a date. */
  lemma {:induction false} FloorsIff(shortVersion: string)
    ensures FloorsFromShortVersion(shortVersion).Some? <==> exists v :: Dated(shortVersion, v)
  {
    hide Match, ParseNumber, Padded, AllDigits, Lane, IsCalver, Trim;
    if v :| Dated(shortVersion, v) {
      FloorsOfDate(shortVersion, v);
    }
    if FloorsFromShortVersion(shortVersion).Some? {
      var v := Match(Trim(shortVersion)).value;
      MatchIff(Trim(shortVersion), v);
      assert Dated(shortVersion, v);
    }
  }

  lemma {:induction false} FloorsHaveDate(shortVersion: string) returns (v: Calver)
    requires FloorsFromShortVersion(shortVersion).Some?
    ensures Dated(shortVersion, v)
  {
    hide Dated;
    FloorsIff(shortVersion);
    v :| Dated(shortVersion, v);
  }

  /** Space around a short version makes no difference. */
  lemma {:induction false} SurroundingSpaceIsIgnored(before: string, shortVersion: string, after: string)
    requires AllSpace(before) && AllSpace(after)
    ensures FloorsFromShortVersion(before + (shortVersion + after)) == FloorsFromShortVersion(shortVersion)
  {
    hide Match, Trim, AllSpace, ParseNumber, Padded, Lane;
    TrimSurrounded(before, shortVersion, after);
  }

  predicate Earlier(a: Date, b: Date) {
    a.year < b.year || (a.year == b.year && (a.month < b.month || (a.month == b.month && a.day < b.day)))
  }

  lemma {:induction false} DateKeyOrder(a: Date, b: Date)
    requires InCalendar(a) && InCalendar(b)
    ensures DateKey(a) < DateKey(b) <==> Earlier(a, b)
    ensures DateKey(a) == DateKey(b) <==> a == b
  {
  }

  /** `canonicalSparkleBuildFromVersion` */
  function CanonicalBuild(shortVersion: string): Option<nat> {
    var floors := FloorsFromShortVersion(shortVersion);
    if floors.None? then None else Some(floors.value.laneFloor)
  }

  /** Build numbers are ordered by date first, whatever the suffixes, and by lane on the same day. */
  lemma {:induction false} BuildsFollowDates(x: string, a: Calver, y: string, b: Calver)
    requires Dated(x, a) && Dated(y, b)
    ensures CanonicalBuild(x).Some? && CanonicalBuild(y).Some?
    ensures CanonicalBuild(x).value < CanonicalBuild(y).value <==>
              Earlier(DateOf(a), DateOf(b)) || (DateOf(a) == DateOf(b) && Lane(a.suffix) < Lane(b.suffix))
  {
    FloorsOfDate(x, a);
    FloorsOfDate(y, b);
    hide FloorsFromShortVersion, Lane, ParseNumber, AllDigits, DateKey, IsCalver;
    DateKeyOrder(DateOf(a), DateOf(b));
    DateKeyOrder(DateOf(b), DateOf(a));
  }

  /** On one day the plain release is above every suffixed one. */
  lemma {:induction false} PlainIsHighest(x: string, a: Calver, y: string, b: Calver)
    requires Dated(x, a) && Dated(y, b) && DateOf(a) == DateOf(b) && a.suffix != "" && b.suffix == ""
    ensures CanonicalBuild(x).Some? && CanonicalBuild(y).Some? && CanonicalBuild(x).value < CanonicalBuild(y).value
  {
    hide CanonicalBuild, ParseNumber, AllDigits, IsCalver;
    BuildsFollowDates(x, a, y, b);
  }

  lemma {:induction false} YearFits(v: Calver)
    requires |v.year| == 4 && AllDigits(v.year)
    ensures ParseNumber(v.year) < 10000
  {
    assert v.year[..3][..2] == v.year[..2] && v.year[..2][..1] == v.year[..1];
    assert ParseNumber(v.year[..1]) < 10;
    assert ParseNumber(v.year[..2]) < 100;
    assert ParseNumber(v.year[..3]) < 1000;
  }

  const LANE_BUILD_MIN := 1_000_000_000

  /** The two kinds of build numbers do not meet: legacy floors are below 1,000,000,000, and lane floors are at or
      above it exactly from the year 1000 on. */
  lemma {:induction false} FloorBands(shortVersion: string, v: Calver)
    requires Dated(shortVersion, v)
    ensures var f := FloorsFromShortVersion(shortVersion);
            && f.Some? && f.value.legacyFloor < 1_000_000_000 && f.value.legacyFloor <= f.value.laneFloor
            && (f.value.laneFloor >= 1_000_000_000 <==> DateOf(v).year >= 1000)
  {
    FloorsOfDate(shortVersion, v);
    YearFits(v);
    hide FloorsFromShortVersion, ParseNumber, AllDigits, Lane;
  }
}
