/** Cutting strings of UTF-16 code units without parting a surrogate pair. */
module Utf16 {
  import opened Options

  type Unit = x: int | 0 <= x < 0x10000

  predicate IsHighSurrogate(u: Unit) {
    0xd800 <= u <= 0xdbff
  }

  predicate IsLowSurrogate(u: Unit) {
    0xdc00 <= u <= 0xdfff
  }

  // ---------- the meaning of a string ----------

  /** Surrogates come in pairs only (section 3.9 of the Unicode Standard). */
  predicate WellFormed(s: seq<Unit>) {
    if s == [] then true
    else if IsHighSurrogate(s[0]) then |s| >= 2 && IsLowSurrogate(s[1]) && WellFormed(s[2..])
    else !IsLowSurrogate(s[0]) && WellFormed(s[1..])
  }

  /** Section 2.2 of RFC 2781; an unpaired surrogate stands for itself. */
  function Decode(s: seq<Unit>): seq<int> {
    if s == [] then []
    else if IsHighSurrogate(s[0]) && |s| >= 2 && IsLowSurrogate(s[1]) then
      [0x10000 + (s[0] - 0xd800) * 0x400 + (s[1] - 0xdc00)] + Decode(s[2..])
    else [s[0] as int] + Decode(s[1..])
  }

  /** UTF-16 of a code point (section 2.1 of RFC 2781). */
  ghost function Encode(c: int): seq<Unit>
    requires 0 <= c <= 0x10ffff
  {
    if c < 0x10000 then [c] else [0xd800 + (c - 0x10000) / 0x400, 0xdc00 + (c - 0x10000) % 0x400]
  }

  /** A code point that is not a surrogate. */
  ghost predicate IsScalar(c: int) {
    0 <= c < 0xd800 || 0xdfff < c <= 0x10ffff
  }

  ghost function EncodeAll(cs: seq<int>): seq<Unit>
    requires forall i :: 0 <= i < |cs| ==> IsScalar(cs[i])
  {
    if cs == [] then []
    else
      assert IsScalar(cs[0]);
      Encode(cs[0]) + EncodeAll(cs[1..])
  }

  /** What is encoded is well formed, and decodes to what it was. */
  lemma {:induction false} EncodedDecodes(cs: seq<int>)
    requires forall i :: 0 <= i < |cs| ==> IsScalar(cs[i])
    ensures WellFormed(EncodeAll(cs)) && Decode(EncodeAll(cs)) == cs
  {
    if cs == [] {
    } else {
      EncodedDecodes(cs[1..]);
      var s := EncodeAll(cs);
      assert s[|Encode(cs[0])|..] == EncodeAll(cs[1..]);
      if cs[0] >= 0x10000 {
        PairDecodes(cs[0]);
      }
    }
  }

  lemma {:induction false} PairDecodes(c: int)
    requires 0x10000 <= c <= 0x10ffff
    ensures var s := Encode(c);
            && IsHighSurrogate(s[0]) && IsLowSurrogate(s[1])
            && 0x10000 + ((s[0] as int) - 0xd800) * 0x400 + ((s[1] as int) - 0xdc00) == c
  {
  }

  /** Well-formed strings are exactly what encoding gives. */
  lemma {:induction false} DecodedEncodes(s: seq<Unit>)
    requires WellFormed(s)
    ensures forall i :: 0 <= i < |Decode(s)| ==> IsScalar(Decode(s)[i])
    ensures EncodeAll(Decode(s)) == s
    decreases |s|
  {
    if s == [] {
    } else if IsHighSurrogate(s[0]) {
      DecodedEncodes(s[2..]);
      assert Decode(s)[1..] == Decode(s[2..]);
      assert Encode(Decode(s)[0]) == s[..2];
    } else {
      DecodedEncodes(s[1..]);
      assert Decode(s)[1..] == Decode(s[1..]);
      assert Encode(Decode(s)[0]) == s[..1];
    }
  }

  /** A cut at `k` would part a surrogate pair. */
  predicate Splits(s: seq<Unit>, k: int) {
    0 < k < |s| && IsHighSurrogate(s[k - 1]) && IsLowSurrogate(s[k])
  }

  lemma {:induction false} SplitsIff(s: seq<Unit>, k: int)
    ensures Splits(s, k) <==> 0 < k < |s| && 0xd800 <= s[k - 1] <= 0xdbff && 0xdc00 <= s[k] <= 0xdfff
  {
  }

  /** Cutting a well-formed string leaves two well-formed ones exactly if no pair is parted. */
  lemma {:induction false} CutIff(s: seq<Unit>, k: nat)
    requires WellFormed(s) && k <= |s|
    ensures WellFormed(s[..k]) && WellFormed(s[k..]) <==> !Splits(s, k)
  {
    if Splits(s, k) {
      LowFirstIsIllFormed(s[k..]);
    } else {
      CutKeeps(s, k);
    }
  }

  lemma {:induction false} LowFirstIsIllFormed(s: seq<Unit>)
    requires s != [] && IsLowSurrogate(s[0])
    ensures !WellFormed(s)
  {
  }

  /** A string that starts with a code point, whole. */
  predicate StartsWhole(s: seq<Unit>) {
    s != [] && !IsLowSurrogate(s[0]) && (IsHighSurrogate(s[0]) ==> |s| >= 2 && IsLowSurrogate(s[1]))
  }

  function Width(s: seq<Unit>): nat
    requires s != []
  {
    if IsHighSurrogate(s[0]) then 2 else 1
  }

  lemma {:induction false} Unfold(s: seq<Unit>)
    requires StartsWhole(s)
    ensures WellFormed(s) <==> WellFormed(s[Width(s)..])
    ensures Decode(s) == Decode(s[..Width(s)]) + Decode(s[Width(s)..])
  {
    var head := s[..Width(s)];
    assert Decode(head) == [Decode(s)[0]] by {
      assert head[|head|..] == [];
    }
  }

  lemma {:induction false} CutKeeps(s: seq<Unit>, k: nat)
    requires WellFormed(s) && k <= |s| && !Splits(s, k)
    ensures WellFormed(s[..k]) && WellFormed(s[k..])
    ensures Decode(s) == Decode(s[..k]) + Decode(s[k..])
    decreases |s|
  {
    if k == 0 {
      assert s[0..] == s && s[..0] == [];
    } else {
      hide WellFormed, Decode, Splits, StartsWhole, Width;
      var n := FirstWidth(s, k);
      CutBehind(s, n, k);
      CutKeeps(s[n..], k - n);
    }
  }

  /** The first code point lies before the cut, and is split off on both sides alike. */
  lemma {:induction false} FirstWidth(s: seq<Unit>, k: nat) returns (n: nat)
    requires WellFormed(s) && 0 < k <= |s| && !Splits(s, k)
    ensures 0 < n <= k && WellFormed(s[n..])
    ensures WellFormed(s[..k]) <==> WellFormed(s[..k][n..])
    ensures Decode(s) == Decode(s[..n]) + Decode(s[n..]) && Decode(s[..k]) == Decode(s[..n]) + Decode(s[..k][n..])
  {
    BothStartWhole(s, k);
    Unfold(s);
    Unfold(s[..k]);
    hide WellFormed, Decode, Splits, StartsWhole;
    n := Width(s);
  }

  lemma {:induction false} BothStartWhole(s: seq<Unit>, k: nat)
    requires WellFormed(s) && 0 < k <= |s| && !Splits(s, k)
    ensures StartsWhole(s) && StartsWhole(s[..k]) && Width(s[..k]) == Width(s) <= k
    ensures s[..k][..Width(s)] == s[..Width(s)]
  {
    hide WellFormed;
    assert StartsWhole(s) by {
      StartOf(s);
    }
    assert s[..k][0] == s[0];
  }

  lemma {:induction false} StartOf(s: seq<Unit>)
    requires WellFormed(s) && s != []
    ensures StartsWhole(s)
  {
  }

  lemma {:induction false} CutBehind(s: seq<Unit>, n: nat, k: nat)
    requires n <= k <= |s| && !Splits(s, k)
    ensures !Splits(s[n..], k - n)
    ensures s[n..][..k - n] == s[..k][n..] && s[n..][k - n..] == s[k..]
  {
  }

  // ---------- slicing ----------

  /** A bound counted from the end if it is negative, and kept within the string. */
  function Bound(len: nat, k: int): (r: nat)
    ensures r <= len
  {
    if k < 0 then (if len + k > 0 then len + k else 0) else (if k < len then k else len)
  }

  function From(len: nat, start: int, end: Option<int>): nat {
    var a, b := Bound(len, start), if end.Some? then Bound(len, end.value) else len;
    if b < a then b else a
  }

  function To(len: nat, start: int, end: Option<int>): (r: nat)
    ensures From(len, start, end) <= r <= len
  {
    var a, b := Bound(len, start), if end.Some? then Bound(len, end.value) else len;
    if b < a then a else b
  }

  /** `s` is `input[lo..hi]`, the largest piece of `input[from..to]` that parts no pair at either end. */
  ghost predicate IsLargestPiece(input: seq<Unit>, from: nat, to: nat, lo: nat, hi: nat) {
    && from <= lo <= hi <= to <= |input|
    && !Splits(input, lo) && !Splits(input, hi)
    && forall i, j :: from <= i <= j <= to && !Splits(input, i) && !Splits(input, j) ==> lo <= i && j <= hi
  }

  /** The ends after they have moved off a parted pair. */
  function Lo(input: seq<Unit>, from: nat): nat {
    if Splits(input, from) then from + 1 else from
  }

  function Hi(input: seq<Unit>, to: nat): nat {
    if Splits(input, to) then to - 1 else to
  }

  function Piece(input: seq<Unit>, from: nat, to: nat): seq<Unit>
    requires from <= to <= |input|
  {
    if Lo(input, from) <= Hi(input, to) then input[Lo(input, from)..Hi(input, to)] else []
  }

  function Slice(input: seq<Unit>, start: int, end: Option<int>): seq<Unit> {
    Piece(input, From(|input|, start, end), To(|input|, start, end))
  }

  /** The bounds as `slice` takes them, the smaller one first: a negative one counts from the end, an absent end
      is the length, and both are kept within the string. */
  lemma {:induction false} BoundsAre(len: nat, start: int, end: Option<int>)
    ensures var e := if end.Some? then end.value else len;
            var a := if start < 0 then len + start else start;
            var b := if e < 0 then len + e else e;
            var lower, upper := if a <= b then a else b, if a <= b then b else a;
            && From(len, start, end) == (if lower < 0 then 0 else if lower > len then len else lower)
            && To(len, start, end) == (if upper < 0 then 0 else if upper > len then len else upper)
  {
  }

  lemma {:induction false} SliceIs(input: seq<Unit>, start: int, end: Option<int>)
    ensures var a, b := Bound(|input|, start), if end.Some? then Bound(|input|, end.value) else |input|;
            && (From(|input|, start, end) == if b < a then b else a)
            && (To(|input|, start, end) == if b < a then a else b)
    ensures var lo, hi := Lo(input, From(|input|, start, end)), Hi(input, To(|input|, start, end));
            Slice(input, start, end) == if lo <= hi then input[lo..hi] else []
  {
  }

  lemma {:induction false} EndsAre(input: seq<Unit>, from: nat, to: nat)
    requires from <= to <= |input|
    ensures Lo(input, from) ==
            if from > 0 && from < |input| && IsLowSurrogate(input[from]) && IsHighSurrogate(input[from - 1])
            then from + 1 else from
    ensures Hi(input, to) ==
            if to > 0 && to < |input| && IsHighSurrogate(input[to - 1]) && IsLowSurrogate(input[to]) then to - 1 else to
    ensures Lo(input, from) <= |input|
  {
  }

  /** `sliceUtf16Safe` */
  method SliceUtf16Safe(input: seq<Unit>, start: int, end: Option<int>) returns (r: seq<Unit>)
    ensures r == Slice(input, start, end)
  {
    hide Slice, Piece, From, To, Bound, IsHighSurrogate, IsLowSurrogate, Lo, Hi;
    SliceIs(input, start, end);
    var len := |input|;
    var from := Bound(len, start);
    var to := if end.None? then len else Bound(len, end.value);
    if to < from {
      from, to := to, from;
    }
    ghost var a, b := From(len, start, end), To(len, start, end);
    assert from == a && to == b;
    EndsAre(input, a, b);
    if from > 0 && from < len {
      var codeUnit := input[from];
      if IsLowSurrogate(codeUnit) && IsHighSurrogate(input[from - 1]) {
        from := from + 1;
      }
    }
    if to > 0 && to < len {
      var codeUnit := input[to - 1];
      if IsHighSurrogate(codeUnit) && IsLowSurrogate(input[to]) {
        to := to - 1;
      }
    }
    r := if from <= to then input[from..to] else [];
  }

  /** The result is the largest piece between the bounds that parts no pair; only when the bounds coincide inside
      a pair is there no such piece, and nothing is returned.  Each end gives up at most one unit. */
  lemma {:induction false} SliceIsLargestPiece(input: seq<Unit>, start: int, end: Option<int>)
    ensures var from, to := From(|input|, start, end), To(|input|, start, end);
            var lo, hi := Lo(input, from), Hi(input, to);
            && (lo <= hi <==> !(from == to && Splits(input, from)))
            && (if lo <= hi then IsLargestPiece(input, from, to, lo, hi) && Slice(input, start, end) == input[lo..hi]
                else Slice(input, start, end) == [])
            && lo <= from + 1 && to <= hi + 1
  {
  }

  /** Of a well-formed string the result is well formed too, and its code points are a run of the string's. */
  lemma {:induction false} SliceDecodes(input: seq<Unit>, start: int, end: Option<int>)
    requires WellFormed(input)
    ensures WellFormed(Slice(input, start, end))
    ensures exists a, b :: Decode(input) == a + Decode(Slice(input, start, end)) + b
  {
    hide Decode, WellFormed, From, To;
    var lo, hi := Lo(input, From(|input|, start, end)), Hi(input, To(|input|, start, end));
    if lo <= hi {
      PieceDecodes(input, lo, hi);
      assert Decode(input) == Decode(input[..lo]) + Decode(Slice(input, start, end)) + Decode(input[hi..]);
    } else {
      EmptyDecodes();
      assert Decode(input) == [] + Decode(Slice(input, start, end)) + Decode(input);
    }
  }

  lemma {:induction false} EmptyDecodes()
    ensures WellFormed([]) && Decode([]) == []
  {
  }

  lemma {:induction false} PieceDecodes(input: seq<Unit>, lo: nat, hi: nat)
    requires WellFormed(input) && lo <= hi <= |input| && !Splits(input, lo) && !Splits(input, hi)
    ensures WellFormed(input[lo..hi])
    ensures Decode(input) == Decode(input[..lo]) + Decode(input[lo..hi]) + Decode(input[hi..])
  {
    hide Decode, WellFormed;
    CutKeeps(input, hi);
    var front := input[..hi];
    assert !Splits(front, lo);
    CutKeeps(front, lo);
    assert front[..lo] == input[..lo] && front[lo..] == input[lo..hi];
  }

  /** The order of two bounds does not matter. */
  lemma {:induction false} BoundsCommute(input: seq<Unit>, a: int, b: int)
    ensures Slice(input, a, Some(b)) == Slice(input, b, Some(a))
  {
    hide Piece, Bound;
    assert From(|input|, a, Some(b)) == From(|input|, b, Some(a));
    assert To(|input|, a, Some(b)) == To(|input|, b, Some(a));
  }

  // ---------- truncating ----------

  function Truncated(input: seq<Unit>, limit: nat): seq<Unit> {
    if |input| <= limit then input else Slice(input, 0, Some(limit))
  }

  /** `truncateUtf16Safe` */
  method TruncateUtf16Safe(input: seq<Unit>, maxLen: real) returns (r: seq<Unit>)
    ensures r == Truncated(input, if maxLen.Floor > 0 then maxLen.Floor else 0)
  {
    var limit := if maxLen.Floor > 0 then maxLen.Floor else 0;
    if |input| <= limit {
      return input;
    }
    r := SliceUtf16Safe(input, 0, Some(limit));
  }

  /** The longest prefix within the limit that parts no pair: all of the string if it fits, and otherwise as many
      units as the limit allows, or one less where the limit falls inside a pair. */
  lemma {:induction false} TruncatedIsLongestPrefix(input: seq<Unit>, limit: nat)
    ensures var r := Truncated(input, limit);
            && r <= input && |r| <= limit && !Splits(input, |r|)
            && (forall k: nat :: k <= limit && k <= |input| && !Splits(input, k) ==> k <= |r|)
            && |r| == (if |input| <= limit then |input| else if Splits(input, limit) then limit - 1 else limit)
  {
    var r := Truncated(input, limit);
    if limit < |input| {
      assert From(|input|, 0, Some(limit)) == 0 && To(|input|, 0, Some(limit)) == limit;
      assert r == input[..Hi(input, limit)];
    }
  }

  /** A well-formed string keeps a whole number of code points. */
  lemma {:induction false} TruncatedDecodes(input: seq<Unit>, limit: nat)
    requires WellFormed(input)
    ensures WellFormed(Truncated(input, limit)) && Decode(Truncated(input, limit)) <= Decode(input)
  {
    hide Decode, WellFormed, Truncated;
    TruncatedIsLongestPrefix(input, limit);
    var k := |Truncated(input, limit)|;
    CutKeeps(input, k);
    assert Truncated(input, limit) == input[..k];
  }

  /** Truncating twice is truncating once to the smaller limit. */
  lemma {:induction false} TruncateTwice(input: seq<Unit>, m: nat, n: nat)
    ensures Truncated(Truncated(input, m), n) == Truncated(input, if m < n then m else n)
  {
    hide Truncated;
    var once := Truncated(input, m);
    TruncatedIsLongestPrefix(input, m);
    TruncatedIsLongestPrefix(once, n);
    TruncatedIsLongestPrefix(input, if m < n then m else n);
    forall k | 0 < k < |once| ensures Splits(once, k) <==> Splits(input, k) {
    }
    var a, b := Truncated(once, n), Truncated(input, if m < n then m else n);
    assert a == input[..|a|] && b == input[..|b|];
  }
}
