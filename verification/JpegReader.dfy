/** Reading the size of a JPEG image off its frame header. */
module JpegReader {
  import opened Options

  type Byte = x: int | 0 <= x < 0x100

  datatype Dimensions = Dimensions(width: nat, height: nat)

  /** Markers without a length, among them the start and the end of the image (table B.1 of ITU-T T.81). */
  predicate IsStandalone(marker: Byte) {
    marker == 0xd8 || marker == 0xd9 || marker == 0x01 || 0xd0 <= marker <= 0xd7
  }

  /** SOF0 to SOF15, without DHT, JPG and DAC which lie among them. */
  predicate IsFrame(marker: Byte) {
    || 0xc0 <= marker <= 0xc3
    || 0xc5 <= marker <= 0xc7
    || 0xc9 <= marker <= 0xcb
    || 0xcd <= marker <= 0xcf
  }

  /** `readUInt16BE` */
  function Word(b: seq<Byte>, k: nat): (w: nat)
    requires k + 1 < |b|
    ensures w < 0x10000
  {
    var high: int := b[k];
    0x100 * high + b[k + 1]
  }

  /** What the loop makes of the bytes still ahead. */
  function Scan(rest: seq<Byte>): Option<Dimensions>
    decreases |rest|
  {
    if |rest| <= 9 then None
    else if rest[0] != 0xff then Scan(rest[1..])
    else if IsStandalone(rest[1]) then Scan(rest[2..])
    else
      var length := Word(rest, 2);
      if length < 2 || 2 + length > |rest| then None
      else if !IsFrame(rest[1]) then Scan(rest[2 + length..])
      else if length < 7 then None
      else Some(Dimensions(Word(rest, 7), Word(rest, 5)))
  }

  /** `Scan` in terms of offsets into the whole buffer. */
  lemma {:induction false} ScanAt(all: seq<Byte>, offset: nat)
    requires offset + 9 < |all|
    ensures var marker, length := all[offset + 1], Word(all, offset + 2);
            Scan(all[offset..]) ==
            if all[offset] != 0xff then Scan(all[offset + 1..])
            else if IsStandalone(marker) then Scan(all[offset + 2..])
            else if length < 2 || offset + 2 + length > |all| then None
            else if !IsFrame(marker) then Scan(all[offset + 2 + length..])
            else if length < 7 then None
            else Some(Dimensions(Word(all, offset + 7), Word(all, offset + 5)))
  {
    var rest := all[offset..];
    assert rest[1..] == all[offset + 1..] && rest[2..] == all[offset + 2..];
    assert Word(rest, 2) == Word(all, offset + 2);
    var length := Word(rest, 2);
    if 2 + length <= |rest| {
      assert rest[2 + length..] == all[offset + 2 + length..];
    }
    assert Word(rest, 5) == Word(all, offset + 5) && Word(rest, 7) == Word(all, offset + 7);
  }

  lemma {:induction false} ScanEnds(all: seq<Byte>, offset: nat)
    requires offset <= |all| <= offset + 9
    ensures Scan(all[offset..]) == None
  {
  }

  method ReadJpegDimensions(buffer: array<Byte>) returns (r: Option<Dimensions>)
    ensures r == if buffer.Length < 2 then None else Scan(buffer[2..])
  {
    hide Scan, Word, IsFrame;
    ghost var all := buffer[..];
    assert buffer.Length >= 2 ==> all[2..] == buffer[2..];
    var offset := 2;
    while offset + 9 < buffer.Length
      invariant 2 <= offset && (buffer.Length < 2 ==> offset == 2)
      invariant buffer.Length >= 2 ==> offset <= buffer.Length && Scan(all[offset..]) == Scan(all[2..])
    {
      ScanAt(all, offset);
      if buffer[offset] != 0xff {
        offset := offset + 1;
        continue;
      }
      var marker := buffer[offset + 1];
      offset := offset + 2;
      if marker == 0xd8 || marker == 0xd9 {
        continue;
      }
      if marker == 0x01 || 0xd0 <= marker <= 0xd7 {
        continue;
      }
      if offset + 2 > buffer.Length {
        assert false;
        return None;
      }
      var length := Word(buffer[..], offset);
      if length < 2 || offset + length > buffer.Length {
        return None;
      }
      if IsFrame(marker) {
        if length < 7 {
          return None;
        }
        return Some(Dimensions(Word(buffer[..], offset + 5), Word(buffer[..], offset + 3)));
      }
      offset := offset + length;
    }
    if buffer.Length >= 2 {
      ScanEnds(all, offset);
    }
    return None;
  }

  // ---------- the image as a whole ----------

  const PNG_SIGNATURE: seq<Byte> := [0x89, 0x50, 0x4e, 0x47, 0x0d, 0x0a, 0x1a, 0x0a]

  predicate IsPng(b: seq<Byte>) {
    |b| >= 24 && PNG_SIGNATURE <= b
  }

  predicate IsJpeg(b: seq<Byte>) {
    |b| >= 4 && [0xff, 0xd8] <= b
  }

  /** `readUInt32BE` */
  function Long(b: seq<Byte>, k: nat): nat
    requires k + 3 < |b|
  {
    0x10000 * Word(b, k) + Word(b, k + 2)
  }

  /** The size of an image, if its beginning is that of a format known. */
  function ImageSize(b: seq<Byte>): Option<Dimensions> {
    if IsPng(b) then Some(Dimensions(Long(b, 16), Long(b, 20)))
    else if IsJpeg(b) then Scan(b[2..])
    else None
  }

  method CheckPng(buffer: array<Byte>) returns (r: bool)
    ensures r <==> IsPng(buffer[..])
  {
    r := buffer.Length >= 24
      && buffer[0] == 0x89 && buffer[1] == 0x50 && buffer[2] == 0x4e && buffer[3] == 0x47
      && buffer[4] == 0x0d && buffer[5] == 0x0a && buffer[6] == 0x1a && buffer[7] == 0x0a;
    if r {
      assert buffer[..8] == PNG_SIGNATURE;
    }
  }

  method CheckJpeg(buffer: array<Byte>) returns (r: bool)
    ensures r <==> IsJpeg(buffer[..])
  {
    r := buffer.Length >= 4 && buffer[0] == 0xff && buffer[1] == 0xd8;
  }

  /** `readImageDimensions` */
  method ReadImageDimensions(buffer: array<Byte>) returns (r: Option<Dimensions>)
    ensures r == ImageSize(buffer[..])
  {
    hide Scan, Long, IsPng;
    var png := CheckPng(buffer);
    if png {
      PngIsLong(buffer[..]);
      return Some(Dimensions(Long(buffer[..], 16), Long(buffer[..], 20)));
    }
    var jpeg := CheckJpeg(buffer);
    if jpeg {
      r := ReadJpegDimensions(buffer);
      assert buffer[..][2..] == buffer[2..];
      return;
    }
    return None;
  }

  lemma {:induction false} PngIsLong(b: seq<Byte>)
    requires IsPng(b)
    ensures |b| >= 24
  {
  }

  // ---------- what the bytes mean ----------

  /** What may stand before the frame header: a stray byte, a marker alone, or a marker segment. */
  datatype Piece = Stray(value: Byte) | Alone(marker: Byte) | Segment(marker: Byte, payload: seq<Byte>)

  /** A marker segment: its length counts itself and the payload (section B.1.1.4 of ITU-T T.81). */
  function SegmentBytes(marker: Byte, payload: seq<Byte>): (r: seq<Byte>)
    requires |payload| + 2 < 0x10000
    ensures |r| == 4 + |payload|
  {
    [0xff, marker, (|payload| + 2) / 0x100, (|payload| + 2) % 0x100] + payload
  }

  predicate Skippable(p: Piece) {
    match p
    case Stray(value) => value != 0xff
    case Alone(marker) => IsStandalone(marker)
    case Segment(marker, payload) => !IsStandalone(marker) && !IsFrame(marker) && |payload| + 2 < 0x10000
  }

  predicate AllSkippable(pieces: seq<Piece>) {
    forall i :: 0 <= i < |pieces| ==> Skippable(pieces[i])
  }

  function PieceBytes(p: Piece): seq<Byte>
    requires Skippable(p)
  {
    match p
    case Stray(value) => [value]
    case Alone(marker) => [0xff, marker]
    case Segment(marker, payload) => SegmentBytes(marker, payload)
  }

  function Bytes(pieces: seq<Piece>): seq<Byte>
    requires AllSkippable(pieces)
  {
    if pieces == [] then [] else PieceBytes(pieces[0]) + Bytes(pieces[1..])
  }

  /** A frame header: sample precision, number of lines, samples per line, then the components
      (section B.2.2 of ITU-T T.81). */
  datatype Frame = Frame(marker: Byte, payload: seq<Byte>)

  predicate ValidFrame(f: Frame) {
    IsFrame(f.marker) && 5 <= |f.payload| && |f.payload| + 2 < 0x10000
  }

  function Size(f: Frame): Dimensions
    requires ValidFrame(f)
  {
    Dimensions(Word(f.payload, 3), Word(f.payload, 1))
  }

  /** `rest` begins with skippable pieces and then the frame `f`, with at least ten bytes from there on. */
  ghost predicate LeadsTo(rest: seq<Byte>, pieces: seq<Piece>, f: Frame, tail: seq<Byte>) {
    && AllSkippable(pieces) && ValidFrame(f)
    && rest == Bytes(pieces) + (SegmentBytes(f.marker, f.payload) + tail)
    && 4 + |f.payload| + |tail| >= 10
  }

  lemma {:induction false} ScanFrame(f: Frame, tail: seq<Byte>)
    requires ValidFrame(f) && 4 + |f.payload| + |tail| >= 10
    ensures Scan(SegmentBytes(f.marker, f.payload) + tail) == Some(Size(f))
  {
    var rest := SegmentBytes(f.marker, f.payload) + tail;
    assert forall k :: 0 <= k < 5 ==> rest[4 + k] == f.payload[k];
    assert Word(rest, 2) == |f.payload| + 2;
  }

  lemma {:induction false} ScanSkips(p: Piece, rest: seq<Byte>)
    requires Skippable(p) && |rest| >= 10
    ensures Scan(PieceBytes(p) + rest) == Scan(rest)
  {
    var all := PieceBytes(p) + rest;
    assert all[|PieceBytes(p)|..] == rest;
    if p.Segment? {
      assert Word(all, 2) == |p.payload| + 2;
    }
  }

  /** Whatever skippable pieces come first, the reader finds the frame header behind them. */
  lemma {:induction false} FindsFrame(pieces: seq<Piece>, f: Frame, tail: seq<Byte>)
    requires AllSkippable(pieces) && ValidFrame(f) && 4 + |f.payload| + |tail| >= 10
    ensures Scan(Bytes(pieces) + (SegmentBytes(f.marker, f.payload) + tail)) == Some(Size(f))
  {
    hide Scan, SegmentBytes, PieceBytes, IsFrame, Skippable;
    var last := SegmentBytes(f.marker, f.payload) + tail;
    if pieces == [] {
      ScanFrame(f, tail);
      assert Bytes(pieces) + last == last;
    } else {
      FindsFrame(pieces[1..], f, tail);
      ScanSkips(pieces[0], Bytes(pieces[1..]) + last);
      assert Bytes(pieces) + last == PieceBytes(pieces[0]) + (Bytes(pieces[1..]) + last);
    }
  }

  /** One turn of the loop passes over one piece. */
  lemma {:induction false} FirstPiece(rest: seq<Byte>) returns (p: Piece)
    requires Scan(rest).Some? && !(rest[0] == 0xff && IsFrame(rest[1]))
    ensures Skippable(p) && PieceBytes(p) <= rest
    ensures Scan(rest) == Scan(rest[|PieceBytes(p)|..]) && |PieceBytes(p)| > 0
  {
    if rest[0] != 0xff {
      p := Stray(rest[0]);
    } else if IsStandalone(rest[1]) {
      p := Alone(rest[1]);
    } else {
      var length := Word(rest, 2);
      p := Segment(rest[1], rest[4..2 + length]);
      SegmentIsThere(rest, length);
    }
  }

  lemma {:induction false} SegmentIsThere(rest: seq<Byte>, length: nat)
    requires 4 <= |rest| && rest[0] == 0xff && length == Word(rest, 2) && 2 <= length && 2 + length <= |rest|
    ensures SegmentBytes(rest[1], rest[4..2 + length]) == rest[..2 + length]
  {
    assert length / 0x100 == rest[2] && length % 0x100 == rest[3];
  }

  lemma {:induction false} FrameIsThere(rest: seq<Byte>) returns (f: Frame, tail: seq<Byte>)
    requires Scan(rest).Some? && rest[0] == 0xff && IsFrame(rest[1])
    ensures LeadsTo(rest, [], f, tail) && Scan(rest) == Some(Size(f))
  {
    var length := Word(rest, 2);
    f, tail := Frame(rest[1], rest[4..2 + length]), rest[2 + length..];
    SegmentIsThere(rest, length);
    assert rest == Bytes([]) + (SegmentBytes(f.marker, f.payload) + tail);
  }

  /** The other way round: a size that is reported was read off a frame header behind skippable pieces. */
  lemma {:induction false} FoundFrame(rest: seq<Byte>) returns (pieces: seq<Piece>, f: Frame, tail: seq<Byte>)
    requires Scan(rest).Some?
    ensures LeadsTo(rest, pieces, f, tail) && Scan(rest) == Some(Size(f))
    decreases |rest|
  {
    ScanIsLong(rest);
    if rest[0] == 0xff && IsFrame(rest[1]) {
      pieces := [];
      f, tail := FrameIsThere(rest);
    } else {
      var p := FirstPiece(rest);
      hide Scan;
      var after := rest[|PieceBytes(p)|..];
      pieces, f, tail := FoundFrame(after);
      assert rest == PieceBytes(p) + after;
      assert ([p] + pieces)[1..] == pieces;
      pieces := [p] + pieces;
    }
  }

  lemma {:induction false} ScanIsLong(rest: seq<Byte>)
    requires Scan(rest).Some?
    ensures |rest| >= 10
  {
  }

  /** Exactly what the reader recognises: it reports a size if and only if the bytes after the first two are
      skippable pieces followed by a frame header of that size and ten bytes from there to the end. */
  lemma {:induction false} ReadsExactlyFrames(rest: seq<Byte>, d: Dimensions)
    ensures Scan(rest) == Some(d) <==> exists pieces, f, tail :: LeadsTo(rest, pieces, f, tail) && d == Size(f)
  {
    hide Scan, Size, AllSkippable;
    if Scan(rest) == Some(d) {
      var pieces, f, tail := FoundFrame(rest);
      assert LeadsTo(rest, pieces, f, tail) && d == Size(f);
    }
    if pieces, f, tail :| LeadsTo(rest, pieces, f, tail) && d == Size(f) {
      FindsFrame(pieces, f, tail);
    }
  }

  /** The same for a whole file that starts as a JPEG file does: there is a size exactly where a frame header is led
      to, and then it is that of the header. */
  lemma {:induction false} JpegSizeIff(b: seq<Byte>, d: Dimensions)
    requires IsJpeg(b)
    ensures ImageSize(b) == Some(d) <==> exists pieces, f, tail :: LeadsTo(b[2..], pieces, f, tail) && d == Size(f)
  {
    hide Scan, Size, LeadsTo;
    assert !IsPng(b) by {
      assert PNG_SIGNATURE[0] != [0xff, 0xd8][0];
    }
    ReadsExactlyFrames(b[2..], d);
  }

  /** A header as the standard has it: the start of the image, marker segments and standalone markers, and a
      frame header, whose length is at least 8.  Whatever follows, its lines and samples are reported. */
  lemma {:induction false} ReadsStandardHeader(pieces: seq<Piece>, f: Frame, tail: seq<Byte>)
    requires AllSkippable(pieces) && forall i :: 0 <= i < |pieces| ==> !pieces[i].Stray?
    requires ValidFrame(f) && |f.payload| + 2 >= 8
    ensures var buffer := [0xff, 0xd8] + (Bytes(pieces) + (SegmentBytes(f.marker, f.payload) + tail));
            IsJpeg(buffer) && ImageSize(buffer) == Some(Size(f))
  {
    hide Scan, SegmentBytes, Size;
    var rest := Bytes(pieces) + (SegmentBytes(f.marker, f.payload) + tail);
    FindsFrame(pieces, f, tail);
    var buffer := [0xff, 0xd8] + rest;
    assert buffer[2..] == rest;
    assert buffer[0] == 0xff && PNG_SIGNATURE[0] == 0x89;
    FrameIsLong(f);
  }

  lemma {:induction false} FrameIsLong(f: Frame)
    requires ValidFrame(f)
    ensures |SegmentBytes(f.marker, f.payload)| >= 9
  {
  }

  // ---------- marker by marker ----------

  /** A marker with a length and its payload, or one that stands alone. */
  datatype Raw = Sized(marker: Byte, payload: seq<Byte>) | Bare(marker: Byte)

  /** The markers of table B.1 of ITU-T T.81 that are not those of a frame: TEM, RST0 to RST7, SOI and EOI stand
      alone, and all others are followed by a length. */
  predicate NoFrame(r: Raw) {
    match r
    case Bare(marker) => marker == 0x01 || 0xd0 <= marker <= 0xd9
    case Sized(marker, payload) =>
      && marker !in [0x01, 0xd0, 0xd1, 0xd2, 0xd3, 0xd4, 0xd5, 0xd6, 0xd7, 0xd8, 0xd9]
      && marker !in [0xc0, 0xc1, 0xc2, 0xc3, 0xc5, 0xc6, 0xc7, 0xc9, 0xca, 0xcb, 0xcd, 0xce, 0xcf]
      && |payload| <= 65533
  }

  function RawBytes(raws: seq<Raw>): seq<Byte>
    requires forall i :: 0 <= i < |raws| ==> NoFrame(raws[i])
  {
    if raws == [] then []
    else BytesOf(raws[0]) + RawBytes(raws[1..])
  }

  function BytesOf(raw: Raw): seq<Byte>
    requires NoFrame(raw)
  {
    match raw
    case Bare(marker) => [0xff, marker]
    case Sized(marker, payload) => [0xff, marker, (|payload| + 2) / 256, (|payload| + 2) % 256] + payload
  }

  /** A marker that is not that of a frame is passed over with what belongs to it: DHT (0xc4), JPG (0xc8) and DAC
      (0xcc) among them. */
  lemma {:induction false} PassesOver(raw: Raw, rest: seq<Byte>)
    requires NoFrame(raw) && |rest| >= 10
    ensures Scan(BytesOf(raw) + rest) == Scan(rest)
  {
    hide Scan;
    if raw.Bare? {
      ScanSkips(Alone(raw.marker), rest);
    } else {
      ScanSkips(Segment(raw.marker, raw.payload), rest);
    }
  }

  lemma {:induction false} PassesOverAll(raws: seq<Raw>, rest: seq<Byte>)
    requires (forall i :: 0 <= i < |raws| ==> NoFrame(raws[i])) && |rest| >= 10
    ensures Scan(RawBytes(raws) + rest) == Scan(rest)
    decreases |raws|
  {
    hide Scan, NoFrame;
    if raws == [] {
      assert RawBytes(raws) + rest == rest;
    } else {
      PassesOverAll(raws[1..], rest);
      PassesOver(raws[0], RawBytes(raws[1..]) + rest);
      assert RawBytes(raws) + rest == BytesOf(raws[0]) + (RawBytes(raws[1..]) + rest);
    }
  }

  /** Every kind of frame, from baseline over progressive to arithmetic coding, is read behind any markers that
      are not those of a frame, whatever follows: lines are the second and third byte of its header, samples
      the fourth and fifth. */
  lemma {:induction false} ReadsEveryFrame(raws: seq<Raw>, marker: Byte, payload: seq<Byte>, tail: seq<Byte>)
    requires forall i :: 0 <= i < |raws| ==> NoFrame(raws[i])
    requires 0xc0 <= marker <= 0xcf && marker != 0xc4 && marker != 0xc8 && marker != 0xcc
    requires 6 <= |payload| <= 65533
    ensures ImageSize([0xff, 0xd8] + (RawBytes(raws) +
                      ([0xff, marker, (|payload| + 2) / 256, (|payload| + 2) % 256] + payload + tail)))
         == Some(Dimensions(256 * (payload[3] as int) + payload[4], 256 * (payload[1] as int) + payload[2]))
  {
    hide Scan;
    var frame := Frame(marker, payload);
    var rest := SegmentBytes(marker, payload) + tail;
    PassesOverAll(raws, rest);
    ScanFrame(frame, tail);
    var buffer := [0xff, 0xd8] + (RawBytes(raws) + rest);
    assert buffer[2..] == RawBytes(raws) + rest;
    assert buffer[0] == 0xff && PNG_SIGNATURE[0] == 0x89;
  }

  /** A frame header with a length of less than seven, or with fewer bytes behind it than its length says, gives
      no size. */
  lemma {:induction false} BrokenFrame(marker: Byte, high: Byte, low: Byte, rest: seq<Byte>)
    requires 0xc0 <= marker <= 0xcf && marker != 0xc4 && marker != 0xc8 && marker != 0xcc
    requires 256 * (high as int) + low < 7 || 256 * (high as int) + low > |rest| + 2
    ensures Scan([0xff, marker, high, low] + rest) == None
  {
    assert Word([0xff, marker, high, low] + rest, 2) == 256 * (high as int) + low;
  }

  /** The size of a PNG image stands in its header chunk, at bytes 16 and 20 (section 11.2.2 of the PNG
      specification). */
  lemma {:induction false} ReadsPng(chunk: seq<Byte>, w: seq<Byte>, h: seq<Byte>, tail: seq<Byte>)
    requires |chunk| == 8 && |w| == 4 && |h| == 4
    ensures ImageSize([137, 80, 78, 71, 13, 10, 26, 10] + chunk + w + h + tail)
         == Some(Dimensions(16777216 * (w[0] as int) + 65536 * (w[1] as int) + 256 * (w[2] as int) + w[3],
                            16777216 * (h[0] as int) + 65536 * (h[1] as int) + 256 * (h[2] as int) + h[3]))
  {
    hide Scan;
    var b := [137, 80, 78, 71, 13, 10, 26, 10] + chunk + w + h + tail;
    assert b[..8] == PNG_SIGNATURE;
    assert b[16] == w[0] && b[17] == w[1] && b[18] == w[2] && b[19] == w[3];
    assert b[20] == h[0] && b[21] == h[1] && b[22] == h[2] && b[23] == h[3];
  }

  /** Nothing else has a size. */
  lemma {:induction false} OtherFormats(b: seq<Byte>)
    requires |b| < 24 || b[..8] != [137, 80, 78, 71, 13, 10, 26, 10]
    requires |b| < 4 || b[0] != 0xff || b[1] != 0xd8
    ensures ImageSize(b) == None
  {
  }

  // ---------- fill bytes ----------

  function Fill(n: nat): (r: seq<Byte>)
    ensures |r| == n
  {
    seq(n, _ => 0xff)
  }

  /** A piece of the header after some fill bytes. */
  datatype Filled = Filled(fill: nat, piece: Piece)

  /** Marker segments and standalone markers other than TEM and the reserved ones. */
  predicate InHeader(p: Piece) {
    Skippable(p) && !p.Stray? && p.marker >= 0xc0
  }

  predicate AllInHeader(pieces: seq<Filled>) {
    forall i :: 0 <= i < |pieces| ==> InHeader(pieces[i].piece)
  }

  /** A header with fill bytes before its markers, `fill` of them before the frame header. */
  function HeaderBytes(pieces: seq<Filled>, fill: nat, f: Frame, tail: seq<Byte>): seq<Byte>
    requires AllInHeader(pieces) && ValidFrame(f)
  {
    if pieces == [] then Fill(fill) + (SegmentBytes(f.marker, f.payload) + tail)
    else Fill(pieces[0].fill) + (PieceBytes(pieces[0].piece) + HeaderBytes(pieces[1..], fill, f, tail))
  }

  predicate NoFill(pieces: seq<Filled>, fill: nat) {
    fill == 0 && forall i :: 0 <= i < |pieces| ==> pieces[i].fill == 0
  }

  /** The bytes from the first fill byte on. */
  function BehindFill(pieces: seq<Filled>, fill: nat, f: Frame, tail: seq<Byte>): nat
    requires AllInHeader(pieces) && ValidFrame(f)
  {
    if pieces == [] then (if fill == 0 then 0 else |HeaderBytes(pieces, fill, f, tail)|)
    else if pieces[0].fill > 0 then |HeaderBytes(pieces, fill, f, tail)|
    else BehindFill(pieces[1..], fill, f, tail)
  }

  /** Any number of 0xff bytes may fill the space before a marker (section B.1.1.2 of ITU-T T.81).  The reader
      takes the first of them for the start of a marker, the next byte for the marker, and what follows for its
      length: it goes on at least 48 KiB behind, or gives up. */
  lemma {:induction false} FillIsALongSegment(n: nat, marker: Byte, more: seq<Byte>)
    requires n >= 1 && marker >= 0xc0
    ensures var rest := Fill(n) + ([0xff, marker] + more);
            Scan(rest).Some? ==> |rest| >= 0xc002
  {
    var rest := Fill(n) + ([0xff, marker] + more);
    assert rest[0] == 0xff && rest[1] == 0xff;
    assert rest[2] >= 0xc0 by {
      assert rest[2] == if n == 1 then marker else 0xff;
    }
    if |rest| > 9 {
      assert Word(rest, 2) >= 0xc000;
    }
  }

  lemma {:induction false} HeaderIsLong(pieces: seq<Filled>, fill: nat, f: Frame, tail: seq<Byte>)
    requires AllInHeader(pieces) && ValidFrame(f) && |f.payload| + 2 >= 8
    ensures |HeaderBytes(pieces, fill, f, tail)| >= 10
    decreases |pieces|
  {
    if pieces == [] {
    } else {
      HeaderIsLong(pieces[1..], fill, f, tail);
    }
  }

  lemma {:induction false} FilledFirst(p: Filled, rest: seq<Byte>)
    requires InHeader(p.piece) && p.fill >= 1
    ensures var all := Fill(p.fill) + (PieceBytes(p.piece) + rest);
            Scan(all).Some? ==> |all| >= 0xc002
  {
    hide Scan;
    var bytes := PieceBytes(p.piece);
    assert bytes + rest == [0xff, p.piece.marker] + (bytes[2..] + rest);
    FillIsALongSegment(p.fill, p.piece.marker, bytes[2..] + rest);
  }

  lemma {:induction false} FilledFrame(fill: nat, f: Frame, tail: seq<Byte>)
    requires ValidFrame(f) && |f.payload| + 2 >= 8
    ensures var all := Fill(fill) + (SegmentBytes(f.marker, f.payload) + tail);
            if fill == 0 then Scan(all) == Some(Size(f)) else Scan(all).Some? ==> |all| >= 0xc002
  {
    hide Scan;
    var bytes := SegmentBytes(f.marker, f.payload);
    if fill == 0 {
      assert Fill(0) + (bytes + tail) == bytes + tail;
      ScanFrame(f, tail);
    } else {
      assert bytes + tail == [0xff, f.marker] + (bytes[2..] + tail);
      FillIsALongSegment(fill, f.marker, bytes[2..] + tail);
    }
  }

  /** A header with less than 48 KiB behind its first fill byte, in the whole file, is read if and only if there
      are no fill bytes in it; and if there are, nothing is reported. */
  lemma {:induction false} ReadsHeaderIffUnfilled(pieces: seq<Filled>, fill: nat, f: Frame, tail: seq<Byte>)
    requires AllInHeader(pieces) && ValidFrame(f) && |f.payload| + 2 >= 8
    requires BehindFill(pieces, fill, f, tail) < 0xc002
    ensures Scan(HeaderBytes(pieces, fill, f, tail)) == if NoFill(pieces, fill) then Some(Size(f)) else None
    decreases |pieces|
  {
    hide Scan, SegmentBytes, PieceBytes, Size, Skippable, ValidFrame;
    if pieces == [] {
      FilledFrame(fill, f, tail);
    } else if pieces[0].fill > 0 {
      FilledFirst(pieces[0], HeaderBytes(pieces[1..], fill, f, tail));
    } else {
      var rest := HeaderBytes(pieces[1..], fill, f, tail);
      HeaderIsLong(pieces[1..], fill, f, tail);
      HeaderPieceSkips(pieces[0].piece, rest);
      assert Fill(0) + (PieceBytes(pieces[0].piece) + rest) == PieceBytes(pieces[0].piece) + rest;
      ReadsHeaderIffUnfilled(pieces[1..], fill, f, tail);
      assert NoFill(pieces, fill) <==> NoFill(pieces[1..], fill) by {
        assert forall i :: 0 < i < |pieces| ==> pieces[i] == pieces[1..][i - 1];
      }
    }
  }

  lemma {:induction false} HeaderPieceSkips(p: Piece, rest: seq<Byte>)
    requires InHeader(p) && |rest| >= 10
    ensures Scan(PieceBytes(p) + rest) == Scan(rest)
  {
    hide Scan;
    ScanSkips(p, rest);
  }

  /** One fill byte before the frame header, exactly: how far the reader goes. */
  lemma {:induction false} FillByteHidesFrame(f: Frame, tail: seq<Byte>)
    requires ValidFrame(f) && |f.payload| + 2 >= 8
    ensures var rest := [0xff] + (SegmentBytes(f.marker, f.payload) + tail);
            var high: int := f.marker;
            var skipped := 2 + 0x100 * high + (|f.payload| + 2) / 0x100;
            && skipped >= 0xc002
            && Scan(rest) == if |rest| < skipped then None else Scan(rest[skipped..])
  {
    var high: int := f.marker;
    var rest := [0xff] + (SegmentBytes(f.marker, f.payload) + tail);
    assert rest[..4] == [0xff, 0xff, f.marker, (|f.payload| + 2) / 0x100];
    assert Word(rest, 2) == 0x100 * high + (|f.payload| + 2) / 0x100;
  }

  lemma {:induction false} FillByteExample()
    ensures var frame := SegmentBytes(0xc0, [8, 0, 16, 0, 32, 1]);
            Scan(frame) == Some(Dimensions(32, 16)) && Scan([0xff] + frame) == None
  {
    var frame := SegmentBytes(0xc0, [8, 0, 16, 0, 32, 1]);
    assert frame == [0xff, 0xc0, 0, 8, 8, 0, 16, 0, 32, 1];
    FillByteHidesFrame(Frame(0xc0, [8, 0, 16, 0, 32, 1]), []);
    assert frame + [] == frame;
  }
}
