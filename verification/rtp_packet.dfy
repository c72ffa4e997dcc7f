/** RTP packets and their wire form (section 5 of RFC 3550, section 4 of RFC 8285). */
module RtpPacket {
  import opened Serial
  import opened Wrappers
  import opened Binary

  datatype Extension = Extension(id: u8, payload: Bytes)

  datatype Header = Header(version: u8, padding: bool, extension: bool, marker: bool, payloadType: u8,
                           sequenceNumber: u16, timestamp: u32, ssrc: u32, csrc: seq<u32>,
                           extensionProfile: u16, extensions: seq<Extension>)

  datatype Packet = Packet(header: Header, payload: Bytes, paddingSize: u8)

  /** `Unindexable` stands for reading past the end of the buffer, where the program would stop. */
  datatype Error = HeaderTooShort | ExtensionTooShort | TooSmall | ShortBuffer | Unindexable

  const ONE_BYTE := 0xBEDE
  const TWO_BYTE := 0x1000

  // ---- Lists of 32-bit words ----

  function EncodeWords(s: seq<u32>): (b: Bytes)
    ensures |b| == 4 * |s|
  {
    if s == [] then [] else Be(s[0], 4) + EncodeWords(s[1..])
  }

  function DecodeWords(b: Bytes, n: nat): (s: seq<u32>)
    requires |b| >= 4 * n
    ensures |s| == n
    decreases n, b
  {
    if n == 0 then [] else
      BeValueBound(b[..4]); Bounds();
      [BeValue(b[..4])] + DecodeWords(b[4..], n - 1)
  }

  lemma {:induction false} WordsRoundTrip(s: seq<u32>, rest: Bytes)
    ensures DecodeWords(EncodeWords(s) + rest, |s|) == s
    decreases |s|
  {
    if s != [] {
      var head, tail := Be(s[0], 4), EncodeWords(s[1..]) + rest;
      JoinsLeft(head, EncodeWords(s[1..]), rest);
      SplitAt(head, tail);
      Bounds();
      BeRoundTrip(s[0], 4);
      WordsRoundTrip(s[1..], rest);
    }
  }

  // ---- Header extensions ----

  function Zeros(n: nat): (r: Bytes)
    ensures |r| == n
    decreases n
  {
    if n == 0 then [] else [0] + Zeros(n - 1)
  }

  /** One extension in the one-byte form: identifier and length share a byte, in 8-bit arithmetic. */
  function EncodeOneByte(e: Extension): (b: Bytes)
    ensures |b| == 1 + |e.payload|
  {
    [Or(e.id % 16 * 16, (|e.payload| + 255) % 256)] + e.payload
  }

  function EncodeTwoByte(e: Extension): (b: Bytes)
    ensures |b| == 2 + |e.payload|
  {
    [e.id, |e.payload| % 256] + e.payload
  }

  /** The extensions that the loops can return: identifier 15 is reserved and a null octet is padding. */
  predicate OneByteReadable(e: Extension) {
    e.id <= 14 && 1 <= |e.payload| <= 16 && !(e.id == 0 && |e.payload| == 1)
  }

  predicate TwoByteReadable(e: Extension) { 1 <= e.id && |e.payload| <= 255 }

  datatype Parsed = Parsed(extensions: seq<Extension>, used: nat)

  function Prepend(e: seq<Extension>, n: nat, r: Result<Parsed, Error>): Result<Parsed, Error> {
    if r.Err? then r else Ok(Parsed(e + r.value.extensions, n + r.value.used))
  }

  /** What starts at the current byte: padding, the reserved identifier, an extension of `n` bytes in all,
      or one that runs past the end of the buffer. */
  datatype Piece = Pad | Reserved | Ext(e: Extension, n: nat) | Overrun

  function OneBytePiece(b: Bytes): Piece {
    if b == [] then Overrun
    else if b[0] == 0 then Pad
    else
      var id, n := b[0] / 16, b[0] % 16 + 1;
      if id == 15 then Reserved else if |b| < 1 + n then Overrun else Ext(Extension(id, b[1..1 + n]), 1 + n)
  }

  function TwoBytePiece(b: Bytes): Piece {
    if b == [] then Overrun
    else if b[0] == 0 then Pad
    else if |b| < 2 then Overrun
    else
      var n: nat := b[1];
      if |b| < 2 + n then Overrun else Ext(Extension(b[0], b[2..2 + n]), 2 + n)
  }

  /** How single extensions are written and recognised. */
  datatype Form = Form(enc: Extension -> Bytes, piece: Bytes -> Piece)

  function OneByteForm(): Form { Form(EncodeOneByte, OneBytePiece) }
  function TwoByteForm(): Form { Form(EncodeTwoByte, TwoBytePiece) }

  /** Padding is recognised, and the extension is read back whatever follows it. */
  ghost predicate Reads(f: Form, e: Extension) {
    f.enc(e) != [] && forall rest :: f.piece(f.enc(e) + rest) == Ext(e, |f.enc(e)|)
  }

  ghost predicate SkipsPadding(f: Form) {
    forall b: Bytes :: b != [] && b[0] == 0 ==> f.piece(b) == Pad
  }

  function EncodeList(f: Form, es: seq<Extension>): Bytes {
    if es == [] then [] else f.enc(es[0]) + EncodeList(f, es[1..])
  }

  /** The extension loop, on the buffer from the current byte on; `left` bytes of extension remain. The
      reserved identifier ends the loop where it stands. */
  function DecodeList(piece: Bytes -> Piece, b: Bytes, left: int): Result<Parsed, Error>
    decreases |b|
  {
    if left <= 0 then Ok(Parsed([], 0))
    else if b == [] then Err(Unindexable)
    else
      match piece(b)
      case Overrun => Err(Unindexable)
      case Pad => Prepend([], 1, DecodeList(piece, b[1..], left - 1))
      case Reserved => Ok(Parsed([], 1))
      case Ext(e, n) =>
        if n == 0 || n > |b| then Err(Unindexable) else Prepend([e], n, DecodeList(piece, b[n..], left - n))
  }

  lemma {:induction false} PaddingSkipped(piece: Bytes -> Piece, n: nat, rest: Bytes)
    requires forall b: Bytes :: b != [] && b[0] == 0 ==> piece(b) == Pad
    ensures DecodeList(piece, Zeros(n) + rest, n) == Ok(Parsed([], n))
    decreases n
  {
    if n > 0 {
      var b := Zeros(n) + rest;
      assert b[0] == 0 && b[1..] == Zeros(n - 1) + rest;
      PaddingSkipped(piece, n - 1, rest);
      var none: seq<Extension> := [];
      assert none + none == none;
    }
  }

  lemma OrNibbles(high: nat, low: nat)
    requires high <= 15 && low <= 15
    ensures Or(high * 16, low) == high * 16 + low
  {
    ShiftBy4(high);
    ShiftBy4(1);
    OrDisjoint(low, high, 4, 4);
  }

  lemma OneByteFields(id: nat, n: nat, x: nat)
    requires id <= 14 && 1 <= n <= 16 && !(id == 0 && n == 1) && x == id * 16 + (n - 1)
    ensures x != 0 && x / 16 == id && x % 16 + 1 == n
  {}

  lemma OneByteRead(e: Extension, x: Bytes, rest: Bytes)
    requires OneByteReadable(e) && x != [] && x[0] as nat == e.id * 16 + (|e.payload| - 1) && x[1..] == e.payload
    ensures OneBytePiece(x + rest) == Ext(e, |x|)
  {
    OneByteFields(e.id, |e.payload|, x[0]);
    assert (x + rest)[0] == x[0] && (x + rest)[1..|x|] == x[1..];
  }

  lemma OneByteWritten(e: Extension)
    requires OneByteReadable(e)
    ensures var x := EncodeOneByte(e); x[0] as nat == e.id * 16 + (|e.payload| - 1) && x[1..] == e.payload
  {
    assert e.id % 16 == e.id && (|e.payload| + 255) % 256 == |e.payload| - 1;
    OrNibbles(e.id, |e.payload| - 1);
  }

  lemma OneByteReads(e: Extension)
    requires OneByteReadable(e)
    ensures Reads(OneByteForm(), e)
  {
    var x := EncodeOneByte(e);
    OneByteWritten(e);
    forall rest ensures OneBytePiece(x + rest) == Ext(e, |x|) { OneByteRead(e, x, rest); }
  }

  lemma TwoByteReads(e: Extension)
    requires TwoByteReadable(e)
    ensures Reads(TwoByteForm(), e)
  {
    var x := EncodeTwoByte(e);
    forall rest ensures TwoBytePiece(x + rest) == Ext(e, |x|) {
      var b := x + rest;
      assert b[0] == x[0] && b[1] == x[1] && b[2..|x|] == x[2..] == e.payload;
    }
  }

  lemma ListStep(piece: Bytes -> Piece, e: Extension, x: Bytes, rest: Bytes, left: nat, more: Parsed)
    requires x != [] && piece(x + rest) == Ext(e, |x|) && DecodeList(piece, rest, left) == Ok(more)
    ensures DecodeList(piece, x + rest, |x| + left) == Ok(Parsed([e] + more.extensions, |x| + more.used))
  {
    SplitAt(x, rest);
  }

  lemma ReadsNext(f: Form, e: Extension, rest: Bytes)
    requires Reads(f, e)
    ensures f.enc(e) != [] && f.piece(f.enc(e) + rest) == Ext(e, |f.enc(e)|)
  {}

  ghost predicate ReadsAll(f: Form, es: seq<Extension>) {
    es == [] || (Reads(f, es[0]) && ReadsAll(f, es[1..]))
  }

  /** The list is read back and the alignment padding after it skipped. */
  lemma {:induction false} ListRoundTrip(f: Form, es: seq<Extension>, n: nat, rest: Bytes)
    requires SkipsPadding(f) && ReadsAll(f, es)
    ensures var x := EncodeList(f, es);
            DecodeList(f.piece, x + (Zeros(n) + rest), |x| + n) == Ok(Parsed(es, |x| + n))
    decreases |es|
  {
    if es == [] {
      assert [] + (Zeros(n) + rest) == Zeros(n) + rest;
      PaddingSkipped(f.piece, n, rest);
    } else {
      ListRoundTrip(f, es[1..], n, rest);
      ListFirst(f, es, Zeros(n) + rest, n, n);
    }
  }

  /** One entry in front of a list that is read back. */
  lemma ListFirst(f: Form, es: seq<Extension>, rest: Bytes, left: nat, used: nat)
    requires es != [] && Reads(f, es[0])
    requires var tail := EncodeList(f, es[1..]);
             DecodeList(f.piece, tail + rest, |tail| + left) == Ok(Parsed(es[1..], |tail| + used))
    ensures var x := EncodeList(f, es); DecodeList(f.piece, x + rest, |x| + left) == Ok(Parsed(es, |x| + used))
  {
    var x, tail := f.enc(es[0]), EncodeList(f, es[1..]);
    ReadsNext(f, es[0], tail + rest);
    ListStep(f.piece, es[0], x, tail + rest, |tail| + left, Parsed(es[1..], |tail| + used));
    JoinsLeft(x, tail, rest);
    assert es == [es[0]] + es[1..];
  }

  // ---- Headers ----

  predicate Listed(profile: u16) { profile == ONE_BYTE || profile == TWO_BYTE }

  /** An RFC 3550 extension is there to be written; without one the program would stop. */
  predicate Encodable(h: Header) { h.extension && !Listed(h.extensionProfile) ==> h.extensions != [] }

  function Rounded(n: nat): nat { (n + 3) / 4 * 4 }

  lemma RoundedIs(n: nat)
    ensures n <= Rounded(n) < n + 4 && Rounded(n) % 4 == 0 && Rounded(n + 4) == Rounded(n) + 4
            && (n % 4 == 0 ==> Rounded(n) == n)
  {}

  /** Version and source count, then the padding and extension bits, in 8-bit arithmetic. */
  function Flags(version: u8, cc: nat, padding: bool, extension: bool): u8 {
    var b0 := Or(version % 4 * 64, cc % 256);
    var b1 := if padding then Or(b0, 32) else b0;
    if extension then Or(b1, 16) else b1
  }

  function TypeByte(h: Header): u8 { if h.marker then Or(h.payloadType, 128) else h.payloadType }

  function Fixed(h: Header): (b: Bytes)
    ensures |b| == 12
  {
    [Flags(h.version, |h.csrc|, h.padding, h.extension), TypeByte(h)]
    + (Be(h.sequenceNumber, 2) + (Be(h.timestamp, 4) + Be(h.ssrc, 4)))
  }

  /** The extensions themselves, before padding. */
  function ExtensionBytes(h: Header): Bytes
    requires Encodable(h) && h.extension
  {
    if h.extensionProfile == ONE_BYTE then EncodeList(OneByteForm(), h.extensions)
    else if h.extensionProfile == TWO_BYTE then EncodeList(TwoByteForm(), h.extensions)
    else h.extensions[0].payload
  }

  function ExtensionBlock(h: Header): Bytes
    requires Encodable(h) && h.extension
  {
    var x := ExtensionBytes(h);
    RoundedIs(|x|);
    Be(h.extensionProfile, 2) + (Be(Rounded(|x|) / 4, 2) + (x + Zeros(Rounded(|x|) - |x|)))
  }

  /** None where the code reports a short buffer for an extension that is not whole words. */
  function EncodeHeader(h: Header): Option<Bytes>
    requires Encodable(h)
  {
    if h.extension && !Listed(h.extensionProfile) && |h.extensions[0].payload| % 4 != 0 then None
    else Some(Fixed(h) + (EncodeWords(h.csrc) + (if h.extension then ExtensionBlock(h) else [])))
  }

  function ListSize(es: seq<Extension>, overhead: nat): nat {
    if es == [] then 0 else overhead + |es[0].payload| + ListSize(es[1..], overhead)
  }

  function ExtensionSize(h: Header): nat
    requires Encodable(h) && h.extension
  {
    if h.extensionProfile == ONE_BYTE then ListSize(h.extensions, 1)
    else if h.extensionProfile == TWO_BYTE then ListSize(h.extensions, 2)
    else |h.extensions[0].payload|
  }

  function MarshalSize(h: Header): nat
    requires Encodable(h)
  {
    12 + 4 * |h.csrc| + if h.extension then Rounded(4 + ExtensionSize(h)) else 0
  }

  lemma {:induction false} OneByteSize(es: seq<Extension>)
    ensures |EncodeList(OneByteForm(), es)| == ListSize(es, 1)
  {
    if es != [] { OneByteSize(es[1..]); }
  }

  lemma {:induction false} TwoByteSize(es: seq<Extension>)
    ensures |EncodeList(TwoByteForm(), es)| == ListSize(es, 2)
  {
    if es != [] { TwoByteSize(es[1..]); }
  }

  lemma ExtensionSizeIs(h: Header)
    requires Encodable(h) && h.extension
    ensures |ExtensionBytes(h)| == ExtensionSize(h)
  {
    if h.extensionProfile == ONE_BYTE { OneByteSize(h.extensions); }
    else if h.extensionProfile == TWO_BYTE { TwoByteSize(h.extensions); }
  }

  /** MarshalSize is the size of what is marshalled. */
  lemma MarshalSizeIs(h: Header)
    requires Encodable(h) && EncodeHeader(h).Some?
    ensures |EncodeHeader(h).value| == MarshalSize(h)
  {
    if h.extension {
      ExtensionSizeIs(h);
      RoundedIs(ExtensionSize(h));
    }
  }

  // ---- Valid headers ----

  predicate InRange(h: Header) { h.version < 4 && h.payloadType < 128 && |h.csrc| <= 15 }

  /** Headers that a packet can carry: fields within the ranges of the wire, extensions that can be read back
      in the form the profile says, a block whose length fits its field, and none without the extension bit. */
  predicate Valid(h: Header) {
    && InRange(h)
    && (if !h.extension then h.extensions == [] && h.extensionProfile == 0
        else
          && Encodable(h) && Rounded(ExtensionSize(h)) / 4 < 0x1_0000
          && if h.extensionProfile == ONE_BYTE
             then forall i :: 0 <= i < |h.extensions| ==> OneByteReadable(h.extensions[i])
             else if h.extensionProfile == TWO_BYTE
             then forall i :: 0 <= i < |h.extensions| ==> TwoByteReadable(h.extensions[i])
             else |h.extensions| == 1 && h.extensions[0].id == 0 && |h.extensions[0].payload| % 4 == 0)
  }

  // ---- Reading a header ----

  datatype ReadHeader = ReadHeader(header: Header, n: nat)

  function WithList(h: Header, profile: u16, list: Result<Parsed, Error>): Result<ReadHeader, Error> {
    if list.Err? then Err(list.error)
    else Ok(ReadHeader(h.(extensionProfile := profile, extensions := list.value.extensions), 4 + list.value.used))
  }

  /** `length` bytes of extension follow. */
  function DecodeExtensions(h: Header, profile: u16, length: nat, rest: Bytes): Result<ReadHeader, Error> {
    if |rest| < length then Err(ExtensionTooShort)
    else if !Listed(profile) then
      Ok(ReadHeader(h.(extensionProfile := profile, extensions := [Extension(0, rest[..length])]), 4 + length))
    else if profile == ONE_BYTE then WithList(h, profile, DecodeList(OneBytePiece, rest, length))
    else WithList(h, profile, DecodeList(TwoBytePiece, rest, length))
  }

  /** Profile, length in words, and the extensions; `n` is how many bytes they took. */
  function DecodeBlock(h: Header, b: Bytes): Result<ReadHeader, Error> {
    if |b| < 4 then Err(ExtensionTooShort)
    else
      BeValueBound(b[..2]); BeValueBound(b[2..4]); Bounds();
      DecodeExtensions(h, BeValue(b[..2]), 4 * BeValue(b[2..4]), b[4..])
  }

  function FieldsOf(b: Bytes): Header
    requires |b| >= 12
  {
    BeValueBound(b[2..][..2]); BeValueBound(b[4..][..4]); BeValueBound(b[8..][..4]); Bounds();
    Header(b[0] / 64, b[0] / 32 % 2 == 1, b[0] / 16 % 2 == 1, b[1] >= 128, b[1] % 128,
           BeValue(b[2..][..2]), BeValue(b[4..][..4]), BeValue(b[8..][..4]), [], 0, [])
  }

  /** Contributing sources and extensions, after the fixed fields. */
  function DecodeTail(h: Header, cc: nat, b: Bytes): Result<ReadHeader, Error>
    requires |b| >= 4 * cc
  {
    var h' := h.(csrc := DecodeWords(b, cc));
    if !h.extension then Ok(ReadHeader(h', 12 + 4 * cc))
    else
      var r := DecodeBlock(h', b[4 * cc..]);
      if r.Err? then r else Ok(ReadHeader(r.value.header, 12 + 4 * cc + r.value.n))
  }

  function DecodeHeader(b: Bytes): Result<ReadHeader, Error> {
    if |b| < 4 then Err(HeaderTooShort)
    else
      var cc := b[0] % 16;
      if |b| < 12 + 4 * cc then Err(HeaderTooShort) else DecodeTail(FieldsOf(b), cc, b[12..])
  }

  lemma OrBit(high: nat, low: nat, m: nat, n: nat)
    requires m + n == 8 && n > 0 && low < Shift(1, m) && 2 * high + 1 < Shift(1, n)
    ensures OrBits(low + Shift(2 * high, m), Shift(1, m), 8) == low + Shift(2 * high + 1, m)
  {
    OrSplits(low, 0, 2 * high, 1, m, n);
    OrNothing(low, m);
    OrLowest(high, n);
  }

  lemma OrLowest(high: nat, n: nat)
    requires n > 0 && 2 * high + 1 < Shift(1, n)
    ensures OrBits(2 * high, 1, n) == 2 * high + 1
  {
    assert Shift(1, n) == 2 * Shift(1, n - 1);
    OrNothing(high, n - 1);
    assert 2 * high / 2 == high && 1 / 2 == 0;
  }

  lemma SmallShifts(c: nat)
    ensures Shift(c, 5) == 32 * c && Shift(c, 6) == 64 * c && Shift(c, 7) == 128 * c
    ensures Shift(c, 1) == 2 * c && Shift(c, 2) == 4 * c && Shift(c, 3) == 8 * c
  {
    ShiftBy4(c);
    assert Shift(c, 5) == 2 * Shift(c, 4) && Shift(c, 6) == 2 * Shift(c, 5);
    assert Shift(c, 1) == 2 * Shift(c, 0) && Shift(c, 2) == 2 * Shift(c, 1) && Shift(c, 3) == 2 * Shift(c, 2);
  }

  lemma VersionAndCount(a: u8, v: nat, cc: u8)
    requires v < 4 && a == 64 * v && cc <= 15
    ensures Or(a, cc) == a + cc
  {
    SmallShifts(v); SmallShifts(1);
    OrDisjoint(cc, v, 6, 2);
  }

  lemma PaddingBit(b: u8, v: nat, cc: nat)
    requires v < 4 && cc <= 15 && b == 64 * v + cc
    ensures Or(b, 32) == b + 32
  {
    SmallShifts(2 * v); SmallShifts(2 * v + 1); SmallShifts(1);
    OrBit(v, cc, 5, 3);
  }

  lemma ExtensionBit(b: u8, x: nat, cc: nat)
    requires x < 8 && cc <= 15 && b == 32 * x + cc
    ensures Or(b, 16) == b + 16
  {
    ShiftBy4(2 * x); ShiftBy4(2 * x + 1); ShiftBy4(1);
    OrBit(x, cc, 4, 4);
  }

  lemma MarkerBit(t: u8)
    requires t < 128
    ensures Or(t, 128) == t + 128
  {
    SmallShifts(0); SmallShifts(1);
    OrBit(0, t, 7, 1);
  }

  /** Within their ranges the fields of the first byte do not touch. */
  lemma FirstByte(v: u8, cc: nat, p: bool, x: bool)
    requires v < 4 && cc <= 15
    ensures Flags(v, cc, p, x) == 64 * v + (if p then 32 else 0) + (if x then 16 else 0) + cc
  {
    assert v % 4 == v && cc % 256 == cc;
    var b0 := Or(v % 4 * 64, cc % 256);
    VersionAndCount(v % 4 * 64, v, cc % 256);
    assert b0 == 64 * v + cc;
    PaddingBit(b0, v, cc);
    var b1 := if p then Or(b0, 32) else b0;
    assert b1 == 64 * v + (if p then 32 else 0) + cc;
    ExtensionBit(b1, 2 * v + if p then 1 else 0, cc);
  }

  lemma FirstByteFields(v: nat, p: bool, x: bool, cc: nat)
    requires v < 4 && cc <= 15
    ensures var b := 64 * v + (if p then 32 else 0) + (if x then 16 else 0) + cc;
            b / 64 == v && (b / 32 % 2 == 1 <==> p) && (b / 16 % 2 == 1 <==> x) && b % 16 == cc
  {}

  lemma FixedNumbers(h: Header)
    ensures var f := Fixed(h);
            BeValue(f[2..4]) == h.sequenceNumber && BeValue(f[4..8]) == h.timestamp && BeValue(f[8..12]) == h.ssrc
  {
    var f := Fixed(h);
    Bounds();
    BeRoundTrip(h.sequenceNumber, 2);
    BeRoundTrip(h.timestamp, 4);
    BeRoundTrip(h.ssrc, 4);
    assert f[2..4] == Be(h.sequenceNumber, 2) && f[4..8] == Be(h.timestamp, 4) && f[8..12] == Be(h.ssrc, 4);
  }

  lemma FlagsRead(h: Header)
    requires InRange(h)
    ensures var b: u8 := Flags(h.version, |h.csrc|, h.padding, h.extension);
            && b / 64 == h.version && (b / 32 % 2 == 1) == h.padding && (b / 16 % 2 == 1) == h.extension
            && b % 16 == |h.csrc|
  {
    FirstByte(h.version, |h.csrc|, h.padding, h.extension);
    FirstByteFields(h.version, h.padding, h.extension, |h.csrc|);
  }

  lemma TypeRead(h: Header)
    requires InRange(h)
    ensures var b := TypeByte(h); (b >= 128) == h.marker && b % 128 == h.payloadType
  {
    if h.marker { MarkerBit(h.payloadType); }
    SevenBits(h.payloadType, TypeByte(h), h.marker);
  }

  lemma SevenBits(t: u8, b: u8, marker: bool)
    requires t < 128 && b == if marker then t + 128 else t
    ensures (b >= 128) == marker && b % 128 == t
  {}

  lemma FixedRoundTrip(h: Header, rest: Bytes)
    requires InRange(h)
    ensures var b := Fixed(h) + rest;
            && b[0] % 16 == |h.csrc| && b[12..] == rest
            && FieldsOf(b) == h.(csrc := [], extensionProfile := 0, extensions := [])
  {
    var f := Fixed(h);
    var b := f + rest;
    FlagsRead(h);
    TypeRead(h);
    FixedNumbers(h);
    SplitAt(f, rest);
    assert b[0] == f[0] && b[1] == f[1];
    assert b[2..][..2] == f[2..4] && b[4..][..4] == f[4..8] && b[8..][..4] == f[8..12];
  }

  lemma FormsSkipPadding()
    ensures SkipsPadding(OneByteForm()) && SkipsPadding(TwoByteForm())
  {}

  lemma {:induction false} AllOneByte(es: seq<Extension>)
    requires forall i :: 0 <= i < |es| ==> OneByteReadable(es[i])
    ensures ReadsAll(OneByteForm(), es)
  {
    if es != [] {
      OneByteReads(es[0]);
      AllOneByte(es[1..]);
    }
  }

  lemma {:induction false} AllTwoByte(es: seq<Extension>)
    requires forall i :: 0 <= i < |es| ==> TwoByteReadable(es[i])
    ensures ReadsAll(TwoByteForm(), es)
  {
    if es != [] {
      TwoByteReads(es[0]);
      AllTwoByte(es[1..]);
    }
  }

  lemma BlockHead(profile: u16, words: nat, rest: Bytes)
    requires words < 0x1_0000
    ensures var b := Be(profile, 2) + (Be(words, 2) + rest);
            |b| == 4 + |rest| && BeValue(b[..2]) == profile && BeValue(b[2..4]) == words && b[4..] == rest
  {
    var b := Be(profile, 2) + (Be(words, 2) + rest);
    Bounds();
    BeRoundTrip(profile, 2);
    BeRoundTrip(words, 2);
    assert b[..2] == Be(profile, 2) && b[2..4] == Be(words, 2) && b[4..] == rest;
  }

  lemma Quarters(n: nat)
    requires n % 4 == 0
    ensures 4 * (n / 4) == n
  {}

  lemma WholeExtension(h: Header, rest: Bytes)
    requires Valid(h) && h.extension && !Listed(h.extensionProfile)
    ensures var x := ExtensionBytes(h);
            DecodeExtensions(h.(extensionProfile := 0, extensions := []), h.extensionProfile, |x|,
                             x + (Zeros(0) + rest))
            == Ok(ReadHeader(h, 4 + |x|))
  {
    var x := ExtensionBytes(h);
    assert (x + (Zeros(0) + rest))[..|x|] == x && h.extensions == [Extension(0, x)];
  }

  lemma ListIn(f: Form, es: seq<Extension>, b: Bytes, n: nat, rest: Bytes)
    requires SkipsPadding(f) && ReadsAll(f, es) && |EncodeList(f, es)| <= n
    requires b == EncodeList(f, es) + (Zeros(n - |EncodeList(f, es)|) + rest)
    ensures DecodeList(f.piece, b, n) == Ok(Parsed(es, n))
  {
    ListRoundTrip(f, es, n - |EncodeList(f, es)|, rest);
  }

  /** Lists of either kind are read back, padding and all. */
  lemma OneByteIn(es: seq<Extension>, b: Bytes, n: nat, rest: Bytes)
    requires (forall i :: 0 <= i < |es| ==> OneByteReadable(es[i])) && |EncodeList(OneByteForm(), es)| <= n
    requires b == EncodeList(OneByteForm(), es) + (Zeros(n - |EncodeList(OneByteForm(), es)|) + rest)
    ensures DecodeList(OneBytePiece, b, n) == Ok(Parsed(es, n))
  {
    FormsSkipPadding();
    AllOneByte(es);
    ListIn(OneByteForm(), es, b, n, rest);
  }

  lemma TwoByteIn(es: seq<Extension>, b: Bytes, n: nat, rest: Bytes)
    requires (forall i :: 0 <= i < |es| ==> TwoByteReadable(es[i])) && |EncodeList(TwoByteForm(), es)| <= n
    requires b == EncodeList(TwoByteForm(), es) + (Zeros(n - |EncodeList(TwoByteForm(), es)|) + rest)
    ensures DecodeList(TwoBytePiece, b, n) == Ok(Parsed(es, n))
  {
    FormsSkipPadding();
    AllTwoByte(es);
    ListIn(TwoByteForm(), es, b, n, rest);
  }

  lemma ListArrives(h0: Header, profile: u16, n: nat, b: Bytes, es: seq<Extension>)
    requires |b| >= n
    requires (profile == ONE_BYTE && DecodeList(OneBytePiece, b, n) == Ok(Parsed(es, n)))
             || (profile == TWO_BYTE && DecodeList(TwoBytePiece, b, n) == Ok(Parsed(es, n)))
    ensures DecodeExtensions(h0, profile, n, b) ==
              Ok(ReadHeader(h0.(extensionProfile := profile, extensions := es), 4 + n))
  {}

  /** What DecodeExtensions makes of a valid header's extensions. */
  lemma ExtensionsArrive(h: Header, h0: Header, n: nat, b: Bytes, rest: Bytes)
    requires Valid(h) && h.extension && h0 == h.(extensionProfile := 0, extensions := [])
    requires n == Rounded(|ExtensionBytes(h)|) >= |ExtensionBytes(h)|
    requires b == ExtensionBytes(h) + (Zeros(n - |ExtensionBytes(h)|) + rest)
    ensures DecodeExtensions(h0, h.extensionProfile, n, b) == Ok(ReadHeader(h, 4 + n))
  {
    if h.extensionProfile == ONE_BYTE {
      OneByteIn(h.extensions, b, n, rest);
      ListArrives(h0, h.extensionProfile, n, b, h.extensions);
    } else if h.extensionProfile == TWO_BYTE {
      TwoByteIn(h.extensions, b, n, rest);
      ListArrives(h0, h.extensionProfile, n, b, h.extensions);
    } else {
      RoundedIs(|ExtensionBytes(h)|);
      WholeExtension(h, rest);
    }
  }

  lemma BlockDecodes(h: Header, b: Bytes, profile: u16, words: nat, more: Bytes)
    requires b == Be(profile, 2) + (Be(words, 2) + more) && words < 0x1_0000
    ensures DecodeBlock(h, b) == DecodeExtensions(h, profile, 4 * words, more) && |b| == 4 + |more|
  {
    BlockHead(profile, words, more);
  }

  lemma BlockRoundTrip(h: Header, rest: Bytes)
    requires Valid(h) && h.extension
    ensures |ExtensionBlock(h)| == 4 + Rounded(ExtensionSize(h))
    ensures DecodeBlock(h.(extensionProfile := 0, extensions := []), ExtensionBlock(h) + rest)
         == Ok(ReadHeader(h, 4 + Rounded(ExtensionSize(h))))
  {
    ExtensionSizeIs(h);
    RoundedIs(|ExtensionBytes(h)|);
    BlockSplits(h, rest);
    var n := Rounded(ExtensionSize(h));
    Quarters(n);
    BlockRead(h, h.(extensionProfile := 0, extensions := []), n / 4,
              ExtensionBytes(h) + (Zeros(n - ExtensionSize(h)) + rest), ExtensionBlock(h) + rest, rest);
  }

  lemma BlockRead(h: Header, h0: Header, words: nat, more: Bytes, b: Bytes, rest: Bytes)
    requires Valid(h) && h.extension && h0 == h.(extensionProfile := 0, extensions := [])
    requires 4 * words == Rounded(|ExtensionBytes(h)|) >= |ExtensionBytes(h)| && words < 0x1_0000
    requires more == ExtensionBytes(h) + (Zeros(4 * words - |ExtensionBytes(h)|) + rest)
    requires b == Be(h.extensionProfile, 2) + (Be(words, 2) + more)
    ensures DecodeBlock(h0, b) == Ok(ReadHeader(h, 4 + 4 * words))
  {
    ExtensionsArrive(h, h0, 4 * words, more, rest);
    BlockDecodes(h0, b, h.extensionProfile, words, more);
  }

  lemma BlockSplits(h: Header, rest: Bytes)
    requires Encodable(h) && h.extension
    ensures var x := ExtensionBytes(h);
            var n := Rounded(|x|);
            && |x| <= n
            && ExtensionBlock(h) + rest == Be(h.extensionProfile, 2) + (Be(n / 4, 2) + (x + (Zeros(n - |x|) + rest)))
  {
    var x := ExtensionBytes(h);
    var n := Rounded(|x|);
    RoundedIs(|x|);
    var z := Zeros(n - |x|);
    JoinsLeft(Be(h.extensionProfile, 2), Be(n / 4, 2) + (x + z), rest);
    JoinsLeft(Be(n / 4, 2), x + z, rest);
    JoinsLeft(x, z, rest);
  }

  lemma WordsThenRest(csrc: seq<u32>, rest: Bytes)
    ensures var b := EncodeWords(csrc) + rest; DecodeWords(b, |csrc|) == csrc && b[4 * |csrc|..] == rest
  {
    WordsRoundTrip(csrc, rest);
    SplitAt(EncodeWords(csrc), rest);
  }

  lemma TailFrom(h0: Header, cc: nat, b: Bytes, csrc: seq<u32>, more: Bytes, read: ReadHeader)
    requires h0.extension && |b| >= 4 * cc && DecodeWords(b, cc) == csrc && b[4 * cc..] == more
    requires DecodeBlock(h0.(csrc := csrc), more) == Ok(read)
    ensures DecodeTail(h0, cc, b) == Ok(ReadHeader(read.header, 12 + 4 * cc + read.n))
  {}

  lemma TailRoundTrip(h: Header, h0: Header, block: Bytes, rest: Bytes, tail: Bytes, n: nat, size: nat)
    requires h0 == h.(csrc := [], extensionProfile := 0, extensions := [])
             && tail == EncodeWords(h.csrc) + (block + rest)
    requires if h.extension
             then DecodeBlock(h.(extensionProfile := 0, extensions := []), block + rest) == Ok(ReadHeader(h, n))
             else h.extensionProfile == 0 && h.extensions == []
    requires size == 12 + 4 * |h.csrc| + if h.extension then n else 0
    ensures DecodeTail(h0, |h.csrc|, tail) == Ok(ReadHeader(h, size))
  {
    WordsThenRest(h.csrc, block + rest);
    if h.extension { TailFrom(h0, |h.csrc|, tail, h.csrc, block + rest, ReadHeader(h, n)); }
  }

  lemma HeaderFrom(b: Bytes, h0: Header, cc: nat, tail: Bytes, read: ReadHeader)
    requires |b| >= 12 + 4 * cc && b[0] % 16 == cc && b[12..] == tail && FieldsOf(b) == h0
    requires DecodeTail(h0, cc, tail) == Ok(read)
    ensures DecodeHeader(b) == Ok(read)
  {}

  /** The parts of a marshalled header, from the fixed fields on. */
  lemma HeaderParts(h: Header, rest: Bytes)
    requires Encodable(h) && EncodeHeader(h).Some?
    ensures var block := if h.extension then ExtensionBlock(h) else [];
            EncodeHeader(h).value + rest == Fixed(h) + (EncodeWords(h.csrc) + (block + rest))
  {
    var words, block := EncodeWords(h.csrc), if h.extension then ExtensionBlock(h) else [];
    JoinsLeft(Fixed(h), words + block, rest);
    JoinsLeft(words, block, rest);
  }

  lemma SizeOf(h: Header)
    requires Valid(h)
    ensures EncodeHeader(h).Some?
    ensures MarshalSize(h) == 12 + 4 * |h.csrc| + if h.extension then 4 + Rounded(ExtensionSize(h)) else 0
  {
    if h.extension { RoundedIs(ExtensionSize(h)); }
  }

  /** Every field of a valid header is restored, and exactly MarshalSize bytes are consumed. */
  lemma HeaderRoundTrip(h: Header, rest: Bytes)
    requires Valid(h)
    ensures EncodeHeader(h).Some? && |EncodeHeader(h).value| == MarshalSize(h)
    ensures DecodeHeader(EncodeHeader(h).value + rest) == Ok(ReadHeader(h, MarshalSize(h)))
  {
    SizeOf(h);
    MarshalSizeIs(h);
    var block := if h.extension then ExtensionBlock(h) else [];
    var n := if h.extension then 4 + Rounded(ExtensionSize(h)) else 0;
    var tail, size := EncodeWords(h.csrc) + (block + rest), MarshalSize(h);
    var h0 := h.(csrc := [], extensionProfile := 0, extensions := []);
    HeaderParts(h, rest);
    FixedRoundTrip(h, tail);
    if h.extension { BlockRoundTrip(h, rest); }
    TailRoundTrip(h, h0, block, rest, tail, n, size);
    HeaderFrom(EncodeHeader(h).value + rest, h0, |h.csrc|, tail, ReadHeader(h, size));
  }

  // ---- Packets ----

  /** Padding ends with its own size; what is before that does not matter. */
  function EncodePacket(p: Packet, filler: Bytes): Option<Bytes>
    requires Encodable(p.header)
  {
    var h := EncodeHeader(p.header.(padding := p.paddingSize != 0));
    if h.None? then None
    else Some(h.value + (p.payload + PaddingOf(p, filler)))
  }

  /** The payload is what lies between the header's `n` bytes and the padding. */
  function TakePayload(h: Header, n: nat, b: Bytes): Result<Packet, Error> {
    if h.padding && b == [] then Err(Unindexable)
    else
      var size := if h.padding then b[|b| - 1] else 0;
      if |b| - size < n then Err(TooSmall) else Ok(Packet(h, b[n..|b| - size], size))
  }

  function DecodePacket(b: Bytes): Result<Packet, Error> {
    var r := DecodeHeader(b);
    if r.Err? then Err(r.error) else TakePayload(r.value.header, r.value.n, b)
  }

  predicate PacketValid(p: Packet) {
    Valid(p.header) && p.header.padding == (p.paddingSize != 0)
  }

  function PaddingOf(p: Packet, filler: Bytes): Bytes {
    if p.paddingSize == 0 then [] else filler + [p.paddingSize]
  }

  lemma PayloadFound(p: Packet, filler: Bytes, head: Bytes)
    requires p.header.padding == (p.paddingSize != 0) && (p.paddingSize != 0 ==> |filler| == p.paddingSize - 1)
    ensures var b := head + (p.payload + PaddingOf(p, filler));
            |b| == |head| + |p.payload| + p.paddingSize && TakePayload(p.header, |head|, b) == Ok(p)
  {
    var pad := PaddingOf(p, filler);
    var b := head + (p.payload + pad);
    assert b[|head|..|b| - |pad|] == p.payload;
  }

  /** A packet with payload and padding is restored, whatever fills the padding. */
  lemma PacketRoundTrip(p: Packet, filler: Bytes)
    requires PacketValid(p) && (p.paddingSize != 0 ==> |filler| == p.paddingSize - 1)
    ensures EncodePacket(p, filler).Some?
    ensures |EncodePacket(p, filler).value| == MarshalSize(p.header) + |p.payload| + p.paddingSize
    ensures DecodePacket(EncodePacket(p, filler).value) == Ok(p)
  {
    assert p.header.(padding := p.paddingSize != 0) == p.header;
    HeaderRoundTrip(p.header, p.payload + PaddingOf(p, filler));
    PayloadFound(p, filler, EncodeHeader(p.header).value);
  }
}
