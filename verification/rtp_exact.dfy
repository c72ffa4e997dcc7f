/** Exactly which RTP headers survive marshalling, and when the declared extension block is consumed. */
module RtpExact {
  import opened Serial
  import opened Wrappers
  import opened Binary
  import opened RtpPacket

  // ---- What the extension loops return ----

  /** Every extension recognised satisfies `p` and takes `o` bytes besides its payload, at most 257 in all. */
  ghost predicate Yields(piece: Bytes -> Piece, o: nat, p: Extension -> bool) {
    forall b :: var x := piece(b); x.Ext? ==> p(x.e) && x.n == o + |x.e.payload| <= 257
  }

  lemma PiecesYield()
    ensures Yields(OneBytePiece, 1, OneByteReadable) && Yields(TwoBytePiece, 2, TwoByteReadable)
  {}

  predicate All(p: Extension -> bool, es: seq<Extension>) { forall i :: 0 <= i < |es| ==> p(es[i]) }

  /** Extensions that can be written back, no more bytes of them than were used, and at most 256 bytes used
      beyond the block. */
  lemma {:induction false} ListShape(piece: Bytes -> Piece, o: nat, p: Extension -> bool, b: Bytes, left: int)
    requires Yields(piece, o, p) && DecodeList(piece, b, left).Ok?
    ensures var r := DecodeList(piece, b, left).value;
            && All(p, r.extensions) && ListSize(r.extensions, o) <= r.used
            && r.used <= (if left > 0 then left + 256 else 0)
    decreases |b|
  {
    if left > 0 {
      match piece(b) {
        case Pad =>
          ListShape(piece, o, p, b[1..], left - 1);
          var more := DecodeList(piece, b[1..], left - 1).value.extensions;
          assert [] + more == more;
        case Reserved =>
        case Ext(e, n) =>
          assert p(piece(b).e);
          ListShape(piece, o, p, b[n..], left - n);
        case Overrun =>
      }
    }
  }

  /** The block is used up exactly if the pieces tile it: no extension crosses its end, and the reserved
      identifier, which ends the loop, stands in its last byte if anywhere. */
  predicate Tiles(piece: Bytes -> Piece, b: Bytes, left: int)
    decreases |b|
  {
    if left <= 0 then left == 0
    else if b == [] then false
    else
      match piece(b)
      case Overrun => false
      case Pad => Tiles(piece, b[1..], left - 1)
      case Reserved => left == 1
      case Ext(e, n) => 0 < n <= |b| && Tiles(piece, b[n..], left - n)
  }

  lemma {:induction false} TilesExact(piece: Bytes -> Piece, b: Bytes, left: int)
    requires DecodeList(piece, b, left).Ok?
    ensures DecodeList(piece, b, left).value.used == left <==> Tiles(piece, b, left)
    decreases |b|
  {
    if left > 0 {
      match piece(b) {
        case Pad => TilesExact(piece, b[1..], left - 1);
        case Reserved =>
        case Ext(e, n) => TilesExact(piece, b[n..], left - n);
        case Overrun =>
      }
    }
  }

  // ---- What the header decoder returns ----

  /** Everything that Valid asks except that the block's length fits. */
  predicate Shaped(h: Header) {
    && InRange(h)
    && (if !h.extension then h.extensions == [] && h.extensionProfile == 0
        else if h.extensionProfile == ONE_BYTE then All(OneByteReadable, h.extensions)
        else if h.extensionProfile == TWO_BYTE then All(TwoByteReadable, h.extensions)
        else |h.extensions| == 1 && h.extensions[0].id == 0 && |h.extensions[0].payload| % 4 == 0
             && |h.extensions[0].payload| < 0x4_0000)
  }

  lemma ExtensionsShape(h: Header, profile: u16, words: u16, rest: Bytes)
    requires InRange(h) && h.extension && DecodeExtensions(h, profile, 4 * words, rest).Ok?
    ensures Shaped(DecodeExtensions(h, profile, 4 * words, rest).value.header)
  {
    PiecesYield();
    if |rest| >= 4 * words && profile == ONE_BYTE {
      ListShape(OneBytePiece, 1, OneByteReadable, rest, 4 * words);
    } else if |rest| >= 4 * words && profile == TWO_BYTE {
      ListShape(TwoBytePiece, 2, TwoByteReadable, rest, 4 * words);
    }
  }

  lemma FieldsShape(b: Bytes)
    requires |b| >= 12
    ensures var h := FieldsOf(b);
            h.version < 4 && h.payloadType < 128 && h.csrc == [] && h.extensionProfile == 0 && h.extensions == []
  {}

  lemma BlockShape(h: Header, b: Bytes)
    requires InRange(h) && h.extension && DecodeBlock(h, b).Ok?
    ensures Shaped(DecodeBlock(h, b).value.header)
  {
    BeValueBound(b[..2]);
    BeValueBound(b[2..4]);
    Bounds();
    ExtensionsShape(h, BeValue(b[..2]), BeValue(b[2..4]), b[4..]);
  }

  lemma TailShape(h: Header, cc: nat, b: Bytes)
    requires |b| >= 4 * cc && cc <= 15 && h.version < 4 && h.payloadType < 128 && h.extensionProfile == 0
             && h.extensions == []
    requires DecodeTail(h, cc, b).Ok?
    ensures Shaped(DecodeTail(h, cc, b).value.header)
  {
    if h.extension { BlockShape(h.(csrc := DecodeWords(b, cc)), b[4 * cc..]); }
  }

  /** Whatever is decoded could be encoded again. */
  lemma HeaderShape(b: Bytes)
    requires DecodeHeader(b).Ok?
    ensures Shaped(DecodeHeader(b).value.header)
  {
    FieldsShape(b);
    TailShape(FieldsOf(b), b[0] % 16, b[12..]);
  }

  // ---- Exactly the valid headers survive ----

  lemma TwoDigits(n: nat)
    ensures n % 0x1_0000 % 256 == n % 256 && n % 0x1_0000 / 256 % 256 == n / 256 % 256
  {
    var q, r := n / 0x1_0000, n % 0x1_0000;
    assert n == 256 * (256 * q) + r;
    assert n % 256 == r % 256;
    assert n / 256 == 256 * q + r / 256;
  }

  lemma LowTwoBytes(n: nat)
    ensures Be(n, 2) == Be(n % 0x1_0000, 2)
  {
    TwoDigits(n);
    assert Be(n / 256, 1) == [n / 256 % 256] && Be(n % 0x1_0000 / 256, 1) == [n % 0x1_0000 / 256 % 256];
  }

  /** A list whose size does not fit the length field is cut short by the loop. */
  lemma ListTooLong(piece: Bytes -> Piece, o: nat, p: Extension -> bool, es: seq<Extension>, b: Bytes, words: nat)
    requires Yields(piece, o, p) && words == Rounded(ListSize(es, o)) / 4 >= 0x1_0000
    requires DecodeList(piece, b, 4 * (words % 0x1_0000)).Ok?
    ensures DecodeList(piece, b, 4 * (words % 0x1_0000)).value.extensions != es
  {
    ListShape(piece, o, p, b, 4 * (words % 0x1_0000));
    RoundedIs(ListSize(es, o));
  }

  lemma BlockTooLong(h: Header, h0: Header, rest: Bytes)
    requires Encodable(h) && h.extension && Listed(h.extensionProfile) && Rounded(ExtensionSize(h)) / 4 >= 0x1_0000
    requires DecodeBlock(h0, ExtensionBlock(h) + rest).Ok?
    ensures DecodeBlock(h0, ExtensionBlock(h) + rest).value.header.extensions != h.extensions
  {
    var x := ExtensionBytes(h);
    var n := Rounded(|x|);
    ExtensionSizeIs(h);
    BlockSplits(h, rest);
    var more := x + (Zeros(n - |x|) + rest);
    LowTwoBytes(n / 4);
    BlockHead(h.extensionProfile, n / 4 % 0x1_0000, more);
    ExtensionsTooLong(h, h0, n / 4, more);
  }

  lemma ExtensionsTooLong(h: Header, h0: Header, words: nat, b: Bytes)
    requires Encodable(h) && h.extension && Listed(h.extensionProfile)
             && words == Rounded(ExtensionSize(h)) / 4 >= 0x1_0000
    requires DecodeExtensions(h0, h.extensionProfile, 4 * (words % 0x1_0000), b).Ok?
    ensures DecodeExtensions(h0, h.extensionProfile, 4 * (words % 0x1_0000), b).value.header.extensions != h.extensions
  {
    PiecesYield();
    if h.extensionProfile == ONE_BYTE {
      ListTooLong(OneBytePiece, 1, OneByteReadable, h.extensions, b, words);
    } else {
      ListTooLong(TwoBytePiece, 2, TwoByteReadable, h.extensions, b, words);
    }
  }

  /** Marshalling succeeds and unmarshalling gives the header back. */
  predicate Restored(h: Header, rest: Bytes)
    requires Encodable(h)
  {
    && EncodeHeader(h).Some?
    && var r := DecodeHeader(EncodeHeader(h).value + rest); r.Ok? && r.value.header == h
  }

  lemma TailOf(b: Bytes, h0: Header, cc: nat, tail: Bytes)
    requires |b| >= 12 + 4 * cc && b[0] % 16 == cc && b[12..] == tail && FieldsOf(b) == h0
    ensures DecodeHeader(b) == DecodeTail(h0, cc, tail)
  {}

  lemma BlockOf(h0: Header, cc: nat, b: Bytes, csrc: seq<u32>, more: Bytes)
    requires h0.extension && |b| >= 4 * cc && DecodeWords(b, cc) == csrc && b[4 * cc..] == more
             && DecodeTail(h0, cc, b).Ok?
    ensures DecodeBlock(h0.(csrc := csrc), more).Ok?
    ensures DecodeTail(h0, cc, b).value.header == DecodeBlock(h0.(csrc := csrc), more).value.header
  {}

  /** The block of a header in range is what the decoder sees. */
  lemma RestoredBlock(h: Header, rest: Bytes)
    requires Encodable(h) && InRange(h) && h.extension && Restored(h, rest)
    ensures var r := DecodeBlock(h.(extensionProfile := 0, extensions := []), ExtensionBlock(h) + rest);
            r.Ok? && r.value.header == h
  {
    var more := ExtensionBlock(h) + rest;
    var tail := EncodeWords(h.csrc) + more;
    var h0 := h.(csrc := [], extensionProfile := 0, extensions := []);
    HeaderParts(h, rest);
    FixedRoundTrip(h, tail);
    TailOf(EncodeHeader(h).value + rest, h0, |h.csrc|, tail);
    WordsThenRest(h.csrc, more);
    BlockOf(h0, |h.csrc|, tail, h.csrc, more);
  }

  lemma LengthFits(h: Header, rest: Bytes)
    requires Encodable(h) && Shaped(h) && h.extension && Restored(h, rest)
    ensures Rounded(ExtensionSize(h)) / 4 < 0x1_0000
  {
    RestoredBlock(h, rest);
    if Listed(h.extensionProfile) && Rounded(ExtensionSize(h)) / 4 >= 0x1_0000 {
      BlockTooLong(h, h.(extensionProfile := 0, extensions := []), rest);
    }
    RoundedIs(ExtensionSize(h));
  }

  /** A header survives marshalling and unmarshalling if and only if it is valid. */
  lemma RestoredWhenValid(h: Header, rest: Bytes)
    requires Encodable(h)
    ensures Restored(h, rest) <==> Valid(h)
  {
    if Valid(h) {
      HeaderRoundTrip(h, rest);
    } else if Restored(h, rest) {
      HeaderShape(EncodeHeader(h).value + rest);
      if h.extension { LengthFits(h, rest); }
    }
  }

  // ---- Packets ----

  lemma PaddingKept(b: Bytes)
    requires DecodeHeader(b).Ok?
    ensures |b| >= 12 && DecodeHeader(b).value.header.padding == FieldsOf(b).padding
  {}

  /** MarshalTo sets the padding bit by the padding size, so a packet whose own bit differs comes back changed. */
  lemma PaddingBitRead(h: Header, padding: bool, rest: Bytes)
    requires Encodable(h) && EncodeHeader(h.(padding := padding)).Some?
    requires var r := DecodeHeader(EncodeHeader(h.(padding := padding)).value + rest); r.Ok? && r.value.header == h
    ensures h.padding == padding
  {
    var h' := h.(padding := padding);
    var b := EncodeHeader(h').value + rest;
    HeaderShape(b);
    PaddingKept(b);
    HeaderParts(h', rest);
    FixedRoundTrip(h', EncodeWords(h'.csrc) + ((if h'.extension then ExtensionBlock(h') else []) + rest));
  }

  predicate PacketRestored(p: Packet, filler: Bytes)
    requires Encodable(p.header)
  {
    EncodePacket(p, filler).Some? && DecodePacket(EncodePacket(p, filler).value) == Ok(p)
  }

  /** A packet survives if and only if its header is valid and carries the bit for its padding. */
  lemma PacketRestoredWhenValid(p: Packet, filler: Bytes)
    requires Encodable(p.header) && (p.paddingSize != 0 ==> |filler| == p.paddingSize - 1)
    ensures PacketRestored(p, filler) <==> PacketValid(p)
  {
    if PacketValid(p) {
      PacketRoundTrip(p, filler);
    } else if PacketRestored(p, filler) {
      var rest := p.payload + PaddingOf(p, filler);
      PaddingBitRead(p.header, p.paddingSize != 0, rest);
      assert p.header.(padding := p.paddingSize != 0) == p.header;
      RestoredWhenValid(p.header, rest);
    }
  }

  // ---- The declared block ----

  /** Where the extension block ends by its own length field. */
  function DeclaredEnd(b: Bytes): Option<nat> {
    if |b| < 12 then None
    else
      var n := 12 + 4 * (b[0] % 16);
      if b[0] / 16 % 2 == 0 || |b| < n + 4 then None
      else Some(n + 4 + 4 * BeValue(b[n..][2..4]))
  }

  predicate BlockTiled(b: Bytes) {
    |b| >= 12 &&
    var n := 12 + 4 * (b[0] % 16);
    |b| >= n + 4 &&
    var profile, left, rest := BeValue(b[n..][..2]), 4 * BeValue(b[n..][2..4]), b[n..][4..];
    if profile == ONE_BYTE then Tiles(OneBytePiece, rest, left)
    else if profile == TWO_BYTE then Tiles(TwoBytePiece, rest, left)
    else true
  }

  lemma BlockUse(h: Header, b: Bytes)
    requires |b| >= 4 && DecodeBlock(h, b).Ok?
    ensures DecodeBlock(h, b).value.n == 4 + 4 * BeValue(b[2..4]) <==>
            (var profile, left := BeValue(b[..2]), 4 * BeValue(b[2..4]);
             if profile == ONE_BYTE then Tiles(OneBytePiece, b[4..], left)
             else if profile == TWO_BYTE then Tiles(TwoBytePiece, b[4..], left)
             else true)
  {
    BeValueBound(b[..2]);
    BeValueBound(b[2..4]);
    Bounds();
    var profile, left := BeValue(b[..2]), 4 * BeValue(b[2..4]);
    if profile == ONE_BYTE { TilesExact(OneBytePiece, b[4..], left); }
    else if profile == TWO_BYTE { TilesExact(TwoBytePiece, b[4..], left); }
  }

  /** Unmarshal consumes exactly the declared block if and only if its pieces tile it. */
  lemma ConsumesDeclaredBlock(b: Bytes)
    requires DecodeHeader(b).Ok? && DeclaredEnd(b).Some?
    ensures DecodeHeader(b).value.n == DeclaredEnd(b).value <==> BlockTiled(b)
  {
    var cc := b[0] % 16;
    var n := 12 + 4 * cc;
    assert b[12..][4 * cc..] == b[n..];
    BlockUse(FieldsOf(b).(csrc := DecodeWords(b[12..], cc)), b[n..]);
  }

  /** The reserved identifier leaves the rest of a longer block to the payload. */
  lemma ReservedEndsEarly(b: Bytes, left: nat)
    requires b != [] && b[0] >= 0xF0 && left > 1
    ensures DecodeList(OneBytePiece, b, left) == Ok(Parsed([], 1)) && !Tiles(OneBytePiece, b, left)
  {}

  /** An extension longer than what is left of the block takes bytes of the payload. */
  lemma ExtensionRunsOver(b: Bytes, left: nat, n: nat)
    requires |b| >= 2 && b[0] != 0 && n == b[1] as nat && |b| >= 2 + n && 0 < left < 2 + n
    ensures DecodeList(TwoBytePiece, b, left) == Ok(Parsed([Extension(b[0], b[2..2 + n])], 2 + n))
            && !Tiles(TwoBytePiece, b, left)
  {
    var e := Extension(b[0], b[2..2 + n]);
    assert TwoBytePiece(b) == Ext(e, 2 + n);
    assert DecodeList(TwoBytePiece, b[2 + n..], left - (2 + n)) == Ok(Parsed([], 0));
    assert [e] + [] == [e];
  }
}
