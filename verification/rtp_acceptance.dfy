/** RTP packets on arbitrary input: what is read is what is there. */
module RtpAcceptance {
  import opened Serial
  import opened Wrappers
  import opened Binary
  import opened RtpPacket
  import A = RtcpAcceptance
  import E = RtpExtensions

  // ---- The fixed part and the contributing sources ----

  lemma FlagsFrom(x: u8)
    ensures Flags(x / 64, x % 16, x / 32 % 2 == 1, x / 16 % 2 == 1) == x
  {
    FirstByte(x / 64, x % 16, x / 32 % 2 == 1, x / 16 % 2 == 1);
    FourFields(x);
  }

  lemma FourFields(x: u8)
    ensures x == 64 * (x / 64) + (if x / 32 % 2 == 1 then 32 else 0) + (if x / 16 % 2 == 1 then 16 else 0) + x % 16
  {}

  lemma TypeFrom(x: u8, h: Header)
    requires h.marker == (x >= 128) && h.payloadType == x % 128
    ensures TypeByte(h) == x
  {
    MarkerBit(x % 128);
  }

  /** The fields read from twelve bytes encode to those bytes. */
  lemma FixedFrom(b: Bytes, h: Header)
    requires |b| >= 12 && |h.csrc| == b[0] % 16
    requires h == FieldsOf(b).(csrc := h.csrc, extensionProfile := h.extensionProfile, extensions := h.extensions)
    ensures Fixed(h) == b[..12]
  {
    FlagsFrom(b[0]);
    TypeFrom(b[1], h);
    A.BeOfValue(b[2..][..2]);
    A.BeOfValue(b[4..][..4]);
    A.BeOfValue(b[8..][..4]);
    assert b[..12] == [b[0], b[1]] + (b[2..][..2] + (b[4..][..4] + b[8..][..4]));
  }

  lemma {:induction false} WordsFrom(b: Bytes, n: nat)
    requires |b| >= 4 * n
    ensures EncodeWords(DecodeWords(b, n)) == b[..4 * n]
    decreases n
  {
    if n > 0 {
      A.BeOfValue(b[..4]);
      WordsFrom(b[4..], n - 1);
      assert b[..4 * n] == b[..4] + b[4..][..4 * (n - 1)];
    }
  }

  lemma BlockKeepsFields(h: Header, b: Bytes)
    requires DecodeBlock(h, b).Ok?
    ensures var h' := DecodeBlock(h, b).value.header;
            && h' == h.(extensionProfile := h'.extensionProfile, extensions := h'.extensions)
            && |b| >= 4 && b[..2] == Be(h'.extensionProfile, 2) && 4 + 4 * BeValue(b[2..4]) <= |b|
  {
    A.BeOfValue(b[..2]);
  }

  /** A header without extensions is read exactly if its fixed part and its sources are there; with extensions, only if
      the block it declares is there as well. What is read encodes to the bytes it was read from. */
  lemma HeaderFrom(b: Bytes)
    ensures |b| >= 1 && b[0] / 16 % 2 == 0 ==> (DecodeHeader(b).Ok? <==> |b| >= 12 + 4 * (b[0] % 16))
    ensures DecodeHeader(b).Ok? ==>
              var h := DecodeHeader(b).value.header;
              var n := 12 + 4 * |h.csrc|;
              && n <= |b| && b[..n] == Fixed(h) + EncodeWords(h.csrc)
              && (!h.extension ==> DecodeHeader(b).value.n == n)
              && (h.extension ==> n + 4 <= |b| && b[n..n + 2] == Be(h.extensionProfile, 2)
                                  && n + 4 + 4 * BeValue(b[n + 2..n + 4]) <= |b|)
  {
    if DecodeHeader(b).Ok? {
      var h, cc := DecodeHeader(b).value.header, b[0] % 16;
      var h1 := FieldsOf(b).(csrc := DecodeWords(b[12..], cc));
      WordsFrom(b[12..], cc);
      if h1.extension { BlockKeepsFields(h1, b[12..][4 * cc..]); }
      assert h == h1.(extensionProfile := h.extensionProfile, extensions := h.extensions);
      FixedFrom(b, h);
      SplitsAt(b, 4 * cc);
    }
  }

  lemma SplitsAt(b: Bytes, m: nat)
    requires 12 + m <= |b|
    ensures b[..12 + m] == b[..12] + b[12..][..m] && b[12..][m..] == b[12 + m..]
    ensures |b| >= 12 + m + 4 ==>
              b[12 + m..][..2] == b[12 + m..12 + m + 2] && b[12 + m..][2..4] == b[12 + m + 2..12 + m + 4]
  {}

  /** A packet is the bytes of its header, its payload, and its padding, whose last byte is its size if the padding bit
      is set; without the bit there is none. */
  lemma PacketFrom(b: Bytes, p: Packet)
    ensures DecodePacket(b) == Ok(p) <==>
              && DecodeHeader(b).Ok? && p.header == DecodeHeader(b).value.header
              && var n := DecodeHeader(b).value.n;
              && |b| == n + |p.payload| + p.paddingSize && b[n..n + |p.payload|] == p.payload
              && (if p.header.padding then b != [] && p.paddingSize == b[|b| - 1] else p.paddingSize == 0)
  {}

  // ---- SetExtension ----

  /** SetExtension refuses exactly what the profile in force cannot carry, but that in the one-byte form it accepts an
      empty payload, and refuses identifier 0 whatever the payload. */
  lemma RefusedWhenUnreadable(h: Header, id: u8, payload: Bytes)
    requires h.extension
    ensures E.Refusal(h, id, payload).None? <==>
              if h.extensionProfile == ONE_BYTE
              then id != 0 && (OneByteReadable(Extension(id, payload)) || (id <= 14 && payload == []))
              else if h.extensionProfile == TWO_BYTE then TwoByteReadable(Extension(id, payload))
              else id == 0
  {}
}
