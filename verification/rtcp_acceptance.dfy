/** What the decoders accept: for every input, exactly the bytes that say what they return. */
module RtcpAcceptance {
  import opened Serial
  import opened Wrappers
  import opened Binary
  import opened RtcpPackets
  import opened RtcpCompound

  // ---- Integers and fixed layouts ----

  lemma {:induction false} BeOfValue(b: Bytes)
    ensures Be(BeValue(b), |b|) == b
    decreases |b|
  {
    if b != [] {
      var init, last := b[..|b| - 1], b[|b| - 1];
      BeOfValue(init);
      BeStep(BeValue(init), last, |b|);
      assert b == init + [last];
    }
  }

  lemma BeStep(x: nat, last: u8, k: nat)
    requires k > 0
    ensures Be(256 * x + last, k) == Be(x, k - 1) + [last]
  {
    LastByte(x, last);
  }

  lemma LastByte(x: nat, last: u8)
    ensures (256 * x + last) / 256 == x && (256 * x + last) % 256 == last
  {}

  lemma {:induction false} PackUnpack(b: Bytes, sizes: seq<nat>)
    requires |b| >= Total(sizes)
    ensures Pack(Unpack(b, sizes), sizes) == b[..Total(sizes)]
    decreases |sizes|
  {
    if sizes != [] {
      var n := sizes[0];
      BeOfValue(b[..n]);
      PackUnpack(b[n..], sizes[1..]);
      assert b[..Total(sizes)] == b[..n] + b[n..][..Total(sizes[1..])];
      var v := Unpack(b, sizes);
      assert v[1..] == Unpack(b[n..], sizes[1..]);
    }
  }

  // ---- Common header ----

  lemma FirstByte(x: u8)
    requires x / 64 == 2
    ensures x == 128 + (if x / 32 % 2 == 1 then 32 else 0) + x % 32
  {}

  /** A header is read exactly from the four bytes that encode it. */
  lemma HeaderExact(b: Bytes, h: Header)
    requires h.count <= COUNT_MAX
    ensures DecodeHeader(b) == Ok(h) <==> |b| >= 4 && b[..4] == EncodeHeader(h)
  {
    if |b| >= 4 {
      if b[..4] == EncodeHeader(h) {
        HeaderRoundTrip(h, b[4..]);
        assert b == EncodeHeader(h) + b[4..];
      }
      if DecodeHeader(b) == Ok(h) {
        FirstByte(b[0]);
        BeOfValue(b[2..4]);
        assert b[..4] == [b[0], b[1]] + b[2..4];
      }
    }
  }

  predicate Announces(b: Bytes, typ: u8, count: nat) {
    var h := DecodeHeader(b);
    h.Ok? && h.value.typ == typ && h.value.count == count
  }

  // ---- Reports ----

  lemma ReportExact(b: Bytes)
    requires |b| >= 24
    ensures EncodeReport(DecodeReport(b)) == b[..24] && DecodeReport(b).totalLost < 0x100_0000
  {
    SrFixed();
    Bounds();
    PackUnpack(b, REPORT);
    var v := Unpack(b, REPORT);
    assert v[2] < Bound(REPORT[2]);
    assert ReportValues(ReportOf(v)) == v;
  }

  lemma {:induction false} ReportsExact(b: Bytes, n: nat)
    ensures DecodeReports(b, n).Some? <==> |b| >= 24 * n
    ensures |b| >= 24 * n ==>
              var l := DecodeReports(b, n).value;
              |l.reports| == n && ReportsWF(l.reports) && EncodeReports(l.reports) + l.rest == b
    decreases n
  {
    if n > 0 && |b| >= 24 {
      ReportExact(b);
      ReportsExact(b[24..], n - 1);
      if |b| >= 24 * n {
        var l, more := DecodeReports(b, n).value, DecodeReports(b[24..], n - 1).value;
        assert l.reports[1..] == more.reports;
        assert b == b[..24] + b[24..];
      }
    }
  }

  /** A sender report is decoded exactly from a header that announces its number of blocks and a body that encodes its
      fields, blocks and extensions. */
  lemma SRExact(b: Bytes, p: Packet)
    requires p.SenderReport?
    ensures DecodeSR(b) == Ok(p) <==>
              |b| >= 28 && Announces(b, SR, |p.reports|) && ReportsWF(p.reports) && b[4..] == SRBody(p)
  {
    if |b| >= 28 && DecodeHeader(b).Ok? { SRBodyExact(DecodeHeader(b).value.count, b[4..], p); }
  }

  lemma SRBodyExact(count: nat, body: Bytes, p: Packet)
    requires |body| >= 24 && p.SenderReport?
    ensures DecodeSRBody(count, body) == Ok(p) <==>
              count == |p.reports| && ReportsWF(p.reports) && body == SRBody(p)
  {
    SRBodyRoundTrip(p);
    SrFixed();
    ReportsExact(body[24..], count);
    PackUnpack(body, SR_FIXED);
    if DecodeSRBody(count, body) == Ok(p) {
      SrValues(body);
      var v := Unpack(body, SR_FIXED);
      assert v == [p.ssrc, p.ntpTime, p.rtpTime, p.packetCount, p.octetCount];
      assert body == body[..24] + body[24..];
    }
  }

  lemma RRBodyExact(count: nat, body: Bytes, p: Packet)
    requires |body| >= 4 && p.ReceiverReport?
    ensures DecodeRRBody(count, body) == Ok(p) <==>
              count == |p.reports| && ReportsWF(p.reports)
              && body == Be(p.ssrc, 4) + (EncodeReports(p.reports) + p.extensions)
  {
    BeOfValue(body[..4]);
    ReportsExact(body[4..], count);
    ReportsRoundTrip(p.reports, p.extensions);
    Bounds();
    BeRoundTrip(p.ssrc, 4);
    SplitAt(Be(p.ssrc, 4), EncodeReports(p.reports) + p.extensions);
    assert body == body[..4] + body[4..];
  }

  /** The same for a receiver report; whatever follows the blocks is its extensions. */
  lemma RRExact(b: Bytes, p: Packet)
    requires p.ReceiverReport?
    ensures DecodeRR(b) == Ok(p) <==>
              && |b| >= 8 && Announces(b, RR, |p.reports|) && ReportsWF(p.reports)
              && b[4..] == Be(p.ssrc, 4) + (EncodeReports(p.reports) + p.extensions)
  {
    if |b| >= 8 && DecodeHeader(b).Ok? { RRBodyExact(DecodeHeader(b).value.count, b[4..], p); }
  }

  // ---- Source descriptions and goodbyes ----

  lemma PrefixSplits(a: Bytes, x: Bytes, b: Bytes)
    requires |a| <= |b|
    ensures a + x <= b <==> a == b[..|a|] && x <= b[|a|..]
  {
    if a == b[..|a|] && x <= b[|a|..] { assert b == a + b[|a|..]; }
  }

  lemma FirstItem(b: Bytes, n: nat, it: Item)
    requires |b| >= 2 && n == 2 + b[1] <= |b| && it == Item(b[0], b[2..n])
    ensures b[..n] == [it.typ, |it.text|] + it.text
  {}

  lemma {:induction false} ItemsFrom(b: Bytes, items: seq<Item>)
    requires DecodeItems(b) == Ok(items)
    ensures ItemsWF(items) && EncodeItems(items) + [0] <= b
    decreases |b|
  {
    if b[0] != 0 {
      var size: nat := b[1];
      var n := 2 + size;
      FirstItem(b, n, items[0]);
      ItemsFrom(b[n..], items[1..]);
      var more := EncodeItems(items[1..]) + [0];
      JoinsLeft(b[..n], EncodeItems(items[1..]), [0]);
      PrefixSplits(b[..n], more, b);
    }
  }

  /** Items are read exactly from bytes that begin with their encoding and the null octet. */
  lemma ItemsExact(b: Bytes, items: seq<Item>)
    ensures DecodeItems(b) == Ok(items) <==> ItemsWF(items) && EncodeItems(items) + [0] <= b
  {
    if ItemsWF(items) && EncodeItems(items) + [0] <= b {
      var n := |EncodeItems(items)|;
      assert b == EncodeItems(items) + b[n..] && b[n] == 0;
      ItemsRoundTrip(items, b[n..]);
    } else if DecodeItems(b) == Ok(items) {
      ItemsFrom(b, items);
    }
  }

  /** How a chunk begins: source, items and the null octet, before any padding. */
  function Begins(c: Chunk): Bytes
    requires ItemsWF(c.items)
  {
    Be(c.source, 4) + (EncodeItems(c.items) + [0])
  }

  lemma SourceExact(b: Bytes, x: u32)
    requires |b| >= 4
    ensures BeValue(b[..4]) == x <==> Be(x, 4) == b[..4]
  {
    BeOfValue(b[..4]);
    Bounds();
    BeRoundTrip(x, 4);
  }

  lemma ChunkExact(b: Bytes, c: Chunk)
    ensures DecodeChunk(b) == Ok(c) <==> ItemsWF(c.items) && Begins(c) <= b
  {
    if |b| >= 5 {
      ItemsExact(b[4..], c.items);
      SourceExact(b, c.source);
      if ItemsWF(c.items) { PrefixSplits(Be(c.source, 4), EncodeItems(c.items) + [0], b); }
    }
  }

  /** The chunks lie one after the other, each padded to whole words; of the last the padding may be missing. */
  predicate Laid(b: Bytes, cs: seq<Chunk>)
    decreases |cs|
  {
    if cs == [] then b == []
    else ItemsWF(cs[0].items) && Begins(cs[0]) <= b && Laid(b[Least(|EncodeChunk(cs[0])|, |b|)..], cs[1..])
  }

  function Least(a: nat, b: nat): nat { if a < b then a else b }

  lemma {:induction false} ChunksExact(b: Bytes, cs: seq<Chunk>)
    ensures DecodeChunks(b) == Ok(cs) <==> Laid(b, cs)
    decreases |b|
  {
    if b != [] {
      if cs != [] {
        ChunkExact(b, cs[0]);
        if DecodeChunk(b) == Ok(cs[0]) {
          ChunkLength(cs[0]);
          ChunksExact(b[Least(|EncodeChunk(cs[0])|, |b|)..], cs[1..]);
          assert cs == [cs[0]] + cs[1..];
        }
      }
    }
  }

  /** A source description is decoded exactly from a header that announces its number of chunks and a body of them. */
  lemma SDESExact(b: Bytes, p: Packet)
    requires p.SourceDescription?
    ensures DecodeSDES(b) == Ok(p) <==> Announces(b, SDES, |p.chunks|) && Laid(b[4..], p.chunks)
  {
    if DecodeHeader(b).Ok? { ChunksExact(b[4..], p.chunks); }
  }

  /** A goodbye's text: absent, or preceded by its length. */
  predicate Says(b: Bytes, reason: Bytes) {
    if b == [] then reason == [] else b[0] == |reason| && reason <= b[1..]
  }

  lemma {:induction false} SourcesExact(b: Bytes, s: seq<u32>)
    requires |b| >= 4 * |s|
    ensures DecodeSources(b, |s|) == s <==> EncodeSources(s) <= b
    decreases |s|
  {
    if s != [] {
      SourceExact(b, s[0]);
      SourcesExact(b[4..], s[1..]);
      PrefixSplits(Be(s[0], 4), EncodeSources(s[1..]), b);
      assert s == [s[0]] + s[1..];
    }
  }

  lemma ReasonExact(b: Bytes, reason: Bytes)
    ensures DecodeReason(b) == Ok(reason) <==> Says(b, reason)
  {
    if b != [] {
      var size: nat := b[0];
      if 1 + size <= |b| {
        assert b[1..][..size] == b[1..1 + size];
        assert reason <= b[1..] && |reason| == size ==> b[1..][..size] == reason;
      }
    }
  }

  /** A goodbye is decoded exactly from whole words whose header announces its number of sources and whose body begins
      with them and then, if anything follows, says its reason. */
  lemma BYEExact(b: Bytes, p: Packet)
    requires p.Goodbye?
    ensures DecodeBYE(b) == Ok(p) <==>
              && Announces(b, BYE, |p.sources|) && |b| % 4 == 0 && 4 + 4 * |p.sources| <= |b|
              && EncodeSources(p.sources) <= b[4..] && Says(b[4..][4 * |p.sources|..], p.reason)
  {
    if Announces(b, BYE, |p.sources|) && 4 + 4 * |p.sources| <= |b| {
      SourcesExact(b[4..], p.sources);
      ReasonExact(b[4..][4 * |p.sources|..], p.reason);
    }
  }

  // ---- Feedback ----

  lemma TwoSSRCsExact(b: Bytes, x: u32, y: u32)
    requires |b| >= 12
    ensures SSRCs(b) == (x, y) <==> TwoSSRCs(x, y) == b[4..12]
  {
    SourceExact(b[4..], x);
    SourceExact(b[8..], y);
    assert b[4..][4..8] == b[8..][..4];
    assert b[4..12] == b[4..][..4] + b[8..][..4];
    SplitAt(Be(x, 4), Be(y, 4));
  }

  /** A picture loss indication is decoded exactly from a header that announces one and the two sources. */
  lemma PliExact(b: Bytes, p: Packet)
    requires p.Pli?
    ensures DecodePLI(b) == Ok(p) <==>
              |b| >= 12 && Announces(b, PSFB, 1) && b[4..12] == TwoSSRCs(p.senderSSRC, p.mediaSSRC)
  {
    if |b| >= 12 { TwoSSRCsExact(b, p.senderSSRC, p.mediaSSRC); }
  }

  lemma {:induction false} NacksExact(b: Bytes)
    requires |b| % 4 == 0
    ensures EncodeNacks(DecodeNacks(b)) == b
    decreases |b|
  {
    if b != [] {
      BeOfValue(b[..2]);
      BeOfValue(b[2..4]);
      NacksExact(b[4..]);
      assert b == b[..2] + b[2..4] + b[4..];
    }
  }

  lemma EndIsAligned(h: Header)
    ensures ListEnd(h) % 4 == 0
  {}

  /** A NACK is decoded exactly from a header that announces one and, up to where its length says, the two sources and
      the encoding of its pairs. */
  lemma NackExact(b: Bytes, p: Packet)
    requires p.Nack?
    ensures DecodeNACK(b) == Ok(p) <==>
              && Announces(b, RTPFB, 1) && |b| >= 12
              && var end := ListEnd(DecodeHeader(b).value);
              && end <= |b| && b[4..if end < 12 then 12 else end] == FeedbackBody(p)
  {
    if |b| >= 12 && Announces(b, RTPFB, 1) {
      var end := ListEnd(DecodeHeader(b).value);
      if end <= |b| { NackListExact(b, end, p); }
    }
  }

  lemma NackListExact(b: Bytes, end: nat, p: Packet)
    requires p.Nack? && |b| >= 12 && DecodeHeader(b).Ok? && end == ListEnd(DecodeHeader(b).value) <= |b|
    ensures var list := if end < 12 then [] else b[4..][8..][..end - 12];
            b[4..if end < 12 then 12 else end] == FeedbackBody(p) <==>
              SSRCs(b) == (p.senderSSRC, p.mediaSSRC) && DecodeNacks(list) == p.nacks
  {
    var list := if end < 12 then [] else b[4..][8..][..end - 12];
    EndIsAligned(DecodeHeader(b).value);
    PairsExact(list, p.nacks);
    TwoSSRCsExact(b, p.senderSSRC, p.mediaSSRC);
    assert b[4..if end < 12 then 12 else end] == b[4..12] + list;
    BothEqual(TwoSSRCs(p.senderSSRC, p.mediaSSRC), EncodeNacks(p.nacks), b[4..12], list);
  }

  lemma PairsExact(list: Bytes, nacks: seq<NackPair>)
    requires |list| % 4 == 0
    ensures DecodeNacks(list) == nacks <==> list == EncodeNacks(nacks)
  {
    NacksExact(list);
    NacksRoundTrip(nacks);
  }

  lemma BothEqual(a: Bytes, x: Bytes, b: Bytes, y: Bytes)
    requires |a| == |b|
    ensures a + x == b + y <==> a == b && x == y
  {
    SplitAt(a, x);
    SplitAt(b, y);
  }

  /** The entries lie eight bytes apart, the last three of each being reserved; `n` is the size the header gives. */
  predicate Lists(b: Bytes, n: int, es: seq<FirEntry>) {
    && (if n <= 0 then es == [] else n <= 8 * |es| < n + 8)
    && (forall i :: 0 <= i < |es| ==>
          8 * i + 5 <= |b| && b[8 * i..8 * i + 5] == Be(es[i].ssrc, 4) + [es[i].sequenceNumber])
  }

  lemma EntryExact(b: Bytes, e: FirEntry)
    requires |b| >= 5
    ensures BeValue(b[..4]) == e.ssrc && b[4] == e.sequenceNumber <==> b[..5] == Be(e.ssrc, 4) + [e.sequenceNumber]
  {
    SourceExact(b, e.ssrc);
    assert b[..5] == b[..4] + [b[4]];
    SplitAt(Be(e.ssrc, 4), [e.sequenceNumber]);
    SplitAt(b[..4], [b[4]]);
  }

  lemma ListsFirst(b: Bytes, n: int, es: seq<FirEntry>)
    requires n > 0 && es != [] && |b| >= 8
    ensures Lists(b, n, es) <==> b[..5] == Be(es[0].ssrc, 4) + [es[0].sequenceNumber] && Lists(b[8..], n - 8, es[1..])
  {
    if Lists(b, n, es) {
      assert b[8 * 0..8 * 0 + 5] == b[..5];
      forall i | 0 <= i < |es| - 1
        ensures 8 * i + 5 <= |b[8..]|
        ensures b[8..][8 * i..8 * i + 5] == Be(es[1..][i].ssrc, 4) + [es[1..][i].sequenceNumber]
      {
        var j := i + 1;
        assert b[8 * j..8 * j + 5] == Be(es[j].ssrc, 4) + [es[j].sequenceNumber];
        assert b[8..][8 * i..8 * i + 5] == b[8 * j..8 * j + 5];
      }
    }
    if b[..5] == Be(es[0].ssrc, 4) + [es[0].sequenceNumber] && Lists(b[8..], n - 8, es[1..]) {
      forall j | 0 <= j < |es|
        ensures 8 * j + 5 <= |b|
        ensures b[8 * j..8 * j + 5] == Be(es[j].ssrc, 4) + [es[j].sequenceNumber]
      {
        if j > 0 {
          var i := j - 1;
          assert b[8..][8 * i..8 * i + 5] == Be(es[1..][i].ssrc, 4) + [es[1..][i].sequenceNumber];
          assert b[8..][8 * i..8 * i + 5] == b[8 * j..8 * j + 5];
        }
      }
    }
  }

  /** Where at most one entry fits. */
  lemma ShortList(b: Bytes, n: int, es: seq<FirEntry>)
    requires n > 0 && es != [] && |b| < 8
    ensures Lists(b, n, es) <==>
              n <= 8 && |es| == 1 && |b| >= 5 && b[..5] == Be(es[0].ssrc, 4) + [es[0].sequenceNumber]
  {
    if Lists(b, n, es) {
      assert 8 * 0 + 5 <= |b| && b[8 * 0..8 * 0 + 5] == Be(es[0].ssrc, 4) + [es[0].sequenceNumber];
      assert |es| > 1 ==> 8 * 1 + 5 <= |b|;
    }
  }

  lemma {:induction false} FirsExact(b: Bytes, n: int, es: seq<FirEntry>)
    ensures DecodeFirs(b, n) == Ok(es) <==> Lists(b, n, es)
    decreases |b|
  {
    if n > 0 && es != [] {
      if |b| >= 5 { EntryExact(b, es[0]); }
      if |b| < 8 {
        ShortList(b, n, es);
        assert |es| == 1 ==> es == [es[0]];
      } else {
        ListsFirst(b, n, es);
        FirsExact(b[8..], n - 8, es[1..]);
        assert es == [es[0]] + es[1..];
      }
    }
  }

  /** A full intra request is decoded exactly from a header that announces one, the two sources, and as many
      entries as the length asks for, eight bytes apart. */
  lemma FirExact(b: Bytes, p: Packet)
    requires p.Fir?
    ensures DecodeFIR(b) == Ok(p) <==>
              && Announces(b, PSFB, 4) && |b| >= 12 && ListEnd(DecodeHeader(b).value) <= |b|
              && b[4..12] == TwoSSRCs(p.senderSSRC, p.mediaSSRC)
              && Lists(b[12..], ListEnd(DecodeHeader(b).value) - 12, p.entries)
  {
    if |b| >= 12 {
      TwoSSRCsExact(b, p.senderSSRC, p.mediaSSRC);
      assert b[4..][8..] == b[12..];
      if DecodeHeader(b).Ok? { FirsExact(b[12..], ListEnd(DecodeHeader(b).value) - 12, p.entries); }
    }
  }

  // ---- Compound packets ----

  lemma PrefixHeader(raw: Bytes, n: nat)
    requires 4 <= n <= |raw|
    ensures DecodeHeader(raw[..n]) == DecodeHeader(raw)
  {
    assert raw[..n][2..4] == raw[2..4];
  }

  lemma WordsOf(length: u16)
    ensures (length + 1) % 0x1_0000 * 4 == if length == 0xFFFF then 0 else 4 * (length + 1)
  {}

  /** The first packet is exactly a front part of the input whose header gives its length and that decodes to it. */
  lemma FirstExact(raw: Bytes, p: Packet, n: nat, accepts: Bytes -> bool)
    ensures DecodeFirst(raw, accepts) == Ok(First(p, n)) <==>
              4 <= n <= |raw| && n <= 0x3_FFFC && Recognised(p, raw[..n], accepts)
  {
    StepConsumes(raw, accepts);
    if 4 <= n <= |raw| { PrefixHeader(raw, n); }
    if DecodeHeader(raw).Ok? { WordsOf(DecodeHeader(raw).value.length); }
  }

  function Join(parts: seq<Bytes>): Bytes {
    if parts == [] then [] else parts[0] + Join(parts[1..])
  }

  /** Each part is a packet by itself. */
  predicate Are(parts: seq<Bytes>, ps: seq<Packet>, accepts: Bytes -> bool) {
    |parts| == |ps| && forall i :: 0 <= i < |ps| ==> 4 <= |parts[i]| <= 0x3_FFFC && Recognised(ps[i], parts[i], accepts)
  }

  lemma {:induction false} PartsAreDecoded(parts: seq<Bytes>, ps: seq<Packet>, accepts: Bytes -> bool)
    requires Are(parts, ps, accepts)
    ensures DecodeAll(Join(parts), accepts) == Ok(ps)
    decreases |ps|
  {
    if ps != [] {
      var b, rest := parts[0], Join(parts[1..]);
      SplitAt(b, rest);
      FirstExact(b + rest, ps[0], |b|, accepts);
      assert Are(parts[1..], ps[1..], accepts);
      PartsAreDecoded(parts[1..], ps[1..], accepts);
      FirstJoins(ps, b, rest, b + rest, accepts);
    }
  }

  lemma {:induction false} DecodedAreParts(raw: Bytes, ps: seq<Packet>, accepts: Bytes -> bool)
    returns (parts: seq<Bytes>)
    requires DecodeAll(raw, accepts) == Ok(ps)
    ensures Join(parts) == raw && Are(parts, ps, accepts)
    decreases |raw|
  {
    if raw == [] {
      parts := [];
    } else {
      StepConsumes(raw, accepts);
      var f := DecodeFirst(raw, accepts).value;
      FirstExact(raw, f.packet, f.processed, accepts);
      var more := DecodedAreParts(raw[f.processed..], ps[1..], accepts);
      parts := [raw[..f.processed]] + more;
      OnePartMore(raw, f.processed, more, ps, accepts);
    }
  }

  lemma OnePartMore(raw: Bytes, n: nat, more: seq<Bytes>, ps: seq<Packet>, accepts: Bytes -> bool)
    requires ps != [] && 4 <= n <= |raw| && n <= 0x3_FFFC && Recognised(ps[0], raw[..n], accepts)
    requires Join(more) == raw[n..] && Are(more, ps[1..], accepts)
    ensures var parts := [raw[..n]] + more; Join(parts) == raw && Are(parts, ps, accepts)
  {
    var parts := [raw[..n]] + more;
    assert parts[1..] == more && raw == raw[..n] + raw[n..];
  }

  /** Unmarshal succeeds exactly on inputs that are one or more packets, one after the other and nothing else. */
  lemma CompoundExact(raw: Bytes, ps: seq<Packet>, accepts: Bytes -> bool)
    ensures Unmarshal(raw, accepts) == Ok(ps) <==>
              ps != [] && exists parts :: Are(parts, ps, accepts) && Join(parts) == raw
  {
    if Unmarshal(raw, accepts) == Ok(ps) {
      var parts := DecodedAreParts(raw, ps, accepts);
    } else if parts :| Are(parts, ps, accepts) && Join(parts) == raw {
      PartsAreDecoded(parts, ps, accepts);
    }
  }
}
