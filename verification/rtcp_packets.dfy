/** RTCP packets and their wire form (section 6 of RFC 3550, section 6 of RFC 4585). */
module RtcpPackets {
  import opened Serial
  import opened Wrappers
  import opened Binary

  datatype Report = Report(ssrc: u32, fractionLost: u8, totalLost: u32, lastSequenceNumber: u32, jitter: u32,
                           lastSenderReport: u32, delay: u32)
  datatype Item = Item(typ: u8, text: Bytes)
  datatype Chunk = Chunk(source: u32, items: seq<Item>)
  datatype NackPair = NackPair(packetID: u16, lostPackets: u16)
  datatype FirEntry = FirEntry(ssrc: u32, sequenceNumber: u8)

  datatype Packet =
    | SenderReport(ssrc: u32, ntpTime: u64, rtpTime: u32, packetCount: u32, octetCount: u32, reports: seq<Report>,
                   extensions: Bytes)
    | ReceiverReport(ssrc: u32, reports: seq<Report>, extensions: Bytes)
    | SourceDescription(chunks: seq<Chunk>)
    | Goodbye(sources: seq<u32>, reason: Bytes)
    | Nack(senderSSRC: u32, mediaSSRC: u32, nacks: seq<NackPair>)
    | Pli(senderSSRC: u32, mediaSSRC: u32)
    | Fir(senderSSRC: u32, mediaSSRC: u32, entries: seq<FirEntry>)
    | Raw(bytes: Bytes)

  /** `Unindexable` stands for reading past the end of the packet, where the program would stop. */
  datatype Error = TooShort | BadVersion | WrongType | InvalidHeader | Unindexable

  const SR := 200
  const RR := 201
  const SDES := 202
  const BYE := 203
  const RTPFB := 205
  const PSFB := 206
  const XR := 207
  const COUNT_MAX := 31

  function Padding(n: nat): nat { if n % 4 == 0 then 0 else 4 - n % 4 }

  lemma PaddingAligns(n: nat)
    ensures (n + Padding(n)) % 4 == 0
  {}

  lemma AlignedSum(a: nat, b: nat)
    requires a % 4 == 0 && b % 4 == 0
    ensures (a + b) % 4 == 0
  {}

  lemma WholeWords(n: nat)
    ensures 4 * n % 4 == 0
  {}

  function Zeros(n: nat): (r: Bytes)
    ensures |r| == n
  {
    if n == 0 then [] else [0] + Zeros(n - 1)
  }

  // ---- Common header ----

  datatype Header = Header(padding: bool, count: nat, typ: u8, length: u16)

  function EncodeHeader(h: Header): (b: Bytes)
    requires h.count <= COUNT_MAX
    ensures |b| == 4
  {
    [128 + (if h.padding then 32 else 0) + h.count, h.typ] + Be(h.length, 2)
  }

  function DecodeHeader(b: Bytes): (r: Result<Header, Error>)
    ensures r.Ok? ==> |b| >= 4 && r.value.count <= COUNT_MAX
  {
    if |b| < 4 then Err(TooShort)
    else if b[0] / 64 != 2 then Err(BadVersion)
    else
      BeValueBound(b[2..4]); Bounds();
      Ok(Header(b[0] / 32 % 2 == 1, b[0] % 32, b[1], BeValue(b[2..4])))
  }

  lemma HeaderRoundTrip(h: Header, rest: Bytes)
    requires h.count <= COUNT_MAX
    ensures DecodeHeader(EncodeHeader(h) + rest) == Ok(h)
  {
    var b := EncodeHeader(h) + rest;
    assert b[2..4] == Be(h.length, 2);
    Bounds();
    BeRoundTrip(h.length, 2);
    HeaderByte(h.padding, h.count);
  }

  /** A packet is its header followed by its body. */
  lemma Headed(h: Header, body: Bytes)
    requires h.count <= COUNT_MAX
    ensures var b := EncodeHeader(h) + body; |b| == 4 + |body| && b[4..] == body && DecodeHeader(b) == Ok(h)
  {
    HeaderRoundTrip(h, body);
    SplitAt(EncodeHeader(h), body);
  }

  lemma HeaderByte(padding: bool, count: nat)
    requires count <= COUNT_MAX
    ensures var x := 128 + (if padding then 32 else 0) + count;
            x / 64 == 2 && (x / 32 % 2 == 1 <==> padding) && x % 32 == count
  {}

  /** Header of a packet of `n` bytes, in the 16-bit arithmetic of the code. */
  function HeaderFor(count: nat, typ: u8, n: nat): Header
    requires n >= 4
  {
    Header(false, count, typ, (n / 4 - 1) % 0x1_0000)
  }

  // ---- Reception reports ----

  const REPORT := [4, 1, 3, 4, 4, 4, 4]

  function ReportValues(r: Report): seq<nat> {
    [r.ssrc, r.fractionLost, r.totalLost % 0x100_0000, r.lastSequenceNumber, r.jitter, r.lastSenderReport, r.delay]
  }

  lemma ReportFits(r: Report)
    ensures Fit(ReportValues(r), REPORT) && Total(REPORT) == 24
  {
    Bounds();
    var s := REPORT;
    assert s[1..][1..] == s[2..] && s[2..][1..] == s[3..] && s[3..][1..] == s[4..] && s[4..][1..] == s[5..]
             && s[5..][1..] == s[6..];
    assert Total(s[6..]) == 4 && Total(s[5..]) == 8 && Total(s[4..]) == 12 && Total(s[3..]) == 16
           && Total(s[2..]) == 19;
  }

  function ReportOf(v: seq<nat>): Report
    requires Fit(v, REPORT)
  {
    Bounds();
    Report(v[0], v[1], v[2], v[3], v[4], v[5], v[6])
  }

  function EncodeReport(r: Report): (b: Bytes)
    ensures |b| == 24
  {
    ReportFits(r);
    Pack(ReportValues(r), REPORT)
  }

  function DecodeReport(b: Bytes): Report
    requires |b| >= 24
  {
    SrFixed();
    ReportOf(Unpack(b, REPORT))
  }

  /** What 24 bits keep of a report. */
  function Cut24(r: Report): Report { r.(totalLost := r.totalLost % 0x100_0000) }

  /** A report comes back if and only if its total lost fits 24 bits; up to 25 the encoder takes it all the same. */
  lemma ReportRoundTrip(r: Report, rest: Bytes)
    ensures DecodeReport(EncodeReport(r) + rest) == Cut24(r)
    ensures Cut24(r) == r <==> r.totalLost < 0x100_0000
  {
    ReportFits(r);
    UnpackPack(ReportValues(r), REPORT, rest);
    SmallModulo(r.totalLost);
  }

  lemma SmallModulo(x: nat)
    ensures x % 0x100_0000 == x <==> x < 0x100_0000
  {}

  function EncodeReports(rs: seq<Report>): (b: Bytes)
    ensures |b| == 24 * |rs|
  {
    if rs == [] then [] else EncodeReport(rs[0]) + EncodeReports(rs[1..])
  }

  datatype ReportList = ReportList(reports: seq<Report>, rest: Bytes)

  /** The first `n` reports, if there are as many, and the bytes after them. */
  function DecodeReports(b: Bytes, n: nat): Option<ReportList>
    decreases n
  {
    if n == 0 then Some(ReportList([], b))
    else if |b| < 24 then None
    else
      var more := DecodeReports(b[24..], n - 1);
      if more.None? then None else Some(ReportList([DecodeReport(b)] + more.value.reports, more.value.rest))
  }

  predicate ReportsWF(rs: seq<Report>) { forall i :: 0 <= i < |rs| ==> rs[i].totalLost < 0x100_0000 }

  function CutAll(rs: seq<Report>): (cut: seq<Report>)
    ensures |cut| == |rs|
  {
    if rs == [] then [] else [Cut24(rs[0])] + CutAll(rs[1..])
  }

  lemma {:induction false} ReportsRoundTrip(rs: seq<Report>, rest: Bytes)
    ensures DecodeReports(EncodeReports(rs) + rest, |rs|) == Some(ReportList(CutAll(rs), rest))
    ensures CutAll(rs) == rs <==> ReportsWF(rs)
    decreases |rs|
  {
    if rs == [] {
      assert EncodeReports(rs) + rest == rest;
    } else {
      var head, tail := EncodeReport(rs[0]), EncodeReports(rs[1..]) + rest;
      JoinsLeft(head, EncodeReports(rs[1..]), rest);
      ReportRoundTrip(rs[0], tail);
      ReportsRoundTrip(rs[1..], rest);
      ReportsFirst(head, tail, head + tail, Cut24(rs[0]), ReportList(CutAll(rs[1..]), rest), |rs| - 1);
      CutFirst(rs);
    }
  }

  lemma ReportsFirst(head: Bytes, tail: Bytes, all: Bytes, r: Report, more: ReportList, n: nat)
    requires |head| == 24 && all == head + tail && DecodeReport(all) == r && DecodeReports(tail, n) == Some(more)
    ensures DecodeReports(all, n + 1) == Some(ReportList([r] + more.reports, more.rest))
  {
    SplitAt(head, tail);
  }

  lemma CutFirst(rs: seq<Report>)
    requires rs != []
    ensures CutAll(rs) == rs <==> Cut24(rs[0]) == rs[0] && CutAll(rs[1..]) == rs[1..]
  {
    assert rs == [rs[0]] + rs[1..];
    assert CutAll(rs)[0] == Cut24(rs[0]) && CutAll(rs)[1..] == CutAll(rs[1..]);
  }

  predicate ReportsEncodable(rs: seq<Report>) { forall i :: 0 <= i < |rs| ==> rs[i].totalLost < 0x200_0000 }

  // ---- Sender and receiver reports ----

  const SR_FIXED := [4, 8, 4, 4, 4]

  lemma SrFixed()
    ensures Total(SR_FIXED) == 24 && Total(REPORT) == 24
  {
    var s := SR_FIXED;
    assert s[1..][1..] == s[2..] && s[2..][1..] == s[3..] && s[3..][1..] == s[4..];
    assert Total(s[4..]) == 4 && Total(s[3..]) == 8 && Total(s[2..]) == 12;
    ReportFits(Report(0, 0, 0, 0, 0, 0, 0));
  }

  function SRBody(p: Packet): Bytes
    requires p.SenderReport?
  {
    Pack([p.ssrc, p.ntpTime, p.rtpTime, p.packetCount, p.octetCount], SR_FIXED)
    + (EncodeReports(p.reports) + p.extensions)
  }

  function EncodeSR(p: Packet): Option<Bytes>
    requires p.SenderReport?
  {
    if !ReportsEncodable(p.reports) || |p.reports| > COUNT_MAX then None
    else Some(EncodeHeader(HeaderFor(|p.reports|, SR, 28 + 24 * |p.reports| + |p.extensions|)) + SRBody(p))
  }

  lemma SrValues(body: Bytes)
    requires |body| >= 24 && Total(SR_FIXED) == 24
    ensures var v := Unpack(body, SR_FIXED);
            && |v| == 5 && v[0] < 0x1_0000_0000 && v[1] < 0x1_0000_0000_0000_0000
            && v[2] < 0x1_0000_0000 && v[3] < 0x1_0000_0000 && v[4] < 0x1_0000_0000
  {
    Bounds();
    var v := Unpack(body, SR_FIXED);
    assert forall i :: 0 <= i < 5 ==> v[i] < Bound(SR_FIXED[i]);
  }

  function DecodeSRBody(count: nat, body: Bytes): Result<Packet, Error>
    requires |body| >= 24
  {
    SrFixed(); SrValues(body);
    var v := Unpack(body, SR_FIXED);
    var list := DecodeReports(body[24..], count);
    if list.None? then Err(TooShort)
    else Ok(SenderReport(v[0], v[1], v[2], v[3], v[4], list.value.reports, list.value.rest))
  }

  function DecodeSR(b: Bytes): Result<Packet, Error> {
    if |b| < 28 then Err(TooShort)
    else
      var h := DecodeHeader(b);
      if h.Err? then Err(h.error)
      else if h.value.typ != SR then Err(WrongType)
      else DecodeSRBody(h.value.count, b[4..])
  }

  function SRRead(p: Packet): Packet
    requires p.SenderReport?
  {
    SenderReport(p.ssrc, p.ntpTime, p.rtpTime, p.packetCount, p.octetCount, CutAll(p.reports), p.extensions)
  }

  lemma SRBodyRoundTrip(p: Packet)
    requires p.SenderReport?
    ensures |SRBody(p)| == 24 + 24 * |p.reports| + |p.extensions|
    ensures DecodeSRBody(|p.reports|, SRBody(p)) == Ok(SRRead(p))
    ensures SRRead(p) == p <==> ReportsWF(p.reports)
  {
    SrFixed(); Bounds();
    var values := [p.ssrc, p.ntpTime, p.rtpTime, p.packetCount, p.octetCount];
    var fixed, rest := Pack(values, SR_FIXED), EncodeReports(p.reports) + p.extensions;
    SplitAt(fixed, rest);
    UnpackPack(values, SR_FIXED, rest);
    ReportsRoundTrip(p.reports, p.extensions);
  }

  /** A sender report comes back if and only if every total lost fits 24 bits. */
  lemma SRRoundTrip(p: Packet)
    requires p.SenderReport? && EncodeSR(p).Some?
    ensures DecodeSR(EncodeSR(p).value) == Ok(SRRead(p))
    ensures DecodeSR(EncodeSR(p).value) == Ok(p) <==> ReportsWF(p.reports)
    ensures DecodeHeader(EncodeSR(p).value) == Ok(HeaderFor(|p.reports|, SR, |EncodeSR(p).value|))
  {
    SRBodyRoundTrip(p);
    Headed(HeaderFor(|p.reports|, SR, 4 + |SRBody(p)|), SRBody(p));
  }

  function RRBody(p: Packet): Bytes
    requires p.ReceiverReport?
  {
    Be(p.ssrc, 4) + (EncodeReports(p.reports) + (p.extensions + Zeros(Padding(|p.extensions|))))
  }

  /** Extensions are written but left out of the length, except for their padding. */
  function EncodeRR(p: Packet): Option<Bytes>
    requires p.ReceiverReport?
  {
    if !ReportsEncodable(p.reports) || |p.reports| > COUNT_MAX then None
    else
      Some(EncodeHeader(RRHeader(p)) + RRBody(p))
  }

  function RRHeader(p: Packet): Header
    requires p.ReceiverReport?
  {
    var h := HeaderFor(|p.reports|, RR, 8 + 24 * |p.reports|);
    h.(length := (h.length + Padding(|p.extensions|)) % 0x1_0000)
  }

  /** The loop stops at the end of the packet as well as at the count, so too few reports is a bad header. */
  function DecodeRRBody(count: nat, body: Bytes): Result<Packet, Error>
    requires |body| >= 4
  {
    SrFixed(); Bounds(); BeValueBound(body[..4]);
    var list := DecodeReports(body[4..], count);
    if list.None? then Err(if |body[4..]| % 24 == 0 then InvalidHeader else TooShort)
    else Ok(ReceiverReport(BeValue(body[..4]), list.value.reports, list.value.rest))
  }

  function DecodeRR(b: Bytes): Result<Packet, Error> {
    if |b| < 8 then Err(TooShort)
    else
      var h := DecodeHeader(b);
      if h.Err? then Err(h.error)
      else if h.value.typ != RR then Err(WrongType)
      else DecodeRRBody(h.value.count, b[4..])
  }

  /** The packet as it comes back: extensions are read to the end, their padding included. */
  function RRRead(p: Packet): Packet
    requires p.ReceiverReport?
  {
    ReceiverReport(p.ssrc, CutAll(p.reports), p.extensions + Zeros(Padding(|p.extensions|)))
  }

  lemma RRBodyRoundTrip(p: Packet)
    requires p.ReceiverReport?
    ensures |RRBody(p)| == 4 + 24 * |p.reports| + |p.extensions| + Padding(|p.extensions|)
    ensures DecodeRRBody(|p.reports|, RRBody(p)) == Ok(RRRead(p))
    ensures RRRead(p) == p <==> ReportsWF(p.reports) && |p.extensions| % 4 == 0
  {
    SrFixed(); Bounds();
    var extensions := p.extensions + Zeros(Padding(|p.extensions|));
    SplitAt(Be(p.ssrc, 4), EncodeReports(p.reports) + extensions);
    BeRoundTrip(p.ssrc, 4);
    ReportsRoundTrip(p.reports, extensions);
    assert extensions == p.extensions <==> Padding(|p.extensions|) == 0;
  }

  /** A receiver report comes back if and only if every total lost fits 24 bits and the extensions are whole words. */
  lemma RRRoundTrip(p: Packet)
    requires p.ReceiverReport? && EncodeRR(p).Some?
    ensures DecodeHeader(EncodeRR(p).value) == Ok(RRHeader(p)) && DecodeRR(EncodeRR(p).value) == Ok(RRRead(p))
    ensures DecodeRR(EncodeRR(p).value) == Ok(p) <==> ReportsWF(p.reports) && |p.extensions| % 4 == 0
  {
    RRBodyRoundTrip(p);
    Headed(RRHeader(p), RRBody(p));
  }

  lemma RRSize(p: Packet)
    requires p.ReceiverReport? && EncodeRR(p).Some?
    ensures |EncodeRR(p).value| == 8 + 24 * |p.reports| + |p.extensions| + Padding(|p.extensions|)
  {
    RRBodyRoundTrip(p);
  }

  /** The length field is right only for extensions of 0, 3, 6 or 9 bytes: it counts the padding in words, and the
      extensions themselves not at all. */
  lemma RRLength(p: Packet)
    requires p.ReceiverReport? && EncodeRR(p).Some?
    ensures |EncodeRR(p).value| == 4 * (RRHeader(p).length + 1) <==> |p.extensions| in {0, 3, 6, 9}
  {
    RRSize(p);
    RRLengthRight(|p.reports|, |p.extensions|, |EncodeRR(p).value|, RRHeader(p).length);
  }

  lemma RRLengthRight(n: nat, e: nat, size: nat, length: u16)
    requires n <= COUNT_MAX && size == 8 + 24 * n + e + Padding(e)
    requires length == (((8 + 24 * n) / 4 - 1) % 0x1_0000 + Padding(e)) % 0x1_0000
    ensures size == 4 * (length + 1) <==> e in {0, 3, 6, 9}
  {
    RRLengthIs(n, Padding(e), ((8 + 24 * n) / 4 - 1) % 0x1_0000);
    PaddingInWords(e);
  }

  lemma RRLengthIs(n: nat, pad: nat, length: u16)
    requires n <= COUNT_MAX && pad < 4 && length == ((8 + 24 * n) / 4 - 1) % 0x1_0000
    ensures 4 * ((length + pad) % 0x1_0000 + 1) == 8 + 24 * n + 4 * pad
  {}

  lemma PaddingInWords(n: nat)
    ensures n + Padding(n) == 4 * Padding(n) <==> n in {0, 3, 6, 9}
  {}

  // ---- Source description ----

  predicate ItemWF(it: Item) { it.typ != 0 && |it.text| <= 255 }
  predicate ItemsWF(items: seq<Item>) { forall i :: 0 <= i < |items| ==> ItemWF(items[i]) }

  function EncodeItems(items: seq<Item>): Bytes
    requires ItemsWF(items)
  {
    if items == [] then [] else [items[0].typ, |items[0].text|] + items[0].text + EncodeItems(items[1..])
  }

  /** Items up to the terminating null octet, which must be there. */
  function DecodeItems(b: Bytes): Result<seq<Item>, Error>
    decreases |b|
  {
    if b == [] then Err(TooShort)
    else if b[0] == 0 then Ok([])
    else if |b| < 2 || 2 + b[1] > |b| then Err(TooShort)
    else
      var more := DecodeItems(b[2 + b[1]..]);
      if more.Err? then more else Ok([Item(b[0], b[2..2 + b[1]])] + more.value)
  }

  lemma {:induction false} ItemsRoundTrip(items: seq<Item>, rest: Bytes)
    requires ItemsWF(items) && rest != [] && rest[0] == 0
    ensures DecodeItems(EncodeItems(items) + rest) == Ok(items)
    decreases |items|
  {
    if items == [] {
      assert EncodeItems(items) + rest == rest;
    } else {
      var it, tail := items[0], EncodeItems(items[1..]) + rest;
      var head := [it.typ, |it.text|] + it.text;
      JoinsLeft(head, EncodeItems(items[1..]), rest);
      SplitAt(head, tail);
      var b := head + tail;
      assert b[0] == it.typ && b[1] == |it.text| && b[2..2 + |it.text|] == head[2..] == it.text;
      ItemsRoundTrip(items[1..], rest);
      assert items == [it] + items[1..];
    }
  }

  function ChunkLen(c: Chunk): nat {
    var n := 4 + ItemsLen(c.items) + 1;
    n + Padding(n)
  }

  function ItemsLen(items: seq<Item>): nat {
    if items == [] then 0 else 2 + |items[0].text| + ItemsLen(items[1..])
  }

  function EncodeChunk(c: Chunk): Bytes
    requires ItemsWF(c.items)
  {
    var b := Be(c.source, 4) + EncodeItems(c.items) + [0];
    b + Zeros(Padding(|b|))
  }

  function DecodeChunk(b: Bytes): Result<Chunk, Error> {
    if |b| < 5 then Err(TooShort)
    else
      BeValueBound(b[..4]); Bounds();
      var items := DecodeItems(b[4..]);
      if items.Err? then Err(items.error) else Ok(Chunk(BeValue(b[..4]), items.value))
  }

  lemma {:induction false} ItemsLengthIs(items: seq<Item>)
    requires ItemsWF(items)
    ensures |EncodeItems(items)| == ItemsLen(items)
  {
    if items != [] { ItemsLengthIs(items[1..]); }
  }

  lemma ChunkLength(c: Chunk)
    requires ItemsWF(c.items)
    ensures |EncodeChunk(c)| == ChunkLen(c) && ChunkLen(c) % 4 == 0 && ChunkLen(c) >= 8
  {
    ItemsLengthIs(c.items);
    PaddingAligns(4 + ItemsLen(c.items) + 1);
  }

  /** Null termination and padding are undone exactly; what follows the chunk does not matter. */
  lemma ChunkRoundTrip(c: Chunk, rest: Bytes)
    requires ItemsWF(c.items)
    ensures DecodeChunk(EncodeChunk(c) + rest) == Ok(c)
  {
    var source, items := Be(c.source, 4), EncodeItems(c.items);
    var zeros := Zeros(Padding(4 + |items| + 1));
    var tail := [0] + zeros + rest;
    assert source + items + [0] + zeros + rest == source + (items + tail);
    SplitAt(source, items + tail);
    Bounds();
    BeRoundTrip(c.source, 4);
    ItemsRoundTrip(c.items, tail);
  }

  predicate ChunksWF(cs: seq<Chunk>) { forall i :: 0 <= i < |cs| ==> ItemsWF(cs[i].items) }

  function EncodeChunks(cs: seq<Chunk>): Bytes
    requires ChunksWF(cs)
  {
    if cs == [] then [] else EncodeChunk(cs[0]) + EncodeChunks(cs[1..])
  }

  /** Chunk after chunk; each is as long as its contents say. */
  function DecodeChunks(b: Bytes): Result<seq<Chunk>, Error>
    decreases |b|
  {
    if b == [] then Ok([])
    else
      var c := DecodeChunk(b);
      if c.Err? then Err(c.error)
      else
        var n := ChunkLen(c.value);
        var more := DecodeChunks(if n < |b| then b[n..] else []);
        if more.Err? then more else Ok([c.value] + more.value)
  }

  lemma {:induction false} ChunksRoundTrip(cs: seq<Chunk>)
    requires ChunksWF(cs)
    ensures DecodeChunks(EncodeChunks(cs)) == Ok(cs)
    decreases |cs|
  {
    if cs != [] {
      ChunksRoundTrip(cs[1..]);
      var head, tail := EncodeChunk(cs[0]), EncodeChunks(cs[1..]);
      ChunkLength(cs[0]);
      ChunkRoundTrip(cs[0], tail);
      ChunksFirst(cs, head, tail, head + tail);
    }
  }

  lemma ChunksFirst(cs: seq<Chunk>, head: Bytes, tail: Bytes, all: Bytes)
    requires cs != [] && head != [] && all == head + tail && DecodeChunk(all) == Ok(cs[0]) && ChunkLen(cs[0]) == |head|
    requires DecodeChunks(tail) == Ok(cs[1..])
    ensures DecodeChunks(all) == Ok(cs)
  {
    SplitAt(head, tail);
    assert tail == [] ==> all == head;
    assert cs == [cs[0]] + cs[1..];
  }

  lemma {:induction false} ChunksAligned(cs: seq<Chunk>)
    requires ChunksWF(cs)
    ensures |EncodeChunks(cs)| % 4 == 0
    decreases |cs|
  {
    if cs != [] {
      ChunkLength(cs[0]);
      ChunksAligned(cs[1..]);
      AlignedSum(|EncodeChunk(cs[0])|, |EncodeChunks(cs[1..])|);
    }
  }

  function EncodeSDES(p: Packet): Option<Bytes>
    requires p.SourceDescription?
  {
    if !ChunksWF(p.chunks) || |p.chunks| > COUNT_MAX then None
    else
      var body := EncodeChunks(p.chunks);
      Some(EncodeHeader(HeaderFor(|p.chunks|, SDES, 4 + |body|)) + body)
  }

  function DecodeSDES(b: Bytes): Result<Packet, Error> {
    var h := DecodeHeader(b);
    if h.Err? then Err(h.error)
    else if h.value.typ != SDES then Err(WrongType)
    else
      var cs := DecodeChunks(b[4..]);
      if cs.Err? then Err(cs.error)
      else if |cs.value| != h.value.count then Err(InvalidHeader)
      else Ok(SourceDescription(cs.value))
  }

  lemma SDESFrom(b: Bytes, h: Header, body: Bytes, cs: seq<Chunk>)
    requires DecodeHeader(b) == Ok(h) && h.typ == SDES && |b| >= 4 && b[4..] == body
    requires DecodeChunks(body) == Ok(cs) && |cs| == h.count
    ensures DecodeSDES(b) == Ok(SourceDescription(cs))
  {}

  lemma SDESRoundTrip(p: Packet)
    requires p.SourceDescription? && EncodeSDES(p).Some?
    ensures DecodeSDES(EncodeSDES(p).value) == Ok(p) && |EncodeSDES(p).value| % 4 == 0
    ensures DecodeHeader(EncodeSDES(p).value) == Ok(HeaderFor(|p.chunks|, SDES, |EncodeSDES(p).value|))
  {
    var body := EncodeChunks(p.chunks);
    ChunksRoundTrip(p.chunks);
    SDESRead(EncodeSDES(p).value, HeaderFor(|p.chunks|, SDES, 4 + |body|), body, p.chunks);
    ChunksAligned(p.chunks);
    OneWordMore(|body|, |EncodeSDES(p).value|);
  }

  lemma SDESRead(b: Bytes, h: Header, body: Bytes, cs: seq<Chunk>)
    requires h.count == |cs| <= COUNT_MAX && h.typ == SDES && b == EncodeHeader(h) + body
    requires DecodeChunks(body) == Ok(cs)
    ensures DecodeSDES(b) == Ok(SourceDescription(cs)) && DecodeHeader(b) == Ok(h) && |b| == 4 + |body|
  {
    Headed(h, body);
    SDESFrom(b, h, body, cs);
  }

  lemma OneWordMore(n: nat, m: nat)
    requires n % 4 == 0 && m == 4 + n
    ensures m % 4 == 0
  {}

  // ---- Goodbye ----

  function EncodeSources(s: seq<u32>): (b: Bytes)
    ensures |b| == 4 * |s|
  {
    if s == [] then [] else Be(s[0], 4) + EncodeSources(s[1..])
  }

  function DecodeSources(b: Bytes, n: nat): (s: seq<u32>)
    requires |b| >= 4 * n
    ensures |s| == n
    decreases n
  {
    if n == 0 then [] else
      BeValueBound(b[..4]); Bounds();
      [BeValue(b[..4])] + DecodeSources(b[4..], n - 1)
  }

  lemma {:induction false} SourcesRoundTrip(s: seq<u32>, rest: Bytes)
    ensures DecodeSources(EncodeSources(s) + rest, |s|) == s
    decreases |s|
  {
    if s != [] {
      var head, tail := Be(s[0], 4), EncodeSources(s[1..]) + rest;
      JoinsLeft(head, EncodeSources(s[1..]), rest);
      SplitAt(head, tail);
      Bounds();
      BeRoundTrip(s[0], 4);
      SourcesRoundTrip(s[1..], rest);
    }
  }

  /** The reason's length octet is always there, so that an empty reason takes one word of zeros. */
  function ByeBody(p: Packet): Bytes
    requires p.Goodbye? && |p.reason| <= 255
  {
    var n := 4 + 4 * |p.sources| + 1 + |p.reason|;
    EncodeSources(p.sources) + ([|p.reason|] + p.reason + Zeros(Padding(n)))
  }

  function EncodeBYE(p: Packet): Option<Bytes>
    requires p.Goodbye?
  {
    if |p.sources| > COUNT_MAX || |p.reason| > 255 then None
    else Some(EncodeHeader(HeaderFor(|p.sources|, BYE, 4 + |ByeBody(p)|)) + ByeBody(p))
  }

  function DecodeReason(b: Bytes): Result<Bytes, Error> {
    if b == [] then Ok([])
    else if 1 + b[0] > |b| then Err(TooShort)
    else Ok(b[1..1 + b[0]])
  }

  function DecodeBYE(b: Bytes): Result<Packet, Error> {
    var h := DecodeHeader(b);
    if h.Err? then Err(h.error)
    else if h.value.typ != BYE then Err(WrongType)
    else if Padding(|b|) != 0 || 4 + 4 * h.value.count > |b| then Err(TooShort)
    else DecodeByeBody(h.value.count, b[4..])
  }

  function DecodeByeBody(count: nat, body: Bytes): Result<Packet, Error>
    requires 4 * count <= |body|
  {
    var reason := DecodeReason(body[4 * count..]);
    if reason.Err? then Err(reason.error) else Ok(Goodbye(DecodeSources(body, count), reason.value))
  }

  lemma ByeAligned(p: Packet)
    requires p.Goodbye? && |p.reason| <= 255
    ensures 4 * |p.sources| <= |ByeBody(p)| && (4 + |ByeBody(p)|) % 4 == 0
  {
    PaddingAligns(4 + 4 * |p.sources| + 1 + |p.reason|);
  }

  lemma ReasonRoundTrip(reason: Bytes, zeros: Bytes)
    requires |reason| <= 255
    ensures DecodeReason([|reason|] + reason + zeros) == Ok(reason)
  {
    var b := [|reason|] + reason + zeros;
    assert b[1..1 + |reason|] == reason;
  }

  lemma ByeBodyRoundTrip(p: Packet)
    requires p.Goodbye? && |p.reason| <= 255
    ensures 4 * |p.sources| <= |ByeBody(p)| && DecodeByeBody(|p.sources|, ByeBody(p)) == Ok(p)
  {
    var zeros := Zeros(Padding(4 + 4 * |p.sources| + 1 + |p.reason|));
    var tail := [|p.reason|] + p.reason + zeros;
    assert ByeBody(p) == EncodeSources(p.sources) + tail;
    SplitAt(EncodeSources(p.sources), tail);
    SourcesRoundTrip(p.sources, tail);
    ReasonRoundTrip(p.reason, zeros);
  }

  lemma BYERoundTrip(p: Packet)
    requires p.Goodbye? && EncodeBYE(p).Some?
    ensures DecodeBYE(EncodeBYE(p).value) == Ok(p) && |EncodeBYE(p).value| % 4 == 0
    ensures DecodeHeader(EncodeBYE(p).value) == Ok(HeaderFor(|p.sources|, BYE, |EncodeBYE(p).value|))
  {
    ByeAligned(p);
    ByeBodyRoundTrip(p);
    Headed(HeaderFor(|p.sources|, BYE, 4 + |ByeBody(p)|), ByeBody(p));
  }

  // ---- Feedback ----

  /** The end of the list in a feedback packet, four times the length field in 16-bit arithmetic. */
  function ListEnd(h: Header): nat { 4 + 4 * h.length % 0x1_0000 }

  function EncodeNacks(ns: seq<NackPair>): (b: Bytes)
    ensures |b| == 4 * |ns|
  {
    if ns == [] then [] else Be(ns[0].packetID, 2) + Be(ns[0].lostPackets, 2) + EncodeNacks(ns[1..])
  }

  function DecodeNacks(b: Bytes): seq<NackPair>
    decreases |b|
  {
    if |b| < 4 then []
    else
      BeValueBound(b[..2]); BeValueBound(b[2..4]); Bounds();
      [NackPair(BeValue(b[..2]), BeValue(b[2..4]))] + DecodeNacks(b[4..])
  }

  lemma {:induction false} NacksRoundTrip(ns: seq<NackPair>)
    ensures DecodeNacks(EncodeNacks(ns)) == ns
    decreases |ns|
  {
    if ns != [] {
      var b, tail := EncodeNacks(ns), EncodeNacks(ns[1..]);
      Bounds();
      BeRoundTrip(ns[0].packetID, 2);
      BeRoundTrip(ns[0].lostPackets, 2);
      assert b[..2] == Be(ns[0].packetID, 2) && b[2..4] == Be(ns[0].lostPackets, 2) && b[4..] == tail;
      NacksRoundTrip(ns[1..]);
    }
  }

  function EncodeFirs(es: seq<FirEntry>): (b: Bytes)
    ensures |b| == 8 * |es|
  {
    if es == [] then [] else Be(es[0].ssrc, 4) + [es[0].sequenceNumber, 0, 0, 0] + EncodeFirs(es[1..])
  }

  /** Entries start every 8 bytes while `n` bytes of list are left; each needs its first 5 bytes. */
  function DecodeFirs(b: Bytes, n: int): Result<seq<FirEntry>, Error>
    decreases |b|
  {
    if n <= 0 then Ok([])
    else if |b| < 5 then Err(Unindexable)
    else
      BeValueBound(b[..4]); Bounds();
      var e := FirEntry(BeValue(b[..4]), b[4]);
      if |b| < 8 then (if n <= 8 then Ok([e]) else Err(Unindexable))
      else
        var more := DecodeFirs(b[8..], n - 8);
        if more.Err? then more else Ok([e] + more.value)
  }

  lemma {:induction false} FirsRoundTrip(es: seq<FirEntry>)
    ensures DecodeFirs(EncodeFirs(es), 8 * |es|) == Ok(es)
    decreases |es|
  {
    if es != [] {
      var b, tail := EncodeFirs(es), EncodeFirs(es[1..]);
      Bounds();
      BeRoundTrip(es[0].ssrc, 4);
      var head := Be(es[0].ssrc, 4) + [es[0].sequenceNumber, 0, 0, 0];
      SplitAt(head, tail);
      assert b[..4] == head[..4] == Be(es[0].ssrc, 4) && b[4] == head[4];
      FirsRoundTrip(es[1..]);
      assert es == [es[0]] + es[1..];
    }
  }

  function TwoSSRCs(a: u32, b: u32): (r: Bytes)
    ensures |r| == 8
  {
    Be(a, 4) + Be(b, 4)
  }

  lemma TwoSSRCsRoundTrip(a: u32, b: u32, rest: Bytes)
    ensures var x := TwoSSRCs(a, b) + rest; BeValue(x[..4]) == a && BeValue(x[4..8]) == b && x[8..] == rest
  {
    var x := TwoSSRCs(a, b) + rest;
    Bounds();
    BeRoundTrip(a, 4);
    BeRoundTrip(b, 4);
    assert x[..4] == Be(a, 4) && x[4..8] == Be(b, 4) && x[8..] == rest;
  }

  function FeedbackBody(p: Packet): Bytes
    requires p.Nack? || p.Pli? || p.Fir?
  {
    TwoSSRCs(p.senderSSRC, p.mediaSSRC)
    + (if p.Nack? then EncodeNacks(p.nacks) else if p.Fir? then EncodeFirs(p.entries) else [])
  }

  function FeedbackHeader(p: Packet): Header
    requires p.Nack? || p.Pli? || p.Fir?
  {
    if p.Nack? then HeaderFor(1, RTPFB, 12 + 4 * |p.nacks|)
    else if p.Fir? then HeaderFor(4, PSFB, 12 + 8 * |p.entries|)
    else HeaderFor(1, PSFB, 12)
  }

  function EncodeFeedback(p: Packet): Option<Bytes>
    requires p.Nack? || p.Pli? || p.Fir?
  {
    if p.Nack? && |p.nacks| + 2 > 255 then None
    else Some(EncodeHeader(FeedbackHeader(p)) + FeedbackBody(p))
  }

  function SSRCs(b: Bytes): (u32, u32)
    requires |b| >= 12
  {
    BeValueBound(b[4..][..4]); BeValueBound(b[4..][4..8]); Bounds();
    (BeValue(b[4..][..4]), BeValue(b[4..][4..8]))
  }

  function DecodePLI(b: Bytes): Result<Packet, Error> {
    if |b| < 12 then Err(TooShort)
    else
      var h := DecodeHeader(b);
      if h.Err? then Err(h.error)
      else if h.value.typ != PSFB || h.value.count != 1 then Err(WrongType)
      else var s := SSRCs(b); Ok(Pli(s.0, s.1))
  }

  function DecodeNACK(b: Bytes): Result<Packet, Error> {
    if |b| < 8 then Err(TooShort)
    else
      var h := DecodeHeader(b);
      if h.Err? then Err(h.error)
      else
        var end := ListEnd(h.value);
        if |b| < end then Err(TooShort)
        else if h.value.typ != RTPFB || h.value.count != 1 then Err(WrongType)
        else if |b| < 12 then Err(Unindexable)
        else
          var s := SSRCs(b);
          Ok(Nack(s.0, s.1, if end < 12 then [] else DecodeNacks(b[4..][8..][..end - 12])))
  }

  function DecodeFIR(b: Bytes): Result<Packet, Error> {
    if |b| < 8 then Err(TooShort)
    else
      var h := DecodeHeader(b);
      if h.Err? then Err(h.error)
      else
        var end := ListEnd(h.value);
        if |b| < end then Err(TooShort)
        else if h.value.typ != PSFB || h.value.count != 4 then Err(WrongType)
        else if |b| < 12 then Err(Unindexable)
        else
          var s := SSRCs(b);
          var es := DecodeFirs(b[4..][8..], end - 12);
          if es.Err? then Err(es.error) else Ok(Fir(s.0, s.1, es.value))
  }

  /** The list of a packet under 64 KiB ends where the packet does. */
  lemma ListEndIsEnd(count: nat, typ: u8, n: nat)
    requires 4 <= n < 0x1_0000 && n % 4 == 0
    ensures ListEnd(HeaderFor(count, typ, n)) == n
  {}

  lemma NackEnd(p: Packet)
    requires p.Nack? && |p.nacks| + 2 <= 255
    ensures ListEnd(FeedbackHeader(p)) == 12 + 4 * |p.nacks|
  {
    WholeWords(3 + |p.nacks|);
    ListEndIsEnd(1, RTPFB, 12 + 4 * |p.nacks|);
  }

  lemma NackRoundTrip(p: Packet)
    requires p.Nack? && EncodeFeedback(p).Some?
    ensures DecodeNACK(EncodeFeedback(p).value) == Ok(p)
  {
    var list := EncodeNacks(p.nacks);
    Headed(FeedbackHeader(p), FeedbackBody(p));
    TwoSSRCsRoundTrip(p.senderSSRC, p.mediaSSRC, list);
    NacksRoundTrip(p.nacks);
    NackEnd(p);
    assert FeedbackBody(p)[8..] == list && list[..4 * |p.nacks|] == list;
  }

  /** Without an error, the number of entries read follows from the size of the list alone. */
  lemma {:induction false} FirsCount(b: Bytes, n: int)
    requires n % 8 == 0
    ensures DecodeFirs(b, n).Ok? ==> 8 * |DecodeFirs(b, n).value| == if n <= 0 then 0 else n
    decreases |b|
  {
    if n > 0 && |b| >= 8 { FirsCount(b[8..], n - 8); }
  }

  lemma FourTimes(x: nat)
    ensures 4 * (x % 0x1_0000) % 0x1_0000 == 4 * x % 0x1_0000
  {
    assert x == 0x1_0000 * (x / 0x1_0000) + x % 0x1_0000;
    assert 4 * x == 0x1_0000 * (4 * (x / 0x1_0000)) + 4 * (x % 0x1_0000);
  }

  lemma FirListSize(k: nat)
    ensures var size := ListEnd(HeaderFor(4, PSFB, 12 + 8 * k)) - 12;
            && size % 8 == 0 && (if k < 8191 then size == 8 * k else size < 8 * k)
  {
    FourTimes(2 + 2 * k);
    assert (12 + 8 * k) / 4 - 1 == 2 + 2 * k;
  }

  /** A full intra request comes back if and only if it is shorter than 64 KiB. */
  lemma FirRoundTrip(p: Packet)
    requires p.Fir?
    ensures DecodeFIR(EncodeFeedback(p).value) == Ok(p) <==> 12 + 8 * |p.entries| < 0x1_0000
  {
    var list, size := EncodeFirs(p.entries), ListEnd(FeedbackHeader(p)) - 12;
    FirListSize(|p.entries|);
    FirsRead(p.entries, list, size);
    FirReads(p, list, size);
  }

  lemma FirsRead(es: seq<FirEntry>, list: Bytes, size: int)
    requires list == EncodeFirs(es) && size % 8 == 0
    requires if |es| < 8191 then size == 8 * |es| else size < 8 * |es|
    ensures DecodeFirs(list, size) == Ok(es) <==> |es| < 8191
  {
    FirsRoundTrip(es);
    FirsCount(list, size);
  }

  /** What is read depends on the size alone. */
  lemma FirReads(p: Packet, list: Bytes, size: int)
    requires p.Fir? && list == EncodeFirs(p.entries) && size == ListEnd(FeedbackHeader(p)) - 12 <= |list|
    ensures var es := DecodeFirs(list, size);
            DecodeFIR(EncodeFeedback(p).value)
            == if es.Err? then Err(es.error) else Ok(Fir(p.senderSSRC, p.mediaSSRC, es.value))
  {
    Headed(FeedbackHeader(p), FeedbackBody(p));
    TwoSSRCsRoundTrip(p.senderSSRC, p.mediaSSRC, list);
    FirFrom(EncodeFeedback(p).value, FeedbackHeader(p), FeedbackBody(p), p.senderSSRC, p.mediaSSRC, list, size);
  }

  lemma FirFrom(b: Bytes, h: Header, body: Bytes, sender: u32, media: u32, list: Bytes, size: int)
    requires |b| == 12 + |list| && DecodeHeader(b) == Ok(h) && h.typ == PSFB && h.count == 4 && b[4..] == body
    requires BeValue(body[..4]) == sender && BeValue(body[4..8]) == media && body[8..] == list
    requires size == ListEnd(h) - 12 <= |list|
    ensures var es := DecodeFirs(list, size);
            DecodeFIR(b) == if es.Err? then Err(es.error) else Ok(Fir(sender, media, es.value))
  {}

  lemma PliRoundTrip(p: Packet)
    requires p.Pli?
    ensures DecodePLI(EncodeFeedback(p).value) == Ok(p)
  {
    Headed(FeedbackHeader(p), FeedbackBody(p));
    TwoSSRCsRoundTrip(p.senderSSRC, p.mediaSSRC, []);
  }
}
