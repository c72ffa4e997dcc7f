/** Compound packets: dispatch on the header, byte consumption, and the round trip over whole lists. */
module RtcpCompound {
  import opened Serial
  import opened Wrappers
  import opened Binary
  import opened RtcpPackets
  import RtcpTwcc

  // ---- One packet of the list ----

  function Encode(p: Packet): Option<Bytes> {
    match p
    case SenderReport(_, _, _, _, _, _, _) => EncodeSR(p)
    case ReceiverReport(_, _, _) => EncodeRR(p)
    case SourceDescription(_) => EncodeSDES(p)
    case Goodbye(_, _) => EncodeBYE(p)
    case Nack(_, _, _) => EncodeFeedback(p)
    case Pli(_, _) => EncodeFeedback(p)
    case Fir(_, _, _) => EncodeFeedback(p)
    case Raw(b) => Some(b)
  }

  function DecodeRaw(b: Bytes): Result<Packet, Error> {
    var h := DecodeHeader(b);
    if h.Err? then Err(h.error) else Ok(Raw(b))
  }

  // Kinds whose contents are kept as bytes. Rapid resynchronisation requests, transport-wide feedback, slice
  // loss and bitrate estimates are accepted or refused as their decoders do; of RFC 8888 feedback and extended
  // reports the opening tests are modelled, and `accepts` says which of the rest their block loops take.

  const RRR := 5
  const CCFB := 11
  const SLI := 2
  const REMB := 15

  function DecodeRRR(b: Bytes): Result<Packet, Error> {
    if |b| < 12 then Err(TooShort) else DecodeRaw(b)
  }

  function DecodeTCC(b: Bytes): Result<Packet, Error> {
    var r := RtcpTwcc.Unmarshal(b);
    if r.Err? then Err(r.error) else Ok(Raw(b))
  }

  function DecodeCCFB(b: Bytes, accepts: Bytes -> bool): Result<Packet, Error> {
    if |b| < 12 then Err(TooShort)
    else
      var r := DecodeRaw(b);
      if r.Ok? && !accepts(b) then Err(TooShort) else r
  }

  /** The decoder asks for the other feedback type than the one it is dispatched on. */
  function DecodeSLI(b: Bytes): Result<Packet, Error> {
    if |b| < 8 then Err(TooShort)
    else
      var h := DecodeHeader(b);
      if h.Err? then Err(h.error)
      else if |b| < 4 + 4 * h.value.length % 0x1_0000 then Err(TooShort)
      else if h.value.typ != RTPFB || h.value.count != SLI then Err(WrongType)
      else Ok(Raw(b))
  }

  function DecodeREMB(b: Bytes): Result<Packet, Error> {
    if |b| < 20 then Err(TooShort)
    else if b[0] / 64 != 2 then Err(BadVersion)
    else if b[0] / 32 % 2 != 0 || b[0] % 32 != REMB || b[1] != PSFB then Err(WrongType)
    else
      var size, num: nat := (BeValue(b[2..4]) + 1) * 4 % 0x1_0000, b[16];
      if size < 20 || |b| < size then Err(TooShort)
      else if BeValue(b[8..12]) != 0 || b[12..16] != [0x52, 0x45, 0x4D, 0x42] || size != 20 + 4 * num
      then Err(InvalidHeader)
      else Ok(Raw(b))
  }

  function DecodeXR(b: Bytes, accepts: Bytes -> bool): Result<Packet, Error> {
    var h := DecodeHeader(b);
    if h.Err? then Err(h.error)
    else if h.value.typ != XR then Err(WrongType)
    else if |b| < 8 || !accepts(b) then Err(TooShort)
    else Ok(Raw(b))
  }

  function DispatchTransport(count: nat, b: Bytes, accepts: Bytes -> bool): Result<Packet, Error> {
    if count == 1 then DecodeNACK(b)
    else if count == RRR then DecodeRRR(b)
    else if count == RtcpTwcc.TCC_FORMAT then DecodeTCC(b)
    else if count == CCFB then DecodeCCFB(b, accepts)
    else DecodeRaw(b)
  }

  function DispatchPayload(count: nat, b: Bytes): Result<Packet, Error> {
    if count == 1 then DecodePLI(b)
    else if count == SLI then DecodeSLI(b)
    else if count == REMB then DecodeREMB(b)
    else if count == 4 then DecodeFIR(b)
    else DecodeRaw(b)
  }

  function Dispatch(h: Header, b: Bytes, accepts: Bytes -> bool): Result<Packet, Error> {
    if h.typ == SR then DecodeSR(b)
    else if h.typ == RR then DecodeRR(b)
    else if h.typ == SDES then DecodeSDES(b)
    else if h.typ == BYE then DecodeBYE(b)
    else if h.typ == RTPFB then DispatchTransport(h.count, b, accepts)
    else if h.typ == PSFB then DispatchPayload(h.count, b)
    else if h.typ == XR then DecodeXR(b, accepts)
    else DecodeRaw(b)
  }

  /** So no slice loss indication is ever decoded from a compound packet. */
  lemma SliceLossAlwaysRefused(h: Header, b: Bytes, accepts: Bytes -> bool)
    requires DecodeHeader(b) == Ok(h) && h.typ == PSFB && h.count == SLI
    ensures Dispatch(h, b, accepts).Err?
  {}

  /** No decoder takes an empty packet: each tests the length, or reads the header, first. */
  lemma EmptyRefused(h: Header, accepts: Bytes -> bool)
    ensures Dispatch(h, [], accepts).Err?
  {}

  datatype First = First(packet: Packet, processed: nat)

  /** The first packet and how many bytes it took; the length is incremented in 16 bits. */
  function DecodeFirst(raw: Bytes, accepts: Bytes -> bool): Result<First, Error> {
    var h := DecodeHeader(raw);
    if h.Err? then Err(h.error)
    else
      var n := (h.value.length + 1) % 0x1_0000 * 4;
      if n > |raw| then Err(TooShort)
      else
        var p := Dispatch(h.value, raw[..n], accepts);
        if p.Err? then Err(p.error) else Ok(First(p.value, n))
  }

  /** Every successful step takes at least four bytes, also when the length wraps to zero. */
  lemma StepConsumes(raw: Bytes, accepts: Bytes -> bool)
    ensures var r := DecodeFirst(raw, accepts); r.Ok? ==> 4 <= r.value.processed <= |raw|
  {
    var h := DecodeHeader(raw);
    if h.Ok? && (h.value.length + 1) % 0x1_0000 == 0 {
      assert raw[..0] == [];
      EmptyRefused(h.value, accepts);
    }
  }

  // ---- Lists ----

  function Both(b: Option<Bytes>, more: Option<Bytes>): Option<Bytes> {
    if b.None? || more.None? then None else Some(b.value + more.value)
  }

  /** The encodings of all packets, one after the other, unless one cannot be encoded. */
  function EncodeWith(encode: Packet -> Option<Bytes>, ps: seq<Packet>): Option<Bytes> {
    if ps == [] then Some([]) else Both(encode(ps[0]), EncodeWith(encode, ps[1..]))
  }

  function EncodeAll(ps: seq<Packet>): Option<Bytes> { EncodeWith(Encode, ps) }

  function DecodeAll(raw: Bytes, accepts: Bytes -> bool): Result<seq<Packet>, Error>
    decreases |raw|
  {
    if raw == [] then Ok([])
    else
      StepConsumes(raw, accepts);
      var p := DecodeFirst(raw, accepts);
      if p.Err? then Err(p.error)
      else
        var more := DecodeAll(raw[p.value.processed..], accepts);
        if more.Err? then more else Ok([p.value.packet] + more.value)
  }

  function Unmarshal(raw: Bytes, accepts: Bytes -> bool): Result<seq<Packet>, Error> {
    var ps := DecodeAll(raw, accepts);
    if ps.Ok? && ps.value == [] then Err(InvalidHeader) else ps
  }

  /** Packets whose encoding and decoding line up: encodable, under 64 KiB, whole words, and within the
      wire's 24 bits for total lost; receiver reports without extensions. */
  predicate Valid(p: Packet) {
    && !p.Raw? && Encode(p).Some? && |Encode(p).value| < 0x1_0000
    && (p.SenderReport? ==> ReportsWF(p.reports) && |p.extensions| % 4 == 0)
    && (p.ReceiverReport? ==> ReportsWF(p.reports) && p.extensions == [])
  }

  /** A packet of whole words whose header gives its length and dispatches it back to `p`. */
  predicate Recognised(p: Packet, b: Bytes, accepts: Bytes -> bool) {
    && DecodeHeader(b).Ok? && |b| == 4 * (DecodeHeader(b).value.length + 1)
    && Dispatch(DecodeHeader(b).value, b, accepts) == Ok(p)
  }

  /** The length field of a packet of `words` words. */
  lemma WordsHeader(count: nat, typ: u8, words: nat, n: nat)
    requires n == 4 * words && 1 <= words < 0x4000
    ensures HeaderFor(count, typ, n).length + 1 == words
  {}

  lemma Words(n: nat)
    requires n % 4 == 0
    ensures n == 4 * (n / 4)
  {}

  lemma SRRecognised(p: Packet, accepts: Bytes -> bool)
    requires p.SenderReport? && Valid(p)
    ensures Recognised(p, EncodeSR(p).value, accepts)
  {
    SRBodyRoundTrip(p);
    SRRoundTrip(p);
    Words(|p.extensions|);
    WordsHeader(|p.reports|, SR, 7 + 6 * |p.reports| + |p.extensions| / 4, |EncodeSR(p).value|);
  }

  lemma RRRecognised(p: Packet, accepts: Bytes -> bool)
    requires p.ReceiverReport? && Valid(p)
    ensures Recognised(p, EncodeRR(p).value, accepts)
  {
    RRRecognisedWhenPlain(p, accepts);
  }

  /** In a compound packet a receiver report comes back if and only if it has no extensions at all, and every total
      lost fits 24 bits. */
  lemma RRRecognisedWhenPlain(p: Packet, accepts: Bytes -> bool)
    requires p.ReceiverReport? && EncodeRR(p).Some?
    ensures Recognised(p, EncodeRR(p).value, accepts) <==> ReportsWF(p.reports) && p.extensions == []
  {
    RRRoundTrip(p);
    RRLength(p);
    DispatchedRR(RRHeader(p), EncodeRR(p).value, accepts);
    WholeOrPlain(|p.extensions|);
  }

  lemma DispatchedRR(h: Header, b: Bytes, accepts: Bytes -> bool)
    requires h.typ == RR
    ensures Dispatch(h, b, accepts) == DecodeRR(b)
  {}

  lemma WholeOrPlain(n: nat)
    ensures n in {0, 3, 6, 9} && n % 4 == 0 <==> n == 0
  {}

  lemma SDESRecognised(p: Packet, accepts: Bytes -> bool)
    requires p.SourceDescription? && Valid(p)
    ensures Recognised(p, EncodeSDES(p).value, accepts)
  {
    SDESRoundTrip(p);
    Words(|EncodeSDES(p).value|);
    WordsHeader(|p.chunks|, SDES, |EncodeSDES(p).value| / 4, |EncodeSDES(p).value|);
  }

  lemma BYERecognised(p: Packet, accepts: Bytes -> bool)
    requires p.Goodbye? && Valid(p)
    ensures Recognised(p, EncodeBYE(p).value, accepts)
  {
    BYERoundTrip(p);
    Words(|EncodeBYE(p).value|);
    WordsHeader(|p.sources|, BYE, |EncodeBYE(p).value| / 4, |EncodeBYE(p).value|);
  }

  lemma NackRecognised(p: Packet, accepts: Bytes -> bool)
    requires p.Nack? && EncodeFeedback(p).Some?
    ensures Recognised(p, EncodeFeedback(p).value, accepts)
  {
    NackRoundTrip(p);
    Headed(FeedbackHeader(p), FeedbackBody(p));
    WordsHeader(1, RTPFB, 3 + |p.nacks|, 12 + 4 * |p.nacks|);
    DispatchedNack(EncodeFeedback(p).value, FeedbackHeader(p), accepts);
  }

  lemma DispatchedNack(b: Bytes, h: Header, accepts: Bytes -> bool)
    requires h.typ == RTPFB && h.count == 1
    ensures Dispatch(h, b, accepts) == DecodeNACK(b)
  {}

  lemma PliRecognised(p: Packet, accepts: Bytes -> bool)
    requires p.Pli?
    ensures Recognised(p, EncodeFeedback(p).value, accepts)
  {
    PliRoundTrip(p);
    Headed(FeedbackHeader(p), FeedbackBody(p));
  }

  lemma FirRecognised(p: Packet, accepts: Bytes -> bool)
    requires p.Fir? && 12 + 8 * |p.entries| < 0x1_0000
    ensures Recognised(p, EncodeFeedback(p).value, accepts)
  {
    FirRoundTrip(p);
    Headed(FeedbackHeader(p), FeedbackBody(p));
    WordsHeader(4, PSFB, 3 + 2 * |p.entries|, 12 + 8 * |p.entries|);
    DispatchedFir(EncodeFeedback(p).value, DecodeHeader(EncodeFeedback(p).value).value, accepts);
  }

  lemma DispatchedFir(b: Bytes, h: Header, accepts: Bytes -> bool)
    requires h.typ == PSFB && h.count == 4
    ensures Dispatch(h, b, accepts) == DecodeFIR(b)
  {}

  lemma PacketRoundTrip(p: Packet, accepts: Bytes -> bool)
    requires Valid(p)
    ensures Recognised(p, Encode(p).value, accepts)
  {
    match p
    case SenderReport(_, _, _, _, _, _, _) => SRRecognised(p, accepts);
    case ReceiverReport(_, _, _) => RRRecognised(p, accepts);
    case SourceDescription(_) => SDESRecognised(p, accepts);
    case Goodbye(_, _) => BYERecognised(p, accepts);
    case Nack(_, _, _) => NackRecognised(p, accepts);
    case Pli(_, _) => PliRecognised(p, accepts);
    case Fir(_, _, _) => FirRecognised(p, accepts);
  }

  lemma HeaderOfPrefix(b: Bytes, rest: Bytes)
    requires |b| >= 4
    ensures DecodeHeader(b + rest) == DecodeHeader(b)
  {
    assert (b + rest)[2..4] == b[2..4];
  }

  lemma ProcessedWords(length: u16, n: nat)
    requires n == 4 * (length + 1) < 0x1_0000
    ensures (length + 1) % 0x1_0000 * 4 == n
  {}

  lemma FirstRecognised(p: Packet, b: Bytes, rest: Bytes, accepts: Bytes -> bool)
    requires Recognised(p, b, accepts) && |b| < 0x1_0000
    ensures DecodeFirst(b + rest, accepts) == Ok(First(p, |b|))
  {
    HeaderOfPrefix(b, rest);
    SplitAt(b, rest);
    ProcessedWords(DecodeHeader(b).value.length, |b|);
  }

  lemma FirstRoundTrip(p: Packet, rest: Bytes, accepts: Bytes -> bool)
    requires Valid(p)
    ensures |Encode(p).value| >= 4 && DecodeFirst(Encode(p).value + rest, accepts) == Ok(First(p, |Encode(p).value|))
  {
    PacketRoundTrip(p, accepts);
    FirstRecognised(p, Encode(p).value, rest, accepts);
  }

  function Plain(p: Packet): Packet
    requires p.ReceiverReport?
  {
    ReceiverReport(p.ssrc, p.reports, [])
  }

  lemma ExtensionsTrail(p: Packet)
    requires p.ReceiverReport? && EncodeRR(p).Some? && |p.extensions| % 4 == 0
    ensures EncodeRR(Plain(p)).Some? && EncodeRR(p).value == EncodeRR(Plain(p)).value + p.extensions
    ensures |EncodeRR(Plain(p)).value| == 8 + 24 * |p.reports|
  {
    RRSize(Plain(p));
    BodyTrail(p);
    assert RRHeader(p) == RRHeader(Plain(p));
    JoinsLeft(EncodeHeader(RRHeader(p)), RRBody(Plain(p)), p.extensions);
  }

  lemma BodyTrail(p: Packet)
    requires p.ReceiverReport? && |p.extensions| % 4 == 0
    ensures RRBody(p) == RRBody(Plain(p)) + p.extensions
  {
    var ssrc, reports := Be(p.ssrc, 4), EncodeReports(p.reports);
    assert p.extensions + Zeros(0) == p.extensions && [] + Zeros(0) == [] && reports + [] == reports;
    assert ssrc + (reports + p.extensions) == ssrc + reports + p.extensions;
  }

  /** Extensions that are whole words end up outside the packet, and are read as the packets after it. */
  lemma ExtensionsReadAsPackets(p: Packet, rest: Bytes, accepts: Bytes -> bool)
    requires p.ReceiverReport? && EncodeRR(p).Some? && ReportsWF(p.reports) && |p.extensions| % 4 == 0
    ensures var n := 8 + 24 * |p.reports|;
            && n <= |EncodeRR(p).value| && (EncodeRR(p).value + rest)[n..] == p.extensions + rest
            && DecodeFirst(EncodeRR(p).value + rest, accepts) == Ok(First(Plain(p), n))
  {
    ExtensionsTrail(p);
    RRRecognisedWhenPlain(Plain(p), accepts);
    FirstOf(Plain(p), EncodeRR(Plain(p)).value, p.extensions, rest, EncodeRR(p).value, accepts);
  }

  lemma FirstOf(p: Packet, b: Bytes, more: Bytes, rest: Bytes, raw: Bytes, accepts: Bytes -> bool)
    requires Recognised(p, b, accepts) && |b| < 0x1_0000 && raw == b + more
    ensures DecodeFirst(raw + rest, accepts) == Ok(First(p, |b|)) && (raw + rest)[|b|..] == more + rest
  {
    FirstRecognised(p, b, more + rest, accepts);
    SplitAt(b, more + rest);
    assert raw + rest == b + (more + rest);
  }

  /** What the extensions would be refused for as a packet, a compound packet ending in the report is refused for. */
  lemma ExtensionsRefused(p: Packet, accepts: Bytes -> bool)
    requires p.ReceiverReport? && EncodeRR(p).Some? && ReportsWF(p.reports) && |p.extensions| % 4 == 0
    requires p.extensions != [] && DecodeHeader(p.extensions).Err?
    ensures EncodeAll([p]).Some? && Unmarshal(EncodeAll([p]).value, accepts) == Err(DecodeHeader(p.extensions).error)
  {
    ExtensionsReadAsPackets(p, [], accepts);
    OneEncoded(Encode, p, EncodeRR(p).value);
    RefusedAfter(EncodeRR(p).value, 8 + 24 * |p.reports|, p.extensions, accepts);
  }

  lemma OneEncoded(encode: Packet -> Option<Bytes>, p: Packet, b: Bytes)
    requires encode(p) == Some(b)
    ensures EncodeWith(encode, [p]) == Some(b)
  {
    assert EncodeWith(encode, [p][1..]) == Some([]) && b + [] == b;
  }

  lemma RefusedAfter(raw: Bytes, n: nat, more: Bytes, accepts: Bytes -> bool)
    requires DecodeFirst(raw + [], accepts).Ok? && DecodeFirst(raw + [], accepts).value.processed == n
    requires 0 < n <= |raw| && (raw + [])[n..] == more + [] && more != [] && DecodeHeader(more).Err?
    ensures Unmarshal(raw, accepts) == Err(DecodeHeader(more).error)
  {
    assert raw + [] == raw && more + [] == more;
    assert DecodeAll(more, accepts) == Err(DecodeHeader(more).error);
    assert DecodeAll(raw, accepts) == DecodeAll(raw[n..], accepts);
  }

  /** So a receiver report with the extensions 1, 2, 3, 4 is marshalled, and the bytes are then refused. */
  lemma ExtensionsMayBeRefused(accepts: Bytes -> bool)
    ensures var p := ReceiverReport(1, [], [1, 2, 3, 4]);
            EncodeAll([p]).Some? && Unmarshal(EncodeAll([p]).value, accepts) == Err(BadVersion)
  {
    ExtensionsRefused(ReceiverReport(1, [], [1, 2, 3, 4]), accepts);
  }

  lemma {:induction false} AllRoundTrip(ps: seq<Packet>, accepts: Bytes -> bool)
    requires forall i :: 0 <= i < |ps| ==> Valid(ps[i])
    ensures EncodeAll(ps).Some? && DecodeAll(EncodeAll(ps).value, accepts) == Ok(ps)
    decreases |ps|
  {
    if ps != [] {
      AllRoundTrip(ps[1..], accepts);
      var b, rest := Encode(ps[0]).value, EncodeAll(ps[1..]).value;
      FirstRoundTrip(ps[0], rest, accepts);
      OneMoreEncoded(Encode, ps, b, rest);
      FirstJoins(ps, b, rest, b + rest, accepts);
    }
  }

  lemma OneMoreEncoded(encode: Packet -> Option<Bytes>, ps: seq<Packet>, b: Bytes, rest: Bytes)
    requires ps != [] && encode(ps[0]) == Some(b) && EncodeWith(encode, ps[1..]) == Some(rest)
    ensures EncodeWith(encode, ps) == Some(b + rest)
  {}

  lemma FirstJoins(ps: seq<Packet>, b: Bytes, rest: Bytes, all: Bytes, accepts: Bytes -> bool)
    requires ps != [] && |b| >= 4 && all == b + rest && DecodeFirst(all, accepts) == Ok(First(ps[0], |b|))
    requires DecodeAll(rest, accepts) == Ok(ps[1..])
    ensures DecodeAll(all, accepts) == Ok(ps)
  {
    SplitAt(b, rest);
    assert ps == [ps[0]] + ps[1..];
  }

  /** Marshalling a nonempty list of valid packets and unmarshalling the bytes gives the list back. */
  lemma CompoundRoundTrip(ps: seq<Packet>, accepts: Bytes -> bool)
    requires ps != [] && forall i :: 0 <= i < |ps| ==> Valid(ps[i])
    ensures EncodeAll(ps).Some? && Unmarshal(EncodeAll(ps).value, accepts) == Ok(ps)
  {
    AllRoundTrip(ps, accepts);
  }
}
