/** What the write loop of an established association sends, and the T3 timeout. */
module SctpTransmit {
  // New data, T3 retransmissions, fast retransmissions, FORWARD TSN chunks, and their bundling into packets.

  import opened Serial
  import opened SctpChunks
  import opened SctpSender

  // ---- movePendingDataChunkToInflightQueue and popPendingDataChunksToSend ----

  function MoveToInflight(s: Sender, now: int): Sender
    requires Peek(s.pending).Some? && |s.q| <= FLIGHT_LIMIT
  {
    var c := Peek(s.pending).value.(tsn := NextTSN(s), since := now, nSent := 1);
    var heads := CheckReliability(s.useForwardTSN, s.streams, SetAllInflight(s.heads, c), c, now);
    s.(pending := Pop(s.pending).p, heads := heads, q := s.q + [c], nBytes := s.nBytes + c.len)
  }

  datatype Filled = Filled(s: Sender, resets: seq<u16>)

  /** Nothing more can be taken from the pending queue: it is empty, or a window holds its head back. */
  predicate Blocked(s: Sender) {
    Peek(s.pending).Some? ==>
      var n := Peek(s.pending).value.len; n > 0 && (U32(U32(s.nBytes) + n) > s.cc.cwnd || n > s.rwnd)
  }

  /** An empty chunk asks for a stream reset; any other enters flight and is paid for out of rwnd. */
  function FillStep(f: Filled, now: int): (r: Filled)
    requires !Blocked(f.s) && |f.s.q| <= FLIGHT_LIMIT
  {
    var s, c := f.s, Peek(f.s.pending).value;
    if c.len == 0 then Filled(s.(pending := Pop(s.pending).p), f.resets + [c.streamIdentifier])
    else Filled(MoveToInflight(s.(rwnd := s.rwnd - c.len), now), f.resets)
  }

  /** Each step takes one chunk from the pending queue and adds at most one to the flight. */
  lemma StepPops(f: Filled, now: int)
    requires PendingWF(f.s.pending) && !Blocked(f.s) && |f.s.q| <= FLIGHT_LIMIT
    ensures var r := FillStep(f, now).s;
            PendingWF(r.pending) && PendingSize(r.pending) == PendingSize(f.s.pending) - 1 && |r.q| <= |f.s.q| + 1
  {
    PopFollowsMessages(f.s.pending);
  }

  function Fill(f: Filled, now: int): (r: Filled)
    requires PendingWF(f.s.pending) && |f.s.q| + PendingSize(f.s.pending) <= FLIGHT_LIMIT
    ensures PendingWF(r.s.pending) && |r.s.q| + PendingSize(r.s.pending) <= FLIGHT_LIMIT && Blocked(r.s)
    decreases PendingSize(f.s.pending)
  {
    if Blocked(f.s) then f else (StepPops(f, now); Fill(FillStep(f, now), now))
  }

  /** New chunks are the ones appended to the queue; sending any starts the T3 timer. */
  function PopPending(s: Sender, now: int): (r: Filled)
    requires PendingWF(s.pending) && |s.q| + PendingSize(s.pending) <= FLIGHT_LIMIT
    ensures PendingWF(r.s.pending)
  {
    var f := Fill(Filled(s, []), now);
    var s1 := f.s;
    var s2 := if s1.q == [] && Peek(s1.pending).Some?
              then (PopFollowsMessages(s1.pending); MoveToInflight(s1, now)) else s1;
    Filled(s2.(t3Running := s2.t3Running || |s2.q| > |s.q|), f.resets)
  }

  // ---- getDataPacketsToRetransmit ----

  datatype Resend = Resend(q: seq<Chunk>, heads: Heads, bytes: nat, picks: seq<Chunk>)

  /** Sends position `i` once more, counting `cost` bytes; only the T3 path clears the retransmit flag. */
  function SendAgain(r: Resend, i: nat, cost: nat, t3: bool, s: Sender, now: int): (r': Resend)
    requires i < |r.q|
    ensures |r'.q| == |r.q|
  {
    var c := r.q[i].(retransmit := r.q[i].retransmit && !t3, nSent := r.q[i].nSent + 1);
    Resend(r.q[i := c], CheckReliability(s.useForwardTSN, s.streams, r.heads, c, now), r.bytes + cost, r.picks + [c])
  }

  function RetransmitFrom(r: Resend, i: nat, s: Sender, now: int): (r': Resend)
    ensures |r'.q| == |r.q|
    decreases |r.q| - i
  {
    if i >= |r.q| then r
    else
      var c := r.q[i];
      if !c.retransmit then RetransmitFrom(r, i + 1, s, now)
      else if i == 0 && s.rwnd < c.len then SendAgain(r, i, c.len, true, s, now)
      else if r.bytes + c.len > Min(s.cc.cwnd, s.rwnd) then r
      else RetransmitFrom(SendAgain(r, i, c.len, true, s, now), i + 1, s, now)
  }

  function Retransmit(s: Sender, now: int): Resend {
    RetransmitFrom(Resend(s.q, s.heads, 0, []), 0, s, now)
  }

  // ---- gatherOutboundFastRetransmissionPackets ----

  function FastFrom(r: Resend, i: nat, s: Sender, now: int): (r': Resend)
    ensures |r'.q| == |r.q|
    decreases |r.q| - i
  {
    if i >= |r.q| then r
    else
      var c := r.q[i];
      if c.acked || Abandoned(r.heads, c) || c.nSent > 1 || c.missIndicator < 3 then FastFrom(r, i + 1, s, now)
      else if s.mtu < r.bytes + DATA_CHUNK_HEADER_SIZE + c.len then r
      else FastFrom(SendAgain(r, i, DATA_CHUNK_HEADER_SIZE + c.len, false, s, now), i + 1, s, now)
  }

  function FastRetransmit(s: Sender, now: int): Resend {
    if s.cc.willRetransmitFast then FastFrom(Resend(s.q, s.heads, COMMON_HEADER_SIZE, []), 0, s, now)
    else Resend(s.q, s.heads, COMMON_HEADER_SIZE, [])
  }

  /** The sender after a T3 retransmission round, and after a fast one. */
  function Resent(s: Sender, r: Resend): Sender { s.(q := r.q, heads := r.heads) }
  function FastResent(s: Sender, r: Resend): Sender {
    Resent(s, r).(cc := s.cc.(willRetransmitFast := false))
  }

  // ---- onRetransmissionTimeout (T3-rtx) ----

  function MarkAll(q: seq<Chunk>, heads: Heads): (r: seq<Chunk>)
    ensures |r| == |q|
  {
    seq(|q|, i requires 0 <= i < |q| =>
      if q[i].acked || Abandoned(heads, q[i]) then q[i] else q[i].(retransmit := true))
  }

  function OnT3(s: Sender): Sender
    requires |s.q| <= FLIGHT_LIMIT
  {
    var adv := if s.useForwardTSN then AdvanceOver(s.cum, s.q, s.heads, s.adv) else s.adv;
    s.(cc := s.cc.(ssthresh := Cut(s.cc.cwnd, s.mtu), cwnd := s.mtu),
       adv := adv,
       willSendForwardTSN := s.willSendForwardTSN || (s.useForwardTSN && Sna32GT(adv, s.cum)),
       q := MarkAll(s.q, s.heads))
  }

  // ---- createForwardTSN ----

  function SkipOne(m: map<u16, u16>, c: Chunk): map<u16, u16> {
    if c.streamIdentifier !in m || Sna16LT(m[c.streamIdentifier], c.streamSequenceNumber)
    then m[c.streamIdentifier := c.streamSequenceNumber] else m
  }

  function SkipFrom(m: map<u16, u16>, q: seq<Chunk>): map<u16, u16>
    decreases |q|
  {
    if q == [] then m else SkipFrom(SkipOne(m, q[0]), q[1..])
  }

  datatype ForwardTSN = ForwardTSN(newCumulativeTSN: u32, streams: map<u16, u16>)

  function CreateForwardTSN(s: Sender): ForwardTSN
    requires Dist(s.cum, s.adv) <= |s.q|
  {
    ForwardTSN(s.adv, SkipFrom(map[], s.q[..Dist(s.cum, s.adv)]))
  }

  // ---- bundleDataChunksIntoPackets ----

  datatype Bundle = Bundle(packets: seq<seq<Chunk>>, chunksToSend: seq<Chunk>, bytesInPacket: nat)

  function BundleOne(b: Bundle, c: Chunk, mtu: u32): Bundle {
    var b' := if b.bytesInPacket + c.len > mtu then Bundle(b.packets + [b.chunksToSend], [], COMMON_HEADER_SIZE) else b;
    Bundle(b'.packets, b'.chunksToSend + [c], b'.bytesInPacket + DATA_CHUNK_HEADER_SIZE + c.len)
  }

  function BundleAll(b: Bundle, cs: seq<Chunk>, mtu: u32): Bundle
    decreases |cs|
  {
    if cs == [] then b else BundleAll(BundleOne(b, cs[0], mtu), cs[1..], mtu)
  }

  function Packets(cs: seq<Chunk>, mtu: u32): seq<seq<Chunk>> {
    var b := BundleAll(Bundle([], [], COMMON_HEADER_SIZE), cs, mtu);
    if b.chunksToSend != [] then b.packets + [b.chunksToSend] else b.packets
  }
}
