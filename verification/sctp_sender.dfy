/** The data-sending half of an established SCTP association, as functions on values. */
module SctpSender {
  // The in-flight queue is a sequence: position `i` holds the chunk whose TSN is `cum + 1 + i`. That the
  // map-based queue of the source always has this form is what the class in SctpOutbound establishes.

  import opened Serial
  import opened Wrappers
  import opened SctpChunks

  const COMMON_HEADER_SIZE := 12
  const DATA_CHUNK_HEADER_SIZE := 16
  /** Most chunks that may be in flight at once for serial comparisons to be meaningful. */
  const FLIGHT_LIMIT := 0x7FFF_FFFE

  datatype Congestion = Congestion(cwnd: u32, ssthresh: u32, partialBytesAcked: u32,
                                   inFastRecovery: bool, fastRecoverExitPoint: u32, willRetransmitFast: bool)

  datatype Sender = Sender(
    cum: u32, q: seq<Chunk>, nBytes: int, heads: Heads, pending: Pending, adv: u32, cc: Congestion, rwnd: u32,
    willSendForwardTSN: bool, t3Running: bool,
    useForwardTSN: bool, mtu: u32, streams: map<u16, Reliability>)

  function NextTSN(s: Sender): u32
    requires |s.q| <= FLIGHT_LIMIT
  {
    Plus(s.cum, |s.q| + 1)
  }

  function Max(a: int, b: int): int { if a > b then a else b }
  function Min(a: int, b: int): int { if a < b then a else b }

  // ---- Invariant ----

  /** Acknowledged chunks hold no data and are never due for retransmission. */
  predicate ChunkOk(c: Chunk) {
    && (if c.acked then c.len == 0 && !c.retransmit else c.len > 0)
    && c.missIndicator <= 3 && c.nSent >= 1
  }

  predicate Consecutive(cum: u32, q: seq<Chunk>) {
    && |q| <= FLIGHT_LIMIT
    && (forall i :: 0 <= i < |q| ==> q[i].tsn == Plus(cum, i + 1))
  }

  predicate ChunksOk(q: seq<Chunk>) {
    forall i :: 0 <= i < |q| ==> ChunkOk(q[i])
  }

  /** While fast recovery lasts, its exit point is in flight, above the ack point. */
  predicate RecoveryOk(cum: u32, n: nat, inFastRecovery: bool, exit: u32) {
    inFastRecovery ==> 1 <= Dist(cum, exit) <= n
  }

  /** Everything above the ack point up to the advanced peer ack point is in flight and abandoned. */
  predicate AdvancedOk(cum: u32, q: seq<Chunk>, heads: Heads, adv: u32) {
    && Dist(cum, adv) <= |q|
    && forall i :: 0 <= i < Dist(cum, adv) ==> Abandoned(heads, q[i])
  }

  predicate FlightInv(s: Sender) {
    && Consecutive(s.cum, s.q) && ChunksOk(s.q)
    && s.nBytes == Bytes(s.q, None)
    && RecoveryOk(s.cum, |s.q|, s.cc.inFastRecovery, s.cc.fastRecoverExitPoint)
    && (s.useForwardTSN ==> AdvancedOk(s.cum, s.q, s.heads, s.adv))
    && PendingWF(s.pending)
  }

  predicate Inv(s: Sender) {
    FlightInv(s) && (s.q != [] ==> s.t3Running)
  }

  // ---- processSelectiveAck: cumulative part ----

  datatype Acking = Acking(cum: u32, q: seq<Chunk>, nBytes: int, credit: Credit, inFastRecovery: bool, t3Running: bool)

  /** Pops the oldest chunk; `start` is the ack point before the SACK, `exit` the recovery exit point. */
  function PopOne(a: Acking, start: u32, exit: u32): Acking
    requires a.q != []
  {
    var c := a.q[0];
    Acking(Plus(a.cum, 1), a.q[1..], a.nBytes - c.len,
           if c.acked then a.credit else AddCredit(a.credit, c.streamIdentifier, c.len),
           a.inFastRecovery && c.tsn != exit,
           a.t3Running && (c.acked || a.cum != start))
  }

  function PopAcked(a: Acking, n: nat, start: u32, exit: u32): (r: Acking)
    requires n <= |a.q|
    ensures r.q == a.q[n..]
    decreases n
  {
    if n == 0 then a else PopAcked(PopOne(a, start, exit), n - 1, start, exit)
  }

  // ---- processSelectiveAck: gap blocks ----

  datatype Gap = Gap(start: u16, end: u16)
  datatype Sack = Sack(cum: u32, rwnd: u32, gaps: seq<Gap>)

  datatype Marks = Marks(q: seq<Chunk>, nBytes: int, credit: Credit, htna: u32)

  function MarkOne(m: Marks, k: nat): (r: Marks)
    requires k < |m.q|
    ensures |r.q| == |m.q|
  {
    var c := m.q[k];
    if c.acked then m
    else Marks(m.q[k := c.(acked := true, retransmit := false, len := 0)], m.nBytes - c.len,
               AddCredit(m.credit, c.streamIdentifier, c.len),
               if Sna32LT(m.htna, c.tsn) then c.tsn else m.htna)
  }

  /** Marks the chunks at offsets `i..end` (counted from the ack point). */
  function MarkUpTo(m: Marks, i: nat, end: nat): (r: Marks)
    requires 1 <= i && end <= |m.q|
    ensures |r.q| == |m.q|
    decreases end + 1 - i
  {
    if i > end then m else MarkUpTo(MarkOne(m, i - 1), i + 1, end)
  }

  /** A gap block that the queue of `n` chunks can honour. An end of 65535 never fits: the 16-bit loop
      counter wraps to offset 0, which is not in the queue. */
  predicate GapFits(g: Gap, n: nat) {
    g.start <= g.end ==> 1 <= g.start && g.end <= n && g.end < 0xFFFF
  }

  predicate GapsFit(gaps: seq<Gap>, n: nat) {
    forall i :: 0 <= i < |gaps| ==> GapFits(gaps[i], n)
  }

  function MarkGap(m: Marks, g: Gap): (r: Marks)
    requires GapFits(g, |m.q|)
    ensures |r.q| == |m.q|
  {
    if g.start <= g.end then MarkUpTo(m, g.start, g.end) else m
  }

  function MarkGaps(m: Marks, gaps: seq<Gap>): (r: Marks)
    requires GapsFit(gaps, |m.q|)
    ensures |r.q| == |m.q|
    decreases |gaps|
  {
    if gaps == [] then m else MarkGaps(MarkGap(m, gaps[0]), gaps[1..])
  }

  // ---- onCumulativeTSNAckPointAdvanced ----

  function Grow(cc: Congestion, mtu: u32, pendingSize: nat, totalBytesAcked: nat): Congestion {
    if cc.cwnd <= cc.ssthresh then
      if !cc.inFastRecovery && pendingSize > 0
      then cc.(cwnd := U32(cc.cwnd + Min(U32(totalBytesAcked), cc.cwnd)))
      else cc
    else
      var p := U32(cc.partialBytesAcked + totalBytesAcked);
      if p >= cc.cwnd && pendingSize > 0
      then cc.(partialBytesAcked := p - cc.cwnd, cwnd := U32(cc.cwnd + mtu))
      else cc.(partialBytesAcked := p)
  }

  // ---- processFastRetransmission ----

  datatype Missing = Missing(q: seq<Chunk>, cc: Congestion)

  function Cut(cwnd: u32, mtu: u32): u32 { U32(Max(cwnd / 2, U32(4 * mtu))) }

  function MissOne(m: Missing, k: nat, heads: Heads, htna: u32, mtu: u32): (r: Missing)
    requires k < |m.q|
    ensures |r.q| == |m.q|
  {
    var c := m.q[k];
    if c.acked || Abandoned(heads, c) || c.missIndicator >= 3 then m
    else
      var q := m.q[k := c.(missIndicator := c.missIndicator + 1)];
      if c.missIndicator + 1 == 3 && !m.cc.inFastRecovery then
        var cut := Cut(m.cc.cwnd, mtu);
        Missing(q, Congestion(cut, cut, 0, true, htna, true))
      else Missing(q, m.cc)
  }

  function MissRange(m: Missing, k: nat, n: nat, heads: Heads, htna: u32, mtu: u32): (r: Missing)
    requires n <= |m.q|
    ensures |r.q| == |m.q|
    decreases n - k
  {
    if k >= n then m else MissRange(MissOne(m, k, heads, htna, mtu), k + 1, n, heads, htna, mtu)
  }

  /** How many chunks above the ack point the SACK reports missing. */
  function MissCount(cum: u32, m: Missing, htna: u32): nat {
    if m.cc.inFastRecovery then |m.q| else Max(Dist(cum, htna) - 1, 0)
  }

  function FastRetransmission(m: Missing, cum: u32, heads: Heads, htna: u32, advanced: bool, mtu: u32): (r: Missing)
    requires Dist(cum, htna) <= |m.q|
    ensures |r.q| == |m.q|
  {
    var m' := if !m.cc.inFastRecovery || advanced
              then MissRange(m, 0, MissCount(cum, m, htna), heads, htna, mtu) else m;
    if m'.cc.inFastRecovery && advanced then Missing(m'.q, m'.cc.(willRetransmitFast := true)) else m'
  }

  // ---- Advanced peer ack point ----

  /** The furthest point reachable from `adv` over abandoned chunks in flight. */
  function AdvanceOver(cum: u32, q: seq<Chunk>, heads: Heads, adv: u32): u32
    requires |q| <= FLIGHT_LIMIT
    decreases |q| - Dist(cum, adv)
  {
    var k := Dist(cum, adv);
    if k < |q| && Abandoned(heads, q[k]) then AdvanceOver(cum, q, heads, Plus(adv, 1)) else adv
  }

  // ---- handleSack ----

  /** The SACKs that are processed without a missing-TSN error. */
  predicate Acceptable(s: Sender, d: Sack) {
    !Sna32GT(s.cum, d.cum) ==>
      Dist(s.cum, d.cum) <= |s.q| && GapsFit(d.gaps, |s.q| - Dist(s.cum, d.cum))
  }

  function Popped(s: Sender, d: Sack): (a: Acking)
    requires Dist(s.cum, d.cum) <= |s.q|
    ensures a.q == s.q[Dist(s.cum, d.cum)..]
  {
    PopAcked(Acking(s.cum, s.q, s.nBytes, map[], s.cc.inFastRecovery, s.t3Running), Dist(s.cum, d.cum),
             s.cum, s.cc.fastRecoverExitPoint)
  }

  function Marked(s: Sender, d: Sack): (m: Marks)
    requires Consecutive(s.cum, s.q) && !Sna32GT(s.cum, d.cum) && Acceptable(s, d)
    ensures |m.q| == |s.q| - Dist(s.cum, d.cum)
    ensures Consecutive(d.cum, m.q) && Dist(d.cum, m.htna) <= |m.q|
  {
    var a := Popped(s, d);
    SuffixConsecutive(s.cum, s.q, d.cum);
    var m0 := Marks(a.q, a.nBytes, a.credit, d.cum);
    MarksShape(m0, d.gaps, d.cum);
    MarkGaps(m0, d.gaps)
  }

  lemma SuffixConsecutive(cum: u32, q: seq<Chunk>, cum': u32)
    requires Consecutive(cum, q) && Dist(cum, cum') <= |q|
    ensures Consecutive(cum', q[Dist(cum, cum')..])
  {}

  function NewRwnd(nBytes: int, advertised: u32): u32 {
    if U32(nBytes) >= advertised then 0 else advertised - U32(nBytes)
  }

  /** Queue and congestion state once the SACK's acknowledgements and losses are accounted for. */
  function Reacted(s: Sender, d: Sack): (f: Missing)
    requires Consecutive(s.cum, s.q) && !Sna32GT(s.cum, d.cum) && Acceptable(s, d)
    ensures |f.q| == |s.q| - Dist(s.cum, d.cum)
  {
    var m := Marked(s, d);
    FastRetransmission(Missing(m.q, Grown(s, d)), d.cum, s.heads, m.htna, s.cum != d.cum, s.mtu)
  }

  function Grown(s: Sender, d: Sack): Congestion
    requires Consecutive(s.cum, s.q) && !Sna32GT(s.cum, d.cum) && Acceptable(s, d)
  {
    var cc := s.cc.(inFastRecovery := Popped(s, d).inFastRecovery);
    if s.cum != d.cum then Grow(cc, s.mtu, PendingSize(s.pending), CreditOf(Marked(s, d).credit, None)) else cc
  }

  datatype SackResult = SackResult(s: Sender, credit: Credit)

  function HandleSack(s: Sender, d: Sack): (r: SackResult)
    requires Consecutive(s.cum, s.q) && Acceptable(s, d)
  {
    if Sna32GT(s.cum, d.cum) then SackResult(s, map[])
    else
      var m, f := Marked(s, d), Reacted(s, d);
      var adv := if !s.useForwardTSN then s.adv
                 else AdvanceOver(d.cum, f.q, s.heads, if Sna32LT(s.adv, d.cum) then d.cum else s.adv);
      SackResult(
        s.(cum := d.cum, q := f.q, nBytes := m.nBytes, adv := adv, cc := f.cc,
           rwnd := NewRwnd(m.nBytes, d.rwnd),
           willSendForwardTSN := s.willSendForwardTSN || (s.useForwardTSN && Sna32GT(adv, d.cum)),
           t3Running := if s.cum != d.cum then f.q != [] else Popped(s, d).t3Running),
        m.credit)
  }

  /** Marking changes nothing but acknowledgements, and the highest newly acknowledged TSN is either the
      cumulative ack or a TSN in the queue. */
  lemma {:induction false} MarksShape(m: Marks, gaps: seq<Gap>, cum: u32)
    requires GapsFit(gaps, |m.q|) && Consecutive(cum, m.q) && Dist(cum, m.htna) <= |m.q|
    ensures var r := MarkGaps(m, gaps); Consecutive(cum, r.q) && Dist(cum, r.htna) <= |m.q|
    decreases |gaps|
  {
    if gaps != [] {
      if gaps[0].start <= gaps[0].end { RangeShape(m, gaps[0].start, gaps[0].end, cum); }
      MarksShape(MarkGap(m, gaps[0]), gaps[1..], cum);
    }
  }

  lemma {:induction false} RangeShape(m: Marks, i: nat, end: nat, cum: u32)
    requires 1 <= i && end <= |m.q| && Consecutive(cum, m.q) && Dist(cum, m.htna) <= |m.q|
    ensures var r := MarkUpTo(m, i, end); Consecutive(cum, r.q) && Dist(cum, r.htna) <= |m.q|
    decreases end + 1 - i
  {
    if i <= end {
      DistPlus(cum, i);
      RangeShape(MarkOne(m, i - 1), i + 1, end, cum);
    }
  }
}
