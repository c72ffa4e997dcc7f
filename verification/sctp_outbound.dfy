/** The sending half of the Association object, its fields updated in place. */
module SctpOutbound {
  // The in-flight queue is a map from TSN to chunk; each method is proved to do what the functions of
  // SctpSender and SctpTransmit say. The ghost field `q` lists the queue in TSN order.

  import opened Serial
  import opened Wrappers
  import opened SctpChunks
  import S = SctpSender
  import T = SctpTransmit
  import opened SctpSackResponse
  import B = SctpBatches
  import opened SctpPayloadQueue
  import opened SctpFlight

  /** Sum of a per-stream map, in whatever order its keys come. */
  method TotalBytes(m: Credit) returns (total: nat)
    ensures total == CreditOf(m, None)
  {
    total := 0;
    var rest := m;
    while rest.Keys != {}
      invariant total + TotalBelow(rest, 0x1_0000) == CreditOf(m, None)
      decreases |rest|
    {
      var si :| si in rest.Keys;
      TotalOfRemoval(rest, si, 0x1_0000);
      total := total + rest[si];
      rest := rest - {si};
    }
    assert rest == map[];
    TotalOfEmpty(0x1_0000);
  }

  class Outbound {
    var cumulativeTSNAckPoint: u32
    var advancedPeerTSNAckPoint: u32
    var myNextTSN: u32
    const inflightQueue: PayloadQueue
    ghost var q: seq<Chunk>
    var pendingQueue: Pending
    var heads: Heads
    var cc: S.Congestion
    var rwnd: u32
    var willSendForwardTSN: bool
    var t3Running: bool
    const useForwardTSN: bool
    const mtu: u32
    const streams: map<u16, Reliability>

    ghost function State(): S.Sender
      reads this, inflightQueue
    {
      S.Sender(cumulativeTSNAckPoint, q, inflightQueue.nBytes, heads, pendingQueue, advancedPeerTSNAckPoint, cc, rwnd,
               willSendForwardTSN, t3Running, useForwardTSN, mtu, streams)
    }

    /** The in-flight map is the contiguous range above `cum`, listed by `q`. */
    ghost predicate Queue(cum: u32)
      reads this`q, inflightQueue
    {
      inflightQueue.Valid() && Holds(inflightQueue.chunkMap, cum, q)
    }

    ghost predicate Valid()
      reads this, inflightQueue
    {
      && Queue(cumulativeTSNAckPoint) && S.Consecutive(cumulativeTSNAckPoint, q)
      && myNextTSN == Plus(cumulativeTSNAckPoint, |q| + 1)
    }

    constructor (tsn: u32, peerRwnd: u32, useForwardTSN: bool, mtu: u32, streams: map<u16, Reliability>)
      ensures Valid() && fresh(inflightQueue) && S.Inv(State()) && q == []
      ensures myNextTSN == tsn && advancedPeerTSNAckPoint == cumulativeTSNAckPoint && rwnd == cc.ssthresh == peerRwnd
      ensures PendingSize(pendingQueue) == 0 && !willSendForwardTSN && !cc.willRetransmitFast
      ensures this.useForwardTSN == useForwardTSN && this.mtu == mtu && this.streams == streams
    {
      cumulativeTSNAckPoint, advancedPeerTSNAckPoint, myNextTSN := Plus(tsn, 0xFFFF_FFFF), Plus(tsn, 0xFFFF_FFFF), tsn;
      inflightQueue := new PayloadQueue();
      q, pendingQueue, heads := [], Pending([], [], false, false), map[];
      cc := S.Congestion(S.Min(U32(4 * mtu), S.Max(U32(2 * mtu), 4380)), peerRwnd, 0, false, 0, false);
      rwnd := peerRwnd;
      willSendForwardTSN, t3Running := false, false;
      this.useForwardTSN, this.mtu, this.streams := useForwardTSN, mtu, streams;
    }

    /** Writes the chunk at position `i`. */
    method SetAt(ghost i: nat, tsn: u32, c: Chunk, ghost cum: u32)
      requires Queue(cum) && i < |q| && tsn == Plus(cum, i + 1) && c.len == q[i].len
      modifies this`q, inflightQueue`chunkMap
      ensures Queue(cum) && q == old(q)[i := c]
    {
      HoldsNth(inflightQueue.chunkMap, cum, q, i, tsn);
      HoldsPut(inflightQueue.chunkMap, cum, q, i, tsn, c);
      inflightQueue.Set(tsn, c);
      q := q[i := c];
    }

    // ---- processSelectiveAck ----

    ghost function Acking(cum: u32, credit: Credit): S.Acking
      reads this`q, this`cc, this`t3Running, inflightQueue`nBytes
    {
      S.Acking(cum, q, inflightQueue.nBytes, credit, cc.inFastRecovery, t3Running)
    }

    /** Takes the chunk after `base` out of the queue. */
    method PopHead(i: u32, ghost base: u32) returns (c: Option<Chunk>)
      requires Queue(base) && i == Plus(base, 1)
      modifies this`q, inflightQueue
      ensures c.Some? <==> old(q) != []
      ensures c.Some? ==> Queue(i) && c.value == old(q)[0] && q == old(q)[1..]
                          && inflightQueue.nBytes == old(inflightQueue.nBytes) - c.value.len
    {
      HoldsWindow(inflightQueue.chunkMap, base, q);
      c := inflightQueue.Pop(i, base);
      if c.Some? {
        HoldsTail(old(inflightQueue.chunkMap), base, q);
        q := q[1..];
      }
    }

    /** Pops the chunk after `base`, the last one popped. */
    method PopNext(i: u32, credit: Credit, ghost base: u32) returns (ok: bool, credit': Credit)
      requires Queue(base) && i == Plus(base, 1)
      modifies this`q, this`cc, this`t3Running, inflightQueue
      ensures ok <==> old(q) != []
      ensures ok ==> Queue(i) && cc == old(cc).(inFastRecovery := cc.inFastRecovery)
      ensures ok ==> Acking(i, credit')
                     == S.PopOne(old(Acking(base, credit)), cumulativeTSNAckPoint, old(cc.fastRecoverExitPoint))
    {
      credit' := credit;
      var c := PopHead(i, base);
      ok := c.Some?;
      if ok {
        SameNext(base, cumulativeTSNAckPoint);
        t3Running := t3Running && (c.value.acked || i != Plus(cumulativeTSNAckPoint, 1));
        credit' := if c.value.acked then credit else AddCredit(credit, c.value.streamIdentifier, c.value.len);
        cc := cc.(inFastRecovery := cc.inFastRecovery && c.value.tsn != cc.fastRecoverExitPoint);
      }
    }

    /** Pops the chunks the SACK acknowledges cumulatively. The ack point itself moves later. */
    method PopAcked(d: S.Sack) returns (ok: bool, credit: Credit)
      requires Queue(cumulativeTSNAckPoint) && !Sna32GT(cumulativeTSNAckPoint, d.cum)
      modifies this`q, this`cc, this`t3Running, inflightQueue
      ensures ok <==> Dist(cumulativeTSNAckPoint, d.cum) <= |old(q)|
      ensures ok ==> Queue(d.cum) && cc == old(cc).(inFastRecovery := cc.inFastRecovery)
      ensures ok ==> Acking(d.cum, credit) == S.Popped(old(State()), d)
    {
      ok, credit := true, map[];
      ghost var base := cumulativeTSNAckPoint;
      ghost var exit := cc.fastRecoverExitPoint;
      ghost var goal := PopTo(Acking(base, map[]), d.cum, cumulativeTSNAckPoint, exit);
      PopToIsPopAcked(Acking(base, map[]), d.cum, cumulativeTSNAckPoint, exit);
      var i := Plus(cumulativeTSNAckPoint, 1);
      CounterRuns(base, d.cum);
      while Sna32LTE(i, d.cum)
        invariant ok && i == Plus(base, 1) && (Sna32LTE(i, d.cum) <==> base != d.cum)
        invariant Dist(base, d.cum) < 0x8000_0000 && Queue(base)
        invariant cc == old(cc).(inFastRecovery := cc.inFastRecovery)
        invariant PopTo(Acking(base, credit), d.cum, cumulativeTSNAckPoint, exit) == goal
        decreases Dist(base, d.cum)
      {
        CounterRuns(base, d.cum);
        ok, credit := PopNext(i, credit, base);
        if !ok { return; }
        base := i;
        CounterRuns(base, d.cum);
        i := Plus(i, 1);
      }
    }

    ghost function Marks(credit: Credit, htna: u32): S.Marks
      reads this`q, inflightQueue`nBytes
    {
      S.Marks(q, inflightQueue.nBytes, credit, htna)
    }

    method MarkAt(i: u16, tsn: u32, ghost cum: u32) returns (nBytesAcked: nat)
      requires Queue(cum) && S.Consecutive(cum, q) && 1 <= i <= |q| && tsn == Plus(cum, i)
      modifies this`q, inflightQueue
      ensures Queue(cum) && S.Consecutive(cum, q) && nBytesAcked == old(q[i - 1]).len
      ensures q == old(q)[i - 1 := old(q[i - 1]).(acked := true, retransmit := false, len := 0)]
      ensures inflightQueue.nBytes == old(inflightQueue.nBytes) - nBytesAcked
    {
      ghost var c := q[i - 1].(acked := true, retransmit := false, len := 0);
      HoldsNth(inflightQueue.chunkMap, cum, q, i - 1, tsn);
      HoldsPut(inflightQueue.chunkMap, cum, q, i - 1, tsn, c);
      ConsecutiveUpdate(cum, q, i - 1, c);
      nBytesAcked := inflightQueue.MarkAsAcked(tsn);
      q := q[i - 1 := c];
    }

    method MarkNext(i: u16, cum: u32, credit: Credit, htna: u32) returns (ok: bool, credit': Credit, htna': u32)
      requires Queue(cum) && S.Consecutive(cum, q)
      modifies this`q, inflightQueue
      ensures ok <==> 1 <= i <= |old(q)|
      ensures ok ==> Queue(cum) && S.Consecutive(cum, q)
      ensures ok ==> Marks(credit', htna') == S.MarkOne(old(Marks(credit, htna)), i - 1)
    {
      var tsn := Plus(cum, i);
      credit', htna' := credit, htna;
      HoldsOffset(inflightQueue.chunkMap, cum, q, i, tsn);
      ok := tsn in inflightQueue.chunkMap;
      if ok && !inflightQueue.chunkMap[tsn].acked {
        var c := inflightQueue.chunkMap[tsn];
        var nBytesAcked := MarkAt(i, tsn, cum);
        credit' := AddCredit(credit, c.streamIdentifier, nBytesAcked);
        if Sna32LT(htna, tsn) { htna' := tsn; }
      }
    }

    /** One gap block. The 16-bit counter wraps past an end of 65535 and then asks for the ack point itself. */
    method MarkGap(g: S.Gap, cum: u32, credit0: Credit, htna0: u32) returns (ok: bool, credit: Credit, htna: u32)
      requires Queue(cum) && S.Consecutive(cum, q)
      modifies this`q, inflightQueue
      ensures ok <==> S.GapFits(g, |old(q)|)
      ensures ok ==> Queue(cum) && S.Consecutive(cum, q)
      ensures ok ==> Marks(credit, htna) == S.MarkGap(old(Marks(credit0, htna0)), g)
    {
      ok, credit, htna := true, credit0, htna0;
      ghost var m0 := Marks(credit0, htna0);
      var i: u16 := g.start;
      while i <= g.end
        invariant ok && Queue(cum) && S.Consecutive(cum, q) && |q| == |m0.q|
        invariant i == g.start ==> Marks(credit, htna) == m0
        invariant i == 0 ==> g.start == 0 || g.end == 0xFFFF
        invariant i != 0 ==> 1 <= g.start <= i && (i > g.start ==> i - 1 <= |q| && i - 1 <= g.end)
        invariant i != 0 && g.end <= |q| ==> S.MarkUpTo(Marks(credit, htna), i, g.end) == S.MarkUpTo(m0, g.start, g.end)
        decreases if i == 0 then 0 else 0x1_0000 - i
      {
        ok, credit, htna := MarkNext(i, cum, credit, htna);
        if !ok { return; }
        i := if i == 0xFFFF then 0 else i + 1;
      }
    }

    method MarkGaps(d: S.Sack, credit0: Credit) returns (ok: bool, credit: Credit, htna: u32)
      requires Queue(d.cum) && S.Consecutive(d.cum, q)
      modifies this`q, inflightQueue
      ensures ok <==> S.GapsFit(d.gaps, |old(q)|)
      ensures ok ==> Queue(d.cum) && S.Consecutive(d.cum, q)
      ensures ok ==> Marks(credit, htna) == S.MarkGaps(old(Marks(credit0, d.cum)), d.gaps)
    {
      ok, credit, htna := true, credit0, d.cum;
      ghost var m0 := Marks(credit, htna);
      var j := 0;
      while j < |d.gaps|
        invariant ok && 0 <= j <= |d.gaps| && |q| == |m0.q| && S.GapsFit(d.gaps[..j], |q|)
        invariant Queue(d.cum) && S.Consecutive(d.cum, q)
        invariant S.GapsFit(d.gaps, |q|) ==> S.MarkGaps(Marks(credit, htna), d.gaps[j..]) == S.MarkGaps(m0, d.gaps)
      {
        ok, credit, htna := MarkGap(d.gaps[j], d.cum, credit, htna);
        if !ok { return; }
        assert d.gaps[j..][0] == d.gaps[j] && d.gaps[j..][1..] == d.gaps[j + 1..];
        j := j + 1;
      }
      assert d.gaps[..j] == d.gaps;
    }

    /** A missing TSN is reported exactly for the SACKs that are not acceptable. */
    method ProcessSelectiveAck(d: S.Sack) returns (ok: bool, credit: Credit, htna: u32)
      requires Queue(cumulativeTSNAckPoint) && S.Consecutive(cumulativeTSNAckPoint, q)
      requires !Sna32GT(cumulativeTSNAckPoint, d.cum)
      modifies this`q, this`cc, this`t3Running, inflightQueue
      ensures ok <==> S.Acceptable(old(State()), d)
      ensures ok ==> Queue(d.cum) && S.Consecutive(d.cum, q) && Marks(credit, htna) == S.Marked(old(State()), d)
      ensures ok ==> t3Running == S.Popped(old(State()), d).t3Running
                     && cc == old(cc).(inFastRecovery := S.Popped(old(State()), d).inFastRecovery)
    {
      ghost var s := State();
      htna := d.cum;
      ok, credit := PopAcked(d);
      if ok {
        S.SuffixConsecutive(s.cum, s.q, d.cum);
        ok, credit, htna := MarkGaps(d, credit);
      }
    }

    // ---- onCumulativeTSNAckPointAdvanced ----

    /** Slow start or congestion avoidance. */
    method UpdateWindow(totalBytesAcked: nat)
      modifies this`cc
      ensures cc == S.Grow(old(cc), mtu, PendingSize(pendingQueue), totalBytesAcked)
    {
      if cc.cwnd <= cc.ssthresh {
        if !cc.inFastRecovery && PendingSize(pendingQueue) > 0 {
          cc := cc.(cwnd := U32(cc.cwnd + S.Min(U32(totalBytesAcked), cc.cwnd)));
        }
      } else {
        cc := cc.(partialBytesAcked := U32(cc.partialBytesAcked + totalBytesAcked));
        if cc.partialBytesAcked >= cc.cwnd && PendingSize(pendingQueue) > 0 {
          cc := cc.(partialBytesAcked := cc.partialBytesAcked - cc.cwnd);
          cc := cc.(cwnd := U32(cc.cwnd + mtu));
        }
      }
    }

    method OnCumulativeTSNAckPointAdvanced(totalBytesAcked: nat)
      requires Queue(cumulativeTSNAckPoint)
      modifies this`t3Running, this`cc
      ensures t3Running == (q != []) && cc == S.Grow(old(cc), mtu, PendingSize(pendingQueue), totalBytesAcked)
      ensures NoWrap(old(cc), mtu, totalBytesAcked) ==>
                Grows(old(cc), old(cc).inFastRecovery, mtu, PendingSize(pendingQueue) > 0, totalBytesAcked, cc.cwnd,
                      cc.partialBytesAcked)
    {
      HoldsSize(inflightQueue.chunkMap, cumulativeTSNAckPoint, q);
      t3Running := |inflightQueue.chunkMap| != 0;
      if NoWrap(cc, mtu, totalBytesAcked) { GrowMeaning(cc, mtu, PendingSize(pendingQueue), totalBytesAcked); }
      UpdateWindow(totalBytesAcked);
    }

    // ---- processFastRetransmission ----

    method MissNext(tsn: u32, cum: u32, htna: u32) returns (ok: bool)
      requires Queue(cum)
      modifies this`q, this`cc, inflightQueue`chunkMap
      ensures ok <==> 1 <= Dist(cum, tsn) <= |old(q)|
      ensures Queue(cum)
      ensures ok ==> S.Missing(q, cc) == S.MissOne(old(S.Missing(q, cc)), Dist(cum, tsn) - 1, heads, htna, mtu)
    {
      ok := tsn in inflightQueue.chunkMap;
      if !ok { return; }
      var c := inflightQueue.chunkMap[tsn];
      if !c.acked && !Abandoned(heads, c) && c.missIndicator < 3 {
        var c' := c.(missIndicator := c.missIndicator + 1);
        SetAt(Dist(cum, tsn) - 1, tsn, c', cum);
        if c'.missIndicator == 3 && !cc.inFastRecovery {
          var cut := S.Cut(cc.cwnd, mtu);
          cc := S.Congestion(cut, cut, 0, true, htna, true);
        }
      }
    }

    method CountMisses(cum: u32, maxTSN: u32, htna: u32) returns (ok: bool)
      requires Queue(cum)
      modifies this`q, this`cc, inflightQueue`chunkMap
      ensures Queue(cum)
      ensures var r := MissTo(old(S.Missing(q, cc)), Plus(cum, 1), maxTSN, cum, heads, htna, mtu);
              (ok <==> r.Some?) && (ok ==> S.Missing(q, cc) == r.value)
    {
      ok := true;
      ghost var goal := MissTo(S.Missing(q, cc), Plus(cum, 1), maxTSN, cum, heads, htna, mtu);
      var tsn := Plus(cum, 1);
      while Sna32LT(tsn, maxTSN)
        invariant ok && Queue(cum) && MissTo(S.Missing(q, cc), tsn, maxTSN, cum, heads, htna, mtu) == goal
        decreases Dist(tsn, maxTSN)
      {
        ok := MissNext(tsn, cum, htna);
        if !ok { return; }
        tsn := Plus(tsn, 1);
      }
    }

    /** Never meets a missing TSN. */
    method ProcessFastRetransmission(cum: u32, htna: u32, advanced: bool) returns (ok: bool)
      requires Queue(cum) && Dist(cum, htna) <= |q| <= S.FLIGHT_LIMIT
      modifies this`q, this`cc, inflightQueue`chunkMap
      ensures ok && Queue(cum)
      ensures S.Missing(q, cc) == S.FastRetransmission(old(S.Missing(q, cc)), cum, heads, htna, advanced, mtu)
      ensures |q| == |old(q)| && forall k :: 0 <= k < |q| ==>
                q[k] == MissedWhen(heads, old(q)[k], Reported(old(cc).inFastRecovery, advanced, Dist(cum, htna), k))
      ensures cc.inFastRecovery == (old(cc).inFastRecovery
                                    || AnyThirdMiss(old(q), heads, old(cc).inFastRecovery, advanced, Dist(cum, htna)))
    {
      ok := true;
      ghost var m := S.Missing(q, cc);
      if !cc.inFastRecovery || (cc.inFastRecovery && advanced) {
        HoldsSize(inflightQueue.chunkMap, cum, q);
        var maxTSN := if !cc.inFastRecovery then htna else Plus(cum, |inflightQueue.chunkMap| + 1);
        MissToIsMissRange(m, 0, maxTSN, cum, heads, htna, mtu);
        assert S.MissCount(cum, m, htna) == S.Max(Dist(cum, maxTSN) - 1, 0);
        ok := CountMisses(cum, maxTSN, htna);
        if !ok { return; }
      }
      if cc.inFastRecovery && advanced { cc := cc.(willRetransmitFast := true); }
      FastRetransmissionExact(m, cum, heads, htna, advanced, mtu);
    }

    // ---- Advanced peer ack point ----

    method AdvancePeerAckPoint()
      requires Queue(cumulativeTSNAckPoint) && |q| <= S.FLIGHT_LIMIT
      modifies this`advancedPeerTSNAckPoint, this`willSendForwardTSN
      ensures advancedPeerTSNAckPoint == S.AdvanceOver(cumulativeTSNAckPoint, q, heads, old(advancedPeerTSNAckPoint))
      ensures willSendForwardTSN == (old(willSendForwardTSN) || Sna32GT(advancedPeerTSNAckPoint, cumulativeTSNAckPoint))
    {
      var i := Plus(advancedPeerTSNAckPoint, 1);
      while i in inflightQueue.chunkMap && Abandoned(heads, inflightQueue.chunkMap[i])
        invariant i == Plus(advancedPeerTSNAckPoint, 1) && willSendForwardTSN == old(willSendForwardTSN)
        invariant S.AdvanceOver(cumulativeTSNAckPoint, q, heads, advancedPeerTSNAckPoint)
               == S.AdvanceOver(cumulativeTSNAckPoint, q, heads, old(advancedPeerTSNAckPoint))
        decreases |q| - Dist(cumulativeTSNAckPoint, advancedPeerTSNAckPoint)
      {
        HoldsNext(inflightQueue.chunkMap, cumulativeTSNAckPoint, q, advancedPeerTSNAckPoint);
        advancedPeerTSNAckPoint := i;
        i := Plus(i, 1);
      }
      HoldsNext(inflightQueue.chunkMap, cumulativeTSNAckPoint, q, advancedPeerTSNAckPoint);
      if Sna32GT(advancedPeerTSNAckPoint, cumulativeTSNAckPoint) { willSendForwardTSN := true; }
    }

    // ---- handleSack ----

    /** Everything handleSack does about loss and congestion once the acknowledgements are taken in. */
    method ReactToSack(d: S.Sack, credit: Credit, htna: u32) returns (ok: bool)
      requires Queue(d.cum) && Dist(d.cum, htna) <= |q| <= S.FLIGHT_LIMIT && !Sna32GT(cumulativeTSNAckPoint, d.cum)
      modifies this`cumulativeTSNAckPoint, this`t3Running, this`q, this`cc, this`rwnd, inflightQueue`chunkMap
      ensures ok && Queue(d.cum) && cumulativeTSNAckPoint == d.cum && rwnd == S.NewRwnd(inflightQueue.nBytes, d.rwnd)
      ensures var advanced := old(cumulativeTSNAckPoint) != d.cum;
              var grown := if advanced then S.Grow(old(cc), mtu, PendingSize(pendingQueue), CreditOf(credit, None))
                           else old(cc);
              && S.Missing(q, cc) == S.FastRetransmission(S.Missing(old(q), grown), d.cum, heads, htna, advanced, mtu)
              && t3Running == if advanced then old(q) != [] else old(t3Running)
    {
      var totalBytesAcked := TotalBytes(credit);
      var advanced := Sna32LT(cumulativeTSNAckPoint, d.cum);
      if advanced {
        cumulativeTSNAckPoint := d.cum;
        OnCumulativeTSNAckPointAdvanced(totalBytesAcked);
      }
      var bytesOutstanding := U32(inflightQueue.nBytes);
      if bytesOutstanding >= d.rwnd { rwnd := 0; } else { rwnd := d.rwnd - bytesOutstanding; }
      ok := ProcessFastRetransmission(d.cum, htna, advanced);
    }

    /** handleSack up to the advanced peer ack point. */
    method TakeSack(d: S.Sack) returns (ok: bool, credit: Credit)
      requires Queue(cumulativeTSNAckPoint) && S.Consecutive(cumulativeTSNAckPoint, q)
      requires !Sna32GT(cumulativeTSNAckPoint, d.cum)
      modifies this`cumulativeTSNAckPoint, this`t3Running, this`q, this`cc, this`rwnd, inflightQueue
      ensures ok <==> S.Acceptable(old(State()), d)
      ensures ok ==> Queue(d.cum) && cumulativeTSNAckPoint == d.cum && rwnd == S.NewRwnd(inflightQueue.nBytes, d.rwnd)
      ensures ok ==>
                var s := old(State());
                var m := S.Marked(s, d);
                && inflightQueue.nBytes == m.nBytes && credit == m.credit && S.Missing(q, cc) == S.Reacted(s, d)
                && t3Running == if s.cum != d.cum then m.q != [] else S.Popped(s, d).t3Running
    {
      ghost var s := State();
      var htna;
      ok, credit, htna := ProcessSelectiveAck(d);
      if ok {
        ghost var grown := if s.cum != d.cum then S.Grow(cc, mtu, PendingSize(pendingQueue), CreditOf(credit, None))
                           else cc;
        assert grown == S.Grown(s, d);
        assert S.Reacted(s, d) == S.FastRetransmission(S.Missing(q, grown), d.cum, heads, htna, s.cum != d.cum, mtu);
        ok := ReactToSack(d, credit, htna);
      }
    }

    /** With forward TSN in use, drags the advanced peer ack point along and pushes it on. */
    method ForwardAfterSack()
      requires Queue(cumulativeTSNAckPoint) && |q| <= S.FLIGHT_LIMIT
      modifies this`advancedPeerTSNAckPoint, this`willSendForwardTSN
      ensures State() == Forwarded(old(State()))
    {
      if useForwardTSN {
        if Sna32LT(advancedPeerTSNAckPoint, cumulativeTSNAckPoint) { advancedPeerTSNAckPoint := cumulativeTSNAckPoint; }
        AdvancePeerAckPoint();
      }
    }

    method ProcessSack(d: S.Sack) returns (ok: bool, credit: Credit)
      requires Queue(cumulativeTSNAckPoint) && S.Consecutive(cumulativeTSNAckPoint, q)
      requires !Sna32GT(cumulativeTSNAckPoint, d.cum)
      modifies this`cumulativeTSNAckPoint, this`t3Running, this`q, this`cc, this`rwnd, this`advancedPeerTSNAckPoint,
               this`willSendForwardTSN, inflightQueue
      ensures ok <==> S.Acceptable(old(State()), d)
      ensures ok ==> Queue(cumulativeTSNAckPoint) && S.HandleSack(old(State()), d) == S.SackResult(State(), credit)
    {
      ghost var s := State();
      ok, credit := TakeSack(d);
      if ok {
        ghost var r := State();
        SackAssembles(s, d, r, credit);
        ForwardAfterSack();
      }
    }

    /** Refuses exactly the SACKs that are not acceptable, and otherwise does what HandleSack says. */
    method HandleSack(d: S.Sack) returns (ok: bool, credit: Credit)
      requires Valid()
      modifies this, inflightQueue
      ensures ok <==> S.Acceptable(old(State()), d)
      ensures ok ==> Valid() && S.HandleSack(old(State()), d) == S.SackResult(State(), credit)
    {
      if Sna32GT(cumulativeTSNAckPoint, d.cum) { return true, map[]; }
      ok, credit := ProcessSack(d);
      if ok { SackKeepsNext(old(State()), d); }
    }

    // ---- popPendingDataChunksToSend ----

    /** Puts the chunk with the next TSN in flight. */
    method PutInFlight(c: Chunk)
      requires Queue(cumulativeTSNAckPoint) && S.Consecutive(cumulativeTSNAckPoint, q) && |q| < S.FLIGHT_LIMIT
      requires c.tsn == Plus(cumulativeTSNAckPoint, |q| + 1)
      modifies this`q, inflightQueue
      ensures Queue(cumulativeTSNAckPoint) && S.Consecutive(cumulativeTSNAckPoint, q)
      ensures q == old(q) + [c] && inflightQueue.nBytes == old(inflightQueue.nBytes) + c.len
    {
      HoldsAppend(inflightQueue.chunkMap, cumulativeTSNAckPoint, q, c);
      inflightQueue.PushNoCheck(c);
      q := q + [c];
    }

    method MovePendingDataChunkToInflightQueue(now: int) returns (c: Chunk)
      requires Valid() && Peek(pendingQueue).Some? && |q| < S.FLIGHT_LIMIT
      modifies this`pendingQueue, this`heads, this`q, this`myNextTSN, inflightQueue
      ensures Valid() && q == old(q) + [c] && State() == T.MoveToInflight(old(State()), now)
    {
      ghost var s := State();
      c := Peek(pendingQueue).value;
      pendingQueue := Pop(pendingQueue).p;
      heads := SetAllInflight(heads, c);
      c := c.(tsn := myNextTSN, since := now, nSent := 1);
      myNextTSN := Plus(myNextTSN, 1);
      heads := CheckReliability(useForwardTSN, streams, heads, c, now);
      MoveAssembles(s, now, c, heads);
      PutInFlight(c);
    }

    ghost predicate Room()
      reads this`pendingQueue, this`q
    {
      PendingWF(pendingQueue) && |q| + PendingSize(pendingQueue) <= S.FLIGHT_LIMIT
    }

    /** The next pending chunk enters flight and is paid for out of rwnd. */
    method FillOne(now: int) returns (c: Chunk)
      requires Valid() && Room() && Peek(pendingQueue).Some? && Peek(pendingQueue).value.len <= rwnd
      modifies this`pendingQueue, this`heads, this`q, this`myNextTSN, this`rwnd, inflightQueue
      ensures Valid() && Room() && q == old(q) + [c] && PendingSize(pendingQueue) < old(PendingSize(pendingQueue))
      ensures State() == Paid(old(State()), now)
    {
      ghost var s := State();
      RoomAfterPop(pendingQueue);
      rwnd := rwnd - Peek(pendingQueue).value.len;
      assert State() == s.(rwnd := rwnd);
      c := MovePendingDataChunkToInflightQueue(now);
    }

    /** One round of the filling loop; `more` is false once the queue is empty or a window is full. */
    method FillNext(now: int, resets: seq<u16>) returns (more: bool, resets': seq<u16>, moved: seq<Chunk>)
      requires Valid() && Room()
      modifies this`pendingQueue, this`heads, this`q, this`myNextTSN, this`rwnd, inflightQueue
      ensures Valid() && Room() && q == old(q) + moved && more == !T.Blocked(old(State()))
      ensures if more then T.Filled(State(), resets') == T.FillStep(T.Filled(old(State()), resets), now)
                           && PendingSize(pendingQueue) < old(PendingSize(pendingQueue))
              else T.Filled(State(), resets') == T.Filled(old(State()), resets)
    {
      more, resets', moved := false, resets, [];
      if Peek(pendingQueue).None? { return; }
      ghost var s := State();
      RoomAfterPop(pendingQueue);
      var c := Peek(pendingQueue).value;
      if c.len == 0 {
        resets' := resets + [c.streamIdentifier];
        pendingQueue := Pop(pendingQueue).p;
        more := true;
      } else if U32(U32(inflightQueue.nBytes) + c.len) <= cc.cwnd && c.len <= rwnd {
        StepPays(T.Filled(s, resets), now);
        c := FillOne(now);
        moved, more := [c], true;
      }
    }

    method FillRound(now: int, resets: seq<u16>, chunks: seq<Chunk>, ghost q0: seq<Chunk>)
      returns (more: bool, resets': seq<u16>, chunks': seq<Chunk>)
      requires Valid() && Room() && q == q0 + chunks
      modifies this`pendingQueue, this`heads, this`q, this`myNextTSN, this`rwnd, inflightQueue
      ensures Valid() && Room() && q == q0 + chunks' && more == !T.Blocked(old(State()))
      ensures if more then T.Filled(State(), resets') == T.FillStep(T.Filled(old(State()), resets), now)
                           && PendingSize(pendingQueue) < old(PendingSize(pendingQueue))
              else T.Filled(State(), resets') == T.Filled(old(State()), resets)
    {
      var moved;
      more, resets', moved := FillNext(now, resets);
      ConcatAssociates(q0, chunks, moved);
      chunks' := chunks + moved;
    }

    method FillWindows(now: int) returns (resets: seq<u16>, chunks: seq<Chunk>)
      requires Valid() && Room()
      modifies this`pendingQueue, this`heads, this`q, this`myNextTSN, this`rwnd, inflightQueue
      ensures Valid() && Room() && q == old(q) + chunks
      ensures T.Filled(State(), resets) == T.Fill(T.Filled(old(State()), []), now)
    {
      resets, chunks := [], [];
      ghost var f, n := T.Filled(State(), []), PendingSize(pendingQueue) + 1;
      ghost var goal := FillTo(f, now, n);
      FillToIsFill(f, now, n);
      var more := true;
      while more
        invariant Valid() && Room() && q == old(q) + chunks && T.Filled(State(), resets) == f
        invariant n > PendingSize(pendingQueue) && Filling(f, now, n, more, goal)
        decreases more, n
      {
        FillingStep(f, now, n, goal);
        more, resets, chunks := FillRound(now, resets, chunks, old(q));
        if more { f, n := T.FillStep(f, now), n - 1; }
      }
    }

    /** With nothing in flight, one chunk goes out whatever the windows say. */
    method Probe(now: int) returns (chunks: seq<Chunk>)
      requires Valid() && Room()
      modifies this`pendingQueue, this`heads, this`q, this`myNextTSN, inflightQueue
      ensures Valid() && q == old(q) + chunks
      ensures State() == if old(q) == [] && Peek(old(pendingQueue)).Some? then T.MoveToInflight(old(State()), now)
                         else old(State())
    {
      chunks := [];
      HoldsSize(inflightQueue.chunkMap, cumulativeTSNAckPoint, q);
      if |inflightQueue.chunkMap| == 0 && Peek(pendingQueue).Some? {
        PopFollowsMessages(pendingQueue);
        var c := MovePendingDataChunkToInflightQueue(now);
        chunks := [c];
      }
    }

    /** Moves into flight what the windows allow, or one probe; starts the T3 timer if anything moved. */
    method PopPendingDataChunksToSend(now: int) returns (chunks: seq<Chunk>, resets: seq<u16>)
      requires Valid() && Room()
      modifies this`pendingQueue, this`heads, this`q, this`myNextTSN, this`rwnd, this`t3Running, inflightQueue
      ensures Valid() && q == old(q) + chunks && T.Filled(State(), resets) == T.PopPending(old(State()), now)
    {
      resets, chunks := FillWindows(now);
      var probe := Probe(now);
      ConcatAssociates(old(q), chunks, probe);
      chunks := chunks + probe;
      if |chunks| > 0 { t3Running := true; }
    }

    // ---- Retransmission ----

    /** Counts one more transmission of the chunk at position `i`; only the T3 path clears its flag. */
    method SendAgain(ghost i: nat, tsn: u32, t3: bool, now: int) returns (c: Chunk)
      requires Queue(cumulativeTSNAckPoint) && i < |q| && tsn == Plus(cumulativeTSNAckPoint, i + 1)
      modifies this`q, this`heads, inflightQueue`chunkMap
      ensures Queue(cumulativeTSNAckPoint)
      ensures c == old(q[i]).(retransmit := old(q[i]).retransmit && !t3, nSent := old(q[i]).nSent + 1)
      ensures q == old(q)[i := c] && heads == CheckReliability(useForwardTSN, streams, old(heads), c, now)
    {
      HoldsNth(inflightQueue.chunkMap, cumulativeTSNAckPoint, q, i, tsn);
      c := inflightQueue.chunkMap[tsn];
      c := c.(retransmit := c.retransmit && !t3, nSent := c.nSent + 1);
      SetAt(i, tsn, c, cumulativeTSNAckPoint);
      heads := CheckReliability(useForwardTSN, streams, heads, c, now);
    }

    /** Adds the chunk at position `i`, of `cost` bytes, to the batch. */
    method Pick(ghost i: nat, tsn: u32, t3: bool, now: int, bytes: nat, cost: nat, picks: seq<Chunk>, ghost s: S.Sender)
      returns (bytes': nat, picks': seq<Chunk>)
      requires Queue(cumulativeTSNAckPoint) && i < |q| && tsn == Plus(cumulativeTSNAckPoint, i + 1)
      requires s.useForwardTSN == useForwardTSN && s.streams == streams
      modifies this`q, this`heads, inflightQueue`chunkMap
      ensures Queue(cumulativeTSNAckPoint)
      ensures T.Resend(q, heads, bytes', picks')
           == T.SendAgain(old(T.Resend(q, heads, bytes, picks)), i, cost, t3, s, now)
    {
      var c := SendAgain(i, tsn, t3, now);
      bytes', picks' := bytes + cost, picks + [c];
    }

    /** One round of the retransmission loop, on the chunk at position `i`. */
    method RetransmitNext(i: nat, now: int, awnd: u32, bytes: nat, picks: seq<Chunk>, ghost s: S.Sender)
      returns (stop: bool, bytes': nat, picks': seq<Chunk>)
      requires Queue(cumulativeTSNAckPoint) && i <= |q| && awnd == S.Min(s.cc.cwnd, s.rwnd)
      requires s.rwnd == rwnd && s.useForwardTSN == useForwardTSN && s.streams == streams
      modifies this`q, this`heads, inflightQueue`chunkMap
      ensures Queue(cumulativeTSNAckPoint) && |q| == old(|q|) && (!stop ==> i < |q|)
      ensures T.RetransmitFrom(old(T.Resend(q, heads, bytes, picks)), i, s, now)
           == var r := T.Resend(q, heads, bytes', picks'); if stop then r else T.RetransmitFrom(r, i + 1, s, now)
    {
      stop, bytes', picks' := true, bytes, picks;
      var tsn := Plus(cumulativeTSNAckPoint, i + 1);
      HoldsNth(inflightQueue.chunkMap, cumulativeTSNAckPoint, q, i, tsn);
      if tsn !in inflightQueue.chunkMap { return; }
      var c := inflightQueue.chunkMap[tsn];
      if !c.retransmit { return false, bytes, picks; }
      stop := i == 0 && rwnd < c.len;
      if !stop && bytes + c.len > awnd { return true, bytes, picks; }
      bytes', picks' := Pick(i, tsn, true, now, bytes, c.len, picks, s);
    }

    method GetDataChunksToRetransmit(now: int) returns (chunks: seq<Chunk>, bytesToSend: nat)
      requires Queue(cumulativeTSNAckPoint)
      modifies this`q, this`heads, inflightQueue`chunkMap
      ensures Queue(cumulativeTSNAckPoint) && T.Resend(q, heads, bytesToSend, chunks) == T.Retransmit(old(State()), now)
      ensures exists n :: 0 <= n <= |old(q)| && chunks == B.Due(old(q)[..n]) && B.T3Ends(old(State()), chunks, n)
    {
      var awnd := S.Min(cc.cwnd, rwnd);
      chunks, bytesToSend := [], 0;
      ghost var s := State();
      ghost var n := B.RetransmitIsMaximal(s, now);
      ghost var goal := T.Retransmit(s, now);
      var i, done := 0, false;
      while !done
        invariant Queue(cumulativeTSNAckPoint) && 0 <= i <= |q| + 1 && (!done ==> i <= |q|)
        invariant var r := T.Resend(q, heads, bytesToSend, chunks);
                  goal == if done then r else T.RetransmitFrom(r, i, s, now)
        decreases |q| + 1 - i
      {
        done, bytesToSend, chunks := RetransmitNext(i, now, awnd, bytesToSend, chunks, s);
        i := i + 1;
      }
    }

    /** One round of the fast-retransmission loop. */
    method FastNext(i: nat, now: int, size: nat, picks: seq<Chunk>, ghost s: S.Sender)
      returns (stop: bool, size': nat, picks': seq<Chunk>)
      requires Queue(cumulativeTSNAckPoint) && i <= |q|
      requires s.mtu == mtu && s.useForwardTSN == useForwardTSN && s.streams == streams
      modifies this`q, this`heads, inflightQueue`chunkMap
      ensures Queue(cumulativeTSNAckPoint) && |q| == old(|q|) && (!stop ==> i < |q|)
      ensures T.FastFrom(old(T.Resend(q, heads, size, picks)), i, s, now)
           == var r := T.Resend(q, heads, size', picks'); if stop then r else T.FastFrom(r, i + 1, s, now)
    {
      stop, size', picks' := true, size, picks;
      var tsn := Plus(cumulativeTSNAckPoint, i + 1);
      HoldsNth(inflightQueue.chunkMap, cumulativeTSNAckPoint, q, i, tsn);
      if tsn !in inflightQueue.chunkMap { return; }
      var c := inflightQueue.chunkMap[tsn];
      if c.acked || Abandoned(heads, c) || c.nSent > 1 || c.missIndicator < 3 { return false, size, picks; }
      var dataChunkSize := S.DATA_CHUNK_HEADER_SIZE + c.len;
      if mtu < size + dataChunkSize { return; }
      size', picks' := Pick(i, tsn, false, now, size, dataChunkSize, picks, s);
      stop := false;
    }

    method GatherFastRetransmission(now: int) returns (chunks: seq<Chunk>, size: nat)
      requires Queue(cumulativeTSNAckPoint)
      modifies this`q, this`heads, this`cc, inflightQueue`chunkMap
      ensures Queue(cumulativeTSNAckPoint) && cc == old(cc).(willRetransmitFast := false)
      ensures T.Resend(q, heads, size, chunks) == T.FastRetransmit(old(State()), now)
    {
      chunks, size := [], S.COMMON_HEADER_SIZE;
      if !cc.willRetransmitFast { return; }
      ghost var s := State();
      ghost var goal := T.FastRetransmit(s, now);
      cc := cc.(willRetransmitFast := false);
      var i, done := 0, false;
      while !done
        invariant Queue(cumulativeTSNAckPoint) && 0 <= i <= |q| + 1 && (!done ==> i <= |q|)
        invariant cc == s.cc.(willRetransmitFast := false)
        invariant var r := T.Resend(q, heads, size, chunks); goal == if done then r else T.FastFrom(r, i, s, now)
        decreases |q| + 1 - i
      {
        done, size, chunks := FastNext(i, now, size, chunks, s);
        i := i + 1;
      }
    }

    method MarkAllToRetransmit()
      requires Queue(cumulativeTSNAckPoint)
      modifies this`q, inflightQueue`chunkMap
      ensures Queue(cumulativeTSNAckPoint) && q == T.MarkAll(old(q), heads)
    {
      inflightQueue.MarkAllToRetransmit(heads);
      HoldsMarkAll(old(inflightQueue.chunkMap), inflightQueue.chunkMap, cumulativeTSNAckPoint, q, heads);
      q := T.MarkAll(q, heads);
    }

    /** The T3 timer expires. */
    method OnRetransmissionTimeout()
      requires Valid()
      modifies this`cc, this`advancedPeerTSNAckPoint, this`willSendForwardTSN, this`q, inflightQueue`chunkMap
      ensures Valid() && State() == T.OnT3(old(State()))
    {
      ghost var s := State();
      cc := cc.(ssthresh := S.Cut(cc.cwnd, mtu), cwnd := mtu);
      if useForwardTSN { AdvancePeerAckPoint(); }
      MarkAllToRetransmit();
      MarkAllConsecutive(cumulativeTSNAckPoint, s.q, heads);
      T3Assembles(s, State());
    }

    /** The streams of the skipped chunks, under the advanced ack point. */
    method CreateForwardTSN() returns (f: T.ForwardTSN)
      requires Queue(cumulativeTSNAckPoint)
               && Dist(cumulativeTSNAckPoint, advancedPeerTSNAckPoint) <= |q| <= S.FLIGHT_LIMIT
      ensures f == T.CreateForwardTSN(State())
    {
      var streamMap: map<u16, u16> := map[];
      ghost var base := cumulativeTSNAckPoint;
      ghost var skipped := q[..Dist(base, advancedPeerTSNAckPoint)];
      ghost var goal := T.SkipFrom(map[], skipped);
      var i := Plus(cumulativeTSNAckPoint, 1);
      CounterRuns(base, advancedPeerTSNAckPoint);
      while Sna32LTE(i, advancedPeerTSNAckPoint)
        invariant i == Plus(base, 1) && (Sna32LTE(i, advancedPeerTSNAckPoint) <==> base != advancedPeerTSNAckPoint)
        invariant Dist(cumulativeTSNAckPoint, base) + Dist(base, advancedPeerTSNAckPoint) == |skipped|
        invariant T.SkipFrom(streamMap, skipped[Dist(cumulativeTSNAckPoint, base)..]) == goal
        decreases Dist(base, advancedPeerTSNAckPoint)
      {
        HoldsNext(inflightQueue.chunkMap, cumulativeTSNAckPoint, q, base);
        CounterRuns(base, advancedPeerTSNAckPoint);
        if i !in inflightQueue.chunkMap { break; }
        var c := inflightQueue.chunkMap[i];
        assert c == skipped[Dist(cumulativeTSNAckPoint, base)];
        if c.streamIdentifier !in streamMap {
          streamMap := streamMap[c.streamIdentifier := c.streamSequenceNumber];
        } else if Sna16LT(streamMap[c.streamIdentifier], c.streamSequenceNumber) {
          streamMap := streamMap[c.streamIdentifier := c.streamSequenceNumber];
        }
        base := i;
        CounterRuns(base, advancedPeerTSNAckPoint);
        i := Plus(i, 1);
      }
      f := T.ForwardTSN(advancedPeerTSNAckPoint, streamMap);
    }
  }

  /** bundleDataChunksIntoPackets */
  method BundleDataChunks(chunks: seq<Chunk>, mtu: u32) returns (packets: seq<seq<Chunk>>)
    ensures packets == T.Packets(chunks, mtu)
  {
    var chunksToSend, bytesInPacket := [], S.COMMON_HEADER_SIZE;
    packets := [];
    ghost var goal := T.BundleAll(T.Bundle([], [], S.COMMON_HEADER_SIZE), chunks, mtu);
    var i := 0;
    while i < |chunks|
      invariant 0 <= i <= |chunks| && bytesInPacket >= 0
      invariant T.BundleAll(T.Bundle(packets, chunksToSend, bytesInPacket), chunks[i..], mtu) == goal
    {
      var c := chunks[i];
      assert chunks[i..][0] == c && chunks[i..][1..] == chunks[i + 1..];
      if bytesInPacket + c.len > mtu {
        packets := packets + [chunksToSend];
        chunksToSend := [];
        bytesInPacket := S.COMMON_HEADER_SIZE;
      }
      chunksToSend := chunksToSend + [c];
      bytesInPacket := bytesInPacket + S.DATA_CHUNK_HEADER_SIZE + c.len;
      i := i + 1;
    }
    if |chunksToSend| > 0 { packets := packets + [chunksToSend]; }
  }
}
