/** What processing a SACK keeps and computes. */
module SctpSackProofs {
  import opened Serial
  import opened Wrappers
  import opened SctpChunks
  import opened SctpSender

  // ---- Cumulative part ----

  /** Every byte that leaves the queue is credited once: a chunk acknowledged earlier by a gap block is
      empty and credits nothing. */
  lemma PopOneConserves(a: Acking, start: u32, exit: u32, only: Option<u16>)
    requires a.q != [] && ChunkOk(a.q[0])
    ensures var r := PopOne(a, start, exit);
            && CreditOf(r.credit, only) + Bytes(r.q, only) == CreditOf(a.credit, only) + Bytes(a.q, only)
            && r.nBytes - Bytes(r.q, None) == a.nBytes - Bytes(a.q, None)
  {
    var c := a.q[0];
    if !c.acked { CreditAdds(a.credit, c.streamIdentifier, c.len, only); }
  }

  lemma {:induction false} PopConserves(a: Acking, n: nat, start: u32, exit: u32, only: Option<u16>)
    requires n <= |a.q| && ChunksOk(a.q)
    ensures var r := PopAcked(a, n, start, exit);
            && CreditOf(r.credit, only) + Bytes(r.q, only) == CreditOf(a.credit, only) + Bytes(a.q, only)
            && r.nBytes - Bytes(r.q, None) == a.nBytes - Bytes(a.q, None)
    decreases n
  {
    if n > 0 {
      PopOneConserves(a, start, exit, only);
      PopConserves(PopOne(a, start, exit), n - 1, start, exit, only);
    }
  }

  /** The equality test ends recovery exactly when the cumulative ack reaches the exit point. */
  lemma {:induction false} PopEndsRecovery(a: Acking, n: nat, start: u32, exit: u32)
    requires n <= |a.q| && Consecutive(a.cum, a.q) && RecoveryOk(a.cum, |a.q|, a.inFastRecovery, exit)
    ensures var r := PopAcked(a, n, start, exit);
            && r.inFastRecovery == (a.inFastRecovery && n < Dist(a.cum, exit))
            && r.cum == Plus(a.cum, n)
    decreases n
  {
    if n > 0 {
      var b := PopOne(a, start, exit);
      SuffixConsecutive(a.cum, a.q, b.cum);
      assert a.q[0].tsn == Plus(a.cum, 1);
      PopEndsRecovery(b, n - 1, start, exit);
    }
  }

  // ---- Gap blocks ----

  predicate Covers(g: Gap, offset: nat) { g.start <= offset <= g.end }

  predicate Covered(gaps: seq<Gap>, offset: nat) {
    exists i :: 0 <= i < |gaps| && Covers(gaps[i], offset)
  }

  /** `d` is `c` after acknowledgement by a gap block, if `now`. */
  predicate AckedWhen(c: Chunk, d: Chunk, now: bool) {
    d == if now && !c.acked then c.(acked := true, retransmit := false, len := 0) else c
  }

  lemma {:induction false} MarkRangeExact(m: Marks, i: nat, end: nat)
    requires 1 <= i && end <= |m.q|
    ensures var r := MarkUpTo(m, i, end);
            forall k :: 0 <= k < |m.q| ==> AckedWhen(m.q[k], r.q[k], i <= k + 1 <= end)
    decreases end + 1 - i
  {
    if i <= end { MarkRangeExact(MarkOne(m, i - 1), i + 1, end); }
  }

  /** Exactly the chunks whose offset some block covers become acknowledged, and nothing else changes. */
  lemma {:induction false} MarkGapsExact(m: Marks, gaps: seq<Gap>)
    requires GapsFit(gaps, |m.q|)
    ensures var r := MarkGaps(m, gaps);
            forall k :: 0 <= k < |m.q| ==> AckedWhen(m.q[k], r.q[k], Covered(gaps, k + 1))
    decreases |gaps|
  {
    if gaps != [] {
      var g := gaps[0];
      var m1 := MarkGap(m, g);
      if g.start <= g.end { MarkRangeExact(m, g.start, g.end); }
      MarkGapsExact(m1, gaps[1..]);
      var r := MarkGaps(m, gaps);
      forall k | 0 <= k < |m.q| ensures AckedWhen(m.q[k], r.q[k], Covered(gaps, k + 1)) {
        assert AckedWhen(m.q[k], m1.q[k], Covers(g, k + 1));
        assert AckedWhen(m1.q[k], r.q[k], Covered(gaps[1..], k + 1));
        CoveredCons(gaps, k + 1);
      }
    }
  }

  lemma CoveredCons(gaps: seq<Gap>, offset: nat)
    requires gaps != []
    ensures Covered(gaps, offset) <==> Covers(gaps[0], offset) || Covered(gaps[1..], offset)
  {
    if Covered(gaps, offset) && !Covers(gaps[0], offset) {
      var i :| 0 <= i < |gaps| && Covers(gaps[i], offset);
      assert Covers(gaps[1..][i - 1], offset);
    }
    if Covered(gaps[1..], offset) {
      var i :| 0 <= i < |gaps[1..]| && Covers(gaps[1..][i], offset);
      assert Covers(gaps[i + 1], offset);
    }
  }

  lemma MarkOneConserves(m: Marks, k: nat, only: Option<u16>)
    requires k < |m.q| && ChunksOk(m.q)
    ensures var r := MarkOne(m, k);
            && CreditOf(r.credit, only) + Bytes(r.q, only) == CreditOf(m.credit, only) + Bytes(m.q, only)
            && r.nBytes - Bytes(r.q, None) == m.nBytes - Bytes(m.q, None)
            && ChunksOk(r.q)
  {
    var c := m.q[k];
    if !c.acked {
      CreditAdds(m.credit, c.streamIdentifier, c.len, only);
      BytesUpdate(m.q, k, c.(acked := true, retransmit := false, len := 0), only);
      BytesUpdate(m.q, k, c.(acked := true, retransmit := false, len := 0), None);
    }
  }

  lemma {:induction false} MarkRangeConserves(m: Marks, i: nat, end: nat, only: Option<u16>)
    requires 1 <= i && end <= |m.q| && ChunksOk(m.q)
    ensures var r := MarkUpTo(m, i, end);
            && CreditOf(r.credit, only) + Bytes(r.q, only) == CreditOf(m.credit, only) + Bytes(m.q, only)
            && r.nBytes - Bytes(r.q, None) == m.nBytes - Bytes(m.q, None)
            && ChunksOk(r.q)
    decreases end + 1 - i
  {
    if i <= end {
      MarkOneConserves(m, i - 1, only);
      MarkRangeConserves(MarkOne(m, i - 1), i + 1, end, only);
    }
  }

  lemma {:induction false} MarkGapsConserve(m: Marks, gaps: seq<Gap>, only: Option<u16>)
    requires GapsFit(gaps, |m.q|) && ChunksOk(m.q)
    ensures var r := MarkGaps(m, gaps);
            && CreditOf(r.credit, only) + Bytes(r.q, only) == CreditOf(m.credit, only) + Bytes(m.q, only)
            && r.nBytes - Bytes(r.q, None) == m.nBytes - Bytes(m.q, None)
            && ChunksOk(r.q)
    decreases |gaps|
  {
    if gaps != [] {
      if gaps[0].start <= gaps[0].end { MarkRangeConserves(m, gaps[0].start, gaps[0].end, only); }
      MarkGapsConserve(MarkGap(m, gaps[0]), gaps[1..], only);
    }
  }

  // ---- Fast retransmission ----

  /** Equal but for the miss indicator, which never decreases and never passes 3. */
  predicate OnlyMissed(c: Chunk, d: Chunk) {
    && d == c.(missIndicator := d.missIndicator)
    && c.missIndicator <= d.missIndicator && (c.missIndicator <= 3 ==> d.missIndicator <= 3)
  }

  predicate AllOnlyMissed(q: seq<Chunk>, q': seq<Chunk>) {
    |q| == |q'| && forall i :: 0 <= i < |q| ==> OnlyMissed(q[i], q'[i])
  }

  /** The congestion state is untouched, or recovery was entered: one cut, with the exit point at `htna`. */
  predicate CutOnce(cc: Congestion, cc': Congestion, htna: u32, mtu: u32) {
    || cc' == cc
    || (!cc.inFastRecovery && cc' == Congestion(Cut(cc.cwnd, mtu), Cut(cc.cwnd, mtu), 0, true, htna, true))
  }

  lemma {:induction false} MissRangeMeaning(m: Missing, k: nat, n: nat, heads: Heads, htna: u32, mtu: u32)
    requires n <= |m.q|
    ensures var r := MissRange(m, k, n, heads, htna, mtu);
            && AllOnlyMissed(m.q, r.q) && CutOnce(m.cc, r.cc, htna, mtu)
            && (r.cc != m.cc ==> k < n)
    decreases n - k
  {
    if k < n {
      var m1 := MissOne(m, k, heads, htna, mtu);
      assert AllOnlyMissed(m.q, m1.q);
      MissRangeMeaning(m1, k + 1, n, heads, htna, mtu);
      var r := MissRange(m1, k + 1, n, heads, htna, mtu);
      forall i | 0 <= i < |m.q| ensures OnlyMissed(m.q[i], r.q[i]) {
        assert OnlyMissed(m.q[i], m1.q[i]) && OnlyMissed(m1.q[i], r.q[i]);
      }
    }
  }

  lemma {:induction false} MissedBytes(q: seq<Chunk>, q': seq<Chunk>, only: Option<u16>)
    requires AllOnlyMissed(q, q')
    ensures Bytes(q', only) == Bytes(q, only)
  {
    if q != [] {
      assert OnlyMissed(q[0], q'[0]);
      forall i | 0 <= i < |q| - 1 ensures OnlyMissed(q[1..][i], q'[1..][i]) {
        assert OnlyMissed(q[i + 1], q'[i + 1]);
      }
      MissedBytes(q[1..], q'[1..], only);
    }
  }

  /** Recovery entered by a SACK exits at a TSN that is in flight above the new ack point. */
  lemma FastRetransmissionMeaning(m: Missing, cum: u32, heads: Heads, htna: u32, advanced: bool, mtu: u32)
    requires Dist(cum, htna) <= |m.q|
    requires RecoveryOk(cum, |m.q|, m.cc.inFastRecovery, m.cc.fastRecoverExitPoint)
    ensures var r := FastRetransmission(m, cum, heads, htna, advanced, mtu);
            && AllOnlyMissed(m.q, r.q)
            && RecoveryOk(cum, |r.q|, r.cc.inFastRecovery, r.cc.fastRecoverExitPoint)
            && (m.cc.inFastRecovery ==> r.cc == m.cc.(willRetransmitFast := r.cc.willRetransmitFast))
            && CutOnce(m.cc.(willRetransmitFast := true), r.cc.(willRetransmitFast := true), htna, mtu)
  {
    MissRangeMeaning(m, 0, MissCount(cum, m, htna), heads, htna, mtu);
  }

  // ---- Advanced peer ack point ----

  lemma {:induction false} AdvanceKeeps(cum: u32, q: seq<Chunk>, heads: Heads, adv: u32)
    requires |q| <= FLIGHT_LIMIT && AdvancedOk(cum, q, heads, adv)
    ensures var adv' := AdvanceOver(cum, q, heads, adv);
            && AdvancedOk(cum, q, heads, adv')
            && Dist(cum, adv) <= Dist(cum, adv')
            && (Dist(cum, adv') < |q| ==> !Abandoned(heads, q[Dist(cum, adv')]))
    decreases |q| - Dist(cum, adv)
  {
    var k := Dist(cum, adv);
    if k < |q| && Abandoned(heads, q[k]) {
      AdvanceKeeps(cum, q, heads, Plus(adv, 1));
    }
  }

  // ---- handleSack ----

  /** Keeping the flags up to date, a SACK that moves the ack point to `d.cum` leaves the advanced point valid. */
  lemma AdvancedAfterAck(s: Sender, d: Sack, q: seq<Chunk>)
    requires |s.q| <= FLIGHT_LIMIT && AdvancedOk(s.cum, s.q, s.heads, s.adv)
    requires Dist(s.cum, d.cum) <= |s.q| && |q| == |s.q| - Dist(s.cum, d.cum)
    requires forall i :: 0 <= i < |q| ==> q[i].msg == s.q[i + Dist(s.cum, d.cum)].msg
    ensures AdvancedOk(d.cum, q, s.heads, if Sna32LT(s.adv, d.cum) then d.cum else s.adv)
  {
    var n := Dist(s.cum, d.cum);
    if !Sna32LT(s.adv, d.cum) {
      assert Dist(d.cum, s.adv) == Dist(s.cum, s.adv) - n;
      forall i | 0 <= i < Dist(d.cum, s.adv) ensures Abandoned(s.heads, q[i]) {
        assert Abandoned(s.heads, s.q[i + n]);
      }
    }
  }

  lemma MarkedConserves(s: Sender, d: Sack, only: Option<u16>)
    requires Inv(s) && Acceptable(s, d) && !Sna32GT(s.cum, d.cum)
    ensures var m := Marked(s, d);
            && ChunksOk(m.q) && m.nBytes == Bytes(m.q, None)
            && CreditOf(m.credit, only) + Bytes(m.q, only) == Bytes(s.q, only)
  {
    var n := Dist(s.cum, d.cum);
    PopConserves(Acking(s.cum, s.q, s.nBytes, map[], s.cc.inFastRecovery, s.t3Running), n,
                 s.cum, s.cc.fastRecoverExitPoint, only);
    var a := Popped(s, d);
    assert ChunksOk(a.q);
    MarkGapsConserve(Marks(a.q, a.nBytes, a.credit, d.cum), d.gaps, only);
    TotalOfEmpty(0x1_0000);
  }

  /** Of the chunks left in flight, exactly those a gap block covers are newly acknowledged. */
  lemma MarkedExact(s: Sender, d: Sack)
    requires Consecutive(s.cum, s.q) && Acceptable(s, d) && !Sna32GT(s.cum, d.cum)
    ensures var n, m := Dist(s.cum, d.cum), Marked(s, d);
            forall k :: 0 <= k < |m.q| ==> AckedWhen(s.q[k + n], m.q[k], Covered(d.gaps, k + 1))
  {
    var a := Popped(s, d);
    MarkGapsExact(Marks(a.q, a.nBytes, a.credit, d.cum), d.gaps);
    var n, m := Dist(s.cum, d.cum), Marked(s, d);
    forall k | 0 <= k < |m.q| ensures AckedWhen(s.q[k + n], m.q[k], Covered(d.gaps, k + 1)) {
      assert a.q[k] == s.q[k + n];
    }
  }

  lemma GrownRecovery(s: Sender, d: Sack)
    requires Inv(s) && Acceptable(s, d) && !Sna32GT(s.cum, d.cum)
    ensures var n, cc := Dist(s.cum, d.cum), Grown(s, d);
            && cc.inFastRecovery == (s.cc.inFastRecovery && n < Dist(s.cum, s.cc.fastRecoverExitPoint))
            && cc.fastRecoverExitPoint == s.cc.fastRecoverExitPoint
            && cc.ssthresh == s.cc.ssthresh && cc.willRetransmitFast == s.cc.willRetransmitFast
            && RecoveryOk(d.cum, |s.q| - n, cc.inFastRecovery, cc.fastRecoverExitPoint)
  {
    PopEndsRecovery(Acking(s.cum, s.q, s.nBytes, map[], s.cc.inFastRecovery, s.t3Running), Dist(s.cum, d.cum),
                    s.cum, s.cc.fastRecoverExitPoint);
    var cc := s.cc.(inFastRecovery := Popped(s, d).inFastRecovery);
    GrowKeeps(cc, s.mtu, PendingSize(s.pending), CreditOf(Marked(s, d).credit, None));
    if cc.inFastRecovery { DistSplits(s.cum, d.cum, s.cc.fastRecoverExitPoint); }
  }

  /** Growing the window changes nothing else but the bytes counted towards it. */
  lemma GrowKeeps(cc: Congestion, mtu: u32, pendingSize: nat, totalBytesAcked: nat)
    ensures var g := Grow(cc, mtu, pendingSize, totalBytesAcked);
            g == cc.(cwnd := g.cwnd, partialBytesAcked := g.partialBytesAcked)
  {}

  lemma ReactedFacts(s: Sender, d: Sack)
    requires Inv(s) && Acceptable(s, d) && !Sna32GT(s.cum, d.cum)
    ensures var m, cc, f := Marked(s, d), Grown(s, d), Reacted(s, d);
            && AllOnlyMissed(m.q, f.q)
            && RecoveryOk(d.cum, |f.q|, f.cc.inFastRecovery, f.cc.fastRecoverExitPoint)
            && (cc.inFastRecovery ==> f.cc == cc.(willRetransmitFast := f.cc.willRetransmitFast))
            && CutOnce(cc.(willRetransmitFast := true), f.cc.(willRetransmitFast := true), m.htna, s.mtu)
  {
    GrownRecovery(s, d);
    var m := Marked(s, d);
    FastRetransmissionMeaning(Missing(m.q, Grown(s, d)), d.cum, s.heads, m.htna, s.cum != d.cum, s.mtu);
  }

  /** Every acceptable SACK keeps the invariant. */
  lemma HandleSackKeepsInv(s: Sender, d: Sack)
    requires Inv(s) && Acceptable(s, d)
    ensures Inv(HandleSack(s, d).s)
  {
    if !Sna32GT(s.cum, d.cum) {
      MarkedConserves(s, d, None);
      ReactedFacts(s, d);
      var m, f := Marked(s, d), Reacted(s, d);
      MissedBytes(m.q, f.q, None);
      assert Consecutive(d.cum, f.q) && ChunksOk(f.q) by {
        forall i | 0 <= i < |f.q| ensures f.q[i].tsn == Plus(d.cum, i + 1) && ChunkOk(f.q[i]) {
          assert OnlyMissed(m.q[i], f.q[i]) && ChunkOk(m.q[i]);
        }
      }
      if s.useForwardTSN { ForwardKeeps(s, d); }
    }
  }

  lemma ForwardKeeps(s: Sender, d: Sack)
    requires Inv(s) && Acceptable(s, d) && !Sna32GT(s.cum, d.cum) && s.useForwardTSN
    ensures var q := Reacted(s, d).q;
            AdvancedOk(d.cum, q, s.heads,
                       AdvanceOver(d.cum, q, s.heads, if Sna32LT(s.adv, d.cum) then d.cum else s.adv))
  {
    MarkedExact(s, d);
    ReactedFacts(s, d);
    var n, m, q := Dist(s.cum, d.cum), Marked(s, d), Reacted(s, d).q;
    forall i | 0 <= i < |q| ensures q[i].msg == s.q[i + n].msg {
      assert OnlyMissed(m.q[i], q[i]) && AckedWhen(s.q[i + n], m.q[i], Covered(d.gaps, i + 1));
    }
    AdvancedAfterAck(s, d, q);
    AdvanceKeeps(d.cum, q, s.heads, if Sna32LT(s.adv, d.cum) then d.cum else s.adv);
  }

  /** Ack credit is conserved, stream by stream and in total: what a SACK credits is exactly what it takes
      off the unacknowledged bytes in flight. */
  lemma HandleSackConservesCredit(s: Sender, d: Sack, only: Option<u16>)
    requires Inv(s) && Acceptable(s, d)
    ensures var r := HandleSack(s, d);
            CreditOf(r.credit, only) + Bytes(r.s.q, only) == Bytes(s.q, only)
  {
    if Sna32GT(s.cum, d.cum) {
      TotalOfEmpty(0x1_0000);
    } else {
      MarkedConserves(s, d, only);
      ReactedFacts(s, d);
      MissedBytes(Marked(s, d).q, Reacted(s, d).q, only);
    }
  }

  /** Fast recovery is well bracketed. A SACK ends an episode exactly when its cumulative ack reaches the
      exit point; while an episode goes on the slow-start threshold stays and nothing is cut; and a cut
      happens only on entry, with the new exit point the highest TSN newly acknowledged. */
  lemma RecoveryIsBracketed(s: Sender, d: Sack)
    requires Inv(s) && Acceptable(s, d) && !Sna32GT(s.cum, d.cum)
    ensures var r, m := HandleSack(s, d).s, Marked(s, d);
            var stays := s.cc.inFastRecovery && Dist(s.cum, d.cum) < Dist(s.cum, s.cc.fastRecoverExitPoint);
            && (stays ==>
                  && r.cc.inFastRecovery && r.cc.fastRecoverExitPoint == s.cc.fastRecoverExitPoint
                  && r.cc.ssthresh == s.cc.ssthresh && r.cc.cwnd == Grown(s, d).cwnd)
            && (!stays && r.cc.inFastRecovery ==>
                  && r.cc.fastRecoverExitPoint == m.htna
                  && r.cc.cwnd == r.cc.ssthresh == Cut(Grown(s, d).cwnd, s.mtu))
            && (!r.cc.inFastRecovery ==> r.cc.ssthresh == s.cc.ssthresh && r.cc.cwnd == Grown(s, d).cwnd)
  {
    GrownRecovery(s, d);
    ReactedFacts(s, d);
  }
}
