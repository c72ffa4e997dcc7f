/** What an accepted SACK does to the windows, the miss indicators and the timers. */
module SctpSackResponse {
  // Stated in the terms of RFC 4960, over the sender before and after the SACK.

  import opened Serial
  import opened Wrappers
  import opened SctpChunks
  import opened SctpSender
  import opened SctpSackProofs

  // ---- Window growth ----

  /** `cwnd` and `partial` are the congestion window and the partial bytes after `acked` bytes were acknowledged.
      In slow start the window grows by the bytes acknowledged, at most doubling; beyond it, it grows by one MTU
      whenever a whole window has been acknowledged. It never grows with nothing waiting to be sent. */
  predicate Grows(cc: Congestion, recovering: bool, mtu: nat, waiting: bool, acked: int, cwnd: int, partial: int) {
    if cc.cwnd <= cc.ssthresh then
      && partial == cc.partialBytesAcked
      && (recovering || !waiting ==> cwnd == cc.cwnd)
      && (!recovering && waiting ==>
            cwnd <= cc.cwnd + acked && cwnd <= 2 * cc.cwnd && (cwnd == cc.cwnd + acked || cwnd == 2 * cc.cwnd))
    else
      var full := cc.partialBytesAcked + acked >= cc.cwnd && waiting;
      && cwnd - cc.cwnd == (if full then mtu else 0)
      && partial + (if full then cc.cwnd else 0) == cc.partialBytesAcked + acked
  }

  /** None of the 32-bit sums wraps. */
  predicate NoWrap(cc: Congestion, mtu: nat, acked: int) {
    && acked < 0x1_0000_0000 && 4 * mtu < 0x1_0000_0000
    && cc.cwnd + Min(acked, cc.cwnd) < 0x1_0000_0000 && cc.cwnd + mtu < 0x1_0000_0000
    && cc.partialBytesAcked + acked < 0x1_0000_0000
  }

  lemma GrowMeaning(cc: Congestion, mtu: u32, pendingSize: nat, acked: nat)
    requires NoWrap(cc, mtu, acked)
    ensures var g := Grow(cc, mtu, pendingSize, acked);
            Grows(cc, cc.inFastRecovery, mtu, pendingSize > 0, acked, g.cwnd, g.partialBytesAcked)
  {
    if cc.cwnd <= cc.ssthresh {
      U32OfSmall(acked);
      U32OfSmall(cc.cwnd + Min(acked, cc.cwnd));
    } else {
      U32OfSmall(cc.partialBytesAcked + acked);
      U32OfSmall(cc.cwnd + mtu);
    }
  }

  /** The 32-bit sum is why the window can shrink: exactly when it wraps. */
  lemma GrowthShrinksOnlyByWrapping(cc: Congestion, mtu: u32, pendingSize: nat, acked: nat)
    requires acked < 0x1_0000_0000
    ensures var full := U32(cc.partialBytesAcked + acked) >= cc.cwnd;
            Grow(cc, mtu, pendingSize, acked).cwnd < cc.cwnd <==>
              && pendingSize > 0
              && (if cc.cwnd <= cc.ssthresh
                  then !cc.inFastRecovery && cc.cwnd + Min(acked, cc.cwnd) >= 0x1_0000_0000
                  else full && cc.cwnd + mtu >= 0x1_0000_0000)
  {
    U32OfSmall(acked);
    WrapShrinks(cc.cwnd, Min(acked, cc.cwnd));
    WrapShrinks(cc.cwnd, mtu);
  }

  lemma WrapShrinks(a: u32, n: u32)
    ensures U32(a + n) < a <==> a + n >= 0x1_0000_0000
  {}

  /** The cut on loss and on timeout: half the window, but at least four MTUs. */
  predicate IsHalved(cwnd: u32, mtu: nat, to: u32) {
    cwnd / 2 <= to && 4 * mtu <= to && (to == cwnd / 2 || to == 4 * mtu)
  }

  lemma CutMeaning(cwnd: u32, mtu: u32)
    requires 4 * mtu < 0x1_0000_0000
    ensures IsHalved(cwnd, mtu, Cut(cwnd, mtu))
  {
    U32OfSmall(4 * mtu);
    U32OfSmall(cwnd / 2);
  }

  /** Recovery goes on: the cumulative ack does not reach the exit point. */
  predicate StaysInRecovery(s: Sender, d: Sack) {
    s.cc.inFastRecovery && Dist(s.cum, d.cum) < Dist(s.cum, s.cc.fastRecoverExitPoint)
  }

  predicate Accepted(s: Sender, d: Sack) {
    Inv(s) && Acceptable(s, d) && !Sna32GT(s.cum, d.cum)
  }

  predicate EntersRecovery(s: Sender, d: Sack)
    requires Accepted(s, d)
  {
    HandleSack(s, d).s.cc.inFastRecovery && !StaysInRecovery(s, d)
  }

  /** The bytes acknowledged: what left the count of bytes in flight. */
  function BytesAcked(s: Sender, d: Sack): int
    requires Accepted(s, d)
  {
    s.nBytes - HandleSack(s, d).s.nBytes
  }

  lemma BytesAckedAreCredited(s: Sender, d: Sack)
    requires Accepted(s, d)
    ensures 0 <= BytesAcked(s, d) == CreditOf(Marked(s, d).credit, None)
  {
    MarkedConserves(s, d, None);
  }

  /** The window and the partial bytes a SACK leads to, before any cut. */
  lemma GrownMeaning(s: Sender, d: Sack, acked: nat)
    requires Accepted(s, d) && acked == CreditOf(Marked(s, d).credit, None) && NoWrap(s.cc, s.mtu, acked)
    ensures var g := Grown(s, d);
            if s.cum == d.cum then g.cwnd == s.cc.cwnd && g.partialBytesAcked == s.cc.partialBytesAcked
            else Grows(s.cc, StaysInRecovery(s, d), s.mtu, PendingSize(s.pending) > 0, acked, g.cwnd,
                       g.partialBytesAcked)
  {
    if s.cum != d.cum {
      var cc := s.cc.(inFastRecovery := Popped(s, d).inFastRecovery);
      GrownRecovery(s, d);
      GrowKeeps(cc, s.mtu, PendingSize(s.pending), acked);
      GrowMeaning(cc, s.mtu, PendingSize(s.pending), acked);
    }
  }

  /** The congestion window after a SACK, for sums that do not wrap. `grown` and `partial` are the window and
      partial bytes the acknowledged bytes lead to; nothing grows if the ack point does not move. They are the
      new ones unless the SACK starts a recovery, which halves the grown window. */
  lemma SackMovesWindow(s: Sender, d: Sack) returns (grown: u32, partial: u32)
    requires Accepted(s, d) && NoWrap(s.cc, s.mtu, BytesAcked(s, d))
    ensures if s.cum == d.cum then grown == s.cc.cwnd && partial == s.cc.partialBytesAcked
            else Grows(s.cc, StaysInRecovery(s, d), s.mtu, PendingSize(s.pending) > 0, BytesAcked(s, d), grown, partial)
    ensures var cc := HandleSack(s, d).s.cc;
            if EntersRecovery(s, d)
            then IsHalved(grown, s.mtu, cc.cwnd) && cc.ssthresh == cc.cwnd && cc.partialBytesAcked == 0
            else cc.cwnd == grown && cc.ssthresh == s.cc.ssthresh && cc.partialBytesAcked == partial
  {
    var g := Grown(s, d);
    grown, partial := g.cwnd, g.partialBytesAcked;
    BytesAckedAreCredited(s, d);
    GrownMeaning(s, d, BytesAcked(s, d));
    GrownRecovery(s, d);
    ReactedFacts(s, d);
    CutMeaning(grown, s.mtu);
  }

  // ---- Highest TSN newly acknowledged ----

  /** Position `k` counts from the new ack point. */
  predicate NewlyAcked(s: Sender, d: Sack, k: nat)
    requires k + Dist(s.cum, d.cum) < |s.q|
  {
    !s.q[k + Dist(s.cum, d.cum)].acked && Covered(d.gaps, k + 1)
  }

  /** `r` comes from `m` by acknowledging more chunks, and its highest newly acknowledged TSN is the greater of the
      one of `m` and the highest of those chunks. */
  predicate RaisesHtna(cum: u32, m: Marks, r: Marks) {
    && |r.q| == |m.q|
    && Dist(cum, m.htna) <= Dist(cum, r.htna) <= |m.q|
    && (forall k :: 0 <= k < |m.q| && m.q[k].acked ==> r.q[k].acked)
    && (forall k :: 0 <= k < |m.q| && !m.q[k].acked && r.q[k].acked ==> k < Dist(cum, r.htna))
    && (Dist(cum, m.htna) < Dist(cum, r.htna) ==>
          !m.q[Dist(cum, r.htna) - 1].acked && r.q[Dist(cum, r.htna) - 1].acked)
  }

  lemma RaisesHtnaTwice(cum: u32, m: Marks, n: Marks, r: Marks)
    requires RaisesHtna(cum, m, n) && RaisesHtna(cum, n, r)
    ensures RaisesHtna(cum, m, r)
  {
    forall k | 0 <= k < |m.q| && !m.q[k].acked && r.q[k].acked ensures k < Dist(cum, r.htna) {
      if n.q[k].acked { assert k < Dist(cum, n.htna); }
    }
  }

  lemma MarkOneRaisesHtna(cum: u32, m: Marks, k: nat)
    requires k < |m.q| && Consecutive(cum, m.q) && Dist(cum, m.htna) <= |m.q|
    ensures RaisesHtna(cum, m, MarkOne(m, k)) && Consecutive(cum, MarkOne(m, k).q)
  {
    DistPlus(cum, k + 1);
  }

  lemma {:induction false} MarkRangeRaisesHtna(cum: u32, m: Marks, i: nat, end: nat)
    requires 1 <= i && end <= |m.q| && Consecutive(cum, m.q) && Dist(cum, m.htna) <= |m.q|
    ensures RaisesHtna(cum, m, MarkUpTo(m, i, end)) && Consecutive(cum, MarkUpTo(m, i, end).q)
    decreases end + 1 - i
  {
    if i <= end {
      var n := MarkOne(m, i - 1);
      MarkOneRaisesHtna(cum, m, i - 1);
      MarkRangeRaisesHtna(cum, n, i + 1, end);
      RaisesHtnaTwice(cum, m, n, MarkUpTo(m, i, end));
    }
  }

  lemma {:induction false} MarkGapsRaiseHtna(cum: u32, m: Marks, gaps: seq<Gap>)
    requires GapsFit(gaps, |m.q|) && Consecutive(cum, m.q) && Dist(cum, m.htna) <= |m.q|
    ensures RaisesHtna(cum, m, MarkGaps(m, gaps))
    decreases |gaps|
  {
    if gaps != [] {
      var n := MarkGap(m, gaps[0]);
      if gaps[0].start <= gaps[0].end { MarkRangeRaisesHtna(cum, m, gaps[0].start, gaps[0].end); }
      MarkGapsRaiseHtna(cum, n, gaps[1..]);
      RaisesHtnaTwice(cum, m, n, MarkGaps(m, gaps));
    }
  }

  lemma NewlyAckedMeaning(s: Sender, d: Sack, k: nat)
    requires Consecutive(s.cum, s.q) && Acceptable(s, d) && !Sna32GT(s.cum, d.cum)
    requires k < |s.q| - Dist(s.cum, d.cum)
    ensures NewlyAcked(s, d, k) <==> !Popped(s, d).q[k].acked && Marked(s, d).q[k].acked
  {
    MarkedExact(s, d);
    assert AckedWhen(s.q[k + Dist(s.cum, d.cum)], Marked(s, d).q[k], Covered(d.gaps, k + 1));
  }

  lemma MarkedRaisesHtna(s: Sender, d: Sack)
    requires Consecutive(s.cum, s.q) && Acceptable(s, d) && !Sna32GT(s.cum, d.cum)
    ensures var a := Popped(s, d);
            RaisesHtna(d.cum, Marks(a.q, a.nBytes, a.credit, d.cum), Marked(s, d))
  {
    var a := Popped(s, d);
    SuffixConsecutive(s.cum, s.q, d.cum);
    MarkGapsRaiseHtna(d.cum, Marks(a.q, a.nBytes, a.credit, d.cum), d.gaps);
  }

  /** The TSN the code takes as the highest newly acknowledged one is the highest that a gap block acknowledges for
      the first time, and the cumulative ack if there is none. */
  lemma HtnaMeaning(s: Sender, d: Sack)
    requires Consecutive(s.cum, s.q) && Acceptable(s, d) && !Sna32GT(s.cum, d.cum)
    ensures var h := Dist(d.cum, Marked(s, d).htna);
            && h <= |s.q| - Dist(s.cum, d.cum)
            && (forall k :: 0 <= k < |s.q| - Dist(s.cum, d.cum) && NewlyAcked(s, d, k) ==> k < h)
            && (h > 0 ==> NewlyAcked(s, d, h - 1))
  {
    var h, m := Dist(d.cum, Marked(s, d).htna), Marked(s, d);
    MarkedRaisesHtna(s, d);
    forall k | 0 <= k < |m.q| && NewlyAcked(s, d, k) ensures k < h { NewlyAckedMeaning(s, d, k); }
    if h > 0 { NewlyAckedMeaning(s, d, h - 1); }
  }

  // ---- Miss indicators and entering recovery ----

  predicate CountsMisses(heads: Heads, c: Chunk) {
    !c.acked && !Abandoned(heads, c) && c.missIndicator < 3
  }

  function MissedWhen(heads: Heads, c: Chunk, reported: bool): Chunk {
    if reported && CountsMisses(heads, c) then c.(missIndicator := c.missIndicator + 1) else c
  }

  predicate ThirdMiss(heads: Heads, c: Chunk) {
    CountsMisses(heads, c) && c.missIndicator == 2
  }

  lemma MissOneExact(m: Missing, k: nat, heads: Heads, htna: u32, mtu: u32)
    requires k < |m.q|
    ensures var r := MissOne(m, k, heads, htna, mtu);
            && r.q == m.q[k := MissedWhen(heads, m.q[k], true)]
            && r.cc.inFastRecovery == (m.cc.inFastRecovery || ThirdMiss(heads, m.q[k]))
            && r.cc.willRetransmitFast
               == (m.cc.willRetransmitFast || (!m.cc.inFastRecovery && ThirdMiss(heads, m.q[k])))
  {}

  /** Each chunk in the range is counted missing once; the third miss of any of them starts recovery. */
  lemma {:induction false} MissRangeExact(m: Missing, k: nat, n: nat, heads: Heads, htna: u32, mtu: u32)
    requires n <= |m.q|
    ensures var r := MissRange(m, k, n, heads, htna, mtu);
            var third := exists i :: k <= i < n && ThirdMiss(heads, m.q[i]);
            && (forall i :: 0 <= i < |m.q| ==> r.q[i] == MissedWhen(heads, m.q[i], k <= i < n))
            && r.cc.inFastRecovery == (m.cc.inFastRecovery || third)
            && r.cc.willRetransmitFast == (m.cc.willRetransmitFast || (!m.cc.inFastRecovery && third))
    decreases n - k
  {
    if k < n {
      var m1 := MissOne(m, k, heads, htna, mtu);
      MissOneExact(m, k, heads, htna, mtu);
      MissRangeExact(m1, k + 1, n, heads, htna, mtu);
      assert forall i :: k < i < n ==> m1.q[i] == m.q[i];
    }
  }

  /** Outside recovery the chunks below the highest newly acknowledged TSN are reported missing; in recovery all
      are, by a SACK that moves the ack point. */
  predicate Reported(inFastRecovery: bool, advanced: bool, h: nat, k: nat) {
    if inFastRecovery then advanced else k + 1 < h
  }

  predicate AnyThirdMiss(q: seq<Chunk>, heads: Heads, inFastRecovery: bool, advanced: bool, h: nat) {
    exists i :: 0 <= i < |q| && Reported(inFastRecovery, advanced, h, i) && ThirdMiss(heads, q[i])
  }

  lemma FastRetransmissionExact(m: Missing, cum: u32, heads: Heads, htna: u32, advanced: bool, mtu: u32)
    requires Dist(cum, htna) <= |m.q|
    ensures var r := FastRetransmission(m, cum, heads, htna, advanced, mtu);
            var third := AnyThirdMiss(m.q, heads, m.cc.inFastRecovery, advanced, Dist(cum, htna));
            && (forall i :: 0 <= i < |m.q| ==>
                  r.q[i] == MissedWhen(heads, m.q[i], Reported(m.cc.inFastRecovery, advanced, Dist(cum, htna), i)))
            && r.cc.inFastRecovery == (m.cc.inFastRecovery || third)
            && r.cc.willRetransmitFast == (m.cc.willRetransmitFast || (!m.cc.inFastRecovery && third)
                                           || (advanced && r.cc.inFastRecovery))
  {
    MissRangeExact(m, 0, MissCount(cum, m, htna), heads, htna, mtu);
  }

  /** The SACK reports position `k` missing: it acknowledges a later chunk for the first time, or, while recovery goes
      on, it moves the ack point. */
  predicate ReportsMissing(s: Sender, d: Sack, k: nat) {
    if StaysInRecovery(s, d) then s.cum != d.cum
    else exists j :: k < j < |s.q| - Dist(s.cum, d.cum) && NewlyAcked(s, d, j)
  }

  /** ... and the chunk there counts it. */
  predicate Misses(s: Sender, d: Sack, k: nat)
    requires k + Dist(s.cum, d.cum) < |s.q|
  {
    var c := s.q[k + Dist(s.cum, d.cum)];
    && !c.acked && !Covered(d.gaps, k + 1) && !Abandoned(s.heads, c) && c.missIndicator < 3
    && ReportsMissing(s, d, k)
  }

  lemma ReportMeaning(s: Sender, d: Sack, k: nat)
    requires Accepted(s, d) && k < |s.q| - Dist(s.cum, d.cum)
    ensures ReportsMissing(s, d, k) <==>
              Reported(Grown(s, d).inFastRecovery, s.cum != d.cum, Dist(d.cum, Marked(s, d).htna), k)
  {
    GrownRecovery(s, d);
    HtnaMeaning(s, d);
  }

  lemma PositionMissed(s: Sender, d: Sack, k: nat)
    requires Accepted(s, d) && k < |s.q| - Dist(s.cum, d.cum)
    ensures var m := Marked(s, d);
            && m.q[k].missIndicator == s.q[k + Dist(s.cum, d.cum)].missIndicator
            && (Misses(s, d, k) <==>
                  && Reported(Grown(s, d).inFastRecovery, s.cum != d.cum, Dist(d.cum, m.htna), k)
                  && CountsMisses(s.heads, m.q[k]))
  {
    ReportMeaning(s, d, k);
    MarkedExact(s, d);
    assert AckedWhen(s.q[k + Dist(s.cum, d.cum)], Marked(s, d).q[k], Covered(d.gaps, k + 1));
  }

  /** Some chunk is missed for the third time. */
  predicate MissesThrice(s: Sender, d: Sack) {
    var n := Dist(s.cum, d.cum);
    exists k :: 0 <= k < |s.q| - n && Misses(s, d, k) && s.q[k + n].missIndicator == 2
  }

  lemma ThirdMissMeaning(s: Sender, d: Sack, m: Marks, inFastRecovery: bool)
    requires Accepted(s, d) && m == Marked(s, d) && inFastRecovery == Grown(s, d).inFastRecovery
    ensures MissesThrice(s, d) <==>
              AnyThirdMiss(m.q, s.heads, inFastRecovery, s.cum != d.cum, Dist(d.cum, m.htna))
  {
    var h, advanced := Dist(d.cum, m.htna), s.cum != d.cum;
    if MissesThrice(s, d) {
      var k :| 0 <= k < |m.q| && Misses(s, d, k) && s.q[k + Dist(s.cum, d.cum)].missIndicator == 2;
      PositionMissed(s, d, k);
      assert Reported(inFastRecovery, advanced, h, k) && ThirdMiss(s.heads, m.q[k]);
    }
    if AnyThirdMiss(m.q, s.heads, inFastRecovery, advanced, h) {
      var k :| 0 <= k < |m.q| && Reported(inFastRecovery, advanced, h, k) && ThirdMiss(s.heads, m.q[k]);
      PositionMissed(s, d, k);
      assert Misses(s, d, k);
    }
  }

  lemma ReactedMisses(s: Sender, d: Sack)
    requires Accepted(s, d)
    ensures var n, m, f := Dist(s.cum, d.cum), Marked(s, d), Reacted(s, d);
            && (forall k :: 0 <= k < |f.q| ==>
                  f.q[k].missIndicator == s.q[k + n].missIndicator + if Misses(s, d, k) then 1 else 0)
            && f.cc.inFastRecovery == (StaysInRecovery(s, d) || MissesThrice(s, d))
            && f.cc.willRetransmitFast
               == (s.cc.willRetransmitFast || (!StaysInRecovery(s, d) && MissesThrice(s, d))
                   || (s.cum != d.cum && f.cc.inFastRecovery))
  {
    var m, g := Marked(s, d), Grown(s, d);
    GrownRecovery(s, d);
    FastRetransmissionExact(Missing(m.q, g), d.cum, s.heads, m.htna, s.cum != d.cum, s.mtu);
    ThirdMissMeaning(s, d, m, g.inFastRecovery);
    forall k | 0 <= k < |m.q| { PositionMissed(s, d, k); }
  }

  /** A miss indicator rises by one exactly if its chunk is missed, and is otherwise kept. The SACK starts recovery
      exactly if some chunk is missed for the third time; then, and when a SACK in recovery moves the ack point,
      a fast retransmission is due. */
  lemma SackCountsMisses(s: Sender, d: Sack)
    requires Accepted(s, d)
    ensures var n, r := Dist(s.cum, d.cum), HandleSack(s, d).s;
            && |r.q| == |s.q| - n
            && (forall k :: 0 <= k < |r.q| ==>
                  r.q[k].missIndicator == s.q[k + n].missIndicator + if Misses(s, d, k) then 1 else 0)
    ensures EntersRecovery(s, d) <==> !StaysInRecovery(s, d) && MissesThrice(s, d)
    ensures var cc := HandleSack(s, d).s.cc;
            cc.willRetransmitFast <==>
              s.cc.willRetransmitFast || EntersRecovery(s, d) || (cc.inFastRecovery && s.cum != d.cum)
  {
    ReactedMisses(s, d);
  }

  // ---- Receiver window, timer and FORWARD TSN ----

  lemma NewRwndMeaning(nBytes: nat, advertised: u32)
    requires nBytes < 0x1_0000_0000
    ensures NewRwnd(nBytes, advertised) == Max(advertised - nBytes, 0)
  {
    U32OfSmall(nBytes);
  }

  lemma BytesLeft(s: Sender, d: Sack)
    requires Accepted(s, d)
    ensures 0 <= Marked(s, d).nBytes <= s.nBytes
  {
    MarkedConserves(s, d, None);
  }

  /** `adv` is the furthest TSN such that everything in flight up to it is abandoned. */
  predicate FurthestAbandoned(cum: u32, q: seq<Chunk>, heads: Heads, adv: u32) {
    AdvancedOk(cum, q, heads, adv) && (Dist(cum, adv) < |q| ==> !Abandoned(heads, q[Dist(cum, adv)]))
  }

  /** The peer's window is what it advertises less what is still in flight; the retransmission timer runs as long as
      something is, once the ack point has moved; and with partial reliability the forward point moves as far as it
      can, and a FORWARD TSN is due as soon as the oldest chunk in flight is abandoned. */
  lemma SackUpdatesSender(s: Sender, d: Sack)
    requires Accepted(s, d) && s.nBytes < 0x1_0000_0000
    ensures var r := HandleSack(s, d).s;
            && r.cum == d.cum && r.pending == s.pending
            && r.rwnd == Max(d.rwnd - r.nBytes, 0)
            && r.t3Running == (if s.cum != d.cum then r.q != [] else s.t3Running)
            && (s.useForwardTSN ==> FurthestAbandoned(r.cum, r.q, r.heads, r.adv))
            && r.willSendForwardTSN == (s.willSendForwardTSN
                                        || (s.useForwardTSN && r.q != [] && Abandoned(r.heads, r.q[0])))
  {
    BytesAckedAreCredited(s, d);
    BytesLeft(s, d);
    NewRwndMeaning(Marked(s, d).nBytes, d.rwnd);
    if s.useForwardTSN { ForwardIsDue(s, d, Reacted(s, d).q); }
  }

  lemma ForwardIsDue(s: Sender, d: Sack, q: seq<Chunk>)
    requires Accepted(s, d) && s.useForwardTSN && q == Reacted(s, d).q
    ensures var r := HandleSack(s, d).s;
            && FurthestAbandoned(d.cum, q, s.heads, r.adv)
            && (Sna32GT(r.adv, d.cum) <==> q != [] && Abandoned(s.heads, q[0]))
  {
    var adv := if Sna32LT(s.adv, d.cum) then d.cum else s.adv;
    MarkedExact(s, d);
    ReactedFacts(s, d);
    forall i | 0 <= i < |q| ensures q[i].msg == s.q[i + Dist(s.cum, d.cum)].msg {
      assert OnlyMissed(Marked(s, d).q[i], q[i]);
    }
    AdvancedAfterAck(s, d, q);
    AdvanceKeeps(d.cum, q, s.heads, adv);
    ComparisonsAreDistances(HandleSack(s, d).s.adv, d.cum);
  }
}
