/** What each kind of transmission keeps and computes. */
module SctpTransmitProofs {
  import opened Serial
  import opened Wrappers
  import opened SctpChunks
  import opened SctpSender
  import opened SctpTransmit
  import opened SctpSackProofs

  // ---- New data ----

  lemma AdvancedSurvives(cum: u32, q: seq<Chunk>, q': seq<Chunk>, heads: Heads, heads': Heads, adv: u32)
    requires AdvancedOk(cum, q, heads, adv) && HeadsGrow(heads, heads') && |q| <= |q'|
    requires forall i :: 0 <= i < |q| ==> q'[i].msg == q[i].msg
    ensures AdvancedOk(cum, q', heads', adv)
  {
    forall i | 0 <= i < Dist(cum, adv) ensures Abandoned(heads', q'[i]) {
      assert Abandoned(heads, q[i]);
    }
  }

  lemma MoveKeepsInv(s: Sender, now: int)
    requires FlightInv(s) && Peek(s.pending).Some? && Peek(s.pending).value.len > 0 && |s.q| < FLIGHT_LIMIT
    ensures var r := MoveToInflight(s, now); FlightInv(r) && HeadsGrow(s.heads, r.heads)
  {
    PopFollowsMessages(s.pending);
    var c := Peek(s.pending).value.(tsn := NextTSN(s), since := now, nSent := 1);
    BytesAppend(s.q, c, None);
    MovedHeads(s.useForwardTSN, s.streams, s.heads, c, now);
    var r := MoveToInflight(s, now);
    AppendedInvs(s.cum, s.q, c, s.cc.inFastRecovery, s.cc.fastRecoverExitPoint);
    if s.useForwardTSN { AdvancedSurvives(s.cum, s.q, r.q, s.heads, r.heads, s.adv); }
  }

  lemma AppendedInvs(cum: u32, q: seq<Chunk>, c: Chunk, inFastRecovery: bool, exit: u32)
    requires Consecutive(cum, q) && ChunksOk(q) && |q| < FLIGHT_LIMIT && c.tsn == Plus(cum, |q| + 1) && ChunkOk(c)
    requires RecoveryOk(cum, |q|, inFastRecovery, exit)
    ensures Consecutive(cum, q + [c]) && ChunksOk(q + [c]) && RecoveryOk(cum, |q + [c]|, inFastRecovery, exit)
  {}

  lemma MovedHeads(use: bool, streams: map<u16, Reliability>, heads: Heads, c: Chunk, now: int)
    ensures HeadsGrow(heads, CheckReliability(use, streams, SetAllInflight(heads, c), c, now))
  {
    var heads' := SetAllInflight(heads, c);
    assert HeadsGrow(heads, heads');
    assert HeadsGrow(heads', CheckReliability(use, streams, heads', c, now));
  }

  /** What is appended to the queue has been sent once and not acknowledged. */
  predicate Appended(q: seq<Chunk>, q': seq<Chunk>) {
    q <= q' && forall i :: |q| <= i < |q'| ==> !q'[i].acked && q'[i].nSent == 1
  }

  lemma AppendedTwice(q: seq<Chunk>, q': seq<Chunk>, q'': seq<Chunk>)
    requires Appended(q, q') && Appended(q', q'')
    ensures Appended(q, q'')
  {}

  lemma StepAppends(f: Filled, now: int)
    requires !Blocked(f.s) && |f.s.q| <= FLIGHT_LIMIT && PendingWF(f.s.pending)
    ensures Appended(f.s.q, FillStep(f, now).s.q)
  {
    PopFollowsMessages(f.s.pending);
  }

  lemma {:induction false} FillAppends(f: Filled, now: int)
    requires PendingWF(f.s.pending) && |f.s.q| + PendingSize(f.s.pending) <= FLIGHT_LIMIT
    ensures Appended(f.s.q, Fill(f, now).s.q)
    decreases PendingSize(f.s.pending)
  {
    if !Blocked(f.s) {
      StepPops(f, now);
      StepAppends(f, now);
      FillAppends(FillStep(f, now), now);
      AppendedTwice(f.s.q, FillStep(f, now).s.q, Fill(f, now).s.q);
    }
  }

  lemma PopPendingAppends(s: Sender, now: int)
    requires PendingWF(s.pending) && |s.q| + PendingSize(s.pending) <= FLIGHT_LIMIT
    ensures Appended(s.q, PopPending(s, now).s.q)
  {
    FillAppends(Filled(s, []), now);
    var s1 := Fill(Filled(s, []), now).s;
    if s1.q == [] && Peek(s1.pending).Some? { PopFollowsMessages(s1.pending); }
  }

  lemma StepKeepsInv(f: Filled, now: int)
    requires FlightInv(f.s) && !Blocked(f.s) && |f.s.q| < FLIGHT_LIMIT
    ensures var r := FillStep(f, now).s; FlightInv(r) && HeadsGrow(f.s.heads, r.heads)
  {
    var c := Peek(f.s.pending).value;
    if c.len == 0 { PopFollowsMessages(f.s.pending); }
    else { MoveKeepsInv(f.s.(rwnd := f.s.rwnd - c.len), now); }
  }

  lemma {:induction false} FillKeepsInv(f: Filled, now: int)
    requires FlightInv(f.s) && |f.s.q| + PendingSize(f.s.pending) <= FLIGHT_LIMIT
    ensures var r := Fill(f, now).s; FlightInv(r) && HeadsGrow(f.s.heads, r.heads)
    ensures var r := Fill(f, now).s; r.t3Running == f.s.t3Running && |r.q| >= |f.s.q|
    decreases PendingSize(f.s.pending)
  {
    if !Blocked(f.s) {
      StepPops(f, now);
      StepKeepsInv(f, now);
      FillKeepsInv(FillStep(f, now), now);
    }
  }

  /** Within the windows: the flight, if it grew, fits cwnd; rwnd paid for exactly what entered. */
  predicate Disciplined(s: Sender, r: Sender) {
    && r.nBytes + r.rwnd == s.nBytes + s.rwnd && s.nBytes <= r.nBytes && s.q <= r.q
    && (if |r.q| > |s.q| then r.nBytes <= s.cc.cwnd else r.nBytes == s.nBytes)
    && r == s.(q := r.q, nBytes := r.nBytes, heads := r.heads, pending := r.pending, rwnd := r.rwnd)
  }

  lemma StepDiscipline(f: Filled, now: int)
    requires !Blocked(f.s) && |f.s.q| <= FLIGHT_LIMIT
    requires 0 <= f.s.nBytes && f.s.nBytes + f.s.rwnd < 0x1_0000_0000
    ensures var r := FillStep(f, now).s; Disciplined(f.s, r) && r.nBytes >= f.s.nBytes
  {
    U32OfSmall(f.s.nBytes);
    var n := Peek(f.s.pending).value.len;
    if n > 0 { U32OfSmall(f.s.nBytes + n); }
  }

  /** New data enters only within both windows: the flight stays within cwnd, and rwnd pays for exactly the
      bytes that entered, so it never underflows. */
  lemma {:induction false} FillDiscipline(f: Filled, now: int)
    requires PendingWF(f.s.pending) && |f.s.q| + PendingSize(f.s.pending) <= FLIGHT_LIMIT
    requires 0 <= f.s.nBytes && f.s.nBytes + f.s.rwnd < 0x1_0000_0000
    ensures Disciplined(f.s, Fill(f, now).s)
    decreases PendingSize(f.s.pending)
  {
    if !Blocked(f.s) {
      StepPops(f, now);
      StepDiscipline(f, now);
      FillDiscipline(FillStep(f, now), now);
    }
  }

  lemma PopPendingKeepsInv(s: Sender, now: int)
    requires Inv(s) && |s.q| + PendingSize(s.pending) <= FLIGHT_LIMIT
    ensures var r := PopPending(s, now).s; Inv(r) && HeadsGrow(s.heads, r.heads)
  {
    FillKeepsInv(Filled(s, []), now);
    var s1 := Fill(Filled(s, []), now).s;
    if s1.q == [] && Peek(s1.pending).Some? { MoveKeepsInv(s1, now); }
  }

  /** What enters flight keeps it within cwnd and is paid for by rwnd, except for a single probe, sent only
      when nothing at all was in flight and the windows held it back. */
  lemma PopPendingDiscipline(s: Sender, now: int)
    requires PendingWF(s.pending) && |s.q| + PendingSize(s.pending) <= FLIGHT_LIMIT
    requires 0 <= s.nBytes && s.nBytes + s.rwnd < 0x1_0000_0000 && (s.q == [] ==> s.nBytes == 0)
    ensures var r := PopPending(s, now).s;
            || Disciplined(s, r.(t3Running := s.t3Running))
            || (s.q == [] && |r.q| == 1 && r.rwnd == s.rwnd && r.nBytes == r.q[0].len
                && (r.nBytes > s.cc.cwnd || r.nBytes > s.rwnd))
  {
    FillDiscipline(Filled(s, []), now);
    var s1 := Fill(Filled(s, []), now).s;
    if s1.q == [] && Peek(s1.pending).Some? {
      U32OfSmall(Peek(s1.pending).value.len);
    }
  }

  // ---- Retransmission rounds ----

  /** `d` is `c`, or `c` sent once more. */
  predicate SameOrResent(c: Chunk, d: Chunk) {
    || d == c
    || (!c.acked && d == c.(nSent := c.nSent + 1, retransmit := d.retransmit) && (d.retransmit ==> c.retransmit))
  }

  /** The chunks whose transmission count rose, in TSN order. */
  function Risen(q: seq<Chunk>, q': seq<Chunk>): seq<Chunk>
    requires |q| == |q'|
    decreases |q|
  {
    if q == [] then []
    else (if q'[0].nSent != q[0].nSent then [q'[0]] else []) + Risen(q[1..], q'[1..])
  }

  lemma {:induction false} RisenSplit(q: seq<Chunk>, q': seq<Chunk>, i: nat)
    requires |q| == |q'| && i < |q|
    ensures Risen(q[..i + 1], q'[..i + 1]) == Risen(q[..i], q'[..i]) + if q'[i].nSent != q[i].nSent then [q'[i]] else []
    decreases |q|
  {
    if i > 0 {
      RisenSplit(q[1..], q'[1..], i - 1);
      assert q[..i + 1][1..] == q[1..][..i] && q[..i][1..] == q[1..][..i - 1];
      assert q'[..i + 1][1..] == q'[1..][..i] && q'[..i][1..] == q'[1..][..i - 1];
    }
  }

  /** A round in progress: positions before `i` are settled, the others untouched, and the picks so far are
      exactly the chunks sent again. */
  ghost predicate Round(q: seq<Chunk>, heads: Heads, r: Resend, i: nat) {
    && i <= |q| == |r.q|
    && (forall k :: 0 <= k < i ==> SameOrResent(q[k], r.q[k]))
    && (forall k :: i <= k < |q| ==> r.q[k] == q[k])
    && r.picks == Risen(q[..i], r.q[..i])
    && HeadsGrow(heads, r.heads)
  }

  lemma RoundSkip(q: seq<Chunk>, heads: Heads, r: Resend, i: nat)
    requires Round(q, heads, r, i) && i < |q|
    ensures Round(q, heads, r, i + 1)
  {
    RisenSplit(q, r.q, i);
  }

  lemma RoundSend(q: seq<Chunk>, heads: Heads, r: Resend, i: nat, cost: nat, t3: bool, s: Sender, now: int)
    requires Round(q, heads, r, i) && i < |q| && !q[i].acked
    ensures Round(q, heads, SendAgain(r, i, cost, t3, s, now), i + 1)
  {
    var r' := SendAgain(r, i, cost, t3, s, now);
    RisenSplit(q, r'.q, i);
    assert r'.q[..i] == r.q[..i];
  }

  lemma {:induction false} RoundEnd(q: seq<Chunk>, heads: Heads, r: Resend, i: nat)
    requires Round(q, heads, r, i)
    ensures Round(q, heads, r, |q|)
    decreases |q| - i
  {
    if i < |q| {
      RoundSkip(q, heads, r, i);
      RoundEnd(q, heads, r, i + 1);
    }
  }

  /** Bytes offered by a batch. */
  function Cost(picks: seq<Chunk>, overhead: nat): nat {
    if picks == [] then 0 else Cost(picks[..|picks| - 1], overhead) + overhead + picks[|picks| - 1].len
  }

  lemma CostLast(picks: seq<Chunk>, c: Chunk, overhead: nat)
    ensures Cost(picks + [c], overhead) == Cost(picks, overhead) + overhead + c.len
  {
    assert (picks + [c])[..|picks|] == picks;
  }

  /** A T3 batch is, in TSN order, exactly the chunks sent again. */
  lemma {:induction false} RetransmitRound(q: seq<Chunk>, heads: Heads, r: Resend, i: nat, s: Sender, now: int)
    requires Round(q, heads, r, i) && ChunksOk(q)
    ensures Round(q, heads, RetransmitFrom(r, i, s, now), |q|)
    decreases |q| - i
  {
    if i < |q| {
      var c, r1 := r.q[i], r;
      if !c.retransmit {
        RoundSkip(q, heads, r, i);
      } else {
        assert ChunkOk(q[i]);
        RoundSend(q, heads, r, i, c.len, true, s, now);
        if i == 0 && s.rwnd < c.len {
          RoundEnd(q, heads, SendAgain(r, i, c.len, true, s, now), 1);
          return;
        } else if r.bytes + c.len > Min(s.cc.cwnd, s.rwnd) {
          RoundEnd(q, heads, r, i);
          return;
        }
        r1 := SendAgain(r, i, c.len, true, s, now);
      }
      RetransmitRound(q, heads, r1, i + 1, s, now);
    }
  }

  /** A batch stays within both windows, or is one probe: the oldest chunk, when the peer's window cannot hold it. */
  predicate FitsWindows(s: Sender, q: seq<Chunk>, picks: seq<Chunk>) {
    || Cost(picks, 0) <= Min(s.cc.cwnd, s.rwnd)
    || (|picks| == 1 && q != [] && picks[0].tsn == q[0].tsn && s.rwnd < q[0].len)
  }

  lemma {:induction false} RetransmitCosts(r: Resend, i: nat, s: Sender, now: int)
    requires r.bytes == Cost(r.picks, 0)
    ensures var r' := RetransmitFrom(r, i, s, now); r'.bytes == Cost(r'.picks, 0)
    decreases |r.q| - i
  {
    if i < |r.q| {
      var c := r.q[i];
      if !c.retransmit {
        RetransmitCosts(r, i + 1, s, now);
      } else {
        var again := SendAgain(r, i, c.len, true, s, now);
        CostLast(r.picks, again.q[i], 0);
        if !(i == 0 && s.rwnd < c.len) && r.bytes + c.len <= Min(s.cc.cwnd, s.rwnd) {
          RetransmitCosts(again, i + 1, s, now);
        }
      }
    }
  }

  lemma {:induction false} RetransmitBounded(r: Resend, i: nat, s: Sender, now: int)
    requires i > 0 && r.bytes <= Min(s.cc.cwnd, s.rwnd)
    ensures RetransmitFrom(r, i, s, now).bytes <= Min(s.cc.cwnd, s.rwnd)
    decreases |r.q| - i
  {
    if i < |r.q| {
      var c := r.q[i];
      if !c.retransmit {
        RetransmitBounded(r, i + 1, s, now);
      } else if r.bytes + c.len <= Min(s.cc.cwnd, s.rwnd) {
        RetransmitBounded(SendAgain(r, i, c.len, true, s, now), i + 1, s, now);
      }
    }
  }

  lemma RetransmitFits(s: Sender, now: int)
    ensures FitsWindows(s, s.q, Retransmit(s, now).picks)
  {
    var r0 := Resend(s.q, s.heads, 0, []);
    RetransmitCosts(r0, 0, s, now);
    if s.q != [] {
      var c := s.q[0];
      if !c.retransmit {
        RetransmitBounded(r0, 1, s, now);
      } else if c.len <= Min(s.cc.cwnd, s.rwnd) {
        RetransmitBounded(SendAgain(r0, 0, c.len, true, s, now), 1, s, now);
      }
    }
  }

  /** Only a chunk reported missing three times and transmitted just once is fast-retransmitted. */
  predicate FastEligible(c: Chunk, d: Chunk) {
    d.nSent != c.nSent ==>
      c.missIndicator >= 3 && c.nSent <= 1 && d.nSent == c.nSent + 1 && d.retransmit == c.retransmit
  }

  lemma {:induction false} FastPicksEligible(q: seq<Chunk>, r: Resend, i: nat, s: Sender, now: int)
    requires |q| == |r.q|
    requires forall k :: 0 <= k < |q| ==> if k < i then FastEligible(q[k], r.q[k]) else r.q[k] == q[k]
    ensures var r' := FastFrom(r, i, s, now); forall k :: 0 <= k < |q| ==> FastEligible(q[k], r'.q[k])
    decreases |q| - i
  {
    if i < |q| {
      var c := r.q[i];
      if c.acked || Abandoned(r.heads, c) || c.nSent > 1 || c.missIndicator < 3 {
        FastPicksEligible(q, r, i + 1, s, now);
      } else if s.mtu >= r.bytes + DATA_CHUNK_HEADER_SIZE + c.len {
        FastPicksEligible(q, SendAgain(r, i, DATA_CHUNK_HEADER_SIZE + c.len, false, s, now), i + 1, s, now);
      }
    }
  }

  lemma {:induction false} FastFitsMtu(r: Resend, i: nat, s: Sender, now: int)
    requires r.bytes == COMMON_HEADER_SIZE + Cost(r.picks, DATA_CHUNK_HEADER_SIZE)
    requires r.picks == [] || r.bytes <= s.mtu
    ensures var r' := FastFrom(r, i, s, now);
            r'.picks == [] || COMMON_HEADER_SIZE + Cost(r'.picks, DATA_CHUNK_HEADER_SIZE) <= s.mtu
    decreases |r.q| - i
  {
    if i < |r.q| {
      var c := r.q[i];
      if c.acked || Abandoned(r.heads, c) || c.nSent > 1 || c.missIndicator < 3 {
        FastFitsMtu(r, i + 1, s, now);
      } else if s.mtu >= r.bytes + DATA_CHUNK_HEADER_SIZE + c.len {
        var r1 := SendAgain(r, i, DATA_CHUNK_HEADER_SIZE + c.len, false, s, now);
        CostLast(r.picks, r1.q[i], DATA_CHUNK_HEADER_SIZE);
        FastFitsMtu(r1, i + 1, s, now);
      }
    }
  }

  lemma FastStep(q: seq<Chunk>, heads: Heads, r: Resend, i: nat, s: Sender, now: int) returns (r1: Resend, stop: bool)
    requires Round(q, heads, r, i) && i < |q|
    ensures FastFrom(r, i, s, now) == if stop then r1 else FastFrom(r1, i + 1, s, now)
    ensures Round(q, heads, r1, if stop then |q| else i + 1)
  {
    var c := r.q[i];
    r1, stop := r, false;
    if c.acked || Abandoned(r.heads, c) || c.nSent > 1 || c.missIndicator < 3 {
      RoundSkip(q, heads, r, i);
    } else if s.mtu < r.bytes + DATA_CHUNK_HEADER_SIZE + c.len {
      stop := true;
      RoundEnd(q, heads, r, i);
    } else {
      RoundSend(q, heads, r, i, DATA_CHUNK_HEADER_SIZE + c.len, false, s, now);
      r1 := SendAgain(r, i, DATA_CHUNK_HEADER_SIZE + c.len, false, s, now);
    }
  }

  lemma {:induction false} FastRound(q: seq<Chunk>, heads: Heads, r: Resend, i: nat, s: Sender, now: int)
    requires Round(q, heads, r, i)
    ensures Round(q, heads, FastFrom(r, i, s, now), |q|)
    decreases |q| - i
  {
    if i < |q| {
      var r1, stop := FastStep(q, heads, r, i, s, now);
      if !stop { FastRound(q, heads, r1, i + 1, s, now); }
    }
  }

  lemma {:induction false} ResentBytes(q: seq<Chunk>, q': seq<Chunk>, only: Option<u16>)
    requires |q| == |q'| && forall i :: 0 <= i < |q| ==> SameOrResent(q[i], q'[i])
    ensures Bytes(q', only) == Bytes(q, only)
  {
    if q != [] {
      assert SameOrResent(q[0], q'[0]);
      forall i | 0 <= i < |q| - 1 ensures SameOrResent(q[1..][i], q'[1..][i]) {
        assert SameOrResent(q[i + 1], q'[i + 1]);
      }
      ResentBytes(q[1..], q'[1..], only);
    }
  }

  lemma ResentKeepsInv(s: Sender, r: Resend)
    requires Inv(s) && Round(s.q, s.heads, r, |s.q|)
    ensures Inv(Resent(s, r))
  {
    ResentBytes(s.q, r.q, None);
    forall i | 0 <= i < |s.q| ensures ChunkOk(r.q[i]) && r.q[i].tsn == s.q[i].tsn && r.q[i].msg == s.q[i].msg {
      assert SameOrResent(s.q[i], r.q[i]) && ChunkOk(s.q[i]);
    }
    if s.useForwardTSN { AdvancedSurvives(s.cum, s.q, r.q, s.heads, r.heads, s.adv); }
  }

  /** T3 retransmission keeps the invariant and respects the windows. */
  lemma RetransmitDiscipline(s: Sender, now: int)
    requires Inv(s)
    ensures var r := Retransmit(s, now);
            && Inv(Resent(s, r)) && Round(s.q, s.heads, r, |s.q|) && r.picks == Risen(s.q, r.q)
            && (|| Cost(r.picks, 0) <= Min(s.cc.cwnd, s.rwnd)
                || (|r.picks| == 1 && r.picks[0].tsn == s.q[0].tsn && s.rwnd < s.q[0].len))
  {
    var r0 := Resend(s.q, s.heads, 0, []);
    assert Round(s.q, s.heads, r0, 0);
    RetransmitRound(s.q, s.heads, r0, 0, s, now);
    RetransmitFits(s, now);
    var r := Retransmit(s, now);
    assert s.q[..|s.q|] == s.q && r.q[..|s.q|] == r.q;
    ResentKeepsInv(s, r);
  }

  /** Fast retransmission keeps the invariant, fits one packet within the MTU, and picks only chunks sent
      exactly once before, so that no chunk is ever fast-retransmitted twice. */
  lemma FastRetransmitDiscipline(s: Sender, now: int)
    requires Inv(s)
    ensures var r := FastRetransmit(s, now);
            && Inv(FastResent(s, r)) && Round(s.q, s.heads, r, |s.q|) && r.picks == Risen(s.q, r.q)
            && (r.picks == [] || COMMON_HEADER_SIZE + Cost(r.picks, DATA_CHUNK_HEADER_SIZE) <= s.mtu)
            && (forall k :: 0 <= k < |s.q| && r.q[k].nSent != s.q[k].nSent ==> s.q[k].nSent == 1 && r.q[k].nSent == 2)
  {
    var r0 := Resend(s.q, s.heads, COMMON_HEADER_SIZE, []);
    assert Round(s.q, s.heads, r0, 0);
    if s.cc.willRetransmitFast {
      FastRound(s.q, s.heads, r0, 0, s, now);
      FastPicksEligible(s.q, r0, 0, s, now);
      FastFitsMtu(r0, 0, s, now);
    } else {
      RoundEnd(s.q, s.heads, r0, 0);
    }
    var r := FastRetransmit(s, now);
    assert s.q[..|s.q|] == s.q && r.q[..|s.q|] == r.q;
    ResentKeepsInv(s, r);
    forall k | 0 <= k < |s.q| && r.q[k].nSent != s.q[k].nSent ensures s.q[k].nSent == 1 && r.q[k].nSent == 2 {
      assert ChunkOk(s.q[k]) && FastEligible(s.q[k], r.q[k]);
    }
  }

  // ---- T3 timeout ----

  lemma {:induction false} SameLenBytes(q: seq<Chunk>, q': seq<Chunk>, only: Option<u16>)
    requires |q| == |q'|
    requires forall i :: 0 <= i < |q| ==> q'[i].len == q[i].len && q'[i].streamIdentifier == q[i].streamIdentifier
    ensures Bytes(q', only) == Bytes(q, only)
  {
    if q != [] { SameLenBytes(q[1..], q'[1..], only); }
  }

  lemma TimeoutKeepsInv(s: Sender)
    requires Inv(s)
    ensures Inv(OnT3(s))
    ensures forall i :: 0 <= i < |s.q| ==>
              OnT3(s).q[i].retransmit == (s.q[i].retransmit || !(s.q[i].acked || Abandoned(s.heads, s.q[i])))
  {
    var r := OnT3(s);
    SameLenBytes(s.q, r.q, None);
    assert forall i :: 0 <= i < |s.q| ==> ChunkOk(s.q[i]);
    if s.useForwardTSN {
      AdvanceKeeps(s.cum, s.q, s.heads, s.adv);
      AdvancedSurvives(s.cum, s.q, r.q, s.heads, s.heads, r.adv);
    }
  }
}
