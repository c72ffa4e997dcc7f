/** Which chunks a transmission takes, and why it takes no more. */
module SctpBatches {
  import opened Serial
  import opened SctpChunks
  import opened SctpSender
  import opened SctpTransmit
  import opened SctpTransmitProofs
  import opened SctpSackProofs
  import opened SctpSackResponse

  // ---- Messages given up ----

  /** Message `m` is given up: it was before, or the policy of its stream expired for one of the chunks sent. */
  ghost predicate GivenUp(s: Sender, sent: seq<Chunk>, m: nat, now: int) {
    || HeadOf(s.heads, m).abandoned
    || exists i :: 0 <= i < |sent| && sent[i].msg == m && Expired(s.useForwardTSN, s.streams, sent[i], now)
  }

  /** `heads` is what sending those chunks again makes of the sender's messages. */
  ghost predicate HeadsAfter(s: Sender, heads: Heads, sent: seq<Chunk>, now: int) {
    forall m :: HeadOf(heads, m) == Head(GivenUp(s, sent, m, now), HeadOf(s.heads, m).allInflight)
  }

  lemma GivenUpNext(s: Sender, sent: seq<Chunk>, c: Chunk, m: nat, now: int)
    ensures GivenUp(s, sent + [c], m, now) <==>
              GivenUp(s, sent, m, now) || (c.msg == m && Expired(s.useForwardTSN, s.streams, c, now))
  {
    var more := sent + [c];
    assert more[|sent|] == c && forall i :: 0 <= i < |sent| ==> more[i] == sent[i];
  }

  lemma HeadsAfterNext(s: Sender, heads: Heads, sent: seq<Chunk>, c: Chunk, now: int)
    requires HeadsAfter(s, heads, sent, now)
    ensures HeadsAfter(s, CheckReliability(s.useForwardTSN, s.streams, heads, c, now), sent + [c], now)
  {
    var heads' := CheckReliability(s.useForwardTSN, s.streams, heads, c, now);
    forall m ensures HeadOf(heads', m) == Head(GivenUp(s, sent + [c], m, now), HeadOf(s.heads, m).allInflight) {
      GivenUpNext(s, sent, c, m, now);
    }
  }

  // ---- T3 retransmission ----

  /** A chunk as a T3 batch carries it: sent once more, and no longer marked. */
  function Again(c: Chunk): Chunk { c.(retransmit := false, nSent := c.nSent + 1) }

  /** The marked chunks of `q`, in order, as a batch carries them. */
  function Due(q: seq<Chunk>): seq<Chunk> {
    if q == [] then []
    else Due(q[..|q| - 1]) + if q[|q| - 1].retransmit then [Again(q[|q| - 1])] else []
  }

  lemma DueNext(q: seq<Chunk>, i: nat)
    requires i < |q|
    ensures Due(q[..i + 1]) == Due(q[..i]) + if q[i].retransmit then [Again(q[i])] else []
  {
    assert q[..i + 1][..i] == q[..i];
  }

  /** The first `n` positions of the queue have been dealt with: every marked chunk among them is in the batch. */
  ghost predicate Took(s: Sender, r: Resend, n: nat, now: int) {
    && n <= |s.q| == |r.q|
    && r.picks == Due(s.q[..n]) && r.bytes == Cost(r.picks, 0)
    && (forall k :: 0 <= k < |s.q| ==> r.q[k] == if k < n && s.q[k].retransmit then Again(s.q[k]) else s.q[k])
    && HeadsAfter(s, r.heads, r.picks, now)
  }

  lemma TookSkip(s: Sender, r: Resend, n: nat, now: int)
    requires Took(s, r, n, now) && n < |s.q| && !s.q[n].retransmit
    ensures Took(s, r, n + 1, now)
  {
    DueNext(s.q, n);
  }

  lemma TookSend(s: Sender, r: Resend, n: nat, now: int)
    requires Took(s, r, n, now) && n < |s.q| && s.q[n].retransmit
    ensures Took(s, SendAgain(r, n, s.q[n].len, true, s, now), n + 1, now)
  {
    DueNext(s.q, n);
    CostLast(r.picks, Again(s.q[n]), 0);
    HeadsAfterNext(s, r.heads, r.picks, Again(s.q[n]), now);
  }

  /** Why a T3 batch ends after `n` positions: it is the whole queue, or the next chunk is marked and does not fit both
      windows, or the batch is a probe of the oldest chunk, sent alone because the peer's window cannot hold it. */
  predicate T3Ends(s: Sender, picks: seq<Chunk>, n: nat)
    requires n <= |s.q|
  {
    || n == |s.q|
    || (s.q[n].retransmit && Cost(picks, 0) + s.q[n].len > Min(s.cc.cwnd, s.rwnd) && (n == 0 ==> s.q[n].len <= s.rwnd))
    || (n == 1 && s.q[0].retransmit && s.rwnd < s.q[0].len)
  }

  lemma RetransmitTakesNext(s: Sender, r: Resend, i: nat, now: int) returns (r1: Resend, n: nat, stop: bool)
    requires Took(s, r, i, now) && i < |s.q|
    ensures RetransmitFrom(r, i, s, now) == if stop then r1 else RetransmitFrom(r1, i + 1, s, now)
    ensures Took(s, r1, n, now) && (if stop then T3Ends(s, r1.picks, n) else n == i + 1)
  {
    var c := s.q[i];
    r1, n, stop := r, i + 1, false;
    if !c.retransmit {
      TookSkip(s, r, i, now);
    } else if i > 0 || c.len <= s.rwnd {
      if r.bytes + c.len > Min(s.cc.cwnd, s.rwnd) {
        n, stop := i, true;
      } else {
        TookSend(s, r, i, now);
        r1 := SendAgain(r, i, c.len, true, s, now);
      }
    } else {
      TookSend(s, r, i, now);
      r1, stop := SendAgain(r, i, c.len, true, s, now), true;
    }
  }

  lemma {:induction false} RetransmitTakes(s: Sender, r: Resend, i: nat, now: int) returns (n: nat)
    requires Took(s, r, i, now)
    ensures var r' := RetransmitFrom(r, i, s, now); Took(s, r', n, now) && T3Ends(s, r'.picks, n)
    decreases |s.q| - i
  {
    n := i;
    if i < |s.q| {
      var r1, n1, stop := RetransmitTakesNext(s, r, i, now);
      if stop { n := n1; } else { n := RetransmitTakes(s, r1, i + 1, now); }
    }
  }

  /** A T3 batch is maximal: it holds, in order, exactly the marked chunks among the first `n` of the queue, and it
      ends there for a reason. Messages are given up as the policies of the chunks sent say. */
  lemma RetransmitIsMaximal(s: Sender, now: int) returns (n: nat)
    ensures n <= |s.q| && Retransmit(s, now).picks == Due(s.q[..n]) && T3Ends(s, Retransmit(s, now).picks, n)
    ensures var r := Retransmit(s, now);
            && |r.q| == |s.q|
            && (forall k :: 0 <= k < |s.q| ==> r.q[k] == if k < n && s.q[k].retransmit then Again(s.q[k]) else s.q[k])
            && HeadsAfter(s, r.heads, r.picks, now)
  {
    n := RetransmitTakes(s, Resend(s.q, s.heads, 0, []), 0, now);
  }

  /** A marked oldest chunk that fits the congestion window is always retransmitted. */
  lemma OldestIsRetransmitted(s: Sender, now: int)
    requires s.q != [] && s.q[0].retransmit && s.q[0].len <= s.cc.cwnd
    ensures var r := Retransmit(s, now); r.picks != [] && r.picks[0] == r.q[0] == Again(s.q[0])
  {
    var n := RetransmitIsMaximal(s, now);
    DueStarts(s.q, n);
  }

  lemma {:induction false} DueStarts(q: seq<Chunk>, n: nat)
    requires q != [] && q[0].retransmit && n <= |q|
    ensures n > 0 ==> Due(q[..n]) != [] && Due(q[..n])[0] == Again(q[0])
  {
    if n > 0 {
      DueNext(q, n - 1);
      DueStarts(q, n - 1);
    }
  }

  /** The timeout leaves one MTU of congestion window and half the old one, or four MTUs, as the threshold. */
  lemma TimeoutMovesWindow(s: Sender)
    requires |s.q| <= FLIGHT_LIMIT && 4 * s.mtu < 0x1_0000_0000
    ensures var r := OnT3(s);
            && r.cc.cwnd == s.mtu && IsHalved(s.cc.cwnd, s.mtu, r.cc.ssthresh)
            && r.cc == s.cc.(cwnd := r.cc.cwnd, ssthresh := r.cc.ssthresh)
            && r.rwnd == s.rwnd && r.t3Running == s.t3Running
  {
    CutMeaning(s.cc.cwnd, s.mtu);
  }

  /** It moves the forward point as far as it can, and a FORWARD TSN is due if the oldest chunk is abandoned. */
  lemma TimeoutMovesForward(s: Sender)
    requires Inv(s) && s.useForwardTSN
    ensures var r := OnT3(s);
            && FurthestAbandoned(s.cum, s.q, s.heads, r.adv)
            && r.willSendForwardTSN == (s.willSendForwardTSN || (s.q != [] && Abandoned(s.heads, s.q[0])))
  {
    AdvanceKeeps(s.cum, s.q, s.heads, s.adv);
    ComparisonsAreDistances(OnT3(s).adv, s.cum);
  }

  /** Loss is repaired: whatever the windows were, the retransmission that follows a timeout carries the oldest
      chunk, unless it is acknowledged or abandoned or larger than the MTU. */
  lemma TimeoutResendsOldest(s: Sender, now: int)
    requires |s.q| <= FLIGHT_LIMIT && s.q != [] && s.q[0].len <= s.mtu
    requires !s.q[0].acked && !Abandoned(s.heads, s.q[0])
    ensures var r := Retransmit(OnT3(s), now);
            r.picks != [] && r.picks[0] == r.q[0] == s.q[0].(retransmit := false, nSent := s.q[0].nSent + 1)
  {
    OldestIsRetransmitted(OnT3(s), now);
  }

  // ---- Fast retransmission ----

  /** Missed three times, sent once, and its message not given up by what was sent before it. */
  ghost predicate FastDue(s: Sender, c: Chunk, sent: seq<Chunk>, now: int) {
    && !c.acked && c.nSent <= 1 && c.missIndicator >= 3
    && !(HeadOf(s.heads, c.msg).allInflight && GivenUp(s, sent, c.msg, now))
  }

  /** What was sent again among the first `k` positions, when `q` has become `q'`. */
  function SentBefore(q: seq<Chunk>, q': seq<Chunk>, k: nat): seq<Chunk>
    requires k <= |q| == |q'|
  {
    Risen(q[..k], q'[..k])
  }

  /** Position `k` was sent once more exactly if it was due. */
  ghost predicate FastTookAt(s: Sender, q: seq<Chunk>, k: nat, now: int)
    requires k < |s.q| == |q|
  {
    q[k] == if FastDue(s, s.q[k], SentBefore(s.q, q, k), now) then s.q[k].(nSent := s.q[k].nSent + 1) else s.q[k]
  }

  /** The first `n` positions have been dealt with. */
  ghost predicate FastTook(s: Sender, r: Resend, n: nat, now: int) {
    && n <= |s.q| == |r.q|
    && r.picks == SentBefore(s.q, r.q, n) && r.bytes == COMMON_HEADER_SIZE + Cost(r.picks, DATA_CHUNK_HEADER_SIZE)
    && (forall k :: 0 <= k < n ==> FastTookAt(s, r.q, k, now))
    && (forall k :: n <= k < |s.q| ==> r.q[k] == s.q[k])
    && HeadsAfter(s, r.heads, r.picks, now)
  }

  /** Changing a position leaves what was decided before it. */
  lemma FastTookStays(s: Sender, q: seq<Chunk>, n: nat, c: Chunk, k: nat, now: int)
    requires k <= n < |s.q| == |q|
    ensures SentBefore(s.q, q[n := c], k) == SentBefore(s.q, q, k)
    ensures k < n && FastTookAt(s, q, k, now) ==> FastTookAt(s, q[n := c], k, now)
  {
    assert q[n := c][..k] == q[..k];
  }

  lemma FastTookNow(s: Sender, r: Resend, n: nat, now: int)
    requires FastTook(s, r, n, now) && n < |s.q|
    ensures FastDue(s, s.q[n], r.picks, now) <==>
              !(r.q[n].acked || Abandoned(r.heads, r.q[n]) || r.q[n].nSent > 1 || r.q[n].missIndicator < 3)
  {
    assert HeadOf(r.heads, s.q[n].msg).abandoned == GivenUp(s, r.picks, s.q[n].msg, now);
  }

  lemma FastTookSkip(s: Sender, r: Resend, n: nat, now: int)
    requires FastTook(s, r, n, now) && n < |s.q| && !FastDue(s, s.q[n], r.picks, now)
    ensures FastTook(s, r, n + 1, now)
  {
    RisenSplit(s.q, r.q, n);
  }

  lemma FastTookSend(s: Sender, r: Resend, n: nat, now: int)
    requires FastTook(s, r, n, now) && n < |s.q| && FastDue(s, s.q[n], r.picks, now)
    ensures FastTook(s, SendAgain(r, n, DATA_CHUNK_HEADER_SIZE + s.q[n].len, false, s, now), n + 1, now)
  {
    var r' := SendAgain(r, n, DATA_CHUNK_HEADER_SIZE + s.q[n].len, false, s, now);
    RisenSplit(s.q, r'.q, n);
    CostLast(r.picks, r'.q[n], DATA_CHUNK_HEADER_SIZE);
    HeadsAfterNext(s, r.heads, r.picks, r'.q[n], now);
    FastTookStays(s, r.q, n, r'.q[n], n, now);
    forall k | 0 <= k < n ensures FastTookAt(s, r'.q, k, now) {
      assert FastTookAt(s, r.q, k, now);
      FastTookStays(s, r.q, n, r'.q[n], k, now);
    }
  }

  /** A fast batch ends at the end of the queue, or at a due chunk that one packet cannot hold as well. */
  ghost predicate FastEnds(s: Sender, picks: seq<Chunk>, n: nat, now: int)
    requires n <= |s.q|
  {
    || n == |s.q|
    || (&& FastDue(s, s.q[n], picks, now)
        && COMMON_HEADER_SIZE + Cost(picks, DATA_CHUNK_HEADER_SIZE) + DATA_CHUNK_HEADER_SIZE + s.q[n].len > s.mtu)
  }

  lemma FastTakesNext(s: Sender, r: Resend, i: nat, now: int) returns (r1: Resend, stop: bool)
    requires FastTook(s, r, i, now) && i < |s.q|
    ensures FastFrom(r, i, s, now) == if stop then r1 else FastFrom(r1, i + 1, s, now)
    ensures FastTook(s, r1, if stop then i else i + 1, now)
    ensures stop ==> FastEnds(s, r1.picks, i, now)
  {
    r1, stop := r, false;
    FastTookNow(s, r, i, now);
    if !FastDue(s, s.q[i], r.picks, now) {
      FastTookSkip(s, r, i, now);
    } else if s.mtu < r.bytes + DATA_CHUNK_HEADER_SIZE + s.q[i].len {
      stop := true;
    } else {
      FastTookSend(s, r, i, now);
      r1 := SendAgain(r, i, DATA_CHUNK_HEADER_SIZE + s.q[i].len, false, s, now);
    }
  }

  lemma {:induction false} FastTakes(s: Sender, r: Resend, i: nat, now: int) returns (n: nat)
    requires FastTook(s, r, i, now)
    ensures var r' := FastFrom(r, i, s, now); FastTook(s, r', n, now) && FastEnds(s, r'.picks, n, now)
    decreases |s.q| - i
  {
    n := i;
    if i < |s.q| {
      var r1, stop := FastTakesNext(s, r, i, now);
      if !stop { n := FastTakes(s, r1, i + 1, now); }
    }
  }

  /** A fast batch is maximal: when one is due it sends, in order, exactly the due chunks among the first `n`, and it
      ends there for a reason; otherwise it is empty. No other is due after it. */
  lemma FastRetransmitIsMaximal(s: Sender, now: int) returns (n: nat)
    ensures var r := FastRetransmit(s, now); n <= |s.q| == |r.q| && HeadsAfter(s, r.heads, r.picks, now)
    ensures var r := FastRetransmit(s, now);
            if s.cc.willRetransmitFast
            then FastTook(s, r, n, now) && FastEnds(s, r.picks, n, now)
            else r.q == s.q && r.picks == []
    ensures !FastResent(s, FastRetransmit(s, now)).cc.willRetransmitFast
  {
    var r0 := Resend(s.q, s.heads, COMMON_HEADER_SIZE, []);
    n := 0;
    assert FastTook(s, r0, 0, now);
    if s.cc.willRetransmitFast { n := FastTakes(s, r0, 0, now); }
  }
}
