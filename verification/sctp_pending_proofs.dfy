/** Which pending chunks are sent, and why no more are. */
module SctpPendingProofs {
  import opened Serial
  import opened Wrappers
  import opened SctpChunks
  import opened SctpSender
  import opened SctpTransmit
  import opened SctpTransmitProofs
  import opened SctpBatches

  // ---- Popping several chunks ----

  lemma PeekFinds(p: Pending)
    requires PendingWF(p)
    ensures Peek(p).Some? <==> PendingSize(p) > 0
  {}

  /** The pending queue after `n` pops. */
  function Rest(p: Pending, n: nat): (r: Pending)
    requires PendingWF(p) && n <= PendingSize(p)
    ensures PendingWF(r) && PendingSize(r) == PendingSize(p) - n
    decreases n
  {
    if n == 0 then p else (PeekFinds(p); PopFollowsMessages(p); Rest(Pop(p).p, n - 1))
  }

  /** The chunks popped by them, in order. */
  function Taken(p: Pending, n: nat): (cs: seq<Chunk>)
    requires PendingWF(p) && n <= PendingSize(p)
    ensures |cs| == n
    decreases n
  {
    if n == 0 then [] else (PeekFinds(p); PopFollowsMessages(p); [Peek(p).value] + Taken(Pop(p).p, n - 1))
  }

  lemma {:induction false} TakenNext(p: Pending, n: nat)
    requires PendingWF(p) && n < PendingSize(p)
    ensures Peek(Rest(p, n)).Some?
    ensures Taken(p, n + 1) == Taken(p, n) + [Peek(Rest(p, n)).value] && Rest(p, n + 1) == Pop(Rest(p, n)).p
    decreases n
  {
    PeekFinds(p);
    PopFollowsMessages(p);
    if n > 0 {
      TakenNext(Pop(p).p, n - 1);
    }
  }

  // ---- What enters flight ----

  function Stamped(c: Chunk, tsn: u32, now: int): Chunk { c.(tsn := tsn, since := now, nSent := 1) }

  /** The data among the chunks taken, numbered from `tsn` on. */
  function Entering(cs: seq<Chunk>, tsn: u32, now: int): seq<Chunk> {
    if cs == [] then []
    else
      var before := Entering(cs[..|cs| - 1], tsn, now);
      var c := cs[|cs| - 1];
      if c.len == 0 then before else before + [Stamped(c, U32(tsn + |before|), now)]
  }

  lemma EnteringNext(cs: seq<Chunk>, c: Chunk, tsn: u32, now: int)
    ensures var before := Entering(cs, tsn, now);
            Entering(cs + [c], tsn, now) == if c.len == 0 then before
                                            else before + [Stamped(c, U32(tsn + |before|), now)]
  {
    assert (cs + [c])[..|cs|] == cs;
  }

  lemma NumberFollows(cum: u32, n: nat, k: nat)
    requires n + k + 1 < 0x1_0000_0000
    ensures U32(Plus(cum, n + 1) + k) == Plus(cum, n + k + 1)
  {}

  lemma NextNumber(s: Sender, r: Sender, k: nat)
    requires r.cum == s.cum && |r.q| == |s.q| + k <= FLIGHT_LIMIT
    ensures NextTSN(r) == U32(NextTSN(s) + k)
  {
    NumberFollows(s.cum, |s.q|, k);
  }

  /** The streams the empty chunks among them ask to reset. */
  function Resetting(cs: seq<Chunk>): seq<u16> {
    if cs == [] then []
    else Resetting(cs[..|cs| - 1]) + if cs[|cs| - 1].len == 0 then [cs[|cs| - 1].streamIdentifier] else []
  }

  lemma ResettingNext(cs: seq<Chunk>, c: Chunk)
    ensures Resetting(cs + [c]) == Resetting(cs) + if c.len == 0 then [c.streamIdentifier] else []
  {
    assert (cs + [c])[..|cs|] == cs;
  }

  /** A message is given up by an expired chunk of it, and wholly in flight with its last fragment. */
  ghost predicate HeadsEntered(s: Sender, heads: Heads, sent: seq<Chunk>, now: int) {
    forall m :: HeadOf(heads, m) == Head(GivenUp(s, sent, m, now), Complete(s, sent, m))
  }

  ghost predicate Complete(s: Sender, sent: seq<Chunk>, m: nat) {
    HeadOf(s.heads, m).allInflight || exists i :: 0 <= i < |sent| && sent[i].msg == m && sent[i].endingFragment
  }

  lemma CompleteNext(s: Sender, sent: seq<Chunk>, c: Chunk, m: nat)
    ensures Complete(s, sent + [c], m) <==> Complete(s, sent, m) || (c.msg == m && c.endingFragment)
  {
    var more := sent + [c];
    assert more[|sent|] == c && forall i :: 0 <= i < |sent| ==> more[i] == sent[i];
  }

  lemma HeadsEnteredNext(s: Sender, heads: Heads, sent: seq<Chunk>, c: Chunk, now: int)
    requires HeadsEntered(s, heads, sent, now)
    ensures HeadsEntered(s, CheckReliability(s.useForwardTSN, s.streams, SetAllInflight(heads, c), c, now),
                         sent + [c], now)
  {
    var heads' := CheckReliability(s.useForwardTSN, s.streams, SetAllInflight(heads, c), c, now);
    forall m ensures HeadOf(heads', m) == Head(GivenUp(s, sent + [c], m, now), Complete(s, sent + [c], m)) {
      GivenUpNext(s, sent, c, m, now);
      CompleteNext(s, sent, c, m);
    }
  }

  /** These are the queues, messages and resets of the sender `s` after `n` chunks were taken from its pending queue. */
  ghost predicate TookParts(s: Sender, pending: Pending, q: seq<Chunk>, heads: Heads, resets: seq<u16>, n: nat,
                            now: int)
    requires PendingWF(s.pending) && |s.q| <= FLIGHT_LIMIT
  {
    && n <= PendingSize(s.pending)
    && pending == Rest(s.pending, n)
    && var sent := Entering(Taken(s.pending, n), NextTSN(s), now);
    && |sent| <= n && q == s.q + sent && HeadsEntered(s, heads, sent, now)
    && resets == Resetting(Taken(s.pending, n))
  }

  ghost predicate Took(s: Sender, f: Filled, n: nat, now: int)
    requires PendingWF(s.pending) && |s.q| <= FLIGHT_LIMIT
  {
    && TookParts(s, f.s.pending, f.s.q, f.s.heads, f.resets, n, now)
    && f.s.cum == s.cum && f.s.streams == s.streams && f.s.useForwardTSN == s.useForwardTSN
  }

  lemma TookReset(s: Sender, f: Filled, n: nat, c: Chunk, now: int)
    requires PendingWF(s.pending) && |s.q| <= FLIGHT_LIMIT && Took(s, f, n, now) && n < PendingSize(s.pending)
    requires Peek(f.s.pending) == Some(c) && c.len == 0
    ensures Took(s, Filled(f.s.(pending := Pop(f.s.pending).p), f.resets + [c.streamIdentifier]), n + 1, now)
  {
    TakenNext(s.pending, n);
    EnteringNext(Taken(s.pending, n), c, NextTSN(s), now);
    ResettingNext(Taken(s.pending, n), c);
  }

  lemma AppendLast(q: seq<Chunk>, sent: seq<Chunk>, d: Chunk)
    ensures q + sent + [d] == q + (sent + [d])
  {}

  lemma TakenData(p: Pending, n: nat, c: Chunk, tsn: u32, sent: seq<Chunk>, now: int)
    requires PendingWF(p) && n < PendingSize(p) && Peek(Rest(p, n)) == Some(c) && c.len > 0
    requires sent == Entering(Taken(p, n), tsn, now)
    ensures Rest(p, n + 1) == Pop(Rest(p, n)).p && Resetting(Taken(p, n + 1)) == Resetting(Taken(p, n))
    ensures Entering(Taken(p, n + 1), tsn, now) == sent + [Stamped(c, U32(tsn + |sent|), now)]
  {
    TakenNext(p, n);
    EnteringNext(Taken(p, n), c, tsn, now);
    ResettingNext(Taken(p, n), c);
  }

  lemma TookPartsData(s: Sender, p: Pending, q: seq<Chunk>, heads: Heads, resets: seq<u16>, n: nat,
                      c: Chunk, sent: seq<Chunk>, d: Chunk, heads': Heads, now: int)
    requires PendingWF(s.pending) && |s.q| + PendingSize(s.pending) <= FLIGHT_LIMIT
    requires TookParts(s, p, q, heads, resets, n, now) && n < PendingSize(s.pending)
    requires Peek(p) == Some(c) && c.len > 0
    requires sent == Entering(Taken(s.pending, n), NextTSN(s), now)
    requires d == Stamped(c, U32(NextTSN(s) + |sent|), now)
    requires HeadsEntered(s, heads', sent + [d], now)
    ensures TookParts(s, Pop(p).p, q + [d], heads', resets, n + 1, now)
  {
    TakenData(s.pending, n, c, NextTSN(s), sent, now);
    AppendLast(s.q, sent, d);
  }

  lemma TookData(s: Sender, f: Filled, n: nat, c: Chunk, rwnd: u32, now: int)
    requires PendingWF(s.pending) && |s.q| + PendingSize(s.pending) <= FLIGHT_LIMIT
    requires Took(s, f, n, now) && n < PendingSize(s.pending)
    requires Peek(f.s.pending) == Some(c) && c.len > 0
    ensures Took(s, Filled(MoveToInflight(f.s.(rwnd := rwnd), now), f.resets), n + 1, now)
  {
    var sent, g := Entering(Taken(s.pending, n), NextTSN(s), now), f.s.(rwnd := rwnd);
    NextNumber(s, g, |sent|);
    var d := Stamped(c, NextTSN(g), now);
    HeadsEnteredNext(s, g.heads, sent, d, now);
    TookPartsData(s, g.pending, g.q, g.heads, f.resets, n, c, sent, d, MoveToInflight(g, now).heads, now);
  }

  lemma StepTakes(s: Sender, f: Filled, i: nat, now: int)
    requires PendingWF(s.pending) && |s.q| + PendingSize(s.pending) <= FLIGHT_LIMIT && Took(s, f, i, now)
    requires !Blocked(f.s)
    ensures i < PendingSize(s.pending) && Took(s, FillStep(f, now), i + 1, now)
  {
    PeekFinds(f.s.pending);
    var c := Peek(f.s.pending).value;
    if c.len == 0 {
      TookReset(s, f, i, c, now);
    } else {
      TookData(s, f, i, c, f.s.rwnd - c.len, now);
    }
  }

  lemma {:induction false} FillTakes(s: Sender, f: Filled, i: nat, now: int) returns (n: nat)
    requires PendingWF(s.pending) && |s.q| + PendingSize(s.pending) <= FLIGHT_LIMIT && Took(s, f, i, now)
    ensures Took(s, Fill(f, now), n, now)
    decreases PendingSize(s.pending) - i
  {
    n := i;
    if !Blocked(f.s) {
      StepTakes(s, f, i, now);
      n := FillTakes(s, FillStep(f, now), i + 1, now);
    }
  }

  /** Why no more is taken: nothing is pending; or the next chunk does not fit the congestion window or the peer's; or
      a single chunk was sent beyond the windows because nothing at all was in flight. */
  predicate FillEnds(s: Sender, r: Sender) {
    || PendingSize(r.pending) == 0
    || (&& Peek(r.pending).Some? && Peek(r.pending).value.len > 0
        && (r.nBytes + Peek(r.pending).value.len > r.cc.cwnd || Peek(r.pending).value.len > r.rwnd))
    || (s.q == [] && |r.q| == 1 && r.rwnd == s.rwnd && (r.nBytes > s.cc.cwnd || r.nBytes > s.rwnd))
  }

  lemma FilledUp(s: Sender, now: int, f: Filled)
    requires PendingWF(s.pending) && |s.q| + PendingSize(s.pending) <= FLIGHT_LIMIT
    requires 0 <= s.nBytes && s.nBytes + s.rwnd < 0x1_0000_0000
    requires f == Fill(Filled(s, []), now)
    ensures Peek(f.s.pending).Some? ==>
              var n := Peek(f.s.pending).value.len;
              n > 0 && (f.s.nBytes + n > f.s.cc.cwnd || n > f.s.rwnd)
    ensures Disciplined(s, f.s)
  {
    FillDiscipline(Filled(s, []), now);
    if Peek(f.s.pending).Some? {
      U32OfSmall(f.s.nBytes);
      if Peek(f.s.pending).value.len <= f.s.rwnd { U32OfSmall(f.s.nBytes + Peek(f.s.pending).value.len); }
    }
  }

  lemma ProbeTakes(s: Sender, f: Filled, n: nat, now: int)
    requires PendingWF(s.pending) && |s.q| + PendingSize(s.pending) <= FLIGHT_LIMIT && Took(s, f, n, now)
    requires Blocked(f.s) && Peek(f.s.pending).Some?
    ensures n < PendingSize(s.pending) && Took(s, Filled(MoveToInflight(f.s, now), f.resets), n + 1, now)
  {
    PeekFinds(f.s.pending);
    TookData(s, f, n, Peek(f.s.pending).value, f.s.rwnd, now);
  }

  lemma PopPendingTakes(s: Sender, now: int) returns (n: nat)
    requires PendingWF(s.pending) && |s.q| + PendingSize(s.pending) <= FLIGHT_LIMIT
    ensures Took(s, PopPending(s, now), n, now)
  {
    var f := Fill(Filled(s, []), now);
    n := FillTakes(s, Filled(s, []), 0, now);
    if f.s.q == [] && Peek(f.s.pending).Some? {
      ProbeTakes(s, f, n, now);
      n := n + 1;
    }
  }

  /** Sending is maximal: the first `n` chunks of the pending queue are taken, in its order; the data among them enters
      flight under consecutive TSNs and the empty ones become stream resets; and there is a reason not to go on.
      Sending anything starts the timer, and something is in flight unless nothing is pending. */
  lemma PopPendingIsMaximal(s: Sender, now: int) returns (n: nat)
    requires PendingWF(s.pending) && |s.q| + PendingSize(s.pending) <= FLIGHT_LIMIT
    requires 0 <= s.nBytes && s.nBytes + s.rwnd < 0x1_0000_0000 && (s.q == [] ==> s.nBytes == 0)
    ensures Took(s, PopPending(s, now), n, now) && FillEnds(s, PopPending(s, now).s)
    ensures var r := PopPending(s, now).s;
            && (r.q == [] ==> PendingSize(r.pending) == 0)
            && r.t3Running == (s.t3Running || |r.q| > |s.q|)
  {
    n := PopPendingTakes(s, now);
    var f := Fill(Filled(s, []), now);
    FilledUp(s, now, f);
    PeekFinds(f.s.pending);
  }
}
