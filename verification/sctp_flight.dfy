/** Between the map of chunks in flight and the sequence the sender is specified on. */
module SctpFlight {
  import opened Serial
  import opened Wrappers
  import opened SctpChunks
  import opened SctpSender
  import opened SctpTransmit
  import R = SctpReceiver
  import P = SctpSackProofs
  import opened SctpPayloadQueue

  /** The map holds exactly the TSNs just above `base`, and `q` lists their chunks. */
  ghost predicate Holds(m: map<u32, Chunk>, base: u32, q: seq<Chunk>) {
    && |q| <= FLIGHT_LIMIT + 1
    && (forall k :: k in m <==> 1 <= Dist(base, k) <= |q|)
    && (forall k :: k in m ==> m[k] == q[Dist(base, k) - 1])
  }

  lemma HoldsWindow(m: map<u32, Chunk>, base: u32, q: seq<Chunk>)
    requires Holds(m, base, q)
    ensures Window(base, m.Keys)
    ensures R.IsOldest(m.Keys, Plus(base, 1)) <==> q != []
    ensures q != [] ==> m[Plus(base, 1)] == q[0]
  {
    if q != [] { assert Plus(base, 1) in m; }
  }

  lemma HoldsTail(m: map<u32, Chunk>, base: u32, q: seq<Chunk>)
    requires Holds(m, base, q) && q != []
    ensures Holds(m - {Plus(base, 1)}, Plus(base, 1), q[1..])
  {}

  lemma HoldsUpdate(m: map<u32, Chunk>, base: u32, q: seq<Chunk>, tsn: u32, c: Chunk)
    requires Holds(m, base, q) && tsn in m
    ensures Holds(m[tsn := c], base, q[Dist(base, tsn) - 1 := c])
  {}

  /** Position `i` of the list, in the map. */
  lemma HoldsNth(m: map<u32, Chunk>, base: u32, q: seq<Chunk>, i: nat, tsn: u32)
    requires Holds(m, base, q) && i <= |q| && tsn == Plus(base, i + 1)
    ensures tsn in m <==> i < |q|
    ensures i < |q| ==> m[tsn] == q[i]
  {
    DistPlus(base, i + 1);
  }

  lemma HoldsPut(m: map<u32, Chunk>, base: u32, q: seq<Chunk>, i: nat, tsn: u32, c: Chunk)
    requires Holds(m, base, q) && i < |q| && tsn == Plus(base, i + 1)
    ensures Holds(m[tsn := c], base, q[i := c])
  {
    DistPlus(base, i + 1);
    HoldsUpdate(m, base, q, tsn, c);
  }

  /** An offset counted from the ack point, also one outside the queue. */
  lemma HoldsOffset(m: map<u32, Chunk>, base: u32, q: seq<Chunk>, i: u16, tsn: u32)
    requires Holds(m, base, q) && tsn == Plus(base, i)
    ensures tsn in m <==> 1 <= i <= |q|
    ensures tsn in m ==> m[tsn] == q[i - 1]
  {
    DistPlus(base, i);
  }

  lemma SameNext(x: u32, y: u32)
    ensures Plus(x, 1) == Plus(y, 1) <==> x == y
  {}

  /** The chunk after `x` is in the map exactly when `x` is not the last one. */
  lemma HoldsNext(m: map<u32, Chunk>, base: u32, q: seq<Chunk>, x: u32)
    requires Holds(m, base, q)
    ensures Plus(x, 1) in m <==> Dist(base, x) < |q|
    ensures Plus(x, 1) in m ==> m[Plus(x, 1)] == q[Dist(base, x)] && Dist(base, Plus(x, 1)) == Dist(base, x) + 1
  {}

  lemma HoldsAppend(m: map<u32, Chunk>, base: u32, q: seq<Chunk>, c: Chunk)
    requires Holds(m, base, q) && |q| <= FLIGHT_LIMIT && c.tsn == Plus(base, |q| + 1)
    ensures Holds(m[c.tsn := c], base, q + [c])
  {
    DistPlus(base, |q| + 1);
  }

  lemma HoldsMarkAll(m: map<u32, Chunk>, m': map<u32, Chunk>, base: u32, q: seq<Chunk>, heads: Heads)
    requires Holds(m, base, q) && m'.Keys == m.Keys && forall k :: k in m' ==> m'[k] == MarkDue(m[k], heads)
    ensures Holds(m', base, MarkAll(q, heads))
  {
    forall k ensures k in m' <==> 1 <= Dist(base, k) <= |q| { assert k in m'.Keys <==> k in m.Keys; }
  }

  lemma {:induction false} HoldsSize(m: map<u32, Chunk>, base: u32, q: seq<Chunk>)
    requires Holds(m, base, q)
    ensures |m| == |q|
    decreases |q|
  {
    if q == [] {
      assert m.Keys == {};
    } else {
      HoldsTail(m, base, q);
      var next := Plus(base, 1);
      HoldsSize(m - {next}, next, q[1..]);
      assert next in m && m.Keys == (m - {next}).Keys + {next};
    }
  }

  /** A counter just above `x` is still at or below `to` exactly until `x` reaches it. */
  lemma CounterRuns(x: u32, to: u32)
    requires Dist(x, to) < 0x8000_0000
    ensures Sna32LTE(Plus(x, 1), to) <==> x != to
    ensures x != to ==> Dist(Plus(x, 1), to) == Dist(x, to) - 1
  {}

  /** Popping one by one until `to`, or failing at the end of the queue. */
  ghost function PopTo(a: Acking, to: u32, start: u32, exit: u32): Option<Acking>
    decreases Dist(a.cum, to)
  {
    if a.cum == to then Some(a) else if a.q == [] then None else PopTo(PopOne(a, start, exit), to, start, exit)
  }

  lemma {:induction false} PopToIsPopAcked(a: Acking, to: u32, start: u32, exit: u32)
    ensures var n, r := Dist(a.cum, to), PopTo(a, to, start, exit);
            if n <= |a.q| then r == Some(PopAcked(a, n, start, exit)) && r.value.cum == to else r == None
    decreases Dist(a.cum, to)
  {
    if a.cum != to && a.q != [] { PopToIsPopAcked(PopOne(a, start, exit), to, start, exit); }
  }

  /** Counting misses one by one below `max`, or failing on a TSN that is not in the queue. */
  ghost function MissTo(m: Missing, tsn: u32, max: u32, cum: u32, heads: Heads, htna: u32, mtu: u32)
    : Option<Missing>
    decreases Dist(tsn, max)
  {
    if !Sna32LT(tsn, max) then Some(m)
    else if 1 <= Dist(cum, tsn) <= |m.q|
    then MissTo(MissOne(m, Dist(cum, tsn) - 1, heads, htna, mtu), Plus(tsn, 1), max, cum, heads, htna, mtu)
    else None
  }

  lemma {:induction false} MissToIsMissRange(m: Missing, k: nat, max: u32, cum: u32, heads: Heads, htna: u32,
                                             mtu: u32)
    requires Dist(cum, max) <= |m.q| + 1 <= FLIGHT_LIMIT + 1 && k <= Max(Dist(cum, max) - 1, 0)
    ensures MissTo(m, Plus(cum, k + 1), max, cum, heads, htna, mtu)
         == Some(MissRange(m, k, Max(Dist(cum, max) - 1, 0), heads, htna, mtu))
    decreases |m.q| - k
  {
    DistPlus(cum, k + 1);
    if k < Dist(cum, max) - 1 {
      assert Plus(Plus(cum, k + 1), 1) == Plus(cum, k + 2);
      MissToIsMissRange(MissOne(m, k, heads, htna, mtu), k + 1, max, cum, heads, htna, mtu);
    }
  }

  lemma ConcatAssociates(a: seq<Chunk>, b: seq<Chunk>, c: seq<Chunk>)
    ensures a + b + c == a + (b + c)
  {}

  /** At most `n` rounds of filling the windows. */
  ghost function FillTo(f: Filled, now: int, n: nat): Filled
    decreases n
  {
    if n == 0 || Blocked(f.s) || |f.s.q| > FLIGHT_LIMIT then f else FillTo(FillStep(f, now), now, n - 1)
  }

  /** `goal` is what filling leads to from here; there is nothing left to do unless `more`. */
  ghost predicate Filling(f: Filled, now: int, n: nat, more: bool, goal: Filled) {
    goal == if more then FillTo(f, now, n) else f
  }

  lemma FillingStep(f: Filled, now: int, n: nat, goal: Filled)
    requires |f.s.q| <= FLIGHT_LIMIT && n > 0 && Filling(f, now, n, true, goal)
    ensures if Blocked(f.s) then Filling(f, now, n, false, goal)
            else Filling(FillStep(f, now), now, n - 1, true, goal)
  {}

  lemma RoomAfterPop(p: Pending)
    requires PendingWF(p) && Peek(p).Some?
    ensures PendingWF(Pop(p).p) && PendingSize(Pop(p).p) == PendingSize(p) - 1
  {
    PopFollowsMessages(p);
  }

  lemma MoveAssembles(s: Sender, now: int, c: Chunk, heads: Heads)
    requires Peek(s.pending).Some? && |s.q| <= FLIGHT_LIMIT
    requires c == Peek(s.pending).value.(tsn := NextTSN(s), since := now, nSent := 1)
    requires var inflight := SetAllInflight(s.heads, Peek(s.pending).value);
             heads == CheckReliability(s.useForwardTSN, s.streams, inflight, c, now)
    ensures MoveToInflight(s, now)
         == s.(pending := Pop(s.pending).p, heads := heads, q := s.q + [c], nBytes := s.nBytes + c.len)
  {}

  /** The sender after a chunk has entered flight and been paid for. */
  ghost function Paid(s: Sender, now: int): Sender
    requires Peek(s.pending).Some? && Peek(s.pending).value.len <= s.rwnd && |s.q| <= FLIGHT_LIMIT
  {
    MoveToInflight(s.(rwnd := s.rwnd - Peek(s.pending).value.len), now)
  }

  lemma StepPays(f: Filled, now: int)
    requires !Blocked(f.s) && |f.s.q| <= FLIGHT_LIMIT && Peek(f.s.pending).Some?
    requires 0 < Peek(f.s.pending).value.len <= f.s.rwnd
    ensures FillStep(f, now) == Filled(Paid(f.s, now), f.resets)
  {}

  lemma T3Assembles(s: Sender, r: Sender)
    requires |s.q| <= FLIGHT_LIMIT
    requires r == s.(cc := s.cc.(ssthresh := Cut(s.cc.cwnd, s.mtu), cwnd := s.mtu), adv := r.adv,
                     willSendForwardTSN := r.willSendForwardTSN, q := MarkAll(s.q, s.heads))
    requires r.adv == if s.useForwardTSN then AdvanceOver(s.cum, s.q, s.heads, s.adv) else s.adv
    requires r.willSendForwardTSN == (s.willSendForwardTSN || (s.useForwardTSN && Sna32GT(r.adv, s.cum)))
    ensures r == OnT3(s)
  {}

  lemma MarkAllConsecutive(cum: u32, q: seq<Chunk>, heads: Heads)
    requires Consecutive(cum, q)
    ensures Consecutive(cum, MarkAll(q, heads))
  {}

  lemma {:induction false} FillToIsFill(f: Filled, now: int, n: nat)
    requires PendingWF(f.s.pending) && |f.s.q| + PendingSize(f.s.pending) <= FLIGHT_LIMIT
    requires n > PendingSize(f.s.pending)
    ensures FillTo(f, now, n) == Fill(f, now)
    decreases n
  {
    if !Blocked(f.s) {
      StepPops(f, now);
      FillToIsFill(FillStep(f, now), now, n - 1);
    }
  }

  lemma ConsecutiveUpdate(cum: u32, q: seq<Chunk>, i: nat, c: Chunk)
    requires Consecutive(cum, q) && i < |q| && c.tsn == q[i].tsn
    ensures Consecutive(cum, q[i := c])
  {}

  /** The last part of handleSack, about the advanced peer ack point. */
  ghost function Forwarded(s: Sender): Sender
    requires |s.q| <= FLIGHT_LIMIT
  {
    var adv := if !s.useForwardTSN then s.adv
               else AdvanceOver(s.cum, s.q, s.heads, if Sna32LT(s.adv, s.cum) then s.cum else s.adv);
    s.(adv := adv, willSendForwardTSN := s.willSendForwardTSN || (s.useForwardTSN && Sna32GT(adv, s.cum)))
  }

  lemma SackAssembles(s: Sender, d: Sack, r: Sender, credit: Credit)
    requires Consecutive(s.cum, s.q) && Acceptable(s, d) && !Sna32GT(s.cum, d.cum)
    requires var m := Marked(s, d);
             && r.cum == d.cum && r.nBytes == m.nBytes && credit == m.credit && Missing(r.q, r.cc) == Reacted(s, d)
             && r.t3Running == (if s.cum != d.cum then m.q != [] else Popped(s, d).t3Running)
    requires r.rwnd == NewRwnd(r.nBytes, d.rwnd)
    requires r == s.(cum := r.cum, q := r.q, nBytes := r.nBytes, cc := r.cc, rwnd := r.rwnd, t3Running := r.t3Running)
    ensures |r.q| <= FLIGHT_LIMIT && HandleSack(s, d) == SackResult(Forwarded(r), credit)
  {}

  lemma SackKeepsNext(s: Sender, d: Sack)
    requires Consecutive(s.cum, s.q) && Acceptable(s, d)
    ensures var r := HandleSack(s, d).s;
            Consecutive(r.cum, r.q) && Plus(s.cum, |s.q| + 1) == Plus(r.cum, |r.q| + 1)
  {
    if !Sna32GT(s.cum, d.cum) {
      var m := Marked(s, d);
      var m0 := Missing(m.q, Grown(s, d));
      P.MissRangeMeaning(m0, 0, MissCount(d.cum, m0, m.htna), s.heads, m.htna, s.mtu);
      ConsecutiveMissed(d.cum, m.q, Reacted(s, d).q);
      NextStays(s.cum, |s.q|, d.cum);
    }
  }

  lemma ConsecutiveMissed(cum: u32, q: seq<Chunk>, q': seq<Chunk>)
    requires Consecutive(cum, q) && P.AllOnlyMissed(q, q')
    ensures Consecutive(cum, q')
  {
    assert forall i :: 0 <= i < |q| ==> P.OnlyMissed(q[i], q'[i]);
  }

  lemma NextStays(cum: u32, n: nat, cum': u32)
    requires Dist(cum, cum') <= n <= FLIGHT_LIMIT
    ensures Plus(cum, n + 1) == Plus(cum', n - Dist(cum, cum') + 1)
  {}
}
