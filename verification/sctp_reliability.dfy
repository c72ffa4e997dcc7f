/** In every run, only messages on partially reliable streams are ever given up. */
module SctpReliability {
  import opened Serial
  import opened SctpChunks
  import opened SctpSender
  import opened SctpTransmit
  import opened SctpSackProofs
  import opened SctpRuns
  import opened SctpRunProofs

  /** What decides the policy of a chunk; transmission and acknowledgement leave it alone. */
  datatype Kind = Kind(msg: nat, dcep: bool, stream: u16)

  function KindOf(c: Chunk): Kind { Kind(c.msg, c.dcep, c.streamIdentifier) }

  /** The stream limits how often or how long its chunks are sent, and the peer takes FORWARD TSN chunks. */
  predicate Lossy(s: Sender, c: Chunk) {
    s.useForwardTSN && !c.dcep && c.streamIdentifier in s.streams && !s.streams[c.streamIdentifier].Reliable?
  }

  ghost predicate Known(log: seq<Chunk>, kind: Kind) {
    exists j :: 0 <= j < |log| && KindOf(log[j]) == kind
  }

  ghost predicate Recorded(q: seq<Chunk>, log: seq<Chunk>) {
    forall i :: 0 <= i < |q| ==> Known(log, KindOf(q[i]))
  }

  /** A fragment of message `m` has been sent over a lossy stream. */
  ghost predicate Excused(s: Sender, log: seq<Chunk>, m: nat) {
    exists j :: 0 <= j < |log| && log[j].msg == m && Lossy(s, log[j])
  }

  ghost predicate Justified(s: Sender, heads: Heads, log: seq<Chunk>) {
    forall m :: HeadOf(heads, m).abandoned ==> Excused(s, log, m)
  }

  lemma CheckJustified(s: Sender, heads: Heads, c: Chunk, now: int, log: seq<Chunk>)
    requires Justified(s, heads, log) && Known(log, KindOf(c))
    ensures Justified(s, CheckReliability(s.useForwardTSN, s.streams, heads, c, now), log)
  {
    var heads' := CheckReliability(s.useForwardTSN, s.streams, heads, c, now);
    forall m | HeadOf(heads', m).abandoned ensures Excused(s, log, m) {
      if !HeadOf(heads, m).abandoned {
        assert m == c.msg && Expired(s.useForwardTSN, s.streams, c, now);
        var j :| 0 <= j < |log| && KindOf(log[j]) == KindOf(c);
        assert log[j].msg == m && Lossy(s, log[j]);
      }
    }
  }

  lemma LogGrown(s: Sender, heads: Heads, q: seq<Chunk>, log: seq<Chunk>, more: seq<Chunk>)
    requires Justified(s, heads, log) && Recorded(q, log)
    ensures Justified(s, heads, log + more) && Recorded(q, log + more)
  {
    forall m | HeadOf(heads, m).abandoned ensures Excused(s, log + more, m) {
      var j :| 0 <= j < |log| && log[j].msg == m && Lossy(s, log[j]);
      assert (log + more)[j] == log[j];
    }
    forall i | 0 <= i < |q| ensures Known(log + more, KindOf(q[i])) {
      var j :| 0 <= j < |log| && KindOf(log[j]) == KindOf(q[i]);
      assert (log + more)[j] == log[j];
    }
  }

  lemma SameKinds(q: seq<Chunk>, q': seq<Chunk>, n: nat, log: seq<Chunk>)
    requires Recorded(q, log) && |q'| + n == |q| && forall k :: 0 <= k < |q'| ==> KindOf(q'[k]) == KindOf(q[k + n])
    ensures Recorded(q', log)
  {
    forall k | 0 <= k < |q'| ensures Known(log, KindOf(q'[k])) { assert Known(log, KindOf(q[k + n])); }
  }

  // ---- New data ----

  lemma MoveJustified(s: Sender, now: int, log: seq<Chunk>)
    requires Peek(s.pending).Some? && |s.q| <= FLIGHT_LIMIT && Justified(s, s.heads, log) && Recorded(s.q, log)
    ensures var r := MoveToInflight(s, now);
            && |r.q| == |s.q| + 1 && s.q <= r.q && r.streams == s.streams && r.useForwardTSN == s.useForwardTSN
            && Justified(s, r.heads, log + [r.q[|s.q|]]) && Recorded(r.q, log + [r.q[|s.q|]])
  {
    var c := Peek(s.pending).value.(tsn := NextTSN(s), since := now, nSent := 1);
    LogGrown(s, s.heads, s.q, log, [c]);
    assert Known(log + [c], KindOf(c)) by { assert (log + [c])[|log|] == c; }
    var heads := SetAllInflight(s.heads, c);
    assert forall m :: HeadOf(heads, m).abandoned == HeadOf(s.heads, m).abandoned;
    CheckJustified(s, heads, c, now, log + [c]);
  }

  /** What is added to the queue is added to the log. */
  ghost predicate Grows(s: Sender, r: Sender, log: seq<Chunk>) {
    && s.q <= r.q && r.streams == s.streams && r.useForwardTSN == s.useForwardTSN
    && Justified(s, r.heads, log + r.q[|s.q|..]) && Recorded(r.q, log + r.q[|s.q|..])
  }

  lemma GrowsJoins(s: Sender, s1: Sender, r: Sender, log: seq<Chunk>)
    requires s.q <= s1.q && s1.streams == s.streams && s1.useForwardTSN == s.useForwardTSN
    requires Grows(s1, r, log + s1.q[|s.q|..])
    ensures Grows(s, r, log)
  {
    assert log + s1.q[|s.q|..] + r.q[|s1.q|..] == log + r.q[|s.q|..];
    forall m | HeadOf(r.heads, m).abandoned ensures Excused(s, log + r.q[|s.q|..], m) {
      assert Excused(s1, log + r.q[|s.q|..], m);
    }
  }

  lemma SameGrows(s: Sender, r: Sender, log: seq<Chunk>)
    requires Justified(s, s.heads, log) && Recorded(s.q, log)
    requires r.q == s.q && r.heads == s.heads && r.streams == s.streams && r.useForwardTSN == s.useForwardTSN
    ensures Grows(s, r, log)
  {
    assert log + r.q[|s.q|..] == log;
  }

  lemma StepGrows(f: Filled, now: int, log: seq<Chunk>)
    requires !Blocked(f.s) && |f.s.q| <= FLIGHT_LIMIT && Justified(f.s, f.s.heads, log) && Recorded(f.s.q, log)
    ensures Grows(f.s, FillStep(f, now).s, log)
  {
    var s, c := f.s, Peek(f.s.pending).value;
    if c.len == 0 {
      SameGrows(s, FillStep(f, now).s, log);
    } else {
      PaidGrows(s, s.(rwnd := s.rwnd - c.len), now, log);
    }
  }

  lemma PaidGrows(s: Sender, s': Sender, now: int, log: seq<Chunk>)
    requires Peek(s.pending).Some? && |s.q| <= FLIGHT_LIMIT && Justified(s, s.heads, log) && Recorded(s.q, log)
    requires s' == s.(rwnd := s'.rwnd)
    ensures Grows(s, MoveToInflight(s', now), log)
  {
    SameSender(s, s', s.heads, log);
    MoveJustified(s', now, log);
    var r := MoveToInflight(s', now);
    assert r.q[|s.q|..] == [r.q[|s.q|]];
    SameSender(s', s, r.heads, log + r.q[|s.q|..]);
  }

  lemma {:induction false} FillGrows(f: Filled, now: int, log: seq<Chunk>)
    requires PendingWF(f.s.pending) && |f.s.q| + PendingSize(f.s.pending) <= FLIGHT_LIMIT
    requires Justified(f.s, f.s.heads, log) && Recorded(f.s.q, log)
    ensures Grows(f.s, Fill(f, now).s, log)
    decreases PendingSize(f.s.pending)
  {
    if Blocked(f.s) {
      SameGrows(f.s, f.s, log);
    } else {
      StepPops(f, now);
      var f1 := FillStep(f, now);
      StepGrows(f, now, log);
      var log1 := log + f1.s.q[|f.s.q|..];
      SameSender(f.s, f1.s, f1.s.heads, log1);
      FillGrows(f1, now, log1);
      GrowsJoins(f.s, f1.s, Fill(f, now).s, log);
    }
  }

  lemma PopPendingGrows(s: Sender, now: int, log: seq<Chunk>)
    requires PendingWF(s.pending) && |s.q| + PendingSize(s.pending) <= FLIGHT_LIMIT
    requires Justified(s, s.heads, log) && Recorded(s.q, log)
    ensures Grows(s, PopPending(s, now).s, log)
  {
    FillGrows(Filled(s, []), now, log);
    var s1 := Fill(Filled(s, []), now).s;
    if s1.q == [] && Peek(s1.pending).Some? {
      assert log + s1.q[|s.q|..] == log;
      SameSender(s, s1, s1.heads, log);
      MoveJustified(s1, now, log);
      var r := MoveToInflight(s1, now);
      assert r.q[|s.q|..] == [r.q[0]];
      SameSender(s1, s, r.heads, log + [r.q[0]]);
    }
  }

  // ---- Retransmissions ----

  lemma AgainJustified(r: Resend, i: nat, cost: nat, t3: bool, s: Sender, now: int, log: seq<Chunk>)
    requires i < |r.q| && Justified(s, r.heads, log) && Recorded(r.q, log)
    ensures var r' := SendAgain(r, i, cost, t3, s, now); Justified(s, r'.heads, log) && Recorded(r'.q, log)
  {
    var r' := SendAgain(r, i, cost, t3, s, now);
    SameKinds(r.q, r'.q, 0, log);
    CheckJustified(s, r.heads, r'.q[i], now, log);
  }

  lemma {:induction false} RetransmitJustified(r: Resend, i: nat, s: Sender, now: int, log: seq<Chunk>)
    requires Justified(s, r.heads, log) && Recorded(r.q, log)
    ensures var r' := RetransmitFrom(r, i, s, now); Justified(s, r'.heads, log) && Recorded(r'.q, log)
    decreases |r.q| - i
  {
    if i < |r.q| {
      var c := r.q[i];
      if !c.retransmit {
        RetransmitJustified(r, i + 1, s, now, log);
      } else {
        AgainJustified(r, i, c.len, true, s, now, log);
        if !(i == 0 && s.rwnd < c.len) && r.bytes + c.len <= Min(s.cc.cwnd, s.rwnd) {
          RetransmitJustified(SendAgain(r, i, c.len, true, s, now), i + 1, s, now, log);
        }
      }
    }
  }

  lemma {:induction false} FastJustified(r: Resend, i: nat, s: Sender, now: int, log: seq<Chunk>)
    requires Justified(s, r.heads, log) && Recorded(r.q, log)
    ensures var r' := FastFrom(r, i, s, now); Justified(s, r'.heads, log) && Recorded(r'.q, log)
    decreases |r.q| - i
  {
    if i < |r.q| {
      var c := r.q[i];
      if c.acked || Abandoned(r.heads, c) || c.nSent > 1 || c.missIndicator < 3 {
        FastJustified(r, i + 1, s, now, log);
      } else if s.mtu >= r.bytes + DATA_CHUNK_HEADER_SIZE + c.len {
        AgainJustified(r, i, DATA_CHUNK_HEADER_SIZE + c.len, false, s, now, log);
        FastJustified(SendAgain(r, i, DATA_CHUNK_HEADER_SIZE + c.len, false, s, now), i + 1, s, now, log);
      }
    }
  }

  // ---- SACKs ----

  lemma SackRecorded(s: Sender, d: Sack, log: seq<Chunk>)
    requires Inv(s) && Acceptable(s, d) && !Sna32GT(s.cum, d.cum) && Recorded(s.q, log)
    ensures Recorded(HandleSack(s, d).s.q, log)
  {
    MarkedExact(s, d);
    ReactedFacts(s, d);
    var n, m, q := Dist(s.cum, d.cum), Marked(s, d), HandleSack(s, d).s.q;
    forall k | 0 <= k < |q| ensures KindOf(q[k]) == KindOf(s.q[k + n]) {
      assert OnlyMissed(m.q[k], q[k]) && AckedWhen(s.q[k + n], m.q[k], Covered(d.gaps, k + 1));
    }
    SameKinds(s.q, q, n, log);
  }

  // ---- Runs ----

  ghost predicate Fair(s: Sys) {
    Justified(s.snd, s.snd.heads, s.log) && Recorded(s.snd.q, s.log)
  }

  lemma SameSender(s: Sender, r: Sender, heads: Heads, log: seq<Chunk>)
    requires r.streams == s.streams && r.useForwardTSN == s.useForwardTSN && Justified(s, heads, log)
    ensures Justified(r, heads, log)
  {
    forall m | HeadOf(heads, m).abandoned ensures Excused(r, log, m) { assert Excused(s, log, m); }
  }

  lemma TransmitFair(s: Sys, now: int)
    requires SysInv(s) && Fair(s) && Enabled(s, Transmit(now))
    ensures Succeeds(s, Transmit(now)) && Fair(Do(s, Transmit(now)))
  {
    ActionKeeps(s, Transmit(now));
    PopPendingGrows(s.snd, now, s.log);
    var r := PopPending(s.snd, now).s;
    SameSender(s.snd, r, r.heads, s.log + r.q[|s.snd.q|..]);
  }

  lemma SackFair(s: Sys, a: Action)
    requires SysInv(s) && Fair(s) && Enabled(s, a) && a.DeliverSack?
    ensures Succeeds(s, a) && Fair(Do(s, a))
  {
    ActionKeeps(s, a);
    if !Sna32GT(s.snd.cum, Wire(a).cum) {
      SackRecorded(s.snd, Wire(a), s.log);
      SameSender(s.snd, HandleSack(s.snd, Wire(a)).s, s.snd.heads, s.log);
    }
  }

  lemma ResendT3Fair(s: Sys, a: Action)
    requires SysInv(s) && Fair(s) && Enabled(s, a) && a.ResendT3?
    ensures Succeeds(s, a) && Fair(Do(s, a))
  {
    RetransmitJustified(Resend(s.snd.q, s.snd.heads, 0, []), 0, s.snd, a.now, s.log);
    SameSender(s.snd, Do(s, a).snd, Do(s, a).snd.heads, s.log);
  }

  lemma ResendFastFair(s: Sys, a: Action)
    requires SysInv(s) && Fair(s) && Enabled(s, a) && a.ResendFast?
    ensures Succeeds(s, a) && Fair(Do(s, a))
  {
    FastJustified(Resend(s.snd.q, s.snd.heads, COMMON_HEADER_SIZE, []), 0, s.snd, a.now, s.log);
    SameSender(s.snd, Do(s, a).snd, Do(s, a).snd.heads, s.log);
  }

  lemma TimeoutFair(s: Sys)
    requires SysInv(s) && Fair(s)
    ensures Succeeds(s, Timeout) && Fair(Do(s, Timeout))
  {
    SameKinds(s.snd.q, OnT3(s.snd).q, 0, s.log);
    SameSender(s.snd, OnT3(s.snd), s.snd.heads, s.log);
  }

  /** The other actions leave the sender's flags and flight, and the log, alone. */
  lemma OtherFair(s: Sys, s': Sys)
    requires Fair(s) && s'.log == s.log && s'.snd.q == s.snd.q && s'.snd.heads == s.snd.heads
    requires s'.snd.streams == s.snd.streams && s'.snd.useForwardTSN == s.snd.useForwardTSN
    ensures Fair(s')
  {
    SameSender(s.snd, s'.snd, s.snd.heads, s.log);
  }

  lemma ActionFair(s: Sys, a: Action)
    requires SysInv(s) && Fair(s) && Enabled(s, a)
    ensures Succeeds(s, a) && Fair(Do(s, a))
  {
    ActionKeeps(s, a);
    match a
    case Transmit(now) => TransmitFair(s, now);
    case ResendT3(now) => ResendT3Fair(s, a);
    case ResendFast(now) => ResendFastFair(s, a);
    case Timeout => TimeoutFair(s);
    case DeliverSack(_, _, _) => SackFair(s, a);
    case _ => OtherFair(s, Do(s, a));
  }

  lemma {:induction false} RunsAreFair(run: seq<Sys>, i: nat)
    requires IsRun(run) && i < |run|
    ensures Fair(run[i])
  {
    if i > 0 {
      RunsAreSafe(run, i - 1);
      RunsAreFair(run, i - 1);
      var a := RunStep(run, i - 1);
      ActionFair(run[i - 1], a);
    }
  }

  /** In every run, a TSN that is skipped or given up belongs to a message sent over a lossy stream. */
  lemma OnlyLossyIsGivenUp(run: seq<Sys>, i: nat, t: nat)
    requires IsRun(run) && i < |run|
    ensures var s := run[i];
            GivenUp(s.first, s.log, s.snd.heads, t) || t in s.skipped ==>
              s.first <= t < s.first + |s.log| && Excused(s.snd, s.log, s.log[t - s.first].msg)
  {
    RunsAreSafe(run, i);
    RunsAreFair(run, i);
  }

  /** Reliable delivery: in every run, a cumulatively acknowledged TSN whose message used no lossy stream was handed to
      the receiver's stream layer; without FORWARD TSN that is every acknowledged TSN. */
  lemma ReliableIsDelivered(run: seq<Sys>, i: nat, t: nat)
    requires IsRun(run) && i < |run| && run[i].first <= t <= run[i].ack
    ensures var s := run[i];
            && t - s.first < |s.log|
            && (!Excused(s.snd, s.log, s.log[t - s.first].msg) ==> t in s.handed)
            && (!s.snd.useForwardTSN ==> t in s.handed)
  {
    RunsAreSafe(run, i);
    AcknowledgedWasDelivered(run, i, t);
    OnlyLossyIsGivenUp(run, i, t);
  }
}
