/** Every step of a run keeps the invariant, and so it holds in every state of every run. */
module SctpRunProofs {
  import opened Serial
  import opened Wrappers
  import opened SctpChunks
  import opened SctpSender
  import opened SctpTransmit
  import opened SctpSackProofs
  import opened SctpTransmitProofs
  import opened SctpReceiver
  import opened SctpRuns

  // ---- Things only grow ----

  /** History moves forward only. */
  ghost predicate Later(s: Sys, s': Sys) {
    && s'.first == s.first && s'.maxReceiveBuffer == s.maxReceiveBuffer
    && s'.snd.useForwardTSN == s.snd.useForwardTSN
    && s.ack <= s'.ack && s.next <= s'.next && s.last <= s'.last
    && s.got <= s'.got && s.skipped <= s'.skipped && s.log <= s'.log && HeadsGrow(s.snd.heads, s'.snd.heads)
  }

  lemma GivenUpStays(first: nat, log: seq<Chunk>, log': seq<Chunk>, heads: Heads, heads': Heads, t: nat)
    requires log <= log' && HeadsGrow(heads, heads') && GivenUp(first, log, heads, t)
    ensures GivenUp(first, log', heads', t)
  {
    assert log'[t - first] == log[t - first];
  }

  lemma MsgStaysOk(s: Sys, s': Sys, m: Msg)
    requires Later(s, s') && MsgOk(s, m)
    ensures MsgOk(s', m)
  {
    match m
    case Data(_) =>
    case Ackn(cum, gaps, _) =>
      forall i | 0 <= i < |gaps| ensures GapTrue(s'.got, cum, gaps[i]) {
        assert GapTrue(s.got, cum, gaps[i]);
        forall o | gaps[i].start <= o <= gaps[i].end ensures Has(s'.got, cum, o) { assert Has(s.got, cum, o); }
      }
    case Fwd(from, to) =>
      forall t | from < t <= to ensures GivenUp(s'.first, s'.log, s'.snd.heads, t) {
        GivenUpStays(s.first, s.log, s'.log, s.snd.heads, s'.snd.heads, t);
      }
  }

  /** Old messages stay true; only new ones need checking. */
  lemma NetStaysOk(s: Sys, s': Sys)
    requires Later(s, s') && NetOk(s) && forall m :: m in s'.net && m !in s.net ==> MsgOk(s', m)
    ensures NetOk(s')
  {
    forall m | m in s'.net ensures MsgOk(s', m) {
      if m in s.net { MsgStaysOk(s, s', m); }
    }
  }

  lemma SkippedStaysOk(s: Sys, s': Sys)
    requires Later(s, s') && SkippedOk(s.first, s.log, s.snd.heads, s.skipped)
    ensures SkippedOk(s'.first, s'.log, s'.snd.heads, s.skipped)
  {
    forall t | t in s.skipped ensures GivenUp(s'.first, s'.log, s'.snd.heads, t) {
      GivenUpStays(s.first, s.log, s'.log, s.snd.heads, s'.snd.heads, t);
    }
  }

  // ---- Sender steps that assign and acknowledge nothing ----

  /** What is pushed goes behind the message under way. */
  lemma WrittenKeeps(log: seq<Chunk>, p: Pending, message: seq<Chunk>)
    requires PendingWF(p) && FragmentsOk(log, p) && IsMessage(message)
    ensures PendingWF(PushAll(p, message)) && FragmentsOk(log, PushAll(p, message))
  {
    PushKeepsMessagesWhole(p, message);
    WholeIsUniform(message, false, message[0].unordered);
    PushAllAppends(p, message, message[0].unordered);
  }

  lemma WriteKeeps(s: Sys, a: Action)
    requires SysInv(s) && Enabled(s, a) && a.Write?
    ensures Succeeds(s, a) && SysInv(Do(s, a))
  {
    WrittenKeeps(s.log, s.snd.pending, a.message);
    NetStaysOk(s, Do(s, a));
  }

  /** Same TSNs, messages and acknowledgements. */
  ghost predicate Quiet(q: seq<Chunk>, q': seq<Chunk>) {
    && |q'| == |q|
    && forall i :: 0 <= i < |q| ==> q'[i].msg == q[i].msg && q'[i].acked == q[i].acked && q'[i].nSent >= q[i].nSent
  }

  lemma QuietKeeps(s: Sys, s': Sys)
    requires SysInv(s) && Later(s, s') && Inv(s'.snd) && Quiet(s.snd.q, s'.snd.q)
    requires s' == s.(snd := s'.snd, fast := s'.fast)
    requires s'.snd.cum == s.snd.cum && s'.snd.pending == s.snd.pending && s'.snd.nBytes == s.snd.nBytes
             && s'.snd.rwnd == s.snd.rwnd
    requires FastOk(s'.ack, s'.next, s'.snd.q, s'.fast)
    ensures SysInv(s')
  {
    NetStaysOk(s, s');
    SkippedStaysOk(s, s');
  }

  lemma QuietFast(ack: nat, next: nat, q: seq<Chunk>, q': seq<Chunk>, fast: multiset<nat>)
    requires FastOk(ack, next, q, fast) && Quiet(q, q')
    ensures FastOk(ack, next, q', fast)
  {}

  lemma ResentIsQuiet(s: Sender, r: Resend)
    requires Round(s.q, s.heads, r, |s.q|)
    ensures Quiet(s.q, r.q)
  {
    assert forall i :: 0 <= i < |s.q| ==> SameOrResent(s.q[i], r.q[i]);
  }

  lemma ResendT3Keeps(s: Sys, a: Action)
    requires SysInv(s) && Enabled(s, a) && a.ResendT3?
    ensures Succeeds(s, a) && SysInv(Do(s, a))
  {
    RetransmitDiscipline(s.snd, a.now);
    var r := Retransmit(s.snd, a.now);
    ResentIsQuiet(s.snd, r);
    QuietFast(s.ack, s.next, s.snd.q, r.q, s.fast);
    QuietKeeps(s, Do(s, a));
  }

  lemma FastGrows(ack: nat, next: nat, q: seq<Chunk>, q': seq<Chunk>, fast: multiset<nat>)
    requires FastOk(ack, next, q, fast) && Quiet(q, q') && next == ack + 1 + |q|
    requires forall k :: 0 <= k < |q| && q'[k].nSent != q[k].nSent ==> q[k].nSent == 1 && q'[k].nSent == 2
    ensures FastOk(ack, next, q', fast + multiset(RisenTSNs(ack, q, q')))
  {
    var risen := RisenTSNs(ack, q, q');
    forall t | t in risen ensures t !in fast && ack < t < next && q'[t - ack - 1].nSent == 2 {
      var i :| 0 <= i < |q| && q'[i].nSent != q[i].nSent && t == ack + 1 + i;
      assert q[i].nSent == 1;
    }
    QuietFast(ack, next, q, q', fast);
  }

  /** No chunk is ever fast-retransmitted twice: the history count stays at most one. */
  lemma ResendFastKeeps(s: Sys, a: Action)
    requires SysInv(s) && Enabled(s, a) && a.ResendFast?
    ensures Succeeds(s, a) && SysInv(Do(s, a))
  {
    FastRetransmitDiscipline(s.snd, a.now);
    var r := FastRetransmit(s.snd, a.now);
    ResentIsQuiet(s.snd, r);
    FastGrows(s.ack, s.next, s.snd.q, r.q, s.fast);
    QuietKeeps(s, Do(s, a));
  }

  lemma TimeoutKeeps(s: Sys, a: Action)
    requires SysInv(s) && Enabled(s, a) && a.Timeout?
    ensures Succeeds(s, a) && SysInv(Do(s, a))
  {
    TimeoutKeepsInv(s.snd);
    QuietFast(s.ack, s.next, s.snd.q, OnT3(s.snd).q, s.fast);
    QuietKeeps(s, Do(s, a));
  }

  // ---- FORWARD TSN and SACK go out ----

  lemma NewForwardOk(s: Sys)
    requires SenderOk(s.first, s.ack, s.next, s.snd) && LogOk(s.first, s.ack, s.next, s.log, s.snd.q)
             && s.snd.useForwardTSN
    ensures MsgOk(s, Fwd(s.ack, s.ack + Dist(s.snd.cum, s.snd.adv)))
  {
    forall t | s.ack < t <= s.ack + Dist(s.snd.cum, s.snd.adv) ensures GivenUp(s.first, s.log, s.snd.heads, t) {
      var i := t - s.ack - 1;
      assert Abandoned(s.snd.heads, s.snd.q[i]) && s.snd.q[i].msg == s.log[s.ack + 1 + i - s.first].msg;
    }
  }

  /** One more true message. */
  lemma SentKeeps(s: Sys, m: Msg)
    requires SysInv(s) && MsgOk(s, m)
    ensures SysInv(s.(net := s.net + {m}))
  {
    var s' := s.(net := s.net + {m});
    MsgStaysOk(s, s', m);
    NetStaysOk(s, s');
  }

  lemma ForwardFlagKeeps(s: Sys, flag: bool)
    requires SysInv(s)
    ensures SysInv(s.(snd := s.snd.(willSendForwardTSN := flag)))
  {
    QuietKeeps(s, s.(snd := s.snd.(willSendForwardTSN := flag)));
  }

  lemma SendForwardKeeps(s: Sys, a: Action)
    requires SysInv(s) && Enabled(s, a) && a.SendForward?
    ensures Succeeds(s, a) && SysInv(Do(s, a))
  {
    var s1, s' := s.(snd := s.snd.(willSendForwardTSN := false)), Do(s, a);
    ForwardFlagKeeps(s, false);
    if s.snd.willSendForwardTSN && s.snd.useForwardTSN && Sna32GT(s.snd.adv, s.snd.cum) {
      var m := Fwd(s.ack, s.ack + Dist(s.snd.cum, s.snd.adv));
      NewForwardOk(s1);
      SentKeeps(s1, m);
      assert s' == s1.(net := s1.net + {m});
    } else {
      assert s' == s1;
    }
  }

  lemma NewSackOk(s: Sys, a: Action)
    requires ReceiverOk(s.first, s.last, s.next, s.rcv, s.got) && Enabled(s, a) && a.EmitSack?
    ensures MsgOk(s, Ackn(s.last, GapBlocks(s.rcv.peerLast, a.sorted), a.credit))
  {
    var gaps := GapBlocks(s.rcv.peerLast, a.sorted);
    forall i | 0 <= i < |a.sorted| ensures 1 <= Dist(s.rcv.peerLast, a.sorted[i]) <= MAX_OUTSTANDING {
      assert a.sorted[i] in s.rcv.queue;
    }
    GapBlocksMaximal(s.rcv.peerLast, a.sorted);
    forall i | 0 <= i < |gaps| ensures GapTrue(s.got, s.last, gaps[i]) {
      forall o | gaps[i].start <= o <= gaps[i].end ensures Has(s.got, s.last, o) {
        assert Covers(gaps[i], o);
        GapBlocksExact(s.rcv.peerLast, a.sorted, o);
        var k :| 0 <= k < |a.sorted| && Dist(s.rcv.peerLast, a.sorted[k]) == o;
        assert a.sorted[k] in s.rcv.queue && a.sorted[k] == Plus(s.rcv.peerLast, o);
      }
    }
  }

  lemma EmitSackKeeps(s: Sys, a: Action)
    requires SysInv(s) && Enabled(s, a) && a.EmitSack?
    ensures Succeeds(s, a) && SysInv(Do(s, a))
  {
    NewSackOk(s, a);
    SentKeeps(s, Ackn(s.last, GapBlocks(s.rcv.peerLast, a.sorted), a.credit));
  }

  // ---- New data goes out ----

  /** Taking the next pending chunk extends the log by a fragment that belongs there. */
  lemma PopExtends(log: seq<Chunk>, p: Pending, d: Chunk)
    requires PendingWF(p) && Peek(p).Some? && FragmentsOk(log, p)
    requires var c := Peek(p).value;
             d.msg == c.msg && d.beginningFragment == c.beginningFragment && d.endingFragment == c.endingFragment
    ensures FragmentsOk(log + [d], SctpChunks.Pop(p).p)
  {
    PopFollowsMessages(p);
    var l := log + [d];
    forall i, j | 0 <= i && j == i + 1 < |l| ensures Follows(l[i], l[j]) {
      if j < |log| { assert Follows(log[i], log[j]); }
    }
  }

  lemma MoveExtends(s: Sender, now: int, log: seq<Chunk>, n: nat)
    requires PendingWF(s.pending) && Peek(s.pending).Some? && |s.q| <= FLIGHT_LIMIT && n <= |s.q|
    requires FragmentsOk(log + s.q[n..], s.pending)
    ensures var r := MoveToInflight(s, now); FragmentsOk(log + r.q[n..], r.pending)
  {
    var r := MoveToInflight(s, now);
    PopExtends(log + s.q[n..], s.pending, r.q[|s.q|]);
    assert log + r.q[n..] == log + s.q[n..] + [r.q[|s.q|]];
  }

  ghost predicate Extends(log: seq<Chunk>, n: nat, s: Sender) {
    n <= |s.q| && FragmentsOk(log + s.q[n..], s.pending)
  }

  lemma StepExtends(f: Filled, now: int, log: seq<Chunk>, n: nat)
    requires PendingWF(f.s.pending) && |f.s.q| <= FLIGHT_LIMIT && !Blocked(f.s) && Extends(log, n, f.s)
    ensures Extends(log, n, FillStep(f, now).s)
  {
    var c := Peek(f.s.pending).value;
    PopFollowsMessages(f.s.pending);
    if c.len > 0 { MoveExtends(f.s.(rwnd := f.s.rwnd - c.len), now, log, n); }
  }

  lemma {:induction false} FillExtends(f: Filled, now: int, log: seq<Chunk>, n: nat)
    requires PendingWF(f.s.pending) && |f.s.q| + PendingSize(f.s.pending) <= FLIGHT_LIMIT && Extends(log, n, f.s)
    ensures Extends(log, n, Fill(f, now).s)
    decreases PendingSize(f.s.pending)
  {
    if !Blocked(f.s) {
      StepExtends(f, now, log, n);
      StepPops(f, now);
      FillExtends(FillStep(f, now), now, log, n);
    }
  }

  lemma PopPendingExtends(s: Sender, now: int, log: seq<Chunk>)
    requires PendingWF(s.pending) && |s.q| + PendingSize(s.pending) <= FLIGHT_LIMIT && FragmentsOk(log, s.pending)
    ensures var r := PopPending(s, now).s; |s.q| <= |r.q| && FragmentsOk(log + r.q[|s.q|..], r.pending)
  {
    var f, n := Fill(Filled(s, []), now), |s.q|;
    StartExtends(log, s);
    FillExtends(Filled(s, []), now, log, n);
    if f.s.q == [] && Peek(f.s.pending).Some? { MoveExtends(f.s, now, log, n); }
    PopPendingIs(s, now, f);
  }

  lemma StartExtends(log: seq<Chunk>, s: Sender)
    requires FragmentsOk(log, s.pending)
    ensures Extends(log, |s.q|, s)
  {
    assert log + s.q[|s.q|..] == log;
  }

  lemma PopPendingIs(s: Sender, now: int, f: Filled)
    requires PendingWF(s.pending) && |s.q| + PendingSize(s.pending) <= FLIGHT_LIMIT && f == Fill(Filled(s, []), now)
    ensures var r, s1 := PopPending(s, now).s, f.s;
            if s1.q == [] && Peek(s1.pending).Some?
            then r.q == MoveToInflight(s1, now).q && r.pending == MoveToInflight(s1, now).pending
            else r.q == s1.q && r.pending == s1.pending
  {}

  lemma ReceiverSeesMore(first: nat, last: nat, next: nat, next': nat, rcv: Receiver, got: set<nat>)
    requires ReceiverOk(first, last, next, rcv, got) && next <= next' <= last + 1 + MAX_OUTSTANDING
    ensures ReceiverOk(first, last, next', rcv, got)
  {
    forall o | 1 <= o < next' - last ensures last + o in got <==> Plus(rcv.peerLast, o) in rcv.queue {
      DistPlus(rcv.peerLast, o);
    }
  }

  lemma LogGrows(first: nat, ack: nat, next: nat, log: seq<Chunk>, q: seq<Chunk>, q': seq<Chunk>)
    requires LogOk(first, ack, next, log, q) && q <= q'
    ensures LogOk(first, ack, next + |q'| - |q|, log + q'[|q|..], q')
  {
    var log' := log + q'[|q|..];
    forall i | 0 <= i < |q'| ensures q'[i].msg == log'[ack + 1 + i - first].msg {
      if i < |q| { assert q'[i] == q[i]; }
    }
  }

  lemma {:induction false} FillFrame(f: Filled, now: int)
    requires PendingWF(f.s.pending) && |f.s.q| + PendingSize(f.s.pending) <= FLIGHT_LIMIT
    ensures var r := Fill(f, now).s; r.cum == f.s.cum && r.useForwardTSN == f.s.useForwardTSN
    decreases PendingSize(f.s.pending)
  {
    if !Blocked(f.s) {
      StepPops(f, now);
      FillFrame(FillStep(f, now), now);
    }
  }

  lemma PopPendingFrame(s: Sender, now: int)
    requires PendingWF(s.pending) && |s.q| + PendingSize(s.pending) <= FLIGHT_LIMIT
    ensures var r := PopPending(s, now).s; r.cum == s.cum && r.useForwardTSN == s.useForwardTSN
  {
    FillFrame(Filled(s, []), now);
  }

  lemma TransmitWindow(snd: Sender, now: int, maxReceiveBuffer: u32)
    requires Inv(snd) && |snd.q| + PendingSize(snd.pending) <= FLIGHT_LIMIT
    requires WindowOk(maxReceiveBuffer, snd.nBytes, snd.rwnd)
    ensures var r := PopPending(snd, now).s; WindowOk(maxReceiveBuffer, r.nBytes, r.rwnd)
  {
    PopPendingDiscipline(snd, now);
  }

  lemma AppendedKeeps(ack: nat, next: nat, q: seq<Chunk>, q': seq<Chunk>, got: set<nat>, fast: multiset<nat>)
    requires Appended(q, q') && next == ack + 1 + |q|
    requires AckedOk(ack, q, got) && FastOk(ack, next, q, fast)
    ensures AckedOk(ack, q', got) && FastOk(ack, next + |q'| - |q|, q', fast)
  {
    forall i | 0 <= i < |q'| && q'[i].acked ensures ack + 1 + i in got { assert q'[i] == q[i]; }
  }

  ghost predicate Sends(s: Sys, r: Sender) {
    var next := s.next + |r.q| - |s.snd.q|;
    && |s.snd.q| <= |r.q| && s.snd.nBytes <= r.nBytes
    && SenderOk(s.first, s.ack, next, r) && AckedOk(s.ack, r.q, s.got) && FastOk(s.ack, next, r.q, s.fast)
    && HeadsGrow(s.snd.heads, r.heads) && r.useForwardTSN == s.snd.useForwardTSN
  }

  lemma TransmitSender(s: Sys, now: int)
    requires SysInv(s) && Enabled(s, Transmit(now))
    ensures Sends(s, PopPending(s.snd, now).s)
  {
    var r := PopPending(s.snd, now).s;
    TransmitGrows(s, now);
    PopPendingKeepsInv(s.snd, now);
    PopPendingAppends(s.snd, now);
    PopPendingFrame(s.snd, now);
    AppendedKeeps(s.ack, s.next, s.snd.q, r.q, s.got, s.fast);
  }

  ghost predicate Records(s: Sys, r: Sender)
    requires |s.snd.q| <= |r.q|
  {
    var next, log := s.next + |r.q| - |s.snd.q|, s.log + r.q[|s.snd.q|..];
    && LogOk(s.first, s.ack, next, log, r.q) && ReceiverOk(s.first, s.last, next, s.rcv, s.got)
    && FragmentsOk(log, r.pending) && WindowOk(s.maxReceiveBuffer, r.nBytes, r.rwnd)
  }

  lemma TransmitHistory(s: Sys, now: int)
    requires SysInv(s) && Enabled(s, Transmit(now))
    ensures |s.snd.q| <= |PopPending(s.snd, now).s.q| && Records(s, PopPending(s.snd, now).s)
  {
    PopPendingAppends(s.snd, now);
    PopPendingExtends(s.snd, now, s.log);
    TransmitWindow(s.snd, now, s.maxReceiveBuffer);
    AppendedRecords(s, PopPending(s.snd, now).s);
  }

  lemma AppendedRecords(s: Sys, r: Sender)
    requires LogOk(s.first, s.ack, s.next, s.log, s.snd.q) && ReceiverOk(s.first, s.last, s.next, s.rcv, s.got)
    requires s.ack <= s.last && s.snd.q <= r.q && |r.q| <= MAX_OUTSTANDING
    requires FragmentsOk(s.log + r.q[|s.snd.q|..], r.pending) && WindowOk(s.maxReceiveBuffer, r.nBytes, r.rwnd)
    ensures Records(s, r)
  {
    LogGrows(s.first, s.ack, s.next, s.log, s.snd.q, r.q);
    ReceiverSeesMore(s.first, s.last, s.next, s.next + |r.q| - |s.snd.q|, s.rcv, s.got);
  }

  ghost predicate NewData(s: Sys, s': Sys) {
    forall m :: m in s'.net && m !in s.net ==> m.Data? && s.first <= m.t < s'.next
  }

  /** A step of the sender alone. */
  lemma SenderMoves(s: Sys, s': Sys)
    requires SysInv(s)
    requires s' == s.(snd := s'.snd, ack := s'.ack, next := s'.next, log := s'.log, net := s'.net,
                      entered := s'.entered, credited := s'.credited)
    requires s.ack <= s'.ack <= s.last && s.next <= s'.next && s.log <= s'.log && HeadsGrow(s.snd.heads, s'.snd.heads)
    requires s'.snd.useForwardTSN == s.snd.useForwardTSN
    requires SenderOk(s.first, s'.ack, s'.next, s'.snd) && LogOk(s.first, s'.ack, s'.next, s'.log, s'.snd.q)
    requires ReceiverOk(s.first, s.last, s'.next, s.rcv, s.got) && AckedOk(s'.ack, s'.snd.q, s.got)
    requires FastOk(s'.ack, s'.next, s'.snd.q, s.fast) && WindowOk(s.maxReceiveBuffer, s'.snd.nBytes, s'.snd.rwnd)
    requires FragmentsOk(s'.log, s'.snd.pending) && s'.credited + s'.snd.nBytes == s'.entered
    requires NewData(s, s')
    ensures SysInv(s')
  {
    NetStaysOk(s, s');
    SkippedStaysOk(s, s');
  }

  lemma NewDataOnly(s: Sys, r: Sender)
    requires s.first <= s.next && |s.snd.q| <= |r.q| && s.snd.nBytes <= r.nBytes
    ensures NewData(s, DoTransmit(s, r))
  {}

  lemma SendsKeeps(s: Sys, r: Sender)
    requires SysInv(s) && Sends(s, r) && Records(s, r)
    ensures SysInv(DoTransmit(s, r))
  {
    var s' := DoTransmit(s, r);
    NewDataOnly(s, r);
    TransmitRecorded(s, r, s');
    SentParts(s, r, s');
    SenderMoves(s, s');
  }

  lemma SentParts(s: Sys, r: Sender, s': Sys)
    requires Sends(s, r) && Records(s, r)
    requires s'.snd == r && s'.next == s.next + |r.q| - |s.snd.q| && s'.log == s.log + r.q[|s.snd.q|..]
    ensures SenderOk(s.first, s.ack, s'.next, s'.snd) && LogOk(s.first, s.ack, s'.next, s'.log, s'.snd.q)
    ensures ReceiverOk(s.first, s.last, s'.next, s.rcv, s.got) && AckedOk(s.ack, s'.snd.q, s.got)
    ensures FastOk(s.ack, s'.next, s'.snd.q, s.fast) && WindowOk(s.maxReceiveBuffer, s'.snd.nBytes, s'.snd.rwnd)
    ensures FragmentsOk(s'.log, s'.snd.pending) && HeadsGrow(s.snd.heads, s'.snd.heads) && s.log <= s'.log
    ensures s'.snd.useForwardTSN == s.snd.useForwardTSN && s.next <= s'.next
  {}

  lemma TransmitRecorded(s: Sys, r: Sender, s': Sys)
    requires |s.snd.q| <= |r.q| && s.snd.nBytes <= r.nBytes && s' == DoTransmit(s, r)
    ensures && s' == s.(snd := r, next := s'.next, log := s'.log, net := s'.net, entered := s'.entered)
            && s'.next == s.next + |r.q| - |s.snd.q| && s'.log == s.log + r.q[|s.snd.q|..]
            && s'.entered == s.entered + r.nBytes - s.snd.nBytes
  {}

  lemma TransmitKeeps(s: Sys, a: Action)
    requires SysInv(s) && Enabled(s, a) && a.Transmit?
    ensures Succeeds(s, a) && SysInv(Do(s, a))
  {
    TransmitSender(s, a.now);
    TransmitHistory(s, a.now);
    SendsKeeps(s, PopPending(s.snd, a.now).s);
  }

  // ---- DATA and FORWARD TSN come in ----

  /** The receiver moves its cumulative TSN up by `n` and drops what lies at or below it. */
  lemma ReceiverShifts(first: nat, last: nat, next: nat, r: Receiver, got: set<nat>, r': Receiver, n: nat)
    requires ReceiverOk(first, last, next, r, got) && last + n < next && r'.peerLast == Plus(r.peerLast, n)
    requires r'.queue == set k | k in r.queue && Dist(r.peerLast, k) > n
    ensures ReceiverOk(first, last + n, next, r', got)
  {
    Extended(last, n);
    DistPlus(r.peerLast, n);
    forall k | k in r'.queue ensures 1 <= Dist(r'.peerLast, k) < next - (last + n) {
      DistSplits(r.peerLast, r'.peerLast, k);
    }
    forall o | 1 <= o < next - (last + n) ensures last + n + o in got <==> Plus(r'.peerLast, o) in r'.queue {
      PlusAdds(r.peerLast, n, o);
      DistPlus(r.peerLast, n + o);
      assert last + (n + o) in got <==> Plus(r.peerLast, n + o) in r.queue;
    }
  }

  /** Draining passes over TSNs that were handed up and stops below one that was not. */
  lemma DrainKeeps(first: nat, last: nat, next: nat, r: Receiver, got: set<nat>) returns (n: nat)
    requires ReceiverOk(first, last, next, r, got)
    ensures ReceiverOk(first, last + n, next, Drain(r), got)
    ensures Dist(r.peerLast, Drain(r).peerLast) == n && last + n + 1 !in got
    ensures forall t :: last < t <= last + n ==> t in got
  {
    n := DrainMeaning(r);
    DistPlus(r.peerLast, n);
    if n > 0 { assert Plus(r.peerLast, n) in r.queue; }
    ReceiverShifts(first, last, next, r, got, Drain(r), n);
    forall t | last < t <= last + n ensures t in got {
      assert Plus(r.peerLast, t - last) in r.queue;
    }
  }

  /** An arriving TSN can be pushed exactly when it has not been handed up or skipped before. */
  lemma ArrivalIsNew(first: nat, last: nat, next: nat, r: Receiver, got: set<nat>, t: nat)
    requires ReceiverOk(first, last, next, r, got) && first <= t < next && last - t < LIFETIME
    ensures CanPush(r, U32(t)) <==> t > last && t !in got
    ensures t > last ==> U32(t) == Plus(r.peerLast, t - last)
  {
    SerialOrderIsTrueOrder(t, last);
    if t > last {
      Extended(last, t - last);
      assert last + (t - last) in got <==> Plus(r.peerLast, t - last) in r.queue;
    }
  }

  lemma PushKeeps(first: nat, last: nat, next: nat, r: Receiver, got: set<nat>, t: nat)
    requires ReceiverOk(first, last, next, r, got) && first <= t && last < t < next
    requires U32(t) == Plus(r.peerLast, t - last)
    ensures ReceiverOk(first, last, next, r.(queue := r.queue + {U32(t)}), got + {t})
  {
    DistPlus(r.peerLast, t - last);
    forall o | 1 <= o < next - last ensures last + o in got + {t} <==> Plus(r.peerLast, o) in r.queue + {U32(t)} {
      DistPlus(r.peerLast, o);
    }
  }

  /** A step of the receiver alone. */
  lemma ReceiverMoves(s: Sys, s': Sys)
    requires SysInv(s)
    requires s' == s.(rcv := s'.rcv, last := s'.last, handed := s'.handed, got := s'.got, skipped := s'.skipped)
    requires s.last <= s'.last && s.got <= s'.got && s.skipped <= s'.skipped
    requires ReceiverOk(s.first, s'.last, s.next, s'.rcv, s'.got) && PrefixOk(s.first, s'.last, s'.got, s'.skipped)
    requires HandedOk(s'.handed, s'.got) && SkippedOk(s.first, s.log, s.snd.heads, s'.skipped)
    ensures SysInv(s')
  {
    NetStaysOk(s, s');
  }

  lemma DataArrives(first: nat, last: nat, next: nat, r: Receiver, got: set<nat>, skipped: set<nat>,
                    t: nat, streamOk: bool, credit: u32) returns (n: nat)
    requires ReceiverOk(first, last, next, r, got) && PrefixOk(first, last, got, skipped)
    requires first <= t < next && last - t < LIFETIME
    ensures var kept := Keeps(r, U32(t), streamOk, credit);
            var r', got' := HandleData(r, U32(t), streamOk, credit), if kept then got + {t} else got;
            && n == Dist(r.peerLast, r'.peerLast) && (kept ==> t !in got)
            && ReceiverOk(first, last + n, next, r', got') && PrefixOk(first, last + n, got', skipped)
  {
    n := 0;
    ArrivalIsNew(first, last, next, r, got, t);
    if !CanPush(r, U32(t)) || streamOk {
      var kept := Keeps(r, U32(t), streamOk, credit);
      if kept { PushKeeps(first, last, next, r, got, t); }
      n := DrainKeeps(first, last, next, if kept then r.(queue := r.queue + {U32(t)}) else r,
                      if kept then got + {t} else got);
    }
  }

  lemma HandedGrows(handed: seq<nat>, got: set<nat>, t: nat)
    requires HandedOk(handed, got) && t !in got
    ensures HandedOk(handed + [t], got + {t})
  {}

  lemma DataReceived(s: Sys, t: nat, streamOk: bool, credit: u32)
    requires ReceiverOk(s.first, s.last, s.next, s.rcv, s.got) && PrefixOk(s.first, s.last, s.got, s.skipped)
    requires s.first <= t < s.next && s.last - t < LIFETIME
    ensures Keeps(s.rcv, U32(t), streamOk, credit) ==> t !in s.got
    ensures var s' := DoData(s, t, streamOk, credit);
            && ReceiverOk(s.first, s'.last, s.next, s'.rcv, s'.got) && PrefixOk(s.first, s'.last, s'.got, s.skipped)
            && s.last <= s'.last
  {
    var n := DataArrives(s.first, s.last, s.next, s.rcv, s.got, s.skipped, t, streamOk, credit);
    DataRecorded(s, t, streamOk, credit);
  }

  lemma DataRecorded(s: Sys, t: nat, streamOk: bool, credit: u32)
    ensures var s', r := DoData(s, t, streamOk, credit), HandleData(s.rcv, U32(t), streamOk, credit);
            && s'.rcv == r && s'.last == s.last + Dist(s.rcv.peerLast, r.peerLast)
            && s'.got == if Keeps(s.rcv, U32(t), streamOk, credit) then s.got + {t} else s.got
  {}

  lemma DataMoves(s: Sys, t: nat, streamOk: bool, credit: u32)
    requires ReceiverOk(s.first, s.last, s.next, s.rcv, s.got) && PrefixOk(s.first, s.last, s.got, s.skipped)
    requires HandedOk(s.handed, s.got) && s.first <= t < s.next && s.last - t < LIFETIME
    ensures var s' := DoData(s, t, streamOk, credit);
            && ReceiverOk(s.first, s'.last, s.next, s'.rcv, s'.got) && PrefixOk(s.first, s'.last, s'.got, s.skipped)
            && HandedOk(s'.handed, s'.got) && s.last <= s'.last && s.got <= s'.got
  {
    DataReceived(s, t, streamOk, credit);
    if Keeps(s.rcv, U32(t), streamOk, credit) { HandedGrows(s.handed, s.got, t); }
  }

  lemma DeliverDataKeeps(s: Sys, a: Action)
    requires SysInv(s) && Enabled(s, a) && a.DeliverData?
    ensures Succeeds(s, a) && SysInv(Do(s, a))
  {
    assert MsgOk(s, Data(a.t));
    DataMoves(s, a.t, a.streamOk, a.credit);
    ReceiverMoves(s, DoData(s, a.t, a.streamOk, a.credit));
  }

  lemma SkipKeeps(first: nat, last: nat, next: nat, r: Receiver, got: set<nat>, to: nat)
    requires ReceiverOk(first, last, next, r, got) && last <= to < next
    ensures Dist(r.peerLast, U32(to)) == to - last
    ensures ReceiverOk(first, to, next, SkipTo(r, U32(to)), got)
  {
    Extended(last, to - last);
    SkipsTo(first, last, next, r, got, to - last, U32(to));
  }

  lemma SkipsTo(first: nat, last: nat, next: nat, r: Receiver, got: set<nat>, n: nat, x: u32)
    requires ReceiverOk(first, last, next, r, got) && last + n < next
    requires x == Plus(r.peerLast, n) && Dist(r.peerLast, x) == n
    ensures ReceiverOk(first, last + n, next, SkipTo(r, x), got)
  {
    SkipMeaning(r, x);
    ReceiverShifts(first, last, next, r, got, SkipTo(r, x), n);
  }

  lemma ForwardArrives(first: nat, last: nat, next: nat, r: Receiver, got: set<nat>, skipped: set<nat>, to: nat)
    returns (n: nat)
    requires ReceiverOk(first, last, next, r, got) && PrefixOk(first, last, got, skipped)
    requires to < next && last - to < LIFETIME
    ensures var r', skipped' := HandleForwardTSN(r, U32(to), true), skipped + (set u | last < u <= to && u !in got);
            && n == Dist(r.peerLast, r'.peerLast)
            && ReceiverOk(first, last + n, next, r', got) && PrefixOk(first, last + n, got, skipped')
  {
    n := 0;
    SerialOrderIsTrueOrder(to, last);
    if to > last {
      SkipKeeps(first, last, next, r, got, to);
      var m := DrainKeeps(first, to, next, SkipTo(r, U32(to)), got);
      n := m + (to - last);
      DistAdds(r.peerLast, U32(to), Drain(SkipTo(r, U32(to))).peerLast);
      PrefixSkips(first, last, got, skipped, to, m);
    } else {
      assert (set u | last < u <= to && u !in got) == {};
    }
  }

  /** Skipping up to `to` and taking the contiguous TSNs after it. */
  lemma PrefixSkips(first: nat, last: nat, got: set<nat>, skipped: set<nat>, to: nat, m: nat)
    requires PrefixOk(first, last, got, skipped) && first <= last + 1 && last <= to
    requires to + m + 1 !in got && forall t :: to < t <= to + m ==> t in got
    ensures PrefixOk(first, to + m, got, skipped + (set u | last < u <= to && u !in got))
  {}

  lemma ForwardMoves(s: Sys, from: nat, to: nat)
    requires ReceiverOk(s.first, s.last, s.next, s.rcv, s.got) && PrefixOk(s.first, s.last, s.got, s.skipped)
    requires SkippedOk(s.first, s.log, s.snd.heads, s.skipped) && s.ack <= s.last
    requires MsgOk(s, Fwd(from, to)) && s.last - to < LIFETIME
    ensures var s' := DoForward(s, to);
            && ReceiverOk(s.first, s'.last, s.next, s'.rcv, s.got) && PrefixOk(s.first, s'.last, s.got, s'.skipped)
            && SkippedOk(s.first, s.log, s.snd.heads, s'.skipped) && s.last <= s'.last
  {
    var n := ForwardArrives(s.first, s.last, s.next, s.rcv, s.got, s.skipped, to);
  }

  lemma DeliverForwardKeeps(s: Sys, a: Action)
    requires SysInv(s) && Enabled(s, a) && a.DeliverForward?
    ensures Succeeds(s, a) && SysInv(Do(s, a))
  {
    assert MsgOk(s, Fwd(a.from, a.to));
    ForwardMoves(s, a.from, a.to);
    ReceiverMoves(s, DoForward(s, a.to));
  }

  // ---- A SACK comes in ----

  /** What a SACK does to the chunks that stay in flight. */
  ghost predicate AfterSack(q: seq<Chunk>, q': seq<Chunk>, n: nat, gaps: seq<Gap>) {
    && |q'| == |q| - n
    && forall k :: 0 <= k < |q'| ==>
         && q'[k].msg == q[k + n].msg && q'[k].nSent == q[k + n].nSent
         && (q'[k].acked <==> q[k + n].acked || Covered(gaps, k + 1))
  }

  lemma SackOnChunks(s: Sender, d: Sack)
    requires Inv(s) && Acceptable(s, d) && !Sna32GT(s.cum, d.cum)
    ensures AfterSack(s.q, HandleSack(s, d).s.q, Dist(s.cum, d.cum), d.gaps)
  {
    MarkedExact(s, d);
    ReactedFacts(s, d);
    var n, m, q := Dist(s.cum, d.cum), Marked(s, d), HandleSack(s, d).s.q;
    forall k | 0 <= k < |q|
      ensures && q[k].msg == s.q[k + n].msg && q[k].nSent == s.q[k + n].nSent
              && (q[k].acked <==> s.q[k + n].acked || Covered(d.gaps, k + 1))
    {
      assert OnlyMissed(m.q[k], q[k]) && AckedWhen(s.q[k + n], m.q[k], Covered(d.gaps, k + 1));
    }
  }

  lemma SackWindow(s: Sender, d: Sack, maxReceiveBuffer: u32)
    requires Inv(s) && Acceptable(s, d) && !Sna32GT(s.cum, d.cum) && d.rwnd <= maxReceiveBuffer
    requires WindowOk(maxReceiveBuffer, s.nBytes, s.rwnd)
    ensures var r := HandleSack(s, d).s; WindowOk(maxReceiveBuffer, r.nBytes, r.rwnd)
  {
    MarkedConserves(s, d, None);
    U32OfSmall(Marked(s, d).nBytes);
  }

  lemma SackAcked(ack: nat, q: seq<Chunk>, q': seq<Chunk>, got: set<nat>, cum: nat, gaps: seq<Gap>)
    requires AckedOk(ack, q, got) && forall i :: 0 <= i < |gaps| ==> GapTrue(got, cum, gaps[i])
    requires ack <= cum && AfterSack(q, q', cum - ack, gaps)
    ensures AckedOk(cum, q', got)
  {
    forall k | 0 <= k < |q'| && q'[k].acked ensures cum + 1 + k in got {
      if q[k + (cum - ack)].acked {
        assert ack + 1 + (k + (cum - ack)) in got;
      } else {
        var i :| 0 <= i < |gaps| && Covers(gaps[i], k + 1);
        assert GapTrue(got, cum, gaps[i]) && Has(got, cum, k + 1);
      }
    }
  }

  lemma SackShifts(first: nat, ack: nat, next: nat, log: seq<Chunk>, q: seq<Chunk>, q': seq<Chunk>,
                   fast: multiset<nat>, cum: nat, gaps: seq<Gap>)
    requires LogOk(first, ack, next, log, q) && FastOk(ack, next, q, fast)
    requires ack <= cum && AfterSack(q, q', cum - ack, gaps)
    ensures LogOk(first, cum, next, log, q') && FastOk(cum, next, q', fast)
  {
    forall k | 0 <= k < |q'| ensures q'[k].msg == log[cum + 1 + k - first].msg {
      assert q[k + (cum - ack)].msg == log[ack + 1 + (k + (cum - ack)) - first].msg;
    }
    forall t | t in fast && cum < t <= cum + |q'| ensures q'[t - cum - 1].nSent >= 2 {
      assert q[t - ack - 1].nSent >= 2 && q'[t - cum - 1].nSent == q[(t - cum - 1) + (cum - ack)].nSent;
    }
  }

  lemma SackSender(s: Sys, a: Action)
    requires SysInv(s) && Enabled(s, a) && a.DeliverSack? && a.cum >= s.ack
    ensures Acceptable(s.snd, Wire(a))
    ensures var r := HandleSack(s.snd, Wire(a));
            && SenderOk(s.first, a.cum, s.next, r.s) && WindowOk(s.maxReceiveBuffer, r.s.nBytes, r.s.rwnd)
            && CreditOf(r.credit, None) + r.s.nBytes == s.snd.nBytes
            && r.s.heads == s.snd.heads && r.s.pending == s.snd.pending && r.s.useForwardTSN == s.snd.useForwardTSN
  {
    HonestSackAcceptable(s, a);
    assert MsgOk(s, Ackn(a.cum, a.gaps, a.rwnd));
    HandleSackKeepsInv(s.snd, Wire(a));
    HandleSackConservesCredit(s.snd, Wire(a), None);
    SackOnChunks(s.snd, Wire(a));
    SackWindow(s.snd, Wire(a), s.maxReceiveBuffer);
  }

  lemma SackLinks(s: Sys, a: Action)
    requires SysInv(s) && Enabled(s, a) && a.DeliverSack? && a.cum >= s.ack
    ensures Acceptable(s.snd, Wire(a))
    ensures var q := HandleSack(s.snd, Wire(a)).s.q;
            && LogOk(s.first, a.cum, s.next, s.log, q) && AckedOk(a.cum, q, s.got) && FastOk(a.cum, s.next, q, s.fast)
  {
    HonestSackAcceptable(s, a);
    assert MsgOk(s, Ackn(a.cum, a.gaps, a.rwnd));
    SackOnChunks(s.snd, Wire(a));
    QueueLinks(s, HandleSack(s.snd, Wire(a)).s.q, a.cum, a.gaps);
  }

  lemma QueueLinks(s: Sys, q: seq<Chunk>, cum: nat, gaps: seq<Gap>)
    requires LogOk(s.first, s.ack, s.next, s.log, s.snd.q) && AckedOk(s.ack, s.snd.q, s.got)
    requires FastOk(s.ack, s.next, s.snd.q, s.fast) && s.ack <= cum
    requires AfterSack(s.snd.q, q, cum - s.ack, gaps) && forall i :: 0 <= i < |gaps| ==> GapTrue(s.got, cum, gaps[i])
    ensures LogOk(s.first, cum, s.next, s.log, q) && AckedOk(cum, q, s.got) && FastOk(cum, s.next, q, s.fast)
  {
    SackAcked(s.ack, s.snd.q, q, s.got, cum, gaps);
    SackShifts(s.first, s.ack, s.next, s.log, s.snd.q, q, s.fast, cum, gaps);
  }

  lemma DeliverSackKeeps(s: Sys, a: Action)
    requires SysInv(s) && Enabled(s, a) && a.DeliverSack?
    ensures Succeeds(s, a) && SysInv(Do(s, a))
  {
    HonestSackAcceptable(s, a);
    var s' := DoSack(s, a);
    assert MsgOk(s, Ackn(a.cum, a.gaps, a.rwnd));
    if a.cum >= s.ack {
      SackSender(s, a);
      SackLinks(s, a);
      SenderMoves(s, s');
    } else {
      TotalOfEmpty(0x1_0000);
      assert s' == s;
    }
  }

  // ---- Runs ----

  lemma InitHolds(s: Sys)
    requires Init(s)
    ensures SysInv(s)
  {}

  /** No enabled action fails, and each keeps the invariant. */
  lemma ActionKeeps(s: Sys, a: Action)
    requires SysInv(s) && Enabled(s, a)
    ensures Succeeds(s, a) && SysInv(Do(s, a))
  {
    match a
    case Write(_) => WriteKeeps(s, a);
    case Transmit(_) => TransmitKeeps(s, a);
    case ResendT3(_) => ResendT3Keeps(s, a);
    case ResendFast(_) => ResendFastKeeps(s, a);
    case Timeout => TimeoutKeeps(s, a);
    case SendForward => SendForwardKeeps(s, a);
    case DeliverData(_, _, _) => DeliverDataKeeps(s, a);
    case DeliverForward(_, _) => DeliverForwardKeeps(s, a);
    case EmitSack(_, _) => EmitSackKeeps(s, a);
    case DeliverSack(_, _, _) => DeliverSackKeeps(s, a);
  }

  lemma StepIsAction(s: Sys, s': Sys) returns (a: Action)
    requires SysInv(s) && Step(s, s')
    ensures Enabled(s, a) && Succeeds(s, a) && s' == Do(s, a) && SysInv(s')
  {
    a :| Enabled(s, a) && s' == if Succeeds(s, a) then Do(s, a) else s.(failed := true);
    ActionKeeps(s, a);
  }

  /** The action that leads from one state of a run to the next. */
  lemma RunStep(run: seq<Sys>, i: nat) returns (a: Action)
    requires IsRun(run) && i + 1 < |run| && SysInv(run[i])
    ensures Enabled(run[i], a) && Succeeds(run[i], a) && run[i + 1] == Do(run[i], a) && SysInv(run[i + 1])
  {
    var j := i + 1;
    assert Step(run[i], run[j]);
    a := StepIsAction(run[i], run[j]);
  }

  /** Every state of every run satisfies the invariant. */
  lemma {:induction false} RunsAreSafe(run: seq<Sys>, i: nat)
    requires IsRun(run) && i < |run|
    ensures SysInv(run[i])
  {
    if i == 0 {
      InitHolds(run[0]);
    } else {
      RunsAreSafe(run, i - 1);
      var a := RunStep(run, i - 1);
    }
  }

  // ---- What that means ----

  /** In flight is exactly the contiguous range after the ack point; the sender's ack point never passes
      the receiver's cumulative TSN, which never passes the last TSN sent; and no SACK or other step has
      ever met an error. */
  lemma InFlightIsExact(run: seq<Sys>, i: nat)
    requires IsRun(run) && i < |run|
    ensures var s := run[i];
            && !s.failed && s.ack <= s.last < s.next && |s.snd.q| == s.next - 1 - s.ack
            && (forall k :: 0 <= k < |s.snd.q| ==> s.snd.q[k].tsn == U32(s.ack + 1 + k))
            && s.snd.cum == U32(s.ack) && s.rcv.peerLast == U32(s.last)
            && s.snd.nBytes == Bytes(s.snd.q, None)
  {
    RunsAreSafe(run, i);
    var s := run[i];
    forall k | 0 <= k < |s.snd.q| ensures s.snd.q[k].tsn == U32(s.ack + 1 + k) { Extended(s.ack, k + 1); }
  }

  /** However the network behaves, each TSN goes to the stream layer at most once, and the cumulative TSN
      is the end of the maximal prefix received or skipped. */
  lemma HandedAtMostOnce(run: seq<Sys>, i: nat, t: nat)
    requires IsRun(run) && i < |run|
    ensures var s := run[i];
            && multiset(s.handed)[t] <= 1
            && (s.first <= t <= s.last ==> t in s.handed || t in s.skipped) && s.last + 1 !in s.handed
  {
    RunsAreSafe(run, i);
    DistinctCountsOnce(run[i].handed, t);
  }

  lemma {:induction false} DistinctCountsOnce(h: seq<nat>, t: nat)
    requires forall i, j :: 0 <= i < j < |h| ==> h[i] != h[j]
    ensures multiset(h)[t] <= 1
  {
    if h != [] {
      var l := h[..|h| - 1];
      DistinctCountsOnce(l, t);
      assert h == l + [h[|h| - 1]];
      if t == h[|h| - 1] { assert t !in l; }
    }
  }

  /** What the sender sees acknowledged was delivered, or was abandoned by the sender itself. */
  lemma AcknowledgedWasDelivered(run: seq<Sys>, i: nat, t: nat)
    requires IsRun(run) && i < |run|
    ensures var s := run[i];
            && (s.first <= t <= s.ack ==> t in s.handed || GivenUp(s.first, s.log, s.snd.heads, t))
            && (s.ack < t <= s.ack + |s.snd.q| && s.snd.q[t - s.ack - 1].acked ==> t in s.handed)
  {
    RunsAreSafe(run, i);
    var s := run[i];
    if s.ack < t <= s.ack + |s.snd.q| && s.snd.q[t - s.ack - 1].acked { assert s.ack + 1 + (t - s.ack - 1) in s.got; }
  }

  /** Bytes put in flight are credited to streams exactly once: what is not yet credited is in flight. */
  lemma CreditIsConserved(run: seq<Sys>, i: nat)
    requires IsRun(run) && i < |run|
    ensures run[i].credited + Bytes(run[i].snd.q, None) == run[i].entered
  {
    RunsAreSafe(run, i);
  }

  /** A TSN is fast-retransmitted at most once in its lifetime, and fragments of a message carry
      consecutive TSNs in order. */
  lemma FastOnceAndFragmentsTogether(run: seq<Sys>, i: nat)
    requires IsRun(run) && i < |run|
    ensures (forall t :: run[i].fast[t] <= 1) && Linked(run[i].log)
  {
    RunsAreSafe(run, i);
  }

  /** Only the transmission of new data assigns TSNs. */
  lemma OnlyTransmitAssigns(s: Sys, a: Action)
    requires Enabled(s, a) && Succeeds(s, a) && !a.Transmit?
    ensures Do(s, a).next == s.next
  {}

  lemma TransmitFits(s: Sys, now: int)
    requires SysInv(s) && Enabled(s, Transmit(now)) && Succeeds(s, Transmit(now))
    requires Do(s, Transmit(now)).next != s.next
    ensures var s0, r := s.snd, Do(s, Transmit(now)).snd;
            && Do(s, Transmit(now)).next == s.next + |r.q| - |s0.q|
            && (|| (r.nBytes <= s0.cc.cwnd && r.nBytes - s0.nBytes == s0.rwnd - r.rwnd)
                || (s0.q == [] && |r.q| == 1 && r.rwnd == s0.rwnd && (r.nBytes > s0.cc.cwnd || r.nBytes > s0.rwnd)))
  {
    PopPendingDiscipline(s.snd, now);
    TransmitGrows(s, now);
  }

  /** In every run, a step that puts data in flight keeps the flight within cwnd and is paid for by rwnd; the one
      exception is a single chunk sent while nothing was in flight. */
  lemma NewDataFitsWindows(run: seq<Sys>, i: nat)
    requires IsRun(run) && i + 1 < |run| && run[i + 1].next != run[i].next
    ensures var s, s' := run[i].snd, run[i + 1].snd;
            && run[i + 1].next == run[i].next + |s'.q| - |s.q|
            && (|| (s'.nBytes <= s.cc.cwnd && s'.nBytes - s.nBytes == s.rwnd - s'.rwnd)
                || (s.q == [] && |s'.q| == 1 && s'.rwnd == s.rwnd && (s'.nBytes > s.cc.cwnd || s'.nBytes > s.rwnd)))
  {
    RunsAreSafe(run, i);
    var a := RunStep(run, i);
    if a.Transmit? { TransmitFits(run[i], a.now); } else { OnlyTransmitAssigns(run[i], a); }
  }

  /** In every state of every run, what a T3 timeout would retransmit fits both windows or is the oldest chunk alone,
      and what a fast retransmission would send fits one packet. */
  lemma ResentDataFitsWindows(run: seq<Sys>, i: nat, now: int)
    requires IsRun(run) && i < |run|
    ensures var s := run[i].snd;
            var r, f := Retransmit(s, now), FastRetransmit(s, now);
            && (|| Cost(r.picks, 0) <= Min(s.cc.cwnd, s.rwnd)
                || (|r.picks| == 1 && s.q != [] && r.picks[0].tsn == s.q[0].tsn && s.rwnd < s.q[0].len))
            && (f.picks == [] || COMMON_HEADER_SIZE + Cost(f.picks, DATA_CHUNK_HEADER_SIZE) <= s.mtu)
  {
    RunsAreSafe(run, i);
    RetransmitDiscipline(run[i].snd, now);
    FastRetransmitDiscipline(run[i].snd, now);
  }

  /** In every state of every run the fast-recovery exit point is a TSN still in flight, the forward point
      lies between the ack point and the last TSN sent with only abandoned chunks up to it, and no chunk is
      counted missing more than three times. */
  lemma PointsAreInFlight(run: seq<Sys>, i: nat)
    requires IsRun(run) && i < |run|
    ensures var s := run[i].snd;
            && (s.cc.inFastRecovery ==>
                  var k := Dist(s.cum, s.cc.fastRecoverExitPoint);
                  1 <= k <= |s.q| && s.q[k - 1].tsn == s.cc.fastRecoverExitPoint == U32(run[i].ack + k))
            && (s.useForwardTSN ==>
                  var k := Dist(s.cum, s.adv);
                  k <= |s.q| && s.adv == U32(run[i].ack + k) && forall j :: 0 <= j < k ==> Abandoned(s.heads, s.q[j]))
            && (forall j :: 0 <= j < |s.q| ==> s.q[j].missIndicator <= 3)
  {
    RunsAreSafe(run, i);
    PointsOk(run[i].ack, run[i].snd);
  }

  lemma PointsOk(ack: nat, s: Sender)
    requires Inv(s) && s.cum == U32(ack)
    ensures s.cc.inFastRecovery ==>
              var k := Dist(s.cum, s.cc.fastRecoverExitPoint);
              1 <= k <= |s.q| && s.q[k - 1].tsn == s.cc.fastRecoverExitPoint == U32(ack + k)
    ensures s.useForwardTSN ==>
              var k := Dist(s.cum, s.adv);
              k <= |s.q| && s.adv == U32(ack + k) && forall j :: 0 <= j < k ==> Abandoned(s.heads, s.q[j])
    ensures forall j :: 0 <= j < |s.q| ==> s.q[j].missIndicator <= 3
  {
    if s.cc.inFastRecovery { Extended(ack, Dist(s.cum, s.cc.fastRecoverExitPoint)); }
    if s.useForwardTSN { Extended(ack, Dist(s.cum, s.adv)); }
    assert forall j :: 0 <= j < |s.q| ==> ChunkOk(s.q[j]);
  }
}
