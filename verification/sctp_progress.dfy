/** What arrives is taken in, and a run can always be brought to the end. */
module SctpProgress {
  import opened Serial
  import opened SctpSender
  import opened SctpChunks
  import opened SctpTransmit
  import opened SctpTransmitProofs
  import opened SctpSackResponse
  import P = SctpPendingProofs
  import opened SctpReceiver
  import opened SctpArrivals
  import opened SctpRuns
  import opened SctpRunProofs

  // ---- Arrivals in a run ----

  /** In extended numbers: data already received lies above `t`. */
  ghost predicate FillsHole(s: Sys, t: nat) { exists u :: u in s.got && u > t }

  lemma OrderInQueue(last: nat, next: nat, peerLast: u32, t: nat, u: nat)
    requires last < t < next && last < u < next <= last + 1 + MAX_OUTSTANDING && peerLast == U32(last)
    ensures U32(t) == Plus(peerLast, t - last) && U32(u) == Plus(peerLast, u - last)
    ensures Sna32LT(U32(t), U32(u)) <==> t < u
  {
    Extended(last, t - last);
    Extended(last, u - last);
    SerialOrderIsTrueOrder(t, u);
  }

  lemma HoleMeaning(s: Sys, t: nat)
    requires ReceiverOk(s.first, s.last, s.next, s.rcv, s.got) && s.last < t < s.next
    ensures Fills(s.rcv, U32(t)) <==> FillsHole(s, t)
  {
    if Fills(s.rcv, U32(t)) {
      var k :| k in s.rcv.queue && Sna32LT(U32(t), k);
      var o := Dist(s.rcv.peerLast, k);
      assert Plus(s.rcv.peerLast, o) == k;
      OrderInQueue(s.last, s.next, s.rcv.peerLast, t, s.last + o);
      assert s.last + o in s.got;
    }
    if FillsHole(s, t) {
      var u :| u in s.got && u > t;
      OrderInQueue(s.last, s.next, s.rcv.peerLast, t, u);
      assert s.last + (u - s.last) in s.got <==> Plus(s.rcv.peerLast, u - s.last) in s.rcv.queue;
    }
  }

  lemma KeptMeaning(s: Sys, t: nat, streamOk: bool, credit: u32)
    requires SysInv(s) && Enabled(s, DeliverData(t, streamOk, credit))
    ensures Keeps(s.rcv, U32(t), streamOk, credit) <==>
              streamOk && t > s.last && t !in s.got && (credit > 0 || FillsHole(s, t))
  {
    assert MsgOk(s, Data(t));
    ArrivalIsNew(s.first, s.last, s.next, s.rcv, s.got, t);
    if t > s.last { HoleMeaning(s, t); }
  }

  /** In every run, DATA that arrives is handed to its stream exactly if the stream is open, it is above the cumulative
      TSN and was not handed before, and there is room in the receive buffer or later data has been received. */
  lemma ArrivalIsHanded(run: seq<Sys>, i: nat, t: nat, streamOk: bool, credit: u32)
    requires IsRun(run) && i < |run| && Enabled(run[i], DeliverData(t, streamOk, credit))
    ensures var s := run[i];
            DoData(s, t, streamOk, credit).handed ==
              if streamOk && t > s.last && t !in s.handed && (credit > 0 || FillsHole(s, t)) then s.handed + [t]
              else s.handed
  {
    RunsAreSafe(run, i);
    KeptMeaning(run[i], t, streamOk, credit);
  }

  lemma SkippedAreBelow(first: nat, last: nat, last': nat, got: set<nat>, skipped: set<nat>, to: nat)
    requires PrefixOk(first, last', got, skipped + (set u | last < u <= to && u !in got)) && last <= last'
    ensures to <= last'
  {
    var above := set u | last < u <= to && u !in got;
    assert last' + 1 in above ==> last' + 1 in skipped + above;
  }

  /** A FORWARD TSN that arrives moves the cumulative TSN at least as far as it says. */
  lemma ForwardIsFollowed(run: seq<Sys>, i: nat, from: nat, to: nat)
    requires IsRun(run) && i < |run| && Enabled(run[i], DeliverForward(from, to))
    ensures DoForward(run[i], to).last >= to
  {
    var s := run[i];
    RunsAreSafe(run, i);
    assert MsgOk(s, Fwd(from, to));
    ForwardMoves(s, from, to);
    SkippedAreBelow(s.first, s.last, DoForward(s, to).last, s.got, s.skipped, to);
  }

  // ---- Bringing a run to the end ----

  /** Every TSN assigned so far was put on the network. */
  ghost predicate AllSent(s: Sys) { forall t :: s.first <= t < s.next ==> Data(t) in s.net }

  lemma ActionSends(s: Sys, a: Action)
    requires SysInv(s) && AllSent(s) && Enabled(s, a) && Succeeds(s, a)
    ensures AllSent(Do(s, a))
  {
    if a.Transmit? {
      TransmitGrows(s, a.now);
    } else {
      OnlyTransmitAssigns(s, a);
    }
  }

  lemma StepSends(s: Sys, s': Sys)
    requires SysInv(s) && AllSent(s) && Step(s, s')
    ensures AllSent(s')
  {
    var a := StepIsAction(s, s');
    ActionSends(s, a);
  }

  lemma {:induction false} RunsSend(run: seq<Sys>, i: nat)
    requires IsRun(run) && i < |run|
    ensures AllSent(run[i])
  {
    if i > 0 {
      var j := i - 1;
      RunsSend(run, j);
      RunsAreSafe(run, j);
      StepSends(run[j], run[i]);
    }
  }

  /** These actions can be carried out one after the other. */
  ghost predicate CanRun(s: Sys, actions: seq<Action>)
    decreases |actions|
  {
    actions == [] ||
    (Enabled(s, actions[0]) && Succeeds(s, actions[0]) && CanRun(Do(s, actions[0]), actions[1..]))
  }

  ghost function After(s: Sys, actions: seq<Action>): Sys
    requires CanRun(s, actions)
    decreases |actions|
  {
    if actions == [] then s else After(Do(s, actions[0]), actions[1..])
  }

  lemma RunFirst(s: Sys, a: Action, rest: seq<Action>)
    requires Enabled(s, a) && Succeeds(s, a) && CanRun(Do(s, a), rest)
    ensures CanRun(s, [a] + rest) && After(s, [a] + rest) == After(Do(s, a), rest)
  {
    var actions := [a] + rest;
    assert actions[0] == a && actions[1..] == rest;
  }

  lemma NextMoves(s: Sys, a: Action)
    requires SysInv(s) && AllSent(s) && s.last + 1 < s.next && a == DeliverData(s.last + 1, true, 1)
    ensures Enabled(s, a) && s.last < DoData(s, s.last + 1, true, 1).last
  {
    KeptMeaning(s, s.last + 1, true, 1);
    DataMoves(s, s.last + 1, true, 1);
  }

  /** Delivering the next TSN expected moves the cumulative TSN. */
  lemma NextIsTaken(s: Sys, a: Action)
    requires SysInv(s) && AllSent(s) && s.last + 1 < s.next && a == DeliverData(s.last + 1, true, 1)
    ensures Enabled(s, a) && Succeeds(s, a)
    ensures var s' := Do(s, a);
            && SysInv(s') && AllSent(s') && s.last < s'.last
            && s'.next == s.next && s'.snd == s.snd && s'.first == s.first && s'.entered == s.entered
  {
    NextMoves(s, a);
    ActionKeeps(s, a);
    ActionSends(s, a);
  }

  /** Once everything is received, one SACK acknowledges all of it. */
  lemma LastSack(s: Sys, credit: u32, emit: Action, deliver: Action)
    requires SysInv(s) && s.last + 1 == s.next && credit <= s.maxReceiveBuffer
    requires emit == EmitSack([], credit) && deliver == DeliverSack(s.last, [], credit)
    ensures Enabled(s, emit) && Succeeds(s, emit)
    ensures var s1 := Do(s, emit);
            && Enabled(s1, deliver) && Succeeds(s1, deliver)
            && var s' := Do(s1, deliver);
            && SysInv(s') && s'.ack + 1 == s'.next == s.next && s'.entered == s.entered && s'.first == s.first
  {
    assert s.rcv.queue == {};
    ActionKeeps(s, emit);
    var s1 := Do(s, emit);
    ActionKeeps(s1, deliver);
  }

  /** Everything assigned has arrived and is acknowledged. */
  ghost predicate Finished(s: Sys, first: nat, next: nat, entered: nat) {
    && s.first == first && s.next == next && s.snd.q == [] && s.credited == s.entered == entered
    && (forall t :: s.first <= t < s.next ==> t in s.handed || t in s.skipped)
  }

  lemma AllAckedIsFinished(s: Sys)
    requires SysInv(s) && s.ack + 1 == s.next
    ensures Finished(s, s.first, s.next, s.entered)
  {}

  lemma {:induction false} CanFinish(s: Sys, credit: u32) returns (actions: seq<Action>)
    requires SysInv(s) && AllSent(s) && credit <= s.maxReceiveBuffer
    ensures CanRun(s, actions) && Finished(After(s, actions), s.first, s.next, s.entered)
    decreases s.next - s.last
  {
    if s.last + 1 < s.next {
      var a := DeliverData(s.last + 1, true, 1);
      NextIsTaken(s, a);
      var rest := CanFinish(Do(s, a), credit);
      RunFirst(s, a, rest);
      actions := [a] + rest;
    } else {
      var emit, deliver := EmitSack([], credit), DeliverSack(s.last, [], credit);
      LastSack(s, credit, emit, deliver);
      AllAckedIsFinished(Do(Do(s, emit), deliver));
      RunFirst(Do(s, emit), deliver, []);
      RunFirst(s, emit, [deliver]);
      actions := [emit] + [deliver];
    }
  }

  /** From every state of every run there is a way to the end: a sequence of deliveries after which every TSN assigned
      has been handed to its stream or skipped, every byte put in flight is credited, and nothing is in flight. */
  lemma EveryRunCanFinish(run: seq<Sys>, i: nat, credit: u32) returns (actions: seq<Action>)
    requires IsRun(run) && i < |run| && credit <= run[i].maxReceiveBuffer
    ensures var s := run[i]; CanRun(s, actions) && Finished(After(s, actions), s.first, s.next, s.entered)
  {
    RunsAreSafe(run, i);
    RunsSend(run, i);
    actions := CanFinish(run[i], credit);
  }

  // ---- The retransmission timer ----

  predicate TimerExact(s: Sender) { s.t3Running <==> s.q != [] }

  lemma SackKeepsTimer(s: Sender, d: Sack)
    requires Inv(s) && Acceptable(s, d) && s.nBytes < 0x1_0000_0000 && TimerExact(s)
    ensures TimerExact(HandleSack(s, d).s)
  {
    if !Sna32GT(s.cum, d.cum) {
      SackUpdatesSender(s, d);
      assert s.cum == d.cum ==> |HandleSack(s, d).s.q| == |s.q|;
    }
  }

  lemma TransmitKeepsTimer(s: Sender, now: int)
    requires PendingWF(s.pending) && |s.q| + PendingSize(s.pending) <= FLIGHT_LIMIT && TimerExact(s)
    requires 0 <= s.nBytes && s.nBytes + s.rwnd < 0x1_0000_0000 && (s.q == [] ==> s.nBytes == 0)
    ensures TimerExact(PopPending(s, now).s)
  {
    var n := P.PopPendingIsMaximal(s, now);
    PopPendingAppends(s, now);
  }

  lemma TimerStays(s: Sys, a: Action)
    requires SysInv(s) && Enabled(s, a) && Succeeds(s, a) && TimerExact(s.snd)
    ensures TimerExact(Do(s, a).snd)
  {
    match a
    case Transmit(now) => TransmitKeepsTimer(s.snd, now);
    case DeliverSack(_, _, _) => SackKeepsTimer(s.snd, Wire(a));
    case _ =>
  }

  lemma StepKeepsTimer(s: Sys, s': Sys)
    requires SysInv(s) && TimerExact(s.snd) && Step(s, s')
    ensures TimerExact(s'.snd)
  {
    var a := StepIsAction(s, s');
    TimerStays(s, a);
  }

  /** In every run that starts with the timer stopped, the timer runs exactly while something is in flight. */
  lemma {:induction false} TimerRunsWithFlight(run: seq<Sys>, i: nat)
    requires IsRun(run) && i < |run| && !run[0].snd.t3Running
    ensures run[i].snd.t3Running <==> run[i].snd.q != []
  {
    if i > 0 {
      var j := i - 1;
      TimerRunsWithFlight(run, j);
      RunsAreSafe(run, j);
      StepKeepsTimer(run[j], run[i]);
    }
  }
}
