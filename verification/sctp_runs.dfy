/** Whole runs of an established association: one sender, one receiver and a network. */
module SctpRuns {
  // The network may drop, duplicate and reorder. Once sent a message stays available, so it can be delivered
  // any number of times, in any order, or never.
  //
  // Next to the two endpoints the state records history in extended (unbounded) TSNs: where the sender's ack
  // point and next TSN and the receiver's cumulative TSN really are, what was handed to the stream layer and in
  // what order, what was skipped, how many bytes were put in flight and credited, and whether an endpoint ever
  // met a state its code reports as an error.

  import opened Serial
  import opened Wrappers
  import opened SctpChunks
  import opened SctpSender
  import opened SctpTransmit
  import opened SctpTransmitProofs
  import opened SctpReceiver

  /** Gap offsets are 16 bits and 65535 does not fit, so no more than this many TSNs may be outstanding. */
  const MAX_OUTSTANDING := 65534
  /** A message is not delivered once it is this far out of date. */
  const LIFETIME := 0x8000_0000

  datatype Msg =
    | Data(t: nat)
    | Ackn(cum: nat, gaps: seq<Gap>, rwnd: u32)
    | Fwd(from: nat, to: nat)

  datatype Sys = Sys(
    first: nat, maxReceiveBuffer: u32,
    snd: Sender, rcv: Receiver, net: set<Msg>,
    ack: nat, next: nat, last: nat,
    log: seq<Chunk>, handed: seq<nat>, got: set<nat>, skipped: set<nat>, fast: multiset<nat>,
    entered: nat, credited: nat, failed: bool)

  // ---- Invariant ----

  /** The in-flight queue holds exactly the TSNs after the ack point and before the next one. */
  ghost predicate SenderOk(first: nat, ack: nat, next: nat, snd: Sender) {
    && 1 <= first <= ack + 1 && ack < next
    && snd.cum == U32(ack) && |snd.q| == next - 1 - ack <= MAX_OUTSTANDING
    && Inv(snd)
  }

  /** The log has one entry per TSN ever assigned, and tells which message each chunk in flight belongs to. */
  ghost predicate LogOk(first: nat, ack: nat, next: nat, log: seq<Chunk>, q: seq<Chunk>) {
    && first <= ack + 1 && |log| == next - first && |q| == next - 1 - ack
    && forall i :: 0 <= i < |q| ==> q[i].msg == log[ack + 1 + i - first].msg
  }

  /** The receiver's queue holds exactly what was handed up beyond its cumulative TSN. */
  ghost predicate ReceiverOk(first: nat, last: nat, next: nat, rcv: Receiver, got: set<nat>) {
    && first <= last + 1 && last < next <= last + 1 + MAX_OUTSTANDING && rcv.peerLast == U32(last)
    && (forall k :: k in rcv.queue ==> 1 <= Dist(rcv.peerLast, k) < next - last)
    && (forall o :: 1 <= o < next - last ==> (last + o in got <==> Plus(rcv.peerLast, o) in rcv.queue))
    && (forall t :: t in got ==> first <= t < next)
  }

  /** The cumulative TSN is the end of the maximal contiguous prefix received or skipped. */
  ghost predicate PrefixOk(first: nat, last: nat, got: set<nat>, skipped: set<nat>) {
    && (forall t :: first <= t <= last ==> t in got || t in skipped)
    && last + 1 !in got
    && (forall t :: t in skipped ==> first <= t <= last)
  }

  /** Each TSN is handed to the stream layer at most once. */
  ghost predicate HandedOk(handed: seq<nat>, got: set<nat>) {
    && (forall t :: t in got <==> t in handed)
    && (forall i, j :: 0 <= i < j < |handed| ==> handed[i] != handed[j])
  }

  /** Acknowledged means delivered. */
  ghost predicate AckedOk(ack: nat, q: seq<Chunk>, got: set<nat>) {
    forall i :: 0 <= i < |q| && q[i].acked ==> ack + 1 + i in got
  }

  ghost predicate GivenUp(first: nat, log: seq<Chunk>, heads: Heads, t: nat) {
    first <= t < first + |log| && Abandoned(heads, log[t - first])
  }

  /** Skipped means abandoned by the sender. */
  ghost predicate SkippedOk(first: nat, log: seq<Chunk>, heads: Heads, skipped: set<nat>) {
    forall t :: t in skipped ==> GivenUp(first, log, heads, t)
  }

  ghost predicate Has(got: set<nat>, cum: nat, o: nat) { cum + o in got }

  ghost predicate GapTrue(got: set<nat>, cum: nat, g: Gap) {
    g.start <= g.end ==> 1 <= g.start && forall o :: g.start <= o <= g.end ==> Has(got, cum, o)
  }

  ghost predicate MsgOk(s: Sys, m: Msg) {
    match m
    case Data(t) => s.first <= t < s.next
    case Ackn(cum, gaps, rwnd) =>
      && s.first <= cum + 1 && cum <= s.last && rwnd <= s.maxReceiveBuffer
      && (forall i :: 0 <= i < |gaps| ==> GapTrue(s.got, cum, gaps[i]))
    case Fwd(from, to) =>
      && s.snd.useForwardTSN && s.first <= from + 1 && from <= s.ack && to < s.next
      && forall t :: from < t <= to ==> GivenUp(s.first, s.log, s.snd.heads, t)
  }

  ghost predicate NetOk(s: Sys) {
    forall m :: m in s.net ==> MsgOk(s, m)
  }

  /** A chunk counted as fast-retransmitted cannot be so again. */
  ghost predicate FastOk(ack: nat, next: nat, q: seq<Chunk>, fast: multiset<nat>) {
    && (forall t :: fast[t] <= 1)
    && (forall t :: t in fast ==> t < next && (ack < t <= ack + |q| ==> q[t - ack - 1].nSent >= 2))
  }

  /** Receive-window arithmetic cannot overflow. */
  ghost predicate WindowOk(maxReceiveBuffer: u32, nBytes: int, rwnd: u32) {
    && maxReceiveBuffer + 0xFFFF < 0x1_0000_0000
    && rwnd <= maxReceiveBuffer && nBytes + rwnd <= maxReceiveBuffer + 0xFFFF
  }

  /** Fragments of a message carry consecutive TSNs, in order. */
  ghost predicate FragmentsOk(log: seq<Chunk>, p: Pending) {
    && Linked(log)
    && (log != [] ==> log[|log| - 1].endingFragment == !p.selected)
    && (log == [] ==> !p.selected)
    && (p.selected ==> Peek(p).Some? && Peek(p).value.msg == log[|log| - 1].msg)
  }

  ghost predicate SysInv(s: Sys) {
    && !s.failed
    && SenderOk(s.first, s.ack, s.next, s.snd)
    && LogOk(s.first, s.ack, s.next, s.log, s.snd.q)
    && s.ack <= s.last && ReceiverOk(s.first, s.last, s.next, s.rcv, s.got)
    && PrefixOk(s.first, s.last, s.got, s.skipped)
    && HandedOk(s.handed, s.got)
    && AckedOk(s.ack, s.snd.q, s.got)
    && SkippedOk(s.first, s.log, s.snd.heads, s.skipped)
    && NetOk(s)
    && s.credited + s.snd.nBytes == s.entered
    && FastOk(s.ack, s.next, s.snd.q, s.fast)
    && WindowOk(s.maxReceiveBuffer, s.snd.nBytes, s.snd.rwnd)
    && FragmentsOk(s.log, s.snd.pending)
  }

  // ---- Steps ----

  datatype Action =
    | Write(message: seq<Chunk>)
    | Transmit(now: int)
    | ResendT3(now: int)
    | ResendFast(now: int)
    | Timeout
    | SendForward
    | DeliverData(t: nat, streamOk: bool, credit: u32)
    | DeliverForward(from: nat, to: nat)
    | EmitSack(sorted: seq<u32>, credit: u32)
    | DeliverSack(cum: nat, gaps: seq<Gap>, rwnd: u32)

  ghost predicate SortedQueue(r: Receiver, sorted: seq<u32>) {
    Ascending(r.peerLast, sorted) && forall k :: k in r.queue <==> k in sorted
  }

  /** What is asked of the environment: the network delivers what was sent while it is fresh, writers
      push whole messages, and the windows keep no more outstanding than a SACK can describe. */
  ghost predicate Enabled(s: Sys, a: Action) {
    match a
    case Write(message) => IsMessage(message)
    case Transmit(now) =>
      && |s.snd.q| + PendingSize(s.snd.pending) <= FLIGHT_LIMIT
      && (PendingWF(s.snd.pending) ==> |PopPending(s.snd, now).s.q| <= MAX_OUTSTANDING)
    case ResendT3(_) => true
    case ResendFast(_) => true
    case Timeout => true
    case SendForward => true
    case DeliverData(t, _, _) => Data(t) in s.net && s.last - t < LIFETIME
    case DeliverForward(from, to) => Fwd(from, to) in s.net && s.last - to < LIFETIME
    case EmitSack(sorted, credit) => SortedQueue(s.rcv, sorted) && credit <= s.maxReceiveBuffer
    case DeliverSack(cum, gaps, rwnd) => Ackn(cum, gaps, rwnd) in s.net && s.ack - cum < LIFETIME
  }

  /** The endpoint can carry the action out without meeting an error of its own. */
  ghost predicate Succeeds(s: Sys, a: Action)
    requires Enabled(s, a)
  {
    match a
    case Transmit(now) =>
      && PendingWF(s.snd.pending)
      && var r := PopPending(s.snd, now).s; |s.snd.q| <= |r.q| && s.snd.nBytes <= r.nBytes
    case ResendFast(now) => |FastRetransmit(s.snd, now).q| == |s.snd.q|
    case Timeout => |s.snd.q| <= FLIGHT_LIMIT
    case SendForward => s.snd.willSendForwardTSN && s.snd.useForwardTSN ==> Dist(s.snd.cum, s.snd.adv) <= |s.snd.q|
    case DeliverSack(_, _, _) => Consecutive(s.snd.cum, s.snd.q) && Acceptable(s.snd, Wire(a))
    case _ => true
  }

  function Wire(a: Action): Sack
    requires a.DeliverSack?
  {
    Sack(U32(a.cum), a.rwnd, a.gaps)
  }

  /** The TSNs whose transmission count a retransmission round raised. */
  function RisenTSNs(ack: nat, q: seq<Chunk>, q': seq<Chunk>): set<nat>
    requires |q'| == |q|
  {
    set i | 0 <= i < |q| && q'[i].nSent != q[i].nSent :: ack + 1 + i
  }

  function Moved(s: Sys, r: Receiver): nat { s.last + Dist(s.rcv.peerLast, r.peerLast) }

  /** The sender moved chunks into flight and became r. */
  ghost function DoTransmit(s: Sys, r: Sender): Sys
    requires |s.snd.q| <= |r.q| && s.snd.nBytes <= r.nBytes
  {
    var next := s.next + |r.q| - |s.snd.q|;
    s.(snd := r, next := next, log := s.log + r.q[|s.snd.q|..],
       net := s.net + (set t | s.next <= t < next :: Data(t)),
       entered := s.entered + r.nBytes - s.snd.nBytes)
  }

  function DoData(s: Sys, t: nat, streamOk: bool, credit: u32): Sys {
    var r := HandleData(s.rcv, U32(t), streamOk, credit);
    var kept := Keeps(s.rcv, U32(t), streamOk, credit);
    s.(rcv := r, last := Moved(s, r),
       handed := if kept then s.handed + [t] else s.handed,
       got := if kept then s.got + {t} else s.got)
  }

  function DoForward(s: Sys, to: nat): Sys {
    var r := HandleForwardTSN(s.rcv, U32(to), s.snd.useForwardTSN);
    s.(rcv := r, last := Moved(s, r),
       skipped := s.skipped + (set u | s.last < u <= to && u !in s.got))
  }

  ghost function DoSack(s: Sys, a: Action): Sys
    requires a.DeliverSack? && Consecutive(s.snd.cum, s.snd.q) && Acceptable(s.snd, Wire(a))
  {
    var r := HandleSack(s.snd, Wire(a));
    s.(snd := r.s, ack := Max(s.ack, a.cum), credited := s.credited + CreditOf(r.credit, None))
  }

  // ---- Honest SACKs are always acceptable ----

  /** handleSack never meets a missing TSN: every SACK a run can deliver is acceptable. */
  lemma HonestSackAcceptable(s: Sys, a: Action)
    requires SenderOk(s.first, s.ack, s.next, s.snd) && ReceiverOk(s.first, s.last, s.next, s.rcv, s.got)
    requires NetOk(s) && a.DeliverSack? && Enabled(s, a)
    ensures Acceptable(s.snd, Wire(a))
    ensures if a.cum < s.ack then Sna32GT(s.snd.cum, U32(a.cum))
            else !Sna32GT(s.snd.cum, U32(a.cum)) && Dist(s.snd.cum, U32(a.cum)) == a.cum - s.ack
  {
    assert MsgOk(s, Ackn(a.cum, a.gaps, a.rwnd));
    SerialOrderIsTrueOrder(s.ack, a.cum);
    if a.cum >= s.ack {
      forall i | 0 <= i < |a.gaps| ensures GapFits(a.gaps[i], |s.snd.q| - (a.cum - s.ack)) {
        var g := a.gaps[i];
        assert GapTrue(s.got, a.cum, g);
        if g.start <= g.end { assert Has(s.got, a.cum, g.end); }
      }
    }
  }

  lemma TransmitGrows(s: Sys, now: int)
    requires SenderOk(s.first, s.ack, s.next, s.snd) && WindowOk(s.maxReceiveBuffer, s.snd.nBytes, s.snd.rwnd)
    requires Enabled(s, Transmit(now))
    ensures var r := PopPending(s.snd, now).s; s.snd.q <= r.q && s.snd.nBytes <= r.nBytes
  {
    PopPendingDiscipline(s.snd, now);
  }

  ghost function Do(s: Sys, a: Action): Sys
    requires Enabled(s, a) && Succeeds(s, a)
  {
    match a
    case Write(message) => s.(snd := s.snd.(pending := PushAll(s.snd.pending, message)))
    case Transmit(now) => DoTransmit(s, PopPending(s.snd, now).s)
    case ResendT3(now) => s.(snd := Resent(s.snd, Retransmit(s.snd, now)))
    case ResendFast(now) =>
      var r := FastRetransmit(s.snd, now);
      s.(snd := FastResent(s.snd, r), fast := s.fast + multiset(RisenTSNs(s.ack, s.snd.q, r.q)))
    case Timeout => s.(snd := OnT3(s.snd))
    case SendForward =>
      var snd := s.snd.(willSendForwardTSN := false);
      if s.snd.willSendForwardTSN && s.snd.useForwardTSN && Sna32GT(s.snd.adv, s.snd.cum)
      then s.(snd := snd, net := s.net + {Fwd(s.ack, s.ack + Dist(s.snd.cum, s.snd.adv))})
      else s.(snd := snd)
    case DeliverData(t, streamOk, credit) => DoData(s, t, streamOk, credit)
    case DeliverForward(_, to) => DoForward(s, to)
    case EmitSack(sorted, credit) => s.(net := s.net + {Ackn(s.last, GapBlocks(s.rcv.peerLast, sorted), credit)})
    case DeliverSack(_, _, _) => DoSack(s, a)
  }

  /** One step; an action the endpoint cannot carry out is recorded as a failure. */
  ghost predicate Step(s: Sys, s': Sys) {
    exists a :: Enabled(s, a) && s' == if Succeeds(s, a) then Do(s, a) else s.(failed := true)
  }

  ghost predicate Init(s: Sys) {
    && 1 <= s.first && s.ack == s.last == s.first - 1 && s.next == s.first
    && s.snd.cum == U32(s.ack) && s.snd.q == [] && s.snd.nBytes == 0 && s.snd.adv == s.snd.cum && s.snd.heads == map[]
    && !s.snd.cc.inFastRecovery && s.snd.pending == Pending([], [], false, false)
    && s.rcv == Receiver(U32(s.last), {})
    && s.net == {} && s.log == [] && s.handed == [] && s.got == {} && s.skipped == {} && s.fast == multiset{}
    && s.entered == 0 && s.credited == 0 && !s.failed
    && s.maxReceiveBuffer + 0xFFFF < 0x1_0000_0000 && s.snd.rwnd <= s.maxReceiveBuffer
  }

  ghost predicate IsRun(run: seq<Sys>) {
    && run != [] && Init(run[0])
    && forall i, j :: 0 <= i && j == i + 1 < |run| ==> Step(run[i], run[j])
  }
}
