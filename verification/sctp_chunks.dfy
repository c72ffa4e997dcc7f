/** DATA chunks, the pending queue that orders them for transmission, and byte accounting. */
module SctpChunks {
  // A chunk's `head` reference is modelled by the identity `msg` of the message it belongs to; the flags that
  // the source keeps on the head chunk live in a table indexed by that identity.

  import opened Serial
  import opened Wrappers

  /** `userData` is represented by its length, which the 16-bit chunk length field bounds; `since` is the
      first-send time in milliseconds. */
  datatype Chunk = Chunk(
    msg: nat, beginningFragment: bool, endingFragment: bool, unordered: bool, dcep: bool,
    tsn: u32, streamIdentifier: u16, streamSequenceNumber: u16, len: u16,
    acked: bool, missIndicator: nat, nSent: nat, retransmit: bool, since: int)

  datatype Head = Head(abandoned: bool, allInflight: bool)
  type Heads = map<nat, Head>

  function HeadOf(h: Heads, m: nat): Head { if m in h then h[m] else Head(false, false) }

  predicate Abandoned(h: Heads, c: Chunk) {
    HeadOf(h, c.msg).abandoned && HeadOf(h, c.msg).allInflight
  }

  function SetAbandoned(h: Heads, c: Chunk): Heads {
    h[c.msg := HeadOf(h, c.msg).(abandoned := true)]
  }

  function SetAllInflight(h: Heads, c: Chunk): Heads {
    if c.endingFragment then h[c.msg := HeadOf(h, c.msg).(allInflight := true)] else h
  }

  /** Both flags only ever go from false to true. */
  ghost predicate HeadsGrow(h: Heads, h': Heads) {
    forall m :: (HeadOf(h, m).abandoned ==> HeadOf(h', m).abandoned)
             && (HeadOf(h, m).allInflight ==> HeadOf(h', m).allInflight)
  }

  // ---- Partial reliability (checkPartialReliabilityStatus) ----

  datatype Reliability = Reliable | Rexmit(limit: nat) | Timed(lifetime: nat)

  predicate Expired(useForwardTSN: bool, streams: map<u16, Reliability>, c: Chunk, now: int) {
    useForwardTSN && !c.dcep && c.streamIdentifier in streams &&
    match streams[c.streamIdentifier]
    case Reliable => false
    case Rexmit(limit) => c.nSent >= limit
    case Timed(lifetime) => now - c.since >= lifetime
  }

  function CheckReliability(useForwardTSN: bool, streams: map<u16, Reliability>, h: Heads, c: Chunk, now: int)
    : (h': Heads)
    ensures HeadsGrow(h, h')
  {
    if Expired(useForwardTSN, streams, c, now) then SetAbandoned(h, c) else h
  }

  /** The policy of a chunk's stream abandons its message, and no other, exactly when the chunk is not a channel
      message and the stream's limit on transmissions or on lifetime is reached. */
  lemma AbandonedByPolicy(use: bool, streams: map<u16, Reliability>, h: Heads, c: Chunk, now: int, m: nat)
    ensures var before, after := HeadOf(h, m), HeadOf(CheckReliability(use, streams, h, c, now), m);
            && after.allInflight == before.allInflight && (before.abandoned ==> after.abandoned)
            && (after.abandoned && !before.abandoned ==> m == c.msg && !c.dcep)
            && (m == c.msg && !before.abandoned && use && c.streamIdentifier in streams ==>
                  (after.abandoned <==>
                     var policy := streams[c.streamIdentifier];
                     !c.dcep && ((policy.Rexmit? && c.nSent >= policy.limit)
                                 || (policy.Timed? && now - c.since >= policy.lifetime))))
            && (!use || c.streamIdentifier !in streams ==> after == before)
  {}

  // ---- Byte accounting ----

  /** Unacknowledged bytes of `q`, either of one stream or of all. */
  function Bytes(q: seq<Chunk>, only: Option<u16>): nat {
    if q == [] then 0 else Share(q[0], only) + Bytes(q[1..], only)
  }

  function Share(c: Chunk, only: Option<u16>): nat {
    if only == None || only == Some(c.streamIdentifier) then c.len else 0
  }

  lemma {:induction false} BytesConcat(a: seq<Chunk>, b: seq<Chunk>, only: Option<u16>)
    ensures Bytes(a + b, only) == Bytes(a, only) + Bytes(b, only)
  {
    if a == [] {
      assert a + b == b;
    } else {
      assert (a + b)[1..] == a[1..] + b;
      BytesConcat(a[1..], b, only);
    }
  }

  lemma BytesUpdate(q: seq<Chunk>, k: nat, c: Chunk, only: Option<u16>)
    requires k < |q|
    ensures Bytes(q[k := c], only) == Bytes(q, only) - Share(q[k], only) + Share(c, only)
  {
    assert q == q[..k] + [q[k]] + q[k + 1..];
    assert q[k := c] == q[..k] + [c] + q[k + 1..];
    BytesConcat(q[..k] + [q[k]], q[k + 1..], only);
    BytesConcat(q[..k] + [c], q[k + 1..], only);
    BytesConcat(q[..k], [q[k]], only);
    BytesConcat(q[..k], [c], only);
  }

  lemma BytesAppend(q: seq<Chunk>, c: Chunk, only: Option<u16>)
    ensures Bytes(q + [c], only) == Bytes(q, only) + Share(c, only)
  {
    BytesConcat(q, [c], only);
  }

  // ---- Credit per stream (bytesAckedPerStream) ----

  type Credit = map<u16, nat>

  function StreamCredit(m: Credit, si: u16): nat { if si in m then m[si] else 0 }

  function CreditOf(m: Credit, only: Option<u16>): nat {
    match only
    case None => TotalBelow(m, 0x1_0000)
    case Some(si) => StreamCredit(m, si)
  }

  function TotalBelow(m: Credit, k: nat): nat
    requires k <= 0x1_0000
  {
    if k == 0 then 0 else TotalBelow(m, k - 1) + StreamCredit(m, k - 1)
  }

  function AddCredit(m: Credit, si: u16, n: nat): Credit {
    m[si := StreamCredit(m, si) + n]
  }

  lemma {:induction false} TotalOfUpdate(m: Credit, si: u16, v: nat, k: nat)
    requires k <= 0x1_0000
    ensures TotalBelow(m[si := v], k) == TotalBelow(m, k) + if si < k then v - StreamCredit(m, si) else 0
  {
    if k > 0 { TotalOfUpdate(m, si, v, k - 1); }
  }

  lemma {:induction false} TotalOfRemoval(m: Credit, si: u16, k: nat)
    requires k <= 0x1_0000
    ensures TotalBelow(m - {si}, k) == TotalBelow(m, k) - if si < k then StreamCredit(m, si) else 0
  {
    if k > 0 { TotalOfRemoval(m, si, k - 1); }
  }

  lemma {:induction false} TotalOfEmpty(k: nat)
    requires k <= 0x1_0000
    ensures TotalBelow(map[], k) == 0
  {
    if k > 0 { TotalOfEmpty(k - 1); }
  }

  /** Crediting `n` bytes to a stream raises that stream's total, and the overall total, by exactly `n`. */
  lemma CreditAdds(m: Credit, si: u16, n: nat, only: Option<u16>)
    ensures CreditOf(AddCredit(m, si, n), only)
         == CreditOf(m, only) + if only == None || only == Some(si) then n else 0
  {
    if only == None { TotalOfUpdate(m, si, StreamCredit(m, si) + n, 0x1_0000); }
  }

  // ---- Pending queue ----

  datatype Pending = Pending(unorderedQueue: seq<Chunk>, orderedQueue: seq<Chunk>,
                             selected: bool, unorderedIsSelected: bool)

  function PendingSize(p: Pending): nat { |p.unorderedQueue| + |p.orderedQueue| }

  function Push(p: Pending, c: Chunk): Pending {
    if c.unordered then p.(unorderedQueue := p.unorderedQueue + [c])
    else p.(orderedQueue := p.orderedQueue + [c])
  }

  function First(q: seq<Chunk>): Option<Chunk> { if q == [] then None else Some(q[0]) }

  function Peek(p: Pending): Option<Chunk> {
    if p.selected then
      if p.unorderedIsSelected then First(p.unorderedQueue) else First(p.orderedQueue)
    else if p.unorderedQueue != [] then First(p.unorderedQueue)
    else First(p.orderedQueue)
  }

  datatype PopResult = PopResult(p: Pending, ok: bool)

  /** Pop of the chunk just peeked; `ok` is false where the source reports an error. */
  function Pop(p: Pending): PopResult
    requires Peek(p).Some?
  {
    var c := Peek(p).value;
    if p.selected then
      var p' := if p.unorderedIsSelected then p.(unorderedQueue := p.unorderedQueue[1..])
                else p.(orderedQueue := p.orderedQueue[1..]);
      PopResult(if c.endingFragment then p'.(selected := false) else p', true)
    else if !c.beginningFragment then PopResult(p, false)
    else if c.unordered then
      if p.unorderedQueue == [] then PopResult(p, false)
      else if p.unorderedQueue[0] != c then PopResult(p.(unorderedQueue := p.unorderedQueue[1..]), false)
      else
        var p' := p.(unorderedQueue := p.unorderedQueue[1..]);
        PopResult(if c.endingFragment then p' else p'.(selected := true, unorderedIsSelected := true), true)
    else
      if p.orderedQueue == [] then PopResult(p, false)
      else if p.orderedQueue[0] != c then PopResult(p.(orderedQueue := p.orderedQueue[1..]), false)
      else
        var p' := p.(orderedQueue := p.orderedQueue[1..]);
        PopResult(if c.endingFragment then p' else p'.(selected := true, unorderedIsSelected := false), true)
  }

  /** Fragments sit next to each other: an ending fragment is followed by a beginning one, any other
      fragment by a non-beginning fragment of the same message. */
  predicate Follows(c: Chunk, d: Chunk) {
    if c.endingFragment then d.beginningFragment else !d.beginningFragment && d.msg == c.msg
  }

  predicate Linked(q: seq<Chunk>) {
    forall i, j :: 0 <= i && j == i + 1 < |q| ==> Follows(q[i], q[j])
  }

  /** A chunk not sent yet; an empty one is a stream-reset marker, never a fragment. */
  predicate Fresh(c: Chunk) {
    !c.acked && !c.retransmit && c.missIndicator == 0 && (c.len == 0 ==> c.beginningFragment && c.endingFragment)
  }

  /** A queue of whole messages of one kind, of which the first has lost its leading fragments iff `mid`. */
  predicate WholeMessages(q: seq<Chunk>, mid: bool, unordered: bool) {
    if q == [] then !mid
    else
      var c := q[0];
      && Fresh(c) && c.unordered == unordered && c.beginningFragment == !mid
      && (c.endingFragment || (|q| > 1 && q[1].msg == c.msg))
      && WholeMessages(q[1..], !c.endingFragment, unordered)
  }

  predicate PendingWF(p: Pending) {
    && WholeMessages(p.unorderedQueue, p.selected && p.unorderedIsSelected, true)
    && WholeMessages(p.orderedQueue, p.selected && !p.unorderedIsSelected, false)
  }

  /** Nothing is lost or reordered inside either queue; the pop never fails; and the chunk popped
      continues the message under way exactly when one is selected. Between messages, unordered ones go first. */
  lemma PopFollowsMessages(p: Pending)
    requires PendingWF(p) && Peek(p).Some?
    ensures Pop(p).ok
    ensures PendingWF(Pop(p).p)
    ensures PendingSize(Pop(p).p) == PendingSize(p) - 1
    ensures Fresh(Peek(p).value) && Peek(p).value.beginningFragment == !p.selected
    ensures Peek(p).value.unordered == if p.selected then p.unorderedIsSelected else p.unorderedQueue != []
    ensures Pop(p).p.selected == !Peek(p).value.endingFragment
    ensures Pop(p).p.selected ==> Peek(Pop(p).p).Some? && Peek(Pop(p).p).value.msg == Peek(p).value.msg
    ensures var q, q' := p.unorderedQueue, Pop(p).p.unorderedQueue;
            q' == q || (q != [] && q' == q[1..] && q[0] == Peek(p).value)
    ensures var q, q' := p.orderedQueue, Pop(p).p.orderedQueue;
            q' == q || (q != [] && q' == q[1..] && q[0] == Peek(p).value)
  {}

  /** What one write pushes: whole messages, all ordered or all unordered. */
  predicate IsMessage(m: seq<Chunk>) {
    m != [] && WholeMessages(m, false, m[0].unordered)
  }

  function PushAll(p: Pending, m: seq<Chunk>): Pending
    decreases |m|
  {
    if m == [] then p else PushAll(Push(p, m[0]), m[1..])
  }

  lemma {:induction false} PushAllAppends(p: Pending, m: seq<Chunk>, u: bool)
    requires forall c :: c in m ==> c.unordered == u
    ensures PushAll(p, m) == if u then p.(unorderedQueue := p.unorderedQueue + m)
                             else p.(orderedQueue := p.orderedQueue + m)
    decreases |m|
  {
    if m == [] {
      assert p.unorderedQueue + m == p.unorderedQueue;
      assert p.orderedQueue + m == p.orderedQueue;
    } else {
      PushAllAppends(Push(p, m[0]), m[1..], u);
      assert m == [m[0]] + m[1..];
      assert p.unorderedQueue + [m[0]] + m[1..] == p.unorderedQueue + m;
      assert p.orderedQueue + [m[0]] + m[1..] == p.orderedQueue + m;
    }
  }

  lemma PushKeepsMessagesWhole(p: Pending, m: seq<Chunk>)
    requires PendingWF(p) && IsMessage(m)
    ensures PendingWF(PushAll(p, m))
  {
    var u := m[0].unordered;
    WholeIsUniform(m, false, u);
    PushAllAppends(p, m, u);
    JoinWhole(if u then p.unorderedQueue else p.orderedQueue, m, p.selected && p.unorderedIsSelected == u, u);
  }

  lemma {:induction false} WholeIsUniform(q: seq<Chunk>, mid: bool, u: bool)
    requires WholeMessages(q, mid, u)
    ensures forall c :: c in q ==> c.unordered == u
  {
    if q != [] { WholeIsUniform(q[1..], !q[0].endingFragment, u); }
  }

  lemma {:induction false} JoinWhole(q: seq<Chunk>, m: seq<Chunk>, mid: bool, u: bool)
    requires WholeMessages(q, mid, u) && WholeMessages(m, false, u)
    ensures WholeMessages(q + m, mid, u)
  {
    if q == [] {
      assert q + m == m;
    } else {
      JoinWhole(q[1..], m, !q[0].endingFragment, u);
      assert (q + m)[1..] == q[1..] + m;
    }
  }
}
