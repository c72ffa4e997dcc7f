/** The data-receiving half of an established SCTP association. */
module SctpReceiver {
  // Duplicate detection, advancing the cumulative TSN, FORWARD TSN, and the gap blocks of a SACK. Chunk
  // contents go to the stream layer on arrival, so the queue is represented by its TSNs.

  import opened Serial
  import opened SctpSender
  import opened SctpSackProofs

  datatype Receiver = Receiver(peerLast: u32, queue: set<u32>)

  /** The queue pops only its oldest TSN, oldest by serial order. */
  predicate IsOldest(queue: set<u32>, tsn: u32) {
    tsn in queue && forall k :: k in queue ==> k == tsn || Sna32LT(tsn, k)
  }

  function Pop(queue: set<u32>, tsn: u32): set<u32> {
    if IsOldest(queue, tsn) then queue - {tsn} else queue
  }

  predicate CanPush(r: Receiver, tsn: u32) {
    tsn !in r.queue && !Sna32LTE(tsn, r.peerLast)
  }

  /** handlePeerLastTSNAndAcknowledgement: advance over everything received contiguously. */
  function Drain(r: Receiver): Receiver
    decreases r.queue
  {
    var next := Plus(r.peerLast, 1);
    if IsOldest(r.queue, next) then Drain(Receiver(next, r.queue - {next})) else r
  }

  /** A chunk is kept, and handed to its stream, if the stream exists and either the receive buffer has
      room or the chunk fills a hole below something already received. */
  predicate Keeps(r: Receiver, tsn: u32, streamOk: bool, credit: nat) {
    CanPush(r, tsn) && streamOk && (credit > 0 || exists k :: k in r.queue && Sna32LT(tsn, k))
  }

  function HandleData(r: Receiver, tsn: u32, streamOk: bool, credit: nat): Receiver {
    if CanPush(r, tsn) && !streamOk then r
    else Drain(if Keeps(r, tsn, streamOk, credit) then r.(queue := r.queue + {tsn}) else r)
  }

  /** Advance unconditionally, dropping what was queued on the way. */
  function SkipTo(r: Receiver, newCum: u32): Receiver
    requires Dist(r.peerLast, newCum) <= 0x8000_0000
    decreases Dist(r.peerLast, newCum)
  {
    if Sna32LT(r.peerLast, newCum)
    then SkipTo(Receiver(Plus(r.peerLast, 1), Pop(r.queue, Plus(r.peerLast, 1))), newCum)
    else r
  }

  function HandleForwardTSN(r: Receiver, newCum: u32, useForwardTSN: bool): Receiver {
    if !useForwardTSN || Sna32LTE(newCum, r.peerLast) then r
    else Drain(SkipTo(r, newCum))
  }

  /** Everything queued lies above the cumulative TSN, at most half the circle away. */
  predicate InWindow(r: Receiver) {
    forall k :: k in r.queue ==> 1 <= Dist(r.peerLast, k) <= 0x8000_0000
  }

  /** ... and the next TSN expected is not among it. */
  predicate Settled(r: Receiver) {
    InWindow(r) && Plus(r.peerLast, 1) !in r.queue
  }

  lemma OldestIsNext(r: Receiver)
    requires InWindow(r)
    ensures IsOldest(r.queue, Plus(r.peerLast, 1)) <==> Plus(r.peerLast, 1) in r.queue
  {}

  /** Draining by `n` steps passes exactly the `n` TSNs that were queued contiguously, and stops at a hole. */
  lemma {:induction false} DrainMeaning(r: Receiver) returns (n: nat)
    requires InWindow(r)
    ensures var r' := Drain(r);
            && n <= 0x8000_0000 && r'.peerLast == Plus(r.peerLast, n) && Settled(r')
            && (forall i :: 1 <= i <= n ==> Plus(r.peerLast, i) in r.queue)
            && r'.queue == (set k | k in r.queue && Dist(r.peerLast, k) > n)
    decreases r.queue
  {
    OldestIsNext(r);
    var next := Plus(r.peerLast, 1);
    if next in r.queue {
      var r1 := Receiver(next, r.queue - {next});
      var n1 := DrainMeaning(r1);
      n := n1 + 1;
      forall i | 1 <= i <= n ensures Plus(r.peerLast, i) in r.queue {
        if i > 1 { assert Plus(next, i - 1) == Plus(r.peerLast, i); assert Plus(next, i - 1) in r1.queue; }
      }
      if n1 > 0 {
        DistPlus(r.peerLast, n);
        assert Plus(next, n1) in r1.queue && Plus(next, n1) == Plus(r.peerLast, n);
      }
    } else {
      n := 0;
    }
  }

  /** Skipping moves the cumulative TSN to the given one and drops exactly what lies at or below it. */
  lemma {:induction false} SkipMeaning(r: Receiver, newCum: u32)
    requires InWindow(r) && Dist(r.peerLast, newCum) < 0x8000_0000
    ensures var r', n := SkipTo(r, newCum), Dist(r.peerLast, newCum);
            && r'.peerLast == newCum && InWindow(r')
            && r'.queue == (set k | k in r.queue && Dist(r.peerLast, k) > n)
    decreases Dist(r.peerLast, newCum)
  {
    if Sna32LT(r.peerLast, newCum) {
      OldestIsNext(r);
      SkipMeaning(Receiver(Plus(r.peerLast, 1), Pop(r.queue, Plus(r.peerLast, 1))), newCum);
    }
  }

  /** Whatever arrives, the receiver stays in its window and settles on a hole. */
  lemma HandlersSettle(r: Receiver, tsn: u32, streamOk: bool, credit: nat, useForwardTSN: bool)
    requires Settled(r)
    ensures Settled(HandleData(r, tsn, streamOk, credit))
    ensures Settled(HandleForwardTSN(r, tsn, useForwardTSN))
  {
    var r1 := if Keeps(r, tsn, streamOk, credit) then r.(queue := r.queue + {tsn}) else r;
    var n := DrainMeaning(r1);
    if useForwardTSN && !Sna32LTE(tsn, r.peerLast) {
      if Dist(r.peerLast, tsn) < 0x8000_0000 { SkipMeaning(r, tsn); }
      var n2 := DrainMeaning(SkipTo(r, tsn));
    }
  }

  // ---- getGapAckBlocks ----

  /** The queue's TSNs by increasing distance above the cumulative TSN. */
  predicate Ascending(cum: u32, sorted: seq<u32>) {
    && (forall i :: 0 <= i < |sorted| ==> Dist(cum, sorted[i]) >= 1)
    && (forall i, j :: 0 <= i < j < |sorted| ==> Dist(cum, sorted[i]) < Dist(cum, sorted[j]))
  }

  /** The 16-bit offset the code computes; it truncates. */
  function Offset(cum: u32, tsn: u32): u16 { Dist(cum, tsn) % 0x1_0000 }

  datatype Blocks = Blocks(done: seq<Gap>, b: Gap)

  function BlockStep(x: Blocks, diff: u16): Blocks {
    if (x.b.end + 1) % 0x1_0000 == diff then Blocks(x.done, Gap(x.b.start, diff))
    else Blocks(x.done + [x.b], Gap(diff, diff))
  }

  function BlocksFrom(x: Blocks, cum: u32, sorted: seq<u32>): Blocks
    decreases |sorted|
  {
    if sorted == [] then x else BlocksFrom(BlockStep(x, Offset(cum, sorted[0])), cum, sorted[1..])
  }

  function GapBlocks(cum: u32, sorted: seq<u32>): seq<Gap> {
    if sorted == [] then []
    else
      var d := Offset(cum, sorted[0]);
      var x := BlocksFrom(Blocks([], Gap(d, d)), cum, sorted[1..]);
      x.done + [x.b]
  }

  predicate Near(cum: u32, sorted: seq<u32>) {
    forall i :: 0 <= i < |sorted| ==> Dist(cum, sorted[i]) < 0x1_0000
  }

  predicate Reports(cum: u32, sorted: seq<u32>, offset: nat) {
    exists i :: 0 <= i < |sorted| && Dist(cum, sorted[i]) == offset
  }

  lemma CoveredAppend(gaps: seq<Gap>, g: Gap, offset: nat)
    ensures Covered(gaps + [g], offset) <==> Covered(gaps, offset) || Covers(g, offset)
  {
    var all := gaps + [g];
    if Covered(gaps, offset) {
      var i :| 0 <= i < |gaps| && Covers(gaps[i], offset);
      assert Covers(all[i], offset);
    }
    if Covers(g, offset) { assert Covers(all[|gaps|], offset); }
  }

  lemma ReportsCons(cum: u32, sorted: seq<u32>, offset: nat)
    requires sorted != []
    ensures Reports(cum, sorted, offset) <==> Dist(cum, sorted[0]) == offset || Reports(cum, sorted[1..], offset)
  {
    if Reports(cum, sorted[1..], offset) {
      var i :| 0 <= i < |sorted[1..]| && Dist(cum, sorted[1..][i]) == offset;
      assert Dist(cum, sorted[i + 1]) == offset;
    }
    if Reports(cum, sorted, offset) && Dist(cum, sorted[0]) != offset {
      var i :| 0 <= i < |sorted| && Dist(cum, sorted[i]) == offset;
      assert Dist(cum, sorted[1..][i - 1]) == offset;
    }
  }

  lemma {:induction false} BlocksCover(x: Blocks, cum: u32, sorted: seq<u32>, offset: nat)
    requires Ascending(cum, sorted) && Near(cum, sorted) && x.b.start <= x.b.end
    requires sorted != [] ==> x.b.end < Dist(cum, sorted[0])
    ensures var r := BlocksFrom(x, cum, sorted);
            Covered(r.done + [r.b], offset) <==> Covered(x.done + [x.b], offset) || Reports(cum, sorted, offset)
    decreases |sorted|
  {
    if sorted != [] {
      var x1 := BlockStep(x, Offset(cum, sorted[0]));
      CoveredAppend(x.done, x.b, offset);
      CoveredAppend(x1.done, x1.b, offset);
      assert Covered(x1.done + [x1.b], offset) <==> Covered(x.done + [x.b], offset) || Dist(cum, sorted[0]) == offset;
      ReportsCons(cum, sorted, offset);
      assert forall i :: 0 <= i < |sorted[1..]| ==> sorted[1..][i] == sorted[i + 1];
      BlocksCover(x1, cum, sorted[1..], offset);
    }
  }

  /** The blocks of a SACK cover exactly the offsets of the queued TSNs, as long as every queued TSN is
      within 65535 of the cumulative one. */
  lemma GapBlocksExact(cum: u32, sorted: seq<u32>, offset: nat)
    requires Ascending(cum, sorted) && Near(cum, sorted)
    ensures Covered(GapBlocks(cum, sorted), offset) <==> Reports(cum, sorted, offset)
  {
    if sorted != [] {
      var d := Offset(cum, sorted[0]);
      ReportsCons(cum, sorted, offset);
      assert forall i :: 0 <= i < |sorted[1..]| ==> sorted[1..][i] == sorted[i + 1];
      BlocksCover(Blocks([], Gap(d, d)), cum, sorted[1..], offset);
      CoveredAppend([], Gap(d, d), offset);
    }
  }

  /** ... and only then: a TSN further away is left out, and an offset it does not have is reported. */
  lemma GapBlocksExactOnlyNear(cum: u32, sorted: seq<u32>)
    requires Ascending(cum, sorted)
    ensures Near(cum, sorted) <==>
              forall offset: nat :: Covered(GapBlocks(cum, sorted), offset) <==> Reports(cum, sorted, offset)
  {
    if Near(cum, sorted) {
      forall offset: nat ensures Covered(GapBlocks(cum, sorted), offset) <==> Reports(cum, sorted, offset) {
        GapBlocksExact(cum, sorted, offset);
      }
    } else {
      var i :| 0 <= i < |sorted| && Dist(cum, sorted[i]) >= 0x1_0000;
      assert Reports(cum, sorted, Dist(cum, sorted[i]));
      assert !Covered(GapBlocks(cum, sorted), Dist(cum, sorted[i]));
    }
  }

  /** TSN 65537 alone, above a cumulative TSN of 0, is reported as TSN 1, which was not received. */
  lemma FarTSNIsMisreported()
    ensures var sorted := [0x1_0001];
            && Ascending(0, sorted) && GapBlocks(0, sorted) == [Gap(1, 1)] && Covered(GapBlocks(0, sorted), 1)
            && !Reports(0, sorted, 1) && Reports(0, sorted, 0x1_0001) && !Covered(GapBlocks(0, sorted), 0x1_0001)
  {
    var sorted := [0x1_0001];
    assert Offset(0, sorted[0]) == 1 && sorted[1..] == [];
    assert GapBlocks(0, sorted) == [Gap(1, 1)];
    assert Covers(GapBlocks(0, sorted)[0], 1);
    assert Dist(0, sorted[0]) == 0x1_0001;
  }

  /** Blocks are well formed, in order, and never adjacent: each is a maximal run. */
  predicate Maximal(gaps: seq<Gap>) {
    && (forall i :: 0 <= i < |gaps| ==> 1 <= gaps[i].start <= gaps[i].end)
    && (forall i :: 0 <= i < |gaps| - 1 ==> gaps[i].end + 1 < gaps[i + 1].start)
  }

  lemma {:induction false} BlocksMaximal(x: Blocks, cum: u32, sorted: seq<u32>)
    requires Ascending(cum, sorted) && Near(cum, sorted) && Maximal(x.done + [x.b])
    requires sorted != [] ==> x.b.end < Dist(cum, sorted[0])
    ensures var r := BlocksFrom(x, cum, sorted); Maximal(r.done + [r.b])
    decreases |sorted|
  {
    if sorted != [] {
      var x1 := BlockStep(x, Offset(cum, sorted[0]));
      var g, g1 := x.done + [x.b], x1.done + [x1.b];
      forall i | 0 <= i < |g1| ensures 1 <= g1[i].start <= g1[i].end {
        if i < |x.done| { assert g1[i] == g[i]; } else { assert g[|x.done|] == x.b; }
      }
      forall i | 0 <= i < |g1| - 1 ensures g1[i].end + 1 < g1[i + 1].start {
        if i < |x.done| { assert g1[i] == g[i] && g1[i + 1].start == g[i + 1].start; }
      }
      assert forall i :: 0 <= i < |sorted[1..]| ==> sorted[1..][i] == sorted[i + 1];
      BlocksMaximal(x1, cum, sorted[1..]);
    }
  }

  lemma GapBlocksMaximal(cum: u32, sorted: seq<u32>)
    requires Ascending(cum, sorted) && Near(cum, sorted)
    ensures Maximal(GapBlocks(cum, sorted))
  {
    if sorted != [] {
      var d := Offset(cum, sorted[0]);
      assert forall i :: 0 <= i < |sorted[1..]| ==> sorted[1..][i] == sorted[i + 1];
      BlocksMaximal(Blocks([], Gap(d, d)), cum, sorted[1..]);
    }
  }
}
