/** The receiving half of the Association object: fields updated in place, proved to follow SctpReceiver. */
module SctpInbound {
  import opened Serial
  import opened SctpChunks
  import opened SctpSender
  import R = SctpReceiver
  import opened SctpArrivals
  import opened SctpPayloadQueue

  class Inbound {
    var peerLastTSN: u32
    const payloadQueue: PayloadQueue
    const useForwardTSN: bool

    ghost function State(): R.Receiver
      reads this, payloadQueue
    {
      R.Receiver(peerLastTSN, payloadQueue.chunkMap.Keys)
    }

    /** Only what can be pushed is pushed, so no duplicate is ever recorded. */
    ghost predicate Valid()
      reads this, payloadQueue
    {
      payloadQueue.Valid() && R.InWindow(State()) && payloadQueue.dupTSN == []
    }

    constructor (initialTSN: u32, useForwardTSN: bool)
      ensures Valid() && R.Settled(State()) && State() == R.Receiver(Plus(initialTSN, 0xFFFF_FFFF), {})
      ensures fresh(payloadQueue) && this.useForwardTSN == useForwardTSN
    {
      peerLastTSN := Plus(initialTSN, 0xFFFF_FFFF);
      payloadQueue := new PayloadQueue();
      this.useForwardTSN := useForwardTSN;
      new;
      assert payloadQueue.chunkMap.Keys == {};
    }

    /** Advances over everything received contiguously. */
    method HandlePeerLastTSN()
      requires Valid()
      modifies this`peerLastTSN, payloadQueue
      ensures Valid() && State() == R.Drain(old(State()))
    {
      while true
        invariant Valid() && R.Drain(State()) == R.Drain(old(State()))
        decreases payloadQueue.chunkMap.Keys
      {
        ghost var before := State();
        var c := payloadQueue.Pop(Plus(peerLastTSN, 1), peerLastTSN);
        if c.None? { break; }
        peerLastTSN := Plus(peerLastTSN, 1);
        assert State() == R.Receiver(peerLastTSN, before.queue - {peerLastTSN});
      }
    }

    /** `handed` tells whether the chunk went to its stream; streamOk, whether that stream could be had. */
    method HandleData(d: Chunk, streamOk: bool, credit: nat) returns (handed: bool)
      requires Valid()
      modifies this`peerLastTSN, payloadQueue
      ensures Valid() && State() == R.HandleData(old(State()), d.tsn, streamOk, credit)
      ensures handed == R.Keeps(old(State()), d.tsn, streamOk, credit)
      ensures R.Settled(old(State())) ==>
                Gains(old(State()), State(), d.tsn, streamOk && (credit > 0 || Fills(old(State()), d.tsn)))
    {
      if R.Settled(State()) { DataIsGained(State(), d.tsn, streamOk, credit); }
      handed := false;
      var canPush := payloadQueue.CanPush(d, peerLastTSN);
      if canPush {
        if !streamOk { return; }
        if credit > 0 {
          handed := true;
        } else {
          var last := payloadQueue.GetLastTSNReceived(peerLastTSN);
          handed := last.Some? && Sna32LT(d.tsn, last.value);
          if k :| k in payloadQueue.chunkMap && Sna32LT(d.tsn, k) { assert Sna32LT(d.tsn, last.value); }
        }
        if handed { var _ := payloadQueue.Push(d, peerLastTSN); }
      }
      assert State() == if handed then old(State()).(queue := old(State()).queue + {d.tsn}) else old(State());
      HandlePeerLastTSN();
    }

    method HandleForwardTSN(newCumulativeTSN: u32)
      requires Valid()
      modifies this`peerLastTSN, payloadQueue
      ensures Valid() && State() == R.HandleForwardTSN(old(State()), newCumulativeTSN, useForwardTSN)
    {
      if !useForwardTSN || Sna32LTE(newCumulativeTSN, peerLastTSN) { return; }
      while Sna32LT(peerLastTSN, newCumulativeTSN)
        invariant Valid() && Dist(peerLastTSN, newCumulativeTSN) <= 0x8000_0000
        invariant R.SkipTo(State(), newCumulativeTSN) == R.SkipTo(old(State()), newCumulativeTSN)
        decreases Dist(peerLastTSN, newCumulativeTSN)
      {
        ghost var before := State();
        R.OldestIsNext(before);
        var c := payloadQueue.Pop(Plus(peerLastTSN, 1), peerLastTSN);
        peerLastTSN := Plus(peerLastTSN, 1);
        assert State() == R.Receiver(peerLastTSN, R.Pop(before.queue, peerLastTSN));
      }
      HandlePeerLastTSN();
    }

    /** The SACK acknowledges the cumulative TSN and reports the rest of the queue as gap blocks; its list of
        duplicate TSNs is empty whatever arrived. */
    method CreateSelectiveAckChunk(credit: u32) returns (sack: Sack, duplicateTSN: seq<u32>)
      requires Valid()
      modifies payloadQueue
      ensures Valid() && State() == old(State())
      ensures sack == Sack(peerLastTSN, credit, R.GapBlocks(peerLastTSN, Sort(State().queue))) && duplicateTSN == []
    {
      duplicateTSN := payloadQueue.PopDuplicates();
      var blocks := payloadQueue.GetGapAckBlocks(peerLastTSN);
      sack := Sack(peerLastTSN, credit, blocks);
    }
  }
}
