/** What one arriving chunk does to the set of TSNs a receiver has. */
module SctpArrivals {
  import opened Serial
  import opened SctpReceiver

  /** The receiver has this TSN: it is queued, or at or below the cumulative one. */
  predicate Holds(r: Receiver, tsn: u32) { tsn in r.queue || Sna32LTE(tsn, r.peerLast) }

  /** A TSN the receiver can tell to be above its cumulative one. */
  predicate Above(r: Receiver, tsn: u32) { 1 <= Dist(r.peerLast, tsn) <= 0x8000_0000 }

  /** Draining changes nothing about which TSNs the receiver has. */
  lemma DrainHolds(r: Receiver, tsn: u32)
    requires InWindow(r) && Above(r, tsn)
    ensures Holds(Drain(r), tsn) <==> tsn in r.queue
  {
    var n := DrainMeaning(r);
    DistPlus(r.peerLast, n);
    var d := Dist(r.peerLast, tsn);
    if d <= n {
      DistSplits(r.peerLast, tsn, Plus(r.peerLast, n));
      assert Plus(r.peerLast, d) == tsn;
    } else {
      DistSplits(r.peerLast, Plus(r.peerLast, n), tsn);
    }
  }

  lemma SettledIsDrained(r: Receiver)
    requires Settled(r)
    ensures Drain(r) == r
  {}

  predicate Fills(r: Receiver, tsn: u32) { exists k :: k in r.queue && Sna32LT(tsn, k) }

  /** DATA of an open stream is taken in exactly if it is new and there is room in the receive buffer or it fills a
      hole below something received; nothing else is gained or lost by it. Otherwise the receiver is unchanged. */
  lemma DataIsTakenIn(r: Receiver, tsn: u32, credit: nat, k: u32)
    requires Settled(r) && Above(r, k)
    ensures Holds(HandleData(r, tsn, true, credit), k) <==>
              k in r.queue || (k == tsn && (credit > 0 || Fills(r, tsn)))
    ensures !Above(r, tsn) || tsn in r.queue || (credit == 0 && !Fills(r, tsn)) ==>
              HandleData(r, tsn, true, credit) == r
    ensures HandleData(r, tsn, false, credit) == r
  {
    SettledIsDrained(r);
    DrainHolds(r, k);
    var r1 := r.(queue := r.queue + {tsn});
    if Keeps(r, tsn, true, credit) { DrainHolds(r1, k); }
  }

  /** Above its cumulative TSN the receiver has what it had before and, if `kept`, this TSN. */
  ghost predicate Gains(r: Receiver, r': Receiver, tsn: u32, kept: bool) {
    forall k :: Above(r, k) ==> (Holds(r', k) <==> k in r.queue || (k == tsn && kept))
  }

  lemma DataIsGained(r: Receiver, tsn: u32, streamOk: bool, credit: nat)
    requires Settled(r)
    ensures Gains(r, HandleData(r, tsn, streamOk, credit), tsn, streamOk && (credit > 0 || Fills(r, tsn)))
  {
    forall k | Above(r, k)
      ensures Holds(HandleData(r, tsn, streamOk, credit), k) <==>
                k in r.queue || (k == tsn && streamOk && (credit > 0 || Fills(r, tsn)))
    {
      DataIsTakenIn(r, tsn, credit, k);
    }
  }

  /** A FORWARD TSN from the window gives the receiver everything up to its TSN, and nothing else; any other is
      ignored. */
  lemma ForwardIsTakenIn(r: Receiver, tsn: u32, use: bool, k: u32)
    requires Settled(r) && Above(r, k)
    ensures var n := Dist(r.peerLast, tsn);
            var r' := HandleForwardTSN(r, tsn, use);
            if use && 0 < n < 0x8000_0000 then Holds(r', k) <==> k in r.queue || Dist(r.peerLast, k) <= n else r' == r
  {
    SettledIsDrained(r);
    var n := Dist(r.peerLast, tsn);
    if use && 0 < n < 0x8000_0000 {
      SkipMeaning(r, tsn);
      var r1 := SkipTo(r, tsn);
      if Dist(r.peerLast, k) > n {
        DistSplits(r.peerLast, tsn, k);
        DrainHolds(r1, k);
      } else {
        var m := DrainMeaning(r1);
        DistSplits(r.peerLast, k, tsn);
        DistPlus(tsn, m);
        DistAdds(k, tsn, Plus(tsn, m));
      }
    }
  }
}
