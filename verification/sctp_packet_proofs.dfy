/** Bundling of chunks into packets, and the contents of a FORWARD TSN chunk. */
module SctpPacketProofs {
  import opened Serial
  import opened SctpChunks
  import opened SctpSender
  import opened SctpTransmit
  import opened SctpTransmitProofs

  // ---- bundleDataChunksIntoPackets ----

  function Flatten(packets: seq<seq<Chunk>>): seq<Chunk> {
    if packets == [] then [] else Flatten(packets[..|packets| - 1]) + packets[|packets| - 1]
  }

  /** Size the bundler accounts to a packet. */
  function PacketSize(p: seq<Chunk>): nat { COMMON_HEADER_SIZE + Cost(p, DATA_CHUNK_HEADER_SIZE) }

  predicate Fits(c: Chunk, mtu: u32) { COMMON_HEADER_SIZE + c.len <= mtu }

  lemma FlattenAppend(packets: seq<seq<Chunk>>, p: seq<Chunk>)
    ensures Flatten(packets + [p]) == Flatten(packets) + p
  {
    assert (packets + [p])[..|packets|] == packets;
  }

  lemma CostAppend(p: seq<Chunk>, c: Chunk)
    ensures Cost(p + [c], DATA_CHUNK_HEADER_SIZE) == Cost(p, DATA_CHUNK_HEADER_SIZE) + DATA_CHUNK_HEADER_SIZE + c.len
  {
    assert (p + [c])[..|p|] == p;
  }

  /** Chunks are neither lost, duplicated nor reordered. */
  lemma {:induction false} BundleOrder(b: Bundle, cs: seq<Chunk>, mtu: u32)
    ensures var r := BundleAll(b, cs, mtu);
            Flatten(r.packets) + r.chunksToSend == Flatten(b.packets) + b.chunksToSend + cs
    decreases |cs|
  {
    if cs != [] {
      var b1 := BundleOne(b, cs[0], mtu);
      FlattenAppend(b.packets, b.chunksToSend);
      assert Flatten(b1.packets) + b1.chunksToSend == Flatten(b.packets) + b.chunksToSend + [cs[0]];
      BundleOrder(b1, cs[1..], mtu);
      assert cs == [cs[0]] + cs[1..];
      assert Flatten(b.packets) + b.chunksToSend + [cs[0]] + cs[1..] == Flatten(b.packets) + b.chunksToSend + cs;
    }
  }

  /** Every packet closed so far obeys the bound, and the open one is accounted for. */
  predicate Bounded(b: Bundle, mtu: u32) {
    && b.bytesInPacket == PacketSize(b.chunksToSend)
    && (b.chunksToSend != [] ==> b.bytesInPacket <= mtu + DATA_CHUNK_HEADER_SIZE)
    && forall i :: 0 <= i < |b.packets| ==> PacketSize(b.packets[i]) <= mtu + DATA_CHUNK_HEADER_SIZE
  }

  lemma {:induction false} BundleBound(b: Bundle, cs: seq<Chunk>, mtu: u32)
    requires Bounded(b, mtu) && mtu >= COMMON_HEADER_SIZE && forall i :: 0 <= i < |cs| ==> Fits(cs[i], mtu)
    ensures Bounded(BundleAll(b, cs, mtu), mtu)
    decreases |cs|
  {
    if cs != [] {
      assert Fits(cs[0], mtu);
      CostAppend(b.chunksToSend, cs[0]);
      CostAppend([], cs[0]);
      BundleBound(BundleOne(b, cs[0], mtu), cs[1..], mtu);
    }
  }

  lemma {:induction false} CostAtLeast(p: seq<Chunk>, k: nat)
    requires k < |p|
    ensures Cost(p, DATA_CHUNK_HEADER_SIZE) >= DATA_CHUNK_HEADER_SIZE + p[k].len
  {
    if k < |p| - 1 { CostAtLeast(p[..|p| - 1], k); }
  }

  lemma {:induction false} FlattenFinds(packets: seq<seq<Chunk>>, c: Chunk) returns (i: nat, k: nat)
    requires c in Flatten(packets)
    ensures i < |packets| && k < |packets[i]| && packets[i][k] == c
  {
    var n := |packets| - 1;
    if c in packets[n] {
      i := n;
      k :| 0 <= k < |packets[n]| && packets[n][k] == c;
    } else {
      i, k := FlattenFinds(packets[..n], c);
    }
  }

  lemma {:induction false} BundleNonempty(b: Bundle, cs: seq<Chunk>, mtu: u32)
    requires b.chunksToSend != []
    ensures var r := BundleAll(b, cs, mtu);
            && r.chunksToSend != [] && ([] in r.packets <==> [] in b.packets)
    decreases |cs|
  {
    if cs != [] { BundleNonempty(BundleOne(b, cs[0], mtu), cs[1..], mtu); }
  }

  /** Bundling preserves the chunk sequence, and emits an empty packet exactly when the first chunk alone
      overflows the MTU. */
  lemma BundlingKeepsChunks(cs: seq<Chunk>, mtu: u32)
    requires mtu >= COMMON_HEADER_SIZE
    ensures Flatten(Packets(cs, mtu)) == cs
    ensures [] in Packets(cs, mtu) <==> cs != [] && !Fits(cs[0], mtu)
  {
    var b0 := Bundle([], [], COMMON_HEADER_SIZE);
    var b := BundleAll(b0, cs, mtu);
    BundleOrder(b0, cs, mtu);
    FlattenAppend(b.packets, b.chunksToSend);
    assert Flatten(b0.packets) + b0.chunksToSend + cs == cs;
    if cs != [] { BundleNonempty(BundleOne(b0, cs[0], mtu), cs[1..], mtu); }
  }

  /** Every packet is accounted at most one data-chunk header above the MTU exactly when every chunk would
      fit a packet of its own by the bundler's own test. */
  lemma BundlingBound(cs: seq<Chunk>, mtu: u32)
    requires mtu >= COMMON_HEADER_SIZE
    ensures (forall p :: p in Packets(cs, mtu) ==> PacketSize(p) <= mtu + DATA_CHUNK_HEADER_SIZE)
       <==> (forall i :: 0 <= i < |cs| ==> Fits(cs[i], mtu))
  {
    if forall i :: 0 <= i < |cs| ==> Fits(cs[i], mtu) {
      BundleBound(Bundle([], [], COMMON_HEADER_SIZE), cs, mtu);
    } else {
      var j :| 0 <= j < |cs| && !Fits(cs[j], mtu);
      BundlingKeepsChunks(cs, mtu);
      var ps := Packets(cs, mtu);
      var i, k := FlattenFinds(ps, cs[j]);
      CostAtLeast(ps[i], k);
      assert ps[i] in ps && PacketSize(ps[i]) > mtu + DATA_CHUNK_HEADER_SIZE;
    }
  }

  /** The bundler's test leaves out the new chunk's own header, so a packet may exceed the MTU. */
  lemma BundleMayExceedMtu() returns (cs: seq<Chunk>, p: seq<Chunk>)
    ensures p in Packets(cs, 1228) && PacketSize(p) > 1228
    ensures forall i :: 0 <= i < |cs| ==> cs[i].len <= 1200
  {
    var c := Chunk(0, true, true, false, false, 0, 0, 0, 1190, false, 0, 1, false, 0);
    var d := c.(len := 10);
    cs, p := [c, d], [c, d];
    var b0 := Bundle([], [], COMMON_HEADER_SIZE);
    var b1 := BundleOne(b0, c, 1228);
    var b2 := BundleOne(b1, d, 1228);
    assert cs[1..] == [d] && [d][1..] == [];
    assert BundleAll(b0, cs, 1228) == BundleAll(b1, [d], 1228) == b2 == Bundle([], p, 1244);
    CostAppend([], c);
    CostAppend([c], d);
    assert [] + [c] == [c] && [c] + [d] == p;
    assert Packets(cs, 1228) == [p];
  }

  // ---- createForwardTSN ----

  predicate Mentions(q: seq<Chunk>, si: u16) {
    exists i :: 0 <= i < |q| && q[i].streamIdentifier == si
  }

  /** How far `x` lies above `base` on the 16-bit circle. */
  function Height(base: u16, x: u16): u16 { if x >= base then x - base else x - base + 0x1_0000 }

  predicate Low(base: u16, q: seq<Chunk>, si: u16) {
    forall i :: 0 <= i < |q| && q[i].streamIdentifier == si ==> Height(base, q[i].streamSequenceNumber) < 0x8000
  }

  lemma MentionsCons(q: seq<Chunk>, si: u16)
    requires q != []
    ensures Mentions(q, si) <==> q[0].streamIdentifier == si || Mentions(q[1..], si)
  {
    if Mentions(q[1..], si) {
      var i :| 0 <= i < |q[1..]| && q[1..][i].streamIdentifier == si;
      assert q[i + 1].streamIdentifier == si;
    }
    if Mentions(q, si) && q[0].streamIdentifier != si {
      var i :| 0 <= i < |q| && q[i].streamIdentifier == si;
      assert q[1..][i - 1].streamIdentifier == si;
    }
  }

  lemma {:induction false} SkipListsStreams(m: map<u16, u16>, q: seq<Chunk>, si: u16)
    ensures si in SkipFrom(m, q) <==> si in m || Mentions(q, si)
    decreases |q|
  {
    if q != [] {
      SkipListsStreams(SkipOne(m, q[0]), q[1..], si);
      MentionsCons(q, si);
    }
  }

  predicate Carries(q: seq<Chunk>, si: u16, ssn: u16) {
    exists i :: 0 <= i < |q| && q[i].streamIdentifier == si && q[i].streamSequenceNumber == ssn
  }

  lemma {:induction false} SkipReportsSkipped(m: map<u16, u16>, q: seq<Chunk>, si: u16)
    ensures var r := SkipFrom(m, q); si in r ==> (si in m && r[si] == m[si]) || Carries(q, si, r[si])
    decreases |q|
  {
    if q != [] {
      SkipReportsSkipped(SkipOne(m, q[0]), q[1..], si);
      var r := SkipFrom(m, q);
      if si in r && Carries(q[1..], si, r[si]) {
        var i :| 0 <= i < |q[1..]| && q[1..][i].streamIdentifier == si && q[1..][i].streamSequenceNumber == r[si];
        assert q[i + 1] == q[1..][i];
      } else if si in r && !(si in m && r[si] == m[si]) {
        assert q[0].streamIdentifier == si && q[0].streamSequenceNumber == r[si];
      }
    }
  }

  /** With the stream's numbers less than half the circle above a common base, the reported one is greatest. */
  lemma {:induction false} SkipGreatest(m: map<u16, u16>, q: seq<Chunk>, si: u16, base: u16, i: nat)
    requires Low(base, q, si) && (si in m ==> Height(base, m[si]) < 0x8000)
    requires i < |q| ==> q[i].streamIdentifier == si
    ensures var r := SkipFrom(m, q);
            && (si in m ==> si in r && Height(base, m[si]) <= Height(base, r[si]))
            && (i < |q| ==> si in r && Height(base, q[i].streamSequenceNumber) <= Height(base, r[si]))
            && (si in r ==> Height(base, r[si]) < 0x8000)
    decreases |q|
  {
    if q != [] {
      var t := q[1..];
      forall k | 0 <= k < |t| && t[k].streamIdentifier == si ensures Height(base, t[k].streamSequenceNumber) < 0x8000 {
        assert q[k + 1] == t[k];
      }
      SkipGreatest(SkipOne(m, q[0]), t, si, base, if 0 < i < |q| then i - 1 else |t|);
    }
  }

  /** Every number of the stream among the chunks is the one reported, or serially before it. */
  predicate Greatest(m: map<u16, u16>, q: seq<Chunk>, si: u16) {
    forall i :: 0 <= i < |q| && q[i].streamIdentifier == si ==>
                  si in m && (q[i].streamSequenceNumber == m[si] || Sna16LT(q[i].streamSequenceNumber, m[si]))
  }

  /** The reported number is greatest exactly when the stream's numbers span less than half the circle. */
  lemma GreatestWhenLow(q: seq<Chunk>, si: u16)
    ensures Greatest(SkipFrom(map[], q), q, si) <==> exists base: u16 :: Low(base, q, si)
  {
    var m := SkipFrom(map[], q);
    forall base: u16, i | Low(base, q, si) && 0 <= i < |q| && q[i].streamIdentifier == si
      ensures si in m && (q[i].streamSequenceNumber == m[si] || Sna16LT(q[i].streamSequenceNumber, m[si]))
    {
      SkipGreatest(map[], q, si, base, i);
    }
    if Greatest(m, q, si) {
      var top: int := if si in m then m[si] else 0x7FFF;
      var base: u16 := if top >= 0x7FFF then top - 0x7FFF else top + 0x8001;
      assert Low(base, q, si);
    }
  }

  /** A FORWARD TSN names the advanced ack point; the chunks it skips are all abandoned; it lists exactly
      their streams, each with a number it skips, the greatest one if they span less than half the circle
      and only then. */
  lemma ForwardTSNMeaning(s: Sender, si: u16)
    requires Inv(s) && s.useForwardTSN
    ensures var f, skipped := CreateForwardTSN(s), s.q[..Dist(s.cum, s.adv)];
            && f.newCumulativeTSN == s.adv
            && (forall i :: 0 <= i < |skipped| ==> Abandoned(s.heads, skipped[i]))
            && (si in f.streams <==> Mentions(skipped, si))
            && (si in f.streams ==> Carries(skipped, si, f.streams[si]))
            && (Greatest(f.streams, skipped, si) <==> exists base: u16 :: Low(base, skipped, si))
  {
    var skipped := s.q[..Dist(s.cum, s.adv)];
    SkipListsStreams(map[], skipped, si);
    SkipReportsSkipped(map[], skipped, si);
    GreatestWhenLow(skipped, si);
  }

  /** Without that bound the reported number need not be the greatest: 0, 0x7000, 0xE000 go round the circle. */
  lemma ForwardTSNMayWrap() returns (q: seq<Chunk>)
    ensures |q| == 3 && forall i :: 0 <= i < 3 ==> q[i].streamIdentifier == 0
    ensures 0 in SkipFrom(map[], q) && Sna16LT(SkipFrom(map[], q)[0], q[0].streamSequenceNumber)
  {
    var c := Chunk(0, true, true, false, false, 0, 0, 0, 1, false, 0, 1, false, 0);
    q := [c, c.(streamSequenceNumber := 0x7000), c.(streamSequenceNumber := 0xE000)];
    assert q[1..] == [q[1], q[2]] && q[1..][1..] == [q[2]] && [q[2]][1..] == [];
    var m1 := SkipOne(map[], q[0]);
    var m2 := SkipOne(m1, q[1]);
    var m3 := SkipOne(m2, q[2]);
    assert m3[0] == 0xE000;
    assert SkipFrom(map[], q) == SkipFrom(m1, [q[1], q[2]]) == SkipFrom(m2, [q[2]]) == SkipFrom(m3, []) == m3;
  }
}
