/** The map-based queue of DATA chunks with its lazily sorted key list and byte count. */
module SctpPayloadQueue {
  import opened Serial
  import opened Wrappers
  import opened SctpChunks
  import opened SctpSender
  import opened SctpReceiver

  /** Keys above `base` and at most half the circle away, so that serial order sorts them. */
  ghost predicate Window(base: u32, keys: set<u32>) {
    forall k :: k in keys ==> 1 <= Dist(base, k) <= 0x8000_0000
  }

  ghost predicate HasOldest(keys: set<u32>) {
    exists k :: IsOldest(keys, k)
  }

  /** The keys in serial order. */
  ghost function Sort(keys: set<u32>): seq<u32>
    decreases keys
  {
    if HasOldest(keys) then var k :| IsOldest(keys, k); [k] + Sort(keys - {k}) else []
  }

  lemma {:induction false} OldestExists(base: u32, keys: set<u32>) returns (k: u32)
    requires Window(base, keys) && keys != {}
    ensures k in keys && (forall j :: j in keys ==> Dist(base, k) <= Dist(base, j)) && IsOldest(keys, k)
    decreases keys
  {
    k :| k in keys;
    if keys != {k} {
      var j := OldestExists(base, keys - {k});
      assert forall x :: x in keys ==> x == k || x in keys - {k};
      if Dist(base, j) < Dist(base, k) { k := j; }
    }
  }

  /** The head of the sorted keys is the one key that can be popped. */
  lemma HeadIsOldest(keys: set<u32>, tsn: u32)
    ensures IsOldest(keys, tsn) <==> Sort(keys) != [] && Sort(keys)[0] == tsn
    ensures IsOldest(keys, tsn) ==> Sort(keys) == [tsn] + Sort(keys - {tsn})
  {}

  lemma {:induction false} SortIsAscending(base: u32, keys: set<u32>)
    requires Window(base, keys)
    ensures Ascending(base, Sort(keys)) && forall k :: k in Sort(keys) <==> k in keys
    decreases keys
  {
    if keys != {} {
      var k := OldestExists(base, keys);
      HeadIsOldest(keys, k);
      SortIsAscending(base, keys - {k});
      var rest := Sort(keys - {k});
      forall i | 0 <= i < |rest| ensures Dist(base, k) < Dist(base, rest[i]) { assert rest[i] in keys - {k}; }
    }
  }

  /** One pass over the sorted keys, extending the last block or closing it. */
  method BlocksOf(cumulativeTSN: u32, s: seq<u32>) returns (blocks: seq<Gap>)
    ensures blocks == GapBlocks(cumulativeTSN, s)
  {
    if |s| == 0 { return []; }
    var x := Blocks([], Gap(Offset(cumulativeTSN, s[0]), Offset(cumulativeTSN, s[0])));
    ghost var goal := BlocksFrom(x, cumulativeTSN, s[1..]);
    var i := 1;
    while i < |s|
      invariant 1 <= i <= |s| && BlocksFrom(x, cumulativeTSN, s[i..]) == goal
    {
      var diff := Offset(cumulativeTSN, s[i]);
      assert s[i..][0] == s[i] && s[i..][1..] == s[i + 1..];
      if (x.b.end + 1) % 0x1_0000 == diff {
        x := Blocks(x.done, Gap(x.b.start, diff));
      } else {
        x := Blocks(x.done + [x.b], Gap(diff, diff));
      }
      i := i + 1;
    }
    blocks := x.done + [x.b];
  }

  class PayloadQueue {
    var chunkMap: map<u32, Chunk>
    var sorted: Option<seq<u32>>
    var nBytes: int
    var dupTSN: seq<u32>

    ghost predicate Valid()
      reads this
    {
      sorted.Some? ==> sorted.value == Sort(chunkMap.Keys)
    }

    constructor ()
      ensures Valid() && chunkMap == map[] && nBytes == 0 && dupTSN == []
    {
      chunkMap := map[];
      sorted := None;
      nBytes := 0;
      dupTSN := [];
    }

    method UpdateSortedKeys(ghost base: u32)
      requires Valid() && Window(base, chunkMap.Keys)
      modifies this`sorted
      ensures Valid() && sorted.Some?
    {
      if sorted.Some? { return; }
      var rest, s := chunkMap.Keys, [];
      while rest != {}
        invariant rest <= chunkMap.Keys && s + Sort(rest) == Sort(chunkMap.Keys)
        decreases rest
      {
        ghost var oldest := OldestExists(base, rest);
        var k :| k in rest && IsOldest(rest, k);
        HeadIsOldest(rest, k);
        assert s + ([k] + Sort(rest - {k})) == s + [k] + Sort(rest - {k});
        s := s + [k];
        rest := rest - {k};
      }
      sorted := Some(s);
    }

    /** Pops only the oldest chunk. */
    method Pop(tsn: u32, ghost base: u32) returns (c: Option<Chunk>)
      requires Valid() && Window(base, chunkMap.Keys)
      modifies this`chunkMap, this`sorted, this`nBytes
      ensures Valid()
      ensures c.Some? <==> IsOldest(old(chunkMap.Keys), tsn)
      ensures c.Some? ==> tsn in old(chunkMap) && c.value == old(chunkMap)[tsn]
                          && chunkMap == old(chunkMap) - {tsn} && nBytes == old(nBytes) - c.value.len
      ensures c.None? ==> chunkMap == old(chunkMap) && nBytes == old(nBytes)
    {
      UpdateSortedKeys(base);
      c := None;
      HeadIsOldest(chunkMap.Keys, tsn);
      if |sorted.value| > 0 && tsn == sorted.value[0] {
        sorted := Some(sorted.value[1..]);
        c := Some(chunkMap[tsn]);
        nBytes := nBytes - chunkMap[tsn].len;
        chunkMap := chunkMap - {tsn};
        assert chunkMap.Keys == old(chunkMap.Keys) - {tsn};
      }
    }

    method PushNoCheck(c: Chunk)
      requires Valid()
      modifies this`chunkMap, this`sorted, this`nBytes
      ensures Valid() && chunkMap == old(chunkMap)[c.tsn := c] && nBytes == old(nBytes) + c.len
    {
      chunkMap := chunkMap[c.tsn := c];
      nBytes := nBytes + c.len;
      sorted := None;
    }

    method CanPush(c: Chunk, cumulativeTSN: u32) returns (ok: bool)
      ensures ok <==> c.tsn !in chunkMap && !Sna32LTE(c.tsn, cumulativeTSN)
    {
      ok := !(c.tsn in chunkMap || Sna32LTE(c.tsn, cumulativeTSN));
    }

    /** Records as a duplicate what is queued already or not above the cumulative TSN. */
    method Push(c: Chunk, cumulativeTSN: u32) returns (ok: bool)
      requires Valid()
      modifies this
      ensures Valid() && (ok <==> c.tsn !in old(chunkMap) && !Sna32LTE(c.tsn, cumulativeTSN))
      ensures ok ==> chunkMap == old(chunkMap)[c.tsn := c] && nBytes == old(nBytes) + c.len && dupTSN == old(dupTSN)
      ensures !ok ==> chunkMap == old(chunkMap) && nBytes == old(nBytes) && dupTSN == old(dupTSN) + [c.tsn]
    {
      if c.tsn in chunkMap || Sna32LTE(c.tsn, cumulativeTSN) {
        dupTSN := dupTSN + [c.tsn];
        return false;
      }
      PushNoCheck(c);
      return true;
    }

    method PopDuplicates() returns (dups: seq<u32>)
      requires Valid()
      modifies this`dupTSN
      ensures Valid() && dups == old(dupTSN) && dupTSN == []
    {
      dups := dupTSN;
      dupTSN := [];
    }

    /** A write through the reference that `get` returned: the chunk changes, its length does not. */
    method Set(tsn: u32, c: Chunk)
      requires Valid() && tsn in chunkMap && c.len == chunkMap[tsn].len
      modifies this`chunkMap
      ensures Valid() && chunkMap == old(chunkMap)[tsn := c]
    {
      chunkMap := chunkMap[tsn := c];
      assert chunkMap.Keys == old(chunkMap.Keys);
    }

    method MarkAsAcked(tsn: u32) returns (nBytesAcked: nat)
      requires Valid()
      modifies this`chunkMap, this`nBytes
      ensures Valid() && nBytes == old(nBytes) - nBytesAcked
      ensures tsn !in old(chunkMap) ==> nBytesAcked == 0 && chunkMap == old(chunkMap)
      ensures tsn in old(chunkMap) ==>
                && nBytesAcked == old(chunkMap)[tsn].len
                && chunkMap == old(chunkMap)[tsn := old(chunkMap)[tsn].(acked := true, retransmit := false, len := 0)]
    {
      if tsn !in chunkMap { return 0; }
      nBytesAcked := chunkMap[tsn].len;
      nBytes := nBytes - nBytesAcked;
      chunkMap := chunkMap[tsn := chunkMap[tsn].(acked := true, retransmit := false, len := 0)];
      assert chunkMap.Keys == old(chunkMap.Keys);
    }

    method GetLastTSNReceived(ghost base: u32) returns (last: Option<u32>)
      requires Valid() && Window(base, chunkMap.Keys)
      modifies this`sorted
      ensures Valid()
      ensures last.None? <==> chunkMap == map[]
      ensures last.Some? ==>
                last.value in chunkMap && forall k :: k in chunkMap ==> k == last.value || Sna32LT(k, last.value)
    {
      UpdateSortedKeys(base);
      SortIsAscending(base, chunkMap.Keys);
      var s := sorted.value;
      if |s| == 0 {
        last := None;
        assert forall k :: k in chunkMap ==> k in s;
      } else {
        last := Some(s[|s| - 1]);
        assert s[|s| - 1] in chunkMap;
        forall k | k in chunkMap ensures k == last.value || Sna32LT(k, last.value) { assert k in s; }
      }
    }

    method GetGapAckBlocks(cumulativeTSN: u32) returns (blocks: seq<Gap>)
      requires Valid() && Window(cumulativeTSN, chunkMap.Keys)
      modifies this`sorted
      ensures Valid() && blocks == GapBlocks(cumulativeTSN, Sort(chunkMap.Keys))
    {
      if |chunkMap.Keys| == 0 {
        assert Sort(chunkMap.Keys) == [];
        return [];
      }
      UpdateSortedKeys(cumulativeTSN);
      blocks := BlocksOf(cumulativeTSN, sorted.value);
    }

    /** Flags every chunk that is neither acknowledged nor abandoned. */
    method MarkAllToRetransmit(heads: Heads)
      requires Valid()
      modifies this`chunkMap
      ensures Valid() && chunkMap.Keys == old(chunkMap.Keys)
      ensures forall k :: k in chunkMap ==> chunkMap[k] == MarkDue(old(chunkMap)[k], heads)
    {
      var rest := chunkMap.Keys;
      while rest != {}
        invariant rest <= chunkMap.Keys == old(chunkMap.Keys)
        invariant forall k :: k in chunkMap ==>
                    chunkMap[k] == if k in rest then old(chunkMap)[k] else MarkDue(old(chunkMap)[k], heads)
        decreases rest
      {
        var k :| k in rest;
        if !(chunkMap[k].acked || Abandoned(heads, chunkMap[k])) {
          chunkMap := chunkMap[k := chunkMap[k].(retransmit := true)];
        }
        rest := rest - {k};
      }
    }
  }

  function MarkDue(c: Chunk, heads: Heads): Chunk {
    if c.acked || Abandoned(heads, c) then c else c.(retransmit := true)
  }
}
