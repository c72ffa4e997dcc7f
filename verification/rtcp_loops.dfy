/** The decoding and encoding loops of the RTCP package, proved to compute what the functions say. */
module RtcpLoops {
  import opened Serial
  import opened Wrappers
  import opened Binary
  import opened RtcpPackets
  import opened RtcpCompound

  /** What a decoder that has `done` elements will return, once it knows about the rest. */
  function Joined<T>(done: seq<T>, rest: Result<seq<T>, Error>): Result<seq<T>, Error> {
    if rest.Err? then rest else Ok(done + rest.value)
  }

  lemma JoinedOnce<T>(done: seq<T>, x: T, rest: Result<seq<T>, Error>)
    ensures Joined(done, Joined([x], rest)) == Joined(done + [x], rest)
  {
    if rest.Ok? { assert done + ([x] + rest.value) == done + [x] + rest.value; }
  }

  lemma JoinedNone<T>(rest: Result<seq<T>, Error>)
    ensures Joined([], rest) == rest
  {
    if rest.Ok? { assert [] + rest.value == rest.value; }
  }

  // ---- Compound packets ----

  method UnmarshalPackets(rawData: Bytes, accepts: Bytes -> bool) returns (r: Result<seq<Packet>, Error>)
    ensures r == Unmarshal(rawData, accepts)
  {
    var rest, packets: seq<Packet> := rawData, [];
    JoinedNone(DecodeAll(rawData, accepts));
    while |rest| != 0
      invariant Joined(packets, DecodeAll(rest, accepts)) == DecodeAll(rawData, accepts)
      decreases |rest|
    {
      StepConsumes(rest, accepts);
      var p := DecodeFirst(rest, accepts);
      if p.Err? { return Err(p.error); }
      JoinedOnce(packets, p.value.packet, DecodeAll(rest[p.value.processed..], accepts));
      packets := packets + [p.value.packet];
      rest := rest[p.value.processed..];
    }
    assert packets + [] == packets;
    if |packets| == 0 { return Err(InvalidHeader); }
    return Ok(packets);
  }

  lemma BothTwice(out: Bytes, data: Bytes, more: Option<Bytes>)
    ensures Both(Some(out), Both(Some(data), more)) == Both(Some(out + data), more)
  {
    if more.Some? { assert out + (data + more.value) == out + data + more.value; }
  }

  /** Marshal, over any encoder of single packets; with Encode it computes EncodeAll. */
  method MarshalPackets(encode: Packet -> Option<Bytes>, packets: seq<Packet>) returns (r: Option<Bytes>)
    ensures r == EncodeWith(encode, packets)
  {
    var out: Bytes, rest := [], packets;
    ghost var goal := EncodeWith(encode, packets);
    assert goal.Some? ==> [] + goal.value == goal.value;
    while |rest| > 0
      invariant Both(Some(out), EncodeWith(encode, rest)) == goal
      decreases |rest|
    {
      var data := encode(rest[0]);
      if data.None? { return None; }
      BothTwice(out, data.value, EncodeWith(encode, rest[1..]));
      out := out + data.value;
      rest := rest[1..];
    }
    assert out + [] == out;
    return Some(out);
  }

  // ---- Source description ----

  /** The item loop of a chunk: up to a null octet. */
  method UnmarshalItems(rawPacket: Bytes) returns (r: Result<seq<Item>, Error>)
    ensures r == DecodeItems(rawPacket)
  {
    var rest, items: seq<Item> := rawPacket, [];
    JoinedNone(DecodeItems(rawPacket));
    while |rest| > 0
      invariant Joined(items, DecodeItems(rest)) == DecodeItems(rawPacket)
      decreases |rest|
    {
      if rest[0] == 0 {
        assert items + [] == items;
        return Ok(items);
      }
      if |rest| < 2 { return Err(TooShort); }
      var octetCount: nat := rest[1];
      var end := octetCount + 2;
      if end > |rest| { return Err(TooShort); }
      var it := Item(rest[0], rest[2..end]);
      JoinedOnce(items, it, DecodeItems(rest[end..]));
      items := items + [it];
      rest := rest[end..];
    }
    return Err(TooShort);
  }

  method ItemsLength(items: seq<Item>) returns (n: nat)
    ensures n == ItemsLen(items)
  {
    n := 0;
    var i := 0;
    while i < |items|
      invariant 0 <= i <= |items| && n + ItemsLen(items[i..]) == ItemsLen(items)
    {
      n := n + 2 + |items[i].text|;
      i := i + 1;
    }
  }

  /** One chunk, and its length with null octet and padding. */
  method UnmarshalChunk(rawPacket: Bytes) returns (c: Result<Chunk, Error>, n: nat)
    ensures c == DecodeChunk(rawPacket) && (c.Ok? ==> n == ChunkLen(c.value))
  {
    n := 0;
    if |rawPacket| < 5 { return Err(TooShort), 0; }
    Bounds();
    BeValueBound(rawPacket[..4]);
    var items := UnmarshalItems(rawPacket[4..]);
    if items.Err? { return Err(items.error), 0; }
    c := Ok(Chunk(BeValue(rawPacket[..4]), items.value));
    n := ItemsLength(items.value);
    n := 4 + n + 1;
    n := n + Padding(n);
  }

  method UnmarshalChunks(body: Bytes) returns (r: Result<seq<Chunk>, Error>)
    ensures r == DecodeChunks(body)
  {
    var rest, chunks: seq<Chunk> := body, [];
    JoinedNone(DecodeChunks(body));
    while |rest| > 0
      invariant Joined(chunks, DecodeChunks(rest)) == DecodeChunks(body)
      decreases |rest|
    {
      var c, n := UnmarshalChunk(rest);
      if c.Err? { return Err(c.error); }
      var next := if n < |rest| then rest[n..] else [];
      JoinedOnce(chunks, c.value, DecodeChunks(next));
      chunks := chunks + [c.value];
      rest := next;
    }
    assert chunks + [] == chunks;
    return Ok(chunks);
  }

  // ---- Lists in reports and feedback ----

  function After(done: seq<Report>, more: Option<ReportList>): Option<ReportList> {
    if more.None? then None else Some(ReportList(done + more.value.reports, more.value.rest))
  }

  lemma AfterOne(done: seq<Report>, r: Report, more: Option<ReportList>)
    ensures After(done, After([r], more)) == After(done + [r], more)
  {
    if more.Some? { assert done + ([r] + more.value.reports) == done + [r] + more.value.reports; }
  }

  /** The report loop: `count` reports, or fewer if the bytes run out. */
  method UnmarshalReports(body: Bytes, count: nat) returns (r: Option<ReportList>)
    ensures r == DecodeReports(body, count)
  {
    var reports: seq<Report>, rest := [], body;
    ghost var goal := DecodeReports(body, count);
    assert goal.Some? ==> [] + goal.value.reports == goal.value.reports;
    while |reports| < count
      invariant |reports| <= count && After(reports, DecodeReports(rest, count - |reports|)) == goal
      decreases count - |reports|
    {
      if |rest| < 24 { return None; }
      var rr := DecodeReport(rest);
      AfterOne(reports, rr, DecodeReports(rest[24..], count - |reports| - 1));
      reports := reports + [rr];
      rest := rest[24..];
    }
    assert reports + [] == reports;
    r := Some(ReportList(reports, rest));
  }

  method UnmarshalNacks(list: Bytes) returns (nacks: seq<NackPair>)
    ensures nacks == DecodeNacks(list)
  {
    nacks := [];
    var rest := list;
    while |rest| >= 4
      invariant nacks + DecodeNacks(rest) == DecodeNacks(list)
      decreases |rest|
    {
      Bounds();
      BeValueBound(rest[..2]);
      BeValueBound(rest[2..4]);
      var pair := NackPair(BeValue(rest[..2]), BeValue(rest[2..4]));
      assert nacks + ([pair] + DecodeNacks(rest[4..])) == nacks + [pair] + DecodeNacks(rest[4..]);
      nacks := nacks + [pair];
      rest := rest[4..];
    }
    assert nacks + [] == nacks;
  }

  method UnmarshalFirs(list: Bytes, n: int) returns (r: Result<seq<FirEntry>, Error>)
    ensures r == DecodeFirs(list, n)
  {
    var entries: seq<FirEntry>, rest, left := [], list, n;
    JoinedNone(DecodeFirs(list, n));
    while left > 0
      invariant Joined(entries, DecodeFirs(rest, left)) == DecodeFirs(list, n)
      decreases |rest|
    {
      if |rest| < 5 { return Err(Unindexable); }
      Bounds();
      BeValueBound(rest[..4]);
      var e := FirEntry(BeValue(rest[..4]), rest[4]);
      var next := if |rest| < 8 then [] else rest[8..];
      assert [e] + [] == [e];
      assert DecodeFirs(rest, left) == Joined([e], DecodeFirs(next, left - 8));
      JoinedOnce(entries, e, DecodeFirs(next, left - 8));
      entries := entries + [e];
      rest, left := next, left - 8;
    }
    assert entries + [] == entries;
    return Ok(entries);
  }

  method UnmarshalSources(b: Bytes, n: nat) returns (sources: seq<u32>)
    requires |b| >= 4 * n
    ensures sources == DecodeSources(b, n)
  {
    sources := [];
    var rest := b;
    while |sources| < n
      invariant |sources| <= n && |rest| >= 4 * (n - |sources|)
      invariant sources + DecodeSources(rest, n - |sources|) == DecodeSources(b, n)
      decreases n - |sources|
    {
      Bounds();
      BeValueBound(rest[..4]);
      var x: u32 := BeValue(rest[..4]);
      assert sources + ([x] + DecodeSources(rest[4..], n - |sources| - 1)) ==
               sources + [x] + DecodeSources(rest[4..], n - |sources| - 1);
      sources := sources + [x];
      rest := rest[4..];
    }
  }
}
