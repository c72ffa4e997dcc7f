/** Transport-wide feedback on arbitrary input: the words of the chunks, what they announce, and what is read. */
module RtcpTwccAcceptance {
  import opened Serial
  import opened Wrappers
  import opened Binary
  import opened RtcpPackets
  import opened RtcpTwcc
  import A = RtcpAcceptance

  // ---- Chunks are words ----

  function Power(base: nat, n: nat): nat { if n == 0 then 1 else base * Power(base, n - 1) }

  /** Symbols are read from the most significant end. */
  lemma {:induction false} SymbolAt(v: nat, n: nat, wide: bool, i: nat)
    requires i < n
    ensures Power(Values(wide), n - 1 - i) > 0
    ensures UnpackSymbols(v, n, wide)[i] == v / Power(Values(wide), n - 1 - i) % Values(wide)
    decreases n
  {
    PowerPositive(Values(wide), n - 1 - i);
    if i < n - 1 {
      SymbolAt(Down(v, wide), n - 1, wide, i);
      var p := Power(Values(wide), n - 2 - i);
      DivideTwice(v, Values(wide), p);
    }
  }

  lemma {:induction false} PowerPositive(base: nat, n: nat)
    requires base > 0
    ensures Power(base, n) > 0
  {
    if n > 0 { PowerPositive(base, n - 1); }
  }

  lemma DivideTwice(v: nat, a: nat, b: nat)
    requires a > 0 && b > 0
    ensures a * b > 0 && v / a / b == v / (a * b)
  {
    var q, r := v / a, v % a;
    var s, t := q / b, q % b;
    assert v == a * (b * s + t) + r;
    assert v == (a * b) * s + (a * t + r);
    Below(a, b, t, r);
    Unique(v, a * b, s, a * t + r);
  }

  lemma Below(a: nat, b: nat, t: nat, r: nat)
    requires t < b && r < a
    ensures 0 <= a * t + r < a * b
  {
    assert a * t + a == a * (t + 1) <= a * b;
  }

  lemma {:induction false} Monotone(d: nat, x: nat, y: nat)
    ensures x + 1 <= y ==> d * x + d <= d * y
    decreases y
  {
    if x + 1 <= y {
      assert d * y == d * (y - 1) + d;
      Monotone(d, x, y - 1);
    }
  }

  lemma Unique(v: nat, d: nat, q: nat, r: nat)
    requires d > 0 && v == d * q + r && r < d
    ensures v / d == q
  {
    var q', r' := v / d, v % d;
    assert v == d * q' + r';
    Monotone(d, q, q');
    Monotone(d, q', q);
  }

  lemma VectorWord(v: nat)
    requires 32768 <= v < 0x1_0000
    ensures var size := v / 16384 % 2; v == 32768 + 16384 * size + v % 16384
  {}

  lemma RunWord(v: nat)
    requires v < 32768
    ensures v / 8192 < 4 && v == 8192 * (v / 8192 % 4) + v % 8192 % 8192
  {}

  lemma {:induction false} PackUnpacked(v: nat, n: nat, wide: bool)
    requires v < Shift(1, Bits(n, wide))
    ensures PackSymbols(UnpackSymbols(v, n, wide), wide) == v
    decreases n
  {
    if n > 0 {
      var s := UnpackSymbols(v, n, wide);
      HalfBound(v, n, wide);
      PackUnpacked(Down(v, wide), n - 1, wide);
      assert s[..n - 1] == UnpackSymbols(Down(v, wide), n - 1, wide);
    }
  }

  lemma HalfBound(v: nat, n: nat, wide: bool)
    requires n > 0 && v < Shift(1, Bits(n, wide))
    ensures Down(v, wide) < Shift(1, Bits(n - 1, wide)) && Up(Down(v, wide), wide) + Low(v, wide) == v
    ensures Low(Low(v, wide), wide) == Low(v, wide)
  {
    if wide { assert Shift(1, 2 * n) == 2 * Shift(1, 2 * n - 1) == 4 * Shift(1, 2 * n - 2); }
  }

  /** Every 16-bit word is the word of the chunk read from it, so chunks in range and words correspond one to one. */
  lemma WordIsChunk(v: nat)
    requires v < 0x1_0000
    ensures ChunkWF(ChunkOfWord(v)) && ChunkWord(ChunkOfWord(v)) == Some(v)
  {
    if v < 32768 {
      RunWord(v);
    } else {
      var size := v / 16384 % 2;
      Shifts();
      VectorWord(v);
      PackUnpacked(v % 16384, if size == 1 then 7 else 14, size == 1);
    }
  }

  /** What a word says: a run if its first bit is 0, with a symbol of two bits and a length of thirteen; otherwise, by
      the second bit, fourteen symbols of one bit or seven of two, most significant first. */
  lemma WordMeaning(v: nat, i: nat)
    requires v < 0x1_0000
    ensures v < 0x8000 ==> ChunkOfWord(v) == RunLength(v / 0x2000, v % 0x2000)
    ensures v >= 0x8000 ==> ChunkOfWord(v).Vector?
    ensures 0x8000 <= v < 0xC000 ==>
              && |ChunkOfWord(v).symbols| == 14
              && (i < 14 ==> Power(2, 13 - i) > 0 && ChunkOfWord(v).symbols[i] == v % 0x4000 / Power(2, 13 - i) % 2)
    ensures v >= 0xC000 ==>
              && |ChunkOfWord(v).symbols| == 7
              && (i < 7 ==> Power(4, 6 - i) > 0 && ChunkOfWord(v).symbols[i] == v % 0x4000 / Power(4, 6 - i) % 4)
  {
    if 0x8000 <= v {
      VectorWord(v);
      if v < 0xC000 && i < 14 { SymbolAt(v % 0x4000, 14, false, i); }
      if v >= 0xC000 && i < 7 { SymbolAt(v % 0x4000, 7, true, i); }
    }
  }

  // ---- One delta for each packet received ----

  /** The status of each packet, as the chunks give them. */
  function Symbols(c: StatusChunk): seq<nat> {
    match c
    case RunLength(symbol, n) => Repeat(symbol, n)
    case Vector(_, symbols) => symbols
  }

  function AllSymbols(cs: seq<StatusChunk>): seq<nat> {
    if cs == [] then [] else Symbols(cs[0]) + AllSymbols(cs[1..])
  }

  /** Status 1 is a packet received with a small delta, 2 one with a large or negative delta. */
  function Received(symbols: seq<nat>): seq<nat> {
    if symbols == [] then []
    else (if symbols[0] == 1 || symbols[0] == 2 then [symbols[0]] else []) + Received(symbols[1..])
  }

  lemma {:induction false} ReceivedJoins(a: seq<nat>, b: seq<nat>)
    ensures Received(a + b) == Received(a) + Received(b)
    decreases |a|
  {
    if a == [] {
      assert a + b == b;
    } else {
      ReceivedJoins(a[1..], b);
      assert (a + b)[1..] == a[1..] + b && (a + b)[0] == a[0];
      Associates(if a[0] == 1 || a[0] == 2 then [a[0]] else [], Received(a[1..]), Received(b));
    }
  }

  lemma Associates(a: seq<nat>, b: seq<nat>, c: seq<nat>)
    ensures a + (b + c) == a + b + c
  {}

  lemma {:induction false} AnnouncedIsReceived(s: seq<nat>)
    ensures Announced(s) == Received(s)
  {
    if s != [] { AnnouncedIsReceived(s[1..]); }
  }

  lemma {:induction false} ReceivedRun(x: nat, n: nat)
    ensures Received(Repeat(x, n)) == if x == 1 || x == 2 then Repeat(x, n) else []
    decreases n
  {
    if n > 0 {
      ReceivedRun(x, n - 1);
      assert Repeat(x, n)[1..] == Repeat(x, n - 1);
    }
  }

  lemma {:induction false} RunPrefix(x: nat, n: nat, k: nat)
    requires k <= n
    ensures Repeat(x, n)[..k] == Repeat(x, k)
    decreases k
  {
    if k > 0 { RunPrefix(x, n - 1, k - 1); }
  }

  lemma TypesOfChunk(c: StatusChunk, remaining: nat)
    ensures Types(c, remaining) == if c.RunLength? then Received(Symbols(c)[..Accounts(c, remaining)])
                                   else Received(Symbols(c))
  {
    match c
    case RunLength(symbol, n) =>
      RunPrefix(symbol, n, Accounts(c, remaining));
      ReceivedRun(symbol, Accounts(c, remaining));
    case Vector(_, symbols) => AnnouncedIsReceived(symbols);
  }

  /** Symbols of a last vector that go beyond the count. */
  function Surplus(cs: seq<StatusChunk>, n: nat): seq<nat> {
    if cs != [] && cs[|cs| - 1].Vector? && n <= |AllSymbols(cs)| then AllSymbols(cs)[n..] else []
  }

  lemma LastChunkTypes(c: StatusChunk, n: nat)
    requires |Symbols(c)| >= n
    ensures AllSymbols([c]) == Symbols(c)
    ensures Types(c, n) == Received(AllSymbols([c])[..n]) + Received(Surplus([c], n))
  {
    TypesOfChunk(c, n);
    assert AllSymbols([c][1..]) == [] && Symbols(c) + [] == Symbols(c);
    ReceivedJoins(Symbols(c)[..n], Symbols(c)[n..]);
    assert Symbols(c)[..n] + Symbols(c)[n..] == Symbols(c);
  }

  lemma MoreSymbols(cs: seq<StatusChunk>, n: nat)
    requires |cs| > 1 && |Symbols(cs[0])| <= n <= |Symbols(cs[0])| + |AllSymbols(cs[1..])|
    ensures var k := |Symbols(cs[0])|;
            && |AllSymbols(cs)| == k + |AllSymbols(cs[1..])|
            && AllSymbols(cs)[..n] == Symbols(cs[0]) + AllSymbols(cs[1..])[..n - k]
            && Surplus(cs, n) == Surplus(cs[1..], n - k)
  {
    var s, more := Symbols(cs[0]), AllSymbols(cs[1..]);
    assert (s + more)[..n] == s + more[..n - |s|] && (s + more)[n..] == more[n - |s|..];
    assert cs[1..][|cs| - 2] == cs[|cs| - 1];
  }

  /** The deltas announced are those of the packets counted and of the surplus. */
  predicate PerPacket(cs: seq<StatusChunk>, n: nat, types: seq<nat>) {
    n <= |AllSymbols(cs)| && types == Received(AllSymbols(cs)[..n]) + Received(Surplus(cs, n))
  }

  lemma PerPacketMore(cs: seq<StatusChunk>, n: nat, k: nat, types: seq<nat>)
    requires |cs| > 1 && k == Accounts(cs[0], n) < n && PerPacket(cs[1..], n - k, types)
    ensures PerPacket(cs, n, Types(cs[0], n) + types)
  {
    var s, more := Symbols(cs[0]), AllSymbols(cs[1..])[..n - k];
    TypesAreAll(cs[0], n);
    MoreSymbols(cs, n);
    ReceivedJoins(s, more);
    Associates(Received(s), Received(more), Received(Surplus(cs, n)));
  }

  lemma TypesAreAll(c: StatusChunk, remaining: nat)
    requires Accounts(c, remaining) < remaining
    ensures Accounts(c, remaining) == |Symbols(c)| && Types(c, remaining) == Received(Symbols(c))
  {
    TypesOfChunk(c, remaining);
    assert Symbols(c)[..|Symbols(c)|] == Symbols(c);
  }

  lemma PerPacketLast(cs: seq<StatusChunk>, n: nat)
    requires |cs| == 1 && Accounts(cs[0], n) >= n
    ensures PerPacket(cs, n, Types(cs[0], n))
  {
    assert cs == [cs[0]];
    LastChunkTypes(cs[0], n);
  }

  /** The deltas a feedback packet must carry: one for each packet received among those counted, of the size its status
      says, in order; and one for each that a last vector reports beyond the count. */
  lemma {:induction false} DeltaPerPacket(cs: seq<StatusChunk>, count: u16, processed: nat)
    requires Needed(cs, count, processed) && processed <= count
    ensures PerPacket(cs, count - processed, AllTypes(cs, count, processed))
    decreases |cs|
  {
    if cs != [] {
      var n := count - processed;
      var k := Accounts(cs[0], n);
      if cs[1..] == [] {
        PerPacketLast(cs, n);
        assert Types(cs[0], n) + [] == Types(cs[0], n);
      } else {
        DeltaPerPacket(cs[1..], count, processed + k);
        PerPacketMore(cs, n, k, AllTypes(cs[1..], count, processed + k));
      }
    }
  }

  // ---- What is read is what is there ----

  predicate Sizes(types: seq<nat>) {
    forall i :: 0 <= i < |types| ==> types[i] == SMALL_DELTA || types[i] == LARGE_DELTA
  }

  lemma DeltaFrom(b: Bytes, typ: nat, n: nat, d: Delta)
    requires (typ == SMALL_DELTA && n == 1) || (typ == LARGE_DELTA && n == 2)
    requires |b| >= n && d == Delta(typ, if n == 1 then UnsignedDelta(b[0]) else SignedDelta(BeValue(b[..2])))
    ensures DeltaWF(d) && EncodeDelta(d) == Some(b[..n])
  {
    BeValueBound(b[..n]);
    Bounds();
    if n == 2 {
      var v := BeValue(b[..2]);
      QuotientOf(SignedDelta(v) / 250);
      A.BeOfValue(b[..2]);
    } else {
      QuotientOf(b[0]);
      assert b[..1] == [b[0]];
    }
  }

  lemma QuotientOf(v: int)
    ensures Quotient(250 * v, 250) == v && 250 * v % 250 == 0
  {}

  /** Deltas read from bytes are in range and encode to those bytes. */
  lemma {:induction false} DeltasFrom(b: Bytes, left: int, types: seq<nat>, ds: seq<Delta>)
    requires DecodeDeltas(b, left, types) == Ok(ds) && Sizes(types)
    ensures TypesOf(ds) == types && DeltasWF(ds) && EncodeDeltas(ds) <= b
    decreases |types|
  {
    if types != [] {
      var n := if types[0] == SMALL_DELTA then 1 else 2;
      DeltaFrom(b, types[0], n, ds[0]);
      DeltasFrom(b[n..], left - n, types[1..], ds[1..]);
      A.PrefixSplits(b[..n], EncodeDeltas(ds[1..]), b);
    }
  }

  lemma {:induction false} ReceivedSizes(s: seq<nat>)
    ensures Sizes(Received(s))
  {
    if s != [] { ReceivedSizes(s[1..]); }
  }

  lemma TypesAreSizes(c: StatusChunk, remaining: nat)
    ensures Sizes(Types(c, remaining))
  {
    TypesOfChunk(c, remaining);
    ReceivedSizes(if c.RunLength? then Symbols(c)[..Accounts(c, remaining)] else Symbols(c));
  }

  /** The chunks read from `b` on. */
  predicate StatusIs(s: Status, b: Bytes) {
    RtcpTwcc.ChunksWF(s.chunks) && s.used == 2 * |s.chunks| && EncodeStatus(Words(), s.chunks) <= b && Sizes(s.types)
  }

  lemma StatusFromNext(b: Bytes, c: StatusChunk, types: seq<nat>, more: Status)
    requires |b| > 2 && c == ChunkOfWord(BeValue(b[..2])) && Sizes(types) && StatusIs(more, b[2..])
    ensures StatusIs(Status([c] + more.chunks, types + more.types, 2 + more.used), b)
  {
    BeValueBound(b[..2]);
    Bounds();
    WordIsChunk(BeValue(b[..2]));
    A.BeOfValue(b[..2]);
    var cs := [c] + more.chunks;
    assert cs[1..] == more.chunks;
    A.PrefixSplits(b[..2], EncodeStatus(Words(), more.chunks), b);
  }

  /** Chunks read from bytes are in range and encode to those bytes. */
  lemma {:induction false} StatusFrom(b: Bytes, count: u16, processed: u16, s: Status)
    requires DecodeStatus(Words(), b, count, processed) == Ok(s)
    ensures StatusIs(s, b)
    decreases |b|
  {
    if processed < count {
      var c := ChunkOfWord(BeValue(b[..2]));
      var n := Accounts(c, count - processed);
      var more := DecodeStatus(Words(), b[2..], count, (processed + n) % 0x1_0000).value;
      StatusFrom(b[2..], count, (processed + n) % 0x1_0000, more);
      TypesAreSizes(c, count - processed);
      StatusFromNext(b, c, Types(c, count - processed), more);
    }
  }

  /** As long as the 16-bit count cannot wrap, exactly the chunks needed are read, and the deltas they announce. */
  lemma {:induction false} StatusNeeded(b: Bytes, count: u16, processed: u16, s: Status)
    requires DecodeStatus(Words(), b, count, processed) == Ok(s) && count <= 65522
    ensures Needed(s.chunks, count, processed) && s.types == AllTypes(s.chunks, count, processed)
    decreases |b|
  {
    if processed < count {
      var c := ChunkOfWord(BeValue(b[..2]));
      var n := Accounts(c, count - processed);
      CountFits(b, c, count, processed);
      var more := DecodeStatus(Words(), b[2..], count, processed + n).value;
      StatusNeeded(b[2..], count, processed + n, more);
      NeededMore(c, more, count, processed, n, s.chunks);
    }
  }

  lemma CountFits(b: Bytes, c: StatusChunk, count: u16, processed: u16)
    requires |b| > 2 && c == ChunkOfWord(BeValue(b[..2])) && processed < count <= 65522
    ensures var n := Accounts(c, count - processed);
            processed + n < 0x1_0000 && (processed + n) % 0x1_0000 == processed + n
  {
    BeValueBound(b[..2]);
    Bounds();
    WordIsChunk(BeValue(b[..2]));
    AccountsAtMost14(c, count - processed);
    NoWrap(processed + Accounts(c, count - processed));
  }

  lemma NeededMore(c: StatusChunk, more: Status, count: u16, processed: u16, n: nat, cs: seq<StatusChunk>)
    requires processed < count && n == Accounts(c, count - processed) && cs == [c] + more.chunks
    requires Needed(more.chunks, count, processed + n) && more.types == AllTypes(more.chunks, count, processed + n)
    ensures Needed(cs, count, processed)
    ensures AllTypes(cs, count, processed) == Types(c, count - processed) + more.types
  {
    assert cs[1..] == more.chunks;
  }

  /** The lists as they lie in what follows the fixed fields. */
  predicate ListsAre(l: Lists, tail: Bytes, count: u16) {
    && RtcpTwcc.ChunksWF(l.chunks) && DeltasWF(l.deltas)
    && EncodeStatus(Words(), l.chunks) + EncodeDeltas(l.deltas) <= tail
    && (count <= 65522 ==> Needed(l.chunks, count, 0) && TypesOf(l.deltas) == AllTypes(l.chunks, count, 0))
  }

  lemma PrefixesJoin(x: Bytes, y: Bytes, tail: Bytes, n: nat)
    requires n <= |tail| && x <= tail[..n] && y <= tail[|x|..]
    ensures x + y <= tail
  {
    assert x == tail[..n][..|x|] == tail[..|x|];
    A.PrefixSplits(x, y, tail);
  }

  lemma TailParts(k: Codec, count: u16, n: nat, tail: Bytes, l: Lists) returns (s: Status)
    requires n <= |tail| && DecodeTail(k, count, n, tail) == Ok(l)
    ensures DecodeStatus(k, tail[..n], count, 0) == Ok(s) && s.used <= n && s.chunks == l.chunks
    ensures DecodeDeltas(tail[s.used..], n - s.used, s.types) == Ok(l.deltas)
  {
    s := DecodeStatus(k, tail[..n], count, 0).value;
    DecodeStatusUses(k, tail[..n], count, 0);
  }

  lemma TailFrom(count: u16, n: nat, tail: Bytes, l: Lists)
    requires n <= |tail| && DecodeTail(Words(), count, n, tail) == Ok(l)
    ensures ListsAre(l, tail, count)
  {
    var s := TailParts(Words(), count, n, tail, l);
    StatusFrom(tail[..n], count, 0, s);
    DeltasFrom(tail[s.used..], n - s.used, s.types, l.deltas);
    PrefixesJoin(EncodeStatus(Words(), s.chunks), EncodeDeltas(l.deltas), tail, n);
    if count <= 65522 { StatusNeeded(tail[..n], count, 0, s); }
  }

  /** Feedback is read only from a header that announces it, and what is read is what is there: the fixed fields, the
      chunks and the deltas encode to the bytes after the header. Up to 65522 packets, the chunks are the ones needed
      and the deltas the ones they announce. */
  lemma FeedbackFrom(b: Bytes, t: Feedback)
    requires Unmarshal(b) == Ok(t)
    ensures |b| >= 20 && DecodeHeader(b) == Ok(t.header) && A.Announces(b, RTPFB, TCC_FORMAT)
    ensures t.referenceTime < 0x100_0000 && Total(FIXED) == 16 && b[4..20] == Pack(FixedValues(t), FIXED)
    ensures ListsAre(Lists(t.chunks, t.deltas), b[20..], t.packetStatusCount)
  {
    var h := DecodeHeader(b).value;
    BodyFrom(h, TotalLength(h) - 4, b[4..], t);
    assert b[4..][..16] == b[4..20] && b[4..][16..] == b[20..];
  }

  lemma BodyFrom(h: Header, n: nat, body: Bytes, t: Feedback)
    requires 16 <= n <= |body| && DecodeBody(Words(), h, n, body) == Ok(t)
    ensures t.header == h && t.referenceTime < 0x100_0000 && Total(FIXED) == 16
    ensures body[..16] == Pack(FixedValues(t), FIXED)
    ensures ListsAre(Lists(t.chunks, t.deltas), body[16..], t.packetStatusCount)
  {
    FixedTotal();
    var v := Unpack(body, FIXED);
    BodyParts(Words(), h, n, body, v, t);
    FeedbackParts(h, v, DecodeTail(Words(), v[3], n - 16, body[16..]).value, t);
    FixedFrom(body, v, t);
    TailFrom(t.packetStatusCount, n - 16, body[16..], Lists(t.chunks, t.deltas));
  }

  lemma FeedbackParts(h: Header, v: seq<nat>, l: Lists, t: Feedback)
    requires Fit(v, FIXED) && t == FeedbackOf(h, v, l)
    ensures v == [t.senderSSRC, t.mediaSSRC, t.baseSequenceNumber, t.packetStatusCount, t.referenceTime, t.fbPktCount]
    ensures t.header == h && l == Lists(t.chunks, t.deltas)
  {}

  lemma BodyParts(k: Codec, h: Header, n: nat, body: Bytes, v: seq<nat>, t: Feedback)
    requires Total(FIXED) == 16 <= n <= |body| && DecodeBody(k, h, n, body) == Ok(t) && v == Unpack(body, FIXED)
    ensures v[3] < 0x1_0000 && DecodeTail(k, v[3], n - 16, body[16..]).Ok?
    ensures t == FeedbackOf(h, v, DecodeTail(k, v[3], n - 16, body[16..]).value)
  {}

  lemma FixedFrom(body: Bytes, v: seq<nat>, t: Feedback)
    requires Total(FIXED) == 16 <= |body| && v == Unpack(body, FIXED)
    requires v == [t.senderSSRC, t.mediaSSRC, t.baseSequenceNumber, t.packetStatusCount, t.referenceTime, t.fbPktCount]
    ensures t.referenceTime < 0x100_0000 && body[..16] == Pack(FixedValues(t), FIXED)
  {
    Bounds();
    A.PackUnpack(body, FIXED);
    assert v[4] < Bound(FIXED[4]);
    SmallModulo(v[4]);
  }
}
