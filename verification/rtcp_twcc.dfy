/** Transport-wide congestion feedback: status chunks, receive deltas, and the packet that carries them. */
module RtcpTwcc {
  import opened Serial
  import opened Wrappers
  import opened Binary
  import opened RtcpPackets

  const SMALL_DELTA := 1
  const LARGE_DELTA := 2
  const TCC_FORMAT := 15

  datatype StatusChunk =
    | RunLength(symbol: nat, runLength: nat)
    | Vector(symbolSize: nat, symbols: seq<nat>)

  datatype Delta = Delta(typ: nat, delta: int)

  datatype Feedback = Feedback(header: Header, senderSSRC: u32, mediaSSRC: u32, baseSequenceNumber: u16,
                               packetStatusCount: u16, referenceTime: u32, fbPktCount: u8,
                               chunks: seq<StatusChunk>, deltas: seq<Delta>)

  // ---- Status chunks ----

  /** Number of values of a symbol: two bits wide, or one. */
  function Values(wide: bool): nat { if wide then 4 else 2 }
  function Up(v: nat, wide: bool): nat { if wide then 4 * v else 2 * v }
  function Down(v: nat, wide: bool): nat { if wide then v / 4 else v / 2 }
  function Low(v: nat, wide: bool): (x: nat)
    ensures x < Values(wide)
  {
    if wide then v % 4 else v % 2
  }

  lemma LastSymbol(v: nat, x: nat, wide: bool)
    requires x < Values(wide)
    ensures Down(Up(v, wide) + x, wide) == v && Low(Up(v, wide) + x, wide) == x && Low(x, wide) == x
  {}

  /** Symbols most significant first. */
  function PackSymbols(s: seq<nat>, wide: bool): nat {
    if s == [] then 0 else Up(PackSymbols(s[..|s| - 1], wide), wide) + Low(s[|s| - 1], wide)
  }

  function UnpackSymbols(v: nat, n: nat, wide: bool): (s: seq<nat>)
    ensures |s| == n && forall i :: 0 <= i < n ==> s[i] < Values(wide)
    decreases n, v
  {
    if n == 0 then [] else UnpackSymbols(Down(v, wide), n - 1, wide) + [Low(v, wide)]
  }

  predicate SymbolsWF(s: seq<nat>, wide: bool) { forall i :: 0 <= i < |s| ==> s[i] < Values(wide) }

  lemma {:induction false} SymbolsRoundTrip(s: seq<nat>, wide: bool)
    requires SymbolsWF(s, wide)
    ensures UnpackSymbols(PackSymbols(s, wide), |s|, wide) == s
    decreases |s|
  {
    if s != [] {
      var init, x := s[..|s| - 1], s[|s| - 1];
      SymbolsRoundTrip(init, wide);
      LastSymbol(PackSymbols(init, wide), x, wide);
      assert s == init + [x];
    }
  }

  /** `n` symbols take 2n or n bits. */
  function Bits(n: nat, wide: bool): nat { if wide then 2 * n else n }

  lemma {:induction false} PackBound(s: seq<nat>, wide: bool)
    ensures PackSymbols(s, wide) < Shift(1, Bits(|s|, wide))
    decreases |s|
  {
    if s != [] {
      var init := s[..|s| - 1];
      PackBound(init, wide);
      if wide {
        assert Shift(1, Bits(|s|, wide)) == 2 * Shift(1, Bits(|s|, wide) - 1) == 4 * Shift(1, Bits(|init|, wide));
      }
    }
  }

  /** The 16-bit word of a chunk; None if the symbols do not fit its 14 bits. */
  function ChunkWord(c: StatusChunk): Option<nat> {
    match c
    case RunLength(symbol, runLength) => Some(8192 * (symbol % 4) + runLength % 8192)
    case Vector(size, symbols) =>
      if size > 1 then Some(32768 + 16384 * (size % 2))
      else if Bits(|symbols|, size == 1) > 14 then None
      else Some(32768 + 16384 * size + Shift(PackSymbols(symbols, size == 1), 14 - Bits(|symbols|, size == 1)))
  }

  function ChunkOfWord(v: nat): StatusChunk {
    if v < 32768 then RunLength(v / 8192, v % 8192)
    else
      var size := v / 16384 % 2;
      Vector(size, UnpackSymbols(v % 16384, if size == 1 then 7 else 14, size == 1))
  }

  /** Run lengths and symbols in range; vectors full. */
  predicate ChunkWF(c: StatusChunk) {
    match c
    case RunLength(symbol, runLength) => symbol < 4 && runLength < 8192
    case Vector(size, symbols) => size <= 1 && Bits(|symbols|, size == 1) == 14 && SymbolsWF(symbols, size == 1)
  }

  lemma VectorFields(size: nat, v: nat)
    requires size <= 1 && v < 16384
    ensures var w := 32768 + 16384 * size + v; w >= 32768 && w / 16384 % 2 == size && w % 16384 == v
  {}

  lemma RunFields(symbol: nat, n: nat)
    requires symbol < 4 && n < 8192
    ensures symbol % 4 == symbol && n % 8192 == n
    ensures var w := 8192 * symbol + n; w < 32768 && w / 8192 == symbol && w % 8192 == n
  {}

  lemma ChunkRoundTrips(c: StatusChunk)
    requires ChunkWF(c)
    ensures ChunkWord(c).Some? && ChunkWord(c).value < 0x1_0000 && ChunkOfWord(ChunkWord(c).value) == c
  {
    match c
    case RunLength(symbol, n) => RunFields(symbol, n);
    case Vector(size, symbols) =>
      PackBound(symbols, size == 1);
      Shifts();
      VectorFields(size, PackSymbols(symbols, size == 1));
      SymbolsRoundTrip(symbols, size == 1);
  }

  predicate ChunksOk(cs: seq<StatusChunk>) { forall i :: 0 <= i < |cs| ==> ChunkWord(cs[i]).Some? }

  /** How chunks become 16-bit words and back. */
  datatype Codec = Codec(enc: StatusChunk -> nat, dec: nat -> StatusChunk)

  ghost predicate Exact(k: Codec) {
    forall c :: ChunkWF(c) ==> k.enc(c) < 0x1_0000 && k.dec(k.enc(c)) == c
  }

  /** The words of the wire format. */
  function Words(): Codec {
    Codec(WordOf, ChunkOfWord)
  }

  function WordOf(c: StatusChunk): nat { if ChunkWord(c).Some? then ChunkWord(c).value else 0 }

  lemma WordsExact()
    ensures Exact(Words())
  {
    forall c | ChunkWF(c) ensures Words().enc(c) < 0x1_0000 && Words().dec(Words().enc(c)) == c { ChunkRoundTrips(c); }
  }

  function EncodeStatus(k: Codec, cs: seq<StatusChunk>): (b: Bytes)
    ensures |b| == 2 * |cs|
  {
    if cs == [] then [] else Be(k.enc(cs[0]), 2) + EncodeStatus(k, cs[1..])
  }

  // ---- Receive deltas ----

  /** Integer division truncating toward zero. */
  function Quotient(x: int, d: nat): int
    requires d > 0
  {
    if x >= 0 then x / d else -(-x / d)
  }

  /** One byte for a small delta, two for a large one, in units of 250 microseconds; None out of range. */
  function EncodeDelta(d: Delta): Option<Bytes> {
    var q := Quotient(d.delta, 250);
    if d.typ == SMALL_DELTA && 0 <= q <= 255 then Some([q])
    else if d.typ == LARGE_DELTA && -0x8000 <= q <= 0x7FFF then Some(Be(if q < 0 then q + 0x1_0000 else q, 2))
    else None
  }

  function EncodeDeltas(ds: seq<Delta>): Bytes {
    if ds == [] then []
    else (if EncodeDelta(ds[0]).Some? then EncodeDelta(ds[0]).value else []) + EncodeDeltas(ds[1..])
  }

  function DeltasLen(ds: seq<Delta>): nat {
    if ds == [] then 0 else (if ds[0].typ == SMALL_DELTA then 1 else 2) + DeltasLen(ds[1..])
  }

  function UnsignedDelta(v: int): int { 250 * v }
  function SignedDelta(v: int): int { 250 * if v < 0x8000 then v else v - 0x1_0000 }

  /** One delta per entry of `types`, which are all small or large; `left` bytes of the packet remain. */
  function DecodeDeltas(b: Bytes, left: int, types: seq<nat>): Result<seq<Delta>, Error>
    decreases |types|
  {
    if types == [] then Ok([])
    else if left <= 0 then Err(TooShort)
    else
      var n := if types[0] == SMALL_DELTA then 1 else 2;
      if |b| < n then Err(Unindexable)
      else
        var d := Delta(types[0], if n == 1 then UnsignedDelta(b[0]) else SignedDelta(BeValue(b[..2])));
        var more := DecodeDeltas(b[n..], left - n, types[1..]);
        if more.Err? then more else Ok([d] + more.value)
  }

  predicate DeltaWF(d: Delta) {
    && d.delta % 250 == 0
    && ((d.typ == SMALL_DELTA && 0 <= d.delta <= 63750) || (d.typ == LARGE_DELTA && -8192000 <= d.delta <= 8191750))
  }

  predicate DeltasWF(ds: seq<Delta>) { forall i :: 0 <= i < |ds| ==> DeltaWF(ds[i]) }

  function TypesOf(ds: seq<Delta>): (ts: seq<nat>)
    ensures |ts| == |ds|
  {
    if ds == [] then [] else [ds[0].typ] + TypesOf(ds[1..])
  }

  lemma DeltaRoundTrip(d: Delta)
    requires DeltaWF(d)
    ensures EncodeDelta(d).Some?
    ensures var b := EncodeDelta(d).value;
            if d.typ == SMALL_DELTA then |b| == 1 && UnsignedDelta(b[0]) == d.delta
            else |b| == 2 && SignedDelta(BeValue(b)) == d.delta
  {
    var q := Quotient(d.delta, 250);
    ExactQuotient(d.delta);
    Bounds();
    if d.typ == LARGE_DELTA { BeRoundTrip(if q < 0 then q + 0x1_0000 else q, 2); }
  }

  lemma ExactQuotient(x: int)
    requires x % 250 == 0
    ensures 250 * Quotient(x, 250) == x
  {}

  lemma {:induction false} DeltasRoundTrip(ds: seq<Delta>, rest: Bytes, left: int)
    requires DeltasWF(ds) && left >= DeltasLen(ds)
    ensures |EncodeDeltas(ds)| == DeltasLen(ds)
    ensures DecodeDeltas(EncodeDeltas(ds) + rest, left, TypesOf(ds)) == Ok(ds)
    decreases |ds|
  {
    if ds != [] {
      DeltaRoundTrip(ds[0]);
      var head, tail := EncodeDelta(ds[0]).value, EncodeDeltas(ds[1..]) + rest;
      JoinsLeft(head, EncodeDeltas(ds[1..]), rest);
      SplitAt(head, tail);
      assert TypesOf(ds)[1..] == TypesOf(ds[1..]);
      DeltasRoundTrip(ds[1..], rest, left - |head|);
      assert ds == [ds[0]] + ds[1..];
    }
  }

  // ---- Which deltas the chunks announce ----

  predicate Announces(symbol: nat) { symbol == SMALL_DELTA || symbol == LARGE_DELTA }

  function Repeat(x: nat, n: nat): (r: seq<nat>)
    ensures |r| == n
    decreases n, x
  {
    if n == 0 then [] else [x] + Repeat(x, n - 1)
  }

  function Announced(symbols: seq<nat>): seq<nat> {
    if symbols == [] then []
    else (if Announces(symbols[0]) then [symbols[0]] else []) + Announced(symbols[1..])
  }

  /** Packets a chunk accounts for when `remaining` are still unaccounted. */
  function Accounts(c: StatusChunk, remaining: nat): nat {
    match c
    case RunLength(_, n) => if n < remaining then n else remaining
    case Vector(_, symbols) => |symbols|
  }

  /** The deltas announced; only symbols 1 of a one-bit vector announce one, and a run only up to the count. */
  function Types(c: StatusChunk, remaining: nat): seq<nat> {
    match c
    case RunLength(symbol, _) => if Announces(symbol) then Repeat(symbol, Accounts(c, remaining)) else []
    case Vector(_, symbols) => Announced(symbols)
  }

  datatype Status = Status(chunks: seq<StatusChunk>, types: seq<nat>, used: nat)

  /** The chunk loop, on the packet from the current chunk to its end. The count of processed packets is
      16 bits wide; at least one byte must follow every chunk. */
  function DecodeStatus(k: Codec, b: Bytes, count: u16, processed: u16): Result<Status, Error>
    decreases |b|
  {
    if processed >= count then Ok(Status([], [], 0))
    else if |b| <= 2 then Err(TooShort)
    else
      var c := k.dec(BeValue(b[..2]));
      var n := Accounts(c, count - processed);
      var more := DecodeStatus(k, b[2..], count, (processed + n) % 0x1_0000);
      if more.Err? then more
      else Ok(Status([c] + more.value.chunks, Types(c, count - processed) + more.value.types, 2 + more.value.used))
  }

  /** Every chunk is needed, none is missing, and the 16-bit count does not overflow on the way. */
  predicate Needed(cs: seq<StatusChunk>, count: u16, processed: nat) {
    if cs == [] then processed >= count
    else processed < count && Needed(cs[1..], count, processed + Accounts(cs[0], count - processed))
  }

  function AllTypes(cs: seq<StatusChunk>, count: u16, processed: nat): seq<nat> {
    if cs == [] || processed >= count then []
    else Types(cs[0], count - processed) + AllTypes(cs[1..], count, processed + Accounts(cs[0], count - processed))
  }

  predicate ChunksWF(cs: seq<StatusChunk>) { forall i :: 0 <= i < |cs| ==> ChunkWF(cs[i]) }

  lemma ChunksEncodable(cs: seq<StatusChunk>)
    requires ChunksWF(cs)
    ensures ChunksOk(cs)
  {
    forall i | 0 <= i < |cs| ensures ChunkWord(cs[i]).Some? { ChunkRoundTrips(cs[i]); }
  }

  lemma AccountsAtMost14(c: StatusChunk, remaining: nat)
    requires ChunkWF(c)
    ensures Accounts(c, remaining) <= if remaining > 14 then remaining else 14
  {}

  lemma ChunkHead(k: Codec, c: StatusChunk, tail: Bytes)
    requires Exact(k) && ChunkWF(c)
    ensures var b := Be(k.enc(c), 2) + tail; |b| == 2 + |tail| && b[2..] == tail && k.dec(BeValue(b[..2])) == c
  {
    Bounds();
    BeRoundTrip(k.enc(c), 2);
    SplitAt(Be(k.enc(c), 2), tail);
  }

  lemma NoWrap(x: nat)
    requires x < 0x1_0000
    ensures x % 0x1_0000 == x
  {}

  lemma StatusStep(k: Codec, c: StatusChunk, b: Bytes, t: Bytes, count: u16, processed: u16, n: nat, more: Status,
                   full: Status)
    requires Exact(k) && ChunkWF(c) && t != [] && processed < count && n == Accounts(c, count - processed)
             && processed + n < 0x1_0000
    requires DecodeStatus(k, t, count, processed + n) == Ok(more) && b == Be(k.enc(c), 2) + t
    requires full == Status([c] + more.chunks, Types(c, count - processed) + more.types, 2 + more.used)
    ensures DecodeStatus(k, b, count, processed) == Ok(full)
  {
    ChunkHead(k, c, t);
    NoWrap(processed + n);
  }

  /** The chunks, and the deltas they announce, are read back from what follows the fixed fields. */
  lemma {:induction false} StatusRoundTrip(k: Codec, cs: seq<StatusChunk>, count: u16, processed: u16, rest: Bytes)
    requires Exact(k) && ChunksWF(cs) && Needed(cs, count, processed) && count <= 65522 && rest != []
    ensures DecodeStatus(k, EncodeStatus(k, cs) + rest, count, processed)
         == Ok(Status(cs, AllTypes(cs, count, processed), 2 * |cs|))
    decreases |cs|
  {
    if cs != [] {
      var c, n, tail := cs[0], Accounts(cs[0], count - processed), EncodeStatus(k, cs[1..]);
      AccountsAtMost14(c, count - processed);
      StatusRoundTrip(k, cs[1..], count, processed + n, rest);
      JoinsLeft(Be(k.enc(c), 2), tail, rest);
      assert cs == [c] + cs[1..];
      StatusStep(k, c, EncodeStatus(k, cs) + rest, tail + rest, count, processed, n,
                 Status(cs[1..], AllTypes(cs[1..], count, processed + n), 2 * |cs[1..]|),
                 Status(cs, AllTypes(cs, count, processed), 2 * |cs|));
    }
  }

  // ---- The packet ----

  const FIXED := [4, 4, 2, 2, 3, 1]

  lemma FixedTotal()
    ensures Total(FIXED) == 16
  {
    var s := FIXED;
    assert s[1..][1..] == s[2..] && s[2..][1..] == s[3..] && s[3..][1..] == s[4..] && s[4..][1..] == s[5..];
    assert Total(s[5..]) == 1 && Total(s[4..]) == 4 && Total(s[3..]) == 6 && Total(s[2..]) == 8;
  }

  function FixedValues(t: Feedback): seq<nat> {
    [t.senderSSRC, t.mediaSSRC, t.baseSequenceNumber, t.packetStatusCount, t.referenceTime % 0x100_0000, t.fbPktCount]
  }

  /** Length without and with padding to a whole word. */
  function PacketLen(t: Feedback): nat { 20 + 2 * |t.chunks| + DeltasLen(t.deltas) }
  function Len(t: Feedback): nat { PacketLen(t) + Padding(PacketLen(t)) }

  /** With the padding flag set, the last byte of the packet says how much padding there is. */
  function Stamped(b: Bytes, t: Feedback): Bytes {
    if t.header.padding && b != [] then b[..|b| - 1] + [Padding(PacketLen(t))] else b
  }

  /** Status chunks, deltas (those out of range left out) and zeros up to the length. */
  function Tail(k: Codec, t: Feedback): Bytes {
    var b := EncodeStatus(k, t.chunks) + EncodeDeltas(t.deltas);
    b + Zeros(if Len(t) - 20 > |b| then Len(t) - 20 - |b| else 0)
  }

  /** Packets of 64 KiB and more are not modelled. */
  function EncodeWith(k: Codec, t: Feedback): Option<Bytes> {
    if t.header.count > COUNT_MAX || !ChunksOk(t.chunks) || Len(t) >= 0x1_0000 then None
    else Some(EncodeHeader(t.header) + (Pack(FixedValues(t), FIXED) + Stamped(Tail(k, t), t)))
  }

  /** Header and body in bytes, in 16-bit arithmetic. */
  function TotalLength(h: Header): nat { 4 * (h.length + 1) % 0x1_0000 }

  function DecodeWith(k: Codec, b: Bytes): Result<Feedback, Error> {
    if |b| < 8 then Err(TooShort)
    else
      var h := DecodeHeader(b);
      if h.Err? then Err(h.error)
      else
        var total := TotalLength(h.value);
        if total < 20 || |b| < total then Err(TooShort)
        else if h.value.typ != RTPFB || h.value.count != TCC_FORMAT then Err(WrongType)
        else DecodeBody(k, h.value, total - 4, b[4..])
  }

  function Marshal(t: Feedback): Option<Bytes> { EncodeWith(Words(), t) }
  function Unmarshal(b: Bytes): Result<Feedback, Error> { DecodeWith(Words(), b) }

  datatype Lists = Lists(chunks: seq<StatusChunk>, deltas: seq<Delta>)

  /** The chunks and deltas in what follows the fixed fields, of which `n` bytes belong to the packet. */
  function DecodeTail(k: Codec, count: u16, n: nat, tail: Bytes): Result<Lists, Error>
    requires n <= |tail|
  {
    var status := DecodeStatus(k, tail[..n], count, 0);
    if status.Err? then Err(status.error)
    else
      var s := status.value;
      DecodeStatusUses(k, tail[..n], count, 0);
      var deltas := DecodeDeltas(tail[s.used..], n - s.used, s.types);
      if deltas.Err? then Err(deltas.error) else Ok(Lists(s.chunks, deltas.value))
  }

  lemma FixedBounds(v: seq<nat>)
    requires Fit(v, FIXED)
    ensures v[0] < 0x1_0000_0000 && v[1] < 0x1_0000_0000 && v[2] < 0x1_0000 && v[3] < 0x1_0000
    ensures v[4] < 0x100_0000 && v[5] < 0x100
  {
    Bounds();
    assert forall i :: 0 <= i < 6 ==> v[i] < Bound(FIXED[i]);
  }

  function FeedbackOf(h: Header, v: seq<nat>, l: Lists): Feedback
    requires Fit(v, FIXED)
  {
    FixedBounds(v);
    Feedback(h, v[0], v[1], v[2], v[3], v[4], v[5], l.chunks, l.deltas)
  }

  /** `n` bytes of the body belong to the packet. */
  function DecodeBody(k: Codec, h: Header, n: nat, body: Bytes): Result<Feedback, Error>
    requires 16 <= n <= |body|
  {
    FixedTotal();
    var v := Unpack(body, FIXED);
    FixedBounds(v);
    var lists := DecodeTail(k, v[3], n - 16, body[16..]);
    if lists.Err? then Err(lists.error) else Ok(FeedbackOf(h, v, lists.value))
  }

  lemma {:induction false} DecodeStatusUses(k: Codec, b: Bytes, count: u16, processed: u16)
    ensures var r := DecodeStatus(k, b, count, processed); r.Ok? ==> r.value.used <= |b|
    decreases |b|
  {
    if processed < count && |b| > 2 {
      var n := Accounts(k.dec(BeValue(b[..2])), count - processed);
      DecodeStatusUses(k, b[2..], count, (processed + n) % 0x1_0000);
    }
  }

  /** Chunks and deltas that belong together. */
  predicate ContentWF(t: Feedback) {
    && t.referenceTime < 0x100_0000 && t.packetStatusCount <= 65522
    && ChunksWF(t.chunks) && Needed(t.chunks, t.packetStatusCount, 0)
    && DeltasWF(t.deltas) && TypesOf(t.deltas) == AllTypes(t.chunks, t.packetStatusCount, 0)
  }

  /** The packets whose encoding and decoding line up: the header agrees with the content, and at least one
      byte follows the last chunk. */
  predicate Valid(t: Feedback) {
    && ContentWF(t)
    && t.header == Header(Padding(PacketLen(t)) != 0, TCC_FORMAT, RTPFB, t.header.length)
    && Len(t) == 4 * (t.header.length + 1) < 0x1_0000
    && Len(t) > 20 + 2 * |t.chunks|
  }

  /** A padded packet keeps its content: the byte that tells the padding is padding itself. */
  lemma StampKeepsContent(content: Bytes, t: Feedback)
    requires var n := Padding(PacketLen(t)); t.header.padding == (n != 0) && |content| == PacketLen(t) - 20
    ensures var n := Padding(PacketLen(t));
            exists z: Bytes :: |z| == n && Stamped(content + Zeros(n), t) == content + z
  {
    var n := Padding(PacketLen(t));
    var b := content + Zeros(n);
    if n != 0 {
      var z := b[|content|..|b| - 1] + [n];
      assert b[..|b| - 1] == content + b[|content|..|b| - 1];
      assert Stamped(b, t) == content + z;
    } else {
      assert Stamped(b, t) == content + Zeros(0);
    }
  }

  lemma TailRoundTrip(k: Codec, cs: seq<StatusChunk>, ds: seq<Delta>, count: u16, z: Bytes)
    requires Exact(k) && ChunksWF(cs) && Needed(cs, count, 0) && count <= 65522
    requires DeltasWF(ds) && TypesOf(ds) == AllTypes(cs, count, 0) && DeltasLen(ds) + |z| > 0
    ensures var tail := EncodeStatus(k, cs) + (EncodeDeltas(ds) + z);
            |tail| == 2 * |cs| + DeltasLen(ds) + |z| && DecodeTail(k, count, |tail|, tail) == Ok(Lists(cs, ds))
  {
    var status, deltas := EncodeStatus(k, cs), EncodeDeltas(ds) + z;
    var tail := status + deltas;
    DeltasRoundTrip(ds, z, DeltasLen(ds) + |z|);
    SplitAt(status, deltas);
    assert tail[..|tail|] == tail;
    StatusRoundTrip(k, cs, count, 0, deltas);
  }

  lemma FixedFits(t: Feedback)
    requires t.referenceTime < 0x100_0000
    ensures Fit(FixedValues(t), FIXED) && Total(FIXED) == 16 && FixedValues(t)[4] == t.referenceTime
  {
    FixedTotal();
    Bounds();
    SmallModulo(t.referenceTime);
  }

  /** The body without the header: fixed fields, chunks, deltas and `z` bytes of padding. */
  function BodyWith(k: Codec, t: Feedback, z: Bytes): Bytes {
    Pack(FixedValues(t), FIXED) + (EncodeStatus(k, t.chunks) + (EncodeDeltas(t.deltas) + z))
  }

  lemma BodyRoundTrip(k: Codec, t: Feedback, z: Bytes)
    requires Exact(k) && ContentWF(t) && DeltasLen(t.deltas) + |z| > 0
    ensures var body := BodyWith(k, t, z);
            && |body| == 16 + 2 * |t.chunks| + DeltasLen(t.deltas) + |z|
            && DecodeBody(k, t.header, |body|, body) == Ok(t)
  {
    var tail := EncodeStatus(k, t.chunks) + (EncodeDeltas(t.deltas) + z);
    TailRoundTrip(k, t.chunks, t.deltas, t.packetStatusCount, z);
    FixedRoundTrip(t, tail);
    BodyJoins(k, t, tail, Pack(FixedValues(t), FIXED) + tail);
  }

  lemma BodyJoins(k: Codec, t: Feedback, tail: Bytes, body: Bytes)
    requires |body| == 16 + |tail| && body[16..] == tail && Total(FIXED) == 16
    requires Unpack(body, FIXED) == [t.senderSSRC, t.mediaSSRC, t.baseSequenceNumber, t.packetStatusCount,
                                     t.referenceTime, t.fbPktCount]
    requires DecodeTail(k, t.packetStatusCount, |tail|, tail) == Ok(Lists(t.chunks, t.deltas))
    ensures DecodeBody(k, t.header, |body|, body) == Ok(t)
  {}

  lemma FixedRoundTrip(t: Feedback, tail: Bytes)
    requires t.referenceTime < 0x100_0000
    ensures var body := Pack(FixedValues(t), FIXED) + tail;
            && |body| == 16 + |tail| && body[16..] == tail && Total(FIXED) == 16
            && Unpack(body, FIXED) == [t.senderSSRC, t.mediaSSRC, t.baseSequenceNumber, t.packetStatusCount,
                                       t.referenceTime, t.fbPktCount]
  {
    FixedFits(t);
    UnpackPack(FixedValues(t), FIXED, tail);
    SplitAt(Pack(FixedValues(t), FIXED), tail);
  }

  /** What Encode produces, with the padding made explicit. */
  lemma EncodeIs(k: Codec, t: Feedback) returns (z: Bytes)
    requires Valid(t)
    ensures ChunksOk(t.chunks) && |z| == Padding(PacketLen(t))
    ensures EncodeWith(k, t) == Some(EncodeHeader(t.header) + BodyWith(k, t, z))
  {
    ChunksEncodable(t.chunks);
    DeltasRoundTrip(t.deltas, [], DeltasLen(t.deltas));
    var status, deltas := EncodeStatus(k, t.chunks), EncodeDeltas(t.deltas);
    var n := Padding(PacketLen(t));
    StampKeepsContent(status + deltas, t);
    z :| |z| == n && Stamped(status + deltas + Zeros(n), t) == status + deltas + z;
    JoinsLeft(status, deltas, z);
  }

  /** Feedback survives marshalling and unmarshalling. */
  lemma FeedbackRoundTrip(t: Feedback)
    requires Valid(t)
    ensures Marshal(t).Some? && |Marshal(t).value| == Len(t) && Unmarshal(Marshal(t).value) == Ok(t)
  {
    WordsExact();
    RoundTripWith(Words(), t);
  }

  lemma RoundTripWith(k: Codec, t: Feedback)
    requires Exact(k) && Valid(t)
    ensures EncodeWith(k, t).Some? && |EncodeWith(k, t).value| == Len(t)
            && DecodeWith(k, EncodeWith(k, t).value) == Ok(t)
  {
    var z := EncodeIs(k, t);
    BodyRoundTrip(k, t, z);
    DecodeHeaded(k, t.header, BodyWith(k, t, z));
  }

  lemma DecodeHeaded(k: Codec, h: Header, body: Bytes)
    requires h.typ == RTPFB && h.count == TCC_FORMAT && |body| >= 16 && 4 * (h.length + 1) == 4 + |body| < 0x1_0000
    ensures DecodeWith(k, EncodeHeader(h) + body) == DecodeBody(k, h, |body|, body)
  {
    Headed(h, body);
    assert TotalLength(h) == 4 + |body| by { NoWrap(4 + |body|); }
  }

  // ---- The chunk loop as the code runs it ----

  function JoinStatus(cs: seq<StatusChunk>, ts: seq<nat>, used: nat, more: Result<Status, Error>)
    : Result<Status, Error>
  {
    if more.Err? then more
    else Ok(Status(cs + more.value.chunks, ts + more.value.types, used + more.value.used))
  }

  lemma JoinStatusStep(cs: seq<StatusChunk>, ts: seq<nat>, used: nat, c: StatusChunk, t: seq<nat>,
                       more: Result<Status, Error>)
    ensures JoinStatus(cs, ts, used, JoinStatus([c], t, 2, more)) == JoinStatus(cs + [c], ts + t, used + 2, more)
  {
    if more.Ok? {
      assert cs + ([c] + more.value.chunks) == cs + [c] + more.value.chunks;
      assert ts + (t + more.value.types) == ts + t + more.value.types;
    }
  }

  /** Terminates on every input: each round moves two bytes on, also for a run of length zero. */
  lemma StatusNext(k: Codec, b: Bytes, count: u16, processed: u16, c: StatusChunk, next: u16,
                   cs: seq<StatusChunk>, ts: seq<nat>, used: nat)
    requires processed < count && |b| > 2 && c == k.dec(BeValue(b[..2]))
    requires next == (processed + Accounts(c, count - processed)) % 0x1_0000
    ensures JoinStatus(cs, ts, used, DecodeStatus(k, b, count, processed))
         == JoinStatus(cs + [c], ts + Types(c, count - processed), used + 2, DecodeStatus(k, b[2..], count, next))
  {
    var t, more := Types(c, count - processed), DecodeStatus(k, b[2..], count, next);
    assert DecodeStatus(k, b, count, processed) == JoinStatus([c], t, 2, more);
    JoinStatusStep(cs, ts, used, c, t, more);
  }

  lemma JoinNothing(r: Result<Status, Error>)
    ensures JoinStatus([], [], 0, r) == r
  {
    if r.Ok? { assert [] + r.value.chunks == r.value.chunks && [] + r.value.types == r.value.types; }
  }

  lemma StatusEnds(k: Codec, b: Bytes, count: u16, processed: u16, cs: seq<StatusChunk>, ts: seq<nat>, used: nat)
    ensures processed >= count ==>
              JoinStatus(cs, ts, used, DecodeStatus(k, b, count, processed)) == Ok(Status(cs, ts, used))
    ensures processed < count && |b| <= 2 ==>
              JoinStatus(cs, ts, used, DecodeStatus(k, b, count, processed)) == Err(TooShort)
  {
    assert cs + [] == cs && ts + [] == ts;
  }

  method UnmarshalStatus(k: Codec, b: Bytes, count: u16) returns (r: Result<Status, Error>)
    ensures r == DecodeStatus(k, b, count, 0)
  {
    var chunks: seq<StatusChunk>, types: seq<nat> := [], [];
    var pos, processed: u16, rest := 0, 0, b;
    ghost var goal := DecodeStatus(k, b, count, 0);
    JoinNothing(goal);
    while processed < count
      invariant pos >= 0 && JoinStatus(chunks, types, pos, DecodeStatus(k, rest, count, processed)) == goal
      decreases |rest|
    {
      StatusEnds(k, rest, count, processed, chunks, types, pos);
      if |rest| <= 2 { return Err(TooShort); }
      var c := k.dec(BeValue(rest[..2]));
      var t := Types(c, count - processed);
      var next := (processed + Accounts(c, count - processed)) % 0x1_0000;
      StatusNext(k, rest, count, processed, c, next, chunks, types, pos);
      chunks, types := chunks + [c], types + t;
      processed := next;
      pos, rest := pos + 2, rest[2..];
    }
    StatusEnds(k, rest, count, processed, chunks, types, pos);
    r := Ok(Status(chunks, types, pos));
  }
}
