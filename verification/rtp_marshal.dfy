/** MarshalTo writes its buffer in place and Unmarshal walks it; both compute what RtpPacket says. */
module RtpMarshal {
  import opened Serial
  import opened Wrappers
  import opened Binary
  import opened RtpPacket

  // ---- Writing ----

  method Put(buf: array<u8>, at: nat, w: Bytes)
    requires at + |w| <= buf.Length
    modifies buf
    ensures buf[..at] == old(buf[..at]) && buf[at + |w|..] == old(buf[at + |w|..]) && buf[at..at + |w|] == w
  {
    forall i | 0 <= i < |w| { buf[at + i] := w[i]; }
  }

  /** What is before `n` grows by `w`; what follows stays. */
  method Append(buf: array<u8>, n: nat, w: Bytes) returns (m: nat)
    requires n + |w| <= buf.Length
    modifies buf
    ensures m == n + |w| && buf[..m] == old(buf[..n]) + w && buf[m..] == old(buf[m..])
  {
    m := n + |w|;
    Put(buf, n, w);
    assert buf[..m] == buf[..n] + buf[n..m];
  }

  method ListSizeOf(es: seq<Extension>, overhead: nat) returns (n: nat)
    ensures n == ListSize(es, overhead)
  {
    n := 0;
    for i := 0 to |es|
      invariant n + ListSize(es[i..], overhead) == ListSize(es, overhead)
    {
      n := n + overhead + |es[i].payload|;
    }
  }

  method HeaderSize(h: Header) returns (size: nat)
    requires Encodable(h)
    ensures size == MarshalSize(h)
  {
    size := 12 + |h.csrc| * 4;
    if h.extension {
      var extSize;
      if h.extensionProfile == ONE_BYTE {
        extSize := ListSizeOf(h.extensions, 1);
      } else if h.extensionProfile == TWO_BYTE {
        extSize := ListSizeOf(h.extensions, 2);
      } else {
        extSize := |h.extensions[0].payload|;
      }
      size := size + (4 + extSize + 3) / 4 * 4;
    }
  }

  /** Flag bits are set in bytes already written. */
  method PutFlags(h: Header, buf: array<u8>)
    requires buf.Length >= 12
    modifies buf
    ensures buf[..2] == Fixed(h)[..2] && buf[2..] == old(buf[2..])
  {
    buf[0] := Or(h.version % 4 * 64, |h.csrc| % 256);
    if h.padding { buf[0] := Or(buf[0], 32); }
    if h.extension { buf[0] := Or(buf[0], 16); }
    buf[1] := h.payloadType;
    if h.marker { buf[1] := Or(buf[1], 128); }
  }

  lemma FixedParts(h: Header)
    ensures Fixed(h) == Fixed(h)[..2] + Be(h.sequenceNumber, 2) + Be(h.timestamp, 4) + Be(h.ssrc, 4)
  {}

  method PutFixed(h: Header, buf: array<u8>) returns (n: nat)
    requires buf.Length >= 12
    modifies buf
    ensures n == 12 && buf[..12] == Fixed(h) && buf[12..] == old(buf[12..])
  {
    PutFlags(h, buf);
    ghost var s := buf[2..];
    n := Append(buf, 2, Be(h.sequenceNumber, 2));
    assert buf[4..] == s[2..];
    n := Append(buf, n, Be(h.timestamp, 4));
    assert buf[8..] == s[2..][4..];
    n := Append(buf, n, Be(h.ssrc, 4));
    assert buf[12..] == s[2..][4..][4..] == s[10..];
    FixedParts(h);
    assert old(buf[12..]) == old(buf[2..])[10..];
  }

  method PutCsrc(csrc: seq<u32>, buf: array<u8>, n0: nat) returns (n: nat)
    requires n0 + 4 * |csrc| <= buf.Length
    modifies buf
    ensures n == n0 + 4 * |csrc| && buf[..n] == old(buf[..n0]) + EncodeWords(csrc) && buf[n..] == old(buf[n..])
  {
    n := n0;
    ghost var goal := buf[..n0] + EncodeWords(csrc);
    var rest := csrc;
    while rest != []
      invariant n + 4 * |rest| == n0 + 4 * |csrc|
      invariant buf[..n] + EncodeWords(rest) == goal && buf[n..] == old(buf[n..])
      decreases |rest|
    {
      JoinsLeft(buf[..n], Be(rest[0], 4), EncodeWords(rest[1..]));
      ghost var s := buf[n..];
      n := Append(buf, n, Be(rest[0], 4));
      assert buf[n..] == s[4..] == old(buf[n..]);
      rest := rest[1..];
    }
    assert buf[..n] + [] == buf[..n];
  }

  method PutOneByte(es: seq<Extension>, buf: array<u8>, n0: nat) returns (n: nat)
    requires n0 + ListSize(es, 1) <= buf.Length
    modifies buf
    ensures n == n0 + ListSize(es, 1) && buf[..n] == old(buf[..n0]) + EncodeList(OneByteForm(), es)
            && buf[n..] == old(buf[n..])
  {
    n := n0;
    ghost var goal := buf[..n0] + EncodeList(OneByteForm(), es);
    var rest := es;
    while rest != []
      invariant n + ListSize(rest, 1) == n0 + ListSize(es, 1)
      invariant buf[..n] + EncodeList(OneByteForm(), rest) == goal && buf[n..] == old(buf[n..])
      decreases |rest|
    {
      var e := rest[0];
      ghost var tail := EncodeList(OneByteForm(), rest[1..]);
      JoinsLeft(buf[..n], EncodeOneByte(e), tail);
      JoinsLeft(buf[..n], [Or(e.id % 16 * 16, (|e.payload| + 255) % 256)], e.payload);
      ghost var s := buf[n..];
      n := Append(buf, n, [Or(e.id % 16 * 16, (|e.payload| + 255) % 256)]);
      n := Append(buf, n, e.payload);
      assert buf[n..] == s[1 + |e.payload|..] == old(buf[n..]);
      rest := rest[1..];
    }
    assert buf[..n] + [] == buf[..n];
  }

  method PutTwoByte(es: seq<Extension>, buf: array<u8>, n0: nat) returns (n: nat)
    requires n0 + ListSize(es, 2) <= buf.Length
    modifies buf
    ensures n == n0 + ListSize(es, 2) && buf[..n] == old(buf[..n0]) + EncodeList(TwoByteForm(), es)
            && buf[n..] == old(buf[n..])
  {
    n := n0;
    ghost var goal := buf[..n0] + EncodeList(TwoByteForm(), es);
    var rest := es;
    while rest != []
      invariant n + ListSize(rest, 2) == n0 + ListSize(es, 2)
      invariant buf[..n] + EncodeList(TwoByteForm(), rest) == goal && buf[n..] == old(buf[n..])
      decreases |rest|
    {
      var e := rest[0];
      ghost var tail := EncodeList(TwoByteForm(), rest[1..]);
      JoinsLeft(buf[..n], EncodeTwoByte(e), tail);
      JoinsLeft(buf[..n], [e.id, |e.payload| % 256], e.payload);
      ghost var s := buf[n..];
      n := Append(buf, n, [e.id, |e.payload| % 256]);
      n := Append(buf, n, e.payload);
      assert buf[n..] == s[2 + |e.payload|..] == old(buf[n..]);
      rest := rest[1..];
    }
    assert buf[..n] + [] == buf[..n];
  }

  method PutExtensions(h: Header, buf: array<u8>, n0: nat) returns (n: nat)
    requires Encodable(h) && h.extension && n0 + ExtensionSize(h) <= buf.Length
    modifies buf
    ensures n == n0 + ExtensionSize(h) && buf[..n] == old(buf[..n0]) + ExtensionBytes(h) && buf[n..] == old(buf[n..])
  {
    if h.extensionProfile == ONE_BYTE {
      n := PutOneByte(h.extensions, buf, n0);
    } else if h.extensionProfile == TWO_BYTE {
      n := PutTwoByte(h.extensions, buf, n0);
    } else {
      n := Append(buf, n0, h.extensions[0].payload);
    }
  }

  /** Null octets up to the word boundary. */
  method PutZeros(count: nat, buf: array<u8>, n0: nat) returns (n: nat)
    requires n0 + count <= buf.Length
    modifies buf
    ensures n == n0 + count && buf[..n] == old(buf[..n0]) + Zeros(count) && buf[n..] == old(buf[n..])
  {
    n := n0;
    ghost var goal := buf[..n0] + Zeros(count);
    for i := 0 to count
      invariant n == n0 + i && buf[..n] + Zeros(count - i) == goal && buf[n..] == old(buf[n..])
    {
      JoinsLeft(buf[..n], [0], Zeros(count - i - 1));
      n := Append(buf, n, [0]);
    }
    assert buf[..n] + [] == buf[..n];
  }

  /** The length field's two bytes, left open until the size was known, are filled in. */
  method PatchLength(buf: array<u8>, at: nat, words: nat, ghost head: Bytes, ghost gap: Bytes, ghost x: Bytes)
    requires |gap| == 2 && |head| == at && at + 2 + |x| <= buf.Length && buf[..at + 2 + |x|] == head + (gap + x)
    modifies buf
    ensures buf[..at + 2 + |x|] == head + (Be(words, 2) + x) && buf[at + 2 + |x|..] == old(buf[at + 2 + |x|..])
  {
    ghost var s := buf[..];
    Put(buf, at, Be(words, 2));
    Patched(s, buf[..], head, gap, Be(words, 2), x);
  }

  lemma Patched(s: Bytes, t: Bytes, head: Bytes, gap: Bytes, w: Bytes, x: Bytes)
    requires |gap| == |w| == 2 && |head| + 2 + |x| <= |s| == |t| && s[..|head| + 2 + |x|] == head + (gap + x)
    requires t[..|head|] == s[..|head|] && t[|head|..|head| + 2] == w && t[|head| + 2..] == s[|head| + 2..]
    ensures var m := |head| + 2 + |x|; t[..m] == head + (w + x) && t[m..] == s[m..]
  {
    var n, m := |head|, |head| + 2 + |x|;
    assert t[m..] == t[n + 2..][|x|..] && s[m..] == s[n + 2..][|x|..];
    assert t[..m] == t[..n] + (t[n..n + 2] + t[n + 2..][..|x|]);
    assert s[..n] == s[..m][..n] == head && s[n + 2..][..|x|] == s[..m][n + 2..] == x;
  }

  /** Profile, room for the length, the extensions, and then the length in words. */
  method PutUnpadded(h: Header, buf: array<u8>, n0: nat) returns (n: nat)
    requires Encodable(h) && h.extension && n0 + 4 + ExtensionSize(h) <= buf.Length
    modifies buf
    ensures n == n0 + 4 + ExtensionSize(h) && buf[n..] == old(buf[n..])
    ensures buf[..n] == old(buf[..n0]) + Be(h.extensionProfile, 2)
                        + (Be(Rounded(ExtensionSize(h)) / 4, 2) + ExtensionBytes(h))
  {
    ghost var head, x := buf[..n0] + Be(h.extensionProfile, 2), ExtensionBytes(h);
    ExtensionSizeIs(h);
    var at := Append(buf, n0, Be(h.extensionProfile, 2));
    ghost var s, gap := buf[at..], buf[at..at + 2];
    assert buf[..at + 2] == head + gap;
    n := PutExtensions(h, buf, at + 2);
    JoinsLeft(head, gap, x);
    PatchLength(buf, at, (n - at - 2 + 3) / 4 * 4 / 4, head, gap, x);
    assert buf[n..] == s[n - at..] == old(buf[n..]);
  }

  method PutBlock(h: Header, buf: array<u8>, n0: nat) returns (n: nat)
    requires Encodable(h) && h.extension && n0 + 4 + Rounded(ExtensionSize(h)) <= buf.Length
    modifies buf
    ensures n == n0 + 4 + Rounded(ExtensionSize(h))
    ensures buf[..n] == old(buf[..n0]) + ExtensionBlock(h) && buf[n..] == old(buf[n..])
  {
    ghost var head, x := buf[..n0], ExtensionBytes(h);
    ExtensionSizeIs(h);
    RoundedIs(|x|);
    n := PutUnpadded(h, buf, n0);
    var extSize := n - (n0 + 4);
    var rounded := (extSize + 3) / 4 * 4;
    ghost var s := buf[n..];
    n := PutZeros(rounded - extSize, buf, n);
    BlockJoins(head, Be(h.extensionProfile, 2), Be(rounded / 4, 2), x, Zeros(rounded - extSize));
    assert buf[n..] == s[rounded - extSize..] == old(buf[n..]);
  }

  lemma BlockJoins(a: Bytes, b: Bytes, c: Bytes, d: Bytes, e: Bytes)
    ensures a + b + (c + d) + e == a + (b + (c + (d + e)))
  {}

  predicate WholeWordsOnly(h: Header) {
    h.extension && h.extensionProfile != ONE_BYTE && h.extensionProfile != TWO_BYTE
  }

  lemma SizeWithBlock(h: Header)
    requires Encodable(h)
    ensures MarshalSize(h) == 12 + 4 * |h.csrc| + if h.extension then 4 + Rounded(ExtensionSize(h)) else 0
  {
    if h.extension { RoundedIs(ExtensionSize(h)); }
  }

  /** Contributing sources and, if any, the extension block. */
  method PutTail(h: Header, buf: array<u8>, n0: nat, ghost size: nat) returns (r: Option<nat>)
    requires Encodable(h)
             && size == n0 + 4 * |h.csrc| + (if h.extension then 4 + Rounded(ExtensionSize(h)) else 0) <= buf.Length
    modifies buf
    ensures buf[size..] == old(buf[size..])
    ensures r.None? <==> WholeWordsOnly(h) && |h.extensions[0].payload| % 4 != 0
    ensures r.Some? ==>
              && r.value == size
              && buf[..size] == old(buf[..n0]) + (EncodeWords(h.csrc) + if h.extension then ExtensionBlock(h) else [])
  {
    ghost var head, words := buf[..n0], EncodeWords(h.csrc);
    var n := PutCsrc(h.csrc, buf, n0);
    ghost var s, m := buf[n..], n;
    assert s[size - m..] == old(buf[size..]) == buf[size..];
    if h.extension {
      if WholeWordsOnly(h) && |h.extensions[0].payload| % 4 != 0 { return None; }
      n := PutBlock(h, buf, n);
      JoinsLeft(head, words, ExtensionBlock(h));
    } else {
      assert words + [] == words;
    }
    return Some(n);
  }

  /** None stands for the short-buffer error; the size check comes before any byte is written. */
  method MarshalHeaderTo(h: Header, buf: array<u8>) returns (n: Option<nat>)
    requires Encodable(h)
    modifies buf
    ensures n.Some? <==> MarshalSize(h) <= buf.Length && EncodeHeader(h).Some?
    ensures n.Some? ==> n.value == MarshalSize(h) && buf[..n.value] == EncodeHeader(h).value
    ensures if MarshalSize(h) > buf.Length then buf[..] == old(buf[..])
            else buf[MarshalSize(h)..] == old(buf[MarshalSize(h)..])
  {
    var size := HeaderSize(h);
    if size > buf.Length { return None; }
    var m := PutFixed(h, buf);
    ghost var s := buf[12..];
    assert s[size - 12..] == old(buf[size..]) == buf[size..];
    SizeWithBlock(h);
    n := PutTail(h, buf, m, size);
  }

  /** The padding's last byte is its size; the bytes before it keep what the buffer held. */
  method PutPadding(p: Packet, buf: array<u8>, n: nat)
    requires n + p.paddingSize <= buf.Length
    modifies buf
    ensures buf[n + p.paddingSize..] == old(buf[n + p.paddingSize..])
    ensures buf[..n + p.paddingSize]
         == old(buf[..n] + PaddingOf(p, FillerIn(buf[..], n, p)))
  {
    if p.paddingSize != 0 {
      var end := n + p.paddingSize;
      ghost var s := buf[..];
      buf[end - 1] := p.paddingSize;
      assert buf[..] == s[end - 1 := p.paddingSize];
      assert buf[..end] == s[..n] + (s[n..end - 1] + [p.paddingSize]);
    }
  }

  function FillerIn(b: Bytes, n: nat, p: Packet): Bytes
    requires n + p.paddingSize <= |b|
  {
    if p.paddingSize == 0 then [] else b[n..n + p.paddingSize - 1]
  }

  lemma SliceOf(b: Bytes, k: nat, i: nat, j: nat)
    requires k <= i <= j <= |b|
    ensures b[i..j] == b[k..][i - k..j - k]
  {}

  lemma SameFiller(b: Bytes, b': Bytes, k: nat, n: nat, p: Packet)
    requires k <= n && n + p.paddingSize <= |b| == |b'| && b[k..] == b'[k..]
    ensures FillerIn(b, n, p) == FillerIn(b', n, p) && b[n + p.paddingSize..] == b'[n + p.paddingSize..]
  {
    if p.paddingSize != 0 {
      SliceOf(b, k, n, n + p.paddingSize - 1);
      SliceOf(b', k, n, n + p.paddingSize - 1);
    }
    assert b[n + p.paddingSize..] == b[k..][n - k + p.paddingSize..];
    assert b'[n + p.paddingSize..] == b'[k..][n - k + p.paddingSize..];
  }

  /** Payload and padding, in a buffer that held `was` before its first `n0` bytes were written. */
  method PutBody(p: Packet, buf: array<u8>, n0: nat, ghost was: Bytes) returns (r: nat)
    requires n0 + |p.payload| + p.paddingSize <= buf.Length == |was| && buf[n0..] == was[n0..]
    modifies buf
    ensures r == n0 + |p.payload| + p.paddingSize && buf[r..] == was[r..]
    ensures buf[..r] == old(buf[..n0]) + p.payload + PaddingOf(p, FillerIn(was, n0 + |p.payload|, p))
  {
    ghost var s := buf[..];
    SameFiller(was, s, n0, n0 + |p.payload|, p);
    var n := Append(buf, n0, p.payload);
    SameFiller(s, buf[..], n, n, p);
    PutPadding(p, buf, n);
    r := n + p.paddingSize;
  }

  lemma PacketWritten(p: Packet, head: Bytes, filler: Bytes, out: Bytes)
    requires Encodable(p.header) && EncodeHeader(p.header.(padding := p.paddingSize != 0)) == Some(head)
    requires out == head + p.payload + PaddingOf(p, filler)
    ensures EncodePacket(p, filler) == Some(out)
  {
    JoinsLeft(head, p.payload, PaddingOf(p, filler));
  }

  method MarshalPacketTo(p: Packet, buf: array<u8>) returns (r: Option<nat>)
    requires Encodable(p.header)
    modifies buf
    ensures r.Some? <==>
              MarshalSize(p.header) + |p.payload| + p.paddingSize <= buf.Length && EncodeHeader(p.header).Some?
    ensures r.Some? ==>
              var n := MarshalSize(p.header) + |p.payload|;
              && r.value == n + p.paddingSize && buf[r.value..] == old(buf[r.value..])
              && EncodePacket(p, FillerIn(old(buf[..]), n, p)) == Some(buf[..r.value])
  {
    var h := p.header.(padding := p.paddingSize != 0);
    PaddingBitOnly(p.header, h.padding);
    var n0 := MarshalHeaderTo(h, buf);
    if n0.None? { return None; }
    if n0.value + |p.payload| + p.paddingSize > buf.Length { return None; }
    ghost var head := buf[..n0.value];
    var n := PutBody(p, buf, n0.value, old(buf[..]));
    PacketWritten(p, head, FillerIn(old(buf[..]), n0.value + |p.payload|, p), buf[..n]);
    r := Some(n);
  }

  lemma PaddingBitOnly(h: Header, padding: bool)
    requires Encodable(h)
    ensures var h' := h.(padding := padding);
            Encodable(h') && MarshalSize(h') == MarshalSize(h) && EncodeHeader(h').Some? == EncodeHeader(h).Some?
  {}

  // ---- Reading ----

  lemma NextWord(buf: Bytes, at: nat, count: nat, csrc: seq<u32>)
    requires count > 0 && |buf| >= at + 4 * count && BeValue(buf[at..][..4]) < 0x1_0000_0000
    ensures csrc + DecodeWords(buf[at..], count)
         == csrc + [BeValue(buf[at..][..4])] + DecodeWords(buf[at + 4..], count - 1)
  {
    assert buf[at..][4..] == buf[at + 4..];
    var word, more := BeValue(buf[at..][..4]), DecodeWords(buf[at + 4..], count - 1);
    assert csrc + ([word] + more) == csrc + [word] + more;
  }

  method UnmarshalCsrc(buf: Bytes, count: nat) returns (csrc: seq<u32>)
    requires |buf| >= 12 + 4 * count
    ensures csrc == DecodeWords(buf[12..], count)
  {
    csrc := [];
    ghost var goal := DecodeWords(buf[12..], count);
    for i := 0 to count
      invariant csrc + DecodeWords(buf[12 + 4 * i..], count - i) == goal
    {
      var word := buf[12 + 4 * i..][..4];
      BeValueBound(word);
      Bounds();
      NextWord(buf, 12 + 4 * i, count - i, csrc);
      csrc := csrc + [BeValue(word)];
    }
    assert csrc + [] == csrc;
  }

  lemma PrependTwice(es: seq<Extension>, n: nat, e: seq<Extension>, k: nat, r: Result<Parsed, Error>)
    ensures Prepend(es, n, Prepend(e, k, r)) == Prepend(es + e, n + k, r)
  {
    if r.Ok? { assert es + (e + r.value.extensions) == es + e + r.value.extensions; }
  }

  lemma PrependNothing(r: Result<Parsed, Error>)
    ensures Prepend([], 0, r) == r
  {
    if r.Ok? { assert [] + r.value.extensions == r.value.extensions; }
  }

  /** What the loop will return from byte `n` on, having collected `es`. */
  ghost function Ahead(piece: Bytes -> Piece, b: Bytes, end: nat, es: seq<Extension>, n: nat): Result<Parsed, Error>
    requires n <= |b|
  {
    Prepend(es, n, DecodeList(piece, b[n..], end - n))
  }

  lemma AheadStarts(piece: Bytes -> Piece, b: Bytes, end: nat)
    ensures Ahead(piece, b, end, [], 0) == DecodeList(piece, b, end)
  {
    assert b[0..] == b;
    PrependNothing(DecodeList(piece, b, end));
  }

  lemma AheadMoves(piece: Bytes -> Piece, b: Bytes, end: nat, es: seq<Extension>, n: nat, e: seq<Extension>, k: nat)
    requires n < end && n + k <= |b| && k > 0
    requires piece(b[n..]) == (if e == [] then Pad else Ext(e[0], k)) && |e| <= 1 && (e == [] ==> k == 1)
    ensures Ahead(piece, b, end, es, n) == Ahead(piece, b, end, es + e, n + k)
  {
    assert b[n..][k..] == b[n + k..];
    assert e == if e == [] then [] else [e[0]];
    PrependTwice(es, n, e, k, DecodeList(piece, b[n + k..], end - (n + k)));
  }

  lemma AheadEnds(piece: Bytes -> Piece, b: Bytes, end: nat, es: seq<Extension>, n: nat)
    requires n <= |b|
    ensures n >= end ==> Ahead(piece, b, end, es, n) == Ok(Parsed(es, n))
    ensures n < end && n < |b| && piece(b[n..]) == Reserved ==> Ahead(piece, b, end, es, n) == Ok(Parsed(es, n + 1))
    ensures n < end && (n == |b| || piece(b[n..]) == Overrun) ==> Ahead(piece, b, end, es, n) == Err(Unindexable)
  {
    assert es + [] == es;
  }

  /** The one-byte loop; an error is where the program would index past its buffer. */
  /** What the one-byte loop sees at `n`. */
  lemma OneByteAt(b: Bytes, n: nat, id: u8, len: nat)
    requires n < |b| && id == b[n] / 16 && len == b[n] % 16 + 1
    ensures OneBytePiece(b[n..]) ==
              if b[n] == 0 then Pad
              else if id == 15 then Reserved
              else if |b| < n + 1 + len then Overrun
              else Ext(Extension(id, b[n + 1..n + 1 + len]), 1 + len)
  {
    if |b| >= n + 1 + len { assert b[n..][1..1 + len] == b[n + 1..n + 1 + len]; }
  }

  lemma OneByteStep(b: Bytes, end: nat, es: seq<Extension>, n: nat, id: u8, len: nat)
    requires n < end && n < |b| && id == b[n] / 16 && len == b[n] % 16 + 1
    ensures var now := Ahead(OneBytePiece, b, end, es, n);
            if b[n] == 0 then now == Ahead(OneBytePiece, b, end, es, n + 1)
            else if id == 15 then now == Ok(Parsed(es, n + 1))
            else if |b| < n + 1 + len then now == Err(Unindexable)
            else now == Ahead(OneBytePiece, b, end, es + [Extension(id, b[n + 1..n + 1 + len])], n + 1 + len)
  {
    AheadEnds(OneBytePiece, b, end, es, n);
    OneByteAt(b, n, id, len);
    if b[n] == 0 {
      AheadMoves(OneBytePiece, b, end, es, n, [], 1);
      assert es + [] == es;
    } else if id != 15 && |b| >= n + 1 + len {
      AheadMoves(OneBytePiece, b, end, es, n, [Extension(id, b[n + 1..n + 1 + len])], 1 + len);
    }
  }

  method UnmarshalOneByte(b: Bytes, end: nat) returns (r: Result<Parsed, Error>)
    ensures r == DecodeList(OneBytePiece, b, end)
  {
    var n, es: seq<Extension> := 0, [];
    AheadStarts(OneBytePiece, b, end);
    while n < end
      invariant n <= |b| && Ahead(OneBytePiece, b, end, es, n) == DecodeList(OneBytePiece, b, end)
      decreases |b| - n
    {
      AheadEnds(OneBytePiece, b, end, es, n);
      if n == |b| { return Err(Unindexable); }
      var id, len := b[n] / 16, b[n] % 16 + 1;
      OneByteStep(b, end, es, n, id, len);
      if b[n] == 0 {
        n := n + 1;
        continue;
      }
      if id == 15 { return Ok(Parsed(es, n + 1)); }
      if |b| < n + 1 + len { return Err(Unindexable); }
      es := es + [Extension(id, b[n + 1..n + 1 + len])];
      n := n + 1 + len;
    }
    AheadEnds(OneBytePiece, b, end, es, n);
    return Ok(Parsed(es, n));
  }

  lemma TwoByteAt(b: Bytes, n: nat)
    requires n < |b|
    ensures TwoBytePiece(b[n..]) ==
              if b[n] == 0 then Pad
              else if |b| < n + 2 then Overrun
              else
                var len: nat := b[n + 1];
                if |b| < n + 2 + len then Overrun else Ext(Extension(b[n], b[n + 2..n + 2 + len]), 2 + len)
  {
    if |b| >= n + 2 {
      var len: nat := b[n + 1];
      if |b| >= n + 2 + len { assert b[n..][2..2 + len] == b[n + 2..n + 2 + len]; }
    }
  }

  lemma TwoByteStep(b: Bytes, end: nat, es: seq<Extension>, n: nat)
    requires n < end && n <= |b|
    ensures var now := Ahead(TwoBytePiece, b, end, es, n);
            if n == |b| then now == Err(Unindexable)
            else if b[n] == 0 then now == Ahead(TwoBytePiece, b, end, es, n + 1)
            else if |b| < n + 2 || |b| < n + 2 + b[n + 1] then now == Err(Unindexable)
            else
              var len: nat := b[n + 1];
              now == Ahead(TwoBytePiece, b, end, es + [Extension(b[n], b[n + 2..n + 2 + len])], n + 2 + len)
  {
    AheadEnds(TwoBytePiece, b, end, es, n);
    if n < |b| {
      TwoByteAt(b, n);
      if b[n] == 0 {
        AheadMoves(TwoBytePiece, b, end, es, n, [], 1);
        assert es + [] == es;
      } else if |b| >= n + 2 && |b| >= n + 2 + b[n + 1] {
        var len: nat := b[n + 1];
        AheadMoves(TwoBytePiece, b, end, es, n, [Extension(b[n], b[n + 2..n + 2 + len])], 2 + len);
      }
    }
  }

  method UnmarshalTwoByte(b: Bytes, end: nat) returns (r: Result<Parsed, Error>)
    ensures r == DecodeList(TwoBytePiece, b, end)
  {
    var n, es: seq<Extension> := 0, [];
    AheadStarts(TwoBytePiece, b, end);
    while n < end
      invariant n <= |b| && Ahead(TwoBytePiece, b, end, es, n) == DecodeList(TwoBytePiece, b, end)
      decreases |b| - n
    {
      TwoByteStep(b, end, es, n);
      if n == |b| { return Err(Unindexable); }
      if b[n] == 0 {
        n := n + 1;
        continue;
      }
      if |b| < n + 2 { return Err(Unindexable); }
      var len: nat := b[n + 1];
      if |b| < n + 2 + len { return Err(Unindexable); }
      es := es + [Extension(b[n], b[n + 2..n + 2 + len])];
      n := n + 2 + len;
    }
    AheadEnds(TwoBytePiece, b, end, es, n);
    return Ok(Parsed(es, n));
  }

  method TakeExtensions(h: Header, profile: u16, length: nat, rest: Bytes) returns (r: Result<ReadHeader, Error>)
    ensures r == DecodeExtensions(h, profile, length, rest)
  {
    if |rest| < length { return Err(ExtensionTooShort); }
    if profile == ONE_BYTE {
      var list := UnmarshalOneByte(rest, length);
      r := WithList(h, profile, list);
    } else if profile == TWO_BYTE {
      var list := UnmarshalTwoByte(rest, length);
      r := WithList(h, profile, list);
    } else {
      r := Ok(ReadHeader(h.(extensionProfile := profile, extensions := [Extension(0, rest[..length])]), 4 + length));
    }
  }

  method UnmarshalExtensions(h: Header, b: Bytes) returns (r: Result<ReadHeader, Error>)
    ensures r == DecodeBlock(h, b)
  {
    if |b| < 4 { return Err(ExtensionTooShort); }
    BeValueBound(b[..2]); BeValueBound(b[2..4]); Bounds();
    r := TakeExtensions(h, BeValue(b[..2]), 4 * BeValue(b[2..4]), b[4..]);
  }

  method UnmarshalHeader(buf: Bytes) returns (r: Result<ReadHeader, Error>)
    ensures r == DecodeHeader(buf)
  {
    if |buf| < 4 { return Err(HeaderTooShort); }
    var cc := buf[0] % 16;
    var n := 12 + cc * 4;
    if |buf| < n { return Err(HeaderTooShort); }
    var csrc := UnmarshalCsrc(buf, cc);
    var h := FieldsOf(buf).(csrc := csrc);
    if h.extension {
      assert buf[12..][4 * cc..] == buf[n..];
      r := UnmarshalExtensions(h, buf[n..]);
      if r.Err? { return r; }
      n, h := n + r.value.n, r.value.header;
    }
    return Ok(ReadHeader(h, n));
  }

  method UnmarshalPacket(buf: Bytes) returns (r: Result<Packet, Error>)
    ensures r == DecodePacket(buf)
  {
    var h := UnmarshalHeader(buf);
    if h.Err? { return Err(h.error); }
    r := TakePayload(h.value.header, h.value.n, buf);
  }
}
