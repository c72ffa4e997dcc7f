/** Payload masking: byte by byte as the specification, and a word at a time as the implementation. */
module WsMask {
  import opened Serial
  import opened Binary

  type Key = k: Bytes | |k| == 4 witness [0, 0, 0, 0]

  /** Word size and byte order of the machine. */
  datatype Machine = Machine(wide: bool, bigEndian: bool)

  // ---- Exclusive or ----

  function Bit(a: nat, b: nat): nat { if a % 2 == b % 2 then 0 else 1 }

  /** Exclusive or of the low `n` bits. */
  function XorBits(a: nat, b: nat, n: nat): nat
    decreases n, a, b
  {
    if n == 0 then 0 else Bit(a, b) + 2 * XorBits(a / 2, b / 2, n - 1)
  }

  lemma {:induction false} XorBound(a: nat, b: nat, n: nat)
    ensures XorBits(a, b, n) < Shift(1, n)
  {
    if n > 0 { XorBound(a / 2, b / 2, n - 1); }
  }

  function Xor(a: u8, b: u8): u8 {
    XorBound(a, b, 8); ShiftBy8(1);
    XorBits(a, b, 8)
  }

  lemma {:induction false} XorTwice(a: nat, b: nat, n: nat)
    requires a < Shift(1, n)
    ensures XorBits(XorBits(a, b, n), b, n) == a
  {
    if n > 0 {
      BitTwice(a, b, XorBits(a / 2, b / 2, n - 1));
      XorTwice(a / 2, b / 2, n - 1);
    }
  }

  lemma BitTwice(a: nat, b: nat, x: nat)
    ensures var y := Bit(a, b) + 2 * x; Bit(y, b) == a % 2 && y / 2 == x
  {
    Halves(Bit(a, b), x);
  }

  /** The low `m` bits and the rest are combined independently. */
  lemma {:induction false} XorSplits(a: nat, b: nat, c: nat, d: nat, m: nat, n: nat)
    requires a < Shift(1, m) && b < Shift(1, m)
    ensures XorBits(a + Shift(c, m), b + Shift(d, m), m + n) == XorBits(a, b, m) + Shift(XorBits(c, d, n), m)
    decreases m
  {
    if m > 0 {
      Halves(a, Shift(c, m - 1));
      Halves(b, Shift(d, m - 1));
      XorSplits(a / 2, b / 2, c, d, m - 1, n);
    }
  }

  // ---- Byte-wise masking ----

  function KeyAt(key: Key, pos: nat): u8 { key[pos % 4] }

  function Mask(key: Key, pos: nat, b: Bytes): (r: Bytes)
    ensures |r| == |b|
    decreases |b|
  {
    if b == [] then [] else [Xor(b[0], KeyAt(key, pos))] + Mask(key, pos + 1, b[1..])
  }

  /** Masking twice is the identity. */
  lemma {:induction false} MaskInvolution(key: Key, pos: nat, b: Bytes)
    ensures Mask(key, pos, Mask(key, pos, b)) == b
    decreases |b|
  {
    if b != [] {
      ShiftBy8(1);
      XorTwice(b[0], KeyAt(key, pos), 8);
      MaskInvolution(key, pos + 1, b[1..]);
      assert Mask(key, pos, b)[1..] == Mask(key, pos + 1, b[1..]);
    }
  }

  /** Masking composes over any split of the buffer. */
  lemma {:induction false} MaskSplits(key: Key, pos: nat, a: Bytes, b: Bytes)
    ensures Mask(key, pos, a + b) == Mask(key, pos, a) + Mask(key, pos + |a|, b)
    decreases |a|
  {
    if a == [] {
      assert a + b == b;
    } else {
      assert (a + b)[1..] == a[1..] + b;
      MaskSplits(key, pos + 1, a[1..], b);
    }
  }

  /** Only the position modulo 4 matters. */
  lemma {:induction false} MaskPeriodic(key: Key, pos: nat, b: Bytes)
    ensures Mask(key, pos % 4, b) == Mask(key, pos, b)
  {
    MaskShift(key, pos % 4, pos / 4, b);
  }

  lemma {:induction false} MaskShift(key: Key, pos: nat, n: nat, b: Bytes)
    ensures Mask(key, pos + 4 * n, b) == Mask(key, pos, b)
    decreases |b|
  {
    if b != [] {
      assert (pos + 4 * n) % 4 == pos % 4;
      MaskShift(key, pos + 1, n, b[1..]);
    }
  }

  lemma {:induction false} MaskAt(key: Key, pos: nat, b: Bytes, i: nat)
    requires i < |b|
    ensures Mask(key, pos, b)[i] == Xor(b[i], KeyAt(key, pos + i))
    decreases |b|
  {
    if i > 0 { MaskAt(key, pos + 1, b[1..], i - 1); }
  }

  /** `t` is `s` with the bytes from `lo` to `hi` masked, the first of them at key position `pos`. */
  predicate Masked(s: Bytes, t: Bytes, key: Key, pos: nat, lo: nat, hi: nat) {
    && |t| == |s|
    && forall k :: 0 <= k < |s| ==> t[k] == if lo <= k < hi then Xor(s[k], KeyAt(key, pos + (k - lo))) else s[k]
  }

  lemma MaskedIsMask(s: Bytes, t: Bytes, key: Key, pos: nat, lo: nat, hi: nat)
    requires Masked(s, t, key, pos, lo, hi) && lo <= hi <= |s|
    ensures t == s[..lo] + Mask(key, pos, s[lo..hi]) + s[hi..]
  {
    var m := Mask(key, pos, s[lo..hi]);
    forall k | lo <= k < hi ensures t[k] == m[k - lo] { MaskAt(key, pos, s[lo..hi], k - lo); }
  }

  lemma MaskedWhole(s: Bytes, t: Bytes, key: Key, pos: nat)
    requires Masked(s, t, key, pos, 0, |s|)
    ensures t == Mask(key, pos, s)
  {
    forall k | 0 <= k < |s| ensures t[k] == Mask(key, pos, s)[k] { MaskAt(key, pos, s, k); }
  }

  /** One byte after the other; the position is not yet reduced. */
  method MaskEach(key: Key, pos0: nat, b: array<u8>, lo: nat, hi: nat) returns (pos: nat)
    requires lo <= hi <= b.Length
    modifies b
    ensures Masked(old(b[..]), b[..], key, pos0, lo, hi)
    ensures pos == pos0 + (hi - lo)
  {
    pos := pos0;
    var i := lo;
    while i < hi
      invariant lo <= i <= hi && pos == pos0 + (i - lo)
      invariant forall k :: 0 <= k < b.Length ==>
                  b[k] == if lo <= k < i then Xor(old(b[k]), KeyAt(key, pos0 + (k - lo))) else old(b[k])
    {
      b[i] := Xor(b[i], KeyAt(key, pos));
      pos := pos + 1;
      i := i + 1;
    }
  }

  /** The byte-at-a-time implementation. */
  method MaskBytesSafe(key: Key, pos0: nat, b: array<u8>, lo: nat, hi: nat) returns (pos: nat)
    requires lo <= hi <= b.Length
    modifies b
    ensures Masked(old(b[..]), b[..], key, pos0, lo, hi)
    ensures pos == (pos0 + (hi - lo)) % 4
  {
    pos := MaskEach(key, pos0, b, lo, hi);
    pos := pos % 4;
  }

  // ---- Word-wise masking ----

  /** The word that bytes in memory make up, least significant first. */
  function WordOf(b: Bytes): nat {
    if b == [] then 0 else b[0] + 256 * WordOf(b[1..])
  }

  function BytesOf(w: nat, n: nat): (r: Bytes)
    ensures |r| == n
    decreases n
  {
    if n == 0 then [] else [w % 256] + BytesOf(w / 256, n - 1)
  }

  function Reversed(b: Bytes): (r: Bytes)
    ensures |r| == |b|
  {
    seq(|b|, i requires 0 <= i < |b| => b[|b| - 1 - i])
  }

  /** A machine word load and store, in either byte order. */
  function Load(b: Bytes, bigEndian: bool): nat { WordOf(if bigEndian then Reversed(b) else b) }

  function Stored(w: nat, n: nat, bigEndian: bool): (r: Bytes)
    ensures |r| == n
  {
    if bigEndian then Reversed(BytesOf(w, n)) else BytesOf(w, n)
  }

  function XorSeq(a: Bytes, b: Bytes): (r: Bytes)
    requires |a| == |b|
    ensures |r| == |a| && forall i :: 0 <= i < |a| ==> r[i] == Xor(a[i], b[i])
  {
    if a == [] then [] else [Xor(a[0], b[0])] + XorSeq(a[1..], b[1..])
  }

  lemma LowByte(x: u8, w: nat)
    ensures (x + 256 * w) % 256 == x && (x + 256 * w) / 256 == w
  {}

  /** The lowest bytes are combined on their own. */
  lemma XorLow(x: u8, y: u8, c: nat, d: nat, n: nat)
    ensures XorBits(x + 256 * c, y + 256 * d, 8 + n) == Xor(x, y) + 256 * XorBits(c, d, n)
  {
    ShiftBy8(1);
    ShiftBy8(c);
    ShiftBy8(d);
    ShiftBy8(XorBits(c, d, n));
    XorSplits(x, y, c, d, 8, n);
  }

  /** Exclusive or of words is exclusive or of their bytes. */
  lemma {:induction false} WordXor(a: Bytes, b: Bytes)
    requires |a| == |b|
    ensures BytesOf(XorBits(WordOf(a), WordOf(b), 8 * |a|), |a|) == XorSeq(a, b)
  {
    if a != [] {
      var c, d, n := WordOf(a[1..]), WordOf(b[1..]), 8 * |a[1..]|;
      XorLow(a[0], b[0], c, d, n);
      LowByte(Xor(a[0], b[0]), XorBits(c, d, n));
      WordXor(a[1..], b[1..]);
    }
  }

  lemma ReversedXor(a: Bytes, b: Bytes)
    requires |a| == |b|
    ensures Reversed(XorSeq(Reversed(a), Reversed(b))) == XorSeq(a, b)
  {
    var x := XorSeq(Reversed(a), Reversed(b));
    forall i | 0 <= i < |a| ensures Reversed(x)[i] == XorSeq(a, b)[i] {
      assert x[|a| - 1 - i] == Xor(Reversed(a)[|a| - 1 - i], Reversed(b)[|a| - 1 - i]);
    }
  }

  lemma WordXorInMemory(a: Bytes, b: Bytes, bigEndian: bool)
    requires |a| == |b|
    ensures Stored(XorBits(Load(a, bigEndian), Load(b, bigEndian), 8 * |a|), |a|, bigEndian) == XorSeq(a, b)
  {
    if bigEndian {
      WordXor(Reversed(a), Reversed(b));
      ReversedXor(a, b);
    } else {
      WordXor(a, b);
    }
  }

  /** The key repeated over one word, starting at `pos`. */
  function WordKey(key: Key, pos: nat, wordSize: nat): (k: Bytes)
    ensures |k| == wordSize && forall i :: 0 <= i < wordSize ==> k[i] == KeyAt(key, pos + i)
    decreases wordSize
  {
    if wordSize == 0 then [] else
      var k: Bytes := [KeyAt(key, pos)] + WordKey(key, pos + 1, wordSize - 1);
      assert forall i :: 1 <= i < wordSize ==> k[i] == KeyAt(key, pos + 1 + (i - 1));
      k
  }

  method StoreWord(b: array<u8>, at: nat, w: Bytes)
    requires at + |w| <= b.Length
    modifies b
    ensures forall k :: 0 <= k < b.Length ==> b[k] == if at <= k < at + |w| then w[k - at] else old(b[k])
  {
    forall i | 0 <= i < |w| { b[at + i] := w[i]; }
  }

  /** One word: loading it, combining it with the key word and storing it masks its bytes. */
  method MaskWord(key: Key, ghost pos: nat, b: array<u8>, at: nat, wordSize: nat, kw: nat, bigEndian: bool)
    requires at + wordSize <= b.Length && kw == Load(WordKey(key, pos, wordSize), bigEndian)
    modifies b
    ensures Masked(old(b[..]), b[..], key, pos, at, at + wordSize)
  {
    var w := b[at..at + wordSize];
    WordXorInMemory(w, WordKey(key, pos, wordSize), bigEndian);
    StoreWord(b, at, Stored(XorBits(Load(w, bigEndian), kw, 8 * wordSize), wordSize, bigEndian));
  }

  /** `n` words, in bytes. */
  function Size(n: nat, wordSize: nat): nat { if wordSize == 8 then 8 * n else 4 * n }

  lemma WordResidue(x: nat, n: nat, wordSize: nat)
    ensures (x + Size(n, wordSize)) % 4 == x % 4
  {
    if wordSize == 8 { AddFours(x, 2 * n); } else { AddFours(x, n); }
  }

  lemma AddFours(x: nat, n: nat)
    ensures (x + 4 * n) % 4 == x % 4
  {}

  lemma KeyPeriodic(key: Key, pos: nat, n: nat, wordSize: nat)
    ensures KeyAt(key, pos + Size(n, wordSize)) == KeyAt(key, pos)
  {
    WordResidue(pos, n, wordSize);
  }

  lemma NextWord(n: nat, words: nat, wordSize: nat)
    requires (wordSize == 4 || wordSize == 8) && Size(n, wordSize) < Size(words, wordSize)
    ensures n < words && Size(n + 1, wordSize) == Size(n, wordSize) + wordSize <= Size(words, wordSize)
  {}

  /** The loop over whole words: positions advance by multiples of four, so one key word serves all. */
  method MaskWords(key: Key, pos: nat, b: array<u8>, lo: nat, words: nat, wordSize: nat, bigEndian: bool)
    requires (wordSize == 4 || wordSize == 8) && lo + Size(words, wordSize) <= b.Length
    modifies b
    ensures Masked(old(b[..]), b[..], key, pos, lo, lo + Size(words, wordSize))
  {
    var kw := Load(WordKey(key, pos, wordSize), bigEndian);
    ghost var s, n := b[..], 0;
    var i := lo;
    while i < lo + Size(words, wordSize)
      invariant 0 <= n <= words && i == lo + Size(n, wordSize)
      invariant Masked(s, b[..], key, pos, lo, i)
    {
      ghost var t := b[..];
      NextWord(n, words, wordSize);
      MaskWord(key, pos, b, i, wordSize, kw, bigEndian);
      OneMoreWord(key, pos, s, t, b[..], lo, i, i + wordSize, n, wordSize);
      i := i + wordSize;
      n := n + 1;
    }
  }

  lemma OneMoreWord(key: Key, pos: nat, s: Bytes, t: Bytes, u: Bytes, lo: nat, i: nat, j: nat, n: nat, wordSize: nat)
    requires i == lo + Size(n, wordSize) && j == i + wordSize
    requires Masked(s, t, key, pos, lo, i) && Masked(t, u, key, pos, i, j)
    ensures Masked(s, u, key, pos, lo, j)
  {
    forall k | 0 <= k < |s|
      ensures u[k] == if lo <= k < j then Xor(s[k], KeyAt(key, pos + (k - lo))) else s[k]
    {
      if i <= k < j {
        KeyPeriodic(key, pos + (k - i), n, wordSize);
        assert pos + (k - i) + Size(n, wordSize) == pos + (k - lo);
      }
    }
  }

  /** Whole words in a stretch of `n` bytes. */
  function WholeWords(n: nat, wordSize: nat): (w: nat)
    requires wordSize == 4 || wordSize == 8
    ensures Size(w, wordSize) <= n < Size(w, wordSize) + wordSize
  {
    if wordSize == 8 then n / 8 else n / 4
  }

  /** Masking the head, the words and the tail one after the other masks the whole. */
  lemma ThreeStretches(key: Key, pos: nat, s: Bytes, s1: Bytes, s2: Bytes, t: Bytes,
                       lo: nat, i: nat, words: nat, wordSize: nat, hi: nat)
    requires lo <= i && i + Size(words, wordSize) <= hi <= |s|
    requires Masked(s, s1, key, pos, lo, i) && Masked(s1, s2, key, pos + (i - lo), i, i + Size(words, wordSize))
    requires Masked(s2, t, key, pos + (i - lo), i + Size(words, wordSize), hi)
    ensures Masked(s, t, key, pos, lo, hi)
  {
    var j := i + Size(words, wordSize);
    forall k | 0 <= k < |s| ensures t[k] == if lo <= k < hi then Xor(s[k], KeyAt(key, pos + (k - lo))) else s[k] {
      if j <= k < hi {
        KeyPeriodic(key, pos + (i - lo) + (k - j), words, wordSize);
        assert pos + (i - lo) + (k - j) + Size(words, wordSize) == pos + (k - lo);
      } else if i <= k < j {
        assert pos + (i - lo) + (k - i) == pos + (k - lo);
      }
    }
  }

  /** The word-at-a-time implementation does what the byte-at-a-time one does, for every key, position,
      length, alignment (`address` of b[lo]), word size and byte order, and returns the next position. */
  method MaskBytes(key: Key, pos0: nat, b: array<u8>, lo: nat, hi: nat, address: nat, machine: Machine)
    returns (pos: nat)
    requires lo <= hi <= b.Length
    modifies b
    ensures Masked(old(b[..]), b[..], key, pos0, lo, hi)
    ensures pos == (pos0 + (hi - lo)) % 4
  {
    var wordSize := if machine.wide then 8 else 4;
    if hi - lo < 2 * wordSize {
      pos := MaskEach(key, pos0, b, lo, hi);
      return pos % 4;
    }
    ghost var s := b[..];
    var n := address % wordSize;
    var start := if n != 0 then lo + (wordSize - n) else lo;
    var words := WholeWords(hi - start, wordSize);
    pos := MaskEach(key, pos0, b, lo, start);
    ghost var s1 := b[..];
    MaskWords(key, pos, b, start, words, wordSize, machine.bigEndian);
    ghost var s2 := b[..];
    pos := MaskEach(key, pos, b, start + Size(words, wordSize), hi);
    ThreeStretches(key, pos0, s, s1, s2, b[..], lo, start, words, wordSize, hi);
    WordResidue(pos, words, wordSize);
    pos := pos % 4;
  }
}
