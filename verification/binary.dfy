/** Byte strings, big-endian integers and fixed layouts of consecutive integer fields. */
module Binary {
  import opened Serial

  type Bytes = seq<u8>

  /** `k` bytes, most significant first. */
  function Be(n: nat, k: nat): (r: Bytes)
    ensures |r| == k
    decreases k, n
  {
    if k == 0 then [] else Be(n / 256, k - 1) + [n % 256]
  }

  function BeValue(b: Bytes): nat
    decreases |b|
  {
    if b == [] then 0 else 256 * BeValue(b[..|b| - 1]) + b[|b| - 1]
  }

  function Bound(k: nat): nat { if k == 0 then 1 else 256 * Bound(k - 1) }

  lemma {:induction false} BeRoundTrip(n: nat, k: nat)
    requires n < Bound(k)
    ensures BeValue(Be(n, k)) == n
    decreases k
  {
    if k > 0 {
      BeRoundTrip(n / 256, k - 1);
      assert Be(n, k)[..k - 1] == Be(n / 256, k - 1);
    }
  }

  lemma {:induction false} BeValueBound(b: Bytes)
    ensures BeValue(b) < Bound(|b|)
    decreases |b|
  {
    if b != [] { BeValueBound(b[..|b| - 1]); }
  }

  lemma Bounds()
    ensures Bound(1) == 0x100 && Bound(2) == 0x1_0000 && Bound(3) == 0x100_0000 && Bound(4) == 0x1_0000_0000
    ensures Bound(8) == 0x1_0000_0000_0000_0000
  {
    assert Bound(1) == 256 * Bound(0) && Bound(2) == 256 * Bound(1) && Bound(3) == 256 * Bound(2)
           && Bound(4) == 256 * Bound(3);
    assert Bound(5) == 256 * Bound(4) && Bound(6) == 256 * Bound(5) && Bound(7) == 256 * Bound(6)
           && Bound(8) == 256 * Bound(7);
  }

  // ---- Bits ----

  /** `c` shifted left by `m` bits. */
  function Shift(c: nat, m: nat): nat
    decreases m, c
  {
    if m == 0 then c else 2 * Shift(c, m - 1)
  }

  lemma ShiftBy4(c: nat)
    ensures Shift(c, 4) == 16 * c
  {
    assert Shift(c, 1) == 2 * Shift(c, 0) && Shift(c, 2) == 2 * Shift(c, 1) && Shift(c, 3) == 2 * Shift(c, 2);
  }

  lemma {:induction false} ShiftAdds(c: nat, m: nat, n: nat)
    ensures Shift(c, m + n) == Shift(Shift(c, n), m)
    decreases m
  {
    if m > 0 { ShiftAdds(c, m - 1, n); }
  }

  lemma ShiftBy8(c: nat)
    ensures Shift(c, 8) == 256 * c
  {
    ShiftAdds(c, 4, 4);
    ShiftBy4(c);
    ShiftBy4(16 * c);
  }

  lemma Shifts()
    ensures Shift(1, 14) == 0x4000 && Shift(1, 16) == 0x1_0000
  {
    ShiftAdds(1, 8, 8);
    ShiftBy8(1);
    ShiftBy8(256);
    assert Shift(1, 16) == 2 * Shift(1, 15) && Shift(1, 15) == 2 * Shift(1, 14);
  }

  lemma Halves(a: nat, x: nat)
    ensures (a + 2 * x) % 2 == a % 2 && (a + 2 * x) / 2 == a / 2 + x
  {}

  /** Inclusive or of the low `n` bits. */
  function OrBits(a: nat, b: nat, n: nat): nat
    decreases n, a, b
  {
    if n == 0 then 0 else (if a % 2 == 1 || b % 2 == 1 then 1 else 0) + 2 * OrBits(a / 2, b / 2, n - 1)
  }

  lemma {:induction false} OrBound(a: nat, b: nat, n: nat)
    ensures OrBits(a, b, n) < Shift(1, n)
    decreases n
  {
    if n > 0 { OrBound(a / 2, b / 2, n - 1); }
  }

  function Or(a: u8, b: u8): u8 {
    OrBound(a, b, 8); ShiftBy8(1);
    OrBits(a, b, 8)
  }

  lemma {:induction false} OrNothing(a: nat, n: nat)
    requires a < Shift(1, n)
    ensures OrBits(a, 0, n) == a && OrBits(0, a, n) == a
    decreases n
  {
    if n > 0 { OrNothing(a / 2, n - 1); }
  }

  lemma {:induction false} OrAllOnes(a: nat, n: nat)
    ensures Shift(1, n) >= 1 && OrBits(a, Shift(1, n) - 1, n) == Shift(1, n) - 1
    decreases n
  {
    if n > 0 {
      OrAllOnes(a / 2, n - 1);
      Halves(1, Shift(1, n - 1) - 1);
    }
  }

  /** The low `m` bits and the rest are combined independently. */
  lemma {:induction false} OrSplits(a: nat, b: nat, c: nat, d: nat, m: nat, n: nat)
    requires a < Shift(1, m) && b < Shift(1, m)
    ensures OrBits(a + Shift(c, m), b + Shift(d, m), m + n) == OrBits(a, b, m) + Shift(OrBits(c, d, n), m)
    decreases m
  {
    if m > 0 {
      Halves(a, Shift(c, m - 1));
      Halves(b, Shift(d, m - 1));
      OrSplits(a / 2, b / 2, c, d, m - 1, n);
    }
  }

  lemma {:induction false} ShiftNothing(m: nat)
    ensures Shift(0, m) == 0
  {
    if m > 0 { ShiftNothing(m - 1); }
  }

  /** Fields that do not touch are added. */
  lemma OrDisjoint(low: nat, high: nat, m: nat, n: nat)
    requires low < Shift(1, m) && high < Shift(1, n)
    ensures OrBits(Shift(high, m), low, m + n) == Shift(high, m) + low
  {
    ShiftNothing(m);
    OrSplits(0, low, high, 0, m, n);
    OrNothing(low, m);
    OrNothing(high, n);
  }

  // ---- Joining and splitting ----

  lemma SplitAt(a: Bytes, b: Bytes)
    ensures (a + b)[..|a|] == a && (a + b)[|a|..] == b
  {}

  lemma JoinsLeft(a: Bytes, b: Bytes, c: Bytes)
    ensures a + b + c == a + (b + c)
  {}

  // ---- Fixed layouts ----

  function Total(sizes: seq<nat>): nat {
    if sizes == [] then 0 else sizes[0] + Total(sizes[1..])
  }

  predicate Fit(values: seq<nat>, sizes: seq<nat>) {
    |values| == |sizes| && forall i :: 0 <= i < |values| ==> values[i] < Bound(sizes[i])
  }

  function Pack(values: seq<nat>, sizes: seq<nat>): (r: Bytes)
    requires |values| == |sizes|
    ensures |r| == Total(sizes)
  {
    if values == [] then [] else Be(values[0], sizes[0]) + Pack(values[1..], sizes[1..])
  }

  function Unpack(b: Bytes, sizes: seq<nat>): (r: seq<nat>)
    requires |b| >= Total(sizes)
    ensures |r| == |sizes| && Fit(r, sizes)
    decreases |sizes|, b
  {
    if sizes == [] then []
    else
      BeValueBound(b[..sizes[0]]);
      [BeValue(b[..sizes[0]])] + Unpack(b[sizes[0]..], sizes[1..])
  }

  /** Fields that fit are read back, whatever follows them. */
  lemma {:induction false} UnpackPack(values: seq<nat>, sizes: seq<nat>, rest: Bytes)
    requires Fit(values, sizes)
    ensures Unpack(Pack(values, sizes) + rest, sizes) == values
    decreases |sizes|
  {
    if values != [] {
      var head, tail := Be(values[0], sizes[0]), Pack(values[1..], sizes[1..]);
      BeRoundTrip(values[0], sizes[0]);
      assert (head + tail + rest)[..sizes[0]] == head && (head + tail + rest)[sizes[0]..] == tail + rest;
      UnpackPack(values[1..], sizes[1..], rest);
    }
  }
}
