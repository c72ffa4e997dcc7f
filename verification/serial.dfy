/** Fixed-width unsigned integers and the serial-number arithmetic of RFC 1982. */
module Serial {
  // Used for SCTP transmission sequence numbers (TSNs) and stream sequence numbers.

  type u8 = x: int | 0 <= x < 0x100
  type u16 = x: int | 0 <= x < 0x1_0000
  type u32 = x: int | 0 <= x < 0x1_0000_0000
  type u64 = x: int | 0 <= x < 0x1_0000_0000_0000_0000

  /** Truncation of a mathematical integer to 32 bits. */
  function U32(x: int): u32 { x % 0x1_0000_0000 }

  /** `a + n` with 32-bit wrap-around. */
  function Plus(a: u32, n: u32): u32 {
    if a + n < 0x1_0000_0000 then a + n else a + n - 0x1_0000_0000
  }

  /** How far forward `b` lies from `a` around the 32-bit circle. */
  function Dist(a: u32, b: u32): u32 {
    if a <= b then b - a else b - a + 0x1_0000_0000
  }

  // The four comparisons as the code writes them.

  predicate Sna32LT(i1: u32, i2: u32) {
    (i1 < i2 && i2 - i1 < 0x8000_0000) || (i1 > i2 && i1 - i2 > 0x8000_0000)
  }

  predicate Sna32LTE(i1: u32, i2: u32) { i1 == i2 || Sna32LT(i1, i2) }

  predicate Sna32GT(i1: u32, i2: u32) {
    (i1 < i2 && i2 - i1 >= 0x8000_0000) || (i1 > i2 && i1 - i2 <= 0x8000_0000)
  }

  predicate Sna16LT(i1: u16, i2: u16) {
    (i1 < i2 && i2 - i1 < 0x8000) || (i1 > i2 && i1 - i2 > 0x8000)
  }

  /** Every 32-bit comparison is a statement about forward distance alone. */
  lemma ComparisonsAreDistances(a: u32, b: u32)
    ensures Sna32LT(a, b) <==> 0 < Dist(a, b) < 0x8000_0000
    ensures Sna32LTE(a, b) <==> Dist(a, b) < 0x8000_0000
    ensures Sna32GT(a, b) <==> 0 < Dist(b, a) <= 0x8000_0000
    ensures Sna32GT(a, b) <==> !Sna32LTE(a, b)
  {}

  /** On extended (unbounded) numbers less than half the circle apart, serial order is the true order. */
  lemma SerialOrderIsTrueOrder(x: nat, y: nat)
    requires x - y < 0x8000_0000 && y - x < 0x8000_0000
    ensures Sna32LT(U32(x), U32(y)) <==> x < y
    ensures Sna32LTE(U32(x), U32(y)) <==> x <= y
    ensures Sna32GT(U32(x), U32(y)) <==> x > y
    ensures x <= y ==> Dist(U32(x), U32(y)) == y - x
  {}

  lemma DistPlus(a: u32, n: u32)
    ensures Dist(a, Plus(a, n)) == n
  {}

  lemma PlusAdds(a: u32, m: u32, n: u32)
    requires m + n < 0x1_0000_0000
    ensures Plus(Plus(a, m), n) == Plus(a, m + n)
  {}

  lemma DistAdds(a: u32, b: u32, c: u32)
    requires Dist(a, b) + Dist(b, c) < 0x1_0000_0000
    ensures Dist(a, c) == Dist(a, b) + Dist(b, c)
  {}

  lemma DistSplits(a: u32, b: u32, c: u32)
    requires Dist(a, b) <= Dist(a, c)
    ensures Dist(b, c) == Dist(a, c) - Dist(a, b)
  {}

  /** 32-bit addition and distance follow the extended numbers. */
  lemma Extended(x: nat, n: u32)
    ensures Plus(U32(x), n) == U32(x + n)
    ensures Dist(U32(x), U32(x + n)) == n
  {}

  lemma U32OfSmall(x: nat)
    requires x < 0x1_0000_0000
    ensures U32(x) == x
  {}
}
