/** The abs-send-time header extension: 24 bits of an NTP time, completed again by the receiver. */
module AbsSendTime {
  import opened Serial
  import opened Wrappers
  import opened Binary

  const SECOND := 1_000_000_000
  const OFFSET := 0x83AA7E80 // seconds from the NTP epoch to the Unix epoch
  const W32 := 0x1_0000_0000
  const W64 := 0x1_0000_0000_0000_0000
  const UNIT := 0x4000 // the timestamp leaves out the lowest 14 bits
  const BLOCK := 0x40_0000_0000 // 64 seconds: what 24 bits of that unit can tell apart

  /** Unix nanoseconds to a 64-bit NTP time; the seconds wrap with the NTP era. */
  function ToNtp(u: u64): u64 {
    (u / SECOND + OFFSET) % W32 * W32 + u % SECOND * W32 / SECOND
  }

  /** Back to Unix nanoseconds, in 64-bit arithmetic read as signed. */
  function ToTime(t: u64): int {
    Signed(((t / W32 - OFFSET) * SECOND + t % W32 * SECOND / W32) % W64)
  }

  /** A 64-bit count of nanoseconds as the time it stands for; before 1970 it is negative. */
  function Signed(u: u64): int { if u < W64 / 2 then u else u - W64 }

  function NewTimestamp(send: u64): nat { ToNtp(send) / UNIT }

  function Marshal(timestamp: u64): Bytes {
    [timestamp / 0x10000 % 0x100, timestamp / 0x100 % 0x100, timestamp % 0x100]
  }

  function Unmarshal(b: Bytes): Option<u64> {
    if |b| < 3 then None
    else
      var high: nat, middle: nat := b[0], b[1];
      Some(high * 0x10000 + middle * 0x100 + b[2])
  }

  /** The receiver's 64-second block, or the one before if that would be in the receiver's future. */
  function EstimateNtp(timestamp: u64, receive: u64): u64 {
    var ntp := receive / BLOCK * BLOCK + timestamp % 0x100_0000 * UNIT;
    if receive < ntp then (ntp - BLOCK) % W64 else ntp
  }

  function Estimate(timestamp: u64, receive: u64): int { ToTime(EstimateNtp(timestamp, ToNtp(receive))) }

  function Truncated(ntp: u64): u64 { ntp - ntp % UNIT }

  // ---- On the wire ----

  lemma Digits(t: nat)
    ensures t % 0x100_0000 == t / 0x10000 % 0x100 * 0x10000 + t / 0x100 % 0x100 * 0x100 + t % 0x100
  {
    TwoDigits(t, 0x100);
    TwoDigits(t, 0x10000);
  }

  lemma TwoDigits(t: nat, base: nat)
    requires base == 0x100 || base == 0x10000
    ensures t % (base * 0x100) == t / base % 0x100 * base + t % base
  {
    var q := t / base;
    assert t == q / 0x100 * (base * 0x100) + (q % 0x100 * base + t % base);
  }

  /** Three bytes carry the low 24 bits, and only those. */
  lemma WireRoundTrip(timestamp: u64, rest: Bytes)
    ensures Unmarshal(Marshal(timestamp) + rest) == Some(timestamp % 0x100_0000)
  {
    Digits(timestamp);
  }

  // ---- Completing the time ----

  /** A truncated time is its block plus its 24 bits. */
  lemma BlockAndBits(s: u64)
    ensures Truncated(s) == s / BLOCK * BLOCK + s / UNIT % 0x100_0000 * UNIT
  {
    var q := s / UNIT;
    assert s / BLOCK == q / 0x100_0000;
    assert q == q / 0x100_0000 * 0x100_0000 + q % 0x100_0000;
  }

  /** Below 64 seconds apart around the 64-bit circle. */
  predicate Recent(t: u64, receive: u64) { (receive - t) % W64 < BLOCK }

  lemma Blocks(t: u64)
    ensures t / BLOCK * BLOCK <= t < t / BLOCK * BLOCK + BLOCK && t / BLOCK < 0x400_0000
  {}

  /** Wrap-around once in either direction. */
  lemma ModOnce(x: int)
    requires -W64 <= x < W64
    ensures x % W64 == if x < 0 then x + W64 else x
  {}

  /** Two multiples of the block at most a block apart. */
  lemma SameBlock(a: int, b: int, low: int, high: int)
    requires 0 <= low < BLOCK && 0 <= high < BLOCK
    ensures 0 <= b * BLOCK + high - (a * BLOCK + low) < BLOCK <==> (a == b && low <= high) || (a == b - 1 && low > high)
  {}

  /** The truncated send time is recovered exactly when it is less than 64 seconds before the receive time. */
  lemma EstimateExact(send: u64, receive: u64)
    ensures EstimateNtp(send / UNIT % 0x100_0000, receive) == Truncated(send) <==> Recent(Truncated(send), receive)
  {
    var t := Truncated(send);
    var a, b := send / BLOCK, receive / BLOCK;
    var low, high := t - a * BLOCK, receive - b * BLOCK;
    BlockAndBits(send);
    Blocks(send);
    Blocks(receive);
    ModOnce(receive - t);
    SameBlock(a, b, low, high);
    SameBlock(a, b + 0x400_0000, low, high);
    ModOnce(b * BLOCK + low - BLOCK);
  }

  // ---- What the receiver learns ----

  /** Unix times whose NTP form lies in the era that ends in 2036. */
  predicate InEra(u: u64) { u / SECOND + OFFSET < W32 }

  /** Within the era the conversion is one scaling, rounded down. */
  lemma ToNtpScales(u: u64)
    requires InEra(u)
    ensures ToNtp(u) == u * W32 / SECOND + OFFSET * W32
  {
    var s, r := u / SECOND, u % SECOND;
    assert u * W32 == (s * W32) * SECOND + r * W32;
    assert u * W32 / SECOND == s * W32 + r * W32 / SECOND;
  }

  lemma ToTimeSplits(t: u64)
    ensures ToTime(t) == (t / W32 - OFFSET) * SECOND + t % W32 * SECOND / W32
  {
    assert 0 <= t % W32 * SECOND / W32 < SECOND;
  }

  /** And so is the conversion back, for every 64-bit NTP time. */
  lemma ToTimeScales(t: u64)
    ensures ToTime(t) == (t - OFFSET * W32) * SECOND / W32
  {
    ToTimeSplits(t);
    var s, f := t / W32 - OFFSET, t % W32;
    assert (t - OFFSET * W32) * SECOND == (s * SECOND) * W32 + f * SECOND;
    assert (s * SECOND * W32 + f * SECOND) / W32 == s * SECOND + f * SECOND / W32;
  }

  /** Scaling down, dropping 14 bits and scaling back loses at most 3815 nanoseconds and never gains. */
  lemma LossIsSmall(u: nat)
    ensures var n := u * W32 / SECOND; 0 <= u - (n - n % UNIT) * SECOND / W32 <= 3815
  {
    var n := u * W32 / SECOND;
    var g := n - n % UNIT;
    assert u * W32 - SECOND < n * SECOND <= u * W32;
    assert u * W32 - UNIT * SECOND < g * SECOND <= u * W32;
  }

  /** Whatever the block, the estimate ends in the 24 bits sent. */
  lemma EstimateEnds(n: u64, receive: u64) returns (e: u64, b: int)
    ensures e == EstimateNtp(n / UNIT % 0x100_0000, receive) == b * BLOCK + (Truncated(n) - n / BLOCK * BLOCK)
  {
    BlockAndBits(n);
    Blocks(n);
    Blocks(receive);
    e := EstimateNtp(n / UNIT % 0x100_0000, receive);
    b := receive / BLOCK;
    var ntp := b * BLOCK + n / UNIT % 0x100_0000 * UNIT;
    if receive < ntp {
      ModOnce(ntp - BLOCK);
      b := if ntp < BLOCK then b - 1 + 0x400_0000 else b - 1;
    }
  }

  lemma AddBlocks(b: int, low: int)
    ensures (b * BLOCK + low) / W32 == 64 * b + low / W32 && (b * BLOCK + low) % W32 == low % W32
  {
    assert b * BLOCK == 64 * b * W32;
  }

  /** Dropping 14 bits leaves the seconds alone. */
  lemma CutFraction(m: nat)
    ensures m % UNIT == m % W32 % UNIT && 0 <= m - m % UNIT
    ensures (m - m % UNIT) / W32 == m / W32 && (m - m % UNIT) % W32 == m % W32 - m % W32 % UNIT
  {
    var s, f := m / W32, m % W32;
    assert W32 == 0x4_0000 * UNIT;
    SameUnit(f, 0x4_0000 * s);
    assert m == UNIT * (0x4_0000 * s) + f;
    SplitsAt(s, f - f % UNIT);
  }

  lemma SameUnit(f: nat, q: nat)
    ensures (UNIT * q + f) % UNIT == f % UNIT
  {}

  lemma SplitsAt(s: int, f: nat)
    requires f < W32
    ensures (s * W32 + f) / W32 == s && (s * W32 + f) % W32 == f
  {}

  lemma SplitBlock(n: u64, a: int, t: int)
    requires t == n - n % UNIT && a == n / BLOCK
    ensures 0 <= t - a * BLOCK < BLOCK && (t - a * BLOCK) / W32 == n / W32 - 64 * a
    ensures (t - a * BLOCK) % W32 == n % W32 - n % W32 % UNIT
  {
    var m := n - a * BLOCK;
    Blocks(n);
    AddBlocks(a, m);
    CutFraction(m);
    CutFraction(n);
  }

  lemma SecondsOfNtp(u: u64)
    ensures ToNtp(u) / W32 == (u / SECOND + OFFSET) % W32 && ToNtp(u) % W32 == u % SECOND * W32 / SECOND
  {
    var f := u % SECOND * W32 / SECOND;
    assert 0 <= f < W32;
  }

  /** In every case the estimate is the send time less at most 3815 nanoseconds, but for whole blocks of 64 seconds:
      none if and only if the NTP seconds are those of the send time, uncut. */
  lemma EstimateIsOffByBlocks(send: u64, receive: u64) returns (d: int, k: int)
    ensures Estimate(NewTimestamp(send) % 0x100_0000, receive) == send - d - 64 * SECOND * k && 0 <= d <= 3815
    ensures k == 0 <==> EstimateNtp(NewTimestamp(send) % 0x100_0000, ToNtp(receive)) / W32 == send / SECOND + OFFSET
  {
    var n, s, r := ToNtp(send), send / SECOND, send % SECOND;
    var e, b := EstimateEnds(n, ToNtp(receive));
    SplitBlock(n, n / BLOCK, Truncated(n));
    AddBlocks(b, Truncated(n) - n / BLOCK * BLOCK);
    SecondsOfNtp(send);
    ToTimeSplits(e);
    LossIsSmall(r);
    d := r - e % W32 * SECOND / W32;
    k := Eras(s + OFFSET, n / W32) * 0x400_0000 + n / BLOCK - b;
    assert e / W32 == s + OFFSET - 64 * k;
    assert ToTime(e) == (s - 64 * k) * SECOND + (r - d);
  }

  function Eras(x: nat, y: nat): (q: nat)
    requires y == x % W32
    ensures x == q * W32 + y
  {
    x / W32
  }

  lemma SameSeconds(n: u64, e: u64, b: int, seconds: nat)
    requires n / W32 == seconds % W32 && e == b * BLOCK + (Truncated(n) - n / BLOCK * BLOCK)
    ensures e / W32 == seconds <==> seconds < W32 && e == Truncated(n)
  {
    SplitBlock(n, n / BLOCK, Truncated(n));
    AddBlocks(b, Truncated(n) - n / BLOCK * BLOCK);
  }

  /** From send time over the wire to the estimate: it is not later than the true send time, and at most
      3815 nanoseconds earlier, if and only if the send time lies in the era and is recent. */
  lemma EstimateBounds(send: u64, receive: u64, rest: Bytes)
    ensures var wire := Unmarshal(Marshal(NewTimestamp(send)) + rest);
            && wire.Some?
            && (0 <= Signed(send) - Estimate(wire.value, receive) <= 3815 <==>
                  InEra(send) && Recent(Truncated(ToNtp(send)), ToNtp(receive)))
  {
    WireRoundTrip(NewTimestamp(send), rest);
    var d, k := EstimateIsOffByBlocks(send, receive);
    EstimateExact(ToNtp(send), ToNtp(receive));
    var e, b := EstimateEnds(ToNtp(send), ToNtp(receive));
    SecondsOfNtp(send);
    SameSeconds(ToNtp(send), e, b, send / SECOND + OFFSET);
    WithinBlocks(send, d, k);
  }

  /** 2^64 nanoseconds are not whole blocks, so a time before 1970 is never estimated. */
  lemma WithinBlocks(send: u64, d: int, k: int)
    requires 0 <= d <= 3815
    ensures 0 <= Signed(send) - (send - d - 64 * SECOND * k) <= 3815 <==> send < W64 / 2 && k == 0
  {
    assert W64 == 288_230_376 * (64 * SECOND) + 9_709_551_616;
  }

  /** The first moment after the era, sent and received at once: recent, and estimated one era too early. */
  lemma EraEnds(u: u64)
    requires u == 2_085_978_496 * SECOND
    ensures Recent(Truncated(ToNtp(u)), ToNtp(u)) && Estimate(NewTimestamp(u), u) == u - W32 * SECOND
  {
    assert ToNtp(u) == 0;
    ToTimeSplits(0);
  }

  /** Any delay up to 64 seconds less 3815 nanoseconds will do. */
  lemma DelayIsRecent(send: u64, receive: u64)
    requires InEra(receive) && send <= receive <= send + 64 * SECOND - 3815
    ensures InEra(send) && Recent(Truncated(ToNtp(send)), ToNtp(receive))
  {
    ToNtpScales(send);
    ToNtpScales(receive);
    var n, m := send * W32 / SECOND, receive * W32 / SECOND;
    assert send * W32 - SECOND < n * SECOND <= send * W32;
    assert receive * W32 - SECOND < m * SECOND <= receive * W32;
    ModOnce(ToNtp(receive) - Truncated(ToNtp(send)));
  }

  /** The bound is attained. */
  lemma LossIsAttained()
    ensures InEra(7629) && 7629 - ToTime(Truncated(ToNtp(7629))) == 3815
  {
    var t := OFFSET * W32 + 16384;
    assert ToNtp(7629) == OFFSET * W32 + 32766;
    assert Truncated(ToNtp(7629)) == t;
    SplitsAt(OFFSET, 16384);
    ToTimeSplits(t);
  }
}
