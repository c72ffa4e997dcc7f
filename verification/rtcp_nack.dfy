/** Compressing lists of lost sequence numbers into NACK pairs (section 6.2.1 of RFC 4585). */
module RtcpNack {
  import opened Serial
  import opened Binary
  import opened RtcpPackets

  /** A pair as the algorithm sees it: bit `i` of the bitmap stands for the packet i + 1 after the first. */
  datatype Pair = Pair(packetID: u16, lost: set<nat>)

  /** 16-bit addition and subtraction. */
  function Add16(a: u16, n: u16): u16 { if a + n < 0x1_0000 then a + n else a + n - 0x1_0000 }
  function Sub16(a: u16, b: u16): u16 { if a >= b then a - b else a - b + 0x1_0000 }

  // ---- The bitmap on the wire ----

  predicate Bit(x: nat, i: nat) { if i == 0 then x % 2 == 1 else Bit(x / 2, i - 1) }

  function MaskFrom(lost: set<nat>, i: nat): nat
    requires i <= 16
    decreases 16 - i, lost
  {
    if i == 16 then 0 else (if i in lost then 1 else 0) + 2 * MaskFrom(lost, i + 1)
  }

  lemma {:induction false} BitOfMask(lost: set<nat>, i: nat, j: nat)
    requires i + j < 16
    ensures Bit(MaskFrom(lost, i), j) <==> i + j in lost
    decreases j
  {
    if j > 0 {
      BitOfMask(lost, i + 1, j - 1);
      assert MaskFrom(lost, i) / 2 == MaskFrom(lost, i + 1);
    }
  }

  lemma {:induction false} MaskBound(lost: set<nat>, i: nat, bound: nat)
    requires i <= 16 && bound == Shift(1, 16 - i)
    ensures MaskFrom(lost, i) < bound
    decreases 16 - i
  {
    if i < 16 { MaskBound(lost, i + 1, Shift(1, 15 - i)); }
  }

  function OnWire(p: Pair): NackPair {
    MaskBound(p.lost, 0, Shift(1, 16)); Shifts();
    NackPair(p.packetID, MaskFrom(p.lost, 0))
  }

  function FromWire(n: NackPair): Pair {
    Pair(n.packetID, set i | 0 <= i < 16 && Bit(n.lostPackets, i))
  }

  predicate Fits(p: Pair) { forall i :: i in p.lost ==> i < 16 }

  /** The 16-bit field carries exactly the sixteen flags. */
  lemma WireRoundTrip(p: Pair)
    requires Fits(p)
    ensures FromWire(OnWire(p)) == p
  {
    forall i | 0 <= i < 16 ensures Bit(MaskFrom(p.lost, 0), i) <==> i in p.lost { BitOfMask(p.lost, 0, i); }
  }

  lemma {:induction false} MaskOfBits(lost: set<nat>, x: nat, i: nat)
    requires i <= 16 && x < Shift(1, 16 - i) && forall j :: 0 <= j < 16 - i ==> (Bit(x, j) <==> i + j in lost)
    ensures MaskFrom(lost, i) == x
    decreases 16 - i
  {
    if i < 16 {
      assert Bit(x, 0) <==> i in lost;
      forall j | 0 <= j < 15 - i ensures Bit(x / 2, j) <==> i + 1 + j in lost {
        assert Bit(x, j + 1) <==> i + (j + 1) in lost;
      }
      MaskOfBits(lost, x / 2, i + 1);
    }
  }

  /** Every 16-bit field is the bitmap of its flags, so sets of bits below 16 are a faithful view of it. */
  lemma FieldRoundTrip(n: NackPair)
    ensures Fits(FromWire(n)) && OnWire(FromWire(n)) == n
  {
    Shifts();
    MaskOfBits(FromWire(n).lost, n.lostPackets, 0);
  }

  // ---- NackPairsFromSequenceNumbers ----

  /** One more number within reach of the pair; the first number itself sets no bit. */
  function Include(p: Pair, m: u16): Pair {
    var d := Sub16(m, p.packetID);
    if 1 <= d <= 16 then p.(lost := p.lost + {d - 1}) else p
  }

  function PairsFrom(p: Pair, rest: seq<u16>): (ps: seq<Pair>)
    ensures |ps| >= 1
    decreases |rest|
  {
    if rest == [] then [p]
    else if Sub16(rest[0], p.packetID) > 16 then [p] + PairsFrom(Pair(rest[0], {}), rest[1..])
    else PairsFrom(Include(p, rest[0]), rest[1..])
  }

  function Pairs(numbers: seq<u16>): seq<Pair> {
    if numbers == [] then [] else PairsFrom(Pair(numbers[0], {}), numbers[1..])
  }

  method NackPairsFromSequenceNumbers(numbers: seq<u16>) returns (pairs: seq<Pair>)
    ensures pairs == Pairs(numbers)
  {
    pairs := [];
    if |numbers| == 0 { return; }
    var p := Pair(numbers[0], {});
    var i := 1;
    while i < |numbers|
      invariant 1 <= i <= |numbers| && pairs + PairsFrom(p, numbers[i..]) == Pairs(numbers)
    {
      var m := numbers[i];
      assert numbers[i..][0] == m && numbers[i..][1..] == numbers[i + 1..];
      if Sub16(m, p.packetID) > 16 {
        assert pairs + ([p] + PairsFrom(Pair(m, {}), numbers[i + 1..])) ==
                 pairs + [p] + PairsFrom(Pair(m, {}), numbers[i + 1..]);
        pairs := pairs + [p];
        p := Pair(m, {});
      } else if m != p.packetID {
        p := p.(lost := p.lost + {Sub16(m, p.packetID) - 1});
      }
      i := i + 1;
    }
    pairs := pairs + [p];
  }

  // ---- Range and PacketList ----

  function Expand(id: u16, lost: set<nat>, i: nat): seq<u16>
    decreases 16 - i, lost
  {
    if i >= 16 then [] else (if i in lost then [Add16(id, i + 1)] else []) + Expand(id, lost, i + 1)
  }

  function PacketList(p: Pair): seq<u16> { [p.packetID] + Expand(p.packetID, p.lost, 0) }

  lemma Associates(a: seq<u16>, b: seq<u16>, c: seq<u16>)
    ensures a + b + c == a + (b + c)
  {}

  lemma ExpandStep(out: seq<u16>, p: Pair, i: nat)
    requires i < 16
    ensures var rest := Expand(p.packetID, p.lost, i + 1);
            out + Expand(p.packetID, p.lost, i) ==
              if i in p.lost then out + [Add16(p.packetID, i + 1)] + rest else out + rest
  {
    var rest := Expand(p.packetID, p.lost, i + 1);
    Associates(out, [Add16(p.packetID, i + 1)], rest);
    assert [] + rest == rest;
  }

  /** Range stops as soon as the bitmap is used up. */
  method RangeAll(p: Pair) returns (out: seq<u16>)
    requires Fits(p)
    ensures out == PacketList(p)
  {
    out := [p.packetID];
    var b, i := p.lost, 0;
    while b != {}
      invariant 0 <= i <= 16 && b == (set k | k in p.lost && k >= i)
      invariant out + Expand(p.packetID, p.lost, i) == PacketList(p)
      decreases 16 - i
    {
      ghost var k :| k in b;
      ExpandStep(out, p, i);
      if i in b {
        b := b - {i};
        out := out + [Add16(p.packetID, i + 1)];
      }
      i := i + 1;
    }
    forall k | k in p.lost ensures k < i { assert k >= i ==> k in b; }
    NothingLeft(p.packetID, p.lost, i);
    assert out + [] == out;
  }

  lemma {:induction false} NothingLeft(id: u16, lost: set<nat>, i: nat)
    requires forall k :: k in lost ==> k < i
    ensures Expand(id, lost, i) == []
    decreases 16 - i
  {
    if i < 16 { NothingLeft(id, lost, i + 1); }
  }

  function ExpandAll(ps: seq<Pair>): seq<u16> {
    if ps == [] then [] else PacketList(ps[0]) + ExpandAll(ps[1..])
  }

  // ---- Exactness ----

  predicate Reaches(p: Pair, m: u16) {
    m == p.packetID || exists i :: i in p.lost && i < 16 && m == Add16(p.packetID, i + 1)
  }

  predicate Covered(ps: seq<Pair>, m: u16) {
    exists j :: 0 <= j < |ps| && Reaches(ps[j], m)
  }

  lemma IncludeReaches(p: Pair, x: u16, m: u16)
    requires Sub16(x, p.packetID) <= 16
    ensures Reaches(Include(p, x), m) <==> Reaches(p, m) || m == x
  {
    var q, d := Include(p, x), Sub16(x, p.packetID);
    if d >= 1 {
      assert Add16(p.packetID, d) == x;
      if m == x { assert d - 1 in q.lost && m == Add16(q.packetID, (d - 1) + 1); }
      if Reaches(p, m) && m != p.packetID {
        var i :| i in p.lost && i < 16 && m == Add16(p.packetID, i + 1);
        assert i in q.lost;
      }
    }
  }

  lemma CoveredCons(p: Pair, ps: seq<Pair>, m: u16)
    ensures Covered([p] + ps, m) <==> Reaches(p, m) || Covered(ps, m)
  {
    var all := [p] + ps;
    if Reaches(p, m) { assert Reaches(all[0], m); }
    if Covered(ps, m) {
      var j :| 0 <= j < |ps| && Reaches(ps[j], m);
      assert Reaches(all[j + 1], m);
    }
  }

  lemma {:induction false} PairsFromExact(p: Pair, rest: seq<u16>, m: u16)
    ensures Covered(PairsFrom(p, rest), m) <==> Reaches(p, m) || m in rest
    decreases |rest|
  {
    if rest == [] {
      assert PairsFrom(p, rest)[0] == p;
    } else {
      assert m in rest <==> m == rest[0] || m in rest[1..];
      if Sub16(rest[0], p.packetID) > 16 {
        PairsFromExact(Pair(rest[0], {}), rest[1..], m);
        CoveredCons(p, PairsFrom(Pair(rest[0], {}), rest[1..]), m);
      } else {
        PairsFromExact(Include(p, rest[0]), rest[1..], m);
        IncludeReaches(p, rest[0], m);
      }
    }
  }

  lemma {:induction false} ExpandMember(id: u16, lost: set<nat>, i: nat, m: u16)
    ensures m in Expand(id, lost, i) <==> exists k :: k in lost && i <= k < 16 && m == Add16(id, k + 1)
    decreases 16 - i
  {
    if i < 16 { ExpandMember(id, lost, i + 1, m); }
  }

  /** The expansion lists exactly the numbers that the pairs reach. */
  lemma {:induction false} ExpandAllMember(ps: seq<Pair>, m: u16)
    ensures m in ExpandAll(ps) <==> Covered(ps, m)
    decreases |ps|
  {
    if ps != [] {
      ExpandMember(ps[0].packetID, ps[0].lost, 0, m);
      ExpandAllMember(ps[1..], m);
      assert ps == [ps[0]] + ps[1..];
      CoveredCons(ps[0], ps[1..], m);
    }
  }

  predicate AllFit(ps: seq<Pair>) { forall i :: 0 <= i < |ps| ==> Fits(ps[i]) }

  lemma {:induction false} PairsFromFit(p: Pair, rest: seq<u16>)
    requires Fits(p)
    ensures AllFit(PairsFrom(p, rest))
    decreases |rest|
  {
    if rest != [] {
      if Sub16(rest[0], p.packetID) > 16 {
        PairsFromFit(Pair(rest[0], {}), rest[1..]);
      } else {
        PairsFromFit(Include(p, rest[0]), rest[1..]);
      }
    }
  }

  /** The pairs as sent in 16-bit fields and received. */
  function Received(ps: seq<Pair>): seq<Pair> {
    if ps == [] then [] else [FromWire(OnWire(ps[0]))] + Received(ps[1..])
  }

  lemma {:induction false} ReceivedAsSent(ps: seq<Pair>)
    requires AllFit(ps)
    ensures Received(ps) == ps
  {
    if ps != [] {
      WireRoundTrip(ps[0]);
      ReceivedAsSent(ps[1..]);
    }
  }

  /** Every pair the compression makes fits its field and arrives as it was. */
  lemma PairsArrive(numbers: seq<u16>)
    ensures AllFit(Pairs(numbers)) && Received(Pairs(numbers)) == Pairs(numbers)
  {
    if numbers != [] { PairsFromFit(Pair(numbers[0], {}), numbers[1..]); }
    ReceivedAsSent(Pairs(numbers));
  }

  /** For every list of sequence numbers, in any order, with repetitions and across the 16-bit wrap, the
      pairs, sent in their 16-bit fields, expand to exactly the numbers given. */
  lemma CompressionIsExact(numbers: seq<u16>, m: u16)
    ensures m in ExpandAll(Received(Pairs(numbers))) <==> m in numbers
  {
    PairsArrive(numbers);
    ExpandAllMember(Pairs(numbers), m);
    if numbers != [] {
      PairsFromExact(Pair(numbers[0], {}), numbers[1..], m);
      assert m in numbers <==> m == numbers[0] || m in numbers[1..];
    }
  }

  // ---- Increasing lists ----

  predicate Increasing(numbers: seq<u16>) {
    forall i, j :: 0 <= i < j < |numbers| ==> numbers[i] < numbers[j]
  }

  lemma {:induction false} ExpandGrows(id: u16, lost: set<nat>, i: nat, k: nat)
    requires i <= k < 16 && forall b :: b in lost ==> b < k
    ensures Expand(id, lost + {k}, i) == Expand(id, lost, i) + [Add16(id, k + 1)]
    decreases 16 - i
  {
    if i < k {
      ExpandGrows(id, lost, i + 1, k);
    } else {
      NothingLeft(id, lost + {k}, k + 1);
      NothingLeft(id, lost, k);
    }
  }

  /** All bits set so far stand for numbers below `m`. */
  predicate Below(p: Pair, m: u16) {
    p.packetID < m && forall b :: b in p.lost ==> b < 16 && p.packetID + b + 1 < m
  }

  /** A number within reach is appended to what the pair expands to. */
  lemma IncludeExpands(p: Pair, m: u16)
    requires Below(p, m) && m - p.packetID <= 16
    ensures PacketList(Include(p, m)) == PacketList(p) + [m]
  {
    var d := m - p.packetID;
    ExpandGrows(p.packetID, p.lost, 0, d - 1);
    assert Add16(p.packetID, d) == m;
    var x := Expand(p.packetID, p.lost, 0);
    assert [p.packetID] + (x + [m]) == [p.packetID] + x + [m];
  }

  lemma IncludeBelow(p: Pair, m: u16, next: u16)
    requires Below(p, m) && m - p.packetID <= 16 && m < next
    ensures Below(Include(p, m), next)
  {}

  lemma PrependExpands(p: Pair, ps: seq<Pair>)
    ensures ExpandAll([p] + ps) == PacketList(p) + ExpandAll(ps)
  {
    assert ([p] + ps)[1..] == ps;
  }

  lemma {:induction false} IncreasingExpands(p: Pair, rest: seq<u16>)
    requires Increasing(rest) && (rest != [] ==> Below(p, rest[0]))
    ensures ExpandAll(PairsFrom(p, rest)) == PacketList(p) + rest
    decreases |rest|
  {
    if rest == [] {
      PrependExpands(p, []);
      assert [p] + [] == [p];
    } else {
      var m, tail := rest[0], rest[1..];
      assert rest == [m] + tail;
      if Sub16(m, p.packetID) > 16 {
        var q := Pair(m, {});
        IncreasingExpands(q, tail);
        NothingLeft(m, {}, 0);
        PrependExpands(p, PairsFrom(q, tail));
      } else {
        if tail != [] { IncludeBelow(p, m, tail[0]); }
        IncreasingExpands(Include(p, m), tail);
        IncludeExpands(p, m);
        Associates(PacketList(p), [m], tail);
      }
    }
  }

  /** For a strictly increasing list the expansion is the list itself, in order. */
  lemma IncreasingRoundTrip(numbers: seq<u16>)
    requires Increasing(numbers)
    ensures ExpandAll(Received(Pairs(numbers))) == numbers
  {
    PairsArrive(numbers);
    if numbers != [] {
      IncreasingExpands(Pair(numbers[0], {}), numbers[1..]);
      NothingLeft(numbers[0], {}, 0);
      assert numbers == [numbers[0]] + numbers[1..];
    }
  }

  // ---- Optimality ----

  /** Heads of the pairs: each more than 16 above the one before. */
  predicate Spread(hs: seq<u16>) {
    forall i, j :: 0 <= i < j < |hs| ==> Far(hs[i], hs[j])
  }

  predicate Far(a: int, b: int) { a + 16 < b }

  function Heads(ps: seq<Pair>): (hs: seq<u16>)
    ensures |hs| == |ps|
  {
    if ps == [] then [] else [ps[0].packetID] + Heads(ps[1..])
  }

  predicate InWindow(w: nat, m: u16) { w <= m <= w + 16 }

  predicate CoveredBy(ws: seq<nat>, m: u16) { exists j :: 0 <= j < |ws| && InWindow(ws[j], m) }

  lemma {:induction false} HeadsSpread(p: Pair, rest: seq<u16>)
    requires Increasing(rest) && (rest != [] ==> p.packetID < rest[0])
    ensures var hs := Heads(PairsFrom(p, rest));
            && Spread(hs) && hs[0] == p.packetID
            && forall i :: 1 <= i < |hs| ==> hs[i] in rest
    decreases |rest|
  {
    if rest != [] {
      assert Increasing(rest[1..]);
      if Sub16(rest[0], p.packetID) > 16 {
        HeadsSpread(Pair(rest[0], {}), rest[1..]);
        var hs := Heads(PairsFrom(Pair(rest[0], {}), rest[1..]));
        var all := [p.packetID] + hs;
        assert Heads(PairsFrom(p, rest)) == all;
        forall i, j | 0 <= i < j < |all| ensures Far(all[i], all[j]) {
          if i == 0 && j > 1 { assert Far(hs[0], hs[j - 1]); }
        }
      } else {
        HeadsSpread(Include(p, rest[0]), rest[1..]);
      }
    }
  }

  lemma {:induction false} WindowsNeeded(hs: seq<u16>, ws: seq<nat>)
    requires Spread(hs) && forall i :: 0 <= i < |hs| ==> CoveredBy(ws, hs[i])
    ensures |hs| <= |ws|
    decreases |hs|
  {
    if hs != [] {
      var j :| 0 <= j < |ws| && InWindow(ws[j], hs[0]);
      var others := ws[..j] + ws[j + 1..];
      forall i | 0 <= i < |hs| - 1 ensures CoveredBy(others, hs[1..][i]) {
        assert CoveredBy(ws, hs[i + 1]) && Far(hs[0], hs[i + 1]);
        var k :| 0 <= k < |ws| && InWindow(ws[k], hs[i + 1]);
        assert others[if k < j then k else k - 1] == ws[k];
      }
      WindowsNeeded(hs[1..], others);
    }
  }

  /** No family of 17-wide windows that covers a strictly increasing list is smaller than its pairs. */
  lemma CompressionIsOptimal(numbers: seq<u16>, ws: seq<nat>)
    requires Increasing(numbers) && forall i :: 0 <= i < |numbers| ==> CoveredBy(ws, numbers[i])
    ensures |Pairs(numbers)| <= |ws|
  {
    if numbers != [] {
      var p, rest := Pair(numbers[0], {}), numbers[1..];
      HeadsSpread(p, rest);
      var hs := Heads(PairsFrom(p, rest));
      forall i | 0 <= i < |hs| ensures CoveredBy(ws, hs[i]) {
        if i == 0 { assert hs[0] == numbers[0]; } else {
          assert hs[i] in rest;
          var k :| 0 <= k < |rest| && rest[k] == hs[i];
          assert CoveredBy(ws, numbers[k + 1]);
        }
      }
      WindowsNeeded(hs, ws);
    }
  }
}
