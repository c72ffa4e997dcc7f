/** Which bytes a Conn takes from its peer: for every input, exactly the frames that may come at that point. */
module WsAcceptance {
  import opened Serial
  import opened Binary
  import opened Wrappers
  import opened WsMask
  import opened WsFrames
  import opened WsReader

  // ---- Frame headers ----

  datatype Head = Head(final: bool, opcode: Opcode, key: Option<Key>, length: nat)

  /** The bytes of a header whose length is written as `code` and `ext`, which need not be its shortest form. */
  function Wire(h: Head, code: nat, ext: Bytes): Bytes
    requires code < 128
  {
    [h.opcode + if h.final then 128 else 0] + [code + if h.key.Some? then 128 else 0] + ext
    + if h.key.Some? then h.key.value else []
  }

  /** The unread input goes on with this header, and then with `rest`. */
  predicate Comes(r: Reading, h: Head, code: nat, ext: Bytes, rest: Bytes) {
    && code < 128 && LengthReads(code, ext, h.length)
    && r.remaining <= |r.input| && r.input[r.remaining..] == Wire(h, code, ext) + rest
  }

  /** A control frame comes whole and short, at any time; a message starts only when the last one is finished, and
      only a message that is not is continued. */
  predicate InOrder(h: Head, code: nat, finished: bool) {
    if h.opcode in {CLOSE, PING, PONG} then h.final && code <= 125
    else if finished then h.opcode in {TEXT, BINARY}
    else h.opcode == CONTINUATION
  }

  /** Lengths are signed 64-bit integers, and a read limit applies to the message as a whole. */
  predicate TooLong(h: Head, side: Side, sofar: nat) {
    || h.length >= INT64_LIMIT
    || (!IsControl(h.opcode) && (sofar + h.length >= INT64_LIMIT || (side.limit > 0 && sofar + h.length > side.limit)))
  }

  /** Servers take masked frames only, clients only unmasked ones. */
  predicate Legal(h: Head, code: nat, r: Reading, side: Side) {
    InOrder(h, code, r.final) && h.key.Some? == side.isServer && !TooLong(h, side, r.length)
  }

  function Unmasked(h: Head, b: Bytes): Bytes { if h.key.Some? then Mask(h.key.value, 0, b) else b }

  function Past(r: Reading, h: Head, input: Bytes, remaining: nat, final: bool, length: nat): Reading {
    if h.key.Some? then Reading(input, remaining, final, length, 0, h.key.value)
    else Reading(input, remaining, final, length, r.maskPos, r.key)
  }

  /** What taking a frame with this header gives. */
  function Taken(r: Reading, h: Head, rest: Bytes): Advanced {
    if !IsControl(h.opcode) then GotData(h.opcode, Past(r, h, rest, h.length, h.final, r.length + h.length))
    else if |rest| < h.length then Failed(EndOfInput)
    else if h.opcode == CLOSE then Failed(Closing(Unmasked(h, rest[..h.length])))
    else GotControl(Message(h.opcode, Unmasked(h, rest[..h.length])),
                    Past(r, h, rest[h.length..], 0, r.final, r.length))
  }

  /** What a header leads to: it is taken, or refused for what is wrong with it. */
  function Verdict(r: Reading, side: Side, h: Head, code: nat, rest: Bytes): Advanced {
    if Legal(h, code, r, side) then Taken(r, h, rest)
    else if InOrder(h, code, r.final) && (h.length >= INT64_LIMIT || h.key.Some? == side.isServer)
    then Failed(ReadLimit)
    else Failed(ProtocolError)
  }

  lemma FirstByte(opcode: Opcode, final: bool)
    ensures var b := opcode + if final then 128 else 0; b % 16 == opcode && b / 16 % 8 == 0 && (b >= 128 <==> final)
  {}

  lemma SecondByte(code: nat, masked: bool)
    requires code < 128
    ensures var b := code + if masked then 128 else 0; b % 128 == code && (b >= 128 <==> masked)
  {}

  lemma PayloadDecides(r: Reading, side: Side, h: Head, rest: Bytes)
    requires r.input == (if h.key.Some? then h.key.value else []) + rest && h.key.Some? == side.isServer
    ensures AdvancePayload(r, side, h.opcode, h.final, h.key.Some?, h.length) ==
              if !IsControl(h.opcode) && (r.length + h.length >= INT64_LIMIT
                                          || (side.limit > 0 && r.length + h.length > side.limit))
              then Failed(ReadLimit) else Taken(r, h, rest)
  {
    if h.key.Some? {
      assert r.input[..4] == h.key.value && r.input[4..] == rest;
    } else {
      assert r.input == rest;
    }
  }

  lemma BodyDecides(r: Reading, side: Side, h: Head, code: nat, ext: Bytes, rest: Bytes)
    requires code < 128 && LengthReads(code, ext, h.length)
    requires r.input == ext + ((if h.key.Some? then h.key.value else []) + rest)
    ensures AdvanceBody(r, side, h.opcode, h.final, h.key.Some?, code) ==
              if h.length >= INT64_LIMIT then Failed(ReadLimit)
              else if h.key.Some? != side.isServer then Failed(ProtocolError)
              else if TooLong(h, side, r.length) then Failed(ReadLimit)
              else Taken(r, h, rest)
  {
    var tail := (if h.key.Some? then h.key.value else []) + rest;
    SplitAt(ext, tail);
    if h.key.Some? == side.isServer { PayloadDecides(r.(input := tail), side, h, rest); }
  }

  lemma OrderIsAllowed(h: Head, code: nat, finished: bool)
    ensures Allowed(h.opcode, code, h.final, finished) <==> InOrder(h, code, finished)
  {}

  lemma FrontDecides(r: Reading, side: Side, b0: u8, b1: u8, tail: Bytes, opcode: int, final: bool, masked: bool,
                     code: nat)
    requires r.remaining <= |r.input| && r.input[r.remaining..] == [b0] + [b1] + tail && b0 / 16 % 8 == 0
    requires opcode == b0 % 16 && final == (b0 >= 128) && masked == (b1 >= 128) && code == b1 % 128
    ensures Advance(r, side) == if !Allowed(opcode, code, final, r.final) then Failed(ProtocolError)
                                else AdvanceBody(r.(input := tail, remaining := 0), side, opcode, final, masked, code)
  {
    var p := r.input[r.remaining..];
    assert p[0] == b0 && p[1] == b1 && p[2..] == tail;
  }

  lemma WireParts(h: Head, code: nat, ext: Bytes, rest: Bytes)
    requires code < 128
    ensures Wire(h, code, ext) + rest
         == [h.opcode + if h.final then 128 else 0] + [code + if h.key.Some? then 128 else 0]
            + (ext + ((if h.key.Some? then h.key.value else []) + rest))
  {}

  lemma VerdictIs(r: Reading, r1: Reading, side: Side, h: Head, code: nat, rest: Bytes, x: Advanced)
    requires r1 == r.(input := r1.input, remaining := 0)
    requires x == if h.length >= INT64_LIMIT then Failed(ReadLimit)
                  else if h.key.Some? != side.isServer then Failed(ProtocolError)
                  else if TooLong(h, side, r1.length) then Failed(ReadLimit)
                  else Taken(r1, h, rest)
    ensures (if InOrder(h, code, r.final) then x else Failed(ProtocolError)) == Verdict(r, side, h, code, rest)
  {}

  lemma BytesDecide(r: Reading, side: Side, b0: u8, b1: u8, tail: Bytes, h: Head, code: nat, ext: Bytes, rest: Bytes)
    requires r.remaining <= |r.input| && r.input[r.remaining..] == [b0] + [b1] + tail && b0 / 16 % 8 == 0
    requires h.opcode == b0 % 16 && h.final == (b0 >= 128) && h.key.Some? == (b1 >= 128) && code == b1 % 128
    requires LengthReads(code, ext, h.length) && tail == ext + ((if h.key.Some? then h.key.value else []) + rest)
    ensures Advance(r, side) == Verdict(r, side, h, code, rest)
  {
    var r1 := r.(input := tail, remaining := 0);
    FrontDecides(r, side, b0, b1, tail, h.opcode, h.final, h.key.Some?, code);
    OrderIsAllowed(h, code, r.final);
    BodyDecides(r1, side, h, code, ext, rest);
    VerdictIs(r, r1, side, h, code, rest, AdvanceBody(r1, side, h.opcode, h.final, h.key.Some?, code));
  }

  /** Every header that comes is decided by what it says. */
  lemma HeaderDecides(r: Reading, side: Side, h: Head, code: nat, ext: Bytes, rest: Bytes)
    requires Comes(r, h, code, ext, rest)
    ensures Advance(r, side) == Verdict(r, side, h, code, rest)
  {
    var b0, b1 := h.opcode + if h.final then 128 else 0, code + if h.key.Some? then 128 else 0;
    var tail := ext + ((if h.key.Some? then h.key.value else []) + rest);
    FirstByte(h.opcode, h.final);
    SecondByte(code, h.key.Some?);
    WireParts(h, code, ext, rest);
    BytesDecide(r, side, b0, b1, tail, h, code, ext, rest);
  }

  /** What is taken off the front of the input. */
  function HeadOf(p: Bytes): Head
    requires |p| >= 2 && |p| >= 2 + ExtSize(p[1] % 128) + if p[1] >= 128 then 4 else 0
  {
    var code, e := p[1] % 128, ExtSize(p[1] % 128);
    Head(p[0] >= 128, p[0] % 16, if p[1] >= 128 then Some(p[2 + e..6 + e]) else None,
         if e == 0 then code else BeValue(p[2..2 + e]))
  }

  lemma TwoBytes(b0: u8, b1: u8)
    requires b0 / 16 % 8 == 0
    ensures b0 == b0 % 16 + (if b0 >= 128 then 128 else 0) && b1 == b1 % 128 + if b1 >= 128 then 128 else 0
  {}

  lemma FiveParts(p: Bytes, i: nat, k: nat)
    requires 2 <= i <= k <= |p|
    ensures p == [p[0]] + [p[1]] + p[2..i] + p[i..k] + p[k..]
  {}

  lemma LengthIsRead(code: nat, ext: Bytes)
    requires code < 128 && |ext| == ExtSize(code)
    ensures LengthReads(code, ext, if |ext| == 0 then code else BeValue(ext))
  {}

  lemma HeadComes(r: Reading, p: Bytes) returns (h: Head, code: nat, ext: Bytes, rest: Bytes)
    requires r.remaining <= |r.input| && p == r.input[r.remaining..] && |p| >= 2 && p[0] / 16 % 8 == 0
    requires |p| >= 2 + ExtSize(p[1] % 128) + if p[1] >= 128 then 4 else 0
    ensures Comes(r, h, code, ext, rest)
  {
    code := p[1] % 128;
    var e := ExtSize(code);
    var k := 2 + e + if p[1] >= 128 then 4 else 0;
    h, ext, rest := HeadOf(p), p[2..2 + e], p[k..];
    LengthIsRead(code, ext);
    TwoBytes(p[0], p[1]);
    FiveParts(p, 2 + e, k);
  }

  /** Whatever is taken, from any input, is a frame with a legal header, and nothing but that frame is taken; the only
      frame that ends the connection in order is a close frame. */
  lemma OnlyLegalIsTaken(r: Reading, side: Side) returns (h: Head, code: nat, ext: Bytes, rest: Bytes)
    requires var x := Advance(r, side); !x.Failed? || x.why.CloseReceived?
    ensures Comes(r, h, code, ext, rest) && Legal(h, code, r, side) && Advance(r, side) == Taken(r, h, rest)
    ensures Advance(r, side).Failed? ==> h.opcode == CLOSE
  {
    var p := r.input[r.remaining..];
    h, code, ext, rest := HeadComes(r, p);
    HeaderDecides(r, side, h, code, ext, rest);
  }

  // ---- Close frames ----

  /** A Unicode scalar value: no surrogate. */
  predicate Scalar(c: nat) { c < 0x11_0000 && !(0xD800 <= c < 0xE000) }

  /** Its encoding (section 3 of RFC 3629). */
  function Utf8(c: nat): Bytes
    requires Scalar(c)
  {
    if c < 0x80 then [c]
    else if c < 0x800 then [0xC0 + c / 0x40, 0x80 + c % 0x40]
    else if c < 0x1_0000 then [0xE0 + c / 0x1000, 0x80 + c / 0x40 % 0x40, 0x80 + c % 0x40]
    else [0xF0 + c / 0x4_0000, 0x80 + c / 0x1000 % 0x40, 0x80 + c / 0x40 % 0x40, 0x80 + c % 0x40]
  }

  predicate IsText(cs: seq<nat>) { forall i :: 0 <= i < |cs| ==> Scalar(cs[i]) }

  function Text(cs: seq<nat>): Bytes
    requires IsText(cs)
  {
    if cs == [] then [] else Utf8(cs[0]) + Text(cs[1..])
  }

  lemma CharIsRead(c: nat, rest: Bytes)
    requires Scalar(c)
    ensures CharSize(Utf8(c) + rest) == |Utf8(c)| > 0
  {
    var b := Utf8(c);
    assert forall i :: 0 <= i < |b| ==> (b + rest)[i] == b[i];
  }

  lemma Digits(a: nat, d: nat)
    requires d < 0x40
    ensures var c := 0x40 * a + d;
            c / 0x40 == a && c % 0x40 == d && c / 0x1000 == a / 0x40 && c / 0x4_0000 == a / 0x1000
  {}

  lemma TwoByteChar(x: nat, y: nat) returns (c: nat)
    requires 0xC2 <= x <= 0xDF && 0x80 <= y <= 0xBF
    ensures Scalar(c) && Utf8(c) == [x, y]
  {
    Digits(x - 0xC0, y - 0x80);
    c := 0x40 * (x - 0xC0) + (y - 0x80);
  }

  lemma ThreeByteChar(x: nat, y: nat, z: nat) returns (c: nat)
    requires 0xE0 <= x <= 0xEF && 0x80 <= y <= 0xBF && 0x80 <= z <= 0xBF
    requires !(x == 0xE0 && y < 0xA0) && !(x == 0xED && y > 0x9F)
    ensures Scalar(c) && Utf8(c) == [x, y, z]
  {
    var a := 0x40 * (x - 0xE0) + (y - 0x80);
    Digits(x - 0xE0, y - 0x80);
    Digits(a, z - 0x80);
    c := 0x40 * a + (z - 0x80);
  }

  lemma FourByteChar(x: nat, y: nat, z: nat, w: nat) returns (c: nat)
    requires 0xF0 <= x <= 0xF4 && 0x80 <= y <= 0xBF && 0x80 <= z <= 0xBF && 0x80 <= w <= 0xBF
    requires !(x == 0xF0 && y < 0x90) && !(x == 0xF4 && y > 0x8F)
    ensures Scalar(c) && Utf8(c) == [x, y, z, w]
  {
    var a := 0x40 * (x - 0xF0) + (y - 0x80);
    Digits(x - 0xF0, y - 0x80);
    Digits(a, z - 0x80);
    Digits(0x40 * a + (z - 0x80), w - 0x80);
    c := 0x40 * (0x40 * a + (z - 0x80)) + (w - 0x80);
  }

  lemma CharIsEncoded(b: Bytes) returns (c: nat)
    requires CharSize(b) > 0
    ensures Scalar(c) && CharSize(b) <= |b| && b[..CharSize(b)] == Utf8(c)
  {
    if b[0] < 0x80 {
      c := b[0];
    } else if b[0] <= 0xDF {
      c := TwoByteChar(b[0], b[1]);
    } else if b[0] <= 0xEF {
      c := ThreeByteChar(b[0], b[1], b[2]);
    } else {
      c := FourByteChar(b[0], b[1], b[2], b[3]);
    }
  }

  lemma {:induction false} TextIsValid(cs: seq<nat>)
    requires IsText(cs)
    ensures ValidUtf8(Text(cs))
  {
    if cs != [] {
      CharIsRead(cs[0], Text(cs[1..]));
      SplitAt(Utf8(cs[0]), Text(cs[1..]));
      TextIsValid(cs[1..]);
    }
  }

  lemma {:induction false} ValidIsText(b: Bytes) returns (cs: seq<nat>)
    requires ValidUtf8(b)
    ensures IsText(cs) && Text(cs) == b
    decreases |b|
  {
    if b == [] {
      cs := [];
    } else {
      var n := CharSize(b);
      var c := CharIsEncoded(b);
      var rest := ValidIsText(b[n..]);
      cs := [c] + rest;
      assert cs[1..] == rest && b == b[..n] + b[n..];
    }
  }

  function Status(payload: Bytes): nat
    requires |payload| >= 2
  {
    256 * (payload[0] as int) + payload[1]
  }

  lemma StatusIsBigEndian(payload: Bytes)
    requires |payload| >= 2
    ensures BeValue(payload[..2]) == Status(payload)
  {
    var p := payload[..2];
    assert p[..1][..0] == [] && p[..1] == [p[0]];
    assert BeValue(p[..1]) == 256 * BeValue(p[..1][..0]) + p[0];
  }

  /** The bytes encode Unicode text. */
  ghost predicate Encodes(b: Bytes) { exists cs :: IsText(cs) && Text(cs) == b }

  /** A close frame ends the connection in order exactly if it has no status, or a status that may be sent and a reason
      that is the UTF-8 encoding of Unicode text; any other is a protocol error. */
  lemma ClosesInOrder(payload: Bytes)
    ensures |payload| < 2 ==> Closing(payload) == CloseReceived(1005, [])
    ensures |payload| >= 2 ==>
              Closing(payload) == if ValidCloseCode(Status(payload)) && Encodes(payload[2..])
                                  then CloseReceived(Status(payload), payload[2..]) else ProtocolError
  {
    if |payload| >= 2 {
      StatusIsBigEndian(payload);
      if ValidUtf8(payload[2..]) {
        var cs := ValidIsText(payload[2..]);
      } else {
        forall cs | IsText(cs) ensures Text(cs) != payload[2..] { TextIsValid(cs); }
      }
    }
  }
}
