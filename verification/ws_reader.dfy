/** The reading half of a Conn as functions on the bytes still unread, for arbitrary input. */
module WsReader {
  import opened Serial
  import opened Binary
  import opened Wrappers
  import opened WsMask
  import opened WsFrames

  const INT64_LIMIT := 0x8000_0000_0000_0000

  /** `remaining` counts the payload bytes left in the current frame, `length` those of the message so far. */
  datatype Reading = Reading(input: Bytes, remaining: nat, final: bool, length: nat, maskPos: nat, key: Key)

  datatype Side = Side(isServer: bool, limit: nat)

  datatype ReadError = EndOfInput | ProtocolError | ReadLimit | CloseReceived(code: nat, text: Bytes)

  datatype Advanced =
    | Failed(why: ReadError)
    | GotData(opcode: int, r: Reading)
    | GotControl(m: Message, r: Reading)

  // ---- Close frames ----

  const NO_STATUS := 1005

  /** Codes an endpoint may send (section 7.4 of RFC 6455). */
  predicate ValidCloseCode(code: nat) {
    code in {1000, 1001, 1002, 1003, 1007, 1008, 1009, 1010, 1011, 1012, 1013} || 3000 <= code <= 4999
  }

  predicate Tail(b: u8) { 0x80 <= b <= 0xBF }

  /** How many bytes the first character takes, in the well-formed sequences of section 4 of RFC 3629; 0 if none. */
  function CharSize(b: Bytes): nat {
    if b == [] then 0
    else if b[0] < 0x80 then 1
    else if |b| < 2 then 0
    else if 0xC2 <= b[0] <= 0xDF then (if Tail(b[1]) then 2 else 0)
    else if |b| < 3 || !Tail(b[1]) || !Tail(b[2]) then 0
    else if 0xE0 <= b[0] <= 0xEF then
      if (b[0] == 0xE0 && b[1] < 0xA0) || (b[0] == 0xED && b[1] > 0x9F) then 0 else 3
    else if |b| < 4 || !Tail(b[3]) then 0
    else if 0xF0 <= b[0] <= 0xF4 then
      if (b[0] == 0xF0 && b[1] < 0x90) || (b[0] == 0xF4 && b[1] > 0x8F) then 0 else 4
    else 0
  }

  predicate ValidUtf8(b: Bytes)
    decreases |b|
  {
    var n := CharSize(b);
    b == [] || (0 < n <= |b| && ValidUtf8(b[n..]))
  }

  /** What a close frame's payload makes of the connection: an orderly close or a protocol error. */
  function Closing(payload: Bytes): ReadError {
    if |payload| < 2 then CloseReceived(NO_STATUS, [])
    else
      var code := BeValue(payload[..2]);
      if !ValidCloseCode(code) || !ValidUtf8(payload[2..]) then ProtocolError else CloseReceived(code, payload[2..])
  }

  // ---- advanceFrame ----

  /** May a frame with this opcode, length code and final bit come now? */
  predicate Allowed(opcode: int, code: nat, final: bool, messageFinished: bool) {
    if IsControl(opcode) then code <= MAX_CONTROL && final
    else if IsData(opcode) then messageFinished
    else opcode == CONTINUATION && !messageFinished
  }

  function ExtSize(code: nat): nat { if code == 126 then 2 else if code == 127 then 8 else 0 }

  /** After the length: mask key, and either the data frame or the whole control payload. */
  function AdvancePayload(r: Reading, side: Side, opcode: int, final: bool, masked: bool, n: nat): Advanced {
    if masked && |r.input| < 4 then Failed(EndOfInput)
    else
      var key: Key := if masked then r.input[..4] else r.key;
      var body := if masked then r.input[4..] else r.input;
      var pos := if masked then 0 else r.maskPos;
      if IsControl(opcode) then
        if |body| < n then Failed(EndOfInput)
        else
          var payload := if side.isServer then Mask(key, 0, body[..n]) else body[..n];
          if opcode == CLOSE then Failed(Closing(payload))
          else GotControl(Message(opcode, payload), Reading(body[n..], 0, r.final, r.length, pos, key))
      else
        var length := r.length + n;
        if length >= INT64_LIMIT || (side.limit > 0 && length > side.limit) then Failed(ReadLimit)
        else GotData(opcode, Reading(body, n, final, length, pos, key))
  }

  /** After the two fixed header bytes. */
  function AdvanceBody(r: Reading, side: Side, opcode: int, final: bool, masked: bool, code: nat): Advanced {
    var e := ExtSize(code);
    if |r.input| < e then Failed(EndOfInput)
    else
      var n := if e == 0 then code else BeValue(r.input[..e]);
      if n >= INT64_LIMIT then Failed(ReadLimit)
      else if masked != side.isServer then Failed(ProtocolError)
      else AdvancePayload(r.(input := r.input[e..]), side, opcode, final, masked, n)
  }

  function Advance(r: Reading, side: Side): Advanced {
    if |r.input| < r.remaining + 2 then Failed(EndOfInput)
    else
      var p := r.input[r.remaining..];
      var final, opcode, masked, code := p[0] >= 128, p[0] % 16, p[1] >= 128, p[1] % 128;
      if p[0] / 16 % 8 != 0 || !Allowed(opcode, code, final, r.final) then Failed(ProtocolError)
      else AdvanceBody(r.(input := p[2..], remaining := 0), side, opcode, final, masked, code)
  }

  /** Every frame takes at least two bytes, so reading ends on every input. */
  lemma AdvanceConsumes(r: Reading, side: Side)
    ensures var x := Advance(r, side); !x.Failed? ==> |x.r.input| + 2 <= |r.input| - r.remaining
    ensures var x := Advance(r, side); x.GotData? ==> (x.opcode == CONTINUATION <==> !r.final)
  {}

  // ---- NextReader and Read ----

  datatype Found = NotFound(why: ReadError) | Found(opcode: int, r: Reading, controls: seq<Message>)

  /** NextReader: the start of the next message, past control frames and what is left of an unread message. */
  function FindMessage(r: Reading, side: Side, controls: seq<Message>): Found
    decreases |r.input|
  {
    AdvanceConsumes(r, side);
    match Advance(r, side)
    case Failed(why) => NotFound(why)
    case GotControl(m, r') => FindMessage(r', side, controls + [m])
    case GotData(op, r') => if op == CONTINUATION then FindMessage(r', side, controls) else Found(op, r', controls)
  }

  datatype Settled =
    | Broken(why: ReadError)
    | Ended(r: Reading, controls: seq<Message>)
    | Ready(r: Reading, controls: seq<Message>)

  /** Where Read gets to before it takes bytes: inside a frame, or at the end of the message. */
  function Settle(r: Reading, side: Side, controls: seq<Message>): Settled
    decreases |r.input|
  {
    if r.remaining > 0 then Ready(r, controls)
    else if r.final then Ended(r, controls)
    else
      AdvanceConsumes(r, side);
      match Advance(r, side)
      case Failed(why) => Broken(why)
      case GotControl(m, r') => Settle(r', side, controls + [m])
      case GotData(op, r') => Settle(r', side, controls)
  }

  function Plain(r: Reading, side: Side, n: nat): Bytes
    requires n <= |r.input|
  {
    if side.isServer then Mask(r.key, r.maskPos, r.input[..n]) else r.input[..n]
  }

  function Consume(r: Reading, side: Side, n: nat): Reading
    requires n <= |r.input| && n <= r.remaining
  {
    r.(input := r.input[n..], remaining := r.remaining - n,
       maskPos := if side.isServer then (r.maskPos + n) % 4 else r.maskPos)
  }

  datatype Collected = Cut(why: ReadError) | Whole(data: Bytes, r: Reading, controls: seq<Message>)

  /** The rest of the message, frame by frame. */
  function Collect(r: Reading, side: Side, controls: seq<Message>): Collected
    decreases |r.input|, if r.remaining > 0 then 1 else 0
  {
    if r.remaining > 0 then
      if |r.input| < r.remaining then Cut(EndOfInput)
      else Prepend(Plain(r, side, r.remaining), Collect(Consume(r, side, r.remaining), side, controls))
    else if r.final then Whole([], r, controls)
    else
      AdvanceConsumes(r, side);
      match Advance(r, side)
      case Failed(why) => Cut(why)
      case GotControl(m, r') => Collect(r', side, controls + [m])
      case GotData(_, r') => Collect(r', side, controls)
  }

  function Prepend(x: Bytes, c: Collected): Collected {
    if c.Whole? then c.(data := x + c.data) else c
  }

  lemma PrependTwice(x: Bytes, y: Bytes, c: Collected)
    ensures Prepend(x, Prepend(y, c)) == Prepend(x + y, c)
  {
    if c.Whole? { assert x + (y + c.data) == x + y + c.data; }
  }

  /** Settling first changes nothing. */
  lemma {:induction false} CollectSettles(r: Reading, side: Side, controls: seq<Message>)
    ensures Collect(r, side, controls) == match Settle(r, side, controls)
                                          case Broken(why) => Cut(why)
                                          case Ended(r1, c) => Whole([], r1, c)
                                          case Ready(r1, c) => Collect(r1, side, c)
    decreases |r.input|
  {
    if r.remaining == 0 && !r.final {
      AdvanceConsumes(r, side);
      match Advance(r, side)
      case Failed(_) =>
      case GotControl(m, r') => CollectSettles(r', side, controls + [m]);
      case GotData(_, r') => CollectSettles(r', side, controls);
    }
  }

  lemma {:induction false} SettleShrinks(r: Reading, side: Side, controls: seq<Message>)
    ensures var s := Settle(r, side, controls);
            !s.Broken? ==> |s.r.input| <= |r.input| && (s.Ready? ==> s.r.remaining > 0)
    decreases |r.input|
  {
    if r.remaining == 0 && !r.final {
      AdvanceConsumes(r, side);
      match Advance(r, side)
      case Failed(_) =>
      case GotControl(m, r') => SettleShrinks(r', side, controls + [m]);
      case GotData(_, r') => SettleShrinks(r', side, controls);
    }
  }

  lemma ResidueAdds(a: nat, b: nat)
    ensures (a % 4 + b) % 4 == (a + b) % 4
  {}

  lemma MaskContinues(key: Key, pos: nat, x: Bytes, y: Bytes)
    ensures Mask(key, pos, x + y) == Mask(key, pos, x) + Mask(key, (pos + |x|) % 4, y)
  {
    MaskSplits(key, pos, x, y);
    MaskPeriodic(key, pos + |x|, y);
  }

  lemma ConsumeSplits(r: Reading, side: Side, n: nat, m: nat)
    requires n <= m <= |r.input| && m <= r.remaining
    ensures Consume(Consume(r, side, n), side, m - n) == Consume(r, side, m)
  {
    assert r.input[n..][m - n..] == r.input[m..];
    ResidueAdds(r.maskPos + n, m - n);
  }

  lemma PlainSplits(r: Reading, side: Side, n: nat, m: nat)
    requires n <= m <= |r.input| && m <= r.remaining
    ensures Plain(r, side, m) == Plain(r, side, n) + Plain(Consume(r, side, n), side, m - n)
  {
    var x, y := r.input[..n], r.input[n..m];
    assert r.input[..m] == x + y && r.input[n..][..m - n] == y;
    MaskContinues(r.key, r.maskPos, x, y);
  }

  /** Taking any number of bytes first changes nothing: read sizes do not matter. */
  lemma CollectAfterRead(r: Reading, side: Side, controls: seq<Message>, n: nat)
    requires 0 < n <= |r.input| && n <= r.remaining
    ensures Collect(r, side, controls) == Prepend(Plain(r, side, n), Collect(Consume(r, side, n), side, controls))
  {
    if r.remaining <= |r.input| {
      PlainSplits(r, side, n, r.remaining);
      ConsumeSplits(r, side, n, r.remaining);
      var r1 := Consume(r, side, n);
      var rest := Collect(Consume(r, side, r.remaining), side, controls);
      PrependTwice(Plain(r, side, n), Plain(r1, side, r1.remaining), rest);
      assert n == r.remaining ==> Plain(r1, side, 0) == [];
    }
  }

  // ---- The reader as an object ----

  datatype Step = Stopped(why: ReadError) | DataFrame(opcode: int) | ControlFrame

  class Reader {
    const isServer: bool
    const readLimit: nat
    const machine: Machine
    var br: Bytes
    var readRemaining: nat
    var readFinal: bool
    var readLength: nat
    var readMaskPos: nat
    var readMaskKey: Key
    var readErr: Option<ReadError>
    var messageOpen: bool
    var readErrCount: nat
    var controls: seq<Message>

    ghost function Now(): Reading
      reads this
    {
      Reading(br, readRemaining, readFinal, readLength, readMaskPos, readMaskKey)
    }

    ghost function OnSide(): Side { Side(isServer, readLimit) }

    constructor (isServer: bool, readLimit: nat, machine: Machine, input: Bytes)
      ensures Now() == Reading(input, 0, true, 0, 0, [0, 0, 0, 0]) && OnSide() == Side(isServer, readLimit)
      ensures readErr.None? && !messageOpen && readErrCount == 0 && controls == []
    {
      this.isServer, this.readLimit, this.machine, br := isServer, readLimit, machine, input;
      readRemaining, readFinal, readLength, readMaskPos, readMaskKey := 0, true, 0, 0, [0, 0, 0, 0];
      readErr, messageOpen, readErrCount, controls := None, false, 0, [];
    }

    /** The next `n` bytes, if there are as many. */
    method Take(n: nat) returns (p: Option<Bytes>)
      modifies this`br
      ensures if n <= |old(br)| then p == Some(old(br)[..n]) && br == old(br)[n..] else p.None?
    {
      if |br| < n { return None; }
      p := Some(br[..n]);
      br := br[n..];
    }

    method Unmask(key: Key, pos: nat, b: Bytes) returns (r: Bytes, pos': nat)
      ensures if isServer then r == Mask(key, pos, b) && pos' == (pos + |b|) % 4 else r == b && pos' == pos
    {
      if !isServer { return b, pos; }
      var a := new u8[|b|](i requires 0 <= i < |b| => b[i]);
      assert a[..] == b;
      var address: nat := *;
      pos' := MaskBytes(key, pos, a, 0, a.Length, address, machine);
      MaskedWhole(b, a[..], key, pos);
      r := a[..];
    }

    /** The object did what `x` says, which may have added a control message to those handled. */
    ghost predicate Did(x: Advanced, s: Step, before: seq<Message>)
      reads this
    {
      match x
      case Failed(why) => s == Stopped(why) && controls == before
      case GotData(op, r) => s == DataFrame(op) && Now() == r && controls == before
      case GotControl(m, r) => s == ControlFrame && Now() == r && controls == before + [m]
    }

    method TakeControl(opcode: int) returns (s: Step)
      requires IsControl(opcode)
      modifies this
      ensures readErr == old(readErr) && messageOpen == old(messageOpen) && readErrCount == old(readErrCount)
      ensures if |old(br)| < old(readRemaining) then s == Stopped(EndOfInput) && controls == old(controls)
              else var body := old(br)[..old(readRemaining)];
                   var payload := if isServer then Mask(old(readMaskKey), 0, body) else body;
                   if opcode == CLOSE then s == Stopped(Closing(payload)) && controls == old(controls)
                   else s == ControlFrame && controls == old(controls) + [Message(opcode, payload)]
                        && Now() == old(Now()).(input := old(br)[old(readRemaining)..], remaining := 0)
    {
      var p := Take(readRemaining);
      if p.None? { return Stopped(EndOfInput); }
      var payload, _ := Unmask(readMaskKey, 0, p.value);
      readRemaining := 0;
      if opcode == CLOSE { return Stopped(Closing(payload)); }
      controls := controls + [Message(opcode, payload)];
      s := ControlFrame;
    }

    method TakeLength(code: nat) returns (n: Option<nat>)
      modifies this`br
      ensures var e := ExtSize(code);
              if |old(br)| < e then n.None?
              else n == Some(if e == 0 then code else BeValue(old(br)[..e])) && br == old(br)[e..]
    {
      if code == 126 || code == 127 {
        var p := Take(ExtSize(code));
        n := if p.None? then None else Some(BeValue(p.value));
      } else {
        assert br == br[0..];
        n := Some(code);
      }
    }

    method TakePayload(opcode: int, final: bool, masked: bool, n: nat) returns (s: Step)
      modifies this
      ensures readErr == old(readErr) && messageOpen == old(messageOpen) && readErrCount == old(readErrCount)
      ensures Did(AdvancePayload(old(Now()), OnSide(), opcode, final, masked, n), s, old(controls))
    {
      readRemaining := n;
      if masked {
        readMaskPos := 0;
        var p := Take(4);
        if p.None? { return Stopped(EndOfInput); }
        readMaskKey := p.value;
      }
      if IsControl(opcode) {
        s := TakeControl(opcode);
        return;
      }
      readFinal := final;
      readLength := readLength + n;
      if readLength >= INT64_LIMIT || (readLimit > 0 && readLength > readLimit) { return Stopped(ReadLimit); }
      s := DataFrame(opcode);
    }

    method FinishFrame(opcode: int, final: bool, masked: bool, code: nat) returns (s: Step)
      modifies this
      ensures readErr == old(readErr) && messageOpen == old(messageOpen) && readErrCount == old(readErrCount)
      ensures Did(AdvanceBody(old(Now()), OnSide(), opcode, final, masked, code), s, old(controls))
    {
      var length := TakeLength(code);
      if length.None? { return Stopped(EndOfInput); }
      if length.value >= INT64_LIMIT { return Stopped(ReadLimit); }
      if masked != isServer { return Stopped(ProtocolError); }
      s := TakePayload(opcode, final, masked, length.value);
    }

    method AdvanceFrame() returns (s: Step)
      modifies this
      ensures readErr == old(readErr) && messageOpen == old(messageOpen) && readErrCount == old(readErrCount)
      ensures Did(Advance(old(Now()), OnSide()), s, old(controls))
    {
      if readRemaining > 0 {
        var skipped := Take(readRemaining);
        if skipped.None? { return Stopped(EndOfInput); }
      } else {
        assert br == br[0..];
      }
      ghost var p := br;
      var h := Take(2);
      if h.None? { return Stopped(EndOfInput); }
      assert h.value == [p[0], p[1]];
      var final, opcode, masked, code := h.value[0] >= 128, h.value[0] % 16, h.value[1] >= 128, h.value[1] % 128;
      if h.value[0] / 16 % 8 != 0 || !Allowed(opcode, code, final, readFinal) { return Stopped(ProtocolError); }
      readRemaining := 0;
      s := FinishFrame(opcode, final, masked, code);
    }

    /** The next message. A failure is remembered and reported by every later call, and the thousandth call
        that fails stops the program. */
    method NextReader() returns (messageType: Option<int>, stops: bool)
      modifies this
      ensures readErrCount == old(readErrCount) + if messageType.None? then 1 else 0
      ensures stops <==> messageType.None? && readErrCount >= 1000
      ensures old(readErr).Some? ==> messageType.None? && readErr == old(readErr) && !messageOpen
                                     && Now() == old(Now()).(length := 0) && controls == old(controls)
      ensures old(readErr).None? ==>
                match FindMessage(old(Now()).(length := 0), OnSide(), old(controls))
                case NotFound(why) => messageType.None? && readErr == Some(why) && !messageOpen
                case Found(op, r, c) => messageType == Some(op) && readErr.None? && messageOpen && Now() == r
                                        && controls == c
    {
      messageOpen := false;
      readLength := 0;
      ghost var goal := FindMessage(Now(), OnSide(), controls);
      while readErr.None?
        invariant !messageOpen && readErrCount == old(readErrCount)
        invariant old(readErr).Some? ==>
                    readErr == old(readErr) && Now() == old(Now()).(length := 0) && controls == old(controls)
        invariant old(readErr).None? ==>
                    if readErr.None? then FindMessage(Now(), OnSide(), controls) == goal
                    else goal == NotFound(readErr.value)
        decreases readErr.None?, |br|
      {
        AdvanceConsumes(Now(), OnSide());
        var s := AdvanceFrame();
        match s
        case Stopped(why) => readErr := Some(why);
        case DataFrame(op) =>
          if op != CONTINUATION {
            messageOpen := true;
            return Some(op), false;
          }
        case ControlFrame =>
      }
      readErrCount := readErrCount + 1;
      return None, readErrCount >= 1000;
    }

    /** Frames up to one with bytes left, or the end of the message. */
    method SettleFrames() returns (ended: bool)
      requires readErr.None? && messageOpen
      modifies this
      ensures readErrCount == old(readErrCount) && messageOpen
      ensures match Settle(old(Now()), OnSide(), old(controls))
              case Broken(why) => readErr == Some(why) && !ended
              case Ended(r, c) => readErr.None? && ended && Now() == r && controls == c
              case Ready(r, c) => readErr.None? && !ended && Now() == r && controls == c && readRemaining > 0
    {
      ghost var goal := Settle(Now(), OnSide(), controls);
      while readRemaining == 0
        invariant readErr.None? && messageOpen && readErrCount == old(readErrCount)
                  && Settle(Now(), OnSide(), controls) == goal
        decreases |br|
      {
        if readFinal { return true; }
        AdvanceConsumes(Now(), OnSide());
        var s := AdvanceFrame();
        if s.Stopped? {
          readErr := Some(s.why);
          return false;
        }
      }
      ended := false;
    }

    /** Takes up to `max` bytes of the message; how many arrive at once is up to the network. A reader whose
        message is over reports its end; one that has failed reports its error. */
    method Read(max: nat) returns (data: Bytes, eof: bool)
      modifies this
      ensures readErrCount == old(readErrCount)
      ensures !old(messageOpen) || old(readErr).Some? ==>
                data == [] && eof == !old(messageOpen) && readErr == old(readErr) && messageOpen == old(messageOpen)
                && Now() == old(Now()) && controls == old(controls)
      ensures old(messageOpen) && old(readErr).None? ==>
                match Settle(old(Now()), OnSide(), old(controls))
                case Broken(why) => readErr == Some(why) && data == [] && !eof
                case Ended(r, c) => readErr.None? && eof && data == [] && !messageOpen && Now() == r && controls == c
                case Ready(r, c) => !eof && messageOpen && controls == c && Took(r, max, data)
    {
      data, eof := [], false;
      if !messageOpen { return [], true; }
      if readErr.Some? { return; }
      var ended := SettleFrames();
      if ended {
        messageOpen := false;
        return [], true;
      }
      if readErr.Some? { return; }
      if |br| == 0 {
        var noticed: bool := *;
        if max > 0 || noticed { readErr := Some(EndOfInput); }
        return;
      }
      var n: nat :| n <= max && n <= readRemaining && n <= |br| && (n == 0 ==> max == 0);
      data, readMaskPos := Unmask(readMaskKey, readMaskPos, br[..n]);
      br := br[n..];
      readRemaining := readRemaining - n;
    }

    /** From `r`, at least one and at most `max` bytes were taken, unless none were asked for or there are none. */
    ghost predicate Took(r: Reading, max: nat, data: Bytes)
      reads this
    {
      if r.input == [] then data == [] && Now() == r && (readErr == Some(EndOfInput) || (max == 0 && readErr.None?))
      else
        && readErr.None? && |data| <= max && (data == [] ==> max == 0) && |data| <= |r.input| && |data| <= r.remaining
        && data == Plain(r, OnSide(), |data|) && Now() == Consume(r, OnSide(), |data|)
    }

    /** Reads a whole message in pieces of any size: the result does not depend on them. */
    method ReadAll() returns (data: Bytes)
      requires readErr.None? && messageOpen
      modifies this
      ensures match Collect(old(Now()), OnSide(), old(controls))
              case Cut(why) => readErr == Some(why)
              case Whole(d, r, c) => readErr.None? && !messageOpen && data == d && Now() == r && controls == c
    {
      data := [];
      ghost var goal := Collect(Now(), OnSide(), controls);
      while true
        invariant readErr.None? && messageOpen && Prepend(data, Collect(Now(), OnSide(), controls)) == goal
        decreases |br|
      {
        ghost var r0, c0 := Now(), controls;
        CollectSettles(r0, OnSide(), c0);
        SettleShrinks(r0, OnSide(), c0);
        var max: nat :| max > 0;
        var piece, eof := Read(max);
        assert data + [] == data;
        if readErr.Some? || eof { return; }
        ghost var r1 := Settle(r0, OnSide(), c0).r;
        CollectAfterRead(r1, OnSide(), controls, |piece|);
        PrependTwice(data, piece, Collect(Now(), OnSide(), controls));
        data := data + piece;
      }
    }
  }
}
