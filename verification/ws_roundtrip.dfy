/** What one Conn writes, its peer reads: frame by frame, message by message, for any read sizes. */
module WsRoundTrip {
  import opened Serial
  import opened Binary
  import opened WsMask
  import opened WsFrames
  import opened WsReader
  import W = WsWriter

  // ---- One frame ----

  function KeyBytes(f: Frame): Bytes { if f.key.Some? then f.key.value else [] }

  lemma EncodeParts(f: Frame, tail: Bytes)
    ensures Encode(f) + tail
         == [f.opcode + if f.final then 128 else 0] + [LengthCode(|f.payload|) + if f.key.Some? then 128 else 0]
            + (LengthExt(|f.payload|) + (KeyBytes(f) + (Body(f) + tail)))
  {}

  /** The reader's view after a frame whose header and key it took off the front. */
  function After(r: Reading, f: Frame, input: Bytes, remaining: nat, final: bool, length: nat): Reading {
    if f.key.Some? then Reading(input, remaining, final, length, 0, f.key.value)
    else Reading(input, remaining, final, length, r.maskPos, r.key)
  }

  /** What advancing over the frame gives. */
  function Arrived(r: Reading, f: Frame, tail: Bytes): Advanced {
    if IsControl(f.opcode) then
      if f.opcode == CLOSE then Failed(Closing(f.payload))
      else GotControl(Message(f.opcode, f.payload), After(r, f, tail, 0, r.final, r.length))
    else GotData(f.opcode, After(r, f, Body(f) + tail, |f.payload|, f.final, r.length + |f.payload|))
  }

  predicate Within(length: nat, side: Side) { length < INT64_LIMIT && (side.limit > 0 ==> length <= side.limit) }

  lemma PayloadArrives(r: Reading, side: Side, f: Frame, tail: Bytes)
    requires r.input == KeyBytes(f) + (Body(f) + tail) && f.key.Some? == side.isServer
    requires !IsControl(f.opcode) ==> Within(r.length + |f.payload|, side)
    ensures AdvancePayload(r, side, f.opcode, f.final, f.key.Some?, |f.payload|) == Arrived(r, f, tail)
  {
    var body := Body(f) + tail;
    if f.key.Some? {
      assert r.input[..4] == f.key.value && r.input[4..] == body;
      MaskInvolution(f.key.value, 0, f.payload);
    } else {
      assert r.input == body;
    }
    assert body[..|f.payload|] == Body(f) && body[|f.payload|..] == tail;
  }

  /** The length field, read back. */
  lemma LengthArrives(n: nat)
    requires n < INT64_LIMIT
    ensures var c, x := LengthCode(n), LengthExt(n);
            ExtSize(c) == |x| && c < 128 && n == if |x| == 0 then c else BeValue(x)
  {
    Bounds();
    LengthIsMinimal(n, LengthCode(n), LengthExt(n));
  }

  lemma BodyArrives(r: Reading, side: Side, f: Frame, tail: Bytes)
    requires r.input == LengthExt(|f.payload|) + (KeyBytes(f) + (Body(f) + tail)) && f.key.Some? == side.isServer
    requires |f.payload| < INT64_LIMIT && (!IsControl(f.opcode) ==> Within(r.length + |f.payload|, side))
    ensures AdvanceBody(r, side, f.opcode, f.final, f.key.Some?, LengthCode(|f.payload|)) == Arrived(r, f, tail)
  {
    var n, rest := |f.payload|, KeyBytes(f) + (Body(f) + tail);
    LengthArrives(n);
    SplitAt(LengthExt(n), rest);
    PayloadArrives(r.(input := rest), side, f, tail);
  }

  lemma HeaderArrives(opcode: Opcode, final: bool, code: nat, masked: bool)
    requires code < 128
    ensures var b := opcode + if final then 128 else 0; b % 16 == opcode && b / 16 % 8 == 0 && (b >= 128 <==> final)
    ensures var b := code + if masked then 128 else 0; b % 128 == code && (b >= 128 <==> masked)
  {}

  /** Advancing over an encoded frame gives back its opcode, flags and payload. */
  lemma FrameArrives(r: Reading, side: Side, f: Frame, tail: Bytes)
    requires r.remaining == 0 && r.input == Encode(f) + tail && f.key.Some? == side.isServer
    requires Allowed(f.opcode, LengthCode(|f.payload|), f.final, r.final)
    requires |f.payload| < INT64_LIMIT && (!IsControl(f.opcode) ==> Within(r.length + |f.payload|, side))
    ensures Advance(r, side) == Arrived(r, f, tail)
  {
    var n := |f.payload|;
    var rest := LengthExt(n) + (KeyBytes(f) + (Body(f) + tail));
    var b0, b1 := f.opcode + if f.final then 128 else 0, LengthCode(n) + if f.key.Some? then 128 else 0;
    LengthArrives(n);
    HeaderArrives(f.opcode, f.final, LengthCode(n), f.key.Some?);
    assert r.input == [b0] + [b1] + rest by { EncodeParts(f, tail); }
    var r1 := r.(input := rest);
    BodyArrives(r1, side, f, tail);
    SameArrival(r1, r, f, tail);
    FrontArrives(r, r1, side, b0, b1, f.opcode, f.final, f.key.Some?, LengthCode(n));
  }

  lemma SameArrival(r1: Reading, r: Reading, f: Frame, tail: Bytes)
    requires r1 == r.(input := r1.input)
    ensures Arrived(r1, f, tail) == Arrived(r, f, tail)
  {}

  lemma FrontArrives(r: Reading, r1: Reading, side: Side, b0: u8, b1: u8, opcode: int, final: bool, masked: bool,
                     code: nat)
    requires r.remaining == 0 && r.input == [b0] + [b1] + r1.input && r1 == r.(input := r1.input)
    requires b0 / 16 % 8 == 0 && Allowed(opcode, code, final, r.final)
    requires opcode == b0 % 16 && final == (b0 >= 128) && masked == (b1 >= 128) && code == b1 % 128
    ensures Advance(r, side) == AdvanceBody(r1, side, opcode, final, masked, code)
  {
    assert r.input[0..] == r.input && r.input[2..] == r1.input;
  }

  // ---- Streams of frames ----

  predicate Keyed(fs: seq<Frame>, side: Side) {
    forall i :: 0 <= i < |fs| ==> fs[i].key.Some? == side.isServer
  }

  function Cipher(r: Reading, side: Side, cur: Bytes): Bytes {
    if side.isServer then Mask(r.key, r.maskPos, cur) else cur
  }

  /** The unread input is the rest `cur` of the current frame followed by the frames `fs`. */
  predicate Tracks(r: Reading, side: Side, cur: Bytes, fs: seq<Frame>) {
    r.remaining == |cur| && r.input == Cipher(r, side, cur) + EncodeAll(fs) && Keyed(fs, side)
  }

  /** The reader is inside a message exactly when the sender's side of it is. */
  predicate InStep(r: Reading, a: Assembly) {
    a.ok && !a.closed && r.final == a.open.None?
  }

  lemma NextFrameArrives(r: Reading, side: Side, fs: seq<Frame>, a: Assembly)
    requires Tracks(r, side, [], fs) && fs != [] && InStep(r, a) && Add(a, fs[0]).ok
    requires |fs[0].payload| < INT64_LIMIT && (!IsControl(fs[0].opcode) ==> Within(r.length + |fs[0].payload|, side))
    ensures Advance(r, side) == Arrived(r, fs[0], EncodeAll(fs[1..]))
    ensures var x := Arrived(r, fs[0], EncodeAll(fs[1..]));
            && (x.GotControl? ==> Tracks(x.r, side, [], fs[1..]))
            && (x.GotData? ==> Tracks(x.r, side, fs[0].payload, fs[1..]))
  {
    var f, tail := fs[0], EncodeAll(fs[1..]);
    assert Cipher(r, side, []) == [] && r.input == Encode(f) + tail;
    assert f.key.Some? == side.isServer;
    FrameArrives(r, side, f, tail);
    assert [] + tail == tail;
  }

  /** Where a reader stands once it has taken the rest of the current frame. */
  function PastFrame(r: Reading, side: Side, cur: Bytes): Reading
    requires r.remaining == |cur| <= |r.input|
  {
    if cur == [] then r else Consume(r, side, |cur|)
  }

  lemma FrameRead(r: Reading, side: Side, cur: Bytes, fs: seq<Frame>, controls: seq<Message>)
    requires Tracks(r, side, cur, fs)
    ensures |cur| <= |r.input| && Tracks(PastFrame(r, side, cur), side, [], fs)
    ensures Collect(r, side, controls) == Prepend(cur, Collect(PastFrame(r, side, cur), side, controls))
  {
    var c := Cipher(r, side, cur);
    SplitAt(c, EncodeAll(fs));
    assert [] + EncodeAll(fs) == EncodeAll(fs);
    if cur == [] {
      var x := Collect(r, side, controls);
      assert x.Whole? ==> [] + x.data == x.data;
    } else {
      MaskInvolution(r.key, r.maskPos, cur);
      assert Plain(r, side, |cur|) == cur;
    }
  }

  // ---- What the sender's side guarantees ----

  lemma {:induction false} NotOkStays(a: Assembly, fs: seq<Frame>)
    requires !a.ok || (a.closed && fs != [])
    ensures !AssembleFrom(a, fs).ok
    decreases |fs|
  {
    if fs != [] { NotOkStays(Add(a, fs[0]), fs[1..]); }
  }

  lemma {:induction false} MessagesGrow(a: Assembly, fs: seq<Frame>)
    ensures a.messages <= AssembleFrom(a, fs).messages
    decreases |fs|
  {
    if fs != [] { MessagesGrow(Add(a, fs[0]), fs[1..]); }
  }

  /** The next message to come out of an open one extends it. */
  lemma {:induction false} OpenGrows(a: Assembly, fs: seq<Frame>)
    requires a.open.Some? && AssembleFrom(a, fs).ok && |AssembleFrom(a, fs).messages| > |a.messages|
    ensures var m := AssembleFrom(a, fs).messages[|a.messages|];
            m.opcode == a.open.value.opcode && a.open.value.data <= m.data
    decreases |fs|
  {
    if fs != [] {
      var b := Add(a, fs[0]);
      if !b.ok { NotOkStays(b, fs[1..]); }
      MessagesGrow(b, fs[1..]);
      if b.open.Some? { OpenGrows(b, fs[1..]); }
    }
  }

  // ---- One message ----

  /** A message is still to come out of `fs`, and its size is one the reader accepts. */
  predicate Coming(a: Assembly, fs: seq<Frame>, side: Side) {
    var b := AssembleFrom(a, fs);
    b.ok && |b.messages| > |a.messages| && Within(|b.messages[|a.messages|].data|, side)
  }

  /** Before a message comes there is another frame, it is in order, and it is not a close frame. */
  lemma MoreToCome(a: Assembly, fs: seq<Frame>, side: Side)
    requires Coming(a, fs, side) && a.ok && !a.closed
    ensures fs != [] && Add(a, fs[0]).ok && !Add(a, fs[0]).closed
    ensures AssembleFrom(Add(a, fs[0]), fs[1..]) == AssembleFrom(a, fs)
  {
    var b := Add(a, fs[0]);
    if !b.ok || (b.closed && fs[1..] != []) { NotOkStays(b, fs[1..]); }
    assert fs[1..] == [] ==> AssembleFrom(b, fs[1..]) == b;
  }

  /** A control frame on the way is handled and leaves the message as it is. */
  lemma ControlStep(r: Reading, side: Side, fs: seq<Frame>, a: Assembly) returns (r1: Reading, b: Assembly)
    requires Tracks(r, side, [], fs) && InStep(r, a) && Coming(a, fs, side) && fs != [] && IsControl(fs[0].opcode)
    ensures var m := Message(fs[0].opcode, fs[0].payload);
            Advance(r, side) == GotControl(m, r1) && b == a.(controls := a.controls + [m])
    ensures Tracks(r1, side, [], fs[1..]) && InStep(r1, b) && r1.final == r.final && r1.length == r.length
    ensures Coming(b, fs[1..], side) && AssembleFrom(b, fs[1..]) == AssembleFrom(a, fs)
  {
    MoreToCome(a, fs, side);
    NextFrameArrives(r, side, fs, a);
    r1 := Arrived(r, fs[0], EncodeAll(fs[1..])).r;
    b := Add(a, fs[0]);
  }

  /** A data frame on the way continues or starts the message. */
  lemma DataStep(r: Reading, side: Side, fs: seq<Frame>, a: Assembly) returns (r1: Reading, b: Assembly)
    requires Tracks(r, side, [], fs) && InStep(r, a) && Coming(a, fs, side) && fs != [] && !IsControl(fs[0].opcode)
    requires r.length == |W.SoFar(a)|
    ensures Advance(r, side) == GotData(fs[0].opcode, r1)
    ensures var opcode := if a.open.Some? then a.open.value.opcode else fs[0].opcode;
            b == Extend(a, Message(opcode, W.SoFar(a) + fs[0].payload), fs[0].final)
    ensures Tracks(r1, side, fs[0].payload, fs[1..]) && InStep(r1, b) && r1.final == fs[0].final
    ensures !r1.final ==> Coming(b, fs[1..], side) && r1.length == |W.SoFar(b)|
    ensures AssembleFrom(b, fs[1..]) == AssembleFrom(a, fs) && (a.open.None? ==> IsData(fs[0].opcode))
  {
    MoreToCome(a, fs, side);
    b := Add(a, fs[0]);
    MessagesGrow(b, fs[1..]);
    if b.open.Some? { OpenGrows(b, fs[1..]); }
    assert [] + fs[0].payload == fs[0].payload;
    NextFrameArrives(r, side, fs, a);
    r1 := Arrived(r, fs[0], EncodeAll(fs[1..])).r;
  }

  lemma Associates<T>(a: seq<T>, b: seq<T>, c: seq<T>)
    ensures a + b + c == a + (b + c)
  {}

  /** From inside a message, reading on collects exactly what is missing of it. */
  lemma {:induction false} FinishMessage(r: Reading, side: Side, cur: Bytes, fs: seq<Frame>, a: Assembly,
                                         controls: seq<Message>)
    returns (fs': seq<Frame>, a': Assembly, r': Reading, x: Bytes, more: seq<Message>)
    requires Tracks(r, side, cur, fs) && InStep(r, a)
    requires !r.final ==> Coming(a, fs, side) && r.length == |W.SoFar(a)|
    ensures Collect(r, side, controls) == Whole(cur + x, r', controls + more)
    ensures Tracks(r', side, [], fs') && InStep(r', a') && r'.final && AssembleFrom(a', fs') == AssembleFrom(a, fs)
    ensures a'.controls == a.controls + more
    ensures if r.final then a' == a && x == []
            else a'.messages == a.messages + [Message(a.open.value.opcode, a.open.value.data + x)]
    decreases |fs|, 1
  {
    FrameRead(r, side, cur, fs, controls);
    var past := PastFrame(r, side, cur);
    if r.final {
      fs', a', r', x, more := fs, a, past, [], [];
      assert a.controls + [] == a.controls && controls + [] == controls;
    } else {
      fs', a', r', x, more := FinishFrames(past, side, fs, a, controls);
    }
  }

  lemma {:induction false} FinishFrames(r: Reading, side: Side, fs: seq<Frame>, a: Assembly, controls: seq<Message>)
    returns (fs': seq<Frame>, a': Assembly, r': Reading, x: Bytes, more: seq<Message>)
    requires Tracks(r, side, [], fs) && InStep(r, a) && !r.final && Coming(a, fs, side) && r.length == |W.SoFar(a)|
    ensures Collect(r, side, controls) == Whole(x, r', controls + more)
    ensures Tracks(r', side, [], fs') && InStep(r', a') && r'.final && AssembleFrom(a', fs') == AssembleFrom(a, fs)
    ensures a'.controls == a.controls + more
    ensures a'.messages == a.messages + [Message(a.open.value.opcode, a.open.value.data + x)]
    decreases |fs|, 0
  {
    MoreToCome(a, fs, side);
    if IsControl(fs[0].opcode) {
      var m := Message(fs[0].opcode, fs[0].payload);
      var r1, b := ControlStep(r, side, fs, a);
      fs', a', r', x, more := FinishMessage(r1, side, [], fs[1..], b, controls + [m]);
      Associates(controls, [m], more);
      Associates(a.controls, [m], more);
      more := [m] + more;
      assert [] + x == x;
    } else {
      var r1, b := DataStep(r, side, fs, a);
      fs', a', r', x, more := FinishMessage(r1, side, fs[0].payload, fs[1..], b, controls);
      var data := a.open.value.data + fs[0].payload;
      assert data + [] == data;
      Associates(a.open.value.data, fs[0].payload, x);
      assert a'.messages == a.messages + [Message(a.open.value.opcode, data + x)];
      x := fs[0].payload + x;
    }
  }

  /** Between messages, the next one to be read is the next one sent, type and bytes. */
  lemma MessageStarts(r: Reading, side: Side, fs: seq<Frame>, a: Assembly, controls: seq<Message>)
    returns (fs': seq<Frame>, a': Assembly, r': Reading, more: seq<Message>)
    requires Tracks(r, side, [], fs) && InStep(r, a) && r.final && r.length == 0 && Coming(a, fs, side)
    requires fs != [] && !IsControl(fs[0].opcode)
    ensures var m := AssembleFrom(a, fs).messages[|a.messages|];
            var found := FindMessage(r, side, controls);
            && found.Found? && found.opcode == m.opcode
            && Collect(found.r, side, found.controls) == Whole(m.data, r', controls + more)
            && a'.messages == a.messages + [m] && a'.controls == a.controls + more
    ensures Tracks(r', side, [], fs') && InStep(r', a') && r'.final && AssembleFrom(a', fs') == AssembleFrom(a, fs)
  {
    var r1, b := DataStep(r, side, fs, a);
    var x;
    fs', a', r', x, more := FinishMessage(r1, side, fs[0].payload, fs[1..], b, controls);
    MessagesGrow(a', fs');
    assert [] + fs[0].payload == fs[0].payload && fs[0].payload + [] == fs[0].payload;
  }

  lemma {:induction false} MessageArrives(r: Reading, side: Side, fs: seq<Frame>, a: Assembly, controls: seq<Message>)
    returns (fs': seq<Frame>, a': Assembly, r': Reading, more: seq<Message>)
    requires Tracks(r, side, [], fs) && InStep(r, a) && r.final && r.length == 0 && Coming(a, fs, side)
    ensures var m := AssembleFrom(a, fs).messages[|a.messages|];
            var found := FindMessage(r, side, controls);
            && found.Found? && found.opcode == m.opcode
            && Collect(found.r, side, found.controls) == Whole(m.data, r', controls + more)
            && a'.messages == a.messages + [m] && a'.controls == a.controls + more
    ensures Tracks(r', side, [], fs') && InStep(r', a') && r'.final && AssembleFrom(a', fs') == AssembleFrom(a, fs)
    decreases |fs|
  {
    MoreToCome(a, fs, side);
    if IsControl(fs[0].opcode) {
      var m := Message(fs[0].opcode, fs[0].payload);
      var r1, b := ControlStep(r, side, fs, a);
      fs', a', r', more := MessageArrives(r1, side, fs[1..], b, controls + [m]);
      Associates(controls, [m], more);
      Associates(a.controls, [m], more);
      more := [m] + more;
    } else {
      fs', a', r', more := MessageStarts(r, side, fs, a, controls);
    }
  }

  // ---- A whole connection ----

  lemma {:induction false} ControlsGrow(a: Assembly, fs: seq<Frame>)
    ensures a.controls <= AssembleFrom(a, fs).controls
    decreases |fs|
  {
    if fs != [] { ControlsGrow(Add(a, fs[0]), fs[1..]); }
  }

  /** A peer of the opposite role that reads what a Conn has sent, in pieces of any size, gets exactly the
      messages completed so far, in order, with the types and bytes written, and handles the control
      messages among them in order. */
  method ReadBack(w: W.Writer, machine: Machine, n: nat) returns (read: seq<Message>, controls: seq<Message>)
    requires w.Valid() && n <= |Assemble(w.frames).messages|
    requires forall m :: m in Assemble(w.frames).messages ==> |m.data| < INT64_LIMIT
    ensures read == Assemble(w.frames).messages[..n]
    ensures controls <= Assemble(w.frames).controls
  {
    var rd := new Reader(!w.isServer, 0, machine, w.sent);
    ghost var side, b := rd.OnSide(), Assemble(w.frames);
    ghost var fs, a := w.frames, EMPTY;
    assert Cipher(rd.Now(), side, []) == [] && [] + w.sent == w.sent;
    read := [];
    while |read| < n
      invariant fresh(rd) && rd.OnSide() == side && rd.readErr.None? && |read| <= n
      invariant Tracks(rd.Now(), side, [], fs) && rd.Now().final && InStep(rd.Now(), a)
      invariant AssembleFrom(a, fs) == b && read == a.messages && rd.controls == a.controls
    {
      assert b.messages[|read|] in b.messages;
      ghost var fs', a', r', more := MessageArrives(rd.Now().(length := 0), side, fs, a, rd.controls);
      var kind, _ := rd.NextReader();
      var data := rd.ReadAll();
      read := read + [Message(kind.value, data)];
      fs, a := fs', a';
    }
    MessagesGrow(a, fs);
    ControlsGrow(a, fs);
    controls := rd.controls;
  }
}
