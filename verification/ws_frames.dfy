/** WebSocket frames on the wire (section 5.2 of RFC 6455) and how they make up messages (section 5.4). */
module WsFrames {
  import opened Binary
  import opened WsMask
  import opened Wrappers

  const CONTINUATION := 0
  const TEXT := 1
  const BINARY := 2
  const CLOSE := 8
  const PING := 9
  const PONG := 10
  const MAX_HEADER := 14
  const MAX_CONTROL := 125

  predicate IsControl(op: int) { op == CLOSE || op == PING || op == PONG }
  predicate IsData(op: int) { op == TEXT || op == BINARY }

  type Opcode = x: int | 0 <= x < 16
  datatype Frame = Frame(final: bool, opcode: Opcode, key: Option<Key>, payload: Bytes)

  // ---- Lengths ----

  function LengthCode(n: nat): nat { if n >= 0x1_0000 then 127 else if n > 125 then 126 else n }

  function LengthExt(n: nat): Bytes { if n >= 0x1_0000 then Be(n, 8) else if n > 125 then Be(n, 2) else [] }

  /** The length a reader takes from the 7-bit code and the bytes after it. */
  predicate LengthReads(code: nat, ext: Bytes, n: nat) {
    if code == 127 then |ext| == 8 && BeValue(ext) == n
    else if code == 126 then |ext| == 2 && BeValue(ext) == n
    else code < 126 && ext == [] && code == n
  }

  /** The length form used is read back as the length, and no form that is read so is shorter. */
  lemma LengthIsMinimal(n: nat, code: nat, ext: Bytes)
    requires n < Bound(8)
    ensures LengthReads(LengthCode(n), LengthExt(n), n)
    ensures LengthReads(code, ext, n) ==> |LengthExt(n)| <= |ext|
  {
    Bounds();
    if n >= 0x1_0000 { BeRoundTrip(n, 8); } else if n > 125 { BeRoundTrip(n, 2); }
    BeValueBound(ext);
  }

  // ---- Encoding ----

  function Header(final: bool, opcode: Opcode, length: nat, key: Option<Key>): (r: Bytes)
    ensures 2 <= |r| <= MAX_HEADER
  {
    [opcode + if final then 128 else 0] + [LengthCode(length) + if key.Some? then 128 else 0]
    + LengthExt(length) + (if key.Some? then key.value else [])
  }

  function Body(f: Frame): Bytes { if f.key.Some? then Mask(f.key.value, 0, f.payload) else f.payload }

  function Encode(f: Frame): Bytes { Header(f.final, f.opcode, |f.payload|, f.key) + Body(f) }

  function EncodeAll(fs: seq<Frame>): Bytes {
    if fs == [] then [] else Encode(fs[0]) + EncodeAll(fs[1..])
  }

  lemma {:induction false} EncodeAppend(fs: seq<Frame>, f: Frame)
    ensures EncodeAll(fs + [f]) == EncodeAll(fs) + Encode(f)
  {
    if fs == [] {
      assert fs + [f] == [f] && [f][1..] == [];
    } else {
      assert (fs + [f])[1..] == fs[1..] + [f];
      EncodeAppend(fs[1..], f);
    }
  }

  // ---- Messages ----

  datatype Message = Message(opcode: int, data: Bytes)
  datatype Assembly = Assembly(messages: seq<Message>, open: Option<Message>, controls: seq<Message>, closed: bool,
                               ok: bool)

  /** What one more frame adds; `ok` goes false on a frame the protocol does not allow there. */
  function Add(a: Assembly, f: Frame): Assembly {
    if !a.ok || a.closed then a.(ok := false)
    else if IsControl(f.opcode) then
      if f.final && |f.payload| <= MAX_CONTROL
      then a.(controls := a.controls + [Message(f.opcode, f.payload)], closed := f.opcode == CLOSE)
      else a.(ok := false)
    else if IsData(f.opcode) then
      if a.open.Some? then a.(ok := false) else Extend(a, Message(f.opcode, f.payload), f.final)
    else if f.opcode == CONTINUATION then
      if a.open.None? then a.(ok := false)
      else Extend(a, Message(a.open.value.opcode, a.open.value.data + f.payload), f.final)
    else a.(ok := false)
  }

  function Extend(a: Assembly, m: Message, final: bool): Assembly {
    if final then a.(messages := a.messages + [m], open := None) else a.(open := Some(m))
  }

  function AssembleFrom(a: Assembly, fs: seq<Frame>): Assembly
    decreases |fs|
  {
    if fs == [] then a else AssembleFrom(Add(a, fs[0]), fs[1..])
  }

  const EMPTY := Assembly([], None, [], false, true)

  function Assemble(fs: seq<Frame>): Assembly { AssembleFrom(EMPTY, fs) }

  lemma {:induction false} AssembleAppend(a: Assembly, fs: seq<Frame>, f: Frame)
    ensures AssembleFrom(a, fs + [f]) == Add(AssembleFrom(a, fs), f)
    decreases |fs|
  {
    if fs == [] {
      assert fs + [f] == [f] && [f][1..] == [];
    } else {
      assert (fs + [f])[1..] == fs[1..] + [f];
      AssembleAppend(Add(a, fs[0]), fs[1..], f);
    }
  }
}
