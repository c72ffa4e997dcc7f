/** The writing half of a Conn and its messageWriter. */
module WsWriter {
  // Frames are built in place in `writeBuf`, the header right-aligned against the payload at offset 14. The
  // ghost field `frames` lists what went out; every method keeps `sent` equal to its encoding.

  import opened Serial
  import opened Binary
  import opened Wrappers
  import opened WsMask
  import opened WsFrames

  /** What of the message under way is already out. */
  function SoFar(a: Assembly): Bytes { if a.open.Some? then a.open.value.data else [] }

  /** The message under way: none of it is out yet, or its first frames are. */
  ghost predicate InMessage(kind: int, frameType: int, a: Assembly) {
    && (IsControl(kind) || IsData(kind))
    && ((frameType == kind && a.open.None?)
        || (frameType == CONTINUATION && IsData(kind) && a.open.Some? && a.open.value.opcode == kind))
  }

  /** What a frame of the message under way does to the peer's view. */
  ghost function Delivered(a: Assembly, kind: int, final: bool, data: Bytes): Assembly {
    var m := Message(kind, data);
    if !final then a.(open := Some(m))
    else if IsData(kind) then a.(messages := a.messages + [m], open := None)
    else a.(controls := a.controls + [m], closed := kind == CLOSE)
  }

  lemma FrameDelivers(a: Assembly, kind: int, f: Frame)
    requires a.ok && !a.closed && InMessage(kind, f.opcode, a)
    requires IsControl(kind) ==> f.final && |f.payload| <= MAX_CONTROL
    ensures Add(a, f) == Delivered(a, kind, f.final, SoFar(a) + f.payload)
  {
    assert SoFar(a) == [] ==> SoFar(a) + f.payload == f.payload;
  }

  /** One more frame on the wire, and what the peer has then. */
  lemma FrameSent(fs: seq<Frame>, f: Frame, kind: int)
    requires var a := Assemble(fs); a.ok && !a.closed && InMessage(kind, f.opcode, a)
    requires IsControl(kind) ==> f.final && |f.payload| <= MAX_CONTROL
    ensures EncodeAll(fs + [f]) == EncodeAll(fs) + Encode(f)
    ensures Assemble(fs + [f]) == Delivered(Assemble(fs), kind, f.final, SoFar(Assemble(fs)) + f.payload)
  {
    EncodeAppend(fs, f);
    AssembleAppend(EMPTY, fs, f);
    FrameDelivers(Assemble(fs), kind, f);
  }

  /** The first frames of a message do not change what its last one delivers. */
  lemma SameDelivery(a: Assembly, b: Assembly, kind: int, data: Bytes)
    requires b.messages == a.messages && b.controls == a.controls && b.closed == a.closed == false && b.ok == a.ok
    requires a.open.None? && (IsControl(kind) ==> b.open.None?) && (IsControl(kind) || IsData(kind))
    ensures Delivered(b, kind, true, data) == Delivered(a, kind, true, data)
  {}

  lemma ConcatAssociates(a: Bytes, b: Bytes, c: Bytes)
    ensures a + b + c == a + (b + c)
  {}

  lemma Joined(head: Bytes, masked: Bytes, extra: Bytes, body: Bytes)
    requires masked + extra == body
    ensures head + masked + extra == head + body
  {}

  lemma BodyOf(f: Frame, buffered: Bytes, masked: Bytes, extra: Bytes)
    requires f.payload == buffered + extra && (f.key.Some? ==> extra == [])
    requires masked == if f.key.Some? then Mask(f.key.value, 0, buffered) else buffered
    ensures masked + extra == Body(f)
  {
    if f.key.Some? { assert buffered + extra == buffered; }
  }

  /** Two pieces written next to each other. */
  lemma TwoPieces(s: Bytes, t: Bytes, i: nat, j: nat, k: nat, x: Bytes, y: Bytes)
    requires i <= j <= k <= |s| == |t| && s[i..j] == x && t[..j] == s[..j] && t[j..k] == y
    ensures t[i..k] == x + y
  {
    assert t[i..j] == t[..j][i..] == s[..j][i..] == s[i..j];
    assert t[i..k] == t[i..j] + t[j..k];
  }

  lemma TailOfTail(s: Bytes, t: Bytes, i: nat, j: nat)
    requires i <= j <= |s| == |t| && t[i..] == s[i..]
    ensures t[j..] == s[j..]
  {
    assert t[j..] == t[i..][j - i..] && s[j..] == s[i..][j - i..];
  }

  lemma SameSlice(s: Bytes, t: Bytes, i: nat, j: nat)
    requires i <= j <= |s| == |t| && t[i..] == s[i..]
    ensures t[i..j] == s[i..j]
  {
    assert t[i..j] == t[i..][..j - i] && s[i..j] == s[i..][..j - i];
  }

  lemma SameHead(s: Bytes, t: Bytes, i: nat, j: nat)
    requires i <= j <= |s| == |t| && t[..j] == s[..j]
    ensures t[i..j] == s[i..j]
  {
    assert t[i..j] == t[..j][i..] && s[i..j] == s[..j][i..];
  }

  /** Header, buffered payload and what the caller adds make up the frame. */
  lemma FrameBytes(s: Bytes, framePos: nat, pos: nat, masked: Bytes, extra: Bytes, f: Frame)
    requires framePos <= MAX_HEADER <= pos <= |s| && s[MAX_HEADER..pos] == masked && masked + extra == Body(f)
    requires s[framePos..MAX_HEADER] == Header(f.final, f.opcode, |f.payload|, f.key)
    ensures s[framePos..pos] + extra == Encode(f)
  {
    assert s[framePos..pos] == s[framePos..MAX_HEADER] + s[MAX_HEADER..pos];
    Joined(s[framePos..MAX_HEADER], masked, extra, Body(f));
  }

  class Writer {
    const isServer: bool
    const writeBuf: array<u8>
    const machine: Machine
    var pos: nat
    var frameType: int
    var open: bool
    var writeErr: bool
    var sent: Bytes
    ghost var frames: seq<Frame>
    ghost var kind: int

    /** Bytes of the current message that are still in the buffer. */
    ghost function Buffered(): Bytes
      reads this, writeBuf
      requires MAX_HEADER <= pos <= writeBuf.Length
    {
      writeBuf[MAX_HEADER..pos]
    }

    /** Bytes written to the current message so far. */
    ghost function Content(): Bytes
      reads this, writeBuf
      requires MAX_HEADER <= pos <= writeBuf.Length
    {
      SoFar(Assemble(frames)) + Buffered()
    }

    /** What a reader would have if the message still open were finished now, as starting another one does. */
    ghost function Finished(): Assembly
      reads this, writeBuf
      requires MAX_HEADER <= pos <= writeBuf.Length
    {
      if open && !writeErr && (IsControl(kind) ==> |Buffered()| <= MAX_CONTROL)
      then Delivered(Assemble(frames), kind, true, Content())
      else Assemble(frames)
    }

    ghost predicate Masks(fs: seq<Frame>) {
      forall i :: 0 <= i < |fs| ==> fs[i].key.Some? == !isServer
    }

    ghost predicate Valid()
      reads this, writeBuf
    {
      && writeBuf.Length > MAX_HEADER && MAX_HEADER <= pos <= writeBuf.Length
      && sent == EncodeAll(frames) && Masks(frames)
      && var a := Assemble(frames);
      && a.ok && writeErr == a.closed
      && (if open then InMessage(kind, frameType, a) else a.open.None? || a.closed)
    }

    constructor (isServer: bool, writeBuf: array<u8>, machine: Machine)
      requires writeBuf.Length > MAX_HEADER
      ensures Valid() && !open && !writeErr && frames == []
      ensures this.isServer == isServer && this.writeBuf == writeBuf
    {
      this.isServer, this.writeBuf, this.machine := isServer, writeBuf, machine;
      pos, frameType, open, writeErr, sent := MAX_HEADER, 0, false, false, [];
      frames, kind := [], 0;
    }

    // ---- flushFrame ----

    method Put(at: nat, w: Bytes)
      requires at + |w| <= writeBuf.Length
      modifies writeBuf
      ensures writeBuf[..at] == old(writeBuf[..at]) && writeBuf[at + |w|..] == old(writeBuf[at + |w|..])
      ensures writeBuf[at..at + |w|] == w
    {
      forall i | 0 <= i < |w| { writeBuf[at + i] := w[i]; }
    }

    /** Writes the header so that it ends where the payload starts. */
    method PutHeader(final: bool, opcode: Opcode, length: nat, key: Option<Key>) returns (framePos: nat)
      requires writeBuf.Length > MAX_HEADER && key.Some? == !isServer
      modifies writeBuf
      ensures framePos <= MAX_HEADER && writeBuf[framePos..MAX_HEADER] == Header(final, opcode, length, key)
      ensures writeBuf[MAX_HEADER..] == old(writeBuf[MAX_HEADER..])
    {
      var b0 := opcode + if final then 128 else 0;
      var b1 := if isServer then 0 else 128;
      framePos := if isServer then 4 else 0;
      var ext: Bytes := [];
      if length >= 65536 {
        b1, ext := b1 + 127, Be(length, 8);
      } else if length > 125 {
        framePos, b1, ext := framePos + 6, b1 + 126, Be(length, 2);
      } else {
        framePos, b1 := framePos + 8, b1 + length;
      }
      var fixed: Bytes := [b0] + [b1] + ext;
      var end := framePos + |fixed|;
      Put(framePos, fixed);
      if key.Some? {
        ghost var s := writeBuf[..];
        Put(end, key.value);
        TwoPieces(s, writeBuf[..], framePos, end, MAX_HEADER, fixed, key.value);
        TailOfTail(old(writeBuf[..]), s, end, MAX_HEADER);
      } else {
        assert fixed + [] == fixed;
      }
    }

    method NewMaskKey() returns (key: Option<Key>)
      ensures key.Some? == !isServer
    {
      var k0: u8, k1: u8, k2: u8, k3: u8 := *, *, *, *;
      key := if isServer then None else Some([k0, k1, k2, k3]);
    }

    /** Masks the payload in the buffer, if this side masks. */
    method MaskPayload(key: Option<Key>)
      requires writeBuf.Length > MAX_HEADER && MAX_HEADER <= pos <= writeBuf.Length
      modifies writeBuf
      ensures writeBuf[..MAX_HEADER] == old(writeBuf[..MAX_HEADER])
      ensures Buffered() == if key.Some? then Mask(key.value, 0, old(Buffered())) else old(Buffered())
    {
      ghost var s := writeBuf[..];
      if key.Some? {
        var address: nat := *;
        var _ := MaskBytes(key.value, 0, writeBuf, MAX_HEADER, pos, address, machine);
        MaskedIsMask(s, writeBuf[..], key.value, 0, MAX_HEADER, pos);
        assert s[MAX_HEADER..pos] == old(Buffered());
      }
    }

    /** Header, masking and the bytes handed to the network for one frame. */
    method BuildFrame(final: bool, extra: Bytes) returns (bytes: Bytes, ghost f: Frame)
      requires writeBuf.Length > MAX_HEADER && MAX_HEADER <= pos <= writeBuf.Length && 0 <= frameType < 16
      requires isServer || extra == []
      modifies writeBuf
      ensures bytes == Encode(f) && f.key.Some? == !isServer
      ensures f == Frame(final, frameType, f.key, old(Buffered()) + extra)
    {
      var key := NewMaskKey();
      var framePos := PutHeader(final, frameType, pos - MAX_HEADER + |extra|, key);
      ghost var s, buffered := writeBuf[..], old(Buffered());
      SameSlice(old(writeBuf[..]), s, MAX_HEADER, pos);
      MaskPayload(key);
      bytes := writeBuf[framePos..pos] + extra;
      f := Frame(final, frameType, key, buffered + extra);
      BodyOf(f, buffered, Buffered(), extra);
      SameHead(s, writeBuf[..], framePos, MAX_HEADER);
      FrameBytes(writeBuf[..], framePos, pos, Buffered(), extra, f);
    }

    /** The frame reaches the network and the writer gets ready for the next one. */
    method Commit(bytes: Bytes, ghost f: Frame, final: bool)
      requires Valid() && open && !writeErr && bytes == Encode(f) && f.key.Some? == !isServer
      requires f.opcode == frameType && f.final == final && (IsControl(kind) ==> final && |f.payload| <= MAX_CONTROL)
      modifies this
      ensures Valid() && kind == old(kind) && open == !final && pos == MAX_HEADER
      ensures Assemble(frames) ==
                Delivered(old(Assemble(frames)), kind, final, SoFar(old(Assemble(frames))) + f.payload)
    {
      FrameSent(frames, f, kind);
      frames := frames + [f];
      sent := sent + bytes;
      writeErr := frameType == CLOSE;
      pos := MAX_HEADER;
      open := !final;
      if !final { frameType := CONTINUATION; }
    }

    /** Sends what is buffered, and `extra`, as one frame. */
    method FlushFrame(final: bool, extra: Bytes) returns (ok: bool)
      requires Valid() && open && (isServer || extra == [])
      modifies this, writeBuf
      ensures Valid() && kind == old(kind)
      ensures ok <==> !old(writeErr) && (IsControl(old(kind)) ==> final && |old(Buffered())| + |extra| <= MAX_CONTROL)
      ensures ok ==> Assemble(frames) == Delivered(old(Assemble(frames)), kind, final, old(Content()) + extra)
      ensures ok ==> open == !final && (open ==> Buffered() == [])
      ensures !ok ==> !open && frames == old(frames)
    {
      var length := pos - MAX_HEADER + |extra|;
      if IsControl(frameType) && (!final || length > MAX_CONTROL) {
        open := false;
        return false;
      }
      var bytes, f := BuildFrame(final, extra);
      if writeErr {
        open := false;
        return false;
      }
      ConcatAssociates(SoFar(Assemble(frames)), old(Buffered()), extra);
      Commit(bytes, f, final);
      ok := true;
    }

    // ---- Write, Close ----

    /** The peer has seen no further message, whole or control. */
    ghost predicate SameFor(a: Assembly)
      reads this`frames
    {
      Assemble(frames).messages == a.messages && Assemble(frames).controls == a.controls
    }

    method CopyIn(x: Bytes)
      requires Valid() && pos + |x| <= writeBuf.Length
      modifies this`pos, writeBuf
      ensures Valid() && Buffered() == old(Buffered()) + x
    {
      ghost var s := writeBuf[..];
      Put(pos, x);
      TwoPieces(s, writeBuf[..], MAX_HEADER, pos, pos + |x|, Buffered(), x);
      pos := pos + |x|;
    }

    /** Room for at least one and at most `max` bytes, sending a frame if the buffer is full. */
    method Ncopy(max: nat) returns (ok: bool, n: nat)
      requires Valid() && open && max > 0
      modifies this, writeBuf
      ensures Valid() && kind == old(kind) && SameFor(old(Assemble(frames)))
      ensures ok ==> open && Content() == old(Content()) && writeErr == old(writeErr) && 0 < n <= max
                     && pos + n <= writeBuf.Length
      ensures !ok ==> !open && (IsControl(kind) || old(writeErr)) && old(pos) == writeBuf.Length
      ensures ok && IsControl(kind) ==> pos == old(pos)
    {
      ok := true;
      n := writeBuf.Length - pos;
      if n == 0 {
        ok := FlushFrame(false, []);
        if !ok { return; }
        n := writeBuf.Length - pos;
        assert Content() == old(Content());
      }
      if n > max { n := max; }
    }

    method WriteBuffered(p: Bytes) returns (ok: bool)
      requires Valid() && open
      modifies this, writeBuf
      ensures Valid() && kind == old(kind) && SameFor(old(Assemble(frames)))
      ensures ok ==> open && Content() == old(Content()) + p
      ensures !ok ==> !open && (IsControl(kind) || old(writeErr))
      ensures IsControl(kind) ==> (ok <==> old(pos) + |p| <= writeBuf.Length) && (ok ==> pos == old(pos) + |p|)
      ensures ok ==> writeErr == old(writeErr)
    {
      var rest := p;
      ghost var done: Bytes := [];
      ok := true;
      while |rest| > 0
        invariant ok && Valid() && open && kind == old(kind) && writeErr == old(writeErr)
                  && SameFor(old(Assemble(frames)))
        invariant done + rest == p && Content() == old(Content()) + done
                  && (IsControl(kind) ==> pos == old(pos) + |done|)
      {
        var n;
        ok, n := Ncopy(|rest|);
        if !ok { return; }
        var piece := rest[..n];
        SplitAt(piece, rest[n..]);
        assert rest == piece + rest[n..];
        ConcatAssociates(SoFar(Assemble(frames)), Buffered(), piece);
        ConcatAssociates(old(Content()), done, piece);
        ConcatAssociates(done, piece, rest[n..]);
        CopyIn(piece);
        done := done + piece;
        rest := rest[n..];
      }
      assert done == p;
    }

    /** Any number of writes of any size: the content is their concatenation. */
    method Write(p: Bytes) returns (ok: bool)
      requires Valid()
      modifies this, writeBuf
      ensures Valid() && kind == old(kind) && SameFor(old(Assemble(frames)))
      ensures ok ==> open && old(open) && Content() == old(Content()) + p
      ensures !ok ==> !open && (IsControl(kind) || old(writeErr) || !old(open))
    {
      if !open { return false; }
      if |p| > 2 * writeBuf.Length && isServer {
        ok := FlushFrame(false, p);
        if ok { assert Content() == old(Content()) + p; }
        return;
      }
      ok := WriteBuffered(p);
    }

    /** The final frame: the message is then whole at the peer, exactly as written. */
    method Close() returns (ok: bool)
      requires Valid()
      modifies this, writeBuf
      ensures Valid() && !open && kind == old(kind)
      ensures ok <==> old(open) && !old(writeErr) && (IsControl(kind) ==> |old(Buffered())| <= MAX_CONTROL)
      ensures ok ==> Assemble(frames) == Delivered(old(Assemble(frames)), kind, true, old(Content()))
      ensures !ok ==> frames == old(frames)
    {
      if !open { return false; }
      assert Content() + [] == Content();
      ok := FlushFrame(true, []);
    }

    // ---- Messages ----

    /** Opens a message; one that was still open is finished first. */
    method NextWriter(messageType: int) returns (ok: bool)
      requires Valid()
      modifies this, writeBuf
      ensures Valid() && Assemble(frames) == old(Finished()) && (!old(open) ==> frames == old(frames))
      ensures ok <==> (IsControl(messageType) || IsData(messageType)) && !old(Finished()).closed
      ensures (ok <==> open)
              && (ok ==> kind == messageType && pos == MAX_HEADER && Content() == [] && Assemble(frames).open.None?)
    {
      if open { var _ := Close(); }
      if !IsControl(messageType) && !IsData(messageType) { return false; }
      if writeErr { return false; }
      frameType, kind, pos, open := messageType, messageType, MAX_HEADER, true;
      ok := true;
    }

    /** The server's way: one frame, straight from the caller's data. */
    method WriteWhole(data: Bytes) returns (ok: bool)
      requires Valid() && open && isServer && Content() == []
      modifies this, writeBuf
      ensures Valid() && !open && kind == old(kind)
      ensures ok <==> !old(writeErr) && (IsControl(kind) ==> |data| <= MAX_CONTROL)
      ensures ok ==> Assemble(frames) == Delivered(old(Assemble(frames)), kind, true, data)
      ensures !ok ==> frames == old(frames)
    {
      var n := if |data| <= writeBuf.Length - pos then |data| else writeBuf.Length - pos;
      assert Buffered() == [] && SoFar(Assemble(frames)) == [];
      CopyIn(data[..n]);
      assert Buffered() == data[..n] && Content() + data[n..] == data;
      ok := FlushFrame(true, data[n..]);
    }

    /** A whole message in one call, after finishing one still open. A control message must fit one frame; a
        client also needs it to fit its write buffer. */
    method WriteMessage(messageType: int, data: Bytes) returns (ok: bool)
      requires Valid()
      modifies this, writeBuf
      ensures Valid() && !open
      ensures ok <==> !old(Finished()).closed
                      && (IsData(messageType) || (IsControl(messageType) && |data| <= MAX_CONTROL
                                                  && (isServer || MAX_HEADER + |data| <= writeBuf.Length)))
      ensures ok ==> Assemble(frames) == Delivered(old(Finished()), messageType, true, data)
      ensures !ok ==> SameFor(old(Finished()))
    {
      ok := NextWriter(messageType);
      if !ok { return; }
      if isServer {
        ok := WriteWhole(data);
      } else {
        ok := WriteThrough(data);
      }
    }

    /** The client's way: through the buffer, then the final frame. */
    method WriteThrough(data: Bytes) returns (ok: bool)
      requires Valid() && open && Content() == [] && Assemble(frames).open.None?
      modifies this, writeBuf
      ensures Valid() && !open && kind == old(kind)
      ensures ok ==> Assemble(frames) == Delivered(old(Assemble(frames)), kind, true, data)
      ensures !ok ==> SameFor(old(Assemble(frames)))
      ensures !old(writeErr) ==>
                (ok <==> IsControl(kind) ==> |data| <= MAX_CONTROL && old(pos) + |data| <= writeBuf.Length)
    {
      ghost var a := Assemble(frames);
      ok := WriteBuffered(data);
      if ok {
        assert Content() == data;
        ghost var a1 := Assemble(frames);
        ok := Close();
        if ok { SameDelivery(a, a1, kind, data); }
      }
    }

    /** The bytes of a control frame. */
    method BuildControl(messageType: int, data: Bytes) returns (bytes: Bytes, ghost f: Frame)
      requires IsControl(messageType)
      ensures bytes == Encode(f) && f == Frame(true, messageType, f.key, data) && f.key.Some? == !isServer
    {
      var key := NewMaskKey();
      f := Frame(true, messageType, key, data);
      var body := data;
      if key.Some? {
        var b := new u8[|data|](i requires 0 <= i < |data| => data[i]);
        var address: nat := *;
        assert b[..] == data;
        var _ := MaskBytes(key.value, 0, b, 0, b.Length, address, machine);
        MaskedWhole(data, b[..], key.value, 0);
        body := b[..];
      }
      bytes := Header(true, messageType, |data|, key) + body;
    }

    /** A control frame on its own, even between the frames of an unfinished message. */
    method WriteControl(messageType: int, data: Bytes) returns (ok: bool)
      requires Valid()
      modifies this`sent, this`writeErr, this`frames
      ensures Valid() && Buffered() == old(Buffered())
      ensures ok <==> IsControl(messageType) && |data| <= MAX_CONTROL && !old(writeErr)
      ensures if ok then Assemble(frames) == Delivered(old(Assemble(frames)), messageType, true, data)
              else frames == old(frames)
    {
      if !IsControl(messageType) || |data| > MAX_CONTROL { return false; }
      var bytes, f := BuildControl(messageType, data);
      if writeErr { return false; }
      EncodeAppend(frames, f);
      AssembleAppend(EMPTY, frames, f);
      frames := frames + [f];
      sent := sent + bytes;
      writeErr := messageType == CLOSE;
      ok := true;
    }
  }
}
