/** Setting, getting and deleting single header extensions. */
module RtpExtensions {
  import opened Serial
  import opened Wrappers
  import opened Binary
  import opened RtpPacket
  import opened RtpExact

  datatype EditError = IdRange | PayloadSize | NotEnabled | NotFound

  // ---- On the list ----

  /** The first extension with the identifier is the one that counts. */
  function Lookup(es: seq<Extension>, id: u8): Option<Bytes> {
    if es == [] then None else if es[0].id == id then Some(es[0].payload) else Lookup(es[1..], id)
  }

  function Put(es: seq<Extension>, id: u8, payload: Bytes): seq<Extension> {
    if es == [] then [Extension(id, payload)]
    else if es[0].id == id then [Extension(id, payload)] + es[1..]
    else [es[0]] + Put(es[1..], id, payload)
  }

  function Remove(es: seq<Extension>, id: u8): seq<Extension> {
    if es == [] then [] else if es[0].id == id then es[1..] else [es[0]] + Remove(es[1..], id)
  }

  function Count(es: seq<Extension>, id: u8): nat {
    if es == [] then 0 else (if es[0].id == id then 1 else 0) + Count(es[1..], id)
  }

  lemma {:induction false} PutIsUpdate(es: seq<Extension>, id: u8, payload: Bytes, j: u8)
    ensures Lookup(Put(es, id, payload), j) == if j == id then Some(payload) else Lookup(es, j)
    ensures Count(Put(es, id, payload), j) == if j == id && Count(es, j) == 0 then 1 else Count(es, j)
  {
    if es != [] && es[0].id != id {
      PutIsUpdate(es[1..], id, payload, j);
      assert Put(es, id, payload)[1..] == Put(es[1..], id, payload);
    } else if es != [] {
      assert Put(es, id, payload)[1..] == es[1..];
    }
  }

  lemma {:induction false} FoundWhenCounted(es: seq<Extension>, id: u8)
    ensures Lookup(es, id).Some? <==> Count(es, id) > 0
  {
    if es != [] { FoundWhenCounted(es[1..], id); }
  }

  /** Deleting takes out one occurrence and leaves the others alone. */
  lemma {:induction false} RemoveOne(es: seq<Extension>, id: u8, j: u8)
    ensures j != id ==> Lookup(Remove(es, id), j) == Lookup(es, j)
    ensures Count(Remove(es, id), j) == if j == id && Count(es, j) > 0 then Count(es, j) - 1 else Count(es, j)
  {
    if es != [] && es[0].id != id {
      RemoveOne(es[1..], id, j);
      assert Remove(es, id)[1..] == Remove(es[1..], id);
    }
  }

  /** So the identifier is gone exactly when it was there at most once. */
  lemma RemovedWhenUnique(es: seq<Extension>, id: u8)
    ensures Lookup(Remove(es, id), id).None? <==> Count(es, id) <= 1
  {
    RemoveOne(es, id, id);
    FoundWhenCounted(Remove(es, id), id);
  }

  /** Deleting what was just added gives the list back. */
  lemma {:induction false} RemoveUndoesPut(es: seq<Extension>, id: u8, payload: Bytes)
    requires Lookup(es, id).None?
    ensures Remove(Put(es, id, payload), id) == es
  {
    if es != [] {
      RemoveUndoesPut(es[1..], id, payload);
      assert Put(es, id, payload)[1..] == Put(es[1..], id, payload);
    }
  }

  // ---- On the header ----

  /** The limits of the profile in force. */
  function Refusal(h: Header, id: u8, payload: Bytes): Option<EditError> {
    if !h.extension then None
    else if h.extensionProfile == ONE_BYTE then
      if id < 1 || id > 14 then Some(IdRange) else if |payload| > 16 then Some(PayloadSize) else None
    else if h.extensionProfile == TWO_BYTE then
      if id < 1 then Some(IdRange) else if |payload| > 255 then Some(PayloadSize) else None
    else if id != 0 then Some(IdRange) else None
  }

  /** The first extension of a header chooses the profile by its size and is not checked. */
  function SetIn(h: Header, id: u8, payload: Bytes): Header {
    if h.extension then h.(extensions := Put(h.extensions, id, payload))
    else h.(extension := true, extensions := h.extensions + [Extension(id, payload)],
            extensionProfile :=
              if |payload| <= 16 then ONE_BYTE else if |payload| < 256 then TWO_BYTE else h.extensionProfile)
  }

  lemma {:induction false} PutKeepsAll(es: seq<Extension>, id: u8, payload: Bytes, p: Extension -> bool)
    requires All(p, es)
    ensures All(p, Put(es, id, payload)) <==> p(Extension(id, payload))
  {
    var r := Put(es, id, payload);
    if es == [] {
      assert r[0] == Extension(id, payload);
    } else {
      assert r == [r[0]] + r[1..] && es == [es[0]] + es[1..];
      AllCons(p, r[0], r[1..]);
      AllCons(p, es[0], es[1..]);
      if es[0].id != id { PutKeepsAll(es[1..], id, payload, p); }
    }
  }

  lemma AllCons(p: Extension -> bool, e: Extension, es: seq<Extension>)
    ensures All(p, [e] + es) <==> p(e) && All(p, es)
  {
    var r := [e] + es;
    assert r[0] == e && forall i :: 0 <= i < |es| ==> r[i + 1] == es[i];
    if All(p, r) {
      forall i | 0 <= i < |es| ensures p(es[i]) { assert p(r[i + 1]); }
    }
  }

  /** What a caller can check beforehand. With a profile in force: in the one-byte form the payload is not
      empty, in either list form the block's length still fits its field, and in the RFC 3550 form the payload
      is whole words that fit. A first extension: the identifier suits the form its size selects. */
  predicate Suits(h: Header, id: u8, payload: Bytes) {
    if h.extension then
      if h.extensionProfile == ONE_BYTE
      then payload != [] && Rounded(ListSize(Put(h.extensions, id, payload), 1)) / 4 < 0x1_0000
      else if h.extensionProfile == TWO_BYTE then Rounded(ListSize(Put(h.extensions, id, payload), 2)) / 4 < 0x1_0000
      else WholeWords(payload)
    else if |payload| <= 16 then OneByteReadable(Extension(id, payload))
    else if |payload| < 256 then id >= 1
    else id == 0 && WholeWords(payload)
  }

  predicate WholeWords(payload: Bytes) { |payload| % 4 == 0 && |payload| < 0x4_0000 }

  lemma RoundedWords(n: nat)
    ensures Rounded(n) / 4 < 0x1_0000 <==> n <= 0x3_FFFC
  {}

  lemma FirstSuits(h: Header, id: u8, payload: Bytes)
    requires Valid(h) && !h.extension
    ensures Encodable(SetIn(h, id, payload)) && (Valid(SetIn(h, id, payload)) <==> Suits(h, id, payload))
  {
    var h', e := SetIn(h, id, payload), Extension(id, payload);
    assert h'.extensions == [e] && h'.extensions[0] == e;
    assert ListSize([e], 1) == 1 + |payload| && ListSize([e], 2) == 2 + |payload| by { assert [e][1..] == []; }
    RoundedWords(ExtensionSize(h'));
  }

  lemma NextSuits(h: Header, id: u8, payload: Bytes)
    requires Valid(h) && h.extension && Refusal(h, id, payload).None?
    ensures Encodable(SetIn(h, id, payload)) && (Valid(SetIn(h, id, payload)) <==> Suits(h, id, payload))
  {
    var h', es := SetIn(h, id, payload), Put(h.extensions, id, payload);
    if h.extensionProfile == ONE_BYTE {
      assert All(OneByteReadable, h.extensions);
      PutKeepsAll(h.extensions, id, payload, OneByteReadable);
      assert All(OneByteReadable, es) <==> forall i :: 0 <= i < |es| ==> OneByteReadable(es[i]);
    } else if h.extensionProfile == TWO_BYTE {
      assert All(TwoByteReadable, h.extensions);
      PutKeepsAll(h.extensions, id, payload, TwoByteReadable);
      assert All(TwoByteReadable, es) <==> forall i :: 0 <= i < |es| ==> TwoByteReadable(es[i]);
    } else {
      assert es == [Extension(0, payload)];
      RoundedWords(|payload|);
    }
  }

  /** After an accepted SetExtension on a valid header, marshalling succeeds and unmarshalling gives the header
      back exactly under that condition. */
  lemma SetSurvivesWhenSuited(h: Header, id: u8, payload: Bytes, rest: Bytes)
    requires Valid(h) && Refusal(h, id, payload).None?
    ensures Encodable(SetIn(h, id, payload)) && (Restored(SetIn(h, id, payload), rest) <==> Suits(h, id, payload))
  {
    if h.extension { NextSuits(h, id, payload); } else { FirstSuits(h, id, payload); }
    RestoredWhenValid(SetIn(h, id, payload), rest);
  }

  // ---- An empty payload in the one-byte form ----

  /** It is written as the single byte 0xFF, whatever its identifier. */
  lemma EmptyPayloadByte(id: u8)
    ensures EncodeOneByte(Extension(id, [])) == [0xFF]
  {
    ShiftBy8(1);
    OrAllOnes(id % 16 * 16, 8);
    assert (0 + 255) % 256 == 255;
  }

  /** Which is the reserved identifier: the extensions before it are read, then the loop stops. */
  lemma {:induction false} ReservedEndsList(f: Form, es: seq<Extension>, more: Bytes, left: nat)
    requires ReadsAll(f, es) && more != [] && f.piece(more) == Reserved && left > 0
    ensures var x := EncodeList(f, es); DecodeList(f.piece, x + more, |x| + left) == Ok(Parsed(es, |x| + 1))
    decreases |es|
  {
    if es == [] {
      assert [] + more == more;
    } else {
      ReservedEndsList(f, es[1..], more, left);
      ListFirst(f, es, more, left, 1);
    }
  }

  lemma ReservedByte(rest: Bytes)
    ensures OneBytePiece([0xFF] + rest) == Reserved
  {
    assert ([0xFF] + rest)[0] == 0xFF;
  }

  lemma {:induction false} PutNew(es: seq<Extension>, id: u8, payload: Bytes)
    requires Lookup(es, id).None?
    ensures Put(es, id, payload) == es + [Extension(id, payload)]
  {
    if es != [] { PutNew(es[1..], id, payload); }
  }

  lemma {:induction false} EncodeLast(f: Form, es: seq<Extension>, e: Extension)
    ensures EncodeList(f, es + [e]) == EncodeList(f, es) + f.enc(e)
  {
    if es == [] {
      assert es + [e] == [e] && [e][1..] == [];
    } else {
      assert (es + [e])[0] == es[0] && (es + [e])[1..] == es[1..] + [e];
      EncodeLast(f, es[1..], e);
      JoinsLeft(f.enc(es[0]), EncodeList(f, es[1..]), f.enc(e));
    }
  }

  /** In any form, an entry at the end whose first byte reads as reserved is lost. */
  lemma LastIsLost(f: Form, es: seq<Extension>, e: Extension, x: Bytes, n: nat, rest: Bytes)
    requires ReadsAll(f, es) && x == EncodeList(f, es + [e]) && n >= |x|
    requires |f.enc(e)| == 1 && f.piece(f.enc(e) + rest) == Reserved
    ensures DecodeList(f.piece, x + rest, n) == Ok(Parsed(es, |x|))
  {
    var y := EncodeList(f, es);
    EncodeLast(f, es, e);
    JoinsLeft(y, f.enc(e), rest);
    ReservedEndsList(f, es, f.enc(e) + rest, n - |y|);
  }

  /** The call is accepted, and a reader of what is then written, in a block of at least that size, finds the
      extensions set before and not this one. */
  lemma EmptyPayloadIsLost(h: Header, id: u8, x: Bytes, n: nat, rest: Bytes)
    requires Valid(h) && h.extension && h.extensionProfile == ONE_BYTE && 1 <= id <= 14
             && Lookup(h.extensions, id).None?
    requires x == EncodeList(OneByteForm(), SetIn(h, id, []).extensions) && n >= |x|
    ensures Refusal(h, id, []).None? && DecodeList(OneBytePiece, x + rest, n) == Ok(Parsed(h.extensions, |x|))
  {
    PutNew(h.extensions, id, []);
    AllOneByte(h.extensions);
    EmptyPayloadByte(id);
    ReservedByte(rest);
    LastIsLost(OneByteForm(), h.extensions, Extension(id, []), x, n, rest);
  }

  // ---- The object ----

  lemma AtEntry(es: seq<Extension>, i: nat, id: u8)
    requires i < |es|
    ensures if es[i].id == id
            then Lookup(es[i..], id).Some? && es[..i] + Remove(es[i..], id) == es[..i] + es[i + 1..]
            else && Lookup(es[i..], id) == Lookup(es[i + 1..], id)
                 && es[..i] + Remove(es[i..], id) == es[..i + 1] + Remove(es[i + 1..], id)
  {
    assert es[i..][1..] == es[i + 1..] && es[i..][0] == es[i];
    assert es[..i] + ([es[i]] + Remove(es[i + 1..], id)) == es[..i + 1] + Remove(es[i + 1..], id);
  }

  class HeaderObject {
    var header: Header

    constructor (header: Header)
      ensures this.header == header
    {
      this.header := header;
    }

    method SetExtension(id: u8, payload: Bytes) returns (err: Option<EditError>)
      modifies this
      ensures err == Refusal(old(header), id, payload)
      ensures header == if err.None? then SetIn(old(header), id, payload) else old(header)
    {
      err := Refusal(header, id, payload);
      if err.Some? { return; }
      if header.extension {
        var es, i := header.extensions, 0;
        assert es[..0] + Put(es[0..], id, payload) == Put(es, id, payload) by { assert es[0..] == es; }
        while i < |es|
          invariant 0 <= i <= |es| && es[..i] + Put(es[i..], id, payload) == Put(es, id, payload)
        {
          if es[i].id == id {
            header := header.(extensions := es[i := es[i].(payload := payload)]);
            assert es[i..][1..] == es[i + 1..];
            assert es[i := Extension(id, payload)] == es[..i] + ([Extension(id, payload)] + es[i + 1..]);
            return;
          }
          assert es[i..][1..] == es[i + 1..];
          assert es[..i] + ([es[i]] + Put(es[i + 1..], id, payload)) == es[..i + 1] + Put(es[i + 1..], id, payload);
          i := i + 1;
        }
        assert es[|es|..] == [] && es[..|es|] == es;
        header := header.(extensions := es + [Extension(id, payload)]);
        return;
      }
      var profile := header.extensionProfile;
      if |payload| <= 16 { profile := ONE_BYTE; } else if |payload| < 256 { profile := TWO_BYTE; }
      header := header.(extension := true, extensionProfile := profile,
                        extensions := header.extensions + [Extension(id, payload)]);
    }

    method GetExtension(id: u8) returns (payload: Option<Bytes>)
      ensures payload == if header.extension then Lookup(header.extensions, id) else None
    {
      if !header.extension { return None; }
      var es, i := header.extensions, 0;
      assert es[0..] == es;
      while i < |es|
        invariant 0 <= i <= |es| && Lookup(es[i..], id) == Lookup(es, id)
      {
        if es[i].id == id { return Some(es[i].payload); }
        assert es[i..][1..] == es[i + 1..];
        i := i + 1;
      }
      return None;
    }

    method DelExtension(id: u8) returns (err: Option<EditError>)
      modifies this
      ensures err == if !old(header).extension then Some(NotEnabled)
                     else if Lookup(old(header).extensions, id).None? then Some(NotFound) else None
      ensures header == if err.None? then old(header).(extensions := Remove(old(header).extensions, id))
                        else old(header)
    {
      if !header.extension { return Some(NotEnabled); }
      var es, i := header.extensions, 0;
      assert es[0..] == es;
      while i < |es|
        invariant 0 <= i <= |es| && header == old(header) && Lookup(es[i..], id) == Lookup(es, id)
        invariant es[..i] + Remove(es[i..], id) == Remove(es, id)
      {
        AtEntry(es, i, id);
        if es[i].id == id {
          header := header.(extensions := es[..i] + es[i + 1..]);
          return None;
        }
        i := i + 1;
      }
      return Some(NotFound);
    }
  }
}
