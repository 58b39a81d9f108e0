/** Channel frames and their wire format: `crates/primitives/src/da/frame.rs`. */
module Frames {
  import opened Bytes

  const DERIVATION_VERSION_0: u8 := 0
  const FRAME_OVERHEAD := 200
  const BASE_FRAME_LEN := 16 + 2 + 4 + 1
  const MAX_FRAME_LEN := 10 * 1024 * 1024

  type ChannelId = s: bytes | |s| == 16 witness [0, 0, 0, 0, 0, 0, 0, 0, 0, 0, 0, 0, 0, 0, 0, 0]

  datatype Frame = Frame(id: ChannelId, number: u16, data: bytes, isLast: bool) {
    /** Buffer accounting: the payload plus a flat tagging overhead. */
    function Size(): nat { |data| + FRAME_OVERHEAD }
  }

  datatype DecodeError = DataTooLarge(size: nat) | DataTooShort(size: nat)

  datatype ParseError =
    | FrameDecodingError(error: DecodeError)
    | NoFrames
    | UnsupportedVersion
    | DataLengthMismatch
    | NoFramesDecoded

  /** id ++ number ++ data length (cast to 32 bits) ++ data ++ is_last */
  function Encoded(f: Frame): bytes {
    f.id + ToBE(2, f.number) + ToBE(4, |f.data| % 0x1_0000_0000) + f.data
    + [if f.isLast then 1 else 0]
  }

  /** `Frame::encode`, appending field by field. */
  method Encode(f: Frame) returns (encoded: bytes)
    ensures encoded == Encoded(f)
    ensures |encoded| == BASE_FRAME_LEN + |f.data|
  {
    encoded := [];
    encoded := encoded + f.id;
    encoded := encoded + ToBE(2, f.number);
    encoded := encoded + ToBE(4, |f.data| % 0x1_0000_0000);
    encoded := encoded + f.data;
    encoded := encoded + [if f.isLast then 1 else 0];
  }

  /** `Frame::decode`: the number of bytes consumed and the frame. */
  function Decode(encoded: bytes): (r: Result<(nat, Frame), DecodeError>)
    ensures r.Ok? ==> BASE_FRAME_LEN <= r.value.0 <= |encoded|
  {
    if |encoded| < BASE_FRAME_LEN then Err(DataTooShort(|encoded|))
    else
      Widths();
      var number := FromBE(encoded[16..18]);
      var dataLen := FromBE(encoded[18..22]);
      if dataLen > MAX_FRAME_LEN || dataLen >= |encoded| - (BASE_FRAME_LEN - 1) then
        Err(DataTooLarge(dataLen))
      else
        Ok((BASE_FRAME_LEN + dataLen,
            Frame(encoded[..16], number, encoded[22..22 + dataLen], encoded[22 + dataLen] == 1)))
  }

  /** Where the fields of an encoded frame lie, whatever follows it. */
  lemma EncodedFields(f: Frame, rest: bytes)
    ensures var b := Encoded(f) + rest;
            && |b| == BASE_FRAME_LEN + |f.data| + |rest|
            && b[..16] == f.id
            && b[16..18] == ToBE(2, f.number)
            && b[18..22] == ToBE(4, |f.data| % 0x1_0000_0000)
            && b[22..22 + |f.data|] == f.data
            && b[22 + |f.data|] == (if f.isLast then 1 else 0)
            && b[BASE_FRAME_LEN + |f.data|..] == rest
  {
  }

  /** Decoding undoes encoding in front of any bytes, exactly for the frames whose payload
      fits MAX_FRAME_LEN. */
  lemma DecodeEncoded(f: Frame, rest: bytes)
    ensures Decode(Encoded(f) + rest) == Ok((BASE_FRAME_LEN + |f.data|, f))
            <==> |f.data| <= MAX_FRAME_LEN
  {
    Widths();
    BERoundTrip(2, f.number);
    BERoundTrip(4, |f.data| % 0x1_0000_0000);
    var b := Encoded(f) + rest;
    assert && |b| == BASE_FRAME_LEN + |f.data| + |rest|
           && b[..16] == f.id
           && FromBE(b[16..18]) == f.number
           && FromBE(b[18..22]) == |f.data| % 0x1_0000_0000
           && b[22..22 + |f.data|] == f.data
           && b[22 + |f.data|] == (if f.isLast then 1 else 0) by { EncodedFields(f, rest); }
    DecodeFromFields(b, f);
  }

  lemma DecodeFromFields(b: bytes, f: Frame)
    requires BASE_FRAME_LEN + |f.data| <= |b|
    requires b[..16] == f.id && FromBE(b[16..18]) == f.number
    requires FromBE(b[18..22]) == |f.data| % 0x1_0000_0000
    requires b[22..22 + |f.data|] == f.data && (b[22 + |f.data|] == 1 <==> f.isLast)
    ensures Decode(b) == Ok((BASE_FRAME_LEN + |f.data|, f)) <==> |f.data| <= MAX_FRAME_LEN
  {
    if |f.data| > MAX_FRAME_LEN && Decode(b).Ok? {
      assert |Decode(b).value.1.data| == FromBE(b[18..22]) <= MAX_FRAME_LEN;
    }
  }

  lemma DecodedFields(b: bytes)
    requires Decode(b).Ok?
    ensures var (n, f) := Decode(b).value;
            && n == BASE_FRAME_LEN + |f.data| && |f.data| <= MAX_FRAME_LEN
            && f.id == b[..16] && ToBE(2, f.number) == b[16..18]
            && ToBE(4, |f.data| % 0x1_0000_0000) == b[18..22]
            && f.data == b[22..n - 1] && f.isLast == (b[n - 1] == 1)
  {
    var f := Decode(b).value.1;
    assert |f.data| == FromBE(b[18..22]) <= MAX_FRAME_LEN;
    assert |f.data| % 0x1_0000_0000 == FromBE(b[18..22]);
    BERoundTripBytes(b[16..18]);
    BERoundTripBytes(b[18..22]);
  }

  lemma FieldsInOrder(b: bytes, m: nat)
    requires 22 <= m <= |b|
    ensures b[..m] == b[..16] + b[16..18] + b[18..22] + b[22..m]
  {}

  lemma SameButLast(a: bytes, b: bytes)
    requires |a| == |b| > 0 && a[..|a| - 1] == b[..|a| - 1]
    ensures a == b <==> a[|a| - 1] == b[|a| - 1]
  {
    assert a == a[..|a| - 1] + [a[|a| - 1]] && b == b[..|a| - 1] + [b[|a| - 1]];
  }

  /** Conversely, whatever is accepted is the encoding of the decoded frame, up to the
      last byte: every value other than 1 reads as "not last". */
  lemma DecodedIsEncoded(b: bytes)
    requires Decode(b).Ok?
    ensures var (n, f) := Decode(b).value;
            && Encoded(f)[..n - 1] == b[..n - 1]
            && (Encoded(f) == b[..n] <==> b[n - 1] <= 1)
            && |Encoded(f)| == n
            && |f.data| <= MAX_FRAME_LEN
  {
    var (n, f) := Decode(b).value;
    DecodedFields(b);
    FieldsInOrder(b, n - 1);
    var e := Encoded(f);
    assert e[..n - 1] == f.id + ToBE(2, f.number) + ToBE(4, |f.data| % 0x1_0000_0000) + f.data;
    assert b[..n][..n - 1] == b[..n - 1];
    SameButLast(e, b[..n]);
  }

  /** The frames of `data`, decoded back to back until nothing is left. */
  function ParseAll(data: bytes): Result<seq<Frame>, ParseError>
    decreases |data|
  {
    if data == [] then Ok([])
    else
      match Decode(data)
      case Err(e) => Err(FrameDecodingError(e))
      case Ok((n, f)) =>
        Prepend([f], ParseAll(data[n..]))
  }

  function Parsed(encoded: bytes): Result<seq<Frame>, ParseError> {
    if encoded == [] then Err(NoFrames)
    else if encoded[0] != DERIVATION_VERSION_0 then Err(UnsupportedVersion)
    else if encoded == [DERIVATION_VERSION_0] then Err(NoFramesDecoded)
    else ParseAll(encoded[1..])
  }

  /** The loop of `Frame::parse_frames`. Its final length check can never fail: decoding does
      not consume more than it is given. */
  method ParseBody(data: bytes) returns (r: Result<seq<Frame>, ParseError>)
    ensures r == ParseAll(data) && r != Err(DataLengthMismatch)
    ensures r.Ok? ==> (r.value == [] <==> data == [])
  {
    var frames: seq<Frame> := [];
    var offset := 0;
    assert data[0..] == data;
    ghost var all := ParseAll(data);
    PrependNone(all);
    while offset < |data|
      invariant 0 <= offset <= |data|
      invariant frames == [] <==> offset == 0
      invariant all == Prepend(frames, ParseAll(data[offset..]))
    {
      var d := Decode(data[offset..]);
      if d.Err? { return Err(FrameDecodingError(d.error)); }
      var (frameLength, frame) := d.value;
      ParseStep(data, offset, frames);
      frames := frames + [frame];
      offset := offset + frameLength;
    }
    if offset != |data| { return Err(DataLengthMismatch); }
    assert data[offset..] == [] && frames + [] == frames;
    return Ok(frames);
  }

  /** `Frame::parse_frames` */
  method ParseFrames(encoded: bytes) returns (r: Result<seq<Frame>, ParseError>)
    ensures r == Parsed(encoded) && r != Err(DataLengthMismatch)
    ensures r.Ok? ==> r.value != []
  {
    if |encoded| == 0 { return Err(NoFrames); }
    if encoded[0] != DERIVATION_VERSION_0 { return Err(UnsupportedVersion); }
    assert encoded == [encoded[0]] + encoded[1..];
    r := ParseBody(encoded[1..]);
    if r.Ok? && |r.value| == 0 { return Err(NoFramesDecoded); }
  }

  /** One round of the parsing loop. */
  lemma ParseStep(data: bytes, offset: nat, frames: seq<Frame>)
    requires offset < |data| && Decode(data[offset..]).Ok?
    ensures var (n, f) := Decode(data[offset..]).value;
            Prepend(frames, ParseAll(data[offset..])) == Prepend(frames + [f], ParseAll(data[offset + n..]))
  {
    var (n, f) := Decode(data[offset..]).value;
    assert data[offset..][n..] == data[offset + n..];
    PrependOne(frames, f, ParseAll(data[offset + n..]));
  }

  function Prepend(fs: seq<Frame>, r: Result<seq<Frame>, ParseError>): Result<seq<Frame>, ParseError> {
    match r
    case Err(e) => Err(e)
    case Ok(gs) => Ok(fs + gs)
  }

  lemma PrependNone(r: Result<seq<Frame>, ParseError>)
    ensures Prepend([], r) == r
  {
    if r.Ok? { assert [] + r.value == r.value; }
  }

  lemma PrependOne(fs: seq<Frame>, f: Frame, r: Result<seq<Frame>, ParseError>)
    ensures Prepend(fs, Prepend([f], r)) == Prepend(fs + [f], r)
  {
    if r.Ok? { assert fs + ([f] + r.value) == (fs + [f]) + r.value; }
  }

  function EncodedAll(fs: seq<Frame>): bytes {
    if fs == [] then [] else Encoded(fs[0]) + EncodedAll(fs[1..])
  }

  predicate AllFit(fs: seq<Frame>) {
    forall i :: 0 <= i < |fs| ==> |fs[i].data| <= MAX_FRAME_LEN
  }

  lemma ParseFirst(f: Frame, rest: bytes)
    requires |f.data| <= MAX_FRAME_LEN
    ensures ParseAll(Encoded(f) + rest) == Prepend([f], ParseAll(rest))
  {
    var b := Encoded(f) + rest;
    assert b != [] && b[BASE_FRAME_LEN + |f.data|..] == rest by { EncodedFields(f, rest); }
    DecodeEncoded(f, rest);
  }

  lemma {:induction false} ParseAllEncoded(fs: seq<Frame>)
    requires AllFit(fs)
    ensures ParseAll(EncodedAll(fs)) == Ok(fs)
  {
    if fs != [] {
      ParseFirst(fs[0], EncodedAll(fs[1..]));
      ParseAllEncoded(fs[1..]);
      assert fs == [fs[0]] + fs[1..];
    }
  }

  /** Frames concatenated behind the version byte parse back to exactly those frames,
      in order. */
  lemma ParseEncodedFrames(fs: seq<Frame>)
    requires fs != [] && AllFit(fs)
    ensures Parsed([DERIVATION_VERSION_0] + EncodedAll(fs)) == Ok(fs)
  {
    var encoded := [DERIVATION_VERSION_0] + EncodedAll(fs);
    assert encoded[1..] == EncodedAll(fs);
    ParseAllEncoded(fs);
  }

  /** `data` starts with frame `f`: id, number, payload length and payload, and a last byte that is 1 for a
      closing frame and anything else for another. */
  predicate StartsWith(data: bytes, f: Frame) {
    var n := |f.data|;
    && |data| >= BASE_FRAME_LEN + n && n <= MAX_FRAME_LEN
    && data[..16] == f.id && FromBE(data[16..18]) == f.number && FromBE(data[18..22]) == n
    && data[22..22 + n] == f.data && (data[22 + n] == 1 <==> f.isLast)
  }

  lemma DecodesExactly(data: bytes, f: Frame)
    ensures Decode(data) == Ok((BASE_FRAME_LEN + |f.data|, f)) <==> StartsWith(data, f)
    ensures Decode(data).Ok? && Decode(data).value.1 == f ==> Decode(data).value.0 == BASE_FRAME_LEN + |f.data|
  {
    Widths();
    if StartsWith(data, f) { DecodeFromFields(data, f); }
    if Decode(data).Ok? { DecodedFields(data); }
  }

  /** The frames lie back to back and there is nothing behind them. */
  predicate BackToBack(data: bytes, fs: seq<Frame>) {
    if fs == [] then data == []
    else StartsWith(data, fs[0]) && BackToBack(data[BASE_FRAME_LEN + |fs[0].data|..], fs[1..])
  }

  lemma {:induction false} ParseAllExactly(data: bytes, fs: seq<Frame>)
    ensures ParseAll(data) == Ok(fs) <==> BackToBack(data, fs)
    decreases |fs|
  {
    if fs != [] {
      DecodesExactly(data, fs[0]);
      var n := BASE_FRAME_LEN + |fs[0].data|;
      if n <= |data| { ParseAllExactly(data[n..], fs[1..]); }
      assert fs == [fs[0]] + fs[1..];
      if ParseAll(data) == Ok(fs) { FirstParsed(data, fs); }
    } else if ParseAll(data).Ok? && data != [] {
      assert ParseAll(data).value != [];
    }
  }

  lemma FirstParsed(data: bytes, fs: seq<Frame>)
    requires fs != [] && ParseAll(data) == Ok(fs)
    ensures Decode(data).Ok?
    ensures var (n, f) := Decode(data).value;
            f == fs[0] && n == BASE_FRAME_LEN + |f.data| && ParseAll(data[n..]) == Ok(fs[1..])
  {
    assert data != [];
    var (n, f) := Decode(data).value;
    DecodedFields(data);
    var rest := ParseAll(data[n..]).value;
    assert fs == [f] + rest && ([f] + rest)[1..] == rest;
  }

  /** What is accepted: a version byte 0 and at least one frame, back to back to the end. And which error
      stands for what is not. */
  lemma ParsesExactly(encoded: bytes, fs: seq<Frame>)
    ensures Parsed(encoded) == Ok(fs) <==> encoded != [] && encoded[0] == 0 && fs != [] && BackToBack(encoded[1..], fs)
    ensures Parsed(encoded) == Err(NoFrames) <==> encoded == []
    ensures Parsed(encoded) == Err(UnsupportedVersion) <==> encoded != [] && encoded[0] != 0
    ensures Parsed(encoded) == Err(NoFramesDecoded) <==> encoded == [0]
  {
    if encoded != [] {
      ParseAllExactly(encoded[1..], fs);
      OnlyDecodingFails(encoded[1..]);
      assert encoded == [encoded[0]] + encoded[1..];
      if encoded == [0] { assert encoded[1..] == []; }
      if encoded[1..] == [] { ParseAllExactly([], fs); }
    }
  }

  lemma {:induction false} OnlyDecodingFails(data: bytes)
    ensures ParseAll(data).Err? ==> ParseAll(data).error.FrameDecodingError?
    decreases |data|
  {
    if data != [] && Decode(data).Ok? { OnlyDecodingFails(data[Decode(data).value.0..]); }
  }
}
