/** The EIP-4844 blob decoder: `crates/derive/src/sources/blob_data.rs`.

    A blob is 1024 rounds of four 32-byte field elements. The top two bits of each element must
    stay clear, so a round of 128 bytes carries 127 bytes: 31 from each element and three more,
    x, y and z, scattered over the low six bits of the four leading bytes. The first four bytes
    carried are the encoding version and the payload length. */
module Blob {
  import opened Bytes

  const BYTES_PER_BLOB := 131072
  const BLOB_ENCODING_VERSION: u8 := 0
  const BLOB_MAX_DATA_SIZE := (4 * 31 + 3) * 1024 - 4
  const BLOB_ENCODING_ROUNDS := 1024

  datatype BlobError = MissingData | InvalidEncodingVersion | InvalidLength | InvalidFieldElement

  // ---- Bit packing ---------------------------------------------------------

  // Masks and shifts are written as arithmetic: `e & 0b0011_1111` is `e % 64`,
  // `(e & 0b0011_0000) << 2` is `e / 16 % 4 * 64`, and `|` of disjoint bits is `+`.

  /** `(e & 0b0011_1111) | ((f & 0b0011_0000) << 2)` */
  function SixAndTwo(e: u8, f: u8): u8 {
    e % 64 + f / 16 % 4 * 64
  }

  /** `(e & 0b0000_1111) | ((f & 0b0000_1111) << 4)` */
  function FourAndFour(e: u8, f: u8): u8 {
    e % 16 + f % 16 * 16
  }

  // The arithmetic is the source's masks and shifts.

  lemma LowBits(e: bv8)
    ensures (e & 0x3f) as int == (e as int) % 64 && (e & 0x0f) as int == (e as int) % 16
  {
  }

  lemma MovedBits(f: bv8)
    ensures ((f & 0x30) << 2) as int == (f as int) / 16 % 4 * 64 && ((f & 0x0f) << 4) as int == (f as int) % 16 * 16
  {
  }

  /** Bits that do not meet add up. */
  lemma DisjointBits(x: bv8, y: bv8)
    requires x & y == 0
    ensures (x | y) as int == x as int + y as int
  {
  }

  lemma SixAndTwoBits(e: bv8, f: bv8)
    ensures ((e & 0x3f) | ((f & 0x30) << 2)) as int == SixAndTwo(e as int, f as int)
  {
    LowBits(e);
    MovedBits(f);
    DisjointBits(e & 0x3f, (f & 0x30) << 2);
  }

  lemma FourAndFourBits(e: bv8, f: bv8)
    ensures ((e & 0x0f) | ((f & 0x0f) << 4)) as int == FourAndFour(e as int, f as int)
  {
    LowBits(e);
    MovedBits(f);
    DisjointBits(e & 0x0f, (f & 0x0f) << 4);
  }

  lemma TopTwoBits(e: bv8)
    ensures e & 0xc0 == 0 <==> (e as int) / 64 == 0
  {
  }

  // ---- What a blob carries -------------------------------------------------

  /** Byte `o` of what the four field elements of round `r` carry. */
  function RoundAt(b: bytes, r: nat, o: nat): u8
    requires BYTES_PER_BLOB <= |b| && r < BLOB_ENCODING_ROUNDS && o < 127
  {
    var i := 128 * r;
    if o == 31 then SixAndTwo(b[i], b[i + 32])
    else if o == 63 then FourAndFour(b[i + 32], b[i + 96])
    else if o == 95 then SixAndTwo(b[i + 64], b[i + 96])
    else b[i + 1 + o]
  }

  /** Byte `q` of what the whole blob carries, header included. */
  function CarriedAt(b: bytes, q: nat): u8
    requires BYTES_PER_BLOB <= |b| && q < 127 * BLOB_ENCODING_ROUNDS
  {
    RoundAt(b, q / 127, q % 127)
  }

  /** Leading byte of field element `k`. */
  function Leading(b: bytes, k: nat): u8
    requires 32 * k < |b|
  {
    b[32 * k]
  }

  /** The elements of the first `r` rounds are in range. Element 0 is not looked at. */
  predicate ElementsLegal(b: bytes, r: nat)
    requires 128 * r <= |b|
  {
    forall k: nat :: 1 <= k < 4 * r ==> Leading(b, k) < 64
  }

  function Length(b: bytes): nat
    requires |b| >= 5
  {
    FromBE([0, b[2], b[3], b[4]])
  }

  /** Rounds that a payload of `length` bytes needs; at least one. */
  function Rounds(length: nat): nat {
    if length <= 123 then 1 else (length + 130) / 127
  }

  predicate CarriedZero(b: bytes, lo: nat, hi: nat)
    requires BYTES_PER_BLOB <= |b| && hi <= 127 * BLOB_ENCODING_ROUNDS
  {
    forall q: nat :: lo <= q < hi ==> CarriedAt(b, q) == 0
  }

  predicate ZeroFrom(b: bytes, i: nat)
    requires BYTES_PER_BLOB <= |b|
  {
    forall k :: i <= k < BYTES_PER_BLOB ==> b[k] == 0
  }

  /** The header is read before anything else, so short data can still be refused. */
  predicate Readable(b: bytes) {
    && |b| >= 5
    && (b[1] == BLOB_ENCODING_VERSION && Length(b) <= BLOB_MAX_DATA_SIZE ==> |b| >= BYTES_PER_BLOB)
  }

  /** The rounds read are legal, and everything past the payload is zero. */
  predicate Accepts(b: bytes, length: nat)
    requires BYTES_PER_BLOB <= |b| && length <= BLOB_MAX_DATA_SIZE
  {
    var r := Rounds(length);
    ElementsLegal(b, r) && CarriedZero(b, 4 + length, 127 * r) && ZeroFrom(b, 128 * r)
  }

  function Carried(b: bytes, length: nat): bytes
    requires BYTES_PER_BLOB <= |b| && length <= BLOB_MAX_DATA_SIZE
  {
    seq(length, i requires 0 <= i < length => CarriedAt(b, 4 + i))
  }

  function Decoded(b: bytes): Result<bytes, BlobError>
    requires Readable(b)
  {
    if b[1] != BLOB_ENCODING_VERSION then Err(InvalidEncodingVersion)
    else if Length(b) > BLOB_MAX_DATA_SIZE then Err(InvalidLength)
    else
      if Accepts(b, Length(b)) then Ok(Carried(b, Length(b))) else Err(InvalidFieldElement)
  }

  // ---- The decoder ---------------------------------------------------------

  datatype BlobData = BlobData(data: Option<bytes>, calldata: Option<bytes>)

  /** `decode_field_element`: 31 bytes of output from one element, or an error. */
  method DecodeFieldElement(data: bytes, outputPos: nat, inputPos: nat, output: array<u8>)
    returns (r: Result<(u8, nat, nat), BlobError>)
    requires inputPos + 32 <= |data| && outputPos + 31 <= output.Length
    modifies output
    ensures r == if data[inputPos] < 64 then Ok((data[inputPos], outputPos + 32, inputPos + 32))
                 else Err(InvalidFieldElement)
    ensures forall j :: 0 <= j < output.Length ==>
              output[j] == if r.Ok? && outputPos <= j < outputPos + 31 then data[inputPos + 1 + (j - outputPos)]
                           else old(output[j])
  {
    var leading := data[inputPos] as bv8;
    TopTwoBits(leading);
    if leading & 0xc0 != 0 { return Err(InvalidFieldElement); }
    forall j | outputPos <= j < outputPos + 31 {
      output[j] := data[inputPos + 1 + (j - outputPos)];
    }
    return Ok((data[inputPos], outputPos + 32, inputPos + 32));
  }

  /** `reassemble_bytes`: the three bytes packed into four leading bytes. */
  method ReassembleBytes(outputPos: nat, encodedByte: seq<u8>, output: array<u8>) returns (pos: nat)
    requires |encodedByte| == 4 && 97 <= outputPos <= output.Length + 32
    modifies output
    ensures pos == outputPos - 1
    ensures forall j :: 0 <= j < output.Length ==>
              output[j] ==
              if j == pos - 96 then SixAndTwo(encodedByte[0], encodedByte[1])
              else if j == pos - 64 then FourAndFour(encodedByte[1], encodedByte[3])
              else if j == pos - 32 then SixAndTwo(encodedByte[2], encodedByte[3])
              else old(output[j])
  {
    pos := outputPos - 1;
    var x := SixAndTwo(encodedByte[0], encodedByte[1]);
    var y := FourAndFour(encodedByte[1], encodedByte[3]);
    var z := SixAndTwo(encodedByte[2], encodedByte[3]);
    output[pos - 32] := z;
    output[pos - 32 * 2] := y;
    output[pos - 32 * 3] := x;
  }

  /** The field elements `from` to 3 of round `r`, then the three packed bytes: the part of the
      decoding loop that round 0 and the later rounds share. `lead` is the leading byte of
      element 0 when that element was handled before. */
  method DecodeRound(data: bytes, r: nat, from: nat, lead: u8, output: array<u8>)
    returns (res: Result<(nat, nat), BlobError>)
    requires r < BLOB_ENCODING_ROUNDS && |data| >= BYTES_PER_BLOB && output.Length == BLOB_MAX_DATA_SIZE
    requires from == if r == 0 then 1 else 0
    requires r == 0 ==> lead == data[0] && forall j :: 0 <= j < 27 ==> output[j] == data[5 + j]
    modifies output
    ensures res == if forall k: nat :: 4 * r + from <= k < 4 * r + 4 ==> Leading(data, k) < 64
                   then Ok((127 * r + 123, 128 * r + 128)) else Err(InvalidFieldElement)
    ensures res.Ok? ==> forall j :: 0 <= j < output.Length ==>
              output[j] == if 127 * r - 4 <= j < 127 * r + 123 then RoundAt(data, r, j - (127 * r - 4))
                           else old(output[j])
  {
    var outputPos: nat, inputPos := 127 * r - 4 + 32 * from, 128 * r + 32 * from;
    var encodedByte := [lead, 0, 0, 0];
    var k := from;
    while k < 4
      invariant from <= k <= 4
      invariant outputPos == 127 * r - 4 + 32 * k && inputPos == 128 * r + 32 * k
      invariant forall i: nat :: 4 * r + from <= i < 4 * r + k ==> Leading(data, i) < 64
      invariant |encodedByte| == 4 && forall i: nat :: (i < k && from <= i) || i < from ==>
                  encodedByte[i] == data[128 * r + 32 * i]
      invariant forall j :: 0 <= j < output.Length ==>
                  output[j] == if 127 * r - 4 + 32 * from <= j < 127 * r - 4 + 32 * k && (j - (127 * r - 4)) % 32 != 31
                               then data[128 * r + 1 + (j - (127 * r - 4))] else old(output[j])
    {
      var e := DecodeFieldElement(data, outputPos, inputPos, output);
      assert Leading(data, 4 * r + k) == data[inputPos];
      if e.Err? { return Err(InvalidFieldElement); }
      encodedByte := encodedByte[k := e.value.0];
      outputPos, inputPos := e.value.1, e.value.2;
      k := k + 1;
    }
    outputPos := ReassembleBytes(outputPos, encodedByte, output);
    return Ok((outputPos, inputPos));
  }

  method Decode(blob: BlobData) returns (r: Result<bytes, BlobError>)
    requires blob.data.Some? ==> Readable(blob.data.value)
    ensures r == if blob.data.None? then Err(MissingData) else Decoded(blob.data.value)
  {
    if blob.data.None? { return Err(MissingData); }
    var data := blob.data.value;
    if data[1] != BLOB_ENCODING_VERSION { return Err(InvalidEncodingVersion); }
    Widths();
    var length := FromBE([0, data[2], data[3], data[4]]);
    if length > BLOB_MAX_DATA_SIZE { return Err(InvalidLength); }

    r := DecodePayload(data, length);
  }

  /** Everything behind the header checks. */
  method DecodePayload(data: bytes, length: nat) returns (r: Result<bytes, BlobError>)
    requires |data| >= BYTES_PER_BLOB && length <= BLOB_MAX_DATA_SIZE
    ensures r == if Accepts(data, length) then Ok(Carried(data, length)) else Err(InvalidFieldElement)
  {
    var res := FillOutput(data, length);
    if res.Err? { return Err(InvalidFieldElement); }
    var (output, inputPos) := res.value;
    var outputZero := ZeroTail(output, length);
    var inputZero := ZeroInput(data, inputPos);
    FilledOutput(data, output, length);
    if !outputZero || !inputZero { return Err(InvalidFieldElement); }
    return Ok(output[..length]);
  }

  method FillOutput(data: bytes, length: nat) returns (r: Result<(bytes, nat), BlobError>)
    requires |data| >= BYTES_PER_BLOB && length <= BLOB_MAX_DATA_SIZE
    ensures r.Ok? <==> ElementsLegal(data, Rounds(length))
    ensures r.Ok? ==> Filled(data, r.value.0, Rounds(length)) && r.value.1 == 128 * Rounds(length)
  {
    var output := new u8[BLOB_MAX_DATA_SIZE](_ => 0);
    var ok := DecodeFirstRound(data, output);
    if !ok {
      assert !ElementsLegal(data, Rounds(length));
      return Err(InvalidFieldElement);
    }
    var res := DecodeRounds(data, length, output);
    if res.Err? { return Err(res.error); }
    return Ok((output[..], res.value.1));
  }

  /** Round 0, whose first element starts with the header. */
  method DecodeFirstRound(data: bytes, output: array<u8>) returns (ok: bool)
    requires |data| >= BYTES_PER_BLOB && output.Length == BLOB_MAX_DATA_SIZE
    requires forall j :: 0 <= j < output.Length ==> output[j] == 0
    modifies output
    ensures ok <==> ElementsLegal(data, 1)
    ensures ok ==> Filled(data, output[..], 1)
  {
    forall j | 0 <= j < 27 { output[j] := data[5 + j]; }
    var res := DecodeRound(data, 0, 1, data[0], output);
    RoundIsCarried(data, 0);
    ok := res.Ok?;
  }

  method ZeroInput(data: bytes, inputPos: nat) returns (zero: bool)
    requires inputPos <= BYTES_PER_BLOB <= |data|
    ensures zero <==> ZeroFrom(data, inputPos)
  {
    var i := inputPos;
    while i < BYTES_PER_BLOB
      invariant inputPos <= i <= BYTES_PER_BLOB
      invariant forall j :: inputPos <= j < i ==> data[j] == 0
    {
      if data[i] != 0 { return false; }
      i := i + 1;
    }
    return true;
  }

  lemma RoundIsCarried(b: bytes, r: nat)
    requires BYTES_PER_BLOB <= |b| && r < BLOB_ENCODING_ROUNDS
    ensures forall q: nat :: 127 * r <= q < 127 * r + 127 ==> CarriedAt(b, q) == RoundAt(b, r, q - 127 * r)
  {
    forall q: nat | 127 * r <= q < 127 * r + 127 ensures CarriedAt(b, q) == RoundAt(b, r, q - 127 * r) {
      InRound(r, q - 127 * r);
    }
  }

  /** Rounds 1 and up, until the output position reaches the length. */
  method DecodeRounds(data: bytes, length: nat, output: array<u8>)
    returns (res: Result<(nat, nat), BlobError>)
    requires |data| >= BYTES_PER_BLOB && output.Length == BLOB_MAX_DATA_SIZE && length <= BLOB_MAX_DATA_SIZE
    requires ElementsLegal(data, 1)
    requires Filled(data, output[..], 1)
    modifies output
    ensures res == if ElementsLegal(data, Rounds(length))
                   then Ok((127 * Rounds(length) - 4, 128 * Rounds(length))) else Err(InvalidFieldElement)
    ensures res.Ok? ==> Filled(data, output[..], Rounds(length))
  {
    var outputPos, inputPos := 123, 128;
    var n := 1;
    while n < BLOB_ENCODING_ROUNDS && outputPos < length
      invariant 1 <= n <= Rounds(length)
      invariant outputPos == 127 * n - 4 && inputPos == 128 * n
      invariant ElementsLegal(data, n)
      invariant Filled(data, output[..], n)
    {
      var r := DecodeRound(data, n, 0, 0, output);
      if r.Err? { return Err(InvalidFieldElement); }
      outputPos, inputPos := r.value.0, r.value.1;
      RoundIsCarried(data, n);
      n := n + 1;
    }
    return Ok((outputPos, inputPos));
  }

  /** The output after `n` rounds: what they carry behind the header, then zeros. */
  predicate Filled(b: bytes, output: bytes, n: nat)
    requires BYTES_PER_BLOB <= |b|
  {
    && |output| == BLOB_MAX_DATA_SIZE
    && forall j :: 0 <= j < |output| ==> output[j] == if j < 127 * n - 4 then CarriedAt(b, j + 4) else 0
  }

  method ZeroTail(output: bytes, length: nat) returns (zero: bool)
    requires length <= |output|
    ensures zero <==> forall j :: length <= j < |output| ==> output[j] == 0
  {
    var i := length;
    while i < |output|
      invariant length <= i <= |output|
      invariant forall j :: length <= j < i ==> output[j] == 0
    {
      if output[i] != 0 { return false; }
      i := i + 1;
    }
    return true;
  }

  lemma FilledOutput(b: bytes, output: bytes, length: nat)
    requires BYTES_PER_BLOB <= |b| && length <= BLOB_MAX_DATA_SIZE && Filled(b, output, Rounds(length))
    ensures CarriedZero(b, 4 + length, 127 * Rounds(length))
            <==> forall j :: length <= j < |output| ==> output[j] == 0
    ensures output[..length] == Carried(b, length)
  {
    var r := Rounds(length);
    if CarriedZero(b, 4 + length, 127 * r) {
      forall j | length <= j < |output| ensures output[j] == 0 {
        if j < 127 * r - 4 { assert CarriedAt(b, j + 4) == 0; }
      }
    }
    if forall j :: length <= j < |output| ==> output[j] == 0 {
      forall q: nat | 4 + length <= q < 127 * r ensures CarriedAt(b, q) == 0 {
        assert output[q - 4] == 0;
      }
    }
  }

  // ---- Blob encoding, and that decoding is its exact inverse ---------------

  /** Version, 24-bit length, payload, zero padding. */
  function Payload(p: bytes): (v: bytes)
    requires |p| <= BLOB_MAX_DATA_SIZE
    ensures |v| == 127 * BLOB_ENCODING_ROUNDS
  {
    [BLOB_ENCODING_VERSION] + ToBE(3, |p|) + p + Zeros(BLOB_MAX_DATA_SIZE - |p|)
  }

  /** Byte `i` of the blob that carries `v`: the OP Stack "Blob Encoding". */
  function FieldAt(v: bytes, i: nat): u8
    requires |v| == 127 * BLOB_ENCODING_ROUNDS && i < BYTES_PER_BLOB
  {
    var r, o := 127 * (i / 128), i % 128;
    if o == 0 then v[r + 31] % 64
    else if o == 32 then v[r + 63] % 16 + v[r + 31] / 64 * 16
    else if o == 64 then v[r + 95] % 64
    else if o == 96 then v[r + 63] / 16 + v[r + 95] / 64 * 16
    else v[r + o - 1]
  }

  function EncodeBlob(p: bytes): (b: bytes)
    requires |p| <= BLOB_MAX_DATA_SIZE
    ensures |b| == BYTES_PER_BLOB
  {
    seq(BYTES_PER_BLOB, i requires 0 <= i < BYTES_PER_BLOB => FieldAt(Payload(p), i))
  }

  /** Low and high parts of a byte are independent. */
  lemma Parts(lo: nat, hi: nat)
    ensures lo < 16 ==> (lo + hi * 16) % 16 == lo && (lo + hi * 16) / 16 == hi
    ensures lo < 64 ==> (lo + hi * 64) % 64 == lo && (lo + hi * 64) / 64 == hi
  {
  }

  lemma UnpackedBytes(x: u8, y: u8, z: u8)
    ensures SixAndTwo(x % 64, y % 16 + x / 64 * 16) == x
    ensures FourAndFour(y % 16 + x / 64 * 16, y / 16 + z / 64 * 16) == y
    ensures SixAndTwo(z % 64, y / 16 + z / 64 * 16) == z
  {
    Parts(y % 16, x / 64);
    Parts(y / 16, z / 64);
  }

  lemma PackedBytes(e0: u8, e1: u8, e2: u8, e3: u8)
    requires e0 < 64 && e1 < 64 && e2 < 64 && e3 < 64
    ensures var x, y, z := SixAndTwo(e0, e1), FourAndFour(e1, e3), SixAndTwo(e2, e3);
            && x % 64 == e0
            && y % 16 + x / 64 * 16 == e1
            && z % 64 == e2
            && y / 16 + z / 64 * 16 == e3
  {
    SixAndTwoParts(e0, e1);
    FourAndFourParts(e1, e3);
    SixAndTwoParts(e2, e3);
  }

  lemma SixAndTwoParts(e: u8, f: u8)
    requires e < 64 && f < 64
    ensures SixAndTwo(e, f) % 64 == e && SixAndTwo(e, f) / 64 == f / 16
  {
    Parts(e, f / 16);
  }

  lemma FourAndFourParts(e: u8, f: u8)
    ensures FourAndFour(e, f) % 16 == e % 16 && FourAndFour(e, f) / 16 == f % 16
  {
    Parts(e % 16, f % 16);
  }

  lemma PayloadParts(p: bytes)
    requires |p| <= BLOB_MAX_DATA_SIZE
    ensures var v := Payload(p);
            && v[0] == BLOB_ENCODING_VERSION && v[1..4] == ToBE(3, |p|) && v[4..4 + |p|] == p
            && forall q :: 4 + |p| <= q < |v| ==> v[q] == 0
  {
  }

  lemma PayloadByParts(p: bytes, v: bytes)
    requires |p| <= BLOB_MAX_DATA_SIZE && |v| == 127 * BLOB_ENCODING_ROUNDS
    requires v[0] == BLOB_ENCODING_VERSION && v[1..4] == ToBE(3, |p|) && v[4..4 + |p|] == p
    requires forall q :: 4 + |p| <= q < |v| ==> v[q] == 0
    ensures v == Payload(p)
  {
    var w := Payload(p);
    PayloadParts(p);
    forall q | 0 <= q < |v| ensures v[q] == w[q] {
      if 1 <= q < 4 {
        assert v[q] == v[1..4][q - 1] && w[q] == w[1..4][q - 1];
      } else if 4 <= q < 4 + |p| {
        assert v[q] == v[4..4 + |p|][q - 4] && w[q] == w[4..4 + |p|][q - 4];
      }
    }
  }

  /** `b` spreads the bytes `v` over its field elements. */
  predicate Spreads(b: bytes, v: bytes) {
    && |b| == BYTES_PER_BLOB && |v| == 127 * BLOB_ENCODING_ROUNDS
    && forall i: nat :: i < |b| ==> b[i] == FieldAt(v, i)
  }

  lemma InRound(r: nat, o: nat)
    ensures o < 127 ==> (127 * r + o) / 127 == r && (127 * r + o) % 127 == o
    ensures o < 128 ==> (128 * r + o) / 128 == r && (128 * r + o) % 128 == o
  {
  }

  lemma RoundOfSpread(b: bytes, v: bytes, r: nat)
    requires Spreads(b, v) && r < BLOB_ENCODING_ROUNDS
    ensures b[128 * r] == v[127 * r + 31] % 64
    ensures b[128 * r + 32] == v[127 * r + 63] % 16 + v[127 * r + 31] / 64 * 16
    ensures b[128 * r + 64] == v[127 * r + 95] % 64
    ensures b[128 * r + 96] == v[127 * r + 63] / 16 + v[127 * r + 95] / 64 * 16
  {
    LeadingFields(v, r);
  }

  /** What spreading puts in, the element view reads out. */
  lemma CarriedBySpread(b: bytes, v: bytes, q: nat)
    requires Spreads(b, v) && q < |v|
    ensures CarriedAt(b, q) == v[q]
  {
    var r, o := q / 127, q % 127;
    RoundOfSpread(b, v, r);
    UnpackedBytes(v[127 * r + 31], v[127 * r + 63], v[127 * r + 95]);
    if o != 31 && o != 63 && o != 95 { InRound(r, o + 1); }
  }

  lemma LeadingBySpread(b: bytes, v: bytes, k: nat)
    requires Spreads(b, v) && 32 * k < |b|
    ensures Leading(b, k) < 64
  {
    var r := k / 4;
    RoundOfSpread(b, v, r);
    assert 32 * k == 128 * r || 32 * k == 128 * r + 32 || 32 * k == 128 * r + 64 || 32 * k == 128 * r + 96;
    assert v[127 * r + 63] / 16 < 16 && v[127 * r + 31] / 64 < 4 && v[127 * r + 95] / 64 < 4;
  }

  /** Decoding undoes encoding, for every payload that fits. */
  lemma RoundTrip(p: bytes)
    requires |p| <= BLOB_MAX_DATA_SIZE
    ensures Decoded(EncodeBlob(p)) == Ok(p)
  {
    PayloadParts(p);
    SpreadDecodes(EncodeBlob(p), Payload(p), p);
  }

  lemma SpreadLegal(b: bytes, v: bytes, r: nat)
    requires Spreads(b, v) && r <= BLOB_ENCODING_ROUNDS
    ensures ElementsLegal(b, r)
  {
    forall k: nat | 1 <= k < 4 * r ensures Leading(b, k) < 64 { LeadingBySpread(b, v, k); }
  }

  lemma SpreadZero(b: bytes, v: bytes, lo: nat, hi: nat)
    requires Spreads(b, v) && hi <= |v| && forall q :: lo <= q < |v| ==> v[q] == 0
    ensures CarriedZero(b, lo, hi)
  {
    forall q: nat | lo <= q < hi ensures CarriedAt(b, q) == 0 { CarriedBySpread(b, v, q); }
  }

  lemma SpreadDecodes(b: bytes, v: bytes, p: bytes)
    requires |p| <= BLOB_MAX_DATA_SIZE && Spreads(b, v)
    requires v[0] == BLOB_ENCODING_VERSION && v[1..4] == ToBE(3, |p|) && v[4..4 + |p|] == p
    requires forall q :: 4 + |p| <= q < |v| ==> v[q] == 0
    ensures Decoded(b) == Ok(p)
  {
    var r := Rounds(|p|);
    SpreadHeader(b, v, |p|);
    SpreadLegal(b, v, r);
    SpreadZero(b, v, 4 + |p|, 127 * r);
    ZeroSpread(b, v, r);
    forall i: nat | i < |p| ensures CarriedAt(b, 4 + i) == p[i] {
      CarriedBySpread(b, v, 4 + i);
      assert v[4 + i] == v[4..4 + |p|][i];
    }
    DecodedOk(b, p);
  }

  lemma ZeroSpread(b: bytes, v: bytes, r: nat)
    requires Spreads(b, v) && forall q :: 127 * r <= q < |v| ==> v[q] == 0
    ensures ZeroFrom(b, 128 * r)
  {
    forall k | 128 * r <= k < BYTES_PER_BLOB ensures b[k] == 0 {
      assert k / 128 >= r;
      assert b[k] == FieldAt(v, k);
    }
  }

  /** Introduction rule for acceptance. */
  lemma DecodedOk(b: bytes, p: bytes)
    requires |b| == BYTES_PER_BLOB && b[1] == BLOB_ENCODING_VERSION && Length(b) == |p| <= BLOB_MAX_DATA_SIZE
    requires ElementsLegal(b, Rounds(|p|)) && CarriedZero(b, 4 + |p|, 127 * Rounds(|p|))
    requires ZeroFrom(b, 128 * Rounds(|p|))
    requires forall i: nat :: i < |p| ==> CarriedAt(b, 4 + i) == p[i]
    ensures Decoded(b) == Ok(p)
  {
    assert p == Carried(b, |p|);
  }

  lemma SpreadHeader(b: bytes, v: bytes, n: nat)
    requires n <= BLOB_MAX_DATA_SIZE && Spreads(b, v) && v[1..4] == ToBE(3, n)
    ensures b[1] == v[0] && Length(b) == n
  {
    Widths();
    assert b[1] == v[0] && b[2] == v[1] && b[3] == v[2] && b[4] == v[3];
    assert [b[2], b[3], b[4]] == v[1..4];
    HeaderLength(b);
    BERoundTrip(3, n);
  }

  lemma HeaderLength(b: bytes)
    requires |b| >= 5
    ensures Length(b) == FromBE([b[2], b[3], b[4]])
  {
    assert [0, b[2], b[3], b[4]][..3] == [0, b[2], b[3]];
    assert [0, b[2], b[3]][..2] == [0, b[2]];
    assert [0, b[2]][..1] == [0];
    assert [b[2], b[3], b[4]][..2] == [b[2], b[3]];
    assert [b[2], b[3]][..1] == [b[2]];
    assert FromBE([0]) == 0;
    assert FromBE([0, b[2]]) == b[2] == FromBE([b[2]]);
    assert FromBE([0, b[2], b[3]]) == FromBE([b[2], b[3]]);
  }

  /** The blob with the two unchecked bits of element 0 cleared. */
  function Canonical(b: bytes): bytes
    requires |b| > 0
  {
    b[0 := b[0] % 64]
  }

  /** `v` is everything the elements of `b` carry. */
  predicate Carries(b: bytes, v: bytes) {
    && |b| == BYTES_PER_BLOB && |v| == 127 * BLOB_ENCODING_ROUNDS
    && forall q: nat :: q < |v| ==> v[q] == CarriedAt(b, q)
  }

  lemma ZeroRoundsCarryZero(b: bytes, r: nat, q: nat)
    requires |b| == BYTES_PER_BLOB && ZeroFrom(b, 128 * r) && 127 * r <= q < 127 * BLOB_ENCODING_ROUNDS
    ensures CarriedAt(b, q) == 0
  {
    assert q / 127 >= r;
  }

  lemma CarriedHeader(b: bytes, v: bytes)
    requires Carries(b, v) && Length(b) <= BLOB_MAX_DATA_SIZE
    ensures v[0] == b[1] && v[1..4] == ToBE(3, Length(b))
  {
    Widths();
    HeaderLength(b);
    BERoundTripBytes([b[2], b[3], b[4]]);
    assert v[1] == b[2] && v[2] == b[3] && v[3] == b[4];
    assert v[1..4] == [b[2], b[3], b[4]];
  }

  lemma CarriedTail(b: bytes, v: bytes, r: nat, lo: nat)
    requires Carries(b, v) && r <= BLOB_ENCODING_ROUNDS && ZeroFrom(b, 128 * r) && CarriedZero(b, lo, 127 * r)
    ensures forall q :: lo <= q < |v| ==> v[q] == 0
  {
    forall q | lo <= q < |v| ensures v[q] == 0 {
      if q >= 127 * r { ZeroRoundsCarryZero(b, r, q); }
    }
  }

  lemma CarriedIsPayload(b: bytes, p: bytes, v: bytes)
    requires Carries(b, v) && Decoded(b) == Ok(p)
    ensures |p| == Length(b) <= BLOB_MAX_DATA_SIZE
    ensures v == Payload(p)
  {
    CarriedHeader(b, v);
    CarriedTail(b, v, Rounds(|p|), 4 + |p|);
    assert v[4..4 + |p|] == p;
    PayloadByParts(p, v);
  }

  lemma CarriedInRound(b: bytes, v: bytes, r: nat)
    requires Carries(b, v) && r < BLOB_ENCODING_ROUNDS
    ensures v[127 * r + 31] == SixAndTwo(b[128 * r], b[128 * r + 32])
    ensures v[127 * r + 63] == FourAndFour(b[128 * r + 32], b[128 * r + 96])
    ensures v[127 * r + 95] == SixAndTwo(b[128 * r + 64], b[128 * r + 96])
  {
    InRound(r, 31);
    InRound(r, 63);
    InRound(r, 95);
  }

  lemma PlainByte(b: bytes, v: bytes, r: nat, o: nat)
    requires Carries(b, v) && r < BLOB_ENCODING_ROUNDS && o < 128 && o % 32 != 0
    ensures b[128 * r + o] == FieldAt(v, 128 * r + o)
  {
    InRound(r, o);
    InRound(r, o - 1);
    assert o - 1 != 31 && o - 1 != 63 && o - 1 != 95;
  }

  /** The four leading bytes of a round, given the three bytes packed into them. */
  lemma LeadingElement(v: bytes, r: nat, e0: u8, e1: u8, e2: u8, e3: u8)
    requires |v| == 127 * BLOB_ENCODING_ROUNDS && r < BLOB_ENCODING_ROUNDS
    requires e0 < 64 && e1 < 64 && e2 < 64 && e3 < 64
    requires v[127 * r + 31] == SixAndTwo(e0, e1)
    requires v[127 * r + 63] == FourAndFour(e1, e3)
    requires v[127 * r + 95] == SixAndTwo(e2, e3)
    ensures FieldAt(v, 128 * r) == e0 && FieldAt(v, 128 * r + 32) == e1
    ensures FieldAt(v, 128 * r + 64) == e2 && FieldAt(v, 128 * r + 96) == e3
  {
    PackedBytes(e0, e1, e2, e3);
    LeadingFields(v, r);
  }

  lemma LeadingFields(v: bytes, r: nat)
    requires |v| == 127 * BLOB_ENCODING_ROUNDS && r < BLOB_ENCODING_ROUNDS
    ensures FieldAt(v, 128 * r) == v[127 * r + 31] % 64
    ensures FieldAt(v, 128 * r + 32) == v[127 * r + 63] % 16 + v[127 * r + 31] / 64 * 16
    ensures FieldAt(v, 128 * r + 64) == v[127 * r + 95] % 64
    ensures FieldAt(v, 128 * r + 96) == v[127 * r + 63] / 16 + v[127 * r + 95] / 64 * 16
  {
    InRound(r, 0);
    InRound(r, 32);
    InRound(r, 64);
    InRound(r, 96);
  }

  predicate AllLegal(b: bytes) {
    |b| == BYTES_PER_BLOB && forall k: nat :: k < 4 * BLOB_ENCODING_ROUNDS ==> Leading(b, k) < 64
  }

  lemma LegalRound(b: bytes, r: nat)
    requires AllLegal(b) && r < BLOB_ENCODING_ROUNDS
    ensures b[128 * r] < 64 && b[128 * r + 32] < 64 && b[128 * r + 64] < 64 && b[128 * r + 96] < 64
  {
    assert Leading(b, 4 * r) < 64 && Leading(b, 4 * r + 1) < 64;
    assert Leading(b, 4 * r + 2) < 64 && Leading(b, 4 * r + 3) < 64;
  }

  /** A legal blob is what spreading its carried bytes gives. */
  lemma LegalSpreads(b: bytes, v: bytes)
    requires Carries(b, v) && AllLegal(b)
    ensures Spreads(b, v)
  {
    forall i: nat | i < |b| ensures b[i] == FieldAt(v, i) {
      var r, o := i / 128, i % 128;
      ByteInRound(i);
      if o % 32 == 0 { LeadingByte(b, v, r, o); } else { PlainByte(b, v, r, o); }
    }
  }

  lemma LeadingRound(b: bytes, v: bytes, r: nat)
    requires Carries(b, v) && AllLegal(b) && r < BLOB_ENCODING_ROUNDS
    ensures FieldAt(v, 128 * r) == b[128 * r] && FieldAt(v, 128 * r + 32) == b[128 * r + 32]
    ensures FieldAt(v, 128 * r + 64) == b[128 * r + 64] && FieldAt(v, 128 * r + 96) == b[128 * r + 96]
  {
    LegalRound(b, r);
    CarriedInRound(b, v, r);
    LeadingElement(v, r, b[128 * r], b[128 * r + 32], b[128 * r + 64], b[128 * r + 96]);
  }

  lemma ByteInRound(i: nat)
    ensures i == 128 * (i / 128) + i % 128 && i % 128 < 128
    ensures i < BYTES_PER_BLOB ==> i / 128 < BLOB_ENCODING_ROUNDS
    ensures i % 128 % 32 == 0 ==> i % 128 == 0 || i % 128 == 32 || i % 128 == 64 || i % 128 == 96
  {
  }

  lemma LeadingByte(b: bytes, v: bytes, r: nat, o: nat)
    requires Carries(b, v) && AllLegal(b) && r < BLOB_ENCODING_ROUNDS && (o == 0 || o == 32 || o == 64 || o == 96)
    ensures b[128 * r + o] == FieldAt(v, 128 * r + o)
  {
    LeadingRound(b, v, r);
  }

  lemma CanonicalLegal(b: bytes, n: nat)
    requires |b| == BYTES_PER_BLOB && n <= BLOB_ENCODING_ROUNDS && ElementsLegal(b, n) && ZeroFrom(b, 128 * n)
    ensures AllLegal(Canonical(b))
  {
    var c := Canonical(b);
    forall k: nat | k < 4 * BLOB_ENCODING_ROUNDS ensures Leading(c, k) < 64 {
      if k > 0 { assert Leading(c, k) == Leading(b, k); }
    }
  }

  lemma AcceptedIsEncoded(b: bytes, p: bytes)
    requires |b| == BYTES_PER_BLOB && Decoded(b) == Ok(p)
    ensures |p| <= BLOB_MAX_DATA_SIZE && Canonical(b) == EncodeBlob(p)
  {
    var c := Canonical(b);
    var v := seq(127 * BLOB_ENCODING_ROUNDS, q requires 0 <= q < 127 * BLOB_ENCODING_ROUNDS => CarriedAt(b, q));
    CarriedIsPayload(b, p, v);
    forall q: nat | q < |v| ensures v[q] == CarriedAt(c, q) { CarriedIgnoresTopBits(b, q); }
    CanonicalLegal(b, Rounds(|p|));
    LegalSpreads(c, v);
    assert c == EncodeBlob(p);
  }

  lemma CarriedIgnoresTopBits(b: bytes, q: nat)
    requires |b| == BYTES_PER_BLOB && q < 127 * BLOB_ENCODING_ROUNDS
    ensures CarriedAt(Canonical(b), q) == CarriedAt(b, q)
  {
  }

  lemma LegalIgnoresTopBits(b: bytes, r: nat)
    requires |b| == BYTES_PER_BLOB && r <= BLOB_ENCODING_ROUNDS
    ensures ElementsLegal(Canonical(b), r) ==> ElementsLegal(b, r)
  {
    assert forall k: nat :: 1 <= k < 4 * r ==> Leading(Canonical(b), k) == Leading(b, k);
  }

  /** The decoder never looks at the two top bits of byte 0. */
  lemma TopBitsIgnored(b: bytes, p: bytes)
    requires |b| == BYTES_PER_BLOB && Decoded(Canonical(b)) == Ok(p)
    ensures Decoded(b) == Ok(p)
  {
    var c := Canonical(b);
    var r := Rounds(|p|);
    assert Length(b) == Length(c);
    assert forall k :: 128 * r <= k < BYTES_PER_BLOB ==> b[k] == c[k];
    LegalIgnoresTopBits(b, r);
    forall q: nat | q < 127 * r ensures CarriedAt(c, q) == CarriedAt(b, q) { CarriedIgnoresTopBits(b, q); }
    DecodedOk(b, p);
  }

  /** The main result: the decoder accepts exactly the encodings, each as its own payload, up to
      the two top bits of byte 0. */
  lemma DecodesExactlyEncodings(b: bytes, p: bytes)
    requires |b| == BYTES_PER_BLOB
    ensures Decoded(b) == Ok(p) <==> |p| <= BLOB_MAX_DATA_SIZE && Canonical(b) == EncodeBlob(p)
  {
    if Decoded(b) == Ok(p) {
      AcceptedIsEncoded(b, p);
    }
    if |p| <= BLOB_MAX_DATA_SIZE && Canonical(b) == EncodeBlob(p) {
      RoundTrip(p);
      TopBitsIgnored(b, p);
    }
  }

  /** Two accepted blobs with the same output differ at most in the two top bits of byte 0. */
  lemma OutputDeterminesBlob(a: bytes, b: bytes)
    requires |a| == |b| == BYTES_PER_BLOB
    requires Decoded(a).Ok? && Decoded(a) == Decoded(b)
    ensures a[1..] == b[1..] && a[0] % 64 == b[0] % 64
  {
    var p := Decoded(a).value;
    DecodesExactlyEncodings(a, p);
    DecodesExactlyEncodings(b, p);
    assert Canonical(a) == Canonical(b);
    assert Canonical(a)[1..] == a[1..] && Canonical(b)[1..] == b[1..];
    assert Canonical(a)[0] == Canonical(b)[0];
  }
}
