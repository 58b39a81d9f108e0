/** Instruction payloads field by field: the readers and writers that the bridge program
    (`crates/programs/bridge-program/src/instruction.rs`) and the L1 block info program
    (`crates/programs/l1-block-info-program/src/instruction.rs`) share. */
module Fields {
  import opened Bytes

  /** One field of an instruction. Integers are little-endian; a text is a length byte and its bytes. */
  datatype Field = Raw(raw: bytes) | Num(width: nat, value: nat) | Flag(on: bool) | Byte(b: u8) | Text(text: bytes)

  datatype Kind = RawKind(len: nat) | NumKind(width: nat) | FlagKind | ByteKind | TextKind

  const MAX_TEXT := 255

  /** A field that a reader of kind `k` can produce. `utf8` is the standard library's check. */
  predicate Fits(f: Field, k: Kind, utf8: bytes -> bool) {
    match f
    case Raw(raw) => k == RawKind(|raw|)
    case Num(width, value) => k == NumKind(width) && value < Pow256(width)
    case Flag(_) => k == FlagKind
    case Byte(_) => k == ByteKind
    case Text(text) => k == TextKind && utf8(text)
  }

  lemma RawOf(f: Field, k: Kind, utf8: bytes -> bool)
    requires Fits(f, k, utf8) && k.RawKind?
    ensures f.Raw? && |f.raw| == k.len
  {
  }

  lemma NumOf(f: Field, k: Kind, utf8: bytes -> bool)
    requires Fits(f, k, utf8) && k.NumKind?
    ensures f.Num? && f.width == k.width && f.value < Pow256(k.width)
  {
  }

  /** The bytes of one field; None for a text that is too long for its length byte. */
  function Written(f: Field): Option<bytes> {
    match f
    case Raw(raw) => Some(raw)
    case Num(width, value) => Some(ToLE(width, value))
    case Flag(on) => Some([if on then 1 else 0])
    case Byte(b) => Some([b])
    case Text(text) => if |text| > MAX_TEXT then None else Some([|text|] + text)
  }

  /** The unpack helpers: the field and what is left, or None if the bytes are too few or bad. */
  function Read(k: Kind, b: bytes, utf8: bytes -> bool): Option<(Field, bytes)> {
    match k
    case RawKind(len) => if |b| >= len then Some((Raw(b[..len]), b[len..])) else None
    case NumKind(width) => if |b| >= width then Some((Num(width, FromLE(b[..width])), b[width..])) else None
    case FlagKind => if b == [] || b[0] > 1 then None else Some((Flag(b[0] == 1), b[1..]))
    case ByteKind => if b == [] then None else Some((Byte(b[0]), b[1..]))
    case TextKind =>
      if b == [] then None
      else
        var end: nat := b[0] as int + 1;
        if |b| < end || !utf8(b[1..end]) then None else Some((Text(b[1..end]), b[end..]))
  }

  function WrittenAll(fs: seq<Field>): Option<bytes> {
    if fs == [] then Some([])
    else
      var init, last := WrittenAll(fs[..|fs| - 1]), Written(fs[|fs| - 1]);
      if init.None? || last.None? then None else Some(init.value + last.value)
  }

  function ReadAll(ks: seq<Kind>, b: bytes, utf8: bytes -> bool): Option<(seq<Field>, bytes)> {
    if ks == [] then Some(([], b))
    else
      match ReadAll(ks[..|ks| - 1], b, utf8)
      case None => None
      case Some((fs, rest)) =>
        match Read(ks[|ks| - 1], rest, utf8)
        case None => None
        case Some((f, rest')) => Some((fs + [f], rest'))
  }

  predicate AllFit(fs: seq<Field>, ks: seq<Kind>, utf8: bytes -> bool) {
    |fs| == |ks| && forall i :: 0 <= i < |fs| ==> Fits(fs[i], ks[i], utf8)
  }

  /** Appending field after field to a buffer, as both `pack` functions do. */
  method Append(buffer: bytes, fs: seq<Field>) returns (r: Option<bytes>)
    ensures r == if WrittenAll(fs).None? then None else Some(buffer + WrittenAll(fs).value)
  {
    var buf := buffer;
    for i := 0 to |fs|
      invariant WrittenAll(fs[..i]).Some? && buf == buffer + WrittenAll(fs[..i]).value
    {
      assert fs[..i + 1][..i] == fs[..i];
      var bytes := Written(fs[i]);
      if bytes.None? {
        Unwritable(fs, i + 1);
        return None;
      }
      buf := buf + bytes.value;
    }
    assert fs[..|fs|] == fs;
    return Some(buf);
  }

  lemma {:induction false} Unwritable(fs: seq<Field>, n: nat)
    requires n <= |fs| && WrittenAll(fs[..n]).None?
    ensures WrittenAll(fs).None?
    decreases |fs| - n
  {
    if n == |fs| {
      assert fs[..n] == fs;
    } else {
      assert fs[..n + 1][..n] == fs[..n];
      Unwritable(fs, n + 1);
    }
  }

  /** Writing fails exactly on a text that is too long. */
  lemma {:induction false} WrittenUnlessTooLong(fs: seq<Field>)
    ensures WrittenAll(fs).None? <==> exists i :: 0 <= i < |fs| && fs[i].Text? && |fs[i].text| > MAX_TEXT
  {
    if fs != [] {
      var n := |fs| - 1;
      WrittenUnlessTooLong(fs[..n]);
      assert forall i :: 0 <= i < n ==> fs[..n][i] == fs[i];
      assert Written(fs[n]).None? <==> fs[n].Text? && |fs[n].text| > MAX_TEXT;
    }
  }

  function Concat(parts: seq<bytes>): bytes {
    if parts == [] then [] else Concat(parts[..|parts| - 1]) + parts[|parts| - 1]
  }

  /** Fields are written one behind the other. */
  lemma {:induction false} WrittenParts(fs: seq<Field>, parts: seq<bytes>)
    requires |parts| == |fs| && forall i :: 0 <= i < |fs| ==> Written(fs[i]) == Some(parts[i])
    ensures WrittenAll(fs) == Some(Concat(parts))
  {
    if fs != [] { WrittenParts(fs[..|fs| - 1], parts[..|fs| - 1]); }
  }

  /** What a field looks like: integers are little-endian, a text has its length in front. */
  lemma OnWire(f: Field)
    ensures f.Raw? ==> Written(f) == Some(f.raw)
    ensures f.Num? ==> Written(f) == Some(ToLE(f.width, f.value))
    ensures f.Flag? ==> Written(f) == Some([if f.on then 1 else 0])
    ensures f.Byte? ==> Written(f) == Some([f.b])
    ensures f.Text? ==> Written(f) == if |f.text| < 256 then Some([|f.text|] + f.text) else None
  {
  }

  lemma Prefixed(a: bytes, rest: bytes, b: bytes)
    requires |a| <= |b|
    ensures b == a + rest <==> b[..|a|] == a && b[|a|..] == rest
  {
    assert b == b[..|a|] + b[|a|..];
  }

  lemma ReadNum(width: nat, value: nat, rest: bytes, b: bytes, utf8: bytes -> bool)
    ensures Read(NumKind(width), b, utf8) == Some((Num(width, value), rest))
            <==> value < Pow256(width) && b == ToLE(width, value) + rest
  {
    if |b| >= width {
      Prefixed(ToLE(width, value), rest, b);
      LERoundTripBytes(b[..width]);
      if value < Pow256(width) { LERoundTrip(width, value); }
    }
  }

  lemma ReadText(text: bytes, rest: bytes, b: bytes, utf8: bytes -> bool)
    ensures Read(TextKind, b, utf8) == Some((Text(text), rest))
            <==> utf8(text) && |text| <= MAX_TEXT && b == [|text|] + text + rest
  {
    if |text| <= MAX_TEXT && 1 + |text| <= |b| {
      Prefixed([|text|] + text, rest, b);
      assert b[..1 + |text|] == [b[0]] + b[1..1 + |text|];
    }
  }

  /** Reading a field finds it exactly when its bytes stand in front. */
  lemma ReadExactly(k: Kind, b: bytes, f: Field, rest: bytes, utf8: bytes -> bool)
    ensures Read(k, b, utf8) == Some((f, rest))
            <==> Fits(f, k, utf8) && Written(f).Some? && b == Written(f).value + rest
  {
    match f
    case Raw(raw) => if |raw| <= |b| { Prefixed(raw, rest, b); }
    case Num(width, value) => ReadNum(width, value, rest, b, utf8);
    case Flag(on) => if b != [] { Prefixed([if on then 1 else 0], rest, b); assert b[..1] == [b[0]]; }
    case Byte(x) => if b != [] { Prefixed([x], rest, b); assert b[..1] == [b[0]]; }
    case Text(text) => ReadText(text, rest, b, utf8);
  }

  /** Reading a list of fields finds them exactly when their bytes stand in front, in order. */
  lemma ReadAllExactly(ks: seq<Kind>, b: bytes, fs: seq<Field>, rest: bytes, utf8: bytes -> bool)
    ensures ReadAll(ks, b, utf8) == Some((fs, rest))
            <==> AllFit(fs, ks, utf8) && WrittenAll(fs).Some? && b == WrittenAll(fs).value + rest
  {
    if ReadAll(ks, b, utf8) == Some((fs, rest)) { ReadIsWritten(ks, b, fs, rest, utf8); }
    if AllFit(fs, ks, utf8) && WrittenAll(fs).Some? && b == WrittenAll(fs).value + rest {
      WrittenIsRead(ks, fs, rest, utf8);
    }
  }

  lemma {:induction false} ReadIsWritten(ks: seq<Kind>, b: bytes, fs: seq<Field>, rest: bytes, utf8: bytes -> bool)
    requires ReadAll(ks, b, utf8) == Some((fs, rest))
    ensures AllFit(fs, ks, utf8) && WrittenAll(fs).Some? && b == WrittenAll(fs).value + rest
  {
    if ks != [] {
      var n := |ks| - 1;
      var (init, mid) := ReadAll(ks[..n], b, utf8).value;
      ReadIsWritten(ks[..n], b, init, mid, utf8);
      var f := fs[|fs| - 1];
      assert fs == init + [f] && fs[..|fs| - 1] == init;
      ReadExactly(ks[n], mid, f, rest, utf8);
      assert WrittenAll(init).value + (Written(f).value + rest) == (WrittenAll(init).value + Written(f).value) + rest;
    }
  }

  lemma {:induction false} WrittenIsRead(ks: seq<Kind>, fs: seq<Field>, rest: bytes, utf8: bytes -> bool)
    requires AllFit(fs, ks, utf8) && WrittenAll(fs).Some?
    ensures ReadAll(ks, WrittenAll(fs).value + rest, utf8) == Some((fs, rest))
  {
    if ks == [] {
      assert WrittenAll(fs).value + rest == rest;
    } else {
      var n := |ks| - 1;
      var init, mid := fs[..n], Written(fs[n]).value + rest;
      WrittenIsRead(ks[..n], init, mid, utf8);
      assert WrittenAll(init).value + mid == WrittenAll(fs).value + rest;
      ReadExactly(ks[n], mid, fs[n], rest, utf8);
      assert init + [fs[n]] == fs;
    }
  }

  /** The same behind a leading tag byte. */
  lemma BehindTag(input: bytes, ks: seq<Kind>, fs: seq<Field>, rest: bytes, utf8: bytes -> bool)
    requires input != [] && ReadAll(ks, input[1..], utf8) == Some((fs, rest))
    ensures AllFit(fs, ks, utf8) && WrittenAll(fs).Some? && [input[0]] + WrittenAll(fs).value <= input
  {
    ReadIsWritten(ks, input[1..], fs, rest, utf8);
    TagInFront(input, WrittenAll(fs).value, rest);
  }

  lemma TagInFront(input: bytes, body: bytes, rest: bytes)
    requires input != [] && input[1..] == body + rest
    ensures [input[0]] + body <= input
  {
    forall k | 0 <= k < |body| ensures input[k + 1] == body[k] {
      assert input[1..][k] == (body + rest)[k];
    }
  }
}
