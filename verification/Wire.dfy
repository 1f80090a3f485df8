/** The protobuf wire format as the generated codec of `api/specs` reads and writes it:
    base-128 varints, tagged records, and the fold of records into a message.

    A message is a value of known fields together with the raw bytes of the records it does
    not know, so every law about unknown fields is stated once, for all messages. */
module Wire {

  type byte = b: int | 0 <= b < 256

  const TWO32 := 0x1_0000_0000
  const TWO63 := 0x8000_0000_0000_0000
  const TWO64 := 0x1_0000_0000_0000_0000

  type uint32 = n: int | 0 <= n < TWO32
  type uint64 = n: int | 0 <= n < TWO64
  type int32 = n: int | -0x8000_0000 <= n < 0x8000_0000

  /** Two's-complement reinterpretation of the low 32 bits, Go's `int32(x)`. */
  function Int32(n: nat): int32 {
    var low := n % TWO32;
    if low < 0x8000_0000 then low else low - TWO32
  }

  /** Two's-complement reinterpretation of the low 64 bits, Go's `int(x)` on a 64-bit target. */
  function Int64(n: int): (r: int)
    ensures -TWO63 <= r < TWO63
    ensures -TWO63 <= n < TWO63 ==> r == n
    ensures TWO63 <= n < TWO64 ==> r == n - TWO64
  {
    var low := n % TWO64;
    if low < TWO63 then low else low - TWO64
  }

  /** Why a decode fails. `Truncated` stands for both of the source's length errors, the
      unexpected end of input and the invalid (negative or overflowing) length. */
  datatype Error = IntOverflow | Truncated | EndGroup | IllegalTag | WrongWireType | SkipFailed

  datatype Result<+T> = Ok(value: T) | Err(error: Error)

  datatype Option<+T> = None | Some(value: T)

  // ------------------------------------------------------------------------- varints

  /** The varint at the head of a slice: its value before any truncation to a field's width,
      and the bytes it takes. */
  datatype Varint = Varint(raw: nat, size: nat)

  /** Ten groups of seven bits fit below shift 64; the eleventh is an overflow. */
  const MAX_GROUPS := 10

  /** Reads the varint at the head of `s`, `k` groups of it having been read before. */
  function Scan(s: seq<byte>, k: nat): (r: Result<Varint>)
    ensures r.Ok? ==> 0 < r.value.size <= |s| && r.value.size + k <= MAX_GROUPS
    decreases |s|
  {
    if k >= MAX_GROUPS then Err(IntOverflow)
    else if s == [] then Err(Truncated)
    else if s[0] < 128 then Ok(Varint(s[0], 1))
    else
      match Scan(s[1..], k + 1)
      case Err(e) => Err(e)
      case Ok(v) => Ok(Varint(s[0] % 128 + 128 * v.raw, v.size + 1))
  }

  /** The canonical varint of a value. */
  function Varbytes(v: nat): (s: seq<byte>)
    ensures |s| > 0
  {
    if v < 128 then [v] else [v % 128 + 128] + Varbytes(v / 128)
  }

  ghost function Pow128(k: nat): (p: nat)
    ensures p > 0
  {
    if k == 0 then 1 else 128 * Pow128(k - 1)
  }

  /** Read-after-write for varints, whatever follows them and however many groups went before. */
  lemma {:induction false} ScanVarbytes(v: nat, k: nat, rest: seq<byte>)
    requires |Varbytes(v)| + k <= MAX_GROUPS
    ensures Scan(Varbytes(v) + rest, k) == Ok(Varint(v, |Varbytes(v)|))
  {
    var s := Varbytes(v) + rest;
    if v >= 128 {
      assert s[1..] == Varbytes(v / 128) + rest;
      ScanVarbytes(v / 128, k + 1, rest);
    }
  }

  lemma {:induction false} VarbytesSize(v: nat, k: nat)
    requires v < Pow128(k) && k > 0
    ensures |Varbytes(v)| <= k
  {
    if v >= 128 {
      assert v / 128 < Pow128(k - 1);
      VarbytesSize(v / 128, k - 1);
    }
  }

  /** Every uint64 fits the ten groups a decoder accepts. */
  lemma {:induction false} Uint64Fits(v: uint64)
    ensures |Varbytes(v)| <= MAX_GROUPS
  {
    assert Pow128(2) == 0x4000;
    assert Pow128(4) == 0x1000_0000;
    assert Pow128(6) == 0x400_0000_0000;
    assert Pow128(8) == 0x100_0000_0000_0000;
    assert Pow128(10) == 0x40_0000_0000_0000_0000;
    VarbytesSize(v, 10);
  }

  /** `t` starts with the first `n` bytes of `s`. */
  ghost predicate Prefixed(t: seq<byte>, s: seq<byte>, n: nat) {
    n <= |s| && n <= |t| && t[..n] == s[..n]
  }

  lemma {:induction false} PrefixedLess(t: seq<byte>, s: seq<byte>, n: nat, k: nat)
    requires Prefixed(t, s, n) && k <= n
    ensures Prefixed(t, s, k)
  {
    assert t[..k] == t[..n][..k];
    assert s[..k] == s[..n][..k];
  }

  /** A successful scan depends only on the bytes it consumed. */
  lemma {:induction false} ScanLocal(s: seq<byte>, t: seq<byte>, k: nat)
    requires Scan(s, k).Ok? && Prefixed(t, s, Scan(s, k).value.size)
    ensures Scan(t, k) == Scan(s, k)
    decreases |s|
  {
    var n := Scan(s, k).value.size;
    assert t[0] == t[..n][0] == s[..n][0] == s[0];
    if s[0] >= 128 {
      assert s[1..][..n - 1] == s[..n][1..];
      assert t[1..][..n - 1] == t[..n][1..];
      ScanLocal(s[1..], t[1..], k + 1);
    }
  }

  // ------------------------------------------------------------------------- unknown records

  /** What the codec needs of `protohelpers.Skip`, which is a library function: a successful skip
      consumes at least the record's tag, is a Go int, and depends only on the bytes it consumes when
      those all lie in the slice. It may also succeed with a length past the end of the slice. */
  ghost predicate SkipContract(skip: seq<byte> -> Option<nat>) {
    forall s, t :: SkipLaw(skip, s, t)
  }

  ghost predicate SkipLaw(skip: seq<byte> -> Option<nat>, s: seq<byte>, t: seq<byte>) {
    skip(s).Some? ==>
      && Scan(s, 0).Ok?
      && Scan(s, 0).value.size <= skip(s).value < TWO63
      && (Prefixed(t, s, skip(s).value) ==> skip(t) == skip(s))
  }

  type Skipper = skip: seq<byte> -> Option<nat> | SkipContract(skip) witness s => None

  // ------------------------------------------------------------------------- records

  /** How a message treats a field number. */
  datatype Kind = Scalar | Delimited | Unknown

  datatype Record =
    | ScalarField(field: int, raw: nat)
    | DelimitedField(field: int, payload: seq<byte>)
    | UnknownRecord(bytes: seq<byte>)

  datatype Parsed = Parsed(record: Record, size: nat)

  /** What one message type does with its records: which field numbers it knows, and the effect
      of a known record on the known fields. */
  datatype Descriptor<!K> = Descriptor(kind: int -> Kind, apply: (K, Record) -> Result<K>)

  /** A message: its known fields and the records it does not know, verbatim and in order. */
  datatype Msg<K> = Msg(f: K, unknown: seq<byte>)

  /** A record's tag: its field number, its wire type and the bytes it takes. */
  datatype Tag = Tag(field: int, wireType: int, size: nat)

  function ReadTag(s: seq<byte>): (r: Result<Tag>)
    ensures r.Ok? ==> 0 < r.value.size <= |s| && r.value.field > 0
  {
    match Scan(s, 0)
    case Err(e) => Err(e)
    case Ok(v) => ScannedTag(v)
  }

  /** Wire type 4 closes a group, which no message here opens; field numbers are positive int32s,
      after the truncation the decoder performs. */
  function ScannedTag(v: Varint): (r: Result<Tag>)
    ensures r.Ok? ==> r.value.size == v.size && r.value.field > 0
  {
    var wire := v.raw % TWO64;
    if wire % 8 == 4 then Err(EndGroup)
    else if Int32(wire / 8) <= 0 then Err(IllegalTag)
    else Ok(Tag(Int32(wire / 8), wire % 8, v.size))
  }

  /** A length-delimited payload: its bytes, and the bytes it takes together with its length. */
  datatype Payload = Payload(bytes: seq<byte>, size: nat)

  function ReadPayload(s: seq<byte>): (r: Result<Payload>)
    ensures r.Ok? ==> 0 < r.value.size <= |s|
  {
    match Scan(s, 0)
    case Err(e) => Err(e)
    case Ok(v) =>
      var len := v.raw % TWO64;
      if len >= TWO63 || v.size + len > |s| then Err(Truncated)
      else Ok(Payload(s[v.size..v.size + len], v.size + len))
  }

  /** The body of a known field, after its tag. */
  function ReadKnown(kind: Kind, tag: Tag, s: seq<byte>): (r: Result<Parsed>)
    requires kind != Unknown
    ensures r.Ok? ==> 0 < r.value.size <= |s| && !r.value.record.UnknownRecord?
  {
    if tag.wireType != (if kind == Scalar then 0 else 2) then Err(WrongWireType)
    else if kind == Scalar then
      match Scan(s, 0)
      case Err(e) => Err(e)
      case Ok(v) => Ok(Parsed(ScalarField(tag.field, v.raw), v.size))
    else
      match ReadPayload(s)
      case Err(e) => Err(e)
      case Ok(p) => Ok(Parsed(DelimitedField(tag.field, p.bytes), p.size))
  }

  function ReadUnknown(skip: Skipper, s: seq<byte>): (r: Result<Parsed>)
    ensures r.Ok? ==> 0 < r.value.size <= |s| && r.value.record == UnknownRecord(s[..r.value.size])
  {
    assert SkipLaw(skip, s, s);
    match skip(s)
    case None => Err(SkipFailed)
    case Some(n) => if n > |s| then Err(Truncated) else Ok(Parsed(UnknownRecord(s[..n]), n))
  }

  /** The record at the head of a non-empty slice. */
  function Next(skip: Skipper, kind: int -> Kind, s: seq<byte>): (r: Result<Parsed>)
    ensures r.Ok? ==> 0 < r.value.size <= |s|
    ensures r.Ok? && r.value.record.UnknownRecord? ==> r.value.record.bytes == s[..r.value.size]
  {
    match ReadTag(s)
    case Err(e) => Err(e)
    case Ok(tag) =>
      if kind(tag.field) == Unknown then ReadUnknown(skip, s)
      else
        match ReadKnown(kind(tag.field), tag, s[tag.size..])
        case Err(e) => Err(e)
        case Ok(p) => Ok(p.(size := tag.size + p.size))
  }

  lemma {:induction false} ReadKnownLocal(kind: Kind, tag: Tag, s: seq<byte>, t: seq<byte>)
    requires kind != Unknown && ReadKnown(kind, tag, s).Ok?
    requires Prefixed(t, s, ReadKnown(kind, tag, s).value.size)
    ensures ReadKnown(kind, tag, t) == ReadKnown(kind, tag, s)
  {
    var v := Scan(s, 0).value;
    PrefixedLess(t, s, ReadKnown(kind, tag, s).value.size, v.size);
    ScanLocal(s, t, 0);
    if kind == Delimited {
      var len := v.raw % TWO64;
      assert s[v.size..v.size + len] == s[..v.size + len][v.size..];
      assert t[v.size..v.size + len] == t[..v.size + len][v.size..];
    }
  }

  /** A record parses the same wherever the bytes it consumed stand. */
  lemma {:induction false} NextLocal(skip: Skipper, kind: int -> Kind, s: seq<byte>, t: seq<byte>)
    requires Next(skip, kind, s).Ok? && Prefixed(t, s, Next(skip, kind, s).value.size)
    ensures Next(skip, kind, t) == Next(skip, kind, s)
  {
    var n := Next(skip, kind, s).value.size;
    var tag := ReadTag(s).value;
    assert SkipLaw(skip, s, t);
    PrefixedLess(t, s, n, tag.size);
    ScanLocal(s, t, 0);
    if kind(tag.field) != Unknown {
      assert s[tag.size..][..n - tag.size] == s[..n][tag.size..];
      assert t[tag.size..][..n - tag.size] == t[..n][tag.size..];
      ReadKnownLocal(kind(tag.field), tag, s[tag.size..], t[tag.size..]);
    }
  }

  // ------------------------------------------------------------------------- decoding

  /** Folds the records of `s` into `m`: what `UnmarshalVT` leaves in a message that held `m`. */
  function Decode<K>(skip: Skipper, d: Descriptor<K>, s: seq<byte>, m: Msg<K>): Result<Msg<K>>
    decreases |s|
  {
    if s == [] then Ok(m)
    else
      match Next(skip, d.kind, s)
      case Err(e) => Err(e)
      case Ok(p) =>
        match Absorb(d, m, p.record)
        case Err(e) => Err(e)
        case Ok(m') => Decode(skip, d, s[p.size..], m')
  }

  /** The effect of one record. */
  function Absorb<K>(d: Descriptor<K>, m: Msg<K>, r: Record): Result<Msg<K>> {
    if r.UnknownRecord? then Ok(m.(unknown := m.unknown + r.bytes))
    else
      match d.apply(m.f, r)
      case Err(e) => Err(e)
      case Ok(f) => Ok(m.(f := f))
  }

  /** Decoding goes on over `rest` unless it has failed. */
  function Resume<K>(skip: Skipper, d: Descriptor<K>, m: Result<Msg<K>>, rest: seq<byte>): Result<Msg<K>> {
    if m.Ok? then Decode(skip, d, rest, m.value) else m
  }

  /** Concatenation is merge: decoding a ++ b into a message is decoding a into it and then b,
      errors of b included. */
  lemma {:induction false} DecodeConcat<K>(skip: Skipper, d: Descriptor<K>, a: seq<byte>, b: seq<byte>, m: Msg<K>)
    requires Decode(skip, d, a, m).Ok?
    ensures Decode(skip, d, a + b, m) == Decode(skip, d, b, Decode(skip, d, a, m).value)
    decreases |a|
  {
    hide Next, Absorb;
    if a == [] {
      assert a + b == b;
    } else {
      var p, ab := Next(skip, d.kind, a).value, a + b;
      assert ab[..p.size] == a[..p.size];
      NextLocal(skip, d.kind, a, ab);
      var m' := Absorb(d, m, p.record).value;
      assert ab[p.size..] == a[p.size..] + b;
      assert Decode(skip, d, a, m) == Decode(skip, d, a[p.size..], m');
      DecodeConcat(skip, d, a[p.size..], b, m');
    }
  }

  /** A slice that decodes is a whole number of records: it can be cut after its first record, and
      both parts decode, the second from where the first left the message. */
  lemma {:induction false} DecodeSplits<K>(skip: Skipper, d: Descriptor<K>, s: seq<byte>, m: Msg<K>) returns (n: nat)
    requires s != [] && Decode(skip, d, s, m).Ok?
    ensures 0 < n <= |s|
    ensures Decode(skip, d, s[..n], m).Ok?
    ensures Decode(skip, d, s[n..], Decode(skip, d, s[..n], m).value) == Decode(skip, d, s, m)
  {
    n := Next(skip, d.kind, s).value.size;
    assert s[..n][..n] == s[..n];
    NextLocal(skip, d.kind, s, s[..n]);
    assert s[..n][n..] == [];
    assert Decode(skip, d, s[..n], m) == Absorb(d, m, Next(skip, d.kind, s).value.record);
  }

  // ------------------------------------------------------------------------- unknown fields

  /** Whole records, each under a number the message does not know. */
  ghost predicate OnlyUnknown(skip: Skipper, kind: int -> Kind, u: seq<byte>)
    decreases |u|
  {
    u == [] ||
    (&& Next(skip, kind, u).Ok?
     && Next(skip, kind, u).value.record.UnknownRecord?
     && OnlyUnknown(skip, kind, u[Next(skip, kind, u).value.size..]))
  }

  /** Such bytes decode into the unknown fields of any message, in order, and change nothing else. */
  lemma {:induction false} DecodeOnlyUnknown<K>(skip: Skipper, d: Descriptor<K>, u: seq<byte>, m: Msg<K>)
    requires OnlyUnknown(skip, d.kind, u)
    ensures Decode(skip, d, u, m) == Ok(m.(unknown := m.unknown + u))
    ensures m.unknown == [] ==> Decode(skip, d, u, m) == Ok(m.(unknown := u))
    decreases |u|
  {
    assert m.unknown == [] ==> m.unknown + u == u;
    if u == [] {
      assert m.unknown + u == m.unknown;
    } else {
      var n := Next(skip, d.kind, u).value.size;
      var m' := m.(unknown := m.unknown + u[..n]);
      DecodeOnlyUnknown(skip, d, u[n..], m');
      assert m.unknown + u[..n] + u[n..] == m.unknown + u;
    }
  }

  lemma {:induction false} OnlyUnknownConcat(skip: Skipper, kind: int -> Kind, u: seq<byte>, w: seq<byte>)
    requires OnlyUnknown(skip, kind, u) && OnlyUnknown(skip, kind, w)
    ensures OnlyUnknown(skip, kind, u + w)
    decreases |u|
  {
    if u == [] {
      assert u + w == w;
    } else {
      var n := Next(skip, kind, u).value.size;
      assert (u + w)[..n] == u[..n];
      NextLocal(skip, kind, u, u + w);
      assert (u + w)[n..] == u[n..] + w;
      OnlyUnknownConcat(skip, kind, u[n..], w);
    }
  }

  /** The unknown record at the head of `s`, appended to whole unknown records, leaves them whole. */
  lemma {:induction false} UnknownStepKeeps(skip: Skipper, kind: int -> Kind, s: seq<byte>, u: seq<byte>)
    requires Next(skip, kind, s).Ok? && Next(skip, kind, s).value.record.UnknownRecord?
    requires OnlyUnknown(skip, kind, u)
    ensures OnlyUnknown(skip, kind, u + s[..Next(skip, kind, s).value.size])
  {
    var n := Next(skip, kind, s).value.size;
    var w := s[..n];
    assert w[..n] == w;
    NextLocal(skip, kind, s, w);
    assert w[n..] == [];
    OnlyUnknownConcat(skip, kind, u, w);
  }

  /** Decoding keeps the unknown fields whole: whatever it appends is again a row of whole
      unknown records. */
  lemma {:induction false} DecodeKeepsUnknown<K>(skip: Skipper, d: Descriptor<K>, s: seq<byte>, m: Msg<K>)
    requires OnlyUnknown(skip, d.kind, m.unknown) && Decode(skip, d, s, m).Ok?
    ensures OnlyUnknown(skip, d.kind, Decode(skip, d, s, m).value.unknown)
    decreases |s|
  {
    if s != [] {
      var p := Next(skip, d.kind, s).value;
      if p.record.UnknownRecord? {
        UnknownStepKeeps(skip, d.kind, s, m.unknown);
      }
      DecodeKeepsUnknown(skip, d, s[p.size..], Absorb(d, m, p.record).value);
    }
  }

  // ------------------------------------------------------------------------- writing records

  /** A scalar field as the encoder writes it: nothing for zero. */
  function PutScalar(field: nat, v: nat): seq<byte>
    requires 0 < field < 16
  {
    if v == 0 then [] else [8 * field] + Varbytes(v)
  }

  /** A string field as the encoder writes it: nothing for the empty string. */
  function PutString(field: nat, s: seq<byte>): seq<byte>
    requires 0 < field < 16
  {
    if s == [] then [] else PutMessage(field, s)
  }

  /** A length-delimited field, written even when empty. */
  function PutMessage(field: nat, s: seq<byte>): seq<byte>
    requires 0 < field < 16
  {
    [8 * field + 2] + Varbytes(|s|) + s
  }

  lemma {:induction false} NextScalar(skip: Skipper, kind: int -> Kind, field: nat, v: uint64, rest: seq<byte>)
    requires 0 < field < 16 && kind(field) == Scalar
    ensures Next(skip, kind, [8 * field] + (Varbytes(v) + rest)) ==
            Ok(Parsed(ScalarField(field, v), 1 + |Varbytes(v)|))
  {
    var body := Varbytes(v) + rest;
    ReadTagByte(field, 0, body);
    Uint64Fits(v);
    ScanVarbytes(v, 0, rest);
    assert ([8 * field] + body)[1..] == body;
  }

  lemma {:induction false} NextMessage(skip: Skipper, kind: int -> Kind, field: nat, p: seq<byte>, rest: seq<byte>)
    requires 0 < field < 16 && kind(field) == Delimited && |p| < TWO63
    ensures Next(skip, kind, [8 * field + 2] + (Varbytes(|p|) + (p + rest))) ==
            Ok(Parsed(DelimitedField(field, p), 1 + |Varbytes(|p|)| + |p|))
  {
    var body := Varbytes(|p|) + (p + rest);
    ReadTagByte(field, 2, body);
    ReadPayloadBytes(p, rest);
    assert ([8 * field + 2] + body)[1..] == body;
  }

  /** Decoding past a written scalar applies it, unless it was zero and left unwritten. */
  lemma {:induction false} DecodeScalar<K>(skip: Skipper, d: Descriptor<K>, field: nat, v: uint64, rest: seq<byte>,
                                           m: Msg<K>)
    requires 0 < field < 16 && d.kind(field) == Scalar
    ensures Decode(skip, d, PutScalar(field, v) + rest, m) ==
            Resume(skip, d, if v == 0 then Ok(m) else Absorb(d, m, ScalarField(field, v)), rest)
  {
    var s := PutScalar(field, v) + rest;
    if v == 0 {
      assert s == rest;
    } else {
      assert s == [8 * field] + (Varbytes(v) + rest);
      NextScalar(skip, d.kind, field, v, rest);
      assert s[1 + |Varbytes(v)|..] == rest;
    }
  }

  /** Decoding past a written length-delimited field applies its payload. */
  lemma {:induction false} DecodeMessage<K>(skip: Skipper, d: Descriptor<K>, field: nat, p: seq<byte>, rest: seq<byte>,
                                            m: Msg<K>)
    requires 0 < field < 16 && d.kind(field) == Delimited && |p| < TWO63
    ensures Decode(skip, d, PutMessage(field, p) + rest, m) ==
            Resume(skip, d, Absorb(d, m, DelimitedField(field, p)), rest)
  {
    var s := PutMessage(field, p) + rest;
    assert s == [8 * field + 2] + (Varbytes(|p|) + (p + rest));
    NextMessage(skip, d.kind, field, p, rest);
    assert s[1 + |Varbytes(|p|)| + |p|..] == rest;
  }

  lemma {:induction false} DecodeString<K>(skip: Skipper, d: Descriptor<K>, field: nat, p: seq<byte>, rest: seq<byte>,
                                           m: Msg<K>)
    requires 0 < field < 16 && d.kind(field) == Delimited && |p| < TWO63
    ensures Decode(skip, d, PutString(field, p) + rest, m) ==
            Resume(skip, d, if p == [] then Ok(m) else Absorb(d, m, DelimitedField(field, p)), rest)
  {
    if p == [] {
      assert PutString(field, p) + rest == rest;
    } else {
      DecodeMessage(skip, d, field, p, rest, m);
    }
  }

  lemma {:induction false} ReadTagByte(field: nat, wireType: nat, rest: seq<byte>)
    requires 0 < field < 16 && wireType < 8 && wireType != 4
    ensures ReadTag([8 * field + wireType] + rest) == Ok(Tag(field, wireType, 1))
  {
    var tag := 8 * field + wireType;
    hide ScannedTag;
    var s := [tag] + rest;
    assert s[0] == tag < 128;
    assert Scan(s, 0) == Ok(Varint(tag, 1));
    TagParts(field, wireType);
  }

  lemma {:induction false} TagParts(field: nat, wireType: nat)
    requires 0 < field < 16 && wireType < 8 && wireType != 4
    ensures ScannedTag(Varint(8 * field + wireType, 1)) == Ok(Tag(field, wireType, 1))
  {
    assert (8 * field + wireType) / 8 == field && (8 * field + wireType) % 8 == wireType;
  }

  lemma {:induction false} ReadPayloadBytes(p: seq<byte>, rest: seq<byte>)
    requires |p| < TWO63
    ensures ReadPayload(Varbytes(|p|) + (p + rest)) == Ok(Payload(p, |Varbytes(|p|)| + |p|))
  {
    var s, n := Varbytes(|p|) + (p + rest), |Varbytes(|p|)|;
    Uint64Fits(|p|);
    ScanVarbytes(|p|, 0, p + rest);
    assert s[n..n + |p|] == p;
  }

  // ------------------------------------------------------------------------- re-encoding never grows

  /** A canonical varint is as short as any that reads as its value. */
  lemma {:induction false} CanonicalIsShortest(s: seq<byte>, k: nat)
    requires Scan(s, k).Ok?
    ensures |Varbytes(Scan(s, k).value.raw)| <= Scan(s, k).value.size
    decreases |s|
  {
    if s[0] >= 128 {
      CanonicalIsShortest(s[1..], k + 1);
    }
  }

  lemma {:induction false} VarbytesGrow(a: nat, b: nat)
    requires a <= b
    ensures |Varbytes(a)| <= |Varbytes(b)|
  {
    if b >= 128 {
      VarbytesGrow(a / 128, b / 128);
    }
  }

  lemma {:induction false} VarbytesOfSum(a: nat, b: nat)
    ensures |Varbytes(a + b)| <= |Varbytes(a)| + |Varbytes(b)|
  {
    var big := if a < b then b else a;
    if big > 0 {
      VarbytesGrow(a + b, 128 * big);
    }
  }

  /** The least a record takes, under a tag of one byte. */
  function RecordSize(r: Record): nat {
    match r
    case ScalarField(_, raw) => 1 + |Varbytes(raw)|
    case DelimitedField(_, p) => 1 + |Varbytes(|p|)| + |p|
    case UnknownRecord(bytes) => |bytes|
  }

  lemma {:induction false} NextTakesItsSize(skip: Skipper, kind: int -> Kind, s: seq<byte>)
    requires Next(skip, kind, s).Ok?
    ensures RecordSize(Next(skip, kind, s).value.record) <= Next(skip, kind, s).value.size
  {
    var tag := ReadTag(s).value;
    if kind(tag.field) != Unknown {
      var body := s[tag.size..];
      CanonicalIsShortest(body, 0);
      if kind(tag.field) == Delimited {
        VarbytesGrow(Scan(body, 0).value.raw % TWO64, Scan(body, 0).value.raw);
      }
    }
  }

  /** No known record adds more to the size of the known fields than it takes itself. */
  ghost predicate Frugal<K(!new)>(d: Descriptor<K>, size: K -> nat) {
    forall f, r :: d.apply(f, r).Ok? && !r.UnknownRecord? ==> size(d.apply(f, r).value) <= size(f) + RecordSize(r)
  }

  /** So a decoded message is no larger than what it was decoded from, and what was there before. */
  lemma {:induction false} DecodeIsFrugal<K(!new)>(skip: Skipper, d: Descriptor<K>, size: K -> nat, s: seq<byte>,
                                                   m: Msg<K>)
    requires Frugal(d, size) && Decode(skip, d, s, m).Ok?
    ensures var r := Decode(skip, d, s, m).value; size(r.f) + |r.unknown| <= size(m.f) + |m.unknown| + |s|
    decreases |s|
  {
    if s != [] {
      var p := Next(skip, d.kind, s).value;
      NextTakesItsSize(skip, d.kind, s);
      DecodeIsFrugal(skip, d, size, s[p.size..], Absorb(d, m, p.record).value);
    }
  }
}
