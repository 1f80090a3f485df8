/** The generated codec methods: buffers filled backwards from the end, and records read forwards
    into the message's own fields. Each method is tied to the values and bytes of `Specs`. */
module SpecsCodec {
  import opened Wire
  import opened Specs

  // ------------------------------------------------------------------------- reading helpers

  ghost function Continue(partial: nat, k: nat, r: Result<Varint>): Result<Varint> {
    match r
    case Err(e) => Err(e)
    case Ok(v) => Ok(Varint(partial + Pow128(k) * v.raw, k + v.size))
  }

  lemma {:induction false} Distribute(p: nat, group: nat, raw: nat)
    ensures p * (group + 128 * raw) == group * p + 128 * p * raw
  {
  }

  /** The `k`-th group's share of the value. */
  ghost function Group(x: nat, k: nat): nat { x * Pow128(k) }

  /** One more byte of a varint whose first `k` groups summed to `partial`. */
  lemma {:induction false} ContinueStep(partial: nat, k: nat, s: seq<byte>)
    requires k < MAX_GROUPS && s != []
    ensures s[0] < 128 ==>
      Continue(partial, k, Scan(s, k)) == Ok(Varint(partial + Group(s[0] % 128, k), k + 1))
    ensures s[0] >= 128 ==>
      Continue(partial, k, Scan(s, k)) == Continue(partial + Group(s[0] % 128, k), k + 1, Scan(s[1..], k + 1))
  {
    hide Pow128, Scan;
    var group, rest := s[0] % 128, Scan(s[1..], k + 1);
    ScanHead(s, k);
    if s[0] >= 128 {
      if rest.Ok? {
        GroupBeforeRest(group, rest.value.raw, k);
      }
    } else {
      GroupBeforeRest(group, 0, k);
    }
  }

  lemma {:induction false} ScanHead(s: seq<byte>, k: nat)
    requires k < MAX_GROUPS && s != []
    ensures s[0] < 128 ==> Scan(s, k) == Ok(Varint(s[0] % 128, 1))
    ensures s[0] >= 128 && Scan(s[1..], k + 1).Err? ==> Scan(s, k) == Scan(s[1..], k + 1)
    ensures s[0] >= 128 && Scan(s[1..], k + 1).Ok? ==>
              var rest := Scan(s[1..], k + 1).value;
              Scan(s, k) == Ok(Varint(s[0] % 128 + 128 * rest.raw, rest.size + 1))
  {
  }

  lemma {:induction false} GroupBeforeRest(group: nat, raw: nat, k: nat)
    ensures Pow128(k) * (group + 128 * raw) == Group(group, k) + Pow128(k + 1) * raw
  {
    Distribute(Pow128(k), group, raw);
  }

  function Pow2(n: nat): (p: nat)
    ensures p > 0
  {
    if n == 0 then 1 else 2 * Pow2(n - 1)
  }

  lemma {:induction false} Widths()
    ensures Pow2(32) == TWO32 && Pow2(64) == TWO64
  {
    assert Pow2(8) == 0x100;
    assert Pow2(16) == 0x1_0000;
    assert Pow2(24) == 0x100_0000;
    assert Pow2(32) == TWO32;
    assert Pow2(40) == 0x100_0000_0000;
    assert Pow2(48) == 0x1_0000_0000_0000;
    assert Pow2(56) == 0x100_0000_0000_0000;
  }

  lemma {:induction false} Pow2OfGroups(k: nat)
    ensures Pow2(7 * k) == Pow128(k)
  {
    if k > 0 {
      var n := 7 * (k - 1);
      assert Pow2(n + 2) == 4 * Pow2(n);
      assert Pow2(n + 4) == 4 * Pow2(n + 2);
      assert Pow2(n + 6) == 4 * Pow2(n + 4);
      assert Pow2(7 * k) == 2 * Pow2(n + 6);
      Pow2OfGroups(k - 1);
    }
  }

  lemma {:induction false} Pow2Sum(a: nat, b: nat)
    ensures Pow2(a + b) == Pow2(a) * Pow2(b)
  {
    if a > 0 {
      Pow2Sum(a - 1, b);
      Doubled(Pow2(a - 1), Pow2(b));
    }
  }

  lemma {:induction false} Doubled(p: int, x: int)
    ensures (2 * p) * x == 2 * (p * x)
  {
  }

  lemma {:induction false} AtLeastOnce(m: nat, d: int)
    requires d >= 1
    ensures m * d >= m
  {
  }

  /** Division with remainder is unique. */
  lemma {:induction false} Remainder(a: int, m: nat, q: int, r: nat)
    requires r < m && a == m * q + r
    ensures a % m == r
  {
    var k := a / m;
    assert m * k + a % m == a;
    if q > k {
      Difference(m, q, k);
      AtLeastOnce(m, q - k);
      assert false;
    } else if q < k {
      Difference(m, k, q);
      AtLeastOnce(m, k - q);
      assert false;
    }
  }

  lemma {:induction false} Difference(m: int, a: int, b: int)
    ensures m * (a - b) == m * a - m * b
  {
  }

  lemma {:induction false} Scale(p: int, q: int, d: int, r: int)
    ensures (q * d + r) * p == (p * q) * d + p * r
  {
  }

  lemma {:induction false} Exchange(x: int, p: int, q: int)
    ensures x * (p * q) == p * (x * q)
  {
  }

  lemma {:induction false} RoomFor(p: nat, r: nat, q: nat)
    requires r < q
    ensures p * r + p <= p * q
  {
    Difference(p, q, r);
    AtLeastOnce(p, q - r);
  }

  /** A multiple of `p`, and less than `p` beside it, reduced by a multiple of `p`. */
  lemma {:induction false} ReduceAbove(p: nat, q: nat, x: nat, low: nat)
    requires low < p && q > 0
    ensures p * q > 0 && (low + x * p) % (p * q) == low + p * (x % q)
  {
    var d, r := x / q, x % q;
    assert x == q * d + r;
    ReduceParts(p, q, d, r, low);
  }

  lemma {:induction false} ReduceParts(p: nat, q: nat, d: nat, r: nat, low: nat)
    requires low < p && r < q
    ensures p * q > 0 && (low + (q * d + r) * p) % (p * q) == low + p * r
  {
    AtLeastOnce(p, q);
    Scale(p, q, d, r);
    RoomFor(p, r, q);
    var m, a := p * q, (q * d + r) * p;
    assert low + p * r < m;
    Remainder(low + a, m, d, low + p * r);
  }

  lemma {:induction false} ReduceAway(m: nat, q: nat, x: nat, a: nat)
    requires m > 0
    ensures (a + x * (m * q)) % m == a % m
  {
    var d: int, r: nat, t: int := a / m, a % m, x * q;
    assert a == m * d + r;
    Exchange(x, m, q);
    DropMultiple(m, d, r, t);
  }

  lemma {:induction false} DropMultiple(m: nat, d: int, r: nat, t: int)
    requires r < m
    ensures (m * d + r + m * t) % m == r
  {
    Difference(m, d, -t);
    Difference(m, 0, t);
    Remainder(m * d + r + m * t, m, d + t, r);
  }

  /** `x << shift` in an unsigned type of the given modulus. */
  function Shl(x: nat, shift: nat, modulus: nat): nat
    requires modulus > 0
  {
    x * Pow2(shift) % modulus
  }

  /** Bitwise or. */
  function Or(a: nat, b: nat): nat
    decreases a + b
  {
    if a == 0 && b == 0 then 0 else (if a % 2 == 1 || b % 2 == 1 then 1 else 0) + 2 * Or(a / 2, b / 2)
  }

  lemma {:induction false} OrZero(a: nat)
    ensures Or(a, 0) == a && Or(0, a) == a
  {
    if a > 0 {
      OrZero(a / 2);
    }
  }

  /** Below bit `k` and from bit `k` on: no bit in common, so or is addition. */
  lemma {:induction false} OrIsSum(a: nat, g: nat, k: nat)
    requires a < Pow2(k)
    ensures Or(a, Pow2(k) * g) == a + Pow2(k) * g
  {
    if k == 0 {
      OrZero(g);
    } else {
      OrIsSum(a / 2, g, k - 1);
      Doubled(Pow2(k - 1), g);
    }
  }

  /** A group that fits the width, at least in part: what was read lies below the shift, and the group, reduced
      to the width, at or above it. */
  lemma {:induction false} OrFits(partial: nat, x: nat, shift: nat, width: nat)
    requires partial < Pow2(shift) && shift < width
    ensures Or(partial % Pow2(width), Shl(x, shift, Pow2(width))) == (partial + x * Pow2(shift)) % Pow2(width)
  {
    hide Or, Pow2;
    var p, q := Pow2(shift), Pow2(width - shift);
    var m, high := p * q, x % q;
    assert Pow2(width) == m by { Pow2Sum(shift, width - shift); }
    assert (partial + x * p) % m == partial + p * high by { ReduceAbove(p, q, x, partial); }
    assert (x * p) % m == p * high by { ReduceAbove(p, q, x, 0); }
    assert partial % m == partial by { ReduceAbove(p, q, 0, partial); }
    OrIsSum(partial, high, shift);
  }

  /** A group beyond the width is lost. */
  lemma {:induction false} OrGone(partial: nat, x: nat, shift: nat, width: nat)
    requires shift >= width
    ensures Or(partial % Pow2(width), Shl(x, shift, Pow2(width))) == (partial + x * Pow2(shift)) % Pow2(width)
  {
    hide Or, Pow2;
    var m, q := Pow2(width), Pow2(shift - width);
    assert Pow2(shift) == m * q by { Pow2Sum(width, shift - width); }
    assert (partial + x * (m * q)) % m == partial % m by { ReduceAway(m, q, x, partial); }
    assert (x * (m * q)) % m == 0 by { ReduceAway(m, q, x, 0); }
    OrZero(partial % m);
  }

  /** One turn of the accumulation: or-ing the shifted group into what was read adds the group to it, up to the
      width. */
  lemma {:induction false} OrStep(partial: nat, x: nat, shift: nat, width: nat)
    requires partial < Pow2(shift)
    ensures Or(partial % Pow2(width), Shl(x, shift, Pow2(width))) == (partial + x * Pow2(shift)) % Pow2(width)
  {
    hide Or, Shl, Pow2;
    if shift < width { OrFits(partial, x, shift, width); } else { OrGone(partial, x, shift, width); }
  }

  /** And stays below the next shift. */
  lemma {:induction false} GroupFits(partial: nat, x: nat, shift: nat)
    requires partial < Pow2(shift) && x < 128
    ensures partial + x * Pow2(shift) < Pow2(shift + 7)
  {
    Pow2Sum(shift, 7);
    assert Pow2(7) == 128;
    RoomFor(Pow2(shift), x, 128);
  }

  /** Both, for the `k`-th group of a varint. */
  lemma {:induction false} Accumulates(partial: nat, k: nat, x: nat, modulus: nat)
    requires partial < Pow128(k) && x < 128 && (modulus == TWO32 || modulus == TWO64)
    ensures Or(partial % modulus, Shl(x, 7 * k, modulus)) == (partial + Group(x, k)) % modulus
    ensures partial + Group(x, k) < Pow128(k + 1)
  {
    hide Or, Shl, Pow2, Pow128;
    Widths();
    Pow2OfGroups(k);
    Pow2OfGroups(k + 1);
    OrStep(partial, x, 7 * k, if modulus == TWO32 then 32 else 64);
    GroupFits(partial, x, 7 * k);
  }

  /** `k` groups have been read from `at` on; their sum is `partial`, and `v` that at the field's width. */
  ghost predicate Reading(dAtA: seq<byte>, at: nat, iNdEx: nat, k: nat, partial: nat, v: nat, modulus: nat) {
    && modulus > 0 && k <= MAX_GROUPS && iNdEx == at + k <= |dAtA|
    && partial < Pow128(k) && v == partial % modulus
    && Scan(dAtA[at..], 0) == Continue(partial, k, Scan(dAtA[iNdEx..], k))
  }

  lemma {:induction false} ReadingStarts(dAtA: seq<byte>, at: nat, modulus: nat)
    requires at <= |dAtA| && modulus > 0
    ensures Reading(dAtA, at, at, 0, 0, 0, modulus)
  {
  }

  /** No more groups are allowed, or there are no more bytes. */
  lemma {:induction false} ReadingFails(dAtA: seq<byte>, at: nat, iNdEx: nat, k: nat, partial: nat, v: nat,
                                        modulus: nat)
    requires Reading(dAtA, at, iNdEx, k, partial, v, modulus)
    ensures k == MAX_GROUPS ==> Scan(dAtA[at..], 0) == Err(IntOverflow)
    ensures k < MAX_GROUPS && iNdEx == |dAtA| ==> Scan(dAtA[at..], 0) == Err(Truncated)
  {
  }

  lemma {:induction false} ReadingGoesOn(dAtA: seq<byte>, at: nat, iNdEx: nat, k: nat, partial: nat, v: nat,
                                         modulus: nat)
    requires Reading(dAtA, at, iNdEx, k, partial, v, modulus) && (modulus == TWO32 || modulus == TWO64)
    requires k < MAX_GROUPS && iNdEx < |dAtA|
    ensures var b, v' := dAtA[iNdEx], Or(v, Shl(dAtA[iNdEx] % 128, 7 * k, modulus));
            var sum := partial + Group(b % 128, k);
            if b < 128 then Scan(dAtA[at..], 0) == Ok(Varint(sum, k + 1)) && v' == sum % modulus
            else Reading(dAtA, at, iNdEx + 1, k + 1, sum, v', modulus)
  {
    hide Or, Shl, Pow128, Group, Scan, Continue;
    var b, s := dAtA[iNdEx], dAtA[iNdEx..];
    assert s[0] == b && s[1..] == dAtA[iNdEx + 1..];
    ContinueStep(partial, k, s);
    Accumulates(partial, k, b % 128, modulus);
  }

  /** The decoder's varint loop, accumulating in an unsigned integer of the given modulus. */
  method ReadVarint(dAtA: seq<byte>, at: nat, modulus: nat) returns (err: Option<Error>, v: nat, iNdEx: nat)
    requires at <= |dAtA| && (modulus == TWO32 || modulus == TWO64)
    ensures Scan(dAtA[at..], 0).Err? ==> err == Some(Scan(dAtA[at..], 0).error)
    ensures Scan(dAtA[at..], 0).Ok? ==>
      var x := Scan(dAtA[at..], 0).value;
      err == None && v == x.raw % modulus && iNdEx == at + x.size
  {
    hide Reading, Scan, Or, Shl, Group;
    err, v, iNdEx := None, 0, at;
    var shift := 0;
    ghost var k: nat, partial: nat := 0, 0;
    ReadingStarts(dAtA, at, modulus);
    while true
      invariant err == None && 0 <= k <= MAX_GROUPS && shift == 7 * k && iNdEx == at + k <= |dAtA|
      invariant Reading(dAtA, at, iNdEx, k, partial, v, modulus)
      decreases MAX_GROUPS - k
    {
      ReadingFails(dAtA, at, iNdEx, k, partial, v, modulus);
      if shift >= 64 {
        err := Some(IntOverflow);
        return;
      }
      if iNdEx >= |dAtA| {
        err := Some(Truncated);
        return;
      }
      ReadingGoesOn(dAtA, at, iNdEx, k, partial, v, modulus);
      var b := dAtA[iNdEx];
      iNdEx := iNdEx + 1;
      v := Or(v, Shl(b % 128, shift, modulus));
      partial := partial + Group(b % 128, k);
      if b < 128 {
        return;
      }
      k := k + 1;
      shift := shift + 7;
    }
  }

  /** A record's header: its tag varint, split into field number and wire type. */
  method ReadHeader(dAtA: seq<byte>, at: nat) returns (err: Option<Error>, fieldNum: int, wireType: nat, iNdEx: nat)
    requires at <= |dAtA|
    ensures ReadTag(dAtA[at..]).Err? ==> err == Some(ReadTag(dAtA[at..]).error)
    ensures ReadTag(dAtA[at..]).Ok? ==>
      err == None && at < iNdEx <= |dAtA| && ReadTag(dAtA[at..]).value == Tag(fieldNum, wireType, iNdEx - at)
  {
    var wire;
    err, wire, iNdEx := ReadVarint(dAtA, at, TWO64);
    if err.Some? {
      fieldNum, wireType := 0, 0;
      return;
    }
    fieldNum := Int32(wire / 8);
    wireType := wire % 8;
    if wireType == 4 {
      err := Some(EndGroup);
    } else if fieldNum <= 0 {
      err := Some(IllegalTag);
    }
  }

  /** The bounds of a length-delimited payload, with the decoder's signed-overflow checks: the length
      as a Go int must not be negative, nor its sum with the index, nor may that sum pass the end. */
  method ReadLength(dAtA: seq<byte>, from: nat) returns (err: Option<Error>, lo: nat, hi: nat)
    requires from <= |dAtA| < TWO63
    ensures ReadPayload(dAtA[from..]).Err? ==> err == Some(ReadPayload(dAtA[from..]).error)
    ensures ReadPayload(dAtA[from..]).Ok? ==>
      && err == None
      && from <= lo <= hi <= |dAtA|
      && ReadPayload(dAtA[from..]).value == Payload(dAtA[lo..hi], hi - from)
  {
    var length;
    hi := from;
    err, length, lo := ReadVarint(dAtA, from, TWO64);
    if err.Some? {
      return;
    }
    var intLength := Int64(length);
    if intLength < 0 {
      return Some(Truncated), lo, hi;
    }
    var postIndex := Int64(lo + intLength);
    if postIndex < 0 {
      return Some(Truncated), lo, hi;
    }
    if postIndex > |dAtA| {
      return Some(Truncated), lo, hi;
    }
    hi := postIndex;
    assert dAtA[from..][lo - from..hi - from] == dAtA[lo..hi];
  }

  /** A known length-delimited field, after its header. */
  method ReadBytesField(ghost skip: Skipper, ghost kind: int -> Kind, ghost tag: Tag,
                        dAtA: seq<byte>, ghost at: nat, from: nat, wireType: nat)
    returns (err: Option<Error>, lo: nat, hi: nat)
    requires at < from <= |dAtA| < TWO63
    requires ReadTag(dAtA[at..]) == Ok(tag) && tag.size == from - at && tag.wireType == wireType
    requires kind(tag.field) == Delimited
    ensures Next(skip, kind, dAtA[at..]).Err? ==> err == Some(Next(skip, kind, dAtA[at..]).error)
    ensures Next(skip, kind, dAtA[at..]).Ok? ==>
      && err == None
      && from <= lo <= hi <= |dAtA|
      && Next(skip, kind, dAtA[at..]).value == Parsed(DelimitedField(tag.field, dAtA[lo..hi]), hi - at)
  {
    assert dAtA[at..][tag.size..] == dAtA[from..];
    if wireType != 2 {
      return Some(WrongWireType), from, from;
    }
    err, lo, hi := ReadLength(dAtA, from);
  }

  /** A known varint field, after its header, truncated to the field's width. */
  method ReadScalarField(ghost skip: Skipper, ghost kind: int -> Kind, ghost tag: Tag,
                         dAtA: seq<byte>, ghost at: nat, from: nat, wireType: nat, modulus: nat)
    returns (err: Option<Error>, v: nat, next: nat)
    requires at < from <= |dAtA| && (modulus == TWO32 || modulus == TWO64)
    requires ReadTag(dAtA[at..]) == Ok(tag) && tag.size == from - at && tag.wireType == wireType
    requires kind(tag.field) == Scalar
    ensures Next(skip, kind, dAtA[at..]).Err? ==> err == Some(Next(skip, kind, dAtA[at..]).error)
    ensures Next(skip, kind, dAtA[at..]).Ok? ==>
      var p := Next(skip, kind, dAtA[at..]).value;
      && err == None
      && next == at + p.size
      && p.record == ScalarField(tag.field, p.record.raw)
      && v == p.record.raw % modulus
  {
    assert dAtA[at..][tag.size..] == dAtA[from..];
    if wireType != 0 {
      return Some(WrongWireType), 0, from;
    }
    err, v, next := ReadVarint(dAtA, from, modulus);
  }

  /** A record under an unknown number: its extent, measured from its tag. */
  method SkipRecord(skip: Skipper, ghost kind: int -> Kind, ghost tag: Tag, dAtA: seq<byte>, at: nat)
    returns (err: Option<Error>, next: nat)
    requires at < |dAtA| < TWO63
    requires ReadTag(dAtA[at..]) == Ok(tag) && kind(tag.field) == Unknown
    ensures Next(skip, kind, dAtA[at..]).Err? ==> err == Some(Next(skip, kind, dAtA[at..]).error)
    ensures Next(skip, kind, dAtA[at..]).Ok? ==>
      && err == None
      && at < next <= |dAtA|
      && Next(skip, kind, dAtA[at..]).value == Parsed(UnknownRecord(dAtA[at..next]), next - at)
  {
    next := at;
    assert SkipLaw(skip, dAtA[at..], dAtA[at..]);
    var skippy := skip(dAtA[at..]);
    if skippy.None? {
      return Some(SkipFailed), next;
    }
    if Int64(at + skippy.value) < 0 {
      return Some(Truncated), next;
    }
    if at + skippy.value > |dAtA| {
      return Some(Truncated), next;
    }
    err, next := None, at + skippy.value;
  }

  /** What `UnmarshalVT` reports and leaves behind, against the decode it implements. */
  ghost predicate Outcome<K>(r: Result<Msg<K>>, err: Option<Error>, m: Msg<K>) {
    match r
    case Ok(v) => err == None && m == v
    case Err(e) => err == Some(e)
  }

  /** One turn of a decoding loop. */
  lemma {:induction false} Turn<K>(skip: Skipper, d: Descriptor<K>, dAtA: seq<byte>, at: nat, m: Msg<K>)
    requires at < |dAtA|
    ensures ReadTag(dAtA[at..]).Err? ==> Decode(skip, d, dAtA[at..], m) == Err(ReadTag(dAtA[at..]).error)
    ensures match Next(skip, d.kind, dAtA[at..])
            case Err(e) => Decode(skip, d, dAtA[at..], m) == Err(e)
            case Ok(p) => Decode(skip, d, dAtA[at..], m) == Resume(skip, d, Absorb(d, m, p.record), dAtA[at + p.size..])
  {
    if Next(skip, d.kind, dAtA[at..]).Ok? {
      var n := Next(skip, d.kind, dAtA[at..]).value.size;
      assert dAtA[at..][n..] == dAtA[at + n..];
    }
  }

  /** One turn of a decoding loop, done: it failed as the decoding does, or it consumed at least a byte and
      left the rest of the decoding where it was. */
  ghost predicate Turned<K>(d: Descriptor<K>, skip: Skipper, dAtA: seq<byte>, from: nat, before: Msg<K>,
                            err: Option<Error>, to: nat, after: Msg<K>)
    requires from <= |dAtA|
  {
    match err
    case Some(e) => Decode(skip, d, dAtA[from..], before) == Err(e)
    case None => from < to <= |dAtA| && Decode(skip, d, dAtA[from..], before) == Decode(skip, d, dAtA[to..], after)
  }

  lemma {:induction false} DecodeEnd<K>(skip: Skipper, d: Descriptor<K>, dAtA: seq<byte>, m: Msg<K>)
    ensures Decode(skip, d, dAtA[|dAtA|..], m) == Ok(m)
  {
  }

  // ------------------------------------------------------------------------- writing helpers

  /** `now` is `before` with `e` written into `before[i..hi]` and nothing else touched. */
  ghost predicate Filled(now: seq<byte>, before: seq<byte>, i: nat, e: seq<byte>, hi: nat) {
    i + |e| == hi <= |before| && now == before[..i] + e + before[hi..]
  }

  lemma {:induction false} FillMore(c: seq<byte>, b: seq<byte>, a: seq<byte>, i: nat, f: seq<byte>, j: nat,
                                    e: seq<byte>, k: nat)
    requires Filled(b, a, j, e, k) && Filled(c, b, i, f, j)
    ensures Filled(c, a, i, f + e, k)
  {
    assert b[..i] == a[..i];
    assert b[j..] == e + a[k..];
  }

  /** The size of a varint, `protohelpers.SizeOfVarint`. */
  function SizeOfVarint(v: nat): (n: nat)
    ensures n == |Varbytes(v)|
  {
    if v < 128 then 1 else 1 + SizeOfVarint(v / 128)
  }

  /** One more byte, written after those already there. */
  method Store(dAtA: array<byte>, at: nat, b: byte, ghost before: seq<byte>, ghost base: nat, ghost done: seq<byte>)
    requires Filled(dAtA[..], before, base, done, at) && at < dAtA.Length
    modifies dAtA
    ensures Filled(dAtA[..], before, base, done + [b], at + 1)
  {
    ghost var now := dAtA[..];
    dAtA[at] := b;
    assert dAtA[..] == now[..at] + [b] + now[at + 1..];
    assert now[..at] == before[..base] + done && now[at + 1..] == before[at + 1..];
  }

  lemma {:induction false} FillNothing(before: seq<byte>, base: nat)
    requires base <= |before|
    ensures Filled(before, before, base, [], base)
  {
  }

  lemma {:induction false} VarbytesHead(v: nat)
    ensures Varbytes(v) == if v < 128 then [v] else [v % 128 + 128] + Varbytes(v / 128)
  {
  }

  /** `protohelpers.EncodeVarint`: steps back by the varint's size and writes it forwards from there. */
  method EncodeVarint(dAtA: array<byte>, offset: nat, x: nat) returns (base: nat)
    requires |Varbytes(x)| <= offset <= dAtA.Length
    modifies dAtA
    ensures base + |Varbytes(x)| == offset
    ensures Filled(dAtA[..], old(dAtA[..]), base, Varbytes(x), offset)
  {
    hide Varbytes, SizeOfVarint, Filled;
    ghost var before := dAtA[..];
    base := offset - SizeOfVarint(x);
    var at, v := base, x;
    ghost var done: seq<byte> := [];
    FillNothing(before, base);
    while v >= 128
      invariant base <= at && at + |Varbytes(v)| == offset
      invariant done + Varbytes(v) == Varbytes(x)
      invariant Filled(dAtA[..], before, base, done, at)
      decreases v
    {
      VarbytesHead(v);
      assert done + ([v % 128 + 128] + Varbytes(v / 128)) == (done + [v % 128 + 128]) + Varbytes(v / 128);
      Store(dAtA, at, v % 128 + 128, before, base, done);
      done := done + [v % 128 + 128];
      v := v / 128;
      at := at + 1;
    }
    VarbytesHead(v);
    Store(dAtA, at, v, before, base, done);
  }

  /** `i -= len(s); copy(dAtA[i:], s)`. */
  method Prepend(dAtA: array<byte>, hi: nat, s: seq<byte>) returns (i: nat)
    requires |s| <= hi <= dAtA.Length
    modifies dAtA
    ensures i + |s| == hi
    ensures Filled(dAtA[..], old(dAtA[..]), i, s, hi)
  {
    i := hi - |s|;
    forall k | 0 <= k < |s| {
      dAtA[i + k] := s[k];
    }
  }

  /** One byte in front of what was written up to `end`. */
  method PrependByte(dAtA: array<byte>, hi: nat, b: byte, ghost e: seq<byte>, ghost end: nat, ghost before: seq<byte>)
    returns (i: nat)
    requires 0 < hi <= dAtA.Length && Filled(dAtA[..], before, hi, e, end)
    modifies dAtA
    ensures i == hi - 1 && Filled(dAtA[..], before, i, [b] + e, end)
  {
    ghost var mid := dAtA[..];
    i := hi - 1;
    dAtA[i] := b;
    assert dAtA[..] == mid[..i] + [b] + mid[hi..];
    FillMore(dAtA[..], mid, before, i, [b], hi, e, end);
  }

  /** A length and a one-byte tag in front of a payload already written at `dAtA[i..]`. */
  method PrependHeader(dAtA: array<byte>, i: nat, field: nat, size: nat) returns (j: nat)
    requires 0 < field < 16 && 1 + |Varbytes(size)| <= i <= dAtA.Length
    modifies dAtA
    ensures j + 1 + |Varbytes(size)| == i
    ensures Filled(dAtA[..], old(dAtA[..]), j, [8 * field + 2] + Varbytes(size), i)
  {
    ghost var before := dAtA[..];
    j := EncodeVarint(dAtA, i, size);
    j := PrependByte(dAtA, j, 8 * field + 2, Varbytes(size), i, before);
  }

  /** The length and tag of a nested message of `size` bytes just written in front of `dAtA[hi..]`. */
  method WrapMessage(dAtA: array<byte>, hi: nat, field: nat, size: nat, ghost s: seq<byte>, ghost before: seq<byte>)
    returns (i: nat)
    requires 0 < field < 16 && size == |s| && |PutMessage(field, s)| <= hi <= dAtA.Length
    requires Filled(dAtA[..], before, hi - size, s, hi)
    modifies dAtA
    ensures i + |PutMessage(field, s)| == hi
    ensures Filled(dAtA[..], before, i, PutMessage(field, s), hi)
  {
    ghost var mid := dAtA[..];
    i := PrependHeader(dAtA, hi - size, field, size);
    FillMore(dAtA[..], mid, before, i, [8 * field + 2] + Varbytes(size), hi - size, s, hi);
  }

  /** A string field, tag last because the buffer fills backwards. */
  method PrependString(dAtA: array<byte>, hi: nat, field: nat, s: Text) returns (i: nat)
    requires 0 < field < 16 && |PutString(field, s)| <= hi <= dAtA.Length
    modifies dAtA
    ensures i + |PutString(field, s)| == hi
    ensures Filled(dAtA[..], old(dAtA[..]), i, PutString(field, s), hi)
  {
    ghost var before := dAtA[..];
    i := hi;
    if |s| > 0 {
      i := Prepend(dAtA, i, s);
      ghost var mid, at := dAtA[..], i;
      i := PrependHeader(dAtA, i, field, |s|);
      FillMore(dAtA[..], mid, before, i, [8 * field + 2] + Varbytes(|s|), at, s, hi);
    }
  }

  /** A scalar field, left out when zero. */
  method PrependScalar(dAtA: array<byte>, hi: nat, field: nat, v: uint64) returns (i: nat)
    requires 0 < field < 16 && |PutScalar(field, v)| <= hi <= dAtA.Length
    modifies dAtA
    ensures i + |PutScalar(field, v)| == hi
    ensures Filled(dAtA[..], old(dAtA[..]), i, PutScalar(field, v), hi)
  {
    ghost var before := dAtA[..];
    i := hi;
    if v != 0 {
      i := EncodeVarint(dAtA, i, v);
      i := PrependByte(dAtA, i, 8 * field, Varbytes(v), hi, before);
    }
  }

  /** A bool field: one byte and its tag, left out when false. */
  method PrependBool(dAtA: array<byte>, hi: nat, field: nat, b: bool) returns (i: nat)
    requires 0 < field < 16 && |PutScalar(field, BoolScalar(b))| <= hi <= dAtA.Length
    modifies dAtA
    ensures i + |PutScalar(field, BoolScalar(b))| == hi
    ensures Filled(dAtA[..], old(dAtA[..]), i, PutScalar(field, BoolScalar(b)), hi)
  {
    ghost var before := dAtA[..];
    i := hi;
    FillNothing(before, hi);
    if b {
      assert PutScalar(field, 1) == [8 * field] + ([1] + []);
      hide Filled, PutScalar;
      i := PrependByte(dAtA, i, 1, [], hi, before);
      i := PrependByte(dAtA, i, 8 * field, [1] + [], hi, before);
    }
  }

  /** The size of a string field, of a scalar field. */
  function SizeOfString(field: nat, s: Text): (n: nat)
    requires 0 < field < 16
    ensures n == |PutString(field, s)|
  {
    if |s| > 0 then 1 + |s| + SizeOfVarint(|s|) else 0
  }

  function SizeOfScalar(field: nat, v: nat): (n: nat)
    requires 0 < field < 16
    ensures n == |PutScalar(field, v)|
  {
    if v != 0 then 1 + SizeOfVarint(v) else 0
  }

  // ------------------------------------------------------------------------- IPMI

  class IPMISpec {
    var address: Text
    var port: uint32
    var username: Text
    var password: Text
    var unknownFields: seq<byte>

    function Value(): IPMI
      reads this
    {
      Msg(IPMIFields(address, port, username, password), unknownFields)
    }

    constructor ()
      ensures Value() == NO_IPMI
    {
      address, port, username, password, unknownFields := [], 0, [], [], [];
    }

    /** Either message may be absent. */
    static method EqualVT(a: IPMISpec?, b: IPMISpec?) returns (equal: bool)
      ensures equal <==> (a == null && b == null) || (a != null && b != null && a.Value() == b.Value())
    {
      if a == b {
        return true;
      } else if a == null || b == null {
        return false;
      }
      if a.address != b.address {
        return false;
      }
      if a.port != b.port {
        return false;
      }
      if a.username != b.username {
        return false;
      }
      if a.password != b.password {
        return false;
      }
      return a.unknownFields == b.unknownFields;
    }

    method SizeVT() returns (n: nat)
      ensures n == |IPMIBytes(Value())|
    {
      n := SizeOfString(1, address) + SizeOfScalar(2, port) + SizeOfString(3, username) + SizeOfString(4, password) +
        |unknownFields|;
    }

    method MarshalToSizedBufferVT(dAtA: array<byte>, hi: nat) returns (n: nat)
      requires |IPMIBytes(Value())| <= hi <= dAtA.Length
      modifies dAtA
      ensures n == |IPMIBytes(Value())|
      ensures Filled(dAtA[..], old(dAtA[..]), hi - n, IPMIBytes(Value()), hi)
    {
      ghost var before := dAtA[..];
      ghost var e := unknownFields;
      var i := Prepend(dAtA, hi, unknownFields);
      ghost var at, mid := i, dAtA[..];
      i := PrependString(dAtA, i, 4, password);
      FillMore(dAtA[..], mid, before, i, PutString(4, password), at, e, hi);
      e, at, mid := PutString(4, password) + e, i, dAtA[..];
      i := PrependString(dAtA, i, 3, username);
      FillMore(dAtA[..], mid, before, i, PutString(3, username), at, e, hi);
      e, at, mid := PutString(3, username) + e, i, dAtA[..];
      i := PrependScalar(dAtA, i, 2, port);
      FillMore(dAtA[..], mid, before, i, PutScalar(2, port), at, e, hi);
      e, at, mid := PutScalar(2, port) + e, i, dAtA[..];
      i := PrependString(dAtA, i, 1, address);
      FillMore(dAtA[..], mid, before, i, PutString(1, address), at, e, hi);
      n := hi - i;
    }

    method UnmarshalVT(skip: Skipper, dAtA: seq<byte>) returns (err: Option<Error>)
      requires |dAtA| < TWO63
      modifies this
      ensures Outcome(Decode(skip, IPMIDesc(), dAtA, old(Value())), err, Value())
    {
      hide Decode, Next;
      ghost var d := IPMIDesc();
      var iNdEx, l := 0, |dAtA|;
      err := None;
      assert dAtA[0..] == dAtA;
      while iNdEx < l
        invariant err == None && 0 <= iNdEx <= l
        invariant Decode(skip, d, dAtA[iNdEx..], Value()) == Decode(skip, d, dAtA, old(Value()))
      {
        Turn(skip, d, dAtA, iNdEx, Value());
        var preIndex := iNdEx;
        var fieldNum, wireType, i, j, v;
        err, fieldNum, wireType, i := ReadHeader(dAtA, preIndex);
        if err.Some? { return; }
        ghost var tag := Tag(fieldNum, wireType, i - preIndex);
        if fieldNum == 1 {
          err, i, j := ReadBytesField(skip, d.kind, tag, dAtA, preIndex, i, wireType);
          if err.Some? { return; }
          address := dAtA[i..j];
        } else if fieldNum == 2 {
          port := 0;
          err, v, j := ReadScalarField(skip, d.kind, tag, dAtA, preIndex, i, wireType, TWO32);
          if err.Some? { return; }
          port := v;
        } else if fieldNum == 3 {
          err, i, j := ReadBytesField(skip, d.kind, tag, dAtA, preIndex, i, wireType);
          if err.Some? { return; }
          username := dAtA[i..j];
        } else if fieldNum == 4 {
          err, i, j := ReadBytesField(skip, d.kind, tag, dAtA, preIndex, i, wireType);
          if err.Some? { return; }
          password := dAtA[i..j];
        } else {
          err, j := SkipRecord(skip, d.kind, tag, dAtA, preIndex);
          if err.Some? { return; }
          unknownFields := unknownFields + dAtA[preIndex..j];
        }
        iNdEx := j;
      }
      DecodeEnd(skip, d, dAtA, Value());
    }
  }

  // ------------------------------------------------------------------------- API

  class APISpec {
    var address: Text
    var unknownFields: seq<byte>

    function Value(): API
      reads this
    {
      Msg(APIFields(address), unknownFields)
    }

    constructor ()
      ensures Value() == NO_API
    {
      address, unknownFields := [], [];
    }

    /** Either message may be absent. */
    static method EqualVT(a: APISpec?, b: APISpec?) returns (equal: bool)
      ensures equal <==> (a == null && b == null) || (a != null && b != null && a.Value() == b.Value())
    {
      if a == b {
        return true;
      } else if a == null || b == null {
        return false;
      }
      if a.address != b.address {
        return false;
      }
      return a.unknownFields == b.unknownFields;
    }

    method SizeVT() returns (n: nat)
      ensures n == |APIBytes(Value())|
    {
      n := SizeOfString(1, address) + |unknownFields|;
    }

    method MarshalToSizedBufferVT(dAtA: array<byte>, hi: nat) returns (n: nat)
      requires |APIBytes(Value())| <= hi <= dAtA.Length
      modifies dAtA
      ensures n == |APIBytes(Value())|
      ensures Filled(dAtA[..], old(dAtA[..]), hi - n, APIBytes(Value()), hi)
    {
      ghost var before := dAtA[..];
      ghost var e := unknownFields;
      var i := Prepend(dAtA, hi, unknownFields);
      ghost var at, mid := i, dAtA[..];
      i := PrependString(dAtA, i, 1, address);
      FillMore(dAtA[..], mid, before, i, PutString(1, address), at, e, hi);
      n := hi - i;
    }

    method UnmarshalVT(skip: Skipper, dAtA: seq<byte>) returns (err: Option<Error>)
      requires |dAtA| < TWO63
      modifies this
      ensures Outcome(Decode(skip, APIDesc(), dAtA, old(Value())), err, Value())
    {
      hide Decode, Next;
      ghost var d := APIDesc();
      var iNdEx, l := 0, |dAtA|;
      err := None;
      assert dAtA[0..] == dAtA;
      while iNdEx < l
        invariant err == None && 0 <= iNdEx <= l
        invariant Decode(skip, d, dAtA[iNdEx..], Value()) == Decode(skip, d, dAtA, old(Value()))
      {
        Turn(skip, d, dAtA, iNdEx, Value());
        var preIndex := iNdEx;
        var fieldNum, wireType, i, j;
        err, fieldNum, wireType, i := ReadHeader(dAtA, preIndex);
        if err.Some? { return; }
        ghost var tag := Tag(fieldNum, wireType, i - preIndex);
        if fieldNum == 1 {
          err, i, j := ReadBytesField(skip, d.kind, tag, dAtA, preIndex, i, wireType);
          if err.Some? { return; }
          address := dAtA[i..j];
        } else {
          err, j := SkipRecord(skip, d.kind, tag, dAtA, preIndex);
          if err.Some? { return; }
          unknownFields := unknownFields + dAtA[preIndex..j];
        }
        iNdEx := j;
      }
      DecodeEnd(skip, d, dAtA, Value());
    }
  }

  // ------------------------------------------------------------------------- Manual

  class ManualSpec {
    var unknownFields: seq<byte>

    function Value(): Manual
      reads this
    {
      Msg(ManualFields, unknownFields)
    }

    constructor ()
      ensures Value() == NO_MANUAL
    {
      unknownFields := [];
    }

    /** Either message may be absent. */
    static method EqualVT(a: ManualSpec?, b: ManualSpec?) returns (equal: bool)
      ensures equal <==> (a == null && b == null) || (a != null && b != null && a.Value() == b.Value())
    {
      if a == b {
        return true;
      } else if a == null || b == null {
        return false;
      }
      return a.unknownFields == b.unknownFields;
    }

    method SizeVT() returns (n: nat)
      ensures n == |ManualBytes(Value())|
    {
      n := |unknownFields|;
    }

    method MarshalToSizedBufferVT(dAtA: array<byte>, hi: nat) returns (n: nat)
      requires |ManualBytes(Value())| <= hi <= dAtA.Length
      modifies dAtA
      ensures n == |ManualBytes(Value())|
      ensures Filled(dAtA[..], old(dAtA[..]), hi - n, ManualBytes(Value()), hi)
    {
      var i := Prepend(dAtA, hi, unknownFields);
      n := hi - i;
    }

    method UnmarshalVT(skip: Skipper, dAtA: seq<byte>) returns (err: Option<Error>)
      requires |dAtA| < TWO63
      modifies this
      ensures Outcome(Decode(skip, ManualDesc(), dAtA, old(Value())), err, Value())
    {
      hide Decode, Next;
      ghost var d := ManualDesc();
      var iNdEx, l := 0, |dAtA|;
      err := None;
      assert dAtA[0..] == dAtA;
      while iNdEx < l
        invariant err == None && 0 <= iNdEx <= l
        invariant Decode(skip, d, dAtA[iNdEx..], Value()) == Decode(skip, d, dAtA, old(Value()))
      {
        Turn(skip, d, dAtA, iNdEx, Value());
        var preIndex := iNdEx;
        var fieldNum, wireType, i, j;
        err, fieldNum, wireType, i := ReadHeader(dAtA, preIndex);
        if err.Some? { return; }
        ghost var tag := Tag(fieldNum, wireType, i - preIndex);
        err, j := SkipRecord(skip, d.kind, tag, dAtA, preIndex);
        if err.Some? { return; }
        unknownFields := unknownFields + dAtA[preIndex..j];
        iNdEx := j;
      }
      DecodeEnd(skip, d, dAtA, Value());
    }
  }

  // ------------------------------------------------------------------------- MachineStatus

  class MachineStatusSpec {
    var agentAccessible: bool
    var powerState: int32
    var initialized: bool
    var unknownFields: seq<byte>

    function Value(): MachineStatus
      reads this
    {
      Msg(MachineStatusFields(agentAccessible, powerState, initialized), unknownFields)
    }

    constructor ()
      ensures Value() == NO_MACHINE_STATUS
    {
      agentAccessible, powerState, initialized, unknownFields := false, 0, false, [];
    }

    /** Either message may be absent. */
    static method EqualVT(a: MachineStatusSpec?, b: MachineStatusSpec?) returns (equal: bool)
      ensures equal <==> (a == null && b == null) || (a != null && b != null && a.Value() == b.Value())
    {
      if a == b {
        return true;
      } else if a == null || b == null {
        return false;
      }
      if a.agentAccessible != b.agentAccessible {
        return false;
      }
      if a.powerState != b.powerState {
        return false;
      }
      if a.initialized != b.initialized {
        return false;
      }
      return a.unknownFields == b.unknownFields;
    }

    method SizeVT() returns (n: nat)
      ensures n == |MachineStatusBytes(Value())|
    {
      n := (if agentAccessible then 2 else 0) + SizeOfScalar(2, SignExtend(powerState)) +
        (if initialized then 2 else 0) + |unknownFields|;
    }

    method MarshalToSizedBufferVT(dAtA: array<byte>, hi: nat) returns (n: nat)
      requires |MachineStatusBytes(Value())| <= hi <= dAtA.Length
      modifies dAtA
      ensures n == |MachineStatusBytes(Value())|
      ensures Filled(dAtA[..], old(dAtA[..]), hi - n, MachineStatusBytes(Value()), hi)
    {
      ghost var before := dAtA[..];
      ghost var e := unknownFields;
      var i := Prepend(dAtA, hi, unknownFields);
      ghost var at, mid := i, dAtA[..];
      i := PrependBool(dAtA, i, 4, initialized);
      FillMore(dAtA[..], mid, before, i, PutScalar(4, BoolScalar(initialized)), at, e, hi);
      e, at, mid := PutScalar(4, BoolScalar(initialized)) + e, i, dAtA[..];
      i := PrependScalar(dAtA, i, 2, SignExtend(powerState));
      FillMore(dAtA[..], mid, before, i, PutScalar(2, SignExtend(powerState)), at, e, hi);
      e, at, mid := PutScalar(2, SignExtend(powerState)) + e, i, dAtA[..];
      i := PrependBool(dAtA, i, 1, agentAccessible);
      FillMore(dAtA[..], mid, before, i, PutScalar(1, BoolScalar(agentAccessible)), at, e, hi);
      n := hi - i;
    }

    method MarshalVT() returns (bytes: seq<byte>)
      ensures bytes == MachineStatusBytes(Value())
    {
      var size := SizeVT();
      var dAtA := new byte[size];
      var n := MarshalToSizedBufferVT(dAtA, size);
      assert dAtA[..n] == dAtA[..];
      bytes := dAtA[..n];
    }

    method MarshalToVT(dAtA: array<byte>) returns (n: nat)
      requires |MachineStatusBytes(Value())| <= dAtA.Length
      modifies dAtA
      ensures n == |MachineStatusBytes(Value())|
      ensures Filled(dAtA[..], old(dAtA[..]), 0, MachineStatusBytes(Value()), n)
    {
      var size := SizeVT();
      n := MarshalToSizedBufferVT(dAtA, size);
    }

    method UnmarshalVT(skip: Skipper, dAtA: seq<byte>) returns (err: Option<Error>)
      requires |dAtA| < TWO63
      modifies this
      ensures Outcome(Decode(skip, MachineStatusDesc(), dAtA, old(Value())), err, Value())
    {
      hide Decode, Next;
      ghost var d := MachineStatusDesc();
      var iNdEx, l := 0, |dAtA|;
      err := None;
      assert dAtA[0..] == dAtA;
      while iNdEx < l
        invariant err == None && 0 <= iNdEx <= l
        invariant Decode(skip, d, dAtA[iNdEx..], Value()) == Decode(skip, d, dAtA, old(Value()))
      {
        Turn(skip, d, dAtA, iNdEx, Value());
        var preIndex := iNdEx;
        var fieldNum, wireType, i, j, v;
        err, fieldNum, wireType, i := ReadHeader(dAtA, preIndex);
        if err.Some? { return; }
        ghost var tag := Tag(fieldNum, wireType, i - preIndex);
        if fieldNum == 1 {
          err, v, j := ReadScalarField(skip, d.kind, tag, dAtA, preIndex, i, wireType, TWO64);
          if err.Some? { return; }
          agentAccessible := v != 0;
        } else if fieldNum == 2 {
          powerState := 0;
          err, v, j := ReadScalarField(skip, d.kind, tag, dAtA, preIndex, i, wireType, TWO32);
          if err.Some? { return; }
          powerState := Int32(v);
        } else if fieldNum == 4 {
          err, v, j := ReadScalarField(skip, d.kind, tag, dAtA, preIndex, i, wireType, TWO64);
          if err.Some? { return; }
          initialized := v != 0;
        } else {
          err, j := SkipRecord(skip, d.kind, tag, dAtA, preIndex);
          if err.Some? { return; }
          unknownFields := unknownFields + dAtA[preIndex..j];
        }
        iNdEx := j;
      }
      DecodeEnd(skip, d, dAtA, Value());
    }
  }

  // ------------------------------------------------------------------------- WipeStatus

  class WipeStatusSpec {
    var lastWipeId: Text
    var lastWipeInstallEventId: uint64
    var initialWipeDone: bool
    var wipedNodeUniqueToken: Text
    var unknownFields: seq<byte>

    function Value(): WipeStatus
      reads this
    {
      Msg(WipeStatusFields(lastWipeId, lastWipeInstallEventId, initialWipeDone, wipedNodeUniqueToken), unknownFields)
    }

    constructor ()
      ensures Value() == NO_WIPE_STATUS
    {
      lastWipeId, lastWipeInstallEventId, initialWipeDone, wipedNodeUniqueToken, unknownFields := [], 0, false, [], [];
    }

    /** Either message may be absent. */
    static method EqualVT(a: WipeStatusSpec?, b: WipeStatusSpec?) returns (equal: bool)
      ensures equal <==> (a == null && b == null) || (a != null && b != null && a.Value() == b.Value())
    {
      if a == b {
        return true;
      } else if a == null || b == null {
        return false;
      }
      if a.lastWipeId != b.lastWipeId {
        return false;
      }
      if a.lastWipeInstallEventId != b.lastWipeInstallEventId {
        return false;
      }
      if a.initialWipeDone != b.initialWipeDone {
        return false;
      }
      if a.wipedNodeUniqueToken != b.wipedNodeUniqueToken {
        return false;
      }
      return a.unknownFields == b.unknownFields;
    }

    method SizeVT() returns (n: nat)
      ensures n == |WipeStatusBytes(Value())|
    {
      n := SizeOfString(1, lastWipeId) + SizeOfScalar(2, lastWipeInstallEventId) + (if initialWipeDone then 2 else 0) +
        SizeOfString(4, wipedNodeUniqueToken) + |unknownFields|;
    }

    method MarshalToSizedBufferVT(dAtA: array<byte>, hi: nat) returns (n: nat)
      requires |WipeStatusBytes(Value())| <= hi <= dAtA.Length
      modifies dAtA
      ensures n == |WipeStatusBytes(Value())|
      ensures Filled(dAtA[..], old(dAtA[..]), hi - n, WipeStatusBytes(Value()), hi)
    {
      ghost var before := dAtA[..];
      ghost var e := unknownFields;
      var i := Prepend(dAtA, hi, unknownFields);
      ghost var at, mid := i, dAtA[..];
      i := PrependString(dAtA, i, 4, wipedNodeUniqueToken);
      FillMore(dAtA[..], mid, before, i, PutString(4, wipedNodeUniqueToken), at, e, hi);
      e, at, mid := PutString(4, wipedNodeUniqueToken) + e, i, dAtA[..];
      i := PrependBool(dAtA, i, 3, initialWipeDone);
      FillMore(dAtA[..], mid, before, i, PutScalar(3, BoolScalar(initialWipeDone)), at, e, hi);
      e, at, mid := PutScalar(3, BoolScalar(initialWipeDone)) + e, i, dAtA[..];
      i := PrependScalar(dAtA, i, 2, lastWipeInstallEventId);
      FillMore(dAtA[..], mid, before, i, PutScalar(2, lastWipeInstallEventId), at, e, hi);
      e, at, mid := PutScalar(2, lastWipeInstallEventId) + e, i, dAtA[..];
      i := PrependString(dAtA, i, 1, lastWipeId);
      FillMore(dAtA[..], mid, before, i, PutString(1, lastWipeId), at, e, hi);
      n := hi - i;
    }

    method MarshalVT() returns (bytes: seq<byte>)
      ensures bytes == WipeStatusBytes(Value())
    {
      var size := SizeVT();
      var dAtA := new byte[size];
      var n := MarshalToSizedBufferVT(dAtA, size);
      assert dAtA[..n] == dAtA[..];
      bytes := dAtA[..n];
    }

    method MarshalToVT(dAtA: array<byte>) returns (n: nat)
      requires |WipeStatusBytes(Value())| <= dAtA.Length
      modifies dAtA
      ensures n == |WipeStatusBytes(Value())|
      ensures Filled(dAtA[..], old(dAtA[..]), 0, WipeStatusBytes(Value()), n)
    {
      var size := SizeVT();
      n := MarshalToSizedBufferVT(dAtA, size);
    }

    method UnmarshalVT(skip: Skipper, dAtA: seq<byte>) returns (err: Option<Error>)
      requires |dAtA| < TWO63
      modifies this
      ensures Outcome(Decode(skip, WipeStatusDesc(), dAtA, old(Value())), err, Value())
    {
      hide Decode, Next;
      ghost var d := WipeStatusDesc();
      var iNdEx, l := 0, |dAtA|;
      err := None;
      assert dAtA[0..] == dAtA;
      while iNdEx < l
        invariant err == None && 0 <= iNdEx <= l
        invariant Decode(skip, d, dAtA[iNdEx..], Value()) == Decode(skip, d, dAtA, old(Value()))
      {
        Turn(skip, d, dAtA, iNdEx, Value());
        var preIndex := iNdEx;
        var fieldNum, wireType, i, j, v;
        err, fieldNum, wireType, i := ReadHeader(dAtA, preIndex);
        if err.Some? { return; }
        ghost var tag := Tag(fieldNum, wireType, i - preIndex);
        if fieldNum == 1 {
          err, i, j := ReadBytesField(skip, d.kind, tag, dAtA, preIndex, i, wireType);
          if err.Some? { return; }
          lastWipeId := dAtA[i..j];
        } else if fieldNum == 2 {
          lastWipeInstallEventId := 0;
          err, v, j := ReadScalarField(skip, d.kind, tag, dAtA, preIndex, i, wireType, TWO64);
          if err.Some? { return; }
          lastWipeInstallEventId := v;
        } else if fieldNum == 3 {
          err, v, j := ReadScalarField(skip, d.kind, tag, dAtA, preIndex, i, wireType, TWO64);
          if err.Some? { return; }
          initialWipeDone := v != 0;
        } else if fieldNum == 4 {
          err, i, j := ReadBytesField(skip, d.kind, tag, dAtA, preIndex, i, wireType);
          if err.Some? { return; }
          wipedNodeUniqueToken := dAtA[i..j];
        } else {
          err, j := SkipRecord(skip, d.kind, tag, dAtA, preIndex);
          if err.Some? { return; }
          unknownFields := unknownFields + dAtA[preIndex..j];
        }
        iNdEx := j;
      }
      DecodeEnd(skip, d, dAtA, Value());
    }
  }

  // ------------------------------------------------------------------------- TLSConfig

  class TLSConfigSpec {
    var caCert: Text
    var caKey: Text
    var unknownFields: seq<byte>

    function Value(): TLSConfig
      reads this
    {
      Msg(TLSConfigFields(caCert, caKey), unknownFields)
    }

    constructor ()
      ensures Value() == NO_TLS_CONFIG
    {
      caCert, caKey, unknownFields := [], [], [];
    }

    /** Either message may be absent. */
    static method EqualVT(a: TLSConfigSpec?, b: TLSConfigSpec?) returns (equal: bool)
      ensures equal <==> (a == null && b == null) || (a != null && b != null && a.Value() == b.Value())
    {
      if a == b {
        return true;
      } else if a == null || b == null {
        return false;
      }
      if a.caCert != b.caCert {
        return false;
      }
      if a.caKey != b.caKey {
        return false;
      }
      return a.unknownFields == b.unknownFields;
    }

    method SizeVT() returns (n: nat)
      ensures n == |TLSConfigBytes(Value())|
    {
      n := SizeOfString(1, caCert) + SizeOfString(2, caKey) + |unknownFields|;
    }

    method MarshalToSizedBufferVT(dAtA: array<byte>, hi: nat) returns (n: nat)
      requires |TLSConfigBytes(Value())| <= hi <= dAtA.Length
      modifies dAtA
      ensures n == |TLSConfigBytes(Value())|
      ensures Filled(dAtA[..], old(dAtA[..]), hi - n, TLSConfigBytes(Value()), hi)
    {
      ghost var before := dAtA[..];
      ghost var e := unknownFields;
      var i := Prepend(dAtA, hi, unknownFields);
      ghost var at, mid := i, dAtA[..];
      i := PrependString(dAtA, i, 2, caKey);
      FillMore(dAtA[..], mid, before, i, PutString(2, caKey), at, e, hi);
      e, at, mid := PutString(2, caKey) + e, i, dAtA[..];
      i := PrependString(dAtA, i, 1, caCert);
      FillMore(dAtA[..], mid, before, i, PutString(1, caCert), at, e, hi);
      n := hi - i;
    }

    method MarshalVT() returns (bytes: seq<byte>)
      ensures bytes == TLSConfigBytes(Value())
    {
      var size := SizeVT();
      var dAtA := new byte[size];
      var n := MarshalToSizedBufferVT(dAtA, size);
      assert dAtA[..n] == dAtA[..];
      bytes := dAtA[..n];
    }

    method MarshalToVT(dAtA: array<byte>) returns (n: nat)
      requires |TLSConfigBytes(Value())| <= dAtA.Length
      modifies dAtA
      ensures n == |TLSConfigBytes(Value())|
      ensures Filled(dAtA[..], old(dAtA[..]), 0, TLSConfigBytes(Value()), n)
    {
      var size := SizeVT();
      n := MarshalToSizedBufferVT(dAtA, size);
    }

    method UnmarshalVT(skip: Skipper, dAtA: seq<byte>) returns (err: Option<Error>)
      requires |dAtA| < TWO63
      modifies this
      ensures Outcome(Decode(skip, TLSConfigDesc(), dAtA, old(Value())), err, Value())
    {
      hide Decode, Next;
      ghost var d := TLSConfigDesc();
      var iNdEx, l := 0, |dAtA|;
      err := None;
      assert dAtA[0..] == dAtA;
      while iNdEx < l
        invariant err == None && 0 <= iNdEx <= l
        invariant Decode(skip, d, dAtA[iNdEx..], Value()) == Decode(skip, d, dAtA, old(Value()))
      {
        Turn(skip, d, dAtA, iNdEx, Value());
        var preIndex := iNdEx;
        var fieldNum, wireType, i, j;
        err, fieldNum, wireType, i := ReadHeader(dAtA, preIndex);
        if err.Some? { return; }
        ghost var tag := Tag(fieldNum, wireType, i - preIndex);
        if fieldNum == 1 {
          err, i, j := ReadBytesField(skip, d.kind, tag, dAtA, preIndex, i, wireType);
          if err.Some? { return; }
          caCert := dAtA[i..j];
        } else if fieldNum == 2 {
          err, i, j := ReadBytesField(skip, d.kind, tag, dAtA, preIndex, i, wireType);
          if err.Some? { return; }
          caKey := dAtA[i..j];
        } else {
          err, j := SkipRecord(skip, d.kind, tag, dAtA, preIndex);
          if err.Some? { return; }
          unknownFields := unknownFields + dAtA[preIndex..j];
        }
        iNdEx := j;
      }
      DecodeEnd(skip, d, dAtA, Value());
    }
  }

  // ------------------------------------------------------------------------- BMCConfiguration

  /** The nested messages are objects of their own, created when the first of their records arrives and
      written into the same buffer, in front of what is already there. */
  class BMCConfigurationSpec {
    var ipmi: IPMISpec?
    var api: APISpec?
    var manuallyConfigured: bool
    var manual: ManualSpec?
    var unknownFields: seq<byte>

    function Value(): BMCConfiguration
      reads this, ipmi, api, manual
    {
      Msg(BMCConfigurationFields(
            if ipmi == null then None else Some(ipmi.Value()),
            if api == null then None else Some(api.Value()),
            manuallyConfigured,
            if manual == null then None else Some(manual.Value())), unknownFields)
    }

    constructor ()
      ensures Value() == NO_BMC
    {
      ipmi, api, manuallyConfigured, manual, unknownFields := null, null, false, null, [];
    }

    static method EqualVT(a: BMCConfigurationSpec?, b: BMCConfigurationSpec?) returns (equal: bool)
      ensures equal <==> (a == null && b == null) || (a != null && b != null && a.Value() == b.Value())
    {
      if a == b {
        return true;
      } else if a == null || b == null {
        return false;
      }
      var ipmi := IPMISpec.EqualVT(a.ipmi, b.ipmi);
      if !ipmi {
        return false;
      }
      var api := APISpec.EqualVT(a.api, b.api);
      if !api {
        return false;
      }
      if a.manuallyConfigured != b.manuallyConfigured {
        return false;
      }
      var manual := ManualSpec.EqualVT(a.manual, b.manual);
      if !manual {
        return false;
      }
      return a.unknownFields == b.unknownFields;
    }

    method SizeVT() returns (n: nat)
      ensures n == |BMCBytes(Value())|
    {
      n := 0;
      if ipmi != null {
        var l := ipmi.SizeVT();
        n := n + 1 + l + SizeOfVarint(l);
      }
      if api != null {
        var l := api.SizeVT();
        n := n + 1 + l + SizeOfVarint(l);
      }
      if manuallyConfigured {
        n := n + 2;
      }
      if manual != null {
        var l := manual.SizeVT();
        n := n + 1 + l + SizeOfVarint(l);
      }
      n := n + |unknownFields|;
    }

    method MarshalIPMI(dAtA: array<byte>, hi: nat) returns (i: nat)
      requires |IPMIPart(Value().f.ipmi)| <= hi <= dAtA.Length
      modifies dAtA
      ensures i + |IPMIPart(Value().f.ipmi)| == hi
      ensures Filled(dAtA[..], old(dAtA[..]), i, IPMIPart(Value().f.ipmi), hi)
    {
      i := hi;
      if ipmi != null {
        ghost var before := dAtA[..];
        var size := ipmi.MarshalToSizedBufferVT(dAtA, i);
        i := WrapMessage(dAtA, i, 1, size, IPMIBytes(ipmi.Value()), before);
      }
    }

    method MergeIPMI(skip: Skipper, payload: seq<byte>) returns (err: Option<Error>)
      requires |payload| < TWO63
      modifies this`ipmi, ipmi
      ensures ipmi == old(ipmi) || fresh(ipmi)
      ensures Outcome(Absorb(BMCDesc(skip), old(Value()), DelimitedField(1, payload)), err, Value())
    {
      hide Decode;
      if ipmi == null {
        ipmi := new IPMISpec();
      }
      err := ipmi.UnmarshalVT(skip, payload);
    }

    method MarshalAPI(dAtA: array<byte>, hi: nat) returns (i: nat)
      requires |APIPart(Value().f.api)| <= hi <= dAtA.Length
      modifies dAtA
      ensures i + |APIPart(Value().f.api)| == hi
      ensures Filled(dAtA[..], old(dAtA[..]), i, APIPart(Value().f.api), hi)
    {
      i := hi;
      if api != null {
        ghost var before := dAtA[..];
        var size := api.MarshalToSizedBufferVT(dAtA, i);
        i := WrapMessage(dAtA, i, 2, size, APIBytes(api.Value()), before);
      }
    }

    method MergeAPI(skip: Skipper, payload: seq<byte>) returns (err: Option<Error>)
      requires |payload| < TWO63
      modifies this`api, api
      ensures api == old(api) || fresh(api)
      ensures Outcome(Absorb(BMCDesc(skip), old(Value()), DelimitedField(2, payload)), err, Value())
    {
      hide Decode;
      if api == null {
        api := new APISpec();
      }
      err := api.UnmarshalVT(skip, payload);
    }

    method MarshalManual(dAtA: array<byte>, hi: nat) returns (i: nat)
      requires |ManualPart(Value().f.manual)| <= hi <= dAtA.Length
      modifies dAtA
      ensures i + |ManualPart(Value().f.manual)| == hi
      ensures Filled(dAtA[..], old(dAtA[..]), i, ManualPart(Value().f.manual), hi)
    {
      i := hi;
      if manual != null {
        ghost var before := dAtA[..];
        var size := manual.MarshalToSizedBufferVT(dAtA, i);
        i := WrapMessage(dAtA, i, 4, size, ManualBytes(manual.Value()), before);
      }
    }

    method MergeManual(skip: Skipper, payload: seq<byte>) returns (err: Option<Error>)
      requires |payload| < TWO63
      modifies this`manual, manual
      ensures manual == old(manual) || fresh(manual)
      ensures Outcome(Absorb(BMCDesc(skip), old(Value()), DelimitedField(4, payload)), err, Value())
    {
      hide Decode;
      if manual == null {
        manual := new ManualSpec();
      }
      err := manual.UnmarshalVT(skip, payload);
    }

    method MarshalToSizedBufferVT(dAtA: array<byte>, hi: nat) returns (n: nat)
      requires |BMCBytes(Value())| <= hi <= dAtA.Length
      modifies dAtA
      ensures n == |BMCBytes(Value())|
      ensures Filled(dAtA[..], old(dAtA[..]), hi - n, BMCBytes(Value()), hi)
    {
      hide Filled, IPMIPart, APIPart, ManualPart, PutScalar;
      ghost var before, v := dAtA[..], Value();
      ghost var e := unknownFields;
      var i := Prepend(dAtA, hi, unknownFields);
      ghost var at, mid := i, dAtA[..];
      i := MarshalManual(dAtA, i);
      FillMore(dAtA[..], mid, before, i, ManualPart(v.f.manual), at, e, hi);
      e, at, mid := ManualPart(v.f.manual) + e, i, dAtA[..];
      i := PrependBool(dAtA, i, 3, manuallyConfigured);
      FillMore(dAtA[..], mid, before, i, PutScalar(3, BoolScalar(v.f.manuallyConfigured)), at, e, hi);
      e, at, mid := PutScalar(3, BoolScalar(v.f.manuallyConfigured)) + e, i, dAtA[..];
      i := MarshalAPI(dAtA, i);
      FillMore(dAtA[..], mid, before, i, APIPart(v.f.api), at, e, hi);
      e, at, mid := APIPart(v.f.api) + e, i, dAtA[..];
      i := MarshalIPMI(dAtA, i);
      FillMore(dAtA[..], mid, before, i, IPMIPart(v.f.ipmi), at, e, hi);
      n := hi - i;
    }

    method MarshalVT() returns (bytes: seq<byte>)
      ensures bytes == BMCBytes(Value())
    {
      var size := SizeVT();
      var dAtA := new byte[size];
      var n := MarshalToSizedBufferVT(dAtA, size);
      assert dAtA[..n] == dAtA[..];
      bytes := dAtA[..n];
    }

    method MarshalToVT(dAtA: array<byte>) returns (n: nat)
      requires |BMCBytes(Value())| <= dAtA.Length
      modifies dAtA
      ensures n == |BMCBytes(Value())|
      ensures Filled(dAtA[..], old(dAtA[..]), 0, BMCBytes(Value()), n)
    {
      var size := SizeVT();
      n := MarshalToSizedBufferVT(dAtA, size);
    }

    method SetManuallyConfigured(skip: Skipper, v: uint64, ghost raw: nat)
      requires v == raw % TWO64
      modifies this`manuallyConfigured
      ensures Absorb(BMCDesc(skip), old(Value()), ScalarField(3, raw)) == Ok(Value())
    {
      manuallyConfigured := v != 0;
    }

    /** A nested IPMI record. */
    method UnmarshalIPMI(skip: Skipper, dAtA: seq<byte>, preIndex: nat, ghost tag: Tag, from: nat, wireType: nat)
      returns (err: Option<Error>, iNdEx: nat)
      requires preIndex < from <= |dAtA| < TWO63 && tag.wireType == wireType && tag.size == from - preIndex
      requires ReadTag(dAtA[preIndex..]) == Ok(tag) && tag.field == 1
      modifies this`ipmi, ipmi
      ensures ipmi == old(ipmi) || fresh(ipmi)
      ensures Turned(BMCDesc(skip), skip, dAtA, preIndex, old(Value()), err, iNdEx, Value())
    {
      hide Decode, Next, BMCApply;
      Turn(skip, BMCDesc(skip), dAtA, preIndex, Value());
      var lo;
      err, lo, iNdEx := ReadBytesField(skip, BMCKind, tag, dAtA, preIndex, from, wireType);
      if err.Some? { return; }
      err := MergeIPMI(skip, dAtA[lo..iNdEx]);
    }

    /** A nested API record. */
    method UnmarshalAPI(skip: Skipper, dAtA: seq<byte>, preIndex: nat, ghost tag: Tag, from: nat, wireType: nat)
      returns (err: Option<Error>, iNdEx: nat)
      requires preIndex < from <= |dAtA| < TWO63 && tag.wireType == wireType && tag.size == from - preIndex
      requires ReadTag(dAtA[preIndex..]) == Ok(tag) && tag.field == 2
      modifies this`api, api
      ensures api == old(api) || fresh(api)
      ensures Turned(BMCDesc(skip), skip, dAtA, preIndex, old(Value()), err, iNdEx, Value())
    {
      hide Decode, Next, BMCApply;
      Turn(skip, BMCDesc(skip), dAtA, preIndex, Value());
      var lo;
      err, lo, iNdEx := ReadBytesField(skip, BMCKind, tag, dAtA, preIndex, from, wireType);
      if err.Some? { return; }
      err := MergeAPI(skip, dAtA[lo..iNdEx]);
    }

    /** The flag. */
    method UnmarshalFlag(skip: Skipper, dAtA: seq<byte>, preIndex: nat, ghost tag: Tag, from: nat, wireType: nat)
      returns (err: Option<Error>, iNdEx: nat)
      requires preIndex < from <= |dAtA| < TWO63 && tag.wireType == wireType && tag.size == from - preIndex
      requires ReadTag(dAtA[preIndex..]) == Ok(tag) && tag.field == 3
      modifies this`manuallyConfigured
      ensures Turned(BMCDesc(skip), skip, dAtA, preIndex, old(Value()), err, iNdEx, Value())
    {
      hide Decode, Next, BMCApply;
      Turn(skip, BMCDesc(skip), dAtA, preIndex, Value());
      var v;
      err, v, iNdEx := ReadScalarField(skip, BMCKind, tag, dAtA, preIndex, from, wireType, TWO64);
      if err.Some? { return; }
      SetManuallyConfigured(skip, v, Next(skip, BMCKind, dAtA[preIndex..]).value.record.raw);
    }

    /** A nested manual record. */
    method UnmarshalManual(skip: Skipper, dAtA: seq<byte>, preIndex: nat, ghost tag: Tag, from: nat, wireType: nat)
      returns (err: Option<Error>, iNdEx: nat)
      requires preIndex < from <= |dAtA| < TWO63 && tag.wireType == wireType && tag.size == from - preIndex
      requires ReadTag(dAtA[preIndex..]) == Ok(tag) && tag.field == 4
      modifies this`manual, manual
      ensures manual == old(manual) || fresh(manual)
      ensures Turned(BMCDesc(skip), skip, dAtA, preIndex, old(Value()), err, iNdEx, Value())
    {
      hide Decode, Next, BMCApply;
      Turn(skip, BMCDesc(skip), dAtA, preIndex, Value());
      var lo;
      err, lo, iNdEx := ReadBytesField(skip, BMCKind, tag, dAtA, preIndex, from, wireType);
      if err.Some? { return; }
      err := MergeManual(skip, dAtA[lo..iNdEx]);
    }

    /** A record under an unknown number. */
    method UnmarshalUnknown(skip: Skipper, dAtA: seq<byte>, preIndex: nat, ghost tag: Tag)
      returns (err: Option<Error>, iNdEx: nat)
      requires preIndex < |dAtA| < TWO63 && ReadTag(dAtA[preIndex..]) == Ok(tag) && BMCKind(tag.field) == Unknown
      modifies this`unknownFields
      ensures Turned(BMCDesc(skip), skip, dAtA, preIndex, old(Value()), err, iNdEx, Value())
    {
      hide Decode, Next, BMCApply;
      Turn(skip, BMCDesc(skip), dAtA, preIndex, Value());
      err, iNdEx := SkipRecord(skip, BMCKind, tag, dAtA, preIndex);
      if err.Some? { return; }
      unknownFields := unknownFields + dAtA[preIndex..iNdEx];
    }

    /** One turn of the decoding loop. */
    method UnmarshalRecord(skip: Skipper, dAtA: seq<byte>, preIndex: nat) returns (err: Option<Error>, iNdEx: nat)
      requires preIndex < |dAtA| < TWO63
      modifies this, ipmi, api, manual
      ensures ipmi == old(ipmi) || fresh(ipmi)
      ensures api == old(api) || fresh(api)
      ensures manual == old(manual) || fresh(manual)
      ensures Turned(BMCDesc(skip), skip, dAtA, preIndex, old(Value()), err, iNdEx, Value())
    {
      hide Decode, Next, BMCApply;
      Turn(skip, BMCDesc(skip), dAtA, preIndex, Value());
      var fieldNum, wireType;
      err, fieldNum, wireType, iNdEx := ReadHeader(dAtA, preIndex);
      if err.Some? { return; }
      ghost var tag := Tag(fieldNum, wireType, iNdEx - preIndex);
      hide Turned;
      if fieldNum == 1 {
        err, iNdEx := UnmarshalIPMI(skip, dAtA, preIndex, tag, iNdEx, wireType);
      } else if fieldNum == 2 {
        err, iNdEx := UnmarshalAPI(skip, dAtA, preIndex, tag, iNdEx, wireType);
      } else if fieldNum == 3 {
        err, iNdEx := UnmarshalFlag(skip, dAtA, preIndex, tag, iNdEx, wireType);
      } else if fieldNum == 4 {
        err, iNdEx := UnmarshalManual(skip, dAtA, preIndex, tag, iNdEx, wireType);
      } else {
        err, iNdEx := UnmarshalUnknown(skip, dAtA, preIndex, tag);
      }
    }

    method UnmarshalVT(skip: Skipper, dAtA: seq<byte>) returns (err: Option<Error>)
      requires |dAtA| < TWO63
      modifies this, ipmi, api, manual
      ensures Outcome(Decode(skip, BMCDesc(skip), dAtA, old(Value())), err, Value())
      ensures ipmi == old(ipmi) || fresh(ipmi)
      ensures api == old(api) || fresh(api)
      ensures manual == old(manual) || fresh(manual)
    {
      hide Decode, Next;
      var iNdEx, l := 0, |dAtA|;
      err := None;
      assert dAtA[0..] == dAtA;
      while iNdEx < l
        invariant err == None && 0 <= iNdEx <= l
        invariant ipmi == old(ipmi) || fresh(ipmi)
        invariant api == old(api) || fresh(api)
        invariant manual == old(manual) || fresh(manual)
        invariant Decode(skip, BMCDesc(skip), dAtA[iNdEx..], Value()) ==
                  Decode(skip, BMCDesc(skip), dAtA, old(Value()))
      {
        err, iNdEx := UnmarshalRecord(skip, dAtA, iNdEx);
        if err.Some? { return; }
      }
      DecodeEnd(skip, BMCDesc(skip), dAtA, Value());
    }
  }
}
