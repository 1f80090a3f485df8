/** The two persisted specs that hold a timestamp, as protobuf messages: their values, records, bytes and
    laws, around a timestamp codec that is a library's and so a parameter. */
module TimedSpecs {
  import opened Wire
  import opened Specs

  /** A timestamp codec: how a timestamp is written, and how bytes are merged into one. */
  datatype TimeCodec<!T> = TimeCodec(encode: T -> seq<byte>, decode: (seq<byte>, T) -> Result<T>, zero: T)

  /** The timestamp comes back from its own bytes. */
  predicate Survives<T(==)>(tc: TimeCodec<T>, t: T) { tc.decode(tc.encode(t), tc.zero) == Ok(t) }

  /** Whatever a decoder can leave in a timestamp does. */
  ghost predicate Lawful<T(!new)>(tc: TimeCodec<T>, valid: T -> bool) {
    && valid(tc.zero)
    && (forall p, t :: valid(t) && tc.decode(p, t).Ok? ==> valid(tc.decode(p, t).value))
    && (forall t :: valid(t) ==> Survives(tc, t))
  }

  datatype RebootStatusFields<T> = RebootStatusFields(lastRebootId: Text, lastRebootTimestamp: Option<T>)

  datatype PowerOperationFields<T> = PowerOperationFields(
    lastPowerOperation: int32, lastPowerOnTimestamp: Option<T>, lastPowerOffId: Text, wipeIdAtPowerOff: Text)

  function NoRebootStatus<T>(): Msg<RebootStatusFields<T>> { Msg(RebootStatusFields([], None), []) }

  function NoPowerOperation<T>(): Msg<PowerOperationFields<T>> { Msg(PowerOperationFields(0, None, [], []), []) }

  // ------------------------------------------------------------------------- records and bytes

  /** A timestamp merges into the one already held, an absent one starting at zero. */
  function MergeTime<T>(tc: TimeCodec<T>, held: Option<T>, p: seq<byte>): Result<T> {
    tc.decode(p, OrElse(held, tc.zero))
  }

  function RebootStatusKind(field: int): Kind { if 1 <= field <= 2 then Delimited else Unknown }

  function RebootStatusApply<T>(tc: TimeCodec<T>, f: RebootStatusFields<T>, r: Record): Result<RebootStatusFields<T>> {
    match r
    case DelimitedField(1, p) => Ok(f.(lastRebootId := p))
    case DelimitedField(2, p) =>
      (match MergeTime(tc, f.lastRebootTimestamp, p)
       case Err(e) => Err(e)
       case Ok(t) => Ok(f.(lastRebootTimestamp := Some(t))))
    case _ => Ok(f)
  }

  function RebootStatusDesc<T>(tc: TimeCodec<T>): Descriptor<RebootStatusFields<T>> {
    Descriptor(RebootStatusKind, (f, r) => RebootStatusApply(tc, f, r))
  }

  function PowerOperationKind(field: int): Kind {
    if field == 1 then Scalar else if 2 <= field <= 4 then Delimited else Unknown
  }

  function PowerOperationApply<T>(tc: TimeCodec<T>, f: PowerOperationFields<T>,
                                  r: Record): Result<PowerOperationFields<T>> {
    match r
    case ScalarField(1, raw) => Ok(f.(lastPowerOperation := Int32(raw)))
    case DelimitedField(2, p) =>
      (match MergeTime(tc, f.lastPowerOnTimestamp, p)
       case Err(e) => Err(e)
       case Ok(t) => Ok(f.(lastPowerOnTimestamp := Some(t))))
    case DelimitedField(3, p) => Ok(f.(lastPowerOffId := p))
    case DelimitedField(4, p) => Ok(f.(wipeIdAtPowerOff := p))
    case _ => Ok(f)
  }

  function PowerOperationDesc<T>(tc: TimeCodec<T>): Descriptor<PowerOperationFields<T>> {
    Descriptor(PowerOperationKind, (f, r) => PowerOperationApply(tc, f, r))
  }

  function TimePart<T>(tc: TimeCodec<T>, o: Option<T>): seq<byte> {
    if o.None? then [] else PutMessage(2, tc.encode(o.value))
  }

  function RebootStatusBytes<T>(tc: TimeCodec<T>, m: Msg<RebootStatusFields<T>>): seq<byte> {
    PutString(1, m.f.lastRebootId) + (TimePart(tc, m.f.lastRebootTimestamp) + m.unknown)
  }

  function PowerOperationBytes<T>(tc: TimeCodec<T>, m: Msg<PowerOperationFields<T>>): seq<byte> {
    PutScalar(1, SignExtend(m.f.lastPowerOperation)) +
    (TimePart(tc, m.f.lastPowerOnTimestamp) +
     (PutString(3, m.f.lastPowerOffId) + (PutString(4, m.f.wipeIdAtPowerOff) + m.unknown)))
  }

  // ------------------------------------------------------------------------- written and read back

  predicate TimeFits<T>(tc: TimeCodec<T>, o: Option<T>) { o.Some? ==> |tc.encode(o.value)| < TWO63 }

  /** What becomes of a written timestamp. */
  function TimeBack<T>(tc: TimeCodec<T>, o: Option<T>): Result<Option<T>> {
    if o.None? then Ok(None)
    else
      match tc.decode(tc.encode(o.value), tc.zero)
      case Err(e) => Err(e)
      case Ok(t) => Ok(Some(t))
  }

  /** Written and read, a reboot status comes back with its timestamp as the timestamp's own codec gives it back. */
  lemma {:induction false} RebootStatusEncodes<T>(skip: Skipper, tc: TimeCodec<T>, m: Msg<RebootStatusFields<T>>)
    requires OnlyUnknown(skip, RebootStatusKind, m.unknown)
    requires |m.f.lastRebootId| < TWO63 && TimeFits(tc, m.f.lastRebootTimestamp)
    ensures var r := Decode(skip, RebootStatusDesc(tc), RebootStatusBytes(tc, m), NoRebootStatus());
            var back := TimeBack(tc, m.f.lastRebootTimestamp);
            if back.Ok? then r == Ok(m.(f := m.f.(lastRebootTimestamp := back.value))) else r.Err?
  {
    var d, f, o := RebootStatusDesc(tc), m.f, m.f.lastRebootTimestamp;
    var m0: Msg<RebootStatusFields<T>> := NoRebootStatus();
    var m1 := m0.(f := m0.f.(lastRebootId := f.lastRebootId));
    var t2 := TimePart(tc, o) + m.unknown;
    assert Decode(skip, d, RebootStatusBytes(tc, m), m0) == Decode(skip, d, t2, m1) by {
      DecodeString(skip, d, 1, f.lastRebootId, t2, m0);
    }
    if o.None? {
      assert t2 == m.unknown;
      DecodeOnlyUnknown(skip, d, m.unknown, m1);
    } else {
      DecodeMessage(skip, d, 2, tc.encode(o.value), m.unknown, m1);
      if TimeBack(tc, o).Ok? {
        DecodeOnlyUnknown(skip, d, m.unknown, m1.(f := m1.f.(lastRebootTimestamp := TimeBack(tc, o).value)));
      }
    }
  }

  /** The same for a power operation, from its timestamp on. */
  lemma {:induction false} PowerOperationRest<T>(skip: Skipper, tc: TimeCodec<T>, m: Msg<PowerOperationFields<T>>,
                                                 held: Msg<PowerOperationFields<T>>)
    requires OnlyUnknown(skip, PowerOperationKind, m.unknown)
    requires |m.f.lastPowerOffId| < TWO63 && |m.f.wipeIdAtPowerOff| < TWO63
    requires held == Msg(PowerOperationFields(m.f.lastPowerOperation, held.f.lastPowerOnTimestamp, [], []), [])
    ensures Decode(skip, PowerOperationDesc(tc),
                   PutString(3, m.f.lastPowerOffId) + (PutString(4, m.f.wipeIdAtPowerOff) + m.unknown), held)
            == Ok(m.(f := m.f.(lastPowerOnTimestamp := held.f.lastPowerOnTimestamp)))
  {
    var d, t4 := PowerOperationDesc(tc), PutString(4, m.f.wipeIdAtPowerOff) + m.unknown;
    var m3 := held.(f := held.f.(lastPowerOffId := m.f.lastPowerOffId));
    var m4 := m3.(f := m3.f.(wipeIdAtPowerOff := m.f.wipeIdAtPowerOff));
    DecodeString(skip, d, 3, m.f.lastPowerOffId, t4, held);
    assert Decode(skip, d, PutString(3, m.f.lastPowerOffId) + t4, held) == Decode(skip, d, t4, m3);
    DecodeString(skip, d, 4, m.f.wipeIdAtPowerOff, m.unknown, m3);
    assert Decode(skip, d, t4, m3) == Decode(skip, d, m.unknown, m4);
    DecodeOnlyUnknown(skip, d, m.unknown, m4);
  }

  lemma {:induction false} PowerOperationEncodes<T>(skip: Skipper, tc: TimeCodec<T>, m: Msg<PowerOperationFields<T>>)
    requires OnlyUnknown(skip, PowerOperationKind, m.unknown)
    requires |m.f.lastPowerOffId| < TWO63 && |m.f.wipeIdAtPowerOff| < TWO63 && TimeFits(tc, m.f.lastPowerOnTimestamp)
    ensures var r := Decode(skip, PowerOperationDesc(tc), PowerOperationBytes(tc, m), NoPowerOperation());
            var back := TimeBack(tc, m.f.lastPowerOnTimestamp);
            if back.Ok? then r == Ok(m.(f := m.f.(lastPowerOnTimestamp := back.value))) else r.Err?
  {
    var d, f, o := PowerOperationDesc(tc), m.f, m.f.lastPowerOnTimestamp;
    var m0: Msg<PowerOperationFields<T>> := NoPowerOperation();
    var m1 := m0.(f := m0.f.(lastPowerOperation := f.lastPowerOperation));
    var t3 := PutString(3, f.lastPowerOffId) + (PutString(4, f.wipeIdAtPowerOff) + m.unknown);
    var t2 := TimePart(tc, o) + t3;
    assert Decode(skip, d, PowerOperationBytes(tc, m), m0) == Decode(skip, d, t2, m1) by {
      WidthsReadBack(0, 0, f.lastPowerOperation, false);
      assert Absorb(d, m0, ScalarField(1, SignExtend(f.lastPowerOperation))) == Ok(m1);
      DecodeScalar(skip, d, 1, SignExtend(f.lastPowerOperation), t2, m0);
    }
    if o.None? {
      assert t2 == t3;
      PowerOperationRest(skip, tc, m, m1);
    } else {
      DecodeMessage(skip, d, 2, tc.encode(o.value), t3, m1);
      if TimeBack(tc, o).Ok? {
        PowerOperationRest(skip, tc, m, m1.(f := m1.f.(lastPowerOnTimestamp := TimeBack(tc, o).value)));
      }
    }
  }

  // ------------------------------------------------------------------------- the laws

  predicate TimeSurvives<T(==)>(tc: TimeCodec<T>, o: Option<T>) { o.Some? ==> Survives(tc, o.value) }

  /** A reboot status survives a write and a read exactly when its timestamp does and its unknown fields are
      whole records under numbers it does not know. */
  lemma {:induction false} RebootStatusRoundTrip<T>(skip: Skipper, tc: TimeCodec<T>, m: Msg<RebootStatusFields<T>>)
    requires |m.f.lastRebootId| < TWO63 && TimeFits(tc, m.f.lastRebootTimestamp)
    ensures Decode(skip, RebootStatusDesc(tc), RebootStatusBytes(tc, m), NoRebootStatus()) == Ok(m) <==>
            OnlyUnknown(skip, RebootStatusKind, m.unknown) && TimeSurvives(tc, m.f.lastRebootTimestamp)
  {
    hide Decode, OnlyUnknown, RebootStatusBytes;
    if Decode(skip, RebootStatusDesc(tc), RebootStatusBytes(tc, m), NoRebootStatus()) == Ok(m) {
      DecodeKeepsUnknown(skip, RebootStatusDesc(tc), RebootStatusBytes(tc, m), NoRebootStatus());
    }
    if OnlyUnknown(skip, RebootStatusKind, m.unknown) {
      RebootStatusEncodes(skip, tc, m);
    }
  }

  /** The same for a power operation. */
  lemma {:induction false} PowerOperationRoundTrip<T>(skip: Skipper, tc: TimeCodec<T>, m: Msg<PowerOperationFields<T>>)
    requires |m.f.lastPowerOffId| < TWO63 && |m.f.wipeIdAtPowerOff| < TWO63 && TimeFits(tc, m.f.lastPowerOnTimestamp)
    ensures Decode(skip, PowerOperationDesc(tc), PowerOperationBytes(tc, m), NoPowerOperation()) == Ok(m) <==>
            OnlyUnknown(skip, PowerOperationKind, m.unknown) && TimeSurvives(tc, m.f.lastPowerOnTimestamp)
  {
    hide Decode, OnlyUnknown, PowerOperationBytes;
    if Decode(skip, PowerOperationDesc(tc), PowerOperationBytes(tc, m), NoPowerOperation()) == Ok(m) {
      DecodeKeepsUnknown(skip, PowerOperationDesc(tc), PowerOperationBytes(tc, m), NoPowerOperation());
    }
    if OnlyUnknown(skip, PowerOperationKind, m.unknown) {
      PowerOperationEncodes(skip, tc, m);
    }
  }

  function RebootTexts<T>(f: RebootStatusFields<T>): nat { |PutString(1, f.lastRebootId)| }

  function PowerTexts<T>(f: PowerOperationFields<T>): nat {
    |PutString(3, f.lastPowerOffId)| + |PutString(4, f.wipeIdAtPowerOff)|
  }

  lemma {:induction false} TextsAreFrugal<T(!new)>(tc: TimeCodec<T>)
    ensures Frugal(RebootStatusDesc(tc), RebootTexts) && Frugal(PowerOperationDesc(tc), PowerTexts)
  {
  }

  ghost predicate TimeValid<T>(valid: T -> bool, o: Option<T>) { o.Some? ==> valid(o.value) }

  /** Decoding leaves only timestamps that survive. */
  lemma {:induction false} RebootStatusKeepsTime<T(!new)>(skip: Skipper, tc: TimeCodec<T>, valid: T -> bool,
                                                          s: seq<byte>,
                                                          m: Msg<RebootStatusFields<T>>)
    requires Lawful(tc, valid) && TimeValid(valid, m.f.lastRebootTimestamp) &&
             Decode(skip, RebootStatusDesc(tc), s, m).Ok?
    ensures TimeValid(valid, Decode(skip, RebootStatusDesc(tc), s, m).value.f.lastRebootTimestamp)
    decreases |s|
  {
    if s != [] {
      var d := RebootStatusDesc(tc);
      var p := Next(skip, d.kind, s).value;
      RebootStatusKeepsTime(skip, tc, valid, s[p.size..], Absorb(d, m, p.record).value);
    }
  }

  lemma {:induction false} PowerOperationKeepsTime<T(!new)>(skip: Skipper, tc: TimeCodec<T>, valid: T -> bool,
                                                            s: seq<byte>,
                                                            m: Msg<PowerOperationFields<T>>)
    requires Lawful(tc, valid) && TimeValid(valid, m.f.lastPowerOnTimestamp) &&
             Decode(skip, PowerOperationDesc(tc), s, m).Ok?
    ensures TimeValid(valid, Decode(skip, PowerOperationDesc(tc), s, m).value.f.lastPowerOnTimestamp)
    decreases |s|
  {
    if s != [] {
      var d := PowerOperationDesc(tc);
      var p := Next(skip, d.kind, s).value;
      PowerOperationKeepsTime(skip, tc, valid, s[p.size..], Absorb(d, m, p.record).value);
    }
  }

  /** Whatever bytes decode to a reboot status, canonical or not, decode to the same one once written back, if the
      timestamp codec keeps its part of that. */
  lemma {:induction false} RebootStatusStable<T(!new)>(skip: Skipper, tc: TimeCodec<T>, valid: T -> bool, s: seq<byte>,
                                                       m: Msg<RebootStatusFields<T>>)
    requires Lawful(tc, valid) && |s| < TWO63
    requires Decode(skip, RebootStatusDesc(tc), s, NoRebootStatus()) == Ok(m) && TimeFits(tc, m.f.lastRebootTimestamp)
    ensures Decode(skip, RebootStatusDesc(tc), RebootStatusBytes(tc, m), NoRebootStatus()) == Ok(m)
  {
    hide Decode, OnlyUnknown, RebootStatusBytes, Frugal;
    TextsAreFrugal(tc);
    DecodeKeepsUnknown(skip, RebootStatusDesc(tc), s, NoRebootStatus());
    RebootStatusKeepsTime(skip, tc, valid, s, NoRebootStatus());
    DecodeIsFrugal(skip, RebootStatusDesc(tc), RebootTexts, s, NoRebootStatus());
    RebootStatusEncodes(skip, tc, m);
  }

  lemma {:induction false} PowerOperationStable<T(!new)>(skip: Skipper, tc: TimeCodec<T>, valid: T -> bool,
                                                         s: seq<byte>,
                                                         m: Msg<PowerOperationFields<T>>)
    requires Lawful(tc, valid) && |s| < TWO63
    requires Decode(skip, PowerOperationDesc(tc), s, NoPowerOperation()) == Ok(m) &&
             TimeFits(tc, m.f.lastPowerOnTimestamp)
    ensures Decode(skip, PowerOperationDesc(tc), PowerOperationBytes(tc, m), NoPowerOperation()) == Ok(m)
  {
    hide Decode, OnlyUnknown, PowerOperationBytes, Frugal;
    TextsAreFrugal(tc);
    DecodeKeepsUnknown(skip, PowerOperationDesc(tc), s, NoPowerOperation());
    PowerOperationKeepsTime(skip, tc, valid, s, NoPowerOperation());
    DecodeIsFrugal(skip, PowerOperationDesc(tc), PowerTexts, s, NoPowerOperation());
    PowerOperationEncodes(skip, tc, m);
  }

  // ------------------------------------------------------------------------- a timestamp codec

  type int64 = x: int | -TWO63 <= x < TWO63

  /** The timestamp message of the Protocol Buffers well-known types: seconds and nanoseconds, as varints. */
  datatype TimestampFields = TimestampFields(seconds: int64, nanos: int32)

  function TimestampKind(field: int): Kind { if 1 <= field <= 2 then Scalar else Unknown }

  function TimestampApply(f: TimestampFields, r: Record): Result<TimestampFields> {
    match r
    case ScalarField(1, raw) => Ok(f.(seconds := Int64(raw)))
    case ScalarField(2, raw) => Ok(f.(nanos := Int32(raw)))
    case _ => Ok(f)
  }

  function TimestampDesc(): Descriptor<TimestampFields> { Descriptor(TimestampKind, TimestampApply) }

  function Unsigned(n: int64): uint64 { if n < 0 then n + TWO64 else n }

  function TimestampBytes(m: Msg<TimestampFields>): seq<byte> {
    PutScalar(1, Unsigned(m.f.seconds)) + (PutScalar(2, SignExtend(m.f.nanos)) + m.unknown)
  }

  function NoTimestamp(): Msg<TimestampFields> { Msg(TimestampFields(0, 0), []) }

  function Timestamps(skip: Skipper): TimeCodec<Timestamp> {
    TimeCodec(TimestampBytes, (p, t) => Decode(skip, TimestampDesc(), p, t), NoTimestamp())
  }

  lemma {:induction false} SecondsReadBack(n: int64)
    ensures Int64(Unsigned(n)) == n
  {
  }

  lemma {:induction false} TimestampSurvives(skip: Skipper, m: Msg<TimestampFields>)
    requires OnlyUnknown(skip, TimestampKind, m.unknown)
    ensures Survives(Timestamps(skip), m)
  {
    var d, m0, rest := TimestampDesc(), NoTimestamp(), PutScalar(2, SignExtend(m.f.nanos)) + m.unknown;
    var m1 := m0.(f := TimestampFields(m.f.seconds, 0));
    var m2 := m0.(f := m.f);
    assert Decode(skip, d, TimestampBytes(m), m0) == Decode(skip, d, rest, m1) by {
      SecondsReadBack(m.f.seconds);
      assert Absorb(d, m0, ScalarField(1, Unsigned(m.f.seconds))) == Ok(m1);
      DecodeScalar(skip, d, 1, Unsigned(m.f.seconds), rest, m0);
    }
    assert Decode(skip, d, rest, m1) == Decode(skip, d, m.unknown, m2) by {
      WidthsReadBack(0, 0, m.f.nanos, false);
      assert Absorb(d, m1, ScalarField(2, SignExtend(m.f.nanos))) == Ok(m2);
      DecodeScalar(skip, d, 2, SignExtend(m.f.nanos), m.unknown, m1);
    }
    DecodeOnlyUnknown(skip, d, m.unknown, m2);
  }

  /** A timestamp codec with the laws asked for exists: the standard's. */
  lemma {:induction false} StandardTimestampsAreLawful(skip: Skipper)
    ensures Lawful(Timestamps(skip), (t: Msg<TimestampFields>) => OnlyUnknown(skip, TimestampKind, t.unknown))
  {
    forall t: Msg<TimestampFields> | OnlyUnknown(skip, TimestampKind, t.unknown)
      ensures Survives(Timestamps(skip), t)
    {
      TimestampSurvives(skip, t);
    }
    forall p: seq<byte>, t: Msg<TimestampFields> | OnlyUnknown(skip, TimestampKind, t.unknown) &&
      Decode(skip, TimestampDesc(), p, t).Ok?
      ensures OnlyUnknown(skip, TimestampKind, Decode(skip, TimestampDesc(), p, t).value.unknown)
    {
      DecodeKeepsUnknown(skip, TimestampDesc(), p, t);
    }
  }

  // ------------------------------------------------------------------------- with the standard's timestamps

  type Timestamp = Msg<TimestampFields>

  function UnknownIn(o: Option<Timestamp>): nat { if o.None? then 0 else |o.value.unknown| }

  function RebootSize(f: RebootStatusFields<Timestamp>): nat { RebootTexts(f) + UnknownIn(f.lastRebootTimestamp) }

  function PowerSize(f: PowerOperationFields<Timestamp>): nat { PowerTexts(f) + UnknownIn(f.lastPowerOnTimestamp) }

  /** Merging bytes into a timestamp adds no more unknown bytes than there are. */
  lemma {:induction false} MergeIsFrugal(skip: Skipper, held: Option<Timestamp>, p: seq<byte>)
    requires MergeTime(Timestamps(skip), held, p).Ok?
    ensures |MergeTime(Timestamps(skip), held, p).value.unknown| <= UnknownIn(held) + |p|
  {
    hide Decode;
    DecodeIsFrugal(skip, TimestampDesc(), (f: TimestampFields) => 0, p, OrElse(held, NoTimestamp()));
  }

  lemma {:induction false} TimesAreFrugal(skip: Skipper)
    ensures Frugal(RebootStatusDesc(Timestamps(skip)), RebootSize)
    ensures Frugal(PowerOperationDesc(Timestamps(skip)), PowerSize)
  {
    hide MergeTime, Decode;
    var tc := Timestamps(skip);
    forall held: Option<Timestamp>, p: seq<byte> | MergeTime(tc, held, p).Ok?
      ensures |MergeTime(tc, held, p).value.unknown| <= UnknownIn(held) + |p|
    {
      MergeIsFrugal(skip, held, p);
    }
  }

  /** Seconds and nanoseconds take eleven bytes each at most. */
  const TIMES_SIZE := 22

  lemma {:induction false} TimestampSize(t: Timestamp)
    ensures |TimestampBytes(t)| <= TIMES_SIZE + |t.unknown|
  {
    Uint64Fits(Unsigned(t.f.seconds));
    Uint64Fits(SignExtend(t.f.nanos));
  }

  /** So with the standard's timestamps, whatever bytes decode to a reboot status decode to the same one once
      written back. */
  lemma {:induction false} RebootStatusStableInTime(skip: Skipper, s: seq<byte>, m: Msg<RebootStatusFields<Timestamp>>)
    requires |s| + TIMES_SIZE < TWO63
    requires Decode(skip, RebootStatusDesc(Timestamps(skip)), s, NoRebootStatus()) == Ok(m)
    ensures var tc := Timestamps(skip);
            Decode(skip, RebootStatusDesc(tc), RebootStatusBytes(tc, m), NoRebootStatus()) == Ok(m)
  {
    hide Decode, RebootStatusBytes, Frugal, Lawful, TimestampBytes;
    var tc := Timestamps(skip);
    TimesAreFrugal(skip);
    DecodeIsFrugal(skip, RebootStatusDesc(tc), RebootSize, s, NoRebootStatus());
    if m.f.lastRebootTimestamp.Some? {
      TimestampSize(m.f.lastRebootTimestamp.value);
    }
    StandardTimestampsAreLawful(skip);
    RebootStatusStable(skip, tc, (t: Timestamp) => OnlyUnknown(skip, TimestampKind, t.unknown), s, m);
  }

  /** And a power operation likewise. */
  lemma {:induction false} PowerOperationStableInTime(skip: Skipper, s: seq<byte>,
                                                      m: Msg<PowerOperationFields<Timestamp>>)
    requires |s| + TIMES_SIZE < TWO63
    requires Decode(skip, PowerOperationDesc(Timestamps(skip)), s, NoPowerOperation()) == Ok(m)
    ensures var tc := Timestamps(skip);
            Decode(skip, PowerOperationDesc(tc), PowerOperationBytes(tc, m), NoPowerOperation()) == Ok(m)
  {
    hide Decode, PowerOperationBytes, Frugal, Lawful, TimestampBytes;
    var tc := Timestamps(skip);
    TimesAreFrugal(skip);
    DecodeIsFrugal(skip, PowerOperationDesc(tc), PowerSize, s, NoPowerOperation());
    if m.f.lastPowerOnTimestamp.Some? {
      TimestampSize(m.f.lastPowerOnTimestamp.value);
    }
    StandardTimestampsAreLawful(skip);
    PowerOperationStable(skip, tc, (t: Timestamp) => OnlyUnknown(skip, TimestampKind, t.unknown), s, m);
  }
}
