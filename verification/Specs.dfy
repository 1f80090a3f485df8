/** The provider's persisted specs as protobuf messages: their values, what each does with the
    records it reads, and the bytes each is written as.

    For every message the same three laws are proved: what is decoded is valid, a message survives
    encoding and decoding exactly when it is valid, and so whatever decodes at all decodes the same
    after being re-encoded. */
module Specs {
  import opened Wire

  type Text = seq<byte>

  datatype IPMIFields = IPMIFields(address: Text, port: uint32, username: Text, password: Text)
  datatype APIFields = APIFields(address: Text)
  datatype ManualFields = ManualFields
  datatype BMCConfigurationFields = BMCConfigurationFields(
    ipmi: Option<IPMI>, api: Option<API>, manuallyConfigured: bool, manual: Option<Manual>)
  datatype MachineStatusFields = MachineStatusFields(agentAccessible: bool, powerState: int32, initialized: bool)
  datatype WipeStatusFields = WipeStatusFields(
    lastWipeId: Text, lastWipeInstallEventId: uint64, initialWipeDone: bool, wipedNodeUniqueToken: Text)
  datatype TLSConfigFields = TLSConfigFields(caCert: Text, caKey: Text)

  type IPMI = Msg<IPMIFields>
  type API = Msg<APIFields>
  type Manual = Msg<ManualFields>
  type BMCConfiguration = Msg<BMCConfigurationFields>
  type MachineStatus = Msg<MachineStatusFields>
  type WipeStatus = Msg<WipeStatusFields>
  type TLSConfig = Msg<TLSConfigFields>

  const NO_IPMI: IPMI := Msg(IPMIFields([], 0, [], []), [])
  const NO_API: API := Msg(APIFields([]), [])
  const NO_MANUAL: Manual := Msg(ManualFields, [])
  const NO_BMC: BMCConfiguration := Msg(BMCConfigurationFields(None, None, false, None), [])
  const NO_MACHINE_STATUS: MachineStatus := Msg(MachineStatusFields(false, 0, false), [])
  const NO_WIPE_STATUS: WipeStatus := Msg(WipeStatusFields([], 0, false, []), [])
  const NO_TLS_CONFIG: TLSConfig := Msg(TLSConfigFields([], []), [])

  /** A Go bool field: any non-zero 64-bit value reads as true. */
  function ReadBool(raw: nat): bool { raw % TWO64 != 0 }

  function BoolScalar(b: bool): uint64 { if b then 1 else 0 }

  /** An open int32 enum is written sign-extended to 64 bits and read back from the low 32. */
  function SignExtend(n: int32): uint64 { if n < 0 then n + TWO64 else n }

  // ------------------------------------------------------------------------- what each message reads

  function IPMIKind(field: int): Kind {
    if field == 2 then Scalar else if 1 <= field <= 4 then Delimited else Unknown
  }

  function IPMIApply(f: IPMIFields, r: Record): Result<IPMIFields> {
    match r
    case ScalarField(2, raw) => Ok(f.(port := raw % TWO32))
    case DelimitedField(1, p) => Ok(f.(address := p))
    case DelimitedField(3, p) => Ok(f.(username := p))
    case DelimitedField(4, p) => Ok(f.(password := p))
    case _ => Ok(f)
  }

  function IPMIDesc(): Descriptor<IPMIFields> { Descriptor(IPMIKind, IPMIApply) }

  function APIKind(field: int): Kind { if field == 1 then Delimited else Unknown }

  function APIApply(f: APIFields, r: Record): Result<APIFields> {
    match r
    case DelimitedField(1, p) => Ok(f.(address := p))
    case _ => Ok(f)
  }

  function APIDesc(): Descriptor<APIFields> { Descriptor(APIKind, APIApply) }

  function ManualKind(field: int): Kind { Unknown }

  function ManualDesc(): Descriptor<ManualFields> { Descriptor(ManualKind, (f, _) => Ok(f)) }

  function BMCKind(field: int): Kind {
    if field == 3 then Scalar else if 1 <= field <= 4 then Delimited else Unknown
  }

  function OrElse<T>(o: Option<T>, default: T): T { if o.Some? then o.value else default }

  /** A nested message merges into the one already held, an absent one starting empty. */
  function BMCApply(skip: Skipper, f: BMCConfigurationFields, r: Record): Result<BMCConfigurationFields> {
    match r
    case ScalarField(3, raw) => Ok(f.(manuallyConfigured := ReadBool(raw)))
    case DelimitedField(1, p) =>
      (match Decode(skip, IPMIDesc(), p, OrElse(f.ipmi, NO_IPMI))
       case Err(e) => Err(e)
       case Ok(m) => Ok(f.(ipmi := Some(m))))
    case DelimitedField(2, p) =>
      (match Decode(skip, APIDesc(), p, OrElse(f.api, NO_API))
       case Err(e) => Err(e)
       case Ok(m) => Ok(f.(api := Some(m))))
    case DelimitedField(4, p) =>
      (match Decode(skip, ManualDesc(), p, OrElse(f.manual, NO_MANUAL))
       case Err(e) => Err(e)
       case Ok(m) => Ok(f.(manual := Some(m))))
    case _ => Ok(f)
  }

  function BMCDesc(skip: Skipper): Descriptor<BMCConfigurationFields> {
    Descriptor(BMCKind, (f, r) => BMCApply(skip, f, r))
  }

  function MachineStatusKind(field: int): Kind {
    if field == 1 || field == 2 || field == 4 then Scalar else Unknown
  }

  function MachineStatusApply(f: MachineStatusFields, r: Record): Result<MachineStatusFields> {
    match r
    case ScalarField(1, raw) => Ok(f.(agentAccessible := ReadBool(raw)))
    case ScalarField(2, raw) => Ok(f.(powerState := Int32(raw)))
    case ScalarField(4, raw) => Ok(f.(initialized := ReadBool(raw)))
    case _ => Ok(f)
  }

  function MachineStatusDesc(): Descriptor<MachineStatusFields> { Descriptor(MachineStatusKind, MachineStatusApply) }

  function WipeStatusKind(field: int): Kind {
    if field == 2 || field == 3 then Scalar else if 1 <= field <= 4 then Delimited else Unknown
  }

  function WipeStatusApply(f: WipeStatusFields, r: Record): Result<WipeStatusFields> {
    match r
    case ScalarField(2, raw) => Ok(f.(lastWipeInstallEventId := raw % TWO64))
    case ScalarField(3, raw) => Ok(f.(initialWipeDone := ReadBool(raw)))
    case DelimitedField(1, p) => Ok(f.(lastWipeId := p))
    case DelimitedField(4, p) => Ok(f.(wipedNodeUniqueToken := p))
    case _ => Ok(f)
  }

  function WipeStatusDesc(): Descriptor<WipeStatusFields> { Descriptor(WipeStatusKind, WipeStatusApply) }

  function TLSConfigKind(field: int): Kind { if 1 <= field <= 2 then Delimited else Unknown }

  function TLSConfigApply(f: TLSConfigFields, r: Record): Result<TLSConfigFields> {
    match r
    case DelimitedField(1, p) => Ok(f.(caCert := p))
    case DelimitedField(2, p) => Ok(f.(caKey := p))
    case _ => Ok(f)
  }

  function TLSConfigDesc(): Descriptor<TLSConfigFields> { Descriptor(TLSConfigKind, TLSConfigApply) }

  // ------------------------------------------------------------------------- what each message writes

  function IPMIBytes(m: IPMI): seq<byte> {
    PutString(1, m.f.address) +
    (PutScalar(2, m.f.port) +
     (PutString(3, m.f.username) +
      (PutString(4, m.f.password) + m.unknown)))
  }

  function APIBytes(m: API): seq<byte> { PutString(1, m.f.address) + m.unknown }

  function ManualBytes(m: Manual): seq<byte> { m.unknown }

  /** The optional nested messages: written when present, even when empty. */
  function IPMIPart(o: Option<IPMI>): seq<byte> { if o.None? then [] else PutMessage(1, IPMIBytes(o.value)) }

  function APIPart(o: Option<API>): seq<byte> { if o.None? then [] else PutMessage(2, APIBytes(o.value)) }

  function ManualPart(o: Option<Manual>): seq<byte> { if o.None? then [] else PutMessage(4, ManualBytes(o.value)) }

  function BMCBytes(m: BMCConfiguration): seq<byte> {
    IPMIPart(m.f.ipmi) +
    (APIPart(m.f.api) +
     (PutScalar(3, BoolScalar(m.f.manuallyConfigured)) +
      (ManualPart(m.f.manual) + m.unknown)))
  }

  function MachineStatusBytes(m: MachineStatus): seq<byte> {
    PutScalar(1, BoolScalar(m.f.agentAccessible)) +
    (PutScalar(2, SignExtend(m.f.powerState)) +
     (PutScalar(4, BoolScalar(m.f.initialized)) + m.unknown))
  }

  function WipeStatusBytes(m: WipeStatus): seq<byte> {
    PutString(1, m.f.lastWipeId) +
    (PutScalar(2, m.f.lastWipeInstallEventId) +
     (PutScalar(3, BoolScalar(m.f.initialWipeDone)) +
      (PutString(4, m.f.wipedNodeUniqueToken) + m.unknown)))
  }

  function TLSConfigBytes(m: TLSConfig): seq<byte> {
    PutString(1, m.f.caCert) + (PutString(2, m.f.caKey) + m.unknown)
  }

  // ------------------------------------------------------------------------- round trips

  /** Each width reads back what it wrote, negative enum values included. */
  lemma {:induction false} WidthsReadBack(p: uint32, v: uint64, n: int32, b: bool)
    ensures p % TWO32 == p && v % TWO64 == v && Int32(SignExtend(n)) == n && ReadBool(BoolScalar(b)) == b
    ensures BoolScalar(b) == 0 <==> !b
    ensures SignExtend(n) == 0 <==> n == 0
  {
    assert n < 0 ==> n + TWO64 == 0xFFFF_FFFF * TWO32 + (n + TWO32);
  }

  lemma {:induction false} IPMIEncodes(skip: Skipper, m: IPMI)
    requires OnlyUnknown(skip, IPMIKind, m.unknown) && |IPMIBytes(m)| < TWO63
    ensures Decode(skip, IPMIDesc(), IPMIBytes(m), NO_IPMI) == Ok(m)
  {
    var f := m.f;
    var t4 := PutString(4, f.password) + m.unknown;
    var t3 := PutString(3, f.username) + t4;
    var t2 := PutScalar(2, f.port) + t3;
    var m1 := NO_IPMI.(f := NO_IPMI.f.(address := f.address));
    var m2 := m1.(f := m1.f.(port := f.port));
    var m3 := m2.(f := m2.f.(username := f.username));
    var m4 := m3.(f := m3.f.(password := f.password));
    var d := IPMIDesc();
    assert Decode(skip, d, IPMIBytes(m), NO_IPMI) == Decode(skip, d, t2, m1) by {
      DecodeString(skip, d, 1, f.address, t2, NO_IPMI);
    }
    assert Decode(skip, d, t2, m1) == Decode(skip, d, t3, m2) by {
      WidthsReadBack(f.port, 0, 0, false);
      assert Absorb(d, m1, ScalarField(2, f.port)) == Ok(m2);
      DecodeScalar(skip, d, 2, f.port, t3, m1);
    }
    assert Decode(skip, d, t3, m2) == Decode(skip, d, t4, m3) by {
      DecodeString(skip, d, 3, f.username, t4, m2);
    }
    assert Decode(skip, d, t4, m3) == Decode(skip, d, m.unknown, m4) by {
      DecodeString(skip, d, 4, f.password, m.unknown, m3);
    }
    DecodeOnlyUnknown(skip, d, m.unknown, m4);
  }

  lemma {:induction false} APIEncodes(skip: Skipper, m: API)
    requires OnlyUnknown(skip, APIKind, m.unknown) && |APIBytes(m)| < TWO63
    ensures Decode(skip, APIDesc(), APIBytes(m), NO_API) == Ok(m)
  {
    DecodeString(skip, APIDesc(), 1, m.f.address, m.unknown, NO_API);
    DecodeOnlyUnknown(skip, APIDesc(), m.unknown, NO_API.(f := m.f));
  }

  /** Whole unknown records, in the message and in every message nested in it. */
  ghost predicate BMCValid(skip: Skipper, m: BMCConfiguration) {
    && OnlyUnknown(skip, BMCKind, m.unknown)
    && (m.f.ipmi.Some? ==> OnlyUnknown(skip, IPMIKind, m.f.ipmi.value.unknown))
    && (m.f.api.Some? ==> OnlyUnknown(skip, APIKind, m.f.api.value.unknown))
    && (m.f.manual.Some? ==> OnlyUnknown(skip, ManualKind, m.f.manual.value.unknown))
  }

  lemma {:induction false} IPMIPartDecodes(skip: Skipper, o: Option<IPMI>, rest: seq<byte>, m: BMCConfiguration)
    requires m.f.ipmi.None? && |IPMIPart(o)| < TWO63
    requires o.Some? ==> OnlyUnknown(skip, IPMIKind, o.value.unknown)
    ensures Decode(skip, BMCDesc(skip), IPMIPart(o) + rest, m) ==
            Decode(skip, BMCDesc(skip), rest, m.(f := m.f.(ipmi := o)))
  {
    if o.None? {
      assert IPMIPart(o) + rest == rest;
    } else {
      IPMIEncodes(skip, o.value);
      assert Absorb(BMCDesc(skip), m, DelimitedField(1, IPMIBytes(o.value))) == Ok(m.(f := m.f.(ipmi := o)));
      DecodeMessage(skip, BMCDesc(skip), 1, IPMIBytes(o.value), rest, m);
    }
  }

  lemma {:induction false} APIPartDecodes(skip: Skipper, o: Option<API>, rest: seq<byte>, m: BMCConfiguration)
    requires m.f.api.None? && |APIPart(o)| < TWO63
    requires o.Some? ==> OnlyUnknown(skip, APIKind, o.value.unknown)
    ensures Decode(skip, BMCDesc(skip), APIPart(o) + rest, m) ==
            Decode(skip, BMCDesc(skip), rest, m.(f := m.f.(api := o)))
  {
    if o.None? {
      assert APIPart(o) + rest == rest;
    } else {
      APIEncodes(skip, o.value);
      assert Absorb(BMCDesc(skip), m, DelimitedField(2, APIBytes(o.value))) == Ok(m.(f := m.f.(api := o)));
      DecodeMessage(skip, BMCDesc(skip), 2, APIBytes(o.value), rest, m);
    }
  }

  lemma {:induction false} ManualPartDecodes(skip: Skipper, o: Option<Manual>, rest: seq<byte>, m: BMCConfiguration)
    requires m.f.manual.None? && |ManualPart(o)| < TWO63
    requires o.Some? ==> OnlyUnknown(skip, ManualKind, o.value.unknown)
    ensures Decode(skip, BMCDesc(skip), ManualPart(o) + rest, m) ==
            Decode(skip, BMCDesc(skip), rest, m.(f := m.f.(manual := o)))
  {
    if o.None? {
      assert ManualPart(o) + rest == rest;
    } else {
      DecodeOnlyUnknown(skip, ManualDesc(), o.value.unknown, NO_MANUAL);
      assert o.value.f.ManualFields?;
      assert Absorb(BMCDesc(skip), m, DelimitedField(4, ManualBytes(o.value))) == Ok(m.(f := m.f.(manual := o)));
      DecodeMessage(skip, BMCDesc(skip), 4, ManualBytes(o.value), rest, m);
    }
  }

  lemma {:induction false} FlagPartDecodes(skip: Skipper, b: bool, rest: seq<byte>, m: BMCConfiguration)
    requires !m.f.manuallyConfigured
    ensures Decode(skip, BMCDesc(skip), PutScalar(3, BoolScalar(b)) + rest, m) ==
            Decode(skip, BMCDesc(skip), rest, m.(f := m.f.(manuallyConfigured := b)))
  {
    WidthsReadBack(0, 0, 0, b);
    assert Absorb(BMCDesc(skip), m, ScalarField(3, BoolScalar(b))) == Ok(m.(f := m.f.(manuallyConfigured := b)));
    DecodeScalar(skip, BMCDesc(skip), 3, BoolScalar(b), rest, m);
  }

  lemma {:induction false} BMCEncodes(skip: Skipper, m: BMCConfiguration)
    requires BMCValid(skip, m) && |BMCBytes(m)| < TWO63
    ensures Decode(skip, BMCDesc(skip), BMCBytes(m), NO_BMC) == Ok(m)
  {
    var f := m.f;
    var t4 := ManualPart(f.manual) + m.unknown;
    var t3 := PutScalar(3, BoolScalar(f.manuallyConfigured)) + t4;
    var t2 := APIPart(f.api) + t3;
    var m1 := NO_BMC.(f := NO_BMC.f.(ipmi := f.ipmi));
    var m2 := m1.(f := m1.f.(api := f.api));
    var m3 := m2.(f := m2.f.(manuallyConfigured := f.manuallyConfigured));
    IPMIPartDecodes(skip, f.ipmi, t2, NO_BMC);
    APIPartDecodes(skip, f.api, t3, m1);
    FlagPartDecodes(skip, f.manuallyConfigured, t4, m2);
    ManualPartDecodes(skip, f.manual, m.unknown, m3);
    DecodeOnlyUnknown(skip, BMCDesc(skip), m.unknown, m3.(f := f));
  }

  lemma {:induction false} MachineStatusEncodes(skip: Skipper, m: MachineStatus)
    requires OnlyUnknown(skip, MachineStatusKind, m.unknown)
    ensures Decode(skip, MachineStatusDesc(), MachineStatusBytes(m), NO_MACHINE_STATUS) == Ok(m)
  {
    var d, f := MachineStatusDesc(), m.f;
    var t4 := PutScalar(4, BoolScalar(f.initialized)) + m.unknown;
    var t2 := PutScalar(2, SignExtend(f.powerState)) + t4;
    var m1 := NO_MACHINE_STATUS.(f := NO_MACHINE_STATUS.f.(agentAccessible := f.agentAccessible));
    var m2 := m1.(f := m1.f.(powerState := f.powerState));
    var m4 := m2.(f := f);
    assert Decode(skip, d, MachineStatusBytes(m), NO_MACHINE_STATUS) == Decode(skip, d, t2, m1) by {
      WidthsReadBack(0, 0, 0, f.agentAccessible);
      assert Absorb(d, NO_MACHINE_STATUS, ScalarField(1, BoolScalar(f.agentAccessible))) == Ok(m1);
      DecodeScalar(skip, d, 1, BoolScalar(f.agentAccessible), t2, NO_MACHINE_STATUS);
    }
    assert Decode(skip, d, t2, m1) == Decode(skip, d, t4, m2) by {
      WidthsReadBack(0, 0, f.powerState, false);
      assert Absorb(d, m1, ScalarField(2, SignExtend(f.powerState))) == Ok(m2);
      DecodeScalar(skip, d, 2, SignExtend(f.powerState), t4, m1);
    }
    assert Decode(skip, d, t4, m2) == Decode(skip, d, m.unknown, m4) by {
      WidthsReadBack(0, 0, 0, f.initialized);
      assert Absorb(d, m2, ScalarField(4, BoolScalar(f.initialized))) == Ok(m4);
      DecodeScalar(skip, d, 4, BoolScalar(f.initialized), m.unknown, m2);
    }
    DecodeOnlyUnknown(skip, d, m.unknown, m4);
  }

  lemma {:induction false} WipeStatusEncodes(skip: Skipper, m: WipeStatus)
    requires OnlyUnknown(skip, WipeStatusKind, m.unknown) && |WipeStatusBytes(m)| < TWO63
    ensures Decode(skip, WipeStatusDesc(), WipeStatusBytes(m), NO_WIPE_STATUS) == Ok(m)
  {
    var d, f := WipeStatusDesc(), m.f;
    var t4 := PutString(4, f.wipedNodeUniqueToken) + m.unknown;
    var t3 := PutScalar(3, BoolScalar(f.initialWipeDone)) + t4;
    var t2 := PutScalar(2, f.lastWipeInstallEventId) + t3;
    var m1 := NO_WIPE_STATUS.(f := NO_WIPE_STATUS.f.(lastWipeId := f.lastWipeId));
    var m2 := m1.(f := m1.f.(lastWipeInstallEventId := f.lastWipeInstallEventId));
    var m3 := m2.(f := m2.f.(initialWipeDone := f.initialWipeDone));
    var m4 := m3.(f := f);
    assert Decode(skip, d, WipeStatusBytes(m), NO_WIPE_STATUS) == Decode(skip, d, t2, m1) by {
      DecodeString(skip, d, 1, f.lastWipeId, t2, NO_WIPE_STATUS);
    }
    assert Decode(skip, d, t2, m1) == Decode(skip, d, t3, m2) by {
      WidthsReadBack(0, f.lastWipeInstallEventId, 0, false);
      assert Absorb(d, m1, ScalarField(2, f.lastWipeInstallEventId)) == Ok(m2);
      DecodeScalar(skip, d, 2, f.lastWipeInstallEventId, t3, m1);
    }
    assert Decode(skip, d, t3, m2) == Decode(skip, d, t4, m3) by {
      WidthsReadBack(0, 0, 0, f.initialWipeDone);
      assert Absorb(d, m2, ScalarField(3, BoolScalar(f.initialWipeDone))) == Ok(m3);
      DecodeScalar(skip, d, 3, BoolScalar(f.initialWipeDone), t4, m2);
    }
    assert Decode(skip, d, t4, m3) == Decode(skip, d, m.unknown, m4) by {
      DecodeString(skip, d, 4, f.wipedNodeUniqueToken, m.unknown, m3);
    }
    DecodeOnlyUnknown(skip, d, m.unknown, m4);
  }

  lemma {:induction false} TLSConfigEncodes(skip: Skipper, m: TLSConfig)
    requires OnlyUnknown(skip, TLSConfigKind, m.unknown) && |TLSConfigBytes(m)| < TWO63
    ensures Decode(skip, TLSConfigDesc(), TLSConfigBytes(m), NO_TLS_CONFIG) == Ok(m)
  {
    var d := TLSConfigDesc();
    var m1 := NO_TLS_CONFIG.(f := NO_TLS_CONFIG.f.(caCert := m.f.caCert));
    DecodeString(skip, d, 1, m.f.caCert, PutString(2, m.f.caKey) + m.unknown, NO_TLS_CONFIG);
    DecodeString(skip, d, 2, m.f.caKey, m.unknown, m1);
    DecodeOnlyUnknown(skip, d, m.unknown, m1.(f := m.f));
  }

  // ------------------------------------------------------------------------- re-encoding never grows

  function IPMISize(f: IPMIFields): nat {
    |PutString(1, f.address)| + |PutScalar(2, f.port)| + |PutString(3, f.username)| + |PutString(4, f.password)|
  }

  function APISize(f: APIFields): nat { |PutString(1, f.address)| }

  function ManualSize(f: ManualFields): nat { 0 }

  function BMCSize(f: BMCConfigurationFields): nat {
    |IPMIPart(f.ipmi)| + |APIPart(f.api)| + |PutScalar(3, BoolScalar(f.manuallyConfigured))| + |ManualPart(f.manual)|
  }

  function WipeStatusSize(f: WipeStatusFields): nat {
    |PutString(1, f.lastWipeId)| + |PutScalar(2, f.lastWipeInstallEventId)| +
      |PutScalar(3, BoolScalar(f.initialWipeDone))| +
    |PutString(4, f.wipedNodeUniqueToken)|
  }

  function TLSConfigSize(f: TLSConfigFields): nat { |PutString(1, f.caCert)| + |PutString(2, f.caKey)| }

  lemma {:induction false} SimpleIsFrugal()
    ensures Frugal(APIDesc(), APISize) && Frugal(ManualDesc(), ManualSize) && Frugal(TLSConfigDesc(), TLSConfigSize)
  {
  }

  lemma {:induction false} IPMIIsFrugal()
    ensures Frugal(IPMIDesc(), IPMISize)
  {
    hide Varbytes;
    forall f: IPMIFields, r: Record | !r.UnknownRecord?
      ensures IPMISize(IPMIApply(f, r).value) <= IPMISize(f) + RecordSize(r)
    {
      if r.ScalarField? { VarbytesGrow(r.raw % TWO32, r.raw); }
    }
  }

  lemma {:induction false} WipeStatusIsFrugal()
    ensures Frugal(WipeStatusDesc(), WipeStatusSize)
  {
    hide Varbytes;
    forall f: WipeStatusFields, r: Record | !r.UnknownRecord?
      ensures WipeStatusSize(WipeStatusApply(f, r).value) <= WipeStatusSize(f) + RecordSize(r)
    {
      if r.ScalarField? {
        VarbytesGrow(r.raw % TWO64, r.raw);
        VarbytesGrow(BoolScalar(ReadBool(r.raw)), r.raw);
      }
    }
  }

  /** A nested message that grew by no more than a record's payload takes no more than it and the record did. */
  lemma {:induction false} NestedIsFrugal(field: nat, before: Option<seq<byte>>, after: seq<byte>, payload: seq<byte>)
    requires 0 < field < 16 && |after| <= (if before.Some? then |before.value| else 0) + |payload|
    ensures |PutMessage(field, after)| <=
            (if before.Some? then |PutMessage(field, before.value)| else 0) + RecordSize(DelimitedField(field, payload))
  {
    var n := if before.Some? then |before.value| else 0;
    VarbytesGrow(|after|, n + |payload|);
    VarbytesOfSum(n, |payload|);
  }

  lemma {:induction false} BMCApplyIsFrugal(skip: Skipper, f: BMCConfigurationFields, r: Record)
    requires !r.UnknownRecord? && BMCApply(skip, f, r).Ok?
    ensures BMCSize(BMCApply(skip, f, r).value) <= BMCSize(f) + RecordSize(r)
  {
    hide Decode, PutMessage;
    IPMIIsFrugal();
    SimpleIsFrugal();
    match r
    case DelimitedField(1, p) =>
      var held := OrElse(f.ipmi, NO_IPMI);
      DecodeIsFrugal(skip, IPMIDesc(), IPMISize, p, held);
      NestedIsFrugal(1, if f.ipmi.Some? then Some(IPMIBytes(held))
                     else None, IPMIBytes(Decode(skip, IPMIDesc(), p, held).value), p);
    case DelimitedField(2, p) =>
      var held := OrElse(f.api, NO_API);
      DecodeIsFrugal(skip, APIDesc(), APISize, p, held);
      NestedIsFrugal(2, if f.api.Some? then Some(APIBytes(held))
                     else None, APIBytes(Decode(skip, APIDesc(), p, held).value), p);
    case DelimitedField(4, p) =>
      var held := OrElse(f.manual, NO_MANUAL);
      DecodeIsFrugal(skip, ManualDesc(), ManualSize, p, held);
      NestedIsFrugal(4, if f.manual.Some? then Some(ManualBytes(held))
                     else None, ManualBytes(Decode(skip, ManualDesc(), p, held).value), p);
    case _ =>
  }

  /** Re-encoding what was decoded is never longer than what it was decoded from. */
  lemma {:induction false} BMCNeverGrows(skip: Skipper, s: seq<byte>)
    requires Decode(skip, BMCDesc(skip), s, NO_BMC).Ok?
    ensures |BMCBytes(Decode(skip, BMCDesc(skip), s, NO_BMC).value)| <= |s|
  {
    forall f: BMCConfigurationFields, r: Record | !r.UnknownRecord? && BMCApply(skip, f, r).Ok?
      ensures BMCSize(BMCApply(skip, f, r).value) <= BMCSize(f) + RecordSize(r)
    {
      BMCApplyIsFrugal(skip, f, r);
    }
    DecodeIsFrugal(skip, BMCDesc(skip), BMCSize, s, NO_BMC);
  }

  lemma {:induction false} WipeStatusNeverGrows(skip: Skipper, s: seq<byte>)
    requires Decode(skip, WipeStatusDesc(), s, NO_WIPE_STATUS).Ok?
    ensures |WipeStatusBytes(Decode(skip, WipeStatusDesc(), s, NO_WIPE_STATUS).value)| <= |s|
  {
    WipeStatusIsFrugal();
    DecodeIsFrugal(skip, WipeStatusDesc(), WipeStatusSize, s, NO_WIPE_STATUS);
  }

  lemma {:induction false} TLSConfigNeverGrows(skip: Skipper, s: seq<byte>)
    requires Decode(skip, TLSConfigDesc(), s, NO_TLS_CONFIG).Ok?
    ensures |TLSConfigBytes(Decode(skip, TLSConfigDesc(), s, NO_TLS_CONFIG).value)| <= |s|
  {
    SimpleIsFrugal();
    DecodeIsFrugal(skip, TLSConfigDesc(), TLSConfigSize, s, NO_TLS_CONFIG);
  }

  // ------------------------------------------------------------------------- the laws of each spec

  /** A spec survives a write and a read exactly when its unknown fields are whole records under
      numbers it does not know; anything else there is read back as something else. */
  lemma {:induction false} WipeStatusRoundTrip(skip: Skipper, m: WipeStatus)
    requires |WipeStatusBytes(m)| < TWO63
    ensures Decode(skip, WipeStatusDesc(), WipeStatusBytes(m), NO_WIPE_STATUS) == Ok(m) <==>
            OnlyUnknown(skip, WipeStatusKind, m.unknown)
  {
    if OnlyUnknown(skip, WipeStatusKind, m.unknown) {
      WipeStatusEncodes(skip, m);
    } else if Decode(skip, WipeStatusDesc(), WipeStatusBytes(m), NO_WIPE_STATUS) == Ok(m) {
      DecodeKeepsUnknown(skip, WipeStatusDesc(), WipeStatusBytes(m), NO_WIPE_STATUS);
    }
  }

  /** Whatever bytes decode, canonical or not, decode to the same spec once written back. */
  lemma {:induction false} WipeStatusStable(skip: Skipper, s: seq<byte>, m: WipeStatus)
    requires Decode(skip, WipeStatusDesc(), s, NO_WIPE_STATUS) == Ok(m) && |s| < TWO63
    ensures Decode(skip, WipeStatusDesc(), WipeStatusBytes(m), NO_WIPE_STATUS) == Ok(m)
  {
    DecodeKeepsUnknown(skip, WipeStatusDesc(), s, NO_WIPE_STATUS);
    WipeStatusNeverGrows(skip, s);
    WipeStatusEncodes(skip, m);
  }

  lemma {:induction false} MachineStatusRoundTrip(skip: Skipper, m: MachineStatus)
    ensures Decode(skip, MachineStatusDesc(), MachineStatusBytes(m), NO_MACHINE_STATUS) == Ok(m) <==>
            OnlyUnknown(skip, MachineStatusKind, m.unknown)
  {
    if OnlyUnknown(skip, MachineStatusKind, m.unknown) {
      MachineStatusEncodes(skip, m);
    } else if Decode(skip, MachineStatusDesc(), MachineStatusBytes(m), NO_MACHINE_STATUS) == Ok(m) {
      DecodeKeepsUnknown(skip, MachineStatusDesc(), MachineStatusBytes(m), NO_MACHINE_STATUS);
    }
  }

  lemma {:induction false} MachineStatusStable(skip: Skipper, s: seq<byte>, m: MachineStatus)
    requires Decode(skip, MachineStatusDesc(), s, NO_MACHINE_STATUS) == Ok(m)
    ensures Decode(skip, MachineStatusDesc(), MachineStatusBytes(m), NO_MACHINE_STATUS) == Ok(m)
  {
    DecodeKeepsUnknown(skip, MachineStatusDesc(), s, NO_MACHINE_STATUS);
    MachineStatusEncodes(skip, m);
  }

  lemma {:induction false} TLSConfigRoundTrip(skip: Skipper, m: TLSConfig)
    requires |TLSConfigBytes(m)| < TWO63
    ensures Decode(skip, TLSConfigDesc(), TLSConfigBytes(m), NO_TLS_CONFIG) == Ok(m) <==>
            OnlyUnknown(skip, TLSConfigKind, m.unknown)
  {
    if OnlyUnknown(skip, TLSConfigKind, m.unknown) {
      TLSConfigEncodes(skip, m);
    } else if Decode(skip, TLSConfigDesc(), TLSConfigBytes(m), NO_TLS_CONFIG) == Ok(m) {
      DecodeKeepsUnknown(skip, TLSConfigDesc(), TLSConfigBytes(m), NO_TLS_CONFIG);
    }
  }

  lemma {:induction false} TLSConfigStable(skip: Skipper, s: seq<byte>, m: TLSConfig)
    requires Decode(skip, TLSConfigDesc(), s, NO_TLS_CONFIG) == Ok(m) && |s| < TWO63
    ensures Decode(skip, TLSConfigDesc(), TLSConfigBytes(m), NO_TLS_CONFIG) == Ok(m)
  {
    DecodeKeepsUnknown(skip, TLSConfigDesc(), s, NO_TLS_CONFIG);
    TLSConfigNeverGrows(skip, s);
    TLSConfigEncodes(skip, m);
  }

  lemma {:induction false} BMCApplyKeepsValid(skip: Skipper, m: BMCConfiguration, r: Record)
    requires BMCValid(skip, m) && BMCApply(skip, m.f, r).Ok?
    ensures BMCValid(skip, m.(f := BMCApply(skip, m.f, r).value))
  {
    match r
    case DelimitedField(1, p) => DecodeKeepsUnknown(skip, IPMIDesc(), p, OrElse(m.f.ipmi, NO_IPMI));
    case DelimitedField(2, p) => DecodeKeepsUnknown(skip, APIDesc(), p, OrElse(m.f.api, NO_API));
    case DelimitedField(4, p) => DecodeKeepsUnknown(skip, ManualDesc(), p, OrElse(m.f.manual, NO_MANUAL));
    case _ =>
  }

  /** Decoding keeps unknown fields whole at every level of nesting. */
  lemma {:induction false} BMCDecodeKeepsValid(skip: Skipper, s: seq<byte>, m: BMCConfiguration)
    requires BMCValid(skip, m) && Decode(skip, BMCDesc(skip), s, m).Ok?
    ensures BMCValid(skip, Decode(skip, BMCDesc(skip), s, m).value)
    decreases |s|
  {
    if s != [] {
      var p := Next(skip, BMCKind, s).value;
      var m' := Absorb(BMCDesc(skip), m, p.record).value;
      if p.record.UnknownRecord? {
        UnknownStepKeeps(skip, BMCKind, s, m.unknown);
      } else {
        BMCApplyKeepsValid(skip, m, p.record);
      }
      BMCDecodeKeepsValid(skip, s[p.size..], m');
    }
  }

  lemma {:induction false} BMCRoundTrip(skip: Skipper, m: BMCConfiguration)
    requires |BMCBytes(m)| < TWO63
    ensures Decode(skip, BMCDesc(skip), BMCBytes(m), NO_BMC) == Ok(m) <==> BMCValid(skip, m)
  {
    if BMCValid(skip, m) {
      BMCEncodes(skip, m);
    } else if Decode(skip, BMCDesc(skip), BMCBytes(m), NO_BMC) == Ok(m) {
      BMCDecodeKeepsValid(skip, BMCBytes(m), NO_BMC);
    }
  }

  lemma {:induction false} BMCStable(skip: Skipper, s: seq<byte>, m: BMCConfiguration)
    requires Decode(skip, BMCDesc(skip), s, NO_BMC) == Ok(m) && |s| < TWO63
    ensures Decode(skip, BMCDesc(skip), BMCBytes(m), NO_BMC) == Ok(m)
  {
    BMCDecodeKeepsValid(skip, s, NO_BMC);
    BMCNeverGrows(skip, s);
    BMCEncodes(skip, m);
  }

  /** A nested message sent in two pieces is the message sent in one, piece after piece. */
  lemma {:induction false} NestedPiecesMerge(skip: Skipper, p: seq<byte>, q: seq<byte>, rest: seq<byte>,
                                             m: BMCConfiguration)
    requires |p| + |q| < TWO63
    requires Decode(skip, IPMIDesc(), p, OrElse(m.f.ipmi, NO_IPMI)).Ok?
    ensures Decode(skip, BMCDesc(skip), PutMessage(1, p) + (PutMessage(1, q) + rest), m) ==
            Decode(skip, BMCDesc(skip), PutMessage(1, p + q) + rest, m)
  {
    var d, held := BMCDesc(skip), OrElse(m.f.ipmi, NO_IPMI);
    var m1 := m.(f := m.f.(ipmi := Some(Decode(skip, IPMIDesc(), p, held).value)));
    assert Absorb(d, m, DelimitedField(1, p)) == Ok(m1);
    DecodeMessage(skip, d, 1, p, PutMessage(1, q) + rest, m);
    DecodeMessage(skip, d, 1, q, rest, m1);
    DecodeConcat(skip, IPMIDesc(), p, q, held);
    DecodeMessage(skip, d, 1, p + q, rest, m);
    assert Absorb(d, m1, DelimitedField(1, q)) == Absorb(d, m, DelimitedField(1, p + q));
  }

  /** And so are the other two. */
  lemma {:induction false} APIPiecesMerge(skip: Skipper, p: seq<byte>, q: seq<byte>, rest: seq<byte>,
                                          m: BMCConfiguration)
    requires |p| + |q| < TWO63
    requires Decode(skip, APIDesc(), p, OrElse(m.f.api, NO_API)).Ok?
    ensures Decode(skip, BMCDesc(skip), PutMessage(2, p) + (PutMessage(2, q) + rest), m) ==
            Decode(skip, BMCDesc(skip), PutMessage(2, p + q) + rest, m)
  {
    var d, held := BMCDesc(skip), OrElse(m.f.api, NO_API);
    var m1 := m.(f := m.f.(api := Some(Decode(skip, APIDesc(), p, held).value)));
    assert Absorb(d, m, DelimitedField(2, p)) == Ok(m1);
    DecodeMessage(skip, d, 2, p, PutMessage(2, q) + rest, m);
    DecodeMessage(skip, d, 2, q, rest, m1);
    DecodeConcat(skip, APIDesc(), p, q, held);
    DecodeMessage(skip, d, 2, p + q, rest, m);
    assert Absorb(d, m1, DelimitedField(2, q)) == Absorb(d, m, DelimitedField(2, p + q));
  }

  lemma {:induction false} ManualPiecesMerge(skip: Skipper, p: seq<byte>, q: seq<byte>, rest: seq<byte>,
                                             m: BMCConfiguration)
    requires |p| + |q| < TWO63
    requires Decode(skip, ManualDesc(), p, OrElse(m.f.manual, NO_MANUAL)).Ok?
    ensures Decode(skip, BMCDesc(skip), PutMessage(4, p) + (PutMessage(4, q) + rest), m) ==
            Decode(skip, BMCDesc(skip), PutMessage(4, p + q) + rest, m)
  {
    var d, held := BMCDesc(skip), OrElse(m.f.manual, NO_MANUAL);
    var m1 := m.(f := m.f.(manual := Some(Decode(skip, ManualDesc(), p, held).value)));
    assert Absorb(d, m, DelimitedField(4, p)) == Ok(m1);
    DecodeMessage(skip, d, 4, p, PutMessage(4, q) + rest, m);
    DecodeMessage(skip, d, 4, q, rest, m1);
    DecodeConcat(skip, ManualDesc(), p, q, held);
    DecodeMessage(skip, d, 4, p + q, rest, m);
    assert Absorb(d, m1, DelimitedField(4, q)) == Absorb(d, m, DelimitedField(4, p + q));
  }
}
