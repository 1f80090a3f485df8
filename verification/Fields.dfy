/** What every record does to every message. A field that is sent again replaces what it held, whatever that
    was; a nested message is merged into the one held; a record under any other number is kept verbatim; and a
    known number under another wire type is refused. */
module Fields {
  import opened Wire
  import opened Specs
  import opened TimedSpecs

  // ------------------------------------------------------------------------- varints and tags

  /** The first `n` bytes as groups of seven bits, the lowest first. */
  ghost function Positional(s: seq<byte>, n: nat): nat
    requires n <= |s|
  {
    if n == 0 then 0 else Positional(s, n - 1) + (s[n - 1] % 128) * Pow128(n - 1)
  }

  ghost predicate Continued(s: seq<byte>, n: nat) { n <= |s| && forall i :: 0 <= i < n ==> s[i] >= 128 }

  lemma {:induction false} PositionalTail(s: seq<byte>, n: nat)
    requires 0 < n <= |s|
    ensures Positional(s, n) == s[0] % 128 + 128 * Positional(s[1..], n - 1)
  {
    if n > 1 {
      var group, p := s[n - 1] % 128, Pow128(n - 2);
      PositionalTail(s, n - 1);
      assert s[1..][n - 2] == s[n - 1];
      assert group * (128 * p) == 128 * (group * p);
    } else {
      assert Pow128(0) == 1;
    }
  }

  lemma {:induction false} ContinuedTail(s: seq<byte>, n: nat)
    requires s != [] && s[0] >= 128 && n > 0
    ensures Continued(s, n) <==> Continued(s[1..], n - 1)
  {
    if Continued(s[1..], n - 1) {
      assert forall i :: 0 < i < n ==> s[i] == s[1..][i - 1];
    }
  }

  /** A varint of at most ten groups ends at the first byte below 128 and is the sum of its groups, canonical or not;
      without such a byte it is too long or cut off. */
  lemma {:induction false} ScanExactly(s: seq<byte>, k: nat)
    requires k <= MAX_GROUPS
    ensures Scan(s, k) == Err(IntOverflow) <==> Continued(s, MAX_GROUPS - k)
    ensures Scan(s, k) == Err(Truncated) <==> |s| < MAX_GROUPS - k && Continued(s, |s|)
    ensures Scan(s, k).Err? ==> Scan(s, k).error in {IntOverflow, Truncated}
    ensures Scan(s, k).Ok? ==>
              var v := Scan(s, k).value;
              Continued(s, v.size - 1) && s[v.size - 1] < 128 && v.raw == Positional(s, v.size)
    decreases |s|
  {
    if k < MAX_GROUPS && s != [] {
      if s[0] < 128 {
        assert Positional(s, 0) == 0 && Pow128(0) == 1;
        assert Positional(s, 1) == s[0];
      } else {
        ScanExactly(s[1..], k + 1);
        ContinuedTail(s, MAX_GROUPS - k);
        ContinuedTail(s, |s|);
        if Scan(s, k).Ok? {
          var n := Scan(s, k).value.size;
          ContinuedTail(s, n - 1);
          PositionalTail(s, n);
        }
      }
    }
  }

  /** The low 64 bits hold the low 35 bits. */
  lemma {:induction false} LowBits(raw: nat)
    ensures (raw % TWO64) % 8 == raw % 8
    ensures (raw % TWO64) / 8 % TWO32 == (raw / 8) % TWO32
  {
    var high, low := raw / TWO64, raw % TWO64;
    assert raw == 8 * (0x2000_0000_0000_0000 * high + low / 8) + low % 8;
    assert raw / 8 == 0x2000_0000_0000_0000 * high + low / 8;
    assert raw / 8 == (0x2000_0000 * high) * TWO32 + low / 8;
  }

  lemma {:induction false} LowBitsApart(raw: nat)
    ensures (raw - (8 * ((raw / 8) % TWO32) + raw % 8)) % (8 * TWO32) == 0
  {
    var q := raw / 8;
    assert raw - (8 * (q % TWO32) + raw % 8) == (8 * TWO32) * (q / TWO32);
  }

  /** A tag is told from the low 35 bits of its varint: three of wire type, and the 32 of a positive field number. */
  lemma {:induction false} TagExactly(s: seq<byte>, v: Varint)
    requires Scan(s, 0) == Ok(v)
    ensures ReadTag(s) == Err(EndGroup) <==> v.raw % 8 == 4
    ensures ReadTag(s) == Err(IllegalTag) <==>
            v.raw % 8 != 4 && ((v.raw / 8) % TWO32 == 0 || (v.raw / 8) % TWO32 >= TWO32 / 2)
    ensures ReadTag(s).Err? ==> ReadTag(s).error in {EndGroup, IllegalTag}
    ensures ReadTag(s).Ok? ==>
              var tag := ReadTag(s).value;
              && tag.size == v.size && 0 <= tag.wireType < 8 && 0 < tag.field < TWO32 / 2
              && (v.raw - (8 * tag.field + tag.wireType)) % (8 * TWO32) == 0
  {
    LowBits(v.raw);
    LowBitsApart(v.raw);
  }

  /** A payload is as many bytes as its length says, if the slice has them. */
  lemma {:induction false} PayloadExactly(s: seq<byte>, v: Varint)
    requires Scan(s, 0) == Ok(v)
    ensures ReadPayload(s).Ok? <==> v.raw % TWO64 < TWO63 && v.size + v.raw % TWO64 <= |s|
    ensures ReadPayload(s).Err? ==> ReadPayload(s) == Err(Truncated)
    ensures ReadPayload(s).Ok? ==>
              var p := ReadPayload(s).value;
              && |p.bytes| == v.raw % TWO64 && p.size == v.size + |p.bytes|
              && s == s[..v.size] + p.bytes + s[p.size..]
  {
  }

  /** What an int32 and an int64 read are cut to: they differ from the raw varint by whole turns of their width. */
  lemma {:induction false} Int32Cuts(raw: nat)
    ensures (raw - Int32(raw)) % TWO32 == 0
  {
    var q := raw / TWO32;
    assert raw - Int32(raw) == (if raw % TWO32 < 0x8000_0000 then q else q + 1) * TWO32;
  }

  lemma {:induction false} Int64Cuts(raw: nat)
    ensures (raw - Int64(raw)) % TWO64 == 0
  {
    var q := raw / TWO64;
    assert raw - Int64(raw) == (if raw % TWO64 < TWO63 then q else q + 1) * TWO64;
  }

  /** A signed field is written at the full width: read as an int64, it is the same number. */
  lemma {:induction false} WritesFullWidth(n: int32, seconds: int64)
    ensures Int64(SignExtend(n)) == n && Int64(Unsigned(seconds)) == seconds
  {
  }

  // ------------------------------------------------------------------------- one record

  /** A whole varint field: a tag in any number of bytes, and a varint up to the end of `s`. */
  predicate IsScalar(s: seq<byte>, field: int, raw: nat) {
    && ReadTag(s).Ok? && ReadTag(s).value.field == field && ReadTag(s).value.wireType == 0
    && var body := s[ReadTag(s).value.size..]; Scan(body, 0) == Ok(Varint(raw, |body|))
  }

  /** A whole length-delimited field with payload `p`. */
  predicate IsText(s: seq<byte>, field: int, p: seq<byte>) {
    && ReadTag(s).Ok? && ReadTag(s).value.field == field && ReadTag(s).value.wireType == 2
    && var body := s[ReadTag(s).value.size..]; ReadPayload(body) == Ok(Payload(p, |body|))
  }

  /** A whole record under none of the numbers `known`. */
  predicate IsOther(skip: Skipper, s: seq<byte>, known: set<int>) {
    ReadTag(s).Ok? && ReadTag(s).value.field !in known && skip(s) == Some(|s|)
  }

  /** A record under a known number with a wire type that is not its field's. */
  predicate Mistyped(s: seq<byte>, scalars: set<int>, texts: set<int>) {
    && ReadTag(s).Ok?
    && var tag := ReadTag(s).value;
       (tag.field in scalars && tag.wireType != 0) || (tag.field in texts && tag.wireType != 2)
  }

  /** These are all the records there are. */
  lemma {:induction false} NextExactly(skip: Skipper, kind: int -> Kind, s: seq<byte>, field: int, raw: nat,
                                       p: seq<byte>)
    ensures Next(skip, kind, s) == Ok(Parsed(ScalarField(field, raw), |s|)) <==>
            kind(field) == Scalar && IsScalar(s, field, raw)
    ensures Next(skip, kind, s) == Ok(Parsed(DelimitedField(field, p), |s|)) <==>
            kind(field) == Delimited && IsText(s, field, p)
    ensures Next(skip, kind, s) == Ok(Parsed(UnknownRecord(s), |s|)) <==>
            ReadTag(s).Ok? && kind(ReadTag(s).value.field) == Unknown && skip(s) == Some(|s|)
  {
    hide ReadTag, Scan, ReadPayload;
    assert s[..|s|] == s;
    assert SkipLaw(skip, s, s);
  }

  /** Decoding a record and then `rest` is doing what the record asks, and decoding `rest`. */
  lemma {:induction false} FirstRecord<K>(skip: Skipper, d: Descriptor<K>, s: seq<byte>, r: Record, rest: seq<byte>,
                                          m: Msg<K>)
    requires Next(skip, d.kind, s) == Ok(Parsed(r, |s|))
    ensures Decode(skip, d, s + rest, m) == Resume(skip, d, Absorb(d, m, r), rest)
  {
    hide Next, Absorb;
    assert (s + rest)[..|s|] == s;
    NextLocal(skip, d.kind, s, s + rest);
    assert (s + rest)[|s|..] == rest;
  }

  lemma {:induction false} ScalarRecord<K>(skip: Skipper, d: Descriptor<K>, s: seq<byte>, rest: seq<byte>, m: Msg<K>,
                                           field: int, raw: nat)
    requires IsScalar(s, field, raw) && d.kind(field) == Scalar
    ensures Decode(skip, d, s + rest, m) == Resume(skip, d, Absorb(d, m, ScalarField(field, raw)), rest)
  {
    hide Scan, Decode, ReadTag;
    FirstRecord(skip, d, s, ScalarField(field, raw), rest, m);
  }

  lemma {:induction false} TextRecord<K>(skip: Skipper, d: Descriptor<K>, s: seq<byte>, rest: seq<byte>, m: Msg<K>,
                                         field: int, p: seq<byte>)
    requires IsText(s, field, p) && d.kind(field) == Delimited
    ensures Decode(skip, d, s + rest, m) == Resume(skip, d, Absorb(d, m, DelimitedField(field, p)), rest)
  {
    hide Scan, Decode, ReadTag, ReadPayload;
    FirstRecord(skip, d, s, DelimitedField(field, p), rest, m);
  }

  /** Records under other numbers are kept as they are, behind those kept before, and change nothing else. */
  lemma {:induction false} OtherRecord<K>(skip: Skipper, d: Descriptor<K>, s: seq<byte>, rest: seq<byte>, m: Msg<K>,
                                          known: set<int>)
    requires IsOther(skip, s, known) && forall field :: field !in known ==> d.kind(field) == Unknown
    ensures Decode(skip, d, s + rest, m) == Decode(skip, d, rest, m.(unknown := m.unknown + s))
  {
    hide Decode, ReadTag;
    assert SkipLaw(skip, s, s);
    assert s[..|s|] == s;
    FirstRecord(skip, d, s, UnknownRecord(s), rest, m);
  }

  /** A known number under a wrong wire type fails the decode, whatever follows. */
  lemma {:induction false} MistypedRecord<K>(skip: Skipper, d: Descriptor<K>, s: seq<byte>, m: Msg<K>,
                                             scalars: set<int>, texts: set<int>)
    requires Mistyped(s, scalars, texts)
    requires forall field :: (field in scalars ==> d.kind(field) == Scalar) &&
                             (field in texts ==> d.kind(field) == Delimited)
    ensures Decode(skip, d, s, m) == Err(WrongWireType)
  {
    hide ReadTag;
    assert s != [];
  }

  /** What makes a decode fail at its first record, apart from what the record's payload holds. */
  lemma {:induction false} FailsAtOnce<K>(skip: Skipper, d: Descriptor<K>, s: seq<byte>, m: Msg<K>)
    requires s != []
    ensures var r := Decode(skip, d, s, m);
      if ReadTag(s).Err? then r == Err(ReadTag(s).error)
      else
        var tag := ReadTag(s).value;
        var body := s[tag.size..];
        && (d.kind(tag.field) == Unknown ==>
              && (skip(s).None? ==> r == Err(SkipFailed))
              && (skip(s).Some? && skip(s).value > |s| ==> r == Err(Truncated)))
        && (d.kind(tag.field) == Scalar && tag.wireType == 0 && Scan(body, 0).Err? ==> r == Err(Scan(body, 0).error))
        && (d.kind(tag.field) == Delimited && tag.wireType == 2 && ReadPayload(body).Err? ==>
              r == Err(ReadPayload(body).error))
  {
    hide ReadTag, Scan;
  }

  // ------------------------------------------------------------------------- every field of every spec

  /** Each field of the IPMI credentials, whatever the message held: the last one sent wins. */
  lemma {:induction false} IPMIReads(skip: Skipper, s: seq<byte>, rest: seq<byte>, m: IPMI, raw: nat, p: seq<byte>)
    ensures var d := IPMIDesc();
      && (IsText(s, 1, p) ==>
            Decode(skip, d, s + rest, m) == Decode(skip, d, rest, m.(f := m.f.(address := p))))
      && (IsScalar(s, 2, raw) ==>
            Decode(skip, d, s + rest, m) == Decode(skip, d, rest, m.(f := m.f.(port := raw % TWO32))))
      && (IsText(s, 3, p) ==>
            Decode(skip, d, s + rest, m) == Decode(skip, d, rest, m.(f := m.f.(username := p))))
      && (IsText(s, 4, p) ==>
            Decode(skip, d, s + rest, m) == Decode(skip, d, rest, m.(f := m.f.(password := p))))
      && (IsOther(skip, s, {1, 2, 3, 4}) ==>
            Decode(skip, d, s + rest, m) == Decode(skip, d, rest, m.(unknown := m.unknown + s)))
      && (Mistyped(s, {2}, {1, 3, 4}) ==> Decode(skip, d, s, m) == Err(WrongWireType))
  {
    hide Decode, IsScalar, IsText, IsOther, Mistyped;
    var d := IPMIDesc();
    if IsText(s, 1, p) { TextRecord(skip, d, s, rest, m, 1, p); }
    if IsScalar(s, 2, raw) { ScalarRecord(skip, d, s, rest, m, 2, raw); }
    if IsText(s, 3, p) { TextRecord(skip, d, s, rest, m, 3, p); }
    if IsText(s, 4, p) { TextRecord(skip, d, s, rest, m, 4, p); }
    if IsOther(skip, s, {1, 2, 3, 4}) { OtherRecord(skip, d, s, rest, m, {1, 2, 3, 4}); }
    if Mistyped(s, {2}, {1, 3, 4}) { MistypedRecord(skip, d, s, m, {2}, {1, 3, 4}); }
  }

  /** The field of the API access. */
  lemma {:induction false} APIReads(skip: Skipper, s: seq<byte>, rest: seq<byte>, m: API, p: seq<byte>)
    ensures var d := APIDesc();
      && (IsText(s, 1, p) ==>
            Decode(skip, d, s + rest, m) == Decode(skip, d, rest, m.(f := m.f.(address := p))))
      && (IsOther(skip, s, {1}) ==>
            Decode(skip, d, s + rest, m) == Decode(skip, d, rest, m.(unknown := m.unknown + s)))
      && (Mistyped(s, {}, {1}) ==> Decode(skip, d, s, m) == Err(WrongWireType))
  {
    hide Decode, IsScalar, IsText, IsOther, Mistyped;
    var d := APIDesc();
    if IsText(s, 1, p) { TextRecord(skip, d, s, rest, m, 1, p); }
    if IsOther(skip, s, {1}) { OtherRecord(skip, d, s, rest, m, {1}); }
    if Mistyped(s, {}, {1}) { MistypedRecord(skip, d, s, m, {}, {1}); }
  }

  /** Manual power has no fields of its own. */
  lemma {:induction false} ManualReads(skip: Skipper, s: seq<byte>, rest: seq<byte>, m: Manual)
    ensures var d := ManualDesc();
      && (IsOther(skip, s, {}) ==>
            Decode(skip, d, s + rest, m) == Decode(skip, d, rest, m.(unknown := m.unknown + s)))
  {
    hide Decode, IsScalar, IsText, IsOther, Mistyped;
    var d := ManualDesc();
    if IsOther(skip, s, {}) { OtherRecord(skip, d, s, rest, m, {}); }
  }

  /** Each field of a BMC configuration: a nested message is merged into the one held, an absent one starting
      empty, and fails the whole where it fails. */
  lemma {:induction false} BMCReads(skip: Skipper, s: seq<byte>, rest: seq<byte>,
                                    m: BMCConfiguration, raw: nat, p: seq<byte>)
    ensures var d := BMCDesc(skip);
      && (IsText(s, 1, p) ==>
            var merged := Decode(skip, IPMIDesc(), p, if m.f.ipmi.Some? then m.f.ipmi.value else NO_IPMI);
            Decode(skip, d, s + rest, m) ==
            if merged.Err? then Err(merged.error)
            else Decode(skip, d, rest, m.(f := m.f.(ipmi := Some(merged.value)))))
      && (IsText(s, 2, p) ==>
            var merged := Decode(skip, APIDesc(), p, if m.f.api.Some? then m.f.api.value else NO_API);
            Decode(skip, d, s + rest, m) ==
            if merged.Err? then Err(merged.error)
            else Decode(skip, d, rest, m.(f := m.f.(api := Some(merged.value)))))
      && (IsScalar(s, 3, raw) ==>
            Decode(skip, d, s + rest, m) == Decode(skip, d, rest,
                                                   m.(f := m.f.(manuallyConfigured := raw % TWO64 != 0))))
      && (IsText(s, 4, p) ==>
            var merged := Decode(skip, ManualDesc(), p, if m.f.manual.Some? then m.f.manual.value else NO_MANUAL);
            Decode(skip, d, s + rest, m) ==
            if merged.Err? then Err(merged.error)
            else Decode(skip, d, rest, m.(f := m.f.(manual := Some(merged.value)))))
      && (IsOther(skip, s, {1, 2, 3, 4}) ==>
            Decode(skip, d, s + rest, m) == Decode(skip, d, rest, m.(unknown := m.unknown + s)))
      && (Mistyped(s, {3}, {1, 2, 4}) ==> Decode(skip, d, s, m) == Err(WrongWireType))
  {
    hide Decode, IsScalar, IsText, IsOther, Mistyped;
    var d := BMCDesc(skip);
    if IsText(s, 1, p) { TextRecord(skip, d, s, rest, m, 1, p); }
    if IsText(s, 2, p) { TextRecord(skip, d, s, rest, m, 2, p); }
    if IsScalar(s, 3, raw) { ScalarRecord(skip, d, s, rest, m, 3, raw); }
    if IsText(s, 4, p) { TextRecord(skip, d, s, rest, m, 4, p); }
    if IsOther(skip, s, {1, 2, 3, 4}) { OtherRecord(skip, d, s, rest, m, {1, 2, 3, 4}); }
    if Mistyped(s, {3}, {1, 2, 4}) { MistypedRecord(skip, d, s, m, {3}, {1, 2, 4}); }
  }

  /** Each field of a machine status; number 3 is not one. */
  lemma {:induction false} MachineStatusReads(skip: Skipper, s: seq<byte>, rest: seq<byte>, m: MachineStatus, raw: nat)
    ensures var d := MachineStatusDesc();
      && (IsScalar(s, 1, raw) ==>
            Decode(skip, d, s + rest, m) == Decode(skip, d, rest, m.(f := m.f.(agentAccessible := raw % TWO64 != 0))))
      && (IsScalar(s, 2, raw) ==>
            Decode(skip, d, s + rest, m) == Decode(skip, d, rest, m.(f := m.f.(powerState := Int32(raw)))))
      && (IsScalar(s, 4, raw) ==>
            Decode(skip, d, s + rest, m) == Decode(skip, d, rest, m.(f := m.f.(initialized := raw % TWO64 != 0))))
      && (IsOther(skip, s, {1, 2, 4}) ==>
            Decode(skip, d, s + rest, m) == Decode(skip, d, rest, m.(unknown := m.unknown + s)))
      && (Mistyped(s, {1, 2, 4}, {}) ==> Decode(skip, d, s, m) == Err(WrongWireType))
  {
    hide Decode, IsScalar, IsText, IsOther, Mistyped;
    var d := MachineStatusDesc();
    if IsScalar(s, 1, raw) { ScalarRecord(skip, d, s, rest, m, 1, raw); }
    if IsScalar(s, 2, raw) { ScalarRecord(skip, d, s, rest, m, 2, raw); }
    if IsScalar(s, 4, raw) { ScalarRecord(skip, d, s, rest, m, 4, raw); }
    if IsOther(skip, s, {1, 2, 4}) { OtherRecord(skip, d, s, rest, m, {1, 2, 4}); }
    if Mistyped(s, {1, 2, 4}, {}) { MistypedRecord(skip, d, s, m, {1, 2, 4}, {}); }
  }

  /** Each field of a wipe status. */
  lemma {:induction false} WipeStatusReads(skip: Skipper, s: seq<byte>, rest: seq<byte>,
                                           m: WipeStatus, raw: nat, p: seq<byte>)
    ensures var d := WipeStatusDesc();
      && (IsText(s, 1, p) ==>
            Decode(skip, d, s + rest, m) == Decode(skip, d, rest, m.(f := m.f.(lastWipeId := p))))
      && (IsScalar(s, 2, raw) ==>
            Decode(skip, d, s + rest, m) == Decode(skip, d, rest, m.(f := m.f.(lastWipeInstallEventId := raw % TWO64))))
      && (IsScalar(s, 3, raw) ==>
            Decode(skip, d, s + rest, m) == Decode(skip, d, rest, m.(f := m.f.(initialWipeDone := raw % TWO64 != 0))))
      && (IsText(s, 4, p) ==>
            Decode(skip, d, s + rest, m) == Decode(skip, d, rest, m.(f := m.f.(wipedNodeUniqueToken := p))))
      && (IsOther(skip, s, {1, 2, 3, 4}) ==>
            Decode(skip, d, s + rest, m) == Decode(skip, d, rest, m.(unknown := m.unknown + s)))
      && (Mistyped(s, {2, 3}, {1, 4}) ==> Decode(skip, d, s, m) == Err(WrongWireType))
  {
    hide Decode, IsScalar, IsText, IsOther, Mistyped;
    var d := WipeStatusDesc();
    if IsText(s, 1, p) { TextRecord(skip, d, s, rest, m, 1, p); }
    if IsScalar(s, 2, raw) { ScalarRecord(skip, d, s, rest, m, 2, raw); }
    if IsScalar(s, 3, raw) { ScalarRecord(skip, d, s, rest, m, 3, raw); }
    if IsText(s, 4, p) { TextRecord(skip, d, s, rest, m, 4, p); }
    if IsOther(skip, s, {1, 2, 3, 4}) { OtherRecord(skip, d, s, rest, m, {1, 2, 3, 4}); }
    if Mistyped(s, {2, 3}, {1, 4}) { MistypedRecord(skip, d, s, m, {2, 3}, {1, 4}); }
  }

  /** Each field of the TLS configuration. */
  lemma {:induction false} TLSConfigReads(skip: Skipper, s: seq<byte>, rest: seq<byte>, m: TLSConfig, p: seq<byte>)
    ensures var d := TLSConfigDesc();
      && (IsText(s, 1, p) ==>
            Decode(skip, d, s + rest, m) == Decode(skip, d, rest, m.(f := m.f.(caCert := p))))
      && (IsText(s, 2, p) ==>
            Decode(skip, d, s + rest, m) == Decode(skip, d, rest, m.(f := m.f.(caKey := p))))
      && (IsOther(skip, s, {1, 2}) ==>
            Decode(skip, d, s + rest, m) == Decode(skip, d, rest, m.(unknown := m.unknown + s)))
      && (Mistyped(s, {}, {1, 2}) ==> Decode(skip, d, s, m) == Err(WrongWireType))
  {
    hide Decode, IsScalar, IsText, IsOther, Mistyped;
    var d := TLSConfigDesc();
    if IsText(s, 1, p) { TextRecord(skip, d, s, rest, m, 1, p); }
    if IsText(s, 2, p) { TextRecord(skip, d, s, rest, m, 2, p); }
    if IsOther(skip, s, {1, 2}) { OtherRecord(skip, d, s, rest, m, {1, 2}); }
    if Mistyped(s, {}, {1, 2}) { MistypedRecord(skip, d, s, m, {}, {1, 2}); }
  }

  /** Each field of a reboot status: a timestamp is merged into the one held, an absent one starting at zero. */
  lemma {:induction false} RebootStatusReads<T>(skip: Skipper, tc: TimeCodec<T>, s: seq<byte>, rest: seq<byte>,
                                                m: Msg<RebootStatusFields<T>>, p: seq<byte>)
    ensures var d := RebootStatusDesc(tc);
      && (IsText(s, 1, p) ==>
            Decode(skip, d, s + rest, m) == Decode(skip, d, rest, m.(f := m.f.(lastRebootId := p))))
      && (IsText(s, 2, p) ==>
            var merged := tc.decode(p, if m.f.lastRebootTimestamp.Some? then m.f.lastRebootTimestamp.value
                                    else tc.zero);
            Decode(skip, d, s + rest, m) ==
            if merged.Err? then Err(merged.error)
            else Decode(skip, d, rest, m.(f := m.f.(lastRebootTimestamp := Some(merged.value)))))
      && (IsOther(skip, s, {1, 2}) ==>
            Decode(skip, d, s + rest, m) == Decode(skip, d, rest, m.(unknown := m.unknown + s)))
      && (Mistyped(s, {}, {1, 2}) ==> Decode(skip, d, s, m) == Err(WrongWireType))
  {
    hide Decode, IsScalar, IsText, IsOther, Mistyped;
    var d := RebootStatusDesc(tc);
    if IsText(s, 1, p) { TextRecord(skip, d, s, rest, m, 1, p); }
    if IsText(s, 2, p) { TextRecord(skip, d, s, rest, m, 2, p); }
    if IsOther(skip, s, {1, 2}) { OtherRecord(skip, d, s, rest, m, {1, 2}); }
    if Mistyped(s, {}, {1, 2}) { MistypedRecord(skip, d, s, m, {}, {1, 2}); }
  }

  /** Each field of a power operation. */
  lemma {:induction false} PowerOperationReads<T>(skip: Skipper, tc: TimeCodec<T>, s: seq<byte>, rest: seq<byte>,
                                                  m: Msg<PowerOperationFields<T>>, raw: nat, p: seq<byte>)
    ensures var d := PowerOperationDesc(tc);
      && (IsScalar(s, 1, raw) ==>
            Decode(skip, d, s + rest, m) == Decode(skip, d, rest, m.(f := m.f.(lastPowerOperation := Int32(raw)))))
      && (IsText(s, 2, p) ==>
            var merged := tc.decode(p, if m.f.lastPowerOnTimestamp.Some? then m.f.lastPowerOnTimestamp.value
                                    else tc.zero);
            Decode(skip, d, s + rest, m) ==
            if merged.Err? then Err(merged.error)
            else Decode(skip, d, rest, m.(f := m.f.(lastPowerOnTimestamp := Some(merged.value)))))
      && (IsText(s, 3, p) ==>
            Decode(skip, d, s + rest, m) == Decode(skip, d, rest, m.(f := m.f.(lastPowerOffId := p))))
      && (IsText(s, 4, p) ==>
            Decode(skip, d, s + rest, m) == Decode(skip, d, rest, m.(f := m.f.(wipeIdAtPowerOff := p))))
      && (IsOther(skip, s, {1, 2, 3, 4}) ==>
            Decode(skip, d, s + rest, m) == Decode(skip, d, rest, m.(unknown := m.unknown + s)))
      && (Mistyped(s, {1}, {2, 3, 4}) ==> Decode(skip, d, s, m) == Err(WrongWireType))
  {
    hide Decode, IsScalar, IsText, IsOther, Mistyped;
    var d := PowerOperationDesc(tc);
    if IsScalar(s, 1, raw) { ScalarRecord(skip, d, s, rest, m, 1, raw); }
    if IsText(s, 2, p) { TextRecord(skip, d, s, rest, m, 2, p); }
    if IsText(s, 3, p) { TextRecord(skip, d, s, rest, m, 3, p); }
    if IsText(s, 4, p) { TextRecord(skip, d, s, rest, m, 4, p); }
    if IsOther(skip, s, {1, 2, 3, 4}) { OtherRecord(skip, d, s, rest, m, {1, 2, 3, 4}); }
    if Mistyped(s, {1}, {2, 3, 4}) { MistypedRecord(skip, d, s, m, {1}, {2, 3, 4}); }
  }

  /** Each field of the standard's timestamp. */
  lemma {:induction false} TimestampReads(skip: Skipper, s: seq<byte>, rest: seq<byte>, m: Timestamp, raw: nat)
    ensures var d := TimestampDesc();
      && (IsScalar(s, 1, raw) ==>
            Decode(skip, d, s + rest, m) == Decode(skip, d, rest, m.(f := m.f.(seconds := Int64(raw)))))
      && (IsScalar(s, 2, raw) ==>
            Decode(skip, d, s + rest, m) == Decode(skip, d, rest, m.(f := m.f.(nanos := Int32(raw)))))
      && (IsOther(skip, s, {1, 2}) ==>
            Decode(skip, d, s + rest, m) == Decode(skip, d, rest, m.(unknown := m.unknown + s)))
      && (Mistyped(s, {1, 2}, {}) ==> Decode(skip, d, s, m) == Err(WrongWireType))
  {
    hide Decode, IsScalar, IsText, IsOther, Mistyped;
    var d := TimestampDesc();
    if IsScalar(s, 1, raw) { ScalarRecord(skip, d, s, rest, m, 1, raw); }
    if IsScalar(s, 2, raw) { ScalarRecord(skip, d, s, rest, m, 2, raw); }
    if IsOther(skip, s, {1, 2}) { OtherRecord(skip, d, s, rest, m, {1, 2}); }
    if Mistyped(s, {1, 2}, {}) { MistypedRecord(skip, d, s, m, {1, 2}, {}); }
  }

  // ------------------------------------------------------------------------- what every spec is written as

  /** The records of `s` are known ones under ever higher numbers, from `least` on, and then come the bytes `u`. */
  ghost predicate Ascends(skip: Skipper, kind: int -> Kind, s: seq<byte>, least: int, u: seq<byte>)
    decreases |s|
  {
    s == u ||
    (&& Next(skip, kind, s).Ok?
     && var p := Next(skip, kind, s).value;
        && !p.record.UnknownRecord? && p.record.field >= least
        && Ascends(skip, kind, s[p.size..], p.record.field + 1, u))
  }

  lemma {:induction false} AscendsDone(skip: Skipper, kind: int -> Kind, u: seq<byte>)
    ensures forall least :: Ascends(skip, kind, u, least, u)
  {
  }

  lemma {:induction false} AscendsLess(skip: Skipper, kind: int -> Kind, s: seq<byte>, least: int, less: int,
                                       u: seq<byte>)
    requires Ascends(skip, kind, s, least, u) && less <= least
    ensures Ascends(skip, kind, s, less, u)
  {
  }

  lemma {:induction false} AscendsPast(skip: Skipper, kind: int -> Kind, s: seq<byte>, r: Record, n: nat, least: int,
                                       u: seq<byte>)
    requires n <= |s| && Next(skip, kind, s) == Ok(Parsed(r, n)) && !r.UnknownRecord?
    requires least <= r.field && Ascends(skip, kind, s[n..], r.field + 1, u)
    ensures Ascends(skip, kind, s, least, u)
  {
    hide Next;
  }

  lemma {:induction false} AscendsScalar(skip: Skipper, kind: int -> Kind, field: nat, v: uint64, rest: seq<byte>,
                                         least: int, u: seq<byte>)
    requires 0 < field < 16 && kind(field) == Scalar && least <= field && Ascends(skip, kind, rest, field + 1, u)
    ensures Ascends(skip, kind, PutScalar(field, v) + rest, least, u)
  {
    hide Next, Varbytes, Ascends;
    var s := PutScalar(field, v) + rest;
    if v == 0 {
      assert s == rest;
      AscendsLess(skip, kind, rest, field + 1, least, u);
    } else {
      assert s == [8 * field] + (Varbytes(v) + rest);
      NextScalar(skip, kind, field, v, rest);
      assert s[1 + |Varbytes(v)|..] == rest;
      AscendsPast(skip, kind, s, ScalarField(field, v), 1 + |Varbytes(v)|, least, u);
    }
  }

  lemma {:induction false} AscendsMessage(skip: Skipper, kind: int -> Kind, field: nat, p: seq<byte>, rest: seq<byte>,
                                          least: int, u: seq<byte>)
    requires 0 < field < 16 && kind(field) == Delimited && |p| < TWO63
    requires least <= field && Ascends(skip, kind, rest, field + 1, u)
    ensures Ascends(skip, kind, PutMessage(field, p) + rest, least, u)
  {
    hide Next, Varbytes, Ascends;
    var s, n := PutMessage(field, p) + rest, 1 + |Varbytes(|p|)| + |p|;
    assert s == [8 * field + 2] + (Varbytes(|p|) + (p + rest));
    NextMessage(skip, kind, field, p, rest);
    assert s[n..] == rest;
    AscendsPast(skip, kind, s, DelimitedField(field, p), n, least, u);
  }

  lemma {:induction false} AscendsString(skip: Skipper, kind: int -> Kind, field: nat, p: seq<byte>, rest: seq<byte>,
                                         least: int, u: seq<byte>)
    requires 0 < field < 16 && kind(field) == Delimited && |p| < TWO63
    requires least <= field && Ascends(skip, kind, rest, field + 1, u)
    ensures Ascends(skip, kind, PutString(field, p) + rest, least, u)
  {
    if p == [] {
      assert PutString(field, p) + rest == rest;
      AscendsLess(skip, kind, rest, field + 1, least, u);
    } else {
      AscendsMessage(skip, kind, field, p, rest, least, u);
    }
  }

  /** A nested message is there exactly when it is held. */
  lemma {:induction false} AscendsPart(skip: Skipper, kind: int -> Kind, field: nat, o: Option<seq<byte>>,
                                       rest: seq<byte>, least: int, u: seq<byte>)
    requires 0 < field < 16 && kind(field) == Delimited && (o.Some? ==> |o.value| < TWO63)
    requires least <= field && Ascends(skip, kind, rest, field + 1, u)
    ensures var part := if o.None? then [] else PutMessage(field, o.value);
            Ascends(skip, kind, part + rest, least, u)
  {
    if o.None? {
      assert [] + rest == rest;
      AscendsLess(skip, kind, rest, field + 1, least, u);
    } else {
      AscendsMessage(skip, kind, field, o.value, rest, least, u);
    }
  }

  /** Every spec is written field after field in ascending order, each at most once, with the unknown records at the
      end. */
  lemma {:induction false} IPMIAscends(skip: Skipper, m: IPMI)
    requires |IPMIBytes(m)| < TWO63
    ensures Ascends(skip, IPMIKind, IPMIBytes(m), 1, m.unknown)
  {
    hide Ascends;
    AscendsDone(skip, IPMIKind, m.unknown);
    AscendsString(skip, IPMIKind, 4, m.f.password, m.unknown, 4, m.unknown);
    var t4 := PutString(4, m.f.password) + m.unknown;
    AscendsString(skip, IPMIKind, 3, m.f.username, t4, 3, m.unknown);
    var t3 := PutString(3, m.f.username) + t4;
    AscendsScalar(skip, IPMIKind, 2, m.f.port, t3, 2, m.unknown);
    var t2 := PutScalar(2, m.f.port) + t3;
    AscendsString(skip, IPMIKind, 1, m.f.address, t2, 1, m.unknown);
  }

  lemma {:induction false} APIAscends(skip: Skipper, m: API)
    requires |APIBytes(m)| < TWO63
    ensures Ascends(skip, APIKind, APIBytes(m), 1, m.unknown)
  {
    hide Ascends;
    AscendsDone(skip, APIKind, m.unknown);
    AscendsString(skip, APIKind, 1, m.f.address, m.unknown, 1, m.unknown);
  }

  lemma {:induction false} MachineStatusAscends(skip: Skipper, m: MachineStatus)
    ensures Ascends(skip, MachineStatusKind, MachineStatusBytes(m), 1, m.unknown)
  {
    hide Ascends;
    AscendsDone(skip, MachineStatusKind, m.unknown);
    AscendsScalar(skip, MachineStatusKind, 4, BoolScalar(m.f.initialized), m.unknown, 4, m.unknown);
    var t4 := PutScalar(4, BoolScalar(m.f.initialized)) + m.unknown;
    AscendsLess(skip, MachineStatusKind, t4, 4, 3, m.unknown);
    AscendsScalar(skip, MachineStatusKind, 2, SignExtend(m.f.powerState), t4, 2, m.unknown);
    var t2 := PutScalar(2, SignExtend(m.f.powerState)) + t4;
    AscendsScalar(skip, MachineStatusKind, 1, BoolScalar(m.f.agentAccessible), t2, 1, m.unknown);
  }

  lemma {:induction false} WipeStatusAscends(skip: Skipper, m: WipeStatus)
    requires |WipeStatusBytes(m)| < TWO63
    ensures Ascends(skip, WipeStatusKind, WipeStatusBytes(m), 1, m.unknown)
  {
    hide Ascends;
    AscendsDone(skip, WipeStatusKind, m.unknown);
    AscendsString(skip, WipeStatusKind, 4, m.f.wipedNodeUniqueToken, m.unknown, 4, m.unknown);
    var t4 := PutString(4, m.f.wipedNodeUniqueToken) + m.unknown;
    AscendsScalar(skip, WipeStatusKind, 3, BoolScalar(m.f.initialWipeDone), t4, 3, m.unknown);
    var t3 := PutScalar(3, BoolScalar(m.f.initialWipeDone)) + t4;
    AscendsScalar(skip, WipeStatusKind, 2, m.f.lastWipeInstallEventId, t3, 2, m.unknown);
    var t2 := PutScalar(2, m.f.lastWipeInstallEventId) + t3;
    AscendsString(skip, WipeStatusKind, 1, m.f.lastWipeId, t2, 1, m.unknown);
  }

  lemma {:induction false} TLSConfigAscends(skip: Skipper, m: TLSConfig)
    requires |TLSConfigBytes(m)| < TWO63
    ensures Ascends(skip, TLSConfigKind, TLSConfigBytes(m), 1, m.unknown)
  {
    hide Ascends;
    AscendsDone(skip, TLSConfigKind, m.unknown);
    AscendsString(skip, TLSConfigKind, 2, m.f.caKey, m.unknown, 2, m.unknown);
    var t2 := PutString(2, m.f.caKey) + m.unknown;
    AscendsString(skip, TLSConfigKind, 1, m.f.caCert, t2, 1, m.unknown);
  }

  lemma {:induction false} BMCAscends(skip: Skipper, m: BMCConfiguration)
    requires |BMCBytes(m)| < TWO63
    ensures Ascends(skip, BMCKind, BMCBytes(m), 1, m.unknown)
  {
    hide Ascends, Varbytes, PutString, PutScalar;
    var f, u := m.f, m.unknown;
    AscendsDone(skip, BMCKind, u);
    AscendsPart(skip, BMCKind, 4, if f.manual.None? then None else Some(ManualBytes(f.manual.value)), u, 4, u);
    var t4 := ManualPart(f.manual) + u;
    AscendsScalar(skip, BMCKind, 3, BoolScalar(f.manuallyConfigured), t4, 3, u);
    var t3 := PutScalar(3, BoolScalar(f.manuallyConfigured)) + t4;
    AscendsPart(skip, BMCKind, 2, if f.api.None? then None else Some(APIBytes(f.api.value)), t3, 2, u);
    var t2 := APIPart(f.api) + t3;
    AscendsPart(skip, BMCKind, 1, if f.ipmi.None? then None else Some(IPMIBytes(f.ipmi.value)), t2, 1, u);
  }

  lemma {:induction false} RebootStatusAscends<T>(skip: Skipper, tc: TimeCodec<T>, m: Msg<RebootStatusFields<T>>)
    requires |m.f.lastRebootId| < TWO63 && TimeFits(tc, m.f.lastRebootTimestamp)
    ensures Ascends(skip, RebootStatusKind, RebootStatusBytes(tc, m), 1, m.unknown)
  {
    hide Ascends;
    var o, u := m.f.lastRebootTimestamp, m.unknown;
    AscendsDone(skip, RebootStatusKind, u);
    AscendsPart(skip, RebootStatusKind, 2, if o.None? then None else Some(tc.encode(o.value)), u, 2, u);
    AscendsString(skip, RebootStatusKind, 1, m.f.lastRebootId, TimePart(tc, o) + u, 1, u);
  }

  lemma {:induction false} PowerOperationAscends<T>(skip: Skipper, tc: TimeCodec<T>, m: Msg<PowerOperationFields<T>>)
    requires |m.f.lastPowerOffId| < TWO63 && |m.f.wipeIdAtPowerOff| < TWO63 && TimeFits(tc, m.f.lastPowerOnTimestamp)
    ensures Ascends(skip, PowerOperationKind, PowerOperationBytes(tc, m), 1, m.unknown)
  {
    hide Ascends;
    var o, u := m.f.lastPowerOnTimestamp, m.unknown;
    AscendsDone(skip, PowerOperationKind, u);
    AscendsString(skip, PowerOperationKind, 4, m.f.wipeIdAtPowerOff, u, 4, u);
    var t4 := PutString(4, m.f.wipeIdAtPowerOff) + u;
    AscendsString(skip, PowerOperationKind, 3, m.f.lastPowerOffId, t4, 3, u);
    var t3 := PutString(3, m.f.lastPowerOffId) + t4;
    AscendsPart(skip, PowerOperationKind, 2, if o.None? then None else Some(tc.encode(o.value)), t3, 2, u);
    AscendsScalar(skip, PowerOperationKind, 1, SignExtend(m.f.lastPowerOperation), TimePart(tc, o) + t3, 1, u);
  }

  lemma {:induction false} TimestampAscends(skip: Skipper, m: Timestamp)
    ensures Ascends(skip, TimestampKind, TimestampBytes(m), 1, m.unknown)
  {
    hide Ascends;
    AscendsDone(skip, TimestampKind, m.unknown);
    AscendsScalar(skip, TimestampKind, 2, SignExtend(m.f.nanos), m.unknown, 2, m.unknown);
    var t2 := PutScalar(2, SignExtend(m.f.nanos)) + m.unknown;
    AscendsScalar(skip, TimestampKind, 1, Unsigned(m.f.seconds), t2, 1, m.unknown);
  }
}
