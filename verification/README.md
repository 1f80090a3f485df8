# A verified model of the bare-metal infrastructure provider

The provider drives a bare-metal machine through discovery, BMC configuration, wiping, installation,
reboots and power, for Omni. It does so in several independent reconcile loops over persisted
resources, and serves the machine's own boot requests. This project models its hard core in Dafny and
proves what a reader cannot see in any one loop:

* **The codec of the persisted specs** (`Wire`, `Specs`, `TimedSpecs`, `Fields`, `SpecsCodec`,
  `SkipModel`). The generated methods are classes: buffers filled backwards, parsers that update fields in place. Each is proved
  against a generic record codec, about which concatenation, round trip and stability are proved for
  all messages and all byte strings, whatever record skipper the library provides. `Fields` says what
  every record does to every message, and how every message is laid out.
* **The control loops as one transition system** (`Machine`, `Reconcile`, `System`). A run is any
  sequence of seventeen kinds of event, in any order, with any answers from BMC and agent. Over all
  runs: wipe safety (`WipeSafety`), removal ordering (`RemovalOrder`), reboot spacing (`Cooldown`), the
  power-off latch (`PowerOffLatch`), the BMC configuration's life (`BMCLifecycle`), what is asked of
  which client (`CapabilityDiscipline`), what may be done to which machine (`Permissions`), and
  convergence without reboot loops (`Convergence`, `Reaching`, `Timing`, `ByHand`).
* **Every decision, both ways** (`Decisions`): when a machine boots into what, is wiped, configured,
  rebooted and switched, and over which client, told from Omni's record and the provider's resources.
* **The transforms as they run** (`Controllers`, `Finalizers`, `Polling`, `Projection`). Imperative
  methods on the resources' objects, each proved to do what the transition system's functions say.
* **iPXE binary patching** (`Patch`) and **the renewing certificate provider** (`CertProvider`).

`dafny verify dfyconfig.toml` checks everything.

## What does not hold

Where a property one would expect of the code is false, the code is modelled as it is, a lemma gives
the failing case, and the exact condition is proved.

* A power-off request outlived by its wipe id can come back to life, even with wipe ids never reused:
  when Omni asks for another request and then for the same one again
  (`PowerOffLatch.ReissuedRequestIsHonouredAgain`), and when Omni gives the machine up and takes it back
  while asking for it (`PowerOffLatch.ReturningRevives`). While the machine's outputs are kept, it never does
  exactly when Omni asks for it alone, or not at all (`PowerOffLatch.RetiredExactly`); over all
  continuations, exactly when Omni does not ask for it (`PowerOffLatch.RetiredForGood`).
* An honoured power-off request keeps the power loop from starting a machine, but not the reboot loop:
  where power cycling wakes a machine that is off, a mode mismatch while it is needed, or a pending
  reboot request, starts it (`PowerOffLatch.HonouredYetWoken`; exactly then, `StaysOffUnlessWoken`).
* A machine that is off, is needed in the agent and does not come up from a power cycle can be rebooted
  any number of times, once per interval: there are runs that do, in which the power loop does not get
  to act or, under an honoured power-off request, has nothing to do
  (`Convergence.ConvergesUnlessUnwakeable`, an equivalence).
* Operator credentials that are withdrawn stay behind in a configuration then taken from an agent that
  reports an API only (`BMCLifecycle.WithdrawnCredentialsStay`; exactly then, `InSyncWhenRecorded`).
* The requeue delay of the cooldown overflows when the interval is within a second of the largest
  duration, less what has elapsed (`Cooldown.RequeueIsLongEnough`).
* A message whose unknown fields hold anything but whole records under unknown numbers does not survive
  a write and a read (`Specs.BMCRoundTrip` and its siblings). No decoder produces one.
* The comment at `internal/provider/controllers/infra_machine_status.go:92-93` says that validation is
  not needed; the line above it validates. The code is followed: nothing is reported for a machine that
  is cordoned or not accepted.

## Assumptions

* A reconcile is one atomic step. A transform's output is saved when it returns nil and only then. A
  resource being torn down accepts no new finalizer and is destroyed only without one.
* `BMCConfiguration` goes away only when it is torn down with nobody holding it, and the controllers'
  other outputs together with Omni's record.
* `protohelpers.Skip`, `SizeOfVarint` and `EncodeVarint` are library functions. The latter two are
  written from the Protocol Buffers encoding document; `Skip` is any function with the contract
  `Wire.SkipContract`, and `SkipModel` shows that one exists.
* Calls to the BMC, the agent, the clock, the image factory and the random generator may answer anything
  in the safety results. `Convergence` adds what it says in `Truthful`: answers are true, calls succeed
  where they can, and by the time the reboot interval has passed a machine has come up and been looked
  at (`Timing.BoundedUntimedUnlessExposed` and `ByHand.BoundedByHandUnlessBeckoning` say exactly what the
  last is needed for). The booting machine does what the boot handler tells it; told "not found" instead
  of being sent to its disk, it goes there all the same.
* Slices and inputs are shorter than 2^63 bytes, as Go's are; integer widths, wrap-around, truncation and
  saturation are written out everywhere else.

## Model

| member | source | states |
|---|---|---|
| `Wire.DecodeConcat` | api/specs/specs_vtproto.pb.go:1544-1712 | Concatenation is merge, for every message and every input: decoding a ++ b into a message is decoding a into it and b into the result, errors of b included. |
| `Specs.NestedPiecesMerge` | api/specs/specs_vtproto.pb.go:1599-1604 | The same inside a record: a nested message sent in two pieces decodes as the concatenated piece does. |
| `Specs.BMCRoundTrip` | api/specs/specs_vtproto.pb.go:621-674 | A BMC configuration survives writing and reading if and only if the unknown fields at every level are whole records under numbers that level does not know. |
| `Specs.BMCStable` | api/specs/specs_vtproto.pb.go:1541-1718 | Whatever bytes decode to a BMC configuration (non-canonical varints, empty and repeated nested messages, kept unknown records), decoding its re-encoding gives the same configuration, for every input of Go's sizes. |
| `Specs.WipeStatusRoundTrip` | api/specs/specs_vtproto.pb.go:752-794 | A wipe status survives writing and reading if and only if its unknown fields are whole records under unknown numbers. |
| `Specs.WipeStatusStable` | api/specs/specs_vtproto.pb.go:1830-1982 | decode-encode-decode equals decode for every byte string that decodes. |
| `Specs.MachineStatusRoundTrip` | api/specs/specs_vtproto.pb.go:694-732 | The same equivalence for the machine status, its power state going through sign extension and 32-bit truncation. |
| `Specs.MachineStatusStable` | api/specs/specs_vtproto.pb.go:1720-1829 | decode-encode-decode equals decode, over-long power states included. |
| `Specs.TLSConfigRoundTrip` | api/specs/specs_vtproto.pb.go:864-891 | The same equivalence for the TLS configuration. |
| `Specs.TLSConfigStable` | api/specs/specs_vtproto.pb.go:2103-2217 | decode-encode-decode equals decode. |
| `TimedSpecs.RebootStatusRoundTrip` | api/specs/specs_vtproto.pb.go:814-844 | A reboot status survives a write and a read exactly when its timestamp survives its own codec and its unknown fields are whole records under unknown numbers. |
| `TimedSpecs.RebootStatusStable` | api/specs/specs_vtproto.pb.go:1984-2102 | decode-encode-decode equals decode, for every timestamp codec that does so much itself. |
| `TimedSpecs.PowerOperationRoundTrip` | api/specs/specs_vtproto.pb.go:427-469 | The same equivalence for a power operation. |
| `TimedSpecs.PowerOperationStable` | api/specs/specs_vtproto.pb.go:1071-1240 | decode-encode-decode equals decode, likewise. |
| `TimedSpecs.RebootStatusStableInTime` | api/specs/specs_vtproto.pb.go:1984-2102 | With the standard's timestamps: whatever bytes of Go's sizes (less 22) decode to a reboot status decode to the same one once written back. |
| `TimedSpecs.PowerOperationStableInTime` | api/specs/specs_vtproto.pb.go:1071-1240 | The same for a power operation. |
| `TimedSpecs.RebootStatusEncodes` | api/specs/specs_vtproto.pb.go:814-844 | Written and read, a reboot status comes back with its timestamp as the timestamp's codec gives it back, or fails where that does. |
| `TimedSpecs.PowerOperationEncodes` | api/specs/specs_vtproto.pb.go:427-469 | The same for a power operation. |
| `TimedSpecs.StandardTimestampsAreLawful` | api/specs/specs_vtproto.pb.go:1118-1154 | A timestamp codec with the laws asked for exists: the standard's. |
| `Wire.DecodeKeepsUnknown` | api/specs/specs_vtproto.pb.go:1962-1976 | Decoding only ever appends whole records under unknown numbers to the unknown fields. |
| `Wire.DecodeOnlyUnknown` | api/specs/specs_vtproto.pb.go:1962-1976 | Bytes that are whole unknown records decode into the unknown fields verbatim and in order, and touch nothing else. |
| `Wire.DecodeSplits` | api/specs/specs_vtproto.pb.go:1833-1977 | Input that decodes is a whole number of records: it can be cut after the first, and both parts decode. |
| `Wire.NextLocal` | api/specs/specs_vtproto.pb.go:1833-1977 | A record parses the same whatever follows the bytes it consumed. |
| `Specs.BMCDecodeKeepsValid` | api/specs/specs_vtproto.pb.go:1544-1712 | Decoding keeps the unknown fields whole at every level of nesting. |
| `Wire.ScanVarbytes` | api/specs/specs_vtproto.pb.go:1836-1849 | Read-after-write for varints, whatever follows and however many groups went before. |
| `Wire.Uint64Fits` | api/specs/specs_vtproto.pb.go:1836-1849 | Every 64-bit value is written in at most the ten groups the decoder accepts. |
| `Wire.ScanLocal` | api/specs/specs_vtproto.pb.go:1836-1849 | A varint's value depends only on the bytes it consumed. |
| `Specs.WidthsReadBack` | api/specs/specs_vtproto.pb.go:1306-1320 | Truncating to 32 or 64 bits, sign extension and the non-zero test give back what was written at each width. |
| `Specs.BMCEncodes` | api/specs/specs_vtproto.pb.go:621-674 | The fields of a BMC configuration, written in order, decode one after the other to the configuration. |
| `Specs.IPMIEncodes` | api/specs/specs_vtproto.pb.go:489-528 | The same for the nested IPMI message. |
| `SkipModel.StandardSkipMeetsContract` | api/specs/specs_vtproto.pb.go:1964-1973 | A record skipper written from the encoding document meets the contract asked of the library's, so the results for all such skippers are not empty. |
| `SkipModel.SkipStopsAtRecordEnd` | api/specs/specs_vtproto.pb.go:1964-1973 | Skipping passes over a whole record, groups included, and stops right after it whatever follows. |
| `SpecsCodec.ReadVarint` | api/specs/specs_vtproto.pb.go:1836-1849 | The shift-and-accumulate loop reads the varint reduced to the field's width, or fails as the format does; it never indexes past the slice. |
| `SpecsCodec.ReadHeader` | api/specs/specs_vtproto.pb.go:1836-1857 | Field number (truncated to 32 bits) and wire type of the next record; rejects end-group tags and field numbers that are not positive. |
| `SpecsCodec.ReadLength` | api/specs/specs_vtproto.pb.go:1863-1890 | The payload's bounds in wrapping 64-bit arithmetic: the sign checks and the end check together admit exactly the payloads that lie in the slice. |
| `SpecsCodec.ReadBytesField` | api/specs/specs_vtproto.pb.go:1859-1890 | A length-delimited field is read exactly when the next record is one, and advances past exactly it. |
| `SpecsCodec.ReadScalarField` | api/specs/specs_vtproto.pb.go:1891-1909 | A varint field is read exactly when the next record is one, and advances past exactly it. |
| `SpecsCodec.SkipRecord` | api/specs/specs_vtproto.pb.go:1962-1975 | An unknown record's extent runs from its tag, and a skip past the end of the slice is an error. |
| `SpecsCodec.EncodeVarint` | api/specs/specs_vtproto.pb.go:767-768 | Writes the canonical varint right before an offset and touches nothing else. |
| `SpecsCodec.SizeOfVarint` | api/specs/specs_vtproto.pb.go:1019-1022 | The size computed is the size written. |
| `SpecsCodec.OrStep` | api/specs/specs_vtproto.pb.go:1845 | Accumulating by `|=` is addition: what was read lies below the shift, the shifted group, reduced to the field's width, at or above it. |
| `SpecsCodec.Accumulates` | api/specs/specs_vtproto.pb.go:1316 | So, at 32 and at 64 bits, or-ing in the k-th group of a varint adds its share of the value, and the sum stays below the next group's. |
| `SpecsCodec.OrIsSum` | api/specs/specs_vtproto.pb.go:1845 | Numbers below and from a bit on have no bit in common, so their or is their sum. |
| `Specs.BMCNeverGrows` | api/specs/specs_vtproto.pb.go:621-674 | Re-encoding a decoded BMC configuration is never longer than what it was decoded from, nested and merged messages included. |
| `Specs.WipeStatusNeverGrows` | api/specs/specs_vtproto.pb.go:752-794 | The same for the wipe status. |
| `Specs.TLSConfigNeverGrows` | api/specs/specs_vtproto.pb.go:864-891 | The same for the TLS configuration. |
| `Wire.DecodeIsFrugal` | api/specs/specs_vtproto.pb.go:1833-1977 | A decoded message is no larger than its input and what was there before, when no known record adds more than it takes. |
| `Wire.CanonicalIsShortest` | api/specs/specs_vtproto.pb.go:1836-1849 | The varint written for a value is as short as any that reads as it. |
| `SpecsCodec.IPMISpec.UnmarshalVT` | api/specs/specs_vtproto.pb.go:1241-1406 | Ends for every input of Go's sizes, reads nothing outside it, and either fails with the decoding's error or leaves in the IPMI message exactly what decoding all of the input into its old content gives. |
| `SpecsCodec.IPMISpec.MarshalToSizedBufferVT` | api/specs/specs_vtproto.pb.go:489-528 | Given room, writes exactly the encoding right before the end of the buffer it is handed, cursor ending at the encoding's start, and changes no other byte. |
| `SpecsCodec.IPMISpec.SizeVT` | api/specs/specs_vtproto.pb.go:918-941 | The size is that of the encoding. |
| `SpecsCodec.IPMISpec.EqualVT` | api/specs/specs_vtproto.pb.go:221-240 | Equal exactly when both are absent, or both are present with the same fields and unknown fields. |
| `SpecsCodec.APISpec.UnmarshalVT` | api/specs/specs_vtproto.pb.go:1407-1489 | Ends for every input of Go's sizes, reads nothing outside it, and either fails with the decoding's error or leaves in the API message exactly what decoding all of the input into its old content gives. |
| `SpecsCodec.APISpec.MarshalToSizedBufferVT` | api/specs/specs_vtproto.pb.go:548-568 | Given room, writes exactly the encoding right before the end of the buffer it is handed, cursor ending at the encoding's start, and changes no other byte. |
| `SpecsCodec.APISpec.SizeVT` | api/specs/specs_vtproto.pb.go:943-955 | The size is that of the encoding. |
| `SpecsCodec.APISpec.EqualVT` | api/specs/specs_vtproto.pb.go:249-259 | Equal exactly when both are absent, or both are present with the same fields and unknown fields. |
| `SpecsCodec.ManualSpec.UnmarshalVT` | api/specs/specs_vtproto.pb.go:1490-1540 | Ends for every input of Go's sizes, reads nothing outside it, and either fails with the decoding's error or leaves in the manual message exactly what decoding all of the input into its old content gives. |
| `SpecsCodec.ManualSpec.MarshalToSizedBufferVT` | api/specs/specs_vtproto.pb.go:588-601 | Given room, writes exactly the encoding right before the end of the buffer it is handed, cursor ending at the encoding's start, and changes no other byte. |
| `SpecsCodec.ManualSpec.SizeVT` | api/specs/specs_vtproto.pb.go:957-965 | The size is that of the encoding. |
| `SpecsCodec.ManualSpec.EqualVT` | api/specs/specs_vtproto.pb.go:268-275 | Equal exactly when both are absent, or both are present with the same fields and unknown fields. |
| `SpecsCodec.MachineStatusSpec.UnmarshalVT` | api/specs/specs_vtproto.pb.go:1720-1829 | Ends for every input of Go's sizes, reads nothing outside it, and either fails with the decoding's error or leaves in the machine status message exactly what decoding all of the input into its old content gives. |
| `SpecsCodec.MachineStatusSpec.MarshalToSizedBufferVT` | api/specs/specs_vtproto.pb.go:694-732 | Given room, writes exactly the encoding right before the end of the buffer it is handed, cursor ending at the encoding's start, and changes no other byte. |
| `SpecsCodec.MachineStatusSpec.SizeVT` | api/specs/specs_vtproto.pb.go:992-1009 | The size is that of the encoding. |
| `SpecsCodec.MachineStatusSpec.MarshalVT` | api/specs/specs_vtproto.pb.go:676-687 | A buffer of the computed size is filled from its very first byte: the result is the encoding. |
| `SpecsCodec.MachineStatusSpec.MarshalToVT` | api/specs/specs_vtproto.pb.go:689-692 | On a longer buffer, exactly the leading encoding's worth of bytes is written. |
| `SpecsCodec.MachineStatusSpec.EqualVT` | api/specs/specs_vtproto.pb.go:312-328 | Equal exactly when both are absent, or both are present with the same fields and unknown fields. |
| `SpecsCodec.WipeStatusSpec.UnmarshalVT` | api/specs/specs_vtproto.pb.go:1830-1983 | Ends for every input of Go's sizes, reads nothing outside it, and either fails with the decoding's error or leaves in the wipe status message exactly what decoding all of the input into its old content gives. |
| `SpecsCodec.WipeStatusSpec.MarshalToSizedBufferVT` | api/specs/specs_vtproto.pb.go:752-794 | Given room, writes exactly the encoding right before the end of the buffer it is handed, cursor ending at the encoding's start, and changes no other byte. |
| `SpecsCodec.WipeStatusSpec.SizeVT` | api/specs/specs_vtproto.pb.go:1011-1033 | The size is that of the encoding. |
| `SpecsCodec.WipeStatusSpec.MarshalVT` | api/specs/specs_vtproto.pb.go:734-745 | A buffer of the computed size is filled from its very first byte: the result is the encoding. |
| `SpecsCodec.WipeStatusSpec.MarshalToVT` | api/specs/specs_vtproto.pb.go:747-750 | On a longer buffer, exactly the leading encoding's worth of bytes is written. |
| `SpecsCodec.WipeStatusSpec.EqualVT` | api/specs/specs_vtproto.pb.go:337-356 | Equal exactly when both are absent, or both are present with the same fields and unknown fields. |
| `SpecsCodec.TLSConfigSpec.UnmarshalVT` | api/specs/specs_vtproto.pb.go:2103-2217 | Ends for every input of Go's sizes, reads nothing outside it, and either fails with the decoding's error or leaves in the TLS configuration message exactly what decoding all of the input into its old content gives. |
| `SpecsCodec.TLSConfigSpec.MarshalToSizedBufferVT` | api/specs/specs_vtproto.pb.go:864-891 | Given room, writes exactly the encoding right before the end of the buffer it is handed, cursor ending at the encoding's start, and changes no other byte. |
| `SpecsCodec.TLSConfigSpec.SizeVT` | api/specs/specs_vtproto.pb.go:1053-1069 | The size is that of the encoding. |
| `SpecsCodec.TLSConfigSpec.MarshalVT` | api/specs/specs_vtproto.pb.go:846-857 | A buffer of the computed size is filled from its very first byte: the result is the encoding. |
| `SpecsCodec.TLSConfigSpec.MarshalToVT` | api/specs/specs_vtproto.pb.go:859-862 | On a longer buffer, exactly the leading encoding's worth of bytes is written. |
| `SpecsCodec.TLSConfigSpec.EqualVT` | api/specs/specs_vtproto.pb.go:387-400 | Equal exactly when both are absent, or both are present with the same fields and unknown fields. |
| `SpecsCodec.BMCConfigurationSpec.UnmarshalVT` | api/specs/specs_vtproto.pb.go:1541-1719 | Ends for every input of Go's sizes, reads nothing outside it, and either fails with the decoding's error or leaves in the BMC configuration message exactly what decoding all of the input into its old content gives. |
| `SpecsCodec.BMCConfigurationSpec.MarshalToSizedBufferVT` | api/specs/specs_vtproto.pb.go:621-674 | Given room, writes exactly the encoding right before the end of the buffer it is handed, cursor ending at the encoding's start, and changes no other byte. |
| `SpecsCodec.BMCConfigurationSpec.SizeVT` | api/specs/specs_vtproto.pb.go:967-990 | The size is that of the encoding. |
| `SpecsCodec.BMCConfigurationSpec.MarshalVT` | api/specs/specs_vtproto.pb.go:603-614 | A buffer of the computed size is filled from its very first byte: the result is the encoding. |
| `SpecsCodec.BMCConfigurationSpec.MarshalToVT` | api/specs/specs_vtproto.pb.go:616-619 | On a longer buffer, exactly the leading encoding's worth of bytes is written. |
| `SpecsCodec.BMCConfigurationSpec.EqualVT` | api/specs/specs_vtproto.pb.go:284-303 | Equal exactly when both are absent, or both are present with the same fields and unknown fields. |
| `SpecsCodec.BMCConfigurationSpec.MergeIPMI` | api/specs/specs_vtproto.pb.go:1599-1605 | A nested record is decoded into the message already there, or into a fresh one. |
| `SpecsCodec.BMCConfigurationSpec.MergeAPI` | api/specs/specs_vtproto.pb.go:1635-1641 | The same for the API message. |
| `SpecsCodec.BMCConfigurationSpec.MergeManual` | api/specs/specs_vtproto.pb.go:1691-1697 | The same for the manual message. |
| `SpecsCodec.BMCConfigurationSpec.MarshalIPMI` | api/specs/specs_vtproto.pb.go:663-672 | A nested message is written into the prefix of the same buffer, its length and tag in front of it. |
| `SpecsCodec.BMCConfigurationSpec.MarshalAPI` | api/specs/specs_vtproto.pb.go:653-662 | The same for the API message. |
| `SpecsCodec.BMCConfigurationSpec.MarshalManual` | api/specs/specs_vtproto.pb.go:633-642 | The same for the manual message. |
| `SpecsCodec.BMCConfigurationSpec.UnmarshalIPMI` | api/specs/specs_vtproto.pb.go:1570-1605 | A turn on an IPMI record consumes it, merges it, and leaves the rest of the decoding where it was, or fails as the decoding does. |
| `SpecsCodec.BMCConfigurationSpec.UnmarshalAPI` | api/specs/specs_vtproto.pb.go:1606-1641 | The same for an API record. |
| `SpecsCodec.BMCConfigurationSpec.UnmarshalFlag` | api/specs/specs_vtproto.pb.go:1642-1661 | The same for the flag. |
| `SpecsCodec.BMCConfigurationSpec.UnmarshalManual` | api/specs/specs_vtproto.pb.go:1662-1697 | The same for a manual record. |
| `SpecsCodec.BMCConfigurationSpec.UnmarshalUnknown` | api/specs/specs_vtproto.pb.go:1698-1711 | The same for a record under an unknown number, kept verbatim. |
| `SpecsCodec.BMCConfigurationSpec.UnmarshalRecord` | api/specs/specs_vtproto.pb.go:1544-1718 | Each turn consumes at least one byte and leaves the rest of the decoding where it was. |
| `Machine.TalosOnlyAfterWipe` | internal/provider/machine/machine.go:80-125 | A machine is sent to Talos exactly when it is rejected, or is recorded, staying, accepted, allocated, configured, and wiped for the wipe id it carries now. |
| `Machine.CapabilitiesAllOrNothing` | internal/provider/bmc/bmc.go:84-128 | Every client can do everything or nothing, and nothing exactly when the machine is manually powered. |
| `Controllers.PowerOperationSpec.Transform` | internal/provider/controllers/power_operation.go:97-207 | The power transform's fields, calls in order and return, for every answer its calls may get, and with the cooldown's clock apart from the one a power-on is stamped with; they are what the run properties are about. |
| `Controllers.PowerOperationSpec.Switch` | internal/provider/controllers/power_operation.go:161-206 | The three-way switch: power on, power off after the cooldown, or nothing. |
| `Controllers.RebootStatusSpec.Transform` | internal/provider/controllers/reboot_status.go:121-173 | The reboot transform's fields, calls and return. |
| `Controllers.DoReboot` | internal/provider/controllers/reboot_status.go:237-261 | Cools down, reboots, and records the request and the time only when the reboot was sent. |
| `Controllers.DoRebootOverAnyChannel` | internal/provider/controllers/reboot_status.go:270-301 | The BMC where it can reboot, else an accessible agent, else nothing. |
| `Controllers.DoAttemptRebootOnRemoval` | internal/provider/controllers/reboot_status.go:204-235 | The parting reboot, of a machine whose agent is not accessible. |
| `Controllers.TransformWipeStatus` | internal/provider/controllers/wipe_status.go:55-102 | Wipes only what needs wiping and can be reached, and then records the wipe id, install event and token of that moment. |
| `Controllers.TransformBMCConfiguration` | internal/provider/controllers/bmc_configuration.go:78-178 | Every path of the BMC configuration transform, failures half-way included. |
| `Controllers.RecordFromAgent` | internal/provider/controllers/bmc_configuration.go:147-178 | Credentials go to the agent first and into the configuration after; an unreadable API address fails in between. |
| `Controllers.EnsurePowerManagementOnAgent` | internal/provider/controllers/bmc_configuration.go:277-314 | The password returned is the one the agent accepted. |
| `Controllers.StoreUserProvidedBMCConfig` | internal/provider/controllers/bmc_configuration.go:231-275 | What the operator mentions replaces what was there; manual power ends. |
| `Controllers.GenerateIPMIPassword` | internal/provider/controllers/bmc_configuration.go:319-331 | Sixteen characters, each the drawn one of the alphabet; none exactly when a draw failed. |
| `Finalizers.TakeFinalizers` | internal/provider/controllers/reboot_status.go:89-109 | Takes a finalizer on each resource present; fails on one that is torn down without it. |
| `Finalizers.FinalizerRemoval` | internal/provider/controllers/reboot_status.go:175-202 | When a finalizer comes off, the reboot attempt's calls have all been made; the machine status's comes off before the BMC configuration's; a removal that fails keeps what is left. |
| `Finalizers.ReconcileTearingDown` | internal/provider/controllers/machine_status.go:133-175 | Marks the machine status, destroys it only when nobody holds it, and lets the machine go exactly when it is gone. |
| `Polling.PollOne` | internal/provider/controllers/machine_status.go:269-312 | A poll's power state and agent accessibility, written unless the status is going away or cannot be written. |
| `Polling.PollTells` | internal/provider/controllers/machine_status.go:269-300 | Off is never accessible; a manually powered machine is on exactly when its agent answers and never off; any other is on or off exactly as its client says. |
| `Polling.GetPowerState` | internal/provider/controllers/machine_status.go:314-334 | On, off, or unknown exactly when there is no client or no answer. |
| `Polling.PollAll` | internal/provider/controllers/machine_status.go:209-267 | Each status is updated from its own machine's poll, whichever others fail or are skipped, and the counters count what was found. |
| `Polling.CountersAddUp` | internal/provider/controllers/machine_status.go:234-263 | Every polled machine counts once on each scale, and one that is off never counts as connected. |
| `Polling.HandleAgentConnectionEvent` | internal/provider/controllers/machine_status.go:195-207 | Only the accessibility changes, and only on a status that stays. |
| `Polling.HandlePXEBootEvent` | internal/provider/controllers/machine_status.go:355-391 | The first boot request marks the machine discovered and polls it; a later one changes nothing; a mark that cannot be written ends it. |
| `System.Frame` | internal/provider/controllers/reboot_status.go:55-72 | What each step may touch: every resource has one writer, time does not go back, history is only added to. |
| `WipeSafety.WipeSafety` | internal/provider/machine/machine.go:55-125 | In every run, the wipe status is the record of the last successful wipe, and every boot answered with Talos, over the network or from disk by any of the three methods, was of a machine whose last wipe was for its wipe id of that moment. |
| `WipeSafety.SafeBoot` | internal/provider/ipxe/handler.go:227-293 | The boot handler's answer keeps that. |
| `WipeSafety.SafeWipe` | internal/provider/controllers/wipe_status.go:76-96 | The wipe transform keeps that. |
| `WipeSafety.InstalledIffSeenSinceWipe` | internal/provider/machine/machine.go:39-52 | With install event ids that do not go back, a wiped machine counts as installed exactly when an install was reported after its last wipe. |
| `WipeSafety.TalosIsWarranted` | internal/provider/ipxe/handler.go:241-290 | In every run with ascending install ids, an answer that boots Talos goes to an accepted, not cordoned, staying, allocated machine, and is its disk, the configured way, if and only if an install was reported after the last wipe and the network is not forced; otherwise the network, in the allocated version. |
| `WipeSafety.WipeSettles` | internal/provider/controllers/wipe_status.go:88-101 | After a saved wipe the machine is wiped, not installed, carries the token of that moment, and is not wiped again for the same wish. |
| `RemovalOrder.KeptInRun` | internal/provider/controllers/reboot_status.go:94-109 | In every run, nothing the reboot controller has taken a finalizer on is destroyed before its removal attempt, and that attempt finds it. |
| `RemovalOrder.AttemptBeforeDestruction` | internal/provider/controllers/reboot_status.go:175-202 | So between a finalizer taken and a destruction there is always an attempt, in every interleaving with both teardowns. |
| `RemovalOrder.KeptTeardown` | internal/provider/controllers/machine_status.go:133-175 | Neither teardown destroys what is still held. |
| `Cooldown.CoolInRun` | internal/provider/controllers/reboot_status.go:241-258 | In every run, every reboot the transform sends and every power-off comes at least the interval after the latest recorded reboot and power-on, and the statuses are no older than what they record. |
| `Cooldown.RebootsAreSpaced` | internal/provider/controllers/reboot_status.go:241-258 | So recorded reboots i to j of a machine take at least (j - i) intervals, which bounds the reboots in a window. |
| `Cooldown.ElapsedIsReal` | internal/provider/controllers/controllers.go:65-80 | With the saturating time difference, an elapsed time that passes the check is a real one. |
| `Cooldown.RequeueIsLongEnough` | internal/provider/controllers/reboot_status.go:241-247 | The requeue delay is positive and outlasts the cooldown exactly when it does not overflow 64 bits. |
| `Cooldown.PartingRebootNeverWaits` | internal/provider/controllers/reboot_status.go:227-232 | The parting reboot is never held back by the cooldown. |
| `Cooldown.PowerChecks` | internal/provider/controllers/power_operation.go:187-201 | A power-off passed the check, and only a power-on renews the power-on time. |
| `Cooldown.OperationIsRecorded` | internal/provider/controllers/power_operation.go:185-205 | The power operation recorded is the last one sent, and only a successful one is recorded. |
| `Cooldown.RebootChecks` | internal/provider/controllers/reboot_status.go:137-173 | A reboot passed the check, and a saved one is stamped after it was sent. |
| `PowerOffLatch.LatchHolds` | internal/provider/controllers/power_operation.go:128-139 | While Omni asks for one request under one wipe id and nothing else is acknowledged, no step of any run sends a power-on, the machine's leaving and coming back included; and while the statuses are kept, the request stays acknowledged. |
| `PowerOffLatch.StaysOffUnlessWoken` | internal/provider/controllers/reboot_status.go:137-172 | A machine that is off then stays off through a run if and only if no step wakes it: no person, and, where power cycling wakes, no reboot over its BMC for a mode mismatch while it is needed, for a pending request past the cooldown, or as the farewell. |
| `PowerOffLatch.OffStep` | internal/provider/controllers/reboot_status.go:137-172 | One step under an honoured request starts the machine exactly when it is such a wake, told from the state before it. |
| `PowerOffLatch.HonouredYetWoken` | internal/provider/controllers/reboot_status.go:162-170 | Such a wake exists: a machine that is off under an honoured request, with a reboot asked for, comes up with the next reboot reconcile, the request still latched. |
| `PowerOffLatch.CyclesExactly` | internal/provider/controllers/reboot_status.go:237-301 | A reboot goes out over the BMC exactly when the cooldown is over and the BMC is reachable and does what it is asked. |
| `PowerOffLatch.RetiredExactly` | internal/provider/machine/machine.go:144-154 | While the machine stays and its statuses are kept: acknowledged under a wipe id that Omni has left for good, a request is never honoured again, in no run with Omni asking from a given set of requests, if and only if it is not in that set, or nothing else but no request is. |
| `PowerOffLatch.RetiredForGood` | internal/provider/machine/machine.go:144-154 | Over all continuations, the machine's leaving and coming back included, and from every state: such a request is never honoured again if and only if Omni does not ask for it. |
| `PowerOffLatch.ReturningRevives` | internal/provider/controllers/power_operation.go:128-137 | The run that shows it: asked for alone, under fresh wipe ids, a request is honoured again when Omni gives the machine up and takes it back, what was acknowledged being gone with its status. |
| `PowerOffLatch.NeverHonouredAgain` | internal/provider/machine/machine.go:144-154 | The first half, for every machine: not asked for, such a request is never honoured again in any continuation; asked for alone, it is not while the machine stays and its statuses are kept. |
| `PowerOffLatch.StaleUnlessReacknowledged` | internal/provider/machine/machine.go:144-154 | Run by run, over every continuation: once the wipe id has left and never returns, the request is honoured again if and only if some power reconcile finds Omni asking for it while another, or none, is the one acknowledged last, and gets far enough to save. |
| `PowerOffLatch.TakingUpSaves` | internal/provider/controllers/power_operation.go:128-137 | Taking up a new request is saved exactly when the machine is admitted, its BMC answers, and it need not be switched off or can be. |
| `PowerOffLatch.ReissuedRequestIsHonouredAgain` | internal/provider/controllers/power_operation.go:133-137 | The run that brings a request back: acknowledged under one wipe id, it is honoured under another once Omni has asked for a second request and then for it again. |
| `PowerOffLatch.UnhonouredRequestPowersOn` | internal/provider/controllers/power_operation.go:171-186 | A needed machine that is off is powered on exactly when it is not asked to be off, or the request was acknowledged under another wipe id. |
| `PowerOffLatch.OnlyPowerLoopPowersOn` | internal/provider/controllers/power_operation.go:171-186 | No other loop sends a power-on. |
| `BMCLifecycle.OperatorEndsManualPower` | internal/provider/controllers/bmc_configuration.go:231-244 | In every run, an operator-provided configuration is never also a manually powered one, and every stored configuration says where it came from. |
| `BMCLifecycle.DerivedIsFinal` | internal/provider/controllers/bmc_configuration.go:109-117 | From any state and in every run without operator configuration, an agent-derived configuration stays as it is until it is destroyed. |
| `BMCLifecycle.PasswordIsOnTheMachine` | internal/provider/controllers/bmc_configuration.go:119-178 | In every run without operator credentials, a stored IPMI password is the one last set on the machine, whatever attempts failed half-way. |
| `BMCLifecycle.InSyncWhenRecorded` | internal/provider/controllers/bmc_configuration.go:145-178 | A recorded agent-derived configuration is in sync with the machine exactly when the agent reports IPMI or what was held already was in sync. |
| `BMCLifecycle.WithdrawnCredentialsStay` | internal/provider/controllers/bmc_configuration.go:109-178 | With operator credentials withdrawn and an agent that reports an API only, they stay in a configuration that claims to be the agent's. |
| `BMCLifecycle.DerivedAsReported` | internal/provider/controllers/bmc_configuration.go:145-178 | A configuration derived from the agent holds its report, the provider's user name and the password it accepted, and makes a client that can do everything. |
| `BMCLifecycle.OperatorIsObeyed` | internal/provider/controllers/bmc_configuration.go:231-275 | What the operator gives is what is stored, what is left out stays, no manual client results, and storing it twice is storing it once. |
| `CapabilityDiscipline.RunsAreDisciplined` | internal/provider/controllers/power_operation.go:157-183 | In every run, no call is made on a client without the capability, and every start under a network boot mode comes right after the same client's successful network boot setting, in the same reconcile. |
| `CapabilityDiscipline.StepIsDisciplined` | internal/provider/controllers/reboot_status.go:280-300 | From any state, a step's starts want the network exactly when the required boot mode of that moment does. |
| `CapabilityDiscipline.PowerIsDisciplined` | internal/provider/controllers/power_operation.go:161-183 | The same for one power transform. |
| `CapabilityDiscipline.RebootIsDisciplined` | internal/provider/controllers/reboot_status.go:137-173 | The same for one reboot transform and for the parting reboot. |
| `CapabilityDiscipline.PollIsDisciplined` | internal/provider/controllers/machine_status.go:278-287 | A poll asks only clients that know the power state. |
| `Convergence.ConvergesUnlessUnwakeable` | internal/provider/controllers/reboot_status.go:137-172 | From a machine just accepted, configured or not, on: with Omni's and the operator's wishes fixed and truthful, timely answers, every interleaving reboots it at most twice and switches its power at most three times, if and only if it is not off, needed in the agent, with a BMC to reach it over, or the operator's about to be stored, and not woken by a power cycle; otherwise runs with any number of reboots exist. (Timing.BoundedUntimedUnlessExposed says what is left without the timing.) |
| `Convergence.HandlerAgrees` | internal/provider/provider.go:215-218 | What the boot handler sends an accepted machine into is never what the reboot loop would reboot it out of. |
| `Convergence.SpendRun` | internal/provider/machine/machine.go:80-139 | Two measures, of reboots and of power switches left, pay for every one that happens. |
| `Convergence.RestIsGoal` | internal/provider/controllers/power_operation.go:170-204 | Looked at and past its cooldown, a machine with a BMC is one that none of wipe, reboot and power has anything to do for if and only if it is wiped, rebooted as asked, running what is required if it is needed, and otherwise powered as preferred or held off. |
| `Convergence.CycleKeepsLooping` | internal/provider/controllers/reboot_status.go:147-164 | The exception's cycle: a mismatch that is told again after every reboot is rebooted for again, and a machine that stays off does not answer. |
| `Timing.TimingMatters` | internal/provider/controllers/reboot_status.go:147-164 | Without the timing assumption there is no bound: from any mismatch that has been told and is not looked at again, runs of truthful answers reboot any number of times. |
| `Timing.BoundedUntimedUnlessExposed` | internal/provider/controllers/reboot_status.go:137-172 | The timing assumption, exactly: without it, a machine with a BMC is still rebooted at most twice in every run, in fact only for the reboot asked for, if and only if it is not exposed: no mismatch has been told, looking would not find one, and no reboot that was asked for or wipe that is due brings one about; otherwise runs with any number of reboots exist. |
| `Timing.UntimedReason` | internal/provider/controllers/reboot_status.go:137-172 | With no mismatch told, only a reboot that was asked for is sent. |
| `Timing.QuietIsNotRebooted` | internal/provider/controllers/reboot_status.go:137-172 | Whatever its BMC configuration is or becomes, a machine to which no mismatch can come to be told, and with no reboot pending, is not rebooted in any untimed run. |
| `ByHand.BoundedByHandUnlessBeckoning` | internal/provider/controllers/reboot_status.go:280-300 | For a machine that stays manually powered, the untimed bound on reboots, failed ones included, holds if and only if its agent is not, and cannot come to be, told to be there when it has gone while there is a reason to reboot; otherwise it is called any number of times. |
| `ByHand.AsksTheAgent` | internal/provider/controllers/reboot_status.go:270-300 | A manually powered machine's agent is asked whenever it is told to be accessible and a reboot is pending or the machine is wanted in Talos, and the outcome is recorded only if it was there. |
| `Convergence.GoalLasts` | internal/provider/controllers/power_operation.go:170-204 | Where Omni wants it, a machine stays: no truthful, timely run from there reboots it or switches its power again, held off or not, and all its states are where Omni wants it. |
| `Reaching.ReachesGoal` | internal/provider/controllers/power_operation.go:170-204 | From every state that converges and has a BMC, a truthful and timely run leads where Omni wants the machine. |
| `Reaching.BoundsAreMet` | internal/provider/controllers/reboot_status.go:137-172 | Two reboots and three switches are the best bounds: machines exist that take exactly so many. |
| `Reaching.TwoReboots` | internal/provider/controllers/reboot_status.go:137-172 | Every allocated machine that needs wiping and is not in the agent has a run of exactly two reboots, into the agent and out of it. |
| `Reaching.ThreeSwitches` | internal/provider/controllers/power_operation.go:170-204 | Every unused machine that needs wiping, is off, preferred off and due a reboot has a run of exactly three switches, where power cycling wakes. |
| `Convergence.HeldTransform` | internal/provider/controllers/power_operation.go:128-139 | Under a power-off request that holds, or will once acknowledged, the power transform sends no power-on and keeps it so. |
| `Convergence.ManualRest` | internal/provider/controllers/reboot_status.go:280-300 | A manually powered machine is at rest exactly when its agent, if it runs it, has nothing left to do. |
| `Convergence.ConfiguresOnce` | internal/provider/controllers/bmc_configuration.go:104-107 | A machine whose agent is out of reach is configured by the operator only, and once. |
| `Convergence.BootFits` | internal/provider/ipxe/handler.go:227-293 | Booting keeps what fits: into the required mode once the BMC is configured, into the agent before that. |
| `Convergence.RebootReason` | internal/provider/controllers/reboot_status.go:137-173 | A truthful, timely reboot reconcile reboots only a machine that is up or off, for a pending request or a real mismatch. |
| `Convergence.PowerReason` | internal/provider/controllers/power_operation.go:170-204 | A truthful power reconcile switches on only what is off and wanted on, and off only what is on, not needed and preferred off. |
| `Convergence.RebootOutcome` | internal/provider/controllers/reboot_status.go:137-173 | A truthful reboot reconcile does nothing or reboots once, for a pending request or a real mismatch. |
| `Convergence.PowerOutcome` | internal/provider/controllers/power_operation.go:170-204 | A truthful power reconcile switches at most once, and for the stated reason. |
| `Patch.PatchFrame` | internal/provider/ipxe/patch.go:212-239 | Patching a script succeeds exactly when the first start marker lies wholly before the first end marker and the script fits from the one's start to the other's end; the size is kept, the span holds the script then newlines, and every other byte is as it was. |
| `Patch.MarkersAreApart` | internal/provider/ipxe/patch.go:186-189 | No end marker begins inside a start marker. |
| `Patch.PatchBytes` | internal/provider/ipxe/patch.go:212-248 | The method yields that on a fresh array, its input left alone, or the error of the first check that fails. |
| `Patch.PatchWithCA` | internal/provider/ipxe/patch.go:241-247 | With a fingerprint, exactly when additionally it has 32 bytes and a default one is left to replace; the size is kept. |
| `Patch.ReplaceCA` | internal/provider/ipxe/patch.go:262-296 | Scanning the buffer it is overwriting, the loop ends and yields the leftmost non-overlapping replacement of the original; on a 32-byte fingerprint it fails exactly when there was nothing to replace. |
| `Patch.EveryCopyIsReplaced` | internal/provider/ipxe/patch.go:270-286 | That replacement changes every copy of the default fingerprint in the original and nothing else. |
| `Patch.SpanExactly` | internal/provider/ipxe/patch.go:215-229 | The placeholder spans from the first start marker to the end of the first end marker, both whole. |
| `Patch.CopiesAreApart` | internal/provider/ipxe/patch.go:255-260 | Copies of the default fingerprint never overlap. |
| `Patch.Turn` | internal/provider/ipxe/patch.go:270-286 | One turn of the scan on the changed buffer is one turn on the original. |
| `CertProvider.ServedIsFresh` | internal/provider/tls/tls.go:250-288 | For every sequence of calls at times that do not go back, what is served is valid now, for at least a tenth of the lifetime more, and is what was issued at some earlier or this time: the provider's options, then that time's validity. |
| `CertProvider.IssuesPerWindow` | internal/provider/tls/tls.go:272-288 | Issues i to j take at least (j - i) times nine tenths of the lifetime less whole-second rounding, which bounds the certificates issued in a window. |
| `CertProvider.GapIsTight` | internal/provider/tls/tls.go:279-284 | That gap is attained for every whole-second lifetime, so it is the best one. |
| `CertProvider.CachedIsLastIssue` | internal/provider/tls/tls.go:267-269 | The certificate kept is the one issued last. |
| `CertProvider.RenewingCertificateProvider.GetCertificate` | internal/provider/tls/tls.go:250-270 | Follows that cache, writing only the certificate: the options' own array is never appended into. |
| `CertProvider.Append` | internal/provider/tls/tls.go:260 | Appending writes in place while capacity lasts and moves to a new array after it. |
| `CertProvider.NewRenewingCertificateProvider` | internal/provider/tls/tls.go:218-248 | Needs a CA, a host and five minutes of lifetime, checked in that order, and starts with the four options and no certificate. |
| `Projection.InfraMachineStatus.Transform` | internal/provider/controllers/infra_machine_status.go:88-156 | The whole report as owed to the inputs and the report before, or nothing changed for a machine that is not accepted or is cordoned. |
| `Projection.ProjectionIsIdempotent` | internal/provider/controllers/infra_machine_status.go:95-150 | For all label maps, a second report from the same inputs is the first one, and nothing else would do. |
| `Projection.OldLabelsThatMatter` | internal/provider/controllers/infra_machine_status.go:95-115 | Of the labels that were there, only Omni's own that are neither configured nor the cluster's can matter. |
| `Projection.ReportMeans` | internal/provider/controllers/infra_machine_status.go:133-150 | A power-off id is reported exactly while a request is honoured, and is that request's; a machine is installed when an install is reported that the last wipe does not know of, ready when it is configured and wiped; so an accepted, allocated, present one exactly when it is not held in the agent. |
| `Projection.InfraMachineStatus.RewriteLabels` | internal/provider/controllers/infra_machine_status.go:95-115 | The final labels as a function of the old, configured and machine's own, in whatever order the maps yield. |
| `Projection.InfraMachineStatus.ClearLabels` | internal/provider/controllers/infra_machine_status.go:95-102 | Exactly Omni's labels stay. |
| `Projection.InfraMachineStatus.CopyClusterLabels` | internal/provider/controllers/infra_machine_status.go:109-115 | The cluster's labels follow the machine: set where it has them, gone where it has not. |
| `Fields.ScanExactly` | api/specs/specs_vtproto.pb.go:1836-1849 | A varint, canonical or not, ends at its first byte below 128 within ten and is the sum of its groups; without such a byte it is too long or cut off, and which is told. |
| `Fields.TagExactly` | api/specs/specs_vtproto.pb.go:1836-1857 | A tag is the low 35 bits of its varint: wire type and positive int32 field number; end-group tags and other numbers are the two errors. |
| `Fields.PayloadExactly` | api/specs/specs_vtproto.pb.go:1863-1888 | A payload is as many bytes as its length says; a length of 2^63 and more, or past the slice, is the error. |
| `Fields.Int32Cuts` | api/specs/specs_vtproto.pb.go:1115 | An int32 field differs from the raw varint by whole turns of 2^32. |
| `Fields.Int64Cuts` | api/specs/specs_vtproto.pb.go:1865-1876 | A length, or an int64 of the standard's timestamp, differs from the raw varint by whole turns of 2^64. |
| `Fields.NextExactly` | api/specs/specs_vtproto.pb.go:1833-1977 | A record is a whole varint field, a whole length-delimited one, or a whole record under an unknown number, exactly as its tag and the message's numbers say. |
| `Fields.FailsAtOnce` | api/specs/specs_vtproto.pb.go:1833-1977 | Which error the first record fails a decode with. |
| `Fields.IPMIReads` | api/specs/specs_vtproto.pb.go:1241-1406 | Each field of the IPMI message, whatever the message held: the last one sent wins, at its width; other numbers are kept verbatim; a wrong wire type fails. |
| `Fields.APIReads` | api/specs/specs_vtproto.pb.go:1407-1489 | The same for the API message. |
| `Fields.ManualReads` | api/specs/specs_vtproto.pb.go:1490-1540 | The manual message knows no field: every record is kept. |
| `Fields.BMCReads` | api/specs/specs_vtproto.pb.go:1541-1719 | The same for the BMC configuration, whose nested messages are merged into those held, absent ones starting empty, and fail the whole where they fail. |
| `Fields.MachineStatusReads` | api/specs/specs_vtproto.pb.go:1720-1829 | The same for the machine status; number 3 is unknown to it. |
| `Fields.WipeStatusReads` | api/specs/specs_vtproto.pb.go:1830-1983 | The same for the wipe status: a repeated text or scalar replaces what was there. |
| `Fields.TLSConfigReads` | api/specs/specs_vtproto.pb.go:2103-2217 | The same for the TLS configuration. |
| `Fields.RebootStatusReads` | api/specs/specs_vtproto.pb.go:1984-2102 | The same for the reboot status, its timestamp merged into the one held. |
| `Fields.PowerOperationReads` | api/specs/specs_vtproto.pb.go:1071-1240 | The same for the power operation. |
| `Fields.TimestampReads` | api/specs/specs_vtproto.pb.go:1118-1154 | The same for the standard's timestamp, seconds and nanoseconds at their widths. |
| `Specs.APIPiecesMerge` | api/specs/specs_vtproto.pb.go:1635-1641 | A nested API message sent in two pieces decodes as the concatenated piece does. |
| `Specs.ManualPiecesMerge` | api/specs/specs_vtproto.pb.go:1691-1697 | The same for the manual message. |
| `Fields.WritesFullWidth` | api/specs/specs_vtproto.pb.go:460-468 | A negative enum is written sign-extended to 64 bits. |
| `Fields.IPMIAscends` | api/specs/specs_vtproto.pb.go:489-528 | The IPMI message is written field after field in ascending order, each at most once, unknown records at the end. |
| `Fields.APIAscends` | api/specs/specs_vtproto.pb.go:548-568 | The same for the API message. |
| `Fields.BMCAscends` | api/specs/specs_vtproto.pb.go:621-674 | The same for the BMC configuration; a nested message is there exactly when it is held. |
| `Fields.MachineStatusAscends` | api/specs/specs_vtproto.pb.go:694-732 | The same for the machine status. |
| `Fields.WipeStatusAscends` | api/specs/specs_vtproto.pb.go:752-794 | The same for the wipe status. |
| `Fields.TLSConfigAscends` | api/specs/specs_vtproto.pb.go:864-891 | The same for the TLS configuration. |
| `Fields.RebootStatusAscends` | api/specs/specs_vtproto.pb.go:814-844 | The same for the reboot status. |
| `Fields.PowerOperationAscends` | api/specs/specs_vtproto.pb.go:427-469 | The same for the power operation. |
| `Fields.TimestampAscends` | api/specs/specs_vtproto.pb.go:444-458 | The same for the standard's timestamp. |
| `Decisions.BootModeExactly` | internal/provider/machine/machine.go:80-128 | Each boot mode and exactly when it is required: a rejected machine goes to its disk; one that is accepted, staying, allocated, configured and wiped gets Talos, from its disk exactly if installed since the wipe and not to be booted from the network always; any other goes to the agent. |
| `Decisions.NeededExactly` | internal/provider/machine/machine.go:135-142 | A machine may be off exactly when it is wiped, not allocated, and not installed since. |
| `Decisions.HonouredExactly` | internal/provider/machine/machine.go:144-154 | A power-off request is honoured exactly while it is the one Omni makes and was acknowledged under the wipe id of now. |
| `Decisions.AnswersExactly` | internal/provider/ipxe/handler.go:184-294 | Each answer of the boot handler and exactly when it is given; a recorded machine that is cordoned or rejected, and no other, is left alone; the disk only in the configured way, the network's Talos only in the allocated version. |
| `Decisions.ClientExactly` | internal/provider/bmc/bmc.go:84-128 | Each client and exactly when it is chosen, and exactly when there is none. |
| `Decisions.WipesExactly` | internal/provider/controllers/wipe_status.go:55-102 | A wipe is sent exactly to an accepted, not cordoned machine whose agent is told accessible and that is not wiped for its wipe id; it is recorded exactly when it succeeds. |
| `Decisions.ManualExactly` | internal/provider/controllers/bmc_configuration.go:78-145 | A machine turns manually powered exactly when the provider allows machines without a BMC, the agent says in one of its two ways that there is none, and neither the operator nor an agent has said otherwise. |
| `Decisions.DerivesExactly` | internal/provider/controllers/bmc_configuration.go:78-179 | When credentials are set on the agent and which, when the report is recorded, and what then is held. |
| `Decisions.ConfiguresExactly` | internal/provider/controllers/bmc_configuration.go:78-179 | When the transform follows the operator, leaves things as they are, or fails. |
| `Decisions.RestedExactly` | internal/provider/controllers/controllers.go:65-80 | The cooldown check passes exactly when neither the recorded power-on nor the recorded reboot is within the interval, for every duration. |
| `Decisions.RebootsExactly` | internal/provider/controllers/reboot_status.go:137-172 | What a reboot transform sends, over which channel, and exactly when. |
| `Decisions.RecordsExactly` | internal/provider/controllers/reboot_status.go:121-173 | How it ends, and that a request is acknowledged exactly when a reboot was carried out. |
| `Decisions.PartsExactly` | internal/provider/controllers/reboot_status.go:204-235 | What the farewell sends, and exactly when. |
| `Decisions.AcknowledgesExactly` | internal/provider/controllers/power_operation.go:131-139 | A power-off request stands after the acknowledgement exactly unless it was acknowledged under another wipe id. |
| `Decisions.SwitchesOnExactly` | internal/provider/controllers/power_operation.go:166-186 | A machine that is off is switched on exactly when no power-off request stands and it is needed or wanted on, from the network first where that is wanted; what is called and recorded. |
| `Decisions.SwitchesOffExactly` | internal/provider/controllers/power_operation.go:187-201 | A machine that is on is switched off exactly when it is not needed, wanted off, and rested; what is called and recorded. |
| `Decisions.UntoldExactly` | internal/provider/controllers/power_operation.go:116-164 | A machine whose power state nobody tells is not switched, and the acknowledgement is not saved. |
| `Permissions.WipeStep` | internal/provider/controllers/wipe_status.go:55-93 | In any state a wipe is sent exactly by the wipe loop and exactly to a machine that is recorded, staying, accepted, not cordoned, told accessible and not wiped for its wipe id. |
| `Permissions.WipedOnlyIfToBe` | internal/provider/controllers/wipe_status.go:55-93 | In every run, each wipe was of such a machine at that moment. |
| `Permissions.CallsAreOwn` | internal/provider/controllers/controllers.go:33-47 | No loop makes another loop's calls. |
| `Permissions.OffLimitsStep` | internal/provider/controllers/controllers.go:49-63 | A machine that is not accepted, or is cordoned, or not recorded, gets no call but polls and the farewell; nothing the acting loops record of it changes, and it is not started or stopped by them. |
| `Permissions.CalledOnlyIfAllowed` | internal/provider/controllers/controllers.go:49-63 | In every run, each call but a poll's and the farewell's was made for a machine accepted and not cordoned at that moment. |
| `Permissions.BootStep` | internal/provider/ipxe/handler.go:210-293 | What a booting machine comes up in, exactly: neither agent nor Talos if and only if it is recorded and cordoned or rejected. |
| `Permissions.ComesUpOnlyIfAllowed` | internal/provider/ipxe/handler.go:210-225 | No step brings a machine up in the agent or Talos but a boot answered for one that is neither cordoned nor rejected. |
| `Permissions.AnsweredOnlyIfAllowed` | internal/provider/ipxe/handler.go:210-293 | In every run, the handler answered "not found" exactly to the cordoned and rejected, and the agent exactly to those not Omni's to use. |
| `Permissions.CredentialsStep` | internal/provider/controllers/bmc_configuration.go:91-150 | Credentials are set on an agent by the BMC loop only, and exactly on the machines to be asked that can be set up. |
| `Permissions.ManualStep` | internal/provider/controllers/bmc_configuration.go:124-145 | In any state a machine becomes manually powered exactly by a BMC reconcile that is to ask, is allowed machines without a BMC, and is told that there is none. |
| `Permissions.NeverManualUnlessAllowed` | internal/provider/controllers/bmc_configuration.go:192-195 | In every run, a provider that does not allow machines without a BMC never holds a manual configuration. |
| `Permissions.ToldExactly` | internal/provider/controllers/machine_status.go:195-312 | A machine's status is told by the agent's events, by polls, and by the first boot request, which a poll follows; one being torn down is told no more, and no other event tells anything. |
| `RemovalOrder.TakesExactly` | internal/provider/controllers/reboot_status.go:88-115 | The reboot loop takes hold of both resources of a machine that stays, the machine status first, and of nothing that is already going. |
| `RemovalOrder.ReleasesExactly` | internal/provider/controllers/reboot_status.go:175-202 | The farewell lets go of them in that order, of each exactly when its removal succeeds. |
| `RemovalOrder.TearsDownExactly` | internal/provider/controllers/machine_status.go:114-175 | A resource whose machine is going or gone is marked while it is held and destroyed once it is not; nothing of a machine that stays is touched. |
| `Decisions.ElapsedExactly` | internal/provider/controllers/controllers.go:79 | A difference of times is the nearest duration there is. |
| `Decisions.MismatchedExactly` | internal/provider/controllers/reboot_status.go:147-151 | A mismatch is to be fixed exactly while the machine is needed, not rejected, and told to be in the agent when it is Omni's to use and wanted from the network, or out of it when it is not. |
| `Projection.LabelsExactly` | internal/provider/controllers/infra_machine_status.go:95-115 | The labels as a whole: Omni's own of the old ones, overridden by the configured ones, the cluster's replaced by the machine's. |
| `CertProvider.IssuedExactly` | internal/provider/tls/tls.go:260-288 | A certificate bears the options and the times it is valid from and to, cut to whole seconds. |

## Left out

- The marshalling and parsing loops of `PowerOperationSpec` and `RebootStatusSpec`: their messages are modelled as values in `TimedSpecs`, around a timestamp codec that is a library's; the buffer and the update in place, which are those of the other specs, and their `EqualVT`, are not.
- `CloneVT`, `EqualMessageVT` and nil receivers of the marshallers: copies and type tests.
- What a message holds after a decoding error: the callers discard it, and the model says only which error.
- The two error values for a negative length and an unexpected end are one value; every other error is told apart.
- The generated code repeats its varint, header and length parsing inline at every field; the model has it once, in methods that every decoder calls.
- Capacity of Go slices and the overflow of computed sizes, except in `CertProvider`, where appending into spare capacity is what matters.
- `SpecsCodec.IPMISpec.MarshalToSizedBufferVT` and its siblings take the end of the sub-slice as an index instead of a re-sliced buffer.
- `Polling.PollOne` does not record the call it makes; `System` does.
- Interleavings inside one reconcile: other loops may run between its reads and its save. Saves that fail on a version conflict.
- `Convergence.ConvergesUnlessUnwakeable` assumes the timing of boots and looks; it bounds what happens, `Convergence.RestIsGoal` says where rest is and `Reaching.ReachesGoal` that it can be reached, but nothing says how long a given schedule takes.
- `Timing.BoundedUntimedUnlessExposed` is about machines whose BMC stays and `ByHand.BoundedByHandUnlessBeckoning` about those without one; for a machine whose configuration still changes, only `Timing.QuietIsNotRebooted` is stated.
- `System.Frame` covers one machine; machines share no state but the lists that `Polling.PollAll` walks.
- The Redfish availability cache: its answer is a parameter of `GetClient`.
- HTTP serving, architecture choice and script bodies of the boot handler: the decision is modelled, the text served is not. A failing image factory is a boot that does not happen.
- IPMI, Redfish, HTTP power API and gRPC clients, DHCP, TFTP, Raspberry Pi firmware, machine configuration and provider wiring: plumbing over libraries, or short lookups.
- X.509 key generation, PEM parsing, zbin and zstd compression: opaque. Certificates' times are in whole seconds.
- Logging, concurrency limits, input mapping and the development tooling under `cmd/qemu-up`.
