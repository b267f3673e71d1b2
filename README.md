# OCLA / EIO debug controller — a Dafny model

This project models the controller behind the on-chip debug commands of the
FOEDAG Raptor configuration tools. The controller class `Ocla` keeps one
debug session loaded from a design file. A session holds the clock domains,
each with its OCLA logic-analyser instances, its probes and signals and its
list of triggers, and it also holds the EIO (embedded I/O) instances. Over a
JTAG adapter the controller:

- checks that the instruments on the chip are the ones the session recorded
  (`verify`);
- lets the user configure a capture and add, edit and remove triggers;
- programs and starts the capture, reads its status and cuts the sample
  memory into one waveform per signal;
- drives and reads the EIO output and input registers (`set_io`, `get_io`).

`EioInstance` is the small container class for one EIO block.

The model is split into modules that follow the program's structure:

| module | file | models |
|---|---|---|
| `Bits` | bits.dfy | `uint32_t` wrap-around, the little-endian bit view of word vectors, `CFG_copy_bits_vec32`, `resize` |
| `Eio` | eio_instance.dfy | `EioInstance` (a class: its probe list is appended to in place) and the EIO signal and probe records |
| `Topology` | topology.dfy | the session, domain, probe, signal, instance and trigger records; first-match scans; the session registry |
| `Text` | text.dfy | the unsigned-number test on selectors and `std::to_string` |
| `Format` | format.dfy | `format_signal_name` |
| `Hardware` | hardware.dfy | the OCLA and EIO instruments as abstract register state behind the `Adapter` class |
| `Lookup` | lookup.dfy | `get_hier_objects`, `get_eio_hier_objects`, `find_eio_signals` |
| `Verifier` | verifier.dfy | `verify` and its error count |
| `Triggers` | triggers.dfy | `configure`, `add_trigger`, `edit_trigger`, `remove_trigger`, and the trigger bookkeeping they keep |
| `Capture` | capture.dfy | `program`, `start`, `get_status` |
| `Waveform` | waveform.dfy | `get_waveform` |
| `EioIo` | eio_io.dfy | `parse_eio_signal_list`, `set_io`, `get_io` |
| `Controller` | ocla.dfy | the `Ocla` class: every public operation as a method over its session field and the adapter |

The pure decisions are functions. Each function returns a "plan": the error
the source reports, or what it changes. The registry or instruments it
leaves behind are functions too. The methods of `Controller.Ocla` and
`Hardware.Adapter` change state step by step, as the source does, and each
is proved against those functions. Error paths return a `Result` whose error
names the check that failed. The source prints a message and returns
`false` or nothing there.

## Model

| member | source | states |
|---|---|---|
| `Eio.EioInstance.constructor` | src/ConfigurationRS/Ocla/EioInstance.cpp:6-7 | the instance records the given base address and index and starts with no probes |
| `Eio.EioInstance.GetBaseaddr` | src/ConfigurationRS/Ocla/EioInstance.cpp:11 | returns the base address fixed at construction |
| `Eio.EioInstance.GetIndex` | src/ConfigurationRS/Ocla/EioInstance.cpp:13 | returns the index fixed at construction |
| `Eio.EioInstance.AddProbe` | src/ConfigurationRS/Ocla/EioInstance.cpp:15 | the probe list grows by exactly the new probe at its end; every earlier probe keeps its value and position |
| `Eio.EioInstance.GetProbes` | src/ConfigurationRS/Ocla/EioInstance.cpp:17 | returns the probes in insertion order |
| `Eio.BuildTwoProbeInstance` | src/ConfigurationRS/Ocla/EioInstance.cpp:6-17 | a caller that constructs an instance and adds two probes sees both probes in call order and the constructor's address and index, from the contracts alone |
| `Topology.FirstMatch` | src/ConfigurationRS/Ocla/Ocla.cpp:339-351 | the found-flag scans return the first position that matches, none before it matches, and nothing exactly when no element matches |
| `Topology.GetSession` | src/ConfigurationRS/Ocla/Ocla.cpp:933-939 | session ids are 1-based: an id is found exactly when 1 ≤ id ≤ number of sessions, at position id-1 |
| `Text.ParseUnsigned` | src/ConfigurationRS/Ocla/Ocla.cpp:372-374 | a selector is a number exactly when it is a non-empty decimal numeral below 2^64, and its value is then cut to 32 bits |
| `Text.ToDecimal` | src/ConfigurationRS/Ocla/Ocla.cpp:429-433 | the printed numeral is non-empty and all digits |
| `Text.DecimalRoundTrip` | src/ConfigurationRS/Ocla/Ocla.cpp:429-433 | reading back a printed numeral gives the number printed |
| `Text.ParseToDecimal` | src/ConfigurationRS/Ocla/Ocla.cpp:429-433 | the selector test takes every printed 32-bit number back as that number |
| `Text.NonNumericIsName` | src/ConfigurationRS/Ocla/Ocla.cpp:373-380 | a selector holding any non-digit is never taken as a number |
| `Format.FormatSignalName` | src/ConfigurationRS/Ocla/Ocla.cpp:425-436 | without a bit range the display name is the signal name; with one it starts with the signal name and ends in a bracketed suffix |
| `Format.FormatRangeReadsBack` | src/ConfigurationRS/Ocla/Ocla.cpp:427-430 | the suffix of a range wider than one bit reads back as its top bit pos+width-1, then its low bit pos |
| `Format.FormatBitReadsBack` | src/ConfigurationRS/Ocla/Ocla.cpp:431-432 | the suffix of a one-bit range reads back as its position |
| `Bits.WordsFor` | src/ConfigurationRS/Ocla/Ocla.cpp:666 | the words-per-row count, computed in `uint32_t`, is the least number of 32-bit words holding a non-zero width; width 0 wraps to 2^27 words |
| `Bits.CopyBits` | src/ConfigurationRS/Ocla/Ocla.cpp:673-676 | copying a bit field never changes the length of the destination |
| `Bits.CopyBitsAt` | src/ConfigurationRS/Ocla/Ocla.cpp:1116-1117 | each destination bit inside the window holds the matching source bit; every other bit is unchanged |
| `Bits.ExtractInsertRoundTrip` | src/ConfigurationRS/Ocla/Ocla.cpp:1051-1052 | copying a field out into a fresh buffer and back to the same position restores the field's bits |
| `Hardware.Adapter.Configure` | src/ConfigurationRS/Ocla/Ocla.cpp:746 | only the operation configuration of the instrument at that address changes |
| `Hardware.Adapter.ConfigureChannel` | src/ConfigurationRS/Ocla/Ocla.cpp:756 | only that one channel of the instrument at that address changes, and a channel the instrument lacks is not stored |
| `Hardware.Adapter.Start` | src/ConfigurationRS/Ocla/Ocla.cpp:868 | the instrument at that address counts one more start command and nothing else changes |
| `Hardware.Adapter.WriteOutputBits` | src/ConfigurationRS/Ocla/Ocla.cpp:1056 | only the output register of that EIO block changes, to the first n words written, and only when the block latches writes |
| `Hardware.Adapter.ReadbackOutputBits` | src/ConfigurationRS/Ocla/Ocla.cpp:1040 | returns exactly n words of the output register, zero past its end |
| `Hardware.Adapter.ReadInputBits` | src/ConfigurationRS/Ocla/Ocla.cpp:1110 | returns exactly n words of the input register, zero past its end |
| `Hardware.WriteOutput` | src/ConfigurationRS/Ocla/Ocla.cpp:1056 | a write keeps the block's type, input register and latching; the output becomes the written words when latched and stays as it was otherwise |
| `Lookup.LookupDomain` | src/ConfigurationRS/Ocla/Ocla.cpp:330-353 | fails with "session not loaded" exactly when there is no session, and with "domain not found" exactly when no domain has the id; otherwise it finds the first domain with that id |
| `Lookup.LookupSignal` | src/ConfigurationRS/Ocla/Ocla.cpp:330-399 | each level takes its first match; a probe or signal that is missing fails the lookup with that level's error, in both directions |
| `Lookup.SignalByIndexOrName` | src/ConfigurationRS/Ocla/Ocla.cpp:371-395 | a numeric selector finds the signal with that index; any other selector finds the signal with exactly that name |
| `Lookup.LookupEioProbe` | src/ConfigurationRS/Ocla/Ocla.cpp:941-987 | finds the first EIO instance with the index, then its first probe matching BOTH index and direction; each missing level gives its own error |
| `Lookup.FindEioSignals` | src/ConfigurationRS/Ocla/Ocla.cpp:912-931 | succeeds exactly when every name selects a signal; the result then lists, in the order of the names, the first signal each one selects |
| `Verifier.InstanceErrors` | src/ConfigurationRS/Ocla/Ocla.cpp:770-807 | a wrong type counts one error and skips the other checks; otherwise there is one error per differing field; the count is zero exactly when all five fields match |
| `Verifier.InstancesErrorsZero` | src/ConfigurationRS/Ocla/Ocla.cpp:770-808 | the instances of a domain add no error exactly when every one matches its recorded identity |
| `Verifier.DomainsErrorsZero` | src/ConfigurationRS/Ocla/Ocla.cpp:768-809 | the domains add no error exactly when every instance of every domain matches |
| `Verifier.EiosErrorsZero` | src/ConfigurationRS/Ocla/Ocla.cpp:811-819 | the EIO blocks add no error exactly when every one reports the type "EIO" |
| `Verifier.VerifiedIff` | src/ConfigurationRS/Ocla/Ocla.cpp:762-827 | verification succeeds exactly when every OCLA instance matches in all five fields and every EIO block reports the EIO type |
| `Verifier.OneMismatchFails` | src/ConfigurationRS/Ocla/Ocla.cpp:821-824 | a single mismatching field of a single instance fails the whole verification |
| `Verifier.InstancesErrorsAppend` | src/ConfigurationRS/Ocla/Ocla.cpp:768-808 | the count over a list is the sum of the counts over its parts |
| `Triggers.RangeCheckWrapsAsWritten` | src/ConfigurationRS/Ocla/Ocla.cpp:150-158 | the range check as written, in `uint32_t`, accepts the range [0xFFFFFFFF:1] on an 8-bit signal, which does not fit |
| `Triggers.RangeChecksAgree` | src/ConfigurationRS/Ocla/Ocla.cpp:152-154 | for every end bit below 0xFFFFFFFF the check as written and the intended check take the same decision |
| `Triggers.BuildTrigger` | src/ConfigurationRS/Ocla/Ocla.cpp:143-183 | the trigger keeps the probe's instance, the signal's index and name, and the request's type, event and value; the channel's probe number is bitpos+pos modulo 2^32; a value compare with no width defaults to the range or signal width capped at the instrument maximum |
| `Triggers.RangeTriggerShape` | src/ConfigurationRS/Ocla/Ocla.cpp:150-165 | a range trigger that passed the check covers exactly the selected bits: width = end-start+1 ≥ 1, pos = start, pos+width ≤ signal width |
| `Triggers.CompareWidthWithinLimit` | src/ConfigurationRS/Ocla/Ocla.cpp:116-122 | once the requested width passed the limit check, the stored compare width never exceeds the instrument maximum, default included |
| `Triggers.Capacity` | src/ConfigurationRS/Ocla/Ocla.cpp:133-134 | an instance's capacity is the trigger-channel count of its live instrument, and 0 when the domain has no such instance |
| `Triggers.TriggerChecks` | src/ConfigurationRS/Ocla/Ocla.cpp:97-122 | the pairing, constant-signal, instance and compare-width checks reject in the source's order, each exactly under its condition |
| `Triggers.AddTriggerPlan` | src/ConfigurationRS/Ocla/Ocla.cpp:65-186 | a reversed or unparsed selector and a failed lookup are rejected with their errors; an accepted trigger comes from a verified session and sits on its probe's instance, which had a free channel; its compare width is within the maximum and its range inside the signal |
| `Triggers.AddTriggerOutcome` | src/ConfigurationRS/Ocla/Ocla.cpp:65-186 | verification fails exactly when the selector is valid, the signal is found and the session does not verify; each signal check, the capacity check and the range check refuses exactly when the checks before it pass and it fails; the trigger is added exactly when every check passes (`Triggers.AddAccepted`) |
| `Triggers.AfterAdd` | src/ConfigurationRS/Ocla/Ocla.cpp:185 | a rejected add leaves the registry as it was |
| `Triggers.AddAppendsAtMostOne` | src/ConfigurationRS/Ocla/Ocla.cpp:133-185 | every domain either keeps its trigger list or gains exactly one trigger at its end; nothing else in the registry changes |
| `Triggers.AddOkAppendsTrigger` | src/ConfigurationRS/Ocla/Ocla.cpp:185 | an accepted add appends exactly the planned trigger to its domain |
| `Triggers.AddRejectsWhenFull` | src/ConfigurationRS/Ocla/Ocla.cpp:133-140 | when the probe's instance already uses every channel, the add is refused as exhausted and the registry is unchanged |
| `Triggers.AddedTriggerShape` | src/ConfigurationRS/Ocla/Ocla.cpp:143-185 | the appended trigger names the probe and signal found, is never on a constant signal, covers exactly the selected range (or none), has probe number bitpos+pos in `uint32_t`, and compares no more bits than the instrument allows |
| `Triggers.TriggerSlot` | src/ConfigurationRS/Ocla/Ocla.cpp:217-220 | trigger numbers are 1-based: a number is found exactly when 1 ≤ n ≤ number of triggers, at position n-1 |
| `Triggers.EditTriggerPlan` | src/ConfigurationRS/Ocla/Ocla.cpp:188-307 | every check runs before anything is written; an accepted edit replaces an existing trigger slot by a trigger on the requested probe's instance; capacity is required only when the probe changes |
| `Triggers.EditTriggerOutcome` | src/ConfigurationRS/Ocla/Ocla.cpp:188-307 | an unknown trigger number is refused exactly when the selector is valid and the signal found; verification fails exactly when, in addition, the slot exists and the session does not verify; the capacity check refuses exactly when the trigger moves to a full instance; the edit is accepted exactly when every check passes (`Triggers.EditAccepted`) |
| `Triggers.EditedTriggerShape` | src/ConfigurationRS/Ocla/Ocla.cpp:266-306 | the replacement trigger is built as an added one is: same selection, same probe number, compare width within the maximum |
| `Triggers.AfterEdit` | src/ConfigurationRS/Ocla/Ocla.cpp:285-306 | a rejected edit leaves the registry as it was; an accepted one overwrites the chosen slot with the built trigger and keeps every other slot |
| `Triggers.EditKeepsLayout` | src/ConfigurationRS/Ocla/Ocla.cpp:215-307 | an edit keeps the length of every trigger list and every trigger except the edited slot; nothing else in the registry changes |
| `Triggers.EditToOtherProbeOnFullInstance` | src/ConfigurationRS/Ocla/Ocla.cpp:254-264 | moving a trigger to another probe of a full instance is refused, even when the trigger already occupies that instance, because the count includes it |
| `Triggers.EditSameProbeNeverExhausted` | src/ConfigurationRS/Ocla/Ocla.cpp:254-264 | an edit that keeps the trigger's probe is never refused for lack of channels |
| `Triggers.RemoveTriggerPlan` | src/ConfigurationRS/Ocla/Ocla.cpp:310-327 | a failed lookup is rejected with its error; verification fails exactly when the domain is found and the session does not verify; an out-of-range trigger number is "not found" exactly then; the remove is accepted exactly when all three pass |
| `Triggers.AfterRemove` | src/ConfigurationRS/Ocla/Ocla.cpp:325-327 | an accepted remove drops exactly that trigger and keeps the others in order; the other sessions, the EIO list, the other domains and the domain's other fields stay as they were; a rejected remove changes nothing |
| `Triggers.ConfigurePlan` | src/ConfigurationRS/Ocla/Ocla.cpp:19-54 | a failed lookup is rejected with its error; verification fails exactly when the domain is found and the session does not verify; no instance and a sample size over the first instance's memory depth are each refused exactly then; it is accepted exactly when every check passes |
| `Triggers.AfterConfigure` | src/ConfigurationRS/Ocla/Ocla.cpp:56-62 | only the configuration of the chosen domain changes |
| `Triggers.AppendKeepsDomainConsistent` | src/ConfigurationRS/Ocla/Ocla.cpp:133-185 | appending a trigger that sits on its probe's instance, where a channel is free, keeps every trigger on its probe's instance and every instance within its capacity |
| `Triggers.ReplaceKeepsDomainConsistent` | src/ConfigurationRS/Ocla/Ocla.cpp:254-306 | replacing a trigger by one on the same probe, or by one on an instance with a free channel, keeps the domain within capacity |
| `Triggers.RemoveKeepsDomainConsistent` | src/ConfigurationRS/Ocla/Ocla.cpp:325 | dropping a trigger keeps the domain consistent |
| `Triggers.AddKeepsConsistent` | src/ConfigurationRS/Ocla/Ocla.cpp:65-186 | `add_trigger` never puts more triggers on an instance than its instrument has channels |
| `Triggers.EditKeepsConsistent` | src/ConfigurationRS/Ocla/Ocla.cpp:188-308 | `edit_trigger` never puts more triggers on an instance than its instrument has channels |
| `Triggers.RemoveKeepsConsistent` | src/ConfigurationRS/Ocla/Ocla.cpp:310-328 | `remove_trigger` keeps every domain consistent |
| `Capture.ChannelsFor` | src/ConfigurationRS/Ocla/Ocla.cpp:754-758 | an instance receives one channel configuration per trigger aimed at it |
| `Capture.ChannelOfTrigger` | src/ConfigurationRS/Ocla/Ocla.cpp:754-758 | the trigger at list position j lands on the channel numbered by how many earlier triggers target the same instance |
| `Capture.ClearChannels` | src/ConfigurationRS/Ocla/Ocla.cpp:749-751 | channels below n are cleared and the others unchanged |
| `Capture.Overlay` | src/ConfigurationRS/Ocla/Ocla.cpp:754-758 | channel c takes the c-th written configuration when there is one, and keeps its value otherwise |
| `Capture.ProgramIp` | src/ConfigurationRS/Ocla/Ocla.cpp:741-758 | a programmed instrument has the domain's configuration, its own triggers in channels 0, 1, 2, …, every other channel it reports cleared, and every other field as before |
| `Capture.ProgramInstances` | src/ConfigurationRS/Ocla/Ocla.cpp:741-759 | programming never touches the EIO blocks |
| `Capture.ProgramKeepsOthers` | src/ConfigurationRS/Ocla/Ocla.cpp:727-760 | programming changes only the configuration and channels of the domain's instruments; identities, limits, status, start counts and sample memory of all instruments are kept |
| `Capture.ProgramEachInstance` | src/ConfigurationRS/Ocla/Ocla.cpp:741-759 | with distinct base addresses every instrument of the domain ends up programmed with its own triggers |
| `Capture.ProgramPlacesTriggers` | src/ConfigurationRS/Ocla/Ocla.cpp:734-758 | after programming, every trigger of the domain is in the channel its position gives it, and the remaining reported channels are cleared |
| `Capture.IdentityVerifies` | src/ConfigurationRS/Ocla/Ocla.cpp:762-827 | verification reads only the identity of the instruments, so it gives the same answer on any two states that agree on identities |
| `Capture.StartPlan` | src/ConfigurationRS/Ocla/Ocla.cpp:829-860 | a failed lookup is rejected with its error; verification fails exactly when the domain is found and the session does not verify; a domain without triggers and one without instances are refused exactly then; the capture starts exactly when every check passes |
| `Capture.AfterStart` | src/ConfigurationRS/Ocla/Ocla.cpp:862-868 | a refusal changes no instrument; otherwise the domain is programmed and only its first instance, the head of the daisy chain, receives one start command |
| `Capture.StartKeepsVerified` | src/ConfigurationRS/Ocla/Ocla.cpp:829-871 | after a successful start the session still verifies |
| `Capture.StatusPlan` | src/ConfigurationRS/Ocla/Ocla.cpp:692-725 | the status returned is the status word of the domain's first instance; verification fails exactly when the domain is found and the session does not verify; a domain with no instances is refused exactly then; a status is returned exactly when every check passes |
| `Waveform.SampleMap` | src/ConfigurationRS/Ocla/Ocla.cpp:645-650 | the sample map holds an entry for exactly the instance indices of the domain |
| `Waveform.SampleMapLastWins` | src/ConfigurationRS/Ocla/Ocla.cpp:647-650 | an index's entry holds the samples of the last instance with that index |
| `Waveform.DataFor` | src/ConfigurationRS/Ocla/Ocla.cpp:658 | a probe whose instance was not read gets the empty sample set |
| `Waveform.RowWordIsProduct` | src/ConfigurationRS/Ocla/Ocla.cpp:673-675 | row i of a buffer starts at word i * words-per-line |
| `Waveform.SignalRow` | src/ConfigurationRS/Ocla/Ocla.cpp:673-676 | a signal's row is as wide as the signal needs |
| `Waveform.SignalRows` | src/ConfigurationRS/Ocla/Ocla.cpp:668-677 | n rows take n times the signal's words per row |
| `Waveform.SignalWaveOf` | src/ConfigurationRS/Ocla/Ocla.cpp:661-677 | a signal's waveform keeps its name, width and position, has the sample depth, and holds depth rows of words-per-line words each |
| `Waveform.SignalRowBit` | src/ConfigurationRS/Ocla/Ocla.cpp:673-676 | bit b of a row is the signal's bit b of that sample row below the signal width, and zero above it |
| `Waveform.SignalRowsBit` | src/ConfigurationRS/Ocla/Ocla.cpp:670-677 | row i of the concatenated rows is found at word i * words-per-line |
| `Waveform.SignalWaveRows` | src/ConfigurationRS/Ocla/Ocla.cpp:661-677 | every row of a signal's waveform holds exactly that signal's bits of the same sample row, from bit 0 up, and zero above them |
| `Waveform.ProbeWaveOf` | src/ConfigurationRS/Ocla/Ocla.cpp:655-684 | a probe's waveform has the probe's id and one waveform per signal, in order, from the samples of the probe's instance |
| `Waveform.WaveformPlan` | src/ConfigurationRS/Ocla/Ocla.cpp:634-690 | a waveform is returned exactly when the domain is found; it carries the domain id and one probe waveform per probe, in order |
| `Waveform.WaveformSignal` | src/ConfigurationRS/Ocla/Ocla.cpp:655-684 | signal s of probe k is cut from the samples read for that probe's instance |
| `Waveform.WaveformMatchesSamples` | src/ConfigurationRS/Ocla/Ocla.cpp:645-684 | when instance indices are distinct, every bit of a signal's waveform is the matching bit of the sample memory of that signal's instance |
| `EioIo.SplitU64` | src/ConfigurationRS/Ocla/Ocla.cpp:1002 | the two words, low word first, join back into the 64-bit value |
| `EioIo.ParseEioSignalList` | src/ConfigurationRS/Ocla/Ocla.cpp:989-1006 | the list is accepted exactly when every entry carries a value; it then gives the names and 64-bit values in list order |
| `EioIo.Widen` | src/ConfigurationRS/Ocla/Ocla.cpp:1045-1050 | a value shorter than its signal needs is extended to that length; a longer one is kept |
| `EioIo.WidenKeepsBits` | src/ConfigurationRS/Ocla/Ocla.cpp:1045-1050 | widening a value keeps every bit of it |
| `EioIo.ApplyValues` | src/ConfigurationRS/Ocla/Ocla.cpp:1043-1053 | the updated register image has the length of the readback |
| `EioIo.ApplyValuesOutside` | src/ConfigurationRS/Ocla/Ocla.cpp:1043-1053 | a bit outside every assigned signal's window keeps its read-back value |
| `EioIo.ApplyValuesInside` | src/ConfigurationRS/Ocla/Ocla.cpp:1043-1053 | a bit inside signal i's window, and in no later signal's window, holds the matching bit of value i (the last assignment wins) |
| `EioIo.SetIoPlan` | src/ConfigurationRS/Ocla/Ocla.cpp:1008-1056 | a bad list, a missing probe or signal and a failed verification are each rejected; otherwise the written image is the read-back output register overlaid with the assigned values, written to output probe 1 of EIO instance 1 |
| `EioIo.SetIoOutcome` | src/ConfigurationRS/Ocla/Ocla.cpp:1008-1037 | a bad list is refused exactly when an entry carries no value; once the output probe is found, a missing signal is refused exactly when the list names one the probe lacks, verification fails exactly when all are found and the session does not verify, and the write happens exactly when both pass |
| `EioIo.SetIoTouchesOnlyOutput` | src/ConfigurationRS/Ocla/Ocla.cpp:1036-1056 | `set_io` changes nothing but the output register of its EIO block |
| `EioIo.LatchingWriteConfirmed` | src/ConfigurationRS/Ocla/Ocla.cpp:1056-1064 | on a block that latches its writes, the readback always confirms the write |
| `EioIo.DroppedWriteConfirmedIffUnchanged` | src/ConfigurationRS/Ocla/Ocla.cpp:1058-1064 | when the write is dropped, the readback confirms it exactly when the image equals what the register held |
| `EioIo.SetIoKeepsOtherBits` | src/ConfigurationRS/Ocla/Ocla.cpp:1043-1056 | after a latched `set_io`, every register bit outside the assigned windows reads as before |
| `EioIo.SetIoSetsWindow` | src/ConfigurationRS/Ocla/Ocla.cpp:1043-1056 | after a latched `set_io`, a bit in signal i's window (and in no later window) reads as the matching bit of the value assigned to signal i |
| `EioIo.WrittenWindow` | src/ConfigurationRS/Ocla/Ocla.cpp:1051-1056 | a register holding an image built from the assignments holds each assigned value's bits inside its window |
| `EioIo.StripMarker` | src/ConfigurationRS/Ocla/Ocla.cpp:1073-1079 | a leading '#' is removed and any other name is kept as given |
| `EioIo.StripMarkers` | src/ConfigurationRS/Ocla/Ocla.cpp:1071-1079 | one stripped name per requested name, in order |
| `EioIo.MsbPos` | src/ConfigurationRS/Ocla/Ocla.cpp:1101-1106 | the computed position is at least the top bit of every signal |
| `EioIo.MsbPosAttained` | src/ConfigurationRS/Ocla/Ocla.cpp:1101-1106 | the computed position is 0 or the top bit of one of the signals, so it is the maximum |
| `EioIo.ReadValue` | src/ConfigurationRS/Ocla/Ocla.cpp:1114-1117 | a value keeps its signal's name and index and is as wide as the signal needs |
| `EioIo.ReadValues` | src/ConfigurationRS/Ocla/Ocla.cpp:1113-1119 | one value per signal, in order |
| `EioIo.GetIoPlan` | src/ConfigurationRS/Ocla/Ocla.cpp:1067-1122 | a missing probe and a failed verification are rejected; otherwise the input register of input probe 1 of EIO instance 1 is read up to the word holding the highest signal bit, and the values are cut from it in request order |
| `EioIo.GetIoOutcome` | src/ConfigurationRS/Ocla/Ocla.cpp:1067-1098 | once the input probe is found, a missing signal is refused exactly when a name is not in the probe, verification fails exactly when all are found and the session does not verify, and the read happens exactly when both pass |
| `EioIo.GetIoRead` | src/ConfigurationRS/Ocla/Ocla.cpp:1108-1120 | the read always succeeds once the signals are found, at the instance's address and for those signals |
| `EioIo.ReadValueBits` | src/ConfigurationRS/Ocla/Ocla.cpp:1108-1117 | the words read are enough: each value holds exactly its signal's bits of the input register from bit 0 up, and zero above them |
| `EioIo.IoReadBits` | src/ConfigurationRS/Ocla/Ocla.cpp:1108-1120 | every value read is named and indexed as its signal and holds exactly that signal's input bits |
| `EioIo.ExtractInsertWindow` | src/ConfigurationRS/Ocla/Ocla.cpp:1043-1119 | what `set_io` writes into a window is what `get_io` cuts out of the same window: the low bitwidth bits of the assigned value |
| `Controller.Ocla.constructor` | src/ConfigurationRS/Ocla/Ocla.cpp:15 | the controller holds its adapter and no session |
| `Controller.Ocla.StartSession` | src/ConfigurationRS/Ocla/Ocla.cpp:873-901 | a second session is refused, a missing file and a failed load change nothing, and a successful load becomes the only session |
| `Controller.Ocla.StopSession` | src/ConfigurationRS/Ocla/Ocla.cpp:903-910 | no session is left afterwards; stopping with none loaded reports an error |
| `Controller.Ocla.GetDomain` | src/ConfigurationRS/Ocla/Ocla.cpp:330-353 | the scan finds what `Lookup.LookupDomain` specifies |
| `Controller.Ocla.GetHierObjects` | src/ConfigurationRS/Ocla/Ocla.cpp:330-399 | the three nested scans find what `Lookup.LookupSignal` specifies |
| `Controller.Ocla.GetEioHierObjects` | src/ConfigurationRS/Ocla/Ocla.cpp:941-987 | the scans find what `Lookup.LookupEioProbe` specifies |
| `Controller.Ocla.FindEioSignal` | src/ConfigurationRS/Ocla/Ocla.cpp:916-921 | the inner scan finds the first signal a name selects |
| `Controller.Ocla.FindEioSignals` | src/ConfigurationRS/Ocla/Ocla.cpp:912-931 | the loop resolves the names as `Lookup.FindEioSignals` specifies, failing on the first name that resolves to nothing |
| `Controller.Ocla.ParseEioSignalList` | src/ConfigurationRS/Ocla/Ocla.cpp:989-1006 | the loop gives what `EioIo.ParseEioSignalList` specifies |
| `Controller.Ocla.Configure` | src/ConfigurationRS/Ocla/Ocla.cpp:19-63 | reports the `Triggers.ConfigurePlan` outcome and leaves the registry `Triggers.AfterConfigure` describes |
| `Controller.Ocla.AddTrigger` | src/ConfigurationRS/Ocla/Ocla.cpp:65-186 | reports the `Triggers.AddTriggerPlan` outcome and leaves the registry `Triggers.AfterAdd` describes |
| `Controller.Ocla.EditTrigger` | src/ConfigurationRS/Ocla/Ocla.cpp:188-308 | reports the `Triggers.EditTriggerPlan` outcome and leaves the registry `Triggers.AfterEdit` describes |
| `Controller.Ocla.RemoveTrigger` | src/ConfigurationRS/Ocla/Ocla.cpp:310-328 | reports the `Triggers.RemoveTriggerPlan` outcome and leaves the registry `Triggers.AfterRemove` describes |
| `Controller.Ocla.Verify` | src/ConfigurationRS/Ocla/Ocla.cpp:762-827 | the counting loops return true exactly when `Verifier.Verified` holds |
| `Controller.Ocla.ProgramInstance` | src/ConfigurationRS/Ocla/Ocla.cpp:741-758 | programs one instrument as `Capture.ProgramIp` describes |
| `Controller.Ocla.ClearAllChannels` | src/ConfigurationRS/Ocla/Ocla.cpp:749-751 | the clearing loop leaves the channels `Capture.ClearChannels` describes |
| `Controller.Ocla.WriteChannels` | src/ConfigurationRS/Ocla/Ocla.cpp:754-758 | the writing loop overlays the instance's own trigger configurations on channels 0, 1, 2, … |
| `Controller.Ocla.Program` | src/ConfigurationRS/Ocla/Ocla.cpp:727-760 | the instance loop leaves the instruments `Capture.ProgramInstances` describes |
| `Controller.Ocla.Start` | src/ConfigurationRS/Ocla/Ocla.cpp:829-871 | reports the `Capture.StartPlan` outcome and leaves the instruments `Capture.AfterStart` describes |
| `Controller.Ocla.GetStatus` | src/ConfigurationRS/Ocla/Ocla.cpp:692-725 | reports the `Capture.StatusPlan` outcome |
| `Controller.Ocla.SignalWaveform` | src/ConfigurationRS/Ocla/Ocla.cpp:661-679 | the row-copy loop builds the waveform `Waveform.SignalWaveOf` specifies |
| `Controller.Ocla.ProbeWaveform` | src/ConfigurationRS/Ocla/Ocla.cpp:655-684 | the signal loop builds the waveform `Waveform.ProbeWaveOf` specifies |
| `Controller.Ocla.GetWaveform` | src/ConfigurationRS/Ocla/Ocla.cpp:634-690 | the sample and probe loops return what `Waveform.WaveformPlan` specifies |
| `Controller.Ocla.UpdateOutput` | src/ConfigurationRS/Ocla/Ocla.cpp:1043-1053 | the update loop builds the image `EioIo.ApplyValues` specifies |
| `Controller.Ocla.SetIo` | src/ConfigurationRS/Ocla/Ocla.cpp:1008-1065 | a rejected plan changes no instrument; otherwise the image of `EioIo.SetIoPlan` is written, and the result is an error exactly when the readback differs from it |
| `Controller.Ocla.StripNames` | src/ConfigurationRS/Ocla/Ocla.cpp:1071-1079 | the loop strips the names as `EioIo.StripMarkers` specifies |
| `Controller.Ocla.FindMsb` | src/ConfigurationRS/Ocla/Ocla.cpp:1101-1106 | the loop computes `EioIo.MsbPos` |
| `Controller.Ocla.CutValues` | src/ConfigurationRS/Ocla/Ocla.cpp:1113-1119 | the loop cuts the values `EioIo.ReadValues` specifies |
| `Controller.Ocla.GetIo` | src/ConfigurationRS/Ocla/Ocla.cpp:1067-1122 | returns the values of `EioIo.GetIoPlan`, or its error |

## Left out

- The session registry `m_sessions` is a static member in the source, shared by every controller object. Here it is a field of one `Ocla` object.
- Error messages, `CFG_POST_ERR`/`CFG_POST_MSG` text and the `show_*` reports (`show_info`, `show_instance_info`, the signal tables) are left out. Each error path returns a named error instead of printing.
- `OclaDebugSession::load`, and the file-system test in `start_session`, are inputs to `StartSession`: a flag saying whether the file exists, and the load's outcome.
- The OCLA and EIO IP blocks and the JTAG adapter are abstract register state keyed by base address. An unused address reads as an empty device, and a write to it has no effect. A write the hardware drops is modelled by a non-latching EIO block.
- `CFG_parse_signal`, `CFG_type_event_sanity_check`, the `convert_*` functions and `CFG_toupper` are not part of this model. Their results are inputs: a parsed selector, a pairing flag and enumerated mode, condition, type and event.
- `CFG_convert_string_to_u64` is not part of this model. It is taken as accepting exactly the decimal numerals below 2^64.
- `OclaDomain` is not part of this model, so its lookups are assumptions, each stated by the member it becomes:
  - `get_number_of_triggers(index)` counts the domain's triggers whose `instance_index` equals `index` (`Topology.TriggerCount`).
  - `get_instance(index, ...)` returns the first instance of the domain with that index (`Lookup.FindInstance`).
  - `get_trigger` and `remove_trigger` take 1-based positions in the domain's list, as the trigger listing numbers them (`Triggers.TriggerSlot`).
- `EioInstance::get_num_words` is not part of this model. The output register width is an input of `SetIo`.
- The `.at()` bounds exceptions and `CFG_ASSERT` checks are left out. Reads past the end of a word vector read as zero, and writes past it are not stored.
- When a signal row is read past the end of its source row, `CFG_copy_bits_vec32` takes the next row's bits. This follows from the bit offset, which counts into the whole buffer.
- Sizes such as `words_per_line * depth` and the `uint32_t` error count are unbounded integers. The widths that reach a bit position are wrapped explicitly: the range check, `probe_num`, the words-per-row count and the `get_io` top bit.
- `sample_data[...]` inserts a default `ocla_data` into the map for a probe whose instance was not read. `Waveform.DataFor` returns the empty sample set and leaves the map unchanged; the waveform is the same.
- `parse_eio_signal_list` pushes partial results onto its output vectors before it fails. On failure the model returns nothing, and the callers discard those vectors in either case.
- `Triggers.AddTriggerPlan` uses the corrected range check `bit_end < bitwidth`, not the wrapping `uint32_t` check written in Ocla.cpp:150-158. The two differ only when the end bit is 0xFFFFFFFF (see Findings).
- `Triggers.EditTriggerPlan` uses the same corrected range check, not the wrapping one written in Ocla.cpp:268-283.
- `Controller.Ocla.AddTrigger` inherits the corrected range check from `Triggers.AddTriggerPlan`.
- `Controller.Ocla.EditTrigger` inherits the corrected range check from `Triggers.EditTriggerPlan`.
- `EioIo.GetIoPlan` returns a fresh list of values. The source appends them with `push_back` to the caller's `output` vector, which it never clears and leaves as it was on failure (Ocla.cpp:1114-1119).
- `Controller.Ocla.GetIo` returns that fresh list, so it does not model values that the caller's vector already held.
- `Controller.Ocla.SetIo` and `Controller.Ocla.GetIo` state their outcome against the plan evaluated on the entry state. The plan reads the registry's `EioInstance` objects, which these operations do not change.
- `Controller.Ocla.Verify` is stated for a given session value rather than the `OclaDebugSession` pointer the source receives.
- `src/ConfigurationRS/BitGenerator/BitGenerator.cpp` is not part of this model.

## Findings

| source | as written | input that shows it | evidently intended | confidence | as-written member | corrected member |
|---|---|---|---|---|---|---|
| src/ConfigurationRS/Ocla/Ocla.cpp:150-158 (and 268-283 in `edit_trigger`) | the range check computes `width = bit_end - bit_start + 1` and rejects when `pos + width > bitwidth`, all in `uint32_t` | selector `sig[0xFFFFFFFF:1]` on an 8-bit signal: width wraps to 0xFFFFFFFF and pos + width wraps to 0, so the range is accepted | reject every range whose end bit lies at or above the signal width (`bit_end < bitwidth`) | not executed | `Triggers.RangeCheckWrapsAsWritten` | `Triggers.RangeTriggerShape` |

The model uses the corrected check in `Triggers.AddTriggerPlan` and
`Triggers.EditTriggerPlan`. `Triggers.RangeChecksAgree` shows that the two
checks differ only when the end bit is 0xFFFFFFFF.
