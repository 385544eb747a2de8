# A verified model of the scanner

Shuvscan collects evidence from a host in one shell session, frames every probe's
output with marker lines that carry the session's nonce, parses the transcript back,
turns each section into findings, observations or errors, and does this for a fleet of
targets at once. This project models that path in Dafny and proves what the scanner
is built for: a host that was not collected completely never shows PASS, however the
output is cut, forged or interleaved.

## How it is organised

| files | what they model |
|---|---|
| `Text.dfy`, `Utf8.dfy`, `Sorting.dfy`, `Bags.dfy` | the string, UTF-8 (section 3 of RFC 3629), sorting and counting operations the rest uses |
| `Protocol.dfy` | the line-driven transcript parser, as the methods it is and as a fold |
| `Framing.dfy`, `MarkerLines.dfy`, `Transcripts.dfy` | what the parser guarantees: declarative reading, non-interference, truncation safety |
| `OsRelease.dfy` | the second decoder: hexadecimal, bytes, a shell-quoted value |
| `Script.dfy`, `Collection.dfy`, `Gates.dfy` | the script generator with a small shell semantics, and the proof that parsing a session's output gives each probe its direct specification |
| `Transport.dfy`, `Registry.dfy`, `Sessions.dfy` | draining under a limit; the registry of process groups and its concurrent sessions |
| `Model.dfy`, `Engine.dfy`, `Reports.dfy`, `EndToEnd.dfy` | retained evidence, reports and all they say, verdicts, and the theorems from the host to the verdict |
| `Summary.dfy`, `Jobs.dfy`, `Fleet.dfy`, `Stream.dfy`, `Modes.dfy` | summary and exit code; the buffered and the streaming scheduler over all interleavings |
| `Calendar.dfy`, `Output.dfy` | the civil date of a time stamp; text safe for terminals and HTML |
| `Rendering.dfy`, `Details.dfy`, `Viewer.dfy` | the lines of the report viewer and its state machine |
| `Sampler.dfy`, `Mounts.dfy`, `Packs.dfy` | the embedded sampler and mount loops; manifest validation |

Main results: `Framing.SectionsAreFrames`, `Transcripts.NonInterference` and
`Transcripts.TruncationSafe` about any transcript; `Collection.CollectionMeetsSpec`
about generator and parser together; `EndToEnd.PassIsFramed` and
`EndToEnd.PassExactlyWhenClean` about the verdict; `Engine.FindingsAreExact`,
`Reports.ObservationsAreExact` and `Reports.ErrorsAreExact` about the report;
`Fleet.ResultIsSequential`,
`Stream.OverDispatchIsExact`, `Stream.CompletedIsClaimed` and `Modes.ExitCodesAgree`
about every interleaving; `Sessions.RegistryIsExact` and
`Sessions.CopyIsStaleExactlyWhenReaped` about PID reuse;
`Calendar.CivilIsDayByDay`; `Viewing.SelectionIsShown`.

Loops of the program are methods with invariants, proved against functions on values;
structures it updates in place (the summary, the registry, the viewer) are classes;
concurrency is a step relation, and theorems about it hold for every run.

## Conditions and findings

* The evidence of a section is the trimmed body with every carriage return before a
  line feed removed, because the parser splits lines as Rust does. It is the trimmed
  body itself exactly when that has no CR LF (`Transcripts.EvidenceIsTrimmedBody`).
* A probe list of which no probe requires a tool produces an empty subshell, which a
  POSIX shell rejects: every such session fails (`Collection.NoToolsNoSession`). The
  command-line scanner never builds such a list, because every built-in probe declares a
  tool (`src/probes/mod.rs:1546-1553`) and packs select built-in probes only; it can
  arrive through the public functions `scan_with_probes` and `build_script`.
* The test at `src/engine.rs:721-724` expects at most twice the workers to be scanned after
  the first failing call. Over all interleavings that holds for a job if and only if it
  has no more targets than that (`Stream.TwiceTheWorkersHoldsIff`); the test's own job, two
  workers and forty targets, is not one of them. What can happen is known exactly: after
  a failure on call k at most k plus twice the workers are completed, and for every job
  and every k some run completes that many, or all targets (`Stream.OverDispatchIsExact`).
* The interrupt watcher kills the groups of a copied list. That is safe for every group
  still registered (`Sessions.WatcherIsSafeWhileRegistered`). Over every run, a PID of the
  copy can reach a process other than the one it was copied for if and only if that
  session has been reaped since (`Sessions.CopyIsStaleExactlyWhenReaped`), and a run that
  ends this way exists (`Sessions.WatcherCanMissItsGroup`).
* At widths up to 4 the viewer gives continuation lines no indent, so a minus sign inside
  an id can begin a line and be counted as a heading (`Rendering.NarrowViewerMiscounts`).
  At every width the rows are found if and only if the count comes out right
  (`Rendering.FoundExactlyWhenCountable`).
* A fragment that reports a truncated sample still lets the host show PASS: only
  unavailable and partial marks and a failing status prevent it
  (`EndToEnd.PassExactlyWhenClean`).
* The civil date is right exactly as long as the year fits 32 bits; every time stamp in
  milliseconds does (`Calendar.CivilIsDayByDay`, `Calendar.MillisFit`). Month lengths
  and leap years are those of section 5.7 and Appendix C of RFC 3339.

What a collection theorem asks of a host: name and kernel are single lines without
surrounding white space (otherwise empty lines or trimming would change them), and no
probe fragment that runs prints a BEGIN or END line of its session. Fragments see the
script's variables and may print the marks whose prefixes these hold, as the built-in
samplers do (`src/probes/mod.rs:505-506`). Fragments that do not know the nonce are a
special case (`Collection.HonestWithoutNonce`). Nonces are non-empty and have no line
feed; probe ids have none either; tool names have no white space.

## Model

| member | source | states |
|---|---|---|
| Protocol.MarkersFor | src/protocol.rs:155-159 | The BEGIN and END prefixes of every nonce end in an underscore and differ at some position, so no line starts with both. |
| Protocol.CollectSections | src/protocol.rs:160-205 | The line loop computes the fold of the state machine: BEGIN drops what is open, END closes only its own id, other lines are collected. |
| Protocol.ParseSectionOutput | src/protocol.rs:361-388 | The loop separates a body into evidence, first unavailable reason, all partial reasons and all collection limits, for every status. |
| Protocol.ParseMeta | src/protocol.rs:232-265 | The metadata loop computes the fold over the assignments, later ones winning, empty values ignored. |
| Protocol.Parse | src/protocol.rs:154-230 | The parser returns the transcript of the fold, with os-release made unavailable when its dump cannot be decoded and the host information drawn from the three metadata sections. |
| Text.ParseI32Spells | src/protocol.rs:179-179 | A text is read as a 32-bit number exactly when it spells it: an optional fitting sign, any zeros and the decimal digits. |
| Protocol.StatusReads | src/protocol.rs:179-179 | The status of a section is the 32-bit number its END line spells, and -1 when it spells none. |
| Protocol.LastValuesCount | src/protocol.rs:232-265 | For hostname, kernel, root and sudo the last assignment in the metadata that is not empty counts; without one the value from before stays. |
| Protocol.ToolsAreTagged | src/protocol.rs:206-230 | A tool is listed exactly when some line is the tag with its name. |
| Protocol.HostIsRead | src/protocol.rs:206-230 | There is host information exactly when there is a metadata section; tools come only from an inventory with status 0, the operating system only from the os-release section, and what is missing is unknown. |
| Protocol.OsReleaseSettles | src/protocol.rs:206-230 | Settling changes no section but os-release, and of that only makes a successful, available one unavailable whose dump cannot be decoded; only from one that can is the name taken. |
| Framing.BeginIsNotEnd | src/protocol.rs:165-189 | No line is a BEGIN and an END line at once. |
| Framing.FoldConcat | src/protocol.rs:163-205 | Parsing a text in two parts is parsing it whole. |
| Framing.LastLineCloses | src/protocol.rs:172-197 | An END line that ends a frame inserts exactly the lines since its BEGIN line, with its status. |
| Framing.SectionsAreFrames | src/protocol.rs:154-205 | An id has a section if and only if some BEGIN line for it is followed by a matching END line with no BEGIN or END line between; the last such pair decides content and status. |
| MarkerLines.BeginLinesAre | src/protocol.rs:163-171 | A line opens a section exactly when it is the BEGIN line of that id followed by any number of carriage returns. |
| MarkerLines.EndLinesAre | src/protocol.rs:172-197 | A line closes a section with a status text exactly when it is the END line of that id with that text, followed by any number of carriage returns. |
| Transcripts.FrameLines | src/protocol.rs:145-152 | The text a section prints splits into its BEGIN line, the lines of its body and its END line, whatever the body ends with. |
| Transcripts.FoldFrame | src/protocol.rs:145-205 | Parsing one printed section from any state sets exactly that section and closes it. |
| Transcripts.NonInterference | src/protocol.rs:154-230 | With any text in front that is empty or ends in a line feed, and arbitrary text behind, exchanging one section's body for any other without BEGIN or END lines changes no other section and, outside the metadata, not the host information. |
| Transcripts.NonceFreeBody | src/protocol.rs:361-388 | A body that does not contain the nonce raises no mark of any kind and is kept as evidence: trimmed, with the carriage returns before line feeds gone. |
| Transcripts.EvidenceIsTrimmedBody | src/protocol.rs:163-205 | The evidence is the trimmed body itself if and only if the trimmed body contains no CR LF. |
| Transcripts.CutFrames | src/protocol.rs:163-205 | Cutting a sequence of frames anywhere, with or without a replacement character at the cut, leaves only sections of the whole. |
| Transcripts.TruncationSafe | src/protocol.rs:154-230 | For every byte position, parsing the lossily decoded prefix of a well-formed transcript yields only sections that the full transcript has, unchanged, metadata included; the host information is absent or the full one, in which at most the operating system is unknown and the tools are empty. |
| OsRelease.DecodeHex | src/protocol.rs:267-291 | The nibble loop decodes what `HexBytes` decodes, with the same error first. |
| OsRelease.HexBytesInverts | src/protocol.rs:267-294 | Decoding succeeds with given bytes if and only if the text spells them in hexadecimal, in either case and with any ASCII white space, and they fit the limit. |
| OsRelease.OsNameRejects | src/protocol.rs:267-294 | The decoder fails if and only if the text spells no UTF-8 bytes within the limit: odd, invalid, oversized and non-UTF-8 input and nothing else. |
| OsRelease.ParseValue | src/protocol.rs:307-359 | The two character loops compute the value of double-quoted, single-quoted and bare text, which the rows below give by positions. |
| OsRelease.QuotedValueRoundTrip | src/protocol.rs:311-331 | Any value double-quoted as in section 2.2.3 of the POSIX Shell Command Language parses back to itself; the empty one gives none. |
| OsRelease.SingleQuotedValue | src/protocol.rs:332-336 | Text in single quotes is its own value if and only if it is not empty and has no single quote; otherwise there is none. |
| OsRelease.BareValueRoundTrip | src/protocol.rs:337-358 | A value written without quotes, with a backslash before every character a bare word may not hold, parses back to itself unless it is empty or ends in a quote, which gives none. |
| OsRelease.BareValues | src/protocol.rs:337-358 | Some bare word gives a value if and only if that is not empty and does not end in a quote: no other spelling helps. |
| OsRelease.BareValueByPositions | src/protocol.rs:337-358 | A value that is not enclosed in quotes is accepted exactly when it is not empty, neither begins nor ends with a quote, every forbidden character has an odd number of backslashes before it and the end an even one; it gives the text without the backslashes that are not escaped. |
| OsRelease.DoubleValueByPositions | src/protocol.rs:311-331 | Text in double quotes is accepted exactly when it is not empty, every double quote in it has an odd number of backslashes before it and the end an even one; only backslashes in front of a character that needs them go. |
| OsRelease.BareCharacters | src/protocol.rs:345-356 | Inside a bare word white space and the eleven shell characters give no value, and every other character stays. |
| OsRelease.DoubleCharacters | src/protocol.rs:318-326 | Between double quotes a backslash disappears in front of four characters and stays in front of all others. |
| OsRelease.ParseOsRelease | src/protocol.rs:296-305 | The loop over the lines returns the value of the last PRETTY_NAME line. |
| OsRelease.LastAssignmentDecides | src/protocol.rs:296-305 | Only the last PRETTY_NAME line matters, whatever stands before it. |
| OsRelease.ParseOsReleaseHex | src/protocol.rs:267-294 | Hexadecimal, bytes, UTF-8 text and assignment composed, with each error. |
| OsRelease.OsNameRoundTrip | src/protocol.rs:267-359 | A file whose last PRETTY_NAME line is a quoted name, dumped in hexadecimal with any spacing, yields that name. |
| OsRelease.DumpSpells | src/protocol.rs:99-103 | What `od` prints for the file spells its bytes. |
| Script.ProbeBody | src/protocol.rs:124-143 | The generated body is the tool checks, then the gates in order, then the fragment. |
| Script.RunSection | src/protocol.rs:145-152 | Running the three lines of a section prints its frame: the BEGIN line, what its subshell prints, a line feed and the END line with the subshell's exit status; the variables stay as they were. |
| Script.CapabilitiesCommand | src/protocol.rs:104-118 | The inventory asks for the sorted, deduplicated required tools of all probes. |
| Script.BuildScript | src/protocol.rs:89-122 | The built script is the preamble, the three metadata sections and one section per probe, in order. |
| Script.RunParts | src/protocol.rs:145-152 | A session over sections with non-empty bodies prints exactly their frames. |
| Collection.MarkedBody | src/protocol.rs:361-388 | A mark of any kind printed in front of a body without BEGIN or END lines adds its reason in front of the reasons of that kind and changes neither evidence nor the other reasons. |
| Collection.MarkReads | src/protocol.rs:361-388 | A printed mark of any kind is read as that mark, with its trimmed reason or, if that is empty, the words for no reason, and is no BEGIN or END line. |
| Collection.ProbeSection | src/protocol.rs:124-143 | What a probe's generated body prints on a host parses to the direct specification of that probe: its gates decide first; if it runs, the section is what the fragment's own output says, its own unavailable, partial and truncated marks included, with the root recommendation in front of its partial reasons. |
| Gates.GatesDecide | src/protocol.rs:124-143 | The direct specification in the words of the report: unavailable with the missing tools in order, else unavailable for want of root, else the fragment's own section, marked partial where root would have shown more. |
| Collection.OwnSectionWithoutNonce | src/protocol.rs:361-388 | A fragment whose output does not contain the nonce has its trimmed output as evidence and no mark. |
| Collection.MetaReadsBack | src/protocol.rs:232-265 | The metadata the script prints reads back as the host's name, kernel, privilege and sudo flag. |
| Collection.OsSection | src/protocol.rs:99-103 | The os-release section is available if and only if the file is absent or readable, dumpable, within the limit and UTF-8, and gives its name. |
| Collection.CapabilitySection | src/protocol.rs:104-118 | The inventory prints one plain line per present tool, and the lines read back as those tools. |
| Collection.CollectionMeetsSpec | src/protocol.rs:89-230 | For distinct ids, at least one required tool and every host whose fragments print no BEGIN or END line: the session completes, and parsing its output gives each probe its direct specification (unavailable, or run with the marks it prints itself), exactly the expected sections, and the host's information. |
| Collection.HonestWithoutNonce | src/protocol.rs:89-230 | Fragments whose output does not contain the nonce print no BEGIN or END line, so all theorems about a host apply to them. |
| Collection.ReportedToolsSpec | src/protocol.rs:104-118 | The reported tools are strictly sorted and are exactly the required tools that are present. |
| Collection.NoToolsNoSession | src/protocol.rs:104-118 | Without any required tool the inventory's subshell is empty, a syntax error: every such session ends with status 2. |
| Transport.DrainCapped | src/transport.rs:189-207 | Draining stops at the first error or empty chunk or at the end: an error there is the result; otherwise the result is exactly the first bytes, up to the limit, of all chunks before, flagged as truncated if and only if there are more. |
| Transport.DeliveredStops | src/transport.rs:189-207 | What the reads deliver, by position: the error that ends them, or the chunks before the end joined in order. |
| Transport.InterruptsChangeNothing | src/transport.rs:195-195 | An interrupted read, at any place, changes nothing of what is delivered. |
| Utf8.DecodeEncode | src/transport.rs:150-153 | Encoding any text and decoding it gives the text back. |
| Utf8.EncodeDecode | src/protocol.rs:291-293 | Strict decoding succeeds only on the encoding of its result. |
| Utf8.LossyCut | src/transport.rs:150-153 | Lossy decoding of a prefix of bytes is a prefix of the lossy decoding, plus at most one replacement character. |
| Registry.Groups.Push | src/transport.rs:278-281 | Registering appends the PID. |
| Registry.Groups.Terminate | src/transport.rs:263-271 | A group kill is issued if and only if the PID fits a signed number. |
| Registry.Groups.Retain | src/transport.rs:283-287 | Removing keeps the other entries in order. |
| Registry.Groups.TerminateAll | src/transport.rs:305-310 | The watcher kills every group of the copied list, in order. |
| Registry.ActiveGroup.Register | src/transport.rs:278-281 | A new guard holds its PID and has registered it. |
| Registry.ActiveGroup.Unregister | src/transport.rs:283-287 | Unregistering removes the PID once and leaves nothing to drop. |
| Registry.ActiveGroup.Drop | src/transport.rs:290-297 | Dropping a guard that still holds its PID kills the group, then removes it; otherwise it does nothing. |
| Registry.Execute | src/transport.rs:72-125 | On every way out the log is register, kill, remove, reap (no reap after a panic) and the PID is no longer registered. |
| Registry.WithoutMembers | src/transport.rs:283-287 | Removal takes out exactly the one PID. |
| Registry.WithoutAbsent | src/transport.rs:283-287 | Removing a PID that is not registered changes nothing, so a session leaves the registry as it found it. |
| Sessions.RegistryIsExact | src/transport.rs:72-125 | Over any number of concurrent sessions and any reuse of reaped PIDs, the registry is duplicate-free and holds exactly the sessions between registration and removal, none of them a foreign process. |
| Sessions.KillsHitOwnChild | src/transport.rs:101-122 | Every group kill of a session comes before its reaping, while its PID belongs to its own child and to nothing else. |
| Sessions.EndedIsUnlisted | src/transport.rs:101-123 | A session that has ended is not registered; an entry with its PID is another session's. |
| Sessions.WatcherIsSafeWhileRegistered | src/transport.rs:305-310 | A kill of the watcher hits a session's own child if the group is still registered at that moment. |
| Sessions.WatchIsCopied | src/transport.rs:305-310 | Whatever the watcher still holds it copied, in some earlier state of the run, from a session that was registered then. |
| Sessions.CopyHitsUntilReaped | src/transport.rs:305-310 | In every later state of the run, until that session has been reaped, the copied PID is the session's own child and nothing else; a kill can reach another process only after the reaping. |
| Sessions.CopyIsStaleExactlyWhenReaped | src/transport.rs:305-310 | Over every run: the copied PID can reach another process, at once or after the system has given the PID away while it is still in the copy, if and only if the session it was copied from has been reaped since. |
| Sessions.WatcherCanMissItsGroup | src/transport.rs:305-310 | A run in which the watcher's next kill addresses a process no session owns: the copy outlives the registration. |
| Model.FitIsLongest | src/model.rs:164-186 | The kept prefix fits, no longer whole-code-point prefix does, and at most three bytes of the limit stay unused. |
| Model.RetainedConserves | src/model.rs:164-186 | Evidence is truncated if and only if it exceeds the limit; otherwise it is unchanged; kept and omitted bytes add up to all. |
| Model.TruncateEvidence | src/model.rs:164-186 | The backwards search for a boundary, on bytes, gives that longest prefix with the note and the omitted count. |
| Model.HighestSeveritySpec | src/model.rs:156-160 | The highest severity is that of some finding, none is above it, and there is none if and only if there is no finding. |
| Model.SeveritiesAreOrdered | src/model.rs:7-13 | Info, low, medium, high and critical, in this order. |
| Engine.EvaluateProbe | src/engine.rs:124-160 | One round of the probe loop yields the probe's errors, finding and observation, of which the rows on findings, observations and errors say what they are. |
| Engine.EvaluateSections | src/engine.rs:124-160 | The loop over the probes yields all of them, in probe order. |
| Engine.ScanWithContext | src/engine.rs:70-186 | The report of a collected transcript, or the collector error of a failed session. |
| Engine.HumanVerdict | src/output.rs:52-63 | The two tests of the text report print the verdict line of the report and no other. |
| Engine.HtmlVerdict | src/output.rs:590-600 | The HTML report shows the same verdict. |
| Engine.NeverASilentPass | src/engine.rs:92-156 | A report shows PASS if and only if the session delivered its whole output, the capability and os-release sections were collected, and every probe has a complete section that its evaluator rejects. |
| Engine.FindingsAreExact | src/engine.rs:124-199 | Every finding stands in the report exactly as often as there are probes that raise it on their untruncated output, with the retained evidence; the findings are sorted by severity, then id. |
| Reports.ObservationsAreExact | src/engine.rs:140-154 | The observations record, one by one and in probe order, exactly the probes without a verdict whose section is present, available and of status 0: id, title, category and script of the probe, partial reason and limits of the section, the retained output, and the two truncation flags. |
| Reports.ErrorsAreExact | src/engine.rs:92-142 | An error stands in the report exactly when the session was cut, a metadata section is missing, unavailable or failed, or some probe's section is missing, unavailable, partial or failed, each in its own words. |
| Reports.ReportSays | src/engine.rs:157-186 | A report carries target, version, pack and number of probes; a failed session leaves nothing but the collector error. |
| Engine.GapsAreReported | src/engine.rs:124-147 | Every missing, unavailable, partial or failed evidence section leaves an error under its probe's id. |
| Engine.TruncationIsReported | src/engine.rs:98-106 | Cut or failed output always leaves a collector error and the verdict INCOMPLETE. |
| EndToEnd.PassIsFramed | src/engine.rs:92-156 | On the transcript's own lines: PASS if and only if nothing was cut, the last capability frame has status 0, the last os-release frame has status 0, no mark and a decodable dump, and the last frame of each probe is complete, unmarked, of status 0 and rejected by the evaluator; a frame for the host's names is not needed. |
| EndToEnd.PassExactlyWhenClean | src/engine.rs:70-186 | From the host: the report is PASS if and only if some probe requires a tool, the output fits the transport limit, os-release is usable, and every probe has its tools and privilege, succeeds, prints no unavailable and no partial mark, and is rejected by its evaluator. A sample that was truncated does not prevent PASS. |
| EndToEnd.FindsNothingWithoutNonce | src/engine.rs:124-156 | For a fragment that does not know the nonce, finding nothing is: tools and privilege present, status 0, and the evaluator rejects the trimmed output. |
| EndToEnd.CutIsSafeAndReported | src/engine.rs:92-106 | Output beyond the limit: the verdict is INCOMPLETE with a collector error, every section shown, metadata or probe, is the host's own, and the host information is absent or the host's own with at most the operating system unknown and the tools empty. |
| Summary.ScanSummary.ForTargets | src/engine.rs:33-38 | A new summary counts nothing. |
| Summary.ScanSummary.Include | src/engine.rs:40-45 | Including a report updates all five fields as the specification does. |
| Summary.Summarize | src/main.rs:221-225 | The buffered mode's loop computes the tally of its reports. |
| Summary.TallyDescribes | src/engine.rs:40-49 | The tally says how many reports there are, whether some collector failed, whether anything was left uncollected, and the maximal severity. |
| Summary.TallyOfPermutation | src/engine.rs:40-45 | Every completion order gives the same summary. |
| Summary.ExitCodeMeans | src/main.rs:405-423 | Exit 2 if and only if coverage or a collector failed (or, strictly, anything was not collected); otherwise 1 if and only if some finding reaches the threshold. |
| Summary.ModesAgree | src/main.rs:388-403 | For reports in any order and the same write result, the streaming and the buffered mode exit alike. |
| Summary.PartialStreamFails | src/main.rs:388-403 | A stream cut short by any write error exits with 2. |
| Jobs.PrefixCounts | src/engine.rs:263-291 | Among the entries of the first indices each index occurs exactly once, with its own report. |
| Jobs.EveryScanIsReported | src/engine.rs:307-333 | A scan that returns is reported as it is; one that panics gives a report of its target with the one collector error and nothing else. |
| Jobs.ExpectedIsSorted | src/engine.rs:299-304 | The expected result is a permutation of the sequential map, sorted by target and, within a target, by original index. |
| Sorting.StringLeIsDictionary | src/engine.rs:299-304 | Texts are ordered as in a dictionary: a beginning first, else the first difference decides. |
| Fleet.ClaimedExactlyOnce | src/engine.rs:262-291 | In every reachable state each claimed index is held exactly once, in progress or done with its own report, and nothing else is held. |
| Fleet.NeverScannedTwice | src/engine.rs:270-273 | No two workers ever scan the same index. |
| Fleet.ConcurrencyIsBounded | src/engine.rs:262-266 | Never more scans in flight than the concurrency and the number of targets. |
| Fleet.RunLength | src/engine.rs:269-291 | Every interleaving is finite; its length is determined by its last state. |
| Fleet.SomeStepPossible | src/engine.rs:269-291 | No deadlock: while a worker has not left, some step is possible. |
| Fleet.ResultIsSequential | src/engine.rs:250-305 | However the workers interleave and whichever scans panic, the result is the sorted sequential map. |
| Stream.WorkerMoves | src/engine.rs:388-412 | Each worker step conserves the claimed entries. |
| Stream.ClaimedExactlyOnce | src/engine.rs:388-420 | In every reachable state each claimed entry is in exactly one place: a worker, the channel, the receiver or the summary. |
| Stream.OverDispatchIsBounded | src/engine.rs:375-426 | In every reachable state the claimed targets are at most the received reports plus twice the workers; after a consumer error, at most the calls plus twice the workers. |
| Stream.CallsStopAtFirstError | src/engine.rs:414-423 | The call that fails is the one for the last included report, and no step after it calls the consumer. |
| Stream.FirstErrorIsFinal | src/engine.rs:414-423 | From the first error on, over the rest of any run, the number of calls stays and the claims stay within the bound. |
| Stream.WorstRun | src/engine.rs:375-423 | For every job and every report k there is a run whose consumer fails on call k when k plus twice the workers, or all targets, are claimed. |
| Stream.RunToEnd | src/engine.rs:375-429 | Every run, at whatever step, can be continued until the receiver has finished. |
| Stream.OverDispatchIsExact | src/engine.rs:375-429 | For every job, a run that fails on call k and completes at least c targets exists if and only if there is a report k, and c is at most k plus twice the workers and at most the number of targets. |
| Stream.TwiceTheWorkersHoldsIff | src/engine.rs:721-724 | That a first failing call leaves at most twice the workers completed holds for all runs of a job if and only if the job has at most that many targets. |
| Stream.RunsAreBounded | src/engine.rs:375-426 | Every run ends, also after a consumer error. |
| Stream.SomeStepPossible | src/engine.rs:375-426 | No deadlock on the bounded channel: until the receiver has finished, some step is possible. |
| Stream.CompletedIsClaimed | src/engine.rs:375-429 | At the end the completed targets are exactly the claimed ones, and all targets if the consumer never failed. |
| Stream.SummaryIsBuffered | src/engine.rs:362-429 | A stream that dispatched everything ends with the summary of the sorted buffered mode. |
| Modes.ExitCodesAgree | src/main.rs:160-226 | Over all interleavings of both modes and all panics, complete runs exit alike for the same write result. |
| Modes.PartialOrPanickedFails | src/main.rs:388-423 | A stream that left targets out, or any scan that panicked, exits with 2. |
| Calendar.NextIsLater | src/output.rs:725-738 | The next Gregorian date has the next serial number. |
| Calendar.CivilFromDays | src/output.rs:725-738 | In 64-bit arithmetic of which no step overflows or goes below zero, the closed form gives month and day of the date with that serial number and the low 32 bits of its year. |
| Calendar.CivilIsDayByDay | src/output.rs:725-738 | The closed form equals counting day by day from 1970-01-01 if and only if the day count is at most 784351576776, the end of the year 2147483647. |
| Calendar.CivilInverts | src/output.rs:725-738 | For every valid date from 1970 to that year, counting its days by years and months and converting back gives the date. |
| Calendar.MillisFit | src/output.rs:708-712 | Every 64-bit millisecond count lies within that range. |
| Calendar.TimeStampIsExact | src/output.rs:708-723 | For every 64-bit millisecond count the date and time of day stand for exactly the whole seconds. |
| Output.TerminalSafe | src/output.rs:139-149 | The character loop computes the safe form. |
| Output.SafeSpec | src/output.rs:139-156 | No control and no reordering character is left, and a text is unchanged if and only if it has none. |
| Output.SafeConcat | src/output.rs:139-149 | A text is made safe piece by piece, so nothing is lost or moved. |
| Output.SafeOf | src/output.rs:139-149 | A safe character stays; tab, carriage return and line feed get their own escapes, every other unsafe one its code in hexadecimal, which reads back. |
| Output.Escape | src/output.rs:692-706 | The HTML loop computes the entities of the safe form. |
| Output.EntitiesRead | src/output.rs:692-706 | Escaped text is read back as the text, in front of anything. |
| Output.EntitiesHoldNoMarkup | src/output.rs:692-706 | Escaped text has no angle bracket and no quote. |
| Rendering.WrapLine | src/tui.rs:484-519 | The loop over the characters computes the wrapped line, with the width at least 1. |
| Rendering.WrappedFits | src/tui.rs:484-519 | No wrapped line is wider than the width. |
| Rendering.WrappedKeeps | src/tui.rs:484-519 | Without the indents the wrapped lines are the text: nothing is lost. |
| Rendering.Ellipsized | src/tui.rs:521-532 | A line that fits is unchanged; any other becomes exactly the width, ending in an ellipsis after its own characters. |
| Rendering.BodyLines | src/tui.rs:223-309 | The body is the rows of findings, observations and errors, or one line when there is none. |
| Details.FindingsComeFirst | src/tui.rs:230-257 | The first rows are the findings, each expanded exactly when its own number is. |
| Details.ObservationsFollow | src/tui.rs:258-290 | The rows behind them are the observations, numbered on. |
| Details.ErrorsComeLast | src/tui.rs:291-311 | The last rows are the errors, numbered on. |
| Details.FindingRow | src/tui.rs:230-237 | A finding's row is its marker, padded severity, id and title, and behind it the details exactly if it is expanded. |
| Details.ObservationRow | src/tui.rs:258-263 | The same for an observation, with id and title. |
| Details.ErrorRow | src/tui.rs:291-307 | An expanded error shows its message below its heading, a collapsed one in it. |
| Details.FindingShows | src/tui.rs:238-255 | Which line of a finding's details says what: command, omitted bytes, the safe lines of the evidence, the fix. |
| Details.ObservationShows | src/tui.rs:264-288 | Which line of an observation's details says what: command, partial reason, truncation, each collection limit, the exceeded budget, the safe lines of the output. |
| Rendering.RowIsSpan | src/tui.rs:311-334 | Wherever the headings can be counted, counting heading characters in the wrapped body finds, for a row, exactly that row's own wrapped lines. |
| Rendering.WideIsCountable | src/tui.rs:484-519 | For widths above 4 the headings of every body can be counted. |
| Rendering.FoundExactlyWhenCountable | src/tui.rs:311-334 | At every width: counting finds the own lines of all rows if and only if the wrapped body has as many lines that begin like a heading as there are rows. |
| Rendering.NarrowViewerMiscounts | src/tui.rs:484-519 | At four columns every report with a collapsed finding whose id has a minus sign in its tenth place, as in SHUV-AUTH-001, is miscounted: some row is not found. |
| Viewing.Viewer.constructor | src/tui.rs:44-55 | A new viewer is in range. |
| Viewing.Viewer.Handle | src/tui.rs:57-113 | Handling a key changes the fields as specified and keeps them in range. |
| Viewing.Viewer.MoveSelection | src/tui.rs:357-365 | The selection is clamped to the rows. |
| Viewing.Viewer.ShiftTarget | src/tui.rs:367-375 | The target wraps around, selection and scroll are reset. |
| Viewing.Viewer.ToggleExpanded | src/tui.rs:377-386 | Toggling adds or removes the selected row. |
| Viewing.Viewer.FindAnchor | src/tui.rs:311-325 | The counting loop finds the heading with the selected number of headings before it. |
| Viewing.Viewer.FollowSelection | src/tui.rs:336-355 | The scroll position moves as specified. |
| Viewing.Viewer.Frame | src/tui.rs:117-149 | Drawing a frame gives the specified lines and fields and keeps them in range; the rows below say what stands in it. |
| Viewing.HeaderIsShown | src/tui.rs:172-213 | Every frame, as far as it is high enough, begins with target number and name, the pack and the host exactly where they are known, INCOMPLETE if there are errors, else PASS if there are no findings, else FINDINGS, and the three counts. |
| Viewing.VerdictIsTold | src/tui.rs:198-205 | In a frame of two columns or more the first character of the verdict line tells the verdict: an incomplete report never looks like one that passes. |
| Viewing.BodyIsShown | src/tui.rs:117-149 | Below the header stands the wrapped help page or the wrapped rows from the scroll position on, then nothing, and the footer in the last line. |
| Viewing.Viewer.SelectedLine | src/tui.rs:151-160 | The highlighted line is the anchor's place in the frame. |
| Viewing.AlwaysInRange | src/tui.rs:57-149 | After every sequence of keys and frames, target, selection and expanded rows are in range. |
| Viewing.KeysUndo | src/tui.rs:57-113 | Opposite keys undo each other: help and its closing, expanding and collapsing, next and previous target, and moves that did not reach an end. |
| Viewing.QuitKeys | src/tui.rs:57-70 | The viewer ends exactly with q and Ctrl-C, and outside the help page with Esc, and changes nothing then. |
| Viewing.PagesAndEndsAreSteps | src/tui.rs:71-92 | Page keys are as many single steps as the body has lines, End and Home as many as there are rows, and Home resets the scroll position. |
| Viewing.TabGoesRound | src/tui.rs:101-109 | Tab goes to the next target and from the last to the first, BackTab back; a new target is shown from its first row. |
| Viewing.SameKeys | src/tui.rs:70-111 | Which keys mean the same, and that any other character does nothing. |
| Viewing.ToggleChangesOneRow | src/tui.rs:377-386 | Expanding or collapsing changes the selected row of the current target and nothing else. |
| Viewing.FrameFits | src/tui.rs:117-149 | Every frame has exactly the requested height (at least 1) and no line over the width (at least 1). |
| Viewing.FollowedShows | src/tui.rs:336-355 | The new scroll position shows the start of the span, and all of it if it fits. |
| Viewing.FollowedMovesLeast | src/tui.rs:336-355 | Of all scroll positions that show the whole span the new one is the nearest to the old one; a span that is too long is shown from its start. |
| Viewing.SelectionIsShown | src/tui.rs:117-160 | Outside the help page and with a non-empty body area, at every width above 4 and at every smaller one at which the headings can be counted, the frame shows the selected row's heading where the highlight goes, and all its lines if they fit. |
| Sampler.Sample | src/probes/mod.rs:150-150 | The one-pass ring prints the whole list up to 24 lines and otherwise the first 12, the last 12 and the mark, in order. |
| Sampler.SampledOnce | src/probes/mod.rs:150-150 | No entry is printed twice, and the mark stands there if and only if there are more than 24. |
| Mounts.Resolve | src/probes/mod.rs:287-308 | The running best returns the value of the last of the deepest matching mount points, and nothing if and only if none matches. |
| Mounts.MatchesIsPrefix | src/probes/mod.rs:295-300 | A mount point matches a path if and only if its components are the first components of the path, so a sibling whose name only begins alike never matches. |
| Mounts.ComponentsOf | src/probes/mod.rs:295-300 | Every absolute path without empty components and without a slash at the end has components. |
| Mounts.ResolvesByNames | src/probes/mod.rs:287-308 | By components: the result is the value of the last mount with the most components among those that begin the path, and nothing if none does. |
| Mounts.LongerIsDeeper | src/probes/mod.rs:295-305 | Of two mount points on the way to an absolute path the longer lies below the shorter, so length is depth. |
| Mounts.DeepestIsUnique | src/probes/mod.rs:302-305 | At most one mount is the last of the deepest, so the result is determined. |
| Mounts.DeepestIsBelowAll | src/probes/mod.rs:295-305 | The chosen mount point lies below every other on the way to the path. |
| Mounts.DecodeOctal | src/probes/mod.rs:339-348 | The rewriting loop decodes every escape once, from left to right. |
| Mounts.DecodeInvertsEscape | src/probes/mod.rs:339-348 | For every path and every escaping that includes the backslash, decoding inverts escaping in front of any text, so output is never decoded again. |
| Packs.ValidateIdentifier | src/packs.rs:155-179 | An identifier is accepted if and only if it is short enough, starts with an ASCII letter or digit and has only the allowed characters. |
| Packs.ResolveProbes | src/packs.rs:129-142 | The probe list is accepted if and only if its ids are distinct and known; the result is their probes in order; otherwise the error names the first bad entry. |
| Packs.Validate | src/packs.rs:116-153 | A manifest is accepted if and only if schema, identifiers and probe list are; each rejection names the first thing wrong. |
| Packs.PackIsCollectable | src/packs.rs:116-153 | The probes of an accepted pack have distinct ids and meet what collection relies on. |

## Left out

- Shell text: the script is a tree of commands, not its text; quoting, `LC_ALL`, exported variables and `</dev/null` are not modelled, and a probe fragment is an arbitrary output and status that depend on the script's variables.
- Partial `od` output: a dump that fails prints nothing before its mark.
- Collection.CollectionMeetsSpec: asks for a host name and kernel that are one line without surrounding white space, because that is what command substitution of `uname` leaves, and for fragments that print no BEGIN or END line; transcripts with forged ones are covered by the theorems about parsing alone, such as `Framing.SectionsAreFrames`.
- EndToEnd.PassExactlyWhenClean: makes the same demands on the host.
- Session bytes: a session prints text; any byte stream whose lossy decoding is that text is allowed.
- Process spawning, pipes, signals, deadlines, SSH and sudo arguments, standard error texts: only success or failure of a session and the order of register, kill, remove and reap are kept.
- Sessions.KillsHitOwnChild: treats every kill as sent; that none is sent for a PID above the signed range is in `Registry.Groups.Terminate`.
- Scan times, durations and scan ids, schema versions, and every random value: left out of reports; the nonce is a parameter.
- Weak memory: the counter, the stop flag and the channel are sequentially consistent steps.
- Stream.SomeStepPossible: does not model a panic of the report consumer, which would drop the receiver while workers send.
- JSON, JSONL, SARIF and OCSF output, and the markup of the HTML report around the verdict and the escaped texts.
- Signature verification, JSON parsing and bounded reading of packs: only the validation of a parsed manifest is kept.
- Terminal mode, key decoding, window size and drawing; command-line options; output files.
- Other probe scripts, the filter in front of the sampler, and the exclusion of `nosuid` and `noexec` mounts: external programs or easy members.
- The shell's own decoding of mount points in the first mount loop: `Mounts.Resolve` takes decoded mount points, and the decoder of the second loop is `Mounts.DecodeOctal`.
- Octal escapes above 377 stand for the character with that code; what an awk prints for them depends on its locale.
- Machine integers where nothing depends on them: selections, counts and lengths are unbounded; the widths of the calendar, of the PIDs and of parsed statuses are modelled.
