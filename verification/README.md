# linuxptp-daemon core, modelled in Dafny

This project models the sequential logic of the linuxptp-daemon, the node agent
that runs ptp4l and phc2sys for PTP time synchronisation and watches the clock
hardware. It covers five pieces of that logic:

- **DPLL monitor** (`dpll.dfy`, module `Dpll`). This is the per-tick clock-quality
  classifier of `MonitorDpll`, modelled as a class `Monitor` with the fields
  `inSpec`, `state`, `sourceLost`, `offset` and `onHoldover`. It comes with:
  - the `getStateQuality` table and `getWorseState`;
  - the closed offset window `isOffsetInRange`;
  - the truncating holdover `slope`;
  - the read-or-zero decisions of `sysfs`.
- **BMCA port filter** (`bmca.dfy`, module `Bmca`). `SortAndFilter` sorts the
  port array in place by clock class and keeps the prefix of ports that share
  the lowest class.
- **Management-dataset parsers** (`dataset.dfy`, module `Dataset`). These parse
  the pmc replies for PARENT_DATA_SET, PORT_DATA_SET and CURRENT_DATA_SET, plus
  `parseHexToInt`. Each scanner loop is a method, proved equal to a left fold of
  one-line steps. The parser properties are lemmas about those folds.
- **Leap-seconds file** (`leap.dfy`, module `Leap`). The file is the NIST/IERS
  `leap-seconds.list`, whose times are seconds since 1900-01-01, the NTP epoch
  of section 6 of RFC 5905. The module models:
  - `ParseLeapFile`;
  - the last-event scan of `GetLastLeapEventFromFile`;
  - the line rewrite of `AddLeapEvent`;
  - the last-`#h` scan of `CheckLeapFileIntegrity`;
  - the decision arithmetic of `HandleLeapIndication` for u-blox UBX-NAV-TIMELS
    messages.
- **Availability mode** (`mode.dfy`, module `Mode`). This covers the counting
  loops of `isHighAvailability` and `isSingleTTsc`.

Three further modules model the Go standard-library behaviour these depend on:
- `GoStrings` (`strings.dfy`): `strings.Split`, `Join`, `Fields`, `HasPrefix`,
  `Contains` and `ReplaceAll`, the `[[:blank:]]+` regexp rewrite, and
  `bufio.ScanLines`;
- `GoStrconv` (`strconv.dfy`): `strconv.ParseInt` and `ParseUint` with base 0
  prefixes and range clamping, `FormatInt`, `big.Int.SetString(_, 16)` and
  `Int64`, and 64-bit wrap-around;
- `Wrappers` (`wrappers.dfy`): Option and Result.

A Go panic is never silent in the model. An index out of range after `Split`,
or `fields[1]` of a short line, is an explicit outcome (`Panicked`,
`IndexPanic`).

## Model

| member | source | states |
|---|---|---|
| Dpll.QualityOrder | pkg/dpll/dpll.go:227-236 | The quality table ranks Unknown < Invalid < Freerun < Holdover < Locked < LockedHoAcq. Holdover ranks below Locked although its code is larger, and a code outside the table reads the map default 0, like Invalid. |
| Dpll.WorseState | pkg/dpll/dpll.go:239-245 | The result is one of the two codes and its quality is the lower of the two. On equal quality it is the frequency state. The phase state is returned only when its quality is strictly lower. |
| Dpll.InRangeBounds | pkg/dpll/dpll.go:265-270 | The offset window is inclusive: both bounds are in range and the values just outside are not. |
| Dpll.Slope | pkg/dpll/dpll.go:91-93 | The slope is absent (a division panic) exactly when the timeout is 0. |
| Dpll.SlopeTruncatesFirst | pkg/dpll/dpll.go:91-93 | For non-negative inputs the slope is (offset / timeout) * 1000 with the quotient truncated first. It is a multiple of 1000, at most offset*1000/timeout, and 0 exactly when the offset is below the timeout. |
| Dpll.DefaultSlopeIsZero | pkg/dpll/dpll.go:23-24 | With the defaults 1500 ns and 14400 s the slope is 0. |
| Dpll.LowestDependentState | pkg/dpll/dpll.go:147-166 | The collected dependent states are folded into their minimum, and a timed-out query counts as Unknown. With no dependents the result is Unknown. |
| Dpll.Classify | pkg/dpll/dpll.go:175-204 | The switch on the combined code. Freerun, Invalid and Unknown give (inSpec, Freerun). Locked gives inSpec, and the state is Locked iff the source is present and the offset in range. LockedHoAcq and Holdover give Locked when healthy, start a holdover (inSpec false, state kept) when the source is lost while in spec, and give Freerun otherwise. Any other code changes nothing. |
| Dpll.EntersLockedOnlyWhenHealthy | pkg/dpll/dpll.go:182-192 | A tick moves into Locked only with the source present, the offset in range, and a Locked, LockedHoAcq or Holdover code. |
| Dpll.TickNeverSetsHoldover | pkg/dpll/dpll.go:175-204 | A tick never sets Holdover itself. |
| Dpll.AtMostOneHoldoverStart | pkg/dpll/dpll.go:197-200 | A tick that starts a holdover leaves inSpec false, so the next tick cannot start another. |
| Dpll.SysfsValue | pkg/dpll/dpll.go:293-301 | A failed read gives 0; otherwise the value is what ParseInt returns for the text without newlines. |
| Dpll.SysfsValueRoundTrip | pkg/dpll/dpll.go:297-298 | A number written with a trailing newline reads back as itself. |
| Dpll.SysfsValueErrors | pkg/dpll/dpll.go:298-300 | Non-numeric text reads as 0. Text beyond int64 reads as the bound it passes, because ParseInt returns the clamped value with its error and the code keeps it. |
| Dpll.Sysfs | pkg/dpll/dpll.go:279-321 | An empty interface gives (Invalid, Invalid, 0). Otherwise each of the three values is read independently from its own file. |
| Dpll.Monitor.constructor | pkg/dpll/dpll.go:84-106 | NewDpll, given a non-zero timeout, stores its parameters and sets the slope to Slope(...). The monitor starts Freerun and not in spec, with offset 0, source not lost, not on holdover, and GM thresholds 0. |
| Dpll.Monitor.StartMonitoring | pkg/dpll/dpll.go:124 | Monitoring starts in spec. |
| Dpll.Monitor.Tick | pkg/dpll/dpll.go:144-219 | sourceLost holds unless there are dependents and every one answered Locked. The new (inSpec, state, startHoldover) is Classify of the worse hardware state. The offset and the thresholds are untouched, onHoldover stays false, no holdover is cancelled, and the event always carries Freerun (the loop's own dpll_state). |
| Dpll.Monitor.HoldoverBegin | pkg/dpll/dpll.go:250 | The holdover estimate enters Holdover. |
| Dpll.Monitor.HoldoverSample | pkg/dpll/dpll.go:255 | A holdover sample replaces the offset with the estimate. |
| Dpll.Monitor.HoldoverExpire | pkg/dpll/dpll.go:256-258 | The timeout falls back to Freerun. |
| Dpll.Monitor.Exit | pkg/dpll/dpll.go:127-140 | The exit emits one Reset event, and there is never a holdover to cancel. |
| Bmca.SortByClass | pkg/bmca/bmca.go:40-42 | After the in-place sort the ports are sorted by clock class and are a permutation of what they were. |
| Bmca.IndexAbove | pkg/bmca/bmca.go:43-45 | Returns the first index whose class exceeds c, or -1 when there is none. |
| Bmca.SortAndFilter | pkg/bmca/bmca.go:36-51 | For GmClockClass the array ends up sorted and permuted, and the result is its prefix of lowest-class ports (KeepsMinClass). For any other key the result is empty and the array is untouched. |
| Bmca.KeepsMinClassMeaning | pkg/bmca/bmca.go:43-49 | Every returned port is an input port of the lowest class, and every such input port is returned. The output length equals the number of lowest-class inputs, and the output is a sub-multiset of the input. |
| Bmca.SortedPrefixKeepsMinClass | pkg/bmca/bmca.go:40-49 | A sorted permutation cut at the first port above the first port's class is exactly the lowest-class ports. |
| Bmca.MinClassPermutation | pkg/bmca/bmca.go:40-42 | Sorting does not change the lowest class. |
| Bmca.FilterPermutation | pkg/bmca/bmca.go:40-49 | Permuted inputs keep permuted lowest-class ports. |
| Bmca.ExampleFromTest | pkg/bmca/bmca_test.go:10-27 | Classes 165, 254, 254, 165 reduce to the two 165 ports. |
| Dataset.ParseHexToInt | pkg/dataset/dataset.go:44-51 | An error returns 0, and input without an 'x' panics. |
| Dataset.HexBetweenX | pkg/dataset/dataset.go:44-51 | Only the text between the first 'x' and the next one (or the end) is read as hexadecimal, truncated to int64. |
| Dataset.HexDigits | pkg/dataset/dataset.go:44-51 | "0x" followed by the digits of a value below 2^63 reads as that value. |
| Dataset.HexFFFF | pkg/dataset/dataset_test.go:34 | 0xffff reads as 65535. |
| Dataset.HexMaxInt32 | pkg/dataset/dataset_test.go:35 | 0x7fffffff reads as 2147483647. |
| Dataset.HexFE | pkg/dataset/dataset_test.go:38 | 0xfe reads as 254. |
| Dataset.HexNotHex | pkg/dataset/dataset.go:47-49 | Non-hexadecimal digits are an error with the value 0. |
| Dataset.DecodeParent | pkg/dataset/dataset.go:65-118 | A decoded value is text exactly for the two identity fields. |
| Dataset.ParseParentDataSet | pkg/dataset/dataset.go:53-122 | The scanner loop returns ParentDataSet(data): the lines of the text between the second PARENT_DATA_SET and a third one (or the end), with blank runs turned into '=' and a leading '=' dropped, folded from the zero record. A reply with fewer than two PARENT_DATA_SET markers panics. |
| Dataset.ParentKeyValueLine | pkg/dataset/dataset.go:61-67 | A "key=value" line sets the field its key names to the value that field's parser reads. |
| Dataset.ParentTextLine | pkg/dataset/dataset.go:55-56 | A reply line "\t<key> <value>", with blank runs of any length, becomes "<key>=<value>". |
| Dataset.ParentUntouched | pkg/dataset/dataset.go:61-64 | A field that no line names keeps its value, whether the scan completes or stops. |
| Dataset.ParentLastValueWins | pkg/dataset/dataset.go:60-118 | A repeated key takes its last value. |
| Dataset.ParentStopsWithPrefix | pkg/dataset/dataset.go:69-72 | A value that does not parse returns the record as the lines before it left it. |
| Dataset.ParentDataSetInRange | pkg/dataset/dataset.go:68-115 | Every field of the returned record, with or without an error, fits its parser's range: 8 bits for parentStats, 16 bits for the priorities and the class, int64 for the hexadecimal fields. |
| Dataset.ParsePortDataSet | pkg/dataset/dataset.go:124-208 | The scanner loop returns PortDataSet(data). |
| Dataset.PortCount | pkg/dataset/dataset.go:133-142 | A completed scan returns one port per header, and one even with no header. A stopped scan returns fewer, because the port being filled is dropped. |
| Dataset.PortDataSetCount | pkg/dataset/dataset.go:124-208 | ParsePortDataSet returns max(1, headers) ports without an error, and fewer with one. |
| Dataset.HeaderStartsPort | pkg/dataset/dataset.go:133-141 | A header closes the port in progress (except for the first header) and starts a fresh one. |
| Dataset.PortBodyLines | pkg/dataset/dataset.go:144-204 | Lines without a header only fill the port in progress, or stop the scan keeping the completed ports. |
| Dataset.TwoPorts | pkg/dataset/dataset_test.go:55-61 | Two header blocks give two ports, in reply order, each filled only from its own block. |
| Dataset.PortIndentedLine | pkg/dataset/dataset.go:144-154 | An indented "\t<key> <value>" line sets the field its key names. |
| Dataset.PortUnindentedIgnored | pkg/dataset/dataset.go:147-149 | An unindented "<key> <value>" line splits into two parts and sets nothing. |
| Dataset.ParseCurrentDs | pkg/dataset/dataset.go:210-249 | The scanner loop returns CurrentDataSet(data), the fold of the reply's lines from the zero record. |
| Dataset.CurrentHeaderSkipped | pkg/dataset/dataset.go:214-216 | A line containing CURRENT_DATA_SET is skipped, even if it looks like a field line. |
| Dataset.StepsRemovedLine | pkg/dataset/dataset.go:217-228 | An indented stepsRemoved line is a stepsRemoved field line; it sets stepsRemoved to what ParseInt reads and changes nothing else. |
| Dataset.CurrentLinesAppend | pkg/dataset/dataset.go:213-246 | Scanning two blocks of lines is scanning the first and then, if it completed, the second from the record it left. |
| Dataset.CurrentTailKeepsSteps | pkg/dataset/dataset.go:213-246 | Lines that are not stepsRemoved field lines never panic and leave stepsRemoved as it was, whether the scan completes or stops. |
| Dataset.CurrentLastStepsWins | pkg/dataset/dataset.go:223-228 | When the scan completes, stepsRemoved holds the value of the last stepsRemoved line. |
| Dataset.CurrentStopsWithPrefix | pkg/dataset/dataset.go:224-226 | A value that does not parse returns the record as the lines before it left it. |
| Dataset.CurrentDataSetInRange | pkg/dataset/dataset.go:223-228 | ParseCurrentDs never panics, and stepsRemoved fits 16 bits with or without an error. |
| Leap.ParseLeapFile | pkg/leap/leap-file.go:73-102 | The loop returns ParsedLeapFile(text), the fold of LeapLine over the lines split at '\n'. |
| Leap.LeapParseSucceeds | pkg/leap/leap-file.go:78-92 | Parsing succeeds iff no data line has a leap count outside 8 bits and no "#$" or "#@" line lacks its value. |
| Leap.LeapEventsInOrder | pkg/leap/leap-file.go:84-98 | On success the events are exactly one per data line with at least two fields, in file order: field 0, field 1 as an int8, and the rest joined by spaces. |
| Leap.LeapSecInRange | pkg/leap/leap-file.go:89-92 | Every parsed leap count lies in -128..127. |
| Leap.HeaderLastWins | pkg/leap/leap-file.go:78-83 | The update time, expiration time and hash come from the last "#$", "#@" and "#h" line. |
| Leap.HeaderUntouched | pkg/leap/leap-file.go:78-83 | A header that no line carries keeps its value. |
| Leap.PlainSeconds | pkg/leap/leap-file.go:192 | Decimal seconds parse to that many seconds in nanoseconds, and to an error past the largest Duration. |
| Leap.GetLastLeapEventFromFile | pkg/leap/leap-file.go:174-208 | The leapSection scan returns GetLastLeapEventResult(text). |
| Leap.LastEventIndexShape | pkg/leap/leap-file.go:181-188 | The scan reads line m iff line m is data, line m+1 is a comment, and no comment follows a data line before m. |
| Leap.LastEventIsParsedEvent | pkg/leap/leap-file.go:188-204 | The line the scan reads is an event ParseLeapFile lists, and the count returned is that event's count. |
| Leap.AddLeapEvent | pkg/leap/leap-file.go:235-283 | The in-place rewrite loop returns AddedLeapFile(text): the fold of AddLine joined with '\n'. |
| Leap.AddLinesPieces | pkg/leap/leap-file.go:248-281 | The output holds each line retimed and in order, with the new event line before every comment that directly follows a data line. Each "#h" line becomes the hash of all output before it. |
| Leap.AddWithoutHash | pkg/leap/leap-file.go:248-281 | Without a "#h" line the output is exactly those pieces. |
| Leap.RetimedKind | pkg/leap/leap-file.go:251-257 | Retiming "#$" and "#@" keeps a line a comment or not, and a "#h" line or not. |
| Leap.NewEventParses | pkg/leap/leap-file.go:264-270 | The inserted line is a data line that ParseLeapFile reads back as the event (time, count, "#" and the date fields). |
| Leap.NewEventReadBack | pkg/leap/leap-file.go:188-204 | The last-event scan reads the inserted line back as the same leap time and count. |
| Leap.CheckLeapFileIntegrity | pkg/leap/leap-file.go:210-232 | The backward scan succeeds iff the hash of the file equals StoredHash of its lines. |
| Leap.StoredHashIsLast | pkg/leap/leap-file.go:219-224 | The stored hash is the fields after the tag of the last "#h" line. |
| Leap.StoredHashAbsent | pkg/leap/leap-file.go:211 | Without a "#h" line the stored hash is empty. |
| Leap.ParsedHashIsStored | pkg/leap/leap-file.go:82-83 | ParseLeapFile's hash is the one the integrity check reads. |
| Leap.JoinedWords | pkg/leap/leap-file.go:222 | Non-empty words without spaces, joined by single spaces, split back into those words, so the joined text is hash text. |
| Leap.HashLineRoundTrip | pkg/leap/leap-file.go:273-279 | A written "#h" line reads back as its hash, for any hash text: one or more words joined by single spaces. |
| Leap.AddedStoredHash | pkg/leap/leap-file.go:273-279 | For a hash function whose results are hash text (words joined by single spaces), after AddLeapEvent the stored hash is the hash of the output that precedes the last "#h" line. |
| Leap.DaysToYearStep | pkg/leap/leap-file.go:318 | The day count of the date arithmetic adds 366 days for a Gregorian leap year and 365 otherwise. |
| Leap.GpsEpochValue | pkg/leap/leap-file.go:318 | The GPS epoch 1980-01-06 is NTP time 2524953600. |
| Leap.UpdateWhenCountDiffers | pkg/leap/leap-file.go:291-326 | HandleLeapIndication discards exactly the non-GPS indications, and gives up exactly when a GPS indication meets an unreadable file. An update is attempted iff the source is GPS, the file reads, both valid bits are set, and CurrLs + 19 + LsChange differs from the file's count; any other indication leaves the file alone. An attempted update fails exactly when the leap hours exceed the largest Duration (2562047 h), and otherwise adds the event with that count. |
| Leap.LeapAtGpsMidnight | pkg/leap/leap-file.go:305-326 | When nothing overflows, the leap falls at midnight, week*7 + day days after the GPS epoch, and the file expires 87660 hours after now. |
| Leap.LeapTimeClamped | pkg/leap/leap-file.go:237-238 | For every indication that adds an event, the leap time written is the GPS epoch plus the announced hours, or the largest Duration since 1900 when it lies beyond it. |
| Leap.LeapTimeClampedExample | pkg/leap/leap-file.go:318-325 | Week 11075, day 4 gives an added event whose leap time lies beyond the largest Duration and is written clamped. |
| Leap.UpdateSettles | pkg/leap/leap-file.go:314-326 | The inserted event reads back as the new count, so the same indication then causes no further update. |
| Mode.IsHighAvailability | pkg/daemon/mode.go:50-75 | The counting loop with its early return equals HighAvailability: no profile has both option sets, exactly one has phc2sys options, and at least one has ptp4l options. |
| Mode.HighAvailabilityPermutation | pkg/daemon/mode.go:53-74 | The mode does not depend on the order of the profiles. |
| Mode.HighAvailabilityNeedsProfiles | pkg/daemon/mode.go:54-57 | No profiles means no HA, and a profile with both option sets rules HA out. |
| Mode.HighAvailabilityLayout | pkg/daemon/mode.go:70-73 | One phc2sys profile beside n >= 1 ptp4l profiles is HA. |
| Mode.IsSingleTTsc | pkg/daemon/mode.go:14-45 | The loop equals SingleTTsc. A missing or unloadable configuration gives false. Otherwise every interface section needs an integer masterOnly, and count - sum == 1 in 64-bit arithmetic. |
| Mode.NonInterfaceIgnored | pkg/daemon/mode.go:29-33 | Global, unicast-master-table and DEFAULT sections do not change the outcome. |
| Mode.MissingMasterOnlyRulesOut | pkg/daemon/mode.go:36-40 | An interface section without an integer masterOnly rules out a single T-TSC, wherever it stands. |
| Mode.OneInterfaceIsSingle | pkg/daemon/mode.go:28-44 | A global section plus one interface with masterOnly 0 is a single T-TSC. |
| Mode.ZeroMasterOnly | pkg/daemon/mode.go:36 | A section whose masterOnly key is "0" reads it as the integer 0. |
| Mode.ZeroInterfaceIsSingle | pkg/daemon/mode.go:28-44 | A global section plus an interface section that sets masterOnly to "0" is a single T-TSC. |
| Mode.SingleTTscMeaning | pkg/daemon/mode.go:41-44 | With 0/1 flags the result is true iff exactly one interface is not master-only. |
| GoStrconv.FormatParseRoundTrip | pkg/leap/leap-file.go:264-270 | fmt's "%d" text of a value parses back to it with ParseInt in bit sizes 8, 16 and 64. |
| GoStrconv.ParseIntWiden | pkg/dataset/dataset.go:69 | A value parsed in a smaller bit size parses the same in a larger one. |
| GoStrings.SplitJoin | pkg/leap/leap-file.go:75 | Split and Join with the same separator are inverse to each other. |

## Left out

- File and network I/O are not modelled: `os.ReadFile`/`WriteFile`, sysfs reads, and the pmc process. Their contents are parameters (`Option<string>` for a read that can fail, `string` for a file's text), and writing the file is the returned text.
- `LeapManager.New`, `PopulateLeapData`, `RenderLeapData`, `SetLeapFile` and `Run` are I/O around the core: Kubernetes ConfigMap access, an HTML template and a channel loop.
- `pkg/pmc/pmc.go` and `timex.py` are a process wrapper and an adjtimex call, with no logic of their own.
- Concurrency is not modelled: the DPLL ticker, the exit channel, the holdover goroutine with its cancel channel, the 250 ms response timeout, and the event-channel sends. A timed-out dependent query is `None`. Starting or cancelling a holdover is an output of `Tick`, and the emitted event is its return value.
- Dpll.Monitor.HoldoverSample: the offset estimate `slope * time.Since(start)` is a float computation, so the estimate is a parameter. The float `timer` and `.Seconds()` truncations are not modelled.
- Dpll.PtpState: the event package is not part of this model. Its states are an enum with the order Unknown < Freerun < Holdover < Locked.
- Bmca.SortAndFilter: bmca.go imports `slices` from `golang.org/x/exp`. The array is stated as a `Delete` that leaves the removed tail alone. The model does not zero that tail, as a `Delete` that zeroes it would: the standard library's `slices.Delete` does from Go 1.22, and newer `golang.org/x/exp` versions forward to it. The returned ports are the same either way.
- Bmca.SortByClass: `sort.Slice` is pdqsort, modelled by an insertion sort. Only its promise, sorted and a permutation, is stated, because the order among equal classes is unspecified in both.
- Dataset.CurrentLine: `strconv.ParseFloat` is a parameter (`FloatParser`), so the float fields are only as exact as that function.
- Leap.SecondsDuration: `time.ParseDuration` is modelled exactly for an optional sign and decimal digits. Every other form (fractions, other units) goes to the `otherForms` parameter.
- Leap.AddLeapEvent: `leaphash.Compute` is an uninterpreted function parameter. The day/month/year text of the comment is passed in, not computed from the leap time.
- Leap.CheckLeapFileIntegrity: it hashes the whole file while `AddLeapEvent` hashes the output before the `#h` line. With an uninterpreted hash the model does not claim that the two agree.
- Leap.HandleLeapIndication:
  - The result of `GetLastLeapEventFromFile` and the current time (whole seconds after 1900) are parameters. The two `time.Now` calls are taken as one instant.
  - The log-only branch for a leap within 12 hours is left out.
  - The I/O errors of `AddLeapEvent` are left out.
- Mode.IsSingleTTsc: `ini.LoadSources` is abstracted to a list of sections, each with the `NumResult` that `Key("masterOnly").Int()` gives. The ini library's fallback to a parent section for dotted section names is not modelled.
- GoStrconv.ParseInt: '_' digit separators in base 0 are treated as a syntax error rather than accepted.
- GoStrings.ScanLines: `bufio.Scanner`'s 64 KiB token limit is not modelled, so lines of any length are scanned.
