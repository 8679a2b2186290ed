# deej core in Dafny

deej drives the volume of audio sessions from hardware sliders. A
microcontroller sends lines such as `512|1023` over a serial port, one reading
per slider. The program does the following:

- It validates each line, normalises each reading to two decimals, and
  suppresses noise against a per-slider cache.
- It reports every significant change as a slider-move event.
- It looks up the slider's targets in the slider map. That map merges the
  user's configuration with an internal preferences file.
- It resolves each target to session keys. A key is a lower-cased process
  name, a reserved name (`master`, `system`, `mic`), a device name, or a
  special target: `deej.current` for the foreground window's processes and
  `deej.unmapped` for every session no slider names.
- It sets the volume of every session held under those keys.

The session map groups the audio sessions by key. It refreshes them from the
platform's session finder:

- at most once every 5 seconds, unless a refresh is forced;
- always when the map is older than 45 seconds;
- when a slider reaches nothing, or when setting a volume fails.

On Windows, two platform parts are modelled:

- The foreground-window query is answered from a cache for 350 ms after each
  query.
- The session finder ignores default-device-change notifications that come
  less than 100 ms after the last accepted one. It builds the session list in
  a fixed sequence of steps that succeeds or fails as a whole.

The model has one module per part of the program:

| file | module | models |
|---|---|---|
| base.dfy | Base | Option, Result, duplicate-free sequences, map traversals |
| text.dfy | Text | the `strings`, `strconv` and `go-funk` helpers the core uses |
| multimap.dfy | Multimap | key-to-list maps and counts taken over a traversal |
| scalar.dfy | Scalar | `NormalizeScalar`, `SignificantlyDifferent`, the thresholds |
| session.dfy | Sessions | sessions and `baseSession.Key` |
| slider_map.dfy | SliderMapping | the slider map and `sliderMapFromConfigs` |
| config.dfy | Config | `validateBaudRate`, `populateFromVipers`, the defaults |
| serial.dfy | Serial | `processLine`, the line pattern, dispatch, `needsReconnect` |
| targets.dfy | Targets | target resolution and `sessionMapped` |
| session_map.dfy | SessionMap | grouping, refresh, `handleSliderMoveEvent` |
| foreground.dfy | Foreground | the cached foreground-window query (Windows) |
| device_finder.dfy | DeviceFinder | the device-change throttle and `GetAllSessions` (Windows) |

Three conventions run through the model:

- Time is an integer number of milliseconds passed in as `now`.
- A Go map's iteration order is an explicit parameter listing every key once
  (`Enumerates`). Wherever the source's result depends on that order, the
  dependence is stated.
- The answers of the operating system, of the session finder and of the
  sessions themselves are parameters.

## Model

| member | source | states |
|---|---|---|
| Scalar.NormalizeScalar | pkg/deej/util/util.go:58-62 | the result is a whole number of hundredths, at most the input and less than 0.01 below it (truncation, not rounding) |
| Scalar.NormalizeUnitInterval | pkg/deej/util/util.go:58-62 | a value in [0, 1] normalises into [0, 1], no more than 0.01 below itself |
| Scalar.NormalizeIdempotent | pkg/deej/util/util.go:58-62 | normalising twice is normalising once |
| Scalar.NormalizeRaw | pkg/deej/serial.go:200 | for every raw reading, normalising raw/1023 gives floor(100·raw/1023) hundredths |
| Scalar.HundredthsRange | pkg/deej/serial.go:195-200 | readings 0..1023 land on 0..100 hundredths, and only 1023 reaches 100 |
| Scalar.Threshold | pkg/deej/util/util.go:95-107 | "high" gives 0.035, "low" gives 0.015, and every other level (the empty one included) gives 0.025 |
| Scalar.AlmostEqualsSymmetricStrict | pkg/deej/util/util.go:79-81 | near-equality is symmetric and its one-millionth bound is strict |
| Scalar.GridSignificance | pkg/deej/util/util.go:66-76 | on the hundredths grid, a change is significant exactly when it spans 4/2/3 hundredths (high/low/default) or snaps onto 0 or 1 from elsewhere |
| Scalar.GridUnchangedNotSignificant | pkg/deej/util/util.go:66-76 | a grid value is never significantly different from itself |
| Scalar.SentinelAlwaysSignificant | pkg/deej/util/util.go:66-76 | the -1 cache sentinel differs significantly from every value in [0, 1] |
| Scalar.InvertProperties | pkg/deej/serial.go:201-203 | inversion is an involution, keeps [0, 1] and maps h hundredths to 100-h |
| Text.Atoi | pkg/deej/serial.go:194 | accepts only an optional sign followed by digits and ending in a digit, so a lone `+` or `-` is rejected, and only values within the 64-bit range; a digit string within range parses to its decimal value |
| Text.AtoiErrorKind | pkg/deej/serial.go:194 | the error `strconv.Atoi` reports: after the sign, a leading digit run beyond 2^64 - 1 is a range error whatever follows it, a character that is not a digit met before any such run is a syntax error, and an empty string or a lone sign is a syntax error |
| Text.ScanErrorStops | pkg/deej/serial.go:194 | the left-to-right digit scan stops with a range error at the first digit run beyond 2^64 - 1 and with a syntax error at a character that is not a digit coming before it |
| Text.AtoiSigned | pkg/deej/serial.go:194 | `+` or `-` before digits gives their value with that sign down to the most negative 64-bit value, and digits beyond the range, signed or not, give a range error |
| Text.Uniq | pkg/deej/session_map.go:256 | the result has no duplicates and holds exactly the input's elements |
| Text.UniqIdempotent | pkg/deej/session_map.go:256 | a duplicate-free list passes unchanged, so removing duplicates twice is removing them once |
| Text.LowerFixesExactlyLowercase | pkg/deej/session.go:59 | lower-casing leaves a string unchanged exactly when it has no upper-case letter |
| Text.JoinSplit | pkg/deej/serial.go:180 | joining the pieces of a split on `\|` gives the line back |
| Text.SplitLastStart | pkg/deej/serial.go:180 | the last piece of a split is the suffix that starts at the string's start or right after a separator |
| Text.SplitJoin | pkg/deej/serial.go:180 | splitting a join of `\|`-free pieces gives the pieces back |
| Multimap.TraversalIndependent | pkg/deej/slider_map.go:92-97 | two traversals of one map meet the same values and count the same total |
| Sessions.Key | pkg/deej/session.go:52-60 | the key is lower case; it is "system" for the system session and otherwise the name lower-cased letter by letter |
| Sessions.KeyIgnoresPresentation | pkg/deej/session.go:52-60 | the key depends only on the system flag and the name up to case |
| Sessions.KeyIsNameIffLowercase | pkg/deej/session.go:59 | a non-system session's key is its name exactly when the name is lower case |
| Sessions.ProcessNamedSystemSharesKey | pkg/deej/session.go:52-60 | a process session named "System" gets the system-sounds key |
| SliderMapping.FilterNew | pkg/deej/slider_map.go:49-51 | keeps, in order, exactly the non-empty targets not already present; repeats inside the new list survive |
| SliderMapping.FilterNonEmpty | pkg/deej/slider_map.go:35-37 | keeps exactly the non-empty targets |
| SliderMapping.FilterNewAppend | pkg/deej/slider_map.go:49-51 | filtering decides target by target, so it distributes over concatenation |
| SliderMapping.FilterNewKeepsClean | pkg/deej/slider_map.go:49-51 | a list with no empty or already present target passes unchanged |
| SliderMapping.Get | pkg/deej/slider_map.go:70-77 | the flag tells whether the slider is mapped; an unmapped slider yields the empty list |
| SliderMapping.Set | pkg/deej/slider_map.go:79-85 | the slider becomes mapped and no other slider is added or removed |
| SliderMapping.GetAfterSet | pkg/deej/slider_map.go:70-85 | get after set returns what was set, and set leaves every other slider alone |
| SliderMapping.VisitsEachSliderOnce | pkg/deej/slider_map.go:60-68 | the callback sees every mapped slider exactly once, each with its own targets |
| SliderMapping.UserPhase | pkg/deej/slider_map.go:28-38 | exactly the sliders of parseable keys are added, and no empty target gets in |
| SliderMapping.UserPhaseSlot | pkg/deej/slider_map.go:28-38 | a slider ends with the filtered list of the last user key (in iteration order) that parses to it |
| SliderMapping.InternalPhase | pkg/deej/slider_map.go:40-55 | exactly the sliders of parseable keys are added, and no empty target gets in |
| SliderMapping.InternalPhaseSlot | pkg/deej/slider_map.go:40-55 | for any keys, a slider no key parses to is untouched, and otherwise keeps its targets and gains, key after key in traversal order, the new non-empty targets of every key that parses to it ("1" and "01" both contribute) |
| SliderMapping.SlotFoldTwoKeys | pkg/deej/slider_map.go:40-55 | with two keys for one slider, the second key adds only the targets the first did not |
| SliderMapping.InternalPhaseSlotUnique | pkg/deej/slider_map.go:40-55 | when only one key parses to a slider, it keeps its targets and gains the new non-empty ones of that key |
| SliderMapping.FromConfigs | pkg/deej/slider_map.go:23-58 | the mapped sliders are exactly the parsed keys of both files, and no target is empty |
| SliderMapping.MergeLaw | pkg/deej/slider_map.go:23-58 | each slider holds its user targets followed by the internal targets the user list does not name |
| SliderMapping.FromConfigsOrderIndependent | pkg/deej/slider_map.go:23-58 | without two keys for one index, the merged map does not depend on either iteration order |
| SliderMapping.MergeExample | pkg/deej/slider_map.go:23-58 | user `["a",""]` merged with internal `["b","a"]` gives `["a","b"]` |
| SliderMapping.InternalRepeatsKept | pkg/deej/slider_map.go:49-51 | a target repeated inside one internal list is kept twice |
| SliderMapping.Describe | pkg/deej/slider_map.go:87-100 | reports the number of mapped sliders and the total length of their target lists |
| SliderMapping.DescribeOrderIndependent | pkg/deej/slider_map.go:92-97 | the target count does not depend on the iteration order |
| Config.ValidateBaudRate | pkg/deej/config.go:173-180 | the result is positive and is either the given rate or 9600; that it is the given rate exactly when positive is stated by `Config.ValidateBaudRateFixedPoints` |
| Config.ValidateBaudRateFixedPoints | pkg/deej/config.go:173-180 | a rate passes unchanged exactly when positive, and validation is idempotent |
| Config.PopulateFromVipers | pkg/deej/config.go:157-171 | the baud rate is positive, the sliders are those both files name, no target is empty, and the port, the inversion flag and the noise level are the file's values or COM7, false and the empty level |
| Config.PopulatedMappingMerges | pkg/deej/config.go:157-161 | without two internal keys for one slider, each slider of the populated mapping is the merge of its user and internal lists |
| Config.EmptyFilesConfig | pkg/deej/config.go:84-93 | with both files empty the result is COM7, 9600 baud, not inverted, default noise level and no slider mapped, which is not the one-slider default mapping |
| Config.BaudRateFromFile | pkg/deej/config.go:164 | a non-positive rate in the file is replaced by 9600 and a positive one is kept |
| Serial.FieldsMatchUnfold | pkg/deej/serial.go:44 | the pattern consumes one field of 1-4 digits up to the first `\|`, then matches the rest |
| Serial.FieldsMatchIffSplitFields | pkg/deej/serial.go:176-180 | a line matches exactly when every piece of its split on `\|` is a field |
| Serial.ParseField | pkg/deej/serial.go:194-198 | a field is accepted with its decimal value when it is at most 1023 and rejected above |
| Serial.FieldValueOnGrid | pkg/deej/serial.go:200-203 | the reported value is floor(100·raw/1023) hundredths (or its complement when inverted) and lies in [0, 1]; 511 reports 0.49 and 512 reports 0.50 |
| Serial.FieldStep | pkg/deej/serial.go:205-208 | a reading reports, and overwrites its slot, exactly when its value differs significantly from the slot |
| Serial.FieldStepOnGrid | pkg/deej/serial.go:205-208 | on the grid, a slot reports exactly on moves of the minimum step or onto either end; a sentinel slot always reports |
| Serial.DecodeFrom | pkg/deej/serial.go:193-209 | a line with an invalid field reports no events at all, and the cache keeps its length |
| Serial.DecodeFromCache | pkg/deej/serial.go:193-209 | slots before the first invalid field are debounced, and that slot and all later ones keep their value |
| Serial.DecodeFromEventsSound | pkg/deej/serial.go:205-207 | every event comes from a field that fires, carries that field's value, and events come in ascending slider order |
| Serial.DecodeFromEventsComplete | pkg/deej/serial.go:205-207 | when all fields are valid, every field that fires has its event |
| Serial.ResetCache | pkg/deej/serial.go:186-189 | a count change gives one sentinel slot per slider |
| Serial.Decode | pkg/deej/serial.go:180-209 | the decoder keeps one slot per slider and records the line's slider count |
| Serial.ProcessLine | pkg/deej/serial.go:175-216 | a non-matching line changes nothing; a matching line records its slider count |
| Serial.LastFieldCarriesLineEnding | pkg/deej/serial.go:44 | in every line the as-written pattern accepts, the last piece still ends in `\r\n` and fails validation |
| Serial.ProcessLineNeverEmits | pkg/deej/serial.go:175-216 | processLine as written never reports an event, for any line |
| Serial.ReadLoopNeverMatches | pkg/deej/serial.go:169 | a line whose `\r\n` readLoop has trimmed never matches the pattern, so the decoder never changes |
| Serial.ProcessTrimmedLine | pkg/deej/serial.go:175-216 | the corrected decoder ignores non-matching lines and keeps the state well formed |
| Serial.DecodeCharacterization | pkg/deej/serial.go:183-209 | a matching line is decoded against the reset or current cache: slots, all-or-nothing events, soundness, ascending order and completeness |
| Serial.DecodeFromAllFire | pkg/deej/serial.go:186-207 | with every slot at the sentinel and every field valid, field j reports (j, its value) for every j |
| Serial.SentinelFires | pkg/deej/serial.go:186-205 | a valid reading always reports against a sentinel slot |
| Serial.FirstReportAfterResetFires | pkg/deej/serial.go:183-209 | after a count change, a fully valid line reports every slider in order with its value and caches those values |
| Serial.SettledDoesNotFire | pkg/deej/serial.go:205-206 | the same reading twice in a row reports at most once |
| Serial.DecodeFromQuiet | pkg/deej/serial.go:193-209 | when no field fires, the cache is unchanged and nothing is reported |
| Serial.ReplayIsQuiet | pkg/deej/serial.go:175-216 | processing the same matching line twice, the second time reports nothing and changes nothing |
| Serial.EndToEndExample | pkg/deej/serial.go:175-216 | "512\|1023" at start-up reports slider 0 at 0.50 and slider 1 at 1.00 |
| Serial.ReadLoopFixedReports | pkg/deej/serial.go:164-169 | with the corrected decoder, "512\|1023\r\n" read from the port reports both sliders at start-up |
| Serial.Deliveries | pkg/deej/serial.go:211-215 | every event goes to every consumer |
| Serial.DeliveriesOrder | pkg/deej/serial.go:211-215 | event e reaches consumer c at position e·n+c: events in order, consumers in subscription order |
| Serial.NeedsReconnect | pkg/deej/serial.go:232-235 | reconnect exactly when the options the configuration gives differ from the open connection's |
| Targets.CurrentWindowTargets | pkg/deej/session_map.go:245-257 | the foreground names lower-cased without duplicates, every one of them, and nothing when the query failed |
| Targets.UnmappedKeys | pkg/deej/session_map.go:259-266 | one key per unmapped session, in order |
| Targets.ApplyTargetTransform | pkg/deej/session_map.go:234-243 | an unknown special name resolves to nothing |
| Targets.Resolve | pkg/deej/session_map.go:224-232 | a non-special target resolves to itself lower-cased, and every resolved key is lower case |
| Targets.ResolveIgnoresCase | pkg/deej/session_map.go:225 | a target and its lower-cased form resolve alike |
| Targets.ResolveSpecialTargets | pkg/deej/session_map.go:224-243 | "deej.current" and "DEEJ.Unmapped" resolve to the foreground names and the unmapped keys |
| Targets.DeviceKeyShape | pkg/deej/session_map.go:27 | the device pattern matches exactly a + " (" + b + ")" with a and b non-empty and free of line breaks |
| Targets.ScanTargets | pkg/deej/session_map.go:159-170 | a slider names the key exactly when one of its plain targets, lower-cased, equals it |
| Targets.ScanSliders | pkg/deej/session_map.go:158-171 | the scan finds the key exactly when some slider of the traversal names it |
| Targets.SessionMapped | pkg/deej/session_map.go:146-174 | corrected: a session is mapped exactly when its key is reserved, is a device name, or is named by a plain target |
| Targets.ScanSlidersAsWritten | pkg/deej/session_map.go:158-171 | as written: the scan fails exactly when some slider's scan fails, and otherwise finds the key exactly when a slider does |
| Targets.SessionMappedAsWritten | pkg/deej/session_map.go:146-174 | as written: reserved names and device keys are mapped without a scan |
| Targets.ScanTargetsAgree | pkg/deej/session_map.go:159-170 | without mixed-case special targets, the as-written slider scan agrees with the corrected one |
| Targets.AsWrittenAgrees | pkg/deej/session_map.go:146-174 | without mixed-case special targets anywhere, sessionMapped as written agrees with the corrected version and never fails |
| Targets.AsWrittenPanics | pkg/deej/session_map.go:160-165 | with slider 0 mapped to "Deej.foo", asking about "chrome.exe" indexes an empty list; the corrected version answers no |
| SessionMap.Get | pkg/deej/session_map.go:281-287 | a missing key holds no sessions |
| SessionMap.Add | pkg/deej/session_map.go:268-279 | the session is appended under its own key and every other key is untouched |
| SessionMap.AddAll | pkg/deej/session_map.go:89-90 | adding in order groups the sessions by key, each group in discovery order |
| SessionMap.AddCount | pkg/deej/session_map.go:305-315 | adding a session raises the count by one, whatever the traversals |
| SessionMap.AddAllCount | pkg/deej/session_map.go:305-315 | adding n sessions raises the count by n |
| SessionMap.UnmappedAmong | pkg/deej/session_map.go:89-96 | exactly the discovered sessions that are not mapped are tracked as unmapped |
| SessionMap.UnmappedAmongAppend | pkg/deej/session_map.go:89-96 | sessions are tracked one at a time, so the unmapped list keeps discovery order and repeats |
| SessionMap.UnmappedAmongOne | pkg/deej/session_map.go:92-94 | a single session is tracked exactly when no slider maps it |
| SessionMap.GetAndAddSessions | pkg/deej/session_map.go:78-101 | the refresh time is stamped and the unmapped list reset even on failure; on success sessions are grouped by key in discovery order and the unmapped list is the discovered unmapped sessions in order |
| SessionMap.Refresh | pkg/deej/session_map.go:131-143 | it queries exactly when forced or 5 s have passed; otherwise nothing changes; a query releases every held session |
| SessionMap.RefreshContents | pkg/deej/session_map.go:131-143 | after a query the map holds exactly the discovered sessions (none on failure) and counts them |
| SessionMap.RefreshThrottled | pkg/deej/session_map.go:132 | an unforced refresh right after a refresh never queries |
| SessionMap.Initialize | pkg/deej/session_map.go:55-65 | initialisation fails exactly when discovery fails, and otherwise holds every discovered session |
| SessionMap.OnConfigReload | pkg/deej/session_map.go:103-115 | a configuration reload queries only when 5 s have passed since the last refresh |
| SessionMap.ResolvedKeys | pkg/deej/session_map.go:191-192 | exactly the keys some target of the slider resolves to |
| SessionMap.Reached | pkg/deej/session_map.go:194-202 | exactly the sessions held under some resolved key |
| SessionMap.ApplyVolume | pkg/deej/session_map.go:202-209 | only reached sessions whose volume differs are set, and all of them are; failure is reported exactly when a set failed; a session is set twice only after a failure |
| SessionMap.HandleSliderMoveEvent | pkg/deej/session_map.go:177-218 | stale maps are refreshed first; volumes are set as above; it refreshes softly exactly when nothing was found and forcibly exactly when a set failed; the final state and whether the follow-up queried are those of that unforced or forced refresh, so a forced one always re-queries and stamps the time |
| Foreground.ChildNames | pkg/deej/util/util_windows.go:40-58 | exactly the names of child processes other than the owner whose lookup succeeds |
| Foreground.ChildNamesAppend | pkg/deej/util/util_windows.go:49-54 | children are looked up one at a time: names follow the enumeration order and a process is named once per window |
| Foreground.GetCurrentWindowProcessNames | pkg/deej/util/util_windows.go:26-83 | it queries exactly outside the 350 ms cooldown and otherwise returns the cache; a query stamps the time; a success stores a result led by the owner's name; pid 0 answers the empty list; the result is an error exactly when the owner lookup fails; pid 0 and errors leave the stored result |
| Foreground.StartUpAnswersNothing | pkg/deej/util/util_windows.go:18-34 | in the first 350 ms after start-up a query answers the empty list from the cache |
| Foreground.QueryContents | pkg/deej/util/util_windows.go:70-78 | a successful query lists the owner's name and then exactly the child names |
| Foreground.AtMostOneQueryPerCooldown | pkg/deej/util/util_windows.go:28-34 | a call within 350 ms of a query answers from the cache without querying |
| Foreground.EmptyAnswerNotCached | pkg/deej/util/util_windows.go:61-68 | after a system-owned window answers nothing, calls in the cooldown return the older stored result |
| Foreground.AsTargets | pkg/deej/session_map.go:246-250 | a failed query gives the resolver nothing |
| DeviceFinder.MarkStale | pkg/deej/session_finder_windows.go:160-165 | an existing master session becomes stale and a missing one stays missing |
| DeviceFinder.DefaultDeviceChanged | pkg/deej/session_finder_windows.go:148-167 | answers 0; inside 100 ms of the last accepted change nothing happens; otherwise the time is recorded and both masters are marked stale |
| DeviceFinder.BurstIgnored | pkg/deej/session_finder_windows.go:153-157 | after an accepted notification, every notification within 100 ms of it is ignored, however many arrive |
| DeviceFinder.GetAllSessionsAllOrNothing | pkg/deej/session_finder_windows.go:55-122 | sessions come back exactly when every step succeeds: master output, then master input if present, then the enumerated ones, with fresh masters |
| DeviceFinder.SetUpOnce | pkg/deej/session_finder_windows.go:89-95 | after a complete call, the enumerator and the callback are never created again |
| DeviceFinder.NewFinderFirstUse | pkg/deej/session_finder_windows.go:43-75 | a fresh finder accepts its first device change at any time, and its first call fails when the enumerator cannot be created |
| DeviceFinder.RedundantInitTolerated | pkg/deej/session_finder_windows.go:59-68 | OLE code 1 from the COM initialisation behaves as success, and any other code fails the call |
| DeviceFinder.DeviceChangeThenRefresh | pkg/deej/session_finder_windows.go:97-113 | a device change marks the masters stale, and the next complete call replaces them with fresh ones |

## Left out

- Serial I/O is not modelled: opening the port, the reconnect loop, the read goroutine, and the channels and their buffering. Dispatch is the ordered list of (consumer, event) deliveries.
- Floating point is not modelled. Values are exact reals, so `float32` rounding of raw/1023, of `1 - v` and of the comparisons is left out.
- Viper is not modelled: file parsing, type coercion (for example a non-numeric baud rate read as 0), file watching and the reload goroutine. The values each file supplies are inputs, and a missing key falls back to its registered default.
- The Linux session finder, the session implementations (volume get/set, release) and logging are not modelled. Each session's volume before the event and whether a set on it fails are inputs; a successful set changes the volume read afterwards.
- Locks and goroutines are not modelled. Each operation is atomic and receives one `now`.
- `strings.ToLower` is modelled on ASCII letters only; Unicode case mapping is left out.
- `getMasterSession`, `getDefaultAudioEndpoints`, `registerDefaultDeviceChangeCallback` and `enumerateAndAddSessions` are not part of this model. Their outcomes are inputs to `GetAllSessions`.
- DeviceFinder.GetAllSessions: a failed master step is modelled as leaving no master session; what `getMasterSession` returns on error is not visible.
- Foreground.GetCurrentWindowProcessNames: a process lookup that finds no process and also reports no error is not modelled. Every lookup either names the process or fails.
- Process ids are unbounded naturals rather than 32-bit values.
- `defaultSliderMapping` is defined but never consulted by the source. It is modelled as a constant, and `Config.EmptyFilesConfig` shows that it is unused.
- `String()` of the slider map and of the session map is reduced to the counts it prints.
- SliderMapping.MergeLaw: requires that no two internal keys parse to the same index ("1" and "01"). With such keys the result depends on the map's iteration order; `SliderMapping.InternalPhaseSlot` states that case slot by slot.
- Config.PopulatedMappingMerges: carries the same requirement as `SliderMapping.MergeLaw`, for the same reason.
- SessionMap.HandleSliderMoveEvent: does not report the sessions released by the stale and the follow-up refreshes; `Refresh` states them. One foreground answer (`Environment.currentWindow`) serves every `deej.current` target of the event, whereas the Go code asks for the current window once per such target; a second ask within the 350 ms cooldown returns the cached result of an earlier successful lookup, which can differ from the first ask's answer when that one found no window (owner pid 0) or failed, so a slider that names `deej.current` twice can reach more sessions in Go than in the model.
- SessionMap.GetAndAddSessions: tracks unmapped sessions with the corrected `Targets.SessionMapped`, so a mixed-case special target such as `Deej.foo` does not end the program as the source's index out of range does (see Findings).

## Findings

| source | as written | input that shows it | evidently intended | confidence | as-written member | corrected member |
|---|---|---|---|---|---|---|
| pkg/deej/serial.go:169 | readLoop strips `\r\n` before processLine, whose pattern `^\d{1,4}(\|\d{1,4})*\r\n$` demands it. Even a line given with `\r\n` keeps it in its last `\|`-piece, which `strconv.Atoi` rejects, so no event is ever reported | the serial line `512\|1023\r\n` | match `^\d{1,4}(\|\d{1,4})*$` against the trimmed line, so that "512\|1023" reports 0.50 and 1.00 | high, not executed | Serial.ReadLoopNeverMatches | Serial.ProcessTrimmedLine |
| pkg/deej/session_map.go:160-165 | sessionMapped tests the special prefix on the target as configured but resolves the lower-cased target. A target like `Deej.foo` passes as plain, resolves to an empty list, and `[0]` indexes out of range | slider 0 mapped to `["Deej.foo"]`, session `chrome.exe` | test the prefix on the lower-cased target and skip special targets, as resolveTarget does | medium, not executed | Targets.AsWrittenPanics | Targets.SessionMapped |

The as-written decoder is also modelled on its own: `Serial.ProcessLine` with `Serial.ProcessLineNeverEmits`. `Targets.SessionMappedAsWritten` agrees with the corrected `Targets.SessionMapped` whenever no mixed-case special target is configured (`Targets.AsWrittenAgrees`). The session map's refresh uses the corrected version.
