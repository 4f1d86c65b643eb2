# AutoProtocolMobile — a verified model of the data-processing core

AutoProtocolMobile is an Android app for timing checkpoints at sporting
events. A marshal captures a time point each time a participant passes,
types the participant range (`1-3,7`) it belongs to, and at the end builds
a protocol: a text document with a meta block and one line per participant
listing that participant's times in ascending order. Event settings travel
between devices as a `KEY=VALUE` text block.

This project models that core in Dafny and proves what it promises:

- `timepoint.dfy` (`TimePoints`): the time point object, its
  empty/ready state machine, the `%`-delimited one-line codec and
  `compareTo`.
- `ranges.dfy` (`ParticipantRanges`): the expansion of a range text into
  a participant set and the aggregation of time points into per-participant
  timelines, with a characterisation of the result and order independence.
- `protocol.dfy` (`Protocols`): the protocol builder as a class whose
  methods append meta elements, compute the timelines and render the
  document. Participant line order is the hash map's and is returned as a
  ghost value.
- `blockreader.dfy` (`ApplicationFileManager`): the start-line/stop-line
  scan of `readFile`, over the file's lines.
- `eventconfig.dfy` (`EventConfigurations`): defaults, `getStringData`,
  the line-by-line decoder, and `getFields`/`setFields`; the round trip of
  the encoder and decoder is proved.
- `adapter.dfy` (`TimePointsAdapters`): the capture list as a class with
  the listed points, the points whose save failed, the temporary directory
  (a sequence of serialized lines), the hidden-point counter and review
  mode.
- `clamp.dfy` (`ParticipantClamp`): the participant-ceiling step of the
  range field, as written, and the intended clamp beside it.
- `fileutils.dfy` (`FileUtils`): file-name escaping.
- `sync.dfy` (`Sync`): the base time of an event computed by the sync
  button, with Java `long` truncation, saturation and wrap-around written
  out.
- `strings.dfy` (`Strings`) and `sorting.dfy` (`Sorting`) hold the Java
  library behaviour the core relies on: `Integer.parseInt`/`Long.parseLong`,
  decimal printing, `String.split`, `String.indexOf`, `String.replace`,
  line splitting, and `Collections.sort` as a stable sort.

An empty range text does not give an empty participant set: `"".split(",")`
is `[""]` and `Integer.parseInt("")` throws, so building the protocol fails
(`ParticipantRanges.EmptyRangeFails`).

## Model

| member | source | states |
|---|---|---|
| TimePoints.TimePoint.constructor | app/src/main/java/rekov/graduate/autoprotocol/timepoint/TimePoint.java:11-24 | a new point has raw time 0, participant `""`, is empty and not ready |
| TimePoints.TimePoint.Copy | app/src/main/java/rekov/graduate/autoprotocol/timepoint/TimePoint.java:31-34 | the copy has the original's raw time and participant, is non-empty, and is not ready because readiness is computed before the participant is copied |
| TimePoints.TimePoint.FromTime | app/src/main/java/rekov/graduate/autoprotocol/timepoint/TimePoint.java:49-51 | a point made from a time alone is non-empty, has no participant and is not ready |
| TimePoints.TimePoint.WithParticipant | app/src/main/java/rekov/graduate/autoprotocol/timepoint/TimePoint.java:59-65 | a point made from a time and a range is non-empty and ready iff the range is non-empty |
| TimePoints.TimePoint.SetReady | app/src/main/java/rekov/graduate/autoprotocol/timepoint/TimePoint.java:39-41 | readiness becomes "participant non-empty and point non-empty"; time, participant and emptiness are kept |
| TimePoints.TimePoint.SetTime | app/src/main/java/rekov/graduate/autoprotocol/timepoint/TimePoint.java:86-91 | the raw time is set, the point becomes non-empty, and readiness is recomputed from the participant |
| TimePoints.TimePoint.SetParticipant | app/src/main/java/rekov/graduate/autoprotocol/timepoint/TimePoint.java:98-101 | only the participant changes; readiness is recomputed, so a still-empty point never becomes ready |
| TimePoints.TimePoint.CompareTo | app/src/main/java/rekov/graduate/autoprotocol/timepoint/TimePoint.java:155-158 | the result is -1, 0 or 1, negative iff this raw time is smaller and zero iff the raw times are equal; the participant plays no part |
| TimePoints.Deserialize | app/src/main/java/rekov/graduate/autoprotocol/timepoint/TimePoint.java:110-113 | a fresh point whose state is what the line parses to; fails exactly where the parse fails |
| TimePoints.Serialize | app/src/main/java/rekov/graduate/autoprotocol/timepoint/TimePoint.java:122-124 | the line is the participant, then `%`, then a text that `Long.parseLong` reads back as the raw time |
| TimePoints.ParseSerialize | app/src/main/java/rekov/graduate/autoprotocol/timepoint/TimePoint.java:110-124 | for a participant without `%`, deserializing the serialized point gives its raw time and participant back, non-empty, ready iff the participant is non-empty |
| TimePoints.ParseNeedsSecondSegment | app/src/main/java/rekov/graduate/autoprotocol/timepoint/TimePoint.java:110-113 | a line with no `%`, or with nothing after its only `%`, does not deserialize |
| TimePoints.ParseIgnoresExtraSegments | app/src/main/java/rekov/graduate/autoprotocol/timepoint/TimePoint.java:110-113 | segments after the second one are ignored |
| TimePoints.ParseRejectsBadTime | app/src/main/java/rekov/graduate/autoprotocol/timepoint/TimePoint.java:110-113 | a second segment that is not a decimal `long` makes deserialization fail |
| ParticipantRanges.Between | app/src/main/java/rekov/graduate/autoprotocol/protocol/Protocol.java:182-184 | an integer is in the set iff it lies between the two endpoints inclusive |
| ParticipantRanges.AddBetween | app/src/main/java/rekov/graduate/autoprotocol/protocol/Protocol.java:182-184 | the counting loop adds exactly the integers from the lower to the upper endpoint |
| ParticipantRanges.ExpandToken | app/src/main/java/rekov/graduate/autoprotocol/protocol/Protocol.java:164-188 | the loop body over one token computes the token's participants, failing where `parseInt` throws |
| ParticipantRanges.ExpandRange | app/src/main/java/rekov/graduate/autoprotocol/protocol/Protocol.java:159-189 | the loop over the comma-separated tokens computes the union of their participants, and fails at the first token that does not parse |
| ParticipantRanges.RangeToken | app/src/main/java/rekov/graduate/autoprotocol/protocol/Protocol.java:164-184 | a token `a-b` contributes every integer from min(a,b) to max(a,b); reversed endpoints give the same set |
| ParticipantRanges.NumberToken | app/src/main/java/rekov/graduate/autoprotocol/protocol/Protocol.java:185-188 | a token without a hyphen contributes exactly its own number |
| ParticipantRanges.EmptyRangeFails | app/src/main/java/rekov/graduate/autoprotocol/protocol/Protocol.java:161-188 | the range text `""` is one empty token, which does not parse, so the range fails |
| ParticipantRanges.UnionOfFails | app/src/main/java/rekov/graduate/autoprotocol/protocol/Protocol.java:162-188 | one token that does not parse makes the whole range fail |
| ParticipantRanges.UnionOfDefined | app/src/main/java/rekov/graduate/autoprotocol/protocol/Protocol.java:162-188 | a range reads iff every token reads |
| ParticipantRanges.UnionOfMember | app/src/main/java/rekov/graduate/autoprotocol/protocol/Protocol.java:159-188 | a participant is in the range's set iff some token lists it |
| ParticipantRanges.UnionOrderIrrelevant | app/src/main/java/rekov/graduate/autoprotocol/protocol/Protocol.java:159-188 | reordering the tokens does not change the participant set |
| ParticipantRanges.DuplicateInRange | app/src/main/java/rekov/graduate/autoprotocol/protocol/Protocol.java:159-188 | `1-3,2` reads as the set {1,2,3}: a participant listed twice is in the set once |
| ParticipantRanges.DuplicateTimeOnce | app/src/main/java/rekov/graduate/autoprotocol/protocol/Protocol.java:159-200 | so the record with range `1-3,2` puts its time in participant 2's list once |
| ParticipantRanges.AddTime | app/src/main/java/rekov/graduate/autoprotocol/protocol/Protocol.java:195-200 | the participants of the map afterwards are those before plus those of the record |
| ParticipantRanges.AggregateFails | app/src/main/java/rekov/graduate/autoprotocol/protocol/Protocol.java:153-189 | one record whose range does not read makes the whole aggregation fail |
| ParticipantRanges.AggregateMeaning | app/src/main/java/rekov/graduate/autoprotocol/protocol/Protocol.java:151-203 | aggregation succeeds iff every range reads; then a participant is a key iff some record lists it, and its list is the times of the records listing it, in record order, equal times all kept |
| ParticipantRanges.AggregateOrderIrrelevant | app/src/main/java/rekov/graduate/autoprotocol/protocol/Protocol.java:151-216 | reordering the records changes neither success, nor the participants, nor any participant's sorted time list |
| ParticipantRanges.WorkedExample | app/src/main/java/rekov/graduate/autoprotocol/protocol/Protocol.java:151-203 | records `("1-3",100)` and `("2,4",50)` give 1:[100], 2:[100,50], 3:[100], 4:[50] |
| ParticipantRanges.WorkedExampleSorted | app/src/main/java/rekov/graduate/autoprotocol/protocol/Protocol.java:215-216 | participant 2's list is written as [50,100] |
| Sorting.SortBy | app/src/main/java/rekov/graduate/autoprotocol/protocol/Protocol.java:215-216 | the sort result is a permutation of its input |
| Sorting.SortBySorted | app/src/main/java/rekov/graduate/autoprotocol/protocol/Protocol.java:215-216 | the sort result is ordered by the key |
| Sorting.SortByStable | app/src/main/java/rekov/graduate/autoprotocol/adapters/TimePointsAdapter.java:149 | elements with equal keys keep their relative order (the sort is stable) |
| Sorting.SortAscending | app/src/main/java/rekov/graduate/autoprotocol/protocol/Protocol.java:215-216 | a sorted time list is ascending |
| Sorting.AscendingUnique | app/src/main/java/rekov/graduate/autoprotocol/protocol/Protocol.java:215-216 | two ascending lists with the same elements are equal, so the written line depends only on the times |
| Sorting.SortDependsOnlyOnElements | app/src/main/java/rekov/graduate/autoprotocol/protocol/Protocol.java:215-216 | sorting lists with the same elements gives the same list |
| Protocols.Builder.constructor | app/src/main/java/rekov/graduate/autoprotocol/protocol/Protocol.java:47-68 | a new builder has no time points, no meta elements and no text |
| Protocols.Builder.AddTimepoints | app/src/main/java/rekov/graduate/autoprotocol/protocol/Protocol.java:76-79 | the points are appended after those added before |
| Protocols.Builder.AddMetaElement | app/src/main/java/rekov/graduate/autoprotocol/protocol/Protocol.java:131-133 | `key=value` is appended to the meta elements |
| Protocols.Builder.AddEventName | app/src/main/java/rekov/graduate/autoprotocol/protocol/Protocol.java:87-90 | appends `EVENT_NAME=<name>` |
| Protocols.Builder.AddLapsCount | app/src/main/java/rekov/graduate/autoprotocol/protocol/Protocol.java:98-101 | appends `LAPS_COUNT=<decimal>` |
| Protocols.Builder.AddCheckPointsCount | app/src/main/java/rekov/graduate/autoprotocol/protocol/Protocol.java:109-112 | appends `CHECKPOINTS_COUNT=<decimal>` |
| Protocols.Builder.AddPointId | app/src/main/java/rekov/graduate/autoprotocol/protocol/Protocol.java:120-123 | appends `POINT_ID=<decimal>` |
| Protocols.Builder.WriteMeta | app/src/main/java/rekov/graduate/autoprotocol/protocol/Protocol.java:138-144 | appends `%META_START%`, a line break and each element in insertion order, then a line break and `%META_END%` |
| Protocols.Builder.GetParticipants | app/src/main/java/rekov/graduate/autoprotocol/protocol/Protocol.java:151-203 | the nested loops compute the aggregation of the added points (see AggregateMeaning), or fail where a range does not read |
| Protocols.Builder.AppendParticipant | app/src/main/java/rekov/graduate/autoprotocol/protocol/Protocol.java:215-223 | appends a line break, `id=` and each time of the ascending-sorted list followed by `;` |
| Protocols.Builder.WriteParticipants | app/src/main/java/rekov/graduate/autoprotocol/protocol/Protocol.java:208-225 | writes one line per participant, each exactly once, in an unspecified order |
| Protocols.Builder.Create | app/src/main/java/rekov/graduate/autoprotocol/protocol/Protocol.java:233-239 | appends the time pattern and time zone after the earlier meta elements, writes the meta block and then the participant lines, and returns the whole text; when a range fails, only the meta block has been written and there is no protocol |
| Protocols.Builder.WriteDocument | app/src/main/java/rekov/graduate/autoprotocol/protocol/Protocol.java:236-238 | the meta block followed by the participant lines, or the meta block alone and no protocol when a range fails |
| Protocols.AddToAll | app/src/main/java/rekov/graduate/autoprotocol/protocol/Protocol.java:195-200 | the loop over a record's participant set appends its time to each of their lists |
| Protocols.NewBuilder | app/src/main/java/rekov/graduate/autoprotocol/activities/ProcessEventActivity.java:206-219 | the finish button's chain leaves meta elements event name, laps, checkpoints, point id, in that order, and the captured points |
| Protocols.BuildProtocol | app/src/main/java/rekov/graduate/autoprotocol/activities/ProcessEventActivity.java:205-219 | the protocol exists iff every range reads, and is then the document with meta event name, laps, checkpoints, point id, time pattern, time zone, then each participant's line once |
| ApplicationFileManager.ReadFile | app/src/main/java/rekov/graduate/autoprotocol/utils/ApplicationFileManager.java:213-236 | the result is the block between the first start line and the next stop line |
| ApplicationFileManager.SkipThroughStart | app/src/main/java/rekov/graduate/autoprotocol/utils/ApplicationFileManager.java:218-222 | the first loop stops just after the first start line, or at the end of the file |
| ApplicationFileManager.CollectUntilStop | app/src/main/java/rekov/graduate/autoprotocol/utils/ApplicationFileManager.java:223-229 | the second loop collects the lines up to, not including, the next stop line |
| ApplicationFileManager.UntilStop | app/src/main/java/rekov/graduate/autoprotocol/utils/ApplicationFileManager.java:223-229 | the collected lines never include the stop line |
| ApplicationFileManager.UntilStopPrefix | app/src/main/java/rekov/graduate/autoprotocol/utils/ApplicationFileManager.java:223-229 | the collected lines are a prefix of the rest of the file, cut at a stop line when one follows |
| ApplicationFileManager.StartIndex | app/src/main/java/rekov/graduate/autoprotocol/utils/ApplicationFileManager.java:218-222 | the scan position is the first line equal to the start line, no earlier line is |
| ApplicationFileManager.SkipsThroughStart | app/src/main/java/rekov/graduate/autoprotocol/utils/ApplicationFileManager.java:218-222 | every line up to and including the first start line is skipped |
| ApplicationFileManager.NoStartLine | app/src/main/java/rekov/graduate/autoprotocol/utils/ApplicationFileManager.java:218-222 | without a start line the result is empty |
| ApplicationFileManager.StopsAtStop | app/src/main/java/rekov/graduate/autoprotocol/utils/ApplicationFileManager.java:223-229 | collection ends before the first stop line |
| ApplicationFileManager.NoStopLine | app/src/main/java/rekov/graduate/autoprotocol/utils/ApplicationFileManager.java:223-229 | without a later stop line the result runs to the end of the file |
| ApplicationFileManager.BlockBetweenMarkers | app/src/main/java/rekov/graduate/autoprotocol/utils/ApplicationFileManager.java:213-236 | the result is exactly the lines between the first start line and the next stop line, in file order |
| ApplicationFileManager.WholeLineMarkers | app/src/main/java/rekov/graduate/autoprotocol/utils/ApplicationFileManager.java:218-229 | a line that merely contains a marker is data, not a marker |
| EventConfigurations.EventConfiguration.constructor | app/src/main/java/rekov/graduate/autoprotocol/configurations/EventConfiguration.java:35-40 | the defaults are name `New event`, max participant 0, auto delay 1, manual delay 10, laps 1, checkpoints 1 |
| EventConfigurations.EventConfiguration.GetFields | app/src/main/java/rekov/graduate/autoprotocol/configurations/EventConfiguration.java:54-63 | every form field is present, and setting the fields it returns succeeds and changes nothing |
| EventConfigurations.Fields | app/src/main/java/rekov/graduate/autoprotocol/configurations/EventConfiguration.java:54-63 | each field holds its setting: the name as it is, a number in decimal |
| EventConfigurations.EventConfiguration.SetFields | app/src/main/java/rekov/graduate/autoprotocol/configurations/EventConfiguration.java:71-83 | assigns the name, then each number in order, stopping at the first that does not parse with the earlier assignments kept |
| EventConfigurations.SetFieldsSucceeds | app/src/main/java/rekov/graduate/autoprotocol/configurations/EventConfiguration.java:71-83 | setFields succeeds iff every numeric field parses, and then holds exactly the fields' values |
| EventConfigurations.BadMaxParticipant | app/src/main/java/rekov/graduate/autoprotocol/configurations/EventConfiguration.java:71-83 | a max participant that does not parse fails with only the name already changed (not atomic) |
| EventConfigurations.SetFieldsOfFields | app/src/main/java/rekov/graduate/autoprotocol/configurations/EventConfiguration.java:54-83 | setFields(getFields()) succeeds and leaves every setting unchanged |
| EventConfigurations.SetNumbersReads | app/src/main/java/rekov/graduate/autoprotocol/configurations/EventConfiguration.java:74-82 | the numbers before the first unparsable one are stored, the rest keep their values, and the result is false iff one fails |
| EventConfigurations.EventConfiguration.GetStringData | app/src/main/java/rekov/graduate/autoprotocol/configurations/EventConfiguration.java:151-160 | when the name has no line break, reading the block back gives this configuration |
| EventConfigurations.BlockLines | app/src/main/java/rekov/graduate/autoprotocol/configurations/EventConfiguration.java:152-159 | the six lines in the order EVENT_NAME, MAX_PARTICIPANT, AUTO_SYNC_DELAY, MANUAL_SYNC_DELAY, LAPS_COUNT, CHECKPOINTS_COUNT |
| EventConfigurations.LinesOfStringData | app/src/main/java/rekov/graduate/autoprotocol/configurations/EventConfiguration.java:151-160 | the text splits into the start marker, the six lines and the end marker: joined by `\n`, no trailing newline |
| EventConfigurations.StringDataRoundTrip | app/src/main/java/rekov/graduate/autoprotocol/configurations/EventConfiguration.java:151-216 | decoding the file text of a configuration whose name has no line break gives all six settings back |
| EventConfigurations.KeyField | app/src/main/java/rekov/graduate/autoprotocol/configurations/EventConfiguration.java:195-214 | a key selects the field written under that key, and no other |
| EventConfigurations.Assign | app/src/main/java/rekov/graduate/autoprotocol/configurations/EventConfiguration.java:195-214 | a known key sets its field and nothing else; an unknown key changes nothing; a non-integer value for a number fails |
| EventConfigurations.DecodeLine | app/src/main/java/rekov/graduate/autoprotocol/configurations/EventConfiguration.java:192-194 | a line without `=` fails |
| EventConfigurations.DecodeEntry | app/src/main/java/rekov/graduate/autoprotocol/configurations/EventConfiguration.java:192-194 | the key is everything before the first `=`; later `=` belong to the value |
| EventConfigurations.LineWithoutDelimiter | app/src/main/java/rekov/graduate/autoprotocol/configurations/EventConfiguration.java:184-194 | one line without `=` anywhere in the block makes the whole read fail |
| EventConfigurations.LastNameWins | app/src/main/java/rekov/graduate/autoprotocol/configurations/EventConfiguration.java:191-214 | a name line appended to a block that reads sets the name, whatever earlier lines said |
| EventConfigurations.LastLineDecides | app/src/main/java/rekov/graduate/autoprotocol/configurations/EventConfiguration.java:191-214 | for every field, numeric or name: after a block that reads, the field holds the value of the last line under its key, and keeps its earlier value when no line has that key |
| EventConfigurations.MissingKeyKeepsDefault | app/src/main/java/rekov/graduate/autoprotocol/configurations/EventConfiguration.java:184-216 | a file whose block never names a field gives that field its default |
| EventConfigurations.TwoMaxLines | app/src/main/java/rekov/graduate/autoprotocol/configurations/EventConfiguration.java:191-214 | of two maximum-participant lines the second decides |
| EventConfigurations.RepeatedAndMissingKeys | app/src/main/java/rekov/graduate/autoprotocol/configurations/EventConfiguration.java:184-216 | a block with the name, `MAX_PARTICIPANT=50` and then `MAX_PARTICIPANT=60`, and no other key, reads as name `Race`, maximum 60 and the defaults for the rest, the laps count 1 among them |
| EventConfigurations.DecodeLinesAppend | app/src/main/java/rekov/graduate/autoprotocol/configurations/EventConfiguration.java:191-215 | the lines are applied in order, failing at the first that fails |
| EventConfigurations.DecodeBlockLines | app/src/main/java/rekov/graduate/autoprotocol/configurations/EventConfiguration.java:151-215 | the written lines, read onto any settings, give the written configuration |
| EventConfigurations.EventConfiguration.ApplyLine | app/src/main/java/rekov/graduate/autoprotocol/configurations/EventConfiguration.java:191-214 | one iteration of the decoding loop assigns the field its key names; nothing changes when it fails |
| EventConfigurations.FromFile | app/src/main/java/rekov/graduate/autoprotocol/configurations/EventConfiguration.java:184-216 | a configuration is produced iff every block line decodes, starting from the defaults, and then holds the decoded settings |
| TimePointsAdapters.TimePointsAdapter.constructor | app/src/main/java/rekov/graduate/autoprotocol/adapters/TimePointsAdapter.java:37-59 | a new adapter lists nothing, holds nothing back, has no ceiling (-1), is not in review mode and has hidden nothing |
| TimePointsAdapters.TimePointsAdapter.Destroy | app/src/main/java/rekov/graduate/autoprotocol/adapters/TimePointsAdapter.java:68-73 | empties both lists and the temporary directory |
| TimePointsAdapters.TimePointsAdapter.SetMaxParticipant | app/src/main/java/rekov/graduate/autoprotocol/adapters/TimePointsAdapter.java:161-163 | stores the ceiling |
| TimePointsAdapters.TimePointsAdapter.AddTimePoint | app/src/main/java/rekov/graduate/autoprotocol/adapters/TimePointsAdapter.java:170-173 | appends at the end and leaves the existing elements as they are |
| TimePointsAdapters.TimePointsAdapter.UpdateTime | app/src/main/java/rekov/graduate/autoprotocol/adapters/TimePointsAdapter.java:188-208 | the list's states become those of UpdatedTimes; either the same objects, or the same objects plus one new one at the end |
| TimePointsAdapters.TimePointsAdapter.FirstEmptyPosition | app/src/main/java/rekov/graduate/autoprotocol/adapters/TimePointsAdapter.java:189-198 | the search loop finds the first empty point, or -1 when there is none |
| TimePointsAdapters.TimePointsAdapter.FillFirstEmpty | app/src/main/java/rekov/graduate/autoprotocol/adapters/TimePointsAdapter.java:200-203 | setting the time on the first empty point is the update |
| TimePointsAdapters.TimePointsAdapter.SetTimeAt | app/src/main/java/rekov/graduate/autoprotocol/adapters/TimePointsAdapter.java:202 | only the point at that position changes, as setTime changes it |
| TimePointsAdapters.TimePointsAdapter.AppendTime | app/src/main/java/rekov/graduate/autoprotocol/adapters/TimePointsAdapter.java:204-207 | with no empty point, one new point with the time and no participant is appended and the rest is kept |
| TimePointsAdapters.FirstEmpty | app/src/main/java/rekov/graduate/autoprotocol/adapters/TimePointsAdapter.java:189-198 | the position holds an empty point and no earlier one is empty |
| TimePointsAdapters.UpdateTimeKeepsCaptured | app/src/main/java/rekov/graduate/autoprotocol/adapters/TimePointsAdapter.java:188-208 | the time lands on the first empty point (length kept) or on a new point at the end (length + 1); every other point, and every point that has a time, is unchanged |
| TimePointsAdapters.UpdateTimeUsesOneEmpty | app/src/main/java/rekov/graduate/autoprotocol/adapters/TimePointsAdapter.java:188-208 | each captured time uses up one empty point while there is one |
| TimePointsAdapters.TimePointsAdapter.HasUnready | app/src/main/java/rekov/graduate/autoprotocol/adapters/TimePointsAdapter.java:125-138 | true iff nothing is listed or hidden, or some listed point is not ready |
| TimePointsAdapters.CaptureNeedsRange | app/src/main/java/rekov/graduate/autoprotocol/adapters/TimePointsAdapter.java:125-208 | a time captured into a new point, or into one without a range, leaves the list unready |
| TimePointsAdapters.TimePointsAdapter.SaveTimepoint | app/src/main/java/rekov/graduate/autoprotocol/adapters/TimePointsAdapter.java:82-90 | the hidden count goes up by one either way; the serialized point goes to the temporary directory, or the point to the failed list when the write fails |
| TimePointsAdapters.TimePointsAdapter.GetSavedTimePoints | app/src/main/java/rekov/graduate/autoprotocol/adapters/TimePointsAdapter.java:100-116 | the decoded temporary lines, in the order the model keeps them, followed by the points whose save failed; both stores are then empty; nothing changes when a line does not decode |
| TimePointsAdapters.TimePointsAdapter.TakeSaved | app/src/main/java/rekov/graduate/autoprotocol/adapters/TimePointsAdapter.java:110-115 | appends the held-back points to the read ones and empties both stores |
| TimePointsAdapters.DeserializeAll | app/src/main/java/rekov/graduate/autoprotocol/adapters/TimePointsAdapter.java:106-108 | the loop deserializes every line, in order, into distinct new points, or fails iff some line does not parse |
| TimePointsAdapters.DeserializeEach | app/src/main/java/rekov/graduate/autoprotocol/adapters/TimePointsAdapter.java:106-108 | the loop reads up to the first line that does not parse |
| TimePointsAdapters.ReadNext | app/src/main/java/rekov/graduate/autoprotocol/adapters/TimePointsAdapter.java:107 | one line is deserialized into a new point, or fails where its parse fails |
| TimePointsAdapters.ParseAllEach | app/src/main/java/rekov/graduate/autoprotocol/adapters/TimePointsAdapter.java:106-108 | reading the temporary lines succeeds iff every line parses, and then holds each line's point |
| TimePointsAdapters.SavedPointsReadBack | app/src/main/java/rekov/graduate/autoprotocol/adapters/TimePointsAdapter.java:82-108 | points saved to the temporary directory come back with their times and ranges, in the order the model keeps them, when no range holds `%` |
| TimePointsAdapters.TimePointsAdapter.ShowReview | app/src/main/java/rekov/graduate/autoprotocol/adapters/TimePointsAdapter.java:147-153 | the list becomes the old list followed by the saved points, stably sorted by raw time; review mode is on and both stores are empty |
| TimePointsAdapters.TimePointsAdapter.EnterReview | app/src/main/java/rekov/graduate/autoprotocol/adapters/TimePointsAdapter.java:148-151 | the saved points are added, the list sorted, review mode set |
| TimePointsAdapters.TimePointsAdapter.AddAllSorted | app/src/main/java/rekov/graduate/autoprotocol/adapters/TimePointsAdapter.java:148-149 | the list becomes the old list and the saved points, sorted by raw time |
| TimePointsAdapters.SortedByRawTime | app/src/main/java/rekov/graduate/autoprotocol/adapters/TimePointsAdapter.java:149 | the sorted list is a permutation of the list, non-decreasing in raw time |
| TimePointsAdapters.DistinctUnion | app/src/main/java/rekov/graduate/autoprotocol/adapters/TimePointsAdapter.java:100-153 | joining two lists of distinct points, none shared, in any order, gives distinct points |
| ParticipantClamp.ClampParticipants | app/src/main/java/rekov/graduate/autoprotocol/adapters/TimePointsAdapter.java:334-341 | the clamp loop computes the as-written clamp: only with a ceiling and non-empty text, each over-ceiling token of the original text replaced as a substring everywhere; fails where a token does not parse |
| ParticipantClamp.NoCeilingKeepsText | app/src/main/java/rekov/graduate/autoprotocol/adapters/TimePointsAdapter.java:334 | without a ceiling, or on empty text, the text is kept |
| ParticipantClamp.ClampAsWrittenMissesSixteen | app/src/main/java/rekov/graduate/autoprotocol/adapters/TimePointsAdapter.java:334-340 | ceiling 5 turns `6,16` into `5,15` |
| ParticipantClamp.ClampAsWrittenOverflows | app/src/main/java/rekov/graduate/autoprotocol/adapters/TimePointsAdapter.java:337 | a ten-digit token makes the clamp fail |
| ParticipantClamp.ClampIntendedPieces | app/src/main/java/rekov/graduate/autoprotocol/adapters/TimePointsAdapter.java:329-333 | the intended clamp keeps the separators and clamps each token in place |
| ParticipantClamp.ClampIntendedBounded | app/src/main/java/rekov/graduate/autoprotocol/adapters/TimePointsAdapter.java:329-333 | after the intended clamp no number exceeds the ceiling |
| ParticipantClamp.ClampIntendedKeepsSmall | app/src/main/java/rekov/graduate/autoprotocol/adapters/TimePointsAdapter.java:329-333 | text with no number above the ceiling is left as it is |
| ParticipantClamp.ClampIntendedIdempotent | app/src/main/java/rekov/graduate/autoprotocol/adapters/TimePointsAdapter.java:329-333 | clamping twice is clamping once |
| ParticipantClamp.ClampIntendedSixSixteen | app/src/main/java/rekov/graduate/autoprotocol/adapters/TimePointsAdapter.java:329-333 | the intended clamp turns `6,16` into `5,5` |
| ParticipantClamp.ClampIntendedLong | app/src/main/java/rekov/graduate/autoprotocol/adapters/TimePointsAdapter.java:329-333 | the intended clamp turns `3000000000` into `5` |
| FileUtils.Escape | app/src/main/java/rekov/graduate/autoprotocol/utils/FileUtils.java:101-103 | the escaped name holds no whitespace, pipe, backslash, question mark, asterisk, angle bracket, double quote, colon, plus, square bracket, slash or apostrophe, and is no longer than the name |
| FileUtils.EscapeChar | app/src/main/java/rekov/graduate/autoprotocol/utils/FileUtils.java:101-103 | one character is kept iff it is not reserved |
| FileUtils.EscapeAppend | app/src/main/java/rekov/graduate/autoprotocol/utils/FileUtils.java:101-103 | escaping works piece by piece, so kept characters keep their order |
| FileUtils.EscapeCounts | app/src/main/java/rekov/graduate/autoprotocol/utils/FileUtils.java:101-103 | each non-reserved character occurs as often as in the name; reserved ones not at all |
| FileUtils.EscapeKeepsSafe | app/src/main/java/rekov/graduate/autoprotocol/utils/FileUtils.java:101-103 | a name without reserved characters is returned unchanged |
| FileUtils.EscapeIdempotent | app/src/main/java/rekov/graduate/autoprotocol/utils/FileUtils.java:101-103 | escaping twice is escaping once |
| FileUtils.EscapeAllReserved | app/src/main/java/rekov/graduate/autoprotocol/utils/FileUtils.java:101-103 | a name of reserved characters only escapes to `""` |
| FileUtils.EscapeShortens | app/src/main/java/rekov/graduate/autoprotocol/utils/FileUtils.java:101-103 | a name holding a reserved character gets strictly shorter |
| Sync.TruncDiv | app/src/main/java/rekov/graduate/autoprotocol/activities/SyncActivity.java:130-138 | the conversion to whole units truncates toward zero: the remainder is below one unit and has the sign of the time |
| Sync.ToMillis | app/src/main/java/rekov/graduate/autoprotocol/activities/SyncActivity.java:130-138 | the conversion back to milliseconds multiplies, saturating at the bounds of `long` |
| Sync.BaseWholeUnits | app/src/main/java/rekov/graduate/autoprotocol/activities/SyncActivity.java:130-138 | the base time is a whole number of minutes (auto) or seconds (manual), unless it saturated |
| Sync.BaseWindow | app/src/main/java/rekov/graduate/autoprotocol/activities/SyncActivity.java:130-138 | for a time at or after 1970, base − now lies in ((d−1)·m, d·m] for unit m and delay d |
| Sync.BaseWindowNegative | app/src/main/java/rekov/graduate/autoprotocol/activities/SyncActivity.java:130-138 | for a time before 1970 truncation rounds up instead, and base − now lies in [d·m, (d+1)·m) |
| Sync.AutoSyncExample | app/src/main/java/rekov/graduate/autoprotocol/activities/SyncActivity.java:130-133 | auto sync at 12:34:56.789 with delay 1 gives 12:35:00.000 |
| Sync.ManualSyncExample | app/src/main/java/rekov/graduate/autoprotocol/activities/SyncActivity.java:134-138 | manual sync at 12:34:56.789 with delay 10 gives 12:35:06.000 |
| Sync.ScheduleDelay | app/src/main/java/rekov/graduate/autoprotocol/activities/SyncActivity.java:141-144 | the scheduling delay is never negative, and is the time left until the base time when the subtraction does not overflow |
| Sync.SyncScreen.OnSync | app/src/main/java/rekov/graduate/autoprotocol/activities/SyncActivity.java:127-146 | the stored base time is that of the chosen mode and its configured delay, and the delay is the clamped time left until it |
| Sync.SyncScreen.OnStartEvent | app/src/main/java/rekov/graduate/autoprotocol/activities/SyncActivity.java:139-153 | the stored base time is handed on unchanged |

## Left out

- The regular-expression clean-up of the range field (`TimePointsAdapter.java:322-326`) is not modelled. The clamp starts from the cleaned text, and range expansion starts from whatever range the point holds.
- Android UI is not modelled: activities, dialogs, list binding, view holders, focus and keyboard handling, `notify*` calls, and the click handler of the capture list (`TimePointsAdapter.java:368-405`).
- File I/O is abstracted:
  - the temporary directory is a sequence of serialized lines;
  - whether a temporary-file write succeeds is a parameter of `SaveTimepoint`;
  - `readFile` works on the file's lines, so its `IOException` path and `BufferedReader.ready()` are not modelled;
  - object-file persistence (`EventConfiguration.apply`/`getCurrent`, `PointConfiguration`) and `writeFile` are not modelled.
- Temporary-file names (random UUIDs), logging, `FileUtils.deleteFile`/`sendFile`/`getUriForFile` and `Protocol.writeFile` are outside the core.
- Concurrency is left out. In the source, saving a hidden point (`TimePointsAdapter.java:388`) and clearing the temporary directory (`TimePointsAdapter.java:110`) both run later on a background executor. The model does both within the call that asks for them.
- As a consequence, the model misses one race. `showReview` reads the directory on the UI thread (`TimePointsAdapter.java:106`) and then queues the clear. A save queued before it that has not yet run is not read back. When it does run, its file may be deleted unread by the queued clear. In the model, every saved point is read back.
- The displayed time string of a point (`DateTimeFormatter.formatTime`) is left out. The time pattern and time zone meta values are the constants `HH:mm:ss.SSS` and `GMT`.
- A `null` participant is never modelled. Every participant is a string.
- The two clock readings of the sync button are parameters. The finishing timer task and its UI are left out.
- `DeserializeAll` and `GetSavedTimePoints` give the new points as a list whose points are distinct from every listed or held-back point; their freshness is stated only by `Deserialize` and `ReadNext`.
- `Protocols.BuildProtocol`: models the finish button with both the event and the point configuration present. With a missing configuration, the source leaves out that configuration's meta elements.
- `Protocols.Builder.GetParticipants`: requires that no range token of any point has `Integer.MAX_VALUE` as its upper endpoint. For such a token the source's `i <= endRange` loop never ends. The requirement also excludes inputs where an earlier token or point fails first, such as `x,1-2147483647`. There the source throws before reaching the endless loop, and the model gives no result for them.
- `ParticipantRanges.ExpandRange`: has the same requirement, with the same reason and the same excluded inputs.
- `Protocols.Builder.Create`: has the same requirement, passed on from `GetParticipants`, with the same excluded inputs.
- `Protocols.Builder.WriteDocument`: has the same requirement, for the same reason.
- `Protocols.BuildProtocol`: has the same requirement, for the same reason.
- `EventConfigurations.EventConfiguration.SetFields`: requires an event-name field. Without one the source stores `null` as the name, which the model has no value for.
- `Sync.BaseWindow`: stated only when the sum of units and delay does not saturate `long`. Saturation takes a clock reading or delay near 2^63 milliseconds.
- `TimePointsAdapters.TimePointsAdapter.ShowReview`: sets review mode after sorting. The notification of the list view is left out.
- `TimePointsAdapters.TimePointsAdapter.SaveTimepoint`: appends each saved line at the end of the temporary directory. The source gives every file a random UUID name (`TimePointsAdapter.java:83`) and lists the directory in no specified order.
- `TimePointsAdapters.TimePointsAdapter.GetSavedTimePoints`: reads the lines back in the order they were saved. In the source only the set of read points is fixed, not their order.
- `TimePointsAdapters.TimePointsAdapter.ShowReview`: inherits that fixed order. After its stable sort, points with equal raw times stand in save order, where the source may order them differently.
- `Strings.ParseDecimal`: accepts only the ASCII digits `0`-`9`. Java's `Integer.parseInt` and `Long.parseLong` read digits with `Character.digit`, which also accepts other Unicode decimal digits (Arabic-Indic digits, for example). The model rejects such text in configuration values, form fields and serialized times.
- `Sorting.SortBy`: `Collections.sort` is a merge sort. It is modelled by a stable insertion sort; a stable sort's result is unique, so the outcome is the same.

## Findings

| source | as written | input that shows it | evidently intended | confidence | as-written member | corrected member |
|---|---|---|---|---|---|---|
| app/src/main/java/rekov/graduate/autoprotocol/adapters/TimePointsAdapter.java:334-340 | each token above the ceiling is replaced with `String.replace`, which rewrites every occurrence of its digits anywhere in the text | ceiling 5, text `6,16`: replacing `6` turns `16` into `15`, and `16` is no longer found on its own turn, so the result is `5,15` | every number above the ceiling becomes the ceiling: `5,5` | high; not executed | ParticipantClamp.ClampAsWrittenMissesSixteen | ParticipantClamp.ClampIntendedBounded |
| app/src/main/java/rekov/graduate/autoprotocol/adapters/TimePointsAdapter.java:337 | each token is read with `Integer.parseInt`, which throws for numbers beyond `int` | ceiling 5, text `3000000000`: the parse throws inside the focus handler | a number of any length above the ceiling becomes the ceiling: `5` | medium; not executed | ParticipantClamp.ClampAsWrittenOverflows | ParticipantClamp.ClampIntendedLong |
