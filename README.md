# Warcraft Logs to Mythic Dungeon Tool: a Dafny model

`wcl_to_mdt.py` reads a Warcraft Logs combat report and produces an import string
for the Mythic Dungeon Tool (MDT) dungeon planner. This project models and proves
the part of it that turns already-fetched data into that string:

- **Roster table.** The roster of NPC actors becomes a table from spawn-instance
  id to creature template (`gameID`). Only actors with a `gameID` are kept. For
  a repeated id the last actor *with a `gameID`* wins; a later actor without
  one leaves the entry as it is (`Combat`).
- **Filter.** The events are filtered to damage dealt to a known instance and
  casts by a known instance, keeping their input order (`Combat`).
- **Stable sort.** The filtered events are stable-sorted by timestamp
  (`StableSort`).
- **Gap walk.** A walk over the sorted events cuts them into pulls wherever the
  gap since the previous accepted event is strictly greater than the reset timer
  (10000 ms by default) (`Segmenter`).
- **Template mapping.** Each pull's instances become the set of their non-zero
  templates. Pulls left without a template are dropped (`Resolver`,
  `Pipeline`).
- **Encoder.** The pulls are rendered as the Lua-table text MDT imports, with
  every line break removed (`Encoder`). A reader for that text (`Decoder`) proves
  that the text records the pulls, in order, and the dungeon number without loss.
- **Report code.** The report code is cut out of the report URL (`ReportUrl`).
- **Fight selection.** The fight to convert is chosen (`FightSelection`).
- **Conversion.** The conversion step of `main` chains the pipeline and the
  encoder (`Export`).

`Decimal` models Python's `str(int)` and the part of `int(str)` the program
relies on. `Wrappers` holds `Option` and `Result`.

The state-changing loops of the program are methods proved against reference
functions:

- `Segmenter.SegmentPulls` against `Segmenter.Segment`;
- `Resolver.MapPulls` against `Resolver.Resolve`;
- `Encoder.GenerateMdtLuaString` against `Encoder.MdtString`.

What the program promises is then proved about those functions:

- **Gap partition.** The pulls are the unique cut of the accepted events into
  runs. Gaps inside a run are at most the timer; gaps between runs are greater
  than it.
- **Union.** Together the pulls hold exactly the instances of the qualifying
  events.
- **Mapped pulls.** Every mapped pull is non-empty and drawn from the roster.
  The mapped pulls keep their order.
- **Encoder round trip.** The encoded string decodes back to its input.
- **Input order.** Events with equal timestamps keep their input order, and
  shuffling input events whose timestamps are all distinct changes nothing.

Two behaviours of the code are worth knowing:

- **One empty result for every failure.** `process_events_for_mdt` returns the
  same empty list when the roster has no `gameID`, when no event qualifies, and
  when every pull is dropped at mapping. A caller cannot tell the three apart.
  `Pipeline.ProcessedPulls` does the same.
- **Splitting on the marker.** The report code is the text after the last
  `/reports/` *found by Python's left-to-right, non-overlapping split*. That is
  not always the text after the last occurrence of the marker (see
  `ReportUrl.SplitLastDoesNotOverlap`).

## Model

| member | source | states |
|---|---|---|
| Combat.CombatantTable | wcl_to_mdt.py:179-182 | an instance id is in the table exactly when some roster actor has that id and a `gameID` that is not None |
| Combat.CombatantTableLastWins | wcl_to_mdt.py:179-182 | the template stored for an id is the `gameID` of a roster actor with that id, and every later actor with that id has no `gameID` (the dict comprehension keeps the last entry) |
| Combat.CombatFilter | wcl_to_mdt.py:195-196 | each event occurs in the output as often as in the input if it is damage to a known target or a cast by a known source, and not at all otherwise |
| Combat.FilterSingle | wcl_to_mdt.py:195-196 | one event is kept exactly when it qualifies |
| Combat.FilterConcat | wcl_to_mdt.py:195-196 | the filter of a concatenation is the concatenation of the filters, so the kept events stay in input order |
| StableSort.Insert | wcl_to_mdt.py:194-198 | inserting into a sorted sequence gives a sorted sequence with the event added to its multiset |
| StableSort.SortByTimestamp | wcl_to_mdt.py:194-198 | the result is sorted by timestamp and is a permutation of the input |
| StableSort.SortStable | wcl_to_mdt.py:194-198 | for every timestamp, the events carrying it keep their input order (the sort is stable) |
| StableSort.StableSortUnique | wcl_to_mdt.py:194-198 | any sorted sequence that keeps the input order within every timestamp equals the model's sort, so the model sorts as Python's stable `sorted` does |
| Segmenter.AcceptedEvents | wcl_to_mdt.py:209-211 | an event is kept by the walk exactly when its actor (targetID for damage, sourceID otherwise) is in the table |
| Segmenter.GapBlocks | wcl_to_mdt.py:213-219 | the runs are empty exactly when there are no accepted events |
| Segmenter.GapBlocksPartition | wcl_to_mdt.py:213-224 | the runs concatenate to the accepted events, are non-empty, have gaps of at most the timer inside and gaps greater than the timer between them |
| Segmenter.GapPartitionUnique | wcl_to_mdt.py:213-224 | any cut of the events with those properties is the walk's cut |
| Segmenter.ThresholdIsStrict | wcl_to_mdt.py:213 | a gap equal to the timer keeps two events in one pull; a gap one millisecond longer splits them |
| Segmenter.WalkTracksRuns | wcl_to_mdt.py:206-219 | after any prefix of the events, the walk's closed pulls are the instance sets of every gap run but the last, its open pull is that of the last run, and its last time is that of the last accepted event |
| Segmenter.WalkSegments | wcl_to_mdt.py:204-224 | the walk followed by emitting a non-empty open pull gives exactly the instance sets of the gap runs, whatever the initial time |
| Segmenter.SegmentPulls | wcl_to_mdt.py:204-224 | the loop with its current set, last timestamp and `continue` for unknown actors emits the instance sets of the gap runs |
| Segmenter.SegmentPullsKnown | wcl_to_mdt.py:213-224 | every pull emitted is non-empty and holds only known instance ids |
| Segmenter.SegmentUnion | wcl_to_mdt.py:209-224 | the pulls together hold exactly the actor ids of the accepted events |
| Resolver.TemplateIds | wcl_to_mdt.py:229-233 | a template is in a mapped pull exactly when some instance of the pull maps to it and it is non-zero (truthiness test at line 232) |
| Resolver.Resolve | wcl_to_mdt.py:227-235 | there are no more mapped pulls than pulls, and none of them is empty |
| Resolver.KeptPulls | wcl_to_mdt.py:227-235 | each mapped pull is the template set of an input pull at an increasing position, so order is kept, and every dropped pull has no template |
| Resolver.MapPulls | wcl_to_mdt.py:227-235 | the mapping loop emits the non-empty template sets in order |
| Resolver.ResolvedTemplatesFromTable | wcl_to_mdt.py:229-233 | every template in the output is non-zero and is a value of the table |
| Pipeline.ProcessEventsForMdt | wcl_to_mdt.py:170-238 | the function, with its default timer of 10000 ms, returns the staged result, and every pull in it is non-empty |
| Pipeline.InCombatEvents | wcl_to_mdt.py:194-198 | an event is a combat event exactly when it is a qualifying input event |
| Pipeline.CombatEventsAccepted | wcl_to_mdt.py:194-211 | the combat events are sorted and the walk skips none of them |
| Pipeline.NoResolvableActors | wcl_to_mdt.py:184-186 | with no roster actor carrying a `gameID` the result is empty |
| Pipeline.NoRelevantEvents | wcl_to_mdt.py:200-202 | with no qualifying event the result is empty |
| Pipeline.SegmentedPullsAreGapRuns | wcl_to_mdt.py:194-224 | the pulls before mapping are the instance sets of the unique gap partition of the sorted combat events |
| Pipeline.ActorIdsOfCombatEvents | wcl_to_mdt.py:194-198 | the actor ids of the combat events are the actor ids of the qualifying input events |
| Pipeline.SegmentedUnionIsQualifyingActors | wcl_to_mdt.py:195-196 | the union of the pulls before mapping is exactly the set of actor ids of the qualifying events |
| Pipeline.CombatEventsTies | wcl_to_mdt.py:194-198 | the combat events with one timestamp are the qualifying input events with that timestamp, in input order |
| Pipeline.CombatEventsDependOnTies | wcl_to_mdt.py:194-198 | inputs with the same events in the same order within every timestamp give the same combat events |
| Pipeline.SegmentIgnoresInputOrder | wcl_to_mdt.py:194-224 | a permutation of input events with distinct timestamps gives the same combat events and the same pulls |
| Pipeline.ProcessedPullsIgnoreInputOrder | wcl_to_mdt.py:170-238 | a permutation of input events with distinct timestamps gives the same result |
| Pipeline.ProcessedPullsShape | wcl_to_mdt.py:179-238 | every output pull is non-empty, and every template in it is non-zero and is the `gameID` of a roster actor |
| Decimal.NatToStringDigits | wcl_to_mdt.py:249 | `str` of a natural number is a non-empty digit string without a leading zero whose decimal value is the number |
| Decimal.IntToStringShape | wcl_to_mdt.py:249 | `str` of an integer is one line, starts with '-' exactly for negative numbers, and is digits otherwise |
| Decimal.ParseInt | wcl_to_mdt.py:93 | `int` accepts exactly an optional sign followed by one or more digits, and gives their decimal value, negated after a '-' |
| Decimal.ParseIntLeadingZero | wcl_to_mdt.py:93 | leading zeros and a '+' do not change the value, and "-0" is 0 |
| Decimal.ParseIntRoundTrip | wcl_to_mdt.py:93 | `int(str(n)) == n` |
| Decimal.ReadIntRoundTrip | wcl_to_mdt.py:249-251 | a number written by `str` and followed by a non-digit is read back with the rest of the text untouched |
| Encoder.StripNewlines | wcl_to_mdt.py:261 | the result has no line break and is no longer than the input |
| Encoder.StripNewlinesConcat | wcl_to_mdt.py:261 | removing line breaks distributes over concatenation |
| Encoder.StripNewlinesOfLine | wcl_to_mdt.py:261 | text with no line break is left as it is |
| Encoder.DungeonValue | wcl_to_mdt.py:255 | the dungeon field is non-zero exactly when a non-zero dungeon id is given, and then it is that id |
| Encoder.StripTemplate | wcl_to_mdt.py:253-261 | removing the line breaks of the template gives the framing followed by the table on one line |
| Encoder.StripToMdtString | wcl_to_mdt.py:246-261 | the filled-in template without line breaks is the one-line import string, which begins with the framing |
| Encoder.RenderNpcs | wcl_to_mdt.py:247-249 | the inner loop produces one `{["id"]=N}` entry per NPC, in order |
| Encoder.GenerateMdtLuaString | wcl_to_mdt.py:241-261 | the result is the one-line import string, has no line break and begins with the fixed framing |
| Decoder.NpcItemsRoundTrip | wcl_to_mdt.py:249-251 | the comma-joined NPC entries read back as the NPC ids, in order |
| Decoder.PullEntryRoundTrip | wcl_to_mdt.py:251 | a pull entry reads back as its number and its NPC list |
| Decoder.PullItemsRoundTrip | wcl_to_mdt.py:246-254 | the joined pull entries, numbered from 1, read back as the pulls, in order |
| Decoder.DecodeMdtStringRoundTrip | wcl_to_mdt.py:241-261 | decoding the import string gives back exactly the pulls, in order with entry i for pull i, and `dungeon_id or 0` |
| Decoder.MdtStringInjective | wcl_to_mdt.py:241-261 | different pull lists or different dungeon numbers give different import strings |
| ReportUrl.FirstOccurrence | wcl_to_mdt.py:275 | the search finds the first position at or after its start where the marker occurs, or reports that there is none |
| ReportUrl.SplitLast | wcl_to_mdt.py:275 | `split(sep)[-1]` is a suffix that holds no separator, and a separator ends right before it unless it is the whole text |
| ReportUrl.BeforeFirst | wcl_to_mdt.py:275 | `split(c)[0]` is the longest prefix without `c` |
| ReportUrl.ExtractReportId | wcl_to_mdt.py:275-277 | the code is accepted exactly when the candidate has 16 characters, and is then the candidate |
| ReportUrl.ReportIdCandidateShape | wcl_to_mdt.py:275 | the candidate is a start of the text after the marker that holds neither '?' nor '#' and stops only at the end of that text or at a '?' or '#' |
| ReportUrl.ExtractReportIdOfUrl | wcl_to_mdt.py:275-277 | a URL with one marker, followed by a 16-character code and nothing, a query string or a fragment, yields that code |
| ReportUrl.SplitLastDoesNotOverlap | wcl_to_mdt.py:275 | in "/reports/reports/" the split keeps "reports/" although a marker also starts at index 8 |
| FightSelection.LastKeystoneIndex | wcl_to_mdt.py:85-87 | finds the last fight with a keystone level, or reports that none has one |
| FightSelection.FirstIndexWithId | wcl_to_mdt.py:94 | finds the first fight with the id, or reports that none has it |
| FightSelection.SelectFight | wcl_to_mdt.py:79-101 | no fights is an error; "last" gives the last keystone fight or else the last fight; a number gives the first fight with that id or a not-found error; anything else is an invalid-id error |
| FightSelection.SelectById | wcl_to_mdt.py:92-94 | asking for the decimal id of a fight with no earlier namesake selects that fight |
| Export.ListOf | wcl_to_mdt.py:235 | `list` of a set lists every member exactly once |
| Export.ListsOf | wcl_to_mdt.py:227-235 | every template set becomes a duplicate-free list of its members |
| Export.ConvertToImportString | wcl_to_mdt.py:294-299 | no string when no pull was found; otherwise a one-line string that decodes to exactly the pulls found, in order, each template once, and the dungeon number |

## Left out

- Network I/O is not part of this model. That covers `get_access_token`, the
  GraphQL query of `get_fight_details` and the paginated `get_fight_events`.
  Their results are inputs here: the fights, the roster and the events.
- The command line, file writing and console output of `main`, and every
  diagnostic `print` (including the float formatting of the gap in seconds), are
  not modelled. They do not affect any result.
- The JSON payloads are taken as already-structured records. An event carries
  its type (damage, cast or another), timestamp and optional source and target
  ids. An actor carries its id, name and optional `gameID`.
- Encoder.Header: the long framing literal at the head of the import string is a
  constant of the MDT format. It is an uninterpreted constant whose only known
  property is that it holds no line break. Its characters are not transcribed.
- Decimal.ParseInt: Python's `int` also accepts surrounding whitespace,
  underscores between digits and non-ASCII digits. The model accepts only an
  optional sign and ASCII digits.
- Resolver.Resolve: pulls are modelled as sets, since `list(set)` has no fixed
  order. `Export.ListOf` picks the order by an unspecified choice. The segmenter's
  `list(current_pull_instance_ids)` is kept as the set itself.
- The check at line 287 treats a fight id of 0 as missing. That part of `main`
  is outside this model.
- The `name` and `startTime` fields of a fight, and the actor name kept in the
  table, do not affect any result. Only the fight name is carried, as data.
