# Score-P scoring GUI: a verified model of the estimator and the filter engine

This project models the core of the Score-P scoring GUI in Dafny. The tool
reads a CUBE profile and estimates how large an OTF2 trace of the same run
would be. It does so per group type (ALL, FLT, USR, COM, MPI, OMP, SHMEM,
PTHREAD) and per region. The user then toggles regions and whole groups in
or out of a filter, and the tool writes a Score-P filter file. The model
covers:

- the type and filter-state tables and the event lists the estimator is built from;
- the event classes: when each occurs in a region, their sizes, and the
  name-ordered registry (`ScoreEvent`, `EventRegistry`, `EventList`);
- the request the estimator sends to `otf2-estimator` and how its answer is
  decoded, including a model of `strtoul` with base 0 (`EventOracle`);
- the group object, which accumulates visits and bytes per process
  (`ScoreGroup.Group`, a class over a slot array), and the thousands-separated
  number printer;
- the profile. Regions are typed by name prefix and then retyped along the
  call tree; the type table is an array updated in place (`ScoreProfile.Profile`);
- the estimator. It covers the constructor, `calculate` (the region and
  process loops, stated against the specification functions of `Accounting`),
  the in-place quicksort of group pointers (`GroupSort`), `getSizes`,
  `updateMemory`, the row accessors and the readable byte formatter
  (`ScoreEstimator`, `ReadableBytes`);
- the connector (`ScoreConnector.Connector`) over the row records of
  `dataCenter` (`DataCenter`):
  - `start`;
  - `changeState` with all of its loops;
  - `calculateFilter`, `calculateFilteredSizes`, `hasFiltered` and
    `createFilterFile`.

  Each method is proved against the pure toggle engine in `Filtering` and the
  filtered sizes in `FilterOutput`.

The main results are these:

- `calculate` leaves every type group holding the bytes and visits of its
  regions, and ALL holding the sum over all region types.
- Quicksort only rearranges its range, leaves it ordered by largest buffer,
  and leaves an already ordered range untouched.
- `changeState` keeps a consistency invariant between calls:
  - the excluded list holds exactly the excluded region rows, once each;
  - every filterable group state agrees with its regions;
  - the FLT row is up to date.
- The FLT row shows the figures of exactly the excluded rows.
- The filter file reads back as its header, one line per excluded row and the end marker.
- Every rendered number is parsed back as itself by the `strtoul` model.

Integers are unbounded. The 32-bit unsigned wrap-around of event sizes
(`setEventSize` takes a `uint32_t`) and of the decoded oracle values is
written out explicitly; the 64-bit sums are not (see "Left out"). Time and other floating-point fields are not
modelled.

Two of the consistency invariants are choices of this model. A group row whose
type has no region rows at all is only required not to be PARTIAL. Region rows
of a non-filterable type are required always to be included; the source
guarantees this because it refuses keys for such rows.

## Model

| member | source | states |
|---|---|---|
| ScoreTypes.GetTypeName | src/score/SCOREP_Score_Types.cpp:49-53 | the name of type t is non-empty and names no other type |
| ScoreTypes.GetFilterState | src/score/SCOREP_Score_Types.cpp:55-66 | FLT is YES, MPI/OMP/SHMEM/PTHREAD are NO, ALL/USR/COM are POSSIBLE; never UNSPECIFIED |
| ScoreTypes.GetFilterSymbol | src/score/SCOREP_Score_Types.cpp:68-79 | only an unspecified state prints as a blank |
| ScoreTypes.FilterSymbolInjective | src/score/SCOREP_Score_Types.hpp:74-79 | two states with the same symbol are the same state |
| ScoreTypes.TypeTable | src/score/SCOREP_Score_Types.hpp:43-67 | there are eight types, ALL..PTHREAD in enum order, and the states print as ' ', '+', '-', '*' |
| EventList.IsendListsCoincide | src/score/SCOREP_Score_EventList.hpp:48-79 | the immediate-send and isend-complete lists are equal, and so are the irecv-request and irecv lists |
| EventList.SendrecvIsSendAndRecv | src/score/SCOREP_Score_EventList.hpp:40-75 | MPI_Sendrecv and MPI_Sendrecv_replace are in both the send and the receive list |
| EventList.BarrierAllInTwoLists | src/score/SCOREP_Score_EventList.hpp:188-226 | shmem_barrier_all is both an op-complete-remote and an RMA-collective region |
| EventList.LockListsOverlap | src/score/SCOREP_Score_EventList.hpp:328-340 | unlock and condition waits are in both the acquire and the release list, each of five names |
| EventList.ListShapes | src/score/SCOREP_Score_EventList.hpp:108-352 | the window lists are empty; fork/join/team use "!$omp parallel", task create "!$omp task " and task switch "!$omp task"; the thread-create lists hold one name each |
| ScoreEvent.NewEvent | src/score/SCOREP_Score_Event.cpp:62-66 | a new event has its name and size 0 |
| ScoreEvent.MetricEvent | src/score/SCOREP_Score_Event.cpp:133-140 | the metric event is named "Metric " and the number of dense metrics, with size 0 |
| ScoreEvent.EnterEvent | src/score/SCOREP_Score_Event.cpp:99-111 | the enter event is named "Enter", has size 0 and occurs exactly in regions without a parameter ('=') |
| ScoreEvent.LeaveEvent | src/score/SCOREP_Score_Event.cpp:116-128 | the leave event is named "Leave", has size 0 and occurs exactly in regions without a parameter |
| ScoreEvent.TimestampEvent | src/score/SCOREP_Score_Event.cpp:161-174 | the timestamp event is named "Timestamp", has size 0, is doubled on sizing and occurs exactly in regions without a parameter |
| ScoreEvent.ParameterEvent | src/score/SCOREP_Score_Event.cpp:185-202 | the parameter event is named "ParameterInt", has size 0 and occurs exactly in parameter regions that do not start with "instance=" |
| ScoreEvent.NameMatchEvent | src/score/SCOREP_Score_Event.cpp:207-218 | a name-match event keeps its name, has size 0 and occurs exactly in the listed regions |
| ScoreEvent.PrefixMatchEvent | src/score/SCOREP_Score_Event.cpp:223-244 | a prefix-match event keeps its name, has size 0 and occurs exactly in regions starting with one of its prefixes |
| ScoreEvent.OccursInRegion | src/score/SCOREP_Score_Event.cpp:91-244 | the base class occurs nowhere, and in a region with a parameter only parameter and list-matching events occur |
| ScoreEvent.PrefixOccurrence | src/score/SCOREP_Score_Event.cpp:233-244 | a prefix-match event occurs exactly when some prefix equals the region name cut by substr to the prefix's length |
| ScoreEvent.SetSize | src/score/SCOREP_Score_Event.cpp:85-180 | ordinary events store the size, metric and timestamp events twice the size, modulo 2^32 |
| ScoreEvent.EnterLikeOccurrence | src/score/SCOREP_Score_Event.cpp:104-174 | enter, leave, metric and timestamp events occur exactly in regions whose name holds no '=' |
| ScoreEvent.ParameterExcludesEnter | src/score/SCOREP_Score_Event.cpp:191-202 | a parameter region never has an enter event; an "instance=" region has neither |
| ScoreEvent.NameMatchOccurrence | src/score/SCOREP_Score_Event.cpp:215-218 | a name-match event occurs exactly in the listed regions |
| ScoreEvent.PlainNeverOccurs | src/score/SCOREP_Score_Event.cpp:91-94 | the base event class occurs nowhere |
| ScoreEvent.LessIrreflexive | src/score/SCOREP_Score_Event.cpp:27-30 | the key order of the registry map is irreflexive |
| ScoreEvent.LessTransitive | src/score/SCOREP_Score_Event.cpp:27-30 | the key order is transitive |
| ScoreEvent.LessTotal | src/score/SCOREP_Score_Event.cpp:27-30 | the key order is total |
| ScoreEvent.Find | src/score/SCOREP_Score_Event.cpp:33-42 | a found event is in the catalog under that name; none is found exactly when no event has the name |
| ScoreEvent.Register | src/score/SCOREP_Score_Event.cpp:27-30 | registering keeps the catalog ordered, adds only the new event, and ignores it when its name is taken |
| ScoreEvent.RegisterFind | src/score/SCOREP_Score_Event.cpp:27-30 | after registering, a name finds the new event exactly when it was unregistered before |
| ScoreEvent.RegisterAllOrdered | src/score/SCOREP_Score_Estimator.cpp:294-437 | registering a list of events keeps the catalog in name order |
| ScoreEvent.FirstNamed | src/score/SCOREP_Score_Estimator.cpp:294-437 | the first event of a list with a given name is in the list and has that name |
| ScoreEvent.RegisterAllFirstWins | src/score/SCOREP_Score_Estimator.cpp:294-437 | after registering a list, each name maps to its earliest registration |
| ScoreEvent.FirstNamedAppend | src/score/SCOREP_Score_Estimator.cpp:294-437 | the first event of a name in a concatenation comes from the first part when it has one |
| ScoreEvent.GetEventSize | src/score/SCOREP_Score_Event.cpp:33-42 | 0 when no event has the name; in a name-ordered catalog, the size of the event registered under it |
| ScoreEvent.SetEventSize | src/score/SCOREP_Score_Event.cpp:45-55 | only the named event changes, by setEventSize; an unknown name changes nothing |
| ScoreEvent.SetEventSizeKeepsOrder | src/score/SCOREP_Score_Event.cpp:45-55 | setting a size keeps the catalog in name order |
| EventRegistry.RmaOpCompleteBlockingFirstWins | src/score/SCOREP_Score_Estimator.cpp:349-365 | of the two RmaOpCompleteBlocking registrations, the first (put/get regions) stays |
| EventRegistry.FirstNamedAbsent | src/score/SCOREP_Score_Event.cpp:27-30 | a list without the name has no first event of that name |
| EventRegistry.FirstNamedAt | src/score/SCOREP_Score_Event.cpp:27-30 | the first event of a name is the earliest position holding it |
| EventRegistry.EstimatorEvents | src/score/SCOREP_Score_Estimator.cpp:294-437 | the constructor registers timestamp, enter and leave first, a metric event exactly when there are dense metrics (fourth), and only events of size 0 |
| EventOracle.GetLines | src/score/SCOREP_Score_Estimator.cpp:690-693 | one "get <name>" line per registered event, in map order |
| EventOracle.Request | src/score/SCOREP_Score_Estimator.cpp:687-694 | the request ends with the "exit" line and its line feed, which stops the estimator |
| EventOracle.RequestReadsBack | src/score/SCOREP_Score_Estimator.cpp:687-694 | read line by line, the request sets Region and Metric, gets every event in order and ends with "exit" |
| EventOracle.DigitRun | src/score/SCOREP_Score_Estimator.cpp:728 | the longest prefix made of digits of the base |
| EventOracle.SkipSpace | src/score/SCOREP_Score_Estimator.cpp:728 | strtoul skips exactly the leading white space |
| EventOracle.ScanPrefix | src/score/SCOREP_Score_Estimator.cpp:728 | the base is 16 exactly after "0x", otherwise 8 or 10 |
| EventOracle.StrToUL | src/score/SCOREP_Score_Estimator.cpp:728 | the end position lies within the text and the value fits in 64 bits |
| EventOracle.Convert | src/score/SCOREP_Score_Estimator.cpp:728 | an in-range unsigned value is kept; overflow and negation stay within 64 bits |
| EventOracle.CString | src/score/SCOREP_Score_Estimator.cpp:726-728 | c_str shows the longest NUL-free prefix |
| EventOracle.ParseNumber | src/score/SCOREP_Score_Estimator.cpp:728-732 | an accepted number fits in 64 bits |
| EventOracle.ParseRenderedNumber | src/score/SCOREP_Score_Estimator.cpp:726-732 | every decimal rendering of a 64-bit number parses back to it |
| EventOracle.ParseZero | src/score/SCOREP_Score_Estimator.cpp:728 | "0" parses to 0 |
| EventOracle.ParseHexadecimal | src/score/SCOREP_Score_Estimator.cpp:728 | "0x1F" parses to 31 |
| EventOracle.ParseOctal | src/score/SCOREP_Score_Estimator.cpp:728 | "010" parses to 8 |
| EventOracle.ParseBadOctal | src/score/SCOREP_Score_Estimator.cpp:728-732 | "08" is refused |
| EventOracle.ParseLeadingSpace | src/score/SCOREP_Score_Estimator.cpp:728 | " 7" parses to 7 |
| EventOracle.ParseMinus | src/score/SCOREP_Score_Estimator.cpp:728 | "-1" parses to 2^64-1 |
| EventOracle.ParseTrailing | src/score/SCOREP_Score_Estimator.cpp:728-732 | "12ab" is refused |
| EventOracle.ParseNoDigits | src/score/SCOREP_Score_Estimator.cpp:728-732 | "0x" and "+" are refused; an empty number reads as 0 |
| EventOracle.ParseStopsAtNul | src/score/SCOREP_Score_Estimator.cpp:726-732 | the number ends at the first NUL |
| EventOracle.DecodeLine | src/score/SCOREP_Score_Estimator.cpp:718-732 | an accepted line is its name, a blank and a blank-free number that parses; a refused line has no blank or an unparsable tail |
| EventOracle.DecodeWrittenLine | src/score/SCOREP_Score_Estimator.cpp:718-732 | a line "<name> <number>" decodes to that name and number |
| EventOracle.ApplyResponse | src/score/SCOREP_Score_Estimator.cpp:714-736 | applying the answer keeps every event's name and kind |
| EventOracle.ApplyResponseKeepsOrder | src/score/SCOREP_Score_Estimator.cpp:714-736 | applying the answer keeps the catalog in name order |
| EventOracle.ApplyResponseSizes | src/score/SCOREP_Score_Estimator.cpp:714-736 | an event no line names keeps its size; otherwise it gets the last such line's value modulo 2^32 |
| EventOracle.FindShape | src/score/SCOREP_Score_Estimator.cpp:714-736 | catalogs with the same names and kinds find the same names with the same kinds |
| ScoreGroup.Group.constructor | src/score/SCOREP_Score_Group.cpp:85-97 | a new group is empty: zero slots, total and visits, unspecified filter state |
| ScoreGroup.Group.WithMangledName | src/score/SCOREP_Score_Group.cpp:99-113 | the same, and the region's mangled name is recorded |
| ScoreGroup.Group.AddRegion | src/score/SCOREP_Score_Group.cpp:122-131 | visits grow by the visits; the total and only the given process slot grow by visits times bytes |
| ScoreGroup.Group.GetMaxTraceBufferSize | src/score/SCOREP_Score_Group.cpp:229-237 | the largest slot, 0 without processes, and at most the total |
| ScoreGroup.Group.GetTotalTraceBufferSize | src/score/SCOREP_Score_Group.cpp:240-243 | the sum of the per-process slots |
| ScoreGroup.Group.GetGroupData | src/score/SCOREP_Score_Group.cpp:201-219 | maxBuf is -1 exactly for an empty group; otherwise type name, largest slot and visits |
| ScoreGroup.Group.GetRegionData | src/score/SCOREP_Score_Group.cpp:182-199 | as getGroupData, with the mangled name |
| ScoreGroup.Group.UnemptyHasPositiveMax | src/score/SCOREP_Score_Group.cpp:229-243 | a group with a nonzero total has a nonzero largest slot |
| ScoreGroup.Group.DoFilter | src/score/SCOREP_Score_Group.cpp:246-249 | only the filter state changes |
| ScoreGroup.CommaStringDigits | src/score/SCOREP_Score_Group.cpp:48-83 | dropping the commas gives the plain decimal rendering |
| ScoreGroup.CommaStringExamples | src/score/SCOREP_Score_Group.cpp:48-83 | 0 prints "0", 1005 prints "1,005", 1234567 prints "1,234,567" |
| ScoreGroup.NatToStringBlocks | src/score/SCOREP_Score_Group.cpp:68-80 | an inner block is three zero-padded digits |
| ScoreGroup.BlockCountBound | src/score/SCOREP_Score_Group.cpp:50-62 | a 64-bit number has at most seven base-1000 blocks |
| ScoreGroup.NumberWithComma | src/score/SCOREP_Score_Group.cpp:48-83 | the block loops print the comma-separated rendering |
| ScoreProfile.DefinitionType | src/score/SCOREP_Score_Profile.cpp:276-299 | MPI, SHMEM, OMP or PTHREAD exactly for the prefixes "MPI_", "shmem_", "!$omp ", "pthread_"; USR otherwise |
| ScoreProfile.Visit | src/score/SCOREP_Score_Profile.cpp:301-326 | visiting a call-tree node only ever turns USR entries of the type table into COM |
| ScoreProfile.PrefixesDisjoint | src/score/SCOREP_Score_Profile.cpp:276-299 | the four prefixes start with different characters, so the order of the tests does not matter |
| ScoreProfile.VisitCharacterized | src/score/SCOREP_Score_Profile.cpp:302-326 | a visit returns whether the subtree reaches an MPI/OMP/SHMEM region; only USR regions called above such a path change, to COM |
| ScoreProfile.VisitChildrenCharacterized | src/score/SCOREP_Score_Profile.cpp:306-311 | every child is visited, even after one returned true; the result is the or of their reach |
| ScoreProfile.VisitForestCharacterized | src/score/SCOREP_Score_Profile.cpp:47-85 | after visiting all roots, a region is COM exactly when it was USR and called above a paradigm path |
| ScoreProfile.VisitForestOnlyUsrToCom | src/score/SCOREP_Score_Profile.cpp:312-317 | retyping only turns USR into COM |
| ScoreProfile.ReachesDependsOnParadigms | src/score/SCOREP_Score_Profile.cpp:302-326 | reach depends only on which regions are paradigm regions, so retyping USR to COM never changes it |
| ScoreProfile.VisitForestAppend | src/score/SCOREP_Score_Profile.cpp:47-85 | visiting a + b is visiting a, then b |
| ScoreProfile.Profile.constructor | src/score/SCOREP_Score_Profile.cpp:47-85 | types every region by name, then retypes along every root's call tree |
| ScoreProfile.Profile.CalculateCalltreeTypes | src/score/SCOREP_Score_Profile.cpp:302-326 | the in-place recursion leaves the type table and result of the pure visit |
| ScoreProfile.Profile.GetGroup | src/score/SCOREP_Score_Profile.cpp:262-266 | a region's type is never ALL or FLT |
| ScoreProfile.Profile.GetMaxVisits | src/score/SCOREP_Score_Profile.cpp:179-191 | the largest visit count over the processes, 0 without any |
| ScoreProfile.Profile.GetMaxNumberOfLocationsPerProcess | src/score/SCOREP_Score_Profile.cpp:231-242 | the largest location count of a process, 0 without any |
| GroupSort.Swap | src/score/SCOREP_Score_Estimator.cpp:62-68 | exchanges two positions and nothing else |
| GroupSort.SkipAbove | src/score/SCOREP_Score_Estimator.cpp:99-103 | skips exactly items ranked above the threshold |
| GroupSort.SkipAtMost | src/score/SCOREP_Score_Estimator.cpp:105-109 | steps back over exactly items ranked at most the threshold |
| GroupSort.SkipEqual | src/score/SCOREP_Score_Estimator.cpp:133-137 | steps over the run of items ranked equal to the threshold, at least one |
| GroupSort.PartitionRound | src/score/SCOREP_Score_Estimator.cpp:97-125 | one round keeps the partition invariant and strictly decreases the remaining work |
| GroupSort.Partition | src/score/SCOREP_Score_Estimator.cpp:92-137 | a rearrangement into items above, equal to and at most the threshold; an ordered range stays as it is |
| GroupSort.Settle | src/score/SCOREP_Score_Estimator.cpp:127-137 | the threshold item joins its run of equal items, which is non-empty, so both recursions shrink |
| GroupSort.Quicksort | src/score/SCOREP_Score_Estimator.cpp:75-141 | the range is rearranged only within itself, ends ordered by non-increasing largest buffer, and is unchanged when already ordered |
| GroupSort.SortParts | src/score/SCOREP_Score_Estimator.cpp:139-140 | the two recursive calls sort the outer parts and keep ordered parts unchanged |
| GroupSort.PermutedKeepsMembers | src/score/SCOREP_Score_Estimator.cpp:62-141 | a rearrangement keeps the multiset of group pointers |
| GroupSort.RankedByPermuted | src/score/SCOREP_Score_Estimator.cpp:62-141 | rearranging keeps every key read through getMaxTraceBufferSize |
| Accounting.BytesPerVisitBounds | src/score/SCOREP_Score_Estimator.cpp:503-513 | every occurring event's size is part of the cost, which is 0 exactly when they are all 0 |
| Accounting.BytesPerVisit | src/score/SCOREP_Score_Estimator.cpp:503-513 | a region in which no registered event occurs costs nothing per visit |
| ScoreEstimator.BytesPerVisitOf | src/score/SCOREP_Score_Estimator.cpp:503-513 | the loop over the registered events sums exactly BytesPerVisit |
| Accounting.CostsOf | src/score/SCOREP_Score_Estimator.cpp:499-513 | one bytes-per-visit figure per region |
| Accounting.AddAt | src/score/SCOREP_Score_Group.cpp:122-131 | addRegion adds to one slot of one group's row and nowhere else |
| Accounting.Spread | src/score/SCOREP_Score_Estimator.cpp:537-539 | the figure goes to the region's type group and to ALL |
| Accounting.AddTo | src/score/SCOREP_Score_Group.cpp:122-131 | a visit count grows at one group only |
| Accounting.DepositTypeSlots | src/score/SCOREP_Score_Estimator.cpp:516-539 | after the process loop, each process slot of the region's type and of ALL has gained visits times cost |
| Accounting.DepositTypeVisits | src/score/SCOREP_Score_Estimator.cpp:516-539 | after the process loop, the type group and ALL count all visits |
| Accounting.DepositRegionSlots | src/score/SCOREP_Score_Estimator.cpp:541-544 | with regions shown, the region's own group gains visits times cost per process |
| Accounting.DepositRegionVisits | src/score/SCOREP_Score_Estimator.cpp:541-544 | with regions shown, the region's own group counts all its visits |
| Accounting.AccountTypes | src/score/SCOREP_Score_Estimator.cpp:499-576 | after the region loop each type group has gained its regions' bytes per process and their visits |
| Accounting.AccountRegions | src/score/SCOREP_Score_Estimator.cpp:499-576 | after the region loop, with regions shown, each region group has gained its own bytes and visits; without, nothing |
| Accounting.AccountedTypes | src/score/SCOREP_Score_Estimator.cpp:499-576 | every type group gains its bytes and visits |
| Accounting.AccountedRegions | src/score/SCOREP_Score_Estimator.cpp:499-576 | from empty region groups, each holds exactly its region's bytes and visits |
| Accounting.ZeroRegionsPrepared | src/score/SCOREP_Score_Estimator.cpp:492-495 | freshly initialised region groups are empty |
| Accounting.CalculateAccounts | src/score/SCOREP_Score_Estimator.cpp:490-577 | one calculate adds each type group's bytes and visits, and with regions shown leaves each region group with exactly its own |
| Accounting.AllIsSumOfTypes | src/score/SCOREP_Score_Estimator.cpp:537-539 | per process, ALL holds the sum over the region types, and FLT holds nothing |
| Accounting.AllVisitsIsSumOfTypes | src/score/SCOREP_Score_Estimator.cpp:537-539 | the same for visits |
| Accounting.AllDominates | src/score/SCOREP_Score_Estimator.cpp:537-539 | no group holds more for a process than ALL |
| Accounting.Entries | src/score/SCOREP_Score_Estimator.cpp:514-528 | entries are for processes below the bound, and there are none exactly when nobody visits |
| Accounting.EntriesLookup | src/score/SCOREP_Score_Estimator.cpp:518-528 | a process has an entry exactly when it visits, holding its visits and the cost |
| Accounting.EntriesDistinct | src/score/SCOREP_Score_Estimator.cpp:528 | the per-process hash has no duplicate keys |
| Accounting.EntriesByInsert | src/score/SCOREP_Score_Estimator.cpp:528 | each entry is a QHash insert |
| Accounting.EntriesEmpty | src/score/SCOREP_Score_Estimator.cpp:571-574 | a region has no entries exactly when it is not active |
| Accounting.LastActive | src/score/SCOREP_Score_Estimator.cpp:571-574 | the last active region with a name, or none exactly when none is active |
| Accounting.BufferAfterLookup | src/score/SCOREP_Score_Estimator.cpp:571-574 | after calculate, a name maps to the entries of its last active region, else to what it held before |
| Accounting.BufferAfterDistinct | src/score/SCOREP_Score_Estimator.cpp:573 | the buffer stays duplicate-free |
| DataCenter.Lookup | src/score/SCOREP_Score_Estimator.cpp:573 | QHash::value finds nothing exactly when no entry has the key |
| DataCenter.Insert | src/score/SCOREP_Score_Estimator.cpp:573 | QHash::insert leaves the other entries and adds only the key |
| DataCenter.InsertLookup | src/score/SCOREP_Score_Estimator.cpp:573 | after insert the key maps to the new value, others as before |
| DataCenter.InsertAbsent | src/score/SCOREP_Score_Estimator.cpp:528 | inserting a new key appends it |
| DataCenter.InsertKeepsDistinct | src/score/SCOREP_Score_Estimator.cpp:573 | insert keeps the keys duplicate-free |
| ScoreEstimator.TotalMemory | src/score/SCOREP_Score_Estimator.cpp:846-858 | memory is at least maxBuf plus the file size per process and metric plus 2 MiB per location, and is either that or the 2 MiB minimum plus 2 MiB per location |
| ScoreEstimator.TotalMemoryMonotone | src/score/SCOREP_Score_Estimator.cpp:846-858 | the requirement never decreases with maxBuf and is at least 2 MiB per location plus 2 MiB |
| ScoreEstimator.SortGroups | src/score/SCOREP_Score_Estimator.cpp:75-141 | quicksort of the group array is a permutation, ordered by largest buffer, identity on an ordered array |
| ScoreEstimator.DescendingIsSorted | src/score/SCOREP_Score_Estimator.cpp:75-141 | ordering by the snapshot ranks is ordering by largest buffer |
| ScoreEstimator.AddToGroup | src/score/SCOREP_Score_Estimator.cpp:537-543 | addRegion on one group of an array is AddAt and AddTo on its tables; the other array is unchanged |
| ScoreEstimator.AddVisits | src/score/SCOREP_Score_Estimator.cpp:526-544 | one visiting process credits its type group, ALL and, with regions shown, its region group |
| ScoreEstimator.DepositProcess | src/score/SCOREP_Score_Estimator.cpp:516-544 | one pass of the process loop: zero visits are skipped, others credited and recorded |
| ScoreEstimator.DepositRegion | src/score/SCOREP_Score_Estimator.cpp:514-570 | the process loop of one region is Deposit, and its entries are those of the visiting processes |
| ScoreEstimator.TallyRegions | src/score/SCOREP_Score_Estimator.cpp:499-576 | the region loop is Account on the tallies, and leaves the buffer as BufferAfter |
| ScoreEstimator.TallyStep | src/score/SCOREP_Score_Estimator.cpp:499-576 | one region of the loop extends Account and BufferAfter by that region |
| ScoreEstimator.TallyRegion | src/score/SCOREP_Score_Estimator.cpp:501-575 | one region: the costs from the catalog, the deposit, and an insert only when some process visits |
| ScoreEstimator.Estimator.constructor | src/score/SCOREP_Score_Estimator.cpp:275-450 | the catalog is the registered events sized by the oracle; one fresh empty group per type, in type order |
| ScoreEstimator.Estimator.BuildCatalog | src/score/SCOREP_Score_Estimator.cpp:294-440 | registering then sizing the events, in name order |
| ScoreEstimator.Estimator.NewTypeGroups | src/score/SCOREP_Score_Estimator.cpp:444-449 | group t is new, of type t, named after it, and empty |
| ScoreEstimator.Estimator.CalculateEventSizes | src/score/SCOREP_Score_Estimator.cpp:673-744 | the catalog answered by the oracle, unchanged when it cannot run |
| ScoreEstimator.Estimator.InitializeRegions | src/score/SCOREP_Score_Estimator.cpp:762-777 | one new empty group per region, typed by the profile and named by its name and mangled name |
| ScoreEstimator.Estimator.NewRegionGroups | src/score/SCOREP_Score_Estimator.cpp:764-776 | the region group array is fresh and empty |
| ScoreEstimator.Estimator.Calculate | src/score/SCOREP_Score_Estimator.cpp:490-577 | with regions shown, fresh region groups; the tallies become Account of the prepared tallies and the buffer BufferAfter |
| ScoreEstimator.Estimator.Tally | src/score/SCOREP_Score_Estimator.cpp:497-576 | the loops of calculate are Account and BufferAfter over the profile |
| ScoreEstimator.Estimator.UpdateMemory | src/score/SCOREP_Score_Estimator.cpp:847-858 | the memory formula for the given maxBuf |
| ScoreEstimator.Estimator.GetSizes | src/score/SCOREP_Score_Estimator.cpp:791-804 | trace size is ALL's sum, maxBuf its largest slot (at most the trace size), and memory the formula at that maxBuf |
| ScoreEstimator.Estimator.SortTypeGroups | src/score/SCOREP_Score_Estimator.cpp:809 | the type groups are permuted into order, unchanged when ordered |
| ScoreEstimator.Estimator.SortRegionGroups | src/score/SCOREP_Score_Estimator.cpp:823 | the region groups are permuted into order, unchanged when ordered |
| ScoreEstimator.Estimator.GetGroupInformation | src/score/SCOREP_Score_Estimator.cpp:806-818 | sorts, then reports group `number` keyed by its position and INCLUDED |
| ScoreEstimator.Estimator.GetRegionInformation | src/score/SCOREP_Score_Estimator.cpp:820-832 | sorts, then reports region group `number` keyed by its position and included |
| ScoreEstimator.ValidProfileTypes | src/score/SCOREP_Score_Profile.cpp:262-266 | no region of the profile is typed ALL or FLT |
| ReadableBytes.MantissaCharacterized | src/score/SCOREP_Score_Estimator.cpp:229-234 | the count shown is bytes / 1024^e, at most 4096, with e the least such exponent |
| ReadableBytes.ExponentOf64Bits | src/score/SCOREP_Score_Estimator.cpp:229-266 | for 64-bit input the exponent is at most 6, so the unit table always applies |
| ReadableBytes.ReadableExamples | src/score/SCOREP_Score_Estimator.cpp:224-268 | 500 is "501 bytes", 4096 is "4097 bytes" ("4097bytes" in the connector), 4097 is "5kB", 1048576 is "1025kB" |
| ReadableBytes.GetUserReadableByteNo | src/score/SCOREP_Score_Estimator.cpp:224-268 | the divide loop, the round-up and the estimator's unit table |
| ReadableBytes.Render | src/score/SCOREP_Score_Estimator.cpp:224-268 | the shared divide loop with a given unit table |
| Filtering.IndexOf | src/connector.cpp:296-300 | QList::indexOf: the first position holding x, -1 exactly when absent |
| Filtering.RemoveAtIndexOf | src/connector.cpp:296-300 | removeAt(indexOf(x)) drops the first occurrence of x |
| Filtering.RemoveFirstCount | src/connector.cpp:296-300 | removing takes one x away, or nothing when absent |
| Filtering.RemoveFirstAppended | src/connector.cpp:287-300 | excluding and then including again restores the list |
| Filtering.Selected | src/connector.cpp:232-242 | the in-scope rows with the given flag, in ascending order |
| Filtering.RestoredCount | src/connector.cpp:186-196 | the include pass removes one occurrence of each excluded in-scope row and nothing else |
| Filtering.SwitchState | src/connector.cpp:494-507 | a switch always changes the state, never yields PARTIAL and changes nothing else in the row |
| Filtering.SwitchStateTwice | src/connector.cpp:494-507 | switching twice restores a row exactly when it was not PARTIAL |
| Filtering.ApplyGroupKey | src/connector.cpp:168-274 | a key of a non-filterable group row is refused and changes nothing |
| Filtering.ApplyRegionKey | src/connector.cpp:275-346 | a key of a non-filterable region row is refused and changes nothing |
| Filtering.FltRowState | src/connector.cpp:367-398 | FLT is EXCLUDED exactly when nothing is excluded, and INCLUDED exactly when something is and every filterable group is EXCLUDED |
| Filtering.FltRowFigures | src/connector.cpp:399-407 | the FLT row's largest buffer and visits are those of exactly the excluded rows, in whatever order they were excluded |
| Filtering.CalculateFilter | src/connector.cpp:353-410 | the row count, the region rows and the excluded list stay |
| Filtering.ExcludeRowsExact | src/connector.cpp:212-242 | the exclude pass keeps the excluded list exact |
| Filtering.IncludeRowsExact | src/connector.cpp:186-196 | the include pass keeps the excluded list exact |
| Filtering.ApplyGroupKeyCoherent | src/connector.cpp:168-274 | a group-table key keeps the lists coherent |
| Filtering.ApplyRegionKeyCoherent | src/connector.cpp:275-346 | a region-table key keeps the lists coherent |
| Filtering.ApplyKeysCoherent | src/connector.cpp:165-347 | a batch of keys keeps the lists coherent |
| Filtering.ChangeStateConsistent | src/connector.cpp:158-351 | after changeState the lists are consistent, the FLT row included |
| Filtering.ApplyKeyKeepsTypes | src/connector.cpp:165-347 | no key changes a row's type |
| Filtering.ApplyKeysAccepted | src/connector.cpp:158-351 | changeState returns true exactly when every key names a filterable row; refused keys do not undo the others |
| Filtering.FltIncludesAll | src/connector.cpp:183-208 | toggling an INCLUDED FLT row includes every region, empties the list and sets filterable groups INCLUDED |
| Filtering.FltExcludesAll | src/connector.cpp:229-253 | toggling an EXCLUDED or PARTIAL FLT row excludes exactly the filterable regions and sets filterable groups EXCLUDED |
| Filtering.HasFilteredIff | src/connector.cpp:99-110 | something is excluded exactly when some region row is not included |
| Filtering.RegionToggleTwice | src/connector.cpp:275-346 | toggling a region twice restores every row; an included region is also back in place in the list |
| Filtering.ExactInRange | src/connector.cpp:399-401 | the excluded positions index region rows |
| FilterOutput.ProcTableAt | src/connector.cpp:452-465 | procList position p holds what process p writes for the kept regions |
| FilterOutput.ProcTableSum | src/connector.cpp:452-465 | procList adds up to the filtered trace size |
| FilterOutput.CreditEntriesAt | src/connector.cpp:455-464 | the inner loop credits each entry to its own process |
| FilterOutput.CreditEntriesSum | src/connector.cpp:455-464 | the inner loop adds each entry's bytes to the total |
| FilterOutput.FilteredMaxBufCharacterized | src/connector.cpp:467-472 | the filtered maxBuf is what the busiest process writes for the kept regions, and at most the filtered trace size |
| FilterOutput.KeptTraceShrinks | src/connector.cpp:441-466 | excluding more names never makes the trace larger |
| FilterOutput.FilteredMaxBufShrinks | src/connector.cpp:441-472 | excluding more names never makes the largest buffer larger |
| FilterOutput.NothingExcludedKeepsAll | src/connector.cpp:441-466 | with nothing excluded the filtered trace is the whole buffer |
| FilterOutput.FilterFileReadsBack | src/connector.cpp:416-429 | read back, the file is the header, one tab and mangled name per excluded row in list order, and the end marker |
| ScoreConnector.TypeRowsShape | src/connector.cpp:40-46 | the group rows are INCLUDED, never FLT, and of pairwise different types |
| ScoreConnector.RegionRowsShape | src/connector.cpp:59-66 | the region rows are included and never of type FLT |
| ScoreConnector.StartConsistent | src/connector.cpp:47-56 | rows read by start plus the initial FLT row are consistent with nothing excluded |
| ScoreConnector.StartRowsConsistent | src/connector.cpp:39-66 | the rows start reads off sorted groups are consistent |
| ScoreConnector.CreditRegion | src/connector.cpp:454-464 | the inner loop adds the region's bytes to the trace size and credits procList per process |
| ScoreConnector.LargestEntry | src/connector.cpp:467-471 | the qMax loop finds the largest procList entry |
| ScoreConnector.ReadTypeRows | src/connector.cpp:40-46 | the type loop reads and keeps exactly the rows of non-empty groups, then the FLT row |
| ScoreConnector.ReadTypeRow | src/connector.cpp:42 | one read sorts the groups and returns the row of position i |
| ScoreConnector.RereadTypeRow | src/connector.cpp:44 | the second read of a sorted array moves nothing and returns the same row |
| ScoreConnector.ReadRegionRows | src/connector.cpp:59-66 | the region loop keeps exactly the rows of non-empty region groups |
| ScoreConnector.ReadOffTypeRows | src/connector.cpp:40-46 | the rows read one by one and kept when non-empty are the type rows |
| ScoreConnector.ReadOffRegionRows | src/connector.cpp:59-66 | the same for region rows |
| ScoreConnector.ReadEstimator | src/connector.cpp:34-66 | what start reads off a fresh estimator, with the rows consistent |
| ScoreConnector.CalculatedEstimator | src/connector.cpp:34-37 | a fresh estimator, calculated with regions shown, and its sizes |
| ScoreConnector.ReadRows | src/connector.cpp:39-66 | the row loops leave consistent lists with nothing excluded |
| ScoreConnector.Connector.constructor | src/connector.cpp:15-22 | empty lists and zero sizes |
| ScoreConnector.Connector.Start | src/connector.cpp:28-67 | start keeps the estimator's buffer, sizes and rows; the excluded list and the filtered sizes are left as they were, and the lists are consistent when the excluded list was empty |
| ScoreConnector.Connector.HasFiltered | src/connector.cpp:99-110 | true exactly when the excluded list is non-empty; on coherent lists, exactly when some region row is excluded |
| ScoreConnector.Connector.GetReadableByteNo | src/connector.cpp:112-156 | the shared divide loop with the connector's unit table |
| ScoreConnector.Connector.ExcludeRegions | src/connector.cpp:212-242 | the exclude loop is ExcludeRows |
| ScoreConnector.Connector.IncludeRegions | src/connector.cpp:186-196 | the include loop is IncludeRows |
| ScoreConnector.Connector.SetFilterableStates | src/connector.cpp:198-208 | every filterable group row is put in the given state |
| ScoreConnector.Connector.SetTypeStates | src/connector.cpp:315-344 | every group row of the type is put in the given state |
| ScoreConnector.Connector.SameState | src/connector.cpp:301-311 | true exactly when every region row of the type has the flag |
| ScoreConnector.Connector.ApplyGroupKeyStep | src/connector.cpp:168-274 | one group-table key is ApplyGroupKey |
| ScoreConnector.Connector.ApplyRegionKeyStep | src/connector.cpp:275-346 | one region-table key is ApplyRegionKey |
| ScoreConnector.Connector.CalculateFilter | src/connector.cpp:353-410 | the lists become CalculateFilter of the old ones |
| ScoreConnector.Connector.KeptRegion | src/connector.cpp:444-451 | a buffer name is kept exactly when no excluded row shows it |
| ScoreConnector.Connector.CalculateFilteredSizes | src/connector.cpp:434-475 | the filtered trace size, maxBuf and memory are those of the regions no excluded row names |
| ScoreConnector.Connector.ChangeState | src/connector.cpp:158-351 | the lists become ChangeState of the old ones, consistent, with filtered sizes up to date; the whole-trace figures stay |
| ScoreConnector.Connector.CreateFilterFile | src/connector.cpp:412-432 | true exactly when something is excluded and the file opens; the text is then the filter file, else nothing |

## Left out

- CUBE access is not part of this model. The profile's region names,
  mangled names, visit table, locations, metric count, file size and call
  tree are given as values, and so are getTime, getTotalTime and
  getTotalVisits.
- Time fields (timeS, timeP, timePerVisit, total time) and their
  floating-point arithmetic are not modelled. Rows carry no times.
- The `int` fields of the row records hold the figures unbounded. The
  truncation of `uint64_t` figures into them, and of procList entries in
  calculateFilteredSizes, is not modelled.
- Writing the request file, running `otf2-estimator` through `system()` and
  reading its answer are I/O. The estimator process is a function
  parameter from request text to answer text (none when it cannot be
  run), and the temporary files are not modelled.
- Temp-file discovery (is_writable_file_creatable, get_temp_filename) is
  not modelled. It probes the file system and the environment.
- The event registry is a static map in the source. Here it is a value
  (a name-ordered list) passed to the estimator's constructor. A second
  estimator in the same process therefore sees the events of the first,
  and the model shows this only through that parameter.
- Event objects are not individually allocated. An event is a value of a
  closed set of kinds, and the name lists are resolved through
  `EventList.Names`.
- QHash iteration order is a fixed order of association lists. Every
  use in the model only sums or maximises over entries.
- Freeing groups (delete_groups, the destructors) is not modelled.
- initializeFilter, match_filter and the `m_has_filter` branch of
  calculate are not modelled. The filter stub always matches, and the GUI
  never enables it.
- Report printing (printGroups, printRegions, Group::print, updateWidths,
  dumpEventSizes, Profile::print) is formatted output and is not modelled.
  The memory formula of printGroups is the one of getSizes.
- Connector::seperate is not modelled. It is private and no connector
  operation calls it.
- getGroupData and getFunctionData of the connector only return the lists,
  which are fields of the model.
- Opening the filter file is I/O. createFilterFile takes whether the file
  opens as a parameter, and its result includes the text written.
- The `uint64_t` sums do not wrap at 2^64 in the model: the bytes a group
  accumulates in addRegion (src/score/SCOREP_Score_Group.cpp:122-131), the
  bytes per visit (src/score/SCOREP_Score_Estimator.cpp:503-513) and the
  filtered trace size (src/connector.cpp:458) are unbounded naturals. Only
  a profile whose sums exceed 2^64 bytes would behave differently.
- ScoreEstimator.TotalMemory requires the number of processes times the
  number of metrics to be positive. The source divides the profile's file
  size by that product without a guard
  (src/score/SCOREP_Score_Estimator.cpp:798-799 and 852-853); a zero
  product is undefined behaviour in C++, which the model does not represent.
- ScoreEstimator.Estimator.UpdateMemory and ScoreEstimator.Estimator.GetSizes
  require the same positive product, for the same division.
- ScoreConnector.Connector.Start, ScoreConnector.ReadEstimator and
  ScoreConnector.CalculatedEstimator require the same positive product,
  because start calls getSizes; the connector's Ready predicate, which
  changeState, calculateFilteredSizes and updateMemory need, includes it.
- Filtering.ApplyKey, Filtering.ApplyKeys, Filtering.ChangeState and
  ScoreConnector.Connector.ChangeState require every key to index an
  existing row of the table it names. The source passes the key straight to
  QList::at (src/connector.cpp:171 and 278), which is undefined for an
  index out of range; the model does not represent that case.
- getSizes and getFilteredSizes of the connector (src/connector.cpp:69-87)
  only package three fields each; GetSizes and GetFilteredSizes do the
  same and carry no contract. What the fields hold is stated by
  ScoreConnector.Connector.Start (the whole-trace sizes) and
  ScoreConnector.Connector.CalculateFilteredSizes (the filtered ones).
- Getters that return a field or a constant (getTypeNum, getRegionNum,
  getNumberOfRegions and the like) are fields or constants here.
- The main window, its widgets and main() are not part of this model.
- ScoreConnector.Connector.Start: consistency is promised only when the
  excluded list was empty before. start clears the row lists but not the
  excluded list (src/connector.cpp:31-35), so a second start keeps
  positions that refer to the previous rows.
- ScoreConnector.Connector.Start: the estimator's own validity is not restated
  after start. Start promises what the connector keeps, not the state of the
  estimator's groups.
- Filtering.CalculateFilter: the old FLT row's state, which calculateFilter
  reads first, is not carried over, because every branch overwrites it.
