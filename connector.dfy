/**
 * The connector between the estimator and the GUI: it reads the group and
 * region rows off a fresh estimator, toggles rows in and out of the
 * filter, keeps the FLT row and the filtered sizes up to date, and writes
 * the filter file. Its methods are proved against the functions of the
 * Filtering and FilterOutput modules.
 */
module ScoreConnector {
  import opened Util
  import opened Text
  import opened DataCenter
  import opened ScoreTypes
  import opened ScoreGroup
  import opened ScoreProfile
  import opened ScoreEvent
  import opened Accounting
  import opened ScoreEstimator
  import opened Filtering
  import opened FilterOutput
  import opened ReadableBytes

  /** The FLT row start appends: nothing excluded yet. */
  const FLT_START_ROW: GroupRow := GroupRow(EXCLUDED, 0, FLT_NAME, 0, 0, "")

  /** The group rows start reads off the type groups: one per non-empty group, keyed by its position. */
  ghost function TypeRows(s: seq<Group>, n: nat): seq<GroupRow>
    requires n <= |s| && forall g :: g in s ==> g.kind < TYPE_NUM
    reads s, set g | g in s :: g.slots
  {
    if n == 0 then []
    else
      var g := s[n - 1];
      assert g in s;
      var row := GroupRowOf(SummaryOf(g, false), n - 1);
      TypeRows(s, n - 1) + (if row.maxBuf != -1 then [row] else [])
  }

  /** The region rows start reads off the region groups: one per non-empty group, keyed by its position. */
  ghost function RegionRows(s: seq<Group>, n: nat): seq<RegionRow>
    requires n <= |s| && forall g :: g in s ==> g.kind < TYPE_NUM
    reads s, set g | g in s :: g.slots
  {
    if n == 0 then []
    else
      var g := s[n - 1];
      assert g in s;
      var row := RegionRowOf(SummaryOf(g, true), n - 1);
      RegionRows(s, n - 1) + (if row.maxBuf != -1 then [row] else [])
  }

  /** A row names the non-FLT group at its key by that group's type. */
  ghost predicate NamesGroup(row: GroupRow, s: seq<Group>)
  {
    0 <= row.key < |s| && s[row.key].kind < TYPE_NUM && s[row.key].kind != FLT &&
    row.typeName == GetTypeName(s[row.key].kind)
  }

  /** The rows are included, name the type of a non-empty group below n at their key, and come in increasing key order. */
  ghost predicate KeyedRows(rows: seq<GroupRow>, s: seq<Group>, n: nat)
  {
    (forall a :: 0 <= a < |rows| ==> rows[a].state == INCLUDED && rows[a].key < n && NamesGroup(rows[a], s)) &&
    (forall a, b :: 0 <= a < b < |rows| ==> rows[a].key < rows[b].key)
  }

  lemma KeyedRowsGrow(rows: seq<GroupRow>, s: seq<Group>, n: nat, row: GroupRow)
    requires KeyedRows(rows, s, n)
    requires row.state == INCLUDED && row.key == n && NamesGroup(row, s)
    ensures KeyedRows(rows + [row], s, n + 1)
  {
  }

  /**
   * The group rows of type groups with an empty FLT group are included,
   * name the type of a non-empty group at their key, and come in
   * increasing key order.
   */
  lemma {:induction false} TypeRowsKeys(s: seq<Group>, n: nat)
    requires n <= |s| && (forall g :: g in s ==> g.kind < TYPE_NUM) && FltEmpty(s)
    ensures KeyedRows(TypeRows(s, n), s, n)
  {
    if n > 0 {
      TypeRowsKeys(s, n - 1);
      var g := s[n - 1];
      assert g in s;
      var row := GroupRowOf(SummaryOf(g, false), n - 1);
      if row.maxBuf != -1 {
        assert g.kind != FLT;
        KeyedRowsGrow(TypeRows(s, n - 1), s, n - 1, row);
      } else {
        assert TypeRows(s, n) == TypeRows(s, n - 1);
      }
    }
  }

  /**
   * The group rows of the type groups never name FLT and name pairwise
   * different types: different keys hold different groups, hence
   * different types, hence different names.
   */
  lemma TypeRowsShape(s: seq<Group>, processes: nat)
    requires TypeGroups(s, processes)
    ensures forall g :: g in s ==> g.kind < TYPE_NUM
    ensures forall a :: 0 <= a < |TypeRows(s, |s|)| ==>
      TypeRows(s, |s|)[a].state == INCLUDED && TypeRows(s, |s|)[a].typeName != FLT_NAME
    ensures forall a, b :: 0 <= a < b < |TypeRows(s, |s|)| ==> TypeRows(s, |s|)[a].typeName != TypeRows(s, |s|)[b].typeName
  {
    assert forall g :: g in s ==> g.kind < TYPE_NUM;
    TypeRowsKeys(s, |s|);
    forall a | 0 <= a < |TypeRows(s, |s|)|
      ensures TypeRows(s, |s|)[a].typeName != FLT_NAME
    {
      assert TypeRows(s, |s|)[a].state == INCLUDED && NamesGroup(TypeRows(s, |s|)[a], s);
      var t := s[TypeRows(s, |s|)[a].key].kind;
      assert TypeList[FLT].0 == FLT_NAME;
      assert GetTypeName(t) != FLT_NAME;
    }
    forall a, b | 0 <= a < b < |TypeRows(s, |s|)|
      ensures TypeRows(s, |s|)[a].typeName != TypeRows(s, |s|)[b].typeName
    {
      assert TypeRows(s, |s|)[a].state == INCLUDED && NamesGroup(TypeRows(s, |s|)[a], s);
      assert TypeRows(s, |s|)[b].state == INCLUDED && NamesGroup(TypeRows(s, |s|)[b], s);
      var g, h := s[TypeRows(s, |s|)[a].key], s[TypeRows(s, |s|)[b].key];
      assert g != h;
      assert g in s && h in s;
      assert g.kind != h.kind;
    }
  }

  /** The region rows of groups none of which is of type FLT are included and never name FLT. */
  lemma {:induction false} RegionRowsShape(s: seq<Group>, n: nat)
    requires n <= |s| && forall g :: g in s ==> g.kind < TYPE_NUM && g.kind != FLT
    ensures forall i :: 0 <= i < |RegionRows(s, n)| ==> RegionRows(s, n)[i].included && RegionRows(s, n)[i].typeName != FLT_NAME
  {
    if n > 0 {
      RegionRowsShape(s, n - 1);
      var g := s[n - 1];
      assert g in s;
      var row := RegionRowOf(SummaryOf(g, true), n - 1);
      if row.maxBuf != -1 {
        assert RegionRows(s, n) == RegionRows(s, n - 1) + [row];
        assert TypeList[FLT].0 == FLT_NAME;
        assert row.typeName == GetTypeName(g.kind) != FLT_NAME;
      } else {
        assert RegionRows(s, n) == RegionRows(s, n - 1);
      }
    }
  }

  /**
   * The lists start leaves are consistent: every row included, no region
   * excluded, and the FLT row as calculateFilter would compute it.
   */
  lemma StartConsistent(rows: seq<GroupRow>, fs: seq<RegionRow>)
    requires forall a :: 0 <= a < |rows| ==> rows[a].state == INCLUDED && rows[a].typeName != FLT_NAME
    requires forall a, b :: 0 <= a < b < |rows| ==> rows[a].typeName != rows[b].typeName
    requires forall i :: 0 <= i < |fs| ==> fs[i].included && fs[i].typeName != FLT_NAME
    ensures Consistent(View(rows + [FLT_START_ROW], fs, []))
  {
    var v := View(rows + [FLT_START_ROW], fs, []);
    assert v.groups[..|v.groups| - 1] == rows;
    forall a | 0 <= a < |v.groups| - 1 && Filterable(v.groups[a].typeName)
      ensures StateMatches(v.groups[a].state, fs, v.groups[a].typeName)
    {
      assert v.groups[a] == rows[a];
    }
  }

  /** The rows start reads off sorted type groups and region groups none of which is FLT are consistent. */
  lemma StartRowsConsistent(s: seq<Group>, rs: seq<Group>, processes: nat)
    requires |s| == TYPE_NUM && TypeGroups(s, processes)
    requires forall g :: g in rs ==> g.kind < TYPE_NUM && g.kind != FLT
    ensures forall g :: g in s ==> g.kind < TYPE_NUM
    ensures Consistent(View(TypeRows(s, TYPE_NUM) + [FLT_START_ROW], RegionRows(rs, |rs|), []))
  {
    TypeRowsShape(s, processes);
    RegionRowsShape(rs, |rs|);
    StartConsistent(TypeRows(s, |s|), RegionRows(rs, |rs|));
  }

  /** The inner loop of calculateFilteredSizes over the per-process entries of one region. */
  method CreditRegion(entries: ProcessBuffers, traceSize: nat, procList: seq<nat>)
    returns (traceSize': nat, procList': seq<nat>)
    ensures traceSize' == traceSize + EntriesBytes(entries)
    ensures procList' == CreditEntries(procList, entries)
  {
    traceSize', procList' := traceSize, procList;
    for k := 0 to |entries|
      invariant traceSize' == traceSize + EntriesBytes(entries[..k])
      invariant procList' == CreditEntries(procList, entries[..k])
    {
      assert entries[..k + 1][..k] == entries[..k];
      var q := entries[k].0;
      var bytes := entries[k].1.bytesPerVisit * entries[k].1.numberOfVisits;
      traceSize' := traceSize' + bytes;
      ghost var before := procList';
      while q > |procList'| - 1
        invariant |before| <= |procList'| <= (if q < |before| then |before| else q + 1)
        invariant procList' == before + Zeros(|procList'| - |before|)
        decreases q + 1 - |procList'|
      {
        assert Zeros(|procList'| + 1 - |before|) == Zeros(|procList'| - |before|) + [0];
        procList' := procList' + [0];
      }
      if q < |before| {
        assert procList' == before;
      }
      procList' := procList'[q := procList'[q] + bytes];
    }
    assert entries[..|entries|] == entries;
  }

  /** The qMax loop of calculateFilteredSizes. */
  method LargestEntry(procList: seq<nat>) returns (m: nat)
    ensures forall q :: 0 <= q < |procList| ==> procList[q] <= m
    ensures m == MaxOf(procList)
  {
    m := 0;
    for i := 0 to |procList|
      invariant m == MaxOf(procList[..i])
    {
      assert procList[..i + 1][..i] == procList[..i];
      m := if m > procList[i] then m else procList[i];
    }
    assert procList[..|procList|] == procList;
  }

  /**
   * One index of the type loop of start: getGroupInformation sorts and
   * reads the row, and a non-empty row is read once more, which leaves
   * the sorted groups as they are.
   */
  method ReadTypeRow(e: Estimator, i: nat, ghost s: seq<Group>) returns (row: GroupRow, ghost s': seq<Group>)
    requires e.Valid() && i < TYPE_NUM
    requires i > 0 ==> SortedByMax(e.groups[..]) && e.groups[..] == s
    modifies e.groups
    ensures e.Valid() && multiset(e.groups[..]) == multiset(old(e.groups[..]))
    ensures SortedByMax(e.groups[..]) && e.groups[..] == s' && (i > 0 ==> s' == s)
    ensures s'[i].kind < TYPE_NUM && row == GroupRowOf(SummaryOf(s'[i], false), i)
  {
    row := e.GetGroupInformation(i);
    s' := e.groups[..];
    if row.maxBuf != -1 {
      row := RereadTypeRow(e, i, s');
    }
  }

  /** The second read of a type index: the groups are sorted already, so nothing moves. */
  method RereadTypeRow(e: Estimator, i: nat, ghost s: seq<Group>) returns (row: GroupRow)
    requires e.Valid() && i < TYPE_NUM && SortedByMax(e.groups[..]) && e.groups[..] == s
    modifies e.groups
    ensures e.Valid() && e.groups[..] == s
    ensures s[i].kind < TYPE_NUM && row == GroupRowOf(SummaryOf(s[i], false), i)
  {
    row := e.GetGroupInformation(i);
  }

  /** One index of the region loop of start: getRegionInformation sorts and reads the row. */
  method ReadRegionRow(e: Estimator, i: nat, ghost all: seq<RegionRow>, ghost s: seq<Group>)
    returns (row: RegionRow, ghost s': seq<Group>)
    requires e.Valid() && e.hasRegions && i < e.regionNum
    requires i > 0 ==> SortedByMax(e.regions[..]) && e.regions[..] == s
    requires |all| == i && |s| == e.regionNum && RegionRowsRead(all, s, i)
    modifies e.regions
    ensures e.Valid() && multiset(e.regions[..]) == multiset(old(e.regions[..]))
    ensures SortedByMax(e.regions[..]) && e.regions[..] == s' && |s'| == e.regionNum
    ensures RegionRowsRead(all + [row], s', i + 1)
  {
    row := e.GetRegionInformation(i);
    s' := e.regions[..];
    RegionRowsReadStep(all, s', i, row);
  }

  /** The first n rows read are those of the first n sorted type groups, keyed by position. */
  ghost predicate TypeRowsRead(all: seq<GroupRow>, s: seq<Group>, n: nat)
    reads set g | g in s, set g | g in s :: g.slots
  {
    n <= |all| && n <= |s| &&
    forall k :: 0 <= k < n ==> s[k].kind < TYPE_NUM && all[k] == GroupRowOf(SummaryOf(s[k], false), k)
  }

  lemma TypeRowsReadStep(all: seq<GroupRow>, s: seq<Group>, n: nat, row: GroupRow)
    requires TypeRowsRead(all, s, n) && n == |all| < |s|
    requires s[n].kind < TYPE_NUM && row == GroupRowOf(SummaryOf(s[n], false), n)
    ensures TypeRowsRead(all + [row], s, n + 1)
  {
    assert forall k :: 0 <= k < n ==> (all + [row])[k] == all[k];
  }

  /** The type loop of start: every type index is read twice, once to test and once to append. */
  method ReadTypeRows(e: Estimator) returns (rows: seq<GroupRow>)
    requires e.Valid()
    modifies e.groups
    ensures e.Valid() && multiset(e.groups[..]) == multiset(old(e.groups[..]))
    ensures forall g :: g in e.groups[..] ==> g.kind < TYPE_NUM
    ensures rows == TypeRows(e.groups[..], TYPE_NUM) + [FLT_START_ROW]
  {
    ghost var all: seq<GroupRow> := [];
    ghost var s := e.groups[..];
    rows := [];
    for i := 0 to TYPE_NUM
      invariant e.Valid() && multiset(e.groups[..]) == multiset(old(e.groups[..]))
      invariant i > 0 ==> SortedByMax(e.groups[..]) && e.groups[..] == s
      invariant |all| == i && rows == KeptGroupRows(all) && |s| == TYPE_NUM && TypeRowsRead(all, s, i)
    {
      rows, all, s := ReadTypeStep(e, i, rows, all, s);
    }
    ReadOffTypeRows(all, s, TYPE_NUM);
    rows := rows + [FLT_START_ROW];
  }

  /** One pass of the type loop: the row of index i is read and kept when its group is not empty. */
  method ReadTypeStep(e: Estimator, i: nat, rows: seq<GroupRow>, ghost all: seq<GroupRow>, ghost s: seq<Group>)
    returns (rows': seq<GroupRow>, ghost all': seq<GroupRow>, ghost s': seq<Group>)
    requires e.Valid() && i < TYPE_NUM
    requires i > 0 ==> SortedByMax(e.groups[..]) && e.groups[..] == s
    requires |all| == i && rows == KeptGroupRows(all) && |s| == TYPE_NUM && TypeRowsRead(all, s, i)
    modifies e.groups
    ensures e.Valid() && multiset(e.groups[..]) == multiset(old(e.groups[..]))
    ensures SortedByMax(e.groups[..]) && e.groups[..] == s'
    ensures |all'| == i + 1 && rows' == KeptGroupRows(all') && |s'| == TYPE_NUM && TypeRowsRead(all', s', i + 1)
  {
    var row;
    row, s' := ReadTypeRow(e, i, s);
    rows' := rows;
    if row.maxBuf != -1 {
      rows' := rows + [row];
    }
    all' := all + [row];
    assert all'[..i] == all;
    TypeRowsReadStep(all, s', i, row);
  }

  /** The first n region rows read are those of the first n sorted region groups, keyed by position. */
  ghost predicate RegionRowsRead(all: seq<RegionRow>, s: seq<Group>, n: nat)
    reads set g | g in s, set g | g in s :: g.slots
  {
    n <= |all| && n <= |s| &&
    forall k :: 0 <= k < n ==> s[k].kind < TYPE_NUM && all[k] == RegionRowOf(SummaryOf(s[k], true), k)
  }

  lemma RegionRowsReadStep(all: seq<RegionRow>, s: seq<Group>, n: nat, row: RegionRow)
    requires RegionRowsRead(all, s, n) && n == |all| < |s|
    requires s[n].kind < TYPE_NUM && row == RegionRowOf(SummaryOf(s[n], true), n)
    ensures RegionRowsRead(all + [row], s, n + 1)
  {
    assert forall k :: 0 <= k < n ==> (all + [row])[k] == all[k];
  }

  /** The region loop of start. */
  method ReadRegionRows(e: Estimator, ghost regionGroups: seq<Group>) returns (rows: seq<RegionRow>)
    requires e.Valid() && e.hasRegions && multiset(e.regions[..]) == multiset(regionGroups)
    requires forall g :: g in regionGroups ==> g.kind != FLT
    modifies e.regions
    ensures e.Valid() && multiset(e.regions[..]) == multiset(regionGroups)
    ensures forall g :: g in e.regions[..] ==> g.kind < TYPE_NUM && g.kind != FLT
    ensures rows == RegionRows(e.regions[..], e.regionNum)
  {
    ghost var all: seq<RegionRow> := [];
    ghost var s := e.regions[..];
    rows := [];
    for i := 0 to e.regionNum
      invariant e.Valid() && multiset(e.regions[..]) == multiset(regionGroups)
      invariant e.regions[..] == s && (i > 0 ==> SortedByMax(s))
      invariant |all| == i && rows == KeptRegionRows(all) && |s| == e.regionNum && RegionRowsRead(all, s, i)
    {
      rows, all, s := ReadRegionStep(e, i, rows, all, s);
    }
    forall g | g in e.regions[..]
      ensures g.kind < TYPE_NUM && g.kind != FLT
    {
      assert g in multiset(regionGroups);
    }
    ReadOffRegionRows(all, s, e.regionNum);
  }

  /** One pass of the region loop: the row of index i is read and kept when its group is not empty. */
  method ReadRegionStep(e: Estimator, i: nat, rows: seq<RegionRow>, ghost all: seq<RegionRow>, ghost s: seq<Group>)
    returns (rows': seq<RegionRow>, ghost all': seq<RegionRow>, ghost s': seq<Group>)
    requires e.Valid() && e.hasRegions && i < e.regionNum
    requires i > 0 ==> SortedByMax(e.regions[..]) && e.regions[..] == s
    requires |all| == i && rows == KeptRegionRows(all) && |s| == e.regionNum && RegionRowsRead(all, s, i)
    modifies e.regions
    ensures e.Valid() && multiset(e.regions[..]) == multiset(old(e.regions[..]))
    ensures SortedByMax(e.regions[..]) && e.regions[..] == s'
    ensures |all'| == i + 1 && rows' == KeptRegionRows(all') && |s'| == e.regionNum && RegionRowsRead(all', s', i + 1)
  {
    var temp;
    temp, s' := ReadRegionRow(e, i, all, s);
    rows' := rows;
    if temp.maxBuf != -1 {
      rows' := rows + [temp];
    }
    all' := all + [temp];
    assert all'[..i] == all;
  }

  /** The rows start keeps: those of non-empty groups. */
  function KeptGroupRows(all: seq<GroupRow>): seq<GroupRow>
  {
    if |all| == 0 then []
    else KeptGroupRows(all[..|all| - 1]) + (if all[|all| - 1].maxBuf != -1 then [all[|all| - 1]] else [])
  }

  function KeptRegionRows(all: seq<RegionRow>): seq<RegionRow>
  {
    if |all| == 0 then []
    else KeptRegionRows(all[..|all| - 1]) + (if all[|all| - 1].maxBuf != -1 then [all[|all| - 1]] else [])
  }

  /** The rows read one by one off the sorted type groups, kept when non-empty, are the type rows. */
  lemma {:induction false} ReadOffTypeRows(all: seq<GroupRow>, s: seq<Group>, n: nat)
    requires n == |all| <= |s| && forall g :: g in s ==> g.kind < TYPE_NUM
    requires forall k :: 0 <= k < n ==> all[k] == GroupRowOf(SummaryOf(s[k], false), k)
    ensures KeptGroupRows(all) == TypeRows(s, n)
  {
    if n > 0 {
      ReadOffTypeRows(all[..n - 1], s, n - 1);
    }
  }

  /** The rows read one by one off the sorted region groups, kept when non-empty, are the region rows. */
  lemma {:induction false} ReadOffRegionRows(all: seq<RegionRow>, s: seq<Group>, n: nat)
    requires n == |all| <= |s| && forall g :: g in s ==> g.kind < TYPE_NUM
    requires forall k :: 0 <= k < n ==> all[k] == RegionRowOf(SummaryOf(s[k], true), k)
    ensures KeptRegionRows(all) == RegionRows(s, n)
  {
    if n > 0 {
      ReadOffRegionRows(all[..n - 1], s, n - 1);
    }
  }

  /**
   * What start reads off its estimator e: the buffer data after the
   * calculation, the sizes of the ALL group, the memory requirement, the
   * group rows of the non-empty type groups in sorted order followed by the
   * FLT row, and the region rows of the non-empty regions in sorted order.
   */
  ghost predicate StartedFrom(e: Estimator, profile: Profile, buffer0: BufferData, buffer: BufferData, sizes: Sizes,
                              typeRows: seq<GroupRow>, regionRows: seq<RegionRow>)
    reads e, e.groups, e.regions, e.groups[..], e.regions[..], set g | g in e.groups[..] :: g.slots, set g | g in e.regions[..] :: g.slots
  {
    match sizes
    case Sizes(traceSize, maxBuf, totalMemory) =>
      e.profile == profile && profile.WellFormed() && profile.processNum * profile.metricNum > 0 &&
      e.groups.Length == TYPE_NUM && e.regions.Length == |profile.regionNames| &&
      (forall g :: g in e.groups[..] ==> g.kind < TYPE_NUM) &&
      (forall g :: g in e.regions[..] ==> g.kind < TYPE_NUM) &&
      buffer == BufferAfter(buffer0, profile.regionNames, profile.visits, e.Costs(), |profile.regionNames|) &&
      (exists g :: (g in e.groups[..] && g.kind == ALL && traceSize == Sum(g.slots[..]) && maxBuf == MaxOf(g.slots[..]))) &&
      totalMemory == TotalMemory(maxBuf, profile.fileSize, profile.processNum, profile.metricNum, MaxOf(profile.locations)) &&
      typeRows == TypeRows(e.groups[..], TYPE_NUM) + [FLT_START_ROW] &&
      regionRows == RegionRows(e.regions[..], |profile.regionNames|)
  }

  /**
   * The estimator half of start: a fresh estimator calculates with regions
   * shown and mangled names, its sizes are read, and the group rows
   * (followed by the FLT row) and the region rows are read off it.
   */
  method ReadEstimator(profile: Profile, registry: Catalog, oracle: string -> Option<string>, buffer0: BufferData)
    returns (e: Estimator, buffer: BufferData, sizes: Sizes, typeRows: seq<GroupRow>, regionRows: seq<RegionRow>)
    requires profile.Valid() && Ordered(registry) && profile.processNum * profile.metricNum > 0
    ensures fresh(e) && StartedFrom(e, profile, buffer0, buffer, sizes, typeRows, regionRows)
    ensures Consistent(View(typeRows, regionRows, []))
  {
    e, buffer, sizes := CalculatedEstimator(profile, registry, oracle, buffer0);
    ghost var all := e.groups[ALL];
    assert all in multiset(e.groups[..]);
    typeRows, regionRows := ReadRows(e);
    assert all in e.groups[..];
  }

  /** The calculation of start: a fresh estimator, regions shown and mangled names, and its sizes. */
  method CalculatedEstimator(profile: Profile, registry: Catalog, oracle: string -> Option<string>, buffer0: BufferData)
    returns (e: Estimator, buffer: BufferData, sizes: Sizes)
    requires profile.Valid() && Ordered(registry) && profile.processNum * profile.metricNum > 0
    ensures fresh(e) && fresh(e.groups) && fresh(e.regions)
    ensures e.Valid() && e.hasRegions && e.profile == profile && e.groups[ALL].kind == ALL
    ensures forall g :: g in e.regions[..] ==> g.kind != FLT
    ensures buffer == BufferAfter(buffer0, profile.regionNames, profile.visits, e.Costs(), |profile.regionNames|)
    ensures sizes.traceSize == Sum(e.groups[ALL].slots[..]) && sizes.maxBuf == MaxOf(e.groups[ALL].slots[..])
    ensures sizes.totalMemory == TotalMemory(sizes.maxBuf, profile.fileSize, profile.processNum, profile.metricNum,
                                             MaxOf(profile.locations))
  {
    e := NewEstimator(profile, registry, oracle);
    buffer := ShowAll(e, buffer0);
    sizes := e.GetSizes();
  }

  /** The estimator start creates: no dense metrics, the events registered. */
  method NewEstimator(profile: Profile, registry: Catalog, oracle: string -> Option<string>) returns (e: Estimator)
    requires profile.Valid() && Ordered(registry)
    ensures fresh(e) && fresh(e.groups) && fresh(Objs(e.groups[..]))
    ensures e.Valid() && e.InTypeOrder() && e.profile == profile && e.regions.Length == 0
  {
    e := new Estimator(profile, 0, registry, oracle);
  }

  /** calculate with regions shown and mangled names: every region has a group, none of type FLT. */
  method ShowAll(e: Estimator, buffer0: BufferData) returns (buffer: BufferData)
    requires e.Valid() && e.InTypeOrder() && e.regions.Length == 0
    modifies e, Objs(e.groups[..])
    ensures fresh(e.regions)
    ensures e.Valid() && e.hasRegions && e.groups[ALL].kind == ALL
    ensures forall g :: g in e.regions[..] ==> g.kind != FLT
    ensures buffer == BufferAfter(buffer0, e.profile.regionNames, e.profile.visits, e.Costs(), |e.profile.regionNames|)
  {
    assert e.regions[..] == [];
    buffer := e.Calculate(true, true, buffer0);
    forall g | g in e.regions[..]
      ensures g.kind != FLT
    {
      var r :| 0 <= r < e.regions.Length && e.regions[r] == g;
    }
  }

  /** The row loops of start, and the lists they leave: consistent, nothing excluded. */
  method ReadRows(e: Estimator) returns (typeRows: seq<GroupRow>, regionRows: seq<RegionRow>)
    requires e.Valid() && e.hasRegions && forall g :: g in e.regions[..] ==> g.kind != FLT
    modifies e.groups, e.regions
    ensures e.groups.Length == TYPE_NUM && e.regions.Length == |e.profile.regionNames|
    ensures multiset(e.groups[..]) == multiset(old(e.groups[..]))
    ensures (forall g :: g in e.groups[..] ==> g.kind < TYPE_NUM) && (forall g :: g in e.regions[..] ==> g.kind < TYPE_NUM)
    ensures typeRows == TypeRows(e.groups[..], TYPE_NUM) + [FLT_START_ROW]
    ensures regionRows == RegionRows(e.regions[..], e.regionNum)
    ensures Consistent(View(typeRows, regionRows, []))
  {
    typeRows := ReadTypeRows(e);
    ghost var s := e.groups[..];
    OutsideObjs(e, s);
    regionRows := ReadRegionRows(e, e.regions[..]);
    assert e.groups[..] == s && typeRows == TypeRows(s, TYPE_NUM) + [FLT_START_ROW];
    StartRowsConsistent(e.groups[..], e.regions[..], e.processNum);
  }

  /** The connector is none of the estimator's groups or slot arrays. */
  lemma ConnectorApart(c: Connector, e: Estimator)
    ensures forall g: Group :: g in e.groups[..] ==> (c as object) != (g as object) && (c as object) != (g.slots as object)
    ensures forall g: Group :: g in e.regions[..] ==> (c as object) != (g as object) && (c as object) != (g.slots as object)
  {
  }

  /** One row of the include loop of changeState. */
  method IncludeStep(ghost fs: seq<RegionRow>, ghost ex: seq<nat>, scope: Scope, i: nat, rows: seq<RegionRow>, positions: seq<nat>)
    returns (rows': seq<RegionRow>, positions': seq<nat>)
    requires i < |fs| && rows == Flagged(fs, scope, true, i) && positions == Restored(ex, fs, scope, i)
    ensures rows' == Flagged(fs, scope, true, i + 1) && positions' == Restored(ex, fs, scope, i + 1)
  {
    FlaggedNext(fs, scope, true, i);
    rows', positions' := rows, positions;
    if InScope(scope, rows[i].typeName) && !rows[i].included {
      var index := IndexOf(positions, i);
      rows' := rows[i := rows[i].(included := true)];
      positions' := RemoveAt(positions, index);
      RemoveAtIndexOf(positions, i);
    }
  }

  class Connector {
    /** m_dataListGroup: the group rows; the last one is FLT once start has run. */
    var groups: seq<GroupRow>
    /** m_dataListFunction: the region rows. */
    var functions: seq<RegionRow>
    /** m_excludedFunctions: the positions of the excluded region rows, in the order they were excluded. */
    var excluded: seq<nat>
    /** m_bufferData: per region name, the bytes each process writes. */
    var bufferData: BufferData
    var traceSize: nat
    var maxBuf: nat
    var totalMemory: nat
    var traceSizeFlt: nat
    var maxBufFlt: nat
    var totalMemoryFlt: nat
    var estimator: Estimator?

    /** The three lists the toggle engine works on. */
    function Lists(): View
      reads this
    {
      View(groups, functions, excluded)
    }

    /** An estimator is there to ask for the memory requirement. */
    ghost predicate Ready()
      reads this
    {
      estimator != null && estimator.profile.WellFormed() &&
      estimator.profile.processNum * estimator.profile.metricNum > 0
    }

    /** The filtered sizes are those of the regions the excluded rows do not name. */
    ghost predicate FilteredSizesMatch()
      reads this
      requires Ready() && InRange(functions, excluded)
    {
      var names := ExcludedNames(functions, excluded);
      traceSizeFlt == KeptTrace(bufferData, names) && maxBufFlt == FilteredMaxBuf(bufferData, names) &&
      totalMemoryFlt == TotalMemory(maxBufFlt, estimator.profile.fileSize, estimator.profile.processNum,
                                    estimator.profile.metricNum, MaxOf(estimator.profile.locations))
    }

    /** getSizes: the sizes of the whole trace. */
    function GetSizes(): Sizes
      reads this
    {
      Sizes(traceSize, maxBuf, totalMemory)
    }

    /** getFilteredSizes: the sizes of the trace without the excluded regions. */
    function GetFilteredSizes(): Sizes
      reads this
    {
      Sizes(traceSizeFlt, maxBufFlt, totalMemoryFlt)
    }

    constructor ()
      ensures groups == [] && functions == [] && excluded == [] && bufferData == []
      ensures traceSize == 0 && maxBuf == 0 && totalMemory == 0 && estimator == null
    {
      groups := [];
      functions := [];
      excluded := [];
      bufferData := [];
      traceSize, maxBuf, totalMemory := 0, 0, 0;
      traceSizeFlt, maxBufFlt, totalMemoryFlt := 0, 0, 0;
      estimator := null;
    }

    /**
     * start: a fresh estimator calculates with regions shown and mangled
     * names, its sizes are kept, then the non-empty type groups (in the
     * estimator's sorted order) become the group rows, followed by the FLT
     * row, and the non-empty regions the region rows. The excluded list is
     * not cleared; on a new connector it is empty and the lists come out
     * consistent.
     */
    method Start(profile: Profile, registry: Catalog, oracle: string -> Option<string>)
      requires profile.Valid() && Ordered(registry) && profile.processNum * profile.metricNum > 0
      modifies this
      ensures fresh(estimator) && Ready()
      ensures StartedFrom(estimator, profile, old(bufferData), bufferData, GetSizes(), groups, functions)
      ensures excluded == old(excluded) && GetFilteredSizes() == old(GetFilteredSizes())
      ensures old(excluded) == [] ==> Consistent(Lists())
    {
      var e, buffer, sizes, typeRows, regionRows := ReadEstimator(profile, registry, oracle, bufferData);
      ghost var buffer0 := bufferData;
      Keep(e, profile, buffer0, buffer, sizes, typeRows, regionRows);
    }

    /** The connector half of start: the estimator, the buffer data, the sizes and the rows are kept. */
    method Keep(e: Estimator, profile: Profile, ghost buffer0: BufferData, buffer: BufferData, sizes: Sizes,
                typeRows: seq<GroupRow>, regionRows: seq<RegionRow>)
      requires StartedFrom(e, profile, buffer0, buffer, sizes, typeRows, regionRows)
      modifies this`estimator, this`bufferData, this`traceSize, this`maxBuf, this`totalMemory, this`groups, this`functions
      ensures estimator == e && bufferData == buffer && GetSizes() == sizes && groups == typeRows && functions == regionRows
      ensures var started := StartedFrom(estimator, profile, buffer0, bufferData, GetSizes(), groups, functions); started
    {
      ConnectorApart(this, e);
      Store(e, buffer, sizes, typeRows, regionRows);
    }

    /** The assignments of start. */
    method Store(e: Estimator, buffer: BufferData, sizes: Sizes, typeRows: seq<GroupRow>, regionRows: seq<RegionRow>)
      modifies this`estimator, this`bufferData, this`traceSize, this`maxBuf, this`totalMemory, this`groups, this`functions
      ensures estimator == e && bufferData == buffer && GetSizes() == sizes && groups == typeRows && functions == regionRows
    {
      estimator := e;
      bufferData := buffer;
      traceSize, maxBuf, totalMemory := sizes.traceSize, sizes.maxBuf, sizes.totalMemory;
      groups := typeRows;
      functions := regionRows;
    }

    /** hasFiltered: whether some region row is excluded. */
    method HasFiltered() returns (filtered: bool)
      ensures filtered <==> |excluded| > 0
      ensures Coherent(Lists()) ==> (filtered <==> exists i :: 0 <= i < |functions| && !functions[i].included)
    {
      if Coherent(Lists()) {
        HasFilteredIff(Lists());
      }
      filtered := |excluded| != 0;
    }

    /** getReadableByteNo: the formatter with the connector's unit table. */
    method GetReadableByteNo(bytes: nat) returns (text: string)
      requires bytes <= ReadableBytes.MAX_UINT64
      ensures text == Readable(bytes, ConnectorUnits)
    {
      text := Render(bytes, ConnectorUnits);
    }

    /** The region loops of changeState that exclude: each included in-scope row is excluded and its position appended. */
    method ExcludeRegions(scope: Scope)
      modifies this`functions, this`excluded
      ensures Lists() == ExcludeRows(old(Lists()), scope)
    {
      ghost var fs, ex := functions, excluded;
      FlaggedNone(fs, scope, false);
      for i := 0 to |functions|
        invariant |fs| == |functions|
        invariant functions == Flagged(fs, scope, false, i)
        invariant excluded == ex + Selected(fs, scope, true, i)
      {
        ExcludeStep(fs, ex, scope, i);
      }
    }

    /** One row of the exclude loop. */
    method ExcludeStep(ghost fs: seq<RegionRow>, ghost ex: seq<nat>, scope: Scope, i: nat)
      requires i < |fs| && functions == Flagged(fs, scope, false, i) && excluded == ex + Selected(fs, scope, true, i)
      modifies this`functions, this`excluded
      ensures functions == Flagged(fs, scope, false, i + 1) && excluded == ex + Selected(fs, scope, true, i + 1)
    {
      FlaggedNext(fs, scope, false, i);
      SelectedNext(fs, scope, true, i);
      ghost var sel := Selected(fs, scope, true, i);
      if InScope(scope, functions[i].typeName) && functions[i].included {
        functions := functions[i := functions[i].(included := false)];
        excluded := excluded + [i];
        assert ex + (sel + [i]) == (ex + sel) + [i];
      } else {
        assert sel + [] == sel;
      }
    }

    /** The region loops of changeState that include: each excluded in-scope row is included and its position removed. */
    method IncludeRegions(scope: Scope)
      modifies this`functions, this`excluded
      ensures Lists() == IncludeRows(old(Lists()), scope)
    {
      ghost var fs, ex := functions, excluded;
      FlaggedNone(fs, scope, true);
      for i := 0 to |functions|
        invariant |fs| == |functions|
        invariant functions == Flagged(fs, scope, true, i)
        invariant excluded == Restored(ex, fs, scope, i)
      {
        functions, excluded := IncludeStep(fs, ex, scope, i, functions, excluded);
      }
    }

    /** The group loops of the FLT toggle: every filterable row not yet in state s is put in state s. */
    method SetFilterableStates(s: RowState)
      modifies this`groups
      ensures groups == Stated(old(groups), s, |old(groups)|)
    {
      ghost var gs := groups;
      for i := 0 to |groups|
        invariant groups == Stated(gs, s, i)
      {
        if Filterable(groups[i].typeName) && groups[i].state != s {
          groups := groups[i := groups[i].(state := s)];
        }
        assert groups == Stated(gs, s, i + 1);
      }
    }

    /** The group loops of a region toggle: every row of type t is put in state s. */
    method SetTypeStates(t: string, s: RowState)
      modifies this`groups
      ensures groups == TypeStated(old(groups), t, s, |old(groups)|)
    {
      ghost var gs := groups;
      for i := 0 to |groups|
        invariant groups == TypeStated(gs, t, s, i)
      {
        if groups[i].typeName == t {
          groups := groups[i := groups[i].(state := s)];
        }
        assert groups == TypeStated(gs, t, s, i + 1);
      }
    }

    /** The `same` loop: whether every region row of type t has the flag b. */
    method SameState(t: string, b: bool) returns (same: bool)
      ensures same <==> AllSame(functions, t, b)
      ensures !same <==> exists i :: 0 <= i < |functions| && functions[i].typeName == t && functions[i].included != b
    {
      same := true;
      for i := 0 to |functions|
        invariant same <==> forall k :: 0 <= k < i && functions[k].typeName == t ==> functions[k].included == b
      {
        if functions[i].typeName == t && functions[i].included != b {
          same := false;
        }
      }
    }

    /** One key of the group table in changeState. */
    method ApplyGroupKeyStep(key: nat) returns (accepted: bool)
      requires key < |groups|
      modifies this`groups, this`functions, this`excluded
      ensures (Lists(), accepted) == ApplyGroupKey(old(Lists()), key)
    {
      var g := groups[key];
      if !Filterable(g.typeName) {
        accepted := false;
      } else {
        accepted := true;
        var temp := SwitchState(g);
        groups := groups[key := temp];
        if temp.state == EXCLUDED {
          if temp.typeName == FLT_NAME {
            IncludeRegions(AllFilterable);
            SetFilterableStates(INCLUDED);
          } else {
            ExcludeRegions(OfType(temp.typeName));
          }
        } else {
          if temp.typeName == FLT_NAME {
            ExcludeRegions(AllFilterable);
            SetFilterableStates(EXCLUDED);
          } else {
            IncludeRegions(OfType(temp.typeName));
          }
        }
      }
    }

    /** One key of the region table in changeState. */
    method ApplyRegionKeyStep(key: nat) returns (accepted: bool)
      requires key < |functions|
      modifies this`groups, this`functions, this`excluded
      ensures (Lists(), accepted) == ApplyRegionKey(old(Lists()), key)
    {
      var f := functions[key];
      if !Filterable(f.typeName) {
        accepted := false;
      } else {
        accepted := true;
        var temp := f.(included := !f.included);
        functions := functions[key := temp];
        if !temp.included {
          excluded := excluded + [key];
        } else {
          var index := IndexOf(excluded, key);
          RemoveAtIndexOf(excluded, key);
          excluded := RemoveAt(excluded, index);
        }
        var same := SameState(temp.typeName, temp.included);
        if same {
          SetTypeStates(temp.typeName, if temp.included then INCLUDED else EXCLUDED);
        } else {
          SetTypeStates(temp.typeName, PARTIAL);
        }
      }
    }

    /**
     * calculateFilter: the last group row is dropped and a new FLT row
     * appended, with its state from the excluded list and the other group
     * rows, and the sums of the excluded rows' buffers and visits.
     */
    method CalculateFilter()
      requires |groups| > 0 && InRange(functions, excluded)
      modifies this`groups
      ensures Lists() == Filtering.CalculateFilter(old(Lists()))
    {
      groups := groups[..|groups| - 1];
      var state: RowState;
      if |excluded| == 0 {
        state := EXCLUDED;
      } else {
        var allExcluded := true;
        for i := 0 to |groups|
          invariant allExcluded <==> AllExcluded(groups[..i])
        {
          assert groups[..i + 1][..i] == groups[..i];
          if Filterable(groups[i].typeName) && (groups[i].state == INCLUDED || groups[i].state == PARTIAL) {
            allExcluded := false;
          }
        }
        assert groups[..|groups|] == groups;
        state := if allExcluded then INCLUDED else PARTIAL;
      }
      var fltMaxBuf: int := 0;
      var fltVisits: nat := 0;
      for i := 0 to |excluded|
        invariant fltMaxBuf == ExcludedMaxBuf(functions, excluded[..i])
        invariant fltVisits == ExcludedVisits(functions, excluded[..i])
      {
        assert excluded[..i + 1][..i] == excluded[..i];
        var temp := functions[excluded[i]];
        fltMaxBuf := fltMaxBuf + temp.maxBuf;
        fltVisits := fltVisits + temp.visits;
      }
      assert excluded[..|excluded|] == excluded;
      groups := groups + [GroupRow(state, 0, FLT_NAME, fltMaxBuf, fltVisits, "")];
    }

    /** The loop over the excluded rows in calculateFilteredSizes: whether a region name is kept. */
    method KeptRegion(name: string) returns (included: bool)
      requires InRange(functions, excluded)
      ensures included <==> name !in ExcludedNames(functions, excluded)
    {
      ghost var names := ExcludedNames(functions, excluded);
      included := true;
      for i := 0 to |excluded|
        invariant included <==> name !in names[..i]
      {
        assert names[..i + 1] == names[..i] + [names[i]];
        if name == functions[excluded[i]].region {
          included := false;
        }
      }
      assert names[..|excluded|] == names;
    }

    /**
     * calculateFilteredSizes: the trace size and the per-process buffers of
     * the regions the excluded rows do not name, the largest of those, and
     * the estimator's memory requirement for it.
     */
    method CalculateFilteredSizes()
      requires Ready() && InRange(functions, excluded)
      modifies this`traceSizeFlt, this`maxBufFlt, this`totalMemoryFlt
      ensures FilteredSizesMatch()
    {
      ghost var names := ExcludedNames(functions, excluded);
      var trace: nat := 0;
      var procList: seq<nat> := [];
      for j := 0 to |bufferData|
        invariant trace == KeptTrace(bufferData[..j], names)
        invariant procList == ProcTable(bufferData[..j], names)
      {
        assert bufferData[..j + 1][..j] == bufferData[..j];
        var included := KeptRegion(bufferData[j].0);
        if included {
          trace, procList := CreditRegion(bufferData[j].1, trace, procList);
        }
      }
      assert bufferData[..|bufferData|] == bufferData;
      var tempMaxBuf := LargestEntry(procList);
      maxBufFlt := tempMaxBuf;
      traceSizeFlt := trace;
      totalMemoryFlt := estimator.UpdateMemory(maxBufFlt);
    }

    /**
     * changeState: applies the keys in turn to the group or the region
     * table, then recomputes the FLT row and the filtered sizes; the
     * result is false once some key named a non-filterable row.
     */
    method ChangeState(keys: seq<nat>, groupTable: bool) returns (ok: bool)
      requires Coherent(Lists()) && Ready()
      requires forall k :: 0 <= k < |keys| ==> KeyInRange(Lists(), keys[k], groupTable)
      modifies this
      ensures (Lists(), ok) == Filtering.ChangeState(old(Lists()), keys, groupTable)
      ensures Consistent(Lists()) && Ready() && FilteredSizesMatch()
      ensures bufferData == old(bufferData) && estimator == old(estimator) && GetSizes() == old(GetSizes())
    {
      ghost var v := Lists();
      ok := true;
      for k := 0 to |keys|
        invariant (Lists(), ok) == ApplyKeys(v, keys[..k], groupTable)
        invariant bufferData == old(bufferData) && estimator == old(estimator) && GetSizes() == old(GetSizes())
      {
        assert keys[..k + 1][..k] == keys[..k];
        var accepted;
        if groupTable {
          accepted := ApplyGroupKeyStep(keys[k]);
        } else {
          accepted := ApplyRegionKeyStep(keys[k]);
        }
        ok := ok && accepted;
      }
      assert keys[..|keys|] == keys;
      ApplyKeysCoherent(v, keys, groupTable);
      ExactInRange(Lists());
      ChangeStateConsistent(v, keys, groupTable);
      CalculateFilter();
      CalculateFilteredSizes();
    }

    /**
     * createFilterFile: with some region excluded, the file is opened
     * (writable says whether that succeeds) and the filter text written;
     * the result says whether the file was opened.
     */
    method CreateFilterFile(writable: bool) returns (ok: bool, text: string)
      requires InRange(functions, excluded)
      ensures ok <==> |excluded| > 0 && writable
      ensures text == if ok then FilterFile(functions, excluded) else ""
    {
      ok, text := false, "";
      if |excluded| != 0 {
        ok := writable;
        if ok {
          ghost var lines := FilterLines(functions, excluded);
          text := "#this file is generated bei scoreQt" + "\n";
          text := text + "SCOREP_REGION_NAMES_BEGIN" + "\n";
          text := text + "EXCLUDE MANGLED" + "\n";
          assert text == JoinLines(lines[..3]) by {
            JoinLinesAppend([], FILE_HEAD[0]);
            JoinLinesAppend(FILE_HEAD[..1], FILE_HEAD[1]);
            JoinLinesAppend(FILE_HEAD[..2], FILE_HEAD[2]);
            assert lines[..3] == FILE_HEAD[..2] + [FILE_HEAD[2]];
            assert FILE_HEAD[..2] == FILE_HEAD[..1] + [FILE_HEAD[1]];
            assert FILE_HEAD[..1] == [] + [FILE_HEAD[0]];
          }
          for i := 0 to |excluded|
            invariant text == JoinLines(lines[..i + 3])
          {
            JoinLinesAppend(lines[..i + 3], lines[i + 3]);
            assert lines[..i + 4] == lines[..i + 3] + [lines[i + 3]];
            text := text + "\t" + functions[excluded[i]].mangledName + "\n";
          }
          JoinLinesAppend(lines[..|excluded| + 3], FILE_END);
          assert lines == lines[..|excluded| + 3] + [FILE_END];
          text := text + "SCOREP_REGION_NAMES_END" + "\n";
        }
      }
    }
  }
}
