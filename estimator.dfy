/**
 * The estimator (SCOREP_Score_Estimator): registers the trace events, asks
 * the event-size oracle for their sizes, accumulates every region's bytes
 * into one group per type (and optionally one group per region), and
 * reports sizes, memory requirements and table rows.
 *
 * The profile is given as a built Profile object; the oracle (the
 * otf2-estimator program run through temporary files) is a function from
 * the request text to the answer text, None when the program cannot be run.
 */
module ScoreEstimator {
  import opened Util
  import opened Text
  import opened ScoreTypes
  import opened EventList
  import opened ScoreEvent
  import opened EventOracle
  import opened ScoreGroup
  import opened ScoreProfile
  import opened GroupSort
  import opened DataCenter
  import opened Accounting
  import opened EventRegistry

  // ---------------------------------------------------------------------------
  // The memory formula.

  const TWO_MIB: nat := 2 * 1024 * 1024

  /** The profile's size divided among the processes and metrics, as an estimate of the definitions. */
  function DefinitionShare(fileSize: nat, processes: nat, metrics: nat): nat
    requires processes * metrics > 0
  {
    fileSize / (processes * metrics)
  }

  /**
   * getSizes / updateMemory: the definitions' share of the profile plus the
   * largest buffer, at least 2 MiB, plus 2 MiB per location of the largest
   * process.
   */
  function TotalMemory(maxBuf: nat, fileSize: nat, processes: nat, metrics: nat, maxLocations: nat): (m: nat)
    requires processes * metrics > 0
    ensures var perLocation := TWO_MIB * maxLocations;
      m >= maxBuf + DefinitionShare(fileSize, processes, metrics) + perLocation &&
      (m == TWO_MIB + perLocation || m == maxBuf + DefinitionShare(fileSize, processes, metrics) + perLocation)
  {
    var request := maxBuf + DefinitionShare(fileSize, processes, metrics);
    var atLeast := if TWO_MIB > request then TWO_MIB else request;
    atLeast + TWO_MIB * maxLocations
  }


  /** A larger buffer never needs less memory, and the total is at least 2 MiB per location and one more. */
  lemma TotalMemoryMonotone(a: nat, b: nat, fileSize: nat, processes: nat, metrics: nat, maxLocations: nat)
    requires processes * metrics > 0 && a <= b
    ensures TotalMemory(a, fileSize, processes, metrics, maxLocations)
      <= TotalMemory(b, fileSize, processes, metrics, maxLocations)
    ensures TotalMemory(a, fileSize, processes, metrics, maxLocations) >= TWO_MIB * (maxLocations + 1)
  {
  }

  // ---------------------------------------------------------------------------
  // Group arrays.

  /** The groups of a sequence and their slot arrays. */
  ghost function Objs(s: seq<Group>): set<object>
  {
    (set g | g in s :: g as object) + (set g | g in s :: g.slots as object)
  }

  /** An estimator and its group arrays are neither groups nor slot arrays. */
  lemma OutsideObjs(e: Estimator, s: seq<Group>)
    ensures e !in Objs(s) && e.groups !in Objs(s) && e.regions !in Objs(s)
  {
  }

  /** Every group is consistent, covers the processes and has a group type. */
  ghost predicate Healthy(s: seq<Group>, processes: nat)
    reads Objs(s)
  {
    forall g :: g in s ==> g.Valid() && g.processes == processes && g.kind < TYPE_NUM
  }

  lemma HealthyAt(s: seq<Group>, i: nat, processes: nat)
    requires Healthy(s, processes) && i < |s|
    ensures s[i].Valid() && s[i].processes == processes && s[i].kind < TYPE_NUM
  {
    assert s[i] in s;
  }

  ghost predicate Distinct(s: seq<Group>)
  {
    forall i, j :: 0 <= i < j < |s| ==> s[i] != s[j]
  }

  /** Different groups have different slot arrays. */
  ghost predicate OwnSlots(s: seq<Group>)
  {
    forall g, h :: g in s && h in s && g != h ==> g.slots != h.slots
  }

  /** Different groups have different types. */
  ghost predicate OwnKinds(s: seq<Group>)
  {
    forall g, h :: g in s && h in s && g != h ==> g.kind != h.kind
  }

  /** No group or slot array is shared between the two sequences. */
  ghost predicate Apart(s: seq<Group>, t: seq<Group>)
  {
    forall g, h :: g in s && h in t ==> g != h && g.slots != h.slots
  }

  /** The FLT group never receives a region. */
  ghost predicate FltEmpty(s: seq<Group>)
    reads set g | g in s
  {
    forall g :: g in s && g.kind == FLT ==> g.totalBuf == 0
  }

  /** The groups of m_groups: consistent, distinct, one per type, and FLT empty. */
  ghost predicate TypeGroups(s: seq<Group>, processes: nat)
    reads Objs(s)
  {
    Healthy(s, processes) && Distinct(s) && OwnSlots(s) && OwnKinds(s) && FltEmpty(s)
  }

  /** The groups of m_regions: consistent and distinct. */
  ghost predicate RegionGroups(s: seq<Group>, processes: nat)
    reads Objs(s)
  {
    Healthy(s, processes) && Distinct(s) && OwnSlots(s)
  }

  /** Ordered by largest per-process buffer, largest first. */
  ghost predicate SortedByMax(s: seq<Group>)
    reads set g | g in s :: g.slots
  {
    forall i, j :: 0 <= i < j < |s| ==> KeyOf(s[i]) >= KeyOf(s[j])
  }

  lemma {:induction false} CountDistinct(s: seq<Group>, g: Group)
    requires Distinct(s)
    ensures multiset(s)[g] <= 1
  {
    if |s| > 0 {
      var init := s[..|s| - 1];
      assert s == init + [s[|s| - 1]];
      assert Distinct(init);
      CountDistinct(init, g);
      if s[|s| - 1] == g {
        assert g !in init;
      }
    }
  }

  /** A rearrangement of distinct groups is distinct. */
  lemma DistinctPermuted(s0: seq<Group>, s1: seq<Group>)
    requires Distinct(s0) && multiset(s1) == multiset(s0)
    ensures Distinct(s1)
  {
    forall i, j | 0 <= i < j < |s1|
      ensures s1[i] != s1[j]
    {
      if s1[i] == s1[j] {
        var g := s1[i];
        assert s1 == s1[..j] + [g] + s1[j + 1..];
        assert g in s1[..j];
        assert multiset(s1)[g] >= 2 by {
          assert multiset(s1) == multiset(s1[..j]) + multiset{g} + multiset(s1[j + 1..]);
        }
        CountDistinct(s0, g);
      }
    }
  }

  /** Ranking every group by its key. */
  ghost function Ranks(s: seq<Group>): Ranking
    reads set g | g in s :: g.slots
  {
    map g | g in s :: KeyOf(g)
  }

  lemma RanksRank(s: seq<Group>)
    requires forall g :: g in s ==> g.Valid()
    ensures RankedBy(s, Ranks(s))
  {
  }

  lemma DescendingIsSorted(s: seq<Group>, r: Ranking)
    requires RankedBy(s, r)
    ensures Descending(s, r, 0, |s|) <==> SortedByMax(s)
  {
    assert forall i :: 0 <= i < |s| ==> RankedOne(s[i], r);
  }

  /** The slot arrays of an array of groups, as values. */
  ghost function SlotsOf(a: array<Group>): (table: seq<seq<nat>>)
    reads a, Objs(a[..])
    ensures |table| == a.Length && forall u :: 0 <= u < a.Length ==> table[u] == a[u].slots[..]
  {
    SlotsUpTo(a, a.Length)
  }

  /** The slot arrays of the first n groups. */
  ghost function SlotsUpTo(a: array<Group>, n: nat): (table: seq<seq<nat>>)
    requires n <= a.Length
    reads a, Objs(a[..])
    ensures |table| == n && forall u :: 0 <= u < n ==> table[u] == a[u].slots[..]
  {
    if n == 0 then []
    else
      assert a[n - 1] in a[..];
      SlotsUpTo(a, n - 1) + [a[n - 1].slots[..]]
  }

  /** The visit counts of an array of groups. */
  ghost function VisitsOf(a: array<Group>): (counts: seq<nat>)
    reads a, Objs(a[..])
    ensures |counts| == a.Length && forall u :: 0 <= u < a.Length ==> counts[u] == a[u].visits
  {
    VisitsUpTo(a, a.Length)
  }

  /** The visit counts of the first n groups. */
  ghost function VisitsUpTo(a: array<Group>, n: nat): (counts: seq<nat>)
    requires n <= a.Length
    reads a, Objs(a[..])
    ensures |counts| == n && forall u :: 0 <= u < n ==> counts[u] == a[u].visits
  {
    if n == 0 then []
    else
      assert a[n - 1] in a[..];
      VisitsUpTo(a, n - 1) + [a[n - 1].visits]
  }

  /** The slot tables and visit counts of the type groups a and the region groups b. */
  ghost function TalliesOf(a: array<Group>, b: array<Group>): Tallies
    reads a, b, Objs(a[..]), Objs(b[..])
  {
    Tallies(SlotsOf(a), VisitsOf(a), SlotsOf(b), VisitsOf(b))
  }

  /** Every row of the slot table covers the processes. */
  lemma SlotRows(a: array<Group>, processes: nat)
    requires Healthy(a[..], processes)
    ensures Rows(SlotsOf(a), processes)
  {
    assert forall u :: 0 <= u < a.Length ==> a[u] in a[..];
  }

  /** Apart is symmetric. */
  lemma ApartSym(s: seq<Group>, t: seq<Group>)
    requires Apart(s, t)
    ensures Apart(t, s)
  {
  }

  /**
   * Adds one process's visits to group t of an array, as addRegion does,
   * and states the effect on the whole array and on an array other whose
   * groups are apart from it.
   */
  method AddToGroup(a: array<Group>, other: array<Group>, t: nat, visits: nat, bytesPerVisit: nat, process: nat,
                    ghost processes: nat)
    requires t < a.Length && process < processes
    requires Healthy(a[..], processes) && Distinct(a[..]) && OwnSlots(a[..])
    requires Healthy(other[..], processes) && Apart(other[..], a[..])
    modifies a[t], a[t].slots
    ensures Healthy(a[..], processes) && Healthy(other[..], processes) && process < a[t].slots.Length
    ensures SlotsOf(a) == AddAt(old(SlotsOf(a)), t, process, visits * bytesPerVisit)
    ensures VisitsOf(a) == AddTo(old(VisitsOf(a)), t, visits)
    ensures SlotsOf(other) == old(SlotsOf(other)) && VisitsOf(other) == old(VisitsOf(other))
    ensures forall g :: g in a[..] && g != a[t] ==> g.totalBuf == old(g.totalBuf)
  {
    ghost var before, others, otherVisits := SlotsOf(a), SlotsOf(other), VisitsOf(other);
    assert a[t] in a[..];
    forall u | 0 <= u < other.Length
      ensures other[u] != a[t] && other[u].slots != a[t].slots
    {
      assert other[u] in other[..];
    }
    a[t].AddRegion(visits, bytesPerVisit, process);
    forall u | 0 <= u < a.Length && u != t
      ensures a[u] != a[t] && a[u].slots != a[t].slots
    {
      assert a[u] == a[..][u] && a[t] == a[..][t];
    }
    ghost var after := AddAt(before, t, process, visits * bytesPerVisit);
    forall u | 0 <= u < a.Length
      ensures SlotsOf(a)[u] == after[u]
    {
      assert forall q :: 0 <= q < |after[u]| ==> SlotsOf(a)[u][q] == after[u][q];
    }
    forall u | 0 <= u < other.Length
      ensures SlotsOf(other)[u] == others[u] && VisitsOf(other)[u] == otherVisits[u]
    {
    }
  }

  /**
   * One pass of the process loop of calculate for process p of a region
   * with visits w: a process with no visits is skipped; otherwise its entry
   * is recorded and addRegion runs on type group t, on ALL and, when
   * regions are shown, on region group r.
   */
  method DepositProcess(a: array<Group>, b: array<Group>, t: nat, r: nat, w: seq<nat>, bytes: nat, show: bool,
                        ghost processes: nat, p: nat, entries: ProcessBuffers) returns (next: ProcessBuffers)
    requires a.Length == TYPE_NUM && t < TYPE_NUM && p < |w| == processes && (show ==> r < b.Length)
    requires TypeGroups(a[..], processes) && RegionGroups(b[..], processes) && Apart(a[..], b[..])
    requires a[t].kind != FLT && a[ALL].kind != FLT
    requires entries == Entries(w, bytes, p)
    modifies a[t], a[t].slots, a[ALL], a[ALL].slots, if show then {b[r], b[r].slots} else {}
    ensures a[..] == old(a[..]) && b[..] == old(b[..])
    ensures TypeGroups(a[..], processes) && RegionGroups(b[..], processes)
    ensures next == Entries(w, bytes, p + 1)
    ensures TalliesOf(a, b) == Pass(old(TalliesOf(a, b)), t, r, w, bytes, show, p)
  {
    var visits := w[p];
    if visits == 0 {
      return entries;
    }
    EntriesByInsert(w, bytes, p);
    next := Insert(entries, p, Buffer(visits, bytes));
    AddVisits(a, b, t, r, p, visits, bytes, show, processes);
  }

  /** addRegion for one visiting process on type group t, on ALL and, when regions are shown, on region group r. */
  method AddVisits(a: array<Group>, b: array<Group>, t: nat, r: nat, p: nat, visits: nat, bytes: nat,
                   show: bool, ghost processes: nat)
    requires a.Length == TYPE_NUM && t < TYPE_NUM && p < processes && (show ==> r < b.Length)
    requires TypeGroups(a[..], processes) && RegionGroups(b[..], processes) && Apart(a[..], b[..])
    requires a[t].kind != FLT && a[ALL].kind != FLT
    modifies a[t], a[t].slots, a[ALL], a[ALL].slots, if show then {b[r], b[r].slots} else {}
    ensures a[..] == old(a[..]) && b[..] == old(b[..])
    ensures TypeGroups(a[..], processes) && RegionGroups(b[..], processes)
    ensures TalliesOf(a, b) == Credit(old(TalliesOf(a, b)), t, r, p, visits, bytes, show)
  {
    ApartSym(a[..], b[..]);
    AddToGroup(a, b, t, visits, bytes, p, processes);
    AddToGroup(a, b, ALL, visits, bytes, p, processes);
    if show {
      AddToGroup(b, a, r, visits, bytes, p, processes);
    }
  }

  /**
   * The process loop of calculate for one region with visits w and the
   * given bytes per visit: every process that visits it deposits into type
   * group t, into ALL and, when shown, into region group r; the visiting
   * processes' entries are collected in process order.
   */
  method DepositRegion(a: array<Group>, b: array<Group>, t: nat, r: nat, w: seq<nat>, bytes: nat,
                       show: bool, ghost processes: nat) returns (entries: ProcessBuffers)
    requires a.Length == TYPE_NUM && t < TYPE_NUM && |w| == processes && (show ==> r < b.Length)
    requires TypeGroups(a[..], processes) && RegionGroups(b[..], processes) && Apart(a[..], b[..])
    requires a[t].kind != FLT && a[ALL].kind != FLT
    modifies a[t], a[t].slots, a[ALL], a[ALL].slots, if show then {b[r], b[r].slots} else {}
    ensures a[..] == old(a[..]) && b[..] == old(b[..])
    ensures TypeGroups(a[..], processes) && RegionGroups(b[..], processes)
    ensures entries == Entries(w, bytes, |w|)
    ensures TalliesOf(a, b) == Deposit(old(TalliesOf(a, b)), t, r, w, bytes, show, |w|)
  {
    ghost var s0 := TalliesOf(a, b);
    ghost var a0, b0 := a[..], b[..];
    entries := [];
    for p: nat := 0 to |w|
      invariant a[..] == a0 && b[..] == b0
      invariant TypeGroups(a0, processes) && RegionGroups(b0, processes)
      invariant entries == Entries(w, bytes, p)
      invariant TalliesOf(a, b) == Deposit(s0, t, r, w, bytes, show, p)
    {
      entries := DepositProcess(a, b, t, r, w, bytes, show, processes, p, entries);
    }
  }

  // ---------------------------------------------------------------------------

  class Estimator {
    const profile: Profile
    const denseNum: nat
    const regionNum: nat
    const processNum: nat
    /** The region types, as the profile's constructor left them. */
    const types: seq<nat>
    /** The event registry with the oracle's sizes. */
    var catalog: Catalog
    /** m_groups: one group per type, indexed by type until the first sort. */
    const groups: array<Group>
    /** m_regions: one group per region once calculate has shown regions. */
    var regions: array<Group>
    var hasRegions: bool

    ghost predicate Valid()
      reads this, groups, regions, Objs(groups[..]), Objs(regions[..])
    {
      profile.WellFormed() && regionNum == |profile.regionNames| && processNum == profile.processNum &&
      |types| == regionNum && RegionTyped(types) && Ordered(catalog) &&
      groups.Length == TYPE_NUM && groups != regions &&
      TypeGroups(groups[..], processNum) && RegionGroups(regions[..], processNum) && Apart(groups[..], regions[..]) &&
      (hasRegions ==> regions.Length == regionNum)
    }

    /** Position t holds the group of type t, as after the constructor. */
    ghost predicate InTypeOrder()
      reads this, groups
    {
      groups.Length == TYPE_NUM && forall t :: 0 <= t < TYPE_NUM ==> groups[t].kind == t
    }

    /** The bytes per visit of every region under the current catalog. */
    ghost function Costs(): seq<nat>
      reads this
    {
      CostsOf(catalog, profile.regionNames)
    }

    /**
     * Registers the events into the process-wide registry (which may hold
     * events from an earlier estimator), asks the oracle for their sizes and
     * creates one empty group per type.
     */
    constructor (profile: Profile, denseNum: nat, registry: Catalog, oracle: string -> Option<string>)
      requires profile.Valid() && Ordered(registry)
      ensures Valid() && InTypeOrder() && !hasRegions && regions.Length == 0
      ensures this.profile == profile && this.denseNum == denseNum && types == profile.regionTypes[..]
      ensures catalog == EventSizes(RegisterAll(registry, EstimatorEvents(denseNum)),
                                    |profile.regionNames|, profile.metricNum, oracle)
      ensures fresh(groups) && forall t :: 0 <= t < TYPE_NUM ==> fresh(groups[t]) && fresh(groups[t].slots)
      ensures forall t :: 0 <= t < TYPE_NUM ==>
        groups[t].kind == t && groups[t].name == GetTypeName(t) && groups[t].slots[..] == Zeros(processNum) && groups[t].visits == 0
    {
      this.profile := profile;
      this.denseNum := denseNum;
      regionNum := |profile.regionNames|;
      processNum := profile.processNum;
      types := profile.regionTypes[..];
      ValidProfileTypes(profile);
      var none := new Group[0];
      assert none[..] == [];
      regions := none;
      hasRegions := false;
      var sized := Estimator.BuildCatalog(registry, denseNum, |profile.regionNames|, profile.metricNum, oracle);
      catalog := sized;
      var made := Estimator.NewTypeGroups(profile.processNum);
      groups := made;
    }

    /** The constructor's registrations into the registry, then the oracle's sizes. */
    static method BuildCatalog(registry: Catalog, denseNum: nat, regionNum: nat, metricNum: nat,
                               oracle: string -> Option<string>) returns (sized: Catalog)
      requires Ordered(registry)
      ensures sized == EventSizes(RegisterAll(registry, EstimatorEvents(denseNum)), regionNum, metricNum, oracle)
      ensures Ordered(sized)
    {
      RegisterAllOrdered(registry, EstimatorEvents(denseNum));
      sized := Estimator.CalculateEventSizes(RegisterAll(registry, EstimatorEvents(denseNum)), regionNum, metricNum, oracle);
    }

    /** One empty group per type, in type order. */
    static method NewTypeGroups(processes: nat) returns (made: array<Group>)
      ensures fresh(made) && made.Length == TYPE_NUM && TypeGroups(made[..], processes)
      ensures forall t :: 0 <= t < TYPE_NUM ==> fresh(made[t]) && fresh(made[t].slots)
      ensures forall t :: 0 <= t < TYPE_NUM ==>
        made[t].kind == t && made[t].name == GetTypeName(t) && made[t].slots[..] == Zeros(processes) && made[t].visits == 0
    {
      var built := Estimator.TypeGroupList(processes);
      ListFacts(built, processes);
      forall g, h | g in built && h in built && g != h
        ensures g.kind != h.kind
      {
        var i :| 0 <= i < |built| && built[i] == g;
        var j :| 0 <= j < |built| && built[j] == h;
      }
      made := new Group[TYPE_NUM](i requires 0 <= i < |built| => built[i]);
      assert made[..] == built;
    }

    static method TypeGroupList(processes: nat) returns (built: seq<Group>)
      ensures |built| == TYPE_NUM
      ensures forall u :: 0 <= u < TYPE_NUM ==> fresh(built[u]) && fresh(built[u].slots)
      ensures forall u :: 0 <= u < TYPE_NUM ==> built[u].Valid() && built[u].kind == u && built[u].processes == processes
      ensures forall u :: 0 <= u < TYPE_NUM ==>
        built[u].slots[..] == Zeros(processes) && built[u].visits == 0 && built[u].totalBuf == 0 && built[u].name == GetTypeName(u)
      ensures forall u, v :: 0 <= u < v < TYPE_NUM ==> built[u] != built[v] && built[u].slots != built[v].slots
    {
      built := [];
      for t := 0 to TYPE_NUM
        invariant |built| == t && forall u :: 0 <= u < t ==> fresh(built[u]) && fresh(built[u].slots)
        invariant forall u :: 0 <= u < t ==> built[u].Valid() && built[u].kind == u && built[u].processes == processes
        invariant forall u :: 0 <= u < t ==>
          built[u].slots[..] == Zeros(processes) && built[u].visits == 0 && built[u].totalBuf == 0 && built[u].name == GetTypeName(u)
        invariant forall u, v :: 0 <= u < v < t ==> built[u] != built[v] && built[u].slots != built[v].slots
      {
        var g := new Group(t, processes, GetTypeName(t));
        built := built + [g];
      }
    }

    /** One empty group per region, with the region's type and names. */
    static method NewRegionGroups(types: seq<nat>, names: seq<string>, mangled: seq<string>, processes: nat)
      returns (made: array<Group>)
      requires |types| == |names| == |mangled| && RegionTyped(types)
      ensures fresh(made) && made.Length == |types|
      ensures forall u :: 0 <= u < made.Length ==> fresh(made[u]) && fresh(made[u].slots)
      ensures RegionGroups(made[..], processes) && Rows(SlotsOf(made), processes)
      ensures ZeroRegions(Tallies([], [], SlotsOf(made), VisitsOf(made)), |types|, processes)
      ensures forall r :: 0 <= r < made.Length ==>
        made[r].kind == types[r] && made[r].name == names[r] && made[r].mangledName == mangled[r]
    {
      var built: seq<Group> := [];
      for r := 0 to |types|
        invariant |built| == r && forall u :: 0 <= u < r ==> fresh(built[u]) && fresh(built[u].slots)
        invariant forall u :: 0 <= u < r ==> built[u].Valid() && built[u].processes == processes
        invariant forall u :: 0 <= u < r ==> built[u].kind == types[u] && built[u].name == names[u]
        invariant forall u :: 0 <= u < r ==> built[u].mangledName == mangled[u]
        invariant forall u :: 0 <= u < r ==> built[u].slots[..] == Zeros(processes) && built[u].visits == 0
        invariant forall u, v :: 0 <= u < v < r ==> built[u] != built[v] && built[u].slots != built[v].slots
      {
        var g := new Group.WithMangledName(types[r], processes, names[r], mangled[r]);
        built := built + [g];
      }
      ListFacts(built, processes);
      made := new Group[|types|](i requires 0 <= i < |built| => built[i]);
      assert made[..] == built;
      SlotRows(made, processes);
    }

    /** The oracle round trip: builds the request, applies the answer line by line. */
    static method CalculateEventSizes(c: Catalog, regionNum: nat, metricNum: nat, oracle: string -> Option<string>)
      returns (sized: Catalog)
      requires Ordered(c)
      ensures sized == EventSizes(c, regionNum, metricNum, oracle) && Ordered(sized)
    {
      var request := Request(regionNum, metricNum, c);
      var answer := oracle(request);
      if answer.None? {
        return c;
      }
      var lines := SplitLines(answer.value);
      sized := c;
      for i := 0 to |lines|
        invariant sized == ApplyResponse(c, lines[..i])
      {
        assert lines[..i + 1][..i] == lines[..i];
        var decoded := DecodeLine(lines[i]);
        if decoded.Some? {
          sized := SetEventSize(sized, decoded.value.0, decoded.value.1 % UINT32);
        }
      }
      assert lines[..|lines|] == lines;
      ApplyResponseKeepsOrder(c, lines);
    }

    /** initialize_regions: one empty group per region, with the region's type and names. */
    method InitializeRegions(useMangled: bool)
      requires Valid()
      modifies this
      ensures Valid() && hasRegions && regions.Length == regionNum
      ensures fresh(regions) && forall r :: 0 <= r < regionNum ==> fresh(regions[r]) && fresh(regions[r].slots)
      ensures catalog == old(catalog)
      ensures forall r :: 0 <= r < regionNum ==>
        regions[r].kind == types[r] && regions[r].name == profile.regionNames[r] &&
        regions[r].mangledName == profile.mangledNames[r]
      ensures TalliesOf(groups, regions) == Prepared(old(TalliesOf(groups, regions)), true, regionNum, processNum)
    {
      ghost var s0 := TalliesOf(groups, regions);
      var made := Estimator.NewRegionGroups(types, profile.regionNames, profile.mangledNames, processNum);
      forall g, h | g in groups[..] && h in made[..]
        ensures g != h && g.slots != h.slots
      {
      }
      regions := made;
      hasRegions := true;
      ZeroRegionsPrepared(s0, TalliesOf(groups, regions), regionNum, processNum);
    }

    /**
     * calculate: with showRegions, first one empty group per region; then
     * every region's bytes per visit times each process's visits is added
     * to the region's type group, to ALL and to the region's group, and
     * the regions some process visits get their per-process entries in the
     * buffer under their name.
     */
    method Calculate(showRegions: bool, useMangled: bool, buffer: BufferData) returns (result: BufferData)
      requires Valid() && InTypeOrder()
      modifies this, Objs(groups[..]), Objs(regions[..])
      ensures Valid() && InTypeOrder() && catalog == old(catalog) && (showRegions ==> hasRegions)
      ensures !showRegions ==> regions == old(regions) && hasRegions == old(hasRegions)
      ensures showRegions ==> fresh(regions) && forall r :: 0 <= r < regionNum ==>
        regions[r].kind == types[r] && regions[r].name == profile.regionNames[r] &&
        regions[r].mangledName == profile.mangledNames[r]
      ensures TalliesOf(groups, regions) ==
        Account(Prepared(old(TalliesOf(groups, regions)), showRegions, regionNum, processNum), profile.visits, Costs(),
                types, showRegions, regionNum)
      ensures result == BufferAfter(buffer, profile.regionNames, profile.visits, Costs(), regionNum)
    {
      ghost var s0 := TalliesOf(groups, regions);
      if showRegions {
        InitializeRegions(useMangled);
      }
      OutsideObjs(this, groups[..]);
      OutsideObjs(this, regions[..]);
      result := Tally(showRegions, buffer);
    }

    /** The region loop of calculate on the estimator's own groups. */
    method Tally(showRegions: bool, buffer: BufferData) returns (result: BufferData)
      requires Valid() && InTypeOrder() && (showRegions ==> hasRegions)
      modifies Objs(groups[..]), Objs(regions[..])
      ensures Valid() && InTypeOrder()
      ensures TalliesOf(groups, regions) ==
        Account(old(TalliesOf(groups, regions)), profile.visits, Costs(), types, showRegions, regionNum)
      ensures result == BufferAfter(buffer, profile.regionNames, profile.visits, Costs(), regionNum)
    {
      OutsideObjs(this, groups[..]);
      OutsideObjs(this, regions[..]);
      assert Laid(groups, regions, processNum);
      result := TallyRegions(groups, regions, catalog, profile.regionNames, profile.visits, types, showRegions,
                             processNum, buffer);
    }

    /**
     * updateMemory: the memory requirement for a given largest buffer, from
     * the profile's size, process, metric and location counts.
     */
    method UpdateMemory(maxBuf: nat) returns (memory: nat)
      requires profile.WellFormed() && profile.processNum * profile.metricNum > 0
      ensures memory == TotalMemory(maxBuf, profile.fileSize, profile.processNum, profile.metricNum,
                                    MaxOf(profile.locations))
    {
      var value := TWO_MIB;
      var request := profile.fileSize / (profile.processNum * profile.metricNum);
      request := maxBuf + request;
      request := if value > request then value else request;
      var locations := profile.GetMaxNumberOfLocationsPerProcess();
      memory := request + value * locations;
    }

    /**
     * getSizes: the total and the largest per-process buffer of the group
     * at position ALL, and the memory requirement for that largest buffer.
     */
    method GetSizes() returns (sizes: Sizes)
      requires Valid() && profile.processNum * profile.metricNum > 0
      ensures sizes.traceSize == Sum(groups[ALL].slots[..])
      ensures sizes.maxBuf == MaxOf(groups[ALL].slots[..]) && sizes.maxBuf <= sizes.traceSize
      ensures sizes.totalMemory == TotalMemory(sizes.maxBuf, profile.fileSize, profile.processNum, profile.metricNum,
                                               MaxOf(profile.locations))
    {
      var all := groups[ALL];
      assert all in groups[..];
      var maxBuf := all.GetMaxTraceBufferSize();
      var traceSize := all.GetTotalTraceBufferSize();
      var memory := UpdateMemory(maxBuf);
      sizes := Sizes(traceSize, maxBuf, memory);
    }

    /** The quicksort of the type groups that getGroupInformation starts with. */
    method SortTypeGroups()
      requires Valid()
      modifies groups
      ensures Valid()
      ensures multiset(groups[..]) == multiset(old(groups[..])) && SortedByMax(groups[..])
      ensures SortedByMax(old(groups[..])) ==> groups[..] == old(groups[..])
    {
      OutsideObjs(this, groups[..]);
      OutsideObjs(this, regions[..]);
      SortGroups(groups, processNum);
      TypeGroupsPermuted(old(groups[..]), groups[..], regions[..], processNum);
    }

    /** The quicksort of the region groups that getRegionInformation starts with. */
    method SortRegionGroups()
      requires Valid()
      modifies regions
      ensures Valid()
      ensures multiset(regions[..]) == multiset(old(regions[..])) && SortedByMax(regions[..])
      ensures SortedByMax(old(regions[..])) ==> regions[..] == old(regions[..])
    {
      OutsideObjs(this, groups[..]);
      OutsideObjs(this, regions[..]);
      SortGroups(regions, processNum);
      RegionGroupsPermuted(old(regions[..]), regions[..], groups[..], processNum);
    }

    /**
     * getGroupInformation: sorts the type groups, then reports the one at
     * the given position as an included row keyed by that position.
     */
    method GetGroupInformation(number: nat) returns (row: GroupRow)
      requires Valid() && number < TYPE_NUM
      modifies groups
      ensures Valid()
      ensures multiset(groups[..]) == multiset(old(groups[..])) && SortedByMax(groups[..])
      ensures SortedByMax(old(groups[..])) ==> groups[..] == old(groups[..])
      ensures groups[number].kind < TYPE_NUM && row == GroupRowOf(SummaryOf(groups[number], false), number)
    {
      SortTypeGroups();
      var g := groups[number];
      HealthyAt(groups[..], number, processNum);
      var d := g.GetGroupData();
      row := GroupRowOf(d, number);
    }

    /**
     * getRegionInformation: sorts the region groups, then reports the one
     * at the given position as an included row keyed by that position.
     */
    method GetRegionInformation(number: nat) returns (row: RegionRow)
      requires Valid() && hasRegions && number < regionNum
      modifies regions
      ensures Valid()
      ensures multiset(regions[..]) == multiset(old(regions[..])) && SortedByMax(regions[..])
      ensures SortedByMax(old(regions[..])) ==> regions[..] == old(regions[..])
      ensures regions[number].kind < TYPE_NUM && row == RegionRowOf(SummaryOf(regions[number], true), number)
    {
      SortRegionGroups();
      var g := regions[number];
      HealthyAt(regions[..], number, processNum);
      var d := g.GetRegionData();
      row := RegionRowOf(d, number);
    }
  }

  /**
   * What getGroupData / getRegionData report for a group: nothing (maxBuf
   * -1) for an empty group, otherwise its type name, largest per-process
   * buffer, visits and names; the mangled name only for a region.
   */
  ghost function SummaryOf(g: Group, withMangled: bool): Summary
    reads g, g.slots
    requires g.kind < TYPE_NUM
  {
    if g.totalBuf == 0 then ABSENT
    else Summary(GetTypeName(g.kind), MaxOf(g.slots[..]), g.visits, g.name, if withMangled then g.mangledName else "")
  }

  /** The group row of a summary: included, keyed by its position. */
  function GroupRowOf(d: Summary, key: nat): GroupRow
  {
    GroupRow(INCLUDED, key, d.typeName, d.maxBuf, d.visits, d.region)
  }

  /** The region row of a summary: included, keyed by its position. */
  function RegionRowOf(d: Summary, key: nat): RegionRow
  {
    RegionRow(true, key, d.typeName, d.maxBuf, d.visits, d.region, d.mangledName)
  }

  /**
   * quicksort over a whole array of groups: afterwards it holds the same
   * groups, largest maximum first, and an array already in that order is
   * left as it was.
   */
  method SortGroups(a: array<Group>, ghost processes: nat)
    requires Healthy(a[..], processes)
    modifies a
    ensures multiset(a[..]) == multiset(old(a[..]))
    ensures SortedByMax(a[..])
    ensures SortedByMax(old(a[..])) ==> a[..] == old(a[..])
  {
    ghost var a0 := a[..];
    ghost var r := Ranks(a0);
    RanksRank(a0);
    Quicksort(a, 0, a.Length, r);
    PermutedKeepsMembers(a0, a[..], 0, a.Length);
    RankedByPermuted(a0, a[..], r);
    DescendingIsSorted(a[..], r);
    DescendingIsSorted(a0, r);
  }

  /** Rearranging the type groups keeps them type groups, apart from the region groups. */
  lemma TypeGroupsPermuted(s0: seq<Group>, s1: seq<Group>, other: seq<Group>, processes: nat)
    requires TypeGroups(s0, processes) && Apart(s0, other) && multiset(s1) == multiset(s0)
    ensures TypeGroups(s1, processes) && Apart(s1, other) && |s1| == |s0|
  {
    assert forall g :: g in s1 <==> g in multiset(s1);
    assert forall g :: g in s0 <==> g in multiset(s0);
    DistinctPermuted(s0, s1);
    assert |s1| == |multiset(s1)|;
  }

  /** Rearranging the region groups keeps them region groups, apart from the type groups. */
  lemma RegionGroupsPermuted(s0: seq<Group>, s1: seq<Group>, other: seq<Group>, processes: nat)
    requires RegionGroups(s0, processes) && Apart(other, s0) && multiset(s1) == multiset(s0)
    ensures RegionGroups(s1, processes) && Apart(other, s1) && |s1| == |s0|
  {
    assert forall g :: g in s1 <==> g in multiset(s1);
    assert forall g :: g in s0 <==> g in multiset(s0);
    DistinctPermuted(s0, s1);
    assert |s1| == |multiset(s1)|;
  }

  /** get_bytes_per_visit: the sizes of the events occurring in the region. */
  method BytesPerVisitOf(catalog: Catalog, name: string) returns (bytes: nat)
    ensures bytes == BytesPerVisit(catalog, name)
  {
    bytes := 0;
    for i := 0 to |catalog|
      invariant bytes == BytesPerVisit(catalog[..i], name)
    {
      assert catalog[..i + 1][..i] == catalog[..i];
      if OccursInRegion(catalog[i], name) {
        bytes := bytes + catalog[i].size;
      }
    }
    assert catalog[..|catalog|] == catalog;
  }

  /** Type groups a in type order beside region groups b, none of them shared. */
  ghost predicate Laid(a: array<Group>, b: array<Group>, processes: nat)
    reads a, b, Objs(a[..]), Objs(b[..])
  {
    a.Length == TYPE_NUM && (forall t :: 0 <= t < TYPE_NUM ==> a[t].kind == t) &&
    TypeGroups(a[..], processes) && RegionGroups(b[..], processes) && Apart(a[..], b[..])
  }

  /**
   * The region loop of calculate over type groups a and region groups b:
   * every region's visits go into the tallies and, where some process
   * visits it, its entries into the buffer.
   */
  method TallyRegions(a: array<Group>, b: array<Group>, catalog: Catalog, names: seq<string>, visits: seq<seq<nat>>,
                      types: seq<nat>, show: bool, ghost processes: nat, buffer: BufferData) returns (result: BufferData)
    requires |names| == |visits| == |types| && RegionTyped(types) && Rows(visits, processes)
    requires Laid(a, b, processes) && (show ==> b.Length == |names|)
    modifies Objs(a[..]), Objs(b[..])
    ensures a[..] == old(a[..]) && b[..] == old(b[..]) && Laid(a, b, processes)
    ensures TalliesOf(a, b) == Account(old(TalliesOf(a, b)), visits, CostsOf(catalog, names), types, show, |visits|)
    ensures result == BufferAfter(buffer, names, visits, CostsOf(catalog, names), |visits|)
  {
    ghost var s0 := TalliesOf(a, b);
    ghost var a0, b0 := a[..], b[..];
    ghost var costs := CostsOf(catalog, names);
    result := buffer;
    for region: nat := 0 to |visits|
      invariant a[..] == a0 && b[..] == b0 && Laid(a, b, processes)
      invariant TalliesOf(a, b) == Account(s0, visits, costs, types, show, region)
      invariant result == BufferAfter(buffer, names, visits, costs, region)
    {
      result := TallyStep(a, b, catalog, names, visits, types, show, processes, region, s0, result, buffer);
    }
  }

  /** One pass of the region loop of calculate, from the tallies and buffer before region to those after it. */
  method TallyStep(a: array<Group>, b: array<Group>, catalog: Catalog, names: seq<string>, visits: seq<seq<nat>>,
                   types: seq<nat>, show: bool, ghost processes: nat, region: nat, ghost s0: Tallies,
                   result: BufferData, ghost buffer: BufferData) returns (next: BufferData)
    requires region < |names| == |visits| == |types| && RegionTyped(types) && Rows(visits, processes)
    requires Laid(a, b, processes) && (show ==> b.Length == |names|)
    requires TalliesOf(a, b) == Account(s0, visits, CostsOf(catalog, names), types, show, region)
    requires result == BufferAfter(buffer, names, visits, CostsOf(catalog, names), region)
    modifies Objs(a[..]), Objs(b[..])
    ensures a[..] == old(a[..]) && b[..] == old(b[..]) && Laid(a, b, processes)
    ensures TalliesOf(a, b) == Account(s0, visits, CostsOf(catalog, names), types, show, region + 1)
    ensures next == BufferAfter(buffer, names, visits, CostsOf(catalog, names), region + 1)
  {
    ghost var costs := CostsOf(catalog, names);
    assert a[types[region]] in a[..] && a[ALL] in a[..] && (show ==> b[region] in b[..]);
    assert costs[region] == BytesPerVisit(catalog, names[region]);
    next := TallyRegion(a, b, catalog, names, visits, types, show, processes, region, result);
  }

  /** One region of the loop: its bytes per visit, its deposit and its buffer entries. */
  method TallyRegion(a: array<Group>, b: array<Group>, catalog: Catalog, names: seq<string>, visits: seq<seq<nat>>,
                     types: seq<nat>, show: bool, ghost processes: nat, region: nat, result: BufferData)
    returns (next: BufferData)
    requires region < |names| == |visits| == |types| && RegionTyped(types) && Rows(visits, processes)
    requires Laid(a, b, processes) && (show ==> b.Length == |names|)
    modifies a[types[region]], a[types[region]].slots, a[ALL], a[ALL].slots,
             if show then {b[region], b[region].slots} else {}
    ensures a[..] == old(a[..]) && b[..] == old(b[..]) && Laid(a, b, processes)
    ensures TalliesOf(a, b) == Deposit(old(TalliesOf(a, b)), types[region], region, visits[region],
                                       BytesPerVisit(catalog, names[region]), show, |visits[region]|)
    ensures var e := Entries(visits[region], BytesPerVisit(catalog, names[region]), |visits[region]|);
      next == if |e| == 0 then result else Insert(result, names[region], e)
  {
    var bytes := BytesPerVisitOf(catalog, names[region]);
    assert TalliesOf(a, b) == old(TalliesOf(a, b));
    var entries := DepositRegion(a, b, types[region], region, visits[region], bytes, show, processes);
    if |entries| != 0 {
      next := Insert(result, names[region], entries);
    } else {
      next := result;
    }
  }

  /** A valid profile gives every region one of the region types. */
  lemma ValidProfileTypes(profile: Profile)
    requires profile.Valid()
    ensures RegionTyped(profile.regionTypes[..])
  {
  }

  /** Groups built one by one are consistent, distinct and own their slot arrays. */
  lemma ListFacts(made: seq<Group>, processes: nat)
    requires forall u :: 0 <= u < |made| ==> made[u].Valid() && made[u].processes == processes && made[u].kind < TYPE_NUM
    requires forall u, v :: 0 <= u < v < |made| ==> made[u] != made[v] && made[u].slots != made[v].slots
    ensures Healthy(made, processes) && Distinct(made) && OwnSlots(made)
  {
    forall g, h | g in made && h in made && g != h
      ensures g.slots != h.slots
    {
      var i :| 0 <= i < |made| && made[i] == g;
      var j :| 0 <= j < |made| && made[j] == h;
    }
  }
}
