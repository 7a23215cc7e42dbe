/**
 * What calculate adds up, stated over the profile's tables: the bytes per
 * visit of a region, the bytes and visits each group type receives, and
 * the per-region buffer entries handed to the connector.
 */
module Accounting {
  import opened Util
  import opened ScoreTypes
  import opened ScoreEvent
  import opened DataCenter

  /** The sizes of the events that occur in a region, summed in catalog order. */
  function BytesPerVisit(c: Catalog, name: string): (bytes: nat)
    ensures (forall i :: 0 <= i < |c| ==> !OccursInRegion(c[i], name)) ==> bytes == 0
  {
    if |c| == 0 then 0
    else BytesPerVisit(c[..|c| - 1], name) + (if OccursInRegion(c[|c| - 1], name) then c[|c| - 1].size else 0)
  }

  /** Every occurring event's size is part of the cost, and the cost is 0 exactly when they all are 0. */
  lemma {:induction false} BytesPerVisitBounds(c: Catalog, name: string)
    ensures forall i :: 0 <= i < |c| && OccursInRegion(c[i], name) ==> c[i].size <= BytesPerVisit(c, name)
    ensures BytesPerVisit(c, name) == 0 <==> forall i :: 0 <= i < |c| && OccursInRegion(c[i], name) ==> c[i].size == 0
  {
    if |c| > 0 {
      var init := c[..|c| - 1];
      BytesPerVisitBounds(init, name);
      assert forall i :: 0 <= i < |init| ==> init[i] == c[i];
    }
  }

  /** The cost of every region of a name table. */
  function CostsOf(c: Catalog, names: seq<string>): (costs: seq<nat>)
    ensures |costs| == |names|
    ensures forall r :: 0 <= r < |names| ==> costs[r] == BytesPerVisit(c, names[r])
  {
    seq(|names|, r requires 0 <= r < |names| => BytesPerVisit(c, names[r]))
  }

  /**
   * What a region contributes to group type t: its figure w once for its
   * own group and once more for ALL.
   */
  function Contribution(types: seq<nat>, r: nat, t: nat, w: nat): nat
    requires r < |types|
  {
    (if types[r] == t then w else 0) + (if t == ALL then w else 0)
  }

  /**
   * A table with x added at row t, column p: what addRegion does to the
   * slots of group t (a position outside the table changes nothing).
   */
  function AddAt(table: seq<seq<nat>>, t: nat, p: nat, x: nat): (r: seq<seq<nat>>)
    ensures |r| == |table| && forall u :: 0 <= u < |r| ==> |r[u]| == |table[u]|
    ensures forall u, q :: 0 <= u < |r| && 0 <= q < |r[u]| ==> r[u][q] == table[u][q] + (if u == t && q == p then x else 0)
  {
    if t < |table| && p < |table[t]| then
      var row: seq<nat> := table[t][p := table[t][p] + x];
      table[t := row]
    else table
  }

  /** x added at column p of row t and of row ALL: what addRegion on a type group and on ALL does. */
  function Spread(table: seq<seq<nat>>, t: nat, p: nat, x: nat): (r: seq<seq<nat>>)
    ensures |r| == |table| && forall u :: 0 <= u < |r| ==> |r[u]| == |table[u]|
    ensures forall u, q :: 0 <= u < |r| && 0 <= q < |r[u]| ==>
      r[u][q] == table[u][q] + (if q == p then (if u == t then x else 0) + (if u == ALL then x else 0) else 0)
  {
    AddAt(AddAt(table, t, p, x), ALL, p, x)
  }

  /** A count list with x added at position t: what addRegion does to the visits of group t. */
  function AddTo(counts: seq<nat>, t: nat, x: nat): (r: seq<nat>)
    ensures |r| == |counts| && forall u :: 0 <= u < |r| ==> r[u] == counts[u] + (if u == t then x else 0)
  {
    if t < |counts| then counts[t := counts[t] + x] else counts
  }

  /** The profile's visit table, costs and types describe the same regions and processes. */
  ghost predicate Tables(visits: seq<seq<nat>>, costs: seq<nat>, types: seq<nat>, processes: nat)
  {
    |visits| == |costs| == |types| && forall r :: 0 <= r < |visits| ==> |visits[r]| == processes
  }

  /** The bytes group type t holds for process p after the first n regions. */
  function GroupBytes(visits: seq<seq<nat>>, costs: seq<nat>, types: seq<nat>, t: nat, p: nat, n: nat): nat
    requires n <= |visits| == |costs| == |types|
    requires forall r :: 0 <= r < n ==> p < |visits[r]|
  {
    if n == 0 then 0
    else GroupBytes(visits, costs, types, t, p, n - 1) + Contribution(types, n - 1, t, visits[n - 1][p] * costs[n - 1])
  }

  /** The visits group type t holds after the first n regions. */
  function GroupVisits(visits: seq<seq<nat>>, types: seq<nat>, t: nat, n: nat): nat
    requires n <= |visits| == |types|
  {
    if n == 0 then 0
    else GroupVisits(visits, types, t, n - 1) + Contribution(types, n - 1, t, Sum(visits[n - 1]))
  }

  /** Every row of a table has n columns. */
  ghost predicate Rows(table: seq<seq<nat>>, n: nat)
  {
    forall u :: 0 <= u < |table| ==> |table[u]| == n
  }

  /**
   * What the groups of the estimator hold, as values: the slot table and
   * the visit counts of the type groups and of the region groups.
   */
  datatype Tallies = Tallies(typeSlots: seq<seq<nat>>, typeVisits: seq<nat>,
                             regionSlots: seq<seq<nat>>, regionVisits: seq<nat>)

  /** Both tallies have the same numbers of groups and of processes per group. */
  ghost predicate SameShape(s: Tallies, r: Tallies)
  {
    |r.typeSlots| == |s.typeSlots| && (forall u :: 0 <= u < |s.typeSlots| ==> |r.typeSlots[u]| == |s.typeSlots[u]|) &&
    |r.regionSlots| == |s.regionSlots| && (forall u :: 0 <= u < |s.regionSlots| ==> |r.regionSlots[u]| == |s.regionSlots[u]|) &&
    |r.typeVisits| == |s.typeVisits| && |r.regionVisits| == |s.regionVisits|
  }

  /**
   * One visiting process p with v visits at the given cost: addRegion on
   * type group t, on ALL and, when regions are shown, on region group r.
   */
  function Credit(s: Tallies, t: nat, r: nat, p: nat, v: nat, cost: nat, show: bool): (c: Tallies)
    ensures SameShape(s, c)
  {
    Tallies(Spread(s.typeSlots, t, p, v * cost),
            AddTo(AddTo(s.typeVisits, t, v), ALL, v),
            if show then AddAt(s.regionSlots, r, p, v * cost) else s.regionSlots,
            if show then AddTo(s.regionVisits, r, v) else s.regionVisits)
  }

  /**
   * The process loop of calculate for region r of type t with visits w,
   * over the processes below n: those with no visits are skipped.
   */
  function Deposit(s: Tallies, t: nat, r: nat, w: seq<nat>, cost: nat, show: bool, n: nat): (d: Tallies)
    requires n <= |w|
    ensures SameShape(s, d)
  {
    if n == 0 then s else Pass(Deposit(s, t, r, w, cost, show, n - 1), t, r, w, cost, show, n - 1)
  }

  /** One pass of that loop, for process p. */
  function Pass(s: Tallies, t: nat, r: nat, w: seq<nat>, cost: nat, show: bool, p: nat): (d: Tallies)
    requires p < |w|
    ensures SameShape(s, d)
  {
    if w[p] == 0 then s else Credit(s, t, r, p, w[p], cost, show)
  }

  /** The region loop of calculate over the first n regions. */
  function Account(s: Tallies, visits: seq<seq<nat>>, costs: seq<nat>, types: seq<nat>, show: bool, n: nat): (a: Tallies)
    requires n <= |visits| == |costs| == |types|
    ensures SameShape(s, a)
  {
    if n == 0 then s
    else Deposit(Account(s, visits, costs, types, show, n - 1), types[n - 1], n - 1, visits[n - 1], costs[n - 1], show,
                 |visits[n - 1]|)
  }

  /** After the processes below n, every slot of type group t and of ALL has gained that process's visits times the cost. */
  lemma {:induction false} DepositTypeSlots(s: Tallies, t: nat, r: nat, w: seq<nat>, cost: nat, show: bool, n: nat)
    requires n <= |w|
    ensures forall u, q {:trigger Deposit(s, t, r, w, cost, show, n).typeSlots[u][q]} ::
      0 <= u < |s.typeSlots| && 0 <= q < |s.typeSlots[u]| ==>
      Deposit(s, t, r, w, cost, show, n).typeSlots[u][q] ==
      s.typeSlots[u][q] + (if q < n then (if u == t then w[q] * cost else 0) + (if u == ALL then w[q] * cost else 0) else 0)
  {
    if n > 0 {
      DepositTypeSlots(s, t, r, w, cost, show, n - 1);
      PassTypeSlots(Deposit(s, t, r, w, cost, show, n - 1), t, r, w, cost, show, n - 1);
    }
  }

  lemma PassTypeSlots(s: Tallies, t: nat, r: nat, w: seq<nat>, cost: nat, show: bool, p: nat)
    requires p < |w|
    ensures forall u, q {:trigger Pass(s, t, r, w, cost, show, p).typeSlots[u][q]} ::
      0 <= u < |s.typeSlots| && 0 <= q < |s.typeSlots[u]| ==>
      Pass(s, t, r, w, cost, show, p).typeSlots[u][q] ==
      s.typeSlots[u][q] + (if q == p then (if u == t then w[p] * cost else 0) + (if u == ALL then w[p] * cost else 0) else 0)
  {
  }

  /** After the processes below n, type group t and ALL count all their visits. */
  lemma {:induction false} DepositTypeVisits(s: Tallies, t: nat, r: nat, w: seq<nat>, cost: nat, show: bool, n: nat)
    requires n <= |w|
    ensures forall u {:trigger Deposit(s, t, r, w, cost, show, n).typeVisits[u]} :: 0 <= u < |s.typeVisits| ==>
      Deposit(s, t, r, w, cost, show, n).typeVisits[u] ==
      s.typeVisits[u] + (if u == t then Sum(w[..n]) else 0) + (if u == ALL then Sum(w[..n]) else 0)
  {
    if n > 0 {
      DepositTypeVisits(s, t, r, w, cost, show, n - 1);
      assert w[..n][..n - 1] == w[..n - 1];
    }
  }

  /** With regions shown, every slot of region group r has gained that process's visits times the cost. */
  lemma {:induction false} DepositRegionSlots(s: Tallies, t: nat, r: nat, w: seq<nat>, cost: nat, show: bool, n: nat)
    requires n <= |w|
    ensures forall u, q {:trigger Deposit(s, t, r, w, cost, show, n).regionSlots[u][q]} ::
      0 <= u < |s.regionSlots| && 0 <= q < |s.regionSlots[u]| ==>
      Deposit(s, t, r, w, cost, show, n).regionSlots[u][q] ==
      s.regionSlots[u][q] + (if show && u == r && q < n then w[q] * cost else 0)
  {
    if n > 0 {
      DepositRegionSlots(s, t, r, w, cost, show, n - 1);
    }
  }

  /** With regions shown, region group r counts all its visits. */
  lemma {:induction false} DepositRegionVisits(s: Tallies, t: nat, r: nat, w: seq<nat>, cost: nat, show: bool, n: nat)
    requires n <= |w|
    ensures forall u {:trigger Deposit(s, t, r, w, cost, show, n).regionVisits[u]} :: 0 <= u < |s.regionVisits| ==>
      Deposit(s, t, r, w, cost, show, n).regionVisits[u] == s.regionVisits[u] + (if show && u == r then Sum(w[..n]) else 0)
  {
    if n > 0 {
      DepositRegionVisits(s, t, r, w, cost, show, n - 1);
      assert w[..n][..n - 1] == w[..n - 1];
    }
  }

  /** After the first n regions every type group holds its GroupBytes and GroupVisits on top of what it held. */
  lemma {:induction false} AccountTypes(s: Tallies, visits: seq<seq<nat>>, costs: seq<nat>, types: seq<nat>, show: bool,
                                        processes: nat, n: nat)
    requires Tables(visits, costs, types, processes) && n <= |visits| && Rows(s.typeSlots, processes)
    ensures forall u, q {:trigger Account(s, visits, costs, types, show, n).typeSlots[u][q]} ::
      0 <= u < |s.typeSlots| && 0 <= q < processes ==>
      Account(s, visits, costs, types, show, n).typeSlots[u][q] == s.typeSlots[u][q] + GroupBytes(visits, costs, types, u, q, n)
    ensures forall u {:trigger Account(s, visits, costs, types, show, n).typeVisits[u]} :: 0 <= u < |s.typeVisits| ==>
      Account(s, visits, costs, types, show, n).typeVisits[u] == s.typeVisits[u] + GroupVisits(visits, types, u, n)
  {
    if n > 0 {
      AccountTypes(s, visits, costs, types, show, processes, n - 1);
      var w := visits[n - 1];
      var prev := Account(s, visits, costs, types, show, n - 1);
      DepositTypeSlots(prev, types[n - 1], n - 1, w, costs[n - 1], show, |w|);
      DepositTypeVisits(prev, types[n - 1], n - 1, w, costs[n - 1], show, |w|);
      assert w[..|w|] == w;
    }
  }

  /**
   * After the first n regions, with regions shown, the group of each of
   * them holds its visits times its cost per process and all its visits;
   * without them the region groups are untouched.
   */
  lemma {:induction false} AccountRegions(s: Tallies, visits: seq<seq<nat>>, costs: seq<nat>, types: seq<nat>, show: bool,
                                          processes: nat, n: nat)
    requires Tables(visits, costs, types, processes) && n <= |visits| && Rows(s.regionSlots, processes)
    ensures forall u, q {:trigger Account(s, visits, costs, types, show, n).regionSlots[u][q]} ::
      0 <= u < |s.regionSlots| && 0 <= q < processes ==>
      Account(s, visits, costs, types, show, n).regionSlots[u][q] ==
      s.regionSlots[u][q] + (if show && u < n then visits[u][q] * costs[u] else 0)
    ensures forall u {:trigger Account(s, visits, costs, types, show, n).regionVisits[u]} :: 0 <= u < |s.regionVisits| ==>
      Account(s, visits, costs, types, show, n).regionVisits[u] == s.regionVisits[u] + (if show && u < n then Sum(visits[u]) else 0)
  {
    if n > 0 {
      AccountRegions(s, visits, costs, types, show, processes, n - 1);
      var w := visits[n - 1];
      var prev := Account(s, visits, costs, types, show, n - 1);
      DepositRegionSlots(prev, types[n - 1], n - 1, w, costs[n - 1], show, |w|);
      DepositRegionVisits(prev, types[n - 1], n - 1, w, costs[n - 1], show, |w|);
      assert w[..|w|] == w;
    }
  }

  /**
   * The type tallies went from before to after by every region's
   * contribution: each slot grew by the group's bytes, each count by the
   * group's visits.
   */
  ghost predicate TypesAccounted(before: Tallies, after: Tallies, visits: seq<seq<nat>>, costs: seq<nat>,
                                 types: seq<nat>, processes: nat)
  {
    Tables(visits, costs, types, processes) &&
    |after.typeSlots| == |before.typeSlots| && |after.typeVisits| == |before.typeVisits| &&
    Rows(before.typeSlots, processes) && Rows(after.typeSlots, processes) &&
    (forall u, q :: 0 <= u < |after.typeSlots| && 0 <= q < processes ==>
      after.typeSlots[u][q] == before.typeSlots[u][q] + GroupBytes(visits, costs, types, u, q, |visits|)) &&
    (forall u :: 0 <= u < |after.typeVisits| ==>
      after.typeVisits[u] == before.typeVisits[u] + GroupVisits(visits, types, u, |visits|))
  }

  /** Every region's group holds its visits times its cost per process, and all its visits. */
  ghost predicate RegionsAccounted(after: Tallies, visits: seq<seq<nat>>, costs: seq<nat>, processes: nat)
  {
    |after.regionSlots| == |visits| == |costs| && |after.regionVisits| == |visits| &&
    Rows(after.regionSlots, processes) && Rows(visits, processes) &&
    (forall r, q :: 0 <= r < |visits| && 0 <= q < processes ==> after.regionSlots[r][q] == visits[r][q] * costs[r]) &&
    (forall r :: 0 <= r < |visits| ==> after.regionVisits[r] == Sum(visits[r]))
  }

  /** Region tallies as freshly initialised: a zero row and no visits per region. */
  ghost predicate ZeroRegions(s: Tallies, regions: nat, processes: nat)
  {
    |s.regionSlots| == regions && |s.regionVisits| == regions &&
    forall r :: 0 <= r < regions ==> s.regionSlots[r] == Zeros(processes) && s.regionVisits[r] == 0
  }

  /** Accounting every region adds each group's bytes and visits to the type tallies. */
  lemma AccountedTypes(s: Tallies, visits: seq<seq<nat>>, costs: seq<nat>, types: seq<nat>, show: bool, processes: nat)
    requires Tables(visits, costs, types, processes) && Rows(s.typeSlots, processes)
    ensures TypesAccounted(s, Account(s, visits, costs, types, show, |visits|), visits, costs, types, processes)
  {
    AccountTypes(s, visits, costs, types, show, processes, |visits|);
  }

  /** Accounting every region from zero region tallies leaves each region's own bytes and visits. */
  lemma AccountedRegions(s: Tallies, visits: seq<seq<nat>>, costs: seq<nat>, types: seq<nat>, processes: nat)
    requires Tables(visits, costs, types, processes) && ZeroRegions(s, |visits|, processes)
    ensures RegionsAccounted(Account(s, visits, costs, types, true, |visits|), visits, costs, processes)
  {
    AccountRegions(s, visits, costs, types, true, processes, |visits|);
  }

  /** The tallies calculate starts from: with regions shown, every region group is new and empty. */
  function Prepared(s: Tallies, show: bool, regions: nat, processes: nat): (p: Tallies)
    ensures p.typeSlots == s.typeSlots && p.typeVisits == s.typeVisits
    ensures show ==> ZeroRegions(p, regions, processes)
  {
    if show then Tallies(s.typeSlots, s.typeVisits, seq(regions, _ => Zeros(processes)), seq(regions, _ => 0)) else s
  }

  /** Emptied region tallies are the prepared ones. */
  lemma ZeroRegionsPrepared(s: Tallies, t: Tallies, regions: nat, processes: nat)
    requires ZeroRegions(t, regions, processes) && t.typeSlots == s.typeSlots && t.typeVisits == s.typeVisits
    ensures t == Prepared(s, true, regions, processes)
  {
    var p := Prepared(s, true, regions, processes);
    assert t.regionSlots == p.regionSlots;
    assert t.regionVisits == p.regionVisits;
  }

  /**
   * What one calculate leaves: every type group has gained its regions'
   * bytes and visits, and, with regions shown, every region group holds
   * exactly its own.
   */
  lemma CalculateAccounts(s: Tallies, visits: seq<seq<nat>>, costs: seq<nat>, types: seq<nat>, show: bool,
                          processes: nat)
    requires Tables(visits, costs, types, processes) && Rows(s.typeSlots, processes)
    ensures var a := Account(Prepared(s, show, |visits|, processes), visits, costs, types, show, |visits|);
      TypesAccounted(s, a, visits, costs, types, processes) &&
      (show ==> RegionsAccounted(a, visits, costs, processes))
  {
    var p := Prepared(s, show, |visits|, processes);
    AccountedTypes(p, visits, costs, types, show, processes);
    if show {
      AccountedRegions(p, visits, costs, types, processes);
    }
  }

  /** The types regions can have: neither ALL nor FLT. */
  ghost predicate RegionTyped(types: seq<nat>)
  {
    forall r :: 0 <= r < |types| ==> USR <= types[r] < TYPE_NUM
  }

  function OverTypes(f: nat -> nat): nat
  {
    f(USR) + f(COM) + f(MPI) + f(OMP) + f(SHMEM) + f(PTHREAD)
  }

  /** ALL holds, per process, the sum of what the region types hold, and FLT holds nothing. */
  lemma {:induction false} AllIsSumOfTypes(visits: seq<seq<nat>>, costs: seq<nat>, types: seq<nat>, p: nat, n: nat)
    requires n <= |visits| == |costs| == |types| && RegionTyped(types)
    requires forall r :: 0 <= r < n ==> p < |visits[r]|
    ensures GroupBytes(visits, costs, types, ALL, p, n) ==
      OverTypes(t => GroupBytes(visits, costs, types, t, p, n))
    ensures GroupBytes(visits, costs, types, FLT, p, n) == 0
  {
    if n > 0 {
      AllIsSumOfTypes(visits, costs, types, p, n - 1);
    }
  }

  /** The same for visits. */
  lemma {:induction false} AllVisitsIsSumOfTypes(visits: seq<seq<nat>>, types: seq<nat>, n: nat)
    requires n <= |visits| == |types| && RegionTyped(types)
    ensures GroupVisits(visits, types, ALL, n) == OverTypes(t => GroupVisits(visits, types, t, n))
    ensures GroupVisits(visits, types, FLT, n) == 0
  {
    if n > 0 {
      AllVisitsIsSumOfTypes(visits, types, n - 1);
    }
  }

  /** No group type holds more for a process than ALL does. */
  lemma AllDominates(visits: seq<seq<nat>>, costs: seq<nat>, types: seq<nat>, t: nat, p: nat, n: nat)
    requires n <= |visits| == |costs| == |types| && RegionTyped(types) && t < TYPE_NUM
    requires forall r :: 0 <= r < n ==> p < |visits[r]|
    ensures GroupBytes(visits, costs, types, t, p, n) <= GroupBytes(visits, costs, types, ALL, p, n)
  {
    AllIsSumOfTypes(visits, costs, types, p, n);
  }

  // ---------------------------------------------------------------------------
  // The buffer data.

  /** A region is active when some process visits it. */
  ghost predicate Active(w: seq<nat>)
  {
    exists p :: 0 <= p < |w| && w[p] != 0
  }

  /** The per-process entries of one region over processes below q, in process order. */
  function Entries(w: seq<nat>, cost: nat, q: nat): (e: ProcessBuffers)
    requires q <= |w|
    ensures forall i :: 0 <= i < |e| ==> e[i].0 < q
    ensures |e| == 0 <==> forall p :: 0 <= p < q ==> w[p] == 0
  {
    if q == 0 then []
    else
      var e := Entries(w, cost, q - 1);
      if w[q - 1] == 0 then e else e + [(q - 1, Buffer(w[q - 1], cost))]
  }

  /** A process has an entry exactly when it visits the region, and the entry records the visits and the cost. */
  lemma {:induction false} EntriesLookup(w: seq<nat>, cost: nat, q: nat, p: nat)
    requires q <= |w|
    ensures Lookup(Entries(w, cost, q), p) == if p < q && w[p] != 0 then Some(Buffer(w[p], cost)) else None
  {
    if q > 0 {
      EntriesLookup(w, cost, q - 1, p);
      var e := Entries(w, cost, q - 1);
      if w[q - 1] != 0 {
        var k: nat := q - 1;
        assert Entries(w, cost, q) == e + [(k, Buffer(w[k], cost))];
        LookupAppend<nat, Buffer>(e, k, Buffer(w[k], cost), p);
      }
    }
  }

  /** The entries are duplicate-free, so building them by QHash::insert appends each one. */
  lemma {:induction false} EntriesDistinct(w: seq<nat>, cost: nat, q: nat)
    requires q <= |w|
    ensures DistinctKeys(Entries(w, cost, q))
  {
    if q > 0 {
      EntriesDistinct(w, cost, q - 1);
    }
  }

  lemma EntriesByInsert(w: seq<nat>, cost: nat, q: nat)
    requires q < |w| && w[q] != 0
    ensures Entries(w, cost, q + 1) == Insert(Entries(w, cost, q), q, Buffer(w[q], cost))
  {
    var e := Entries(w, cost, q);
    assert Lookup(e, q).None?;
    InsertAbsent(e, q, Buffer(w[q], cost));
  }

  lemma EntriesEmpty(w: seq<nat>, cost: nat)
    ensures |Entries(w, cost, |w|)| == 0 <==> !Active(w)
  {
  }

  /**
   * The buffer after the first n regions: each active region's entries are
   * stored under its name, replacing what was stored there before.
   */
  function BufferAfter(buffer: BufferData, names: seq<string>, visits: seq<seq<nat>>, costs: seq<nat>, n: nat): BufferData
    requires n <= |names| == |visits| == |costs|
  {
    if n == 0 then buffer
    else
      var prev := BufferAfter(buffer, names, visits, costs, n - 1);
      var e := Entries(visits[n - 1], costs[n - 1], |visits[n - 1]|);
      if |e| == 0 then prev else Insert(prev, names[n - 1], e)
  }

  /** The last active region below n with the given name. */
  ghost function LastActive(names: seq<string>, visits: seq<seq<nat>>, name: string, n: nat): (r: Option<nat>)
    requires n <= |names| == |visits|
    ensures r.Some? ==> r.value < n && names[r.value] == name && Active(visits[r.value])
    ensures r.Some? ==> forall q :: r.value < q < n && names[q] == name ==> !Active(visits[q])
    ensures r.None? <==> forall q :: 0 <= q < n && names[q] == name ==> !Active(visits[q])
  {
    if n == 0 then None
    else if names[n - 1] == name && Active(visits[n - 1]) then Some(n - 1)
    else LastActive(names, visits, name, n - 1)
  }

  /**
   * Looking a name up after calculate: the entries of the last active
   * region of that name, or whatever the buffer held before when none is
   * active; in particular a name no region has keeps its old entries.
   */
  lemma {:induction false} BufferAfterLookup(buffer: BufferData, names: seq<string>, visits: seq<seq<nat>>,
                                            costs: seq<nat>, n: nat, name: string)
    requires n <= |names| == |visits| == |costs|
    ensures Lookup(BufferAfter(buffer, names, visits, costs, n), name) ==
      match LastActive(names, visits, name, n)
      case None => Lookup(buffer, name)
      case Some(r) => Some(Entries(visits[r], costs[r], |visits[r]|))
  {
    if n > 0 {
      var prev := BufferAfter(buffer, names, visits, costs, n - 1);
      var e := Entries(visits[n - 1], costs[n - 1], |visits[n - 1]|);
      BufferAfterLookup(buffer, names, visits, costs, n - 1, name);
      EntriesEmpty(visits[n - 1], costs[n - 1]);
      if |e| != 0 {
        InsertLookup(prev, names[n - 1], e, name);
      }
    }
  }

  /** calculate keeps the buffer's names duplicate-free. */
  lemma {:induction false} BufferAfterDistinct(buffer: BufferData, names: seq<string>, visits: seq<seq<nat>>,
                                              costs: seq<nat>, n: nat)
    requires n <= |names| == |visits| == |costs| && DistinctKeys(buffer)
    ensures DistinctKeys(BufferAfter(buffer, names, visits, costs, n))
  {
    if n > 0 {
      BufferAfterDistinct(buffer, names, visits, costs, n - 1);
      var prev := BufferAfter(buffer, names, visits, costs, n - 1);
      var e := Entries(visits[n - 1], costs[n - 1], |visits[n - 1]|);
      if |e| != 0 {
        InsertKeepsDistinct(prev, names[n - 1], e);
      }
    }
  }
}
