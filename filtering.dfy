/**
 * The connector's toggle engine as functions on the three lists it keeps:
 * the group rows (the last one is the FLT row, which sums up the filter),
 * the region rows, and the positions of the excluded region rows in the
 * order they were excluded. The connector's methods are proved against
 * these functions; the lemmas here say what the engine keeps true.
 */
module Filtering {
  import opened Util
  import opened Text
  import opened DataCenter

  /** m_noFilter: the types whose rows can never be excluded. */
  const NoFilter: seq<string> := ["MPI", "ALL", "OMP", "SHMEM"]
  const FLT_NAME: string := "FLT"

  predicate Filterable(typeName: string)
  {
    typeName !in NoFilter
  }

  /** The connector's lists: m_dataListGroup, m_dataListFunction, m_excludedFunctions. */
  datatype View = View(groups: seq<GroupRow>, functions: seq<RegionRow>, excluded: seq<nat>)

  // ---------------------------------------------------------------------------
  // QList helpers.

  /** QList::indexOf: the first position holding x, or -1. */
  function IndexOf(s: seq<nat>, x: nat): (i: int)
    ensures -1 <= i < |s|
    ensures i >= 0 ==> s[i] == x && x !in s[..i]
    ensures i == -1 <==> x !in s
  {
    if |s| == 0 then -1
    else if s[0] == x then 0
    else
      var j := IndexOf(s[1..], x);
      assert x in s ==> x in s[1..] by {
        if x in s {
          var k :| 0 <= k < |s| && s[k] == x;
          assert s[1..][k - 1] == x;
        }
      }
      if j == -1 then -1
      else
        assert s[..j + 1] == [s[0]] + s[1..][..j];
        j + 1
  }

  /** QList::removeAt: drops position i; a position outside the list changes nothing. */
  function RemoveAt(s: seq<nat>, i: int): seq<nat>
  {
    if 0 <= i < |s| then s[..i] + s[i + 1..] else s
  }

  /** The list without its first occurrence of x; the list itself when x is absent. */
  function RemoveFirst(s: seq<nat>, x: nat): seq<nat>
  {
    if |s| == 0 then s
    else if s[0] == x then s[1..]
    else [s[0]] + RemoveFirst(s[1..], x)
  }

  /** removeAt(indexOf(x)) drops exactly the first occurrence of x. */
  lemma {:induction false} RemoveAtIndexOf(s: seq<nat>, x: nat)
    ensures RemoveAt(s, IndexOf(s, x)) == RemoveFirst(s, x)
  {
    if |s| > 0 && s[0] != x {
      RemoveAtIndexOf(s[1..], x);
      var j := IndexOf(s[1..], x);
      if j >= 0 {
        assert s[..j + 1] == [s[0]] + s[1..][..j];
        assert s[j + 2..] == s[1..][j + 1..];
      }
    }
  }

  /** Removing the first occurrence of x takes one x away, or nothing when x is absent. */
  lemma {:induction false} RemoveFirstCount(s: seq<nat>, x: nat, y: nat)
    ensures multiset(RemoveFirst(s, x))[y] == if y == x && multiset(s)[y] > 0 then multiset(s)[y] - 1 else multiset(s)[y]
  {
    if |s| > 0 {
      assert s == [s[0]] + s[1..];
      assert multiset(s) == multiset{s[0]} + multiset(s[1..]);
      if s[0] != x {
        RemoveFirstCount(s[1..], x, y);
        assert multiset(RemoveFirst(s, x)) == multiset{s[0]} + multiset(RemoveFirst(s[1..], x));
      }
    }
  }

  /** Excluding then including again restores the list. */
  lemma {:induction false} RemoveFirstAppended(s: seq<nat>, x: nat)
    requires x !in s
    ensures RemoveFirst(s + [x], x) == s
  {
    if |s| > 0 {
      assert (s + [x])[1..] == s[1..] + [x];
      RemoveFirstAppended(s[1..], x);
      assert s == [s[0]] + s[1..];
    }
  }

  /** A strictly increasing list holds each value at most once. */
  lemma {:induction false} IncreasingCount(s: seq<nat>, x: nat)
    requires forall a, b :: 0 <= a < b < |s| ==> s[a] < s[b]
    ensures multiset(s)[x] == if x in s then 1 else 0
  {
    if |s| > 0 {
      var init := s[..|s| - 1];
      assert s == init + [s[|s| - 1]];
      IncreasingCount(init, x);
      assert multiset(s) == multiset(init) + multiset{s[|s| - 1]};
    }
  }

  // ---------------------------------------------------------------------------
  // The passes over the rows.

  /** The rows a pass touches: those of one type, or those of every filterable type. */
  datatype Scope = OfType(typeName: string) | AllFilterable

  predicate InScope(scope: Scope, typeName: string)
  {
    match scope
    case OfType(t) => typeName == t
    case AllFilterable => Filterable(typeName)
  }

  /** The positions below n of the in-scope region rows whose flag is `included`, ascending. */
  function Selected(fs: seq<RegionRow>, scope: Scope, included: bool, n: nat): (r: seq<nat>)
    requires n <= |fs|
    ensures forall k :: 0 <= k < |r| ==> r[k] < n
    ensures forall a, b :: 0 <= a < b < |r| ==> r[a] < r[b]
    ensures forall i: nat :: i in r <==> i < n && InScope(scope, fs[i].typeName) && fs[i].included == included
  {
    if n == 0 then []
    else
      var init := Selected(fs, scope, included, n - 1);
      init + (if InScope(scope, fs[n - 1].typeName) && fs[n - 1].included == included then [n - 1] else [])
  }

  /** One more row looked at: position n is appended when it is in scope and has the flag. */
  lemma SelectedNext(fs: seq<RegionRow>, scope: Scope, included: bool, n: nat)
    requires n < |fs|
    ensures Selected(fs, scope, included, n + 1) ==
      Selected(fs, scope, included, n) + (if InScope(scope, fs[n].typeName) && fs[n].included == included then [n] else [])
  {
  }

  /** The excluded list once the include pass has visited the rows below n: each excluded in-scope row's position is removed. */
  function Restored(ex: seq<nat>, fs: seq<RegionRow>, scope: Scope, n: nat): seq<nat>
    requires n <= |fs|
  {
    if n == 0 then ex
    else
      var prev := Restored(ex, fs, scope, n - 1);
      if InScope(scope, fs[n - 1].typeName) && !fs[n - 1].included then RemoveFirst(prev, n - 1) else prev
  }

  /** The include pass takes one occurrence of the position of each excluded in-scope row below n away, and nothing else. */
  lemma {:induction false} RestoredCount(ex: seq<nat>, fs: seq<RegionRow>, scope: Scope, n: nat, y: nat)
    requires n <= |fs|
    ensures multiset(Restored(ex, fs, scope, n))[y] ==
      if y < n && InScope(scope, fs[y].typeName) && !fs[y].included && multiset(ex)[y] > 0 then multiset(ex)[y] - 1
      else multiset(ex)[y]
  {
    if n > 0 {
      var prev: seq<nat> := Restored(ex, fs, scope, n - 1);
      RestoredCount(ex, fs, scope, n - 1, y);
      if InScope(scope, fs[n - 1].typeName) && !fs[n - 1].included {
        assert Restored(ex, fs, scope, n) == RemoveFirst(prev, n - 1);
        RemoveFirstCount(prev, n - 1, y);
        var before: nat, after: nat := multiset(prev)[y], multiset(Restored(ex, fs, scope, n))[y];
        if y == n - 1 {
          assert before == multiset(ex)[y];
        } else {
          assert after == before;
        }
      }
    }
  }

  /** The region rows with the flag of every in-scope row below n set to v. */
  function Flagged(fs: seq<RegionRow>, scope: Scope, v: bool, n: nat): (r: seq<RegionRow>)
  {
    seq(|fs|, i requires 0 <= i < |fs| => if i < n && InScope(scope, fs[i].typeName) then fs[i].(included := v) else fs[i])
  }

  /** Flagging no row leaves the rows as they are. */
  lemma FlaggedNone(fs: seq<RegionRow>, scope: Scope, v: bool)
    ensures Flagged(fs, scope, v, 0) == fs
  {
  }

  /** One more row flagged: position n is set when it is in scope, and nothing else changes. */
  lemma FlaggedNext(fs: seq<RegionRow>, scope: Scope, v: bool, n: nat)
    requires n < |fs|
    ensures Flagged(fs, scope, v, n)[n] == fs[n]
    ensures Flagged(fs, scope, v, n + 1) ==
      Flagged(fs, scope, v, n)[n := if InScope(scope, fs[n].typeName) then fs[n].(included := v) else fs[n]]
  {
  }

  /** The group rows with the state of every filterable row below n set to s. */
  function Stated(gs: seq<GroupRow>, s: RowState, n: nat): seq<GroupRow>
  {
    seq(|gs|, i requires 0 <= i < |gs| => if i < n && Filterable(gs[i].typeName) then gs[i].(state := s) else gs[i])
  }

  /** The group rows with the state of every row of type t below n set to s. */
  function TypeStated(gs: seq<GroupRow>, t: string, s: RowState, n: nat): seq<GroupRow>
  {
    seq(|gs|, i requires 0 <= i < |gs| => if i < n && gs[i].typeName == t then gs[i].(state := s) else gs[i])
  }

  /** Excludes every included in-scope region row, appending its position. */
  function ExcludeRows(v: View, scope: Scope): View
  {
    v.(functions := Flagged(v.functions, scope, false, |v.functions|),
       excluded := v.excluded + Selected(v.functions, scope, true, |v.functions|))
  }

  /** Includes every excluded in-scope region row, removing its position. */
  function IncludeRows(v: View, scope: Scope): View
  {
    v.(functions := Flagged(v.functions, scope, true, |v.functions|),
       excluded := Restored(v.excluded, v.functions, scope, |v.functions|))
  }

  /** switchState: INCLUDED becomes EXCLUDED; EXCLUDED and PARTIAL become INCLUDED. */
  function SwitchState(g: GroupRow): (r: GroupRow)
    ensures r.state != PARTIAL && r.state != g.state
    ensures r.(state := g.state) == g
  {
    if g.state == INCLUDED then g.(state := EXCLUDED) else g.(state := INCLUDED)
  }

  /** Switching twice restores a row exactly when it was not PARTIAL. */
  lemma SwitchStateTwice(g: GroupRow)
    ensures SwitchState(SwitchState(g)) == g <==> g.state != PARTIAL
  {
  }

  /** Whether every region row of type t has the flag b (the `same` loop). */
  predicate AllSame(fs: seq<RegionRow>, t: string, b: bool)
  {
    forall i :: 0 <= i < |fs| && fs[i].typeName == t ==> fs[i].included == b
  }

  /** One key of the group table: a non-filterable row is refused and nothing changes. */
  function ApplyGroupKey(v: View, key: nat): (r: (View, bool))
    requires key < |v.groups|
    ensures |r.0.groups| == |v.groups| && |r.0.functions| == |v.functions|
    ensures r.1 <==> Filterable(v.groups[key].typeName)
    ensures !r.1 ==> r.0 == v
  {
    var g := v.groups[key];
    if !Filterable(g.typeName) then (v, false)
    else
      var t := SwitchState(g);
      var w := v.(groups := v.groups[key := t]);
      if t.state == EXCLUDED then
        if t.typeName == FLT_NAME then
          (IncludeRows(w, AllFilterable).(groups := Stated(w.groups, INCLUDED, |w.groups|)), true)
        else
          (ExcludeRows(w, OfType(t.typeName)), true)
      else
        if t.typeName == FLT_NAME then
          (ExcludeRows(w, AllFilterable).(groups := Stated(w.groups, EXCLUDED, |w.groups|)), true)
        else
          (IncludeRows(w, OfType(t.typeName)), true)
  }

  /**
   * One key of the region table: the row's flag flips, its position is
   * appended to or removed from the excluded list, and the rows of its type
   * in the group table become INCLUDED or EXCLUDED when all regions of the
   * type now agree, PARTIAL otherwise.
   */
  function ApplyRegionKey(v: View, key: nat): (r: (View, bool))
    requires key < |v.functions|
    ensures |r.0.groups| == |v.groups| && |r.0.functions| == |v.functions|
    ensures r.1 <==> Filterable(v.functions[key].typeName)
    ensures !r.1 ==> r.0 == v
  {
    var f := v.functions[key];
    if !Filterable(f.typeName) then (v, false)
    else
      var row := f.(included := !f.included);
      var fs := v.functions[key := row];
      var ex := if row.included then RemoveFirst(v.excluded, key) else v.excluded + [key];
      var s := if AllSame(fs, row.typeName, row.included) then (if row.included then INCLUDED else EXCLUDED) else PARTIAL;
      (View(TypeStated(v.groups, row.typeName, s, |v.groups|), fs, ex), true)
  }

  predicate KeyInRange(v: View, key: nat, groupTable: bool)
  {
    if groupTable then key < |v.groups| else key < |v.functions|
  }

  function ApplyKey(v: View, key: nat, groupTable: bool): (r: (View, bool))
    requires KeyInRange(v, key, groupTable)
    ensures |r.0.groups| == |v.groups| && |r.0.functions| == |v.functions|
  {
    if groupTable then ApplyGroupKey(v, key) else ApplyRegionKey(v, key)
  }

  /** The key loop of changeState; the flag is false once some key was refused. */
  function ApplyKeys(v: View, keys: seq<nat>, groupTable: bool): (r: (View, bool))
    requires forall k :: 0 <= k < |keys| ==> KeyInRange(v, keys[k], groupTable)
    ensures |r.0.groups| == |v.groups| && |r.0.functions| == |v.functions|
  {
    if |keys| == 0 then (v, true)
    else
      var (w, ok) := ApplyKeys(v, keys[..|keys| - 1], groupTable);
      assert KeyInRange(v, keys[|keys| - 1], groupTable);
      var (u, ok') := ApplyKey(w, keys[|keys| - 1], groupTable);
      (u, ok && ok')
  }

  // ---------------------------------------------------------------------------
  // The FLT row.

  /** Whether every filterable group row is EXCLUDED (the allExcluded loop). */
  predicate AllExcluded(gs: seq<GroupRow>)
  {
    forall i :: 0 <= i < |gs| && Filterable(gs[i].typeName) ==> gs[i].state == EXCLUDED
  }

  predicate InRange(fs: seq<RegionRow>, ex: seq<nat>)
  {
    forall k :: 0 <= k < |ex| ==> ex[k] < |fs|
  }

  /** Sum of the largest buffers of the excluded rows, in list order. */
  function ExcludedMaxBuf(fs: seq<RegionRow>, ex: seq<nat>): int
    requires InRange(fs, ex)
  {
    if |ex| == 0 then 0 else ExcludedMaxBuf(fs, ex[..|ex| - 1]) + fs[ex[|ex| - 1]].maxBuf
  }

  /** Sum of the visits of the excluded rows. */
  function ExcludedVisits(fs: seq<RegionRow>, ex: seq<nat>): nat
    requires InRange(fs, ex)
  {
    if |ex| == 0 then 0 else ExcludedVisits(fs, ex[..|ex| - 1]) + fs[ex[|ex| - 1]].visits
  }

  /**
   * The FLT row calculateFilter builds from the other group rows: EXCLUDED
   * when nothing is excluded, INCLUDED when every filterable group is
   * excluded, PARTIAL otherwise, with the excluded rows' buffers and visits.
   */
  function FltRow(rest: seq<GroupRow>, fs: seq<RegionRow>, ex: seq<nat>): GroupRow
    requires InRange(fs, ex)
  {
    var s := if |ex| == 0 then EXCLUDED else if AllExcluded(rest) then INCLUDED else PARTIAL;
    GroupRow(s, 0, FLT_NAME, ExcludedMaxBuf(fs, ex), ExcludedVisits(fs, ex), "")
  }

  /** calculateFilter: the last group row is replaced by the freshly computed FLT row. */
  function CalculateFilter(v: View): (r: View)
    requires |v.groups| > 0 && InRange(v.functions, v.excluded)
    ensures |r.groups| == |v.groups| && r.functions == v.functions && r.excluded == v.excluded
  {
    var rest := v.groups[..|v.groups| - 1];
    v.(groups := rest + [FltRow(rest, v.functions, v.excluded)])
  }

  /** The FLT row says EXCLUDED exactly when no region is excluded. */
  lemma FltRowState(rest: seq<GroupRow>, fs: seq<RegionRow>, ex: seq<nat>)
    requires InRange(fs, ex)
    ensures FltRow(rest, fs, ex).state == EXCLUDED <==> |ex| == 0
    ensures FltRow(rest, fs, ex).state == INCLUDED <==> |ex| > 0 && AllExcluded(rest)
  {
  }

  /** One figure of a region row: its largest buffer, or its visits. */
  function Figure(row: RegionRow, maxBuf: bool): int
  {
    if maxBuf then row.maxBuf else row.visits
  }

  /** The figure of the region rows below n whose flag is off, summed in row order. */
  function Unflagged(fs: seq<RegionRow>, maxBuf: bool, n: nat): int
    requires n <= |fs|
  {
    if n == 0 then 0 else Unflagged(fs, maxBuf, n - 1) + (if fs[n - 1].included then 0 else Figure(fs[n - 1], maxBuf))
  }

  /** The figure of the rows below n, row i counted m[i] times. */
  function Weighted(fs: seq<RegionRow>, m: multiset<nat>, maxBuf: bool, n: nat): int
    requires n <= |fs|
  {
    if n == 0 then 0 else Weighted(fs, m, maxBuf, n - 1) + m[n - 1] * Figure(fs[n - 1], maxBuf)
  }

  lemma {:induction false} WeightedAdd(fs: seq<RegionRow>, m: multiset<nat>, x: nat, maxBuf: bool, n: nat)
    requires n <= |fs|
    ensures Weighted(fs, m + multiset{x}, maxBuf, n) ==
      Weighted(fs, m, maxBuf, n) + (if x < n then Figure(fs[x], maxBuf) else 0)
  {
    if n > 0 {
      WeightedAdd(fs, m, x, maxBuf, n - 1);
      var f := Figure(fs[n - 1], maxBuf);
      if x == n - 1 {
        assert (m + multiset{x})[n - 1] == m[n - 1] + 1;
        assert (m[n - 1] + 1) * f == m[n - 1] * f + f;
      } else {
        assert (m + multiset{x})[n - 1] == m[n - 1];
      }
    }
  }

  /** The sums over the excluded list depend only on how often each position occurs in it. */
  lemma {:induction false} ExcludedWeighted(fs: seq<RegionRow>, ex: seq<nat>, maxBuf: bool)
    requires InRange(fs, ex)
    ensures (if maxBuf then ExcludedMaxBuf(fs, ex) else ExcludedVisits(fs, ex)) == Weighted(fs, multiset(ex), maxBuf, |fs|)
  {
    if |ex| == 0 {
      WeightedEmpty(fs, maxBuf, |fs|);
    } else {
      var last := ex[|ex| - 1];
      ExcludedWeighted(fs, ex[..|ex| - 1], maxBuf);
      assert ex == ex[..|ex| - 1] + [last];
      assert multiset(ex) == multiset(ex[..|ex| - 1]) + multiset{last};
      WeightedAdd(fs, multiset(ex[..|ex| - 1]), last, maxBuf, |fs|);
    }
  }

  lemma {:induction false} WeightedEmpty(fs: seq<RegionRow>, maxBuf: bool, n: nat)
    requires n <= |fs|
    ensures Weighted(fs, multiset{}, maxBuf, n) == 0
  {
    if n > 0 {
      WeightedEmpty(fs, maxBuf, n - 1);
    }
  }

  /** Counting each row once when its flag is off, and never otherwise, sums the unflagged rows. */
  lemma {:induction false} WeightedExact(fs: seq<RegionRow>, m: multiset<nat>, maxBuf: bool, n: nat)
    requires n <= |fs|
    requires forall i :: 0 <= i < n ==> m[i] == if fs[i].included then 0 else 1
    ensures Weighted(fs, m, maxBuf, n) == Unflagged(fs, maxBuf, n)
  {
    if n > 0 {
      WeightedExact(fs, m, maxBuf, n - 1);
    }
  }

  // ---------------------------------------------------------------------------
  // What the engine keeps true.

  /** The excluded list holds, once each, exactly the positions of the excluded region rows. */
  ghost predicate ExcludedExact(v: View)
  {
    forall i: nat {:trigger multiset(v.excluded)[i]} ::
      multiset(v.excluded)[i] == if i < |v.functions| && !v.functions[i].included then 1 else 0
  }

  /** Region rows of a non-filterable type are always included. */
  ghost predicate FixedIncluded(fs: seq<RegionRow>)
  {
    forall i :: 0 <= i < |fs| && !Filterable(fs[i].typeName) ==> fs[i].included
  }

  /**
   * The group table ends with the one FLT row, the other group rows have
   * distinct types, and no region row has the FLT type.
   */
  ghost predicate Shape(v: View)
  {
    |v.groups| > 0 && v.groups[|v.groups| - 1].typeName == FLT_NAME &&
    (forall a, b :: 0 <= a < b < |v.groups| - 1 ==> v.groups[a].typeName != v.groups[b].typeName) &&
    (forall a :: 0 <= a < |v.groups| - 1 ==> v.groups[a].typeName != FLT_NAME) &&
    (forall i :: 0 <= i < |v.functions| ==> v.functions[i].typeName != FLT_NAME)
  }

  /** A group state agrees with the flags of the region rows of its type. */
  ghost predicate StateMatches(s: RowState, fs: seq<RegionRow>, t: string)
  {
    (s == INCLUDED ==> AllSame(fs, t, true)) &&
    (s == EXCLUDED ==> AllSame(fs, t, false)) &&
    (s == PARTIAL ==>
      (exists i :: 0 <= i < |fs| && fs[i].typeName == t && fs[i].included) &&
      (exists i :: 0 <= i < |fs| && fs[i].typeName == t && !fs[i].included))
  }

  /** Every filterable group row other than FLT agrees with its regions. */
  ghost predicate GroupsMatch(v: View)
  {
    forall a :: 0 <= a < |v.groups| - 1 && Filterable(v.groups[a].typeName) ==>
      StateMatches(v.groups[a].state, v.functions, v.groups[a].typeName)
  }

  /** What holds between keys. */
  ghost predicate Coherent(v: View)
  {
    ExcludedExact(v) && FixedIncluded(v.functions) && Shape(v) && GroupsMatch(v)
  }

  /** What holds between calls of changeState: also the FLT row is up to date. */
  ghost predicate Consistent(v: View)
  {
    Coherent(v) && InRange(v.functions, v.excluded) &&
    v.groups[|v.groups| - 1] == FltRow(v.groups[..|v.groups| - 1], v.functions, v.excluded)
  }

  /** The excluded positions are positions of region rows. */
  lemma ExactInRange(v: View)
    requires ExcludedExact(v)
    ensures InRange(v.functions, v.excluded)
  {
    forall k | 0 <= k < |v.excluded|
      ensures v.excluded[k] < |v.functions|
    {
      assert v.excluded[k] in multiset(v.excluded);
    }
  }

  /**
   * Between calls of changeState, the FLT row shows the largest buffers and
   * the visits of exactly the excluded region rows, whatever order they
   * were excluded in.
   */
  lemma FltRowFigures(v: View)
    requires Consistent(v)
    ensures v.groups[|v.groups| - 1].maxBuf == Unflagged(v.functions, true, |v.functions|)
    ensures v.groups[|v.groups| - 1].visits == Unflagged(v.functions, false, |v.functions|)
  {
    forall maxBuf: bool
      ensures Weighted(v.functions, multiset(v.excluded), maxBuf, |v.functions|) == Unflagged(v.functions, maxBuf, |v.functions|)
    {
      forall i | 0 <= i < |v.functions|
        ensures multiset(v.excluded)[i] == if v.functions[i].included then 0 else 1
      {
        assert multiset(v.excluded)[i] == if i < |v.functions| && !v.functions[i].included then 1 else 0;
      }
      WeightedExact(v.functions, multiset(v.excluded), maxBuf, |v.functions|);
    }
    ExcludedWeighted(v.functions, v.excluded, true);
    ExcludedWeighted(v.functions, v.excluded, false);
  }

  /** The lists as changeState leaves them, and whether every key was accepted. */
  function ChangeState(v: View, keys: seq<nat>, groupTable: bool): (r: (View, bool))
    requires Coherent(v) && forall k :: 0 <= k < |keys| ==> KeyInRange(v, keys[k], groupTable)
  {
    var (w, ok) := ApplyKeys(v, keys, groupTable);
    ApplyKeysCoherent(v, keys, groupTable);
    ExactInRange(w);
    (CalculateFilter(w), ok)
  }

  // ---------------------------------------------------------------------------
  // Proofs that the passes keep the lists coherent.

  /** A state stays matched when no region row of its type changes. */
  lemma StateMatchesFrame(s: RowState, fs: seq<RegionRow>, fs': seq<RegionRow>, t: string)
    requires |fs'| == |fs| && StateMatches(s, fs, t)
    requires forall i :: 0 <= i < |fs| ==> fs'[i].typeName == fs[i].typeName
    requires forall i :: 0 <= i < |fs| && fs[i].typeName == t ==> fs'[i] == fs[i]
    ensures StateMatches(s, fs', t)
  {
    if s == PARTIAL {
      var i :| 0 <= i < |fs| && fs[i].typeName == t && fs[i].included;
      var j :| 0 <= j < |fs| && fs[j].typeName == t && !fs[j].included;
      assert fs'[i] == fs[i] && fs'[j] == fs[j];
    }
  }

  lemma ExcludeRowsExact(v: View, scope: Scope)
    requires ExcludedExact(v)
    ensures ExcludedExact(ExcludeRows(v, scope))
  {
    var fs := v.functions;
    var sel := Selected(fs, scope, true, |fs|);
    var w := ExcludeRows(v, scope);
    assert multiset(w.excluded) == multiset(v.excluded) + multiset(sel);
    forall i: nat
      ensures multiset(w.excluded)[i] == if i < |w.functions| && !w.functions[i].included then 1 else 0
    {
      IncreasingCount(sel, i);
      assert multiset(v.excluded)[i] == if i < |fs| && !fs[i].included then 1 else 0;
    }
  }

  lemma IncludeRowsExact(v: View, scope: Scope)
    requires ExcludedExact(v)
    ensures ExcludedExact(IncludeRows(v, scope))
  {
    var fs := v.functions;
    var w := IncludeRows(v, scope);
    forall i: nat
      ensures multiset(w.excluded)[i] == if i < |w.functions| && !w.functions[i].included then 1 else 0
    {
      RestoredCount(v.excluded, fs, scope, |fs|, i);
      assert multiset(v.excluded)[i] == if i < |fs| && !fs[i].included then 1 else 0;
      if i < |fs| {
        assert w.functions[i] == if InScope(scope, fs[i].typeName) then fs[i].(included := true) else fs[i];
      }
    }
  }

  /** A pass over one filterable type, or over all filterable types, keeps the lists coherent. */
  lemma PassCoherent(v: View, w: View, scope: Scope, flag: bool, s: RowState)
    requires Coherent(v) && (scope.OfType? ==> Filterable(scope.typeName))
    requires s == (if flag then INCLUDED else EXCLUDED)
    requires w.functions == Flagged(v.functions, scope, flag, |v.functions|)
    requires w.excluded == (if flag then IncludeRows(v, scope) else ExcludeRows(v, scope)).excluded
    requires |w.groups| == |v.groups|
    requires forall a :: 0 <= a < |v.groups| ==> w.groups[a].typeName == v.groups[a].typeName
    requires forall a :: 0 <= a < |v.groups| - 1 && InScope(scope, v.groups[a].typeName) ==> w.groups[a].state == s
    requires forall a :: 0 <= a < |v.groups| - 1 && !InScope(scope, v.groups[a].typeName) ==> w.groups[a] == v.groups[a]
    ensures Coherent(w)
  {
    if flag {
      IncludeRowsExact(v, scope);
    } else {
      ExcludeRowsExact(v, scope);
    }
    var fs, fs' := v.functions, w.functions;
    forall a | 0 <= a < |w.groups| - 1 && Filterable(w.groups[a].typeName)
      ensures StateMatches(w.groups[a].state, fs', w.groups[a].typeName)
    {
      var u := v.groups[a].typeName;
      if !InScope(scope, u) {
        StateMatchesFrame(v.groups[a].state, fs, fs', u);
      }
    }
  }

  /** Toggling a row of the group table keeps the lists coherent. */
  lemma ApplyGroupKeyCoherent(v: View, key: nat)
    requires Coherent(v) && key < |v.groups|
    ensures Coherent(ApplyGroupKey(v, key).0)
  {
    var g := v.groups[key];
    if Filterable(g.typeName) {
      var t := SwitchState(g);
      var w := v.(groups := v.groups[key := t]);
      var r := ApplyGroupKey(v, key).0;
      var last := |v.groups| - 1;
      if t.typeName == FLT_NAME {
        assert key == last;
        var flag := t.state == EXCLUDED;
        PassCoherent(v, r, AllFilterable, flag, if flag then INCLUDED else EXCLUDED);
      } else {
        assert key < last;
        var flag := t.state == INCLUDED;
        assert forall a :: 0 <= a < last && v.groups[a].typeName == t.typeName ==> a == key;
        PassCoherent(v, r, OfType(t.typeName), flag, t.state);
      }
    }
  }

  /** Toggling a row of the region table keeps the lists coherent. */
  lemma ApplyRegionKeyCoherent(v: View, key: nat)
    requires Coherent(v) && key < |v.functions|
    ensures Coherent(ApplyRegionKey(v, key).0)
  {
    var f := v.functions[key];
    if Filterable(f.typeName) {
      var r := ApplyRegionKey(v, key).0;
      var row := r.functions[key];
      var t := f.typeName;
      var fs, fs' := v.functions, r.functions;
      assert multiset(v.excluded)[key] == if f.included then 0 else 1;
      forall i: nat
        ensures multiset(r.excluded)[i] == if i < |fs'| && !fs'[i].included then 1 else 0
      {
        assert multiset(v.excluded)[i] == if i < |fs| && !fs[i].included then 1 else 0;
        if row.included {
          RemoveFirstCount(v.excluded, key, i);
        } else {
          assert multiset(r.excluded) == multiset(v.excluded) + multiset{key};
        }
      }
      forall a | 0 <= a < |r.groups| - 1 && Filterable(r.groups[a].typeName)
        ensures StateMatches(r.groups[a].state, fs', r.groups[a].typeName)
      {
        var u := v.groups[a].typeName;
        if u != t {
          StateMatchesFrame(v.groups[a].state, fs, fs', u);
        } else if !AllSame(fs', t, row.included) {
          var i :| 0 <= i < |fs'| && fs'[i].typeName == t && fs'[i].included != row.included;
          assert fs'[key].typeName == t;
        }
      }
    }
  }

  lemma ApplyKeyCoherent(v: View, key: nat, groupTable: bool)
    requires Coherent(v) && KeyInRange(v, key, groupTable)
    ensures Coherent(ApplyKey(v, key, groupTable).0)
  {
    if groupTable {
      ApplyGroupKeyCoherent(v, key);
    } else {
      ApplyRegionKeyCoherent(v, key);
    }
  }

  lemma {:induction false} ApplyKeysCoherent(v: View, keys: seq<nat>, groupTable: bool)
    requires Coherent(v) && forall k :: 0 <= k < |keys| ==> KeyInRange(v, keys[k], groupTable)
    ensures Coherent(ApplyKeys(v, keys, groupTable).0)
  {
    if |keys| > 0 {
      var init := keys[..|keys| - 1];
      ApplyKeysCoherent(v, init, groupTable);
      var w := ApplyKeys(v, init, groupTable).0;
      assert KeyInRange(v, keys[|keys| - 1], groupTable);
      ApplyKeyCoherent(w, keys[|keys| - 1], groupTable);
    }
  }

  // ---------------------------------------------------------------------------
  // What changeState promises.

  /** After changeState the lists are consistent again, the FLT row included. */
  lemma ChangeStateConsistent(v: View, keys: seq<nat>, groupTable: bool)
    requires Coherent(v) && forall k :: 0 <= k < |keys| ==> KeyInRange(v, keys[k], groupTable)
    ensures Consistent(ChangeState(v, keys, groupTable).0)
  {
    var w := ApplyKeys(v, keys, groupTable).0;
    ApplyKeysCoherent(v, keys, groupTable);
    ExactInRange(w);
    var r := CalculateFilter(w);
    var last := |w.groups| - 1;
    assert r.groups[..last] == w.groups[..last];
    assert forall a :: 0 <= a < last ==> r.groups[a] == w.groups[a];
  }

  /** No key changes a row's type. */
  lemma ApplyKeyKeepsTypes(v: View, key: nat, groupTable: bool)
    requires KeyInRange(v, key, groupTable)
    ensures var r := ApplyKey(v, key, groupTable).0;
      (forall a :: 0 <= a < |v.groups| ==> r.groups[a].typeName == v.groups[a].typeName) &&
      (forall i :: 0 <= i < |v.functions| ==> r.functions[i].typeName == v.functions[i].typeName)
  {
  }

  /** The row a key names in the table it addresses. */
  function KeyType(v: View, key: nat, groupTable: bool): string
    requires KeyInRange(v, key, groupTable)
  {
    if groupTable then v.groups[key].typeName else v.functions[key].typeName
  }

  /** changeState returns true exactly when every key names a row of a filterable type. */
  lemma {:induction false} ApplyKeysAccepted(v: View, keys: seq<nat>, groupTable: bool)
    requires forall k :: 0 <= k < |keys| ==> KeyInRange(v, keys[k], groupTable)
    ensures var r := ApplyKeys(v, keys, groupTable).0;
      (forall a :: 0 <= a < |v.groups| ==> r.groups[a].typeName == v.groups[a].typeName) &&
      (forall i :: 0 <= i < |v.functions| ==> r.functions[i].typeName == v.functions[i].typeName)
    ensures ApplyKeys(v, keys, groupTable).1 <==>
      forall k :: 0 <= k < |keys| ==> Filterable(KeyType(v, keys[k], groupTable))
  {
    if |keys| > 0 {
      var init := keys[..|keys| - 1];
      var key := keys[|keys| - 1];
      ApplyKeysAccepted(v, init, groupTable);
      var w := ApplyKeys(v, init, groupTable).0;
      assert KeyInRange(v, key, groupTable);
      ApplyKeyKeepsTypes(w, key, groupTable);
      assert KeyType(w, key, groupTable) == KeyType(v, key, groupTable);
      assert forall k :: 0 <= k < |init| ==> init[k] == keys[k];
    }
  }

  /** Toggling the FLT row while it is INCLUDED includes every region again and empties the list. */
  lemma FltIncludesAll(v: View)
    requires Coherent(v) && v.groups[|v.groups| - 1].state == INCLUDED
    ensures var r := ApplyGroupKey(v, |v.groups| - 1).0;
      r.excluded == [] &&
      (forall i :: 0 <= i < |r.functions| ==> r.functions[i].included) &&
      (forall a :: 0 <= a < |r.groups| && Filterable(r.groups[a].typeName) ==> r.groups[a].state == INCLUDED)
  {
    var key := |v.groups| - 1;
    var g := v.groups[key];
    assert g.typeName == FLT_NAME && Filterable(FLT_NAME);
    var w := v.(groups := v.groups[key := SwitchState(g)]);
    var r := ApplyGroupKey(v, key).0;
    assert r == IncludeRows(w, AllFilterable).(groups := Stated(w.groups, INCLUDED, |w.groups|));
    assert r.functions == Flagged(v.functions, AllFilterable, true, |v.functions|);
    forall i | 0 <= i < |r.functions|
      ensures r.functions[i].included
    {
      if !Filterable(v.functions[i].typeName) {
        assert v.functions[i].included;
      }
    }
    ApplyGroupKeyCoherent(v, key);
    assert ExcludedExact(r);
    assert forall e :: e in r.excluded ==> multiset(r.excluded)[e] > 0;
  }

  /**
   * Toggling the FLT row while it is EXCLUDED or PARTIAL excludes every
   * region of a filterable type and sets every filterable group to EXCLUDED.
   */
  lemma FltExcludesAll(v: View)
    requires Coherent(v) && v.groups[|v.groups| - 1].state != INCLUDED
    ensures var r := ApplyGroupKey(v, |v.groups| - 1).0;
      (forall i :: 0 <= i < |r.functions| ==> (r.functions[i].included <==> !Filterable(r.functions[i].typeName))) &&
      (forall a :: 0 <= a < |r.groups| && Filterable(r.groups[a].typeName) ==> r.groups[a].state == EXCLUDED)
  {
  }

  /** Something is filtered exactly when some region row is excluded. */
  lemma HasFilteredIff(v: View)
    requires Coherent(v)
    ensures |v.excluded| > 0 <==> exists i :: 0 <= i < |v.functions| && !v.functions[i].included
  {
    if |v.excluded| > 0 {
      var e := v.excluded[0];
      assert multiset(v.excluded)[e] > 0;
    }
    if exists i :: 0 <= i < |v.functions| && !v.functions[i].included {
      var i :| 0 <= i < |v.functions| && !v.functions[i].included;
      assert multiset(v.excluded)[i] == 1;
    }
  }

  /**
   * Toggling a region row twice restores every row; an included region is
   * also back at its place in the excluded list, an excluded one moves to
   * the end of it.
   */
  lemma RegionToggleTwice(v: View, key: nat)
    requires Coherent(v) && key < |v.functions|
    ensures var r := ApplyRegionKey(ApplyRegionKey(v, key).0, key).0;
      r.groups == v.groups && r.functions == v.functions && multiset(r.excluded) == multiset(v.excluded) &&
      (v.functions[key].included ==> r.excluded == v.excluded)
  {
    if Filterable(v.functions[key].typeName) {
      ToggleTwiceRows(v, key);
      ToggleTwiceList(v, key);
    }
  }

  lemma ToggleTwiceRows(v: View, key: nat)
    requires Coherent(v) && key < |v.functions| && Filterable(v.functions[key].typeName)
    ensures var r := ApplyRegionKey(ApplyRegionKey(v, key).0, key).0;
      r.groups == v.groups && r.functions == v.functions
  {
    var f := v.functions[key];
    var t := f.typeName;
    var w := ApplyRegionKey(v, key).0;
    var r := ApplyRegionKey(w, key).0;
    assert w.functions[key] == f.(included := !f.included);
    assert r.functions == v.functions;
    var s := if AllSame(v.functions, t, f.included) then (if f.included then INCLUDED else EXCLUDED) else PARTIAL;
    assert r.groups == TypeStated(w.groups, t, s, |w.groups|);
    forall a | 0 <= a < |v.groups|
      ensures r.groups[a] == v.groups[a]
    {
      if v.groups[a].typeName == t {
        assert a < |v.groups| - 1;
        assert StateMatches(v.groups[a].state, v.functions, t);
      }
    }
  }

  lemma ToggleTwiceList(v: View, key: nat)
    requires Coherent(v) && key < |v.functions| && Filterable(v.functions[key].typeName)
    ensures var r := ApplyRegionKey(ApplyRegionKey(v, key).0, key).0;
      multiset(r.excluded) == multiset(v.excluded) && (v.functions[key].included ==> r.excluded == v.excluded)
  {
    var f := v.functions[key];
    var w := ApplyRegionKey(v, key).0;
    var r := ApplyRegionKey(w, key).0;
    assert w.functions[key] == f.(included := !f.included);
    assert multiset(v.excluded)[key] == if f.included then 0 else 1;
    if f.included {
      assert key !in v.excluded;
      RemoveFirstAppended(v.excluded, key);
    } else {
      assert r.excluded == RemoveFirst(v.excluded, key) + [key];
      forall y: nat
        ensures multiset(r.excluded)[y] == multiset(v.excluded)[y]
      {
        RemoveFirstCount(v.excluded, key, y);
      }
    }
  }
}
