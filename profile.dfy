/**
 * The profile a score is computed from (SCOREP_Score_Profile). The CUBE
 * report itself is an abstract input: region names, per-process visit
 * counts, location counts and the call tree are given to the constructor.
 * What the profile computes is the type of every region.
 */
module ScoreProfile {
  import opened Util
  import opened Text
  import opened ScoreTypes

  /** A call-tree node: the region it calls and its children. */
  datatype CallNode = CallNode(callee: nat, children: seq<CallNode>)

  /** Every callee of the tree is a region index below n. */
  ghost predicate Within(node: CallNode, n: nat)
    decreases node
  {
    node.callee < n && forall j :: 0 <= j < |node.children| ==> Within(node.children[j], n)
  }

  /**
   * get_definition_type: the type a region name implies. The four prefixes
   * differ in their first character, so at most one matches and the order
   * of the tests does not matter.
   */
  function DefinitionType(name: string): (t: nat)
    ensures t in {USR, MPI, OMP, SHMEM, PTHREAD}
    ensures t == MPI <==> HasPrefix(name, "MPI_")
    ensures t == SHMEM <==> HasPrefix(name, "shmem_")
    ensures t == OMP <==> HasPrefix(name, "!$omp ")
    ensures t == PTHREAD <==> HasPrefix(name, "pthread_")
    ensures t == USR <==>
      !HasPrefix(name, "MPI_") && !HasPrefix(name, "shmem_") && !HasPrefix(name, "!$omp ") && !HasPrefix(name, "pthread_")
  {
    PrefixesDisjoint(name);
    if HasPrefix(name, "MPI_") then MPI
    else if HasPrefix(name, "shmem_") then SHMEM
    else if HasPrefix(name, "!$omp ") then OMP
    else if HasPrefix(name, "pthread_") then PTHREAD
    else USR
  }

  lemma PrefixesDisjoint(name: string)
    ensures HasPrefix(name, "MPI_") ==> name[0] == 'M'
    ensures HasPrefix(name, "shmem_") ==> name[0] == 's'
    ensures HasPrefix(name, "!$omp ") ==> name[0] == '!'
    ensures HasPrefix(name, "pthread_") ==> name[0] == 'p'
  {
    if HasPrefix(name, "MPI_") { assert name[..4][0] == name[0]; }
    if HasPrefix(name, "shmem_") { assert name[..6][0] == name[0]; }
    if HasPrefix(name, "!$omp ") { assert name[..6][0] == name[0]; }
    if HasPrefix(name, "pthread_") { assert name[..8][0] == name[0]; }
  }

  /** Types whose regions put their callers on a communication path; PTHREAD does not. */
  predicate IsParadigm(t: nat)
  {
    t == OMP || t == MPI || t == SHMEM
  }

  // ---------------------------------------------------------------------------
  // calculate_calltree_types as a function over the type table.

  /** Visiting a node: all children first, then the node's own region. */
  function Visit(types: seq<nat>, node: CallNode): (r: (seq<nat>, bool))
    requires Within(node, |types|)
    ensures |r.0| == |types|
    ensures forall i :: 0 <= i < |types| ==> r.0[i] == types[i] || (types[i] == USR && r.0[i] == COM)
    decreases node, 1
  {
    var (ts, onPath) := VisitChildren(types, node, 0, false);
    var t := ts[node.callee];
    (if onPath && t == USR then ts[node.callee := COM] else ts, onPath || IsParadigm(t))
  }

  /** Visiting children i.. of a node, or-ing their results into onPath. */
  function VisitChildren(types: seq<nat>, node: CallNode, i: nat, onPath: bool): (r: (seq<nat>, bool))
    requires Within(node, |types|) && i <= |node.children|
    ensures |r.0| == |types|
    ensures forall k :: 0 <= k < |types| ==> r.0[k] == types[k] || (types[k] == USR && r.0[k] == COM)
    decreases node, 0, |node.children| - i
  {
    if i == |node.children| then (types, onPath)
    else
      var (ts, p) := Visit(types, node.children[i]);
      VisitChildren(ts, node, i + 1, onPath || p)
  }

  /** The constructor visits every root in order. */
  function VisitForest(types: seq<nat>, roots: seq<CallNode>): (r: seq<nat>)
    requires forall k :: 0 <= k < |roots| ==> Within(roots[k], |types|)
    ensures |r| == |types|
    decreases |roots|
  {
    if |roots| == 0 then types else VisitForest(Visit(types, roots[0]).0, roots[1..])
  }

  /** The node's region or a descendant's region is OMP, MPI or SHMEM. */
  ghost predicate Reaches(types: seq<nat>, node: CallNode)
    requires Within(node, |types|)
    decreases node
  {
    IsParadigm(types[node.callee]) || exists j :: 0 <= j < |node.children| && Reaches(types, node.children[j])
  }

  /** Some call of region i in the tree has a child that reaches a paradigm region. */
  ghost predicate CalledAbovePath(types: seq<nat>, node: CallNode, i: nat)
    requires Within(node, |types|)
    decreases node
  {
    (node.callee == i && exists j :: 0 <= j < |node.children| && Reaches(types, node.children[j]))
    || exists j :: 0 <= j < |node.children| && CalledAbovePath(types, node.children[j], i)
  }

  /** Two type tables that agree on which regions are paradigm regions. */
  ghost predicate SameParadigms(a: seq<nat>, b: seq<nat>)
  {
    |a| == |b| && forall i :: 0 <= i < |a| ==> (IsParadigm(a[i]) <==> IsParadigm(b[i]))
  }

  lemma {:induction false} ReachesDependsOnParadigms(a: seq<nat>, b: seq<nat>, node: CallNode)
    requires SameParadigms(a, b) && Within(node, |a|)
    ensures Reaches(a, node) <==> Reaches(b, node)
    ensures forall i :: CalledAbovePath(a, node, i) <==> CalledAbovePath(b, node, i)
    decreases node
  {
    forall j | 0 <= j < |node.children| {
      ReachesDependsOnParadigms(a, b, node.children[j]);
    }
  }

  /** The table after a visit: a USR region becomes COM exactly when it was called above a path. */
  ghost predicate RetypedBy(before: seq<nat>, after: seq<nat>, node: CallNode)
    requires Within(node, |before|)
  {
    |after| == |before| &&
    forall i :: 0 <= i < |before| ==>
      after[i] == if before[i] == USR && CalledAbovePath(before, node, i) then COM else before[i]
  }

  /**
   * The result of a visit is whether the subtree reaches a paradigm region,
   * and only USR regions called above such a path change, to COM.
   */
  lemma {:induction false} VisitCharacterized(types: seq<nat>, node: CallNode)
    requires Within(node, |types|)
    ensures Visit(types, node).1 == Reaches(types, node)
    ensures RetypedBy(types, Visit(types, node).0, node)
    decreases node, 1
  {
    var n := |node.children|;
    VisitChildrenCharacterized(types, node, 0, false);
    var (ts, onPath) := VisitChildren(types, node, 0, false);
    assert onPath == exists j :: 0 <= j < n && Reaches(types, node.children[j]);
    var t := ts[node.callee];
    assert IsParadigm(t) <==> IsParadigm(types[node.callee]);
    var after := Visit(types, node).0;
    forall i | 0 <= i < |types|
      ensures after[i] == if types[i] == USR && CalledAbovePath(types, node, i) then COM else types[i]
    {
      var below := exists j :: 0 <= j < n && CalledAbovePath(types, node.children[j], i);
      assert ts[i] == if types[i] == USR && below then COM else types[i];
    }
  }

  /** Visiting children i.. of a node: the or of their reach, and the union of their retypings. */
  lemma {:induction false} VisitChildrenCharacterized(types: seq<nat>, node: CallNode, i: nat, onPath: bool)
    requires Within(node, |types|) && i <= |node.children|
    ensures VisitChildren(types, node, i, onPath).1 ==
      (onPath || exists j :: i <= j < |node.children| && Reaches(types, node.children[j]))
    ensures var after := VisitChildren(types, node, i, onPath).0;
      |after| == |types| &&
      forall k :: 0 <= k < |types| ==>
        after[k] == if types[k] == USR && exists j :: i <= j < |node.children| && CalledAbovePath(types, node.children[j], k)
                    then COM else types[k]
    decreases node, 0, |node.children| - i
  {
    if i < |node.children| {
      var c := node.children[i];
      VisitCharacterized(types, c);
      var (ts, p) := Visit(types, c);
      assert SameParadigms(types, ts);
      VisitChildrenCharacterized(ts, node, i + 1, onPath || p);
      forall j | i + 1 <= j < |node.children| {
        ReachesDependsOnParadigms(types, ts, node.children[j]);
      }
    }
  }

  /** Over the whole forest: result type table in terms of the initial one. */
  lemma {:induction false} VisitForestCharacterized(types: seq<nat>, roots: seq<CallNode>)
    requires forall k :: 0 <= k < |roots| ==> Within(roots[k], |types|)
    ensures var after := VisitForest(types, roots);
      forall i :: 0 <= i < |types| ==>
        after[i] == if types[i] == USR && exists k :: 0 <= k < |roots| && CalledAbovePath(types, roots[k], i)
                    then COM else types[i]
    decreases |roots|
  {
    if |roots| > 0 {
      VisitCharacterized(types, roots[0]);
      var ts := Visit(types, roots[0]).0;
      assert SameParadigms(types, ts);
      VisitForestCharacterized(ts, roots[1..]);
      forall k | 0 <= k < |roots| - 1 {
        ReachesDependsOnParadigms(types, ts, roots[1..][k]);
      }
    }
  }

  /** Retyping is monotone: USR may become COM, every other type is kept. */
  lemma VisitForestOnlyUsrToCom(types: seq<nat>, roots: seq<CallNode>)
    requires forall k :: 0 <= k < |roots| ==> Within(roots[k], |types|)
    ensures var after := VisitForest(types, roots);
      forall i :: 0 <= i < |types| ==> after[i] == types[i] || (types[i] == USR && after[i] == COM)
  {
    VisitForestCharacterized(types, roots);
  }

  // ---------------------------------------------------------------------------

  class Profile {
    const regionNames: seq<string>
    const mangledNames: seq<string>
    /** visits[region][process] */
    const visits: seq<seq<nat>>
    /** The number of locations of each process. */
    const locations: seq<nat>
    const processNum: nat
    const fileSize: nat
    const metricNum: nat
    const roots: seq<CallNode>
    /** m_region_types */
    const regionTypes: array<nat>

    /** Shape of the abstract CUBE data. */
    ghost predicate WellFormed()
    {
      |mangledNames| == |regionNames| == |visits| == regionTypes.Length &&
      processNum == |locations| &&
      (forall r :: 0 <= r < |visits| ==> |visits[r]| == processNum) &&
      (forall k :: 0 <= k < |roots| ==> Within(roots[k], |regionNames|))
    }

    ghost predicate Valid()
      reads regionTypes
    {
      WellFormed() &&
      forall r :: 0 <= r < regionTypes.Length ==> regionTypes[r] in {USR, COM, MPI, OMP, SHMEM, PTHREAD}
    }

    /** The definition types of all regions, before the call tree is taken into account. */
    ghost function DefinitionTypes(): (ts: seq<nat>)
      ensures |ts| == |regionNames|
    {
      seq(|regionNames|, r requires 0 <= r < |regionNames| => DefinitionType(regionNames[r]))
    }

    /** Types every region by name, then retypes along every root's call tree. */
    constructor (regionNames: seq<string>, mangledNames: seq<string>, visits: seq<seq<nat>>,
                 locations: seq<nat>, fileSize: nat, metricNum: nat, roots: seq<CallNode>)
      requires |mangledNames| == |regionNames| == |visits|
      requires forall r :: 0 <= r < |visits| ==> |visits[r]| == |locations|
      requires forall k :: 0 <= k < |roots| ==> Within(roots[k], |regionNames|)
      ensures Valid() && fresh(regionTypes)
      ensures this.regionNames == regionNames && this.mangledNames == mangledNames && this.visits == visits
      ensures this.locations == locations && processNum == |locations| && this.fileSize == fileSize
      ensures this.metricNum == metricNum && this.roots == roots
      ensures regionTypes[..] == VisitForest(DefinitionTypes(), roots)
    {
      this.regionNames := regionNames;
      this.mangledNames := mangledNames;
      this.visits := visits;
      this.locations := locations;
      processNum := |locations|;
      this.fileSize := fileSize;
      this.metricNum := metricNum;
      this.roots := roots;
      var types := new nat[|regionNames|];
      for r := 0 to |regionNames|
        invariant forall q :: 0 <= q < r ==> types[q] == DefinitionType(regionNames[q])
      {
        types[r] := DefinitionType(regionNames[r]);
      }
      regionTypes := types;
      new;
      assert regionTypes[..] == DefinitionTypes();
      ghost var initial := regionTypes[..];
      for k := 0 to |roots|
        invariant regionTypes[..] == VisitForest(initial, roots[..k])
      {
        VisitForestSplit(initial, roots, k);
        var _ := CalculateCalltreeTypes(roots[k]);
      }
      assert roots[..|roots|] == roots;
      VisitForestOnlyUsrToCom(initial, roots);
    }

    /** calculate_calltree_types: visits a call-tree node, updating the type table in place. */
    method CalculateCalltreeTypes(node: CallNode) returns (onPath: bool)
      requires Within(node, regionTypes.Length)
      modifies regionTypes
      ensures (regionTypes[..], onPath) == Visit(old(regionTypes[..]), node)
      decreases node
    {
      onPath := false;
      ghost var initial := regionTypes[..];
      for i := 0 to |node.children|
        invariant VisitChildren(regionTypes[..], node, i, onPath) == VisitChildren(initial, node, 0, false)
      {
        var p := CalculateCalltreeTypes(node.children[i]);
        onPath := if p then true else onPath;
      }
      var region := node.callee;
      var t := regionTypes[region];
      if onPath && t == USR {
        regionTypes[region] := COM;
      }
      if IsParadigm(t) {
        onPath := true;
      }
    }

    /** getGroup: the type of a region; never ALL or FLT. */
    function GetGroup(region: nat): (t: nat)
      reads regionTypes
      requires Valid() && region < |regionNames|
      ensures t < TYPE_NUM && t != ALL && t != FLT
    {
      regionTypes[region]
    }

    /** getMaxVisits: the largest visit count of a region over all processes. */
    method GetMaxVisits(region: nat) returns (m: nat)
      requires WellFormed() && region < |regionNames|
      ensures m == MaxOf(visits[region])
    {
      m := 0;
      for p := 0 to processNum
        invariant m == MaxOf(visits[region][..p])
      {
        assert visits[region][..p + 1][..p] == visits[region][..p];
        var value := visits[region][p];
        m := if value > m then value else m;
      }
      assert visits[region][..processNum] == visits[region];
    }

    /** getMaxNumberOfLocationsPerProcess: the largest location count of a process. */
    method GetMaxNumberOfLocationsPerProcess() returns (m: nat)
      requires WellFormed()
      ensures m == MaxOf(locations)
    {
      m := 0;
      for i := 0 to |locations|
        invariant m == MaxOf(locations[..i])
      {
        assert locations[..i + 1][..i] == locations[..i];
        var value := locations[i];
        m := if value > m then value else m;
      }
      assert locations[..|locations|] == locations;
    }
  }

  lemma {:induction false} VisitForestAppend(types: seq<nat>, a: seq<CallNode>, b: seq<CallNode>)
    requires forall q :: 0 <= q < |a| ==> Within(a[q], |types|)
    requires forall q :: 0 <= q < |b| ==> Within(b[q], |types|)
    ensures VisitForest(types, a + b) == VisitForest(VisitForest(types, a), b)
    decreases |a|
  {
    if |a| == 0 {
      assert a + b == b;
    } else {
      assert (a + b)[1..] == a[1..] + b;
      VisitForestAppend(Visit(types, a[0]).0, a[1..], b);
    }
  }

  lemma VisitForestSplit(types: seq<nat>, roots: seq<CallNode>, k: nat)
    requires k < |roots| && forall q :: 0 <= q < |roots| ==> Within(roots[q], |types|)
    ensures Within(roots[k], |VisitForest(types, roots[..k])|)
    ensures VisitForest(types, roots[..k + 1]) == Visit(VisitForest(types, roots[..k]), roots[k]).0
  {
    assert roots[..k + 1] == roots[..k] + [roots[k]];
    VisitForestAppend(types, roots[..k], [roots[k]]);
  }
}
