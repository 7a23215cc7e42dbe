/**
 * Trace events of the score tool: each event has a name, a byte size and a
 * test whether a region with a given name triggers it
 * (SCOREP_Score_Event). The registry of all events is an explicit value, a
 * catalog kept in name order as the source's std::map is.
 */
module ScoreEvent {
  import opened Util
  import opened Text
  import opened EventList

  const UINT32: nat := 0x1_0000_0000

  /** The event classes of the source, one constructor per class. */
  datatype EventKind =
    | Plain
    | Enter
    | Leave
    | Metric(numDense: nat)
    | Timestamp
    | Parameter
    | NameMatch(regionList: NameList)
    | PrefixMatch(prefixList: NameList)

  /** size is the stored uint32 byte size. */
  datatype Event = Event(name: string, kind: EventKind, size: nat)

  /** A freshly constructed event has size 0. */
  function NewEvent(name: string, kind: EventKind): (e: Event)
    ensures e.name == name && e.kind == kind && e.size == 0
  {
    Event(name, kind, 0)
  }

  /** Enter, leave and timestamp events occur in every region without a parameter. */
  function EnterEvent(): (e: Event)
    ensures e.name == "Enter" && e.size == 0
    ensures forall r :: OccursInRegion(e, r) <==> !HasParameter(r)
  {
    NewEvent("Enter", Enter)
  }

  function LeaveEvent(): (e: Event)
    ensures e.name == "Leave" && e.size == 0
    ensures forall r :: OccursInRegion(e, r) <==> !HasParameter(r)
  {
    NewEvent("Leave", Leave)
  }

  function TimestampEvent(): (e: Event)
    ensures e.name == "Timestamp" && e.size == 0 && e.kind.Timestamp?
    ensures forall r :: OccursInRegion(e, r) <==> !HasParameter(r)
  {
    NewEvent("Timestamp", Timestamp)
  }

  /** The parameter event occurs in parameter regions that are not dynamic instances. */
  function ParameterEvent(): (e: Event)
    ensures e.name == "ParameterInt" && e.size == 0
    ensures forall r :: OccursInRegion(e, r) <==> HasParameter(r) && !HasPrefix(r, "instance=")
  {
    NewEvent("ParameterInt", Parameter)
  }

  /** The metric event's name is "Metric" followed by a blank and the number of dense metrics. */
  function MetricEvent(numDense: nat): (e: Event)
    ensures e.name == "Metric " + NatToString(numDense) && e.kind == Metric(numDense) && e.size == 0
  {
    NewEvent("Metric " + NatToString(numDense), Metric(numDense))
  }

  /** The source keeps the region names in a std::set; only membership is ever asked, of Names(regions). */
  function NameMatchEvent(name: string, regions: NameList): (e: Event)
    ensures e.name == name && e.size == 0
    ensures forall r :: OccursInRegion(e, r) <==> r in Names(regions)
  {
    NewEvent(name, NameMatch(regions))
  }

  /** A prefix-match event occurs in a region whose name starts with one of the prefixes. */
  function PrefixMatchEvent(name: string, prefixes: NameList): (e: Event)
    ensures e.name == name && e.size == 0
    ensures forall r :: OccursInRegion(e, r) <==> exists p :: p in Names(prefixes) && HasPrefix(r, p)
  {
    NewEvent(name, PrefixMatch(prefixes))
  }

  /** Metric and timestamp events are written twice per visit (enter and exit). */
  predicate Doubled(kind: EventKind)
  {
    kind.Metric? || kind.Timestamp?
  }

  /**
   * setEventSize: ordinary events store the size, doubled events twice the
   * size, both as 32-bit unsigned values.
   */
  function SetSize(e: Event, size: nat): (r: Event)
    requires size < UINT32
    ensures r.name == e.name && r.kind == e.kind && r.size < UINT32
    ensures !Doubled(e.kind) ==> r.size == size
    ensures Doubled(e.kind) && size < UINT32 / 2 ==> r.size == 2 * size
    ensures Doubled(e.kind) && size >= UINT32 / 2 ==> r.size == 2 * size - UINT32
  {
    if Doubled(e.kind) then e.(size := (2 * size) % UINT32) else e.(size := size)
  }

  /** std::string::substr(0, n): at most the first n characters. */
  function Substr(s: string, n: nat): (r: string)
    ensures |r| <= n && r <= s
  {
    if n <= |s| then s[..n] else s
  }

  predicate HasParameter(regionName: string)
  {
    '=' in regionName
  }

  /**
   * occursInRegion of every event class. A prefix is compared with
   * substr(0, |prefix|), which clips at the end of the name, so a prefix
   * longer than the name never matches.
   */
  predicate OccursInRegion(e: Event, regionName: string): (occurs: bool)
    ensures e.kind.Plain? ==> !occurs
    ensures occurs && HasParameter(regionName) ==> e.kind.Parameter? || e.kind.NameMatch? || e.kind.PrefixMatch?
  {
    match e.kind
    case Plain => false
    case Enter => !HasParameter(regionName)
    case Leave => !HasParameter(regionName)
    case Metric(_) => !HasParameter(regionName)
    case Timestamp => !HasParameter(regionName)
    case Parameter => HasParameter(regionName) && !HasPrefix(regionName, "instance=")
    case NameMatch(list) => regionName in Names(list)
    case PrefixMatch(list) => exists i :: 0 <= i < |Names(list)| && HasPrefix(regionName, Names(list)[i])
  }

  /** A prefix matches when it equals the name clipped to the prefix's length. */
  lemma PrefixOccurrence(e: Event, regionName: string)
    requires e.kind.PrefixMatch?
    ensures OccursInRegion(e, regionName) <==>
      exists i :: 0 <= i < |Names(e.kind.prefixList)| && Names(e.kind.prefixList)[i] == Substr(regionName, |Names(e.kind.prefixList)[i]|)
  {
  }

  /** Enter, leave, metric and timestamp events are exactly the parameter-free regions. */
  lemma EnterLikeOccurrence(e: Event, regionName: string)
    requires e.kind.Enter? || e.kind.Leave? || e.kind.Metric? || e.kind.Timestamp?
    ensures OccursInRegion(e, regionName) <==> forall i :: 0 <= i < |regionName| ==> regionName[i] != '='
  {
  }

  /** A parameter region has no enter event, and dynamic "instance=" regions have neither. */
  lemma ParameterExcludesEnter(regionName: string)
    ensures OccursInRegion(ParameterEvent(), regionName) ==> !OccursInRegion(EnterEvent(), regionName)
    ensures HasPrefix(regionName, "instance=") ==>
      !OccursInRegion(ParameterEvent(), regionName) && !OccursInRegion(EnterEvent(), regionName)
  {
    if HasPrefix(regionName, "instance=") {
      assert regionName[8] == '=';
    }
  }

  /** A name match event occurs in exactly the listed regions. */
  lemma NameMatchOccurrence(name: string, regions: NameList, regionName: string)
    ensures OccursInRegion(NameMatchEvent(name, regions), regionName) <==> regionName in Names(regions)
  {
  }

  /** The base event class never occurs. */
  lemma PlainNeverOccurs(name: string, regionName: string)
    ensures !OccursInRegion(NewEvent(name, Plain), regionName)
  {
  }

  // ---------------------------------------------------------------------------
  // The registry of all events.

  /** Total order of std::string: lexicographic by character. */
  predicate Less(a: string, b: string)
    decreases |a|
  {
    if |a| == 0 then |b| > 0
    else if |b| == 0 then false
    else if a[0] != b[0] then a[0] < b[0]
    else Less(a[1..], b[1..])
  }

  lemma {:induction false} LessIrreflexive(a: string)
    ensures !Less(a, a)
    decreases |a|
  {
    if |a| > 0 {
      LessIrreflexive(a[1..]);
    }
  }

  lemma {:induction false} LessTransitive(a: string, b: string, c: string)
    requires Less(a, b) && Less(b, c)
    ensures Less(a, c)
    decreases |a|
  {
    if |a| > 0 && a[0] == b[0] && b[0] == c[0] {
      LessTransitive(a[1..], b[1..], c[1..]);
    }
  }

  lemma {:induction false} LessTotal(a: string, b: string)
    ensures a == b || Less(a, b) || Less(b, a)
    decreases |a|
  {
    if |a| > 0 && |b| > 0 && a[0] == b[0] {
      LessTotal(a[1..], b[1..]);
      if a[1..] == b[1..] {
        assert a == [a[0]] + a[1..] && b == [b[0]] + b[1..];
      }
    }
  }

  /** The registry: events sorted strictly by name, so every name appears once. */
  type Catalog = seq<Event>

  ghost predicate Ordered(c: Catalog)
  {
    forall i, j :: 0 <= i < j < |c| ==> Less(c[i].name, c[j].name)
  }

  /** The event registered under a name, if any (map::find). */
  function Find(c: Catalog, name: string): (r: Option<Event>)
    ensures r.Some? ==> r.value in c && r.value.name == name
    ensures r.None? <==> forall i :: 0 <= i < |c| ==> c[i].name != name
  {
    if |c| == 0 then None
    else if c[0].name == name then Some(c[0])
    else Find(c[1..], name)
  }

  lemma {:induction false} FindNotBelow(c: Catalog, name: string)
    requires Ordered(c) && |c| > 0 && Less(name, c[0].name)
    ensures Find(c, name).None?
  {
    forall i | 0 <= i < |c|
      ensures c[i].name != name
    {
      if i > 0 {
        LessTransitive(name, c[0].name, c[i].name);
      }
      if c[i].name == name {
        LessIrreflexive(name);
      }
    }
  }

  /**
   * RegisterEvent: map insertion, which keeps an event already registered
   * under the same name and ignores the new one.
   */
  function Register(c: Catalog, e: Event): (r: Catalog)
    requires Ordered(c)
    ensures Ordered(r)
    ensures forall i :: 0 <= i < |r| ==> r[i] == e || r[i] in c
    ensures Find(c, e.name).Some? ==> r == c
    decreases |c|
  {
    if |c| == 0 then [e]
    else if c[0].name == e.name then c
    else if Less(e.name, c[0].name) then
      assert Ordered([e] + c) by {
        forall i, j | 0 <= i < j < |[e] + c|
          ensures Less(([e] + c)[i].name, ([e] + c)[j].name)
        {
          if i == 0 && j > 1 {
            LessTransitive(e.name, c[0].name, c[j - 1].name);
          }
        }
      }
      FindNotBelow(c, e.name);
      [e] + c
    else
      assert Less(c[0].name, e.name) by {
        LessTotal(c[0].name, e.name);
      }
      var rest := Register(c[1..], e);
      RegisterBehind(c, e, rest);
      [c[0]] + rest
  }

  /** The step of Register past a smaller first name. */
  lemma RegisterBehind(c: Catalog, e: Event, rest: Catalog)
    requires Ordered(c) && |c| > 0 && Less(c[0].name, e.name) && Ordered(rest)
    requires forall i :: 0 <= i < |rest| ==> rest[i] == e || rest[i] in c[1..]
    requires Find(c[1..], e.name).Some? ==> rest == c[1..]
    ensures Ordered([c[0]] + rest)
    ensures forall i :: 0 <= i < |[c[0]] + rest| ==> ([c[0]] + rest)[i] == e || ([c[0]] + rest)[i] in c
    ensures Find(c, e.name).Some? ==> [c[0]] + rest == c
  {
    var r := [c[0]] + rest;
    forall j | 0 <= j < |rest|
      ensures Less(c[0].name, rest[j].name)
    {
      if rest[j] != e {
        var k :| 0 <= k < |c[1..]| && c[1..][k] == rest[j];
        assert c[1..][k] == c[k + 1];
      }
    }
    forall i, j | 0 <= i < j < |r|
      ensures Less(r[i].name, r[j].name)
    {
      if i > 0 {
        assert r[i] == rest[i - 1] && r[j] == rest[j - 1];
      }
    }
    LessIrreflexive(e.name);
    assert c[0].name != e.name;
    if Find(c, e.name).Some? {
      assert Find(c, e.name) == Find(c[1..], e.name);
      assert c == [c[0]] + c[1..];
    }
  }

  /** After registering, a name finds the new event exactly when it was not registered before. */
  lemma {:induction false} RegisterFind(c: Catalog, e: Event, n: string)
    requires Ordered(c)
    ensures Find(Register(c, e), n) == if n == e.name && Find(c, n).None? then Some(e) else Find(c, n)
    decreases |c|
  {
    if |c| > 0 && c[0].name != e.name {
      if Less(e.name, c[0].name) {
        FindNotBelow(c, e.name);
        assert ([e] + c)[1..] == c;
      } else {
        LessTotal(c[0].name, e.name);
        RegisterFind(c[1..], e, n);
        assert ([c[0]] + Register(c[1..], e))[1..] == Register(c[1..], e);
      }
    }
  }

  /** Registering a list of events in order. */
  function RegisterAll(c: Catalog, events: seq<Event>): (r: Catalog)
    requires Ordered(c)
    decreases |events|
  {
    if |events| == 0 then c else RegisterAll(Register(c, events[0]), events[1..])
  }

  /** Registering keeps the catalog in name order. */
  lemma {:induction false} RegisterAllOrdered(c: Catalog, events: seq<Event>)
    requires Ordered(c)
    ensures Ordered(RegisterAll(c, events))
    decreases |events|
  {
    if |events| > 0 {
      RegisterAllOrdered(Register(c, events[0]), events[1..]);
    }
  }

  /** The first event of a list having the given name. */
  function FirstNamed(events: seq<Event>, name: string): (r: Option<Event>)
    ensures r.Some? ==> r.value in events && r.value.name == name
  {
    if |events| == 0 then None
    else if events[0].name == name then Some(events[0])
    else FirstNamed(events[1..], name)
  }

  /** After registering a list, a name maps to its earliest registration. */
  lemma {:induction false} RegisterAllFirstWins(c: Catalog, events: seq<Event>, name: string)
    requires Ordered(c)
    ensures Find(RegisterAll(c, events), name) ==
      if Find(c, name).Some? then Find(c, name) else FirstNamed(events, name)
    decreases |events|
  {
    if |events| > 0 {
      RegisterFind(c, events[0], name);
      RegisterAllFirstWins(Register(c, events[0]), events[1..], name);
    }
  }

  lemma {:induction false} FirstNamedAppend(a: seq<Event>, b: seq<Event>, name: string)
    ensures FirstNamed(a + b, name) == if FirstNamed(a, name).Some? then FirstNamed(a, name) else FirstNamed(b, name)
  {
    if |a| > 0 {
      assert (a + b)[1..] == a[1..] + b;
      FirstNamedAppend(a[1..], b, name);
    } else {
      assert a + b == b;
    }
  }

  /** GetEventSize: the size of the registered event, 0 for an unknown name. */
  function GetEventSize(c: Catalog, name: string): (size: nat)
    ensures (forall i :: 0 <= i < |c| ==> c[i].name != name) ==> size == 0
    ensures Ordered(c) ==> forall i :: 0 <= i < |c| && c[i].name == name ==> size == c[i].size
  {
    match Find(c, name)
    case None => 0
    case Some(e) => NameOnce(c, name); e.size
  }

  /** In a catalog kept in name order no name is registered twice. */
  lemma NameOnce(c: Catalog, name: string)
    ensures Ordered(c) ==> forall i, j :: 0 <= i < |c| && 0 <= j < |c| && c[i].name == name && c[j].name == name ==> i == j
  {
    LessIrreflexive(name);
  }

  /** SetEventSize: sets the size of the registered event; an unknown name changes nothing. */
  function SetEventSize(c: Catalog, name: string, size: nat): (r: Catalog)
    requires size < UINT32
    ensures |r| == |c| && forall i :: 0 <= i < |c| ==> r[i].name == c[i].name && r[i].kind == c[i].kind
    ensures forall n :: Find(r, n) == (if n == name && Find(c, n).Some? then Some(SetSize(Find(c, n).value, size)) else Find(c, n))
    ensures Find(c, name).None? ==> r == c
  {
    if |c| == 0 then c
    else if c[0].name == name then [SetSize(c[0], size)] + c[1..]
    else [c[0]] + SetEventSize(c[1..], name, size)
  }

  lemma SetEventSizeKeepsOrder(c: Catalog, name: string, size: nat)
    requires size < UINT32 && Ordered(c)
    ensures Ordered(SetEventSize(c, name, size))
  {
  }
}
