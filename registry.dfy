/**
 * The events the estimator registers, in the order its constructor
 * registers them, and the step that asks the event-size oracle for their
 * sizes (calculate_event_sizes).
 */
module EventRegistry {
  import opened Util
  import opened Text
  import opened EventList
  import opened ScoreEvent
  import opened EventOracle

  /** The name-match events, in registration order. */
  function NameMatchEvents(): (events: seq<Event>)
    ensures forall k :: 0 <= k < |events| ==> events[k].size == 0 && events[k].kind.NameMatch?
  {
    NameMatchFrom(0)
  }

  /** The name-match events from index i on. */
  function NameMatchFrom(i: nat): (events: seq<Event>)
    ensures forall k :: 0 <= k < |events| ==> events[k].size == 0 && events[k].kind.NameMatch?
    decreases 20 - i
  {
    if i < 20 then [NameMatchAt(i)] + NameMatchFrom(i + 1) else []
  }

  /** The i-th name-match event; the last one stands for every index from 19 on. */
  function NameMatchAt(i: int): Event
  {
    match i
    case 0 => NameMatchEvent("MpiSend", MpiSendList)
    case 1 => NameMatchEvent("MpiIsend", MpiIsendList)
    case 2 => NameMatchEvent("MpiIsendComplete", MpiIsendCompleteList)
    case 3 => NameMatchEvent("MpiIrecvRequest", MpiIrecvRequestList)
    case 4 => NameMatchEvent("MpiRecv", MpiRecvList)
    case 5 => NameMatchEvent("MpiIrecv", MpiIrecvList)
    case 6 => NameMatchEvent("MpiCollectiveBegin", MpiCollectiveList)
    case 7 => NameMatchEvent("MpiCollectiveEnd", MpiCollectiveList)
    case 8 => NameMatchEvent("ThreadAcquireLock", ThreadAcquireLockList)
    case 9 => NameMatchEvent("ThreadReleaseLock", ThreadReleaseLockList)
    case 10 => NameMatchEvent("RmaPut", RmaOpList)
    case 11 => NameMatchEvent("RmaOpCompleteBlocking", RmaOpList)
    case 12 => NameMatchEvent("RmaOpCompleteRemote", RmaOpCompleteRemoteList)
    case 13 => NameMatchEvent("RmaAtomic", RmaAtomicList)
    case 14 => NameMatchEvent("RmaOpCompleteBlocking", RmaAtomicList)
    case 15 => NameMatchEvent("RmaCollectiveBegin", RmaCollectiveList)
    case 16 => NameMatchEvent("RmaCollectiveEnd", RmaCollectiveList)
    case 17 => NameMatchEvent("RmaWaitChange", RmaWaitChangeList)
    case 18 => NameMatchEvent("RmaRequestLock", RmaLockList)
    case _ => NameMatchEvent("RmaReleaseLock", RmaReleaseLockList)
  }

  /** The prefix-match events, in registration order. */
  function PrefixMatchEvents(): (events: seq<Event>)
    ensures forall k :: 0 <= k < |events| ==> events[k].size == 0 && events[k].kind.PrefixMatch?
  {
    PrefixMatchFrom(0)
  }

  /** The prefix-match events from index i on. */
  function PrefixMatchFrom(i: nat): (events: seq<Event>)
    ensures forall k :: 0 <= k < |events| ==> events[k].size == 0 && events[k].kind.PrefixMatch?
    decreases 11 - i
  {
    if i < 11 then [PrefixMatchAt(i)] + PrefixMatchFrom(i + 1) else []
  }

  /** The i-th prefix-match event; the last one stands for every index from 10 on. */
  function PrefixMatchAt(i: int): Event
  {
    match i
    case 0 => PrefixMatchEvent("ThreadFork", ThreadForkList)
    case 1 => PrefixMatchEvent("ThreadJoin", ThreadJoinList)
    case 2 => PrefixMatchEvent("ThreadTeamBegin", ThreadTeamList)
    case 3 => PrefixMatchEvent("ThreadTeamEnd", ThreadTeamList)
    case 4 => PrefixMatchEvent("ThreadTaskCreate", ThreadTaskCreateList)
    case 5 => PrefixMatchEvent("ThreadTaskComplete", ThreadTaskCreateList)
    case 6 => PrefixMatchEvent("ThreadTaskSwitch", ThreadTaskSwitchList)
    case 7 => PrefixMatchEvent("ThreadCreate", ThreadCreateWaitCreateList)
    case 8 => PrefixMatchEvent("ThreadBegin", ThreadCreateWaitBeginList)
    case 9 => PrefixMatchEvent("ThreadWait", ThreadCreateWaitWaitList)
    case _ => PrefixMatchEvent("ThreadEnd", ThreadCreateWaitEndList)
  }

  /** Every event the constructor registers, in order; the metric event only with dense metrics. */
  function EstimatorEvents(denseNum: nat): (events: seq<Event>)
    ensures |events| > 3 && events[0] == TimestampEvent() && events[1] == EnterEvent() && events[2] == LeaveEvent()
    ensures denseNum > 0 ==> events[3] == MetricEvent(denseNum)
    ensures (exists i :: 0 <= i < |events| && events[i].kind.Metric?) <==> denseNum > 0
    ensures forall i :: 0 <= i < |events| ==> events[i].size == 0
  {
    var basic := BasicEvents(denseNum);
    var rest := NameMatchEvents() + PrefixMatchEvents();
    FreshAndPlain(basic, rest);
    basic + rest
  }

  /** Appending list events, all fresh and none a metric event, keeps both properties of the basic events. */
  lemma FreshAndPlain(basic: seq<Event>, rest: seq<Event>)
    requires forall i :: 0 <= i < |rest| ==> rest[i].size == 0 && !rest[i].kind.Metric?
    ensures forall i :: |basic| <= i < |basic + rest| ==> (basic + rest)[i].size == 0 && !(basic + rest)[i].kind.Metric?
  {
  }

  /** Timestamp, enter, leave, the metric event with dense metrics, and the parameter event. */
  function BasicEvents(denseNum: nat): (events: seq<Event>)
    ensures |events| > 3 && events[0] == TimestampEvent() && events[1] == EnterEvent() && events[2] == LeaveEvent()
    ensures denseNum > 0 ==> events[3] == MetricEvent(denseNum)
    ensures forall i :: 0 <= i < |events| ==> events[i].size == 0 && (events[i].kind.Metric? ==> denseNum > 0 && i == 3)
  {
    [TimestampEvent(), EnterEvent(), LeaveEvent()]
    + (if denseNum > 0 then [MetricEvent(denseNum)] else [])
    + [ParameterEvent()]
  }

  /**
   * RmaOpCompleteBlocking is registered twice, first with the put/get
   * regions and then with the atomic regions; the first registration stays.
   */
  lemma RmaOpCompleteBlockingFirstWins(denseNum: nat)
    ensures Find(RegisterAll([], EstimatorEvents(denseNum)), "RmaOpCompleteBlocking")
      == Some(NameMatchEvent("RmaOpCompleteBlocking", RmaOpList))
  {
    assert EstimatorEvents(denseNum) == BasicEvents(denseNum) + NameMatchEvents() + PrefixMatchEvents();
    BasicNamesDiffer(denseNum);
    NameMatchNamesBefore();
    FirstInParts(BasicEvents(denseNum), NameMatchEvents(), PrefixMatchEvents(), "RmaOpCompleteBlocking", 11);
    RegisterAllFirstWins([], EstimatorEvents(denseNum), "RmaOpCompleteBlocking");
  }

  /** The first event of a name in a three-part list, when it is found in the middle part. */
  lemma FirstInParts(head: seq<Event>, mid: seq<Event>, tail: seq<Event>, name: string, k: nat)
    requires forall i :: 0 <= i < |head| ==> head[i].name != name
    requires k < |mid| && mid[k].name == name && forall i :: 0 <= i < k ==> mid[i].name != name
    ensures FirstNamed(head + mid + tail, name) == Some(mid[k])
  {
    assert head + mid + tail == head + (mid + tail);
    FirstNamedAbsent(head, name);
    FirstNamedAppend(head, mid + tail, name);
    FirstNamedAppend(mid, tail, name);
    FirstNamedAt(mid, name, k);
  }

  lemma BasicNamesDiffer(denseNum: nat)
    ensures forall i :: 0 <= i < |BasicEvents(denseNum)| ==> BasicEvents(denseNum)[i].name != "RmaOpCompleteBlocking"
  {
    assert MetricEvent(denseNum).name[0] == 'M';
  }

  lemma NameMatchNamesBefore()
    ensures NameMatchEvents()[11] == NameMatchEvent("RmaOpCompleteBlocking", RmaOpList)
    ensures forall i :: 0 <= i < 11 ==> NameMatchEvents()[i].name != "RmaOpCompleteBlocking"
  {
    var n := NameMatchEvents();
    forall i | 0 <= i < 11
      ensures n[i].name != "RmaOpCompleteBlocking"
    {
      assert |n[i].name| != 21;
    }
  }

  lemma {:induction false} FirstNamedAbsent(events: seq<Event>, name: string)
    requires forall i :: 0 <= i < |events| ==> events[i].name != name
    ensures FirstNamed(events, name).None?
  {
    if |events| > 0 {
      FirstNamedAbsent(events[1..], name);
    }
  }

  lemma {:induction false} FirstNamedAt(events: seq<Event>, name: string, k: nat)
    requires k < |events| && events[k].name == name
    requires forall i :: 0 <= i < k ==> events[i].name != name
    ensures FirstNamed(events, name) == Some(events[k])
  {
    if k > 0 {
      FirstNamedAt(events[1..], name, k - 1);
    }
  }

  /**
   * calculate_event_sizes: when the oracle cannot be run, the sizes stay
   * as they are; otherwise every line of its answer is applied in order.
   */
  function EventSizes(c: Catalog, regionNum: nat, metricNum: nat, oracle: string -> Option<string>): Catalog
  {
    match oracle(Request(regionNum, metricNum, c))
    case None => c
    case Some(answer) => ApplyResponse(c, SplitLines(answer))
  }
}
