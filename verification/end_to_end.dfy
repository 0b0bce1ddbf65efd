/**
 From the socket to the store: what the transport accepted, in order, is what the store's handlers
 applied, once each. The dispatch loop takes each envelope the iterator yields and publishes it on the
 bus; the handlers of `bind_ws_events_to_store` apply it.
 */
module EndToEnd {
  import opened Common
  import opened EventBusModel
  import opened StoreGraph
  import W = WsTransportModel

  // ---- events and the handlers bound to the store ----

  datatype Payload =
    | ValuePush(push: ValueChanged)
    | CdpStatePush(key: CdpKey, state: CdpState)
    | DeviceCreated(address: Address)
    | DeviceRemoved(address: Address)
    | AvailabilityPush(address: Address, available: bool)
    | RefreshedPush(address: Address, at: int)
    | Elsewhere(topic: string)

  datatype LoomEvent = LoomEvent(payload: Payload, eventKey: Option<string>)

  function TopicOf(p: Payload): EventType {
    match p
    case ValuePush(_) => "datapoint.value_changed"
    case CdpStatePush(_, _) => "custom_data_point.state_changed"
    case DeviceCreated(_) => "device.created"
    case DeviceRemoved(_) => "device.removed"
    case AvailabilityPush(_, _) => "device.availability_changed"
    case RefreshedPush(_, _) => "device.refreshed"
    case Elsewhere(topic) => "other." + topic
  }

  /** The bindings that reach the device graph, in the order they are made; none asks for a key. */
  const Wire: seq<Sub> := [
    Sub("datapoint.value_changed", None, 0),
    Sub("custom_data_point.state_changed", None, 1),
    Sub("device.created", None, 2),
    Sub("device.removed", None, 3),
    Sub("device.availability_changed", None, 4),
    Sub("device.refreshed", None, 5)]

  function WireIndex(p: Payload): Option<nat> {
    match p
    case ValuePush(_) => Some(0)
    case CdpStatePush(_, _) => Some(1)
    case DeviceCreated(_) => Some(2)
    case DeviceRemoved(_) => Some(3)
    case AvailabilityPush(_, _) => Some(4)
    case RefreshedPush(_, _) => Some(5)
    case Elsewhere(_) => None
  }

  /** What applying an event to the store means. */
  function Applied(g: Graph, p: Payload): Graph {
    match p
    case ValuePush(push) => ApplyValueChanged(g, push)
    case CdpStatePush(key, state) => ApplyCdpState(g, key, state)
    case DeviceCreated(a) => ApplyDeviceCreated(g, a)
    case DeviceRemoved(a) => ApplyDeviceRemoved(g, a)
    case AvailabilityPush(a, available) => ApplyAvailabilityChanged(g, a, available)
    case RefreshedPush(a, at) => ApplyRefreshed(g, a, at)
    case Elsewhere(_) => g
  }

  /** Handler `h` called with an event: only the store handler made for that event touches the graph. */
  function Handled(g: Graph, h: Handler, p: Payload): Graph {
    if WireIndex(p) == Some(h) then Applied(g, p) else g
  }

  function HandledBy(g: Graph, b: Bus, calls: seq<nat>, p: Payload): Graph {
    if calls == [] then g
    else
      var rest, token := HandledBy(g, b, calls[..|calls| - 1], p), calls[|calls| - 1];
      if token < |b.issued| then Handled(rest, b.issued[token].handler, p) else rest
  }

  // ---- the dispatch loop ----

  datatype State = State(bus: Bus, members: seq<nat>, graph: Graph)

  /** One envelope dispatched, with what the handlers do to the registry, or `start_events` called again. */
  datatype Turn = Deliver(event: LoomEvent, reactions: seq<Reaction>) | StartAgain

  /** Handlers of others cannot name the group's own closures: they neither subscribe nor unsubscribe them. */
  predicate ForeignAction(members: seq<nat>, action: Action) {
    match action
    case Subscribe(sub) => sub.handler >= |Wire|
    case Unsubscribe(token) => token !in members
  }

  predicate Foreign(members: seq<nat>, actions: seq<Action>) {
    forall i :: 0 <= i < |actions| ==> ForeignAction(members, actions[i])
  }

  predicate Fits(s: State, turn: Turn) {
    match turn
    case Deliver(e, reactions) =>
      |reactions| >= |Bucket(s.bus, TopicOf(e.payload))| && forall r <- reactions :: Foreign(s.members, r.actions)
    case StartAgain => true
  }

  function Next(s: State, turn: Turn): State
    requires Fits(s, turn)
  {
    match turn
    case Deliver(e, reactions) =>
      var (bus, calls) := Publish(s.bus, TopicOf(e.payload), e.eventKey, reactions);
      s.(bus := bus, graph := HandledBy(s.graph, s.bus, calls, e.payload))
    case StartAgain =>
      var (bus, members) := Rebound(s.bus, s.members, Wire);
      s.(bus := bus, members := members)
  }

  function After(s: State, turns: seq<Turn>): Option<State> {
    if turns == [] then Some(s)
    else
      var before := After(s, turns[..|turns| - 1]);
      var turn := turns[|turns| - 1];
      if before.None? || !Fits(before.value, turn) then None else Some(Next(before.value, turn))
  }

  function Events(turns: seq<Turn>): seq<LoomEvent> {
    if turns == [] then []
    else
      var rest, turn := Events(turns[..|turns| - 1]), turns[|turns| - 1];
      if turn.Deliver? then rest + [turn.event] else rest
  }

  function AppliedAll(g: Graph, events: seq<LoomEvent>): Graph {
    if events == [] then g else Applied(AppliedAll(g, events[..|events| - 1]), events[|events| - 1].payload)
  }

  ghost predicate Bound(s: State) {
    Exact(s.bus) && BoundOnce(s.bus, s.members, Wire)
  }

  // ---- one publish applies its event once ----

  lemma {:induction false} ForeignActionKeepsBinding(b: Bus, members: seq<nat>, action: Action)
    requires Exact(b) && BoundOnce(b, members, Wire) && ForeignAction(members, action)
    ensures BoundOnce(Act(b, action), members, Wire)
  {
    var c := Act(b, action);
    match action {
      case Subscribe(sub) => SubscribeKeepsExact(b, sub);
      case Unsubscribe(token) => if token < |b.issued| { UnsubscribeKeepsExact(b, token); }
    }
    forall token: nat, d | d in Wire && LiveWith(c, token, d.handler) ensures token in members {
      assert d.handler < |Wire|;
      assert LiveWith(b, token, d.handler);
    }
  }

  lemma {:induction false} ForeignActionsKeepBinding(b: Bus, members: seq<nat>, actions: seq<Action>)
    requires Exact(b) && BoundOnce(b, members, Wire) && Foreign(members, actions)
    ensures BoundOnce(ActAll(b, actions), members, Wire)
  {
    if actions != [] {
      var front := actions[..|actions| - 1];
      ForeignActionsKeepBinding(b, members, front);
      ActionsKeepExact(b, front);
      ForeignActionKeepsBinding(ActAll(b, front), members, actions[|actions| - 1]);
    }
  }

  lemma {:induction false} FanOutKeepsBinding(
    b: Bus, members: seq<nat>, eventKey: Option<string>, snapshot: seq<nat>, reactions: seq<Reaction>)
    requires Exact(b) && BoundOnce(b, members, Wire) && |reactions| >= |snapshot|
    requires forall r <- reactions :: Foreign(members, r.actions)
    ensures BoundOnce(FanOut(b, eventKey, snapshot, reactions).0, members, Wire)
  {
    if snapshot != [] {
      var n := |snapshot| - 1;
      FanOutKeepsBinding(b, members, eventKey, snapshot[..n], reactions);
      FanOutKeepsExact(b, eventKey, snapshot[..n], reactions);
      assert reactions[n] in reactions;
      ForeignActionsKeepBinding(FanOut(b, eventKey, snapshot[..n], reactions).0, members, reactions[n].actions);
    }
  }

  /** Calls none of which is the event's store handler leave the graph alone. */
  lemma {:induction false} OthersLeaveTheGraph(g: Graph, b: Bus, calls: seq<nat>, p: Payload)
    requires forall token <- calls :: token < |b.issued| && WireIndex(p) != Some(b.issued[token].handler)
    ensures HandledBy(g, b, calls, p) == g
  {
    if calls != [] {
      var front, last := calls[..|calls| - 1], calls[|calls| - 1];
      assert last in calls && forall t <- front :: t in calls;
      OthersLeaveTheGraph(g, b, front, p);
    }
  }

  /** Calls among which the event's store handler is exactly once apply the event exactly once. */
  lemma {:induction false} OneCallApplies(g: Graph, b: Bus, calls: seq<nat>, p: Payload, token: nat)
    requires Ascending(calls) && token in calls && forall t <- calls :: t < |b.issued|
    requires forall t <- calls :: WireIndex(p) == Some(b.issued[t].handler) <==> t == token
    ensures HandledBy(g, b, calls, p) == Applied(g, p)
  {
    var n := |calls| - 1;
    var front := calls[..n];
    assert calls == front + [calls[n]];
    if calls[n] == token {
      forall t | t in front ensures t != token {
        var i :| 0 <= i < n && calls[i] == t;
      }
      OthersLeaveTheGraph(g, b, front, p);
    } else {
      assert forall t <- front :: t in calls;
      OneCallApplies(g, b, front, p, token);
      assert calls[n] in calls;
    }
  }

  lemma {:induction false} WireIsDistinct()
    ensures forall j, k :: 0 <= j < k < |Wire| ==> Wire[j].handler != Wire[k].handler
    ensures forall i :: 0 <= i < |Wire| ==> Wire[i].handler == i && Wire[i].eventKey.None?
  {
  }

  /** Whatever other handlers do, one dispatched event reaches the graph exactly once. */
  lemma {:induction false} DeliveryAppliesOnce(s: State, e: LoomEvent, reactions: seq<Reaction>)
    requires Bound(s) && Fits(s, Deliver(e, reactions))
    ensures Bound(Next(s, Deliver(e, reactions)))
    ensures Next(s, Deliver(e, reactions)).graph == Applied(s.graph, e.payload)
  {
    var t := TopicOf(e.payload);
    var (c, calls) := Publish(s.bus, t, e.eventKey, reactions);
    PublishCallsExactlyTheLiveMatches(s.bus, t, e.eventKey, reactions);
    FanOutKeepsBinding(s.bus, s.members, e.eventKey, Bucket(s.bus, t), reactions);
    WireIsDistinct();
    if WireIndex(e.payload).None? {
      OthersLeaveTheGraph(s.graph, s.bus, calls, e.payload);
    } else {
      var i := WireIndex(e.payload).value;
      assert Wire[i].eventType == t;
      BoundHandlerIsCalledOnce(s.bus, s.members, Wire, i, e.eventKey, reactions);
      forall token | token in calls
        ensures WireIndex(e.payload) == Some(s.bus.issued[token].handler) <==> token == s.members[i]
      {
        if s.bus.issued[token].handler == i {
          assert LiveWith(s.bus, token, Wire[i].handler);
        }
      }
      OneCallApplies(s.graph, s.bus, calls, e.payload, s.members[i]);
    }
  }

  /** Every event dispatched is applied exactly once and in order, across any number of restarts. */
  lemma {:induction false} EveryEventIsAppliedOnceInOrder(s: State, turns: seq<Turn>)
    requires Bound(s) && After(s, turns).Some?
    ensures Bound(After(s, turns).value)
    ensures After(s, turns).value.graph == AppliedAll(s.graph, Events(turns))
  {
    if turns != [] {
      var front, turn := turns[..|turns| - 1], turns[|turns| - 1];
      EveryEventIsAppliedOnceInOrder(s, front);
      var m := After(s, front).value;
      match turn {
        case Deliver(e, reactions) =>
          DeliveryAppliesOnce(m, e, reactions);
          assert (Events(front) + [e])[..|Events(front)|] == Events(front);
        case StartAgain => RebindingKeepsHandlersBoundOnce(m.bus, m.members, Wire);
      }
    }
  }

  // ---- the whole way ----

  function EventsOf(envelopes: seq<W.Envelope<LoomEvent>>): seq<LoomEvent> {
    seq(|envelopes|, i requires 0 <= i < |envelopes| => envelopes[i].event)
  }

  function LastPush(events: seq<LoomEvent>, k: DpKey): Option<ValueChanged> {
    if events == [] then None
    else
      var p := events[|events| - 1].payload;
      if p.ValuePush? && p.push.key == k then Some(p.push) else LastPush(events[..|events| - 1], k)
  }

  /** A data point whose device is not removed ends at its last push, and is untouched when there was none. */
  lemma {:induction false} LastPushStays(g: Graph, events: seq<LoomEvent>, k: DpKey)
    requires k in g.dataPoints && forall e <- events :: e.payload != DeviceRemoved(k.0)
    ensures Get(AppliedAll(g, events).dataPoints, k)
         == match LastPush(events, k) {
              case Some(p) =>
                Some(DpSummary(g.dataPoints[k].parameter, p.value, p.displayValue, true,
                               p.modifiedAt, p.modifiedAt, p.modifiedAt))
              case None => Some(g.dataPoints[k])
            }
  {
    if events != [] {
      hide Applied;
      var front, last := events[..|events| - 1], events[|events| - 1];
      assert last in events && forall e <- front :: e in events;
      LastPushStays(g, front, k);
      OneEvent(AppliedAll(g, front), last.payload, k);
    }
  }

  lemma {:induction false} OneEvent(g: Graph, p: Payload, k: DpKey)
    requires k in g.dataPoints && p != DeviceRemoved(k.0)
    ensures Get(Applied(g, p).dataPoints, k)
         == Some(if p.ValuePush? && p.push.key == k then Pushed(g.dataPoints[k], p.push) else g.dataPoints[k])
  {
  }

  /** What each kind of event does to what it names, when the store knows it. */
  lemma {:induction false} EventsLand(
    g: Graph, p: ValueChanged, key: CdpKey, state: CdpState, a: Address, available: bool, at: int, topic: string)
    requires Sound(g)
    ensures p.key in g.dataPoints ==>
              Get(Applied(g, ValuePush(p)).dataPoints, p.key)
              == Some(DpSummary(g.dataPoints[p.key].parameter, p.value, p.displayValue, true,
                                p.modifiedAt, p.modifiedAt, p.modifiedAt))
    ensures key in g.cdps ==>
              Get(Applied(g, CdpStatePush(key, state)).cdps, key)
              == Some(CdpRecord(g.cdps[key].summary, state, g.cdps[key].generation + 1))
    ensures a !in g.devices && |g.devices| < g.maxDevices ==>
              var stub := DeviceSummary(a, a, true, "", Availability(true, None));
              Get(Applied(g, DeviceCreated(a)).devices, a) == Some(DeviceRecord(stub, None, None))
    ensures NothingOf(Applied(g, DeviceRemoved(a)), a)
    ensures a in g.devices ==>
              var h := Applied(g, AvailabilityPush(a, available));
              a in h.devices && h.devices[a].summary == g.devices[a].summary.(available := available)
    ensures a in g.devices && g.devices[a].availability.Some?
            && (RefreshTime(g, a).None? || RefreshTime(g, a).value < at) ==>
              var h := Applied(g, RefreshedPush(a, at));
              && a in h.devices
              && h.devices[a].availability == Some(Availability(g.devices[a].availability.value.reachable, Some(at)))
    ensures Applied(g, Elsewhere(topic)) == g
  {
    hide Sound, NothingOf, ApplyDeviceRemoved;
    PushesLand(g, p, key, state, a, available);
    RefreshLands(g, a, at);
    RemovalIsCompleteAndLocal(g, a);
  }

  /** The frames a run receives. */
  function Received(steps: seq<W.Step<LoomEvent>>): seq<W.Frame<LoomEvent>> {
    if steps == [] then []
    else
      var rest, step := Received(steps[..|steps| - 1]), steps[|steps| - 1];
      if step.Receive? then rest + [step.frame] else rest
  }

  lemma {:induction false} NoDropNoLoss(steps: seq<W.Step<LoomEvent>>)
    requires W.Run(steps).Some?
    ensures var (s, h) := W.Run(steps).value;
            |h.fates| == |Received(steps)|
            && (|W.AcceptedFrames(h.fates)| == |h.fates| ==> W.AcceptedFrames(h.fates) == Received(steps))
            && |W.AcceptedFrames(h.fates)| <= |h.fates|
  {
    if steps != [] {
      var n := |steps| - 1;
      NoDropNoLoss(steps[..n]);
      var (s, h) := W.Run(steps[..n]).value;
      if steps[n].Receive? {
        W.AcceptedSnoc(h.fates, W.Recorded(s, h, steps[n]).fates[|h.fates|]);
      }
    }
  }

  /**
   In every run of the transport whose queue has drained and every dispatch of what the iterator yielded,
   each data point whose device is not removed stands at its last accepted push; without a drop that is
   its last push received.
   */
  lemma {:induction false} DrainedQueueLeavesTheLastPush(
    steps: seq<W.Step<LoomEvent>>, s: State, turns: seq<Turn>, k: DpKey)
    requires W.Run(steps).Some? && W.Run(steps).value.0.w.queue == [] && !W.Run(steps).value.0.getter.Holding?
    requires Bound(s) && After(s, turns).Some? && Events(turns) == EventsOf(W.Run(steps).value.1.delivered)
    requires k in s.graph.dataPoints && forall f <- Received(steps) :: f.envelope.event.payload != DeviceRemoved(k.0)
    ensures var (sys, h) := W.Run(steps).value;
            var accepted := EventsOf(W.Envelopes(W.AcceptedFrames(h.fates)));
            && Get(After(s, turns).value.graph.dataPoints, k)
               == (match LastPush(accepted, k) {
                     case Some(p) =>
                       Some(DpSummary(s.graph.dataPoints[k].parameter, p.value, p.displayValue, true,
                                      p.modifiedAt, p.modifiedAt, p.modifiedAt))
                     case None => Some(s.graph.dataPoints[k])
                   })
            && (sys.w.droppedCount == 0 ==> accepted == EventsOf(W.Envelopes(Received(steps))))
  {
    W.EveryRun(steps);
    var (sys, h) := W.Run(steps).value;
    var accepted := W.AcceptedFrames(h.fates);
    assert h.delivered == W.Envelopes(accepted);
    EveryEventIsAppliedOnceInOrder(s, turns);
    NoDropNoLoss(steps);
    AcceptedWereReceived(steps);
    forall e | e in EventsOf(W.Envelopes(accepted)) ensures e.payload != DeviceRemoved(k.0) {
      var i :| 0 <= i < |accepted| && EventsOf(W.Envelopes(accepted))[i] == e;
      assert accepted[i] in Received(steps);
    }
    LastPushStays(s.graph, EventsOf(W.Envelopes(accepted)), k);
  }

  lemma {:induction false} AcceptedWereReceived(steps: seq<W.Step<LoomEvent>>)
    requires W.Run(steps).Some?
    ensures forall f <- W.AcceptedFrames(W.Run(steps).value.1.fates) :: f in Received(steps)
  {
    if steps != [] {
      var n := |steps| - 1;
      AcceptedWereReceived(steps[..n]);
      var (s, h) := W.Run(steps[..n]).value;
      if steps[n].Receive? {
        W.AcceptedSnoc(h.fates, W.Recorded(s, h, steps[n]).fates[|h.fates|]);
      }
    }
  }
}
