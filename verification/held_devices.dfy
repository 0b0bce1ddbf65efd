/**
 The announcer of held devices: devices the daemon holds back unbuilt until they are named.

 A sync takes a lock, reads the inbox, computes which held addresses are new and publishes one
 DELAYED event per interface. Handlers of that event run while the sync still holds the lock and
 may decline or forget addresses; a declined address waits for one shared re-sync timer.
 The pure part below is the protocol as interleaved steps; `HeldDeviceAnnouncer` is the object
 whose methods perform them.
 */
module HeldDevices {
  import opened Common

  type Address = string
  type InterfaceId = string

  // ---- the inbox ----

  datatype InboxEntry = InboxEntry(
    address: Address, central: Option<string>, interfaceName: Option<string>, pendingCreation: Option<bool>)

  predicate Blank(s: Option<string>) {
    s.None? || s.value == ""
  }

  /** The wire id joins central and interface; it is blank when there is no interface. */
  function WireInterfaceId(central: Option<string>, interfaceName: Option<string>): InterfaceId {
    if Blank(interfaceName) then ""
    else if Blank(central) then interfaceName.value
    else central.value + "-" + interfaceName.value
  }

  /** The entries that count: held back, tagged for this central, with an interface to announce. */
  predicate Qualifies(e: InboxEntry, names: set<string>) {
    && e.pendingCreation == Some(true)
    && (Blank(e.central) || e.central.value in names)
    && !Blank(e.interfaceName)
  }

  /** An insertion-ordered dict from held address to wire interface id. */
  type HeldMap = seq<(Address, InterfaceId)>

  function Keys(held: HeldMap): set<Address> {
    set h | h in held :: h.0
  }

  ghost predicate UniqueKeys(held: HeldMap) {
    forall i, j :: 0 <= i < j < |held| ==> held[i].0 != held[j].0
  }

  /** Dict assignment: an existing key keeps its place, a new one goes last. */
  function Assign(held: HeldMap, address: Address, id: InterfaceId): HeldMap {
    if held == [] then [(address, id)]
    else if held[0].0 == address then [(address, id)] + held[1..]
    else [held[0]] + Assign(held[1..], address, id)
  }

  function HeldOf(entries: seq<InboxEntry>, names: set<string>): HeldMap {
    if entries == [] then []
    else
      var rest := HeldOf(entries[..|entries| - 1], names);
      var e := entries[|entries| - 1];
      if Qualifies(e, names) then Assign(rest, e.address, WireInterfaceId(e.central, e.interfaceName)) else rest
  }

  lemma {:induction false} KeysCons(h: (Address, InterfaceId), rest: HeldMap)
    ensures Keys([h] + rest) == {h.0} + Keys(rest)
    ensures UniqueKeys([h] + rest) <==> UniqueKeys(rest) && h.0 !in Keys(rest)
  {
    var all := [h] + rest;
    assert forall i :: 0 <= i < |rest| ==> all[i + 1] == rest[i];
    if h.0 in Keys(rest) {
      var i :| 0 <= i < |rest| && rest[i].0 == h.0;
      assert all[0].0 == all[i + 1].0;
    }
  }

  lemma {:induction false} AssignKeys(held: HeldMap, address: Address, id: InterfaceId)
    requires UniqueKeys(held)
    ensures UniqueKeys(Assign(held, address, id))
    ensures Keys(Assign(held, address, id)) == Keys(held) + {address}
    ensures (address, id) in Assign(held, address, id)
    ensures forall h <- held :: h.0 != address ==> h in Assign(held, address, id)
  {
    if held != [] {
      hide UniqueKeys;
      var rest := held[1..];
      assert held == [held[0]] + rest;
      KeysCons(held[0], rest);
      if held[0].0 == address {
        KeysCons((address, id), rest);
      } else {
        AssignKeys(rest, address, id);
        KeysCons(held[0], Assign(rest, address, id));
      }
    }
  }

  /** The held map has one entry per address, and exactly the addresses with a qualifying entry. */
  lemma {:induction false} HeldOfIsQualifyingAddresses(entries: seq<InboxEntry>, names: set<string>)
    ensures UniqueKeys(HeldOf(entries, names))
    ensures Keys(HeldOf(entries, names)) == set e | e in entries && Qualifies(e, names) :: e.address
  {
    if entries != [] {
      var front, e := entries[..|entries| - 1], entries[|entries| - 1];
      HeldOfIsQualifyingAddresses(front, names);
      assert entries == front + [e];
      if Qualifies(e, names) {
        AssignKeys(HeldOf(front, names), e.address, WireInterfaceId(e.central, e.interfaceName));
      }
    }
  }

  /** An address is held when an entry of it waits for its creation, belongs to this central and names an interface. */
  lemma {:induction false} HeldAddressesWaitHere(entries: seq<InboxEntry>, names: set<string>, a: Address)
    ensures a in Keys(HeldOf(entries, names)) <==>
              exists e <- entries ::
                && e.address == a && e.pendingCreation == Some(true)
                && (e.central == None || e.central == Some("") || e.central.value in names)
                && e.interfaceName != None && e.interfaceName != Some("")
  {
    HeldOfIsQualifyingAddresses(entries, names);
    if e :| e in entries && e.address == a && e.pendingCreation == Some(true)
            && (e.central == None || e.central == Some("") || e.central.value in names)
            && e.interfaceName != None && e.interfaceName != Some("") {
      assert Qualifies(e, names);
    }
  }

  /** Its wire id joins central and interface, or is the bare interface; the last such entry of an address gives it. */
  lemma {:induction false} HeldUnderItsWireId(entries: seq<InboxEntry>, names: set<string>, i: nat)
    requires i < |entries| && Qualifies(entries[i], names)
    requires forall j :: i < j < |entries| && entries[j].address == entries[i].address ==> !Qualifies(entries[j], names)
    ensures var (e, held) := (entries[i], HeldOf(entries, names));
            if e.central == None || e.central == Some("") then (e.address, e.interfaceName.value) in held
            else (e.address, e.central.value + "-" + e.interfaceName.value) in held
  {
    var n := |entries| - 1;
    var front, last := entries[..n], entries[n];
    HeldOfIsQualifyingAddresses(front, names);
    if Qualifies(last, names) {
      AssignKeys(HeldOf(front, names), last.address, WireInterfaceId(last.central, last.interfaceName));
    }
    if i < n {
      HeldUnderItsWireId(front, names, i);
    }
  }

  // ---- grouping the new addresses ----

  datatype Group = Group(interfaceId: InterfaceId, addresses: seq<Address>)

  /** `setdefault(interface, []).append(address)` on an insertion-ordered dict. */
  function AddTo(groups: seq<Group>, address: Address, id: InterfaceId): seq<Group> {
    if groups == [] then [Group(id, [address])]
    else if groups[0].interfaceId == id then [Group(id, groups[0].addresses + [address])] + groups[1..]
    else [groups[0]] + AddTo(groups[1..], address, id)
  }

  predicate IsNew(address: Address, announced: set<Address>, declined: set<Address>, includeDeclined: bool) {
    address !in announced && (includeDeclined || address !in declined)
  }

  /** The new addresses of a held map, grouped by interface. */
  function NewByInterface(
    held: HeldMap, announced: set<Address>, declined: set<Address>, includeDeclined: bool): seq<Group>
  {
    if held == [] then []
    else
      var rest := NewByInterface(held[..|held| - 1], announced, declined, includeDeclined);
      var h := held[|held| - 1];
      if IsNew(h.0, announced, declined, includeDeclined) then AddTo(rest, h.0, h.1) else rest
  }

  /** All addresses of a list of groups. */
  function Pending(groups: seq<Group>): set<Address> {
    if groups == [] then {} else Elements(groups[0].addresses) + Pending(groups[1..])
  }

  function Interfaces(groups: seq<Group>): set<InterfaceId> {
    set g | g in groups :: g.interfaceId
  }

  /** One group per interface, and no address twice, neither within a group nor across groups. */
  ghost predicate Separate(groups: seq<Group>) {
    groups != [] ==>
      && Distinct(groups[0].addresses)
      && Elements(groups[0].addresses) !! Pending(groups[1..])
      && groups[0].interfaceId !in Interfaces(groups[1..])
      && Separate(groups[1..])
  }

  lemma {:induction false} InterfacesCons(g: Group, rest: seq<Group>)
    ensures Interfaces([g] + rest) == {g.interfaceId} + Interfaces(rest)
  {
  }

  lemma {:induction false} DistinctSnoc(s: seq<Address>, x: Address)
    requires Distinct(s) && x !in Elements(s)
    ensures Distinct(s + [x])
  {
  }

  lemma {:induction false} AddToSeparate(groups: seq<Group>, address: Address, id: InterfaceId)
    requires Separate(groups) && address !in Pending(groups)
    ensures Separate(AddTo(groups, address, id))
    ensures Pending(AddTo(groups, address, id)) == Pending(groups) + {address}
    ensures Interfaces(AddTo(groups, address, id)) == Interfaces(groups) + {id}
  {
    if groups == [] {
      var one := AddTo(groups, address, id);
      assert one[1..] == [];
      assert Elements(one[0].addresses) == {address};
      assert Interfaces(one) == {id};
    } else {
      hide Interfaces, Distinct;
      var rest, out := groups[1..], AddTo(groups, address, id);
      assert groups == [groups[0]] + rest;
      InterfacesCons(groups[0], rest);
      if groups[0].interfaceId == id {
        assert out[1..] == rest;
        InterfacesCons(out[0], rest);
        assert Elements(out[0].addresses) == Elements(groups[0].addresses) + {address};
        DistinctSnoc(groups[0].addresses, address);
      } else {
        AddToSeparate(rest, address, id);
        assert out[1..] == AddTo(rest, address, id);
        InterfacesCons(groups[0], out[1..]);
      }
    }
  }

  lemma {:induction false} AddToRouting(groups: seq<Group>, address: Address, id: InterfaceId)
    ensures forall g <- AddTo(groups, address, id), a <- g.addresses ::
              || (a == address && g.interfaceId == id)
              || exists g0 <- groups :: g0.interfaceId == g.interfaceId && a in g0.addresses
  {
    if groups != [] {
      assert groups == [groups[0]] + groups[1..];
      if groups[0].interfaceId != id {
        AddToRouting(groups[1..], address, id);
      }
    }
  }

  /** The groups hold exactly the new addresses, once each, one group per interface, each under its own interface. */
  lemma {:induction false} GroupsAreTheNewAddresses(
    held: HeldMap, announced: set<Address>, declined: set<Address>, includeDeclined: bool)
    requires UniqueKeys(held)
    ensures var groups := NewByInterface(held, announced, declined, includeDeclined);
            && Separate(groups)
            && Pending(groups) == (set a | a in Keys(held) && IsNew(a, announced, declined, includeDeclined))
            && (forall g <- groups, a <- g.addresses :: (a, g.interfaceId) in held)
  {
    if held != [] {
      var front, h := held[..|held| - 1], held[|held| - 1];
      GroupsAreTheNewAddresses(front, announced, declined, includeDeclined);
      assert held == front + [h];
      assert Keys(held) == Keys(front) + {h.0};
      assert h.0 !in Keys(front);
      if IsNew(h.0, announced, declined, includeDeclined) {
        var rest := NewByInterface(front, announced, declined, includeDeclined);
        AddToSeparate(rest, h.0, h.1);
        AddToRouting(rest, h.0, h.1);
      }
    }
  }

  // ---- the announcer's own state ----

  /** `timerArmed` says whether the shared delayed re-sync is scheduled. */
  datatype Announcer = Announcer(announced: set<Address>, declined: set<Address>, timerArmed: bool)

  const Fresh := Announcer({}, {}, false)

  function Forgotten(s: Announcer, a: Address): Announcer {
    s.(announced := s.announced - {a})
  }

  function DeclinedTo(s: Announcer, a: Address): Announcer {
    s.(announced := s.announced - {a}, declined := s.declined + {a}, timerArmed := true)
  }

  /** A failed read changes no set; a failed re-sync with declined addresses is scheduled again. */
  function AfterFailedRead(s: Announcer, includeDeclined: bool): Announcer {
    if includeDeclined && s.declined != {} then s.(timerArmed := true) else s
  }

  /** What one successful read computes: both sets lose what left the inbox, new addresses leave `declined`. */
  function AfterRead(s: Announcer, held: HeldMap, includeDeclined: bool): (Announcer, seq<Group>) {
    var announced, declined := s.announced * Keys(held), s.declined * Keys(held);
    var groups := NewByInterface(held, announced, declined, includeDeclined);
    (s.(announced := announced, declined := declined - Pending(groups)), groups)
  }

  function Marked(s: Announcer, g: Group): Announcer {
    s.(announced := s.announced + Elements(g.addresses))
  }

  function Finished(s: Announcer): Announcer {
    if s.declined == {} then s.(timerArmed := false) else s
  }

  /**
   What one successful read announces: of the held addresses those not announced yet, and in a plain sync
   only those not declined either. A plain sync leaves every declined address that is still held declined.
   */
  lemma {:induction false} SyncAnnouncesExactly(s: Announcer, held: HeldMap, includeDeclined: bool)
    requires UniqueKeys(held)
    ensures var (ann, groups) := AfterRead(s, held, includeDeclined);
            && Separate(groups) && (forall g <- groups, a <- g.addresses :: (a, g.interfaceId) in held)
            && Pending(groups) == Keys(held) - s.announced - (if includeDeclined then {} else s.declined)
            && ann.announced == s.announced * Keys(held)
            && ann.declined == s.declined * Keys(held) - (if includeDeclined then Keys(held) - s.announced else {})
            && ann.timerArmed == s.timerArmed
  {
    GroupsAreTheNewAddresses(held, s.announced * Keys(held), s.declined * Keys(held), includeDeclined);
  }

  lemma {:induction false} SyncAnnounces(s: Announcer, held: HeldMap, includeDeclined: bool)
    requires UniqueKeys(held)
    ensures var (ann, groups) := AfterRead(s, held, includeDeclined);
            && Pending(groups) == Keys(held) - s.announced - (if includeDeclined then {} else s.declined)
            && (!includeDeclined ==> ann.declined == s.declined * Keys(held))
  {
    SyncAnnouncesExactly(s, held, includeDeclined);
  }

  // ---- the protocol: interleaved steps ----

  /** The sync that holds the lock: waiting for the inbox, or publishing with `remaining` groups to go. */
  datatype Phase =
    | Idle
    | Reading(includeDeclined: bool)
    | Publishing(held: set<Address>, remaining: seq<Group>)

  /** `waitingPlain` and `waitingResync` count the syncs queued on the lock. */
  datatype System = System(ann: Announcer, phase: Phase, waitingPlain: nat, waitingResync: nat)

  const Start := System(Fresh, Idle, 0, 0)

  datatype Step =
    | Forget(address: Address)
    | Decline(address: Address)
    | TimerFires
    | RequestSync
    | TakeLock(resync: bool)
    | ReadFails
    | ReadReturns(held: HeldMap)
    | PublishReturns

  ghost predicate Enabled(s: System, step: Step) {
    match step
    case Forget(_) => true
    case Decline(_) => true
    case TimerFires => s.ann.timerArmed
    case RequestSync => true
    case TakeLock(resync) => s.phase.Idle? && (if resync then s.waitingResync > 0 else s.waitingPlain > 0)
    case ReadFails => s.phase.Reading?
    case ReadReturns(held) => s.phase.Reading? && UniqueKeys(held)
    case PublishReturns => s.phase.Publishing?
  }

  /** Publish the next group, or end the sync and release the lock. */
  function Advance(s: System, ann: Announcer, held: set<Address>, groups: seq<Group>): System {
    if groups == [] then s.(ann := Finished(ann), phase := Idle)
    else s.(ann := Marked(ann, groups[0]), phase := Publishing(held, groups[1..]))
  }

  ghost function Next(s: System, step: Step): System
    requires Enabled(s, step)
  {
    match step
    case Forget(a) => s.(ann := Forgotten(s.ann, a))
    case Decline(a) => s.(ann := DeclinedTo(s.ann, a))
    case TimerFires => s.(ann := s.ann.(timerArmed := false), waitingResync := s.waitingResync + 1)
    case RequestSync => s.(waitingPlain := s.waitingPlain + 1)
    case TakeLock(resync) =>
      if resync then s.(phase := Reading(true), waitingResync := s.waitingResync - 1)
      else s.(phase := Reading(false), waitingPlain := s.waitingPlain - 1)
    case ReadFails => s.(ann := AfterFailedRead(s.ann, s.phase.includeDeclined), phase := Idle)
    case ReadReturns(held) =>
      var (ann, groups) := AfterRead(s.ann, held, s.phase.includeDeclined);
      Advance(s, ann, Keys(held), groups)
    case PublishReturns => Advance(s, s.ann, s.phase.held, s.phase.remaining)
  }

  /** What an observer sees of the protocol. */
  datatype Event =
    | Delayed(addresses: seq<Address>, interfaceId: InterfaceId)
    | WasDeclined(address: Address)
    | WasForgotten(address: Address)
    | InboxRead(held: set<Address>, resync: bool)

  function Announce(groups: seq<Group>): seq<Event> {
    if groups == [] then [] else [Delayed(groups[0].addresses, groups[0].interfaceId)]
  }

  ghost function Emits(s: System, step: Step): seq<Event>
    requires Enabled(s, step)
  {
    match step
    case Forget(a) => [WasForgotten(a)]
    case Decline(a) => [WasDeclined(a)]
    case ReadReturns(held) =>
      [InboxRead(Keys(held), s.phase.includeDeclined)] + Announce(AfterRead(s.ann, held, s.phase.includeDeclined).1)
    case PublishReturns => Announce(s.phase.remaining)
    case _ => []
  }

  /** The state and the log after a whole run; None when some step was not enabled. */
  ghost function Run(steps: seq<Step>): Option<(System, seq<Event>)> {
    if steps == [] then Some((Start, []))
    else
      var before := Run(steps[..|steps| - 1]);
      var step := steps[|steps| - 1];
      if before.None? || !Enabled(before.value.0, step) then None
      else Some((Next(before.value.0, step), before.value.1 + Emits(before.value.0, step)))
  }

  // ---- what every interleaving keeps ----

  function PendingOf(s: System): set<Address> {
    if s.phase.Publishing? then Pending(s.phase.remaining) else {}
  }

  /** Holds in every interleaving, whatever is declined: addresses still to be published are not announced yet. */
  ghost predicate Orderly(s: System) {
    && (s.phase.Publishing? ==> Separate(s.phase.remaining) && s.ann.announced + PendingOf(s) <= s.phase.held)
    && s.ann.announced !! PendingOf(s)
  }

  lemma {:induction false} OrderlyStep(s: System, step: Step)
    requires Orderly(s) && Enabled(s, step)
    ensures Orderly(Next(s, step))
  {
    if step.ReadReturns? {
      var announced, declined := s.ann.announced * Keys(step.held), s.ann.declined * Keys(step.held);
      GroupsAreTheNewAddresses(step.held, announced, declined, s.phase.includeDeclined);
    }
  }

  /** A re-sync that will still compute, or a timer that will start one. */
  predicate Recovering(s: System) {
    s.ann.timerArmed || s.waitingResync > 0 || s.phase == Reading(true)
  }

  /** Announced and declined are disjoint, and a declined address always has a re-sync ahead of it. */
  ghost predicate Safe(s: System) {
    && Orderly(s)
    && s.ann.announced !! s.ann.declined
    && PendingOf(s) !! s.ann.declined
    && (s.ann.declined != {} ==> Recovering(s))
  }

  /** A decline keeps the protocol safe exactly when the address is not waiting to be published by the running sync. */
  lemma {:induction false} DeclineIsSafeExactlyWhenNotPending(s: System, a: Address)
    requires Safe(s)
    ensures Safe(Next(s, Decline(a))) <==> a !in PendingOf(s)
  {
    if a in PendingOf(s) {
      assert a in Next(s, Decline(a)).ann.declined;
    }
  }

  lemma {:induction false} SafeStep(s: System, step: Step)
    requires Safe(s) && Enabled(s, step)
    requires step.Decline? ==> step.address !in PendingOf(s)
    ensures Safe(Next(s, step))
  {
    OrderlyStep(s, step);
    if step.ReadReturns? {
      var announced, declined := s.ann.announced * Keys(step.held), s.ann.declined * Keys(step.held);
      GroupsAreTheNewAddresses(step.held, announced, declined, s.phase.includeDeclined);
    }
  }

  /** No decline in the run named an address the running sync had computed but not yet published. */
  ghost predicate CarefulDeclines(steps: seq<Step>) {
    forall i :: 0 <= i < |steps| && steps[i].Decline? && Run(steps[..i]).Some? ==>
                  steps[i].address !in PendingOf(Run(steps[..i]).value.0)
  }

  /** Over every interleaving with careful declines, a declined address is never forgotten. */
  lemma {:induction false} DeclinedAddressesAreNeverForgotten(steps: seq<Step>)
    requires Run(steps).Some? && CarefulDeclines(steps)
    ensures Safe(Run(steps).value.0)
  {
    if steps != [] {
      var front, n := steps[..|steps| - 1], |steps| - 1;
      forall i | 0 <= i < n && front[i].Decline? && Run(front[..i]).Some?
        ensures front[i].address !in PendingOf(Run(front[..i]).value.0)
      {
        assert front[..i] == steps[..i];
      }
      DeclinedAddressesAreNeverForgotten(front);
      assert steps[..n] == front;
      SafeStep(Run(front).value.0, steps[n]);
    }
  }

  lemma {:induction false} EveryRunIsOrderly(steps: seq<Step>)
    requires Run(steps).Some?
    ensures Orderly(Run(steps).value.0)
  {
    if steps != [] {
      var front := steps[..|steps| - 1];
      EveryRunIsOrderly(front);
      OrderlyStep(Run(front).value.0, steps[|steps| - 1]);
    }
  }

  /** A device that was announced may be declined at any time: what is announced is not waiting to be published. */
  lemma {:induction false} AnnouncedMayBeDeclined(s: System, a: Address)
    requires Safe(s) && a in s.ann.announced
    ensures Safe(Next(s, Decline(a)))
  {
    DeclineIsSafeExactlyWhenNotPending(s, a);
  }

  /** Every decline in the run named an address that was announced at that moment. */
  ghost predicate DeclinesTheAnnounced(steps: seq<Step>) {
    forall i :: 0 <= i < |steps| && steps[i].Decline? && Run(steps[..i]).Some? ==>
                  steps[i].address in Run(steps[..i]).value.0.ann.announced
  }

  /** So a handler that declines only what was announced to it never loses an address, in any interleaving. */
  lemma {:induction false} DecliningTheAnnouncedIsSafe(steps: seq<Step>)
    requires Run(steps).Some? && DeclinesTheAnnounced(steps)
    ensures CarefulDeclines(steps) && Safe(Run(steps).value.0)
  {
    forall i | 0 <= i < |steps| && steps[i].Decline? && Run(steps[..i]).Some?
      ensures steps[i].address !in PendingOf(Run(steps[..i]).value.0)
    {
      EveryRunIsOrderly(steps[..i]);
    }
    DeclinedAddressesAreNeverForgotten(steps);
  }

  /** A re-sync announces again every declined address that is still held, and none stays declined. */
  lemma {:induction false} ResyncAnnouncesEveryDeclinedAddress(s: System, held: HeldMap)
    requires Safe(s) && s.phase == Reading(true) && UniqueKeys(held)
    ensures var (ann, groups) := AfterRead(s.ann, held, true);
            && ann.declined == {}
            && s.ann.declined * Keys(held) <= Pending(groups)
            && Pending(groups) == Keys(held) - ann.announced
  {
    var announced, declined := s.ann.announced * Keys(held), s.ann.declined * Keys(held);
    GroupsAreTheNewAddresses(held, announced, declined, true);
    forall a | a in declined
      ensures a in Pending(NewByInterface(held, announced, declined, true))
    {
      assert IsNew(a, announced, declined, true);
    }
  }

  // ---- the careless decline ----

  /**
   Two held devices on two interfaces; the handler of the first announcement declines the second
   device, which the sync has computed but not published. The re-sync it schedules finds the address
   announced and skips it.
   */
  function CarelessSteps(held: HeldMap): seq<Step>
    requires |held| == 2
  {
    [RequestSync, TakeLock(false), ReadReturns(held), Decline(held[1].0), PublishReturns,
     PublishReturns, TimerFires, TakeLock(true), ReadReturns(held)]
  }

  /** A chain of enabled steps through the given states is a run that ends in the last of them. */
  lemma {:induction false} RunFollows(steps: seq<Step>, states: seq<System>)
    requires |states| == |steps| + 1 && states[0] == Start
    requires forall i :: 0 <= i < |steps| ==> Enabled(states[i], steps[i]) && Next(states[i], steps[i]) == states[i + 1]
    ensures Run(steps).Some? && Run(steps).value.0 == states[|steps|]
  {
    if steps != [] {
      RunFollows(steps[..|steps| - 1], states[..|steps|]);
    }
  }

  lemma {:induction false} TwoGroups(held: HeldMap)
    requires |held| == 2 && held[0].0 != held[1].0 && held[0].1 != held[1].1
    ensures Keys(held) == {held[0].0, held[1].0}
    ensures NewByInterface(held, {}, {}, false) == [Group(held[0].1, [held[0].0]), Group(held[1].1, [held[1].0])]
    ensures NewByInterface(held, Keys(held), {held[1].0}, true) == []
  {
    var g0 := Group(held[0].1, [held[0].0]);
    assert held[..1] == [held[0]] && held[..1][..0] == [];
    assert NewByInterface(held[..1], {}, {}, false) == [g0];
    assert AddTo([g0][1..], held[1].0, held[1].1) == [Group(held[1].1, [held[1].0])];
    assert NewByInterface(held[..1], Keys(held), {held[1].0}, true) == [];
  }

  lemma {:induction false} CarelessReads(held: HeldMap)
    requires |held| == 2 && held[0].0 != held[1].0 && held[0].1 != held[1].1
    ensures Next(Start.(phase := Reading(false)), ReadReturns(held))
         == System(Announcer({held[0].0}, {}, false), Publishing(Keys(held), [Group(held[1].1, [held[1].0])]), 0, 0)
    ensures var stuck := Announcer(Keys(held), {held[1].0}, false);
            Next(System(stuck, Reading(true), 0, 0), ReadReturns(held)) == System(stuck, Idle, 0, 0)
  {
    TwoGroups(held);
    var none: set<Address> := {};
    assert none * Keys(held) == none && Elements([held[0].0]) == {held[0].0};
    assert Keys(held) * Keys(held) == Keys(held) && {held[1].0} * Keys(held) == {held[1].0};
    var g0, g1 := Group(held[0].1, [held[0].0]), Group(held[1].1, [held[1].0]);
    assert [g0, g1][1..] == [g1];
    assert NewByInterface(held, none, none, false) == [g0, g1];
  }

  function CarelessStates(held: HeldMap): seq<System>
    requires |held| == 2
  {
    var (a, b, keys) := (held[0].0, held[1].0, Keys(held));
    var stuck := Announcer(keys, {b}, false);
    [Start, Start.(waitingPlain := 1), Start.(phase := Reading(false)),
     System(Announcer({a}, {}, false), Publishing(keys, [Group(held[1].1, [b])]), 0, 0),
     System(Announcer({a}, {b}, true), Publishing(keys, [Group(held[1].1, [b])]), 0, 0),
     System(stuck.(timerArmed := true), Publishing(keys, []), 0, 0),
     System(stuck.(timerArmed := true), Idle, 0, 0),
     System(stuck, Idle, 0, 1), System(stuck, Reading(true), 0, 0), System(stuck, Idle, 0, 0)]
  }

  /** Declining a device whose announcement is still pending strands it: announced, declined, and no re-sync ahead. */
  lemma {:induction false} CarelessDeclineIsStranded(held: HeldMap)
    requires |held| == 2 && held[0].0 != held[1].0 && held[0].1 != held[1].1
    ensures Run(CarelessSteps(held)).Some?
    ensures Run(CarelessSteps(held)).value.0 == System(Announcer(Keys(held), {held[1].0}, false), Idle, 0, 0)
    ensures !Recovering(Run(CarelessSteps(held)).value.0)
  {
    var steps, states := CarelessSteps(held), CarelessStates(held);
    forall i | 0 <= i < |steps| ensures Enabled(states[i], steps[i]) && Next(states[i], steps[i]) == states[i + 1] {
      if i == 2 || i == 8 {
        CarelessReads(held);
      } else if i == 3 {
        assert {held[0].0} - {held[1].0} == {held[0].0};
      } else if i == 4 {
        TwoGroups(held);
        assert Elements([held[1].0]) == {held[1].0} && [Group(held[1].1, [held[1].0])][1..] == [];
      }
    }
    RunFollows(steps, states);
  }

  // ---- a declined address waits for a re-sync ----

  /** No read from `from` on was a re-sync's, and the address was held in each. */
  predicate PlainReadsHold(log: seq<Event>, from: nat, a: Address) {
    forall k :: from <= k < |log| && log[k].InboxRead? ==> !log[k].resync && a in log[k].held
  }

  lemma {:induction false} DeclinedStaysSilent(s: System, step: Step, a: Address)
    requires Enabled(s, step) && a in s.ann.declined && a !in PendingOf(s)
    requires PlainReadsHold(Emits(s, step), 0, a)
    ensures a in Next(s, step).ann.declined && a !in PendingOf(Next(s, step)) && Unnamed(Emits(s, step), 0, a)
  {
    hide Separate, UniqueKeys, NewByInterface, Pending;
    if step.ReadReturns? {
      var groups := AfterRead(s.ann, step.held, s.phase.includeDeclined).1;
      assert Emits(s, step)[0].InboxRead?;
      SyncAnnouncesExactly(s.ann, step.held, s.phase.includeDeclined);
      NotPendingNotNamed(groups, a);
      PendingTail(groups);
    } else if step.PublishReturns? {
      NotPendingNotNamed(s.phase.remaining, a);
      PendingTail(s.phase.remaining);
    }
  }

  lemma {:induction false} PendingTail(groups: seq<Group>)
    ensures groups != [] ==> Pending(groups) == Elements(groups[0].addresses) + Pending(groups[1..])
  {
  }

  /**
   In every interleaving: an address declined while it does not wait to be published is announced again
   only after a read by a re-sync, or a read in which it was not held.
   */
  lemma {:induction false} DeclinedWaitsForTheResync(steps: seq<Step>, a: Address, more: seq<Step>)
    requires Run(steps).Some? && a !in PendingOf(Run(steps).value.0)
    requires Run(steps + [Decline(a)] + more).Some?
    ensures var (from, log) := (|Run(steps).value.1|, Run(steps + [Decline(a)] + more).value.1);
            && from <= |log|
            && (PlainReadsHold(log, from, a) ==>
                  && Unnamed(log, from, a)
                  && a in Run(steps + [Decline(a)] + more).value.0.ann.declined
                  && a !in PendingOf(Run(steps + [Decline(a)] + more).value.0))
  {
    var declined := steps + [Decline(a)];
    if more == [] {
      assert declined + more == declined && declined[..|steps|] == steps;
    } else {
      var n := |more| - 1;
      var front, step := more[..n], more[n];
      assert (declined + more)[..|declined + more| - 1] == declined + front;
      DeclinedWaitsForTheResync(steps, a, front);
      var (s, before) := Run(declined + front).value;
      assert Run(declined + more).value == (Next(s, step), before + Emits(s, step));
      hide Run, Next, Emits, Enabled, PlainReadsHold, Unnamed, PendingOf;
      PlainReadsSplit(before, Emits(s, step), |Run(steps).value.1|, a);
      if PlainReadsHold(before + Emits(s, step), |Run(steps).value.1|, a) {
        DeclinedStaysSilent(s, step, a);
      }
    }
  }

  lemma {:induction false} PlainReadsSplit(before: seq<Event>, out: seq<Event>, from: nat, a: Address)
    requires from <= |before|
    ensures PlainReadsHold(before + out, from, a) <==> PlainReadsHold(before, from, a) && PlainReadsHold(out, 0, a)
    ensures Unnamed(before + out, from, a) <==> Unnamed(before, from, a) && Unnamed(out, 0, a)
  {
    var log := before + out;
    assert forall k :: 0 <= k < |before| ==> log[k] == before[k];
    assert forall k :: 0 <= k < |out| ==> log[|before| + k] == out[k];
    assert forall k :: |before| <= k < |log| ==> log[k] == out[k - |before|];
  }

  /** And an address that does wait is announced without any further read, decline or not. */
  lemma {:induction false} PendingIsPublishedAnyway(steps: seq<Step>, a: Address) returns (more: seq<Step>, k: nat)
    requires Run(steps).Some? && a in PendingOf(Run(steps).value.0)
    ensures forall step <- more :: step.PublishReturns?
    ensures Run(steps + [Decline(a)] + more).Some?
    ensures var (from, log) := (|Run(steps).value.1|, Run(steps + [Decline(a)] + more).value.1);
            from <= k < |log| && Names(log[k], a)
  {
    var declined := steps + [Decline(a)];
    assert declined[..|steps|] == steps;
    assert |Run(declined).value.1| == |Run(steps).value.1| + 1;
    more, k := PublishesOn(declined, a);
  }

  /** The next publish announces the first group and leaves the others pending. */
  lemma {:induction false} PublishesOne(steps: seq<Step>, a: Address)
    requires Run(steps).Some? && a in PendingOf(Run(steps).value.0)
    ensures Run(steps).value.0.phase.Publishing?
    ensures var (one, log) := (steps + [PublishReturns], Run(steps).value.1);
            && Run(one).Some? && |Run(one).value.1| == |log| + 1
            && (Names(Run(one).value.1[|log|], a)
                || (&& a in PendingOf(Run(one).value.0) && Run(one).value.0.phase.Publishing?
                    && |Run(one).value.0.phase.remaining| < |Run(steps).value.0.phase.remaining|))
  {
    var (s, log) := Run(steps).value;
    var one := steps + [PublishReturns];
    assert one[..|steps|] == steps;
    assert Run(one).value.1 == log + Announce(s.phase.remaining);
  }

  lemma {:induction false} PublishesOn(steps: seq<Step>, a: Address) returns (more: seq<Step>, k: nat)
    requires Run(steps).Some? && a in PendingOf(Run(steps).value.0)
    ensures forall step <- more :: step.PublishReturns?
    ensures Run(steps + more).Some?
    ensures |Run(steps).value.1| <= k < |Run(steps + more).value.1| && Names(Run(steps + more).value.1[k], a)
    decreases if Run(steps).value.0.phase.Publishing? then |Run(steps).value.0.phase.remaining| else 0
  {
    hide Run, Pending, PendingOf;
    var log := Run(steps).value.1;
    var one := steps + [PublishReturns];
    PublishesOne(steps, a);
    if Names(Run(one).value.1[|log|], a) {
      more, k := [PublishReturns], |log|;
    } else {
      more, k := PublishesOn(one, a);
      assert steps + ([PublishReturns] + more) == one + more;
      more := [PublishReturns] + more;
    }
  }

  // ---- at most one announcement per hold ----

  predicate Names(e: Event, a: Address) {
    e.Delayed? && a in e.addresses
  }

  /** Ends a hold's announcement: declined, forgotten, or read as no longer held. */
  predicate Releases(e: Event, a: Address) {
    e == WasDeclined(a) || e == WasForgotten(a) || (e.InboxRead? && a !in e.held)
  }

  /** Announced and not released since. */
  predicate Standing(log: seq<Event>, a: Address) {
    log != [] &&
    var last := log[|log| - 1];
    Names(last, a) || (!Releases(last, a) && Standing(log[..|log| - 1], a))
  }

  /** The log after one step, when the address was announced if it stood before. */
  ghost predicate StandsOnlyAnnounced(log: seq<Event>, out: seq<Event>, announced: set<Address>, a: Address) {
    && (Standing(out, a) ==> a in announced)
    && (forall j :: |log| <= j < |out| && Names(out[j], a) ==> !Standing(out[..j], a))
  }

  lemma {:induction false} StandingRead(s: System, log: seq<Event>, held: HeldMap, a: Address)
    requires Orderly(s) && Enabled(s, ReadReturns(held))
    requires Standing(log, a) ==> a in s.ann.announced
    ensures StandsOnlyAnnounced(log, log + Emits(s, ReadReturns(held)), Next(s, ReadReturns(held)).ann.announced, a)
  {
    hide Separate, UniqueKeys, NewByInterface;
    var out := log + Emits(s, ReadReturns(held));
    var announced, declined := s.ann.announced * Keys(held), s.ann.declined * Keys(held);
    GroupsAreTheNewAddresses(held, announced, declined, s.phase.includeDeclined);
    var groups := NewByInterface(held, announced, declined, s.phase.includeDeclined);
    var mid := log + [InboxRead(Keys(held), s.phase.includeDeclined)];
    assert mid[..|log|] == log;
    assert Standing(mid, a) ==> a in announced;
    if groups == [] {
      assert out == mid;
    } else {
      assert out[..|mid|] == mid;
      assert a in groups[0].addresses ==> a in Elements(groups[0].addresses);
      assert a in groups[0].addresses ==> a in Pending(groups);
    }
  }

  /** One more event: what it names was not announced and is now, and what it does not release stays announced. */
  lemma {:induction false} StandingEvent(log: seq<Event>, e: Event, was: set<Address>, now: set<Address>, a: Address)
    requires Standing(log, a) ==> a in was
    requires Names(e, a) ==> a !in was && a in now
    requires a in was && !Releases(e, a) ==> a in now
    ensures StandsOnlyAnnounced(log, log + [e], now, a)
  {
    assert (log + [e])[..|log|] == log;
  }

  lemma {:induction false} StandingPublish(s: System, log: seq<Event>, a: Address)
    requires Orderly(s) && s.phase.Publishing?
    requires Standing(log, a) ==> a in s.ann.announced
    ensures StandsOnlyAnnounced(
              log, log + Emits(s, PublishReturns), Next(s, PublishReturns).ann.announced, a)
  {
    hide Separate, Standing, StandsOnlyAnnounced;
    var groups := s.phase.remaining;
    if groups == [] {
      StandingQuiet(log, s.ann.announced, a);
      assert log + [] == log;
    } else {
      var e := Delayed(groups[0].addresses, groups[0].interfaceId);
      assert a in groups[0].addresses ==> a in Elements(groups[0].addresses) && a in Pending(groups);
      StandingEvent(log, e, s.ann.announced, s.ann.announced + Elements(groups[0].addresses), a);
    }
  }

  lemma {:induction false} StandingQuiet(log: seq<Event>, announced: set<Address>, a: Address)
    requires Standing(log, a) ==> a in announced
    ensures StandsOnlyAnnounced(log, log, announced, a)
  {
  }

  lemma {:induction false} StandingStep(s: System, log: seq<Event>, step: Step, a: Address)
    requires Orderly(s) && Enabled(s, step)
    requires Standing(log, a) ==> a in s.ann.announced
    ensures StandsOnlyAnnounced(log, log + Emits(s, step), Next(s, step).ann.announced, a)
  {
    hide Separate, UniqueKeys, NewByInterface, Orderly, Standing, StandsOnlyAnnounced, AfterRead, Advance;
    match step {
      case ReadReturns(held) => StandingRead(s, log, held, a);
      case PublishReturns => StandingPublish(s, log, a);
      case Forget(b) => StandingEvent(log, WasForgotten(b), s.ann.announced, s.ann.announced - {b}, a);
      case Decline(b) => StandingEvent(log, WasDeclined(b), s.ann.announced, s.ann.announced - {b}, a);
      case _ =>
        assert log + [] == log;
        StandingQuiet(log, s.ann.announced, a);
    }
  }

  lemma {:induction false} StandingIsAnnounced(steps: seq<Step>, a: Address)
    requires Run(steps).Some?
    ensures Standing(Run(steps).value.1, a) ==> a in Run(steps).value.0.ann.announced
    ensures var log := Run(steps).value.1;
            forall j :: 0 <= j < |log| && Names(log[j], a) ==> !Standing(log[..j], a)
  {
    if steps != [] {
      var front, step := steps[..|steps| - 1], steps[|steps| - 1];
      StandingIsAnnounced(front, a);
      EveryRunIsOrderly(front);
      var (s, log) := Run(front).value;
      StandingStep(s, log, step, a);
      var out := Run(steps).value.1;
      forall j | 0 <= j < |out| && Names(out[j], a) ensures !Standing(out[..j], a) {
        if j < |log| {
          assert out[..j] == log[..j];
        }
      }
    }
  }

  lemma {:induction false} StandingUntilReleased(log: seq<Event>, i: nat, j: nat, a: Address)
    requires i < j <= |log| && Names(log[i], a)
    requires forall k :: i < k < j ==> !Releases(log[k], a)
    ensures Standing(log[..j], a)
  {
    assert log[..j][..j - 1] == log[..j - 1];
    if i + 1 < j {
      StandingUntilReleased(log, i, j - 1, a);
    }
  }

  /** Every decline in the run named an address whose DELAYED event the handler had seen, and nothing released since. */
  ghost predicate DeclinesWhatItWasTold(steps: seq<Step>) {
    forall i :: 0 <= i < |steps| && steps[i].Decline? && Run(steps[..i]).Some? ==>
                  Standing(Run(steps[..i]).value.1, steps[i].address)
  }

  /** The same in terms of what a handler sees. */
  lemma {:induction false} DecliningWhatOneWasToldIsSafe(steps: seq<Step>)
    requires Run(steps).Some? && DeclinesWhatItWasTold(steps)
    ensures DeclinesTheAnnounced(steps) && Safe(Run(steps).value.0)
  {
    forall i | 0 <= i < |steps| && steps[i].Decline? && Run(steps[..i]).Some?
      ensures steps[i].address in Run(steps[..i]).value.0.ann.announced
    {
      StandingIsAnnounced(steps[..i], steps[i].address);
    }
    DecliningTheAnnouncedIsSafe(steps);
  }

  /** No event of the log from `from` on releases the address. */
  predicate Unreleased(log: seq<Event>, from: nat, a: Address) {
    forall k :: from <= k < |log| ==> !Releases(log[k], a)
  }

  predicate Unnamed(log: seq<Event>, from: nat, a: Address) {
    forall k :: from <= k < |log| ==> !Names(log[k], a)
  }

  lemma {:induction false} NotPendingNotNamed(groups: seq<Group>, a: Address)
    requires a !in Pending(groups)
    ensures Unnamed(Announce(groups), 0, a)
  {
    if groups != [] {
      assert forall b <- groups[0].addresses :: b in Elements(groups[0].addresses);
    }
  }

  lemma {:induction false} AnnouncedStaysSilent(s: System, step: Step, a: Address)
    requires Orderly(s) && Enabled(s, step) && a in s.ann.announced && Unreleased(Emits(s, step), 0, a)
    ensures a in Next(s, step).ann.announced && Unnamed(Emits(s, step), 0, a)
  {
    hide Separate, UniqueKeys, NewByInterface, Pending;
    var out := Emits(s, step);
    if step.ReadReturns? {
      var announced, declined := s.ann.announced * Keys(step.held), s.ann.declined * Keys(step.held);
      GroupsAreTheNewAddresses(step.held, announced, declined, s.phase.includeDeclined);
      var groups := NewByInterface(step.held, announced, declined, s.phase.includeDeclined);
      assert !Releases(out[0], a);
      NotPendingNotNamed(groups, a);
    } else if step.PublishReturns? {
      NotPendingNotNamed(s.phase.remaining, a);
    } else if step.Decline? || step.Forget? {
      assert !Releases(out[0], a);
    }
  }

  /** Whatever follows: an announced address is not announced again until something releases it. */
  lemma {:induction false} AnnouncedUntilReleased(steps: seq<Step>, more: seq<Step>, a: Address)
    requires Run(steps).Some? && Run(steps + more).Some? && a in Run(steps).value.0.ann.announced
    ensures |Run(steps).value.1| <= |Run(steps + more).value.1|
    ensures var (from, log) := (|Run(steps).value.1|, Run(steps + more).value.1);
            Unreleased(log, from, a) ==> Unnamed(log, from, a) && a in Run(steps + more).value.0.ann.announced
  {
    if more == [] {
      assert steps + more == steps;
    } else {
      var n := |more| - 1;
      var front, step := more[..n], more[n];
      assert (steps + more)[..|steps + more| - 1] == steps + front;
      AnnouncedUntilReleased(steps, front, a);
      EveryRunIsOrderly(steps + front);
      var (s, before) := Run(steps + front).value;
      var from, log, out := |Run(steps).value.1|, Run(steps + more).value.1, Emits(s, step);
      assert log == before + out;
      if Unreleased(log, from, a) {
        assert forall k :: from <= k < |before| ==> log[k] == before[k];
        assert forall k :: 0 <= k < |out| ==> log[|before| + k] == out[k];
        AnnouncedStaysSilent(s, step, a);
      }
    }
  }

  /**
   So the stranded device of `CarelessSteps` is announced never again, whatever follows, until it is
   declined once more, forgotten, or gone from an inbox read.
   */
  lemma {:induction false} StrandedStaysSilent(held: HeldMap, more: seq<Step>)
    requires |held| == 2 && held[0].0 != held[1].0 && held[0].1 != held[1].1
    requires Run(CarelessSteps(held) + more).Some?
    ensures Run(CarelessSteps(held)).Some?
    ensures var (from, log) := (|Run(CarelessSteps(held)).value.1|, Run(CarelessSteps(held) + more).value.1);
            Unreleased(log, from, held[1].0) ==> Unnamed(log, from, held[1].0)
  {
    TwoGroups(held);
    CarelessDeclineIsStranded(held);
    AnnouncedUntilReleased(CarelessSteps(held), more, held[1].0);
  }

  /** Between two announcements of an address, in every interleaving, the hold was released. */
  lemma {:induction false} AtMostOneAnnouncementPerHold(steps: seq<Step>, i: nat, j: nat, a: Address)
    requires Run(steps).Some? && i < j < |Run(steps).value.1|
    requires Names(Run(steps).value.1[i], a) && Names(Run(steps).value.1[j], a)
    ensures exists k :: i < k < j && Releases(Run(steps).value.1[k], a)
  {
    var log := Run(steps).value.1;
    StandingIsAnnounced(steps, a);
    if forall k :: i < k < j ==> !Releases(log[k], a) {
      StandingUntilReleased(log, i, j, a);
    }
  }

  // ---- what a finished sync leaves ----

  /** The addresses forgotten since the lock was last taken. */
  ghost function ForgottenSinceLock(steps: seq<Step>): set<Address> {
    if steps == [] then {}
    else
      var rest, step := steps[..|steps| - 1], steps[|steps| - 1];
      if step.TakeLock? then {} else ForgottenSinceLock(rest) + (if step.Forget? then {step.address} else {})
  }

  lemma {:induction false} PublishingCoversHeld(steps: seq<Step>)
    requires Run(steps).Some?
    ensures var s := Run(steps).value.0;
            s.phase.Publishing? ==>
              s.phase.held <= s.ann.announced + s.ann.declined + PendingOf(s) + ForgottenSinceLock(steps)
  {
    if steps != [] {
      var front, step := steps[..|steps| - 1], steps[|steps| - 1];
      PublishingCoversHeld(front);
      var s := Run(front).value.0;
      if step.ReadReturns? {
        AfterReadCoversHeld(s.ann, step.held, s.phase.includeDeclined);
      }
    }
  }

  lemma {:induction false} AfterReadCoversHeld(s: Announcer, held: HeldMap, includeDeclined: bool)
    requires UniqueKeys(held)
    ensures var (ann, groups) := AfterRead(s, held, includeDeclined);
            && Keys(held) == ann.announced + ann.declined + Pending(groups)
            && ann.announced !! Pending(groups)
  {
    var announced, declined := s.announced * Keys(held), s.declined * Keys(held);
    GroupsAreTheNewAddresses(held, announced, declined, includeDeclined);
    var groups := NewByInterface(held, announced, declined, includeDeclined);
    forall a | a in Keys(held) ensures a in announced + (declined - Pending(groups)) + Pending(groups) {
      if a !in announced && a !in declined {
        assert IsNew(a, announced, declined, includeDeclined);
      }
    }
  }

  /** The inbox the last successful read of a run returned. */
  ghost function LastRead(steps: seq<Step>): set<Address> {
    if steps == [] then {}
    else
      var step := steps[|steps| - 1];
      if step.ReadReturns? then Keys(step.held) else LastRead(steps[..|steps| - 1])
  }

  lemma {:induction false} PublishingHoldsLastRead(steps: seq<Step>)
    requires Run(steps).Some?
    ensures var s := Run(steps).value.0; s.phase.Publishing? ==> s.phase.held == LastRead(steps)
  {
    if steps != [] {
      PublishingHoldsLastRead(steps[..|steps| - 1]);
    }
  }

  /**
   When a sync that read the inbox finishes, announced is within held, and held within announced,
   declined and forgotten.
   */
  lemma {:induction false} FinishedSyncMatchesInbox(steps: seq<Step>)
    requires steps != [] && Run(steps).Some?
    requires steps[|steps| - 1].ReadReturns? || steps[|steps| - 1].PublishReturns?
    requires Run(steps).value.0.phase.Idle?
    ensures var ann := Run(steps).value.0.ann;
            && ann.announced <= LastRead(steps)
            && LastRead(steps) <= ann.announced + ann.declined + ForgottenSinceLock(steps)
  {
    var front, step := steps[..|steps| - 1], steps[|steps| - 1];
    EveryRunIsOrderly(front);
    PublishingCoversHeld(front);
    PublishingHoldsLastRead(front);
    var s := Run(front).value.0;
    if step.ReadReturns? {
      AfterReadCoversHeld(s.ann, step.held, s.phase.includeDeclined);
    }
  }

  // ---- the object ----

  /** The announcer's fields and the segments of its coroutines between two awaits. */
  class HeldDeviceAnnouncer {
    var announced: set<Address>
    var declined: set<Address>
    var resyncPending: bool
    const centralNames: set<string>

    constructor (centralNames: set<string>)
      ensures State() == Fresh && this.centralNames == centralNames
      ensures announced == {} && declined == {} && !resyncPending
    {
      this.announced, this.declined, this.resyncPending := {}, {}, false;
      this.centralNames := centralNames;
    }

    ghost function State(): Announcer reads this {
      Announcer(announced, declined, resyncPending)
    }

    method Forget(address: Address)
      modifies this`announced
      ensures State() == Forgotten(old(State()), address) && announced == old(announced) - {address}
    {
      announced := announced - {address};
    }

    method Decline(address: Address)
      modifies this
      ensures State() == DeclinedTo(old(State()), address) && resyncPending
      ensures announced == old(announced) - {address} && declined == old(declined) + {address}
    {
      announced := announced - {address};
      declined := declined + {address};
      ScheduleResync();
    }

    method ScheduleResync()
      modifies this`resyncPending
      ensures resyncPending
    {
      if resyncPending {
        return;
      }
      resyncPending := true;
    }

    method CancelResync()
      modifies this`resyncPending
      ensures !resyncPending
    {
      if resyncPending {
        resyncPending := false;
      }
    }

    /** The timer expired: the field is cleared before the sync it starts. */
    method WakeAfterDelay()
      requires resyncPending
      modifies this`resyncPending
      ensures State() == old(State()).(timerArmed := false)
    {
      resyncPending := false;
    }

    /** Filters the inbox entries that were read. */
    method HeldAddresses(entries: seq<InboxEntry>) returns (held: HeldMap)
      ensures held == HeldOf(entries, centralNames)
    {
      held := [];
      for i := 0 to |entries|
        invariant held == HeldOf(entries[..i], centralNames)
      {
        assert entries[..i + 1][..i] == entries[..i];
        var entry := entries[i];
        if entry.pendingCreation != Some(true) || (!Blank(entry.central) && entry.central.value !in centralNames) {
          continue;
        }
        var interfaceId := WireInterfaceId(entry.central, entry.interfaceName);
        if interfaceId != "" {
          held := Assign(held, entry.address, interfaceId);
        }
      }
      assert entries[..|entries|] == entries;
    }

    method SyncReadFailed(includeDeclined: bool)
      modifies this`resyncPending
      ensures State() == AfterFailedRead(old(State()), includeDeclined)
      ensures resyncPending == (old(resyncPending) || (includeDeclined && declined != {}))
    {
      if includeDeclined && declined != {} {
        ScheduleResync();
      }
    }

    /** The segment of `sync` between the inbox read and the first publish. */
    method SyncCompute(held: HeldMap, includeDeclined: bool) returns (newByInterface: seq<Group>)
      requires UniqueKeys(held)
      modifies this`announced, this`declined
      ensures (State(), newByInterface) == AfterRead(old(State()), held, includeDeclined)
      // spelt out: every held address that is not announced, and not declined unless this is a re-sync
      ensures Pending(newByInterface) == Keys(held) - old(announced) - (if includeDeclined then {} else old(declined))
      ensures !includeDeclined ==> declined == old(declined) * Keys(held)
    {
      hide *;
      SyncAnnounces(State(), held, includeDeclined);
      StateIs();
      newByInterface := ComputeGroups(held, includeDeclined);
      StateIs();
    }

    lemma StateIs()
      ensures State() == Announcer(announced, declined, resyncPending)
    {
    }

    /** What is no longer held is let go, and the new addresses are grouped by interface. */
    method ComputeGroups(held: HeldMap, includeDeclined: bool) returns (newByInterface: seq<Group>)
      requires UniqueKeys(held)
      modifies this`announced, this`declined
      ensures (State(), newByInterface) == AfterRead(old(State()), held, includeDeclined)
    {
      announced := announced * Keys(held);
      declined := declined * Keys(held);
      ghost var before := declined;
      newByInterface := [];
      for i := 0 to |held|
        invariant announced == old(announced) * Keys(held)
        invariant newByInterface == NewByInterface(held[..i], announced, before, includeDeclined)
        invariant declined == before - Pending(newByInterface)
        invariant Pending(newByInterface) <= Keys(held[..i])
      {
        assert held[..i + 1][..i] == held[..i];
        assert Keys(held[..i + 1]) == Keys(held[..i]) + {held[i].0};
        GroupsAreTheNewAddresses(held[..i], announced, before, includeDeclined);
        var (address, interfaceId) := held[i];
        assert address !in Keys(held[..i]);
        if address in announced || (address in declined && !includeDeclined) {
          continue;
        }
        AddToSeparate(newByInterface, address, interfaceId);
        newByInterface := AddTo(newByInterface, address, interfaceId);
        declined := declined - {address};
      }
      assert held[..|held|] == held;
    }

    /** Marked before the publish, so a decline issued by a handler wins. */
    method MarkAnnounced(group: Group)
      modifies this`announced
      ensures State() == Marked(old(State()), group)
      ensures announced == old(announced) + set a | a in group.addresses
    {
      announced := announced + Elements(group.addresses);
    }

    method FinishSync()
      modifies this`resyncPending
      ensures State() == Finished(old(State())) && resyncPending == (old(resyncPending) && declined != {})
    {
      if declined == {} {
        CancelResync();
      }
    }
  }
}
