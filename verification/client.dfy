/**
 The client's bootstrap over the live store: one nested snapshot, attached device by device. What the
 store then holds is `SnapshotWalk.Bootstrap` of what it held; which objects hold it is said here.
 */
module Client {
  import opened Common
  import opened StoreGraph
  import opened SnapshotWalk
  import opened IndexTable
  import B = EventBusModel
  import E = EndToEnd
  import S = Store

  /** The snapshot's channels carry their device's address. */
  ghost predicate Addressed(channels: seq<NestedChannel>, a: Address) {
    forall ch <- channels :: DeviceOf(ch.summary.address) == a
  }

  /** The snapshot meets a store it can be walked into: sound, every device of it known, channels well addressed. */
  ghost predicate Walkable(g: Graph, snap: Snapshot) {
    Sound(g) && WellAddressed(snap) && Addresses(snap.devices) <= g.devices.Keys
  }

  lemma {:induction false} LoadedIsWalkable(g: Graph, snap: Snapshot, fetchDataPoints: bool)
    ensures Bootstrap(g, snap, fetchDataPoints)
         == Walk(LoadDevices(g, snap.devices), snap, fetchDataPoints, |snap.devices|)
    ensures Sound(g) && WellAddressed(snap) && HasRoom(g, snap) ==> Walkable(LoadDevices(g, snap.devices), snap)
  {
    if Sound(g) && WellAddressed(snap) && HasRoom(g, snap) {
      LoadSound(g, snap.devices);
      LoadedDevices(g, snap.devices, g.devices.Keys + Addresses(snap.devices));
    }
  }

  lemma {:induction false} HandledNext(g: Graph, b: B.Bus, calls: seq<B.Subscription>, p: E.Payload, i: nat)
    requires i < |calls|
    requires forall sub <- calls :: sub.token < |b.issued| && b.issued[sub.token] == sub.Fields()
    ensures var tokens := B.Tokens(calls);
            var before := E.HandledBy(g, b, tokens[..i], p);
            E.HandledBy(g, b, tokens[..i + 1], p)
            == if E.WireIndex(p) == Some(calls[i].handler) then E.Applied(before, p) else before
  {
    var tokens := B.Tokens(calls);
    assert calls[i] in calls && tokens[..i + 1][..i] == tokens[..i];
  }

  lemma {:induction false} AttachedInSteps(g: Graph, s: DeviceSummary, chs: seq<NestedChannel>, fetchDataPoints: bool)
    ensures var detailed := AttachDetail(g, s, Summaries(chs));
            AttachFromSnapshot(g, s, chs, fetchDataPoints)
            == if fetchDataPoints then AttachCatalogues(detailed, s.address, chs, |chs|) else detailed
  {
  }

  lemma {:induction false} AttachedHolds(g: Graph, s: DeviceSummary, chs: seq<NestedChannel>)
    requires Sound(g) && CanAdmit(g, s.address) && Addressed(chs, s.address)
    ensures var h := AttachFromSnapshot(g, s, chs, true); HoldsAll(h, s.address, chs) && HoldsOnly(h, s.address, chs)
  {
    hide Sound, CanAdmit, AttachFromSnapshot, HoldsAll, HoldsOnly;
    AttachHoldsTheListing(g, s, chs);
  }

  lemma {:induction false} SubdictValues<K, H>(now: map<K, H>, was: map<K, H>)
    requires S.Within(now, was)
    ensures now.Keys <= was.Keys && now.Values <= was.Values && forall k <- now :: now[k] == was[k]
  {
  }

  /** A data point that went with its channel is not attached again by the device's catalogues. */
  lemma {:induction false} VanishedStaysOut(
    g: Graph, s: DeviceSummary, chs: seq<NestedChannel>, detailed: set<DpKey>, now: set<DpKey>)
    requires Sound(g) && CanAdmit(g, s.address) && Addressed(chs, s.address)
    requires detailed == AttachDetail(g, s, Summaries(chs)).dataPoints.Keys
    requires now == AttachFromSnapshot(g, s, chs, true).dataPoints.Keys
    ensures forall k <- g.dataPoints :: k !in detailed ==> k !in now
  {
    hide Sound, CanAdmit, AttachDetail, AttachFromSnapshot, Summaries;
    forall k | k in g.dataPoints && k !in detailed ensures k !in now {
      CataloguesLeaveVanishedChannels(g, s, chs, k);
    }
  }

  /**
   No consumer's handle is orphaned: every device stays under its object, and so does every channel and
   data point that is still there.
   */
  ghost predicate Outlive(was: S.Holdings, now: S.Holdings) {
    && S.Extends(now.devices, was.devices)
    && (forall k <- was.channels :: k in now.channels ==> now.channels[k] == was.channels[k])
    && (forall k <- was.dataPoints :: k in now.dataPoints ==> now.dataPoints[k] == was.dataPoints[k])
  }

  /** What `g` held and was gone before is still gone. */
  ghost predicate GoneForGood(g: Graph, was: S.Holdings, now: S.Holdings) {
    && (forall k <- g.channels :: k !in was.channels ==> k !in now.channels)
    && (forall k <- g.dataPoints :: k !in was.dataPoints ==> k !in now.dataPoints)
  }

  lemma {:induction false} OutliveItself(h: S.Holdings)
    ensures Outlive(h, h)
  {
  }

  lemma {:induction false} OutliveFromLoad(was: S.Holdings, loaded: S.Holdings, now: S.Holdings)
    requires was.devices.Keys <= loaded.devices.Keys && Outlive(loaded, now)
    requires forall k <- loaded.devices :: k in was.devices ==> loaded.devices[k] == was.devices[k]
    requires was.channels == loaded.channels && was.dataPoints == loaded.dataPoints
    ensures Outlive(was, now)
  {
  }

  lemma {:induction false} OutliveByKey(was: S.Holdings, now: S.Holdings)
    requires was.devices.Keys <= now.devices.Keys
    requires forall k <- now.devices :: k in was.devices ==> now.devices[k] == was.devices[k]
    requires forall k <- now.channels :: k in was.channels ==> now.channels[k] == was.channels[k]
    requires forall k <- was.dataPoints :: k in now.dataPoints ==> now.dataPoints[k] == was.dataPoints[k]
    ensures Outlive(was, now)
  {
  }

  lemma {:induction false} WalkedNone(g: Graph, snap: Snapshot, fetchDataPoints: bool)
    ensures Walk(g, snap, fetchDataPoints, 0) == g
  {
  }

  lemma {:induction false} WalkedOneMore(g: Graph, snap: Snapshot, fetchDataPoints: bool, i: nat)
    requires i < |snap.devices|
    ensures Walk(g, snap, fetchDataPoints, i + 1)
         == match ChannelsOf(snap, snap.devices[i].address)
            case Some(chs) =>
              AttachFromSnapshot(Walk(g, snap, fetchDataPoints, i), snap.devices[i], chs, fetchDataPoints)
            case None => Walk(g, snap, fetchDataPoints, i)
  {
  }

  /** At every turn of a walk the graph is sound, the next device known, and its channels its own. */
  lemma {:induction false} WalkedSoFar(g: Graph, snap: Snapshot, i: nat)
    requires Walkable(g, snap) && i < |snap.devices|
    ensures var (m, s) := (Walk(g, snap, true, i), snap.devices[i]);
            && Sound(m) && CanAdmit(m, s.address)
            && (ChannelsOf(snap, s.address).Some? ==> Addressed(ChannelsOf(snap, s.address).value, s.address))
            && Walk(g, snap, true, i + 1).devices.Keys == m.devices.Keys
  {
    hide Sound, WellAddressed, Walk, ChannelsOf;
    WalkKeepsSound(g, snap, i);
    WalkKeepsSound(g, snap, i + 1);
    AddressOf(snap.devices, i);
    if ChannelsOf(snap, snap.devices[i].address).Some? {
      NestedAddressed(snap, snap.devices[i].address);
    }
  }

  lemma {:induction false} WalkedForGood(g: Graph, snap: Snapshot, i: nat, was: S.Holdings, now: S.Holdings)
    requires Walkable(g, snap) && i < |snap.devices|
    requires var m := Walk(g, snap, true, i);
             was.channels.Keys == m.channels.Keys && was.dataPoints.Keys == m.dataPoints.Keys
    requires var h := Walk(g, snap, true, i + 1);
             now.channels.Keys == h.channels.Keys && now.dataPoints.Keys == h.dataPoints.Keys
    ensures GoneForGood(g, was, now)
  {
    hide Sound, WellAddressed, Addresses, Walk;
    forall k | k in g.channels && k !in was.channels ensures k !in now.channels {
      WalkNeverReadds(g, snap, i, k.0, k.1, "");
    }
    forall k | k in g.dataPoints && k !in was.dataPoints ensures k !in now.dataPoints {
      WalkNeverReadds(g, snap, i, k.0, k.1, k.2);
    }
  }

  lemma {:induction false} OutliveTwice(g: Graph, a: S.Holdings, b: S.Holdings, c: S.Holdings)
    requires Outlive(a, b) && Outlive(b, c) && GoneForGood(g, b, c)
    requires g.channels.Keys == a.channels.Keys && g.dataPoints.Keys == a.dataPoints.Keys
    ensures Outlive(a, c)
  {
  }

  lemma {:induction false} HandledNone(g: Graph, b: B.Bus, calls: seq<B.Subscription>, p: E.Payload)
    ensures |B.Tokens(calls)| == |calls| && E.HandledBy(g, b, B.Tokens(calls)[..0], p) == g
  {
  }

  /**
   What serving an event does to the dicts: a key that is there before and after keeps its object. A
   removal only takes entries away, any other event at most adds a device.
   */
  ghost predicate Served(p: E.Payload, was: S.Holdings, now: S.Holdings) {
    && (if p.DeviceRemoved? then S.Within(now.devices, was.devices) else S.Extends(now.devices, was.devices))
    && S.Within(now.channels, was.channels) && S.Within(now.dataPoints, was.dataPoints) && S.Within(now.cdps, was.cdps)
  }

  lemma {:induction false} ServedNothing(p: E.Payload, d: S.Holdings)
    ensures Served(p, d, d)
  {
  }

  lemma NoCatalogues(g: Graph, a: Address, chs: seq<NestedChannel>)
    ensures AttachCatalogues(g, a, chs, 0) == g
  {
  }

  lemma {:induction false} ServedTwice(p: E.Payload, a: S.Holdings, b: S.Holdings, c: S.Holdings)
    requires Served(p, a, b) && Served(p, b, c)
    ensures Served(p, a, c)
  {
  }

  class LoomClient {
    const store: S.LoomStore

    constructor (store: S.LoomStore)
      ensures this.store == store
    {
      this.store := store;
    }

    /** `_attach_device_from_snapshot`: the detail is assembled from the snapshot, then one catalogue per channel. */
    method AttachDeviceFromSnapshot(summary: DeviceSummary, chs: seq<NestedChannel>, fetchDataPoints: bool)
      requires store.Valid()
      modifies store`devices, store`deviceCapWarned, store`channels, store`dataPoints, store`calculatedDpKeys
      modifies store.devices.Values, store.channels.Values, store.dataPoints.Values
      ensures store.Valid()
      ensures store.View() == AttachFromSnapshot(old(store.View()), summary, chs, fetchDataPoints)
      ensures forall k <- store.devices ::
                if k in old(store.devices) then store.devices[k] == old(store.devices)[k] else fresh(store.devices[k])
      ensures forall k <- store.channels ::
                if k in old(store.channels) then store.channels[k] == old(store.channels)[k]
                else fresh(store.channels[k])
      ensures forall k <- store.dataPoints ::
                store.dataPoints[k] in old(store.dataPoints.Values) || fresh(store.dataPoints[k])
      ensures var g := old(store.View());
              Sound(g) && CanAdmit(g, summary.address) && Addressed(chs, summary.address) ==>
                forall k <- old(store.dataPoints) ::
                  k in store.dataPoints ==> store.dataPoints[k] == old(store.dataPoints)[k]
      ensures var g := old(store.View());
              fetchDataPoints && Sound(g) && CanAdmit(g, summary.address) && Addressed(chs, summary.address) ==>
                HoldsAll(store.View(), summary.address, chs) && HoldsOnly(store.View(), summary.address, chs)
    {
      hide *;
      ghost var g, was := store.View(), store.dataPoints;
      if Sound(g) && CanAdmit(g, summary.address) && Addressed(chs, summary.address) {
        AttachedHolds(g, summary, chs);
      }
      store.ViewKeys();
      AttachDetailOf(summary, chs);
      ghost var detailed := store.dataPoints;
      SubdictValues(detailed, was);
      AttachedInSteps(g, summary, chs, fetchDataPoints);
      if !fetchDataPoints {
        return;
      }
      store.ViewKeys();
      AttachEachCatalogue(summary.address, chs);
      store.ViewKeys();
      if Sound(g) && CanAdmit(g, summary.address) && Addressed(chs, summary.address) {
        VanishedStaysOut(g, summary, chs, detailed.Keys, store.dataPoints.Keys);
      }
    }

    /** The detail built from the nested channels; objects stay under their keys. */
    method AttachDetailOf(summary: DeviceSummary, chs: seq<NestedChannel>)
      requires store.Valid()
      modifies store`devices, store`deviceCapWarned, store`channels, store`dataPoints, store`calculatedDpKeys
      modifies store.devices.Values, store.channels.Values
      ensures store.Valid() && store.View() == AttachDetail(old(store.View()), summary, Summaries(chs))
      ensures S.Within(store.dataPoints, old(store.dataPoints))
      ensures forall k <- store.devices ::
                if k in old(store.devices) then store.devices[k] == old(store.devices)[k] else fresh(store.devices[k])
      ensures forall k <- store.channels ::
                if k in old(store.channels) then store.channels[k] == old(store.channels)[k]
                else fresh(store.channels[k])
    {
      hide *;
      store.AttachDeviceDetail(summary, Summaries(chs));
    }

    method AttachEachCatalogue(address: Address, chs: seq<NestedChannel>)
      requires store.Valid()
      modifies store`dataPoints, store.dataPoints.Values
      ensures store.Valid() && store.View() == AttachCatalogues(old(store.View()), address, chs, |chs|)
      ensures forall k <- store.dataPoints ::
                if k in old(store.dataPoints) then store.dataPoints[k] == old(store.dataPoints)[k]
                else fresh(store.dataPoints[k])
      ensures forall c: nat, d: nat :: ListsAt(chs, c, d) ==>
                var dp := chs[c].dataPoints[d];
                Get(store.View().dataPoints, (address, chs[c].summary.number, dp.parameter)) == Some(dp)
    {
      ghost var g := store.View();
      WalkChannels(address, chs);
      hide *;
      forall c: nat, d: nat | ListsAt(chs, c, d)
        ensures var dp := chs[c].dataPoints[d];
                Get(AttachCatalogues(g, address, chs, |chs|).dataPoints, (address, chs[c].summary.number, dp.parameter))
                == Some(dp)
      {
        CataloguesHoldTheListing(g, address, chs, c, d);
      }
    }

    /** One pass over the channels of a device. */
    method WalkChannels(address: Address, chs: seq<NestedChannel>)
      requires store.Valid()
      modifies store`dataPoints, store.dataPoints.Values
      ensures store.Valid() && store.View() == AttachCatalogues(old(store.View()), address, chs, |chs|)
      ensures forall k <- store.dataPoints ::
                if k in old(store.dataPoints) then store.dataPoints[k] == old(store.dataPoints)[k]
                else fresh(store.dataPoints[k])
    {
      hide *;
      ghost var g := store.View();
      NoCatalogues(g, address, chs);
      store.ViewKeys();
      for i := 0 to |chs|
        invariant store.Valid() && store.View() == AttachCatalogues(g, address, chs, i)
        invariant forall k <- store.dataPoints ::
                    if k in old(store.dataPoints) then store.dataPoints[k] == old(store.dataPoints)[k]
                    else fresh(store.dataPoints[k])
      {
        hide *;
        AttachCatalogue(g, address, chs, i);
      }
    }

    /** One channel's catalogue, in a pass that began at `g`. */
    method AttachCatalogue(ghost g: Graph, address: Address, chs: seq<NestedChannel>, i: nat)
      requires store.Valid() && i < |chs| && store.View() == AttachCatalogues(g, address, chs, i)
      modifies store`dataPoints, store.dataPoints.Values
      ensures store.Valid() && store.View() == AttachCatalogues(g, address, chs, i + 1)
      ensures forall k <- store.dataPoints ::
                if k in old(store.dataPoints) then store.dataPoints[k] == old(store.dataPoints)[k]
                else fresh(store.dataPoints[k])
      ensures forall k <- g.dataPoints :: k !in old(store.dataPoints) ==> k !in store.dataPoints
    {
      hide *;
      store.ViewKeys();
      CataloguesStep(g, address, chs, i);
      store.AttachChannelDataPoints(address, chs[i].summary.number, CatalogueOf(chs, chs[i].summary.number));
      store.ViewKeys();
      forall k | k in g.dataPoints && k !in old(store.dataPoints) ensures k !in store.dataPoints {
        CataloguesNeverReadd(g, address, chs, i, k);
      }
    }

    /** One turn of the walk that began at `g`. */
    method AttachNext(ghost g: Graph, snap: Snapshot, fetchDataPoints: bool, i: nat)
      requires store.Valid() && i < |snap.devices| && store.View() == Walk(g, snap, fetchDataPoints, i)
      modifies store`devices, store`deviceCapWarned, store`channels, store`dataPoints, store`calculatedDpKeys
      modifies store.devices.Values, store.channels.Values, store.dataPoints.Values
      ensures store.Valid() && store.View() == Walk(g, snap, fetchDataPoints, i + 1)
      ensures fresh(store.devices.Values - old(store.devices.Values))
      ensures fresh(store.channels.Values - old(store.channels.Values))
      ensures fresh(store.dataPoints.Values - old(store.dataPoints.Values))
      ensures fetchDataPoints && Walkable(g, snap) ==>
                Outlive(old(store.Held()), store.Held()) && GoneForGood(g, old(store.Held()), store.Held())
    {
      hide *;
      ghost var was := store.Held();
      ghost var walkable := fetchDataPoints && Walkable(g, snap);
      store.ViewKeys();
      store.HeldDicts();
      WalkedOneMore(g, snap, fetchDataPoints, i);
      OutliveItself(was);
      if walkable {
        WalkedSoFar(g, snap, i);
      }
      var nested := ChannelsOf(snap, snap.devices[i].address);
      if nested.Some? {
        AttachDeviceFromSnapshot(snap.devices[i], nested.value, fetchDataPoints);
      }
      store.ViewKeys();
      store.HeldDicts();
      if walkable {
        OutliveByKey(was, store.Held());
        WalkedForGood(g, snap, i, was, store.Held());
      }
    }

    method WalkDevices(snap: Snapshot, fetchDataPoints: bool)
      requires store.Valid()
      modifies store`devices, store`deviceCapWarned, store`channels, store`dataPoints, store`calculatedDpKeys
      modifies store.devices.Values, store.channels.Values, store.dataPoints.Values
      ensures store.Valid() && store.View() == Walk(old(store.View()), snap, fetchDataPoints, |snap.devices|)
      ensures fetchDataPoints && Walkable(old(store.View()), snap) ==> Outlive(old(store.Held()), store.Held())
    {
      hide *;
      ghost var g, was := store.View(), store.Held();
      ghost var walkable := fetchDataPoints && Walkable(g, snap);
      WalkedNone(g, snap, fetchDataPoints);
      OutliveItself(was);
      store.ViewKeys();
      store.HeldDicts();
      for i := 0 to |snap.devices|
        invariant store.Valid() && store.View() == Walk(g, snap, fetchDataPoints, i)
        invariant fresh(store.devices.Values - was.devices.Values)
        invariant fresh(store.channels.Values - was.channels.Values)
        invariant fresh(store.dataPoints.Values - was.dataPoints.Values)
        invariant walkable ==> Outlive(was, store.Held())
      {
        ghost var mid := store.Held();
        AttachNext(g, snap, fetchDataPoints, i);
        if walkable {
          OutliveTwice(g, was, mid, store.Held());
        }
      }
    }

    /**
     `bootstrap` from a nested snapshot. With room for the snapshot's devices, every device, channel and
     data point that is still there afterwards is the object that was there before: a re-bootstrap orphans nothing.
     */
    method BootstrapFrom(snap: Snapshot, fetchDataPoints: bool)
      requires store.Valid()
      modifies store`devices, store`deviceCapWarned, store`channels, store`dataPoints, store`calculatedDpKeys
      modifies store.devices.Values, store.channels.Values, store.dataPoints.Values
      ensures store.Valid() && store.View() == Bootstrap(old(store.View()), snap, fetchDataPoints)
      ensures fetchDataPoints && Sound(old(store.View())) && WellAddressed(snap) && HasRoom(old(store.View()), snap) ==>
                Outlive(old(store.Held()), store.Held()) && HoldsSnapshot(store.View(), snap)
    {
      hide *;
      ghost var g, was := store.View(), store.Held();
      store.HeldDicts();
      LoadedIsWalkable(g, snap, fetchDataPoints);
      store.LoadSnapshot(snap.devices);
      store.HeldDicts();
      ghost var loaded := store.Held();
      WalkDevices(snap, fetchDataPoints);
      if fetchDataPoints && Sound(g) && WellAddressed(snap) && HasRoom(g, snap) {
        OutliveFromLoad(was, loaded, store.Held());
        BootstrapHoldsTheSnapshot(g, snap);
      }
    }

    /** The store handler bound for this kind of event: what it leaves in the store are the objects that were there. */
    method Apply(p: E.Payload)
      requires store.Valid()
      modifies store`devices, store`deviceCapWarned, store`channels
      modifies store`dataPoints, store`calculatedDpKeys, store`cdps
      modifies store`cdpByChannel, store`weekProfiles
      modifies store.devices.Values, store.dataPoints.Values, store.cdps.Values
      ensures store.Valid() && store.View() == E.Applied(old(store.View()), p)
      ensures Served(p, old(store.Held()), store.Held()) && fresh(store.devices.Values - old(store.devices.Values))
      ensures store.dataPoints.Values <= old(store.dataPoints.Values) && store.cdps.Values <= old(store.cdps.Values)
      ensures old(Agrees(store.CdpTable())) ==> Agrees(store.CdpTable())
    {
      hide S.LoomStore.View, S.LoomStore.Valid, S.LoomStore.CdpTable, Agrees, ApplyDeviceCreated, ApplyDeviceRemoved;
      if p.DeviceRemoved? {
        ApplyRemoved(p);
      } else if p.DeviceCreated? {
        ApplyCreated(p);
      } else {
        ApplyInPlace(p);
      }
    }

    /** A removed device takes its entries away and adds nothing. */
    method ApplyRemoved(p: E.Payload)
      requires store.Valid() && p.DeviceRemoved?
      modifies store`devices, store`channels, store`dataPoints, store`calculatedDpKeys, store`cdps
      modifies store`cdpByChannel, store`weekProfiles
      ensures store.Valid() && store.View() == E.Applied(old(store.View()), p)
      ensures S.Within(store.devices, old(store.devices)) && S.Within(store.channels, old(store.channels))
      ensures S.Within(store.dataPoints, old(store.dataPoints)) && S.Within(store.cdps, old(store.cdps))
      ensures old(Agrees(store.CdpTable())) ==> Agrees(store.CdpTable())
    {
      hide S.LoomStore.View, S.LoomStore.Valid, S.LoomStore.CdpTable, Agrees, ApplyDeviceRemoved;
      store.ApplyDeviceRemoved(p.address);
    }

    /** A new device at most adds an object. */
    method ApplyCreated(p: E.Payload)
      requires store.Valid() && p.DeviceCreated?
      modifies store`devices, store`deviceCapWarned
      ensures store.Valid() && store.View() == E.Applied(old(store.View()), p)
      ensures S.Extends(store.devices, old(store.devices)) && fresh(store.devices.Values - old(store.devices.Values))
    {
      hide S.LoomStore.View, S.LoomStore.Valid, ApplyDeviceCreated;
      store.ApplyDeviceCreated(p.address);
      forall device | device in store.devices.Values && device !in old(store.devices.Values) ensures fresh(device) {
        var k :| k in store.devices && store.devices[k] == device;
      }
    }

    /** A push that adds and drops nothing: the dicts stay, an object in them changes. */
    method ApplyInPlace(p: E.Payload)
      requires store.Valid() && !p.DeviceRemoved? && !p.DeviceCreated?
      modifies store.devices.Values, store.dataPoints.Values, store.cdps.Values
      ensures store.View() == E.Applied(old(store.View()), p) && store.CdpTable() == old(store.CdpTable())
    {
      hide S.LoomStore.View, S.LoomStore.Valid, S.LoomStore.CdpTable;
      match p {
        case ValuePush(push) => store.ApplyValueChanged(push);
        case CdpStatePush(key, state) => store.ApplyCustomDataPointStateChanged(key, state);
        case AvailabilityPush(a, available) => store.ApplyDeviceAvailabilityChanged(a, available);
        case RefreshedPush(a, at) => store.ApplyDeviceRefreshed(a, at);
        case Elsewhere(_) =>
      }
    }

    method HandleCalls(calls: seq<B.Subscription>, p: E.Payload, ghost b: B.Bus)
      requires store.Valid()
      requires forall sub <- calls :: sub.token < |b.issued| && b.issued[sub.token] == sub.Fields()
      modifies store`devices, store`deviceCapWarned, store`channels
      modifies store`dataPoints, store`calculatedDpKeys, store`cdps
      modifies store`cdpByChannel, store`weekProfiles
      modifies store.devices.Values, store.dataPoints.Values, store.cdps.Values
      ensures store.Valid() && store.View() == E.HandledBy(old(store.View()), b, B.Tokens(calls), p)
      ensures Served(p, old(store.Held()), store.Held()) && fresh(store.devices.Values - old(store.devices.Values))
      ensures store.dataPoints.Values <= old(store.dataPoints.Values) && store.cdps.Values <= old(store.cdps.Values)
      ensures old(Agrees(store.CdpTable())) ==> Agrees(store.CdpTable())
    {
      hide *;
      ServedNothing(p, store.Held());
      HandledNone(store.View(), b, calls, p);
      for i := 0 to |calls|
        invariant store.Valid() && store.View() == E.HandledBy(old(store.View()), b, B.Tokens(calls)[..i], p)
        invariant Served(p, old(store.Held()), store.Held()) && fresh(store.devices.Values - old(store.devices.Values))
        invariant store.dataPoints.Values <= old(store.dataPoints.Values) && store.cdps.Values <= old(store.cdps.Values)
        invariant old(Agrees(store.CdpTable())) ==> Agrees(store.CdpTable())
      {
        hide *;
        HandledNext(old(store.View()), b, calls, p, i);
        if E.WireIndex(p) == Some(calls[i].handler) {
          ghost var before := store.Held();
          Apply(p);
          ServedTwice(p, old(store.Held()), before, store.Held());
        }
      }
      assert B.Tokens(calls)[..|calls|] == B.Tokens(calls);
    }

    /** The publish of one event, which does not touch the store. */
    method FanOutOn(bus: B.EventBus, event: E.LoomEvent, reactions: seq<B.Reaction>)
      returns (calls: seq<B.Subscription>)
      requires bus.Valid() && |reactions| >= |B.Bucket(bus.View(), E.TopicOf(event.payload))|
      modifies bus, bus.Objects()
      ensures bus.Valid()
      ensures (bus.View(), B.Tokens(calls))
           == B.Publish(old(bus.View()), E.TopicOf(event.payload), event.eventKey, reactions)
      ensures forall sub <- calls ::
                sub.token < |old(bus.View()).issued| && old(bus.View()).issued[sub.token] == sub.Fields()
    {
      hide *;
      calls := bus.PublishEvent(E.TopicOf(event.payload), event.eventKey, reactions);
    }

    /** One turn of `_dispatch_loop`: the event is published, and the store handlers among the called ones apply it. */
    method Dispatch(bus: B.EventBus, event: E.LoomEvent, reactions: seq<B.Reaction>)
      requires bus.Valid() && store.Valid()
      requires |reactions| >= |B.Bucket(bus.View(), E.TopicOf(event.payload))|
      modifies bus, bus.Objects()
      modifies store`devices, store`deviceCapWarned, store`channels
      modifies store`dataPoints, store`calculatedDpKeys, store`cdps
      modifies store`cdpByChannel, store`weekProfiles
      modifies store.devices.Values, store.dataPoints.Values, store.cdps.Values
      ensures bus.Valid() && store.Valid()
      ensures var (b, calls) := B.Publish(old(bus.View()), E.TopicOf(event.payload), event.eventKey, reactions);
              bus.View() == b && store.View() == E.HandledBy(old(store.View()), old(bus.View()), calls, event.payload)
      ensures Served(event.payload, old(store.Held()), store.Held())
      ensures fresh(store.devices.Values - old(store.devices.Values))
      ensures store.dataPoints.Values <= old(store.dataPoints.Values) && store.cdps.Values <= old(store.cdps.Values)
      ensures old(Agrees(store.CdpTable())) ==> Agrees(store.CdpTable())
    {
      hide *;
      var calls := FanOutOn(bus, event, reactions);
      HandleCalls(calls, event.payload, old(bus.View()));
    }
  }
}
