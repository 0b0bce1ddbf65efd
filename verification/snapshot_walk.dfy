/**
 The bootstrap walk: a nested snapshot brought into the store device by device, and what the store
 then holds, whatever it held before.
 */
module SnapshotWalk {
  import opened Common
  import opened StoreGraph

  datatype NestedChannel = NestedChannel(summary: ChannelSummary, dataPoints: seq<DpSummary>)

  /** One `device_channels` entry of a nested snapshot. */
  datatype DeviceChannels = DeviceChannels(deviceAddress: Address, channels: seq<NestedChannel>)

  datatype Snapshot = Snapshot(devices: seq<DeviceSummary>, nested: seq<DeviceChannels>)

  // ---- the two indexes of a nested snapshot ----

  function Entries(nested: seq<DeviceChannels>): seq<(Address, seq<NestedChannel>)> {
    seq(|nested|, i requires 0 <= i < |nested| => (nested[i].deviceAddress, nested[i].channels))
  }

  /** `_channel_map(...).get(address)`. */
  function ChannelsOf(snap: Snapshot, a: Address): Option<seq<NestedChannel>> {
    LastWrite(Entries(snap.nested), a)
  }

  function Summaries(channels: seq<NestedChannel>): seq<ChannelSummary> {
    seq(|channels|, i requires 0 <= i < |channels| => channels[i].summary)
  }

  function Catalogues(channels: seq<NestedChannel>): seq<(int, seq<DpSummary>)> {
    seq(|channels|, i requires 0 <= i < |channels| => (channels[i].summary.number, channels[i].dataPoints))
  }

  /** `_channel_dp_map(...)[address].get(number, ())`. */
  function CatalogueOf(channels: seq<NestedChannel>, n: int): seq<DpSummary> {
    match LastWrite(Catalogues(channels), n) case Some(dps) => dps case None => []
  }

  // ---- the walk ----

  /** Attach the catalogues of the first `count` channels of a device, in order. */
  function AttachCatalogues(g: Graph, a: Address, channels: seq<NestedChannel>, count: nat): Graph
    requires count <= |channels|
  {
    if count == 0 then g
    else
      var n := channels[count - 1].summary.number;
      AttachDataPoints(AttachCatalogues(g, a, channels, count - 1), a, n, CatalogueOf(channels, n))
  }

  /** `_attach_device_from_snapshot`; a refused device's catalogues are attached all the same. */
  function AttachFromSnapshot(g: Graph, s: DeviceSummary, channels: seq<NestedChannel>, fetchDataPoints: bool): Graph {
    var detailed := AttachDetail(g, s, Summaries(channels));
    if fetchDataPoints then AttachCatalogues(detailed, s.address, channels, |channels|) else detailed
  }

  /** The walk over the first `count` devices; a device without nested channels is left to the REST path. */
  function Walk(g: Graph, snap: Snapshot, fetchDataPoints: bool, count: nat): Graph
    requires count <= |snap.devices|
  {
    if count == 0 then g
    else
      var before := Walk(g, snap, fetchDataPoints, count - 1);
      var s := snap.devices[count - 1];
      match ChannelsOf(snap, s.address)
      case Some(channels) => AttachFromSnapshot(before, s, channels, fetchDataPoints)
      case None => before
  }

  function Bootstrap(g: Graph, snap: Snapshot, fetchDataPoints: bool): Graph {
    Walk(LoadDevices(g, snap.devices), snap, fetchDataPoints, |snap.devices|)
  }

  // ---- what the snapshot asks for ----

  function Addresses(devices: seq<DeviceSummary>): set<Address> {
    set s | s in devices :: s.address
  }

  /** Every nested channel is addressed to the device it is nested under. */
  ghost predicate WellAddressed(snap: Snapshot) {
    forall e <- snap.nested, ch <- e.channels :: DeviceOf(ch.summary.address) == e.deviceAddress
  }

  /** Room under the cap for the known devices and the snapshot's together. */
  predicate HasRoom(g: Graph, snap: Snapshot) {
    |g.devices.Keys + Addresses(snap.devices)| <= g.maxDevices
  }

  function WantedChannel(channels: seq<NestedChannel>, n: int): Option<ChannelSummary> {
    LastWrite(Numbered(Summaries(channels)), n)
  }

  function WantedDataPoint(channels: seq<NestedChannel>, n: int, p: string): Option<DpSummary> {
    LastWrite(Named(CatalogueOf(channels, n)), p)
  }

  function Attached(s: DeviceSummary): DeviceRecord {
    DeviceRecord(s, Some(s.firmware), Some(s.availability))
  }

  /**
   `h` holds for device `a` exactly what the snapshot lists, and beyond that only the calculated data
   points that `g` held on channels that are still listed.
   */
  ghost predicate SyncedFrom(g: Graph, h: Graph, a: Address, channels: seq<NestedChannel>) {
    && (forall n :: Get(h.channels, (a, n)) == WantedChannel(channels, n))
    && (forall n, p :: DataPointSynced(g, h, a, channels, n, p))
  }

  ghost predicate DataPointSynced(g: Graph, h: Graph, a: Address, channels: seq<NestedChannel>, n: int, p: string) {
    var stays := WantedChannel(channels, n).Some? && (a, n, p) in g.calculated;
    && Get(h.dataPoints, (a, n, p))
       == OrElse(WantedDataPoint(channels, n, p), if stays then Get(g.dataPoints, (a, n, p)) else None)
    && ((a, n, p) in h.calculated <==> stays)
  }

  /** The channels and data points of one address are the same in both graphs. */
  ghost predicate SameBelow(g: Graph, h: Graph, a: Address) {
    && (forall n :: Get(g.channels, (a, n)) == Get(h.channels, (a, n)))
    && (forall n, p :: Get(g.dataPoints, (a, n, p)) == Get(h.dataPoints, (a, n, p)))
    && (forall n, p :: (a, n, p) in g.calculated <==> (a, n, p) in h.calculated)
  }

  // ---- one device ----

  lemma {:induction false} CatalogueNeedsChannel(channels: seq<NestedChannel>, n: int)
    ensures WantedChannel(channels, n).Some? <==> exists i :: 0 <= i < |channels| && channels[i].summary.number == n
    ensures LastWrite(Catalogues(channels), n).Some? <==> WantedChannel(channels, n).Some?
  {
    var a, b := Numbered(Summaries(channels)), Catalogues(channels);
    forall i | 0 <= i < |channels| && channels[i].summary.number == n
      ensures WantedChannel(channels, n).Some? && LastWrite(b, n).Some?
    {
      assert a[i].0 == n && b[i].0 == n;
    }
    if WantedChannel(channels, n).Some? {
      var w := (n, WantedChannel(channels, n).value);
      var i :| 0 <= i < |a| && a[i] == w;
      assert channels[i].summary.number == n;
    }
    if LastWrite(b, n).Some? {
      var w := (n, LastWrite(b, n).value);
      var i :| 0 <= i < |b| && b[i] == w;
      assert channels[i].summary.number == n;
    }
  }

  lemma {:induction false} CataloguesTouchOnlyDataPoints(g: Graph, a: Address, channels: seq<NestedChannel>, count: nat)
    requires count <= |channels|
    ensures var h := AttachCatalogues(g, a, channels, count);
            && h.maxDevices == g.maxDevices && h.devices == g.devices && h.channels == g.channels
            && h.calculated == g.calculated && h.cdps == g.cdps && h.weekProfiles == g.weekProfiles
  {
    if count > 0 {
      CataloguesTouchOnlyDataPoints(g, a, channels, count - 1);
    }
  }

  predicate Lists(channels: seq<NestedChannel>, count: nat, n: int)
    requires count <= |channels|
  {
    exists i :: 0 <= i < count && channels[i].summary.number == n
  }

  lemma {:induction false} ListsStep(channels: seq<NestedChannel>, count: nat, n: int)
    requires count <= |channels|
    ensures Lists(channels, count, n)
            <==> count > 0 && (Lists(channels, count - 1, n) || channels[count - 1].summary.number == n)
  {
  }

  lemma {:induction false} CatalogueAttached(m: Graph, a: Address, channels: seq<NestedChannel>, n: int, k: DpKey)
    ensures Get(AttachDataPoints(m, a, n, CatalogueOf(channels, n)).dataPoints, k)
         == if k.0 == a && k.1 == n
            then OrElse(WantedDataPoint(channels, k.1, k.2), if k in m.calculated then Get(m.dataPoints, k) else None)
            else Get(m.dataPoints, k)
  {
    hide AttachDataPoints, CatalogueOf, LastWrite, Get;
    AttachDataPointsAt(m, a, n, CatalogueOf(channels, n), k);
  }

  lemma {:induction false} CataloguesAttached(g: Graph, a: Address, channels: seq<NestedChannel>, count: nat, k: DpKey)
    requires count <= |channels|
    ensures Get(AttachCatalogues(g, a, channels, count).dataPoints, k)
         == if k.0 == a && Lists(channels, count, k.1)
            then OrElse(WantedDataPoint(channels, k.1, k.2), if k in g.calculated then Get(g.dataPoints, k) else None)
            else Get(g.dataPoints, k)
  {
    hide AttachDataPoints, WantedDataPoint, Lists, Get, CatalogueOf;
    ListsStep(channels, count, k.1);
    if count > 0 {
      var m, n := AttachCatalogues(g, a, channels, count - 1), channels[count - 1].summary.number;
      CataloguesTouchOnlyDataPoints(g, a, channels, count - 1);
      CataloguesAttached(g, a, channels, count - 1, k);
      CatalogueAttached(m, a, channels, n, k);
    }
  }

  lemma {:induction false} SummariesAddressed(channels: seq<NestedChannel>, a: Address)
    requires forall ch <- channels :: DeviceOf(ch.summary.address) == a
    ensures forall s <- Summaries(channels) :: DeviceOf(s.address) == a
  {
    forall s | s in Summaries(channels) ensures DeviceOf(s.address) == a {
      var i :| 0 <= i < |channels| && Summaries(channels)[i] == s;
      assert channels[i] in channels;
    }
  }

  lemma {:induction false} AttachSyncsDataPoint(
    g: Graph, s: DeviceSummary, channels: seq<NestedChannel>, n: int, p: string)
    requires Sound(g) && CanAdmit(g, s.address)
    requires forall ch <- channels :: DeviceOf(ch.summary.address) == s.address
    ensures DataPointSynced(g, AttachFromSnapshot(g, s, channels, true), s.address, channels, n, p)
  {
    var k := (s.address, n, p);
    var detailed := AttachDetail(g, s, Summaries(channels));
    SummariesAddressed(channels, s.address);
    AttachDetailDataPoints(g, s, Summaries(channels), k);
    CataloguesTouchOnlyDataPoints(detailed, s.address, channels, |channels|);
    CataloguesAttached(detailed, s.address, channels, |channels|, k);
    CatalogueNeedsChannel(channels, n);
    assert Lists(channels, |channels|, n) <==> WantedChannel(channels, n).Some?;
  }

  lemma {:induction false} AttachSyncsChannel(g: Graph, s: DeviceSummary, channels: seq<NestedChannel>, k: ChannelKey)
    requires CanAdmit(g, s.address) && forall ch <- channels :: DeviceOf(ch.summary.address) == s.address
    ensures var h := AttachFromSnapshot(g, s, channels, true);
            && Get(h.channels, k) == (if k.0 == s.address then WantedChannel(channels, k.1) else Get(g.channels, k))
            && h.devices == g.devices[s.address := Attached(s)] && h.maxDevices == g.maxDevices
  {
    var detailed := AttachDetail(g, s, Summaries(channels));
    SummariesAddressed(channels, s.address);
    CataloguesTouchOnlyDataPoints(detailed, s.address, channels, |channels|);
    AttachDetailChannels(g, s, Summaries(channels), k);
  }

  lemma {:induction false} AttachKeepsSound(g: Graph, s: DeviceSummary, channels: seq<NestedChannel>)
    requires Sound(g) && CanAdmit(g, s.address) && forall ch <- channels :: DeviceOf(ch.summary.address) == s.address
    ensures Sound(AttachFromSnapshot(g, s, channels, true))
  {
    var detailed := AttachDetail(g, s, Summaries(channels));
    SummariesAddressed(channels, s.address);
    SoundExactlyWhenAnchored(g, Detail(s, Summaries(channels)));
    forall i | 0 <= i < |channels| ensures (s.address, channels[i].summary.number) in detailed.channels {
      AttachDetailChannels(g, s, Summaries(channels), (s.address, channels[i].summary.number));
      CatalogueNeedsChannel(channels, channels[i].summary.number);
    }
    CataloguesSound(detailed, s.address, channels, |channels|);
  }

  /** What attaching one nested device makes of the store. */
  ghost predicate Attaches(g: Graph, h: Graph, s: DeviceSummary, channels: seq<NestedChannel>) {
    && Sound(h) && h.maxDevices == g.maxDevices
    && h.devices == g.devices[s.address := Attached(s)]
    && SyncedFrom(g, h, s.address, channels)
    && forall b :: b != s.address ==> SameBelow(g, h, b)
  }

  /** Attaching one device makes it hold exactly what is listed for it, and leaves every other device alone. */
  lemma {:induction false} AttachHoldsTheListing(g: Graph, s: DeviceSummary, channels: seq<NestedChannel>)
    requires Sound(g) && CanAdmit(g, s.address)
    requires forall ch <- channels :: DeviceOf(ch.summary.address) == s.address
    ensures var h := AttachFromSnapshot(g, s, channels, true);
            && h.devices == g.devices[s.address := DeviceRecord(s, Some(s.firmware), Some(s.availability))]
            && HoldsAll(h, s.address, channels) && HoldsOnly(h, s.address, channels)
            && forall b :: b != s.address ==> SameBelow(g, h, b)
  {
    hide AttachFromSnapshot, Sound, SyncedFrom, HoldsAll, HoldsOnly, SameBelow;
    AttachSyncs(g, s, channels);
    SyncedHoldsTheListing(g, AttachFromSnapshot(g, s, channels, true), s.address, channels);
  }

  /** One pass over the catalogues leaves each listed data point with its last listed summary. */
  lemma {:induction false} CataloguesHoldTheListing(
    g: Graph, a: Address, channels: seq<NestedChannel>, c: nat, d: nat)
    requires ListsAt(channels, c, d)
    ensures var dp := channels[c].dataPoints[d];
            Get(AttachCatalogues(g, a, channels, |channels|).dataPoints, (a, channels[c].summary.number, dp.parameter))
            == Some(dp)
  {
    var n, dp := channels[c].summary.number, channels[c].dataPoints[d];
    DataPointListed(channels, c, d);
    CataloguesAttached(g, a, channels, |channels|, (a, n, dp.parameter));
    assert Lists(channels, |channels|, n);
  }

  lemma {:induction false} AttachSyncs(g: Graph, s: DeviceSummary, channels: seq<NestedChannel>)
    requires Sound(g) && CanAdmit(g, s.address)
    requires forall ch <- channels :: DeviceOf(ch.summary.address) == s.address
    ensures Attaches(g, AttachFromSnapshot(g, s, channels, true), s, channels)
  {
    var h := AttachFromSnapshot(g, s, channels, true);
    AttachKeepsSound(g, s, channels);
    AttachSyncsChannel(g, s, channels, (s.address, 0));
    forall n ensures Get(h.channels, (s.address, n)) == WantedChannel(channels, n) {
      AttachSyncsChannel(g, s, channels, (s.address, n));
    }
    forall n, p ensures DataPointSynced(g, h, s.address, channels, n, p) {
      AttachSyncsDataPoint(g, s, channels, n, p);
    }
    forall b | b != s.address ensures SameBelow(g, h, b) {
      AttachIsLocal(g, s, channels, b);
    }
  }

  lemma {:induction false} CataloguesSound(g: Graph, a: Address, channels: seq<NestedChannel>, count: nat)
    requires Sound(g) && count <= |channels|
    requires forall i :: 0 <= i < count ==> (a, channels[i].summary.number) in g.channels
    ensures Sound(AttachCatalogues(g, a, channels, count))
  {
    hide Sound, AttachDataPoints, CatalogueOf;
    if count > 0 {
      CataloguesSound(g, a, channels, count - 1);
      CataloguesTouchOnlyDataPoints(g, a, channels, count - 1);
      var n := channels[count - 1].summary.number;
      SoundExactlyWhenAnchored(AttachCatalogues(g, a, channels, count - 1), DataPoints(a, n, CatalogueOf(channels, n)));
    }
  }

  lemma {:induction false} AttachIsLocal(g: Graph, s: DeviceSummary, channels: seq<NestedChannel>, b: Address)
    requires Sound(g) && CanAdmit(g, s.address) && b != s.address
    requires forall ch <- channels :: DeviceOf(ch.summary.address) == s.address
    ensures SameBelow(g, AttachFromSnapshot(g, s, channels, true), b)
  {
    var h := AttachFromSnapshot(g, s, channels, true);
    forall n ensures Get(g.channels, (b, n)) == Get(h.channels, (b, n)) {
      AttachSyncsChannel(g, s, channels, (b, n));
    }
    forall n, p ensures Get(g.dataPoints, (b, n, p)) == Get(h.dataPoints, (b, n, p))
                        && ((b, n, p) in g.calculated <==> (b, n, p) in h.calculated) {
      AttachKeepsOtherDataPoint(g, s, channels, (b, n, p));
    }
  }

  lemma {:induction false} AttachKeepsOtherDataPoint(g: Graph, s: DeviceSummary, channels: seq<NestedChannel>, k: DpKey)
    requires Sound(g) && CanAdmit(g, s.address) && k.0 != s.address
    requires forall ch <- channels :: DeviceOf(ch.summary.address) == s.address
    ensures var h := AttachFromSnapshot(g, s, channels, true);
            Get(g.dataPoints, k) == Get(h.dataPoints, k) && (k in g.calculated <==> k in h.calculated)
  {
    var detailed := AttachDetail(g, s, Summaries(channels));
    SummariesAddressed(channels, s.address);
    AttachDetailDataPoints(g, s, Summaries(channels), k);
    CataloguesTouchOnlyDataPoints(detailed, s.address, channels, |channels|);
    CataloguesAttached(detailed, s.address, channels, |channels|, k);
  }

  lemma {:induction false} SyncTwice(g: Graph, m: Graph, h: Graph, a: Address, channels: seq<NestedChannel>)
    requires SyncedFrom(g, m, a, channels) && SyncedFrom(m, h, a, channels)
    ensures SyncedFrom(g, h, a, channels)
  {
    forall n, p ensures DataPointSynced(g, h, a, channels, n, p) {
      assert DataPointSynced(g, m, a, channels, n, p) && DataPointSynced(m, h, a, channels, n, p);
    }
  }

  lemma {:induction false} SameTwice(g: Graph, m: Graph, h: Graph, a: Address)
    requires SameBelow(g, m, a) && SameBelow(m, h, a)
    ensures SameBelow(g, h, a)
  {
    forall n ensures Get(g.channels, (a, n)) == Get(h.channels, (a, n)) {
      assert Get(g.channels, (a, n)) == Get(m.channels, (a, n));
    }
    forall n, p ensures Get(g.dataPoints, (a, n, p)) == Get(h.dataPoints, (a, n, p)) {
      assert Get(g.dataPoints, (a, n, p)) == Get(m.dataPoints, (a, n, p));
    }
    forall n, p ensures (a, n, p) in g.calculated <==> (a, n, p) in h.calculated {
      assert (a, n, p) in g.calculated <==> (a, n, p) in m.calculated;
    }
  }

  lemma {:induction false} SameThenSync(g: Graph, m: Graph, h: Graph, a: Address, channels: seq<NestedChannel>)
    requires SameBelow(g, m, a) && SyncedFrom(m, h, a, channels)
    ensures SyncedFrom(g, h, a, channels)
  {
    forall n, p ensures DataPointSynced(g, h, a, channels, n, p) {
      assert DataPointSynced(m, h, a, channels, n, p);
    }
  }

  lemma {:induction false} SyncThenSame(g: Graph, m: Graph, h: Graph, a: Address, channels: seq<NestedChannel>)
    requires SyncedFrom(g, m, a, channels) && SameBelow(m, h, a)
    ensures SyncedFrom(g, h, a, channels)
  {
    forall n ensures Get(h.channels, (a, n)) == WantedChannel(channels, n) {
    }
    forall n, p ensures DataPointSynced(g, h, a, channels, n, p) {
      assert DataPointSynced(g, m, a, channels, n, p);
    }
  }

  // ---- the same, said of the entries of the snapshot ----

  /** The last channel of its number in a list. */
  ghost predicate LastChannel(channels: seq<NestedChannel>, c: nat) {
    && c < |channels|
    && forall j :: c < j < |channels| ==> channels[j].summary.number != channels[c].summary.number
  }

  /** Data point `d` of channel `c` is listed, and no later entry overrides it. */
  ghost predicate ListsAt(channels: seq<NestedChannel>, c: nat, d: nat) {
    LastChannel(channels, c) && LastDataPoint(channels[c].dataPoints, d)
  }

  /** Device `a` has every channel of the list with its summary, and every data point of it with its own, ... */
  ghost predicate HoldsAll(h: Graph, a: Address, channels: seq<NestedChannel>) {
    && (forall c: nat :: LastChannel(channels, c) ==>
          Get(h.channels, (a, channels[c].summary.number)) == Some(channels[c].summary))
    && (forall c: nat, d: nat :: ListsAt(channels, c, d) ==>
          var dp := channels[c].dataPoints[d];
          Get(h.dataPoints, (a, channels[c].summary.number, dp.parameter)) == Some(dp))
  }

  /** ... and nothing else, calculated data points apart. */
  ghost predicate HoldsOnly(h: Graph, a: Address, channels: seq<NestedChannel>) {
    && (forall n :: (a, n) in h.channels ==>
          exists c: nat :: LastChannel(channels, c) && h.channels[(a, n)] == channels[c].summary
                           && channels[c].summary.number == n)
    && (forall n, p :: (a, n, p) in h.dataPoints && (a, n, p) !in h.calculated ==>
          exists c: nat, d: nat :: ListsAt(channels, c, d) && h.dataPoints[(a, n, p)] == channels[c].dataPoints[d]
                                   && channels[c].summary.number == n && channels[c].dataPoints[d].parameter == p)
  }

  lemma {:induction false} ChannelListed(channels: seq<NestedChannel>, c: nat)
    requires LastChannel(channels, c)
    ensures WantedChannel(channels, channels[c].summary.number) == Some(channels[c].summary)
    ensures CatalogueOf(channels, channels[c].summary.number) == channels[c].dataPoints
  {
    LastWriteIs(Numbered(Summaries(channels)), c);
    LastWriteIs(Catalogues(channels), c);
  }

  lemma {:induction false} DataPointListed(channels: seq<NestedChannel>, c: nat, d: nat)
    requires ListsAt(channels, c, d)
    ensures var dp := channels[c].dataPoints[d];
            WantedDataPoint(channels, channels[c].summary.number, dp.parameter) == Some(dp)
  {
    ChannelListed(channels, c);
    LastWriteIs(Named(channels[c].dataPoints), d);
  }

  lemma {:induction false} WantedChannelAt(channels: seq<NestedChannel>, n: int) returns (c: nat)
    requires WantedChannel(channels, n).Some?
    ensures LastChannel(channels, c) && channels[c].summary.number == n
    ensures WantedChannel(channels, n) == Some(channels[c].summary)
  {
    var writes := Numbered(Summaries(channels));
    c := LastWriteAt(writes, n);
    assert forall j :: 0 <= j < |channels| ==> writes[j] == (channels[j].summary.number, channels[j].summary);
  }

  lemma {:induction false} WantedDataPointAt(channels: seq<NestedChannel>, n: int, p: string) returns (c: nat, d: nat)
    requires WantedDataPoint(channels, n, p).Some?
    ensures ListsAt(channels, c, d) && channels[c].summary.number == n && channels[c].dataPoints[d].parameter == p
    ensures WantedDataPoint(channels, n, p) == Some(channels[c].dataPoints[d])
  {
    CatalogueNeedsChannel(channels, n);
    c := WantedChannelAt(channels, n);
    ChannelListed(channels, c);
    var dps := channels[c].dataPoints;
    d := LastWriteAt(Named(dps), p);
    assert forall j :: 0 <= j < |dps| ==> Named(dps)[j] == (dps[j].parameter, dps[j]);
  }

  /** A synced device holds every listed channel and data point and nothing else, calculated ones apart. */
  lemma {:induction false} SyncedHoldsTheListing(g: Graph, h: Graph, a: Address, channels: seq<NestedChannel>)
    requires SyncedFrom(g, h, a, channels)
    ensures HoldsAll(h, a, channels) && HoldsOnly(h, a, channels)
  {
    hide WantedChannel, WantedDataPoint;
    forall c: nat | LastChannel(channels, c)
      ensures Get(h.channels, (a, channels[c].summary.number)) == Some(channels[c].summary)
    {
      ChannelListed(channels, c);
    }
    forall c: nat, d: nat | ListsAt(channels, c, d)
      ensures var dp := channels[c].dataPoints[d];
              Get(h.dataPoints, (a, channels[c].summary.number, dp.parameter)) == Some(dp)
    {
      DataPointListed(channels, c, d);
      assert DataPointSynced(g, h, a, channels, channels[c].summary.number, channels[c].dataPoints[d].parameter);
    }
    SyncedHoldsOnly(g, h, a, channels);
  }

  lemma {:induction false} SyncedHoldsOnly(g: Graph, h: Graph, a: Address, channels: seq<NestedChannel>)
    requires SyncedFrom(g, h, a, channels)
    ensures HoldsOnly(h, a, channels)
  {
    hide WantedChannel, WantedDataPoint;
    forall n | (a, n) in h.channels
      ensures exists c: nat :: LastChannel(channels, c) && h.channels[(a, n)] == channels[c].summary
                               && channels[c].summary.number == n
    {
      assert Get(h.channels, (a, n)) == WantedChannel(channels, n);
      var c := WantedChannelAt(channels, n);
    }
    forall n, p | (a, n, p) in h.dataPoints && (a, n, p) !in h.calculated
      ensures exists c: nat, d: nat :: ListsAt(channels, c, d) && h.dataPoints[(a, n, p)] == channels[c].dataPoints[d]
                                       && channels[c].summary.number == n && channels[c].dataPoints[d].parameter == p
    {
      assert DataPointSynced(g, h, a, channels, n, p);
      var c, d := WantedDataPointAt(channels, n, p);
    }
  }

  // ---- the whole walk ----

  /** The record the last of a list of summaries for `a` leaves. */
  function LastAttached(devices: seq<DeviceSummary>, a: Address): Option<DeviceRecord> {
    if devices == [] then None
    else if devices[|devices| - 1].address == a then Some(Attached(devices[|devices| - 1]))
    else LastAttached(devices[..|devices| - 1], a)
  }

  lemma {:induction false} RoomAdmits(g: Graph, a: Address, room: set<Address>)
    requires g.devices.Keys <= room && |room| <= g.maxDevices && a in room
    ensures CanAdmit(g, a)
  {
    if a !in g.devices {
      SubsetSize(g.devices.Keys + {a}, room);
      assert |g.devices.Keys + {a}| == |g.devices.Keys| + 1;
    }
  }

  /** The graphs differ in their devices only, and those of `changed` only. */
  ghost predicate OnlyDevices(g: Graph, h: Graph, changed: set<Address>) {
    && h.maxDevices == g.maxDevices && h.channels == g.channels
    && h.dataPoints == g.dataPoints && h.calculated == g.calculated
    && h.devices.Keys == g.devices.Keys + changed
    && (forall a <- g.devices :: a !in changed ==> h.devices[a] == g.devices[a])
  }

  lemma {:induction false} LoadedDevices(g: Graph, summaries: seq<DeviceSummary>, room: set<Address>)
    requires g.devices.Keys <= room && |room| <= g.maxDevices && Addresses(summaries) <= room
    ensures OnlyDevices(g, LoadDevices(g, summaries), Addresses(summaries))
  {
    if summaries != [] {
      var front, last := summaries[..|summaries| - 1], summaries[|summaries| - 1];
      assert summaries == front + [last];
      assert Addresses(summaries) == Addresses(front) + {last.address};
      LoadedDevices(g, front, room);
      LoadedOne(g, LoadDevices(g, front), last, Addresses(front), room);
    } else {
      assert Addresses(summaries) == {};
    }
  }

  lemma {:induction false} LoadedOne(g: Graph, m: Graph, s: DeviceSummary, loaded: set<Address>, room: set<Address>)
    requires OnlyDevices(g, m, loaded) && g.devices.Keys + loaded <= room && |room| <= g.maxDevices && s.address in room
    ensures OnlyDevices(g, UpsertDevice(m, s), loaded + {s.address})
  {
    RoomAdmits(m, s.address, room);
    hide OnlyDevices, CanAdmit;
    var record := UpsertDevice(m, s).devices[s.address];
    assert UpsertDevice(m, s) == m.(devices := m.devices[s.address := record]);
    OneMore(g, m, loaded, s.address, record);
  }

  lemma {:induction false} OneMore(g: Graph, m: Graph, changed: set<Address>, a: Address, record: DeviceRecord)
    requires OnlyDevices(g, m, changed)
    ensures OnlyDevices(g, m.(devices := m.devices[a := record]), changed + {a})
  {
    var devices := m.devices[a := record];
    assert devices.Keys == m.devices.Keys + {a};
    assert g.devices.Keys + (changed + {a}) == m.devices.Keys + {a};
    assert forall b <- g.devices :: b !in changed + {a} ==> b !in changed && b != a;
  }

  lemma {:induction false} NestedAddressed(snap: Snapshot, a: Address)
    requires WellAddressed(snap) && ChannelsOf(snap, a).Some?
    ensures forall ch <- ChannelsOf(snap, a).value :: DeviceOf(ch.summary.address) == a
  {
    var w := (a, ChannelsOf(snap, a).value);
    var i :| 0 <= i < |snap.nested| && Entries(snap.nested)[i] == w;
    assert snap.nested[i] in snap.nested;
  }

  /** The walk after the given devices, seen from one address: synced once visited, untouched before. */
  ghost predicate WalkedFor(g: Graph, h: Graph, snap: Snapshot, visited: seq<DeviceSummary>, a: Address) {
    if ChannelsOf(snap, a).Some? && LastAttached(visited, a).Some? then
      SyncedFrom(g, h, a, ChannelsOf(snap, a).value) && Get(h.devices, a) == LastAttached(visited, a)
    else SameBelow(g, h, a) && Get(h.devices, a) == Get(g.devices, a)
  }

  lemma {:induction false} WalkStep(
    g: Graph, m: Graph, h: Graph, snap: Snapshot, visited: seq<DeviceSummary>, s: DeviceSummary, a: Address)
    requires WalkedFor(g, m, snap, visited, a)
    requires if ChannelsOf(snap, s.address).Some? then Attaches(m, h, s, ChannelsOf(snap, s.address).value) else h == m
    ensures WalkedFor(g, h, snap, visited + [s], a)
  {
    assert (visited + [s])[..|visited|] == visited;
    if ChannelsOf(snap, s.address).Some? {
      if s.address == a && LastAttached(visited, a).Some? {
        SyncTwice(g, m, h, a, ChannelsOf(snap, a).value);
      } else if s.address == a {
        SameThenSync(g, m, h, a, ChannelsOf(snap, a).value);
      } else if ChannelsOf(snap, a).Some? && LastAttached(visited, a).Some? {
        SyncThenSame(g, m, h, a, ChannelsOf(snap, a).value);
      } else {
        SameTwice(g, m, h, a);
      }
    }
  }

  lemma {:induction false} WalkTurn(m: Graph, snap: Snapshot, s: DeviceSummary)
    requires Sound(m) && WellAddressed(snap) && s.address in m.devices && ChannelsOf(snap, s.address).Some?
    ensures var channels := ChannelsOf(snap, s.address).value;
            Attaches(m, AttachFromSnapshot(m, s, channels, true), s, channels)
  {
    NestedAddressed(snap, s.address);
    AttachSyncs(m, s, ChannelsOf(snap, s.address).value);
  }

  lemma {:induction false} AddressOf(devices: seq<DeviceSummary>, i: nat)
    requires i < |devices|
    ensures devices[i].address in Addresses(devices)
  {
    assert devices[i] in devices;
  }

  lemma {:induction false} WalkKeepsSound(g: Graph, snap: Snapshot, count: nat)
    requires Sound(g) && WellAddressed(snap) && count <= |snap.devices|
    requires Addresses(snap.devices) <= g.devices.Keys
    ensures Sound(Walk(g, snap, true, count)) && Walk(g, snap, true, count).devices.Keys == g.devices.Keys
    ensures Walk(g, snap, true, count).maxDevices == g.maxDevices
  {
    hide AttachFromSnapshot, Sound;
    if count > 0 {
      WalkKeepsSound(g, snap, count - 1);
      var s, m := snap.devices[count - 1], Walk(g, snap, true, count - 1);
      AddressOf(snap.devices, count - 1);
      if ChannelsOf(snap, s.address).Some? {
        WalkTurn(m, snap, s);
      }
    }
  }

  lemma {:induction false} WalkReaches(g: Graph, snap: Snapshot, count: nat, a: Address)
    requires Sound(g) && WellAddressed(snap) && count <= |snap.devices|
    requires Addresses(snap.devices) <= g.devices.Keys
    ensures WalkedFor(g, Walk(g, snap, true, count), snap, snap.devices[..count], a)
  {
    hide AttachFromSnapshot, Attaches, Sound;
    if count > 0 {
      WalkReaches(g, snap, count - 1, a);
      WalkKeepsSound(g, snap, count - 1);
      var s, m := snap.devices[count - 1], Walk(g, snap, true, count - 1);
      AddressOf(snap.devices, count - 1);
      if ChannelsOf(snap, s.address).Some? {
        WalkTurn(m, snap, s);
      }
      assert snap.devices[..count] == snap.devices[..count - 1] + [s];
      WalkStep(g, m, Walk(g, snap, true, count), snap, snap.devices[..count - 1], s, a);
    }
  }

  lemma {:induction false} LastAttachedNames(devices: seq<DeviceSummary>, a: Address)
    ensures LastAttached(devices, a).Some? <==> a in Addresses(devices)
  {
    if devices != [] {
      var front, last := devices[..|devices| - 1], devices[|devices| - 1];
      assert devices == front + [last];
      assert Addresses(devices) == Addresses(front) + {last.address};
      LastAttachedNames(front, a);
    }
  }

  lemma {:induction false} LoadTouchesOnlyDevices(g: Graph, summaries: seq<DeviceSummary>)
    ensures LoadDevices(g, summaries) == g.(devices := LoadDevices(g, summaries).devices)
  {
    if summaries != [] {
      LoadTouchesOnlyDevices(g, summaries[..|summaries| - 1]);
    }
  }

  lemma {:induction false} DetailTouchesNoCdps(g: Graph, s: DeviceSummary, chs: seq<ChannelSummary>)
    ensures var h := AttachDetail(g, s, chs); h.cdps == g.cdps && h.weekProfiles == g.weekProfiles
  {
    hide StaleChannels, ChannelWrites, PutAll, CanAdmit;
  }

  lemma {:induction false} AttachTouchesNoCdps(
    g: Graph, s: DeviceSummary, channels: seq<NestedChannel>, fetchDataPoints: bool)
    ensures var h := AttachFromSnapshot(g, s, channels, fetchDataPoints);
            h.cdps == g.cdps && h.weekProfiles == g.weekProfiles
  {
    hide AttachDetail, AttachCatalogues, Summaries;
    DetailTouchesNoCdps(g, s, Summaries(channels));
    CataloguesTouchOnlyDataPoints(AttachDetail(g, s, Summaries(channels)), s.address, channels, |channels|);
  }

  lemma {:induction false} WalkTouchesNoCdps(g: Graph, snap: Snapshot, fetchDataPoints: bool, count: nat)
    requires count <= |snap.devices|
    ensures var h := Walk(g, snap, fetchDataPoints, count); h.cdps == g.cdps && h.weekProfiles == g.weekProfiles
  {
    hide AttachFromSnapshot, ChannelsOf;
    if count > 0 {
      WalkTouchesNoCdps(g, snap, fetchDataPoints, count - 1);
      var m, s := Walk(g, snap, fetchDataPoints, count - 1), snap.devices[count - 1];
      if ChannelsOf(snap, s.address).Some? {
        AttachTouchesNoCdps(m, s, ChannelsOf(snap, s.address).value, fetchDataPoints);
      }
    }
  }

  /** Custom data points and week profiles are none of a bootstrap's business, whatever it reads. */
  lemma {:induction false} BootstrapTouchesNoCdps(g: Graph, snap: Snapshot, fetchDataPoints: bool)
    ensures var h := Bootstrap(g, snap, fetchDataPoints); h.cdps == g.cdps && h.weekProfiles == g.weekProfiles
  {
    LoadTouchesOnlyDevices(g, snap.devices);
    WalkTouchesNoCdps(LoadDevices(g, snap.devices), snap, fetchDataPoints, |snap.devices|);
  }

  /**
   From any sound store with room, a bootstrap leaves for every nested snapshot device exactly what the
   snapshot lists plus the calculated data points of its surviving channels; a snapshot device without
   nested channels takes its summary only; and nothing else changes.
   */
  lemma {:induction false} BootstrapSyncsEveryDevice(g: Graph, snap: Snapshot, a: Address)
    requires Sound(g) && WellAddressed(snap) && HasRoom(g, snap)
    ensures var h := Bootstrap(g, snap, true);
            && Sound(h)
            && (a in Addresses(snap.devices) && ChannelsOf(snap, a).Some? ==>
                  SyncedFrom(g, h, a, ChannelsOf(snap, a).value) && Get(h.devices, a) == LastAttached(snap.devices, a))
            && (a in Addresses(snap.devices) && ChannelsOf(snap, a).None? ==>
                  SameBelow(g, h, a) && Get(h.devices, a) == Get(LoadDevices(g, snap.devices).devices, a))
            && (a !in Addresses(snap.devices) ==> SameBelow(g, h, a) && Get(h.devices, a) == Get(g.devices, a))
            && h.devices.Keys == g.devices.Keys + Addresses(snap.devices) && h.maxDevices == g.maxDevices
            && h.cdps == g.cdps && h.weekProfiles == g.weekProfiles
  {
    BootstrapTouchesNoCdps(g, snap, true);
    hide SyncedFrom, Sound, Walk, LoadDevices, ChannelsOf;
    var m := LoadDevices(g, snap.devices);
    LoadedDevices(g, snap.devices, g.devices.Keys + Addresses(snap.devices));
    LoadSound(g, snap.devices);
    WalkKeepsSound(m, snap, |snap.devices|);
    WalkReaches(m, snap, |snap.devices|, a);
    LastAttachedNames(snap.devices, a);
    assert snap.devices[..|snap.devices|] == snap.devices;
    assert WalkedFor(m, Bootstrap(g, snap, true), snap, snap.devices, a);
    if a in Addresses(snap.devices) && ChannelsOf(snap, a).Some? {
      SameThenSync(g, m, Bootstrap(g, snap, true), a, ChannelsOf(snap, a).value);
    }
  }

  /** Summary `d` and nested entry `i` are the last of one device. */
  ghost predicate Nests(snap: Snapshot, d: nat, i: nat) {
    && d < |snap.devices| && i < |snap.nested| && snap.devices[d].address == snap.nested[i].deviceAddress
    && (forall j :: d < j < |snap.devices| ==> snap.devices[j].address != snap.devices[d].address)
    && (forall j :: i < j < |snap.nested| ==> snap.nested[j].deviceAddress != snap.nested[i].deviceAddress)
  }

  /** Every device that is listed and nested is held as its last summary and its last entry have it. */
  ghost predicate HoldsSnapshot(h: Graph, snap: Snapshot) {
    forall d: nat, i: nat :: Nests(snap, d, i) ==>
      var (s, e) := (snap.devices[d], snap.nested[i]);
      && Get(h.devices, e.deviceAddress) == Some(DeviceRecord(s, Some(s.firmware), Some(s.availability)))
      && HoldsAll(h, e.deviceAddress, e.channels) && HoldsOnly(h, e.deviceAddress, e.channels)
  }

  lemma {:induction false} LastAttachedIs(devices: seq<DeviceSummary>, d: nat)
    requires d < |devices| && forall j :: d < j < |devices| ==> devices[j].address != devices[d].address
    ensures LastAttached(devices, devices[d].address)
         == Some(DeviceRecord(devices[d], Some(devices[d].firmware), Some(devices[d].availability)))
  {
    if d < |devices| - 1 {
      LastAttachedIs(devices[..|devices| - 1], d);
    }
  }

  /**
   So after a bootstrap every nested device has its summary with both detail records, each channel and data
   point its entry lists, the last one of a number or parameter counting, and nothing else but calculated
   data points.
   */
  lemma {:induction false} BootstrapHoldsTheSnapshot(g: Graph, snap: Snapshot)
    requires Sound(g) && WellAddressed(snap) && HasRoom(g, snap)
    ensures HoldsSnapshot(Bootstrap(g, snap, true), snap)
  {
    hide Sound, HoldsAll, HoldsOnly, Bootstrap, WellAddressed, HasRoom;
    var h := Bootstrap(g, snap, true);
    forall d: nat, i: nat | Nests(snap, d, i)
      ensures var (s, e) := (snap.devices[d], snap.nested[i]);
              && Get(h.devices, e.deviceAddress) == Some(DeviceRecord(s, Some(s.firmware), Some(s.availability)))
              && HoldsAll(h, e.deviceAddress, e.channels) && HoldsOnly(h, e.deviceAddress, e.channels)
    {
      BootstrapHoldsTheEntry(g, snap, d, i);
    }
  }

  lemma {:induction false} BootstrapHoldsTheEntry(g: Graph, snap: Snapshot, d: nat, i: nat)
    requires Sound(g) && WellAddressed(snap) && HasRoom(g, snap) && Nests(snap, d, i)
    ensures var (h, s, e) := (Bootstrap(g, snap, true), snap.devices[d], snap.nested[i]);
            && Get(h.devices, e.deviceAddress) == Some(DeviceRecord(s, Some(s.firmware), Some(s.availability)))
            && HoldsAll(h, e.deviceAddress, e.channels) && HoldsOnly(h, e.deviceAddress, e.channels)
  {
    hide Sound, SyncedFrom, HoldsAll, HoldsOnly, Bootstrap, WellAddressed, HasRoom;
    var e := snap.nested[i];
    LastWriteIs(Entries(snap.nested), i);
    LastAttachedIs(snap.devices, d);
    BootstrapSyncsEveryDevice(g, snap, e.deviceAddress);
    SyncedHoldsTheListing(g, Bootstrap(g, snap, true), e.deviceAddress, e.channels);
  }

  /**
   Convergence: a re-bootstrap gives every nested snapshot device the same record, channels and listed
   data points as bootstrapping an empty store; what it keeps beyond that was calculated before.
   */
  lemma {:induction false} RebootstrapConverges(g: Graph, snap: Snapshot, a: Address, n: int, p: string)
    requires Sound(g) && WellAddressed(snap) && HasRoom(g, snap)
    requires a in Addresses(snap.devices) && ChannelsOf(snap, a).Some?
    ensures var (h, first) := (Bootstrap(g, snap, true), Bootstrap(EmptyGraph(g.maxDevices), snap, true));
            && Get(h.devices, a) == Get(first.devices, a)
            && Get(h.channels, (a, n)) == Get(first.channels, (a, n))
            && ((a, n, p) in first.dataPoints ==> Get(h.dataPoints, (a, n, p)) == Get(first.dataPoints, (a, n, p)))
            && ((a, n, p) !in first.dataPoints ==>
                  Get(h.dataPoints, (a, n, p))
                  == if (a, n) in first.channels && (a, n, p) in g.calculated then Get(g.dataPoints, (a, n, p))
                     else None)
            && ((a, n, p) in h.calculated <==> (a, n, p) in g.calculated && (a, n) in first.channels)
  {
    var empty := EmptyGraph(g.maxDevices);
    SubsetSize(empty.devices.Keys + Addresses(snap.devices), g.devices.Keys + Addresses(snap.devices));
    BootstrapSyncsEveryDevice(g, snap, a);
    BootstrapSyncsEveryDevice(empty, snap, a);
    var channels := ChannelsOf(snap, a).value;
    assert DataPointSynced(g, Bootstrap(g, snap, true), a, channels, n, p);
    assert DataPointSynced(empty, Bootstrap(empty, snap, true), a, channels, n, p);
  }

  // ---- what is dropped stays dropped ----

  lemma {:induction false} CataloguesStep(g: Graph, a: Address, channels: seq<NestedChannel>, count: nat)
    requires count < |channels|
    ensures var n := channels[count].summary.number;
            AttachCatalogues(g, a, channels, count + 1)
            == AttachDataPoints(AttachCatalogues(g, a, channels, count), a, n, CatalogueOf(channels, n))
  {
  }

  /** Within one device's catalogues, a data point that went does not come back. */
  lemma {:induction false} CataloguesNeverReadd(
    g: Graph, a: Address, channels: seq<NestedChannel>, count: nat, k: DpKey)
    requires count < |channels| && k in g.dataPoints && k !in AttachCatalogues(g, a, channels, count).dataPoints
    ensures k !in AttachCatalogues(g, a, channels, count + 1).dataPoints
  {
    hide AttachCatalogues, WantedDataPoint, Lists;
    CataloguesAttached(g, a, channels, count, k);
    CataloguesAttached(g, a, channels, count + 1, k);
    ListsStep(channels, count + 1, k.1);
  }

  /** A data point that went with its channel is not attached again by the device's own catalogues. */
  lemma {:induction false} CataloguesLeaveVanishedChannels(
    g: Graph, s: DeviceSummary, channels: seq<NestedChannel>, k: DpKey)
    requires Sound(g) && CanAdmit(g, s.address) && k in g.dataPoints
    requires forall ch <- channels :: DeviceOf(ch.summary.address) == s.address
    requires k !in AttachDetail(g, s, Summaries(channels)).dataPoints
    ensures k !in AttachFromSnapshot(g, s, channels, true).dataPoints
  {
    hide AttachDetail, AttachCatalogues, WantedDataPoint, Sound, CanAdmit;
    SummariesAddressed(channels, s.address);
    AttachDetailDataPoints(g, s, Summaries(channels), k);
    CataloguesAttached(AttachDetail(g, s, Summaries(channels)), s.address, channels, |channels|, k);
    CatalogueNeedsChannel(channels, k.1);
  }

  lemma {:induction false} VisitedStays(devices: seq<DeviceSummary>, count: nat, a: Address)
    requires count < |devices|
    ensures LastAttached(devices[..count], a).Some? ==> LastAttached(devices[..count + 1], a).Some?
  {
    assert devices[..count + 1][..count] == devices[..count];
  }

  /** Over the walk, a channel or data point that went does not come back. */
  lemma {:induction false} WalkNeverReadds(g: Graph, snap: Snapshot, count: nat, a: Address, n: int, p: string)
    requires Sound(g) && WellAddressed(snap) && count < |snap.devices|
    requires Addresses(snap.devices) <= g.devices.Keys
    ensures var (m, h) := (Walk(g, snap, true, count), Walk(g, snap, true, count + 1));
            && ((a, n) in g.channels && (a, n) !in m.channels ==> (a, n) !in h.channels)
            && ((a, n, p) in g.dataPoints && (a, n, p) !in m.dataPoints ==> (a, n, p) !in h.dataPoints)
  {
    hide Walk, Sound, WellAddressed, Addresses, WantedChannel, WantedDataPoint;
    WalkReaches(g, snap, count, a);
    WalkReaches(g, snap, count + 1, a);
    VisitedStays(snap.devices, count, a);
    var (m, h) := (Walk(g, snap, true, count), Walk(g, snap, true, count + 1));
    if ChannelsOf(snap, a).Some? && LastAttached(snap.devices[..count], a).Some? {
      var channels := ChannelsOf(snap, a).value;
      assert DataPointSynced(g, m, a, channels, n, p) && DataPointSynced(g, h, a, channels, n, p);
    }
  }

  // ---- a bootstrap that does not fetch data points ----

  lemma {:induction false} DetailIgnoresDataPoints(g: Graph, h: Graph, s: DeviceSummary, chs: seq<ChannelSummary>)
    requires g.devices == h.devices && g.channels == h.channels && g.maxDevices == h.maxDevices
    ensures var (x, y) := (AttachDetail(g, s, chs), AttachDetail(h, s, chs));
            x.devices == y.devices && x.channels == y.channels && x.maxDevices == y.maxDevices
  {
  }

  lemma {:induction false} DetailReadsNoDataPoints(g: Graph, s: DeviceSummary, chs: seq<ChannelSummary>)
    ensures var h := AttachDetail(g, s, chs);
            && h.calculated <= g.calculated
            && forall k <- h.dataPoints :: k in g.dataPoints && h.dataPoints[k] == g.dataPoints[k]
  {
    hide PutAll, ChannelWrites, StaleChannels, CanAdmit;
  }

  /** The devices and channels of a walk that fetches, over data points that were there. */
  ghost predicate Unfetched(g: Graph, h: Graph, full: Graph) {
    && h.devices == full.devices && h.channels == full.channels && h.maxDevices == full.maxDevices
    && h.calculated <= g.calculated
    && forall k <- h.dataPoints :: k in g.dataPoints && h.dataPoints[k] == g.dataPoints[k]
  }

  lemma {:induction false} AttachWithoutFetch(
    g: Graph, m: Graph, n: Graph, s: DeviceSummary, channels: seq<NestedChannel>)
    requires Unfetched(g, m, n)
    ensures Unfetched(g, AttachFromSnapshot(m, s, channels, false), AttachFromSnapshot(n, s, channels, true))
  {
    DetailIgnoresDataPoints(m, n, s, Summaries(channels));
    DetailReadsNoDataPoints(m, s, Summaries(channels));
    CataloguesTouchOnlyDataPoints(
      AttachDetail(n, s, Summaries(channels)), s.address, channels, |channels|);
    hide AttachDetail, AttachCatalogues, Summaries;
  }

  lemma {:induction false} WalkWithoutFetch(g: Graph, snap: Snapshot, count: nat)
    requires count <= |snap.devices|
    ensures Unfetched(g, Walk(g, snap, false, count), Walk(g, snap, true, count))
  {
    hide ChannelsOf, AttachFromSnapshot;
    if count > 0 {
      WalkWithoutFetch(g, snap, count - 1);
      var s := snap.devices[count - 1];
      if ChannelsOf(snap, s.address).Some? {
        AttachWithoutFetch(g, Walk(g, snap, false, count - 1), Walk(g, snap, true, count - 1), s,
                           ChannelsOf(snap, s.address).value);
        hide Unfetched;
      }
    }
  }

  predicate Vanished(snap: Snapshot, a: Address, n: int) {
    ChannelsOf(snap, a).Some? && WantedChannel(ChannelsOf(snap, a).value, n).None?
  }

  /** The last nested entry of a device does not list this channel. */
  ghost predicate Unlisted(snap: Snapshot, a: Address, n: int) {
    exists i :: 0 <= i < |snap.nested| && LastEntryOmits(snap, i, a, n)
  }

  ghost predicate LastEntryOmits(snap: Snapshot, i: nat, a: Address, n: int)
    requires i < |snap.nested|
  {
    && snap.nested[i].deviceAddress == a
    && (forall j :: i < j < |snap.nested| ==> snap.nested[j].deviceAddress != a)
    && forall ch <- snap.nested[i].channels :: ch.summary.number != n
  }

  lemma {:induction false} VanishedIsUnlisted(snap: Snapshot, a: Address, n: int)
    requires Vanished(snap, a, n)
    ensures Unlisted(snap, a, n)
  {
    var i := LastWriteAt(Entries(snap.nested), a);
    var channels := snap.nested[i].channels;
    forall j | i < j < |snap.nested| ensures snap.nested[j].deviceAddress != a {
      assert Entries(snap.nested)[j].0 != a;
    }
    CatalogueNeedsChannel(channels, n);
    forall ch | ch in channels ensures ch.summary.number != n {
      var c :| 0 <= c < |channels| && channels[c] == ch;
    }
    assert LastEntryOmits(snap, i, a, n);
  }

  lemma {:induction false} GoneWithItsChannel(g: Graph, snap: Snapshot, count: nat, k: DpKey)
    requires WellAddressed(snap) && count <= |snap.devices| && k in g.dataPoints
    ensures var h := Walk(g, snap, false, count);
            k in h.dataPoints || (Vanished(snap, k.0, k.1) && (k.0, k.1) !in h.channels)
  {
    if count > 0 {
      GoneWithItsChannel(g, snap, count - 1, k);
      var (m, s) := (Walk(g, snap, false, count - 1), snap.devices[count - 1]);
      if ChannelsOf(snap, s.address).Some? && CanAdmit(m, s.address) {
        var chs := ChannelsOf(snap, s.address).value;
        NestedAddressed(snap, s.address);
        SummariesAddressed(chs, s.address);
        AttachDetailChannels(m, s, Summaries(chs), (k.0, k.1));
        hide Walk, PutAll, WellAddressed, ChannelsOf;
      }
    }
  }

  /**
   Without fetching, a bootstrap reads the same devices and channels; it reads no data point, and takes one
   away only with a channel that the snapshot no longer lists.
   */
  lemma {:induction false} BootstrapWithoutFetch(g: Graph, snap: Snapshot)
    ensures var (h, full) := (Bootstrap(g, snap, false), Bootstrap(g, snap, true));
            && h.devices == full.devices && h.channels == full.channels && h.calculated <= g.calculated
            && (forall k <- h.dataPoints :: k in g.dataPoints && h.dataPoints[k] == g.dataPoints[k])
            && (WellAddressed(snap) ==>
                  forall k <- g.dataPoints ::
                    k !in h.dataPoints ==> Unlisted(snap, k.0, k.1) && (k.0, k.1) !in h.channels)
  {
    hide Walk, WellAddressed, Vanished, Unlisted;
    var m := LoadDevices(g, snap.devices);
    LoadTouchesOnlyDevices(g, snap.devices);
    WalkWithoutFetch(m, snap, |snap.devices|);
    if WellAddressed(snap) {
      forall k | k in g.dataPoints && k !in Bootstrap(g, snap, false).dataPoints
        ensures Unlisted(snap, k.0, k.1) && (k.0, k.1) !in Bootstrap(g, snap, false).channels
      {
        GoneWithItsChannel(m, snap, |snap.devices|, k);
        VanishedIsUnlisted(snap, k.0, k.1);
      }
    }
  }

  // ---- past the cap ----

  /**
   A device the cap refuses gets no channels, but its catalogues are attached all the same: the walk
   stays sound exactly when they are all empty.
   */
  lemma {:induction false} RefusedDeviceIsSoundExactlyWhenItsCataloguesAreEmpty(
    g: Graph, s: DeviceSummary, channels: seq<NestedChannel>)
    requires Sound(g) && !CanAdmit(g, s.address)
    ensures Sound(AttachFromSnapshot(g, s, channels, true))
            <==> forall i :: 0 <= i < |channels| ==> CatalogueOf(channels, channels[i].summary.number) == []
  {
    forall i | 0 <= i < |channels| && CatalogueOf(channels, channels[i].summary.number) != []
      ensures !Sound(AttachFromSnapshot(g, s, channels, true))
    {
      OrphanedCatalogue(g, s.address, channels, i);
    }
    if forall i :: 0 <= i < |channels| ==> CatalogueOf(channels, channels[i].summary.number) == [] {
      EmptyCataloguesSound(g, s.address, channels, |channels|);
    }
  }

  lemma {:induction false} OrphanedCatalogue(g: Graph, a: Address, channels: seq<NestedChannel>, i: nat)
    requires Sound(g) && a !in g.devices
    requires i < |channels| && CatalogueOf(channels, channels[i].summary.number) != []
    ensures !Sound(AttachCatalogues(g, a, channels, |channels|))
  {
    var n := channels[i].summary.number;
    var dps := CatalogueOf(channels, n);
    var k := (a, n, dps[0].parameter);
    CataloguesTouchOnlyDataPoints(g, a, channels, |channels|);
    CataloguesAttached(g, a, channels, |channels|, k);
    assert Named(dps)[0].0 == dps[0].parameter;
    assert LastWrite(Named(dps), dps[0].parameter).Some?;
    assert Lists(channels, |channels|, n);
    assert k in AttachCatalogues(g, a, channels, |channels|).dataPoints;
  }

  lemma {:induction false} EmptyCataloguesSound(g: Graph, a: Address, channels: seq<NestedChannel>, count: nat)
    requires Sound(g) && count <= |channels|
    requires forall i :: 0 <= i < count ==> CatalogueOf(channels, channels[i].summary.number) == []
    ensures Sound(AttachCatalogues(g, a, channels, count))
  {
    hide Sound, AttachDataPoints, CatalogueOf;
    if count > 0 {
      EmptyCataloguesSound(g, a, channels, count - 1);
      SoundExactlyWhenAnchored(AttachCatalogues(g, a, channels, count - 1),
                               DataPoints(a, channels[count - 1].summary.number, []));
    }
  }
}
