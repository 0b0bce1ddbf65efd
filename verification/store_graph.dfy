/**
 The device graph of the store as a value: devices, channels, data points (generic and calculated in
 one map), custom data points and week profiles, and what each mutator does to it.
 */
module StoreGraph {
  import opened Common

  type Address = string
  type ChannelKey = (Address, int)
  type DpKey = (Address, int, string)
  type CdpKey = (Address, string)
  type CdpState = map<string, string>

  // ---- wire records ----

  datatype Availability = Availability(reachable: bool, lastRefreshed: Option<int>)

  datatype DeviceSummary = DeviceSummary(
    address: Address, name: string, available: bool, firmware: string, availability: Availability)

  /** `address` is the full channel address, "DEVICE:NUMBER". */
  datatype ChannelSummary = ChannelSummary(address: string, number: int, name: string)

  datatype DpSummary = DpSummary(
    parameter: string, value: string, displayValue: Option<string>, observed: bool,
    modifiedAt: Option<int>, lastChangedAt: Option<int>, lastSeenAt: Option<int>)

  datatype CdpSummary = CdpSummary(name: string, channelNo: int, kind: string, state: Option<CdpState>)

  datatype ValueChanged = ValueChanged(key: DpKey, value: string, displayValue: Option<string>, modifiedAt: Option<int>)

  // ---- the graph ----

  /** A device object: its summary and the two detail slots. */
  datatype DeviceRecord = DeviceRecord(
    summary: DeviceSummary, firmware: Option<string>, availability: Option<Availability>)

  /** A custom data point object: its summary, state and apply generation. */
  datatype CdpRecord = CdpRecord(summary: CdpSummary, state: CdpState, generation: nat)

  datatype Graph = Graph(
    maxDevices: nat,
    devices: map<Address, DeviceRecord>,
    channels: map<ChannelKey, ChannelSummary>,
    dataPoints: map<DpKey, DpSummary>,
    calculated: set<DpKey>,
    cdps: map<CdpKey, CdpRecord>,
    weekProfiles: map<Address, set<bool>>)

  function EmptyGraph(maxDevices: nat): Graph {
    Graph(maxDevices, map[], map[], map[], {}, map[], map[])
  }

  /**
   Calculated keys are data points, data points hang off channels, channels off devices, and devices stay
   under the cap.
   */
  ghost predicate Sound(g: Graph) {
    && g.calculated <= g.dataPoints.Keys
    && (forall k <- g.dataPoints :: (k.0, k.1) in g.channels)
    && (forall k <- g.channels :: k.0 in g.devices)
    && |g.devices| <= g.maxDevices
  }

  // ---- mutators ----

  predicate CanAdmit(g: Graph, a: Address) {
    a in g.devices || |g.devices| < g.maxDevices
  }

  /** Updates a known device in place, admits a new one under the cap, refuses it at the cap. */
  function UpsertDevice(g: Graph, s: DeviceSummary): Graph {
    if s.address in g.devices then g.(devices := g.devices[s.address := g.devices[s.address].(summary := s)])
    else if CanAdmit(g, s.address) then g.(devices := g.devices[s.address := DeviceRecord(s, None, None)])
    else g
  }

  function LoadDevices(g: Graph, summaries: seq<DeviceSummary>): Graph {
    if summaries == [] then g
    else UpsertDevice(LoadDevices(g, summaries[..|summaries| - 1]), summaries[|summaries| - 1])
  }

  /** The device part of a channel address: what precedes the first colon. */
  function DeviceOf(channelAddress: string): Address {
    if channelAddress == [] || channelAddress[0] == ':' then []
    else [channelAddress[0]] + DeviceOf(channelAddress[1..])
  }

  function ChannelKeyOf(ch: ChannelSummary): ChannelKey {
    (DeviceOf(ch.address), ch.number)
  }

  function ChannelWrites(chs: seq<ChannelSummary>): seq<(ChannelKey, ChannelSummary)> {
    seq(|chs|, i requires 0 <= i < |chs| => (ChannelKeyOf(chs[i]), chs[i]))
  }

  function Numbered(chs: seq<ChannelSummary>): seq<(int, ChannelSummary)> {
    seq(|chs|, i requires 0 <= i < |chs| => (chs[i].number, chs[i]))
  }

  /** The data points that hang off a set of channels. */
  function Below(dps: map<DpKey, DpSummary>, gone: set<ChannelKey>): set<DpKey> {
    set k | k in dps && (k.0, k.1) in gone
  }

  /** Dropping channels takes their data points along, generic and calculated. */
  function DropChannels(g: Graph, gone: set<ChannelKey>): Graph {
    var dps := Below(g.dataPoints, gone);
    g.(channels := g.channels - gone, dataPoints := g.dataPoints - dps, calculated := g.calculated - dps)
  }

  function StaleChannels(g: Graph, a: Address, chs: seq<ChannelSummary>): set<ChannelKey> {
    set k | k in g.channels && k.0 == a && LastWrite(Numbered(chs), k.1).None?
  }

  /** A full detail record: upsert the device, attach its detail, upsert its channels, drop the vanished ones. */
  function AttachDetail(g: Graph, s: DeviceSummary, chs: seq<ChannelSummary>): Graph {
    if !CanAdmit(g, s.address) then g
    else
      var known := g.(devices := g.devices[s.address := DeviceRecord(s, Some(s.firmware), Some(s.availability))]);
      var grown := known.(channels := PutAll(g.channels, ChannelWrites(chs)));
      DropChannels(grown, StaleChannels(grown, s.address, chs))
  }

  function DpWrites(a: Address, n: int, dps: seq<DpSummary>): seq<(DpKey, DpSummary)> {
    seq(|dps|, i requires 0 <= i < |dps| => ((a, n, dps[i].parameter), dps[i]))
  }

  function Named(dps: seq<DpSummary>): seq<(string, DpSummary)> {
    seq(|dps|, i requires 0 <= i < |dps| => (dps[i].parameter, dps[i]))
  }

  /** The generic data points of a channel that its new catalogue no longer lists. */
  function StaleDataPoints(g: Graph, a: Address, n: int, dps: seq<DpSummary>): set<DpKey> {
    set k | k in g.dataPoints && k.0 == a && k.1 == n && LastWrite(Named(dps), k.2).None? && k !in g.calculated
  }

  function AttachDataPoints(g: Graph, a: Address, n: int, dps: seq<DpSummary>): Graph {
    g.(dataPoints := PutAll(g.dataPoints - StaleDataPoints(g, a, n, dps), DpWrites(a, n, dps)))
  }

  /** Calculated data points are rebuilt and marked; they share the map with the generic ones. */
  function AttachCalculated(g: Graph, a: Address, n: int, calcs: seq<DpSummary>): Graph {
    g.(dataPoints := PutAll(g.dataPoints, DpWrites(a, n, calcs)),
       calculated := g.calculated + (set i | 0 <= i < |calcs| :: (a, n, calcs[i].parameter)))
  }

  function Pushed(was: DpSummary, p: ValueChanged): DpSummary {
    was.(value := p.value, displayValue := p.displayValue, observed := true,
         modifiedAt := p.modifiedAt, lastChangedAt := p.modifiedAt, lastSeenAt := p.modifiedAt)
  }

  /** A push for an unknown data point is ignored. */
  function ApplyValueChanged(g: Graph, p: ValueChanged): Graph {
    if p.key in g.dataPoints then g.(dataPoints := g.dataPoints[p.key := Pushed(g.dataPoints[p.key], p)]) else g
  }

  function Stub(a: Address): DeviceSummary {
    DeviceSummary(a, a, true, "", Availability(true, None))
  }

  function ApplyDeviceCreated(g: Graph, a: Address): Graph {
    if a in g.devices || !CanAdmit(g, a) then g
    else g.(devices := g.devices[a := DeviceRecord(Stub(a), None, None)])
  }

  function ApplyAvailabilityChanged(g: Graph, a: Address, available: bool): Graph {
    if a !in g.devices then g
    else
      var d := g.devices[a];
      g.(devices := g.devices[a := d.(summary := d.summary.(available := available))])
  }

  /** The refresh time only moves forward, and no availability record is invented to hold it. */
  function ApplyRefreshed(g: Graph, a: Address, refreshedAt: int): Graph {
    if a !in g.devices || g.devices[a].availability.None? then g
    else
      var d := g.devices[a];
      var current := d.availability.value.lastRefreshed;
      if current.Some? && current.value >= refreshedAt then g
      else
        var moved := d.availability.value.(lastRefreshed := Some(refreshedAt));
        g.(devices := g.devices[a := d.(availability := Some(moved), summary := d.summary.(availability := moved))])
  }

  function ApplyDeviceRemoved(g: Graph, a: Address): Graph {
    var dropped := DropChannels(g.(devices := g.devices - {a}), set k | k in g.channels && k.0 == a);
    dropped.(cdps := g.cdps - (set k | k in g.cdps && k.0 == a), weekProfiles := g.weekProfiles - {a})
  }

  function StaleCdps(g: Graph, a: Address, summaries: seq<CdpSummary>): set<CdpKey> {
    set k | k in g.cdps && k.0 == a && forall s <- summaries :: s.name != k.1
  }

  function WithState(r: CdpRecord, state: CdpState): CdpRecord {
    r.(state := state, generation := r.generation + 1)
  }

  function UpsertCdp(g: Graph, a: Address, s: CdpSummary): Graph {
    var key := (a, s.name);
    if key in g.cdps then
      var kept := g.cdps[key].(summary := s);
      g.(cdps := g.cdps[key := if s.state.Some? then WithState(kept, s.state.value) else kept])
    else g.(cdps := g.cdps[key := CdpRecord(s, if s.state.Some? then s.state.value else map[], 0)])
  }

  function UpsertCdps(g: Graph, a: Address, summaries: seq<CdpSummary>): Graph {
    if summaries == [] then g
    else UpsertCdp(UpsertCdps(g, a, summaries[..|summaries| - 1]), a, summaries[|summaries| - 1])
  }

  function AttachCdps(g: Graph, a: Address, summaries: seq<CdpSummary>): Graph {
    UpsertCdps(g.(cdps := g.cdps - StaleCdps(g, a, summaries)), a, summaries)
  }

  function ApplyCdpState(g: Graph, key: CdpKey, state: CdpState): Graph {
    if key in g.cdps then g.(cdps := g.cdps[key := WithState(g.cdps[key], state)]) else g
  }

  function SetWeekProfile(g: Graph, a: Address, climate: bool): Graph {
    g.(weekProfiles := g.weekProfiles[a := (if a in g.weekProfiles then g.weekProfiles[a] else {}) + {climate}])
  }

  // ---- lookups ----

  lemma {:induction false} LastChannelWrite(a: Address, chs: seq<ChannelSummary>, k: ChannelKey)
    requires forall ch <- chs :: DeviceOf(ch.address) == a
    ensures LastWrite(ChannelWrites(chs), k) == if k.0 == a then LastWrite(Numbered(chs), k.1) else None
  {
    if chs != [] {
      var front := chs[..|chs| - 1];
      assert ChannelWrites(chs)[..|front|] == ChannelWrites(front) && Numbered(chs)[..|front|] == Numbered(front);
      LastChannelWrite(a, front, k);
    }
  }

  lemma {:induction false} LastDpWrite(a: Address, n: int, dps: seq<DpSummary>, k: DpKey)
    ensures LastWrite(DpWrites(a, n, dps), k) == if k.0 == a && k.1 == n then LastWrite(Named(dps), k.2) else None
  {
    if dps != [] {
      var front := dps[..|dps| - 1];
      assert DpWrites(a, n, dps)[..|front|] == DpWrites(a, n, front) && Named(dps)[..|front|] == Named(front);
      LastDpWrite(a, n, front, k);
    }
  }

  /** A well-addressed detail makes a device's channels exactly the listed ones and touches no other device's. */
  lemma {:induction false} AttachDetailChannels(g: Graph, s: DeviceSummary, chs: seq<ChannelSummary>, k: ChannelKey)
    requires CanAdmit(g, s.address) && forall ch <- chs :: DeviceOf(ch.address) == s.address
    ensures Get(AttachDetail(g, s, chs).channels, k)
         == if k.0 == s.address then LastWrite(Numbered(chs), k.1) else Get(g.channels, k)
  {
    PutAllGet(g.channels, ChannelWrites(chs), k);
    LastChannelWrite(s.address, chs, k);
  }

  /** ... and keeps exactly the data points of the channels that stay. */
  lemma {:induction false} AttachDetailDataPoints(g: Graph, s: DeviceSummary, chs: seq<ChannelSummary>, k: DpKey)
    requires Sound(g) && CanAdmit(g, s.address) && forall ch <- chs :: DeviceOf(ch.address) == s.address
    ensures var h := AttachDetail(g, s, chs);
            var stays := k.0 != s.address || LastWrite(Numbered(chs), k.1).Some?;
            && Get(h.dataPoints, k) == (if stays then Get(g.dataPoints, k) else None)
            && (k in h.calculated <==> k in g.calculated && stays)
  {
    var ck := (k.0, k.1);
    AttachDetailChannels(g, s, chs, ck);
    PutAllGet(g.channels, ChannelWrites(chs), ck);
    LastChannelWrite(s.address, chs, ck);
    if k in g.dataPoints {
      assert ck in g.channels;
    }
  }

  /**
   One channel's reconciliation: listed parameters take the listed summary, calculated ones stay, other
   generic ones go.
   */
  lemma {:induction false} AttachDataPointsAt(g: Graph, a: Address, n: int, dps: seq<DpSummary>, k: DpKey)
    ensures Get(AttachDataPoints(g, a, n, dps).dataPoints, k)
         == if k.0 == a && k.1 == n
            then OrElse(LastWrite(Named(dps), k.2), if k in g.calculated then Get(g.dataPoints, k) else None)
            else Get(g.dataPoints, k)
  {
    PutAllGet(g.dataPoints - StaleDataPoints(g, a, n, dps), DpWrites(a, n, dps), k);
    LastDpWrite(a, n, dps, k);
  }

  /** A calculated catalogue replaces or adds what it names, marks exactly that in addition, and leaves the rest. */
  lemma {:induction false} AttachCalculatedAt(g: Graph, a: Address, n: int, calcs: seq<DpSummary>, k: DpKey)
    ensures var h := AttachCalculated(g, a, n, calcs);
            var named := if k.0 == a && k.1 == n then LastWrite(Named(calcs), k.2) else None;
            && Get(h.dataPoints, k) == OrElse(named, Get(g.dataPoints, k))
            && (k in h.calculated <==> k in g.calculated || named.Some?)
  {
    PutAllGet(g.dataPoints, DpWrites(a, n, calcs), k);
    LastDpWrite(a, n, calcs, k);
    forall i | 0 <= i < |calcs| && (a, n, calcs[i].parameter) == k ensures LastWrite(Named(calcs), k.2).Some? {
      assert Named(calcs)[i].0 == k.2;
    }
    if LastWrite(Named(calcs), k.2).Some? {
      var w := (k.2, LastWrite(Named(calcs), k.2).value);
      var i :| 0 <= i < |calcs| && Named(calcs)[i] == w;
      assert (a, n, calcs[i].parameter) == (a, n, k.2);
    }
  }

  /** The last listed summary under a name, and the last listed state under it. */
  function LastListed(summaries: seq<CdpSummary>, name: string): Option<CdpSummary> {
    if summaries == [] then None
    else if summaries[|summaries| - 1].name == name then Some(summaries[|summaries| - 1])
    else LastListed(summaries[..|summaries| - 1], name)
  }

  function LastSeed(summaries: seq<CdpSummary>, name: string): Option<CdpState> {
    if summaries == [] then None
    else
      var last := summaries[|summaries| - 1];
      if last.name == name && last.state.Some? then last.state else LastSeed(summaries[..|summaries| - 1], name)
  }

  /** Summary and state of a custom data point, without its generation. */
  function Shown(r: CdpRecord): (CdpSummary, CdpState) {
    (r.summary, r.state)
  }

  lemma {:induction false} UpsertCdpsAt(g: Graph, a: Address, summaries: seq<CdpSummary>, k: CdpKey)
    ensures var h := UpsertCdps(g, a, summaries);
            var listed := if k.0 == a then LastListed(summaries, k.1) else None;
            if listed.None? then Get(h.cdps, k) == Get(g.cdps, k)
            else
              k in h.cdps && Shown(h.cdps[k])
              == (listed.value, match LastSeed(summaries, k.1) {
                                  case Some(state) => state
                                  case None => if k in g.cdps then g.cdps[k].state else map[]
                                })
  {
    if summaries != [] {
      UpsertCdpsAt(g, a, summaries[..|summaries| - 1], k);
      SeedsAreListed(summaries[..|summaries| - 1], k.1);
    }
  }

  lemma {:induction false} SeedsAreListed(summaries: seq<CdpSummary>, name: string)
    ensures LastSeed(summaries, name).Some? ==> LastListed(summaries, name).Some?
    ensures LastListed(summaries, name).None? <==> forall s <- summaries :: s.name != name
  {
    if summaries != [] {
      var front, last := summaries[..|summaries| - 1], summaries[|summaries| - 1];
      SeedsAreListed(front, name);
      assert summaries == front + [last];
    }
  }

  /**
   A custom data point catalogue: listed names end on their last listed summary, with the last listed
   state, else the state they had, else none; unlisted names of the device go; other devices keep theirs.
   */
  lemma {:induction false} AttachCdpsAt(g: Graph, a: Address, summaries: seq<CdpSummary>, k: CdpKey)
    ensures var h := AttachCdps(g, a, summaries);
            if k.0 != a then Get(h.cdps, k) == Get(g.cdps, k)
            else
              match LastListed(summaries, k.1) {
                case None => k !in h.cdps
                case Some(s) =>
                  k in h.cdps && Shown(h.cdps[k])
                  == (s, match LastSeed(summaries, k.1) {
                           case Some(state) => state
                           case None => if k in g.cdps then g.cdps[k].state else map[]
                         })
              }
  {
    UpsertCdpsAt(g.(cdps := g.cdps - StaleCdps(g, a, summaries)), a, summaries, k);
    SeedsAreListed(summaries, k.1);
  }

  function LastSummary(summaries: seq<DeviceSummary>, a: Address): Option<DeviceSummary> {
    if summaries == [] then None
    else if summaries[|summaries| - 1].address == a then Some(summaries[|summaries| - 1])
    else LastSummary(summaries[..|summaries| - 1], a)
  }

  /**
   Loading a snapshot's devices gives a known device its last listed summary and leaves its detail, cap
   or not; a device that is new afterwards was listed, stands under its last listed summary, and has no detail yet.
   */
  lemma {:induction false} LoadDevicesAt(g: Graph, summaries: seq<DeviceSummary>, a: Address)
    ensures var h := LoadDevices(g, summaries);
            var last := LastSummary(summaries, a);
            && (a in g.devices ==>
                  && a in h.devices
                  && h.devices[a] == if last.Some? then g.devices[a].(summary := last.value) else g.devices[a])
            && (a !in g.devices && a in h.devices ==>
                  last.Some? && h.devices[a] == DeviceRecord(last.value, None, None))
  {
    if summaries != [] {
      LoadDevicesAt(g, summaries[..|summaries| - 1], a);
    }
  }

  function RefreshAll(g: Graph, a: Address, times: seq<int>): Graph {
    if times == [] then g else ApplyRefreshed(RefreshAll(g, a, times[..|times| - 1]), a, times[|times| - 1])
  }

  /** The refresh time a device shows, if it has an availability record. */
  function RefreshTime(g: Graph, a: Address): Option<int>
    requires a in g.devices && g.devices[a].availability.Some?
  {
    g.devices[a].availability.value.lastRefreshed
  }

  lemma {:induction false} RefreshedOnce(g: Graph, a: Address, t: int)
    requires a in g.devices && g.devices[a].availability.Some?
    ensures var h := ApplyRefreshed(g, a, t);
            && h.devices.Keys == g.devices.Keys && h.devices[a].availability.Some?
            && RefreshTime(h, a)
               == if RefreshTime(g, a).Some? && RefreshTime(g, a).value >= t then RefreshTime(g, a) else Some(t)
  {
  }

  /**
   Whatever the order of its pushes, a device's refresh time ends on the latest of them and of the one
   it had, if it had one.
   */
  lemma {:induction false} RefreshesEndOnTheLatest(g: Graph, a: Address, times: seq<int>)
    requires a in g.devices && g.devices[a].availability.Some?
    ensures var h := RefreshAll(g, a, times);
            && h.devices.Keys == g.devices.Keys && h.devices[a].availability.Some?
            && var (was, now) := (RefreshTime(g, a), RefreshTime(h, a));
               && (now.None? <==> was.None? && times == [])
               && (was.Some? ==> now.Some? && now.value >= was.value)
               && (now.Some? ==> (forall t <- times :: now.value >= t) && (now == was || now.value in times))
  {
    hide ApplyRefreshed, RefreshTime;
    if times != [] {
      var front, last := times[..|times| - 1], times[|times| - 1];
      RefreshesEndOnTheLatest(g, a, front);
      RefreshedOnce(RefreshAll(g, a, front), a, last);
      OneTimeLater(RefreshTime(g, a), RefreshTime(RefreshAll(g, a, front), a), front, last);
      assert times == front + [last];
    }
  }

  lemma {:induction false} OneTimeLater(was: Option<int>, mid: Option<int>, front: seq<int>, last: int)
    requires mid.None? ==> was.None?
    requires was.Some? ==> mid.Some? && mid.value >= was.value
    requires mid.Some? ==> (forall t <- front :: mid.value >= t) && (mid == was || mid.value in front)
    requires mid.None? ==> front == []
    ensures var now := if mid.Some? && mid.value >= last then mid else Some(last);
            && (was.Some? ==> now.value >= was.value)
            && (forall t <- front + [last] :: now.value >= t) && (now == was || now.value in front + [last])
  {
  }

  // ---- what each mutator leaves, field by field and entry by entry ----

  /** The last entry of its address, number, parameter or name in a list. */
  ghost predicate LastDevice(summaries: seq<DeviceSummary>, i: nat) {
    i < |summaries| && forall j :: i < j < |summaries| ==> summaries[j].address != summaries[i].address
  }

  ghost predicate LastNumber(chs: seq<ChannelSummary>, c: nat) {
    c < |chs| && forall j :: c < j < |chs| ==> chs[j].number != chs[c].number
  }

  ghost predicate LastDataPoint(dps: seq<DpSummary>, d: nat) {
    d < |dps| && forall j :: d < j < |dps| ==> dps[j].parameter != dps[d].parameter
  }

  ghost predicate LastCdp(summaries: seq<CdpSummary>, i: nat) {
    i < |summaries| && forall j :: i < j < |summaries| ==> summaries[j].name != summaries[i].name
  }

  /** The last entry of its name that carries a state. */
  ghost predicate LastState(summaries: seq<CdpSummary>, i: nat) {
    && i < |summaries| && summaries[i].state.Some?
    && forall j :: i < j < |summaries| ==> summaries[j].name != summaries[i].name || summaries[j].state.None?
  }

  predicate ListsParameter(dps: seq<DpSummary>, p: string) {
    exists dp <- dps :: dp.parameter == p
  }

  lemma {:induction false} LastDeviceIs(summaries: seq<DeviceSummary>, i: nat)
    requires LastDevice(summaries, i)
    ensures LastSummary(summaries, summaries[i].address) == Some(summaries[i])
  {
    if i < |summaries| - 1 {
      LastDeviceIs(summaries[..|summaries| - 1], i);
    }
  }

  lemma {:induction false} LastCdpIs(summaries: seq<CdpSummary>, i: nat)
    requires LastCdp(summaries, i)
    ensures LastListed(summaries, summaries[i].name) == Some(summaries[i])
  {
    if i < |summaries| - 1 {
      LastCdpIs(summaries[..|summaries| - 1], i);
    }
  }

  lemma {:induction false} LastStateIs(summaries: seq<CdpSummary>, i: nat)
    requires LastState(summaries, i)
    ensures LastSeed(summaries, summaries[i].name) == summaries[i].state
  {
    if i < |summaries| - 1 {
      LastStateIs(summaries[..|summaries| - 1], i);
    }
  }

  lemma {:induction false} SeedIsCarried(summaries: seq<CdpSummary>, name: string)
    requires forall s <- summaries :: s.name == name ==> s.state.None?
    ensures LastSeed(summaries, name).None?
  {
    if summaries != [] {
      assert summaries[|summaries| - 1] in summaries;
      SeedIsCarried(summaries[..|summaries| - 1], name);
    }
  }

  lemma {:induction false} NamedIsListed(dps: seq<DpSummary>, p: string)
    ensures LastWrite(Named(dps), p).Some? <==> ListsParameter(dps, p)
  {
    if dp :| dp in dps && dp.parameter == p {
      var i :| 0 <= i < |dps| && dps[i] == dp;
      assert Named(dps)[i].0 == p;
    }
    if LastWrite(Named(dps), p).Some? {
      var i := LastWriteAt(Named(dps), p);
      assert dps[i] in dps;
    }
  }

  /**
   Loading: a device that is there stands under the last summary of its address, with the detail it had,
   or none when it is new; a listed device is missing only when the store is full.
   */
  lemma {:induction false} LoadLands(g: Graph, summaries: seq<DeviceSummary>, i: nat)
    requires LastDevice(summaries, i)
    ensures var (h, s) := (LoadDevices(g, summaries), summaries[i]);
            && (s.address in g.devices ==>
                  && s.address in h.devices
                  && h.devices[s.address]
                     == DeviceRecord(s, g.devices[s.address].firmware, g.devices[s.address].availability))
            && (s.address !in g.devices && s.address in h.devices ==>
                  h.devices[s.address] == DeviceRecord(s, None, None))
            && (s.address !in h.devices ==> |h.devices| >= g.maxDevices)
  {
    LoadDevicesAt(g, summaries, summaries[i].address);
    LastDeviceIs(summaries, i);
    MissingWhenFull(g, summaries, summaries[i]);
  }

  lemma {:induction false} MissingWhenFull(g: Graph, summaries: seq<DeviceSummary>, s: DeviceSummary)
    requires s in summaries
    ensures LoadDevices(g, summaries).maxDevices == g.maxDevices
    ensures s.address !in LoadDevices(g, summaries).devices ==> |LoadDevices(g, summaries).devices| >= g.maxDevices
  {
    var front, last := summaries[..|summaries| - 1], summaries[|summaries| - 1];
    var m := LoadDevices(g, front);
    LoadKeepsCap(g, front);
    if last != s {
      assert summaries == front + [last] && s in front;
      MissingWhenFull(g, front, s);
    }
    AdmitSize(m.devices, last.address, DeviceRecord(last, None, None));
  }

  lemma {:induction false} LoadKeepsCap(g: Graph, summaries: seq<DeviceSummary>)
    ensures LoadDevices(g, summaries).maxDevices == g.maxDevices
  {
    if summaries != [] {
      LoadKeepsCap(g, summaries[..|summaries| - 1]);
    }
  }

  /** A detail: the device with both records, each listed channel with its last summary, and no other channel of it. */
  lemma {:induction false} DetailLands(g: Graph, s: DeviceSummary, chs: seq<ChannelSummary>)
    requires s.address in g.devices || |g.devices| < g.maxDevices
    requires forall ch <- chs :: DeviceOf(ch.address) == s.address
    ensures var h := AttachDetail(g, s, chs);
            && h.devices == g.devices[s.address := DeviceRecord(s, Some(s.firmware), Some(s.availability))]
            && (forall c: nat :: LastNumber(chs, c) ==> Get(h.channels, (s.address, chs[c].number)) == Some(chs[c]))
            && (forall k <- h.channels :: k.0 == s.address ==> exists ch <- chs :: ch.number == k.1)
            && (forall k <- g.channels :: k.0 != s.address ==> Get(h.channels, k) == Some(g.channels[k]))
  {
    var h := AttachDetail(g, s, chs);
    forall c: nat | LastNumber(chs, c) ensures Get(h.channels, (s.address, chs[c].number)) == Some(chs[c]) {
      AttachDetailChannels(g, s, chs, (s.address, chs[c].number));
      LastWriteIs(Numbered(chs), c);
    }
    forall k | k in h.channels && k.0 == s.address ensures exists ch <- chs :: ch.number == k.1 {
      AttachDetailChannels(g, s, chs, k);
      var i := LastWriteAt(Numbered(chs), k.1);
      assert chs[i] in chs;
    }
    forall k | k in g.channels && k.0 != s.address ensures Get(h.channels, k) == Some(g.channels[k]) {
      AttachDetailChannels(g, s, chs, k);
    }
  }

  /** A catalogue: each listed parameter with its last summary; of the rest of the channel only what is calculated. */
  lemma {:induction false} DataPointsLand(g: Graph, a: Address, n: int, dps: seq<DpSummary>)
    ensures var h := AttachDataPoints(g, a, n, dps);
            && (forall d: nat :: LastDataPoint(dps, d) ==> Get(h.dataPoints, (a, n, dps[d].parameter)) == Some(dps[d]))
            && (forall k: DpKey :: k.0 == a && k.1 == n && !ListsParameter(dps, k.2) ==>
                  Get(h.dataPoints, k) == if k in g.calculated then Get(g.dataPoints, k) else None)
            && (forall k: DpKey :: (k.0, k.1) != (a, n) ==> Get(h.dataPoints, k) == Get(g.dataPoints, k))
            && h == g.(dataPoints := h.dataPoints)
  {
    var h := AttachDataPoints(g, a, n, dps);
    forall d: nat | LastDataPoint(dps, d) ensures Get(h.dataPoints, (a, n, dps[d].parameter)) == Some(dps[d]) {
      AttachDataPointsAt(g, a, n, dps, (a, n, dps[d].parameter));
      LastWriteIs(Named(dps), d);
    }
    forall k: DpKey | k.0 == a && k.1 == n && !ListsParameter(dps, k.2)
      ensures Get(h.dataPoints, k) == if k in g.calculated then Get(g.dataPoints, k) else None
    {
      AttachDataPointsAt(g, a, n, dps, k);
      NamedIsListed(dps, k.2);
    }
    forall k: DpKey | (k.0, k.1) != (a, n) ensures Get(h.dataPoints, k) == Get(g.dataPoints, k) {
      AttachDataPointsAt(g, a, n, dps, k);
    }
  }

  /** A calculated catalogue: each listed parameter with its last summary and marked, everything else as it was. */
  lemma {:induction false} CalculatedLand(g: Graph, a: Address, n: int, calcs: seq<DpSummary>)
    ensures var h := AttachCalculated(g, a, n, calcs);
            && (forall d: nat :: LastDataPoint(calcs, d) ==>
                  && Get(h.dataPoints, (a, n, calcs[d].parameter)) == Some(calcs[d])
                  && (a, n, calcs[d].parameter) in h.calculated)
            && (forall k: DpKey :: !(k.0 == a && k.1 == n && ListsParameter(calcs, k.2)) ==>
                  && Get(h.dataPoints, k) == Get(g.dataPoints, k)
                  && (k in h.calculated <==> k in g.calculated))
            && h == g.(dataPoints := h.dataPoints, calculated := h.calculated)
  {
    var h := AttachCalculated(g, a, n, calcs);
    forall d: nat | LastDataPoint(calcs, d)
      ensures Get(h.dataPoints, (a, n, calcs[d].parameter)) == Some(calcs[d])
      ensures (a, n, calcs[d].parameter) in h.calculated
    {
      AttachCalculatedAt(g, a, n, calcs, (a, n, calcs[d].parameter));
      LastWriteIs(Named(calcs), d);
    }
    forall k: DpKey | !(k.0 == a && k.1 == n && ListsParameter(calcs, k.2))
      ensures Get(h.dataPoints, k) == Get(g.dataPoints, k) && (k in h.calculated <==> k in g.calculated)
    {
      AttachCalculatedAt(g, a, n, calcs, k);
      NamedIsListed(calcs, k.2);
    }
  }

  /**
   Custom data points: each listed name with its last summary, and the last state listed for it, or the state
   it had, or none; unlisted names of the device go, those of other devices stay.
   */
  lemma {:induction false} CdpsLand(g: Graph, a: Address, summaries: seq<CdpSummary>)
    ensures var h := AttachCdps(g, a, summaries);
            && (forall i: nat :: LastCdp(summaries, i) ==>
                  (a, summaries[i].name) in h.cdps && h.cdps[(a, summaries[i].name)].summary == summaries[i])
            && (forall i: nat :: LastState(summaries, i) ==>
                  (a, summaries[i].name) in h.cdps && h.cdps[(a, summaries[i].name)].state == summaries[i].state.value)
            && (forall k <- h.cdps :: k.0 == a && (forall s <- summaries :: s.name == k.1 ==> s.state.None?) ==>
                  h.cdps[k].state == if k in g.cdps then g.cdps[k].state else map[])
            && (forall k <- h.cdps :: k.0 == a ==> exists s <- summaries :: s.name == k.1)
            && (forall k: CdpKey :: k.0 != a ==> Get(h.cdps, k) == Get(g.cdps, k))
  {
    var h := AttachCdps(g, a, summaries);
    forall i: nat | LastCdp(summaries, i)
      ensures (a, summaries[i].name) in h.cdps && h.cdps[(a, summaries[i].name)].summary == summaries[i]
    {
      AttachCdpsAt(g, a, summaries, (a, summaries[i].name));
      LastCdpIs(summaries, i);
    }
    forall i: nat | LastState(summaries, i)
      ensures (a, summaries[i].name) in h.cdps && h.cdps[(a, summaries[i].name)].state == summaries[i].state.value
    {
      AttachCdpsAt(g, a, summaries, (a, summaries[i].name));
      LastStateIs(summaries, i);
      SeedsAreListed(summaries, summaries[i].name);
    }
    forall k | k in h.cdps && k.0 == a
      ensures (forall s <- summaries :: s.name == k.1 ==> s.state.None?) ==>
                h.cdps[k].state == if k in g.cdps then g.cdps[k].state else map[]
      ensures exists s <- summaries :: s.name == k.1
    {
      AttachCdpsAt(g, a, summaries, k);
      SeedsAreListed(summaries, k.1);
      if forall s <- summaries :: s.name == k.1 ==> s.state.None? {
        SeedIsCarried(summaries, k.1);
      }
    }
    forall k: CdpKey | k.0 != a ensures Get(h.cdps, k) == Get(g.cdps, k) {
      AttachCdpsAt(g, a, summaries, k);
    }
  }

  /**
   Pushes: a value push writes value, display value, observed and all three timestamps and keeps the parameter;
   a state push replaces the state and counts; an availability push moves the flag; a new device is a stub.
   What a push names and the store does not know stays unknown.
   */
  lemma {:induction false} PushesLand(
    g: Graph, p: ValueChanged, key: CdpKey, state: CdpState, a: Address, available: bool)
    ensures var h := ApplyValueChanged(g, p);
            if p.key !in g.dataPoints then h == g
            else
              h == g.(dataPoints := g.dataPoints[
                p.key := DpSummary(g.dataPoints[p.key].parameter, p.value, p.displayValue, true,
                                   p.modifiedAt, p.modifiedAt, p.modifiedAt)])
    ensures var h := ApplyCdpState(g, key, state);
            if key !in g.cdps then h == g
            else h == g.(cdps := g.cdps[key := CdpRecord(g.cdps[key].summary, state, g.cdps[key].generation + 1)])
    ensures var h := ApplyAvailabilityChanged(g, a, available);
            if a !in g.devices then h == g
            else
              && h == g.(devices := h.devices) && h.devices.Keys == g.devices.Keys
              && h.devices[a].summary == g.devices[a].summary.(available := available)
              && h.devices[a].firmware == g.devices[a].firmware
              && h.devices[a].availability == g.devices[a].availability
              && forall b <- g.devices :: b != a ==> h.devices[b] == g.devices[b]
    ensures var h := ApplyDeviceCreated(g, a);
            if a in g.devices || |g.devices| >= g.maxDevices then h == g
            else
              var stub := DeviceSummary(a, a, true, "", Availability(true, None));
              h == g.(devices := g.devices[a := DeviceRecord(stub, None, None)])
  {
  }

  /** A refresh push moves the time on record and summary alike, forwards only, and only where a record exists. */
  lemma {:induction false} RefreshLands(g: Graph, a: Address, at: int)
    ensures var h := ApplyRefreshed(g, a, at);
            if a !in g.devices || g.devices[a].availability.None? then h == g
            else
              var (d, was) := (g.devices[a], g.devices[a].availability.value);
              if was.lastRefreshed.Some? && was.lastRefreshed.value >= at then h == g
              else
                && h == g.(devices := h.devices) && h.devices.Keys == g.devices.Keys
                && h.devices[a].availability == Some(Availability(was.reachable, Some(at)))
                && h.devices[a].summary == d.summary.(availability := Availability(was.reachable, Some(at)))
                && h.devices[a].firmware == d.firmware
                && forall b <- g.devices :: b != a ==> h.devices[b] == g.devices[b]
  {
  }

  /** The device part of a channel address is what stands before its first colon. */
  lemma {:induction false} DevicePrecedesTheColon(device: string, rest: string)
    requires ':' !in device
    ensures DeviceOf(device + ":" + rest) == device && DeviceOf(device) == device
  {
    if device == [] {
      assert (device + ":" + rest)[0] == ':';
    } else {
      assert (device + ":" + rest)[1..] == device[1..] + ":" + rest && (device + ":" + rest)[0] == device[0];
      assert device[0] in device && forall c <- device[1..] :: c in device;
      DevicePrecedesTheColon(device[1..], rest);
    }
  }

  // ---- every mutator, and when it keeps the graph sound ----

  datatype Op =
    | Load(summaries: seq<DeviceSummary>)
    | Detail(summary: DeviceSummary, channels: seq<ChannelSummary>)
    | DataPoints(address: Address, number: int, dps: seq<DpSummary>)
    | Calculated(address: Address, number: int, calcs: seq<DpSummary>)
    | Cdps(address: Address, cdps: seq<CdpSummary>)
    | Value(push: ValueChanged)
    | CdpPush(key: CdpKey, state: CdpState)
    | Created(address: Address)
    | Available(address: Address, available: bool)
    | Refreshed(address: Address, at: int)
    | Removed(address: Address)
    | WeekProfile(address: Address, climate: bool)

  function Apply(g: Graph, op: Op): Graph {
    match op
    case Load(summaries) => LoadDevices(g, summaries)
    case Detail(s, chs) => AttachDetail(g, s, chs)
    case DataPoints(a, n, dps) => AttachDataPoints(g, a, n, dps)
    case Calculated(a, n, calcs) => AttachCalculated(g, a, n, calcs)
    case Cdps(a, summaries) => AttachCdps(g, a, summaries)
    case Value(p) => ApplyValueChanged(g, p)
    case CdpPush(key, state) => ApplyCdpState(g, key, state)
    case Created(a) => ApplyDeviceCreated(g, a)
    case Available(a, available) => ApplyAvailabilityChanged(g, a, available)
    case Refreshed(a, at) => ApplyRefreshed(g, a, at)
    case Removed(a) => ApplyDeviceRemoved(g, a)
    case WeekProfile(a, climate) => SetWeekProfile(g, a, climate)
  }

  /**
   The calls that attach below something the store does not hold are the only ones that can unsound it:
   data points for a channel it does not have, or a detail whose channels are addressed to a device it does not have.
   */
  ghost predicate Anchored(g: Graph, op: Op) {
    match op
    case DataPoints(a, n, dps) => dps != [] ==> (a, n) in g.channels
    case Calculated(a, n, calcs) => calcs != [] ==> (a, n) in g.channels
    case Detail(s, chs) =>
      CanAdmit(g, s.address) ==>
        forall ch <- chs :: DeviceOf(ch.address) == s.address || DeviceOf(ch.address) in g.devices
    case _ => true
  }

  lemma {:induction false} UpsertDeviceSound(g: Graph, s: DeviceSummary)
    requires Sound(g)
    ensures Sound(UpsertDevice(g, s))
    ensures g.devices.Keys <= UpsertDevice(g, s).devices.Keys
  {
    AdmitSize(g.devices, s.address, DeviceRecord(s, None, None));
    if s.address in g.devices {
      AdmitSize(g.devices, s.address, g.devices[s.address].(summary := s));
    }
  }

  lemma {:induction false} AdmitSize<V>(m: map<Address, V>, a: Address, v: V)
    ensures |m[a := v]| == if a in m then |m| else |m| + 1
  {
    assert m[a := v].Keys == m.Keys + {a};
  }

  lemma {:induction false} LoadSound(g: Graph, summaries: seq<DeviceSummary>)
    requires Sound(g)
    ensures Sound(LoadDevices(g, summaries))
  {
    if summaries != [] {
      LoadSound(g, summaries[..|summaries| - 1]);
      UpsertDeviceSound(LoadDevices(g, summaries[..|summaries| - 1]), summaries[|summaries| - 1]);
    }
  }

  lemma {:induction false} DropChannelsSound(g: Graph, gone: set<ChannelKey>)
    requires g.calculated <= g.dataPoints.Keys && forall k <- g.dataPoints :: (k.0, k.1) in g.channels
    ensures var h := DropChannels(g, gone);
            h.calculated <= h.dataPoints.Keys && forall k <- h.dataPoints :: (k.0, k.1) in h.channels
  {
  }

  lemma {:induction false} ListedChannel(chs: seq<ChannelSummary>, k: ChannelKey)
    ensures LastWrite(ChannelWrites(chs), k).Some? <==> exists ch <- chs :: ChannelKeyOf(ch) == k
  {
    forall ch | ch in chs && ChannelKeyOf(ch) == k ensures LastWrite(ChannelWrites(chs), k).Some? {
      var i :| 0 <= i < |chs| && chs[i] == ch;
      assert ChannelWrites(chs)[i].0 == k;
    }
    if LastWrite(ChannelWrites(chs), k).Some? {
      var w := (k, LastWrite(ChannelWrites(chs), k).value);
      var i :| 0 <= i < |chs| && ChannelWrites(chs)[i] == w;
      assert chs[i] in chs;
    }
  }

  lemma {:induction false} DetailChannelKeys(g: Graph, s: DeviceSummary, chs: seq<ChannelSummary>, k: ChannelKey)
    requires CanAdmit(g, s.address)
    ensures var h := AttachDetail(g, s, chs);
            && (k in h.channels ==> k in g.channels || exists ch <- chs :: ChannelKeyOf(ch) == k)
            && (k.0 != s.address ==>
                  (k in h.channels <==> k in g.channels || exists ch <- chs :: ChannelKeyOf(ch) == k))
  {
    PutAllGet(g.channels, ChannelWrites(chs), k);
    ListedChannel(chs, k);
  }

  lemma {:induction false} GrowingKeepsChannels(g: Graph, chs: seq<ChannelSummary>)
    ensures g.channels.Keys <= PutAll(g.channels, ChannelWrites(chs)).Keys
  {
    forall k | k in g.channels ensures k in PutAll(g.channels, ChannelWrites(chs)) {
      PutAllGet(g.channels, ChannelWrites(chs), k);
    }
  }

  lemma {:induction false} DetailKeepsDataPointsBelowChannels(g: Graph, s: DeviceSummary, chs: seq<ChannelSummary>)
    requires Sound(g) && CanAdmit(g, s.address)
    ensures var h := AttachDetail(g, s, chs);
            h.calculated <= h.dataPoints.Keys && forall k <- h.dataPoints :: (k.0, k.1) in h.channels
  {
    GrowingKeepsChannels(g, chs);
    var known := g.(devices := g.devices[s.address := DeviceRecord(s, Some(s.firmware), Some(s.availability))]);
    var grown := known.(channels := PutAll(g.channels, ChannelWrites(chs)));
    DropChannelsSound(grown, StaleChannels(grown, s.address, chs));
  }

  lemma {:induction false} DetailDevices(g: Graph, s: DeviceSummary, chs: seq<ChannelSummary>)
    requires Sound(g) && CanAdmit(g, s.address)
    ensures var h := AttachDetail(g, s, chs);
            h.devices.Keys == g.devices.Keys + {s.address} && |h.devices| <= h.maxDevices
  {
    AdmitSize(g.devices, s.address, DeviceRecord(s, Some(s.firmware), Some(s.availability)));
  }

  lemma {:induction false} DetailSoundExactlyWhenAnchored(g: Graph, s: DeviceSummary, chs: seq<ChannelSummary>)
    requires Sound(g)
    ensures Sound(AttachDetail(g, s, chs)) <==> Anchored(g, Detail(s, chs))
  {
    if CanAdmit(g, s.address) {
      DetailKeepsDataPointsBelowChannels(g, s, chs);
      DetailDevices(g, s, chs);
      var h := AttachDetail(g, s, chs);
      if Anchored(g, Detail(s, chs)) {
        forall k | k in h.channels ensures k.0 in h.devices {
          DetailChannelKeys(g, s, chs, k);
        }
      }
      forall ch | ch in chs && DeviceOf(ch.address) != s.address ensures ChannelKeyOf(ch) in h.channels {
        DetailChannelKeys(g, s, chs, ChannelKeyOf(ch));
      }
    }
  }

  lemma {:induction false} DataPointsSoundExactlyWhenAnchored(g: Graph, a: Address, n: int, dps: seq<DpSummary>)
    requires Sound(g)
    ensures Sound(AttachDataPoints(g, a, n, dps)) <==> Anchored(g, DataPoints(a, n, dps))
  {
    var h := AttachDataPoints(g, a, n, dps);
    forall k | k in h.dataPoints ensures k in g.dataPoints || (k.0 == a && k.1 == n && dps != []) {
      AttachDataPointsAt(g, a, n, dps, k);
    }
    forall k | k in g.calculated ensures k in h.dataPoints {
      AttachDataPointsAt(g, a, n, dps, k);
    }
    if dps != [] {
      var k := (a, n, dps[0].parameter);
      AttachDataPointsAt(g, a, n, dps, k);
      assert Named(dps)[0] in Named(dps);
      assert k in h.dataPoints;
    }
  }

  lemma {:induction false} CalculatedSoundExactlyWhenAnchored(g: Graph, a: Address, n: int, calcs: seq<DpSummary>)
    requires Sound(g)
    ensures Sound(AttachCalculated(g, a, n, calcs)) <==> Anchored(g, Calculated(a, n, calcs))
  {
    var h := AttachCalculated(g, a, n, calcs);
    forall k ensures Get(h.dataPoints, k) == OrElse(LastWrite(DpWrites(a, n, calcs), k), Get(g.dataPoints, k)) {
      PutAllGet(g.dataPoints, DpWrites(a, n, calcs), k);
    }
    forall i | 0 <= i < |calcs| ensures (a, n, calcs[i].parameter) in h.dataPoints {
      assert DpWrites(a, n, calcs)[i] in DpWrites(a, n, calcs);
      PutAllGet(g.dataPoints, DpWrites(a, n, calcs), (a, n, calcs[i].parameter));
    }
    forall k | k in h.dataPoints ensures k in g.dataPoints || (k.0 == a && k.1 == n && calcs != []) {
      PutAllGet(g.dataPoints, DpWrites(a, n, calcs), k);
      LastDpWrite(a, n, calcs, k);
    }
    forall k | k in g.calculated ensures k in h.dataPoints {
      assert Get(h.dataPoints, k) == OrElse(LastWrite(DpWrites(a, n, calcs), k), Get(g.dataPoints, k));
    }
    if calcs != [] {
      assert (a, n, calcs[0].parameter) in h.dataPoints;
    }
  }

  lemma {:induction false} CdpsTouchNothingElse(g: Graph, a: Address, summaries: seq<CdpSummary>)
    ensures UpsertCdps(g, a, summaries) == g.(cdps := UpsertCdps(g, a, summaries).cdps)
  {
    if summaries != [] {
      CdpsTouchNothingElse(g, a, summaries[..|summaries| - 1]);
    }
  }

  /** From a sound graph, a mutator leaves a sound graph if and only if the call is anchored. */
  lemma {:induction false} SoundExactlyWhenAnchored(g: Graph, op: Op)
    requires Sound(g)
    ensures Sound(Apply(g, op)) <==> Anchored(g, op)
  {
    match op {
      case Load(summaries) => LoadSound(g, summaries);
      case Detail(s, chs) => DetailSoundExactlyWhenAnchored(g, s, chs);
      case DataPoints(a, n, dps) => DataPointsSoundExactlyWhenAnchored(g, a, n, dps);
      case Calculated(a, n, calcs) => CalculatedSoundExactlyWhenAnchored(g, a, n, calcs);
      case Cdps(a, summaries) => CdpsTouchNothingElse(g.(cdps := g.cdps - StaleCdps(g, a, summaries)), a, summaries);
      case Created(a) => AdmitSize(g.devices, a, DeviceRecord(Stub(a), None, None));
      case Available(a, _) => if a in g.devices { AdmitSize(g.devices, a, Apply(g, op).devices[a]); }
      case Refreshed(a, _) => if a in g.devices { AdmitSize(g.devices, a, Apply(g, op).devices[a]); }
      case Removed(a) => RemovedSound(g, a);
      case _ =>
    }
  }

  lemma {:induction false} RemovedSound(g: Graph, a: Address)
    requires Sound(g)
    ensures Sound(ApplyDeviceRemoved(g, a))
  {
    var gone := set k | k in g.channels && k.0 == a;
    DropChannelsSound(g, gone);
    assert (g.devices - {a}).Keys <= g.devices.Keys;
    SubsetSize((g.devices - {a}).Keys, g.devices.Keys);
  }

  lemma {:induction false} SubsetSize<T>(a: set<T>, b: set<T>)
    requires a <= b
    ensures |a| <= |b|
  {
    assert b == a + (b - a);
  }

  function ApplyAll(g: Graph, ops: seq<Op>): Graph {
    if ops == [] then g else Apply(ApplyAll(g, ops[..|ops| - 1]), ops[|ops| - 1])
  }

  /** Over every sequence of anchored calls the graph stays sound. */
  lemma {:induction false} EveryAnchoredRunIsSound(g: Graph, ops: seq<Op>)
    requires Sound(g)
    requires forall i :: 0 <= i < |ops| ==> Anchored(ApplyAll(g, ops[..i]), ops[i])
    ensures Sound(ApplyAll(g, ops))
  {
    if ops != [] {
      var n := |ops| - 1;
      var front := ops[..n];
      forall i | 0 <= i < n ensures Anchored(ApplyAll(g, front[..i]), front[i]) {
        assert front[..i] == ops[..i];
      }
      EveryAnchoredRunIsSound(g, front);
      assert Anchored(ApplyAll(g, ops[..n]), ops[n]);
      SoundExactlyWhenAnchored(ApplyAll(g, front), ops[n]);
    }
  }

  // ---- removal ----

  /** What hangs off one address. */
  ghost predicate NothingOf(g: Graph, a: Address) {
    && a !in g.devices && a !in g.weekProfiles
    && (forall k <- g.channels :: k.0 != a)
    && (forall k <- g.dataPoints :: k.0 != a)
    && (forall k <- g.calculated :: k.0 != a)
    && (forall k <- g.cdps :: k.0 != a)
  }

  /** Two graphs hold the same for one address. */
  ghost predicate SameOf(g: Graph, h: Graph, a: Address) {
    && Get(g.devices, a) == Get(h.devices, a)
    && Get(g.weekProfiles, a) == Get(h.weekProfiles, a)
    && (forall n :: Get(g.channels, (a, n)) == Get(h.channels, (a, n)))
    && (forall n, p :: Get(g.dataPoints, (a, n, p)) == Get(h.dataPoints, (a, n, p)))
    && (forall n, p :: (a, n, p) in g.calculated <==> (a, n, p) in h.calculated)
    && (forall c :: Get(g.cdps, (a, c)) == Get(h.cdps, (a, c)))
  }

  /** Removing a device leaves nothing of it and changes nothing of any other. */
  lemma {:induction false} RemovalIsCompleteAndLocal(g: Graph, a: Address)
    requires Sound(g)
    ensures NothingOf(ApplyDeviceRemoved(g, a), a)
    ensures forall b :: b != a ==> SameOf(g, ApplyDeviceRemoved(g, a), b)
  {
    var h := ApplyDeviceRemoved(g, a);
    forall k | k in h.dataPoints ensures k.0 != a {
      assert (k.0, k.1) in g.channels;
    }
    forall b | b != a ensures SameOf(g, h, b) {
      RemovalIsLocal(g, a, b);
    }
  }

  lemma {:induction false} RemovalIsLocal(g: Graph, a: Address, b: Address)
    requires b != a
    ensures SameOf(g, ApplyDeviceRemoved(g, a), b)
  {
    var h := ApplyDeviceRemoved(g, a);
    var gone := set k | k in g.channels && k.0 == a;
    forall n ensures Get(g.channels, (b, n)) == Get(h.channels, (b, n)) {
      assert (b, n) !in gone;
    }
    forall n, p ensures Get(g.dataPoints, (b, n, p)) == Get(h.dataPoints, (b, n, p)) {
      assert (b, n) !in gone;
    }
  }
}
