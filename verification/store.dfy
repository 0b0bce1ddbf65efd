/**
 The store as live objects: dicts of devices, channels, data points, custom data points, alarm panels
 and programs that consumers hold on to. Updates reach the object under a key in place; only a key
 that is new gets a new object. Each method is tied to what `StoreGraph` and `IndexTable` say it does.
 */
module Store {
  import opened Common
  import opened StoreGraph
  import opened IndexTable
  import Refresh

  // ---- the live objects ----

  class Device {
    var summary: DeviceSummary
    var firmware: Option<string>
    var availability: Option<Availability>

    ghost function Record(): DeviceRecord reads this {
      DeviceRecord(summary, firmware, availability)
    }

    constructor (summary: DeviceSummary)
      ensures Record() == DeviceRecord(summary, None, None)
    {
      this.summary, firmware, availability := summary, None, None;
    }

    /** The availability record sits on both the detail slot and the summary. */
    method ReplaceAvailability(record: Availability)
      modifies this
      ensures Record() == DeviceRecord(old(summary).(availability := record), old(firmware), Some(record))
    {
      availability := Some(record);
      summary := summary.(availability := record);
    }

    method AttachDetail(firmware: string, availability: Availability)
      modifies this
      ensures Record() == DeviceRecord(old(summary), Some(firmware), Some(availability))
    {
      this.firmware, this.availability := Some(firmware), Some(availability);
    }
  }

  class Channel {
    var summary: ChannelSummary

    constructor (summary: ChannelSummary)
      ensures this.summary == summary
    {
      this.summary := summary;
    }
  }

  /** A data point; one that takes the daemon's verdict on a derived value has an availability beside its summary. */
  class DataPoint {
    var summary: DpSummary
    var calculatedAvailable: Option<bool>

    constructor (summary: DpSummary, calculatedAvailable: Option<bool>)
      ensures this.summary == summary && this.calculatedAvailable == calculatedAvailable
    {
      this.summary, this.calculatedAvailable := summary, calculatedAvailable;
    }

    predicate TakesVerdicts() reads this {
      calculatedAvailable.Some?
    }

    method ApplyCalculatedAvailability(available: bool)
      modifies this`calculatedAvailable
      ensures calculatedAvailable == Some(available)
    {
      calculatedAvailable := Some(available);
    }
  }

  /** A week-profile data point is built outside the store, which only keeps it. */
  class WeekProfileDataPoint {
    constructor () {
    }
  }

  class CustomDataPoint {
    var summary: CdpSummary
    var state: CdpState
    var applyGeneration: nat

    ghost function Record(): CdpRecord reads this {
      CdpRecord(summary, state, applyGeneration)
    }

    constructor (summary: CdpSummary, initialState: Option<CdpState>)
      ensures Record() == CdpRecord(summary, if initialState.Some? then initialState.value else map[], 0)
    {
      this.summary, applyGeneration := summary, 0;
      state := if initialState.Some? then initialState.value else map[];
    }

    /** A catalogue entry: the summary is replaced, and the state too when the entry carries one. */
    method Reseed(summary: CdpSummary)
      modifies this
      ensures var kept := old(Record()).(summary := summary);
              Record() == if summary.state.Some? then WithState(kept, summary.state.value) else kept
    {
      this.summary := summary;
      if summary.state.Some? {
        ReplaceState(summary.state.value);
      }
    }

    /** Every state write counts as one generation. */
    method ReplaceState(state: CdpState)
      modifies this
      ensures Record() == WithState(old(Record()), state)
    {
      this.state := state;
      applyGeneration := applyGeneration + 1;
    }
  }

  datatype PanelSummary = PanelSummary(
    uniqueId: string, zoneId: string, name: string, state: string, available: bool, modes: seq<string>)

  class AlarmPanel {
    var summary: PanelSummary

    constructor (summary: PanelSummary)
      ensures this.summary == summary
    {
      this.summary := summary;
    }
  }

  /** A program and the device it is linked to, if any. */
  datatype ProgramSummary = ProgramSummary(id: string, active: bool, executeAvailable: bool, link: Option<string>)

  class Program {
    var summary: ProgramSummary

    constructor (summary: ProgramSummary)
      ensures this.summary == summary
    {
      this.summary := summary;
    }
  }

  // ---- what the dicts hold ----

  ghost predicate Injective<K, H>(m: map<K, H>) {
    forall k, l :: k in m && l in m && m[k] == m[l] ==> k == l
  }

  /** Every entry is an entry of the other dict. */
  ghost predicate Within<K, H>(now: map<K, H>, was: map<K, H>) {
    forall k <- now :: k in was && now[k] == was[k]
  }

  /** Every entry stays, and what is new stands under a new key. */
  ghost predicate Extends<K, H>(now: map<K, H>, was: map<K, H>) {
    forall k <- was :: k in now && now[k] == was[k]
  }

  /** The dicts of the device graph: which object stands under which key. */
  datatype Holdings = Holdings(
    devices: map<Address, Device>, channels: map<ChannelKey, Channel>, dataPoints: map<DpKey, DataPoint>,
    cdps: map<CdpKey, CustomDataPoint>)

  lemma {:induction false} CreatedAsStub(g: Graph, a: Address)
    ensures Stub(a) == DeviceSummary(a, a, true, "", Availability(true, None))
    ensures StoreGraph.ApplyDeviceCreated(g, a)
         == if a in g.devices || !CanAdmit(g, a) then g
            else g.(devices := g.devices[a := DeviceRecord(Stub(a), None, None)])
  {
  }

  lemma {:induction false} DetailOnUpserted(g: Graph, s: DeviceSummary)
    ensures var (h, record) := (UpsertDevice(g, s), DeviceRecord(s, Some(s.firmware), Some(s.availability)));
            if CanAdmit(g, s.address)
            then
              && s.address in h.devices && h.devices[s.address].summary == s
              && h.(devices := h.devices[s.address := record]) == g.(devices := g.devices[s.address := record])
            else h == g
  {
  }

  lemma {:induction false} ChannelsSnoc(
    m: map<ChannelKey, ChannelSummary>, front: seq<ChannelSummary>, next: seq<ChannelSummary>)
    ensures PutAll(m, ChannelWrites([])) == m
    ensures |next| == 1 ==>
              PutAll(m, ChannelWrites(front + next))
              == PutAll(m, ChannelWrites(front))[ChannelKeyOf(next[0]) := next[0]]
  {
    assert |next| == 1 ==> ChannelWrites(front + next)[..|front|] == ChannelWrites(front);
  }

  lemma {:induction false} StaleByNumber(g: Graph, a: Address, chs: seq<ChannelSummary>, numbers: set<int>)
    requires numbers == set j | 0 <= j < |chs| :: chs[j].number
    ensures StaleChannels(g, a, chs) == set k | k in g.channels && k.0 == a && k.1 !in numbers
  {
    forall n ensures LastWrite(Numbered(chs), n).None? <==> n !in numbers {
      if n in numbers {
        var j :| 0 <= j < |chs| && chs[j].number == n;
        assert Numbered(chs)[j].0 == n;
      }
    }
  }

  lemma {:induction false} StaleByParameter(g: Graph, a: Address, n: int, dps: seq<DpSummary>, incoming: set<DpKey>)
    requires incoming == set i | 0 <= i < |dps| :: (a, n, dps[i].parameter)
    ensures StaleDataPoints(g, a, n, dps)
         == set k | k in g.dataPoints && k.0 == a && k.1 == n && k !in incoming && k !in g.calculated
  {
    forall p ensures LastWrite(Named(dps), p).None? <==> (a, n, p) !in incoming {
      if (a, n, p) in incoming {
        var j :| 0 <= j < |dps| && (a, n, dps[j].parameter) == (a, n, p);
        assert Named(dps)[j].0 == p;
      }
    }
  }

  lemma {:induction false} DropNone(g: Graph)
    ensures DropChannels(g, {}) == g
  {
    assert Below(g.dataPoints, {}) == {};
  }

  lemma {:induction false} DropOne(g: Graph, key: ChannelKey)
    ensures var h := g.(channels := g.channels - {key});
            var stale := set k | k in h.dataPoints && k.0 == key.0 && k.1 == key.1;
            DropChannels(g, {key}) == h.(dataPoints := h.dataPoints - stale, calculated := h.calculated - stale)
  {
    assert Below(g.dataPoints, {key}) == set k | k in g.dataPoints && k.0 == key.0 && k.1 == key.1;
  }

  lemma {:induction false} BelowOneMore(dps: map<DpKey, DpSummary>, gone: set<ChannelKey>, key: ChannelKey)
    ensures Below(dps, gone + {key}) == Below(dps, gone) + Below(dps - Below(dps, gone), {key})
  {
  }

  lemma {:induction false} DropOneMore(g: Graph, gone: set<ChannelKey>, key: ChannelKey)
    ensures DropChannels(DropChannels(g, gone), {key}) == DropChannels(g, gone + {key})
  {
    hide Below;
    var a := Below(g.dataPoints, gone);
    BelowOneMore(g.dataPoints, gone, key);
    TakenTwice(g.dataPoints, a, Below(g.dataPoints - a, {key}));
    LeftTwice(g.calculated, a, Below(g.dataPoints - a, {key}));
    TakenTwice(g.channels, gone, {key});
  }

  lemma {:induction false} TakenTwice<K, V>(m: map<K, V>, a: set<K>, b: set<K>)
    ensures m - a - b == m - (a + b)
  {
  }

  lemma {:induction false} LeftTwice<K>(s: set<K>, a: set<K>, b: set<K>)
    ensures s - a - b == s - (a + b)
  {
  }

  lemma {:induction false} NothingWithout<K, C, H>(t: Table<K, C, H>)
    requires t.keyOf.Keys == t.primary.Keys
    ensures Without(t, {}) == t
  {
    DropAllIsWithout(t, []);
    assert Elements<K>([]) == {};
  }

  /** Whether a calculated catalogue of one channel names this data point. */
  ghost predicate Calculates(a: Address, n: int, calcs: seq<DpSummary>, k: DpKey) {
    exists i :: 0 <= i < |calcs| && (a, n, calcs[i].parameter) == k
  }

  lemma {:induction false} CalculatesSnoc(a: Address, n: int, calcs: seq<DpSummary>, last: DpSummary, k: DpKey)
    ensures Calculates(a, n, calcs + [last], k) <==> Calculates(a, n, calcs, k) || k == (a, n, last.parameter)
  {
    var more := calcs + [last];
    if Calculates(a, n, calcs, k) {
      var i :| 0 <= i < |calcs| && (a, n, calcs[i].parameter) == k;
      assert more[i] == calcs[i];
    } else if k == (a, n, last.parameter) {
      assert more[|calcs|] == last;
    }
  }

  lemma {:induction false} NamedSnoc(a: Address, n: int, calcs: seq<DpSummary>, last: DpSummary)
    ensures DpWrites(a, n, calcs + [last]) == DpWrites(a, n, calcs) + [((a, n, last.parameter), last)]
    ensures (set i | 0 <= i < |calcs + [last]| :: (a, n, (calcs + [last])[i].parameter))
         == (set i | 0 <= i < |calcs| :: (a, n, calcs[i].parameter)) + {(a, n, last.parameter)}
  {
    var more := calcs + [last];
    var was := set i | 0 <= i < |calcs| :: (a, n, calcs[i].parameter);
    var now := set i | 0 <= i < |more| :: (a, n, more[i].parameter);
    forall k ensures k in now <==> k in was || k == (a, n, last.parameter) {
      CalculatesSnoc(a, n, calcs, last, k);
      assert k in was <==> Calculates(a, n, calcs, k);
      assert k in now <==> Calculates(a, n, more, k);
    }
  }

  lemma {:induction false} CalculatedSnoc(g: Graph, a: Address, n: int, calcs: seq<DpSummary>, last: DpSummary)
    ensures var (h, key) := (AttachCalculated(g, a, n, calcs), (a, n, last.parameter));
            AttachCalculated(g, a, n, calcs + [last])
            == h.(dataPoints := h.dataPoints[key := last], calculated := h.calculated + {key})
    ensures forall k ::
              Calculates(a, n, calcs + [last], k) <==> Calculates(a, n, calcs, k) || k == (a, n, last.parameter)
  {
    hide Calculates;
    var more := DpWrites(a, n, calcs + [last]);
    NamedSnoc(a, n, calcs, last);
    hide DpWrites;
    assert more[..|more| - 1] == DpWrites(a, n, calcs);
    forall k
      ensures Calculates(a, n, calcs + [last], k) <==> Calculates(a, n, calcs, k) || k == (a, n, last.parameter)
    {
      CalculatesSnoc(a, n, calcs, last, k);
    }
  }

  lemma {:induction false} WithoutPrimary<K, C, H>(t: Table<K, C, H>, gone: set<K>)
    requires t.keyOf.Keys == t.primary.Keys
    ensures Without(t, gone).primary == t.primary - gone
  {
  }

  // ---- alarm panels and programs ----

  datatype PanelChanged = PanelChanged(
    uniqueId: string, zoneId: string, name: string, state: string, available: bool, removed: bool)

  /** The last entry of its panel in a catalogue. */
  ghost predicate LastPanel(entities: seq<PanelSummary>, i: nat) {
    i < |entities| && forall j :: i < j < |entities| ==> entities[j].uniqueId != entities[i].uniqueId
  }

  function PanelStub(push: PanelChanged): PanelSummary {
    PanelSummary(push.uniqueId, push.zoneId, push.name, push.state, push.available, [])
  }

  /** The zone a push names is taken for a new panel only. */
  function PanelsAfter(panels: map<string, PanelSummary>, push: PanelChanged): map<string, PanelSummary> {
    var uid := push.uniqueId;
    if push.removed then panels - {uid}
    else if uid in panels then
      panels[uid := panels[uid].(name := push.name, state := push.state, available := push.available)]
    else panels[uid := PanelStub(push)]
  }

  function PanelWrites(entities: seq<PanelSummary>): seq<(string, PanelSummary)> {
    seq(|entities|, i requires 0 <= i < |entities| => (entities[i].uniqueId, entities[i]))
  }

  function Zoned(entities: seq<PanelSummary>): seq<(string, string)> {
    seq(|entities|, i requires 0 <= i < |entities| => (entities[i].uniqueId, entities[i].zoneId))
  }

  function StalePanels(panels: map<string, PanelSummary>, entities: seq<PanelSummary>): set<string> {
    set uid | uid in panels && forall e <- entities :: e.uniqueId != uid
  }

  ghost function PanelScope(known: set<string>, entities: seq<PanelSummary>): set<string> {
    known + Names(Zoned(entities))
  }

  ghost function PanelSummaries(m: map<string, AlarmPanel>): map<string, PanelSummary>
    reads m.Values
  {
    map uid | uid in m :: m[uid].summary
  }

  ghost function ZoneOf(panels: map<string, PanelSummary>): map<string, string> {
    map uid | uid in panels :: panels[uid].zoneId
  }

  lemma {:induction false} ZoneOfUpdate(panels: map<string, PanelSummary>, uid: string, panel: PanelSummary)
    ensures ZoneOf(panels[uid := panel]) == ZoneOf(panels)[uid := panel.zoneId]
    ensures uid in panels && panels[uid].zoneId == panel.zoneId ==> ZoneOf(panels[uid := panel]) == ZoneOf(panels)
  {
  }

  /** A panel catalogue that pairs ids and zones up, and moves no known panel. */
  ghost predicate SteadyPanels(panels: map<string, PanelSummary>, entities: seq<PanelSummary>) {
    && (forall e <- entities, f <- entities :: e.uniqueId == f.uniqueId <==> e.zoneId == f.zoneId)
    && (forall e <- entities :: e.uniqueId in panels ==> panels[e.uniqueId].zoneId == e.zoneId)
  }

  /** A push that brings no new panel into a zone that has one. */
  ghost predicate SteadyPush(panels: map<string, PanelSummary>, push: PanelChanged) {
    push.removed || push.uniqueId in panels || forall uid <- panels :: panels[uid].zoneId != push.zoneId
  }

  lemma {:induction false} SteadyPanelsAgree<H>(
    was: Table<string, string, H>, now: Table<string, string, H>, panels: map<string, PanelSummary>,
    entities: seq<PanelSummary>)
    requires Agrees(was) && was.keyOf == ZoneOf(panels) && SteadyPanels(panels, entities)
    requires WellFormed(now) && now == Reconciled(was, PanelScope(panels.Keys, entities), Zoned(entities), now.primary)
    requires Names(Zoned(entities)) <= now.primary.Keys
    ensures Agrees(now)
  {
    hide Agrees, WellFormed, Reconciled, Stale;
    var scope, incoming := PanelScope(panels.Keys, entities), Zoned(entities);
    forall w | w in incoming ensures exists e :: e in entities && w == (e.uniqueId, e.zoneId) {
      var i :| 0 <= i < |incoming| && incoming[i] == w;
      assert entities[i] in entities;
    }
    assert was.keyOf.Keys == was.primary.Keys by { AgreesKeys(was); }
    FittingStepAgrees(was, Reconcile(scope, incoming, now.primary));
  }

  lemma {:induction false} DroppedAgrees<K, C, H>(t: Table<K, C, H>, k: K)
    requires Agrees(t)
    ensures Agrees(Dropped(t, k))
  {
    DropAllIsWithout(t, [k]);
    DropKeepsAgreement(t, Elements([k]));
    assert [k][..0] == [] && DropAll(t, [k]) == Dropped(t, k);
  }

  /** A new panel keeps the index exact if and only if its zone is free. */
  lemma {:induction false} StubAgreesExactlyWhenZoneIsFree<H>(
    t: Table<string, string, H>, panels: map<string, PanelSummary>, push: PanelChanged, h: H)
    requires Agrees(t) && t.keyOf == ZoneOf(panels) && push.uniqueId !in panels && h !in t.primary.Values
    ensures Agrees(Registered(t, push.uniqueId, push.zoneId, h)) <==>
              forall uid <- panels :: panels[uid].zoneId != push.zoneId
  {
    hide WellFormed;
    AgreesKeys(t);
    RegisterAgreesExactlyWhenUnclaimed(t, push.uniqueId, push.zoneId, h);
    LookupIsScan(t, push.zoneId);
    if push.zoneId in t.index {
      var uid :| uid in t.primary && Scan(t, push.zoneId) == {uid};
      assert uid in Scan(t, push.zoneId) && panels[uid].zoneId == push.zoneId;
    } else {
      forall uid | uid in panels ensures panels[uid].zoneId != push.zoneId {
        assert uid !in Scan(t, push.zoneId);
      }
    }
  }

  lemma {:induction false} NoPanels<H>(
    panels: map<string, PanelSummary>, t: Table<string, string, H>, built: map<string, H>)
    ensures PutAll(panels, PanelWrites([])) == panels
    ensures Merged(t, Zoned([]), built) == t && Names(Zoned([])) == {}
  {
  }

  lemma {:induction false} PanelPut(panels: map<string, PanelSummary>, front: seq<PanelSummary>, last: PanelSummary)
    ensures PutAll(panels, PanelWrites(front + [last])) == PutAll(panels, PanelWrites(front))[last.uniqueId := last]
  {
    assert PanelWrites(front + [last])[..|front|] == PanelWrites(front);
  }

  /** A catalogue: exactly the listed panels, each with its last entry. */
  lemma {:induction false} PanelsLand(panels: map<string, PanelSummary>, entities: seq<PanelSummary>)
    ensures var after := PutAll(panels - StalePanels(panels, entities), PanelWrites(entities));
            && (forall k :: k in after <==> exists e <- entities :: e.uniqueId == k)
            && (forall i: nat :: LastPanel(entities, i) ==> Get(after, entities[i].uniqueId) == Some(entities[i]))
  {
    var kept, writes := panels - StalePanels(panels, entities), PanelWrites(entities);
    var after := PutAll(kept, writes);
    forall k ensures k in after <==> exists e <- entities :: e.uniqueId == k {
      PutAllGet(kept, writes, k);
      if e :| e in entities && e.uniqueId == k {
        var i :| 0 <= i < |entities| && entities[i] == e;
        assert writes[i].0 == k && writes[i] in writes;
      }
      if LastWrite(writes, k).Some? {
        var i := LastWriteAt(writes, k);
        assert entities[i] in entities;
      }
    }
    forall i: nat | LastPanel(entities, i) ensures Get(after, entities[i].uniqueId) == Some(entities[i]) {
      LastWriteIs(writes, i);
      PutAllGet(kept, writes, entities[i].uniqueId);
    }
  }

  lemma {:induction false} PanelSnoc<H>(
    panels: map<string, PanelSummary>, t: Table<string, string, H>, front: seq<PanelSummary>, last: PanelSummary,
    known: set<string>, was: map<string, H>, now: map<string, H>)
    requires was.Keys == known + Names(Zoned(front)) && now.Keys == was.Keys + {last.uniqueId}
    requires forall k <- was :: now[k] == was[k]
    ensures PutAll(panels, PanelWrites(front + [last])) == PutAll(panels, PanelWrites(front))[last.uniqueId := last]
    ensures now.Keys == known + Names(Zoned(front + [last]))
    ensures Merged(t, Zoned(front + [last]), now)
         == Claimed(Merged(t, Zoned(front), was), last.uniqueId, last.zoneId, now)
  {
    hide PutAll, Merged, Claimed;
    PanelPut(panels, front, last);
    BuiltGrows(t, Zoned(front), was, now);
    assert Zoned(front + [last]) == Zoned(front) + [(last.uniqueId, last.zoneId)];
    MergedSnoc(t, Zoned(front), last.uniqueId, last.zoneId, now);
  }

  lemma {:induction false} StaleById<H>(
    panels: map<string, PanelSummary>, t: Table<string, string, H>, entities: seq<PanelSummary>)
    requires t.primary.Keys == panels.Keys
    ensures panels.Keys - (set e | e in entities :: e.uniqueId)
         == StalePanels(panels, entities) == Stale(t, PanelScope(panels.Keys, entities), Zoned(entities))
  {
    var incoming := set e | e in entities :: e.uniqueId;
    forall uid ensures uid in incoming <==> uid in Names(Zoned(entities)) {
      if uid in incoming {
        var e :| e in entities && e.uniqueId == uid;
        var i :| 0 <= i < |entities| && entities[i] == e;
        assert Zoned(entities)[i] in Zoned(entities);
      }
    }
  }

  function Flipped(p: ProgramSummary, active: bool, executeAvailable: bool, link: Option<string>): ProgramSummary {
    p.(active := active, executeAvailable := executeAvailable, link := OrElse(link, p.link))
  }

  /** What a catalogue claims: each name under its device, with its primary channel. */
  function Incoming(a: Address, summaries: seq<CdpSummary>): seq<(CdpKey, ChannelKey)> {
    seq(|summaries|, i requires 0 <= i < |summaries| => ((a, summaries[i].name), (a, summaries[i].channelNo)))
  }

  /** The names a catalogue read of a device settles: those it has and those it lists. */
  ghost function CdpScope(known: set<CdpKey>, a: Address, summaries: seq<CdpSummary>): set<CdpKey> {
    (set k | k in known && k.0 == a) + Names(Incoming(a, summaries))
  }

  /** One catalogue entry: a known object is re-keyed in place, a new one registered. */
  ghost function Claimed<K, C, H>(t: Table<K, C, H>, k: K, c: C, built: map<K, H>): Table<K, C, H> {
    if k in t.primary then Rekeyed(t, k, c) else if k in built then Registered(t, k, c, built[k]) else t
  }

  lemma {:induction false} MergedSnoc<K, C, H>(t: Table<K, C, H>, front: seq<(K, C)>, k: K, c: C, built: map<K, H>)
    ensures Merged(t, front + [(k, c)], built) == Claimed(Merged(t, front, built), k, c, built)
    ensures Names(front + [(k, c)]) == Names(front) + {k}
  {
    assert (front + [(k, c)])[..|front|] == front;
  }

  lemma {:induction false} IncomingSnoc<H>(
    t: Table<CdpKey, ChannelKey, H>, a: Address, front: seq<CdpSummary>, last: CdpSummary,
    known: set<CdpKey>, was: map<CdpKey, H>, now: map<CdpKey, H>)
    requires was.Keys == known + Names(Incoming(a, front)) && now.Keys == was.Keys + {(a, last.name)}
    requires forall k <- was :: now[k] == was[k]
    ensures now.Keys == known + Names(Incoming(a, front + [last]))
    ensures Merged(t, Incoming(a, front + [last]), now)
         == Claimed(Merged(t, Incoming(a, front), was), (a, last.name), (a, last.channelNo), now)
  {
    BuiltGrows(t, Incoming(a, front), was, now);
    assert Incoming(a, front + [last]) == Incoming(a, front) + [((a, last.name), (a, last.channelNo))];
    MergedSnoc(t, Incoming(a, front), (a, last.name), (a, last.channelNo), now);
  }

  lemma {:induction false} StaleByName<H>(
    g: Graph, t: Table<CdpKey, ChannelKey, H>, a: Address, summaries: seq<CdpSummary>)
    requires t.primary.Keys == g.cdps.Keys
    ensures var incoming := set s | s in summaries :: (a, s.name);
            var stale := set k | k in g.cdps && k.0 == a && k !in incoming;
            stale == StaleCdps(g, a, summaries) == Stale(t, CdpScope(g.cdps.Keys, a, summaries), Incoming(a, summaries))
  {
    var incoming := set s | s in summaries :: (a, s.name);
    forall k ensures k in incoming <==> k in Names(Incoming(a, summaries)) {
      if k in incoming {
        var s :| s in summaries && (a, s.name) == k;
        var i :| 0 <= i < |summaries| && summaries[i] == s;
        assert Incoming(a, summaries)[i] in Incoming(a, summaries);
      }
    }
    forall k | k in g.cdps && k.0 == a ensures k !in incoming <==> forall s <- summaries :: s.name != k.1 {
      if s :| s in summaries && s.name == k.1 {
        assert (a, s.name) == k;
      }
    }
  }

  /** A catalogue read that pairs names and channels up, and moves no known custom data point. */
  ghost predicate SteadyCdps(cdps: map<CdpKey, CdpRecord>, a: Address, summaries: seq<CdpSummary>) {
    && (forall s <- summaries, u <- summaries :: s.name == u.name <==> s.channelNo == u.channelNo)
    && (forall s <- summaries :: (a, s.name) in cdps ==> cdps[(a, s.name)].summary.channelNo == s.channelNo)
  }

  /** Such a read fits the index, so a lookup stays a scan. */
  lemma {:induction false} SteadyCdpsAgree<H>(
    was: Table<CdpKey, ChannelKey, H>, now: Table<CdpKey, ChannelKey, H>,
    cdps: map<CdpKey, CdpRecord>, a: Address, summaries: seq<CdpSummary>)
    requires Agrees(was) && was.keyOf == ChannelOf(cdps) && SteadyCdps(cdps, a, summaries)
    requires WellFormed(now)
    requires now == Reconciled(was, CdpScope(cdps.Keys, a, summaries), Incoming(a, summaries), now.primary)
    requires Names(Incoming(a, summaries)) <= now.primary.Keys
    ensures Agrees(now)
  {
    hide Agrees, WellFormed, Reconciled, Stale;
    var scope, incoming := CdpScope(cdps.Keys, a, summaries), Incoming(a, summaries);
    forall w | w in incoming ensures exists s :: s in summaries && w == ((a, s.name), (a, s.channelNo)) {
      var i :| 0 <= i < |incoming| && incoming[i] == w;
      assert summaries[i] in summaries;
    }
    assert was.keyOf.Keys == was.primary.Keys by { AgreesKeys(was); }
    FittingStepAgrees(was, Reconcile(scope, incoming, now.primary));
  }

  lemma {:induction false} AgreesKeys<K, C, H>(t: Table<K, C, H>)
    requires Agrees(t)
    ensures t.keyOf.Keys == t.primary.Keys
  {
  }

  lemma {:induction false} RemovedInSteps(g: Graph, a: Address)
    ensures var g1 := g.(devices := g.devices - {a});
            var g2 := DropChannels(g1, set k | k in g1.channels && k.0 == a);
            var g3 := g2.(cdps := g2.cdps - (set k | k in g2.cdps && k.0 == a));
            StoreGraph.ApplyDeviceRemoved(g, a) == g3.(weekProfiles := g3.weekProfiles - {a})
  {
  }

  lemma {:induction false} UpsertNone<H>(g: Graph, t: Table<CdpKey, ChannelKey, H>, a: Address, built: map<CdpKey, H>)
    ensures UpsertCdps(g, a, []) == g && Incoming(a, []) == []
    ensures Merged(t, Incoming(a, []), built) == t && Names(Incoming(a, [])) == {}
  {
  }

  lemma {:induction false} UpsertCdpsSnoc(g: Graph, a: Address, front: seq<CdpSummary>, last: CdpSummary)
    ensures UpsertCdps(g, a, front + [last]) == StoreGraph.UpsertCdp(UpsertCdps(g, a, front), a, last)
  {
    assert (front + [last])[..|front|] == front;
  }

  lemma {:induction false} BuiltGrows<K, C, H>(
    t: Table<K, C, H>, incoming: seq<(K, C)>, built: map<K, H>, more: map<K, H>)
    requires Names(incoming) <= built.Keys <= more.Keys && forall k <- built :: more[k] == built[k]
    ensures Merged(t, incoming, built) == Merged(t, incoming, more)
  {
    if incoming != [] {
      var front, last := incoming[..|incoming| - 1], incoming[|incoming| - 1];
      assert incoming == front + [last];
      assert Names(incoming) == Names(front) + {last.0};
      BuiltGrows(t, front, built, more);
    }
  }

  lemma {:induction false} InjectiveInsert<K, H>(m: map<K, H>, k: K, h: H)
    requires Injective(m) && k !in m && h !in m.Values
    ensures Injective(m[k := h])
  {
  }

  ghost function DeviceRecords(m: map<Address, Device>): map<Address, DeviceRecord>
    reads m.Values
  {
    map k | k in m :: m[k].Record()
  }

  ghost function ChannelSummaries(m: map<ChannelKey, Channel>): map<ChannelKey, ChannelSummary>
    reads m.Values
  {
    map k | k in m :: m[k].summary
  }

  ghost function DpSummaries(m: map<DpKey, DataPoint>): map<DpKey, DpSummary>
    reads m.Values
  {
    map k | k in m :: m[k].summary
  }

  ghost function CdpRecords(m: map<CdpKey, CustomDataPoint>): map<CdpKey, CdpRecord>
    reads m.Values
  {
    map k | k in m :: m[k].Record()
  }

  type Profiles = map<bool, WeekProfileDataPoint>

  function ProfilesOf(m: map<Address, Profiles>, a: Address): Profiles {
    if a in m then m[a] else map[]
  }

  /** Which kinds of week profile each device has registered. */
  function ProfileKinds(m: map<Address, Profiles>): map<Address, set<bool>> {
    map a | a in m :: m[a].Keys
  }

  lemma {:induction false} ProfileRegistered(
    m: map<Address, Profiles>, a: Address, climate: bool, dataPoint: WeekProfileDataPoint)
    ensures var kinds := ProfileKinds(m);
            ProfileKinds(m[a := ProfilesOf(m, a)[climate := dataPoint]])
            == kinds[a := (if a in kinds then kinds[a] else {}) + {climate}]
  {
    var kinds := ProfileKinds(m);
    assert (if a in kinds then kinds[a] else {}) == ProfilesOf(m, a).Keys;
    assert ProfilesOf(m, a)[climate := dataPoint].Keys == ProfilesOf(m, a).Keys + {climate};
  }

  /** The primary channel each custom data point currently has. */
  ghost function ChannelOf(records: map<CdpKey, CdpRecord>): map<CdpKey, ChannelKey> {
    map k | k in records :: (k.0, records[k].summary.channelNo)
  }

  lemma {:induction false} ChannelOfUpdate(records: map<CdpKey, CdpRecord>, key: CdpKey, record: CdpRecord)
    ensures ChannelOf(records[key := record]) == ChannelOf(records)[key := (key.0, record.summary.channelNo)]
    ensures key in records && records[key].summary.channelNo == record.summary.channelNo ==>
              ChannelOf(records[key := record]) == ChannelOf(records)
  {
  }

  lemma {:induction false} CdpAdded(m: map<CdpKey, CustomDataPoint>, key: CdpKey, cdp: CustomDataPoint)
    requires Injective(m) && key !in m && cdp !in m.Values
    ensures Injective(m[key := cdp])
    ensures CdpRecords(m[key := cdp]) == CdpRecords(m)[key := cdp.Record()]
  {
    InjectiveInsert(m, key, cdp);
  }

  class LoomStore {
    const maxDevices: nat
    var deviceCapWarned: bool
    var devices: map<Address, Device>
    var channels: map<ChannelKey, Channel>
    var dataPoints: map<DpKey, DataPoint>
    var calculatedDpKeys: set<DpKey>
    var cdps: map<CdpKey, CustomDataPoint>
    var cdpByChannel: map<ChannelKey, CustomDataPoint>
    var weekProfiles: map<Address, Profiles>
    var calculatedFactory: bool
    var alarmPanels: map<string, AlarmPanel>
    var alarmPanelByZone: map<string, AlarmPanel>
    var programs: map<string, Program>
    var programDps: map<string, seq<Program>>
    var programFactory: bool

    ghost function View(): Graph
      reads this`devices, this`channels, this`dataPoints, this`calculatedDpKeys, this`cdps, this`weekProfiles
      reads devices.Values, channels.Values, dataPoints.Values, cdps.Values
    {
      Graph(maxDevices, DeviceRecords(devices), ChannelSummaries(channels), DpSummaries(dataPoints),
            calculatedDpKeys, CdpRecords(cdps), ProfileKinds(weekProfiles))
    }

    ghost function Held(): Holdings reads this`devices, this`channels, this`dataPoints, this`cdps {
      Holdings(devices, channels, dataPoints, cdps)
    }

    lemma HeldDicts()
      ensures Held() == Holdings(devices, channels, dataPoints, cdps)
    {
    }

    lemma ViewKeys()
      ensures View().devices.Keys == devices.Keys && View().channels.Keys == channels.Keys
      ensures View().dataPoints.Keys == dataPoints.Keys && View().cdps.Keys == cdps.Keys
    {
    }

    lemma TableKeys()
      requires Valid()
      ensures CdpTable().keyOf == ChannelOf(View().cdps) && WellFormed(CdpTable())
    {
    }

    lemma PanelKeys()
      requires PanelsValid()
      ensures PanelTable().keyOf == ZoneOf(Panels()) && Panels().Keys == alarmPanels.Keys && WellFormed(PanelTable())
    {
    }

    /** No two keys share an object. */
    ghost predicate Valid() reads this`devices, this`channels, this`dataPoints, this`cdps {
      Injective(devices) && Injective(channels) && Injective(dataPoints) && Injective(cdps)
    }

    constructor (maxDevices: nat)
      ensures Valid() && View() == EmptyGraph(maxDevices)
      ensures PanelsValid() && ProgramsValid()
      ensures Agrees(CdpTable()) && Agrees(PanelTable())
    {
      alarmPanels, alarmPanelByZone := map[], map[];
      programs, programDps, programFactory := map[], map[], false;
      this.maxDevices, deviceCapWarned, calculatedFactory := maxDevices, false, false;
      devices, channels, dataPoints, calculatedDpKeys := map[], map[], map[], {};
      cdps, cdpByChannel, weekProfiles := map[], map[], map[];
    }

    // ---- devices ----

    method CanAdmitDevice(address: Address) returns (admit: bool)
      modifies this`deviceCapWarned
      ensures admit == CanAdmit(View(), address)
      ensures admit <==> address in devices || |devices| < maxDevices
      ensures deviceCapWarned == (old(deviceCapWarned) || !admit)
    {
      assert DeviceRecords(devices).Keys == devices.Keys;
      assert |DeviceRecords(devices)| == |DeviceRecords(devices).Keys| == |devices|;
      if address in devices || |devices| < maxDevices {
        return true;
      }
      if !deviceCapWarned {
        deviceCapWarned := true;
      }
      return false;
    }

    /** Puts a new object under an address the store does not know. */
    method AddDevice(summary: DeviceSummary) returns (device: Device)
      requires Valid() && summary.address !in devices
      modifies this`devices
      ensures Valid() && devices == old(devices)[summary.address := device] && fresh(device)
      ensures device.Record() == DeviceRecord(summary, None, None)
      ensures var record := DeviceRecord(summary, None, None);
              View() == old(View()).(devices := old(View()).devices[summary.address := record])
    {
      device := new Device(summary);
      InjectiveInsert(devices, summary.address, device);
      devices := devices[summary.address := device];
      assert DeviceRecords(devices) == old(DeviceRecords(devices))[summary.address := device.Record()];
    }

    method UpsertDeviceSummary(summary: DeviceSummary) returns (device: Device?)
      requires Valid()
      modifies this`devices, this`deviceCapWarned, devices.Values
      ensures Valid() && View() == UpsertDevice(old(View()), summary)
      ensures device != null <==> CanAdmit(old(View()), summary.address)
      ensures device != null ==> summary.address in devices && devices[summary.address] == device
      ensures device == null <==> summary.address !in old(devices) && |old(devices)| >= maxDevices
      ensures device != null ==>
                device.Record()
                == if summary.address in old(devices)
                   then DeviceRecord(summary, old(devices[summary.address].firmware),
                                     old(devices[summary.address].availability))
                   else DeviceRecord(summary, None, None)
      ensures old(devices.Keys) <= devices.Keys
      ensures forall k <- devices :: if k in old(devices) then devices[k] == old(devices)[k] else fresh(devices[k])
    {
      if summary.address !in devices {
        var admit := CanAdmitDevice(summary.address);
        if !admit {
          return null;
        }
        device := AddDevice(summary);
      } else {
        device := UpdateDevice(summary);
      }
    }

    /** A known device takes the summary and keeps its detail. */
    method UpdateDevice(summary: DeviceSummary) returns (device: Device)
      requires Valid() && summary.address in devices
      modifies devices.Values
      ensures View() == UpsertDevice(old(View()), summary) && summary.address in View().devices
      ensures device == devices[summary.address]
      ensures device.Record() == DeviceRecord(summary, old(devices[summary.address].firmware),
                                              old(devices[summary.address].availability))
    {
      device := devices[summary.address];
      device.summary := summary;
      assert DeviceRecords(devices) == old(DeviceRecords(devices))[summary.address := device.Record()];
    }

    method LoadSnapshot(summaries: seq<DeviceSummary>)
      requires Valid()
      modifies this`devices, this`deviceCapWarned, devices.Values
      ensures Valid() && View() == LoadDevices(old(View()), summaries)
      ensures old(devices.Keys) <= devices.Keys
      ensures forall k <- devices :: if k in old(devices) then devices[k] == old(devices)[k] else fresh(devices[k])
    {
      for i := 0 to |summaries|
        invariant Valid() && View() == LoadDevices(old(View()), summaries[..i])
        invariant old(devices.Keys) <= devices.Keys
        invariant forall k <- devices :: if k in old(devices) then devices[k] == old(devices)[k] else fresh(devices[k])
      {
        hide UpsertDevice, DeviceRecords, ChannelSummaries, DpSummaries, CdpRecords, Injective;
        var _ := UpsertDeviceSummary(summaries[i]);
        assert summaries[..i + 1][..i] == summaries[..i];
      }
      assert summaries[..|summaries|] == summaries;
    }

    method ApplyDeviceCreated(address: Address)
      requires Valid()
      modifies this`devices, this`deviceCapWarned
      ensures Valid() && View() == StoreGraph.ApplyDeviceCreated(old(View()), address)
      ensures address in old(devices) || |old(devices)| >= maxDevices ==> devices == old(devices)
      ensures address !in old(devices) && |old(devices)| < maxDevices ==>
                && devices.Keys == old(devices.Keys) + {address}
                && devices[address].Record()
                   == DeviceRecord(DeviceSummary(address, address, true, "", Availability(true, None)), None, None)
      ensures old(devices.Keys) <= devices.Keys
      ensures forall k <- devices :: if k in old(devices) then devices[k] == old(devices)[k] else fresh(devices[k])
    {
      hide *;
      CreatedAsStub(View(), address);
      ViewKeys();
      if address in devices {
        return;
      }
      var admit := CanAdmitDevice(address);
      if !admit {
        return;
      }
      var _ := AddDevice(Stub(address));
    }

    method ApplyDeviceAvailabilityChanged(address: Address, available: bool)
      requires Valid()
      modifies devices.Values
      ensures View() == ApplyAvailabilityChanged(old(View()), address, available)
      ensures forall k <- devices ::
                && devices[k].firmware == old(devices[k].firmware)
                && devices[k].availability == old(devices[k].availability)
                && devices[k].summary
                   == if k == address then old(devices[k].summary).(available := available) else old(devices[k].summary)
    {
      if address !in devices {
        return;
      }
      var device := devices[address];
      if device.summary.available == available {
        assert View() == ApplyAvailabilityChanged(View(), address, available);
        return;
      }
      device.summary := device.summary.(available := available);
      assert DeviceRecords(devices) == old(DeviceRecords(devices))[address := device.Record()];
    }

    method ApplyDeviceRefreshed(address: Address, refreshedAt: int)
      requires Valid()
      modifies devices.Values
      ensures View() == ApplyRefreshed(old(View()), address, refreshedAt)
      ensures forall k <- devices ::
                var was := old(devices[k].availability);
                if && k == address && was.Some?
                   && (was.value.lastRefreshed.None? || was.value.lastRefreshed.value < refreshedAt)
                then
                  var moved := Availability(was.value.reachable, Some(refreshedAt));
                  && devices[k].summary == old(devices[k].summary).(availability := moved)
                  && devices[k].firmware == old(devices[k].firmware) && devices[k].availability == Some(moved)
                else devices[k].Record() == old(devices[k].Record())
    {
      if address !in devices {
        return;
      }
      var device := devices[address];
      if device.availability.None? {
        return;
      }
      var record := device.availability.value;
      if record.lastRefreshed.Some? && record.lastRefreshed.value >= refreshedAt {
        return;
      }
      device.ReplaceAvailability(record.(lastRefreshed := Some(refreshedAt)));
      assert DeviceRecords(devices) == old(DeviceRecords(devices))[address := device.Record()];
    }

    // ---- channels ----

    method UpsertChannel(summary: ChannelSummary)
      requires Valid()
      modifies this`channels, channels.Values
      ensures Valid()
      ensures View() == old(View()).(channels := old(View()).channels[ChannelKeyOf(summary) := summary])
      ensures old(channels.Keys) <= channels.Keys
      ensures forall k <- channels :: if k in old(channels) then channels[k] == old(channels)[k] else fresh(channels[k])
    {
      var key := (DeviceOf(summary.address), summary.number);
      if key !in channels {
        var created := new Channel(summary);
        InjectiveInsert(channels, key, created);
        channels := channels[key := created];
      } else {
        var existing := channels[key];
        existing.summary := summary;
      }
      assert ChannelSummaries(channels) == old(ChannelSummaries(channels))[key := summary];
    }

    /** Deletes data points, generic and calculated. */
    method DeleteDataPoints(stale: set<DpKey>)
      requires Valid()
      modifies this`dataPoints, this`calculatedDpKeys
      ensures Valid() && Within(dataPoints, old(dataPoints))
      ensures View() == old(View()).(dataPoints := old(View()).dataPoints - stale,
                                     calculated := old(View()).calculated - stale)
    {
      hide DeviceRecords, ChannelSummaries, CdpRecords, ProfileKinds;
      var left := stale;
      while left != {}
        invariant left <= stale
        invariant dataPoints == old(dataPoints) - (stale - left)
        invariant calculatedDpKeys == old(calculatedDpKeys) - (stale - left)
        decreases |left|
      {
        var k :| k in left;
        dataPoints := dataPoints - {k};
        calculatedDpKeys := calculatedDpKeys - {k};
        left := left - {k};
      }
      assert stale - left == stale;
      assert DpSummaries(dataPoints) == old(DpSummaries(dataPoints)) - stale;
    }

    method PopChannel(key: ChannelKey)
      requires Valid()
      modifies this`channels
      ensures Valid() && View() == old(View()).(channels := old(View()).channels - {key})
      ensures Within(channels, old(channels))
    {
      channels := channels - {key};
      assert ChannelSummaries(channels) == old(ChannelSummaries(channels)) - {key};
    }

    method DropChannel(key: ChannelKey)
      requires Valid()
      modifies this`channels, this`dataPoints, this`calculatedDpKeys
      ensures Valid() && View() == DropChannels(old(View()), {key})
      ensures Within(channels, old(channels)) && Within(dataPoints, old(dataPoints))
    {
      hide View, Valid, DropChannels;
      DropOne(View(), key);
      PopChannel(key);
      ViewKeys();
      DeleteDataPoints(set k | k in dataPoints && k.0 == key.0 && k.1 == key.1);
    }

    /** The device part of a detail record; false when the cap refuses the device. */
    method AttachRecord(summary: DeviceSummary) returns (admitted: bool)
      requires Valid()
      modifies this`devices, this`deviceCapWarned, devices.Values
      ensures Valid() && admitted == CanAdmit(old(View()), summary.address)
      ensures admitted <==> summary.address in old(devices) || |old(devices)| < maxDevices
      ensures admitted ==>
                && summary.address in devices
                && devices[summary.address].Record()
                   == DeviceRecord(summary, Some(summary.firmware), Some(summary.availability))
      ensures var record := DeviceRecord(summary, Some(summary.firmware), Some(summary.availability));
              View() == if admitted then old(View()).(devices := old(View()).devices[summary.address := record])
                        else old(View())
      ensures forall k <- devices :: if k in old(devices) then devices[k] == old(devices)[k] else fresh(devices[k])
    {
      hide *;
      DetailOnUpserted(View(), summary);
      var device := UpsertDeviceSummary(summary);
      if device == null {
        return false;
      }
      RecordedSummary(device);
      AttachDetailTo(summary.address, summary.firmware, summary.availability);
      return true;
    }

    lemma RecordedSummary(device: Device)
      ensures device.Record().summary == device.summary
    {
    }

    method AttachDetailTo(address: Address, firmware: string, availability: Availability)
      requires Valid() && address in devices
      modifies devices.Values
      ensures address in old(View()).devices
      ensures devices[address].Record()
           == DeviceRecord(old(devices[address].summary), Some(firmware), Some(availability))
      ensures var record := DeviceRecord(old(View()).devices[address].summary, Some(firmware), Some(availability));
              View() == old(View()).(devices := old(View()).devices[address := record])
    {
      var device := devices[address];
      device.AttachDetail(firmware, availability);
      assert DeviceRecords(devices) == old(DeviceRecords(devices))[address := device.Record()];
    }

    /** Updates the device and its channels in place, builds the new ones and drops the vanished ones. */
    method AttachDeviceDetail(summary: DeviceSummary, chs: seq<ChannelSummary>)
      requires Valid()
      modifies this`devices, this`deviceCapWarned, this`channels, this`dataPoints, this`calculatedDpKeys
      modifies devices.Values, channels.Values
      ensures Valid() && View() == AttachDetail(old(View()), summary, chs)
      ensures if summary.address in old(devices) || |old(devices)| < maxDevices
              then
                && summary.address in devices
                && devices[summary.address].Record()
                   == DeviceRecord(summary, Some(summary.firmware), Some(summary.availability))
              else View() == old(View())
      ensures Within(dataPoints, old(dataPoints))
      ensures forall k <- devices :: if k in old(devices) then devices[k] == old(devices)[k] else fresh(devices[k])
      ensures forall k <- channels :: if k in old(channels) then channels[k] == old(channels)[k] else fresh(channels[k])
    {
      hide DeviceRecords, ChannelSummaries, DpSummaries, CdpRecords, Injective, PutAll, ChannelWrites, DropChannels,
           StaleChannels, DeviceOf;
      var admitted := AttachRecord(summary);
      if !admitted {
        return;
      }
      var newNumbers := UpsertChannels(chs);
      DropVanished(summary.address, chs, newNumbers);
    }

    method UpsertChannels(chs: seq<ChannelSummary>) returns (newNumbers: set<int>)
      requires Valid()
      modifies this`channels, channels.Values
      ensures Valid() && View() == old(View()).(channels := PutAll(old(View()).channels, ChannelWrites(chs)))
      ensures newNumbers == set j | 0 <= j < |chs| :: chs[j].number
      ensures old(channels.Keys) <= channels.Keys
      ensures forall k <- channels :: if k in old(channels) then channels[k] == old(channels)[k] else fresh(channels[k])
    {
      newNumbers := {};
      hide *;
      ChannelsSnoc(View().channels, [], chs);
      assert chs[..0] == [];
      for i := 0 to |chs|
        invariant Valid()
        invariant View() == old(View()).(channels := PutAll(old(View()).channels, ChannelWrites(chs[..i])))
        invariant newNumbers == set j | 0 <= j < i :: chs[j].number
        invariant old(channels.Keys) <= channels.Keys
        invariant forall k <- channels ::
                  if k in old(channels) then channels[k] == old(channels)[k] else fresh(channels[k])
      {
        UpsertChannel(chs[i]);
        newNumbers := newNumbers + {chs[i].number};
        ChannelsSnoc(old(View()).channels, chs[..i], [chs[i]]);
        assert chs[..i + 1] == chs[..i] + [chs[i]];
      }
      assert chs[..|chs|] == chs;
    }

    /** The garbage collection at the end of a detail attach. */
    method DropVanished(address: Address, ghost chs: seq<ChannelSummary>, newNumbers: set<int>)
      requires Valid() && newNumbers == set j | 0 <= j < |chs| :: chs[j].number
      modifies this`channels, this`dataPoints, this`calculatedDpKeys
      ensures Valid() && View() == DropChannels(old(View()), StaleChannels(old(View()), address, chs))
      ensures Within(channels, old(channels)) && Within(dataPoints, old(dataPoints))
    {
      var stale := set k | k in channels && k.0 == address && k.1 !in newNumbers;
      StaleByNumber(View(), address, chs, newNumbers);
      assert stale == StaleChannels(View(), address, chs);
      DropEach(stale);
    }

    method DropEach(stale: set<ChannelKey>)
      requires Valid()
      modifies this`channels, this`dataPoints, this`calculatedDpKeys
      ensures Valid() && View() == DropChannels(old(View()), stale)
      ensures Within(channels, old(channels)) && Within(dataPoints, old(dataPoints))
    {
      var left := stale;
      DropNone(View());
      while left != {}
        invariant left <= stale
        invariant Valid() && View() == DropChannels(old(View()), stale - left)
        invariant Within(channels, old(channels)) && Within(dataPoints, old(dataPoints))
        decreases |left|
      {
        hide DropChannels, DeviceRecords, ChannelSummaries, DpSummaries, CdpRecords, Injective;
        var key :| key in left;
        DropOneMore(old(View()), stale - left, key);
        assert stale - (left - {key}) == stale - left + {key};
        DropChannel(key);
        left := left - {key};
      }
      assert stale - left == stale;
    }

    // ---- data points ----

    /** Reconciles the generic data points of one channel in place; the calculated ones stay. */
    method AttachChannelDataPoints(address: Address, number: int, dps: seq<DpSummary>)
      requires Valid()
      modifies this`dataPoints, dataPoints.Values
      ensures Valid() && View() == AttachDataPoints(old(View()), address, number, dps)
      ensures forall k <- dataPoints ::
                if k in old(dataPoints) then dataPoints[k] == old(dataPoints)[k] else fresh(dataPoints[k])
    {
      hide DeviceRecords, ChannelSummaries, DpSummaries, CdpRecords, Injective, StaleDataPoints, PutAll, DpWrites;
      var incoming := set i | 0 <= i < |dps| :: (address, number, dps[i].parameter);
      SweepStale(address, number, dps, incoming);
      UpsertDataPoints(address, number, dps, incoming);
    }

    /** Deletes the generic data points the catalogue no longer lists. */
    method SweepStale(address: Address, number: int, ghost dps: seq<DpSummary>, incoming: set<DpKey>)
      requires Valid() && incoming == set i | 0 <= i < |dps| :: (address, number, dps[i].parameter)
      modifies this`dataPoints
      ensures Valid()
      ensures var stale := StaleDataPoints(old(View()), address, number, dps);
              View() == old(View()).(dataPoints := old(View()).dataPoints - stale)
      ensures Within(dataPoints, old(dataPoints)) && (old(dataPoints.Keys) - dataPoints.Keys) !! incoming
    {
      var stale := set k |
        k in dataPoints && k.0 == address && k.1 == number && k !in incoming && k !in calculatedDpKeys;
      StaleByParameter(View(), address, number, dps, incoming);
      assert stale == StaleDataPoints(View(), address, number, dps);
      dataPoints := dataPoints - stale;
      assert DpSummaries(dataPoints) == old(View()).dataPoints - stale;
    }

    method UpsertDataPoints(address: Address, number: int, dps: seq<DpSummary>, ghost incoming: set<DpKey>)
      requires Valid() && incoming == set i | 0 <= i < |dps| :: (address, number, dps[i].parameter)
      modifies this`dataPoints, dataPoints.Values
      ensures Valid()
      ensures View() == old(View()).(dataPoints := PutAll(old(View()).dataPoints, DpWrites(address, number, dps)))
      ensures old(dataPoints.Keys) <= dataPoints.Keys <= old(dataPoints.Keys) + incoming
      ensures forall k <- dataPoints ::
                if k in old(dataPoints) then dataPoints[k] == old(dataPoints)[k] else fresh(dataPoints[k])
    {
      for i := 0 to |dps|
        invariant Valid()
        invariant View()
               == old(View()).(dataPoints := PutAll(old(View()).dataPoints, DpWrites(address, number, dps[..i])))
        invariant old(dataPoints.Keys) <= dataPoints.Keys <= old(dataPoints.Keys) + incoming
        invariant forall k <- dataPoints ::
                  if k in old(dataPoints) then dataPoints[k] == old(dataPoints)[k] else fresh(dataPoints[k])
      {
        hide DeviceRecords, ChannelSummaries, DpSummaries, CdpRecords, Injective;
        UpsertDataPoint((address, number, dps[i].parameter), dps[i]);
        assert DpWrites(address, number, dps[..i + 1])[..i] == DpWrites(address, number, dps[..i]);
      }
      assert dps[..|dps|] == dps;
    }

    /** One parameter of a catalogue: a surviving data point takes the summary, a new one is built. */
    method UpsertDataPoint(key: DpKey, summary: DpSummary)
      requires Valid()
      modifies this`dataPoints, dataPoints.Values
      ensures Valid() && View() == old(View()).(dataPoints := old(View()).dataPoints[key := summary])
      ensures old(dataPoints.Keys) <= dataPoints.Keys
      ensures forall k <- dataPoints ::
                if k in old(dataPoints) then dataPoints[k] == old(dataPoints)[k] else fresh(dataPoints[k])
      ensures dataPoints.Keys == old(dataPoints.Keys) + {key}
    {
      hide DeviceRecords, ChannelSummaries, CdpRecords, ProfileKinds;
      if key !in dataPoints {
        var created := new DataPoint(summary, None);
        InjectiveInsert(dataPoints, key, created);
        dataPoints := dataPoints[key := created];
      } else {
        var existing := dataPoints[key];
        existing.summary := summary;
      }
      assert DpSummaries(dataPoints) == old(DpSummaries(dataPoints))[key := summary];
    }

    method ApplyValueChanged(push: ValueChanged)
      requires Valid()
      modifies dataPoints.Values
      ensures View() == StoreGraph.ApplyValueChanged(old(View()), push)
      ensures forall k <- dataPoints ::
                && dataPoints[k].calculatedAvailable == old(dataPoints[k].calculatedAvailable)
                && dataPoints[k].summary
                   == if k != push.key then old(dataPoints[k].summary)
                      else DpSummary(old(dataPoints[k].summary.parameter), push.value, push.displayValue, true,
                                     push.modifiedAt, push.modifiedAt, push.modifiedAt)
    {
      if push.key !in dataPoints {
        return;
      }
      var dp := dataPoints[push.key];
      dp.summary := Pushed(dp.summary, push);
      assert DpSummaries(dataPoints) == old(DpSummaries(dataPoints))[push.key := dp.summary];
    }

    /** Rebuilds the calculated data points of a channel and marks their keys; nothing happens without a factory. */
    method AttachChannelCalculatedDataPoints(address: Address, number: int, calcs: seq<DpSummary>)
      requires Valid()
      modifies this`dataPoints, this`calculatedDpKeys
      ensures Valid()
      ensures View() == if calculatedFactory then AttachCalculated(old(View()), address, number, calcs) else old(View())
      ensures old(dataPoints.Keys) <= dataPoints.Keys && (calculatedFactory || dataPoints == old(dataPoints))
      ensures calculatedFactory ==> forall k <- dataPoints ::
                if k in old(dataPoints) && !Calculates(address, number, calcs, k)
                then dataPoints[k] == old(dataPoints)[k]
                else fresh(dataPoints[k])
    {
      if !calculatedFactory {
        return;
      }
      for i := 0 to |calcs|
        invariant Valid() && calculatedFactory && old(dataPoints.Keys) <= dataPoints.Keys
        invariant View() == AttachCalculated(old(View()), address, number, calcs[..i])
        invariant forall k <- dataPoints ::
                    if k in old(dataPoints) && !Calculates(address, number, calcs[..i], k)
                    then dataPoints[k] == old(dataPoints)[k]
                    else fresh(dataPoints[k])
        modifies this`dataPoints, this`calculatedDpKeys
      {
        hide DeviceRecords, ChannelSummaries, DpSummaries, CdpRecords, Injective, PutAll, DpWrites;
        AddCalculated((address, number, calcs[i].parameter), calcs[i]);
        CalculatedSnoc(old(View()), address, number, calcs[..i], calcs[i]);
        assert calcs[..i + 1] == calcs[..i] + [calcs[i]];
      }
      assert calcs[..|calcs|] == calcs;
    }

    method AddCalculated(key: DpKey, summary: DpSummary)
      requires Valid()
      modifies this`dataPoints, this`calculatedDpKeys
      ensures Valid()
      ensures View() == old(View()).(dataPoints := old(View()).dataPoints[key := summary],
                                     calculated := old(View()).calculated + {key})
      ensures key in dataPoints && fresh(dataPoints[key]) && dataPoints == old(dataPoints)[key := dataPoints[key]]
    {
      hide DeviceRecords, ChannelSummaries, CdpRecords, ProfileKinds;
      var fromFactory: Option<bool> := *;
      var created := new DataPoint(summary, fromFactory);
      dataPoints := dataPoints[key := created];
      calculatedDpKeys := calculatedDpKeys + {key};
      assert DpSummaries(dataPoints) == old(DpSummaries(dataPoints))[key := summary];
    }

    // ---- custom data points ----

    /** The custom data points with their channel index. */
    ghost function CdpTable(): (t: Table<CdpKey, ChannelKey, CustomDataPoint>)
      reads this`cdps, this`cdpByChannel, cdps.Values
      ensures t.primary == cdps && t.keyOf.Keys == t.primary.Keys
    {
      Table(cdps, ChannelOf(CdpRecords(cdps)), cdpByChannel)
    }

    method RegisterCdp(key: CdpKey, cdp: CustomDataPoint)
      requires Valid() && key !in cdps && cdp !in cdps.Values
      modifies this`cdps, this`cdpByChannel
      ensures Valid() && cdps == old(cdps)[key := cdp]
      ensures CdpTable() == Registered(old(CdpTable()), key, (key.0, cdp.summary.channelNo), cdp)
      ensures View() == old(View()).(cdps := old(View()).cdps[key := cdp.Record()])
    {
      hide View, Valid, CdpRecords, ChannelOf, Injective;
      AddCdp(key, cdp);
      cdpByChannel := cdpByChannel[(key.0, cdp.summary.channelNo) := cdp];
    }

    method AddCdp(key: CdpKey, cdp: CustomDataPoint)
      requires Valid() && key !in cdps && cdp !in cdps.Values
      modifies this`cdps
      ensures Valid() && cdps == old(cdps)[key := cdp]
      ensures ChannelOf(CdpRecords(cdps)) == old(ChannelOf(CdpRecords(cdps)))[key := (key.0, cdp.summary.channelNo)]
      ensures View() == old(View()).(cdps := old(View()).cdps[key := cdp.Record()])
    {
      CdpAdded(cdps, key, cdp);
      ChannelOfUpdate(CdpRecords(cdps), key, cdp.Record());
      hide DeviceRecords, ChannelSummaries, DpSummaries, CdpRecords, ChannelOf, Injective;
      cdps := cdps[key := cdp];
    }

    method DropCdp(key: CdpKey)
      requires Injective(cdps)
      modifies this`cdps, this`cdpByChannel
      ensures Injective(cdps) && cdps == old(cdps) - {key}
      ensures CdpTable() == Dropped(old(CdpTable()), key)
    {
      if key !in cdps {
        assert cdps - {key} == cdps;
        return;
      }
      var cdp := cdps[key];
      cdps := cdps - {key};
      cdpByChannel := cdpByChannel - {(key.0, cdp.summary.channelNo)};
      assert CdpTable().keyOf == old(CdpTable()).keyOf - {key};
    }

    /** Drops a set of custom data points, one after the other. */
    method DropEachCdp(stale: set<CdpKey>)
      requires Injective(cdps)
      modifies this`cdps, this`cdpByChannel
      ensures Injective(cdps) && cdps == old(cdps) - stale
      ensures CdpTable() == Without(old(CdpTable()), stale)
    {
      hide Injective, CdpTable, Without, Dropped;
      var left := stale;
      assert stale - left == {};
      NothingWithout(CdpTable());
      while left != {}
        invariant left <= stale
        invariant Injective(cdps) && CdpTable() == Without(old(CdpTable()), stale - left)
        decreases |left|
      {
        var key :| key in left;
        WithoutOneMore(old(CdpTable()), stale - left, key);
        assert stale - (left - {key}) == stale - left + {key};
        DropCdp(key);
        left := left - {key};
      }
      assert stale - left == stale;
      WithoutPrimary(old(CdpTable()), stale);
    }

    method DropCdps(stale: set<CdpKey>)
      requires Valid()
      modifies this`cdps, this`cdpByChannel
      ensures Valid() && cdps == old(cdps) - stale
      ensures CdpTable() == Without(old(CdpTable()), stale)
      ensures View() == old(View()).(cdps := old(View()).cdps - stale)
    {
      hide Injective, CdpTable, Without, DeviceRecords, ChannelSummaries, DpSummaries;
      DropEachCdp(stale);
      assert CdpRecords(cdps) == old(CdpRecords(cdps)) - stale;
    }

    method ApplyCustomDataPointStateChanged(key: CdpKey, state: CdpState)
      requires Valid()
      modifies cdps.Values
      ensures View() == ApplyCdpState(old(View()), key, state) && CdpTable() == old(CdpTable())
      ensures forall k <- cdps ::
                cdps[k].Record()
                == if k == key then CdpRecord(old(cdps[k].summary), state, old(cdps[k].applyGeneration) + 1)
                   else old(cdps[k].Record())
    {
      if key !in cdps {
        return;
      }
      WriteCdpState(key, state);
    }

    method WriteCdpState(key: CdpKey, state: CdpState)
      requires Valid() && key in cdps
      modifies cdps.Values
      ensures View() == ApplyCdpState(old(View()), key, state) && CdpTable() == old(CdpTable())
      ensures forall k <- cdps ::
                cdps[k].Record()
                == if k == key then CdpRecord(old(cdps[k].summary), state, old(cdps[k].applyGeneration) + 1)
                   else old(cdps[k].Record())
    {
      hide DeviceRecords, ChannelSummaries, DpSummaries, ChannelOf;
      var cdp := cdps[key];
      cdp.ReplaceState(state);
      assert CdpRecords(cdps) == old(CdpRecords(cdps))[key := cdp.Record()];
      ChannelOfUpdate(old(CdpRecords(cdps)), key, cdp.Record());
    }

    method UpsertCdp(address: Address, summary: CdpSummary)
      requires Valid()
      modifies this`cdps, this`cdpByChannel, cdps.Values
      ensures Valid() && View() == StoreGraph.UpsertCdp(old(View()), address, summary)
      ensures old(cdps.Keys) <= cdps.Keys && cdps.Keys == old(cdps.Keys) + {(address, summary.name)}
      ensures forall k <- cdps :: if k in old(cdps) then cdps[k] == old(cdps)[k] else fresh(cdps[k])
      ensures CdpTable() == Claimed(old(CdpTable()), (address, summary.name), (address, summary.channelNo), cdps)
    {
      var key := (address, summary.name);
      ViewKeys();
      if key in cdps {
        hide View, Valid, CdpTable;
        UpdateCdp(key, summary);
      } else {
        hide View, Valid, CdpTable;
        var cdp := new CustomDataPoint(summary, summary.state);
        RegisterCdp(key, cdp);
      }
    }

    /** Rebuilding would orphan the object a consumer holds, so summary, state and index entry move under it. */
    method UpdateCdp(key: CdpKey, summary: CdpSummary)
      requires Valid() && key in cdps && key.1 == summary.name
      modifies this`cdpByChannel, cdps.Values
      ensures View() == StoreGraph.UpsertCdp(old(View()), key.0, summary)
      ensures CdpTable() == Rekeyed(old(CdpTable()), key, (key.0, summary.channelNo))
    {
      hide View, CdpRecords, ChannelOf, StoreGraph.UpsertCdp;
      ReseedCdp(key, summary);
      cdpByChannel := cdpByChannel[(key.0, summary.channelNo) := cdps[key]];
    }

    method ReseedCdp(key: CdpKey, summary: CdpSummary)
      requires Valid() && key in cdps && key.1 == summary.name
      modifies cdps.Values
      ensures View() == StoreGraph.UpsertCdp(old(View()), key.0, summary)
      ensures ChannelOf(CdpRecords(cdps)) == old(ChannelOf(CdpRecords(cdps)))[key := (key.0, summary.channelNo)]
    {
      hide DeviceRecords, ChannelSummaries, DpSummaries, ChannelOf;
      var existing := cdps[key];
      existing.Reseed(summary);
      assert CdpRecords(cdps) == old(CdpRecords(cdps))[key := existing.Record()];
      hide CdpRecords, Injective;
      ChannelOfUpdate(old(CdpRecords(cdps)), key, existing.Record());
    }

    /** Reconciles the custom data points of one device in place, and their channel index with them. */
    method AttachCustomDataPoints(address: Address, summaries: seq<CdpSummary>)
      requires Valid()
      modifies this`cdps, this`cdpByChannel, cdps.Values
      ensures Valid() && View() == AttachCdps(old(View()), address, summaries)
      ensures forall k <- cdps :: if k in old(cdps) then cdps[k] == old(cdps)[k] else fresh(cdps[k])
      ensures CdpTable()
           == Reconciled(old(CdpTable()), CdpScope(old(cdps.Keys), address, summaries),
                         Incoming(address, summaries), cdps)
      ensures old(Agrees(CdpTable()) && SteadyCdps(View().cdps, address, summaries)) ==> Agrees(CdpTable())
    {
      hide *;
      TableKeys();
      ViewKeys();
      ReconcileCdps(address, summaries);
      TableKeys();
      if old(Agrees(CdpTable()) && SteadyCdps(View().cdps, address, summaries)) {
        SteadyCdpsAgree(old(CdpTable()), CdpTable(), old(View()).cdps, address, summaries);
      }
    }

    method ReconcileCdps(address: Address, summaries: seq<CdpSummary>)
      requires Valid()
      modifies this`cdps, this`cdpByChannel, cdps.Values
      ensures Valid() && View() == AttachCdps(old(View()), address, summaries)
      ensures Names(Incoming(address, summaries)) <= cdps.Keys
      ensures forall k <- cdps :: if k in old(cdps) then cdps[k] == old(cdps)[k] else fresh(cdps[k])
      ensures CdpTable()
           == Reconciled(old(CdpTable()), CdpScope(old(cdps.Keys), address, summaries),
                         Incoming(address, summaries), cdps)
    {
      hide Valid, DeviceRecords, ChannelSummaries, DpSummaries, CdpRecords, CdpTable, UpsertCdps, Merged, Without,
           StaleCdps;
      ViewKeys();
      var incoming := set s | s in summaries :: (address, s.name);
      var stale := set k | k in cdps && k.0 == address && k !in incoming;
      StaleByName(View(), CdpTable(), address, summaries);
      DropCdps(stale);
      UpsertAll(address, summaries);
    }

    method UpsertAll(address: Address, summaries: seq<CdpSummary>)
      requires Valid()
      modifies this`cdps, this`cdpByChannel, cdps.Values
      ensures Valid() && View() == UpsertCdps(old(View()), address, summaries)
      ensures forall k <- cdps :: if k in old(cdps) then cdps[k] == old(cdps)[k] else fresh(cdps[k])
      ensures cdps.Keys == old(cdps.Keys) + Names(Incoming(address, summaries))
      ensures CdpTable() == Merged(old(CdpTable()), Incoming(address, summaries), cdps)
    {
      hide *;
      UpsertNone(View(), CdpTable(), address, cdps);
      assert summaries[..0] == [];
      for i := 0 to |summaries|
        invariant Valid() && View() == UpsertCdps(old(View()), address, summaries[..i])
        invariant forall k <- cdps :: if k in old(cdps) then cdps[k] == old(cdps)[k] else fresh(cdps[k])
        invariant cdps.Keys == old(cdps.Keys) + Names(Incoming(address, summaries[..i]))
        invariant CdpTable() == Merged(old(CdpTable()), Incoming(address, summaries[..i]), cdps)
      {
        ghost var was := cdps;
        UpsertCdp(address, summaries[i]);
        IncomingSnoc(old(CdpTable()), address, summaries[..i], summaries[i], old(cdps.Keys), was, cdps);
        UpsertCdpsSnoc(old(View()), address, summaries[..i], summaries[i]);
        assert summaries[..i + 1] == summaries[..i] + [summaries[i]];
      }
      assert summaries[..|summaries|] == summaries;
    }

    method ApplyDeviceRemoved(address: Address)
      requires Valid()
      modifies this`devices, this`channels, this`dataPoints, this`calculatedDpKeys, this`cdps, this`cdpByChannel
      modifies this`weekProfiles
      ensures Valid() && View() == StoreGraph.ApplyDeviceRemoved(old(View()), address)
      ensures Within(devices, old(devices)) && Within(channels, old(channels)) && Within(dataPoints, old(dataPoints))
      ensures cdps == old(cdps) - (set k | k in old(cdps) && k.0 == address)
      ensures weekProfiles == old(weekProfiles) - {address}
      ensures CdpTable() == Without(old(CdpTable()), set k | k in old(cdps) && k.0 == address)
      ensures old(Agrees(CdpTable())) ==> Agrees(CdpTable())
    {
      hide *;
      RemovedInSteps(View(), address);
      PopDevice(address);
      DropChannelsOf(address);
      DropCdpsOf(address);
      PopWeekProfiles(address);
      if old(Agrees(CdpTable())) {
        DropKeepsAgreement(old(CdpTable()), set k | k in old(cdps) && k.0 == address);
      }
    }

    method DropChannelsOf(address: Address)
      requires Valid()
      modifies this`channels, this`dataPoints, this`calculatedDpKeys
      ensures Valid() && View() == DropChannels(old(View()), set k | k in old(View()).channels && k.0 == address)
      ensures Within(channels, old(channels)) && Within(dataPoints, old(dataPoints))
    {
      var stale := set k | k in channels && k.0 == address;
      assert stale == set k | k in View().channels && k.0 == address;
      DropEach(stale);
    }

    method DropCdpsOf(address: Address)
      requires Valid()
      modifies this`cdps, this`cdpByChannel
      ensures Valid() && cdps == old(cdps) - (set k | k in old(cdps) && k.0 == address)
      ensures CdpTable() == Without(old(CdpTable()), set k | k in old(cdps) && k.0 == address)
      ensures View() == old(View()).(cdps := old(View()).cdps - (set k | k in old(View()).cdps && k.0 == address))
    {
      var stale := set k | k in cdps && k.0 == address;
      assert stale == set k | k in View().cdps && k.0 == address;
      hide Valid, DeviceRecords, DpSummaries, ChannelSummaries, CdpRecords, CdpTable, Without;
      DropCdps(stale);
    }

    method PopWeekProfiles(address: Address)
      requires Valid()
      modifies this`weekProfiles
      ensures Valid() && View() == old(View()).(weekProfiles := old(View()).weekProfiles - {address})
      ensures CdpTable() == old(CdpTable()) && weekProfiles == old(weekProfiles) - {address}
    {
      weekProfiles := weekProfiles - {address};
      assert ProfileKinds(weekProfiles) == old(ProfileKinds(weekProfiles)) - {address};
    }

    method PopDevice(address: Address)
      requires Valid()
      modifies this`devices
      ensures Valid() && View() == old(View()).(devices := old(View()).devices - {address})
      ensures Within(devices, old(devices))
    {
      devices := devices - {address};
      assert DeviceRecords(devices) == old(DeviceRecords(devices)) - {address};
    }

    /** One object per device and kind; registering again replaces that one only. */
    method SetWeekProfileDataPoint(address: Address, dataPoint: WeekProfileDataPoint, climate: bool)
      requires Valid()
      modifies this`weekProfiles
      ensures Valid() && View() == SetWeekProfile(old(View()), address, climate)
      ensures weekProfiles
           == old(weekProfiles)[address := ProfilesOf(old(weekProfiles), address)[climate := dataPoint]]
    {
      ProfileRegistered(weekProfiles, address, climate, dataPoint);
      hide DeviceRecords, ChannelSummaries, DpSummaries, CdpRecords, Injective, ProfileKinds;
      weekProfiles := weekProfiles[address := ProfilesOf(weekProfiles, address)[climate := dataPoint]];
    }

    /** The default schedule ahead of the climate one. */
    method GetWeekProfileDataPoints(address: Address) returns (found: seq<WeekProfileDataPoint>)
      requires Valid()
      ensures var kinds := ProfilesOf(weekProfiles, address);
              found == (if false in kinds then [kinds[false]] else []) + (if true in kinds then [kinds[true]] else [])
    {
      var kinds := ProfilesOf(weekProfiles, address);
      found := [];
      if false in kinds {
        found := found + [kinds[false]];
      }
      if true in kinds {
        found := found + [kinds[true]];
      }
    }

    /** The channel lookup answers from the index; while index and map agree that is what a scan finds. */
    method GetCustomDataPointByChannel(address: Address, channelNo: int) returns (found: CustomDataPoint?)
      requires Valid()
      ensures Agrees(CdpTable()) ==>
                && (found == null <==> forall k <- cdps :: !(k.0 == address && cdps[k].summary.channelNo == channelNo))
                && (found != null ==>
                      exists k ::
                        && k in cdps && k.0 == address && cdps[k].summary.channelNo == channelNo && cdps[k] == found
                        && forall l <- cdps :: l.0 == address && cdps[l].summary.channelNo == channelNo ==> l == k)
    {
      var c := (address, channelNo);
      found := if c in cdpByChannel then cdpByChannel[c] else null;
      if Agrees(CdpTable()) {
        LookupIsScan(CdpTable(), c);
        assert Scan(CdpTable(), c) == set k | k in cdps && k.0 == address && cdps[k].summary.channelNo == channelNo;
      }
    }

    // ---- refreshes: what the store does before and after the round trip ----

    /** The generation a refresh remembers before it asks; None when there is nothing to refresh. */
    method BeginCdpRefresh(key: CdpKey) returns (generation: Option<nat>)
      requires Valid()
      ensures generation
           == match Get(View().cdps, key) { case Some(record) => Some(record.generation) case None => None }
    {
      if key !in cdps {
        return None;
      }
      generation := Some(cdps[key].applyGeneration);
    }

    method FinishCdpRefresh(key: CdpKey, generation: nat, detail: Option<CdpState>)
      requires Valid()
      modifies cdps.Values
      ensures View() == Refresh.CdpWriteBack(old(View()), key, generation, detail) && CdpTable() == old(CdpTable())
      ensures forall k <- cdps ::
                cdps[k].Record()
                == if k == key && old(cdps[k].applyGeneration) == generation && detail.Some?
                   then CdpRecord(old(cdps[k].summary), detail.value, generation + 1)
                   else old(cdps[k].Record())
    {
      if key !in cdps || cdps[key].applyGeneration != generation {
        return;
      }
      if detail.Some? {
        WriteCdpState(key, detail.value);
      }
    }

    method FinishDataPointRefresh(key: DpKey, summary: DpSummary)
      requires Valid()
      modifies dataPoints.Values
      ensures View() == Refresh.DpWriteBack(old(View()), key, summary)
      ensures forall k <- dataPoints ::
                var was := old(dataPoints[k].summary);
                dataPoints[k].summary
                == if && k == key
                      && (was.modifiedAt.None? || summary.modifiedAt.None?
                          || was.modifiedAt.value <= summary.modifiedAt.value)
                   then summary else was
    {
      if key !in dataPoints || Refresh.IsStale(dataPoints[key].summary.modifiedAt, summary.modifiedAt) {
        return;
      }
      WriteDataPoint(key, summary);
    }

    /** A data point that takes verdicts gets the answer's with it; the verdict of every other one stays. */
    method FinishCalculatedRefresh(key: DpKey, reading: Refresh.Reading, available: bool)
      requires Valid()
      modifies dataPoints.Values
      ensures View() == Refresh.CalculatedWriteBack(old(View()), key, reading)
      ensures forall k <- dataPoints ::
                var (was, verdict) := (old(dataPoints[k].summary), old(dataPoints[k].calculatedAvailable));
                if && k == key
                   && (was.modifiedAt.None? || reading.modifiedAt.None?
                       || was.modifiedAt.value <= reading.modifiedAt.value)
                then
                  && dataPoints[k].summary
                     == DpSummary(was.parameter, reading.value, was.displayValue, reading.observed,
                                  reading.modifiedAt, was.lastChangedAt, was.lastSeenAt)
                  && dataPoints[k].calculatedAvailable == (if verdict.Some? then Some(available) else None)
                else dataPoints[k].summary == was && dataPoints[k].calculatedAvailable == verdict
    {
      if key !in dataPoints || Refresh.IsStale(dataPoints[key].summary.modifiedAt, reading.modifiedAt) {
        return;
      }
      WriteDataPoint(key, dataPoints[key].summary.(
        value := reading.value, observed := reading.observed, modifiedAt := reading.modifiedAt));
      PassVerdict(key, available);
    }

    method PassVerdict(key: DpKey, available: bool)
      requires Valid() && key in dataPoints
      modifies dataPoints.Values`calculatedAvailable
      ensures View() == old(View())
      ensures forall k <- dataPoints ::
                var verdict := old(dataPoints[k].calculatedAvailable);
                dataPoints[k].calculatedAvailable == if k == key && verdict.Some? then Some(available) else verdict
    {
      if dataPoints[key].TakesVerdicts() {
        dataPoints[key].ApplyCalculatedAvailability(available);
      }
    }

    method WriteDataPoint(key: DpKey, summary: DpSummary)
      requires Valid() && key in dataPoints
      modifies dataPoints.Values`summary
      ensures View() == old(View()).(dataPoints := old(View()).dataPoints[key := summary])
      ensures forall k <- dataPoints ::
                dataPoints[k].summary == if k == key then summary else old(dataPoints[k].summary)
    {
      var dp := dataPoints[key];
      dp.summary := summary;
      assert DpSummaries(dataPoints) == old(DpSummaries(dataPoints))[key := summary];
    }

    // ---- alarm panels ----

    /** No two ids share a panel, and each panel is kept under the id its summary carries. */
    ghost predicate PanelsValid() reads this`alarmPanels, alarmPanels.Values {
      Injective(alarmPanels) && forall uid <- alarmPanels :: alarmPanels[uid].summary.uniqueId == uid
    }

    ghost function Panels(): map<string, PanelSummary> reads this`alarmPanels, alarmPanels.Values {
      PanelSummaries(alarmPanels)
    }

    ghost function PanelTable(): (t: Table<string, string, AlarmPanel>)
      reads this`alarmPanels, this`alarmPanelByZone, alarmPanels.Values
      ensures t.primary == alarmPanels && t.keyOf.Keys == t.primary.Keys
    {
      Table(alarmPanels, ZoneOf(PanelSummaries(alarmPanels)), alarmPanelByZone)
    }

    method RegisterAlarmPanel(panel: AlarmPanel)
      requires PanelsValid() && panel.summary.uniqueId !in alarmPanels && panel !in alarmPanels.Values
      modifies this`alarmPanels, this`alarmPanelByZone
      ensures PanelsValid() && alarmPanels == old(alarmPanels)[panel.summary.uniqueId := panel]
      ensures Panels() == old(Panels())[panel.summary.uniqueId := panel.summary]
      ensures PanelTable() == Registered(old(PanelTable()), panel.summary.uniqueId, panel.summary.zoneId, panel)
    {
      InjectiveInsert(alarmPanels, panel.summary.uniqueId, panel);
      alarmPanels := alarmPanels[panel.summary.uniqueId := panel];
      alarmPanelByZone := alarmPanelByZone[panel.summary.zoneId := panel];
      assert PanelSummaries(alarmPanels) == old(PanelSummaries(alarmPanels))[panel.summary.uniqueId := panel.summary];
      ZoneOfUpdate(old(Panels()), panel.summary.uniqueId, panel.summary);
    }

    method DropAlarmPanel(uniqueId: string)
      requires PanelsValid()
      modifies this`alarmPanels, this`alarmPanelByZone
      ensures PanelsValid() && Panels() == old(Panels()) - {uniqueId} && alarmPanels == old(alarmPanels) - {uniqueId}
      ensures PanelTable() == Dropped(old(PanelTable()), uniqueId)
    {
      if uniqueId !in alarmPanels {
        assert alarmPanels - {uniqueId} == alarmPanels;
        assert Panels() - {uniqueId} == Panels();
        return;
      }
      var panel := alarmPanels[uniqueId];
      alarmPanels := alarmPanels - {uniqueId};
      alarmPanelByZone := alarmPanelByZone - {panel.summary.zoneId};
      assert Panels() == old(Panels()) - {uniqueId};
      assert PanelTable().keyOf == old(PanelTable()).keyOf - {uniqueId};
    }

    /** A known panel takes the catalogue's summary under its live object; the zone index follows. */
    method UpdateAlarmPanel(entity: PanelSummary)
      requires PanelsValid() && entity.uniqueId in alarmPanels
      modifies this`alarmPanelByZone, alarmPanels.Values
      ensures PanelsValid() && Panels() == old(Panels())[entity.uniqueId := entity]
      ensures PanelTable() == Rekeyed(old(PanelTable()), entity.uniqueId, entity.zoneId)
    {
      var existing := alarmPanels[entity.uniqueId];
      existing.summary := entity;
      alarmPanelByZone := alarmPanelByZone[entity.zoneId := existing];
      assert PanelSummaries(alarmPanels) == old(PanelSummaries(alarmPanels))[entity.uniqueId := entity];
      ZoneOfUpdate(old(Panels()), entity.uniqueId, entity);
    }

    method UpsertAlarmPanel(entity: PanelSummary)
      requires PanelsValid()
      modifies this`alarmPanels, this`alarmPanelByZone, alarmPanels.Values
      ensures PanelsValid() && Panels() == old(Panels())[entity.uniqueId := entity]
      ensures alarmPanels.Keys == old(alarmPanels.Keys) + {entity.uniqueId}
      ensures forall k <- alarmPanels ::
                if k in old(alarmPanels) then alarmPanels[k] == old(alarmPanels)[k] else fresh(alarmPanels[k])
      ensures PanelTable() == Claimed(old(PanelTable()), entity.uniqueId, entity.zoneId, alarmPanels)
    {
      hide PanelsValid, Panels, PanelTable;
      if entity.uniqueId in alarmPanels {
        UpdateAlarmPanel(entity);
      } else {
        var panel := new AlarmPanel(entity);
        RegisterAlarmPanel(panel);
      }
    }

    /**
     Reconciles the panel catalogue in place: vanished panels go, known ones keep their object, new ones
     are built.
     */
    method AttachAlarmPanels(entities: seq<PanelSummary>)
      requires PanelsValid()
      modifies this`alarmPanels, this`alarmPanelByZone, alarmPanels.Values
      ensures PanelsValid()
      ensures Panels() == PutAll(old(Panels()) - StalePanels(old(Panels()), entities), PanelWrites(entities))
      ensures forall k :: k in alarmPanels <==> exists e <- entities :: e.uniqueId == k
      ensures forall i: nat :: LastPanel(entities, i) ==> Get(Panels(), entities[i].uniqueId) == Some(entities[i])
      ensures forall k <- alarmPanels ::
                if k in old(alarmPanels) then alarmPanels[k] == old(alarmPanels)[k] else fresh(alarmPanels[k])
      ensures PanelTable()
           == Reconciled(old(PanelTable()), PanelScope(old(alarmPanels.Keys), entities), Zoned(entities), alarmPanels)
      ensures old(Agrees(PanelTable()) && SteadyPanels(Panels(), entities)) ==> Agrees(PanelTable())
    {
      hide *;
      PanelKeys();
      ReconcilePanels(entities);
      PanelKeys();
      PanelsLand(old(Panels()), entities);
      if old(Agrees(PanelTable()) && SteadyPanels(Panels(), entities)) {
        SteadyPanelsAgree(old(PanelTable()), PanelTable(), old(Panels()), entities);
      }
    }

    method ReconcilePanels(entities: seq<PanelSummary>)
      requires PanelsValid()
      modifies this`alarmPanels, this`alarmPanelByZone, alarmPanels.Values
      ensures PanelsValid() && Names(Zoned(entities)) <= alarmPanels.Keys
      ensures Panels() == PutAll(old(Panels()) - StalePanels(old(Panels()), entities), PanelWrites(entities))
      ensures forall k <- alarmPanels ::
                if k in old(alarmPanels) then alarmPanels[k] == old(alarmPanels)[k] else fresh(alarmPanels[k])
      ensures PanelTable()
           == Reconciled(old(PanelTable()), PanelScope(old(alarmPanels.Keys), entities), Zoned(entities), alarmPanels)
    {
      assert Panels().Keys == alarmPanels.Keys;
      hide PanelsValid, Panels, PanelTable, PutAll, Merged, Without, StalePanels, Zoned;
      var incoming := set e | e in entities :: e.uniqueId;
      var stale := alarmPanels.Keys - incoming;
      StaleById(Panels(), PanelTable(), entities);
      DropPanels(stale);
      UpsertPanels(entities);
    }

    method DropPanels(stale: set<string>)
      requires PanelsValid()
      modifies this`alarmPanels, this`alarmPanelByZone
      ensures PanelsValid() && Panels() == old(Panels()) - stale
      ensures PanelTable() == Without(old(PanelTable()), stale) && alarmPanels == old(alarmPanels) - stale
    {
      hide PanelsValid, PanelTable, Panels, Without, Dropped;
      var left := stale;
      assert stale - left == {} && Panels() - {} == Panels();
      NothingWithout(PanelTable());
      while left != {}
        invariant left <= stale
        invariant PanelsValid() && PanelTable() == Without(old(PanelTable()), stale - left)
        invariant Panels() == old(Panels()) - (stale - left)
        decreases |left|
      {
        var uid :| uid in left;
        WithoutOneMore(old(PanelTable()), stale - left, uid);
        assert stale - (left - {uid}) == stale - left + {uid};
        assert old(Panels()) - (stale - left) - {uid} == old(Panels()) - (stale - left + {uid});
        DropAlarmPanel(uid);
        left := left - {uid};
      }
      assert stale - left == stale;
      WithoutPrimary(old(PanelTable()), stale);
    }

    method UpsertPanels(entities: seq<PanelSummary>)
      requires PanelsValid()
      modifies this`alarmPanels, this`alarmPanelByZone, alarmPanels.Values
      ensures PanelsValid() && Panels() == PutAll(old(Panels()), PanelWrites(entities))
      ensures alarmPanels.Keys == old(alarmPanels.Keys) + Names(Zoned(entities))
      ensures forall k <- alarmPanels ::
                if k in old(alarmPanels) then alarmPanels[k] == old(alarmPanels)[k] else fresh(alarmPanels[k])
      ensures PanelTable() == Merged(old(PanelTable()), Zoned(entities), alarmPanels)
    {
      hide *;
      NoPanels(Panels(), PanelTable(), alarmPanels);
      assert entities[..0] == [];
      for i := 0 to |entities|
        invariant PanelsValid() && Panels() == PutAll(old(Panels()), PanelWrites(entities[..i]))
        invariant alarmPanels.Keys == old(alarmPanels.Keys) + Names(Zoned(entities[..i]))
        invariant forall k <- alarmPanels ::
                  if k in old(alarmPanels) then alarmPanels[k] == old(alarmPanels)[k] else fresh(alarmPanels[k])
        invariant PanelTable() == Merged(old(PanelTable()), Zoned(entities[..i]), alarmPanels)
      {
        ghost var was := alarmPanels;
        UpsertAlarmPanel(entities[i]);
        PanelSnoc(
          old(Panels()), old(PanelTable()), entities[..i], entities[i], old(alarmPanels.Keys), was, alarmPanels);
        assert entities[..i + 1] == entities[..i] + [entities[i]];
      }
      assert entities[..|entities|] == entities;
    }

    /**
     A push drops a removed panel, seeds a stub for an unknown one, and updates a known one; it never
     moves a zone.
     */
    method ApplyAlarmPanelChanged(push: PanelChanged)
      requires PanelsValid()
      modifies this`alarmPanels, this`alarmPanelByZone, alarmPanels.Values
      ensures PanelsValid() && Panels() == PanelsAfter(old(Panels()), push)
      ensures alarmPanels.Keys == if push.removed then old(alarmPanels.Keys) - {push.uniqueId}
                                  else old(alarmPanels.Keys) + {push.uniqueId}
      ensures forall k <- alarmPanels ::
                alarmPanels[k].summary
                == if k !in old(alarmPanels)
                   then PanelSummary(push.uniqueId, push.zoneId, push.name, push.state, push.available, [])
                   else if k == push.uniqueId
                   then PanelSummary(old(alarmPanels[k].summary.uniqueId), old(alarmPanels[k].summary.zoneId),
                                     push.name, push.state, push.available, old(alarmPanels[k].summary.modes))
                   else old(alarmPanels[k].summary)
      ensures forall k <- alarmPanels ::
                if k in old(alarmPanels) then alarmPanels[k] == old(alarmPanels)[k] else fresh(alarmPanels[k])
      ensures PanelTable() == if push.removed then Dropped(old(PanelTable()), push.uniqueId)
                              else if push.uniqueId in old(alarmPanels) then old(PanelTable())
                              else Registered(old(PanelTable()), push.uniqueId, push.zoneId, alarmPanels[push.uniqueId])
      ensures old(Agrees(PanelTable())) ==> (Agrees(PanelTable()) <==> SteadyPush(old(Panels()), push))
    {
      hide PanelsValid, Panels, PanelTable, PanelsAfter, Agrees, Registered, Dropped;
      PanelKeys();
      var panel := WritePanelPush(push);
      if old(Agrees(PanelTable())) && panel == null {
        DroppedAgrees(old(PanelTable()), push.uniqueId);
      } else if old(Agrees(PanelTable())) && push.uniqueId !in old(alarmPanels) {
        StubAgreesExactlyWhenZoneIsFree(old(PanelTable()), old(Panels()), push, panel);
      }
    }

    method WritePanelPush(push: PanelChanged) returns (panel: AlarmPanel?)
      requires PanelsValid()
      modifies this`alarmPanels, this`alarmPanelByZone, alarmPanels.Values
      ensures PanelsValid() && Panels() == PanelsAfter(old(Panels()), push)
      ensures panel == null <==> push.removed
      ensures alarmPanels.Keys == if push.removed then old(alarmPanels.Keys) - {push.uniqueId}
                                  else old(alarmPanels.Keys) + {push.uniqueId}
      ensures forall k <- alarmPanels ::
                alarmPanels[k].summary
                == if k !in old(alarmPanels)
                   then PanelSummary(push.uniqueId, push.zoneId, push.name, push.state, push.available, [])
                   else if k == push.uniqueId
                   then PanelSummary(old(alarmPanels[k].summary.uniqueId), old(alarmPanels[k].summary.zoneId),
                                     push.name, push.state, push.available, old(alarmPanels[k].summary.modes))
                   else old(alarmPanels[k].summary)
      ensures PanelTable() == if push.removed then Dropped(old(PanelTable()), push.uniqueId)
                              else if push.uniqueId in old(alarmPanels) then old(PanelTable())
                              else Registered(old(PanelTable()), push.uniqueId, push.zoneId, panel)
      ensures !push.removed ==> push.uniqueId in alarmPanels && panel == alarmPanels[push.uniqueId]
      ensures forall k <- alarmPanels ::
                if k in old(alarmPanels) then alarmPanels[k] == old(alarmPanels)[k] else fresh(alarmPanels[k])
    {
      hide PanelsValid, Panels, PanelTable, Dropped, Registered;
      PanelKeys();
      if push.removed {
        DropAlarmPanel(push.uniqueId);
        return null;
      }
      if push.uniqueId !in alarmPanels {
        panel := new AlarmPanel(PanelStub(push));
        RegisterAlarmPanel(panel);
        return;
      }
      panel := alarmPanels[push.uniqueId];
      UpdatePushedPanel(push);
    }

    method UpdatePushedPanel(push: PanelChanged)
      requires PanelsValid() && push.uniqueId in alarmPanels && !push.removed
      modifies alarmPanels.Values
      ensures PanelsValid() && Panels() == PanelsAfter(old(Panels()), push) && PanelTable() == old(PanelTable())
      ensures forall k <- alarmPanels ::
                var was := old(alarmPanels[k].summary);
                alarmPanels[k].summary
                == if k != push.uniqueId then was
                   else PanelSummary(was.uniqueId, was.zoneId, push.name, push.state, push.available, was.modes)
    {
      var panel := alarmPanels[push.uniqueId];
      panel.summary := panel.summary.(name := push.name, state := push.state, available := push.available);
      assert PanelSummaries(alarmPanels) == old(PanelSummaries(alarmPanels))[push.uniqueId := panel.summary];
      ZoneOfUpdate(old(Panels()), push.uniqueId, panel.summary);
    }

    /** The zone lookup answers from the index; while index and map agree that is what a scan finds. */
    method GetAlarmPanelByZone(zoneId: string) returns (found: AlarmPanel?)
      ensures Agrees(PanelTable()) ==>
                && (found == null <==> forall k <- alarmPanels :: alarmPanels[k].summary.zoneId != zoneId)
                && (found != null ==>
                      exists k ::
                        && k in alarmPanels && alarmPanels[k].summary.zoneId == zoneId && alarmPanels[k] == found
                        && forall l <- alarmPanels :: alarmPanels[l].summary.zoneId == zoneId ==> l == k)
    {
      found := if zoneId in alarmPanelByZone then alarmPanelByZone[zoneId] else null;
      if Agrees(PanelTable()) {
        LookupIsScan(PanelTable(), zoneId);
        assert Scan(PanelTable(), zoneId) == set k | k in alarmPanels && alarmPanels[k].summary.zoneId == zoneId;
      }
    }

    // ---- programs ----

    /** All program objects are distinct, and only known programs have twins. */
    ghost predicate ProgramsApart() reads this`programs, this`programDps {
      && Injective(programs)
      && programDps.Keys <= programs.Keys
      && (forall id <- programDps, t <- programDps[id] :: t !in programs.Values)
      && (forall i <- programDps, j <- programDps, t <- programDps[i] :: i != j ==> t !in programDps[j])
    }

    /** ... and each is kept under its own id, with twins that read the same record. */
    ghost predicate ProgramsValid()
      reads this`programs, this`programDps, programs.Values, set id, t | id in programDps && t in programDps[id] :: t
    {
      && ProgramsApart()
      && (forall id <- programs :: programs[id].summary.id == id)
      && (forall id <- programDps, t <- programDps[id] :: t.summary == programs[id].summary)
    }

    ghost function TwinObjects(): set<Program> reads this`programDps {
      set id, t | id in programDps && t in programDps[id] :: t
    }

    ghost function Programs(): map<string, ProgramSummary> reads this`programs, programs.Values {
      map id | id in programs :: programs[id].summary
    }

    /** A known program is updated in place, and so are the twins consumers hold; a new one gets its objects. */
    method UpsertProgram(summary: ProgramSummary)
      requires ProgramsValid()
      modifies this`programs, this`programDps, programs.Values, TwinObjects()
      ensures ProgramsValid() && Programs() == old(Programs())[summary.id := summary]
      ensures summary.id in old(programs) ==> programs == old(programs) && programDps == old(programDps)
      ensures summary.id !in old(programs) ==> Adds(old(programs), old(programDps), summary.id)
    {
      if summary.id !in programs {
        AddProgram(summary);
      } else {
        UpdateProgram(summary);
      }
    }

    /** One program more, with twins of its own when the factory is installed; all others are the objects they were. */
    twostate predicate Adds(was: map<string, Program>, wasDps: map<string, seq<Program>>, id: string)
      reads this`programs, this`programDps, this`programFactory
    {
      && id !in was && id !in wasDps
      && id in programs && fresh(programs[id]) && programs == was[id := programs[id]]
      && (if programFactory then id in programDps && |programDps[id]| == 2 && (forall t <- programDps[id] :: fresh(t))
                                 && programDps == wasDps[id := programDps[id]]
          else programDps == wasDps)
    }

    method UpdateProgram(summary: ProgramSummary)
      requires ProgramsValid() && summary.id in programs
      modifies programs.Values, TwinObjects()
      ensures ProgramsValid() && Programs() == old(Programs())[summary.id := summary]
    {
      ReplaceProgram(summary);
      assert ProgramsApart();
      hide ProgramsApart;
      assert Programs() == old(Programs())[summary.id := summary];
    }

    /** The program and its twins take the summary; every other object keeps its own. */
    method ReplaceProgram(summary: ProgramSummary)
      requires ProgramsApart() && summary.id in programs
      modifies programs.Values, TwinObjects()
      ensures forall id <- programs ::
                programs[id].summary == if id == summary.id then summary else old(programs[id].summary)
      ensures forall id <- programDps, t <- programDps[id] ::
                t.summary == if id == summary.id then summary else old(t.summary)
    {
      var existing := programs[summary.id];
      var twins := if summary.id in programDps then programDps[summary.id] else [];
      assert existing in programs.Values && forall t <- twins :: t in TwinObjects() && t !in programs.Values;
      assert forall id <- programDps, t <- programDps[id] :: id != summary.id ==> t != existing && t !in twins;
      assert forall id <- programs :: programs[id] in programs.Values && programs[id] !in twins;
      hide ProgramsApart, TwinObjects;
      ReplaceSummaries(existing, twins, summary);
    }

    method ReplaceSummaries(existing: Program, twins: seq<Program>, summary: ProgramSummary)
      requires existing !in twins
      modifies existing, twins
      ensures existing.summary == summary && forall t <- twins :: t.summary == summary
    {
      existing.summary := summary;
      for i := 0 to |twins|
        invariant existing.summary == summary && forall j :: 0 <= j < i ==> twins[j].summary == summary
      {
        var twin := twins[i];
        twin.summary := summary;
      }
    }

    method AddProgram(summary: ProgramSummary)
      requires ProgramsValid() && summary.id !in programs
      modifies this`programs, this`programDps
      ensures ProgramsValid() && Programs() == old(Programs())[summary.id := summary]
      ensures Adds(old(programs), old(programDps), summary.id)
    {
      PutProgram(summary);
      if programFactory {
        hide Injective, Programs;
        BuildTwins(summary);
      }
    }

    method PutProgram(summary: ProgramSummary)
      requires ProgramsValid() && summary.id !in programs
      modifies this`programs
      ensures ProgramsValid() && Programs() == old(Programs())[summary.id := summary]
      ensures summary.id in programs && fresh(programs[summary.id]) && programs[summary.id].summary == summary
      ensures programs == old(programs)[summary.id := programs[summary.id]]
    {
      var created := new Program(summary);
      programs := programs[summary.id := created];
      assert programs.Values <= old(programs.Values) + {created};
      assert Programs() == old(Programs())[summary.id := summary];
    }

    /** The execute button and the activity switch of one program. */
    method BuildTwins(summary: ProgramSummary)
      requires ProgramsValid()
      requires summary.id in programs
      requires summary.id !in programDps
      requires programs[summary.id].summary == summary
      modifies this`programDps
      ensures ProgramsValid() && programDps.Keys == old(programDps.Keys) + {summary.id}
      ensures programDps == old(programDps)[summary.id := programDps[summary.id]]
      ensures |programDps[summary.id]| == 2 && forall t <- programDps[summary.id] :: fresh(t)
    {
      hide Injective;
      var button := new Program(summary);
      var switch := new Program(summary);
      programDps := programDps[summary.id := [button, switch]];
    }

    /** The activity push: both flags land on one summary, a link is folded in, an absent one never clears. */
    method ApplyProgramChanged(id: string, active: bool, executeAvailable: bool, link: Option<string>)
      requires ProgramsValid()
      modifies this`programs, this`programDps, programs.Values, TwinObjects()
      ensures ProgramsValid() && programs == old(programs) && programDps == old(programDps)
      ensures Programs() == if id !in old(Programs()) then old(Programs())
                            else old(Programs())[id := Flipped(old(Programs())[id], active, executeAvailable, link)]
      ensures forall k <- programs ::
                var was := old(programs[k].summary);
                programs[k].summary
                == if k == id
                   then ProgramSummary(was.id, active, executeAvailable, if link.Some? then link else was.link)
                   else was
    {
      if id !in programs {
        return;
      }
      var summary := programs[id].summary;
      summary := summary.(active := active, executeAvailable := executeAvailable);
      if link.Some? {
        summary := summary.(link := link);
      }
      UpsertProgram(summary);
      assert forall k <- programs :: programs[k].summary == Programs()[k];
    }

    /** An execution push only folds in a link it carries. */
    method ApplyProgramExecuted(id: string, link: Option<string>)
      requires ProgramsValid()
      modifies this`programs, this`programDps, programs.Values, TwinObjects()
      ensures ProgramsValid() && programs == old(programs) && programDps == old(programDps)
      ensures Programs() == if id in old(Programs()) && link.Some?
                            then old(Programs())[id := old(Programs())[id].(link := link)]
                            else old(Programs())
      ensures forall k <- programs ::
                var was := old(programs[k].summary);
                programs[k].summary
                == if k == id && link.Some? then ProgramSummary(was.id, was.active, was.executeAvailable, link) else was
    {
      if id !in programs || link.None? {
        return;
      }
      var summary := programs[id].summary;
      assert Programs()[id := summary] == Programs();
      if link != summary.link {
        UpsertProgram(summary.(link := link));
      }
      assert forall k <- programs :: programs[k].summary == Programs()[k];
    }

    /** A late factory install builds the missing twins, so every program known then has its own. */
    method SetProgramFactory(installed: bool)
      requires ProgramsValid()
      modifies this`programFactory, this`programDps
      ensures ProgramsValid() && Programs() == old(Programs()) && programFactory == installed
      ensures programDps.Keys == if installed then programs.Keys else old(programDps.Keys)
      ensures forall k <- programDps ::
                if k in old(programDps) then programDps[k] == old(programDps)[k]
                else |programDps[k]| == 2 && forall t <- programDps[k] :: fresh(t)
    {
      programFactory := installed;
      if !installed {
        return;
      }
      BuildMissingTwins();
    }

    method BuildMissingTwins()
      requires ProgramsValid()
      modifies this`programDps
      ensures ProgramsValid() && programDps.Keys == programs.Keys
      ensures forall k <- programDps ::
                if k in old(programDps) then programDps[k] == old(programDps)[k]
                else |programDps[k]| == 2 && forall t <- programDps[k] :: fresh(t)
    {
      var left := programs.Keys;
      while left != {}
        invariant ProgramsValid() && left <= programs.Keys
        invariant programs.Keys - left <= programDps.Keys <= programs.Keys
        invariant old(programDps.Keys) <= programDps.Keys
        invariant forall k <- programDps ::
                    if k in old(programDps) then programDps[k] == old(programDps)[k]
                    else |programDps[k]| == 2 && forall t <- programDps[k] :: fresh(t)
        decreases |left|
      {
        hide Injective;
        var id :| id in left;
        if id !in programDps {
          BuildTwins(programs[id].summary);
        }
        left := left - {id};
      }
    }
  }
}
