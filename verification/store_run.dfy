/**
 Whole runs of the store: any sequence of catalogue reads, pushes, answers to re-reads and factory
 installs. What the store shows afterwards is the fold of the pure calls; which objects show it, and
 when its two indexes still answer like scans, is said over the run as well.
 */
module StoreRuns {
  import opened Common
  import opened IndexTable
  import opened Store
  import G = StoreGraph
  import Refresh

  // ---- calls, and what the store shows after them ----

  datatype Call =
    | OnGraph(op: G.Op)
    | CdpAnswer(cdp: G.CdpKey, generation: nat, detail: Option<G.CdpState>)
    | DpAnswer(dp: G.DpKey, summary: G.DpSummary)
    | CalculatedAnswer(dp: G.DpKey, reading: Refresh.Reading, available: bool)
    | CalculatedFactory(installed: bool)
    | PanelCatalogue(entities: seq<PanelSummary>)
    | PanelPush(push: PanelChanged)
    | ProgramEntry(program: ProgramSummary)
    | ProgramPush(id: string, active: bool, executeAvailable: bool, link: Option<string>)
    | ProgramRun(id: string, link: Option<string>)
    | ProgramFactory(installed: bool)

  /** What the store shows to a reader, as a value. */
  datatype Shown = Shown(
    graph: G.Graph, calculatedFactory: bool, panels: map<string, PanelSummary>, programs: map<string, ProgramSummary>,
    twins: set<string>, programFactory: bool)

  /** Without a factory a calculated catalogue does nothing. */
  function GraphNext(g: G.Graph, calculatedFactory: bool, call: Call): G.Graph {
    match call
    case OnGraph(op) => if op.Calculated? && !calculatedFactory then g else G.Apply(g, op)
    case CdpAnswer(key, generation, detail) => Refresh.CdpWriteBack(g, key, generation, detail)
    case DpAnswer(key, summary) => Refresh.DpWriteBack(g, key, summary)
    case CalculatedAnswer(key, reading, _) => Refresh.CalculatedWriteBack(g, key, reading)
    case _ => g
  }

  function PanelsNext(panels: map<string, PanelSummary>, call: Call): map<string, PanelSummary> {
    match call
    case PanelCatalogue(entities) => PutAll(panels - StalePanels(panels, entities), PanelWrites(entities))
    case PanelPush(push) => PanelsAfter(panels, push)
    case _ => panels
  }

  function ProgramsNext(programs: map<string, ProgramSummary>, call: Call): map<string, ProgramSummary> {
    match call
    case ProgramEntry(p) => programs[p.id := p]
    case ProgramPush(id, active, executeAvailable, link) =>
      if id in programs then programs[id := Flipped(programs[id], active, executeAvailable, link)] else programs
    case ProgramRun(id, link) =>
      if id in programs && link.Some? then programs[id := programs[id].(link := link)] else programs
    case _ => programs
  }

  /** Twins are built with a new program when the factory is there, and for every program when it is installed. */
  function TwinsNext(twins: set<string>, programs: set<string>, programFactory: bool, call: Call): set<string> {
    match call
    case ProgramEntry(p) => if p.id !in programs && programFactory then twins + {p.id} else twins
    case ProgramFactory(installed) => if installed then programs else twins
    case _ => twins
  }

  function Next(v: Shown, call: Call): Shown {
    Shown(GraphNext(v.graph, v.calculatedFactory, call),
          if call.CalculatedFactory? then call.installed else v.calculatedFactory,
          PanelsNext(v.panels, call), ProgramsNext(v.programs, call),
          TwinsNext(v.twins, v.programs.Keys, v.programFactory, call),
          if call.ProgramFactory? then call.installed else v.programFactory)
  }

  function After(v: Shown, calls: seq<Call>): Shown {
    if calls == [] then v else Next(After(v, calls[..|calls| - 1]), calls[|calls| - 1])
  }

  // ---- the objects behind it ----

  /** Something a consumer may hold on to. */
  datatype Handle =
    | DeviceAt(address: G.Address)
    | ChannelAt(channel: G.ChannelKey)
    | DataPointAt(dp: G.DpKey)
    | CdpAt(cdp: G.CdpKey)
    | ProfileAt(address: G.Address, climate: bool)
    | PanelAt(uid: string)
    | ProgramAt(id: string)
    | TwinsOf(id: string)

  predicate Has(v: Shown, h: Handle) {
    match h
    case DeviceAt(a) => a in v.graph.devices
    case ChannelAt(k) => k in v.graph.channels
    case DataPointAt(k) => k in v.graph.dataPoints
    case CdpAt(k) => k in v.graph.cdps
    case ProfileAt(a, climate) => a in v.graph.weekProfiles && climate in v.graph.weekProfiles[a]
    case PanelAt(uid) => uid in v.panels
    case ProgramAt(id) => id in v.programs
    case TwinsOf(id) => id in v.twins
  }

  /** The calls that put another object under a key: a calculated catalogue, and a new week profile. */
  ghost predicate Rebuilds(calculatedFactory: bool, call: Call, h: Handle) {
    && call.OnGraph?
    && match call.op
       case Calculated(a, n, calcs) => calculatedFactory && h.DataPointAt? && Calculates(a, n, calcs, h.dp)
       case WeekProfile(a, climate) => h == ProfileAt(a, climate)
       case _ => false
  }

  // ---- calls on the device graph ----

  /** A key that is there before and after keeps its object. */
  ghost predicate Same<K, H>(was: map<K, H>, now: map<K, H>) {
    forall k <- was :: k in now ==> now[k] == was[k]
  }

  ghost predicate SameDataPoints(
    calculatedFactory: bool, call: Call, was: map<G.DpKey, DataPoint>, now: map<G.DpKey, DataPoint>) {
    forall k <- was :: k in now && !Rebuilds(calculatedFactory, call, DataPointAt(k)) ==> now[k] == was[k]
  }

  ghost predicate SameProfiles(call: Call, was: map<G.Address, Profiles>, now: map<G.Address, Profiles>) {
    forall a, climate ::
      (&& a in was && climate in was[a] && a in now && climate in now[a]
       && !Rebuilds(true, call, ProfileAt(a, climate))) ==>
        now[a][climate] == was[a][climate]
  }

  ghost predicate GraphLasts(
    calculatedFactory: bool, call: Call, was: Holdings, wasProfiles: map<G.Address, Profiles>, now: Holdings,
    nowProfiles: map<G.Address, Profiles>) {
    && Same(was.devices, now.devices) && Same(was.channels, now.channels) && Same(was.cdps, now.cdps)
    && SameDataPoints(calculatedFactory, call, was.dataPoints, now.dataPoints)
    && SameProfiles(call, wasProfiles, nowProfiles)
  }

  /** A catalogue read of custom data points pairs names with channels and moves none; any other call will do. */
  ghost predicate SteadyRead(g: G.Graph, call: Call) {
    call.OnGraph? && call.op.Cdps? ==> SteadyCdps(g.cdps, call.op.address, call.op.cdps)
  }

  predicate OnDevices(call: Call) {
    call.OnGraph? && (call.op.Load? || call.op.Created? || call.op.Available? || call.op.Refreshed?)
  }

  method RunOnDevices(store: LoomStore, call: Call)
    requires store.Valid() && OnDevices(call)
    modifies store`devices, store`deviceCapWarned, store.devices.Values
    ensures store.Valid() && store.View() == GraphNext(old(store.View()), store.calculatedFactory, call)
    ensures Same(old(store.devices), store.devices) && fresh(store.devices.Values - old(store.devices.Values))
  {
    hide LoomStore.View, LoomStore.Valid, G.LoadDevices, G.ApplyDeviceCreated, G.ApplyAvailabilityChanged,
         G.ApplyRefreshed;
    match call.op {
      case Load(summaries) => store.LoadSnapshot(summaries);
      case Created(a) => store.ApplyDeviceCreated(a);
      case Available(a, available) => store.ApplyDeviceAvailabilityChanged(a, available);
      case Refreshed(a, at) => store.ApplyDeviceRefreshed(a, at);
    }
  }

  predicate OnDataPoints(call: Call) {
    || call.DpAnswer? || call.CalculatedAnswer?
    || (call.OnGraph? && (call.op.DataPoints? || call.op.Calculated? || call.op.Value?))
  }

  method RunOnDataPoints(store: LoomStore, call: Call)
    requires store.Valid() && OnDataPoints(call)
    modifies store`dataPoints, store`calculatedDpKeys, store.dataPoints.Values
    ensures store.Valid() && store.View() == GraphNext(old(store.View()), store.calculatedFactory, call)
    ensures SameDataPoints(store.calculatedFactory, call, old(store.dataPoints), store.dataPoints)
    ensures fresh(store.dataPoints.Values - old(store.dataPoints.Values))
  {
    hide LoomStore.View, LoomStore.Valid, Calculates, G.AttachDataPoints, G.AttachCalculated, G.ApplyValueChanged,
         Refresh.DpWriteBack, Refresh.CalculatedWriteBack;
    match call {
      case DpAnswer(key, summary) => store.FinishDataPointRefresh(key, summary);
      case CalculatedAnswer(key, reading, available) => store.FinishCalculatedRefresh(key, reading, available);
      case OnGraph(DataPoints(a, n, dps)) => store.AttachChannelDataPoints(a, n, dps);
      case OnGraph(Calculated(a, n, calcs)) => store.AttachChannelCalculatedDataPoints(a, n, calcs);
      case OnGraph(Value(push)) => store.ApplyValueChanged(push);
    }
  }

  predicate OnCdps(call: Call) {
    call.CdpAnswer? || (call.OnGraph? && (call.op.Cdps? || call.op.CdpPush?))
  }

  method RunOnCdps(store: LoomStore, call: Call)
    requires store.Valid() && OnCdps(call)
    modifies store`cdps, store`cdpByChannel, store.cdps.Values
    ensures store.Valid() && store.View() == GraphNext(old(store.View()), store.calculatedFactory, call)
    ensures Same(old(store.cdps), store.cdps) && fresh(store.cdps.Values - old(store.cdps.Values))
    ensures old(Agrees(store.CdpTable()) && SteadyRead(store.View(), call)) ==> Agrees(store.CdpTable())
  {
    hide LoomStore.View, LoomStore.Valid, LoomStore.CdpTable, Agrees, SteadyCdps, Reconciled, G.AttachCdps,
         G.ApplyCdpState,
         Refresh.CdpWriteBack;
    match call {
      case CdpAnswer(key, generation, detail) => store.FinishCdpRefresh(key, generation, detail);
      case OnGraph(Cdps(a, summaries)) => store.AttachCustomDataPoints(a, summaries);
      case OnGraph(CdpPush(key, state)) => store.ApplyCustomDataPointStateChanged(key, state);
    }
  }

  method RunDetail(store: LoomStore, call: Call)
    requires store.Valid() && call.OnGraph? && call.op.Detail?
    modifies store`devices, store`deviceCapWarned, store`channels, store`dataPoints, store`calculatedDpKeys
    modifies store.devices.Values, store.channels.Values
    ensures store.Valid() && store.View() == GraphNext(old(store.View()), store.calculatedFactory, call)
    ensures Same(old(store.devices), store.devices) && fresh(store.devices.Values - old(store.devices.Values))
    ensures Same(old(store.channels), store.channels) && fresh(store.channels.Values - old(store.channels.Values))
    ensures Within(store.dataPoints, old(store.dataPoints))
  {
    hide LoomStore.View, LoomStore.Valid, Within, G.AttachDetail;
    store.AttachDeviceDetail(call.op.summary, call.op.channels);
  }

  method RunRemoval(store: LoomStore, call: Call)
    requires store.Valid() && call.OnGraph? && call.op.Removed?
    modifies store`devices, store`channels, store`dataPoints, store`calculatedDpKeys, store`cdps, store`cdpByChannel
    modifies store`weekProfiles
    ensures store.Valid() && store.View() == GraphNext(old(store.View()), store.calculatedFactory, call)
    ensures Within(store.devices, old(store.devices)) && Within(store.channels, old(store.channels))
    ensures Within(store.dataPoints, old(store.dataPoints)) && Within(store.cdps, old(store.cdps))
    ensures Within(store.weekProfiles, old(store.weekProfiles))
    ensures old(Agrees(store.CdpTable())) ==> Agrees(store.CdpTable())
  {
    hide LoomStore.View, LoomStore.Valid, LoomStore.CdpTable, Agrees, IndexTable.Without, G.ApplyDeviceRemoved;
    store.ApplyDeviceRemoved(call.op.address);
  }

  method RunProfile(store: LoomStore, call: Call)
    requires store.Valid() && call.OnGraph? && call.op.WeekProfile?
    modifies store`weekProfiles
    ensures store.Valid() && store.View() == GraphNext(old(store.View()), store.calculatedFactory, call)
    ensures SameProfiles(call, old(store.weekProfiles), store.weekProfiles)
  {
    hide LoomStore.View, LoomStore.Valid, G.SetWeekProfile;
    var built := new WeekProfileDataPoint();
    store.SetWeekProfileDataPoint(call.op.address, built, call.op.climate);
  }

  // ---- any call on the device graph ----

  predicate OnTheGraph(call: Call) {
    call.OnGraph? || call.CdpAnswer? || call.DpAnswer? || call.CalculatedAnswer?
  }

  lemma {:induction false} WithinLasts<K, H>(was: map<K, H>, now: map<K, H>)
    requires Within(now, was)
    ensures Same(was, now) && now.Values <= was.Values
  {
  }

  /** What the store holds of the device graph: the value, the objects, and the channel index. */
  datatype GraphShot = GraphShot(
    view: G.Graph, calculatedFactory: bool, held: Holdings, profiles: map<G.Address, Profiles>,
    table: Table<G.CdpKey, G.ChannelKey, CustomDataPoint>)

  ghost function GraphOf(store: LoomStore): GraphShot
    reads store`devices, store`channels, store`dataPoints, store`calculatedDpKeys, store`cdps, store`cdpByChannel
    reads store`weekProfiles, store`calculatedFactory
    reads store.devices.Values, store.channels.Values, store.dataPoints.Values, store.cdps.Values
  {
    GraphShot(store.View(), store.calculatedFactory, store.Held(), store.weekProfiles, store.CdpTable())
  }

  ghost function GraphObjects(store: LoomStore): set<object>
    reads store`devices, store`channels, store`dataPoints, store`cdps
  {
    var (devices: set<object>, channels: set<object>) := (store.devices.Values, store.channels.Values);
    var (dataPoints: set<object>, cdps: set<object>) := (store.dataPoints.Values, store.cdps.Values);
    devices + channels + dataPoints + cdps
  }

  lemma GraphOfStore(store: LoomStore)
    ensures GraphOf(store)
         == GraphShot(store.View(), store.calculatedFactory,
                      Holdings(store.devices, store.channels, store.dataPoints, store.cdps),
                      store.weekProfiles, store.CdpTable())
    ensures forall o: object :: o in GraphObjects(store) <==>
              || o in store.devices.Values || o in store.channels.Values
              || o in store.dataPoints.Values || o in store.cdps.Values
  {
  }

  /** One call on the graph: the value moves as it should, handles last, and a steady read keeps the index exact. */
  ghost predicate GraphStep(was: GraphShot, call: Call, now: GraphShot) {
    && now.view == GraphNext(was.view, was.calculatedFactory, call)
    && now.calculatedFactory == was.calculatedFactory
    && GraphLasts(was.calculatedFactory, call, was.held, was.profiles, now.held, now.profiles)
    && (Agrees(was.table) && SteadyRead(was.view, call) ==> Agrees(now.table))
  }

  lemma {:induction false} EveryDictLasts(was: GraphShot, call: Call, now: GraphShot)
    requires now.view == GraphNext(was.view, was.calculatedFactory, call)
    requires now.calculatedFactory == was.calculatedFactory
    requires was.held.devices == now.held.devices || Same(was.held.devices, now.held.devices)
    requires was.held.channels == now.held.channels || Same(was.held.channels, now.held.channels)
    requires was.held.cdps == now.held.cdps || Same(was.held.cdps, now.held.cdps)
    requires || was.held.dataPoints == now.held.dataPoints || Same(was.held.dataPoints, now.held.dataPoints)
             || SameDataPoints(was.calculatedFactory, call, was.held.dataPoints, now.held.dataPoints)
    requires || was.profiles == now.profiles || Same(was.profiles, now.profiles)
             || SameProfiles(call, was.profiles, now.profiles)
    requires now.table == was.table || (Agrees(was.table) && SteadyRead(was.view, call) ==> Agrees(now.table))
    ensures GraphStep(was, call, now)
  {
    hide GraphNext, Agrees, SteadyRead;
  }

  method RunOnGraph(store: LoomStore, call: Call)
    requires store.Valid() && OnTheGraph(call)
    modifies store`devices, store`deviceCapWarned, store`channels, store`dataPoints, store`calculatedDpKeys, store`cdps
    modifies store`cdpByChannel, store`weekProfiles, GraphObjects(store)
    ensures store.Valid() && GraphStep(old(GraphOf(store)), call, GraphOf(store))
    ensures fresh(GraphObjects(store) - old(GraphObjects(store)))
  {
    hide *;
    ghost var was := GraphOf(store);
    GraphOfStore(store);
    GraphKinds(call);
    if OnDevices(call) {
      RunOnDevices(store, call);
    } else if OnDataPoints(call) {
      RunOnDataPoints(store, call);
    } else if OnCdps(call) {
      RunOnCdps(store, call);
    } else if call.op.Detail? {
      RunDetail(store, call);
      WithinLasts(was.held.dataPoints, store.dataPoints);
    } else if call.op.Removed? {
      RunRemoval(store, call);
      WithinLasts(was.held.devices, store.devices);
      WithinLasts(was.held.channels, store.channels);
      WithinLasts(was.held.dataPoints, store.dataPoints);
      WithinLasts(was.held.cdps, store.cdps);
      WithinLasts(was.profiles, store.weekProfiles);
    } else {
      RunProfile(store, call);
    }
    GraphOfStore(store);
    EveryDictLasts(was, call, GraphOf(store));
  }

  lemma {:induction false} GraphKinds(call: Call)
    requires OnTheGraph(call)
    ensures OnDevices(call) || OnDataPoints(call) || OnCdps(call)
            || (call.OnGraph? && (call.op.Detail? || call.op.Removed? || call.op.WeekProfile?))
  {
  }

  // ---- calls on panels and programs ----

  /** No known panel changes its zone, and no two share one; any call on something else will do. */
  ghost predicate SteadyPanelCall(panels: map<string, PanelSummary>, call: Call) {
    match call
    case PanelCatalogue(entities) => SteadyPanels(panels, entities)
    case PanelPush(push) => SteadyPush(panels, push)
    case _ => true
  }

  method RunOnPanels(store: LoomStore, call: Call)
    requires store.PanelsValid() && (call.PanelCatalogue? || call.PanelPush?)
    modifies store`alarmPanels, store`alarmPanelByZone, store.alarmPanels.Values
    ensures store.PanelsValid() && store.Panels() == PanelsNext(old(store.Panels()), call)
    ensures Same(old(store.alarmPanels), store.alarmPanels)
    ensures fresh(store.alarmPanels.Values - old(store.alarmPanels.Values))
    ensures old(Agrees(store.PanelTable()) && SteadyPanelCall(store.Panels(), call)) ==> Agrees(store.PanelTable())
  {
    hide LoomStore.PanelsValid, LoomStore.Panels, LoomStore.PanelTable, Agrees, SteadyPanels, SteadyPush, Reconciled,
         Registered,
         Dropped, PanelsAfter, PutAll, StalePanels, PanelWrites;
    match call {
      case PanelCatalogue(entities) => store.AttachAlarmPanels(entities);
      case PanelPush(push) => store.ApplyAlarmPanelChanged(push);
    }
  }

  predicate OnPrograms(call: Call) {
    call.ProgramEntry? || call.ProgramPush? || call.ProgramRun? || call.ProgramFactory?
  }

  ghost function ProgramObjects(store: LoomStore): set<Program>
    reads store`programs, store`programDps
  {
    store.programs.Values + store.TwinObjects()
  }

  method RunOnPrograms(store: LoomStore, call: Call)
    requires store.ProgramsValid() && OnPrograms(call)
    modifies store`programs, store`programDps, store`programFactory, ProgramObjects(store)
    ensures store.ProgramsValid() && store.Programs() == ProgramsNext(old(store.Programs()), call)
    ensures store.programDps.Keys
         == TwinsNext(old(store.programDps.Keys), old(store.programs.Keys), old(store.programFactory), call)
    ensures store.programFactory == if call.ProgramFactory? then call.installed else old(store.programFactory)
    ensures Same(old(store.programs), store.programs) && Same(old(store.programDps), store.programDps)
    ensures fresh(ProgramObjects(store) - old(ProgramObjects(store)))
  {
    hide LoomStore.ProgramsValid, LoomStore.Programs, Flipped;
    match call {
      case ProgramEntry(p) => store.UpsertProgram(p);
      case ProgramPush(id, active, executeAvailable, link) =>
        store.ApplyProgramChanged(id, active, executeAvailable, link);
      case ProgramRun(id, link) => store.ApplyProgramExecuted(id, link);
      case ProgramFactory(installed) => store.SetProgramFactory(installed);
    }
  }

  // ---- any call ----

  /** The whole store at one moment: what it shows, the objects behind it, and its two indexes. */
  datatype Shot = Shot(
    graph: GraphShot, panels: map<string, PanelSummary>, panelTable: Table<string, string, AlarmPanel>,
    programs: map<string, ProgramSummary>, programObjects: map<string, Program>, twins: map<string, seq<Program>>,
    programFactory: bool)

  function Shows(s: Shot): Shown {
    Shown(s.graph.view, s.graph.calculatedFactory, s.panels, s.programs, s.twins.Keys, s.programFactory)
  }

  function One<K, H>(m: map<K, H>, k: K): seq<H> {
    if k in m then [m[k]] else []
  }

  /** The objects behind a handle: one, or the twins of a program, or none. */
  function At(s: Shot, h: Handle): seq<object> {
    match h
    case DeviceAt(a) => One(s.graph.held.devices, a)
    case ChannelAt(k) => One(s.graph.held.channels, k)
    case DataPointAt(k) => One(s.graph.held.dataPoints, k)
    case CdpAt(k) => One(s.graph.held.cdps, k)
    case ProfileAt(a, climate) => One(ProfilesOf(s.graph.profiles, a), climate)
    case PanelAt(uid) => One(s.panelTable.primary, uid)
    case ProgramAt(id) => One(s.programObjects, id)
    case TwinsOf(id) => if id in s.twins then s.twins[id] else []
  }

  /** Every dict has the keys that are shown. */
  ghost predicate Kept(s: Shot) {
    && s.graph.view.devices.Keys == s.graph.held.devices.Keys
    && s.graph.view.channels.Keys == s.graph.held.channels.Keys
    && s.graph.view.dataPoints.Keys == s.graph.held.dataPoints.Keys && s.graph.view.cdps.Keys == s.graph.held.cdps.Keys
    && s.graph.view.weekProfiles == ProfileKinds(s.graph.profiles)
    && s.panels.Keys == s.panelTable.primary.Keys && s.programs.Keys == s.programObjects.Keys
  }

  ghost function Objects(store: LoomStore): set<object>
    reads store`devices, store`channels, store`dataPoints
    reads store`cdps, store`alarmPanels, store`programs, store`programDps
  {
    var (panels: set<object>, programs: set<object>) := (store.alarmPanels.Values, ProgramObjects(store));
    GraphObjects(store) + panels + programs
  }

  ghost predicate Intact(store: LoomStore)
    reads store, Objects(store)
  {
    store.Valid() && store.PanelsValid() && store.ProgramsValid()
  }

  ghost function ShotOf(store: LoomStore): Shot
    reads store, Objects(store)
  {
    Shot(GraphOf(store), store.Panels(), store.PanelTable(), store.Programs(), store.programs, store.programDps,
         store.programFactory)
  }

  lemma ShotOfStore(store: LoomStore)
    ensures ShotOf(store)
         == Shot(GraphOf(store), store.Panels(), store.PanelTable(), store.Programs(), store.programs, store.programDps,
                 store.programFactory)
    ensures Intact(store) <==> store.Valid() && store.PanelsValid() && store.ProgramsValid()
    ensures forall o: object :: o in Objects(store) <==>
              o in GraphObjects(store) || o in store.alarmPanels.Values || o in ProgramObjects(store)
  {
  }

  lemma ShotIsKept(store: LoomStore)
    ensures Kept(ShotOf(store))
  {
  }

  /** A handle held before a call still leads to the same objects after it, unless the call drops or rebuilds them. */
  ghost predicate Lasts(was: Shot, call: Call, now: Shot) {
    forall h: Handle :: Has(Shows(was), h) && Has(Shows(now), h) && !Rebuilds(was.graph.calculatedFactory, call, h) ==>
                          At(now, h) == At(was, h)
  }

  /** One call: what is shown moves as it should, handles last, and a steady call keeps both indexes exact. */
  ghost predicate Step(was: Shot, call: Call, now: Shot) {
    && Shows(now) == Next(Shows(was), call)
    && Lasts(was, call, now)
    && (Agrees(was.graph.table) && SteadyRead(was.graph.view, call) ==> Agrees(now.graph.table))
    && (Agrees(was.panelTable) && SteadyPanelCall(was.panels, call) ==> Agrees(now.panelTable))
  }

  lemma {:induction false} SameObject<K, H>(was: map<K, H>, now: map<K, H>, k: K)
    requires Same(was, now) && k in was && k in now
    ensures One(now, k) == One(was, k)
  {
  }

  lemma {:induction false} GraphHandleLasts(was: Shot, call: Call, now: Shot, h: Handle)
    requires Kept(was) && Kept(now) && now == was.(graph := now.graph)
    requires GraphLasts(was.graph.calculatedFactory, call, was.graph.held, was.graph.profiles,
                        now.graph.held, now.graph.profiles)
    requires Has(Shows(was), h) && Has(Shows(now), h) && !Rebuilds(was.graph.calculatedFactory, call, h)
    ensures At(now, h) == At(was, h)
  {
    hide Same, One;
    match h {
      case DeviceAt(a) => SameObject(was.graph.held.devices, now.graph.held.devices, a);
      case ChannelAt(k) => SameObject(was.graph.held.channels, now.graph.held.channels, k);
      case CdpAt(k) => SameObject(was.graph.held.cdps, now.graph.held.cdps, k);
      case DataPointAt(k) =>
        DataPointLasts(was.graph.calculatedFactory, call, was.graph.held.dataPoints, now.graph.held.dataPoints, k);
      case ProfileAt(a, climate) => ProfileLasts(call, was.graph.profiles, now.graph.profiles, a, climate);
      case _ =>
    }
  }

  lemma {:induction false} DataPointLasts(
    calculatedFactory: bool, call: Call, was: map<G.DpKey, DataPoint>, now: map<G.DpKey, DataPoint>, k: G.DpKey)
    requires SameDataPoints(calculatedFactory, call, was, now) && k in was && k in now
    requires !Rebuilds(calculatedFactory, call, DataPointAt(k))
    ensures One(now, k) == One(was, k)
  {
  }

  lemma {:induction false} ProfileLasts(
    call: Call, was: map<G.Address, Profiles>, now: map<G.Address, Profiles>, a: G.Address, climate: bool)
    requires SameProfiles(call, was, now) && a in was && climate in was[a] && a in now && climate in now[a]
    requires !Rebuilds(true, call, ProfileAt(a, climate))
    ensures One(ProfilesOf(now, a), climate) == One(ProfilesOf(was, a), climate)
  {
  }

  lemma {:induction false} StepOnGraph(was: Shot, call: Call, now: Shot)
    requires OnTheGraph(call) && Kept(was) && Kept(now)
    requires GraphStep(was.graph, call, now.graph) && now == was.(graph := now.graph)
    ensures Step(was, call, now)
  {
    hide GraphNext, Agrees, SteadyRead, GraphLasts, Kept, Has, Rebuilds, At;
    forall h: Handle | Has(Shows(was), h) && Has(Shows(now), h) && !Rebuilds(was.graph.calculatedFactory, call, h)
      ensures At(now, h) == At(was, h)
    {
      GraphHandleLasts(was, call, now, h);
    }
  }

  lemma {:induction false} StepOnPanels(was: Shot, call: Call, now: Shot)
    requires (call.PanelCatalogue? || call.PanelPush?) && Kept(was) && Kept(now)
    requires now == was.(panels := PanelsNext(was.panels, call), panelTable := now.panelTable)
    requires Same(was.panelTable.primary, now.panelTable.primary)
    requires Agrees(was.panelTable) && SteadyPanelCall(was.panels, call) ==> Agrees(now.panelTable)
    ensures Step(was, call, now)
  {
    hide PanelsNext, Agrees, SteadyPanelCall;
    forall h: Handle | Has(Shows(was), h) && Has(Shows(now), h) ensures At(now, h) == At(was, h) {
      if h.PanelAt? {
        SameObject(was.panelTable.primary, now.panelTable.primary, h.uid);
      }
    }
  }

  lemma {:induction false} StepOnPrograms(was: Shot, call: Call, now: Shot)
    requires OnPrograms(call) && Kept(was) && Kept(now)
    requires now == was.(programs := ProgramsNext(was.programs, call), programObjects := now.programObjects,
                         twins := now.twins,
                         programFactory := if call.ProgramFactory? then call.installed else was.programFactory)
    requires now.twins.Keys == TwinsNext(was.twins.Keys, was.programObjects.Keys, was.programFactory, call)
    requires Same(was.programObjects, now.programObjects) && Same(was.twins, now.twins)
    ensures Step(was, call, now)
  {
    hide ProgramsNext, TwinsNext, Agrees;
    forall h: Handle | Has(Shows(was), h) && Has(Shows(now), h) ensures At(now, h) == At(was, h) {
    }
  }

  lemma {:induction false} StepOnFactory(was: Shot, call: Call, now: Shot)
    requires call.CalculatedFactory? && now == was.(graph := was.graph.(calculatedFactory := call.installed))
    ensures Step(was, call, now)
  {
  }

  /** An object is of one class, so a call on one part of the store touches no object of another. */
  lemma PartsAreApart(store: LoomStore)
    ensures forall o: object ::
              o in GraphObjects(store) ==> o !in store.alarmPanels.Values && o !in ProgramObjects(store)
    ensures forall o: object :: o in store.alarmPanels.Values ==> o !in ProgramObjects(store)
    ensures store.programs.Values <= ProgramObjects(store)
    ensures forall id <- store.programDps, t <- store.programDps[id] :: t in ProgramObjects(store)
    ensures (store as object) !in GraphObjects(store)
    ensures forall o: object :: o in GraphObjects(store) || o in ProgramObjects(store) ==> allocated(o)
  {
  }

  method PerformOnGraph(store: LoomStore, call: Call)
    requires Intact(store) && OnTheGraph(call)
    modifies store`devices, store`deviceCapWarned, store`channels, store`dataPoints, store`calculatedDpKeys, store`cdps
    modifies store`cdpByChannel, store`weekProfiles, GraphObjects(store)
    ensures Intact(store) && Step(old(ShotOf(store)), call, ShotOf(store))
    ensures fresh(Objects(store) - old(Objects(store)))
  {
    hide *;
    ghost var was := ShotOf(store);
    ShotOfStore(store);
    PartsAreApart(store);
    ShotIsKept(store);
    RunOnGraph(store, call);
    assert store.Panels() == was.panels && store.PanelTable() == was.panelTable;
    assert store.Programs() == was.programs;
    assert store.PanelsValid() && store.ProgramsValid();
    ShotOfStore(store);
    ShotIsKept(store);
    StepOnGraph(was, call, ShotOf(store));
  }

  method PerformOnPanels(store: LoomStore, call: Call)
    requires Intact(store) && (call.PanelCatalogue? || call.PanelPush?)
    modifies store`alarmPanels, store`alarmPanelByZone, store.alarmPanels.Values
    ensures Intact(store) && Step(old(ShotOf(store)), call, ShotOf(store))
    ensures fresh(Objects(store) - old(Objects(store)))
  {
    hide *;
    ghost var was := ShotOf(store);
    ShotOfStore(store);
    PartsAreApart(store);
    ShotIsKept(store);
    RunOnPanels(store, call);
    assert GraphOf(store) == was.graph;
    assert store.Programs() == was.programs;
    assert store.Valid() && store.ProgramsValid();
    assert GraphObjects(store) == old(GraphObjects(store)) && ProgramObjects(store) == old(ProgramObjects(store));
    ShotOfStore(store);
    ShotIsKept(store);
    StepOnPanels(was, call, ShotOf(store));
  }

  method PerformOnPrograms(store: LoomStore, call: Call)
    requires Intact(store) && OnPrograms(call)
    modifies store`programs, store`programDps, store`programFactory, ProgramObjects(store)
    ensures Intact(store) && Step(old(ShotOf(store)), call, ShotOf(store))
    ensures fresh(Objects(store) - old(Objects(store)))
  {
    hide *;
    ghost var was := ShotOf(store);
    ShotOfStore(store);
    PartsAreApart(store);
    ShotIsKept(store);
    RunOnPrograms(store, call);
    assert GraphOf(store) == was.graph;
    assert store.Panels() == was.panels && store.PanelTable() == was.panelTable;
    assert store.Valid() && store.PanelsValid();
    ShotOfStore(store);
    ShotIsKept(store);
    StepOnPrograms(was, call, ShotOf(store));
  }

  /** Any call: what the store shows afterwards is what the call makes of what it showed, in the same objects. */
  method Perform(store: LoomStore, call: Call)
    requires Intact(store)
    modifies store, Objects(store)
    ensures Intact(store) && Step(old(ShotOf(store)), call, ShotOf(store))
    ensures fresh(Objects(store) - old(Objects(store)))
  {
    hide *;
    EveryCallIsOfAKind(call);
    ShotOfStore(store);
    if OnTheGraph(call) {
      PerformOnGraph(store, call);
    } else if OnPrograms(call) {
      PerformOnPrograms(store, call);
    } else if call.CalculatedFactory? {
      InstallFactory(store, call);
    } else {
      PerformOnPanels(store, call);
    }
  }

  lemma {:induction false} EveryCallIsOfAKind(call: Call)
    ensures OnTheGraph(call) || OnPrograms(call) || call.CalculatedFactory? || call.PanelCatalogue? || call.PanelPush?
  {
  }

  method InstallFactory(store: LoomStore, call: Call)
    requires Intact(store) && call.CalculatedFactory?
    modifies store`calculatedFactory
    ensures Intact(store) && Step(old(ShotOf(store)), call, ShotOf(store))
    ensures Objects(store) == old(Objects(store))
  {
    hide *;
    ghost var was := ShotOf(store);
    ShotOfStore(store);
    GraphOfStore(store);
    store.calculatedFactory := call.installed;
    assert Objects(store) == old(Objects(store));
    assert store.Valid();
    assert store.PanelsValid();
    assert store.ProgramsValid();
    ShotOfStore(store);
    GraphOfStore(store);
    StepOnFactory(was, call, ShotOf(store));
  }

  // ---- whole runs ----

  /** The handle leads somewhere after every prefix of the run, and no call of the run puts another object there. */
  ghost predicate Stands(v: Shown, calls: seq<Call>, h: Handle) {
    && Has(After(v, calls), h)
    && (calls != [] ==>
          var front, last := calls[..|calls| - 1], calls[|calls| - 1];
          Stands(v, front, h) && !Rebuilds(After(v, front).calculatedFactory, last, h))
  }

  /** Every catalogue read of custom data points in the run is a steady one. */
  ghost predicate SteadyReads(v: Shown, calls: seq<Call>) {
    calls != [] ==>
      var front, last := calls[..|calls| - 1], calls[|calls| - 1];
      SteadyReads(v, front) && SteadyRead(After(v, front).graph, last)
  }

  /** ... and every call on the alarm panels. */
  ghost predicate SteadyPanelCalls(v: Shown, calls: seq<Call>) {
    calls != [] ==>
      var front, last := calls[..|calls| - 1], calls[|calls| - 1];
      SteadyPanelCalls(v, front) && SteadyPanelCall(After(v, front).panels, last)
  }

  /** What a run of calls makes of a store. */
  ghost predicate Run(was: Shot, calls: seq<Call>, now: Shot) {
    && Shows(now) == After(Shows(was), calls)
    && (forall h: Handle :: Stands(Shows(was), calls, h) ==> At(now, h) == At(was, h))
    && (Agrees(was.graph.table) && SteadyReads(Shows(was), calls) ==> Agrees(now.graph.table))
    && (Agrees(was.panelTable) && SteadyPanelCalls(Shows(was), calls) ==> Agrees(now.panelTable))
  }

  lemma {:induction false} RunNone(s: Shot)
    ensures Run(s, [], s)
  {
  }

  lemma {:induction false} RunOneMore(was: Shot, calls: seq<Call>, mid: Shot, call: Call, now: Shot)
    requires Run(was, calls, mid) && Step(mid, call, now)
    ensures Run(was, calls + [call], now)
  {
    hide Next, Agrees, SteadyRead, SteadyPanelCall, Has, At, Rebuilds;
    var more, v := calls + [call], Shows(was);
    assert more[..|more| - 1] == calls;
    forall h: Handle | Stands(v, more, h) ensures At(now, h) == At(was, h) {
      StandsBefore(v, calls, h);
    }
  }

  lemma {:induction false} StandsBefore(v: Shown, calls: seq<Call>, h: Handle)
    requires Stands(v, calls, h)
    ensures Has(After(v, calls), h)
  {
  }

  /**
   Over any sequence of calls: the store shows the fold of the pure calls; a handle that stood all the
   way leads to the very objects it led to at the start; and with steady calls only, both indexes still
   answer as scans would.
   */
  method RunAll(store: LoomStore, calls: seq<Call>)
    requires Intact(store)
    modifies store, Objects(store)
    ensures Intact(store) && Run(old(ShotOf(store)), calls, ShotOf(store))
    ensures fresh(Objects(store) - old(Objects(store)))
  {
    hide *;
    ghost var was := ShotOf(store);
    RunNone(was);
    assert calls[..0] == [];
    for i := 0 to |calls|
      invariant Intact(store) && Run(was, calls[..i], ShotOf(store))
      invariant forall o <- Objects(store) :: o in old(Objects(store)) || fresh(o)
    {
      ghost var mid, objects := ShotOf(store), Objects(store);
      label L:
      Perform(store, calls[i]);
      assert forall o <- Objects(store) :: o in objects || fresh@L(o);
      assert forall o <- Objects(store) :: o in objects || fresh(o);
      RunOneMore(was, calls[..i], mid, calls[i], ShotOf(store));
      assert calls[..i + 1] == calls[..i] + [calls[i]];
    }
    assert calls[..|calls|] == calls;
  }
}
