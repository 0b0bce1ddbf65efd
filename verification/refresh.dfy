/**
 Re-reads over REST while pushes keep arriving: each refresh is a request, a gap in which anything may
 happen to the store, and a write-back. Custom data points carry no timestamp and are guarded by their
 apply generation; data points are guarded by `modified_at`.
 */
module Refresh {
  import opened Common
  import opened StoreGraph

  // ---- write-backs ----

  /** A custom data point's detail is written back when the object is there, its generation is the one
      captured with the request, and the detail carries a state. */
  function CdpWriteBack(g: Graph, key: CdpKey, generation: nat, detail: Option<CdpState>): Graph {
    if key in g.cdps && g.cdps[key].generation == generation && detail.Some? then ApplyCdpState(g, key, detail.value)
    else g
  }

  /** A re-read is stale when both timestamps exist and its own is the older one. */
  predicate IsStale(current: Option<int>, incoming: Option<int>) {
    current.Some? && incoming.Some? && incoming.value < current.value
  }

  function DpWriteBack(g: Graph, key: DpKey, summary: DpSummary): Graph {
    if key !in g.dataPoints || IsStale(g.dataPoints[key].modifiedAt, summary.modifiedAt) then g
    else g.(dataPoints := g.dataPoints[key := summary])
  }

  /** What a calculated re-read carries over; the rest of the summary stays. */
  datatype Reading = Reading(value: string, observed: bool, modifiedAt: Option<int>)

  function CalculatedWriteBack(g: Graph, key: DpKey, r: Reading): Graph {
    if key !in g.dataPoints || IsStale(g.dataPoints[key].modifiedAt, r.modifiedAt) then g
    else
      g.(dataPoints := g.dataPoints[
        key := g.dataPoints[key].(value := r.value, observed := r.observed, modifiedAt := r.modifiedAt)])
  }

  // ---- concurrent refreshes of custom data points ----

  /** Each refresh in flight remembers its key and the generation it saw. */
  datatype System = System(g: Graph, inFlight: map<nat, (CdpKey, nat)>)

  datatype Step =
    | Mutate(op: Op)
    | Request(id: nat, key: CdpKey)
    | Response(id: nat, detail: Option<CdpState>)
    | Failed(id: nat)

  predicate Enabled(s: System, step: Step) {
    match step
    case Mutate(_) => true
    case Request(id, _) => id !in s.inFlight
    case Response(id, _) => id in s.inFlight
    case Failed(id) => id in s.inFlight
  }

  function Next(s: System, step: Step): System
    requires Enabled(s, step)
  {
    match step
    case Mutate(op) => s.(g := Apply(s.g, op))
    case Request(id, key) =>
      if key in s.g.cdps then s.(inFlight := s.inFlight[id := (key, s.g.cdps[key].generation)]) else s
    case Response(id, detail) =>
      var (key, generation) := s.inFlight[id];
      System(CdpWriteBack(s.g, key, generation, detail), s.inFlight - {id})
    case Failed(id) => s.(inFlight := s.inFlight - {id})
  }

  function After(s: System, steps: seq<Step>): Option<System> {
    if steps == [] then Some(s)
    else
      var before := After(s, steps[..|steps| - 1]);
      var step := steps[|steps| - 1];
      if before.None? || !Enabled(before.value, step) then None else Some(Next(before.value, step))
  }

  /** The entries of a catalogue that seed a state under one key. */
  ghost predicate Seeds(key: CdpKey, a: Address, summaries: seq<CdpSummary>) {
    key.0 == a && exists s <- summaries :: s.name == key.1 && s.state.Some?
  }

  /** Whether a step writes the state of a registered custom data point. */
  ghost predicate WritesState(s: System, step: Step, key: CdpKey)
    requires Enabled(s, step)
  {
    match step
    case Mutate(CdpPush(k, _)) => k == key
    case Mutate(Cdps(a, summaries)) => Seeds(key, a, summaries)
    case Response(id, detail) => s.inFlight[id].0 == key && WritesBack(s, id, detail)
    case _ => false
  }

  /** Whether a response takes effect. */
  predicate WritesBack(s: System, id: nat, detail: Option<CdpState>)
    requires id in s.inFlight
  {
    var (key, generation) := s.inFlight[id];
    key in s.g.cdps && s.g.cdps[key].generation == generation && detail.Some?
  }

  lemma {:induction false} SeedsSnoc(key: CdpKey, a: Address, front: seq<CdpSummary>, last: CdpSummary)
    ensures Seeds(key, a, front + [last]) <==> Seeds(key, a, front) || (key == (a, last.name) && last.state.Some?)
  {
    if Seeds(key, a, front) {
      var s :| s in front && s.name == key.1 && s.state.Some?;
      assert s in front + [last];
    }
    assert last in front + [last];
  }

  lemma {:induction false} UpsertsCount(g: Graph, a: Address, summaries: seq<CdpSummary>, key: CdpKey)
    requires key in g.cdps
    ensures var h := UpsertCdps(g, a, summaries);
            && key in h.cdps
            && (if Seeds(key, a, summaries) then h.cdps[key].generation > g.cdps[key].generation
                else h.cdps[key].generation == g.cdps[key].generation && h.cdps[key].state == g.cdps[key].state)
  {
    if summaries != [] {
      hide Seeds, UpsertCdp;
      var front, last := summaries[..|summaries| - 1], summaries[|summaries| - 1];
      UpsertsCount(g, a, front, key);
      UpsertCounts(UpsertCdps(g, a, front), a, last, key);
      assert summaries == front + [last];
      SeedsSnoc(key, a, front, last);
    }
  }

  lemma {:induction false} UpsertCounts(g: Graph, a: Address, s: CdpSummary, key: CdpKey)
    requires key in g.cdps
    ensures var h := UpsertCdp(g, a, s);
            && key in h.cdps
            && h.cdps[key].generation == g.cdps[key].generation + (if key == (a, s.name) && s.state.Some? then 1 else 0)
            && (key != (a, s.name) || s.state.None? ==> h.cdps[key].state == g.cdps[key].state)
  {
  }

  lemma {:induction false} UnlistedIsDropped(g: Graph, a: Address, summaries: seq<CdpSummary>, key: CdpKey)
    ensures key in UpsertCdps(g, a, summaries).cdps ==>
              key in g.cdps || (key.0 == a && exists s <- summaries :: s.name == key.1)
  {
    if summaries != [] {
      var front, last := summaries[..|summaries| - 1], summaries[|summaries| - 1];
      UnlistedIsDropped(g, a, front, key);
      assert summaries == front + [last];
    }
  }

  lemma {:induction false} AttachCounts(g: Graph, a: Address, summaries: seq<CdpSummary>, key: CdpKey)
    requires key in g.cdps && key in AttachCdps(g, a, summaries).cdps
    ensures var h := AttachCdps(g, a, summaries);
            if Seeds(key, a, summaries) then h.cdps[key].generation > g.cdps[key].generation
            else h.cdps[key].generation == g.cdps[key].generation && h.cdps[key].state == g.cdps[key].state
  {
    var kept := g.(cdps := g.cdps - StaleCdps(g, a, summaries));
    UnlistedIsDropped(kept, a, summaries, key);
    UpsertsCount(kept, a, summaries, key);
  }

  lemma {:induction false} MutatorCounts(g: Graph, op: Op, key: CdpKey)
    requires key in g.cdps && key in Apply(g, op).cdps
    ensures var (was, now) := (g.cdps[key], Apply(g, op).cdps[key]);
            var writes := match op {
                case CdpPush(k, _) => k == key
                case Cdps(a, summaries) => Seeds(key, a, summaries)
                case _ => false
              };
            if writes then now.generation > was.generation
            else now.generation == was.generation && now.state == was.state
  {
    hide LoadDevices, PutAll, ChannelWrites, StaleChannels, StaleDataPoints, DpWrites, AttachCdps, CanAdmit, Seeds;
    match op {
      case Cdps(a, summaries) => AttachCounts(g, a, summaries, key);
      case Load(summaries) => LoadTouchesNoCdps(g, summaries);
      case _ =>
    }
  }

  /** While a custom data point stays registered, its generation counts exactly the steps that write its state. */
  lemma {:induction false} GenerationCountsWrites(s: System, step: Step, key: CdpKey)
    requires Enabled(s, step) && key in s.g.cdps && key in Next(s, step).g.cdps
    ensures var (was, now) := (s.g.cdps[key], Next(s, step).g.cdps[key]);
            if WritesState(s, step, key) then now.generation > was.generation
            else now.generation == was.generation && now.state == was.state
  {
    hide Apply, Seeds;
    if step.Mutate? {
      MutatorCounts(s.g, step.op, key);
    }
  }

  lemma {:induction false} LoadTouchesNoCdps(g: Graph, summaries: seq<DeviceSummary>)
    ensures LoadDevices(g, summaries).cdps == g.cdps
  {
    if summaries != [] {
      LoadTouchesNoCdps(g, summaries[..|summaries| - 1]);
    }
  }

  /** The refresh stays open and its custom data point registered over every prefix of the run. */
  ghost predicate StaysOpen(s: System, steps: seq<Step>, id: nat, key: CdpKey) {
    var t := After(s, steps);
    && t.Some? && id in t.value.inFlight && key in t.value.g.cdps
    && (steps != [] ==> StaysOpen(s, steps[..|steps| - 1], id, key))
  }

  ghost predicate SomeWrite(s: System, steps: seq<Step>, key: CdpKey) {
    exists k :: 0 <= k < |steps| && WriteAt(s, steps, k, key)
  }

  ghost predicate WriteAt(s: System, steps: seq<Step>, k: nat, key: CdpKey)
    requires k < |steps|
  {
    var t := After(s, steps[..k]);
    t.Some? && Enabled(t.value, steps[k]) && WritesState(t.value, steps[k], key)
  }

  lemma {:induction false} WriteSnoc(s: System, steps: seq<Step>, key: CdpKey)
    requires steps != []
    ensures SomeWrite(s, steps, key) <==> SomeWrite(s, steps[..|steps| - 1], key) || WriteAt(s, steps, |steps| - 1, key)
  {
    var n := |steps| - 1;
    var front := steps[..n];
    forall k | 0 <= k < n ensures WriteAt(s, front, k, key) <==> WriteAt(s, steps, k, key) {
      assert front[..k] == steps[..k];
    }
    if SomeWrite(s, front, key) {
      var k :| 0 <= k < n && WriteAt(s, front, k, key);
      assert WriteAt(s, steps, k, key);
    }
  }

  lemma {:induction false} CapturedGeneration(s: System, steps: seq<Step>, id: nat, key: CdpKey)
    requires key in s.g.cdps && id in s.inFlight && s.inFlight[id] == (key, s.g.cdps[key].generation)
    requires StaysOpen(s, steps, id, key)
    ensures var t := After(s, steps).value;
            && t.inFlight[id] == s.inFlight[id]
            && t.g.cdps[key].generation >= s.g.cdps[key].generation
            && (t.g.cdps[key].generation == s.g.cdps[key].generation <==> !SomeWrite(s, steps, key))
  {
    if steps != [] {
      var n := |steps| - 1;
      WriteSnoc(s, steps, key);
      CapturedGeneration(s, steps[..n], id, key);
      var m := After(s, steps[..n]).value;
      GenerationCountsWrites(m, steps[n], key);
    }
  }

  /**
   No lost update: with any number of refreshes in flight, a response is written back if and only if it
   carries a state and nothing wrote the custom data point since the request was sent.
   */
  lemma {:induction false} WrittenBackExactlyWhenNothingIntervened(
    s: System, id: nat, key: CdpKey, steps: seq<Step>, detail: Option<CdpState>)
    requires id !in s.inFlight && key in s.g.cdps
    requires StaysOpen(Next(s, Request(id, key)), steps, id, key)
    ensures var sent := Next(s, Request(id, key));
            WritesBack(After(sent, steps).value, id, detail) <==> detail.Some? && !SomeWrite(sent, steps, key)
  {
    CapturedGeneration(Next(s, Request(id, key)), steps, id, key);
  }

  /** A chain of enabled steps through the given states is a run that ends in the last of them. */
  lemma {:induction false} RunFollows(steps: seq<Step>, states: seq<System>)
    requires |states| == |steps| + 1
    requires forall i :: 0 <= i < |steps| ==> Enabled(states[i], steps[i]) && Next(states[i], steps[i]) == states[i + 1]
    ensures After(states[0], steps) == Some(states[|steps|])
  {
    if steps != [] {
      RunFollows(steps[..|steps| - 1], states[..|steps|]);
    }
  }

  /**
   The guard does not outlive the object: dropped and built anew meanwhile, the generation starts at zero
   again and an old answer overwrites the newer seed.
   */
  lemma {:induction false} RebuiltObjectTakesAnOldAnswer(
    g: Graph, s: CdpSummary, a: Address, id: nat, newer: CdpState, older: CdpState)
    requires g == EmptyGraph(1).(cdps := map[(a, s.name) := CdpRecord(s, map[], 0)])
    requires s.state == Some(newer) && newer != older
    ensures var key := (a, s.name);
            var steps := [Request(id, key), Mutate(Removed(a)), Mutate(Cdps(a, [s])), Response(id, Some(older))];
            var t := After(System(g, map[]), steps);
            t.Some? && Get(t.value.g.cdps, key) == Some(CdpRecord(s, older, 1))
  {
    hide Apply, EmptyGraph, After;
    var key, sent := (a, s.name), map[id := ((a, s.name), 0)];
    var h := Apply(Apply(g, Removed(a)), Cdps(a, [s]));
    RebuiltStartsAtZero(g, a, s);
    RunFollows([Request(id, key), Mutate(Removed(a)), Mutate(Cdps(a, [s])), Response(id, Some(older))],
               [System(g, map[]), System(g, sent), System(Apply(g, Removed(a)), sent), System(h, sent),
                System(CdpWriteBack(h, key, 0, Some(older)), map[])]);
  }

  lemma {:induction false} RebuiltStartsAtZero(g: Graph, a: Address, s: CdpSummary)
    requires s.state.Some? && g.cdps.Keys == {(a, s.name)}
    ensures Apply(Apply(g, Removed(a)), Cdps(a, [s])).cdps == map[(a, s.name) := CdpRecord(s, s.state.value, 0)]
  {
    var h := Apply(g, Removed(a));
    assert [s][..0] == [];
    assert h.cdps == map[] && StaleCdps(h, a, [s]) == {};
    var kept := h.(cdps := h.cdps - {});
    assert UpsertCdps(kept, a, [s]) == UpsertCdp(UpsertCdps(kept, a, []), a, s) == UpsertCdp(kept, a, s);
  }

  // ---- the same over objects that come and go ----

  /** What a run did to the object under a key: whether it was built in the run, and the writes since then. */
  datatype Life = Gone | Alive(rebuilt: bool, writes: nat)

  function Written(life: Life): Life {
    if life.Gone? then Gone else life.(writes := life.writes + 1)
  }

  /** The first entry builds a missing object; any other entry with a state is a write. */
  function Listed(life: Life, seeds: bool): Life {
    if life.Gone? then Alive(true, 0) else if seeds then Written(life) else life
  }

  function ListedAll(life: Life, key: CdpKey, a: Address, summaries: seq<CdpSummary>): Life {
    if summaries == [] then life
    else
      var before, last := ListedAll(life, key, a, summaries[..|summaries| - 1]), summaries[|summaries| - 1];
      if key == (a, last.name) then Listed(before, last.state.Some?) else before
  }

  function Mutated(life: Life, op: Op, key: CdpKey): Life {
    match op
    case Removed(a) => if key.0 == a then Gone else life
    case CdpPush(k, _) => if k == key then Written(life) else life
    case Cdps(a, summaries) =>
      ListedAll(if key.0 == a && forall s <- summaries :: s.name != key.1 then Gone else life, key, a, summaries)
    case _ => life
  }

  function Lived(life: Life, s: System, step: Step, key: CdpKey): Life
    requires Enabled(s, step)
  {
    match step
    case Mutate(op) => Mutated(life, op, key)
    case Response(id, detail) => if s.inFlight[id].0 == key && WritesBack(s, id, detail) then Written(life) else life
    case _ => life
  }

  function LifeOf(s: System, steps: seq<Step>, key: CdpKey): Life
    requires After(s, steps).Some?
  {
    if steps == [] then if key in s.g.cdps then Alive(false, 0) else Gone
    else
      var front := steps[..|steps| - 1];
      Lived(LifeOf(s, front, key), After(s, front).value, steps[|steps| - 1], key)
  }

  /** A life tells whether the object is there, and its generation. */
  predicate Tells(life: Life, g: Graph, key: CdpKey, base: nat) {
    match life
    case Gone => key !in g.cdps
    case Alive(rebuilt, writes) => key in g.cdps && g.cdps[key].generation == (if rebuilt then 0 else base) + writes
  }

  lemma {:induction false} ListedTells(
    life: Life, g: Graph, key: CdpKey, base: nat, a: Address, summaries: seq<CdpSummary>)
    requires Tells(life, g, key, base)
    ensures Tells(ListedAll(life, key, a, summaries), UpsertCdps(g, a, summaries), key, base)
  {
    if summaries != [] {
      ListedTells(life, g, key, base, a, summaries[..|summaries| - 1]);
    }
  }

  lemma {:induction false} OtherMutatorsTouchNoCdps(g: Graph, op: Op)
    requires !op.Removed? && !op.CdpPush? && !op.Cdps?
    ensures Apply(g, op).cdps == g.cdps
  {
    hide LoadDevices, PutAll, ChannelWrites, StaleChannels, StaleDataPoints, DpWrites, CanAdmit, Get;
    if op.Load? {
      LoadTouchesNoCdps(g, op.summaries);
    }
  }

  lemma {:induction false} MutatedTells(life: Life, g: Graph, key: CdpKey, base: nat, op: Op)
    requires Tells(life, g, key, base)
    ensures Tells(Mutated(life, op, key), Apply(g, op), key, base)
  {
    if op.Removed? {
      assert Apply(g, op) == ApplyDeviceRemoved(g, op.address);
    } else if op.CdpPush? {
      assert Apply(g, op) == ApplyCdpState(g, op.key, op.state);
    } else if op.Cdps? {
      AttachedTells(life, g, key, base, op.address, op.cdps);
    } else {
      OtherMutatorsTouchNoCdps(g, op);
    }
  }

  lemma {:induction false} AttachedTells(
    life: Life, g: Graph, key: CdpKey, base: nat, a: Address, summaries: seq<CdpSummary>)
    requires Tells(life, g, key, base)
    ensures Tells(Mutated(life, Cdps(a, summaries), key), AttachCdps(g, a, summaries), key, base)
  {
    var unlisted := key.0 == a && forall s <- summaries :: s.name != key.1;
    var kept := g.(cdps := g.cdps - StaleCdps(g, a, summaries));
    ListedTells(if unlisted then Gone else life, kept, key, base, a, summaries);
  }

  /**
   Over every run, the generation is the number of writes since the object was built, or more by what it
   was at the start.
   */
  lemma {:induction false} GenerationIsWritesSinceBuilt(s: System, steps: seq<Step>, key: CdpKey)
    requires After(s, steps).Some?
    ensures var base := if key in s.g.cdps then s.g.cdps[key].generation else 0;
            Tells(LifeOf(s, steps, key), After(s, steps).value.g, key, base)
  {
    if steps != [] {
      var front, step := steps[..|steps| - 1], steps[|steps| - 1];
      GenerationIsWritesSinceBuilt(s, front, key);
      var base := if key in s.g.cdps then s.g.cdps[key].generation else 0;
      LivedTells(LifeOf(s, front, key), After(s, front).value, step, key, base);
    }
  }

  lemma {:induction false} LivedTells(life: Life, s: System, step: Step, key: CdpKey, base: nat)
    requires Enabled(s, step) && Tells(life, s.g, key, base)
    ensures Tells(Lived(life, s, step, key), Next(s, step).g, key, base)
  {
    hide Apply, Mutated;
    if step.Mutate? {
      MutatedTells(life, s.g, key, base, step.op);
    }
  }

  /** No step of the run answers or fails the refresh. */
  predicate Unanswered(steps: seq<Step>, id: nat) {
    forall step <- steps :: step != Failed(id) && !(step.Response? && step.id == id)
  }

  lemma {:induction false} UnansweredStaysInFlight(s: System, steps: seq<Step>, id: nat)
    requires id in s.inFlight && After(s, steps).Some? && Unanswered(steps, id)
    ensures id in After(s, steps).value.inFlight && After(s, steps).value.inFlight[id] == s.inFlight[id]
  {
    if steps != [] {
      var front, step := steps[..|steps| - 1], steps[|steps| - 1];
      assert step in steps && forall before <- front :: before in steps;
      UnansweredStaysInFlight(s, front, id);
    }
  }

  /**
   The guard in full, over runs in which the object may be dropped and built anew: an answer with a
   state is written back exactly when the object is there and, if it is the old one, nothing wrote it
   since the request; if it was built since, as often written since then as the old one was at the request.
   */
  lemma {:induction false} WrittenBackExactlyWhenGenerationsMeet(
    s: System, id: nat, key: CdpKey, steps: seq<Step>, detail: Option<CdpState>)
    requires id !in s.inFlight && key in s.g.cdps
    requires After(Next(s, Request(id, key)), steps).Some? && Unanswered(steps, id)
    ensures var sent := Next(s, Request(id, key));
            id in After(sent, steps).value.inFlight
            && (WritesBack(After(sent, steps).value, id, detail) <==>
                  && detail.Some?
                  && match LifeOf(sent, steps, key)
                     case Gone => false
                     case Alive(rebuilt, writes) => writes == if rebuilt then s.g.cdps[key].generation else 0)
  {
    var sent := Next(s, Request(id, key));
    UnansweredStaysInFlight(sent, steps, id);
    GenerationIsWritesSinceBuilt(sent, steps, key);
  }

  // ---- data points ----

  datatype Reread = Generic(summary: DpSummary) | Calculated(reading: Reading)

  function Stamp(r: Reread): Option<int> {
    if r.Generic? then r.summary.modifiedAt else r.reading.modifiedAt
  }

  function WriteBack(g: Graph, key: DpKey, r: Reread): Graph {
    match r
    case Generic(summary) => DpWriteBack(g, key, summary)
    case Calculated(reading) => CalculatedWriteBack(g, key, reading)
  }

  function WriteBackAll(g: Graph, key: DpKey, rereads: seq<Reread>): Graph {
    if rereads == [] then g else WriteBack(WriteBackAll(g, key, rereads[..|rereads| - 1]), key, rereads[|rereads| - 1])
  }

  function ValueOf(r: Reread): string {
    if r.Generic? then r.summary.value else r.reading.value
  }

  /** A timestamp, if there is one, and the value that came with it. */
  type Seen = (Option<int>, string)

  /** What a data point showed at first, and what the answers carried. */
  function SeenBy(g: Graph, key: DpKey, rereads: seq<Reread>): (seen: seq<Seen>)
    requires key in g.dataPoints
    ensures |seen| == |rereads| + 1
  {
    if rereads == [] then [Showing(g, key)]
    else
      var last := rereads[|rereads| - 1];
      SeenBy(g, key, rereads[..|rereads| - 1]) + [(Stamp(last), ValueOf(last))]
  }

  function Showing(g: Graph, key: DpKey): Seen
    requires key in g.dataPoints
  {
    (g.dataPoints[key].modifiedAt, g.dataPoints[key].value)
  }

  predicate Stamped(seen: seq<Seen>, i: nat, j: nat)
    requires i <= j < |seen|
  {
    forall k :: i <= k <= j ==> seen[k].0.Some?
  }

  /**
   The one that stays: everything after it is timestamped and older, and nothing before it is newer,
   unless something without a timestamp came in between.
   */
  ghost predicate Decides(seen: seq<Seen>, i: nat) {
    && i < |seen|
    && (forall j :: i < j < |seen| ==> seen[i].0.Some? && seen[j].0.Some? && seen[j].0.value < seen[i].0.value)
    && (forall k :: 0 <= k < i && Stamped(seen, k, i) ==> seen[k].0.value <= seen[i].0.value)
  }

  lemma {:induction false} OneReread(g: Graph, key: DpKey, r: Reread)
    requires key in g.dataPoints
    ensures var h := WriteBack(g, key, r);
            && key in h.dataPoints && h == g.(dataPoints := g.dataPoints[key := h.dataPoints[key]])
            && h.dataPoints[key].modifiedAt
               == if IsStale(g.dataPoints[key].modifiedAt, Stamp(r)) then g.dataPoints[key].modifiedAt else Stamp(r)
  {
    assert g.dataPoints[key := g.dataPoints[key]] == g.dataPoints;
    assert g.(dataPoints := g.dataPoints) == g;
  }

  lemma {:induction false} NextDecides(seen: seq<Seen>, i: nat, next: Seen)
    requires Decides(seen, i)
    ensures Decides(seen + [next], if IsStale(seen[i].0, next.0) then i else |seen|)
  {
    var more, n := seen + [next], |seen|;
    if IsStale(seen[i].0, next.0) {
      forall k | 0 <= k < i && Stamped(more, k, i) ensures more[k].0.value <= more[i].0.value {
        assert forall m :: k <= m <= i ==> more[m] == seen[m];
        assert Stamped(seen, k, i);
      }
    } else {
      forall k | 0 <= k < n && Stamped(more, k, n) ensures more[k].0.value <= more[n].0.value {
        assert forall m :: 0 <= m < n ==> more[m] == seen[m];
        if k < i {
          assert Stamped(seen, k, i);
        }
        assert more[i].0.Some? || i < k;
      }
    }
  }

  /**
   Answers in any order, timestamped or not, leave a data point on what the deciding one carried, and
   touch no other.
   */
  lemma {:induction false} RereadsSettleOnTheNewest(g: Graph, key: DpKey, rereads: seq<Reread>) returns (i: nat)
    requires key in g.dataPoints
    ensures var h := WriteBackAll(g, key, rereads);
            && key in h.dataPoints && h == g.(dataPoints := g.dataPoints[key := h.dataPoints[key]])
            && Decides(SeenBy(g, key, rereads), i) && Showing(h, key) == SeenBy(g, key, rereads)[i]
  {
    if rereads == [] {
      i := 0;
      assert g.dataPoints[key := g.dataPoints[key]] == g.dataPoints;
      assert g.(dataPoints := g.dataPoints) == g;
    } else {
      hide WriteBack, Decides;
      var n := |rereads| - 1;
      var front, last := rereads[..n], rereads[n];
      var before := RereadsSettleOnTheNewest(g, key, front);
      var m, seen := WriteBackAll(g, key, front), SeenBy(g, key, front);
      var h := WriteBackAll(g, key, rereads);
      OneReread(m, key, last);
      assert before < |seen| by { DecidesInside(seen, before); }
      NextDecides(seen, before, (Stamp(last), ValueOf(last)));
      i := if IsStale(seen[before].0, Stamp(last)) then before else |seen|;
      assert m.dataPoints[key := h.dataPoints[key]] == g.dataPoints[key := h.dataPoints[key]];
    }
  }

  lemma {:induction false} DecidesInside(seen: seq<Seen>, i: nat)
    requires Decides(seen, i)
    ensures i < |seen|
  {
  }

  lemma {:induction false} OnlyOneDecides(seen: seq<Seen>, i: nat, j: nat)
    requires Decides(seen, i) && Decides(seen, j)
    ensures i == j
  {
    if i < j {
      assert Stamped(seen, i, j);
    } else if j < i {
      assert Stamped(seen, j, i);
    }
  }

  /** The deciding one is unique; and with a timestamp on everything it is the last of those with the greatest. */
  lemma {:induction false} NewestRereadDecides(g: Graph, key: DpKey, rereads: seq<Reread>, i: nat)
    requires key in g.dataPoints
    ensures var (h, seen) := (WriteBackAll(g, key, rereads), SeenBy(g, key, rereads));
            && key in h.dataPoints
            && (Decides(seen, i) ==> Showing(h, key) == seen[i])
            && (Stamped(seen, 0, |rereads|) ==>
                  && Showing(h, key).0.Some?
                  && forall k :: 0 <= k <= |rereads| ==> seen[k].0.value <= Showing(h, key).0.value)
  {
    var seen := SeenBy(g, key, rereads);
    var d := RereadsSettleOnTheNewest(g, key, rereads);
    if Decides(seen, i) {
      OnlyOneDecides(seen, i, d);
    }
    if Stamped(seen, 0, |rereads|) {
      forall k | 0 <= k <= |rereads| ensures seen[k].0.value <= seen[d].0.value {
        if k < d {
          assert Stamped(seen, k, d);
        }
      }
    }
  }

  /** A write-back is refused exactly when it would lower an existing `modified_at`. */
  lemma {:induction false} RefusedExactlyWhenItWouldLower(g: Graph, key: DpKey, r: Reread)
    requires key in g.dataPoints
    ensures var (was, now) := (g.dataPoints[key].modifiedAt, WriteBack(g, key, r).dataPoints[key].modifiedAt);
            && (was.Some? && Stamp(r).Some? ==> now.Some? && now.value >= was.value)
            && (if IsStale(was, Stamp(r)) then WriteBack(g, key, r) == g else now == Stamp(r))
  {
  }
}
