/**
 The in-memory event bus.

 A subscription is known by its token: the order in which it was issued. The pure part gives the
 registry as a value; `EventBus` is the object with buckets of live subscription objects.
 */
module EventBusModel {
  import opened Common

  type EventType = string
  type Handler = nat

  datatype Sub = Sub(eventType: EventType, eventKey: Option<string>, handler: Handler)

  /** All subscriptions ever issued, which of them were cancelled, and the buckets of tokens by event type. */
  datatype Bus = Bus(issued: seq<Sub>, cancelled: set<nat>, buckets: map<EventType, seq<nat>>)

  const Unused := Bus([], {}, map[])

  function Bucket(b: Bus, t: EventType): seq<nat> {
    if t in b.buckets then b.buckets[t] else []
  }

  function Subscribed(b: Bus, sub: Sub): Bus {
    b.(issued := b.issued + [sub],
       buckets := b.buckets[sub.eventType := Bucket(b, sub.eventType) + [|b.issued|]])
  }

  /** Field-wise equality of two subscriptions, the cancelled flag included. */
  predicate SameFields(b: Bus, i: nat, j: nat) {
    i < |b.issued| && j < |b.issued| && b.issued[i] == b.issued[j] && (i in b.cancelled <==> j in b.cancelled)
  }

  /** `list.remove` by equality: the first equal entry goes, and nothing happens when there is none. */
  function RemoveFirstEqual(b: Bus, bucket: seq<nat>, token: nat): seq<nat> {
    if bucket == [] then []
    else if SameFields(b, bucket[0], token) then bucket[1..]
    else [bucket[0]] + RemoveFirstEqual(b, bucket[1..], token)
  }

  function Unsubscribed(b: Bus, token: nat): Bus
    requires token < |b.issued|
  {
    if token in b.cancelled then b
    else
      var marked := b.(cancelled := b.cancelled + {token});
      var t := b.issued[token].eventType;
      if t !in b.buckets then marked
      else
        var bucket := RemoveFirstEqual(marked, b.buckets[t], token);
        marked.(buckets := if bucket == [] then b.buckets - {t} else b.buckets[t := bucket])
  }

  // ---- what the registry holds ----

  /** The live tokens below `n` of one event type, in the order they were issued. */
  function Live(b: Bus, t: EventType, n: nat): seq<nat>
    requires n <= |b.issued|
  {
    if n == 0 then []
    else Live(b, t, n - 1) + (if b.issued[n - 1].eventType == t && n - 1 !in b.cancelled then [n - 1] else [])
  }

  ghost predicate ExactFor(b: Bus, t: EventType) {
    Bucket(b, t) == Live(b, t, |b.issued|) && (t in b.buckets ==> b.buckets[t] != [])
  }

  /** Each bucket is exactly the live subscriptions of its type in registration order, and no bucket is empty. */
  ghost predicate Exact(b: Bus) {
    (forall c <- b.cancelled :: c < |b.issued|) && forall t :: ExactFor(b, t)
  }

  lemma {:induction false} LiveMembers(b: Bus, t: EventType, n: nat)
    requires n <= |b.issued|
    ensures forall i :: i in Live(b, t, n) <==> 0 <= i < n && b.issued[i].eventType == t && i !in b.cancelled
    ensures forall i, j :: 0 <= i < j < |Live(b, t, n)| ==> Live(b, t, n)[i] < Live(b, t, n)[j]
  {
    if n > 0 {
      LiveMembers(b, t, n - 1);
      var rest := Live(b, t, n - 1);
      forall j | 0 <= j < |rest| ensures rest[j] < n - 1 {
        assert rest[j] in rest;
      }
    }
  }

  lemma {:induction false} LiveDependsOnIssued(b: Bus, c: Bus, t: EventType, n: nat)
    requires n <= |b.issued| && n <= |c.issued| && b.issued[..n] == c.issued[..n]
    requires forall i :: 0 <= i < n && b.issued[i].eventType == t ==> (i in b.cancelled <==> i in c.cancelled)
    ensures Live(b, t, n) == Live(c, t, n)
  {
    if n > 0 {
      assert b.issued[n - 1] == b.issued[..n][n - 1] == c.issued[n - 1];
      assert b.issued[..n - 1] == b.issued[..n][..n - 1] == c.issued[..n - 1];
      LiveDependsOnIssued(b, c, t, n - 1);
    }
  }

  lemma {:induction false} SubscribeKeepsExact(b: Bus, sub: Sub)
    requires Exact(b)
    ensures Exact(Subscribed(b, sub))
  {
    var c, n := Subscribed(b, sub), |b.issued|;
    forall t ensures ExactFor(c, t) {
      assert ExactFor(b, t);
      LiveDependsOnIssued(b, c, t, n);
    }
  }

  /** The list without one token. */
  function Without(s: seq<nat>, token: nat): seq<nat> {
    if s == [] then [] else Without(s[..|s| - 1], token) + (if s[|s| - 1] == token then [] else [s[|s| - 1]])
  }

  lemma {:induction false} LiveAfterCancel(b: Bus, token: nat, t: EventType, n: nat)
    requires n <= |b.issued|
    ensures Live(b.(cancelled := b.cancelled + {token}), t, n) == Without(Live(b, t, n), token)
  {
    if n > 0 {
      LiveAfterCancel(b, token, t, n - 1);
      var rest, all := Live(b, t, n - 1), Live(b, t, n);
      if all != rest {
        assert all[..|all| - 1] == rest;
      }
    }
  }

  lemma {:induction false} WithoutCons(s: seq<nat>, token: nat)
    requires s != []
    ensures Without(s, token) == (if s[0] == token then [] else [s[0]]) + Without(s[1..], token)
  {
    if |s| > 1 {
      var front, last := s[..|s| - 1], s[|s| - 1];
      WithoutCons(front, token);
      var head, end := if s[0] == token then [] else [s[0]], if last == token then [] else [last];
      assert s[1..][..|s| - 2] == front[1..];
      assert Without(s, token) == Without(front, token) + end;
      assert Without(s[1..], token) == Without(front[1..], token) + end;
      assert head + Without(front[1..], token) + end == head + (Without(front[1..], token) + end);
    } else {
      assert s[1..] == [] && s[..0] == [];
    }
  }

  lemma {:induction false} WithoutAbsent(s: seq<nat>, token: nat)
    requires token !in s
    ensures Without(s, token) == s
  {
    if s != [] {
      WithoutAbsent(s[..|s| - 1], token);
    }
  }

  lemma {:induction false} FirstEqualAt(b: Bus, bucket: seq<nat>, token: nat, i: nat)
    requires i <= |bucket| && forall k :: 0 <= k < i ==> !SameFields(b, bucket[k], token)
    requires i < |bucket| ==> SameFields(b, bucket[i], token)
    ensures RemoveFirstEqual(b, bucket, token) == if i < |bucket| then bucket[..i] + bucket[i + 1..] else bucket
  {
    hide SameFields;
    if i > 0 {
      var rest := bucket[1..];
      assert forall k :: 0 <= k < i - 1 ==> rest[k] == bucket[k + 1];
      FirstEqualAt(b, rest, token, i - 1);
      if i < |bucket| {
        assert bucket[..i] + bucket[i + 1..] == [bucket[0]] + (rest[..i - 1] + rest[i..]);
      } else {
        assert bucket == [bucket[0]] + rest;
      }
    }
  }

  /** Among live entries the freshly cancelled one is equal only to itself, however many are identical to it. */
  lemma {:induction false} RemovalHitsItsOwnEntry(b: Bus, bucket: seq<nat>, token: nat)
    requires token < |b.issued| && token in b.cancelled
    requires forall i <- bucket :: i < |b.issued| && (i in b.cancelled ==> i == token)
    requires forall i, j :: 0 <= i < j < |bucket| ==> bucket[i] < bucket[j]
    ensures RemoveFirstEqual(b, bucket, token) == Without(bucket, token)
  {
    if bucket != [] {
      var rest := bucket[1..];
      assert bucket == [bucket[0]] + rest;
      WithoutCons(bucket, token);
      assert forall i <- rest :: i in bucket;
      if bucket[0] == token {
        assert token !in rest;
        WithoutAbsent(rest, token);
      } else {
        RemovalHitsItsOwnEntry(b, rest, token);
      }
    }
  }

  lemma {:induction false} BucketAfterCancel(b: Bus, token: nat, t: EventType)
    requires Exact(b) && token < |b.issued|
    ensures Live(b.(cancelled := b.cancelled + {token}), t, |b.issued|)
         == if t == b.issued[token].eventType then Without(Bucket(b, t), token) else Bucket(b, t)
  {
    assert ExactFor(b, t);
    LiveAfterCancel(b, token, t, |b.issued|);
    LiveMembers(b, t, |b.issued|);
    if t != b.issued[token].eventType {
      WithoutAbsent(Live(b, t, |b.issued|), token);
    }
  }

  lemma {:induction false} OwnBucketAfterRemoval(b: Bus, token: nat)
    requires Exact(b) && token < |b.issued| && token !in b.cancelled
    ensures var t := b.issued[token].eventType;
            && t in b.buckets
            && RemoveFirstEqual(b.(cancelled := b.cancelled + {token}), b.buckets[t], token)
               == Without(b.buckets[t], token)
  {
    var t := b.issued[token].eventType;
    assert ExactFor(b, t);
    LiveMembers(b, t, |b.issued|);
    assert token in Live(b, t, |b.issued|);
    RemovalHitsItsOwnEntry(b.(cancelled := b.cancelled + {token}), b.buckets[t], token);
  }

  /** Unsubscribing removes exactly its own entry and leaves every other bucket alone. */
  lemma {:induction false} UnsubscribeKeepsExact(b: Bus, token: nat)
    requires Exact(b) && token < |b.issued|
    ensures Exact(Unsubscribed(b, token))
    ensures Unsubscribed(b, token).issued == b.issued
    ensures Unsubscribed(b, token).cancelled == b.cancelled + {token}
  {
    if token in b.cancelled {
      assert b.cancelled + {token} == b.cancelled;
      return;
    }
    var c, n := Unsubscribed(b, token), |b.issued|;
    var marked := b.(cancelled := b.cancelled + {token});
    OwnBucketAfterRemoval(b, token);
    forall u ensures ExactFor(c, u) {
      assert ExactFor(b, u);
      BucketAfterCancel(b, token, u);
      LiveDependsOnIssued(marked, c, u, n);
    }
  }

  // ---- fan-out with handlers that change the registry ----

  datatype Action = Subscribe(sub: Sub) | Unsubscribe(token: nat)

  /** What one handler call does to the registry before it returns or raises. */
  datatype Reaction = Reaction(actions: seq<Action>, raises: bool)

  function Act(b: Bus, action: Action): Bus {
    match action
    case Subscribe(sub) => Subscribed(b, sub)
    case Unsubscribe(token) => if token < |b.issued| then Unsubscribed(b, token) else b
  }

  function ActAll(b: Bus, actions: seq<Action>): Bus {
    if actions == [] then b else Act(ActAll(b, actions[..|actions| - 1]), actions[|actions| - 1])
  }

  /** One action of a handler adds the subscription it makes, or cancels the one it names and no other. */
  lemma {:induction false} ActionLands(b: Bus, action: Action)
    requires Exact(b)
    ensures action.Subscribe? ==>
              Act(b, action).issued == b.issued + [action.sub] && Act(b, action).cancelled == b.cancelled
    ensures action.Unsubscribe? ==>
              && Act(b, action).issued == b.issued
              && Act(b, action).cancelled == b.cancelled + (if action.token < |b.issued| then {action.token} else {})
  {
    if action.Unsubscribe? && action.token < |b.issued| {
      UnsubscribeKeepsExact(b, action.token);
    }
  }

  lemma {:induction false} ActionsKeepExact(b: Bus, actions: seq<Action>)
    requires Exact(b)
    ensures Exact(ActAll(b, actions))
    ensures b.cancelled <= ActAll(b, actions).cancelled && b.issued <= ActAll(b, actions).issued
  {
    if actions != [] {
      ActionsKeepExact(b, actions[..|actions| - 1]);
      var c, last := ActAll(b, actions[..|actions| - 1]), actions[|actions| - 1];
      match last {
        case Subscribe(sub) => SubscribeKeepsExact(c, sub);
        case Unsubscribe(token) => if token < |c.issued| { UnsubscribeKeepsExact(c, token); }
      }
    }
  }

  predicate KeyMatches(sub: Sub, eventKey: Option<string>) {
    sub.eventKey.None? || sub.eventKey == eventKey
  }

  /** The fan-out over a snapshot: `reactions[i]` is what the i-th entry's handler does if it is called. */
  function FanOut(b: Bus, eventKey: Option<string>, snapshot: seq<nat>, reactions: seq<Reaction>): (Bus, seq<nat>)
    requires |reactions| >= |snapshot|
  {
    if snapshot == [] then (b, [])
    else
      var n := |snapshot| - 1;
      var (c, calls) := FanOut(b, eventKey, snapshot[..n], reactions);
      var token := snapshot[n];
      if token in c.cancelled || token >= |c.issued| || !KeyMatches(c.issued[token], eventKey) then (c, calls)
      else (ActAll(c, reactions[n].actions), calls + [token])
  }

  function Publish(b: Bus, t: EventType, eventKey: Option<string>, reactions: seq<Reaction>): (Bus, seq<nat>)
    requires |reactions| >= |Bucket(b, t)|
  {
    FanOut(b, eventKey, Bucket(b, t), reactions)
  }

  /** The fan-out over all but the last entry of a snapshot has left `now`, and `token` and `reaction` are next. */
  ghost predicate FanOutReaches(
    b: Bus, eventKey: Option<string>, snapshot: seq<nat>, reactions: seq<Reaction>, now: Bus, token: nat,
    reaction: Reaction)
  {
    var n := |snapshot| - 1;
    n >= 0 && |reactions| > n && snapshot[n] == token && reactions[n] == reaction
    && FanOut(b, eventKey, snapshot[..n], reactions).0 == now
  }

  lemma {:induction false} FanOutKeepsExact(
    b: Bus, eventKey: Option<string>, snapshot: seq<nat>, reactions: seq<Reaction>)
    requires Exact(b) && |reactions| >= |snapshot|
    ensures var c := FanOut(b, eventKey, snapshot, reactions).0;
            Exact(c) && b.cancelled <= c.cancelled && b.issued <= c.issued
  {
    if snapshot != [] {
      var n := |snapshot| - 1;
      FanOutKeepsExact(b, eventKey, snapshot[..n], reactions);
      ActionsKeepExact(FanOut(b, eventKey, snapshot[..n], reactions).0, reactions[n].actions);
    }
  }

  /** The subscription asked for no key, or for the one the event has. */
  predicate Matches(b: Bus, token: nat, eventKey: Option<string>) {
    token < |b.issued| && (b.issued[token].eventKey.None? || b.issued[token].eventKey == eventKey)
  }

  /** The i-th entry of the snapshot is called if and only if it matches and was not cancelled before its turn. */
  ghost predicate TurnIsRight(
    b: Bus, eventKey: Option<string>, snapshot: seq<nat>, reactions: seq<Reaction>, calls: seq<nat>, i: nat)
    requires |reactions| >= |snapshot| && i < |snapshot|
  {
    snapshot[i] in calls
    <==>
    Matches(b, snapshot[i], eventKey) && snapshot[i] !in FanOut(b, eventKey, snapshot[..i], reactions).0.cancelled
  }

  ghost predicate Ascending(s: seq<nat>) {
    forall i, j :: 0 <= i < j < |s| ==> s[i] < s[j]
  }

  lemma {:induction false} FanOutCallsInOrder(
    b: Bus, eventKey: Option<string>, snapshot: seq<nat>, reactions: seq<Reaction>)
    requires |reactions| >= |snapshot| && Ascending(snapshot)
    ensures var calls := FanOut(b, eventKey, snapshot, reactions).1;
            Ascending(calls) && forall token <- calls :: token in snapshot
  {
    if snapshot != [] {
      var n := |snapshot| - 1;
      var front := snapshot[..n];
      FanOutCallsInOrder(b, eventKey, front, reactions);
      var calls := FanOut(b, eventKey, front, reactions).1;
      forall k | 0 <= k < |calls| ensures calls[k] < snapshot[n] {
        assert calls[k] in front;
      }
    }
  }

  lemma {:induction false} FanOutTurns(
    b: Bus, eventKey: Option<string>, snapshot: seq<nat>, reactions: seq<Reaction>, i: nat)
    requires Exact(b) && |reactions| >= |snapshot| && Ascending(snapshot) && i < |snapshot|
    requires forall token <- snapshot :: token < |b.issued|
    ensures TurnIsRight(b, eventKey, snapshot, reactions, FanOut(b, eventKey, snapshot, reactions).1, i)
  {
    var n := |snapshot| - 1;
    var front := snapshot[..n];
    FanOutCallsInOrder(b, eventKey, front, reactions);
    if i < n {
      assert forall token <- front :: token in snapshot;
      FanOutTurns(b, eventKey, front, reactions, i);
      assert front[..i] == snapshot[..i];
    } else {
      FanOutKeepsExact(b, eventKey, front, reactions);
      var c := FanOut(b, eventKey, front, reactions).0;
      assert snapshot[n] in snapshot && snapshot[n] !in front;
      assert c.issued[snapshot[n]] == b.issued[snapshot[n]];
    }
  }

  /**
   One publish calls exactly the matching subscriptions that were live at its start and not cancelled
   before their turn, once each, in registration order; whatever the handlers did, the registry stays exact.
   */
  lemma {:induction false} PublishCallsExactlyTheLiveMatches(
    b: Bus, t: EventType, eventKey: Option<string>, reactions: seq<Reaction>)
    requires Exact(b) && |reactions| >= |Bucket(b, t)|
    ensures Exact(Publish(b, t, eventKey, reactions).0)
    ensures var calls := Publish(b, t, eventKey, reactions).1;
            && Ascending(calls)
            && (forall token <- calls :: token < |b.issued| && b.issued[token].eventType == t && token !in b.cancelled)
            && (forall i :: 0 <= i < |Bucket(b, t)| ==> TurnIsRight(b, eventKey, Bucket(b, t), reactions, calls, i))
  {
    var snapshot := Bucket(b, t);
    assert ExactFor(b, t);
    LiveMembers(b, t, |b.issued|);
    FanOutCallsInOrder(b, eventKey, snapshot, reactions);
    FanOutKeepsExact(b, eventKey, snapshot, reactions);
    forall i | 0 <= i < |snapshot|
      ensures TurnIsRight(b, eventKey, snapshot, reactions, Publish(b, t, eventKey, reactions).1, i)
    {
      FanOutTurns(b, eventKey, snapshot, reactions, i);
    }
  }

  // ---- groups and re-binding ----

  function CancelAll(b: Bus, members: seq<nat>): Bus {
    if members == [] then b
    else
      var c := CancelAll(b, members[..|members| - 1]);
      var token := members[|members| - 1];
      if token < |c.issued| then Unsubscribed(c, token) else c
  }

  lemma {:induction false} CancelCancelsItsMembers(b: Bus, members: seq<nat>)
    requires Exact(b) && forall m <- members :: m < |b.issued|
    ensures Exact(CancelAll(b, members))
    ensures CancelAll(b, members).issued == b.issued
    ensures CancelAll(b, members).cancelled == b.cancelled + Elements(members)
  {
    if members != [] {
      var front := members[..|members| - 1];
      assert forall m <- front :: m in members;
      CancelCancelsItsMembers(b, front);
      assert members[|members| - 1] in members;
      UnsubscribeKeepsExact(CancelAll(b, front), members[|members| - 1]);
      assert members == front + [members[|members| - 1]];
    }
  }

  function BindAll(b: Bus, bindings: seq<Sub>): Bus {
    if bindings == [] then b else Subscribed(BindAll(b, bindings[..|bindings| - 1]), bindings[|bindings| - 1])
  }

  lemma {:induction false} BindAppends(b: Bus, bindings: seq<Sub>)
    requires Exact(b)
    ensures Exact(BindAll(b, bindings))
    ensures BindAll(b, bindings).issued == b.issued + bindings && BindAll(b, bindings).cancelled == b.cancelled
  {
    if bindings != [] {
      BindAppends(b, bindings[..|bindings| - 1]);
      SubscribeKeepsExact(BindAll(b, bindings[..|bindings| - 1]), bindings[|bindings| - 1]);
    }
  }

  function Range(from: nat, n: nat): seq<nat> {
    seq(n, i requires 0 <= i < n => from + i)
  }

  /** `start_events`: cancel the group a previous call left, then bind the handlers afresh. */
  function Rebound(b: Bus, members: seq<nat>, bindings: seq<Sub>): (Bus, seq<nat>) {
    var c := CancelAll(b, members);
    (BindAll(c, bindings), Range(|c.issued|, |bindings|))
  }

  /** Whether a token is live and carries a given handler. */
  predicate LiveWith(b: Bus, token: nat, handler: Handler) {
    token < |b.issued| && token !in b.cancelled && b.issued[token].handler == handler
  }

  /** The group's members are live, one per binding, and nothing else live carries one of the group's handlers. */
  ghost predicate BoundOnce(b: Bus, members: seq<nat>, bindings: seq<Sub>) {
    && |members| == |bindings|
    && (forall i :: 0 <= i < |members| ==>
          members[i] < |b.issued| && members[i] !in b.cancelled && b.issued[members[i]] == bindings[i])
    && (forall token: nat, d <- bindings :: LiveWith(b, token, d.handler) ==> token in members)
  }

  /**
   Calling `start_events` again on an ended stream leaves every handler bound exactly once and no other
   subscription changed.
   */
  lemma {:induction false} RebindingKeepsHandlersBoundOnce(b: Bus, members: seq<nat>, bindings: seq<Sub>)
    requires Exact(b) && forall m <- members :: m < |b.issued|
    requires forall token: nat, d <- bindings :: LiveWith(b, token, d.handler) ==> token in members
    ensures var (c, group) := Rebound(b, members, bindings);
            && Exact(c)
            && BoundOnce(c, group, bindings)
            && c.issued == b.issued + bindings
            && c.cancelled == b.cancelled + Elements(members)
  {
    hide *;
    var (c, group) := Rebound(b, members, bindings);
    ReboundAppends(b, members, bindings);
    forall token: nat, d | d in bindings && token < |b.issued| ensures !LiveWith(c, token, d.handler) {
      OldBindingsAreGone(b, members, bindings, c, token, d);
    }
    FreshOnesAreBound(c, |b.issued|, group, bindings);
  }

  lemma {:induction false} ReboundAppends(b: Bus, members: seq<nat>, bindings: seq<Sub>)
    requires Exact(b) && forall m <- members :: m < |b.issued|
    ensures var (c, group) := Rebound(b, members, bindings);
            && Exact(c) && c.issued == b.issued + bindings && c.cancelled == b.cancelled + Elements(members)
            && |group| == |bindings| && (forall i :: 0 <= i < |group| ==> group[i] == |b.issued| + i)
            && forall i :: |b.issued| <= i < |c.issued| ==> i !in c.cancelled
  {
    hide Exact, CancelAll, BindAll;
    CancelCancelsItsMembers(b, members);
    BindAppends(CancelAll(b, members), bindings);
    CancelledWereIssued(b);
  }

  lemma {:induction false} CancelledWereIssued(b: Bus)
    requires Exact(b)
    ensures forall token <- b.cancelled :: token < |b.issued|
  {
  }

  lemma {:induction false} FreshOnesAreBound(c: Bus, n: nat, group: seq<nat>, bindings: seq<Sub>)
    requires n + |bindings| == |c.issued| && c.issued[n..] == bindings
    requires |group| == |bindings| && forall i :: 0 <= i < |group| ==> group[i] == n + i
    requires forall i :: n <= i < |c.issued| ==> i !in c.cancelled
    requires forall token: nat, d <- bindings :: token < n ==> !LiveWith(c, token, d.handler)
    ensures BoundOnce(c, group, bindings)
  {
    forall token: nat, d | d in bindings && LiveWith(c, token, d.handler) ensures token in group {
      assert group[token - n] == token;
    }
  }

  lemma {:induction false} OldBindingsAreGone(
    b: Bus, members: seq<nat>, bindings: seq<Sub>, c: Bus, token: nat, d: Sub)
    requires forall t: nat, e <- bindings :: LiveWith(b, t, e.handler) ==> t in members
    requires c.issued == b.issued + bindings && c.cancelled == b.cancelled + Elements(members)
    requires d in bindings && token < |b.issued|
    ensures !LiveWith(c, token, d.handler)
  {
    if token !in members {
      assert !LiveWith(b, token, d.handler);
    }
  }

  /**
   A handler bound once is called once by a publish of its type, whatever the key, as long as no
   handler of that publish unsubscribes it.
   */
  lemma {:induction false} BoundHandlerIsCalledOnce(
    b: Bus, members: seq<nat>, bindings: seq<Sub>, i: nat, eventKey: Option<string>, reactions: seq<Reaction>)
    requires Exact(b) && BoundOnce(b, members, bindings) && i < |bindings| && bindings[i].eventKey.None?
    requires forall j, k :: 0 <= j < k < |bindings| ==> bindings[j].handler != bindings[k].handler
    requires |reactions| >= |Bucket(b, bindings[i].eventType)|
    requires members[i] !in Publish(b, bindings[i].eventType, eventKey, reactions).0.cancelled
    ensures var calls := Publish(b, bindings[i].eventType, eventKey, reactions).1;
            && Ascending(calls)
            && members[i] in calls
            && (forall token <- calls :: LiveWith(b, token, bindings[i].handler) ==> token == members[i])
  {
    var t := bindings[i].eventType;
    PublishCallsExactlyTheLiveMatches(b, t, eventKey, reactions);
    LiveMatchIsCalled(b, t, eventKey, reactions, members[i]);
    forall token: nat | LiveWith(b, token, bindings[i].handler) ensures token == members[i] {
      var d := bindings[i];
      assert d in bindings && LiveWith(b, token, d.handler);
      assert token in members;
      var j :| 0 <= j < |members| && members[j] == token;
    }
  }

  lemma {:induction false} LiveMatchIsCalled(
    b: Bus, t: EventType, eventKey: Option<string>, reactions: seq<Reaction>, token: nat)
    requires Exact(b) && |reactions| >= |Bucket(b, t)|
    requires Matches(b, token, eventKey) && b.issued[token].eventType == t && token !in b.cancelled
    requires token !in Publish(b, t, eventKey, reactions).0.cancelled
    ensures token in Publish(b, t, eventKey, reactions).1
  {
    var snapshot := Bucket(b, t);
    assert ExactFor(b, t);
    LiveMembers(b, t, |b.issued|);
    assert token in Live(b, t, |b.issued|);
    var k :| 0 <= k < |snapshot| && snapshot[k] == token;
    TurnCancelledStaysCancelled(b, eventKey, snapshot, reactions, k);
    FanOutTurns(b, eventKey, snapshot, reactions, k);
  }

  /**
   Whom a publish reaches, in terms of the keys: a called subscription asked for no key, or for the one the
   event has; and every live subscription of the type that did is called, unless a handler cancels it.
   */
  lemma {:induction false} PublishHonoursTheKeys(
    b: Bus, t: EventType, eventKey: Option<string>, reactions: seq<Reaction>, token: nat)
    requires Exact(b) && |reactions| >= |Bucket(b, t)|
    requires token < |b.issued| && b.issued[token].eventType == t && token !in b.cancelled
    ensures var (c, calls) := Publish(b, t, eventKey, reactions);
            var key := b.issued[token].eventKey;
            && (token in calls ==> key.None? || key == eventKey)
            && ((key.None? || key == eventKey) && token !in c.cancelled ==> token in calls)
  {
    if token in Publish(b, t, eventKey, reactions).1 {
      CalledOnItsKey(b, t, eventKey, reactions, token);
    }
    if b.issued[token].eventKey.None? || b.issued[token].eventKey == eventKey {
      if token !in Publish(b, t, eventKey, reactions).0.cancelled {
        LiveMatchIsCalled(b, t, eventKey, reactions, token);
      }
    }
  }

  lemma {:induction false} CalledOnItsKey(
    b: Bus, t: EventType, eventKey: Option<string>, reactions: seq<Reaction>, token: nat)
    requires Exact(b) && |reactions| >= |Bucket(b, t)| && token in Publish(b, t, eventKey, reactions).1
    ensures token < |b.issued| && (b.issued[token].eventKey.None? || b.issued[token].eventKey == eventKey)
  {
    var snapshot := Bucket(b, t);
    assert ExactFor(b, t);
    LiveMembers(b, t, |b.issued|);
    FanOutCallsInOrder(b, eventKey, snapshot, reactions);
    var k :| 0 <= k < |snapshot| && snapshot[k] == token;
    FanOutTurns(b, eventKey, snapshot, reactions, k);
  }

  /** So an event without a key reaches nobody who asked for one, one with a key nobody who asked for another. */
  lemma {:induction false} KeyedSubscriberHearsOnlyItsKey(
    b: Bus, t: EventType, eventKey: Option<string>, reactions: seq<Reaction>, token: nat, k: string)
    requires Exact(b) && |reactions| >= |Bucket(b, t)|
    requires token in Publish(b, t, eventKey, reactions).1
    requires token < |b.issued| && b.issued[token].eventKey == Some(k)
    ensures eventKey == Some(k)
  {
    CalledOnItsKey(b, t, eventKey, reactions, token);
  }

  lemma {:induction false} TurnCancelledStaysCancelled(
    b: Bus, eventKey: Option<string>, snapshot: seq<nat>, reactions: seq<Reaction>, k: nat)
    requires Exact(b) && |reactions| >= |snapshot| && k <= |snapshot|
    ensures FanOut(b, eventKey, snapshot[..k], reactions).0.cancelled
         <= FanOut(b, eventKey, snapshot, reactions).0.cancelled
    decreases |snapshot|
  {
    if k < |snapshot| {
      var n := |snapshot| - 1;
      assert snapshot[..n][..k] == snapshot[..k];
      TurnCancelledStaysCancelled(b, eventKey, snapshot[..n], reactions, k);
      FanOutKeepsExact(b, eventKey, snapshot[..n], reactions);
      ActionsKeepExact(FanOut(b, eventKey, snapshot[..n], reactions).0, reactions[n].actions);
    } else {
      assert snapshot[..k] == snapshot;
    }
  }

  // ---- the objects ----

  class Subscription {
    const eventType: EventType
    const eventKey: Option<string>
    const handler: Handler
    ghost const token: nat
    var cancelled: bool

    constructor (eventType: EventType, eventKey: Option<string>, handler: Handler, ghost token: nat)
      ensures this.eventType == eventType && this.eventKey == eventKey && this.handler == handler
      ensures this.token == token && !cancelled
    {
      this.eventType, this.eventKey, this.handler, this.token := eventType, eventKey, handler, token;
      cancelled := false;
    }

    function Fields(): Sub {
      Sub(eventType, eventKey, handler)
    }
  }

  function Records(l: seq<Subscription>): seq<Sub> {
    seq(|l|, i requires 0 <= i < |l| => l[i].Fields())
  }

  ghost function Tokens(l: seq<Subscription>): seq<nat> {
    seq(|l|, i requires 0 <= i < |l| => l[i].token)
  }

  ghost function CancelledIn(l: seq<Subscription>): set<nat>
    reads l
  {
    set i | 0 <= i < |l| && l[i].cancelled
  }

  ghost function TokenBuckets(subs: map<EventType, seq<Subscription>>): map<EventType, seq<nat>> {
    map t | t in subs :: Tokens(subs[t])
  }

  lemma {:induction false} CallsHonourTheKeys(
    b: Bus, t: EventType, eventKey: Option<string>, reactions: seq<Reaction>, calls: seq<Subscription>)
    requires Exact(b) && |reactions| >= |Bucket(b, t)| && Tokens(calls) == Publish(b, t, eventKey, reactions).1
    requires forall sub <- calls :: sub.token < |b.issued| && b.issued[sub.token] == sub.Fields()
    ensures forall sub <- calls :: sub.eventType == t && (sub.eventKey.None? || sub.eventKey == eventKey)
  {
    PublishCallsExactlyTheLiveMatches(b, t, eventKey, reactions);
    hide Exact, Publish;
    forall sub | sub in calls ensures sub.eventType == t && (sub.eventKey.None? || sub.eventKey == eventKey) {
      var i :| 0 <= i < |calls| && calls[i] == sub;
      assert Tokens(calls)[i] == sub.token;
      CalledOnItsKey(b, t, eventKey, reactions, sub.token);
    }
  }

  class EventBus {
    var subs: map<EventType, seq<Subscription>>
    // the subscriptions behind the unsubscribe callbacks handed out so far
    var issued: seq<Subscription>

    ghost function View(): Bus
      reads this, issued
    {
      Bus(Records(issued), CancelledIn(issued), TokenBuckets(subs))
    }

    ghost function Objects(): set<Subscription>
      reads this
    {
      set s | s in issued
    }

    ghost predicate Valid()
      reads this, issued
    {
      && (forall i :: 0 <= i < |issued| ==> issued[i].token == i)
      && (forall t <- subs, s <- subs[t] :: s in issued)
      && Exact(View())
    }

    lemma IssuedUnderItsToken(sub: Subscription)
      requires Valid() && sub in issued
      ensures sub.token < |View().issued| && View().issued[sub.token] == sub.Fields()
    {
      var i :| 0 <= i < |issued| && issued[i] == sub;
      assert Records(issued)[i] == sub.Fields();
    }

    constructor ()
      ensures Valid() && View() == Unused && issued == []
    {
      subs, issued := map[], [];
    }

    method SubscribeTo(eventType: EventType, handler: Handler, eventKey: Option<string>) returns (sub: Subscription)
      requires Valid()
      modifies this
      ensures Valid() && View() == Subscribed(old(View()), Sub(eventType, eventKey, handler))
      ensures fresh(sub) && issued == old(issued) + [sub]
    {
      sub := new Subscription(eventType, eventKey, handler, |issued|);
      var bucket := if eventType in subs then subs[eventType] else [];
      ghost var before := View();
      subs := subs[eventType := bucket + [sub]];
      issued := issued + [sub];
      assert Records(issued) == before.issued + [Sub(eventType, eventKey, handler)];
      assert Tokens(bucket + [sub]) == Bucket(before, eventType) + [|before.issued|];
      assert TokenBuckets(subs) == before.buckets[eventType := Bucket(before, eventType) + [|before.issued|]];
      assert CancelledIn(issued) == before.cancelled;
      SubscribeKeepsExact(before, Sub(eventType, eventKey, handler));
      assert View() == Subscribed(before, Sub(eventType, eventKey, handler));
    }

    /** `bucket.remove(sub)` by field-wise equality. */
    method RemoveEqual(bucket: seq<Subscription>, sub: Subscription) returns (out: seq<Subscription>)
      requires sub in issued && (forall s <- bucket :: s in issued)
      requires forall i :: 0 <= i < |issued| ==> issued[i].token == i
      ensures Tokens(out) == RemoveFirstEqual(View(), Tokens(bucket), sub.token)
      ensures forall s <- out :: s in bucket
    {
      hide *;
      ghost var (b, tokens) := (View(), Tokens(bucket));
      TokensAlong(bucket);
      for i := 0 to |bucket|
        invariant forall k :: 0 <= k < i ==> !SameFields(b, tokens[k], sub.token)
      {
        assert bucket[i] in bucket;
        SameExactlyInFields(bucket[i], sub);
        if bucket[i].Fields() == sub.Fields() && bucket[i].cancelled == sub.cancelled {
          out := bucket[..i] + bucket[i + 1..];
          FirstEqualAt(b, tokens, sub.token, i);
          TokensWithout(bucket, i);
          return;
        }
      }
      FirstEqualAt(b, tokens, sub.token, |tokens|);
      out := bucket;
    }

    lemma SameExactlyInFields(s: Subscription, sub: Subscription)
      requires s in issued && sub in issued && forall i :: 0 <= i < |issued| ==> issued[i].token == i
      ensures SameFields(View(), s.token, sub.token) <==> s.Fields() == sub.Fields() && s.cancelled == sub.cancelled
    {
      var i :| 0 <= i < |issued| && issued[i] == s;
      var j :| 0 <= j < |issued| && issued[j] == sub;
      assert Records(issued)[i] == s.Fields() && Records(issued)[j] == sub.Fields();
    }

    /** The unsubscribe callback of one subscription. */
    method Cancel(sub: Subscription)
      requires Valid() && sub in issued
      modifies this`subs, sub`cancelled
      ensures Valid() && View() == Unsubscribed(old(View()), sub.token)
    {
      ghost var before := View();
      UnsubscribeKeepsExact(before, sub.token);
      if sub.cancelled {
        return;
      }
      sub.cancelled := true;
      assert CancelledIn(issued) == before.cancelled + {sub.token};
      assert View() == before.(cancelled := before.cancelled + {sub.token});
      assert before.issued[sub.token] == sub.Fields();
      if sub.eventType !in subs {
        assert sub.eventType !in before.buckets;
        return;
      }
      hide Exact, SameFields, RemoveFirstEqual, Records, CancelledIn;
      RemoveFromBucket(sub);
    }

    /** The list entry goes, and the bucket with its last entry. */
    method RemoveFromBucket(sub: Subscription)
      requires sub in issued && sub.eventType in subs
      requires forall i :: 0 <= i < |issued| ==> issued[i].token == i
      requires forall t <- subs, s <- subs[t] :: s in issued
      modifies this`subs
      ensures forall t <- subs, s <- subs[t] :: s in issued
      ensures sub.eventType in old(View()).buckets
      ensures var t := sub.eventType;
              var bucket := RemoveFirstEqual(old(View()), old(View()).buckets[t], sub.token);
              View() == old(View()).(
                buckets := if bucket == [] then old(View()).buckets - {t} else old(View()).buckets[t := bucket])
    {
      hide Records, CancelledIn, SameFields, RemoveFirstEqual;
      ghost var before := View();
      var bucket := RemoveEqual(subs[sub.eventType], sub);
      if bucket == [] {
        subs := subs - {sub.eventType};
        assert TokenBuckets(subs) == before.buckets - {sub.eventType};
      } else {
        subs := subs[sub.eventType := bucket];
        assert TokenBuckets(subs) == before.buckets[sub.eventType := Tokens(bucket)];
      }
    }

    /** What a handler does to the registry while `publish` awaits it. */
    method React(actions: seq<Action>)
      requires Valid()
      modifies this, Objects()
      ensures Valid() && View() == ActAll(old(View()), actions)
      ensures old(Objects()) <= Objects() && fresh(Objects() - old(Objects()))
    {
      for k := 0 to |actions|
        invariant Valid() && View() == ActAll(old(View()), actions[..k])
        invariant old(Objects()) <= Objects() && fresh(Objects() - old(Objects()))
      {
        assert actions[..k + 1][..k] == actions[..k];
        match actions[k] {
          case Subscribe(sub) =>
            var _ := SubscribeTo(sub.eventType, sub.handler, sub.eventKey);
          case Unsubscribe(token) =>
            if token < |issued| {
              assert issued[token] in Objects();
              Cancel(issued[token]);
            }
        }
      }
      assert actions[..|actions|] == actions;
    }

    /** One entry's turn in a fan-out: skipped when cancelled or keyed elsewhere, else its handler runs. */
    method TakeTurn(sub: Subscription, eventKey: Option<string>, reaction: Reaction) returns (called: bool)
      requires Valid() && sub in issued
      modifies this, Objects()
      ensures Valid() && old(Objects()) <= Objects() && fresh(Objects() - old(Objects()))
      ensures forall b, snapshot, reactions ::
                FanOutReaches(b, eventKey, snapshot, reactions, old(View()), sub.token, reaction) ==>
                  var (c, calls) := FanOut(b, eventKey, snapshot, reactions);
                  var before := FanOut(b, eventKey, snapshot[..|snapshot| - 1], reactions).1;
                  c == View() && calls == if called then before + [sub.token] else before
      ensures called <==> !old(sub.cancelled) && (sub.eventKey.None? || sub.eventKey == eventKey)
    {
      assert View().issued[sub.token] == sub.Fields();
      if sub.cancelled {
        return false;
      }
      if sub.eventKey.Some? && sub.eventKey != eventKey {
        return false;
      }
      // a handler that raises is logged and the fan-out goes on
      React(reaction.actions);
      called := true;
    }

    /** No subscription hears an event of another type, or with another key than the one it asked for. */
    method PublishEvent(eventType: EventType, eventKey: Option<string>, reactions: seq<Reaction>)
      returns (calls: seq<Subscription>)
      requires Valid() && |reactions| >= |Bucket(View(), eventType)|
      modifies this, Objects()
      ensures Valid()
      ensures (View(), Tokens(calls)) == Publish(old(View()), eventType, eventKey, reactions)
      ensures forall sub <- calls :: sub.token < |old(View()).issued| && old(View()).issued[sub.token] == sub.Fields()
      ensures forall sub <- calls :: sub.eventType == eventType && (sub.eventKey.None? || sub.eventKey == eventKey)
    {
      assert Exact(View());
      hide Valid, View, Objects, Tokens, Publish, Exact;
      ghost var before := View();
      calls := FanOutTo(eventType, eventKey, reactions);
      CallsHonourTheKeys(before, eventType, eventKey, reactions, calls);
    }

    method FanOutTo(eventType: EventType, eventKey: Option<string>, reactions: seq<Reaction>)
      returns (calls: seq<Subscription>)
      requires Valid() && |reactions| >= |Bucket(View(), eventType)|
      modifies this, Objects()
      ensures Valid()
      ensures (View(), Tokens(calls)) == Publish(old(View()), eventType, eventKey, reactions)
      ensures forall sub <- calls :: sub.token < |old(View()).issued| && old(View()).issued[sub.token] == sub.Fields()
    {
      hide Valid, View, Tokens, FanOut, FanOutReaches, Publish, Bucket;
      calls := [];
      ghost var before := View();
      BucketListed(eventType);
      NoTurns(before, eventKey, reactions);
      if eventType !in subs {
        PublishIsFanOut(before, eventType, eventKey, reactions);
        return;
      }
      var snapshot := subs[eventType];
      ghost var tokens := Tokens(snapshot);
      TokensAlong(snapshot);
      assert tokens[..0] == [];
      for i := 0 to |snapshot|
        invariant Valid() && old(Objects()) <= Objects() && fresh(Objects() - old(Objects()))
        invariant View() == FanOut(before, eventKey, tokens[..i], reactions).0
        invariant Tokens(calls) == FanOut(before, eventKey, tokens[..i], reactions).1
        invariant forall sub <- calls :: sub.token < |before.issued| && before.issued[sub.token] == sub.Fields()
      {
        var sub := snapshot[i];
        assert sub in snapshot;
        InObjects(sub);
        NextTurn(before, eventKey, tokens, reactions, i);
        ghost var had := Objects();
        var called := TakeTurn(sub, eventKey, reactions[i]);
        assert Objects() - old(Objects()) <= (Objects() - had) + (had - old(Objects()));
        TokensSnoc(calls, sub);
        if called {
          calls := calls + [sub];
        }
      }
      assert tokens[..|snapshot|] == tokens;
      PublishIsFanOut(before, eventType, eventKey, reactions);
    }

    lemma BucketListed(eventType: EventType)
      requires Valid()
      ensures Bucket(View(), eventType) == if eventType in subs then Tokens(subs[eventType]) else []
      ensures eventType in subs ==>
                forall sub <- subs[eventType] ::
                  && sub in Objects()
                  && sub.token < |View().issued| && View().issued[sub.token] == sub.Fields()
    {
      if eventType in subs {
        forall sub | sub in subs[eventType]
          ensures sub.token < |View().issued| && View().issued[sub.token] == sub.Fields()
        {
          IssuedUnderItsToken(sub);
        }
      }
    }

    lemma InObjects(sub: Subscription)
      ensures sub in Objects() <==> sub in issued
    {
    }
  }

  lemma {:induction false} TokensAlong(l: seq<Subscription>)
    ensures |Tokens(l)| == |l| && forall i :: 0 <= i < |l| ==> Tokens(l)[i] == l[i].token
  {
  }

  lemma {:induction false} TokensWithout(l: seq<Subscription>, i: nat)
    requires i < |l|
    ensures Tokens(l[..i] + l[i + 1..]) == Tokens(l)[..i] + Tokens(l)[i + 1..]
  {
  }

  lemma {:induction false} TokensSnoc(l: seq<Subscription>, sub: Subscription)
    ensures Tokens(l + [sub]) == Tokens(l) + [sub.token]
  {
  }

  lemma {:induction false} NoTurns(b: Bus, eventKey: Option<string>, reactions: seq<Reaction>)
    ensures FanOut(b, eventKey, [], reactions) == (b, []) && Tokens([]) == []
  {
  }

  lemma {:induction false} PublishIsFanOut(
    b: Bus, t: EventType, eventKey: Option<string>, reactions: seq<Reaction>)
    requires |reactions| >= |Bucket(b, t)|
    ensures Publish(b, t, eventKey, reactions) == FanOut(b, eventKey, Bucket(b, t), reactions)
  {
  }

  /** A fan-out that served the first `i` entries comes to the next one. */
  lemma {:induction false} NextTurn(
    b: Bus, eventKey: Option<string>, tokens: seq<nat>, reactions: seq<Reaction>, i: nat)
    requires i < |tokens| <= |reactions|
    ensures tokens[..i + 1][..|tokens[..i + 1]| - 1] == tokens[..i]
    ensures var now := FanOut(b, eventKey, tokens[..i], reactions).0;
            FanOutReaches(b, eventKey, tokens[..i + 1], reactions, now, tokens[i], reactions[i])
  {
    assert tokens[..i + 1][..i] == tokens[..i];
  }

  /** A cancellable bundle of subscriptions on one bus. */
  class SubscriptionGroup {
    const bus: EventBus
    var members: seq<Subscription>

    constructor (bus: EventBus)
      ensures this.bus == bus && members == []
    {
      this.bus := bus;
      members := [];
    }

    method SubscribeTo(eventType: EventType, handler: Handler, eventKey: Option<string>)
      requires bus.Valid()
      modifies this`members, bus
      ensures bus.Valid() && bus.View() == Subscribed(old(bus.View()), Sub(eventType, eventKey, handler))
      ensures Tokens(members) == Tokens(old(members)) + [|old(bus.issued)|]
      ensures old(bus.issued) <= bus.issued
    {
      var unsub := bus.SubscribeTo(eventType, handler, eventKey);
      assert bus.issued[|old(bus.issued)|].token == |old(bus.issued)|;
      assert Tokens(members + [unsub]) == Tokens(members) + [unsub.token];
      members := members + [unsub];
    }

    method Cancel()
      requires bus.Valid() && forall m <- members :: m in bus.issued
      modifies this`members, bus`subs, members
      ensures bus.Valid() && members == []
      ensures bus.View() == CancelAll(old(bus.View()), Tokens(old(members)))
    {
      var taken := members;
      members := [];
      for i := 0 to |taken|
        invariant bus.Valid() && bus.issued == old(bus.issued) && members == []
        invariant bus.View() == CancelAll(old(bus.View()), Tokens(taken)[..i])
      {
        assert Tokens(taken)[..i + 1][..i] == Tokens(taken)[..i];
        assert taken[i] in bus.issued;
        bus.Cancel(taken[i]);
      }
      assert Tokens(taken)[..|taken|] == Tokens(taken);
    }
  }
}
