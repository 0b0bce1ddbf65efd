/**
 A map of live objects with a secondary index, as the store keeps for custom data points (by
 primary channel) and alarm panels (by zone). The index is updated beside the map; this module says
 when it still answers what a scan of the map would.
 */
module IndexTable {
  import opened Common

  /** `keyOf` is the secondary key each object currently carries. */
  datatype Table<K, C, H> = Table(primary: map<K, H>, keyOf: map<K, C>, index: map<C, H>)

  ghost predicate WellFormed<K, C, H>(t: Table<K, C, H>) {
    && t.keyOf.Keys == t.primary.Keys
    && forall k, l :: k in t.primary && l in t.primary && t.primary[k] == t.primary[l] ==> k == l
  }

  function Registered<K, C, H>(t: Table<K, C, H>, k: K, c: C, h: H): Table<K, C, H> {
    Table(t.primary[k := h], t.keyOf[k := c], t.index[c := h])
  }

  function Dropped<K, C, H>(t: Table<K, C, H>, k: K): Table<K, C, H> {
    if k in t.primary && k in t.keyOf then Table(t.primary - {k}, t.keyOf - {k}, t.index - {t.keyOf[k]}) else t
  }

  /** An object already in the map takes a new secondary key; the old index entry stays. */
  function Rekeyed<K, C, H>(t: Table<K, C, H>, k: K, c: C): Table<K, C, H>
    requires k in t.primary
  {
    t.(keyOf := t.keyOf[k := c], index := t.index[c := t.primary[k]])
  }

  function DropAll<K, C, H>(t: Table<K, C, H>, keys: seq<K>): Table<K, C, H> {
    if keys == [] then t else Dropped(DropAll(t, keys[..|keys| - 1]), keys[|keys| - 1])
  }

  ghost function Names<K, C>(incoming: seq<(K, C)>): set<K> {
    set w | w in incoming :: w.0
  }

  ghost function Claims<K, C>(incoming: seq<(K, C)>): set<C> {
    set w | w in incoming :: w.1
  }

  /** One catalogue read merged in order; `built` gives the object made for a name that is new. */
  ghost function Merged<K, C, H>(t: Table<K, C, H>, incoming: seq<(K, C)>, built: map<K, H>): Table<K, C, H> {
    if incoming == [] then t
    else
      var (k, c) := incoming[|incoming| - 1];
      var u := Merged(t, incoming[..|incoming| - 1], built);
      if k in u.primary then Rekeyed(u, k, c)
      else if k in built then Registered(u, k, c, built[k])
      else u
  }

  /** The keys of the scope the catalogue no longer names. */
  ghost function Stale<K, C, H>(t: Table<K, C, H>, scope: set<K>, incoming: seq<(K, C)>): set<K> {
    t.primary.Keys * scope - Names(incoming)
  }

  /** The table without a set of keys and their index entries. */
  function Without<K, C, H>(t: Table<K, C, H>, gone: set<K>): Table<K, C, H>
    requires t.keyOf.Keys == t.primary.Keys
  {
    Table(t.primary - gone, t.keyOf - gone, t.index - (set k | k in gone && k in t.keyOf :: t.keyOf[k]))
  }

  /** Reconciling against a catalogue: stale keys go, known ones are re-keyed in place, new ones are built. */
  ghost function Reconciled<K, C, H>(
    t: Table<K, C, H>, scope: set<K>, incoming: seq<(K, C)>, built: map<K, H>): Table<K, C, H>
    requires t.keyOf.Keys == t.primary.Keys
  {
    Merged(Without(t, Stale(t, scope, incoming)), incoming, built)
  }

  lemma {:induction false} DropAllIsWithout<K, C, H>(t: Table<K, C, H>, keys: seq<K>)
    requires t.keyOf.Keys == t.primary.Keys
    ensures DropAll(t, keys) == Without(t, Elements(keys))
  {
    if keys == [] {
      assert Elements(keys) == {};
    } else {
      var front, k := keys[..|keys| - 1], keys[|keys| - 1];
      DropAllIsWithout(t, front);
      assert Elements(keys) == Elements(front) + {k} by { assert keys == front + [k]; }
      WithoutOneMore(t, Elements(front), k);
    }
  }

  lemma {:induction false} WithoutOneMore<K, C, H>(t: Table<K, C, H>, gone: set<K>, k: K)
    requires t.keyOf.Keys == t.primary.Keys
    ensures Dropped(Without(t, gone), k) == Without(t, gone + {k})
  {
    var a, b := set l | l in gone && l in t.keyOf :: t.keyOf[l], set l | l in gone + {k} && l in t.keyOf :: t.keyOf[l];
    var u, v := Without(t, gone), Without(t, gone + {k});
    if k in t.keyOf {
      assert b == a + {t.keyOf[k]};
    } else {
      assert b == a;
    }
    assert k in u.primary <==> k in t.primary && k !in gone;
    assert u.index - (b - a) == v.index;
    if k in u.primary {
      assert u.primary - {k} == v.primary && u.keyOf - {k} == v.keyOf;
      assert u.index - {t.keyOf[k]} == v.index;
    } else {
      assert u.primary == v.primary && u.keyOf == v.keyOf;
      assert b == a by {
        if k in t.keyOf {
          assert k in gone;
          assert t.keyOf[k] in a;
        }
      }
    }
  }

  // ---- agreement ----

  /** The index answers exactly what filtering the map by secondary key would. */
  ghost predicate Agrees<K, C, H>(t: Table<K, C, H>) {
    && WellFormed(t)
    && (forall k <- t.primary :: t.keyOf[k] in t.index && t.index[t.keyOf[k]] == t.primary[k])
    && (forall c <- t.index :: exists k :: k in t.primary && t.keyOf[k] == c && t.primary[k] == t.index[c])
  }

  function Scan<K, C, H>(t: Table<K, C, H>, c: C): set<K>
    requires t.keyOf.Keys == t.primary.Keys
  {
    set k | k in t.primary && t.keyOf[k] == c
  }

  /** Under agreement a lookup is a scan: absent when nothing carries the key, else the one object that does. */
  lemma {:induction false} LookupIsScan<K, C, H>(t: Table<K, C, H>, c: C)
    requires Agrees(t)
    ensures c !in t.index ==> Scan(t, c) == {}
    ensures c in t.index ==> exists k :: k in t.primary && Scan(t, c) == {k} && t.index[c] == t.primary[k]
  {
    if c in t.index {
      var k :| k in t.primary && t.keyOf[k] == c && t.primary[k] == t.index[c];
      forall l | l in Scan(t, c) ensures l == k {
        assert t.index[t.keyOf[l]] == t.primary[l];
      }
      assert Scan(t, c) == {k};
    }
  }

  lemma {:induction false} DropKeepsAgreement<K, C, H>(t: Table<K, C, H>, gone: set<K>)
    requires Agrees(t)
    ensures Agrees(Without(t, gone))
  {
    var u := Without(t, gone);
    forall k | k in u.primary ensures u.keyOf[k] in u.index && u.index[u.keyOf[k]] == u.primary[k] {
      forall l | l in gone && l in t.keyOf ensures t.keyOf[l] != t.keyOf[k] {
        assert t.index[t.keyOf[l]] == t.primary[l];
      }
    }
    forall c | c in u.index ensures exists k :: k in u.primary && u.keyOf[k] == c && u.primary[k] == u.index[c] {
      var k :| k in t.primary && t.keyOf[k] == c && t.primary[k] == t.index[c];
      assert k in u.primary;
    }
  }

  /** Registering a new object keeps agreement exactly when nothing carried its secondary key. */
  lemma {:induction false} RegisterAgreesExactlyWhenUnclaimed<K, C, H>(t: Table<K, C, H>, k: K, c: C, h: H)
    requires Agrees(t) && k !in t.primary && h !in t.primary.Values
    ensures Agrees(Registered(t, k, c, h)) <==> c !in t.index
  {
    var u := Registered(t, k, c, h);
    if c in t.index {
      var l :| l in t.primary && t.keyOf[l] == c && t.primary[l] == t.index[c];
      assert u.keyOf[l] == c && u.primary[l] in t.primary.Values && u.index[c] == h;
    } else {
      forall d | d in u.index ensures exists l :: l in u.primary && u.keyOf[l] == d && u.primary[l] == u.index[d] {
        if d == c {
          assert u.keyOf[k] == d;
        } else {
          var l :| l in t.primary && t.keyOf[l] == d && t.primary[l] == t.index[d];
          assert l != k && u.keyOf[l] == d;
        }
      }
      forall l, m | l in u.primary && m in u.primary && u.primary[l] == u.primary[m] ensures l == m {
        if l == k || m == k {
          assert u.primary[l] == h;
        }
      }
    }
  }

  // ---- reconciling ----

  function Swapped<K, C>(incoming: seq<(K, C)>): seq<(C, K)> {
    seq(|incoming|, i requires 0 <= i < |incoming| => (incoming[i].1, incoming[i].0))
  }

  /** The last name to claim a secondary key, and the last key a name claims. */
  function Claimant<K(==), C(==)>(incoming: seq<(K, C)>, c: C): Option<K> {
    LastWrite(Swapped(incoming), c)
  }

  lemma {:induction false} MergePrimary<K, C, H>(t: Table<K, C, H>, incoming: seq<(K, C)>, built: map<K, H>)
    requires t.keyOf.Keys == t.primary.Keys && Names(incoming) <= t.primary.Keys + built.Keys
    ensures var u := Merged(t, incoming, built);
            && u.keyOf.Keys == u.primary.Keys == t.primary.Keys + Names(incoming)
            && (forall k <- u.primary :: u.primary[k] == if k in t.primary then t.primary[k] else built[k])
  {
    if incoming == [] {
      assert Names(incoming) == {};
    } else {
      var front, last := incoming[..|incoming| - 1], incoming[|incoming| - 1];
      assert incoming == front + [last];
      assert Names(incoming) == Names(front) + {last.0};
      MergePrimary(t, front, built);
    }
  }

  lemma {:induction false} MergeKeyOf<K, C, H>(t: Table<K, C, H>, incoming: seq<(K, C)>, built: map<K, H>, k: K)
    requires t.keyOf.Keys == t.primary.Keys && Names(incoming) <= t.primary.Keys + built.Keys
    requires k in Merged(t, incoming, built).keyOf
    ensures LastWrite(incoming, k).None? ==> k in t.keyOf
    ensures Merged(t, incoming, built).keyOf[k]
         == match LastWrite(incoming, k) { case Some(c) => c case None => t.keyOf[k] }
  {
    if incoming != [] {
      var front, last := incoming[..|incoming| - 1], incoming[|incoming| - 1];
      assert incoming == front + [last];
      assert Names(incoming) == Names(front) + {last.0};
      MergePrimary(t, front, built);
      if last.0 != k {
        MergeKeyOf(t, front, built, k);
      }
    }
  }

  lemma {:induction false} MergeIndex<K, C, H>(t: Table<K, C, H>, incoming: seq<(K, C)>, built: map<K, H>, c: C)
    requires t.keyOf.Keys == t.primary.Keys && Names(incoming) <= t.primary.Keys + built.Keys
    ensures var u := Merged(t, incoming, built);
            && (c in u.index <==> c in t.index || Claimant(incoming, c).Some?)
            && (c in u.index ==>
                  match Claimant(incoming, c) {
                    case Some(k) => k in u.primary && u.index[c] == u.primary[k]
                    case None => u.index[c] == t.index[c]
                  })
  {
    if incoming != [] {
      var n := |incoming| - 1;
      var front, last := incoming[..n], incoming[n];
      assert incoming == front + [last];
      assert Names(incoming) == Names(front) + {last.0};
      MergeIndexStep(t, front, last, built);
      assert Swapped(incoming)[..n] == Swapped(front) && Swapped(incoming)[n] == (last.1, last.0);
      if last.1 != c {
        MergePrimary(t, front, built);
        MergeIndex(t, front, built, c);
      }
    }
  }

  lemma {:induction false} MergeIndexStep<K, C, H>(
    t: Table<K, C, H>, front: seq<(K, C)>, last: (K, C), built: map<K, H>)
    requires t.keyOf.Keys == t.primary.Keys && Names(front + [last]) <= t.primary.Keys + built.Keys
    ensures var (u, v) := (Merged(t, front, built), Merged(t, front + [last], built));
            && last.0 in v.primary
            && v.index == u.index[last.1 := v.primary[last.0]]
            && (forall k <- u.primary :: k in v.primary && v.primary[k] == u.primary[k])
  {
    assert (front + [last])[..|front|] == front;
    assert last in front + [last];
    assert last.0 in Names(front + [last]);
    assert forall w <- front :: w in front + [last] && w.0 in Names(front + [last]);
    MergePrimary(t, front, built);
  }

  /**
   What makes a catalogue read settle the index: the last claimant of each key ends on it, each name is
   the last claimant of the key it ends on, and the key every surviving object had is claimed again.
   */
  ghost predicate Settles<K, C, H>(t: Table<K, C, H>, scope: set<K>, incoming: seq<(K, C)>)
    requires t.keyOf.Keys == t.primary.Keys
  {
    && (forall w <- incoming ::
          var k := Claimant(incoming, w.1);
          k.Some? && LastWrite(incoming, k.value) == Some(w.1))
    && (forall w <- incoming ::
          var c := LastWrite(incoming, w.0);
          c.Some? && Claimant(incoming, c.value) == Some(w.0))
    && (forall k <- t.primary :: k in scope && k in Names(incoming) ==> t.keyOf[k] in Claims(incoming))
  }

  lemma {:induction false} ClaimantIn<K, C>(incoming: seq<(K, C)>, c: C)
    ensures Claimant(incoming, c).Some? <==> c in Claims(incoming)
    ensures Claimant(incoming, c).Some? ==> (Claimant(incoming, c).value, c) in incoming
  {
    var s := Swapped(incoming);
    if Claimant(incoming, c).Some? {
      var k := Claimant(incoming, c).value;
      var i :| 0 <= i < |s| && s[i] == (c, k);
      assert incoming[i] == (k, c);
    }
    forall w | w in incoming && w.1 == c ensures Claimant(incoming, c).Some? {
      var i :| 0 <= i < |incoming| && incoming[i] == w;
      assert s[i].0 == c;
    }
  }

  /**
   Reconciling keeps the index exact if and only if the catalogue settles it. `incoming` may name or
   claim the same thing twice; objects outside the scope carry other keys.
   */
  lemma {:induction false} ReconcileAgreesExactlyWhenSettled<K, C, H>(
    t: Table<K, C, H>, scope: set<K>, incoming: seq<(K, C)>, built: map<K, H>)
    requires Agrees(t) && Names(incoming) <= scope && Names(incoming) <= t.primary.Keys + built.Keys
    requires WellFormed(Reconciled(t, scope, incoming, built))
    requires forall k <- t.primary :: k !in scope ==> t.keyOf[k] !in Claims(incoming)
    ensures Agrees(Reconciled(t, scope, incoming, built)) <==> Settles(t, scope, incoming)
  {
    var u := Without(t, Stale(t, scope, incoming));
    DropKeepsAgreement(t, Stale(t, scope, incoming));
    if Settles(t, scope, incoming) {
      SettledAgrees(u, scope, incoming, built);
    }
    if Agrees(Reconciled(t, scope, incoming, built)) {
      AgreementSettles(u, scope, incoming, built);
    }
  }

  lemma {:induction false} SettledAgrees<K, C, H>(
    u: Table<K, C, H>, scope: set<K>, incoming: seq<(K, C)>, built: map<K, H>)
    requires Agrees(u) && Names(incoming) <= u.primary.Keys + built.Keys
    requires WellFormed(Merged(u, incoming, built))
    requires u.primary.Keys * scope <= Names(incoming)
    requires forall k <- u.primary :: k !in scope ==> k !in Names(incoming) && u.keyOf[k] !in Claims(incoming)
    requires Settles(u, scope, incoming)
    ensures Agrees(Merged(u, incoming, built))
  {
    var v := Merged(u, incoming, built);
    MergePrimary(u, incoming, built);
    forall k | k in v.primary ensures v.keyOf[k] in v.index && v.index[v.keyOf[k]] == v.primary[k] {
      MergeKeyOf(u, incoming, built, k);
      MergeIndex(u, incoming, built, v.keyOf[k]);
      ClaimantIn(incoming, v.keyOf[k]);
      if k in Names(incoming) {
        var w :| w in incoming && w.0 == k;
      }
    }
    forall c | c in v.index ensures exists k :: k in v.primary && v.keyOf[k] == c && v.primary[k] == v.index[c] {
      MergeIndex(u, incoming, built, c);
      ClaimantIn(incoming, c);
      if c in Claims(incoming) {
        var w :| w in incoming && w.1 == c;
        var k := Claimant(incoming, c).value;
        MergeKeyOf(u, incoming, built, k);
        assert v.keyOf[k] == c;
      } else {
        var k :| k in u.primary && u.keyOf[k] == c && u.primary[k] == u.index[c];
        MergeKeyOf(u, incoming, built, k);
        assert k in v.primary && k !in Names(incoming);
      }
    }
  }

  lemma {:induction false} AgreementSettles<K, C, H>(
    u: Table<K, C, H>, scope: set<K>, incoming: seq<(K, C)>, built: map<K, H>)
    requires Agrees(u) && Names(incoming) <= u.primary.Keys + built.Keys
    requires Agrees(Merged(u, incoming, built))
    ensures Settles(u, scope, incoming)
  {
    var v := Merged(u, incoming, built);
    MergePrimary(u, incoming, built);
    forall w | w in incoming
      ensures Claimant(incoming, w.1).Some? && LastWrite(incoming, Claimant(incoming, w.1).value) == Some(w.1)
    {
      ClaimStands(u, incoming, built, w);
    }
    forall w | w in incoming
      ensures LastWrite(incoming, w.0).Some? && Claimant(incoming, LastWrite(incoming, w.0).value) == Some(w.0)
    {
      NameHoldsItsKey(u, incoming, built, w);
    }
    forall k | k in u.primary && k in scope && k in Names(incoming) ensures u.keyOf[k] in Claims(incoming) {
      OldKeyIsClaimed(u, incoming, built, k);
    }
  }

  lemma {:induction false} ClaimStands<K, C, H>(u: Table<K, C, H>, incoming: seq<(K, C)>, built: map<K, H>, w: (K, C))
    requires Agrees(u) && Names(incoming) <= u.primary.Keys + built.Keys
    requires Agrees(Merged(u, incoming, built)) && w in incoming
    ensures Claimant(incoming, w.1).Some? && LastWrite(incoming, Claimant(incoming, w.1).value) == Some(w.1)
  {
    var v := Merged(u, incoming, built);
    MergePrimary(u, incoming, built);
    assert w.1 in Claims(incoming);
    ClaimantIn(incoming, w.1);
    MergeIndex(u, incoming, built, w.1);
    var k :| k in v.primary && v.keyOf[k] == w.1 && v.primary[k] == v.index[w.1];
    assert k == Claimant(incoming, w.1).value;
    MergeKeyOf(u, incoming, built, k);
  }

  lemma {:induction false} NameHoldsItsKey<K, C, H>(
    u: Table<K, C, H>, incoming: seq<(K, C)>, built: map<K, H>, w: (K, C))
    requires Agrees(u) && Names(incoming) <= u.primary.Keys + built.Keys
    requires Agrees(Merged(u, incoming, built)) && w in incoming
    ensures LastWrite(incoming, w.0).Some? && Claimant(incoming, LastWrite(incoming, w.0).value) == Some(w.0)
  {
    var v := Merged(u, incoming, built);
    MergePrimary(u, incoming, built);
    assert w.0 in Names(incoming) && w.0 in v.primary;
    MergeKeyOf(u, incoming, built, w.0);
    var c := v.keyOf[w.0];
    assert (w.0, c) in incoming && c in Claims(incoming);
    ClaimantIn(incoming, c);
    MergeIndex(u, incoming, built, c);
    assert v.index[c] == v.primary[w.0];
  }

  lemma {:induction false} OldKeyIsClaimed<K, C, H>(u: Table<K, C, H>, incoming: seq<(K, C)>, built: map<K, H>, k: K)
    requires Agrees(u) && Names(incoming) <= u.primary.Keys + built.Keys
    requires Agrees(Merged(u, incoming, built)) && k in u.primary && k in Names(incoming)
    ensures u.keyOf[k] in Claims(incoming)
  {
    var v, c := Merged(u, incoming, built), u.keyOf[k];
    MergePrimary(u, incoming, built);
    MergeIndex(u, incoming, built, c);
    ClaimantIn(incoming, c);
    if Claimant(incoming, c).None? {
      var l :| l in v.primary && v.keyOf[l] == c && v.primary[l] == v.index[c];
      assert v.primary[k] == u.primary[k] == u.index[c];
      assert l == k;
      MergeKeyOf(u, incoming, built, k);
    }
  }

  /** With names and keys unique and every survivor keeping its key, a catalogue read settles the index. */
  lemma {:induction false} StableCatalogueSettles<K, C, H>(t: Table<K, C, H>, scope: set<K>, incoming: seq<(K, C)>)
    requires t.keyOf.Keys == t.primary.Keys
    requires forall v, w :: v in incoming && w in incoming && (v.0 == w.0 || v.1 == w.1) ==> v == w
    requires forall w <- incoming :: w.0 in t.primary ==> t.keyOf[w.0] == w.1
    ensures Settles(t, scope, incoming)
  {
    forall w | w in incoming ensures Claimant(incoming, w.1) == Some(w.0) && LastWrite(incoming, w.0) == Some(w.1) {
      assert w.1 in Claims(incoming);
      ClaimantIn(incoming, w.1);
    }
    forall k | k in t.primary && k in scope && k in Names(incoming) ensures t.keyOf[k] in Claims(incoming) {
      var w :| w in incoming && w.0 == k;
      assert w.1 in Claims(incoming);
    }
  }

  // ---- every sequence of calls ----

  datatype Op<K, C, H> =
    | Reconcile(scope: set<K>, incoming: seq<(K, C)>, built: map<K, H>)
    | DropKeys(gone: set<K>)
    | Register(key: K, claim: C, object: H)

  /** Each object stands under one name, keeps the secondary key it has, and no two claim the same one. */
  ghost predicate Fits<K, C, H>(t: Table<K, C, H>, op: Op<K, C, H>)
    requires t.keyOf.Keys == t.primary.Keys
  {
    match op
    case Reconcile(scope, incoming, built) =>
      && Names(incoming) <= scope && Names(incoming) <= t.primary.Keys - Stale(t, scope, incoming) + built.Keys
      && WellFormed(Reconciled(t, scope, incoming, built))
      && (forall v, w :: v in incoming && w in incoming && (v.0 == w.0 || v.1 == w.1) ==> v == w)
      && (forall w <- incoming :: w.0 in t.primary ==> t.keyOf[w.0] == w.1)
      && (forall k <- t.primary :: k !in scope ==> t.keyOf[k] !in Claims(incoming))
    case DropKeys(_) => true
    case Register(k, c, h) => k !in t.primary && h !in t.primary.Values && c !in t.index
  }

  ghost function Apply<K, C, H>(t: Table<K, C, H>, op: Op<K, C, H>): (u: Table<K, C, H>)
    requires t.keyOf.Keys == t.primary.Keys && Fits(t, op)
    ensures u.keyOf.Keys == u.primary.Keys
  {
    match op
    case Reconcile(scope, incoming, built) =>
      MergePrimary(Without(t, Stale(t, scope, incoming)), incoming, built);
      Reconciled(t, scope, incoming, built)
    case DropKeys(gone) => Without(t, gone)
    case Register(k, c, h) => Registered(t, k, c, h)
  }

  ghost predicate FitsAll<K, C, H>(t: Table<K, C, H>, ops: seq<Op<K, C, H>>)
    requires t.keyOf.Keys == t.primary.Keys
    decreases |ops|
  {
    ops != [] ==> Fits(t, ops[0]) && FitsAll(Apply(t, ops[0]), ops[1..])
  }

  ghost function ApplyAll<K, C, H>(t: Table<K, C, H>, ops: seq<Op<K, C, H>>): Table<K, C, H>
    requires t.keyOf.Keys == t.primary.Keys && FitsAll(t, ops)
    decreases |ops|
  {
    if ops == [] then t else ApplyAll(Apply(t, ops[0]), ops[1..])
  }

  lemma {:induction false} FittingStepAgrees<K, C, H>(t: Table<K, C, H>, op: Op<K, C, H>)
    requires Agrees(t) && Fits(t, op)
    ensures Agrees(Apply(t, op))
  {
    match op {
      case Reconcile(scope, incoming, built) =>
        StableCatalogueSettles(t, scope, incoming);
        ReconcileAgreesExactlyWhenSettled(t, scope, incoming, built);
      case DropKeys(gone) => DropKeepsAgreement(t, gone);
      case Register(k, c, h) => RegisterAgreesExactlyWhenUnclaimed(t, k, c, h);
    }
  }

  /** After any sequence of attaches, drops and registrations with stable, unique keys, a lookup is a scan. */
  lemma {:induction false} EveryFittingRunAgrees<K, C, H>(t: Table<K, C, H>, ops: seq<Op<K, C, H>>)
    requires Agrees(t) && FitsAll(t, ops)
    ensures Agrees(ApplyAll(t, ops))
    decreases |ops|
  {
    if ops != [] {
      FittingStepAgrees(t, ops[0]);
      EveryFittingRunAgrees(Apply(t, ops[0]), ops[1..]);
    }
  }

  /** An object whose key moves leaves its old index entry behind: a lookup finds it where a scan finds nothing. */
  lemma {:induction false} MovedKeyLeavesAStaleEntry<K, C, H>(k: K, h: H, from: C, to: C)
    requires from != to
    ensures var t := Table(map[k := h], map[k := from], map[from := h]);
            var u := Reconciled(t, {k}, [(k, to)], map[]);
            && Agrees(t) && !Agrees(u)
            && u.keyOf.Keys == u.primary.Keys && Scan(u, from) == {} && from in u.index && u.index[from] == h
  {
    var t := Table(map[k := h], map[k := from], map[from := h]);
    var incoming := [(k, to)];
    assert t.primary[k] == h && t.keyOf[k] == from && t.index[from] == h;
    assert incoming[0] in incoming;
    assert Names(incoming) == {k} && Claims(incoming) == {to};
    assert Stale(t, {k}, incoming) == {};
    assert Without(t, {}) == t;
    MergePrimary(t, incoming, map[]);
    MergeKeyOf(t, incoming, map[], k);
    MergeIndex(t, incoming, map[], from);
    ClaimantIn(incoming, from);
    var u := Reconciled(t, {k}, incoming, map[]);
    assert forall l <- u.primary :: l == k;
    assert u.keyOf[k] == to;
    assert Scan(u, from) == {};
  }
}
