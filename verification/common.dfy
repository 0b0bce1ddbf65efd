/** Vocabulary shared by the models: optional values and Python-dict updates. */
module Common {

  datatype Option<+T> = None | Some(value: T)

  /** The value a list of dict assignments leaves under `key`, or None if none of them writes it. */
  function LastWrite<K(==), V>(writes: seq<(K, V)>, key: K): (r: Option<V>)
    ensures r.Some? ==> (key, r.value) in writes
    ensures r.None? <==> forall w <- writes :: w.0 != key
  {
    if writes == [] then None
    else
      var last := writes[|writes| - 1];
      if last.0 == key then Some(last.1) else LastWrite(writes[..|writes| - 1], key)
  }

  /** A dict after a list of assignments, applied in order. */
  function PutAll<K, V>(m: map<K, V>, writes: seq<(K, V)>): map<K, V> {
    if writes == [] then m
    else
      var last := writes[|writes| - 1];
      PutAll(m, writes[..|writes| - 1])[last.0 := last.1]
  }

  function Get<K, V>(m: map<K, V>, key: K): Option<V> {
    if key in m then Some(m[key]) else None
  }

  function OrElse<T>(a: Option<T>, b: Option<T>): Option<T> {
    if a.Some? then a else b
  }

  /** `PutAll` leaves the last write under a written key and the old entry under any other. */
  lemma {:induction false} PutAllGet<K, V>(m: map<K, V>, writes: seq<(K, V)>, key: K)
    ensures Get(PutAll(m, writes), key) == OrElse(LastWrite(writes, key), Get(m, key))
  {
    if writes != [] {
      PutAllGet(m, writes[..|writes| - 1], key);
    }
  }

  /** Nothing after position `i` writes the same key. */
  ghost predicate IsLast<K, V>(writes: seq<(K, V)>, i: nat) {
    i < |writes| && forall j :: i < j < |writes| ==> writes[j].0 != writes[i].0
  }

  lemma {:induction false} LastWriteIs<K, V>(writes: seq<(K, V)>, i: nat)
    requires IsLast(writes, i)
    ensures LastWrite(writes, writes[i].0) == Some(writes[i].1)
  {
    if i < |writes| - 1 {
      LastWriteIs(writes[..|writes| - 1], i);
    }
  }

  lemma {:induction false} LastWriteAt<K, V>(writes: seq<(K, V)>, key: K) returns (i: nat)
    requires LastWrite(writes, key).Some?
    ensures IsLast(writes, i) && writes[i] == (key, LastWrite(writes, key).value)
  {
    var n := |writes| - 1;
    if writes[n].0 == key {
      i := n;
    } else {
      i := LastWriteAt(writes[..n], key);
    }
  }

  function Elements<T>(s: seq<T>): set<T> {
    set x | x in s
  }

  ghost predicate Distinct<T>(s: seq<T>) {
    forall i, j :: 0 <= i < j < |s| ==> s[i] != s[j]
  }
}
