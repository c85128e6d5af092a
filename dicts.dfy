/**
 * Python's `dict`: an insertion-ordered association list.  Assigning to a
 * present key replaces its value in place; assigning to a new key appends it.
 * Iteration (`items()`, `keys()`, `values()`) follows the list order.
 */
module Dicts {
  import opened Wrappers

  type Dict<K, V> = seq<(K, V)>

  function Keys<K, V>(d: Dict<K, V>): (ks: seq<K>)
    ensures |ks| == |d|
    ensures forall i :: 0 <= i < |d| ==> ks[i] == d[i].0
  {
    seq(|d|, i requires 0 <= i < |d| => d[i].0)
  }

  lemma KeysConcat<K, V>(a: Dict<K, V>, b: Dict<K, V>)
    ensures Keys(a + b) == Keys(a) + Keys(b)
  {
  }

  lemma KeysHas<K(!new), V>(d: Dict<K, V>, k: K)
    ensures k in Keys(d) <==> HasKey(d, k)
  {
    if HasKey(d, k) {
      var j :| 0 <= j < |d| && d[j].0 == k;
      assert Keys(d)[j] == k;
    }
  }

  function Values<K, V>(d: Dict<K, V>): (vs: seq<V>)
    ensures |vs| == |d|
    ensures forall i :: 0 <= i < |d| ==> vs[i] == d[i].1
  {
    seq(|d|, i requires 0 <= i < |d| => d[i].1)
  }

  /** No key occurs twice: what every Python dict satisfies. */
  predicate UniqueKeys<K(==), V>(d: Dict<K, V>) {
    forall i, j :: 0 <= i < j < |d| ==> d[i].0 != d[j].0
  }

  predicate HasKey<K(==,!new), V>(d: Dict<K, V>, k: K) {
    exists i :: 0 <= i < |d| && d[i].0 == k
  }

  /** Position of the first entry for `k`, scanning from `from`. */
  function IndexFrom<K(==,!new), V>(d: Dict<K, V>, k: K, from: nat): (r: Option<nat>)
    requires from <= |d|
    ensures r.Some? ==> from <= r.value < |d| && d[r.value].0 == k &&
                        forall j :: from <= j < r.value ==> d[j].0 != k
    ensures r.None? ==> forall j :: from <= j < |d| ==> d[j].0 != k
    decreases |d| - from
  {
    if from == |d| then None
    else if d[from].0 == k then Some(from)
    else IndexFrom(d, k, from + 1)
  }

  function IndexOf<K(==,!new), V>(d: Dict<K, V>, k: K): (r: Option<nat>)
    ensures r.Some? ==> r.value < |d| && d[r.value].0 == k &&
                        forall j :: 0 <= j < r.value ==> d[j].0 != k
    ensures r.None? <==> !HasKey(d, k)
  {
    IndexFrom(d, k, 0)
  }

  /** `d.get(k)` */
  function Get<K(==,!new), V>(d: Dict<K, V>, k: K): (r: Option<V>)
    ensures r.Some? <==> HasKey(d, k)
  {
    match IndexOf(d, k)
    case None => None
    case Some(i) => Some(d[i].1)
  }

  /** `d[k] = v` */
  function Set<K(==,!new), V>(d: Dict<K, V>, k: K, v: V): (r: Dict<K, V>)
    ensures Get(r, k) == Some(v)
    ensures forall k' :: k' != k ==> Get(r, k') == Get(d, k')
  {
    match IndexOf(d, k)
    case None =>
      var r := d + [(k, v)];
      IndexOfAt(r, k, |d|);
      AppendKeepsOthers(d, k, v);
      r
    case Some(i) =>
      var r := d[i := (k, v)];
      IndexOfAt(r, k, i);
      ReplaceKeepsOthers(d, i, k, v);
      r
  }

  /** An assignment keeps the key order: a present key stays where it is, a
      new one is appended; keys stay unique. */
  lemma SetKeys<K(!new), V>(d: Dict<K, V>, k: K, v: V)
    ensures Keys(Set(d, k, v)) == if HasKey(d, k) then Keys(d) else Keys(d) + [k]
    ensures UniqueKeys(d) ==> UniqueKeys(Set(d, k, v))
  {
    match IndexOf(d, k)
    case None =>
      assert Set(d, k, v) == d + [(k, v)];
    case Some(i) =>
      assert Set(d, k, v) == d[i := (k, v)];
  }

  /** The first entry for `k` is at `i`. */
  lemma IndexOfAt<K(!new), V>(d: Dict<K, V>, k: K, i: nat)
    requires i < |d| && d[i].0 == k
    requires forall j :: 0 <= j < i ==> d[j].0 != k
    ensures IndexOf(d, k) == Some(i)
  {
    assert HasKey(d, k);
  }

  lemma AppendKeepsOthers<K(!new), V>(d: Dict<K, V>, k: K, v: V)
    requires !HasKey(d, k)
    ensures forall k' :: k' != k ==> Get(d + [(k, v)], k') == Get(d, k')
  {
    var r := d + [(k, v)];
    forall k' | k' != k
      ensures Get(r, k') == Get(d, k')
    {
      if HasKey(d, k') {
        IndexOfAt(r, k', IndexOf(d, k').value);
      } else {
        assert !HasKey(r, k');
      }
    }
  }

  lemma ReplaceKeepsOthers<K(!new), V>(d: Dict<K, V>, i: nat, k: K, v: V)
    requires i < |d| && d[i].0 == k
    ensures forall k' :: k' != k ==> Get(d[i := (k, v)], k') == Get(d, k')
  {
    var r := d[i := (k, v)];
    forall k' | k' != k
      ensures Get(r, k') == Get(d, k')
    {
      if HasKey(d, k') {
        IndexOfAt(r, k', IndexOf(d, k').value);
      } else {
        assert !HasKey(r, k');
      }
    }
  }

  /** The value of the last assignment to `k` in `writes`, if any. */
  function LastWrite<K(==,!new), V>(writes: seq<(K, V)>, k: K): Option<V> {
    if writes == [] then None
    else if writes[|writes| - 1].0 == k then Some(writes[|writes| - 1].1)
    else LastWrite(writes[..|writes| - 1], k)
  }

  /** The assignments `d[k] = v` for each `(k, v)` of `writes`, in order. */
  function SetAll<K(==,!new), V>(d: Dict<K, V>, writes: seq<(K, V)>): Dict<K, V> {
    if writes == [] then d
    else
      var last := writes[|writes| - 1];
      Set(SetAll(d, writes[..|writes| - 1]), last.0, last.1)
  }

  /** After a sequence of assignments, each key holds its last assigned value
      (or its old one when it was not assigned). */
  lemma {:induction false} GetSetAll<K(!new), V>(d: Dict<K, V>, writes: seq<(K, V)>, k: K)
    ensures Get(SetAll(d, writes), k) ==
            if LastWrite(writes, k).Some? then LastWrite(writes, k) else Get(d, k)
  {
    if writes != [] {
      GetSetAll(d, writes[..|writes| - 1], k);
    }
  }

  /** Assignments never reorder or drop keys: new keys are appended in the
      order of their first assignment. */
  lemma {:induction false} KeysSetAll<K(!new), V>(d: Dict<K, V>, writes: seq<(K, V)>, k: K)
    ensures HasKey(SetAll(d, writes), k) <==> HasKey(d, k) || LastWrite(writes, k).Some?
    ensures UniqueKeys(d) ==> UniqueKeys(SetAll(d, writes))
  {
    GetSetAll(d, writes, k);
    if writes != [] {
      KeysSetAll(d, writes[..|writes| - 1], k);
    }
  }

  /** Assigning to a key that is not there appends it; assigning to the last
      entry replaces it in place. */
  lemma SetLast<K(!new), V>(d: Dict<K, V>, k: K, v: V, v': V)
    requires !HasKey(d, k)
    ensures Set(d, k, v) == d + [(k, v)]
    ensures Get(d + [(k, v)], k) == Some(v)
    ensures Set(d + [(k, v)], k, v') == d + [(k, v')]
  {
    IndexOfAt(d + [(k, v)], k, |d|);
  }

  /** One more assignment after a sequence of them. */
  lemma SetAllSnoc<K(!new), V>(d: Dict<K, V>, writes: seq<(K, V)>, k: K, v: V)
    ensures SetAll(d, writes + [(k, v)]) == Set(SetAll(d, writes), k, v)
  {
    assert (writes + [(k, v)])[..|writes|] == writes;
  }

  /** A second assignment to the same key overwrites the first. */
  lemma SetSet<K(!new), V>(d: Dict<K, V>, k: K, v: V, v': V)
    ensures Set(Set(d, k, v), k, v') == Set(d, k, v')
  {
    match IndexOf(d, k)
    case None =>
      SetLast(d, k, v, v');
      SetLast(d, k, v', v');
    case Some(i) =>
      IndexOfAt(d[i := (k, v)], k, i);
  }

  lemma {:induction false} SetAllAppend<K(!new), V>(d: Dict<K, V>, a: seq<(K, V)>, b: seq<(K, V)>)
    ensures SetAll(d, a + b) == SetAll(SetAll(d, a), b)
    decreases |b|
  {
    if b == [] {
      assert a + b == a;
    } else {
      assert (a + b)[..|a + b| - 1] == a + b[..|b| - 1];
      SetAllAppend(d, a, b[..|b| - 1]);
    }
  }

  /** Some assignment in `writes` is to `k` exactly when LastWrite finds one,
      and the value it finds is one that was assigned to `k`. */
  lemma {:induction false} LastWriteSome<K(!new), V>(writes: seq<(K, V)>, k: K)
    ensures LastWrite(writes, k).Some? <==> exists j :: 0 <= j < |writes| && writes[j].0 == k
    ensures LastWrite(writes, k).Some? ==> (k, LastWrite(writes, k).value) in writes
  {
    if writes != [] {
      var init := writes[..|writes| - 1];
      LastWriteSome(init, k);
      if writes[|writes| - 1].0 != k {
        if exists j :: 0 <= j < |writes| && writes[j].0 == k {
          var j :| 0 <= j < |writes| && writes[j].0 == k;
          assert init[j].0 == k;
        }
        if LastWrite(writes, k).Some? {
          assert (k, LastWrite(writes, k).value) in init;
        }
      }
    }
  }

  /** Some assignment in `writes` is to `k`. */
  predicate WritesKey<K(==), V>(writes: seq<(K, V)>, k: K) {
    exists j :: 0 <= j < |writes| && writes[j].0 == k
  }

  lemma WritesKeyConcat<K(!new), V>(a: seq<(K, V)>, b: seq<(K, V)>, k: K)
    ensures WritesKey(a + b, k) <==> WritesKey(a, k) || WritesKey(b, k)
  {
    if WritesKey(a + b, k) {
      var j :| 0 <= j < |a + b| && (a + b)[j].0 == k;
      if j < |a| {
        assert a[j].0 == k;
      } else {
        assert b[j - |a|].0 == k;
      }
    }
    if WritesKey(b, k) {
      var j :| 0 <= j < |b| && b[j].0 == k;
      assert (a + b)[|a| + j].0 == k;
    }
    if WritesKey(a, k) {
      var j :| 0 <= j < |a| && a[j].0 == k;
      assert (a + b)[j].0 == k;
    }
  }

  /** The last assignment to `k` in `a + b` is in `b` when `b` assigns `k`. */
  lemma {:induction false} LastWriteConcat<K(!new), V>(a: seq<(K, V)>, b: seq<(K, V)>, k: K)
    ensures LastWrite(a + b, k) == if LastWrite(b, k).Some? then LastWrite(b, k) else LastWrite(a, k)
    decreases |b|
  {
    if b == [] {
      assert a + b == a;
    } else {
      assert (a + b)[..|a + b| - 1] == a + b[..|b| - 1];
      LastWriteConcat(a, b[..|b| - 1], k);
    }
  }

  /** In a dictionary, the last assignment to a key is its only entry. */
  lemma {:induction false} LastWriteOfUnique<K(!new), V>(d: Dict<K, V>, k: K)
    requires UniqueKeys(d)
    ensures LastWrite(d, k) == Get(d, k)
  {
    if d != [] {
      var n := |d| - 1;
      var init := d[..n];
      if d[n].0 == k {
        IndexOfAt(d, k, n);
      } else {
        LastWriteOfUnique(init, k);
        if HasKey(init, k) {
          IndexOfAt(d, k, IndexOf(init, k).value);
        } else {
          assert !HasKey(d, k) by {
            forall j | 0 <= j < |d| ensures d[j].0 != k {
              if j < n {
                assert init[j] == d[j];
              }
            }
          }
        }
      }
    }
  }

  /** `d.update(e)` for a dictionary `e`: its keys win, the others keep
      their values in `d`. */
  lemma UpdateGet<K(!new), V>(d: Dict<K, V>, e: Dict<K, V>, k: K)
    requires UniqueKeys(e)
    ensures Get(SetAll(d, e), k) == if HasKey(e, k) then Get(e, k) else Get(d, k)
  {
    GetSetAll(d, e, k);
    LastWriteOfUnique(e, k);
  }
}
