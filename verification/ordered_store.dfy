/** An insertion-ordered map, the model of a JavaScript `Map`: its entries in the
    order their keys were first set. Iteration (`values()`) follows that order,
    which is why the store is a sequence of pairs and not a Dafny `map`. */
module OrderedStore {
  import opened Options

  type Store<K, V> = seq<(K, V)>

  function Keys<K, V>(s: Store<K, V>): set<K> {
    set i | 0 <= i < |s| :: s[i].0
  }

  /** The representation invariant: each key appears once. */
  ghost predicate DistinctKeys<K, V>(s: Store<K, V>) {
    forall i, j :: 0 <= i < j < |s| ==> s[i].0 != s[j].0
  }

  /** `Map.prototype.values()`, in insertion order. */
  function Values<K, V>(s: Store<K, V>): seq<V> {
    seq(|s|, i requires 0 <= i < |s| => s[i].1)
  }

  /** `Map.prototype.get`. */
  function Get<K(==), V>(s: Store<K, V>, k: K): (r: Option<V>)
    ensures r.None? <==> k !in Keys(s)
    ensures r.Some? ==> (k, r.value) in s
    ensures DistinctKeys(s) ==> forall i :: 0 <= i < |s| && s[i].0 == k ==> r == Some(s[i].1)
  {
    if |s| == 0 then None
    else if s[0].0 == k then Some(s[0].1)
    else
      KeysCons(s);
      Get(s[1..], k)
  }

  /** The position of `k`: the first entry with that key. */
  function Find<K(==), V>(s: Store<K, V>, k: K): (r: Option<nat>)
    ensures r.None? <==> k !in Keys(s)
    ensures r.Some? ==> r.value < |s| && s[r.value].0 == k
    ensures r.Some? ==> forall j :: 0 <= j < r.value ==> s[j].0 != k
  {
    if |s| == 0 then None
    else if s[0].0 == k then Some(0)
    else
      KeysCons(s);
      match Find(s[1..], k)
      case None => None
      case Some(j) => Some(j + 1)
  }

  /** `Map.prototype.set` with a key not yet present: the entry goes last and
      nothing before it moves. */
  function Append<K(==,!new), V>(s: Store<K, V>, k: K, v: V): (r: Store<K, V>)
    requires k !in Keys(s)
    ensures |r| == |s| + 1 && r[..|s|] == s && r[|s|] == (k, v)
    ensures Keys(r) == Keys(s) + {k}
    ensures DistinctKeys(s) ==> DistinctKeys(r)
    ensures Get(r, k) == Some(v)
    ensures forall k' :: k' != k ==> Get(r, k') == Get(s, k')
  {
    var r := s + [(k, v)];
    forall k' ensures Get(r, k') == (if k' in Keys(s) then Get(s, k') else Get([(k, v)], k')) {
      GetConcat(s, [(k, v)], k');
    }
    assert Keys(r) == Keys(s) + {k} by {
      assert r[|s|].0 == k;
      forall x | x in Keys(r) ensures x in Keys(s) + {k} {
        var i :| 0 <= i < |r| && r[i].0 == x;
        if i < |s| { assert s[i].0 == x; }
      }
      forall x | x in Keys(s) ensures x in Keys(r) {
        var i :| 0 <= i < |s| && s[i].0 == x;
        assert r[i].0 == x;
      }
    }
    r
  }

  /** Replaces the value stored under an existing key, keeping its position:
      what the handlers' in-place mutation of a stored object amounts to. */
  function Put<K(==,!new), V>(s: Store<K, V>, k: K, v: V): (r: Store<K, V>)
    ensures |r| == |s| && forall i :: 0 <= i < |s| ==> r[i].0 == s[i].0
    ensures Keys(r) == Keys(s)
    ensures DistinctKeys(s) ==> DistinctKeys(r)
    ensures k in Keys(s) ==> Get(r, k) == Some(v)
    ensures forall k' :: k' != k ==> Get(r, k') == Get(s, k')
    ensures DistinctKeys(s) ==> forall i :: 0 <= i < |s| ==> r[i] == (if s[i].0 == k then (k, v) else s[i])
  {
    match Find(s, k)
    case None => s
    case Some(i) =>
      FindPrefix(s, k);
      ReplaceAt(s, i, v);
      s[i := (k, v)]
  }

  /** Overwriting the value of the first entry with key `s[i].0`. */
  lemma ReplaceAt<K(!new), V>(s: Store<K, V>, i: nat, v: V)
    requires i < |s| && s[i].0 !in Keys(s[..i])
    ensures Keys(s[i := (s[i].0, v)]) == Keys(s)
    ensures Get(s[i := (s[i].0, v)], s[i].0) == Some(v)
    ensures forall k' :: k' != s[i].0 ==> Get(s[i := (s[i].0, v)], k') == Get(s, k')
  {
    var k := s[i].0;
    var r := s[i := (k, v)];
    assert s == s[..i] + ([s[i]] + s[i + 1..]);
    assert r == s[..i] + ([(k, v)] + s[i + 1..]);
    forall k' ensures Get(r, k') == (if k' == k then Some(v) else Get(s, k')) {
      GetConcat(s[..i], [(k, v)] + s[i + 1..], k');
      GetConcat(s[..i], [s[i]] + s[i + 1..], k');
    }
    forall x | x in Keys(r) ensures x in Keys(s) {
      var j :| 0 <= j < |r| && r[j].0 == x;
      assert s[j].0 == x;
    }
    forall x | x in Keys(s) ensures x in Keys(r) {
      var j :| 0 <= j < |s| && s[j].0 == x;
      assert r[j].0 == x;
    }
  }

  /** `Map.prototype.delete`: the entry under `k` goes, the others keep their order. */
  function Remove<K(==,!new), V>(s: Store<K, V>, k: K): (r: Store<K, V>)
    ensures k !in Keys(s) ==> r == s
    ensures k in Keys(s) ==> exists i :: 0 <= i < |s| && s[i].0 == k && r == s[..i] + s[i + 1..]
    ensures forall k' :: k' != k ==> Get(r, k') == Get(s, k')
    ensures DistinctKeys(s) ==> DistinctKeys(r) && Keys(r) == Keys(s) - {k}
  {
    match Find(s, k)
    case None => s
    case Some(i) =>
      var r := s[..i] + s[i + 1..];
      assert s == s[..i] + ([s[i]] + s[i + 1..]);
      FindPrefix(s, k);
      forall k' | k' != k ensures Get(r, k') == Get(s, k') {
        GetConcat(s[..i], s[i + 1..], k');
        GetConcat(s[..i], [s[i]] + s[i + 1..], k');
        GetConcat([s[i]], s[i + 1..], k');
      }
      KeysWithout(s, i);
      r
  }

  /** No entry before the one `Find` reports carries the key. */
  lemma FindPrefix<K, V>(s: Store<K, V>, k: K)
    requires Find(s, k).Some?
    ensures k !in Keys(s[..Find(s, k).value])
  {
    var i := Find(s, k).value;
    forall x | x in Keys(s[..i]) ensures x != k {
      var j :| 0 <= j < i && s[..i][j].0 == x;
      assert s[j].0 == x;
    }
  }

  /** Cutting entry `i` out of a store with distinct keys removes exactly its key. */
  lemma KeysWithout<K, V>(s: Store<K, V>, i: nat)
    requires i < |s|
    ensures DistinctKeys(s) ==> DistinctKeys(s[..i] + s[i + 1..])
    ensures DistinctKeys(s) ==> Keys(s[..i] + s[i + 1..]) == Keys(s) - {s[i].0}
  {
    var r := s[..i] + s[i + 1..];
    if !DistinctKeys(s) { return; }
    assert forall j :: 0 <= j < |r| ==> r[j] == (if j < i then s[j] else s[j + 1]);
    forall x | x in Keys(r) ensures x in Keys(s) - {s[i].0} {
      var j :| 0 <= j < |r| && r[j].0 == x;
      if j < i { assert s[j].0 == x; } else { assert s[j + 1].0 == x; }
    }
    forall x | x in Keys(s) - {s[i].0} ensures x in Keys(r) {
      var j :| 0 <= j < |s| && s[j].0 == x;
      if j < i { assert r[j].0 == x; } else { assert r[j - 1].0 == x; }
    }
  }

  lemma KeysCons<K, V>(s: Store<K, V>)
    requires |s| > 0
    ensures Keys(s) == {s[0].0} + Keys(s[1..])
  {
    forall x | x in Keys(s) ensures x in {s[0].0} + Keys(s[1..]) {
      var i :| 0 <= i < |s| && s[i].0 == x;
      if i > 0 { assert s[1..][i - 1].0 == x; }
    }
    forall x | x in Keys(s[1..]) ensures x in Keys(s) {
      var i :| 0 <= i < |s[1..]| && s[1..][i].0 == x;
      assert s[i + 1].0 == x;
    }
  }

  /** Looking a key up in a concatenation: the left part wins when it has the key. */
  lemma {:induction false} GetConcat<K, V>(a: Store<K, V>, b: Store<K, V>, k: K)
    ensures Get(a + b, k) == if k in Keys(a) then Get(a, k) else Get(b, k)
    decreases |a|
  {
    if |a| == 0 {
      assert a + b == b;
    } else {
      KeysCons(a);
      assert (a + b)[1..] == a[1..] + b;
      GetConcat(a[1..], b, k);
    }
  }
}
