// Lists of key-value pairs that are searched from the front: a Python dict, or a vector of settings
// with a key.
module OrderedDict {
  import opened Wrappers

  function Put<K(==), V>(pairs: seq<(K, V)>, key: K, value: V): seq<(K, V)> {
    if pairs == [] then [(key, value)]
    else if pairs[0].0 == key then [(key, value)] + pairs[1..]
    else [pairs[0]] + Put(pairs[1..], key, value)
  }

  function Get<K(==), V>(pairs: seq<(K, V)>, key: K): Option<V> {
    if pairs == [] then None
    else if pairs[0].0 == key then Some(pairs[0].1)
    else Get(pairs[1..], key)
  }

  function Keys<K, V>(pairs: seq<(K, V)>): (keys: seq<K>)
    ensures |keys| == |pairs|
    ensures forall i :: 0 <= i < |keys| ==> keys[i] == pairs[i].0
  {
    seq(|pairs|, i requires 0 <= i < |pairs| => pairs[i].0)
  }

  ghost predicate Distinct<K(!new), V(!new)>(pairs: seq<(K, V)>) {
    forall i, j :: 0 <= i < j < |pairs| ==> pairs[i].0 != pairs[j].0
  }

  // An assignment is read back, and nothing else changes.
  lemma {:induction false} GetPut<K, V>(pairs: seq<(K, V)>, key: K, value: V, other: K)
    ensures Get(Put(pairs, key, value), other) == if other == key then Some(value) else Get(pairs, other)
  {
    if pairs != [] && pairs[0].0 != key {
      GetPut(pairs[1..], key, value, other);
    }
  }

  // A known key keeps its place, a new one comes last.
  lemma {:induction false} PutKeys<K, V>(pairs: seq<(K, V)>, key: K, value: V)
    ensures Keys(Put(pairs, key, value)) == if key in Keys(pairs) then Keys(pairs) else Keys(pairs) + [key]
  {
    if pairs != [] {
      var first, rest := [pairs[0].0], Keys(pairs[1..]);
      assert Keys(pairs) == first + rest;
      if pairs[0].0 == key {
        assert key in first;
        assert Keys(Put(pairs, key, value)) == first + rest;
      } else {
        PutKeys(pairs[1..], key, value);
        assert key in first + rest <==> key in rest;
        assert Keys(Put(pairs, key, value)) == first + Keys(Put(pairs[1..], key, value));
        assert first + (rest + [key]) == first + rest + [key];
      }
    }
  }

  lemma PutDistinct<K(!new), V(!new)>(pairs: seq<(K, V)>, key: K, value: V)
    requires Distinct(pairs)
    ensures Distinct(Put(pairs, key, value))
  {
    hide Put, Keys;
    PutKeys(pairs, key, value);
    var all := Put(pairs, key, value);
    var keys := Keys(all);
    forall i, j | 0 <= i < j < |all| ensures all[i].0 != all[j].0 {
      assert keys[i] == all[i].0 && keys[j] == all[j].0;
    }
  }

  lemma {:induction false} PutAt<K, V>(pairs: seq<(K, V)>, value: V, at: nat)
    requires at < |pairs| && forall k :: 0 <= k < at ==> pairs[k].0 != pairs[at].0
    ensures Put(pairs, pairs[at].0, value) == pairs[at := (pairs[at].0, value)]
  {
    if at > 0 {
      assert pairs[0].0 != pairs[at].0;
      PutAt(pairs[1..], value, at - 1);
      assert pairs[at := (pairs[at].0, value)] == [pairs[0]] + pairs[1..][at - 1 := (pairs[at].0, value)];
    }
  }

  lemma {:induction false} PutLast<K, V>(pairs: seq<(K, V)>, key: K, value: V)
    requires forall k :: 0 <= k < |pairs| ==> pairs[k].0 != key
    ensures Put(pairs, key, value) == pairs + [(key, value)]
  {
    if pairs != [] {
      PutLast(pairs[1..], key, value);
      assert pairs + [(key, value)] == [pairs[0]] + (pairs[1..] + [(key, value)]);
    }
  }

  lemma {:induction false} GetFound<K, V>(pairs: seq<(K, V)>, key: K)
    ensures Get(pairs, key).Some? <==> exists i :: 0 <= i < |pairs| && pairs[i].0 == key
  {
    if pairs != [] {
      GetFound(pairs[1..], key);
      if i :| 0 <= i < |pairs| && pairs[i].0 == key {
        assert i == 0 || pairs[1..][i - 1].0 == key;
      }
      if j :| 0 <= j < |pairs[1..]| && pairs[1..][j].0 == key {
        assert pairs[j + 1].0 == key;
      }
    }
  }

  lemma {:induction false} GetAt<K, V>(pairs: seq<(K, V)>, at: nat)
    requires at < |pairs| && forall k :: 0 <= k < at ==> pairs[k].0 != pairs[at].0
    ensures Get(pairs, pairs[at].0) == Some(pairs[at].1)
  {
    if at > 0 {
      assert pairs[0].0 != pairs[at].0;
      GetAt(pairs[1..], at - 1);
    }
  }

  lemma {:induction false} GetInside<K, V>(pairs: seq<(K, V)>, key: K)
    requires Get(pairs, key).Some?
    ensures exists i :: 0 <= i < |pairs| && pairs[i] == (key, Get(pairs, key).value)
  {
    if pairs[0].0 == key {
      assert pairs[0] == (key, Get(pairs, key).value);
    } else {
      GetInside(pairs[1..], key);
      var i :| 0 <= i < |pairs[1..]| && pairs[1..][i] == (key, Get(pairs, key).value);
      assert pairs[i + 1] == pairs[1..][i];
    }
  }

  // Assigning a list of pairs one after the other: the last value of a key counts, at the place where
  // the key first occurred.
  function PutAll<K(==), V>(pairs: seq<(K, V)>, more: seq<(K, V)>): seq<(K, V)> {
    if more == [] then pairs
    else Put(PutAll(pairs, more[..|more| - 1]), more[|more| - 1].0, more[|more| - 1].1)
  }

  function Last<K(==), V>(pairs: seq<(K, V)>, key: K): Option<V> {
    if pairs == [] then None
    else if pairs[|pairs| - 1].0 == key then Some(pairs[|pairs| - 1].1)
    else Last(pairs[..|pairs| - 1], key)
  }

  function FirstSeen<K(==)>(keys: seq<K>): seq<K> {
    if keys == [] then []
    else
      var before := FirstSeen(keys[..|keys| - 1]);
      if keys[|keys| - 1] in before then before else before + [keys[|keys| - 1]]
  }

  lemma {:induction false} PutAllOrdered<K(!new), V(!new)>(more: seq<(K, V)>, key: K)
    ensures Distinct(PutAll([], more))
    ensures Keys(PutAll([], more)) == FirstSeen(Keys(more))
    ensures Get(PutAll([], more), key) == Last(more, key)
    decreases |more|
  {
    if more != [] {
      var front, last := more[..|more| - 1], more[|more| - 1];
      PutAllOrdered(front, key);
      PutKeys(PutAll([], front), last.0, last.1);
      PutDistinct(PutAll([], front), last.0, last.1);
      GetPut(PutAll([], front), last.0, last.1, key);
      assert Keys(more)[..|more| - 1] == Keys(front);
    }
  }

  lemma {:induction false} PutAllJoin<K, V>(pairs: seq<(K, V)>, a: seq<(K, V)>, b: seq<(K, V)>)
    ensures PutAll(pairs, a + b) == PutAll(PutAll(pairs, a), b)
    decreases |b|
  {
    if b == [] {
      assert a + b == a;
    } else {
      PutAllJoin(pairs, a, b[..|b| - 1]);
      assert (a + b)[..|a + b| - 1] == a + b[..|b| - 1];
    }
  }

  // Filling an empty list from pairs with distinct keys keeps every pair in its place.
  lemma {:induction false} PutAllDistinct<K(!new), V(!new)>(more: seq<(K, V)>)
    requires Distinct(more)
    ensures PutAll([], more) == more
    decreases |more|
  {
    if more != [] {
      var front, last := more[..|more| - 1], more[|more| - 1];
      PutAllDistinct(front);
      PutLast(front, last.0, last.1);
      assert more == front + [last];
    }
  }
}
