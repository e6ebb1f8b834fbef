/**
 * Insertion-ordered string-keyed dictionaries, as JavaScript plain objects
 * behave for keys that are not integer-like: `Object.keys` and
 * `Object.values` list entries in the order they were first inserted, an
 * assignment to an existing key keeps its position, and `delete` removes the
 * entry without reordering the rest.
 */
module OrderedMap {

  /** Index of the first occurrence of `x` in `s`. */
  function FirstIndex<T(==)>(s: seq<T>, x: T): (i: nat)
    requires x in s
    ensures i < |s| && s[i] == x
    ensures forall j :: 0 <= j < i ==> s[j] != x
  {
    if s[0] == x then 0 else 1 + FirstIndex(s[1..], x)
  }

  /** The first occurrence of an element of `p` is also its first occurrence in `p + q`. */
  lemma {:induction false} FirstIndexPrefix<T>(p: seq<T>, q: seq<T>, x: T)
    requires x in p
    ensures x in p + q && FirstIndex(p + q, x) == FirstIndex(p, x)
  {
    if p[0] != x {
      assert (p + q)[1..] == p[1..] + q;
      FirstIndexPrefix(p[1..], q, x);
    }
  }

  /** An element that is not in `p` is first found in `p + q` past the end of `p`. */
  lemma FirstIndexAfter<T>(p: seq<T>, q: seq<T>, x: T)
    requires x !in p && x in q
    ensures x in p + q && FirstIndex(p + q, x) == |p| + FirstIndex(q, x)
  {
    var i := FirstIndex(p + q, x);
    var k := FirstIndex(q, x);
    assert (p + q)[|p| + k] == x;
    assert forall j :: 0 <= j < |p| ==> (p + q)[j] != x;
    assert q[i - |p|] == x;
  }

  predicate Distinct<T(==)>(s: seq<T>)
  {
    forall i, j :: 0 <= i < j < |s| ==> s[i] != s[j]
  }

  /** A duplicate-free sequence has as many elements as its set of elements. */
  lemma {:induction false} DistinctCard<T>(s: seq<T>)
    requires Distinct(s)
    ensures |set x | x in s| == |s|
  {
    if s != [] {
      var t := s[1..];
      assert Distinct(t) by {
        forall i, j | 0 <= i < j < |t| ensures t[i] != t[j] {
          assert t[i] == s[i + 1] && t[j] == s[j + 1];
        }
      }
      DistinctCard(t);
      assert s[0] !in t by {
        forall i | 0 <= i < |t| ensures t[i] != s[0] {
          assert t[i] == s[i + 1];
        }
      }
      assert (set x | x in s) == {s[0]} + (set x | x in t) by {
        assert s == [s[0]] + t;
      }
    }
  }

  /** The keys of an association list, in order. */
  function Keys<K, V>(m: seq<(K, V)>): (ks: seq<K>)
    ensures |ks| == |m|
    ensures forall i :: 0 <= i < |m| ==> ks[i] == m[i].0
  {
    seq(|m|, i requires 0 <= i < |m| => m[i].0)
  }

  function Values<V>(m: seq<(string, V)>): (vs: seq<V>)
    ensures |vs| == |m|
    ensures forall i :: 0 <= i < |m| ==> vs[i] == m[i].1
  {
    seq(|m|, i requires 0 <= i < |m| => m[i].1)
  }

  /** No key is listed twice: the association list is a dictionary. */
  predicate Unique<V>(m: seq<(string, V)>)
  {
    Distinct(Keys(m))
  }

  predicate Has<V>(m: seq<(string, V)>, k: string)
  {
    k in Keys(m)
  }

  /** Position of `k`'s entry. */
  function IndexOf<V>(m: seq<(string, V)>, k: string): (i: nat)
    requires Has(m, k)
    ensures i < |m| && m[i].0 == k
    ensures forall j :: 0 <= j < i ==> m[j].0 != k
  {
    FirstIndex(Keys(m), k)
  }

  /** `m[k]` for a present key. */
  function Get<V>(m: seq<(string, V)>, k: string): V
    requires Has(m, k)
  {
    m[IndexOf(m, k)].1
  }

  /** In a dictionary, the entry at any position is the one `Get` finds. */
  lemma GetAt<V>(m: seq<(string, V)>, i: nat)
    requires Unique(m) && i < |m|
    ensures Has(m, m[i].0) && IndexOf(m, m[i].0) == i && Get(m, m[i].0) == m[i].1
  {
    assert Keys(m)[i] == m[i].0;
  }

  /** `m[k] = v`: overwrite in place when `k` is present, append otherwise. */
  function Put<V>(m: seq<(string, V)>, k: string, v: V): (r: seq<(string, V)>)
    ensures Has(r, k) && Get(r, k) == v
    ensures Has(m, k) ==> Keys(r) == Keys(m) && |r| == |m|
    ensures !Has(m, k) ==> Keys(r) == Keys(m) + [k] && |r| == |m| + 1
    ensures forall k' :: k' != k ==> (Has(r, k') <==> Has(m, k'))
    ensures forall k' :: k' != k && Has(m, k') ==> Get(r, k') == Get(m, k')
    ensures Unique(m) ==> Unique(r)
  {
    if Has(m, k) then
      var i := IndexOf(m, k);
      var r := m[i := (k, v)];
      assert Keys(r) == Keys(m);
      assert forall j :: 0 <= j < i ==> r[j].0 != k;
      r
    else
      var r := m + [(k, v)];
      assert Keys(r) == Keys(m) + [k];
      assert forall k' :: k' != k && Has(m, k') ==> IndexOf(r, k') == IndexOf(m, k') by {
        forall k' | k' != k && Has(m, k') ensures IndexOf(r, k') == IndexOf(m, k') {
          FirstIndexPrefix(Keys(m), [k], k');
        }
      }
      assert IndexOf(r, k) == |m| by { FirstIndexAfter(Keys(m), [k], k); }
      r
  }

  /** Writing the same value under the same key twice is writing it once. */
  lemma PutTwice<V>(m: seq<(string, V)>, k: string, v: V)
    ensures Put(Put(m, k, v), k, v) == Put(m, k, v)
  {
    var r := Put(m, k, v);
    assert IndexOf(r, k) < |r| && r[IndexOf(r, k)] == (k, v);
  }

  /** The keys of a list with one more entry. */
  lemma KeysSnoc<V>(m: seq<(string, V)>, e: (string, V))
    ensures Keys(m + [e]) == Keys(m) + [e.0]
    ensures forall k :: Has(m + [e], k) <==> Has(m, k) || k == e.0
    ensures Unique(m + [e]) <==> Unique(m) && !Has(m, e.0)
  {
    var ks := Keys(m + [e]);
    assert ks == Keys(m) + [e.0];
    if Unique(m) && !Has(m, e.0) {
      forall i, j | 0 <= i < j < |ks| ensures ks[i] != ks[j] {
        if j == |m| { assert ks[i] in Keys(m); }
      }
    }
    if Unique(m + [e]) {
      forall i, j | 0 <= i < j < |m| ensures Keys(m)[i] != Keys(m)[j] {
        assert ks[i] != ks[j];
      }
    }
    if Has(m, e.0) {
      var i := FirstIndex(Keys(m), e.0);
      assert ks[i] == ks[|m|];
    }
  }

  /** `delete m[k]`: drop every entry with key `k`, keeping the others in order. */
  function Remove<V>(m: seq<(string, V)>, k: string): (r: seq<(string, V)>)
    ensures !Has(r, k)
    ensures forall k' :: k' != k ==> (Has(r, k') <==> Has(m, k'))
    ensures forall e :: e in r ==> e in m
    ensures Unique(m) ==> Unique(r)
    ensures Unique(m) && Has(m, k) ==> |r| == |m| - 1
    ensures !Has(m, k) ==> r == m
  {
    if m == [] then []
    else
      var p := m[..|m| - 1];
      var last := m[|m| - 1];
      var rest := Remove(p, k);
      assert m == p + [last];
      KeysSnoc(p, last);
      if last.0 == k then
        rest
      else
        KeysSnoc(rest, last);
        rest + [last]
  }

  /** Appending an entry does not move the first occurrence of a key already present. */
  lemma IndexOfSnoc<V>(m: seq<(string, V)>, e: (string, V), x: string)
    requires Has(m, x)
    ensures Has(m + [e], x) && IndexOf(m + [e], x) == IndexOf(m, x)
  {
    KeysSnoc(m, e);
    FirstIndexPrefix(Keys(m), [e.0], x);
  }

  /** The keys of `r` are keys of `m`, listed in the order they have in `m`. */
  predicate KeepsOrder<V>(m: seq<(string, V)>, r: seq<(string, V)>)
  {
    forall i, j :: 0 <= i < j < |r| ==>
      Has(m, r[i].0) && Has(m, r[j].0) && IndexOf(m, r[i].0) < IndexOf(m, r[j].0)
  }

  /** `delete` does not reorder: the entries left keep their relative order. */
  lemma {:induction false} RemoveOrder<V>(m: seq<(string, V)>, k: string)
    requires Unique(m)
    ensures KeepsOrder(m, Remove(m, k))
  {
    if m == [] {
      assert Remove(m, k) == [];
    } else {
      var p, last := m[..|m| - 1], m[|m| - 1];
      assert m == p + [last];
      KeysSnoc(p, last);
      RemoveOrder(p, k);
      KeepsOrderSnoc(p, last, Remove(p, k));
    }
  }

  /** Entries of `p` kept in `p`'s order, followed or not by a new last entry, are in the order of `p + [last]`. */
  lemma KeepsOrderSnoc<V>(p: seq<(string, V)>, last: (string, V), rest: seq<(string, V)>)
    requires Unique(p + [last]) && !Has(p, last.0)
    requires forall e :: e in rest ==> e in p
    requires KeepsOrder(p, rest)
    ensures KeepsOrder(p + [last], rest) && KeepsOrder(p + [last], rest + [last])
  {
    var r := rest + [last];
    forall i, j | 0 <= i < j < |r|
      ensures Has(p + [last], r[i].0) && Has(p + [last], r[j].0)
      ensures IndexOf(p + [last], r[i].0) < IndexOf(p + [last], r[j].0)
    {
      RemoveKeptIndex(p, last, rest, i);
      if j < |rest| {
        RemoveKeptIndex(p, last, rest, j);
      } else {
        KeysSnoc(p, last);
        FirstIndexAfter(Keys(p), [last.0], last.0);
      }
    }
    assert forall i :: 0 <= i < |rest| ==> r[i] == rest[i];
  }

  /** An entry kept from `p` is found in `p + [last]` where it is found in `p`, before `last`. */
  lemma RemoveKeptIndex<V>(p: seq<(string, V)>, last: (string, V), rest: seq<(string, V)>, i: nat)
    requires forall e :: e in rest ==> e in p
    requires i < |rest|
    ensures Has(p, rest[i].0) && Has(p + [last], rest[i].0)
    ensures IndexOf(p + [last], rest[i].0) == IndexOf(p, rest[i].0) < |p|
  {
    assert rest[i] in p;
    var t :| 0 <= t < |p| && p[t] == rest[i];
    assert Keys(p)[t] == rest[i].0;
    IndexOfSnoc(p, last, rest[i].0);
  }

  /** Removing one key leaves every other key's value as it was. */
  lemma {:induction false} RemoveGet<V>(m: seq<(string, V)>, k: string, k': string)
    requires Unique(m) && k' != k && Has(m, k')
    ensures Has(Remove(m, k), k') && Get(Remove(m, k), k') == Get(m, k')
  {
    var r := Remove(m, k);
    var i := IndexOf(r, k');
    assert r[i] in m;
    var j :| 0 <= j < |m| && m[j] == r[i];
    GetAt(m, j);
    GetAt(r, i);
  }
}
