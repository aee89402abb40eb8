/**
 A JavaScript `Map`: a sequence of entries in insertion order, one to a key. `set` on a key already there keeps its
 place; `delete` and `set` again move it to the back.
 */
module OrderedMap {
  import opened Wrappers

  datatype Entry<K, V> = Entry(key: K, value: V)

  predicate Distinct<K(==), V>(es: seq<Entry<K, V>>) {
    forall i, j :: 0 <= i < j < |es| ==> es[i].key != es[j].key
  }

  predicate Has<K(==), V>(es: seq<Entry<K, V>>, k: K) {
    exists i :: 0 <= i < |es| && es[i].key == k
  }

  function IndexOf<K(==), V>(es: seq<Entry<K, V>>, k: K): (i: nat)
    ensures i <= |es| && (i < |es| <==> Has(es, k))
    ensures i < |es| ==> es[i].key == k
    ensures forall j :: 0 <= j < i ==> es[j].key != k
  {
    if es == [] then 0
    else if es[0].key == k then 0
    else
      var i := IndexOf(es[1..], k);
      assert forall j :: 0 < j <= i && j < |es| ==> es[j] == es[1..][j - 1];
      1 + i
  }

  function Get<K(==), V>(es: seq<Entry<K, V>>, k: K): Option<V> {
    var i := IndexOf(es, k);
    if i < |es| then Some(es[i].value) else None
  }

  function Set<K(==), V>(es: seq<Entry<K, V>>, k: K, v: V): seq<Entry<K, V>> {
    var i := IndexOf(es, k);
    if i < |es| then es[i := Entry(k, v)] else es + [Entry(k, v)]
  }

  function Delete<K(==), V>(es: seq<Entry<K, V>>, k: K): seq<Entry<K, V>> {
    var i := IndexOf(es, k);
    if i < |es| then es[..i] + es[i + 1..] else es
  }

  /** A hit: deleted and set again, so the entry is the most recently used. */
  function Touched<K(==), V>(es: seq<Entry<K, V>>, k: K): seq<Entry<K, V>> {
    var i := IndexOf(es, k);
    if i < |es| then es[..i] + es[i + 1..] + [es[i]] else es
  }

  lemma SetKeepsDistinct<K, V>(es: seq<Entry<K, V>>, k: K, v: V)
    requires Distinct(es)
    ensures Distinct(Set(es, k, v)) && Get(Set(es, k, v), k) == Some(v)
    ensures forall q :: q != k ==> Get(Set(es, k, v), q) == Get(es, q)
  {
    var r := Set(es, k, v);
    assert r[IndexOf(es, k)] == Entry(k, v);
    forall q | q != k ensures Get(r, q) == Get(es, q) {
      if Has(es, q) {
        assert r[IndexOf(es, q)] == es[IndexOf(es, q)];
        OnePlace(r, q, IndexOf(es, q));
      }
    }
    OnePlace(r, k, IndexOf(es, k));
  }

  lemma OnePlace<K, V>(es: seq<Entry<K, V>>, k: K, i: nat)
    requires Distinct(es) && i < |es| && es[i].key == k
    ensures IndexOf(es, k) == i
  {
    assert Has(es, k);
  }

  lemma TouchKeepsEntries<K, V>(es: seq<Entry<K, V>>, k: K)
    requires Distinct(es)
    ensures Distinct(Touched(es, k)) && forall q :: Get(Touched(es, k), q) == Get(es, q)
    ensures forall x :: x in Touched(es, k) <==> x in es
  {
    MovedToBack(es, IndexOf(es, k));
    hide Get, Distinct;
    SameEntries(es, Touched(es, k));
  }

  lemma MovedToBack<K, V>(es: seq<Entry<K, V>>, i: nat)
    requires Distinct(es)
    ensures i < |es| ==> var r := es[..i] + es[i + 1..] + [es[i]];
      Distinct(r) && forall x :: x in r <==> x in es
  {
    if i < |es| {
      var r := es[..i] + es[i + 1..] + [es[i]];
      var last := |es| - 1;
      assert r[..i] == es[..i] && r[i..last] == es[i + 1..] && r[last] == es[i];
      forall x ensures x in r <==> x in es {
        assert es == es[..i] + [es[i]] + es[i + 1..];
      }
    }
  }

  lemma SameEntries<K, V>(a: seq<Entry<K, V>>, b: seq<Entry<K, V>>)
    requires Distinct(a) && Distinct(b) && forall x :: x in a <==> x in b
    ensures forall q :: Get(a, q) == Get(b, q)
  {
    assert forall x :: x in b ==> Has(a, x.key);
    forall q ensures Get(a, q) == Get(b, q) {
      if Has(a, q) {
        assert a[IndexOf(a, q)] in b;
        var j :| 0 <= j < |b| && b[j] == a[IndexOf(a, q)];
        OnePlace(b, q, j);
      }
    }
  }

  lemma NothingLeftOf<K, V>(es: seq<Entry<K, V>>, k: K)
    requires Distinct(es)
    ensures !Has(Delete(es, k), k)
  {
    var i, r := IndexOf(es, k), Delete(es, k);
    if i < |es| {
      assert forall j :: 0 <= j < |r| ==> r[j] == es[if j < i then j else j + 1];
    }
  }

  lemma SuffixHas<K, V>(es: seq<Entry<K, V>>, n: nat, i: nat)
    requires n <= i < |es|
    ensures Has(es[n..], es[i].key)
  {
    assert es[n..][i - n] == es[i];
  }
}
