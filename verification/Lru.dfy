/**
 The raster cache's bookkeeping (`remember`, the hit path and `forgetRasters` of `asset-service.ts`) and the face
 cache's.
 */
module Lru {
  import opened Wrappers
  import opened OrderedMap
  import opened Raster

  // ---------------------------------------------------------------- bytes held

  datatype RasterKey = RasterKey(id: nat, revision: nat, dots: int)

  type Entries = seq<Entry<RasterKey, Printable>>

  function Size(es: Entries): nat {
    if es == [] then 0 else |es[0].value.packed| + Size(es[1..])
  }

  lemma {:induction false} SizeSplits(a: Entries, b: Entries)
    ensures Size(a + b) == Size(a) + Size(b)
  {
    if a == [] {
      assert a + b == b;
    } else {
      SizeSplits(a[1..], b);
      assert (a + b)[1..] == a[1..] + b;
    }
  }

  lemma SizeOfOne(e: Entry<RasterKey, Printable>)
    ensures Size([e]) == |e.value.packed|
  {
    assert [e][1..] == [];
  }

  lemma SizeAt(es: Entries, i: nat)
    requires i < |es|
    ensures Size(es) == Size(es[..i]) + |es[i].value.packed| + Size(es[i + 1..])
  {
    assert es == es[..i] + ([es[i]] + es[i + 1..]);
    SizeSplits(es[..i], [es[i]] + es[i + 1..]);
    SizeSplits([es[i]], es[i + 1..]);
    SizeOfOne(es[i]);
  }

  lemma TouchKeepsSize(es: Entries, k: RasterKey)
    ensures Size(Touched(es, k)) == Size(es)
  {
    var i := IndexOf(es, k);
    if i < |es| {
      SizeAt(es, i);
      SizeSplits(es[..i] + es[i + 1..], [es[i]]);
      SizeSplits(es[..i], es[i + 1..]);
      SizeOfOne(es[i]);
    }
  }

  lemma SetSize(es: Entries, k: RasterKey, v: Printable)
    ensures Size(Set(es, k, v)) == Size(es) + |v.packed| - (if Has(es, k) then |es[IndexOf(es, k)].value.packed| else 0)
  {
    var i := IndexOf(es, k);
    var r := Set(es, k, v);
    if i < |es| {
      SizeAt(es, i);
      SizeAt(r, i);
      assert r[..i] == es[..i] && r[i + 1..] == es[i + 1..];
    } else {
      SizeSplits(es, [Entry(k, v)]);
      SizeOfOne(Entry(k, v));
    }
  }

  // ---------------------------------------------------------------- eviction

  /** What is left after dropping from the front until the rest fits. */
  function Evicted(es: Entries, cap: nat): Entries {
    if Size(es) <= cap then es else Evicted(es[1..], cap)
  }

  /** The first `n` entries are the shortest prefix whose loss brings the cache within its cap. */
  ghost predicate ShortestPrefix(es: Entries, cap: nat, n: nat) {
    && n <= |es| && Size(es[n..]) <= cap
    && forall m :: 0 <= m < n ==> Size(es[m..]) > cap
  }

  lemma {:induction false} EvictionIsShortest(es: Entries, cap: nat) returns (n: nat)
    ensures ShortestPrefix(es, cap, n) && Evicted(es, cap) == es[n..]
  {
    if Size(es) <= cap {
      n := 0;
    } else {
      var m := EvictionIsShortest(es[1..], cap);
      n := m + 1;
      assert es[1..][m..] == es[n..];
      forall j | 0 <= j < n ensures Size(es[j..]) > cap {
        if j > 0 {
          assert es[1..][j - 1..] == es[j..];
        }
      }
    }
  }

  /**
   What `remember` leaves: a raster larger than the whole cap is not stored, any other is, and the oldest make
   room.
   */
  function Remembered(es: Entries, key: RasterKey, raster: Printable, cap: nat): Entries {
    if |raster.packed| > cap then es else Evicted(Set(es, key, raster), cap)
  }

  /** What was not held before survives its own storing, as the most recently used. */
  lemma NewEntrySurvives(es: Entries, key: RasterKey, raster: Printable, cap: nat)
    requires Distinct(es) && !Has(es, key) && |raster.packed| <= cap
    ensures var r := Remembered(es, key, raster, cap);
      && |r| > 0 && r[|r| - 1] == Entry(key, raster) && Get(r, key) == Some(raster)
  {
    hide Size;
    var all := Set(es, key, raster);
    var n := EvictionIsShortest(all, cap);
    SizeOfOne(Entry(key, raster));
    assert all[|es|..] == [Entry(key, raster)];
    assert n <= |es|;
    SetKeepsDistinct(es, key, raster);
    OnePlace(all[n..], key, |es| - n);
  }

  /**
   What was held already keeps its place in the order, so storing it anew may evict it at once: it survives exactly
   when it and everything more recent fit.
   */
  lemma StoredAgainSurvivesIff(es: Entries, key: RasterKey, raster: Printable, cap: nat)
    requires Distinct(es) && Has(es, key) && |raster.packed| <= cap
    ensures Has(Remembered(es, key, raster, cap), key) <==> Size(Set(es, key, raster)[IndexOf(es, key)..]) <= cap
  {
    hide Size;
    var all, i := Set(es, key, raster), IndexOf(es, key);
    SetKeepsDistinct(es, key, raster);
    var n := EvictionIsShortest(all, cap);
    var kept := all[n..];
    assert all[i].key == key;
    if n <= i {
      assert kept[i - n].key == key;
      SizeSplits(all[n..i], all[i..]);
      assert kept == all[n..i] + all[i..];
    } else {
      assert Size(all[i..]) > cap;
      forall j | 0 <= j < |kept| ensures kept[j].key != key {
        assert kept[j] == all[n + j];
      }
    }
  }

  /** Rasters of one and two bytes under a cap of three: storing the older again, one byte larger, evicts it itself. */
  lemma StoredAgainMayGo()
    ensures var a, b := RasterKey(0, 0, 8), RasterKey(1, 0, 8);
      var es := [Entry(a, Printable(8, 1, [1])), Entry(b, Printable(8, 2, [1, 1]))];
      Distinct(es) && Size(es) == 3 && !Has(Remembered(es, a, Printable(8, 2, [1, 1]), 3), a)
  {
    var a, b := RasterKey(0, 0, 8), RasterKey(1, 0, 8);
    var two := Printable(8, 2, [1, 1]);
    var es := [Entry(a, Printable(8, 1, [1])), Entry(b, two)];
    SizeSplits([es[0]], [es[1]]);
    SizeOfOne(es[0]);
    SizeOfOne(es[1]);
    assert es == [es[0]] + [es[1]];
    assert es[0].key == a;
    OnePlace(es, a, 0);
    var all := Set(es, a, two);
    assert all == [Entry(a, two)] + [es[1]];
    SizeSplits([Entry(a, two)], [es[1]]);
    SizeOfOne(Entry(a, two));
    assert all[0..] == all;
    StoredAgainSurvivesIff(es, a, two, 3);
  }

  // ---------------------------------------------------------------- least recently used, over a whole run

  datatype Use = Hit(key: RasterKey) | Keep(key: RasterKey, raster: Printable, cap: nat) | ForgetAll

  /** The entries, and for each key when it was last looked up with success or newly stored. */
  datatype Tracked = Tracked(entries: Entries, used: map<RasterKey, nat>, now: nat)

  function Used(t: Tracked, use: Use): Tracked {
    match use
    case Hit(key) =>
      Tracked(Touched(t.entries, key), if Has(t.entries, key) then t.used[key := t.now] else t.used, t.now + 1)
    case Keep(key, raster, cap) =>
      Tracked(Remembered(t.entries, key, raster, cap),
              if Has(t.entries, key) || |raster.packed| > cap then t.used else t.used[key := t.now], t.now + 1)
    case ForgetAll => Tracked([], map[], t.now + 1)
  }

  function UsedAll(t: Tracked, run: seq<Use>): Tracked {
    if run == [] then t else Used(UsedAll(t, run[..|run| - 1]), run[|run| - 1])
  }

  /** The order of the map is the order of last use. */
  ghost predicate InOrder(t: Tracked) {
    && Distinct(t.entries)
    && (forall i :: 0 <= i < |t.entries| ==> t.entries[i].key in t.used && t.used[t.entries[i].key] < t.now)
    && (forall i, j :: 0 <= i < j < |t.entries| ==> t.used[t.entries[i].key] < t.used[t.entries[j].key])
  }

  lemma HitKeepsOrder(t: Tracked, key: RasterKey)
    requires InOrder(t)
    ensures InOrder(Used(t, Hit(key)))
  {
    TouchKeepsEntries(t.entries, key);
    var i := IndexOf(t.entries, key);
    hide Get, Distinct, Has;
    if i < |t.entries| {
      BackInOrder(t, i);
    }
  }

  lemma BackInOrder(t: Tracked, i: nat)
    requires InOrder(t) && i < |t.entries|
    requires var r := t.entries[..i] + t.entries[i + 1..] + [t.entries[i]]; Distinct(r)
    ensures var es := t.entries;
      InOrder(Tracked(es[..i] + es[i + 1..] + [es[i]], t.used[es[i].key := t.now], t.now + 1))
  {
    var es, last := t.entries, |t.entries| - 1;
    var r := es[..i] + es[i + 1..] + [es[i]];
    assert forall j :: 0 <= j < last ==> r[j] == es[if j < i then j else j + 1];
    assert r[last] == es[i];
  }

  lemma SetKeepsOrder(t: Tracked, key: RasterKey, raster: Printable)
    requires InOrder(t)
    ensures var used := if Has(t.entries, key) then t.used else t.used[key := t.now];
      InOrder(Tracked(Set(t.entries, key, raster), used, t.now + 1))
  {
    var es, all := t.entries, Set(t.entries, key, raster);
    SetKeepsDistinct(es, key, raster);
    assert forall j :: 0 <= j < |es| ==> all[j].key == es[j].key;
    if !Has(es, key) {
      assert forall j :: 0 <= j < |es| ==> es[j].key != key;
    }
    hide Set, Has, Distinct;
  }

  lemma SuffixInOrder(t: Tracked, n: nat)
    requires InOrder(t) && n <= |t.entries|
    ensures InOrder(t.(entries := t.entries[n..]))
  {
    var es := t.entries[n..];
    assert forall i :: 0 <= i < |es| ==> es[i] == t.entries[n + i];
  }

  lemma KeepKeepsOrder(t: Tracked, key: RasterKey, raster: Printable, cap: nat)
    requires InOrder(t)
    ensures InOrder(Used(t, Keep(key, raster, cap)))
  {
    hide Size, Set, Evicted;
    SetKeepsOrder(t, key, raster);
    var used := if Has(t.entries, key) then t.used else t.used[key := t.now];
    var next := Tracked(Set(t.entries, key, raster), used, t.now + 1);
    if |raster.packed| <= cap {
      var n := EvictionIsShortest(next.entries, cap);
      SuffixInOrder(next, n);
      hide InOrder, Has;
    }
  }

  lemma {:induction false} RunsKeepOrder(run: seq<Use>)
    ensures InOrder(UsedAll(Tracked([], map[], 0), run))
  {
    if run == [] {
    } else {
      RunsKeepOrder(run[..|run| - 1]);
      var t, use := UsedAll(Tracked([], map[], 0), run[..|run| - 1]), run[|run| - 1];
      match use {
        case Hit(key) => HitKeepsOrder(t, key);
        case Keep(key, raster, cap) => KeepKeepsOrder(t, key, raster, cap);
        case ForgetAll =>
      }
      hide InOrder;
    }
  }

  /** After any run, whatever a store evicts was used less recently than everything it leaves. */
  lemma EvictsLeastRecentlyUsed(run: seq<Use>, key: RasterKey, raster: Printable, cap: nat, gone: RasterKey,
                                kept: RasterKey)
    requires var t := UsedAll(Tracked([], map[], 0), run);
      var r := Remembered(t.entries, key, raster, cap);
      && Has(t.entries, gone) && !Has(r, gone) && Has(t.entries, kept) && Has(r, kept)
    ensures var t := UsedAll(Tracked([], map[], 0), run);
      gone in t.used && kept in t.used && t.used[gone] < t.used[kept]
  {
    RunsKeepOrder(run);
    var t := UsedAll(Tracked([], map[], 0), run);
    hide UsedAll, Size;
    var all := Set(t.entries, key, raster);
    var n := EvictionIsShortest(all, cap);
    SetKeepsDistinct(t.entries, key, raster);
    var g, k := IndexOf(t.entries, gone), IndexOf(t.entries, kept);
    assert all[g].key == gone && all[k].key == kept;
    var j := IndexOf(all[n..], kept);
    assert all[n + j].key == kept;
    if n <= g {
      SuffixHas(all, n, g);
    }
  }

  class RasterCache {
    var entries: Entries
    var bytes: int

    ghost predicate Valid()
      reads this
    {
      Distinct(entries) && bytes == Size(entries)
    }

    constructor ()
      ensures Valid() && entries == []
    {
      entries, bytes := [], 0;
    }

    /** `entries.get(key)` and, on a hit, the entry put back as the most recent. */
    method Lookup(key: RasterKey) returns (hit: Option<Printable>)
      requires Valid()
      modifies this`entries
      ensures Valid() && hit == Get(old(entries), key) && entries == Touched(old(entries), key)
    {
      hit := Get(entries, key);
      if hit.Some? {
        TouchKeepsEntries(entries, key);
        TouchKeepsSize(entries, key);
        assert Set(Delete(entries, key), key, hit.value) == Touched(entries, key) by {
          NothingLeftOf(entries, key);
        }
        entries := Set(Delete(entries, key), key, hit.value);
      }
    }

    method Remember(key: RasterKey, raster: Printable, cap: nat)
      requires Valid()
      modifies this
      ensures Valid() && entries == Remembered(old(entries), key, raster, cap)
      ensures |raster.packed| > cap ==> entries == old(entries)
      ensures |raster.packed| <= cap ==> bytes <= cap && exists n: nat ::
        ShortestPrefix(Set(old(entries), key, raster), cap, n) && entries == Set(old(entries), key, raster)[n..]
    {
      hide Size, ShortestPrefix;
      if |raster.packed| > cap {
        return;
      }
      ghost var n := EvictionIsShortest(Set(entries, key, raster), cap);
      SetSize(entries, key, raster);
      SetKeepsDistinct(entries, key, raster);
      var replaced := Get(entries, key);
      if replaced.Some? {
        bytes := bytes - |replaced.value.packed|;
      }
      entries := Set(entries, key, raster);
      bytes := bytes + |raster.packed|;
      while |entries| > 0 && bytes > cap
        invariant Distinct(entries) && bytes == Size(entries)
        invariant Evicted(entries, cap) == Remembered(old(entries), key, raster, cap)
        decreases |entries|
      {
        SizeAt(entries, 0);
        SizeOfNone(entries[..0]);
        assert entries[0 + 1..] == entries[1..];
        bytes := bytes - |entries[0].value.packed|;
        entries := entries[1..];
      }
      SizeOfNone(entries);
    }

    method Forget()
      modifies this
      ensures Valid() && entries == []
    {
      entries, bytes := [], 0;
    }
  }

  lemma SizeOfNone(es: Entries)
    ensures es == [] ==> Size(es) == 0
  {
  }

  // ---------------------------------------------------------------- parsed faces, bounded by count

  const MAX_CACHED_FACES := 16

  class FaceCache<K(==), V> {
    var faces: seq<Entry<K, V>>

    constructor ()
      ensures faces == []
    {
      faces := [];
    }

    method Lookup(key: K) returns (hit: Option<V>)
      requires Distinct(faces)
      modifies this
      ensures Distinct(faces) && hit == Get(old(faces), key) && faces == Touched(old(faces), key)
    {
      hit := Get(faces, key);
      if hit.Some? {
        TouchKeepsEntries(faces, key);
        NothingLeftOf(faces, key);
        assert Set(Delete(faces, key), key, hit.value) == Touched(faces, key);
        faces := Set(Delete(faces, key), key, hit.value);
      }
    }

    /** Keeps a face and drops the oldest beyond sixteen. */
    method Keep(key: K, face: V)
      requires Distinct(faces)
      modifies this
      ensures Distinct(faces) && |faces| <= 16
      ensures var all := Set(old(faces), key, face);
        faces == if |all| <= 16 then all else all[|all| - 16..]
    {
      SetKeepsDistinct(faces, key, face);
      faces := Set(faces, key, face);
      ghost var all := faces;
      ghost var n: nat := 0;
      while |faces| > MAX_CACHED_FACES
        invariant Distinct(faces) && n <= |all| && faces == all[n..] && (n > 0 ==> |faces| >= MAX_CACHED_FACES)
        decreases |faces|
      {
        faces := faces[1..];
        n := n + 1;
      }
    }
  }
}
