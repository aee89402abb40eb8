/**
 `rasterFor` and `derive` (`asset-service.ts`) with their callers interleaved: an action is one stretch between two
 `await`s, or the instant a query is answered. Writers of the same rows run between any two actions, any derivation
 may fail, and the cache may be forgotten. The history of the table and the instants recorded in calls and
 derivations are for the statements; no action decides by them.
 */
module RasterService {
  import opened Wrappers
  import opened OrderedMap
  import opened Raster
  import opened Lru

  datatype Row = Row(name: string, image: bool, revision: nat, data: seq<bv8>)

  type Table = map<nat, Row>

  /** `ditherToRaster` of stored bytes at a width; nothing when it throws. */
  type Rasterizer = (seq<bv8>, int) -> Option<Printable>

  /** Why a derivation failed: its row was gone, the bytes read did not dither, or something beneath it broke. */
  datatype Cause = RowGone(when: nat) | Undithered(data: seq<bv8>, readAt: nat) | Broke

  datatype Deriving =
    | Reading
    | Decoding(data: seq<bv8>, readAt: nat)
    | Storing(raster: Printable)
    | Settling(raster: Printable)
    | Failing(cause: Cause)
    | Settled(result: Result<Printable, Cause>)

  /** `cleared` is how many calls had begun when the cleanup ran. */
  datatype Derivation = Derivation(key: RasterKey, since: nat, epoch: nat, at: Deriving, cleared: Option<nat>)

  /** The revision a call resolved its name to, and when. */
  datatype Found = Found(id: nat, row: Row, when: nat)

  datatype Stage =
    | Asking
    | Answered(found: Found)
    | NothingThere(when: nat)
    | Waiting(found: Found, d: nat)
    | Returned(found: Found, raster: Printable, ended: nat)
    | Rejected(found: Found, d: nat)
    | Refused(when: nat)

  datatype Call = Call(name: string, dots: int, began: nat, at: Stage)

  datatype State = State(
    history: seq<Table>,
    cache: Entries,
    inFlight: map<RasterKey, nat>,
    derivations: seq<Derivation>,
    calls: seq<Call>,
    epoch: nat)

  datatype Action =
    | Create(id: nat, row: Row)
    | Put(id: nat, revision: nat, data: seq<bv8>)
    | Rename(id: nat, revision: nat, name: string)
    | DeleteRow(id: nat)
    | Begin(name: string, dots: int)
    | ReadRevision(c: nat)
    | Resume(c: nat)
    | ReadData(d: nat)
    | Dither(d: nat)
    | Remember(d: nat, cap: nat)
    | Break(d: nat)
    | Settle(d: nat)
    | Clear(d: nat)
    | Await(c: nat)
    | Forget

  predicate Started(s: State) { |s.history| > 0 }

  function Now(s: State): Table
    requires Started(s)
  {
    s.history[|s.history| - 1]
  }

  ghost predicate NameTaken(t: Table, name: string) { exists id :: id in t && t[id].name == name }

  predicate InHand(s: State, d: nat) {
    d < |s.derivations| && (s.derivations[d].at.Reading? || s.derivations[d].at.Decoding? || s.derivations[d].at.Storing?)
  }

  ghost predicate Enabled(s: State, a: Action)
    requires Started(s)
  {
    match a
    case Create(id, row) => (forall i :: 0 <= i < |s.history| ==> id !in s.history[i]) && !NameTaken(Now(s), row.name)
    case Put(id, revision, _) => id in Now(s) && revision > Now(s)[id].revision
    case Rename(id, revision, name) =>
      id in Now(s) && revision > Now(s)[id].revision && !NameTaken(Now(s) - {id}, name)
    case DeleteRow(id) => id in Now(s)
    case Begin(_, _) => true
    case ReadRevision(c) => c < |s.calls| && s.calls[c].at.Asking?
    case Resume(c) => c < |s.calls| && (s.calls[c].at.Answered? || s.calls[c].at.NothingThere?)
    case ReadData(d) => d < |s.derivations| && s.derivations[d].at.Reading?
    case Dither(d) => d < |s.derivations| && s.derivations[d].at.Decoding?
    case Remember(d, _) => d < |s.derivations| && s.derivations[d].at.Storing?
    case Break(d) => InHand(s, d)
    case Settle(d) => d < |s.derivations| && (s.derivations[d].at.Settling? || s.derivations[d].at.Failing?)
    case Clear(d) => d < |s.derivations| && s.derivations[d].at.Settled? && s.derivations[d].cleared.None?
    case Await(c) =>
      && c < |s.calls| && s.calls[c].at.Waiting?
      && s.calls[c].at.d < |s.derivations| && s.derivations[s.calls[c].at.d].at.Settled?
    case Forget => true
  }

  function Written(s: State, t: Table): State { s.(history := s.history + [t]) }

  function CallAt(s: State, c: nat, at: Stage): State
    requires c < |s.calls|
  {
    s.(calls := s.calls[c := s.calls[c].(at := at)])
  }

  function DerivationAt(s: State, d: nat, at: Deriving): State
    requires d < |s.derivations|
  {
    s.(derivations := s.derivations[d := s.derivations[d].(at := at)])
  }

  function KeyFor(found: Found, dots: int): RasterKey { RasterKey(found.id, found.row.revision, dots) }

  /** `findUnique({ where: { name } })`, at the instant it is answered. */
  ghost function Lookup(s: State, name: string): Stage
    requires Started(s)
  {
    if NameTaken(Now(s), name) then
      var id :| id in Now(s) && Now(s)[id].name == name;
      Answered(Found(id, Now(s)[id], |s.history| - 1))
    else NothingThere(|s.history| - 1)
  }

  /** From the revision to a hit, a derivation already in flight, or a new one. */
  function Resumed(s: State, c: nat): State
    requires Started(s) && c < |s.calls| && (s.calls[c].at.Answered? || s.calls[c].at.NothingThere?)
  {
    if s.calls[c].at.NothingThere? then CallAt(s, c, Refused(s.calls[c].at.when))
    else if !s.calls[c].at.found.row.image then CallAt(s, c, Refused(s.calls[c].at.found.when))
    else
      var found := s.calls[c].at.found;
      var key := KeyFor(found, s.calls[c].dots);
      var remembered := Get(s.cache, key);
      if remembered.Some? then
        CallAt(s, c, Returned(found, remembered.value, |s.history| - 1)).(cache := Touched(s.cache, key))
      else if key in s.inFlight then CallAt(s, c, Waiting(found, s.inFlight[key]))
      else
        var d := |s.derivations|;
        CallAt(s, c, Waiting(found, d))
          .(derivations := s.derivations + [Derivation(key, found.when, s.epoch, Reading, None)],
            inFlight := s.inFlight[key := d])
  }

  function Awaited(s: State, c: nat): State
    requires Started(s) && c < |s.calls| && s.calls[c].at.Waiting?
    requires s.calls[c].at.d < |s.derivations| && s.derivations[s.calls[c].at.d].at.Settled?
  {
    var w := s.calls[c].at;
    match s.derivations[w.d].at.result
    case Ok(raster) => CallAt(s, c, Returned(w.found, raster, |s.history| - 1))
    case Err(_) => CallAt(s, c, Rejected(w.found, w.d))
  }

  function ClearedAway(s: State, d: nat): State
    requires d < |s.derivations|
  {
    var key := s.derivations[d].key;
    s.(inFlight := if key in s.inFlight && s.inFlight[key] == d then s.inFlight - {key} else s.inFlight,
       derivations := s.derivations[d := s.derivations[d].(cleared := Some(|s.calls|))])
  }

  /** The row's bytes as they are now, or nothing if it has gone since it was resolved. */
  function DataRead(s: State, d: nat): Deriving
    requires Started(s) && d < |s.derivations|
  {
    var id := s.derivations[d].key.id;
    if id in Now(s) then Decoding(Now(s)[id].data, |s.history| - 1) else Failing(RowGone(|s.history| - 1))
  }

  function Dithered(f: Rasterizer, d: Derivation): Deriving
    requires d.at.Decoding?
  {
    var raster := f(d.at.data, d.key.dots);
    if raster.Some? then Storing(raster.value) else Failing(Undithered(d.at.data, d.at.readAt))
  }

  ghost function Apply(f: Rasterizer, s: State, a: Action): State
    requires Started(s) && Enabled(s, a)
  {
    match a
    case Create(id, row) => Written(s, Now(s)[id := row])
    case Put(id, revision, data) => Written(s, Now(s)[id := Now(s)[id].(revision := revision, data := data)])
    case Rename(id, revision, name) => Written(s, Now(s)[id := Now(s)[id].(revision := revision, name := name)])
    case DeleteRow(id) => Written(s, Now(s) - {id})
    case Begin(name, dots) => s.(calls := s.calls + [Call(name, dots, |s.history| - 1, Asking)])
    case ReadRevision(c) => CallAt(s, c, Lookup(s, s.calls[c].name))
    case Resume(c) => Resumed(s, c)
    case ReadData(d) => DerivationAt(s, d, DataRead(s, d))
    case Dither(d) => DerivationAt(s, d, Dithered(f, s.derivations[d]))
    case Remember(d, cap) =>
      var raster := s.derivations[d].at.raster;
      DerivationAt(s, d, Settling(raster)).(cache := Remembered(s.cache, s.derivations[d].key, raster, cap))
    case Break(d) => DerivationAt(s, d, Failing(Broke))
    case Settle(d) =>
      var at := s.derivations[d].at;
      DerivationAt(s, d, Settled(if at.Settling? then Ok(at.raster) else Err(at.cause)))
    case Clear(d) => ClearedAway(s, d)
    case Await(c) => Awaited(s, c)
    case Forget => s.(cache := [], inFlight := map[], epoch := s.epoch + 1)
  }

  function Init(table: Table): State { State([table], [], map[], [], [], 0) }

  ghost predicate Legal(f: Rasterizer, s: State, run: seq<Action>)
    decreases |run|, 0
  {
    && Started(s)
    && (run == [] ||
        (&& Legal(f, s, run[..|run| - 1])
         && Started(After(f, s, run[..|run| - 1])) && Enabled(After(f, s, run[..|run| - 1]), run[|run| - 1])))
  }

  ghost function After(f: Rasterizer, s: State, run: seq<Action>): State
    requires Legal(f, s, run)
    decreases |run|, 1
  {
    if run == [] then s else Apply(f, After(f, s, run[..|run| - 1]), run[|run| - 1])
  }

  // ---------------------------------------------------------------- the invariant

  /** A row's revision only grows, and its bytes are decided by its revision. */
  ghost predicate HistoryInv(history: seq<Table>) {
    && |history| > 0
    && forall i, j, id :: 0 <= i <= j < |history| && id in history[i] && id in history[j] ==>
         && history[i][id].revision <= history[j][id].revision
         && (history[i][id].revision == history[j][id].revision ==> history[i][id].data == history[j][id].data)
  }

  /** At instant `w` the row held bytes that dither to this raster, under the key's revision or a later one. */
  ghost predicate From(f: Rasterizer, history: seq<Table>, key: RasterKey, raster: Printable, w: nat) {
    && w < |history| && key.id in history[w] && history[w][key.id].revision >= key.revision
    && f(history[w][key.id].data, key.dots) == Some(raster)
  }

  ghost predicate Sound(f: Rasterizer, history: seq<Table>, key: RasterKey, raster: Printable) {
    exists w :: From(f, history, key, raster, w)
  }

  ghost predicate CacheInv(f: Rasterizer, history: seq<Table>, cache: Entries) {
    && Distinct(cache)
    && forall i :: 0 <= i < |cache| ==> Sound(f, history, cache[i].key, cache[i].value)
  }

  /** The key's row had the key's revision when the call that opened the derivation read it. */
  predicate OpenedInv(history: seq<Table>, d: Derivation) {
    && d.since < |history| && d.key.id in history[d.since]
    && history[d.since][d.key.id].revision == d.key.revision
  }

  ghost predicate DerivationInv(f: Rasterizer, history: seq<Table>, d: Derivation) {
    && OpenedInv(history, d)
    && (d.cleared.Some? ==> d.at.Settled?)
    && match d.at
       case Decoding(data, readAt) =>
         d.since <= readAt < |history| && d.key.id in history[readAt] && history[readAt][d.key.id].data == data
       case Storing(raster) => Sound(f, history, d.key, raster)
       case Settling(raster) => Sound(f, history, d.key, raster)
       case Failing(cause) => CauseInv(f, history, d, cause)
       case Settled(Ok(raster)) => Sound(f, history, d.key, raster)
       case Settled(Err(cause)) => CauseInv(f, history, d, cause)
       case _ => true
  }

  /** The cause holds of the derivation's own row, at an instant since it was resolved. */
  ghost predicate CauseInv(f: Rasterizer, history: seq<Table>, d: Derivation, cause: Cause) {
    match cause
    case RowGone(when) => d.since <= when < |history| && d.key.id !in history[when]
    case Undithered(data, readAt) =>
      && d.since <= readAt < |history| && d.key.id in history[readAt] && history[readAt][d.key.id].data == data
      && f(data, d.key.dots).None?
    case Broke => true
  }

  ghost predicate DerivationsInv(f: Rasterizer, history: seq<Table>, ds: seq<Derivation>) {
    forall d :: 0 <= d < |ds| ==> DerivationInv(f, history, ds[d])
  }

  /** What is in flight is exactly the current epoch's derivations not yet cleaned up, at most one to a key. */
  ghost predicate FlightInv(inFlight: map<RasterKey, nat>, ds: seq<Derivation>, epoch: nat) {
    && (forall k :: k in inFlight ==>
          inFlight[k] < |ds| && ds[inFlight[k]].key == k && ds[inFlight[k]].epoch == epoch && ds[inFlight[k]].cleared.None?)
    && (forall d :: 0 <= d < |ds| && ds[d].epoch == epoch && ds[d].cleared.None? ==>
          ds[d].key in inFlight && inFlight[ds[d].key] == d)
    && (forall d :: 0 <= d < |ds| ==> ds[d].epoch <= epoch)
    && (forall d, e :: 0 <= d < e < |ds| && ds[d].key == ds[e].key && ds[d].epoch == ds[e].epoch ==> ds[d].cleared.Some?)
  }

  predicate FoundInv(history: seq<Table>, began: nat, name: string, found: Found) {
    && began <= found.when < |history|
    && found.id in history[found.when] && history[found.when][found.id] == found.row && found.row.name == name
  }

  /** The answer was right at some instant of the call. */
  ghost predicate Linearizable(f: Rasterizer, history: seq<Table>, began: nat, dots: int, id: nat, raster: Printable,
                               ended: nat) {
    exists w :: began <= w <= ended && w < |history| && id in history[w] && f(history[w][id].data, dots) == Some(raster)
  }

  predicate JoinedInv(ds: seq<Derivation>, dots: int, index: nat, found: Found, d: nat) {
    && found.row.image && d < |ds| && ds[d].key == KeyFor(found, dots)
    && (ds[d].cleared.Some? ==> index < ds[d].cleared.value)
  }

  predicate IsRejected(d: Derivation) { d.at.Settled? && d.at.result.Err? }

  /** The name named nothing, or something that is no image. */
  ghost predicate NoImage(t: Table, name: string) {
    !NameTaken(t, name) || exists id :: id in t && t[id].name == name && !t[id].image
  }

  ghost predicate CallInv(f: Rasterizer, history: seq<Table>, ds: seq<Derivation>, c: Call, index: nat) {
    && c.began < |history|
    && match c.at
       case Answered(found) => FoundInv(history, c.began, c.name, found)
       case NothingThere(when) => c.began <= when < |history| && !NameTaken(history[when], c.name)
       case Waiting(found, d) => FoundInv(history, c.began, c.name, found) && JoinedInv(ds, c.dots, index, found, d)
       case Returned(found, raster, ended) =>
         && FoundInv(history, c.began, c.name, found) && found.row.image && found.when <= ended < |history|
         && Linearizable(f, history, c.began, c.dots, found.id, raster, ended)
       case Rejected(found, d) =>
         FoundInv(history, c.began, c.name, found) && JoinedInv(ds, c.dots, index, found, d) && IsRejected(ds[d])
       case Refused(when) => c.began <= when < |history| && NoImage(history[when], c.name)
       case _ => true
  }

  ghost predicate CallsInv(f: Rasterizer, history: seq<Table>, ds: seq<Derivation>, calls: seq<Call>) {
    && (forall c :: 0 <= c < |calls| ==> CallInv(f, history, ds, calls[c], c))
    && (forall d :: 0 <= d < |ds| && ds[d].cleared.Some? ==> ds[d].cleared.value <= |calls|)
  }

  /** The cache was not forgotten between this derivation and another of its key. */
  ghost predicate NoForgetBetween(ds: seq<Derivation>, d: nat)
    requires d < |ds|
  {
    forall e :: 0 <= e < |ds| && ds[e].key == ds[d].key ==> ds[e].epoch == ds[d].epoch
  }

  /** What is still to be stored is not held, unless the cache was forgotten between two derivations of its key. */
  ghost predicate AbsentInv(cache: Entries, ds: seq<Derivation>) {
    forall d :: 0 <= d < |ds| && ToStore(ds[d]) && NoForgetBetween(ds, d) ==> !Has(cache, ds[d].key)
  }

  predicate ToStore(d: Derivation) { d.at.Reading? || d.at.Decoding? || d.at.Storing? }

  ghost predicate Inv(f: Rasterizer, s: State) {
    && HistoryInv(s.history)
    && CacheInv(f, s.history, s.cache)
    && DerivationsInv(f, s.history, s.derivations)
    && FlightInv(s.inFlight, s.derivations, s.epoch)
    && CallsInv(f, s.history, s.derivations, s.calls)
    && AbsentInv(s.cache, s.derivations)
  }

  // ---------------------------------------------------------------- one step

  lemma SoundLater(f: Rasterizer, history: seq<Table>, t: Table, key: RasterKey, raster: Printable)
    requires Sound(f, history, key, raster)
    ensures Sound(f, history + [t], key, raster)
  {
    var w :| From(f, history, key, raster, w);
    assert From(f, history + [t], key, raster, w);
  }

  lemma LinearizableLater(f: Rasterizer, history: seq<Table>, t: Table, began: nat, dots: int, id: nat,
                          raster: Printable, ended: nat)
    requires Linearizable(f, history, began, dots, id, raster, ended)
    ensures Linearizable(f, history + [t], began, dots, id, raster, ended)
  {
    var w :| began <= w <= ended && w < |history| && id in history[w] && f(history[w][id].data, dots) == Some(raster);
    assert (history + [t])[w] == history[w];
  }

  /** A write adds an instant: a new row, a larger revision, or a row gone. */
  ghost predicate Follows(history: seq<Table>, t: Table)
    requires |history| > 0
  {
    var now := history[|history| - 1];
    forall id :: id in t ==>
      if id in now then t[id].revision > now[id].revision || t[id] == now[id]
      else forall i :: 0 <= i < |history| ==> id !in history[i]
  }

  lemma WriteKeepsHistory(history: seq<Table>, t: Table)
    requires HistoryInv(history) && Follows(history, t)
    ensures HistoryInv(history + [t])
  {
    var h: seq<Table>, last := history + [t], |history| - 1;
    forall i, j, id: nat | 0 <= i <= j < |h| && id in h[i] && id in h[j]
      ensures h[i][id].revision <= h[j][id].revision
      ensures h[i][id].revision == h[j][id].revision ==> h[i][id].data == h[j][id].data
    {
      if i <= last && j == |history| {
        assert id in history[last];
        assert history[i][id].revision <= history[last][id].revision;
      }
    }
  }

  lemma WriteKeepsInv(f: Rasterizer, s: State, t: Table)
    requires Inv(f, s) && Follows(s.history, t)
    ensures Inv(f, Written(s, t))
  {
    var h := s.history + [t];
    WriteKeepsHistory(s.history, t);
    forall i | 0 <= i < |s.cache| ensures Sound(f, h, s.cache[i].key, s.cache[i].value) {
      SoundLater(f, s.history, t, s.cache[i].key, s.cache[i].value);
    }
    hide HistoryInv, Follows, FlightInv, AbsentInv, Sound;
    forall d | 0 <= d < |s.derivations| ensures DerivationInv(f, h, s.derivations[d]) {
      DerivationLater(f, s.history, t, s.derivations[d]);
    }
    forall c | 0 <= c < |s.calls| ensures CallInv(f, h, s.derivations, s.calls[c], c) {
      CallLater(f, s.history, t, s.derivations, s.calls[c], c);
    }
    hide DerivationInv, CallInv;
  }

  lemma DerivationLater(f: Rasterizer, history: seq<Table>, t: Table, d: Derivation)
    requires DerivationInv(f, history, d)
    ensures DerivationInv(f, history + [t], d)
  {
    hide Sound;
    match d.at {
      case Storing(raster) => SoundLater(f, history, t, d.key, raster);
      case Settling(raster) => SoundLater(f, history, t, d.key, raster);
      case Settled(Ok(raster)) => SoundLater(f, history, t, d.key, raster);
      case _ =>
    }
  }

  lemma CallLater(f: Rasterizer, history: seq<Table>, t: Table, ds: seq<Derivation>, c: Call, index: nat)
    requires CallInv(f, history, ds, c, index)
    ensures CallInv(f, history + [t], ds, c, index)
  {
    hide Linearizable, JoinedInv, NoImage, NameTaken, IsRejected;
    if c.at.Returned? {
      LinearizableLater(f, history, t, c.began, c.dots, c.at.found.id, c.at.raster, c.at.ended);
    }
  }

  /** A sound raster answers whoever resolved its key: by the revision it found, or by a later one. */
  lemma SoundAnswers(f: Rasterizer, history: seq<Table>, c: Call, found: Found, raster: Printable)
    requires HistoryInv(history) && FoundInv(history, c.began, c.name, found)
    requires Sound(f, history, KeyFor(found, c.dots), raster)
    ensures Linearizable(f, history, c.began, c.dots, found.id, raster, |history| - 1)
  {
    var w: nat :| From(f, history, KeyFor(found, c.dots), raster, w);
    if history[w][found.id].revision == found.row.revision {
      assert history[found.when][found.id].data == history[w][found.id].data;
      assert f(history[found.when][found.id].data, c.dots) == Some(raster);
    } else {
      assert found.when < w;
    }
  }

  lemma CallStep(f: Rasterizer, s: State, c: nat, at: Stage)
    requires Inv(f, s) && c < |s.calls| && CallInv(f, s.history, s.derivations, s.calls[c].(at := at), c)
    ensures Inv(f, CallAt(s, c, at))
  {
    hide HistoryInv, CacheInv, DerivationsInv, FlightInv, AbsentInv, CallInv;
  }

  /** A derivation moves on: what it has become is right, and nothing else about it changes. */
  lemma DerivationStep(f: Rasterizer, s: State, d: nat, at: Deriving)
    requires Inv(f, s) && d < |s.derivations| && !s.derivations[d].at.Settled?
    requires DerivationInv(f, s.history, s.derivations[d].(at := at))
    requires ToStore(s.derivations[d].(at := at)) ==> ToStore(s.derivations[d])
    ensures Inv(f, DerivationAt(s, d, at))
  {
    var ds := DerivationAt(s, d, at).derivations;
    hide *;
    hide HistoryInv, CacheInv, CallInv, DerivationInv, FlightInv, AbsentInv, ToStore;
    SameButPhase(s.derivations, d, at);
    FlightUnmoved(s.inFlight, s.derivations, ds, s.epoch);
    AbsentUnmoved(s.cache, s.derivations, ds);
    DerivationsMoved(f, s.history, s.derivations, d, at);
    CallsUnmoved(f, s.history, s.derivations, ds, s.calls);
  }

  lemma SameButPhase(ds: seq<Derivation>, d: nat, at: Deriving)
    requires d < |ds| && !ds[d].at.Settled? && (ToStore(ds[d].(at := at)) ==> ToStore(ds[d]))
    ensures Unmoved(ds, ds[d := ds[d].(at := at)])
  {
  }

  /** Derivations may move on in phase, and be added to, and nothing else. */
  ghost predicate Unmoved(ds: seq<Derivation>, es: seq<Derivation>) {
    && |es| == |ds|
    && forall d :: 0 <= d < |ds| ==>
         && es[d].key == ds[d].key && es[d].since == ds[d].since && es[d].epoch == ds[d].epoch && es[d].cleared == ds[d].cleared
         && (ds[d].at.Settled? ==> es[d].at == ds[d].at) && (ToStore(es[d]) ==> ToStore(ds[d]))
  }

  lemma FlightUnmoved(inFlight: map<RasterKey, nat>, ds: seq<Derivation>, es: seq<Derivation>, epoch: nat)
    requires FlightInv(inFlight, ds, epoch) && Unmoved(ds, es)
    ensures FlightInv(inFlight, es, epoch)
  {
    hide ToStore;
  }

  lemma AbsentUnmoved(cache: Entries, ds: seq<Derivation>, es: seq<Derivation>)
    requires AbsentInv(cache, ds) && Unmoved(ds, es)
    ensures AbsentInv(cache, es)
  {
    hide ToStore, Has;
    forall d | 0 <= d < |es| && ToStore(es[d]) && NoForgetBetween(es, d) ensures !Has(cache, es[d].key) {
      assert NoForgetBetween(ds, d);
    }
  }

  lemma DerivationsMoved(f: Rasterizer, history: seq<Table>, ds: seq<Derivation>, d: nat, at: Deriving)
    requires DerivationsInv(f, history, ds) && d < |ds| && DerivationInv(f, history, ds[d].(at := at))
    ensures DerivationsInv(f, history, ds[d := ds[d].(at := at)])
  {
    hide DerivationInv;
  }

  lemma CallsUnmoved(f: Rasterizer, history: seq<Table>, ds: seq<Derivation>, es: seq<Derivation>, calls: seq<Call>)
    requires CallsInv(f, history, ds, calls) && Unmoved(ds, es)
    ensures CallsInv(f, history, es, calls)
  {
    hide ToStore;
    forall c | 0 <= c < |calls| ensures CallInv(f, history, es, calls[c], c) {
      CallUnmoved(f, history, ds, es, calls[c], c);
    }
    hide CallInv;
  }

  /** Calls look only at a derivation's key, its cleanup and its rejection. */
  lemma CallUnmoved(f: Rasterizer, history: seq<Table>, ds: seq<Derivation>, es: seq<Derivation>, c: Call, index: nat)
    requires CallInv(f, history, ds, c, index) && |ds| <= |es|
    requires forall d :: 0 <= d < |ds| ==> es[d].key == ds[d].key && (ds[d].at.Settled? ==> es[d].at == ds[d].at)
    requires forall d :: 0 <= d < |ds| ==> es[d].cleared == ds[d].cleared || (es[d].cleared.Some? && index < es[d].cleared.value)
    ensures CallInv(f, history, es, c, index)
  {
    hide FoundInv, Linearizable, NoImage, NameTaken;
  }

  lemma ResumeKeepsInv(f: Rasterizer, s: State, c: nat)
    requires Inv(f, s) && c < |s.calls| && (s.calls[c].at.Answered? || s.calls[c].at.NothingThere?)
    ensures Inv(f, Resumed(s, c))
  {
    hide HistoryInv, CacheInv, FlightInv, AbsentInv, DerivationInv;
    var call := s.calls[c];
    assert CallInv(f, s.history, s.derivations, call, c);
    if call.at.NothingThere? {
      CallStep(f, s, c, Refused(call.at.when));
    } else if !call.at.found.row.image {
      CallStep(f, s, c, Refused(call.at.found.when));
    } else {
      var found := call.at.found;
      var key := KeyFor(found, call.dots);
      var remembered := Get(s.cache, key);
      if remembered.Some? {
        HitIsSound(f, s.history, s.cache, key);
        SoundAnswers(f, s.history, call, found, remembered.value);
        CallStep(f, s, c, Returned(found, remembered.value, |s.history| - 1));
        TouchKeepsInv(f, CallAt(s, c, Returned(found, remembered.value, |s.history| - 1)), key);
      } else if key in s.inFlight {
        InFlightIsOpen(s.inFlight, s.derivations, s.epoch, key);
        CallStep(f, s, c, Waiting(found, s.inFlight[key]));
      } else {
        StartKeepsInv(f, s, c);
      }
    }
  }

  lemma HitIsSound(f: Rasterizer, history: seq<Table>, cache: Entries, key: RasterKey)
    requires CacheInv(f, history, cache) && Get(cache, key).Some?
    ensures Sound(f, history, key, Get(cache, key).value)
  {
    hide Sound;
    assert Sound(f, history, cache[IndexOf(cache, key)].key, cache[IndexOf(cache, key)].value);
  }

  lemma InFlightIsOpen(inFlight: map<RasterKey, nat>, ds: seq<Derivation>, epoch: nat, key: RasterKey)
    requires FlightInv(inFlight, ds, epoch) && key in inFlight
    ensures inFlight[key] < |ds| && ds[inFlight[key]].key == key && ds[inFlight[key]].cleared.None?
  {
  }

  lemma TouchKeepsInv(f: Rasterizer, s: State, key: RasterKey)
    requires Inv(f, s)
    ensures Inv(f, s.(cache := Touched(s.cache, key)))
  {
    TouchKeepsEntries(s.cache, key);
    hide Sound, Touched, HistoryInv, DerivationsInv, FlightInv, CallsInv;
    var touched := Touched(s.cache, key);
    forall i | 0 <= i < |touched| ensures Sound(f, s.history, touched[i].key, touched[i].value) {
      assert touched[i] in s.cache;
    }
    SameKeys(s.cache, touched);
    hide Has;
  }

  lemma SameKeys(a: Entries, b: Entries)
    requires forall x :: x in b ==> x in a
    ensures forall k :: Has(b, k) ==> Has(a, k)
  {
    forall k | Has(b, k) ensures Has(a, k) {
      assert b[IndexOf(b, k)] in a;
    }
  }

  lemma StartKeepsInv(f: Rasterizer, s: State, c: nat)
    requires Inv(f, s) && c < |s.calls| && s.calls[c].at.Answered? && s.calls[c].at.found.row.image
    requires var key := KeyFor(s.calls[c].at.found, s.calls[c].dots); Get(s.cache, key).None? && key !in s.inFlight
    ensures Inv(f, Resumed(s, c))
  {
    var call, found := s.calls[c], s.calls[c].at.found;
    var key := KeyFor(found, call.dots);
    var opening := Derivation(key, found.when, s.epoch, Reading, None);
    var ds := s.derivations + [opening];
    assert CallInv(f, s.history, s.derivations, call, c);
    hide Get, Has, HistoryInv, CacheInv;
    StartedFlight(s.inFlight, s.derivations, s.epoch, opening);
    StartedAbsent(s.cache, s.derivations, opening);
    StartedCalls(f, s, opening);
    var t := s.(derivations := ds, inFlight := s.inFlight[key := |s.derivations|]);
    assert Inv(f, t) by {
      hide FlightInv, AbsentInv, CallsInv;
    }
    hide *;
    hide HistoryInv, CacheInv, FlightInv, AbsentInv, DerivationsInv, FoundInv;
    CallStep(f, t, c, Waiting(found, |s.derivations|));
    assert CallAt(t, c, Waiting(found, |s.derivations|)) == Resumed(s, c);
  }

  lemma StartedFlight(inFlight: map<RasterKey, nat>, ds: seq<Derivation>, epoch: nat, d: Derivation)
    requires FlightInv(inFlight, ds, epoch) && d.key !in inFlight && d.epoch == epoch && d.cleared.None?
    ensures FlightInv(inFlight[d.key := |ds|], ds + [d], epoch)
  {
  }

  lemma StartedAbsent(cache: Entries, ds: seq<Derivation>, opening: Derivation)
    requires AbsentInv(cache, ds) && !Has(cache, opening.key)
    ensures AbsentInv(cache, ds + [opening])
  {
    hide Has, ToStore;
    var es := ds + [opening];
    forall d | 0 <= d < |es| && ToStore(es[d]) && NoForgetBetween(es, d) ensures !Has(cache, es[d].key) {
      if d < |ds| {
        assert forall e :: 0 <= e < |ds| ==> es[e] == ds[e];
        assert NoForgetBetween(ds, d);
      }
    }
  }

  lemma StartedCalls(f: Rasterizer, s: State, d: Derivation)
    requires CallsInv(f, s.history, s.derivations, s.calls) && d.cleared.None?
    ensures CallsInv(f, s.history, s.derivations + [d], s.calls)
  {
    forall c | 0 <= c < |s.calls| ensures CallInv(f, s.history, s.derivations + [d], s.calls[c], c) {
      CallUnmoved(f, s.history, s.derivations, s.derivations + [d], s.calls[c], c);
    }
    hide CallInv;
  }

  lemma RememberKeepsInv(f: Rasterizer, s: State, d: nat, cap: nat)
    requires Inv(f, s) && d < |s.derivations| && s.derivations[d].at.Storing?
    ensures Inv(f, Apply(f, s, Remember(d, cap)))
  {
    var key, raster := s.derivations[d].key, s.derivations[d].at.raster;
    assert DerivationInv(f, s.history, s.derivations[d]);
    hide Sound, HistoryInv, FlightInv, CallsInv, Remembered, Has;
    DerivationStep(f, s, d, Settling(raster));
    var t := DerivationAt(s, d, Settling(raster));
    RememberedSound(f, s.history, s.cache, key, raster, cap);
    StillAbsent(s.inFlight, s.cache, s.derivations, s.epoch, d, raster, cap) by { assert FlightInv(s.inFlight, s.derivations, s.epoch); }
    hide CacheInv, DerivationsInv, AbsentInv;
  }

  lemma RememberedFrom(es: Entries, key: RasterKey, raster: Printable, cap: nat)
    requires Distinct(es)
    ensures Distinct(Remembered(es, key, raster, cap))
    ensures forall x :: x in Remembered(es, key, raster, cap) ==> x == Entry(key, raster) || x in es
  {
    hide Size;
    var all := Set(es, key, raster);
    SetKeepsDistinct(es, key, raster);
    var n := EvictionIsShortest(all, cap);
    assert forall x :: x in all ==> x == Entry(key, raster) || x in es;
    assert forall x :: x in all[n..] ==> x in all;
    hide Set, Evicted;
  }

  lemma RememberedSound(f: Rasterizer, history: seq<Table>, cache: Entries, key: RasterKey, raster: Printable, cap: nat)
    requires CacheInv(f, history, cache) && Sound(f, history, key, raster)
    ensures CacheInv(f, history, Remembered(cache, key, raster, cap))
  {
    hide Sound, Remembered;
    var r := Remembered(cache, key, raster, cap);
    RememberedFrom(cache, key, raster, cap);
    forall i | 0 <= i < |r| ensures Sound(f, history, r[i].key, r[i].value) {
      assert r[i] in r;
    }
  }

  lemma StillAbsent(inFlight: map<RasterKey, nat>, cache: Entries, ds: seq<Derivation>, epoch: nat, d: nat,
                    raster: Printable, cap: nat)
    requires FlightInv(inFlight, ds, epoch) && AbsentInv(cache, ds) && Distinct(cache)
    requires d < |ds| && ToStore(ds[d]) && forall e :: 0 <= e < |ds| && ds[e].cleared.Some? ==> ds[e].at.Settled?
    ensures AbsentInv(Remembered(cache, ds[d].key, raster, cap), ds[d := ds[d].(at := Settling(raster))])
  {
    hide Remembered, Has;
    var r, es := Remembered(cache, ds[d].key, raster, cap), ds[d := ds[d].(at := Settling(raster))];
    RememberedFrom(cache, ds[d].key, raster, cap);
    forall e | 0 <= e < |es| && ToStore(es[e]) && NoForgetBetween(es, e) ensures !Has(r, es[e].key) {
      assert e != d && es[e] == ds[e] && es[d].key == ds[d].key;
      assert forall i :: 0 <= i < |ds| ==> es[i].key == ds[i].key && es[i].epoch == ds[i].epoch;
      assert NoForgetBetween(ds, e);
      assert !Has(cache, ds[e].key);
      assert ds[e].key != ds[d].key;
      OnlyWhatWasKept(cache, r, Entry(ds[d].key, raster), ds[e].key);
    }
  }

  lemma OnlyWhatWasKept(cache: Entries, r: Entries, added: Entry<RasterKey, Printable>, key: RasterKey)
    requires (forall x :: x in r ==> x == added || x in cache) && added.key != key && !Has(cache, key)
    ensures !Has(r, key)
  {
    assert forall x :: x in cache ==> Has(cache, x.key);
  }

  lemma ClearKeepsInv(f: Rasterizer, s: State, d: nat)
    requires Inv(f, s) && d < |s.derivations| && s.derivations[d].at.Settled? && s.derivations[d].cleared.None?
    ensures Inv(f, ClearedAway(s, d))
  {
    hide HistoryInv, CacheInv, FlightInv, CallsInv, DerivationsInv, AbsentInv;
    ClearedFlight(s.inFlight, s.derivations, s.epoch, d, |s.calls|);
    ClearedCalls(f, s.history, s.derivations, s.calls, d);
    ClearedDerivations(f, s.history, s.derivations, d, |s.calls|);
    ClearedAbsent(s.cache, s.derivations, d, |s.calls|);
  }

  lemma ClearedCalls(f: Rasterizer, history: seq<Table>, ds: seq<Derivation>, calls: seq<Call>, d: nat)
    requires CallsInv(f, history, ds, calls) && d < |ds| && ds[d].cleared.None?
    ensures CallsInv(f, history, ds[d := ds[d].(cleared := Some(|calls|))], calls)
  {
    var es := ds[d := ds[d].(cleared := Some(|calls|))];
    forall c | 0 <= c < |calls| ensures CallInv(f, history, es, calls[c], c) {
      CallUnmoved(f, history, ds, es, calls[c], c);
    }
    hide CallInv;
  }

  lemma ClearedDerivations(f: Rasterizer, history: seq<Table>, ds: seq<Derivation>, d: nat, calls: nat)
    requires DerivationsInv(f, history, ds) && d < |ds| && ds[d].at.Settled?
    ensures DerivationsInv(f, history, ds[d := ds[d].(cleared := Some(calls))])
  {
    assert DerivationInv(f, history, ds[d]);
    hide Sound;
    assert DerivationInv(f, history, ds[d].(cleared := Some(calls)));
    hide DerivationInv;
  }

  lemma ClearedAbsent(cache: Entries, ds: seq<Derivation>, d: nat, calls: nat)
    requires AbsentInv(cache, ds) && d < |ds|
    ensures AbsentInv(cache, ds[d := ds[d].(cleared := Some(calls))])
  {
    hide Has;
    var es := ds[d := ds[d].(cleared := Some(calls))];
    forall e | 0 <= e < |es| && ToStore(es[e]) && NoForgetBetween(es, e) ensures !Has(cache, es[e].key) {
      assert forall i :: 0 <= i < |ds| ==> es[i].key == ds[i].key && es[i].epoch == ds[i].epoch;
      assert NoForgetBetween(ds, e);
    }
  }

  lemma ClearedFlight(inFlight: map<RasterKey, nat>, ds: seq<Derivation>, epoch: nat, d: nat, calls: nat)
    requires FlightInv(inFlight, ds, epoch) && d < |ds| && ds[d].cleared.None?
    ensures var key := ds[d].key;
      FlightInv(if key in inFlight && inFlight[key] == d then inFlight - {key} else inFlight,
                ds[d := ds[d].(cleared := Some(calls))], epoch)
  {
  }

  lemma ReadDataKeepsInv(f: Rasterizer, s: State, d: nat)
    requires Inv(f, s) && d < |s.derivations| && s.derivations[d].at.Reading?
    ensures Inv(f, Apply(f, s, ReadData(d)))
  {
    hide HistoryInv, CacheInv, FlightInv, CallsInv, DerivationsInv, AbsentInv, DerivationInv, Inv;
    DerivationIs(f, s, d);
    DataReadIsRight(f, s, d);
    DerivationStep(f, s, d, DataRead(s, d));
  }

  lemma DataReadIsRight(f: Rasterizer, s: State, d: nat)
    requires Started(s) && d < |s.derivations| && s.derivations[d].at.Reading?
    requires DerivationInv(f, s.history, s.derivations[d])
    ensures DerivationInv(f, s.history, s.derivations[d].(at := DataRead(s, d)))
  {
  }

  lemma DitheredIsRight(f: Rasterizer, history: seq<Table>, d: Derivation)
    requires HistoryInv(history) && DerivationInv(f, history, d) && d.at.Decoding?
    ensures DerivationInv(f, history, d.(at := Dithered(f, d)))
  {
    var raster := f(d.at.data, d.key.dots);
    if raster.Some? {
      assert history[d.since][d.key.id].revision <= history[d.at.readAt][d.key.id].revision;
      assert From(f, history, d.key, raster.value, d.at.readAt);
    }
    hide HistoryInv;
  }

  lemma DitherKeepsInv(f: Rasterizer, s: State, d: nat)
    requires Inv(f, s) && d < |s.derivations| && s.derivations[d].at.Decoding?
    ensures Inv(f, Apply(f, s, Dither(d)))
  {
    hide HistoryInv, CacheInv, FlightInv, CallsInv, AbsentInv, DerivationInv, DerivationsInv, Inv;
    DerivationIs(f, s, d);
    DitheredIsRight(f, s.history, s.derivations[d]);
    DerivationStep(f, s, d, Dithered(f, s.derivations[d]));
  }

  lemma DerivationIs(f: Rasterizer, s: State, d: nat)
    requires Inv(f, s) && d < |s.derivations|
    ensures Started(s) && HistoryInv(s.history) && DerivationInv(f, s.history, s.derivations[d])
  {
    hide CacheInv, FlightInv, CallsInv, AbsentInv, DerivationInv;
  }

  lemma BreakKeepsInv(f: Rasterizer, s: State, d: nat)
    requires Inv(f, s) && InHand(s, d)
    ensures Inv(f, DerivationAt(s, d, Failing(Broke)))
  {
    assert DerivationInv(f, s.history, s.derivations[d]);
    hide HistoryInv, CacheInv, FlightInv, CallsInv, AbsentInv, Sound;
    DerivationStep(f, s, d, Failing(Broke));
  }

  lemma SettleKeepsInv(f: Rasterizer, s: State, d: nat)
    requires Inv(f, s) && Enabled(s, Settle(d))
    ensures Inv(f, Apply(f, s, Settle(d)))
  {
    assert DerivationInv(f, s.history, s.derivations[d]);
    hide HistoryInv, CacheInv, FlightInv, CallsInv, AbsentInv, Sound;
    var at := s.derivations[d].at;
    DerivationStep(f, s, d, Settled(if at.Settling? then Ok(at.raster) else Err(at.cause)));
  }

  lemma AwaitKeepsInv(f: Rasterizer, s: State, c: nat)
    requires Inv(f, s) && Enabled(s, Await(c))
    ensures Inv(f, Awaited(s, c))
  {
    hide HistoryInv, CacheInv, FlightInv, AbsentInv, Sound, FoundInv, Linearizable;
    var call, found, d := s.calls[c], s.calls[c].at.found, s.calls[c].at.d;
    assert CallInv(f, s.history, s.derivations, call, c);
    assert DerivationInv(f, s.history, s.derivations[d]);
    hide CallsInv, DerivationsInv;
    if s.derivations[d].at.result.Ok? {
      var raster := s.derivations[d].at.result.value;
      SoundAnswers(f, s.history, call, found, raster);
      FoundBefore(s.history, call, found);
      CallStep(f, s, c, Returned(found, raster, |s.history| - 1));
    } else {
      CallStep(f, s, c, Rejected(found, d));
    }
  }

  lemma FoundBefore(history: seq<Table>, c: Call, found: Found)
    requires FoundInv(history, c.began, c.name, found)
    ensures found.when <= |history| - 1 && c.began < |history|
  {
  }

  lemma ReadRevisionKeepsInv(f: Rasterizer, s: State, c: nat)
    requires Inv(f, s) && c < |s.calls| && s.calls[c].at.Asking?
    ensures Inv(f, Apply(f, s, ReadRevision(c)))
  {
    assert CallInv(f, s.history, s.derivations, s.calls[c], c);
    hide HistoryInv, CacheInv, FlightInv, AbsentInv, CallsInv, DerivationsInv;
    CallStep(f, s, c, Lookup(s, s.calls[c].name));
  }

  lemma BeginKeepsInv(f: Rasterizer, s: State, name: string, dots: int)
    requires Inv(f, s)
    ensures Inv(f, Apply(f, s, Begin(name, dots)))
  {
    hide CacheInv, FlightInv, AbsentInv, DerivationsInv, FoundInv, Linearizable, JoinedInv;
  }

  lemma ForgetKeepsInv(f: Rasterizer, s: State)
    requires Inv(f, s)
    ensures Inv(f, Apply(f, s, Forget))
  {
    var empty: Entries := [];
    assert forall key :: !Has(empty, key);
    hide HistoryInv, DerivationsInv, CallsInv, Has, ToStore;
  }

  lemma WriteFollows(f: Rasterizer, s: State, a: Action)
    requires Inv(f, s) && Enabled(s, a) && (a.Create? || a.Put? || a.Rename? || a.DeleteRow?)
    ensures Inv(f, Apply(f, s, a))
  {
    assert Started(s);
    hide HistoryInv, CacheInv, FlightInv, AbsentInv, CallsInv, DerivationsInv, NameTaken;
    var t := Now(Apply(f, s, a));
    assert Follows(s.history, t);
    WriteKeepsInv(f, s, t);
    assert Apply(f, s, a) == Written(s, t);
  }

  lemma StepKeepsInv(f: Rasterizer, s: State, a: Action)
    requires Inv(f, s) && Enabled(s, a)
    ensures Inv(f, Apply(f, s, a))
  {
    hide Inv;
    match a {
      case Begin(name, dots) => BeginKeepsInv(f, s, name, dots);
      case ReadRevision(c) => ReadRevisionKeepsInv(f, s, c);
      case Resume(c) => ResumeKeepsInv(f, s, c);
      case ReadData(d) => ReadDataKeepsInv(f, s, d);
      case Dither(d) => DitherKeepsInv(f, s, d);
      case Remember(d, cap) => RememberKeepsInv(f, s, d, cap);
      case Break(d) => BreakKeepsInv(f, s, d);
      case Settle(d) => SettleKeepsInv(f, s, d);
      case Clear(d) => ClearKeepsInv(f, s, d);
      case Await(c) => AwaitKeepsInv(f, s, c);
      case Forget => ForgetKeepsInv(f, s);
      case _ => WriteFollows(f, s, a);
    }
  }

  lemma {:induction false} RunKeepsInv(f: Rasterizer, s: State, run: seq<Action>)
    requires Inv(f, s) && Legal(f, s, run)
    ensures Inv(f, After(f, s, run))
    decreases |run|
  {
    hide Inv, Enabled, Apply;
    if run == [] {
    } else {
      RunKeepsInv(f, s, run[..|run| - 1]);
      StepKeepsInv(f, After(f, s, run[..|run| - 1]), run[|run| - 1]);
    }
  }

  // ---------------------------------------------------------------- what every run guarantees

  ghost predicate Reachable(f: Rasterizer, table: Table, run: seq<Action>, s: State) {
    Legal(f, Init(table), run) && After(f, Init(table), run) == s
  }

  lemma ReachableInv(f: Rasterizer, table: Table, run: seq<Action>, s: State)
    requires Reachable(f, table, run, s)
    ensures Inv(f, s)
  {
    hide Legal, After;
    RunKeepsInv(f, Init(table), run);
  }

  /**
   Every call that returned was answered with the dither, at its width, of bytes that the row its name resolved to
   held at an instant between the call's start and its end; and the name named that image at an instant between them.
   */
  lemma CallsAreLinearizable(f: Rasterizer, table: Table, run: seq<Action>, s: State, c: nat)
    requires Reachable(f, table, run, s) && c < |s.calls| && s.calls[c].at.Returned?
    ensures var call := s.calls[c];
      var found := call.at.found;
      && Linearizable(f, s.history, call.began, call.dots, found.id, call.at.raster, call.at.ended)
      && call.began <= found.when <= call.at.ended < |s.history|
      && found.id in s.history[found.when] && s.history[found.when][found.id].name == call.name
      && s.history[found.when][found.id].image
  {
    ReachableInv(f, table, run, s);
    hide Reachable, HistoryInv, CacheInv, DerivationsInv, FlightInv, AbsentInv, Linearizable;
    assert CallInv(f, s.history, s.derivations, s.calls[c], c);
  }

  /**
   Between two calls of `forgetRasters` at most one derivation of a key is unsettled, or even not cleaned up
   after.
   */
  lemma OneDerivationPerKey(f: Rasterizer, table: Table, run: seq<Action>, s: State, d: nat, e: nat)
    requires Reachable(f, table, run, s) && d < |s.derivations| && e < |s.derivations|
    requires s.derivations[d].key == s.derivations[e].key && s.derivations[d].epoch == s.derivations[e].epoch
    requires !s.derivations[d].at.Settled? && s.derivations[e].cleared.None?
    ensures d == e
  {
    ReachableInv(f, table, run, s);
    hide Reachable, HistoryInv, CacheInv, CallsInv, AbsentInv;
    assert DerivationInv(f, s.history, s.derivations[d]);
  }

  /** A rejection reaches only calls that had begun before the failed derivation was cleaned up after. */
  lemma FailureIsNotKept(f: Rasterizer, table: Table, run: seq<Action>, s: State, c: nat)
    requires Reachable(f, table, run, s) && c < |s.calls| && s.calls[c].at.Rejected?
    ensures var d := s.calls[c].at.d;
      && d < |s.derivations| && IsRejected(s.derivations[d])
      && (s.derivations[d].cleared.Some? ==> c < s.derivations[d].cleared.value)
  {
    ReachableInv(f, table, run, s);
    hide Reachable, HistoryInv, CacheInv, DerivationsInv, FlightInv, AbsentInv, FoundInv;
    assert CallInv(f, s.history, s.derivations, s.calls[c], c);
  }

  /**
   However late a cleanup runs, every other derivation in flight stays in flight, and none of its own stays
   behind.
   */
  lemma CleanupTakesOnlyItsOwn(f: Rasterizer, table: Table, run: seq<Action>, s: State, d: nat, key: RasterKey)
    requires Reachable(f, table, run, s) && d < |s.derivations|
    requires s.derivations[d].at.Settled? && s.derivations[d].cleared.None?
    ensures var t := ClearedAway(s, d);
      && (key in s.inFlight && s.inFlight[key] != d ==> key in t.inFlight && t.inFlight[key] == s.inFlight[key])
      && (key in t.inFlight ==> t.inFlight[key] != d)
  {
    ReachableInv(f, table, run, s);
    hide Reachable, HistoryInv, CacheInv, DerivationsInv, CallsInv, AbsentInv, FlightInv;
    ClearedFlight(s.inFlight, s.derivations, s.epoch, d, |s.calls|);
    NotInFlight(ClearedAway(s, d).inFlight, ClearedAway(s, d).derivations, s.epoch, d, key);
  }

  lemma NotInFlight(inFlight: map<RasterKey, nat>, ds: seq<Derivation>, epoch: nat, d: nat, key: RasterKey)
    requires FlightInv(inFlight, ds, epoch) && d < |ds| && ds[d].cleared.Some?
    ensures key in inFlight ==> inFlight[key] != d
  {
  }

  /**
   Unless the cache was forgotten between two derivations of its key, what a derivation stores was not held, so it
   survives its own storing.
   */
  lemma WhatIsStoredIsHeld(f: Rasterizer, table: Table, run: seq<Action>, s: State, d: nat, cap: nat)
    requires Reachable(f, table, run, s) && d < |s.derivations| && s.derivations[d].at.Storing?
    requires NoForgetBetween(s.derivations, d)
    requires |s.derivations[d].at.raster.packed| <= cap
    ensures !Has(s.cache, s.derivations[d].key)
    ensures Started(s)
    ensures Get(Apply(f, s, Remember(d, cap)).cache, s.derivations[d].key) == Some(s.derivations[d].at.raster)
  {
    ReachableInv(f, table, run, s);
    hide Reachable, DerivationsInv, FlightInv, CallsInv, Sound, Has, Get, Remembered;
    assert ToStore(s.derivations[d]);
    NewEntrySurvives(s.cache, s.derivations[d].key, s.derivations[d].at.raster, cap);
  }

  /** What is stored takes its key's place, or the back, and the shortest front that makes room for it goes. */
  lemma StoringDropsTheFront(f: Rasterizer, s: State, d: nat, cap: nat)
    requires Started(s) && d < |s.derivations| && s.derivations[d].at.Storing?
    requires |s.derivations[d].at.raster.packed| <= cap
    ensures var t, all := Apply(f, s, Remember(d, cap)), Set(s.cache, s.derivations[d].key, s.derivations[d].at.raster);
      && t.derivations[d].at == Settling(s.derivations[d].at.raster)
      && exists n: nat :: ShortestPrefix(all, cap, n) && t.cache == all[n..]
  {
    var _ := EvictionIsShortest(Set(s.cache, s.derivations[d].key, s.derivations[d].at.raster), cap);
    hide Set, ShortestPrefix, Size, Evicted;
  }

  /** A raster larger than the whole cap is handed to its callers all the same, and nothing is dropped for it. */
  lemma TooLargeIsNotStored(f: Rasterizer, s: State, d: nat, cap: nat)
    requires Started(s) && d < |s.derivations| && s.derivations[d].at.Storing?
    requires |s.derivations[d].at.raster.packed| > cap
    ensures var t := Apply(f, s, Remember(d, cap));
      t.cache == s.cache && t.derivations[d].at == Settling(s.derivations[d].at.raster)
  {
  }

  // ---------------------------------------------------------------- who is refused, and who waits for what

  /** A refused call's name, at an instant of the call, named nothing or something that is no image. */
  lemma RefusedHadNoImage(f: Rasterizer, table: Table, run: seq<Action>, s: State, c: nat)
    requires Reachable(f, table, run, s) && c < |s.calls| && s.calls[c].at.Refused?
    ensures s.calls[c].began <= s.calls[c].at.when < |s.history|
    ensures NoImage(s.history[s.calls[c].at.when], s.calls[c].name)
  {
    ReachableInv(f, table, run, s);
    hide Reachable, HistoryInv, CacheInv, DerivationsInv, FlightInv, AbsentInv, FoundInv, NoImage;
    assert CallInv(f, s.history, s.derivations, s.calls[c], c);
  }

  /** Derived for this key since the cache was last forgotten, and not yet cleaned up after. */
  predicate IsOpen(s: State, key: RasterKey, d: nat) {
    d < |s.derivations| && s.derivations[d].key == key && s.derivations[d].epoch == s.epoch && s.derivations[d].cleared.None?
  }

  /** The call has resolved its name to an image, and the key is that of the revision it found, at its width. */
  predicate Resolved(s: State, c: nat, key: RasterKey) {
    && c < |s.calls| && s.calls[c].at.Answered? && s.calls[c].at.found.row.image
    && key == RasterKey(s.calls[c].at.found.id, s.calls[c].at.found.row.revision, s.calls[c].dots)
  }

  /** A call whose key is held is answered from the cache, and what it was answered with is the most recently used. */
  lemma HeldIsAHit(f: Rasterizer, table: Table, run: seq<Action>, s: State, c: nat, e: Entry<RasterKey, Printable>)
    requires Reachable(f, table, run, s) && Resolved(s, c, e.key) && e in s.cache
    ensures Started(s)
    ensures var t := Apply(f, s, Resume(c));
      && t.calls == s.calls[c := s.calls[c].(at := Returned(s.calls[c].at.found, e.value, |s.history| - 1))]
      && t.derivations == s.derivations
      && t.cache == Touched(s.cache, e.key)
      && |t.cache| == |s.cache| && t.cache[|t.cache| - 1] == e && forall x :: x in t.cache <==> x in s.cache
  {
    ReachableInv(f, table, run, s);
    hide *;
    hide Reachable, Inv, Apply, Touched, Get, Distinct, FlightInv, Resolved;
    PartsOf(f, s);
    EntryIs(s.cache, e);
    ResolvedIs(s, c, e.key);
    ResumedIs(f, s, c, e.key);
  }

  /** One whose key is not held waits for the derivation open for that key, whoever opened it. */
  lemma OpenIsJoined(f: Rasterizer, table: Table, run: seq<Action>, s: State, c: nat, key: RasterKey, d: nat)
    requires Reachable(f, table, run, s) && Resolved(s, c, key) && IsOpen(s, key, d)
    requires forall e :: e in s.cache ==> e.key != key
    ensures Started(s)
    ensures var t := Apply(f, s, Resume(c));
      && t.calls == s.calls[c := s.calls[c].(at := Waiting(s.calls[c].at.found, d))]
      && t.derivations == s.derivations && t.cache == s.cache
  {
    ReachableInv(f, table, run, s);
    hide Reachable, Inv, Apply, Touched, Get, Distinct, FlightInv;
    PartsOf(f, s);
    HeldIs(s.cache, key);
    OpenIsInFlight(s, key);
    hide IsOpen;
    ResumedIs(f, s, c, key);
  }

  /** And a derivation is opened exactly when there is none: from the row's bytes, for the call to wait for. */
  lemma NoneOpenIsOpened(f: Rasterizer, table: Table, run: seq<Action>, s: State, c: nat, key: RasterKey)
    requires Reachable(f, table, run, s) && Resolved(s, c, key) && forall d :: !IsOpen(s, key, d)
    requires forall e :: e in s.cache ==> e.key != key
    ensures Started(s)
    ensures var t, found := Apply(f, s, Resume(c)), s.calls[c].at.found;
      && t.calls == s.calls[c := s.calls[c].(at := Waiting(found, |s.derivations|))]
      && t.derivations == s.derivations + [Derivation(key, found.when, s.epoch, Reading, None)] && t.cache == s.cache
  {
    ReachableInv(f, table, run, s);
    hide Reachable, Inv, Apply, Touched, Get, Distinct, FlightInv;
    PartsOf(f, s);
    HeldIs(s.cache, key);
    OpenIsInFlight(s, key);
    hide IsOpen;
    ResumedIs(f, s, c, key);
  }

  lemma PartsOf(f: Rasterizer, s: State)
    requires Inv(f, s)
    ensures Started(s) && Distinct(s.cache) && FlightInv(s.inFlight, s.derivations, s.epoch)
  {
  }

  lemma ResumedIs(f: Rasterizer, s: State, c: nat, key: RasterKey)
    requires Started(s) && c < |s.calls| && s.calls[c].at.Answered? && s.calls[c].at.found.row.image
    requires key == KeyFor(s.calls[c].at.found, s.calls[c].dots)
    ensures var found, t, held := s.calls[c].at.found, Apply(f, s, Resume(c)), Get(s.cache, key);
      var d := if key in s.inFlight then s.inFlight[key] else |s.derivations|;
      && t.calls == s.calls[c := s.calls[c].(
           at := if held.Some? then Returned(found, held.value, |s.history| - 1) else Waiting(found, d))]
      && t.cache == (if held.Some? then Touched(s.cache, key) else s.cache)
      && t.derivations == if held.Some? || key in s.inFlight then s.derivations
                          else s.derivations + [Derivation(key, found.when, s.epoch, Reading, None)]
  {
    hide Get, Touched;
  }

  lemma ResolvedIs(s: State, c: nat, key: RasterKey)
    requires Resolved(s, c, key)
    ensures c < |s.calls| && s.calls[c].at.Answered? && s.calls[c].at.found.row.image
    ensures key == KeyFor(s.calls[c].at.found, s.calls[c].dots)
  {
  }

  lemma EntryIs(cache: Entries, e: Entry<RasterKey, Printable>)
    requires Distinct(cache) && e in cache
    ensures Get(cache, e.key) == Some(e.value)
    ensures var touched := Touched(cache, e.key);
      |touched| == |cache| > 0 && touched[|cache| - 1] == e && forall x :: x in touched <==> x in cache
  {
    HeldIs(cache, e.key);
    TouchKeepsEntries(cache, e.key);
    hide Get, Touched, Distinct;
  }

  lemma HeldIs(cache: Entries, key: RasterKey)
    requires Distinct(cache)
    ensures Get(cache, key).None? <==> forall e :: e in cache ==> e.key != key
    ensures forall e :: e in cache && e.key == key ==>
      && Get(cache, key) == Some(e.value)
      && Touched(cache, key) != [] && Touched(cache, key)[|cache| - 1] == e && |Touched(cache, key)| == |cache|
  {
    forall e | e in cache && e.key == key ensures IndexOf(cache, key) < |cache| && cache[IndexOf(cache, key)] == e {
      var i :| 0 <= i < |cache| && cache[i] == e;
      OnePlace(cache, key, i);
    }
    if Get(cache, key).Some? {
      assert cache[IndexOf(cache, key)] in cache;
    }
  }

  lemma OpenIsInFlight(s: State, key: RasterKey)
    requires FlightInv(s.inFlight, s.derivations, s.epoch)
    ensures key in s.inFlight <==> exists d :: IsOpen(s, key, d)
    ensures forall d :: IsOpen(s, key, d) ==> key in s.inFlight && s.inFlight[key] == d
  {
    if key in s.inFlight {
      assert IsOpen(s, key, s.inFlight[key]);
    }
  }

  /** Whoever waited gets what the derivation settled with. */
  lemma AwaitAnswers(f: Rasterizer, s: State, c: nat)
    requires Started(s) && Enabled(s, Await(c))
    ensures var w, t := s.calls[c].at, Apply(f, s, Await(c));
      t.calls[c].at == if IsRejected(s.derivations[w.d]) then Rejected(w.found, w.d)
        else Returned(w.found, s.derivations[w.d].at.result.value, |s.history| - 1)
  {
  }

  /**
   A call is rejected only for a cause: its row was gone, or its bytes did not dither, at an instant since the key was
   resolved; or the environment broke this very derivation.
   */
  lemma RejectedForACause(f: Rasterizer, table: Table, run: seq<Action>, s: State, c: nat)
    requires Reachable(f, table, run, s) && c < |s.calls| && s.calls[c].at.Rejected?
    ensures var d := s.calls[c].at.d;
      && d < |s.derivations| && IsRejected(s.derivations[d])
      && CauseInv(f, s.history, s.derivations[d], s.derivations[d].at.result.error)
      && (s.derivations[d].at.result.error.Broke? ==> Break(d) in run)
  {
    FailureIsNotKept(f, table, run, s, c);
    ReachableInv(f, table, run, s);
    var d := s.calls[c].at.d;
    assert DerivationInv(f, s.history, s.derivations[d]);
    if s.derivations[d].at.result.error.Broke? {
      OnlyBreaksBreak(f, Init(table), run, d);
    }
    hide Legal, After, HistoryInv, CacheInv, DerivationsInv, FlightInv, AbsentInv, CallsInv, CauseInv;
  }

  predicate IsBroken(s: State, d: nat) {
    && d < |s.derivations|
    && match s.derivations[d].at
       case Failing(cause) => cause.Broke?
       case Settled(Err(cause)) => cause.Broke?
       case _ => false
  }

  lemma {:induction false} OnlyBreaksBreak(f: Rasterizer, s: State, run: seq<Action>, d: nat)
    requires Legal(f, s, run) && IsBroken(After(f, s, run), d) && !IsBroken(s, d)
    ensures Break(d) in run
    decreases |run|
  {
    hide Apply, Enabled, IsBroken;
    if run == [] {
    } else {
      var before, a := run[..|run| - 1], run[|run| - 1];
      BreaksBy(f, After(f, s, before), a, d);
      if IsBroken(After(f, s, before), d) {
        OnlyBreaksBreak(f, s, before, d);
      }
      assert run == before + [a];
    }
  }

  lemma BreaksBy(f: Rasterizer, s: State, a: Action, d: nat)
    requires Started(s) && Enabled(s, a) && IsBroken(Apply(f, s, a), d)
    ensures IsBroken(s, d) || a == Break(d)
  {
    hide NameTaken, Remembered, Touched, Get;
  }

  // ---------------------------------------------------------------- nothing stands still, or goes back

  function Rank(at: Deriving): nat {
    match at
    case Reading => 0
    case Decoding(_, _) => 1
    case Storing(_) => 2
    case Settling(_) => 3
    case Failing(_) => 3
    case Settled(_) => 4
  }

  predicate MovesDerivation(a: Action, d: nat) {
    match a
    case ReadData(e) => e == d
    case Dither(e) => e == d
    case Remember(e, _) => e == d
    case Break(e) => e == d
    case Settle(e) => e == d
    case _ => false
  }

  /** A derivation's own steps take it on, and so to an end; no other step touches it, but for its cleanup. */
  lemma DerivationsGoForward(f: Rasterizer, s: State, a: Action, d: nat)
    requires Started(s) && Enabled(s, a) && d < |s.derivations|
    ensures var t := Apply(f, s, a);
      && d < |t.derivations|
      && (MovesDerivation(a, d) ==> Rank(t.derivations[d].at) > Rank(s.derivations[d].at))
      && t.derivations[d] == s.derivations[d].(
           at := if MovesDerivation(a, d) then t.derivations[d].at else s.derivations[d].at,
           cleared := if a == Clear(d) then Some(|s.calls|) else s.derivations[d].cleared)
  {
    hide NameTaken, Remembered, Touched, Get;
  }

  predicate MovesCall(a: Action, c: nat) {
    match a
    case ReadRevision(b) => b == c
    case Resume(b) => b == c
    case Await(b) => b == c
    case _ => false
  }

  function Progress(at: Stage): nat {
    match at
    case Asking => 0
    case Answered(_) => 1
    case NothingThere(_) => 1
    case Waiting(_, _) => 2
    case Returned(_, _, _) => 3
    case Rejected(_, _) => 3
    case Refused(_) => 3
  }

  /** Nor does a call: its own steps take it on, and no other step touches it. */
  lemma CallsGoForward(f: Rasterizer, s: State, a: Action, c: nat)
    requires Started(s) && Enabled(s, a) && c < |s.calls|
    ensures var t := Apply(f, s, a);
      && c < |t.calls|
      && (MovesCall(a, c) ==> Progress(t.calls[c].at) > Progress(s.calls[c].at))
      && t.calls[c] == s.calls[c].(at := if MovesCall(a, c) then t.calls[c].at else s.calls[c].at)
      && (if a.Begin? then t.calls == s.calls + [Call(a.name, a.dots, |s.history| - 1, Asking)]
          else |t.calls| == |s.calls|)
  {
    hide NameTaken, Remembered, Touched, Get;
  }

  /** After a forgetting nothing is held, and no derivation under way is handed to whoever comes next. */
  lemma ForgetForgets(f: Rasterizer, table: Table, run: seq<Action>, s: State, key: RasterKey, d: nat)
    requires Reachable(f, table, run, s)
    ensures Started(s)
    ensures var t := Apply(f, s, Forget);
      t.cache == [] && !IsOpen(t, key, d) && t.derivations == s.derivations && t.calls == s.calls
  {
    ReachableInv(f, table, run, s);
    hide Reachable, CacheInv, DerivationsInv, CallsInv, AbsentInv;
  }
}
