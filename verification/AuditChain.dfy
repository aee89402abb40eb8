/**
 The audit record's hash chain (`chain.ts`, `append.ts`, `verify.ts`, `retention.ts`) and what `drainAudit`
 does to it: the front of the chain leaves for an archive, the anchor takes its place, and one chain remains.
 */
module AuditChain {
  import opened Numbers
  import W = Wrappers

  const BATCH_SIZE := 500

  /** SHA-256 over an event's fields and its predecessor's hash, idealised as collision-free. */
  datatype Hash = Genesis | Digest(at: int, fields: string, prev: Hash)

  datatype Event = Event(seq_: nat, at: int, fields: string, prevHash: Hash, hash: Hash)

  datatype Anchor = None | At(seq_: nat, hash: Hash)

  function HashEvent(e: Event): Hash { Digest(e.at, e.fields, e.prevHash) }

  /** What a walk over `rows` accepts, starting from the hash before them. */
  predicate Verified(rows: seq<Event>, from: Hash) {
    rows == [] || (rows[0].prevHash == from && rows[0].hash == HashEvent(rows[0]) && Verified(rows[1..], rows[0].hash))
  }

  /** The hash a successor of `rows` must name. */
  function End(rows: seq<Event>, from: Hash): Hash {
    if rows == [] then from else rows[|rows| - 1].hash
  }

  predicate Ordered(rows: seq<Event>) {
    forall i, j :: 0 <= i < j < |rows| ==> rows[i].seq_ < rows[j].seq_
  }

  function HashOf(a: Anchor): Hash {
    if a.None? then Genesis else a.hash
  }

  function SeqOf(a: Anchor): nat {
    if a.None? then 0 else a.seq_
  }

  lemma {:induction false} VerifiedConcat(a: seq<Event>, b: seq<Event>, from: Hash)
    ensures Verified(a + b, from) <==> Verified(a, from) && Verified(b, End(a, from))
    ensures End(a + b, from) == End(b, End(a, from))
  {
    if a == [] {
      assert a + b == b;
    } else {
      assert (a + b)[1..] == a[1..] + b;
      VerifiedConcat(a[1..], b, a[0].hash);
      assert End(a[1..], a[0].hash) == End(a, from);
    }
  }

  // ---------------------------------------------------------------- the walk

  function FindEvents(rows: seq<Event>, cursor: nat, boundary: nat, take: nat): seq<Event> {
    if rows == [] || take == 0 then []
    else if cursor < rows[0].seq_ <= boundary then [rows[0]] + FindEvents(rows[1..], cursor, boundary, take - 1)
    else FindEvents(rows[1..], cursor, boundary, take)
  }

  /** On rows in `seq` order a page is a slice: the next `take` after the cursor, up to the boundary. */
  lemma {:induction false} FindEventsIsSlice(rows: seq<Event>, cursor: nat, boundary: nat, take: nat, c: nat, k: nat)
    requires c <= k <= |rows|
    requires forall i :: 0 <= i < c ==> rows[i].seq_ <= cursor
    requires forall i :: c <= i < k ==> cursor < rows[i].seq_ <= boundary
    requires forall i :: k <= i < |rows| ==> rows[i].seq_ > boundary
    ensures FindEvents(rows, cursor, boundary, take) == rows[c..Min(c + take, k)]
    decreases |rows|
  {
    if rows == [] || take == 0 {
    } else if c > 0 {
      FindEventsIsSlice(rows[1..], cursor, boundary, take, c - 1, k - 1);
      SliceOfRest(rows, c, Min(c + take, k));
    } else if k > 0 {
      FindEventsIsSlice(rows[1..], cursor, boundary, take - 1, 0, k - 1);
      SliceWithFirst(rows, Min(take, k));
    } else {
      FindEventsIsSlice(rows[1..], cursor, boundary, take, 0, 0);
    }
  }

  lemma SliceOfRest<T>(rows: seq<T>, a: nat, b: nat)
    requires 1 <= a <= b <= |rows|
    ensures rows[1..][a - 1..b - 1] == rows[a..b]
  {
  }

  lemma SliceWithFirst<T>(rows: seq<T>, b: nat)
    requires 1 <= b <= |rows|
    ensures [rows[0]] + rows[1..][..b - 1] == rows[..b]
  {
  }

  /** Where a walk over `rows` breaks: the first row its predecessors do not carry. */
  ghost predicate BreaksAt(rows: seq<Event>, from: Hash, i: nat) {
    i < |rows| && Verified(rows[..i], from) && !Verified(rows[..i + 1], from)
  }

  lemma PrefixStep(rows: seq<Event>, from: Hash, i: nat)
    requires i < |rows| && Verified(rows[..i], from)
    ensures Verified(rows[..i + 1], from) <==>
              rows[i].prevHash == End(rows[..i], from) && rows[i].hash == HashEvent(rows[i])
    ensures !Verified(rows[..i + 1], from) ==> !Verified(rows, from)
  {
    assert rows[..i + 1] == rows[..i] + [rows[i]];
    VerifiedConcat(rows[..i], [rows[i]], from);
    assert rows == rows[..i + 1] + rows[i + 1..];
    VerifiedConcat(rows[..i + 1], rows[i + 1..], from);
  }

  function Newest(rows: seq<Event>, otherwise: nat): nat {
    if rows == [] then otherwise else rows[|rows| - 1].seq_
  }

  lemma NextBatch(rows: seq<Event>, after: nat, c: nat, take: nat)
    requires Ordered(rows) && (forall e :: e in rows ==> e.seq_ > after) && c <= |rows|
    ensures FindEvents(rows, Newest(rows[..c], after), Newest(rows, after), take) == rows[c..Min(c + take, |rows|)]
  {
    hide FindEvents;
    var cursor, newest := Newest(rows[..c], after), Newest(rows, after);
    if c > 0 {
      assert rows[..c][c - 1] == rows[c - 1];
    }
    forall i | c <= i < |rows| ensures cursor < rows[i].seq_ <= newest {
      assert rows[i] in rows;
    }
    assert forall i :: 0 <= i < c ==> rows[i].seq_ <= cursor;
    hide Newest, Ordered;
    FindEventsIsSlice(rows, cursor, newest, take, c, |rows|);
  }

  /** How a link fails: at the segment's first row against an anchor, further in, or in the row's own hash. */
  datatype ChainBreak = AnchorMismatch | LinkMismatch | HashMismatch

  /** Row `i` fails, and in this way, given that those before it verified. */
  predicate Fails(rows: seq<Event>, from: Hash, anchored: bool, i: nat, reason: ChainBreak)
    requires i < |rows|
  {
    match reason
    case HashMismatch => rows[i].prevHash == End(rows[..i], from) && rows[i].hash != HashEvent(rows[i])
    case AnchorMismatch => rows[i].prevHash != End(rows[..i], from) && i == 0 && anchored
    case LinkMismatch => rows[i].prevHash != End(rows[..i], from) && !(i == 0 && anchored)
  }

  /** What a walk carries from one segment to the next. */
  datatype Position = Position(
    expectedPrevHash: Hash,
    cursor: nat,
    checked: nat,
    firstSeq: W.Option<nat>,
    lastSeq: W.Option<nat>)

  /** Where a walk of rows behind an anchor starts. */
  function From(a: Anchor): Position { Position(HashOf(a), SeqOf(a), 0, W.None, W.None) }

  /** Where a walk from `from` stands once `rows` have verified. */
  function Past(from: Position, rows: seq<Event>): Position {
    if rows == [] then from
    else
      var last := rows[|rows| - 1];
      Position(last.hash, last.seq_, from.checked + |rows|,
               if from.firstSeq.None? then W.Some(rows[0].seq_) else from.firstSeq, W.Some(last.seq_))
  }

  /** What a walk reports: the position the next segment resumes from, or how many rows verified before the break. */
  datatype Walk = Reached(position: Position) | Broken(checked: nat, brokenAt: nat, reason: ChainBreak)

  /** A walk's report is right: the chain reaches its end, or it breaks first at that row and in that way. */
  ghost predicate Reports(rows: seq<Event>, from: Position, anchored: bool, w: Walk) {
    match w
    case Reached(position) =>
      && Verified(rows, from.expectedPrevHash) && position == Past(from, rows)
      && position.expectedPrevHash == End(rows, from.expectedPrevHash) && position.checked == from.checked + |rows|
      && (rows != [] ==> position.cursor == rows[|rows| - 1].seq_ && position.lastSeq == W.Some(rows[|rows| - 1].seq_))
      && (rows != [] && from.firstSeq.None? ==> position.firstSeq == W.Some(rows[0].seq_))
    case Broken(checked, at, reason) =>
      && !Verified(rows, from.expectedPrevHash)
      && exists i: nat :: BreaksAt(rows, from.expectedPrevHash, i) && checked == from.checked + i
           && at == rows[i].seq_ && Fails(rows, from.expectedPrevHash, anchored, i, reason)
  }

  /** Walking two segments in turn is walking them as one, so an archive and what follows it are one walk. */
  lemma WalksInTurn(a: seq<Event>, b: seq<Event>, from: Position)
    ensures Past(Past(from, a), b) == Past(from, a + b)
    ensures Verified(a + b, from.expectedPrevHash) <==>
      Verified(a, from.expectedPrevHash) && Verified(b, Past(from, a).expectedPrevHash)
  {
    VerifiedConcat(a, b, from.expectedPrevHash);
    if b == [] {
      assert a + b == a;
    }
    hide Verified;
  }

  /** One row further. */
  lemma PastStep(rows: seq<Event>, from: Position, i: nat)
    requires i < |rows|
    ensures Past(from, rows[..i + 1]) == Past(Past(from, rows[..i]), [rows[i]])
    ensures Past(from, rows[..i]).expectedPrevHash == End(rows[..i], from.expectedPrevHash)
    ensures Past(from, rows[..i]).checked == from.checked + i
  {
    assert rows[..i + 1] == rows[..i] + [rows[i]];
    WalksInTurn(rows[..i], [rows[i]], from);
    hide Verified;
  }

  method WalkBatch(rows: seq<Event>, from: Position, anchored: bool, c: nat, batch: seq<Event>, start: Position)
    returns (w: Walk)
    requires c + |batch| <= |rows| && batch == rows[c..c + |batch|]
    requires Verified(rows[..c], from.expectedPrevHash) && start == Past(from, rows[..c])
    ensures w.Reached? ==>
      Verified(rows[..c + |batch|], from.expectedPrevHash) && w.position == Past(from, rows[..c + |batch|])
    ensures w.Broken? ==> Reports(rows, from, anchored, w)
  {
    hide Verified, Reports, BreaksAt, End, Fails;
    var position := start;
    for i := 0 to |batch|
      invariant Verified(rows[..c + i], from.expectedPrevHash) && position == Past(from, rows[..c + i])
    {
      var row := batch[i];
      PrefixStep(rows, from.expectedPrevHash, c + i);
      PastStep(rows, from, c + i);
      FailsIs(rows, from.expectedPrevHash, anchored, c + i);
      if row.prevHash != position.expectedPrevHash {
        var reason := if c + i == 0 && anchored then AnchorMismatch else LinkMismatch;
        BreakFound(rows, from, anchored, c + i, reason);
        return Broken(position.checked, row.seq_, reason);
      }
      if HashEvent(row) != row.hash {
        BreakFound(rows, from, anchored, c + i, HashMismatch);
        return Broken(position.checked, row.seq_, HashMismatch);
      }
      position := Position(row.hash, row.seq_, position.checked + 1,
                           if position.firstSeq.None? then W.Some(row.seq_) else position.firstSeq, W.Some(row.seq_));
    }
    w := Reached(position);
  }

  lemma BreakFound(rows: seq<Event>, from: Position, anchored: bool, i: nat, reason: ChainBreak)
    requires i < |rows| && Verified(rows[..i], from.expectedPrevHash) && !Verified(rows[..i + 1], from.expectedPrevHash)
    requires !Verified(rows, from.expectedPrevHash) && Fails(rows, from.expectedPrevHash, anchored, i, reason)
    ensures Reports(rows, from, anchored, Broken(from.checked + i, rows[i].seq_, reason))
  {
    assert BreaksAt(rows, from.expectedPrevHash, i);
    hide Verified, Fails, BreaksAt;
  }

  lemma FailsIs(rows: seq<Event>, from: Hash, anchored: bool, i: nat)
    requires i < |rows|
    ensures rows[i].prevHash != End(rows[..i], from) ==>
      Fails(rows, from, anchored, i, if i == 0 && anchored then AnchorMismatch else LinkMismatch)
    ensures rows[i].prevHash == End(rows[..i], from) && rows[i].hash != HashEvent(rows[i]) ==>
      Fails(rows, from, anchored, i, HashMismatch)
  {
  }

  /**
   `walkSegment`: streams a segment a batch at a time and either reaches its end or names the first row
   that breaks the chain, and how. `anchored` says whether the first hash came from an anchor.
   */
  method WalkSegment(rows: seq<Event>, from: Position, anchored: bool) returns (w: Walk)
    requires Ordered(rows) && forall e :: e in rows ==> e.seq_ > from.cursor
    ensures Reports(rows, from, anchored, w)
  {
    hide FindEvents, Ordered, Verified, BreaksAt;
    var position, c := from, 0;
    assert Verified([], from.expectedPrevHash) && rows[..0] == [] by { Walked0(from.expectedPrevHash); }
    while true
      invariant 0 <= c <= |rows| && Verified(rows[..c], from.expectedPrevHash) && position == Past(from, rows[..c])
      decreases |rows| - c
    {
      NextBatch(rows, from.cursor, c, BATCH_SIZE);
      var batch := FindEvents(rows, position.cursor, Newest(rows, from.cursor), BATCH_SIZE);
      if batch == [] {
        assert rows[..c] == rows;
        return Reached(position);
      }
      w := WalkBatch(rows, from, anchored, c, batch, position);
      if w.Broken? { return; }
      c, position := c + |batch|, w.position;
    }
  }

  lemma Walked0(from: Hash)
    ensures Verified([], from)
  {
  }

  // ---------------------------------------------------------------- the ledger and what may happen to it

  /**
   The live table, its anchor, the last `seq` AUTOINCREMENT gave out, the archives in the order they were
   written, and a record of every event ever appended.
   */
  datatype Ledger = Ledger(live: seq<Event>, anchor: Anchor, issued: nat, archives: seq<seq<Event>>, appended: seq<Event>)

  datatype Draft = Draft(at: int, fields: string)

  function Flatten(archives: seq<seq<Event>>): seq<Event> {
    if archives == [] then [] else archives[0] + Flatten(archives[1..])
  }

  lemma {:induction false} FlattenConcat(a: seq<seq<Event>>, b: seq<seq<Event>>)
    ensures Flatten(a + b) == Flatten(a) + Flatten(b)
  {
    if a == [] {
      assert a + b == b;
    } else {
      assert (a + b)[1..] == a[1..] + b;
      FlattenConcat(a[1..], b);
    }
  }

  lemma FlattenOne(rows: seq<Event>)
    ensures Flatten([rows]) == rows
  {
    assert Flatten([rows]) == rows + Flatten([]);
  }

  /** `tailHash`: the newest live row's hash, else the anchor's, else genesis. */
  function Tail(l: Ledger): Hash { End(l.live, HashOf(l.anchor)) }

  function Next(l: Ledger, d: Draft, prev: Hash): Event {
    Event(l.issued + 1, d.at, d.fields, prev, Digest(d.at, d.fields, prev))
  }

  function Create(l: Ledger, e: Event): Ledger {
    l.(live := l.live + [e], issued := e.seq_, appended := l.appended + [e])
  }

  /** How many rows the boundary takes: up to the newest whose moment is within range, whatever precedes it. */
  function Cut(live: seq<Event>, before: int): (k: nat)
    ensures k <= |live|
    ensures k > 0 ==> live[k - 1].at < before
    ensures forall i :: k <= i < |live| ==> live[i].at >= before
  {
    if live == [] then 0
    else if live[|live| - 1].at < before then |live|
    else Cut(live[..|live| - 1], before)
  }

  function AnchorOn(rows: seq<Event>, otherwise: Anchor): Anchor {
    if rows == [] then otherwise else At(rows[|rows| - 1].seq_, rows[|rows| - 1].hash)
  }

  /** The first `k` live rows leave: what `removeAuditThrough` does once the archive holds them. */
  function Remove(l: Ledger, k: nat): Ledger
    requires k <= |l.live|
  {
    l.(live := l.live[k..], anchor := AnchorOn(l.live[..k], l.anchor), archives := l.archives + [l.live[..k]])
  }

  /** An install whose record so far is only an anchor: nothing (a new one), or what was swept before archiving. */
  function Fresh(base: Anchor): Ledger { Ledger([], base, SeqOf(base), [], []) }

  // ---------------------------------------------------------------- one chain, always

  /** The books: what was appended is archived or live, in order, and the anchor is the last archived event. */
  ghost predicate Books(l: Ledger, base: Anchor) {
    && l.appended == Flatten(l.archives) + l.live
    && l.anchor == AnchorOn(Flatten(l.archives), base)
    && Ordered(l.appended) && SeqOf(base) <= l.issued
    && forall e :: e in l.appended ==> SeqOf(base) < e.seq_ <= l.issued
  }

  /** And every event names its predecessor: the record is one chain. */
  ghost predicate OneChain(l: Ledger, base: Anchor) {
    Books(l, base) && Verified(l.appended, HashOf(base))
  }

  lemma HashOfAnchor(rows: seq<Event>, base: Anchor)
    ensures HashOf(AnchorOn(rows, base)) == End(rows, HashOf(base))
  {
  }

  /** A row created keeps the books, whatever it names as its predecessor. */
  lemma CreateKeepsBooks(l: Ledger, d: Draft, prev: Hash, base: Anchor)
    requires Books(l, base)
    ensures Books(Create(l, Next(l, d, prev)), base)
  {
    hide Flatten, AnchorOn, SeqOf;
    var e := Next(l, d, prev);
    assert Flatten(l.archives) + (l.live + [e]) == l.appended + [e];
    forall i, j | 0 <= i < j < |l.appended + [e]| ensures (l.appended + [e])[i].seq_ < (l.appended + [e])[j].seq_ {
      assert l.appended[i] in l.appended;
    }
  }

  /** The tail names the newest event ever appended, wherever that event is now. */
  lemma TailIsNewest(l: Ledger, base: Anchor)
    requires Books(l, base)
    ensures Tail(l) == End(l.appended, HashOf(base))
    ensures HashOf(l.anchor) == End(l.appended[..|Flatten(l.archives)|], HashOf(base))
  {
    HashOfAnchor(Flatten(l.archives), base);
    assert l.appended[..|Flatten(l.archives)|] == Flatten(l.archives);
    hide Flatten, HashOf;
  }

  /** Moving the front of the live rows behind the anchor moves the anchor, and nothing is lost or reordered. */
  lemma RemoveKeepsBooks(l: Ledger, k: nat, base: Anchor)
    requires Books(l, base) && k <= |l.live|
    ensures Books(Remove(l, k), base) && Flatten(Remove(l, k).archives) == Flatten(l.archives) + l.live[..k]
  {
    hide Flatten, SeqOf, Ordered;
    var front := l.live[..k];
    FlattenConcat(l.archives, [front]);
    FlattenOne(front);
    assert Flatten(l.archives) + l.live == (Flatten(l.archives) + front) + l.live[k..];
  }

  /** On one chain the front verifies from the anchor, so no rotation of it is refused, and one chain is left. */
  lemma RemoveKeepsChain(l: Ledger, k: nat, base: Anchor)
    requires OneChain(l, base) && k <= |l.live|
    ensures Verified(l.live[..k], HashOf(l.anchor))
    ensures OneChain(Remove(l, k), base) && Verified(Remove(l, k).live, HashOf(Remove(l, k).anchor))
  {
    hide Flatten, Verified, Ordered, SeqOf, HashOf, AnchorOn;
    RemoveKeepsBooks(l, k, base);
    LiveVerifies(l, base);
    LiveVerifies(Remove(l, k), base);
    assert l.live == l.live[..k] + l.live[k..];
    VerifiedConcat(l.live[..k], l.live[k..], HashOf(l.anchor));
  }

  lemma LiveVerifies(l: Ledger, base: Anchor)
    requires OneChain(l, base)
    ensures Verified(l.live, HashOf(l.anchor))
  {
    hide Flatten, Verified, Ordered, SeqOf, HashOf;
    HashOfAnchor(Flatten(l.archives), base);
    VerifiedConcat(Flatten(l.archives), l.live, HashOf(base));
  }

  /** On one chain each archive verifies from where the ones before it end. */
  lemma EachArchiveVerifies(archives: seq<seq<Event>>, from: Hash, i: nat)
    requires i < |archives| && Verified(Flatten(archives), from)
    ensures Verified(archives[i], End(Flatten(archives[..i]), from))
  {
    hide Verified, Flatten;
    var a, b, c := archives[..i], archives[i], archives[i + 1..];
    assert archives == a + [b] + c;
    FlattenConcat(a + [b], c);
    FlattenConcat(a, [b]);
    FlattenOne(b);
    VerifiedConcat(Flatten(a + [b]), Flatten(c), from);
    VerifiedConcat(Flatten(a), b, from);
  }

  // ---------------------------------------------------------------- what others do meanwhile

  /** The row `create` an append ends with: SQLite's unique index lets it in unless a live row has that predecessor. */
  predicate Accepted(l: Ledger, prev: Hash) {
    forall e :: e in l.live ==> e.prevHash != prev
  }

  datatype Step = Creating(d: Draft, prev: Hash) | Removing(k: nat)

  function Taken(l: Ledger, step: Step): Ledger {
    match step
    case Creating(d, prev) => if Accepted(l, prev) then Create(l, Next(l, d, prev)) else l
    case Removing(k) => if k <= |l.live| then Remove(l, k) else l
  }

  function TakenAll(l: Ledger, steps: seq<Step>): Ledger {
    if steps == [] then l else Taken(TakenAll(l, steps[..|steps| - 1]), steps[|steps| - 1])
  }

  lemma OneMoreStep(l: Ledger, steps: seq<Step>, step: Step)
    ensures TakenAll(l, steps + [step]) == Taken(TakenAll(l, steps), step)
  {
    assert (steps + [step])[..|steps|] == steps;
  }

  lemma {:induction false} TakenInTurn(l: Ledger, a: seq<Step>, b: seq<Step>)
    ensures TakenAll(l, a + b) == TakenAll(TakenAll(l, a), b)
  {
    if b == [] {
      assert a + b == a;
    } else {
      assert (a + b)[..|a + b| - 1] == a + b[..|b| - 1];
      TakenInTurn(l, a, b[..|b| - 1]);
    }
    hide Taken;
  }

  predicate OnlyCreates(steps: seq<Step>) { forall i :: 0 <= i < |steps| ==> steps[i].Creating? }

  ghost predicate InOrder(l: Ledger) {
    && Ordered(l.live) && SeqOf(l.anchor) <= l.issued
    && forall e :: e in l.live ==> SeqOf(l.anchor) < e.seq_ <= l.issued
  }

  /** What a rotation may rely on: the rows it is about to move are still there, in front, behind the same anchor. */
  ghost predicate Behind(l: Ledger, m: Ledger) {
    && InOrder(m) && m.anchor == l.anchor && m.archives == l.archives
    && |l.live| <= |m.live| && m.live[..|l.live|] == l.live
  }

  lemma CreateGoesBehind(l: Ledger, m: Ledger, d: Draft, prev: Hash)
    requires Behind(l, m)
    ensures Behind(l, Create(m, Next(m, d, prev)))
  {
    hide SeqOf;
    var e := Next(m, d, prev);
    forall i, j | 0 <= i < j < |m.live + [e]| ensures (m.live + [e])[i].seq_ < (m.live + [e])[j].seq_ {
      assert m.live[i] in m.live;
    }
    assert forall x :: x in m.live + [e] ==> x in m.live || x == e;
  }

  lemma {:induction false} CreatesGoBehind(l: Ledger, steps: seq<Step>)
    requires InOrder(l) && OnlyCreates(steps)
    ensures Behind(l, TakenAll(l, steps))
  {
    if steps == [] {
    } else {
      var before, last := steps[..|steps| - 1], steps[|steps| - 1];
      CreatesGoBehind(l, before);
      CreateGoesBehind(l, TakenAll(l, before), last.d, last.prev);
    }
    hide Behind, Accepted;
  }

  function Find(rows: seq<Event>, seq_: nat): (e: seq<Event>)
    ensures |e| <= 1 && forall x :: x in e ==> x in rows && x.seq_ == seq_
    ensures (exists x :: x in rows && x.seq_ == seq_) ==> |e| == 1
  {
    if rows == [] then [] else if rows[0].seq_ == seq_ then [rows[0]] else Find(rows[1..], seq_)
  }

  function After(rows: seq<Event>, boundary: nat): seq<Event> {
    if rows == [] then []
    else if rows[0].seq_ <= boundary then After(rows[1..], boundary)
    else [rows[0]] + After(rows[1..], boundary)
  }

  lemma {:induction false} AfterIsSlice(rows: seq<Event>, boundary: nat, k: nat)
    requires k <= |rows|
    requires forall i :: 0 <= i < k ==> rows[i].seq_ <= boundary
    requires forall i :: k <= i < |rows| ==> rows[i].seq_ > boundary
    ensures After(rows, boundary) == rows[k..]
  {
    if rows == [] {
    } else if k == 0 {
      AfterIsSlice(rows[1..], boundary, 0);
    } else {
      AfterIsSlice(rows[1..], boundary, k - 1);
    }
  }

  /** Where archived history begins: claimed by the first removal ever, and not moved by any after it. */
  datatype Epoch = Unclaimed | Claimed(seq_: nat, prevHash: Hash)

  function ClaimEpoch(epoch: Epoch, removed: seq<Event>): Epoch {
    if epoch.Unclaimed? && removed != [] then Claimed(removed[0].seq_, removed[0].prevHash) else epoch
  }

  /** The audit database, and what is on record about it. */
  class AuditDb {
    var live: seq<Event>
    var anchor: Anchor
    var issued: nat
    var epoch: Epoch
    ghost var archives: seq<seq<Event>>
    ghost var appended: seq<Event>

    ghost function View(): Ledger
      reads this
    {
      Ledger(live, anchor, issued, archives, appended)
    }

    constructor (base: Anchor)
      ensures View() == Fresh(base) && InOrder(View()) && epoch == Unclaimed
    {
      epoch := Unclaimed;
      live, anchor, issued, archives, appended := [], base, SeqOf(base), [], [];
    }

    /** An insert: refused when a live row has the same predecessor. */
    method CreateRow(d: Draft, prev: Hash) returns (created: bool)
      modifies this
      ensures epoch == old(epoch) && (created <==> forall e :: e in old(live) ==> e.prevHash != prev)
      ensures created ==> Adds(old(View()), d, prev, View())
      ensures View() == Taken(old(View()), Creating(d, prev))
    {
      created := forall e :: e in live ==> e.prevHash != prev;
      if created {
        var e := Event(issued + 1, d.at, d.fields, prev, Digest(d.at, d.fields, prev));
        live, issued, appended := live + [e], issued + 1, appended + [e];
      }
    }

    /** Whatever others do while this code awaits: rows created on any predecessor, and, where said, rotations. */
    method Others(ghost l: Ledger, ghost sofar: seq<Step>, rotations: bool) returns (ghost steps: seq<Step>)
      requires View() == TakenAll(l, sofar)
      modifies this
      ensures View() == TakenAll(l, steps) && sofar <= steps
      ensures !rotations ==> epoch == old(epoch) && (OnlyCreates(sofar) ==> OnlyCreates(steps))
    {
      hide TakenAll;
      steps := sofar;
      var n: int := *;
      while n > 0
        invariant !rotations ==> epoch == old(epoch)
        invariant View() == TakenAll(l, steps) && sofar <= steps
        invariant !rotations && OnlyCreates(sofar) ==> OnlyCreates(steps)
      {
        n := n - 1;
        var k: nat, rotate: bool := *, *;
        if rotations && rotate && k <= |live| {
          OneMoreStep(l, steps, Removing(k));
          epoch := ClaimEpoch(epoch, live[..k]);
          archives, anchor := archives + [live[..k]], AnchorOn(live[..k], anchor);
          live, steps := live[k..], steps + [Removing(k)];
        } else {
          var d: Draft, prev: Hash := *, *;
          OneMoreStep(l, steps, Creating(d, prev));
          var _ := CreateRow(d, prev);
          steps := steps + [Creating(d, prev)];
        }
      }
    }

    /**
     `appendAuditEvent`: reads the tail, or the anchor when the table was empty, and inserts a row naming it, trying
     again while another row has that predecessor. Others run between any two of these; `steps` is what they did. It
     gives up only when five inserts were refused.
     */
    method AppendEvent(d: Draft) returns (recorded: bool, ghost steps: seq<Step>, ghost tries: seq<Try>)
      modifies this
      ensures |tries| <= 5 && forall i :: 0 <= i < |tries| ==> tries[i].Within(steps)
      ensures forall i :: 0 <= i < |tries| && (recorded ==> i < |tries| - 1) ==> !Succeeds(old(View()), steps, tries[i])
      ensures !recorded ==> |tries| == 5 && View() == TakenAll(old(View()), steps)
      ensures recorded ==> tries != [] && Appended(old(View()), steps, tries[|tries| - 1], d, View())
    {
      hide TakenAll, Succeeds, Appended, Adds;
      ghost var l := View();
      steps, tries := [], [];
      assert View() == TakenAll(l, []) by { NoSteps(l); }
      for attempt := 1 to MAX_CHAIN_ATTEMPTS + 1
        invariant View() == TakenAll(l, steps) && |tries| == attempt - 1
        invariant forall i :: 0 <= i < |tries| ==> tries[i].Within(steps) && !Succeeds(l, steps, tries[i])
      {
        ghost var was := steps;
        var prev;
        ghost var first, second;
        prev, steps, first, second := TailHash(l, steps);
        steps := Others(l, steps, true);
        ghost var t := Try(|first|, |second|, |steps|);
        assert steps[..t.read] == first && steps[..t.anchored] == second && steps[..t.at] == steps;
        StillRefused(l, was, steps, tries);
        ghost var m := View();
        recorded := CreateRow(d, prev);
        TryIs(l, steps, t, prev, m);
        tries := tries + [t];
        if recorded {
          AppendedBy(l, steps, t, d, prev, m, View());
          return;
        }
      }
      recorded := false;
    }

    /** `tailHash`: the newest live row's hash, or, there being none, the anchor's, or genesis. */
    method TailHash(ghost l: Ledger, ghost sofar: seq<Step>)
      returns (prev: Hash, ghost steps: seq<Step>, ghost first: seq<Step>, ghost second: seq<Step>)
      requires View() == TakenAll(l, sofar)
      modifies this
      ensures View() == TakenAll(l, steps) && sofar <= first <= second <= steps
      ensures prev == TailRead(TakenAll(l, first), TakenAll(l, second))
    {
      hide TakenAll;
      steps := Others(l, sofar, true);
      first, second := steps, steps;
      prev := End(live, Genesis);
      if live == [] {
        steps := Others(l, steps, true);
        second := steps;
        prev := HashOf(anchor);
      }
    }

    /** `removeAuditThrough`: one transaction claims the epoch, drops the front and moves the anchor onto its last row. */
    method RemoveAuditThrough(boundary: nat, ghost k: nat)
      requires InOrder(View()) && k <= |live| && boundary == Newest(live[..k], 0)
      modifies this
      ensures View() == Remove(old(View()), k) && FrontGone(old(View()), k, View())
      ensures old(epoch).Claimed? || k == 0 ==> epoch == old(epoch)
      ensures old(epoch).Unclaimed? && k > 0 ==> epoch == Claimed(old(live)[0].seq_, old(live)[0].prevHash)
    {
      archives := archives + [live[..k]];
      if boundary == 0 {
        return;
      }
      var last := Find(live, boundary);
      assert live[k - 1] in live;
      if last == [] {
        return;
      }
      AfterIsSlice(live, boundary, k);
      assert last[0] == live[k - 1] by {
        assert last[0] in live;
        var i :| 0 <= i < |live| && live[i] == last[0];
      }
      if epoch.Unclaimed? {
        epoch := Claimed(live[0].seq_, live[0].prevHash);
      }
      live, anchor := After(live, boundary), At(last[0].seq_, last[0].hash);
    }

    /** The paging loop: copies the rows up to the boundary, a page at a time, while others create rows. */
    method CopyFront(ghost l: Ledger, ghost k: nat, boundary: nat, ghost sofar: seq<Step>)
      returns (copied: seq<Event>, count: nat, ghost steps: seq<Step>)
      requires View() == TakenAll(l, sofar) && InOrder(l) && OnlyCreates(sofar)
      requires k <= |l.live| && boundary == Newest(l.live[..k], 0)
      modifies this
      ensures View() == TakenAll(l, steps) && OnlyCreates(steps) && epoch == old(epoch)
      ensures copied == l.live[..k] && count == k
    {
      hide TakenAll, FindEvents, InOrder, OnlyCreates;
      copied, count, steps := [], 0, sofar;
      var cursor := 0;
      while cursor < boundary
        invariant View() == TakenAll(l, steps) && OnlyCreates(steps) && epoch == old(epoch)
        invariant count <= k && copied == l.live[..count] && cursor == Newest(l.live[..count], 0)
        decreases k - count
      {
        steps := Others(l, steps, false);
        CreatesGoBehind(l, steps);
        PageOfFront(View(), l, k, count);
        var page := FindEvents(live, cursor, boundary, BATCH_SIZE);
        if page == [] {
          break;
        }
        copied, count := copied + page, count + |page|;
        cursor := page[|page| - 1].seq_;
      }
      assert count == k by {
        if count < k {
          FrontIsBelow(l, count, k);
        }
      }
    }

    /**
     `drainAudit`, with rows created on any predecessor between its statements, and a failure or the end of the
     process possible at any of them. The rows up to its boundary move, together and as they were, exactly when they
     verify from the anchor and nothing failed; otherwise nothing moves.
     */
    method DrainAudit(before: int) returns (outcome: Drained, ghost faulted: bool, ghost steps: seq<Step>)
      requires InOrder(View())
      modifies this
      ensures DrainedTo(old(View()), steps, before, outcome.Moved?, View())
      ensures var k := Cut(old(live), before);
        && (outcome.Moved? <==> !faulted && Verified(old(live)[..k], HashOf(old(anchor))))
        && (outcome.Moved? ==> outcome.count == k)
        && (outcome.Moved? && old(epoch).Unclaimed? && k > 0 ==>
              epoch == Claimed(old(live)[0].seq_, old(live)[0].prevHash))
        && (!outcome.Moved? || old(epoch).Claimed? || k == 0 ==> epoch == old(epoch))
    {
      hide Verified, Ordered, FindEvents, After, TakenAll, Remove, HashOf, SeqOf, OnlyCreates, Reports, DrainedTo,
        FrontGone, InOrder;
      ghost var l := View();
      var k := Cut(live, before);
      var boundary, anchored := Newest(live[..k], 0), anchor;
      var copied, count;
      outcome, faulted, steps := Threw, true, [];
      assert View() == TakenAll(l, []) && OnlyCreates([]) by { NoSteps(l); }
      FrontStays(l, steps, k);
      DrainIs(l, steps, before, false, l);
      var fault: bool := *;
      if fault { return; }
      steps := Others(l, steps, false);
      copied, count, steps := CopyFront(l, k, boundary, steps);
      InOrderPrefix(l, k);
      var walk := WalkSegment(copied, From(anchored), anchored.At?);
      steps := Others(l, steps, false);
      FrontStays(l, steps, k);
      DrainIs(l, steps, before, false, View());
      fault := *;
      if fault {
        var killed: bool := *;
        return if killed then Died else Threw, true, steps;
      }
      faulted := false;
      WalkDecides(copied, From(anchored), anchored.At?, walk);
      if walk.Broken? { return; }
      RemoveAuditThrough(boundary, k);
      DrainIs(l, steps, before, true, View());
      outcome := Moved(count);
    }
  }

  /** How many times a losing writer reads the tail again. */
  const MAX_CHAIN_ATTEMPTS := 5

  datatype Drained = Moved(count: nat) | Threw | Died

  /** What `tailHash` read: the newest live row's hash, or, had there been none, the anchor's a moment later. */
  function TailRead(atRead: Ledger, atAnchor: Ledger): Hash {
    if atRead.live != [] then End(atRead.live, Genesis) else HashOf(atAnchor.anchor)
  }

  /** One attempt: how much others had done when it read the live rows, when it read the anchor, and when it inserted. */
  datatype Try = Try(read: nat, anchored: nat, at: nat) {
    predicate Within(steps: seq<Step>) { read <= anchored <= at <= |steps| }
  }

  /** No live row named what the attempt had read. */
  predicate Succeeds(l: Ledger, steps: seq<Step>, t: Try)
    requires t.Within(steps)
  {
    var prev := TailRead(TakenAll(l, steps[..t.read]), TakenAll(l, steps[..t.anchored]));
    forall e :: e in TakenAll(l, steps[..t.at]).live ==> e.prevHash != prev
  }

  /** One event more, live and on record: the draft's, behind `prev`, and newer than any before it. */
  predicate Adds(l: Ledger, d: Draft, prev: Hash, t: Ledger) {
    && |t.live| == |l.live| + 1 && t.live[..|l.live|] == l.live
    && var e := t.live[|l.live|];
    && e.at == d.at && e.fields == d.fields && e.prevHash == prev && e.hash == Digest(d.at, d.fields, prev)
    && e.seq_ > l.issued && t.issued == e.seq_
    && t.appended == l.appended + [e] && t.anchor == l.anchor && t.archives == l.archives
  }

  lemma CreateAdds(l: Ledger, d: Draft, prev: Hash)
    ensures Adds(l, d, prev, Create(l, Next(l, d, prev)))
  {
  }

  /** An append on `l` that left `t`: others had taken `steps`, and this attempt's row went in behind what it read. */
  predicate Appended(l: Ledger, steps: seq<Step>, attempt: Try, d: Draft, t: Ledger) {
    && attempt.Within(steps) && attempt.at == |steps| && Succeeds(l, steps, attempt)
    && Adds(TakenAll(l, steps), d, TailRead(TakenAll(l, steps[..attempt.read]), TakenAll(l, steps[..attempt.anchored])), t)
  }

  lemma TryIs(l: Ledger, steps: seq<Step>, t: Try, prev: Hash, m: Ledger)
    requires t.Within(steps) && t.at == |steps| && m == TakenAll(l, steps)
    requires prev == TailRead(TakenAll(l, steps[..t.read]), TakenAll(l, steps[..t.anchored]))
    ensures Succeeds(l, steps, t) <==> forall e :: e in m.live ==> e.prevHash != prev
  {
    hide TakenAll, TailRead;
    assert steps[..t.at] == steps;
  }

  lemma AppendedBy(l: Ledger, steps: seq<Step>, t: Try, d: Draft, prev: Hash, m: Ledger, after: Ledger)
    requires t.Within(steps) && t.at == |steps| && Succeeds(l, steps, t) && m == TakenAll(l, steps)
    requires prev == TailRead(TakenAll(l, steps[..t.read]), TakenAll(l, steps[..t.anchored])) && Adds(m, d, prev, after)
    ensures Appended(l, steps, t, d, after)
  {
    hide TakenAll, TailRead, Succeeds, Adds;
  }

  /** What others do later does not change what was refused before. */
  lemma StillRefused(l: Ledger, was: seq<Step>, steps: seq<Step>, tries: seq<Try>)
    requires was <= steps && forall i :: 0 <= i < |tries| ==> tries[i].Within(was) && !Succeeds(l, was, tries[i])
    ensures forall i :: 0 <= i < |tries| ==> tries[i].Within(steps) && !Succeeds(l, steps, tries[i])
  {
    hide TakenAll, TailRead;
    forall i | 0 <= i < |tries| ensures tries[i].Within(steps) && !Succeeds(l, steps, tries[i]) {
      var t := tries[i];
      assert was[..t.read] == steps[..t.read] && was[..t.anchored] == steps[..t.anchored] && was[..t.at] == steps[..t.at];
    }
  }

  /** The first `k` live rows left, together and as they were, and the anchor is on the last of them. */
  predicate FrontGone(l: Ledger, k: nat, t: Ledger)
    requires k <= |l.live|
  {
    && t.live == l.live[k..] && t.archives == l.archives + [l.live[..k]]
    && t.anchor == (if k == 0 then l.anchor else At(l.live[k - 1].seq_, l.live[k - 1].hash))
    && t.appended == l.appended && t.issued == l.issued
  }

  lemma RemoveTakesFront(l: Ledger, k: nat)
    requires k <= |l.live|
    ensures FrontGone(l, k, Remove(l, k))
  {
  }

  /** A drain on `l` that left `t`: others only created rows, and the front up to the boundary went as it was, or stayed. */
  predicate DrainedTo(l: Ledger, steps: seq<Step>, before: int, moved: bool, t: Ledger) {
    var m, k := TakenAll(l, steps), Cut(l.live, before);
    && OnlyCreates(steps) && k <= |m.live| && m.live[..k] == l.live[..k]
    && if moved then FrontGone(m, k, t) else t == m
  }

  lemma DrainIs(l: Ledger, steps: seq<Step>, before: int, moved: bool, t: Ledger)
    requires var m, k := TakenAll(l, steps), Cut(l.live, before);
      && OnlyCreates(steps) && k <= |m.live| && m.live[..k] == l.live[..k]
      && if moved then FrontGone(m, k, t) else t == m
    ensures DrainedTo(l, steps, before, moved, t)
  {
  }

  lemma NoSteps(l: Ledger)
    ensures TakenAll(l, []) == l && OnlyCreates([])
  {
  }

  lemma FrontStays(l: Ledger, steps: seq<Step>, k: nat)
    requires InOrder(l) && OnlyCreates(steps) && k <= |l.live|
    ensures var m := TakenAll(l, steps);
      InOrder(m) && m.anchor == l.anchor && k <= |m.live| && m.live[..k] == l.live[..k]
  {
    CreatesGoBehind(l, steps);
    var m := TakenAll(l, steps);
    hide TakenAll, InOrder;
    assert m.live[..k] == m.live[..|l.live|][..k];
  }

  lemma WalkDecides(rows: seq<Event>, from: Position, anchored: bool, w: Walk)
    requires Reports(rows, from, anchored, w)
    ensures w.Reached? <==> Verified(rows, from.expectedPrevHash)
  {
  }

  lemma InOrderPrefix(l: Ledger, k: nat)
    requires InOrder(l) && k <= |l.live|
    ensures Ordered(l.live[..k]) && forall e :: e in l.live[..k] ==> e.seq_ > SeqOf(l.anchor)
  {
  }

  /** A row before the boundary is below it, so the loop does not stop short. */
  lemma FrontIsBelow(l: Ledger, c: nat, k: nat)
    requires InOrder(l) && c < k <= |l.live|
    ensures Newest(l.live[..c], 0) < Newest(l.live[..k], 0)
  {
    assert l.live[k - 1] in l.live;
  }

  lemma PageOfFront(now: Ledger, l: Ledger, k: nat, c: nat)
    requires Behind(l, now) && c <= k <= |l.live|
    requires Newest(l.live[..c], 0) < Newest(l.live[..k], 0)
    ensures c < k
    ensures FindEvents(now.live, Newest(l.live[..c], 0), Newest(l.live[..k], 0), BATCH_SIZE)
              == l.live[c..Min(c + BATCH_SIZE, k)]
  {
    hide FindEvents;
    var live, front := now.live, l.live;
    assert forall i :: 0 <= i < |front| ==> live[i] == live[..|front|][i] == front[i];
    FindEventsIsSlice(live, Newest(front[..c], 0), Newest(front[..k], 0), BATCH_SIZE, c, k);
    assert live[c..Min(c + BATCH_SIZE, k)] == front[c..Min(c + BATCH_SIZE, k)];
  }

  // ---------------------------------------------------------------- an append that waited too long

  function Depth(h: Hash): nat {
    if h.Genesis? then 0 else 1 + Depth(h.prev)
  }

  lemma {:induction false} DepthAlong(rows: seq<Event>, from: Hash, i: nat)
    requires Verified(rows, from) && i <= |rows|
    ensures Depth(End(rows[..i], from)) == Depth(from) + i
    ensures i < |rows| ==> rows[i].prevHash == End(rows[..i], from)
  {
    if i == 0 {
    } else {
      DepthAlong(rows[1..], rows[0].hash, i - 1);
      assert rows[..i] == [rows[0]] + rows[1..][..i - 1];
      assert End(rows[1..][..i - 1], rows[0].hash) == End(rows[..i], from);
    }
  }

  /**
   An append reads the tail, awaits, and then creates its row. The hash it read was the tail once: the end of
   the first `i` events. Its row is let in if that is still the tail, or if the event that took its place has
   since been archived, where the unique index no longer sees it; and only in the first case is the record
   still one chain. So a stale append is caught unless a rotation removed the row that overtook it.
   */
  lemma StaleAppend(l: Ledger, base: Anchor, i: nat, d: Draft)
    requires OneChain(l, base) && i <= |l.appended|
    ensures var prev := End(l.appended[..i], HashOf(base));
      var created := Create(l, Next(l, d, prev));
      && (Accepted(l, prev) <==> i == |l.appended| || i < |Flatten(l.archives)|)
      && (OneChain(created, base) <==> i == |l.appended|)
  {
    AcceptedUnlessOvertaken(l, base, i);
    JoinsOnlyAtTail(l, base, i, d);
  }

  lemma AcceptedUnlessOvertaken(l: Ledger, base: Anchor, i: nat)
    requires OneChain(l, base) && i <= |l.appended|
    ensures Accepted(l, End(l.appended[..i], HashOf(base))) <==> i == |l.appended| || i < |Flatten(l.archives)|
  {
    var prev := End(l.appended[..i], HashOf(base));
    var a := |Flatten(l.archives)|;
    forall j | 0 <= j < |l.live| ensures l.live[j].prevHash == prev <==> a + j == i {
      NamesOnlyItsPredecessor(l.appended, HashOf(base), i, a + j);
      assert l.live[j] == l.appended[a + j];
    }
    hide Flatten, End, Verified, Ordered, HashOf, AnchorOn, SeqOf;
    if a <= i < |l.appended| {
      assert l.live[i - a] in l.live;
    }
  }

  lemma NamesOnlyItsPredecessor(rows: seq<Event>, from: Hash, i: nat, j: nat)
    requires Verified(rows, from) && i <= |rows| && j < |rows|
    ensures rows[j].prevHash == End(rows[..i], from) <==> j == i
  {
    DepthAlong(rows, from, i);
    DepthAlong(rows, from, j);
    hide Depth, Verified, End;
  }

  lemma JoinsOnlyAtTail(l: Ledger, base: Anchor, i: nat, d: Draft)
    requires OneChain(l, base) && i <= |l.appended|
    ensures OneChain(Create(l, Next(l, d, End(l.appended[..i], HashOf(base)))), base) <==> i == |l.appended|
  {
    var prev := End(l.appended[..i], HashOf(base));
    var e := Next(l, d, prev);
    TailIsUnique(l.appended, HashOf(base), i) by { assert OneChain(l, base); }
    VerifiedConcat(l.appended, [e], HashOf(base));
    LinksTo(e, End(l.appended, HashOf(base)));
    hide Flatten, Verified, End, HashOf;
    assert Flatten(l.archives) + (l.live + [e]) == l.appended + [e];
  }

  lemma TailIsUnique(rows: seq<Event>, from: Hash, i: nat)
    requires Verified(rows, from) && i <= |rows|
    ensures End(rows[..i], from) == End(rows, from) <==> i == |rows|
  {
    DepthAlong(rows, from, i);
    DepthAlong(rows, from, |rows|);
    assert rows[..|rows|] == rows;
    hide Depth;
  }

  lemma LinksTo(e: Event, from: Hash)
    requires e.hash == HashEvent(e)
    ensures Verified([e], from) <==> e.prevHash == from
  {
    assert [e][1..] == [];
  }

  // ---------------------------------------------------------------- what the chain is for

  /**
   The record is tamper-evident: two chains that verify from the same place and end on the same hash hold the same
   events, in the same order. Nothing in a record can have been altered, dropped, added or moved but what changes its
   end. (A row's `seq` is not covered; its place in the chain is.)
   */
  lemma {:induction false} SameEndSameEvents(a: seq<Event>, b: seq<Event>, from: Hash)
    requires Verified(a, from) && Verified(b, from) && End(a, from) == End(b, from)
    ensures |a| == |b|
    ensures forall i :: 0 <= i < |a| ==>
      a[i].at == b[i].at && a[i].fields == b[i].fields && a[i].prevHash == b[i].prevHash && a[i].hash == b[i].hash
    decreases |a|
  {
    DepthAlong(a, from, |a|);
    DepthAlong(b, from, |b|);
    assert a[..|a|] == a && b[..|b|] == b;
    if a == [] {
    } else {
      var n := |a| - 1;
      LastOf(a, from);
      LastOf(b, from);
      SameEndSameEvents(a[..n], b[..n], from);
      forall i | 0 <= i < |a|
        ensures a[i].at == b[i].at && a[i].fields == b[i].fields && a[i].prevHash == b[i].prevHash && a[i].hash == b[i].hash
      {
        if i < n {
          assert a[i] == a[..n][i] && b[i] == b[..n][i];
        }
      }
    }
  }

  lemma LastOf(rows: seq<Event>, from: Hash)
    requires Verified(rows, from) && rows != []
    ensures var n := |rows| - 1;
      Verified(rows[..n], from) && rows[n].prevHash == End(rows[..n], from) && rows[n].hash == HashEvent(rows[n])
  {
    var n := |rows| - 1;
    assert rows == rows[..n] + [rows[n]];
    VerifiedConcat(rows[..n], [rows[n]], from);
  }
}
