/**
 Appends and rotations of the audit record, interleaved (`append.ts`, `drainAudit` of `rotate.ts`). An append reads
 the clock when it is called, the tail at one instant, the anchor at another if there was no tail, and inserts its row
 at a third; a rotation fixes its rows at one instant and removes them at another. What each wrote and when is
 recorded for the statements; no action decides by it.
 */
module AuditAppends {
  import opened AuditChain
  import opened Numbers
  import C = Calendar

  /** `seen` and `read` are how many events the hash in hand was known to follow. */
  datatype Phase =
    | Asking
    | SawEmpty(seen: nat)
    | Ready(prev: Hash, read: nat)
    | Recorded
    | GaveUp

  datatype Writer = Writer(draft: Draft, attempt: nat, phase: Phase)

  datatype Rotation = Idle | Cutting(k: nat)

  /**
   `retention` is the shortest window in force during the run, `created` the clock at each event's insert, `slowest`
   the longest any event took from its call to its insert, `stale` whether an insert ever named a predecessor that
   had a successor already, and `recorders` which writer recorded each event.
   */
  datatype State = State(
    ledger: Ledger,
    writers: seq<Writer>,
    rotation: Rotation,
    clock: int,
    retention: int,
    created: seq<int>,
    slowest: int,
    stale: bool,
    recorders: seq<nat>)

  datatype Action =
    | Tick(to: int)
    | Begin(fields: string)
    | ReadLive(i: nat)
    | ReadAnchor(i: nat)
    | Insert(i: nat)
    | Abandon(i: nat)
    | StartRotation(month: int)
    | EndRotation
    | StopRotation

  predicate Enabled(s: State, a: Action) {
    match a
    case Tick(to) => to >= s.clock
    case Begin(_) => true
    case ReadLive(i) => i < |s.writers| && s.writers[i].phase.Asking?
    case ReadAnchor(i) => i < |s.writers| && s.writers[i].phase.SawEmpty?
    case Insert(i) => i < |s.writers| && s.writers[i].phase.Ready?
    case Abandon(i) => i < |s.writers| && !s.writers[i].phase.Recorded?
    case StartRotation(month) => s.rotation.Idle? && C.FullyAged(month, s.clock - s.retention)
    case EndRotation => s.rotation.Cutting? && s.rotation.k <= |s.ledger.live|
    case StopRotation => true
  }

  function At(s: State, i: nat, phase: Phase): State
    requires i < |s.writers|
  {
    s.(writers := s.writers[i := s.writers[i].(phase := phase)])
  }

  function Archived(l: Ledger): nat { |Flatten(l.archives)| }

  /** The insert: let in, or refused by the unique index and tried again, five times in all. */
  function Inserted(s: State, i: nat): State
    requires i < |s.writers| && s.writers[i].phase.Ready?
  {
    var w := s.writers[i];
    if Accepted(s.ledger, w.phase.prev) then
      At(s, i, Recorded).(
        ledger := Create(s.ledger, Next(s.ledger, w.draft, w.phase.prev)),
        created := s.created + [s.clock],
        slowest := Max(s.slowest, s.clock - w.draft.at),
        stale := s.stale || w.phase.read < |s.ledger.appended|,
        recorders := s.recorders + [i])
    else if w.attempt + 1 < MAX_CHAIN_ATTEMPTS then
      s.(writers := s.writers[i := Writer(w.draft, w.attempt + 1, Asking)])
    else At(s, i, GaveUp)
  }

  function Apply(s: State, a: Action): State
    requires Enabled(s, a)
  {
    match a
    case Tick(to) => s.(clock := to)
    case Begin(fields) => s.(writers := s.writers + [Writer(Draft(s.clock, fields), 0, Asking)])
    case ReadLive(i) =>
      var l := s.ledger;
      At(s, i, if l.live == [] then SawEmpty(Archived(l)) else Ready(End(l.live, Genesis), |l.appended|))
    case ReadAnchor(i) => At(s, i, Ready(HashOf(s.ledger.anchor), Archived(s.ledger)))
    case Insert(i) => Inserted(s, i)
    case Abandon(i) => At(s, i, GaveUp)
    case StartRotation(month) => s.(rotation := Cutting(Cut(s.ledger.live, C.FirstInstant(month + 1))))
    case EndRotation =>
      var k, l := s.rotation.k, s.ledger;
      s.(rotation := Idle, ledger := if Verified(l.live[..k], HashOf(l.anchor)) then Remove(l, k) else l)
    case StopRotation => s.(rotation := Idle)
  }

  function Init(base: Anchor, clock: int, retention: int): State {
    State(Fresh(base), [], Idle, clock, retention, [], 0, false, [])
  }

  ghost predicate Legal(s: State, run: seq<Action>)
    decreases |run|, 0
  {
    run == [] || (Legal(s, run[..|run| - 1]) && Enabled(After(s, run[..|run| - 1]), run[|run| - 1]))
  }

  ghost function After(s: State, run: seq<Action>): State
    requires Legal(s, run)
    decreases |run|, 1
  {
    if run == [] then s else Apply(After(s, run[..|run| - 1]), run[|run| - 1])
  }

  // ---------------------------------------------------------------- the invariant

  /** Every event from the `n`-th on was inserted at or after a moment. */
  ghost predicate SinceThen(created: seq<int>, n: nat, moment: int) {
    forall j :: n <= j < |created| ==> created[j] >= moment
  }

  ghost predicate WriterInv(l: Ledger, base: Anchor, created: seq<int>, clock: int, w: Writer) {
    && w.draft.at <= clock
    && (w.phase.SawEmpty? ==> w.phase.seen <= Archived(l) && SinceThen(created, w.phase.seen, w.draft.at))
    && (w.phase.Ready? ==>
          && w.phase.read <= |l.appended| && w.phase.prev == End(l.appended[..w.phase.read], HashOf(base))
          && SinceThen(created, w.phase.read, w.draft.at))
  }

  ghost predicate WritersInv(l: Ledger, base: Anchor, created: seq<int>, clock: int, ws: seq<Writer>) {
    forall i :: 0 <= i < |ws| ==> WriterInv(l, base, created, clock, ws[i])
  }

  /** A rotation's rows are still in front, and reach an event that has aged past the window. */
  ghost predicate RotationInv(l: Ledger, r: Rotation, aged: int) {
    r.Cutting? ==> r.k <= |l.live| && (r.k > 0 ==> l.live[r.k - 1].at < aged)
  }

  /** The newest archived event had aged past the window. */
  ghost predicate AgedInv(l: Ledger, aged: int) {
    Archived(l) <= |l.appended| && (Archived(l) > 0 ==> l.appended[Archived(l) - 1].at < aged)
  }

  ghost predicate SlownessInv(l: Ledger, created: seq<int>, clock: int, slowest: int) {
    && |created| == |l.appended|
    && forall j :: 0 <= j < |created| ==> created[j] <= clock && created[j] - l.appended[j].at <= slowest
  }

  ghost predicate Inv(s: State, base: Anchor) {
    && Books(s.ledger, base)
    && WritersInv(s.ledger, base, s.created, s.clock, s.writers)
    && RotationInv(s.ledger, s.rotation, s.clock - s.retention)
    && AgedInv(s.ledger, s.clock - s.retention)
    && SlownessInv(s.ledger, s.created, s.clock, s.slowest)
    && (s.stale <==> !Verified(s.ledger.appended, HashOf(base)))
    && (s.stale ==> s.retention < 2 * s.slowest)
  }

  // ---------------------------------------------------------------- every step keeps it

  lemma InitInv(base: Anchor, clock: int, retention: int)
    ensures Inv(Init(base, clock, retention), base)
  {
  }

  lemma TickKeepsInv(s: State, base: Anchor, to: int)
    requires Inv(s, base) && to >= s.clock
    ensures Inv(Apply(s, Tick(to)), base)
  {
    hide Books, Verified, SinceThen, Flatten;
  }

  /** A writer that has read moves on; its reading is right, and nothing else changes. */
  lemma WriterStep(s: State, base: Anchor, i: nat, w: Writer)
    requires Inv(s, base) && i < |s.writers| && WriterInv(s.ledger, base, s.created, s.clock, w)
    ensures Inv(s.(writers := s.writers[i := w]), base)
  {
    hide Books, WriterInv, RotationInv, AgedInv, SlownessInv, Verified;
  }

  lemma LengthIs(s: State, base: Anchor, i: nat)
    requires Inv(s, base) && i < |s.writers|
    ensures |s.created| == |s.ledger.appended| && WriterInv(s.ledger, base, s.created, s.clock, s.writers[i])
  {
    hide Books, Verified, RotationInv, AgedInv, WriterInv, Archived;
  }

  lemma LiveRead(l: Ledger, base: Anchor, created: seq<int>, clock: int, w: Writer)
    requires Books(l, base) && WriterInv(l, base, created, clock, w) && |created| == |l.appended|
    ensures WriterInv(l, base, created, clock,
                      w.(phase := if l.live == [] then SawEmpty(Archived(l)) else Ready(End(l.live, Genesis), |l.appended|)))
  {
    TailIsNewest(l, base);
    assert l.appended[..|l.appended|] == l.appended;
    hide Flatten, HashOf;
  }

  lemma AnchorRead(l: Ledger, base: Anchor, created: seq<int>, clock: int, w: Writer)
    requires Books(l, base) && WriterInv(l, base, created, clock, w) && w.phase.SawEmpty?
    ensures WriterInv(l, base, created, clock, w.(phase := Ready(HashOf(l.anchor), Archived(l))))
  {
    TailIsNewest(l, base);
    hide Flatten, HashOf;
  }

  lemma ReadLiveKeepsInv(s: State, base: Anchor, i: nat)
    requires Inv(s, base) && Enabled(s, ReadLive(i))
    ensures Inv(Apply(s, ReadLive(i)), base)
  {
    hide Books, Verified, Flatten, RotationInv, AgedInv, WriterInv, SlownessInv, HashOf, End, Archived;
    LengthIs(s, base, i);
    LiveRead(s.ledger, base, s.created, s.clock, s.writers[i]);
    WriterStep(s, base, i, Apply(s, ReadLive(i)).writers[i]);
  }

  lemma ReadAnchorKeepsInv(s: State, base: Anchor, i: nat)
    requires Inv(s, base) && Enabled(s, ReadAnchor(i))
    ensures Inv(Apply(s, ReadAnchor(i)), base)
  {
    hide Books, Verified, Flatten, RotationInv, AgedInv, WriterInv, SlownessInv, HashOf, End, Archived;
    LengthIs(s, base, i);
    AnchorRead(s.ledger, base, s.created, s.clock, s.writers[i]);
    WriterStep(s, base, i, Apply(s, ReadAnchor(i)).writers[i]);
  }

  /** An insert that is refused leaves the record alone. */
  lemma RefusedKeepsInv(s: State, base: Anchor, i: nat)
    requires Inv(s, base) && Enabled(s, Insert(i)) && !Accepted(s.ledger, s.writers[i].phase.prev)
    ensures Inv(Inserted(s, i), base)
  {
    assert WriterInv(s.ledger, base, s.created, s.clock, s.writers[i]);
    hide Books, Verified, Flatten, RotationInv, WritersInv, AgedInv, SlownessInv;
    WriterStep(s, base, i, Inserted(s, i).writers[i]);
  }

  /** Whether the record stays one chain is whether the row names the newest event. */
  lemma InsertJoins(l: Ledger, base: Anchor, read: nat, d: Draft)
    requires Books(l, base) && read <= |l.appended|
    ensures var prev := End(l.appended[..read], HashOf(base));
      Verified(Create(l, Next(l, d, prev)).appended, HashOf(base)) <==>
        Verified(l.appended, HashOf(base)) && read == |l.appended|
  {
    var prev := End(l.appended[..read], HashOf(base));
    var e := Next(l, d, prev);
    VerifiedConcat(l.appended, [e], HashOf(base));
    if Verified(l.appended, HashOf(base)) {
      CreateKeepsBooks(l, d, prev, base);
      hide Verified, End, Books;
      JoinsOnlyAtTail(l, base, read, d);
    }
  }

  /** A stale row let in was overtaken by an archived event, so two appends' time together spans the window. */
  lemma StaleIsSlow(s: State, base: Anchor, i: nat)
    requires Inv(s, base) && Enabled(s, Insert(i)) && Accepted(s.ledger, s.writers[i].phase.prev)
    requires !s.stale && s.writers[i].phase.read < |s.ledger.appended|
    ensures s.retention < 2 * Max(s.slowest, s.clock - s.writers[i].draft.at)
  {
    var l, w := s.ledger, s.writers[i];
    assert WriterInv(l, base, s.created, s.clock, w);
    AcceptedUnlessOvertaken(l, base, w.phase.read);
    var last := Archived(l) - 1;
    hide Books, Verified, Flatten, WritersInv, RotationInv, Accepted, End;
    assert s.created[last] >= w.draft.at;
  }

  lemma SinceLater(created: seq<int>, n: nat, moment: int, now: int)
    requires SinceThen(created, n, moment) && moment <= now
    ensures SinceThen(created + [now], n, moment)
  {
  }

  lemma WriterAfterInsert(l: Ledger, base: Anchor, created: seq<int>, clock: int, e: Event, w: Writer)
    requires WriterInv(l, base, created, clock, w)
    ensures WriterInv(Create(l, e), base, created + [clock], clock, w)
  {
    if w.phase.SawEmpty? {
      SinceLater(created, w.phase.seen, w.draft.at, clock);
    } else if w.phase.Ready? {
      SinceLater(created, w.phase.read, w.draft.at, clock);
      assert (l.appended + [e])[..w.phase.read] == l.appended[..w.phase.read];
    }
    hide SinceThen, End, HashOf, Flatten;
  }

  lemma AcceptedKeepsInv(s: State, base: Anchor, i: nat)
    requires Inv(s, base) && Enabled(s, Insert(i)) && Accepted(s.ledger, s.writers[i].phase.prev)
    ensures Inv(Inserted(s, i), base)
  {
    hide Books, Verified, Flatten, WriterInv, Accepted, End, HashOf;
    var l, w, t := s.ledger, s.writers[i], Inserted(s, i);
    var e := Next(l, w.draft, w.phase.prev);
    ReadyIs(s, base, i);
    CreateKeepsBooks(l, w.draft, w.phase.prev, base);
    InsertJoins(l, base, w.phase.read, w.draft);
    if !s.stale && w.phase.read < |l.appended| {
      StaleIsSlow(s, base, i);
    }
    forall k | 0 <= k < |t.writers| ensures WriterInv(t.ledger, base, t.created, t.clock, t.writers[k]) {
      WriterAfterInsert(l, base, s.created, s.clock, e, s.writers[k]);
      if k == i {
        RecordedIsDone(t.ledger, base, s.created + [s.clock], s.clock, w);
      }
    }
  }

  lemma ReadyIs(s: State, base: Anchor, i: nat)
    requires Inv(s, base) && Enabled(s, Insert(i))
    ensures var w := s.writers[i];
      w.phase.read <= |s.ledger.appended| && w.phase.prev == End(s.ledger.appended[..w.phase.read], HashOf(base))
  {
    assert WriterInv(s.ledger, base, s.created, s.clock, s.writers[i]);
    hide Books, Verified, Flatten, RotationInv, AgedInv, SlownessInv;
  }

  lemma RecordedIsDone(l: Ledger, base: Anchor, created: seq<int>, clock: int, w: Writer)
    requires WriterInv(l, base, created, clock, w)
    ensures WriterInv(l, base, created, clock, w.(phase := Recorded))
  {
  }

  lemma WriterAfterRemoval(l: Ledger, m: Ledger, base: Anchor, created: seq<int>, clock: int, w: Writer)
    requires WriterInv(l, base, created, clock, w) && m.appended == l.appended && Archived(l) <= Archived(m)
    ensures WriterInv(m, base, created, clock, w)
  {
    hide SinceThen, End, HashOf, Flatten;
  }

  lemma RemovedIsAged(l: Ledger, k: nat, base: Anchor, aged: int)
    requires Books(l, base) && k <= |l.live| && AgedInv(l, aged) && (k > 0 ==> l.live[k - 1].at < aged)
    ensures AgedInv(Remove(l, k), aged) && Archived(Remove(l, k)) == Archived(l) + k
  {
    RemoveKeepsBooks(l, k, base);
    hide Flatten, Ordered, SeqOf;
    if k > 0 {
      assert l.appended[Archived(l) + k - 1] == l.live[k - 1];
    }
  }

  lemma RotationKeepsInv(s: State, base: Anchor, a: Action)
    requires Inv(s, base) && Enabled(s, a) && (a.StartRotation? || a.StopRotation?)
    ensures Inv(Apply(s, a), base)
  {
    hide Books, Verified, Flatten, WritersInv, AgedInv, SlownessInv;
  }

  lemma AbandonKeepsInv(s: State, base: Anchor, i: nat)
    requires Inv(s, base) && i < |s.writers|
    ensures Inv(At(s, i, GaveUp), base)
  {
    LengthIs(s, base, i);
    hide Books, Verified, Flatten, RotationInv, AgedInv, SlownessInv, SinceThen;
    WriterStep(s, base, i, s.writers[i].(phase := GaveUp));
  }

  lemma NotRotating(l: Ledger, aged: int)
    ensures RotationInv(l, Idle, aged)
  {
  }

  lemma RotationHeld(s: State, base: Anchor)
    requires Inv(s, base) && s.rotation.Cutting?
    ensures var l, k, aged := s.ledger, s.rotation.k, s.clock - s.retention;
      && k <= |l.live| && Books(Remove(l, k), base) && AgedInv(Remove(l, k), aged)
      && SlownessInv(Remove(l, k), s.created, s.clock, s.slowest)
  {
    hide Verified, WritersInv, Books, AgedInv, Archived;
    RemoveKeepsBooks(s.ledger, s.rotation.k, base);
    RemovedIsAged(s.ledger, s.rotation.k, base, s.clock - s.retention);
  }

  lemma WritersAfterRemoval(l: Ledger, k: nat, base: Anchor, created: seq<int>, clock: int, ws: seq<Writer>)
    requires WritersInv(l, base, created, clock, ws) && k <= |l.live| && Books(l, base)
    ensures WritersInv(Remove(l, k), base, created, clock, ws)
  {
    hide WriterInv, Books, Flatten;
    RemoveKeepsBooks(l, k, base);
    forall i | 0 <= i < |ws| ensures WriterInv(Remove(l, k), base, created, clock, ws[i]) {
      WriterAfterRemoval(l, Remove(l, k), base, created, clock, ws[i]);
    }
  }

  lemma EndRotationKeepsInv(s: State, base: Anchor)
    requires Inv(s, base) && Enabled(s, EndRotation)
    ensures Inv(Apply(s, EndRotation), base)
  {
    hide Verified, WriterInv, WritersInv, HashOf, Books, AgedInv, SlownessInv, RotationInv, Archived;
    var l, t := s.ledger, Apply(s, EndRotation);
    RotationHeld(s, base);
    if t.ledger != l {
      WritersAfterRemoval(l, s.rotation.k, base, s.created, s.clock, s.writers);
      NotRotating(t.ledger, s.clock - s.retention);
    } else {
      NotRotating(l, s.clock - s.retention);
    }
  }

  lemma BeginKeepsInv(s: State, base: Anchor, fields: string)
    requires Inv(s, base)
    ensures Inv(Apply(s, Begin(fields)), base)
  {
    hide Books, Verified, Flatten, RotationInv, AgedInv, SlownessInv;
  }

  lemma StepKeepsInv(s: State, base: Anchor, a: Action)
    requires Inv(s, base) && Enabled(s, a)
    ensures Inv(Apply(s, a), base)
  {
    hide Inv, Inserted;
    match a {
      case Tick(to) => TickKeepsInv(s, base, to);
      case Begin(fields) => BeginKeepsInv(s, base, fields);
      case ReadLive(i) => ReadLiveKeepsInv(s, base, i);
      case ReadAnchor(i) => ReadAnchorKeepsInv(s, base, i);
      case Insert(i) =>
        if Accepted(s.ledger, s.writers[i].phase.prev) {
          AcceptedKeepsInv(s, base, i);
        } else {
          RefusedKeepsInv(s, base, i);
        }
      case Abandon(i) => AbandonKeepsInv(s, base, i);
      case EndRotation => EndRotationKeepsInv(s, base);
      case _ => RotationKeepsInv(s, base, a);
    }
  }

  lemma {:induction false} RunKeepsInv(s: State, base: Anchor, run: seq<Action>)
    requires Inv(s, base) && Legal(s, run)
    ensures Inv(After(s, run), base)
    decreases |run|
  {
    hide Inv, Enabled, Apply;
    if run == [] {
    } else {
      RunKeepsInv(s, base, run[..|run| - 1]);
      StepKeepsInv(After(s, run[..|run| - 1]), base, run[|run| - 1]);
    }
  }

  // ---------------------------------------------------------------- what every run guarantees

  ghost predicate Reachable(base: Anchor, start: int, retention: int, run: seq<Action>, s: State) {
    Legal(Init(base, start, retention), run) && After(Init(base, start, retention), run) == s
  }

  lemma ReachableInv(base: Anchor, start: int, retention: int, run: seq<Action>, s: State)
    requires Reachable(base, start, retention, run, s)
    ensures Inv(s, base)
  {
    hide Legal, After;
    InitInv(base, start, retention);
    RunKeepsInv(Init(base, start, retention), base, run);
  }

  /**
   However appends, their retries and rotations interleave: the archives in order and then the live rows are exactly
   the events recorded, in order, and they are one chain if and only if no insert named a stale tail.
   */
  lemma OneChainIffNoStaleInsert(base: Anchor, start: int, retention: int, run: seq<Action>, s: State)
    requires Reachable(base, start, retention, run, s)
    ensures s.ledger.appended == Flatten(s.ledger.archives) + s.ledger.live
    ensures OneChain(s.ledger, base) <==> !s.stale
  {
    ReachableInv(base, start, retention, run, s);
    hide Reachable, Verified, Flatten, WritersInv, RotationInv, AgedInv, SlownessInv;
  }

  /** Then each archive verifies from where the ones before it end, and the live rows from the anchor. */
  lemma ArchivesAndLiveVerify(base: Anchor, start: int, retention: int, run: seq<Action>, s: State, i: nat)
    requires Reachable(base, start, retention, run, s) && !s.stale && i < |s.ledger.archives|
    ensures var l := s.ledger;
      && Verified(l.archives[i], End(Flatten(l.archives[..i]), HashOf(base)))
      && Verified(l.live, HashOf(l.anchor))
  {
    OneChainIffNoStaleInsert(base, start, retention, run, s);
    var l := s.ledger;
    LiveVerifies(l, base);
    hide Reachable, Verified, Flatten, HashOf;
    VerifiedConcat(Flatten(l.archives), l.live, HashOf(base));
    EachArchiveVerifies(l.archives, HashOf(base), i);
  }

  /**
   While no event takes half the retention window from its append's call to its insert, the record is one chain. The
   shortest window that can be configured is a day.
   */
  lemma PromptAppendsNeverFork(base: Anchor, start: int, retention: int, run: seq<Action>, s: State)
    requires Reachable(base, start, retention, run, s) && 2 * s.slowest <= retention
    ensures OneChain(s.ledger, base)
  {
    ReachableInv(base, start, retention, run, s);
    RetentionIsFixed(Init(base, start, retention), run);
    OneChainIffNoStaleInsert(base, start, retention, run, s);
    hide Legal, After, Books, Verified, Flatten, WritersInv, RotationInv, AgedInv, SlownessInv;
  }

  lemma {:induction false} RetentionIsFixed(s: State, run: seq<Action>)
    requires Legal(s, run)
    ensures After(s, run).retention == s.retention
    decreases |run|
  {
    if run == [] {
    } else {
      RetentionIsFixed(s, run[..|run| - 1]);
      hide Verified, Flatten, Accepted, Legal;
    }
  }

  // ---------------------------------------------------------------- every event is some caller's

  ghost predicate RecordInv(appended: seq<Event>, recorders: seq<nat>, ws: seq<Writer>) {
    && |recorders| == |appended|
    && (forall j :: 0 <= j < |recorders| ==>
          && recorders[j] < |ws| && ws[recorders[j]].phase.Recorded?
          && ws[recorders[j]].draft.at == appended[j].at && ws[recorders[j]].draft.fields == appended[j].fields)
    && (forall j, k :: 0 <= j < k < |recorders| ==> recorders[j] != recorders[k])
    && (forall i :: 0 <= i < |ws| && ws[i].phase.Recorded? ==> i in recorders)
  }

  lemma InsertKeepsRecord(s: State, i: nat)
    requires Enabled(s, Insert(i)) && RecordInv(s.ledger.appended, s.recorders, s.writers)
    ensures var t := Inserted(s, i); RecordInv(t.ledger.appended, t.recorders, t.writers)
  {
    hide Flatten;
    if Accepted(s.ledger, s.writers[i].phase.prev) {
      assert i !in s.recorders;
      var t := Inserted(s, i);
      assert t.recorders[|s.recorders|] == i;
      forall k | 0 <= k < |t.writers| && t.writers[k].phase.Recorded? ensures k in t.recorders {
        if k != i {
          assert k in s.recorders;
        }
      }
    }
    hide Accepted;
  }

  lemma StepKeepsRecord(s: State, a: Action)
    requires Enabled(s, a) && RecordInv(s.ledger.appended, s.recorders, s.writers)
    ensures var t := Apply(s, a); RecordInv(t.ledger.appended, t.recorders, t.writers)
  {
    if a.Insert? {
      InsertKeepsRecord(s, a.i);
    }
    hide Inserted, Verified, Flatten, Accepted, Cut;
  }

  /** The calls of a run, in order: what each was to record, and when it was made. */
  ghost function Calls(s: State, run: seq<Action>): seq<Draft>
    requires Legal(s, run)
  {
    if run == [] then []
    else
      var before, a := run[..|run| - 1], run[|run| - 1];
      if a.Begin? then Calls(s, before) + [Draft(After(s, before).clock, a.fields)] else Calls(s, before)
  }

  lemma {:induction false} WritersAreCalls(s: State, run: seq<Action>)
    requires Legal(s, run) && s.writers == [] && RecordInv(s.ledger.appended, s.recorders, s.writers)
    ensures var t := After(s, run);
      && RecordInv(t.ledger.appended, t.recorders, t.writers) && |t.writers| == |Calls(s, run)|
      && forall i :: 0 <= i < |t.writers| ==> t.writers[i].draft == Calls(s, run)[i]
  {
    hide RecordInv, Enabled, Apply;
    if run == [] {
    } else {
      var before, a := run[..|run| - 1], run[|run| - 1];
      WritersAreCalls(s, before);
      StepKeepsRecord(After(s, before), a);
      DraftsStay(After(s, before), a);
    }
  }

  lemma DraftsStay(s: State, a: Action)
    requires Enabled(s, a)
    ensures var ws, t := s.writers, Apply(s, a).writers;
      && |t| == |ws| + (if a.Begin? then 1 else 0)
      && (forall i :: 0 <= i < |ws| ==> t[i].draft == ws[i].draft)
      && (a.Begin? ==> t[|ws|].draft == Draft(s.clock, a.fields))
  {
    hide Accepted, Verified, Flatten, Cut;
  }

  /**
   Every event on record is the event of one call of the run, with that call's fields and moment; no call is recorded
   twice, and whichever says it was recorded was.
   */
  lemma EventsAreTheirCalls(base: Anchor, start: int, retention: int, run: seq<Action>, s: State)
    requires Reachable(base, start, retention, run, s)
    ensures var calls := Calls(Init(base, start, retention), run);
      && |s.recorders| == |s.ledger.appended| && |calls| == |s.writers|
      && (forall j :: 0 <= j < |s.recorders| ==>
            && s.recorders[j] < |calls|
            && s.ledger.appended[j].at == calls[s.recorders[j]].at && s.ledger.appended[j].fields == calls[s.recorders[j]].fields)
      && (forall j, k :: 0 <= j < k < |s.recorders| ==> s.recorders[j] != s.recorders[k])
      && (forall i :: 0 <= i < |s.writers| ==> (s.writers[i].phase.Recorded? <==> i in s.recorders))
      && (forall j, k :: 0 <= j < k < |s.recorders| ==> s.ledger.appended[j].seq_ < s.ledger.appended[k].seq_)
  {
    WritersAreCalls(Init(base, start, retention), run);
    ReachableInv(base, start, retention, run, s);
    hide Legal, After, Calls, Flatten, Verified, WritersInv, RotationInv, AgedInv, SlownessInv;
  }

  // ---------------------------------------------------------------- the methods' own contracts

  /** What an action does to the ledger, as `AuditDb` counts what others do. */
  function Effect(s: State, a: Action): seq<Step>
    requires Enabled(s, a)
  {
    match a
    case Insert(i) => [Creating(s.writers[i].draft, s.writers[i].phase.prev)]
    case EndRotation =>
      if Verified(s.ledger.live[..s.rotation.k], HashOf(s.ledger.anchor)) then [Removing(s.rotation.k)] else []
    case _ => []
  }

  ghost function Effects(s: State, run: seq<Action>): seq<Step>
    requires Legal(s, run)
  {
    if run == [] then []
    else Effects(s, run[..|run| - 1]) + Effect(After(s, run[..|run| - 1]), run[|run| - 1])
  }

  /** Every run of the machine is, to the ledger, steps such as `AuditDb.Others` takes. */
  lemma {:induction false} RunTakesSteps(s: State, run: seq<Action>)
    requires Legal(s, run)
    ensures After(s, run).ledger == TakenAll(s.ledger, Effects(s, run))
  {
    if run == [] {
    } else {
      var before, a := run[..|run| - 1], run[|run| - 1];
      RunTakesSteps(s, before);
      EffectIs(After(s, before), a);
      TakenInTurn(s.ledger, Effects(s, before), Effect(After(s, before), a));
    }
    hide Enabled, Apply, Effect, TakenAll;
  }

  lemma EffectIs(s: State, a: Action)
    requires Enabled(s, a)
    ensures Apply(s, a).ledger == TakenAll(s.ledger, Effect(s, a))
  {
    hide *;
    hide Enabled, Effect, Apply, TakenAll;
    EffectIsStep(s, a);
    NoSteps(s.ledger);
    if Effect(s, a) != [] {
      var step := Effect(s, a)[0];
      assert Effect(s, a) == [] + [step];
      OneMoreStep(s.ledger, [], step);
    }
  }

  lemma EffectIsStep(s: State, a: Action)
    requires Enabled(s, a)
    ensures |Effect(s, a)| <= 1
    ensures Apply(s, a).ledger == if Effect(s, a) == [] then s.ledger else Taken(s.ledger, Effect(s, a)[0])
  {
    hide Verified, Accepted, Next, Create, Remove, HashOf, End, Cut, Flatten;
  }

  /** Not a step of this writer's. */
  predicate Leaves(a: Action, i: nat) {
    match a
    case ReadLive(j) => j != i
    case ReadAnchor(j) => j != i
    case Insert(j) => j != i
    case Abandon(j) => j != i
    case _ => true
  }

  predicate Others(run: seq<Action>, i: nat) { forall k :: 0 <= k < |run| ==> Leaves(run[k], i) }

  lemma {:induction false} WriterStays(s: State, run: seq<Action>, i: nat)
    requires Legal(s, run) && Others(run, i) && i < |s.writers|
    ensures i < |After(s, run).writers| && After(s, run).writers[i] == s.writers[i]
  {
    if run == [] {
    } else {
      WriterStays(s, run[..|run| - 1], i);
      assert Leaves(run[|run| - 1], i);
    }
    hide Legal, Verified, Accepted;
  }

  /** A run of others' steps takes `s` to `t`. */
  ghost predicate OthersTake(s: State, run: seq<Action>, i: nat, t: State) {
    Legal(s, run) && Others(run, i) && After(s, run) == t
  }

  /** The two reads of an append: it holds what `TailRead` says. */
  lemma AppendReads(s: State, i: nat, between: seq<Action>, read: State)
    requires Enabled(s, ReadLive(i)) && OthersTake(Apply(s, ReadLive(i)), between, i, read)
    ensures s.ledger.live == [] <==> Enabled(read, ReadAnchor(i))
    ensures read.ledger == TakenAll(s.ledger, Effects(Apply(s, ReadLive(i)), between))
    ensures var at := if s.ledger.live == [] then Apply(read, ReadAnchor(i)) else read;
      && i < |at.writers| && at.writers[i].phase.Ready? && at.writers[i].draft == s.writers[i].draft
      && at.writers[i].phase.prev == TailRead(s.ledger, read.ledger) && at.ledger == read.ledger
  {
    var asked := Apply(s, ReadLive(i));
    WriterStays(asked, between, i);
    RunTakesSteps(asked, between);
    hide Legal, After, Effects, TakenAll, End, HashOf, Flatten;
  }

  /**
   A writer's insert leaves what was `l` at its first read as `AuditDb.AppendEvent` says, or, when it is refused, as
   the others left it.
   */
  ghost predicate InsertsAs(l: Ledger, steps: seq<Step>, anchored: nat, end: State, i: nat, d: Draft) {
    && Enabled(end, Insert(i)) && end.ledger == TakenAll(l, steps)
    && var t := Apply(end, Insert(i));
       && anchored <= |steps| && (t.writers[i].phase.Recorded? <==> Succeeds(l, steps, Try(0, anchored, |steps|)))
       && if t.writers[i].phase.Recorded? then Appended(l, steps, Try(0, anchored, |steps|), d, t.ledger)
          else t.ledger == end.ledger && t.writers[i].draft == d
               && t.writers[i].attempt <= end.writers[i].attempt + 1
               && (end.writers[i].attempt < 4 ==> t.writers[i].phase.Asking?)
  }

  /** Its insert, others having taken `steps` since the first read, `anchored` of them before the second. */
  lemma AppendInserts(l: Ledger, steps: seq<Step>, anchored: nat, end: State, i: nat)
    requires Enabled(end, Insert(i)) && end.ledger == TakenAll(l, steps) && anchored <= |steps|
    requires end.writers[i].phase.prev == TailRead(l, TakenAll(l, steps[..anchored]))
    ensures InsertsAs(l, steps, anchored, end, i, end.writers[i].draft)
  {
    NoSteps(l);
    hide TakenAll, TailRead, Appended, Succeeds, Adds, Next, Create;
    assert steps[..0] == [];
    var attempt, prev, w := Try(0, anchored, |steps|), end.writers[i].phase.prev, end.writers[i];
    TryIs(l, steps, attempt, prev, end.ledger);
    CreateAdds(end.ledger, w.draft, prev);
    if Accepted(end.ledger, prev) {
      AppendedBy(l, steps, attempt, w.draft, prev, end.ledger, Create(end.ledger, Next(end.ledger, w.draft, prev)));
    }
  }

  /** The machine's append is `AuditDb.AppendEvent`'s, whatever others do between its reads and its insert. */
  lemma AppendIsARun(s: State, i: nat, between: seq<Action>, read: State, later: seq<Action>, end: State)
    requires Enabled(s, ReadLive(i)) && OthersTake(Apply(s, ReadLive(i)), between, i, read)
    requires s.ledger.live == [] ==> Enabled(read, ReadAnchor(i))
    requires OthersTake(if s.ledger.live == [] then Apply(read, ReadAnchor(i)) else read, later, i, end)
    ensures exists steps, anchored :: InsertsAs(s.ledger, steps, anchored, end, i, s.writers[i].draft)
  {
    AppendReads(s, i, between, read);
    var at := if s.ledger.live == [] then Apply(read, ReadAnchor(i)) else read;
    hide Legal, After, Effects, TakenAll, Others, TailRead, Verified, Accepted, InsertsAs;
    WriterStays(at, later, i);
    RunTakesSteps(at, later);
    var a, b := Effects(Apply(s, ReadLive(i)), between), Effects(at, later);
    TakenInTurn(s.ledger, a, b);
    assert (a + b)[..|a|] == a;
    hide Apply;
    AppendInserts(s.ledger, a + b, |a|, end, i);
  }

  predicate NoRotation(run: seq<Action>) {
    forall k :: 0 <= k < |run| ==> !run[k].StartRotation? && !run[k].EndRotation? && !run[k].StopRotation?
  }

  lemma {:induction false} OnlyRowsCome(s: State, run: seq<Action>)
    requires Legal(s, run) && NoRotation(run)
    ensures OnlyCreates(Effects(s, run)) && After(s, run).rotation == s.rotation
  {
    if run == [] {
    } else {
      OnlyRowsCome(s, run[..|run| - 1]);
    }
    hide Legal, Verified, Accepted;
  }

  /** And the machine's rotation is `AuditDb.DrainAudit`'s. */
  lemma DrainIsARun(s: State, month: int, begun: State, between: seq<Action>, end: State)
    requires InOrder(s.ledger) && Enabled(s, StartRotation(month)) && begun == Apply(s, StartRotation(month))
    requires Legal(begun, between) && NoRotation(between) && After(begun, between) == end
    ensures Enabled(end, EndRotation)
    ensures var before := C.FirstInstant(month + 1);
      var moved := Verified(s.ledger.live[..Cut(s.ledger.live, before)], HashOf(s.ledger.anchor));
      exists steps :: DrainedTo(s.ledger, steps, before, moved, Apply(end, EndRotation).ledger)
  {
    RotationStarts(s, month);
    hide *;
    hide Verified, HashOf, InOrder, OnlyCreates, TakenAll, Cut, C.FirstInstant, DrainedTo, Remove, Effects, After, Legal,
      Apply, Enabled, NoRotation;
    var before := C.FirstInstant(month + 1);
    var k, steps := Cut(s.ledger.live, before), Effects(begun, between);
    OnlyRowsCome(begun, between);
    RunTakesSteps(begun, between);
    FrontStays(s.ledger, steps, k);
    RotationEnds(s.ledger, steps, before, end);
  }

  lemma RotationStarts(s: State, month: int)
    requires Enabled(s, StartRotation(month))
    ensures var t := Apply(s, StartRotation(month));
      t.ledger == s.ledger && t.rotation == Cutting(Cut(s.ledger.live, C.FirstInstant(month + 1)))
  {
  }

  lemma RotationEnds(l: Ledger, steps: seq<Step>, before: int, end: State)
    requires OnlyCreates(steps) && end.ledger == TakenAll(l, steps) && end.ledger.anchor == l.anchor
    requires var k := Cut(l.live, before);
      end.rotation == Cutting(k) && k <= |end.ledger.live| && end.ledger.live[..k] == l.live[..k]
    ensures Enabled(end, EndRotation)
    ensures DrainedTo(l, steps, before, Verified(l.live[..Cut(l.live, before)], HashOf(l.anchor)),
                      Apply(end, EndRotation).ledger)
  {
    hide Cut, TakenAll, Verified, HashOf, OnlyCreates, Remove, FrontGone;
    RemoveTakesFront(end.ledger, end.rotation.k);
  }

  // ---------------------------------------------------------------- a run that forks

  lemma Then(base: Anchor, start: int, retention: int, run: seq<Action>, s: State, a: Action)
    returns (longer: seq<Action>, t: State)
    requires Reachable(base, start, retention, run, s) && Enabled(s, a)
    ensures longer == run + [a] && t == Apply(s, a) && Reachable(base, start, retention, longer, t)
  {
    hide Enabled, Apply;
    longer, t := run + [a], Apply(s, a);
    assert longer[..|longer| - 1] == run;
  }

  const DAY_MS := 86_400_000
  const HALF_DAY_MS := 43_200_000

  /** The first event of a new record, a millisecond before 1970. */
  function First(fields: string): Event { Event(1, -1, fields, Genesis, Digest(-1, fields, Genesis)) }

  /** Two appends, half a day apart, that both read an empty record; the first one's row is recorded. */
  lemma BothReadEmpty() returns (run: seq<Action>, s: State)
    ensures Reachable(None, -1, DAY_MS, run, s)
    ensures s.ledger == Ledger([First("a")], None, 1, [], [First("a")])
    ensures |s.writers| == 2 && s.writers[1] == Writer(Draft(HALF_DAY_MS - 1, "b"), 0, Ready(Genesis, 0))
    ensures s.rotation == Idle && s.clock == HALF_DAY_MS - 1 && s.retention == DAY_MS
    ensures s.slowest == HALF_DAY_MS && !s.stale
  {
    run, s := [], Init(None, -1, DAY_MS);
    assert Reachable(None, -1, DAY_MS, run, s);
    hide Reachable;
    assert Archived(s.ledger) == 0;
    run, s := Then(None, -1, DAY_MS, run, s, Begin("a"));
    run, s := Then(None, -1, DAY_MS, run, s, ReadLive(0));
    run, s := Then(None, -1, DAY_MS, run, s, ReadAnchor(0));
    run, s := Then(None, -1, DAY_MS, run, s, Tick(HALF_DAY_MS - 1));
    run, s := Then(None, -1, DAY_MS, run, s, Begin("b"));
    run, s := Then(None, -1, DAY_MS, run, s, ReadLive(1));
    run, s := Then(None, -1, DAY_MS, run, s, ReadAnchor(1));
    run, s := Then(None, -1, DAY_MS, run, s, Insert(0));
  }

  /** A day after the first append its month is archived. */
  lemma OvertakerArchived(december: int) returns (run: seq<Action>, s: State)
    requires december == C.EPOCH_MONTH - 1
    ensures Reachable(None, -1, DAY_MS, run, s)
    ensures s.ledger.live == [] && s.ledger.appended == [First("a")] && s.clock == DAY_MS
    ensures |s.writers| == 2 && s.writers[1] == Writer(Draft(HALF_DAY_MS - 1, "b"), 0, Ready(Genesis, 0))
    ensures s.slowest == HALF_DAY_MS
  {
    assert C.FirstInstant(december + 1) == 0;
    hide C.FirstInstant;
    run, s := BothReadEmpty();
    hide Reachable;
    run, s := Then(None, -1, DAY_MS, run, s, Tick(DAY_MS));
    CutOne(First("a"), 0);
    run, s := Then(None, -1, DAY_MS, run, s, StartRotation(december));
    assert [First("a")][..1] == [First("a")];
    LinksTo(First("a"), Genesis);
    run, s := Then(None, -1, DAY_MS, run, s, EndRotation);
  }

  /**
   The bound is sharp. Two appends take half the window each, one of them a millisecond more, and the event that
   overtook the later one is archived with its month before that one's insert: its row is let in, and the record forks.
   */
  lemma AnAppendThatForks(december: int) returns (run: seq<Action>, s: State)
    requires december == C.EPOCH_MONTH - 1
    ensures Reachable(None, -1, DAY_MS, run, s)
    ensures s.stale && 2 * s.slowest == DAY_MS + 2 && !OneChain(s.ledger, None)
  {
    run, s := OvertakerArchived(december);
    hide Reachable;
    run, s := Then(None, -1, DAY_MS, run, s, Insert(1));
    hide Apply, Enabled;
    OneChainIffNoStaleInsert(None, -1, DAY_MS, run, s);
  }

  lemma CutOne(e: Event, before: int)
    requires e.at < before
    ensures Cut([e], before) == 1
  {
  }
}
