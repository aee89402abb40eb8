/**
 Archive rotation (`rotate.ts`) as a machine that may be interrupted anywhere.

 One state holds a live table, the archive directory and the maintenance passes in progress. An action is
 one uninterrupted stretch of the source: what runs between two `await`s, one database transaction, one file
 operation, one chunk of the compress stream. Other writers insert rows between any two actions, every action
 may fail instead of succeeding, and the process may die (and be restarted) between any two actions. The
 state also carries a record of what was inserted and of what each live delete removed, which no action reads.
 */
module Rotation {
  import opened Calendar

  const PAGE_SIZE := 500

  datatype Source = Logs | Audit

  /** A live row. `key` is the rank of a log line's id (0 is the empty string) or an audit event's `seq`. */
  datatype Row = Row(key: nat, at: int, body: string)

  datatype Name = Partial(month: int, attempt: nat) | Db(month: int) | Gz(month: int)

  /** `checked` and `complete` record what happened to a file; nothing on disk says either. */
  datatype File = Table(rows: seq<Row>, checked: bool) | Gzip(rows: seq<Row>, complete: bool)

  datatype Job = Job(month: int, before: int, boundary: nat, attempt: nat)

  datatype Pass =
    | Between
    | Starting(job: Job)
    | Reading(job: Job, cursor: nat, copied: seq<Row>)
    | Holding(job: Job, cursor: nat, copied: seq<Row>, page: seq<Row>)
    | Checked(job: Job, copied: seq<Row>)
    | Removed(job: Job)
    | Named(job: Job)
    | Compressing(job: Job)
    | Compressed(job: Job)

  /** Where the rows one live delete removed are kept now. */
  datatype Place = InPartial | InDb | InGz | Pruned(cutoff: int)

  datatype Segment = Segment(month: int, attempt: nat, rows: set<Row>, place: Place)

  datatype State = State(
    source: Source,
    live: set<Row>,
    files: map<Name, File>,
    running: bool,
    passes: seq<Pass>,
    attempts: nat,
    inserted: set<Row>,
    segments: seq<Segment>)

  datatype Action =
    | Insert(row: Row)
    | Tick
    | EndPass(i: nat)
    | Begin(i: nat, before: int, boundary: nat)
    | Open(i: nat)
    | ReadPage(i: nat, page: seq<Row>)
    | WritePage(i: nat)
    | Check(i: nat)
    | Delete(i: nat)
    | Fail(i: nat, cleaned: bool)
    | Rename(i: nat)
    | RenameFails(i: nat)
    | StartCompress(i: nat)
    | FinishCompress(i: nat)
    | CompressFails(i: nat, cleaned: bool)
    | RemoveDb(i: nat)
    | RemoveDbFails(i: nat)
    | Prune(i: nat, month: int, cutoff: int)
    | Crash

  // ---------------------------------------------------------------- what an action needs and does

  /** Which rows a rotation moves: log lines by moment, audit events by `seq`. */
  predicate Selected(source: Source, job: Job, r: Row) {
    if source == Logs then r.at < job.before else r.key <= job.boundary
  }

  predicate Increasing(rows: seq<Row>) {
    forall i, j :: 0 <= i < j < |rows| ==> rows[i].key < rows[j].key
  }

  /** `where selected and key > cursor, order by key, take PAGE_SIZE`. */
  ghost predicate IsPage(source: Source, live: set<Row>, job: Job, cursor: nat, page: seq<Row>) {
    && |page| <= PAGE_SIZE
    && Increasing(page)
    && (forall r :: r in page ==> r in live && Selected(source, job, r) && r.key > cursor)
    && (forall r :: r in live && Selected(source, job, r) && r.key > cursor && r !in page ==>
          |page| == PAGE_SIZE && r.key > page[|page| - 1].key)
  }

  /** The newest `seq` whose moment is within range, or 0. */
  ghost predicate IsBoundary(live: set<Row>, before: int, boundary: nat) {
    && (boundary == 0 || exists r :: r in live && r.at < before && r.key == boundary)
    && (forall r :: r in live && r.at < before ==> r.key <= boundary)
  }

  predicate Published(files: map<Name, File>, month: int) {
    Db(month) in files || Gz(month) in files
  }

  function PartialOf(job: Job): Name { Partial(job.month, job.attempt) }

  predicate BeforeDelete(p: Pass) {
    p.Starting? || p.Reading? || p.Holding? || p.Checked?
  }

  ghost predicate Enabled(s: State, a: Action) {
    match a
    case Insert(r) =>
      && r.key > 0
      && (if s.source == Logs then forall q :: q in s.inserted ==> q.key != r.key
          else forall q :: q in s.inserted ==> q.key < r.key)
    case Tick => true
    case EndPass(i) => i < |s.passes| && s.passes[i].Between?
    case Begin(i, before, boundary) =>
      && i < |s.passes| && s.passes[i].Between?
      && !Published(s.files, MonthOf(before - 1))
      && (s.source == Audit ==> IsBoundary(s.live, before, boundary))
    case Open(i) => i < |s.passes| && s.passes[i].Starting?
    case ReadPage(i, page) =>
      && i < |s.passes| && s.passes[i].Reading?
      && IsPage(s.source, s.live, s.passes[i].job, s.passes[i].cursor, page)
    case WritePage(i) =>
      i < |s.passes| && s.passes[i].Holding? && s.passes[i].page != [] && PartialOf(s.passes[i].job) in s.files
    case Check(i) =>
      && i < |s.passes|
      && var p := s.passes[i];
      && ((p.Holding? && p.page == []) || (p.Reading? && s.source == Audit && p.cursor >= p.job.boundary))
      && PartialOf(p.job) in s.files
      && |s.files[PartialOf(p.job)].rows| == |p.copied|
    case Delete(i) => i < |s.passes| && s.passes[i].Checked?
    case Fail(i, _) => i < |s.passes| && BeforeDelete(s.passes[i])
    case Rename(i) => i < |s.passes| && s.passes[i].Removed? && PartialOf(s.passes[i].job) in s.files
    case RenameFails(i) => i < |s.passes| && s.passes[i].Removed?
    case StartCompress(i) => i < |s.passes| && s.passes[i].Named? && Db(s.passes[i].job.month) in s.files
    case FinishCompress(i) => i < |s.passes| && s.passes[i].Compressing? && Gz(s.passes[i].job.month) in s.files
    case CompressFails(i, _) => i < |s.passes| && (s.passes[i].Named? || s.passes[i].Compressing?)
    case RemoveDb(i) => i < |s.passes| && s.passes[i].Compressed?
    case RemoveDbFails(i) => i < |s.passes| && s.passes[i].Compressed?
    case Prune(i, month, cutoff) =>
      i < |s.passes| && s.passes[i].Between? && s.source == Logs && Gz(month) in s.files && FullyAged(month, cutoff)
    case Crash => true
  }

  /** A live delete: log lines by the ids collected, audit events by boundary. */
  function Remaining(source: Source, live: set<Row>, job: Job, copied: seq<Row>): set<Row> {
    if source == Logs then set r | r in live && !(exists q :: q in copied && q.key == r.key)
    else set r | r in live && r.key > job.boundary
  }

  function Moved(segments: seq<Segment>, from: Place, month: int, to: Place): (r: seq<Segment>)
    ensures |r| == |segments|
  {
    seq(|segments|, k requires 0 <= k < |segments| =>
      if segments[k].place == from && segments[k].month == month then segments[k].(place := to) else segments[k])
  }

  function Promoted(segments: seq<Segment>, attempt: nat): (r: seq<Segment>)
    ensures |r| == |segments|
  {
    seq(|segments|, k requires 0 <= k < |segments| =>
      if segments[k].attempt == attempt then segments[k].(place := InDb) else segments[k])
  }

  function Without(files: map<Name, File>, n: Name): map<Name, File> { files - {n} }

  function At(s: State, i: nat, p: Pass): State
    requires i < |s.passes|
  {
    s.(passes := s.passes[i := p])
  }

  function Apply(s: State, a: Action): State
    requires Enabled(s, a)
  {
    match a
    case Insert(r) => s.(live := s.live + {r}, inserted := s.inserted + {r})
    case Tick => if s.running then s else s.(running := true, passes := s.passes + [Between])
    case EndPass(i) => s.(running := false, passes := s.passes[..i] + s.passes[i + 1..])
    case Begin(i, before, boundary) =>
      At(s, i, Starting(Job(MonthOf(before - 1), before, boundary, s.attempts))).(attempts := s.attempts + 1)
    case Open(i) =>
      var job := s.passes[i].job;
      At(s, i, Reading(job, 0, [])).(files := s.files[PartialOf(job) := Table([], false)])
    case ReadPage(i, page) =>
      var p := s.passes[i];
      At(s, i, Holding(p.job, p.cursor, p.copied, page))
    case WritePage(i) =>
      var p := s.passes[i];
      var n := PartialOf(p.job);
      At(s, i, Reading(p.job, p.page[|p.page| - 1].key, p.copied + p.page))
        .(files := s.files[n := Table(s.files[n].rows + p.page, false)])
    case Check(i) =>
      var p := s.passes[i];
      var n := PartialOf(p.job);
      At(s, i, Checked(p.job, p.copied)).(files := s.files[n := Table(s.files[n].rows, true)])
    case Delete(i) =>
      var p := s.passes[i];
      var live := Remaining(s.source, s.live, p.job, p.copied);
      At(s, i, Removed(p.job))
        .(live := live, segments := s.segments + [Segment(p.job.month, p.job.attempt, s.live - live, InPartial)])
    case Fail(i, cleaned) =>
      var n := PartialOf(s.passes[i].job);
      At(s, i, Between).(files := if cleaned then Without(s.files, n) else s.files)
    case Rename(i) =>
      var job := s.passes[i].job;
      At(s, i, Named(job))
        .(files := Without(s.files, PartialOf(job))[Db(job.month) := s.files[PartialOf(job)]],
          segments := Promoted(s.segments, job.attempt))
    case RenameFails(i) => At(s, i, Between)
    case StartCompress(i) =>
      var job := s.passes[i].job;
      At(s, i, Compressing(job)).(files := s.files[Gz(job.month) := Gzip(s.files[Db(job.month)].rows, false)])
    case FinishCompress(i) =>
      var job := s.passes[i].job;
      At(s, i, Compressed(job)).(files := s.files[Gz(job.month) := Gzip(s.files[Gz(job.month)].rows, true)])
    case CompressFails(i, cleaned) =>
      At(s, i, Between)
        .(files := if cleaned then Without(s.files, Gz(s.passes[i].job.month)) else s.files)
    case RemoveDb(i) =>
      var job := s.passes[i].job;
      At(s, i, Between)
        .(files := Without(s.files, Db(job.month)), segments := Moved(s.segments, InDb, job.month, InGz))
    case RemoveDbFails(i) => At(s, i, Between)
    case Prune(i, month, cutoff) =>
      s.(files := Without(s.files, Gz(month)), segments := Moved(s.segments, InGz, month, Pruned(cutoff)))
    case Crash => s.(running := false, passes := [])
  }

  function Init(source: Source): State {
    State(source, {}, map[], false, [], 0, {}, [])
  }

  ghost predicate Legal(s: State, run: seq<Action>)
    decreases |run|, 0
  {
    run == [] || (Legal(s, run[..|run| - 1]) && Enabled(After(s, run[..|run| - 1]), run[|run| - 1]))
  }

  ghost function After(s: State, run: seq<Action>): State
    requires Legal(s, run)
    decreases |run|, 1
  {
    if run == [] then s else Apply(After(s, run[..|run| - 1]), run[|run| - 1])
  }

  // ---------------------------------------------------------------- the invariant

  ghost predicate RowsInv(live: set<Row>, inserted: set<Row>, files: map<Name, File>) {
    && live <= inserted
    && (forall r :: r in inserted ==> r.key > 0)
    && (forall r, q :: r in inserted && q in inserted && r.key == q.key ==> r == q)
    && (forall n, r :: n in files && r in files[n].rows ==> r in inserted)
  }

  /** Live and the removed segments partition what was ever inserted. */
  ghost predicate SegmentsInv(live: set<Row>, inserted: set<Row>, segments: seq<Segment>, attempts: nat) {
    && (forall r :: r in inserted && r !in live ==> exists k :: 0 <= k < |segments| && r in segments[k].rows)
    && (forall k, r :: 0 <= k < |segments| && r in segments[k].rows ==> r in inserted && r !in live)
    && (forall j, k :: 0 <= j < k < |segments| ==> segments[j].rows !! segments[k].rows)
    && (forall k :: 0 <= k < |segments| ==> segments[k].attempt < attempts)
    && (forall j, k :: 0 <= j < k < |segments| ==> segments[j].attempt != segments[k].attempt)
  }

  ghost predicate HoldsAll(f: File, rows: set<Row>) {
    && (forall r :: r in rows ==> r in f.rows)
    && (forall r :: r in f.rows ==> r in rows)
  }

  ghost predicate Kept(source: Source, files: map<Name, File>, g: Segment) {
    match g.place
    case InPartial =>
      var n := Partial(g.month, g.attempt);
      n in files && files[n].Table? && files[n].checked && HoldsAll(files[n], g.rows)
    case InDb =>
      Db(g.month) in files && files[Db(g.month)].Table? && HoldsAll(files[Db(g.month)], g.rows)
    case InGz =>
      && Gz(g.month) in files && files[Gz(g.month)].Gzip? && files[Gz(g.month)].complete
      && HoldsAll(files[Gz(g.month)], g.rows)
      && Db(g.month) !in files
    case Pruned(cutoff) =>
      source == Logs && forall r :: r in g.rows ==> r.at < cutoff
  }

  ghost predicate KeptInv(source: Source, files: map<Name, File>, segments: seq<Segment>) {
    forall k :: 0 <= k < |segments| ==> Kept(source, files, segments[k])
  }

  /** A log archive holds nothing from after the month it is named for. */
  ghost predicate AgeInv(source: Source, segments: seq<Segment>) {
    source == Logs ==>
      forall k, r :: 0 <= k < |segments| && r in segments[k].rows ==> r.at < FirstInstant(segments[k].month + 1)
  }

  /** Nothing has a finished archive's name while a row in it is live; a lone `.gz` is whole. */
  ghost predicate PublishedInv(live: set<Row>, files: map<Name, File>) {
    && (forall n, r :: n in files && !n.Partial? && r in files[n].rows ==> r !in live)
    && (forall m :: Gz(m) in files && Db(m) !in files ==> files[Gz(m)].Gzip? && files[Gz(m)].complete)
  }

  ghost predicate FlagInv(running: bool, passes: seq<Pass>) {
    |passes| <= 1 && running == (|passes| == 1)
  }

  ghost predicate JobInv(s: State, job: Job) {
    && job.attempt < s.attempts
    && job.month == MonthOf(job.before - 1)
    && (s.source == Logs || job.boundary == 0 || exists r :: r in s.inserted && r.key == job.boundary)
  }

  ghost predicate CopiedInv(source: Source, live: set<Row>, job: Job, copied: seq<Row>, cursor: nat) {
    && Increasing(copied)
    && (forall r :: r in copied ==> r in live && Selected(source, job, r) && r.key <= cursor)
    && (source == Audit ==> forall r :: r in live && r.key <= job.boundary && r.key <= cursor ==> r in copied)
  }

  ghost predicate CheckedInv(source: Source, live: set<Row>, job: Job, copied: seq<Row>) {
    && Increasing(copied)
    && (forall r :: r in copied ==> r in live && Selected(source, job, r))
    && (source == Audit ==> forall r :: r in live && r.key <= job.boundary ==> r in copied)
  }

  ghost predicate HeldInv(source: Source, live: set<Row>, job: Job, cursor: nat, page: seq<Row>) {
    && Increasing(page)
    && (forall r :: r in page ==> r in live && Selected(source, job, r) && r.key > cursor)
    && (source == Audit ==>
          forall r :: r in live && cursor < r.key <= job.boundary && (page == [] || r.key <= page[|page| - 1].key) ==>
            r in page)
  }

  ghost predicate Unclaimed(files: map<Name, File>, segments: seq<Segment>, job: Job) {
    && !Published(files, job.month)
    && (forall k :: 0 <= k < |segments| ==> segments[k].attempt != job.attempt)
  }

  ghost predicate FileIs(files: map<Name, File>, n: Name, f: File) {
    n in files && files[n] == f
  }

  ghost predicate PassInv(s: State, p: Pass) {
    match p
    case Between => true
    case Starting(job) => JobInv(s, job) && Unclaimed(s.files, s.segments, job)
    case Reading(job, cursor, copied) =>
      && JobInv(s, job) && Unclaimed(s.files, s.segments, job)
      && FileIs(s.files, PartialOf(job), Table(copied, false))
      && CopiedInv(s.source, s.live, job, copied, cursor)
    case Holding(job, cursor, copied, page) =>
      && JobInv(s, job) && Unclaimed(s.files, s.segments, job)
      && FileIs(s.files, PartialOf(job), Table(copied, false))
      && CopiedInv(s.source, s.live, job, copied, cursor)
      && HeldInv(s.source, s.live, job, cursor, page)
    case Checked(job, copied) =>
      && JobInv(s, job) && Unclaimed(s.files, s.segments, job)
      && FileIs(s.files, PartialOf(job), Table(copied, true))
      && CheckedInv(s.source, s.live, job, copied)
    case Removed(job) =>
      && JobInv(s, job) && !Published(s.files, job.month)
      && exists k :: 0 <= k < |s.segments| && s.segments[k].attempt == job.attempt
           && s.segments[k].month == job.month && s.segments[k].place == InPartial
    case Named(job) =>
      Db(job.month) in s.files && s.files[Db(job.month)].Table? && Gz(job.month) !in s.files
    case Compressing(job) =>
      && Db(job.month) in s.files && s.files[Db(job.month)].Table?
      && FileIs(s.files, Gz(job.month), Gzip(s.files[Db(job.month)].rows, false))
    case Compressed(job) =>
      && Db(job.month) in s.files && s.files[Db(job.month)].Table?
      && FileIs(s.files, Gz(job.month), Gzip(s.files[Db(job.month)].rows, true))
  }

  ghost predicate Inv(s: State) {
    && RowsInv(s.live, s.inserted, s.files)
    && SegmentsInv(s.live, s.inserted, s.segments, s.attempts)
    && KeptInv(s.source, s.files, s.segments)
    && AgeInv(s.source, s.segments)
    && PublishedInv(s.live, s.files)
    && FlagInv(s.running, s.passes)
    && forall i :: 0 <= i < |s.passes| ==> PassInv(s, s.passes[i])
  }

  lemma InitInv(source: Source)
    ensures Inv(Init(source))
  {
  }

  // ---------------------------------------------------------------- every action keeps it

  /** Another writer's row is new, and for audit events newer than everything a rotation selected. */
  lemma JobAfterInsert(s: State, r: Row, job: Job)
    requires Enabled(s, Insert(r)) && JobInv(s, job)
    ensures JobInv(Apply(s, Insert(r)), job)
    ensures s.source == Audit ==> r.key > job.boundary
  {
    hide MonthOf;
  }

  lemma CopiesAfterInsert(source: Source, live: set<Row>, r: Row, job: Job, cursor: nat, copied: seq<Row>,
                          page: seq<Row>)
    requires source == Audit ==> r.key > job.boundary
    ensures CopiedInv(source, live, job, copied, cursor) ==> CopiedInv(source, live + {r}, job, copied, cursor)
    ensures HeldInv(source, live, job, cursor, page) ==> HeldInv(source, live + {r}, job, cursor, page)
    ensures CheckedInv(source, live, job, copied) ==> CheckedInv(source, live + {r}, job, copied)
  {
    hide Increasing, Selected;
  }

  lemma InsertKeepsPass(s: State, r: Row, p: Pass)
    requires Enabled(s, Insert(r)) && PassInv(s, p)
    ensures PassInv(Apply(s, Insert(r)), p)
  {
    hide JobInv, CopiedInv, HeldInv, CheckedInv, Unclaimed, MonthOf, Published, FileIs;
    match p {
      case Starting(job) => JobAfterInsert(s, r, job);
      case Reading(job, cursor, copied) =>
        JobAfterInsert(s, r, job);
        CopiesAfterInsert(s.source, s.live, r, job, cursor, copied, []);
      case Holding(job, cursor, copied, page) =>
        JobAfterInsert(s, r, job);
        CopiesAfterInsert(s.source, s.live, r, job, cursor, copied, page);
      case Checked(job, copied) =>
        JobAfterInsert(s, r, job);
        CopiesAfterInsert(s.source, s.live, r, job, 0, copied, []);
      case Removed(job) => JobAfterInsert(s, r, job);
      case _ =>
    }
  }

  lemma InsertKeepsInv(s: State, r: Row)
    requires Inv(s) && Enabled(s, Insert(r))
    ensures Inv(Apply(s, Insert(r)))
  {
    forall i | 0 <= i < |s.passes|
      ensures PassInv(Apply(s, Insert(r)), s.passes[i])
    {
      InsertKeepsPass(s, r, s.passes[i]);
    }
    hide KeptInv, AgeInv, PassInv, MonthOf;
  }

  /** An attempt's number is new, and its job is over rows that are there. */
  lemma BeginsUnclaimed(s: State, before: int, boundary: nat)
    requires SegmentsInv(s.live, s.inserted, s.segments, s.attempts) && RowsInv(s.live, s.inserted, s.files)
    requires !Published(s.files, MonthOf(before - 1)) && (s.source == Audit ==> IsBoundary(s.live, before, boundary))
    ensures var job := Job(MonthOf(before - 1), before, boundary, s.attempts);
      && Unclaimed(s.files, s.segments, job) && JobInv(s.(attempts := s.attempts + 1), job)
    ensures SegmentsInv(s.live, s.inserted, s.segments, s.attempts + 1)
  {
    hide MonthOf, Published;
  }

  lemma BeginKeepsInv(s: State, i: nat, before: int, boundary: nat)
    requires Inv(s) && Enabled(s, Begin(i, before, boundary))
    ensures Inv(Apply(s, Begin(i, before, boundary)))
  {
    hide AgeInv, MonthOf, KeptInv, PublishedInv, RowsInv, SegmentsInv, Unclaimed, JobInv, Published, IsBoundary;
    OnlyPass(s, i);
    BeginsUnclaimed(s, before, boundary);
    SameJob(s.(attempts := s.attempts + 1), Apply(s, Begin(i, before, boundary)),
            Job(MonthOf(before - 1), before, boundary, s.attempts));
  }

  /** Whatever a rotation does to its own provisional file, nothing else on disk notices. */
  lemma OwnPartial(s: State, job: Job, files: map<Name, File>)
    requires Inv(s) && Unclaimed(s.files, s.segments, job)
    requires files.Keys - {PartialOf(job)} == s.files.Keys - {PartialOf(job)}
    requires forall n :: n in files && n in s.files && n != PartialOf(job) ==> files[n] == s.files[n]
    requires PartialOf(job) in files ==> forall r :: r in files[PartialOf(job)].rows ==> r in s.inserted
    ensures RowsInv(s.live, s.inserted, files) && KeptInv(s.source, files, s.segments)
    ensures PublishedInv(s.live, files) && Unclaimed(files, s.segments, job)
  {
    hide AgeInv, MonthOf, SegmentsInv, PassInv;
    assert forall n :: n != PartialOf(job) ==> (n in files <==> n in files.Keys - {PartialOf(job)});
    assert forall n :: n != PartialOf(job) ==> (n in s.files <==> n in s.files.Keys - {PartialOf(job)});
    forall k | 0 <= k < |s.segments| ensures Kept(s.source, files, s.segments[k]) {
      assert Kept(s.source, s.files, s.segments[k]);
    }
  }

  lemma OnlyPass(s: State, i: nat)
    requires Inv(s) && i < |s.passes|
    ensures i == 0 && |s.passes| == 1 && s.passes == [s.passes[0]] && PassInv(s, s.passes[0])
  {
    hide RowsInv, SegmentsInv, KeptInv, AgeInv, PublishedInv, PassInv;
  }

  lemma SameJob(s: State, t: State, job: Job)
    requires JobInv(s, job) && t.attempts == s.attempts && t.source == s.source && t.inserted == s.inserted
    ensures JobInv(t, job)
  {
    hide MonthOf;
  }

  /** A pass moves on: what its files and its own claims must still satisfy. */
  lemma NextPhase(s: State, t: State, p: Pass)
    requires Inv(s) && |s.passes| == 1 && t == s.(passes := [p], files := t.files)
    requires RowsInv(t.live, t.inserted, t.files) && KeptInv(t.source, t.files, t.segments)
    requires PublishedInv(t.live, t.files)
    requires PassInv(t, p)
    ensures Inv(t)
  {
    hide RowsInv, SegmentsInv, KeptInv, AgeInv, PublishedInv, PassInv;
  }

  lemma OpenKeepsInv(s: State, i: nat)
    requires Inv(s) && Enabled(s, Open(i))
    ensures Inv(Apply(s, Open(i)))
  {
    OnlyPass(s, i);
    var p, t := s.passes[0], Apply(s, Open(i));
    SameJob(s, t, p.job);
    NothingCopied(s, p.job);
    hide JobInv, CopiedInv, HeldInv, CheckedInv, Unclaimed, MonthOf, RowsInv, SegmentsInv, KeptInv, AgeInv,
      PublishedInv, Published;
    OwnPartial(s, p.job, t.files);
    NextPhase(s, t, t.passes[0]);
  }

  lemma ReadKeepsInv(s: State, i: nat, page: seq<Row>)
    requires Inv(s) && Enabled(s, ReadPage(i, page))
    ensures Inv(Apply(s, ReadPage(i, page)))
  {
    hide AgeInv, MonthOf, KeptInv, PublishedInv, SegmentsInv, RowsInv;
  }

  /** What a rotation writes into its own file are rows that are live. */
  lemma OwnPages(s: State, job: Job, files: map<Name, File>, rows: seq<Row>)
    requires RowsInv(s.live, s.inserted, s.files) && PartialOf(job) in files && files[PartialOf(job)].rows == rows
    requires forall r :: r in rows ==> r in s.live
    ensures forall r :: r in files[PartialOf(job)].rows ==> r in s.inserted
  {
  }

  lemma NothingCopied(s: State, job: Job)
    requires RowsInv(s.live, s.inserted, s.files)
    ensures CopiedInv(s.source, s.live, job, [], 0)
  {
  }

  lemma CopiedIsChecked(s: State, p: Pass)
    requires PassInv(s, p) && ((p.Holding? && p.page == []) || (p.Reading? && s.source == Audit && p.cursor >= p.job.boundary))
    ensures CheckedInv(s.source, s.live, p.job, p.copied)
  {
    hide JobInv, Unclaimed, FileIs, Increasing;
  }

  lemma WrittenRows(source: Source, live: set<Row>, job: Job, cursor: nat, copied: seq<Row>, page: seq<Row>)
    requires CopiedInv(source, live, job, copied, cursor) && HeldInv(source, live, job, cursor, page)
    ensures forall r :: r in copied + page ==> r in live
  {
    hide Increasing, Selected;
  }

  lemma CheckedRows(source: Source, live: set<Row>, job: Job, copied: seq<Row>)
    requires CheckedInv(source, live, job, copied)
    ensures forall r :: r in copied ==> r in live
  {
  }

  lemma WriteKeepsInv(s: State, i: nat)
    requires Inv(s) && Enabled(s, WritePage(i))
    ensures Inv(Apply(s, WritePage(i)))
  {
    hide JobInv, CopiedInv, HeldInv, CheckedInv, Unclaimed, MonthOf, RowsInv, SegmentsInv, KeptInv, AgeInv,
      PublishedInv, Published;
    OnlyPass(s, i);
    var p, t := s.passes[0], Apply(s, WritePage(i));
    WrittenRows(s.source, s.live, p.job, p.cursor, p.copied, p.page);
    CopiedGrows(s.source, s.live, p.job, p.cursor, p.copied, p.page);
    SameJob(s, t, p.job);
    OwnPages(s, p.job, t.files, p.copied + p.page);
    OwnPartial(s, p.job, t.files);
    NextPhase(s, t, t.passes[0]);
  }

  lemma CopiedGrows(source: Source, live: set<Row>, job: Job, cursor: nat, copied: seq<Row>, page: seq<Row>)
    requires CopiedInv(source, live, job, copied, cursor) && HeldInv(source, live, job, cursor, page) && page != []
    ensures CopiedInv(source, live, job, copied + page, page[|page| - 1].key)
  {
    var last := page[|page| - 1];
    assert last in page;
    forall r | r in copied + page ensures r in live && Selected(source, job, r) && r.key <= last.key {
      if r in page {
        var j :| 0 <= j < |page| && page[j] == r;
      }
    }
  }

  lemma CheckKeepsInv(s: State, i: nat)
    requires Inv(s) && Enabled(s, Check(i))
    ensures Inv(Apply(s, Check(i)))
  {
    hide JobInv, CopiedInv, HeldInv, CheckedInv, Unclaimed, MonthOf, RowsInv, SegmentsInv, KeptInv, AgeInv,
      PublishedInv, Published;
    OnlyPass(s, i);
    var p, t := s.passes[0], Apply(s, Check(i));
    CopiedIsChecked(s, p);
    CheckedRows(s.source, s.live, p.job, p.copied);
    SameJob(s, t, p.job);
    OwnPages(s, p.job, t.files, p.copied);
    OwnPartial(s, p.job, t.files);
    NextPhase(s, t, t.passes[0]);
  }

  /** The delete removes exactly the rows that were copied: no more by key, and for audit no fewer. */
  lemma DeleteRemovesCopied(s: State, job: Job, copied: seq<Row>)
    requires RowsInv(s.live, s.inserted, s.files) && CheckedInv(s.source, s.live, job, copied)
    ensures Remaining(s.source, s.live, job, copied) <= s.live
    ensures forall r :: r in s.live - Remaining(s.source, s.live, job, copied) <==> r in copied
  {
  }

  lemma DeleteKeepsInv(s: State, i: nat)
    requires Inv(s) && Enabled(s, Delete(i))
    ensures Inv(Apply(s, Delete(i)))
  {
    hide MonthOf, FirstInstant, Remaining, SegmentsInv, KeptInv, AgeInv, RowsInv, PublishedInv, CheckedInv, FileIs,
      Published;
    OnlyPass(s, i);
    var s' := Apply(s, Delete(i));
    var p := s.passes[0];
    DeleteRemovesCopied(s, p.job, p.copied);
    assert s'.segments[|s.segments|].attempt == p.job.attempt;
    DeletedParts(s, s', p.job, p.copied);
    SameJob(s, s', p.job);
    hide JobInv;
  }

  lemma DeletedParts(s: State, s': State, job: Job, copied: seq<Row>)
    requires Inv(s) && PassInv(s, Checked(job, copied))
    requires s'.live <= s.live && s'.files == s.files && s'.attempts == s.attempts
    requires s'.inserted == s.inserted && s'.source == s.source
    requires |s'.segments| == |s.segments| + 1 && s'.segments[..|s.segments|] == s.segments
    requires s'.segments[|s.segments|] == Segment(job.month, job.attempt, s.live - s'.live, InPartial)
    requires forall r :: r in s.live - s'.live <==> r in copied
    ensures RowsInv(s'.live, s.inserted, s.files) && PublishedInv(s'.live, s.files)
    ensures SegmentsInv(s'.live, s.inserted, s'.segments, s.attempts)
    ensures KeptInv(s.source, s.files, s'.segments) && AgeInv(s.source, s'.segments)
  {
    LiveShrinks(s, s'.live);
    SegmentJoins(s, s'.live, s'.segments);
    CopiesKept(s, job, copied, s'.segments);
  }

  lemma LiveShrinks(s: State, live: set<Row>)
    requires RowsInv(s.live, s.inserted, s.files) && PublishedInv(s.live, s.files) && live <= s.live
    ensures RowsInv(live, s.inserted, s.files) && PublishedInv(live, s.files)
  {
  }

  lemma SegmentJoins(s: State, live: set<Row>, segments: seq<Segment>)
    requires SegmentsInv(s.live, s.inserted, s.segments, s.attempts) && s.live <= s.inserted && live <= s.live
    requires |segments| == |s.segments| + 1 && segments[..|s.segments|] == s.segments
    requires segments[|s.segments|].rows == s.live - live && segments[|s.segments|].attempt < s.attempts
    requires forall k :: 0 <= k < |s.segments| ==> s.segments[k].attempt != segments[|s.segments|].attempt
    ensures SegmentsInv(live, s.inserted, segments, s.attempts)
  {
    var last := |s.segments|;
    assert forall k :: 0 <= k < last ==> segments[k] == segments[..last][k] == s.segments[k];
    forall r | r in s.inserted && r !in live
      ensures exists k :: 0 <= k < |segments| && r in segments[k].rows
    {
      if r in s.live {
        assert r in segments[last].rows;
      } else {
        var k :| 0 <= k < last && r in s.segments[k].rows;
        assert r in segments[k].rows;
      }
    }
  }

  lemma CopiesKept(s: State, job: Job, copied: seq<Row>, segments: seq<Segment>)
    requires KeptInv(s.source, s.files, s.segments) && AgeInv(s.source, s.segments)
    requires FileIs(s.files, PartialOf(job), Table(copied, true)) && CheckedInv(s.source, s.live, job, copied)
    requires job.month == MonthOf(job.before - 1)
    requires |segments| == |s.segments| + 1 && segments[..|s.segments|] == s.segments
    requires var g := segments[|s.segments|];
             g.month == job.month && g.attempt == job.attempt && g.place == InPartial
             && forall r :: r in g.rows <==> r in copied
    ensures KeptInv(s.source, s.files, segments) && AgeInv(s.source, segments)
  {
    hide MonthOf, FirstInstant;
    var last := |s.segments|;
    assert forall k :: 0 <= k < last ==> segments[k] == segments[..last][k] == s.segments[k];
    assert Kept(s.source, s.files, segments[last]);
  }

  lemma FailKeepsInv(s: State, i: nat, cleaned: bool)
    requires Inv(s) && Enabled(s, Fail(i, cleaned))
    ensures Inv(Apply(s, Fail(i, cleaned)))
  {
    OnlyPass(s, i);
    var p, t := s.passes[0], Apply(s, Fail(i, cleaned));
    hide JobInv, CopiedInv, HeldInv, CheckedInv, Unclaimed, MonthOf, RowsInv, SegmentsInv, KeptInv, AgeInv,
      PublishedInv, Published;
    OwnPartial(s, p.job, t.files);
    NextPhase(s, t, Between);
  }

  /** The directory after a rename. */
  function Renamed(files: map<Name, File>, job: Job): map<Name, File>
    requires PartialOf(job) in files
  {
    Without(files, PartialOf(job))[Db(job.month) := files[PartialOf(job)]]
  }

  ghost predicate RenamePending(s: State, job: Job) {
    && PartialOf(job) in s.files && !Published(s.files, job.month)
    && exists k :: 0 <= k < |s.segments| && s.segments[k].attempt == job.attempt
         && s.segments[k].month == job.month && s.segments[k].place == InPartial
  }

  lemma RenamedSegments(s: State, job: Job)
    requires SegmentsInv(s.live, s.inserted, s.segments, s.attempts) && AgeInv(s.source, s.segments)
    ensures SegmentsInv(s.live, s.inserted, Promoted(s.segments, job.attempt), s.attempts)
    ensures AgeInv(s.source, Promoted(s.segments, job.attempt))
  {
    hide SegmentsInv, AgeInv;
    SameRows(s.segments, Promoted(s.segments, job.attempt), s.live, s.inserted, s.attempts, s.source);
  }

  lemma RenamedFiles(s: State, job: Job)
    requires RenamePending(s, job)
    requires RowsInv(s.live, s.inserted, s.files) && PublishedInv(s.live, s.files)
    requires KeptInv(s.source, s.files, s.segments) && SegmentsInv(s.live, s.inserted, s.segments, s.attempts)
    ensures RowsInv(s.live, s.inserted, Renamed(s.files, job)) && PublishedInv(s.live, Renamed(s.files, job))
    ensures s.files[PartialOf(job)].Table? && Gz(job.month) !in Renamed(s.files, job)
  {
    var k :| 0 <= k < |s.segments| && s.segments[k].attempt == job.attempt
      && s.segments[k].month == job.month && s.segments[k].place == InPartial;
    assert Kept(s.source, s.files, s.segments[k]);
    assert forall r :: r in s.files[PartialOf(job)].rows ==> r in s.segments[k].rows;
  }

  lemma RenamedKept(s: State, job: Job)
    requires RenamePending(s, job) && KeptInv(s.source, s.files, s.segments)
    requires SegmentsInv(s.live, s.inserted, s.segments, s.attempts)
    ensures KeptInv(s.source, Renamed(s.files, job), Promoted(s.segments, job.attempt))
  {
    var g, h := s.segments, Promoted(s.segments, job.attempt);
    var at :| 0 <= at < |g| && g[at].attempt == job.attempt && g[at].month == job.month && g[at].place == InPartial;
    assert forall k :: 0 <= k < |g| && k != at ==> g[k].attempt != job.attempt;
    hide SegmentsInv;
    forall k | 0 <= k < |g| ensures Kept(s.source, Renamed(s.files, job), h[k]) {
      assert Kept(s.source, s.files, g[k]);
      assert h[k] == if k == at then g[k].(place := InDb) else g[k];
    }
  }

  lemma RenameKeepsInv(s: State, i: nat)
    requires Inv(s) && Enabled(s, Rename(i))
    ensures Inv(Apply(s, Rename(i)))
  {
    hide MonthOf, FirstInstant, RowsInv, SegmentsInv, KeptInv, AgeInv, PublishedInv, JobInv;
    OnlyPass(s, i);
    var s' := Apply(s, Rename(i));
    var job := s.passes[0].job;
    assert !Published(s.files, job.month);
    RenamedSegments(s, job);
    RenamedFiles(s, job);
    RenamedKept(s, job);
  }

  /** Moving segments about changes neither which rows they hold nor the months they are named for. */
  lemma SameRows(g: seq<Segment>, h: seq<Segment>, live: set<Row>, inserted: set<Row>, attempts: nat, source: Source)
    requires |g| == |h|
    requires forall k :: 0 <= k < |g| ==> h[k] == g[k].(place := h[k].place)
    requires SegmentsInv(live, inserted, g, attempts) && AgeInv(source, g)
    ensures SegmentsInv(live, inserted, h, attempts) && AgeInv(source, h)
  {
    hide FirstInstant;
    forall r | r in inserted && r !in live
      ensures exists k :: 0 <= k < |h| && r in h[k].rows
    {
      var k :| 0 <= k < |g| && r in g[k].rows;
      assert r in h[k].rows;
    }
  }

  /** The compressed file of a month whose plain file is there: nothing is kept in it yet. */
  lemma OwnGzip(s: State, month: int, files: map<Name, File>)
    requires RowsInv(s.live, s.inserted, s.files) && KeptInv(s.source, s.files, s.segments)
    requires PublishedInv(s.live, s.files)
    requires Db(month) in s.files && files.Keys - {Gz(month)} == s.files.Keys - {Gz(month)}
    requires forall n :: n in files && n in s.files && n != Gz(month) ==> files[n] == s.files[n]
    requires Gz(month) in files ==> files[Gz(month)].rows == s.files[Db(month)].rows
    ensures RowsInv(s.live, s.inserted, files) && KeptInv(s.source, files, s.segments) && PublishedInv(s.live, files)
  {
    assert forall n :: n != Gz(month) ==> (n in files <==> n in files.Keys - {Gz(month)});
    assert forall n :: n != Gz(month) ==> (n in s.files <==> n in s.files.Keys - {Gz(month)});
    forall k | 0 <= k < |s.segments| ensures Kept(s.source, files, s.segments[k]) {
      assert Kept(s.source, s.files, s.segments[k]);
    }
  }

  lemma CompressKeepsInv(s: State, a: Action)
    requires Inv(s) && Enabled(s, a) && (a.StartCompress? || a.FinishCompress? || a.CompressFails?)
    ensures Inv(Apply(s, a))
  {
    OnlyPass(s, a.i);
    var p, t := s.passes[0], Apply(s, a);
    hide JobInv, MonthOf, RowsInv, SegmentsInv, KeptInv, AgeInv, PublishedInv, Inv;
    assert RowsInv(s.live, s.inserted, s.files) && KeptInv(s.source, s.files, s.segments) && PublishedInv(s.live, s.files) by {
      Parts(s);
    }
    OwnGzip(s, p.job.month, t.files);
    assert PassInv(t, t.passes[0]);
    hide Enabled, PassInv;
    NextPhase(s, t, t.passes[0]);
  }

  lemma Parts(s: State)
    requires Inv(s)
    ensures RowsInv(s.live, s.inserted, s.files) && KeptInv(s.source, s.files, s.segments) && PublishedInv(s.live, s.files)
  {
    hide RowsInv, KeptInv, PublishedInv, SegmentsInv, AgeInv, PassInv;
  }

  lemma RemoveDbKeepsInv(s: State, i: nat)
    requires Inv(s) && Enabled(s, RemoveDb(i))
    ensures Inv(Apply(s, RemoveDb(i)))
  {
    hide MonthOf, FirstInstant;
    var s' := Apply(s, RemoveDb(i));
    var month := s.passes[i].job.month;
    assert KeptInv(s'.source, s'.files, s'.segments) by {
      forall k | 0 <= k < |s.segments| ensures Kept(s'.source, s'.files, s'.segments[k]) {
        assert Kept(s.source, s.files, s.segments[k]);
      }
    }
    SameRows(s.segments, s'.segments, s.live, s.inserted, s.attempts, s.source);
  }

  lemma PruneKeepsInv(s: State, i: nat, month: int, cutoff: int)
    requires Inv(s) && Enabled(s, Prune(i, month, cutoff))
    ensures Inv(Apply(s, Prune(i, month, cutoff)))
  {
    hide MonthOf, FirstInstant;
    var s' := Apply(s, Prune(i, month, cutoff));
    assert KeptInv(s'.source, s'.files, s'.segments) by {
      forall k | 0 <= k < |s.segments| ensures Kept(s'.source, s'.files, s'.segments[k]) {
        assert Kept(s.source, s.files, s.segments[k]);
      }
    }
    SameRows(s.segments, s'.segments, s.live, s.inserted, s.attempts, s.source);
  }

  lemma StepKeepsInv(s: State, a: Action)
    requires Inv(s) && Enabled(s, a)
    ensures Inv(Apply(s, a))
  {
    hide *;
    match a
    case Insert(r) => InsertKeepsInv(s, r);
    case Begin(i, before, boundary) => BeginKeepsInv(s, i, before, boundary);
    case Open(i) => OpenKeepsInv(s, i);
    case ReadPage(i, page) => ReadKeepsInv(s, i, page);
    case WritePage(i) => WriteKeepsInv(s, i);
    case Check(i) => CheckKeepsInv(s, i);
    case Delete(i) => DeleteKeepsInv(s, i);
    case Fail(i, cleaned) => FailKeepsInv(s, i, cleaned);
    case Rename(i) => RenameKeepsInv(s, i);
    case StartCompress(_) => CompressKeepsInv(s, a);
    case FinishCompress(_) => CompressKeepsInv(s, a);
    case CompressFails(_, _) => CompressKeepsInv(s, a);
    case RemoveDb(i) => RemoveDbKeepsInv(s, i);
    case Prune(i, month, cutoff) => PruneKeepsInv(s, i, month, cutoff);
    case _ => IdleKeepsInv(s, a);
  }

  lemma IdleKeepsInv(s: State, a: Action)
    requires Inv(s) && Enabled(s, a)
    requires a.Tick? || a.EndPass? || a.RenameFails? || a.RemoveDbFails? || a.Crash?
    ensures Inv(Apply(s, a))
  {
    hide MonthOf, RowsInv, SegmentsInv, KeptInv, AgeInv, PublishedInv;
  }

  lemma {:induction false} RunKeepsInv(s: State, run: seq<Action>)
    requires Inv(s) && Legal(s, run)
    ensures Inv(After(s, run))
    decreases |run|
  {
    hide Inv, Enabled, Apply;
    if run == [] {
    } else {
      RunKeepsInv(s, run[..|run| - 1]);
      StepKeepsInv(After(s, run[..|run| - 1]), run[|run| - 1]);
    }
  }

  // ---------------------------------------------------------------- what every run guarantees

  /** A row is on disk where a reader or an operator would look for it: never in an unchecked or truncated file. */
  ghost predicate OnDisk(s: State, r: Row) {
    exists n :: n in s.files && r in s.files[n].rows
      && (n.Partial? ==> s.files[n].Table? && s.files[n].checked)
      && (n.Gz? ==> s.files[n].Gzip? && s.files[n].complete)
  }

  /** A log line whose archive retention pruned, which it does only once the line is older than its cutoff. */
  ghost predicate Expired(s: State, r: Row) {
    && s.source == Logs
    && exists k :: 0 <= k < |s.segments| && r in s.segments[k].rows
                   && s.segments[k].place.Pruned? && r.at < s.segments[k].place.cutoff
  }

  /**
   Duplicated, never lost. Whatever rotations ran, wherever each of them failed or the process died, and
   whatever others wrote meanwhile: every row ever inserted is live, or on disk in a whole and checked file,
   or (log lines only) in an archive retention has since expired.
   */
  lemma NoRowIsLost(source: Source, run: seq<Action>, r: Row)
    requires Legal(Init(source), run) && r in After(Init(source), run).inserted
    ensures var s := After(Init(source), run); r in s.live || OnDisk(s, r) || Expired(s, r)
  {
    InitInv(source);
    RunKeepsInv(Init(source), run);
    hide AgeInv, PublishedInv, MonthOf;
    var s := After(Init(source), run);
    if r !in s.live {
      var k :| 0 <= k < |s.segments| && r in s.segments[k].rows;
      assert Kept(s.source, s.files, s.segments[k]);
    }
  }

  /** No live delete takes a row twice, or one that is still live: each row left the live table at most once. */
  lemma EachRowMovesOnce(source: Source, run: seq<Action>, r: Row, k: nat)
    requires Legal(Init(source), run)
    requires var s := After(Init(source), run); k < |s.segments| && r in s.segments[k].rows
    ensures var s := After(Init(source), run);
      r !in s.live && forall j :: 0 <= j < |s.segments| && r in s.segments[j].rows ==> j == k
  {
    InitInv(source);
    RunKeepsInv(Init(source), run);
    hide KeptInv, AgeInv, PublishedInv, MonthOf;
    var s := After(Init(source), run);
    assert forall j, i :: 0 <= j < i < |s.segments| ==> s.segments[j].rows !! s.segments[i].rows;
  }

  /** The `running` flag is what keeps two rotations apart: no run has two passes in progress. */
  lemma OnePassAtATime(source: Source, run: seq<Action>)
    requires Legal(Init(source), run)
    ensures var s := After(Init(source), run); |s.passes| <= 1 && (s.running <==> |s.passes| == 1)
  {
    InitInv(source);
    RunKeepsInv(Init(source), run);
  }

  /**
   Publication discipline: a finished archive's name holds no row that is still live, a `.gz` with no `.db`
   beside it is complete, and until the live delete the period's own names are free.
   */
  lemma PublishedMeansMoved(source: Source, run: seq<Action>)
    requires Legal(Init(source), run)
    ensures var s := After(Init(source), run);
      && (forall n, r :: n in s.files && !n.Partial? && r in s.files[n].rows ==> r !in s.live)
      && (forall m :: Gz(m) in s.files && Db(m) !in s.files ==> s.files[Gz(m)].Gzip? && s.files[Gz(m)].complete)
      && (forall i :: 0 <= i < |s.passes| && BeforeDelete(s.passes[i]) ==> !Published(s.files, s.passes[i].job.month))
  {
    InitInv(source);
    RunKeepsInv(Init(source), run);
    var s := After(Init(source), run);
    forall i | 0 <= i < |s.passes| && BeforeDelete(s.passes[i])
      ensures !Published(s.files, s.passes[i].job.month)
    {
      assert PassInv(s, s.passes[i]);
    }
  }

  /** A rotation that fails or dies before its delete costs nothing: no live row, and the retry is not refused. */
  lemma FailureIsFree(source: Source, run: seq<Action>, i: nat, end: Action)
    requires Legal(Init(source), run) && (end.Fail? || end.Crash?)
    requires var s := After(Init(source), run);
      i < |s.passes| && BeforeDelete(s.passes[i]) && Enabled(s, end) && (end.Fail? ==> end.i == i)
    ensures var s := After(Init(source), run);
      var t := Apply(s, end);
      && t.live == s.live && t.segments == s.segments
      && forall before, boundary :: MonthOf(before - 1) == s.passes[i].job.month && IsBoundary(t.live, before, boundary) ==>
           Enabled(t.(running := true, passes := [Between]), Begin(0, before, boundary))
  {
    PublishedMeansMoved(source, run);
    EndLeavesNamesFree(After(Init(source), run), i, end);
    var s := After(Init(source), run);
    var t := Apply(s, end);
    hide *;
    forall before, boundary | MonthOf(before - 1) == s.passes[i].job.month && IsBoundary(t.live, before, boundary)
      ensures Enabled(t.(running := true, passes := [Between]), Begin(0, before, boundary))
    {
      FreeNamesAdmit(t, before, boundary);
    }
  }

  lemma FreeNamesAdmit(t: State, before: int, boundary: nat)
    requires !Published(t.files, MonthOf(before - 1)) && IsBoundary(t.live, before, boundary)
    ensures Enabled(t.(running := true, passes := [Between]), Begin(0, before, boundary))
  {
    hide MonthOf, Published, IsBoundary;
  }

  lemma EndLeavesNamesFree(s: State, i: nat, end: Action)
    requires i < |s.passes| && BeforeDelete(s.passes[i]) && !Published(s.files, s.passes[i].job.month)
    requires Enabled(s, end) && (end.Crash? || (end.Fail? && end.i == i))
    ensures var t := Apply(s, end);
      t.live == s.live && t.segments == s.segments && !Published(t.files, s.passes[i].job.month)
  {
    hide IsPage, IsBoundary;
  }

  /**
   After the delete, the rows removed are exactly those copied, and they are in the checked provisional file
   even if nothing further ever succeeds.
   */
  lemma DeleteIsBacked(source: Source, run: seq<Action>, i: nat)
    requires Legal(Init(source), run) && Enabled(After(Init(source), run), Delete(i))
    ensures var s := After(Init(source), run);
      var t := Apply(s, Delete(i));
      var n := PartialOf(s.passes[i].job);
      && n in t.files && t.files[n] == Table(s.passes[i].copied, true)
      && (forall r :: r in s.live && r !in t.live <==> r in s.passes[i].copied)
      && Increasing(s.passes[i].copied)
  {
    InitInv(source);
    RunKeepsInv(Init(source), run);
    DeleteBacked(After(Init(source), run), i);
  }

  lemma DeleteBacked(s: State, i: nat)
    requires Inv(s) && Enabled(s, Delete(i))
    ensures var t := Apply(s, Delete(i));
      var n := PartialOf(s.passes[i].job);
      && n in t.files && t.files[n] == Table(s.passes[i].copied, true)
      && (forall r :: r in s.live && r !in t.live <==> r in s.passes[i].copied)
      && Increasing(s.passes[i].copied)
  {
    hide RowsInv, SegmentsInv, KeptInv, AgeInv, PublishedInv, MonthOf, Remaining, Increasing, Selected;
    OnlyPass(s, i);
    var p, t := s.passes[0], Apply(s, Delete(i));
    DeleteRemovesCopied(s, p.job, p.copied);
    hide CheckedInv;
    forall r ensures r in s.live && r !in t.live <==> r in p.copied {
      assert r in s.live - t.live <==> r in p.copied;
    }
    assert Increasing(p.copied) by { CheckedAscends(s.source, s.live, p.job, p.copied); }
  }

  lemma CheckedAscends(source: Source, live: set<Row>, job: Job, copied: seq<Row>)
    requires CheckedInv(source, live, job, copied)
    ensures Increasing(copied)
  {
  }

  // ---------------------------------------------------------------- what strands rows in a provisional file

  predicate InPartialOf(segments: seq<Segment>, attempt: nat) {
    exists k :: 0 <= k < |segments| && segments[k].attempt == attempt && segments[k].place == InPartial
  }

  predicate AboutToRename(passes: seq<Pass>, attempt: nat) {
    exists i :: 0 <= i < |passes| && passes[i].Removed? && passes[i].job.attempt == attempt
  }

  /** The only copy of removed rows is an attempt's provisional file, and nothing in progress is going to name it. */
  predicate Stranded(s: State, attempt: nat) {
    InPartialOf(s.segments, attempt) && !AboutToRename(s.passes, attempt)
  }

  /**
   The module comment names one exception to "a provisional file holds rows the live database still has": a rename
   that fails, which is reported. There are exactly two, and the other is silent: the process dying between the
   live delete and the rename.
   */
  lemma WhatStrandsRows(source: Source, run: seq<Action>, a: Action, attempt: nat)
    requires Legal(Init(source), run) && Enabled(After(Init(source), run), a)
    requires !Stranded(After(Init(source), run), attempt)
    ensures var s := After(Init(source), run);
      Stranded(Apply(s, a), attempt) <==>
        |s.passes| == 1 && s.passes[0].Removed? && s.passes[0].job.attempt == attempt && (a.RenameFails? || a.Crash?)
  {
    InitInv(source);
    RunKeepsInv(Init(source), run);
    var s := After(Init(source), run);
    hide Legal, After, RowsInv, KeptInv, AgeInv, PublishedInv, MonthOf, IsPage, IsBoundary, FullyAged;
    if |s.passes| == 1 && s.passes[0].Removed? {
      assert PassInv(s, s.passes[0]);
    }
    StrandingStep(s, a, attempt);
  }

  lemma PassesOf(passes: seq<Pass>, attempt: nat)
    requires |passes| <= 1
    ensures AboutToRename(passes, attempt) <==> |passes| == 1 && passes[0].Removed? && passes[0].job.attempt == attempt
  {
  }

  lemma MovesLeavePartials(segments: seq<Segment>, from: Place, month: int, to: Place, attempt: nat)
    requires from != InPartial && to != InPartial
    ensures InPartialOf(Moved(segments, from, month, to), attempt) <==> InPartialOf(segments, attempt)
  {
    var r := Moved(segments, from, month, to);
    assert forall k :: 0 <= k < |r| ==>
      (r[k].attempt == segments[k].attempt && (r[k].place == InPartial <==> segments[k].place == InPartial));
  }

  lemma PromotionNamesOne(segments: seq<Segment>, promoted: nat, attempt: nat)
    ensures InPartialOf(Promoted(segments, promoted), attempt) <==> attempt != promoted && InPartialOf(segments, attempt)
  {
    var r := Promoted(segments, promoted);
    assert forall k :: 0 <= k < |r| ==>
      (r[k].attempt == segments[k].attempt
       && (r[k].place == InPartial <==> segments[k].place == InPartial && segments[k].attempt != promoted));
  }

  lemma OneMoreSegment(segments: seq<Segment>, g: Segment, attempt: nat)
    ensures InPartialOf(segments + [g], attempt) <==>
      InPartialOf(segments, attempt) || (g.attempt == attempt && g.place == InPartial)
  {
    var r := segments + [g];
    assert r[|segments|] == g;
    assert forall k :: 0 <= k < |segments| ==> r[k] == segments[k];
  }

  lemma StrandingStep(s: State, a: Action, attempt: nat)
    requires Enabled(s, a) && !Stranded(s, attempt) && FlagInv(s.running, s.passes)
    requires |s.passes| == 1 && s.passes[0].Removed? ==> InPartialOf(s.segments, s.passes[0].job.attempt)
    ensures Stranded(Apply(s, a), attempt) <==>
      |s.passes| == 1 && s.passes[0].Removed? && s.passes[0].job.attempt == attempt && (a.RenameFails? || a.Crash?)
  {
    hide MonthOf, IsPage, IsBoundary, FullyAged, Remaining, InPartialOf, AboutToRename, Moved, Promoted;
    var t := Apply(s, a);
    PassesOf(s.passes, attempt);
    PassesOf(t.passes, attempt);
    match a {
      case Rename(i) => PromotionNamesOne(s.segments, s.passes[i].job.attempt, attempt);
      case RemoveDb(i) => MovesLeavePartials(s.segments, InDb, s.passes[i].job.month, InGz, attempt);
      case Prune(i, month, cutoff) => MovesLeavePartials(s.segments, InGz, month, Pruned(cutoff), attempt);
      case Delete(i) => OneMoreSegment(s.segments, t.segments[|s.segments|], attempt);
      case _ =>
    }
  }
}
