/**
 Log lines coming in while rotations run, by the clock (`ingest.ts`, `log-service.ts`, `retention.ts`). A line is dated
 at one instant and inserted at a later one; a sweep rotates months that had ended a retention window earlier. Which
 rotations began and how long inserts took are recorded for the statements; no action decides by them.
 */
module LogArrivals {
  import opened Calendar
  import opened Wrappers
  import opened LogSweep
  import opened Numbers
  import R = Rotation
  import P = Period
  import T = ReportedTime

  /**
   `window` is the least retention in force during the run, `begun` holds the boundary of every rotation begun,
   `slowest` is the longest any row took from its dating to its insert, and `late` says whether a row was ever inserted
   that was dated before the boundary of a rotation already begun.
   */
  datatype State = State(world: R.State, clock: int, window: int, begun: set<int>, slowest: int, late: bool)

  datatype Action =
    | Pass(to: int)
    | Insert(row: R.Row, reported: Option<int>, dated: int)
    | Begin(month: int)
    | Do(a: R.Action)

  function BeginOf(month: int): R.Action { R.Begin(0, FirstInstant(month + 1), 0) }

  ghost predicate Enabled(s: State, a: Action) {
    match a
    case Pass(to) => to >= s.clock
    case Insert(row, reported, dated) =>
      R.Enabled(s.world, R.Insert(row)) && dated <= s.clock && row.at == T.PlausibleTime(reported, dated)
    case Begin(month) => R.Enabled(s.world, BeginOf(month)) && FirstInstant(month + 1) <= s.clock - s.window
    case Do(a) => !a.Insert? && !a.Begin? && R.Enabled(s.world, a)
  }

  /** A moment before the boundary of a rotation already begun. */
  predicate DatedBefore(begun: set<int>, at: int) { exists b :: b in begun && at < b }

  function Apply(s: State, a: Action): State
    requires Enabled(s, a)
  {
    match a
    case Pass(to) => s.(clock := to)
    case Insert(row, reported, dated) =>
      s.(world := R.Apply(s.world, R.Insert(row)), late := s.late || DatedBefore(s.begun, row.at),
         slowest := Max(s.slowest, s.clock - dated))
    case Begin(month) =>
      s.(world := R.Apply(s.world, BeginOf(month)), begun := s.begun + {FirstInstant(month + 1)})
    case Do(a) => s.(world := R.Apply(s.world, a))
  }

  function Init(clock: int, window: int): State { State(R.Init(R.Logs), clock, window, {}, 0, false) }

  ghost predicate Legal(s: State, run: seq<Action>)
    decreases |run|, 0
  {
    run == [] || (Legal(s, run[..|run| - 1]) && Enabled(After(s, run[..|run| - 1]), run[|run| - 1]))
  }

  ghost function After(s: State, run: seq<Action>): State
    requires Legal(s, run)
    decreases |run|, 1
  {
    if run == [] then s else Apply(After(s, run[..|run| - 1]), run[|run| - 1])
  }

  // ---------------------------------------------------------------- the invariant

  ghost predicate Ours(begun: set<int>, job: R.Job) {
    job.before == FirstInstant(job.month + 1) && job.before in begun
  }

  /** Every row dated before the rotation's boundary is copied, or still to be read. */
  ghost predicate PassOnTime(live: set<R.Row>, begun: set<int>, p: R.Pass) {
    match p
    case Starting(job) => Ours(begun, job)
    case Reading(job, cursor, copied) =>
      Ours(begun, job) && forall r :: r in live && r.at < job.before && r.key <= cursor ==> r in copied
    case Holding(job, cursor, copied, page) =>
      && Ours(begun, job)
      && forall r :: r in live && r.at < job.before ==>
           r in copied || r in page || (page != [] && r.key > page[|page| - 1].key)
    case Checked(job, copied) => Ours(begun, job) && forall r :: r in live && r.at < job.before ==> r in copied
    case Removed(job) => Ours(begun, job) && forall r :: r in live ==> r.at >= job.before
    case _ => true
  }

  /** Nothing live is dated before the end of a month that has its archive. */
  ghost predicate FilesOnTime(live: set<R.Row>, files: map<R.Name, R.File>, begun: set<int>) {
    forall month :: R.Published(files, month) ==>
      FirstInstant(month + 1) in begun && forall r :: r in live ==> r.at >= FirstInstant(month + 1)
  }

  ghost predicate OnTime(w: R.State, begun: set<int>) {
    && FilesOnTime(w.live, w.files, begun)
    && forall i :: 0 <= i < |w.passes| ==> PassOnTime(w.live, begun, w.passes[i])
  }

  ghost predicate Inv(s: State) {
    && R.Inv(s.world) && s.world.source == R.Logs
    && (forall b :: b in s.begun ==> b <= s.clock - s.window)
    && (s.late ==> s.window < T.PAST_TOLERANCE_MS + s.slowest)
    && (!s.late ==> OnTime(s.world, s.begun))
  }

  lemma InitInv(clock: int, window: int)
    ensures Inv(Init(clock, window))
  {
    R.InitInv(R.Logs);
  }

  // ---------------------------------------------------------------- every step keeps it

  lemma InsertKeepsOnTime(w: R.State, begun: set<int>, row: R.Row)
    requires OnTime(w, begun) && R.Enabled(w, R.Insert(row)) && !DatedBefore(begun, row.at)
    ensures OnTime(R.Apply(w, R.Insert(row)), begun)
  {
    hide FirstInstant, R.Published;
  }

  lemma InsertKeepsInv(s: State, row: R.Row, reported: Option<int>, dated: int)
    requires Inv(s) && Enabled(s, Insert(row, reported, dated))
    ensures Inv(Apply(s, Insert(row, reported, dated)))
  {
    R.StepKeepsInv(s.world, R.Insert(row));
    hide R.Inv, OnTime;
    if !s.late && !DatedBefore(s.begun, row.at) {
      InsertKeepsOnTime(s.world, s.begun, row);
    }
  }

  lemma BeginKeepsInv(s: State, month: int)
    requires Inv(s) && Enabled(s, Begin(month))
    ensures Inv(Apply(s, Begin(month)))
  {
    hide R.Inv, R.Enabled, R.Apply, OnTime, FirstInstant, BeginOf;
    R.StepKeepsInv(s.world, BeginOf(month));
    BegunIs(s.world, month);
    if !s.late {
      BeginKeepsOnTime(s.world, s.begun, month);
    }
  }

  lemma BegunIs(w: R.State, month: int)
    requires R.Enabled(w, BeginOf(month))
    ensures var t := R.Apply(w, BeginOf(month));
      && t.live == w.live && t.files == w.files && t.source == w.source && |w.passes| > 0
      && t.passes == w.passes[0 := R.Starting(R.Job(month, FirstInstant(month + 1), 0, w.attempts))]
  {
    BoundaryNamesEndedMonth(month);
    hide MonthOf, FirstInstant, R.IsBoundary, R.Published;
  }

  lemma BeginKeepsOnTime(w: R.State, begun: set<int>, month: int)
    requires OnTime(w, begun) && R.Enabled(w, BeginOf(month))
    ensures OnTime(R.Apply(w, BeginOf(month)), begun + {FirstInstant(month + 1)})
  {
    hide R.Enabled, R.Apply, R.Published, FirstInstant, BeginOf;
    BegunIs(w, month);
    var t, later := R.Apply(w, BeginOf(month)), begun + {FirstInstant(month + 1)};
    forall i | 0 <= i < |t.passes| ensures PassOnTime(t.live, later, t.passes[i]) {
      if i > 0 {
        assert PassOnTime(w.live, begun, w.passes[i]);
      }
    }
    hide PassOnTime;
  }

  /** Steps of a pass that name no file. */
  lemma PassKeepsOnTime(w: R.State, begun: set<int>, a: R.Action)
    requires R.Inv(w) && w.source == R.Logs && OnTime(w, begun) && R.Enabled(w, a)
    requires a.Open? || a.ReadPage? || a.WritePage? || a.Check?
    ensures OnTime(R.Apply(w, a), begun)
  {
    hide R.Inv, FirstInstant, R.Published, R.PassInv, R.IsBoundary, MonthOf, R.Increasing;
    R.OnlyPass(w, a.i);
    KeysArePositive(w);
    SameNames(w, a);
    var t := R.Apply(w, a);
    assert PassOnTime(w.live, begun, w.passes[0]);
    assert PassOnTime(t.live, begun, t.passes[0]);
    hide PassOnTime, R.Enabled, R.Apply;
  }

  lemma KeysArePositive(w: R.State)
    requires R.Inv(w)
    ensures forall r :: r in w.live ==> r.key > 0
  {
  }

  lemma SameNames(w: R.State, a: R.Action)
    requires R.Enabled(w, a) && (a.Open? || a.ReadPage? || a.WritePage? || a.Check?)
    ensures R.Apply(w, a).live == w.live && |R.Apply(w, a).passes| == |w.passes|
    ensures forall month :: R.Published(R.Apply(w, a).files, month) <==> R.Published(w.files, month)
  {
    hide R.IsPage;
  }

  lemma DeleteKeepsOnTime(w: R.State, begun: set<int>, i: nat)
    requires R.Inv(w) && w.source == R.Logs && OnTime(w, begun) && R.Enabled(w, R.Delete(i))
    ensures OnTime(R.Apply(w, R.Delete(i)), begun)
  {
    R.DeleteBacked(w, i);
    R.OnlyPass(w, i);
    hide R.Inv, FirstInstant, R.Published, R.PassInv, R.Remaining;
    assert PassOnTime(w.live, begun, w.passes[0]);
    RemainingAreLive(w, i);
  }

  lemma RemainingAreLive(w: R.State, i: nat)
    requires R.Enabled(w, R.Delete(i))
    ensures R.Apply(w, R.Delete(i)).live <= w.live
  {
  }

  lemma RenameKeepsOnTime(w: R.State, begun: set<int>, i: nat)
    requires R.Inv(w) && OnTime(w, begun) && R.Enabled(w, R.Rename(i))
    ensures OnTime(R.Apply(w, R.Rename(i)), begun)
  {
    hide R.Inv, FirstInstant, R.PassInv, R.Apply, R.Published, MonthOf, R.IsPage, R.IsBoundary;
    R.OnlyPass(w, i);
    RenamedIs(w, i);
    assert PassOnTime(w.live, begun, w.passes[0]);
    hide R.Enabled;
  }

  lemma RenamedIs(w: R.State, i: nat)
    requires R.Enabled(w, R.Rename(i))
    ensures var t, job := R.Apply(w, R.Rename(i)), w.passes[i].job;
      && t.live == w.live && t.passes == w.passes[i := R.Named(job)]
      && forall month :: R.Published(t.files, month) <==> R.Published(w.files, month) || month == job.month
  {
    hide R.Promoted;
  }

  /** Whatever else happens, no month comes to have an archive that had none. */
  lemma OthersKeepOnTime(w: R.State, begun: set<int>, a: R.Action)
    requires R.Inv(w) && OnTime(w, begun) && R.Enabled(w, a)
    requires !a.Insert? && !a.Begin? && !a.Open? && !a.ReadPage? && !a.WritePage? && !a.Check? && !a.Delete? && !a.Rename?
    ensures OnTime(R.Apply(w, a), begun)
  {
    NoNewArchive(w, a);
    hide R.Inv, FirstInstant, R.Published, R.PassInv, R.Moved;
  }

  lemma NoNewArchive(w: R.State, a: R.Action)
    requires R.Inv(w) && R.Enabled(w, a)
    requires !a.Insert? && !a.Begin? && !a.Open? && !a.ReadPage? && !a.WritePage? && !a.Check? && !a.Delete? && !a.Rename?
    ensures forall month :: R.Published(R.Apply(w, a).files, month) ==> R.Published(w.files, month)
    ensures R.Apply(w, a).live == w.live
  {
    if a.FinishCompress? {
      R.OnlyPass(w, a.i);
    }
    hide R.RowsInv, R.SegmentsInv, R.KeptInv, R.AgeInv, R.PublishedInv, FullyAged, R.Moved;
  }

  lemma DoKeepsInv(s: State, a: R.Action)
    requires Inv(s) && Enabled(s, Do(a))
    ensures Inv(Apply(s, Do(a)))
  {
    R.StepKeepsInv(s.world, a);
    SameSource(s.world, a);
    hide *;
    hide R.Inv, OnTime, R.Enabled, R.Apply;
    if !s.late {
      match a
      case Open(_) => PassKeepsOnTime(s.world, s.begun, a);
      case ReadPage(_, _) => PassKeepsOnTime(s.world, s.begun, a);
      case WritePage(_) => PassKeepsOnTime(s.world, s.begun, a);
      case Check(_) => PassKeepsOnTime(s.world, s.begun, a);
      case Delete(i) => DeleteKeepsOnTime(s.world, s.begun, i);
      case Rename(i) => RenameKeepsOnTime(s.world, s.begun, i);
      case _ => OthersKeepOnTime(s.world, s.begun, a);
    }
  }

  lemma SameSource(w: R.State, a: R.Action)
    requires R.Enabled(w, a)
    ensures R.Apply(w, a).source == w.source
  {
    hide R.IsPage, R.IsBoundary, MonthOf;
  }

  lemma StepKeepsInv(s: State, a: Action)
    requires Inv(s) && Enabled(s, a)
    ensures Inv(Apply(s, a))
  {
    match a
    case Pass(to) => hide R.Inv, OnTime;
    case Insert(row, reported, dated) => InsertKeepsInv(s, row, reported, dated);
    case Begin(month) => BeginKeepsInv(s, month);
    case Do(b) => DoKeepsInv(s, b);
  }

  lemma {:induction false} RunKeepsInv(s: State, run: seq<Action>)
    requires Inv(s) && Legal(s, run)
    ensures Inv(After(s, run))
    decreases |run|
  {
    hide Inv, Enabled, Apply;
    if run == [] {
    } else {
      RunKeepsInv(s, run[..|run| - 1]);
      StepKeepsInv(After(s, run[..|run| - 1]), run[|run| - 1]);
    }
  }

  // ---------------------------------------------------------------- what every run guarantees

  ghost predicate Reachable(clock: int, window: int, run: seq<Action>, s: State) {
    Legal(Init(clock, window), run) && After(Init(clock, window), run) == s
  }

  lemma ReachableInv(clock: int, window: int, run: seq<Action>, s: State)
    requires Reachable(clock, window, run, s)
    ensures Inv(s)
  {
    hide Legal, After;
    InitInv(clock, window);
    RunKeepsInv(Init(clock, window), run);
  }

  /**
   While every row inserted once a rotation has begun is dated at or past its boundary, whatever fails or dies: nothing
   live is as old as a month that has its archive, so no sweep is refused (`SweepLogs`).
   */
  lemma RowsOnTimeNeverBlock(clock: int, window: int, run: seq<Action>, s: State)
    requires Reachable(clock, window, run, s) && !s.late
    ensures ArchivedIsPast(s.world)
  {
    ReachableInv(clock, window, run, s);
    hide Reachable, R.Inv, MonthOf, FirstInstant, R.Published;
    forall month, r | R.Published(s.world.files, month) && r in s.world.live ensures MonthOf(r.at) > month {
      MonthBefore(r.at, month + 1);
    }
  }

  /**
   And every row is, while no row takes longer from its dating to its insert than retention exceeds the day that agents
   are believed back.
   */
  lemma PromptRowsNeverBlock(clock: int, window: int, run: seq<Action>, s: State)
    requires Reachable(clock, window, run, s) && T.PAST_TOLERANCE_MS + s.slowest <= s.window
    ensures !s.late && ArchivedIsPast(s.world)
  {
    ReachableInv(clock, window, run, s);
    RowsOnTimeNeverBlock(clock, window, run, s) by { hide R.Inv, OnTime; }
    hide R.Inv, OnTime, Reachable, ArchivedIsPast;
  }

  /** Somebody's row is dated into a month that has its archive, or a rotation publishes a month past a live row's. */
  ghost predicate Blocks(s: State, a: Action)
    requires Enabled(s, a)
  {
    match a
    case Insert(row, _, _) => exists month :: R.Published(s.world.files, month) && MonthOf(row.at) <= month
    case Do(Rename(i)) => exists r :: r in s.world.live && MonthOf(r.at) <= s.world.passes[i].job.month
    case _ => false
  }

  /** Exactly which step brings about that a live row is as old as a month that has its archive. */
  lemma WhatBlocks(clock: int, window: int, run: seq<Action>, s: State, a: Action)
    requires Reachable(clock, window, run, s) && Enabled(s, a) && ArchivedIsPast(s.world)
    ensures !ArchivedIsPast(Apply(s, a).world) <==> Blocks(s, a)
  {
    ReachableInv(clock, window, run, s);
    hide Reachable, R.Inv, OnTime, R.Published, MonthOf, FirstInstant, R.Enabled, R.Apply, DatedBefore;
    match a {
      case Pass(_) =>
      case Insert(row, _, _) => InsertBlocks(s.world, row);
      case Begin(month) => BegunIs(s.world, month);
      case Do(b) => DoBlocks(s.world, b);
    }
  }

  lemma InsertBlocks(w: R.State, row: R.Row)
    requires ArchivedIsPast(w) && R.Enabled(w, R.Insert(row))
    ensures !ArchivedIsPast(R.Apply(w, R.Insert(row))) <==>
      exists month :: R.Published(w.files, month) && MonthOf(row.at) <= month
  {
    hide R.Published, MonthOf;
    var t := R.Apply(w, R.Insert(row));
    assert row in t.live && t.files == w.files;
  }

  lemma DoBlocks(w: R.State, a: R.Action)
    requires ArchivedIsPast(w) && R.Inv(w) && R.Enabled(w, a) && !a.Insert? && !a.Begin?
    ensures !ArchivedIsPast(R.Apply(w, a)) <==>
      a.Rename? && exists r :: r in w.live && MonthOf(r.at) <= w.passes[a.i].job.month
  {
    var t := R.Apply(w, a);
    if a.Rename? {
      RenamedIs(w, a.i);
      hide R.Inv, R.Enabled, R.Apply, R.Published, MonthOf;
      assert R.Published(t.files, w.passes[a.i].job.month);
    } else if a.Open? || a.ReadPage? || a.WritePage? || a.Check? {
      SameNames(w, a);
      hide R.Inv, R.Enabled, R.Apply, R.Published, MonthOf;
    } else if a.Delete? {
      RemainingAreLive(w, a.i);
      assert t.files == w.files;
      hide R.Inv, R.Enabled, R.Apply, R.Published, MonthOf;
    } else {
      NoNewArchive(w, a);
      hide R.Inv, R.Enabled, R.Apply, R.Published, MonthOf;
    }
  }

  // ---------------------------------------------------------------- a run that blocks every later sweep

  lemma Then(clock: int, window: int, run: seq<Action>, s: State, a: Action) returns (longer: seq<Action>, t: State)
    requires Reachable(clock, window, run, s) && Enabled(s, a)
    ensures longer == run + [a] && t == Apply(s, a) && Reachable(clock, window, longer, t)
  {
    hide Enabled, Apply;
    longer, t := run + [a], Apply(s, a);
    assert longer[..|longer| - 1] == run;
  }

  /** A month with one row, and a day, the least retention there is, since it ended. */
  predicate OneRow(month: int, start: int, swept: int, row: R.Row) {
    && row.key == 1 && row.at == start == FirstInstant(month)
    && swept == FirstInstant(month + 1) + T.PAST_TOLERANCE_MS && start <= swept
    && MonthOf(FirstInstant(month + 1) - 1) == month
  }

  function OnlyJob(month: int): R.Job { R.Job(month, FirstInstant(month + 1), 0, 0) }

  function Swept(swept: int, begun: set<int>, world: R.State): State {
    State(world, swept, T.PAST_TOLERANCE_MS, begun, 0, false)
  }

  lemma OneRowOpened(month: int, start: int, swept: int, row: R.Row) returns (run: seq<Action>, s: State)
    requires OneRow(month, start, swept, row)
    ensures Reachable(start, T.PAST_TOLERANCE_MS, run, s)
    ensures s == Swept(swept, {FirstInstant(month + 1)},
      R.State(R.Logs, {row}, map[R.PartialOf(OnlyJob(month)) := R.Table([], false)], true,
              [R.Reading(OnlyJob(month), 0, [])], 1, {row}, []))
  {
    hide MonthOf, FirstInstant;
    run, s := [], Init(start, T.PAST_TOLERANCE_MS);
    assert Reachable(start, T.PAST_TOLERANCE_MS, run, s);
    hide Reachable;
    run, s := Then(start, T.PAST_TOLERANCE_MS, run, s, Insert(row, None, start));
    run, s := Then(start, T.PAST_TOLERANCE_MS, run, s, Pass(swept));
    run, s := Then(start, T.PAST_TOLERANCE_MS, run, s, Do(R.Tick));
    run, s := Then(start, T.PAST_TOLERANCE_MS, run, s, Begin(month));
    run, s := Then(start, T.PAST_TOLERANCE_MS, run, s, Do(R.Open(0)));
  }

  lemma OneRowRead(month: int, start: int, swept: int, row: R.Row) returns (run: seq<Action>, s: State)
    requires OneRow(month, start, swept, row)
    ensures Reachable(start, T.PAST_TOLERANCE_MS, run, s)
    ensures s == Swept(swept, {FirstInstant(month + 1)},
      R.State(R.Logs, {row}, map[R.PartialOf(OnlyJob(month)) := R.Table([row], false)], true,
              [R.Reading(OnlyJob(month), 1, [row])], 1, {row}, []))
  {
    var job := OnlyJob(month);
    MonthLength(month);
    run, s := OneRowOpened(month, start, swept, row);
    hide MonthOf, FirstInstant, Reachable, OnlyJob, DatedBefore;
    run, s := Then(start, T.PAST_TOLERANCE_MS, run, s, Do(R.ReadPage(0, [row])));
    assert s.world.passes == [R.Holding(job, 0, [], [row])];
    run, s := Then(start, T.PAST_TOLERANCE_MS, run, s, Do(R.WritePage(0)));
    assert [] + [row] == [row];
  }

  lemma OneRowChecked(month: int, start: int, swept: int, row: R.Row) returns (run: seq<Action>, s: State)
    requires OneRow(month, start, swept, row)
    ensures Reachable(start, T.PAST_TOLERANCE_MS, run, s)
    ensures s == Swept(swept, {FirstInstant(month + 1)},
      R.State(R.Logs, {row}, map[R.PartialOf(OnlyJob(month)) := R.Table([row], true)], true,
              [R.Checked(OnlyJob(month), [row])], 1, {row}, []))
  {
    var job := OnlyJob(month);
    run, s := OneRowRead(month, start, swept, row);
    hide MonthOf, FirstInstant, Reachable, OnlyJob, DatedBefore;
    run, s := Then(start, T.PAST_TOLERANCE_MS, run, s, Do(R.ReadPage(0, [])));
    assert s.world.passes == [R.Holding(job, 1, [row], [])];
    run, s := Then(start, T.PAST_TOLERANCE_MS, run, s, Do(R.Check(0)));
  }

  /** Archived as far as its plain file. */
  lemma OneRowArchived(month: int, start: int, swept: int, row: R.Row) returns (run: seq<Action>, s: State)
    requires OneRow(month, start, swept, row)
    ensures Reachable(start, T.PAST_TOLERANCE_MS, run, s)
    ensures s == Swept(swept, {FirstInstant(month + 1)}, s.world)
    ensures s.world.source == R.Logs && s.world.live == {} && s.world.inserted == {row}
    ensures s.world.passes == [R.Between] && R.Published(s.world.files, month)
  {
    var job := OnlyJob(month);
    assert job.month == month;
    run, s := OneRowChecked(month, start, swept, row);
    hide MonthOf, FirstInstant, Reachable, OnlyJob, DatedBefore;
    run, s := Then(start, T.PAST_TOLERANCE_MS, run, s, Do(R.Delete(0)));
    assert s.world.live == {} && s.world.passes == [R.Removed(job)];
    run, s := Then(start, T.PAST_TOLERANCE_MS, run, s, Do(R.Rename(0)));
    assert s.world.passes == [R.Named(job)];
    run, s := Then(start, T.PAST_TOLERANCE_MS, run, s, Do(R.CompressFails(0, true)));
  }

  /**
   The bound is sharp, in every month. Retention is a day; a line that an agent dates a day or more back is dated a
   millisecond before the sweep and inserted once its month is archived: every sweep from then on is refused, at that
   month, for as long as the archive stays.
   */
  lemma ARowThatBlocks(month: int, start: int, swept: int, reported: int, row: R.Row, lastRow: R.Row)
    returns (run: seq<Action>, s: State)
    requires OneRow(month, start, swept, row) && month >= 1200 && reported <= start
    requires lastRow.key == 2 && lastRow.at == FirstInstant(month + 1) - 1
    ensures Reachable(start, T.PAST_TOLERANCE_MS, run, s) && s.world.passes == [R.Between]
    ensures T.PAST_TOLERANCE_MS + s.slowest == s.window + 1
    ensures s.world.live == {lastRow} && MonthOf(lastRow.at) == month
    ensures FullyAged(month, s.clock - s.window) && Blocked(s.world.files, month, s.clock - s.window)
    ensures !P.EarlyYearAged(month, s.clock - s.window)
  {
    MonthLength(month);
    hide MonthOf, FirstInstant;
    run, s := OneRowArchived(month, start, swept, row);
    hide Reachable;
    run, s := Then(start, T.PAST_TOLERANCE_MS, run, s, Insert(lastRow, Some(reported), swept - 1));
    assert Due(month, month, s.clock - s.window);
  }
}
