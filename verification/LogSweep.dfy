/**
 The log sweep (`logs/retention.ts` with archiving on): every month that has aged out, oldest first, each through
 one rotation. Its result is what an archive's file name promises, and its end says which month stood in its way.
 */
module LogSweep {
  import opened Calendar
  import opened Rotation
  import opened ArchivePeriod
  import opened Wrappers
  import P = Period
  import T = ReportedTime

  /** How a sweep ends: done; a rotation refused or failed, and threw; or the process was killed. */
  datatype Sweep = Swept(removed: nat) | Refused | Failed | Dead

  /** Row `r` belongs in the `j`-th archive of a sweep that began with month `first`. */
  predicate Belongs(r: Row, first: int, j: int) { MonthOf(r.at) == first + j }

  /**
   Where everything is once the months `first, first + 1, ...` are archived: of the rows live at the start, those
   older than the last boundary are each in the archive of its own month, the others are live; nothing archived is
   from after its archive's month, and whatever else was archived came in meanwhile.
   */
  ghost predicate Filed(start: State, now: State, first: int, archives: seq<seq<Row>>) {
    && start.live <= start.inserted <= now.inserted
    && (forall r :: r in now.live ==> r in start.live || (r in now.inserted && r !in start.inserted))
    && (forall r :: r in start.live && MonthOf(r.at) >= first + |archives| ==> r in now.live)
    && (forall r :: r in start.live && MonthOf(r.at) < first + |archives| ==>
          first <= MonthOf(r.at) && r in archives[MonthOf(r.at) - first])
    && (forall j, r :: 0 <= j < |archives| && r in archives[j] ==>
          && r !in now.live && r in now.inserted && MonthOf(r.at) <= first + j
          && if r in start.live then Belongs(r, first, j) else r !in start.inserted)
  }

  /** Rows that were there when a rotation began, or came in while it ran. */
  predicate Concerned(s: State, t: State, r: Row) { r in s.live || (r in t.inserted && r !in s.inserted) }

  /**
   One rotation on its own, rows coming in all the while: the name it gives is true exactly when no row concerned is
   older than the month it names, unless it came in too late to be taken along.
   */
  lemma NameIsTrueWhen(s: State, t: State, month: int, copied: seq<Row>)
    requires PeriodMoved(s, t, FirstInstant(month + 1), copied) && s.live <= s.inserted
    ensures (forall r :: r in copied ==> MonthOf(r.at) == month) <==>
      (forall r :: Concerned(s, t, r) && r.at < FirstInstant(month) ==> r !in s.live && r in t.live)
  {
    hide MonthOf, FirstInstant, PeriodMoved;
    forall r: Row
      ensures r.at < FirstInstant(month + 1) <==> MonthOf(r.at) <= month
      ensures r.at < FirstInstant(month) <==> MonthOf(r.at) < month
    {
      MonthBefore(r.at, month + 1);
      MonthBefore(r.at, month);
    }
    MovedAre(s, t, FirstInstant(month + 1), copied);
    forall r | r in s.live && r.at < FirstInstant(month) ensures r in copied {
      assert MonthOf(r.at) <= month;
    }
  }

  lemma MovedAre(s: State, t: State, end: int, copied: seq<Row>)
    requires PeriodMoved(s, t, end, copied) && s.live <= s.inserted
    ensures forall r :: r in copied ==> Concerned(s, t, r) && r.at < end && r !in t.live
    ensures forall r :: r in s.live && r.at < end ==> r in copied
    ensures forall r :: Concerned(s, t, r) && r !in copied ==> r in t.live
  {
    hide Increasing;
  }

  // ---------------------------------------------------------------- rows that come in for a month already swept

  /**
   Agents are believed a day back. So a row inserted after a sweep is dated past every month that sweep archived, when
   retention exceeds that day by what the row takes at most from its dating to its insert.
   */
  lemma LateRowsFollowTheSweep(month: int, swept: int, retention: int, reported: Option<int>, dated: int, inserted: int,
                               delay: int)
    requires FullyAged(month, swept - retention) && swept <= inserted <= dated + delay
    requires retention >= T.PAST_TOLERANCE_MS + delay
    ensures MonthOf(T.PlausibleTime(reported, dated)) > month
  {
    hide FirstInstant, MonthOf;
    MonthBefore(T.PlausibleTime(reported, dated), month + 1);
  }

  /** Each archive is on disk under its month, holding those rows. */
  ghost predicate AllHeld(files: map<Name, File>, first: int, archives: seq<seq<Row>>, paths: seq<Name>) {
    && |paths| == |archives|
    && forall j :: 0 <= j < |paths| ==> paths[j].month == first + j && HeldAt(files, paths[j], archives[j])
  }

  lemma FiledAtFirst(start: State, first: int)
    requires start.live <= start.inserted && forall r :: r in start.live ==> MonthOf(r.at) >= first
    ensures Filed(start, start, first, [])
  {
  }

  lemma FiledMeanwhile(start: State, now: State, later: State, first: int, archives: seq<seq<Row>>)
    requires Filed(start, now, first, archives) && Arrived(now, later) && now.live <= now.inserted
    ensures Filed(start, later, first, archives)
  {
    hide MonthOf;
  }

  lemma FiledOneMore(start: State, now: State, later: State, first: int, archives: seq<seq<Row>>, copied: seq<Row>)
    requires Filed(start, now, first, archives) && now.live <= now.inserted
    requires PeriodMoved(now, later, FirstInstant(first + |archives| + 1), copied)
    ensures Filed(start, later, first, archives + [copied])
  {
    hide MonthOf, FirstInstant, Filed, PeriodMoved;
    var end := FirstInstant(first + |archives| + 1);
    forall r: Row ensures r.at < end <==> MonthOf(r.at) <= first + |archives| {
      MonthBefore(r.at, first + |archives| + 1);
    }
    FiledBy(start, now, later, first, archives, copied, end);
  }

  lemma FiledBy(start: State, now: State, later: State, first: int, archives: seq<seq<Row>>, copied: seq<Row>, end: int)
    requires Filed(start, now, first, archives) && now.live <= now.inserted && PeriodMoved(now, later, end, copied)
    requires forall r: Row :: r.at < end <==> MonthOf(r.at) <= first + |archives|
    ensures Filed(start, later, first, archives + [copied])
  {
    hide MonthOf, Increasing;
    var k := |archives|;
    forall r | r in start.live && MonthOf(r.at) <= first + k
      ensures first <= MonthOf(r.at) && r in (archives + [copied])[MonthOf(r.at) - first]
    {
      if MonthOf(r.at) == first + k {
        assert r in now.live;
      }
    }
    forall j, r | 0 <= j <= k && r in (archives + [copied])[j]
      ensures r !in later.live && r in later.inserted && MonthOf(r.at) <= first + j
      ensures if r in start.live then Belongs(r, first, j) else r !in start.inserted
    {
      if j < k {
        assert r in archives[j];
      } else {
        ArchivedNow(start, now, later, first, archives, copied, end, r);
      }
    }
  }

  lemma ArchivedNow(start: State, now: State, later: State, first: int, archives: seq<seq<Row>>, copied: seq<Row>,
                    end: int, r: Row)
    requires Filed(start, now, first, archives) && now.live <= now.inserted && PeriodMoved(now, later, end, copied)
    requires forall r: Row :: r.at < end <==> MonthOf(r.at) <= first + |archives|
    requires r in copied
    ensures r !in later.live && r in later.inserted && MonthOf(r.at) <= first + |archives|
    ensures if r in start.live then Belongs(r, first, |archives|) else r !in start.inserted
  {
    hide MonthOf, Increasing;
  }

  lemma HeldOneMore(files: map<Name, File>, later: map<Name, File>, first: int, archives: seq<seq<Row>>,
                    paths: seq<Name>, copied: seq<Row>, path: Name)
    requires AllHeld(files, first, archives, paths) && OtherMonthsKept(files, later, first + |archives|)
    requires path.month == first + |archives| && HeldAt(later, path, copied)
    ensures AllHeld(later, first, archives + [copied], paths + [path])
  {
  }

  lemma StillHeld(files: map<Name, File>, later: map<Name, File>, first: int, archives: seq<seq<Row>>, paths: seq<Name>)
    requires AllHeld(files, first, archives, paths) && OtherMonthsKept(files, later, first + |archives|)
    ensures AllHeld(later, first, archives, paths)
  {
  }

  /** `findFirst({ orderBy: { ts: "asc" } })` */
  method OldestMoment(table: seq<Row>) returns (oldest: P.Date)
    ensures oldest.Invalid? <==> table == []
    ensures oldest.At? ==> exists r :: r in table && r.at == oldest.ms
    ensures oldest.At? ==> forall r :: r in table ==> oldest.ms <= r.at
  {
    oldest := P.Invalid;
    for i := 0 to |table|
      invariant oldest.Invalid? <==> i == 0
      invariant oldest.At? ==> exists r :: r in table && r.at == oldest.ms
      invariant oldest.At? ==> forall r :: r in table[..i] ==> oldest.ms <= r.at
    {
      if oldest.Invalid? || table[i].at < oldest.ms {
        oldest := P.At(table[i].at);
        assert table[i] in table;
      }
    }
    assert table[..|table|] == table;
  }

  /** The moments a row may carry: any the walk can finish from. */
  predicate Dated(r: Row) { P.Representable(r.at) && r.at < FirstInstant(P.LAST_MONTH) }

  /** What the sweep was about: the months due, and whether the walk was right about them. */
  ghost predicate Planned(due: seq<P.PeriodBoundary>, oldest: int, cutoff: int) {
    && P.WalkedFrom(due, MonthOf(oldest), cutoff)
    && (forall k :: 0 <= k < |due| ==> due[k].before.At?)
    && (!P.EarlyYearAged(MonthOf(oldest), cutoff) ==> P.Exact(due, MonthOf(oldest), cutoff))
  }

  lemma PlanIsSound(due: seq<P.PeriodBoundary>, oldest: int, cutoff: int)
    requires P.Representable(oldest) && P.Ends(oldest, cutoff) && P.WalkedFrom(due, MonthOf(oldest), cutoff)
    ensures Planned(due, oldest, cutoff)
  {
    P.ExactUnlessEarly(oldest, cutoff, due);
    hide *;
    forall k | 0 <= k < |due| ensures due[k].before.At? {
      BoundaryIsMoment(due, oldest, cutoff, k);
    }
    assert Planned(due, oldest, cutoff) by { PlannedBy(due, oldest, cutoff); }
  }

  lemma PlannedBy(due: seq<P.PeriodBoundary>, oldest: int, cutoff: int)
    requires P.WalkedFrom(due, MonthOf(oldest), cutoff) && forall k :: 0 <= k < |due| ==> due[k].before.At?
    requires P.Exact(due, MonthOf(oldest), cutoff) <==> !P.EarlyYearAged(MonthOf(oldest), cutoff)
    ensures Planned(due, oldest, cutoff)
  {
    hide MonthOf, P.WalkedFrom, P.Exact, P.EarlyYearAged;
  }

  lemma BoundaryIsMoment(due: seq<P.PeriodBoundary>, oldest: int, cutoff: int, k: nat)
    requires P.Representable(oldest) && P.Ends(oldest, cutoff) && P.WalkedFrom(due, MonthOf(oldest), cutoff)
    requires k < |due|
    ensures due[k].before.At?
  {
    hide FirstInstant, MonthOf, P.Boundary, P.Key, P.Ends, P.Stops, P.Representable;
    P.WalkInside(oldest, cutoff, due, k);
    P.BoundaryRepresentable(oldest, MonthOf(oldest) + k);
  }

  function RowsIn(archives: seq<seq<Row>>): nat {
    if archives == [] then 0 else RowsIn(archives[..|archives| - 1]) + |archives[|archives| - 1]|
  }

  predicate Due(month: int, first: int, cutoff: int) { first <= month && FullyAged(month, cutoff) }

  /** A month the sweep is to archive has its archive already. */
  ghost predicate Blocked(files: map<Name, File>, first: int, cutoff: int) {
    exists month :: Due(month, first, cutoff) && Published(files, month)
  }

  /**
   How far a sweep got, given the files it began with: no month it archived had an archive, and it went on to the last
   one due, unless it was refused at one that had its archive already, or failed at one that had not.
   */
  ghost predicate Stopped(files: map<Name, File>, first: int, cutoff: int, sweep: Sweep, done: nat) {
    && (forall month :: first <= month < first + done ==> Due(month, first, cutoff) && !Published(files, month))
    && match sweep
       case Swept(_) => !Due(first + done, first, cutoff)
       case Refused => Due(first + done, first, cutoff) && Published(files, first + done)
       case Failed => Due(first + done, first, cutoff) && !Published(files, first + done)
       case Dead => true
  }

  /** So a sweep that ends was not blocked, and one that is refused was. */
  lemma StoppedMeans(files: map<Name, File>, first: int, cutoff: int, sweep: Sweep, done: nat)
    requires Stopped(files, first, cutoff, sweep, done)
    ensures sweep.Swept? ==> !Blocked(files, first, cutoff)
    ensures sweep.Refused? ==> Blocked(files, first, cutoff)
  {
    hide Published, FullyAged;
    if sweep.Swept? && Blocked(files, first, cutoff) {
      var month :| Due(month, first, cutoff) && Published(files, month);
      P.FullyAgedGoesBack(first + done, month, cutoff);
    }
  }

  /** Nothing live is as old as any month that has its archive. */
  ghost predicate ArchivedIsPast(s: State) {
    forall month, r :: Published(s.files, month) && r in s.live ==> MonthOf(r.at) > month
  }

  lemma PastIsNotDue(s: State, first: int, cutoff: int)
    requires ArchivedIsPast(s) && exists r :: r in s.live && MonthOf(r.at) == first
    ensures !Blocked(s.files, first, cutoff)
  {
    hide MonthOf, Published, FullyAged;
  }

  /**
   Sweeps until the months due are done or a rotation throws. Either way what was done is done month by month,
   true to the names; only a killed process leaves that to the machine's own guarantees. A month due that has its
   archive already is where the sweep is refused, however often it is tried; and no other month is.
   */
  method SweepLogs(host: Host, cutoff: int)
    returns (sweep: Sweep, ghost first: int, ghost archives: seq<seq<Row>>, ghost paths: seq<Name>)
    requires host.Valid() && host.world.passes == [Between]
    requires P.Representable(cutoff) && cutoff < FirstInstant(P.LAST_MONTH) && forall r :: r in host.table ==> Dated(r)
    modifies host
    ensures host.Valid() && (!sweep.Dead? ==> host.world.passes == [Between])
    ensures sweep.Failed? || sweep.Dead? ==> host.faults > old(host.faults)
    ensures old(host.table) == [] ==> sweep == Swept(0) && host.world == old(host.world)
    ensures sweep.Swept? ==> sweep.removed == RowsIn(archives)
    ensures old(host.table) != [] ==> exists r :: r in old(host.table) && MonthOf(r.at) == first
    ensures forall r :: r in old(host.table) ==> first <= MonthOf(r.at)
    ensures old(host.table) != [] && !P.EarlyYearAged(first, cutoff) ==>
      && Stopped(old(host.files), first, cutoff, sweep, |archives|)
      && (sweep.Swept? ==> !Blocked(old(host.files), first, cutoff))
      && (sweep.Refused? ==> Blocked(old(host.files), first, cutoff) && !ArchivedIsPast(old(host.world)))
      && (sweep.Refused? && archives == [] ==> host.world == old(host.world))
    ensures !sweep.Dead? && !P.EarlyYearAged(first, cutoff) ==>
      Filed(old(host.world), host.world, first, archives) && AllHeld(host.files, first, archives, paths)
    ensures sweep.Swept? && !P.EarlyYearAged(first, cutoff) ==>
      forall r :: r in old(host.world.live) ==> (r in host.world.live <==> !FullyAged(MonthOf(r.at), cutoff))
  {
    hide Inv, Legal, After, Init, Increasing, MonthOf, FirstInstant, P.Representable, P.Ends, P.WalkedFrom, P.Stops,
      P.Boundary, P.Key, P.EarlyYearAged, P.Exact, Filed, AllHeld, Planned, FullyAged, Published, Stopped, Blocked,
      ArchivedIsPast;
    first, archives, paths := 0, [], [];
    LiveRows(host.world);
    var oldest := OldestMoment(host.table);
    if oldest.Invalid? {
      NothingLive(host.world, host.files, host.table);
      return Swept(0), first, archives, paths;
    }
    WithinReach(host.table, oldest.ms, cutoff);
    var walk := P.PeriodsFullyBefore(oldest, P.At(cutoff));
    PlanIsSound(walk.periods, oldest.ms, cutoff);
    first := MonthOf(oldest.ms);
    NoneOlder(host.world, host.table, oldest.ms);
    sweep, archives, paths := ArchiveDue(host, walk.periods, oldest.ms, cutoff);
    if !P.EarlyYearAged(first, cutoff) {
      StoppedMeans(old(host.files), first, cutoff, sweep, |archives|);
      if sweep.Refused? {
        RefusedIsNotPast(old(host.world), first, cutoff);
      }
    }
    if sweep.Swept? {
      SweptIsAged(old(host.world), host.world, first, archives, walk.periods, oldest.ms, cutoff);
    }
  }

  lemma RefusedIsNotPast(s: State, first: int, cutoff: int)
    requires Blocked(s.files, first, cutoff) && exists r :: r in s.live && MonthOf(r.at) == first
    ensures !ArchivedIsPast(s)
  {
    hide Blocked, ArchivedIsPast, MonthOf;
    if ArchivedIsPast(s) {
      PastIsNotDue(s, first, cutoff);
    }
  }

  lemma NothingLive(s: State, files: map<Name, File>, table: seq<Row>)
    requires s.live == Rows(table) && table == [] && s.live <= s.inserted
    ensures Filed(s, s, 0, []) && AllHeld(files, 0, [], [])
    ensures s.live == {}
  {
    hide MonthOf;
  }

  lemma WithinReach(table: seq<Row>, oldest: int, cutoff: int)
    requires P.Representable(cutoff) && cutoff < FirstInstant(P.LAST_MONTH) && forall r :: r in table ==> Dated(r)
    requires exists r :: r in table && r.at == oldest
    ensures P.Representable(oldest) && P.Ends(oldest, cutoff)
  {
    hide P.Representable, FirstInstant;
  }

  lemma NoneOlder(s: State, table: seq<Row>, oldest: int)
    requires s.live == Rows(table) && forall r :: r in table ==> oldest <= r.at
    ensures forall r :: r in s.live ==> MonthOf(r.at) >= MonthOf(oldest)
  {
    forall r | r in s.live ensures MonthOf(r.at) >= MonthOf(oldest) {
      MonthOfMonotone(oldest, r.at);
    }
    hide MonthOf;
  }

  lemma SweptIsAged(start: State, now: State, first: int, archives: seq<seq<Row>>, due: seq<P.PeriodBoundary>,
                    oldest: int, cutoff: int)
    requires first == MonthOf(oldest) && Planned(due, oldest, cutoff) && |archives| == |due|
    requires forall r :: r in start.live ==> MonthOf(r.at) >= first
    requires !P.EarlyYearAged(first, cutoff) ==> Filed(start, now, first, archives)
    ensures !P.EarlyYearAged(first, cutoff) ==>
      forall r :: r in start.live ==> (r in now.live <==> !FullyAged(MonthOf(r.at), cutoff))
  {
    hide MonthOf, P.EarlyYearAged, FullyAged, P.WalkedFrom, P.Key;
  }

  /** On an exact plan a month is due exactly when the walk lists it. */
  lemma DueIsListed(due: seq<P.PeriodBoundary>, oldest: int, cutoff: int, k: nat)
    requires Planned(due, oldest, cutoff) && !P.EarlyYearAged(MonthOf(oldest), cutoff) && k <= |due|
    ensures Due(MonthOf(oldest) + k, MonthOf(oldest), cutoff) <==> k < |due|
  {
    hide MonthOf, P.EarlyYearAged, FullyAged, P.WalkedFrom, P.Key;
  }

  /** From a month on, each month has an archive exactly when it had one before. */
  ghost predicate SameAhead(files: map<Name, File>, later: map<Name, File>, from: int) {
    forall month :: month >= from ==> (Published(later, month) <==> Published(files, month))
  }

  lemma StillAhead(files: map<Name, File>, now: map<Name, File>, later: map<Name, File>, month: int)
    requires SameAhead(files, now, month) && OtherMonthsKept(now, later, month)
    ensures SameAhead(files, later, month + 1)
  {
  }

  method ArchiveDue(host: Host, due: seq<P.PeriodBoundary>, ghost oldest: int, ghost cutoff: int)
    returns (sweep: Sweep, ghost archives: seq<seq<Row>>, ghost paths: seq<Name>)
    requires host.Valid() && host.world.passes == [Between] && Planned(due, oldest, cutoff)
    requires forall r :: r in host.world.live ==> MonthOf(r.at) >= MonthOf(oldest)
    modifies host
    ensures host.Valid() && (!sweep.Dead? ==> host.world.passes == [Between])
    ensures sweep.Failed? || sweep.Dead? ==> host.faults > old(host.faults)
    ensures sweep.Swept? ==> |archives| == |due| && sweep.removed == RowsIn(archives)
    ensures !P.EarlyYearAged(MonthOf(oldest), cutoff) ==>
      && Stopped(old(host.files), MonthOf(oldest), cutoff, sweep, |archives|)
      && (sweep.Refused? && archives == [] ==> host.world == old(host.world))
    ensures !sweep.Dead? && !P.EarlyYearAged(MonthOf(oldest), cutoff) ==>
      Filed(old(host.world), host.world, MonthOf(oldest), archives) && AllHeld(host.files, MonthOf(oldest), archives, paths)
  {
    hide Inv, Legal, After, Init, Increasing, MonthOf, FirstInstant, P.WalkedFrom, P.Exact, P.EarlyYearAged, Filed,
      AllHeld, Planned, Published, SameAhead, OtherMonthsKept, FullyAged;
    archives, paths := [], [];
    ghost var first, start := MonthOf(oldest), host.world;
    LiveRows(start);
    FiledAtFirst(start, first);
    NoneHeld(host.files, first);
    AheadAtFirst(host.files, first);
    var removed: nat, k: nat := 0, 0;
    while k < |due|
      invariant k <= |due| && |archives| == k && removed == RowsIn(archives)
      invariant host.Valid() && host.world.passes == [Between] && host.faults >= old(host.faults)
      invariant k == 0 ==> host.world == old(host.world)
      invariant !P.EarlyYearAged(first, cutoff) ==>
        && (forall month :: first <= month < first + k ==> Due(month, first, cutoff) && !Published(old(host.files), month))
        && SameAhead(old(host.files), host.files, first + k)
        && Filed(start, host.world, first, archives) && AllHeld(host.files, first, archives, paths)
    {
      var rows: nat;
      ghost var copied, path;
      ghost var files := host.files;
      sweep, rows, copied, path := ArchiveNext(host, due, k, oldest, cutoff, start, archives, paths);
      if !P.EarlyYearAged(first, cutoff) {
        DueIsListed(due, oldest, cutoff, k);
        AheadAt(old(host.files), files, first + k);
      }
      if !sweep.Swept? { return; }
      if !P.EarlyYearAged(first, cutoff) {
        StillAhead(old(host.files), files, host.files, first + k);
      }
      assert (archives + [copied])[..k] == archives;
      archives, paths := archives + [copied], paths + [path];
      removed, k := removed + rows, k + 1;
    }
    sweep := Swept(removed);
    if !P.EarlyYearAged(first, cutoff) {
      DueIsListed(due, oldest, cutoff, k);
    }
  }

  lemma AheadAtFirst(files: map<Name, File>, month: int)
    ensures SameAhead(files, files, month)
  {
  }

  lemma AheadAt(files: map<Name, File>, later: map<Name, File>, month: int)
    requires SameAhead(files, later, month)
    ensures Published(later, month) <==> Published(files, month)
  {
    hide Published;
  }

  lemma NoneHeld(files: map<Name, File>, first: int)
    ensures AllHeld(files, first, [], [])
  {
  }

  lemma BoundaryDue(due: seq<P.PeriodBoundary>, k: nat, oldest: int, cutoff: int)
    requires Planned(due, oldest, cutoff) && k < |due|
    ensures due[k].before.At?
    ensures !P.EarlyYearAged(MonthOf(oldest), cutoff) ==>
      && due[k].before.ms == FirstInstant(MonthOf(oldest) + k + 1)
      && MonthOf(due[k].before.ms - 1) == MonthOf(oldest) + k
  {
    BoundaryNamesEndedMonth(MonthOf(oldest) + k);
    hide MonthOf, FirstInstant, P.WalkedFrom, P.EarlyYearAged, FullyAged, P.Key;
    assert !P.EarlyYearAged(MonthOf(oldest), cutoff) ==> due[k].before == P.At(FirstInstant(MonthOf(oldest) + k + 1));
  }

  /** One rotation of the sweep. */
  method ArchiveNext(host: Host, due: seq<P.PeriodBoundary>, k: nat, ghost oldest: int, ghost cutoff: int,
                     ghost start: State, ghost archives: seq<seq<Row>>, ghost paths: seq<Name>)
    returns (sweep: Sweep, rows: nat, ghost copied: seq<Row>, ghost path: Name)
    requires host.Valid() && host.world.passes == [Between] && Planned(due, oldest, cutoff)
    requires k < |due| && |archives| == k
    requires !P.EarlyYearAged(MonthOf(oldest), cutoff) ==>
      && Filed(start, host.world, MonthOf(oldest), archives)
      && AllHeld(host.files, MonthOf(oldest), archives, paths)
    modifies host
    ensures host.Valid() && (!sweep.Dead? ==> host.world.passes == [Between])
    ensures host.faults >= old(host.faults) && (sweep.Failed? || sweep.Dead? ==> host.faults > old(host.faults))
    ensures !P.EarlyYearAged(MonthOf(oldest), cutoff) ==>
      && (sweep.Refused? <==> Published(old(host.files), MonthOf(oldest) + k))
      && (sweep.Swept? ==> OtherMonthsKept(old(host.files), host.files, MonthOf(oldest) + k))
    ensures sweep.Refused? ==> host.world == old(host.world)
    ensures sweep.Swept? ==> rows == |copied|
    ensures !sweep.Dead? && !P.EarlyYearAged(MonthOf(oldest), cutoff) ==>
      var done, at := if sweep.Swept? then archives + [copied] else archives, if sweep.Swept? then paths + [path] else paths;
      Filed(start, host.world, MonthOf(oldest), done) && AllHeld(host.files, MonthOf(oldest), done, at)
  {
    hide Inv, Legal, After, Init, Increasing, MonthOf, FirstInstant, P.WalkedFrom, P.Exact, P.EarlyYearAged, Filed,
      AllHeld, Planned, PeriodMoved, Arrived, OtherMonthsKept, HeldAt, Published;
    BoundaryDue(due, k, oldest, cutoff);
    path, rows := Partial(0, 0), 0;
    ghost var was, files := host.world, host.files;
    LiveRows(was);
    var outcome: Outcome;
    outcome, copied := host.ArchivePeriod(due[k].before.ms);
    match outcome {
      case Archived(month, count, at) =>
        sweep, rows, path := Swept(count), count, at;
        if !P.EarlyYearAged(MonthOf(oldest), cutoff) {
          FiledOneMore(start, was, host.world, MonthOf(oldest), archives, copied);
          HeldOneMore(files, host.files, MonthOf(oldest), archives, paths, copied, path);
        }
      case Refused => sweep := Sweep.Refused;
      case Failed =>
        sweep := Sweep.Failed;
        if !P.EarlyYearAged(MonthOf(oldest), cutoff) {
          FiledMeanwhile(start, was, host.world, MonthOf(oldest), archives);
          StillHeld(files, host.files, MonthOf(oldest), archives, paths);
        }
      case Killed => sweep := Dead;
    }
  }

  /** One tick of the timer: nothing while a pass is in progress, otherwise a sweep, and the flag down whatever it did. */
  method MaintenancePass(host: Host, cutoff: int) returns (started: bool, sweep: Sweep, ghost first: int)
    requires host.Valid() && (host.world.passes == [] || host.world.passes == [Between])
    requires P.Representable(cutoff) && cutoff < FirstInstant(P.LAST_MONTH) && forall r :: r in host.table ==> Dated(r)
    modifies host
    ensures host.Valid()
    ensures started <==> old(host.world).passes == []
    ensures !started ==> host.world == old(host.world)
    ensures started && !sweep.Dead? ==> host.world.passes == []
    ensures started && host.faults == old(host.faults) ==> sweep.Swept? || sweep.Refused?
    ensures started && old(host.table) != [] && !P.EarlyYearAged(first, cutoff) ==>
      && (sweep.Refused? ==> Blocked(old(host.files), first, cutoff))
      && (sweep.Swept? ==> !Blocked(old(host.files), first, cutoff) && forall r :: r in old(host.world.live) ==>
            (r in host.world.live <==> !FullyAged(MonthOf(r.at), cutoff)))
  {
    hide Inv, Legal, After, Init, Increasing, FirstInstant, P.Representable, MonthOf, Filed, AllHeld, FullyAged;
    sweep, first := Swept(0), 0;
    started := host.StartPass();
    if started {
      ghost var archives, paths;
      sweep, first, archives, paths := SweepLogs(host, cutoff);
      if !sweep.Dead? {
        host.FinishPass();
      }
    }
  }
}
