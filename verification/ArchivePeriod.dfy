/**
 `archivePeriod` for log lines, statement by statement, as a client of the machine in `Rotation`: every
 effect it has is an action of that machine, so whatever the machine guarantees over all runs holds of every
 run of this code, including the ones that throw or die halfway.
 */
module ArchivePeriod {
  import opened Calendar
  import opened Numbers
  import opened Rotation

  datatype Drained = Moved(count: nat) | Threw | Died

  /** What may befall a step instead of success: it throws, or the process is killed there. */
  datatype Fault = None | Throw | Kill

  datatype Outcome = Archived(month: int, rows: nat, path: Name) | Refused | Failed | Killed

  function Rows(table: seq<Row>): set<Row> { set r | r in table }

  function Keys(rows: seq<Row>): seq<nat> {
    seq(|rows|, i requires 0 <= i < |rows| => rows[i].key)
  }

  lemma KeysAre(rows: seq<Row>)
    ensures forall k :: k in Keys(rows) <==> exists q :: q in rows && q.key == k
  {
    forall k | exists q :: q in rows && q.key == k ensures k in Keys(rows) {
      var q :| q in rows && q.key == k;
      var i :| 0 <= i < |rows| && rows[i] == q;
      assert Keys(rows)[i] == k;
    }
  }

  lemma FrontOf(first: Row, rest: seq<Row>)
    requires Increasing(rest) && forall r :: r in rest ==> r.key > first.key
    ensures Increasing([first] + rest)
    ensures forall r :: r in [first] + rest <==> r == first || r in rest
  {
  }

  lemma Behind(table: seq<Row>)
    requires Increasing(table) && table != []
    ensures Increasing(table[1..]) && forall r :: r in table[1..] ==> r.key > table[0].key
    ensures forall r :: r in table <==> r == table[0] || r in table[1..]
  {
  }

  /** `findMany({ where: { ts: { lt: before }, id: { gt: cursor } }, orderBy: { id: "asc" }, take })`. */
  function FindMany(table: seq<Row>, before: int, cursor: nat, take: nat): seq<Row> {
    if table == [] || take == 0 then []
    else if table[0].at < before && table[0].key > cursor then
      [table[0]] + FindMany(table[1..], before, cursor, take - 1)
    else FindMany(table[1..], before, cursor, take)
  }

  /** What a page is, on a table in key order. */
  ghost predicate PageOf(table: seq<Row>, before: int, cursor: nat, take: nat, page: seq<Row>) {
    && |page| <= take && Increasing(page)
    && (forall r :: r in page ==> r in table && r.at < before && r.key > cursor)
    && (forall r :: r in table && r.at < before && r.key > cursor && r !in page ==>
          |page| == take && forall q :: q in page ==> q.key < r.key)
  }

  lemma {:induction false} FindManyIsPage(table: seq<Row>, before: int, cursor: nat, take: nat)
    requires Increasing(table)
    ensures PageOf(table, before, cursor, take, FindMany(table, before, cursor, take))
  {
    if table == [] || take == 0 {
    } else {
      Behind(table);
      var first, rest := table[0], table[1..];
      if first.at < before && first.key > cursor {
        FindManyIsPage(rest, before, cursor, take - 1);
        FrontOf(first, FindMany(rest, before, cursor, take - 1));
      } else {
        FindManyIsPage(rest, before, cursor, take);
      }
      hide Increasing;
    }
  }

  lemma PageIsRead(table: seq<Row>, live: set<Row>, job: Job, cursor: nat)
    requires Increasing(table) && live == Rows(table)
    ensures IsPage(Logs, live, job, cursor, FindMany(table, job.before, cursor, PAGE_SIZE))
  {
    var page := FindMany(table, job.before, cursor, PAGE_SIZE);
    FindManyIsPage(table, job.before, cursor, PAGE_SIZE);
    hide Increasing, FindMany;
    assert page != [] ==> page[|page| - 1] in page;
  }

  /** `deleteMany({ where: { id: { in: ids } } })`. */
  function DeleteMany(table: seq<Row>, ids: seq<nat>): seq<Row> {
    if table == [] then []
    else if table[0].key in ids then DeleteMany(table[1..], ids)
    else [table[0]] + DeleteMany(table[1..], ids)
  }

  lemma {:induction false} DeleteManyRemoves(table: seq<Row>, ids: seq<nat>)
    requires Increasing(table)
    ensures Increasing(DeleteMany(table, ids))
    ensures forall r :: r in DeleteMany(table, ids) <==> r in table && r.key !in ids
  {
    if table == [] {
    } else {
      Behind(table);
      DeleteManyRemoves(table[1..], ids);
      FrontOf(table[0], DeleteMany(table[1..], ids)) by {
        assert forall r :: r in DeleteMany(table[1..], ids) ==> r in table[1..];
      }
      hide Increasing;
    }
  }

  /** The live delete, PAGE_SIZE ids to a statement. */
  method DeleteBatches(table: seq<Row>, ids: seq<nat>) returns (left: seq<Row>)
    requires Increasing(table)
    ensures Increasing(left) && forall r :: r in left <==> r in table && r.key !in ids
  {
    left := table;
    var start := 0;
    while start < |ids|
      invariant 0 <= start && Increasing(left)
      invariant forall r :: r in left <==> r in table && r.key !in ids[..Min(start, |ids|)]
      decreases |ids| - start
    {
      var batch := ids[start..Min(start + PAGE_SIZE, |ids|)];
      DeleteManyRemoves(left, batch);
      left := DeleteMany(left, batch);
      assert ids[..Min(start + PAGE_SIZE, |ids|)] == ids[..start] + batch;
      start := start + PAGE_SIZE;
    }
    assert ids[..Min(start, |ids|)] == ids;
  }

  function Placed(table: seq<Row>, row: Row): seq<Row> {
    if table == [] || row.key < table[0].key then [row] + table else [table[0]] + Placed(table[1..], row)
  }

  lemma {:induction false} PlacedKeepsOrder(table: seq<Row>, row: Row)
    requires Increasing(table) && forall r :: r in table ==> r.key != row.key
    ensures Increasing(Placed(table, row))
    ensures forall r :: r in Placed(table, row) <==> r in table || r == row
  {
    if table == [] {
    } else if row.key < table[0].key {
      Behind(table);
      FrontOf(row, table);
    } else {
      Behind(table);
      PlacedKeepsOrder(table[1..], row);
      FrontOf(table[0], Placed(table[1..], row));
    }
    hide Increasing;
  }

  lemma RowsPlaced(table: seq<Row>, row: Row)
    requires Increasing(table) && forall r :: r in table ==> r.key != row.key
    ensures Increasing(Placed(table, row)) && Rows(Placed(table, row)) == Rows(table) + {row}
  {
    PlacedKeepsOrder(table, row);
    hide Increasing, Placed;
  }

  // ---------------------------------------------------------------- what each stage leaves behind

  /** What others did between two instants: rows came in, and nothing else changed. */
  ghost predicate OnlyArrivals(s: State, t: State) {
    && t == s.(live := t.live, inserted := t.inserted)
    && Arrived(s, t)
  }

  ghost predicate Arrived(s: State, t: State) {
    && s.live <= t.live && s.inserted <= t.inserted
    && (forall r :: r in t.live && r !in s.live <==> r in t.inserted && r !in s.inserted)
  }

  ghost predicate SameBut(f: map<Name, File>, g: map<Name, File>, n: Name) {
    forall m :: m != n ==> (m in f <==> m in g) && (m in f ==> f[m] == g[m])
  }

  /** The files of every other month are as they were, and no other month gained one. */
  ghost predicate OtherMonthsKept(f: map<Name, File>, g: map<Name, File>, month: int) {
    forall n: Name :: n.month != month ==> (n in f <==> n in g) && (n in f ==> g[n] == f[n])
  }

  /** What the paging loop keeps: nothing live is gone, and every selected row up to the cursor is copied. */
  ghost predicate Paged(s: State, t: State, job: Job, cursor: nat, copied: seq<Row>) {
    && t == s.(live := t.live, inserted := t.inserted, passes := t.passes, files := t.files)
    && Arrived(s, t)
    && SameBut(s.files, t.files, PartialOf(job))
    && FileIs(t.files, PartialOf(job), Table(copied, false))
    && Increasing(copied)
    && (forall r :: r in copied ==> r in t.live && r.at < job.before && r.key <= cursor)
    && (forall r :: r in s.live && r.at < job.before && r.key <= cursor ==> r in copied)
  }

  /** Everything a finished drain did, whatever arrived while it ran. */
  ghost predicate DrainedTo(s: State, t: State, job: Job, copied: seq<Row>) {
    && t.passes == [Removed(job)]
    && t == s.(live := t.live, inserted := t.inserted, passes := t.passes, files := t.files, segments := t.segments)
    && FileIs(t.files, PartialOf(job), Table(copied, true))
    && SameBut(s.files, t.files, PartialOf(job))
    && s.inserted <= t.inserted
    && Increasing(copied)
    && (forall r :: r in copied ==> r.at < job.before && (r in s.live || (r in t.inserted && r !in s.inserted)))
    && (forall r :: r in s.live && r.at < job.before ==> r in copied)
    && (forall r :: r in t.live <==> (r in s.live || (r in t.inserted && r !in s.inserted)) && r !in copied)
    && t.segments == s.segments + [Segment(job.month, job.attempt, Rows(copied), InPartial)]
  }

  /** A drain that gave up: its rows are live, its period's names untouched. */
  ghost predicate GaveUp(s: State, t: State, job: Job) {
    && |t.passes| == 1 && BeforeDelete(t.passes[0]) && t.passes[0].job == job
    && t == s.(live := t.live, inserted := t.inserted, passes := t.passes, files := t.files)
    && SameBut(s.files, t.files, PartialOf(job))
    && Arrived(s, t)
  }

  ghost function Pending(live: set<Row>, cursor: nat): nat {
    |set r | r in live && r.key > cursor|
  }

  lemma PendingAfterArrivals(live: set<Row>, later: set<Row>, cursor: nat)
    requires live <= later
    ensures Pending(later, cursor) + |live| <= Pending(live, cursor) + |later|
  {
    var a := set r | r in live && r.key > cursor;
    var b := set r | r in later && r.key > cursor;
    var arrived := later - live;
    assert b <= a + arrived;
    Subset(b, a + arrived);
    assert later == live + arrived;
  }

  lemma {:induction false} Subset<T>(a: set<T>, b: set<T>)
    requires a <= b
    ensures |a| <= |b|
  {
    assert b == a + (b - a);
  }

  lemma PendingAfterPage(live: set<Row>, cursor: nat, later: nat, r: Row)
    requires r in live && cursor < r.key <= later
    ensures Pending(live, later) < Pending(live, cursor)
  {
    var a := set q | q in live && q.key > cursor;
    var b := set q | q in live && q.key > later;
    assert b <= a - {r};
    Subset(b, a - {r});
  }

  lemma LiveRows(s: State)
    requires Inv(s)
    ensures s.live <= s.inserted && forall r :: r in s.inserted ==> r.key > 0
  {
  }

  lemma NothingPagedYet(s: State, t: State, job: Job)
    requires Inv(s) && Arrived(s, t)
    requires t == s.(live := t.live, inserted := t.inserted, passes := t.passes, files := t.files)
    requires SameBut(s.files, t.files, PartialOf(job)) && FileIs(t.files, PartialOf(job), Table([], false))
    ensures Paged(s, t, job, 0, [])
  {
    LiveRows(s);
    hide Inv;
  }

  lemma PagedSome(s: State, read: State, t: State, job: Job, cursor: nat, copied: seq<Row>, page: seq<Row>)
    requires Paged(s, read, job, cursor, copied) && s.source == Logs && page != []
    requires IsPage(Logs, read.live, job, cursor, page)
    requires Arrived(read, t) && t == s.(live := t.live, inserted := t.inserted, passes := t.passes, files := t.files)
    requires SameBut(s.files, t.files, PartialOf(job)) && FileIs(t.files, PartialOf(job), Table(copied + page, false))
    ensures Paged(s, t, job, page[|page| - 1].key, copied + page)
    ensures page[0] in read.live && cursor < page[0].key <= page[|page| - 1].key
  {
    hide PAGE_SIZE;
    var last := page[|page| - 1];
    assert last in page && page[0] in page;
    forall r | r in copied + page ensures r in t.live && r.at < job.before && r.key <= last.key {
      if r in page {
        var j :| 0 <= j < |page| && page[j] == r;
      }
    }
    forall r | r in s.live && r.at < job.before && r.key <= last.key ensures r in copied + page {
      if r.key > cursor {
        assert r in page;
      }
    }
  }

  /** While it pages, a rotation that throws has only its own file to show for it. */
  lemma PagedGivesUp(s: State, t: State, job: Job, cursor: nat, copied: seq<Row>)
    requires Paged(s, t, job, cursor, copied)
    requires |t.passes| == 1 && BeforeDelete(t.passes[0]) && t.passes[0].job == job
    ensures GaveUp(s, t, job) && FileIs(t.files, PartialOf(job), Table(copied, false)) && s.source == t.source
  {
    hide Increasing, Arrived;
  }

  lemma PageWritten(s: State, read: State, held: State, t: State, job: Job, cursor: nat, copied: seq<Row>, page: seq<Row>)
    requires Paged(s, read, job, cursor, copied) && s.source == Logs && page != []
    requires IsPage(Logs, read.live, job, cursor, page) && Arrived(read, held) && Paged(s, held, job, cursor, copied)
    requires t == held.(passes := t.passes, files := held.files[PartialOf(job) := Table(copied + page, false)])
    ensures Paged(s, t, job, page[|page| - 1].key, copied + page)
    ensures page[0] in t.live && cursor < page[0].key <= page[|page| - 1].key
  {
    hide IsPage, Increasing;
    PagedSome(s, read, t, job, cursor, copied, page);
  }

  lemma DrainIsDone(s: State, c: State, t: State, job: Job, copied: seq<Row>)
    requires Inv(s) && Inv(c) && s.source == Logs && c.passes == [Checked(job, copied)]
    requires c == s.(live := c.live, inserted := c.inserted, passes := c.passes, files := c.files) && Arrived(s, c)
    requires SameBut(s.files, c.files, PartialOf(job)) && FileIs(c.files, PartialOf(job), Table(copied, true))
    requires forall r :: r in s.live && r.at < job.before ==> r in copied
    requires t == c.(passes := [Removed(job)], live := Remaining(Logs, c.live, job, copied),
                     segments := c.segments + [Segment(job.month, job.attempt, c.live - t.live, InPartial)])
    ensures DrainedTo(s, t, job, copied)
  {
    assert PassInv(c, c.passes[0]);
    hide SegmentsInv, KeptInv, AgeInv, PublishedInv, Remaining, Increasing;
    DeleteRemovesCopied(c, job, copied);
    forall r ensures r in c.live && r !in t.live <==> r in copied {
      assert r in c.live - t.live <==> r in copied;
    }
    assert c.live - t.live == Rows(copied);
  }

  lemma EmptyPageEnds(s: State, read: State, job: Job, cursor: nat, copied: seq<Row>)
    requires Paged(s, read, job, cursor, copied) && s.source == Logs && IsPage(Logs, read.live, job, cursor, [])
    ensures forall r :: r in s.live && r.at < job.before ==> r in copied
  {
    forall r | r in s.live && r.at < job.before ensures r in copied {
      assert Selected(Logs, job, r) && r in read.live;
    }
  }

  lemma InsertIs(s: State, row: Row)
    requires s.source == Logs && row.key > 0 && forall q :: q in s.inserted ==> q.key != row.key
    ensures Enabled(s, Insert(row))
    ensures Apply(s, Insert(row)) == s.(live := s.live + {row}, inserted := s.inserted + {row})
  {
  }

  lemma NewcomerFits(s: State, table: seq<Row>, issued: set<nat>, row: Row)
    requires Inv(s) && s.source == Logs && s.live == Rows(table) && Increasing(table)
    requires row.key > 0 && row.key !in issued && forall r :: r in s.inserted ==> r.key in issued
    ensures Enabled(s, Insert(row)) && row !in s.inserted && row !in s.live
    ensures Apply(s, Insert(row)) == s.(live := s.live + {row}, inserted := s.inserted + {row})
    ensures Increasing(Placed(table, row)) && Rows(Placed(table, row)) == s.live + {row}
    ensures forall r :: r in s.inserted + {row} ==> r.key in issued + {row.key}
  {
    LiveRows(s);
    assert forall r :: r in table ==> r in Rows(table);
    hide Inv, Increasing, Placed, Rows;
    RowsPlaced(table, row);
    InsertIs(s, row);
  }

  /** The file a rotation answers with holds these rows, whole and checked. */
  ghost predicate HeldAt(files: map<Name, File>, path: Name, rows: seq<Row>) {
    && path in files && files[path].rows == rows
    && (path.Gz? ==> files[path].Gzip? && files[path].complete)
    && (path.Partial? ==> files[path].Table? && files[path].checked)
  }

  /** `copied` left the live table between `s` and `t`: every row before the boundary, and none after it. */
  ghost predicate PeriodMoved(s: State, t: State, before: int, copied: seq<Row>) {
    && s.inserted <= t.inserted && Increasing(copied)
    && (forall r :: r in copied ==> r.at < before && (r in s.live || (r in t.inserted && r !in s.inserted)))
    && (forall r :: r in s.live && r.at < before ==> r in copied)
    && (forall r :: r in t.live <==> (r in s.live || (r in t.inserted && r !in s.inserted)) && r !in copied)
  }

  lemma MovedAndPublished(s: State, moved: State, t: State, job: Job, copied: seq<Row>)
    requires DrainedTo(s, moved, job, copied) && Arrived(moved, t) && moved.live <= moved.inserted
    requires s.live <= s.inserted && OtherMonthsKept(moved.files, t.files, job.month)
    ensures PeriodMoved(s, t, job.before, copied) && OtherMonthsKept(s.files, t.files, job.month)
  {
    hide Increasing;
  }

  class Host {
    /** The live table in primary-key order, and the archive directory. */
    var table: seq<Row>
    var files: map<Name, File>
    /** Whether a maintenance pass is in progress. */
    var running: bool
    /** How many random names were drawn and which row ids were handed out; neither generator repeats itself. */
    var attempts: nat
    var issued: set<nat>
    /** How many rows others have yet to insert. */
    var arrivals: nat
    /** How often a step failed, or the process died, instead of succeeding. */
    ghost var faults: nat
    /** The machine's state and the run that led to it. */
    ghost var world: State
    ghost var run: seq<Action>

    ghost predicate Valid()
      reads this
    {
      && Increasing(table)
      && world.source == Logs && world.live == Rows(table) && world.files == files && world.attempts == attempts
      && world.running == running
      && (forall r :: r in world.inserted ==> r.key in issued)
      && Legal(Init(Logs), run) && After(Init(Logs), run) == world && Inv(world)
    }

    constructor ()
      ensures Valid()
    {
      table, files, running, attempts, issued, arrivals := [], map[], false, 0, {}, *;
      world, run, faults := Init(Logs), [], 0;
    }

    ghost method Do(a: Action)
      requires Legal(Init(Logs), run) && After(Init(Logs), run) == world && Inv(world) && Enabled(world, a)
      modifies this`world, this`run
      ensures world == Apply(old(world), a)
      ensures Legal(Init(Logs), run) && After(Init(Logs), run) == world && Inv(world)
    {
      StepKeepsInv(world, a);
      assert (run + [a])[..|run|] == run;
      world, run := Apply(world, a), run + [a];
    }

    /** Another writer's insert. */
    method Arrive(row: Row)
      requires Valid() && row.key > 0 && row.key !in issued
      modifies this`table, this`issued, this`world, this`run
      ensures Valid()
      ensures world == old(world).(live := old(world).live + {row}, inserted := old(world).inserted + {row})
      ensures row !in old(world).inserted && row !in old(world).live
    {
      hide Inv, Legal, After, Init, Increasing, Enabled, Apply, Placed, Rows;
      NewcomerFits(world, table, issued, row);
      Do(Insert(row));
      table, issued := Placed(table, row), issued + {row.key};
    }

    /** Everything that may run while this code awaits: any number of the arrivals still to come. */
    method Others()
      requires Valid()
      modifies this`table, this`issued, this`arrivals, this`world, this`run
      ensures Valid() && OnlyArrivals(old(world), world)
      ensures arrivals <= old(arrivals) && |world.live| + arrivals <= |old(world.live)| + old(arrivals)
    {
      hide Inv, Legal, After, Init, Increasing;
      var more: bool := *;
      while more && arrivals > 0
        invariant Valid() && OnlyArrivals(old(world), world)
        invariant arrivals <= old(arrivals) && |world.live| + arrivals <= |old(world.live)| + old(arrivals)
        decreases arrivals
      {
        var row: Row := *;
        if row.key > 0 && row.key !in issued {
          Arrive(row);
        }
        arrivals := arrivals - 1;
        more := *;
      }
    }

    /** The process is killed, and comes back with nothing in progress. */
    method Die()
      requires Valid()
      modifies this`running, this`world, this`run
      ensures Valid() && world.passes == []
    {
      hide Inv, Legal, After, Init, Increasing;
      running := false;
      Do(Crash);
    }

    /** The timer, and the start-up call that shares its flag: skips while a pass is in progress. */
    method StartPass() returns (started: bool)
      requires Valid()
      modifies this`running, this`world, this`run
      ensures Valid() && world.live == old(world).live && files == old(files)
      ensures started <==> |old(world).passes| == 0
      ensures if started then world.passes == [Between] else world == old(world)
    {
      hide Legal, After, Init, Increasing, RowsInv, SegmentsInv, KeptInv, AgeInv, PublishedInv, PassInv;
      started := !running;
      if started {
        running := true;
      }
      Do(Tick);
    }

    /** `finally`: whether the pass succeeded or threw, the flag comes down. */
    method FinishPass()
      requires Valid() && world.passes == [Between]
      modifies this`running, this`world, this`run
      ensures Valid() && world.passes == [] && world.live == old(world).live && files == old(files)
    {
      hide Inv, Legal, After, Init, Increasing;
      running := false;
      Do(EndPass(0));
    }

    /** Whatever may befall a step: it succeeds, it throws, or the process is killed there. */
    method Chance() returns (fault: Fault)
      modifies this`faults
      ensures faults == old(faults) + if fault.None? then 0 else 1
    {
      fault := *;
      if !fault.None? {
        faults := faults + 1;
      }
    }

    // -------------------------------------------------------------- drainLogs

    /** `new Database(path)` and the DDL. */
    method CreateTable(job: Job)
      requires Valid() && world.passes == [Starting(job)]
      modifies this`files, this`world, this`run
      ensures Valid()
      ensures world == old(world).(passes := [Reading(job, 0, [])],
                                   files := old(world).files[PartialOf(job) := Table([], false)])
    {
      hide Inv, Legal, After, Init, Increasing;
      files := files[PartialOf(job) := Table([], false)];
      Do(Open(0));
    }

    method ReadPageFrom(job: Job, cursor: nat, ghost copied: seq<Row>) returns (page: seq<Row>)
      requires Valid() && world.passes == [Reading(job, cursor, copied)]
      modifies this`world, this`run
      ensures Valid() && IsPage(Logs, world.live, job, cursor, page)
      ensures world == old(world).(passes := [Holding(job, cursor, copied, page)])
    {
      hide Inv, Legal, After, Init, Increasing, IsPage, FindMany;
      page := FindMany(table, job.before, cursor, PAGE_SIZE);
      PageIsRead(table, world.live, job, cursor);
      Do(ReadPage(0, page));
    }

    /** The page goes into the archive in one transaction of its own. */
    method InsertPage(job: Job, cursor: nat, ghost copied: seq<Row>, page: seq<Row>)
      requires Valid() && world.passes == [Holding(job, cursor, copied, page)] && page != []
      requires FileIs(world.files, PartialOf(job), Table(copied, false))
      modifies this`files, this`world, this`run
      ensures Valid()
      ensures world == old(world).(passes := [Reading(job, page[|page| - 1].key, copied + page)],
                                   files := old(world).files[PartialOf(job) := Table(copied + page, false)])
    {
      hide Inv, Legal, After, Init, Increasing;
      files := files[PartialOf(job) := Table(files[PartialOf(job)].rows + page, false)];
      Do(WritePage(0));
    }

    /** Awaits a page: `read` is the state at the instant the query ran, and others ran before and after it. */
    method AwaitPage(job: Job, cursor: nat, ghost copied: seq<Row>, ghost start: State)
      returns (page: seq<Row>, ghost read: State)
      requires Valid() && world.passes == [Reading(job, cursor, copied)] && Paged(start, world, job, cursor, copied)
      modifies this`table, this`issued, this`arrivals, this`world, this`run
      ensures Valid() && world.passes == [Holding(job, cursor, copied, page)]
      ensures Paged(start, read, job, cursor, copied) && IsPage(Logs, read.live, job, cursor, page)
      ensures Arrived(read, world) && Paged(start, world, job, cursor, copied)
      ensures Pending(world.live, cursor) + arrivals <= Pending(old(world).live, cursor) + old(arrivals)
    {
      hide Inv, Legal, After, Init, Enabled, Apply, Increasing, PAGE_SIZE, IsPage, Pending, PageOf;
      Others();
      PendingAfterArrivals(old(world).live, world.live, cursor);
      page := ReadPageFrom(job, cursor, copied);
      read := world;
      Others();
      PendingAfterArrivals(read.live, world.live, cursor);
    }

    /** One turn of the paging loop: read a page, wait, write it. An empty page ends the loop. */
    method NextPage(job: Job, cursor: nat, ghost copied: seq<Row>, ghost start: State) returns (step: Drained,
                    page: seq<Row>)
      requires Valid() && world.passes == [Reading(job, cursor, copied)] && Paged(start, world, job, cursor, copied)
      modifies this
      ensures Valid()
      ensures faults >= old(faults) && (faults == old(faults) <==> step.Moved?)
      ensures step.Threw? ==> GaveUp(start, world, job)
      ensures step.Moved? && page != [] ==>
        && world.passes == [Reading(job, page[|page| - 1].key, copied + page)]
        && Paged(start, world, job, page[|page| - 1].key, copied + page)
        && Pending(world.live, page[|page| - 1].key) + arrivals < Pending(old(world).live, cursor) + old(arrivals)
      ensures step.Moved? && page == [] ==>
        && world.passes == [Holding(job, cursor, copied, [])]
        && Paged(start, world, job, cursor, copied)
        && forall r :: r in start.live && r.at < job.before ==> r in copied
    {
      hide Inv, Legal, After, Init, Enabled, Apply, Increasing, PAGE_SIZE, IsPage, Pending, Keys, Paged, GaveUp, Arrived;
      step, page := Threw, [];
      PagedGivesUp(start, world, job, cursor, copied);
      var fault := Chance();
      if fault.Throw? { return; }
      if fault.Kill? {
        Die();
        return Died, page;
      }
      ghost var read;
      page, read := AwaitPage(job, cursor, copied, start);
      PagedGivesUp(start, world, job, cursor, copied);
      fault := Chance();
      if fault.Throw? { return; }
      if fault.Kill? {
        Die();
        return Died, page;
      }
      step := Moved(|page|);
      if page == [] {
        EmptyPageEnds(start, read, job, cursor, copied);
      } else {
        ghost var held := world;
        InsertPage(job, cursor, copied, page);
        PageWritten(start, read, held, world, job, cursor, copied, page);
        PendingAfterPage(world.live, cursor, page[|page| - 1].key, page[0]);
      }
    }

    /** `SELECT COUNT(*)` against the ids collected, and the archive is closed. */
    method CountRows(job: Job, cursor: nat, ghost copied: seq<Row>, ids: seq<nat>) returns (agrees: bool)
      requires Valid() && world.passes == [Holding(job, cursor, copied, [])]
      requires FileIs(world.files, PartialOf(job), Table(copied, false)) && ids == Keys(copied)
      modifies this`files, this`world, this`run
      ensures Valid() && agrees
      ensures world == old(world).(passes := [Checked(job, copied)],
                                   files := old(world).files[PartialOf(job) := Table(copied, true)])
    {
      hide Inv, Legal, After, Init, Increasing;
      agrees := |files[PartialOf(job)].rows| == |ids|;
      files := files[PartialOf(job) := Table(files[PartialOf(job)].rows, true)];
      Do(Check(0));
    }

    /** The live delete: batches of ids, in one transaction, so others see none of it or all of it. */
    method DeleteLive(job: Job, ghost copied: seq<Row>, ids: seq<nat>)
      requires Valid() && world.passes == [Checked(job, copied)] && ids == Keys(copied)
      modifies this`table, this`world, this`run
      ensures Valid() && world.live == Remaining(Logs, old(world).live, job, copied)
      ensures world == old(world).(passes := [Removed(job)], live := world.live,
        segments := old(world).segments + [Segment(job.month, job.attempt, old(world).live - world.live, InPartial)])
    {
      hide Inv, Legal, After, Init;
      var left := DeleteBatches(table, ids);
      KeysAre(copied);
      table := left;
      Do(Delete(0));
    }

    method DrainLogs(job: Job) returns (d: Drained, ghost copied: seq<Row>)
      requires Valid() && world.passes == [Starting(job)]
      modifies this
      ensures Valid()
      ensures faults >= old(faults) && (faults == old(faults) <==> d.Moved?)
      ensures d.Moved? ==> DrainedTo(old(world), world, job, copied) && d.count == |copied|
      ensures d.Threw? ==> GaveUp(old(world), world, job)
    {
      hide Inv, Legal, After, Init, Enabled, Apply, Increasing, PAGE_SIZE, IsPage, Pending;
      copied, d := [], Threw;
      var fault := Chance();
      if fault.Throw? { return; }
      if fault.Kill? {
        Die();
        return Died, copied;
      }
      CreateTable(job);
      NothingPagedYet(old(world), world, job);
      var ids: seq<nat> := [];
      var cursor := 0;
      while true
        invariant Valid() && world.passes == [Reading(job, cursor, copied)]
        invariant Paged(old(world), world, job, cursor, copied)
        invariant ids == Keys(copied) && faults == old(faults)
        decreases Pending(world.live, cursor) + arrivals
      {
        var page: seq<Row>;
        d, page := NextPage(job, cursor, copied, old(world));
        if !d.Moved? { return; }
        if page == [] { break; }
        ids, cursor, copied := ids + Keys(page), page[|page| - 1].key, copied + page;
      }
      d := FinishDrain(job, cursor, copied, ids, old(world));
    }

    method FinishDrain(job: Job, cursor: nat, ghost copied: seq<Row>, ids: seq<nat>,
                       ghost start: State) returns (d: Drained)
      requires Valid() && world.passes == [Holding(job, cursor, copied, [])]
      requires Paged(start, world, job, cursor, copied) && ids == Keys(copied) && Inv(start)
      requires forall r :: r in start.live && r.at < job.before ==> r in copied
      modifies this
      ensures Valid()
      ensures faults >= old(faults) && (faults == old(faults) <==> d.Moved?)
      ensures d.Moved? ==> DrainedTo(start, world, job, copied) && d.count == |copied|
      ensures d.Threw? ==> GaveUp(start, world, job)
    {
      hide Inv, Legal, After, Init, Enabled, Apply, Increasing, PAGE_SIZE, IsPage, Pending, Remaining;
      d := Threw;
      var agrees := CountRows(job, cursor, copied, ids);
      if !agrees { return; }
      Others();
      var fault := Chance();
      if fault.Throw? { return; }
      if fault.Kill? {
        Die();
        return Died;
      }
      ghost var checked := world;
      DeleteLive(job, copied, ids);
      d := Moved(|ids|);
      DrainIsDone(start, checked, world, job, copied);
    }

    // -------------------------------------------------------------- the whole rotation

    /** Removes an abandoned attempt; a removal that fails is only reported. */
    method Discard(job: Job)
      requires Valid() && |world.passes| == 1 && BeforeDelete(world.passes[0]) && world.passes[0].job == job
      modifies this`files, this`world, this`run
      ensures Valid()
      ensures world == old(world).(passes := [Between], files := files)
      ensures SameBut(old(world).files, files, PartialOf(job))
    {
      hide Inv, Legal, After, Init, Increasing;
      var cleaned: bool := *;
      if cleaned {
        files := files - {PartialOf(job)};
      }
      Do(Fail(0, cleaned));
    }

    /** Gives a finished archive its real name; null when the rename failed. */
    method Promote(job: Job) returns (promoted: bool)
      requires Valid() && world.passes == [Removed(job)] && PartialOf(job) in files
      modifies this`files, this`world, this`run, this`faults
      ensures Valid()
      ensures faults >= old(faults) && (faults == old(faults) ==> promoted)
      ensures OtherMonthsKept(old(files), files, job.month)
      ensures !promoted ==> world == old(world).(passes := [Between])
      ensures promoted ==>
        && world.passes == [Named(job)] && world.live == old(world).live && world.inserted == old(world).inserted
        && world.source == old(world).source
        && files == (old(files) - {PartialOf(job)})[Db(job.month) := old(files)[PartialOf(job)]]
    {
      hide Inv, Legal, After, Init, Increasing;
      var fault := Chance();
      promoted := fault.None?;
      if promoted {
        files := (files - {PartialOf(job)})[Db(job.month) := files[PartialOf(job)]];
        Do(Rename(0));
      } else {
        Do(RenameFails(0));
      }
    }

    /** Compresses a finished archive and removes the plain file, chunk by chunk; returns the file to read. */
    method Compress(job: Job, ghost rows: seq<Row>) returns (path: Name, fault: Fault)
      requires Valid() && world.passes == [Named(job)] && FileIs(files, Db(job.month), Table(rows, true))
      modifies this
      ensures Valid()
      ensures faults >= old(faults)
      ensures faults == old(faults) ==>
        && !fault.Kill? && path == Gz(job.month)
        && files == (old(files) - {Db(job.month)})[Gz(job.month) := Gzip(rows, true)]
      ensures OtherMonthsKept(old(files), files, job.month)
      ensures path.month == job.month
      ensures !fault.Kill? ==>
        && world.passes == [Between] && Arrived(old(world), world)
        && (path == Gz(job.month) || path == Db(job.month)) && path in files && files[path].rows == rows
        && (path == Gz(job.month) ==> files[path] == Gzip(rows, true))
    {
      hide Inv, Legal, After, Init, Increasing, Enabled, Apply;
      fault := None;
      StartGzip(job, rows);
      Others();
      fault := Chance();
      if fault.Kill? {
        Die();
        return Db(job.month), fault;
      }
      path := FinishCompressing(job, rows, fault);
      fault := None;
    }

    /** `createWriteStream`: the month has a gzip from here on, which is not whole. */
    method StartGzip(job: Job, ghost rows: seq<Row>)
      requires Valid() && world.passes == [Named(job)] && FileIs(files, Db(job.month), Table(rows, true))
      modifies this`files, this`world, this`run
      ensures Valid() && world == old(world).(passes := [Compressing(job)], files := files)
      ensures files == old(files)[Gz(job.month) := Gzip(rows, false)]
    {
      hide Inv, Legal, After, Init, Increasing;
      files := files[Gz(job.month) := Gzip(files[Db(job.month)].rows, false)];
      Do(StartCompress(0));
    }

    method FinishCompressing(job: Job, ghost rows: seq<Row>, fault: Fault) returns (path: Name)
      requires Valid() && world.passes == [Compressing(job)] && FileIs(files, Db(job.month), Table(rows, true))
      requires FileIs(files, Gz(job.month), Gzip(rows, false))
      modifies this`files, this`world, this`run, this`faults
      ensures Valid()
      ensures faults >= old(faults)
      ensures fault.None? && faults == old(faults) ==>
        path == Gz(job.month) && files == (old(files) - {Db(job.month)})[Gz(job.month) := Gzip(rows, true)]
      ensures OtherMonthsKept(old(files), files, job.month)
      ensures world.passes == [Between] && world.live == old(world).live && world.inserted == old(world).inserted
      ensures (path == Gz(job.month) || path == Db(job.month)) && path in files && files[path].rows == rows
      ensures path == Gz(job.month) ==> files[path] == Gzip(rows, true)
    {
      hide Inv, Legal, After, Init, Increasing, Enabled, Apply, Valid;
      if fault.Throw? {
        DropGzip(job);
        return Db(job.month);
      }
      EndGzip(job, rows);
      DropPlain(job);
      path := Gz(job.month);
    }

    /** The compression threw: what it wrote is removed if it can be, and the plain file stays. */
    method DropGzip(job: Job)
      requires Valid() && world.passes == [Compressing(job)]
      modifies this`files, this`world, this`run
      ensures Valid() && world == old(world).(passes := [Between], files := files)
      ensures files == old(files) || files == old(files) - {Gz(job.month)}
    {
      hide Inv, Legal, After, Init, Increasing;
      var cleaned: bool := *;
      if cleaned {
        files := files - {Gz(job.month)};
      }
      Do(CompressFails(0, cleaned));
    }

    method EndGzip(job: Job, ghost rows: seq<Row>)
      requires Valid() && world.passes == [Compressing(job)] && FileIs(files, Gz(job.month), Gzip(rows, false))
      modifies this`files, this`world, this`run
      ensures Valid() && world == old(world).(passes := [Compressed(job)], files := files)
      ensures files == old(files)[Gz(job.month) := Gzip(rows, true)]
    {
      hide Inv, Legal, After, Init, Increasing;
      files := files[Gz(job.month) := Gzip(files[Gz(job.month)].rows, true)];
      Do(FinishCompress(0));
    }

    method DropPlain(job: Job)
      requires Valid() && world.passes == [Compressed(job)]
      modifies this`files, this`world, this`run, this`faults
      ensures Valid() && world.passes == [Between] && world.live == old(world).live && world.inserted == old(world).inserted
      ensures faults >= old(faults)
      ensures files == old(files) || files == old(files) - {Db(job.month)}
      ensures faults == old(faults) ==> files == old(files) - {Db(job.month)}
    {
      hide Inv, Legal, After, Init, Increasing;
      var fault := Chance();
      if fault.None? {
        files := files - {Db(job.month)};
        Do(RemoveDb(0));
      } else {
        Do(RemoveDbFails(0));
      }
    }

    method Publish(job: Job, ghost rows: seq<Row>) returns (path: Name, fault: Fault)
      requires Valid() && world.passes == [Removed(job)] && FileIs(files, PartialOf(job), Table(rows, true))
      modifies this
      ensures Valid()
      ensures OtherMonthsKept(old(files), files, job.month)
      ensures path.month == job.month
      ensures faults >= old(faults)
      ensures faults == old(faults) ==>
        && !fault.Kill? && path == Gz(job.month)
        && files == (old(files) - {PartialOf(job), Db(job.month)})[Gz(job.month) := Gzip(rows, true)]
      ensures !fault.Kill? ==> world.passes == [Between] && Arrived(old(world), world) && HeldAt(files, path, rows)
    {
      hide Inv, Legal, After, Init, Increasing, Enabled, Apply;
      var promoted := Promote(job);
      if !promoted {
        return PartialOf(job), None;
      }
      path, fault := Compress(job, rows);
    }

    /**
     Archives one period. Whatever fails or arrives meanwhile:
     a refusal changes nothing; a failure leaves every row live and the period's names free; success moves every
     row that was live before the boundary into the file named, and none from the boundary on. When nothing fails the
     month's gzip is the one new file.
     */
    method ArchivePeriod(before: int) returns (outcome: Outcome, ghost copied: seq<Row>)
      requires Valid() && world.passes == [Between]
      modifies this
      ensures Valid()
      ensures faults >= old(faults)
      ensures faults == old(faults) && !outcome.Refused? ==>
        && outcome.Archived? && outcome.path == Gz(outcome.month)
        && files == (old(files) - {Partial(outcome.month, old(attempts))})[Gz(outcome.month) := Gzip(copied, true)]
      ensures outcome.Refused? <==> Published(old(files), MonthOf(before - 1))
      ensures outcome.Refused? ==> world == old(world)
      ensures outcome.Failed? ==>
        && world.passes == [Between] && Arrived(old(world), world) && world.segments == old(world).segments
        && !Published(files, MonthOf(before - 1)) && OtherMonthsKept(old(files), files, MonthOf(before - 1))
      ensures outcome.Archived? ==>
        && outcome.month == MonthOf(before - 1) == outcome.path.month && outcome.rows == |copied|
        && world.passes == [Between] && HeldAt(files, outcome.path, copied)
        && PeriodMoved(old(world), world, before, copied)
        && OtherMonthsKept(old(files), files, outcome.month)
    {
      hide Inv, Legal, After, Init, MonthOf, Increasing, Enabled, Apply, PeriodMoved, Arrived, OtherMonthsKept, HeldAt;
      copied := [];
      var month := MonthOf(before - 1);
      if Gz(month) in files || Db(month) in files {
        return Refused, copied;
      }
      var job := BeginJob(before, month);
      ghost var begun := world;
      outcome, copied := Rotate(job);
      SinceTheSameRows(old(world), begun, world, before, copied);
    }

    /** Draws the attempt's provisional name. */
    method BeginJob(before: int, month: int) returns (job: Job)
      requires Valid() && world.passes == [Between] && month == MonthOf(before - 1) && !Published(files, month)
      modifies this`attempts, this`world, this`run
      ensures Valid() && job == Job(month, before, 0, old(attempts))
      ensures world == old(world).(passes := [Starting(job)], attempts := old(world).attempts + 1)
    {
      hide Inv, Legal, After, Init, MonthOf, Increasing;
      job := Job(month, before, 0, attempts);
      attempts := attempts + 1;
      Do(Begin(0, before, 0));
    }

    /** Drains into the provisional file, and either discards it or publishes it. */
    method Rotate(job: Job) returns (outcome: Outcome, ghost copied: seq<Row>)
      requires Valid() && world.passes == [Starting(job)] && !Published(files, job.month)
      modifies this
      ensures Valid() && !outcome.Refused?
      ensures faults >= old(faults)
      ensures faults == old(faults) ==>
        && outcome.Archived? && outcome.path == Gz(job.month)
        && files == (old(files) - {PartialOf(job)})[Gz(job.month) := Gzip(copied, true)]
      ensures outcome.Failed? ==>
        && world.passes == [Between] && Arrived(old(world), world) && world.segments == old(world).segments
        && !Published(files, job.month) && OtherMonthsKept(old(files), files, job.month)
      ensures outcome.Archived? ==>
        && outcome.month == job.month == outcome.path.month && outcome.rows == |copied|
        && world.passes == [Between] && HeldAt(files, outcome.path, copied)
        && PeriodMoved(old(world), world, job.before, copied) && OtherMonthsKept(old(files), files, job.month)
    {
      hide Inv, Legal, After, Init, MonthOf, Increasing, Enabled, Apply, PeriodMoved, Arrived, OtherMonthsKept, HeldAt,
        Published, DrainedTo, GaveUp, OnlyArrivals;
      ghost var begun := world;
      LiveRows(begun);
      var drained: Drained;
      drained, copied := DrainLogs(job);
      ghost var moved := world;
      if drained.Threw? {
        GaveUpIn(begun, moved, job);
        Discard(job);
        NothingChanged(begun, moved, world, job);
        return Failed, copied;
      }
      if drained.Died? {
        return Killed, copied;
      }
      LiveRows(moved);
      DrainedIs(begun, moved, job, copied);
      // The delete has committed; until this code is resumed rows may come in, and the process may die.
      Others();
      ghost var resumed := world;
      SinceArrivals(moved, resumed);
      var fault := Chance();
      if fault.Kill? {
        Die();
        return Killed, copied;
      }
      var path;
      path, fault := Publish(job, copied);
      if fault.Kill? {
        return Killed, copied;
      }
      if faults == old(faults) {
        OnlyTheGzip(old(files), moved.files, job, copied);
      }
      ArrivedSince(moved, resumed, world);
      MovedAndPublished(begun, moved, world, job, copied);
      outcome := Archived(job.month, drained.count, path);
    }
  }

  lemma OnlyTheGzip(files: map<Name, File>, moved: map<Name, File>, job: Job, copied: seq<Row>)
    requires SameBut(files, moved, PartialOf(job)) && !Published(files, job.month)
    ensures (moved - {PartialOf(job), Db(job.month)})[Gz(job.month) := Gzip(copied, true)]
      == (files - {PartialOf(job)})[Gz(job.month) := Gzip(copied, true)]
  {
    var a, b := moved - {PartialOf(job), Db(job.month)}, files - {PartialOf(job)};
    assert a == b by {
      assert forall n :: n in a <==> n in b;
    }
  }

  lemma SinceTheSameRows(s: State, begun: State, t: State, before: int, copied: seq<Row>)
    requires begun.live == s.live && begun.inserted == s.inserted
    ensures Arrived(begun, t) ==> Arrived(s, t)
    ensures PeriodMoved(begun, t, before, copied) ==> PeriodMoved(s, t, before, copied)
  {
    hide Increasing;
  }

  lemma SinceArrivals(s: State, t: State)
    requires OnlyArrivals(s, t)
    ensures Arrived(s, t) && t.passes == s.passes && t.files == s.files
  {
    hide Arrived;
  }

  lemma ArrivedSince(s: State, t: State, u: State)
    requires Arrived(s, t) && Arrived(t, u)
    requires s.live <= s.inserted
    ensures Arrived(s, u)
  {
  }

  lemma GaveUpIn(s: State, t: State, job: Job)
    requires GaveUp(s, t, job)
    ensures |t.passes| == 1 && BeforeDelete(t.passes[0]) && t.passes[0].job == job
  {
  }

  lemma NothingChanged(s: State, gaveUp: State, t: State, job: Job)
    requires GaveUp(s, gaveUp, job) && t == gaveUp.(passes := [Between], files := t.files)
    requires SameBut(gaveUp.files, t.files, PartialOf(job)) && !Published(s.files, job.month)
    ensures Arrived(s, t) && t.segments == s.segments
    ensures !Published(t.files, job.month) && OtherMonthsKept(s.files, t.files, job.month)
  {
  }

  lemma DrainedIs(s: State, t: State, job: Job, copied: seq<Row>)
    requires DrainedTo(s, t, job, copied)
    ensures t.passes == [Removed(job)] && FileIs(t.files, PartialOf(job), Table(copied, true))
    ensures SameBut(s.files, t.files, PartialOf(job))
    ensures OtherMonthsKept(s.files, t.files, job.month)
  {
  }
}
