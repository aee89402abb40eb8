/**
 Cursor pagination (`pagination.ts`, as the listing routes call it): a check that the cursor is visible, a query that
 resumes from it, and a page cut from what the query returned. Check and query are two reads of a list that others
 change, so each request sees two snapshots.
 */
module Pagination {
  import opened Numbers
  import opened Wrappers

  // ---------------------------------------------------------------- query parameters

  /** What `Number` makes of a string. */
  datatype Numeric = Finite(value: real) | NotFinite

  predicate WholeAtLeastOne(n: Numeric) { n.Finite? && n.value == n.value.Floor as real && n.value >= 1.0 }

  datatype PageParams = PageParams(take: int, cursor: Option<string>)

  datatype Refusal = InvalidLimit | InvalidCursor

  /**
   The limit asked for, or the ceiling when it is above; a limit that is no whole number of at least one is refused;
   and a blank cursor is none.
   */
  function ReadPageParams(limit: Option<string>, cursor: Option<string>,
                          number: string -> Numeric, fallback: int, ceiling: int)
    : (r: Result<PageParams, Refusal>)
    requires fallback >= 1 && ceiling >= 1
    ensures r.Err? <==> limit.Some? && !WholeAtLeastOne(number(limit.value))
    ensures r.Ok? ==> 1 <= r.value.take <= ceiling && r.value.cursor != Some("")
    ensures r.Ok? && limit.Some? ==> var asked := number(limit.value).value;
      r.value.take == ceiling || (r.value.take as real == asked && asked <= ceiling as real)
    ensures r.Ok? && limit.Some? && r.value.take == ceiling ==> number(limit.value).value >= ceiling as real
    ensures r.Ok? && limit.None? ==> r.value.take <= fallback && (r.value.take == ceiling || r.value.take == fallback)
    ensures r.Ok? && cursor != Some("") ==> r.value.cursor == cursor
  {
    var resume := if cursor == Some("") then None else cursor;
    if limit.None? then Ok(PageParams(Min(fallback, ceiling), resume))
    else
      var asked := number(limit.value);
      if !WholeAtLeastOne(asked) then Err(InvalidLimit) else Ok(PageParams(Min(asked.value.Floor, ceiling), resume))
  }

  // ---------------------------------------------------------------- the list, and one query of it

  /** `place` orders the listing; `shown` is whether the caller's filter matches. */
  datatype Row = Row(id: string, place: int, shown: bool)

  type List = seq<Row>

  predicate Sorted(list: List) { forall i, j :: 0 <= i < j < |list| ==> list[i].place < list[j].place }

  /** A row keeps its place, and no two rows share an id. */
  predicate Consistent(a: List, b: List) {
    forall r, q :: r in a && q in b ==> (r.id == q.id <==> r.place == q.place)
  }

  predicate Visible(list: List, id: string) { exists r :: r in list && r.id == id && r.shown }

  function Shown(list: List): List {
    if list == [] then [] else if list[0].shown then [list[0]] + Shown(list[1..]) else Shown(list[1..])
  }

  /** The shown rows from a place on. */
  function From(list: List, place: int): List {
    if list == [] then []
    else if list[0].shown && list[0].place >= place then [list[0]] + From(list[1..], place)
    else From(list[1..], place)
  }

  function Take(rows: List, n: int): (r: List)
    requires n >= 0
  {
    if |rows| <= n then rows else rows[..n]
  }

  /** Where the row with an id is, whether or not the filter matches it. */
  function PlaceOf(list: List, id: string): Option<int> {
    if list == [] then None else if list[0].id == id then Some(list[0].place) else PlaceOf(list[1..], id)
  }

  /**
   `findMany` as Prisma runs it: the cursor's place is found by id alone, the filter applies from there on, and the
   first row is skipped on the understanding that it is the cursor's.
   */
  function FindMany(list: List, cursor: Option<string>, take: int): List
    requires take >= 0
  {
    match cursor
    case None => Take(Shown(list), take)
    case Some(id) =>
      match PlaceOf(list, id)
      case None => []
      case Some(place) =>
        var rows := From(list, place);
        Take(if rows == [] then [] else rows[1..], take)
  }

  datatype Page = Page(rows: List, nextCursor: Option<string>)

  /** `pageOf`: one row more than asked for was fetched, to tell whether there are more. */
  function PageOf(rows: List, take: int): Page
    requires take >= 1
  {
    var page := Take(rows, take);
    Page(page, if |rows| > take then Some(page[|page| - 1].id) else None)
  }

  /** One request: the cursor is checked against one snapshot and the page read from the next. */
  function Request(checked: List, queried: List, take: int, cursor: Option<string>): Result<Page, Refusal>
    requires take >= 1
  {
    if cursor.Some? && !Visible(checked, cursor.value) then Err(InvalidCursor)
    else Ok(PageOf(FindMany(queried, cursor, take + 1), take))
  }

  // ---------------------------------------------------------------- what a page is

  /** The shown rows after a place. */
  function Following(list: List, after: Option<int>): List {
    if list == [] then []
    else if list[0].shown && (after.None? || list[0].place > after.value) then [list[0]] + Following(list[1..], after)
    else Following(list[1..], after)
  }

  lemma {:induction false} FollowingIs(list: List, after: Option<int>)
    requires Sorted(list)
    ensures Sorted(Following(list, after))
    ensures forall r :: r in Following(list, after) <==> r in list && r.shown && (after.None? || r.place > after.value)
  {
    if list == [] {
    } else {
      FollowingIs(list[1..], after);
      Ahead(list);
      InFront(list[0], Following(list[1..], after));
    }
    hide Sorted;
  }

  lemma Ahead(list: List)
    requires Sorted(list) && list != []
    ensures Sorted(list[1..]) && forall r :: r in list[1..] ==> list[0].place < r.place
    ensures forall r :: r in list <==> r == list[0] || r in list[1..]
  {
  }

  lemma InFront(r: Row, rest: List)
    requires Sorted(rest)
    ensures (forall q :: q in rest ==> r.place < q.place) ==> Sorted([r] + rest)
    ensures forall q :: q in [r] + rest <==> q == r || q in rest
  {
    assert forall j :: 0 <= j < |rest| ==> rest[j] in rest;
  }

  ghost predicate IsShownAt(list: List, place: int) { exists r :: r in list && r.place == place && r.shown }

  ghost function ShownAt(list: List, place: int): List {
    if IsShownAt(list, place) then var r :| r in list && r.place == place && r.shown; [r] else []
  }

  lemma ShownAtIs(list: List, place: int)
    requires Sorted(list) && list != []
    ensures list[0].place > place ==> ShownAt(list, place) == [] && ShownAt(list[1..], place) == []
    ensures list[0].place == place ==> ShownAt(list, place) == (if list[0].shown then [list[0]] else [])
    ensures list[0].place == place ==> ShownAt(list[1..], place) == []
    ensures list[0].place < place ==> ShownAt(list, place) == ShownAt(list[1..], place)
  {
    Ahead(list);
    if list[0].place == place && list[0].shown {
      assert IsShownAt(list, place);
    } else if IsShownAt(list[1..], place) {
      var r :| r in list[1..] && r.place == place && r.shown;
      assert forall q :: q in list[1..] && q.place == place ==> q == r by {
        OnePlaceEach(list[1..]);
      }
      assert r in list && IsShownAt(list, place);
    }
  }

  lemma OnePlaceEach(list: List)
    requires Sorted(list)
    ensures forall r, q :: r in list && q in list && r.place == q.place ==> r == q
  {
  }

  /** From a shown row on means that row and then what follows it; from any other place, what follows. */
  lemma {:induction false} FromIs(list: List, place: int)
    requires Sorted(list)
    ensures From(list, place) == ShownAt(list, place) + Following(list, Some(place))
  {
    if list == [] {
    } else {
      Ahead(list);
      ShownAtIs(list, place);
      FromIs(list[1..], place);
      hide Sorted, ShownAt;
    }
  }

  lemma {:induction false} ShownIsFollowing(list: List)
    ensures Shown(list) == Following(list, None)
  {
    if list == [] {
    } else {
      ShownIsFollowing(list[1..]);
    }
  }

  lemma {:induction false} PlaceOfIs(list: List, id: string)
    requires Consistent(list, list)
    ensures PlaceOf(list, id).Some? <==> exists r :: r in list && r.id == id
    ensures forall r :: r in list && r.id == id ==> PlaceOf(list, id) == Some(r.place)
  {
    if list == [] {
    } else {
      PlaceOfIs(list[1..], id);
      assert forall r :: r in list <==> r == list[0] || r in list[1..];
    }
  }

  /**
   The page the caller is owed: the next rows after its bookmark's place, and a cursor exactly when there are
   more.
   */
  function Owed(list: List, after: Option<int>, take: int): Page
    requires take >= 1
  {
    PageOf(Take(Following(list, after), take + 1), take)
  }

  /** The rows at a bookmark's place are the bookmark's. */
  predicate Bookmarks(list: List, cursor: Option<string>, after: Option<int>) {
    && cursor.Some? == after.Some?
    && (cursor.Some? ==> forall r :: r in list ==> (r.id == cursor.value <==> r.place == after.value))
  }

  /**
   What the query returns: all that follows when the bookmark is shown, one row short when it is not, nothing when
   it is gone.
   */
  lemma FindManyIs(list: List, cursor: Option<string>, after: Option<int>, take: int)
    requires Sorted(list) && Consistent(list, list) && Bookmarks(list, cursor, after) && take >= 0
    ensures var following := Following(list, after);
      FindMany(list, cursor, take) ==
        if cursor.None? || Visible(list, cursor.value) then Take(following, take)
        else if PlaceOf(list, cursor.value).None? || following == [] then []
        else Take(following[1..], take)
  {
    if cursor.None? {
      ShownIsFollowing(list);
    } else {
      PlaceOfIs(list, cursor.value);
      FromIs(list, after.value);
      assert Visible(list, cursor.value) <==> exists r :: r in list && r.place == after.value && r.shown;
    }
    hide Sorted, Consistent, From, Following, PlaceOf;
  }

  /**
   Behind a bookmark that is shown, a page holds the next rows, as many as were asked for if there are so many, and says
   where to go on exactly when there are more.
   */
  lemma PageHoldsWhatFollows(list: List, cursor: Option<string>, after: Option<int>, take: int)
    requires Sorted(list) && Consistent(list, list) && Bookmarks(list, cursor, after) && take >= 1
    requires cursor.None? || Visible(list, cursor.value)
    ensures Request(list, list, take, cursor).Ok?
    ensures var f, page := Following(list, after), Request(list, list, take, cursor).value;
      && page.rows == f[..Min(take, |f|)]
      && page.nextCursor == if |f| > take then Some(f[take - 1].id) else None
  {
    FindManyIs(list, cursor, after, take + 1);
    hide FindMany, Following, Sorted, Consistent, Bookmarks, Visible;
  }

  /** A page is the one owed exactly when the bookmark is still shown, or nothing follows it anyway. */
  lemma PageIsOwedIff(list: List, cursor: string, after: int, take: int)
    requires Sorted(list) && Consistent(list, list) && Bookmarks(list, Some(cursor), Some(after)) && take >= 1
    ensures PageOf(FindMany(list, Some(cursor), take + 1), take) == Owed(list, Some(after), take) <==>
      Visible(list, cursor) || Following(list, Some(after)) == []
  {
    FindManyIs(list, Some(cursor), Some(after), take + 1);
    FollowingIs(list, Some(after));
    var f := Following(list, Some(after));
    hide *;
    if f != [] {
      ShortPageDiffers(f, [], take);
      ShortPageDiffers(f, f[1..], take);
    }
  }

  lemma ShortPageDiffers(f: List, g: List, take: int)
    requires Sorted(f) && f != [] && take >= 1 && (g == [] || g == f[1..])
    ensures PageOf(Take(g, take + 1), take) != PageOf(Take(f, take + 1), take)
    ensures Take([], take + 1) == []
  {
    assert PageOf(Take(f, take + 1), take).rows[0] == f[0];
    if g != [] {
      assert PageOf(Take(g, take + 1), take).rows[0] == f[1];
    }
  }

  // ---------------------------------------------------------------- a whole walk

  datatype Instant = Instant(checked: List, queried: List)

  datatype Ending = Finished | Refused | Unfinished

  datatype Walked = Walked(rows: List, ending: Ending)

  /** Following `nextCursor` from request to request, each at its own instants. */
  function Walk(instants: seq<Instant>, take: int, cursor: Option<string>): Walked
    requires take >= 1
  {
    if instants == [] then Walked([], Unfinished)
    else
      match Request(instants[0].checked, instants[0].queried, take, cursor)
      case Err(_) => Walked([], Refused)
      case Ok(page) =>
        if page.nextCursor.None? then Walked(page.rows, Finished)
        else
          var rest := Walk(instants[1..], take, page.nextCursor);
          Walked(page.rows + rest.rows, rest.ending)
  }

  predicate Seen(instants: seq<Instant>, list: List) {
    exists i :: 0 <= i < |instants| && (instants[i].checked == list || instants[i].queried == list)
  }

  /** All through the walk the list is in order, and rows keep their ids and places. */
  ghost predicate Steady(instants: seq<Instant>) {
    forall a, b :: Seen(instants, a) && Seen(instants, b) ==> Sorted(a) && Consistent(a, b)
  }

  ghost predicate BookmarksAll(instants: seq<Instant>, cursor: Option<string>, after: Option<int>) {
    cursor.Some? == after.Some? && forall a :: Seen(instants, a) ==> Bookmarks(a, cursor, after)
  }

  lemma SeenLater(instants: seq<Instant>)
    requires instants != []
    ensures forall a :: Seen(instants[1..], a) ==> Seen(instants, a)
    ensures Seen(instants, instants[0].queried) && Seen(instants, instants[0].checked)
  {
    forall a | Seen(instants[1..], a) ensures Seen(instants, a) {
      var i :| 0 <= i < |instants[1..]| && (instants[1..][i].checked == a || instants[1..][i].queried == a);
      assert instants[i + 1] == instants[1..][i];
    }
  }

  /** The page of a request, and where it leaves the bookmark. */
  lemma RequestIs(list: List, cursor: Option<string>, after: Option<int>, take: int, page: Page)
    requires Sorted(list) && Consistent(list, list) && Bookmarks(list, cursor, after) && take >= 1
    requires page == PageOf(FindMany(list, cursor, take + 1), take)
    ensures Sorted(page.rows) && forall r :: r in page.rows ==> r in Following(list, after)
    ensures page.nextCursor.Some? ==> page.rows != [] && page.nextCursor == Some(page.rows[|page.rows| - 1].id)
    ensures cursor.None? || Visible(list, cursor.value) ==> page == Owed(list, after, take)
  {
    FindManyIs(list, cursor, after, take + 1);
    FollowingIs(list, after);
    var f := Following(list, after);
    hide FindMany, Visible, Following, PlaceOf, Consistent, Bookmarks, PageOf, Sorted, Take;
    CutsFrom(f, f, take);
    CutsFrom(f, [], take);
    if f != [] {
      CutsFrom(f, f[1..], take);
    }
  }

  /** A page cut from the end of a sorted list. */
  lemma CutsFrom(f: List, g: List, take: int)
    requires Sorted(f) && take >= 1 && (g == f || g == [] || (f != [] && g == f[1..]))
    ensures var page := PageOf(Take(g, take + 1), take);
      && Sorted(page.rows) && (forall r :: r in page.rows ==> r in f)
      && (page.nextCursor.Some? ==> page.rows != [] && page.nextCursor == Some(page.rows[|page.rows| - 1].id))
    ensures Take([], take + 1) == []
  {
    assert forall r :: r in g ==> r in f;
    assert forall r :: r in Take(g, take + 1) ==> r in g;
  }

  lemma NextBookmark(instants: seq<Instant>, list: List, r: Row)
    requires Steady(instants) && Seen(instants, list) && r in list
    ensures BookmarksAll(instants, Some(r.id), Some(r.place))
  {
    forall a | Seen(instants, a) ensures Bookmarks(a, Some(r.id), Some(r.place)) {
      assert Consistent(list, a);
    }
    hide Seen;
  }

  ghost predicate After(r: Row, after: Option<int>) { after.None? || r.place > after.value }

  lemma Joined(page: List, rest: List, after: Option<int>)
    requires page != [] && Sorted(page) && Sorted(rest)
    requires forall r :: r in page ==> After(r, after)
    requires forall r :: r in rest ==> After(r, Some(page[|page| - 1].place))
    ensures Sorted(page + rest) && forall r :: r in page + rest ==> After(r, after)
  {
    assert forall j :: 0 <= j < |rest| ==> rest[j] in rest;
    assert page[0] in page && page[|page| - 1] in page;
  }

  /** Whatever is deleted, hidden or inserted between requests, a walk only ever goes forward: no row comes twice. */
  lemma {:induction false} WalkGoesForward(instants: seq<Instant>, take: int, cursor: Option<string>,
                                           after: Option<int>)
    requires take >= 1 && Steady(instants) && BookmarksAll(instants, cursor, after)
    ensures Sorted(Walk(instants, take, cursor).rows)
    ensures forall r :: r in Walk(instants, take, cursor).rows ==> After(r, after)
    decreases |instants|
  {
    if instants == [] {
    } else {
      var request := Request(instants[0].checked, instants[0].queried, take, cursor);
      if request.Ok? {
        var page := request.value;
        PageGoesForward(instants, take, cursor, after);
        hide Sorted, Request, After, Steady, BookmarksAll;
        if page.nextCursor.Some? {
          var last := NextRequest(instants, take, cursor, after);
          WalkGoesForward(instants[1..], take, page.nextCursor, Some(last.place));
          Joined(page.rows, Walk(instants[1..], take, page.nextCursor).rows, after);
        }
      }
    }
  }

  lemma PageGoesForward(instants: seq<Instant>, take: int, cursor: Option<string>, after: Option<int>)
    requires take >= 1 && instants != [] && Steady(instants) && BookmarksAll(instants, cursor, after)
    requires Request(instants[0].checked, instants[0].queried, take, cursor).Ok?
    ensures var page := Request(instants[0].checked, instants[0].queried, take, cursor).value;
      Sorted(page.rows) && forall r :: r in page.rows ==> After(r, after)
  {
    var list := instants[0].queried;
    assert Seen(instants, list);
    RequestIs(list, cursor, after, take, PageOf(FindMany(list, cursor, take + 1), take));
    FollowingIs(list, after);
    hide Sorted, Consistent, Following, Bookmarks, FindMany, PageOf;
  }

  /** At every query the walk made, the bookmark it resumed from was still shown. */
  predicate Held(instants: seq<Instant>, take: int, cursor: Option<string>)
    requires take >= 1
  {
    instants == [] ||
    (&& (cursor.Some? ==> Visible(instants[0].queried, cursor.value))
     && var request := Request(instants[0].checked, instants[0].queried, take, cursor);
        (request.Ok? && request.value.nextCursor.Some? ==> Held(instants[1..], take, request.value.nextCursor)))
  }

  ghost predicate Survives(instants: seq<Instant>, r: Row) {
    r.shown && forall i :: 0 <= i < |instants| ==> r in instants[i].queried
  }

  /** What is owed leaves nothing between the page and its bookmark; without one, nothing at all. */
  lemma OwedLeavesOnlyLater(list: List, after: Option<int>, take: int, r: Row)
    requires Sorted(list) && take >= 1 && r in Following(list, after)
    ensures var page := Owed(list, after, take);
      r in page.rows || (page.nextCursor.Some? && page.rows != [] && r.place > page.rows[|page.rows| - 1].place)
  {
    FollowingIs(list, after);
    var f := Following(list, after);
    var i :| 0 <= i < |f| && f[i] == r;
    hide Following;
    if i >= take {
      assert Owed(list, after, take).rows[take - 1] == f[take - 1];
    } else {
      assert Owed(list, after, take).rows[i] == r;
    }
  }

  /** A walk that finished, and whose bookmarks held, returned every row that survived it. */
  lemma {:induction false} FinishedWalkIsComplete(instants: seq<Instant>, take: int, cursor: Option<string>,
                                                  after: Option<int>, r: Row)
    requires take >= 1 && Steady(instants) && BookmarksAll(instants, cursor, after)
    requires Held(instants, take, cursor) && Walk(instants, take, cursor).ending == Finished
    requires Survives(instants, r) && After(r, after)
    ensures r in Walk(instants, take, cursor).rows
    decreases |instants|
  {
    var list := instants[0].queried;
    assert Seen(instants, list);
    var page := Request(instants[0].checked, list, take, cursor).value;
    assert page == Owed(list, after, take) by { RequestIs(list, cursor, after, take, page); }
    assert r in Following(list, after) by { FollowingIs(list, after); }
    hide Following, Owed, Visible, Bookmarks, Sorted, Consistent, Seen, FindMany, BookmarksAll, Steady;
    assert Sorted(list) by { FirstList(instants, cursor, after); }
    OwedLeavesOnlyLater(list, after, take, r);
    if r !in page.rows {
      var last := NextRequest(instants, take, cursor, after);
      FinishedWalkIsComplete(instants[1..], take, page.nextCursor, Some(last.place), r);
    }
  }

  /** The row a request that has more to come leaves the walk at. */
  lemma NextRequest(instants: seq<Instant>, take: int, cursor: Option<string>, after: Option<int>) returns (last: Row)
    requires take >= 1 && instants != [] && Steady(instants) && BookmarksAll(instants, cursor, after)
    requires var request := Request(instants[0].checked, instants[0].queried, take, cursor);
      request.Ok? && request.value.nextCursor.Some?
    ensures var page := Request(instants[0].checked, instants[0].queried, take, cursor).value;
      page.rows != [] && last == page.rows[|page.rows| - 1] && page.nextCursor == Some(last.id)
    ensures last in Following(instants[0].queried, after)
    ensures Steady(instants[1..]) && BookmarksAll(instants[1..], Some(last.id), Some(last.place))
  {
    var list := instants[0].queried;
    var page := Request(instants[0].checked, list, take, cursor).value;
    FirstList(instants, cursor, after);
    hide *;
    assert page == PageOf(FindMany(list, cursor, take + 1), take) by { RequestPage(instants[0].checked, list, take, cursor); }
    RequestIs(list, cursor, after, take, page);
    last := page.rows[|page.rows| - 1];
    assert last in page.rows;
    FollowingIs(list, after);
    NextBookmark(instants, list, last);
    SteadyLater(instants, Some(last.id), Some(last.place));
  }

  lemma RequestPage(checked: List, list: List, take: int, cursor: Option<string>)
    requires take >= 1 && Request(checked, list, take, cursor).Ok?
    ensures Request(checked, list, take, cursor).value == PageOf(FindMany(list, cursor, take + 1), take)
  {
    hide FindMany, PageOf;
  }

  lemma FirstList(instants: seq<Instant>, cursor: Option<string>, after: Option<int>)
    requires instants != [] && Steady(instants) && BookmarksAll(instants, cursor, after)
    ensures var list := instants[0].queried;
      Seen(instants, list) && Sorted(list) && Consistent(list, list) && Bookmarks(list, cursor, after)
  {
    assert Seen(instants, instants[0].queried);
    hide Sorted, Consistent, Bookmarks;
  }

  lemma SteadyLater(instants: seq<Instant>, cursor: Option<string>, after: Option<int>)
    requires instants != [] && Steady(instants) && BookmarksAll(instants, cursor, after)
    ensures Steady(instants[1..]) && BookmarksAll(instants[1..], cursor, after)
  {
    SeenLater(instants);
    hide Seen, Sorted, Consistent, Bookmarks;
  }

  /** Nothing changes between a request's check and its query. */
  predicate ChecksHold(instants: seq<Instant>) {
    forall i :: 0 <= i < |instants| ==> instants[i].checked == instants[i].queried
  }

  /** Then the check does what it is for: every walk it lets finish had its bookmarks. */
  lemma {:induction false} CheckedWalksAreHeld(instants: seq<Instant>, take: int, cursor: Option<string>)
    requires take >= 1 && ChecksHold(instants) && Walk(instants, take, cursor).ending == Finished
    ensures Held(instants, take, cursor)
    decreases |instants|
  {
    var request := Request(instants[0].checked, instants[0].queried, take, cursor);
    if request.Ok? && request.value.nextCursor.Some? {
      CheckedWalksAreHeld(instants[1..], take, request.value.nextCursor);
    }
  }

  /**
   A refusal is never about anything but a lost bookmark: the one the walk began with, or the last row it returned,
   which the check of some request no longer found.
   */
  lemma {:induction false} RefusedOnlyForALostBookmark(instants: seq<Instant>, take: int, cursor: Option<string>)
    returns (i: nat, bookmark: string)
    requires take >= 1 && Walk(instants, take, cursor).ending == Refused
    ensures i < |instants| && !Visible(instants[i].checked, bookmark)
    ensures var rows := Walk(instants, take, cursor).rows;
      if i == 0 then cursor == Some(bookmark) && rows == [] else rows != [] && bookmark == rows[|rows| - 1].id
    decreases |instants|
  {
    hide Visible, FindMany;
    var request := Request(instants[0].checked, instants[0].queried, take, cursor);
    if request.Err? {
      i, bookmark := 0, cursor.value;
    } else {
      i, bookmark := RefusedOnlyForALostBookmark(instants[1..], take, request.value.nextCursor);
      i := i + 1;
    }
  }

  /**
   The promise in full: with checks that hold, a walk ends refused, or with every survivor exactly once and in
   order.
   */
  lemma WalkIsCompleteOrRefused(instants: seq<Instant>, take: int, r: Row)
    requires take >= 1 && Steady(instants) && ChecksHold(instants) && Survives(instants, r)
    requires Walk(instants, take, None).ending == Finished
    ensures var rows := Walk(instants, take, None).rows;
      && Sorted(rows) && r in rows
      && forall i, j :: 0 <= i < |rows| && 0 <= j < |rows| && rows[i] == r && rows[j] == r ==> i == j
  {
    assert BookmarksAll(instants, None, None);
    CheckedWalksAreHeld(instants, take, None);
    WalkGoesForward(instants, take, None, None);
    FinishedWalkIsComplete(instants, take, None, None, r);
    hide Walk, Steady, Survives;
  }

  // ---------------------------------------------------------------- a walk over a shrinking list ends

  ghost predicate Shrinking(instants: seq<Instant>) {
    forall i, j, r :: 0 <= i <= j < |instants| && r in instants[j].queried && r.shown ==> r in instants[i].queried
  }

  lemma {:induction false} NoMoreThan(a: List, b: List)
    requires Sorted(a) && Sorted(b) && forall r :: r in a ==> r in b
    ensures |a| <= |b|
    decreases |a|
  {
    if a == [] {
    } else {
      assert a[0] in b;
      var j :| 0 <= j < |b| && b[j] == a[0];
      forall r | r in a[1..] ensures r in b[j + 1..] {
        var i :| 0 <= i < |a[1..]| && a[1..][i] == r;
        assert a[i + 1] == r && r in a;
        var k :| 0 <= k < |b| && b[k] == r;
        assert k > j && b[j + 1..][k - j - 1] == r;
      }
      NoMoreThan(a[1..], b[j + 1..]);
    }
  }

  /** Each request that asks for another leaves fewer rows to come, so requests run out before rows are invented. */
  lemma {:induction false} ShrinkingWalkEnds(instants: seq<Instant>, take: int, cursor: Option<string>,
                                             after: Option<int>)
    requires take >= 1 && Steady(instants) && BookmarksAll(instants, cursor, after) && Shrinking(instants)
    requires instants != [] && |instants| > |Following(instants[0].queried, after)|
    ensures Walk(instants, take, cursor).ending != Unfinished
    decreases |instants|
  {
    hide Following, Sorted, Consistent, Bookmarks, Seen, Visible, FindMany, Steady, BookmarksAll;
    var request := Request(instants[0].checked, instants[0].queried, take, cursor);
    if request.Ok? && request.value.nextCursor.Some? {
      var last := NextRequest(instants, take, cursor, after);
      FewerFollow(instants, after, last);
      ShrinkingWalkEnds(instants[1..], take, request.value.nextCursor, Some(last.place));
    }
  }

  lemma FewerFollow(instants: seq<Instant>, after: Option<int>, last: Row)
    requires instants != [] && Steady(instants) && Shrinking(instants) && last in Following(instants[0].queried, after)
    ensures |Following(instants[0].queried, after)| >= 1
    ensures |instants| > 1 ==> |Following(instants[1].queried, Some(last.place))| < |Following(instants[0].queried, after)|
  {
    if |instants| > 1 {
      var now, next := instants[0].queried, instants[1].queried;
      assert Seen(instants, now) && Seen(instants, next);
      FollowingIs(now, after);
      FollowingIs(next, Some(last.place));
      var f, g := Following(now, after), Following(next, Some(last.place));
      hide Following, Seen;
      InFront(last, g);
      NoMoreThan([last] + g, f);
    }
  }

  // ---------------------------------------------------------------- between the check and the query

  /**
   A bookmark deleted after its check and before its query: the walk finishes without a refusal, and two rows that
   were there all along were never returned.
   */
  lemma SilentlyShort()
    ensures var a, b, c := Row("a", 1, true), Row("b", 2, true), Row("c", 3, true);
      var instants := [Instant([a, b, c], [a, b, c]), Instant([a, b, c], [b, c])];
      Walk(instants, 1, None) == Walked([a], Finished) && Survives(instants, b) && Survives(instants, c)
  {
    var a, b, c := Row("a", 1, true), Row("b", 2, true), Row("c", 3, true);
    TwoAndThree(a, b, c);
    var instants := [Instant([a, b, c], [a, b, c]), Instant([a, b, c], [b, c])];
    assert a in [a, b, c] && Visible([a, b, c], "a");
    hide Shown, PlaceOf;
    assert instants[1..] == [Instant([a, b, c], [b, c])];
    assert instants[1..][1..] == [];
    assert Take([a, b, c], 2) == [a, b] && Take([a, b], 1) == [a];
    assert Request([a, b, c], [a, b, c], 1, None) == Ok(Page([a], Some("a")));
    assert Request([a, b, c], [b, c], 1, Some("a")) == Ok(Page([], None));
  }

  lemma TwoAndThree(a: Row, b: Row, c: Row)
    requires a.shown && b.shown && c.shown && a.id != b.id && a.id != c.id
    ensures Shown([a, b, c]) == [a, b, c]
    ensures PlaceOf([b, c], a.id) == None
  {
    assert [c][1..] == [] && [b, c][1..] == [c] && [a, b, c][1..] == [b, c];
    assert Shown([c]) == [c] && Shown([b, c]) == [b] + Shown([c]);
    assert PlaceOf([c], a.id) == None;
  }
}
