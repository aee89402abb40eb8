/**
 The keyless log budget (`keyless-log-budget.ts`): five rows a minute to an address, the rest counted and owed. The map
 and the records in it are changed in place; `Claimed` says what one call does to their contents, and the
 theorems are about whole runs of calls.
 */
module KeylessBudget {
  import opened Wrappers
  import opened OrderedMap

  const ROWS_PER_WINDOW := 5
  const WINDOW_MS := 60_000
  const MAX_TRACKED_ADDRESSES := 10_000

  datatype Account = Account(written: nat, suppressed: nat, resetAt: int)

  type Accounts = seq<Entry<string, Account>>

  datatype Verdict = Verdict(record: bool, coalesced: nat)

  // ---------------------------------------------------------------- one call

  /** The windows still open. */
  function Live(es: Accounts, now: int): Accounts {
    if es == [] then []
    else if es[0].value.resetAt <= now then Live(es[1..], now)
    else [es[0]] + Live(es[1..], now)
  }

  /** The oldest dropped until there is room for one more. */
  function Capped(es: Accounts): Accounts {
    if |es| < MAX_TRACKED_ADDRESSES then es else es[|es| - (MAX_TRACKED_ADDRESSES - 1)..]
  }

  function Swept(es: Accounts, now: int): Accounts { Capped(Live(es, now)) }

  /** Whether a call opens a window: there is no record, or the one there has expired. */
  predicate Opens(es: Accounts, address: string, now: int) {
    var b := Get(es, address);
    b.None? || b.value.resetAt <= now
  }

  function Answer(es: Accounts, address: string, now: int): Verdict {
    var b := Get(es, address);
    if Opens(es, address, now) then Verdict(true, if b.Some? then b.value.suppressed else 0)
    else if b.value.written >= ROWS_PER_WINDOW then Verdict(false, 0)
    else Verdict(true, b.value.suppressed)
  }

  /** The caller's record after the call; the map keeps it only if the sweep did. */
  function Charged(es: Accounts, address: string, now: int): Account {
    var b := Get(es, address);
    if Opens(es, address, now) then Account(1, 0, now + WINDOW_MS)
    else if b.value.written >= ROWS_PER_WINDOW then b.value.(suppressed := b.value.suppressed + 1)
    else Account(b.value.written + 1, 0, b.value.resetAt)
  }

  function Claimed(es: Accounts, address: string, now: int): Accounts {
    var swept := Swept(es, now);
    if Opens(es, address, now) || Has(swept, address) then Set(swept, address, Charged(es, address, now)) else swept
  }

  // ---------------------------------------------------------------- what the sweep keeps

  /** `r` picks some of `es`, in order. */
  ghost predicate PicksLive(es: Accounts, now: int, r: Accounts) {
    && |r| <= |es| && Distinct(r)
    && (forall e :: e in r <==> e in es && e.value.resetAt > now)
    && (Sorted(es) ==> Sorted(r))
  }

  predicate Sorted(es: Accounts) {
    forall i, j :: 0 <= i < j < |es| ==> es[i].value.resetAt <= es[j].value.resetAt
  }

  lemma {:induction false} LivePicks(es: Accounts, now: int)
    requires Distinct(es)
    ensures PicksLive(es, now, Live(es, now))
  {
    if es == [] {
    } else {
      LivePicks(es[1..], now);
      PickFirst(es, now, Live(es[1..], now));
      hide PicksLive;
    }
  }

  lemma PickFirst(es: Accounts, now: int, r: Accounts)
    requires Distinct(es) && es != [] && PicksLive(es[1..], now, r)
    ensures PicksLive(es, now, if es[0].value.resetAt <= now then r else [es[0]] + r)
  {
    assert forall e :: e in es <==> e == es[0] || e in es[1..];
    assert Sorted(es) ==> Sorted(es[1..]);
    forall e | e in r ensures e.key != es[0].key && (Sorted(es) ==> es[0].value.resetAt <= e.value.resetAt) {
      Behind(es, e);
    }
    PutBefore(es[0], r);
    hide Sorted, Distinct;
  }

  lemma Behind(es: Accounts, e: Entry<string, Account>)
    requires Distinct(es) && es != [] && e in es[1..]
    ensures e.key != es[0].key && (Sorted(es) ==> es[0].value.resetAt <= e.value.resetAt)
  {
    var k :| 0 <= k < |es[1..]| && es[1..][k] == e;
    assert es[k + 1] == e;
  }

  lemma PutBefore(e: Entry<string, Account>, r: Accounts)
    requires Distinct(r) && forall x :: x in r ==> x.key != e.key
    ensures Distinct([e] + r)
    ensures Sorted(r) && (forall x :: x in r ==> e.value.resetAt <= x.value.resetAt) ==> Sorted([e] + r)
  {
    assert forall j :: 0 <= j < |r| ==> r[j] in r;
  }

  lemma GetIs(es: Accounts, e: Entry<string, Account>)
    requires Distinct(es) && e in es
    ensures Get(es, e.key) == Some(e.value)
  {
    var i :| 0 <= i < |es| && es[i] == e;
    OnePlace(es, e.key, i);
  }

  lemma GotIsIn(es: Accounts, a: string)
    requires Get(es, a).Some?
    ensures Entry(a, Get(es, a).value) in es
  {
    assert es[IndexOf(es, a)] in es;
  }

  /** A record the sweep keeps is as it was and open; one whose window is open is lost only to the cap. */
  lemma SweptKeeps(es: Accounts, now: int, a: string)
    requires Distinct(es)
    ensures Distinct(Swept(es, now)) && |Swept(es, now)| < MAX_TRACKED_ADDRESSES
    ensures Get(Live(es, now), a) == (if Get(es, a).Some? && Get(es, a).value.resetAt > now then Get(es, a) else None)
    ensures Get(Swept(es, now), a) == (if Has(Swept(es, now), a) then Get(Live(es, now), a) else None)
    ensures Has(Swept(es, now), a) ==> Has(Live(es, now), a)
    ensures Sorted(es) ==> Sorted(Swept(es, now))
    ensures forall e :: e in Swept(es, now) ==> e in es && e.value.resetAt > now
  {
    LivePicks(es, now);
    var live := Live(es, now);
    hide Live;
    LiveGets(es, live, now, a);
    var n := if |live| < MAX_TRACKED_ADDRESSES then 0 else |live| - (MAX_TRACKED_ADDRESSES - 1);
    assert Swept(es, now) == live[n..];
    SuffixGets(live, n, a);
    hide Get, Has;
  }

  lemma LiveGets(es: Accounts, live: Accounts, now: int, a: string)
    requires Distinct(es) && PicksLive(es, now, live)
    ensures Get(live, a) == (if Get(es, a).Some? && Get(es, a).value.resetAt > now then Get(es, a) else None)
  {
    if Get(live, a).Some? {
      GotIsIn(live, a);
      GetIs(es, Entry(a, Get(live, a).value));
    } else if Get(es, a).Some? {
      GotIsIn(es, a);
      if Get(es, a).value.resetAt > now {
        GetIs(live, Entry(a, Get(es, a).value));
      }
    }
    hide Get;
  }

  lemma SuffixGets(es: Accounts, n: nat, a: string)
    requires Distinct(es) && n <= |es|
    ensures Distinct(es[n..]) && (Sorted(es) ==> Sorted(es[n..])) && forall e :: e in es[n..] ==> e in es
    ensures Get(es[n..], a) == if Has(es[n..], a) then Get(es, a) else None
    ensures Has(es[n..], a) ==> Has(es, a)
  {
    if Has(es[n..], a) {
      GotIsIn(es[n..], a);
      GetIs(es, Entry(a, Get(es[n..], a).value));
    }
  }

  // ---------------------------------------------------------------- what every call keeps

  /** A record never counts past its budget, and owes nothing before it is spent. */
  predicate Honest(b: Account) { 1 <= b.written <= ROWS_PER_WINDOW && (b.written < ROWS_PER_WINDOW ==> b.suppressed == 0) }

  ghost predicate Kept(es: Accounts) {
    Distinct(es) && |es| <= 10_000 && forall e :: e in es ==> Honest(e.value)
  }

  /**
   With a clock that does not go back: windows in the order they expire, all still open, none longer than a
   minute.
   */
  ghost predicate Timed(es: Accounts, now: int) {
    Sorted(es) && forall e :: e in es ==> now < e.value.resetAt <= now + WINDOW_MS
  }

  lemma SetHolds(es: Accounts, a: string, b: Account)
    requires Distinct(es)
    ensures forall e :: e in Set(es, a, b) ==> e == Entry(a, b) || e in es
    ensures |Set(es, a, b)| == |es| + (if Has(es, a) then 0 else 1)
  {
  }

  lemma ChargedIsHonest(es: Accounts, address: string, now: int)
    requires Kept(es)
    ensures Honest(Charged(es, address, now))
  {
    if Get(es, address).Some? {
      GotIsIn(es, address);
    }
  }

  lemma ClaimKeeps(es: Accounts, address: string, now: int)
    requires Kept(es)
    ensures Kept(Claimed(es, address, now))
  {
    SweptKeeps(es, now, address);
    ChargedIsHonest(es, address, now);
    hide Swept, Charged, Opens, Honest, Get, Has;
    SetKeepsDistinct(Swept(es, now), address, Charged(es, address, now));
    SetHolds(Swept(es, now), address, Charged(es, address, now));
    hide Set;
  }

  lemma ClaimKeepsTime(es: Accounts, last: int, address: string, now: int)
    requires Kept(es) && Timed(es, last) && last <= now
    ensures Timed(Claimed(es, address, now), now)
  {
    SweptKeeps(es, now, address);
    var swept, b := Swept(es, now), Charged(es, address, now);
    hide Swept;
    SetHolds(swept, address, b);
    if Get(es, address).Some? {
      GotIsIn(es, address);
    }
    assert now < b.resetAt <= now + WINDOW_MS;
    if Opens(es, address, now) {
      assert !Has(swept, address);
      assert forall e :: e in swept ==> e.value.resetAt <= b.resetAt;
      SortedBehind(swept, Entry(address, b));
    } else if Has(swept, address) {
      SortedInPlace(swept, IndexOf(swept, address), Entry(address, b));
    }
  }

  lemma SortedBehind(es: Accounts, e: Entry<string, Account>)
    requires Sorted(es) && forall x :: x in es ==> x.value.resetAt <= e.value.resetAt
    ensures Sorted(es + [e])
  {
  }

  lemma SortedInPlace(es: Accounts, i: nat, e: Entry<string, Account>)
    requires Sorted(es) && i < |es| && e.value.resetAt == es[i].value.resetAt
    ensures Sorted(es[i := e])
  {
  }

  /** What the map holds for `a` after a call. */
  lemma ClaimGets(es: Accounts, address: string, now: int, a: string)
    requires Distinct(es)
    ensures Get(Claimed(es, address, now), a) ==
      if a != address then Get(Swept(es, now), a)
      else if Opens(es, address, now) || Has(Swept(es, now), a) then Some(Charged(es, address, now))
      else None
  {
    SweptKeeps(es, now, a);
    SetKeepsDistinct(Swept(es, now), address, Charged(es, address, now));
    hide Swept, Charged, Set, Opens;
  }

  // ---------------------------------------------------------------- the ledger, address by address

  datatype Call = Call(address: string, now: int)

  /** The map after a run of calls on an empty one. */
  function After(run: seq<Call>): Accounts {
    if run == [] then [] else Claimed(After(run[..|run| - 1]), run[|run| - 1].address, run[|run| - 1].now)
  }

  lemma {:induction false} RunKeeps(run: seq<Call>)
    ensures Kept(After(run))
  {
    if run == [] {
    } else {
      RunKeeps(run[..|run| - 1]);
      ClaimKeeps(After(run[..|run| - 1]), run[|run| - 1].address, run[|run| - 1].now);
    }
  }

  predicate ClockForward(run: seq<Call>) {
    forall i, j :: 0 <= i < j < |run| ==> run[i].now <= run[j].now
  }

  lemma {:induction false} RunKeepsTime(run: seq<Call>)
    requires run != [] && ClockForward(run)
    ensures Timed(After(run), run[|run| - 1].now)
  {
    var before, last := run[..|run| - 1], run[|run| - 1];
    RunKeeps(before);
    if before != [] {
      RunKeepsTime(before);
      assert before[|before| - 1] == run[|run| - 2];
      ClaimKeepsTime(After(before), before[|before| - 1].now, last.address, last.now);
    } else {
      ClaimKeepsTime([], last.now, last.address, last.now);
    }
    hide Claimed, Timed;
  }

  function Owed(es: Accounts, a: string): nat {
    var b := Get(es, a);
    if b.Some? then b.value.suppressed else 0
  }

  /**
   The debt of `a` that a call drops unreported: another caller's sweep drops all of it with the record; the
   caller's own record, pushed out by the cap while its window is open, takes along what this call adds to it.
   */
  function Dropped(es: Accounts, address: string, now: int, a: string): nat {
    var b := Get(es, a);
    if b.None? || Has(Swept(es, now), a) then 0
    else if a != address then b.value.suppressed
    else if !Opens(es, a, now) && b.value.written >= ROWS_PER_WINDOW then b.value.suppressed + 1
    else 0
  }

  function One(b: bool): nat { if b then 1 else 0 }

  /** One call, one address: a refusal and the debt before it are a row, a report, a debt after, or dropped. */
  lemma CallIsAccounted(es: Accounts, address: string, now: int, a: string)
    requires Kept(es)
    ensures var v := Answer(es, address, now);
      One(a == address) + Owed(es, a) == One(a == address && v.record) + (if a == address then v.coalesced else 0)
        + Owed(Claimed(es, address, now), a) + Dropped(es, address, now, a)
  {
    SweptKeeps(es, now, a);
    ClaimGets(es, address, now, a);
    hide Swept, Get, Has, Claimed;
  }

  datatype Book = Book(claims: nat, rows: nat, coalesced: nat, dropped: nat)

  /** What a run came to for one address. */
  function Posted(run: seq<Call>, a: string): Book {
    if run == [] then Book(0, 0, 0, 0)
    else
      var before, c := run[..|run| - 1], run[|run| - 1];
      var book, v := Posted(before, a), Answer(After(before), c.address, c.now);
      Book(book.claims + One(a == c.address),
           book.rows + One(a == c.address && v.record),
           book.coalesced + (if a == c.address then v.coalesced else 0),
           book.dropped + Dropped(After(before), c.address, c.now, a))
  }

  /** Over any run, with any clock: every refusal of an address is a row, reported on one, still owed, or dropped. */
  lemma {:induction false} RefusalsAreConserved(run: seq<Call>, a: string)
    ensures var book := Posted(run, a);
      book.claims == book.rows + book.coalesced + Owed(After(run), a) + book.dropped
  {
    if run == [] {
    } else {
      var before, c := run[..|run| - 1], run[|run| - 1];
      RefusalsAreConserved(before, a);
      RunKeeps(before);
      CallIsAccounted(After(before), c.address, c.now, a);
      hide Owed, Dropped, Claimed, Answer;
    }
  }

  function Together(run: seq<Call>, addresses: seq<string>): Book {
    if addresses == [] then Book(0, 0, 0, 0)
    else
      var b, rest := Posted(run, addresses[0]), Together(run, addresses[1..]);
      Book(b.claims + rest.claims, b.rows + rest.rows, b.coalesced + rest.coalesced, b.dropped + rest.dropped)
  }

  function OwedTogether(es: Accounts, addresses: seq<string>): nat {
    if addresses == [] then 0 else Owed(es, addresses[0]) + OwedTogether(es, addresses[1..])
  }

  /** All addresses at once: the calls themselves are the rows, the reports, the debts and what was dropped. */
  lemma {:induction false} AllRefusalsAreConserved(run: seq<Call>, addresses: seq<string>)
    requires forall i, j :: 0 <= i < j < |addresses| ==> addresses[i] != addresses[j]
    requires forall c :: c in run ==> c.address in addresses
    ensures var book := Together(run, addresses);
      |run| == book.rows + book.coalesced + OwedTogether(After(run), addresses) + book.dropped
  {
    ConservedTogether(run, addresses);
    EveryCallIsSomeones(run, addresses);
  }

  lemma {:induction false} ConservedTogether(run: seq<Call>, addresses: seq<string>)
    ensures var book := Together(run, addresses);
      book.claims == book.rows + book.coalesced + OwedTogether(After(run), addresses) + book.dropped
  {
    if addresses == [] {
    } else {
      ConservedTogether(run, addresses[1..]);
      RefusalsAreConserved(run, addresses[0]);
      hide Posted, Owed, After;
    }
  }

  lemma {:induction false} EveryCallIsSomeones(run: seq<Call>, addresses: seq<string>)
    requires forall i, j :: 0 <= i < j < |addresses| ==> addresses[i] != addresses[j]
    requires forall c :: c in run ==> c.address in addresses
    ensures Together(run, addresses).claims == |run|
  {
    if run == [] {
      NoClaims(addresses);
    } else {
      EveryCallIsSomeones(run[..|run| - 1], addresses);
      OneMoreClaim(run, addresses);
      assert run[|run| - 1] in run;
    }
  }

  lemma {:induction false} NoClaims(addresses: seq<string>)
    ensures Together([], addresses).claims == 0
  {
    if addresses == [] {
    } else {
      NoClaims(addresses[1..]);
    }
  }

  lemma {:induction false} OneMoreClaim(run: seq<Call>, addresses: seq<string>)
    requires run != [] && forall i, j :: 0 <= i < j < |addresses| ==> addresses[i] != addresses[j]
    ensures Together(run, addresses).claims
      == Together(run[..|run| - 1], addresses).claims + One(run[|run| - 1].address in addresses)
  {
    if addresses == [] {
    } else {
      OneMoreClaim(run, addresses[1..]);
      PostedClaim(run, addresses[0]);
      hide Posted;
      assert forall j :: 0 < j < |addresses| ==> addresses[j] == addresses[1..][j - 1];
    }
  }

  lemma PostedClaim(run: seq<Call>, a: string)
    requires run != []
    ensures Posted(run, a).claims == Posted(run[..|run| - 1], a).claims + One(a == run[|run| - 1].address)
  {
  }

  /** A caller whose own window has closed gets a row, and the row carries exactly what it owed. */
  lemma OwnDebtIsCarried(es: Accounts, address: string, now: int)
    requires Kept(es) && Get(es, address).Some? && Get(es, address).value.resetAt <= now
    ensures Answer(es, address, now) == Verdict(true, Owed(es, address))
    ensures Dropped(es, address, now, address) == 0
    ensures Get(Claimed(es, address, now), address) == Some(Account(1, 0, now + WINDOW_MS))
  {
    ClaimGets(es, address, now, address);
    hide Claimed, Swept, Has;
  }

  /** An open window that the cap takes: too many of those opened after it are open still. */
  predicate OutByCap(es: Accounts, now: int, a: string) {
    Has(Live(es, now), a) && IndexOf(Live(es, now), a) + (MAX_TRACKED_ADDRESSES - 1) < |Live(es, now)|
  }

  lemma SuffixKeeps(es: Accounts, n: nat, a: string)
    requires Distinct(es) && n <= |es|
    ensures Has(es[n..], a) <==> Has(es, a) && IndexOf(es, a) >= n
  {
    var i := IndexOf(es, a);
    if Has(es, a) && i >= n {
      SuffixHas(es, n, i);
    }
    forall j | 0 <= j < |es[n..]| && es[n..][j].key == a ensures IndexOf(es, a) == n + j {
      OnePlace(es, a, n + j);
    }
  }

  /** What survives a sweep, for a map of any size. */
  lemma SweptIff(es: Accounts, now: int, a: string)
    requires Distinct(es)
    ensures Has(Swept(es, now), a) <==> Has(Live(es, now), a) && !OutByCap(es, now, a)
  {
    LivePicks(es, now);
    var live := Live(es, now);
    hide Live, Has, IndexOf;
    SuffixKeeps(live, if |live| < MAX_TRACKED_ADDRESSES then 0 else |live| - (MAX_TRACKED_ADDRESSES - 1), a);
    FullLength(live);
  }

  lemma FullLength(es: Accounts)
    ensures es[0..] == es
  {
  }

  /**
   Exactly what a call drops, whatever the size of the map: the debt of every other window that has closed or that the
   cap takes; and of the caller's own, if the cap takes it while its budget is spent, the debt with this refusal added.
   */
  lemma DropsExactly(es: Accounts, address: string, now: int, a: string)
    requires Kept(es)
    ensures Dropped(es, address, now, a) ==
      if Get(es, a).None? then 0
      else if a != address then (if Get(es, a).value.resetAt <= now || OutByCap(es, now, a) then Owed(es, a) else 0)
      else if OutByCap(es, now, a) && Get(es, a).value.written >= ROWS_PER_WINDOW then Owed(es, a) + 1
      else 0
  {
    SweptKeeps(es, now, a);
    SweptIff(es, now, a);
    HasGets(Live(es, now), a);
    hide Live, Swept, Get, Has, IndexOf;
  }

  lemma HasGets(es: Accounts, a: string)
    ensures Has(es, a) <==> Get(es, a).Some?
  {
  }

  lemma OnlyAddress(b: Account, now: int)
    ensures var es := [Entry("a", b)];
      Get(es, "a") == Some(b) && Live(es, now) == Swept(es, now) == if b.resetAt <= now then [] else es
  {
    var es := [Entry("a", b)];
    assert es[0].key == "a";
    OnePlace(es, "a", 0);
    assert Live(es[1..], now) == [];
  }

  lemma RefusedAgain(run: seq<Call>, b: Account)
    requires After(run) == [Entry("a", b)] && b.resetAt == 60_000
    ensures After(run + [Call("a", 0)]) ==
      [Entry("a", if b.written >= 5 then b.(suppressed := b.suppressed + 1) else Account(b.written + 1, 0, 60_000))]
  {
    OnlyAddress(b, 0);
    var next := run + [Call("a", 0)];
    assert next[..|next| - 1] == run;
    var es := [Entry("a", b)];
    assert Has(es, "a") && IndexOf(es, "a") == 0;
    hide Live, Swept, Get;
  }

  /** Debt is lost to a neighbour: six refusals of one address, then one of another once its minute is over. */
  lemma NeighboursDropDebt() returns (run: seq<Call>)
    ensures run == seq(6, _ => Call("a", 0)) + [Call("b", 60_000)]
    ensures After(run[..6]) == [Entry("a", Account(5, 1, 60_000))]
    ensures Dropped(After(run[..6]), "b", 60_000, "a") == 1
  {
    var a := Call("a", 0);
    var one := [a];
    assert After(one[..0]) == [] && Live([], 0) == [] && Get<string, Account>([], "a") == None;
    assert After(one) == [Entry("a", Account(1, 0, 60_000))];
    hide After, Live, Swept, Dropped;
    RefusedAgain(one, Account(1, 0, 60_000));
    RefusedAgain(one + [a], Account(2, 0, 60_000));
    RefusedAgain(one + [a] + [a], Account(3, 0, 60_000));
    RefusedAgain(one + [a] + [a] + [a], Account(4, 0, 60_000));
    RefusedAgain(one + [a] + [a] + [a] + [a], Account(5, 0, 60_000));
    DebtGoesWithTheWindow();
    hide *;
    run := seq(6, _ => Call("a", 0)) + [Call("b", 60_000)];
    assert run[..6] == one + [a] + [a] + [a] + [a] + [a];
  }

  lemma DebtGoesWithTheWindow()
    ensures Dropped([Entry("a", Account(5, 1, 60_000))], "b", 60_000, "a") == 1
  {
    OnlyAddress(Account(5, 1, 60_000), 60_000);
    hide Live, Swept, Get;
  }

  // ---------------------------------------------------------------- how many rows an address can cost

  predicate Claims(run: seq<Call>, a: string) { exists i :: 0 <= i < |run| && run[i].address == a }

  /** When an address first called, in a run in which it did. */
  function FirstClaim(run: seq<Call>, a: string): int
    requires Claims(run, a)
  {
    var before := run[..|run| - 1];
    if Claims(before, a) then FirstClaim(before, a) else run[|run| - 1].now
  }

  /** Whether a call's sweep takes an address's record, though its window is open, to make room. */
  predicate LosesWindow(es: Accounts, now: int, a: string) {
    Has(Live(es, now), a) && !Has(Swept(es, now), a)
  }

  function CapLosses(run: seq<Call>, a: string): nat {
    if run == [] then 0
    else CapLosses(run[..|run| - 1], a) + One(LosesWindow(After(run[..|run| - 1]), run[|run| - 1].now, a))
  }

  /** How many windows an address has opened. */
  function Windows(run: seq<Call>, a: string): nat {
    if run == [] then 0
    else
      var before, c := run[..|run| - 1], run[|run| - 1];
      Windows(before, a) + One(c.address == a && Opens(After(before), a, c.now))
  }

  /** Windows follow one another a minute apart, but for those the cap cut short, and each wrote at most five rows. */
  predicate Paced(b: Option<Account>, now: int, first: int, windows: nat, losses: nat, rows: nat) {
    if b.Some? then
      && windows >= 1 && b.value.resetAt <= now + WINDOW_MS && Honest(b.value)
      && b.value.resetAt >= first + WINDOW_MS * (windows - losses)
      && rows <= ROWS_PER_WINDOW * (windows - 1) + b.value.written
    else now >= first + WINDOW_MS * (windows - losses) && rows <= ROWS_PER_WINDOW * windows
  }

  lemma OthersCallIsPaced(b: Option<Account>, swept: Option<Account>, last: int, now: int, first: int,
                          windows: nat, losses: nat, rows: nat)
    requires Paced(b, last, first, windows, losses, rows) && last <= now
    requires swept.Some? ==> swept == b
    ensures Paced(swept, now, first, windows, losses + One(b.Some? && b.value.resetAt > now && swept.None?), rows)
  {
  }

  lemma OwnCallIsPaced(b: Option<Account>, kept: bool, after: Option<Account>, last: int, now: int, first: int,
                       windows: nat, losses: nat, rows: nat)
    requires Paced(b, last, first, windows, losses, rows) && last <= now
    requires var opens := b.None? || b.value.resetAt <= now;
      var full := b.Some? && b.value.written >= ROWS_PER_WINDOW;
      after == if opens then Some(Account(1, 0, now + WINDOW_MS))
        else if !kept then None
        else if full then Some(b.value.(suppressed := b.value.suppressed + 1))
        else Some(Account(b.value.written + 1, 0, b.value.resetAt))
    ensures var opens := b.None? || b.value.resetAt <= now;
      var row := opens || b.value.written < ROWS_PER_WINDOW;
      Paced(after, now, first, windows + One(opens), losses + One(!opens && !kept), rows + One(row))
  {
  }

  lemma CallIsPaced(es: Accounts, a: string, last: int, first: int, windows: nat, losses: nat, rows: nat, c: Call)
    requires Kept(es) && last <= c.now && Paced(Get(es, a), last, first, windows, losses, rows)
    ensures Paced(Get(Claimed(es, c.address, c.now), a), c.now, first,
                  windows + One(c.address == a && Opens(es, a, c.now)),
                  losses + One(LosesWindow(es, c.now, a)),
                  rows + One(a == c.address && Answer(es, c.address, c.now).record))
  {
    SweptGets(es, c.now, a);
    ClaimGets(es, c.address, c.now, a);
    if c.address == a {
      hide Swept, Get, Has, Claimed, Live, Paced, LosesWindow, Kept;
      OwnCallIsPaced(Get(es, a), Has(Swept(es, c.now), a), Get(Claimed(es, a, c.now), a), last, c.now, first,
                     windows, losses, rows);
    } else {
      hide *;
      hide Swept, Get, Has, Claimed, Live, Paced, LosesWindow, Kept;
      OthersCallIsPaced(Get(es, a), Get(Swept(es, c.now), a), last, c.now, first, windows, losses, rows);
    }
  }

  lemma SweptGets(es: Accounts, now: int, a: string)
    requires Kept(es)
    ensures Get(Swept(es, now), a).Some? ==> Get(Swept(es, now), a) == Get(es, a)
    ensures Get(Swept(es, now), a).Some? <==> Has(Swept(es, now), a)
    ensures LosesWindow(es, now, a) <==>
      Get(es, a).Some? && Get(es, a).value.resetAt > now && Get(Swept(es, now), a).None?
  {
    SweptKeeps(es, now, a);
    HasGets(Live(es, now), a);
    HasGets(Swept(es, now), a);
    hide Swept, Get, Has, Live;
  }

  /** An address that has not called has no record and no rows. */
  lemma {:induction false} SilentSoFar(run: seq<Call>, a: string)
    requires !Claims(run, a)
    ensures Get(After(run), a) == None && Windows(run, a) == 0 && CapLosses(run, a) == 0 && Posted(run, a).rows == 0
  {
    if run == [] {
    } else {
      var before, c := run[..|run| - 1], run[|run| - 1];
      assert c.address != a;
      SilentSoFar(before, a);
      RunKeeps(before);
      SweptKeeps(After(before), c.now, a);
      HasGets(Live(After(before), c.now), a);
      ClaimGets(After(before), c.address, c.now, a);
      hide Swept, Get, Has, Claimed, Live, Kept, Answer;
    }
  }

  lemma {:induction false} RunIsPaced(run: seq<Call>, a: string)
    requires ClockForward(run) && Claims(run, a)
    ensures FirstClaim(run, a) <= run[|run| - 1].now
    ensures Paced(Get(After(run), a), run[|run| - 1].now, FirstClaim(run, a), Windows(run, a), CapLosses(run, a), Posted(run, a).rows)
  {
    var before, c := run[..|run| - 1], run[|run| - 1];
    RunKeeps(before);
    assert ClockForward(before);
    assert Claims(before, a) ==> before[|before| - 1].now <= c.now;
    assert !Claims(before, a) ==> c.address == a;
    hide Paced, Claimed, Kept, Opens, LosesWindow, Answer, Dropped, Claims, Get, ClockForward;
    if Claims(before, a) {
      RunIsPaced(before, a);
      NextIsPaced(run, a, before[|before| - 1].now, FirstClaim(before, a));
    } else {
      SilentSoFar(before, a);
      assert Paced(None, c.now, c.now, 0, 0, 0) by { NothingYet(c.now); }
      NextIsPaced(run, a, c.now, c.now);
    }
  }

  lemma NothingYet(now: int)
    ensures Paced(None, now, now, 0, 0, 0)
  {
  }

  lemma NextIsPaced(run: seq<Call>, a: string, last: int, first: int)
    requires run != [] && Kept(After(run[..|run| - 1])) && last <= run[|run| - 1].now
    requires var before := run[..|run| - 1];
      Paced(Get(After(before), a), last, first, Windows(before, a), CapLosses(before, a), Posted(before, a).rows)
    ensures Paced(Get(After(run), a), run[|run| - 1].now, first, Windows(run, a), CapLosses(run, a), Posted(run, a).rows)
  {
    hide Paced, Claimed, Kept, Opens, LosesWindow, Answer, Dropped, Get;
    var before := run[..|run| - 1];
    CallIsPaced(After(before), a, last, first, Windows(before, a), CapLosses(before, a), Posted(before, a).rows,
                run[|run| - 1]);
  }

  lemma WholeMinutes(k: int, t: int)
    requires WINDOW_MS * k <= t
    ensures k <= t / WINDOW_MS
  {
  }

  /**
   The bound the module exists for: since its first claim, however others interleave, an address was recorded at most
   five times for each whole minute, five times more, and five more for each time the cap took its open window.
   */
  lemma RowsAreBounded(run: seq<Call>, a: string)
    requires ClockForward(run) && Claims(run, a)
    ensures var since := run[|run| - 1].now - FirstClaim(run, a);
      Posted(run, a).rows <= ROWS_PER_WINDOW * (since / WINDOW_MS + 1 + CapLosses(run, a))
  {
    RunIsPaced(run, a);
    hide After, Posted, Windows, CapLosses, Get, FirstClaim;
    var since := run[|run| - 1].now - FirstClaim(run, a);
    var ahead := Windows(run, a) - CapLosses(run, a);
    WholeMinutes(if Get(After(run), a).Some? then ahead - 1 else ahead, since);
  }

  /** No call of a run let the cap take the address's open window. */
  predicate NeverTaken(run: seq<Call>, a: string) {
    forall i :: 0 <= i < |run| ==> !LosesWindow(After(run[..i]), run[i].now, a)
  }

  lemma {:induction false} NoLosses(run: seq<Call>, a: string)
    requires NeverTaken(run, a)
    ensures CapLosses(run, a) == 0
  {
    hide LosesWindow, After, NeverTaken;
    if run == [] {
    } else {
      NeverTakenBefore(run, a);
      NoLosses(run[..|run| - 1], a);
    }
  }

  /** Without the cap's help: five rows for each whole minute, and five more. */
  lemma RowsAreBoundedUncapped(run: seq<Call>, a: string)
    requires ClockForward(run) && Claims(run, a) && NeverTaken(run, a)
    ensures var since := run[|run| - 1].now - FirstClaim(run, a);
      Posted(run, a).rows <= ROWS_PER_WINDOW * (since / WINDOW_MS + 1)
  {
    hide NeverTaken, Posted, CapLosses, FirstClaim;
    RowsAreBounded(run, a);
    NoLosses(run, a);
  }

  /** The cap takes nobody's window in a run during which fewer than ten thousand are ever open at once. */
  lemma RoomForAll(run: seq<Call>, a: string)
    requires forall i :: 0 <= i < |run| ==> |Live(After(run[..i]), run[i].now)| < 10_000
    ensures NeverTaken(run, a)
  {
    hide After, Live, Has;
  }

  // ---------------------------------------------------------------- which refusals are rows

  /** A fixed window by the calls alone: when an address's current minute began, and its claims in it so far. */
  datatype Mark = Mark(start: int, claims: nat)

  function CurrentWindow(run: seq<Call>, a: string): Option<Mark> {
    if run == [] then None
    else
      var w, c := CurrentWindow(run[..|run| - 1], a), run[|run| - 1];
      if c.address != a then w
      else if w.None? || w.value.start + 60_000 <= c.now then Some(Mark(c.now, 1))
      else Some(Mark(w.value.start, w.value.claims + 1))
  }

  /** What is held of an address is its current window: five claims written, the rest owed. */
  predicate Agrees(b: Option<Account>, w: Option<Mark>, now: int) {
    match b
    case None => w.None? || w.value.start + 60_000 <= now
    case Some(b) =>
      && w.Some? && b.resetAt == w.value.start + 60_000 && w.value.claims >= 1
      && b.written == (if w.value.claims < 5 then w.value.claims else 5) && b.suppressed == w.value.claims - b.written
  }

  lemma CallAgrees(es: Accounts, a: string, last: int, w: Option<Mark>, c: Call)
    requires Kept(es) && Agrees(Get(es, a), w, last) && last <= c.now && !LosesWindow(es, c.now, a)
    ensures var next := if c.address != a then w
        else if w.None? || w.value.start + 60_000 <= c.now then Some(Mark(c.now, 1))
        else Some(Mark(w.value.start, w.value.claims + 1));
      && Agrees(Get(Claimed(es, c.address, c.now), a), next, c.now)
      && (c.address == a ==> (Answer(es, a, c.now).record <==> next.value.claims <= 5))
  {
    SweptGets(es, c.now, a);
    ClaimGets(es, c.address, c.now, a);
    hide Swept, Get, Has, Claimed, Live, Kept, LosesWindow;
  }

  predicate AgreesAfter(run: seq<Call>, a: string) {
    Agrees(Get(After(run), a), CurrentWindow(run, a), if run == [] then 0 else run[|run| - 1].now)
  }

  /** Whether the last call of a run, if it is this address's, is a row exactly when among the first five. */
  predicate AnsweredByWindow(run: seq<Call>, a: string) {
    run != [] && run[|run| - 1].address == a ==>
      CurrentWindow(run, a).Some?
      && (Answer(After(run[..|run| - 1]), a, run[|run| - 1].now).record <==> CurrentWindow(run, a).value.claims <= 5)
  }

  lemma {:induction false} RunAgrees(run: seq<Call>, a: string)
    requires ClockForward(run) && NeverTaken(run, a)
    ensures AgreesAfter(run, a) && AnsweredByWindow(run, a)
  {
    hide NeverTaken;
    if run == [] {
      NothingHeld(a);
    } else {
      var before, c := run[..|run| - 1], run[|run| - 1];
      NeverTakenBefore(run, a);
      RunAgrees(before, a);
      RunKeeps(before);
      hide After, CurrentWindow, Kept, Agrees, LosesWindow, Answer, Get, AnsweredByWindow;
      if before == [] {
        NothingHeld(a);
        AgreesAnyTime(Get(After(before), a), CurrentWindow(before, a), 0, c.now);
        NextAgrees(run, a, c.now);
      } else {
        assert before[|before| - 1] == run[|run| - 2];
        NextAgrees(run, a, before[|before| - 1].now);
      }
    }
  }

  lemma NothingHeld(a: string)
    ensures AgreesAfter([], a) && AnsweredByWindow([], a) && CurrentWindow([], a) == None
  {
  }

  lemma NextAgrees(run: seq<Call>, a: string, last: int)
    requires run != [] && last <= run[|run| - 1].now && Kept(After(run[..|run| - 1]))
    requires Agrees(Get(After(run[..|run| - 1]), a), CurrentWindow(run[..|run| - 1], a), last)
    requires !LosesWindow(After(run[..|run| - 1]), run[|run| - 1].now, a)
    ensures AgreesAfter(run, a) && AnsweredByWindow(run, a)
  {
    var before, c := run[..|run| - 1], run[|run| - 1];
    hide Kept, Agrees, LosesWindow, Answer, Claimed, Get;
    CallAgrees(After(before), a, last, CurrentWindow(before, a), c);
  }

  lemma AgreesAnyTime(b: Option<Account>, w: Option<Mark>, last: int, now: int)
    requires Agrees(b, w, last) && w.None?
    ensures Agrees(b, w, now)
  {
  }

  lemma NeverTakenBefore(run: seq<Call>, a: string)
    requires NeverTaken(run, a) && run != []
    ensures NeverTaken(run[..|run| - 1], a) && !LosesWindow(After(run[..|run| - 1]), run[|run| - 1].now, a)
  {
    hide LosesWindow, After;
    var before := run[..|run| - 1];
    assert !LosesWindow(After(run[..|run| - 1]), run[|run| - 1].now, a);
    forall i | 0 <= i < |before| ensures !LosesWindow(After(before[..i]), before[i].now, a) {
      assert before[..i] == run[..i];
    }
  }

  /**
   The budget is a fixed window, however others interleave: while the cap takes no window of an address, its refusal is
   a row exactly when it is among the first five of the minute that its earlier calls began; and a row carries what the
   record held for it owes.
   */
  lemma FirstFiveAreRows(run: seq<Call>, a: string)
    requires ClockForward(run) && NeverTaken(run, a) && run != [] && run[|run| - 1].address == a
    ensures var v := Answer(After(run[..|run| - 1]), a, run[|run| - 1].now);
      && (v.record <==> CurrentWindow(run, a).value.claims <= 5)
      && v.coalesced == if v.record then Owed(After(run[..|run| - 1]), a) else 0
  {
    RunAgrees(run, a);
    hide After, CurrentWindow, NeverTaken, AgreesAfter;
  }

  // ---------------------------------------------------------------- the map and its records

  class Budget {
    var written: nat
    var suppressed: nat
    var resetAt: int

    constructor (resetAt: int)
      ensures written == 1 && suppressed == 0 && this.resetAt == resetAt
    {
      this.written, this.suppressed, this.resetAt := 1, 0, resetAt;
    }

    function Read(): Account
      reads this
    {
      Account(written, suppressed, resetAt)
    }
  }

  type Budgets = seq<Entry<string, Budget>>

  function ReadAll(es: Budgets): (r: Accounts)
    reads set e | e in es :: e.value
    ensures |r| == |es|
  {
    seq(|es|, i requires 0 <= i < |es| reads set e | e in es :: e.value => Entry(es[i].key, es[i].value.Read()))
  }

  /** Keys apart, and records not shared. */
  predicate Separate(es: Budgets) {
    Distinct(es) && forall i, j :: 0 <= i < j < |es| ==> es[i].value != es[j].value
  }

  lemma SameKeysSameIndex<V, W>(es: seq<Entry<string, V>>, fs: seq<Entry<string, W>>, k: string)
    requires |es| == |fs| && forall i :: 0 <= i < |es| ==> es[i].key == fs[i].key
    ensures IndexOf(es, k) == IndexOf(fs, k)
  {
    assert Has(es, k) ==> fs[IndexOf(es, k)].key == k;
    assert Has(fs, k) ==> es[IndexOf(fs, k)].key == k;
  }

  /** Deletes every window that has closed, walking the map as it goes. */
  method DeleteClosed(budgets: Budgets, now: int) returns (left: Budgets)
    requires Separate(budgets)
    ensures Separate(left) && ReadAll(left) == Live(ReadAll(budgets), now) && forall e :: e in left ==> e in budgets
  {
    NoneLive(now);
    hide Live, Separate;
    left := budgets;
    var i := 0;
    while i < |left|
      invariant i <= |left| && Separate(left) && forall e :: e in left ==> e in budgets
      invariant Live(ReadAll(budgets), now) == ReadAll(left)[..i] + Live(ReadAll(left)[i..], now)
      decreases |left| - i
    {
      LiveHead(ReadAll(left), i, now);
      if left[i].value.resetAt <= now {
        DeleteOne(left, i);
        left := Delete(left, left[i].key);
      } else {
        i := i + 1;
      }
    }
    assert ReadAll(left)[..i] == ReadAll(left) && ReadAll(left)[i..] == [];
  }

  lemma NoneLive(now: int)
    ensures Live([], now) == []
  {
  }

  lemma ReadRecord(es: Budgets, address: string)
    ensures Has(ReadAll(es), address) <==> Has(es, address)
    ensures Get(ReadAll(es), address) == (if Has(es, address) then Some(Get(es, address).value.Read()) else None)
    ensures Has(es, address) <==> Get(es, address).Some?
    ensures Has(es, address) ==> Entry(address, Get(es, address).value) in es
  {
    SameKeysSameIndex(es, ReadAll(es), address);
    var all := ReadAll(es);
    assert all[..] == all;
    assert Has(all, address) == (IndexOf(all, address) < |all|);
  }

  lemma LiveHead(all: Accounts, i: nat, now: int)
    requires i < |all|
    ensures all[..i] + Live(all[i..], now) ==
      if all[i].value.resetAt <= now then all[..i] + Live(all[i + 1..], now) else all[..i + 1] + Live(all[i + 1..], now)
  {
    assert all[i..][0] == all[i] && all[i..][1..] == all[i + 1..];
    assert all[..i + 1] == all[..i] + [all[i]];
  }

  lemma DeleteOne(es: Budgets, i: nat)
    requires Separate(es) && i < |es|
    ensures var r := Delete(es, es[i].key);
      && Separate(r) && |r| == |es| - 1 && (forall e :: e in r ==> e in es)
      && ReadAll(r)[..i] == ReadAll(es)[..i] && ReadAll(r)[i..] == ReadAll(es)[i + 1..]
  {
    OnePlace(es, es[i].key, i);
    Without(es, i);
    ReadAllWithout(es, i);
    hide Separate, ReadAll, IndexOf;
    assert Delete(es, es[i].key) == es[..i] + es[i + 1..];
  }

  lemma Without(es: Budgets, i: nat)
    requires Separate(es) && i < |es|
    ensures var r := es[..i] + es[i + 1..];
      Separate(r) && |r| == |es| - 1 && forall e :: e in r ==> e in es
  {
    var r := es[..i] + es[i + 1..];
    assert forall j :: 0 <= j < |r| ==> r[j] == es[if j < i then j else j + 1];
  }

  lemma ReadAllWithout(es: Budgets, i: nat)
    requires i < |es|
    ensures var r := es[..i] + es[i + 1..];
      ReadAll(r)[..i] == ReadAll(es)[..i] && ReadAll(r)[i..] == ReadAll(es)[i + 1..]
  {
    var r := es[..i] + es[i + 1..];
    assert forall j :: 0 <= j < |r| ==> r[j] == es[if j < i then j else j + 1];
  }

  /** Deletes from the front until there is room. */
  method DeleteOldest(budgets: Budgets) returns (left: Budgets)
    requires Separate(budgets)
    ensures Separate(left) && ReadAll(left) == Capped(ReadAll(budgets)) && forall e :: e in left ==> e in budgets
  {
    left := budgets;
    ghost var n: nat := 0;
    while |left| >= MAX_TRACKED_ADDRESSES
      invariant n <= |budgets| && left == budgets[n..] && (n > 0 ==> |left| >= MAX_TRACKED_ADDRESSES - 1)
      decreases |left|
    {
      left := left[1..];
      n := n + 1;
    }
    assert ReadAll(left) == ReadAll(budgets)[n..];
  }

  /** The record held since before the sweep is the one the map still has, if it has one. */
  lemma SweptRecord(before: Budgets, after: Budgets, address: string)
    requires Separate(before) && forall e :: e in after ==> e in before
    ensures Get(before, address).Some? ==>
      if Has(after, address) then Get(after, address) == Get(before, address)
      else forall e :: e in after ==> e.value != Get(before, address).value
    ensures Has(after, address) ==> Has(before, address)
  {
    assert forall e :: e in before ==> exists i :: 0 <= i < |before| && before[i] == e;
    if Has(after, address) {
      var e := after[IndexOf(after, address)];
      assert e in before;
      var i :| 0 <= i < |before| && before[i] == e;
      OnePlace(before, address, i);
    } else if Has(before, address) {
      assert forall e :: e in after ==> Has(after, e.key);
    }
  }

  lemma ReadAllWith(es: Budgets, i: nat, e: Entry<string, Budget>)
    requires i <= |es|
    ensures ReadAll(es + [e]) == ReadAll(es) + [Entry(e.key, e.value.Read())]
    ensures i < |es| ==> ReadAll(es[i := e]) == ReadAll(es)[i := Entry(e.key, e.value.Read())]
  {
  }

  lemma SeparateWith(es: Budgets, i: nat, e: Entry<string, Budget>)
    requires Separate(es) && i <= |es| && (forall x :: x in es ==> x.value != e.value)
    ensures i == |es| && Distinct(es + [e]) ==> Separate(es + [e])
    ensures i < |es| && Distinct(es[i := e]) ==> Separate(es[i := e])
  {
    assert forall j :: 0 <= j < |es| ==> es[j] in es;
    hide Distinct;
  }

  lemma RecordSet(es: Budgets, address: string, record: Budget)
    requires Separate(es) && forall e :: e in es ==> e.value != record
    ensures Separate(Set(es, address, record)) && forall e :: e in Set(es, address, record) ==> e in es || e.value == record
    ensures ReadAll(Set(es, address, record)) == Set(ReadAll(es), address, record.Read())
  {
    SameKeysSameIndex(es, ReadAll(es), address);
    SetKeepsDistinct(es, address, record);
    var i := IndexOf(es, address);
    hide IndexOf, Get, Has, Distinct, ReadAll, Separate;
    ReadAllWith(es, i, Entry(address, record));
    SeparateWith(es, i, Entry(address, record));
  }

  /** One record's fields changed: the map's contents change at its address, if it is in the map at all. */
  lemma RecordCharged(es: Budgets, was: Accounts, address: string, record: Budget)
    requires Separate(es) && |was| == |es|
    requires forall i :: 0 <= i < |es| ==>
      was[i].key == es[i].key && (es[i].value != record ==> was[i].value == es[i].value.Read())
    requires if Has(es, address) then Get(es, address) == Some(record) else forall e :: e in es ==> e.value != record
    ensures ReadAll(es) == if Has(es, address) then Set(was, address, record.Read()) else was
  {
    SameKeysSameIndex(es, was, address);
    assert forall i :: 0 <= i < |es| ==> es[i] in es;
  }

  class KeylessLog {
    var budgets: Budgets

    ghost predicate Valid()
      reads this
    {
      Separate(budgets)
    }

    function Contents(): Accounts
      reads this, set e | e in budgets :: e.value
    {
      ReadAll(budgets)
    }

    constructor ()
      ensures Valid() && Contents() == []
    {
      budgets := [];
    }

    method EvictExpired(now: int)
      requires Valid()
      modifies this
      ensures Valid() && Contents() == Swept(old(Contents()), now) && forall e :: e in budgets ==> e in old(budgets)
    {
      ghost var was := Contents();
      var open := DeleteClosed(budgets, now);
      assert ReadAll(open) == Live(was, now);
      var left := DeleteOldest(open);
      assert ReadAll(left) == Swept(was, now);
      hide Live, Swept, Separate, Distinct;
      budgets := left;
    }

    /**
     Decides whether a keyless refusal gets a row of its own. The caller's record is read before the sweep, which may
     take it out of the map; it is still charged.
     */
    method ClaimKeylessLogRow(address: string, now: int) returns (verdict: Verdict)
      requires Valid()
      modifies this, set e | e in budgets :: e.value
      ensures Valid()
      ensures verdict == Answer(old(Contents()), address, now)
      ensures var b := Get(old(Contents()), address);
        && (verdict.record <==> b.None? || b.value.resetAt <= now || b.value.written < ROWS_PER_WINDOW)
        && verdict.coalesced == if verdict.record && b.Some? then b.value.suppressed else 0
      ensures Contents() == Claimed(old(Contents()), address, now)
      ensures forall e :: e in budgets ==> e in old(budgets) || fresh(e.value)
    {
      hide Live, Swept, Separate, Has, Get, Set, ReadAll;
      ghost var was, before := Contents(), budgets;
      ReadRecord(budgets, address);
      var existing := Get(budgets, address);
      assert Get(was, address) == if existing.Some? then Some(existing.value.Read()) else None;
      EvictExpired(now);
      SweptRecord(before, budgets, address);
      ReadRecord(budgets, address);
      if existing.None? || existing.value.resetAt <= now {
        var coalesced := if existing.Some? then existing.value.suppressed else 0;
        Open(address, now);
        return Verdict(true, coalesced);
      }
      if existing.value.written >= ROWS_PER_WINDOW {
        Charge(address, existing.value, existing.value.written, existing.value.suppressed + 1);
        return Verdict(false, 0);
      }
      var coalesced := existing.value.suppressed;
      Charge(address, existing.value, existing.value.written + 1, 0);
      verdict := Verdict(true, coalesced);
    }

    /** A fresh window. */
    method Open(address: string, now: int)
      requires Valid()
      modifies this
      ensures Valid() && Contents() == Set(old(Contents()), address, Account(1, 0, now + WINDOW_MS))
      ensures forall e :: e in budgets ==> e in old(budgets) || fresh(e.value)
    {
      hide Set, Separate, ReadAll;
      var opening := new Budget(now + WINDOW_MS);
      RecordSet(budgets, address, opening);
      budgets := Set(budgets, address, opening);
    }

    /** A record the caller holds, which the sweep may or may not have left in the map. */
    method Charge(address: string, existing: Budget, written: nat, suppressed: nat)
      requires Valid()
      requires if Has(budgets, address) then Get(budgets, address) == Some(existing) else forall e :: e in budgets ==> e.value != existing
      modifies existing
      ensures Valid() && budgets == old(budgets)
      ensures Contents() == if Has(budgets, address)
        then Set(old(Contents()), address, Account(written, suppressed, old(existing.resetAt))) else old(Contents())
    {
      ghost var was := Contents();
      hide Set, Separate, Get, Has;
      existing.written, existing.suppressed := written, suppressed;
      RecordCharged(budgets, was, address, existing);
    }
  }
}
