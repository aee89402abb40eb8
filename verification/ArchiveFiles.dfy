/**
 Which files count as finished archives (`read.ts`), and which of those an age window removes (`prune.ts`).
 A file name is a string and `ARCHIVE_NAME` is matched character by character.
 */
module ArchiveFiles {
  import opened Calendar
  import opened Period
  import R = Rotation

  function SourceName(source: R.Source): string { if source == R.Logs then "logs" else "audit" }

  /** The name a rotation gives a finished period, and what its provisional and plain names end in. */
  function PlainName(source: R.Source, index: int): string { SourceName(source) + "-" + Key(index) + ".db" }

  function FinishedName(source: R.Source, index: int): string { PlainName(source, index) + ".gz" }

  function ProvisionalName(source: R.Source, index: int, uuid: string): string {
    PlainName(source, index) + "." + uuid + ".partial"
  }

  /** `\d{4}-\d{2}` */
  predicate PeriodShape(k: string) {
    |k| == 7 && AllDigits(k[..4]) && k[4] == '-' && AllDigits(k[5..])
  }

  /** `^(logs|audit)-(\d{4}-\d{2})\.db\.gz$` */
  predicate MatchesAfter(name: string, source: string) {
    var n := |source|;
    && |name| == n + 14 && name[..n] == source && name[n] == '-'
    && PeriodShape(name[n + 1..n + 8]) && name[n + 8..] == ".db.gz"
  }

  datatype Match = Archive(source: R.Source, periodKey: string) | NoArchive

  function Exec(name: string): Match {
    if MatchesAfter(name, "logs") then Archive(R.Logs, name[5..12])
    else if MatchesAfter(name, "audit") then Archive(R.Audit, name[6..13])
    else NoArchive
  }

  // ---------------------------------------------------------------- what a rotation writes, and what is listed

  predicate FourDigitYear(index: int) { 1000 <= YearOf(index) <= 9999 }

  /** A key has the listed shape exactly when its year is four digits. */
  lemma KeyShape(index: int)
    ensures PeriodShape(Key(index)) <==> FourDigitYear(index)
    ensures PeriodShape(Key(index)) ==>
      ValueOf(Key(index)[..4]) == YearOf(index) && ValueOf(Key(index)[5..]) == MonthInYear(index) + 1
  {
    var k, y, m := Key(index), Decimal(YearOf(index)), MonthInYear(index) + 1;
    assert k == y + ['-', Digit(m / 10), Digit(m % 10)];
    SignShows(YearOf(index));
    if YearOf(index) >= 0 {
      DigitCount(YearOf(index));
      DigitsRead(YearOf(index));
    }
    hide Digits, Key;
    if |y| == 4 {
      assert k[..4] == y && k[5..] == [Digit(m / 10), Digit(m % 10)];
      TwoDigits(k[5..]);
    }
    hide Decimal, ValueOf;
    if |k| == 7 {
      assert k[..4] == y && k[4] == '-';
    }
  }

  lemma TwoDigits(s: string)
    requires AllDigits(s) && |s| == 2
    ensures ValueOf(s) == 10 * (s[0] as int - '0' as int) + (s[1] as int - '0' as int) < 100
  {
    assert ValueOf(s[..1]) == 10 * ValueOf(s[..1][..0]) + (s[0] as int - '0' as int);
  }

  lemma FourDigits(s: string)
    requires AllDigits(s) && |s| == 4
    ensures ValueOf(s) < 10_000
  {
    TwoDigits(s[..2]);
    assert s[..3][..2] == s[..2];
    assert ValueOf(s[..3]) == 10 * ValueOf(s[..2]) + (s[2] as int - '0' as int);
  }

  lemma DigitCount(n: nat)
    ensures |Digits(n)| == 4 <==> 1000 <= n <= 9999
  {
    if n >= 10 {
      DigitCountIs(n / 10);
    }
  }

  lemma DigitCountIs(n: nat)
    ensures |Digits(n)| == 1 <==> n < 10
    ensures |Digits(n)| == 2 <==> 10 <= n < 100
    ensures |Digits(n)| == 3 <==> 100 <= n < 1000
  {
    if n < 10 {
    } else {
      DigitCountIs(n / 10);
    }
  }

  /** A finished period is listed, as the period it is, exactly when its year has four digits. */
  lemma FinishedIsListed(source: R.Source, index: int)
    ensures Exec(FinishedName(source, index)) ==
      if FourDigitYear(index) then Archive(source, Key(index)) else NoArchive
  {
    KeyShape(index);
    hide Key, PeriodShape, ValueOf, FourDigitYear;
    NameMatches(source, Key(index), FinishedName(source, index));
  }

  /** Which names are finished archives, and whose: the source, a dash, a period of the shape dddd-dd, and `.db.gz`. */
  lemma ExecIs(name: string, source: R.Source, k: string)
    ensures Exec(name) == Archive(source, k) <==>
      && name == (if source == R.Logs then "logs" else "audit") + "-" + k + ".db.gz"
      && |k| == 7 && k[4] == '-'
      && forall i :: 0 <= i < 7 && i != 4 ==> '0' <= k[i] <= '9'
  {
    ShapeIs(k);
    hide PeriodShape;
    if name == SourceName(source) + "-" + k + ".db.gz" {
      NameMatches(source, k, name);
    }
    if Exec(name) == Archive(source, k) {
      var n := |SourceName(source)|;
      assert name == name[..n] + [name[n]] + name[n + 1..n + 8] + name[n + 8..];
    }
  }

  lemma ShapeIs(k: string)
    ensures PeriodShape(k) <==> |k| == 7 && k[4] == '-' && forall i :: 0 <= i < 7 && i != 4 ==> '0' <= k[i] <= '9'
  {
    if |k| == 7 {
      var a, b := k[..4], k[5..];
      assert forall i :: 0 <= i < 4 ==> a[i] == k[i];
      assert forall i :: 5 <= i < 7 ==> b[i - 5] == k[i];
      if AllDigits(a) && AllDigits(b) {
        forall i | 0 <= i < 7 && i != 4 ensures '0' <= k[i] <= '9' {
          if i < 4 { assert a[i] == k[i]; } else { assert b[i - 5] == k[i]; }
        }
      }
    }
  }

  lemma NameMatches(source: R.Source, k: string, name: string)
    requires name == SourceName(source) + "-" + k + ".db.gz"
    ensures Exec(name) == if PeriodShape(k) then Archive(source, k) else NoArchive
  {
    var n := |SourceName(source)|;
    assert name[..n] == SourceName(source) && name[n] == '-' && name[n + 1..n + 1 + |k|] == k;
    assert name[0] == SourceName(source)[0];
    if |k| == 7 {
      assert name[n + 8..] == ".db.gz";
    }
    if |name| >= 5 {
      assert name[..4] == "logs" ==> name[..4][0] == 'l';
      assert name[..5] == "audit" ==> name[..5][0] == 'a';
    }
    hide AllDigits;
  }

  /** What a rotation leaves behind halfway is never listed: not an attempt, not an uncompressed period. */
  lemma UnfinishedIsNeverListed(source: R.Source, index: int, uuid: string)
    ensures Exec(PlainName(source, index)) == NoArchive
    ensures Exec(ProvisionalName(source, index, uuid)) == NoArchive
  {
    var plain, part := PlainName(source, index), ProvisionalName(source, index, uuid);
    hide Key;
    assert plain[|plain| - 1] == 'b';
    assert part[|part| - 1] == 'l';
    LastIsZ(plain);
    LastIsZ(part);
  }

  lemma LastIsZ(name: string)
    ensures Exec(name).Archive? ==> |name| > 0 && name[|name| - 1] == 'z'
  {
    if MatchesAfter(name, "logs") {
      assert name[12..][5] == 'z';
    } else if MatchesAfter(name, "audit") {
      assert name[13..][5] == 'z';
    }
  }

  // ---------------------------------------------------------------- pruning

  lemma ListedShape(name: string)
    requires Exec(name).Archive?
    ensures PeriodShape(Exec(name).periodKey)
  {
  }

  /** The month `Date.UTC(year, month - 1, 1)` of a listed name falls in: a month "13" is the next January. */
  function StartMonth(name: string): (index: int)
    requires Exec(name).Archive?
    ensures 1199 <= index < LAST_MONTH
  {
    ListedShape(name);
    var k := Exec(name).periodKey;
    FourDigits(k[..4]);
    TwoDigits(k[5..]);
    hide ValueOf, AllDigits, Exec;
    UtcIndex(ValueOf(k[..4]), ValueOf(k[5..]) - 1)
  }

  /** Whether pruning removes a file. */
  predicate Expired(name: string, cutoff: int) {
    Exec(name).Archive? && Exec(name).source == R.Logs && !Stops(StartMonth(name), cutoff)
  }

  lemma StartOfFinished(source: R.Source, index: int)
    requires FourDigitYear(index)
    ensures Exec(FinishedName(source, index)) == Archive(source, Key(index))
    ensures StartMonth(FinishedName(source, index)) == index
  {
    FinishedIsListed(source, index);
    KeyShape(index);
    hide Key, PeriodShape, ValueOf, FinishedName, Exec;
  }

  lemma BoundaryAfterStart(index: int)
    requires 1199 <= index < LAST_MONTH
    ensures Representable(FirstInstant(index)) && MonthOf(FirstInstant(index)) == index
    ensures FirstInstant(index) < FirstInstant(LAST_MONTH)
    ensures Boundary(index).At? && Boundary(index).ms >= FirstInstant(index + 1)
    ensures index > 1199 ==> Boundary(index) == At(FirstInstant(index + 1))
  {
    LastMonth();
    MonthLength(index);
    FirstInstantsIncrease(12 * -271_821 + 4, index);
    FirstInstantsIncrease(index, LAST_MONTH);
    MonthOfIs(FirstInstant(index), index);
    hide FirstInstant;
    BoundaryRepresentable(FirstInstant(index), index);
    BoundaryIs(index);
  }

  /** The period's own rule: a log archive goes exactly when its whole month is older than the cutoff. */
  lemma PrunedIffAged(index: int, cutoff: int)
    requires FourDigitYear(index)
    ensures Expired(FinishedName(R.Logs, index), cutoff) <==> FullyAged(index, cutoff)
  {
    StartOfFinished(R.Logs, index);
    BoundaryAfterStart(index);
    hide FirstInstant, Boundary, FinishedName, Exec, Key, StartMonth;
  }

  /** No cutoff, however late, removes an audit archive, or anything that is not a finished archive. */
  lemma OthersAreNeverPruned(index: int, uuid: string, cutoff: int)
    ensures !Expired(FinishedName(R.Audit, index), cutoff)
    ensures !Expired(PlainName(R.Logs, index), cutoff) && !Expired(ProvisionalName(R.Logs, index, uuid), cutoff)
  {
    FinishedIsListed(R.Audit, index);
    UnfinishedIsNeverListed(R.Logs, index, uuid);
    hide Exec, FinishedName, PlainName, ProvisionalName, Key, Stops;
  }

  datatype Descriptor = Descriptor(source: R.Source, periodKey: string, path: string, bytes: nat)

  class ArchiveDirectory {
    /** File names and their sizes. */
    var files: map<string, nat>

    constructor (existing: map<string, nat>)
      ensures files == existing
    {
      files := existing;
    }

    /** `readdirSync`: every name once, in no particular order. */
    method ReadDir() returns (list: seq<string>)
      ensures forall n :: n in list <==> n in files
      ensures forall i, j :: 0 <= i < j < |list| ==> list[i] != list[j]
    {
      list := [];
      var left := files.Keys;
      while left != {}
        invariant left <= files.Keys
        invariant forall n :: n in list <==> n in files && n !in left
        invariant forall i, j :: 0 <= i < j < |list| ==> list[i] != list[j]
      {
        var n :| n in left;
        list, left := list + [n], left - {n};
      }
    }

    /** Every finished archive once, with its source, period and size; nothing else. */
    method ListArchives() returns (descriptors: seq<Descriptor>)
      ensures forall d :: d in descriptors ==>
        d.path in files && Exec(d.path) == Archive(d.source, d.periodKey) && d.bytes == files[d.path]
      ensures forall n :: n in files && Exec(n).Archive? ==>
        Descriptor(Exec(n).source, Exec(n).periodKey, n, files[n]) in descriptors
      ensures forall i, j :: 0 <= i < j < |descriptors| ==> descriptors[i].path != descriptors[j].path
    {
      hide Exec;
      var list := ReadDir();
      descriptors := [];
      for i := 0 to |list|
        invariant forall d :: d in descriptors ==>
          d.path in list[..i] && Exec(d.path) == Archive(d.source, d.periodKey) && d.bytes == files[d.path]
        invariant forall n :: n in list[..i] && Exec(n).Archive? ==>
          Descriptor(Exec(n).source, Exec(n).periodKey, n, files[n]) in descriptors
        invariant forall k, j :: 0 <= k < j < |descriptors| ==> descriptors[k].path != descriptors[j].path
      {
        var m := Exec(list[i]);
        if m.Archive? {
          assert forall k :: 0 <= k < |descriptors| ==> descriptors[k] in descriptors;
          descriptors := descriptors + [Descriptor(m.source, m.periodKey, list[i], files[list[i]])];
        }
      }
      assert list[..|list|] == list;
    }

    /**
     `pruneLogArchives`: removes what has expired, and touches nothing else. The removal of a stuck file throws and ends
     it there, with what was removed until then gone.
     */
    method PruneLogArchives(cutoff: int, stuck: set<string>) returns (threw: bool, removed: seq<string>)
      requires Representable(cutoff) && cutoff < FirstInstant(LAST_MONTH)
      modifies this
      ensures files == map n | n in old(files) && n !in removed :: old(files)[n]
      ensures forall n :: n in removed ==> n in old(files) && Expired(n, cutoff) && n !in stuck
      ensures forall i, j :: 0 <= i < j < |removed| ==> removed[i] != removed[j]
      ensures threw <==> exists n :: n in stuck && n in old(files) && Expired(n, cutoff)
      ensures !threw ==> forall n :: n in old(files) && Expired(n, cutoff) ==> n in removed
    {
      hide Exec, FirstInstant, Stops, StartMonth, Representable;
      var archives := ListArchives();
      threw, removed := false, [];
      for i := 0 to |archives|
        invariant files == map n | n in old(files) && n !in removed :: old(files)[n]
        invariant forall n :: n in removed ==> n in old(files) && Expired(n, cutoff) && n !in stuck
        invariant !threw && forall n :: n in removed ==> exists k :: 0 <= k < i && archives[k].path == n
        invariant forall k, j :: 0 <= k < j < |removed| ==> removed[k] != removed[j]
        invariant forall d :: d in archives[..i] && Expired(d.path, cutoff) ==> d.path in removed
      {
        var archive := archives[i];
        if archive.source == R.Logs {
          var due := HasAged(archive.path, cutoff);
          if due {
            if archive.path in stuck {
              threw := true;
              return;
            }
            files := files - {archive.path};
            removed := removed + [archive.path];
          }
        }
      }
      assert archives[..|archives|] == archives;
      threw := false;
      forall n | n in old(files) && Expired(n, cutoff) ensures n in removed {
        assert Descriptor(Exec(n).source, Exec(n).periodKey, n, old(files)[n]) in archives[..|archives|];
      }
    }
  }

  /** Asks the month walk, with the archived period's own first instant as the oldest. */
  method HasAged(name: string, cutoff: int) returns (due: bool)
    requires Exec(name).Archive? && Representable(cutoff) && cutoff < FirstInstant(LAST_MONTH)
    ensures due <==> !Stops(StartMonth(name), cutoff)
  {
    hide FirstInstant, Boundary, Exec, StartMonth, Representable, Stops, MonthOf;
    var start := StartMonth(name);
    BoundaryAfterStart(start);
    var walk := PeriodsFullyBefore(At(FirstInstant(start)), At(cutoff));
    due := |walk.periods| != 0;
  }
}
