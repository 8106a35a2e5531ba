/** The trend file of app-e2e-tests/scripts/generate-e2e-report.js: a bounded, sorted record
    of runs that every report generation reads and, unless the run was partial, rewrites. */
module History {
  import opened Options

  /** A recorded run.  ISO stamps compare as the instants they denote, so `when` is the
      instant. */
  datatype Run<C> = Run(when: int, results: C)

  const LIMIT: nat := 20

  /** Everything but the last element, and the last element. */
  function Front<C>(h: seq<Run<C>>): seq<Run<C>>
    requires h != []
  {
    h[..|h| - 1]
  }

  function Final<C>(h: seq<Run<C>>): Run<C>
    requires h != []
  {
    h[|h| - 1]
  }

  lemma Snoc<C>(h: seq<Run<C>>, r: Run<C>)
    ensures Front(h + [r]) == h && Final(h + [r]) == r
  {
  }

  /** Strictly increasing in time. */
  ghost predicate Sorted<C>(h: seq<Run<C>>) {
    |h| <= 1 || (Sorted(Front(h)) && Final(Front(h)).when < Final(h).when)
  }

  /** Hence free of duplicates. */
  lemma {:induction false} SortedMeans<C>(h: seq<Run<C>>)
    requires Sorted(h)
    ensures forall i, j :: 0 <= i < j < |h| ==> h[i].when < h[j].when
  {
    if |h| > 1 {
      SortedMeans(Front(h));
    }
  }

  /** The last `k` elements. */
  function Last<C>(h: seq<Run<C>>, k: nat): (s: seq<Run<C>>)
    ensures |s| == if |h| <= k then |h| else k
  {
    if h == [] || k == 0 then [] else Last(Front(h), k - 1) + [Final(h)]
  }

  function Before<C>(h: seq<Run<C>>, when: int): seq<Run<C>> {
    if h == [] then []
    else if Final(h).when < when then Before(Front(h), when) + [Final(h)]
    else Before(Front(h), when)
  }

  function Without<C>(h: seq<Run<C>>, when: int): seq<Run<C>> {
    if h == [] then []
    else if Final(h).when != when then Without(Front(h), when) + [Final(h)]
    else Without(Front(h), when)
  }

  /** A stable sort by time. */
  function InsertByTime<C>(h: seq<Run<C>>, r: Run<C>): (s: seq<Run<C>>)
    ensures |s| == |h| + 1
  {
    if h == [] || Final(h).when <= r.when then h + [r]
    else InsertByTime(Front(h), r) + [Final(h)]
  }

  function SortByTime<C>(h: seq<Run<C>>): seq<Run<C>> {
    if h == [] then [] else InsertByTime(SortByTime(Front(h)), Final(h))
  }

  datatype Generation<C> = Generation(prior: seq<Run<C>>, previous: Option<Run<C>>, upToNow: seq<Run<C>>)

  /** One generation of the report: what the page is built from, and the new file. */
  method Generate<C>(file: seq<Run<C>>, current: Run<C>, partialRun: bool)
    returns (g: Generation<C>, file': seq<Run<C>>)
    ensures g.prior == Before(file, current.when)
    ensures g.previous == if g.prior == [] then None else Some(Final(g.prior))
    ensures g.upToNow == Last(g.prior + [current], LIMIT)
    ensures Sorted(file) ==> file' == if partialRun then file else Last(Insert(file, current), LIMIT)
  {
    var prior := Before(file, current.when);
    var previous := if prior == [] then None else Some(Final(prior));
    var history := Without(file, current.when);
    history := history + [current];
    history := SortByTime(history);
    history := Last(history, LIMIT);
    if Sorted(file) {
      PushAndSort(file, current);
    }
    file' := if partialRun then file else history;
    g := Generation(prior, previous, Last(prior + [current], LIMIT));
  }

  // ----- one update -----

  /** The record with one run put in its place, replacing an earlier version of it. */
  ghost function Insert<C>(h: seq<Run<C>>, r: Run<C>): (s: seq<Run<C>>)
    ensures s != []
  {
    if h == [] || Final(h).when < r.when then h + [r]
    else if Final(h).when == r.when then Front(h) + [r]
    else Insert(Front(h), r) + [Final(h)]
  }

  lemma {:induction false} InsertSorted<C>(h: seq<Run<C>>, r: Run<C>)
    requires Sorted(h)
    ensures Sorted(Insert(h, r))
    ensures Final(Insert(h, r)).when == if h == [] || Final(h).when < r.when then r.when else Final(h).when
  {
    var s := Insert(h, r);
    if h == [] {
    } else if Final(h).when < r.when {
      Snoc(h, r);
    } else if Final(h).when == r.when {
      Snoc(Front(h), r);
    } else {
      InsertSorted(Front(h), r);
      Snoc(Insert(Front(h), r), Final(h));
    }
  }

  lemma {:induction false} InsertHolds<C>(h: seq<Run<C>>, r: Run<C>, x: Run<C>)
    requires Sorted(h)
    ensures x in Insert(h, r) <==> x == r || (x in h && x.when != r.when)
  {
    if h != [] {
      assert h == Front(h) + [Final(h)];
      InsertHolds(Front(h), r, x);
      if Final(h).when <= r.when {
        AllEarlier(h, x);
      }
    }
  }

  lemma AllEarlier<C>(h: seq<Run<C>>, x: Run<C>)
    requires Sorted(h) && h != []
    ensures x in h ==> x.when <= Final(h).when
    ensures x in Front(h) ==> x.when < Final(h).when
  {
    SortedMeans(h);
  }

  lemma FrontAndFinal<C>(h: seq<Run<C>>)
    requires h != []
    ensures Front(h) + [Final(h)] == h
  {
  }

  lemma {:induction false} SortedStays<C>(h: seq<Run<C>>)
    requires Sorted(h)
    ensures SortByTime(h) == h
  {
    if h != [] {
      SortedStays(Front(h));
      assert InsertByTime(Front(h), Final(h)) == Front(h) + [Final(h)];
      FrontAndFinal(h);
    }
  }

  /** In a sorted record, dropping a stamp later than all others drops nothing. */
  lemma {:induction false} WithoutLater<C>(h: seq<Run<C>>, when: int)
    requires Sorted(h) && (h == [] || Final(h).when < when)
    ensures Without(h, when) == h && Before(h, when) == h
  {
    if h != [] {
      WithoutLater(Front(h), when);
      assert h == Front(h) + [Final(h)];
    }
  }

  lemma {:induction false} WithoutSorted<C>(h: seq<Run<C>>, when: int)
    requires Sorted(h)
    ensures var s := Without(h, when); Sorted(s) && (s != [] ==> h != [] && Final(s).when <= Final(h).when)
  {
    if h != [] {
      WithoutSorted(Front(h), when);
      Snoc(Without(Front(h), when), Final(h));
    }
  }

  lemma {:induction false} PlaceAfterDropping<C>(h: seq<Run<C>>, r: Run<C>)
    requires Sorted(h)
    ensures InsertByTime(Without(h, r.when), r) == Insert(h, r)
  {
    if h == [] {
    } else if Final(h).when < r.when {
      WithoutLater(h, r.when);
    } else if Final(h).when == r.when {
      WithoutLater(Front(h), r.when);
    } else {
      PlaceAfterDropping(Front(h), r);
      Snoc(Without(Front(h), r.when), Final(h));
    }
  }

  /** Filtering, pushing and sorting puts the run in its place. */
  lemma PushAndSort<C>(h: seq<Run<C>>, r: Run<C>)
    requires Sorted(h)
    ensures SortByTime(Without(h, r.when) + [r]) == Insert(h, r)
  {
    var rest := Without(h, r.when);
    WithoutSorted(h, r.when);
    SortedStays(rest);
    Snoc(rest, r);
    PlaceAfterDropping(h, r);
  }

  // ----- every sequence of generations -----

  lemma {:induction false} LastSorted<C>(h: seq<Run<C>>, k: nat)
    requires Sorted(h)
    ensures var s := Last(h, k); Sorted(s) && (s != [] ==> h != [] && Final(s) == Final(h))
  {
    if h != [] && k > 0 {
      LastSorted(Front(h), k - 1);
      Snoc(Last(Front(h), k - 1), Final(h));
    }
  }

  /** The file after a sequence of full runs had their reports generated, in any order
      and any number of times. */
  ghost function FileAfter<C>(log: seq<Run<C>>): (h: seq<Run<C>>) {
    if log == [] then [] else Last(Insert(FileAfter(Front(log)), Final(log)), LIMIT)
  }

  /** What an unbounded file would hold. */
  ghost function Everything<C>(log: seq<Run<C>>): (h: seq<Run<C>>) {
    if log == [] then [] else Insert(Everything(Front(log)), Final(log))
  }

  /** The file is always strictly sorted by time, without duplicates and within bounds. */
  lemma {:induction false} FileIsSorted<C>(log: seq<Run<C>>)
    ensures Sorted(FileAfter(log)) && |FileAfter(log)| <= LIMIT
    ensures Sorted(Everything(log))
  {
    if log != [] {
      FileIsSorted(Front(log));
      InsertSorted(FileAfter(Front(log)), Final(log));
      LastSorted(Insert(FileAfter(Front(log)), Final(log)), LIMIT);
      InsertSorted(Everything(Front(log)), Final(log));
    }
  }

  lemma {:induction false} LastOfLast<C>(h: seq<Run<C>>, j: nat, k: nat)
    requires j <= k
    ensures Last(Last(h, k), j) == Last(h, j)
  {
    if h != [] && j > 0 {
      LastOfLast(Front(h), j - 1, k - 1);
      Snoc(Last(Front(h), k - 1), Final(h));
    }
  }

  /** The last `k`, and the rest. */
  lemma {:induction false} SplitLast<C>(h: seq<Run<C>>, k: nat) returns (a: seq<Run<C>>)
    ensures h == a + Last(h, k)
    ensures a == [] || |Last(h, k)| == k
  {
    if h == [] || k == 0 {
      a := h;
    } else {
      a := SplitLast(Front(h), k - 1);
      var kept := Last(Front(h), k - 1);
      assert a + kept + [Final(h)] == a + (kept + [Final(h)]);
    }
  }

  lemma {:induction false} SameSuffix<C>(a: seq<Run<C>>, b: seq<Run<C>>, k: nat)
    requires |b| >= k
    ensures Last(a + b, k) == Last(b, k)
  {
    if k > 0 {
      assert Front(a + b) == a + Front(b) && Final(a + b) == Final(b);
      SameSuffix(a, Front(b), k - 1);
    }
  }

  /** A run that belongs among the kept ones does not touch the dropped ones ... */
  lemma {:induction false} InsertIntoSuffix<C>(a: seq<Run<C>>, b: seq<Run<C>>, r: Run<C>)
    requires b != [] && b[0].when <= r.when
    ensures Insert(a + b, r) == a + Insert(b, r)
  {
    assert Front(a + b) == a + Front(b) && Final(a + b) == Final(b);
    if Final(b).when > r.when {
      InsertIntoSuffix(a, Front(b), r);
      assert a + (Insert(Front(b), r) + [Final(b)]) == a + Insert(Front(b), r) + [Final(b)];
    } else if Final(b).when == r.when {
      assert a + Front(b) + [r] == a + (Front(b) + [r]);
    } else {
      assert a + b + [r] == a + (b + [r]);
    }
  }

  /** ... and one that is older than all the kept ones does not touch them. */
  lemma {:induction false} InsertBeforeSuffix<C>(a: seq<Run<C>>, b: seq<Run<C>>, r: Run<C>)
    requires forall i :: 0 <= i < |b| ==> r.when < b[i].when
    ensures Insert(a + b, r) == Insert(a, r) + b
  {
    if b == [] {
      assert a + b == a && Insert(a, r) + b == Insert(a, r);
    } else {
      assert Front(a + b) == a + Front(b) && Final(a + b) == Final(b);
      InsertBeforeSuffix(a, Front(b), r);
      assert Insert(a, r) + Front(b) + [Final(b)] == Insert(a, r) + b by {
        assert Front(b) + [Final(b)] == b;
      }
    }
  }

  lemma {:induction false} InsertGrows<C>(h: seq<Run<C>>, r: Run<C>)
    ensures |h| <= |Insert(h, r)| <= |h| + 1
  {
    if h != [] && Final(h).when > r.when {
      InsertGrows(Front(h), r);
    }
  }

  lemma LastOfRecent<C>(a: seq<Run<C>>, b: seq<Run<C>>, r: Run<C>, k: nat)
    requires |b| == k > 0 && b[0].when <= r.when
    ensures Last(Insert(a + b, r), k) == Last(Insert(b, r), k)
  {
    InsertIntoSuffix(a, b, r);
    InsertGrows(b, r);
    SameSuffix(a, Insert(b, r), k);
  }

  lemma LastOfOld<C>(a: seq<Run<C>>, b: seq<Run<C>>, r: Run<C>, k: nat)
    requires |b| == k && forall i :: 0 <= i < |b| ==> r.when < b[i].when
    ensures Last(Insert(a + b, r), k) == Last(b, k)
  {
    InsertBeforeSuffix(a, b, r);
    SameSuffix(Insert(a, r), b, k);
  }

  lemma ForgetFirst<C>(a: seq<Run<C>>, b: seq<Run<C>>, r: Run<C>, k: nat)
    requires a == [] || |b| == k
    requires forall i :: 0 < i < |b| ==> b[0].when < b[i].when
    ensures Last(Insert(b, r), k) == Last(Insert(a + b, r), k)
  {
    if a == [] {
      assert a + b == b;
    } else if k > 0 {
      if b[0].when <= r.when {
        LastOfRecent(a, b, r, k);
      } else {
        LastOfOld(a, b, r, k);
        LastOfOld([], b, r, k);
        assert [] + b == b;
      }
    }
  }

  /** Forgetting the oldest runs first and inserting afterwards forgets nothing more. */
  lemma LastOfInsert<C>(h: seq<Run<C>>, r: Run<C>, k: nat)
    requires Sorted(h)
    ensures Last(Insert(Last(h, k), r), k) == Last(Insert(h, r), k)
  {
    var a := SplitLast(h, k);
    var b := Last(h, k);
    LastSorted(h, k);
    SortedMeans(b);
    ForgetFirst(a, b, r, k);
  }

  /** The file holds the latest `LIMIT` of all the runs ever recorded, no matter in which
      order, or how often, their reports were generated. */
  lemma {:induction false} FileIsLatest<C>(log: seq<Run<C>>)
    ensures FileAfter(log) == Last(Everything(log), LIMIT)
  {
    if log != [] {
      FileIsLatest(Front(log));
      FileIsSorted(Front(log));
      LastOfInsert(Everything(Front(log)), Final(log), LIMIT);
    }
  }

  /** Twenty runs are kept, and all as long as there are fewer. */
  lemma KeepsTwenty<C>(log: seq<Run<C>>)
    ensures |FileAfter(log)| == if |Everything(log)| <= 20 then |Everything(log)| else 20
  {
    FileIsLatest(log);
  }

  /** `r` was recorded and no later recording has its stamp. */
  ghost predicate IsLatestVersion<C>(log: seq<Run<C>>, r: Run<C>) {
    log != [] && (r == Final(log) || (r.when != Final(log).when && IsLatestVersion(Front(log), r)))
  }

  /** Among everything recorded, a run counts with its latest version. */
  lemma {:induction false} LatestVersions<C>(log: seq<Run<C>>, r: Run<C>)
    ensures r in Everything(log) <==> IsLatestVersion(log, r)
  {
    if log != [] {
      LatestVersions(Front(log), r);
      FileIsSorted(Front(log));
      InsertHolds(Everything(Front(log)), Final(log), r);
    }
  }

  lemma {:induction false} InsertPresent<C>(h: seq<Run<C>>, r: Run<C>)
    requires Sorted(h) && r in h
    ensures Insert(h, r) == h
  {
    SortedMeans(h);
    assert h == Front(h) + [Final(h)];
    if r != Final(h) {
      InsertPresent(Front(h), r);
    }
  }

  lemma {:induction false} LastIsSuffix<C>(h: seq<Run<C>>, k: nat)
    ensures Last(h, k) == if |h| <= k then h else h[|h| - k..]
  {
    if h != [] && k > 0 {
      LastIsSuffix(Front(h), k - 1);
      FrontAndFinal(h);
      if |h| > k {
        var n := |h| - k;
        assert Front(h)[n..] + [Final(h)] == h[n..];
      }
    }
  }

  /** An insertion that makes the record longer puts a newer run after the first one. */
  lemma {:induction false} InsertedLater<C>(h: seq<Run<C>>, r: Run<C>)
    requires Sorted(h) && h != [] && h[0].when <= r.when && |Insert(h, r)| > |h|
    ensures r in Insert(h, r)[1..]
  {
    if Final(h).when < r.when {
      assert (h + [r])[1..] == h[1..] + [r];
    } else {
      InsertedLater(Front(h), r);
      var s := Insert(Front(h), r);
      assert (s + [Final(h)])[1..] == s[1..] + [Final(h)];
    }
  }

  /** A run no older than the oldest one on file, or any run while there is room, is kept. */
  lemma InsertKept<C>(h: seq<Run<C>>, r: Run<C>, k: nat)
    requires Sorted(h) && |h| <= k && k > 0 && (|h| < k || h[0].when <= r.when)
    ensures r in Last(Insert(h, r), k)
  {
    InsertHolds(h, r, r);
    InsertGrows(h, r);
    LastIsSuffix(Insert(h, r), k);
    if |Insert(h, r)| > k {
      InsertedLater(h, r);
    }
  }

  lemma RewriteIff<C>(h: seq<Run<C>>, r: Run<C>, k: nat)
    requires Sorted(h) && |h| <= k && k > 0
    ensures Last(Insert(h, r), k) == h <==> r in h || (|h| == k && r.when < h[0].when)
  {
    LastIsSuffix(h, k);
    if r in h {
      InsertPresent(h, r);
    } else if |h| == k && r.when < h[0].when {
      SortedMeans(h);
      LastOfOld([], h, r, k);
      assert [] + h == h;
    } else {
      InsertKept(h, r, k);
    }
  }

  /** Generating the report of a run leaves the file as it is if and only if that very run is on
      file, or the file is full and the run is older than all of it. */
  lemma UnchangedIff<C>(log: seq<Run<C>>, r: Run<C>)
    ensures var file := FileAfter(log);
            FileAfter(log + [r]) == file <==> r in file || (|file| == LIMIT && r.when < file[0].when)
  {
    FileIsSorted(log);
    Snoc(log, r);
    RewriteIff(FileAfter(log), r, LIMIT);
  }

  /** Generating the report of a recorded run again leaves the file as it is, whatever was
      recorded in between and however old the run. */
  lemma RegenerationIsIdempotent<C>(log: seq<Run<C>>, r: Run<C>)
    requires IsLatestVersion(log, r)
    ensures FileAfter(log + [r]) == FileAfter(log)
  {
    LatestVersions(log, r);
    FileIsSorted(log);
    Snoc(log, r);
    InsertPresent(Everything(log), r);
    FileIsLatest(log);
    FileIsLatest(log + [r]);
  }

  lemma {:induction false} BeforeHolds<C>(h: seq<Run<C>>, when: int, x: Run<C>)
    requires Sorted(h)
    ensures x in Before(h, when) <==> x in h && x.when < when
    ensures var s := Before(h, when); Sorted(s) && (s != [] ==> h != [] && Final(s).when <= Final(h).when)
  {
    if h != [] {
      assert h == Front(h) + [Final(h)];
      BeforeHolds(Front(h), when, x);
      Snoc(Before(Front(h), when), Final(h));
    }
  }

  lemma LastTwo<C>(prior: seq<Run<C>>, current: Run<C>, k: nat)
    requires prior != [] && k >= 2
    ensures Last(prior + [current], k) == Last(Front(prior), k - 2) + [Final(prior)] + [current]
  {
    Snoc(prior, current);
    assert Last(prior, k - 1) == Last(Front(prior), k - 2) + [Final(prior)];
  }

  /** On the page the run before the current one is the run compared with. */
  lemma PageComparesWithPrevious<C>(prior: seq<Run<C>>, current: Run<C>, pages: seq<Run<C>>)
    requires prior != [] && pages == Last(prior + [current], LIMIT)
    ensures |pages| >= 2 && pages[|pages| - 1] == current && pages[|pages| - 2] == Final(prior)
  {
    LastTwo(prior, current, LIMIT);
  }

  // ----- how long a test has been failing -----

  /** The length of the unbroken row of failures that ends the record. */
  ghost function Streak<C>(runs: seq<Run<C>>, failed: C -> bool): (n: nat)
    ensures n <= |runs|
  {
    if runs == [] || !failed(Final(runs).results) then 0 else 1 + Streak(Front(runs), failed)
  }

  /** The row is as long as possible: all of it failed, and what is before it did not. */
  lemma {:induction false} StreakMeans<C>(runs: seq<Run<C>>, failed: C -> bool)
    ensures var n := Streak(runs, failed);
            && (forall i :: |runs| - n <= i < |runs| ==> failed(runs[i].results))
            && (n < |runs| ==> !failed(runs[|runs| - n - 1].results))
  {
    if runs != [] {
      StreakMeans(Front(runs), failed);
    }
  }

  /** This run plus every earlier one in a row; `atLeast` when the record ends before the
      row does. */
  method FailStreak<C>(prior: seq<Run<C>>, failed: C -> bool, now: int) returns (runs: nat, since: int, atLeast: bool)
    ensures runs == 1 + Streak(prior, failed)
    ensures since == if runs == 1 then now else prior[|prior| - (runs - 1)].when
    ensures atLeast <==> prior != [] && Streak(prior, failed) == |prior|
  {
    runs, since := 1, now;
    assert prior[..|prior|] == prior;
    var i := |prior| - 1;
    while i >= 0 && failed(prior[i].results)
      invariant -1 <= i < |prior|
      invariant runs == |prior| - i
      invariant since == if runs == 1 then now else prior[i + 1].when
      invariant Streak(prior, failed) == runs - 1 + Streak(prior[..i + 1], failed)
    {
      assert prior[..i + 1][..i] == prior[..i];
      runs := runs + 1;
      since := prior[i].when;
      i := i - 1;
    }
    atLeast := i < 0 && |prior| > 0;
  }

  lemma {:induction false} StreakOfLast<C>(all: seq<Run<C>>, k: nat, failed: C -> bool)
    ensures var known := Last(all, k);
            && Streak(known, failed) <= Streak(all, failed)
            && (Streak(known, failed) < |known| || all == [] ==> Streak(known, failed) == Streak(all, failed))
  {
    if all != [] && k > 0 {
      StreakOfLast(Front(all), k - 1, failed);
      Snoc(Last(Front(all), k - 1), Final(all));
    }
  }

  /** Looking back from an instant, the end of the record knows the end of the past. */
  lemma {:induction false} PastOfLast<C>(h: seq<Run<C>>, k: nat, when: int) returns (j: nat)
    requires Sorted(h)
    ensures Before(Last(h, k), when) == Last(Before(h, when), j)
  {
    if h == [] || k == 0 {
      j := 0;
    } else if Final(h).when < when {
      assert Before(h, when) == h by { WithoutLater(h, when); }
      assert Before(Last(h, k), when) == Last(h, k) by {
        LastSorted(h, k);
        WithoutLater(Last(h, k), when);
      }
      j := k;
    } else {
      j := PastOfLast(Front(h), k - 1, when);
      Snoc(Last(Front(h), k - 1), Final(h));
    }
  }

  /** What the bounded file loses: the streak it knows is never too long, and it is exact
      when the record on file goes back beyond it. */
  lemma StreakIsSound<C>(log: seq<Run<C>>, when: int, failed: C -> bool)
    ensures var known, all := Before(FileAfter(log), when), Before(Everything(log), when);
            && Streak(known, failed) <= Streak(all, failed)
            && (Streak(known, failed) < |known| || all == [] ==> Streak(known, failed) == Streak(all, failed))
  {
    FileIsLatest(log);
    FileIsSorted(log);
    var j := PastOfLast(Everything(log), LIMIT, when);
    StreakOfLast(Before(Everything(log), when), j, failed);
  }

  /** The mark `FailStreak` gives. */
  ghost predicate MarkedAtLeast<C>(known: seq<Run<C>>, failed: C -> bool) {
    known != [] && Streak(known, failed) == |known|
  }

  /** An unmarked streak is exact if and only if there is something on file to go by, or there
      never was anything, or the run before was no failure. */
  lemma UnmarkedIsExactIff<C>(log: seq<Run<C>>, when: int, failed: C -> bool)
    ensures var known, all := Before(FileAfter(log), when), Before(Everything(log), when);
            !MarkedAtLeast(known, failed) ==>
              (Streak(known, failed) == Streak(all, failed)
               <==> known != [] || all == [] || !failed(Final(all).results))
  {
    StreakIsSound(log, when, failed);
  }

  lemma {:induction false} ShortIsWhole<C>(h: seq<Run<C>>, k: nat)
    requires |Last(h, k)| < k
    ensures Last(h, k) == h
  {
    if h != [] {
      ShortIsWhole(Front(h), k - 1);
      assert h == Front(h) + [Final(h)];
    }
  }

  /** What can be checked beforehand: a file that is not full, or that holds an earlier run. */
  lemma UnmarkedIsExact<C>(log: seq<Run<C>>, when: int, failed: C -> bool)
    ensures var known, all := Before(FileAfter(log), when), Before(Everything(log), when);
            !MarkedAtLeast(known, failed) && (|FileAfter(log)| < LIMIT || known != []) ==>
              Streak(known, failed) == Streak(all, failed)
  {
    FileIsLatest(log);
    if |FileAfter(log)| < LIMIT {
      ShortIsWhole(Everything(log), LIMIT);
    } else {
      StreakIsSound(log, when, failed);
    }
  }

  /** Runs generated in order of time are recorded as they come. */
  lemma {:induction false} InOrder<C>(log: seq<Run<C>>)
    requires Sorted(log)
    ensures Everything(log) == log
  {
    if log != [] {
      InOrder(Front(log));
      assert log == Front(log) + [Final(log)];
    }
  }

  /** Runs at the instants 1, 2, ..., n with the same results. */
  ghost function Counted<C>(n: nat, results: C): seq<Run<C>> {
    if n == 0 then [] else Counted(n - 1, results) + [Run(n, results)]
  }

  lemma {:induction false} CountedSorted<C>(n: nat, results: C)
    ensures Sorted(Counted(n, results))
    ensures n > 0 ==> Final(Counted(n, results)) == Run(n, results)
  {
    if n > 0 {
      CountedSorted(n - 1, results);
      Snoc(Counted(n - 1, results), Run(n, results));
    }
  }

  lemma {:induction false} CountedBefore<C>(n: nat, results: C)
    requires n > 0
    ensures Before(Counted(n, results), 2) == [Run(1, results)]
  {
    var front := Counted(n - 1, results);
    Snoc(front, Run(n, results));
    if n > 1 {
      CountedBefore(n - 1, results);
    } else {
      assert front == [] && Before(front, 2) == [];
    }
  }

  lemma {:induction false} LastOfCounted<C>(n: nat, results: C, k: nat, when: int)
    requires k < n && when <= n - k + 1
    ensures Before(Last(Counted(n, results), k), when) == []
  {
    if k > 0 {
      Snoc(Counted(n - 1, results), Run(n, results));
      LastOfCounted(n - 1, results, k - 1, when);
      Snoc(Last(Counted(n - 1, results), k - 1), Run(n, results));
    }
  }

  /** The exception: with failing runs at the instants 1 to 21 on record the file holds 2 to 21.
      Generating run 2 again finds nothing earlier on file and reports an unmarked streak of one,
      although run 1 failed as well. */
  lemma DroppedRunGoesUnmarked<C>(results: C, failed: C -> bool, log: seq<Run<C>>)
    requires failed(results) && log == Counted(LIMIT + 1, results)
    ensures Before(FileAfter(log), 2) == [] && !MarkedAtLeast(Before(FileAfter(log), 2), failed)
    ensures Streak(Before(Everything(log), 2), failed) == 1
  {
    CountedSorted(LIMIT + 1, results);
    CountedBefore(LIMIT + 1, results);
    InOrder(log);
    FileIsLatest(log);
    LastOfCounted(LIMIT + 1, results, LIMIT, 2);
    var one := [Run(1, results)];
    assert Front(one) == [];
  }

  // ----- the run compared with -----

  /** If the file holds any earlier run, the one compared with is the latest of everything ever
      recorded before that instant.  If it holds none, either there never was one or the file is
      full and all of them have been dropped. */
  lemma PreviousAmongEverything<C>(log: seq<Run<C>>, when: int)
    ensures var known, all := Before(FileAfter(log), when), Before(Everything(log), when);
            && (known != [] ==> all != [] && Final(known) == Final(all))
            && (known == [] ==> all == [] || |FileAfter(log)| == LIMIT)
  {
    FileIsLatest(log);
    FileIsSorted(log);
    var h := Everything(log);
    var all := Before(h, when);
    var j := PastOfLast(h, LIMIT, when);
    if all != [] && j > 0 {
      Snoc(Last(Front(all), j - 1), Final(all));
    }
    if |FileAfter(log)| < LIMIT {
      ShortIsWhole(h, LIMIT);
    }
  }

  /** The run compared with is the greatest of all recorded runs that are strictly earlier. */
  lemma PreviousIsGreatestEarlier<C>(log: seq<Run<C>>, when: int, x: Run<C>)
    requires IsLatestVersion(log, x) && x.when < when
    ensures var known := Before(FileAfter(log), when);
            known != [] ==> IsLatestVersion(log, Final(known)) && x.when <= Final(known).when < when
  {
    var all := Before(Everything(log), when);
    FileIsSorted(log);
    PreviousAmongEverything(log, when);
    LatestVersions(log, x);
    BeforeHolds(Everything(log), when, x);
    BeforeHolds(Everything(log), when, Final(all));
    LatestVersions(log, Final(all));
    AllEarlier(all, x);
  }
}
