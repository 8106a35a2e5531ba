/** The batch view of the same run: the attempt log that
    app-e2e-tests/notifications/E2EReportReporter.ts writes, and the rows and totals that
    app-e2e-tests/scripts/generate-e2e-report.js computes from it. */
module Report {
  import opened Attempts

  /** The three statuses the report counts. */
  datatype Outcome3 = Pass | Fail | Skip

  datatype Record = Record(suite: string, name: string, status: Outcome3, retry: nat, marked: bool) {
    function Key(): string {
      suite + "::" + name
    }
  }

  function Collapse(s: Status): Outcome3 {
    if s.Passed? then Pass else if s.Skipped? then Skip else Fail
  }

  function ToRecord(a: Attempt): Record {
    Record(a.suite, a.name, Collapse(a.status), a.retry, a.MarkedFirst())
  }

  ghost function Records(log: seq<Attempt>): (r: seq<Record>)
    ensures |r| == |log|
    ensures forall i :: 0 <= i < |log| ==> r[i] == ToRecord(log[i])
  {
    seq(|log|, i requires 0 <= i < |log| => ToRecord(log[i]))
  }

  class E2EReportReporter {
    var attempts: seq<Record>
    ghost var log: seq<Attempt>

    ghost predicate Valid()
      reads this
    {
      attempts == Records(log)
    }

    constructor ()
      ensures Valid() && log == []
    {
      attempts, log := [], [];
    }

    method OnTestEnd(a: Attempt)
      requires Valid()
      modifies this
      ensures Valid() && log == old(log) + [a]
    {
      attempts := attempts + [ToRecord(a)];
      log := log + [a];
    }
  }

  /** What is written for an attempt, field by field: interrupted and timed-out attempts have
      failed, and only the first error matters. */
  lemma AttemptsMean(r: E2EReportReporter, i: nat)
    requires r.Valid() && i < |r.log|
    ensures |r.attempts| == |r.log|
    ensures var x, a := r.attempts[i], r.log[i];
            && x.suite == a.suite && x.name == a.name && x.retry == a.retry
            && (x.status == Pass <==> a.status == Passed)
            && (x.status == Skip <==> a.status == Skipped)
            && (x.marked <==> a.errors != [] && a.errors[0])
  {
  }

  // ----- one row per test -----

  datatype Row = Row(suite: string, name: string, status: Outcome3, flaky: bool, retries: nat, apiFailure: bool)

  function LastFailure(runs: seq<Record>): (i: int)
    ensures -1 <= i < |runs|
    ensures i >= 0 ==> runs[i].status.Fail?
    ensures forall k :: i < k < |runs| ==> !runs[k].status.Fail?
  {
    if runs == [] then -1
    else if runs[|runs| - 1].status.Fail? then |runs| - 1
    else LastFailure(runs[..|runs| - 1])
  }

  /** The verdict on one test, given its attempts in retry order. */
  function Judge(runs: seq<Record>): Row
    requires runs != []
  {
    var final := runs[|runs| - 1];
    var flaky := final.status.Pass? && exists r :: r in runs && !r.status.Pass?;
    var last := LastFailure(runs);
    var failedThenSkipped := final.status.Skip? && last >= 0;
    // For a flaky test the detail is its first failure, but a test that ends green
    // carries no API failure whatever the detail says.
    var detail := if failedThenSkipped then runs[last] else final;
    Row(final.suite, final.name,
        if failedThenSkipped then Fail else final.status,
        flaky,
        |runs| - 1,
        !final.status.Pass? && detail.marked)
  }

  /** A stable sort by retry number. */
  function InsertByRetry(runs: seq<Record>, r: Record): (s: seq<Record>)
    ensures |s| == |runs| + 1
  {
    if runs == [] || runs[|runs| - 1].retry <= r.retry then runs + [r]
    else InsertByRetry(runs[..|runs| - 1], r) + [runs[|runs| - 1]]
  }

  function SortByRetry(runs: seq<Record>): (s: seq<Record>)
    ensures |s| == |runs|
  {
    if runs == [] then []
    else InsertByRetry(SortByRetry(runs[..|runs| - 1]), runs[|runs| - 1])
  }

  lemma {:induction false} SortedStays(runs: seq<Record>)
    requires forall i :: 0 < i < |runs| ==> runs[i - 1].retry <= runs[i].retry
    ensures SortByRetry(runs) == runs
  {
    if runs != [] {
      SortedStays(runs[..|runs| - 1]);
    }
  }

  /** The attempts with one retry number, in order. */
  ghost function WithRetry(runs: seq<Record>, n: nat): seq<Record> {
    if runs == [] then []
    else
      var before, r := WithRetry(runs[..|runs| - 1], n), runs[|runs| - 1];
      if r.retry == n then before + [r] else before
  }

  ghost predicate RetryOrder(runs: seq<Record>) {
    forall i, j :: 0 <= i < j < |runs| ==> runs[i].retry <= runs[j].retry
  }

  lemma WithRetrySnoc(runs: seq<Record>, r: Record, n: nat)
    ensures WithRetry(runs + [r], n) == if r.retry == n then WithRetry(runs, n) + [r] else WithRetry(runs, n)
  {
    assert (runs + [r])[..|runs|] == runs;
  }

  lemma RetryOrderSnoc(runs: seq<Record>, r: Record)
    requires RetryOrder(runs) && forall x :: x in runs ==> x.retry <= r.retry
    ensures RetryOrder(runs + [r])
  {
    assert forall i :: 0 <= i < |runs| ==> runs[i] in runs;
  }

  lemma RetryOrderFront(runs: seq<Record>)
    requires RetryOrder(runs) && runs != []
    ensures RetryOrder(runs[..|runs| - 1])
    ensures forall x :: x in runs ==> x.retry <= runs[|runs| - 1].retry
    ensures forall x :: x in runs <==> x in runs[..|runs| - 1] || x == runs[|runs| - 1]
  {
    assert runs == runs[..|runs| - 1] + [runs[|runs| - 1]];
  }

  lemma {:induction false} InsertOrders(runs: seq<Record>, r: Record)
    requires RetryOrder(runs)
    ensures RetryOrder(InsertByRetry(runs, r))
    ensures forall x :: x in InsertByRetry(runs, r) <==> x in runs || x == r
  {
    if runs == [] {
      RetryOrderSnoc(runs, r);
    } else {
      var front, last := runs[..|runs| - 1], runs[|runs| - 1];
      RetryOrderFront(runs);
      if last.retry <= r.retry {
        RetryOrderSnoc(runs, r);
      } else {
        InsertOrders(front, r);
        RetryOrderSnoc(InsertByRetry(front, r), last);
      }
    }
  }

  lemma {:induction false} InsertIsStable(runs: seq<Record>, r: Record, n: nat)
    requires RetryOrder(runs)
    ensures WithRetry(InsertByRetry(runs, r), n)
         == if r.retry == n then WithRetry(runs, n) + [r] else WithRetry(runs, n)
  {
    if runs == [] || runs[|runs| - 1].retry <= r.retry {
      WithRetrySnoc(runs, r, n);
    } else {
      var front, last := runs[..|runs| - 1], runs[|runs| - 1];
      RetryOrderFront(runs);
      InsertIsStable(front, r, n);
      WithRetrySnoc(InsertByRetry(front, r), last, n);
    }
  }

  /** The sort orders the attempts by retry number and keeps those of one number as they are. */
  lemma {:induction false} SortIsStable(runs: seq<Record>, n: nat)
    ensures RetryOrder(SortByRetry(runs))
    ensures forall x :: x in SortByRetry(runs) <==> x in runs
    ensures WithRetry(SortByRetry(runs), n) == WithRetry(runs, n)
  {
    if runs != [] {
      var front, last := runs[..|runs| - 1], runs[|runs| - 1];
      assert runs == front + [last];
      SortIsStable(front, n);
      InsertOrders(SortByRetry(front), last);
      InsertIsStable(SortByRetry(front), last, n);
    }
  }

  /** The distinct keys, in order of first appearance. */
  function Keys(raw: seq<Record>): (ks: seq<string>)
    ensures forall i, j :: 0 <= i < j < |ks| ==> ks[i] != ks[j]
  {
    if raw == [] then []
    else
      var ks := Keys(raw[..|raw| - 1]);
      if raw[|raw| - 1].Key() in ks then ks else ks + [raw[|raw| - 1].Key()]
  }

  lemma {:induction false} KeysCover(raw: seq<Record>)
    ensures forall r :: r in raw ==> r.Key() in Keys(raw)
    ensures forall k :: k in Keys(raw) ==> exists r :: r in raw && r.Key() == k
  {
    if raw != [] {
      var before, r := raw[..|raw| - 1], raw[|raw| - 1];
      KeysCover(before);
      assert raw == before + [r];
      assert r in raw;
    }
  }

  /** Record `k` has the one key, and up to it none has the other. */
  ghost predicate SeenFirst(raw: seq<Record>, k: int, one: string, other: string) {
    0 <= k < |raw| && raw[k].Key() == one && forall m :: 0 <= m <= k ==> raw[m].Key() != other
  }

  lemma SeenFirstMore(raw: seq<Record>, n: nat, k: int, one: string, other: string)
    requires n <= |raw| && SeenFirst(raw[..n], k, one, other)
    ensures SeenFirst(raw, k, one, other)
  {
    assert forall m :: 0 <= m < n ==> raw[m] == raw[..n][m];
  }

  lemma SeenBeforeNew(raw: seq<Record>, one: string, other: string)
    requires one in Keys(raw) && other !in Keys(raw)
    ensures exists k :: SeenFirst(raw, k, one, other)
  {
    KeysCover(raw);
    var x :| x in raw && x.Key() == one;
    var k :| 0 <= k < |raw| && raw[k] == x;
    assert forall m :: 0 <= m < |raw| ==> raw[m] in raw;
    assert SeenFirst(raw, k, one, other);
  }

  /** A key listed before another one appears in the log before it. */
  lemma {:induction false} KeysInOrder(raw: seq<Record>, i: nat, j: nat)
    requires i < j < |Keys(raw)|
    ensures exists k :: SeenFirst(raw, k, Keys(raw)[i], Keys(raw)[j])
  {
    var n := |raw| - 1;
    var ks := Keys(raw[..n]);
    var one, other := Keys(raw)[i], Keys(raw)[j];
    if j < |ks| {
      KeysInOrder(raw[..n], i, j);
    } else {
      SeenBeforeNew(raw[..n], one, other);
    }
    var k :| SeenFirst(raw[..n], k, one, other);
    SeenFirstMore(raw, n, k, one, other);
  }

  function OfKey(raw: seq<Record>, key: string): seq<Record> {
    if raw == [] then []
    else
      var before, r := OfKey(raw[..|raw| - 1], key), raw[|raw| - 1];
      if r.Key() == key then before + [r] else before
  }

  lemma OfKeySnoc(raw: seq<Record>, r: Record)
    ensures forall key :: OfKey(raw + [r], key) == if r.Key() == key then OfKey(raw, key) + [r] else OfKey(raw, key)
    ensures Keys(raw + [r]) == if r.Key() in Keys(raw) then Keys(raw) else Keys(raw) + [r.Key()]
  {
    assert (raw + [r])[..|raw|] == raw;
  }

  lemma {:induction false} KeysHaveRecords(raw: seq<Record>, key: string)
    ensures key in Keys(raw) <==> OfKey(raw, key) != []
  {
    if raw != [] {
      KeysHaveRecords(raw[..|raw| - 1], key);
    }
  }

  ghost predicate AreRows(raw: seq<Record>, rows: seq<Row>) {
    && |rows| == |Keys(raw)|
    && forall i :: 0 <= i < |rows| ==>
                     OfKey(raw, Keys(raw)[i]) != [] && rows[i] == Judge(SortByRetry(OfKey(raw, Keys(raw)[i])))
  }

  /** The attempts of every key, and the keys in order of first appearance. */
  method GroupByKey(raw: seq<Record>) returns (order: seq<string>, attempts: map<string, seq<Record>>)
    ensures order == Keys(raw)
    ensures forall key :: key in order ==> key in attempts && attempts[key] == OfKey(raw, key)
  {
    order, attempts := [], map[];
    for i := 0 to |raw|
      invariant order == Keys(raw[..i])
      invariant forall key :: key in attempts <==> key in order
      invariant forall key :: key in attempts ==> attempts[key] == OfKey(raw[..i], key)
    {
      var r := raw[i];
      assert raw[..i + 1] == raw[..i] + [r];
      OfKeySnoc(raw[..i], r);
      KeysHaveRecords(raw[..i], r.Key());
      if r.Key() !in attempts {
        order := order + [r.Key()];
        attempts := attempts[r.Key() := []];
      }
      attempts := attempts[r.Key() := attempts[r.Key()] + [r]];
      assert attempts[r.Key()] == OfKey(raw[..i + 1], r.Key());
    }
    assert raw[..|raw|] == raw;
  }

  /** Judge every group of attempts. */
  method ReadResults(raw: seq<Record>) returns (rows: seq<Row>)
    ensures AreRows(raw, rows)
  {
    var order, attempts := GroupByKey(raw);
    rows := [];
    for i := 0 to |order|
      invariant |rows| == i
      invariant forall k :: 0 <= k < i ==>
                              OfKey(raw, order[k]) != [] && rows[k] == Judge(SortByRetry(OfKey(raw, order[k])))
    {
      KeysHaveRecords(raw, order[i]);
      assert order[i] in order;
      rows := rows + [Judge(SortByRetry(attempts[order[i]]))];
    }
  }

  lemma {:induction false} OfKeyHolds(raw: seq<Record>, key: string)
    ensures forall r :: r in OfKey(raw, key) <==> r in raw && r.Key() == key
  {
    if raw != [] {
      OfKeyHolds(raw[..|raw| - 1], key);
      assert raw == raw[..|raw| - 1] + [raw[|raw| - 1]];
    }
  }

  /** The attempt that ends a test: none has a greater retry number. */
  ghost predicate Ends(raw: seq<Record>, key: string, final: Record) {
    final in raw && final.Key() == key && forall r :: r in raw && r.Key() == key ==> r.retry <= final.retry
  }

  ghost predicate Had(raw: seq<Record>, key: string, status: Outcome3) {
    exists r :: r in raw && r.Key() == key && r.status == status
  }

  ghost predicate HadIn(runs: seq<Record>, status: Outcome3) {
    exists r :: r in runs && r.status == status
  }

  lemma JudgeMeans(runs: seq<Record>, final: Record)
    requires runs != [] && final == runs[|runs| - 1]
    ensures var row := Judge(runs);
            && row.suite == final.suite && row.name == final.name && row.retries + 1 == |runs|
            && (row.status == Pass <==> final.status == Pass)
            && (row.status == Skip <==> final.status == Skip && !HadIn(runs, Fail))
            && (row.flaky <==> final.status == Pass && (HadIn(runs, Fail) || HadIn(runs, Skip)))
            && (final.status == Pass ==> !row.apiFailure)
            && (final.status == Fail ==> (row.apiFailure <==> final.marked))
  {
    assert HadIn(runs, Fail) <==> LastFailure(runs) >= 0 by {
      if r :| r in runs && r.status == Fail {
        var k :| 0 <= k < |runs| && runs[k] == r;
      }
    }
  }

  lemma LastHasGreatestRetry(runs: seq<Record>, sorted: seq<Record>)
    requires runs != [] && sorted == SortByRetry(runs)
    ensures var final := sorted[|sorted| - 1];
            final in runs && forall r :: r in runs ==> r.retry <= final.retry
  {
    SortIsStable(runs, 0);
    var final := sorted[|sorted| - 1];
    assert final in sorted;
    forall r | r in runs
      ensures r.retry <= final.retry
    {
      var k :| 0 <= k < |sorted| && sorted[k] == r;
    }
  }

  /** What a row says, read off the attempt log.  Some attempt that ends its test gives it suite
      and name; it is green if that attempt passed, and flaky if another did not; it has failed
      if that attempt did or was skipped after a failure. */
  lemma RowsMean(raw: seq<Record>, rows: seq<Row>, i: nat) returns (final: Record)
    requires AreRows(raw, rows) && i < |rows|
    ensures var key, row := Keys(raw)[i], rows[i];
            && Ends(raw, key, final) && row.suite == final.suite && row.name == final.name
            && row.suite + "::" + row.name == key
            && row.retries + 1 == |OfKey(raw, key)|
            && (row.status == Pass <==> final.status == Pass)
            && (row.status == Skip <==> final.status == Skip && !Had(raw, key, Fail))
            && (row.flaky <==> final.status == Pass && (Had(raw, key, Fail) || Had(raw, key, Skip)))
            && (final.status == Pass ==> !row.apiFailure)
            && (final.status == Fail ==> (row.apiFailure <==> final.marked))
  {
    var key := Keys(raw)[i];
    var mine := OfKey(raw, key);
    var runs := SortByRetry(mine);
    final := runs[|runs| - 1];
    JudgeMeans(runs, final);
    LastHasGreatestRetry(mine, runs);
    OfKeyHolds(raw, key);
    forall status
      ensures HadIn(runs, status) <==> Had(raw, key, status)
    {
      SortIsStable(mine, 0);
    }
  }

  // ----- totals -----

  function Count<T>(xs: seq<T>, p: T -> bool): (n: nat)
    ensures n <= |xs|
  {
    if xs == [] then 0 else Count(xs[..|xs| - 1], p) + if p(xs[|xs| - 1]) then 1 else 0
  }

  datatype Stats = Stats(
    total: nat, passed: nat, failed: int, apiFailures: nat, skipped: nat, retried: nat, flaky: nat)

  predicate IsPass(r: Row) { r.status.Pass? }

  predicate IsFail(r: Row) { r.status.Fail? }

  predicate IsSkip(r: Row) { r.status.Skip? }

  predicate IsRetried(r: Row) { r.retries > 0 }

  predicate IsFlaky(r: Row) { r.flaky }

  predicate IsApiFailure(r: Row) { r.apiFailure }

  function Summarise(rows: seq<Row>): Stats {
    var api := Count(rows, IsApiFailure);
    Stats(|rows|, Count(rows, IsPass), Count(rows, IsFail) - api, api,
          Count(rows, IsSkip), Count(rows, IsRetried), Count(rows, IsFlaky))
  }
}
