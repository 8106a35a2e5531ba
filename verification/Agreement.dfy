/** The Slack summary and the HTML report of one run.

    The generator promises that the two can not disagree.  This module says exactly when
    they do not, for every log and every interleaving, and derives from it that they
    never do as long as Playwright retries only tests that failed. */
module Agreement {
  import opened Attempts
  import opened Slack
  import opened Report
  import opened Sequences

  /** What a summary says about one test. */
  datatype Facts = Facts(passed: bool, failed: bool, apiFailed: bool, skipped: bool, retried: bool, recovered: bool)

  ghost function SlackFacts(runs: seq<Attempt>): Facts {
    var v := Judgement(runs);
    Facts(v.Green?, v.Red?, v.RedApi?, v.OnlySkipped?, WasRetried(runs), WasRetried(runs) && v.Green?)
  }

  function RowFacts(r: Row): Facts {
    Facts(r.status.Pass?, r.status.Fail? && !r.apiFailure, r.apiFailure, r.status.Skip?, r.retries > 0, r.flaky)
  }

  /** The attempts of a test are numbered 0, 1, 2, ... in the order in which they end. */
  ghost predicate Numbered(runs: seq<Attempt>) {
    forall i :: 0 <= i < |runs| ==> runs[i].retry == i
  }

  /** The last attempt that was not skipped, or -1. */
  ghost function LastRan(runs: seq<Attempt>): (i: int)
    ensures -1 <= i < |runs|
    ensures i >= 0 ==> !runs[i].status.Skipped?
    ensures forall k :: i < k < |runs| ==> runs[k].status.Skipped?
  {
    if runs == [] then -1
    else if !runs[|runs| - 1].status.Skipped? then |runs| - 1
    else LastRan(runs[..|runs| - 1])
  }

  /** The attempts on which the two summaries read the same.
      - A test does not end skipped after it passed.
      - A test that passed every time was not run twice.
      - If the attempt that decides carries a watcher error, its first error is one.
      - A test that was only ever skipped ends without a watcher error up front. */
  ghost predicate WellBehaved(runs: seq<Attempt>)
    requires runs != []
  {
    var d := LastRan(runs);
    if d < 0 then !runs[|runs| - 1].MarkedFirst()
    else if runs[d].status.Passed? then
      d == |runs| - 1 && (|runs| > 1 ==> exists i :: 0 <= i < |runs| && !runs[i].status.Passed?)
    else true in runs[d].errors ==> runs[d].MarkedFirst()
  }

  lemma {:induction false} JudgementIsLastRan(runs: seq<Attempt>)
    ensures Judgement(runs) ==
            if runs == [] then Unseen
            else if LastRan(runs) < 0 then OnlySkipped
            else JudgementNext(Unseen, runs[LastRan(runs)])
  {
    if runs != [] {
      JudgementIsLastRan(runs[..|runs| - 1]);
    }
  }

  /** The report judges a test by the same attempt, but looks for any failure before a
      final skip. */
  lemma FactsAgree(runs: seq<Attempt>)
    requires runs != [] && Numbered(runs)
    ensures RowFacts(Judge(Records(runs))) == SlackFacts(runs) <==> WellBehaved(runs)
    ensures RowFacts(Judge(Records(runs))).retried == SlackFacts(runs).retried
  {
    var rs := Records(runs);
    var n := |runs|;
    var d := LastRan(runs);
    var last := LastFailure(rs);
    JudgementIsLastRan(runs);
    assert WasRetried(runs) <==> n > 1 by {
      if n > 1 {
        assert runs[1].retry > 0;
      }
    }
    assert (exists r :: r in rs && !r.status.Pass?) <==> exists i :: 0 <= i < n && !runs[i].status.Passed? by {
      if i :| 0 <= i < n && !runs[i].status.Passed? {
        assert rs[i] in rs;
      }
    }
    assert runs[n - 1].status.Skipped? <==> d < n - 1;
    if d >= 0 {
      assert rs[d].status == Collapse(runs[d].status);
      if runs[d].Broke() {
        assert last == d;
      }
    } else {
      assert last < 0;
    }
  }

  // ----- from one test to the whole log -----

  /** Both reporters tell the tests of the log apart in the same way. */
  ghost predicate KeysAgree(log: seq<Attempt>) {
    forall a, b :: a in log && b in log ==> (a.slackId == b.slackId <==> a.Key() == b.Key())
  }

  ghost predicate AllNumbered(log: seq<Attempt>) {
    forall id :: id in Ids(log) ==> Numbered(Of(log, id))
  }

  lemma RecordsSnoc(log: seq<Attempt>, a: Attempt)
    ensures Records(log + [a]) == Records(log) + [ToRecord(a)]
  {
  }

  lemma {:induction false} SameAttempts(log: seq<Attempt>, id: string, key: string)
    requires forall b :: b in log ==> (b.slackId == id <==> b.Key() == key)
    ensures OfKey(Records(log), key) == Records(Of(log, id))
  {
    if log != [] {
      var before, a := log[..|log| - 1], log[|log| - 1];
      SameAttempts(before, id, key);
      assert log == before + [a];
      RecordsSnoc(before, a);
      OfKeySnoc(Records(before), ToRecord(a));
      RecordsSnoc(Of(before, id), a);
    }
  }

  /** The name Slack gives to the test that the report knows by `key`. */
  ghost function IdOf(log: seq<Attempt>, key: string): (id: string)
    requires key in Keys(Records(log))
    ensures exists a :: a in log && a.slackId == id && a.Key() == key
  {
    KeysCover(Records(log));
    var r :| r in Records(log) && r.Key() == key;
    var k :| 0 <= k < |log| && Records(log)[k] == r;
    assert log[k] in log;
    log[k].slackId
  }

  /** The tests in the order of the report, by the name Slack gives them. */
  ghost function FirstIds(log: seq<Attempt>): seq<string> {
    var ks := Keys(Records(log));
    seq(|ks|, i requires 0 <= i < |ks| => IdOf(log, ks[i]))
  }

  lemma FirstIdsCover(log: seq<Attempt>)
    requires KeysAgree(log)
    ensures var ids := FirstIds(log);
            && (forall i, j :: 0 <= i < j < |ids| ==> ids[i] != ids[j])
            && (forall id :: id in Ids(log) <==> id in ids)
  {
    var ids := FirstIds(log);
    var rs := Records(log);
    forall i, j | 0 <= i < j < |ids|
      ensures ids[i] != ids[j]
    {
      assert ids[i] == IdOf(log, Keys(rs)[i]) && ids[j] == IdOf(log, Keys(rs)[j]);
    }
    forall i | 0 <= i < |ids|
      ensures ids[i] in Ids(log)
    {
      assert ids[i] == IdOf(log, Keys(rs)[i]);
    }
    KeysCover(rs);
    forall id | id in Ids(log)
      ensures id in ids
    {
      var k :| 0 <= k < |log| && log[k].slackId == id;
      assert rs[k] in rs && rs[k].Key() == log[k].Key();
      var i :| 0 <= i < |Keys(rs)| && Keys(rs)[i] == log[k].Key();
      assert ids[i] == IdOf(log, Keys(rs)[i]) == id;
    }
  }

  /** Row i of the report is the verdict on test i of the Slack view. */
  lemma RowIsJudged(log: seq<Attempt>, rows: seq<Row>, i: nat)
    requires KeysAgree(log) && AllNumbered(log) && AreRows(Records(log), rows) && i < |rows|
    ensures var runs := Of(log, FirstIds(log)[i]);
            runs != [] && Numbered(runs) && rows[i] == Judge(Records(runs))
  {
    var id, key := FirstIds(log)[i], Keys(Records(log))[i];
    assert id == IdOf(log, key);
    var a :| a in log && a.slackId == id && a.Key() == key;
    SameAttempts(log, id, key);
    OfIsEmpty(log, id);
    assert id in Ids(log);
    SortedStays(Records(Of(log, id)));
  }

  /** Counting rows is measuring a set of tests. */
  lemma {:induction false} CountIsSize(rows: seq<Row>, ids: seq<string>, s: set<string>, p: Row -> bool)
    requires |rows| == |ids|
    requires forall i, j :: 0 <= i < j < |ids| ==> ids[i] != ids[j]
    requires forall id :: id in s ==> id in ids
    requires forall i :: 0 <= i < |rows| ==> (p(rows[i]) <==> ids[i] in s)
    ensures Count(rows, p) == |s|
  {
    if rows == [] {
      assert s == {};
    } else {
      var last := |rows| - 1;
      assert ids == ids[..last] + [ids[last]];
      CountIsSize(rows[..last], ids[..last], s - {ids[last]}, p);
      if p(rows[last]) {
        assert |s - {ids[last]}| == |s| - 1;
      } else {
        assert s - {ids[last]} == s;
      }
    }
  }

  /** The report and the Slack summary tell the same story about every test. */
  ghost predicate SameStory(log: seq<Attempt>, rows: seq<Row>) {
    && |rows| == |FirstIds(log)|
    && forall i :: 0 <= i < |rows| ==> RowFacts(rows[i]) == SlackFacts(Of(log, FirstIds(log)[i]))
  }

  /** They do so exactly on the logs whose every test is well behaved. */
  lemma SameStoryIff(log: seq<Attempt>, rows: seq<Row>)
    requires KeysAgree(log) && AllNumbered(log) && AreRows(Records(log), rows)
    ensures SameStory(log, rows)
       <==> forall id :: id in Ids(log) ==> Of(log, id) != [] && WellBehaved(Of(log, id))
  {
    var ids := FirstIds(log);
    FirstIdsCover(log);
    forall i | 0 <= i < |rows|
      ensures Of(log, ids[i]) != []
      ensures RowFacts(rows[i]) == SlackFacts(Of(log, ids[i])) <==> WellBehaved(Of(log, ids[i]))
    {
      RowIsJudged(log, rows, i);
      FactsAgree(Of(log, ids[i]));
    }
    if SameStory(log, rows) {
      forall id | id in Ids(log)
        ensures Of(log, id) != [] && WellBehaved(Of(log, id))
      {
        var i :| 0 <= i < |ids| && ids[i] == id;
      }
    } else {
      var i :| 0 <= i < |rows| && RowFacts(rows[i]) != SlackFacts(Of(log, ids[i]));
      assert ids[i] in Ids(log);
    }
  }

  /** The number of tests and of retried tests always agree. */
  lemma TotalsAgree(log: seq<Attempt>, rows: seq<Row>)
    requires KeysAgree(log) && AllNumbered(log) && AreRows(Records(log), rows)
    ensures Summarise(rows).total == |Ids(log)|
    ensures Summarise(rows).retried == |Retried(log)|
  {
    var ids := FirstIds(log);
    FirstIdsCover(log);
    forall i | 0 <= i < |rows|
      ensures rows[i].retries > 0 <==> ids[i] in Retried(log)
    {
      RowIsJudged(log, rows, i);
      FactsAgree(Of(log, ids[i]));
      assert ids[i] in ids;
    }
    CountIsSize(rows, ids, Retried(log), IsRetried);
    DistinctSize(ids, Ids(log));
  }

  lemma RowMatches(log: seq<Attempt>, rows: seq<Row>, i: nat)
    requires SameStory(log, rows) && i < |rows| && FirstIds(log)[i] in Ids(log)
    ensures var id, r := FirstIds(log)[i], rows[i];
            && (r.status.Pass? <==> id in With(log, Green))
            && (r.status.Skip? <==> id in With(log, OnlySkipped))
            && (r.status.Fail? <==> id in With(log, Red) + With(log, RedApi))
            && (r.apiFailure <==> id in With(log, RedApi))
            && (r.flaky <==> id in Retried(log) * With(log, Green))
  {
    OfIsEmpty(log, FirstIds(log)[i]);
    OnlySkippedMeans(Of(log, FirstIds(log)[i]));
  }

  lemma CountsMatch(log: seq<Attempt>, rows: seq<Row>)
    requires KeysAgree(log) && SameStory(log, rows)
    ensures var s := Summarise(rows);
            && s.passed == |With(log, Green)|
            && s.failed + s.apiFailures == |With(log, Red) + With(log, RedApi)|
            && s.apiFailures == |With(log, RedApi)|
            && s.skipped == |With(log, OnlySkipped)|
            && s.flaky == |Retried(log) * With(log, Green)|
  {
    var ids := FirstIds(log);
    FirstIdsCover(log);
    forall i | 0 <= i < |rows|
      ensures var id, r := ids[i], rows[i];
              && (r.status.Pass? <==> id in With(log, Green))
              && (r.status.Skip? <==> id in With(log, OnlySkipped))
              && (r.status.Fail? <==> id in With(log, Red) + With(log, RedApi))
              && (r.apiFailure <==> id in With(log, RedApi))
              && (r.flaky <==> id in Retried(log) * With(log, Green))
    {
      assert ids[i] in ids;
      RowMatches(log, rows, i);
    }
    CountIsSize(rows, ids, With(log, Green), IsPass);
    CountIsSize(rows, ids, With(log, Red) + With(log, RedApi), IsFail);
    CountIsSize(rows, ids, With(log, RedApi), IsApiFailure);
    CountIsSize(rows, ids, With(log, OnlySkipped), IsSkip);
    CountIsSize(rows, ids, Retried(log) * With(log, Green), IsFlaky);
  }

  /** The state of the streaming reporter and the totals of the batch report. */
  lemma SummariesAgree(slack: SlackReporter, rows: seq<Row>)
    requires slack.Valid()
    requires KeysAgree(slack.log) && AllNumbered(slack.log) && AreRows(Records(slack.log), rows)
    requires forall id :: id in Ids(slack.log) ==> Of(slack.log, id) != [] && WellBehaved(Of(slack.log, id))
    ensures Summarise(rows) == Stats(
                                 |slack.allTests|,
                                 |slack.passedTests|,
                                 |slack.failedTests|,
                                 |slack.apiFailedTests|,
                                 |slack.skippedTests|,
                                 |slack.retriedTests|,
                                 |slack.retriedTests * slack.passedTests|)
  {
    SameStoryIff(slack.log, rows);
    TotalsAgree(slack.log, rows);
    CountsMatch(slack.log, rows);
    Exclusive(slack);
  }

  // ----- when the promise holds, and when it does not -----

  /** Playwright's side of the bargain: only a failed attempt is retried, the watcher
      reports before anything else does, and it does not report on skipped tests. */
  ghost predicate RetriedOnlyAfterFailure(runs: seq<Attempt>) {
    && (forall i :: 0 <= i < |runs| - 1 ==> runs[i].Broke())
    && (forall i :: 0 <= i < |runs| && true in runs[i].errors ==> runs[i].MarkedFirst() && !runs[i].status.Skipped?)
  }

  lemma ContractSuffices(runs: seq<Attempt>)
    requires runs != [] && RetriedOnlyAfterFailure(runs)
    ensures WellBehaved(runs)
  {
    var last := runs[|runs| - 1];
    if |runs| > 1 {
      assert runs[|runs| - 2].Broke();
    }
    if last.MarkedFirst() {
      assert last.errors[0] in last.errors;
    }
  }

  /** Every test keeps to the contract. */
  ghost predicate ContractKept(log: seq<Attempt>) {
    forall id :: id in Ids(log) ==> RetriedOnlyAfterFailure(Of(log, id))
  }

  /** Under the contract a retried test failed before, so it is never only skipped. */
  lemma RetriedIsNotSkipped(log: seq<Attempt>)
    requires AllNumbered(log) && ContractKept(log)
    ensures Retried(log) !! With(log, OnlySkipped)
  {
    forall id | id in Retried(log)
      ensures id !in With(log, OnlySkipped)
    {
      var runs := Of(log, id);
      OnlySkippedMeans(runs);
      assert |runs| > 1 && runs[0].Broke();
    }
  }

  /** As long as Playwright keeps to the contract the two summaries cannot disagree, and
      every retried test is counted as passed or as failed on retry. */
  lemma SummariesCannotDisagree(slack: SlackReporter, rows: seq<Row>)
    requires slack.Valid()
    requires KeysAgree(slack.log) && AllNumbered(slack.log) && AreRows(Records(slack.log), rows)
    requires ContractKept(slack.log)
    ensures Summarise(rows) == Stats(
                                 |slack.allTests|,
                                 |slack.passedTests|,
                                 |slack.failedTests|,
                                 |slack.apiFailedTests|,
                                 |slack.skippedTests|,
                                 |slack.retriedTests|,
                                 |slack.retriedTests * slack.passedTests|)
    ensures slack.retriedTests <= slack.passedTests + slack.failedTests + slack.apiFailedTests
  {
    forall id | id in Ids(slack.log)
      ensures Of(slack.log, id) != [] && WellBehaved(Of(slack.log, id))
    {
      OfIsEmpty(slack.log, id);
      ContractSuffices(Of(slack.log, id));
    }
    SummariesAgree(slack, rows);
    RetriedIsNotSkipped(slack.log);
    Exclusive(slack);
  }

  /** A test that passed and was skipped when its serial group ran again: Slack keeps it
      as passed, the report files it under skipped. */
  lemma SkippedAfterPassing(runs: seq<Attempt>)
    requires |runs| == 2 && Numbered(runs) && runs[0].status.Passed? && runs[1].status.Skipped?
    ensures !WellBehaved(runs)
    ensures SlackFacts(runs).passed && RowFacts(Judge(Records(runs))).skipped
  {
    JudgementIsLastRan(runs);
    var rs := Records(runs);
    assert LastFailure(rs) == -1;
  }

  /** A test that passed and passed again when its serial group was retried: recovered on
      retry for Slack, not flaky for the report. */
  lemma PassedTwice(runs: seq<Attempt>)
    requires |runs| == 2 && Numbered(runs) && runs[0].status.Passed? && runs[1].status.Passed?
    ensures !WellBehaved(runs)
    ensures SlackFacts(runs).recovered && !RowFacts(Judge(Records(runs))).recovered
  {
    JudgementIsLastRan(runs);
    assert runs[1].retry == 1;
  }

  // ----- when the reporters tell tests apart alike -----

  /** The tests of a log, known by both names at once. */
  ghost function Tests(log: seq<Attempt>): set<(string, string)> {
    set a | a in log :: (a.slackId, a.Key())
  }

  ghost function KeySet(log: seq<Attempt>): set<string> {
    set a | a in log :: a.Key()
  }

  lemma KeysAreSet(log: seq<Attempt>)
    ensures |Keys(Records(log))| == |KeySet(log)|
  {
    var rs := Records(log);
    KeysCover(rs);
    forall key
      ensures key in KeySet(log) <==> key in Keys(rs)
    {
      if a :| a in log && a.Key() == key {
        var k :| 0 <= k < |log| && log[k] == a;
        assert rs[k] in rs;
      }
      if key in Keys(rs) {
        var a :| a in log && a.slackId == IdOf(log, key) && a.Key() == key;
      }
    }
    DistinctSize(Keys(rs), KeySet(log));
  }

  lemma IdSize(log: seq<Attempt>)
    ensures |Ids(log)| <= |Tests(log)|
    ensures |Ids(log)| == |Tests(log)| <==> OneKeyPerId(log)
  {
    var tests := Tests(log);
    var f := (t: (string, string)) => t.0;
    assert forall a :: a in log ==> (a.slackId, a.Key()) in tests;
    assert Image(tests, f) == Ids(log) by {
      forall a | a in log
        ensures a.slackId in Image(tests, f)
      {
        assert f((a.slackId, a.Key())) == a.slackId;
      }
    }
    ImageSize(tests, f);
    if OneKeyPerId(log) {
      assert Injective(tests, f);
    } else {
      var a, b :| a in log && b in log && a.slackId == b.slackId && a.Key() != b.Key();
      assert f((a.slackId, a.Key())) == f((b.slackId, b.Key()));
      assert !Injective(tests, f);
    }
  }

  lemma KeySize(log: seq<Attempt>)
    ensures |KeySet(log)| <= |Tests(log)|
    ensures |KeySet(log)| == |Tests(log)| <==> OneIdPerKey(log)
  {
    var tests := Tests(log);
    var f := (t: (string, string)) => t.1;
    assert forall a :: a in log ==> (a.slackId, a.Key()) in tests;
    assert Image(tests, f) == KeySet(log) by {
      forall a | a in log
        ensures a.Key() in Image(tests, f)
      {
        assert f((a.slackId, a.Key())) == a.Key();
      }
    }
    ImageSize(tests, f);
    if OneIdPerKey(log) {
      assert Injective(tests, f);
    } else {
      var a, b :| a in log && b in log && a.Key() == b.Key() && a.slackId != b.slackId;
      assert f((a.slackId, a.Key())) == f((b.slackId, b.Key()));
      assert !Injective(tests, f);
    }
  }

  ghost predicate OneKeyPerId(log: seq<Attempt>) {
    forall a, b :: a in log && b in log && a.slackId == b.slackId ==> a.Key() == b.Key()
  }

  ghost predicate OneIdPerKey(log: seq<Attempt>) {
    forall a, b :: a in log && b in log && a.Key() == b.Key() ==> a.slackId == b.slackId
  }

  /** Neither total exceeds the number of tests; both are exact if and only if the reporters
      tell the tests apart alike; and where one of them never merges two tests, the totals
      are equal only then. */
  lemma TotalsAgreeIff(log: seq<Attempt>, rows: seq<Row>)
    requires AreRows(Records(log), rows)
    ensures Summarise(rows).total <= |Tests(log)| && |Ids(log)| <= |Tests(log)|
    ensures Summarise(rows).total == |Tests(log)| == |Ids(log)| <==> KeysAgree(log)
    ensures OneKeyPerId(log) || OneIdPerKey(log) ==> (Summarise(rows).total == |Ids(log)| <==> KeysAgree(log))
  {
    KeysAreSet(log);
    IdSize(log);
    KeySize(log);
  }

  /** The attempts of one test, known by both its names. */
  ghost function OfTest(log: seq<Attempt>, test: (string, string)): seq<Attempt> {
    if log == [] then []
    else
      var before, a := OfTest(log[..|log| - 1], test), log[|log| - 1];
      if (a.slackId, a.Key()) == test then before + [a] else before
  }

  /** Playwright numbers the attempts of each test, whatever the reporters make of them. */
  ghost predicate TestsNumbered(log: seq<Attempt>) {
    forall t :: t in Tests(log) ==> Numbered(OfTest(log, t))
  }

  lemma {:induction false} OneNameSuffices(log: seq<Attempt>, id: string, key: string)
    requires forall b :: b in log ==> (b.slackId == id <==> b.Key() == key)
    ensures OfTest(log, (id, key)) == Of(log, id)
  {
    if log != [] {
      var before, a := log[..|log| - 1], log[|log| - 1];
      assert a in log && forall b :: b in before ==> b in log;
      OneNameSuffices(before, id, key);
    }
  }

  lemma NumberedPerName(log: seq<Attempt>)
    requires KeysAgree(log) && TestsNumbered(log)
    ensures AllNumbered(log)
  {
    forall id | id in Ids(log)
      ensures Numbered(Of(log, id))
    {
      var a :| a in log && a.slackId == id;
      OneNameSuffices(log, id, a.Key());
      assert (id, a.Key()) in Tests(log);
    }
  }

  /** The two summaries list every test once and say the same of it exactly if the reporters
      tell the tests apart alike and every test is well behaved. */
  lemma AgreementIff(log: seq<Attempt>, rows: seq<Row>)
    requires TestsNumbered(log) && AreRows(Records(log), rows)
    ensures Summarise(rows).total == |Tests(log)| == |Ids(log)| && SameStory(log, rows)
       <==> KeysAgree(log) && forall id :: id in Ids(log) ==> Of(log, id) != [] && WellBehaved(Of(log, id))
  {
    TotalsAgreeIff(log, rows);
    if KeysAgree(log) {
      NumberedPerName(log);
      SameStoryIff(log, rows);
    }
  }

  // ----- how the reporters name a test -----

  function Joined(parts: seq<string>, separator: string): string {
    if parts == [] then ""
    else if |parts| == 1 then parts[0]
    else parts[0] + separator + Joined(parts[1..], separator)
  }

  function NotEmpty(parts: seq<string>): seq<string> {
    if parts == [] then []
    else if parts[0] == "" then NotEmpty(parts[1..])
    else [parts[0]] + NotEmpty(parts[1..])
  }

  function SlackName(titlePath: seq<string>): string {
    Joined(titlePath, " > ")
  }

  /** Without the root, the project and the file.  Where nothing is left the title is used,
      which is empty then. */
  function ReportName(titlePath: seq<string>): string {
    if |titlePath| <= 3 then "" else Joined(NotEmpty(titlePath[3..]), " - ")
  }

  /** The describe blocks a test is in, then its own title. */
  function TitlePath(project: string, file: string, titles: seq<string>): seq<string> {
    ["", project, file] + titles
  }

  lemma JoinedCons(first: string, rest: seq<string>, separator: string)
    requires rest != []
    ensures Joined([first] + rest, separator) == first + separator + Joined(rest, separator)
  {
    assert ([first] + rest)[1..] == rest;
  }

  lemma {:induction false} NotEmptyKeeps(parts: seq<string>)
    requires "" !in parts
    ensures NotEmpty(parts) == parts
  {
    if parts != [] {
      NotEmptyKeeps(parts[1..]);
    }
  }

  lemma Names(project: string, file: string, titles: seq<string>)
    requires titles != [] && "" !in titles
    ensures var path := TitlePath(project, file, titles);
            && SlackName(path) == "" + " > " + (project + " > " + (file + " > " + Joined(titles, " > ")))
            && ReportName(path) == Joined(titles, " - ")
  {
    var path := TitlePath(project, file, titles);
    assert path == [""] + ([project] + ([file] + titles));
    JoinedCons(file, titles, " > ");
    JoinedCons(project, [file] + titles, " > ");
    JoinedCons("", [project] + ([file] + titles), " > ");
    assert path[3..] == titles;
    NotEmptyKeeps(titles);
  }

  lemma JoinedPair(group: string, title: string, separator: string)
    ensures Joined([group, title], separator) == group + separator + title
  {
    JoinedCons(group, [title], separator);
    assert [group] + [title] == [group, title];
  }

  lemma PairNames(project: string, file: string, group: string, title: string)
    requires group != "" && title != ""
    ensures var path := TitlePath(project, file, [group, title]);
            && SlackName(path) == "" + " > " + (project + " > " + (file + " > " + (group + " > " + title)))
            && ReportName(path) == group + " - " + title
  {
    Names(project, file, [group, title]);
    JoinedPair(group, title, " > ");
    JoinedPair(group, title, " - ");
    assert group + (" > " + title) == group + " > " + title;
  }

  /** The two joined forms differ just where a separator stands, first after the first title. */
  lemma FirstSeparator(xs: seq<string>)
    requires xs != []
    ensures var a, b, k := Joined(xs, " > "), Joined(xs, " - "), |xs[0]|;
            && xs[0] <= a && xs[0] <= b
            && (|xs| == 1 ==> a == b == xs[0])
            && (|xs| > 1 ==> |a| > k + 2 && |b| > k + 2 && a[k] == b[k] == ' ' && a[k + 1] == '>' && b[k + 1] == '-'
                             && a[k + 3..] == Joined(xs[1..], " > ") && b[k + 3..] == Joined(xs[1..], " - "))
  {
  }

  lemma SameFirst(xs: seq<string>, ys: seq<string>)
    requires xs != [] && ys != []
    requires Joined(xs, " > ") == Joined(ys, " > ") && Joined(xs, " - ") == Joined(ys, " - ")
    ensures (|xs| > 1 ==> |ys| > 1 && |ys[0]| <= |xs[0]|)
  {
    FirstSeparator(xs);
    FirstSeparator(ys);
    if |xs| > 1 {
      var a, b, k := Joined(xs, " > "), Joined(xs, " - "), |xs[0]| + 1;
      assert a[k] != b[k];
      assert forall i :: 0 <= i < |ys[0]| ==> a[i] == ys[0][i] == b[i];
    }
  }

  /** Together the two joined forms determine the titles, whatever is in them. */
  lemma {:induction false} TitlesDetermined(xs: seq<string>, ys: seq<string>)
    requires xs != [] && ys != []
    requires Joined(xs, " > ") == Joined(ys, " > ") && Joined(xs, " - ") == Joined(ys, " - ")
    ensures xs == ys
  {
    SameFirst(xs, ys);
    SameFirst(ys, xs);
    FirstSeparator(xs);
    FirstSeparator(ys);
    assert xs[0] == ys[0];
    if |xs| > 1 {
      TitlesDetermined(xs[1..], ys[1..]);
    }
    assert xs == [xs[0]] + xs[1..] && ys == [ys[0]] + ys[1..];
  }

  lemma NamesDetermine(project: string, file: string, xs: seq<string>, ys: seq<string>)
    requires xs != [] && "" !in xs && ys != [] && "" !in ys
    ensures var p, q := TitlePath(project, file, xs), TitlePath(project, file, ys);
            SlackName(p) == SlackName(q) && ReportName(p) == ReportName(q) <==> xs == ys
  {
    var p, q := TitlePath(project, file, xs), TitlePath(project, file, ys);
    Names(project, file, xs);
    Names(project, file, ys);
    if SlackName(p) == SlackName(q) && ReportName(p) == ReportName(q) {
      var k := |"" + " > " + (project + " > " + (file + " > "))|;
      assert SlackName(p)[k..] == Joined(xs, " > ") && SlackName(q)[k..] == Joined(ys, " > ");
      TitlesDetermined(xs, ys);
    }
  }

  lemma SameSuite(a: Attempt, b: Attempt)
    requires ':' !in a.suite && ':' !in b.suite && a.Key() == b.Key()
    ensures a.suite == b.suite && a.name == b.name
  {
    var n, m := |a.suite|, |b.suite|;
    assert a.Key()[n] == ':' && b.Key()[m] == ':';
    assert forall i :: 0 <= i < n ==> a.Key()[i] == a.suite[i] && a.suite[i] in a.suite;
    assert forall i :: 0 <= i < m ==> b.Key()[i] == b.suite[i] && b.suite[i] in b.suite;
    assert a.Key()[..n] == a.suite && b.Key()[..m] == b.suite;
    assert a.Key()[n + 2..] == a.name && b.Key()[m + 2..] == b.name;
  }

  /** Within a project the two names together tell tests apart: they are equal only for one
      file and one list of titles. */
  lemma TestIsItsPath(project: string, file: string, xs: seq<string>, file': string, ys: seq<string>,
                      a: Attempt, b: Attempt)
    requires xs != [] && "" !in xs && ys != [] && "" !in ys
    requires var path := TitlePath(project, file, xs); a.slackId == SlackName(path) && a.name == ReportName(path)
    requires var path := TitlePath(project, file', ys); b.slackId == SlackName(path) && b.name == ReportName(path)
    requires ':' !in a.suite && ':' !in b.suite && (a.suite == b.suite <==> file == file')
    ensures (a.slackId, a.Key()) == (b.slackId, b.Key()) <==> file == file' && xs == ys
  {
    NamesDetermine(project, file, xs, ys);
    if (a.slackId, a.Key()) == (b.slackId, b.Key()) {
      SameSuite(a, b);
    }
  }

  lemma PartedAtDash(project: string, file: string, x: string, y: string, z: string)
    requires x != "" && z != ""
    ensures var p := TitlePath(project, file, [x + " - " + y, z]);
            var q := TitlePath(project, file, [x, y + " - " + z]);
            ReportName(p) == ReportName(q) && SlackName(p) != SlackName(q)
  {
    PairNames(project, file, x + " - " + y, z);
    PairNames(project, file, x, y + " - " + z);
    assert (x + " - " + y) + " - " + z == x + " - " + (y + " - " + z);
    assert |x + " - " + y| != |x|;
    NamesDetermine(project, file, [x + " - " + y, z], [x, y + " - " + z]);
  }

  lemma PartedAtArrow(project: string, file: string, x: string, y: string, z: string)
    requires x != "" && z != ""
    ensures var p := TitlePath(project, file, [x + " > " + y, z]);
            var q := TitlePath(project, file, [x, y + " > " + z]);
            ReportName(p) != ReportName(q) && SlackName(p) == SlackName(q)
  {
    PairNames(project, file, x + " > " + y, z);
    PairNames(project, file, x, y + " > " + z);
    assert (x + " > " + y) + " > " + z == x + " > " + (y + " > " + z);
    assert |x + " > " + y| != |x|;
    NamesDetermine(project, file, [x + " > " + y, z], [x, y + " > " + z]);
  }

  /** Two tests whose groups and titles part the same words in different places, as "A - B"
      with "C" and "A" with "B - C": one row for the report, two tests for Slack. */
  lemma OneRowTwoTests(project: string, file: string, x: string, y: string, z: string,
                       a: Attempt, b: Attempt, rows: seq<Row>)
    requires x != "" && z != ""
    requires var path := TitlePath(project, file, [x + " - " + y, z]);
             a.slackId == SlackName(path) && a.name == ReportName(path)
    requires var path := TitlePath(project, file, [x, y + " - " + z]);
             b.slackId == SlackName(path) && b.name == ReportName(path)
    requires a.suite == b.suite && AreRows(Records([a, b]), rows)
    ensures !KeysAgree([a, b])
    ensures Summarise(rows).total == 1 && |Ids([a, b])| == 2
  {
    PartedAtDash(project, file, x, y, z);
    Merged(a, b);
    KeysAreSet([a, b]);
  }

  /** The other way round, "A > B" with "C" and "A" with "B > C": two rows, one test. */
  lemma TwoRowsOneTest(project: string, file: string, x: string, y: string, z: string,
                       a: Attempt, b: Attempt, rows: seq<Row>)
    requires x != "" && z != ""
    requires var path := TitlePath(project, file, [x + " > " + y, z]);
             a.slackId == SlackName(path) && a.name == ReportName(path)
    requires var path := TitlePath(project, file, [x, y + " > " + z]);
             b.slackId == SlackName(path) && b.name == ReportName(path)
    requires a.suite == b.suite && AreRows(Records([a, b]), rows)
    ensures !KeysAgree([a, b])
    ensures Summarise(rows).total == 2 && |Ids([a, b])| == 1
    ensures a.retry == b.retry == 0 ==> TestsNumbered([a, b])
  {
    PartedAtArrow(project, file, x, y, z);
    assert a.Key() != b.Key() by {
      assert a.Key()[|a.suite| + 2..] == a.name && b.Key()[|a.suite| + 2..] == b.name;
    }
    Merged(a, b);
    KeysAreSet([a, b]);
    if a.retry == b.retry == 0 {
      FirstAttempts(a, b);
    }
  }

  /** First attempts of two tests are numbered, though both may carry one Slack name. */
  lemma FirstAttempts(a: Attempt, b: Attempt)
    requires a.Key() != b.Key() && a.retry == b.retry == 0
    ensures TestsNumbered([a, b])
  {
    var log := [a, b];
    assert log[..1] == [a] && [a][..0] == [];
    forall t | t in Tests(log)
      ensures Numbered(OfTest(log, t))
    {
      assert OfTest([a], t) == if (a.slackId, a.Key()) == t then [a] else [];
    }
  }

  lemma Merged(a: Attempt, b: Attempt)
    ensures Ids([a, b]) == {a.slackId, b.slackId} && KeySet([a, b]) == {a.Key(), b.Key()}
  {
    assert forall x :: x in [a, b] <==> x == a || x == b;
  }
}
