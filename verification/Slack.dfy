/** app-e2e-tests/notifications/SlackReporter.ts: a state machine that follows the tests
    as their attempts end, in any interleaving. */
module Slack {
  import opened Attempts

  datatype Alert = FailAlert(id: string) | SkipAlert(id: string)

  /** The tests of a log that currently have a given verdict. */
  ghost function With(log: seq<Attempt>, v: Verdict): set<string> {
    set id | id in Ids(log) && Judgement(Of(log, id)) == v
  }

  ghost predicate WasRetried(runs: seq<Attempt>) {
    exists i :: 0 <= i < |runs| && runs[i].retry > 0
  }

  ghost function Retried(log: seq<Attempt>): set<string> {
    set id | id in Ids(log) && WasRetried(Of(log, id))
  }

  predicate RaisesAlarm(a: Attempt) {
    (a.status.Failed? || a.status.TimedOut?) && !a.IsApiFailure()
  }

  /** Some attempt failed, other than by being interrupted or through the API. */
  ghost predicate DeservesFailAlert(runs: seq<Attempt>) {
    exists i :: 0 <= i < |runs| && RaisesAlarm(runs[i])
  }

  /** The test was skipped for an unmuted reason before it ever did anything else. */
  ghost predicate DeservesSkipAlert(runs: seq<Attempt>) {
    exists i :: 0 <= i < |runs| && !runs[i].muted && AllSkipped(runs[..i + 1])
  }

  ghost function FailAlertsDue(log: seq<Attempt>, webhook: bool): set<string> {
    set id | id in Ids(log) && webhook && DeservesFailAlert(Of(log, id))
  }

  ghost function SkipAlertsDue(log: seq<Attempt>, webhook: bool): set<string> {
    set id | id in Ids(log) && webhook && DeservesSkipAlert(Of(log, id))
  }

  /** The eight sets the reporter keeps. */
  datatype Tracking = Tracking(
    all: set<string>,
    passed: set<string>,
    failed: set<string>,
    apiFailed: set<string>,
    skipped: set<string>,
    retried: set<string>,
    failAlerted: set<string>,
    skipAlerted: set<string>)

  /** What the sets should be, read off the whole log. */
  ghost function Tracked(log: seq<Attempt>, webhook: bool): Tracking {
    Tracking(Ids(log), With(log, Green), With(log, Red), With(log, RedApi), With(log, OnlySkipped),
             Retried(log), FailAlertsDue(log, webhook), SkipAlertsDue(log, webhook))
  }

  ghost function AddIf(s: set<string>, id: string, b: bool): set<string> {
    if b then s + {id} else s
  }

  ghost function Put(s: set<string>, id: string, b: bool): set<string> {
    if b then s + {id} else s - {id}
  }

  /** What one attempt does to the sets. */
  ghost function Follow(t: Tracking, webhook: bool, a: Attempt): Tracking {
    var id := a.slackId;
    var retried := AddIf(t.retried, id, a.retry > 0);
    if a.status.Skipped? then
      var undecided := id !in t.passed && id !in t.failed && id !in t.apiFailed;
      Tracking(t.all + {id}, t.passed, t.failed, t.apiFailed, AddIf(t.skipped, id, undecided), retried,
               t.failAlerted, AddIf(t.skipAlerted, id, undecided && webhook && !a.muted))
    else
      Tracking(t.all + {id},
               Put(t.passed, id, a.status.Passed?),
               Put(t.failed, id, a.Broke() && !a.IsApiFailure()),
               Put(t.apiFailed, id, a.IsApiFailure()),
               t.skipped - {id}, retried,
               AddIf(t.failAlerted, id, webhook && RaisesAlarm(a)), t.skipAlerted)
  }

  /** The alerts posted are those recorded as sent, each once. */
  ghost predicate PostedOnce(outbox: seq<Alert>, failSent: set<string>, skipSent: set<string>) {
    && (forall id :: FailAlert(id) in outbox <==> id in failSent)
    && (forall id :: SkipAlert(id) in outbox <==> id in skipSent)
    && (forall i, j :: 0 <= i < j < |outbox| ==> outbox[i] != outbox[j])
  }

  class SlackReporter {
    var allTests: set<string>
    var passedTests: set<string>
    var failedTests: set<string>
    var skippedTests: set<string>
    var retriedTests: set<string>
    var apiFailedTests: set<string>
    var failAlertSent: set<string>
    var skipAlertSent: set<string>
    /** What was posted as instant alerts. */
    var outbox: seq<Alert>
    /** A webhook is configured. */
    const webhook: bool
    ghost var log: seq<Attempt>

    ghost function Sets(): Tracking
      reads this
    {
      Tracking(allTests, passedTests, failedTests, apiFailedTests, skippedTests, retriedTests,
               failAlertSent, skipAlertSent)
    }

    /** Every tracked set is what the attempts so far make of it, whatever their order. */
    ghost predicate Valid()
      reads this
    {
      Sets() == Tracked(log, webhook) && PostedOnce(outbox, failAlertSent, skipAlertSent)
    }

    constructor (webhook: bool)
      ensures Valid() && log == [] && this.webhook == webhook
    {
      allTests, passedTests, failedTests, skippedTests := {}, {}, {}, {};
      retriedTests, apiFailedTests, failAlertSent, skipAlertSent := {}, {}, {}, {};
      outbox := [];
      this.webhook := webhook;
      log := [];
    }

    method OnTestEnd(a: Attempt)
      requires Valid()
      modifies this
      ensures Valid() && log == old(log) + [a]
    {
      FollowTracks(log, webhook, a);
      Track(a);
      log := log + [a];
    }

    method Track(a: Attempt)
      requires PostedOnce(outbox, failAlertSent, skipAlertSent)
      modifies this
      ensures Sets() == Follow(old(Sets()), webhook, a) && log == old(log)
      ensures PostedOnce(outbox, failAlertSent, skipAlertSent)
    {
      var id := a.slackId;
      allTests := allTests + {id};
      if a.retry > 0 {
        retriedTests := retriedTests + {id};
      }
      match a.status {
        case Passed =>
          passedTests := passedTests + {id};
          failedTests := failedTests - {id};
          skippedTests := skippedTests - {id};
          apiFailedTests := apiFailedTests - {id};
        case Skipped =>
          if id !in passedTests && id !in failedTests && id !in apiFailedTests {
            skippedTests := skippedTests + {id};
            SendSkippedAlert(a);
          }
        case _ =>
          passedTests := passedTests - {id};
          skippedTests := skippedTests - {id};
          TrackFailure(a);
      }
    }

    /** Through the API or otherwise; only the latter sets off an alert. */
    method TrackFailure(a: Attempt)
      requires PostedOnce(outbox, failAlertSent, skipAlertSent) && a.Broke()
      modifies this`failedTests, this`apiFailedTests, this`failAlertSent, this`outbox
      ensures failedTests == Put(old(failedTests), a.slackId, !a.IsApiFailure())
      ensures apiFailedTests == Put(old(apiFailedTests), a.slackId, a.IsApiFailure())
      ensures failAlertSent == AddIf(old(failAlertSent), a.slackId, webhook && RaisesAlarm(a))
      ensures PostedOnce(outbox, failAlertSent, skipAlertSent)
    {
      var id := a.slackId;
      if a.IsApiFailure() {
        apiFailedTests := apiFailedTests + {id};
        failedTests := failedTests - {id};
      } else {
        failedTests := failedTests + {id};
        apiFailedTests := apiFailedTests - {id};
        SendFailureAlert(a);
      }
    }

    method SendFailureAlert(a: Attempt)
      requires PostedOnce(outbox, failAlertSent, skipAlertSent)
      modifies this`failAlertSent, this`outbox
      ensures failAlertSent
           == AddIf(old(failAlertSent), a.slackId, webhook && (a.status.Failed? || a.status.TimedOut?))
      ensures outbox == old(outbox) + if failAlertSent == old(failAlertSent) then [] else [FailAlert(a.slackId)]
      ensures PostedOnce(outbox, failAlertSent, skipAlertSent)
    {
      if !webhook { return; }
      if !(a.status.Failed? || a.status.TimedOut?) { return; }
      if a.slackId in failAlertSent {
        assert failAlertSent == failAlertSent + {a.slackId};
        return;
      }
      failAlertSent := failAlertSent + {a.slackId};
      outbox := outbox + [FailAlert(a.slackId)];
    }

    method SendSkippedAlert(a: Attempt)
      requires PostedOnce(outbox, failAlertSent, skipAlertSent)
      modifies this`skipAlertSent, this`outbox
      ensures skipAlertSent == AddIf(old(skipAlertSent), a.slackId, webhook && !a.muted)
      ensures outbox == old(outbox) + if skipAlertSent == old(skipAlertSent) then [] else [SkipAlert(a.slackId)]
      ensures PostedOnce(outbox, failAlertSent, skipAlertSent)
    {
      if !webhook { return; }
      if a.slackId in skipAlertSent {
        assert skipAlertSent == skipAlertSent + {a.slackId};
        return;
      }
      if a.muted { return; }
      skipAlertSent := skipAlertSent + {a.slackId};
      outbox := outbox + [SkipAlert(a.slackId)];
    }

    /** The retry figures of the summary. */
    method RetryOutcomes() returns (passed: nat, failed: nat)
      requires Valid()
      ensures passed == |retriedTests * passedTests|
      ensures failed == |retriedTests * (failedTests + apiFailedTests)|
      ensures |retriedTests| == passed + failed + |retriedTests * skippedTests|
    {
      Exclusive(this);
      passed, failed := CountOutcomes(retriedTests, passedTests, failedTests + apiFailedTests);
      SplitThree(retriedTests, passedTests, failedTests + apiFailedTests, skippedTests);
    }
  }

  method CountOutcomes(retried: set<string>, green: set<string>, red: set<string>) returns (passed: nat, failed: nat)
    requires green !! red
    ensures passed == |retried * green| && failed == |retried * red|
  {
    passed, failed := 0, 0;
    var todo := retried;
    ghost var done := {};
    while todo != {}
      invariant done + todo == retried && done !! todo
      invariant passed == |done * green| && failed == |done * red|
      decreases todo
    {
      var id :| id in todo;
      IntersectAdd(done, id, green);
      IntersectAdd(done, id, red);
      todo, done := todo - {id}, done + {id};
      if id in green {
        passed := passed + 1;
      } else if id in red {
        failed := failed + 1;
      }
    }
    assert done == retried;
  }

  lemma IntersectAdd<T>(s: set<T>, x: T, t: set<T>)
    requires x !in s
    ensures |(s + {x}) * t| == |s * t| + if x in t then 1 else 0
  {
    if x in t {
      assert (s + {x}) * t == s * t + {x};
    } else {
      assert (s + {x}) * t == s * t;
    }
  }

  lemma SplitThree<T>(s: set<T>, a: set<T>, b: set<T>, c: set<T>)
    requires a !! b && (a + b) !! c && s <= a + b + c
    ensures |s| == |s * a| + |s * b| + |s * c|
  {
    assert s == s * a + s * b + s * c;
    assert |s * a + s * b| == |s * a| + |s * b|;
  }

  /** Every reachable state sorts the tests seen into four disjoint sets. */
  lemma Exclusive(r: SlackReporter)
    requires r.Valid()
    ensures r.passedTests !! r.failedTests !! r.apiFailedTests !! r.skippedTests
    ensures r.allTests == r.passedTests + r.failedTests + r.apiFailedTests + r.skippedTests
    ensures r.retriedTests <= r.allTests
  {
    forall id | id in Ids(r.log)
      ensures !Judgement(Of(r.log, id)).Unseen?
    {
      OfIsEmpty(r.log, id);
      OnlySkippedMeans(Of(r.log, id));
    }
  }

  /** How one more attempt moves its own test, and no other, between the verdicts. */
  lemma VerdictEffect(log: seq<Attempt>, a: Attempt, v: Verdict)
    requires !v.Unseen?
    ensures With(log + [a], v)
         == Put(With(log, v), a.slackId, JudgementNext(Judgement(Of(log, a.slackId)), a) == v)
  {
    IdsSnoc(log, a);
    forall id
      ensures id in With(log + [a], v)
         <==> id in Put(With(log, v), a.slackId, JudgementNext(Judgement(Of(log, a.slackId)), a) == v)
    {
      OfSnoc(log, a, id);
      if id == a.slackId {
        JudgementSnoc(Of(log, id), a);
      }
    }
  }

  /** How it changes the retried tests and the alerts that are due. */
  lemma RetriedEffect(log: seq<Attempt>, a: Attempt)
    ensures Retried(log + [a]) == AddIf(Retried(log), a.slackId, a.retry > 0)
  {
    IdsSnoc(log, a);
    OfIsEmpty(log, a.slackId);
    SnocExists(Of(log, a.slackId), a);
    forall id
      ensures id in Retried(log + [a]) <==> id in AddIf(Retried(log), a.slackId, a.retry > 0)
    {
      OfSnoc(log, a, id);
    }
  }

  lemma FailAlertEffect(log: seq<Attempt>, webhook: bool, a: Attempt)
    ensures FailAlertsDue(log + [a], webhook)
         == AddIf(FailAlertsDue(log, webhook), a.slackId, webhook && RaisesAlarm(a))
  {
    IdsSnoc(log, a);
    OfIsEmpty(log, a.slackId);
    SnocExists(Of(log, a.slackId), a);
    forall id
      ensures id in FailAlertsDue(log + [a], webhook)
         <==> id in AddIf(FailAlertsDue(log, webhook), a.slackId, webhook && RaisesAlarm(a))
    {
      OfSnoc(log, a, id);
    }
  }

  lemma SkipAlertEffect(log: seq<Attempt>, webhook: bool, a: Attempt)
    ensures SkipAlertsDue(log + [a], webhook)
         == AddIf(SkipAlertsDue(log, webhook), a.slackId,
                  webhook && !a.muted && a.status.Skipped? && AllSkipped(Of(log, a.slackId)))
  {
    var skips := webhook && !a.muted && a.status.Skipped? && AllSkipped(Of(log, a.slackId));
    IdsSnoc(log, a);
    OfIsEmpty(log, a.slackId);
    SnocExists(Of(log, a.slackId), a);
    forall id
      ensures id in SkipAlertsDue(log + [a], webhook) <==> id in AddIf(SkipAlertsDue(log, webhook), a.slackId, skips)
    {
      OfSnoc(log, a, id);
    }
  }

  lemma UndecidedMeans(log: seq<Attempt>, id: string)
    ensures AllSkipped(Of(log, id)) <==> id !in With(log, Green) && id !in With(log, Red) && id !in With(log, RedApi)
  {
    OfIsEmpty(log, id);
    OnlySkippedMeans(Of(log, id));
  }

  /** The moves of a test between the four sets when it was skipped ... */
  lemma SkipMoves(log: seq<Attempt>, a: Attempt)
    requires a.status.Skipped?
    ensures With(log + [a], Green) == With(log, Green)
    ensures With(log + [a], Red) == With(log, Red)
    ensures With(log + [a], RedApi) == With(log, RedApi)
    ensures With(log + [a], OnlySkipped) == AddIf(With(log, OnlySkipped), a.slackId, AllSkipped(Of(log, a.slackId)))
  {
    VerdictEffect(log, a, Green);
    VerdictEffect(log, a, Red);
    VerdictEffect(log, a, RedApi);
    VerdictEffect(log, a, OnlySkipped);
    OfIsEmpty(log, a.slackId);
    OnlySkippedMeans(Of(log, a.slackId));
  }

  /** ... and when it ran. */
  lemma RunMoves(log: seq<Attempt>, a: Attempt)
    requires !a.status.Skipped?
    ensures With(log + [a], Green) == Put(With(log, Green), a.slackId, a.status.Passed?)
    ensures With(log + [a], Red) == Put(With(log, Red), a.slackId, a.Broke() && !a.IsApiFailure())
    ensures With(log + [a], RedApi) == Put(With(log, RedApi), a.slackId, a.IsApiFailure())
    ensures With(log + [a], OnlySkipped) == With(log, OnlySkipped) - {a.slackId}
  {
    VerdictEffect(log, a, Green);
    VerdictEffect(log, a, Red);
    VerdictEffect(log, a, RedApi);
    VerdictEffect(log, a, OnlySkipped);
  }

  /** Following the attempts one by one is reading the log as a whole. */
  lemma FollowTracks(log: seq<Attempt>, webhook: bool, a: Attempt)
    ensures Tracked(log + [a], webhook) == Follow(Tracked(log, webhook), webhook, a)
  {
    IdsSnoc(log, a);
    UndecidedMeans(log, a.slackId);
    if a.status.Skipped? {
      SkipMoves(log, a);
    } else {
      RunMoves(log, a);
    }
    RetriedEffect(log, a);
    FailAlertEffect(log, webhook, a);
    SkipAlertEffect(log, webhook, a);
  }

  lemma SnocExists(was: seq<Attempt>, a: Attempt)
    ensures var now := was + [a];
            && (WasRetried(now) <==> WasRetried(was) || a.retry > 0)
            && (DeservesFailAlert(now) <==> DeservesFailAlert(was) || RaisesAlarm(a))
            && (DeservesSkipAlert(now) <==>
                DeservesSkipAlert(was) || (a.status.Skipped? && !a.muted && AllSkipped(was)))
  {
    var now := was + [a];
    assert now[|was|] == a;
    assert forall i :: 0 <= i < |was| ==> now[i] == was[i] && now[..i + 1] == was[..i + 1];
    assert now[..|was| + 1] == now;
    assert AllSkipped(now) <==> AllSkipped(was) && a.status.Skipped?;
  }

  /** Each test sets off at most one alert of each kind, however often it is retried. */
  lemma AtMostOneAlertEach(r: SlackReporter, i: nat, j: nat)
    requires r.Valid() && i < |r.outbox| && j < |r.outbox| && r.outbox[i] == r.outbox[j]
    ensures i == j
    ensures r.outbox[i].id in r.allTests && r.webhook
    ensures r.outbox[i].FailAlert? ==> DeservesFailAlert(Of(r.log, r.outbox[i].id))
    ensures r.outbox[i].SkipAlert? ==> DeservesSkipAlert(Of(r.log, r.outbox[i].id))
  {
    var x := r.outbox[i];
    assert x in r.outbox;
    assert x == if x.FailAlert? then FailAlert(x.id) else SkipAlert(x.id);
  }

  // ----- the sets and the alerts, read off the attempts one by one -----

  /** Attempt `k` of the log is one of the test, and `p` holds of it. */
  ghost predicate At(log: seq<Attempt>, id: string, k: int, p: Attempt -> bool) {
    0 <= k < |log| && log[k].slackId == id && p(log[k])
  }

  /** From attempt `from` on, the test was only skipped. */
  ghost predicate SkippedFrom(log: seq<Attempt>, id: string, from: int) {
    forall j :: from <= j < |log| && 0 <= j && log[j].slackId == id ==> log[j].status == Skipped
  }

  /** Up to attempt `k`, the test was only skipped. */
  ghost predicate SkippedUpTo(log: seq<Attempt>, id: string, k: int) {
    forall j :: 0 <= j <= k && j < |log| && log[j].slackId == id ==> log[j].status == Skipped
  }

  lemma {:induction false} SomeAttempt(log: seq<Attempt>, id: string, p: Attempt -> bool)
    ensures (exists k :: At(log, id, k, p)) <==> exists i :: 0 <= i < |Of(log, id)| && p(Of(log, id)[i])
  {
    if log != [] {
      var before, a := log[..|log| - 1], log[|log| - 1];
      SomeAttempt(before, id, p);
      var was, now := Of(before, id), Of(log, id);
      if k :| At(before, id, k, p) {
        assert At(log, id, k, p);
      }
      if k :| At(log, id, k, p) {
        assert k < |before| ==> At(before, id, k, p);
      }
      if a.slackId == id {
        assert now == was + [a];
        assert forall i :: 0 <= i < |was| ==> now[i] == was[i];
        if p(a) {
          assert At(log, id, |before|, p) && p(now[|was|]);
        }
      }
    }
  }

  lemma {:induction false} OnlySkips(log: seq<Attempt>, id: string)
    ensures AllSkipped(Of(log, id)) <==> SkippedFrom(log, id, 0)
  {
    if log != [] {
      var before, a := log[..|log| - 1], log[|log| - 1];
      OnlySkips(before, id);
      var was, now := Of(before, id), Of(log, id);
      assert SkippedFrom(log, id, 0)
        <==> SkippedFrom(before, id, 0) && (a.slackId == id ==> a.status == Skipped) by {
        assert forall j :: 0 <= j < |before| ==> log[j] == before[j];
      }
      if a.slackId == id {
        assert now == was + [a] && now[|was|] == a;
        assert forall i :: 0 <= i < |was| ==> now[i] == was[i];
      }
    }
  }

  /** The attempt of a test that decides: it was not skipped, and all later ones were. */
  ghost predicate Decides(log: seq<Attempt>, id: string, k: int) {
    0 <= k < |log| && log[k].slackId == id && log[k].status != Skipped && SkippedFrom(log, id, k + 1)
  }

  lemma DecidesSnoc(log: seq<Attempt>, a: Attempt, id: string, k: int)
    requires k < |log|
    ensures Decides(log + [a], id, k) <==> Decides(log, id, k) && (a.slackId == id ==> a.status == Skipped)
  {
    var all := log + [a];
    assert all[|log|] == a && forall j :: 0 <= j < |log| ==> all[j] == log[j];
  }

  lemma {:induction false} JudgedByDecider(log: seq<Attempt>, id: string, k: int)
    requires Decides(log, id, k)
    ensures Judgement(Of(log, id)) == JudgementNext(Unseen, log[k])
  {
    var before, a := log[..|log| - 1], log[|log| - 1];
    assert log == before + [a];
    OfSnoc(before, a, id);
    if a.slackId == id {
      JudgementSnoc(Of(before, id), a);
    }
    if k < |before| {
      DecidesSnoc(before, a, id, k);
      JudgedByDecider(before, id, k);
    }
  }

  lemma {:induction false} SomeDecides(log: seq<Attempt>, id: string)
    ensures SkippedFrom(log, id, 0) || exists k :: Decides(log, id, k)
  {
    if log != [] {
      var before, a := log[..|log| - 1], log[|log| - 1];
      assert log == before + [a];
      if a.slackId == id && a.status != Skipped {
        assert Decides(log, id, |before|);
      } else {
        SomeDecides(before, id);
        if k :| Decides(before, id, k) {
          DecidesSnoc(before, a, id, k);
        } else {
          assert forall j :: 0 <= j < |before| ==> log[j] == before[j];
        }
      }
    }
  }

  /** What each set holds, for every reachable state: a test stands where its last attempt that
      was not skipped puts it, and among the skipped ones if there is none. */
  lemma SetsMean(r: SlackReporter, id: string)
    requires r.Valid()
    ensures id in r.passedTests <==> exists k :: Decides(r.log, id, k) && r.log[k].status == Passed
    ensures id in r.failedTests
       <==> exists k :: Decides(r.log, id, k) && r.log[k].status != Passed && true !in r.log[k].errors
    ensures id in r.apiFailedTests
       <==> exists k :: Decides(r.log, id, k) && r.log[k].status != Passed && true in r.log[k].errors
    ensures id in r.skippedTests <==> id in r.allTests && SkippedFrom(r.log, id, 0)
    ensures id in r.allTests <==> exists k :: 0 <= k < |r.log| && r.log[k].slackId == id
    ensures id in r.retriedTests <==> exists k :: 0 <= k < |r.log| && r.log[k].slackId == id && r.log[k].retry > 0
  {
    InAll(r.log, id);
    InRetried(r.log, id);
    OfIsEmpty(r.log, id);
    OnlySkippedMeans(Of(r.log, id));
    OnlySkips(r.log, id);
    SomeDecides(r.log, id);
    forall k | Decides(r.log, id, k)
      ensures Judgement(Of(r.log, id)) == JudgementNext(Unseen, r.log[k])
    {
      JudgedByDecider(r.log, id, k);
    }
  }

  lemma InAll(log: seq<Attempt>, id: string)
    ensures id in Ids(log) <==> exists k :: 0 <= k < |log| && log[k].slackId == id
  {
    if k :| 0 <= k < |log| && log[k].slackId == id {
      assert log[k] in log;
    }
  }

  lemma InRetried(log: seq<Attempt>, id: string)
    ensures id in Retried(log) <==> exists k :: 0 <= k < |log| && log[k].slackId == id && log[k].retry > 0
  {
    var p := (a: Attempt) => a.retry > 0;
    SomeAttempt(log, id, p);
    OfIsEmpty(log, id);
    if k :| 0 <= k < |log| && log[k].slackId == id && log[k].retry > 0 {
      assert At(log, id, k, p);
    }
    if k :| At(log, id, k, p) {
      assert log[k].retry > 0;
    }
    assert WasRetried(Of(log, id)) <==> exists i :: 0 <= i < |Of(log, id)| && p(Of(log, id)[i]);
  }

  /** A failure alert has been posted for exactly the tests with an attempt that failed or timed
      out without a watcher error, if there is a webhook. */
  lemma FailAlertsMean(r: SlackReporter, id: string)
    requires r.Valid()
    ensures FailAlert(id) in r.outbox
       <==> r.webhook && exists k :: 0 <= k < |r.log| && r.log[k].slackId == id && true !in r.log[k].errors
                                     && (r.log[k].status == Failed || r.log[k].status == TimedOut)
  {
    var log, p := r.log, (a: Attempt) => RaisesAlarm(a);
    SomeAttempt(log, id, p);
    OfIsEmpty(log, id);
    if k :| 0 <= k < |log| && log[k].slackId == id && true !in log[k].errors
            && (log[k].status == Failed || log[k].status == TimedOut) {
      assert At(log, id, k, p);
    }
    if k :| At(log, id, k, p) {
      assert RaisesAlarm(log[k]);
    }
    assert DeservesFailAlert(Of(log, id)) <==> exists i :: 0 <= i < |Of(log, id)| && p(Of(log, id)[i]);
  }

  /** The skip of a test that has not done anything else yet, for an unmuted reason. */
  ghost predicate FirstSkip(log: seq<Attempt>, id: string, k: int) {
    0 <= k < |log| && log[k].slackId == id && !log[k].muted && SkippedUpTo(log, id, k)
  }

  lemma FirstSkipSnoc(log: seq<Attempt>, a: Attempt, id: string)
    ensures (exists k :: FirstSkip(log + [a], id, k))
       <==> (exists k :: FirstSkip(log, id, k))
            || (a.slackId == id && a.status == Skipped && !a.muted && SkippedFrom(log, id, 0))
  {
    var all := log + [a];
    assert all[|log|] == a && forall j :: 0 <= j < |log| ==> all[j] == log[j];
    assert FirstSkip(all, id, |log|)
      <==> a.slackId == id && a.status == Skipped && !a.muted && SkippedFrom(log, id, 0);
    forall k | 0 <= k < |log|
      ensures FirstSkip(all, id, k) <==> FirstSkip(log, id, k)
    {
    }
  }

  lemma {:induction false} FirstSkipMeans(log: seq<Attempt>, id: string)
    ensures DeservesSkipAlert(Of(log, id)) <==> exists k :: FirstSkip(log, id, k)
  {
    if log != [] {
      var before, a := log[..|log| - 1], log[|log| - 1];
      assert log == before + [a];
      FirstSkipMeans(before, id);
      FirstSkipSnoc(before, a, id);
      OnlySkips(before, id);
      OfSnoc(before, a, id);
      SnocExists(Of(before, id), a);
    }
  }

  /** A skip alert has been posted for exactly the tests that were skipped for an unmuted reason
      before they did anything else, if there is a webhook. */
  lemma SkipAlertsMean(r: SlackReporter, id: string)
    requires r.Valid()
    ensures SkipAlert(id) in r.outbox
       <==> r.webhook && exists k :: 0 <= k < |r.log| && r.log[k].slackId == id && !r.log[k].muted
                                     && SkippedUpTo(r.log, id, k)
  {
    FirstSkipMeans(r.log, id);
    OfIsEmpty(r.log, id);
    if k :| 0 <= k < |r.log| && r.log[k].slackId == id && !r.log[k].muted && SkippedUpTo(r.log, id, k) {
      assert FirstSkip(r.log, id, k);
    }
    if k :| FirstSkip(r.log, id, k) {
      assert r.log[k].slackId == id;
    }
  }
}
