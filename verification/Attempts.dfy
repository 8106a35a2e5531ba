/** What Playwright tells its reporters: one record per finished attempt of a test.
    Attempts of different tests interleave freely. */
module Attempts {

  datatype Status = Passed | Failed | TimedOut | Interrupted | Skipped

  /** `slackId` is the whole title path, as SlackReporter joins it.  `suite` and `name` are
      what the report identifies a test by.  `errors` says of each error whether its
      message carries the `[GraphQLWatcher]` mark.  `muted` says whether the reason of a
      skip is one that is never alerted on. */
  datatype Attempt = Attempt(
    slackId: string,
    suite: string,
    name: string,
    status: Status,
    retry: nat,
    errors: seq<bool>,
    muted: bool)
  {
    function Key(): string {
      suite + "::" + name
    }

    predicate Broke() {
      status.Failed? || status.TimedOut? || status.Interrupted?
    }

    predicate IsApiFailure() {
      Broke() && true in errors
    }

    /** The mark is on the first error, the only one the report records. */
    predicate MarkedFirst() {
      |errors| > 0 && errors[0]
    }
  }

  ghost function Ids(log: seq<Attempt>): set<string> {
    set a | a in log :: a.slackId
  }

  /** The attempts of one test, in the order in which they ended. */
  ghost function Of(log: seq<Attempt>, id: string): seq<Attempt> {
    if log == [] then []
    else
      var before, a := Of(log[..|log| - 1], id), log[|log| - 1];
      if a.slackId == id then before + [a] else before
  }

  lemma OfSnoc(log: seq<Attempt>, a: Attempt, id: string)
    ensures Of(log + [a], id) == if a.slackId == id then Of(log, id) + [a] else Of(log, id)
  {
    assert (log + [a])[..|log|] == log;
  }

  lemma IdsSnoc(log: seq<Attempt>, a: Attempt)
    ensures Ids(log + [a]) == Ids(log) + {a.slackId}
  {
    var all := log + [a];
    assert all[|log|] == a;
    assert forall x :: x in all <==> x in log || x == a;
  }

  lemma {:induction false} OfIsEmpty(log: seq<Attempt>, id: string)
    ensures Of(log, id) == [] <==> id !in Ids(log)
  {
    if log != [] {
      var last := |log| - 1;
      OfIsEmpty(log[..last], id);
      IdsSnoc(log[..last], log[last]);
      assert log == log[..last] + [log[last]];
    }
  }

  /** How a test stands, given its attempts: its last attempt that was not skipped decides. */
  datatype Verdict = Unseen | Green | Red | RedApi | OnlySkipped

  ghost function JudgementNext(was: Verdict, a: Attempt): Verdict {
    if a.status.Passed? then Green
    else if a.IsApiFailure() then RedApi
    else if a.Broke() then Red
    else if was.Unseen? then OnlySkipped
    else was
  }

  ghost function Judgement(runs: seq<Attempt>): Verdict {
    if runs == [] then Unseen
    else JudgementNext(Judgement(runs[..|runs| - 1]), runs[|runs| - 1])
  }

  lemma JudgementSnoc(runs: seq<Attempt>, a: Attempt)
    ensures Judgement(runs + [a]) == JudgementNext(Judgement(runs), a)
  {
    assert (runs + [a])[..|runs|] == runs;
  }

  ghost predicate AllSkipped(runs: seq<Attempt>) {
    forall i :: 0 <= i < |runs| ==> runs[i].status.Skipped?
  }

  lemma {:induction false} OnlySkippedMeans(runs: seq<Attempt>)
    ensures Judgement(runs).Unseen? <==> runs == []
    ensures Judgement(runs).OnlySkipped? <==> runs != [] && AllSkipped(runs)
  {
    if runs != [] {
      var before, a := runs[..|runs| - 1], runs[|runs| - 1];
      OnlySkippedMeans(before);
      assert forall i :: 0 <= i < |before| ==> before[i] == runs[i];
      assert Judgement(runs) == JudgementNext(Judgement(before), a);
      if !a.status.Skipped? {
        assert !AllSkipped(runs);
      } else if !AllSkipped(before) {
        assert !AllSkipped(runs);
      }
    }
  }
}
