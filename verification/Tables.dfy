/** The outcome of a test as the report records it. */
module Outcomes {
  /** `Broken` and `Unknown` are words an older history file may hold; they are never
      produced from the three statuses of a run. */
  datatype Outcome = Passed | Failed | ApiFailed | Flaky | Skipped | Broken | Unknown

  predicate IsBad(o: Outcome) {
    o.Failed? || o.ApiFailed? || o.Broken?
  }
}

/** The tables of app-e2e-tests/scripts/generate-e2e-report.js that regroup the rows of a
    run, and what they owe to its totals. */
module Tables {
  import opened Outcomes
  import opened Report
  import opened Sequences

  function OutcomeOf(r: Row): Outcome {
    if r.flaky then Flaky
    else if r.apiFailure then ApiFailed
    else match r.status case Pass => Passed case Fail => Failed case Skip => Skipped
  }

  /** What `Judge` guarantees of every row it makes. */
  ghost predicate Proper(r: Row) {
    (r.flaky ==> r.status.Pass?) && (r.apiFailure ==> !r.status.Pass?)
  }

  lemma JudgeIsProper(runs: seq<Record>)
    requires runs != []
    ensures Proper(Judge(runs))
  {
  }

  datatype Tallies = Tallies(total: nat, passed: nat, failed: nat, flaky: nat, skipped: nat) {
    /** Anything that is not flaky, passed or skipped counts as failed. */
    function Plus(o: Outcome): Tallies {
      if o.Flaky? then Tallies(total + 1, passed, failed, flaky + 1, skipped)
      else if o.Passed? then Tallies(total + 1, passed + 1, failed, flaky, skipped)
      else if o.Skipped? then Tallies(total + 1, passed, failed, flaky, skipped + 1)
      else Tallies(total + 1, passed, failed + 1, flaky, skipped)
    }

    function Add(t: Tallies): Tallies {
      Tallies(total + t.total, passed + t.passed, failed + t.failed, flaky + t.flaky, skipped + t.skipped)
    }

    /** The four columns are exclusive and sum to the total. */
    ghost predicate Balanced() {
      total == passed + failed + flaky + skipped
    }
  }

  const ZERO := Tallies(0, 0, 0, 0, 0)

  lemma PlusBalances(t: Tallies, o: Outcome)
    requires t.Balanced()
    ensures t.Plus(o).Balanced()
  {
  }

  /** The outcomes of the rows of one module. */
  ghost function InModule(rows: seq<Row>, moduleOf: Row -> string, m: string): Tallies {
    if rows == [] then ZERO
    else
      var before, r := InModule(rows[..|rows| - 1], moduleOf, m), rows[|rows| - 1];
      if moduleOf(r) == m then before.Plus(OutcomeOf(r)) else before
  }

  function RowOf(table: map<string, Tallies>, m: string): Tallies {
    if m in table then table[m] else ZERO
  }

  /** The module table: one row per module, in order of first appearance. */
  method ModuleTable(rows: seq<Row>, moduleOf: Row -> string)
    returns (order: seq<string>, table: map<string, Tallies>)
    ensures IsModuleTable(rows, moduleOf, order, table)
  {
    order, table := [], map[];
    for i := 0 to |rows|
      invariant IsModuleTable(rows[..i], moduleOf, order, table)
    {
      var m := moduleOf(rows[i]);
      assert rows[..i + 1] == rows[..i] + [rows[i]];
      TableStep(rows[..i], moduleOf, order, table, rows[i]);
      if m !in table {
        order := order + [m];
      }
      table := table[m := RowOf(table, m).Plus(OutcomeOf(rows[i]))];
    }
    assert rows[..|rows|] == rows;
  }

  lemma InModuleSnoc(rows: seq<Row>, r: Row, moduleOf: Row -> string, m: string)
    ensures InModule(rows + [r], moduleOf, m)
         == if moduleOf(r) == m then InModule(rows, moduleOf, m).Plus(OutcomeOf(r)) else InModule(rows, moduleOf, m)
  {
    assert (rows + [r])[..|rows|] == rows;
  }

  lemma TableStep(rows: seq<Row>, moduleOf: Row -> string, order: seq<string>, table: map<string, Tallies>, r: Row)
    requires IsModuleTable(rows, moduleOf, order, table)
    ensures var m := moduleOf(r);
            IsModuleTable(rows + [r], moduleOf, if m in table then order else order + [m],
                          table[m := RowOf(table, m).Plus(OutcomeOf(r))])
  {
    var m := moduleOf(r);
    var next := if m in table then order else order + [m];
    var after := table[m := RowOf(table, m).Plus(OutcomeOf(r))];
    OrderStep(order, table, m, after[m]);
    ModulesListed(rows, moduleOf, order, r, next);
    forall x | x in after
      ensures after[x] == InModule(rows + [r], moduleOf, x)
    {
      TableRowStep(rows, moduleOf, order, table, r, x);
    }
  }

  /** A listing of the keys of a table stays one when a key is set. */
  lemma OrderStep<T>(order: seq<string>, table: map<string, T>, m: string, value: T)
    requires forall i, j :: 0 <= i < j < |order| ==> order[i] != order[j]
    requires forall x :: x in order <==> x in table
    ensures var next := if m in table then order else order + [m];
            && (forall i, j :: 0 <= i < j < |next| ==> next[i] != next[j])
            && (forall x :: x in next <==> x in table[m := value])
  {
  }

  lemma ModulesListed(rows: seq<Row>, moduleOf: Row -> string, order: seq<string>, r: Row, next: seq<string>)
    requires forall i :: 0 <= i < |rows| ==> moduleOf(rows[i]) in order
    requires order <= next && moduleOf(r) in next
    ensures forall i :: 0 <= i < |rows + [r]| ==> moduleOf((rows + [r])[i]) in next
  {
    forall i | 0 <= i < |rows|
      ensures moduleOf(rows[i]) in next
    {
      var k :| 0 <= k < |order| && order[k] == moduleOf(rows[i]);
      assert next[k] == order[k];
    }
  }

  lemma TableRowStep(
    rows: seq<Row>, moduleOf: Row -> string, order: seq<string>, table: map<string, Tallies>, r: Row, x: string)
    requires IsModuleTable(rows, moduleOf, order, table)
    ensures var after := table[moduleOf(r) := RowOf(table, moduleOf(r)).Plus(OutcomeOf(r))];
            x in after ==> after[x] == InModule(rows + [r], moduleOf, x)
  {
    InModuleSnoc(rows, r, moduleOf, x);
    if x !in table {
      UnusedModule(rows, moduleOf, x);
    }
  }

  ghost predicate IsModuleTable(
    rows: seq<Row>, moduleOf: Row -> string, order: seq<string>, table: map<string, Tallies>)
  {
    && (forall i, j :: 0 <= i < j < |order| ==> order[i] != order[j])
    && (forall m :: m in order <==> m in table)
    && (forall i :: 0 <= i < |rows| ==> moduleOf(rows[i]) in order)
    && (forall m :: m in table ==> table[m] == InModule(rows, moduleOf, m))
  }

  // ----- the outcomes and columns, by the fields of the rows -----

  predicate ReadsPassed(r: Row) { r.status == Pass && !r.flaky }

  predicate ReadsFlaky(r: Row) { r.flaky }

  predicate ReadsApiFailed(r: Row) { r.apiFailure }

  predicate ReadsFailed(r: Row) { r.status == Fail && !r.apiFailure }

  predicate ReadsSkipped(r: Row) { r.status == Skip && !r.apiFailure }

  predicate ReadsBroken(r: Row) { r.status == Fail || r.apiFailure }

  predicate AnyRow(r: Row) { true }

  /** Which rows are recorded under which word. */
  lemma OutcomeMeans(r: Row)
    requires Proper(r)
    ensures OutcomeOf(r) == Passed <==> r.status == Pass && !r.flaky
    ensures OutcomeOf(r) == Flaky <==> r.flaky
    ensures OutcomeOf(r) == ApiFailed <==> r.apiFailure
    ensures OutcomeOf(r) == Failed <==> r.status == Fail && !r.apiFailure
    ensures OutcomeOf(r) == Skipped <==> r.status == Skip && !r.apiFailure
    ensures IsBad(OutcomeOf(r)) <==> r.status == Fail || r.apiFailure
  {
  }

  ghost function InModuleAnd(moduleOf: Row -> string, m: string, p: Row -> bool): Row -> bool {
    r => moduleOf(r) == m && p(r)
  }

  /** Each column of a module counts the rows of the module that it is for. */
  lemma {:induction false} ModuleColumns(rows: seq<Row>, moduleOf: Row -> string, m: string)
    requires forall i :: 0 <= i < |rows| ==> Proper(rows[i])
    ensures var t := InModule(rows, moduleOf, m);
            && t.total == |Where(rows, InModuleAnd(moduleOf, m, AnyRow))|
            && t.passed == |Where(rows, InModuleAnd(moduleOf, m, ReadsPassed))|
            && t.flaky == |Where(rows, InModuleAnd(moduleOf, m, ReadsFlaky))|
            && t.failed == |Where(rows, InModuleAnd(moduleOf, m, ReadsBroken))|
            && t.skipped == |Where(rows, InModuleAnd(moduleOf, m, ReadsSkipped))|
  {
    if rows == [] {
      assert forall p :: Where(rows, p) == {};
    } else {
      var front, r := rows[..|rows| - 1], rows[|rows| - 1];
      ModuleColumns(front, moduleOf, m);
      OutcomeMeans(r);
      assert rows == front + [r];
      WhereSnoc(front, r, InModuleAnd(moduleOf, m, AnyRow));
      WhereSnoc(front, r, InModuleAnd(moduleOf, m, ReadsPassed));
      WhereSnoc(front, r, InModuleAnd(moduleOf, m, ReadsFlaky));
      WhereSnoc(front, r, InModuleAnd(moduleOf, m, ReadsBroken));
      WhereSnoc(front, r, InModuleAnd(moduleOf, m, ReadsSkipped));
    }
  }

  lemma {:induction false} ModuleBalanced(rows: seq<Row>, moduleOf: Row -> string, m: string)
    ensures InModule(rows, moduleOf, m).Balanced()
  {
    if rows != [] {
      ModuleBalanced(rows[..|rows| - 1], moduleOf, m);
    }
  }

  lemma {:induction false} UnusedModule(rows: seq<Row>, moduleOf: Row -> string, m: string)
    requires forall i :: 0 <= i < |rows| ==> moduleOf(rows[i]) != m
    ensures InModule(rows, moduleOf, m) == ZERO
  {
    if rows != [] {
      UnusedModule(rows[..|rows| - 1], moduleOf, m);
    }
  }

  /** The table's columns, added up. */
  ghost function Sum(rows: seq<Row>, moduleOf: Row -> string, order: seq<string>): Tallies {
    if order == [] then ZERO
    else Sum(rows, moduleOf, order[1..]).Add(InModule(rows, moduleOf, order[0]))
  }

  ghost function Overall(rows: seq<Row>): Tallies {
    if rows == [] then ZERO else Overall(rows[..|rows| - 1]).Plus(OutcomeOf(rows[|rows| - 1]))
  }

  lemma AddPlus(a: Tallies, b: Tallies, o: Outcome)
    ensures a.Plus(o).Add(b) == a.Add(b).Plus(o) == a.Add(b.Plus(o))
  {
  }

  /** One more row adds to exactly one of the modules it is distributed over. */
  lemma {:induction false} SumGrows(rows: seq<Row>, moduleOf: Row -> string, order: seq<string>)
    requires rows != []
    requires forall i, j :: 0 <= i < j < |order| ==> order[i] != order[j]
    ensures var before, r := Sum(rows[..|rows| - 1], moduleOf, order), rows[|rows| - 1];
            Sum(rows, moduleOf, order) == if moduleOf(r) in order then before.Plus(OutcomeOf(r)) else before
  {
    if order != [] {
      SumGrows(rows, moduleOf, order[1..]);
      assert order == [order[0]] + order[1..];
      AddPlus(Sum(rows[..|rows| - 1], moduleOf, order[1..]), InModule(rows[..|rows| - 1], moduleOf, order[0]),
              OutcomeOf(rows[|rows| - 1]));
    }
  }

  lemma {:induction false} SumIsOverall(rows: seq<Row>, moduleOf: Row -> string, order: seq<string>)
    requires forall i, j :: 0 <= i < j < |order| ==> order[i] != order[j]
    requires forall i :: 0 <= i < |rows| ==> moduleOf(rows[i]) in order
    ensures Sum(rows, moduleOf, order) == Overall(rows)
  {
    if rows == [] {
      SumOfNothing(rows, moduleOf, order);
    } else {
      SumIsOverall(rows[..|rows| - 1], moduleOf, order);
      SumGrows(rows, moduleOf, order);
    }
  }

  lemma {:induction false} SumOfNothing(rows: seq<Row>, moduleOf: Row -> string, order: seq<string>)
    requires rows == []
    ensures Sum(rows, moduleOf, order) == ZERO
  {
    if order != [] {
      SumOfNothing(rows, moduleOf, order[1..]);
    }
  }

  /** A test that was skipped yet carries a watcher error. */
  predicate SkippedApi(r: Row) {
    r.apiFailure && r.status.Skip?
  }

  lemma {:induction false} OverallGreen(rows: seq<Row>)
    requires forall i :: 0 <= i < |rows| ==> Proper(rows[i])
    ensures var t := Overall(rows);
            && t.passed + t.flaky == Count(rows, IsPass)
            && t.flaky == Count(rows, IsFlaky)
  {
    if rows != [] {
      OverallGreen(rows[..|rows| - 1]);
    }
  }

  lemma {:induction false} OverallRest(rows: seq<Row>)
    requires forall i :: 0 <= i < |rows| ==> Proper(rows[i])
    ensures var t := Overall(rows);
            && t.failed == Count(rows, IsFail) + Count(rows, SkippedApi)
            && t.skipped == Count(rows, IsSkip) - Count(rows, SkippedApi)
  {
    if rows != [] {
      OverallRest(rows[..|rows| - 1]);
    }
  }

  lemma {:induction false} OverallTotal(rows: seq<Row>)
    ensures Overall(rows).total == |rows| && Overall(rows).Balanced()
  {
    if rows != [] {
      var front, o := rows[..|rows| - 1], OutcomeOf(rows[|rows| - 1]);
      OverallTotal(front);
      PlusBalances(Overall(front), o);
    }
  }

  lemma OverallCounts(rows: seq<Row>)
    requires forall i :: 0 <= i < |rows| ==> Proper(rows[i])
    ensures var t, s := Overall(rows), Summarise(rows);
            && t.Balanced() && t.total == s.total
            && t.passed + t.flaky == s.passed
            && t.flaky == s.flaky
            && t.failed == s.failed + s.apiFailures + Count(rows, SkippedApi)
            && t.skipped == s.skipped - Count(rows, SkippedApi)
  {
    OverallTotal(rows);
    OverallGreen(rows);
    OverallRest(rows);
  }

  lemma {:induction false} CountZero(rows: seq<Row>)
    ensures Count(rows, SkippedApi) == 0 <==> forall i :: 0 <= i < |rows| ==> !SkippedApi(rows[i])
  {
    if rows != [] {
      CountZero(rows[..|rows| - 1]);
      assert rows == rows[..|rows| - 1] + [rows[|rows| - 1]];
    }
  }

  /** The columns of the module table add up to the totals of the run; those for failed
      and skipped tests exactly when no skipped test carries a watcher error. */
  lemma ModuleTotals(rows: seq<Row>, moduleOf: Row -> string, order: seq<string>)
    requires forall i :: 0 <= i < |rows| ==> Proper(rows[i])
    requires forall i, j :: 0 <= i < j < |order| ==> order[i] != order[j]
    requires forall i :: 0 <= i < |rows| ==> moduleOf(rows[i]) in order
    ensures var t, s := Sum(rows, moduleOf, order), Summarise(rows);
            && t.Balanced() && t.total == s.total && t.passed + t.flaky == s.passed && t.flaky == s.flaky
            && (t.failed == s.failed + s.apiFailures && t.skipped == s.skipped
                <==> forall i :: 0 <= i < |rows| ==> !SkippedApi(rows[i]))
  {
    var t, s := Sum(rows, moduleOf, order), Summarise(rows);
    assert t == Overall(rows) by { SumIsOverall(rows, moduleOf, order); }
    OverallCounts(rows);
    assert t.failed == s.failed + s.apiFailures && t.skipped == s.skipped <==> Count(rows, SkippedApi) == 0;
    CountZero(rows);
  }

  // ----- pass rates -----

  function PassRate(passed: nat, ran: nat): real {
    if ran == 0 then 0.0 else passed as real / ran as real * 100.0
  }

  /** A percentage of the tests that ran, and zero if none did. */
  lemma RateMeans(passed: nat, ran: nat)
    ensures PassRate(passed, ran) * ran as real == if ran == 0 then 0.0 else 100.0 * passed as real
    ensures ran == 0 ==> PassRate(passed, ran) == 0.0
  {
    if ran > 0 {
      var share := passed as real / ran as real;
      assert share * ran as real == passed as real;
      assert share * 100.0 * ran as real == share * ran as real * 100.0;
    }
  }

  ghost predicate UniqueNames(rows: seq<Row>) {
    forall i, j :: 0 <= i < j < |rows| ==> rows[i].name != rows[j].name
  }

  ghost predicate IsNameOf(rows: seq<Row>, name: string) {
    exists i :: 0 <= i < |rows| && rows[i].name == name
  }

  /** `tests` records the outcome of every row and nothing else. */
  ghost predicate IsRecordOf(rows: seq<Row>, tests: map<string, Outcome>) {
    && (forall name :: name in tests <==> IsNameOf(rows, name))
    && (forall i :: 0 <= i < |rows| ==> tests[rows[i].name] == OutcomeOf(rows[i]))
  }

  /** The run's outcomes by test name, as they go into the history. */
  method RecordOutcomes(rows: seq<Row>) returns (tests: map<string, Outcome>)
    ensures forall name :: name in tests <==> IsNameOf(rows, name)
    ensures UniqueNames(rows) ==> IsRecordOf(rows, tests)
  {
    tests := map[];
    for i := 0 to |rows|
      invariant forall name :: name in tests <==> exists k :: 0 <= k < i && rows[k].name == name
      invariant UniqueNames(rows) ==> forall k :: 0 <= k < i ==> tests[rows[k].name] == OutcomeOf(rows[k])
    {
      tests := tests[rows[i].name := OutcomeOf(rows[i])];
    }
  }

  /** The keys of an object, each once, in the order in which it lists them. */
  ghost predicate IsListing(names: seq<string>, tests: map<string, Outcome>) {
    && (forall i, j :: 0 <= i < j < |names| ==> names[i] != names[j])
    && (forall name :: name in names <==> name in tests)
  }

  /** Totals from recorded outcomes. */
  method Tally(names: seq<string>, tests: map<string, Outcome>) returns (t: Tallies, rate: real)
    requires IsListing(names, tests)
    ensures t == TallyOf(names, tests)
    ensures t.Balanced() && rate == PassRate(t.passed + t.flaky, t.total - t.skipped)
  {
    t := ZERO;
    for i := 0 to |names|
      invariant t == TallyOf(names[..i], tests)
    {
      assert names[..i + 1][..i] == names[..i];
      t := t.Plus(tests[names[i]]);
    }
    assert names[..|names|] == names;
    TallyBalanced(names, tests);
    rate := PassRate(t.passed + t.flaky, t.total - t.skipped);
  }

  ghost function TallyOf(names: seq<string>, tests: map<string, Outcome>): Tallies
    requires forall i :: 0 <= i < |names| ==> names[i] in tests
  {
    if names == [] then ZERO
    else TallyOf(names[..|names| - 1], tests).Plus(tests[names[|names| - 1]])
  }

  lemma {:induction false} TallyBalanced(names: seq<string>, tests: map<string, Outcome>)
    requires forall i :: 0 <= i < |names| ==> names[i] in tests
    ensures TallyOf(names, tests).Balanced()
  {
    if names != [] {
      var front := names[..|names| - 1];
      TallyBalanced(front, tests);
      PlusBalances(TallyOf(front, tests), tests[names[|names| - 1]]);
    }
  }

  lemma PlusCommutes(t: Tallies, o: Outcome, p: Outcome)
    ensures t.Plus(o).Plus(p) == t.Plus(p).Plus(o)
  {
  }

  /** It does not matter where in the listing a name stands. */
  lemma {:induction false} TallyWithout(names: seq<string>, k: nat, tests: map<string, Outcome>)
    requires k < |names| && forall i :: 0 <= i < |names| ==> names[i] in tests
    ensures var rest := names[..k] + names[k + 1..];
            && (forall i :: 0 <= i < |rest| ==> rest[i] in tests)
            && TallyOf(names, tests) == TallyOf(rest, tests).Plus(tests[names[k]])
  {
    var n := |names| - 1;
    var rest := names[..k] + names[k + 1..];
    if k == n {
      assert rest == names[..n];
    } else {
      var front := names[..n];
      TallyWithout(front, k, tests);
      var inner := front[..k] + front[k + 1..];
      assert rest == inner + [names[n]] && rest[..|rest| - 1] == inner;
      PlusCommutes(TallyOf(inner, tests), tests[names[k]], tests[names[n]]);
    }
  }

  /** Whatever the order of the listing, it tallies to the outcomes of the rows. */
  lemma {:induction false} TallyIsOverall(rows: seq<Row>, names: seq<string>, tests: map<string, Outcome>)
    requires UniqueNames(rows)
    requires forall i, j :: 0 <= i < j < |names| ==> names[i] != names[j]
    requires forall name :: name in names <==> IsNameOf(rows, name)
    requires forall i :: 0 <= i < |names| ==> names[i] in tests
    requires forall i :: 0 <= i < |rows| ==> rows[i].name in tests && tests[rows[i].name] == OutcomeOf(rows[i])
    ensures TallyOf(names, tests) == Overall(rows)
  {
    if rows == [] {
      SomeName(names);
    } else {
      var n := |rows| - 1;
      var name := rows[n].name;
      assert IsNameOf(rows, name);
      var k :| 0 <= k < |names| && names[k] == name;
      TallyWithout(names, k, tests);
      RestNames(rows, names, k);
      TallyIsOverall(rows[..n], names[..k] + names[k + 1..], tests);
    }
  }

  lemma SomeName(names: seq<string>)
    ensures names == [] || exists name :: name in names
  {
    if names != [] {
      assert names[0] in names;
    }
  }

  lemma RestNames(rows: seq<Row>, names: seq<string>, k: nat)
    requires rows != [] && UniqueNames(rows) && k < |names| && names[k] == rows[|rows| - 1].name
    requires forall i, j :: 0 <= i < j < |names| ==> names[i] != names[j]
    requires forall name :: name in names <==> IsNameOf(rows, name)
    ensures var rest := names[..k] + names[k + 1..];
            forall name :: name in rest <==> IsNameOf(rows[..|rows| - 1], name)
  {
    var n := |rows| - 1;
    var rest, front := names[..k] + names[k + 1..], rows[..n];
    forall name
      ensures name in rest <==> IsNameOf(front, name)
    {
      assert name in rest <==> name in names && name != names[k] by {
        if name in names && name != names[k] {
          var i :| 0 <= i < |names| && names[i] == name;
          assert rest[if i < k then i else i - 1] == name;
        }
      }
      assert IsNameOf(front, name) <==> IsNameOf(rows, name) && name != names[k] by {
        if IsNameOf(rows, name) && name != names[k] {
          var i :| 0 <= i < |rows| && rows[i].name == name;
          assert front[i].name == name;
        }
        if i :| 0 <= i < |front| && front[i].name == name {
          assert rows[i].name == name;
        }
      }
    }
  }

  lemma SameCounts(rows: seq<Row>, names: seq<string>, tests: map<string, Outcome>)
    requires forall i :: 0 <= i < |rows| ==> Proper(rows[i])
    requires UniqueNames(rows) && IsRecordOf(rows, tests) && IsListing(names, tests)
    ensures var t, s := TallyOf(names, tests), Summarise(rows);
            && t.Balanced() && t.passed + t.flaky == s.passed
            && t.total - t.skipped == s.total - s.skipped + Count(rows, SkippedApi)
            && s.passed + s.skipped <= s.total
  {
    TallyIsOverall(rows, names, tests);
    OverallCounts(rows);
    PassedAndSkipped(rows);
  }

  lemma {:induction false} PassedAndSkipped(rows: seq<Row>)
    ensures Count(rows, IsPass) + Count(rows, IsSkip) <= |rows|
  {
    if rows != [] {
      PassedAndSkipped(rows[..|rows| - 1]);
    }
  }

  /** More tests that ran lower the rate, unless none passed. */
  lemma RateDrops(passed: nat, ran: nat, more: nat)
    requires passed <= ran
    ensures PassRate(passed, ran) == PassRate(passed, ran + more) <==> passed == 0 || more == 0
  {
    if passed > 0 && more > 0 {
      var p, r, q := passed as real, ran as real, (ran + more) as real;
      LargerDivisor(p, r, q);
    }
  }

  lemma LargerDivisor(p: real, r: real, q: real)
    requires 0.0 < p && 0.0 < r < q
    ensures p / r > p / q
  {
    var a, b := p / r, p / q;
    assert a * r == p && b * q == p;
    assert b > 0.0;
    assert b * r < b * q;
    assert (a - b) * r > 0.0;
  }

  /** With distinct names, the pass rate recomputed from the recorded outcomes is the one in
      the summary if and only if nothing passed or no skipped test carries a watcher error. */
  lemma SamePassRate(rows: seq<Row>, names: seq<string>, tests: map<string, Outcome>, t: Tallies, s: Stats)
    requires forall i :: 0 <= i < |rows| ==> Proper(rows[i])
    requires UniqueNames(rows) && IsRecordOf(rows, tests) && IsListing(names, tests)
    requires t == TallyOf(names, tests) && s == Summarise(rows)
    ensures s.skipped <= s.total && t.skipped <= t.total
    ensures PassRate(t.passed + t.flaky, t.total - t.skipped) == PassRate(s.passed, s.total - s.skipped)
       <==> s.passed == 0 || forall i :: 0 <= i < |rows| ==> !SkippedApi(rows[i])
  {
    SameCounts(rows, names, tests);
    CountZero(rows);
    RateDrops(s.passed, s.total - s.skipped, Count(rows, SkippedApi));
  }

  ghost function NameSet(rows: seq<Row>): set<string> {
    set r | r in rows :: r.name
  }

  lemma UniqueSnoc(rows: seq<Row>, r: Row)
    ensures UniqueNames(rows + [r]) <==> UniqueNames(rows) && r.name !in NameSet(rows)
  {
    var all := rows + [r];
    assert all[|rows|] == r;
    assert forall k :: 0 <= k < |rows| ==> all[k] == rows[k];
    if r.name in NameSet(rows) {
      var k :| 0 <= k < |rows| && rows[k].name == r.name;
      assert all[k].name == all[|rows|].name;
    } else {
      assert forall k :: 0 <= k < |rows| ==> rows[k].name in NameSet(rows);
    }
  }

  lemma {:induction false} NameSetSize(rows: seq<Row>)
    ensures |NameSet(rows)| <= |rows|
    ensures |NameSet(rows)| == |rows| <==> UniqueNames(rows)
  {
    if rows != [] {
      var front, r := rows[..|rows| - 1], rows[|rows| - 1];
      NameSetSize(front);
      assert rows == front + [r];
      assert NameSet(rows) == NameSet(front) + {r.name};
      UniqueSnoc(front, r);
      if r.name in NameSet(front) {
        assert NameSet(rows) == NameSet(front);
      }
    }
  }

  lemma {:induction false} TallyTotal(names: seq<string>, tests: map<string, Outcome>)
    requires forall i :: 0 <= i < |names| ==> names[i] in tests
    ensures TallyOf(names, tests).total == |names|
  {
    if names != [] {
      TallyTotal(names[..|names| - 1], tests);
    }
  }

  /** The record counts every test if and only if no two tests share a name. */
  lemma RecordedTotalIff(rows: seq<Row>, names: seq<string>, tests: map<string, Outcome>)
    requires forall name :: name in tests <==> IsNameOf(rows, name)
    requires IsListing(names, tests)
    ensures TallyOf(names, tests).total <= |rows|
    ensures TallyOf(names, tests).total == |rows| <==> UniqueNames(rows)
  {
    TallyTotal(names, tests);
    forall name
      ensures name in NameSet(rows) <==> name in names
    {
      assert name in NameSet(rows) <==> IsNameOf(rows, name);
    }
    DistinctSize(names, NameSet(rows));
    NameSetSize(rows);
  }

  /** Two rows of one name are recorded once, so the rates differ. */
  lemma RepeatedName(rows: seq<Row>, tests: map<string, Outcome>)
    requires |rows| == 3 && rows[0].name == rows[1].name != rows[2].name
    requires OutcomeOf(rows[0]) == OutcomeOf(rows[1]) == Passed && OutcomeOf(rows[2]) == Failed
    requires IsRecordOf(rows, tests)
    ensures var names := [rows[0].name, rows[2].name];
            && IsListing(names, tests)
            && TallyOf(names, tests) == Tallies(2, 1, 1, 0, 0) && Overall(rows) == Tallies(3, 2, 1, 0, 0)
            && PassRate(1, 2) != PassRate(2, 3)
  {
    var names := [rows[0].name, rows[2].name];
    assert forall name :: IsNameOf(rows, name) <==> name in names;
    assert names[..1] == [rows[0].name] && [rows[0].name][..0] == [];
    assert TallyOf([rows[0].name], tests) == Tallies(1, 1, 0, 0, 0);
    assert rows[..2][..1] == rows[..1] && rows[..1][..0] == [];
    assert Overall(rows[..1]) == Tallies(1, 1, 0, 0, 0);
    assert Overall(rows[..2]) == Tallies(2, 2, 0, 0, 0);
  }

  // ----- the tag table -----

  /** The tag table goes by the status, so a skipped test stays skipped whatever its error. */
  function StatusOf(r: Row): Outcome {
    if r.flaky then Flaky else match r.status case Pass => Passed case Fail => Failed case Skip => Skipped
  }

  datatype TagRow = TagRow(counts: Tallies, green: nat) {
    function Plus(r: Row): TagRow {
      TagRow(counts.Plus(StatusOf(r)), green + if r.status.Pass? then 1 else 0)
    }
  }

  const NO_TESTS := TagRow(ZERO, 0)

  /** What a list of tags adds to the row of one tag; a repeated tag counts again. */
  ghost function TaggedBy(row: TagRow, r: Row, tags: seq<string>, tag: string): TagRow {
    if tags == [] then row
    else
      var before := TaggedBy(row, r, tags[..|tags| - 1], tag);
      if tags[|tags| - 1] == tag then before.Plus(r) else before
  }

  ghost function InTag(rows: seq<Row>, tagsOf: Row -> seq<string>, tag: string): TagRow {
    if rows == [] then NO_TESTS
    else
      var r := rows[|rows| - 1];
      TaggedBy(InTag(rows[..|rows| - 1], tagsOf, tag), r, tagsOf(r), tag)
  }

  function TagRowOf(table: map<string, TagRow>, tag: string): TagRow {
    if tag in table then table[tag] else NO_TESTS
  }

  method ByTag(rows: seq<Row>, tagsOf: Row -> seq<string>) returns (table: map<string, TagRow>)
    ensures forall tag :: TagRowOf(table, tag) == InTag(rows, tagsOf, tag)
  {
    table := map[];
    for i := 0 to |rows|
      invariant forall tag :: TagRowOf(table, tag) == InTag(rows[..i], tagsOf, tag)
    {
      table := AddTags(table, rows[i], tagsOf(rows[i]));
      assert rows[..i + 1][..i] == rows[..i];
    }
    assert rows[..|rows|] == rows;
  }

  method AddTags(before: map<string, TagRow>, r: Row, tags: seq<string>) returns (table: map<string, TagRow>)
    ensures forall tag :: TagRowOf(table, tag) == TaggedBy(TagRowOf(before, tag), r, tags, tag)
  {
    table := before;
    for j := 0 to |tags|
      invariant forall tag :: TagRowOf(table, tag) == TaggedBy(TagRowOf(before, tag), r, tags[..j], tag)
    {
      assert tags[..j + 1][..j] == tags[..j];
      table := table[tags[j] := TagRowOf(table, tags[j]).Plus(r)];
    }
    assert tags[..|tags|] == tags;
  }

  /** How often the rows of a kind carry the tag. */
  ghost function Carried(rows: seq<Row>, tagsOf: Row -> seq<string>, tag: string, p: Row -> bool): nat {
    if rows == [] then 0
    else
      var r := rows[|rows| - 1];
      Carried(rows[..|rows| - 1], tagsOf, tag, p) + if p(r) then multiset(tagsOf(r))[tag] else 0
  }

  predicate ByStatusFailed(r: Row) { r.status == Fail }

  predicate ByStatusSkipped(r: Row) { r.status == Skip }

  predicate ByStatusPassed(r: Row) { r.status == Pass }

  lemma {:induction false} TaggedByAdds(row: TagRow, r: Row, tags: seq<string>, tag: string)
    requires Proper(r)
    ensures var after, n := TaggedBy(row, r, tags, tag), multiset(tags)[tag];
            && after.counts.total == row.counts.total + n
            && after.counts.passed == row.counts.passed + (if r.status == Pass && !r.flaky then n else 0)
            && after.counts.flaky == row.counts.flaky + (if r.flaky then n else 0)
            && after.counts.failed == row.counts.failed + (if r.status == Fail then n else 0)
            && after.counts.skipped == row.counts.skipped + (if r.status == Skip then n else 0)
            && after.green == row.green + (if r.status == Pass then n else 0)
  {
    if tags != [] {
      TaggedByAdds(row, r, tags[..|tags| - 1], tag);
      assert tags == tags[..|tags| - 1] + [tags[|tags| - 1]];
    }
  }

  /** Each column of a tag counts how often the rows that it is for carry the tag. */
  lemma {:induction false} TagColumns(rows: seq<Row>, tagsOf: Row -> seq<string>, tag: string)
    requires forall i :: 0 <= i < |rows| ==> Proper(rows[i])
    ensures var row := InTag(rows, tagsOf, tag);
            && row.counts.total == Carried(rows, tagsOf, tag, AnyRow)
            && row.counts.passed == Carried(rows, tagsOf, tag, ReadsPassed)
            && row.counts.flaky == Carried(rows, tagsOf, tag, ReadsFlaky)
            && row.counts.failed == Carried(rows, tagsOf, tag, ByStatusFailed)
            && row.counts.skipped == Carried(rows, tagsOf, tag, ByStatusSkipped)
            && row.green == Carried(rows, tagsOf, tag, ByStatusPassed)
  {
    if rows != [] {
      var front, r := rows[..|rows| - 1], rows[|rows| - 1];
      TagColumns(front, tagsOf, tag);
      TaggedByAdds(InTag(front, tagsOf, tag), r, tagsOf(r), tag);
    }
  }

  /** The four columns of a tag sum to its total, and its green tests are the passed and the
      flaky ones. */
  lemma {:induction false} TagBalanced(rows: seq<Row>, tagsOf: Row -> seq<string>, tag: string)
    requires forall i :: 0 <= i < |rows| ==> Proper(rows[i])
    ensures var row := InTag(rows, tagsOf, tag);
            row.counts.Balanced() && row.green == row.counts.passed + row.counts.flaky
  {
    if rows != [] {
      var front, r := rows[..|rows| - 1], rows[|rows| - 1];
      TagBalanced(front, tagsOf, tag);
      TaggedBalanced(InTag(front, tagsOf, tag), r, tagsOf(r), tag);
    }
  }

  lemma {:induction false} TaggedBalanced(row: TagRow, r: Row, tags: seq<string>, tag: string)
    requires Proper(r) && row.counts.Balanced() && row.green == row.counts.passed + row.counts.flaky
    ensures var after := TaggedBy(row, r, tags, tag);
            after.counts.Balanced() && after.green == after.counts.passed + after.counts.flaky
  {
    if tags != [] {
      TaggedBalanced(row, r, tags[..|tags| - 1], tag);
    }
  }

  // ----- failures by cause -----

  ghost function Failing(rows: seq<Row>): seq<Row> {
    if rows == [] then []
    else
      var before, r := Failing(rows[..|rows| - 1]), rows[|rows| - 1];
      if IsBad(OutcomeOf(r)) then before + [r] else before
  }

  /** The failing rows are those that failed or carry a watcher error. */
  lemma {:induction false} FailingMeans(rows: seq<Row>)
    requires forall i :: 0 <= i < |rows| ==> Proper(rows[i])
    ensures forall r :: r in Failing(rows) <==> r in rows && (r.status == Fail || r.apiFailure)
  {
    if rows != [] {
      var front, r := rows[..|rows| - 1], rows[|rows| - 1];
      FailingMeans(front);
      OutcomeMeans(r);
      assert rows == front + [r];
    }
  }

  lemma {:induction false} FailingConcat(a: seq<Row>, b: seq<Row>)
    ensures Failing(a + b) == Failing(a) + Failing(b)
  {
    if b == [] {
      assert a + b == a;
    } else {
      assert (a + b)[..|a + b| - 1] == a + b[..|b| - 1];
      FailingConcat(a, b[..|b| - 1]);
    }
  }

  /** The rows of a cause come in the order of the run. */
  lemma {:induction false} CauseConcat(a: seq<Row>, b: seq<Row>, causeOf: Row -> string, cause: string)
    ensures WithCause(a + b, causeOf, cause) == WithCause(a, causeOf, cause) + WithCause(b, causeOf, cause)
  {
    if b == [] {
      assert a + b == a;
    } else {
      assert (a + b)[..|a + b| - 1] == a + b[..|b| - 1];
      CauseConcat(a, b[..|b| - 1], causeOf, cause);
    }
  }

  ghost function WithCause(rows: seq<Row>, causeOf: Row -> string, cause: string): seq<Row> {
    if rows == [] then []
    else
      var before, r := WithCause(rows[..|rows| - 1], causeOf, cause), rows[|rows| - 1];
      if causeOf(r) == cause then before + [r] else before
  }

  function CauseRows(groups: map<string, seq<Row>>, cause: string): seq<Row> {
    if cause in groups then groups[cause] else []
  }

  /** The failing tests of a run, grouped by what broke. */
  method GroupFailures(rows: seq<Row>, causeOf: Row -> string)
    returns (order: seq<string>, groups: map<string, seq<Row>>)
    ensures IsGrouping(Failing(rows), causeOf, order, groups)
  {
    order, groups := [], map[];
    ghost var failing: seq<Row> := [];
    for i := 0 to |rows|
      invariant failing == Failing(rows[..i])
      invariant IsGrouping(failing, causeOf, order, groups)
    {
      assert rows[..i + 1][..i] == rows[..i];
      if IsBad(OutcomeOf(rows[i])) {
        var cause := causeOf(rows[i]);
        GroupingStep(failing, causeOf, order, groups, rows[i]);
        if cause !in groups {
          order := order + [cause];
        }
        groups := groups[cause := CauseRows(groups, cause) + [rows[i]]];
        failing := failing + [rows[i]];
      }
    }
    assert rows[..|rows|] == rows;
  }

  ghost predicate IsGrouping(
    rows: seq<Row>, causeOf: Row -> string, order: seq<string>, groups: map<string, seq<Row>>)
  {
    && (forall i, j :: 0 <= i < j < |order| ==> order[i] != order[j])
    && (forall c :: c in order <==> c in groups)
    && (forall i :: 0 <= i < |rows| ==> causeOf(rows[i]) in order)
    && (forall c :: CauseRows(groups, c) == WithCause(rows, causeOf, c))
  }

  lemma WithCauseSnoc(rows: seq<Row>, r: Row, causeOf: Row -> string, d: string)
    ensures var before := WithCause(rows, causeOf, d);
            WithCause(rows + [r], causeOf, d) == if causeOf(r) == d then before + [r] else before
  {
    assert (rows + [r])[..|rows|] == rows;
  }

  lemma CauseRowStep(rows: seq<Row>, causeOf: Row -> string, groups: map<string, seq<Row>>, r: Row, d: string)
    requires CauseRows(groups, d) == WithCause(rows, causeOf, d)
    ensures var c := causeOf(r);
            CauseRows(groups[c := CauseRows(groups, c) + [r]], d) == WithCause(rows + [r], causeOf, d)
  {
    WithCauseSnoc(rows, r, causeOf, d);
  }

  lemma GroupingStep(rows: seq<Row>, causeOf: Row -> string, order: seq<string>, groups: map<string, seq<Row>>, r: Row)
    requires IsGrouping(rows, causeOf, order, groups)
    ensures var c := causeOf(r);
            IsGrouping(rows + [r], causeOf, if c in groups then order else order + [c],
                       groups[c := CauseRows(groups, c) + [r]])
  {
    var c := causeOf(r);
    var next := if c in groups then order else order + [c];
    var after := groups[c := CauseRows(groups, c) + [r]];
    forall d
      ensures CauseRows(after, d) == WithCause(rows + [r], causeOf, d)
    {
      CauseRowStep(rows, causeOf, groups, r, d);
    }
    OrderStep(order, groups, c, after[c]);
    ModulesListed(rows, causeOf, order, r, next);
  }

  ghost function Sizes(order: seq<string>, groups: map<string, seq<Row>>): nat {
    if order == [] then 0 else |CauseRows(groups, order[0])| + Sizes(order[1..], groups)
  }

  lemma {:induction false} CauseSize(rows: seq<Row>, causeOf: Row -> string, cause: string)
    ensures |WithCause(rows, causeOf, cause)| == InModule(rows, causeOf, cause).total
  {
    if rows != [] {
      CauseSize(rows[..|rows| - 1], causeOf, cause);
    }
  }

  lemma {:induction false} SizesAreSum(
    rows: seq<Row>, causeOf: Row -> string, order: seq<string>, groups: map<string, seq<Row>>)
    requires forall c :: CauseRows(groups, c) == WithCause(rows, causeOf, c)
    ensures Sizes(order, groups) == Sum(rows, causeOf, order).total
  {
    if order != [] {
      SizesAreSum(rows, causeOf, order[1..], groups);
      CauseSize(rows, causeOf, order[0]);
    }
  }

  /** The groups partition the failures: each holds the failures of its cause in order, and their
      sizes add up to the number of failures. */
  lemma CausesPartition(rows: seq<Row>, causeOf: Row -> string, order: seq<string>, groups: map<string, seq<Row>>)
    requires IsGrouping(rows, causeOf, order, groups)
    ensures Sizes(order, groups) == |rows|
  {
    SizesAreSum(rows, causeOf, order, groups);
    SumIsOverall(rows, causeOf, order);
    OverallTotal(rows);
  }
}
