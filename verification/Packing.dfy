/** The history views of the report page: every run packed into one character per test by
    app-e2e-tests/scripts/generate-e2e-report.js, and read back by the page's own script. */
module Packing {
  import opened Options
  import opened Outcomes
  import opened Report
  import opened Tables

  /** The per-test outcomes of a run; `names` are the keys of `tests` in listing order. */
  datatype Results = Results(names: seq<string>, tests: map<string, Outcome>) {
    ghost predicate Valid() {
      forall n :: n in names <==> n in tests
    }

    function Lookup(name: string): Option<Outcome> {
      if name in tests then Some(tests[name]) else None
    }
  }

  // ----- packing -----

  function Code(o: Option<Outcome>): char {
    match o
    case Some(Passed) => 'P'
    case Some(Failed) => 'F'
    case Some(ApiFailed) => 'A'
    case Some(Flaky) => 'K'
    case Some(Skipped) => 'S'
    case _ => '-'
  }

  /** How the page labels a character. */
  function Decode(c: char): Option<Outcome> {
    if c == 'P' then Some(Passed)
    else if c == 'F' then Some(Failed)
    else if c == 'A' then Some(ApiFailed)
    else if c == 'K' then Some(Flaky)
    else if c == 'S' then Some(Skipped)
    else None
  }

  function Pack(r: Results, names: seq<string>): (o: string)
    ensures |o| == |names|
    ensures forall k :: 0 <= k < |names| ==> o[k] == Code(r.Lookup(names[k]))
  {
    seq(|names|, k requires 0 <= k < |names| => Code(r.Lookup(names[k])))
  }

  ghost predicate Distinct(names: seq<string>) {
    forall i, j :: 0 <= i < j < |names| ==> names[i] != names[j]
  }

  /** Every test name of any run, once, with its position. */
  method CollectNames(runs: seq<Results>) returns (names: seq<string>, index: map<string, nat>)
    requires forall i :: 0 <= i < |runs| ==> runs[i].Valid()
    ensures Distinct(names)
    ensures forall n :: n in names <==> exists i :: 0 <= i < |runs| && n in runs[i].tests
    ensures IsIndex(names, index)
  {
    names, index := [], map[];
    for i := 0 to |runs|
      invariant Distinct(names) && IsIndex(names, index)
      invariant forall n :: n in names <==> exists k :: 0 <= k < i && n in runs[k].tests
    {
      ghost var seen := names;
      var listed := runs[i].names;
      for j := 0 to |listed|
        invariant Distinct(names) && IsIndex(names, index)
        invariant forall n :: n in names <==> n in seen || n in listed[..j]
      {
        assert listed[..j + 1] == listed[..j] + [listed[j]];
        if listed[j] !in index {
          index := index[listed[j] := |names|];
          names := names + [listed[j]];
        }
      }
      assert listed[..|listed|] == listed;
    }
  }

  ghost predicate IsIndex(names: seq<string>, index: map<string, nat>) {
    && (forall n :: n in index <==> n in names)
    && (forall n :: n in index ==> index[n] < |names| && names[index[n]] == n)
  }

  /** The words an entry may hold that have no character of their own. */
  predicate HasCode(o: Option<Outcome>) {
    o.Some? ==> !o.value.Broken? && !o.value.Unknown?
  }

  /** What the page reads for a test in a run is what was recorded, unless the record
      uses a word that has no character. */
  lemma PackedRoundTrip(r: Results, names: seq<string>, index: map<string, nat>, name: string)
    requires IsIndex(names, index) && name in names
    ensures Decode(Pack(r, names)[index[name]]) == r.Lookup(name) <==> HasCode(r.Lookup(name))
    ensures Pack(r, names)[index[name]] == 'P' <==> r.Lookup(name) == Some(Passed)
    ensures Pack(r, names)[index[name]] == 'F' <==> r.Lookup(name) == Some(Failed)
    ensures Pack(r, names)[index[name]] == 'A' <==> r.Lookup(name) == Some(ApiFailed)
    ensures Pack(r, names)[index[name]] == 'K' <==> r.Lookup(name) == Some(Flaky)
    ensures Pack(r, names)[index[name]] == 'S' <==> r.Lookup(name) == Some(Skipped)
  {
    assert name in index;
  }

  // ----- what changed since an earlier run, computed twice -----

  datatype Change = New | Known | Unseen | Fixed | Neither

  /** The generator's view: a row against the recorded outcomes of the previous run. */
  function ChangeOf(r: Row, previous: Option<Results>): Change {
    var before := if previous.None? then None else previous.value.Lookup(r.name);
    if IsBad(OutcomeOf(r)) then
      if before.None? then Unseen else if IsBad(before.value) then Known else New
    else if before.Some? && IsBad(before.value) && (r.status.Pass? || r.flaky) then Fixed
    else Neither
  }

  predicate IsBadCode(c: char) { c == 'F' || c == 'A' }

  predicate IsGreenCode(c: char) { c == 'P' || c == 'K' }

  /** The page's view: two characters. */
  function CodeChange(was: char, now: char): Change {
    if now == '-' then Neither
    else if IsBadCode(now) && was == '-' then Unseen
    else if IsBadCode(now) && !IsBadCode(was) then New
    else if IsBadCode(now) && IsBadCode(was) then Known
    else if IsBadCode(was) && IsGreenCode(now) then Fixed
    else Neither
  }

  /** The names at the positions that hold a given change, in order. */
  ghost function Select(names: seq<string>, changes: seq<Change>, c: Change): seq<string>
    requires |names| == |changes|
  {
    if names == [] then []
    else
      var n := |names| - 1;
      var before := Select(names[..n], changes[..n], c);
      if changes[n] == c then before + [names[n]] else before
  }

  lemma SelectSnoc(names: seq<string>, changes: seq<Change>, name: string, change: Change, c: Change)
    requires |names| == |changes|
    ensures Select(names + [name], changes + [change], c)
         == if change == c then Select(names, changes, c) + [name] else Select(names, changes, c)
  {
    assert (names + [name])[..|names|] == names && (changes + [change])[..|names|] == changes;
  }

  lemma {:induction false} SelectHolds(names: seq<string>, changes: seq<Change>, c: Change, x: string)
    requires |names| == |changes|
    ensures x in Select(names, changes, c) <==> exists i :: 0 <= i < |names| && names[i] == x && changes[i] == c
  {
    if names != [] {
      var n := |names| - 1;
      SelectHolds(names[..n], changes[..n], c, x);
      if i :| 0 <= i < n && names[i] == x && changes[i] == c {
        assert names[..n][i] == x && changes[..n][i] == c;
      }
    }
  }

  /** The selected names keep their order. */
  lemma {:induction false} SelectConcat(a: seq<string>, x: seq<Change>, b: seq<string>, y: seq<Change>, c: Change)
    requires |a| == |x| && |b| == |y|
    ensures Select(a + b, x + y, c) == Select(a, x, c) + Select(b, y, c)
  {
    if b == [] {
      assert a + b == a && x + y == x;
    } else {
      var n := |b| - 1;
      assert (a + b)[..|a + b| - 1] == a + b[..n] && (x + y)[..|a + b| - 1] == x + y[..n];
      SelectConcat(a, x, b[..n], y[..n], c);
    }
  }

  ghost function RowNames(rows: seq<Row>): (s: seq<string>)
    ensures |s| == |rows|
  {
    seq(|rows|, i requires 0 <= i < |rows| => rows[i].name)
  }

  ghost function RowChanges(rows: seq<Row>, previous: Option<Results>): (s: seq<Change>)
    ensures |s| == |rows|
  {
    seq(|rows|, i requires 0 <= i < |rows| => ChangeOf(rows[i], previous))
  }

  ghost function CodeChanges(was: string, now: string): (s: seq<Change>)
    requires |was| == |now|
    ensures |s| == |was|
  {
    seq(|was|, i requires 0 <= i < |was| => CodeChange(was[i], now[i]))
  }

  datatype Lists = Lists(broke: seq<string>, still: seq<string>, unseen: seq<string>, repaired: seq<string>) {
    function Add(name: string, c: Change): Lists {
      match c
      case New => this.(broke := broke + [name])
      case Known => this.(still := still + [name])
      case Unseen => this.(unseen := unseen + [name])
      case Fixed => this.(repaired := repaired + [name])
      case Neither => this
    }
  }

  ghost function ListsOf(names: seq<string>, changes: seq<Change>): Lists
    requires |names| == |changes|
  {
    Lists(Select(names, changes, New), Select(names, changes, Known),
          Select(names, changes, Unseen), Select(names, changes, Fixed))
  }

  lemma ListsSnoc(names: seq<string>, changes: seq<Change>, name: string, change: Change)
    requires |names| == |changes|
    ensures ListsOf(names + [name], changes + [change]) == ListsOf(names, changes).Add(name, change)
  {
    SelectSnoc(names, changes, name, change, New);
    SelectSnoc(names, changes, name, change, Known);
    SelectSnoc(names, changes, name, change, Unseen);
    SelectSnoc(names, changes, name, change, Fixed);
  }

  /** The generator's failure buckets and fixed list. */
  method Classify(rows: seq<Row>, previous: Option<Results>) returns (l: Lists)
    ensures l == ListsOf(RowNames(rows), RowChanges(rows, previous))
  {
    l := Lists([], [], [], []);
    for i := 0 to |rows|
      invariant l == ListsOf(RowNames(rows[..i]), RowChanges(rows[..i], previous))
    {
      var c := ChangeOf(rows[i], previous);
      ListsSnoc(RowNames(rows[..i]), RowChanges(rows[..i], previous), rows[i].name, c);
      assert RowNames(rows[..i + 1]) == RowNames(rows[..i]) + [rows[i].name];
      assert RowChanges(rows[..i + 1], previous) == RowChanges(rows[..i], previous) + [c];
      l := l.Add(rows[i].name, c);
    }
    assert rows[..|rows|] == rows;
  }

  /** A word that stands for a failure. */
  ghost predicate Bad(o: Option<Outcome>) {
    o == Some(Failed) || o == Some(ApiFailed) || o == Some(Broken)
  }

  ghost predicate RowBroke(r: Row) {
    r.status == Fail || r.apiFailure
  }

  ghost function Was(previous: Option<Results>, name: string): Option<Outcome> {
    if previous.None? || name !in previous.value.tests then None else Some(previous.value.tests[name])
  }

  /** The four lists by the fields of the rows: a failing test is new if it was recorded as
      anything but a failure, still failing if it was recorded as one, and unseen if it was not
      recorded; fixed is what was recorded as a failure and is green now. */
  lemma ClassesMean(rows: seq<Row>, previous: Option<Results>, x: string)
    requires forall i :: 0 <= i < |rows| ==> Proper(rows[i])
    ensures var l := ListsOf(RowNames(rows), RowChanges(rows, previous));
            && (x in l.broke <==> exists i :: 0 <= i < |rows| && rows[i].name == x && RowBroke(rows[i])
                                              && Was(previous, x).Some? && !Bad(Was(previous, x)))
            && (x in l.still <==> exists i :: 0 <= i < |rows| && rows[i].name == x && RowBroke(rows[i])
                                              && Bad(Was(previous, x)))
            && (x in l.unseen <==> exists i :: 0 <= i < |rows| && rows[i].name == x && RowBroke(rows[i])
                                               && Was(previous, x).None?)
            && (x in l.repaired <==> exists i :: 0 <= i < |rows| && rows[i].name == x && rows[i].status == Pass
                                                 && Bad(Was(previous, x)))
  {
    var names, changes := RowNames(rows), RowChanges(rows, previous);
    SelectHolds(names, changes, New, x);
    SelectHolds(names, changes, Known, x);
    SelectHolds(names, changes, Unseen, x);
    SelectHolds(names, changes, Fixed, x);
    forall i | 0 <= i < |rows|
      ensures names[i] == rows[i].name && changes[i] == ChangeOf(rows[i], previous)
      ensures IsBad(OutcomeOf(rows[i])) <==> RowBroke(rows[i])
    {
      OutcomeMeans(rows[i]);
    }
  }

  /** The page's comparison of the current run with an earlier one. */
  method CompareRun(names: seq<string>, was: string, now: string) returns (l: Lists)
    requires |was| == |names| == |now|
    ensures l == ListsOf(names, CodeChanges(was, now))
  {
    l := Lists([], [], [], []);
    for k := 0 to |names|
      invariant l == ListsOf(names[..k], CodeChanges(was[..k], now[..k]))
    {
      var c := CodeChange(was[k], now[k]);
      ListsSnoc(names[..k], CodeChanges(was[..k], now[..k]), names[k], c);
      assert names[..k + 1] == names[..k] + [names[k]];
      assert CodeChanges(was[..k + 1], now[..k + 1]) == CodeChanges(was[..k], now[..k]) + [c];
      l := l.Add(names[k], c);
    }
    assert names[..|names|] == names && was[..|names|] == was && now[..|names|] == now;
  }

  // ----- the two agree -----

  /** `now` records the outcome of every row and nothing else. */
  ghost predicate RecordsRows(rows: seq<Row>, now: Results) {
    && UniqueNames(rows)
    && (forall i :: 0 <= i < |rows| ==> Proper(rows[i]) && now.Lookup(rows[i].name) == Some(OutcomeOf(rows[i])))
    && (forall n :: n in now.tests ==> exists i :: 0 <= i < |rows| && rows[i].name == n)
  }

  /** An uncoded word in the earlier run does no harm to this row. */
  predicate Unharmed(r: Row, before: Option<Outcome>) {
    && (before == Some(Broken) ==> OutcomeOf(r).Skipped?)
    && (before == Some(Unknown) ==> !IsBad(OutcomeOf(r)))
  }

  lemma RowAgrees(r: Row, was: Results)
    requires Proper(r)
    ensures ChangeOf(r, Some(was)) == CodeChange(Code(was.Lookup(r.name)), Code(Some(OutcomeOf(r))))
       <==> Unharmed(r, was.Lookup(r.name))
  {
  }

  /** A name is in the same lists on both sides. */
  ghost predicate SameAt(a: Lists, b: Lists, x: string) {
    && (x in a.broke <==> x in b.broke) && (x in a.still <==> x in b.still)
    && (x in a.unseen <==> x in b.unseen) && (x in a.repaired <==> x in b.repaired)
  }

  ghost predicate SameMembers(a: Lists, b: Lists) {
    forall x :: SameAt(a, b, x)
  }

  /** With distinct names, the lists tell the change at each name. */
  lemma ListsAt(names: seq<string>, changes: seq<Change>, i: nat)
    requires |names| == |changes| && Distinct(names) && i < |names|
    ensures var l := ListsOf(names, changes);
            && (names[i] in l.broke <==> changes[i] == New)
            && (names[i] in l.still <==> changes[i] == Known)
            && (names[i] in l.unseen <==> changes[i] == Unseen)
            && (names[i] in l.repaired <==> changes[i] == Fixed)
  {
    SelectHolds(names, changes, New, names[i]);
    SelectHolds(names, changes, Known, names[i]);
    SelectHolds(names, changes, Unseen, names[i]);
    SelectHolds(names, changes, Fixed, names[i]);
  }

  lemma ListsElsewhere(names: seq<string>, changes: seq<Change>, x: string)
    requires |names| == |changes| && x !in names
    ensures var l := ListsOf(names, changes); x !in l.broke && x !in l.still && x !in l.unseen && x !in l.repaired
  {
    SelectHolds(names, changes, New, x);
    SelectHolds(names, changes, Known, x);
    SelectHolds(names, changes, Unseen, x);
    SelectHolds(names, changes, Fixed, x);
  }

  /** The change the page sees at a name. */
  lemma PageAt(rows: seq<Row>, was: Results, now: Results, names: seq<string>, x: string)
    requires RecordsRows(rows, now) && Distinct(names)
    ensures var page := ListsOf(names, CodeChanges(Pack(was, names), Pack(now, names)));
            var c := if x in names then CodeChange(Code(was.Lookup(x)), Code(now.Lookup(x))) else Neither;
            && (x in page.broke <==> c == New) && (x in page.still <==> c == Known)
            && (x in page.unseen <==> c == Unseen) && (x in page.repaired <==> c == Fixed)
  {
    if x in names {
      var k :| 0 <= k < |names| && names[k] == x;
      ListsAt(names, CodeChanges(Pack(was, names), Pack(now, names)), k);
    } else {
      ListsElsewhere(names, CodeChanges(Pack(was, names), Pack(now, names)), x);
    }
  }

  /** The change the generator sees at a name. */
  lemma GeneratorAt(rows: seq<Row>, was: Results, i: nat)
    requires UniqueNames(rows) && i < |rows|
    ensures var gen := ListsOf(RowNames(rows), RowChanges(rows, Some(was)));
            var x, c := rows[i].name, ChangeOf(rows[i], Some(was));
            && (x in gen.broke <==> c == New) && (x in gen.still <==> c == Known)
            && (x in gen.unseen <==> c == Unseen) && (x in gen.repaired <==> c == Fixed)
  {
    var names := RowNames(rows);
    assert Distinct(names);
    ListsAt(names, RowChanges(rows, Some(was)), i);
  }

  /** Comparing with the previous run on the page yields exactly the generator's new,
      still failing, unseen and fixed tests, if and only if no word of the previous run
      that lacks a character stands in the way. */
  lemma ComparisonsAgree(rows: seq<Row>, was: Results, now: Results, names: seq<string>)
    requires RecordsRows(rows, now) && Distinct(names)
    requires forall n :: n in now.tests ==> n in names
    ensures SameMembers(ListsOf(RowNames(rows), RowChanges(rows, Some(was))),
                        ListsOf(names, CodeChanges(Pack(was, names), Pack(now, names))))
       <==> forall i :: 0 <= i < |rows| ==> Unharmed(rows[i], was.Lookup(rows[i].name))
  {
    var gen := ListsOf(RowNames(rows), RowChanges(rows, Some(was)));
    var page := ListsOf(names, CodeChanges(Pack(was, names), Pack(now, names)));
    forall i | 0 <= i < |rows|
      ensures SameAt(gen, page, rows[i].name) <==> Unharmed(rows[i], was.Lookup(rows[i].name))
    {
      var x := rows[i].name;
      assert now.Lookup(x) == Some(OutcomeOf(rows[i]));
      GeneratorAt(rows, was, i);
      PageAt(rows, was, now, names, x);
      RowAgrees(rows[i], was);
    }
    forall x | !exists i :: 0 <= i < |rows| && rows[i].name == x
      ensures SameAt(gen, page, x)
    {
      assert now.Lookup(x).None?;
      PageAt(rows, was, now, names, x);
      assert x !in RowNames(rows);
      ListsElsewhere(RowNames(rows), RowChanges(rows, Some(was)), x);
    }
  }
}
