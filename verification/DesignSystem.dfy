/** The design-system ratchet of app/scripts/check-ds.js: which hits of a changed file are
    new, and how the list of changed files is read from git. */
module TokenRatchet {
  import opened Options

  /** A hardcoded value: what it is, not where, with a 0-based line for reporting. */
  datatype Hit = Hit(key: string, line: nat)

  ghost function CountKey(hits: seq<Hit>, key: string): nat {
    if hits == [] then 0
    else CountKey(hits[..|hits| - 1], key) + if hits[|hits| - 1].key == key then 1 else 0
  }

  /** The hits whose ordinal among those with their key exceeds the count in the base. */
  ghost function Excess(base: seq<Hit>, head: seq<Hit>): seq<Hit> {
    if head == [] then []
    else
      var before, h := Excess(base, head[..|head| - 1]), head[|head| - 1];
      if CountKey(head, h.key) > CountKey(base, h.key) then before + [h] else before
  }

  function Budget(budget: map<string, nat>, key: string): nat {
    if key in budget then budget[key] else 0
  }

  ghost function Minus(a: nat, b: nat): nat {
    if a >= b then a - b else 0
  }

  lemma CountSnoc(hits: seq<Hit>, h: Hit, key: string)
    ensures CountKey(hits + [h], key) == CountKey(hits, key) + if h.key == key then 1 else 0
  {
    assert (hits + [h])[..|hits|] == hits;
  }

  /** How often each key may still be seen before it counts as new. */
  method FillBudget(base: Option<seq<Hit>>) returns (budget: map<string, nat>)
    ensures forall key :: Budget(budget, key) == CountKey(Hits(base), key)
  {
    budget := map[];
    var hits := if base.Some? then base.value else [];
    for i := 0 to |hits|
      invariant forall key :: Budget(budget, key) == CountKey(hits[..i], key)
    {
      assert hits[..i + 1][..i] == hits[..i];
      var key := hits[i].key;
      budget := budget[key := Budget(budget, key) + 1];
    }
    assert hits[..|hits|] == hits;
  }

  ghost function Hits(base: Option<seq<Hit>>): seq<Hit> {
    if base.Some? then base.value else []
  }

  /** The hits beyond what the base version of the file already had, before markers. */
  method NewHits(base: Option<seq<Hit>>, head: seq<Hit>) returns (kept: seq<Hit>)
    ensures kept == Excess(Hits(base), head)
  {
    var budget := FillBudget(base);
    kept := [];
    for i := 0 to |head|
      invariant kept == Excess(Hits(base), head[..i])
      invariant forall key :: Budget(budget, key) == Minus(CountKey(Hits(base), key), CountKey(head[..i], key))
    {
      assert head[..i + 1][..i] == head[..i];
      var h := head[i];
      var left := Budget(budget, h.key);
      if left > 0 {
        budget := budget[h.key := left - 1];
      } else {
        kept := kept + [h];
      }
    }
    assert head[..|head|] == head;
  }

  /** Per key, exactly the increase is reported: a multiset difference. */
  lemma {:induction false} ExcessCounts(base: seq<Hit>, head: seq<Hit>, key: string)
    ensures CountKey(Excess(base, head), key) == Minus(CountKey(head, key), CountKey(base, key))
  {
    if head != [] {
      var front, h := head[..|head| - 1], head[|head| - 1];
      ExcessCounts(base, front, key);
      CountSnoc(Excess(base, front), h, key);
    }
  }

  lemma {:induction false} EmptyMeansNone(hits: seq<Hit>)
    ensures hits == [] <==> forall key :: CountKey(hits, key) == 0
  {
    if hits != [] {
      assert CountKey(hits, hits[|hits| - 1].key) > 0;
    }
  }

  /** No key occurs more often than in the base. */
  ghost predicate NoIncrease(base: seq<Hit>, head: seq<Hit>) {
    forall key :: CountKey(head, key) <= CountKey(base, key)
  }

  /** Nothing is reported exactly when no key became more frequent.  In particular moving
      hits about reports nothing. */
  lemma SilentIffNoIncrease(base: seq<Hit>, head: seq<Hit>)
    ensures Excess(base, head) == [] <==> NoIncrease(base, head)
  {
    EmptyMeansNone(Excess(base, head));
    forall key
      ensures CountKey(Excess(base, head), key) == Minus(CountKey(head, key), CountKey(base, key))
    {
      ExcessCounts(base, head, key);
    }
    if !NoIncrease(base, head) {
      var key :| CountKey(head, key) > CountKey(base, key);
      assert CountKey(Excess(base, head), key) > 0;
    }
  }

  lemma {:induction false} CountIsMultiplicity(hits: seq<Hit>, keys: seq<string>, key: string)
    requires |keys| == |hits| && forall i :: 0 <= i < |hits| ==> keys[i] == hits[i].key
    ensures CountKey(hits, key) == multiset(keys)[key]
  {
    if hits != [] {
      var n := |hits| - 1;
      CountIsMultiplicity(hits[..n], keys[..n], key);
      assert keys == keys[..n] + [keys[n]];
    }
  }

  /** Two versions that hold the same values in a different order. */
  lemma ReorderingIsSilent(base: seq<Hit>, head: seq<Hit>, baseKeys: seq<string>, headKeys: seq<string>)
    requires |baseKeys| == |base| && forall i :: 0 <= i < |base| ==> baseKeys[i] == base[i].key
    requires |headKeys| == |head| && forall i :: 0 <= i < |head| ==> headKeys[i] == head[i].key
    requires multiset(baseKeys) == multiset(headKeys)
    ensures Excess(base, head) == []
  {
    forall key
      ensures CountKey(head, key) <= CountKey(base, key)
    {
      CountIsMultiplicity(base, baseKeys, key);
      CountIsMultiplicity(head, headKeys, key);
    }
    SilentIffNoIncrease(base, head);
  }

  // ----- allow markers -----

  /** What matters about a source line: an allow marker on it, and nothing but a comment. */
  datatype Line = Line(marked: bool, commentOnly: bool)

  predicate Marked(lines: seq<Line>, i: int) {
    0 <= i < |lines| && lines[i].marked
  }

  /** A marker at the end of the line, or on a comment of its own right above. */
  predicate Covered(lines: seq<Line>, h: Hit) {
    || Marked(lines, h.line)
    || (h.line > 0 && h.line - 1 < |lines| && lines[h.line - 1].commentOnly && Marked(lines, h.line - 1))
  }

  ghost function OnLine(hits: seq<Hit>, line: nat): nat {
    if hits == [] then 0
    else OnLine(hits[..|hits| - 1], line) + if hits[|hits| - 1].line == line then 1 else 0
  }

  ghost predicate Allowed(hits: seq<Hit>, lines: seq<Line>, oneHitPerLine: bool, h: Hit) {
    (!oneHitPerLine || OnLine(hits, h.line) == 1) && Covered(lines, h)
  }

  ghost function Unexcused(hits: seq<Hit>, all: seq<Hit>, lines: seq<Line>, oneHitPerLine: bool): seq<Hit> {
    if hits == [] then []
    else
      var before, h := Unexcused(hits[..|hits| - 1], all, lines, oneHitPerLine), hits[|hits| - 1];
      if Allowed(all, lines, oneHitPerLine, h) then before else before + [h.(line := h.line + 1)]
  }

  function CountAt(perLine: map<nat, nat>, n: nat): nat {
    if n in perLine then perLine[n] else 0
  }

  method CountPerLine(hits: seq<Hit>) returns (perLine: map<nat, nat>)
    ensures forall n :: CountAt(perLine, n) == OnLine(hits, n)
  {
    perLine := map[];
    for i := 0 to |hits|
      invariant forall n :: CountAt(perLine, n) == OnLine(hits[..i], n)
    {
      assert hits[..i + 1][..i] == hits[..i];
      perLine := perLine[hits[i].line := CountAt(perLine, hits[i].line) + 1];
    }
    assert hits[..|hits|] == hits;
  }

  /** Drop the hits an allow marker covers and number the lines of the rest from 1. */
  method ApplyAllowMarkers(hits: seq<Hit>, lines: seq<Line>, oneHitPerLine: bool) returns (out: seq<Hit>)
    ensures out == Unexcused(hits, hits, lines, oneHitPerLine)
    ensures Reports(out, hits, Unmarked(hits, lines, oneHitPerLine))
  {
    var perLine := CountPerLine(hits);
    out := [];
    for i := 0 to |hits|
      invariant out == Unexcused(hits[..i], hits, lines, oneHitPerLine)
    {
      assert hits[..i + 1][..i] == hits[..i];
      var h := hits[i];
      var allowed := (!oneHitPerLine || CountAt(perLine, h.line) == 1) && Covered(lines, h);
      assert allowed == Allowed(hits, lines, oneHitPerLine, h);
      if !allowed {
        out := out + [h.(line := h.line + 1)];
      }
    }
    assert hits[..|hits|] == hits;
    MarkersReport(hits, lines, oneHitPerLine);
  }

  /** The violations a change is blamed for: in file order, every hit that is one too many of its
      key and has no marker. */
  method NewTokenViolations(base: Option<seq<Hit>>, head: seq<Hit>, lines: seq<Line>) returns (out: seq<Hit>)
    ensures out == [] <==> Accepted(Hits(base), head, lines)
    ensures Reports(out, head, Blamed(Hits(base), head, lines))
    ensures forall key :: CountKey(out, key) == |WithKey(head, Blamed(Hits(base), head, lines), key)|
  {
    var kept := NewHits(base, head);
    out := ApplyAllowMarkers(kept, lines, false);
    AllExcused(kept, kept, lines);
    ghost var at := ViolationsReport(Hits(base), head, kept, lines);
    ListsReport(out, head, at);
    forall key
      ensures CountKey(out, key) == |WithKey(head, Blamed(Hits(base), head, lines), key)|
    {
      ListedCount(out, head, at, key);
    }
  }

  /** Every hit beyond the base is excused by a marker. */
  ghost predicate Accepted(base: seq<Hit>, head: seq<Hit>, lines: seq<Line>) {
    forall i :: 0 <= i < |Excess(base, head)| ==> Covered(lines, Excess(base, head)[i])
  }

  lemma {:induction false} AllExcused(hits: seq<Hit>, all: seq<Hit>, lines: seq<Line>)
    ensures Unexcused(hits, all, lines, false) == [] <==> forall i :: 0 <= i < |hits| ==> Covered(lines, hits[i])
  {
    if hits != [] {
      AllExcused(hits[..|hits| - 1], all, lines);
      assert hits == hits[..|hits| - 1] + [hits[|hits| - 1]];
    }
  }

  // ----- exactly which hits are reported -----

  /** The report lists the hits at the positions `at`, in that order, with lines numbered from 1. */
  ghost predicate ReportsAt(out: seq<Hit>, hits: seq<Hit>, at: seq<nat>) {
    && |out| == |at|
    && (forall i, j :: 0 <= i < j < |at| ==> at[i] < at[j])
    && (forall i :: 0 <= i < |at| ==>
                      at[i] < |hits| && out[i].key == hits[at[i]].key && out[i].line == hits[at[i]].line + 1)
  }

  ghost function Positions(at: seq<nat>): set<nat> {
    set k | k in at
  }

  /** The report lists exactly the hits at the positions `blamed`, in file order. */
  ghost predicate Reports(out: seq<Hit>, hits: seq<Hit>, blamed: set<nat>) {
    exists at :: ReportsAt(out, hits, at) && Positions(at) == blamed
  }

  /** A marker on line `n`, or on the line above if there is nothing but a comment on that. */
  ghost predicate MarkerFor(lines: seq<Line>, n: nat) {
    || (n < |lines| && lines[n].marked)
    || (1 <= n <= |lines| && lines[n - 1].marked && lines[n - 1].commentOnly)
  }

  /** No other hit is on the line of hit `k`. */
  ghost predicate AloneOnLine(hits: seq<Hit>, k: nat)
    requires k < |hits|
  {
    forall j :: 0 <= j < |hits| && j != k ==> hits[j].line != hits[k].line
  }

  /** The hits without a marker that covers them. */
  ghost function Unmarked(hits: seq<Hit>, lines: seq<Line>, oneHitPerLine: bool): set<nat> {
    set k: nat | k < |hits| && !((oneHitPerLine ==> AloneOnLine(hits, k)) && MarkerFor(lines, hits[k].line))
  }

  /** Hit `k` is one too many of its key: with those before it there are more than in the base. */
  ghost predicate OneTooMany(base: seq<Hit>, head: seq<Hit>, k: nat)
    requires k < |head|
  {
    CountKey(head[..k + 1], head[k].key) > CountKey(base, head[k].key)
  }

  ghost function Blamed(base: seq<Hit>, head: seq<Hit>, lines: seq<Line>): set<nat> {
    set k: nat | k < |head| && OneTooMany(base, head, k) && !MarkerFor(lines, head[k].line)
  }

  lemma {:induction false} OnLineIsNone(hits: seq<Hit>, n: nat)
    ensures OnLine(hits, n) == 0 <==> forall j :: 0 <= j < |hits| ==> hits[j].line != n
  {
    if hits != [] {
      OnLineIsNone(hits[..|hits| - 1], n);
    }
  }

  lemma {:induction false} OnLineIsOne(hits: seq<Hit>, k: nat)
    requires k < |hits|
    ensures OnLine(hits, hits[k].line) == 1 <==> AloneOnLine(hits, k)
    ensures OnLine(hits, hits[k].line) >= 1
  {
    var last := |hits| - 1;
    var front := hits[..last];
    assert forall j :: 0 <= j < last ==> front[j] == hits[j];
    OnLineIsNone(front, hits[last].line);
    if k < last {
      OnLineIsOne(front, k);
      assert AloneOnLine(hits, k) <==> AloneOnLine(front, k) && hits[last].line != hits[k].line;
    }
  }

  lemma CoveredMeans(lines: seq<Line>, h: Hit)
    ensures Covered(lines, h) <==> MarkerFor(lines, h.line)
  {
  }

  /** The same, built up from the back. */
  ghost predicate Lists(out: seq<Hit>, hits: seq<Hit>, at: seq<nat>) {
    if at == [] then out == []
    else
      var n := |at| - 1;
      && |out| == |at| && at[n] < |hits|
      && out[n] == Hit(hits[at[n]].key, hits[at[n]].line + 1)
      && Lists(out[..n], hits[..at[n]], at[..n])
  }

  lemma {:induction false} ListsReport(out: seq<Hit>, hits: seq<Hit>, at: seq<nat>)
    requires Lists(out, hits, at)
    ensures ReportsAt(out, hits, at)
  {
    if at != [] {
      ListsReport(out[..|at| - 1], hits[..at[|at| - 1]], at[..|at| - 1]);
    }
  }

  /** One more hit that is not blamed ... */
  lemma ListsMore(out: seq<Hit>, hits: seq<Hit>, at: seq<nat>, n: nat)
    requires n <= |hits| && Lists(out, hits[..n], at)
    ensures Lists(out, hits, at)
  {
    if at != [] {
      var k := at[|at| - 1];
      assert hits[..n][..k] == hits[..k];
    }
  }

  /** ... and one that is. */
  lemma ListsSnoc(out: seq<Hit>, hits: seq<Hit>, at: seq<nat>, n: nat)
    requires n < |hits| && Lists(out, hits[..n], at)
    ensures Lists(out + [Hit(hits[n].key, hits[n].line + 1)], hits, at + [n])
    ensures Positions(at + [n]) == Positions(at) + {n}
  {
    var more := out + [Hit(hits[n].key, hits[n].line + 1)];
    assert (at + [n])[..|at|] == at && more[..|out|] == out;
    assert at == [] ==> out == [];
  }

  ghost function NotAllowed(hits: seq<Hit>, all: seq<Hit>, lines: seq<Line>, one: bool): set<nat> {
    set k: nat | k < |hits| && !Allowed(all, lines, one, hits[k])
  }

  lemma NotAllowedSnoc(hits: seq<Hit>, n: nat, all: seq<Hit>, lines: seq<Line>, one: bool)
    requires n + 1 == |hits|
    ensures var before := NotAllowed(hits[..n], all, lines, one);
            NotAllowed(hits, all, lines, one) == if Allowed(all, lines, one, hits[n]) then before else before + {n}
  {
  }

  lemma {:induction false} UnexcusedReports(hits: seq<Hit>, all: seq<Hit>, lines: seq<Line>, one: bool)
    returns (at: seq<nat>)
    ensures Lists(Unexcused(hits, all, lines, one), hits, at)
    ensures Positions(at) == NotAllowed(hits, all, lines, one)
  {
    if hits == [] {
      at := [];
    } else {
      var n := |hits| - 1;
      var before := Unexcused(hits[..n], all, lines, one);
      at := UnexcusedReports(hits[..n], all, lines, one);
      NotAllowedSnoc(hits, n, all, lines, one);
      if Allowed(all, lines, one, hits[n]) {
        ListsMore(before, hits, at, n);
      } else {
        ListsSnoc(before, hits, at, n);
        at := at + [n];
      }
    }
  }

  /** Which hits a pass over the markers leaves. */
  lemma MarkersReport(hits: seq<Hit>, lines: seq<Line>, one: bool)
    ensures Reports(Unexcused(hits, hits, lines, one), hits, Unmarked(hits, lines, one))
  {
    var at := UnexcusedReports(hits, hits, lines, one);
    forall k: nat | k < |hits|
      ensures k in NotAllowed(hits, hits, lines, one) <==> k in Unmarked(hits, lines, one)
    {
      OnLineIsOne(hits, k);
      CoveredMeans(lines, hits[k]);
    }
    assert NotAllowed(hits, hits, lines, one) == Unmarked(hits, lines, one);
    ListsReport(Unexcused(hits, hits, lines, one), hits, at);
  }

  lemma BlamedSnoc(base: seq<Hit>, head: seq<Hit>, n: nat, lines: seq<Line>)
    requires n + 1 == |head|
    ensures CountKey(head, head[n].key) > CountKey(base, head[n].key) && !Covered(lines, head[n])
            ==> Blamed(base, head, lines) == Blamed(base, head[..n], lines) + {n}
    ensures !(CountKey(head, head[n].key) > CountKey(base, head[n].key) && !Covered(lines, head[n]))
            ==> Blamed(base, head, lines) == Blamed(base, head[..n], lines)
  {
    CoveredMeans(lines, head[n]);
    assert head[..n + 1] == head;
    forall k: nat | k < n
      ensures k in Blamed(base, head, lines) <==> k in Blamed(base, head[..n], lines)
    {
      assert head[..n][..k + 1] == head[..k + 1];
    }
  }

  lemma UnexcusedSnoc(kept: seq<Hit>, h: Hit, all: seq<Hit>, lines: seq<Line>)
    ensures Unexcused(kept + [h], all, lines, false)
         == if Covered(lines, h) then Unexcused(kept, all, lines, false)
            else Unexcused(kept, all, lines, false) + [Hit(h.key, h.line + 1)]
  {
    assert (kept + [h])[..|kept|] == kept;
  }

  /** The hits of a change that are one too many and not excused, by their positions. */
  lemma {:induction false} ViolationsReport(base: seq<Hit>, head: seq<Hit>, all: seq<Hit>, lines: seq<Line>)
    returns (at: seq<nat>)
    ensures Lists(Unexcused(Excess(base, head), all, lines, false), head, at)
    ensures Positions(at) == Blamed(base, head, lines)
  {
    if head == [] {
      at := [];
    } else {
      var n := |head| - 1;
      var before := Unexcused(Excess(base, head[..n]), all, lines, false);
      var blamed := CountKey(head, head[n].key) > CountKey(base, head[n].key) && !Covered(lines, head[n]);
      at := ViolationsReport(base, head[..n], all, lines);
      BlamedSnoc(base, head, n, lines);
      ViolationStep(base, head, n, all, lines, before, blamed);
      if blamed {
        ListsSnoc(before, head, at, n);
        at := at + [n];
      } else {
        ListsMore(before, head, at, n);
      }
    }
  }

  lemma ViolationStep(
    base: seq<Hit>, head: seq<Hit>, n: nat, all: seq<Hit>, lines: seq<Line>, before: seq<Hit>, blamed: bool)
    requires n + 1 == |head| && before == Unexcused(Excess(base, head[..n]), all, lines, false)
    requires blamed == (CountKey(head, head[n].key) > CountKey(base, head[n].key) && !Covered(lines, head[n]))
    ensures blamed ==>
              Unexcused(Excess(base, head), all, lines, false) == before + [Hit(head[n].key, head[n].line + 1)]
    ensures !blamed ==> Unexcused(Excess(base, head), all, lines, false) == before
  {
    var kept := Excess(base, head[..n]);
    if CountKey(head, head[n].key) > CountKey(base, head[n].key) {
      assert Excess(base, head) == kept + [head[n]];
      UnexcusedSnoc(kept, head[n], all, lines);
    } else {
      assert Excess(base, head) == kept;
    }
  }

  ghost function WithKey(hits: seq<Hit>, positions: set<nat>, key: string): set<nat> {
    set k | k in positions && k < |hits| && hits[k].key == key
  }

  lemma WithKeyAdd(hits: seq<Hit>, positions: set<nat>, k: nat, key: string)
    requires k < |hits| && forall j :: j in positions ==> j < k
    ensures |WithKey(hits, positions + {k}, key)|
         == |WithKey(hits[..k], positions, key)| + if hits[k].key == key then 1 else 0
  {
    assert WithKey(hits, positions, key) == WithKey(hits[..k], positions, key);
    if hits[k].key == key {
      assert WithKey(hits, positions + {k}, key) == WithKey(hits, positions, key) + {k};
    } else {
      assert WithKey(hits, positions + {k}, key) == WithKey(hits, positions, key);
    }
  }

  lemma {:induction false} ListedBelow(out: seq<Hit>, hits: seq<Hit>, at: seq<nat>)
    requires Lists(out, hits, at)
    ensures forall k :: k in Positions(at) ==> k < |hits|
  {
    if at != [] {
      var n := |at| - 1;
      ListedBelow(out[..n], hits[..at[n]], at[..n]);
      assert Positions(at) == Positions(at[..n]) + {at[n]} by { assert at == at[..n] + [at[n]]; }
    }
  }

  /** As many hits of a key are listed as there are positions that hold it. */
  lemma {:induction false} ListedCount(out: seq<Hit>, hits: seq<Hit>, at: seq<nat>, key: string)
    requires Lists(out, hits, at)
    ensures CountKey(out, key) == |WithKey(hits, Positions(at), key)|
  {
    if at == [] {
      assert WithKey(hits, Positions(at), key) == {};
    } else {
      var n := |at| - 1;
      var k := at[n];
      assert CountKey(out, key) == CountKey(out[..n], key) + if hits[k].key == key then 1 else 0;
      ListedCount(out[..n], hits[..k], at[..n], key);
      ListedBelow(out[..n], hits[..k], at[..n]);
      assert Positions(at) == Positions(at[..n]) + {k} by { assert at == at[..n] + [k]; }
      WithKeyAdd(hits, Positions(at[..n]), k, key);
    }
  }

  // ----- every chain of accepted versions -----

  /** One version of a file. */
  datatype Version = Version(hits: seq<Hit>, lines: seq<Line>)

  ghost function CoveredCount(v: Version, hits: seq<Hit>, key: string): nat {
    if hits == [] then 0
    else
      CoveredCount(v, hits[..|hits| - 1], key) +
      if hits[|hits| - 1].key == key && Covered(v.lines, hits[|hits| - 1]) then 1 else 0
  }

  ghost predicate AcceptedChain(versions: seq<Version>) {
    forall i :: 0 < i < |versions| ==> Accepted(versions[i - 1].hits, versions[i].hits, versions[i].lines)
  }

  /** The hits with a key that markers excuse, over all versions after the first. */
  ghost function Excused(versions: seq<Version>, key: string): nat {
    if |versions| <= 1 then 0
    else
      var v := versions[|versions| - 1];
      Excused(versions[..|versions| - 1], key) + CoveredCount(v, v.hits, key)
  }

  lemma {:induction false} ExcessIsExcused(base: seq<Hit>, head: seq<Hit>, v: Version, key: string)
    requires forall i :: 0 <= i < |Excess(base, head)| ==> Covered(v.lines, Excess(base, head)[i])
    ensures CountKey(Excess(base, head), key) <= CoveredCount(v, head, key)
  {
    if head != [] {
      var front, h := head[..|head| - 1], head[|head| - 1];
      var before, after := Excess(base, front), Excess(base, head);
      if CountKey(head, h.key) > CountKey(base, h.key) {
        assert after == before + [h];
        assert forall i :: 0 <= i < |before| ==> before[i] == after[i];
        assert Covered(v.lines, h) by { assert after[|before|] == h; }
        ExcessIsExcused(base, front, v, key);
        CountSnoc(before, h, key);
      } else {
        assert after == before;
        ExcessIsExcused(base, front, v, key);
      }
    }
  }

  /** Over any chain of accepted versions the count of a key rises by no more than the
      excused hits; without markers it never rises. */
  lemma {:induction false} ChainRatchets(versions: seq<Version>, key: string)
    requires versions != [] && AcceptedChain(versions)
    ensures CountKey(versions[|versions| - 1].hits, key) <= CountKey(versions[0].hits, key) + Excused(versions, key)
  {
    if |versions| > 1 {
      var front, v := versions[..|versions| - 1], versions[|versions| - 1];
      var before := front[|front| - 1];
      assert forall i :: 0 <= i < |front| ==> front[i] == versions[i];
      ChainRatchets(front, key);
      assert Accepted(before.hits, v.hits, v.lines);
      ExcessIsExcused(before.hits, v.hits, v, key);
      ExcessCounts(before.hits, v.hits, key);
    }
  }
}

/** The reader of `git diff --name-status -z`. */
module NameStatus {
  import opened Sequences
  import opened Options

  /** One record of the listing: renames and copies carry two paths. */
  datatype Record = OnePath(status: string, path: string) | TwoPaths(status: string, from: string, to: string)

  const NUL: char := '\0'

  predicate Moves(status: string) {
    |status| > 0 && (status[0] == 'R' || status[0] == 'C')
  }

  ghost predicate WellFormed(r: Record) {
    && NUL !in r.status
    && (r.TwoPaths? <==> |r.status| > 0 && (r.status[0] == 'R' || r.status[0] == 'C'))
    && if r.TwoPaths? then NUL !in r.from && NUL !in r.to else NUL !in r.path
  }

  ghost function Fields(rs: seq<Record>): seq<string> {
    if rs == [] then []
    else (if rs[0].TwoPaths? then [rs[0].status, rs[0].from, rs[0].to] else [rs[0].status, rs[0].path])
         + Fields(rs[1..])
  }

  /** What git prints: every field ends with a NUL. */
  ghost function Print(fields: seq<string>): string {
    if fields == [] then [] else fields[0] + [NUL] + Print(fields[1..])
  }

  function SplitNul(s: string): (fields: seq<string>)
    ensures fields != []
  {
    if s == [] then [[]]
    else
      var rest := SplitNul(s[1..]);
      if s[0] == NUL then [[]] + rest else [[s[0]] + rest[0]] + rest[1..]
  }

  /** A changed file and the file to compare it with.  `None` as file is a read past the end. */
  datatype Change = Change(file: Option<string>, baseFile: Option<string>)

  function Read(out: seq<string>, i: nat): Option<string> {
    if i < |out| then Some(out[i]) else None
  }

  ghost function Changes(out: seq<string>, i: nat): seq<Change>
    decreases |out| - i
  {
    if i + 1 >= |out| then []
    else if Moves(out[i]) then
      [Change(Read(out, i + 2), if out[i][0] == 'R' then Read(out, i + 1) else None)] + Changes(out, i + 3)
    else if out[i] == "D" then Changes(out, i + 2)
    else [Change(Read(out, i + 1), if out[i] == "A" then None else Read(out, i + 1))] + Changes(out, i + 2)
  }

  method ChangedFiles(listing: string) returns (changes: seq<Change>)
    ensures changes == Changes(SplitNul(listing), 0)
  {
    var out := SplitNul(listing);
    changes := [];
    var i := 0;
    while i + 1 < |out|
      invariant 0 <= i
      invariant changes + Changes(out, i) == Changes(out, 0)
      decreases |out| - i
    {
      ghost var todo := Changes(out, i);
      var status := out[i];
      i := i + 1;
      if Moves(status) {
        var baseFile := Read(out, i);
        i := i + 1;
        var c := Change(Read(out, i), if status[0] == 'R' then baseFile else None);
        i := i + 1;
        assert todo == [c] + Changes(out, i);
        Regroup(changes, c, Changes(out, i));
        changes := changes + [c];
      } else if status == "D" {
        i := i + 1;
      } else {
        var file := Read(out, i);
        i := i + 1;
        var c := Change(file, if status == "A" then None else file);
        assert todo == [c] + Changes(out, i);
        Regroup(changes, c, Changes(out, i));
        changes := changes + [c];
      }
    }
  }

  // ----- reading inverts printing -----

  lemma {:induction false} SplitField(f: string, rest: string)
    requires NUL !in f
    ensures SplitNul(f + [NUL] + rest) == [f] + SplitNul(rest)
  {
    var s := f + [NUL] + rest;
    if f == [] {
      assert s[1..] == rest;
    } else {
      assert s[1..] == f[1..] + [NUL] + rest;
      SplitField(f[1..], rest);
      var tail := SplitNul(s[1..]);
      assert s[0] == f[0] && f[0] in f;
      assert tail[0] == f[1..] && tail[1..] == SplitNul(rest);
      assert [f[0]] + f[1..] == f;
    }
  }

  lemma {:induction false} SplitPrinted(fields: seq<string>)
    requires forall i :: 0 <= i < |fields| ==> NUL !in fields[i]
    ensures SplitNul(Print(fields)) == fields + [[]]
  {
    if fields != [] {
      SplitPrinted(fields[1..]);
      SplitField(fields[0], Print(fields[1..]));
      assert [fields[0]] + (fields[1..] + [[]]) == fields + [[]];
    }
  }

  /** The change a record stands for. */
  ghost function Expected(rs: seq<Record>): seq<Change> {
    if rs == [] then []
    else
      var r, rest := rs[0], Expected(rs[1..]);
      if r.TwoPaths? then
        [Change(Some(r.to), if |r.status| > 0 && r.status[0] == 'R' then Some(r.from) else None)] + rest
      else if r.status == "D" then rest
      else [Change(Some(r.path), if r.status == "A" then None else Some(r.path))] + rest
  }

  /** The changes, read off the records: a rename is compared with the file it comes from, a copy
      and an added file with nothing, any other file with itself, and a deletion is no change. */
  lemma {:induction false} ExpectedMeans(rs: seq<Record>, file: string, base: Option<string>)
    ensures Change(Some(file), base) in Expected(rs)
       <==> exists i :: 0 <= i < |rs|
                        && if rs[i].OnePath? then
                             rs[i].path == file && rs[i].status != "D"
                             && base == if rs[i].status == "A" then None else Some(file)
                           else
                             rs[i].to == file
                             && base == if rs[i].status != "" && rs[i].status[0] == 'R' then Some(rs[i].from) else None
  {
    if rs != [] {
      ExpectedMeans(rs[1..], file, base);
      assert rs == [rs[0]] + rs[1..];
      assert forall i :: 0 <= i < |rs| - 1 ==> rs[1..][i] == rs[i + 1];
      assert forall i :: 0 < i < |rs| ==> rs[i] == rs[1..][i - 1];
    }
  }

  lemma {:induction false} ReadsRecords(done: seq<string>, rs: seq<Record>)
    requires forall i :: 0 <= i < |rs| ==> WellFormed(rs[i])
    ensures Changes(done + Fields(rs) + [[]], |done|) == Expected(rs)
    decreases |rs|
  {
    var out := done + Fields(rs) + [[]];
    if rs == [] {
    } else {
      var r := rs[0];
      var mine := if r.TwoPaths? then [r.status, r.from, r.to] else [r.status, r.path];
      assert out == (done + mine) + Fields(rs[1..]) + [[]];
      ReadsRecords(done + mine, rs[1..]);
      var i := |done|;
      assert out[i] == r.status && out[i + 1] == mine[1];
      if r.TwoPaths? {
        assert out[i + 2] == r.to;
      }
    }
  }

  lemma {:induction false} FieldsHaveNoNul(rs: seq<Record>)
    requires forall i :: 0 <= i < |rs| ==> WellFormed(rs[i])
    ensures forall i :: 0 <= i < |Fields(rs)| ==> NUL !in Fields(rs)[i]
  {
    if rs != [] {
      FieldsHaveNoNul(rs[1..]);
    }
  }

  /** Reading what git printed gives one change per record that is not a deletion, with
      the right file to compare with, and never reads past the end. */
  lemma ParseInvertsPrint(rs: seq<Record>)
    requires forall i :: 0 <= i < |rs| ==> WellFormed(rs[i])
    ensures Changes(SplitNul(Print(Fields(rs))), 0) == Expected(rs)
    ensures forall i :: 0 <= i < |Expected(rs)| ==> Expected(rs)[i].file.Some?
  {
    FieldsHaveNoNul(rs);
    SplitPrinted(Fields(rs));
    ReadsRecords([], rs);
    assert [] + Fields(rs) + [[]] == Fields(rs) + [[]];
    ExpectedComplete(rs);
  }

  lemma {:induction false} ExpectedComplete(rs: seq<Record>)
    ensures forall i :: 0 <= i < |Expected(rs)| ==> Expected(rs)[i].file.Some?
  {
    if rs != [] {
      ExpectedComplete(rs[1..]);
    }
  }
}
