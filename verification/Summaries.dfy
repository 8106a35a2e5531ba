/** The figures and lists that go into the summaries: `percentile` of
    app-e2e-tests/scripts/generate-e2e-report.js. */
module Percentiles {

  function Ceiling(x: real): int {
    -((-x).Floor)
  }

  function Percentile(sorted: seq<int>, p: real): int {
    if sorted == [] then 0
    else
      var idx := Ceiling(p / 100.0 * |sorted| as real) - 1;
      var capped := if idx < |sorted| - 1 then idx else |sorted| - 1;
      sorted[if capped > 0 then capped else 0]
  }

  ghost predicate Sorted(s: seq<int>) {
    forall i, j :: 0 <= i < j < |s| ==> s[i] <= s[j]
  }

  ghost function AtMost(s: seq<int>, x: int): nat {
    if s == [] then 0 else AtMost(s[..|s| - 1], x) + if s[|s| - 1] <= x then 1 else 0
  }

  ghost function Below(s: seq<int>, x: int): nat {
    if s == [] then 0 else Below(s[..|s| - 1], x) + if s[|s| - 1] < x then 1 else 0
  }

  lemma {:induction false} AtMostBound(s: seq<int>, x: int, k: nat)
    requires k <= |s| && forall i :: 0 <= i < k ==> s[i] <= x
    ensures k <= AtMost(s, x)
  {
    if s != [] {
      AtMostBound(s[..|s| - 1], x, if k == |s| then k - 1 else k);
    }
  }

  lemma {:induction false} BelowBound(s: seq<int>, x: int, k: nat)
    requires k <= |s| && forall i :: k <= i < |s| ==> s[i] >= x
    ensures Below(s, x) <= k
  {
    if s != [] {
      BelowBound(s[..|s| - 1], x, if k == |s| then k - 1 else k);
    }
  }

  lemma RankInRange(n: nat, p: real, share: real)
    requires n > 0 && 0.0 < p <= 100.0 && share == p / 100.0 * n as real
    ensures 0.0 < share <= n as real
    ensures 1 <= Ceiling(share) <= n
    ensures share <= Ceiling(share) as real < share + 1.0
  {
    var c := p / 100.0;
    assert 0.0 < c <= 1.0;
    assert c * n as real <= 1.0 * n as real;
  }

  /** Nearest rank: at least p percent of the samples are no greater than the result, and
      fewer than p percent are strictly below it. */
  lemma NearestRank(sorted: seq<int>, p: real, share: real)
    requires sorted != [] && Sorted(sorted) && 0.0 < p <= 100.0
    requires share == p / 100.0 * |sorted| as real
    ensures Percentile(sorted, p) in sorted
    ensures AtMost(sorted, Percentile(sorted, p)) as real >= share
    ensures (Below(sorted, Percentile(sorted, p)) as real) < share
  {
    RankInRange(|sorted|, p, share);
    var k := Ceiling(share);
    var x := sorted[k - 1];
    assert Percentile(sorted, p) == x;
    AtMostBound(sorted, x, k);
    BelowBound(sorted, x, k - 1);
  }
}

/** `buildTestListBlock` of app-e2e-tests/notifications/SlackReporter.ts.  Lengths are those of
    the text as a sequence of 16-bit units. */
module TestLists {
  import opened Numerals

  const BULLET: string := ['\U{2022}', ' ']

  function LineOf(test: string): string {
    BULLET + test
  }

  /** "_...and N more_", with a single character for the dots. */
  function Footer(n: nat): string {
    ['_', '\U{2026}', 'a', 'n', 'd', ' '] + Decimal(n) + [' ', 'm', 'o', 'r', 'e', '_']
  }

  function JoinLines(lines: seq<string>): string {
    if lines == [] then [] else if |lines| == 1 then lines[0]
    else JoinLines(lines[..|lines| - 1]) + ['\n'] + lines[|lines| - 1]
  }

  /** The room a list of tests takes, a line break after each. */
  ghost function Room(tests: seq<string>): nat {
    if tests == [] then 0 else Room(tests[..|tests| - 1]) + |LineOf(tests[|tests| - 1])| + 1
  }

  ghost function Lines(tests: seq<string>): (ls: seq<string>)
    ensures |ls| == |tests|
  {
    seq(|tests|, i requires 0 <= i < |tests| => LineOf(tests[i]))
  }

  /** The first `shown` tests are listed and the rest are counted. */
  ghost function Block(tests: seq<string>, shown: nat): seq<string>
    requires shown <= |tests|
  {
    Lines(tests[..shown]) + if shown < |tests| then [Footer(|tests| - shown)] else []
  }

  /** How many of the tests fit, from the front; `n` are known to. */
  ghost function Shown(tests: seq<string>, maxLen: nat, n: nat): (k: nat)
    requires n <= |tests| && Room(tests[..n]) <= maxLen
    ensures n <= k <= |tests| && Room(tests[..k]) <= maxLen
    ensures k < |tests| ==> Room(tests[..k + 1]) > maxLen
    decreases |tests| - n
  {
    if n < |tests| && Room(tests[..n + 1]) <= maxLen then Shown(tests, maxLen, n + 1) else n
  }

  method BuildTestListBlock(tests: seq<string>, maxLen: nat) returns (text: string)
    ensures text == JoinLines(Block(tests, Shown(tests, maxLen, 0)))
    ensures tests == [] ==> text == ""
  {
    var lines: seq<string>, len, i := [], 0, 0;
    while i < |tests|
      invariant 0 <= i <= |tests|
      invariant lines == Lines(tests[..i]) && len == Room(tests[..i]) <= maxLen
      invariant Shown(tests, maxLen, i) == Shown(tests, maxLen, 0)
    {
      var line := LineOf(tests[i]);
      assert tests[..i + 1][..i] == tests[..i];
      if len + |line| + 1 > maxLen {
        lines := lines + [Footer(|tests| - i)];
        text := JoinLines(lines);
        return;
      }
      lines := lines + [line];
      len := len + |line| + 1;
      i := i + 1;
    }
    assert Block(tests, i) == lines;
    text := JoinLines(lines);
  }

  lemma {:induction false} JoinedLength(tests: seq<string>)
    ensures tests != [] ==> |JoinLines(Lines(tests))| == Room(tests) - 1
  {
    if |tests| > 1 {
      JoinedLength(tests[..|tests| - 1]);
      assert Lines(tests)[..|tests| - 1] == Lines(tests[..|tests| - 1]);
    } else if |tests| == 1 {
      assert tests[..0] == [];
    }
  }

  /** The text exceeds the limit by no more than the footer. */
  lemma BlockLength(tests: seq<string>, shown: nat, maxLen: nat)
    requires shown <= |tests| && Room(tests[..shown]) <= maxLen
    ensures |JoinLines(Block(tests, shown))| <= maxLen + if shown < |tests| then |Footer(|tests| - shown)| else 0
  {
    var block := Block(tests, shown);
    JoinedLength(tests[..shown]);
    if shown < |tests| {
      assert block[..shown] == Lines(tests[..shown]);
      assert block[shown] == Footer(|tests| - shown);
    } else {
      assert block == Lines(tests[..shown]);
    }
  }

  // ----- reading the text back -----

  /** More text on the last line. */
  ghost function Longer(lines: seq<string>, text: string): seq<string>
    requires lines != []
  {
    lines[..|lines| - 1] + [lines[|lines| - 1] + text]
  }

  ghost function SplitLines(text: string): (r: seq<string>)
    ensures r != []
  {
    if text == [] then [[]]
    else
      var before, c := SplitLines(text[..|text| - 1]), text[|text| - 1];
      if c == '\n' then before + [[]] else Longer(before, [c])
  }

  lemma LongerTwice(lines: seq<string>, a: string, b: string)
    requires lines != []
    ensures Longer(Longer(lines, a), b) == Longer(lines, a + b)
  {
    var last := lines[|lines| - 1];
    assert last + a + b == last + (a + b);
    assert Longer(lines, a)[..|lines| - 1] == lines[..|lines| - 1];
  }

  lemma LongerByNothing(lines: seq<string>)
    requires lines != []
    ensures Longer(lines, []) == lines
  {
    assert lines[|lines| - 1] + [] == lines[|lines| - 1];
  }

  lemma LongerFromNothing(lines: seq<string>, text: string)
    ensures Longer(lines + [[]], text) == lines + [text]
  {
    assert [] + text == text;
    assert (lines + [[]])[..|lines|] == lines;
  }

  lemma {:induction false} SplitAppend(text: string, line: string, all: string)
    requires '\n' !in line && all == text + line
    ensures SplitLines(all) == Longer(SplitLines(text), line)
  {
    if line == [] {
      assert all == text;
      LongerByNothing(SplitLines(text));
    } else {
      var n := |line| - 1;
      SplitAppend(text, line[..n], all[..|all| - 1]);
      LongerTwice(SplitLines(text), line[..n], [line[n]]);
      assert line[..n] + [line[n]] == line;
    }
  }

  lemma SplitBreak(text: string, line: string, broken: string, all: string)
    requires '\n' !in line && broken == text + ['\n'] && all == broken + line
    ensures SplitLines(all) == SplitLines(text) + [line]
  {
    assert broken[..|broken| - 1] == text;
    SplitAppend(broken, line, all);
    LongerFromNothing(SplitLines(text), line);
  }

  lemma {:induction false} SplitJoined(lines: seq<string>)
    requires lines != [] && forall i :: 0 <= i < |lines| ==> '\n' !in lines[i]
    ensures SplitLines(JoinLines(lines)) == lines
  {
    var n := |lines| - 1;
    if n == 0 {
      SplitAppend("", lines[0], lines[0]);
      LongerFromNothing([], lines[0]);
    } else {
      var text := JoinLines(lines[..n]);
      SplitJoined(lines[..n]);
      SplitBreak(text, lines[n], text + ['\n'], JoinLines(lines));
      assert lines[..n] + [lines[n]] == lines;
    }
  }

  lemma NoBreak(n: nat)
    ensures '\n' !in Footer(n)
  {
  }

  /** What a reader sees, when no test has a line break in its name: a line for each of the first
      tests, in order and with a bullet, and if that is not all of them a last line that says how
      many more there are. */
  lemma BlockReads(tests: seq<string>, shown: nat)
    requires shown <= |tests| && tests != [] && forall i :: 0 <= i < |tests| ==> '\n' !in tests[i]
    ensures var lines := SplitLines(JoinLines(Block(tests, shown)));
            && |lines| == shown + (if shown < |tests| then 1 else 0)
            && (forall i :: 0 <= i < shown ==> lines[i] == "\U{2022} " + tests[i])
            && (shown < |tests| ==> lines[shown] == "_\U{2026}and " + Decimal(|tests| - shown) + " more_"
                                    && shown + Number(Decimal(|tests| - shown)) == |tests|)
  {
    var block := Block(tests, shown);
    NumberOfDecimal(|tests| - shown);
    NoBreak(|tests| - shown);
    forall i | 0 <= i < |block|
      ensures '\n' !in block[i]
    {
      if i < shown {
        assert block[i] == LineOf(tests[i]);
      }
    }
    SplitJoined(block);
  }

  ghost function Pow10(k: nat): nat {
    if k == 0 then 1 else 10 * Pow10(k - 1)
  }

  lemma {:induction false} DecimalLength(n: nat, k: nat)
    requires k > 0 && n < Pow10(k)
    ensures |Decimal(n)| <= k
    decreases k
  {
    assert Pow10(1) == 10 * Pow10(0);
    if n >= 10 && k > 1 {
      DecimalLength(n / 10, k - 1);
    }
  }

  /** A block with the longest of the three headings stays within what Slack accepts, for any
      number of tests below ten to the 150th. */
  lemma BlockFits(tests: seq<string>, shown: nat)
    requires shown <= |tests| < Pow10(150) && Room(tests[..shown]) <= 2800
    ensures |"*API Failed Tests:*\n"| + |JoinLines(Block(tests, shown))| <= 3000
  {
    BlockLength(tests, shown, 2800);
    DecimalLength(|tests| - shown, 150);
    assert |"*API Failed Tests:*\n"| == 20;
  }
}
