/** notifications-server/scripts/rule_outcome_report.py: which pairs of notification rules
    change their outcome, decided from the rules alone. */
module RuleOverlap {
  import opened Options
  import opened Sequences

  /** namespace, workload, aggregation_key, severity */
  const FIELDS: nat := 4

  /** A mapping to a platform; `None` when it carries no channels, otherwise the channels in
      a canonical text form. */
  datatype Mapping = Mapping(platform: string, channels: Option<string>)

  /** `accounts` is `None` unless the rule is limited to a list of accounts. */
  datatype RuleData = Rule(
    tenant: string,
    source: string,
    name: string,
    accounts: Option<set<string>>,
    narrow: seq<Option<string>>,
    eventTypes: set<string>,
    suppressed: bool,
    expiresAt: Option<int>,
    mappings: seq<Mapping>)
  {
    function Group(): (string, string) {
      (tenant, source)
    }
  }

  type Rule = r: RuleData | |r.narrow| == FIELDS
    witness Rule("", "", "", None, [None, None, None, None], {}, false, None, [])

  const AUTOMATION := "automation"

  predicate CanBothMatch(a: Rule, b: Rule) {
    && (a.accounts.Some? && b.accounts.Some? ==> a.accounts.value * b.accounts.value != {})
    && (forall k :: 0 <= k < FIELDS && a.narrow[k].Some? && b.narrow[k].Some? ==> a.narrow[k] == b.narrow[k])
    && (a.source == AUTOMATION ==> a.eventTypes * b.eventTypes != {})
  }

  // ----- what it decides -----

  datatype Event = Event(account: string, values: seq<string>, eventType: string)

  /** What the script takes a rule to mean: scope, narrowing fields, and for automation the
      event types. */
  ghost predicate Matches(r: Rule, e: Event) {
    && |e.values| == 4
    && (r.accounts.Some? ==> e.account in r.accounts.value)
    && (forall k :: 0 <= k < 4 && r.narrow[k].Some? ==> r.narrow[k].value == e.values[k])
    && (r.source == "automation" ==> e.eventType in r.eventTypes)
  }

  /** Limited to accounts, of which there are none, while the other rule is not limited. */
  predicate EmptyScope(a: Rule, b: Rule) {
    a.accounts == Some({}) && b.accounts.None?
  }

  function Pick(a: Option<string>, b: Option<string>): string {
    if a.Some? then a.value else if b.Some? then b.value else ""
  }

  /** Two rules of one source can match one event exactly when the test says so, except
      for a rule limited to an empty list of accounts, which it takes to match. */
  lemma OverlapIsExact(a: Rule, b: Rule)
    requires a.source == b.source
    ensures (exists e :: Matches(a, e) && Matches(b, e))
       <==> CanBothMatch(a, b) && !EmptyScope(a, b) && !EmptyScope(b, a)
  {
    if CanBothMatch(a, b) && !EmptyScope(a, b) && !EmptyScope(b, a) {
      var account: string;
      if a.accounts.Some? && b.accounts.Some? {
        account :| account in a.accounts.value * b.accounts.value;
      } else if a.accounts.Some? {
        assert a.accounts.value != {};
        account :| account in a.accounts.value;
      } else if b.accounts.Some? {
        assert b.accounts.value != {};
        account :| account in b.accounts.value;
      } else {
        account := "";
      }
      var eventType := "";
      if a.source == AUTOMATION {
        eventType :| eventType in a.eventTypes * b.eventTypes;
      }
      var values := seq(FIELDS, k requires 0 <= k < FIELDS => Pick(a.narrow[k], b.narrow[k]));
      var e := Event(account, values, eventType);
      assert Matches(a, e) && Matches(b, e);
    }
    if e :| Matches(a, e) && Matches(b, e) {
      assert a.accounts.Some? && b.accounts.Some? ==> e.account in a.accounts.value * b.accounts.value;
      assert a.source == AUTOMATION ==> e.eventType in a.eventTypes * b.eventTypes;
      forall k | 0 <= k < FIELDS && a.narrow[k].Some? && b.narrow[k].Some?
        ensures a.narrow[k] == b.narrow[k]
      {
        assert a.narrow[k].value == e.values[k];
      }
    }
  }

  /** The exception does occur: a rule limited to no accounts is taken to overlap with every
      unlimited rule that it agrees with otherwise, although it matches nothing. */
  lemma NoAccounts(a: Rule, b: Rule)
    requires EmptyScope(a, b) && a.source == b.source
    requires a.source == AUTOMATION ==> a.eventTypes * b.eventTypes != {}
    requires forall k :: 0 <= k < FIELDS && a.narrow[k].Some? && b.narrow[k].Some? ==> a.narrow[k] == b.narrow[k]
    ensures CanBothMatch(a, b) && !exists e :: Matches(a, e) && Matches(b, e)
  {
    OverlapIsExact(a, b);
  }

  lemma OverlapIsSymmetric(a: Rule, b: Rule)
    requires a.source == b.source
    ensures CanBothMatch(a, b) <==> CanBothMatch(b, a)
  {
    assert a.eventTypes * b.eventTypes == b.eventTypes * a.eventTypes;
    if a.accounts.Some? && b.accounts.Some? {
      assert a.accounts.value * b.accounts.value == b.accounts.value * a.accounts.value;
    }
  }

  // ----- the findings of one pair -----

  predicate IsStop(r: Rule, now: int) {
    r.suppressed || (r.expiresAt.Some? && r.expiresAt.value > now)
  }

  const WEBHOOKS: set<string> := {"ms_teams_webhook", "slack_webhook", "google_chat_webhook"}
  const EMAIL := "email"

  predicate IsChat(m: Mapping) {
    m.platform !in WEBHOOKS && m.platform != EMAIL && m.channels.Some?
  }

  function ChannelsOn(r: Rule, platform: string): set<string> {
    set m | m in r.mappings && IsChat(m) && m.platform == platform :: m.channels.value
  }

  function ChatPlatforms(r: Rule): set<string> {
    set m | m in r.mappings && IsChat(m) :: m.platform
  }

  method ChatChannels(r: Rule) returns (channels: map<string, set<string>>)
    ensures channels.Keys == ChatPlatforms(r)
    ensures forall p :: p in channels ==> channels[p] == ChannelsOn(r, p)
  {
    channels := map[];
    for i := 0 to |r.mappings|
      invariant forall p :: p in channels <==>
                            exists k :: 0 <= k < i && IsChat(r.mappings[k]) && r.mappings[k].platform == p
      invariant forall p :: p in channels ==>
                              channels[p] == set k | 0 <= k < i && IsChat(r.mappings[k]) && r.mappings[k].platform == p
                                :: r.mappings[k].channels.value
    {
      var m := r.mappings[i];
      if IsChat(m) {
        var before := if m.platform in channels then channels[m.platform] else {};
        channels := channels[m.platform := before + {m.channels.value}];
      }
    }
    forall p | p in channels
      ensures channels[p] == ChannelsOn(r, p)
    {
      forall c
        ensures c in channels[p] <==> c in ChannelsOn(r, p)
      {
        if c in ChannelsOn(r, p) {
          var k :| 0 <= k < |r.mappings| && IsChat(r.mappings[k]) && r.mappings[k].platform == p
                   && r.mappings[k].channels.value == c;
        }
      }
    }
    forall p
      ensures p in channels <==> p in ChatPlatforms(r)
    {
      if p in ChatPlatforms(r) {
        var k :| 0 <= k < |r.mappings| && IsChat(r.mappings[k]) && r.mappings[k].platform == p;
      }
    }
  }

  predicate HasEmail(r: Rule) {
    exists m :: m in r.mappings && m.platform == EMAIL && m.channels.Some?
  }

  datatype Kind = ExtraCopies | EmailStopped

  datatype Finding = Finding(
    tenant: string, source: string, kind: Kind, platform: string, first: string, second: string)

  /** A finding up to the order of the two names where that order means nothing. */
  datatype Canonical =
    | Copies(tenant: string, source: string, platform: string, names: multiset<string>)
    | Stopped(tenant: string, source: string, stop: string, other: string)

  ghost function Canon(f: Finding): Canonical {
    if f.kind.ExtraCopies? then Copies(f.tenant, f.source, f.platform, multiset{f.first, f.second})
    else Stopped(f.tenant, f.source, f.first, f.second)
  }

  ghost function Canons(fs: seq<Finding>): multiset<Canonical> {
    if fs == [] then multiset{} else Canons(fs[..|fs| - 1]) + multiset{Canon(fs[|fs| - 1])}
  }

  lemma {:induction false} CanonsConcat(a: seq<Finding>, b: seq<Finding>)
    ensures Canons(a + b) == Canons(a) + Canons(b)
  {
    if b == [] {
      assert a + b == a;
    } else {
      assert (a + b)[..|a + b| - 1] == a + b[..|b| - 1];
      CanonsConcat(a, b[..|b| - 1]);
    }
  }

  lemma CanonsSnoc(fs: seq<Finding>, f: Finding)
    ensures Canons(fs + [f]) == Canons(fs) + multiset{Canon(f)}
  {
    assert (fs + [f])[..|fs|] == fs;
  }

  /** Platforms on which both deliver, to different channels. */
  function Diverging(a: Rule, b: Rule): set<string> {
    set p | p in ChatPlatforms(a) && p in ChatPlatforms(b) && ChannelsOn(a, p) != ChannelsOn(b, p)
  }

  ghost function CopiesOn(a: Rule, b: Rule, platforms: set<string>): set<Canonical> {
    set p | p in platforms :: Copies(a.tenant, a.source, p, multiset{a.name, b.name})
  }

  ghost function StopOf(stop: Rule, other: Rule, now: int): multiset<Canonical> {
    if IsStop(stop, now) && !IsStop(other, now) && HasEmail(other)
    then multiset{Stopped(stop.tenant, stop.source, stop.name, other.name)} else multiset{}
  }

  /** Everything there is to report about two rules. */
  ghost function PairFindings(a: Rule, b: Rule, now: int): multiset<Canonical> {
    if a.Group() != b.Group() || !CanBothMatch(a, b) then multiset{}
    else
      (if IsStop(a, now) || IsStop(b, now) then multiset{} else multiset(CopiesOn(a, b, Diverging(a, b))))
      + (StopOf(a, b, now) + StopOf(b, a, now))
  }

  lemma PairIsSymmetric(a: Rule, b: Rule, now: int)
    ensures PairFindings(a, b, now) == PairFindings(b, a, now)
  {
    if a.Group() == b.Group() {
      OverlapIsSymmetric(a, b);
      assert multiset{a.name, b.name} == multiset{b.name, a.name};
      assert Diverging(a, b) == Diverging(b, a);
      assert CopiesOn(a, b, Diverging(a, b)) == CopiesOn(b, a, Diverging(b, a));
    }
  }

  /** A stopped email is filed under that platform. */
  ghost predicate EmailNamed(fs: seq<Finding>) {
    forall i :: 0 <= i < |fs| && fs[i].kind.EmailStopped? ==> fs[i].platform == "email"
  }

  method ReportCopies(a: Rule, b: Rule) returns (fs: seq<Finding>)
    ensures Canons(fs) == multiset(CopiesOn(a, b, Diverging(a, b))) && EmailNamed(fs)
  {
    var chatA := ChatChannels(a);
    var chatB := ChatChannels(b);
    var template := Finding(a.tenant, a.source, ExtraCopies, "", a.name, b.name);
    fs := ListDiverging(template, chatA, chatB);
    assert DivergingKeys(chatA, chatB) == Diverging(a, b);
    assert CopySet(template, Diverging(a, b)) == CopiesOn(a, b, Diverging(a, b));
  }

  ghost function DivergingKeys(a: map<string, set<string>>, b: map<string, set<string>>): set<string> {
    set p | p in a && p in b && a[p] != b[p]
  }

  ghost function CopySet(f: Finding, platforms: set<string>): set<Canonical> {
    set p | p in platforms :: Copies(f.tenant, f.source, p, multiset{f.first, f.second})
  }

  /** One finding per platform that both know under different channels. */
  method ListDiverging(f: Finding, a: map<string, set<string>>, b: map<string, set<string>>) returns (fs: seq<Finding>)
    requires f.kind.ExtraCopies?
    ensures Canons(fs) == multiset(CopySet(f, DivergingKeys(a, b))) && EmailNamed(fs)
  {
    fs := [];
    var todo := a.Keys * b.Keys;
    ghost var keys := DivergingKeys(a, b);
    assert keys - todo == {} && CopySet(f, {}) == {};
    while todo != {}
      invariant todo <= a.Keys * b.Keys
      invariant Canons(fs) == multiset(CopySet(f, keys - todo)) && EmailNamed(fs)
      decreases todo
    {
      var p :| p in todo;
      TakeOut(keys, todo, p);
      if a[p] != b[p] {
        CopiesAdd(f, fs, keys - todo, p);
        fs := fs + [f.(platform := p)];
      }
      todo := todo - {p};
    }
    assert keys - {} == keys;
  }

  lemma TakeOut(keys: set<string>, todo: set<string>, p: string)
    requires p in todo
    ensures keys - (todo - {p}) == if p in keys then keys - todo + {p} else keys - todo
  {
  }

  lemma CopiesAdd(f: Finding, fs: seq<Finding>, ps: set<string>, p: string)
    requires p !in ps && f.kind.ExtraCopies? && Canons(fs) == multiset(CopySet(f, ps))
    ensures Canons(fs + [f.(platform := p)]) == multiset(CopySet(f, ps + {p}))
  {
    var c := Canon(f.(platform := p));
    CanonsSnoc(fs, f.(platform := p));
    assert CopySet(f, ps + {p}) == CopySet(f, ps) + {c};
    assert c !in CopySet(f, ps);
  }

  method ReportStop(stop: Rule, other: Rule, now: int) returns (fs: seq<Finding>)
    ensures Canons(fs) == StopOf(stop, other, now) && EmailNamed(fs)
  {
    fs := [];
    if IsStop(stop, now) && !IsStop(other, now) && HasEmail(other) {
      var f := Finding(stop.tenant, stop.source, EmailStopped, EMAIL, stop.name, other.name);
      CanonsSnoc([], f);
      fs := [] + [f];
    }
  }

  method ReportPair(a: Rule, b: Rule, now: int) returns (fs: seq<Finding>)
    requires a.Group() == b.Group()
    ensures Canons(fs) == PairFindings(a, b, now) && EmailNamed(fs)
  {
    fs := [];
    if !CanBothMatch(a, b) {
      return;
    }
    if !IsStop(a, now) && !IsStop(b, now) {
      fs := ReportCopies(a, b);
    }
    var ab := ReportStop(a, b, now);
    var ba := ReportStop(b, a, now);
    CanonsConcat(ab, ba);
    CanonsConcat(fs, ab + ba);
    fs := fs + (ab + ba);
  }

  // ----- the whole report -----

  ghost function Cross(r: Rule, rs: seq<Rule>, now: int): multiset<Canonical> {
    if rs == [] then multiset{} else PairFindings(r, rs[0], now) + Cross(r, rs[1..], now)
  }

  /** The findings of every pair of rules. */
  ghost function AllPairs(rs: seq<Rule>, now: int): multiset<Canonical> {
    if rs == [] then multiset{} else Cross(rs[0], rs[1..], now) + AllPairs(rs[1..], now)
  }

  function InGroup(rs: seq<Rule>, g: (string, string)): (s: seq<Rule>)
    ensures forall i :: 0 <= i < |s| ==> s[i].Group() == g
  {
    if rs == [] then []
    else if rs[0].Group() == g then [rs[0]] + InGroup(rs[1..], g)
    else InGroup(rs[1..], g)
  }

  lemma {:induction false} InGroupSnoc(rs: seq<Rule>, r: Rule, g: (string, string))
    ensures InGroup(rs + [r], g) == if r.Group() == g then InGroup(rs, g) + [r] else InGroup(rs, g)
  {
    if rs != [] {
      assert (rs + [r])[1..] == rs[1..] + [r];
      InGroupSnoc(rs[1..], r, g);
    }
  }

  method GroupRules(rules: seq<Rule>) returns (order: seq<(string, string)>, bySource: map<(string, string), seq<Rule>>)
    ensures Groups(rules, order)
    ensures forall g :: g in order ==> g in bySource && bySource[g] == InGroup(rules, g)
  {
    order, bySource := [], map[];
    for i := 0 to |rules|
      invariant Groups(rules[..i], order)
      invariant forall g :: g in order <==> g in bySource
      invariant forall g :: Lookup(bySource, g) == InGroup(rules[..i], g)
    {
      assert rules[..i + 1] == rules[..i] + [rules[i]];
      var g := rules[i].Group();
      AddToGroup(rules[..i], rules[i], bySource);
      if g !in bySource {
        order := order + [g];
      }
      bySource := bySource[g := Lookup(bySource, g) + [rules[i]]];
    }
    assert rules[..|rules|] == rules;
  }

  lemma AddToGroup(rs: seq<Rule>, r: Rule, m: map<(string, string), seq<Rule>>)
    requires forall g :: Lookup(m, g) == InGroup(rs, g)
    ensures forall g :: Lookup(m[r.Group() := Lookup(m, r.Group()) + [r]], g) == InGroup(rs + [r], g)
  {
    forall g
      ensures Lookup(m[r.Group() := Lookup(m, r.Group()) + [r]], g) == InGroup(rs + [r], g)
    {
      InGroupSnoc(rs, r, g);
    }
  }

  function Lookup(m: map<(string, string), seq<Rule>>, g: (string, string)): seq<Rule> {
    if g in m then m[g] else []
  }

  /** The tenant and source of every rule, each once. */
  ghost predicate Groups(rules: seq<Rule>, order: seq<(string, string)>) {
    && (forall i, j :: 0 <= i < j < |order| ==> order[i] != order[j])
    && (forall i :: 0 <= i < |rules| ==> rules[i].Group() in order)
  }

  method ReportGroup(group: seq<Rule>, now: int) returns (fs: seq<Finding>)
    requires forall i, j :: 0 <= i < |group| && 0 <= j < |group| ==> group[i].Group() == group[j].Group()
    ensures Canons(fs) == AllPairs(group, now) && EmailNamed(fs)
  {
    fs := [];
    assert group[0..] == group;
    for i := 0 to |group|
      invariant Canons(fs) + AllPairs(group[i..], now) == AllPairs(group, now) && EmailNamed(fs)
    {
      ghost var later := group[i + 1..];
      assert group[i..][1..] == later && group[i..][0] == group[i];
      var mine := ReportAgainst(group[i], group[i + 1..], now);
      CanonsConcat(fs, mine);
      fs := fs + mine;
    }
    assert group[|group|..] == [];
  }

  method ReportAgainst(r: Rule, others: seq<Rule>, now: int) returns (fs: seq<Finding>)
    requires forall i :: 0 <= i < |others| ==> others[i].Group() == r.Group()
    ensures Canons(fs) == Cross(r, others, now) && EmailNamed(fs)
  {
    fs := [];
    assert others[0..] == others;
    for j := 0 to |others|
      invariant Canons(fs) + Cross(r, others[j..], now) == Cross(r, others, now) && EmailNamed(fs)
    {
      assert others[j..][1..] == others[j + 1..] && others[j..][0] == others[j];
      var found := ReportPair(r, others[j], now);
      CanonsConcat(fs, found);
      fs := fs + found;
    }
    assert others[|others|..] == [];
  }

  /** The report: group by tenant and source, then look at every pair of a group. */
  method Report(rules: seq<Rule>, now: int) returns (findings: seq<Finding>)
    ensures Canons(findings) == AllPairs(rules, now) && EmailNamed(findings)
  {
    var order, bySource := GroupRules(rules);
    findings := [];
    assert order[0..] == order;
    for i := 0 to |order|
      invariant Canons(findings) + GroupSum(rules, order[i..], now) == GroupSum(rules, order, now)
      invariant EmailNamed(findings)
    {
      assert order[i..][1..] == order[i + 1..] && order[i..][0] == order[i];
      assert order[i] in order;
      var found := ReportGroup(bySource[order[i]], now);
      CanonsConcat(findings, found);
      findings := findings + found;
    }
    assert order[|order|..] == [];
    GroupsSumUp(rules, order, now);
  }

  ghost function GroupSum(rules: seq<Rule>, order: seq<(string, string)>, now: int): multiset<Canonical> {
    if order == [] then multiset{} else AllPairs(InGroup(rules, order[0]), now) + GroupSum(rules, order[1..], now)
  }

  /** Rules of different groups have nothing to do with each other. */
  lemma {:induction false} CrossStaysInGroup(r: Rule, rs: seq<Rule>, now: int)
    ensures Cross(r, rs, now) == Cross(r, InGroup(rs, r.Group()), now)
  {
    if rs != [] {
      CrossStaysInGroup(r, rs[1..], now);
      if rs[0].Group() == r.Group() {
        assert InGroup(rs, r.Group())[1..] == InGroup(rs[1..], r.Group());
      }
    }
  }

  lemma {:induction false} GroupSumGrows(rules: seq<Rule>, order: seq<(string, string)>, now: int)
    requires rules != [] && forall i, j :: 0 <= i < j < |order| ==> order[i] != order[j]
    ensures GroupSum(rules, order, now)
         == (if rules[0].Group() in order
             then Cross(rules[0], InGroup(rules[1..], rules[0].Group()), now)
             else multiset{})
            + GroupSum(rules[1..], order, now)
  {
    if order != [] {
      GroupSumGrows(rules, order[1..], now);
      assert order == [order[0]] + order[1..];
      if rules[0].Group() == order[0] {
        assert InGroup(rules, order[0])[1..] == InGroup(rules[1..], order[0]);
      }
    }
  }

  lemma {:induction false} GroupsSumUp(rules: seq<Rule>, order: seq<(string, string)>, now: int)
    requires Groups(rules, order)
    ensures GroupSum(rules, order, now) == AllPairs(rules, now)
  {
    if rules == [] {
      NoRulesNoFindings(rules, order, now);
    } else {
      GroupSumGrows(rules, order, now);
      GroupsSumUp(rules[1..], order, now);
      CrossStaysInGroup(rules[0], rules[1..], now);
    }
  }

  lemma {:induction false} NoRulesNoFindings(rules: seq<Rule>, order: seq<(string, string)>, now: int)
    requires rules == []
    ensures GroupSum(rules, order, now) == multiset{}
  {
    if order != [] {
      NoRulesNoFindings(rules, order[1..], now);
    }
  }

  // ----- the order of the rules does not matter -----

  lemma {:induction false} CrossConcat(r: Rule, a: seq<Rule>, b: seq<Rule>, now: int)
    ensures Cross(r, a + b, now) == Cross(r, a, now) + Cross(r, b, now)
  {
    if a == [] {
      assert a + b == b;
    } else {
      assert (a + b)[1..] == a[1..] + b;
      CrossConcat(r, a[1..], b, now);
    }
  }

  /** A rule may be moved to the front. */
  lemma {:induction false} MoveToFront(a: seq<Rule>, r: Rule, b: seq<Rule>, now: int)
    ensures AllPairs(a + [r] + b, now) == Cross(r, a + b, now) + AllPairs(a + b, now)
  {
    if a == [] {
      assert a + [r] + b == [r] + b && a + b == b && ([r] + b)[1..] == b;
    } else {
      var x, rest := a[0], a[1..];
      assert (a + [r] + b)[1..] == rest + [r] + b && (a + b)[1..] == rest + b;
      MoveToFront(rest, r, b, now);
      CrossConcat(x, rest + [r], b, now);
      CrossConcat(x, rest, [r], now);
      CrossConcat(x, rest, b, now);
      assert Cross(x, [r], now) == PairFindings(x, r, now) by { assert [r][1..] == []; }
      PairIsSymmetric(x, r, now);
    }
  }

  lemma {:induction false} CrossPermutes(r: Rule, xs: seq<Rule>, ys: seq<Rule>, now: int)
    requires multiset(xs) == multiset(ys)
    ensures Cross(r, xs, now) == Cross(r, ys, now)
  {
    if xs == [] {
      assert |multiset(ys)| == 0;
    } else {
      var a, b := FindRule(xs, ys);
      CrossPermutes(r, xs[1..], a + b, now);
      CrossConcat(r, a + [xs[0]], b, now);
      CrossConcat(r, a, [xs[0]], now);
      CrossConcat(r, a, b, now);
      assert Cross(r, [xs[0]], now) == PairFindings(r, xs[0], now) by { assert [xs[0]][1..] == []; }
    }
  }

  lemma FindRule(xs: seq<Rule>, ys: seq<Rule>) returns (a: seq<Rule>, b: seq<Rule>)
    requires xs != [] && multiset(xs) == multiset(ys)
    ensures ys == a + [xs[0]] + b && multiset(xs[1..]) == multiset(a + b)
  {
    assert xs[0] in multiset(ys);
    var k :| 0 <= k < |ys| && ys[k] == xs[0];
    a, b := ys[..k], ys[k + 1..];
    assert ys == a + [xs[0]] + b;
    assert multiset(xs) == multiset{xs[0]} + multiset(xs[1..]) by { assert xs == [xs[0]] + xs[1..]; }
    assert multiset(ys) == multiset{xs[0]} + multiset(a + b) by {
      assert multiset(a + [xs[0]] + b) == multiset(a) + multiset{xs[0]} + multiset(b);
    }
    assert multiset(xs[1..]) == multiset(xs) - multiset{xs[0]};
    assert multiset(a + b) == multiset(ys) - multiset{xs[0]};
  }

  /** The report lists the same findings for the same rules in any order, up to the order
      of the two names in a pair. */
  lemma {:induction false} ReportPermutes(xs: seq<Rule>, ys: seq<Rule>, now: int)
    requires multiset(xs) == multiset(ys)
    ensures AllPairs(xs, now) == AllPairs(ys, now)
  {
    if xs == [] {
      assert |multiset(ys)| == 0;
    } else {
      var a, b := FindRule(xs, ys);
      MoveToFront(a, xs[0], b, now);
      CrossPermutes(xs[0], xs[1..], a + b, now);
      ReportPermutes(xs[1..], a + b, now);
    }
  }

  // ----- what is reported, read off the rules -----

  /** The rule keeps events from being sent at the moment. */
  ghost predicate Stops(r: Rule, now: int) {
    r.suppressed == true || (r.expiresAt.Some? && now < r.expiresAt.value)
  }

  ghost predicate SendsEmail(r: Rule) {
    exists k :: 0 <= k < |r.mappings| && r.mappings[k].platform == "email" && r.mappings[k].channels.Some?
  }

  /** Rule `a` stops the email of rule `b`. */
  ghost predicate StopsEmailOf(a: Rule, b: Rule, now: int) {
    && a.tenant == b.tenant && a.source == b.source && CanBothMatch(a, b)
    && Stops(a, now) && !Stops(b, now) && SendsEmail(b)
  }

  /** The channels a rule has on a platform. */
  ghost function ChannelSet(r: Rule, platform: string): set<string> {
    set k | 0 <= k < |r.mappings| && r.mappings[k].platform == platform && r.mappings[k].channels.Some?
      :: r.mappings[k].channels.value
  }

  ghost predicate IsChatPlatform(platform: string) {
    platform != "email" && platform != "slack_webhook" && platform != "ms_teams_webhook"
    && platform != "google_chat_webhook"
  }

  /** The two rules deliver to different channels of a chat platform, and neither stops. */
  ghost predicate DeliverTwice(a: Rule, b: Rule, platform: string, now: int) {
    && a.tenant == b.tenant && a.source == b.source && CanBothMatch(a, b)
    && !Stops(a, now) && !Stops(b, now) && IsChatPlatform(platform)
    && ChannelSet(a, platform) != {} && ChannelSet(b, platform) != {}
    && ChannelSet(a, platform) != ChannelSet(b, platform)
  }

  lemma EmailMeans(r: Rule)
    ensures HasEmail(r) <==> SendsEmail(r)
  {
    if k :| 0 <= k < |r.mappings| && r.mappings[k].platform == "email" && r.mappings[k].channels.Some? {
      assert r.mappings[k] in r.mappings;
    }
  }

  lemma ChannelsMean(r: Rule, platform: string)
    ensures platform in ChatPlatforms(r) <==> IsChatPlatform(platform) && ChannelSet(r, platform) != {}
    ensures IsChatPlatform(platform) ==> ChannelsOn(r, platform) == ChannelSet(r, platform)
  {
    forall m | m in r.mappings && m.platform == platform && m.channels.Some?
      ensures m.channels.value in ChannelSet(r, platform)
    {
      var k :| 0 <= k < |r.mappings| && r.mappings[k] == m;
    }
    if c :| c in ChannelSet(r, platform) {
      var k :| 0 <= k < |r.mappings| && r.mappings[k].platform == platform && r.mappings[k].channels == Some(c);
      assert r.mappings[k] in r.mappings;
    }
    assert IsChatPlatform(platform) ==> ChannelsOn(r, platform) == ChannelSet(r, platform);
  }

  lemma DivergingMeans(a: Rule, b: Rule, platform: string)
    ensures platform in Diverging(a, b)
       <==> && IsChatPlatform(platform) && ChannelSet(a, platform) != {} && ChannelSet(b, platform) != {}
            && ChannelSet(a, platform) != ChannelSet(b, platform)
  {
    ChannelsMean(a, platform);
    ChannelsMean(b, platform);
  }

  lemma StoppedInPair(a: Rule, b: Rule, now: int, c: Canonical)
    requires c.Stopped?
    ensures PairFindings(a, b, now)[c]
         == OneIf(StopsEmailOf(a, b, now) && c == Stopped(a.tenant, a.source, a.name, b.name))
            + OneIf(StopsEmailOf(b, a, now) && c == Stopped(b.tenant, b.source, b.name, a.name))
  {
    EmailMeans(a);
    EmailMeans(b);
    if a.Group() == b.Group() {
      OverlapIsSymmetric(a, b);
      assert c !in CopiesOn(a, b, Diverging(a, b));
    }
  }

  lemma CopiesInPair(a: Rule, b: Rule, now: int, c: Canonical)
    requires c.Copies?
    ensures PairFindings(a, b, now)[c]
         == OneIf(DeliverTwice(a, b, c.platform, now)
                  && c == Copies(a.tenant, a.source, c.platform, multiset{a.name, b.name}))
  {
    DivergingMeans(a, b, c.platform);
    if a.Group() == b.Group() && CanBothMatch(a, b) {
      assert StopOf(a, b, now)[c] == 0 && StopOf(b, a, now)[c] == 0;
      assert c in CopiesOn(a, b, Diverging(a, b))
        <==> c.platform in Diverging(a, b) && c == Copies(a.tenant, a.source, c.platform, multiset{a.name, b.name});
    }
  }

  // ----- counting pairs -----

  lemma {:induction false} CrossCounts(r: Rule, rs: seq<Rule>, now: int, c: Canonical, p: Rule -> bool, q: Rule -> bool)
    requires forall x {:trigger p(x)} :: PairFindings(r, x, now)[c] == OneIf(p(x)) + OneIf(q(x))
    ensures Cross(r, rs, now)[c] == |Where<Rule>(rs, p)| + |Where<Rule>(rs, q)|
  {
    if rs == [] {
      assert Where<Rule>(rs, p) == {} && Where<Rule>(rs, q) == {};
    } else {
      var front, x := rs[..|rs| - 1], rs[|rs| - 1];
      assert rs == front + [x];
      CrossCounts(r, front, now, c, p, q);
      CrossConcat(r, front, [x], now);
      assert Cross(r, [x], now) == PairFindings(r, x, now) by { assert [x][1..] == []; }
      WhereSnoc<Rule>(front, x, p);
      WhereSnoc<Rule>(front, x, q);
    }
  }

  lemma AllPairsSnoc(front: seq<Rule>, r: Rule, now: int)
    ensures AllPairs(front + [r], now) == Cross(r, front, now) + AllPairs(front, now)
  {
    assert front + [r] + [] == front + [r] && front + [] == front;
    MoveToFront(front, r, [], now);
  }

  /** The finding occurs in a pair as often as `p` and `q` hold of it. */
  ghost predicate Counts(now: int, c: Canonical, p: (Rule, Rule) -> bool, q: (Rule, Rule) -> bool) {
    forall a, b {:trigger p(a, b)} :: PairFindings(a, b, now)[c] == OneIf(p(a, b)) + OneIf(q(a, b))
  }

  lemma CrossCountsBefore(r: Rule, rs: seq<Rule>, now: int, c: Canonical,
                          p: (Rule, Rule) -> bool, q: (Rule, Rule) -> bool)
    requires Counts(now, c, p, q)
    ensures Cross(r, rs, now)[c] == |Where<Rule>(rs, Before<Rule>(p, r))| + |Where<Rule>(rs, Before<Rule>(q, r))|
  {
    forall x
      ensures PairFindings(r, x, now)[c] == OneIf(Before<Rule>(p, r)(x)) + OneIf(Before<Rule>(q, r)(x))
    {
      PairIsSymmetric(r, x, now);
    }
    CrossCounts(r, rs, now, c, Before<Rule>(p, r), Before<Rule>(q, r));
  }

  ghost predicate CountedBy(rs: seq<Rule>, now: int, c: Canonical, p: (Rule, Rule) -> bool, q: (Rule, Rule) -> bool) {
    AllPairs(rs, now)[c] == |Earlier<Rule>(rs, p)| + |Earlier<Rule>(rs, q)|
  }

  lemma CountedStep(front: seq<Rule>, r: Rule, rs: seq<Rule>, now: int, c: Canonical,
                    p: (Rule, Rule) -> bool, q: (Rule, Rule) -> bool)
    requires rs == front + [r]
    ensures Counts(now, c, p, q) && CountedBy(front, now, c, p, q) ==> CountedBy(rs, now, c, p, q)
  {
    AllPairsSnoc(front, r, now);
    if Counts(now, c, p, q) {
      CrossCountsBefore(r, front, now, c, p, q);
    }
    EarlierSnoc<Rule>(front, r, p);
    EarlierSnoc<Rule>(front, r, q);
  }

  lemma NoneCounted(rs: seq<Rule>, now: int, c: Canonical, p: (Rule, Rule) -> bool, q: (Rule, Rule) -> bool)
    requires rs == []
    ensures CountedBy(rs, now, c, p, q)
  {
    assert Earlier<Rule>(rs, p) == {} && Earlier<Rule>(rs, q) == {};
  }

  lemma {:induction false} AllPairsCount(rs: seq<Rule>, now: int, c: Canonical,
                                         p: (Rule, Rule) -> bool, q: (Rule, Rule) -> bool)
    requires Counts(now, c, p, q)
    ensures CountedBy(rs, now, c, p, q)
    decreases |rs|
  {
    if rs == [] {
      NoneCounted(rs, now, c, p, q);
    } else {
      var front, r := LastRule(rs);
      AllPairsCount(front, now, c, p, q);
      CountedStep(front, r, rs, now, c, p, q);
    }
  }

  lemma LastRule(rs: seq<Rule>) returns (front: seq<Rule>, r: Rule)
    requires rs != []
    ensures rs == front + [r]
  {
    front, r := rs[..|rs| - 1], rs[|rs| - 1];
  }

  ghost function StopTest(now: int, c: Canonical): (Rule, Rule) -> bool {
    (a: Rule, b: Rule) => StopsEmailOf(a, b, now) && c == Stopped(a.tenant, a.source, a.name, b.name)
  }

  ghost function StopTestFlipped(now: int, c: Canonical): (Rule, Rule) -> bool {
    (a: Rule, b: Rule) => StopsEmailOf(b, a, now) && c == Stopped(b.tenant, b.source, b.name, a.name)
  }

  lemma StoppedCounts(now: int, c: Canonical)
    requires c.Stopped?
    ensures Counts(now, c, StopTest(now, c), StopTestFlipped(now, c))
  {
    forall a, b
      ensures PairFindings(a, b, now)[c] == OneIf(StopTest(now, c)(a, b)) + OneIf(StopTestFlipped(now, c)(a, b))
    {
      StoppedInPair(a, b, now, c);
    }
  }

  /** The pairs of rules of which the first one, `stop`, stops the email of the second, `other`. */
  ghost function StoppedAt(
    rules: seq<Rule>, now: int, tenant: string, source: string, stop: string, other: string): set<(nat, nat)>
  {
    set i: nat, j: nat | i < |rules| && j < |rules| && i != j && StopsEmailOf(rules[i], rules[j], now)
                         && rules[i].tenant == tenant && rules[i].source == source
                         && rules[i].name == stop && rules[j].name == other :: (i, j)
  }

  /** A stopped email is reported once for every two rules of which the one stops and the other,
      which does not, would have sent it. */
  lemma StoppedMeans(rules: seq<Rule>, now: int, tenant: string, source: string, stop: string, other: string)
    ensures AllPairs(rules, now)[Stopped(tenant, source, stop, other)]
         == |StoppedAt(rules, now, tenant, source, stop, other)|
  {
    var c := Stopped(tenant, source, stop, other);
    StoppedCounts(now, c);
    AllPairsCount(rules, now, c, StopTest(now, c), StopTestFlipped(now, c));
    OrderedIsBoth<Rule>(rules, StopTest(now, c), StopTestFlipped(now, c));
    assert Ordered<Rule>(rules, StopTest(now, c)) == StoppedAt(rules, now, tenant, source, stop, other);
  }

  ghost function CopyTest(now: int, c: Canonical): (Rule, Rule) -> bool
    requires c.Copies?
  {
    (a: Rule, b: Rule) => DeliverTwice(a, b, c.platform, now)
                          && c == Copies(a.tenant, a.source, c.platform, multiset{a.name, b.name})
  }

  ghost function Never(): (Rule, Rule) -> bool {
    (a: Rule, b: Rule) => false
  }

  lemma CopiesCount(now: int, c: Canonical)
    requires c.Copies?
    ensures Counts(now, c, CopyTest(now, c), Never())
  {
    forall a, b
      ensures PairFindings(a, b, now)[c] == OneIf(CopyTest(now, c)(a, b)) + OneIf(Never()(a, b))
    {
      CopiesInPair(a, b, now, c);
    }
  }

  /** The pairs of rules that deliver to different channels of the platform. */
  ghost function CopiesAt(
    rules: seq<Rule>, now: int, tenant: string, source: string, platform: string, names: multiset<string>)
    : set<(nat, nat)>
  {
    set i: nat, j: nat | i < j < |rules| && DeliverTwice(rules[i], rules[j], platform, now)
                         && rules[i].tenant == tenant && rules[i].source == source
                         && multiset{rules[i].name, rules[j].name} == names :: (i, j)
  }

  /** Extra copies are reported once for each of them. */
  lemma CopiesMean(
    rules: seq<Rule>, now: int, tenant: string, source: string, platform: string, names: multiset<string>)
    ensures AllPairs(rules, now)[Copies(tenant, source, platform, names)]
         == |CopiesAt(rules, now, tenant, source, platform, names)|
  {
    var c := Copies(tenant, source, platform, names);
    CopiesCount(now, c);
    AllPairsCount(rules, now, c, CopyTest(now, c), Never());
    assert Earlier<Rule>(rules, Never()) == {};
    assert Earlier<Rule>(rules, CopyTest(now, c)) == CopiesAt(rules, now, tenant, source, platform, names);
  }
}
