/** The `$N` to `?` rewriting of runbook-server/common/rdbms.go.

    A query written for PostgreSQL names its arguments by number; `sqlx.In` wants
    one `?` per use, in order.  The rewriting is correct when the query that comes
    out, read by position, denotes the same text-with-values as the query that went
    in, read by number.
 */
module Placeholders {
  import opened Numerals
  import opened Options

  /** Go's `int` is 64 bits wide: `strconv.Atoi` fails above this value. */
  const MAX_INT: nat := 0x7fff_ffff_ffff_ffff

  /** What the pattern `\$[0-9]+`, matched leftmost and greedily, sees in a query. */
  datatype Token = Plain(c: char) | Param(digits: Numeral)

  /** Does a placeholder begin at the head of `q`? */
  predicate AtParam(q: string) {
    |q| >= 2 && q[0] == '$' && IsDigit(q[1])
  }

  function Tokens(q: string): seq<Token>
    decreases |q|
  {
    if q == [] then []
    else if AtParam(q) then
      var n := DigitRun(q[1..]);
      [Param(q[1..][..n])] + Tokens(q[1..][n..])
    else [Plain(q[0])] + Tokens(q[1..])
  }

  /** The placeholders, in order of occurrence. */
  function Params(ts: seq<Token>): seq<Numeral> {
    if ts == [] then []
    else if ts[0].Param? then [ts[0].digits] + Params(ts[1..])
    else Params(ts[1..])
  }

  /** Every placeholder becomes a `?`; everything else stays. */
  function Positional(ts: seq<Token>): string {
    if ts == [] then []
    else [if ts[0].Param? then '?' else ts[0].c] + Positional(ts[1..])
  }

  predicate InRange(digits: Numeral, count: nat) {
    1 <= Number(digits) <= count
  }

  /** No placeholder of the query refers outside `count` arguments. */
  predicate AllInRange(q: string, count: nat) {
    var ps := Params(Tokens(q));
    forall i :: 0 <= i < |ps| ==> InRange(ps[i], count)
  }

  datatype Error = InvalidNumber(digits: Numeral) | OutOfBounds(digits: Numeral)

  datatype Prepared<T> = Ok(query: string, args: seq<T>) | Failed(error: Error)

  // ----- the rewriting -----

  /** `dollar` says that the driver uses `$N` placeholders. */
  method PrepareQueryForIn<T>(dollar: bool, query: string, args: seq<T>) returns (r: Prepared<T>)
    requires |args| <= MAX_INT
    ensures !dollar ==> r == Ok(query, args)
    ensures dollar ==> (r.Ok? <==> AllInRange(query, |args|))
    ensures dollar && r.Ok? ==> IsRewriting(query, args, r.query, r.args)
    ensures r.Failed? ==>
              exists i :: IsFirstBad(Params(Tokens(query)), |args|, i)
                          && r.error == (if Number(Params(Tokens(query))[i]) > 9_223_372_036_854_775_807
                                         then InvalidNumber(Params(Tokens(query))[i])
                                         else OutOfBounds(Params(Tokens(query))[i]))
  {
    if !dollar {
      return Ok(query, args);
    }
    var matches := Params(Tokens(query));
    if |matches| == 0 {
      return Ok(query, args);
    }
    var newArgs: seq<T> := [];
    for i := 0 to |matches|
      invariant |newArgs| == i
      invariant forall k :: 0 <= k < i ==> InRange(matches[k], |args|)
      invariant forall k :: 0 <= k < i ==> newArgs[k] == args[Number(matches[k]) - 1]
    {
      var num := Number(matches[i]);
      if num > MAX_INT {
        assert IsFirstBad(matches, |args|, i);
        return Failed(InvalidNumber(matches[i]));
      }
      if num > |args| || num < 1 {
        assert IsFirstBad(matches, |args|, i);
        return Failed(OutOfBounds(matches[i]));
      }
      newArgs := newArgs + [args[num - 1]];
    }
    r := Ok(Positional(Tokens(query)), newArgs);
  }

  ghost predicate IsFirstBad(ps: seq<Numeral>, count: nat, i: int) {
    && 0 <= i < |ps|
    && !InRange(ps[i], count)
    && forall k :: 0 <= k < i ==> InRange(ps[k], count)
  }

  /** The relation between a query and what a successful rewriting returns for it. */
  ghost predicate IsRewriting<T>(query: string, args: seq<T>, query': string, args': seq<T>) {
    var ps := Params(Tokens(query));
    if ps == [] then query' == query && args' == args
    else
      query' == Positional(Tokens(query)) && Follow(ps, args, args')
  }

  // ----- what a query means -----

  /** A query with its arguments in place: text interleaved with values. */
  datatype Piece<T> = Text(c: char) | Value(v: T)

  function Prepend<T>(p: Piece<T>, rest: Option<seq<Piece<T>>>): Option<seq<Piece<T>>> {
    if rest.None? then None else Some([p] + rest.value)
  }

  /** Arguments looked up by their number, as PostgreSQL reads a query. */
  ghost function ByNumber<T>(ts: seq<Token>, args: seq<T>): Option<seq<Piece<T>>> {
    if ts == [] then Some([])
    else if ts[0].Plain? then Prepend(Text(ts[0].c), ByNumber(ts[1..], args))
    else if !InRange(ts[0].digits, |args|) then None
    else Prepend(Value(args[Number(ts[0].digits) - 1]), ByNumber(ts[1..], args))
  }

  /** Arguments consumed one after another, as `sqlx` reads a query. */
  ghost function ByPosition<T>(q: string, args: seq<T>): Option<seq<Piece<T>>> {
    if q == [] then Some([])
    else if q[0] != '?' then Prepend(Text(q[0]), ByPosition(q[1..], args))
    else if args == [] then None
    else Prepend(Value(args[0]), ByPosition(q[1..], args[1..]))
  }

  ghost function Meaning<T>(q: string, args: seq<T>): Option<seq<Piece<T>>> {
    ByNumber(Tokens(q), args)
  }

  // ----- the rewriting preserves meaning exactly when the query has no literal `?` -----

  lemma {:induction false} PlainCharsOccur(q: string)
    ensures Plain('?') in Tokens(q) <==> '?' in q
    decreases |q|
  {
    if q == [] {
    } else if AtParam(q) {
      var n := DigitRun(q[1..]);
      PlainCharsOccur(q[1..][n..]);
      assert q == [q[0]] + q[1..][..n] + q[1..][n..];
    } else {
      PlainCharsOccur(q[1..]);
      assert q == [q[0]] + q[1..];
    }
  }

  /** The arguments `args'` are those of `args` that the placeholders name, one after another. */
  ghost predicate Follow<T>(ps: seq<Numeral>, args: seq<T>, args': seq<T>) {
    && |args'| == |ps|
    && forall k :: 0 <= k < |ps| ==> InRange(ps[k], |args|) && args'[k] == args[Number(ps[k]) - 1]
  }

  lemma PairsTail<T>(p: Numeral, ps: seq<Numeral>, xs: seq<T>, related: (Numeral, T) -> bool)
    requires |xs| == |ps| + 1 && forall k :: 0 <= k < |xs| ==> related(([p] + ps)[k], xs[k])
    ensures related(p, xs[0]) && forall k :: 0 <= k < |ps| ==> related(ps[k], xs[1..][k])
  {
    assert ([p] + ps)[0] == p;
    forall k | 0 <= k < |ps|
      ensures related(ps[k], xs[1..][k])
    {
      assert related(([p] + ps)[k + 1], xs[k + 1]);
    }
  }

  lemma FollowTail<T>(p: Numeral, ps: seq<Numeral>, args: seq<T>, args': seq<T>)
    requires Follow([p] + ps, args, args')
    ensures InRange(p, |args|) && args'[0] == args[Number(p) - 1] && Follow(ps, args, args'[1..])
  {
    PairsTail(p, ps, args', (q: Numeral, v: T) => InRange(q, |args|) && v == args[Number(q) - 1]);
  }

  /** Token by token, position and number name the same argument. */
  lemma {:induction false} TokensAgree<T>(ts: seq<Token>, args: seq<T>, args': seq<T>)
    requires Plain('?') !in ts && Follow(Params(ts), args, args')
    ensures ByPosition(Positional(ts), args') == ByNumber(ts, args)
    ensures ByNumber(ts, args).Some?
  {
    if ts != [] {
      assert Positional(ts)[1..] == Positional(ts[1..]);
      if ts[0].Param? {
        var p := ts[0].digits;
        FollowTail(p, Params(ts[1..]), args, args');
        TokensAgree(ts[1..], args, args'[1..]);
        assert ByNumber(ts, args) == Prepend(Value(args[Number(p) - 1]), ByNumber(ts[1..], args));
      } else {
        TokensAgree(ts[1..], args, args');
        assert ByNumber(ts, args) == Prepend(Text(ts[0].c), ByNumber(ts[1..], args));
      }
    }
  }

  /** A positional reading puts a value at every `?` and keeps every other character. */
  lemma {:induction false} PositionalShape<T>(q: string, args: seq<T>)
    requires ByPosition(q, args).Some?
    ensures var ps := ByPosition(q, args).value;
            |ps| == |q| && forall i :: 0 <= i < |q| ==> ps[i].Value? == (q[i] == '?')
  {
    if q != [] {
      PositionalShape(q[1..], if q[0] == '?' then args[1..] else args);
    }
  }

  lemma {:induction false} NumberedShape<T>(ts: seq<Token>, args: seq<T>)
    requires ByNumber(ts, args).Some?
    ensures var ps := ByNumber(ts, args).value;
            |ps| == |ts| && forall i :: 0 <= i < |ts| ==> ps[i].Value? == ts[i].Param?
  {
    if ts != [] {
      NumberedShape(ts[1..], args);
    }
  }

  lemma {:induction false} PositionalAt(ts: seq<Token>)
    ensures |Positional(ts)| == |ts|
    ensures forall i :: 0 <= i < |ts| ==> Positional(ts)[i] == if ts[i].Param? then '?' else ts[i].c
  {
    if ts != [] {
      PositionalAt(ts[1..]);
    }
  }

  lemma {:induction false} NoParams(q: string)
    requires Params(Tokens(q)) == []
    ensures Positional(Tokens(q)) == q
    decreases |q|
  {
    if q != [] && !AtParam(q) {
      assert Tokens(q)[1..] == Tokens(q[1..]);
      NoParams(q[1..]);
    }
  }

  /** The rewritten query means what the original meant if and only if the original
      holds no literal question mark. */
  lemma MeaningPreserved<T>(query: string, args: seq<T>, query': string, args': seq<T>)
    requires AllInRange(query, |args|)
    requires IsRewriting(query, args, query', args')
    ensures ByPosition(query', args') == Meaning(query, args) <==> '?' !in query
  {
    var ts := Tokens(query);
    PlainCharsOccur(query);
    if Params(ts) == [] {
      NoParams(query);
    }
    assert query' == Positional(ts);
    PositionalAt(ts);
    if '?' in query {
      var i :| 0 <= i < |ts| && ts[i] == Plain('?');
      RangeGivesMeaning(ts, args);
      NumberedShape(ts, args);
      assert !Meaning(query, args).value[i].Value? && query'[i] == '?';
      if ByPosition(query', args').Some? {
        PositionalShape(query', args');
      }
    } else if Params(ts) == [] {
      PlainMeaning(ts, args, args');
    } else {
      TokensAgree(ts, args, args');
    }
  }

  lemma {:induction false} PlainMeaning<T>(ts: seq<Token>, args: seq<T>, args': seq<T>)
    requires Params(ts) == [] && Plain('?') !in ts
    ensures ByPosition(Positional(ts), args') == ByNumber(ts, args)
  {
    if ts != [] {
      assert Positional(ts)[1..] == Positional(ts[1..]);
      PlainMeaning(ts[1..], args, args');
    }
  }

  lemma {:induction false} RangeGivesMeaning<T>(ts: seq<Token>, args: seq<T>)
    requires forall k :: 0 <= k < |Params(ts)| ==> InRange(Params(ts)[k], |args|)
    ensures ByNumber(ts, args).Some?
  {
    if ts != [] {
      if ts[0].Param? {
        assert Params(ts)[0] == ts[0].digits;
        assert Params(ts[1..]) == Params(ts)[1..];
      }
      RangeGivesMeaning(ts[1..], args);
    }
  }

  // ----- renumbering, as the callers do afterwards with `Rebind` -----

  /** `?` number k becomes `$k`, counting from `from`. */
  function Rebind(q: string, from: nat): string {
    if q == [] then []
    else if q[0] == '?' then ['$'] + Decimal(from) + Rebind(q[1..], from + 1)
    else [q[0]] + Rebind(q[1..], from)
  }

  /** The same tokens with their placeholders numbered from `from` upward. */
  function Renumber(ts: seq<Token>, from: nat): (r: seq<Token>)
    ensures |r| == |ts|
  {
    if ts == [] then []
    else if ts[0].Param? then [Param(Decimal(from))] + Renumber(ts[1..], from + 1)
    else [ts[0]] + Renumber(ts[1..], from)
  }

  lemma TokensAtParam(q: string, body: string, n: nat)
    requires AtParam(q) && body == q[1..] && n == DigitRun(body)
    ensures Tokens(q) == [Param(body[..n])] + Tokens(body[n..])
  {
  }

  lemma TokensOfParam(digits: Numeral, tail: string)
    requires digits != [] && (tail == [] || !IsDigit(tail[0]))
    ensures Tokens(['$'] + digits + tail) == [Param(digits)] + Tokens(tail)
  {
    var q, body, n := ['$'] + digits + tail, digits + tail, |digits|;
    assert q[1..] == body && q[1] == digits[0];
    DigitRunOf(digits, tail);
    TokensAtParam(q, body, n);
    assert body[..n] == digits && body[n..] == tail;
  }

  lemma TokensOfPlain(c: char, tail: string)
    requires c != '$' || tail == [] || !IsDigit(tail[0])
    ensures Tokens([c] + tail) == [Plain(c)] + Tokens(tail)
  {
    assert ([c] + tail)[1..] == tail;
  }

  /** A query that can be rebound and read back: it holds no numbered placeholder, and no `?`
      is followed by a digit. */
  predicate Bindable(q: string) {
    q == [] || (!AtParam(q) && !(q[0] == '?' && |q| >= 2 && IsDigit(q[1])) && Bindable(q[1..]))
  }

  /** A positional query with its `?` numbered from `from` upward. */
  function Marked(q: string, from: nat): seq<Token> {
    if q == [] then []
    else if q[0] == '?' then [Param(Decimal(from))] + Marked(q[1..], from + 1)
    else [Plain(q[0])] + Marked(q[1..], from)
  }

  /** Rebinding never changes how the query begins, unless it begins with a `?`. */
  lemma RebindHead(q: string, from: nat)
    ensures q == [] ==> Rebind(q, from) == []
    ensures q != [] ==> Rebind(q, from) != [] && Rebind(q, from)[0] == if q[0] == '?' then '$' else q[0]
  {
  }

  /** The rebound query is read back placeholder for placeholder. */
  lemma {:induction false} BindableTokens(q: string, from: nat)
    requires Bindable(q)
    ensures Tokens(Rebind(q, from)) == Marked(q, from)
  {
    if q == [] {
    } else if q[0] == '?' {
      BindableTokens(q[1..], from + 1);
      RebindHead(q[1..], from + 1);
      TokensOfParam(Decimal(from), Rebind(q[1..], from + 1));
    } else {
      BindableTokens(q[1..], from);
      RebindHead(q[1..], from);
      TokensOfPlain(q[0], Rebind(q[1..], from));
    }
  }

  /** Because a placeholder takes every digit that follows it, no `?` of the rewritten query is
      followed by a digit. */
  lemma {:induction false} PositionalIsBindable(q: string)
    requires '?' !in q
    ensures Bindable(Positional(Tokens(q)))
    ensures q == [] ==> Positional(Tokens(q)) == []
    ensures q != [] ==> var p := Positional(Tokens(q)); p != [] && p[0] == if AtParam(q) then '?' else q[0]
    decreases |q|
  {
    if q == [] {
    } else if AtParam(q) {
      var rest := q[1..][DigitRun(q[1..])..];
      PositionalIsBindable(rest);
      assert Tokens(q)[1..] == Tokens(rest);
      assert Positional(Tokens(q))[1..] == Positional(Tokens(rest));
    } else {
      PositionalIsBindable(q[1..]);
      assert Tokens(q)[1..] == Tokens(q[1..]);
      assert Positional(Tokens(q))[1..] == Positional(Tokens(q[1..]));
    }
  }

  lemma {:induction false} MarkedPositional(ts: seq<Token>, from: nat)
    requires Plain('?') !in ts
    ensures Marked(Positional(ts), from) == Renumber(ts, from)
  {
    if ts != [] {
      assert Positional(ts)[1..] == Positional(ts[1..]);
      MarkedPositional(ts[1..], if ts[0].Param? then from + 1 else from);
    }
  }

  /** The rebound query has the tokens of the original, numbered in order. */
  lemma RebindTokens(q: string, from: nat)
    requires '?' !in q
    ensures Tokens(Rebind(Positional(Tokens(q)), from)) == Renumber(Tokens(q), from)
  {
    PositionalIsBindable(q);
    BindableTokens(Positional(Tokens(q)), from);
    PlainCharsOccur(q);
    MarkedPositional(Tokens(q), from);
  }

  lemma {:induction false} RenumberFacts(ts: seq<Token>, from: nat)
    ensures Positional(Renumber(ts, from)) == Positional(ts)
    ensures |Params(Renumber(ts, from))| == |Params(ts)|
    ensures forall k :: 0 <= k < |Params(ts)| ==> Number(Params(Renumber(ts, from))[k]) == from + k
  {
    if ts != [] {
      var r := Renumber(ts, from);
      assert r[1..] == Renumber(ts[1..], if ts[0].Param? then from + 1 else from);
      if ts[0].Param? {
        RenumberFacts(ts[1..], from + 1);
        NumberOfDecimal(from);
        assert Params(r) == [Decimal(from)] + Params(r[1..]);
      } else {
        RenumberFacts(ts[1..], from);
      }
    }
  }

  lemma {:induction false} RebindNothing(q: string, from: nat)
    requires '?' !in q
    ensures Rebind(q, from) == q
  {
    if q != [] {
      RebindNothing(q[1..], from);
    }
  }

  /** Renumbering `?` to `$1 .. $k` and rewriting again gives back the same pair, and the
      renumbered query, read by number, still means what the original meant. */
  lemma RebindRoundTrip<T>(query: string, args: seq<T>, query': string, args': seq<T>)
    requires '?' !in query
    requires AllInRange(query, |args|)
    requires IsRewriting(query, args, query', args')
    ensures AllInRange(Rebind(query', 1), |args'|)
    ensures IsRewriting(Rebind(query', 1), args', query', args')
    ensures Meaning(Rebind(query', 1), args') == Meaning(query, args)
  {
    var ts := Tokens(query);
    if Params(ts) == [] {
      NoParams(query);
      RebindNothing(query, 1);
    } else {
      assert Tokens(Rebind(query', 1)) == Renumber(ts, 1) by { RebindTokens(query, 1); }
      RenumberFacts(ts, 1);
    }
    assert Meaning(Rebind(query', 1), args') == Meaning(query, args) by {
      MeaningPreserved(query, args, query', args');
      PositionalIsBindable(query);
      RebindMeaning(query', args');
    }
  }

  // ----- list arguments -----

  datatype Arg<T> = Scalar(v: T) | List(vs: seq<T>)

  function ValuesOf<T>(a: Arg<T>): seq<T> {
    if a.Scalar? then [a.v] else a.vs
  }

  function Flat<T>(args: seq<Arg<T>>): seq<T> {
    if args == [] then [] else ValuesOf(args[0]) + Flat(args[1..])
  }

  /** A `?` for each of `n` values. */
  function Marks(n: nat): string {
    if n <= 1 then "?" else ['?', ',', ' '] + Marks(n - 1)
  }

  /** Every `?` that stands for a list becomes a list of `?`; there has to be an argument for
      every `?` and a `?` for every argument. */
  function Spell<T>(q: string, args: seq<Arg<T>>): Option<(string, seq<T>)> {
    if q == [] then if args == [] then Some(("", [])) else None
    else if q[0] != '?' then
      var rest := Spell(q[1..], args);
      if rest.None? then None else Some(([q[0]] + rest.value.0, rest.value.1))
    else if args == [] then None
    else
      var rest := Spell(q[1..], args[1..]);
      if rest.None? then None
      else Some((Marks(|ValuesOf(args[0])|) + rest.value.0, ValuesOf(args[0]) + rest.value.1))
  }

  predicate AllScalar<T>(args: seq<Arg<T>>) {
    forall k :: 0 <= k < |args| ==> args[k].Scalar?
  }

  predicate NoEmptyList<T(==)>(args: seq<Arg<T>>) {
    forall k :: 0 <= k < |args| ==> ValuesOf(args[k]) != []
  }

  /** `sqlx.In`: refuses empty lists, and looks at the query only if there are lists. */
  function In<T(==)>(q: string, args: seq<Arg<T>>): Option<(string, seq<T>)> {
    if !NoEmptyList(args) then None
    else if AllScalar(args) then Some((q, Flat(args)))
    else Spell(q, args)
  }

  /** What a list in the place of a value means: its values, separated by commas. */
  ghost function Listed<T>(vs: seq<T>): seq<Piece<T>> {
    if vs == [] then []
    else if |vs| == 1 then [Value(vs[0])]
    else [Value(vs[0]), Text(','), Text(' ')] + Listed(vs[1..])
  }

  ghost function PieceOf<T>(p: Piece<Arg<T>>): seq<Piece<T>> {
    match p
    case Text(c) => [Text(c)]
    case Value(a) => Listed(ValuesOf(a))
  }

  ghost function Unfolded<T>(ps: seq<Piece<Arg<T>>>): seq<Piece<T>> {
    if ps == [] then [] else PieceOf(ps[0]) + Unfolded(ps[1..])
  }

  ghost function UnfoldedIf<T>(m: Option<seq<Piece<Arg<T>>>>): Option<seq<Piece<T>>> {
    if m.None? then None else Some(Unfolded(m.value))
  }

  /** Read by number after rebinding, a query means what it means by position before. */
  lemma {:induction false} MarkedMeaning<T>(q: string, done: seq<T>, args: seq<T>)
    ensures ByNumber(Marked(q, |done| + 1), done + args) == ByPosition(q, args)
  {
    if q != [] {
      var ts := Marked(q, |done| + 1);
      if q[0] != '?' {
        assert ts[1..] == Marked(q[1..], |done| + 1);
        MarkedMeaning(q[1..], done, args);
      } else {
        NumberOfDecimal(|done| + 1);
        if args != [] {
          assert ts[1..] == Marked(q[1..], |done + [args[0]]| + 1);
          assert done + args == done + [args[0]] + args[1..];
          MarkedMeaning(q[1..], done + [args[0]], args[1..]);
        }
      }
    }
  }

  lemma RebindMeaning<T>(q: string, args: seq<T>)
    requires Bindable(q)
    ensures Meaning(Rebind(q, 1), args) == ByPosition(q, args)
  {
    BindableTokens(q, 1);
    assert [] + args == args;
    MarkedMeaning(q, [], args);
  }

  function PrependAll<T>(ps: seq<Piece<T>>, rest: Option<seq<Piece<T>>>): Option<seq<Piece<T>>> {
    if rest.None? then None else Some(ps + rest.value)
  }

  lemma ByPositionMark<T>(v: T, rest: string, args: seq<T>)
    ensures ByPosition(['?'] + rest, [v] + args) == Prepend(Value(v), ByPosition(rest, args))
  {
    assert (['?'] + rest)[1..] == rest && ([v] + args)[1..] == args;
  }

  lemma ByPositionText<T>(c: char, rest: string, args: seq<T>)
    requires c != '?'
    ensures ByPosition([c] + rest, args) == Prepend(Text(c), ByPosition(rest, args))
  {
    assert ([c] + rest)[1..] == rest;
  }

  lemma MarksConcat(n: nat, rest: string)
    requires n > 1
    ensures Marks(n) + rest == ['?'] + ([','] + ([' '] + (Marks(n - 1) + rest)))
  {
  }

  lemma {:induction false} MarksMeaning<T>(vs: seq<T>, rest: string, args: seq<T>)
    requires vs != []
    ensures ByPosition(Marks(|vs|) + rest, vs + args) == PrependAll(Listed(vs), ByPosition(rest, args))
  {
    var v, more := vs[0], vs[1..];
    assert vs + args == [v] + (more + args);
    if more == [] {
      assert more + args == args;
      ByPositionMark(v, rest, args);
    } else {
      var tail := Marks(|more|) + rest;
      MarksMeaning(more, rest, args);
      MarksConcat(|vs|, rest);
      ByPositionText(' ', tail, more + args);
      ByPositionText(',', [' '] + tail, more + args);
      ByPositionMark(v, [','] + ([' '] + tail), more + args);
      if ByPosition(rest, args).Some? {
        var inner, after := Listed(more), ByPosition(rest, args).value;
        assert [Value(v)] + ([Text(',')] + ([Text(' ')] + (inner + after)))
            == [Value(v), Text(','), Text(' ')] + inner + after;
      }
    }
  }

  lemma UnfoldedPrepend<T>(p: Piece<Arg<T>>, rest: Option<seq<Piece<Arg<T>>>>)
    ensures UnfoldedIf(Prepend(p, rest)) == PrependAll(PieceOf(p), UnfoldedIf(rest))
  {
    if rest.Some? {
      assert ([p] + rest.value)[1..] == rest.value;
    }
  }

  lemma {:induction false} SpellMeaning<T>(q: string, args: seq<Arg<T>>)
    requires Spell(q, args).Some? && NoEmptyList(args)
    ensures ByPosition(Spell(q, args).value.0, Spell(q, args).value.1) == UnfoldedIf(ByPosition(q, args))
  {
    if q == [] {
    } else if q[0] != '?' {
      var rest := Spell(q[1..], args).value;
      SpellMeaning(q[1..], args);
      ByPositionText(q[0], rest.0, rest.1);
      UnfoldedPrepend(Text(q[0]), ByPosition(q[1..], args));
    } else {
      var rest := Spell(q[1..], args[1..]).value;
      SpellMeaning(q[1..], args[1..]);
      MarksMeaning(ValuesOf(args[0]), rest.0, rest.1);
      UnfoldedPrepend(Value(args[0]), ByPosition(q[1..], args[1..]));
    }
  }

  lemma {:induction false} ScalarMeaning<T>(q: string, args: seq<Arg<T>>)
    requires AllScalar(args)
    ensures ByPosition(q, Flat(args)) == UnfoldedIf(ByPosition(q, args))
  {
    if q == [] {
    } else if q[0] != '?' {
      ScalarMeaning(q[1..], args);
      UnfoldedPrepend(Text(q[0]), ByPosition(q[1..], args));
    } else if args != [] {
      ScalarMeaning(q[1..], args[1..]);
      assert Flat(args)[1..] == Flat(args[1..]);
      UnfoldedPrepend(Value(args[0]), ByPosition(q[1..], args[1..]));
    }
  }

  lemma BindableCons(c: char, rest: string)
    requires Bindable(rest) && (rest == [] || !IsDigit(rest[0]) || (c != '$' && c != '?'))
    ensures Bindable([c] + rest)
  {
    assert ([c] + rest)[1..] == rest;
  }

  lemma SeparatedBindable(tail: string)
    requires Bindable(tail)
    ensures Bindable(['?'] + ([','] + ([' '] + tail)))
  {
    BindableCons(' ', tail);
    BindableCons(',', [' '] + tail);
    BindableCons('?', [','] + ([' '] + tail));
  }

  lemma {:induction false} MarksBindable(n: nat, rest: string)
    requires Bindable(rest) && (rest == [] || !IsDigit(rest[0]))
    ensures Bindable(Marks(n) + rest)
    ensures Marks(n) != [] && Marks(n)[0] == '?'
  {
    if n <= 1 {
      assert Marks(n) == ['?'];
      BindableCons('?', rest);
    } else {
      var tail := Marks(n - 1) + rest;
      MarksBindable(n - 1, rest);
      SeparatedBindable(tail);
      MarksConcat(n, rest);
    }
  }

  /** Spelling lists out keeps a query bindable, and the character it begins with. */
  lemma {:induction false} SpellBindable<T>(q: string, args: seq<Arg<T>>)
    requires Bindable(q) && Spell(q, args).Some?
    ensures var r := Spell(q, args).value.0;
            Bindable(r) && (r == [] <==> q == []) && (q != [] ==> r[0] == q[0])
  {
    if q == [] {
    } else if q[0] != '?' {
      SpellBindable(q[1..], args);
      var rest := Spell(q[1..], args).value.0;
      assert ([q[0]] + rest)[1..] == rest;
    } else {
      SpellBindable(q[1..], args[1..]);
      MarksBindable(|ValuesOf(args[0])|, Spell(q[1..], args[1..]).value.0);
    }
  }

  function QuestionMarks(q: string): nat {
    if q == [] then 0 else (if q[0] == '?' then 1 else 0) + QuestionMarks(q[1..])
  }

  lemma {:induction false} SpellsIff<T>(q: string, args: seq<Arg<T>>)
    ensures Spell(q, args).Some? <==> QuestionMarks(q) == |args|
  {
    if q == [] {
    } else if q[0] != '?' {
      SpellsIff(q[1..], args);
    } else if args != [] {
      SpellsIff(q[1..], args[1..]);
    }
  }

  lemma {:induction false} MarksBeyond(q: string, n: nat)
    requires n <= |q| && '?' !in q[..n]
    ensures QuestionMarks(q) == QuestionMarks(q[n..])
  {
    if n == 0 {
      assert q[0..] == q;
    } else {
      assert q[..n][0] == q[0] && q[1..][..n - 1] == q[..n][1..] && q[1..][n - 1..] == q[n..];
      MarksBeyond(q[1..], n - 1);
    }
  }

  /** After rewriting there is a `?` for every placeholder, besides those that were there. */
  lemma {:induction false} PositionalMarks(q: string)
    ensures QuestionMarks(Positional(Tokens(q))) == |Params(Tokens(q))| + QuestionMarks(q)
    decreases |q|
  {
    if q == [] {
    } else if AtParam(q) {
      var n := DigitRun(q[1..]);
      var rest := q[1..][n..];
      PositionalMarks(rest);
      MarksBeyond(q[1..], n);
      assert Tokens(q)[1..] == Tokens(rest);
      assert Positional(Tokens(q))[1..] == Positional(Tokens(rest));
    } else {
      PositionalMarks(q[1..]);
      assert Tokens(q)[1..] == Tokens(q[1..]);
      assert Positional(Tokens(q))[1..] == Positional(Tokens(q[1..]));
    }
  }

  /** No question mark is left after rebinding. */
  lemma {:induction false} ReboundHasNone(q: string, from: nat)
    ensures '?' !in Rebind(q, from)
  {
    if q != [] {
      ReboundHasNone(q[1..], if q[0] == '?' then from + 1 else from);
    }
  }

  lemma {:induction false} TextMeans<T>(ts: seq<Token>, args: seq<T>)
    requires ByNumber(ts, args).Some?
    ensures Text('?') in ByNumber(ts, args).value <==> Plain('?') in ts
  {
    if ts != [] {
      TextMeans(ts[1..], args);
      assert ts == [ts[0]] + ts[1..];
    }
  }

  lemma {:induction false} ListedText<T>(vs: seq<T>)
    ensures Text('?') !in Listed(vs)
  {
    if |vs| > 1 {
      ListedText(vs[1..]);
    }
  }

  lemma {:induction false} UnfoldedText<T>(ps: seq<Piece<Arg<T>>>)
    ensures Text('?') in Unfolded(ps) <==> Text('?') in ps
  {
    if ps != [] {
      UnfoldedText(ps[1..]);
      assert ps == [ps[0]] + ps[1..];
      if ps[0].Value? {
        ListedText(ValuesOf(ps[0].v));
      }
    }
  }

  /** A literal question mark is lost on the way, so no query that is sent means the same. */
  lemma LiteralMarkIsLost<T>(query: string, args: seq<Arg<T>>, sent: string, values: seq<T>)
    requires '?' in query && AllInRange(query, |args|)
    ensures Meaning(Rebind(sent, 1), values) != UnfoldedIf(Meaning(query, args))
  {
    RangeGivesMeaning(Tokens(query), args);
    TextMeans(Tokens(query), args);
    PlainCharsOccur(query);
    UnfoldedText(Meaning(query, args).value);
    ReboundHasNone(sent, 1);
    PlainCharsOccur(Rebind(sent, 1));
    if Meaning(Rebind(sent, 1), values).Some? {
      TextMeans(Tokens(Rebind(sent, 1)), values);
    }
  }

  /** What is sent for a query without literal question marks. */
  lemma SentMeaning<T>(query: string, args: seq<Arg<T>>, query': string, args': seq<Arg<T>>)
    requires '?' !in query && AllInRange(query, |args|) && IsRewriting(query, args, query', args')
    requires In(query', args').Some?
    ensures var (sent, values) := In(query', args').value;
            Meaning(Rebind(sent, 1), values) == UnfoldedIf(Meaning(query, args))
  {
    MeaningPreserved(query, args, query', args');
    PositionalIsBindable(query);
    if Params(Tokens(query)) == [] {
      NoParams(query);
    }
    var (sent, values) := In(query', args').value;
    if AllScalar(args') {
      ScalarMeaning(query', args');
    } else {
      SpellMeaning(query', args');
      SpellBindable(query', args');
    }
    RebindMeaning(sent, values);
  }

  /** From the caller's query to the one that is sent, by rewriting, spelling out the lists and
      rebinding.  One is sent unless an argument in use is an empty list, or there are lists and
      a `?` of the query without argument or, in a query without placeholders, an argument
      without `?`.  What is sent means the caller's query with every list in place, value by
      value, if and only if that query has no literal question mark. */
  lemma PipelineMeaning<T>(query: string, args: seq<Arg<T>>, query': string, args': seq<Arg<T>>)
    requires AllInRange(query, |args|) && IsRewriting(query, args, query', args')
    ensures In(query', args').Some?
       <==> && NoEmptyList(args')
            && (AllScalar(args') || QuestionMarks(query) == if Params(Tokens(query)) == [] then |args| else 0)
    ensures In(query', args').Some? ==>
              var (sent, values) := In(query', args').value;
              Meaning(Rebind(sent, 1), values) == UnfoldedIf(Meaning(query, args)) <==> '?' !in query
  {
    PositionalMarks(query);
    if Params(Tokens(query)) == [] {
      NoParams(query);
    }
    SpellsIff(query', args');
    if In(query', args').Some? {
      var (sent, values) := In(query', args').value;
      if '?' in query {
        LiteralMarkIsLost(query, args, sent, values);
      } else {
        SentMeaning(query, args, query', args');
      }
    }
  }
}
