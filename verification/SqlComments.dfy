/** The comment stripper of api-server/migrations/validate_migrations.py, and what it
    decides about a migration file, measured against a lexer that knows literals. */
module SqlComments {
  import opened Sequences

  /** The characters Python's `str.strip` removes. */
  predicate IsSpace(c: char) {
    || '\t' <= c <= '\r'
    || '\U{1c}' <= c <= ' '
    || c == '\U{85}' || c == '\U{a0}' || c == '\U{1680}'
    || '\U{2000}' <= c <= '\U{200a}'
    || c == '\U{2028}' || c == '\U{2029}' || c == '\U{202f}' || c == '\U{205f}' || c == '\U{3000}'
  }

  /** By code point, what counts as white space. */
  lemma SpacesAre(c: char)
    ensures IsSpace(c) <==> c as int in {
                              9, 10, 11, 12, 13, 28, 29, 30, 31, 32, 133, 160, 5760, 8192, 8193, 8194, 8195, 8196,
                              8197, 8198, 8199, 8200, 8201, 8202, 8232, 8233, 8239, 8287, 12288}
  {
  }

  predicate Starts(t: string, a: char, b: char) {
    |t| >= 2 && t[0] == a && t[1] == b
  }

  predicate OpensBlock(t: string) { Starts(t, '/', '*') }

  predicate ClosesBlock(t: string) { Starts(t, '*', '/') }

  predicate OpensLine(t: string) { Starts(t, '-', '-') }

  predicate AtComment(t: string) { OpensBlock(t) || OpensLine(t) }

  /** What follows the current line. */
  function NextLine(t: string): (rest: string)
    ensures |rest| <= |t|
    ensures t != [] ==> |rest| < |t|
  {
    if t == [] then [] else if t[0] == '\n' then t[1..] else NextLine(t[1..])
  }

  // ----- the stripper -----

  /** The characters outside every comment, where `depth` blocks are open at the start
      and literals are not looked at. */
  ghost function Stripped(t: string, depth: nat): string
    decreases |t|
  {
    if t == [] then []
    else if depth > 0 then
      if OpensBlock(t) then Stripped(t[2..], depth + 1)
      else if ClosesBlock(t) then Stripped(t[2..], depth - 1)
      else Stripped(t[1..], depth)
    else if OpensBlock(t) then Stripped(t[2..], 1)
    else if OpensLine(t) then Stripped(NextLine(t), 0)
    else [t[0]] + Stripped(t[1..], 0)
  }

  predicate At(text: string, i: nat, a: char, b: char) {
    i + 1 < |text| && text[i] == a && text[i + 1] == b
  }

  method StripSqlComments(text: string) returns (out: string)
    ensures out == Stripped(text, 0)
  {
    out := Scan(text);
    StrippedFromIsStripped(text, 0, 0);
    assert text[0..] == text;
  }

  method Scan(text: string) returns (out: string)
    ensures out == StrippedFrom(text, 0, 0)
  {
    out := [];
    var i, n, depth := 0, |text|, 0;
    ghost var whole := StrippedFrom(text, 0, 0);
    ghost var todo := whole;
    while i < n
      invariant 0 <= i <= n
      invariant 0 <= depth
      invariant todo == StrippedFrom(text, i, depth)
      invariant out + todo == whole
    {
      if depth > 0 {
        if At(text, i, '/', '*') {
          depth := depth + 1;
          i := i + 2;
        } else if At(text, i, '*', '/') {
          depth := depth - 1;
          i := i + 2;
        } else {
          i := i + 1;
        }
      } else if At(text, i, '/', '*') {
        depth := depth + 1;
        i := i + 2;
      } else if At(text, i, '-', '-') {
        var nl := LineFeed(text, i);
        i := if nl == n then n else nl + 1;
        assert todo == StrippedFrom(text, i, 0);
      } else {
        assert todo == [text[i]] + StrippedFrom(text, i + 1, 0);
        Regroup(out, text[i], StrippedFrom(text, i + 1, 0));
        out, todo := out + [text[i]], StrippedFrom(text, i + 1, 0);
        i := i + 1;
      }
    }
  }

  /** The position of the first line feed at or after `from`; the length if there is none. */
  function LineFeed(t: string, from: nat): (k: nat)
    requires from <= |t|
    ensures from <= k <= |t|
    decreases |t| - from
  {
    if from == |t| || t[from] == '\n' then from else LineFeed(t, from + 1)
  }

  lemma {:induction false} AfterLineFeed(t: string, from: nat)
    requires from <= |t|
    ensures var k := LineFeed(t, from); NextLine(t[from..]) == if k == |t| then [] else t[k + 1..]
    decreases |t| - from
  {
    if from < |t| && t[from] != '\n' {
      assert t[from..][1..] == t[from + 1..];
      AfterLineFeed(t, from + 1);
    }
  }

  /** `Stripped` of what follows position `i`, read without cutting the text up. */
  ghost function StrippedFrom(text: string, i: nat, depth: nat): string
    requires i <= |text|
    decreases |text| - i
  {
    if i == |text| then []
    else if depth > 0 then
      if At(text, i, '/', '*') then StrippedFrom(text, i + 2, depth + 1)
      else if At(text, i, '*', '/') then StrippedFrom(text, i + 2, depth - 1)
      else StrippedFrom(text, i + 1, depth)
    else if At(text, i, '/', '*') then StrippedFrom(text, i + 2, 1)
    else if At(text, i, '-', '-') then
      var nl := LineFeed(text, i);
      StrippedFrom(text, if nl == |text| then nl else nl + 1, 0)
    else [text[i]] + StrippedFrom(text, i + 1, 0)
  }

  lemma {:induction false} StrippedFromIsStripped(text: string, i: nat, depth: nat)
    requires i <= |text|
    ensures StrippedFrom(text, i, depth) == Stripped(text[i..], depth)
    decreases |text| - i
  {
    if i < |text| {
      var here := text[i..];
      assert here[1..] == text[i + 1..];
      assert |here| >= 2 ==> here[1] == text[i + 1] && here[2..] == text[i + 2..];
      if At(text, i, '/', '*') {
        StrippedFromIsStripped(text, i + 2, depth + 1);
      } else if depth > 0 && At(text, i, '*', '/') {
        StrippedFromIsStripped(text, i + 2, depth - 1);
      } else if depth == 0 && At(text, i, '-', '-') {
        var nl := LineFeed(text, i);
        AfterLineFeed(text, i);
        StrippedFromIsStripped(text, if nl == |text| then nl else nl + 1, 0);
      } else {
        StrippedFromIsStripped(text, i + 1, depth);
      }
    }
  }

  ghost predicate HasInk(s: string) {
    exists i :: 0 <= i < |s| && !IsSpace(s[i])
  }

  /** Does anything but white space survive the stripping? */
  method HasExecutableSql(text: string) returns (b: bool)
    ensures b == HasInk(Stripped(text, 0))
  {
    var code := StripSqlComments(text);
    var i := 0;
    while i < |code| && IsSpace(code[i])
      invariant 0 <= i <= |code|
      invariant forall k :: 0 <= k < i ==> IsSpace(code[k])
    {
      i := i + 1;
    }
    b := i < |code|;
  }

  // ----- a lexer that tracks literals -----

  datatype Token =
    | Space(c: char)
    | LineComment(text: string)
    | BlockComment(text: string)
    | Literal(text: string)
    | Code(c: char)

  /** Recognises literals: given the remaining input, the length of the literal that
      begins there, or 0.  Every statement below holds for every recogniser, so for
      quoted strings, quoted identifiers and dollar quoting alike. */
  type Literals = string -> nat

  /** The length of a PostgreSQL line comment, which ends at a line feed or a carriage
      return, together with its line break. */
  function LineLength(t: string): (n: nat)
    ensures n <= |t|
    ensures t != [] ==> n > 0
  {
    if t == [] then 0
    else if t[0] == '\n' then 1
    else if t[0] == '\r' then if Starts(t, '\r', '\n') then 2 else 1
    else 1 + LineLength(t[1..])
  }

  /** How much of `t` belongs to a block comment when `depth` blocks are open; all of it
      when the comment is never closed. */
  function BlockLength(t: string, depth: nat): (n: nat)
    ensures n <= |t|
    decreases |t|
  {
    if t == [] || depth == 0 then 0
    else if OpensBlock(t) then 2 + BlockLength(t[2..], depth + 1)
    else if ClosesBlock(t) then 2 + BlockLength(t[2..], depth - 1)
    else 1 + BlockLength(t[1..], depth)
  }

  function LiteralLength(lits: Literals, t: string): (n: nat)
    ensures n <= |t|
  {
    if lits(t) <= |t| then lits(t) else |t|
  }

  function Lex(lits: Literals, t: string): seq<Token>
    decreases |t|
  {
    if t == [] then []
    else if IsSpace(t[0]) then [Space(t[0])] + Lex(lits, t[1..])
    else if OpensLine(t) then
      var n := LineLength(t);
      [LineComment(t[..n])] + Lex(lits, t[n..])
    else if OpensBlock(t) then
      var n := 2 + BlockLength(t[2..], 1);
      [BlockComment(t[..n])] + Lex(lits, t[n..])
    else if LiteralLength(lits, t) > 0 then
      var n := LiteralLength(lits, t);
      [Literal(t[..n])] + Lex(lits, t[n..])
    else [Code(t[0])] + Lex(lits, t[1..])
  }

  predicate IsStatementPart(k: Token) {
    k.Literal? || k.Code?
  }

  /** The file contains something the server would execute. */
  ghost predicate HasStatement(lits: Literals, t: string) {
    exists i :: 0 <= i < |Lex(lits, t)| && IsStatementPart(Lex(lits, t)[i])
  }

  /** Both views of a block comment end at the same place, closed or not. */
  lemma {:induction false} BlockEnds(t: string, depth: nat)
    ensures Stripped(t, depth) == Stripped(t[BlockLength(t, depth)..], 0)
    decreases |t|
  {
    if t == [] || depth == 0 {
      assert t[0..] == t;
    } else {
      var k := if OpensBlock(t) || ClosesBlock(t) then 2 else 1;
      var next := if OpensBlock(t) then depth + 1 else if ClosesBlock(t) then depth - 1 else depth;
      var rest := t[k..];
      BlockEnds(rest, next);
      assert BlockLength(t, depth) == k + BlockLength(rest, next);
      assert rest[BlockLength(rest, next)..] == t[k + BlockLength(rest, next)..];
    }
  }

  /** Both views of the line comment at the start of `t` end at the same place. */
  ghost predicate EndsAlike(t: string) {
    t[LineLength(t)..] == NextLine(t)
  }

  /** So do those of every line comment before the first code or literal. */
  ghost predicate LeadingLinesEndAlike(t: string)
    decreases |t|
  {
    if t == [] then true
    else if IsSpace(t[0]) then LeadingLinesEndAlike(t[1..])
    else if OpensLine(t) then EndsAlike(t) && LeadingLinesEndAlike(NextLine(t))
    else if OpensBlock(t) then LeadingLinesEndAlike(t[2 + BlockLength(t[2..], 1)..])
    else true
  }

  /** So do those of every line comment of the file. */
  ghost predicate LinesEndAlike(lits: Literals, t: string)
    decreases |t|
  {
    if t == [] then true
    else if IsSpace(t[0]) then LinesEndAlike(lits, t[1..])
    else if OpensLine(t) then EndsAlike(t) && LinesEndAlike(lits, NextLine(t))
    else if OpensBlock(t) then LinesEndAlike(lits, t[2 + BlockLength(t[2..], 1)..])
    else LinesEndAlike(lits, t[TokenLength(lits, t)..])
  }

  /** Carriage returns occur only in CR LF pairs. */
  ghost predicate CrLfOnly(t: string) {
    forall i :: 0 <= i < |t| && t[i] == '\r' ==> i + 1 < |t| && t[i + 1] == '\n'
  }

  lemma CrLfSuffix(t: string, k: nat)
    requires k <= |t| && CrLfOnly(t)
    ensures CrLfOnly(t[k..])
  {
    var u := t[k..];
    forall i | 0 <= i < |u| && u[i] == '\r'
      ensures i + 1 < |u| && u[i + 1] == '\n'
    {
      assert t[k + i] == '\r';
    }
  }

  lemma {:induction false} LineEnds(t: string)
    requires CrLfOnly(t)
    ensures EndsAlike(t)
  {
    if t != [] && t[0] != '\n' {
      CrLfSuffix(t, 1);
      if t[0] == '\r' {
        assert NextLine(t) == NextLine(t[1..]) == t[1..][1..];
      } else {
        LineEnds(t[1..]);
        assert t[1..][LineLength(t[1..])..] == t[LineLength(t)..];
      }
    }
  }

  /** Proper line breaks are enough, though not needed. */
  lemma {:induction false} CrLfSuffices(lits: Literals, t: string)
    requires CrLfOnly(t)
    ensures LeadingLinesEndAlike(t) && LinesEndAlike(lits, t)
    decreases |t|
  {
    if t != [] {
      var n := if IsSpace(t[0]) then 1
      else if OpensLine(t) then LineLength(t)
      else if OpensBlock(t) then 2 + BlockLength(t[2..], 1)
      else if LiteralLength(lits, t) > 0 then LiteralLength(lits, t)
      else 1;
      CrLfSuffix(t, n);
      CrLfSuffices(lits, t[n..]);
      LineEnds(t);
    }
  }

  // ----- the emptiness verdict is exact -----

  lemma HasStatementCons(k: Token, ks: seq<Token>)
    ensures (exists i :: 0 <= i < |[k] + ks| && IsStatementPart(([k] + ks)[i]))
       <==> IsStatementPart(k) || exists i :: 0 <= i < |ks| && IsStatementPart(ks[i])
  {
    var all := [k] + ks;
    if i :| 0 <= i < |ks| && IsStatementPart(ks[i]) {
      assert all[i + 1] == ks[i];
    }
    if IsStatementPart(k) {
      assert all[0] == k;
    }
  }

  lemma HasInkCons(c: char, s: string)
    ensures HasInk([c] + s) <==> !IsSpace(c) || HasInk(s)
  {
    var all := [c] + s;
    if i :| 0 <= i < |s| && !IsSpace(s[i]) {
      assert all[i + 1] == s[i];
    }
    if !IsSpace(c) {
      assert all[0] == c;
    }
  }

  /** A file is reported to hold executable SQL exactly when a lexer that does track
      literals finds something besides white space and comments in it. */
  lemma {:induction false} EmptinessIsExact(lits: Literals, t: string)
    requires LeadingLinesEndAlike(t)
    ensures HasInk(Stripped(t, 0)) <==> HasStatement(lits, t)
    decreases |t|
  {
    if t == [] {
    } else if IsSpace(t[0]) {
      EmptinessIsExact(lits, t[1..]);
      assert !AtComment(t);
      HasInkCons(t[0], Stripped(t[1..], 0));
      assert Stripped(t, 0) == [t[0]] + Stripped(t[1..], 0);
      assert Lex(lits, t) == [Space(t[0])] + Lex(lits, t[1..]);
      HasStatementCons(Space(t[0]), Lex(lits, t[1..]));
    } else if OpensLine(t) {
      var n := LineLength(t);
      EmptinessIsExact(lits, t[n..]);
      assert Lex(lits, t) == [LineComment(t[..n])] + Lex(lits, t[n..]);
      HasStatementCons(LineComment(t[..n]), Lex(lits, t[n..]));
    } else if OpensBlock(t) {
      var n := 2 + BlockLength(t[2..], 1);
      BlockEnds(t[2..], 1);
      assert t[n..] == t[2..][n - 2..];
      EmptinessIsExact(lits, t[n..]);
      assert Lex(lits, t) == [BlockComment(t[..n])] + Lex(lits, t[n..]);
      HasStatementCons(BlockComment(t[..n]), Lex(lits, t[n..]));
    } else {
      HasInkCons(t[0], Stripped(t[1..], 0));
      assert IsStatementPart(Lex(lits, t)[0]);
    }
  }

  /** With a bare carriage return inside a line comment the verdict can be wrong in the
      direction the stripper promises never to err in: this file is all comment. */
  lemma BareCarriageReturn(lits: Literals, t: string)
    requires t == "--\r/*\nx"
    ensures HasInk(Stripped(t, 0)) && !HasStatement(lits, t)
  {
    assert HasInk(Stripped(t, 0)) by {
      NextLineFrom(t, 5);
      var x := NextLine(t);
      assert x == [t[6]];
      assert Stripped(x, 0) == [x[0]] + Stripped(x[1..], 0);
      assert Stripped(t, 0) == Stripped(x, 0);
      assert !IsSpace(Stripped(t, 0)[0]);
    }
    var v := t[3..];
    assert LineLength(t) == 3 by {
      var u := t[1..];
      assert u[1..] == t[2..];
      assert LineLength(t[2..]) == 1;
    }
    assert BlockLength(v[2..], 1) == 2 by {
      var w := v[2..];
      assert w[1..][1..] == [];
      assert BlockLength(w[1..], 1) == 1;
    }
    assert v[4..] == [];
    assert Lex(lits, v) == [BlockComment(v[..4])] + Lex(lits, v[4..]);
    assert Lex(lits, t) == [LineComment(t[..3])] + Lex(lits, v);
  }

  /** And it can be wrong in the other direction: this statement is taken for a comment. */
  lemma HiddenStatement(lits: Literals, t: string)
    requires t == "--\rx"
    ensures !HasInk(Stripped(t, 0)) && HasStatement(lits, t)
  {
    assert Stripped(t, 0) == [] by {
      LastLine(t);
    }
    var v := t[3..];
    assert LineLength(t) == 3 by {
      var u := t[1..];
      assert u[1..] == t[2..];
      assert LineLength(t[2..]) == 1;
    }
    assert v[0] == 'x';
    assert v != [] && !IsSpace(v[0]) && !AtComment(v);
    assert IsStatementPart(Lex(lits, v)[0]);
    assert Lex(lits, t) == [LineComment(t[..3])] + Lex(lits, v);
    HasStatementCons(LineComment(t[..3]), Lex(lits, v));
  }

  lemma {:induction false} LastLine(t: string)
    requires forall i :: 0 <= i < |t| ==> t[i] != '\n'
    ensures NextLine(t) == []
  {
    if t != [] {
      LastLine(t[1..]);
    }
  }

  lemma {:induction false} NextLineFrom(t: string, k: nat)
    requires k < |t| && t[k] == '\n'
    requires forall i :: 0 <= i < k ==> t[i] != '\n'
    ensures NextLine(t) == t[k + 1..]
  {
    if k > 0 {
      NextLineFrom(t[1..], k - 1);
      assert t[1..][k..] == t[k + 1..];
    }
  }

  // ----- what is kept, in general -----

  /** The visible characters of a text. */
  ghost function Ink(s: string): string {
    if s == [] then [] else (if IsSpace(s[0]) then [] else [s[0]]) + Ink(s[1..])
  }

  ghost function KeptInk(ks: seq<Token>): string {
    if ks == [] then []
    else (match ks[0]
          case Literal(text) => Ink(text)
          case Code(c) => Ink([c])
          case _ => [])
         + KeptInk(ks[1..])
  }

  /** No comment marker begins inside a literal. */
  ghost predicate LiteralsHideNoMarker(lits: Literals, t: string)
    decreases |t|
  {
    if t == [] then true
    else if IsSpace(t[0]) then LiteralsHideNoMarker(lits, t[1..])
    else if OpensLine(t) then LiteralsHideNoMarker(lits, t[LineLength(t)..])
    else if OpensBlock(t) then LiteralsHideNoMarker(lits, t[2 + BlockLength(t[2..], 1)..])
    else if LiteralLength(lits, t) > 0 then
      var n := LiteralLength(lits, t);
      (forall i :: 0 <= i < n ==> !AtComment(t[i..])) && LiteralsHideNoMarker(lits, t[n..])
    else LiteralsHideNoMarker(lits, t[1..])
  }

  lemma {:induction false} InkConcat(a: string, b: string)
    ensures Ink(a + b) == Ink(a) + Ink(b)
  {
    if a == [] {
      assert a + b == b;
    } else {
      assert (a + b)[1..] == a[1..] + b;
      InkConcat(a[1..], b);
    }
  }

  lemma {:induction false} PlainPrefix(t: string, n: nat)
    requires n <= |t|
    requires forall i :: 0 <= i < n ==> !AtComment(t[i..])
    ensures Stripped(t, 0) == t[..n] + Stripped(t[n..], 0)
  {
    if n == 0 {
      assert t[0..] == t;
    } else {
      assert t[0..] == t;
      forall i | 0 <= i < n - 1
        ensures !AtComment(t[1..][i..])
      {
        assert t[1..][i..] == t[i + 1..];
      }
      PlainPrefix(t[1..], n - 1);
      assert t[1..][n - 1..] == t[n..];
      assert t[..n] == [t[0]] + t[1..][..n - 1];
    }
  }

  /** Up to white space, the stripper keeps exactly the statement tokens, in order, of a text
      whose line comments end alike. */
  lemma {:induction false} KeepsRawTokens(lits: Literals, t: string)
    requires LinesEndAlike(lits, t)
    requires LiteralsHideNoMarker(lits, t)
    ensures Ink(Stripped(t, 0)) == KeptInk(Lex(lits, t))
    decreases |t|
  {
    if t == [] {
    } else if IsSpace(t[0]) {
      KeepsRawTokens(lits, t[1..]);
      assert Lex(lits, t)[1..] == Lex(lits, t[1..]);
      InkConcat([t[0]], Stripped(t[1..], 0));
    } else if OpensLine(t) {
      var n := LineLength(t);
      KeepsRawTokens(lits, t[n..]);
      assert Lex(lits, t)[1..] == Lex(lits, t[n..]);
    } else if OpensBlock(t) {
      var n := 2 + BlockLength(t[2..], 1);
      BlockEnds(t[2..], 1);
      assert t[n..] == t[2..][n - 2..];
      KeepsRawTokens(lits, t[n..]);
      assert Lex(lits, t)[1..] == Lex(lits, t[n..]);
    } else {
      var n := if LiteralLength(lits, t) > 0 then LiteralLength(lits, t) else 1;
      assert t[0..] == t;
      PlainPrefix(t, n);
      KeepsRawTokens(lits, t[n..]);
      InkConcat(t[..n], Stripped(t[n..], 0));
      assert Lex(lits, t)[1..] == Lex(lits, t[n..]);
      assert t[..1] == [t[0]];
    }
  }

  // ----- without any condition on line breaks -----

  /** Every line break as a line feed, as Python reads a file in text mode. */
  ghost function Universal(t: string): string
    decreases |t|
  {
    if t == [] then []
    else if Starts(t, '\r', '\n') then Universal(t[1..])
    else if t[0] == '\r' then ['\n'] + Universal(t[1..])
    else [t[0]] + Universal(t[1..])
  }

  lemma UniversalStarts(t: string, a: char, b: char)
    requires a != '\r' && b != '\r' && a != '\n' && b != '\n'
    ensures Starts(Universal(t), a, b) <==> Starts(t, a, b)
    ensures Starts(t, a, b) ==> Universal(t)[2..] == Universal(t[2..])
  {
    UniversalHead(t, a);
    if t != [] && t[0] == a {
      UniversalHead(t[1..], b);
      assert Universal(t) == [a] + Universal(t[1..]);
      assert Starts(t, a, b) ==> t[2..] == t[1..][1..];
    }
  }

  lemma {:induction false} UniversalHead(t: string, a: char)
    requires a != '\r' && a != '\n'
    ensures Universal(t) != [] && Universal(t)[0] == a <==> t != [] && t[0] == a
  {
    if Starts(t, '\r', '\n') {
      UniversalHead(t[1..], a);
    }
  }

  /** A line comment of the server ends where the line does. */
  lemma {:induction false} UniversalLineEnds(t: string)
    ensures NextLine(Universal(t)) == Universal(t[LineLength(t)..])
  {
    if t == [] {
    } else if Starts(t, '\r', '\n') {
      assert t[1..][1..] == t[2..];
      assert Universal(t) == ['\n'] + Universal(t[2..]);
    } else if t[0] == '\n' || t[0] == '\r' {
      assert Universal(t) == ['\n'] + Universal(t[1..]);
    } else {
      UniversalLineEnds(t[1..]);
      assert Universal(t) == [t[0]] + Universal(t[1..]);
      assert t[1..][LineLength(t[1..])..] == t[LineLength(t)..];
    }
  }

  lemma {:induction false} UniversalBlockEnds(t: string, depth: nat)
    ensures Stripped(Universal(t), depth) == Stripped(Universal(t[BlockLength(t, depth)..]), 0)
    decreases |t|
  {
    if t == [] || depth == 0 {
      assert t[0..] == t;
    } else {
      var k := if OpensBlock(t) || ClosesBlock(t) then 2 else 1;
      var next := if OpensBlock(t) then depth + 1 else if ClosesBlock(t) then depth - 1 else depth;
      var rest := t[k..];
      UniversalBlockEnds(rest, next);
      assert BlockLength(t, depth) == k + BlockLength(rest, next);
      assert rest[BlockLength(rest, next)..] == t[k + BlockLength(rest, next)..];
      UniversalStarts(t, '/', '*');
      UniversalStarts(t, '*', '/');
      if k == 1 && !Starts(t, '\r', '\n') {
        assert Universal(t)[1..] == Universal(rest);
      }
    }
  }

  lemma UniversalLineComment(t: string)
    requires OpensLine(t)
    ensures Stripped(Universal(t), 0) == Stripped(Universal(t[LineLength(t)..]), 0)
  {
    UniversalLineEnds(t);
    UniversalStarts(t, '-', '-');
    UniversalStarts(t, '/', '*');
  }

  lemma UniversalBlockComment(t: string)
    requires OpensBlock(t)
    ensures Stripped(Universal(t), 0) == Stripped(Universal(t[2 + BlockLength(t[2..], 1)..]), 0)
  {
    var n := BlockLength(t[2..], 1);
    UniversalBlockEnds(t[2..], 1);
    UniversalStarts(t, '/', '*');
    assert t[2..][n..] == t[2 + n..];
  }

  /** Outside comments a character passes through, and a line break stays white space. */
  lemma UniversalStep(t: string)
    requires t != [] && !AtComment(t)
    ensures Ink(Stripped(Universal(t), 0)) == Ink([t[0]]) + Ink(Stripped(Universal(t[1..]), 0))
  {
    UniversalStarts(t, '/', '*');
    UniversalStarts(t, '-', '-');
    if !Starts(t, '\r', '\n') {
      var c := if t[0] == '\r' then '\n' else t[0];
      assert Universal(t) == [c] + Universal(t[1..]);
      assert Stripped(Universal(t), 0) == [c] + Stripped(Universal(t[1..]), 0);
      InkConcat([c], Stripped(Universal(t[1..]), 0));
    }
  }

  lemma {:induction false} UniversalPrefix(t: string, n: nat)
    requires n <= |t|
    requires forall i :: 0 <= i < n ==> !AtComment(t[i..])
    ensures Ink(Stripped(Universal(t), 0)) == Ink(t[..n]) + Ink(Stripped(Universal(t[n..]), 0))
  {
    assert t[0..] == t;
    if n > 0 {
      forall i | 0 <= i < n - 1
        ensures !AtComment(t[1..][i..])
      {
        assert t[1..][i..] == t[i + 1..];
      }
      UniversalStep(t);
      UniversalPrefix(t[1..], n - 1);
      assert t[1..][n - 1..] == t[n..];
      assert t[..n] == [t[0]] + t[1..][..n - 1];
      InkConcat([t[0]], t[1..][..n - 1]);
    }
  }

  lemma {:induction false} InkIsInk(s: string)
    ensures HasInk(s) <==> Ink(s) != []
  {
    if s != [] {
      InkIsInk(s[1..]);
      HasInkCons(s[0], s[1..]);
      assert s == [s[0]] + s[1..];
    }
  }

  /** With its line breaks read as line feeds, whatever they are, a file is reported to hold
      executable SQL exactly when the server finds some. */
  lemma {:induction false} UniversalIsExact(lits: Literals, t: string)
    ensures Ink(Stripped(Universal(t), 0)) != [] <==> HasStatement(lits, t)
    decreases |t|
  {
    if t == [] {
    } else if IsSpace(t[0]) {
      UniversalStep(t);
      UniversalIsExact(lits, t[1..]);
      assert Lex(lits, t) == [Space(t[0])] + Lex(lits, t[1..]);
      HasStatementCons(Space(t[0]), Lex(lits, t[1..]));
    } else if OpensLine(t) {
      var n := LineLength(t);
      UniversalLineComment(t);
      UniversalIsExact(lits, t[n..]);
      assert Lex(lits, t) == [LineComment(t[..n])] + Lex(lits, t[n..]);
      HasStatementCons(LineComment(t[..n]), Lex(lits, t[n..]));
    } else if OpensBlock(t) {
      var n := 2 + BlockLength(t[2..], 1);
      UniversalBlockComment(t);
      UniversalIsExact(lits, t[n..]);
      assert Lex(lits, t) == [BlockComment(t[..n])] + Lex(lits, t[n..]);
      HasStatementCons(BlockComment(t[..n]), Lex(lits, t[n..]));
    } else {
      UniversalStep(t);
      assert IsStatementPart(Lex(lits, t)[0]);
    }
  }

  /** The verdict is right if and only if turning every line break into a line feed first
      would not change it. */
  lemma VerdictIff(lits: Literals, t: string)
    ensures (HasInk(Stripped(t, 0)) <==> HasStatement(lits, t))
       <==> (HasInk(Stripped(t, 0)) <==> HasInk(Stripped(Universal(t), 0)))
  {
    InkIsInk(Stripped(Universal(t), 0));
    UniversalIsExact(lits, t);
  }

  /** How much of `t` the literal or the code character at its start takes up. */
  ghost function TokenLength(lits: Literals, t: string): (n: nat)
    requires t != []
    ensures 0 < n <= |t|
  {
    if LiteralLength(lits, t) > 0 then LiteralLength(lits, t) else 1
  }

  lemma KeepsToken(lits: Literals, t: string)
    requires t != [] && !IsSpace(t[0]) && !AtComment(t) && LiteralsHideNoMarker(lits, t)
    ensures var rest := t[TokenLength(lits, t)..];
            && LiteralsHideNoMarker(lits, rest)
            && KeptInk(Lex(lits, t)) == Ink(t[..TokenLength(lits, t)]) + KeptInk(Lex(lits, rest))
            && Ink(Stripped(Universal(t), 0)) == Ink(t[..TokenLength(lits, t)]) + Ink(Stripped(Universal(rest), 0))
  {
    var n := TokenLength(lits, t);
    assert t[0..] == t;
    UniversalPrefix(t, n);
    assert Lex(lits, t)[1..] == Lex(lits, t[n..]);
    assert t[..1] == [t[0]];
  }

  /** Of a text read with universal line breaks, as the table check reads it, the stripper keeps
      exactly the statement tokens. */
  lemma {:induction false} KeepsStatementTokens(lits: Literals, t: string)
    requires LiteralsHideNoMarker(lits, t)
    ensures Ink(Stripped(Universal(t), 0)) == KeptInk(Lex(lits, t))
    decreases |t|
  {
    if t == [] {
    } else if IsSpace(t[0]) {
      UniversalStep(t);
      KeepsStatementTokens(lits, t[1..]);
      assert Lex(lits, t)[1..] == Lex(lits, t[1..]);
    } else if OpensLine(t) {
      var n := LineLength(t);
      UniversalLineComment(t);
      KeepsStatementTokens(lits, t[n..]);
      assert Lex(lits, t)[1..] == Lex(lits, t[n..]);
    } else if OpensBlock(t) {
      var n := 2 + BlockLength(t[2..], 1);
      UniversalBlockComment(t);
      KeepsStatementTokens(lits, t[n..]);
      assert Lex(lits, t)[1..] == Lex(lits, t[n..]);
    } else {
      KeepsToken(lits, t);
      KeepsStatementTokens(lits, t[TokenLength(lits, t)..]);
    }
  }
}
