/** The file names of migrations, `<ts>[_V<N>][_<name>].up.sql` or `.down.sql`, as
    api-server/migrations/validate_migrations.py reads them.  Numbers are read as numbers, so
    two names that differ in leading zeros only are one migration. */
module MigrationNames {
  import opened Numerals
  import opened Options
  import opened Migrations

  const UP := ".up.sql"
  const DOWN := ".down.sql"

  predicate IsNameChar(c: char) {
    'a' <= c <= 'z' || IsDigit(c) || c == '_'
  }

  predicate IsName(s: string) {
    s != [] && forall i :: 0 <= i < |s| ==> IsNameChar(s[i])
  }

  /** The length of the longest prefix of name characters. */
  function NameRun(s: string): (n: nat)
    ensures n <= |s|
    ensures forall i :: 0 <= i < n ==> IsNameChar(s[i])
    ensures n < |s| ==> !IsNameChar(s[n])
  {
    if s == [] || !IsNameChar(s[0]) then 0 else 1 + NameRun(s[1..])
  }

  /** The parts of a file name, with its numbers as they are written. */
  datatype Spelling = Spelling(ts: Numeral, v: Option<Numeral>, name: Option<string>, dir: Direction) {
    predicate Valid() {
      && ts != []
      && (v.Some? ==> v.value != [])
      && (name.Some? ==> IsName(name.value))
    }

    /** Without leading zeros. */
    predicate Short() {
      IsShort(ts) && (v.Some? ==> IsShort(v.value))
    }

    function Meaning(): Parsed {
      Parsed(Ident(Number(ts), if v.None? then None else Some(Number(v.value)), name), dir)
    }

    function Text(): string {
      ts + Rest()
    }

    function Rest(): string {
      LabelText(v) + (NameText(name) + DirText(dir))
    }
  }

  function LabelText(v: Option<Numeral>): string {
    if v.None? then "" else ['_', 'V'] + v.value
  }

  function NameText(name: Option<string>): string {
    if name.None? then "" else ['_'] + name.value
  }

  function DirText(dir: Direction): (s: string)
    ensures s != [] && s[0] == '.'
    ensures dir.Up? <==> s == UP
    ensures dir.Down? <==> s == DOWN
  {
    assert |UP| != |DOWN|;
    if dir.Up? then UP else DOWN
  }

  // ----- reading a file name -----

  function ReadDir(s: string): (r: Option<Direction>)
    ensures forall dir :: r == Some(dir) <==> s == DirText(dir)
  {
    if s == UP then Some(Up) else if s == DOWN then Some(Down) else None
  }

  /** The optional label, and what follows it. */
  function ReadLabel(s: string): (r: (Option<Numeral>, string))
    ensures s == LabelText(r.0) + r.1
    ensures r.0.Some? ==> r.0.value != []
  {
    if |s| >= 3 && s[0] == '_' && s[1] == 'V' && IsDigit(s[2]) then
      var n := DigitRun(s[2..]);
      assert s == ['_', 'V'] + s[2..][..n] + s[2..][n..];
      (Some(s[2..][..n]), s[2..][n..])
    else (None, s)
  }

  /** The optional name, and what follows it. */
  function ReadName(s: string): (r: (Option<string>, string))
    ensures s == NameText(r.0) + r.1
    ensures r.0.Some? ==> IsName(r.0.value)
  {
    if |s| >= 2 && s[0] == '_' && IsNameChar(s[1]) then
      var n := NameRun(s[1..]);
      assert s == ['_'] + s[1..][..n] + s[1..][n..];
      (Some(s[1..][..n]), s[1..][n..])
    else (None, s)
  }

  function Read(file: string): Option<Spelling> {
    var n := DigitRun(file);
    if n == 0 then None else ReadRest(file[..n], file[n..])
  }

  function ReadRest(ts: Numeral, rest: string): Option<Spelling> {
    var l := ReadLabel(rest);
    var name := ReadName(l.1);
    var dir := ReadDir(name.1);
    if dir.None? then None else Some(Spelling(ts, l.0, name.0, dir.value))
  }

  function ParseName(file: string): Option<Parsed> {
    var s := Read(file);
    if s.None? then None else Some(s.value.Meaning())
  }

  // ----- reading inverts writing -----

  lemma {:induction false} NameRunOf(name: string, rest: string)
    requires forall i :: 0 <= i < |name| ==> IsNameChar(name[i])
    requires rest == [] || !IsNameChar(rest[0])
    ensures NameRun(name + rest) == |name|
  {
    if name == [] {
      assert name + rest == rest;
    } else {
      assert (name + rest)[1..] == name[1..] + rest;
      NameRunOf(name[1..], rest);
    }
  }

  lemma ReadsName(name: Option<string>, rest: string)
    requires name.Some? ==> IsName(name.value)
    requires rest != [] && rest[0] == '.'
    ensures ReadName(NameText(name) + rest) == (name, rest)
  {
    if name.Some? {
      var s := ['_'] + name.value + rest;
      assert s[1..] == name.value + rest && s[1] == name.value[0];
      NameRunOf(name.value, rest);
      assert s[1..][..|name.value|] == name.value && s[1..][|name.value|..] == rest;
    } else {
      assert NameText(name) + rest == rest;
    }
  }

  lemma ReadsLabel(v: Option<Numeral>, rest: string)
    requires v.Some? ==> v.value != []
    requires rest != [] && !IsDigit(rest[0]) && (v.None? && |rest| > 1 ==> rest[1] != 'V')
    ensures ReadLabel(LabelText(v) + rest) == (v, rest)
  {
    if v.Some? {
      var s := ['_', 'V'] + v.value + rest;
      assert s[2..] == v.value + rest && s[2] == v.value[0];
      DigitRunOf(v.value, rest);
      assert s[2..][..|v.value|] == v.value && s[2..][|v.value|..] == rest;
    } else {
      assert LabelText(v) + rest == rest;
    }
  }

  lemma ReadsRest(s: Spelling)
    requires s.Valid()
    ensures ReadRest(s.ts, s.Rest()) == Some(s)
  {
    ReadsLabel(s.v, NameText(s.name) + DirText(s.dir));
    ReadsName(s.name, DirText(s.dir));
  }

  /** Reading a written name gives back its parts ... */
  lemma ReadWritten(s: Spelling)
    requires s.Valid()
    ensures Read(s.Text()) == Some(s)
  {
    var rest := s.Rest();
    DigitRunOf(s.ts, rest);
    assert (s.ts + rest)[..|s.ts|] == s.ts && (s.ts + rest)[|s.ts|..] == rest;
    ReadsRest(s);
  }

  /** In full: `<ts>_V<N>_<name>.up.sql` and its down file. */
  lemma ReadsInFull(ts: Numeral, v: Numeral, name: string)
    requires ts != [] && v != [] && IsName(name)
    ensures ParseName(ts + ("_V" + v + ("_" + name + ".up.sql")))
         == Some(Parsed(Ident(Number(ts), Some(Number(v)), Some(name)), Up))
    ensures ParseName(ts + ("_V" + v + ("_" + name + ".down.sql")))
         == Some(Parsed(Ident(Number(ts), Some(Number(v)), Some(name)), Down))
    ensures ParseName(ts + ".up.sql") == Some(Parsed(Ident(Number(ts), None, None), Up))
  {
    ReadWritten(Spelling(ts, Some(v), Some(name), Up));
    ReadWritten(Spelling(ts, Some(v), Some(name), Down));
    ReadWritten(Spelling(ts, None, None, Up));
    assert "" + ("" + ".up.sql") == ".up.sql";
  }

  lemma RestWritten(ts: Numeral, rest: string, s: Spelling)
    requires ts != [] && ReadRest(ts, rest) == Some(s)
    ensures s.ts == ts && s.Valid() && s.Rest() == rest
  {
    var l := ReadLabel(rest);
    var name := ReadName(l.1);
    assert name.1 == DirText(s.dir);
  }

  /** ... and only written names are read. */
  lemma WrittenIfRead(file: string, s: Spelling)
    requires Read(file) == Some(s)
    ensures s.Valid() && s.Text() == file
  {
    var n := DigitRun(file);
    RestWritten(file[..n], file[n..], s);
    Halves(file, n);
  }

  lemma Halves(file: string, n: nat)
    requires n <= |file|
    ensures file[..n] + file[n..] == file
  {
  }

  // ----- which names are read alike -----

  /** The spelling without leading zeros. */
  function Shortest(p: Parsed): Spelling {
    Spelling(Decimal(p.id.ts), if p.id.v.None? then None else Some(Decimal(p.id.v.value)), p.id.name, p.dir)
  }

  lemma ShortestIff(s: Spelling)
    requires s.Valid()
    ensures Shortest(s.Meaning()) == s <==> s.Short()
  {
    DecimalOfNumber(s.ts);
    if s.v.Some? {
      DecimalOfNumber(s.v.value);
    }
  }

  /** Two names without leading zeros that are read alike are one name. */
  lemma ShortNamesParseApart(f: string, g: string)
    requires Read(f).Some? && Read(g).Some? && Read(f).value.Short() && Read(g).value.Short()
    ensures ParseName(f) == ParseName(g) <==> f == g
  {
    WrittenIfRead(f, Read(f).value);
    WrittenIfRead(g, Read(g).value);
    ShortestIff(Read(f).value);
    ShortestIff(Read(g).value);
  }

  lemma Prepended(digits: string, rest: string)
    ensures (['0'] + digits) + rest == ['0'] + (digits + rest)
  {
  }

  /** A zero in front of a name gives another name that is read alike. */
  lemma ZeroInFront(f: string)
    requires Read(f).Some?
    ensures ParseName(['0'] + f) == ParseName(f) && ['0'] + f != f
  {
    WrittenIfRead(f, Read(f).value);
    var s := Read(f).value;
    LeadingZero(s.ts);
    var t := Spelling(['0'] + s.ts, s.v, s.name, s.dir);
    assert t.Text() == ['0'] + s.Text() by {
      Prepended(s.ts, s.Rest());
    }
    ReadWritten(t);
    assert |['0'] + f| != |f|;
  }

  /** Without leading zeros anywhere, whatever was added since the start shares neither its
      timestamp nor its label with any other file of its direction. */
  lemma ShortNamesNeverClash(start: set<string>, run: seq<Merge>, s: Spelling, t: Spelling)
    requires s.Valid() && t.Valid() && s.Short() && t.Short() && s != t && s.dir == t.dir
    ensures AcceptedRun(ParseName, start, run)
            && s.Text() in RefsAfter(start, run) && t.Text() in RefsAfter(start, run)
            && (s.Text() !in Legacy(start, run) || t.Text() !in Legacy(start, run))
            ==> Number(s.ts) != Number(t.ts)
                && (s.v.Some? && t.v.Some? ==> Number(s.v.value) != Number(t.v.value))
  {
    ReadWritten(s);
    ReadWritten(t);
    ShortNamesParseApart(s.Text(), t.Text());
    if && AcceptedRun(ParseName, start, run)
       && s.Text() in RefsAfter(start, run) && t.Text() in RefsAfter(start, run)
       && (s.Text() !in Legacy(start, run) || t.Text() !in Legacy(start, run))
    {
      FilesClashIff(ParseName, start, run, s.Text(), t.Text());
    }
  }

  /** Nor does any file of a change go unread: the verdict is the condition on its files. */
  lemma ShortNamesAreRead(c: Change)
    requires c.parse == ParseName
    requires forall f :: f in c.files && Read(f).Some? ==> Read(f).value.Short()
    ensures ParsesApart(c) && (c.Clean() <==> FilesClean(c))
  {
    forall f, g | f in c.files && g in c.files && c.parse(f).Some? && c.parse(f) == c.parse(g)
      ensures f == g
    {
      ShortNamesParseApart(f, g);
    }
    CleanIffFilesClean(c);
  }

  /** With them the promise fails: next to a new file, one with a zero in front is accepted
      whatever it holds, be it nothing, and both carry the same timestamp and label. */
  lemma EmptyTwinIsAccepted(c: Change, a: seq<string>, b: seq<string>, f: string, twin: string)
    requires c.parse == ParseName && Accepted(c) && c.files == a + b && f in b && c.IsNew(f)
    requires twin == ['0'] + f && twin !in c.base
    ensures twin != f && ParseName(f).Some? && ParseName(twin) == ParseName(f)
    ensures Accepted(c.(files := a + [twin] + b))
    ensures c.content(twin) == "" ==> !FileIsFilled(c, twin)
  {
    assert f in c.files;
    ZeroInFront(f);
    ShadowIsAccepted(c, a, b, f, twin);
  }

  /** Every labelled identity with a proper name has a file name, the one without zeros. */
  lemma HasFileName(p: Parsed)
    requires p.id.name.Some? ==> IsName(p.id.name.value)
    ensures ParseName(Shortest(p).Text()) == Some(p)
  {
    ReadWritten(Shortest(p));
    NumberOfDecimal(p.id.ts);
    if p.id.v.Some? {
      NumberOfDecimal(p.id.v.value);
    }
  }

  /** Like `01_V2_a.up.sql` and `1_V2_a.up.sql`: two new names of one migration, whatever it is.
      The first file is empty and the change is accepted. */
  lemma EmptyTwin(s: Spelling, known: Spelling, content: string -> string, unqualified: string -> bool)
    requires s.Valid() && s.dir.Up? && s.v.Some? && known.Valid() && !Clash(s.Meaning().id, known.Meaning().id)
    ensures var f, twin := s.Text(), ['0'] + s.Text();
            var c := Change(ParseName, [twin, f], {known.Text()}, content, unqualified);
            FileIsFilled(c, f) && content(twin) == "" ==> Accepted(c) && !UpFilesFilled(c)
  {
    var f, twin := s.Text(), ['0'] + s.Text();
    var c := Change(ParseName, [twin, f], {known.Text()}, content, unqualified);
    ReadWritten(s);
    ReadWritten(known);
    ZeroInFront(f);
    if FileIsFilled(c, f) && content(twin) == "" {
      ShadowUnfilled(c, f, twin, known.Text());
    }
  }
}
