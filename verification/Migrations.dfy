/** The migration gate of api-server/migrations/validate_migrations.py.

    The gate looks at one change: the migration tree it proposes against the file names
    on the reference branches.  What it is for is an invariant over every sequence of
    accepted changes, proved at the end of this module. */
module Migrations {
  import opened Options
  import opened SqlComments

  datatype Direction = Up | Down

  /** What identifies a migration: its version key, its `V<N>` label and its name. */
  datatype Ident = Ident(ts: nat, v: Option<nat>, name: Option<string>)

  datatype Parsed = Parsed(id: Ident, dir: Direction)

  /** The file name pattern, whatever it accepts. */
  type Parser = string -> Option<Parsed>

  /** The version keys in a set of file names. */
  function Stamps(parse: Parser, names: set<string>): set<nat> {
    set f | f in names && parse(f).Some? :: parse(f).value.id.ts
  }

  /** The `V<N>` labels in a set of file names. */
  function Labels(parse: Parser, names: set<string>): set<nat> {
    set f | f in names && parse(f).Some? && parse(f).value.id.v.Some? :: parse(f).value.id.v.value
  }

  datatype Error =
    | Malformed(file: string)
    | MissingLabel(id: Ident)
    | DuplicateTimestamp(id: Ident)
    | LabelReuse(id: Ident)
    | MissingUp(id: Ident)
    | EmptyUp(id: Ident)
    | UnqualifiedTable(id: Ident)

  /** A proposed tree together with what it is compared with.
      `files` is the directory listing, `base` every file name on a readable reference,
      `content` the text of a file and `unqualified` whether a text creates a table
      without naming its schema. */
  datatype Change = Change(
    parse: Parser,
    files: seq<string>,
    base: set<string>,
    content: string -> string,
    unqualified: string -> bool)
  {
    ghost function Tree(): set<string> {
      set f | f in files
    }

    /** Newness goes by file name, and only when there is something to compare with. */
    predicate IsNew(f: string) {
      base != {} && f !in base
    }

    ghost predicate IsNewIdent(id: Ident) {
      exists f :: f in files && IsNew(f) && parse(f).Some? && parse(f).value.id == id
    }

    ghost function IdentsAt(ts: nat): set<Ident> {
      set f | f in files && parse(f).Some? && parse(f).value.id.ts == ts :: parse(f).value.id
    }

    /** The file that carries one direction of a migration; the last one listed, should
        two names parse alike. */
    function FileOf(id: Ident, dir: Direction): Option<string> {
      LastFile(parse, files, Parsed(id, dir))
    }

    ghost predicate UpIsFilled(id: Ident) {
      var up := FileOf(id, Up);
      up.Some? && HasInk(Stripped(content(up.value), 0)) && !unqualified(content(up.value))
    }

    ghost predicate IdentOk(id: Ident) {
      && id.v.Some?
      && IdentsAt(id.ts) == {id}
      && id.ts !in Stamps(parse, base)
      && id.v.value !in Labels(parse, base)
      && UpIsFilled(id)
    }

    /** Nothing this change introduces is wrong. */
    ghost predicate Clean() {
      && (forall f :: f in files && IsNew(f) ==> parse(f).Some?)
      && (forall id :: IsNewIdent(id) ==> IdentOk(id))
      && (forall id, id' :: IsNewIdent(id) && IsNewIdent(id') && id.v == id'.v ==> id.ts == id'.ts)
    }

    /** The error is true of something this change introduces. */
    ghost predicate IsTrue(e: Error) {
      if e.Malformed? then e.file in files && IsNew(e.file) && parse(e.file).None?
      else IsNewIdent(e.id) && IsTrueOf(e, e.id)
    }

    ghost predicate IsTrueOf(e: Error, id: Ident)
      requires !e.Malformed?
    {
      match e
      case MissingLabel(_) => id.v.None?
      case DuplicateTimestamp(_) => id.v.Some? && (IdentsAt(id.ts) != {id} || id.ts in Stamps(parse, base))
      case LabelReuse(_) => id.v.Some? && (id.v.value in Labels(parse, base) || HasSibling(id))
      case MissingUp(_) => id.v.Some? && FileOf(id, Up).None?
      case EmptyUp(_) => id.v.Some? && FileOf(id, Up).Some? && !HasInk(Stripped(content(FileOf(id, Up).value), 0))
      case UnqualifiedTable(_) => id.v.Some? && FileOf(id, Up).Some? && unqualified(content(FileOf(id, Up).value))
    }

    /** Another new migration carries the label at a different time. */
    ghost predicate HasSibling(id: Ident) {
      exists other :: IsNewIdent(other) && other.v == id.v && other.ts != id.ts
    }
  }

  function LastFile(parse: Parser, files: seq<string>, p: Parsed): (r: Option<string>)
    ensures r.Some? ==> r.value in files && parse(r.value) == Some(p)
    ensures r.None? ==> forall f :: f in files ==> parse(f) != Some(p)
  {
    if files == [] then None
    else
      var last := |files| - 1;
      if parse(files[last]) == Some(p) then Some(files[last]) else LastFile(parse, files[..last], p)
  }

  // ----- the tables the gate fills first -----

  /** Timestamp to the identities that carry it. */
  method IndexStamps(c: Change) returns (byTs: map<nat, set<Ident>>)
    ensures forall ts :: ts in byTs ==> byTs[ts] == c.IdentsAt(ts)
    ensures forall f :: f in c.files && c.parse(f).Some? ==> c.parse(f).value.id.ts in byTs
  {
    byTs := map[];
    for i := 0 to |c.files|
      invariant forall ts :: ts in byTs ==> byTs[ts] == c.(files := c.files[..i]).IdentsAt(ts)
      invariant forall k :: 0 <= k < i && c.parse(c.files[k]).Some? ==> c.parse(c.files[k]).value.id.ts in byTs
    {
      ghost var before, after := c.(files := c.files[..i]), c.(files := c.files[..i + 1]);
      var p := c.parse(c.files[i]);
      assert c.files[..i + 1] == c.files[..i] + [c.files[i]];
      if p.Some? {
        var id := p.value.id;
        byTs := byTs[id.ts := (if id.ts in byTs then byTs[id.ts] else {}) + {id}];
        assert before.IdentsAt(id.ts) + {id} == after.IdentsAt(id.ts);
        assert forall ts :: ts != id.ts ==> before.IdentsAt(ts) == after.IdentsAt(ts);
      } else {
        assert forall ts :: before.IdentsAt(ts) == after.IdentsAt(ts);
      }
    }
    assert c.files[..|c.files|] == c.files;
  }

  ghost predicate SortedDistinct(ids: seq<Ident>) {
    && (forall i, j :: 0 <= i < j < |ids| ==> ids[i].ts <= ids[j].ts)
    && (forall i, j :: 0 <= i < j < |ids| ==> ids[i] != ids[j])
  }

  /** Insertion after every element with the same or a smaller timestamp. */
  function InsertByStamp(ids: seq<Ident>, id: Ident): (r: seq<Ident>)
    ensures forall x :: x in r <==> x in ids || x == id
  {
    if ids == [] then [id]
    else
      var last := |ids| - 1;
      assert ids == ids[..last] + [ids[last]];
      if ids[last].ts <= id.ts then ids + [id]
      else InsertByStamp(ids[..last], id) + [ids[last]]
  }

  lemma SortedSnoc(ids: seq<Ident>, id: Ident)
    requires SortedDistinct(ids)
    requires forall x :: x in ids ==> x.ts <= id.ts && x != id
    ensures SortedDistinct(ids + [id])
  {
    assert forall k :: 0 <= k < |ids| ==> ids[k] in ids;
  }

  lemma SortedFront(ids: seq<Ident>)
    requires SortedDistinct(ids) && ids != []
    ensures SortedDistinct(ids[..|ids| - 1])
    ensures forall x :: x in ids[..|ids| - 1] ==> x.ts <= ids[|ids| - 1].ts && x != ids[|ids| - 1] && x in ids
  {
  }

  lemma {:induction false} InsertKeepsOrder(ids: seq<Ident>, id: Ident)
    requires SortedDistinct(ids) && id !in ids
    ensures SortedDistinct(InsertByStamp(ids, id))
  {
    if ids == [] {
      SortedSnoc(ids, id);
    } else {
      var front, final := ids[..|ids| - 1], ids[|ids| - 1];
      SortedFront(ids);
      if final.ts <= id.ts {
        assert forall x :: x in ids ==> x in front || x == final;
        SortedSnoc(ids, id);
      } else {
        InsertKeepsOrder(front, id);
        SortedSnoc(InsertByStamp(front, id), final);
      }
    }
  }

  /** The new identities, each once, by timestamp. */
  method CollectNew(c: Change) returns (ids: seq<Ident>)
    ensures SortedDistinct(ids)
    ensures forall id :: id in ids <==> c.IsNewIdent(id)
  {
    ids := [];
    for i := 0 to |c.files|
      invariant SortedDistinct(ids)
      invariant forall id :: id in ids ==> c.IsNewIdent(id)
      invariant forall k :: 0 <= k < i && c.IsNew(c.files[k]) && c.parse(c.files[k]).Some?
                            ==> c.parse(c.files[k]).value.id in ids
    {
      var p := c.parse(c.files[i]);
      if c.IsNew(c.files[i]) && p.Some? && p.value.id !in ids {
        InsertKeepsOrder(ids, p.value.id);
        ids := InsertByStamp(ids, p.value.id);
      }
    }
  }

  lemma SingletonSize<T>(s: set<T>, x: T)
    requires x in s
    ensures |s| > 1 <==> s != {x}
  {
    if s != {x} {
      var y :| y in s && y != x;
      assert |s - {x}| >= |{y}| by { assert y in s - {x}; }
    }
  }

  // ----- the gate -----

  /** One labelled new identity, with `seen` the labels of the siblings before it. */
  method CheckIdent(c: Change, byTs: map<nat, set<Ident>>, baseTs: set<nat>, baseV: set<nat>,
                    seen: map<nat, nat>, id: Ident)
    returns (errors: seq<Error>)
    requires id.v.Some? && c.IsNewIdent(id)
    requires id.ts in byTs && byTs[id.ts] == c.IdentsAt(id.ts)
    requires baseTs == Stamps(c.parse, c.base) && baseV == Labels(c.parse, c.base)
    ensures IsCheckOf(c, seen, id, errors)
  {
    SingletonSize(byTs[id.ts], id);
    var duplicate := |byTs[id.ts]| > 1 || id.ts in baseTs;
    var reused := id.v.value in baseV || (id.v.value in seen && seen[id.v.value] != id.ts);
    var up := c.FileOf(id, Up);
    var empty, unqualified := false, false;
    if up.Some? {
      var filled := HasExecutableSql(c.content(up.value));
      empty, unqualified := !filled, c.unqualified(c.content(up.value));
    }
    FoundIsCheck(c, seen, id, duplicate, reused, empty, unqualified);
    errors := Found(id, duplicate, reused, up.None?, empty, unqualified);
  }

  lemma FoundIsCheck(c: Change, seen: map<nat, nat>, id: Ident,
                     duplicate: bool, reused: bool, empty: bool, unqualified: bool)
    requires id.v.Some?
    requires duplicate <==> c.IdentsAt(id.ts) != {id} || id.ts in Stamps(c.parse, c.base)
    requires reused <==> id.v.value in Labels(c.parse, c.base) || (id.v.value in seen && seen[id.v.value] != id.ts)
    requires var up := c.FileOf(id, Up);
             && (empty <==> up.Some? && !HasInk(Stripped(c.content(up.value), 0)))
             && (unqualified <==> up.Some? && c.unqualified(c.content(up.value)))
    ensures IsCheckOf(c, seen, id, Found(id, duplicate, reused, c.FileOf(id, Up).None?, empty, unqualified))
  {
    var found := Found(id, duplicate, reused, c.FileOf(id, Up).None?, empty, unqualified);
    forall e: Error | !e.Malformed? && !e.LabelReuse? && e.id == id
      ensures e in found <==> c.IsTrueOf(e, id)
    {
    }
  }

  function Found(id: Ident, duplicate: bool, reused: bool, missing: bool, empty: bool, unqualified: bool)
    : (s: seq<Error>)
    ensures forall e :: e in s <==>
                          || (duplicate && e == DuplicateTimestamp(id))
                          || (reused && e == LabelReuse(id))
                          || (missing && e == MissingUp(id))
                          || (empty && e == EmptyUp(id))
                          || (unqualified && e == UnqualifiedTable(id))
    ensures s == [] <==> !duplicate && !reused && !missing && !empty && !unqualified
  {
    When(duplicate, DuplicateTimestamp(id)) + When(reused, LabelReuse(id)) + When(missing, MissingUp(id))
    + When(empty, EmptyUp(id)) + When(unqualified, UnqualifiedTable(id))
  }

  function When(b: bool, e: Error): (s: seq<Error>)
    ensures forall x :: x in s <==> b && x == e
    ensures s == [] <==> !b
  {
    if b then [e] else []
  }

  /** The labels seen so far point at an identity that carries them. */
  ghost predicate SeenIsBacked(ids: seq<Ident>, seen: map<nat, nat>) {
    forall v :: v in seen ==> exists k :: 0 <= k < |ids| && ids[k].v == Some(v) && ids[k].ts == seen[v]
  }

  ghost predicate SiblingsOk(ids: seq<Ident>) {
    forall j, k :: 0 <= j < |ids| && 0 <= k < |ids| && ids[j].v == ids[k].v ==> ids[j].ts == ids[k].ts
  }

  /** Each identity is right by itself and the labels of all of them are distinct. */
  ghost predicate AllOk(c: Change, ids: seq<Ident>) {
    (forall k :: 0 <= k < |ids| ==> c.IdentOk(ids[k])) && SiblingsOk(ids)
  }

  /** Every error is true of the identity it names ... */
  ghost predicate AllTrue(c: Change, ids: seq<Ident>, errors: seq<Error>) {
    forall e: Error :: e in errors ==> !e.Malformed? && e.id in ids && c.IsTrueOf(e, e.id)
  }

  /** ... and what is true is told.  Of several new migrations that share a label, the
      first one seen is not named. */
  ghost predicate AllTold(c: Change, ids: seq<Ident>, errors: seq<Error>) {
    forall e: Error :: !e.Malformed? && !e.LabelReuse? && e.id in ids && c.IsTrueOf(e, e.id) ==> e in errors
  }

  lemma Tell(c: Change, ids: seq<Ident>, errors: seq<Error>, found: seq<Error>, id: Ident)
    requires AllTold(c, ids, errors)
    requires forall e: Error :: !e.Malformed? && !e.LabelReuse? && e.id == id && c.IsTrueOf(e, id) ==> e in found
    ensures AllTold(c, ids + [id], errors + found)
  {
  }

  lemma TellUnlabelled(c: Change, ids: seq<Ident>, errors: seq<Error>, id: Ident)
    requires AllTold(c, ids, errors) && id.v.None?
    ensures AllTold(c, ids + [id], errors + [MissingLabel(id)])
  {
    Tell(c, ids, errors, [MissingLabel(id)], id);
  }

  lemma ClashIsSibling(c: Change, ids: seq<Ident>, seen: map<nat, nat>, id: Ident)
    requires SeenIsBacked(ids, seen) && id.v.Some?
    requires forall k :: 0 <= k < |ids| ==> c.IsNewIdent(ids[k])
    ensures id.v.value in seen && seen[id.v.value] != id.ts ==> c.HasSibling(id)
  {
    if id.v.value in seen && seen[id.v.value] != id.ts {
      var k :| 0 <= k < |ids| && ids[k].v == Some(id.v.value) && ids[k].ts == seen[id.v.value];
      assert c.IsNewIdent(ids[k]);
    }
  }

  /** The new identities in timestamp order. */
  method CheckIdents(c: Change, ids: seq<Ident>) returns (errors: seq<Error>)
    requires forall k :: 0 <= k < |ids| ==> c.IsNewIdent(ids[k])
    ensures errors == [] <==> AllOk(c, ids)
    ensures AllTrue(c, ids, errors) && AllTold(c, ids, errors)
  {
    var byTs := IndexStamps(c);
    var baseTs, baseV := Stamps(c.parse, c.base), Labels(c.parse, c.base);
    errors := [];
    var seen: map<nat, nat> := map[];
    for i := 0 to |ids|
      invariant Progress(c, ids, i, errors, seen)
    {
      var id := ids[i];
      if id.v.None? {
        AdvanceUnlabelled(c, ids, i, errors, seen);
        errors := errors + [MissingLabel(id)];
        continue;
      }
      var found := CheckIdent(c, byTs, baseTs, baseV, seen, id);
      AdvanceLabelled(c, ids, i, errors, seen, found);
      errors := errors + found;
      seen := seen[id.v.value := id.ts];
    }
    assert ids[..|ids|] == ids;
  }

  /** What the loop knows after `n` identities. */
  ghost predicate Progress(c: Change, ids: seq<Ident>, n: nat, errors: seq<Error>, seen: map<nat, nat>) {
    && n <= |ids|
    && (forall k :: 0 <= k < |ids| ==> c.IsNewIdent(ids[k]))
    && AllTrue(c, ids, errors)
    && AllTold(c, ids[..n], errors)
    && SeenIsBacked(ids[..n], seen)
    && (errors == [] <==> AllOk(c, ids[..n]))
    && (errors == [] ==> SeenIsComplete(ids[..n], seen))
  }

  lemma AdvanceUnlabelled(c: Change, ids: seq<Ident>, n: nat, errors: seq<Error>, seen: map<nat, nat>)
    requires Progress(c, ids, n, errors, seen) && n < |ids| && ids[n].v.None?
    ensures Progress(c, ids, n + 1, errors + [MissingLabel(ids[n])], seen)
  {
    assert ids[..n + 1] == ids[..n] + [ids[n]];
    assert ids[n] in ids;
    Advance(c, ids[..n], seen, ids[n]);
    TellUnlabelled(c, ids[..n], errors, ids[n]);
  }

  /** `found` is what the checks of one labelled identity report. */
  ghost predicate IsCheckOf(c: Change, seen: map<nat, nat>, id: Ident, found: seq<Error>)
    requires id.v.Some?
  {
    var clash := id.v.value in seen && seen[id.v.value] != id.ts;
    && (found == [] <==> c.IdentOk(id) && !clash)
    && (forall e: Error :: e in found ==> !e.Malformed? && e.id == id)
    && (forall e: Error :: !e.Malformed? && !e.LabelReuse? && e.id == id ==> (e in found <==> c.IsTrueOf(e, id)))
    && (LabelReuse(id) in found <==> id.v.value in Labels(c.parse, c.base) || clash)
  }

  lemma AdvanceLabelled(c: Change, ids: seq<Ident>, n: nat, errors: seq<Error>, seen: map<nat, nat>, found: seq<Error>)
    requires Progress(c, ids, n, errors, seen) && n < |ids| && ids[n].v.Some?
    requires IsCheckOf(c, seen, ids[n], found)
    ensures Progress(c, ids, n + 1, errors + found, seen[ids[n].v.value := ids[n].ts])
  {
    var id := ids[n];
    assert ids[..n + 1] == ids[..n] + [id];
    assert id in ids;
    Advance(c, ids[..n], seen, id);
    assert forall e: Error :: e in found ==> c.IsTrueOf(e, id) by { ClashIsSibling(c, ids[..n], seen, id); }
    Tell(c, ids[..n], errors, found, id);
  }

  /** One pass over the change.  It compares a label only with the last timestamp that
      used it, yet its verdict is exactly `Clean`. */
  method Validate(c: Change) returns (errors: seq<Error>)
    ensures errors == [] <==> c.Clean()
    ensures forall e :: e in errors ==> c.IsTrue(e)
    ensures forall e: Error :: c.IsTrue(e) && !e.LabelReuse? ==> e in errors
  {
    errors := [];
    for i := 0 to |c.files|
      invariant errors == [] <==> forall k :: 0 <= k < i && c.IsNew(c.files[k]) ==> c.parse(c.files[k]).Some?
      invariant forall e: Error :: e in errors ==> e.Malformed? && c.IsTrue(e)
      invariant forall k :: 0 <= k < i && c.IsNew(c.files[k]) && c.parse(c.files[k]).None? ==>
                              Malformed(c.files[k]) in errors
    {
      if c.IsNew(c.files[i]) && c.parse(c.files[i]).None? {
        errors := errors + [Malformed(c.files[i])];
      }
    }
    var ids := CollectNew(c);
    var found := CheckIdents(c, ids);
    SiblingsOfAll(c, ids);
    errors := errors + found;
  }

  lemma SiblingsOfAll(c: Change, ids: seq<Ident>)
    requires forall id :: id in ids <==> c.IsNewIdent(id)
    ensures AllOk(c, ids)
       <==> && (forall id :: c.IsNewIdent(id) ==> c.IdentOk(id))
            && (forall id, id' :: c.IsNewIdent(id) && c.IsNewIdent(id') && id.v == id'.v ==> id.ts == id'.ts)
  {
    assert forall k :: 0 <= k < |ids| ==> c.IsNewIdent(ids[k]);
    forall id | c.IsNewIdent(id)
      ensures exists k :: 0 <= k < |ids| && ids[k] == id
    {
      assert id in ids;
    }
  }

  lemma SiblingsExtend(ids: seq<Ident>, id: Ident)
    ensures SiblingsOk(ids + [id])
       <==> SiblingsOk(ids) && forall k :: 0 <= k < |ids| && ids[k].v == id.v ==> ids[k].ts == id.ts
  {
    var all := ids + [id];
    assert all[|ids|] == id;
    assert forall k :: 0 <= k < |ids| ==> all[k] == ids[k];
  }

  /** Every label used so far is recorded with its timestamp. */
  ghost predicate SeenIsComplete(ids: seq<Ident>, seen: map<nat, nat>) {
    forall k :: 0 <= k < |ids| ==> ids[k].v.Some? && ids[k].v.value in seen && seen[ids[k].v.value] == ids[k].ts
  }

  lemma SeenExtends(ids: seq<Ident>, seen: map<nat, nat>, id: Ident)
    requires SeenIsBacked(ids, seen)
    ensures SeenIsBacked(ids + [id], seen)
    ensures id.v.Some? ==> SeenIsBacked(ids + [id], seen[id.v.value := id.ts])
  {
    var all := ids + [id];
    assert all[|ids|] == id;
    forall v | v in seen
      ensures exists k :: 0 <= k < |all| && all[k].v == Some(v) && all[k].ts == seen[v]
    {
      var k :| 0 <= k < |ids| && ids[k].v == Some(v) && ids[k].ts == seen[v];
      assert all[k] == ids[k];
    }
  }

  /** As long as nothing was wrong, looking at the last use of a label is looking at all. */
  lemma SeenDecides(ids: seq<Ident>, seen: map<nat, nat>, id: Ident)
    requires SeenIsBacked(ids, seen) && id.v.Some?
    ensures id.v.value in seen && seen[id.v.value] != id.ts ==> !SiblingsOk(ids + [id])
    ensures SeenIsComplete(ids, seen) && SiblingsOk(ids) && !(id.v.value in seen && seen[id.v.value] != id.ts)
            ==> SiblingsOk(ids + [id]) && SeenIsComplete(ids + [id], seen[id.v.value := id.ts])
  {
    SiblingsExtend(ids, id);
  }

  /** What one turn of the loop establishes. */
  lemma Advance(c: Change, ids: seq<Ident>, seen: map<nat, nat>, id: Ident)
    requires SeenIsBacked(ids, seen)
    requires AllOk(c, ids) ==> SeenIsComplete(ids, seen)
    ensures SeenIsBacked(ids + [id], seen)
    ensures id.v.None? ==> !AllOk(c, ids + [id])
    ensures id.v.Some? ==>
              var seen' := seen[id.v.value := id.ts];
              && SeenIsBacked(ids + [id], seen')
              && (AllOk(c, ids + [id])
                  <==> AllOk(c, ids) && c.IdentOk(id) && !(id.v.value in seen && seen[id.v.value] != id.ts))
              && (AllOk(c, ids + [id]) ==> SeenIsComplete(ids + [id], seen'))
  {
    var all := ids + [id];
    assert all[|ids|] == id;
    assert forall k :: 0 <= k < |ids| ==> all[k] == ids[k];
    SeenExtends(ids, seen, id);
    SiblingsExtend(ids, id);
    if id.v.Some? {
      SeenDecides(ids, seen, id);
    }
  }

  // ----- the ratchet -----

  /** The gate passes: a reference could be read and the change is clean. */
  ghost predicate Accepted(c: Change) {
    Stamps(c.parse, c.base) != {} && c.Clean()
  }

  /** The exit status of a run with at least one reference named. */
  method Gate(c: Change) returns (pass: bool)
    ensures pass <==> Accepted(c)
  {
    if Stamps(c.parse, c.base) == {} {
      return false;
    }
    var errors := Validate(c);
    pass := errors == [];
  }

  ghost predicate Clash(a: Ident, b: Ident) {
    a.ts == b.ts || (a.v.Some? && a.v == b.v)
  }

  /** Apart from what has been there from the start, every file of the tree is well named and
      labelled and shares neither timestamp nor label with a file of another migration. */
  ghost predicate Ratcheted(parse: Parser, tree: set<string>, legacy: set<string>) {
    && (forall f :: f in tree && f !in legacy ==> parse(f).Some? && parse(f).value.id.v.Some?)
    && (forall f, g :: f in tree && g in tree && (f !in legacy || g !in legacy)
                       && parse(f).Some? && parse(g).Some? && parse(f).value.id != parse(g).value.id
                       ==> !Clash(parse(f).value.id, parse(g).value.id))
  }

  /** An accepted change and the file names on the reference branches once it is merged. */
  datatype Merge = Merge(change: Change, refs: set<string>)

  /** The file names on the reference branches after a run of merges. */
  ghost function RefsAfter(start: set<string>, run: seq<Merge>): set<string> {
    if run == [] then start else run[|run| - 1].refs
  }

  /** Every change is checked against the references as they are and passes, and merging
      it brings nothing onto them but its own files.  Files may be deleted, and the
      references may be several branches that receive changes independently. */
  ghost predicate AcceptedRun(parse: Parser, start: set<string>, run: seq<Merge>) {
    forall i :: 0 <= i < |run| ==>
                  && run[i].change.parse == parse
                  && run[i].change.base == RefsAfter(start, run[..i])
                  && Accepted(run[i].change)
                  && run[i].refs <= RefsAfter(start, run[..i]) + run[i].change.Tree()
  }

  /** The files on the references at the start and ever since. */
  ghost function Legacy(start: set<string>, run: seq<Merge>): set<string> {
    if run == [] then start else Legacy(start, run[..|run| - 1]) * run[|run| - 1].refs
  }

  /** Of two different identities at least one of which is new, a clean change lets no
      two clash, be the other one new as well or already on a reference. */
  lemma CleanSeparates(c: Change, f: string, g: string)
    requires c.Clean() && f in c.files && c.IsNew(f) && (g in c.files || g in c.base)
    requires c.parse(f).Some? && c.parse(g).Some? && c.parse(f).value.id != c.parse(g).value.id
    ensures !Clash(c.parse(f).value.id, c.parse(g).value.id)
  {
    var a, b := c.parse(f).value.id, c.parse(g).value.id;
    assert c.IsNewIdent(a) && c.IdentOk(a);
    if g !in c.base {
      assert c.IsNewIdent(b);
      assert a in c.IdentsAt(a.ts);
      assert b in c.IdentsAt(b.ts);
    }
  }

  lemma StepRatchets(legacy: set<string>, c: Change, refs: set<string>)
    requires Ratcheted(c.parse, c.base, legacy)
    requires Accepted(c) && refs <= c.base + c.Tree()
    ensures Ratcheted(c.parse, refs, legacy * refs)
  {
    forall f | f in refs && f !in legacy * refs
      ensures c.parse(f).Some? && c.parse(f).value.id.v.Some?
    {
      if c.IsNew(f) {
        assert f in c.files;
        assert c.IsNewIdent(c.parse(f).value.id);
      }
    }
    forall f, g | f in refs && g in refs && (f !in legacy * refs || g !in legacy * refs)
                  && c.parse(f).Some? && c.parse(g).Some? && c.parse(f).value.id != c.parse(g).value.id
      ensures !Clash(c.parse(f).value.id, c.parse(g).value.id)
    {
      if c.IsNew(f) {
        CleanSeparates(c, f, g);
      } else if c.IsNew(g) {
        CleanSeparates(c, g, f);
      }
    }
  }

  /** After any run of accepted changes, whatever was added since the start is labelled
      and fresh in both timestamp and label, against each other and against the legacy. */
  lemma {:induction false} RunRatchets(parse: Parser, start: set<string>, run: seq<Merge>)
    requires AcceptedRun(parse, start, run)
    ensures Ratcheted(parse, RefsAfter(start, run), Legacy(start, run))
  {
    if run != [] {
      var last := |run| - 1;
      assert forall i :: 0 <= i < last ==> run[..last][..i] == run[..i];
      RunRatchets(parse, start, run[..last]);
      StepRatchets(Legacy(start, run[..last]), run[last].change, run[last].refs);
    }
  }

  // ----- from migrations to files -----

  /** The tree after any run of accepted changes, file by file: of two files of one direction,
      one of them added since the start, exactly those clash that are read alike. */
  lemma FilesClashIff(parse: Parser, start: set<string>, run: seq<Merge>, f: string, g: string)
    requires AcceptedRun(parse, start, run)
    requires f in RefsAfter(start, run) && g in RefsAfter(start, run)
    requires f !in Legacy(start, run) || g !in Legacy(start, run)
    requires parse(f).Some? && parse(g).Some? && parse(f).value.dir == parse(g).value.dir
    ensures Clash(parse(f).value.id, parse(g).value.id) <==> parse(f) == parse(g)
  {
    RunRatchets(parse, start, run);
  }

  /** No two listed files are read alike. */
  ghost predicate ParsesApart(c: Change) {
    forall f, g :: f in c.files && g in c.files && c.parse(f).Some? && c.parse(f) == c.parse(g) ==> f == g
  }

  ghost predicate FileIsFilled(c: Change, f: string) {
    HasInk(Stripped(c.content(f), 0)) && !c.unqualified(c.content(f))
  }

  /** Every up file of a new migration is filled, not just the one that is listed last. */
  ghost predicate UpFilesFilled(c: Change) {
    forall g :: g in c.files && c.parse(g).Some? && c.parse(g).value.dir.Up? && c.IsNewIdent(c.parse(g).value.id)
                ==> FileIsFilled(c, g)
  }

  /** What a change has to be, said of its files: each new file is well named and labelled, its
      migration has an up file, every up file of a new migration holds SQL and names the schema
      of its tables, and no new file clashes with a file of another migration or with any file
      on a reference. */
  ghost predicate FilesClean(c: Change) {
    && (forall f :: f in c.files && c.IsNew(f) ==> c.parse(f).Some? && c.parse(f).value.id.v.Some?)
    && (forall id :: c.IsNewIdent(id) ==> exists g :: g in c.files && c.parse(g) == Some(Parsed(id, Up)))
    && UpFilesFilled(c)
    && (forall f, g :: f in c.files && c.IsNew(f) && (g in c.files || g in c.base) && c.parse(f).Some?
                       && c.parse(g).Some? && Clash(c.parse(f).value.id, c.parse(g).value.id)
                       ==> g in c.files && g !in c.base && c.parse(g).value.id == c.parse(f).value.id)
  }

  lemma LastIsOnly(c: Change, f: string)
    requires ParsesApart(c) && f in c.files && c.parse(f).Some?
    ensures c.FileOf(c.parse(f).value.id, c.parse(f).value.dir) == Some(f)
  {
  }

  lemma ApartIsFilled(c: Change)
    requires c.Clean() && ParsesApart(c)
    ensures UpFilesFilled(c)
  {
    forall g | g in c.files && c.parse(g).Some? && c.parse(g).value.dir.Up? && c.IsNewIdent(c.parse(g).value.id)
      ensures FileIsFilled(c, g)
    {
      LastIsOnly(c, g);
      assert c.IdentOk(c.parse(g).value.id);
    }
  }

  lemma CleanFiles(c: Change)
    requires c.Clean() && UpFilesFilled(c)
    ensures FilesClean(c)
  {
    forall f | f in c.files && c.IsNew(f)
      ensures c.parse(f).Some? && c.parse(f).value.id.v.Some?
    {
      assert c.IsNewIdent(c.parse(f).value.id);
    }
    forall id | c.IsNewIdent(id)
      ensures exists g :: g in c.files && c.parse(g) == Some(Parsed(id, Up))
    {
      assert c.IdentOk(id);
    }
    forall f, g | f in c.files && c.IsNew(f) && (g in c.files || g in c.base) && c.parse(f).Some?
                  && c.parse(g).Some? && Clash(c.parse(f).value.id, c.parse(g).value.id)
      ensures g in c.files && g !in c.base && c.parse(g).value.id == c.parse(f).value.id
    {
      if c.parse(g).value.id != c.parse(f).value.id {
        CleanSeparates(c, f, g);
      }
      assert c.IsNewIdent(c.parse(f).value.id) && c.IdentOk(c.parse(f).value.id);
    }
  }

  lemma FilesIdentOk(c: Change, f: string)
    requires FilesClean(c) && f in c.files && c.IsNew(f) && c.parse(f).Some?
    ensures c.IdentOk(c.parse(f).value.id)
  {
    var id := c.parse(f).value.id;
    assert c.IsNewIdent(id);
    assert c.UpIsFilled(id) by {
      var up := c.FileOf(id, Up);
      assert up.Some? ==> c.parse(up.value) == Some(Parsed(id, Up)) && FileIsFilled(c, up.value);
    }
    assert id in c.IdentsAt(id.ts);
    forall other | other in c.IdentsAt(id.ts)
      ensures other == id
    {
      var g :| g in c.files && c.parse(g).Some? && c.parse(g).value.id == other;
      assert Clash(id, other);
    }
    assert id.ts !in Stamps(c.parse, c.base) by {
      if g :| g in c.base && c.parse(g).Some? && c.parse(g).value.id.ts == id.ts {
        assert Clash(id, c.parse(g).value.id);
      }
    }
    assert id.v.value !in Labels(c.parse, c.base) by {
      if g :| g in c.base && c.parse(g).Some? && c.parse(g).value.id.v == id.v {
        assert Clash(id, c.parse(g).value.id);
      }
    }
  }

  /** The condition on files is the one the gate decides and that every up file is filled, which
      the gate cannot miss as long as no two files are read alike. */
  lemma CleanIffFilesClean(c: Change)
    ensures FilesClean(c) <==> c.Clean() && UpFilesFilled(c)
    ensures ParsesApart(c) ==> (c.Clean() <==> FilesClean(c))
  {
    if FilesClean(c) {
      forall id | c.IsNewIdent(id)
        ensures c.IdentOk(id)
      {
        var f :| f in c.files && c.IsNew(f) && c.parse(f).Some? && c.parse(f).value.id == id;
        FilesIdentOk(c, f);
      }
      forall id, id' | c.IsNewIdent(id) && c.IsNewIdent(id') && id.v == id'.v
        ensures id.ts == id'.ts
      {
        var f :| f in c.files && c.IsNew(f) && c.parse(f).Some? && c.parse(f).value.id == id;
        var g :| g in c.files && c.IsNew(g) && c.parse(g).Some? && c.parse(g).value.id == id';
        assert Clash(id, id');
      }
    }
    if c.Clean() && ParsesApart(c) {
      ApartIsFilled(c);
    }
    if c.Clean() && UpFilesFilled(c) {
      CleanFiles(c);
    }
  }

  // ----- files that are read alike -----

  function Rewritten(c: Change, f: string, text: string): Change {
    c.(content := g => if g == f then text else c.content(g))
  }

  lemma RewrittenIdents(c: Change, f: string, text: string, id: Ident)
    ensures var d := Rewritten(c, f, text);
            && (d.IsNewIdent(id) <==> c.IsNewIdent(id))
            && d.IdentsAt(id.ts) == c.IdentsAt(id.ts)
            && d.FileOf(id, Up) == c.FileOf(id, Up)
            && (c.FileOf(id, Up) != Some(f) ==> (d.IdentOk(id) <==> c.IdentOk(id)))
  {
    var d := Rewritten(c, f, text);
    assert d.files == c.files && d.parse == c.parse && d.base == c.base;
  }

  /** The gate reads an up file of an accepted change if and only if no file listed later is read
      alike: otherwise it accepts the change whatever the file holds. */
  lemma UnreadIff(c: Change, f: string)
    requires Accepted(c) && f in c.files && c.IsNew(f) && c.parse(f).Some? && c.parse(f).value.dir.Up?
    ensures (forall text :: Accepted(Rewritten(c, f, text))) <==> c.FileOf(c.parse(f).value.id, Up) != Some(f)
  {
    var own := c.parse(f).value.id;
    assert c.IsNewIdent(own);
    if c.FileOf(own, Up) == Some(f) {
      var d := Rewritten(c, f, "");
      RewrittenIdents(c, f, "", own);
      assert Stripped("", 0) == "";
      assert !d.UpIsFilled(own);
      assert !Accepted(Rewritten(c, f, ""));
    } else {
      forall text
        ensures Accepted(Rewritten(c, f, text))
      {
        var d := Rewritten(c, f, text);
        forall id
          ensures d.IsNewIdent(id) <==> c.IsNewIdent(id)
          ensures d.IdentOk(id) <==> c.IdentOk(id)
        {
          RewrittenIdents(c, f, text, id);
        }
      }
    }
  }

  lemma {:induction false} LastFileOfBoth(parse: Parser, a: seq<string>, b: seq<string>, p: Parsed)
    ensures LastFile(parse, a + b, p)
         == if LastFile(parse, b, p).Some? then LastFile(parse, b, p) else LastFile(parse, a, p)
  {
    if b == [] {
      assert a + b == a;
    } else {
      var last := |b| - 1;
      assert (a + b)[..|a + b| - 1] == a + b[..last];
      LastFileOfBoth(parse, a, b[..last], p);
    }
  }

  lemma ShadowedFileOf(c: Change, a: seq<string>, b: seq<string>, f: string, g: string, p: Parsed)
    requires f in b && c.parse(g).Some? && c.parse(f) == c.parse(g)
    ensures LastFile(c.parse, a + [g] + b, p) == LastFile(c.parse, a + b, p)
  {
    LastFileOfBoth(c.parse, a + [g], b, p);
    LastFileOfBoth(c.parse, a, [g], p);
    LastFileOfBoth(c.parse, a, b, p);
    assert [g][..0] == [];
  }

  /** A file that is listed before a new one and read alike passes, whatever it holds. */
  lemma ShadowIsAccepted(c: Change, a: seq<string>, b: seq<string>, f: string, g: string)
    requires Accepted(c) && c.files == a + b && f in b && c.IsNew(f)
    requires g !in c.base && c.parse(g).Some? && c.parse(f) == c.parse(g)
    ensures Accepted(c.(files := a + [g] + b))
  {
    var d := c.(files := a + [g] + b);
    assert f in c.files;
    assert forall x :: x in d.files <==> x in c.files || x == g;
    forall id: Ident
      ensures d.IsNewIdent(id) <==> c.IsNewIdent(id)
      ensures d.IdentOk(id) <==> c.IdentOk(id)
    {
      ShadowedFileOf(c, a, b, f, g, Parsed(id, Up));
      assert d.IdentsAt(id.ts) == c.IdentsAt(id.ts);
    }
  }

  lemma OneFileIsAccepted(c: Change, f: string, known: string)
    requires c.files == [f] && c.base == {known} && c.parse(f).Some? && c.parse(known).Some?
    requires c.parse(f).value.dir.Up? && c.parse(f).value.id.v.Some? && FileIsFilled(c, f)
    requires !Clash(c.parse(f).value.id, c.parse(known).value.id)
    ensures Accepted(c)
  {
    var id := c.parse(f).value.id;
    assert f in c.files && c.IsNew(f);
    assert c.parse(known).value.id.ts in Stamps(c.parse, c.base);
    assert c.IdentsAt(id.ts) == {id};
    assert c.FileOf(id, Up) == Some(f);
  }

  lemma ShadowUnfilled(c: Change, f: string, g: string, known: string)
    requires c.files == [g, f] && c.base == {known} && g != known
    requires c.parse(f).Some? && c.parse(f).value.dir.Up? && c.parse(f).value.id.v.Some? && c.parse(g) == c.parse(f)
    requires c.parse(known).Some? && !Clash(c.parse(f).value.id, c.parse(known).value.id)
    requires FileIsFilled(c, f) && c.content(g) == ""
    ensures Accepted(c) && !UpFilesFilled(c)
  {
    var one := c.(files := [f]);
    OneFileIsAccepted(one, f, known);
    assert one.files == [] + [f] && [g, f] == [] + [g] + [f];
    ShadowIsAccepted(one, [], [f], f, g);
    assert one.(files := [g, f]) == c;
    assert g in c.files && c.IsNew(g) && c.IsNewIdent(c.parse(g).value.id);
    assert Stripped("", 0) == "" && !FileIsFilled(c, g);
  }
}
