/** The secret scrubber of app-e2e-tests/scripts/generate-e2e-report.js. */
module Scrub {

  const BULLET: char := '\U{2022}'
  const MASK: string := [BULLET, BULLET, BULLET]

  predicate OccursAt(s: string, text: string, i: int) {
    0 <= i && i + |s| <= |text| && text[i..i + |s|] == s
  }

  predicate Occurs(s: string, text: string) {
    exists i :: 0 <= i <= |text| && OccursAt(s, text, i)
  }

  /** The text between the occurrences of a separator, found from the left without overlap. */
  function Split(text: string, sep: string): (pieces: seq<string>)
    requires sep != []
    ensures pieces != []
    decreases |text|
  {
    if |text| < |sep| then [text]
    else if text[..|sep|] == sep then [[]] + Split(text[|sep|..], sep)
    else
      var rest := Split(text[1..], sep);
      [[text[0]] + rest[0]] + rest[1..]
  }

  function Join(pieces: seq<string>, sep: string): string
    requires pieces != []
  {
    if |pieces| == 1 then pieces[0] else pieces[0] + sep + Join(pieces[1..], sep)
  }

  // ----- splitting -----

  lemma JoinCons(c: char, pieces: seq<string>, sep: string)
    requires pieces != []
    ensures Join([[c] + pieces[0]] + pieces[1..], sep) == [c] + Join(pieces, sep)
  {
    var all := [[c] + pieces[0]] + pieces[1..];
    assert all[1..] == pieces[1..];
    if |pieces| > 1 {
      var tail := sep + Join(pieces[1..], sep);
      assert Join(all, sep) == [c] + pieces[0] + tail;
      assert Join(pieces, sep) == pieces[0] + tail;
    }
  }

  /** Nothing is lost between the pieces but the separators. */
  lemma {:induction false} SplitJoin(text: string, sep: string)
    requires sep != []
    ensures Join(Split(text, sep), sep) == text
    decreases |text|
  {
    if |text| < |sep| {
    } else if text[..|sep|] == sep {
      var rest := Split(text[|sep|..], sep);
      SplitJoin(text[|sep|..], sep);
      assert ([[]] + rest)[1..] == rest;
      assert [] + sep + Join(rest, sep) == text;
    } else {
      SplitJoin(text[1..], sep);
      JoinCons(text[0], Split(text[1..], sep), sep);
    }
  }

  lemma JoinStartsWithHead(pieces: seq<string>, sep: string)
    requires pieces != []
    ensures pieces[0] <= Join(pieces, sep)
  {
  }

  lemma OccursTail(s: string, c: char, text: string)
    requires s != []
    ensures Occurs(s, [c] + text) <==> OccursAt(s, [c] + text, 0) || Occurs(s, text)
  {
    var all := [c] + text;
    assert all[1..] == text;
    if i :| 0 <= i <= |text| && OccursAt(s, text, i) {
      assert all[i + 1..i + 1 + |s|] == all[1..][i..i + |s|];
      assert OccursAt(s, all, i + 1);
    }
    if i :| 0 < i <= |all| && OccursAt(s, all, i) {
      assert all[i..i + |s|] == all[1..][i - 1..i - 1 + |s|];
      assert OccursAt(s, text, i - 1);
    }
  }

  /** No piece holds the separator. */
  lemma {:induction false} PiecesFree(text: string, sep: string)
    requires sep != []
    ensures forall k :: 0 <= k < |Split(text, sep)| ==> !Occurs(sep, Split(text, sep)[k])
    decreases |text|
  {
    if |text| < |sep| {
    } else if text[..|sep|] == sep {
      PiecesFree(text[|sep|..], sep);
      assert !Occurs(sep, []);
    } else {
      var rest := Split(text[1..], sep);
      PiecesFree(text[1..], sep);
      SplitJoin(text[1..], sep);
      JoinStartsWithHead(rest, sep);
      OccursTail(sep, text[0], rest[0]);
      var head := [text[0]] + rest[0];
      assert head <= text;
      assert |sep| <= |head| ==> head[..|sep|] == text[..|sep|];
    }
  }

  lemma OccursInSuffix(s: string, text: string, k: nat)
    requires k <= |text| && Occurs(s, text[k..])
    ensures Occurs(s, text)
  {
    var i :| 0 <= i <= |text[k..]| && OccursAt(s, text[k..], i);
    assert text[k..][i..i + |s|] == text[k + i..k + i + |s|];
    assert OccursAt(s, text, k + i);
  }

  lemma OccursInPrefix(s: string, head: string, text: string)
    requires head <= text && Occurs(s, head)
    ensures Occurs(s, text)
  {
    var i :| 0 <= i <= |head| && OccursAt(s, head, i);
    assert text[i..i + |s|] == head[i..i + |s|];
    assert OccursAt(s, text, i);
  }

  /** Every piece is part of the text: splitting brings nothing about. */
  lemma {:induction false} PiecesAreParts(text: string, sep: string, s: string)
    requires sep != [] && s != []
    ensures forall k :: 0 <= k < |Split(text, sep)| && Occurs(s, Split(text, sep)[k]) ==> Occurs(s, text)
    decreases |text|
  {
    if |text| < |sep| {
    } else if text[..|sep|] == sep {
      PiecesAreParts(text[|sep|..], sep, s);
      assert !Occurs(s, []);
      if Occurs(s, text[|sep|..]) {
        OccursInSuffix(s, text, |sep|);
      }
    } else {
      var rest := Split(text[1..], sep);
      PiecesAreParts(text[1..], sep, s);
      if Occurs(s, text[1..]) {
        OccursInSuffix(s, text, 1);
      }
      SplitJoin(text[1..], sep);
      JoinStartsWithHead(rest, sep);
      var head := [text[0]] + rest[0];
      assert head <= text;
      if Occurs(s, head) {
        OccursInPrefix(s, head, text);
      }
    }
  }

  /** A text without the separator is its own only piece. */
  lemma {:induction false} SplitNothing(text: string, sep: string)
    requires sep != [] && !Occurs(sep, text)
    ensures Split(text, sep) == [text]
    decreases |text|
  {
    if |text| >= |sep| {
      assert OccursAt(sep, text, 0) <==> text[..|sep|] == sep;
      OccursTail(sep, text[0], text[1..]);
      assert text == [text[0]] + text[1..];
      SplitNothing(text[1..], sep);
    }
  }

  // ----- masking -----

  /** The secrets that masking cannot re-create: they neither begin nor end like the mask and
      do not contain it. */
  ghost predicate Safe(s: string) {
    s != [] && s[0] != BULLET && s[|s| - 1] != BULLET && !Occurs(MASK, s)
  }

  lemma MeetsMask(s: string, text: string, i: int, m: nat)
    requires s != [] && OccursAt(s, text, i) && OccursAt(MASK, text, m) && i < m + 3 && m < i + |s|
    ensures !Safe(s)
  {
    assert forall k :: 0 <= k < |s| ==> s[k] == text[i + k];
    assert forall k {:trigger text[k]} :: m <= k < m + 3 ==> text[k] == text[m..m + 3][k - m] == BULLET;
    if i <= m && m + 3 <= i + |s| {
      assert s[m - i..m - i + 3] == MASK;
      assert OccursAt(MASK, s, m - i);
    } else if m < i {
      assert s[0] == text[i];
    } else {
      assert s[|s| - 1] == text[i + |s| - 1];
    }
  }

  /** A safe secret cannot reach across a mask. */
  lemma MaskSeparates(s: string, a: string, b: string, i: int)
    requires Safe(s) && OccursAt(s, a + MASK + b, i)
    ensures Occurs(s, a) || Occurs(s, b)
  {
    var all := a + MASK + b;
    assert all[|a|..|a| + 3] == MASK;
    assert i + |s| <= |a| || |a| + 3 <= i by {
      if i < |a| + 3 && |a| < i + |s| {
        MeetsMask(s, all, i, |a|);
      }
    }
    if i + |s| <= |a| {
      assert all[i..i + |s|] == a[i..i + |s|];
      assert OccursAt(s, a, i);
    } else {
      var j := i - |a| - 3;
      assert all[i..i + |s|] == b[j..j + |s|];
      assert OccursAt(s, b, j);
    }
  }

  lemma {:induction false} MaskedPieces(pieces: seq<string>, s: string)
    requires pieces != [] && Safe(s)
    requires forall k :: 0 <= k < |pieces| ==> !Occurs(s, pieces[k])
    ensures !Occurs(s, Join(pieces, MASK))
  {
    if |pieces| > 1 {
      var rest := Join(pieces[1..], MASK);
      MaskedPieces(pieces[1..], s);
      forall i | OccursAt(s, pieces[0] + MASK + rest, i)
        ensures Occurs(s, pieces[0]) || Occurs(s, rest)
      {
        MaskSeparates(s, pieces[0], rest, i);
      }
    }
  }

  function Masked(text: string, secret: string): string
    requires secret != []
  {
    Join(Split(text, secret), MASK)
  }

  /** Masking a secret removes it and brings back no other. */
  lemma MaskingRemoves(text: string, secret: string, other: string)
    requires Safe(secret) && Safe(other)
    ensures !Occurs(secret, Masked(text, secret))
    ensures !Occurs(other, text) ==> !Occurs(other, Masked(text, secret))
  {
    PiecesFree(text, secret);
    MaskedPieces(Split(text, secret), secret);
    if !Occurs(other, text) {
      PiecesAreParts(text, secret, other);
      MaskedPieces(Split(text, secret), other);
    }
  }

  // ----- which secrets survive being masked -----

  /** One occurrence and too little after it for another. */
  lemma {:induction false} SplitOnce(text: string, w: string, p: nat)
    requires w != [] && OccursAt(w, text, p) && |text| < p + 2 * |w|
    requires forall q :: 0 <= q < p ==> !OccursAt(w, text, q)
    ensures Split(text, w) == [text[..p], text[p + |w|..]]
  {
    if p == 0 {
      assert Split(text[|w|..], w) == [text[|w|..]];
    } else {
      assert !OccursAt(w, text, 0);
      var tail := text[1..];
      assert tail[p - 1..p - 1 + |w|] == text[p..p + |w|];
      forall q | 0 <= q < p - 1
        ensures !OccursAt(w, tail, q)
      {
        assert !OccursAt(w, text, q + 1);
        if q + |w| <= |tail| {
          assert tail[q..q + |w|] == text[q + 1..q + 1 + |w|];
        }
      }
      SplitOnce(tail, w, p - 1);
      assert [text[0]] + tail[..p - 1] == text[..p];
      assert tail[p - 1 + |w|..] == text[p + |w|..];
    }
  }

  lemma MaskedOnce(text: string, w: string, p: nat)
    requires w != [] && OccursAt(w, text, p) && |text| < p + 2 * |w|
    requires forall q :: 0 <= q < p ==> !OccursAt(w, text, q)
    ensures Masked(text, w) == text[..p] + MASK + text[p + |w|..]
  {
    SplitOnce(text, w, p);
    var a, b := text[..p], text[p + |w|..];
    assert [a, b][1..] == [b];
    assert Join([b], MASK) == b;
    assert Join([a, b], MASK) == a + MASK + Join([b], MASK);
  }

  lemma BeginsLikeMask(w: string)
    requires w != [] && w[0] == BULLET
    ensures Occurs(w, Masked(w + w[1..], w))
  {
    var text := w + w[1..];
    assert text[0..|w|] == w && text[|w|..] == w[1..] && text[..0] == [];
    MaskedOnce(text, w, 0);
    var out := MASK + w[1..];
    assert [] + MASK + w[1..] == out;
    assert out[2..2 + |w|] == w;
    assert OccursAt(w, out, 2);
  }

  lemma EndsLikeMask(w: string)
    requires w != [] && w[0] != BULLET && w[|w| - 1] == BULLET
    ensures Occurs(w, Masked(w[..|w| - 1] + w, w))
  {
    var n := |w| - 1;
    var text := w[..n] + w;
    assert text[n..n + |w|] == w && text[..n] == w[..n] && text[n + |w|..] == [];
    forall q | 0 <= q < n
      ensures !OccursAt(w, text, q)
    {
      assert text[q] == w[q] && text[q + n] == w[q];
      assert q + |w| <= |text| ==> text[q..q + |w|][0] == text[q] && text[q..q + |w|][n] == text[q + n];
    }
    MaskedOnce(text, w, n);
    var out := w[..n] + MASK;
    assert w[..n] + MASK + [] == out;
    assert out[0..|w|] == w;
    assert OccursAt(w, out, 0);
  }

  /** The text that masking turns into the secret itself; `i` is where its first mask is. */
  function Around(w: string, i: nat): string
    requires i + 3 <= |w|
  {
    w[..i] + w + w[i + 3..]
  }

  lemma EarlierMask(w: string, i: nat, q: nat)
    requires OccursAt(MASK, w, i) && q < i && OccursAt(w, Around(w, i), q)
    ensures OccursAt(MASK, w, q)
  {
    var text := Around(w, i);
    var part := text[q..q + |w|];
    assert part == w;
    assert w[q] == text[i + q] == part[i] == w[i];
    assert w[q + 1] == text[i + q + 1] == part[i + 1] == w[i + 1];
    assert w[q + 2] == text[i + q + 2] == part[i + 2] == w[i + 2];
    assert w[q..q + 3] == w[i..i + 3];
  }

  lemma ContainsMask(w: string, i: nat)
    requires OccursAt(MASK, w, i) && forall q :: 0 <= q < i ==> !OccursAt(MASK, w, q)
    ensures Masked(Around(w, i), w) == w
  {
    var text := Around(w, i);
    assert text[i..i + |w|] == w && text[..i] == w[..i] && text[i + |w|..] == w[i + 3..];
    forall q | 0 <= q < i
      ensures !OccursAt(w, text, q)
    {
      if OccursAt(w, text, q) {
        EarlierMask(w, i, q);
      }
    }
    MaskedOnce(text, w, i);
    assert w[..i] + MASK + w[i + 3..] == w;
  }

  lemma {:induction false} FirstMask(w: string, n: nat) returns (i: nat)
    requires n <= |w| && OccursAt(MASK, w, n)
    ensures i <= n && OccursAt(MASK, w, i) && forall q :: 0 <= q < i ==> !OccursAt(MASK, w, q)
  {
    if q :| 0 <= q < n && OccursAt(MASK, w, q) {
      i := FirstMask(w, q);
    } else {
      i := n;
    }
  }

  /** Masking a secret removes it from every text if and only if the secret is safe. */
  lemma RemovedIffSafe(w: string)
    requires w != []
    ensures (forall text :: !Occurs(w, Masked(text, w))) <==> Safe(w)
  {
    if Safe(w) {
      forall text
        ensures !Occurs(w, Masked(text, w))
      {
        MaskingRemoves(text, w, w);
      }
    } else if w[0] == BULLET {
      BeginsLikeMask(w);
    } else if w[|w| - 1] == BULLET {
      EndsLikeMask(w);
    } else {
      var n :| 0 <= n <= |w| && OccursAt(MASK, w, n);
      var i := FirstMask(w, n);
      ContainsMask(w, i);
      assert OccursAt(w, w, 0);
      assert Occurs(w, Masked(Around(w, i), w));
    }
  }

  // ----- one string, all secrets -----

  ghost predicate Maskable(secrets: seq<string>) {
    forall k :: 0 <= k < |secrets| ==> Safe(secrets[k])
  }

  ghost predicate FreeOf(text: string, secrets: seq<string>) {
    forall k :: 0 <= k < |secrets| ==> !Occurs(secrets[k], text)
  }

  /** Secret after secret, in the order of the list. */
  function Scrubbed(text: string, secrets: seq<string>): string
    requires forall k :: 0 <= k < |secrets| ==> secrets[k] != []
  {
    if secrets == [] then text
    else Masked(Scrubbed(text, secrets[..|secrets| - 1]), secrets[|secrets| - 1])
  }

  method ScrubString(text: string, secrets: seq<string>) returns (out: string)
    requires forall k :: 0 <= k < |secrets| ==> secrets[k] != []
    ensures out == Scrubbed(text, secrets)
    ensures FreeOf(text, secrets) ==> out == text
    ensures Maskable(secrets) ==> FreeOf(out, secrets) && Hides(text, out, secrets)
  {
    out := text;
    for i := 0 to |secrets|
      invariant out == Scrubbed(text, secrets[..i])
    {
      assert secrets[..i + 1][..i] == secrets[..i];
      if Occurs(secrets[i], out) {
        out := Join(Split(out, secrets[i]), MASK);
      } else {
        SplitNothing(out, secrets[i]);
      }
    }
    assert secrets[..|secrets|] == secrets;
    if FreeOf(text, secrets) {
      ScrubbedUnchanged(text, secrets);
    }
    if Maskable(secrets) {
      ScrubbedFree(text, secrets);
      ghost var pieces, fillers := ScrubbedHides(text, secrets);
    }
  }

  lemma {:induction false} ScrubbedFree(text: string, secrets: seq<string>)
    requires Maskable(secrets)
    ensures FreeOf(Scrubbed(text, secrets), secrets)
  {
    if secrets != [] {
      var last := |secrets| - 1;
      var before := Scrubbed(text, secrets[..last]);
      ScrubbedFree(text, secrets[..last]);
      forall k | 0 <= k < |secrets|
        ensures !Occurs(secrets[k], Scrubbed(text, secrets))
      {
        assert k < last ==> secrets[..last][k] == secrets[k];
        MaskingRemoves(before, secrets[last], secrets[k]);
      }
    }
  }

  lemma {:induction false} ScrubbedUnchanged(text: string, secrets: seq<string>)
    requires forall k :: 0 <= k < |secrets| ==> secrets[k] != []
    requires FreeOf(text, secrets)
    ensures Scrubbed(text, secrets) == text
  {
    if secrets != [] {
      var last := |secrets| - 1;
      assert forall k :: 0 <= k < last ==> secrets[..last][k] == secrets[k];
      ScrubbedUnchanged(text, secrets[..last]);
      SplitNothing(text, secrets[last]);
    }
  }

  lemma SplitAround(a: char, b: char, z: string)
    requires z != [] && a !in z && b !in z
    ensures Split([a] + z + [b], z) == [[a], [b]]
  {
    var text := [a] + z + [b];
    var head := text[..|z|];
    assert head[0] == a != z[0] by { assert z[0] in z; }
    assert head != z;
    var rest := z + [b];
    assert text[1..] == rest;
    assert rest[..|z|] == z && rest[|z|..] == [b];
    assert Split([b], z) == [[b]] by {
      var last := [b];
      if |z| == 1 {
        assert z[0] in z && last[..1] == last && last[1..] == [];
        var none := Split(last[1..], z);
        assert none == [[]] && [b] + none[0] == last;
        assert Split(last, z) == [[b] + none[0]] + none[1..];
      }
    }
    assert Split(rest, z) == [[]] + [[b]];
    assert [a] + [] == [a];
  }

  lemma OccursCarries(s: string, text: string, k: nat)
    requires k < |s|
    ensures Occurs(s, text) ==> s[k] in text
  {
    if i :| 0 <= i <= |text| && OccursAt(s, text, i) {
      assert text[i..i + |s|][k] == text[i + k];
    }
  }

  // ----- the rest of the text is kept -----

  /** The text back, with what was masked in the places of the masks. */
  ghost function Filled(pieces: seq<string>, fillers: seq<string>): string
    requires |pieces| == |fillers| + 1
  {
    if |pieces| == 1 then pieces[0] else pieces[0] + fillers[0] + Filled(pieces[1..], fillers[1..])
  }

  /** `out` is `text` with some of its secrets masked, and nothing else. */
  ghost predicate HidesWith(
    text: string, out: string, secrets: seq<string>, pieces: seq<string>, fillers: seq<string>)
  {
    && |pieces| == |fillers| + 1
    && Filled(pieces, fillers) == text
    && Join(pieces, MASK) == out
    && forall k :: 0 <= k < |fillers| ==> fillers[k] in secrets
  }

  ghost predicate Hides(text: string, out: string, secrets: seq<string>) {
    exists pieces, fillers :: HidesWith(text, out, secrets, pieces, fillers)
  }

  lemma MaskedMatch(w: string, rest: string)
    requires w != []
    ensures Masked(w + rest, w) == MASK + Masked(rest, w)
  {
    var pieces := Split(rest, w);
    assert (w + rest)[..|w|] == w && (w + rest)[|w|..] == rest;
    assert ([[]] + pieces)[1..] == pieces;
    assert Join([[]] + pieces, MASK) == [] + MASK + Join(pieces, MASK);
  }

  lemma MaskedSkip(c: char, rest: string, w: string)
    requires w != [] && !(w <= [c] + rest)
    ensures Masked([c] + rest, w) == [c] + Masked(rest, w)
  {
    var text := [c] + rest;
    assert text[1..] == rest;
    if |text| < |w| {
      assert Split(rest, w) == [rest] && Split(text, w) == [text];
    } else {
      JoinCons(c, Split(rest, w), MASK);
    }
  }

  lemma AcrossMatch(rest: string, b: string, w: string)
    requires w != [] && Masked(rest + MASK + b, w) == Masked(rest, w) + MASK + Masked(b, w)
    ensures Masked((w + rest) + MASK + b, w) == Masked(w + rest, w) + MASK + Masked(b, w)
  {
    var m, n := Masked(rest, w), Masked(b, w);
    assert (w + rest) + MASK + b == w + (rest + MASK + b);
    MaskedMatch(w, rest);
    MaskedMatch(w, rest + MASK + b);
    assert MASK + (m + MASK + n) == MASK + m + MASK + n;
  }

  lemma AcrossSkip(c: char, rest: string, b: string, w: string)
    requires Safe(w) && !(w <= [c] + rest)
    requires Masked(rest + MASK + b, w) == Masked(rest, w) + MASK + Masked(b, w)
    ensures Masked(([c] + rest) + MASK + b, w) == Masked([c] + rest, w) + MASK + Masked(b, w)
  {
    var m, n := Masked(rest, w), Masked(b, w);
    NoReach([c] + rest, b, w);
    assert ([c] + rest) + MASK + b == [c] + (rest + MASK + b);
    MaskedSkip(c, rest, w);
    MaskedSkip(c, rest + MASK + b, w);
    assert [c] + (m + MASK + n) == [c] + m + MASK + n;
  }

  /** Masking a safe secret works on both sides of a mask separately. */
  lemma {:induction false} MaskedAcross(a: string, b: string, w: string)
    requires Safe(w)
    ensures Masked(a + MASK + b, w) == Masked(a, w) + MASK + Masked(b, w)
    decreases |a|
  {
    if w <= a {
      MaskedAcross(a[|w|..], b, w);
      AcrossMatch(a[|w|..], b, w);
      assert w + a[|w|..] == a;
    } else if a == [] {
      MaskedAtMask(b, w);
      assert a + MASK + b == MASK + b && Masked(a, w) == [];
      assert [] + MASK + Masked(b, w) == MASK + Masked(b, w);
    } else {
      assert [a[0]] + a[1..] == a;
      MaskedAcross(a[1..], b, w);
      AcrossSkip(a[0], a[1..], b, w);
    }
  }

  lemma NoReach(a: string, b: string, w: string)
    requires Safe(w) && !(w <= a)
    ensures !(w <= a + MASK + b)
  {
    var text := a + MASK + b;
    assert text[|a|..|a| + 3] == MASK;
    assert |w| <= |a| ==> text[..|w|] == a[..|w|];
    if w <= text {
      assert text[0..|w|] == w;
      MeetsMask(w, text, 0, |a|);
    }
  }

  lemma MaskedAtMask(b: string, w: string)
    requires Safe(w)
    ensures Masked(MASK + b, w) == MASK + Masked(b, w)
  {
    var one, two := [BULLET] + b, [BULLET] + ([BULLET] + b);
    MaskedSkip(BULLET, b, w);
    MaskedSkip(BULLET, one, w);
    MaskedSkip(BULLET, two, w);
    assert MASK + b == [BULLET] + two;
    var m := Masked(b, w);
    assert [BULLET] + ([BULLET] + ([BULLET] + m)) == MASK + m;
  }

  lemma {:induction false} FilledBoth(ps: seq<string>, fs: seq<string>, f: string, qs: seq<string>, gs: seq<string>)
    requires |ps| == |fs| + 1 && |qs| == |gs| + 1
    ensures Filled(ps + qs, fs + [f] + gs) == Filled(ps, fs) + f + Filled(qs, gs)
  {
    var all, between := ps + qs, fs + [f] + gs;
    if |ps| == 1 {
      assert all[1..] == qs && between[1..] == gs;
    } else {
      assert all[1..] == ps[1..] + qs && between[1..] == fs[1..] + [f] + gs;
      FilledBoth(ps[1..], fs[1..], f, qs, gs);
      var x, y, z := Filled(ps[1..], fs[1..]), f, Filled(qs, gs);
      assert ps[0] + fs[0] + (x + y + z) == ps[0] + fs[0] + x + y + z;
    }
  }

  lemma {:induction false} JoinBoth(ps: seq<string>, qs: seq<string>, sep: string)
    requires ps != [] && qs != []
    ensures Join(ps + qs, sep) == Join(ps, sep) + sep + Join(qs, sep)
  {
    var all := ps + qs;
    if |ps| == 1 {
      assert all[1..] == qs;
    } else {
      assert all[1..] == ps[1..] + qs;
      JoinBoth(ps[1..], qs, sep);
      var x, z := Join(ps[1..], sep), Join(qs, sep);
      assert ps[0] + sep + (x + sep + z) == ps[0] + sep + x + sep + z;
    }
  }

  lemma {:induction false} FilledAlike(pieces: seq<string>, w: string) returns (fillers: seq<string>)
    requires pieces != []
    ensures |pieces| == |fillers| + 1 && Filled(pieces, fillers) == Join(pieces, w)
    ensures forall k :: 0 <= k < |fillers| ==> fillers[k] == w
  {
    if |pieces| == 1 {
      fillers := [];
    } else {
      var rest := FilledAlike(pieces[1..], w);
      fillers := [w] + rest;
      assert fillers[1..] == rest;
    }
  }

  /** Masking one secret in one text. */
  lemma MaskingHides(text: string, w: string) returns (pieces: seq<string>, fillers: seq<string>)
    requires w != []
    ensures HidesWith(text, Masked(text, w), [w], pieces, fillers)
  {
    pieces := Split(text, w);
    fillers := FilledAlike(pieces, w);
    SplitJoin(text, w);
  }

  /** Masking one more secret in a text in which others have been masked. */
  lemma {:induction false} MaskingRefines(text: string, pieces: seq<string>, fillers: seq<string>,
                                          secrets: seq<string>, w: string)
    returns (pieces': seq<string>, fillers': seq<string>)
    requires Safe(w) && |pieces| == |fillers| + 1
    requires HidesWith(text, Join(pieces, MASK), secrets, pieces, fillers)
    ensures HidesWith(text, Masked(Join(pieces, MASK), w), secrets + [w], pieces', fillers')
    decreases |pieces|
  {
    var ps, fs := MaskingHides(pieces[0], w);
    if |pieces| == 1 {
      pieces', fillers' := ps, fs;
    } else {
      var rest, between := pieces[1..], fillers[1..];
      var tail := Filled(rest, between);
      var qs, gs := MaskingRefines(tail, rest, between, secrets, w);
      pieces', fillers' := ps + qs, fs + [fillers[0]] + gs;
      MaskedAcross(pieces[0], Join(rest, MASK), w);
      FilledBoth(ps, fs, fillers[0], qs, gs);
      JoinBoth(ps, qs, MASK);
      FillersKnown(fs, fillers[0], gs, secrets, w);
    }
  }

  lemma FillersKnown(fs: seq<string>, f: string, gs: seq<string>, secrets: seq<string>, w: string)
    requires forall k :: 0 <= k < |fs| ==> fs[k] in [w]
    requires f in secrets && forall k :: 0 <= k < |gs| ==> gs[k] in secrets + [w]
    ensures forall k :: 0 <= k < |fs + [f] + gs| ==> (fs + [f] + gs)[k] in secrets + [w]
  {
  }

  /** The scrubbed text is the text with some occurrences of secrets masked and all else kept. */
  lemma {:induction false} ScrubbedHides(text: string, secrets: seq<string>)
    returns (pieces: seq<string>, fillers: seq<string>)
    requires Maskable(secrets)
    ensures HidesWith(text, Scrubbed(text, secrets), secrets, pieces, fillers)
  {
    if secrets == [] {
      pieces, fillers := [text], [];
    } else {
      var front, w := secrets[..|secrets| - 1], secrets[|secrets| - 1];
      var ps, fs := ScrubbedHides(text, front);
      pieces, fillers := MaskingRefines(text, ps, fs, front, w);
      assert front + [w] == secrets;
    }
  }

  lemma {:induction false} SplitsAtMasks(pieces: seq<string>)
    requires pieces != [] && forall k :: 0 <= k < |pieces| ==> BULLET !in pieces[k]
    ensures Split(Join(pieces, MASK), MASK) == pieces
  {
    if |pieces| == 1 {
      OccursCarries(MASK, pieces[0], 0);
      SplitNothing(pieces[0], MASK);
    } else {
      SplitsAtMasks(pieces[1..]);
      SplitAtFirst(pieces[0], Join(pieces[1..], MASK));
      assert [pieces[0]] + pieces[1..] == pieces;
    }
  }

  lemma {:induction false} SplitAtFirst(a: string, b: string)
    requires BULLET !in a
    ensures Split(a + MASK + b, MASK) == [a] + Split(b, MASK)
  {
    var text, rest := a + MASK + b, Split(b, MASK);
    if a == [] {
      assert text[..3] == MASK && text[3..] == b;
    } else {
      assert text[1..] == a[1..] + MASK + b;
      assert text[..3][0] == a[0] && a[0] in a;
      SplitAtFirst(a[1..], b);
      assert [a[0]] + a[1..] == a;
      assert ([a[1..]] + rest)[1..] == rest;
    }
  }

  lemma {:induction false} PiecesWithoutBullet(text: string, w: string)
    requires w != [] && BULLET !in text
    ensures forall k :: 0 <= k < |Split(text, w)| ==> BULLET !in Split(text, w)[k]
    decreases |text|
  {
    if |text| < |w| {
    } else if text[..|w|] == w {
      PiecesWithoutBullet(text[|w|..], w);
    } else {
      PiecesWithoutBullet(text[1..], w);
    }
  }

  /** Whatever the secret, putting it back where the masks are gives back a text that had no mask
      character of its own. */
  lemma UnmaskingInverts(text: string, w: string)
    requires w != [] && BULLET !in text
    ensures Join(Split(Masked(text, w), MASK), w) == text
    ensures MASK == "\U{2022}\U{2022}\U{2022}"
  {
    PiecesWithoutBullet(text, w);
    SplitsAtMasks(Split(text, w));
    SplitJoin(text, w);
  }

  /** A secret that is not safe can also be spelled out by masking a later one. */
  lemma SpelledByMask(a: char, b: char, z: string)
    requires z != [] && a !in z && b !in z && BULLET !in [a] + z + [b]
    ensures var whole := [a] + MASK + [b];
            whole != [] && Occurs(whole, Scrubbed([a] + z + [b], [whole, z]))
  {
    var text, whole := [a] + z + [b], [a] + MASK + [b];
    assert whole[1] == BULLET;
    OccursCarries(whole, text, 1);
    SplitNothing(text, whole);
    assert [whole, z][..1] == [whole] && [whole][..0] == [];
    assert Scrubbed(text, [whole]) == Masked(Scrubbed(text, []), whole) == text;
    SplitAround(a, b, z);
    assert [[a], [b]][1..] == [[b]];
    assert Join([[a], [b]], MASK) == [a] + MASK + Join([[b]], MASK) == whole;
    assert OccursAt(whole, whole, 0);
  }

  // ----- whole values -----

  /** Parsed JSON.  `Atom` stands for numbers, booleans and null. */
  datatype Json = Str(s: string) | Atom(a: int) | Arr(items: seq<Json>) | Obj(fields: seq<(string, Json)>)

  function ScrubJson(v: Json, secrets: seq<string>): Json
    requires forall k :: 0 <= k < |secrets| ==> secrets[k] != []
    decreases v
  {
    match v
    case Str(s) => Str(Scrubbed(s, secrets))
    case Atom(a) => v
    case Arr(items) => Arr(seq(|items|, i requires 0 <= i < |items| => ScrubJson(items[i], secrets)))
    case Obj(fields) =>
      Obj(seq(|fields|, i requires 0 <= i < |fields| => (fields[i].0, ScrubJson(fields[i].1, secrets))))
  }

  /** No secret in any string of the value. */
  ghost predicate Clean(v: Json, secrets: seq<string>)
    decreases v
  {
    match v
    case Str(s) => FreeOf(s, secrets)
    case Atom(_) => true
    case Arr(items) => forall i :: 0 <= i < |items| ==> Clean(items[i], secrets)
    case Obj(fields) => forall i :: 0 <= i < |fields| ==> Clean(fields[i].1, secrets)
  }

  /** The same value but for the text of its strings. */
  ghost predicate SameShape(v: Json, w: Json)
    decreases v
  {
    match v
    case Str(_) => w.Str?
    case Atom(_) => w == v
    case Arr(items) =>
      w.Arr? && |w.items| == |items| && forall i :: 0 <= i < |items| ==> SameShape(items[i], w.items[i])
    case Obj(fields) =>
      w.Obj? && |w.fields| == |fields|
      && forall i :: 0 <= i < |fields| ==> fields[i].0 == w.fields[i].0 && SameShape(fields[i].1, w.fields[i].1)
  }

  /** After scrubbing, no configured secret is left in any string of the value, and the
      value is otherwise as it was. */
  lemma {:induction false} ScrubIsClean(v: Json, secrets: seq<string>)
    requires Maskable(secrets)
    ensures Clean(ScrubJson(v, secrets), secrets)
    ensures SameShape(v, ScrubJson(v, secrets))
    decreases v
  {
    match v
    case Str(s) => ScrubbedFree(s, secrets);
    case Atom(_) =>
    case Arr(items) =>
      forall i | 0 <= i < |items| {
        ScrubIsClean(items[i], secrets);
      }
    case Obj(fields) =>
      forall i | 0 <= i < |fields| {
        ScrubIsClean(fields[i].1, secrets);
      }
  }

  /** The same value but for secrets masked in its strings. */
  ghost predicate HidesOnly(v: Json, w: Json, secrets: seq<string>)
    decreases v
  {
    match v
    case Str(s) => w.Str? && Hides(s, w.s, secrets)
    case Atom(_) => w == v
    case Arr(items) =>
      w.Arr? && |w.items| == |items| && forall i :: 0 <= i < |items| ==> HidesOnly(items[i], w.items[i], secrets)
    case Obj(fields) =>
      w.Obj? && |w.fields| == |fields|
      && forall i :: 0 <= i < |fields| ==>
                       fields[i].0 == w.fields[i].0 && HidesOnly(fields[i].1, w.fields[i].1, secrets)
  }

  /** Scrubbing masks secrets and leaves the rest of every string as it was. */
  lemma {:induction false} ScrubHidesOnly(v: Json, secrets: seq<string>)
    requires Maskable(secrets)
    ensures HidesOnly(v, ScrubJson(v, secrets), secrets)
    decreases v
  {
    match v
    case Str(s) =>
      var pieces, fillers := ScrubbedHides(s, secrets);
    case Atom(_) =>
    case Arr(items) =>
      forall i | 0 <= i < |items| {
        ScrubHidesOnly(items[i], secrets);
      }
    case Obj(fields) =>
      forall i | 0 <= i < |fields| {
        ScrubHidesOnly(fields[i].1, secrets);
      }
  }

  /** A clean value is left alone. */
  lemma {:induction false} CleanIsKept(v: Json, secrets: seq<string>)
    requires forall k :: 0 <= k < |secrets| ==> secrets[k] != []
    requires Clean(v, secrets)
    ensures ScrubJson(v, secrets) == v
    decreases v
  {
    match v
    case Str(s) => ScrubbedUnchanged(s, secrets);
    case Atom(_) =>
    case Arr(items) =>
      forall i | 0 <= i < |items| {
        CleanIsKept(items[i], secrets);
      }
      assert ScrubJson(v, secrets).items == items;
    case Obj(fields) =>
      forall i | 0 <= i < |fields| {
        CleanIsKept(fields[i].1, secrets);
      }
      assert ScrubJson(v, secrets).fields == fields;
  }

  ghost predicate ListOf(secrets: seq<string>, pool: set<string>) {
    forall k :: 0 <= k < |secrets| ==> secrets[k] != [] && secrets[k] in pool
  }

  ghost predicate ScrubsClean(v: Json, secrets: seq<string>)
    requires forall k :: 0 <= k < |secrets| ==> secrets[k] != []
  {
    Clean(ScrubJson(v, secrets), secrets)
  }

  /** Whichever of the possible secrets are configured, and in whatever order: every value is
      scrubbed clean if and only if each of them is safe. */
  lemma CleanIffSafe(pool: set<string>)
    requires [] !in pool
    ensures (forall v, secrets :: ListOf(secrets, pool) ==> ScrubsClean(v, secrets))
       <==> (forall w :: w in pool ==> Safe(w))
  {
    if forall w :: w in pool ==> Safe(w) {
      forall v, secrets | ListOf(secrets, pool)
        ensures ScrubsClean(v, secrets)
      {
        ScrubIsClean(v, secrets);
      }
    } else {
      var w :| w in pool && !Safe(w);
      RemovedIffSafe(w);
      var text :| Occurs(w, Masked(text, w));
      var secrets := [w];
      assert secrets[..0] == [] && Scrubbed(text, []) == text;
      assert Scrubbed(text, secrets) == Masked(text, w);
      assert ListOf(secrets, pool) && !FreeOf(Scrubbed(text, secrets), secrets);
      assert !ScrubsClean(Str(text), secrets);
    }
  }

  lemma ScrubIsIdempotent(v: Json, secrets: seq<string>)
    requires Maskable(secrets)
    ensures ScrubJson(ScrubJson(v, secrets), secrets) == ScrubJson(v, secrets)
  {
    ScrubIsClean(v, secrets);
    CleanIsKept(ScrubJson(v, secrets), secrets);
  }
}
