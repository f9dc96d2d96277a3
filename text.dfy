/** The string operations the scraper applies to element texts: Python's
    `str.strip()`, `str.lower()`, `str.replace("\n", " ")`, `", ".join(...)`
    and the `needle in haystack` substring test. Characters are restricted to
    ASCII semantics: only 'A'..'Z' are lowered and only ASCII whitespace is
    stripped. */
module Text {

  /** ASCII whitespace as Python's `str.isspace` sees it: space, \t \n \x0b
      \x0c \r, and the separators \x1c..\x1f. */
  predicate IsSpace(c: char) {
    c == ' ' || (9 <= c as int <= 13) || (28 <= c as int <= 31)
  }

  predicate IsAsciiDigit(c: char) {
    '0' <= c <= '9'
  }

  /** `s.lstrip()` */
  function StripStart(s: string): (r: string)
    ensures |r| <= |s| && r == s[|s| - |r|..]
    ensures forall i :: 0 <= i < |s| - |r| ==> IsSpace(s[i])
    ensures r != [] ==> !IsSpace(r[0])
  {
    if s != [] && IsSpace(s[0]) then StripStart(s[1..]) else s
  }

  /** `s.rstrip()` */
  function StripEnd(s: string): (r: string)
    ensures |r| <= |s| && r == s[..|r|]
    ensures forall i :: |r| <= i < |s| ==> IsSpace(s[i])
    ensures r != [] ==> !IsSpace(r[|r| - 1])
  {
    if s != [] && IsSpace(s[|s| - 1]) then StripEnd(s[..|s| - 1]) else s
  }

  /** `r` is `s[i..j]`, everything outside `i..j` is whitespace and `r` itself
      neither starts nor ends with whitespace. */
  ghost predicate StrippedAt(r: string, s: string, i: int, j: int) {
    && 0 <= i <= j <= |s| && r == s[i..j]
    && (forall k :: 0 <= k < i ==> IsSpace(s[k]))
    && (forall k :: j <= k < |s| ==> IsSpace(s[k]))
    && (r != [] ==> !IsSpace(r[0]) && !IsSpace(r[|r| - 1]))
  }

  /** `r` is `s` with all leading and all trailing whitespace removed. */
  ghost predicate IsStrippedOf(r: string, s: string) {
    exists i, j :: StrippedAt(r, s, i, j)
  }

  /** `s.strip()` */
  function Strip(s: string): (r: string)
    ensures IsStrippedOf(r, s)
    ensures r != [] ==> !IsSpace(r[0]) && !IsSpace(r[|r| - 1])
  {
    var front := StripStart(s);
    var r := StripEnd(front);
    StripCuts(s, front, r);
    r
  }

  /** Where `Strip` cuts: after the leading whitespace `StripStart` drops, and
      after what `StripEnd` then keeps. */
  lemma StripCuts(s: string, front: string, r: string)
    requires |front| <= |s| && front == s[|s| - |front|..]
    requires forall k :: 0 <= k < |s| - |front| ==> IsSpace(s[k])
    requires front != [] ==> !IsSpace(front[0])
    requires |r| <= |front| && r == front[..|r|]
    requires forall k :: |r| <= k < |front| ==> IsSpace(front[k])
    requires r != [] ==> !IsSpace(r[|r| - 1])
    ensures StrippedAt(r, s, |s| - |front|, |s| - |front| + |r|)
  {
    var i := |s| - |front|;
    assert r == s[i..i + |r|];
    forall k | i + |r| <= k < |s|
      ensures IsSpace(s[k])
    {
      assert s[k] == front[k - i];
    }
    if r != [] {
      assert r[0] == front[0];
    }
  }

  /** Everything of `s` is whitespace when `Strip(s)` is empty. */
  lemma StripEmpty(s: string)
    requires Strip(s) == []
    ensures forall k :: 0 <= k < |s| ==> IsSpace(s[k])
  {
    var i, j :| StrippedAt(Strip(s), s, i, j);
  }

  /** Where stripping cuts is determined: the cut points of two strippings agree. */
  lemma StrippedAtUnique(r: string, r': string, s: string, i: int, j: int, i': int, j': int)
    requires StrippedAt(r, s, i, j) && StrippedAt(r', s, i', j')
    requires r != [] && r' != []
    ensures i == i' && j == j'
  {
    assert s[i] == r[0] && s[j - 1] == r[|r| - 1];
    assert s[i'] == r'[0] && s[j' - 1] == r'[|r'| - 1];
  }

  /** Stripping is determined by its specification: any string that is `s`
      without its leading and trailing whitespace is `Strip(s)`. */
  lemma StripUnique(r: string, s: string)
    requires IsStrippedOf(r, s)
    ensures r == Strip(s)
  {
    var i, j :| StrippedAt(r, s, i, j);
    var r' := Strip(s);
    var i', j' :| StrippedAt(r', s, i', j');
    if r != [] {
      assert r[0] == s[i];
    }
    if r' != [] {
      assert r'[0] == s[i'];
    } else {
      StripEmpty(s);
    }
    if r != [] && r' != [] {
      StrippedAtUnique(r, r', s, i, j, i', j');
    }
  }

  /** Stripping twice is stripping once. */
  lemma StripIdempotent(s: string)
    ensures Strip(Strip(s)) == Strip(s)
  {
    var r := Strip(s);
    assert StrippedAt(r, r, 0, |r|);
    StripUnique(r, r);
  }

  /** Removing the leading whitespace first does not change what stripping
      gives. */
  lemma StripAfterStripStart(s: string)
    ensures Strip(StripStart(s)) == Strip(s)
  {
    var f := StripStart(s);
    var r := Strip(f);
    var i, j :| StrippedAt(r, f, i, j);
    StrippedInSuffix(r, f, s, i, j);
    StripUnique(r, s);
  }

  /** A stripping of a suffix `f` of `s` whose cut-off front is whitespace is
      also a stripping of `s`. */
  lemma StrippedInSuffix(r: string, f: string, s: string, i: int, j: int)
    requires |f| <= |s| && f == s[|s| - |f|..]
    requires forall k :: 0 <= k < |s| - |f| ==> IsSpace(s[k])
    requires StrippedAt(r, f, i, j)
    ensures IsStrippedOf(r, s)
  {
    var d := |s| - |f|;
    assert r == s[d + i..d + j];
    forall k | 0 <= k < d + i
      ensures IsSpace(s[k])
    {
      if d <= k {
        assert s[k] == f[k - d];
      }
    }
    forall k | d + j <= k < |s|
      ensures IsSpace(s[k])
    {
      assert s[k] == f[k - d];
    }
    assert StrippedAt(r, s, d + i, d + j);
  }

  predicate IsUpper(c: char) {
    'A' <= c <= 'Z'
  }

  /** Python's `str.lower()` on one character, ASCII letters only. */
  function LowerChar(c: char): char {
    if IsUpper(c) then (c as int + 32) as char else c
  }

  /** `s.lower()`: no capital is left, every character that is not a capital
      stays where it was, and each capital becomes its lower-case letter. */
  function Lower(s: string): (r: string)
    ensures |r| == |s|
    ensures forall i :: 0 <= i < |r| ==> !IsUpper(r[i])
    ensures forall i :: 0 <= i < |s| && !IsUpper(s[i]) ==> r[i] == s[i]
    ensures forall i :: 0 <= i < |s| && IsUpper(s[i]) ==> r[i] as int == s[i] as int + 32
    ensures forall i :: 0 <= i < |s| ==> r[i] == LowerChar(s[i])
  {
    seq(|s|, i requires 0 <= i < |s| => LowerChar(s[i]))
  }

  /** Lowering works character by character, so it distributes over concatenation. */
  lemma LowerAppend(a: string, b: string)
    ensures Lower(a + b) == Lower(a) + Lower(b)
  {
  }

  /** Lowering is idempotent: a lowered string has no upper-case ASCII letter. */
  lemma LowerIdempotent(s: string)
    ensures Lower(Lower(s)) == Lower(s)
    ensures forall i :: 0 <= i < |s| ==> !IsUpper(Lower(s)[i])
  {
  }

  /** `a.lower() == b.lower()` */
  predicate EqualsIgnoreCase(a: string, b: string) {
    Lower(a) == Lower(b)
  }

  predicate StartsWith(s: string, prefix: string) {
    |prefix| <= |s| && s[..|prefix|] == prefix
  }

  /** `needle` occurs in `hay` starting at position `i`. */
  ghost predicate OccursAt(hay: string, needle: string, i: int) {
    0 <= i && i + |needle| <= |hay| && hay[i..i + |needle|] == needle
  }

  /** `needle in hay` for strings: true exactly when the needle occurs at some
      position of the haystack. */
  predicate Contains(hay: string, needle: string)
    ensures Contains(hay, needle) <==> exists i :: OccursAt(hay, needle, i)
    decreases |hay|
  {
    var inTail := hay != [] && Contains(hay[1..], needle);
    ContainsStep(hay, needle, inTail);
    StartsWith(hay, needle) || inTail
  }

  /** One step of the search: an occurrence is at the start or further on. */
  lemma ContainsStep(hay: string, needle: string, inTail: bool)
    requires hay != [] ==> (inTail <==> exists i :: OccursAt(hay[1..], needle, i))
    requires hay == [] ==> !inTail
    ensures StartsWith(hay, needle) || inTail <==> exists i :: OccursAt(hay, needle, i)
  {
    if inTail {
      var i :| OccursAt(hay[1..], needle, i);
      assert hay[i + 1..i + 1 + |needle|] == needle;
      assert OccursAt(hay, needle, i + 1);
    }
    if StartsWith(hay, needle) {
      assert OccursAt(hay, needle, 0);
    }
    if exists i :: OccursAt(hay, needle, i) {
      var i :| OccursAt(hay, needle, i);
      if i > 0 {
        assert hay[1..][i - 1..i - 1 + |needle|] == needle;
        assert OccursAt(hay[1..], needle, i - 1);
      } else {
        assert StartsWith(hay, needle);
      }
    }
  }

  /** A needle holding a character the haystack lacks does not occur in it. */
  lemma ContainsNeedsChar(hay: string, needle: string, k: nat)
    requires k < |needle| && needle[k] !in hay
    ensures !Contains(hay, needle)
  {
  }

  /** `s.replace("\n", " ")` */
  function ReplaceNewlines(s: string): (r: string)
    ensures |r| == |s| && '\n' !in r
    ensures forall i :: 0 <= i < |s| && s[i] == '\n' ==> r[i] == ' '
    ensures forall i :: 0 <= i < |s| && s[i] != '\n' ==> r[i] == s[i]
  {
    if s == [] then [] else [if s[0] == '\n' then ' ' else s[0]] + ReplaceNewlines(s[1..])
  }

  /** Where piece `k` of a join starts: after the pieces before it and one
      separator for each of them. */
  function PieceStart(xs: seq<string>, sep: string, k: nat): nat
    requires k <= |xs|
  {
    TotalLength(xs[..k]) + k * |sep|
  }

  /** `r` is the pieces `xs` (at least one) with `sep` between each two: it has
      their total length plus one separator per gap, piece `k` sits at
      `PieceStart(xs, sep, k)`, and a separator sits just before each piece
      but the first. */
  ghost predicate IsJoinOf(r: string, xs: seq<string>, sep: string) {
    && |xs| > 0
    && |r| == TotalLength(xs) + (|xs| - 1) * |sep|
    && PiecesAt(r, xs, sep)
    && SeparatorsAt(r, xs, sep)
  }

  ghost predicate PiecesAt(r: string, xs: seq<string>, sep: string) {
    forall k :: 0 <= k < |xs| ==>
      PieceStart(xs, sep, k) + |xs[k]| <= |r| &&
      r[PieceStart(xs, sep, k)..PieceStart(xs, sep, k) + |xs[k]|] == xs[k]
  }

  ghost predicate SeparatorsAt(r: string, xs: seq<string>, sep: string) {
    forall k :: 0 < k < |xs| ==>
      |sep| <= PieceStart(xs, sep, k) <= |r| &&
      r[PieceStart(xs, sep, k) - |sep|..PieceStart(xs, sep, k)] == sep
  }

  /** `sep.join(xs)` */
  function Join(xs: seq<string>, sep: string): (r: string)
    ensures xs == [] ==> r == ""
    ensures xs != [] ==> IsJoinOf(r, xs, sep)
    decreases |xs|
  {
    if |xs| == 0 then ""
    else if |xs| == 1 then
      JoinOne(xs[0], sep);
      assert [xs[0]] == xs;
      xs[0]
    else
      var init := xs[..|xs| - 1];
      var j := Join(init, sep);
      JoinStep(init, xs[|xs| - 1], sep, j);
      assert init + [xs[|xs| - 1]] == xs;
      j + sep + xs[|xs| - 1]
  }

  lemma JoinOne(x: string, sep: string)
    ensures IsJoinOf(x, [x], sep)
  {
    assert [x][..0] == [];
    assert PieceStart([x], sep, 0) == 0;
    assert x[0..|x|] == x;
  }

  /** Appending a separator and one more piece to a join gives the join of
      the longer list. */
  lemma JoinStep(init: seq<string>, x: string, sep: string, j: string)
    requires IsJoinOf(j, init, sep)
    ensures IsJoinOf(j + sep + x, init + [x], sep)
  {
    JoinStepStarts(init, x, sep, j);
    TotalLengthSnoc(init, x);
    assert (|init| - 1) * |sep| + |sep| == |init| * |sep|;
    JoinStepPieces(init, x, sep, j);
    JoinStepSeparators(init, x, sep, j);
  }

  lemma JoinStepPieces(init: seq<string>, x: string, sep: string, j: string)
    requires IsJoinOf(j, init, sep)
    requires forall k :: 0 <= k < |init| ==> PieceStart(init + [x], sep, k) == PieceStart(init, sep, k)
    requires PieceStart(init + [x], sep, |init|) == |j| + |sep|
    ensures PiecesAt(j + sep + x, init + [x], sep)
  {
    var xs, r := init + [x], j + sep + x;
    forall k | 0 <= k < |xs|
      ensures PieceStart(xs, sep, k) + |xs[k]| <= |r|
      ensures r[PieceStart(xs, sep, k)..PieceStart(xs, sep, k) + |xs[k]|] == xs[k]
    {
      JoinStepPiece(init, x, sep, j, k);
    }
  }

  lemma JoinStepSeparators(init: seq<string>, x: string, sep: string, j: string)
    requires IsJoinOf(j, init, sep)
    requires forall k :: 0 <= k < |init| ==> PieceStart(init + [x], sep, k) == PieceStart(init, sep, k)
    requires PieceStart(init + [x], sep, |init|) == |j| + |sep|
    ensures SeparatorsAt(j + sep + x, init + [x], sep)
  {
    var xs, r := init + [x], j + sep + x;
    forall k | 0 < k < |xs|
      ensures |sep| <= PieceStart(xs, sep, k) <= |r|
      ensures r[PieceStart(xs, sep, k) - |sep|..PieceStart(xs, sep, k)] == sep
    {
      JoinStepSeparator(init, x, sep, j, k);
    }
  }

  /** In the longer list the old pieces keep their places and the new one
      starts after the old join and one separator. */
  lemma JoinStepStarts(init: seq<string>, x: string, sep: string, j: string)
    requires IsJoinOf(j, init, sep)
    ensures forall k :: 0 <= k < |init| ==> PieceStart(init + [x], sep, k) == PieceStart(init, sep, k)
    ensures PieceStart(init + [x], sep, |init|) == |j| + |sep|
  {
    var xs, n := init + [x], |init|;
    assert xs[..n] == init;
    assert (n - 1) * |sep| + |sep| == n * |sep|;
    forall k | 0 <= k < n
      ensures PieceStart(xs, sep, k) == PieceStart(init, sep, k)
    {
      assert xs[..k] == init[..k];
    }
  }

  lemma JoinStepPiece(init: seq<string>, x: string, sep: string, j: string, k: nat)
    requires IsJoinOf(j, init, sep) && k <= |init|
    requires forall k :: 0 <= k < |init| ==> PieceStart(init + [x], sep, k) == PieceStart(init, sep, k)
    requires PieceStart(init + [x], sep, |init|) == |j| + |sep|
    ensures var xs, r := init + [x], j + sep + x;
      PieceStart(xs, sep, k) + |xs[k]| <= |r| &&
      r[PieceStart(xs, sep, k)..PieceStart(xs, sep, k) + |xs[k]|] == xs[k]
  {
    var r := j + sep + x;
    if k < |init| {
      var a := PieceStart(init, sep, k);
      assert r[a..a + |init[k]|] == j[a..a + |init[k]|];
    } else {
      assert r[|j| + |sep|..] == x;
    }
  }

  lemma JoinStepSeparator(init: seq<string>, x: string, sep: string, j: string, k: nat)
    requires IsJoinOf(j, init, sep) && 0 < k <= |init|
    requires forall k :: 0 <= k < |init| ==> PieceStart(init + [x], sep, k) == PieceStart(init, sep, k)
    requires PieceStart(init + [x], sep, |init|) == |j| + |sep|
    ensures var xs, r := init + [x], j + sep + x;
      |sep| <= PieceStart(xs, sep, k) <= |r| &&
      r[PieceStart(xs, sep, k) - |sep|..PieceStart(xs, sep, k)] == sep
  {
    var r := j + sep + x;
    if k < |init| {
      var a := PieceStart(init, sep, k);
      assert r[a - |sep|..a] == j[a - |sep|..a];
    } else {
      assert r[|j|..|j| + |sep|] == sep;
    }
  }

  /** A character absent from the pieces and from the separator is absent from the join. */
  lemma {:induction false} JoinAvoids(xs: seq<string>, sep: string, c: char)
    requires c !in sep
    requires forall k :: 0 <= k < |xs| ==> c !in xs[k]
    ensures c !in Join(xs, sep)
    decreases |xs|
  {
    if |xs| > 1 {
      JoinAvoids(xs[..|xs| - 1], sep, c);
    }
  }

  /** The join starts with the first piece. */
  lemma JoinStarts(xs: seq<string>, sep: string)
    requires xs != []
    ensures StartsWith(Join(xs, sep), xs[0])
  {
    assert xs[..0] == [];
    assert PieceStart(xs, sep, 0) == 0;
  }

  /** The join ends with the last piece. */
  lemma JoinEnds(xs: seq<string>, sep: string)
    requires xs != []
    ensures var r, last := Join(xs, sep), xs[|xs| - 1]; |last| <= |r| && r[|r| - |last|..] == last
  {
    var n := |xs|;
    TotalLengthSnoc(xs[..n - 1], xs[n - 1]);
    assert xs[..n - 1] + [xs[n - 1]] == xs;
    assert PieceStart(xs, sep, n - 1) + |xs[n - 1]| == |Join(xs, sep)|;
  }

  function TotalLength(xs: seq<string>): nat {
    if xs == [] then 0 else |xs[0]| + TotalLength(xs[1..])
  }

  lemma {:induction false} TotalLengthSnoc(xs: seq<string>, x: string)
    ensures TotalLength(xs + [x]) == TotalLength(xs) + |x|
  {
    if xs != [] {
      assert (xs + [x])[1..] == xs[1..] + [x];
      TotalLengthSnoc(xs[1..], x);
    }
  }

  /** What `.*` matches in a Python regular expression: the text up to, not
      including, the first newline. */
  function TakeLine(s: string): (r: string)
    ensures |r| <= |s| && r == s[..|r|] && '\n' !in r
    ensures |r| < |s| ==> s[|r|] == '\n'
  {
    if s == [] || s[0] == '\n' then [] else [s[0]] + TakeLine(s[1..])
  }

  /** A text without a line break is its own first line. */
  lemma TakeLineWhole(s: string)
    requires '\n' !in s
    ensures TakeLine(s) == s
  {
  }
}
