/** Tenant slugs (app/modules/auth/service.py): normalising a name, and finding a slug that no
    tenant has yet. */
module Slug {
  import opened Text
  import opened Common

  // ------------------------------------------------------------ normalize_slug

  /** `value.strip().lower().replace("_", "-")` */
  function Fold(value: string): string {
    ReplaceChar(Lower(Strip(value)), '_', '-')
  }

  function NonEmpty(parts: seq<string>): (kept: seq<string>)
    ensures forall i :: 0 <= i < |kept| ==> kept[i] != "" && kept[i] in parts
  {
    if parts == [] then []
    else (if parts[0] == "" then [] else [parts[0]]) + NonEmpty(parts[1..])
  }

  /** The non-empty pieces between dashes. */
  function Pieces(s: string): seq<string> {
    NonEmpty(Split(s, '-'))
  }

  /** The pieces, joined by single dashes. */
  function Core(s: string): string {
    Join(Pieces(s), '-')
  }

  function NormalizeSlug(value: string): string {
    var cleaned := Core(Fold(value));
    if cleaned == "" then "default" else cleaned
  }

  /** Lower case, no underscores, and no dash at an edge or next to another dash. */
  ghost predicate Folded(s: string) {
    forall i :: 0 <= i < |s| ==> s[i] != '_' && LowerChar(s[i]) == s[i]
  }

  ghost predicate NormalForm(s: string) {
    s != "" && Folded(s) && forall i :: 0 <= i < |Split(s, '-')| ==> Split(s, '-')[i] != ""
  }

  // ------------------------------------------------------------ pieces and joins

  lemma {:induction false} NonEmptyAppend(a: seq<string>, b: seq<string>)
    ensures NonEmpty(a + b) == NonEmpty(a) + NonEmpty(b)
  {
    if a == [] {
      assert a + b == b;
    } else {
      assert (a + b)[1..] == a[1..] + b;
      NonEmptyAppend(a[1..], b);
    }
  }

  lemma {:induction false} NonEmptyAll(parts: seq<string>)
    requires forall i :: 0 <= i < |parts| ==> parts[i] != ""
    ensures NonEmpty(parts) == parts
  {
    if parts != [] {
      NonEmptyAll(parts[1..]);
    }
  }

  lemma {:induction false} JoinAppend(a: seq<string>, b: seq<string>, sep: char)
    requires a != [] && b != []
    ensures Join(a + b, sep) == Join(a, sep) + [sep] + Join(b, sep)
  {
    assert (a + b)[1..] == a[1..] + b;
    if |a| > 1 {
      JoinAppend(a[1..], b, sep);
    }
  }

  lemma {:induction false} JoinOfNonEmpty(parts: seq<string>, sep: char)
    requires forall i :: 0 <= i < |parts| ==> parts[i] != ""
    ensures Join(parts, sep) == "" <==> parts == []
  {
  }

  lemma PiecesAcrossDash(a: string, b: string)
    ensures Pieces(a + "-" + b) == Pieces(a) + Pieces(b)
  {
    SplitAppend(a, b, '-');
    NonEmptyAppend(Split(a, '-'), Split(b, '-'));
  }

  lemma PiecesOfPiece(piece: string)
    requires '-' !in piece
    ensures Pieces(piece) == if piece == "" then [] else [piece]
  {
    SplitWhole(piece, '-');
    assert NonEmpty([piece][1..]) == [];
  }

  lemma CoreIsEmpty(s: string)
    ensures Core(s) == "" <==> Pieces(s) == []
  {
    JoinOfNonEmpty(Pieces(s), '-');
  }

  /** Appending a dash and a piece without dashes. */
  lemma CoreWithSuffix(s: string, piece: string)
    requires '-' !in piece && piece != ""
    ensures Core(s + "-" + piece) == if Core(s) == "" then piece else Core(s) + "-" + piece
  {
    PiecesAcrossDash(s, piece);
    PiecesOfPiece(piece);
    CoreIsEmpty(s);
    assert Join([piece], '-') == piece;
    if Pieces(s) == [] {
      assert [] + [piece] == [piece];
    } else {
      JoinAppend(Pieces(s), [piece], '-');
    }
  }

  /** Where the last dash is: everything after it is the last piece. */
  lemma LastDash(s: string) returns (k: nat)
    requires '-' in s
    ensures k < |s| && s[k] == '-' && '-' !in s[k + 1..]
    ensures s == s[..k] + "-" + s[k + 1..]
  {
    k := |s| - 1;
    while s[k] != '-'
      invariant 0 <= k < |s| && '-' in s[..k + 1] && '-' !in s[k + 1..]
      decreases k
    {
      k := k - 1;
    }
    CutAt(s, k);
  }

  lemma CoreWithLast(a: string, piece: string)
    requires '-' !in piece
    ensures |Core(a + "-" + piece)| ==
            |Core(a)| + |piece| + (if Core(a) != "" && piece != "" then 1 else 0)
  {
    if piece == "" {
      PiecesAcrossDash(a, "");
      PiecesOfPiece("");
      assert Pieces(a) + [] == Pieces(a);
    } else {
      CoreWithSuffix(a, piece);
    }
  }

  /** One more character never makes the core shorter. */
  lemma CoreGrows(s: string, c: char)
    ensures |Core(s)| <= |Core(s + [c])|
  {
    if c == '-' {
      PiecesAcrossDash(s, "");
      PiecesOfPiece("");
      assert s + [c] == s + "-" + "";
      assert Pieces(s) + [] == Pieces(s);
    } else if '-' in s {
      var k := LastDash(s);
      var head, last := s[..k], s[k + 1..];
      CoreWithLast(head, last);
      CoreWithLast(head, last + [c]);
      assert s + [c] == head + "-" + (last + [c]);
    } else {
      PiecesOfPiece(s);
      PiecesOfPiece(s + [c]);
    }
  }

  lemma {:induction false} CoreOfPrefix(s: string, k: nat)
    requires k <= |s|
    ensures |Core(s[..k])| <= |Core(s)|
  {
    if k < |s| {
      CoreOfPrefix(s[..|s| - 1], k);
      assert s[..|s| - 1][..k] == s[..k];
      assert s[..|s| - 1] + [s[|s| - 1]] == s;
      CoreGrows(s[..|s| - 1], s[|s| - 1]);
    } else {
      assert s[..k] == s;
    }
  }

  // ------------------------------------------------------------ normal form

  lemma FoldIsFolded(value: string)
    ensures Folded(Fold(value))
  {
  }

  lemma {:induction false} PiecesAreFolded(s: string)
    requires Folded(s)
    ensures forall i :: 0 <= i < |Split(s, '-')| ==> Folded(Split(s, '-')[i])
    decreases |s|
  {
    var k := Find(s, '-');
    if k < |s| {
      PiecesAreFolded(s[k + 1..]);
    }
  }

  lemma {:induction false} JoinIsFolded(parts: seq<string>)
    requires forall i :: 0 <= i < |parts| ==> Folded(parts[i])
    ensures Folded(Join(parts, '-'))
  {
    if |parts| > 1 {
      JoinIsFolded(parts[1..]);
    }
  }

  /** Whatever the name, the result is in normal form. */
  lemma NormalizeGivesNormalForm(value: string)
    ensures NormalForm(NormalizeSlug(value))
  {
    hide Fold, Split, Join, NonEmpty;
    var s := Fold(value);
    FoldIsFolded(value);
    PiecesAreFolded(s);
    if Core(s) == "" {
      DefaultIsNormal();
    } else {
      JoinedIsNormal(Split(s, '-'));
    }
  }

  lemma DefaultIsNormal()
    ensures NormalForm("default")
  {
    SplitWhole("default", '-');
  }

  lemma JoinedIsNormal(parts: seq<string>)
    requires forall i :: 0 <= i < |parts| ==> Folded(parts[i]) && '-' !in parts[i]
    requires Join(NonEmpty(parts), '-') != ""
    ensures NormalForm(Join(NonEmpty(parts), '-'))
  {
    hide Join, NonEmpty;
    var kept := NonEmpty(parts);
    forall i | 0 <= i < |kept|
      ensures Folded(kept[i]) && '-' !in kept[i]
    {
      var j :| 0 <= j < |parts| && parts[j] == kept[i];
    }
    JoinIsFolded(kept);
    JoinOfNonEmpty(kept, '-');
    SplitJoin(kept, '-');
  }

  lemma FoldedIsUnchanged(s: string)
    requires Folded(s)
    ensures ReplaceChar(Lower(s), '_', '-') == s
  {
  }

  lemma NormalCore(s: string)
    requires NormalForm(s)
    ensures Core(s) == s
  {
    NonEmptyAll(Split(s, '-'));
    JoinSplit(s, '-');
  }

  /** A normalised slug is a fixed point exactly when it has no whitespace at its edges. */
  lemma FixedExactlyWhenTrimmed(s: string)
    requires NormalForm(s)
    ensures NormalizeSlug(s) == s <==> Trimmed(s)
  {
    StripFixedPoints(s);
    if Trimmed(s) {
      FoldedIsUnchanged(s);
      NormalCore(s);
    } else {
      assert |Strip(s)| < |s| by {
        StripByTrims(IsSpace, s);
        LStripSuffix(IsSpace, s);
        RStripPrefix(IsSpace, LStrip(IsSpace, s));
      }
      CoreIsNoLonger(Fold(s));
      assert Trimmed("default");
    }
  }

  lemma {:induction false} NonEmptyIsNoLonger(parts: seq<string>)
    requires parts != []
    ensures |Join(NonEmpty(parts), '-')| <= |Join(parts, '-')|
  {
    var rest := parts[1..];
    if rest == [] {
      assert NonEmpty(rest) == [];
    } else {
      NonEmptyIsNoLonger(rest);
      if parts[0] == "" {
        assert NonEmpty(parts) == NonEmpty(rest);
      } else if NonEmpty(rest) == [] {
        assert NonEmpty(parts) == [parts[0]];
      } else {
        JoinAppend([parts[0]], NonEmpty(rest), '-');
      }
    }
  }

  lemma CoreIsNoLonger(s: string)
    ensures |Core(s)| <= |s|
  {
    NonEmptyIsNoLonger(Split(s, '-'));
    JoinSplit(s, '-');
  }

  // ------------------------------------------------------------ which names are stable

  predicate IsDash(c: char) { c == '-' }

  /** Once the edge whitespace and then the edge dashes are gone, no whitespace shows at an
      edge. It fails for names like "- a", where whitespace sits next to an edge dash. */
  ghost predicate CleanEdges(value: string) {
    Trimmed(StripBy(IsDash, Fold(value)))
  }

  lemma LeadingDash(rest: string)
    ensures Core("-" + rest) == Core(rest)
  {
    hide Pieces;
    assert "-" + rest == "" + "-" + rest;
    PiecesAcrossDash("", rest);
    PiecesOfPiece("");
    assert [] + Pieces(rest) == Pieces(rest);
  }

  lemma TrailingDash(front: string)
    ensures Core(front + "-") == Core(front)
  {
    hide Pieces;
    assert front + "-" == front + "-" + "";
    PiecesAcrossDash(front, "");
    PiecesOfPiece("");
    assert Pieces(front) + [] == Pieces(front);
  }

  lemma {:induction false} CoreLStrip(s: string)
    ensures Core(LStrip(IsDash, s)) == Core(s)
  {
    hide Core;
    if s != "" && IsDash(s[0]) {
      CoreLStrip(s[1..]);
      LeadingDash(s[1..]);
      assert s == "-" + s[1..];
    }
  }

  lemma {:induction false} CoreRStrip(s: string)
    ensures Core(RStrip(IsDash, s)) == Core(s)
  {
    hide Core;
    if s != "" && IsDash(s[|s| - 1]) {
      var front := s[..|s| - 1];
      CoreRStrip(front);
      TrailingDash(front);
      assert s == front + "-";
    }
  }

  lemma FirstOfCore(s: string)
    requires s != "" && s[0] != '-'
    ensures Core(s) != "" && Core(s)[0] == s[0]
  {
    var k := Find(s, '-');
    if k == |s| {
      PiecesOfPiece(s);
    } else {
      CutAt(s, k);
      PiecesAcrossDash(s[..k], s[k + 1..]);
      PiecesOfPiece(s[..k]);
      var rest := Pieces(s[k + 1..]);
      assert ([s[..k]] + rest)[1..] == rest;
    }
  }

  lemma LastOfCore(s: string)
    requires s != "" && s[|s| - 1] != '-'
    ensures Core(s) != "" && Core(s)[|Core(s)| - 1] == s[|s| - 1]
  {
    if '-' in s {
      var k := LastDash(s);
      CoreWithSuffix(s[..k], s[k + 1..]);
    } else {
      PiecesOfPiece(s);
    }
  }

  lemma SameEdges(a: string, b: string)
    requires a != "" && b != "" && a[0] == b[0] && a[|a| - 1] == b[|b| - 1]
    ensures Trimmed(a) <==> Trimmed(b)
  {
  }

  lemma CoreTrimmed(s: string)
    requires TrimmedBy(IsDash, s)
    ensures s == "" ==> Core(s) == ""
    ensures s != "" ==> Core(s) != "" && (Trimmed(Core(s)) <==> Trimmed(s))
  {
    if s == "" {
      PiecesOfPiece("");
    } else {
      FirstOfCore(s);
      LastOfCore(s);
      SameEdges(Core(s), s);
    }
  }

  lemma CoreStripped(s: string)
    ensures Core(StripBy(IsDash, s)) == Core(s) && TrimmedBy(IsDash, StripBy(IsDash, s))
  {
    CoreLStrip(s);
    CoreRStrip(LStrip(IsDash, s));
    StripByTrims(IsDash, s);
  }

  lemma NormalEdges(value: string)
    ensures Trimmed(NormalizeSlug(value)) <==> CleanEdges(value)
  {
    var s := Fold(value);
    var inner := StripBy(IsDash, s);
    CoreStripped(s);
    CoreTrimmed(inner);
    assert NormalizeSlug(value) == if Core(s) == "" then "default" else Core(s);
  }

  /** Normalising twice is normalising once for exactly the names with clean edges. */
  lemma IdempotentExactlyWhenCleanEdges(value: string)
    ensures NormalizeSlug(NormalizeSlug(value)) == NormalizeSlug(value) <==> CleanEdges(value)
  {
    NormalizeGivesNormalForm(value);
    FixedExactlyWhenTrimmed(NormalizeSlug(value));
    NormalEdges(value);
  }

  // ------------------------------------------------------------ _unique_slug

  /** The n-th slug tried: the slug itself, then "-2", "-3", and so on. */
  function Candidate(slug: string, n: nat): string {
    if n == 0 then slug else slug + "-" + Dec(n + 1)
  }

  /** What is looked up for it: `get_tenant_by_slug` normalises its argument again. */
  function LookupKey(slug: string, n: nat): string {
    NormalizeSlug(Candidate(slug, n))
  }

  lemma {:induction false} StripBeforeDigits(s: string, d: string)
    requires d != "" && forall i :: 0 <= i < |d| ==> IsDigit(d[i])
    ensures Strip(s + "-" + d) == LStrip(IsSpace, s) + "-" + d
  {
    if s != "" && IsSpace(s[0]) {
      StripBeforeDigits(s[1..], d);
      assert (s + "-" + d)[1..] == s[1..] + "-" + d;
    } else {
      var t := s + "-" + d;
      assert t[|t| - 1] == d[|d| - 1];
      assert t[0] == if s == "" then '-' else s[0];
    }
  }

  function LookupPrefix(slug: string): string {
    var core := Core(ReplaceChar(Lower(LStrip(IsSpace, slug)), '_', '-'));
    if core == "" then "" else core + "-"
  }

  lemma NumberedKey(slug: string, n: nat)
    requires n > 0
    ensures LookupKey(slug, n) == LookupPrefix(slug) + Dec(n + 1)
  {
    hide Core, LStrip, StripBy;
    var d, l := Dec(n + 1), LStrip(IsSpace, slug);
    StripBeforeDigits(slug, d);
    var f := ReplaceChar(Lower(l), '_', '-');
    assert Fold(Candidate(slug, n)) == f + "-" + d;
    CoreWithSuffix(f, d);
  }

  lemma FirstKeyIsShorter(slug: string)
    requires Core(Fold(slug)) != ""
    ensures |LookupKey(slug, 0)| < |LookupPrefix(slug)|
  {
    var l := LStrip(IsSpace, slug);
    var t := RStrip(IsSpace, l);
    RStripPrefix(IsSpace, l);
    var f := ReplaceChar(Lower(l), '_', '-');
    assert Fold(slug) == f[..|t|];
    CoreOfPrefix(f, |t|);
  }

  lemma FirstKeyIsDifferent(slug: string, n: nat)
    requires n > 0
    ensures LookupKey(slug, 0) != LookupKey(slug, n)
  {
    NumberedKey(slug, n);
    var key, d := LookupKey(slug, n), Dec(n + 1);
    assert key[|key| - 1] == d[|d| - 1];
    if Core(Fold(slug)) == "" {
      assert "default"[6] == 't';
    } else {
      FirstKeyIsShorter(slug);
      assert |LookupKey(slug, n)| == |LookupPrefix(slug)| + |d|;
    }
  }

  lemma SamePrefix(p: string, a: string, b: string)
    requires p + a == p + b
    ensures a == b
  {
    assert a == (p + a)[|p|..] && b == (p + b)[|p|..];
  }

  /** No two tries look up the same key. */
  lemma KeysAreDistinct(slug: string, m: nat, n: nat)
    requires m != n
    ensures LookupKey(slug, m) != LookupKey(slug, n)
  {
    hide LookupKey, LookupPrefix, Dec;
    if m == 0 {
      FirstKeyIsDifferent(slug, n);
    } else if n == 0 {
      FirstKeyIsDifferent(slug, m);
    } else {
      NumberedKey(slug, m);
      NumberedKey(slug, n);
      if LookupKey(slug, m) == LookupKey(slug, n) {
        SamePrefix(LookupPrefix(slug), Dec(m + 1), Dec(n + 1));
        DecInjective(m + 1, n + 1);
      }
    }
  }

  ghost predicate AllTaken(slug: string, tries: nat, taken: set<string>) {
    forall j :: 0 <= j < tries ==> LookupKey(slug, j) in taken
  }

  lemma OneMoreTaken(slug: string, tries: nat, taken: set<string>)
    requires AllTaken(slug, tries, taken) && LookupKey(slug, tries) in taken
    ensures AllTaken(slug, tries + 1, taken)
  {
  }

  /** `result` is the first candidate whose look-up finds no tenant. */
  ghost predicate FirstFree(base: string, taken: set<string>, result: string, tries: nat) {
    var slug := NormalizeSlug(base);
    && result == Candidate(slug, tries)
    && LookupKey(slug, tries) !in taken
    && AllTaken(slug, tries, taken)
  }

  /** Only keys of earlier tries are in the set. */
  ghost predicate Found(slug: string, tries: nat, found: set<string>) {
    forall key :: key in found ==> exists j :: 0 <= j < tries && key == LookupKey(slug, j)
  }

  lemma NewKey(slug: string, tries: nat, found: set<string>)
    requires Found(slug, tries, found)
    ensures LookupKey(slug, tries) !in found
    ensures Found(slug, tries + 1, found + {LookupKey(slug, tries)})
  {
    forall j | 0 <= j < tries
      ensures LookupKey(slug, j) != LookupKey(slug, tries)
    {
      KeysAreDistinct(slug, j, tries);
    }
  }

  /** The search ends after at most |taken| + 1 look-ups, for any name and any set of slugs. */
  method UniqueSlug(base: string, taken: set<string>) returns (candidate: string, tries: nat)
    ensures FirstFree(base, taken, candidate, tries)
    ensures tries <= |taken|
  {
    hide NormalizeSlug, Dec;
    var slug := NormalizeSlug(base);
    candidate := slug;
    var counter := 2;
    tries := 0;
    ghost var found: set<string> := {};
    while NormalizeSlug(candidate) in taken
      invariant counter == tries + 2
      invariant candidate == Candidate(slug, tries)
      invariant found <= taken && |found| == tries
      invariant AllTaken(slug, tries, taken)
      invariant Found(slug, tries, found)
      invariant tries <= |taken|
      decreases |taken| - tries
    {
      ghost var key := LookupKey(slug, tries);
      NewKey(slug, tries, found);
      OneMoreTaken(slug, tries, taken);
      SubsetSize(found + {key}, taken);
      found := found + {key};
      candidate := slug + "-" + Dec(counter);
      counter := counter + 1;
      tries := tries + 1;
    }
  }

  lemma NumberedIsNormal(slug: string, n: nat)
    requires NormalForm(slug) && Trimmed(slug)
    ensures NormalizeSlug(Candidate(slug, n)) == Candidate(slug, n)
  {
    FixedExactlyWhenTrimmed(slug);
    if n > 0 {
      NumberedKey(slug, n);
      assert LStrip(IsSpace, slug) == slug;
      FoldedIsUnchanged(slug);
      NormalCore(slug);
    }
  }

  /** The slug returned is free, whatever slugs are taken, exactly for names with clean edges:
      otherwise the look-up asks about a different string than the one returned. */
  lemma ResultIsFreeExactlyWhenCleanEdges(base: string)
    ensures (forall taken, result, tries: nat :: FirstFree(base, taken, result, tries) ==> result !in taken)
       <==> CleanEdges(base)
  {
    var slug := NormalizeSlug(base);
    NormalizeGivesNormalForm(base);
    NormalEdges(base);
    FixedExactlyWhenTrimmed(slug);
    if CleanEdges(base) {
      forall taken, result, tries: nat | FirstFree(base, taken, result, tries)
        ensures result !in taken
      {
        NumberedIsNormal(slug, tries);
      }
    } else {
      assert FirstFree(base, {slug}, slug, 0);
    }
  }

  /** For a name with clean edges the result is itself in normal form. */
  lemma ResultIsNormal(base: string, taken: set<string>, result: string, tries: nat)
    requires CleanEdges(base) && FirstFree(base, taken, result, tries)
    ensures NormalForm(result) && NormalizeSlug(result) == result && result !in taken
  {
    NormalizeGivesNormalForm(base);
    NormalEdges(base);
    NumberedIsNormal(NormalizeSlug(base), tries);
    NormalizeGivesNormalForm(result);
  }

  // ------------------------------------------------------------ what becomes of the letters

  lemma {:induction false} LettersOfPieces(parts: seq<string>)
    ensures Without(Join(NonEmpty(parts), '-'), '-') == Without(Join(parts, '-'), '-')
  {
    hide Join, Without;
    if parts != [] {
      var rest := parts[1..];
      LettersOfPieces(rest);
      LettersOfJoin(parts);
      LettersOfJoin(NonEmpty(parts));
      if parts[0] != "" {
        assert ([parts[0]] + NonEmpty(rest))[1..] == NonEmpty(rest);
      } else {
        NothingWithout();
        assert "" + Without(Join(rest, '-'), '-') == Without(Join(rest, '-'), '-');
        assert [] + NonEmpty(rest) == NonEmpty(rest);
      }
    }
  }

  lemma LettersOfJoin(parts: seq<string>)
    ensures Without(Join(parts, '-'), '-') ==
            if parts == [] then "" else Without(parts[0], '-') + Without(Join(parts[1..], '-'), '-')
  {
    if |parts| == 1 {
      assert Without(parts[0], '-') + "" == Without(parts[0], '-');
    } else if |parts| > 1 {
      WithoutAppend(parts[0] + ['-'], Join(parts[1..], '-'), '-');
      WithoutAppend(parts[0], ['-'], '-');
      DashIsDropped();
      assert Without(parts[0], '-') + "" == Without(parts[0], '-');
    }
  }

  lemma DashIsDropped()
    ensures Without(['-'], '-') == ""
  {
    assert ['-'][1..] == "";
  }

  /** Apart from dashes and underscores, every character of the stripped, lower-cased name is in the
      slug, in order, and nothing else is; only a name without any gives "default". */
  lemma SlugKeepsLetters(value: string)
    ensures var letters := Without(ReplaceChar(Lower(Strip(value)), '_', '-'), '-');
            if letters == "" then NormalizeSlug(value) == "default"
            else Without(NormalizeSlug(value), '-') == letters
  {
    hide Strip, Lower, ReplaceChar, Split, Join, NonEmpty, Without;
    var s := Fold(value);
    LettersOfPieces(Split(s, '-'));
    JoinSplit(s, '-');
    assert Without(Core(s), '-') == Without(s, '-');
    if Core(s) == "" {
      NothingWithout();
    } else {
      SomethingLeft(s);
    }
  }

  lemma NothingWithout()
    ensures Without("", '-') == ""
  {
  }

  lemma SomethingLeft(s: string)
    requires Core(s) != ""
    ensures Without(s, '-') != ""
  {
    hide Core, Without;
    if Without(s, '-') == "" {
      OnlyDashes(s);
    }
  }

  lemma {:induction false} OnlyDashes(s: string)
    requires Without(s, '-') == ""
    ensures Core(s) == ""
  {
    hide Core;
    if s == "" {
      PiecesOfPiece("");
      CoreIsEmpty("");
    } else {
      OnlyDashes(s[1..]);
      LeadingDash(s[1..]);
      assert s == "-" + s[1..];
    }
  }

  /** Any run of dashes and underscores between two slugs becomes a single dash. */
  lemma SlugJoinsWords(a: string, run: string, b: string)
    requires NormalForm(a) && NormalForm(b) && Trimmed(a) && Trimmed(b)
    requires run != "" && forall i :: 0 <= i < |run| ==> run[i] == '-' || run[i] == '_'
    ensures NormalizeSlug(a + run + b) == a + "-" + b
  {
    hide Core;
    FoldsRun(a, run, b);
    NormalCore(a);
    NormalCore(b);
    CoreAcross(a, |run|, b);
  }

  lemma FoldsRun(a: string, run: string, b: string)
    requires NormalForm(a) && NormalForm(b) && Trimmed(a) && Trimmed(b)
    requires run != "" && forall i :: 0 <= i < |run| ==> run[i] == '-' || run[i] == '_'
    ensures Fold(a + run + b) == a + seq(|run|, _ => '-') + b
  {
    hide Split;
    var s := a + run + b;
    assert s[0] == a[0] && s[|s| - 1] == b[|b| - 1];
    StripFixedPoints(s);
  }

  lemma {:induction false} CoreAcross(a: string, n: nat, b: string)
    requires n > 0 && Core(a) == a && Core(b) == b && a != "" && b != ""
    ensures Core(a + seq(n, _ => '-') + b) == a + "-" + b
  {
    hide Core;
    var run := seq(n, _ => '-');
    if n == 1 {
      assert a + run + b == a + "-" + b;
      CoreAcrossOne(a, b);
    } else {
      assert a + run + b == a + seq(n - 1, _ => '-') + "-" + b;
      CoreAcross(a, n - 1, b);
      SameCoreAcross(a, n - 1, b);
    }
  }

  lemma CoreAcrossOne(a: string, b: string)
    requires Core(a) == a && Core(b) == b && a != "" && b != ""
    ensures Core(a + "-" + b) == a + "-" + b
  {
    hide Pieces, Join;
    PiecesAcrossDash(a, b);
    CoreIsEmpty(a);
    CoreIsEmpty(b);
    JoinAppend(Pieces(a), Pieces(b), '-');
  }

  lemma SameCoreAcross(a: string, n: nat, b: string)
    requires n > 0
    ensures Core(a + seq(n, _ => '-') + "-" + b) == Core(a + seq(n, _ => '-') + b)
  {
    hide Pieces;
    var run, front := seq(n, _ => '-'), seq(n - 1, _ => '-');
    assert a + run == (a + front) + "-" + "";
    assert a + run + b == (a + front) + "-" + b;
    PiecesAcrossDash(a + run, b);
    PiecesAcrossDash(a + front, "");
    PiecesAcrossDash(a + front, b);
    PiecesOfPiece("");
    assert Pieces(a + front) + [] == Pieces(a + front);
  }

  /** The slug found is the normalised name, or it with the first number from 2 on that is free. */
  lemma ResultIsNumbered(base: string, taken: set<string>, result: string, tries: nat)
    requires FirstFree(base, taken, result, tries)
    ensures var slug := NormalizeSlug(base);
            if tries == 0 then result == slug
            else
              && result == slug + "-" + Dec(tries + 1)
              && NormalizeSlug(slug) in taken
              && forall k :: 2 <= k <= tries ==> NormalizeSlug(slug + "-" + Dec(k)) in taken
  {
    hide NormalizeSlug;
    var slug := NormalizeSlug(base);
    assert tries > 0 ==> LookupKey(slug, 0) in taken;
    forall k | 2 <= k <= tries
      ensures NormalizeSlug(slug + "-" + Dec(k)) in taken
    {
      assert LookupKey(slug, k - 1) in taken;
    }
  }
}
