/** Compose project names (app/services/docker_engine.py). */
module DockerEngine {
  import opened Text

  /** A character the name pattern keeps. */
  predicate IsNameChar(c: char) {
    'a' <= c <= 'z' || IsDigit(c) || c == '_' || c == '-'
  }

  predicate IsEdge(c: char) { c == '-' || c == '_' }

  /** Every run of other characters becomes one dash; `inRun` is set inside such a run. */
  function Squash(s: string, inRun: bool): string {
    if s == "" then ""
    else if IsNameChar(s[0]) then [s[0]] + Squash(s[1..], false)
    else (if inRun then "" else "-") + Squash(s[1..], true)
  }

  function SanitizeProjectName(name: string): string {
    var slug := StripBy(IsEdge, Squash(Lower(Strip(name)), false));
    if slug == "" then "app" else slug
  }

  /** What compose accepts: lower-case letters, digits, dashes and underscores, and a letter or
      digit to start with. */
  ghost predicate IsProjectName(s: string) {
    s != "" && (forall i :: 0 <= i < |s| ==> IsNameChar(s[i])) && !IsEdge(s[0])
  }

  /** What sanitising aims at: a letter or digit at the end as well. */
  ghost predicate IsSanitized(s: string) {
    IsProjectName(s) && !IsEdge(s[|s| - 1])
  }

  lemma {:induction false} SquashKeepsNameChars(s: string, inRun: bool)
    ensures forall c :: c in Squash(s, inRun) ==> IsNameChar(c)
  {
    if s != "" {
      SquashKeepsNameChars(s[1..], !IsNameChar(s[0]));
    }
  }

  lemma {:induction false} SquashChangesNothing(s: string)
    requires forall i :: 0 <= i < |s| ==> IsNameChar(s[i])
    ensures Squash(s, false) == s
  {
    if s != "" {
      SquashChangesNothing(s[1..]);
    }
  }

  /** Whatever the name, the result is a legal project name. */
  lemma SanitizedIsProjectName(name: string)
    ensures IsSanitized(SanitizeProjectName(name))
  {
    var squashed := Squash(Lower(Strip(name)), false);
    SquashKeepsNameChars(Lower(Strip(name)), false);
    StripByTrims(IsEdge, squashed);
  }

  lemma SanitizedIsFixed(s: string)
    requires IsSanitized(s)
    ensures SanitizeProjectName(s) == s
  {
    NameIsStrippedAndLower(s);
    SquashChangesNothing(s);
    StripByTrims(IsEdge, s);
  }

  lemma NameIsStrippedAndLower(s: string)
    requires forall i :: 0 <= i < |s| ==> IsNameChar(s[i])
    ensures Strip(s) == s && Lower(s) == s
  {
    StripFixedPoints(s);
  }

  /** Sanitising leaves a string alone exactly when it is a legal project name that does not end in
      a dash or underscore; so "app-", although legal, becomes another name. */
  lemma FixedExactlyProjectNames(s: string)
    ensures SanitizeProjectName(s) == s <==> IsProjectName(s) && !IsEdge(s[|s| - 1])
  {
    SanitizedIsProjectName(s);
    if IsSanitized(s) {
      SanitizedIsFixed(s);
    }
  }

  /** Sanitising twice is sanitising once. */
  lemma SanitizeIsIdempotent(name: string)
    ensures SanitizeProjectName(SanitizeProjectName(name)) == SanitizeProjectName(name)
  {
    SanitizedIsProjectName(name);
    SanitizedIsFixed(SanitizeProjectName(name));
  }

  lemma {:induction false} SquashAppend(a: string, b: string)
    requires forall i :: 0 <= i < |a| ==> IsNameChar(a[i])
    ensures Squash(a + b, false) == a + Squash(b, false)
  {
    if a == "" {
      assert a + b == b;
    } else {
      assert (a + b)[1..] == a[1..] + b;
      SquashAppend(a[1..], b);
    }
  }

  lemma {:induction false} SquashRun(run: string, b: string, inRun: bool)
    requires forall i :: 0 <= i < |run| ==> !IsNameChar(run[i])
    requires b != "" && IsNameChar(b[0])
    ensures Squash(run + b, inRun) == (if run == "" || inRun then "" else "-") + Squash(b, false)
  {
    if run == "" {
      assert run + b == b;
    } else {
      assert (run + b)[1..] == run[1..] + b;
      SquashRun(run[1..], b, true);
    }
  }

  /** Any run of characters that names cannot have, between two sanitised names, becomes a single
      dash; in particular no letter or digit is lost. */
  lemma SanitizeJoinsWords(a: string, run: string, b: string)
    requires IsSanitized(a) && IsSanitized(b)
    requires run != "" && forall i :: 0 <= i < |run| ==> !IsNameChar(LowerChar(run[i]))
    ensures SanitizeProjectName(a + run + b) == a + "-" + b
  {
    hide StripBy, Squash, IsSanitized, Strip;
    FoldedName(a, run, b);
    SquashedName(a, Lower(run), b);
  }

  lemma FoldedName(a: string, run: string, b: string)
    requires IsSanitized(a) && IsSanitized(b)
    ensures Lower(Strip(a + run + b)) == a + Lower(run) + b
  {
    hide IsSpace, Strip, LowerChar;
    var name := a + run + b;
    NameIsStrippedAndLower(a);
    NameIsStrippedAndLower(b);
    EdgesAreNoSpace(a);
    EdgesAreNoSpace(b);
    assert name[0] == a[0] && name[|name| - 1] == b[|b| - 1];
    StripFixedPoints(name);
    LowerOfThree(a, run, b);
  }

  lemma LowerOfThree(a: string, run: string, b: string)
    requires Lower(a) == a && Lower(b) == b
    ensures Lower(a + run + b) == a + Lower(run) + b
  {
    hide LowerChar;
    assert forall i :: 0 <= i < |a| ==> LowerChar(a[i]) == a[i];
    assert forall i :: 0 <= i < |b| ==> LowerChar(b[i]) == b[i];
  }

  lemma SquashedName(a: string, run: string, b: string)
    requires IsSanitized(a) && IsSanitized(b)
    requires run != "" && forall i :: 0 <= i < |run| ==> !IsNameChar(run[i])
    ensures StripBy(IsEdge, Squash(a + run + b, false)) == a + "-" + b
  {
    hide StripBy, Squash, IsNameChar;
    assert a + run + b == a + (run + b);
    SquashAppend(a, run + b);
    SquashRun(run, b, false);
    SquashChangesNothing(b);
    var joined := a + "-" + b;
    assert a + ("-" + b) == joined;
    assert joined[0] == a[0] && joined[|joined| - 1] == b[|b| - 1];
    TrimmedStays(joined);
  }

  lemma TrimmedStays(s: string)
    requires TrimmedBy(IsEdge, s)
    ensures StripBy(IsEdge, s) == s
  {
  }

  lemma EdgesAreNoSpace(s: string)
    requires IsSanitized(s)
    ensures !IsSpace(s[0]) && !IsSpace(s[|s| - 1])
  {
  }

  /** Case and surrounding whitespace make no difference. */
  lemma SanitizeIgnoresCase(name: string)
    ensures SanitizeProjectName(Lower(Strip(name))) == SanitizeProjectName(name)
  {
    hide StripBy, Squash;
    var s := Strip(name);
    StripByTrims(IsSpace, name);
    LowerKeepsEdges(s);
    StripFixedPoints(Lower(s));
    assert Lower(Lower(s)) == Lower(s);
  }

  lemma LowerKeepsEdges(s: string)
    requires Trimmed(s)
    ensures Trimmed(Lower(s))
  {
    assert forall c :: IsSpace(LowerChar(c)) <==> IsSpace(c);
  }
}
