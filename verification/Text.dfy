/** The parts of Python's `str` that the modelled code leans on: stripping, splitting,
    joining, line splitting, lower-casing of ASCII letters and decimal printing. */
module Text {

  datatype Option<+T> = None | Some(value: T)

  // ------------------------------------------------------------ characters

  /** Characters that `str.strip()` and `str.split()` treat as whitespace. */
  predicate IsSpace(c: char) {
    || '\t' <= c <= '\r' || '\U{1C}' <= c <= ' '
    || c == '\U{85}' || c == '\U{A0}' || c == '\U{1680}'
    || '\U{2000}' <= c <= '\U{200A}'
    || c == '\U{2028}' || c == '\U{2029}' || c == '\U{202F}' || c == '\U{205F}' || c == '\U{3000}'
  }

  /** Characters at which `str.splitlines()` ends a line. */
  predicate IsLineBreak(c: char) {
    || '\n' <= c <= '\r' || '\U{1C}' <= c <= '\U{1E}'
    || c == '\U{85}' || c == '\U{2028}' || c == '\U{2029}'
  }

  predicate IsDigit(c: char) { '0' <= c <= '9' }

  function LowerChar(c: char): char {
    if 'A' <= c <= 'Z' then c - 'A' + 'a' else c
  }

  function UpperChar(c: char): char {
    if 'a' <= c <= 'z' then c - 'a' + 'A' else c
  }

  function Lower(s: string): (r: string)
    ensures |r| == |s| && forall i :: 0 <= i < |s| ==> r[i] == LowerChar(s[i])
  {
    seq(|s|, i requires 0 <= i < |s| => LowerChar(s[i]))
  }

  function Upper(s: string): (r: string)
    ensures |r| == |s| && forall i :: 0 <= i < |s| ==> r[i] == UpperChar(s[i])
  {
    seq(|s|, i requires 0 <= i < |s| => UpperChar(s[i]))
  }

  /** `s.replace(a, b)` for single characters. */
  function ReplaceChar(s: string, a: char, b: char): (r: string)
    ensures |r| == |s| && forall i :: 0 <= i < |s| ==> r[i] == if s[i] == a then b else s[i]
  {
    seq(|s|, i requires 0 <= i < |s| => if s[i] == a then b else s[i])
  }

  /** `s.replace(c, "")`. */
  function Without(s: string, c: char): (r: string)
    ensures c !in r
    ensures forall x :: x in r ==> x in s
  {
    if s == "" then "" else (if s[0] == c then "" else [s[0]]) + Without(s[1..], c)
  }

  lemma {:induction false} WithoutAppend(s: string, t: string, c: char)
    ensures Without(s + t, c) == Without(s, c) + Without(t, c)
  {
    if s == "" {
      assert s + t == t;
    } else {
      assert (s + t)[1..] == s[1..] + t;
      WithoutAppend(s[1..], t, c);
    }
  }

  lemma {:induction false} WithoutNothing(s: string, c: char)
    requires c !in s
    ensures Without(s, c) == s
  {
    if s != "" {
      WithoutNothing(s[1..], c);
    }
  }

  // ------------------------------------------------------------ stripping

  function LStrip(p: char -> bool, s: string): string {
    if s == "" || !p(s[0]) then s else LStrip(p, s[1..])
  }

  function RStrip(p: char -> bool, s: string): string {
    if s == "" || !p(s[|s| - 1]) then s else RStrip(p, s[..|s| - 1])
  }

  lemma DropDrop(s: string, j: nat, k: nat)
    requires j + k <= |s|
    ensures s[j..][k..] == s[j + k..]
  {
  }

  lemma TakeTake(s: string, j: nat, k: nat)
    requires k <= j <= |s|
    ensures s[..j][..k] == s[..k]
  {
  }

  lemma {:induction false} LStripSuffix(p: char -> bool, s: string)
    ensures |LStrip(p, s)| <= |s| && LStrip(p, s) == s[|s| - |LStrip(p, s)|..]
    ensures LStrip(p, s) == "" || !p(LStrip(p, s)[0])
  {
    if s != "" && p(s[0]) {
      LStripSuffix(p, s[1..]);
      DropDrop(s, 1, |s| - 1 - |LStrip(p, s[1..])|);
    }
  }

  lemma {:induction false} RStripPrefix(p: char -> bool, s: string)
    ensures |RStrip(p, s)| <= |s| && RStrip(p, s) == s[..|RStrip(p, s)|]
    ensures RStrip(p, s) == "" || !p(RStrip(p, s)[|RStrip(p, s)| - 1])
  {
    if s != "" && p(s[|s| - 1]) {
      RStripPrefix(p, s[..|s| - 1]);
      TakeTake(s, |s| - 1, |RStrip(p, s[..|s| - 1])|);
    }
  }

  function StripBy(p: char -> bool, s: string): string {
    RStrip(p, LStrip(p, s))
  }

  /** `s.strip()` */
  function Strip(s: string): string {
    StripBy(IsSpace, s)
  }

  ghost predicate TrimmedBy(p: char -> bool, s: string) {
    s == "" || (!p(s[0]) && !p(s[|s| - 1]))
  }

  /** No whitespace at either edge. */
  ghost predicate Trimmed(s: string) {
    TrimmedBy(IsSpace, s)
  }

  lemma StripByTrims(p: char -> bool, s: string)
    ensures TrimmedBy(p, StripBy(p, s))
    ensures forall c :: c in StripBy(p, s) ==> c in s
    ensures |StripBy(p, s)| <= |s|
    ensures TrimmedBy(p, s) ==> StripBy(p, s) == s
  {
    var l := LStrip(p, s);
    var r := RStrip(p, l);
    LStripSuffix(p, s);
    RStripPrefix(p, l);
    if r != "" {
      assert r[0] == l[0];
    }
  }

  /** Stripping changes nothing exactly when there is nothing to strip. */
  lemma StripFixedPoints(s: string)
    ensures Strip(s) == s <==> Trimmed(s)
    ensures Trimmed(Strip(s))
    ensures forall c :: c in Strip(s) ==> c in s
    ensures |Strip(s)| <= |s|
  {
    StripByTrims(IsSpace, s);
  }

  lemma StripLeadingSpace(s: string)
    ensures Strip(" " + s) == Strip(s)
  {
    var padded := " " + s;
    assert padded[0] == ' ' && padded[1..] == s;
    assert LStrip(IsSpace, padded) == LStrip(IsSpace, s);
  }

  // ------------------------------------------------------------ split and join

  lemma {:induction false} LStripDrops(p: char -> bool, s: string)
    ensures |LStrip(p, s)| <= |s|
    ensures forall j :: 0 <= j < |s| - |LStrip(p, s)| ==> p(s[j])
  {
    if s != "" && p(s[0]) {
      LStripDrops(p, s[1..]);
      assert forall j :: 0 < j < |s| ==> s[j] == s[1..][j - 1];
    }
  }

  lemma {:induction false} RStripDrops(p: char -> bool, s: string)
    ensures |RStrip(p, s)| <= |s|
    ensures forall j :: |RStrip(p, s)| <= j < |s| ==> p(s[j])
  {
    if s != "" && p(s[|s| - 1]) {
      RStripDrops(p, s[..|s| - 1]);
    }
  }

  /** `core` stands in `s` from position i on, with nothing but whitespace around it. */
  ghost predicate IsCore(s: string, core: string, i: nat) {
    && i + |core| <= |s| && s[i..i + |core|] == core
    && forall j :: 0 <= j < i || i + |core| <= j < |s| ==> IsSpace(s[j])
  }

  lemma StripIsCore(s: string) returns (i: nat)
    ensures IsCore(s, Strip(s), i) && Trimmed(Strip(s))
  {
    hide LStrip, RStrip, IsSpace;
    StripByTrims(IsSpace, s);
    var t := LStrip(IsSpace, s);
    LStripSuffix(IsSpace, s);
    LStripDrops(IsSpace, s);
    RStripPrefix(IsSpace, t);
    RStripDrops(IsSpace, t);
    i := |s| - |t|;
    SuffixCore(s, t, Strip(s), i);
  }

  lemma SuffixCore(s: string, t: string, core: string, i: nat)
    requires i <= |s| && t == s[i..] && |core| <= |t| && core == t[..|core|]
    requires forall j :: 0 <= j < i ==> IsSpace(s[j])
    requires forall j :: |core| <= j < |t| ==> IsSpace(t[j])
    ensures IsCore(s, core, i)
  {
    hide IsSpace;
    assert forall j :: i <= j < |s| ==> s[j] == t[j - i];
  }

  /** Stripping is exactly this: the string without the whitespace around its trimmed core. */
  lemma StripExactly(s: string, core: string)
    ensures Strip(s) == core <==> Trimmed(core) && exists i :: IsCore(s, core, i)
  {
    var i := StripIsCore(s);
    if Trimmed(core) && exists i :: IsCore(s, core, i) {
      var k :| IsCore(s, core, k);
      OneCore(s, core, k, Strip(s), i);
    }
  }

  lemma OneCore(s: string, a: string, i: nat, b: string, j: nat)
    requires IsCore(s, a, i) && IsCore(s, b, j) && Trimmed(a) && Trimmed(b)
    ensures a == b
  {
    if a != "" {
      assert a[0] == s[i] && a[|a| - 1] == s[i + |a| - 1];
    }
    if b != "" {
      assert b[0] == s[j] && b[|b| - 1] == s[j + |b| - 1];
    }
  }

  /** Index of the first occurrence of `c`, or the length when there is none. */
  function Find(s: string, c: char): (k: nat)
    ensures k <= |s| && c !in s[..k]
    ensures k < |s| ==> s[k] == c
    ensures k == |s| <==> c !in s
  {
    if s == "" then 0
    else if s[0] == c then 0
    else
      var k := Find(s[1..], c);
      assert s[..k + 1] == [s[0]] + s[1..][..k];
      assert s == [s[0]] + s[1..];
      k + 1
  }

  /** `s.split(sep)`; never empty. */
  function Split(s: string, sep: char): (parts: seq<string>)
    ensures parts != []
    ensures forall i :: 0 <= i < |parts| ==> sep !in parts[i]
    decreases |s|
  {
    var k := Find(s, sep);
    if k == |s| then [s] else [s[..k]] + Split(s[k + 1..], sep)
  }

  /** `sep.join(parts)` */
  function Join(parts: seq<string>, sep: char): string {
    if parts == [] then ""
    else if |parts| == 1 then parts[0]
    else parts[0] + [sep] + Join(parts[1..], sep)
  }

  lemma {:induction false} FindFirst(s: string, k: nat, c: char)
    requires k < |s| && s[k] == c
    requires forall i :: 0 <= i < k ==> s[i] != c
    ensures Find(s, c) == k
  {
    if k > 0 {
      FindFirst(s[1..], k - 1, c);
    }
  }

  lemma SplitAt(a: string, rest: string, sep: char)
    requires sep !in a
    ensures Split(a + [sep] + rest, sep) == [a] + Split(rest, sep)
  {
    var s := a + [sep] + rest;
    FindFirst(s, |a|, sep);
    assert s[..|a|] == a && s[|a| + 1..] == rest;
  }

  lemma SplitWhole(s: string, sep: char)
    requires sep !in s
    ensures Split(s, sep) == [s]
  {
  }

  /** Splitting undoes joining when no part contains the separator. */
  lemma {:induction false} SplitJoin(parts: seq<string>, sep: char)
    requires parts != []
    requires forall i :: 0 <= i < |parts| ==> sep !in parts[i]
    ensures Split(Join(parts, sep), sep) == parts
  {
    if |parts| == 1 {
      SplitWhole(parts[0], sep);
      assert parts == [parts[0]];
    } else {
      SplitJoin(parts[1..], sep);
      SplitAt(parts[0], Join(parts[1..], sep), sep);
      assert parts == [parts[0]] + parts[1..];
    }
  }

  /** Joining undoes splitting, always. */
  lemma {:induction false} JoinSplit(s: string, sep: char)
    ensures Join(Split(s, sep), sep) == s
    decreases |s|
  {
    var k := Find(s, sep);
    if k < |s| {
      var rest := s[k + 1..];
      JoinSplit(rest, sep);
      JoinCons(s[..k], Split(rest, sep), sep);
      CutAt(s, k);
    }
  }

  lemma JoinCons(head: string, tail: seq<string>, sep: char)
    requires tail != []
    ensures Join([head] + tail, sep) == head + [sep] + Join(tail, sep)
  {
    assert ([head] + tail)[1..] == tail;
  }

  lemma Assoc(head: string, tail: seq<string>, rest: seq<string>)
    ensures [head] + (tail + rest) == ([head] + tail) + rest
  {
  }

  lemma CutAt(s: string, k: nat)
    requires k < |s|
    ensures s == s[..k] + [s[k]] + s[k + 1..]
  {
  }

  lemma Regroup(a: string, b: string, c: string, d: string, e: string)
    ensures a + b + c + d + e == a + b + (c + d + e)
  {
  }

  lemma {:induction false} SplitAppend(a: string, b: string, sep: char)
    ensures Split(a + [sep] + b, sep) == Split(a, sep) + Split(b, sep)
    decreases |a|
  {
    var k := Find(a, sep);
    if k == |a| {
      SplitAt(a, b, sep);
    } else {
      var head, tail := a[..k], a[k + 1..];
      SplitAppend(tail, b, sep);
      var rest := tail + [sep] + b;
      CutAt(a, k);
      Regroup(head, [sep], tail, [sep], b);
      SplitAt(head, rest, sep);
      SplitAt(head, tail, sep);
      Assoc(head, Split(tail, sep), Split(b, sep));
    }
  }

  // ------------------------------------------------------------ lines

  /** Index of the first line break, or the length when there is none. */
  function LineEnd(s: string): (k: nat)
    ensures k <= |s|
    ensures forall i :: 0 <= i < k ==> !IsLineBreak(s[i])
    ensures k < |s| ==> IsLineBreak(s[k])
  {
    if s == "" || IsLineBreak(s[0]) then 0 else LineEnd(s[1..]) + 1
  }

  /** How many characters the break at `s[k]` takes: two for CR LF. */
  function BreakWidth(s: string, k: nat): (w: nat)
    requires k < |s|
    ensures 1 <= w && k + w <= |s|
  {
    if s[k] == '\r' && k + 1 < |s| && s[k + 1] == '\n' then 2 else 1
  }

  /** What follows the first line and its break. */
  function AfterLine(s: string): string
    requires LineEnd(s) < |s|
  {
    s[LineEnd(s) + BreakWidth(s, LineEnd(s))..]
  }

  /** `s.splitlines()` */
  function Lines(s: string): (lines: seq<string>)
    decreases |s|
  {
    if s == "" then []
    else if LineEnd(s) == |s| then [s]
    else [s[..LineEnd(s)]] + Lines(AfterLine(s))
  }

  ghost predicate SingleLine(s: string) {
    forall i :: 0 <= i < |s| ==> !IsLineBreak(s[i])
  }

  lemma {:induction false} LinesAreSingle(s: string)
    ensures forall i :: 0 <= i < |Lines(s)| ==> SingleLine(Lines(s)[i])
    decreases |s|
  {
    if s != "" && LineEnd(s) < |s| {
      LinesAreSingle(AfterLine(s));
    }
  }

  lemma LineEndAppend(a: string, b: string)
    ensures LineEnd(a + b) == if LineEnd(a) < |a| then LineEnd(a) else |a| + LineEnd(b)
  {
    if a == "" {
      assert a + b == b;
    } else if !IsLineBreak(a[0]) {
      assert (a + b)[1..] == a[1..] + b;
      LineEndAppend(a[1..], b);
    }
  }

  lemma SingleLineEnd(a: string)
    requires SingleLine(a)
    ensures LineEnd(a) == |a|
  {
  }

  /** A line without breaks, ended by a line feed, is split off on its own. */
  lemma LinesStep(a: string, rest: string)
    requires SingleLine(a)
    ensures Lines(a + "\n" + rest) == [a] + Lines(rest)
  {
    var s := a + "\n" + rest;
    assert s == a + ("\n" + rest);
    SingleLineEnd(a);
    LineEndAppend(a, "\n" + rest);
    assert LineEnd(s) == |a|;
    assert s[..|a|] == a;
    assert AfterLine(s) == rest;
  }

  lemma CutAppend(a: string, b: string, k: nat, m: nat)
    requires k <= m <= |a|
    ensures (a + b)[..k] == a[..k] && (a + b)[m..] == a[m..] + b
  {
  }

  // ------------------------------------------------------------ decimal numbers

  function DigitChar(d: nat): (c: char)
    requires d < 10
    ensures IsDigit(c)
  {
    '0' + d as char
  }

  function DigitValue(c: char): (d: nat)
    requires IsDigit(c)
    ensures d < 10
  {
    (c - '0') as nat
  }

  /** `str(n)` */
  function Dec(n: nat): (s: string)
    ensures s != "" && forall i :: 0 <= i < |s| ==> IsDigit(s[i])
  {
    if n < 10 then [DigitChar(n)] else Dec(n / 10) + [DigitChar(n % 10)]
  }

  /** The number a string of digits denotes. */
  function DecValue(s: string): nat
    requires forall i :: 0 <= i < |s| ==> IsDigit(s[i])
  {
    if s == "" then 0 else 10 * DecValue(s[..|s| - 1]) + DigitValue(s[|s| - 1])
  }

  lemma {:induction false} DecRoundTrip(n: nat)
    ensures DecValue(Dec(n)) == n
  {
    if n < 10 {
      assert DecValue("") == 0;
      assert Dec(n)[..0] == "";
    } else {
      DecRoundTrip(n / 10);
      assert Dec(n)[..|Dec(n)| - 1] == Dec(n / 10);
    }
  }

  /** Decimal printing is injective. */
  lemma DecInjective(m: nat, n: nat)
    requires Dec(m) == Dec(n)
    ensures m == n
  {
    DecRoundTrip(m);
    DecRoundTrip(n);
  }

  // ------------------------------------------------------------ substrings

  predicate StartsWith(s: string, prefix: string) {
    |prefix| <= |s| && forall i :: 0 <= i < |prefix| ==> s[i] == prefix[i]
  }

  /** `needle in s` */
  predicate Contains(s: string, needle: string) {
    StartsWith(s, needle) || (s != "" && Contains(s[1..], needle))
  }

  /** `needle` stands in `s` from position i on. */
  ghost predicate Occurs(s: string, needle: string, i: nat) {
    i + |needle| <= |s| && s[i..i + |needle|] == needle
  }

  lemma OccursLeft(a: string, b: string, needle: string, i: nat)
    requires i + |needle| <= |a|
    ensures Occurs(a + b, needle, i) <==> Occurs(a, needle, i)
  {
    assert (a + b)[i..i + |needle|] == a[i..i + |needle|];
  }

  lemma OccursRight(a: string, b: string, needle: string, i: nat)
    ensures Occurs(a + b, needle, |a| + i) <==> Occurs(b, needle, i)
  {
    if i + |needle| <= |b| {
      assert (a + b)[|a| + i..|a| + i + |needle|] == b[i..i + |needle|];
    }
  }

  lemma {:induction false} ContainsExactly(s: string, needle: string)
    ensures Contains(s, needle) <==> exists i: nat :: Occurs(s, needle, i)
  {
    assert StartsWith(s, needle) <==> Occurs(s, needle, 0);
    if s != "" {
      ContainsExactly(s[1..], needle);
      assert s == s[..1] + s[1..];
      forall i: nat
        ensures Occurs(s, needle, i + 1) <==> Occurs(s[1..], needle, i)
      {
        OccursRight(s[..1], s[1..], needle, i);
      }
      if i: nat :| Occurs(s, needle, i) && i > 0 {
        assert Occurs(s[1..], needle, i - 1);
      }
    }
  }

  /** A needle without the separator is in a joined text exactly if it is in one of the parts. */
  lemma {:induction false} ContainsJoined(parts: seq<string>, sep: char, needle: string)
    requires needle != "" && sep !in needle
    ensures Contains(Join(parts, sep), needle) <==> exists i :: 0 <= i < |parts| && Contains(parts[i], needle)
  {
    if |parts| > 1 {
      ContainsJoined(parts[1..], sep, needle);
      ContainsAcross(parts[0], sep, Join(parts[1..], sep), needle);
      assert forall i :: 0 < i < |parts| ==> parts[i] == parts[1..][i - 1];
    } else if parts == [] {
      assert !Contains("", needle);
    }
  }

  lemma ContainsAcross(a: string, sep: char, b: string, needle: string)
    requires needle != "" && sep !in needle
    ensures Contains(a + [sep] + b, needle) <==> Contains(a, needle) || Contains(b, needle)
  {
    hide Contains;
    var s := a + [sep] + b;
    ContainsExactly(s, needle);
    ContainsExactly(a, needle);
    ContainsExactly(b, needle);
    if i: nat :| Occurs(s, needle, i) {
      if i + |needle| <= |a| {
        assert s == a + ([sep] + b);
        OccursLeft(a, [sep] + b, needle, i);
      } else if i > |a| {
        OccursRight(a + [sep], b, needle, i - |a| - 1);
      } else {
        SeparatorInside(s, needle, i, |a|);
      }
    }
    if i: nat :| Occurs(a, needle, i) {
      assert s == a + ([sep] + b);
      OccursLeft(a, [sep] + b, needle, i);
    }
    if i: nat :| Occurs(b, needle, i) {
      OccursRight(a + [sep], b, needle, i);
    }
  }

  lemma SeparatorInside(s: string, needle: string, i: nat, k: nat)
    requires Occurs(s, needle, i) && i <= k < i + |needle|
    ensures s[k] in needle
  {
    assert s[i..i + |needle|][k - i] == s[k];
  }
}
