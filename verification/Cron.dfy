/** The cron matcher (app/services/cron.py) against the grammar its documentation gives: `*`
    alone, or a comma list of steps, ranges and numbers, in five fields. */
module Cron {
  import opened Text

  // ------------------------------------------------------------ Python's int() and split()

  predicate AllDigits(s: string) {
    forall i :: 0 <= i < |s| ==> IsDigit(s[i])
  }

  /** Digits, with single underscores allowed between them. */
  predicate IsNumeral(s: string) {
    && s != "" && IsDigit(s[0]) && IsDigit(s[|s| - 1])
    && (forall i :: 0 <= i < |s| ==> IsDigit(s[i]) || s[i] == '_')
    && (forall i, j :: 0 <= i < |s| && j == i + 1 && j < |s| ==> s[i] != '_' || s[j] != '_')
  }

  lemma {:induction false} WithoutKeepsDigits(s: string)
    requires forall i :: 0 <= i < |s| ==> IsDigit(s[i]) || s[i] == '_'
    ensures AllDigits(Without(s, '_'))
  {
    if s != "" {
      WithoutKeepsDigits(s[1..]);
    }
  }

  function NumeralValue(s: string): nat
    requires IsNumeral(s)
  {
    WithoutKeepsDigits(s);
    DecValue(Without(s, '_'))
  }

  /** `int(s)`; None stands for ValueError. */
  function ParseInt(s: string): Option<int> {
    var t := Strip(s);
    if IsNumeral(t) then Some(NumeralValue(t))
    else if t != "" && (t[0] == '+' || t[0] == '-') && IsNumeral(t[1..]) then
      var magnitude: int := NumeralValue(t[1..]);
      Some(if t[0] == '-' then -magnitude else magnitude)
    else None
  }

  function WordEnd(s: string): (k: nat)
    ensures k <= |s|
    ensures s != "" && !IsSpace(s[0]) ==> k > 0
  {
    if s == "" || IsSpace(s[0]) then 0 else 1 + WordEnd(s[1..])
  }

  lemma {:induction false} LStripShorter(s: string)
    ensures |LStrip(IsSpace, s)| <= |s|
    ensures LStrip(IsSpace, s) != "" ==> WordEnd(LStrip(IsSpace, s)) > 0
  {
    LStripSuffix(IsSpace, s);
  }

  /** `s.split()` */
  function Words(s: string): seq<string>
    decreases |s|
  {
    LStripShorter(s);
    var t := LStrip(IsSpace, s);
    if t == "" then [] else [t[..WordEnd(t)]] + Words(t[WordEnd(t)..])
  }

  // ------------------------------------------------------------ the matcher

  /** One stripped item of a comma list. */
  predicate MatchPart(part: string, value: nat) {
    if StartsWith(part, "*/") then
      var step := ParseInt(part[2..]);
      step.Some? && step.value > 0 && value % step.value == 0
    else if '-' in part then
      var k := Find(part, '-');
      var a, b := ParseInt(part[..k]), ParseInt(part[k + 1..]);
      a.Some? && b.Some? && a.value <= value <= b.value
    else
      part != "" && AllDigits(part) && DecValue(part) == value
  }

  /** `_match_field` */
  predicate MatchField(spec: string, value: nat) {
    var s := Strip(spec);
    var parts := Split(s, ',');
    s == "*" || exists i :: 0 <= i < |parts| && MatchPart(Strip(parts[i]), value)
  }

  /** A point in time; `dow` counts from Sunday = 0. */
  datatype Moment = Moment(minute: nat, hour: nat, day: nat, month: nat, dow: nat)

  /** On Sundays every 7 in the day-of-week field is rewritten to 0. */
  function SundayRewrite(dow: string, when: Moment): string {
    if when.dow == 0 then ReplaceChar(dow, '7', '0') else dow
  }

  predicate CronMatches(expr: string, when: Moment) {
    var fields := Words(expr);
    && |fields| == 5
    && MatchField(fields[0], when.minute)
    && MatchField(fields[1], when.hour)
    && MatchField(fields[2], when.day)
    && MatchField(fields[3], when.month)
    && MatchField(SundayRewrite(fields[4], when), when.dow)
  }

  predicate DigitWords(words: seq<string>) {
    forall i :: 0 <= i < |words| ==> words[i] == "" || AllDigits(words[i])
  }

  predicate ValidPart(part: string) {
    part == "*" || part == "" ||
    var token := if StartsWith(part, "*/") then part[2..] else part;
    DigitWords(Words(ReplaceChar(ReplaceChar(token, '-', ' '), '/', ' ')))
  }

  predicate ValidField(field: string) {
    var parts := Split(field, ',');
    forall i :: 0 <= i < |parts| ==> ValidPart(Strip(parts[i]))
  }

  predicate IsValidCron(expr: string) {
    var fields := Words(expr);
    |fields| == 5 && forall i :: 0 <= i < 5 ==> ValidField(fields[i])
  }

  // ------------------------------------------------------------ the documented grammar

  datatype Term = Every(step: nat) | Range(lo: nat, hi: nat) | Number(n: nat)

  datatype Field = Star | Terms(terms: seq<Term>)

  ghost predicate WellFormed(f: Field) {
    f.Terms? ==> f.terms != []
  }

  function PrintTerm(t: Term): string {
    match t
    case Every(step) => "*/" + Dec(step)
    case Range(lo, hi) => Dec(lo) + "-" + Dec(hi)
    case Number(n) => Dec(n)
  }

  function PrintTerms(terms: seq<Term>): (parts: seq<string>)
    ensures |parts| == |terms|
  {
    seq(|terms|, i requires 0 <= i < |terms| => PrintTerm(terms[i]))
  }

  function PrintField(f: Field): string {
    match f
    case Star => "*"
    case Terms(terms) => Join(PrintTerms(terms), ',')
  }

  /** The values a term stands for. */
  ghost predicate Covers(t: Term, value: nat) {
    match t
    case Every(step) => step > 0 && value % step == 0
    case Range(lo, hi) => lo <= value <= hi
    case Number(n) => n == value
  }

  ghost predicate Denotes(f: Field, value: nat) {
    f.Star? || exists i :: 0 <= i < |f.terms| && Covers(f.terms[i], value)
  }

  // ------------------------------------------------------------ reading back what was printed

  /** Characters of a printed term. */
  ghost predicate TermChars(s: string) {
    forall i :: 0 <= i < |s| ==> IsDigit(s[i]) || s[i] == '-' || s[i] == '*' || s[i] == '/'
  }

  lemma PrintedTermChars(t: Term)
    ensures PrintTerm(t) != "" && TermChars(PrintTerm(t))
  {
  }

  lemma StripTermChars(s: string)
    requires TermChars(s)
    ensures Strip(s) == s
  {
    StripFixedPoints(s);
  }

  lemma {:induction false} ParseDec(n: nat)
    ensures ParseInt(Dec(n)) == Some(n)
  {
    var d := Dec(n);
    StripFixedPoints(d);
    WithoutNothing(d, '_');
    DecRoundTrip(n);
  }

  lemma MatchEvery(step: nat, value: nat)
    ensures MatchPart("*/" + Dec(step), value) <==> step > 0 && value % step == 0
  {
    var s := "*/" + Dec(step);
    assert s[2..] == Dec(step);
    ParseDec(step);
  }

  lemma MatchRange(lo: nat, hi: nat, value: nat)
    ensures MatchPart(Dec(lo) + "-" + Dec(hi), value) <==> lo <= value <= hi
  {
    var s, k := Dec(lo) + "-" + Dec(hi), |Dec(lo)|;
    assert s[k] == '-' && s[..k] == Dec(lo) && s[k + 1..] == Dec(hi);
    FindFirst(s, k, '-');
    assert IsDigit(s[0]) && s[0] != '*';
    ParseDec(lo);
    ParseDec(hi);
  }

  lemma MatchNumber(n: nat, value: nat)
    ensures MatchPart(Dec(n), value) <==> n == value
  {
    assert IsDigit(Dec(n)[0]);
    DecRoundTrip(n);
  }

  lemma MatchPrintedTerm(t: Term, value: nat)
    ensures MatchPart(PrintTerm(t), value) <==> Covers(t, value)
  {
    match t
    case Every(step) => MatchEvery(step, value);
    case Range(lo, hi) => MatchRange(lo, hi, value);
    case Number(n) => MatchNumber(n, value);
  }

  ghost predicate FieldChars(s: string) {
    forall i :: 0 <= i < |s| ==> IsDigit(s[i]) || s[i] == '-' || s[i] == '*' || s[i] == '/' || s[i] == ','
  }

  lemma {:induction false} JoinedTermChars(parts: seq<string>)
    requires forall i :: 0 <= i < |parts| ==> TermChars(parts[i])
    ensures FieldChars(Join(parts, ','))
  {
    if |parts| > 1 {
      JoinedTermChars(parts[1..]);
    }
  }

  lemma PrintedFieldChars(f: Field)
    requires WellFormed(f)
    ensures PrintField(f) != "" && FieldChars(PrintField(f))
    ensures Strip(PrintField(f)) == PrintField(f)
    ensures f.Terms? ==> PrintField(f) != "*"
    ensures f.Terms? ==> Split(PrintField(f), ',') == PrintTerms(f.terms)
  {
    if f.Terms? {
      PrintedTermsChars(f.terms);
    }
    FieldCharsTrimmed(PrintField(f));
  }

  lemma PrintedTermsChars(terms: seq<Term>)
    requires terms != []
    ensures var s := Join(PrintTerms(terms), ',');
            s != "" && FieldChars(s) && s != "*" && Split(s, ',') == PrintTerms(terms)
  {
    hide PrintTerm, Split;
    var parts := PrintTerms(terms);
    forall i | 0 <= i < |parts|
      ensures parts[i] != "" && TermChars(parts[i]) && ',' !in parts[i]
    {
      PrintedTermChars(terms[i]);
    }
    JoinedTermChars(parts);
    SplitJoin(parts, ',');
    NotAStar(terms[0]);
    if |parts| > 1 {
      assert |Join(parts, ',')| >= 2;
    }
  }

  lemma NotAStar(t: Term)
    ensures PrintTerm(t) != "*"
  {
    match t
    case Every(step) => assert |PrintTerm(t)| > 1;
    case Range(lo, hi) => assert |PrintTerm(t)| > 1;
    case Number(n) => assert IsDigit(PrintTerm(t)[0]);
  }

  /** For every field of the grammar and every value, running the matcher on the printed field
      agrees with the set of values the field stands for. */
  lemma FieldMeaning(f: Field, value: nat)
    requires WellFormed(f)
    ensures MatchField(PrintField(f), value) <==> Denotes(f, value)
  {
    PrintedFieldChars(f);
    if f.Terms? {
      var parts := PrintTerms(f.terms);
      forall i | 0 <= i < |parts|
        ensures MatchPart(Strip(parts[i]), value) <==> Covers(f.terms[i], value)
      {
        PrintedTermChars(f.terms[i]);
        StripTermChars(parts[i]);
        MatchPrintedTerm(f.terms[i], value);
      }
    }
  }

  // ------------------------------------------------------------ whole expressions

  datatype Expr = Expr(minute: Field, hour: Field, day: Field, month: Field, dow: Field)

  ghost predicate WellFormedExpr(e: Expr) {
    WellFormed(e.minute) && WellFormed(e.hour) && WellFormed(e.day) && WellFormed(e.month) && WellFormed(e.dow)
  }

  function PrintExpr(e: Expr): string {
    PrintField(e.minute) + " " + (PrintField(e.hour) + " " + (PrintField(e.day) + " "
    + (PrintField(e.month) + " " + PrintField(e.dow))))
  }

  ghost predicate IsWord(s: string) {
    s != "" && forall i :: 0 <= i < |s| ==> !IsSpace(s[i])
  }

  lemma {:induction false} WordEndOf(w: string, rest: string)
    requires forall i :: 0 <= i < |w| ==> !IsSpace(w[i])
    requires rest == "" || IsSpace(rest[0])
    ensures WordEnd(w + rest) == |w|
  {
    if w == "" {
      assert w + rest == rest;
    } else {
      assert (w + rest)[1..] == w[1..] + rest;
      WordEndOf(w[1..], rest);
    }
  }

  lemma WordsStep(w: string, rest: string)
    requires IsWord(w) && (rest == "" || IsSpace(rest[0]))
    ensures Words(w + rest) == [w] + Words(rest)
  {
    WordEndOf(w, rest);
    assert LStrip(IsSpace, w + rest) == w + rest;
    assert (w + rest)[..|w|] == w && (w + rest)[|w|..] == rest;
  }

  lemma WordsSpace(s: string)
    ensures Words(" " + s) == Words(s)
  {
    assert (" " + s)[1..] == s;
    assert LStrip(IsSpace, " " + s) == LStrip(IsSpace, s);
  }

  lemma WordsCons(w: string, rest: string)
    requires IsWord(w)
    ensures Words(w + " " + rest) == [w] + Words(rest)
  {
    assert w + " " + rest == w + (" " + rest);
    WordsStep(w, " " + rest);
    WordsSpace(rest);
  }

  lemma WordsOne(w: string)
    requires IsWord(w)
    ensures Words(w) == [w]
  {
    assert w + "" == w;
    WordsStep(w, "");
  }

  lemma FieldIsWord(f: Field)
    requires WellFormed(f)
    ensures IsWord(PrintField(f))
  {
    PrintedFieldChars(f);
  }

  lemma FiveWords(a: string, b: string, c: string, d: string, e: string)
    requires IsWord(a) && IsWord(b) && IsWord(c) && IsWord(d) && IsWord(e)
    ensures Words(a + " " + (b + " " + (c + " " + (d + " " + e)))) == [a, b, c, d, e]
  {
    hide Words, IsWord;
    WordsOne(e);
    WordsCons(d, e);
    WordsCons(c, d + " " + e);
    WordsCons(b, c + " " + (d + " " + e));
    WordsCons(a, b + " " + (c + " " + (d + " " + e)));
  }

  lemma PrintedExprFields(e: Expr)
    requires WellFormedExpr(e)
    ensures Words(PrintExpr(e)) ==
            [PrintField(e.minute), PrintField(e.hour), PrintField(e.day), PrintField(e.month), PrintField(e.dow)]
  {
    FieldIsWord(e.minute);
    FieldIsWord(e.hour);
    FieldIsWord(e.day);
    FieldIsWord(e.month);
    FieldIsWord(e.dow);
    FiveWords(PrintField(e.minute), PrintField(e.hour), PrintField(e.day), PrintField(e.month), PrintField(e.dow));
  }

  // ------------------------------------------------------------ Sundays

  /** Day-of-week fields speak of the days 0 to 7. */
  ghost predicate DayTerm(t: Term) {
    match t
    case Every(step) => step <= 7
    case Range(lo, hi) => lo <= 7 && hi <= 7
    case Number(n) => n <= 7
  }

  ghost predicate DayField(f: Field) {
    WellFormed(f) && (f.Terms? ==> forall i :: 0 <= i < |f.terms| ==> DayTerm(f.terms[i]))
  }

  function SevenToZero(n: nat): nat {
    if n == 7 then 0 else n
  }

  /** What the rewrite makes of a term. */
  function RewriteTerm(t: Term): Term {
    match t
    case Every(step) => Every(SevenToZero(step))
    case Range(lo, hi) => Range(SevenToZero(lo), SevenToZero(hi))
    case Number(n) => Number(SevenToZero(n))
  }

  function RewriteTerms(terms: seq<Term>): (r: seq<Term>)
    ensures |r| == |terms|
  {
    seq(|terms|, i requires 0 <= i < |terms| => RewriteTerm(terms[i]))
  }

  function RewriteField(f: Field): Field {
    if f.Star? then Star else Terms(RewriteTerms(f.terms))
  }

  lemma ReplaceAppend(s: string, t: string, a: char, b: char)
    ensures ReplaceChar(s + t, a, b) == ReplaceChar(s, a, b) + ReplaceChar(t, a, b)
  {
  }

  lemma DecOfDay(n: nat)
    requires n <= 7
    ensures ReplaceChar(Dec(n), '7', '0') == Dec(SevenToZero(n))
  {
  }

  lemma RewritePrintedTerm(t: Term)
    requires DayTerm(t)
    ensures ReplaceChar(PrintTerm(t), '7', '0') == PrintTerm(RewriteTerm(t))
  {
    match t
    case Every(step) =>
      DecOfDay(step);
      ReplaceAppend("*/", Dec(step), '7', '0');
      assert ReplaceChar("*/", '7', '0') == "*/";
    case Range(lo, hi) =>
      DecOfDay(lo);
      DecOfDay(hi);
      ReplaceAppend(Dec(lo) + "-", Dec(hi), '7', '0');
      ReplaceAppend(Dec(lo), "-", '7', '0');
      assert ReplaceChar("-", '7', '0') == "-";
    case Number(n) => DecOfDay(n);
  }

  lemma {:induction false} RewriteJoined(terms: seq<Term>)
    requires forall i :: 0 <= i < |terms| ==> DayTerm(terms[i])
    ensures ReplaceChar(Join(PrintTerms(terms), ','), '7', '0') == Join(PrintTerms(RewriteTerms(terms)), ',')
  {
    if terms != [] {
      RewritePrintedTerm(terms[0]);
      if |terms| > 1 {
        var head, rest := PrintTerm(terms[0]), Join(PrintTerms(terms[1..]), ',');
        RewriteJoined(terms[1..]);
        assert PrintTerms(terms)[1..] == PrintTerms(terms[1..]);
        assert PrintTerms(RewriteTerms(terms))[1..] == PrintTerms(RewriteTerms(terms[1..]));
        ReplaceAppend(head + [','], rest, '7', '0');
        ReplaceAppend(head, [','], '7', '0');
        assert ReplaceChar([','], '7', '0') == [','];
      }
    }
  }

  lemma RewrittenField(f: Field)
    requires DayField(f)
    ensures WellFormed(RewriteField(f))
    ensures ReplaceChar(PrintField(f), '7', '0') == PrintField(RewriteField(f))
  {
    if f.Terms? {
      RewriteJoined(f.terms);
    } else {
      assert ReplaceChar("*", '7', '0') == "*";
    }
  }

  /** The documented meaning: 0 and 7 are both Sunday. */
  ghost predicate CoversDay(t: Term, dow: nat) {
    Covers(t, dow) || (dow == 0 && Covers(t, 7))
  }

  ghost predicate DenotesDay(f: Field, dow: nat) {
    f.Star? || exists i :: 0 <= i < |f.terms| && CoversDay(f.terms[i], dow)
  }

  /** Terms that cover Sunday but no longer do once 7 has become 0: a step of 7, and a range
      such as 5-7 that reaches Sunday only at its upper end. */
  ghost predicate LosesSunday(t: Term) {
    t == Every(7) || (t.Range? && 0 < t.lo < 7 && t.hi == 7)
  }

  /** Empty ranges such as 7-3 that the rewrite turns into ranges from Sunday on. */
  ghost predicate GainsSunday(t: Term) {
    t.Range? && t.lo == 7 && t.hi < 7
  }

  lemma RewriteOnSunday(t: Term)
    requires DayTerm(t)
    ensures Covers(RewriteTerm(t), 0) <==> GainsSunday(t) || (CoversDay(t, 0) && !LosesSunday(t))
    ensures LosesSunday(t) ==> CoversDay(t, 0)
    ensures GainsSunday(t) ==> !CoversDay(t, 0)
  {
    if t.Every? && t.step > 0 {
      assert 0 % t.step == 0;
    }
  }

  ghost predicate Has(f: Field, p: Term -> bool)
    requires f.Terms?
  {
    exists i :: 0 <= i < |f.terms| && p(f.terms[i])
  }

  /** Which day-of-week fields mean on Sundays what the documentation says, exactly: some term
      covers Sunday and keeps it, or no term loses it, except where a term that gains Sunday
      makes up for one that loses it. */
  ghost predicate FaithfulOnSunday(f: Field) {
    f.Star?
    || Has(f, t => CoversDay(t, 0) && !LosesSunday(t))
    || (Has(f, t => LosesSunday(t)) <==> Has(f, t => GainsSunday(t)))
  }

  lemma SundayMatch(f: Field)
    requires DayField(f)
    ensures MatchField(ReplaceChar(PrintField(f), '7', '0'), 0) <==> Denotes(RewriteField(f), 0)
  {
    RewrittenField(f);
    FieldMeaning(RewriteField(f), 0);
  }

  /** The rewrite of 7 to 0 keeps the meaning on Sundays for exactly these fields. */
  lemma SundayExactly(f: Field)
    requires DayField(f)
    ensures (MatchField(ReplaceChar(PrintField(f), '7', '0'), 0) <==> DenotesDay(f, 0)) <==> FaithfulOnSunday(f)
  {
    SundayMatch(f);
    if f.Terms? {
      forall i | 0 <= i < |f.terms|
        ensures Covers(RewriteTerms(f.terms)[i], 0) <==>
                GainsSunday(f.terms[i]) || (CoversDay(f.terms[i], 0) && !LosesSunday(f.terms[i]))
        ensures LosesSunday(f.terms[i]) ==> CoversDay(f.terms[i], 0)
        ensures GainsSunday(f.terms[i]) ==> !CoversDay(f.terms[i], 0)
      {
        RewriteOnSunday(f.terms[i]);
      }
      SundayCases(f);
    }
  }

  lemma SundayCases(f: Field)
    requires DayField(f) && f.Terms?
    requires forall i :: 0 <= i < |f.terms| ==>
      && (Covers(RewriteTerms(f.terms)[i], 0) <==>
            GainsSunday(f.terms[i]) || (CoversDay(f.terms[i], 0) && !LosesSunday(f.terms[i])))
      && (LosesSunday(f.terms[i]) ==> CoversDay(f.terms[i], 0))
      && (GainsSunday(f.terms[i]) ==> !CoversDay(f.terms[i], 0))
    ensures (Denotes(RewriteField(f), 0) <==> DenotesDay(f, 0)) <==> FaithfulOnSunday(f)
  {
    var keeps, loses, gains := Has(f, t => CoversDay(t, 0) && !LosesSunday(t)),
                               Has(f, t => LosesSunday(t)), Has(f, t => GainsSunday(t));
    assert Denotes(RewriteField(f), 0) <==> keeps || gains;
    assert DenotesDay(f, 0) <==> keeps || loses;
  }

  /** A list of single days fires on a Sunday exactly when it names day 0 or day 7. */
  lemma SundayNumbers(f: Field)
    requires DayField(f) && f.Terms? && forall i :: 0 <= i < |f.terms| ==> f.terms[i].Number?
    ensures MatchField(ReplaceChar(PrintField(f), '7', '0'), 0) <==>
            exists i :: 0 <= i < |f.terms| && (f.terms[i].n == 0 || f.terms[i].n == 7)
  {
    SundayMatch(f);
    assert forall i :: 0 <= i < |f.terms| ==>
        (Covers(RewriteTerms(f.terms)[i], 0) <==> f.terms[i].n == 0 || f.terms[i].n == 7);
  }

  /** The documented meaning of a whole expression. */
  ghost predicate Fires(e: Expr, when: Moment) {
    && Denotes(e.minute, when.minute) && Denotes(e.hour, when.hour)
    && Denotes(e.day, when.day) && Denotes(e.month, when.month)
    && DenotesDay(e.dow, when.dow)
  }

  /** Printing any expression of the grammar and matching it agrees with its documented
      meaning on every weekday, and on Sundays whenever the day-of-week field is faithful. */
  lemma ExprMeaning(e: Expr, when: Moment)
    requires WellFormedExpr(e)
    requires when.dow == 0 ==> DayField(e.dow) && FaithfulOnSunday(e.dow)
    ensures CronMatches(PrintExpr(e), when) <==> Fires(e, when)
  {
    PrintedExprFields(e);
    FieldMeaning(e.minute, when.minute);
    FieldMeaning(e.hour, when.hour);
    FieldMeaning(e.day, when.day);
    FieldMeaning(e.month, when.month);
    if when.dow == 0 {
      SundayExactly(e.dow);
    } else {
      FieldMeaning(e.dow, when.dow);
    }
  }

  // ------------------------------------------------------------ validation

  lemma ValidNumber(n: nat)
    ensures ValidPart(Dec(n))
  {
    assert IsDigit(Dec(n)[0]);
    DigitsStay(Dec(n));
    WordsOne(Dec(n));
  }

  lemma DigitsStay(s: string)
    requires AllDigits(s)
    ensures ReplaceChar(ReplaceChar(s, '-', ' '), '/', ' ') == s
  {
  }

  lemma ValidEvery(step: nat)
    ensures ValidPart("*/" + Dec(step))
  {
    var s := "*/" + Dec(step);
    assert StartsWith(s, "*/") && s[2..] == Dec(step);
    DigitsStay(Dec(step));
    WordsOne(Dec(step));
  }

  lemma DashesBecomeSpaces(a: string, b: string)
    requires AllDigits(a) && AllDigits(b)
    ensures ReplaceChar(ReplaceChar(a + "-" + b, '-', ' '), '/', ' ') == a + " " + b
  {
  }

  lemma ValidRange(lo: nat, hi: nat)
    ensures ValidPart(Dec(lo) + "-" + Dec(hi))
  {
    var s := Dec(lo) + "-" + Dec(hi);
    hide Words;
    assert IsDigit(s[0]);
    DashesBecomeSpaces(Dec(lo), Dec(hi));
    WordsOne(Dec(hi));
    WordsCons(Dec(lo), Dec(hi));
  }

  lemma ValidTerm(t: Term)
    ensures ValidPart(PrintTerm(t))
  {
    match t
    case Every(step) => ValidEvery(step);
    case Range(lo, hi) => ValidRange(lo, hi);
    case Number(n) => ValidNumber(n);
  }

  lemma ValidPrintedField(f: Field)
    requires WellFormed(f)
    ensures ValidField(PrintField(f))
  {
    PrintedFieldChars(f);
    if f.Terms? {
      forall i | 0 <= i < |f.terms|
        ensures ValidPart(Strip(PrintTerms(f.terms)[i]))
      {
        PrintedTermChars(f.terms[i]);
        StripTermChars(PrintTerm(f.terms[i]));
        ValidTerm(f.terms[i]);
      }
    } else {
      SplitWhole("*", ',');
    }
  }

  /** Validation accepts every expression of the grammar. */
  lemma GrammarIsValid(e: Expr)
    requires WellFormedExpr(e)
    ensures IsValidCron(PrintExpr(e))
  {
    PrintedExprFields(e);
    ValidPrintedField(e.minute);
    ValidPrintedField(e.hour);
    ValidPrintedField(e.day);
    ValidPrintedField(e.month);
    ValidPrintedField(e.dow);
  }

  lemma FieldCharsTrimmed(s: string)
    requires FieldChars(s)
    ensures Strip(s) == s
  {
    StripFixedPoints(s);
  }

  /** An item of a list that may also be a lone `*`, here None. */
  function PrintItem(item: Option<Term>): string {
    if item.None? then "*" else PrintTerm(item.value)
  }

  function PrintItems(items: seq<Option<Term>>): (parts: seq<string>)
    ensures |parts| == |items|
  {
    seq(|items|, i requires 0 <= i < |items| => PrintItem(items[i]))
  }

  lemma ItemMeaning(item: Option<Term>, value: nat)
    ensures var part := PrintItem(item);
            && part != "" && TermChars(part) && Strip(part) == part && ValidPart(part)
            && (MatchPart(part, value) <==> item.Some? && Covers(item.value, value))
  {
    if item.None? {
      StripTermChars("*");
      assert !StartsWith("*", "*/") && '-' !in "*" && !IsDigit("*"[0]);
    } else {
      PrintedTermChars(item.value);
      StripTermChars(PrintTerm(item.value));
      ValidTerm(item.value);
      MatchPrintedTerm(item.value, value);
    }
  }

  lemma PrintedItems(items: seq<Option<Term>>)
    requires |items| > 1
    ensures var s := Join(PrintItems(items), ',');
            Strip(s) == s && s != "*" && Split(s, ',') == PrintItems(items)
  {
    hide PrintItem, Split, Strip;
    var parts := PrintItems(items);
    forall i | 0 <= i < |parts|
      ensures parts[i] != "" && TermChars(parts[i]) && ',' !in parts[i]
    {
      ItemMeaning(items[i], 0);
    }
    JoinedTermChars(parts);
    SplitJoin(parts, ',');
    FieldCharsTrimmed(Join(parts, ','));
    assert |Join(parts, ',')| >= 2;
  }

  /** It also accepts `*` anywhere in a list, where the matcher ignores it: "1,*,5" is valid, and
      matches exactly what "1,5" matches; "*,*" matches nothing. */
  lemma StarInListIsIgnored(items: seq<Option<Term>>, value: nat)
    requires |items| > 1
    ensures ValidField(Join(PrintItems(items), ','))
    ensures MatchField(Join(PrintItems(items), ','), value) <==>
            exists i :: 0 <= i < |items| && items[i].Some? && Covers(items[i].value, value)
  {
    hide Join, Split, Strip, MatchPart, ValidPart, PrintItem, Covers;
    PrintedItems(items);
    var parts := PrintItems(items);
    forall i | 0 <= i < |items|
      ensures ValidPart(Strip(parts[i]))
      ensures MatchPart(Strip(parts[i]), value) <==> items[i].Some? && Covers(items[i].value, value)
    {
      ItemMeaning(items[i], value);
    }
  }

  // ------------------------------------------------------------ what validation refuses

  /** Characters that an item may hold after its "*" + "/", if it has one. */
  predicate IsItemChar(c: char) {
    IsDigit(c) || c == '-' || c == '/' || IsSpace(c)
  }

  function AfterStar(part: string): string {
    if |part| >= 2 && part[0] == '*' && part[1] == '/' then part[2..] else part
  }

  lemma {:induction false} WordEndChars(s: string)
    ensures forall i :: 0 <= i < WordEnd(s) ==> !IsSpace(s[i])
    ensures WordEnd(s) < |s| ==> IsSpace(s[WordEnd(s)])
  {
    if s != "" && !IsSpace(s[0]) {
      WordEndChars(s[1..]);
      assert forall i :: 0 < i < |s| ==> s[i] == s[1..][i - 1];
    }
  }

  ghost predicate DigitsAndSpaces(s: string) {
    forall i :: 0 <= i < |s| ==> IsSpace(s[i]) || IsDigit(s[i])
  }

  lemma FirstOfWords(word: string, rest: seq<string>)
    ensures DigitWords([word] + rest) <==> (word == "" || AllDigits(word)) && DigitWords(rest)
  {
    var all := [word] + rest;
    assert all[0] == word && forall i :: 0 <= i < |rest| ==> all[i + 1] == rest[i];
    if DigitWords(all) {
      assert forall i :: 0 <= i < |rest| ==> rest[i] == all[i + 1];
    }
  }

  /** All words consist of digits exactly if every character that is not whitespace is one. */
  lemma {:induction false} WordsOfDigits(s: string)
    ensures DigitWords(Words(s)) <==> DigitsAndSpaces(s)
    decreases |s|
  {
    hide IsSpace, DigitsAndSpaces, DigitWords, LStrip;
    var t := LStrip(IsSpace, s);
    LStripShorter(s);
    LStripSuffix(IsSpace, s);
    LStripDrops(IsSpace, s);
    SuffixChars(s, t);
    if t == "" {
      NoWords(s);
    } else {
      var k := WordEnd(t);
      WordEndChars(t);
      WordsOfDigits(t[k..]);
      FirstWord(t[..k], t[k..], t);
      FirstOfWords(t[..k], Words(t[k..]));
    }
  }

  lemma NoWords(s: string)
    requires LStrip(IsSpace, s) == ""
    ensures DigitWords(Words(s)) && DigitsAndSpaces("")
  {
    hide LStrip;
  }

  lemma SuffixChars(s: string, t: string)
    requires |t| <= |s| && t == s[|s| - |t|..] && forall j :: 0 <= j < |s| - |t| ==> IsSpace(s[j])
    ensures DigitsAndSpaces(s) <==> DigitsAndSpaces(t)
  {
    hide IsSpace;
    assert forall i :: 0 <= i < |t| ==> t[i] == s[|s| - |t| + i];
    assert forall i :: |s| - |t| <= i < |s| ==> s[i] == t[i - (|s| - |t|)];
  }

  lemma FirstWord(word: string, rest: string, t: string)
    requires t == word + rest && word != "" && forall i :: 0 <= i < |word| ==> !IsSpace(word[i])
    ensures DigitsAndSpaces(t) <==> AllDigits(word) && DigitsAndSpaces(rest)
  {
    hide IsSpace;
    assert forall i :: 0 <= i < |word| ==> t[i] == word[i];
    assert forall i :: 0 <= i < |rest| ==> t[|word| + i] == rest[i];
    if DigitsAndSpaces(t) {
      assert forall i :: 0 <= i < |rest| ==> rest[i] == t[|word| + i];
    }
  }

  /** A lone star, or nothing but digits, dashes, slashes and whitespace behind an optional star
      and slash. */
  ghost predicate IsItem(part: string) {
    part == "*" || forall i :: 0 <= i < |AfterStar(part)| ==> IsItemChar(AfterStar(part)[i])
  }

  /** Validation accepts exactly these items: any letter makes one invalid. */
  lemma PartExactly(part: string)
    ensures ValidPart(part) <==> IsItem(part)
  {
    hide IsSpace, Words;
    var token := AfterStar(part);
    var spaced := ReplaceChar(ReplaceChar(token, '-', ' '), '/', ' ');
    SpaceIsSpace();
    WordsOfDigits(spaced);
    forall i | 0 <= i < |token|
      ensures IsSpace(spaced[i]) || IsDigit(spaced[i]) <==> IsItemChar(token[i])
    {
      assert spaced[i] == if token[i] == '-' || token[i] == '/' then ' ' else token[i];
    }
    assert DigitsAndSpaces(spaced) <==> forall i :: 0 <= i < |token| ==> IsItemChar(token[i]);
    assert StartsWith(part, "*/") <==> |part| >= 2 && part[0] == '*' && part[1] == '/';
  }

  lemma SpaceIsSpace()
    ensures IsSpace(' ') && !IsSpace('-') && !IsSpace('/')
  {
  }

  ghost predicate AllItems(field: string) {
    forall j :: 0 <= j < |Split(field, ',')| ==> IsItem(Strip(Split(field, ',')[j]))
  }

  lemma FieldExactly(field: string)
    ensures ValidField(field) <==> AllItems(field)
  {
    hide Split, Strip, ValidPart, IsItem;
    var parts := Split(field, ',');
    forall j | 0 <= j < |parts|
      ensures ValidPart(Strip(parts[j])) <==> IsItem(Strip(parts[j]))
    {
      PartExactly(Strip(parts[j]));
    }
    assert ValidField(field) <==> forall j :: 0 <= j < |parts| ==> ValidPart(Strip(parts[j]));
    assert AllItems(field) <==> forall j :: 0 <= j < |parts| ==> IsItem(Strip(parts[j]));
  }

  /** An expression is valid exactly if it has five fields and every item of each is. */
  lemma ValidExactly(expr: string)
    ensures IsValidCron(expr) <==>
            |Words(expr)| == 5 && forall i :: 0 <= i < 5 ==> AllItems(Words(expr)[i])
  {
    hide Words, ValidField, AllItems;
    var fields := Words(expr);
    forall i | 0 <= i < |fields|
      ensures ValidField(fields[i]) <==> AllItems(fields[i])
    {
      FieldExactly(fields[i]);
    }
  }
}
