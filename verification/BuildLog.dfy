/** `parse_deployment_log_lines` (app/services/coolify.py): a stored build log, in any of the
    three shapes Coolify uses, becomes one list of structured lines. JSON text itself is not
    modelled: `Reader` carries `json.loads` and `str` as arbitrary functions. */
module BuildLog {
  import opened Text

  datatype Json =
    | Null
    | Bool(b: bool)
    | Number(n: real)
    | Str(s: string)
    | List(items: seq<Json>)
    | Object(fields: map<string, Json>)

  /** `loads` is None where `json.loads` raises; `show` is `str()`. */
  datatype Reader = Reader(loads: string -> Option<Json>, show: Json -> string)

  datatype Line = Line(output: string, kind: string, timestamp: string)

  predicate Truthy(j: Json) {
    match j
    case Null => false
    case Bool(b) => b
    case Number(n) => n != 0.0
    case Str(s) => s != ""
    case List(items) => items != []
    case Object(fields) => fields != map[]
  }

  function Get(fields: map<string, Json>, key: string, default: Json): Json {
    if key in fields then fields[key] else default
  }

  /** `a or b` */
  function Or(a: Json, b: Json): Json {
    if Truthy(a) then a else b
  }

  /** The list of items behind a parsed log, or None when the text counts as plain. */
  function ItemsOf(parsed: Option<Json>): Option<seq<Json>> {
    match parsed
    case Some(List(items)) => Some(items)
    case Some(Object(fields)) =>
      var nested := Or(Or(Get(fields, "logs", Null), Get(fields, "data", Null)), Get(fields, "output", Null));
      Some(if nested.List? then nested.items else [Object(fields)])
    case _ => None
  }

  function LineOf(item: Json, r: Reader): Line {
    if item.Object? then
      var output := Get(item.fields, "output", Get(item.fields, "line", Get(item.fields, "message", Str(""))));
      Line(r.show(output), r.show(Get(item.fields, "type", Str("stdout"))),
           r.show(Get(item.fields, "timestamp", Get(item.fields, "created_at", Str("")))))
    else
      Line(r.show(item), "stdout", "")
  }

  function LinesOfItems(items: seq<Json>, r: Reader): (lines: seq<Line>)
    ensures |lines| == |items|
  {
    seq(|items|, i requires 0 <= i < |items| => LineOf(items[i], r))
  }

  /** A text line counts unless it is blank. */
  function OneLine(line: string): seq<Line> {
    if Strip(line) == "" then [] else [Line(line, "stdout", "")]
  }

  function PlainLines(lines: seq<string>): seq<Line> {
    if lines == [] then [] else OneLine(lines[0]) + PlainLines(lines[1..])
  }

  function ParsedLines(raw: string, r: Reader): seq<Line> {
    if raw == "" then []
    else
      var items := ItemsOf(r.loads(raw));
      if items.Some? then LinesOfItems(items.value, r) else PlainLines(Lines(raw))
  }

  method ParseDeploymentLogLines(raw: Option<string>, r: Reader) returns (lines: seq<Line>)
    ensures lines == if raw.None? then [] else ParsedLines(raw.value, r)
  {
    if raw.None? || raw.value == "" {
      return [];
    }
    var items := ItemsOf(r.loads(raw.value));
    if items.None? {
      return PlainLines(Lines(raw.value));
    }
    lines := [];
    for i := 0 to |items.value|
      invariant lines == LinesOfItems(items.value, r)[..i]
    {
      lines := lines + [LineOf(items.value[i], r)];
    }
  }

  /** The lines of a plain log: those that are not blank, as they are, from standard output and
      without a time. */
  lemma {:induction false} PlainExactly(lines: seq<string>, line: Line)
    ensures line in PlainLines(lines) <==>
            line.output in lines && Strip(line.output) != "" && line.kind == "stdout" && line.timestamp == ""
  {
    if lines != [] {
      PlainExactly(lines[1..], line);
      assert lines == [lines[0]] + lines[1..];
    }
  }

  // ------------------------------------------------------------ JSON items

  /** The text of an item: under "output", else "line", else "message", else nothing. */
  ghost predicate IsOutputOf(fields: map<string, Json>, value: Json) {
    if "output" in fields then value == fields["output"]
    else if "line" in fields then value == fields["line"]
    else if "message" in fields then value == fields["message"]
    else value == Str("")
  }

  ghost predicate IsTypeOf(fields: map<string, Json>, value: Json) {
    if "type" in fields then value == fields["type"] else value == Str("stdout")
  }

  ghost predicate IsTimeOf(fields: map<string, Json>, value: Json) {
    if "timestamp" in fields then value == fields["timestamp"]
    else if "created_at" in fields then value == fields["created_at"]
    else value == Str("")
  }

  /** What an item yields: an object its text, type and time as strings; anything else its own
      text, from standard output and without a time. */
  lemma ItemExactly(item: Json, r: Reader)
    ensures var line := LineOf(item, r);
            if item.Object? then
              exists output, kind, time ::
                && IsOutputOf(item.fields, output) && line.output == r.show(output)
                && IsTypeOf(item.fields, kind) && line.kind == r.show(kind)
                && IsTimeOf(item.fields, time) && line.timestamp == r.show(time)
            else line == Line(r.show(item), "stdout", "")
  {
    if item.Object? {
      var f := item.fields;
      var output := Get(f, "output", Get(f, "line", Get(f, "message", Str(""))));
      var kind, time := Get(f, "type", Str("stdout")), Get(f, "timestamp", Get(f, "created_at", Str("")));
      assert IsOutputOf(f, output) && IsTypeOf(f, kind) && IsTimeOf(f, time);
    }
  }

  /** The list that an object wraps: the first of "logs", "data" and "output" that is something,
      if that is a list. */
  ghost predicate Wraps(fields: map<string, Json>, items: seq<Json>) {
    if HasValue(fields, "logs") then fields["logs"] == List(items)
    else if HasValue(fields, "data") then fields["data"] == List(items)
    else "output" in fields && fields["output"] == List(items)
  }

  ghost predicate HasValue(fields: map<string, Json>, key: string) {
    key in fields && Truthy(fields[key])
  }

  /** The items of a stored log: those of the list, or of the list that the object wraps; an
      object that wraps none is the one item; and anything else is no JSON log. */
  lemma ItemsExactly(parsed: Option<Json>)
    ensures var items := ItemsOf(parsed);
            match parsed
            case Some(List(l)) => items == Some(l)
            case Some(Object(fields)) =>
              items.Some? && (Wraps(fields, items.value) ||
                              ((forall l :: !Wraps(fields, l)) && items.value == [Object(fields)]))
            case _ => items.None?
  {
  }

  // ------------------------------------------------------------ growth

  ghost predicate IsPlain(raw: string, r: Reader) {
    raw == "" || ItemsOf(r.loads(raw)).None?
  }

  /** The text after the last line break. */
  function Unfinished(raw: string): string
    decreases |raw|
  {
    if LineEnd(raw) == |raw| then raw else Unfinished(AfterLine(raw))
  }

  /** A log that grows by this text keeps the lines it had: its last line was finished or
      blank, or is finished first. */
  predicate KeepsLines(raw: string, more: string) {
    Strip(Unfinished(raw)) == "" || more == "" || IsLineBreak(more[0])
  }

  /** Every line is still there, though its text may have been continued. */
  ghost predicate Continues(lines: seq<Line>, later: seq<Line>) {
    && |lines| <= |later|
    && forall i :: 0 <= i < |lines| ==>
         lines[i].output <= later[i].output && later[i].(output := lines[i].output) == lines[i]
  }

  function Plain(raw: string): seq<Line> {
    PlainLines(Lines(raw))
  }

  lemma PlainStep(raw: string)
    requires LineEnd(raw) < |raw|
    ensures Plain(raw) == OneLine(raw[..LineEnd(raw)]) + Plain(AfterLine(raw))
  {
    assert ([raw[..LineEnd(raw)]] + Lines(AfterLine(raw)))[1..] == Lines(AfterLine(raw));
  }

  lemma PlainLast(raw: string)
    requires LineEnd(raw) == |raw|
    ensures Plain(raw) == OneLine(raw)
  {
    assert PlainLines([]) == [];
    if raw != "" {
      assert [raw][1..] == [];
    }
  }

  lemma SameFront(front: seq<Line>, a: seq<Line>, b: seq<Line>)
    ensures front + a <= front + b <==> a <= b
    ensures Continues(a, b) ==> Continues(front + a, front + b)
  {
    if front + a <= front + b {
      assert forall i :: 0 <= i < |a| ==> a[i] == (front + a)[|front| + i] && b[i] == (front + b)[|front| + i];
    }
  }

  lemma StripIsEmpty(s: string)
    ensures Strip(s) == "" <==> forall i :: 0 <= i < |s| ==> IsSpace(s[i])
  {
    LStripSuffix(IsSpace, s);
    var t := LStrip(IsSpace, s);
    RStripPrefix(IsSpace, t);
    if Strip(s) == "" {
      RStripEmpty(t);
      LStripEmpty(s);
    }
    assert t == "" || t[0] == s[|s| - |t|];
  }

  lemma {:induction false} RStripEmpty(s: string)
    requires RStrip(IsSpace, s) == ""
    ensures forall i :: 0 <= i < |s| ==> IsSpace(s[i])
  {
    if s != "" {
      RStripEmpty(s[..|s| - 1]);
    }
  }

  lemma {:induction false} LStripEmpty(s: string)
    requires LStrip(IsSpace, s) == ""
    ensures forall i :: 0 <= i < |s| ==> IsSpace(s[i])
  {
    if s != "" {
      LStripEmpty(s[1..]);
      assert forall i :: 0 < i < |s| ==> s[i] == s[1..][i - 1];
    }
  }

  /** A line that is written on. */
  lemma LineGrows(line: string, more: string)
    ensures |OneLine(line)| <= 1 && Continues(OneLine(line), OneLine(line + more))
    ensures OneLine(line) <= OneLine(line + more) <==> Strip(line) == "" || more == ""
  {
    hide Strip;
    StripIsEmpty(line);
    StripIsEmpty(line + more);
    if more == "" {
      assert line + more == line;
    } else if Strip(line) != "" {
      var i :| 0 <= i < |line| && !IsSpace(line[i]);
      assert (line + more)[i] == line[i];
      assert OneLine(line)[0].output == line && OneLine(line + more)[0].output == line + more;
      assert |line| < |line + more|;
    }
  }

  lemma FirstOfLines(raw: string)
    ensures OneLine(raw[..LineEnd(raw)]) <= Plain(raw)
  {
    if LineEnd(raw) < |raw| {
      PlainStep(raw);
    } else {
      PlainLast(raw);
      assert raw[..|raw|] == raw;
    }
  }

  lemma MoreLines(lines: seq<Line>, later: seq<Line>, all: seq<Line>)
    requires Continues(lines, later) && later <= all && |lines| <= 1
    ensures Continues(lines, all)
    ensures lines <= all <==> lines <= later
  {
  }

  lemma KeepsUnfinished(raw: string, more: string)
    requires LineEnd(raw) == |raw|
    ensures KeepsLines(raw, more) <==> Strip(raw) == "" || more[..LineEnd(more)] == ""
  {
    hide Strip;
  }

  /** An unfinished line that is written on, and what comes after it. */
  lemma LastLineGrows(raw: string, more: string)
    requires LineEnd(raw) == |raw|
    ensures Continues(Plain(raw), Plain(raw + more))
    ensures Plain(raw) <= Plain(raw + more) <==> KeepsLines(raw, more)
  {
    hide Plain, Strip, Continues, KeepsLines, LineEnd, OneLine;
    KeepsUnfinished(raw, more);
    LineEndAppend(raw, more);
    PlainLast(raw);
    FirstOfLines(raw + more);
    var added := more[..LineEnd(more)];
    assert (raw + more)[..|raw| + LineEnd(more)] == raw + added;
    LineGrows(raw, added);
    MoreLines(OneLine(raw), OneLine(raw + added), Plain(raw + more));
  }

  lemma AfterLineSplit(raw: string, more: string)
    requires LineEnd(raw) < |raw|
    ensures LineEnd(raw + more) == LineEnd(raw) && (raw + more)[..LineEnd(raw)] == raw[..LineEnd(raw)]
    ensures AfterLine(raw) == "" || AfterLine(raw + more) == AfterLine(raw) + more
    ensures |AfterLine(raw)| < |raw|
  {
    LineEndAppend(raw, more);
    var k := LineEnd(raw);
    if AfterLine(raw) != "" {
      CutAppend(raw, more, k, k + BreakWidth(raw, k));
    }
  }

  /** When a plain-text log grows, its lines stay and are at most written on; and what it had
      is exactly a prefix of what it has when, and only when, the growth keeps lines. */
  lemma {:induction false} PlainGrowth(raw: string, more: string)
    ensures Continues(Plain(raw), Plain(raw + more))
    ensures Plain(raw) <= Plain(raw + more) <==> KeepsLines(raw, more)
    decreases |raw|
  {
    hide Plain, Strip, AfterLine, Continues, OneLine;
    if LineEnd(raw) == |raw| {
      LastLineGrows(raw, more);
    } else {
      var front, rest := OneLine(raw[..LineEnd(raw)]), AfterLine(raw);
      AfterLineSplit(raw, more);
      PlainStep(raw);
      PlainStep(raw + more);
      if rest == "" {
        PlainLast(rest);
        NothingYet(Plain(AfterLine(raw + more)));
        SameFront(front, Plain(rest), Plain(AfterLine(raw + more)));
      } else {
        PlainGrowth(rest, more);
        SameFront(front, Plain(rest), Plain(rest + more));
      }
    }
  }

  lemma NothingYet(lines: seq<Line>)
    ensures Unfinished("") == "" && OneLine("") == [] && Strip("") == "" && Continues([], lines) && [] <= lines
  {
  }

  /** The same of the parsed log. */
  lemma PlainGrowthExactly(raw: string, more: string, r: Reader)
    requires IsPlain(raw, r) && IsPlain(raw + more, r)
    ensures Continues(ParsedLines(raw, r), ParsedLines(raw + more, r))
    ensures ParsedLines(raw, r) <= ParsedLines(raw + more, r) <==> KeepsLines(raw, more)
  {
    hide Continues, KeepsLines;
    PlainGrowth(raw, more);
    ParsedPlain(raw, r);
    ParsedPlain(raw + more, r);
  }

  lemma ParsedPlain(raw: string, r: Reader)
    requires IsPlain(raw, r)
    ensures ParsedLines(raw, r) == Plain(raw)
  {
  }

  /** Empty, or a JSON list of items, possibly wrapped in an object. */
  ghost predicate IsJson(raw: string, r: Reader) {
    raw == "" || ItemsOf(r.loads(raw)).Some?
  }

  ghost function JsonItems(raw: string, r: Reader): seq<Json>
    requires IsJson(raw, r)
  {
    if raw == "" then [] else ItemsOf(r.loads(raw)).value
  }

  lemma ParsedJson(raw: string, r: Reader)
    requires IsJson(raw, r)
    ensures ParsedLines(raw, r) == LinesOfItems(JsonItems(raw, r), r)
  {
  }
}
