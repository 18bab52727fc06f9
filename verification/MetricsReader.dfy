/** The dashboard's reader for the metrics page (`web/src/api/metrics.ts`). The line pattern of the
    source needs no backtracking, because a name, a label block, white space and a number begin with
    characters of disjoint classes; it is written out here as a scan. */
module MetricsReader {
  import opened Options
  import opened Decimal
  import opened Text

  /** What `\s` matches and `trim` removes in JavaScript. */
  predicate JsSpace(c: char) {
    var n := c as int;
    || 0x9 <= n <= 0xD || n == 0x20 || n == 0xA0 || n == 0x1680 || 0x2000 <= n <= 0x200A
    || n == 0x2028 || n == 0x2029 || n == 0x202F || n == 0x205F || n == 0x3000 || n == 0xFEFF
  }

  predicate IsNameStart(c: char) { 'A' <= c <= 'Z' || 'a' <= c <= 'z' || c == '_' || c == ':' }

  predicate IsNameChar(c: char) { IsNameStart(c) || IsDigit(c) }

  predicate IsNumberChar(c: char) { IsDigit(c) || c == '.' || c == 'e' || c == 'E' || c == '+' }

  const EXACT_LIMIT: nat := 0x20_0000_0000_0000

  /** `Number(text)`: whole numbers below 2^53 are exact; what else it may give is left open. */
  datatype JsNumber = Whole(n: nat) | Other(text: string)

  function Number(text: string): JsNumber {
    if text != [] && AllDigits(text) && Value(text) < EXACT_LIMIT then Whole(Value(text)) else Other(text)
  }

  datatype Sample = Sample(name: string, labels: map<string, string>, value: JsNumber)

  /** The first position of `c`, or the length if there is none. */
  function IndexOf(s: string, c: char): nat { Span(s, x => x != c) }

  /** Replaces every backslash followed by `c` with `c`, from left to right. */
  function DropEscapes(s: string, c: char): string {
    if s == [] then []
    else if |s| >= 2 && s[0] == '\\' && s[1] == c then [c] + DropEscapes(s[2..], c)
    else [s[0]] + DropEscapes(s[1..], c)
  }

  function Unquote(v: string): string {
    if v != [] && v[0] == '"' && v[|v| - 1] == '"' then
      var inner := if |v| == 1 then [] else v[1..|v| - 1];
      DropEscapes(DropEscapes(inner, '"'), '\\')
    else v
  }

  /** Assigning a string to this property of a JavaScript object has no effect. */
  const PROTO := "__proto__"

  /** One `key="value"` pair is added to the labels; a pair without a key is skipped. */
  function AddLabel(labels: map<string, string>, pair: string): map<string, string> {
    var eq := IndexOf(pair, '=');
    if 0 < eq < |pair| && Trim(pair[..eq], JsSpace) != PROTO then
      labels[Trim(pair[..eq], JsSpace) := Unquote(Trim(pair[eq + 1..], JsSpace))]
    else labels
  }

  lemma PairSplits(left: string, right: string)
    requires '=' !in left
    ensures IndexOf(left + ("=" + right), '=') == |left|
    ensures (left + ("=" + right))[..|left|] == left && (left + ("=" + right))[|left| + 1..] == right
  {
    SpanIs(left, "=" + right, x => x != '=');
  }

  /** White space around a label's key and around its value does not count. */
  lemma LabelIsTrimmed(labels: map<string, string>, a: string, key: string, b: string, c: string, value: string,
                       d: string)
    requires All(a, JsSpace) && All(b, JsSpace) && All(c, JsSpace) && All(d, JsSpace)
    requires key != [] && !JsSpace(key[0]) && !JsSpace(key[|key| - 1]) && '=' !in key && key != PROTO
    requires value != [] ==> !JsSpace(value[0]) && !JsSpace(value[|value| - 1])
    ensures AddLabel(labels, (a + key + b) + ("=" + (c + value + d))) == labels[key := Unquote(value)]
  {
    var left, right := a + key + b, c + value + d;
    forall i | 0 <= i < |left| ensures left[i] != '=' {
      assert left[i] in a || left[i] in key || left[i] in b;
    }
    PairSplits(left, right);
    TrimIsTheCore(a, key, b, JsSpace);
    TrimIsTheCore(c, value, d, JsSpace);
  }

  function AddLabels(pairs: seq<string>): map<string, string> {
    if pairs == [] then map[] else AddLabel(AddLabels(pairs[..|pairs| - 1]), pairs[|pairs| - 1])
  }

  function ParseLabels(part: string): map<string, string> {
    if part == [] then map[] else AddLabels(Split(part, ','))
  }

  /** White space and a number after a name and its labels. */
  function ParseValue(name: string, labels: map<string, string>, rest: string): Option<Sample> {
    var spaces := Span(rest, JsSpace);
    if spaces == 0 then None
    else
      var text := rest[spaces..];
      var sign := if text != [] && text[0] == '-' then 1 else 0;
      var digits := Span(text[sign..], IsNumberChar);
      if digits == 0 then None else Some(Sample(name, labels, Number(text[..sign + digits])))
  }

  /** The labels, if any, and the value that follow a name. */
  function ParseRest(name: string, rest: string): Option<Sample> {
    if rest != [] && rest[0] == '{' then
      var close := IndexOf(rest, '}');
      if close == |rest| then None
      else ParseValue(name, ParseLabels(rest[1..close]), rest[close + 1..])
    else ParseValue(name, map[], rest)
  }

  function ParseLine(line: string): Option<Sample> {
    var n := Span(line, IsNameChar);
    if n == 0 || !IsNameStart(line[0]) then None else ParseRest(line[..n], line[n..])
  }

  function Found(sample: Option<Sample>): seq<Sample> { if sample.Some? then [sample.value] else [] }

  /** What one line of the page contributes. */
  function ReadLine(raw: string): seq<Sample> {
    var line := Trim(raw, JsSpace);
    if line == [] || line[0] == '#' then [] else Found(ParseLine(line))
  }

  function ReadLines(lines: seq<string>): seq<Sample> {
    if lines == [] then [] else ReadLine(lines[0]) + ReadLines(lines[1..])
  }

  function ParsePrometheus(text: string): seq<Sample> { ReadLines(Split(text, '\n')) }

  lemma ReadSnoc(lines: seq<string>, i: nat)
    requires i < |lines|
    ensures ReadLines(lines[..i + 1]) == ReadLines(lines[..i]) + ReadLine(lines[i])
  {
    assert lines[..i + 1] == lines[..i] + [lines[i]];
    ReadLinesConcat(lines[..i], [lines[i]]);
    ReadOneLine(lines[i]);
  }

  /** One turn of the parser's loop: the line is trimmed, skipped or matched. */
  method ReadInto(samples: seq<Sample>, raw: string) returns (more: seq<Sample>)
    ensures more == samples + ReadLine(raw)
  {
    more := samples;
    var line := Trim(raw, JsSpace);
    if line != [] && line[0] != '#' {
      var sample := ParseLine(line);
      if sample.Some? { more := more + [sample.value]; }
    }
  }

  /** The parser as a loop that collects samples. */
  method ParseLoop(text: string) returns (samples: seq<Sample>)
    ensures samples == ParsePrometheus(text)
  {
    samples := [];
    var lines := Split(text, '\n');
    for i := 0 to |lines|
      invariant samples == ReadLines(lines[..i])
    {
      samples := ReadInto(samples, lines[i]);
      ReadSnoc(lines, i);
    }
    assert lines[..|lines|] == lines;
  }

  lemma {:induction false} ReadLinesConcat(a: seq<string>, b: seq<string>)
    ensures ReadLines(a + b) == ReadLines(a) + ReadLines(b)
    decreases |a|
  {
    if a == [] {
      assert a + b == b;
    } else {
      assert (a + b)[1..] == a[1..] + b;
      ReadLinesConcat(a[1..], b);
      assert ReadLine(a[0]) + (ReadLines(a[1..]) + ReadLines(b)) == (ReadLine(a[0]) + ReadLines(a[1..])) + ReadLines(b);
    }
  }

  lemma ReadOneLine(line: string)
    ensures ReadLines([line]) == ReadLine(line)
  {
    assert [line][1..] == [];
  }

  // ----- The pattern of a line -----

  predicate IsReadName(s: string) {
    s != [] && IsNameStart(s[0]) && forall i :: 0 <= i < |s| ==> IsNameChar(s[i])
  }

  predicate IsSpaces(s: string) { s != [] && forall i :: 0 <= i < |s| ==> JsSpace(s[i]) }

  /** An optional minus sign and at least one number character. */
  predicate IsReadNumber(s: string) {
    var digits := if s != [] && s[0] == '-' then s[1..] else s;
    digits != [] && forall i :: 0 <= i < |digits| ==> IsNumberChar(digits[i])
  }

  function LabelBlock(inner: Option<string>): string { if inner.Some? then "{" + inner.value + "}" else "" }

  /** The line is a match of the pattern: a name, perhaps labels in braces, white space, a number, taken as
      long as it goes, and anything after it. */
  predicate IsMatch(line: string, name: string, inner: Option<string>, spaces: string, number: string, rest: string) {
    && line == name + (LabelBlock(inner) + (spaces + (number + rest)))
    && IsReadName(name) && (inner.Some? ==> '}' !in inner.value) && IsSpaces(spaces) && IsReadNumber(number)
    && (rest != [] ==> !IsNumberChar(rest[0]))
  }

  function SampleOf(name: string, inner: Option<string>, number: string): Sample {
    Sample(name, LabelsOf(inner), Number(number))
  }

  lemma NumberBegins(number: string)
    requires IsReadNumber(number)
    ensures !JsSpace(number[0])
  {
    if number[0] != '-' { assert IsNumberChar(number[0]); }
  }

  lemma DigitsAreRead(number: string, rest: string)
    requires IsReadNumber(number) && (rest != [] ==> !IsNumberChar(rest[0]))
    ensures var text := number + rest;
            var sign := if text[0] == '-' then 1 else 0;
            var digits := Span(text[sign..], IsNumberChar);
            digits > 0 && text[..sign + digits] == number
  {
    var text := number + rest;
    var sign := if text[0] == '-' then 1 else 0;
    assert text[sign..] == number[sign..] + rest;
    SpanIs(number[sign..], rest, IsNumberChar);
    assert text[..|number|] == number;
  }

  lemma NumberIsRead(name: string, labels: map<string, string>, spaces: string, number: string, rest: string)
    requires IsSpaces(spaces) && IsReadNumber(number) && (rest != [] ==> !IsNumberChar(rest[0]))
    ensures ParseValue(name, labels, spaces + (number + rest)) == Some(Sample(name, labels, Number(number)))
  {
    NumberBegins(number);
    assert (number + rest)[0] == number[0];
    SpanIs(spaces, number + rest, JsSpace);
    assert (spaces + (number + rest))[|spaces|..] == number + rest;
    DigitsAreRead(number, rest);
  }

  function LabelsOf(inner: Option<string>): map<string, string> {
    if inner.Some? then ParseLabels(inner.value) else map[]
  }

  lemma LabelsAreRead(name: string, inner: Option<string>, tail: string)
    requires (inner.Some? ==> '}' !in inner.value) && tail != [] && JsSpace(tail[0])
    ensures ParseRest(name, LabelBlock(inner) + tail) == ParseValue(name, LabelsOf(inner), tail)
  {
    if inner.Some? {
      var open, after := "{" + inner.value, LabelBlock(inner) + tail;
      assert after == open + ("}" + tail);
      SpanIs(open, "}" + tail, x => x != '}');
      assert after[1..|open|] == inner.value && after[|open| + 1..] == tail;
    } else {
      assert LabelBlock(inner) + tail == tail;
    }
  }

  lemma NameIsRead(name: string, after: string)
    requires IsReadName(name) && after != [] && !IsNameChar(after[0])
    ensures ParseLine(name + after) == ParseRest(name, after)
  {
    SpanIs(name, after, IsNameChar);
    assert (name + after)[..|name|] == name && (name + after)[|name|..] == after;
  }

  lemma MatchIsRead(line: string, name: string, inner: Option<string>, spaces: string, number: string, rest: string)
    requires IsMatch(line, name, inner, spaces, number, rest)
    ensures ParseLine(line) == Some(SampleOf(name, inner, number))
  {
    var tail := spaces + (number + rest);
    var after := LabelBlock(inner) + tail;
    assert after[0] == if inner.Some? then '{' else spaces[0];
    NameIsRead(name, after);
    assert tail[0] == spaces[0];
    LabelsAreRead(name, inner, tail);
    NumberIsRead(name, LabelsOf(inner), spaces, number, rest);
  }

  lemma ReadDigitsMatch(text: string) returns (number: string, rest: string)
    requires var sign := if text != [] && text[0] == '-' then 1 else 0; Span(text[sign..], IsNumberChar) > 0
    ensures text == number + rest && IsReadNumber(number) && (rest != [] ==> !IsNumberChar(rest[0]))
    ensures var sign := if text[0] == '-' then 1 else 0; number == text[..sign + Span(text[sign..], IsNumberChar)]
  {
    var sign := if text[0] == '-' then 1 else 0;
    var digits := Span(text[sign..], IsNumberChar);
    number, rest := text[..sign + digits], text[sign + digits..];
    assert number[sign..] == text[sign..][..digits];
    assert IsNumberChar(text[sign..][0]);
    assert number[0] == text[0];
    if sign == 0 { assert number[sign..] == number; }
    assert rest == text[sign..][digits..];
  }

  lemma ReadNumberMatches(name: string, labels: map<string, string>, text: string)
    returns (spaces: string, number: string, rest: string)
    requires ParseValue(name, labels, text).Some?
    ensures text == spaces + (number + rest) && IsSpaces(spaces) && IsReadNumber(number)
    ensures rest != [] ==> !IsNumberChar(rest[0])
    ensures ParseValue(name, labels, text).value == Sample(name, labels, Number(number))
  {
    var n := Span(text, JsSpace);
    spaces := text[..n];
    number, rest := ReadDigitsMatch(text[n..]);
    assert text == spaces + text[n..];
  }

  lemma BlockCloses(after: string)
    requires after != [] && after[0] == '{' && IndexOf(after, '}') < |after|
    ensures var close := IndexOf(after, '}');
            && close > 0 && '}' !in after[1..close]
            && after == LabelBlock(Some(after[1..close])) + after[close + 1..]
  {
    var close := IndexOf(after, '}');
    assert after[close] == '}' && after[0] != '}';
    assert forall i :: 0 <= i < close ==> after[i] != '}';
    assert after[..close] == "{" + after[1..close];
    assert after == after[..close] + ("}" + after[close + 1..]);
  }

  lemma ReadLabelsMatch(name: string, after: string) returns (inner: Option<string>, tail: string)
    requires ParseRest(name, after).Some?
    ensures after == LabelBlock(inner) + tail && (inner.Some? ==> '}' !in inner.value)
    ensures ParseRest(name, after) == ParseValue(name, LabelsOf(inner), tail)
  {
    inner, tail := None, after;
    if after != [] && after[0] == '{' {
      BlockCloses(after);
      var close := IndexOf(after, '}');
      inner, tail := Some(after[1..close]), after[close + 1..];
    }
  }

  lemma ReadNameMatches(line: string) returns (name: string, after: string)
    requires ParseLine(line).Some?
    ensures line == name + after && IsReadName(name) && ParseLine(line) == ParseRest(name, after)
  {
    var n := Span(line, IsNameChar);
    name, after := line[..n], line[n..];
    FrontIsName(line, n);
  }

  lemma FrontIsName(line: string, n: nat)
    requires 0 < n <= |line| && IsNameStart(line[0]) && forall i :: 0 <= i < n ==> IsNameChar(line[i])
    ensures IsReadName(line[..n]) && line == line[..n] + line[n..]
  {
  }

  lemma ReadIsMatch(line: string)
    returns (name: string, inner: Option<string>, spaces: string, number: string, rest: string)
    requires ParseLine(line).Some?
    ensures IsMatch(line, name, inner, spaces, number, rest)
    ensures ParseLine(line).value == SampleOf(name, inner, number)
  {
    var after, tail;
    name, after := ReadNameMatches(line);
    inner, tail := ReadLabelsMatch(name, after);
    spaces, number, rest := ReadNumberMatches(name, LabelsOf(inner), tail);
  }

  /** The reader takes a line exactly if it matches the pattern, and takes from it what the pattern captures;
      so the scan needs no backtracking. */
  lemma LineIsReadIff(line: string, sample: Sample)
    ensures ParseLine(line) == Some(sample) <==>
            exists name, inner, spaces, number, rest ::
              IsMatch(line, name, inner, spaces, number, rest) && sample == SampleOf(name, inner, number)
  {
    if ParseLine(line) == Some(sample) {
      var name, inner, spaces, number, rest := ReadIsMatch(line);
    }
    if name, inner, spaces, number, rest :|
      IsMatch(line, name, inner, spaces, number, rest) && sample == SampleOf(name, inner, number) {
      MatchIsRead(line, name, inner, spaces, number, rest);
    }
  }

  /** The line, without white space around it, is a match. A comment is none. */
  ghost predicate IsSampleLine(raw: string) {
    exists name, inner, spaces, number, rest :: IsMatch(Trim(raw, JsSpace), name, inner, spaces, number, rest)
  }

  /** A line of a page contributes a sample exactly if it is a match, white space around it aside. */
  lemma LineContributesIff(raw: string)
    ensures ReadLine(raw) != [] <==> IsSampleLine(raw)
  {
    var line := Trim(raw, JsSpace);
    if ReadLine(raw) != [] { var name, inner, spaces, number, rest := ReadIsMatch(line); }
    if name, inner, spaces, number, rest :| IsMatch(line, name, inner, spaces, number, rest) {
      MatchIsRead(line, name, inner, spaces, number, rest);
      assert line[0] == name[0] != '#';
    }
  }

  lemma {:induction false} FirstContributing(lines: seq<string>) returns (i: nat)
    requires ReadLines(lines) != []
    ensures i < |lines| && ReadLine(lines[i]) != []
    decreases |lines|
  {
    i := 0;
    if ReadLine(lines[0]) == [] {
      i := FirstContributing(lines[1..]);
      i := i + 1;
    }
  }

  lemma {:induction false} ContributionStays(lines: seq<string>, i: nat)
    requires i < |lines| && ReadLine(lines[i]) != []
    ensures ReadLines(lines) != []
    decreases |lines|
  {
    if i > 0 { ContributionStays(lines[1..], i - 1); }
  }

  predicate LooksLikePrometheus(text: string) { |ParsePrometheus(text)| > 0 }

  /** A text that is taken for metrics has a line that is a sample, so a snapshot of zeros can be told from a
      page that holds no metrics at all; */
  lemma MetricsHaveSample(text: string) returns (i: nat)
    requires LooksLikePrometheus(text)
    ensures i < |Split(text, '\n')| && IsSampleLine(Split(text, '\n')[i])
  {
    i := FirstContributing(Split(text, '\n'));
    LineContributesIff(Split(text, '\n')[i]);
  }

  /** and one such line is enough. */
  lemma SampleMakesMetrics(text: string, i: nat)
    requires i < |Split(text, '\n')| && IsSampleLine(Split(text, '\n')[i])
    ensures LooksLikePrometheus(text)
  {
    LineContributesIff(Split(text, '\n')[i]);
    ContributionStays(Split(text, '\n'), i);
  }

  // ----- The snapshot -----

  datatype Snapshot = Snapshot(requestsByStatus: map<JsNumber, JsNumber>, activeRequests: JsNumber, agents: JsNumber,
                               agentsHealthy: JsNumber, bytesOut: JsNumber, requestDurationMs: JsNumber,
                               requestCount: JsNumber)

  function First(samples: seq<Sample>, name: string): Option<JsNumber> {
    if samples == [] then None
    else if samples[0].name == name then Some(samples[0].value)
    else First(samples[1..], name)
  }

  function OrZero(v: Option<JsNumber>): JsNumber { if v.Some? then v.value else Whole(0) }

  predicate IsStatusSample(s: Sample) {
    s.name == "hlmg_requests_total" && "status" in s.labels && s.labels["status"] != ""
  }

  function StatusMap(samples: seq<Sample>): map<JsNumber, JsNumber> {
    if samples == [] then map[]
    else
      var before, s := StatusMap(samples[..|samples| - 1]), samples[|samples| - 1];
      if IsStatusSample(s) then before[Number(s.labels["status"]) := s.value] else before
  }

  function SnapshotOf(samples: seq<Sample>): Snapshot {
    Snapshot(StatusMap(samples), OrZero(First(samples, "hlmg_active_requests")), OrZero(First(samples, "hlmg_agents")),
             OrZero(First(samples, "hlmg_agents_healthy")), OrZero(First(samples, "hlmg_bytes_out")),
             OrZero(First(samples, "hlmg_request_duration_ms")), OrZero(First(samples, "hlmg_request_count")))
  }

  method ParseMetrics(text: string) returns (snapshot: Snapshot)
    ensures snapshot == SnapshotOf(ParsePrometheus(text))
  {
    var samples := ParseLoop(text);
    var byStatus: map<JsNumber, JsNumber> := map[];
    for i := 0 to |samples|
      invariant byStatus == StatusMap(samples[..i])
    {
      var s := samples[i];
      if s.name == "hlmg_requests_total" && "status" in s.labels && s.labels["status"] != "" {
        byStatus := byStatus[Number(samples[i].labels["status"]) := samples[i].value];
      }
      assert samples[..i + 1][..i] == samples[..i];
    }
    assert samples[..|samples|] == samples;
    snapshot := Snapshot(byStatus, OrZero(First(samples, "hlmg_active_requests")),
                         OrZero(First(samples, "hlmg_agents")),
                         OrZero(First(samples, "hlmg_agents_healthy")), OrZero(First(samples, "hlmg_bytes_out")),
                         OrZero(First(samples, "hlmg_request_duration_ms")),
                         OrZero(First(samples, "hlmg_request_count")));
  }

  /** A text that holds no metrics gives the snapshot of an idle gateway, which is why the two must be told
      apart by `LooksLikePrometheus`. */
  lemma NoMetricsLooksIdle(text: string)
    requires !LooksLikePrometheus(text)
    ensures SnapshotOf(ParsePrometheus(text))
            == Snapshot(map[], Whole(0), Whole(0), Whole(0), Whole(0), Whole(0), Whole(0))
  {
    assert ParsePrometheus(text) == [];
  }
}
