/** What the dashboard reads is what the gateway printed: `parsePrometheus` after `render`, and what
    `parseMetrics` recovers from it. */
module MetricsRoundTrip {
  import opened Options
  import opened Decimal
  import opened Text
  import opened Sorting
  import opened MetricsText
  import opened MetricsReader

  /** A metric or label name that the reader's pattern accepts. */
  predicate IsName(s: string) {
    s != [] && IsNameStart(s[0]) && forall i :: 0 <= i < |s| ==> IsNameChar(s[i])
  }

  /** A backslash followed by `c` somewhere. */
  predicate HasEscape(s: string, c: char) { exists i :: 0 <= i < |s| - 1 && s[i] == '\\' && s[i + 1] == c }

  /** Label values, printed without escaping, that the reader does not take for syntax. */
  predicate IsFaithful(key: string) {
    ',' !in key && '}' !in key && !HasEscape(key, '"') && !HasEscape(key, '\\')
  }

  /** The number the reader gets from a printed count. */
  function Reading(v: nat): JsNumber { if v < EXACT_LIMIT then Whole(v) else Other(Print(v)) }

  lemma NumberOfPrint(v: nat)
    ensures Number(Print(v)) == Reading(v)
  {
    ValueOfPrint(v);
  }

  // ----- One line -----

  lemma TrimKeeps(s: string)
    requires s != [] && !JsSpace(s[0]) && !JsSpace(s[|s| - 1])
    ensures Trim(s, JsSpace) == s
  {
  }

  lemma ReadValue(name: string, labels: map<string, string>, v: nat)
    ensures ParseValue(name, labels, " " + Print(v)) == Some(Sample(name, labels, Reading(v)))
  {
    var text := Print(v);
    assert IsDigit(text[0]);
    SpanIs(" ", text, JsSpace);
    assert (" " + text)[1..] == text;
    assert text + [] == text && text[0..] == text && text[..|text|] == text;
    SpanIs(text, [], IsNumberChar);
    NumberOfPrint(v);
  }

  /** A line is read as its name followed by the rest. */
  lemma ReadNamed(name: string, rest: string)
    requires IsName(name) && rest != [] && !IsNameChar(rest[0]) && !JsSpace(rest[|rest| - 1])
    ensures ReadLine(name + rest) == Found(ParseRest(name, rest))
  {
    var line := name + rest;
    assert line[0] == name[0] && line[|line| - 1] == rest[|rest| - 1];
    TrimKeeps(line);
    SpanIs(name, rest, IsNameChar);
    assert line[..|name|] == name && line[|name|..] == rest;
  }

  lemma ReadScalar(name: string, v: nat)
    requires IsName(name)
    ensures ReadLine(ScalarLine(name, v)) == [Sample(name, map[], Reading(v))]
  {
    var rest := " " + Print(v);
    assert ScalarLine(name, v) == name + rest;
    assert IsDigit(rest[|rest| - 1]);
    ReadNamed(name, rest);
    ReadValue(name, map[], v);
  }

  /** The label block of an entry, and what follows the name on its line. */
  function Block(tag: string, key: string): string { tag + "=\"" + key + "\"" }

  function AfterName(tag: string, key: string, v: nat): string { "{" + Block(tag, key) + "} " + Print(v) }

  lemma ReadEntry(name: string, tag: string, key: string, v: nat)
    requires IsName(name)
    ensures ReadLine(EntryLine(name, tag, key, v)) == Found(ParseRest(name, AfterName(tag, key, v)))
  {
    var rest := AfterName(tag, key, v);
    assert EntryLine(name, tag, key, v) == name + rest;
    assert rest[|rest| - 1] == Print(v)[|Print(v)| - 1];
    ReadNamed(name, rest);
  }

  /** The first position of `c` is right after a text without `c`. */
  lemma IndexOfAfter(a: string, b: string, c: char)
    requires c !in a && b != [] && b[0] == c
    ensures IndexOf(a + b, c) == |a|
  {
    SpanIs(a, b, x => x != c);
  }

  lemma ReadPair(tag: string, key: string)
    requires IsName(tag)
    ensures AddLabel(map[], Block(tag, key))
            == if tag == PROTO then map[] else map[tag := DropEscapes(DropEscapes(key, '"'), '\\')]
  {
    var block, quoted := Block(tag, key), "\"" + key + "\"";
    assert block == tag + ("=" + quoted);
    IndexOfAfter(tag, "=" + quoted, '=');
    assert block[..|tag|] == tag && block[|tag| + 1..] == quoted;
    TrimKeeps(tag);
    ReadQuoted(key);
  }

  lemma ReadQuoted(key: string)
    ensures Unquote(Trim("\"" + key + "\"", JsSpace)) == DropEscapes(DropEscapes(key, '"'), '\\')
  {
    var quoted := "\"" + key + "\"";
    TrimKeeps(quoted);
    assert quoted[1..|quoted| - 1] == key;
  }

  lemma ReadBlock(tag: string, key: string)
    requires IsName(tag) && ',' !in key
    ensures ParseLabels(Block(tag, key))
            == if tag == PROTO then map[] else map[tag := DropEscapes(DropEscapes(key, '"'), '\\')]
  {
    var block := Block(tag, key);
    assert block + [] == block;
    SplitPlain(block, [], ',');
    AddOneLabel(block);
    ReadPair(tag, key);
  }

  lemma AddOneLabel(pair: string)
    ensures AddLabels([pair]) == AddLabel(map[], pair)
  {
    var none: seq<string> := [];
    assert [pair][..0] == none;
  }

  // Unescaping shortens a value that holds an escape and keeps every other one.

  lemma {:induction false} DropEscapesKeeps(s: string, c: char)
    ensures |DropEscapes(s, c)| <= |s|
    ensures HasEscape(s, c) ==> |DropEscapes(s, c)| < |s|
    ensures !HasEscape(s, c) ==> DropEscapes(s, c) == s
    decreases |s|
  {
    if s == [] {
    } else if |s| >= 2 && s[0] == '\\' && s[1] == c {
      DropEscapesKeeps(s[2..], c);
    } else {
      DropEscapesKeeps(s[1..], c);
      if HasEscape(s, c) {
        var i :| 0 <= i < |s| - 1 && s[i] == '\\' && s[i + 1] == c;
        assert s[1..][i - 1] == '\\' && s[1..][i - 1 + 1] == c;
      } else {
        assert [s[0]] + s[1..] == s;
      }
    }
  }

  lemma UnescapeKeeps(key: string)
    ensures DropEscapes(DropEscapes(key, '"'), '\\') == key <==> !HasEscape(key, '"') && !HasEscape(key, '\\')
  {
    DropEscapesKeeps(key, '"');
    DropEscapesKeeps(DropEscapes(key, '"'), '\\');
  }

  // What the reader stores as a label value is made of characters of its input.

  lemma {:induction false} SplitAvoids(s: string, sep: char, c: char)
    requires c !in s
    ensures forall i :: 0 <= i < |Split(s, sep)| ==> c !in Split(s, sep)[i]
    decreases |s|
  {
    if s != [] { SplitAvoids(s[1..], sep, c); }
  }

  lemma {:induction false} TrimStartAvoids(s: string, c: char)
    requires c !in s
    ensures c !in TrimStart(s, JsSpace)
    decreases |s|
  {
    if s != [] { TrimStartAvoids(s[1..], c); }
  }

  lemma {:induction false} DropEscapesAvoids(s: string, d: char, c: char)
    requires c !in s
    ensures c !in DropEscapes(s, d)
    decreases |s|
  {
    if s == [] {
    } else if |s| >= 2 && s[0] == '\\' && s[1] == d {
      DropEscapesAvoids(s[2..], d, c);
    } else {
      DropEscapesAvoids(s[1..], d, c);
    }
  }

  lemma ValueAvoids(v: string, c: char)
    requires c !in v
    ensures c !in Unquote(Trim(v, JsSpace))
  {
    TrimStartAvoids(v, c);
    var t := Trim(v, JsSpace);
    assert c !in t;
    if t != [] && t[0] == '"' && t[|t| - 1] == '"' && |t| > 1 {
      DropEscapesAvoids(t[1..|t| - 1], '"', c);
      DropEscapesAvoids(DropEscapes(t[1..|t| - 1], '"'), '\\', c);
    }
  }

  lemma {:induction false} LabelsAvoid(pairs: seq<string>, c: char)
    requires forall i :: 0 <= i < |pairs| ==> c !in pairs[i]
    ensures forall k :: k in AddLabels(pairs) ==> c !in AddLabels(pairs)[k]
    decreases |pairs|
  {
    if pairs != [] {
      LabelsAvoid(pairs[..|pairs| - 1], c);
      var pair := pairs[|pairs| - 1];
      var eq := IndexOf(pair, '=');
      if 0 < eq < |pair| { ValueAvoids(pair[eq + 1..], c); }
    }
  }

  /** No label value that was read holds a comma, or a character the label block does not hold. */
  lemma ParsedLabelsAvoid(part: string, c: char)
    requires c == ',' || c !in part
    ensures forall k :: k in ParseLabels(part) ==> c !in ParseLabels(part)[k]
  {
    if part != [] {
      if c != ',' { SplitAvoids(part, ',', c); }
      LabelsAvoid(Split(part, ','), c);
    }
  }

  /** A labelled line gives its sample back if and only if the label value holds no comma, no closing
      brace and no escape, and the label is not `__proto__`. Spaces, quotes and equals signs in the
      value do no harm. */
  lemma EntryReadsBackIff(name: string, tag: string, key: string, v: nat)
    requires IsName(name) && IsName(tag)
    ensures ReadLine(EntryLine(name, tag, key, v)) == [Sample(name, map[tag := key], Reading(v))]
            <==> IsFaithful(key) && tag != PROTO
  {
    ReadEntry(name, tag, key, v);
    if ',' in key || '}' in key {
      BrokenIsLost(name, tag, key, v);
    } else {
      WholeBlockIsRead(name, tag, key, v);
      UnescapeKeeps(key);
      var got := map[tag := DropEscapes(DropEscapes(key, '"'), '\\')];
      assert got[tag] == DropEscapes(DropEscapes(key, '"'), '\\');
      assert tag in map[tag := key];
      assert map[tag := key][tag] == key;
    }
  }

  lemma BlockEndsAtBrace(name: string, block: string, tail: string)
    requires '}' !in block
    ensures ParseRest(name, ("{" + block) + ("}" + tail)) == ParseValue(name, ParseLabels(block), tail)
  {
    var rest := ("{" + block) + ("}" + tail);
    IndexOfAfter("{" + block, "}" + tail, '}');
    assert rest[1..1 + |block|] == block;
    assert rest[1 + |block| + 1..] == tail;
  }

  lemma WholeBlockIsRead(name: string, tag: string, key: string, v: nat)
    requires IsName(tag) && ',' !in key && '}' !in key
    ensures ParseRest(name, AfterName(tag, key, v)) ==
            Some(Sample(name, if tag == PROTO then map[] else map[tag := DropEscapes(DropEscapes(key, '"'), '\\')],
                        Reading(v)))
  {
    var block, tail := Block(tag, key), " " + Print(v);
    assert AfterName(tag, key, v) == ("{" + block) + ("}" + tail);
    BlockEndsAtBrace(name, block, tail);
    ReadBlock(tag, key);
    ReadValue(name, ParseLabels(block), v);
  }

  lemma BrokenIsLost(name: string, tag: string, key: string, v: nat)
    requires ',' in key || '}' in key
    ensures ParseRest(name, AfterName(tag, key, v)) != Some(Sample(name, map[tag := key], Reading(v)))
  {
    var rest := AfterName(tag, key, v);
    var close := IndexOf(rest, '}');
    if close < |rest| {
      var part := rest[1..close];
      ParsedLabelsAvoid(part, if ',' in key then ',' else '}');
      assert map[tag := key][tag] == key;
    }
  }

  lemma CommentIsSkipped(line: string)
    requires line != [] && line[0] == '#'
    ensures ReadLine(line) == []
  {
    assert TrimStart(line, JsSpace) == line;
  }

  // ----- A family -----

  function EntrySamples(name: string, tag: string, entries: seq<(string, nat)>): (samples: seq<Sample>)
    ensures |samples| == |entries|
    ensures forall i :: 0 <= i < |entries| ==>
              samples[i] == Sample(name, map[tag := entries[i].0], Reading(entries[i].1))
  {
    seq(|entries|, i requires 0 <= i < |entries| => Sample(name, map[tag := entries[i].0], Reading(entries[i].1)))
  }

  /** The samples that a family stands for, in the order they are printed. */
  ghost function Samples(f: Family): seq<Sample> {
    if f.Scalar? then [Sample(f.name, map[], Reading(f.value))] else EntrySamples(f.name, f.tag, Entries(f))
  }

  ghost function AllSamples(families: seq<Family>): seq<Sample> {
    if families == [] then [] else Samples(families[0]) + AllSamples(families[1..])
  }

  /** Names the reader knows, label values it does not mistake for syntax, and nothing that breaks a
      line in two. */
  ghost predicate Readable(f: Family, help: Help) {
    && IsName(f.name) && '\n' !in help(f.name)
    && match f
       case Scalar(_, kind, _) => '\n' !in kind
       case ByStatus(_, tag, _) => IsName(tag) && tag != PROTO
       case Labeled(_, tag, counts) =>
         IsName(tag) && tag != PROTO && forall k :: k in counts ==> IsFaithful(k) && '\n' !in k
  }

  lemma {:induction false} ReadLinesAre(lines: seq<string>, samples: seq<Sample>)
    requires |lines| == |samples| && forall i :: 0 <= i < |lines| ==> ReadLine(lines[i]) == [samples[i]]
    ensures ReadLines(lines) == samples
    decreases |lines|
  {
    if lines != [] {
      ReadLinesAre(lines[1..], samples[1..]);
      assert [samples[0]] + samples[1..] == samples;
    }
  }

  lemma ReadableEntries(f: Family, help: Help, i: nat)
    requires Readable(f, help) && !f.Scalar? && i < |Entries(f)|
    ensures IsFaithful(Entries(f)[i].0) && '\n' !in Entries(f)[i].0
  {
    if f.ByStatus? {
      var keys := SortedCodes(f.codes);
      var key := Entries(f)[i].0;
      assert key == Print(keys[i]);
      assert forall j :: 0 <= j < |key| ==> IsDigit(key[j]);
    } else {
      StringLessIsTotal();
      var keys := Sorted(f.counts.Keys, StringLess);
      assert keys[i] in keys;
    }
  }

  lemma HeaderIsSkipped(name: string, kind: string, help: Help, rest: seq<string>)
    ensures ReadLines([HelpLine(name, help), TypeLine(name, kind)] + rest) == ReadLines(rest)
  {
    var a, b := HelpLine(name, help), TypeLine(name, kind);
    CommentIsSkipped(a);
    CommentIsSkipped(b);
    assert ([a, b] + rest)[1..] == [b] + rest;
    assert ([b] + rest)[1..] == rest;
  }

  lemma FamilyReadsBack(f: Family, help: Help)
    requires Readable(f, help)
    ensures ReadLines(Lines(f, help)) == Samples(f)
  {
    match f
    case Scalar(name, kind, value) =>
      var line := ScalarLine(name, value);
      assert Lines(f, help) == [HelpLine(name, help), TypeLine(name, kind)] + [line];
      HeaderIsSkipped(name, kind, help, [line]);
      ReadScalar(name, value);
      ReadOneLine(line);
    case ByStatus(name, tag, _) =>
      EntriesReadBack(f, help);
      HeaderIsSkipped(name, "counter", help, EntryLines(name, tag, Entries(f)));
    case Labeled(name, tag, counts) =>
      EntriesReadBack(f, help);
      if counts == map[] {
        NoEntries(f);
      } else {
        HeaderIsSkipped(name, "counter", help, EntryLines(name, tag, Entries(f)));
      }
  }

  lemma NoEntries(f: Family)
    requires f.Labeled? && f.counts == map[]
    ensures Entries(f) == []
  {
    StringLessIsTotal();
    EmptyListsNothing(Sorted(f.counts.Keys, StringLess), f.counts.Keys, StringLess);
  }

  lemma EntriesReadBack(f: Family, help: Help)
    requires Readable(f, help) && !f.Scalar?
    ensures ReadLines(EntryLines(f.name, f.tag, Entries(f))) == Samples(f)
  {
    var entries := Entries(f);
    var lines := EntryLines(f.name, f.tag, entries);
    forall i | 0 <= i < |entries|
      ensures ReadLine(lines[i]) == [Samples(f)[i]]
    {
      ReadableEntries(f, help, i);
      EntryReadsBackIff(f.name, f.tag, entries[i].0, entries[i].1);
    }
    ReadLinesAre(lines, Samples(f));
  }

  // ----- The page -----

  lemma {:induction false} SplitUnlines(lines: seq<string>)
    requires forall i :: 0 <= i < |lines| ==> '\n' !in lines[i]
    ensures Split(Unlines(lines), '\n') == lines + [""]
    decreases |lines|
  {
    if lines != [] {
      SplitUnlines(lines[1..]);
      var rest := "\n" + Unlines(lines[1..]);
      assert Unlines(lines) == lines[0] + rest;
      SplitPlain(lines[0], rest, '\n');
      assert rest[1..] == Unlines(lines[1..]);
      assert [lines[0]] + (lines[1..] + [""]) == lines + [""];
    }
  }

  lemma LinesAreWhole(f: Family, help: Help)
    requires Readable(f, help)
    ensures forall i :: 0 <= i < |Lines(f, help)| ==> '\n' !in Lines(f, help)[i]
  {
    assert '\n' !in f.name;
    if f.Scalar? {
      assert forall i :: 0 <= i < |Print(f.value)| ==> IsDigit(Print(f.value)[i]);
    } else {
      var entries := Entries(f);
      forall i | 0 <= i < |entries|
        ensures '\n' !in EntryLine(f.name, f.tag, entries[i].0, entries[i].1)
      {
        ReadableEntries(f, help, i);
        EntryIsOneLine(f.name, f.tag, entries[i].0, entries[i].1);
      }
    }
  }

  lemma EntryIsOneLine(name: string, tag: string, key: string, v: nat)
    requires IsName(name) && IsName(tag) && '\n' !in key
    ensures '\n' !in EntryLine(name, tag, key, v)
  {
    assert forall i :: 0 <= i < |Print(v)| ==> IsDigit(Print(v)[i]);
  }

  lemma {:induction false} AllLinesReadBack(families: seq<Family>, help: Help)
    requires forall f :: f in families ==> Readable(f, help)
    ensures ReadLines(AllLines(families, help)) == AllSamples(families)
    ensures forall i :: 0 <= i < |AllLines(families, help)| ==> '\n' !in AllLines(families, help)[i]
    decreases |families|
  {
    if families != [] {
      AllLinesReadBack(families[1..], help);
      FamilyReadsBack(families[0], help);
      LinesAreWhole(families[0], help);
      ReadLinesConcat(Lines(families[0], help), AllLines(families[1..], help));
    }
  }

  /** The round trip: the reader recovers exactly the samples of the page, in their order. */
  lemma PageReadsBack(families: seq<Family>, help: Help)
    requires forall f :: f in families ==> Readable(f, help)
    ensures ParsePrometheus(Page(families, help)) == AllSamples(families)
  {
    AllLinesReadBack(families, help);
    var lines := AllLines(families, help);
    SplitUnlines(lines);
    ReadLinesConcat(lines, [""]);
    ReadOneLine("");
    assert ReadLines(lines) + [] == ReadLines(lines);
  }
}
