/** The metrics page: printed by the gateway in Prometheus text format (`metrics/render.rs`) and read
    back by the dashboard (`web/src/api/metrics.ts`). */
module MetricsText {
  import opened Decimal
  import opened Sorting

  // ----- Printing -----

  /** One family of samples. A family of labelled counters is sorted by its label. */
  datatype Family =
    | Scalar(name: string, kind: string, value: nat)
    | ByStatus(name: string, tag: string, codes: map<nat, nat>)
    | Labeled(name: string, tag: string, counts: map<string, nat>)

  type Help = string -> string

  function HelpLine(name: string, help: Help): string { "# HELP " + name + " " + help(name) }

  function TypeLine(name: string, kind: string): string { "# TYPE " + name + " " + kind }

  function ScalarLine(name: string, value: nat): string { name + " " + Print(value) }

  function EntryLine(name: string, tag: string, key: string, value: nat): string {
    name + "{" + tag + "=\"" + key + "\"} " + Print(value)
  }

  ghost function SortedCodes(codes: map<nat, nat>): (keys: seq<nat>)
    ensures Lists(keys, codes.Keys, NumberLess)
  {
    NumberLessIsTotal();
    Sorted(codes.Keys, NumberLess)
  }

  /** The values by status code, in the order of the numbers. */
  ghost function CodeEntries(codes: map<nat, nat>): seq<(string, nat)> {
    var keys := SortedCodes(codes);
    seq(|keys|, i requires 0 <= i < |keys| => assert keys[i] in keys; (Print(keys[i]), codes[keys[i]]))
  }

  /** The values by label, in lexicographic order. */
  ghost function LabelEntries(counts: map<string, nat>): seq<(string, nat)> {
    StringLessIsTotal();
    var keys := Sorted(counts.Keys, StringLess);
    seq(|keys|, i requires 0 <= i < |keys| => assert keys[i] in keys; (keys[i], counts[keys[i]]))
  }

  ghost function Entries(f: Family): seq<(string, nat)>
    requires !f.Scalar?
  {
    if f.ByStatus? then CodeEntries(f.codes) else LabelEntries(f.counts)
  }

  function EntryLines(name: string, tag: string, entries: seq<(string, nat)>): (lines: seq<string>)
    ensures |lines| == |entries|
    ensures forall i :: 0 <= i < |entries| ==> lines[i] == EntryLine(name, tag, entries[i].0, entries[i].1)
  {
    seq(|entries|, i requires 0 <= i < |entries| => EntryLine(name, tag, entries[i].0, entries[i].1))
  }

  /** The lines of a family. An empty status family keeps its header, an empty labelled one is left
      out altogether. */
  ghost function Lines(f: Family, help: Help): seq<string> {
    match f
    case Scalar(name, kind, value) => [HelpLine(name, help), TypeLine(name, kind), ScalarLine(name, value)]
    case ByStatus(name, tag, codes) =>
      [HelpLine(name, help), TypeLine(name, "counter")] + EntryLines(name, tag, Entries(f))
    case Labeled(name, tag, counts) =>
      if counts == map[] then []
      else [HelpLine(name, help), TypeLine(name, "counter")] + EntryLines(name, tag, Entries(f))
  }

  ghost function AllLines(families: seq<Family>, help: Help): seq<string> {
    if families == [] then [] else Lines(families[0], help) + AllLines(families[1..], help)
  }

  function Unlines(lines: seq<string>): string {
    if lines == [] then [] else lines[0] + "\n" + Unlines(lines[1..])
  }

  lemma {:induction false} UnlinesConcat(a: seq<string>, b: seq<string>)
    ensures Unlines(a + b) == Unlines(a) + Unlines(b)
    decreases |a|
  {
    if a == [] {
      assert a + b == b;
    } else {
      assert (a + b)[1..] == a[1..] + b;
      UnlinesConcat(a[1..], b);
    }
  }

  lemma UnlinesOne(line: string)
    ensures Unlines([line]) == line + "\n"
  {
    assert [line][1..] == [];
  }

  lemma UnlinesTwo(a: string, b: string)
    ensures Unlines([a, b]) == a + "\n" + b + "\n"
  {
    assert [a, b][1..] == [b];
    UnlinesOne(b);
  }

  lemma UnlinesSnoc(lines: seq<string>, i: nat)
    requires i < |lines|
    ensures Unlines(lines[..i + 1]) == Unlines(lines[..i]) + (lines[i] + "\n")
  {
    assert lines[..i + 1] == lines[..i] + [lines[i]];
    UnlinesConcat(lines[..i], [lines[i]]);
    UnlinesOne(lines[i]);
  }

  method PushScalar(out: string, name: string, help: Help, kind: string, value: nat) returns (text: string)
    ensures text == out + Unlines(Lines(Scalar(name, kind, value), help))
  {
    text := out + "# HELP " + name + " " + help(name) + "\n# TYPE " + name + " " + kind + "\n"
            + name + " " + Print(value) + "\n";
    var a, b, c := HelpLine(name, help), TypeLine(name, kind), ScalarLine(name, value);
    assert [a, b, c][1..] == [b, c];
    UnlinesTwo(b, c);
    assert text == out + (a + "\n" + (b + "\n" + c + "\n"));
  }

  /** Appends the lines of the entries for `keys`. */
  method PushEntries(out: string, name: string, tag: string, entries: seq<(string, nat)>) returns (text: string)
    ensures text == out + Unlines(EntryLines(name, tag, entries))
  {
    text := out;
    var lines := EntryLines(name, tag, entries);
    for i := 0 to |entries|
      invariant text == out + Unlines(lines[..i])
    {
      text := text + (EntryLine(name, tag, entries[i].0, entries[i].1) + "\n");
      UnlinesSnoc(lines, i);
    }
    assert lines[..|entries|] == lines;
  }

  /** Appends a family header and its entries. */
  method PushWithHeader(out: string, name: string, tag: string, help: Help, entries: seq<(string, nat)>)
    returns (text: string)
    ensures text == out + Unlines([HelpLine(name, help), TypeLine(name, "counter")] + EntryLines(name, tag, entries))
  {
    var a, b := HelpLine(name, help), TypeLine(name, "counter");
    text := out + a + "\n" + b + "\n";
    UnlinesTwo(a, b);
    assert text == out + Unlines([a, b]);
    text := PushEntries(text, name, tag, entries);
    UnlinesConcat([a, b], EntryLines(name, tag, entries));
  }

  method SortCodes(codes: map<nat, nat>) returns (entries: seq<(string, nat)>)
    ensures entries == CodeEntries(codes)
  {
    NumberLessIsTotal();
    var keys := Sort(codes.Keys, NumberLess);
    ListIsUnique(keys, SortedCodes(codes), codes.Keys, NumberLess);
    entries := seq(|keys|, i requires 0 <= i < |keys| => assert keys[i] in keys; (Print(keys[i]), codes[keys[i]]));
  }

  method SortLabels(counts: map<string, nat>) returns (entries: seq<(string, nat)>)
    ensures entries == LabelEntries(counts)
  {
    StringLessIsTotal();
    var keys := Sort(counts.Keys, StringLess);
    ListIsUnique(keys, Sorted(counts.Keys, StringLess), counts.Keys, StringLess);
    entries := seq(|keys|, i requires 0 <= i < |keys| => assert keys[i] in keys; (keys[i], counts[keys[i]]));
  }

  /** On the page status codes ascend as numbers, and labels in the order of their characters. */
  lemma EntriesAscend(codes: map<nat, nat>, counts: map<string, nat>, i: nat, j: nat)
    requires i < j
    ensures j < |CodeEntries(codes)| ==>
              exists a, b :: a < b && CodeEntries(codes)[i].0 == Print(a) && CodeEntries(codes)[j].0 == Print(b)
    ensures j < |LabelEntries(counts)| ==> ComesFirst(LabelEntries(counts)[i].0, LabelEntries(counts)[j].0)
  {
    if j < |CodeEntries(codes)| {
      var keys := SortedCodes(codes);
      assert NumberLess(keys[i], keys[j]);
      assert CodeEntries(codes)[i].0 == Print(keys[i]) && CodeEntries(codes)[j].0 == Print(keys[j]);
    }
    if j < |LabelEntries(counts)| {
      StringLessIsTotal();
      var keys := Sorted(counts.Keys, StringLess);
      assert Lists(keys, counts.Keys, StringLess);
      assert StringLess(keys[i], keys[j]);
      assert LabelEntries(counts)[i].0 == keys[i] && LabelEntries(counts)[j].0 == keys[j];
      StringLessIff(keys[i], keys[j]);
    }
  }

  method PushStatusFamily(out: string, name: string, tag: string, help: Help, codes: map<nat, nat>)
    returns (text: string)
    ensures text == out + Unlines(Lines(ByStatus(name, tag, codes), help))
  {
    var entries := SortCodes(codes);
    text := PushWithHeader(out, name, tag, help, entries);
  }

  method PushLabeledFamily(out: string, name: string, tag: string, help: Help, counts: map<string, nat>)
    returns (text: string)
    ensures text == out + Unlines(Lines(Labeled(name, tag, counts), help))
  {
    if counts == map[] { return out; }
    var entries := SortLabels(counts);
    text := PushWithHeader(out, name, tag, help, entries);
  }

  method PushFamily(out: string, f: Family, help: Help) returns (text: string)
    ensures text == out + Unlines(Lines(f, help))
  {
    match f
    case Scalar(name, kind, value) => text := PushScalar(out, name, help, kind, value);
    case ByStatus(name, tag, codes) => text := PushStatusFamily(out, name, tag, help, codes);
    case Labeled(name, tag, counts) => text := PushLabeledFamily(out, name, tag, help, counts);
  }

  /** The text of a page. */
  ghost function Page(families: seq<Family>, help: Help): string { Unlines(AllLines(families, help)) }

  lemma {:induction false} AllLinesConcat(a: seq<Family>, b: seq<Family>, help: Help)
    ensures AllLines(a + b, help) == AllLines(a, help) + AllLines(b, help)
    decreases |a|
  {
    if a == [] {
      assert a + b == b;
    } else {
      assert (a + b)[1..] == a[1..] + b;
      AllLinesConcat(a[1..], b, help);
      var x, y, z := Lines(a[0], help), AllLines(a[1..], help), AllLines(b, help);
      assert x + (y + z) == (x + y) + z;
    }
  }

  lemma PageSnoc(families: seq<Family>, help: Help, i: nat)
    requires i < |families|
    ensures Page(families[..i + 1], help) == Page(families[..i], help) + Unlines(Lines(families[i], help))
  {
    var last := [families[i]];
    assert families[..i + 1] == families[..i] + last;
    AllLinesConcat(families[..i], last, help);
    assert last[1..] == [];
    var mine := Lines(families[i], help);
    assert AllLines(last, help) == mine + [] == mine;
    UnlinesConcat(AllLines(families[..i], help), mine);
  }

  /** Prints the families one after the other. */
  method RenderFamilies(families: seq<Family>, help: Help) returns (text: string)
    ensures text == Page(families, help)
  {
    text := "";
    for i := 0 to |families|
      invariant text == Page(families[..i], help)
    {
      text := PushFamily(text, families[i], help);
      PageSnoc(families, help, i);
    }
    assert families[..|families|] == families;
  }
}
