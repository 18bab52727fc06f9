/** String operations that several components share. */
module Text {

  /** ASCII case folding, as `to_ascii_lowercase` does it. */
  function LowerChar(c: char): char { if 'A' <= c <= 'Z' then c + 32 as char else c }

  function Lower(s: string): (r: string)
    ensures |r| == |s| && forall i :: 0 <= i < |s| ==> r[i] == LowerChar(s[i])
  {
    seq(|s|, i requires 0 <= i < |s| => LowerChar(s[i]))
  }

  /** Splitting on one character. */
  function Split(s: string, sep: char): (parts: seq<string>)
    ensures |parts| > 0
    ensures forall i :: 0 <= i < |parts| ==> sep !in parts[i]
  {
    if s == [] then [[]]
    else
      var rest := Split(s[1..], sep);
      if s[0] == sep then [[]] + rest else [[s[0]] + rest[0]] + rest[1..]
  }

  /** A piece without separators, followed by nothing or by a separator, is split off whole. */
  lemma {:induction false} SplitPlain(s: string, rest: string, sep: char)
    requires sep !in s && (rest != [] ==> rest[0] == sep)
    ensures Split(s + rest, sep) == if rest == [] then [s] else [s] + Split(rest[1..], sep)
    decreases |s|
  {
    if s == [] {
      assert s + rest == rest;
      if rest != [] { assert Split(rest, sep) == [[]] + Split(rest[1..], sep); }
    } else {
      assert (s + rest)[1..] == s[1..] + rest;
      SplitPlain(s[1..], rest, sep);
      assert [s[0]] + s[1..] == s;
    }
  }

  /** Trimming both ends of characters that count as space. */
  function TrimStart(s: string, space: char -> bool): (r: string)
    ensures r == [] || !space(r[0])
  {
    if s != [] && space(s[0]) then TrimStart(s[1..], space) else s
  }

  function TrimEnd(s: string, space: char -> bool): (r: string)
    ensures r <= s
    ensures r == [] || !space(r[|r| - 1])
  {
    if s != [] && space(s[|s| - 1]) then TrimEnd(s[..|s| - 1], space) else s
  }

  function Trim(s: string, space: char -> bool): string { TrimEnd(TrimStart(s, space), space) }

  predicate All(s: string, within: char -> bool) { forall i :: 0 <= i < |s| ==> within(s[i]) }

  lemma {:induction false} TrimStartDrops(before: string, s: string, space: char -> bool)
    requires All(before, space)
    ensures TrimStart(before + s, space) == TrimStart(s, space)
    decreases |before|
  {
    if before == [] {
      assert before + s == s;
    } else {
      assert (before + s)[1..] == before[1..] + s;
      TrimStartDrops(before[1..], s, space);
    }
  }

  lemma {:induction false} TrimEndDrops(s: string, after: string, space: char -> bool)
    requires All(after, space)
    ensures TrimEnd(s + after, space) == TrimEnd(s, space)
    decreases |after|
  {
    if after == [] {
      assert s + after == s;
    } else {
      var last := |after| - 1;
      assert (s + after)[..|s| + last] == s + after[..last];
      TrimEndDrops(s, after[..last], space);
    }
  }

  /** Trimming takes the white space around a core that does not begin or end with any. */
  lemma TrimIsTheCore(before: string, core: string, after: string, space: char -> bool)
    requires All(before, space) && All(after, space)
    requires core != [] ==> !space(core[0]) && !space(core[|core| - 1])
    ensures Trim(before + core + after, space) == core
  {
    assert before + core + after == before + (core + after);
    TrimStartDrops(before, core + after, space);
    if core == [] {
      assert core + after == after + [];
      TrimStartDrops(after, [], space);
    } else {
      TrimEndDrops(core, after, space);
    }
  }

  /** The length of the longest prefix made of characters `within` a class. */
  function Span(s: string, within: char -> bool): (n: nat)
    ensures n <= |s| && (forall i :: 0 <= i < n ==> within(s[i])) && (n < |s| ==> !within(s[n]))
  {
    if s == [] || !within(s[0]) then 0 else 1 + Span(s[1..], within)
  }

  lemma {:induction false} SpanIs(a: string, b: string, within: char -> bool)
    requires (forall i :: 0 <= i < |a| ==> within(a[i])) && (b != [] ==> !within(b[0]))
    ensures Span(a + b, within) == |a|
    decreases |a|
  {
    if a == [] {
      assert a + b == b;
    } else {
      assert (a + b)[1..] == a[1..] + b;
      SpanIs(a[1..], b, within);
    }
  }
}
