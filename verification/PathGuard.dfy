/** The guard on upstream paths, shared by gateway and agent: a path is forwarded verbatim or not at
    all. A string stands for its UTF-8 bytes, one character per byte. */
module PathGuard {

  import opened Options
  import opened Text

  // ----- The guard -----

  predicate Contains(s: string, pattern: string) {
    exists i :: 0 <= i <= |s| && StartsAt(s, i, pattern)
  }

  predicate StartsAt(s: string, i: nat, pattern: string)
    requires i <= |s|
  {
    pattern <= s[i..]
  }

  predicate IsDotSegment(segment: string) { segment == "." || segment == ".." }

  function SafeUpstreamPath(path: string): Option<string> {
    if !("/v1/" <= path) then None
    else
      var lower := Lower(path);
      if '\\' in lower || Contains(lower, "%2e") || Contains(lower, "%2f") || Contains(lower, "%5c") then None
      else
        var segments := Split(path, '/')[1..];
        if exists i :: 0 <= i < |segments| && (segments[i] == "" || IsDotSegment(segments[i])) then None
        else Some(path)
  }

  /** The position of the first `?`, or the length if there is none. */
  function FindQuery(target: string): (i: nat)
    ensures i <= |target| && '?' !in target[..i] && (i < |target| ==> target[i] == '?')
  {
    if target == [] || target[0] == '?' then 0
    else
      var i := 1 + FindQuery(target[1..]);
      assert target[..i] == [target[0]] + target[1..][..i - 1];
      i
  }

  function SplitTarget(target: string): (string, string) {
    var i := FindQuery(target);
    (target[..i], target[i..])
  }

  function UpstreamUrl(upstream: string, target: string): Option<string> {
    var (path, query) := SplitTarget(target);
    match SafeUpstreamPath(path)
    case None => None
    case Some(safe) => Some(upstream + safe + query)
  }

  // ----- Segments -----

  /** The segments with a slash before each: the inverse of splitting a path that starts with one. */
  function Join(segments: seq<string>): string {
    if segments == [] then [] else "/" + segments[0] + Join(segments[1..])
  }

  lemma JoinCons(s: string, segments: seq<string>)
    ensures Join([s] + segments) == "/" + s + Join(segments)
  {
    assert ([s] + segments)[1..] == segments;
  }

  lemma PrependToFirst(c: char, first: string, tail: string)
    ensures "/" + ([c] + first) + tail == "/" + ([c] + (first + tail))
  {
  }

  lemma {:induction false} SplitJoins(path: string)
    ensures "/" + path == Join(Split(path, '/'))
  {
    if path != [] {
      var c, rest := path[0], Split(path[1..], '/');
      SplitJoins(path[1..]);
      assert path == [c] + path[1..];
      if c == '/' {
        JoinCons([], rest);
      } else {
        var tail := Join(rest[1..]);
        assert "/" + path[1..] == "/" + (rest[0] + tail);
        assert path[1..] == ("/" + path[1..])[1..] == ("/" + (rest[0] + tail))[1..] == rest[0] + tail;
        JoinCons([c] + rest[0], rest[1..]);
        PrependToFirst(c, rest[0], tail);
      }
    }
  }

  // ----- remove_dot_segments, section 5.2.4 of RFC 3986 -----

  /** The output buffer without its last segment and the slash before it. */
  function DropLast(output: string): (r: string)
    ensures r <= output
    ensures output != [] ==> |r| < |output|
  {
    if output == [] then []
    else if output[|output| - 1] == '/' then output[..|output| - 1]
    else DropLast(output[..|output| - 1])
  }

  /** The length of the first segment of the input, its leading slash included. */
  function FirstSegment(input: string): (n: nat)
    requires input != []
    ensures 0 < n <= |input|
    ensures '/' !in input[1..n] && (n < |input| ==> input[n] == '/')
  {
    if |input| == 1 || input[1] == '/' then 1
    else
      var n := 1 + FirstSegment(input[1..]);
      assert input[1..n] == [input[1]] + input[1..][1..n - 1];
      n
  }

  function RemoveDots(input: string, output: string): string
    decreases |input|
  {
    if input == [] then output
    else if "../" <= input then RemoveDots(input[3..], output)
    else if "./" <= input then RemoveDots(input[2..], output)
    else if "/./" <= input then RemoveDots(input[2..], output)
    else if input == "/." then RemoveDots("/", output)
    else if "/../" <= input then RemoveDots(input[3..], DropLast(output))
    else if input == "/.." then RemoveDots("/", DropLast(output))
    else if input == "." || input == ".." then output
    else
      var n := FirstSegment(input);
      RemoveDots(input[n..], output + input[..n])
  }

  function RemoveDotSegments(path: string): string { RemoveDots(path, []) }

  predicate NoDotSegments(segments: seq<string>) {
    forall i :: 0 <= i < |segments| ==> !IsDotSegment(segments[i])
  }

  predicate AreSegments(segments: seq<string>) {
    forall i :: 0 <= i < |segments| ==> '/' !in segments[i]
  }

  lemma {:induction false} FirstSegmentIs(input: string, n: nat)
    requires 0 < n <= |input| && '/' !in input[1..n] && (n < |input| ==> input[n] == '/')
    ensures FirstSegment(input) == n
  {
    if n > 1 {
      assert input[1] == input[1..n][0];
      assert forall i :: 2 <= i < n ==> input[i] == input[1..n][i - 1];
      FirstSegmentIs(input[1..], n - 1);
    }
  }

  lemma FirstSegmentOfJoin(segments: seq<string>)
    requires segments != [] && AreSegments(segments)
    ensures Join(segments) != []
    ensures FirstSegment(Join(segments)) == 1 + |segments[0]|
  {
    var input, rest := Join(segments), Join(segments[1..]);
    assert input == "/" + segments[0] + rest;
    assert rest != [] ==> rest[0] == '/';
    assert input[1..1 + |segments[0]|] == segments[0];
    FirstSegmentIs(input, 1 + |segments[0]|);
  }

  lemma CleanStep(segments: seq<string>, output: string)
    requires segments != [] && AreSegments(segments) && !IsDotSegment(segments[0])
    ensures RemoveDots(Join(segments), output) == RemoveDots(Join(segments[1..]), output + ("/" + segments[0]))
  {
    var s, rest := segments[0], Join(segments[1..]);
    var input := Join(segments);
    FirstSegmentOfJoin(segments);
    assert input == "/" + s + rest;
    DotRuleMeansDotSegment(s, rest);
    assert input[..1 + |s|] == "/" + s;
    assert input[1 + |s|..] == rest;
  }

  /** Without dot segments the algorithm moves every segment over unchanged. */
  lemma {:induction false} CleanIsCopied(segments: seq<string>, output: string)
    requires AreSegments(segments) && NoDotSegments(segments)
    ensures RemoveDots(Join(segments), output) == output + Join(segments)
    decreases |segments|
  {
    if segments == [] {
      assert output + [] == output;
    } else {
      var s, rest := segments[0], Join(segments[1..]);
      CleanStep(segments, output);
      CleanIsCopied(segments[1..], output + ("/" + s));
      assert (output + ("/" + s)) + rest == output + ("/" + s + rest);
    }
  }

  /** The dot rules of the algorithm apply only to a first segment that is a dot segment. */
  lemma DotRuleMeansDotSegment(s: string, rest: string)
    requires '/' !in s && (rest != [] ==> rest[0] == '/')
    ensures var input := "/" + s + rest;
            && !("../" <= input) && !("./" <= input) && input != "." && input != ".."
            && (s == "." <==> ("/./" <= input || input == "/."))
            && (s == ".." <==> ("/../" <= input || input == "/.."))
  {
    var input := "/" + s + rest;
    assert input[0] == '/';
    assert forall k :: 0 <= k < |s| ==> input[1 + k] == s[k];
    assert rest != [] ==> input[1 + |s|] == rest[0];
    assert "/./" <= input ==> input[1] == '.' && input[2] == '/';
    assert "/../" <= input ==> input[1] == '.' && input[2] == '.' && input[3] == '/';
    assert input == "/." ==> input[1] == '.';
    assert input == "/.." ==> input[1] == '.' && input[2] == '.';
    if s == "." && rest != [] { assert input[..3] == "/./"; }
    if s == ".." && rest != [] { assert input[..4] == "/../"; }
  }

  // ----- When a path is a fixed point -----

  lemma {:induction false} RemoveDotsNeverGrows(input: string, output: string)
    ensures |RemoveDots(input, output)| <= |input| + |output|
    decreases |input|
  {
    if input == [] {
    } else if "../" <= input {
      RemoveDotsNeverGrows(input[3..], output);
    } else if "./" <= input {
      RemoveDotsNeverGrows(input[2..], output);
    } else if "/./" <= input {
      RemoveDotsNeverGrows(input[2..], output);
    } else if input == "/." {
      RemoveDotsNeverGrows("/", output);
    } else if "/../" <= input {
      RemoveDotsNeverGrows(input[3..], DropLast(output));
    } else if input == "/.." {
      RemoveDotsNeverGrows("/", DropLast(output));
    } else if input == "." || input == ".." {
    } else {
      var n := FirstSegment(input);
      RemoveDotsNeverGrows(input[n..], output + input[..n]);
    }
  }

  lemma {:induction false} DotSegmentsShorten(segments: seq<string>, output: string)
    requires AreSegments(segments) && !NoDotSegments(segments)
    ensures |RemoveDots(Join(segments), output)| < |output| + |Join(segments)|
    decreases |segments|
  {
    var s, rest := segments[0], Join(segments[1..]);
    var input := Join(segments);
    FirstSegmentOfJoin(segments);
    assert input == "/" + s + rest;
    DotRuleMeansDotSegment(s, rest);
    if IsDotSegment(s) {
      if |input| >= 2 { RemoveDotsNeverGrows(input[2..], output); }
      if |input| >= 3 { RemoveDotsNeverGrows(input[3..], DropLast(output)); }
      RemoveDotsNeverGrows("/", output);
      RemoveDotsNeverGrows("/", DropLast(output));
    } else {
      CleanStep(segments, output);
      DotSegmentsShorten(segments[1..], output + ("/" + s));
    }
  }

  lemma SegmentsOfRooted(path: string)
    requires path != [] && path[0] == '/'
    ensures var parts := Split(path, '/');
            parts[0] == "" && AreSegments(parts[1..]) && Join(parts[1..]) == path
  {
    SplitJoins(path);
    var parts := Split(path, '/');
    assert parts[1..] == Split(path[1..], '/');
    SplitJoins(path[1..]);
    assert path == "/" + path[1..];
  }

  /** Normalization leaves a rooted path alone exactly when none of its segments is `.` or `..`. */
  lemma FixedIffNoDotSegments(path: string)
    requires path != [] && path[0] == '/'
    ensures RemoveDotSegments(path) == path <==> NoDotSegments(Split(path, '/')[1..])
  {
    SegmentsOfRooted(path);
    var segments := Split(path, '/')[1..];
    if NoDotSegments(segments) {
      CleanIsCopied(segments, []);
    } else {
      DotSegmentsShorten(segments, []);
    }
  }

  // ----- Percent-decoding, section 2.1 of RFC 3986 -----

  predicate IsHex(c: char) { '0' <= c <= '9' || 'a' <= c <= 'f' || 'A' <= c <= 'F' }

  function HexValue(c: char): (v: nat)
    requires IsHex(c)
    ensures v < 16
  {
    if c <= '9' then c as int - '0' as int
    else if c <= 'F' then c as int - 'A' as int + 10
    else c as int - 'a' as int + 10
  }

  /** A triplet begins at the front of the string. */
  predicate IsEscape(s: string) { |s| >= 3 && s[0] == '%' && IsHex(s[1]) && IsHex(s[2]) }

  function EscapeValue(s: string): char
    requires IsEscape(s)
  {
    (16 * HexValue(s[1]) + HexValue(s[2])) as char
  }

  function Decode(s: string): string {
    if s == [] then []
    else if IsEscape(s) then [EscapeValue(s)] + Decode(s[3..])
    else [s[0]] + Decode(s[1..])
  }

  predicate IsSpecial(c: char) { c == '.' || c == '/' || c == '\\' }

  /** No triplet stands for a dot, a slash or a backslash. */
  predicate HarmlessEscapes(s: string) {
    forall i :: 0 <= i <= |s| && IsEscape(s[i..]) ==> !IsSpecial(EscapeValue(s[i..]))
  }

  lemma HarmlessTail(s: string, n: nat)
    requires HarmlessEscapes(s) && n <= |s|
    ensures HarmlessEscapes(s[n..])
  {
    forall i | 0 <= i <= |s[n..]| && IsEscape(s[n..][i..]) ensures !IsSpecial(EscapeValue(s[n..][i..])) {
      assert s[n..][i..] == s[n + i..];
    }
  }

  lemma EscapeIsListed(s: string, i: nat)
    requires i <= |s| && IsEscape(s[i..]) && IsSpecial(EscapeValue(s[i..]))
    ensures var lower := Lower(s); Contains(lower, "%2e") || Contains(lower, "%2f") || Contains(lower, "%5c")
  {
    var lower := Lower(s);
    var t := s[i..];
    assert lower[i] == '%' && lower[i + 1] == LowerChar(t[1]) && lower[i + 2] == LowerChar(t[2]);
    var pattern := lower[i..i + 3];
    assert pattern <= lower[i..];
    assert StartsAt(lower, i, pattern);
    assert HexValue(t[1]) == 2 || HexValue(t[1]) == 5;
    assert pattern == ['%', LowerChar(t[1]), LowerChar(t[2])];
    assert pattern == "%2e" || pattern == "%2f" || pattern == "%5c";
  }

  /** A slash ends any triplet, so segments are decoded one by one. */
  lemma {:induction false} DecodeConcat(s: string, rest: string)
    requires rest != [] ==> rest[0] == '/'
    ensures Decode(s + rest) == Decode(s) + Decode(rest)
    decreases |s|
  {
    if s == [] {
      assert s + rest == rest;
    } else {
      DecodeConcat(s[Width(s)..], rest);
      DecodeFirst(s, rest);
      DecodeOne(s);
      var c, d, e := Char(s), Decode(s[Width(s)..]), Decode(rest);
      assert [c] + (d + e) == ([c] + d) + e;
    }
  }

  /** How much of the text the next decoded character takes, and which character that is. */
  function Width(s: string): (n: nat)
    requires s != []
    ensures 0 < n <= |s|
  {
    if IsEscape(s) then 3 else 1
  }

  function Char(s: string): char
    requires s != []
  {
    if IsEscape(s) then EscapeValue(s) else s[0]
  }

  lemma DecodeFirst(s: string, rest: string)
    requires s != [] && (rest != [] ==> rest[0] == '/')
    ensures Decode(s + rest) == [Char(s)] + Decode(s[Width(s)..] + rest)
  {
    EscapeIsLocal(s, rest);
    DecodeOne(s + rest);
    assert (s + rest)[Width(s)..] == s[Width(s)..] + rest;
  }

  lemma DecodeOne(s: string)
    requires s != []
    ensures Decode(s) == [Char(s)] + Decode(s[Width(s)..])
  {
  }

  lemma EscapeIsLocal(s: string, rest: string)
    requires s != [] && (rest != [] ==> rest[0] == '/')
    ensures IsEscape(s + rest) == IsEscape(s)
    ensures IsEscape(s) ==> EscapeValue(s + rest) == EscapeValue(s)
  {
    if |s| == 1 && rest != [] { assert (s + rest)[1] == '/'; }
    if |s| == 2 && rest != [] { assert (s + rest)[2] == '/'; }
  }

  /** What decoding makes of a harmless segment: still one segment, empty or a dot segment only if it
      was one before. */
  lemma {:induction false} DecodeSegment(s: string)
    requires HarmlessEscapes(s) && '/' !in s && '\\' !in s
    ensures '/' !in Decode(s) && '\\' !in Decode(s)
    ensures Decode(s) == [] <==> s == []
    ensures (forall i :: 0 <= i < |Decode(s)| ==> Decode(s)[i] == '.') ==> Decode(s) == s
    decreases |s|
  {
    if s != [] {
      assert s[0..] == s;
      var n := if IsEscape(s) then 3 else 1;
      HarmlessTail(s, n);
      DecodeSegment(s[n..]);
      var head, tail := Decode(s)[0], Decode(s[n..]);
      assert Decode(s) == [head] + tail;
      if forall i :: 0 <= i < |Decode(s)| ==> Decode(s)[i] == '.' {
        assert head == '.';
        forall i | 0 <= i < |tail| ensures tail[i] == '.' { assert Decode(s)[i + 1] == '.'; }
        assert s == [s[0]] + s[1..];
      }
    }
  }

  function DecodeAll(segments: seq<string>): (r: seq<string>)
    ensures |r| == |segments| && forall i :: 0 <= i < |r| ==> r[i] == Decode(segments[i])
  {
    seq(|segments|, i requires 0 <= i < |segments| => Decode(segments[i]))
  }

  lemma {:induction false} DecodeJoin(segments: seq<string>)
    requires AreSegments(segments)
    ensures Decode(Join(segments)) == Join(DecodeAll(segments))
    decreases |segments|
  {
    if segments != [] {
      var s, rest := segments[0], Join(segments[1..]);
      assert Join(segments) == "/" + (s + rest);
      assert ("/" + (s + rest))[1..] == s + rest;
      assert rest != [] ==> rest[0] == '/';
      DecodeConcat(s, rest);
      DecodeJoin(segments[1..]);
      assert DecodeAll(segments)[1..] == DecodeAll(segments[1..]);
      assert "/" + (Decode(s) + Decode(rest)) == "/" + Decode(s) + Decode(rest);
    }
  }

  /** Joining and splitting undo each other. */
  lemma {:induction false} JoinSplits(segments: seq<string>)
    requires segments != [] && AreSegments(segments)
    ensures Split(Join(segments), '/') == [[]] + segments
    decreases |segments|
  {
    var s, rest := segments[0], Join(segments[1..]);
    var input := Join(segments);
    assert input == "/" + (s + rest) && input[1..] == s + rest;
    assert rest != [] ==> rest[0] == '/';
    SplitPlain(s, rest, '/');
    if |segments| > 1 {
      JoinSplits(segments[1..]);
      assert Split(rest, '/')[1..] == Split(rest[1..], '/');
      assert [s] + segments[1..] == segments;
    } else {
      assert segments == [s];
    }
  }

  // ----- What is accepted -----

  /** The three listed patterns are found nowhere but at triplets for a dot, a slash or a backslash. */
  lemma ListedIsEscape(s: string, pattern: string)
    requires pattern == "%2e" || pattern == "%2f" || pattern == "%5c"
    requires Contains(Lower(s), pattern)
    ensures !HarmlessEscapes(s)
  {
    var lower := Lower(s);
    var i :| 0 <= i <= |lower| && StartsAt(lower, i, pattern);
    assert forall k :: 0 <= k < 3 ==> pattern[k] == lower[i..][k] == lower[i + k] == LowerChar(s[i + k]);
    var t := s[i..];
    assert t[0] == s[i] && t[1] == s[i + 1] && t[2] == s[i + 2];
    assert IsEscape(t) && IsSpecial(EscapeValue(t));
  }

  lemma HarmlessIffUnlisted(path: string)
    ensures HarmlessEscapes(path) <==>
            var lower := Lower(path);
            !(Contains(lower, "%2e") || Contains(lower, "%2f") || Contains(lower, "%5c"))
  {
    var lower := Lower(path);
    if Contains(lower, "%2e") {
      ListedIsEscape(path, "%2e");
    } else if Contains(lower, "%2f") {
      ListedIsEscape(path, "%2f");
    } else if Contains(lower, "%5c") {
      ListedIsEscape(path, "%5c");
    } else {
      forall i | 0 <= i <= |path| && IsEscape(path[i..]) ensures !IsSpecial(EscapeValue(path[i..])) {
        if IsSpecial(EscapeValue(path[i..])) { EscapeIsListed(path, i); }
      }
    }
  }

  /** The guard in the terms of RFC 3986: a path is accepted exactly when it is under `/v1/`, normalization
      leaves it alone, no segment is empty, and neither a backslash nor a triplet for one, for a slash
      or for a dot is in it. */
  lemma AcceptedIff(path: string)
    ensures SafeUpstreamPath(path) == Some(path) <==>
            && "/v1/" <= path
            && RemoveDotSegments(path) == path
            && "" !in Split(path, '/')[1..]
            && '\\' !in path && HarmlessEscapes(path)
    ensures SafeUpstreamPath(path) == Some(path) || SafeUpstreamPath(path) == None
  {
    if "/v1/" <= path {
      assert path[0] == '/';
      FixedIffNoDotSegments(path);
      HarmlessIffUnlisted(path);
      LowerKeepsBackslash(path);
    }
  }

  lemma LowerKeepsBackslash(s: string)
    ensures '\\' in Lower(s) <==> '\\' in s
  {
    assert forall i :: 0 <= i < |s| ==> Lower(s)[i] == LowerChar(s[i]);
    if '\\' in s {
      var i :| 0 <= i < |s| && s[i] == '\\';
      assert Lower(s)[i] == '\\';
    }
  }

  // ----- What acceptance guarantees -----

  /** The segments of an accepted path. */
  lemma AcceptedSegments(path: string) returns (segments: seq<string>)
    requires SafeUpstreamPath(path).Some?
    ensures Split(path, '/') == [""] + segments && AreSegments(segments) && Join(segments) == path
    ensures |segments| >= 2 && segments[0] == "v1" && NoDotSegments(segments)
    ensures HarmlessEscapes(path) && '\\' !in path
    ensures forall i :: 0 <= i < |segments| ==> segments[i] != ""
  {
    assert path[0] == '/';
    SegmentsOfRooted(path);
    segments := Split(path, '/')[1..];
    var tail := path[3..];
    assert path == "/" + ("v1" + tail) && tail[0] == '/';
    assert path[1..] == "v1" + tail;
    SplitPlain("v1", tail, '/');
    assert Split(path, '/')[1..] == Split(path[1..], '/');
    HarmlessIffUnlisted(path);
    LowerKeepsBackslash(path);
  }

  lemma {:induction false} HarmlessSegments(segments: seq<string>, path: string)
    requires path == Join(segments) && HarmlessEscapes(path) && '\\' !in path
    ensures forall i :: 0 <= i < |segments| ==> HarmlessEscapes(segments[i]) && '\\' !in segments[i]
    decreases |segments|
  {
    if segments != [] {
      var s, rest := segments[0], Join(segments[1..]);
      assert path == "/" + s + rest;
      forall i | 0 <= i <= |s| && IsEscape(s[i..]) ensures !IsSpecial(EscapeValue(s[i..])) {
        assert path[1 + i..] == s[i..] + rest;
        assert IsEscape(path[1 + i..]) && EscapeValue(path[1 + i..]) == EscapeValue(s[i..]);
      }
      assert forall i :: 0 <= i < |s| ==> path[1 + i] == s[i];
      assert path[1 + |s|..] == rest;
      HarmlessTail(path, 1 + |s|);
      HarmlessSegments(segments[1..], rest);
      assert forall i :: 1 <= i < |segments| ==> segments[i] == segments[1..][i - 1];
    }
  }

  /** An accepted path means the same to every upstream: normalization does not change it, nor does
      it change its percent-decoding, which has the same number of segments, no backslash, and is
      still under `/v1/`. */
  lemma AcceptedIsNormal(path: string)
    requires SafeUpstreamPath(path).Some?
    ensures SafeUpstreamPath(path).value == path && RemoveDotSegments(path) == path
    ensures var decoded := Decode(path);
            && RemoveDotSegments(decoded) == decoded
            && |Split(decoded, '/')| == |Split(path, '/')|
            && "/v1/" <= decoded && '\\' !in decoded
  {
    var segments := AcceptedSegments(path);
    CleanIsCopied(segments, []);
    HarmlessSegments(segments, path);
    var decoded := DecodeAll(segments);
    DecodeJoin(segments);
    forall i | 0 <= i < |segments|
      ensures '/' !in decoded[i] && '\\' !in decoded[i] && !IsDotSegment(decoded[i])
    {
      DecodeSegment(segments[i]);
    }
    CleanIsCopied(decoded, []);
    JoinSplits(decoded);
    DecodedPrefix(segments);
    NoBackslash(decoded);
  }

  lemma DecodedPrefix(segments: seq<string>)
    requires |segments| >= 2 && segments[0] == "v1"
    ensures "/v1/" <= Join(DecodeAll(segments))
  {
    var decoded := DecodeAll(segments);
    assert "v1"[1..] == "1" && "1"[1..] == "";
    assert Decode("v1") == "v1";
    var rest := Join(decoded[1..]);
    assert rest[0] == '/';
    assert Join(decoded) == "/" + "v1" + rest;
    assert Join(decoded)[..4] == "/v1/";
  }

  lemma {:induction false} NoBackslash(segments: seq<string>)
    requires forall i :: 0 <= i < |segments| ==> '\\' !in segments[i]
    ensures '\\' !in Join(segments)
    decreases |segments|
  {
    if segments != [] { NoBackslash(segments[1..]); }
  }

  lemma {:induction false} FindQueryOf(path: string, query: string)
    requires '?' !in path && (query != [] ==> query[0] == '?')
    ensures FindQuery(path + query) == |path|
    decreases |path|
  {
    if path == [] {
      assert path + query == query;
    } else {
      assert (path + query)[1..] == path[1..] + query;
      FindQueryOf(path[1..], query);
    }
  }

  /** The agent forwards a target verbatim or not at all, and decides on the part before the first
      question mark alone, exactly as the gateway does. */
  lemma UpstreamUrlIsVerbatim(upstream: string, path: string, query: string)
    requires '?' !in path && (query != [] ==> query[0] == '?')
    ensures UpstreamUrl(upstream, path + query)
            == if SafeUpstreamPath(path).Some? then Some(upstream + (path + query)) else None
  {
    FindQueryOf(path, query);
    assert (path + query)[..|path|] == path;
    assert (path + query)[|path|..] == query;
    assert upstream + path + query == upstream + (path + query);
  }
}
