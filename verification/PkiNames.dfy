/** Which names a credential pair may carry (`pki/model.rs`). */
module PkiNames {
  import opened Decimal
  import opened Text

  predicate IsNameChar(c: char) { 'a' <= c <= 'z' || '0' <= c <= '9' || c == '-' }

  predicate AllNameChars(s: string) { forall i :: 0 <= i < |s| ==> IsNameChar(s[i]) }

  predicate ValidName(name: string) { 0 < |name| <= 64 && AllNameChars(name) }

  predicate IsOctet(s: string) {
    1 <= |s| <= 3 && AllDigits(s) && (|s| > 1 ==> s[0] != '0') && Value(s) <= 255
  }

  /** What `IpAddr` parses among names made of name characters and dots: an IPv6 address has a colon,
      which no valid label contains. */
  predicate IsIpv4(s: string) {
    var parts := Split(s, '.');
    |parts| == 4 && forall i :: 0 <= i < 4 ==> IsOctet(parts[i])
  }

  predicate ValidLabel(part: string) {
    0 < |part| <= 63 && AllNameChars(part) && part[0] != '-' && part[|part| - 1] != '-'
  }

  predicate ValidServerName(name: string) {
    && 0 < |name| <= 253
    && !IsIpv4(name)
    && forall part :: part in Split(name, '.') ==> ValidLabel(part)
  }

  /** Which piece a character falls into. */
  lemma {:induction false} SplitKeepsChars(s: string, sep: char, i: nat) returns (k: nat)
    requires i < |s| && s[i] != sep
    ensures k < |Split(s, sep)| && s[i] in Split(s, sep)[k]
  {
    var rest := Split(s[1..], sep);
    if i == 0 {
      k := 0;
      assert Split(s, sep)[0] == [s[0]] + rest[0];
    } else {
      k := SplitKeepsChars(s[1..], sep, i - 1);
      assert s[i] in rest[k];
      if s[0] == sep { k := k + 1; }
    }
  }

  /** A valid server name is its own lowercase form, so case-folded map keys never collide. */
  lemma ValidServerNameIsLower(name: string)
    requires ValidServerName(name)
    ensures Lower(name) == name
  {
    forall i | 0 <= i < |name| ensures Lower(name)[i] == name[i] {
      if name[i] != '.' {
        var k := SplitKeepsChars(name, '.', i);
        assert Split(name, '.')[k] in Split(name, '.');
        assert ValidLabel(Split(name, '.')[k]);
      }
    }
  }

  // ----- Names written out -----

  const NAME_CHARS: set<char> := {
    'a', 'b', 'c', 'd', 'e', 'f', 'g', 'h', 'i', 'j', 'k', 'l', 'm', 'n', 'o', 'p', 'q', 'r', 's', 't', 'u', 'v',
    'w', 'x', 'y', 'z', '0', '1', '2', '3', '4', '5', '6', '7', '8', '9', '-' }

  lemma NameCharIff(c: char)
    ensures IsNameChar(c) <==> c in NAME_CHARS
  {
  }

  predicate Spelled(s: string) { forall c :: c in s ==> c in NAME_CHARS }

  lemma SpelledIff(s: string)
    ensures AllNameChars(s) <==> Spelled(s)
  {
    forall c | c in s ensures IsNameChar(c) <==> c in NAME_CHARS { NameCharIff(c); }
    if Spelled(s) {
      forall i | 0 <= i < |s| ensures IsNameChar(s[i]) { assert s[i] in s; }
    }
  }

  /** Labels with a dot between any two. */
  function Dotted(labels: seq<string>): string
    requires labels != []
  {
    if |labels| == 1 then labels[0] else labels[0] + ("." + Dotted(labels[1..]))
  }

  lemma {:induction false} SplitDotted(labels: seq<string>)
    requires labels != [] && forall i :: 0 <= i < |labels| ==> '.' !in labels[i]
    ensures Split(Dotted(labels), '.') == labels
    decreases |labels|
  {
    if |labels| == 1 {
      SplitPlain(labels[0], [], '.');
      assert labels[0] + [] == labels[0];
    } else {
      var rest := "." + Dotted(labels[1..]);
      SplitPlain(labels[0], rest, '.');
      SplitDotted(labels[1..]);
      assert rest[1..] == Dotted(labels[1..]);
      assert [labels[0]] + labels[1..] == labels;
    }
  }

  lemma {:induction false} PrintLeads(n: nat)
    requires n > 0
    ensures Print(n)[0] != '0'
  {
    if n >= 10 { PrintLeads(n / 10); }
  }

  /** An octet of an IPv4 address is a number up to 255 as it is printed. */
  lemma OctetIff(s: string)
    ensures IsOctet(s) <==> exists v :: 0 <= v <= 255 && s == Print(v)
  {
    if IsOctet(s) {
      var zeros := ZerosThenPrint(s);
      assert zeros == 0;
      assert s == Print(Value(s));
    }
    if v :| 0 <= v <= 255 && s == Print(v) {
      ValueOfPrint(v);
      if v > 0 { PrintLeads(v); }
      assert |Print(v / 10 / 10)| == 1;
    }
  }

  /** A label of a DNS name. */
  predicate IsLabel(s: string) { 0 < |s| <= 63 && Spelled(s) && s[0] != '-' && s[|s| - 1] != '-' }

  /** Four octets. */
  ghost predicate LooksLikeIp(labels: seq<string>) {
    |labels| == 4 && forall i :: 0 <= i < 4 ==> exists v :: 0 <= v <= 255 && labels[i] == Print(v)
  }

  /** A pair name is 1 to 64 of the name characters; a server name is up to 253 characters of labels with
      dots between them, but not an IPv4 address. */
  lemma NamesAreValidIff(name: string, labels: seq<string>)
    requires labels != [] && forall i :: 0 <= i < |labels| ==> '.' !in labels[i]
    ensures ValidName(name) <==> 0 < |name| <= 64 && Spelled(name)
    ensures ValidServerName(Dotted(labels)) <==>
            |Dotted(labels)| <= 253 && !LooksLikeIp(labels) && forall i :: 0 <= i < |labels| ==> IsLabel(labels[i])
  {
    SpelledIff(name);
    SplitDotted(labels);
    forall i | 0 <= i < |labels|
      ensures ValidLabel(labels[i]) <==> IsLabel(labels[i])
      ensures IsOctet(labels[i]) <==> exists v :: 0 <= v <= 255 && labels[i] == Print(v)
    {
      SpelledIff(labels[i]);
      OctetIff(labels[i]);
    }
    assert ValidServerName(Dotted(labels)) ==> forall i :: 0 <= i < |labels| ==> ValidLabel(labels[i]) by {
      assert forall i :: 0 <= i < |labels| ==> labels[i] in labels;
    }
    assert |Dotted(labels)| >= |labels[0]|;
  }
}
