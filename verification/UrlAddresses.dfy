/** Which addresses may stand in brackets, told by how they are written. */
module UrlAddresses {
  import opened Prelude
  import opened SourceUrl
  import opened SourceUrlTheorems

  function Joined(parts: seq<string>, c: char): string {
    if parts == [] then "" else if |parts| == 1 then parts[0] else parts[0] + [c] + Joined(parts[1..], c)
  }

  ghost predicate Without(parts: seq<string>, c: char) { forall i | 0 <= i < |parts| :: NoneOf(parts[i], {c}) }

  lemma JoinedFirst(first: string, rest: seq<string>, c: char)
    requires rest != []
    ensures Joined([first] + rest, c) == first + [c] + Joined(rest, c)
  {
    assert ([first] + rest)[1..] == rest;
  }

  lemma SplitFirst(first: string, rest: string, c: char)
    requires NoneOf(first, {c})
    ensures Split(first + [c] + rest, c) == [first] + Split(rest, c)
  {
    FindStop(first, c, rest, {c});
    hide Find, Before, Behind, NoneOf;
  }

  lemma SplitPlain(s: string, c: char)
    requires NoneOf(s, {c})
    ensures Split(s, c) == [s]
  {
    FindNone(s, {c});
  }

  /** Parts that are joined are split again. */
  lemma {:induction false} SplitJoined(parts: seq<string>, c: char)
    requires parts != [] && Without(parts, c)
    ensures Split(Joined(parts, c), c) == parts
  {
    hide NoneOf, Split;
    if |parts| == 1 {
      SplitPlain(parts[0], c);
    } else {
      SplitFirst(parts[0], Joined(parts[1..], c), c);
      SplitJoined(parts[1..], c);
      hide Without;
      assert parts == [parts[0]] + parts[1..];
    }
  }

  lemma CutFirst(s: string, c: char) returns (first: string, rest: Option<string>)
    ensures NoneOf(first, {c})
    ensures if rest.Some? then s == first + [c] + rest.value && |rest.value| < |s| else s == first
  {
    var i := Find(s, {c});
    first := s[..i];
    rest := if i < |s| then Some(s[i + 1..]) else None;
  }

  /** And a text is its parts joined. */
  lemma {:induction false} JoinedSplit(s: string, c: char)
    ensures Joined(Split(s, c), c) == s && Without(Split(s, c), c)
    decreases |s|
  {
    hide NoneOf, Split, Joined;
    var first, rest := CutFirst(s, c);
    if rest.Some? {
      SplitFirst(first, rest.value, c);
      JoinedSplit(rest.value, c);
      JoinedFirst(first, Split(rest.value, c), c);
      WithoutFirst(first, Split(rest.value, c), c);
    } else {
      SplitPlain(s, c);
      JoinedOne(s, c);
    }
  }

  lemma JoinedOne(s: string, c: char)
    ensures Joined([s], c) == s
  {
  }

  lemma WithoutFirst(first: string, rest: seq<string>, c: char)
    requires NoneOf(first, {c}) && Without(rest, c)
    ensures Without([first] + rest, c)
  {
    hide NoneOf;
  }

  /******* Four octets *******/

  function Digit(n: nat): char
    requires n < 10
  {
    ('0' as int + n) as char
  }

  function Decimal(n: nat): (r: string)
    ensures r != ""
  {
    if n < 10 then [Digit(n)] else Decimal(n / 10) + [Digit(n % 10)]
  }

  predicate IsOctet(s: string) {
    1 <= |s| <= 3 && IsDecimal(s) && DecimalValue(s) < 256 && (|s| > 1 ==> s[0] != '0')
  }

  lemma {:induction false} DecimalRoundTrip(n: nat)
    ensures IsDecimal(Decimal(n)) && DecimalValue(Decimal(n)) == n
    ensures n > 0 ==> Decimal(n)[0] != '0'
  {
    if n >= 10 {
      DecimalRoundTrip(n / 10);
      var s := Decimal(n);
      assert s[..|s| - 1] == Decimal(n / 10);
    } else {
      assert [Digit(n)][..0] == "";
    }
  }

  lemma SmallDecimal(n: nat)
    requires n < 1000
    ensures |Decimal(n)| <= 3
  {
    assert |Decimal(n / 10 / 10)| == 1;
    if n >= 10 { assert |Decimal(n / 10)| <= 2; }
  }

  /** A number without leading zeros is written in one way. */
  lemma {:induction false} ReadDecimal(s: string)
    requires s != "" && IsDecimal(s) && (|s| > 1 ==> s[0] != '0')
    ensures Decimal(DecimalValue(s)) == s && (s[0] != '0' ==> DecimalValue(s) > 0)
  {
    var front := s[..|s| - 1];
    if front == "" {
      assert DecimalValue(front) == 0;
      assert s == [s[0]];
    } else {
      ReadDecimal(front);
      assert s == front + [s[|s| - 1]];
    }
  }

  /** An octet is the decimal of a number below 256. */
  lemma OctetExactly(s: string)
    ensures IsOctet(s) <==> exists n: nat :: n < 256 && s == Decimal(n)
  {
    if IsOctet(s) { ReadDecimal(s); }
    if n: nat :| n < 256 && s == Decimal(n) { DecimalIsOctet(n); }
  }

  lemma DecimalIsOctet(n: nat)
    requires n < 256
    ensures IsOctet(Decimal(n))
  {
    DecimalRoundTrip(n);
    SmallDecimal(n);
    if n < 10 { assert |Decimal(n)| == 1; }
  }

  function Dotted(a: nat, b: nat, c: nat, d: nat): string {
    Joined([Decimal(a), Decimal(b), Decimal(c), Decimal(d)], '.')
  }

  lemma DecimalHasNoDot(n: nat)
    ensures NoneOf(Decimal(n), {'.'})
  {
    DecimalRoundTrip(n);
  }

  /** An IPv4 address is four numbers below 256 with dots between them. */
  lemma Ipv4Exactly(s: string)
    ensures IsIpv4(s) <==> exists a: nat, b: nat, c: nat, d: nat ::
                             a < 256 && b < 256 && c < 256 && d < 256 && s == Dotted(a, b, c, d)
  {
    hide Split, Decimal, Joined;
    JoinedSplit(s, '.');
    var parts := Split(s, '.');
    if IsIpv4(s) {
      forall i | 0 <= i < 4 ensures exists n: nat :: n < 256 && parts[i] == Decimal(n) {
        assert parts[i] in parts;
        OctetExactly(parts[i]);
      }
      var a: nat :| a < 256 && parts[0] == Decimal(a);
      var b: nat :| b < 256 && parts[1] == Decimal(b);
      var c: nat :| c < 256 && parts[2] == Decimal(c);
      var d: nat :| d < 256 && parts[3] == Decimal(d);
      assert parts == [Decimal(a), Decimal(b), Decimal(c), Decimal(d)];
      assert s == Dotted(a, b, c, d);
    }
    if a: nat, b: nat, c: nat, d: nat :| a < 256 && b < 256 && c < 256 && d < 256 && s == Dotted(a, b, c, d) {
      var four := [Decimal(a), Decimal(b), Decimal(c), Decimal(d)];
      DecimalHasNoDot(a);
      DecimalHasNoDot(b);
      DecimalHasNoDot(c);
      DecimalHasNoDot(d);
      SplitJoined(four, '.');
      DecimalIsOctet(a);
      DecimalIsOctet(b);
      DecimalIsOctet(c);
      DecimalIsOctet(d);
      forall p | p in four ensures IsOctet(p) {
        assert p == four[0] || p == four[1] || p == four[2] || p == four[3];
      }
    }
  }

  /******* Eight groups *******/

  predicate HexDigitOf(c: char) { c in "0123456789abcdefABCDEF" }

  /** One to four hexadecimal digits. */
  predicate IsGroup(s: string) { 1 <= |s| <= 4 && forall i | 0 <= i < |s| :: HexDigitOf(s[i]) }

  ghost predicate Groups(parts: seq<string>) { forall i | 0 <= i < |parts| :: IsGroup(parts[i]) }

  lemma HexDigits(c: char)
    ensures HexDigitOf(c) <==> HexValue(c).Some?
  {
  }

  lemma GroupIsHextet(s: string)
    ensures IsGroup(s) <==> IsHextet(s)
  {
    forall i | 0 <= i < |s| ensures HexDigitOf(s[i]) <==> HexValue(s[i]).Some? { HexDigits(s[i]); }
    hide HexDigitOf, HexValue;
  }

  lemma GroupsAreHextets(parts: seq<string>)
    ensures Groups(parts) <==> Hextets(parts)
  {
    forall i | 0 <= i < |parts| ensures IsGroup(parts[i]) <==> IsHextet(parts[i]) { GroupIsHextet(parts[i]); }
    hide IsGroup, IsHextet;
  }

  lemma GroupIsPlain(s: string)
    requires IsGroup(s)
    ensures NoneOf(s, {':', '.'}) && '.' !in s && s != ""
  {
    assert forall c | HexDigitOf(c) :: c != ':' && c != '.';
    hide HexDigitOf;
  }

  lemma {:induction false} NoGap(parts: seq<string>, i: nat)
    requires forall k | i <= k < |parts| - 1 :: parts[k] != ""
    ensures GapFrom(parts, i) == None
    decreases |parts| - i
  {
    if i + 1 < |parts| { NoGap(parts, i + 1); }
  }

  lemma {:induction false} GapAt(parts: seq<string>, i: nat, g: nat)
    requires i <= g < |parts| - 1 && parts[g] == "" && forall k | i <= k < g :: parts[k] != ""
    ensures GapFrom(parts, i) == Some(g)
    decreases g - i
  {
    if i < g { GapAt(parts, i + 1, g); }
  }

  /** Groups with colons between them are an IPv6 address exactly when there are eight. */
  lemma FullIpv6Exactly(parts: seq<string>)
    requires Groups(parts) && parts != []
    ensures IsIpv6(Joined(parts, ':')) <==> |parts| == 8
  {
    forall i | 0 <= i < |parts| ensures NoneOf(parts[i], {':'}) && '.' !in parts[i] && parts[i] != "" {
      GroupIsPlain(parts[i]);
    }
    SplitJoined(parts, ':');
    NoGap(parts, 1);
    GroupsAreHextets(parts);
    hide Split, Groups, Hextets, Joined, IsIpv4, GapFrom, NoneOf;
  }

  /** Two runs of groups around a double colon are one exactly when they are no more than seven together. */
  lemma ShortIpv6Exactly(front: seq<string>, back: seq<string>)
    requires Groups(front) && Groups(back) && front != [] && back != []
    ensures IsIpv6(Joined(front + [""] + back, ':')) <==> |front| + |back| <= 7
  {
    hide Split, Hextets, Joined, IsIpv4, GapFrom, NoneOf;
    var parts := front + [""] + back;
    GapIsThere(front, back);
    SplitJoined(parts, ':');
    assert parts[..|front|] == front && parts[|front| + 1..] == back;
    assert parts[|parts| - 1] == back[|back| - 1];
    GroupIsPlain(back[|back| - 1]);
    assert front != [""] && back != [""] by {
      GroupIsPlain(front[0]);
      GroupIsPlain(back[0]);
    }
    GroupsAreHextets(front);
    GroupsAreHextets(back);
    hide Groups, Without;
  }

  lemma GapIsThere(front: seq<string>, back: seq<string>)
    requires Groups(front) && Groups(back) && front != [] && back != []
    ensures Without(front + [""] + back, ':') && GapFrom(front + [""] + back, 1) == Some(|front|)
  {
    var parts := front + [""] + back;
    hide IsGroup, GapFrom;
    forall i | 0 <= i < |parts| ensures NoneOf(parts[i], {':'}) && (i < |front| ==> parts[i] != "") {
      if i < |front| { GroupIsPlain(front[i]); assert parts[i] == front[i]; PlainIs(parts[i]); }
      else if i > |front| { assert parts[i] == back[i - |front| - 1]; GroupIsPlain(parts[i]); PlainIs(parts[i]); }
    }
    hide NoneOf;
    assert parts[|front|] == "";
    GapAt(parts, 1, |front|);
  }

  lemma PlainIs(s: string)
    requires NoneOf(s, {':', '.'})
    ensures NoneOf(s, {':'})
  {
  }

  /******* Later versions *******/

  ghost predicate HexString(s: string) { forall i | 0 <= i < |s| :: HexDigitOf(s[i]) }

  /** `v`, hexadecimal digits, a dot and something more; nothing else that starts with a `v`. */
  lemma FutureExactly(s: string)
    ensures IsFuture(s) <==> exists version: string, rest: string ::
                               s == ("v" + version) + ['.'] + rest && version != "" && rest != "" && HexString(version)
  {
    hide HexString;
    if IsFuture(s) {
      var version, rest := FutureParts(s);
    }
    if version: string, rest: string :|
      s == ("v" + version) + ['.'] + rest && version != "" && rest != "" && HexString(version)
    {
      PartsAreFuture(version, rest);
    }
  }

  lemma FutureParts(s: string) returns (version: string, rest: string)
    requires IsFuture(s)
    ensures s == ("v" + version) + ['.'] + rest && version != "" && rest != "" && HexString(version)
  {
    var n := Find(s, {'.'});
    version, rest := s[1..n], Behind(s, {'.'});
    assert n < |s| && s[n] == '.';
    hide HexValue, HexDigitOf, Find;
    forall i | 0 <= i < |version| ensures HexDigitOf(version[i]) {
      assert version[i] == Before(s, {'.'})[i + 1];
      HexDigits(version[i]);
    }
    assert s == ("v" + version) + ['.'] + rest;
  }

  lemma DotIsNoDigit()
    ensures !HexDigitOf('.')
  {
  }

  lemma PartsAreFuture(version: string, rest: string)
    requires version != "" && rest != "" && HexString(version)
    ensures IsFuture(("v" + version) + ['.'] + rest)
  {
    DotIsNoDigit();
    hide HexValue, HexDigitOf, Find;
    var front := "v" + version;
    forall i | 0 < i < |front| ensures front[i] == version[i - 1] && HexValue(front[i]).Some? && front[i] != '.' {
      HexDigits(front[i]);
    }
    FindStop(front, '.', rest, {'.'});
  }

  /******* Any scheme *******/

  /** Section 3.1 of RFC 3986: a letter, then letters, digits, and `+`, `-` and `.`. */
  predicate IsScheme(s: string) {
    s != "" && IsLetter(s[0]) && forall i | 0 <= i < |s| :: IsLetter(s[i]) || s[i] in "0123456789+-."
  }

  lemma SchemeChars(c: char)
    ensures IsLetter(c) || c in "0123456789+-." ==> IsSchemeChar(c)
    ensures !IsSchemeChar(':')
  {
  }

  lemma SchemeIsFound(scheme: string, rest: string)
    requires IsScheme(scheme)
    ensures SchemeEnd(scheme + [':'] + rest) == |scheme| + 1
  {
    hide IsSchemeChar, IsLetter;
    forall i | 0 <= i < |scheme| ensures IsSchemeChar(scheme[i]) && scheme[i] != ':' { SchemeChars(scheme[i]); }
    FindStop(scheme, ':', rest, {':'});
  }

  /** Brackets are looked at before the scheme: an unpaired one raises under any scheme. */
  lemma UnpairedBracketRaisesUnderAnyScheme(text: string, scheme: string, netloc: string, tail: string)
    requires Octets(text) && IsScheme(scheme) && Unbroken(Trim(text)) == scheme + [':'] + ("//" + (netloc + tail))
    requires NoneOf(netloc, {'/', '?', '#'}) && (tail != "" ==> tail[0] in {'/', '?', '#'})
    requires '[' in netloc <==> ']' !in netloc
    ensures Canonical(text) == Raises
  {
    var s := Unbroken(Trim(text));
    SchemeIsFound(scheme, "//" + (netloc + tail));
    AuthorityOf(netloc, tail);
    var k := |scheme| + 1;
    assert s[k..k + 2] == "//" && s[k + 2..] == netloc + tail;
    assert BadBrackets(netloc);
    hide Trim, Unbroken, BadBrackets, Before, SchemeEnd, Authority, IsScheme, Octets, NoneOf;
    assert Parse(text) == Raises;
  }
}
