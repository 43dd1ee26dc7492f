/** Canonical URLs: round trips, invariance, and exactly when canonicalizing again changes nothing. */
module SourceUrlTheorems {
  import opened Prelude
  import Keyset
  import opened SourceUrl

  /******* Percent encoding, section 2.1 of RFC 3986 *******/

  lemma HexRoundTrip(n: nat)
    requires n < 16
    ensures HexValue(HexDigit(n)) == Some(n)
  {
  }

  lemma UnquoteChar(c: char, rest: string)
    requires c as int < 256
    ensures Unquote(QuoteChar(c) + rest) == [c] + Unquote(rest)
  {
    var q := QuoteChar(c);
    if Unreserved(c) {
      assert (q + rest)[0] == c && (q + rest)[1..] == rest;
    } else if c == ' ' {
      assert (q + rest)[0] == '+' && (q + rest)[1..] == rest;
    } else {
      HexRoundTrip(c as int / 16);
      HexRoundTrip(c as int % 16);
      assert (q + rest)[0] == '%' && (q + rest)[3..] == rest;
      hide HexDigit, HexValue;
    }
  }

  /** Any octets come back from their percent encoding. */
  lemma {:induction false} QuoteRoundTrip(s: string)
    requires Octets(s)
    ensures Unquote(Quote(s)) == s
  {
    if s != "" {
      QuoteRoundTrip(s[1..]);
      UnquoteChar(s[0], Quote(s[1..]));
      assert s == [s[0]] + s[1..];
    }
  }

  /** Characters an encoded query is made of, and those a single name or value is made of. */
  predicate Encoded(c: char) { Unreserved(c) || c == '+' || c == '%' }

  predicate AllEncoded(s: string) { forall i | 0 <= i < |s| :: Encoded(s[i]) }

  lemma {:induction false} QuoteIsEncoded(s: string)
    requires Octets(s)
    ensures AllEncoded(Quote(s))
  {
    if s != "" {
      QuoteIsEncoded(s[1..]);
      QuotedCharIsEncoded(s[0]);
    }
  }

  lemma QuotedCharIsEncoded(c: char)
    requires c as int < 256
    ensures AllEncoded(QuoteChar(c))
  {
  }

  /******* Query round trip *******/

  lemma FindStop(a: string, c: char, b: string, stops: set<char>)
    requires c in stops && forall i | 0 <= i < |a| :: a[i] !in stops
    ensures Find(a + [c] + b, stops) == |a|
    ensures Before(a + [c] + b, stops) == a && Behind(a + [c] + b, stops) == b
  {
    var s := a + [c] + b;
    assert forall i | 0 <= i < |a| :: s[i] == a[i];
    assert s[|a|] == c;
    assert s[..|a|] == a && s[|a| + 1..] == b;
  }

  lemma FindNone(a: string, stops: set<char>)
    requires forall i | 0 <= i < |a| :: a[i] !in stops
    ensures Find(a, stops) == |a| && Before(a, stops) == a && Behind(a, stops) == ""
  {
    assert a[..|a|] == a;
  }

  lemma ParamRoundTrip(p: Param)
    requires Octets(p.key) && Octets(p.value)
    ensures ParamOf(EncodeParam(p)) == p
    ensures EncodeParam(p) != "" && forall i | 0 <= i < |EncodeParam(p)| :: Encoded(EncodeParam(p)[i]) || EncodeParam(p)[i] == '='
  {
    var k, v := Quote(p.key), Quote(p.value);
    QuoteIsEncoded(p.key);
    QuoteIsEncoded(p.value);
    QuoteRoundTrip(p.key);
    QuoteRoundTrip(p.value);
    forall i | 0 <= i < |k| ensures k[i] !in {'='} { assert Encoded(k[i]); }
    FindStop(k, '=', v, {'='});
    assert EncodeParam(p) == k + ['='] + v;
    hide Quote, Unquote;
  }

  /** Any parameters, blank ones included, come back from the query they are written to. */
  lemma {:induction false} QueryRoundTrip(ps: seq<Param>)
    requires OctetParams(ps)
    ensures ParseQuery(EncodeQuery(ps)) == ps
    ensures forall i | 0 <= i < |EncodeQuery(ps)| ::
              Encoded(EncodeQuery(ps)[i]) || EncodeQuery(ps)[i] == '=' || EncodeQuery(ps)[i] == '&'
    ensures EncodeQuery(ps) == "" <==> ps == []
  {
    hide EncodeParam, ParamOf, Find, Before, Behind, ParseQuery;
    if ps == [] {
      NothingParses();
    } else {
      var first := EncodeParam(ps[0]);
      ParamRoundTrip(ps[0]);
      forall i | 0 <= i < |first| ensures first[i] !in {'&'} { assert Encoded(first[i]) || first[i] == '='; }
      if |ps| == 1 {
        FindNone(first, {'&'});
        LastParam(first, ps[0]);
        assert ps == [ps[0]];
      } else {
        QueryRoundTrip(ps[1..]);
        var rest := EncodeQuery(ps[1..]);
        FindStop(first, '&', rest, {'&'});
        FirstParam(first, rest, ps[0]);
        assert ps == [ps[0]] + ps[1..];
      }
    }
  }

  lemma NothingParses()
    ensures ParseQuery("") == []
  {
  }

  lemma LastParam(first: string, p: Param)
    requires first != "" && Find(first, {'&'}) == |first| && Before(first, {'&'}) == first && ParamOf(first) == p
    ensures ParseQuery(first) == [p]
  {
    hide ParamOf, Find;
  }

  lemma FirstParam(first: string, rest: string, p: Param)
    requires first != "" && ParamOf(first) == p
    requires var q := first + ['&'] + rest;
             Find(q, {'&'}) == |first| && Before(q, {'&'}) == first && Behind(q, {'&'}) == rest
    ensures ParseQuery(first + "&" + rest) == [p] + ParseQuery(rest)
  {
    hide ParamOf, Find;
    var q := first + ['&'] + rest;
    assert q == first + "&" + rest && |q| > |first|;
  }

  /******* Sorting and filtering parameters *******/

  predicate NotAbove(p: Param, q: Param) { p == q || ParamBelow(p, q) }

  lemma ParamTotal(p: Param, q: Param)
    ensures p == q || ParamBelow(p, q) || ParamBelow(q, p)
    ensures !(ParamBelow(p, q) && ParamBelow(q, p)) && !ParamBelow(p, p)
  {
    Keyset.TextTotal(p.key, q.key);
    Keyset.TextTotal(p.value, q.value);
    Keyset.TextTotal(p.key, p.key);
    Keyset.TextTotal(p.value, p.value);
  }

  lemma ParamTransitive(p: Param, q: Param, r: Param)
    requires NotAbove(p, q) && NotAbove(q, r)
    ensures NotAbove(p, r)
  {
    if ParamBelow(p, q) && ParamBelow(q, r) {
      Keyset.TextTotal(p.key, p.key);
      if Keyset.TextBelow(p.key, q.key) && Keyset.TextBelow(q.key, r.key) { Keyset.TextTransitive(p.key, q.key, r.key); }
      if p.key == q.key == r.key { Keyset.TextTransitive(p.value, q.value, r.value); }
    }
  }

  ghost predicate InOrder(ps: seq<Param>) { forall i, j | 0 <= i < j < |ps| :: NotAbove(ps[i], ps[j]) }

  lemma {:induction false} InsertInOrder(p: Param, ps: seq<Param>)
    requires InOrder(ps)
    ensures InOrder(Insert(p, ps))
  {
    if ps == [] {
    } else if !ParamBelow(ps[0], p) {
      ParamTotal(ps[0], p);
      forall j | 0 <= j < |ps| ensures NotAbove(p, ps[j]) {
        if j > 0 { ParamTransitive(p, ps[0], ps[j]); }
      }
    } else {
      InsertInOrder(p, ps[1..]);
      InsertMembers(p, ps[1..]);
      var r := Insert(p, ps[1..]);
      forall j | 0 <= j < |r| ensures NotAbove(ps[0], r[j]) {
        assert r[j] in multiset(ps[1..]) + multiset{p};
      }
    }
  }

  lemma {:induction false} SortedInOrder(ps: seq<Param>)
    ensures InOrder(Sorted(ps))
  {
    if ps != [] {
      SortedInOrder(ps[1..]);
      InsertInOrder(ps[0], Sorted(ps[1..]));
    }
  }

  lemma SameFirst(a: seq<Param>, b: seq<Param>)
    requires InOrder(a) && InOrder(b) && multiset(a) == multiset(b) && a != [] && b != []
    ensures a[0] == b[0]
  {
    hide ParamBelow;
    assert a[0] in multiset(b) && b[0] in multiset(a);
    var i :| 0 <= i < |b| && b[i] == a[0];
    var j :| 0 <= j < |a| && a[j] == b[0];
    assert NotAbove(b[0], a[0]) && NotAbove(a[0], b[0]);
    ParamTotal(a[0], b[0]);
  }

  lemma RestInOrder(a: seq<Param>)
    requires InOrder(a) && a != []
    ensures InOrder(a[1..]) && multiset(a[1..]) == multiset(a) - multiset{a[0]}
  {
    hide NotAbove;
    assert a == [a[0]] + a[1..];
  }

  /** A multiset has one ordered listing. */
  lemma {:induction false} OneOrder(a: seq<Param>, b: seq<Param>)
    requires InOrder(a) && InOrder(b) && multiset(a) == multiset(b)
    ensures a == b
  {
    assert |a| == |multiset(a)| == |multiset(b)| == |b|;
    if a != [] {
      SameFirst(a, b);
      RestInOrder(a);
      RestInOrder(b);
      hide InOrder;
      OneOrder(a[1..], b[1..]);
      assert a == [a[0]] + a[1..] && b == [b[0]] + b[1..];
    }
  }

  lemma SortedAgain(ps: seq<Param>)
    ensures Sorted(Sorted(ps)) == Sorted(ps)
  {
    SortedInOrder(ps);
    SortedInOrder(Sorted(ps));
    SortedMembers(Sorted(ps));
    OneOrder(Sorted(Sorted(ps)), Sorted(ps));
  }

  lemma {:induction false} KeptMembers(ps: seq<Param>, p: Param)
    ensures multiset(Kept(ps))[p] == if IsTracking(p.key) then 0 else multiset(ps)[p]
  {
    hide IsTracking;
    if ps != [] {
      KeptMembers(ps[1..], p);
      assert ps == [ps[0]] + ps[1..];
    }
  }

  /** Order and tracking parameters do not matter to the canonical parameters. */
  lemma SameKeptSameSorted(a: seq<Param>, b: seq<Param>)
    requires forall p: Param :: !IsTracking(p.key) ==> multiset(a)[p] == multiset(b)[p]
    ensures Sorted(Kept(a)) == Sorted(Kept(b))
  {
    forall p ensures multiset(Kept(a))[p] == multiset(Kept(b))[p] {
      KeptMembers(a, p);
      KeptMembers(b, p);
    }
    assert multiset(Kept(a)) == multiset(Kept(b));
    SortedMembers(Kept(a));
    SortedMembers(Kept(b));
    SortedInOrder(Kept(a));
    SortedInOrder(Kept(b));
    OneOrder(Sorted(Kept(a)), Sorted(Kept(b)));
  }

  lemma {:induction false} KeptAll(ps: seq<Param>)
    requires forall i | 0 <= i < |ps| :: !IsTracking(ps[i].key)
    ensures Kept(ps) == ps
  {
    hide IsTracking;
    if ps != [] { KeptAll(ps[1..]); }
  }

  /** Canonical parameters are canonical. */
  lemma ParamsAgain(ps: seq<Param>)
    ensures Sorted(Kept(Sorted(Kept(ps)))) == Sorted(Kept(ps))
  {
    var s := Sorted(Kept(ps));
    SortedMembers(Kept(ps));
    forall i | 0 <= i < |s| ensures !IsTracking(s[i].key) {
      assert s[i] in multiset(Kept(ps));
      KeptMembers(ps, s[i]);
    }
    KeptAll(s);
    SortedAgain(Kept(ps));
  }

  /******* Reading a URL that has been put together *******/

  predicate NoneOf(s: string, bad: set<char>) { forall i | 0 <= i < |s| :: s[i] !in bad }

  function Tagged(tag: char, s: Option<string>): string { if s.Some? then [tag] + s.value else "" }

  /** An HTTPS URL from its parts; the query and the fragment may be missing. */
  function Url(host: string, port: Option<string>, path: string, query: Option<string>, fragment: Option<string>): string {
    "https://" + ((host + Tagged(':', port)) + (path + Tagged('?', query) + Tagged('#', fragment)))
  }

  predicate Unbreakable(s: string) { forall i | 0 <= i < |s| :: !IsBreak(s[i]) }

  /** A registered name: nothing of an address in brackets. */
  predicate Named(host: string) { NoneOf(host, {':', '[', ']'}) }

  /** Parts that can be told apart again, without white space around the whole. */
  predicate Apart(host: string, port: Option<string>, path: string, query: Option<string>, fragment: Option<string>) {
    && host != "" && NoneOf(host, {'/', '?', '#', '@'}) && Named(host)
    && NoneOf(Tagged(':', port), {'/', '?', '#', '@', '[', ']'})
    && NoneOf(path, {'?', '#'}) && (path != "" ==> path[0] == '/')
    && NoneOf(Tagged('?', query), {'#'})
    && Unbreakable(Url(host, port, path, query, fragment))
    && !EndsInSpace(Url(host, port, path, query, fragment))
  }

  predicate EndsInSpace(s: string) { SpaceBehind(s) > 0 }

  predicate Ascii(c: char) { c as int < 128 }

  /** White space beyond ASCII has no ASCII octet. */
  lemma WhiteIsWide(s: string)
    requires IsWhite(s)
    ensures |s| == 1 || forall i | 0 <= i < |s| :: !Ascii(s[i])
    ensures |s| == 1 ==> IsSpace(s[0])
  {
    hide IsSpace;
  }

  /** An ASCII character that is no space ends no white space. */
  lemma EndsPlain(s: string)
    requires s != "" && Ascii(s[|s| - 1]) && !IsSpace(s[|s| - 1])
    ensures !EndsInSpace(s)
  {
    hide IsWhite, IsSpace, Ascii;
    forall n: nat | n > 0 ensures !EndsWhite(s, n) {
      if EndsWhite(s, n) {
        assert s[|s| - n..][n - 1] == s[|s| - 1];
        WhiteIsWide(s[|s| - n..]);
      }
    }
  }

  lemma StartsPlain(s: string)
    requires s != "" && Ascii(s[0]) && !IsSpace(s[0])
    ensures SpaceAhead(s) == 0
  {
    hide IsWhite, IsSpace, Ascii;
    forall n: nat | n > 0 ensures !StartsWhite(s, n) {
      if StartsWhite(s, n) {
        assert s[..n][0] == s[0];
        WhiteIsWide(s[..n]);
      }
    }
  }

  /** White space at the end does not reach over an ASCII character. */
  lemma EndsWhiteOfSum(a: string, b: string, n: nat)
    requires b != "" && Ascii(b[0])
    ensures EndsWhite(a + b, n) <==> EndsWhite(b, n)
  {
    hide IsWhite, IsSpace, Ascii;
    var s := a + b;
    if n <= |b| {
      assert s[|s| - n..] == b[|b| - n..];
    } else if EndsWhite(s, n) {
      assert s[|s| - n..][n - |b|] == b[0];
      WhiteIsWide(s[|s| - n..]);
    }
  }

  lemma SpaceBehindOfSum(a: string, b: string)
    requires b != "" && Ascii(b[0])
    ensures SpaceBehind(a + b) == SpaceBehind(b)
  {
    hide EndsWhite, Ascii;
    EndsWhiteOfSum(a, b, 1);
    EndsWhiteOfSum(a, b, 2);
    EndsWhiteOfSum(a, b, 3);
  }

  lemma {:induction false} UnbrokenIs(s: string)
    requires Unbreakable(s)
    ensures Unbroken(s) == s
  {
    if s != "" { UnbrokenIs(s[1..]); }
  }

  lemma TrimIs(s: string)
    requires SpaceAhead(s) == 0 && !EndsInSpace(s)
    ensures Trim(s) == s
  {
  }

  /** The authority ends where the path, the query or the fragment begins. */
  lemma AuthorityOf(netloc: string, tail: string)
    requires NoneOf(netloc, {'/', '?', '#'}) && (tail != "" ==> tail[0] in {'/', '?', '#'})
    ensures Before(netloc + tail, {'/', '?', '#'}) == netloc && (netloc + tail)[|netloc|..] == tail
  {
    if tail == "" {
      assert netloc + tail == netloc;
      FindNone(netloc, {'/', '?', '#'});
    } else {
      FindStop(netloc, tail[0], tail[1..], {'/', '?', '#'});
      assert netloc + [tail[0]] + tail[1..] == netloc + tail;
    }
  }

  /** Cutting at a tag. */
  lemma CutAtTag(s: string, tag: char, more: Option<string>)
    requires NoneOf(s, {tag})
    ensures Before(s + Tagged(tag, more), {tag}) == s
    ensures Behind(s + Tagged(tag, more), {tag}) == if more.Some? then more.value else ""
  {
    if more.Some? {
      FindStop(s, tag, more.value, {tag});
      assert s + [tag] + more.value == s + Tagged(tag, more);
    } else {
      assert s + Tagged(tag, more) == s;
      FindNone(s, {tag});
    }
  }

  lemma HostOf(host: string, port: Option<string>)
    requires NoneOf(host, {'@'}) && Named(host) && NoneOf(Tagged(':', port), {'@', '[', ']'})
    ensures HostPort(host + Tagged(':', port)) == host + Tagged(':', port)
    ensures HostName(host + Tagged(':', port)) == host && !BadBrackets(host + Tagged(':', port))
  {
    var netloc := host + Tagged(':', port);
    forall i | 0 <= i < |netloc| ensures netloc[i] !in {'@', '[', ']'} {
      assert i >= |host| ==> netloc[i] == Tagged(':', port)[i - |host|];
    }
    FindNone(netloc, {'@'});
    CutAtTag(host, ':', port);
    hide Find, Before, Behind, IsAddress;
  }

  lemma TailParts(path: string, query: Option<string>, fragment: Option<string>)
    requires NoneOf(path, {'?', '#'}) && NoneOf(Tagged('?', query), {'#'})
    ensures var tail := Before(path + Tagged('?', query) + Tagged('#', fragment), {'#'});
            Before(tail, {'?'}) == path && Behind(tail, {'?'}) == if query.Some? then query.value else ""
  {
    CutAtTag(path + Tagged('?', query), '#', fragment);
    CutAtTag(path, '?', query);
  }

  lemma HttpsPrefix(rest: string)
    ensures var s := "https://" + rest;
            SchemeEnd(s) == 6 && |s| >= 8 && Lower(s[..6]) == "https:" && s[6..8] == "//" && s[8..] == rest && s[0] == 'h'
  {
    var s := "https://" + rest;
    FindStop("https", ':', "//" + rest, {':'});
    assert s == "https" + [':'] + ("//" + rest);
    assert s[..6] == "https:" && s[6..8] == "//";
    assert Lower("https:") == "https:";
  }

  /** What an HTTPS URL is read as, from its authority and what follows. */
  function HttpsOf(netloc: string, tail: string): Reading<Parts> {
    if BadBrackets(netloc) then Raises else Authority(netloc, tail)
  }

  lemma ParseHttps(text: string, netloc: string, tail: string)
    requires Unbroken(Trim(text)) == "https://" + (netloc + tail)
    requires NoneOf(netloc, {'/', '?', '#'}) && (tail != "" ==> tail[0] in {'/', '?', '#'})
    ensures Parse(text) == HttpsOf(netloc, tail)
  {
    hide Lower, Find, Trim, Unbroken, HostPort, HostName, NoneOf, Before, Behind, BadBrackets, Authority, SchemeEnd;
    HttpsPrefix(netloc + tail);
    AuthorityOf(netloc, tail);
  }

  lemma PlainText(s: string)
    requires SpaceAhead(s) == 0 && !EndsInSpace(s) && Unbreakable(s)
    ensures Unbroken(Trim(s)) == s
  {
    TrimIs(s);
    UnbrokenIs(s);
  }

  lemma TailStarts(path: string, query: Option<string>, fragment: Option<string>)
    requires path != "" ==> path[0] == '/'
    ensures var tail := path + Tagged('?', query) + Tagged('#', fragment);
            tail != "" ==> tail[0] in {'/', '?', '#'}
  {
  }

  lemma PlainHttps(rest: string)
    requires Unbreakable("https://" + rest) && !EndsInSpace("https://" + rest)
    ensures Unbroken(Trim("https://" + rest)) == "https://" + rest
  {
    LetterIsNoSpace();
    assert ("https://" + rest)[0] == 'h';
    hide IsSpace, Unbreakable, Unbroken, Trim, EndsInSpace, SpaceAhead;
    StartsPlain("https://" + rest);
    PlainText("https://" + rest);
  }

  /** What is read is what was put together, less the port and the fragment. */
  lemma ParseUrl(host: string, port: Option<string>, path: string, query: Option<string>, fragment: Option<string>)
    requires Apart(host, port, path, query, fragment)
    ensures Parse(Url(host, port, path, query, fragment)) ==
            Read(Parts(Lower(host), path, if query.Some? then query.value else ""))
  {
    hide Lower, Find, Trim, Unbroken, HostPort, HostName, BadBrackets, NoneOf, Before, Behind, Unbreakable, Parse, EndsInSpace,
         Named;
    NetlocIsPlain(host, port);
    SomeOf(host, port);
    HostOf(host, port);
    TailParts(path, query, fragment);
    TailStarts(path, query, fragment);
    hide Tagged;
    var netloc, tail := host + Tagged(':', port), path + Tagged('?', query) + Tagged('#', fragment);
    PlainHttps(netloc + tail);
    ParseHttps(Url(host, port, path, query, fragment), netloc, tail);
    assert netloc[..0] == "";
  }

  lemma LetterIsNoSpace()
    ensures !IsSpace('h') && Ascii('h')
  {
  }

  /** Fewer stop characters are met no more often. */
  lemma SomeOf(host: string, port: Option<string>)
    requires NoneOf(host, {'/', '?', '#', '@'}) && NoneOf(Tagged(':', port), {'/', '?', '#', '@', '[', ']'})
    ensures NoneOf(host, {'@'}) && NoneOf(Tagged(':', port), {'@', '[', ']'})
  {
  }

  lemma NetlocIsPlain(host: string, port: Option<string>)
    requires NoneOf(host, {'/', '?', '#', '@'}) && NoneOf(Tagged(':', port), {'/', '?', '#', '@', '[', ']'})
    ensures NoneOf(host + Tagged(':', port), {'/', '?', '#'})
  {
    var netloc := host + Tagged(':', port);
    forall i | 0 <= i < |netloc| ensures netloc[i] !in {'/', '?', '#'} {
      assert i >= |host| ==> netloc[i] == Tagged(':', port)[i - |host|];
    }
  }

  function QueryText(query: Option<string>): string { if query.Some? then query.value else "" }

  /**
    Host case, the port, slashes at the end of the path, the order of the parameters, tracking
    parameters and the fragment do not change the canonical URL.
   */
  lemma EquivalentUrlsAreOne(
    host: string, port: Option<string>, path: string, query: Option<string>, fragment: Option<string>,
    host': string, port': Option<string>, path': string, query': Option<string>, fragment': Option<string>)
    requires Apart(host, port, path, query, fragment) && Apart(host', port', path', query', fragment')
    requires Octets(Url(host, port, path, query, fragment)) && Octets(Url(host', port', path', query', fragment'))
    requires Lower(host) == Lower(host') && StripSlashes(path) == StripSlashes(path')
    requires forall p: Param :: !IsTracking(p.key) ==>
               multiset(ParseQuery(QueryText(query)))[p] == multiset(ParseQuery(QueryText(query')))[p]
    ensures Canonical(Url(host, port, path, query, fragment)).Read?
    ensures Canonical(Url(host, port, path, query, fragment)) == Canonical(Url(host', port', path', query', fragment'))
  {
    ParseUrl(host, port, path, query, fragment);
    ParseUrl(host', port', path', query', fragment');
    SameKeptSameSorted(ParseQuery(QueryText(query)), ParseQuery(QueryText(query')));
    ParamsAreOctets(Url(host, port, path, query, fragment));
    hide Parse, Url, Apart, ParseQuery, Sorted, Kept, Lower, StripSlashes, Octets, IsTracking;
  }

  /******* Canonicalizing again *******/

  lemma {:induction false} UnbrokenIsUnbreakable(s: string)
    ensures Unbreakable(Unbroken(s))
  {
    if s != "" { UnbrokenIsUnbreakable(s[1..]); }
  }

  lemma {:induction false} HostPortIsSuffix(netloc: string)
    ensures NoneOf(HostPort(netloc), {'@'})
    ensures HostPort(netloc) == netloc[|netloc| - |HostPort(netloc)|..]
    decreases |netloc|
  {
    if Find(netloc, {'@'}) < |netloc| { HostPortIsSuffix(Behind(netloc, {'@'})); }
  }

  lemma LowerKeeps(s: string)
    requires NoneOf(s, {'/', '?', '#', '@'}) && Unbreakable(s) && Octets(s)
    ensures NoneOf(Lower(s), {'/', '?', '#', '@'}) && Unbreakable(Lower(s)) && Octets(Lower(s))
    ensures Lower(Lower(s)) == Lower(s) && |Lower(s)| == |s|
  {
  }

  /** A part of a text has the characters of the text. */
  lemma PartKeeps(s: string, i: nat, j: nat)
    requires i <= j <= |s| && Unbreakable(s) && Octets(s)
    ensures Unbreakable(s[i..j]) && Octets(s[i..j])
  {
  }

  /** A host as it is written: a registered name, or an address without its brackets. */
  predicate CleanHost(h: string) {
    h != "" && NoneOf(h, {'/', '?', '#', '@'}) && Unbreakable(h) && Octets(h) && Lower(h) == h
  }

  predicate CleanPath(p: string) {
    NoneOf(p, {'?', '#'}) && Unbreakable(p) && Octets(p) && (p != "" ==> p[0] == '/')
  }

  /** The host stands somewhere in the authority. */
  lemma HostNameIsPart(hostPort: string) returns (i: nat)
    ensures i + |HostName(hostPort)| <= |hostPort|
    ensures HostName(hostPort) == hostPort[i..i + |HostName(hostPort)|]
    ensures '[' in hostPort ==> i > 0
  {
    if '[' in hostPort {
      i := |hostPort| - |Behind(hostPort, {'['})|;
    } else {
      i := 0;
    }
  }

  lemma PartIsNoneOf(s: string, i: nat, j: nat, bad: set<char>)
    requires i <= j <= |s| && NoneOf(s, bad)
    ensures NoneOf(s[i..j], bad)
  {
  }

  lemma BothNoneOf(s: string)
    requires NoneOf(s, {'/', '?', '#'}) && NoneOf(s, {'@'})
    ensures NoneOf(s, {'/', '?', '#', '@'})
  {
  }

  lemma HostIsClean(netloc: string)
    requires NoneOf(netloc, {'/', '?', '#'}) && Unbreakable(netloc) && Octets(netloc)
    requires HostName(HostPort(netloc)) != ""
    ensures CleanHost(Lower(HostName(HostPort(netloc))))
  {
    hide HostName, HostPort, NoneOf, Unbreakable, Octets, Lower;
    var hp := HostPort(netloc);
    HostPortIsSuffix(netloc);
    PartKeeps(netloc, |netloc| - |hp|, |netloc|);
    PartIsNoneOf(netloc, |netloc| - |hp|, |netloc|, {'/', '?', '#'});
    BothNoneOf(hp);
    var host := HostName(hp);
    var i := HostNameIsPart(hp);
    PartKeeps(hp, i, i + |host|);
    PartIsNoneOf(hp, i, i + |host|, {'/', '?', '#', '@'});
    LowerKeeps(host);
  }

  lemma PathIsClean(tail: string)
    requires Unbreakable(tail) && Octets(tail) && (tail != "" ==> tail[0] in {'/', '?', '#'})
    ensures CleanPath(Before(Before(tail, {'#'}), {'?'}))
  {
    var body := Before(tail, {'#'});
    var path := Before(body, {'?'});
    PartKeeps(tail, 0, |body|);
    PartKeeps(body, 0, |path|);
    assert forall i | 0 <= i < |path| :: path[i] == body[i] == tail[i];
    forall i | 0 <= i < |path| ensures path[i] !in {'?', '#'} {
      assert body[i] !in {'?'} && tail[i] !in {'#'};
    }
  }

  lemma AuthorityIsClean(netloc: string, tail: string)
    requires NoneOf(netloc, {'/', '?', '#'}) && Unbreakable(netloc) && Octets(netloc)
    requires Unbreakable(tail) && Octets(tail) && (tail != "" ==> tail[0] in {'/', '?', '#'})
    requires Authority(netloc, tail).Read?
    ensures CleanHost(Authority(netloc, tail).value.host) && CleanPath(Authority(netloc, tail).value.path)
  {
    hide CleanHost, CleanPath, HostPort, HostName, Before, Behind, Lower, Unbreakable, Octets, NoneOf;
    HostIsClean(netloc);
    PathIsClean(tail);
  }

  lemma ParsedIsClean(text: string)
    requires Octets(text) && Parse(text).Read?
    ensures CleanHost(Parse(text).value.host) && CleanPath(Parse(text).value.path)
  {
    hide TrimLeft, TrimRight;
    var s := Unbroken(Trim(text));
    TrimmedOctets(text);
    TrimmedOctets(TrimLeft(text));
    UnbrokenOctets(Trim(text));
    UnbrokenIsUnbreakable(Trim(text));
    hide Unbroken, Trim, Authority, BadBrackets, CleanHost, CleanPath, Lower;
    var k := SchemeEnd(s);
    hide SchemeEnd;
    var rest := s[k + 2..];
    PartKeeps(s, k + 2, |s|);
    var netloc := Before(rest, {'/', '?', '#'});
    PartKeeps(rest, 0, |netloc|);
    PartKeeps(rest, |netloc|, |rest|);
    hide Find;
    var tail := rest[|netloc|..];
    assert tail != "" ==> tail[0] == rest[|netloc|];
    hide Unbreakable, Octets, Before;
    AuthorityIsClean(netloc, tail);
  }

  lemma {:induction false} StrippedIs(p: string)
    ensures StripSlashes(StripSlashes(p)) == StripSlashes(p) && |StripSlashes(p)| <= |p|
    ensures StripSlashes(p) == p[..|StripSlashes(p)|]
  {
    if p != "" && p[|p| - 1] == '/' {
      StrippedIs(p[..|p| - 1]);
      assert p[..|p| - 1][..|StripSlashes(p)|] == p[..|StripSlashes(p)|];
    } else {
      assert p[..|p|] == p;
    }
  }

  lemma PathOfIsClean(p: string)
    requires CleanPath(p)
    ensures CleanPath(PathOf(p)) && PathOf(p) != "" && PathOf(PathOf(p)) == PathOf(p)
    ensures p != "" ==> |PathOf(p)| <= |p|
  {
    StrippedIs(p);
    assert StripSlashes("/") == "" by { assert "/"[..0] == ""; }
    hide StripSlashes;
  }

  /** The query as it is written, if it is. */
  function QueryOf(ps: seq<Param>): Option<string>
    requires OctetParams(ps)
  {
    if EncodeQuery(ps) == "" then None else Some(EncodeQuery(ps))
  }

  lemma WrittenIsUrl(host: string, path: string, ps: seq<Param>)
    requires OctetParams(ps)
    ensures Written(host, path, ps) == Url(host, None, path, QueryOf(ps), None)
  {
    hide EncodeQuery;
  }

  predicate QueryChar(c: char) { Encoded(c) || c == '=' || c == '&' }

  lemma QueryCharIsPlain(c: char)
    requires QueryChar(c)
    ensures !IsSpace(c) && !IsBreak(c) && c != '#' && Ascii(c)
  {
  }

  lemma QueryIsPlain(ps: seq<Param>)
    requires OctetParams(ps)
    ensures var q := Tagged('?', QueryOf(ps));
            && NoneOf(q, {'#'}) && Unbreakable(q) && Octets(q) && !EndsInSpace(q)
  {
    QueryRoundTrip(ps);
    var q := EncodeQuery(ps);
    forall i | 0 <= i < |q| ensures !IsSpace(q[i]) && !IsBreak(q[i]) && q[i] != '#' && Ascii(q[i]) {
      QueryCharIsPlain(q[i]);
    }
    hide EncodeQuery, ParseQuery, Encoded, OctetParams, EndsInSpace;
    var t := Tagged('?', QueryOf(ps));
    forall i | 0 <= i < |t| ensures !IsSpace(t[i]) && !IsBreak(t[i]) && t[i] != '#' && Ascii(t[i]) {
      if i > 0 { assert t[i] == q[i - 1]; }
    }
    NothingEndsPlain();
    if t != "" { EndsPlain(t); }
  }

  lemma NothingEndsPlain()
    ensures !EndsInSpace("")
  {
  }

  lemma SumKeeps(a: string, b: string)
    requires Unbreakable(a) && Octets(a) && Unbreakable(b) && Octets(b)
    ensures Unbreakable(a + b) && Octets(a + b)
  {
  }

  /** A canonical URL is made of octets and holds no breaks. */
  lemma WrittenKeeps(host: string, path: string, ps: seq<Param>)
    requires CleanHost(host) && CleanPath(path) && OctetParams(ps)
    ensures Unbreakable(Url(host, None, path, QueryOf(ps), None)) && Octets(Url(host, None, path, QueryOf(ps), None))
  {
    QueryIsPlain(ps);
    var q := Tagged('?', QueryOf(ps));
    assert Unbreakable("https://") && Octets("https://");
    assert Tagged(':', None) == "" && Tagged('#', None) == "";
    assert host + "" == host && path + q + "" == path + q;
    SumKeeps(path, q);
    SumKeeps(host, path + q);
    SumKeeps("https://", host + (path + q));
    hide Unbreakable, Octets, Tagged, NoneOf, Lower;
  }

  lemma WrittenIsApart(host: string, path: string, ps: seq<Param>)
    requires CleanHost(host) && Named(host) && CleanPath(path) && OctetParams(ps)
    requires !EndsInSpace(Url(host, None, path, QueryOf(ps), None))
    ensures Apart(host, None, path, QueryOf(ps), None)
  {
    WrittenKeeps(host, path, ps);
    QueryIsPlain(ps);
    hide QueryOf, Unbreakable, Lower, Octets, EndsInSpace, Named;
  }

  /** Canonicalizing what names its host and does not end in white space changes nothing. */
  lemma PlainIsFixed(host: string, path: string, ps: seq<Param>)
    requires CleanHost(host) && Named(host)
    requires CleanPath(path) && PathOf(path) == path && OctetParams(ps) && Sorted(Kept(ps)) == ps
    requires !EndsInSpace(Written(host, path, ps)) && Octets(Written(host, path, ps))
    ensures Canonical(Written(host, path, ps)) == Read(Written(host, path, ps))
  {
    WrittenIsUrl(host, path, ps);
    WrittenIsApart(host, path, ps);
    ParseUrl(host, None, path, QueryOf(ps), None);
    QueryRoundTrip(ps);
    hide Parse, Url, Apart, Written, PathOf, CleanPath, Sorted, Kept, OctetParams, Octets, EncodeQuery, Named;
  }

  /** Cutting white space off leaves what starts the text. */
  lemma WhiteIsNotAll(s: string)
    requires s != "" && Ascii(s[0]) && !IsSpace(s[0])
    ensures SpaceBehind(s) < |s|
  {
    hide IsSpace, IsWhite, Ascii;
    if SpaceBehind(s) == |s| {
      assert s[0..] == s;
      WhiteIsWide(s);
    }
  }

  lemma {:induction false} TrimRightIs(s: string)
    ensures |TrimRight(s)| <= |s| && TrimRight(s) == s[..|TrimRight(s)|] && !EndsInSpace(TrimRight(s))
    ensures EndsInSpace(s) ==> |TrimRight(s)| < |s|
    ensures s != "" && Ascii(s[0]) && !IsSpace(s[0]) ==> TrimRight(s) != ""
  {
    hide IsSpace, SpaceBehind, Ascii;
    if SpaceBehind(s) > 0 {
      var init := s[..|s| - SpaceBehind(s)];
      TrimRightIs(init);
      assert init[..|TrimRight(init)|] == s[..|TrimRight(init)|];
      if s != "" && Ascii(s[0]) && !IsSpace(s[0]) { WhiteIsNotAll(s); }
    } else {
      assert s[..|s|] == s;
    }
  }

  lemma {:induction false} TrimRightOfSum(a: string, b: string)
    requires TrimRight(b) != "" && Ascii(b[0])
    ensures TrimRight(a + b) == a + TrimRight(b)
    decreases |b|
  {
    hide SpaceBehind, Ascii;
    TrimRightIs(b);
    SpaceBehindOfSum(a, b);
    var n := SpaceBehind(b);
    if n > 0 {
      assert (a + b)[..|a + b| - n] == a + b[..|b| - n];
      TrimRightIs(b[..|b| - n]);
      TrimRightOfSum(a, b[..|b| - n]);
    }
  }

  /** Only white space after the path, the query or the fragment is trimmed off. */
  lemma TrimmedHttps(host: string, tail: string)
    requires tail != "" && tail[0] == '/' && Unbreakable(host) && Unbreakable(tail)
    ensures TrimRight(tail) != "" && TrimRight(tail)[0] == '/'
    ensures Unbroken(Trim("https://" + (host + tail))) == "https://" + (host + TrimRight(tail))
  {
    hide TrimRight, TrimLeft, IsSpace, Ascii, SpaceBehind, Unbroken;
    SlashIsNoSpace();
    TrimRightIs(tail);
    HttpsStays(host + tail);
    TrimRightOfSum("https://" + host, tail);
    var cut := TrimRight(tail);
    assert "https://" + (host + tail) == "https://" + host + tail;
    assert "https://" + (host + cut) == "https://" + host + cut;
    assert Unbreakable(cut);
    assert Unbreakable("https://" + (host + cut));
    UnbrokenIs("https://" + (host + cut));
  }

  /** What a written URL is read as. */
  lemma ParseWritten(host: string, tail: string)
    requires CleanHost(host) && tail != "" && tail[0] == '/' && Unbreakable(tail)
    ensures Parse("https://" + (host + tail)) == HttpsOf(host, TrimRight(tail))
  {
    TrimmedHttps(host, tail);
    assert NoneOf(host, {'/', '?', '#'});
    hide Parse, HttpsOf, Trim, Unbroken, TrimRight, Lower, Unbreakable, Octets;
    ParseHttps("https://" + (host + tail), host, TrimRight(tail));
  }

  /** A name is read back with the path, less white space at its end. */
  lemma ParseNamed(host: string, path: string)
    requires CleanHost(host) && Named(host) && CleanPath(path) && path != ""
    ensures Parse("https://" + (host + path)) == Read(Parts(host, TrimRight(path), ""))
    ensures TrimRight(path) != "" && CleanPath(TrimRight(path))
  {
    ParseWritten(host, path);
    SlashIsNoSpace();
    TrimRightIs(path);
    var cut := TrimRight(path);
    PartKeeps(path, 0, |cut|);
    assert CleanPath(cut) by { assert forall i | 0 <= i < |cut| :: cut[i] == path[i]; }
    SomeOf(host, None);
    HostOf(host, None);
    assert host + Tagged(':', None) == host;
    TailParts(cut, None, None);
    assert cut + Tagged('?', None) + Tagged('#', None) == cut;
    hide Parse, TrimRight, Find, Before, Behind, HostPort, HostName, BadBrackets, Lower, Unbreakable, Octets, NoneOf, Named;
    assert host[..0] == "";
  }

  lemma SlashIsNoSpace()
    ensures !IsSpace('/') && Ascii('/')
  {
  }

  lemma HttpsStays(rest: string)
    ensures TrimLeft("https://" + rest) == "https://" + rest
  {
    LetterIsNoSpace();
    assert ("https://" + rest)[0] == 'h';
    hide IsSpace, SpaceAhead;
    StartsPlain("https://" + rest);
  }

  /******* Addresses *******/

  /** The host within a written address is shorter than the address. */
  lemma AddressShrinks(host: string)
    requires NoneOf(host, {'@'}) && !Named(host) && !BadBrackets(host)
    ensures HostPort(host) == host && |HostName(host)| < |host|
  {
    FindNone(host, {'@'});
    var i := HostNameIsPart(host);
    if '[' !in host {
      assert ']' !in host;
      assert ':' in host;
    }
    hide IsAddress;
  }

  /** The authority of a URL can be told from its text. */
  lemma AuthorityIsUnique(a: string, s: string, b: string, t: string)
    requires NoneOf(a, {'/', '?', '#'}) && NoneOf(b, {'/', '?', '#'})
    requires s != "" && s[0] == '/' && t != "" && t[0] == '/' && a + s == b + t
    ensures a == b
  {
    AuthorityOf(a, s);
    AuthorityOf(b, t);
  }

  function TailOf(path: string, ps: seq<Param>): string
    requires OctetParams(ps)
  {
    path + Tagged('?', QueryOf(ps))
  }

  lemma WrittenTail(host: string, path: string, ps: seq<Param>)
    requires CleanPath(path) && path != "" && OctetParams(ps)
    ensures Written(host, path, ps) == "https://" + (host + TailOf(path, ps))
    ensures TailOf(path, ps) != "" && TailOf(path, ps)[0] == '/' && Unbreakable(TailOf(path, ps))
  {
    WrittenIsFrontAndQuery(host, path, ps);
    QueryIsPlain(ps);
    SumKeeps(path, Tagged('?', QueryOf(ps)));
    hide QueryOf, Written, Unbreakable, Octets, NoneOf, OctetParams;
    assert "https://" + (host + path) + Tagged('?', QueryOf(ps)) == "https://" + (host + TailOf(path, ps));
  }

  lemma AddressReadsShorter(host: string, path: string, ps: seq<Param>)
    requires CleanHost(host) && !Named(host) && CleanPath(path) && path != "" && OctetParams(ps)
    ensures var r := Parse(Written(host, path, ps)); r.Read? ==> |r.value.host| < |host|
  {
    assert NoneOf(host, {'@'});
    WrittenTail(host, path, ps);
    ParseWritten(host, TailOf(path, ps));
    hide Parse, Named, BadBrackets, HostPort, HostName, TailOf, Before, Behind, NoneOf, TrimRight, Written;
    if !BadBrackets(host) { AddressShrinks(host); }
  }

  /** An address loses its brackets and is never read back. */
  lemma AddressIsNotFixed(host: string, path: string, ps: seq<Param>)
    requires CleanHost(host) && !Named(host) && CleanPath(path) && path != "" && OctetParams(ps)
    requires Octets(Written(host, path, ps))
    ensures Canonical(Written(host, path, ps)) != Read(Written(host, path, ps))
  {
    hide Parse, Named, CleanHost, CleanPath, Written, PathOf, Params, Octets, OctetParams;
    var c := Written(host, path, ps);
    AddressReadsShorter(host, path, ps);
    if Parse(c).Read? {
      ParsedIsClean(c);
      var p := Parse(c).value;
      PathOfIsClean(p.path);
      ParamsAreOctets(c);
      NotWrittenAlike(p.host, PathOf(p.path), Params(p.query), host, path, ps);
    }
  }

  lemma NotWrittenAlike(a: string, path: string, ps: seq<Param>, b: string, path': string, ps': seq<Param>)
    requires CleanHost(a) && CleanHost(b) && |a| < |b| && OctetParams(ps) && OctetParams(ps')
    requires CleanPath(path) && path != "" && CleanPath(path') && path' != ""
    ensures Written(a, path, ps) != Written(b, path', ps')
  {
    WrittenTail(a, path, ps);
    WrittenTail(b, path', ps');
    assert NoneOf(a, {'/', '?', '#'}) && NoneOf(b, {'/', '?', '#'});
    hide Written, CleanHost, CleanPath, TailOf, NoneOf, OctetParams, Unbreakable;
    var s, t := TailOf(path, ps), TailOf(path', ps');
    NotSpelledAlike(a, s, b, t);
  }

  lemma NotSpelledAlike(a: string, s: string, b: string, t: string)
    requires NoneOf(a, {'/', '?', '#'}) && NoneOf(b, {'/', '?', '#'}) && |a| != |b|
    requires s != "" && s[0] == '/' && t != "" && t[0] == '/'
    ensures "https://" + (a + s) != "https://" + (b + t)
  {
    if a + s == b + t { AuthorityIsUnique(a, s, b, t); }
    assert ("https://" + (a + s))[8..] == a + s && ("https://" + (b + t))[8..] == b + t;
  }

  /** The path, without its last slashes, ends in white space, and no parameter is kept. */
  predicate EndsBlank(p: Parts) {
    EndsInSpace(StripSlashes(p.path)) && Kept(ParseQuery(p.query)) == []
  }

  lemma SortedIsEmpty(ps: seq<Param>)
    ensures Sorted(ps) == [] <==> ps == []
  {
    SortedMembers(ps);
    assert ps != [] ==> ps[0] in multiset(Sorted(ps));
  }

  lemma PathEnds(p: string)
    ensures EndsInSpace(PathOf(p)) <==> EndsInSpace(StripSlashes(p))
  {
    hide StripSlashes, EndsInSpace, IsSpace, Ascii;
    SlashIsNoSpace();
    NothingEndsPlain();
    EndsPlain("/");
  }

  /** A written URL ends in white space exactly when its path does and there is no query. */
  lemma WrittenEnds(host: string, path: string, ps: seq<Param>)
    requires path != "" && path[0] == '/' && OctetParams(ps)
    ensures EndsInSpace(Written(host, path, ps)) <==> EndsInSpace(path) && ps == []
  {
    hide EndsInSpace, Written, QueryOf, OctetParams, Ascii, IsSpace;
    SlashIsNoSpace();
    var front, q := "https://" + (host + path), Tagged('?', QueryOf(ps));
    WrittenIsFrontAndQuery(host, path, ps);
    QueryHasNoSpaceEnd(ps);
    QueryIsThere(ps);
    SumEnds(front, q);
    SumEnds("https://" + host, path);
    assert front == "https://" + host + path;
    if ps == [] { assert front + q == front; }
  }

  lemma QueryIsThere(ps: seq<Param>)
    requires OctetParams(ps)
    ensures var q := Tagged('?', QueryOf(ps)); (q == "" <==> ps == []) && (q != "" ==> Ascii(q[0]))
  {
    QueryRoundTrip(ps);
    hide EncodeQuery, OctetParams;
    assert ParseQuery("") == [];
    assert EncodeQuery([]) == "" by { NoEncoding(); }
    hide ParseQuery;
  }

  lemma NoEncoding()
    ensures EncodeQuery([]) == ""
  {
  }

  /** The canonical URL ends in white space exactly when the URL that was read ends blank. */
  lemma BlankExactly(p: Parts)
    requires CleanPath(p.path) && OctetParams(Params(p.query))
    ensures EndsInSpace(Written(p.host, PathOf(p.path), Params(p.query))) <==> EndsBlank(p)
  {
    hide EndsInSpace, Written, OctetParams, ParseQuery, Kept, Sorted, PathOf, StripSlashes;
    PathOfIsClean(p.path);
    SortedIsEmpty(Kept(ParseQuery(p.query)));
    PathEnds(p.path);
    WrittenEnds(p.host, PathOf(p.path), Params(p.query));
  }

  /**
    Canonicalizing a canonical URL changes nothing exactly when its host is a registered name and
    the URL that was read does not end blank.
   */
  lemma CanonicalAgainExactly(text: string)
    requires Octets(text) && Canonical(text).Read?
    ensures var c := Canonical(text).value;
            && Octets(c)
            && (EndsInSpace(c) <==> EndsBlank(Parse(text).value))
            && (Canonical(c) == Read(c) <==> Named(Parse(text).value.host) && !EndsBlank(Parse(text).value))
  {
    var p := Parse(text).value;
    var path := PathOf(p.path);
    ParsedIsClean(text);
    PathOfIsClean(p.path);
    ParamsAreOctets(text);
    var ps := Params(p.query);
    ParamsAgain(ParseQuery(p.query));
    var c := Written(p.host, path, ps);
    WrittenIsUrl(p.host, path, ps);
    WrittenKeeps(p.host, path, ps);
    BlankExactly(p);
    hide Parse, Unbreakable, NoneOf, ParseQuery, Sorted, Kept, EndsBlank, Named, EndsInSpace;
    if !Named(p.host) {
      AddressIsNotFixed(p.host, path, ps);
    } else if EndsInSpace(c) {
      SpacedIsNotFixed(p.host, path, ps);
    } else {
      PlainIsFixed(p.host, path, ps);
    }
  }

  lemma WrittenIsFrontAndQuery(host: string, path: string, ps: seq<Param>)
    requires OctetParams(ps)
    ensures Written(host, path, ps) == "https://" + (host + path) + Tagged('?', QueryOf(ps))
  {
    hide EncodeQuery;
    assert "https://" + host + path == "https://" + (host + path);
  }

  lemma SpacedHasNoQuery(host: string, path: string, ps: seq<Param>)
    requires path != "" && path[0] == '/' && OctetParams(ps) && EndsInSpace(Written(host, path, ps))
    ensures Written(host, path, ps) == "https://" + (host + path) && EndsInSpace(path)
  {
    WrittenEnds(host, path, ps);
    WrittenBare(host, path);
  }

  lemma QueryHasNoSpaceEnd(ps: seq<Param>)
    requires OctetParams(ps)
    ensures !EndsInSpace(Tagged('?', QueryOf(ps)))
  {
    QueryIsPlain(ps);
  }

  lemma SpacedIsNotFixed(host: string, path: string, ps: seq<Param>)
    requires CleanHost(host) && Named(host) && CleanPath(path) && path != "" && OctetParams(ps)
    requires EndsInSpace(Written(host, path, ps)) && Octets(Written(host, path, ps))
    ensures Canonical(Written(host, path, ps)) != Read(Written(host, path, ps))
  {
    SlashIsNoSpace();
    SpacedHasNoQuery(host, path, ps);
    ParseNamed(host, path);
    TrimRightIs(path);
    PathOfIsClean(TrimRight(path));
    NoParams();
    hide Parse, TrimRight, PathOf, CleanHost, CleanPath, Params, Octets, EndsInSpace, Named, SpaceBehind, Ascii;
    assert EncodeQuery([]) == "";
  }

  lemma SumEnds(a: string, b: string)
    requires b != "" ==> Ascii(b[0])
    ensures b != "" ==> EndsInSpace(a + b) == EndsInSpace(b)
  {
    if b != "" { SpaceBehindOfSum(a, b); }
  }

  lemma NoParams()
    ensures Params("") == []
  {
  }

  lemma OneSlash(path: string)
    requires path != "" && path[|path| - 1] != '/'
    ensures PathOf(path + "/") == path
  {
    assert (path + "/")[..|path|] == path;
    assert StripSlashes(path) == path;
  }

  lemma WrittenBare(host: string, path: string)
    ensures Written(host, path, []) == "https://" + (host + path)
  {
    assert EncodeQuery([]) == "";
    hide EncodeQuery;
    assert "https://" + host + path + "" == "https://" + (host + path);
  }

  lemma CanonicalOfParts(text: string, p: Parts)
    requires Octets(text) && Parse(text) == Read(p) && Params(p.query) == []
    ensures Canonical(text) == Read("https://" + (p.host + PathOf(p.path)))
  {
    hide Parse, PathOf, Params, Octets, Written;
    WrittenBare(p.host, PathOf(p.path));
  }

  lemma NameAndPathAreOctets(host: string, path: string)
    requires CleanHost(host) && CleanPath(path) && path != ""
    ensures Octets("https://" + (host + path))
  {
    WrittenKeeps(host, path, []);
    hide CleanHost, CleanPath, Octets, Written;
    WrittenBare(host, path);
  }

  lemma SlashIsStripped(host: string, path: string)
    requires CleanHost(host) && Named(host) && CleanPath(path) && path != "" && path[|path| - 1] != '/'
    ensures var text := "https://" + (host + (path + "/"));
            Octets(text) && Canonical(text) == Read("https://" + (host + path))
  {
    hide Parse, PathOf, Params, CleanHost, CleanPath, EndsInSpace, Url, Named, Octets, EncodeQuery, QueryOf, Canonical,
         TrimRight;
    OneSlash(path);
    SlashKeepsPath(path);
    ParseNamed(host, path + "/");
    TrimmedAlready(path + "/");
    NoParams();
    NameAndPathAreOctets(host, path + "/");
    CanonicalOfParts("https://" + (host + (path + "/")), Parts(host, path + "/", ""));
  }

  /** Any path with white space before its last slash makes such a URL; the white space goes next time. */
  lemma SpaceBeforeSlashIsNotFixed(host: string, path: string)
    requires CleanHost(host) && Named(host) && CleanPath(path) && EndsInSpace(path)
    ensures var text, c := "https://" + (host + (path + "/")), "https://" + (host + path);
            && Octets(text) && Octets(c) && Canonical(text) == Read(c) && Canonical(c) != Read(c)
            && Canonical(c) == Read("https://" + (host + PathOf(TrimRight(path))))
  {
    var text, c := "https://" + (host + (path + "/")), "https://" + (host + path);
    SlashIsNoSpace();
    NothingEndsPlain();
    hide Parse, CleanHost, EndsInSpace, Named, EndsBlank, Canonical, Octets, IsSpace, Ascii;
    if path[|path| - 1] == '/' { EndsPlain(path); }
    SumEnds("https://" + host, path);
    assert c == "https://" + host + path;
    SlashIsStripped(host, path);
    CanonicalAgainExactly(text);
    NoParams();
    hide TrimRight, PathOf, CleanPath, Params, SpaceBehind;
    ParseNamed(host, path);
    CanonicalOfParts(c, Parts(host, TrimRight(path), ""));
  }

  /** U+00A0 in UTF-8. */
  const NO_BREAK_SPACE: string := [0xC2 as char, 0xA0 as char]

  /** One such URL whose white space is not ASCII. */
  lemma NoBreakSpaceIsNotFixed()
    ensures var c := "https://" + ("example.org" + ("/a" + NO_BREAK_SPACE));
            && Octets(c + "/") && Octets(c) && Canonical(c + "/") == Read(c)
            && Canonical(c) == Read("https://example.org/a")
  {
    hide Canonical, CleanHost, CleanPath, Named, Octets, EndsInSpace, TrimRight, PathOf;
    var path := "/a" + NO_BREAK_SPACE;
    ExampleIsClean();
    SpacedPath();
    OneLetter();
    SpaceBeforeSlashIsNotFixed("example.org", path);
    assert "https://" + ("example.org" + (path + "/")) == "https://" + ("example.org" + path) + "/";
    assert "https://" + ("example.org" + "/a") == "https://example.org/a";
  }

  lemma SpacedPath()
    ensures var path := "/a" + NO_BREAK_SPACE;
            CleanPath(path) && EndsInSpace(path) && TrimRight(path) == "/a"
  {
    hide EndsWhite;
    var path := "/a" + NO_BREAK_SPACE;
    NoBreakSpaceIsWhite();
    assert path[..2] == "/a";
    EndsPlain("/a");
    TrimmedAlready("/a");
  }

  lemma NoBreakSpaceIsWhite()
    ensures !EndsWhite("/a" + NO_BREAK_SPACE, 1) && EndsWhite("/a" + NO_BREAK_SPACE, 2)
  {
    var path := "/a" + NO_BREAK_SPACE;
    assert path[|path| - 2..] == NO_BREAK_SPACE;
    assert path[|path| - 1..] == [0xA0 as char];
  }

  lemma ExampleIsClean()
    ensures CleanHost("example.org") && Named("example.org")
  {
    assert Lower("example.org") == "example.org";
  }

  lemma OneLetter()
    ensures PathOf("/a") == "/a"
  {
  }

  lemma TrimmedAlready(s: string)
    requires !EndsInSpace(s)
    ensures TrimRight(s) == s
  {
  }

  lemma SlashKeepsPath(path: string)
    requires CleanPath(path) && path != ""
    ensures CleanPath(path + "/") && !EndsInSpace(path + "/")
  {
    SlashIsNoSpace();
    SumKeeps(path, "/");
    assert (path + "/")[0] == path[0];
  }

  /******* URLs that cannot be split *******/

  /** Whatever stands around it, an opening bracket without a closing one raises, and the reverse. */
  lemma UnpairedBracketRaises(netloc: string, tail: string)
    requires Unbreakable("https://" + (netloc + tail)) && Octets("https://" + (netloc + tail))
    requires !EndsInSpace("https://" + (netloc + tail))
    requires NoneOf(netloc, {'/', '?', '#'}) && (tail != "" ==> tail[0] in {'/', '?', '#'})
    requires '[' in netloc <==> ']' !in netloc
    ensures Canonical("https://" + (netloc + tail)) == Raises
  {
    hide IsSpace, Unbreakable, NoneOf, Octets, Unbroken, Trim, Parse, HostPort, HostName;
    PlainHttps(netloc + tail);
    ParseHttps("https://" + (netloc + tail), netloc, tail);
    assert BadBrackets(netloc);
  }

  const UNSPLITTABLE := "https://[::1"

  lemma UnsplittableRaises()
    ensures Octets(UNSPLITTABLE) && Canonical(UNSPLITTABLE) == Raises
  {
    assert UNSPLITTABLE == "https://" + ("[::1" + "");
    assert '[' in "[::1" by { assert "[::1"[0] == '['; }
    UnpairedBracketRaises("[::1", "");
  }
}
