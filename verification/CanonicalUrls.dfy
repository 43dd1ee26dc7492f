/** Which texts have a canonical URL, and what its query keeps. */
module CanonicalUrls {
  import opened Prelude
  import opened SourceUrl
  import opened SourceUrlTheorems
  import Keyset

  /******* Which texts are read *******/

  /** A URL with an authority, cut where its scheme, user part, host with port, and the rest begin. */
  predicate SplitsInto(s: string, scheme: string, user: string, hostPort: string, tail: string) {
    && s == (scheme + "//") + ((user + hostPort) + tail)
    && NoneOf(user + hostPort, {'/', '?', '#'}) && (tail != "" ==> tail[0] in {'/', '?', '#'})
    && NoneOf(hostPort, {'@'}) && (user != "" ==> user[|user| - 1] == '@')
  }

  predicate SpellsHttps(scheme: string) {
    && |scheme| == 6
    && scheme[0] in {'h', 'H'} && scheme[1] in {'t', 'T'} && scheme[2] in {'t', 'T'} && scheme[3] in {'p', 'P'}
    && scheme[4] in {'s', 'S'} && scheme[5] == ':'
  }

  /** Nobody is named and no password is given, though their marks may stand there. */
  predicate NamesNobody(user: string) { user in {"", "@", ":@"} }

  predicate Acceptable(scheme: string, user: string, hostPort: string) {
    SpellsHttps(scheme) && NamesNobody(user) && HostName(hostPort) != "" && !BadBrackets(user + hostPort)
  }

  lemma HttpsLowers(scheme: string)
    ensures SpellsHttps(scheme) <==> Lower(scheme) == "https:"
  {
    var https := "https:";
    if |scheme| == 6 {
      assert forall i | 0 <= i < 6 :: Lower(scheme)[i] == LowerChar(scheme[i]);
      if Lower(scheme) == https {
        assert forall i | 0 <= i < 6 :: LowerChar(scheme[i]) == https[i];
        forall i | 0 <= i < 6 ensures scheme[i] == https[i] || scheme[i] as int + 32 == https[i] as int {
          LoweredFrom(scheme[i]);
        }
      }
      if SpellsHttps(scheme) {
        assert Lower(scheme) == https;
      }
    }
  }

  lemma LoweredFrom(c: char)
    ensures LowerChar(c) == c || LowerChar(c) as int == c as int + 32
  {
  }

  lemma SchemeEndsThere(scheme: string, rest: string)
    requires SpellsHttps(scheme)
    ensures SchemeEnd(scheme + rest) == 6 && (scheme + rest)[..6] == scheme
  {
    var name := scheme[..5];
    assert scheme + rest == name + [':'] + rest;
    FindStop(name, ':', rest, {':'});
  }

  /** What stands before the last `@`. */
  lemma {:induction false} HostPortOf(user: string, hostPort: string)
    requires NoneOf(hostPort, {'@'}) && (user != "" ==> user[|user| - 1] == '@')
    ensures HostPort(user + hostPort) == hostPort
    decreases |user|
  {
    var netloc := user + hostPort;
    if user == "" {
      assert netloc == hostPort;
      FindNone(hostPort, {'@'});
    } else {
      var i := Find(netloc, {'@'});
      assert netloc[|user| - 1] == '@';
      assert i < |user|;
      assert netloc[i + 1..] == user[i + 1..] + hostPort;
      HostPortOf(user[i + 1..], hostPort);
    }
  }

  lemma ParsesAs(text: string, scheme: string, netloc: string, tail: string)
    requires Unbroken(Trim(text)) == scheme + ("//" + (netloc + tail)) && SpellsHttps(scheme)
    requires NoneOf(netloc, {'/', '?', '#'}) && (tail != "" ==> tail[0] in {'/', '?', '#'})
    ensures Parse(text) == HttpsOf(netloc, tail)
  {
    var s := Unbroken(Trim(text));
    HttpsLowers(scheme);
    SchemeEndsThere(scheme, "//" + (netloc + tail));
    AuthorityOf(netloc, tail);
    hide Lower, Find, Trim, Unbroken, NoneOf, Before, Behind, BadBrackets, SchemeEnd, SpellsHttps, Authority;
    assert s[6..8] == "//" && s[8..] == netloc + tail;
  }

  /** An authority with its tail, as an HTTPS URL is cut. */
  lemma ParseOf(text: string, scheme: string, user: string, hostPort: string, tail: string)
    requires SplitsInto(Unbroken(Trim(text)), scheme, user, hostPort, tail) && SpellsHttps(scheme)
    ensures Parse(text).Read? <==> Acceptable(scheme, user, hostPort)
  {
    hide Trim, Unbroken, HostPort, HostName, NoneOf, BadBrackets, SpellsHttps, Parse, Authority;
    var netloc := user + hostPort;
    assert (scheme + "//") + (netloc + tail) == scheme + ("//" + (netloc + tail));
    ParsesAs(text, scheme, netloc, tail);
    HostPortOf(user, hostPort);
    AuthorityReads(user, hostPort, tail);
  }

  lemma AuthorityReads(user: string, hostPort: string, tail: string)
    requires HostPort(user + hostPort) == hostPort
    ensures Authority(user + hostPort, tail).Read? <==> HostName(hostPort) != "" && NamesNobody(user)
  {
    var netloc := user + hostPort;
    assert netloc[..|netloc| - |hostPort|] == user;
    hide Lower, Find, HostPort, HostName, Before, Behind;
  }

  /** What is read has been cut so. */
  lemma ReadIsSplit(text: string) returns (scheme: string, user: string, hostPort: string, tail: string)
    requires Parse(text).Read?
    ensures SplitsInto(Unbroken(Trim(text)), scheme, user, hostPort, tail) && SpellsHttps(scheme)
  {
    hide Lower, Find, Trim, Unbroken, HostPort, HostName, BadBrackets, SchemeEnd, SpellsHttps, NoneOf, Authority;
    var s := Unbroken(Trim(text));
    var k := SchemeEnd(s);
    var rest := s[k + 2..];
    scheme := s[..k];
    HttpsLowers(scheme);
    assert s == (scheme + "//") + rest;
    var netloc := Before(rest, {'/', '?', '#'});
    tail := rest[|netloc|..];
    user, hostPort := CutUser(netloc);
    CutTail(rest);
    assert rest == netloc + tail;
  }

  lemma CutUser(netloc: string) returns (user: string, hostPort: string)
    ensures netloc == user + hostPort && NoneOf(hostPort, {'@'}) && (user != "" ==> user[|user| - 1] == '@')
  {
    hostPort := HostPort(netloc);
    user := netloc[..|netloc| - |hostPort|];
    HostPortIsSuffix(netloc);
    UserEnds(netloc);
    hide NoneOf;
    assert netloc == user + hostPort;
  }

  lemma {:induction false} UserEnds(netloc: string)
    ensures |HostPort(netloc)| < |netloc| ==> netloc[|netloc| - |HostPort(netloc)| - 1] == '@'
    decreases |netloc|
  {
    var i := Find(netloc, {'@'});
    if i < |netloc| {
      var rest := netloc[i + 1..];
      UserEnds(rest);
      assert HostPort(netloc) == HostPort(rest);
      if |HostPort(rest)| < |rest| {
        assert rest[|rest| - |HostPort(rest)| - 1] == netloc[i + 1 + |rest| - |HostPort(rest)| - 1];
      }
    }
  }

  lemma CutTail(rest: string)
    ensures var netloc := Before(rest, {'/', '?', '#'});
            var tail := rest[|netloc|..];
            NoneOf(netloc, {'/', '?', '#'}) && (tail != "" ==> tail[0] in {'/', '?', '#'})
  {
  }

  /**
    A text has a canonical URL exactly when, trimmed and without line breaks, it is an HTTPS URL with
    a host, without credentials, and with brackets only around an address.
   */
  lemma ReadsExactly(text: string)
    requires Octets(text)
    ensures Canonical(text).Read? <==>
            exists scheme, user, hostPort, tail ::
              SplitsInto(Unbroken(Trim(text)), scheme, user, hostPort, tail) && Acceptable(scheme, user, hostPort)
  {
    hide Parse, SplitsInto, HostName, BadBrackets, SpellsHttps, Trim, Unbroken, Octets;
    if Parse(text).Read? {
      var scheme, user, hostPort, tail := ReadIsSplit(text);
      ParseOf(text, scheme, user, hostPort, tail);
    }
    if scheme, user, hostPort, tail :|
      SplitsInto(Unbroken(Trim(text)), scheme, user, hostPort, tail) && Acceptable(scheme, user, hostPort)
    {
      ParseOf(text, scheme, user, hostPort, tail);
    }
    ReadTogether(text);
  }

  lemma ReadTogether(text: string)
    requires Octets(text)
    ensures Canonical(text).Read? <==> Parse(text).Read?
  {
    ParamsAreOctets(text);
    hide Parse, Params;
  }

  /** In particular no URL of another scheme is read, however much else of it is in order. */
  lemma OtherSchemeIsNotRead(text: string, scheme: string, rest: string)
    requires Octets(text) && Unbroken(Trim(text)) == scheme + [':'] + rest
    requires NoneOf(scheme, {':'}) && !SpellsHttps(scheme + [':'])
    ensures !Canonical(text).Read?
  {
    hide *;
    ReadTogether(text);
    if Canonical(text).Read? {
      var scheme', user, hostPort, tail := ReadIsSplit(text);
      var rest' := SchemeFirst(Unbroken(Trim(text)), scheme', user, hostPort, tail);
      OneScheme(scheme, rest, scheme', rest');
    }
  }

  lemma SchemeFirst(s: string, scheme: string, user: string, hostPort: string, tail: string) returns (rest: string)
    requires SplitsInto(s, scheme, user, hostPort, tail)
    ensures s == scheme + rest
  {
    rest := "//" + ((user + hostPort) + tail);
  }

  /** A text has one scheme. */
  lemma OneScheme(scheme: string, rest: string, scheme': string, rest': string)
    requires NoneOf(scheme, {':'}) && SpellsHttps(scheme') && scheme + [':'] + rest == scheme' + rest'
    ensures scheme + [':'] == scheme'
  {
    var name := scheme'[..5];
    FindStop(scheme, ':', rest, {':'});
    FindStop(name, ':', rest', {':'});
    assert name + [':'] == scheme';
    assert name + [':'] + rest' == scheme' + rest';
  }

  /******* What the query keeps *******/

  /** A parameter that only follows readers around. */
  predicate FollowsReaders(key: string) {
    var k := Lower(key);
    (|k| >= 4 && k[0] == 'u' && k[1] == 't' && k[2] == 'm' && k[3] == '_')
    || k == "fbclid" || k == "gclid" || k == "ref" || k == "source"
  }

  predicate ComesFirst(p: Param, q: Param) {
    Keyset.TextBelow(p.key, q.key) || (p.key == q.key && (p.value == q.value || Keyset.TextBelow(p.value, q.value)))
  }

  /**
    The canonical query holds each parameter as often as it was given, but those that follow readers
    not at all, and in the order of their keys and then their values.
   */
  lemma QueryKeeps(query: string, p: Param)
    ensures multiset(Params(query))[p] == if FollowsReaders(p.key) then 0 else multiset(ParseQuery(query))[p]
  {
    FollowsIsTracking(p.key);
    KeptMembers(ParseQuery(query), p);
    SortedMembers(Kept(ParseQuery(query)));
    hide ParseQuery, Kept, Sorted, IsTracking, FollowsReaders;
  }

  lemma FollowsIsTracking(key: string)
    ensures FollowsReaders(key) <==> IsTracking(key)
  {
    var k := Lower(key);
    var utm := "utm_";
    if |k| >= 4 {
      assert utm <= k <==> k[..4] == utm;
      assert k[..4] == [k[0], k[1], k[2], k[3]];
    }
  }

  lemma QueryIsInOrder(query: string, i: nat, j: nat)
    requires i < j < |Params(query)|
    ensures ComesFirst(Params(query)[i], Params(query)[j])
  {
    SortedInOrder(Kept(ParseQuery(query)));
    hide ParseQuery, Kept, Sorted;
  }
}
