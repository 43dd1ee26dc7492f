/**
  Canonical source URLs: the key under which ingestion links a record to its scholarship. Text is
  taken as its UTF-8 octets. Splitting a URL can also raise, which the caller's handlers do not expect.
 */
module SourceUrl {
  import opened Prelude
  import Keyset

  predicate Octets(s: string) { forall i | 0 <= i < |s| :: s[i] as int < 256 }

  predicate IsSpace(c: char) { c == ' ' || '\t' <= c <= '\r' || 28 <= c as int <= 31 }

  /**
    The octets of one white space character. Beyond ASCII: U+0085, U+00A0, U+1680, U+2000 to U+200A,
    U+2028, U+2029, U+202F, U+205F and U+3000.
   */
  predicate IsWhite(s: string) {
    || (|s| == 1 && IsSpace(s[0]))
    || (|s| == 2 && s[0] as int == 0xC2 && (s[1] as int == 0x85 || s[1] as int == 0xA0))
    || (|s| == 3 && s[0] as int == 0xE1 && s[1] as int == 0x9A && s[2] as int == 0x80)
    || (|s| == 3 && s[0] as int == 0xE2 && s[1] as int == 0x80
        && (0x80 <= s[2] as int <= 0x8A || s[2] as int == 0xA8 || s[2] as int == 0xA9 || s[2] as int == 0xAF))
    || (|s| == 3 && s[0] as int == 0xE2 && s[1] as int == 0x81 && s[2] as int == 0x9F)
    || (|s| == 3 && s[0] as int == 0xE3 && s[1] as int == 0x80 && s[2] as int == 0x80)
  }

  predicate StartsWhite(s: string, n: nat) { n <= |s| && IsWhite(s[..n]) }

  predicate EndsWhite(s: string, n: nat) { n <= |s| && IsWhite(s[|s| - n..]) }

  /** How many octets the white space character at the start of the text has; zero when there is none. */
  function SpaceAhead(s: string): (n: nat)
    ensures n <= |s|
  {
    if StartsWhite(s, 1) then 1 else if StartsWhite(s, 2) then 2 else if StartsWhite(s, 3) then 3 else 0
  }

  function SpaceBehind(s: string): (n: nat)
    ensures n <= |s|
  {
    if EndsWhite(s, 1) then 1 else if EndsWhite(s, 2) then 2 else if EndsWhite(s, 3) then 3 else 0
  }

  function TrimLeft(s: string): string {
    if SpaceAhead(s) > 0 then TrimLeft(s[SpaceAhead(s)..]) else s
  }

  function TrimRight(s: string): string {
    if SpaceBehind(s) > 0 then TrimRight(s[..|s| - SpaceBehind(s)]) else s
  }

  function Trim(s: string): string { TrimRight(TrimLeft(s)) }

  predicate IsBreak(c: char) { c == '\t' || c == '\r' || c == '\n' }

  /** Splitting drops tabs and line breaks wherever they stand. */
  function Unbroken(s: string): string {
    if s == "" then "" else (if IsBreak(s[0]) then "" else [s[0]]) + Unbroken(s[1..])
  }

  function LowerChar(c: char): char { if 'A' <= c <= 'Z' then (c as int + 32) as char else c }

  function Lower(s: string): string { seq(|s|, i requires 0 <= i < |s| => LowerChar(s[i])) }

  /** Where the first of the stop characters is, or the length. */
  function Find(s: string, stops: set<char>): (n: nat)
    ensures n <= |s| && (forall i | 0 <= i < n :: s[i] !in stops) && (n < |s| ==> s[n] in stops)
  {
    if s == "" || s[0] in stops then 0 else 1 + Find(s[1..], stops)
  }

  function Before(s: string, stops: set<char>): string { s[..Find(s, stops)] }

  /** What follows the first stop character. */
  function Behind(s: string, stops: set<char>): string {
    if Find(s, stops) < |s| then s[Find(s, stops) + 1..] else ""
  }

  /** What follows the last `@`. */
  function HostPort(netloc: string): (r: string)
    ensures |r| <= |netloc|
    decreases |netloc|
  {
    if Find(netloc, {'@'}) < |netloc| then HostPort(Behind(netloc, {'@'})) else netloc
  }

  function StripSlashes(path: string): string {
    if path != "" && path[|path| - 1] == '/' then StripSlashes(path[..|path| - 1]) else path
  }

  /******* Percent encoding *******/

  predicate Unreserved(c: char) {
    'A' <= c <= 'Z' || 'a' <= c <= 'z' || '0' <= c <= '9' || c == '_' || c == '.' || c == '-' || c == '~'
  }

  function HexDigit(n: nat): char
    requires n < 16
  {
    if n < 10 then ('0' as int + n) as char else ('A' as int + n - 10) as char
  }

  function HexValue(c: char): Option<nat> {
    if '0' <= c <= '9' then Some(c as int - '0' as int)
    else if 'A' <= c <= 'F' then Some(c as int - 'A' as int + 10)
    else if 'a' <= c <= 'f' then Some(c as int - 'a' as int + 10)
    else None
  }

  function QuoteChar(c: char): (r: string)
    requires c as int < 256
    ensures r != ""
  {
    if Unreserved(c) then [c]
    else if c == ' ' then "+"
    else ['%', HexDigit(c as int / 16), HexDigit(c as int % 16)]
  }

  function Quote(s: string): string
    requires Octets(s)
  {
    if s == "" then "" else QuoteChar(s[0]) + Quote(s[1..])
  }

  function Unquote(s: string): string {
    if s == "" then ""
    else if s[0] == '+' then " " + Unquote(s[1..])
    else if s[0] == '%' && |s| >= 3 && HexValue(s[1]).Some? && HexValue(s[2]).Some?
            && HexValue(s[1]).value * 16 + HexValue(s[2]).value < 256
    then [(HexValue(s[1]).value * 16 + HexValue(s[2]).value) as char] + Unquote(s[3..])
    else [s[0]] + Unquote(s[1..])
  }

  /******* Query parameters *******/

  datatype Param = Param(key: string, value: string)

  function ParamOf(part: string): Param { Param(Unquote(Before(part, {'='})), Unquote(Behind(part, {'='}))) }

  /** Empty parts are skipped; a part without `=` has a blank value. */
  function ParseQuery(q: string): seq<Param>
    decreases |q|
  {
    if q == "" then []
    else
      var part := Before(q, {'&'});
      (if part == "" then [] else [ParamOf(part)])
      + if Find(q, {'&'}) < |q| then ParseQuery(Behind(q, {'&'})) else []
  }

  const TRACKING: set<string> := {"fbclid", "gclid", "ref", "source"}

  predicate IsTracking(key: string) { "utm_" <= Lower(key) || Lower(key) in TRACKING }

  function Kept(ps: seq<Param>): seq<Param> {
    if ps == [] then [] else (if IsTracking(ps[0].key) then [] else [ps[0]]) + Kept(ps[1..])
  }

  predicate ParamBelow(p: Param, q: Param) {
    Keyset.TextBelow(p.key, q.key) || (p.key == q.key && Keyset.TextBelow(p.value, q.value))
  }

  function Insert(p: Param, ps: seq<Param>): seq<Param> {
    if ps == [] || !ParamBelow(ps[0], p) then [p] + ps else [ps[0]] + Insert(p, ps[1..])
  }

  function Sorted(ps: seq<Param>): seq<Param> {
    if ps == [] then [] else Insert(ps[0], Sorted(ps[1..]))
  }

  predicate OctetParams(ps: seq<Param>) { forall i | 0 <= i < |ps| :: Octets(ps[i].key) && Octets(ps[i].value) }

  function EncodeParam(p: Param): string
    requires Octets(p.key) && Octets(p.value)
  {
    Quote(p.key) + "=" + Quote(p.value)
  }

  function EncodeQuery(ps: seq<Param>): string
    requires OctetParams(ps)
  {
    if ps == [] then ""
    else if |ps| == 1 then EncodeParam(ps[0])
    else EncodeParam(ps[0]) + "&" + EncodeQuery(ps[1..])
  }

  /******* Addresses in brackets, section 2.2 of RFC 4291 and section 3.2.2 of RFC 3986 *******/

  function Split(s: string, c: char): (r: seq<string>)
    ensures r != []
    decreases |s|
  {
    if Find(s, {c}) < |s| then [Before(s, {c})] + Split(Behind(s, {c}), c) else [s]
  }

  predicate IsDecimal(s: string) { forall i | 0 <= i < |s| :: '0' <= s[i] <= '9' }

  function DecimalValue(s: string): nat
    requires IsDecimal(s)
  {
    if s == "" then 0 else DecimalValue(s[..|s| - 1]) * 10 + (s[|s| - 1] as int - '0' as int)
  }

  predicate IsIpv4(s: string) {
    |Split(s, '.')| == 4 &&
    forall p | p in Split(s, '.') ::
      1 <= |p| <= 3 && IsDecimal(p) && DecimalValue(p) < 256 && (|p| > 1 ==> p[0] != '0')
  }

  predicate IsHextet(s: string) { 1 <= |s| <= 4 && forall i | 0 <= i < |s| :: HexValue(s[i]).Some? }

  predicate Hextets(parts: seq<string>) { forall i | 0 <= i < |parts| :: IsHextet(parts[i]) }

  /** The first empty part that is neither the first nor the last, or none. */
  function GapFrom(parts: seq<string>, i: nat): (r: Option<nat>)
    ensures r.Some? ==> i <= r.value < |parts|
    decreases |parts| - i
  {
    if i + 1 >= |parts| then None else if parts[i] == "" then Some(i) else GapFrom(parts, i + 1)
  }

  /** A side of the gap: its hextets, none if the colons touch the end. */
  function Side(parts: seq<string>): seq<string> { if parts == [""] then [] else parts }

  predicate IsIpv6(s: string) {
    var split := Split(s, ':');
    var last := split[|split| - 1];
    var parts := if '.' in last then split[..|split| - 1] + ["0", "0"] else split;
    && |split| >= 3
    && ('.' in last ==> IsIpv4(last))
    && (match GapFrom(parts, 1)
        case None => |parts| == 8 && Hextets(parts)
        case Some(g) =>
          var front, back := Side(parts[..g]), Side(parts[g + 1..]);
          Hextets(front) && Hextets(back) && |front| + |back| <= 7)
  }

  /** `v`, hexadecimal digits, a dot and something more. */
  predicate IsFuture(s: string) {
    var version := Before(s, {'.'});
    && |version| >= 2 && version[0] == 'v'
    && (forall i | 1 <= i < |version| :: HexValue(version[i]).Some?)
    && Behind(s, {'.'}) != ""
  }

  /** What may stand in brackets; a zone follows a percent sign. */
  predicate IsAddress(s: string) {
    if s != "" && s[0] == 'v' then IsFuture(s)
    else IsIpv6(Before(s, {'%'})) && ('%' in s ==> Behind(s, {'%'}) != "" && '%' !in Behind(s, {'%'}))
  }

  /** The host of an authority without its user part. */
  function HostName(hostPort: string): string {
    if '[' in hostPort then Before(Behind(hostPort, {'['}), {']'}) else Before(hostPort, {':'})
  }

  /** Brackets that do not pair, hold no address, or have something before or after them. */
  predicate BadBrackets(netloc: string) {
    var hostPort := HostPort(netloc);
    var port := Behind(Behind(hostPort, {'['}), {']'});
    if '[' !in netloc || ']' !in netloc then '[' in netloc || ']' in netloc
    else
      || !IsAddress(HostName(hostPort))
      || ('[' in hostPort && (hostPort[0] != '[' || (port != "" && port[0] != ':')))
  }

  /******* Canonical form *******/

  datatype Parts = Parts(host: string, path: string, query: string)

  /** `Invalid` is the error the code reports, `Raises` an exception of another kind. */
  datatype Reading<+T> = Read(value: T) | Invalid | Raises

  predicate IsSchemeChar(c: char) {
    'A' <= c <= 'Z' || 'a' <= c <= 'z' || '0' <= c <= '9' || c == '+' || c == '-' || c == '.'
  }

  predicate IsLetter(c: char) { 'A' <= c <= 'Z' || 'a' <= c <= 'z' }

  /** Where the scheme with its colon ends; zero when there is none. */
  function SchemeEnd(s: string): (n: nat)
    ensures n <= |s|
  {
    var i := Find(s, {':'});
    if 0 < i < |s| && IsLetter(s[0]) && (forall k | 0 <= k < i :: IsSchemeChar(s[k])) then i + 1 else 0
  }

  /** An authority and what follows it: an absolute URL without credentials. */
  function Authority(netloc: string, tail: string): Reading<Parts> {
    var hostPort := HostPort(netloc);
    var user := netloc[..|netloc| - |hostPort|];
    var body := Before(tail, {'#'});
    if HostName(hostPort) == "" || HasCredentials(user) then Invalid
    else Read(Parts(Lower(HostName(hostPort)), Before(body, {'?'}), Behind(body, {'?'})))
  }

  /** The brackets are checked before anything else is, whatever the scheme. */
  function Parse(text: string): Reading<Parts> {
    var s := Unbroken(Trim(text));
    var k := SchemeEnd(s);
    if |s| < k + 2 || s[k..k + 2] != "//" then Invalid
    else
      var rest := s[k + 2..];
      var netloc := Before(rest, {'/', '?', '#'});
      if BadBrackets(netloc) then Raises
      else if Lower(s[..k]) != "https:" then Invalid
      else Authority(netloc, rest[|netloc|..])
  }

  /** A user part with its closing `@`; an empty name with an empty password is let through. */
  predicate HasCredentials(user: string) {
    user != "" && user != "@" && user != ":@"
  }

  function PathOf(path: string): string { if StripSlashes(path) == "" then "/" else StripSlashes(path) }

  function Params(query: string): seq<Param> { Sorted(Kept(ParseQuery(query))) }

  function Written(host: string, path: string, ps: seq<Param>): string
    requires OctetParams(ps)
  {
    "https://" + host + path + if EncodeQuery(ps) == "" then "" else "?" + EncodeQuery(ps)
  }

  function Canonical(text: string): Reading<string>
    requires Octets(text)
  {
    match Parse(text)
    case Raises => Raises
    case Invalid => Invalid
    case Read(p) =>
      ParamsAreOctets(text);
      Read(Written(p.host, PathOf(p.path), Params(p.query)))
  }

  /******* Octets stay octets *******/

  lemma {:induction false} UnquotedOctets(s: string)
    requires Octets(s)
    ensures Octets(Unquote(s))
    decreases |s|
  {
    if s == "" {
    } else if s[0] == '%' && |s| >= 3 {
      UnquotedOctets(s[3..]);
      UnquotedOctets(s[1..]);
    } else {
      UnquotedOctets(s[1..]);
    }
  }

  lemma {:induction false} ParsedOctets(q: string)
    requires Octets(q)
    ensures OctetParams(ParseQuery(q))
    decreases |q|
  {
    if q != "" {
      var part := Before(q, {'&'});
      UnquotedOctets(Before(part, {'='}));
      UnquotedOctets(Behind(part, {'='}));
      if Find(q, {'&'}) < |q| { ParsedOctets(Behind(q, {'&'})); }
    }
  }

  lemma {:induction false} InsertMembers(p: Param, ps: seq<Param>)
    ensures multiset(Insert(p, ps)) == multiset(ps) + multiset{p}
  {
    if ps != [] && ParamBelow(ps[0], p) {
      InsertMembers(p, ps[1..]);
      assert ps == [ps[0]] + ps[1..];
    }
  }

  lemma {:induction false} SortedMembers(ps: seq<Param>)
    ensures multiset(Sorted(ps)) == multiset(ps)
  {
    if ps != [] {
      SortedMembers(ps[1..]);
      InsertMembers(ps[0], Sorted(ps[1..]));
      assert ps == [ps[0]] + ps[1..];
    }
  }

  lemma {:induction false} KeptAreOctets(ps: seq<Param>)
    requires OctetParams(ps)
    ensures OctetParams(Kept(ps))
  {
    if ps != [] { KeptAreOctets(ps[1..]); }
  }

  lemma SortedAreOctets(ps: seq<Param>)
    requires OctetParams(ps)
    ensures OctetParams(Sorted(ps))
  {
    SortedMembers(ps);
    forall i | 0 <= i < |Sorted(ps)| ensures Octets(Sorted(ps)[i].key) && Octets(Sorted(ps)[i].value) {
      assert Sorted(ps)[i] in multiset(ps);
    }
  }

  lemma {:induction false} TrimmedOctets(s: string)
    requires Octets(s)
    ensures Octets(TrimLeft(s)) && Octets(TrimRight(s))
  {
    hide SpaceAhead, SpaceBehind;
    if SpaceAhead(s) > 0 { TrimmedOctets(s[SpaceAhead(s)..]); }
    if SpaceBehind(s) > 0 { TrimmedOctets(s[..|s| - SpaceBehind(s)]); }
  }

  lemma {:induction false} UnbrokenOctets(s: string)
    requires Octets(s)
    ensures Octets(Unbroken(s))
  {
    if s != "" { UnbrokenOctets(s[1..]); }
  }

  lemma ParamsAreOctets(text: string)
    requires Octets(text)
    ensures Parse(text).Read? ==> OctetParams(Params(Parse(text).value.query))
  {
    hide TrimLeft, TrimRight;
    if Parse(text).Read? {
      TrimmedOctets(text);
      TrimmedOctets(TrimLeft(text));
      UnbrokenOctets(Trim(text));
      hide BadBrackets, Authority, Lower, Find, Params, Trim, Unbroken;
      var trimmed := Unbroken(Trim(text));
      var rest := trimmed[SchemeEnd(trimmed) + 2..];
      AuthorityOctets(Before(rest, {'/', '?', '#'}), rest[|Before(rest, {'/', '?', '#'})|..]);
      QueryOctets(Parse(text).value.query);
    }
  }

  lemma AuthorityOctets(netloc: string, tail: string)
    requires Octets(tail) && Authority(netloc, tail).Read?
    ensures Octets(Authority(netloc, tail).value.query)
  {
    hide Lower, Find, HostName, HostPort;
  }

  lemma QueryOctets(q: string)
    requires Octets(q)
    ensures OctetParams(Params(q))
  {
    ParsedOctets(q);
    KeptAreOctets(ParseQuery(q));
    SortedAreOctets(Kept(ParseQuery(q)));
  }
}
