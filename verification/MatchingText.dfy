/** The matching engine's text helpers; letters outside ASCII are taken as they are. */
module MatchingText {
  import opened Prelude

  function Fold(c: char): char {
    if 'A' <= c <= 'Z' then (c as int + 32) as char else c
  }

  /** White space, of ASCII and beyond. */
  predicate IsSpace(c: char) {
    var n := c as int;
    || n == 32 || 9 <= n <= 13 || 28 <= n <= 31 || n == 0x85 || n == 0xA0 || n == 0x1680
    || 0x2000 <= n <= 0x200A || n == 0x2028 || n == 0x2029 || n == 0x202F || n == 0x205F || n == 0x3000
  }

  /** The words of a folded text, the last of which has been read up to `word`. */
  function Words(s: string, word: string): seq<string> {
    var done := if word == "" then [] else [word];
    if s == "" then done
    else if IsSpace(s[0]) then done + Words(s[1..], "")
    else Words(s[1..], word + [Fold(s[0])])
  }

  function Join(words: seq<string>): string {
    if words == [] then "" else if |words| == 1 then words[0] else words[0] + " " + Join(words[1..])
  }

  /** Folded, with single spaces between words and none around them. */
  function NormalizedText(s: string): string { Join(Words(s, "")) }

  function NormalizedSet(items: seq<string>): set<string> {
    set i | 0 <= i < |items| :: NormalizedText(items[i])
  }

  predicate StandsAt(part: string, whole: string, i: nat) {
    i + |part| <= |whole| && whole[i..i + |part|] == part
  }

  predicate Within(part: string, whole: string) {
    exists i | 0 <= i <= |whole| :: StandsAt(part, whole, i)
  }

  predicate IsTokenChar(c: char) { 'a' <= c <= 'z' || '0' <= c <= '9' }

  /** Maximal runs of letters and digits, the last read up to `token`. */
  function TokensFrom(s: string, token: string): set<string> {
    var done := if token == "" then {} else {token};
    if s == "" then done
    else
      var c := Fold(s[0]);
      if IsTokenChar(c) then TokensFrom(s[1..], token + [c]) else done + TokensFrom(s[1..], "")
  }

  function Tokens(s: string): set<string> { TokensFrom(s, "") }

  function TokensOfAll(items: seq<string>): set<string> { Tokens(Join(items)) }

  function TokensIf(s: Option<string>): set<string> { if s.Some? then Tokens(s.value) else {} }

  /** Shared elements over all elements. */
  function Jaccard(a: set<string>, b: set<string>): (r: real)
    requires a + b != {}
    ensures 0.0 <= r <= 1.0
  {
    SubsetIsSmaller(a * b, a + b);
    assert |a + b| > 0;
    RatioInUnit(|a * b|, |a + b|);
    (|a * b| as real) / (|a + b| as real)
  }

  lemma RatioInUnit(n: nat, m: nat)
    requires n <= m && m > 0
    ensures 0.0 <= n as real / m as real <= 1.0
  {
  }

  lemma SubsetIsSmaller<T>(a: set<T>, b: set<T>)
    requires a <= b
    ensures |a| <= |b|
  {
    assert b == a + (b - a);
    assert |b| == |a| + |b - a|;
  }
}
