/** Unpadded base64url, section 5 of RFC 4648: what every pagination cursor is written in. */
module Base64Url {
  import opened Prelude

  newtype Byte = n: int | 0 <= n < 256

  type Digit = n: int | 0 <= n < 64

  function DigitChar(d: Digit): char {
    if d < 26 then ('A' as int + d) as char
    else if d < 52 then ('a' as int + d - 26) as char
    else if d < 62 then ('0' as int + d - 52) as char
    else if d == 62 then '-' else '_'
  }

  function CharDigit(c: char): Option<Digit> {
    if 'A' <= c <= 'Z' then Some(c as int - 'A' as int)
    else if 'a' <= c <= 'z' then Some(c as int - 'a' as int + 26)
    else if '0' <= c <= '9' then Some(c as int - '0' as int + 52)
    else if c == '-' then Some(62)
    else if c == '_' then Some(63)
    else None
  }

  predicate UrlSafe(c: char) { 'A' <= c <= 'Z' || 'a' <= c <= 'z' || '0' <= c <= '9' || c == '-' || c == '_' }

  /** Three bytes as four digits; missing bytes count as zero. */
  function Quad(a: Byte, b: Byte, c: Byte): (r: seq<char>)
    ensures |r| == 4 && forall i | 0 <= i < 4 :: UrlSafe(r[i])
  {
    [DigitChar(a as int / 4),
     DigitChar(a as int % 4 * 16 + b as int / 16),
     DigitChar(b as int % 16 * 4 + c as int / 64),
     DigitChar(c as int % 64)]
  }

  function EncodePadded(b: seq<Byte>): seq<char> {
    if |b| == 0 then []
    else if |b| == 1 then Quad(b[0], 0, 0)[..2] + "=="
    else if |b| == 2 then Quad(b[0], b[1], 0)[..3] + "="
    else Quad(b[0], b[1], b[2]) + EncodePadded(b[3..])
  }

  function StripPadding(t: seq<char>): seq<char> {
    if |t| > 0 && t[|t| - 1] == '=' then StripPadding(t[..|t| - 1]) else t
  }

  function Padding(n: nat): seq<char> { seq(n, i => '=') }

  /** Characters missing to a multiple of four. */
  function Missing(n: nat): nat { (4 - n % 4) % 4 }

  function Encode(b: seq<Byte>): seq<char> { StripPadding(EncodePadded(b)) }

  /** The three bytes of four digits. */
  function Unquad(d: Digit, e: Digit, f: Digit, g: Digit): (r: seq<Byte>)
    ensures |r| == 3
  {
    [(d * 4 + e / 16) as Byte, (e % 16 * 16 + f / 4) as Byte, (f % 4 * 64 + g) as Byte]
  }

  function DecodeQuad(t: seq<char>): Option<seq<Byte>>
    requires |t| == 4
  {
    match (CharDigit(t[0]), CharDigit(t[1]), CharDigit(t[2]), CharDigit(t[3]))
    case (Some(d), Some(e), Some(f), Some(g)) => Some(Unquad(d, e, f, g))
    case (Some(d), Some(e), Some(f), None) => if t[3] == '=' then Some(Unquad(d, e, f, 0)[..2]) else None
    case (Some(d), Some(e), None, None) => if t[2] == '=' == t[3] then Some(Unquad(d, e, 0, 0)[..1]) else None
    case _ => None
  }

  /** Padding may only end the text. */
  function DecodePadded(t: seq<char>): Option<seq<Byte>> {
    if |t| == 0 then Some([])
    else if |t| < 4 then None
    else
      match (DecodeQuad(t[..4]), DecodePadded(t[4..]))
      case (Some(b), Some(rest)) => if |b| == 3 || rest == [] then Some(b + rest) else None
      case _ => None
  }

  function Decode(t: seq<char>): Option<seq<Byte>> { DecodePadded(t + Padding(Missing(|t|))) }

  lemma DigitRoundTrip(d: Digit)
    ensures CharDigit(DigitChar(d)) == Some(d)
  {
  }

  function First(a: Byte): Digit { a as int / 4 }
  function Second(a: Byte, b: Byte): Digit { a as int % 4 * 16 + b as int / 16 }
  function Third(b: Byte, c: Byte): Digit { b as int % 16 * 4 + c as int / 64 }
  function Fourth(c: Byte): Digit { c as int % 64 }

  lemma FirstByte(a: Byte, b: Byte)
    ensures First(a) * 4 + Second(a, b) / 16 == a as int
  {
    Split(a as int % 4, b as int / 16, 16);
  }

  lemma SecondByte(a: Byte, b: Byte, c: Byte)
    ensures Second(a, b) % 16 * 16 + Third(b, c) / 4 == b as int
  {
    Split(a as int % 4, b as int / 16, 16);
    Split(b as int % 16, c as int / 64, 4);
  }

  lemma ThirdByte(b: Byte, c: Byte)
    ensures Third(b, c) % 4 * 64 + Fourth(c) == c as int
  {
    Split(b as int % 16, c as int / 64, 4);
  }

  lemma UnquadIs(d: Digit, e: Digit, f: Digit, g: Digit, a: Byte, b: Byte, c: Byte)
    requires d * 4 + e / 16 == a as int && e % 16 * 16 + f / 4 == b as int && f % 4 * 64 + g == c as int
    ensures Unquad(d, e, f, g) == [a, b, c]
  {
  }

  lemma UnquadRoundTrip(a: Byte, b: Byte, c: Byte)
    ensures Unquad(First(a), Second(a, b), Third(b, c), Fourth(c)) == [a, b, c]
  {
    FirstByte(a, b);
    SecondByte(a, b, c);
    ThirdByte(b, c);
    hide First, Second, Third, Fourth;
    UnquadIs(First(a), Second(a, b), Third(b, c), Fourth(c), a, b, c);
  }

  /** The high and low part of a two-part number. */
  lemma Split(high: nat, low: nat, base: nat)
    requires low < base && base in {4, 16, 64}
    ensures (high * base + low) / base == high && (high * base + low) % base == low
  {
  }

  lemma QuadIs(a: Byte, b: Byte, c: Byte)
    ensures Quad(a, b, c) ==
            [DigitChar(First(a)), DigitChar(Second(a, b)), DigitChar(Third(b, c)), DigitChar(Fourth(c))]
  {
    hide DigitChar;
  }

  lemma FullQuadRoundTrip(a: Byte, b: Byte, c: Byte)
    ensures DecodeQuad(Quad(a, b, c)) == Some([a, b, c])
  {
    UnquadRoundTrip(a, b, c);
    QuadIs(a, b, c);
    hide Quad, DigitChar, CharDigit, Unquad, First, Second, Third, Fourth;
    DigitRoundTrip(First(a));
    DigitRoundTrip(Second(a, b));
    DigitRoundTrip(Third(b, c));
    DigitRoundTrip(Fourth(c));
  }

  lemma ZeroDigits(z: Byte)
    requires z == 0
    ensures Third(z, z) == 0 && Fourth(z) == 0
  {
  }

  lemma PadIsNoDigit()
    ensures CharDigit('=') == None
  {
  }

  lemma PairRoundTrip(a: Byte, b: Byte)
    ensures DecodeQuad(Quad(a, b, 0)[..3] + "=") == Some([a, b])
  {
    hide Quad, DigitChar, CharDigit, Unquad, First, Second, Third, Fourth;
    ZeroDigits(0);
    PadIsNoDigit();
    UnquadRoundTrip(a, b, 0);
    QuadIs(a, b, 0);
    DigitRoundTrip(First(a));
    DigitRoundTrip(Second(a, b));
    DigitRoundTrip(Third(b, 0));
    assert [a, b, 0][..2] == [a, b];
  }

  lemma SingleRoundTrip(a: Byte)
    ensures DecodeQuad(Quad(a, 0, 0)[..2] + "==") == Some([a])
  {
    hide Quad, DigitChar, CharDigit, Unquad, First, Second, Third, Fourth;
    ZeroDigits(0);
    PadIsNoDigit();
    UnquadRoundTrip(a, 0, 0);
    QuadIs(a, 0, 0);
    DigitRoundTrip(First(a));
    DigitRoundTrip(Second(a, 0));
    assert [a, 0, 0][..1] == [a];
  }

  lemma LastQuad(t: seq<char>, b: seq<Byte>)
    requires |t| == 4 && DecodeQuad(t) == Some(b)
    ensures DecodePadded(t) == Some(b)
  {
    hide DecodeQuad;
    assert t[..4] == t && t[4..] == [] && b + [] == b;
    assert DecodePadded([]) == Some([]);
  }

  lemma {:induction false} PaddedRoundTrip(b: seq<Byte>)
    ensures DecodePadded(EncodePadded(b)) == Some(b)
  {
    hide Quad;
    hide DecodeQuad;
    hide DecodePadded;
    if |b| == 0 {
      assert DecodePadded([]) == Some([]) by { Nothing(); }
    } else if |b| == 1 {
      SingleRoundTrip(b[0]);
      LastQuad(Quad(b[0], 0, 0)[..2] + "==", [b[0]]);
      assert b == [b[0]];
    } else if |b| == 2 {
      PairRoundTrip(b[0], b[1]);
      LastQuad(Quad(b[0], b[1], 0)[..3] + "=", [b[0], b[1]]);
      assert b == [b[0], b[1]];
    } else {
      PaddedRoundTrip(b[3..]);
      FullQuadRoundTrip(b[0], b[1], b[2]);
      FirstQuad(Quad(b[0], b[1], b[2]), EncodePadded(b[3..]), [b[0], b[1], b[2]], b[3..]);
      assert [b[0], b[1], b[2]] + b[3..] == b;
    }
  }

  lemma Nothing()
    ensures DecodePadded([]) == Some([])
  {
  }

  lemma FirstQuad(t: seq<char>, rest: seq<char>, b: seq<Byte>, more: seq<Byte>)
    requires |t| == 4 && |b| == 3 && DecodeQuad(t) == Some(b) && DecodePadded(rest) == Some(more)
    ensures DecodePadded(t + rest) == Some(b + more)
  {
    hide DecodeQuad;
    assert (t + rest)[..4] == t && (t + rest)[4..] == rest;
  }

  lemma {:induction false} StripOne(t: seq<char>, n: nat)
    requires t == [] || t[|t| - 1] != '='
    ensures StripPadding(t + Padding(n)) == t
  {
    if n == 0 {
      assert t + Padding(0) == t;
    } else {
      StripOne(t, n - 1);
      assert (t + Padding(n))[..|t| + n - 1] == t + Padding(n - 1);
    }
  }

  /** Four-digit groups, then at most two padding characters. */
  lemma {:induction false} EncodedShape(b: seq<Byte>) returns (t: seq<char>)
    ensures forall i | 0 <= i < |t| :: UrlSafe(t[i])
    ensures EncodePadded(b) == t + Padding(Missing(|t|))
  {
    hide Quad;
    if |b| == 0 {
      t := [];
    } else if |b| == 1 {
      t := Quad(b[0], 0, 0)[..2];
      assert Padding(2) == "==";
    } else if |b| == 2 {
      t := Quad(b[0], b[1], 0)[..3];
      assert Padding(1) == "=";
    } else {
      var rest := EncodedShape(b[3..]);
      var q := Quad(b[0], b[1], b[2]);
      t := q + rest;
      assert Missing(|t|) == Missing(|rest|);
    }
  }

  /** Any bytes come back from their token, and the token holds URL-safe characters only. */
  lemma RoundTrip(b: seq<Byte>)
    ensures Decode(Encode(b)) == Some(b)
    ensures forall i | 0 <= i < |Encode(b)| :: UrlSafe(Encode(b)[i])
  {
    var t := EncodedShape(b);
    StripOne(t, Missing(|t|));
    PaddedRoundTrip(b);
  }
}
