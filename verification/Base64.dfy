/** Base64 decoding (src/backend_ast/builtin_network_api.c:432-524) against sections 4 and 5 of RFC 4648. */
module Base64 {
  import opened Bytes
  import opened Wrappers

  /** The decoder's answers: the bytes, or the codes -2 and -3. */
  datatype Decoding = Decoding(bytes: seq<byte>) | BadLength | BadDigit

  function DigitValue(c: byte): (v: int)
    ensures -1 <= v < 64
  {
    if UPPER_A <= c <= UPPER_Z then c - UPPER_A
    else if LOWER_A <= c <= LOWER_Z then c - LOWER_A + 26
    else if ZERO <= c <= NINE then c - ZERO + 52
    else if c == PLUS || c == MINUS then 62
    else if c == SLASH || c == UNDERSCORE then 63
    else -1
  }

  predicate IsWhitespace(c: byte) {
    c == CR || c == LF || c == TAB || c == SPACE
  }

  ghost function Stripped(s: seq<byte>): (r: seq<byte>)
    ensures |r| <= |s|
  {
    if s == [] then []
    else Stripped(s[..|s| - 1]) + if IsWhitespace(s[|s| - 1]) then [] else [s[|s| - 1]]
  }

  function First(v0: nat, v1: nat): byte
    requires v0 < 64 && v1 < 64
  {
    v0 * 4 + v1 / 16
  }

  function Second(v1: nat, v2: nat): byte
    requires v1 < 64 && v2 < 64
  {
    (v1 % 16) * 16 + v2 / 4
  }

  function Third(v2: nat, v3: nat): byte
    requires v2 < 64 && v3 < 64
  {
    (v2 % 4) * 64 + v3
  }

  ghost predicate DigitOrPad(c: byte) {
    c == EQUALS || DigitValue(c) >= 0
  }

  /** What one group of four yields, and whether it ends the text; None if it is malformed. */
  ghost function Group(c0: byte, c1: byte, c2: byte, c3: byte): Option<seq<byte>> {
    if DigitValue(c0) < 0 || DigitValue(c1) < 0 || !DigitOrPad(c2) || !DigitOrPad(c3) then None
    else if c2 == EQUALS then
      if c3 == EQUALS then Some([First(DigitValue(c0), DigitValue(c1))]) else None
    else if c3 == EQUALS then
      Some([First(DigitValue(c0), DigitValue(c1)), Second(DigitValue(c1), DigitValue(c2))])
    else
      Some([First(DigitValue(c0), DigitValue(c1)), Second(DigitValue(c1), DigitValue(c2)),
            Third(DigitValue(c2), DigitValue(c3))])
  }

  ghost function Prefixed(a: seq<byte>, d: Decoding): Decoding {
    match d
    case Decoding(b) => Decoding(a + b)
    case _ => d
  }

  /** Padding may only end the text. */
  ghost function Groups(s: seq<byte>): Decoding
    decreases |s|
  {
    if |s| < 4 then Decoding([])
    else
      match Group(s[0], s[1], s[2], s[3])
      case None => BadDigit
      case Some(b) =>
        if |b| < 3 then (if |s| == 4 then Decoding(b) else BadDigit)
        else Prefixed(b, Groups(s[4..]))
  }

  ghost function Decoded(s: seq<byte>): Decoding {
    if |Stripped(s)| % 4 != 0 then BadLength else Groups(Stripped(s))
  }

  // ---- an encoder

  /** The alphabets of sections 4 and 5. */
  ghost function Digit(v: nat, url: bool): byte
    requires v < 64
  {
    if v < 26 then UPPER_A + v
    else if v < 52 then LOWER_A + (v - 26)
    else if v < 62 then ZERO + (v - 52)
    else if v == 62 then (if url then MINUS else PLUS)
    else (if url then UNDERSCORE else SLASH)
  }

  ghost function One(a: byte, url: bool): (r: seq<byte>)
    ensures |r| == 4
  {
    [Digit(a / 4, url), Digit(a % 4 * 16, url), EQUALS, EQUALS]
  }

  ghost function Two(a: byte, b: byte, url: bool): (r: seq<byte>)
    ensures |r| == 4
  {
    [Digit(a / 4, url), Digit(a % 4 * 16 + b / 16, url), Digit(b % 16 * 4, url), EQUALS]
  }

  ghost function Three(a: byte, b: byte, c: byte, url: bool): (r: seq<byte>)
    ensures |r| == 4
  {
    [Digit(a / 4, url), Digit(a % 4 * 16 + b / 16, url), Digit(b % 16 * 4 + c / 64, url), Digit(c % 64, url)]
  }

  ghost function Encoded(bs: seq<byte>, url: bool): seq<byte> {
    if bs == [] then []
    else if |bs| == 1 then One(bs[0], url)
    else if |bs| == 2 then Two(bs[0], bs[1], url)
    else Three(bs[0], bs[1], bs[2], url) + Encoded(bs[3..], url)
  }

  const LETTERS: string := "ABCDEFGHIJKLMNOPQRSTUVWXYZ"
  const SMALL_LETTERS: string := "abcdefghijklmnopqrstuvwxyz"
  const DECIMALS: string := "0123456789"

  /** Table 1 or table 2 of the standard. */
  ghost function Alphabet(url: bool): string {
    LETTERS + SMALL_LETTERS + DECIMALS + if url then "-_" else "+/"
  }

  lemma LettersAre(v: nat)
    requires v < 26
    ensures |LETTERS| == 26 && LETTERS[v] == (65 + v) as char
  {
  }

  lemma SmallLettersAre(v: nat)
    requires v < 26
    ensures |SMALL_LETTERS| == 26 && SMALL_LETTERS[v] == (97 + v) as char
  {
  }

  lemma DecimalsAre(v: nat)
    requires v < 10
    ensures |DECIMALS| == 10 && DECIMALS[v] == (48 + v) as char
  {
  }

  lemma DigitIs(v: nat, url: bool)
    requires v < 64
    ensures |Alphabet(url)| == 64 && Digit(v, url) as char == Alphabet(url)[v]
  {
    LettersAre(if v < 26 then v else 0);
    SmallLettersAre(if 26 <= v < 52 then v - 26 else 0);
    DecimalsAre(if 52 <= v < 62 then v - 52 else 0);
    var last := if url then "-_" else "+/";
    assert last[0] == (if url then '-' else '+') && last[1] == if url then '_' else '/';
    hide LETTERS, SMALL_LETTERS, DECIMALS;
  }

  lemma SameNumber(a: byte, b: byte, c: byte)
    ensures ((a / 4 * 64 + (a % 4 * 16 + b / 16)) * 64 + (b % 16 * 4 + c / 64)) * 64 + c % 64 == (a * 256 + b) * 256 + c
  {
    assert a == a / 4 * 4 + a % 4 && b == b / 16 * 16 + b % 16 && c == c / 64 * 64 + c % 64;
  }

  lemma EqualsSigns()
    ensures Ascii("=") == [EQUALS] && Ascii("==") == [EQUALS, EQUALS]
  {
  }

  /** The digits of three bytes are those of one number, the bytes its digits in base 256; of fewer bytes the number is
      continued with zero bits to the end of a digit, and equals signs fill the group. */
  lemma NumberOfGroup(a: byte, b: byte, c: byte, url: bool) returns (d0: nat, d1: nat, d2: nat, d3: nat)
    ensures d0 < 64 && d1 < 64 && d2 < 64 && d3 < 64
    ensures ((d0 * 64 + d1) * 64 + d2) * 64 + d3 == (a * 256 + b) * 256 + c
    ensures Three(a, b, c, url) == [Digit(d0, url), Digit(d1, url), Digit(d2, url), Digit(d3, url)]
    ensures c == 0 ==> Two(a, b, url) == [Digit(d0, url), Digit(d1, url), Digit(d2, url)] + Ascii("=")
    ensures b == 0 && c == 0 ==> One(a, url) == [Digit(d0, url), Digit(d1, url)] + Ascii("==")
  {
    hide Digit;
    d0, d1, d2, d3 := a / 4, a % 4 * 16 + b / 16, b % 16 * 4 + c / 64, c % 64;
    SameNumber(a, b, c);
    EqualsSigns();
  }

  lemma {:induction false} StrippedConcat(a: seq<byte>, b: seq<byte>)
    ensures Stripped(a + b) == Stripped(a) + Stripped(b)
    decreases |b|
  {
    if b == [] {
      assert a + b == a;
    } else {
      var front, last := b[..|b| - 1], b[|b| - 1];
      assert (a + b)[..|a + b| - 1] == a + front && b == front + [last];
      StrippedConcat(a, front);
      hide IsWhitespace;
      assert Stripped(a) + (Stripped(front) + [last]) == (Stripped(a) + Stripped(front)) + [last];
      assert Stripped(front) + [] == Stripped(front);
    }
  }

  /** A blank, tab or line break anywhere makes no difference. */
  lemma BlankIsStripped(a: seq<byte>, c: byte, b: seq<byte>)
    requires c as char in " \t\r\n"
    ensures Stripped(a + [c] + b) == Stripped(a + b) && Decoded(a + [c] + b) == Decoded(a + b)
  {
    WhitespaceIs(c);
    StrippedConcat(a + [c], b);
    StrippedConcat(a, [c]);
    StrippedConcat(a, b);
    assert Stripped([c]) == [] by { assert [c][..0] == [] && Stripped([]) == []; }
    hide Stripped, Groups;
    assert Stripped(a) + [] == Stripped(a);
  }

  lemma WhitespaceIs(c: byte)
    ensures IsWhitespace(c) <==> c as char in " \t\r\n"
  {
  }

  lemma DigitRoundTrip(v: nat, url: bool)
    requires v < 64
    ensures DigitValue(Digit(v, url)) == v && Digit(v, url) != EQUALS && !IsWhitespace(Digit(v, url))
  {
  }

  lemma GroupOfThree(a: byte, b: byte, c: byte, url: bool)
    ensures Group(Digit(a / 4, url), Digit(a % 4 * 16 + b / 16, url), Digit(b % 16 * 4 + c / 64, url),
                  Digit(c % 64, url)) == Some([a, b, c])
  {
    DigitRoundTrip(a / 4, url);
    DigitRoundTrip(a % 4 * 16 + b / 16, url);
    DigitRoundTrip(b % 16 * 4 + c / 64, url);
    DigitRoundTrip(c % 64, url);
    hide Digit, DigitValue;
    Split(a, b);
    assert (b % 16 * 4 + c / 64) / 4 == b % 16 && (b % 16 * 4 + c / 64) % 4 == c / 64;
    assert b / 16 * 16 + b % 16 == b;
  }

  lemma Split(a: byte, b: byte)
    ensures (a % 4 * 16 + b / 16) / 16 == a % 4 && (a % 4 * 16 + b / 16) % 16 == b / 16 && a / 4 * 4 + a % 4 == a
  {
  }

  lemma GroupOfTwo(a: byte, b: byte, url: bool)
    ensures Group(Digit(a / 4, url), Digit(a % 4 * 16 + b / 16, url), Digit(b % 16 * 4, url), EQUALS) == Some([a, b])
  {
    DigitRoundTrip(a / 4, url);
    DigitRoundTrip(a % 4 * 16 + b / 16, url);
    DigitRoundTrip(b % 16 * 4, url);
    hide Digit, DigitValue;
    Split(a, b);
    assert b % 16 * 4 / 4 == b % 16 && b / 16 * 16 + b % 16 == b;
  }

  lemma GroupOfOne(a: byte, url: bool)
    ensures Group(Digit(a / 4, url), Digit(a % 4 * 16, url), EQUALS, EQUALS) == Some([a])
  {
    DigitRoundTrip(a / 4, url);
    DigitRoundTrip(a % 4 * 16, url);
    hide Digit, DigitValue;
    Split(a, 0);
  }

  lemma OneDecodes(a: byte, url: bool)
    ensures Groups(One(a, url)) == Decoding([a])
  {
    GroupOfOne(a, url);
    hide Group, Digit;
  }

  lemma TwoDecode(a: byte, b: byte, url: bool)
    ensures Groups(Two(a, b, url)) == Decoding([a, b])
  {
    GroupOfTwo(a, b, url);
    hide Group, Digit;
  }

  lemma ThreeDecode(a: byte, b: byte, c: byte, url: bool, rest: seq<byte>)
    ensures Groups(Three(a, b, c, url) + rest) == Prefixed([a, b, c], Groups(rest))
  {
    GroupOfThree(a, b, c, url);
    hide Group, Digit;
    assert (Three(a, b, c, url) + rest)[4..] == rest;
  }

  lemma {:induction false} GroupsRoundTrip(bs: seq<byte>, url: bool)
    ensures Groups(Encoded(bs, url)) == Decoding(bs)
  {
    hide Group, Groups, One, Two, Three;
    if bs == [] {
      assert Groups([]) == Decoding([]) by { GroupsEnd([], []); }
    } else if |bs| == 1 {
      OneDecodes(bs[0], url);
      assert bs == [bs[0]];
    } else if |bs| == 2 {
      TwoDecode(bs[0], bs[1], url);
      assert bs == [bs[0], bs[1]];
    } else {
      GroupsRoundTrip(bs[3..], url);
      ThreeDecode(bs[0], bs[1], bs[2], url, Encoded(bs[3..], url));
      assert [bs[0], bs[1], bs[2]] + bs[3..] == bs;
    }
  }

  lemma {:induction false} EncodedLength(bs: seq<byte>, url: bool)
    ensures |Encoded(bs, url)| % 4 == 0
  {
    hide Group, One, Two, Three;
    if |bs| >= 3 {
      EncodedLength(bs[3..], url);
    }
  }

  /** With whitespace sprinkled anywhere into the encoding in either alphabet, the bytes come back. */
  lemma Base64RoundTrip(bs: seq<byte>, url: bool, text: seq<byte>)
    requires Stripped(text) == Encoded(bs, url)
    ensures Decoded(text) == Decoding(bs)
  {
    GroupsRoundTrip(bs, url);
    EncodedLength(bs, url);
  }

  lemma {:induction false} NothingToStrip(s: seq<byte>)
    requires forall c :: c in s ==> !IsWhitespace(c)
    ensures Stripped(s) == s
  {
    if s != [] {
      NothingToStrip(s[..|s| - 1]);
      assert s == s[..|s| - 1] + [s[|s| - 1]] && s[|s| - 1] in s;
    }
  }

  lemma {:induction false} EncodingHasNoWhitespace(bs: seq<byte>, url: bool)
    ensures forall c :: c in Encoded(bs, url) ==> !IsWhitespace(c)
  {
    if |bs| >= 3 {
      EncodingHasNoWhitespace(bs[3..], url);
      DigitRoundTrip(bs[0] / 4, url);
      DigitRoundTrip(bs[0] % 4 * 16 + bs[1] / 16, url);
      DigitRoundTrip(bs[1] % 16 * 4 + bs[2] / 64, url);
      DigitRoundTrip(bs[2] % 64, url);
    } else if |bs| == 2 {
      DigitRoundTrip(bs[0] / 4, url);
      DigitRoundTrip(bs[0] % 4 * 16 + bs[1] / 16, url);
      DigitRoundTrip(bs[1] % 16 * 4, url);
    } else if |bs| == 1 {
      DigitRoundTrip(bs[0] / 4, url);
      DigitRoundTrip(bs[0] % 4 * 16, url);
    }
    hide Digit, IsWhitespace;
  }

  lemma {:induction false} StrippedOrWhitespace(s: seq<byte>, c: byte)
    requires c in s
    ensures IsWhitespace(c) || c in Stripped(s)
  {
    if c in s[..|s| - 1] {
      StrippedOrWhitespace(s[..|s| - 1], c);
    }
  }

  lemma {:induction false} EncodingHasNoZero(bs: seq<byte>, url: bool)
    ensures 0 !in Encoded(bs, url)
  {
    assert forall v: nat :: v < 64 ==> Digit(v, url) != 0;
    if |bs| >= 3 { EncodingHasNoZero(bs[3..], url); }
    hide Digit;
  }

  /** Neither an encoding nor whitespace holds the byte that ends a C string. */
  lemma EncodedTextHasNoZero(bs: seq<byte>, url: bool, text: seq<byte>)
    requires Stripped(text) == Encoded(bs, url)
    ensures 0 !in text
  {
    EncodingHasNoZero(bs, url);
    if 0 in text { StrippedOrWhitespace(text, 0); }
  }

  lemma EncodingDecodes(bs: seq<byte>, url: bool)
    ensures Decoded(Encoded(bs, url)) == Decoding(bs)
  {
    EncodingHasNoWhitespace(bs, url);
    NothingToStrip(Encoded(bs, url));
    Base64RoundTrip(bs, url, Encoded(bs, url));
  }

  // ---- the texts that are accepted

  /** A digit of either alphabet with the value of `e` down to multiples of `unit`, or padding where `e` is padding. */
  ghost predicate Agrees(c: byte, e: byte, unit: nat)
    requires unit > 0
  {
    if e == EQUALS then c == EQUALS else DigitValue(c) >= 0 && DigitValue(c) / unit == DigitValue(e) / unit
  }

  /** The last digit in front of padding carries bits that no byte takes: four in front of two pads, two in front of
      one. */
  ghost function Unit(e: seq<byte>, k: nat): (unit: nat)
    ensures unit > 0
  {
    if k + 1 < |e| && e[k + 1] == EQUALS then (if k + 2 < |e| && e[k + 2] == EQUALS then 16 else 4) else 1
  }

  ghost predicate Matches(s: seq<byte>, e: seq<byte>) {
    |s| == |e| && forall k :: 0 <= k < |e| ==> Agrees(s[k], e[k], Unit(e, k))
  }

  /** `s` is the encoding of `bs`, each digit from either alphabet, whatever the bits behind the last byte. */
  ghost predicate Represents(s: seq<byte>, bs: seq<byte>) {
    Matches(s, Encoded(bs, false))
  }

  ghost predicate NoPad(e: seq<byte>) {
    forall c :: c in e ==> c != EQUALS
  }

  lemma UnitInFront(a: seq<byte>, b: seq<byte>, k: nat)
    requires NoPad(a) && (b != [] ==> b[0] != EQUALS) && k < |a|
    ensures Unit(a + b, k) == 1 && Unit(a, k) == 1
  {
    if k + 1 < |a| { assert a[k + 1] in a; }
  }

  lemma UnitBehind(a: seq<byte>, b: seq<byte>, k: nat)
    requires k < |b|
    ensures Unit(a + b, |a| + k) == Unit(b, k)
  {
  }

  lemma MatchesAppend(s: seq<byte>, a: seq<byte>, b: seq<byte>)
    requires NoPad(a) && (b != [] ==> b[0] != EQUALS)
    ensures Matches(s, a + b) <==> |s| == |a| + |b| && Matches(s[..|a|], a) && Matches(s[|a|..], b)
  {
    var e, n := a + b, |a|;
    hide Agrees, Unit, NoPad;
    forall k | 0 <= k < n
      ensures Unit(e, k) == Unit(a, k)
    {
      UnitInFront(a, b, k);
    }
    forall k | 0 <= k < |b|
      ensures Unit(e, n + k) == Unit(b, k)
    {
      UnitBehind(a, b, k);
    }
    if |s| == n + |b| && Matches(s[..n], a) && Matches(s[n..], b) {
      MatchesJoined(s, a, b);
    }
    if Matches(s, e) {
      forall k | 0 <= k < |b|
        ensures Agrees(s[n..][k], b[k], Unit(b, k))
      {
        assert Agrees(s[n + k], e[n + k], Unit(e, n + k));
      }
      forall k | 0 <= k < n
        ensures Agrees(s[..n][k], a[k], Unit(a, k))
      {
        assert Agrees(s[k], e[k], Unit(e, k));
      }
    }
  }

  lemma MatchesJoined(s: seq<byte>, a: seq<byte>, b: seq<byte>)
    requires |s| == |a| + |b| && Matches(s[..|a|], a) && Matches(s[|a|..], b)
    requires forall k :: 0 <= k < |a| ==> Unit(a + b, k) == Unit(a, k)
    requires forall k :: 0 <= k < |b| ==> Unit(a + b, |a| + k) == Unit(b, k)
    ensures Matches(s, a + b)
  {
    var e, n := a + b, |a|;
    hide Agrees, Unit;
    forall k | 0 <= k < |e|
      ensures Agrees(s[k], e[k], Unit(e, k))
    {
      if k < n {
        assert Agrees(s[..n][k], a[k], Unit(a, k));
      } else {
        var j := k - n;
        assert Agrees(s[n..][j], b[j], Unit(b, j)) && Unit(e, n + j) == Unit(b, j);
      }
    }
  }

  lemma MatchesFour(s: seq<byte>, e: seq<byte>)
    requires |s| == |e| == 4
    ensures Matches(s, e) <==>
      Agrees(s[0], e[0], Unit(e, 0)) && Agrees(s[1], e[1], Unit(e, 1)) &&
      Agrees(s[2], e[2], Unit(e, 2)) && Agrees(s[3], e[3], Unit(e, 3))
  {
    hide Agrees, Unit;
  }

  lemma PutTogether(x: nat, y: nat, a: byte)
    requires x < 64 && y < 64
    ensures First(x, y) == a <==> x == a / 4 && y / 16 == a % 4
    ensures Second(x, y) == a <==> x % 16 == a / 16 && y / 4 == a % 16
    ensures Third(x, y) == a <==> x % 4 == a / 64 && y == a % 64
  {
  }

  lemma Digits(v: nat, hi: nat, lo: nat, unit: nat)
    requires unit == 4 || unit == 16
    requires lo < unit
    ensures v == hi * unit + lo <==> v / unit == hi && v % unit == lo
    ensures (hi * unit + lo) / unit == hi
  {
  }

  lemma ThreeBytes(v0: nat, v1: nat, v2: nat, v3: nat, a: byte, b: byte, c: byte)
    requires v0 < 64 && v1 < 64 && v2 < 64 && v3 < 64
    ensures First(v0, v1) == a && Second(v1, v2) == b && Third(v2, v3) == c <==>
      v0 == a / 4 && v1 == a % 4 * 16 + b / 16 && v2 == b % 16 * 4 + c / 64 && v3 == c % 64
  {
    PutTogether(v0, v1, a);
    PutTogether(v1, v2, b);
    PutTogether(v2, v3, c);
    hide First, Second, Third;
    Digits(v1, a % 4, b / 16, 16);
    Digits(v2, b % 16, c / 64, 4);
  }

  lemma ThreeMatches(s: seq<byte>, a: byte, b: byte, c: byte)
    requires |s| == 4
    ensures Matches(s, Three(a, b, c, false)) <==> Group(s[0], s[1], s[2], s[3]) == Some([a, b, c])
    ensures NoPad(Three(a, b, c, false))
  {
    var e := Three(a, b, c, false);
    var e1, e2 := a % 4 * 16 + b / 16, b % 16 * 4 + c / 64;
    DigitRoundTrip(a / 4, false);
    DigitRoundTrip(e1, false);
    DigitRoundTrip(e2, false);
    DigitRoundTrip(c % 64, false);
    hide Digit, DigitValue, First, Second, Third;
    assert e == [Digit(a / 4, false), Digit(e1, false), Digit(e2, false), Digit(c % 64, false)];
    hide Three;
    assert Unit(e, 0) == Unit(e, 1) == Unit(e, 2) == Unit(e, 3) == 1;
    hide Unit;
    MatchesFour(s, e);
    hide Matches;
    var v0, v1, v2, v3 := DigitValue(s[0]), DigitValue(s[1]), DigitValue(s[2]), DigitValue(s[3]);
    assert DigitValue(EQUALS) == -1 by { PadIsNoDigit(); }
    if v0 >= 0 && v1 >= 0 && v2 >= 0 && v3 >= 0 { ThreeBytes(v0, v1, v2, v3, a, b, c); }
  }

  lemma PadIsNoDigit()
    ensures DigitValue(EQUALS) == -1
  {
  }

  lemma TwoMatches(s: seq<byte>, a: byte, b: byte)
    requires |s| == 4
    ensures Matches(s, Two(a, b, false)) <==> Group(s[0], s[1], s[2], s[3]) == Some([a, b])
  {
    var e := Two(a, b, false);
    DigitRoundTrip(a / 4, false);
    DigitRoundTrip(a % 4 * 16 + b / 16, false);
    DigitRoundTrip(b % 16 * 4, false);
    MatchesFour(s, e);
    assert Unit(e, 0) == Unit(e, 1) == 1 && Unit(e, 2) == 4;
    assert DigitValue(EQUALS) == -1;
    hide Digit, DigitValue, Matches, First, Second, Third;
    var v0, v1, v2 := DigitValue(s[0]), DigitValue(s[1]), DigitValue(s[2]);
    if v0 >= 0 && v1 >= 0 && v2 >= 0 {
      PutTogether(v0, v1, a);
      PutTogether(v1, v2, b);
      Digits(v1, a % 4, b / 16, 16);
      Digits(v2, b % 16, 0, 4);
    }
  }

  lemma OneMatches(s: seq<byte>, a: byte)
    requires |s| == 4
    ensures Matches(s, One(a, false)) <==> Group(s[0], s[1], s[2], s[3]) == Some([a])
  {
    var e := One(a, false);
    DigitRoundTrip(a / 4, false);
    DigitRoundTrip(a % 4 * 16, false);
    MatchesFour(s, e);
    assert Unit(e, 0) == 1 && Unit(e, 1) == 16;
    assert DigitValue(EQUALS) == -1;
    hide Digit, DigitValue, Matches, First, Second, Third;
    var v0, v1 := DigitValue(s[0]), DigitValue(s[1]);
    if v0 >= 0 && v1 >= 0 {
      PutTogether(v0, v1, a);
      Digits(v1, a % 4, 0, 16);
    }
  }

  lemma EncodedStarts(bs: seq<byte>)
    requires bs != []
    ensures |Encoded(bs, false)| >= 4 && Encoded(bs, false)[0] != EQUALS
  {
    DigitRoundTrip(bs[0] / 4, false);
  }

  lemma RepresentsThree(s: seq<byte>, bs: seq<byte>)
    requires |bs| >= 3
    ensures Represents(s, bs) <==>
      |s| >= 4 && Group(s[0], s[1], s[2], s[3]) == Some(bs[..3]) && Represents(s[4..], bs[3..])
  {
    var a, b := Three(bs[0], bs[1], bs[2], false), Encoded(bs[3..], false);
    assert Encoded(bs, false) == a + b && bs[..3] == [bs[0], bs[1], bs[2]];
    hide Group, Digit, Encoded, Three;
    if bs[3..] == [] { assert b == [] by { NoBytes(); } } else { EncodedStarts(bs[3..]); }
    if |s| >= 4 {
      ThreeMatches(s[..4], bs[0], bs[1], bs[2]);
      MatchesAppend(s, a, b);
    }
    hide Unit, Agrees;
  }

  lemma NoBytes()
    ensures Encoded([], false) == []
  {
  }

  lemma RepresentsFew(s: seq<byte>, bs: seq<byte>)
    requires |bs| < 3
    ensures Represents(s, bs) <==>
      if bs == [] then s == [] else |s| == 4 && Group(s[0], s[1], s[2], s[3]) == Some(bs)
  {
    hide Group, Matches, One, Two, Three;
    if |bs| == 1 {
      assert bs == [bs[0]];
      if |s| == 4 { OneMatches(s, bs[0]); } else { MatchesLength(s, One(bs[0], false)); }
    } else if |bs| == 2 {
      assert bs == [bs[0], bs[1]];
      if |s| == 4 { TwoMatches(s, bs[0], bs[1]); } else { MatchesLength(s, Two(bs[0], bs[1], false)); }
    } else {
      MatchesNone(s);
    }
  }

  lemma MatchesLength(s: seq<byte>, e: seq<byte>)
    ensures Matches(s, e) ==> |s| == |e|
  {
  }

  lemma MatchesNone(s: seq<byte>)
    ensures Matches(s, []) <==> s == []
  {
  }

  lemma GroupSize(c0: byte, c1: byte, c2: byte, c3: byte)
    ensures var g := Group(c0, c1, c2, c3); g.Some? ==> 1 <= |g.value| <= 3
  {
  }

  lemma {:induction false} GroupsIff(s: seq<byte>, bs: seq<byte>)
    requires |s| % 4 == 0
    ensures Groups(s) == Decoding(bs) <==> Represents(s, bs)
    decreases |s|
  {
    hide Group, Represents;
    if |bs| < 3 { RepresentsFew(s, bs); } else { RepresentsThree(s, bs); }
    if |s| >= 4 {
      var g := Group(s[0], s[1], s[2], s[3]);
      GroupSize(s[0], s[1], s[2], s[3]);
      if g.Some? && |g.value| == 3 {
        var rest := Groups(s[4..]);
        if |bs| >= 3 {
          GroupsIff(s[4..], bs[3..]);
          assert bs == bs[..3] + bs[3..];
          if rest.Decoding? {
            assert (g.value + rest.bytes)[..3] == g.value && (g.value + rest.bytes)[3..] == rest.bytes;
          }
        }
      }
    }
  }

  /** The decoder accepts, for `bs`, exactly its encodings: whitespace anywhere, each digit from either alphabet, any
      bits behind the last byte. */
  lemma DecodesIffRepresents(text: seq<byte>, bs: seq<byte>)
    ensures Decoded(text) == Decoding(bs) <==> Represents(Stripped(text), bs)
  {
    if |Stripped(text)| % 4 == 0 {
      GroupsIff(Stripped(text), bs);
    } else {
      EncodedLength(bs, false);
      MatchesLength(Stripped(text), Encoded(bs, false));
    }
    hide Groups, Matches;
  }

  lemma OneGroupDecodes(text: seq<byte>, bs: seq<byte>)
    requires |text| == 4 && Group(text[0], text[1], text[2], text[3]) == Some(bs) && |bs| < 3
    requires forall k :: 0 <= k < 4 ==> !IsWhitespace(text[k])
    ensures Decoded(text) == Decoding(bs)
  {
    hide Group, IsWhitespace;
    NothingToStrip(text);
    hide Stripped;
  }

  lemma PadIsNoSpace()
    ensures DigitValue(EQUALS) == -1 && !IsWhitespace(EQUALS)
  {
  }

  /** Whatever the four bits behind a single last byte are, it comes back. */
  lemma FourBitsAreIgnored(a: byte, bits: nat, url: bool)
    requires bits < 16
    ensures Decoded([Digit(a / 4, url), Digit(a % 4 * 16 + bits, url), EQUALS, EQUALS]) == Decoding([a])
  {
    hide Digit, DigitValue, First, IsWhitespace, Decoded;
    var text := [Digit(a / 4, url), Digit(a % 4 * 16 + bits, url), EQUALS, EQUALS];
    DigitRoundTrip(a / 4, url);
    DigitRoundTrip(a % 4 * 16 + bits, url);
    PadIsNoSpace();
    Digits(a % 4 * 16 + bits, a % 4, bits, 16);
    PutTogether(a / 4, a % 4 * 16 + bits, a);
    assert Group(text[0], text[1], text[2], text[3]) == Some([a]);
    hide Group;
    OneGroupDecodes(text, [a]);
  }

  /** Whatever the two bits behind the second of two last bytes are, both come back. */
  lemma TwoBitsAreIgnored(a: byte, b: byte, bits: nat, url: bool)
    requires bits < 4
    ensures Decoded([Digit(a / 4, url), Digit(a % 4 * 16 + b / 16, url), Digit(b % 16 * 4 + bits, url), EQUALS])
      == Decoding([a, b])
  {
    hide Digit, DigitValue, First, Second, IsWhitespace, Decoded;
    var e1, e2 := a % 4 * 16 + b / 16, b % 16 * 4 + bits;
    var text := [Digit(a / 4, url), Digit(e1, url), Digit(e2, url), EQUALS];
    DigitRoundTrip(a / 4, url);
    DigitRoundTrip(e1, url);
    DigitRoundTrip(e2, url);
    PadIsNoSpace();
    Digits(e1, a % 4, b / 16, 16);
    Digits(e2, b % 16, bits, 4);
    PutTogether(a / 4, e1, a);
    PutTogether(e1, e2, b);
    assert Group(text[0], text[1], text[2], text[3]) == Some([a, b]);
    hide Group;
    OneGroupDecodes(text, [a, b]);
  }

  // ---- the loops

  method Strip(input: seq<byte>) returns (clean: array<byte>, cleanLen: nat)
    ensures fresh(clean) && cleanLen <= |input| < clean.Length && clean[..cleanLen] == Stripped(input)
  {
    clean := new byte[|input| + 1];
    cleanLen := 0;
    assert input[..0] == [];
    for i := 0 to |input|
      invariant cleanLen <= i && clean[..cleanLen] == Stripped(input[..i])
    {
      var c := input[i];
      assert input[..i + 1][..i] == input[..i];
      if c == CR || c == LF || c == TAB || c == SPACE {
        continue;
      }
      clean[cleanLen] := c;
      cleanLen := cleanLen + 1;
      assert clean[..cleanLen] == Stripped(input[..i]) + [c];
    }
    assert input[..|input|] == input;
    clean[cleanLen] := 0;
  }

  lemma PrefixedTwice(a: seq<byte>, b: seq<byte>, d: Decoding)
    ensures Prefixed(a, Prefixed(b, d)) == Prefixed(a + b, d) && Prefixed([], d) == d
  {
    if d.Decoding? {
      assert a + (b + d.bytes) == (a + b) + d.bytes && [] + d.bytes == d.bytes;
    }
  }

  /** What one round of the loop does to the answer. */
  lemma GroupsStep(s: seq<byte>, i: nat, done: seq<byte>)
    requires i + 4 <= |s|
    ensures var g := Group(s[i], s[i + 1], s[i + 2], s[i + 3]); var d := Prefixed(done, Groups(s[i..]));
      && (g == None ==> d == BadDigit)
      && (g.Some? && |g.value| < 3 ==> d == if i + 4 == |s| then Decoding(done + g.value) else BadDigit)
      && (g.Some? && |g.value| >= 3 ==> d == Prefixed(done + g.value, Groups(s[i + 4..])))
  {
    var g := Group(s[i], s[i + 1], s[i + 2], s[i + 3]);
    assert s[i..][4..] == s[i + 4..];
    hide Group;
    if g.Some? { PrefixedTwice(done, g.value, Groups(s[i + 4..])); }
  }

  /** One group: its bytes are appended at `pos`. */
  method DecodeGroup(c0: byte, c1: byte, c2: byte, c3: byte, isLast: bool, buffer: array<byte>, pos: nat)
    returns (rc: int, pos': nat, padded: bool)
    requires pos + 3 <= buffer.Length
    modifies buffer
    ensures rc == 0 || rc == -3
    ensures rc == 0 ==> pos <= pos' <= pos + 3 && Group(c0, c1, c2, c3) == Some(buffer[pos..pos'])
    ensures rc == 0 ==> (padded <==> pos' < pos + 3) && (padded ==> isLast)
    ensures rc == 0 ==> buffer[..pos] == old(buffer[..pos])
    ensures rc == -3 && Group(c0, c1, c2, c3).Some? ==> |Group(c0, c1, c2, c3).value| < 3 && !isLast
  {
    var v0, v1 := DigitValue(c0), DigitValue(c1);
    if v0 < 0 || v1 < 0 {
      return -3, pos, false;
    }
    var v2 := if c2 == EQUALS then -2 else DigitValue(c2);
    var v3 := if c3 == EQUALS then -2 else DigitValue(c3);
    if (v2 < 0 && v2 != -2) || (v3 < 0 && v3 != -2) {
      return -3, pos, false;
    }
    buffer[pos] := First(v0, v1);
    if v2 == -2 {
      if v3 != -2 || !isLast {
        return -3, pos, false;
      }
      assert buffer[pos..pos + 1] == [First(v0, v1)];
      return 0, pos + 1, true;
    }
    buffer[pos + 1] := Second(v1, v2);
    if v3 == -2 {
      if !isLast {
        return -3, pos, false;
      }
      assert buffer[pos..pos + 2] == [First(v0, v1), Second(v1, v2)];
      return 0, pos + 2, true;
    }
    buffer[pos + 2] := Third(v2, v3);
    assert buffer[pos..pos + 3] == [First(v0, v1), Second(v1, v2), Third(v2, v3)];
    return 0, pos + 3, false;
  }

  lemma RoomForGroup(i: nat, cleanLen: nat, pos: nat, room: nat)
    requires i % 4 == 0 && cleanLen % 4 == 0 && i < cleanLen && 4 * pos <= 3 * i && cleanLen / 4 * 3 < room
    ensures i + 4 <= cleanLen && pos + 3 <= room && (i + 4) % 4 == 0
  {
  }

  /** The groups of a text without whitespace, into a buffer with room for three bytes each. */
  method DecodeGroups(clean: array<byte>, cleanLen: nat, out: array<byte>) returns (rc: int, pos: nat)
    requires clean != out && cleanLen <= clean.Length && cleanLen % 4 == 0 && cleanLen / 4 * 3 < out.Length
    modifies out
    ensures rc == 0 ==> pos < out.Length && Groups(clean[..cleanLen]) == Decoding(out[..pos])
    ensures rc == 0 || (rc == -3 && Groups(clean[..cleanLen]) == BadDigit)
  {
    ghost var s := clean[..cleanLen];
    hide *;
    var i: nat := 0;
    rc, pos := 0, 0;
    PrefixedTwice([], [], Groups(s));
    assert s[0..] == s && out[..0] == [];
    while i < cleanLen
      invariant i % 4 == 0 && i <= cleanLen && 4 * pos <= 3 * i
      invariant clean[..cleanLen] == s
      invariant Groups(s) == Prefixed(out[..pos], Groups(s[i..]))
    {
      RoomForGroup(i, cleanLen, pos, out.Length);
      GroupsStep(s, i, out[..pos]);
      ghost var done := out[..pos];
      var padded;
      var pos0 := pos;
      rc, pos, padded := DecodeGroup(clean[i], clean[i + 1], clean[i + 2], clean[i + 3], i + 4 == cleanLen, out, pos);
      if rc != 0 {
        return;
      }
      assert out[..pos] == done + out[pos0..pos];
      if padded {
        return;
      }
      i := i + 4;
    }
    GroupsEnd(s, out[..pos]);
    rc := 0;
  }

  /** The buffer allocated for the longest answer is never overrun, whatever the input. */
  method Base64DecodeBuffer(input: seq<byte>) returns (rc: int, out: array<byte>, outLen: nat)
    ensures fresh(out)
    ensures rc == 0 ==> outLen < out.Length && out[outLen] == 0 && Decoded(input) == Decoding(out[..outLen])
    ensures rc == 0 || (rc == -2 && Decoded(input) == BadLength) || (rc == -3 && Decoded(input) == BadDigit)
    ensures rc == -2 <==> |Stripped(input)| % 4 != 0
  {
    var clean, cleanLen := Strip(input);
    ghost var s := clean[..cleanLen];
    assert Decoded(input) == if |s| % 4 != 0 then BadLength else Groups(s);
    hide *;
    if cleanLen == 0 {
      GroupsEnd(s, []);
      out := new byte[1](_ => 0);
      assert out[..0] == [] && s == [];
      return 0, out, 0;
    }
    if cleanLen % 4 != 0 {
      out := new byte[0];
      return -2, out, 0;
    }
    out := new byte[(cleanLen + 3) / 4 * 3 + 1];
    rc, outLen := DecodeGroups(clean, cleanLen, out);
    if rc == 0 {
      ghost var done := out[..outLen];
      out[outLen] := 0;
      assert out[..outLen] == done;
    }
  }

  lemma GroupsEnd(s: seq<byte>, done: seq<byte>)
    ensures Prefixed(done, Groups(s[|s|..])) == Decoding(done) && Groups([]) == Decoding([])
  {
    assert done + [] == done;
  }
}
