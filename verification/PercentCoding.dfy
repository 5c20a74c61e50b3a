/** Percent decoding (src/backend_ast/builtin_network_api.c:394-430) against section 2.1 of RFC 3986. */
module PercentCoding {
  import opened Bytes
  import opened Wrappers

  function HexValue(c: byte): (v: int)
    ensures -1 <= v < 16
  {
    if ZERO <= c <= NINE then c - ZERO
    else
      var l := Lower(c);
      if LOWER_A <= l <= LOWER_F then l - LOWER_A + 10 else -1
  }

  /** What a text decodes to; None if an escape is cut short or has no two hex digits. */
  ghost function Decoded(s: seq<byte>): Option<seq<byte>>
    decreases |s|
  {
    if s == [] then Some([])
    else if s[0] != PERCENT then Prefixed([s[0]], Decoded(s[1..]))
    else if |s| < 3 || HexValue(s[1]) < 0 || HexValue(s[2]) < 0 then None
    else Prefixed([HexValue(s[1]) * 16 + HexValue(s[2])], Decoded(s[3..]))
  }

  ghost function Prefixed(a: seq<byte>, r: Option<seq<byte>>): Option<seq<byte>> {
    match r
    case None => None
    case Some(b) => Some(a + b)
  }

  /** `text` is a percent-encoding of `bs`: each byte stands for itself or is escaped, a percent sign always is. */
  ghost predicate Encodes(text: seq<byte>, bs: seq<byte>)
    decreases |bs|
  {
    if bs == [] then text == []
    else if text == [] then false
    else if text[0] == PERCENT then Escapes(text, bs[0]) && Encodes(text[3..], bs[1..])
    else text[0] == bs[0] && Encodes(text[1..], bs[1..])
  }

  ghost predicate Escapes(text: seq<byte>, b: byte) {
    && |text| >= 3 && text[0] == PERCENT
    && HexValue(text[1]) >= 0 && HexValue(text[2]) >= 0 && HexValue(text[1]) * 16 + HexValue(text[2]) == b
  }

  /** The decoder accepts exactly the percent-encodings, and gives back what was encoded. */
  lemma {:induction false} DecodesIffEncodes(text: seq<byte>, bs: seq<byte>)
    ensures Decoded(text) == Some(bs) <==> Encodes(text, bs)
    decreases |text|
  {
    if text != [] && bs != [] {
      if text[0] != PERCENT {
        DecodesIffEncodes(text[1..], bs[1..]);
        FirstByte(text[0], Decoded(text[1..]), bs);
      } else if |text| >= 3 && HexValue(text[1]) >= 0 && HexValue(text[2]) >= 0 {
        DecodesIffEncodes(text[3..], bs[1..]);
        FirstByte(HexValue(text[1]) * 16 + HexValue(text[2]), Decoded(text[3..]), bs);
      }
    } else if text != [] {
      if text[0] != PERCENT {
        FirstByte(text[0], Decoded(text[1..]), bs);
      } else if |text| >= 3 && HexValue(text[1]) >= 0 && HexValue(text[2]) >= 0 {
        FirstByte(HexValue(text[1]) * 16 + HexValue(text[2]), Decoded(text[3..]), bs);
      }
    }
  }

  lemma FirstByte(b: byte, r: Option<seq<byte>>, bs: seq<byte>)
    ensures Prefixed([b], r) == Some(bs) <==> bs != [] && bs[0] == b && r == Some(bs[1..])
  {
    if r.Some? {
      assert ([b] + r.value)[1..] == r.value;
      assert bs != [] ==> bs == [bs[0]] + bs[1..];
    }
  }

  /** `c` is the hex digit of value v, of section 2.1 in either case. */
  ghost predicate IsHexDigit(c: byte, v: int) {
    0 <= v < 16 && (c as char == "0123456789ABCDEF"[v] || c as char == "0123456789abcdef"[v])
  }

  lemma HexValueIs(c: byte, v: int)
    requires v >= 0
    ensures HexValue(c) == v <==> IsHexDigit(c, v)
  {
  }

  /** A percent sign and two hex digits are the byte with these digits, the higher first; any other byte is itself. */
  lemma EscapeDecodes(b: byte, x: byte, y: byte, rest: seq<byte>)
    requires IsHexDigit(x, b / 16) && IsHexDigit(y, b % 16)
    ensures Decoded(Ascii("%") + [x, y] + rest) == Prefixed([b], Decoded(rest))
    ensures b as char != '%' ==> Decoded([b] + rest) == Prefixed([b], Decoded(rest))
  {
    HexValueIs(x, b / 16);
    HexValueIs(y, b % 16);
    assert Ascii("%") == [PERCENT] && (Ascii("%") + [x, y] + rest)[3..] == rest && ([b] + rest)[1..] == rest;
  }

  /** A percent sign without two hex digits behind it is malformed. */
  lemma MalformedEscape(s: seq<byte>)
    requires s != [] && s[0] as char == '%'
    requires forall v, w :: |s| >= 3 && IsHexDigit(s[1], v) ==> !IsHexDigit(s[2], w)
    ensures Decoded(s) == None
  {
    if |s| >= 3 && HexValue(s[1]) >= 0 && HexValue(s[2]) >= 0 {
      HexValueIs(s[1], HexValue(s[1]));
      HexValueIs(s[2], HexValue(s[2]));
    }
  }

  // ---- an encoder

  /** The hex digits of RFC 3986, upper or lower case. */
  ghost function HexDigit(v: nat, upper: bool): byte
    requires v < 16
  {
    if v < 10 then ZERO + v else if upper then UPPER_A + (v - 10) else LOWER_A + (v - 10)
  }

  ghost function Escape(b: byte, upper: bool): seq<byte> {
    [PERCENT, HexDigit(b / 16, upper), HexDigit(b % 16, upper)]
  }

  /** Bytes that `keep` allows are written as they are. */
  ghost function Encoded(bs: seq<byte>, keep: byte -> bool, upper: bool): seq<byte> {
    if bs == [] then []
    else (if keep(bs[0]) && bs[0] != PERCENT then [bs[0]] else Escape(bs[0], upper)) + Encoded(bs[1..], keep, upper)
  }

  lemma EscapeEscapes(b: byte, upper: bool, rest: seq<byte>)
    ensures Escapes(Escape(b, upper) + rest, b) && (Escape(b, upper) + rest)[3..] == rest
    ensures (Escape(b, upper) + rest)[0] == PERCENT
  {
  }

  lemma {:induction false} EncoderEncodes(bs: seq<byte>, keep: byte -> bool, upper: bool)
    ensures Encodes(Encoded(bs, keep, upper), bs)
  {
    if bs != [] {
      var rest := Encoded(bs[1..], keep, upper);
      EncoderEncodes(bs[1..], keep, upper);
      if keep(bs[0]) && bs[0] != PERCENT {
        assert ([bs[0]] + rest)[1..] == rest;
      } else {
        EscapeEscapes(bs[0], upper, rest);
      }
    }
  }

  lemma PercentRoundTrip(bs: seq<byte>, keep: byte -> bool, upper: bool)
    ensures Decoded(Encoded(bs, keep, upper)) == Some(bs)
  {
    EncoderEncodes(bs, keep, upper);
    DecodesIffEncodes(Encoded(bs, keep, upper), bs);
  }

  /** No zero byte, which would end a C string, if none is written as it is. */
  lemma {:induction false} EncodedHasNoZero(bs: seq<byte>, keep: byte -> bool, upper: bool)
    requires 0 !in bs || !keep(0)
    ensures 0 !in Encoded(bs, keep, upper)
  {
    if bs != [] {
      assert 0 !in bs ==> bs[0] != 0 && 0 !in bs[1..];
      EncodedHasNoZero(bs[1..], keep, upper);
      assert 0 !in Escape(bs[0], upper);
      hide Escape;
    }
  }

  // ---- the loop

  lemma DecodedStep(input: seq<byte>, i: nat, done: seq<byte>)
    requires i < |input|
    ensures input[i] != PERCENT ==>
      Prefixed(done, Decoded(input[i..])) == Prefixed(done + [input[i]], Decoded(input[i + 1..]))
    ensures input[i] == PERCENT && (i + 2 >= |input| || HexValue(input[i + 1]) < 0 || HexValue(input[i + 2]) < 0) ==>
      Prefixed(done, Decoded(input[i..])) == None
    ensures input[i] == PERCENT && i + 2 < |input| && HexValue(input[i + 1]) >= 0 && HexValue(input[i + 2]) >= 0 ==>
      Prefixed(done, Decoded(input[i..])) ==
      Prefixed(done + [HexValue(input[i + 1]) * 16 + HexValue(input[i + 2])], Decoded(input[i + 3..]))
  {
    var s := input[i..];
    assert s[1..] == input[i + 1..];
    if |s| >= 3 {
      assert s[3..] == input[i + 3..];
      if HexValue(s[1]) >= 0 && HexValue(s[2]) >= 0 {
        PrefixedTwice(done, [HexValue(s[1]) * 16 + HexValue(s[2])], Decoded(s[3..]));
      }
    }
    PrefixedTwice(done, [s[0]], Decoded(s[1..]));
  }

  lemma PrefixedTwice(a: seq<byte>, b: seq<byte>, r: Option<seq<byte>>)
    ensures Prefixed(a, Prefixed(b, r)) == Prefixed(a + b, r)
  {
    if r.Some? { assert a + (b + r.value) == (a + b) + r.value; }
  }

  lemma PrefixedNone(r: Option<seq<byte>>)
    ensures Prefixed([], r) == r
  {
    if r.Some? { assert [] + r.value == r.value; }
  }

  /** The buffer is one byte longer than the input, for the terminator, and is never overrun. */
  method DecodePercentEncoded(input: seq<byte>) returns (rc: int, out: array<byte>, outLen: nat)
    ensures rc == 0 || rc == -2
    ensures rc == 0 ==> outLen < out.Length && out[outLen] == 0 && Decoded(input) == Some(out[..outLen])
    ensures rc == -2 ==> Decoded(input) == None
    ensures fresh(out)
  {
    hide Decoded, Prefixed, HexValue;
    var buffer := new byte[|input| + 1];
    var pos: nat, i: nat := 0, 0;
    PrefixedNone(Decoded(input));
    assert input[0..] == input && buffer[..0] == [];
    while i < |input|
      invariant pos <= i <= |input|
      invariant Decoded(input) == Prefixed(buffer[..pos], Decoded(input[i..]))
    {
      DecodedStep(input, i, buffer[..pos]);
      ghost var done := buffer[..pos];
      var c := input[i];
      if c == PERCENT {
        if i + 2 >= |input| {
          return -2, buffer, 0;
        }
        var hi, lo := HexValue(input[i + 1]), HexValue(input[i + 2]);
        if hi < 0 || lo < 0 {
          return -2, buffer, 0;
        }
        buffer[pos] := hi * 16 + lo;
        pos, i := pos + 1, i + 2;
      } else {
        buffer[pos] := c;
        pos := pos + 1;
      }
      assert buffer[..pos] == done + [buffer[pos - 1]];
      i := i + 1;
    }
    DecodedEnd(input, buffer[..pos]);
    buffer[pos] := 0;
    return 0, buffer, pos;
  }

  lemma DecodedEnd(input: seq<byte>, done: seq<byte>)
    ensures Prefixed(done, Decoded(input[|input|..])) == Some(done)
  {
    assert input[|input|..] == [] && done + [] == done;
  }
}
