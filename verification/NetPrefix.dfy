/** Prefix lengths and masks (src/common/net_snapshot.c:65-100, 164-173). */
module NetPrefix {
  import opened Bytes
  import opened Wrappers

  /** `(unsigned char)(b << 1)` */
  function Shifted(b: byte): byte {
    b * 2 % 256
  }

  /** Bit j of a byte, the most significant first. */
  ghost predicate Bit(b: byte, j: nat)
    decreases j
  {
    if j == 0 then b >= 128 else Bit(Shifted(b), j - 1)
  }

  /** Bit k of an address in network order. */
  ghost predicate AddressBit(a: seq<byte>, k: nat) {
    k / 8 < |a| && Bit(a[k / 8], k % 8)
  }

  /** The value of the lowest of the first n bits. */
  function Unit(n: nat): (u: nat)
    requires n <= 8
    ensures u > 0
  {
    match n
    case 0 => 256
    case 1 => 128
    case 2 => 64
    case 3 => 32
    case 4 => 16
    case 5 => 8
    case 6 => 4
    case 7 => 2
    case 8 => 1
  }

  // ---- masking

  /** `b & (0xff << (8 - keep))` as a byte. */
  function KeepBits(b: byte, keep: nat): byte
    requires keep <= 8
  {
    b - b % Unit(keep)
  }

  lemma AtLeastOne(d: int, m: int)
    requires m > 0
    ensures d >= 1 ==> d * m >= m
    ensures d <= -1 ==> d * m <= -m
  {
  }

  lemma Remainder(x: int, m: int, q: int, r: int)
    requires m > 0 && x == q * m + r && 0 <= r < m
    ensures x % m == r
  {
    var d := x / m - q;
    AtLeastOne(d, m);
    assert d * m == r - x % m;
  }

  lemma TwiceRemainder(b: int, c: int, u: int, v: int, k: int)
    requires u > 0 && v == 2 * u && c == 2 * b - k * v
    ensures c % v == 2 * (b % u)
  {
    var q, r := b / u, b % u;
    assert b == q * u + r;
    assert c == (q - k) * v + 2 * r;
    Remainder(c, v, q - k, 2 * r);
  }

  lemma Units(n: nat) returns (k: nat)
    requires 0 < n <= 8
    ensures Unit(n - 1) == 2 * Unit(n) && k * Unit(n - 1) == 256
  {
    k := match n
      case 1 => 1
      case 2 => 2
      case 3 => 4
      case 4 => 8
      case 5 => 16
      case 6 => 32
      case 7 => 64
      case 8 => 128;
  }

  lemma ShiftUnit(b: byte, n: nat)
    requires 0 < n <= 8
    ensures Unit(n - 1) == 2 * Unit(n) && Shifted(b) % Unit(n - 1) == 2 * (b % Unit(n))
    ensures Shifted(b) == if b >= 128 then 2 * b - 256 else 2 * b
  {
    assert Shifted(b) == if b >= 128 then 2 * b - 256 else 2 * b;
    hide Unit, Shifted;
    var k := Units(n);
    TwiceRemainder(b, Shifted(b), Unit(n), Unit(n - 1), if b >= 128 then k else 0);
  }

  lemma ShiftKept(b: byte, keep: nat)
    requires 0 < keep <= 8
    ensures Shifted(KeepBits(b, keep)) == KeepBits(Shifted(b), keep - 1)
    ensures KeepBits(b, keep) >= 128 <==> b >= 128
  {
    ShiftUnit(b, keep);
    ShiftUnit(KeepBits(b, keep), keep);
    TopBitKept(b, keep);
    hide Unit, Shifted;
  }

  lemma TopBitKept(b: byte, keep: nat)
    requires 0 < keep <= 8
    ensures KeepBits(b, keep) >= 128 <==> b >= 128
  {
    match keep {
      case 1 => assert b - b % 128 >= 128 <==> b >= 128;
      case 2 => assert b - b % 64 >= 128 <==> b >= 128;
      case 3 => assert b - b % 32 >= 128 <==> b >= 128;
      case 4 => assert b - b % 16 >= 128 <==> b >= 128;
      case 5 => assert b - b % 8 >= 128 <==> b >= 128;
      case 6 => assert b - b % 4 >= 128 <==> b >= 128;
      case 7 => assert b - b % 2 >= 128 <==> b >= 128;
      case 8 =>
    }
  }

  lemma ZeroHasNoBits(j: nat)
    ensures !Bit(0, j)
  {
    if j > 0 { ZeroHasNoBits(j - 1); }
  }

  /** The first bits stay, the others are cleared. */
  lemma {:induction false} KeptBits(b: byte, keep: nat, j: nat)
    requires keep <= 8 && j < 8
    ensures Bit(KeepBits(b, keep), j) <==> j < keep && Bit(b, j)
    decreases keep
  {
    if keep == 0 {
      assert KeepBits(b, 0) == 0;
      ZeroHasNoBits(j);
    } else {
      ShiftKept(b, keep);
      if j > 0 { KeptBits(Shifted(b), keep - 1, j - 1); }
      hide KeepBits;
    }
  }

  // ---- counting the leading ones of a mask

  /** The leading ones of one byte, and then those of the next if all of it is ones. */
  ghost function LeadingOnes(a: seq<byte>): nat {
    if a == [] then 0
    else if a[0] == 255 then 8 + LeadingOnes(a[1..])
    else Ones(a[0])
  }

  ghost function Ones(b: byte): nat
    decreases b
  {
    if b < 128 then 0 else 1 + Ones(Shifted(b))
  }

  lemma {:induction false} OnesAre(b: byte, n: nat)
    requires n <= 8 && b % Unit(n) == 0
    ensures Ones(b) <= n && !Bit(b, Ones(b)) && forall j :: 0 <= j < Ones(b) ==> Bit(b, j)
    decreases b
  {
    if b >= 128 {
      assert n > 0;
      ShiftUnit(b, n);
      hide Unit;
      OnesAre(Shifted(b), n - 1);
      forall j | 0 <= j < Ones(b)
        ensures Bit(b, j)
      {
        assert j > 0 ==> Bit(Shifted(b), j - 1);
      }
    }
  }

  lemma {:induction false} AllOnes(j: nat)
    requires j < 8
    ensures Bit(255, j)
  {
    OnesAre(255, 8);
    assert Ones(255) == 8 by { Ones255(); }
  }

  lemma Ones255()
    ensures Ones(255) == 8
  {
    assert Shifted(255) == 254 && Shifted(254) == 252 && Shifted(252) == 248 && Shifted(248) == 240;
    assert Shifted(240) == 224 && Shifted(224) == 192 && Shifted(192) == 128 && Shifted(128) == 0;
    assert Ones(128) == 1 && Ones(192) == 2 && Ones(224) == 3 && Ones(240) == 4;
    assert Ones(248) == 5 && Ones(252) == 6 && Ones(254) == 7;
  }

  lemma FewerOnes(b: byte)
    requires b != 255
    ensures Ones(b) < 8
  {
    OnesAre(b, 8);
    if Ones(b) == 8 {
      EightOnes(b);
    }
  }

  /** Only 255 has eight leading ones. */
  lemma {:induction false} ManyOnes(b: byte, n: nat)
    requires n <= 8 && Ones(b) >= n
    ensures b >= 256 - Unit(n)
    decreases n
  {
    if n > 0 {
      ManyOnes(Shifted(b), n - 1);
    }
  }

  lemma EightOnes(b: byte)
    requires Ones(b) >= 8
    ensures b == 255
  {
    ManyOnes(b, 8);
  }

  lemma BehindFirst(a: seq<byte>, k: nat)
    requires a != []
    ensures k >= 8 ==> (AddressBit(a, k) <==> AddressBit(a[1..], k - 8))
    ensures k < 8 ==> (AddressBit(a, k) <==> Bit(a[0], k))
  {
    hide Bit;
    if k >= 8 { assert (k - 8) / 8 == k / 8 - 1 && (k - 8) % 8 == k % 8; }
  }

  /** The prefix length of a mask is where its first zero bit stands, or its whole length. */
  lemma {:induction false} LeadingOnesAre(a: seq<byte>)
    ensures LeadingOnes(a) <= 8 * |a|
    ensures forall k :: 0 <= k < LeadingOnes(a) ==> AddressBit(a, k)
    ensures !AddressBit(a, LeadingOnes(a))
  {
    hide AddressBit, Bit, Ones;
    if a == [] {
      NoBits(a);
    } else {
      BehindFirst(a, LeadingOnes(a));
      if a[0] == 255 {
        LeadingOnesAre(a[1..]);
      } else {
        OnesAre(a[0], 8);
        FewerOnes(a[0]);
      }
      forall k | 0 <= k < LeadingOnes(a)
        ensures AddressBit(a, k)
      {
        BehindFirst(a, k);
        if a[0] == 255 && k < 8 { AllOnes(k); }
      }
    }
  }

  lemma NoBits(a: seq<byte>)
    ensures a == [] ==> !AddressBit(a, 0)
  {
  }

  lemma SomeBitLeft(b: byte, n: nat)
    requires b >= 128 && n <= 8 && b % Unit(n) == 0
    ensures n > 0
  {
  }

  lemma NoBitLeft(b: byte)
    requires b % Unit(0) == 0
    ensures b == 0
  {
  }

  method CountOnes(b: byte) returns (bits: nat, rest: byte)
    ensures bits == Ones(b) && bits <= 8 && (bits < 8 || rest == 0)
  {
    bits, rest := 0, b;
    assert b % Unit(8) == 0;
    hide Unit, Bit;
    while rest >= 128
      invariant bits <= 8 && bits + Ones(rest) == Ones(b) && rest % Unit(8 - bits) == 0
      decreases rest
    {
      SomeBitLeft(rest, 8 - bits);
      ShiftUnit(rest, 8 - bits);
      bits, rest := bits + 1, Shifted(rest);
    }
    if bits == 8 { NoBitLeft(rest); }
  }

  /** `mask` is the address part of the mask, 4 or 16 bytes; no mask counts as -1. */
  method PrefixFromMask(mask: Option<seq<byte>>) returns (bits: int)
    ensures mask.None? ==> bits == -1
    ensures mask.Some? ==> bits == LeadingOnes(mask.value)
  {
    if mask.None? {
      return -1;
    }
    var bytes := mask.value;
    bits := 0;
    for i := 0 to |bytes|
      invariant bits + LeadingOnes(bytes[i..]) == LeadingOnes(bytes)
    {
      var n, b := CountOnes(bytes[i]);
      assert bytes[i..][1..] == bytes[i + 1..];
      if bytes[i] == 255 { Ones255(); } else { FewerOnes(bytes[i]); }
      bits := bits + n;
      if b != 0 || bytes[i] != 0xff {
        return;
      }
    }
  }

  // ---- masking an address

  /** Everything behind the prefix is cleared. */
  ghost predicate Masked(a: seq<byte>, prefixLen: int) {
    forall k: nat :: prefixLen <= k < 8 * |a| ==> !AddressBit(a, k)
  }

  /** Inside the prefix nothing has changed. */
  ghost predicate SamePrefix(a: seq<byte>, b: seq<byte>, prefixLen: int) {
    forall k: nat :: k < prefixLen ==> (AddressBit(a, k) <==> AddressBit(b, k))
  }

  method MaskPrefix(a: seq<byte>, prefixLen: int) returns (m: seq<byte>)
    ensures |m| == |a| && Masked(m, prefixLen) && SamePrefix(m, a, prefixLen)
    ensures forall j :: 0 <= j < |a| ==> m[j] == MaskedByte(a, prefixLen, j)
  {
    m := a;
    for i := 0 to |a|
      invariant |m| == |a| && (forall j :: 0 <= j < i ==> m[j] == MaskedByte(a, prefixLen, j))
      invariant forall j :: i <= j < |a| ==> m[j] == a[j]
    {
      var keep := prefixLen - i * 8;
      if keep >= 8 {
        continue;
      }
      m := m[i := if keep <= 0 then 0 else KeepBits(a[i], keep)];
    }
    MaskedBytes(a, prefixLen, m);
  }

  ghost function MaskedByte(a: seq<byte>, prefixLen: int, i: nat): byte
    requires i < |a|
  {
    var keep := prefixLen - i * 8;
    if keep >= 8 then a[i] else if keep <= 0 then 0 else KeepBits(a[i], keep)
  }

  lemma MaskedBytes(a: seq<byte>, prefixLen: int, m: seq<byte>)
    requires |m| == |a| && forall j :: 0 <= j < |a| ==> m[j] == MaskedByte(a, prefixLen, j)
    ensures Masked(m, prefixLen) && SamePrefix(m, a, prefixLen)
  {
    forall k: nat | k < 8 * |a|
      ensures AddressBit(m, k) <==> k < prefixLen && AddressBit(a, k)
    {
      MaskedBit(a, prefixLen, m, k);
    }
  }

  lemma MaskedBit(a: seq<byte>, prefixLen: int, m: seq<byte>, k: nat)
    requires |m| == |a| && (forall j :: 0 <= j < |a| ==> m[j] == MaskedByte(a, prefixLen, j)) && k < 8 * |a|
    ensures AddressBit(m, k) <==> k < prefixLen && AddressBit(a, k)
  {
    var i, j := k / 8, k % 8;
    var keep := prefixLen - i * 8;
    if keep <= 0 {
      ZeroHasNoBits(j);
    } else if keep < 8 {
      KeptBits(a[i], keep, j);
    }
    hide Bit, KeepBits;
  }
}
