/** Addresses as numbers in network order, and what masks are as numbers (src/common/net_snapshot.c:64-90, 164-173). */
module NetNumber {
  import opened Bytes
  import opened NetPrefix

  /** The number whose base-256 digits are the bytes, the most significant first. */
  ghost function Number(a: seq<byte>): (n: nat)
  {
    if a == [] then 0 else Number(a[..|a| - 1]) * 256 + a[|a| - 1]
  }

  ghost function Two(n: nat): (p: nat)
    ensures p > 0
  {
    if n == 0 then 1 else 2 * Two(n - 1)
  }

  lemma NumberSnoc(front: seq<byte>, last: byte)
    ensures Number(front + [last]) == Number(front) * 256 + last
  {
    assert (front + [last])[..|front|] == front;
  }

  lemma TwoEight(n: nat)
    ensures Two(n + 8) == 256 * Two(n)
  {
    assert Two(n + 4) == 16 * Two(n) by { TwoFour(n); }
    TwoFour(n + 4);
  }

  lemma TwoFour(n: nat)
    ensures Two(n + 4) == 16 * Two(n)
  {
    assert Two(n + 2) == 4 * Two(n);
    assert Two(n + 3) == 2 * Two(n + 2);
  }

  lemma {:induction false} NumberBelow(a: seq<byte>)
    ensures Number(a) < Two(8 * |a|)
  {
    if a != [] {
      NumberBelow(a[..|a| - 1]);
      TwoEight(8 * (|a| - 1));
    }
  }

  lemma UnitIsTwo(keep: nat)
    requires keep <= 8
    ensures Unit(keep) == Two(8 - keep)
  {
    assert Two(1) == 2 && Two(2) == 4 && Two(3) == 8 && Two(4) == 16 && Two(5) == 32;
    assert Two(6) == 64 && Two(7) == 128 && Two(8) == 256;
  }

  lemma RemainderOfDigit(f: nat, l: byte, u: nat, k: nat)
    requires u > 0 && k * u == 256
    ensures (f * 256 + l) % u == l % u
  {
    var q, r := l / u, l % u;
    assert l == q * u + r;
    assert f * 256 + l == (f * k + q) * u + r by {
      assert f * 256 == f * k * u;
    }
    Remainder(f * 256 + l, u, f * k + q, r);
  }

  lemma RemainderBehindDigit(f: nat, l: byte, d: nat)
    requires d > 0
    ensures (f * 256 + l) % (256 * d) == f % d * 256 + l
  {
    var q, r := f / d, f % d;
    assert f == q * d + r;
    assert f * 256 + l == q * (256 * d) + (r * 256 + l);
    Remainder(f * 256 + l, 256 * d, q, r * 256 + l);
  }

  lemma UnitDivides(keep: nat) returns (k: nat)
    requires keep <= 8
    ensures k * Unit(keep) == 256
  {
    if keep == 8 {
      k := 256;
    } else {
      k := Units(keep + 1);
    }
  }

  lemma MaskedFront(a: seq<byte>, prefixLen: int, m: seq<byte>)
    requires |m| == |a| > 0 && forall j :: 0 <= j < |a| ==> m[j] == MaskedByte(a, prefixLen, j)
    ensures var f, g := a[..|a| - 1], m[..|a| - 1];
      forall j :: 0 <= j < |f| ==> g[j] == MaskedByte(f, prefixLen, j)
  {
  }

  /** Masking takes off the remainder by the value of the last bit that is kept. */
  lemma {:induction false} MaskingRounds(a: seq<byte>, prefixLen: nat, m: seq<byte>)
    requires |m| == |a| && forall j :: 0 <= j < |a| ==> m[j] == MaskedByte(a, prefixLen, j)
    requires prefixLen <= 8 * |a|
    ensures Number(m) == Number(a) - Number(a) % Two(8 * |a| - prefixLen)
    decreases |a|
  {
    if a != [] {
      var n := |a| - 1;
      var f, l, g := a[..n], a[n], m[..n];
      MaskedFront(a, prefixLen, m);
      assert m[n] == MaskedByte(a, prefixLen, n);
      if prefixLen <= 8 * n {
        MaskingRounds(f, prefixLen, g);
        TwoEight(8 * n - prefixLen);
        RemainderBehindDigit(Number(f), l, Two(8 * n - prefixLen));
      } else {
        assert g == f;
        var keep := prefixLen - 8 * n;
        var k := UnitDivides(keep);
        UnitIsTwo(keep);
        RemainderOfDigit(Number(f), l, Unit(keep), k);
      }
    }
  }

  lemma {:induction false} TwoSum(m: nat, n: nat)
    ensures Two(m + n) == Two(m) * Two(n)
  {
    if m > 0 {
      TwoSum(m - 1, n);
      assert Two(m) * Two(n) == 2 * (Two(m - 1) * Two(n));
    }
  }

  lemma Carry(x: nat, w: nat, v: nat, f: nat, l: nat)
    requires v == 256 * w
    ensures (x * w + f) * 256 + l == x * v + (f * 256 + l)
  {
  }

  lemma {:induction false} NumberCons(x: byte, t: seq<byte>)
    ensures Number([x] + t) == x * Two(8 * |t|) + Number(t)
    decreases |t|
  {
    if t == [] {
      assert [x] + t == [] + [x] && Two(0) == 1;
      NumberSnoc([], x);
    } else {
      var front, last := t[..|t| - 1], t[|t| - 1];
      hide *;
      NumberCons(x, front);
      assert t == front + [last];
      NextDigit(x, front, last);
    }
  }

  lemma NextDigit(x: byte, front: seq<byte>, last: byte)
    requires Number([x] + front) == x * Two(8 * |front|) + Number(front)
    ensures Number([x] + (front + [last])) == x * Two(8 * |front + [last]|) + Number(front + [last])
  {
    hide *;
    NumberSnoc([x] + front, last);
    NumberSnoc(front, last);
    assert [x] + (front + [last]) == ([x] + front) + [last];
    assert 8 * |front + [last]| == 8 * |front| + 8;
    TwoEight(8 * |front|);
    Carry(x, Two(8 * |front|), Two(8 * |front + [last]|), Number(front), last);
  }

  lemma {:induction false} OnesIff(b: byte, p: nat)
    requires p <= 8
    ensures Ones(b) >= p <==> b >= 256 - Unit(p)
    decreases p
  {
    if p > 0 && b >= 128 { OnesIff(Shifted(b), p - 1); }
  }

  lemma FirstDigitDecides(d: nat, w: nat, r: nat, u: nat)
    requires r < w && u <= 256
    ensures d * w + r >= 256 * w - u * w <==> d >= 256 - u
  {
    var k := d - (256 - u);
    assert d * w + r - (256 * w - u * w) == k * w + r;
    AtLeastOne(k, w);
  }

  lemma LaterDigitsDecide(d: byte, w: nat, r: nat, e: nat)
    requires r < w && e <= w
    ensures d * w + r >= 256 * w - e <==> d == 255 && r >= w - e
  {
    var k := d - 255;
    assert d * w + r - (256 * w - e) == k * w + (r - (w - e));
    AtLeastOne(k, w);
  }

  lemma {:induction false} TwoGrows(m: nat, n: nat)
    requires m <= n
    ensures Two(m) <= Two(n)
  {
    if m < n { TwoGrows(m, n - 1); }
  }

  /** A mask has at least p leading ones exactly if it is at least the number with p ones in front of zeros. */
  lemma {:induction false} LeadingOnesIff(a: seq<byte>, p: nat)
    requires p <= 8 * |a|
    ensures LeadingOnes(a) >= p <==> Number(a) >= Two(8 * |a|) - Two(8 * |a| - p)
  {
    if a != [] {
      var n := |a| - 1;
      var w, r := Two(8 * n), Number(a[1..]);
      assert a == [a[0]] + a[1..];
      NumberCons(a[0], a[1..]);
      NumberBelow(a[1..]);
      TwoEight(8 * n);
      hide Number, Two, Unit;
      if p <= 8 {
        UnitIsTwo(p);
        TwoSum(8 - p, 8 * n);
        FirstDigitDecides(a[0], w, r, Unit(p));
        OnesIff(a[0], p);
      } else {
        LeadingOnesIff(a[1..], p - 8);
        TwoGrows(8 * n - (p - 8), 8 * n);
        LaterDigitsDecide(a[0], w, r, Two(8 * n - (p - 8)));
        if a[0] != 255 { FewerOnes(a[0]); }
      }
    }
  }

  lemma {:induction false} SameNumber(a: seq<byte>, b: seq<byte>)
    requires |a| == |b| && Number(a) == Number(b)
    ensures a == b
  {
    if a != [] {
      var n := |a| - 1;
      SameNumber(a[..n], b[..n]);
      assert a == a[..n] + [a[n]] && b == b[..n] + [b[n]];
    }
  }
}
