/** Pending key codes and the decoder that feeds them (src/backend_ast/sdl.c:275-279, 392-464, 520-541). */
module KeyQueue {
  import opened Bytes
  import opened Wrappers

  const MAX_PENDING: nat := 128

  // ---- the ring

  /** The last entries of a queue, 128 at most. */
  ghost function Recent(s: seq<int>): seq<int> {
    if |s| <= MAX_PENDING then s else s[|s| - MAX_PENDING..]
  }

  /** Nothing is dropped up to 128 entries, and then the first ones. */
  lemma RecentAre(s: seq<int>, k: nat)
    requires k < |s|
    ensures |s| <= 128 ==> Recent(s) == s
    ensures |s| > 128 ==> |Recent(s)| == 128 && (k >= |s| - 128 ==> Recent(s)[k - (|s| - 128)] == s[k])
  {
  }

  /** Dropping the oldest at every step leaves what dropping all at once would. */
  lemma RecentTwice(a: seq<int>, b: seq<int>)
    ensures Recent(Recent(a) + b) == Recent(a + b)
  {
    assert Recent(a) + b == (a + b)[|a| - |Recent(a)|..];
  }

  function Slot(start: nat, i: nat): (k: nat)
    ensures k < MAX_PENDING
  {
    (start + i) % MAX_PENDING
  }

  /** The entries of the ring, oldest first. */
  ghost function Entries(codes: seq<int>, start: nat, count: nat): (s: seq<int>)
    requires |codes| == MAX_PENDING
    ensures |s| == count && forall i :: 0 <= i < count ==> s[i] == codes[Slot(start, i)]
  {
    seq(count, i requires 0 <= i < count => codes[Slot(start, i)])
  }

  lemma SlotsDiffer(start: nat, i: nat, j: nat)
    requires start < MAX_PENDING && i < j < MAX_PENDING
    ensures Slot(start, i) != Slot(start, j)
  {
  }

  lemma SlotOfNext(start: nat, i: nat)
    requires start < MAX_PENDING && i < MAX_PENDING
    ensures Slot(Slot(start, 1), i) == Slot(start, i + 1)
  {
  }

  lemma EntriesPush(codes: seq<int>, start: nat, count: nat, code: int)
    requires |codes| == MAX_PENDING && start < MAX_PENDING && count < MAX_PENDING
    ensures Entries(codes[Slot(start, count) := code], start, count + 1) == Entries(codes, start, count) + [code]
  {
    var codes' := codes[Slot(start, count) := code];
    forall i | 0 <= i < count
      ensures codes'[Slot(start, i)] == codes[Slot(start, i)]
    {
      SlotsDiffer(start, i, count);
    }
    hide Slot;
  }

  lemma EntriesDrop(codes: seq<int>, start: nat, count: nat)
    requires |codes| == MAX_PENDING && start < MAX_PENDING && 0 < count <= MAX_PENDING
    ensures Entries(codes, Slot(start, 1), count - 1) == Entries(codes, start, count)[1..]
  {
    forall i | 0 <= i < count - 1
      ensures Slot(Slot(start, 1), i) == Slot(start, i + 1)
    {
      SlotOfNext(start, i);
    }
    hide Slot;
  }

  lemma FirstSlot(start: nat)
    requires start < MAX_PENDING
    ensures Slot(start, 0) == start
  {
  }

  class Ring {
    const codes: array<int>
    var start: nat
    var count: nat

    constructor ()
      ensures Valid() && Contents() == [] && fresh(codes)
    {
      codes := new int[MAX_PENDING](_ => 0);
      start, count := 0, 0;
    }

    ghost predicate Valid()
      reads this
    {
      codes.Length == MAX_PENDING && start < MAX_PENDING && count <= MAX_PENDING
    }

    /** Oldest first. */
    ghost function Contents(): (s: seq<int>)
      requires Valid()
      reads this, codes
      ensures |s| == count
    {
      Entries(codes[..], start, count)
    }

    /** The oldest entry makes room when the ring is full. */
    method Enqueue(code: int)
      requires Valid()
      modifies codes, `start, `count
      ensures Valid() && Contents() == Recent(old(Contents()) + [code])
    {
      hide Slot, Entries;
      ghost var before := Contents();
      if count == MAX_PENDING {
        EntriesDrop(codes[..], start, count);
        start := Slot(start, 1);
        count := count - 1;
      }
      EntriesPush(codes[..], start, count, code);
      ghost var was := codes[..];
      var tail := Slot(start, count);
      codes[tail] := code;
      assert codes[..] == was[tail := code];
      count := count + 1;
      assert |before| == MAX_PENDING ==> before[1..] + [code] == (before + [code])[1..];
    }

    method Dequeue() returns (code: Option<int>)
      requires Valid()
      modifies `start, `count
      ensures Valid()
      ensures old(Contents()) == [] ==> code == None && Contents() == []
      ensures old(Contents()) != [] ==> code == Some(old(Contents())[0]) && Contents() == old(Contents())[1..]
    {
      hide Slot, Entries;
      if count == 0 {
        return None;
      }
      FirstSlot(start);
      EntriesDrop(codes[..], start, count);
      code := Some(codes[start]);
      start := Slot(start, 1);
      count := count - 1;
    }
  }

  // ---- UTF-8

  predicate IsTrailer(b: byte) {
    0x80 <= b < 0xC0
  }

  /** The low bits of a byte, as many as m has values. */
  function Low(b: byte, m: nat): (v: nat)
    requires m > 0
    ensures v < m
  {
    var n: nat := b;
    n % m
  }

  /** The code point that starts a text, None where there is none, and how far to go on. */
  ghost function First(s: seq<byte>): (r: (Option<nat>, nat))
    requires s != []
    ensures 1 <= r.1 <= |s|
  {
    var b := s[0];
    if b < 0x80 then (Some(b), 1)
    else if 0xC0 <= b < 0xE0 && |s| > 1 then
      if !IsTrailer(s[1]) then (None, 1)
      else (Some(Low(b, 0x20) * 0x40 + Low(s[1], 0x40)), 2)
    else if 0xE0 <= b < 0xF0 && |s| > 2 then
      if !IsTrailer(s[1]) || !IsTrailer(s[2]) then (None, 1)
      else (Some(Low(b, 0x10) * 0x1000 + Low(s[1], 0x40) * 0x40 + Low(s[2], 0x40)), 3)
    else if 0xF0 <= b < 0xF8 && |s| > 3 then
      if !IsTrailer(s[1]) || !IsTrailer(s[2]) || !IsTrailer(s[3]) then (None, 1)
      else
        var c := Low(b, 8) * 0x40000 + Low(s[1], 0x40) * 0x1000 + Low(s[2], 0x40) * 0x40 + Low(s[3], 0x40);
        (if c <= 0x10FFFF then Some(c) else None, 4)
    else (None, 1)
  }

  ghost function Decoded(s: seq<byte>): seq<int> {
    if s == [] then []
    else
      var (c, n) := First(s);
      (match c case None => [] case Some(v) => [v]) + Decoded(s[n..])
  }

  /** How many values n bytes can hold. */
  ghost function Span(n: nat): nat {
    if n == 2 then 0x800 else if n == 3 then 0x10000 else 0x200000
  }

  /** How many of them are code points. */
  ghost function Room(n: nat): nat {
    if n == 4 then 0x110000 else Span(n)
  }

  /** The code point in n bytes, whether or not fewer would do. */
  ghost function Wide(c: nat, n: nat): (s: seq<byte>)
    requires 2 <= n <= 4 && c < Span(n)
    ensures |s| == n
  {
    if n == 2 then [0xC0 + c / 0x40, 0x80 + c % 0x40]
    else if n == 3 then [0xE0 + c / 0x40 / 0x40, 0x80 + c / 0x40 % 0x40, 0x80 + c % 0x40]
    else [0xF0 + c / 0x40 / 0x40 / 0x40, 0x80 + c / 0x40 / 0x40 % 0x40, 0x80 + c / 0x40 % 0x40, 0x80 + c % 0x40]
  }

  /** Section 3 of RFC 3629. */
  ghost function Encoded1(c: nat): seq<byte>
    requires c <= 0x10FFFF
  {
    if c < 0x80 then [c]
    else Wide(c, if c < Room(2) then 2 else if c < Room(3) then 3 else 4)
  }

  /** Sooner in the order of the bytes. */
  ghost predicate Before(a: seq<byte>, b: seq<byte>) {
    exists k :: 0 <= k < |a| && k < |b| && a[..k] == b[..k] && a[k] < b[k]
  }

  lemma FirstDiffers(a: seq<byte>, b: seq<byte>, k: nat)
    requires k < |a| && k < |b| && a[k] < b[k] && forall i :: 0 <= i < k ==> a[i] == b[i]
    ensures Before(a, b)
  {
    assert a[..k] == b[..k];
  }

  lemma LessDigits(c: nat, d: nat)
    requires c < d
    ensures c / 0x40 < d / 0x40 || (c / 0x40 == d / 0x40 && c % 0x40 < d % 0x40)
  {
  }

  /** Encodings stand in the order of their code points (section 1 of RFC 3629). */
  lemma OrderKept(c: nat, d: nat)
    requires c < d <= 0x10FFFF
    ensures Before(Encoded1(c), Encoded1(d))
  {
    var a, b := Encoded1(c), Encoded1(d);
    if |a| != |b| {
      LeadByte(c);
      LeadByte(d);
      FirstDiffers(a, b, 0);
    } else {
      LessDigits(c, d);
      if |a| > 2 && c / 0x40 < d / 0x40 { LessDigits(c / 0x40, d / 0x40); }
      if |a| > 3 && c / 0x40 / 0x40 < d / 0x40 / 0x40 { LessDigits(c / 0x40 / 0x40, d / 0x40 / 0x40); }
      SameLength(c, d, |a|);
    }
  }

  lemma LeadByte(c: nat)
    requires c <= 0x10FFFF
    ensures var e := Encoded1(c);
      || (|e| == 1 && e[0] < 0x80) || (|e| == 2 && 0xC0 <= e[0] < 0xE0 && c >= 0x80)
      || (|e| == 3 && 0xE0 <= e[0] < 0xF0 && c >= 0x800) || (|e| == 4 && 0xF0 <= e[0] && c >= 0x10000)
    ensures |Encoded1(c)| == if c < 0x80 then 1 else if c < 0x800 then 2 else if c < 0x10000 then 3 else 4
  {
  }

  lemma SameLength(c: nat, d: nat, n: nat)
    requires c < d <= 0x10FFFF && |Encoded1(c)| == |Encoded1(d)| == n
    requires c / 0x40 < d / 0x40 || (c / 0x40 == d / 0x40 && c % 0x40 < d % 0x40)
    requires n > 2 && c / 0x40 < d / 0x40 ==>
      c / 0x40 / 0x40 < d / 0x40 / 0x40 ||
      (c / 0x40 / 0x40 == d / 0x40 / 0x40 && c / 0x40 % 0x40 < d / 0x40 % 0x40)
    requires n > 3 && c / 0x40 / 0x40 < d / 0x40 / 0x40 ==>
      c / 0x40 / 0x40 / 0x40 < d / 0x40 / 0x40 / 0x40 ||
      (c / 0x40 / 0x40 / 0x40 == d / 0x40 / 0x40 / 0x40 && c / 0x40 / 0x40 % 0x40 < d / 0x40 / 0x40 % 0x40)
    ensures Before(Encoded1(c), Encoded1(d))
  {
    var a, b := Encoded1(c), Encoded1(d);
    var k := if a[0] < b[0] then 0 else if n > 1 && a[1] < b[1] then 1 else if n > 2 && a[2] < b[2] then 2 else 3;
    FirstDiffers(a, b, k);
  }

  /** The examples of section 7 of RFC 3629 and the last code point. */
  lemma Examples()
    ensures Encoded1(0x41) == [0x41] && Encoded1(0x391) == [0xCE, 0x91] && Encoded1(0x2262) == [0xE2, 0x89, 0xA2]
    ensures Encoded1(0x233B4) == [0xF0, 0xA3, 0x8E, 0xB4] && Encoded1(0x10FFFF) == [0xF4, 0x8F, 0xBF, 0xBF]
  {
  }

  ghost predicate CodePoints(cs: seq<int>) {
    forall c :: c in cs ==> 0 <= c <= 0x10FFFF
  }

  ghost function Encoded(cs: seq<int>): seq<byte>
    requires CodePoints(cs)
  {
    if cs == [] then []
    else
      assert cs[0] in cs;
      assert CodePoints(cs[1..]) by { assert forall c :: c in cs[1..] ==> c in cs; }
      Encoded1(cs[0]) + Encoded(cs[1..])
  }

  lemma Trailer(v: nat)
    requires v < 0x40
    ensures IsTrailer(0x80 + v) && Low(0x80 + v, 0x40) == v
  {
  }

  lemma Leader(v: nat)
    ensures v < 0x20 ==> Low(0xC0 + v, 0x20) == v
    ensures v < 0x10 ==> Low(0xE0 + v, 0x10) == v
    ensures v < 8 ==> Low(0xF0 + v, 8) == v
  {
  }

  lemma TwoBytes(a: nat, b: nat, rest: seq<byte>)
    requires a < 0x20 && b < 0x40
    ensures First([0xC0 + a, 0x80 + b] + rest) == (Some(a * 0x40 + b), 2)
  {
    Leader(a);
    Trailer(b);
    hide Low, IsTrailer;
  }

  lemma ThreeBytes(a: nat, b: nat, d: nat, rest: seq<byte>)
    requires a < 0x10 && b < 0x40 && d < 0x40
    ensures First([0xE0 + a, 0x80 + b, 0x80 + d] + rest) == (Some(a * 0x1000 + b * 0x40 + d), 3)
  {
    Leader(a);
    Trailer(b);
    Trailer(d);
    hide Low, IsTrailer;
  }

  lemma FourBytes(a: nat, b: nat, d: nat, e: nat, rest: seq<byte>)
    requires a < 8 && b < 0x40 && d < 0x40 && e < 0x40
    ensures var c := a * 0x40000 + b * 0x1000 + d * 0x40 + e;
      First([0xF0 + a, 0x80 + b, 0x80 + d, 0x80 + e] + rest) == (if c <= 0x10FFFF then Some(c) else None, 4)
  {
    Leader(a);
    Trailer(b);
    Trailer(d);
    Trailer(e);
    hide Low, IsTrailer;
  }

  lemma WideIsFirst(c: nat, n: nat, rest: seq<byte>)
    requires 2 <= n <= 4 && c < Span(n)
    ensures First(Wide(c, n) + rest) == (if c < Room(n) then Some(c) else None, n)
  {
    hide First;
    var q, q2 := c / 0x40, c / 0x40 / 0x40;
    if n == 2 {
      TwoBytes(q, c % 0x40, rest);
    } else if n == 3 {
      ThreeBytes(q2, q % 0x40, c % 0x40, rest);
    } else {
      FourBytes(q2 / 0x40, q2 % 0x40, q % 0x40, c % 0x40, rest);
    }
  }

  lemma OneCodePoint(c: nat, rest: seq<byte>)
    requires c <= 0x10FFFF
    ensures First(Encoded1(c) + rest) == (Some(c), |Encoded1(c)|)
  {
    if c >= 0x80 { WideIsFirst(c, if c < Room(2) then 2 else if c < Room(3) then 3 else 4, rest); }
  }

  /** `s` starts with the code point c in n bytes. */
  ghost predicate Starts(s: seq<byte>, c: nat, n: nat) {
    if n == 1 then c < 0x80 && [c] <= s else 2 <= n <= 4 && c < Room(n) && Wide(c, n) <= s
  }

  /** `s` starts with four bytes that hold more than a code point. */
  ghost predicate StartsTooLarge(s: seq<byte>) {
    exists c: nat :: Room(4) <= c < Span(4) && Wide(c, 4) <= s
  }

  lemma TrailerIs(b: byte)
    requires IsTrailer(b)
    ensures b == 0x80 + Low(b, 0x40)
  {
  }

  lemma LeaderIs(b: byte)
    ensures 0xC0 <= b < 0xE0 ==> b == 0xC0 + Low(b, 0x20)
    ensures 0xE0 <= b < 0xF0 ==> b == 0xE0 + Low(b, 0x10)
    ensures 0xF0 <= b < 0xF8 ==> b == 0xF0 + Low(b, 8)
  {
  }

  lemma SixBits(q: nat, r: nat)
    requires r < 0x40
    ensures (q * 0x40 + r) / 0x40 == q && (q * 0x40 + r) % 0x40 == r
  {
  }

  lemma WideOfTwo(a: nat, b: nat)
    requires a < 0x20 && b < 0x40
    ensures a * 0x40 + b < Span(2) && Wide(a * 0x40 + b, 2) == [0xC0 + a, 0x80 + b]
  {
    SixBits(a, b);
  }

  lemma WideOfThree(a: nat, b: nat, d: nat)
    requires a < 0x10 && b < 0x40 && d < 0x40
    ensures a * 0x1000 + b * 0x40 + d < Span(3)
    ensures Wide(a * 0x1000 + b * 0x40 + d, 3) == [0xE0 + a, 0x80 + b, 0x80 + d]
  {
    var q := a * 0x40 + b;
    assert a * 0x1000 + b * 0x40 + d == q * 0x40 + d;
    SixBits(a, b);
    SixBits(q, d);
  }

  lemma WideOfFour(a: nat, b: nat, d: nat, e: nat)
    requires a < 8 && b < 0x40 && d < 0x40 && e < 0x40
    ensures a * 0x40000 + b * 0x1000 + d * 0x40 + e < Span(4)
    ensures Wide(a * 0x40000 + b * 0x1000 + d * 0x40 + e, 4) == [0xF0 + a, 0x80 + b, 0x80 + d, 0x80 + e]
  {
    var q2 := a * 0x40 + b;
    var q := q2 * 0x40 + d;
    assert a * 0x40000 + b * 0x1000 + d * 0x40 + e == q * 0x40 + e;
    SixBits(a, b);
    SixBits(q2, d);
    SixBits(q, e);
  }

  /** Whatever is read as one unit of more than one byte is the form of some value of that length. */
  lemma ReadIsWide(s: seq<byte>) returns (c: nat)
    requires s != [] && First(s).1 > 1
    ensures var n := First(s).1; n <= 4 && c < Span(n) && Wide(c, n) <= s
    ensures First(s).0 == if c < Room(First(s).1) then Some(c) else None
  {
    var n, b := First(s).1, s[0];
    LeaderIs(b);
    TrailerIs(s[1]);
    if n > 2 { TrailerIs(s[2]); }
    if n > 3 { TrailerIs(s[3]); }
    hide IsTrailer;
    if n == 2 {
      var a, x := Low(b, 0x20), Low(s[1], 0x40);
      hide Low, Wide;
      c := a * 0x40 + x;
      WideOfTwo(a, x);
    } else if n == 3 {
      var a, x, y := Low(b, 0x10), Low(s[1], 0x40), Low(s[2], 0x40);
      hide Low, Wide;
      c := a * 0x1000 + x * 0x40 + y;
      WideOfThree(a, x, y);
    } else {
      var a, x, y, z := Low(b, 8), Low(s[1], 0x40), Low(s[2], 0x40), Low(s[3], 0x40);
      hide Low, Wide;
      c := a * 0x40000 + x * 0x1000 + y * 0x40 + z;
      WideOfFour(a, x, y, z);
    }
  }

  lemma WideStarts(s: seq<byte>, c: nat, n: nat)
    requires 2 <= n <= 4 && c < Span(n) && Wide(c, n) <= s
    ensures s != [] && First(s) == (if c < Room(n) then Some(c) else None, n)
  {
    WideIsFirst(c, n, s[n..]);
    assert s == Wide(c, n) + s[n..];
  }

  /** A code point is read exactly where its form of that length stands. */
  lemma FirstIff(s: seq<byte>, c: nat, n: nat)
    requires s != []
    ensures First(s) == (Some(c), n) <==> Starts(s, c, n)
  {
    if First(s) == (Some(c), n) && n > 1 {
      var w := ReadIsWide(s);
    }
    if Starts(s, c, n) && n > 1 { WideStarts(s, c, n); }
    hide Wide;
  }

  /** Anything else yields nothing, and one byte is skipped, or four that hold more than a code point. */
  lemma OthersAreSkipped(s: seq<byte>)
    requires s != [] && forall c: nat, n: nat :: !Starts(s, c, n)
    ensures First(s) == (None, if StartsTooLarge(s) then 4 else 1)
  {
    var r := First(s);
    if r.0.Some? { FirstIff(s, r.0.value, r.1); }
    if r.1 > 1 {
      var w := ReadIsWide(s);
      hide First, Wide;
      assert w >= Room(r.1);
    }
    if StartsTooLarge(s) {
      var c: nat :| Room(4) <= c < Span(4) && Wide(c, 4) <= s;
      WideStarts(s, c, 4);
    }
    hide First, Wide;
  }

  lemma OnlyZeroIsZero(c: nat)
    requires c <= 0x10FFFF
    ensures 0 in Encoded1(c) <==> c == 0
  {
    if c < 0x80 { assert Encoded1(c)[0] == c; }
  }

  lemma RoundTripStep(c: nat, rest: seq<byte>, cs: seq<int>)
    requires c <= 0x10FFFF && Decoded(rest) == cs && (0 in rest <==> 0 in cs)
    ensures Decoded(Encoded1(c) + rest) == [c] + cs
    ensures 0 in Encoded1(c) + rest <==> 0 in [c] + cs
  {
    hide First, Encoded1;
    OneCodePoint(c, rest);
    OnlyZeroIsZero(c);
    assert (Encoded1(c) + rest)[|Encoded1(c)|..] == rest;
  }

  /** Decoding what was encoded gives the code points back, in order.  The encoding holds a zero byte, which would end
      a C string, only if U+0000 is one of them. */
  lemma {:induction false} Utf8RoundTrip(cs: seq<int>)
    requires CodePoints(cs)
    ensures Decoded(Encoded(cs)) == cs
    ensures 0 in Encoded(cs) <==> 0 in cs
  {
    if cs != [] {
      assert cs[0] in cs && forall c :: c in cs[1..] ==> c in cs;
      assert Encoded(cs) == Encoded1(cs[0]) + Encoded(cs[1..]);
      assert CodePoints(cs[1..]);
      hide *;
      Utf8RoundTrip(cs[1..]);
      RoundTripStep(cs[0], Encoded(cs[1..]), cs[1..]);
      assert [cs[0]] + cs[1..] == cs;
    }
  }

  /** Every code point is accepted in any number of bytes that has room for it, also in more than it needs. */
  lemma OverlongAccepted(c: nat, n: nat, rest: seq<byte>)
    requires 2 <= n <= 4 && c < Room(n)
    ensures Decoded(Wide(c, n) + rest) == [c] + Decoded(rest)
  {
    WideIsFirst(c, n, rest);
    hide First, Wide;
    assert (Wide(c, n) + rest)[n..] == rest;
  }

  lemma DecodedStep(s: seq<byte>, i: nat)
    requires i < |s|
    ensures var (c, n) := First(s[i..]);
      i + n <= |s| && Decoded(s[i..]) == (match c case None => [] case Some(v) => [v]) + Decoded(s[i + n..])
  {
    hide First;
    assert s[i..][First(s[i..]).1..] == s[i + First(s[i..]).1..];
  }

  /** One round of the decoder loop. */
  method DecodeAt(bytes: seq<byte>, index: nat) returns (codepoint: Option<nat>, advance: nat)
    requires index < |bytes|
    ensures (codepoint, advance) == First(bytes[index..])
  {
    var b := bytes[index];
    advance := 1;
    if b < 0x80 {
      return Some(b), 1;
    } else if 0xC0 <= b < 0xE0 && index + 1 < |bytes| {
      var byte2 := bytes[index + 1];
      if !IsTrailer(byte2) {
        return None, 1;
      }
      return Some(Low(b, 0x20) * 0x40 + Low(byte2, 0x40)), 2;
    } else if 0xE0 <= b < 0xF0 && index + 2 < |bytes| {
      var byte2, byte3 := bytes[index + 1], bytes[index + 2];
      if !IsTrailer(byte2) || !IsTrailer(byte3) {
        return None, 1;
      }
      return Some(Low(b, 0x10) * 0x1000 + Low(byte2, 0x40) * 0x40 + Low(byte3, 0x40)), 3;
    } else if 0xF0 <= b < 0xF8 && index + 3 < |bytes| {
      var byte2, byte3, byte4 := bytes[index + 1], bytes[index + 2], bytes[index + 3];
      if !IsTrailer(byte2) || !IsTrailer(byte3) || !IsTrailer(byte4) {
        return None, 1;
      }
      var c := Low(b, 8) * 0x40000 + Low(byte2, 0x40) * 0x1000 + Low(byte3, 0x40) * 0x40 + Low(byte4, 0x40);
      return if c <= 0x10FFFF then Some(c) else None, 4;
    } else {
      return None, 1;
    }
  }

  /** The text reaches the ring as its code points; on arbitrary bytes the loop ends. */
  method EnqueueUtf8Text(ring: Ring, bytes: seq<byte>)
    requires ring.Valid()
    modifies ring`start, ring`count, ring.codes
    ensures ring.Valid() && ring.Contents() == Recent(old(ring.Contents()) + Decoded(bytes))
  {
    hide Decoded, First, Recent, Entries;
    ghost var done: seq<int> := [];
    ghost var before := ring.Contents();
    NothingDecoded(bytes, before);
    var index: nat := 0;
    while index < |bytes|
      invariant index <= |bytes| && ring.Valid()
      invariant Decoded(bytes) == done + Decoded(bytes[index..])
      invariant ring.Contents() == Recent(before + done)
    {
      DecodedStep(bytes, index);
      var codepoint, advance := DecodeAt(bytes, index);
      if codepoint.Some? {
        RecentTwice(before + done, [codepoint.value]);
        ring.Enqueue(codepoint.value);
        assert (before + done) + [codepoint.value] == before + (done + [codepoint.value]);
        done := done + [codepoint.value];
      }
      index := index + advance;
    }
    AllDecoded(bytes);
    assert done + [] == done;
  }

  lemma NothingDecoded(bytes: seq<byte>, before: seq<int>)
    requires |before| <= MAX_PENDING
    ensures bytes[0..] == bytes && [] + Decoded(bytes) == Decoded(bytes)
    ensures before + [] == before && Recent(before) == before
  {
  }

  lemma AllDecoded(bytes: seq<byte>)
    ensures Decoded(bytes[|bytes|..]) == []
  {
  }
}
