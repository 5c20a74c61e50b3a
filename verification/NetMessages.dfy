/** The messages of Darwin's routing dump as the kernel lays them out, and what they say
    (src/common/net_snapshot.c:18-59, 212-326). */
module NetMessages {
  import opened Bytes
  import opened NetNumber
  import NetPrefix
  import opened NetRoutes
  import opened Wrappers

  /** A socket address, padded to four bytes: `head` is the port, in IPv6 with the flow label, `tail` what follows the
      address. A shortened one leaves out zeros at the end; one of length 0 takes four bytes. */
  datatype Socket =
    | Empty(pad: seq<byte>)
    | Socket(family: byte, head: seq<byte>, addr: seq<byte>, tail: seq<byte>, pad: seq<byte>)

  /** Flags and slots are bits, the lowest first; `unread` are the fields the code does not look at. */
  datatype RouteMessage = RouteMessage(version: byte, kind: byte, index: nat, gap: seq<byte>, flags: seq<bool>,
                                       slots: seq<Option<Socket>>, upper: seq<bool>, unread: seq<byte>,
                                       rest: seq<byte>)

  // ---- the layout

  ghost function Value(bits: seq<bool>): (n: nat) {
    if bits == [] then 0 else (if bits[0] then 1 else 0) + 2 * Value(bits[1..])
  }

  /** The n bytes of x, the lowest first. */
  ghost function LittleEndian(x: nat, n: nat): (s: seq<byte>)
    ensures |s| == n
    decreases n
  {
    if n == 0 then [] else [x % 256] + LittleEndian(x / 256, n - 1)
  }

  ghost function SocketBytes(s: Socket): seq<byte>
    requires Packed(s)
  {
    match s
    case Empty(pad) => [0] + pad
    case Socket(family, head, addr, tail, pad) =>
      [2 + |head| + |addr| + |tail|, family] + head + addr + tail + pad
  }

  ghost predicate Packed(s: Socket) {
    match s
    case Empty(pad) => |pad| == 3
    case Socket(family, head, addr, tail, pad) =>
      var len := 2 + |head| + |addr| + |tail|;
      len < 256 && |pad| < 4 && (len + |pad|) % 4 == 0
  }

  ghost predicate AllPacked(slots: seq<Option<Socket>>) {
    forall i :: 0 <= i < |slots| && slots[i].Some? ==> Packed(slots[i].value)
  }

  ghost function SlotBytes(slots: seq<Option<Socket>>): seq<byte>
    requires AllPacked(slots)
  {
    if slots == [] then []
    else (match slots[0] case None => [] case Some(s) => SocketBytes(s)) + SlotBytes(slots[1..])
  }

  ghost function Used(slots: seq<Option<Socket>>): (u: seq<bool>)
    ensures |u| == |slots|
  {
    seq(|slots|, i requires 0 <= i < |slots| => slots[i].Some?)
  }

  ghost predicate Encodable(m: RouteMessage) {
    && m.index < 65536 && |m.gap| == 2 && |m.flags| == 32 && |m.slots| == 8 && |m.upper| == 24 && |m.unread| == 76
    && AllPacked(m.slots)
    && 92 + |SlotBytes(m.slots)| + |m.rest| < 65536
  }

  ghost function Header(m: RouteMessage): (h: seq<byte>)
    requires Encodable(m)
    ensures |h| == 92
  {
    LittleEndian(92 + |SlotBytes(m.slots)| + |m.rest|, 2) + [m.version, m.kind] + LittleEndian(m.index, 2) + m.gap
    + LittleEndian(Value(m.flags), 4) + LittleEndian(Value(Used(m.slots) + m.upper), 4) + m.unread
  }

  ghost function MessageBytes(m: RouteMessage): (b: seq<byte>)
    requires Encodable(m)
    ensures |b| == 92 + |SlotBytes(m.slots)| + |m.rest|
  {
    Header(m) + SlotBytes(m.slots) + m.rest
  }

  ghost predicate AllEncodable(ms: seq<RouteMessage>) {
    forall i :: 0 <= i < |ms| ==> Encodable(ms[i])
  }

  ghost function DumpBytes(ms: seq<RouteMessage>): seq<byte>
    requires AllEncodable(ms)
  {
    if ms == [] then [] else MessageBytes(ms[0]) + DumpBytes(ms[1..])
  }

  // ---- what a message says

  /** The address in a socket address of the family: 4 bytes behind the port, or 16 behind port and flow label. */
  ghost predicate Shaped(s: Socket, family: nat) {
    s.Socket? ==>
      && |s.head| == (if family == 2 then 2 else 6)
      && |s.addr| <= (if family == 2 then 4 else 16)
      && (|s.addr| < (if family == 2 then 4 else 16) ==> s.tail == [])
  }

  ghost predicate OfFamily(slot: Option<Socket>, family: nat) {
    slot.Some? && (if slot.value.Empty? then 0 else slot.value.family) == family
  }

  ghost function AddressOf(s: Socket, family: nat): (a: seq<byte>)
    ensures |a| == if family == 2 then 4 else 16
  {
    seq(if family == 2 then 4 else 16, i => if s.Socket? && 0 <= i < |s.addr| then s.addr[i] else 0)
  }

  /** Link-local, or multicast on an interface or a link. */
  ghost predicate Scoped(a: seq<byte>) {
    |a| == 16 && ((a[0] == 254 && a[1] / 64 == 2) || (a[0] == 255 && (a[1] % 16 == 1 || a[1] % 16 == 2)))
  }

  /** The address without the scope Darwin keeps in its bytes 2 and 3. */
  ghost function Scopeless(a: seq<byte>): (u: seq<byte>)
    ensures |u| == |a|
  {
    seq(|a|, i requires 0 <= i < |a| => if Scoped(a) && (i == 2 || i == 3) then 0 else a[i])
  }

  /** Up, and not of a host, rejecting, link-layer, discarding, cloned, local, broadcast, multicast or
      interface-scoped. */
  ghost predicate Relevant(m: RouteMessage)
    requires Encodable(m)
  {
    && m.version == 5 && m.flags[0]
    && !m.flags[2] && !m.flags[3] && !m.flags[10] && !m.flags[12] && !m.flags[17]
    && !m.flags[21] && !m.flags[22] && !m.flags[23] && !m.flags[24]
  }

  ghost predicate IsFirst(links: seq<Link>, i: nat, index: nat) {
    i < |links| && links[i].index == index && forall j :: 0 <= j < i ==> links[j].index != index
  }

  ghost predicate OverLink(links: seq<Link>, index: nat) {
    index != 0 && exists i: nat :: IsFirst(links, i, index) && !links[i].loopback
  }

  /** p ones stand in front in the mask. */
  ghost predicate OnesInFront(mask: seq<byte>, p: nat) {
    var n := 8 * |mask|;
    p <= n && Number(mask) >= Two(n) - Two(n - p) && (p < n ==> Number(mask) < Two(n) - Two(n - p - 1))
  }

  ghost predicate PrefixSaid(slot: Option<Socket>, family: nat, p: nat) {
    match slot
    case None => p == if family == 2 then 32 else 128
    case Some(s) => OnesInFront(AddressOf(s, family), p)
  }

  ghost predicate DestinationSaid(s: Socket, family: nat, p: nat, d: seq<byte>) {
    var a := Scopeless(AddressOf(s, family));
    |d| == |a| && p <= 8 * |a| && Number(d) == Number(a) - Number(a) % Two(8 * |a| - p)
  }

  ghost predicate GatewaySaid(m: RouteMessage, family: nat, gateway: Option<seq<byte>>)
    requires Encodable(m)
  {
    if m.flags[1] && OfFamily(m.slots[1], family)
    then gateway == Some(Scopeless(AddressOf(m.slots[1].value, family)))
    else gateway == None
  }

  /** The route the message tells of. */
  ghost predicate Says(links: seq<Link>, family: nat, m: RouteMessage, r: Route) {
    && Encodable(m) && Relevant(m) && OfFamily(m.slots[0], family) && OverLink(links, m.index)
    && r.family == family && r.ifindex == m.index && !r.kernel && r.src == None
    && r.dstLen >= 0 && PrefixSaid(m.slots[2], family, r.dstLen)
    && DestinationSaid(m.slots[0].value, family, r.dstLen, r.dst)
    && GatewaySaid(m, family, r.gateway)
    && (if family == 2 then r.dst[0] / 16 != 14 else r.dst[0] != 255)
    && (r.gateway == None ==> r.dstLen < if family == 2 then 32 else 128)
  }

  ghost predicate Readable(m: RouteMessage, family: nat) {
    && Encodable(m)
    && (OfFamily(m.slots[0], family) ==> Shaped(m.slots[0].value, family))
    && (OfFamily(m.slots[1], family) ==> Shaped(m.slots[1].value, family))
    && (m.slots[2].Some? ==> Shaped(m.slots[2].value, family))
  }

  // ---- reading the bits and numbers

  lemma HalfOfHalves(b: nat, y: nat, p: nat)
    requires b < 2 && p > 0
    ensures (b + 2 * y) / (2 * p) == y / p
  {
    var q, r := y / p, y % p;
    assert y == q * p + r;
    assert b + 2 * y == q * (2 * p) + (2 * r + b);
    NetPrefix.Remainder(b + 2 * y, 2 * p, q, 2 * r + b);
    var d := (b + 2 * y) / (2 * p) - q;
    assert d * (2 * p) == 0;
    NetPrefix.AtLeastOne(d, 2 * p);
  }

  lemma {:induction false} FlagIs(bits: seq<bool>, k: nat)
    requires k < |bits|
    ensures Flag(Value(bits), Two(k)) <==> bits[k]
    decreases k
  {
    if k > 0 {
      FlagIs(bits[1..], k - 1);
      HalfOfHalves(if bits[0] then 1 else 0, Value(bits[1..]), Two(k - 1));
    }
  }

  lemma {:induction false} ValueBelow(bits: seq<bool>)
    ensures Value(bits) < Two(|bits|)
  {
    if bits != [] { ValueBelow(bits[1..]); }
  }

  lemma Powers()
    ensures Two(0) == 1 && Two(1) == 2 && Two(2) == 4 && Two(3) == 8
    ensures Two(10) == 0x400 && Two(12) == 0x1000 && Two(17) == 0x20000
    ensures Two(21) == 0x200000 && Two(22) == 0x400000 && Two(23) == 0x800000 && Two(24) == 0x1000000
    ensures Two(32) == 0x1_0000_0000
  {
    TwoEight(0);
    TwoEight(2);
    TwoFour(8);
    TwoEight(8);
    TwoEight(16);
    TwoEight(24);
    assert Two(17) == 2 * Two(16);
    TwoFour(17);
    assert Two(22) == 2 * Two(21) && Two(23) == 2 * Two(22);
  }

  lemma WantedIs(m: RouteMessage)
    requires Encodable(m)
    ensures Wanted(m.version, Value(m.flags)) <==> Relevant(m)
  {
    Powers();
    FlagIs(m.flags, 0);
    FlagIs(m.flags, 2);
    FlagIs(m.flags, 3);
    FlagIs(m.flags, 10);
    FlagIs(m.flags, 12);
    FlagIs(m.flags, 17);
    FlagIs(m.flags, 21);
    FlagIs(m.flags, 22);
    FlagIs(m.flags, 23);
    FlagIs(m.flags, 24);
    hide Flag, Value, Two;
  }

  lemma Word(x: nat)
    requires x < 65536
    ensures LittleEndian(x, 2) == [x % 256, x / 256]
  {
    assert LittleEndian(x / 256, 1) == [x / 256] + LittleEndian(x / 65536, 0);
  }

  lemma LongWord(x: nat)
    requires x < 0x1_0000_0000
    ensures LittleEndian(x, 4) == [x % 256, x / 256 % 256, x / 65536 % 256, x / 16777216]
  {
    assert LittleEndian(x, 4) == [x % 256] + LittleEndian(x / 256, 3);
    assert LittleEndian(x / 256, 3) == [x / 256 % 256] + LittleEndian(x / 65536, 2);
    Word(x / 65536);
    assert x / 65536 / 256 == x / 16777216;
  }

  lemma ReadsWord(buf: seq<byte>, i: nat, x: nat)
    requires x < 65536 && Stands(buf, i, LittleEndian(x, 2))
    ensures i + 2 <= |buf| && U16(buf, i) == x
  {
    Word(x);
    assert buf[i] == buf[i..i + 2][0] && buf[i + 1] == buf[i..i + 2][1];
  }

  lemma ReadsLongWord(buf: seq<byte>, i: nat, x: nat)
    requires x < 0x1_0000_0000 && Stands(buf, i, LittleEndian(x, 4))
    ensures i + 4 <= |buf| && U32(buf, i) == x
  {
    LongWord(x);
    var s := buf[i..i + 4];
    assert buf[i] == s[0] && buf[i + 1] == s[1] && buf[i + 2] == s[2] && buf[i + 3] == s[3];
  }

  /** `w` stands at c. */
  ghost predicate Stands(buf: seq<byte>, c: nat, w: seq<byte>) {
    c + |w| <= |buf| && buf[c..c + |w|] == w
  }

  lemma Part(buf: seq<byte>, c: nat, w: seq<byte>, i: nat, j: nat)
    requires Stands(buf, c, w) && i <= j <= |w|
    ensures Stands(buf, c + i, w[i..j])
  {
    var t := buf[c..c + |w|];
    forall k | 0 <= k < j - i
      ensures buf[c + i..c + j][k] == w[i..j][k]
    {
      assert buf[c + i..c + j][k] == t[i + k];
    }
  }

  lemma HeaderParts(m: RouteMessage)
    requires Encodable(m)
    ensures var h := Header(m);
      && h[0..2] == LittleEndian(92 + |SlotBytes(m.slots)| + |m.rest|, 2) && h[2] == m.version
      && h[4..6] == LittleEndian(m.index, 2)
      && h[8..12] == LittleEndian(Value(m.flags), 4)
      && h[12..16] == LittleEndian(Value(Used(m.slots) + m.upper), 4)
  {
    hide LittleEndian, Value, Used, SlotBytes, AllPacked;
  }

  lemma WordAt(buf: seq<byte>, c: nat, h: seq<byte>, i: nat, x: nat)
    requires Stands(buf, c, h) && i + 2 <= |h| && x < 65536 && h[i..i + 2] == LittleEndian(x, 2)
    ensures c + i + 2 <= |buf| && U16(buf, c + i) == x
  {
    hide *;
    Part(buf, c, h, i, i + 2);
    ReadsWord(buf, c + i, x);
  }

  lemma LongWordAt(buf: seq<byte>, c: nat, h: seq<byte>, i: nat, x: nat)
    requires Stands(buf, c, h) && i + 4 <= |h| && x < 0x1_0000_0000 && h[i..i + 4] == LittleEndian(x, 4)
    ensures c + i + 4 <= |buf| && U32(buf, c + i) == x
  {
    hide *;
    Part(buf, c, h, i, i + 4);
    ReadsLongWord(buf, c + i, x);
  }

  lemma BitsFit(m: RouteMessage)
    requires Encodable(m)
    ensures Value(m.flags) < 0x1_0000_0000 && Value(Used(m.slots) + m.upper) < 0x1_0000_0000
  {
    Powers();
    ValueBelow(m.flags);
    ValueBelow(Used(m.slots) + m.upper);
    hide Value, Two;
  }

  lemma ReadsHeader(buf: seq<byte>, c: nat, m: RouteMessage)
    requires Encodable(m) && Stands(buf, c, Header(m))
    ensures c + 92 <= |buf| && U16(buf, c) == |MessageBytes(m)| && buf[c + 2] == m.version && U16(buf, c + 4) == m.index
    ensures U32(buf, c + 8) == Value(m.flags) && U32(buf, c + 12) == Value(Used(m.slots) + m.upper)
  {
    BitsFit(m);
    var h, size := Header(m), |MessageBytes(m)|;
    assert m.index < 65536 && size < 65536 && c + 92 <= |buf|;
    assert buf[c + 2] == buf[c..c + 92][2];
    HeaderParts(m);
    hide *;
    WordAt(buf, c, h, 0, size);
    WordAt(buf, c, h, 4, m.index);
    LongWordAt(buf, c, h, 8, Value(m.flags));
    LongWordAt(buf, c, h, 12, Value(Used(m.slots) + m.upper));
  }

  // ---- reading the socket addresses

  /** A slot as the code copies it into its storage. */
  ghost function Image(slot: Option<Socket>): (sa: seq<byte>)
    requires slot.Some? ==> Packed(slot.value)
    ensures |sa| == STORAGE
  {
    match slot
    case None => Zeros(STORAGE)
    case Some(s) =>
      var b := SocketBytes(s);
      Copied(b, 0, if b[0] < STORAGE then b[0] else STORAGE)
  }

  lemma SpanIs(s: Socket)
    requires Packed(s)
    ensures |SocketBytes(s)| == Span(SocketBytes(s)[0]) >= 4
  {
    if s.Socket? {
      var len := 2 + |s.head| + |s.addr| + |s.tail|;
      assert (len + 3) / 4 * 4 == len + |s.pad|;
    }
  }

  lemma SlotBytesStep(slots: seq<Option<Socket>>)
    requires AllPacked(slots) && slots != []
    ensures AllPacked(slots[1..]) && (slots[0].Some? ==> Packed(slots[0].value))
    ensures slots[0].None? ==> SlotBytes(slots) == SlotBytes(slots[1..])
    ensures slots[0].Some? ==> SlotBytes(slots) == SocketBytes(slots[0].value) + SlotBytes(slots[1..])
  {
    assert slots[0].None? ==> [] + SlotBytes(slots[1..]) == SlotBytes(slots[1..]);
  }

  lemma {:induction false} NoBytesNoSlots(slots: seq<Option<Socket>>, j: nat)
    requires AllPacked(slots) && SlotBytes(slots) == [] && j < |slots|
    ensures slots[j].None?
  {
    SlotBytesStep(slots);
    if slots[0].Some? { SpanIs(slots[0].value); }
    if j > 0 { NoBytesNoSlots(slots[1..], j - 1); }
  }

  lemma CopiedFrom(buf: seq<byte>, sp: nat, b: seq<byte>, copy: nat)
    requires Stands(buf, sp, b) && copy <= |b| && copy <= STORAGE
    ensures Copied(buf, sp, copy) == Copied(b, 0, copy)
  {
    Part(buf, sp, b, 0, copy);
  }

  lemma Splits(buf: seq<byte>, sp: nat, a: seq<byte>, b: seq<byte>)
    requires Stands(buf, sp, a + b)
    ensures Stands(buf, sp, a) && Stands(buf, sp + |a|, b)
  {
    Part(buf, sp, a + b, 0, |a|);
    Part(buf, sp, a + b, |a|, |a + b|);
    assert (a + b)[0..|a|] == a && (a + b)[|a|..] == b;
  }

  ghost predicate Flagged(present: nat, slots: seq<Option<Socket>>, i: nat)
    requires i + |slots| == 8
  {
    forall j :: 0 <= j < |slots| ==> (Flag(present, PowerOf(i + j)) <==> slots[j].Some?)
  }

  lemma FlaggedBehind(present: nat, slots: seq<Option<Socket>>, i: nat)
    requires i + |slots| == 8 && slots != [] && Flagged(present, slots, i)
    ensures Flag(present, PowerOf(i)) <==> slots[0].Some?
    ensures Flagged(present, slots[1..], i + 1)
  {
    hide Flag, PowerOf;
    assert Flag(present, PowerOf(i + 0)) <==> slots[0].Some?;
    forall j | 0 <= j < |slots[1..]|
      ensures Flag(present, PowerOf(i + 1 + j)) <==> slots[1..][j].Some?
    {
      assert slots[1..][j] == slots[j + 1] && i + 1 + j == i + (j + 1);
    }
  }

  /** The code finds each socket address where the layout puts it. */
  lemma {:induction false} SlotAt(buf: seq<byte>, sp: nat, next: nat, present: nat, slots: seq<Option<Socket>>,
                                  i: nat, k: nat)
    requires AllPacked(slots) && i + |slots| == 8 && i <= k < 8 && Flagged(present, slots, i)
    requires sp + |SlotBytes(slots)| <= next <= |buf| && Stands(buf, sp, SlotBytes(slots))
    ensures AddressAt(buf, sp, next, present, i, k) == Image(slots[k - i])
    decreases |slots|
  {
    hide Flag, PowerOf, Copied, Span, SocketBytes, SlotBytes, Packed, Flagged, Stands;
    SlotBytesStep(slots);
    FlaggedBehind(present, slots, i);
    if sp >= next {
      NoBytesNoSlots(slots, k - i);
    } else {
      match slots[0] {
        case None =>
          if k > i { SlotAt(buf, sp, next, present, slots[1..], i + 1, k); }
        case Some(s) =>
          var b := SocketBytes(s);
          SpanIs(s);
          Splits(buf, sp, b, SlotBytes(slots[1..]));
          FirstByte(buf, sp, b);
          SpanCovers(b[0]);
          CopiedFrom(buf, sp, b, if b[0] < STORAGE then b[0] else STORAGE);
          if k > i { SlotAt(buf, sp + |b|, next, present, slots[1..], i + 1, k); }
      }
    }
  }

  lemma FirstByte(buf: seq<byte>, sp: nat, b: seq<byte>)
    requires Stands(buf, sp, b) && b != []
    ensures sp < |buf| && buf[sp] == b[0]
  {
    assert buf[sp] == buf[sp..sp + |b|][0];
  }

  lemma SpanCovers(len: nat)
    ensures Span(len) >= len
  {
  }

  lemma ImageFamily(slot: Option<Socket>, family: nat)
    requires slot.Some? ==> Packed(slot.value)
    ensures slot.Some? ==> (FamilyOf(Image(slot)) == family <==> OfFamily(slot, family))
  {
  }

  lemma ImageAddress(s: Socket, family: nat)
    requires Packed(s) && Shaped(s, family)
    ensures AddressPart(Image(Some(s)), family) == AddressOf(s, family)
  {
    var a, b := AddressPart(Image(Some(s)), family), AddressOf(s, family);
    var at := if family == 2 then 4 else 8;
    forall i | 0 <= i < |a|
      ensures a[i] == b[i]
    {
      assert a[i] == Image(Some(s))[at + i];
      if s.Socket? && i < |s.addr| {
        assert SocketBytes(s)[at + i] == s.addr[i];
      }
    }
  }

  // ---- what is read is what is said

  lemma LeadingOnesSaid(a: seq<byte>, p: nat)
    ensures NetPrefix.LeadingOnes(a) == p <==> OnesInFront(a, p)
  {
    var n := NetPrefix.LeadingOnes(a);
    NetPrefix.LeadingOnesAre(a);
    hide NetPrefix.LeadingOnes, Number, Two, NetPrefix.AddressBit;
    if p <= 8 * |a| { LeadingOnesIff(a, p); }
    if p < 8 * |a| { LeadingOnesIff(a, p + 1); }
  }

  lemma UnscopedIs(a: seq<byte>, family: nat)
    requires |a| == Size(family)
    ensures Unscoped(a, family) == Scopeless(a)
  {
    var u, v := Unscoped(a, family), Scopeless(a);
    assert |a| == 16 ==> (a[1] / 64 == 2 <==> 0x80 <= a[1] < 0xc0);
    if Scoped(a) {
      assert u == a[2 := 0][3 := 0];
    } else {
      assert u == a;
    }
  }

  lemma {:induction false} LinkIff(links: seq<Link>, index: nat)
    ensures (LinkByIndex(links, index).Some? && !LinkByIndex(links, index).value.loopback) <==> OverLink(links, index)
  {
    if index != 0 && links != [] {
      if links[0].index == index {
        assert IsFirst(links, 0, index);
      } else {
        LinkIff(links[1..], index);
        if OverLink(links[1..], index) {
          var i: nat :| IsFirst(links[1..], i, index) && !links[1..][i].loopback;
          assert forall j :: 0 < j < i + 1 ==> links[j] == links[1..][j - 1];
          assert IsFirst(links, i + 1, index);
        }
        if OverLink(links, index) {
          var i: nat :| IsFirst(links, i, index) && !links[i].loopback;
          assert IsFirst(links[1..], i - 1, index);
        }
      }
    }
  }

  lemma SlotFlags(m: RouteMessage, k: nat)
    requires Encodable(m) && k < 8
    ensures Flag(Value(Used(m.slots) + m.upper), PowerOf(k)) <==> m.slots[k].Some?
  {
    assert PowerOf(k) == Two(k) by { SmallPowers(k); }
    FlagIs(Used(m.slots) + m.upper, k);
  }

  lemma SmallPowers(k: nat)
    requires k < 8
    ensures PowerOf(k) == Two(k)
  {
    assert Two(1) == 2 && Two(2) == 4 && Two(3) == 8 && Two(4) == 16 && Two(5) == 32;
    assert Two(6) == 64 && Two(7) == 128;
  }

  lemma PrefixLengthSaid(slot: Option<Socket>, family: nat, p: nat)
    requires slot.Some? ==> Packed(slot.value) && Shaped(slot.value, family)
    ensures PrefixSaid(slot, family, p) <==>
      p == if slot.Some? then NetPrefix.LeadingOnes(AddressPart(Image(slot), family)) else Full(family)
    ensures PrefixSaid(slot, family, p) ==> p <= Full(family)
  {
    hide NetPrefix.LeadingOnes, OnesInFront, AddressPart, Image, AddressOf;
    if slot.Some? {
      ImageAddress(slot.value, family);
      LeadingOnesSaid(AddressOf(slot.value, family), p);
      NetPrefix.LeadingOnesAre(AddressOf(slot.value, family));
    }
  }

  lemma DestinationIff(s: Socket, family: nat, p: nat, d: seq<byte>)
    requires Packed(s) && Shaped(s, family) && p <= Full(family)
    ensures DestinationSaid(s, family, p, d) <==>
      d == Prefix(Unscoped(AddressPart(Image(Some(s)), family), family), p)
  {
    hide Prefix, Image, Unscoped, AddressPart, AddressOf, Scopeless, Packed, Shaped;
    ImageAddress(s, family);
    UnscopedIs(AddressOf(s, family), family);
    PrefixIff(Scopeless(AddressOf(s, family)), p, d);
    hide Number, Two;
  }

  lemma GatewayIff(m: RouteMessage, family: nat, gateway: Option<seq<byte>>)
    requires Readable(m, family)
    ensures var gw := Image(m.slots[1]);
      GatewaySaid(m, family, gateway) <==>
        gateway == if m.flags[1] && m.slots[1].Some? && FamilyOf(gw) == family
                   then Some(Unscoped(AddressPart(gw, family), family)) else None
  {
    ImageFamily(m.slots[1], family);
    if OfFamily(m.slots[1], family) {
      var s := m.slots[1].value;
      ImageAddress(s, family);
      UnscopedIs(AddressOf(s, family), family);
    }
    hide Image, Unscoped, AddressPart, AddressOf, Scopeless, FamilyOf;
  }

  lemma DescribedIff(links: seq<Link>, family: nat, index: nat, flags: nat, present: nat,
                     dst: seq<byte>, gw: seq<byte>, mask: seq<byte>, r: Route)
    requires |dst| == |gw| == |mask| == STORAGE
    ensures var link := LinkByIndex(links, index);
      Described(links, family, index, flags, present, dst, gw, mask) == Some(r) <==>
        && Flag(present, 1) && FamilyOf(dst) == family && link.Some? && !link.value.loopback
        && r.family == family && r.ifindex == index && !r.kernel && r.src == None
        && r.dstLen == (if Flag(present, 4) then NetPrefix.LeadingOnes(AddressPart(mask, family)) else Full(family))
        && r.dst == Prefix(Unscoped(AddressPart(dst, family), family), r.dstLen)
        && r.gateway == (if Flag(flags, RTF_GATEWAY) && Flag(present, 2) && FamilyOf(gw) == family
                         then Some(Unscoped(AddressPart(gw, family), family)) else None)
        && !IsMulticast(r.dst, family) && (r.gateway == None ==> r.dstLen != Full(family))
  {
    hide Prefix, LinkByIndex, Flag, FamilyOf, NetPrefix.LeadingOnes, AddressPart, Unscoped, IsMulticast, Full;
  }

  ghost predicate PartsRead(m: RouteMessage, family: nat, r: Route)
    requires Readable(m, family) && m.slots[0].Some?
  {
    var dst, gw, mask := Image(m.slots[0]), Image(m.slots[1]), Image(m.slots[2]);
    && r.dstLen == (if m.slots[2].Some? then NetPrefix.LeadingOnes(AddressPart(mask, family)) else Full(family))
    && r.dst == Prefix(Unscoped(AddressPart(dst, family), family), r.dstLen)
    && r.gateway == (if m.flags[1] && m.slots[1].Some? && FamilyOf(gw) == family
                     then Some(Unscoped(AddressPart(gw, family), family)) else None)
  }

  lemma PartsIff(m: RouteMessage, family: nat, r: Route)
    requires Readable(m, family) && OfFamily(m.slots[0], family)
    ensures PartsRead(m, family, r) <==>
      && r.dstLen >= 0 && PrefixSaid(m.slots[2], family, r.dstLen)
      && DestinationSaid(m.slots[0].value, family, r.dstLen, r.dst) && GatewaySaid(m, family, r.gateway)
  {
    GatewayIff(m, family, r.gateway);
    if r.dstLen >= 0 {
      PrefixLengthSaid(m.slots[2], family, r.dstLen);
      if PrefixSaid(m.slots[2], family, r.dstLen) {
        DestinationIff(m.slots[0].value, family, r.dstLen, r.dst);
      }
    }
    hide Image, Unscoped, AddressPart, FamilyOf, Prefix, NetPrefix.LeadingOnes, Full;
    hide PrefixSaid, DestinationSaid, GatewaySaid, OfFamily, Shaped;
  }

  lemma SlotsFlagged(m: RouteMessage)
    requires Encodable(m)
    ensures var present := Value(Used(m.slots) + m.upper);
      && (Flag(present, 1) <==> m.slots[0].Some?) && (Flag(present, 2) <==> m.slots[1].Some?)
      && (Flag(present, 4) <==> m.slots[2].Some?) && (Flag(Value(m.flags), RTF_GATEWAY) <==> m.flags[1])
  {
    Powers();
    SlotFlags(m, 0);
    SlotFlags(m, 1);
    SlotFlags(m, 2);
    FlagIs(m.flags, 1);
    hide Flag, Value, Two;
  }

  /** The addresses the code has read describe the route the message tells of. */
  lemma DescribedIsSaid(links: seq<Link>, family: nat, m: RouteMessage, r: Route)
    requires Readable(m, family) && Relevant(m)
    ensures var o := Described(links, family, m.index, Value(m.flags), Value(Used(m.slots) + m.upper),
                               Image(m.slots[0]), Image(m.slots[1]), Image(m.slots[2]));
      o == Some(r) <==> Says(links, family, m, r)
  {
    SlotsFlagged(m);
    LinkIff(links, m.index);
    ImageFamily(m.slots[0], family);
    if OfFamily(m.slots[0], family) { PartsIff(m, family, r); }
    DescribedIff(links, family, m.index, Value(m.flags), Value(Used(m.slots) + m.upper),
                 Image(m.slots[0]), Image(m.slots[1]), Image(m.slots[2]), r);
    hide Described, Image, Unscoped, AddressPart, FamilyOf, Flag, Value, Used, Two, Prefix, Shaped, Relevant;
    hide NetPrefix.LeadingOnes, LinkByIndex, OverLink, PrefixSaid, DestinationSaid, GatewaySaid, OfFamily;
  }

  lemma MessageParts(buf: seq<byte>, c: nat, m: RouteMessage)
    requires Encodable(m) && Stands(buf, c, MessageBytes(m))
    ensures Stands(buf, c, Header(m)) && Stands(buf, c + 92, SlotBytes(m.slots)) && AllPacked(m.slots)
    ensures 92 + |SlotBytes(m.slots)| <= |MessageBytes(m)| <= |buf| - c
  {
    var h, s := Header(m), SlotBytes(m.slots);
    assert c + |MessageBytes(m)| <= |buf| && |h| == 92;
    hide *;
    Splits(buf, c, h + s, m.rest);
    Splits(buf, c, h, s);
  }

  lemma AllFlagged(m: RouteMessage)
    requires Encodable(m)
    ensures Flagged(Value(Used(m.slots) + m.upper), m.slots, 0)
  {
    forall j | 0 <= j < 8
      ensures Flag(Value(Used(m.slots) + m.upper), PowerOf(0 + j)) <==> m.slots[j].Some?
    {
      SlotFlags(m, j);
    }
    hide Flag, PowerOf, Value, Used;
  }

  lemma AddressFound(buf: seq<byte>, sp: nat, next: nat, present: nat, slots: seq<Option<Socket>>, k: nat)
    requires AllPacked(slots) && |slots| == 8 && k < 8 && Flagged(present, slots, 0)
    requires Stands(buf, sp, SlotBytes(slots)) && sp + |SlotBytes(slots)| <= next <= |buf|
    ensures AddressAt(buf, sp, next, present, 0, k) == Image(slots[k])
  {
    hide *;
    SlotAt(buf, sp, next, present, slots, 0, k);
  }

  lemma RouteRead(links: seq<Link>, family: nat, m: RouteMessage, buf: seq<byte>, c: nat)
    requires Encodable(m) && Stands(buf, c, MessageBytes(m))
    ensures Message(buf, c) && U16(buf, c) == |MessageBytes(m)|
    ensures MessageRoute(links, family, buf, c) ==
      if !Relevant(m) then None
      else Described(links, family, m.index, Value(m.flags), Value(Used(m.slots) + m.upper), Image(m.slots[0]),
                     Image(m.slots[1]), Image(m.slots[2]))
  {
    var next, present := c + |MessageBytes(m)|, Value(Used(m.slots) + m.upper);
    MessageParts(buf, c, m);
    ReadsHeader(buf, c, m);
    WantedIs(m);
    AllFlagged(m);
    AddressFound(buf, c + HEADER, next, present, m.slots, 0);
    AddressFound(buf, c + HEADER, next, present, m.slots, 1);
    AddressFound(buf, c + HEADER, next, present, m.slots, 2);
    hide Header, MessageBytes, SlotBytes, Value, Used, Described, AddressAt, Image, U16, U32, Wanted, Relevant;
    hide Encodable, Stands, AllPacked, Flagged;
  }

  /** A message the code finds at c is read as the route it tells of, or as none. */
  lemma MessageIsSaid(links: seq<Link>, family: nat, m: RouteMessage, buf: seq<byte>, c: nat, r: Route)
    requires Readable(m, family) && Stands(buf, c, MessageBytes(m))
    ensures Message(buf, c) && U16(buf, c) == |MessageBytes(m)|
    ensures MessageRoute(links, family, buf, c) == Some(r) <==> Says(links, family, m, r)
  {
    RouteRead(links, family, m, buf, c);
    hide MessageRoute, Described, MessageBytes, Value, Used, Image;
    if Relevant(m) {
      hide Says, Relevant, Message;
      DescribedIsSaid(links, family, m, r);
    }
  }

  // ---- the dump

  ghost function Somes(os: seq<Option<Route>>): seq<Route> {
    if os == [] then [] else (match os[0] case None => [] case Some(r) => [r]) + Somes(os[1..])
  }

  ghost predicate AllReadable(ms: seq<RouteMessage>, family: nat)
    ensures AllReadable(ms, family) ==> AllEncodable(ms)
  {
    forall i :: 0 <= i < |ms| ==> Readable(ms[i], family)
  }

  /** The i-th message tells of the i-th route, if of any. */
  ghost predicate AllSaid(links: seq<Link>, family: nat, ms: seq<RouteMessage>, os: seq<Option<Route>>) {
    && |os| == |ms|
    && forall i, r :: 0 <= i < |ms| ==> (os[i] == Some(r) <==> Says(links, family, ms[i], r))
  }

  lemma FirstSaid(links: seq<Link>, family: nat, m: RouteMessage, o: Option<Route>,
                  ms: seq<RouteMessage>, os: seq<Option<Route>>)
    requires AllSaid(links, family, ms, os) && forall r :: o == Some(r) <==> Says(links, family, m, r)
    ensures AllSaid(links, family, [m] + ms, [o] + os)
  {
    hide Says;
  }

  lemma RouteSaid(links: seq<Link>, family: nat, m: RouteMessage, buf: seq<byte>, c: nat)
    requires Readable(m, family) && Stands(buf, c, MessageBytes(m))
    ensures Message(buf, c) && U16(buf, c) == |MessageBytes(m)|
    ensures forall r :: MessageRoute(links, family, buf, c) == Some(r) <==> Says(links, family, m, r)
  {
    RouteRead(links, family, m, buf, c);
    hide *;
    forall r
      ensures MessageRoute(links, family, buf, c) == Some(r) <==> Says(links, family, m, r)
    {
      MessageIsSaid(links, family, m, buf, c, r);
    }
  }

  lemma DumpRoutesStep(links: seq<Link>, family: nat, buf: seq<byte>, c: nat, os: seq<Option<Route>>)
    requires Message(buf, c) && DumpRoutes(links, family, buf, c + U16(buf, c)) == Somes(os)
    ensures DumpRoutes(links, family, buf, c) == Somes([MessageRoute(links, family, buf, c)] + os)
  {
    var o := MessageRoute(links, family, buf, c);
    assert ([o] + os)[1..] == os;
    hide MessageRoute, Message, U16;
  }

  lemma FirstMessage(links: seq<Link>, family: nat, m: RouteMessage, buf: seq<byte>, c: nat,
                     ms: seq<RouteMessage>, os: seq<Option<Route>>) returns (o: Option<Route>)
    requires Readable(m, family) && Stands(buf, c, MessageBytes(m))
    requires AllSaid(links, family, ms, os) && DumpRoutes(links, family, buf, c + |MessageBytes(m)|) == Somes(os)
    ensures AllSaid(links, family, [m] + ms, [o] + os)
    ensures DumpRoutes(links, family, buf, c) == Somes([o] + os)
  {
    hide *;
    RouteSaid(links, family, m, buf, c);
    DumpRoutesStep(links, family, buf, c, os);
    o := MessageRoute(links, family, buf, c);
    FirstSaid(links, family, m, o, ms, os);
  }

  lemma DumpBytesStep(ms: seq<RouteMessage>, family: nat)
    requires AllReadable(ms, family) && ms != []
    ensures Readable(ms[0], family) && AllReadable(ms[1..], family) && Encodable(ms[0])
    ensures DumpBytes(ms) == MessageBytes(ms[0]) + DumpBytes(ms[1..])
  {
    hide Readable, MessageBytes, Encodable;
  }

  lemma NoMessages(links: seq<Link>, family: nat, buf: seq<byte>, c: nat)
    requires |buf| < c + |DumpBytes([])| + 92
    ensures AllSaid(links, family, [], []) && DumpRoutes(links, family, buf, c) == Somes([])
  {
  }

  lemma {:induction false} MessagesAt(links: seq<Link>, family: nat, ms: seq<RouteMessage>, buf: seq<byte>, c: nat)
    returns (os: seq<Option<Route>>)
    requires AllReadable(ms, family)
    requires Stands(buf, c, DumpBytes(ms)) && |buf| < c + |DumpBytes(ms)| + 92
    ensures AllSaid(links, family, ms, os) && DumpRoutes(links, family, buf, c) == Somes(os)
    decreases |ms|
  {
    hide *;
    if ms == [] {
      os := [];
      NoMessages(links, family, buf, c);
    } else {
      var m, rest := ms[0], ms[1..];
      DumpBytesStep(ms, family);
      Splits(buf, c, MessageBytes(m), DumpBytes(rest));
      var later := MessagesAt(links, family, rest, buf, c + |MessageBytes(m)|);
      var o := FirstMessage(links, family, m, buf, c, rest, later);
      os := [o] + later;
      assert [m] + rest == ms;
    }
  }

  lemma Starts(a: seq<byte>, b: seq<byte>)
    ensures Stands(a + b, 0, a)
  {
  }

  /** The dump of any list of messages, with what is left of a cut-off one behind them, yields the routes the messages
      tell of, in order. */
  lemma DumpIsSaid(links: seq<Link>, family: nat, ms: seq<RouteMessage>, rest: seq<byte>)
    returns (os: seq<Option<Route>>)
    requires AllReadable(ms, family) && |rest| < 92
    ensures AllSaid(links, family, ms, os) && DumpRoutes(links, family, DumpBytes(ms) + rest, 0) == Somes(os)
  {
    hide *;
    var buf := DumpBytes(ms) + rest;
    assert Stands(buf, 0, DumpBytes(ms)) by { Starts(DumpBytes(ms), rest); }
    os := MessagesAt(links, family, ms, buf, 0);
  }

  lemma {:induction false} SomesAre(os: seq<Option<Route>>, r: Route)
    ensures r in Somes(os) <==> Some(r) in os
  {
    if os != [] {
      SomesAre(os[1..], r);
      assert os == [os[0]] + os[1..];
    }
  }

  ghost predicate SaidByOne(links: seq<Link>, family: nat, ms: seq<RouteMessage>, r: Route) {
    exists i :: 0 <= i < |ms| && Says(links, family, ms[i], r)
  }

  lemma SaidInSomes(links: seq<Link>, family: nat, ms: seq<RouteMessage>, os: seq<Option<Route>>, r: Route)
    requires AllSaid(links, family, ms, os)
    ensures r in Somes(os) <==> SaidByOne(links, family, ms, r)
  {
    SomesAre(os, r);
    hide Says, Somes;
  }

  lemma DumpYields(links: seq<Link>, family: nat, ms: seq<RouteMessage>, rest: seq<byte>, r: Route)
    requires AllReadable(ms, family) && |rest| < 92
    ensures r in DumpRoutes(links, family, DumpBytes(ms) + rest, 0) <==> SaidByOne(links, family, ms, r)
  {
    hide *;
    var os := DumpIsSaid(links, family, ms, rest);
    SaidInSomes(links, family, ms, os, r);
  }

  /** Reading the dump into a table adds the routes its messages tell of and no other. */
  lemma DumpAdds(links: seq<Link>, family: nat, ms: seq<RouteMessage>, rest: seq<byte>, routes: seq<Route>)
    requires AllReadable(ms, family) && |rest| < 92
    ensures var after := AllAdded(routes, DumpRoutes(links, family, DumpBytes(ms) + rest, 0));
      && routes <= after
      && (forall r :: r in after ==> r in routes || SaidByOne(links, family, ms, r))
      && forall r :: SaidByOne(links, family, ms, r) ==> Has(after, r)
  {
    hide *;
    forall r
      ensures r in DumpRoutes(links, family, DumpBytes(ms) + rest, 0) <==> SaidByOne(links, family, ms, r)
    {
      DumpYields(links, family, ms, rest, r);
    }
    AddingKeeps(routes, DumpRoutes(links, family, DumpBytes(ms) + rest, 0));
  }
}
