/** The route table (src/common/net_snapshot.c:92-100, 142-162, 175-332).
    Addresses are 4 bytes in IPv4 and 16 in IPv6; the fixed arrays of 16 the code keeps them in are zero behind that. */
module NetRoutes {
  import opened Bytes
  import opened NetNumber
  import opened NetPrefix
  import opened Wrappers

  const AF_INET: nat := 2

  const HEADER: nat := 92
  const RTM_VERSION: nat := 5
  const RTAX_MAX: nat := 8
  const STORAGE: nat := 128

  const RTF_UP: nat := 0x1
  const RTF_GATEWAY: nat := 0x2
  /** Host, cloned, link-layer, local, broadcast, multicast, interface-scoped, rejecting and discarding routes. */
  const SKIPPED: seq<nat> := [0x4, 0x400, 0x20000, 0x200000, 0x400000, 0x800000, 0x1000000, 0x8, 0x1000]

  datatype Address = Address(family: nat, addr: seq<byte>, prefixLen: int, peer: Option<seq<byte>>)

  datatype Link = Link(index: nat, loopback: bool, addrs: seq<Address>)

  datatype Route = Route(family: nat, dst: seq<byte>, dstLen: int, gateway: Option<seq<byte>>, ifindex: nat,
                         kernel: bool, src: Option<seq<byte>>)

  function Size(family: nat): nat {
    if family == AF_INET then 4 else 16
  }

  function Full(family: nat): nat {
    8 * Size(family)
  }

  // ---- adding routes

  /** What makes two routes one: everything but their origin and source. */
  predicate SameRoute(r: Route, s: Route): (same: bool)
    ensures same <==> r.(kernel := s.kernel, src := s.src) == s
  {
    r.family == s.family && r.dstLen == s.dstLen && r.ifindex == s.ifindex && r.dst == s.dst && r.gateway == s.gateway
  }

  ghost predicate Has(routes: seq<Route>, r: Route) {
    exists i :: 0 <= i < |routes| && SameRoute(routes[i], r)
  }

  ghost function Added(routes: seq<Route>, r: Route): seq<Route> {
    if Has(routes, r) then routes else routes + [r]
  }

  ghost function AllAdded(routes: seq<Route>, more: seq<Route>): seq<Route> {
    if more == [] then routes else Added(AllAdded(routes, more[..|more| - 1]), more[|more| - 1])
  }

  ghost predicate NoDuplicates(routes: seq<Route>) {
    forall i, j :: 0 <= i < j < |routes| ==> !SameRoute(routes[i], routes[j])
  }

  lemma AllAddedSnoc(routes: seq<Route>, more: seq<Route>, r: Route)
    ensures AllAdded(routes, more + [r]) == Added(AllAdded(routes, more), r)
  {
    assert (more + [r])[..|more|] == more;
  }

  /** No key twice; everything that was to be added is there; nothing else is new. */
  lemma {:induction false} AddingKeeps(routes: seq<Route>, more: seq<Route>)
    ensures NoDuplicates(routes) ==> NoDuplicates(AllAdded(routes, more))
    ensures routes <= AllAdded(routes, more)
    ensures forall r :: r in AllAdded(routes, more) ==> r in routes || r in more
    ensures forall r :: r in more ==> Has(AllAdded(routes, more), r)
  {
    if more != [] {
      var front, last := more[..|more| - 1], more[|more| - 1];
      var before := AllAdded(routes, front);
      AddingKeeps(routes, front);
      AddedKeeps(before, last);
      assert more == front + [last];
      hide SameRoute, Has, Added, NoDuplicates;
      forall r | r in AllAdded(routes, more)
        ensures r in routes || r in more
      {
        if r != last { assert r in before; }
      }
      forall r | r in more
        ensures Has(AllAdded(routes, more), r)
      {
        if r != last { assert r in front; }
      }
    }
  }

  lemma AddedKeeps(routes: seq<Route>, last: Route)
    ensures NoDuplicates(routes) ==> NoDuplicates(Added(routes, last))
    ensures routes <= Added(routes, last)
    ensures forall r :: r in Added(routes, last) ==> r in routes || r == last
    ensures Has(Added(routes, last), last)
    ensures forall r :: Has(routes, r) ==> Has(Added(routes, last), r)
  {
    var after := Added(routes, last);
    if !Has(routes, last) {
      assert SameRoute(after[|routes|], last);
    }
    forall r | Has(routes, r)
      ensures Has(after, r)
    {
      var i :| 0 <= i < |routes| && SameRoute(routes[i], r);
      assert after[i] == routes[i];
    }
  }

  // ---- the routes of the addresses

  /** The prefix cleared behind its length. */
  ghost function Prefix(a: seq<byte>, prefixLen: int): (m: seq<byte>)
    ensures |m| == |a| && Masked(m, prefixLen) && SamePrefix(m, a, prefixLen)
  {
    var m := seq(|a|, i requires 0 <= i < |a| => MaskedByte(a, prefixLen, i));
    MaskedBytes(a, prefixLen, m);
    m
  }

  /** The route of one address: to its peer, or to its network if that is neither everything nor the address alone. */
  ghost function KernelRoute(link: Link, a: Address): Option<Route> {
    var src := if a.family == AF_INET then Some(a.addr) else None;
    if a.peer.Some? then Some(Route(a.family, a.peer.value, Full(a.family), None, link.index, true, src))
    else if a.prefixLen <= 0 || a.prefixLen >= Full(a.family) then None
    else Some(Route(a.family, Prefix(a.addr, a.prefixLen), a.prefixLen, None, link.index, true, src))
  }

  /** The route of the address as it is to be: to the peer alone, or to the network the address lies in. */
  ghost predicate Connects(link: Link, a: Address, r: Route) {
    && r.family == a.family && r.ifindex == link.index && r.kernel && r.gateway == None
    && r.src == (if a.family == 2 then Some(a.addr) else None)
    && match a.peer
       case Some(p) => r.dst == p && r.dstLen == if a.family == 2 then 32 else 128
       case None =>
         && 0 < a.prefixLen < 8 * |a.addr| && r.dstLen == a.prefixLen && |r.dst| == |a.addr|
         && Number(r.dst) == Number(a.addr) - Number(a.addr) % Two(8 * |a.addr| - a.prefixLen)
  }

  lemma KernelRouteConnects(link: Link, a: Address, r: Route)
    requires |a.addr| == Size(a.family)
    ensures KernelRoute(link, a) == Some(r) <==> Connects(link, a, r)
  {
    if 0 < a.prefixLen < 8 * |a.addr| {
      PrefixIff(a.addr, a.prefixLen, r.dst);
    }
    hide Prefix, Number, Two;
  }

  lemma PrefixIff(a: seq<byte>, p: nat, d: seq<byte>)
    requires p <= 8 * |a|
    ensures d == Prefix(a, p) <==> |d| == |a| && Number(d) == Number(a) - Number(a) % Two(8 * |a| - p)
  {
    MaskingRounds(a, p, Prefix(a, p));
    hide Prefix, Number, Two;
    if |d| == |a| && Number(d) == Number(Prefix(a, p)) { SameNumber(d, Prefix(a, p)); }
  }

  ghost function Maybe<T>(o: Option<T>): seq<T> {
    match o case None => [] case Some(x) => [x]
  }

  ghost function LinkRoutes(link: Link, addrs: seq<Address>): seq<Route> {
    if addrs == [] then []
    else LinkRoutes(link, addrs[..|addrs| - 1]) + Maybe(KernelRoute(link, addrs[|addrs| - 1]))
  }

  ghost function KernelRoutes(links: seq<Link>): seq<Route> {
    if links == [] then []
    else
      var link := links[|links| - 1];
      KernelRoutes(links[..|links| - 1]) + if link.loopback then [] else LinkRoutes(link, link.addrs)
  }

  ghost predicate WellSized(links: seq<Link>) {
    forall l, a :: l in links && a in l.addrs ==>
      |a.addr| == Size(a.family) && (a.peer.Some? ==> |a.peer.value| == Size(a.family))
  }

  ghost function LinkByIndex(links: seq<Link>, index: nat): Option<Link> {
    if links == [] || index == 0 then None
    else if links[0].index == index then Some(links[0])
    else LinkByIndex(links[1..], index)
  }

  /** The route is that of an address of a link that is not loopback, even where another link has the same index. */
  ghost predicate OfAnAddress(links: seq<Link>, r: Route) {
    exists l, a :: l in links && a in l.addrs && !l.loopback && Connects(l, a, r)
  }

  /** The link the index of the route stands for, the first one that has it, is not loopback. */
  ghost predicate OverItsLink(links: seq<Link>, r: Route) {
    LinkByIndex(links, r.ifindex).Some? && !LinkByIndex(links, r.ifindex).value.loopback
  }

  /** Where the route comes from: an address of the host, or a message of the dump. */
  ghost predicate OnLink(links: seq<Link>, r: Route) {
    if r.kernel then OfAnAddress(links, r) else OverItsLink(links, r)
  }

  /** What is true of every route of the table. */
  ghost predicate Sound(links: seq<Link>, r: Route) {
    && |r.dst| == Size(r.family) && 0 <= r.dstLen <= Full(r.family)
    && Masked(r.dst, r.dstLen)
    && OnLink(links, r)
    && (r.kernel ==> r.gateway == None)
  }

  ghost predicate AllSound(links: seq<Link>, routes: seq<Route>) {
    forall r :: r in routes ==> Sound(links, r)
  }

  lemma NothingBehind(a: seq<byte>, n: int)
    requires n >= 8 * |a|
    ensures Masked(a, n)
  {
    hide AddressBit;
  }

  lemma KernelRouteSound(links: seq<Link>, link: Link, a: Address)
    requires link in links && !link.loopback && a in link.addrs
    requires |a.addr| == Size(a.family) && (a.peer.Some? ==> |a.peer.value| == Size(a.family))
    ensures KernelRoute(link, a).Some? ==> Sound(links, KernelRoute(link, a).value) && KernelRoute(link, a).value.kernel
  {
    if a.peer.Some? { NothingBehind(a.peer.value, Full(a.family)); }
    if KernelRoute(link, a).Some? {
      KernelRouteConnects(link, a, KernelRoute(link, a).value);
      assert OfAnAddress(links, KernelRoute(link, a).value) by { hide Connects; }
    }
    hide Masked, SamePrefix, OfAnAddress, Number, Two;
  }

  lemma {:induction false} LinkRoutesSound(links: seq<Link>, link: Link, addrs: seq<Address>)
    requires link in links && !link.loopback
    requires forall a :: a in addrs ==> a in link.addrs
    requires forall a :: a in addrs ==>
      |a.addr| == Size(a.family) && (a.peer.Some? ==> |a.peer.value| == Size(a.family))
    ensures AllSound(links, LinkRoutes(link, addrs)) && forall r :: r in LinkRoutes(link, addrs) ==> r.kernel
  {
    if addrs != [] {
      var a := addrs[|addrs| - 1];
      assert a in addrs;
      LinkRoutesSound(links, link, addrs[..|addrs| - 1]);
      KernelRouteSound(links, link, a);
      hide Sound, KernelRoute;
    }
  }

  lemma {:induction false} KernelRoutesSound(links: seq<Link>, first: seq<Link>)
    requires WellSized(links) && forall l :: l in first ==> l in links
    ensures AllSound(links, KernelRoutes(first)) && forall r :: r in KernelRoutes(first) ==> r.kernel
  {
    if first != [] {
      var link := first[|first| - 1];
      assert link in first;
      KernelRoutesSound(links, first[..|first| - 1]);
      if !link.loopback { LinkRoutesSound(links, link, link.addrs); }
      hide Sound, LinkRoutes, KernelRoute;
    }
  }

  lemma {:induction false} LinkRouteListed(link: Link, addrs: seq<Address>, a: Address, r: Route)
    requires a in addrs && KernelRoute(link, a) == Some(r)
    ensures r in LinkRoutes(link, addrs)
  {
    hide KernelRoute;
    var n := |addrs| - 1;
    if a != addrs[n] {
      assert addrs == addrs[..n] + [addrs[n]];
      LinkRouteListed(link, addrs[..n], a, r);
    }
  }

  lemma {:induction false} AddressRouteListed(links: seq<Link>, link: Link, a: Address, r: Route)
    requires link in links && !link.loopback && a in link.addrs && KernelRoute(link, a) == Some(r)
    ensures r in KernelRoutes(links)
  {
    hide KernelRoute, LinkRoutes;
    var n := |links| - 1;
    if link == links[n] {
      LinkRouteListed(link, link.addrs, a, r);
    } else {
      assert links == links[..n] + [links[n]];
      AddressRouteListed(links[..n], link, a, r);
    }
  }

  /** The table has the route of each address of a link that is not loopback, and no other. */
  ghost predicate RoutesOfAddresses(links: seq<Link>, routes: seq<Route>) {
    && (forall r :: r in routes ==> OfAnAddress(links, r))
    && forall l, a, r :: l in links && a in l.addrs && !l.loopback && Connects(l, a, r) ==> Has(routes, r)
  }

  lemma AddressRoutesAreAll(links: seq<Link>)
    requires WellSized(links)
    ensures RoutesOfAddresses(links, AllAdded([], KernelRoutes(links)))
  {
    var routes := AllAdded([], KernelRoutes(links));
    KernelRoutesSound(links, links);
    AddingKeeps([], KernelRoutes(links));
    hide AllAdded, KernelRoutes, Connects, Has, NoDuplicates, KernelRoute;
    forall l, a, r | l in links && a in l.addrs && !l.loopback && Connects(l, a, r)
      ensures Has(routes, r)
    {
      KernelRouteConnects(l, a, r);
      AddressRouteListed(links, l, a, r);
    }
    forall r | r in routes
      ensures OfAnAddress(links, r)
    {
      assert r in KernelRoutes(links) && Sound(links, r);
      hide OfAnAddress, Masked;
    }
  }

  // ---- the routing dump

  function U16(buf: seq<byte>, i: nat): nat
    requires i + 2 <= |buf|
  {
    var lo: nat, hi: nat := buf[i], buf[i + 1];
    lo + 256 * hi
  }

  function U32(buf: seq<byte>, i: nat): nat
    requires i + 4 <= |buf|
  {
    U16(buf, i) + 65536 * U16(buf, i + 2)
  }

  /** `f` is a power of two. */
  predicate Flag(x: nat, f: nat) {
    f > 0 && x / f % 2 == 1
  }

  function PowerOf(i: nat): (p: nat)
    requires i < RTAX_MAX
  {
    [1, 2, 4, 8, 16, 32, 64, 128][i]
  }

  function Span(len: nat): (n: nat)
    ensures n >= 4 && n >= len && n % 4 == 0
  {
    if len == 0 then 4 else (len + 3) / 4 * 4
  }

  function Zeros(n: nat): (z: seq<byte>)
    ensures |z| == n && forall i :: 0 <= i < n ==> z[i] == 0
  {
    seq(n, _ => 0)
  }

  function Copied(buf: seq<byte>, sp: nat, copy: nat): (sa: seq<byte>)
    requires sp + copy <= |buf| && copy <= STORAGE
    ensures |sa| == STORAGE
  {
    buf[sp..sp + copy] + Zeros(STORAGE - copy)
  }

  /** The k-th address of a message when the i-th, if present, starts at sp; all zeros if it is absent or cut off. */
  ghost function AddressAt(buf: seq<byte>, sp: nat, next: nat, present: nat, i: nat, k: nat): (sa: seq<byte>)
    requires next <= |buf| && i <= k < RTAX_MAX
    ensures |sa| == STORAGE
    decreases k - i
  {
    if sp >= next then Zeros(STORAGE)
    else if !Flag(present, PowerOf(i)) then
      if i == k then Zeros(STORAGE) else AddressAt(buf, sp, next, present, i + 1, k)
    else
      var copy := if buf[sp] < STORAGE then buf[sp] else STORAGE;
      if sp + copy > next then Zeros(STORAGE)
      else if i == k then Copied(buf, sp, copy)
      else AddressAt(buf, sp + Span(buf[sp]), next, present, i + 1, k)
  }

  function FamilyOf(sa: seq<byte>): nat
    requires |sa| == STORAGE
  {
    sa[1]
  }

  /** The address inside a socket address. */
  function AddressPart(sa: seq<byte>, family: nat): (a: seq<byte>)
    requires |sa| == STORAGE
    ensures |a| == Size(family)
  {
    if family == AF_INET then sa[4..8] else sa[8..24]
  }

  /** Darwin's scope taken out of a link-local or interface-local address. */
  function Unscoped(a: seq<byte>, family: nat): (u: seq<byte>)
    requires |a| == Size(family)
    ensures |u| == |a|
  {
    if family == AF_INET then a
    else if (a[0] == 0xfe && 0x80 <= a[1] < 0xc0) || (a[0] == 0xff && (a[1] % 16 == 1 || a[1] % 16 == 2))
    then a[2 := 0][3 := 0]
    else a
  }

  predicate IsMulticast(dst: seq<byte>, family: nat)
    requires |dst| == Size(family)
  {
    if family == AF_INET then 0xe0 <= dst[0] < 0xf0 else dst[0] == 0xff
  }

  predicate Wanted(version: byte, flags: nat) {
    version == RTM_VERSION && Flag(flags, RTF_UP) && forall f :: f in SKIPPED ==> !Flag(flags, f)
  }

  /** A message at c that is all there. */
  predicate Message(buf: seq<byte>, c: nat) {
    c + HEADER <= |buf| && U16(buf, c) != 0 && c + U16(buf, c) <= |buf|
  }

  /** The route that the addresses of a message describe. */
  ghost function Described(links: seq<Link>, family: nat, index: nat, flags: nat, present: nat,
                           dst: seq<byte>, gw: seq<byte>, mask: seq<byte>): Option<Route>
    requires |dst| == |gw| == |mask| == STORAGE
  {
    var link := LinkByIndex(links, index);
    if !Flag(present, 1) || FamilyOf(dst) != family || link.None? || link.value.loopback then None
    else
      var dstLen := if Flag(present, 4) then LeadingOnes(AddressPart(mask, family)) else Full(family);
      var d := Prefix(Unscoped(AddressPart(dst, family), family), dstLen);
      var gateway := if Flag(flags, RTF_GATEWAY) && Flag(present, 2) && FamilyOf(gw) == family
                     then Some(Unscoped(AddressPart(gw, family), family)) else None;
      if IsMulticast(d, family) || (gateway.None? && dstLen == Full(family)) then None
      else Some(Route(family, d, dstLen, gateway, index, false, None))
  }

  ghost function MessageRoute(links: seq<Link>, family: nat, buf: seq<byte>, c: nat): Option<Route>
    requires Message(buf, c)
  {
    var next, flags, present := c + U16(buf, c), U32(buf, c + 8), U32(buf, c + 12);
    if !Wanted(buf[c + 2], flags) then None
    else
      Described(links, family, U16(buf, c + 4), flags, present,
                AddressAt(buf, c + HEADER, next, present, 0, 0),
                AddressAt(buf, c + HEADER, next, present, 0, 1),
                AddressAt(buf, c + HEADER, next, present, 0, 2))
  }

  /** The routes of the whole messages from c on. */
  ghost function DumpRoutes(links: seq<Link>, family: nat, buf: seq<byte>, c: nat): seq<Route>
    decreases |buf| - c
  {
    if !Message(buf, c) then []
    else Maybe(MessageRoute(links, family, buf, c)) + DumpRoutes(links, family, buf, c + U16(buf, c))
  }

  lemma {:induction false} LinkFound(links: seq<Link>, index: nat)
    ensures var l := LinkByIndex(links, index); l.Some? ==> l.value in links && l.value.index == index
  {
    if links != [] && index != 0 && links[0].index != index {
      LinkFound(links[1..], index);
    }
  }

  lemma DescribedSound(links: seq<Link>, family: nat, index: nat, flags: nat, present: nat,
                       dst: seq<byte>, gw: seq<byte>, mask: seq<byte>)
    requires |dst| == |gw| == |mask| == STORAGE
    ensures var r := Described(links, family, index, flags, present, dst, gw, mask);
      r.Some? ==> Sound(links, r.value) && !r.value.kernel && !IsMulticast(r.value.dst, family)
  {
    LinkFound(links, index);
    LeadingOnesAre(AddressPart(mask, family));
    hide Masked, SamePrefix, AddressBit, LeadingOnes, Flag, Unscoped, AddressPart, IsMulticast, LinkByIndex;
  }

  lemma {:induction false} DumpRoutesSound(links: seq<Link>, family: nat, buf: seq<byte>, c: nat)
    ensures AllSound(links, DumpRoutes(links, family, buf, c))
    decreases |buf| - c
  {
    hide Sound, Described;
    if Message(buf, c) {
      var next, flags, present := c + U16(buf, c), U32(buf, c + 8), U32(buf, c + 12);
      DescribedSound(links, family, U16(buf, c + 4), flags, present,
                     AddressAt(buf, c + HEADER, next, present, 0, 0),
                     AddressAt(buf, c + HEADER, next, present, 0, 1),
                     AddressAt(buf, c + HEADER, next, present, 0, 2));
      DumpRoutesSound(links, family, buf, c + U16(buf, c));
      hide AddressAt, U16, U32, Wanted;
    }
  }

  // ---- the code

  method FindLink(links: seq<Link>, index: nat) returns (link: Option<Link>)
    ensures link == LinkByIndex(links, index)
  {
    if index == 0 {
      return None;
    }
    assert links[0..] == links;
    for i := 0 to |links|
      invariant LinkByIndex(links, index) == LinkByIndex(links[i..], index)
    {
      assert links[i..][1..] == links[i + 1..];
      if links[i].index == index {
        return Some(links[i]);
      }
    }
    return None;
  }

  /** The loop over the addresses of a message: every byte it reads lies inside the message. */
  method ReadAddresses(buf: seq<byte>, start: nat, next: nat, present: nat) returns (addrs: seq<seq<byte>>)
    requires next <= |buf|
    ensures |addrs| == RTAX_MAX
    ensures forall k :: 0 <= k < RTAX_MAX ==> addrs[k] == AddressAt(buf, start, next, present, 0, k)
  {
    addrs := seq(RTAX_MAX, _ => Zeros(STORAGE));
    var sp: nat, i: nat := start, 0;
    while i < RTAX_MAX && sp < next
      invariant i <= RTAX_MAX && |addrs| == RTAX_MAX
      invariant forall k :: i <= k < RTAX_MAX ==> addrs[k] == Zeros(STORAGE)
      invariant forall k :: 0 <= k < i ==> addrs[k] == AddressAt(buf, start, next, present, 0, k)
      invariant forall k :: i <= k < RTAX_MAX ==>
        AddressAt(buf, start, next, present, 0, k) == AddressAt(buf, sp, next, present, i, k)
    {
      hide Flag, PowerOf, Span, Copied;
      if !Flag(present, PowerOf(i)) {
        i := i + 1;
        continue;
      }
      var saLen: nat := buf[sp];
      var copy := if saLen < STORAGE then saLen else STORAGE;
      if sp + copy > next {
        break;
      }
      addrs := addrs[i := Copied(buf, sp, copy)];
      sp := sp + Span(saLen);
      i := i + 1;
    }
  }

  method ReadRoute(links: seq<Link>, family: nat, buf: seq<byte>, c: nat) returns (r: Option<Route>)
    requires Message(buf, c)
    ensures r == MessageRoute(links, family, buf, c)
  {
    hide Flag, U16, U32, AddressAt, LinkByIndex, LeadingOnes, Unscoped, AddressPart, IsMulticast, Wanted, FamilyOf;
    var next, flags, present := c + U16(buf, c), U32(buf, c + 8), U32(buf, c + 12);
    if !Wanted(buf[c + 2], flags) {
      return None;
    }
    var addrs := ReadAddresses(buf, c + HEADER, next, present);
    var dst, gw, mask := addrs[0], addrs[1], addrs[2];
    if !Flag(present, 1) || FamilyOf(dst) != family {
      return None;
    }
    var link := FindLink(links, U16(buf, c + 4));
    if link.None? || link.value.loopback {
      return None;
    }
    var dstLen: int := Full(family);
    if Flag(present, 4) {
      dstLen := PrefixFromMask(Some(AddressPart(mask, family)));
    }
    var d := MaskPrefix(Unscoped(AddressPart(dst, family), family), dstLen);
    assert d == Prefix(Unscoped(AddressPart(dst, family), family), dstLen);
    if IsMulticast(d, family) {
      return None;
    }
    var gateway: Option<seq<byte>> := None;
    if Flag(flags, RTF_GATEWAY) && Flag(present, 2) && FamilyOf(gw) == family {
      gateway := Some(Unscoped(AddressPart(gw, family), family));
    }
    if gateway.None? && dstLen == Full(family) {
      return None;
    }
    return Some(Route(family, d, dstLen, gateway, U16(buf, c + 4), false, None));
  }

  /** A kernel route that says the same makes the look-up for duplicates say so too. */
  lemma KnownIsDuplicate(links: seq<Link>, routes: seq<Route>, r: Route, i: nat)
    requires AllSound(links, routes) && i < |routes| && r.gateway == None
    requires var k := routes[i];
      k.kernel && k.family == r.family && k.ifindex == r.ifindex && k.dstLen == r.dstLen && k.dst == r.dst
    ensures Added(routes, r) == routes
  {
    assert routes[i] in routes;
    hide Masked, OnLink;
    assert SameRoute(routes[i], r);
  }

  lemma DumpStep(links: seq<Link>, family: nat, buf: seq<byte>, c: nat, routes: seq<Route>)
    requires Message(buf, c)
    ensures AllAdded(routes, DumpRoutes(links, family, buf, c)) ==
      AllAdded(match MessageRoute(links, family, buf, c) case None => routes case Some(r) => Added(routes, r),
               DumpRoutes(links, family, buf, c + U16(buf, c)))
  {
    var rest := DumpRoutes(links, family, buf, c + U16(buf, c));
    hide MessageRoute;
    match MessageRoute(links, family, buf, c) {
      case None => assert [] + rest == rest;
      case Some(r) => AddFirst(routes, r, rest);
    }
  }

  lemma {:induction false} AddFirst(routes: seq<Route>, r: Route, rest: seq<Route>)
    ensures AllAdded(routes, [r] + rest) == AllAdded(Added(routes, r), rest)
  {
    hide Added;
    if rest == [] {
      assert [r] + rest == [] + [r];
      AllAddedSnoc(routes, [], r);
      assert AllAdded(routes, []) == routes;
    } else {
      var front, last := rest[..|rest| - 1], rest[|rest| - 1];
      AddFirst(routes, r, front);
      assert [r] + rest == ([r] + front) + [last];
      AllAddedSnoc(routes, [r] + front, last);
    }
  }

  lemma NoLinkRoutes(routes: seq<Route>, link: Link)
    ensures AllAdded(routes, LinkRoutes(link, link.addrs[..0])) == routes
  {
  }

  lemma NextLinkRoute(routes: seq<Route>, link: Link, j: nat)
    requires j < |link.addrs|
    ensures var before := AllAdded(routes, LinkRoutes(link, link.addrs[..j]));
      AllAdded(routes, LinkRoutes(link, link.addrs[..j + 1])) ==
      match KernelRoute(link, link.addrs[j]) case None => before case Some(r) => Added(before, r)
  {
    var front := LinkRoutes(link, link.addrs[..j]);
    assert link.addrs[..j + 1][..j] == link.addrs[..j];
    hide Added, KernelRoute, AllAdded;
    match KernelRoute(link, link.addrs[j]) {
      case None => assert front + [] == front;
      case Some(r) => AllAddedSnoc(routes, front, r);
    }
  }

  class RouteTable {
    const links: seq<Link>
    var routes: seq<Route>

    constructor (links: seq<Link>)
      ensures this.links == links && routes == []
    {
      this.links, routes := links, [];
    }

    method AddRoute(route: Route)
      modifies this
      ensures routes == Added(old(routes), route)
    {
      for i := 0 to |routes|
        invariant routes == old(routes) && forall j :: 0 <= j < i ==> !SameRoute(routes[j], route)
      {
        if SameRoute(routes[i], route) {
          return;
        }
      }
      routes := routes + [route];
    }

    method AddAddressRoute(link: Link, a: Address)
      requires |a.addr| == Size(a.family)
      modifies this
      ensures routes == match KernelRoute(link, a) case None => old(routes) case Some(r) => Added(old(routes), r)
    {
      hide Added;
      var src := if a.family == AF_INET then Some(a.addr) else None;
      if a.peer.Some? {
        AddRoute(Route(a.family, a.peer.value, Full(a.family), None, link.index, true, src));
        return;
      }
      if a.prefixLen <= 0 || a.prefixLen >= Full(a.family) {
        return;
      }
      var dst := MaskPrefix(a.addr, a.prefixLen);
      assert dst == Prefix(a.addr, a.prefixLen);
      AddRoute(Route(a.family, dst, a.prefixLen, None, link.index, true, src));
    }

    method AddLinkRoutes(link: Link)
      requires forall a :: a in link.addrs ==> |a.addr| == Size(a.family)
      modifies this
      ensures routes == AllAdded(old(routes), LinkRoutes(link, link.addrs))
    {
      hide Added, KernelRoute, LinkRoutes;
      NoLinkRoutes(old(routes), link);
      for j := 0 to |link.addrs|
        invariant routes == AllAdded(old(routes), LinkRoutes(link, link.addrs[..j]))
      {
        NextLinkRoute(old(routes), link, j);
        assert link.addrs[j] in link.addrs;
        AddAddressRoute(link, link.addrs[j]);
      }
      assert link.addrs[..|link.addrs|] == link.addrs;
    }

    method AddKernelRoutes()
      requires WellSized(links) && routes == []
      modifies this
      ensures routes == AllAdded([], KernelRoutes(links)) && RoutesOfAddresses(links, routes)
      ensures NoDuplicates(routes) && AllSound(links, routes)
    {
      hide Added, LinkRoutes, NoDuplicates, Sound, RoutesOfAddresses;
      for i := 0 to |links|
        invariant routes == AllAdded([], KernelRoutes(links[..i]))
      {
        assert links[..i + 1][..i] == links[..i];
        if links[i].loopback {
          assert KernelRoutes(links[..i]) + [] == KernelRoutes(links[..i]);
          continue;
        }
        assert links[i] in links;
        AddLinkRoutes(links[i]);
        AllAddedTwice([], KernelRoutes(links[..i]), LinkRoutes(links[i], links[i].addrs));
      }
      assert links[..|links|] == links;
      KernelRoutesSound(links, links);
      AddressRoutesAreAll(links);
      AddingKeeps([], KernelRoutes(links));
      assert NoDuplicates([]) by { NoneTwice(); }
    }

    /** For arbitrary bytes: the walk stays inside the buffer and ends, and what it adds are the routes of the dump.
        The look-up for a known kernel route changes nothing. */
    method AddKernelTable(family: nat, buf: seq<byte>)
      requires NoDuplicates(routes) && AllSound(links, routes)
      modifies this
      ensures routes == AllAdded(old(routes), DumpRoutes(links, family, buf, 0))
      ensures NoDuplicates(routes) && AllSound(links, routes)
    {
      hide Added, NoDuplicates, Sound, MessageRoute, DumpRoutes, AllAdded, U16, AllSound;
      var cursor: nat := 0;
      while cursor + HEADER <= |buf|
        invariant AllSound(links, routes)
        invariant AllAdded(routes, DumpRoutes(links, family, buf, cursor)) ==
          AllAdded(old(routes), DumpRoutes(links, family, buf, 0))
        invariant old(routes) <= routes
        decreases |buf| - cursor
      {
        if U16(buf, cursor) == 0 || cursor + U16(buf, cursor) > |buf| {
          break;
        }
        DumpStep(links, family, buf, cursor, routes);
        MessageSound(links, family, buf, cursor);
        var r := ReadRoute(links, family, buf, cursor);
        if r.Some? {
          AddedSound(links, routes, r.value);
          AddUnlessKnown(r.value);
        }
        cursor := cursor + U16(buf, cursor);
      }
      DumpEnds(links, family, buf, cursor, routes);
      DumpRoutesSound(links, family, buf, 0);
      AddingKeeps(old(routes), DumpRoutes(links, family, buf, 0));
    }

    method AddUnlessKnown(r: Route)
      requires AllSound(links, routes)
      modifies this
      ensures routes == Added(old(routes), r)
    {
      hide Added, Sound, AllSound;
      if r.gateway.None? && r.dstLen > 0 {
        for i := 0 to |routes|
          invariant routes == old(routes)
        {
          var k := routes[i];
          if k.kernel && k.family == r.family && k.ifindex == r.ifindex && k.dstLen == r.dstLen && k.dst == r.dst {
            KnownIsDuplicate(links, routes, r, i);
            return;
          }
        }
      }
      AddRoute(r);
    }
  }

  lemma NoneTwice()
    ensures NoDuplicates([])
  {
  }

  lemma {:induction false} AllAddedTwice(routes: seq<Route>, a: seq<Route>, b: seq<Route>)
    ensures AllAdded(routes, a + b) == AllAdded(AllAdded(routes, a), b)
    decreases |b|
  {
    hide Added;
    if b == [] {
      assert a + b == a;
    } else {
      AllAddedTwice(routes, a, b[..|b| - 1]);
      assert a + b == (a + b[..|b| - 1]) + [b[|b| - 1]];
      AllAddedSnoc(routes, a + b[..|b| - 1], b[|b| - 1]);
    }
  }

  lemma MessageSound(links: seq<Link>, family: nat, buf: seq<byte>, c: nat)
    requires Message(buf, c)
    ensures var r := MessageRoute(links, family, buf, c); r.Some? ==> Sound(links, r.value)
  {
    hide Sound, Described;
    var next, flags, present := c + U16(buf, c), U32(buf, c + 8), U32(buf, c + 12);
    DescribedSound(links, family, U16(buf, c + 4), flags, present,
                   AddressAt(buf, c + HEADER, next, present, 0, 0),
                   AddressAt(buf, c + HEADER, next, present, 0, 1),
                   AddressAt(buf, c + HEADER, next, present, 0, 2));
    hide AddressAt, U16, U32, Wanted;
  }

  lemma AddedSound(links: seq<Link>, routes: seq<Route>, r: Route)
    requires AllSound(links, routes) && Sound(links, r)
    ensures AllSound(links, Added(routes, r)) && routes <= Added(routes, r)
  {
    hide Sound, Has;
  }

  lemma DumpEnds(links: seq<Link>, family: nat, buf: seq<byte>, c: nat, routes: seq<Route>)
    requires !Message(buf, c)
    ensures AllAdded(routes, DumpRoutes(links, family, buf, c)) == routes
  {
  }
}
