/** The order of a link's addresses (src/common/net_snapshot.c:355-365, 477-488, 639-660). */
module AddressOrder {
  import opened NetRoutes

  /** IPv4 first, then IPv6, link-local IPv6 last. */
  function Rank(a: Address): nat {
    if a.family == AF_INET then 0
    else if |a.addr| >= 2 && a.addr[0] == 0xfe && 0x80 <= a.addr[1] < 0xc0 then 2
    else 1
  }

  // ---- the order on families and bytes

  /** In fe80::/10. */
  predicate LinkLocal(a: Address) {
    a.family != AF_INET && |a.addr| >= 2 && a.addr[0] == 0xfe && (a.addr[1] as int) / 64 == 2
  }

  predicate IsIPv4(a: Address) {
    a.family == AF_INET
  }

  /** IPv6 that is not link-local. */
  predicate IsOther(a: Address) {
    a.family != AF_INET && !LinkLocal(a)
  }

  ghost predicate FamiliesInOrder(s: seq<Address>) {
    && (forall i, j :: 0 <= i < j < |s| && s[j].family == AF_INET ==> s[i].family == AF_INET)
    && forall i, j :: 0 <= i < j < |s| && LinkLocal(s[i]) ==> LinkLocal(s[j])
  }

  /** Those of the addresses that `keep` picks, in their order. */
  ghost function Only(s: seq<Address>, keep: Address -> bool): seq<Address> {
    if s == [] then []
    else Only(s[..|s| - 1], keep) + if keep(s[|s| - 1]) then [s[|s| - 1]] else []
  }

  /** IPv4, link-local and all other addresses each keep their order. */
  ghost predicate ClassesKept(s: seq<Address>, t: seq<Address>) {
    && Only(s, IsIPv4) == Only(t, IsIPv4)
    && Only(s, LinkLocal) == Only(t, LinkLocal)
    && Only(s, IsOther) == Only(t, IsOther)
  }

  lemma {:induction false} OnlyRank(s: seq<Address>, keep: Address -> bool, r: nat)
    requires forall a :: keep(a) <==> Rank(a) == r
    ensures Only(s, keep) == OfRank(s, r)
  {
    hide Rank;
    if s != [] { OnlyRank(s[..|s| - 1], keep, r); }
  }

  lemma RankMeans(a: Address)
    ensures Rank(a) <= 2 && (Rank(a) == 0 <==> IsIPv4(a))
    ensures (Rank(a) == 2 <==> LinkLocal(a)) && (Rank(a) == 1 <==> IsOther(a))
  {
  }

  lemma OrderedFamilies(s: seq<Address>)
    requires Ordered(s)
    ensures FamiliesInOrder(s)
  {
    hide Rank, LinkLocal;
    forall i | 0 <= i < |s|
      ensures (Rank(s[i]) == 0 <==> s[i].family == AF_INET) && (Rank(s[i]) == 2 <==> LinkLocal(s[i])) && Rank(s[i]) <= 2
    {
      RankMeans(s[i]);
    }
  }

  lemma ClassesOfRanks(s: seq<Address>, t: seq<Address>)
    requires SameByRank(s, t)
    ensures ClassesKept(s, t)
  {
    forall a: Address
      ensures Rank(a) == 0 <==> IsIPv4(a)
      ensures Rank(a) == 2 <==> LinkLocal(a)
      ensures Rank(a) == 1 <==> IsOther(a)
    {
      RankMeans(a);
    }
    hide Rank, LinkLocal, IsIPv4, IsOther, Only, OfRank;
    OnlyRank(s, IsIPv4, 0);
    OnlyRank(t, IsIPv4, 0);
    OnlyRank(s, LinkLocal, 2);
    OnlyRank(t, LinkLocal, 2);
    OnlyRank(s, IsOther, 1);
    OnlyRank(t, IsOther, 1);
  }

  /** An address is listed among those of its rank as often as at all. */
  lemma {:induction false} CountByRank(s: seq<Address>, a: Address)
    ensures multiset(s)[a] == multiset(OfRank(s, Rank(a)))[a]
  {
    hide Rank;
    if s != [] {
      var front, last := s[..|s| - 1], s[|s| - 1];
      CountByRank(front, a);
      assert s == front + [last];
    }
  }

  // ---- the order on ranks

  ghost predicate Ordered(s: seq<Address>) {
    forall i, j :: 0 <= i < j < |s| ==> Rank(s[i]) <= Rank(s[j])
  }

  /** The addresses of one rank, in their order. */
  ghost function OfRank(s: seq<Address>, r: nat): seq<Address> {
    if s == [] then []
    else OfRank(s[..|s| - 1], r) + if Rank(s[|s| - 1]) == r then [s[|s| - 1]] else []
  }

  /** Sorted, and the kernel's order kept within a rank. */
  ghost predicate SameByRank(s: seq<Address>, t: seq<Address>) {
    forall r: nat :: OfRank(s, r) == OfRank(t, r)
  }

  lemma {:induction false} OfRankConcat(s: seq<Address>, t: seq<Address>, r: nat)
    ensures OfRank(s + t, r) == OfRank(s, r) + OfRank(t, r)
    decreases |t|
  {
    hide Rank;
    if t == [] {
      assert s + t == s;
    } else {
      assert (s + t)[..|s + t| - 1] == s + t[..|t| - 1];
      OfRankConcat(s, t[..|t| - 1], r);
    }
  }

  lemma {:induction false} NoneOfRank(s: seq<Address>, r: nat)
    requires forall i :: 0 <= i < |s| ==> Rank(s[i]) != r
    ensures OfRank(s, r) == []
  {
    hide Rank;
    if s != [] {
      NoneOfRank(s[..|s| - 1], r);
    }
  }

  lemma TwoSwapped(block: seq<Address>, key: Address, r: nat)
    requires forall i :: 0 <= i < |block| ==> Rank(block[i]) > Rank(key)
    ensures OfRank([key] + block, r) == OfRank(block + [key], r)
  {
    if r == Rank(key) { NoneOfRank(block, r); }
    OfRankConcat([key], block, r);
    OfRankConcat(block, [key], r);
    assert [key][..0] == [] && OfRank([key], r) == if Rank(key) == r then [key] else [];
  }

  /** An element moves in front of a block of higher rank. */
  lemma MovedForward(front: seq<Address>, block: seq<Address>, key: Address, back: seq<Address>, r: nat)
    requires forall i :: 0 <= i < |block| ==> Rank(block[i]) > Rank(key)
    ensures OfRank(front + ([key] + block) + back, r) == OfRank(front + (block + [key]) + back, r)
  {
    TwoSwapped(block, key, r);
    hide OfRank, Rank;
    OfRankConcat(front + ([key] + block), back, r);
    OfRankConcat(front, [key] + block, r);
    OfRankConcat(front + (block + [key]), back, r);
    OfRankConcat(front, block + [key], r);
  }

  lemma OrderedJoin(a: seq<Address>, b: seq<Address>)
    requires Ordered(a) && Ordered(b)
    requires forall i, j :: 0 <= i < |a| && 0 <= j < |b| ==> Rank(a[i]) <= Rank(b[j])
    ensures Ordered(a + b)
  {
    hide Rank;
  }

  lemma OrderedSlice(s: seq<Address>, i: nat, j: nat)
    requires i <= j <= |s| && Ordered(s)
    ensures Ordered(s[i..j])
  {
    hide Rank;
  }

  /** What one insertion does to an ordered stretch. */
  lemma InsertedOrder(s: seq<Address>, key: Address, b: nat)
    requires b <= |s| && Ordered(s)
    requires forall j :: b <= j < |s| ==> Rank(s[j]) > Rank(key)
    requires b > 0 ==> Rank(s[b - 1]) <= Rank(key)
    ensures Ordered(s[..b] + ([key] + s[b..]))
  {
    hide Rank;
    OrderedSlice(s, 0, b);
    OrderedSlice(s, b, |s|);
    assert forall j :: 0 <= j < |s[b..]| ==> Rank(s[b..][j]) > Rank(key);
    OrderedJoin([key], s[b..]);
    forall i | 0 <= i < b
      ensures Rank(s[i]) <= Rank(key)
    {
      assert i < b - 1 ==> Rank(s[i]) <= Rank(s[b - 1]);
    }
    OrderedJoin(s[..b], [key] + s[b..]);
  }

  lemma Inserted(s: seq<Address>, k: nat, b: nat)
    requires b <= k < |s| && Ordered(s[..k])
    requires forall j :: b <= j < k ==> Rank(s[j]) > Rank(s[k])
    requires b > 0 ==> Rank(s[b - 1]) <= Rank(s[k])
    ensures var t := s[..b] + ([s[k]] + s[b..k]) + s[k + 1..];
      |t| == |s| && Ordered(t[..k + 1]) && SameByRank(t, s)
  {
    var front, block, key, back := s[..b], s[b..k], s[k], s[k + 1..];
    var t := front + ([key] + block) + back;
    assert s == front + (block + [key]) + back;
    forall r: nat
      ensures OfRank(t, r) == OfRank(s, r)
    {
      MovedForward(front, block, key, back, r);
    }
    hide OfRank, Rank, Ordered;
    InsertedOrder(s[..k], key, b);
    assert s[..k][..b] == front && s[..k][b..] == block;
    assert t[..k + 1] == front + ([key] + block);
  }

  /** Shifts the larger ones up and puts the key in the gap. */
  method InsertAt(addrs: array<Address>, k: nat)
    requires k < addrs.Length && Ordered(addrs[..k])
    modifies addrs
    ensures Ordered(addrs[..k + 1]) && SameByRank(addrs[..], old(addrs[..]))
  {
    hide Rank, OfRank, SameByRank, Ordered;
    ghost var s := addrs[..];
    var key := addrs[k];
    var b := k;
    assert addrs[..k] == s[..k];
    while b > 0 && Rank(addrs[b - 1]) > Rank(key)
      invariant b <= k && forall j :: 0 <= j < b ==> addrs[j] == s[j]
      invariant forall j :: b < j <= k ==> addrs[j] == s[j - 1]
      invariant forall j :: k < j < addrs.Length ==> addrs[j] == s[j]
      invariant forall j :: b <= j < k ==> Rank(s[j]) > Rank(key)
    {
      addrs[b] := addrs[b - 1];
      b := b - 1;
    }
    addrs[b] := key;
    Inserted(s, k, b);
    assert addrs[..] == s[..b] + ([s[k]] + s[b..k]) + s[k + 1..];
    assert addrs[..k + 1] == addrs[..][..k + 1];
  }

  method SortAddresses(addrs: array<Address>)
    modifies addrs
    ensures FamiliesInOrder(addrs[..]) && ClassesKept(addrs[..], old(addrs[..]))
    ensures multiset(addrs[..]) == multiset(old(addrs[..]))
  {
    hide Rank, OfRank, FamiliesInOrder, ClassesKept;
    if addrs.Length <= 1 {
      Sorted(addrs[..], old(addrs[..]));
      return;
    }
    for a := 1 to addrs.Length
      invariant Ordered(addrs[..a]) && SameByRank(addrs[..], old(addrs[..]))
    {
      ghost var before := addrs[..];
      InsertAt(addrs, a);
    }
    assert addrs[..addrs.Length] == addrs[..];
    Sorted(addrs[..], old(addrs[..]));
  }

  lemma Sorted(s: seq<Address>, t: seq<Address>)
    requires Ordered(s) && SameByRank(s, t)
    ensures FamiliesInOrder(s) && ClassesKept(s, t) && multiset(s) == multiset(t)
  {
    hide Rank, FamiliesInOrder, ClassesKept;
    OrderedFamilies(s);
    ClassesOfRanks(s, t);
    forall a: Address
      ensures multiset(s)[a] == multiset(t)[a]
    {
      CountByRank(s, a);
      CountByRank(t, a);
      assert OfRank(s, Rank(a)) == OfRank(t, Rank(a));
    }
    hide OfRank;
  }
}
