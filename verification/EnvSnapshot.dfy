/** Saving the environment and restoring it by difference (src/common/env_snapshot.c:53-171).
    The environment is the list of "NAME=value" entries that libc keeps. */
module EnvSnapshot {
  import opened Wrappers

  ghost predicate IsName(n: string) {
    n != "" && '=' !in n
  }

  predicate StartsWith(e: string, prefix: string) {
    |prefix| <= |e| && e[..|prefix|] == prefix
  }

  predicate Defines(e: string, n: string) {
    StartsWith(e, n + "=")
  }

  /** `getenv`: the first entry that defines the name. */
  ghost function Get(es: seq<string>, n: string): Option<string> {
    if es == [] then None
    else if Defines(es[0], n) then Some(es[0][|n| + 1..])
    else Get(es[1..], n)
  }

  /** No two entries define one name. */
  ghost predicate UniqueNames(es: seq<string>) {
    forall i, j, n :: 0 <= i < j < |es| && IsName(n) && Defines(es[i], n) ==> !Defines(es[j], n)
  }

  ghost predicate WellFormed(e: string) {
    '=' in e && e[0] != '='
  }

  function Unset(es: seq<string>, n: string): seq<string> {
    if es == [] then []
    else if Defines(es[0], n) then Unset(es[1..], n)
    else [es[0]] + Unset(es[1..], n)
  }

  function Set(es: seq<string>, n: string, v: string): seq<string> {
    if es == [] then [n + "=" + v]
    else if Defines(es[0], n) then [n + "=" + v] + es[1..]
    else [es[0]] + Set(es[1..], n, v)
  }

  // ---- libc

  lemma NameAtFront(e: string, n: string)
    requires Defines(e, n)
    ensures |n| < |e| && e[|n|] == '=' && e[..|n|] == n && forall i :: 0 <= i < |n| ==> e[i] in n
  {
    assert e[|n|] == e[..|n| + 1][|n|] && e[..|n|] == e[..|n| + 1][..|n|];
    assert forall i :: 0 <= i < |n| ==> e[i] == e[..|n|][i];
  }

  lemma OneNamePerEntry(e: string, n: string, m: string)
    requires IsName(n) && IsName(m) && Defines(e, n) && Defines(e, m)
    ensures n == m
  {
    NameAtFront(e, n);
    NameAtFront(e, m);
    assert |n| == |m|;
  }

  lemma Written(n: string, v: string)
    ensures Defines(n + "=" + v, n) && (n + "=" + v)[|n| + 1..] == v
  {
    assert (n + "=" + v)[..|n| + 1] == n + "=";
  }

  lemma {:induction false} GetUnset(es: seq<string>, n: string, m: string)
    requires IsName(n) && IsName(m)
    ensures Get(Unset(es, n), m) == if m == n then None else Get(es, m)
  {
    if es != [] {
      GetUnset(es[1..], n, m);
      if Defines(es[0], n) && Defines(es[0], m) { OneNamePerEntry(es[0], n, m); }
      hide Defines;
      assert ([es[0]] + Unset(es[1..], n))[1..] == Unset(es[1..], n);
    }
  }

  lemma {:induction false} GetSet(es: seq<string>, n: string, v: string, m: string)
    requires IsName(n) && IsName(m)
    ensures Get(Set(es, n, v), m) == if m == n then Some(v) else Get(es, m)
  {
    var e := n + "=" + v;
    Written(n, v);
    if Defines(e, m) { OneNamePerEntry(e, n, m); }
    if es != [] {
      if Defines(es[0], n) && Defines(es[0], m) { OneNamePerEntry(es[0], n, m); }
      GetSet(es[1..], n, v, m);
      hide Defines;
      assert ([e] + es[1..])[1..] == es[1..];
      assert ([es[0]] + Set(es[1..], n, v))[1..] == Set(es[1..], n, v);
    } else {
      hide Defines;
      assert [e][1..] == [];
    }
  }

  class Environment {
    var entries: seq<string>
    /** Every environment there has been, newest last. */
    ghost var trace: seq<seq<string>>

    constructor (initial: seq<string>)
      ensures entries == initial && trace == [initial]
    {
      entries, trace := initial, [initial];
    }

    method Unsetenv(name: string)
      modifies this
      ensures entries == Unset(old(entries), name) && trace == old(trace) + [entries]
    {
      entries := Unset(entries, name);
      trace := trace + [entries];
    }

    method Setenv(name: string, value: string)
      modifies this
      ensures entries == Set(old(entries), name, value) && trace == old(trace) + [entries]
    {
      entries := Set(entries, name, value);
      trace := trace + [entries];
    }
  }

  // ---- looking an entry up

  ghost function FirstDefining(es: seq<string>, prefix: string): Option<string> {
    if es == [] then None
    else if StartsWith(es[0], prefix) then Some(es[0])
    else FirstDefining(es[1..], prefix)
  }

  ghost predicate AtMostOne(es: seq<string>, prefix: string) {
    forall i, j :: 0 <= i < j < |es| && StartsWith(es[i], prefix) ==> !StartsWith(es[j], prefix)
  }

  lemma {:induction false} FirstDefiningIs(es: seq<string>, prefix: string, i: nat)
    requires i < |es| && StartsWith(es[i], prefix)
    requires forall j :: 0 <= j < i ==> !StartsWith(es[j], prefix)
    ensures FirstDefining(es, prefix) == Some(es[i])
  {
    if i > 0 {
      FirstDefiningIs(es[1..], prefix, i - 1);
    }
  }

  lemma {:induction false} SomeDefining(es: seq<string>, prefix: string, i: nat)
    requires i < |es| && StartsWith(es[i], prefix)
    ensures FirstDefining(es, prefix).Some?
  {
    if i > 0 {
      SomeDefining(es[1..], prefix, i - 1);
    }
  }

  lemma {:induction false} NoneDefining(es: seq<string>, prefix: string)
    requires forall j :: 0 <= j < |es| ==> !StartsWith(es[j], prefix)
    ensures FirstDefining(es, prefix) == None
  {
    if es != [] {
      NoneDefining(es[1..], prefix);
    }
  }

  /** Where names are unique the hint only saves time; otherwise it may find a later entry that fits as well. */
  method EntryFind(es: seq<string>, hint: nat, prefix: string) returns (found: Option<string>)
    ensures AtMostOne(es, prefix) ==> found == FirstDefining(es, prefix)
    ensures found == FirstDefining(es, prefix) ||
            (hint < |es| && found == Some(es[hint]) && StartsWith(es[hint], prefix))
    ensures found.Some? <==> FirstDefining(es, prefix).Some?
  {
    hide FirstDefining;
    if hint < |es| && StartsWith(es[hint], prefix) {
      if AtMostOne(es, prefix) { FirstDefiningIs(es, prefix, hint); }
      SomeDefining(es, prefix, hint);
      return Some(es[hint]);
    }
    for i := 0 to |es|
      invariant forall j :: 0 <= j < i ==> !StartsWith(es[j], prefix)
    {
      if StartsWith(es[i], prefix) {
        FirstDefiningIs(es, prefix, i);
        return Some(es[i]);
      }
    }
    NoneDefining(es, prefix);
    return None;
  }

  lemma {:induction false} FoundIsGot(es: seq<string>, n: string)
    ensures Get(es, n) == match FirstDefining(es, n + "=")
                          case None => None
                          case Some(e) => if |e| > |n| then Some(e[|n| + 1..]) else None
    ensures FirstDefining(es, n + "=").Some? ==> Defines(FirstDefining(es, n + "=").value, n)
  {
    if es != [] {
      FoundIsGot(es[1..], n);
    }
  }

  lemma UniqueAtMostOne(es: seq<string>, n: string)
    requires UniqueNames(es) && IsName(n)
    ensures AtMostOne(es, n + "=")
  {
    hide StartsWith, IsName;
    forall i, j | 0 <= i < j < |es| && StartsWith(es[i], n + "=")
      ensures !StartsWith(es[j], n + "=")
    {
      assert Defines(es[i], n);
      assert !Defines(es[j], n);
    }
  }

  lemma {:induction false} UniqueGet(es: seq<string>, n: string, i: nat)
    requires UniqueNames(es) && IsName(n) && i < |es| && Defines(es[i], n)
    ensures Get(es, n) == Some(es[i][|n| + 1..])
  {
    if i > 0 {
      assert !Defines(es[0], n);
      hide IsName, Defines;
      UniqueGet(es[1..], n, i - 1);
    }
  }

  // ---- restoring

  /** Every variable has its old or its saved value. */
  ghost predicate Gentle(was: seq<string>, saved: seq<string>, now: seq<string>) {
    forall n :: IsName(n) ==> Get(now, n) == Get(was, n) || Get(now, n) == Get(saved, n)
  }

  ghost predicate SameVariables(a: seq<string>, b: seq<string>) {
    forall n :: IsName(n) ==> Get(a, n) == Get(b, n)
  }

  /** The first i entries have been looked at, and what is not saved has been removed. */
  ghost predicate Removing(was: seq<string>, saved: seq<string>, i: nat, now: seq<string>)
    requires i <= |was|
  {
    forall n :: IsName(n) ==>
      Get(now, n) == if Get(was[..i], n).Some? && Get(saved, n) == None then None else Get(was, n)
  }

  /** The first i saved entries have been put back. */
  ghost predicate PuttingBack(was: seq<string>, saved: seq<string>, i: nat, now: seq<string>)
    requires i <= |saved|
  {
    forall n :: IsName(n) ==>
      Get(now, n) == if Get(saved[..i], n).Some? then Get(saved, n)
                     else if Get(saved, n) == None then None else Get(was, n)
  }

  lemma {:induction false} GetSnoc(es: seq<string>, i: nat, n: string)
    requires i < |es|
    ensures Get(es[..i + 1], n) ==
      if Get(es[..i], n).Some? then Get(es[..i], n)
      else if Defines(es[i], n) then Some(es[i][|n| + 1..]) else None
    ensures Defines(es[i], n) ==> Get(es, n).Some?
  {
    if i > 0 {
      GetSnoc(es[1..], i - 1, n);
      assert es[1..][..i - 1] == es[..i][1..] && es[1..][..i] == es[..i + 1][1..];
    } else {
      assert es[..1][1..] == [];
    }
  }

  lemma GetAll(es: seq<string>, n: string)
    ensures Get(es[..|es|], n) == Get(es, n) && Get(es[..0], n) == None
  {
    assert es[..|es|] == es;
  }

  lemma RemovingGentle(was: seq<string>, saved: seq<string>, i: nat, now: seq<string>)
    requires i <= |was| && Removing(was, saved, i, now)
    ensures Gentle(was, saved, now)
  {
    hide Get;
  }

  lemma PuttingBackGentle(was: seq<string>, saved: seq<string>, i: nat, now: seq<string>)
    requires i <= |saved| && PuttingBack(was, saved, i, now)
    ensures Gentle(was, saved, now)
  {
    hide Get;
  }

  lemma RemovingStarts(was: seq<string>, saved: seq<string>)
    ensures Removing(was, saved, 0, was)
  {
  }

  lemma PuttingBackStarts(was: seq<string>, saved: seq<string>, now: seq<string>)
    requires Removing(was, saved, |was|, now)
    ensures PuttingBack(was, saved, 0, now)
  {
    forall n | IsName(n)
      ensures Get(was[..|was|], n) == Get(was, n) && Get(saved[..0], n) == None
    {
      GetAll(was, n);
      GetAll(saved, n);
    }
    hide Get;
  }

  lemma PuttingBackEnds(was: seq<string>, saved: seq<string>, now: seq<string>)
    requires PuttingBack(was, saved, |saved|, now)
    ensures SameVariables(now, saved)
  {
    forall n | IsName(n)
      ensures Get(saved[..|saved|], n) == Get(saved, n)
    {
      GetAll(saved, n);
    }
    hide Get;
  }

  /** A malformed entry defines nothing. */
  lemma MalformedDefinesNothing(e: string, n: string)
    requires IsName(n) && Defines(e, n)
    ensures WellFormed(e)
  {
    assert e[|n|] == e[..|n| + 1][|n|] == '=';
    assert e[0] == e[..|n| + 1][0] == n[0];
  }

  lemma RemovingSkips(was: seq<string>, saved: seq<string>, i: nat, now: seq<string>)
    requires i < |was| && Removing(was, saved, i, now) && !WellFormed(was[i])
    ensures Removing(was, saved, i + 1, now)
  {
    forall n | IsName(n)
      ensures Get(was[..i + 1], n) == Get(was[..i], n)
    {
      GetSnoc(was, i, n);
      if Defines(was[i], n) { MalformedDefinesNothing(was[i], n); }
    }
    hide Get;
  }

  lemma RemovingKeeps(was: seq<string>, saved: seq<string>, i: nat, now: seq<string>, m: string)
    requires i < |was| && Removing(was, saved, i, now) && IsName(m) && Defines(was[i], m) && Get(saved, m).Some?
    ensures Removing(was, saved, i + 1, now)
  {
    forall n | IsName(n)
      ensures n == m || Get(was[..i + 1], n) == Get(was[..i], n)
    {
      GetSnoc(was, i, n);
      if Defines(was[i], n) { OneNamePerEntry(was[i], n, m); }
    }
    hide Get;
  }

  lemma RemovingDrops(was: seq<string>, saved: seq<string>, i: nat, now: seq<string>, m: string)
    requires i < |was| && Removing(was, saved, i, now) && IsName(m) && Defines(was[i], m) && Get(saved, m) == None
    ensures Removing(was, saved, i + 1, Unset(now, m))
  {
    GetSnoc(was, i, m);
    forall n | IsName(n)
      ensures n == m || Get(was[..i + 1], n) == Get(was[..i], n)
      ensures Get(Unset(now, m), n) == if n == m then None else Get(now, n)
    {
      GetSnoc(was, i, n);
      if Defines(was[i], n) { OneNamePerEntry(was[i], n, m); }
      GetUnset(now, m, n);
    }
    hide Get, Unset;
  }

  lemma PuttingBackSkips(was: seq<string>, saved: seq<string>, i: nat, now: seq<string>)
    requires i < |saved| && PuttingBack(was, saved, i, now) && !WellFormed(saved[i])
    ensures PuttingBack(was, saved, i + 1, now)
  {
    forall n | IsName(n)
      ensures Get(saved[..i + 1], n) == Get(saved[..i], n)
    {
      GetSnoc(saved, i, n);
      if Defines(saved[i], n) { MalformedDefinesNothing(saved[i], n); }
    }
    hide Get;
  }

  lemma PuttingBackKeeps(was: seq<string>, saved: seq<string>, i: nat, now: seq<string>, m: string)
    requires i < |saved| && PuttingBack(was, saved, i, now) && IsName(m) && Defines(saved[i], m)
    requires Get(was, m) == Get(saved, m)
    ensures PuttingBack(was, saved, i + 1, now)
  {
    GetSnoc(saved, i, m);
    forall n | IsName(n)
      ensures n == m || Get(saved[..i + 1], n) == Get(saved[..i], n)
    {
      GetSnoc(saved, i, n);
      if Defines(saved[i], n) { OneNamePerEntry(saved[i], n, m); }
    }
    hide Get;
  }

  lemma PuttingBackSets(was: seq<string>, saved: seq<string>, i: nat, now: seq<string>, m: string, v: string)
    requires i < |saved| && PuttingBack(was, saved, i, now) && IsName(m) && Defines(saved[i], m)
    requires Get(saved, m) == Some(v)
    ensures PuttingBack(was, saved, i + 1, Set(now, m, v))
  {
    GetSnoc(saved, i, m);
    forall n | IsName(n)
      ensures n == m || Get(saved[..i + 1], n) == Get(saved[..i], n)
      ensures Get(Set(now, m, v), n) == if n == m then Some(v) else Get(now, n)
    {
      GetSnoc(saved, i, n);
      if Defines(saved[i], n) { OneNamePerEntry(saved[i], n, m); }
      GetSet(now, m, v, n);
    }
    hide Get, Set;
  }

  /** `strchr(e, '=')` as an index, the length of the entry if there is none. */
  method FindEquals(e: string) returns (k: nat)
    ensures k <= |e| && (k < |e| <==> '=' in e)
    ensures 0 < k < |e| <==> WellFormed(e)
    ensures 0 < k < |e| ==> IsName(e[..k]) && Defines(e, e[..k]) && e[..k + 1] == e[..k] + "="
  {
    k := 0;
    while k < |e| && e[k] != '='
      invariant k <= |e| && forall i :: 0 <= i < k ==> e[i] != '='
    {
      k := k + 1;
    }
    assert k < |e| ==> e[..k + 1] == e[..k] + "=";
  }

  class Snapshot {
    /** None when nothing has been saved. */
    var entries: Option<seq<string>>

    constructor ()
      ensures entries == None
    {
      entries := None;
    }

    method Clear()
      modifies this
      ensures entries == None
    {
      entries := None;
    }

    method Take(env: Environment) returns (ok: bool)
      modifies this
      ensures ok && entries == Some(env.entries)
    {
      Clear();
      var walk := env.entries;
      var copy: seq<string> := [];
      for i := 0 to |walk|
        invariant copy == walk[..i]
      {
        copy := copy + [walk[i]];
      }
      assert copy == walk;
      entries := Some(copy);
      return true;
    }

    /** `walk` is the environment as it was when the restoring began. */
    method RemoveUnsaved(env: Environment, walk: seq<string>, saved: seq<string>)
      requires env.entries == walk
      modifies env
      ensures Removing(walk, saved, |walk|, env.entries)
      ensures |old(env.trace)| <= |env.trace| && env.trace[..|old(env.trace)|] == old(env.trace)
      ensures forall k :: |old(env.trace)| <= k < |env.trace| ==> Gentle(walk, saved, env.trace[k])
    {
      hide Removing, Gentle, UniqueNames, WellFormed, IsName, Defines, Get, Unset;
      RemovingStarts(walk, saved);
      for i := 0 to |walk|
        invariant Removing(walk, saved, i, env.entries)
        invariant |old(env.trace)| <= |env.trace| && env.trace[..|old(env.trace)|] == old(env.trace)
        invariant forall k :: |old(env.trace)| <= k < |env.trace| ==> Gentle(walk, saved, env.trace[k])
      {
        var entry := walk[i];
        var eq := FindEquals(entry);
        if eq == |entry| || eq == 0 {
          RemovingSkips(walk, saved, i, env.entries);
          continue;
        }
        var name := entry[..eq];
        FoundIsGot(saved, name);
        var found := EntryFind(saved, i, entry[..eq + 1]);
        if found.Some? {
          GotOne(saved, name);
          RemovingKeeps(walk, saved, i, env.entries, name);
          continue;
        }
        RemovingDrops(walk, saved, i, env.entries, name);
        env.Unsetenv(name);
        RemovingGentle(walk, saved, i + 1, env.entries);
      }
    }

    method PutBack(env: Environment, walk: seq<string>, saved: seq<string>) returns (ok: bool)
      requires Removing(walk, saved, |walk|, env.entries)
      modifies env
      ensures UniqueNames(walk) && UniqueNames(saved) ==> SameVariables(env.entries, saved)
      ensures ok <==> forall e :: e in saved ==> WellFormed(e)
      ensures |old(env.trace)| <= |env.trace| && env.trace[..|old(env.trace)|] == old(env.trace)
      ensures UniqueNames(walk) && UniqueNames(saved) ==>
        forall k :: |old(env.trace)| <= k < |env.trace| ==> Gentle(walk, saved, env.trace[k])
    {
      hide Removing, PuttingBack, Gentle, UniqueNames, WellFormed, IsName, Defines, Get, Set, SameVariables;
      ghost var unique := UniqueNames(walk) && UniqueNames(saved);
      ok := true;
      PuttingBackStarts(walk, saved, env.entries);
      for i := 0 to |saved|
        invariant unique ==> PuttingBack(walk, saved, i, env.entries)
        invariant ok <==> forall j :: 0 <= j < i ==> WellFormed(saved[j])
        invariant |old(env.trace)| <= |env.trace| && env.trace[..|old(env.trace)|] == old(env.trace)
        invariant unique ==> forall k :: |old(env.trace)| <= k < |env.trace| ==> Gentle(walk, saved, env.trace[k])
      {
        var entry := saved[i];
        var eq := FindEquals(entry);
        if eq == |entry| || eq == 0 {
          if unique { PuttingBackSkips(walk, saved, i, env.entries); }
          ok := false;
          continue;
        }
        var name := entry[..eq];
        if unique { OldAndSaved(walk, saved, i, name); }
        var current := EntryFind(walk, i, entry[..eq + 1]);
        if current == Some(entry) {
          if unique { PuttingBackKeeps(walk, saved, i, env.entries, name); }
          continue;
        }
        if unique { PuttingBackSets(walk, saved, i, env.entries, name, entry[eq + 1..]); }
        env.Setenv(name, entry[eq + 1..]);
        if unique { PuttingBackGentle(walk, saved, i + 1, env.entries); }
      }
      if unique { PuttingBackEnds(walk, saved, env.entries); }
    }

    /** The saved variables are back, and on the way there each variable had its old or its saved value. */
    method Restore(env: Environment) returns (ok: bool)
      modifies this, env
      ensures entries == None
      ensures old(entries) == None ==> ok && env.entries == old(env.entries) && env.trace == old(env.trace)
      ensures old(entries).Some? && UniqueNames(old(env.entries)) && UniqueNames(old(entries).value) ==>
        SameVariables(env.entries, old(entries).value)
      ensures old(entries).Some? ==> (ok <==> forall e :: e in old(entries).value ==> WellFormed(e))
      ensures |old(env.trace)| <= |env.trace| && env.trace[..|old(env.trace)|] == old(env.trace)
      ensures old(entries).Some? && UniqueNames(old(env.entries)) && UniqueNames(old(entries).value) ==>
        forall k :: |old(env.trace)| <= k < |env.trace| ==> Gentle(old(env.entries), old(entries).value, env.trace[k])
    {
      if entries == None {
        return true;
      }
      hide *;
      var walk := env.entries;
      RemoveUnsaved(env, walk, entries.value);
      ok := PutBack(env, walk, entries.value);
      Clear();
    }
  }

  lemma OldAndSaved(was: seq<string>, saved: seq<string>, i: nat, n: string)
    requires UniqueNames(was) && UniqueNames(saved) && IsName(n) && i < |saved| && Defines(saved[i], n)
    ensures AtMostOne(was, n + "=") && Get(saved, n) == Some(saved[i][|n| + 1..])
    ensures FirstDefining(was, n + "=") == Some(saved[i]) ==> Get(was, n) == Get(saved, n)
  {
    UniqueAtMostOne(was, n);
    FoundIsGot(was, n);
    UniqueGet(saved, n, i);
    NameAtFront(saved[i], n);
  }

  lemma GotOne(es: seq<string>, n: string)
    requires FirstDefining(es, n + "=").Some?
    ensures Get(es, n).Some?
  {
    FoundIsGot(es, n);
    NameAtFront(FirstDefining(es, n + "=").value, n);
  }

  /** What each moment of a restore is worth to others: nothing shared is missing, nothing unchanged is altered. */
  lemma GentleMeans(was: seq<string>, saved: seq<string>, now: seq<string>, n: string)
    requires Gentle(was, saved, now) && IsName(n)
    ensures Get(was, n).Some? && Get(saved, n).Some? ==> Get(now, n).Some?
    ensures Get(was, n) == Get(saved, n) ==> Get(now, n) == Get(was, n)
  {
    hide Get, IsName;
  }

  // ---- a program keeps names unique

  lemma {:induction false} UnsetKeepsUnique(es: seq<string>, n: string)
    requires UniqueNames(es)
    ensures UniqueNames(Unset(es, n)) && forall e :: e in Unset(es, n) ==> e in es
  {
    if es != [] {
      UnsetKeepsUnique(es[1..], n);
      if !Defines(es[0], n) { UniqueCons(es[0], es[1..], Unset(es[1..], n)); }
      hide Defines, IsName, UniqueNames;
    }
  }

  lemma UniqueCons(e: string, rest: seq<string>, fewer: seq<string>)
    requires UniqueNames([e] + rest) && UniqueNames(fewer) && forall f :: f in fewer ==> f in rest
    ensures UniqueNames([e] + fewer)
  {
    var all, few := [e] + rest, [e] + fewer;
    forall i, j, n | 0 <= i < j < |few| && IsName(n) && Defines(few[i], n)
      ensures !Defines(few[j], n)
    {
      if i == 0 {
        assert few[j] in fewer;
        var k :| 0 <= k < |rest| && rest[k] == few[j];
        assert all[k + 1] == few[j] && Defines(all[0], n);
      } else {
        assert few[i] == fewer[i - 1] && few[j] == fewer[j - 1];
      }
    }
  }

  lemma {:induction false} SetKeepsUnique(es: seq<string>, n: string, v: string)
    requires UniqueNames(es) && IsName(n)
    ensures UniqueNames(Set(es, n, v))
    ensures forall e :: e in Set(es, n, v) ==> e in es || e == n + "=" + v
  {
    if es != [] {
      if Defines(es[0], n) {
        SwapFirst(es, n, v);
      } else {
        SetKeepsUnique(es[1..], n, v);
        UniqueConsSet(es, n, v);
      }
      hide Defines, IsName, UniqueNames;
    }
  }

  lemma SwapFirst(es: seq<string>, n: string, v: string)
    requires UniqueNames(es) && IsName(n) && es != [] && Defines(es[0], n)
    ensures UniqueNames([n + "=" + v] + es[1..])
  {
    var e := n + "=" + v;
    var all := [e] + es[1..];
    Written(n, v);
    forall i, j, m | 0 <= i < j < |all| && IsName(m) && Defines(all[i], m)
      ensures !Defines(all[j], m)
    {
      if i == 0 { OneNamePerEntry(e, n, m); }
      assert Defines(es[i], m) && all[j] == es[j];
    }
  }

  lemma UniqueConsSet(es: seq<string>, n: string, v: string)
    requires UniqueNames(es) && IsName(n) && es != [] && !Defines(es[0], n)
    requires UniqueNames(Set(es[1..], n, v))
    requires forall e :: e in Set(es[1..], n, v) ==> e in es[1..] || e == n + "=" + v
    ensures UniqueNames([es[0]] + Set(es[1..], n, v))
  {
    var rest := Set(es[1..], n, v);
    var all := [es[0]] + rest;
    hide Set;
    forall i, j, m | 0 <= i < j < |all| && IsName(m) && Defines(all[i], m)
      ensures !Defines(all[j], m)
    {
      if i == 0 {
        assert all[j] == rest[j - 1] && rest[j - 1] in rest;
        Written(n, v);
        if all[j] == n + "=" + v {
          if Defines(all[j], m) { OneNamePerEntry(all[j], n, m); }
        } else {
          var k :| 0 <= k < |es[1..]| && es[1..][k] == all[j];
          assert es[k + 1] == all[j];
        }
      } else {
        assert all[i] == rest[i - 1] && all[j] == rest[j - 1];
      }
    }
  }

  /** An environment saved and changed in any way comes back. */
  method SaveChangeRestore(initial: seq<string>, changed: seq<string>) returns (env: Environment, ok: bool)
    requires UniqueNames(initial) && UniqueNames(changed)
    ensures SameVariables(env.entries, initial) && (ok <==> forall e :: e in initial ==> WellFormed(e))
    ensures forall k :: 1 <= k < |env.trace| ==> Gentle(changed, initial, env.trace[k])
  {
    hide *;
    env := new Environment(initial);
    var snapshot := new Snapshot();
    var _ := snapshot.Take(env);
    env.entries := changed;
    ok := snapshot.Restore(env);
  }
}
