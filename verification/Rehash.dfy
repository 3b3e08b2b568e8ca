/**
 Growing the hash table, and taking the DHCP entries out of it.
 */
module Rehash {
  import opened Names
  import opened Records
  import opened State
  import opened Keeps
  import opened Scans
  import opened Answers

  predicate Pow2(n: nat)
    decreases n
  {
    n == 1 || (n > 0 && n % 2 == 0 && Pow2(n / 2))
  }

  // The size that `rehash` aims for: doubled from `n` until it reaches `goal`.
  function Doubled(n: nat, goal: int): (r: nat)
    requires 0 < n && Pow2(n)
    ensures Pow2(r) && n <= r && goal <= r && (r == n || r < 2 * goal)
    decreases goal - n
  {
    if n < goal then Doubled(2 * n, goal) else n
  }

  lemma {:induction false} PowTwice(n: nat)
    requires Pow2(n)
    ensures Pow2(2 * n)
  {}

  lemma {:induction false} PowSixtyFour()
    ensures Pow2(64)
  {
    assert Pow2(1) && Pow2(2) && Pow2(4) && Pow2(8) && Pow2(16) && Pow2(32);
  }

  function NewSize(size: nat): (r: nat)
    ensures Pow2(r) && 64 <= r && size / 10 <= r && (r == 64 || r < 2 * (size / 10))
  {
    PowSixtyFour();
    Doubled(64, size / 10)
  }

  // For a power of two, masking with `size - 1` is taking the remainder.
  lemma {:induction false} MaskIsRemainder(v: nat, size: nat)
    requires Pow2(size)
    ensures BitAnd(v, size - 1) == v % size
    decreases size
  {
    if size > 1 {
      var m := size / 2;
      MaskIsRemainder(v / 2, m);
      AndOdd(v, m);
      HalfRemainder(v, m);
    }
  }

  lemma {:induction false} AndOdd(v: nat, m: nat)
    requires m > 0
    ensures BitAnd(v, 2 * m - 1) == v % 2 + 2 * BitAnd(v / 2, m - 1)
  {
    assert (2 * m - 1) % 2 == 1 && (2 * m - 1) / 2 == m - 1;
  }

  lemma {:induction false} HalfRemainder(v: nat, m: nat)
    requires m > 0
    ensures v % 2 + 2 * ((v / 2) % m) == v % (2 * m)
  {
    var q, r := v / 2 / m, (v / 2) % m;
    assert v / 2 == q * m + r;
    assert v == q * (2 * m) + (2 * r + v % 2);
    assert 0 <= 2 * r + v % 2 < 2 * m;
    Remainder(v, q, 2 * m, 2 * r + v % 2);
  }

  lemma {:induction false} Scaled(d: int, m: int)
    requires m > 0
    ensures (d > 0 ==> d * m >= m) && (d < 0 ==> d * m <= -m)
  {}

  lemma {:induction false} Remainder(v: int, q: int, m: int, r: int)
    requires v == q * m + r && 0 <= r < m
    ensures v % m == r
  {
    var d := v / m - q;
    assert v % m == r - d * m;
    assert (d > 0 ==> d * m >= m) && (d < 0 ==> d * m <= -m) by { Scaled(d, m); }
  }

  // ---------- rehash ----------

  function RehashChain(s: State, c: seq<Id>): (t: State)
    ensures |t.table| == |s.table| && t == s.(table := t.table)
    decreases |c|
  {
    if c == [] then s else RehashChain(Hash(s, c[0]), c[1..])
  }

  function RehashAll(s: State, from: seq<seq<Id>>): (t: State)
    ensures |t.table| == |s.table| && t == s.(table := t.table)
    decreases |from|
  {
    if from == [] then s else RehashAll(RehashChain(s, from[0]), from[1..])
  }

  function Grow(s: State, size: CInt, malloc: bool): State {
    var n := NewSize(size);
    if n <= |s.table| || !malloc then s
    else RehashAll(s.(table := seq(n, _ => [])), s.table)
  }

  // An entry that belongs in the table, wherever its bucket now is.
  ghost predicate Belongs(s: State, r: Id) {
    && r in s.recs
    && (if r < s.n then r in s.lru && InUse(s.At(r).flags) else Static(s.At(r).flags))
  }

  lemma {:induction false} HashAdds(s: State, r: Id)
    requires ChainsOk(s) && OrderOk(s) && !s.Hashed(r) && Belongs(s, r)
    ensures var t := Hash(s, r);
      ChainsOk(t) && OrderOk(t) && forall p: Id :: t.Hashed(p) <==> s.Hashed(p) || p == r
  {
    hide Bucket, ChainsOk, OrderOk, Place;
    HashKeeps(s, r);
    var t := Hash(s, r);
    forall p: Id | t.Hashed(p) ensures s.Hashed(p) || p == r {
      assert t.Home(p) == s.Home(p);
    }
  }

  lemma {:induction false} RehashChainAdds(s: State, c: seq<Id>)
    requires ChainsOk(s) && OrderOk(s) && NoDup(c) && forall r: Id :: r in c ==> Belongs(s, r) && !s.Hashed(r)
    ensures var t := RehashChain(s, c);
      ChainsOk(t) && OrderOk(t) && forall p: Id :: t.Hashed(p) <==> s.Hashed(p) || p in c
    decreases |c|
  {
    hide Bucket, ChainsOk, OrderOk, Hash;
    if c != [] {
      var t := Hash(s, c[0]);
      HashAdds(s, c[0]);
      HashOnly(s, c[0]);
      assert c == [c[0]] + c[1..];
      forall r: Id | r in c[1..] ensures Belongs(t, r) && !t.Hashed(r) {
        assert r in c && r != c[0] && Belongs(s, r);
      }
      RehashChainAdds(t, c[1..]);
      forall p: Id ensures RehashChain(s, c).Hashed(p) <==> s.Hashed(p) || p in c {
        assert p in c <==> p == c[0] || p in c[1..];
      }
    }
  }

  lemma {:induction false} HashOnly(s: State, r: Id)
    ensures Hash(s, r) == s.(table := Hash(s, r).table)
  {}

  // All entries of the old chains, still to be hashed.
  ghost predicate Waiting(s: State, from: seq<seq<Id>>) {
    && (forall i :: 0 <= i < |from| ==> NoDup(from[i]))
    && (forall i, r: Id :: 0 <= i < |from| && r in from[i] ==> Belongs(s, r) && !s.Hashed(r))
    && (forall i, j, r: Id :: 0 <= i < j < |from| && r in from[i] ==> r !in from[j])
  }

  lemma {:induction false} RehashAllAdds(s: State, from: seq<seq<Id>>)
    requires ChainsOk(s) && OrderOk(s) && Waiting(s, from)
    ensures var t := RehashAll(s, from);
      ChainsOk(t) && OrderOk(t) && forall p: Id :: t.Hashed(p) <==> s.Hashed(p) || exists i :: 0 <= i < |from| && p in from[i]
    decreases |from|
  {
    hide Bucket, ChainsOk, OrderOk, RehashChain;
    if from != [] {
      var t := RehashChain(s, from[0]);
      RehashChainAdds(s, from[0]);
      forall i, r: Id | 0 <= i < |from[1..]| && r in from[1..][i] ensures Belongs(t, r) && !t.Hashed(r) {
        assert r in from[i + 1] && Belongs(s, r);
      }
      RehashAllAdds(t, from[1..]);
      forall p: Id
        ensures RehashAll(s, from).Hashed(p) <==> s.Hashed(p) || exists i :: 0 <= i < |from| && p in from[i]
      {
        if exists i :: 0 <= i < |from| && p in from[i] {
          var i :| 0 <= i < |from| && p in from[i];
          assert i > 0 ==> p in from[1..][i - 1];
        }
        if exists i :: 0 <= i < |from[1..]| && p in from[1..][i] {
          var i :| 0 <= i < |from[1..]| && p in from[1..][i];
          assert p in from[i + 1];
        }
      }
    }
  }

  // The table is large enough for the size, and not smaller than `least`.
  predicate Ample(m: nat, least: nat, size: nat) {
    Pow2(m) && 64 <= m && least <= m && size / 10 <= m
  }

  lemma {:induction false} PowGap(a: nat, b: nat)
    requires Pow2(a) && Pow2(b) && a < b
    ensures 2 * a <= b
    decreases a
  {
    if a > 1 {
      PowGap(a / 2, b / 2);
    }
  }

  lemma {:induction false} NewSizeLeast(size: nat, m: nat)
    requires Pow2(m) && 64 <= m && size / 10 <= m
    ensures NewSize(size) <= m
  {
    hide NewSize;
    if m < NewSize(size) {
      PowGap(m, NewSize(size));
    }
  }

  // A larger table holds exactly the entries of the old one, each in its new bucket,
  // and nothing else has changed. Its size is the least power of two that is enough for
  // the cache size and not less than the old one, if there is memory for it.
  lemma {:induction false} GrowInvisible(s: State, size: CInt, malloc: bool)
    requires Inv(s) && Pow2(|s.table|)
    ensures var t := Grow(s, size, malloc);
      && Inv(t) && t == s.(table := t.table) && |t.table| >= |s.table| && Pow2(|t.table|)
      && (forall r: Id :: t.Hashed(r) <==> s.Hashed(r))
      && (!malloc || |t.table| == |s.table| ==> t == s)
      && (malloc ==> Ample(|t.table|, |s.table|, size) && forall m: nat :: Ample(m, |s.table|, size) ==> |t.table| <= m)
  {
    hide Bucket, RehashAll, PoolOk, RecsOk, LruOk, UidsOk, LinksOk, BigOk, NewSize, Pow2;
    var t := Grow(s, size, malloc);
    forall m: nat | Ample(m, |s.table|, size) ensures NewSize(size) <= m {
      NewSizeLeast(size, m);
    }
    if t != s {
      var e := s.(table := seq(NewSize(size), _ => []));
      assert ChainsOk(e) && OrderOk(e);
      AllWaiting(s, e);
      RehashAllAdds(e, s.table);
      forall r: Id ensures t.Hashed(r) <==> s.Hashed(r) {
        if s.Hashed(r) {
          assert r in s.table[s.Home(r)];
        }
        if exists b :: 0 <= b < |s.table| && r in s.table[b] {
          var b :| 0 <= b < |s.table| && r in s.table[b];
          assert ChainOk(s, b, s.table[b]) && EntryOk(s, r, b);
        }
      }
      GrowRest(s, t);
    }
  }

  lemma {:induction false} AllWaiting(s: State, e: State)
    requires ChainsOk(s) && e == s.(table := e.table) && forall b :: 0 <= b < |e.table| ==> e.table[b] == []
    ensures Waiting(e, s.table)
  {
    hide Bucket;
    forall i | 0 <= i < |s.table| ensures NoDup(s.table[i]) {
      assert ChainOk(s, i, s.table[i]);
    }
    forall i, r: Id | 0 <= i < |s.table| && r in s.table[i] ensures Belongs(e, r) && !e.Hashed(r) {
      assert ChainOk(s, i, s.table[i]) && EntryOk(s, r, i);
    }
    forall i, j, r: Id | 0 <= i < j < |s.table| && r in s.table[i] ensures r !in s.table[j] {
      assert ChainOk(s, i, s.table[i]) && ChainOk(s, j, s.table[j]) && EntryOk(s, r, i);
      assert r in s.table[j] ==> EntryOk(s, r, j);
    }
  }

  lemma {:induction false} GrowRest(s: State, t: State)
    requires PoolOk(s) && RecsOk(s) && LruOk(s) && UidsOk(s) && LinksOk(s) && BigOk(s) && FindableOk(s)
    requires t == s.(table := t.table) && forall r: Id :: t.Hashed(r) <==> s.Hashed(r)
    ensures PoolOk(t) && RecsOk(t) && LruOk(t) && UidsOk(t) && LinksOk(t) && BigOk(t) && FindableOk(t)
  {
    hide Bucket;
    assert BigSet(t) == BigSet(s);
  }

  // ---------- cache_unhash_dhcp ----------

  function UnhashChain(s: State, b: nat, u: nat): (t: State)
    requires b < |s.table| && u <= |s.table[b]|
    ensures |t.table| == |s.table| && t == s.(table := t.table, spare := t.spare)
    decreases |s.table[b]| - u
  {
    if u == |s.table[b]| then s
    else
      var r := s.table[b][u];
      if F_DHCP in s.At(r).flags then UnhashChain(Unhash(s, b, u).(spare := [r] + s.spare), b, u)
      else UnhashChain(s, b, u + 1)
  }

  function UnhashDhcp(s: State, b: nat): (t: State)
    requires b <= |s.table|
    ensures |t.table| == |s.table| && t == s.(table := t.table, spare := t.spare)
    decreases |s.table| - b
  {
    if b == |s.table| then s else UnhashDhcp(UnhashChain(s, b, 0), b + 1)
  }

  // The DHCP entries among the first `u` of a chain are gone, the others are
  // where they were relative to each other.
  function Forget(recs: map<Id, Rec>, c: seq<Id>): seq<Id> {
    if c == [] then []
    else if F_DHCP in Get(recs, c[0]).flags then Forget(recs, c[1..])
    else [c[0]] + Forget(recs, c[1..])
  }

  lemma {:induction false} UnhashOne(s: State, b: nat, u: nat)
    requires Inv(s) && b < |s.table| && u < |s.table[b]| && F_DHCP in s.At(s.table[b][u]).flags
    ensures Inv(Unhash(s, b, u).(spare := [s.table[b][u]] + s.spare))
  {
    hide Bucket, Inv;
    HashedStatic(s, b, u);
    UnhashStatic(s, b, u);
    NextKeeps(Unhash(s, b, u), Unhash(s, b, u).(spare := [s.table[b][u]] + s.spare));
  }

  lemma {:induction false} UnhashChainExact(s: State, b: nat, u: nat)
    requires Inv(s) && b < |s.table| && u <= |s.table[b]|
    ensures var t := UnhashChain(s, b, u);
      && Inv(t) && t.table == s.table[b := s.table[b][..u] + Forget(s.recs, s.table[b][u..])]
    decreases |s.table[b]| - u
  {
    hide Bucket, Inv;
    var c := s.table[b];
    if u == |c| {
      assert c[..u] + Forget(s.recs, c[u..]) == c;
    } else {
      assert c[u..][1..] == c[u + 1..];
      if F_DHCP in s.At(c[u]).flags {
        UnhashOne(s, b, u);
        var t := Unhash(s, b, u).(spare := [c[u]] + s.spare);
        UnhashChainExact(t, b, u);
        assert t.table[b][..u] == c[..u] && t.table[b][u..] == c[u + 1..];
      } else {
        UnhashChainExact(s, b, u + 1);
        assert c[..u + 1] + Forget(s.recs, c[u + 1..]) == c[..u] + ([c[u]] + Forget(s.recs, c[u + 1..]));
      }
    }
  }

  // Every chain loses exactly its DHCP entries and keeps the order of the rest.
  lemma {:induction false} DhcpForgotten(s: State, b: nat)
    requires Inv(s) && b <= |s.table|
    ensures var t := UnhashDhcp(s, b);
      && Inv(t)
      && forall b' :: 0 <= b' < |s.table| ==> t.table[b'] == if b' < b then s.table[b'] else Forget(s.recs, s.table[b'])
    decreases |s.table| - b
  {
    hide Bucket, Inv;
    if b < |s.table| {
      UnhashChainExact(s, b, 0);
      assert s.table[b][..0] + Forget(s.recs, s.table[b][0..]) == Forget(s.recs, s.table[b]) by {
        assert s.table[b][0..] == s.table[b];
      }
      DhcpForgotten(UnhashChain(s, b, 0), b + 1);
    }
  }

  // ---------- the records that are spare ----------

  // No record is spare twice, and none that is in the table is spare.
  ghost predicate SpareApart(s: State) {
    NoDup(s.spare) && forall b, r: Id :: 0 <= b < |s.table| && r in s.table[b] ==> r !in s.spare
  }

  lemma {:induction false} SpareOne(s: State, b: nat, u: nat)
    requires Inv(s) && SpareApart(s) && b < |s.table| && u < |s.table[b]|
    ensures SpareApart(Unhash(s, b, u).(spare := [s.table[b][u]] + s.spare))
  {
    hide Bucket, PoolOk, RecsOk, FindableOk, OrderOk, LruOk, UidsOk, LinksOk, BigOk;
    var r, t := s.table[b][u], Unhash(s, b, u).(spare := [s.table[b][u]] + s.spare);
    assert ChainOk(s, b, s.table[b]) && EntryOk(s, r, b);
    CutFacts(s.table[b], u);
    ConsNoDup(s.spare, r);
    hide NoDup;
    forall b', p: Id | 0 <= b' < |t.table| && p in t.table[b'] ensures p !in t.spare {
      assert ChainOk(s, b', s.table[b']) && p in s.table[b'] && EntryOk(s, p, b');
      assert p != r;
    }
  }

  lemma {:induction false} UnhashChainSpares(s: State, b: nat, u: nat)
    requires Inv(s) && SpareApart(s) && b < |s.table| && u <= |s.table[b]|
    ensures var t := UnhashChain(s, b, u);
      && SpareApart(t) && |s.spare| <= |t.spare| && t.spare[|t.spare| - |s.spare|..] == s.spare
      && forall r: Id :: r in t.spare <==> r in s.spare || (r in s.table[b][u..] && F_DHCP in s.At(r).flags)
    decreases |s.table[b]| - u
  {
    hide Bucket, Inv, SpareApart;
    var c := s.table[b];
    if u < |c| {
      assert c[u..] == [c[u]] + c[u + 1..];
      if F_DHCP in s.At(c[u]).flags {
        var t := Unhash(s, b, u).(spare := [c[u]] + s.spare);
        UnhashOne(s, b, u);
        SpareOne(s, b, u);
        UnhashChainSpares(t, b, u);
        assert t.table[b][u..] == c[u + 1..];
        SuffixTwice(UnhashChain(s, b, u).spare, t.spare, s.spare);
      } else {
        UnhashChainSpares(s, b, u + 1);
      }
    }
  }

  lemma {:induction false} SuffixTwice(a: seq<Id>, b: seq<Id>, c: seq<Id>)
    requires |b| <= |a| && a[|a| - |b|..] == b && |c| <= |b| && b[|b| - |c|..] == c
    ensures a[|a| - |c|..] == c
  {
    assert a[|a| - |c|..] == a[|a| - |b|..][|b| - |c|..];
  }

  // The record is a DHCP entry of a chain from `b` on.
  ghost predicate Leaves(s: State, b: nat, r: Id) {
    F_DHCP in s.At(r).flags && exists b' :: b <= b' < |s.table| && r in s.table[b']
  }

  lemma {:induction false} LeavesNext(s: State, v: State, b: nat, r: Id)
    requires b < |s.table| && |v.table| == |s.table| && v.recs == s.recs && forall b' :: b < b' < |s.table| ==> v.table[b'] == s.table[b']
    ensures Leaves(s, b, r) <==> Leaves(v, b + 1, r) || (r in s.table[b] && F_DHCP in s.At(r).flags)
  {
    hide Bucket;
    if Leaves(v, b + 1, r) {
      var b' :| b + 1 <= b' < |v.table| && r in v.table[b'];
      assert r in s.table[b'];
    }
    if Leaves(s, b, r) {
      var b' :| b <= b' < |s.table| && r in s.table[b'];
      assert b' > b ==> r in v.table[b'];
    }
  }

  lemma {:induction false} LeavesAll(s: State, r: Id)
    requires ChainsOk(s)
    ensures Leaves(s, 0, r) <==> s.Hashed(r) && F_DHCP in s.At(r).flags
  {
    hide Bucket;
    if Leaves(s, 0, r) {
      var b :| 0 <= b < |s.table| && r in s.table[b];
      assert ChainOk(s, b, s.table[b]) && EntryOk(s, r, b);
    }
  }

  lemma {:induction false} UnhashDhcpSpares(s: State, b: nat)
    requires Inv(s) && SpareApart(s) && b <= |s.table|
    ensures var t := UnhashDhcp(s, b);
      && SpareApart(t) && |s.spare| <= |t.spare| && t.spare[|t.spare| - |s.spare|..] == s.spare
      && forall r: Id :: r in t.spare <==> r in s.spare || Leaves(s, b, r)
    decreases |s.table| - b
  {
    hide Bucket, Inv, SpareApart, UnhashChain, Leaves, Forget;
    if b < |s.table| {
      var v := UnhashChain(s, b, 0);
      UnhashChainExact(s, b, 0);
      UnhashChainSpares(s, b, 0);
      assert s.table[b][0..] == s.table[b];
      UnhashDhcpSpares(v, b + 1);
      SuffixTwice(UnhashDhcp(s, b).spare, v.spare, s.spare);
      forall r: Id ensures Leaves(s, b, r) <==> Leaves(v, b + 1, r) || (r in s.table[b] && F_DHCP in s.At(r).flags) {
        LeavesNext(s, v, b, r);
      }
    } else {
      forall r: Id ensures !Leaves(s, b, r) {
        NoneLeaves(s, b, r);
      }
    }
  }

  lemma {:induction false} NoneLeaves(s: State, b: nat, r: Id)
    requires |s.table| <= b
    ensures !Leaves(s, b, r)
  {}

  // Exactly the DHCP entries leave the table. They become spare, each once, in front of
  // those that were; none that is in the table is spare.
  lemma {:induction false} DhcpSpared(s: State)
    requires Inv(s) && SpareApart(s)
    ensures var t := UnhashDhcp(s, 0);
      && SpareApart(t) && |s.spare| <= |t.spare| && t.spare[|t.spare| - |s.spare|..] == s.spare
      && (forall r: Id :: r in t.spare <==> r in s.spare || (s.Hashed(r) && F_DHCP in s.At(r).flags))
      && (forall r: Id :: t.Hashed(r) <==> s.Hashed(r) && F_DHCP !in s.At(r).flags)
  {
    hide Bucket, PoolOk, RecsOk, ChainsOk, FindableOk, OrderOk, LruOk, UidsOk, LinksOk, BigOk, SpareApart, UnhashDhcp, Leaves, Forget;
    UnhashDhcpSpares(s, 0);
    DhcpForgotten(s, 0);
    var t := UnhashDhcp(s, 0);
    forall r: Id ensures t.At(r) == s.At(r) && t.Home(r) == s.Home(r) && (t.Hashed(r) <==> s.Hashed(r) && F_DHCP !in s.At(r).flags)
      && (Leaves(s, 0, r) <==> s.Hashed(r) && F_DHCP in s.At(r).flags)
    {
      LeavesAll(s, r);
      ForgetIn(s.recs, s.table[s.Home(r)], r);
    }
  }

  lemma {:induction false} ForgetIn(recs: map<Id, Rec>, c: seq<Id>, r: Id)
    ensures r in Forget(recs, c) <==> r in c && F_DHCP !in Get(recs, r).flags
  {
    if c != [] {
      ForgetIn(recs, c[1..], r);
      assert c == [c[0]] + c[1..];
    }
  }
}
