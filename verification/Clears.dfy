/**
 What a scan clears: although it stops at the immortal entries of each chain, a
 scan of the whole table leaves no expired record, and a scan of one bucket
 leaves nothing in the way of the new entry.
 */
module Clears {
  import opened Names
  import opened Records
  import opened State
  import opened Keeps
  import opened Ops
  import opened Scans

  predicate Culled(x: Rec, now: int, flags: Flags, addr: Option<Data>) {
    Expired(now, x) || SameReverse(x, flags, addr)
  }

  // What left the table was to be culled.
  ghost predicate CulledOnly(s: State, t: State, now: int, flags: Flags, addr: Option<Data>) {
    |t.table| == |s.table| &&
    forall b, r: Id :: 0 <= b < |s.table| && r in s.table[b] && r !in t.table[b] ==> Culled(Get(s.recs, r), now, flags, addr)
  }

  ghost predicate Cleared(s: State, c: seq<Id>, now: int, flags: Flags, addr: Option<Data>) {
    forall r: Id :: r in c ==> !Culled(Get(s.recs, r), now, flags, addr)
  }

  lemma {:induction false} HashedKeeps(s: State, t: State, b: nat, r: Id)
    requires Inv(t) && Shrinks(s, t) && b < |s.table| && r in t.table[b]
    ensures Get(t.recs, r) == Get(s.recs, r)
  {
    hide Bucket, PoolOk, RecsOk, FindableOk, OrderOk, LruOk, UidsOk, LinksOk, BigOk;
    assert ChainOk(t, b, t.table[b]) && EntryOk(t, r, b);
  }

  lemma {:induction false} CulledTrans(s: State, t: State, v: State, now: int, flags: Flags, addr: Option<Data>)
    requires Inv(t) && Shrinks(s, t) && CulledOnly(s, t, now, flags, addr) && CulledOnly(t, v, now, flags, addr)
    ensures CulledOnly(s, v, now, flags, addr)
  {
    hide Bucket, Inv, Culled;
    forall b, r: Id | 0 <= b < |s.table| && r in s.table[b] && r !in v.table[b] ensures Culled(Get(s.recs, r), now, flags, addr) {
      if r in t.table[b] {
        HashedKeeps(s, t, b, r);
      }
    }
  }

  lemma {:induction false} ClearedStays(s: State, t: State, b: nat, now: int, flags: Flags, addr: Option<Data>)
    requires Inv(t) && Shrinks(s, t) && b < |s.table| && Cleared(s, s.table[b], now, flags, addr)
    ensures Cleared(t, t.table[b], now, flags, addr)
  {
    hide Bucket, Inv, Culled;
    forall r: Id | r in t.table[b] ensures !Culled(Get(t.recs, r), now, flags, addr) {
      HashedKeeps(s, t, b, r);
    }
  }

  lemma {:induction false} EvictCulled(s: State, b: nat, u: nat, now: int, flags: Flags, addr: Option<Data>)
    requires Inv(s) && b < |s.table| && u < |s.table[b]| && Culled(s.At(s.table[b][u]), now, flags, addr)
    ensures CulledOnly(s, Evict(s, b, u), now, flags, addr)
    ensures Evict(s, b, u).table[b][..u] == s.table[b][..u]
  {
    hide Bucket, EntryOk, Culled, PoolOk, RecsOk, FindableOk, OrderOk, LruOk, UidsOk, LinksOk, BigOk;
    assert ChainOk(s, b, s.table[b]);
    CutFacts(s.table[b], u);
  }

  lemma {:induction false} CulledRefl(s: State, now: int, flags: Flags, addr: Option<Data>)
    ensures CulledOnly(s, s, now, flags, addr)
  {}

  lemma {:induction false} ScanChainClears(s: State, b: nat, u: nat, now: int, flags: Flags, addr: Option<Data>)
    requires Inv(s) && b < |s.table| && u <= |s.table[b]| && Cleared(s, s.table[b][..u], now, flags, addr)
    ensures var t := ScanChain(s, b, u, now, flags, addr);
      CulledOnly(s, t, now, flags, addr) && Cleared(t, t.table[b], now, flags, addr)
    decreases |s.table[b]| - u
  {
    hide Bucket, Inv, Shrinks, CulledOnly, Cleared, Evict, Expired, SameReverse;
    CulledRefl(s, now, flags, addr);
    if u == |s.table[b]| || Segment(s.At(s.table[b][u]).flags) == 2 {
      RestImmortal(s, b, u, now, flags, addr);
    } else {
      var x, t := s.At(s.table[b][u]), Evict(s, b, u);
      if Expired(now, x) || SameReverse(x, flags, addr) {
        EvictKeeps(s, b, u);
        EvictShrinks(s, b, u);
        EvictCulled(s, b, u, now, flags, addr);
        EvictCleared(s, b, u, now, flags, addr);
        ScanChainClears(t, b, u, now, flags, addr);
        CulledTrans(s, t, ScanChain(t, b, u, now, flags, addr), now, flags, addr);
      } else {
        SkipCleared(s, b, u, now, flags, addr);
        ScanChainClears(s, b, u + 1, now, flags, addr);
      }
    }
  }

  lemma {:induction false} EvictCleared(s: State, b: nat, u: nat, now: int, flags: Flags, addr: Option<Data>)
    requires Inv(s) && b < |s.table| && u < |s.table[b]| && Cleared(s, s.table[b][..u], now, flags, addr)
    ensures var t := Evict(s, b, u);
      |t.table| == |s.table| && u <= |t.table[b]| && Cleared(t, t.table[b][..u], now, flags, addr)
  {
    hide Bucket, Inv, Shrinks, Culled;
    var t := Evict(s, b, u);
    EvictKeeps(s, b, u);
    EvictShrinks(s, b, u);
    assert t.table[b][..u] == s.table[b][..u];
    forall r: Id | r in t.table[b][..u] ensures !Culled(Get(t.recs, r), now, flags, addr) {
      HashedKeeps(s, t, b, r);
    }
  }

  lemma {:induction false} SkipCleared(s: State, b: nat, u: nat, now: int, flags: Flags, addr: Option<Data>)
    requires b < |s.table| && u < |s.table[b]| && Cleared(s, s.table[b][..u], now, flags, addr)
    requires !Culled(s.At(s.table[b][u]), now, flags, addr)
    ensures Cleared(s, s.table[b][..u + 1], now, flags, addr)
  {
    hide Culled;
    assert s.table[b][..u + 1] == s.table[b][..u] + [s.table[b][u]];
  }

  // Past the first immortal forward entry there is nothing to cull.
  lemma {:induction false} RestImmortal(s: State, b: nat, u: nat, now: int, flags: Flags, addr: Option<Data>)
    requires Inv(s) && b < |s.table| && u <= |s.table[b]| && Cleared(s, s.table[b][..u], now, flags, addr)
    requires u == |s.table[b]| || Segment(s.At(s.table[b][u]).flags) == 2
    ensures Cleared(s, s.table[b], now, flags, addr)
  {
    hide Bucket, PoolOk, RecsOk, ChainsOk, LruOk, FindableOk, UidsOk, LinksOk, BigOk;
    var c := s.table[b];
    forall r: Id | r in c ensures !Culled(Get(s.recs, r), now, flags, addr) {
      var j :| 0 <= j < |c| && c[j] == r;
      if j < u {
        assert c[..u][j] == r;
      } else {
        assert Ordered(s.recs, c) && Segment(Get(s.recs, c[u]).flags) == 2;
        assert Segment(Get(s.recs, c[j]).flags) == 2;
      }
    }
  }

  lemma {:induction false} ScanTableClears(s: State, b: nat, now: int, flags: Flags, addr: Option<Data>)
    requires Inv(s) && b <= |s.table| && forall b' :: 0 <= b' < b ==> Cleared(s, s.table[b'], now, flags, addr)
    ensures var t := ScanTable(s, b, now, flags, addr);
      CulledOnly(s, t, now, flags, addr) && forall b' :: 0 <= b' < |t.table| ==> Cleared(t, t.table[b'], now, flags, addr)
    decreases |s.table| - b
  {
    hide Bucket, Inv, Shrinks, CulledOnly, Cleared, ScanChain;
    CulledRefl(s, now, flags, addr);
    if b < |s.table| {
      var t := ScanChain(s, b, 0, now, flags, addr);
      ScanChainKeeps(s, b, 0, now, flags, addr);
      assert s.table[b][..0] == [];
      Nothing(s, now, flags, addr);
      ScanChainClears(s, b, 0, now, flags, addr);
      forall b' | 0 <= b' < b ensures Cleared(t, t.table[b'], now, flags, addr) {
        ClearedStays(s, t, b', now, flags, addr);
      }
      ScanTableClears(t, b + 1, now, flags, addr);
      CulledTrans(s, t, ScanTable(t, b + 1, now, flags, addr), now, flags, addr);
    }
  }

  lemma {:induction false} Nothing(s: State, now: int, flags: Flags, addr: Option<Data>)
    ensures Cleared(s, [], now, flags, addr)
  {}

  // A scan of the whole table removes exactly the expired records and the
  // reverse records for the address.
  lemma {:induction false} TableScan(s: State, now: int, flags: Flags, addr: Option<Data>)
    requires Inv(s)
    ensures var t := ScanTable(s, 0, now, flags, addr);
      && Inv(t) && Shrinks(s, t)
      && forall r: Id :: t.Hashed(r) <==> s.Hashed(r) && !Culled(s.At(r), now, flags, addr)
  {
    hide Bucket, Inv, Shrinks, ScanTable, Culled;
    var t := ScanTable(s, 0, now, flags, addr);
    ScanTableKeeps(s, 0, now, flags, addr);
    ScanTableClears(s, 0, now, flags, addr);
    forall r: Id ensures t.Hashed(r) <==> s.Hashed(r) && !Culled(s.At(r), now, flags, addr) {
      HashedIn(s, t, r);
      assert Cleared(t, t.table[t.Home(r)], now, flags, addr);
      if t.Hashed(r) {
        HashedKeeps(s, t, t.Home(r), r);
      }
    }
  }

  // Names do not change, so an entry that stays does so in its bucket.
  lemma {:induction false} HashedIn(s: State, t: State, r: Id)
    requires Shrinks(s, t)
    ensures t.Home(r) == s.Home(r) && (t.Hashed(r) ==> s.Hashed(r))
  {
    hide Bucket;
    assert Get(t.recs, r) == Get(s.recs, r) || Get(t.recs, r) == Freed(Get(s.recs, r));
  }
}
