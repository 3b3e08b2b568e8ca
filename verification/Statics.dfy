/**
 Static entries under inserts: one that has not expired and is no CNAME stays in the
 table.
 */
module Statics {
  import opened Names
  import opened Records
  import opened State
  import opened Keeps
  import opened Ops
  import opened Scans
  import opened Batch
  import opened Answers

  predicate Firm(x: Rec, now: int) {
    Static(x.flags) && !Expired(now, x) && F_CNAME !in x.flags
  }

  ghost predicate Stays(s: State, t: State, r: Id) {
    t.Hashed(r) && Get(t.recs, r) == Get(s.recs, r).(uid := Get(t.recs, r).uid)
  }

  ghost predicate FirmStay(s: State, t: State, now: int) {
    forall r: Id :: s.Hashed(r) && Firm(Get(s.recs, r), now) ==> Stays(s, t, r)
  }

  lemma {:induction false} FirmTrans(s: State, t: State, v: State, now: int)
    requires FirmStay(s, t, now) && FirmStay(t, v, now)
    ensures FirmStay(s, v, now)
  {
    hide Bucket, Static;
    forall r: Id | s.Hashed(r) && Firm(Get(s.recs, r), now) ensures Stays(s, v, r) {
      assert Stays(s, t, r) && Stays(t, v, r);
    }
  }

  lemma {:induction false} EvictFirm(s: State, b: nat, u: nat, now: int)
    requires Inv(s) && b < |s.table| && u < |s.table[b]| && !Firm(s.At(s.table[b][u]), now)
    ensures FirmStay(s, Evict(s, b, u), now)
  {
    hide Bucket, Inv, Evict, Static, Expired;
    var t, c := Evict(s, b, u), s.table[b];
    EvictFacts(s, b, u);
    ChainNoDup(s, b);
    CutFacts(c, u);
    forall r: Id | s.Hashed(r) && Firm(Get(s.recs, r), now) ensures Stays(s, t, r) {
      assert r != c[u] && t.Home(r) == s.Home(r);
    }
  }

  lemma {:induction false} ScanBucketFirm(s: State, b: nat, u: nat, name: Name, now: int, flags: Flags, target: Option<Target>)
    requires Inv(s) && b < |s.table| && u <= |s.table[b]|
    ensures FirmStay(s, ScanBucket(s, b, u, name, now, flags, target).s, now)
    decreases |s.table[b]| - u
  {
    hide Bucket, Inv, InTheWay, FirmStay;
    FirmRefl(s, now);
    if u < |s.table[b]| {
      var r, x, t := s.table[b][u], s.At(s.table[b][u]), Evict(s, b, u);
      EvictKeeps(s, b, u);
      if InTheWay(x, name, flags) {
        if !Static(x.flags) {
          var target' := if x.uid != UID_NONE then Some(Target(r, x.uid)) else target;
          EvictFirm(s, b, u, now);
          ScanBucketFirm(t, b, u, name, now, flags, target');
          FirmTrans(s, t, ScanBucket(t, b, u, name, now, flags, target').s, now);
        }
      } else if Expired(now, x) || s.Outdated(r) {
        EvictFirm(s, b, u, now);
        ScanBucketFirm(t, b, u, name, now, flags, target);
        FirmTrans(s, t, ScanBucket(t, b, u, name, now, flags, target).s, now);
      } else {
        ScanBucketFirm(s, b, u + 1, name, now, flags, target);
      }
    }
  }

  lemma {:induction false} FirmRefl(s: State, now: int)
    ensures FirmStay(s, s, now)
  {
    hide Bucket;
  }

  lemma {:induction false} ScanChainFirm(s: State, b: nat, u: nat, now: int, flags: Flags, addr: Option<Data>)
    requires Inv(s) && b < |s.table| && u <= |s.table[b]|
    ensures FirmStay(s, ScanChain(s, b, u, now, flags, addr), now)
    decreases |s.table[b]| - u
  {
    hide Bucket, Inv, FirmStay;
    FirmRefl(s, now);
    if u < |s.table[b]| && Segment(s.At(s.table[b][u]).flags) != 2 {
      var x, t := s.At(s.table[b][u]), Evict(s, b, u);
      if Expired(now, x) || SameReverse(x, flags, addr) {
        EvictKeeps(s, b, u);
        EvictFirm(s, b, u, now);
        ScanChainFirm(t, b, u, now, flags, addr);
        FirmTrans(s, t, ScanChain(t, b, u, now, flags, addr), now);
      } else {
        ScanChainFirm(s, b, u + 1, now, flags, addr);
      }
    }
  }

  lemma {:induction false} ScanTableFirm(s: State, b: nat, now: int, flags: Flags, addr: Option<Data>)
    requires Inv(s) && b <= |s.table|
    ensures FirmStay(s, ScanTable(s, b, now, flags, addr), now)
    decreases |s.table| - b
  {
    hide Bucket, Inv, FirmStay;
    FirmRefl(s, now);
    if b < |s.table| {
      var t := ScanChain(s, b, 0, now, flags, addr);
      ScanChainKeeps(s, b, 0, now, flags, addr);
      ScanChainFirm(s, b, 0, now, flags, addr);
      ScanTableFirm(t, b + 1, now, flags, addr);
      FirmTrans(s, t, ScanTable(t, b + 1, now, flags, addr), now);
    }
  }

  lemma {:induction false} ScanFreeFirm(s: State, name: Option<Name>, addr: Option<Data>, now: int, flags: Flags)
    requires Inv(s) && (F_FORWARD in flags ==> name.Some?)
    ensures FirmStay(s, ScanFree(s, name, addr, now, flags).s, now)
  {
    hide Bucket, Inv, FirmStay;
    if F_FORWARD in flags {
      ScanBucketFirm(s, s.BucketOf(name.value), 0, name.value, now, flags, None);
    } else {
      ScanTableFirm(s, 0, now, flags, addr);
    }
  }

  lemma {:induction false} TakeSlotFirm(s: State, now: int, freedAll: bool, freeAvail: bool)
    requires Inv(s)
    ensures FirmStay(s, TakeSlot(s, now, freedAll, freeAvail).s, now)
    decreases if freeAvail then 0 else if freedAll then 1 else 2
  {
    hide Bucket, Inv, FirmStay, ScanFree, ScanTable;
    FirmRefl(s, now);
    if s.lru != [] && InUse(s.At(Tail(s)).flags) && !freeAvail {
      var x := s.At(Tail(s));
      var t := if freedAll then ScanFree(s, Some(x.name), Some(x.data), now, x.flags).s else ScanTable(s, 0, now, {}, None);
      if freedAll {
        ScanFreeKeeps(s, Some(x.name), Some(x.data), now, x.flags);
        ScanFreeFirm(s, Some(x.name), Some(x.data), now, x.flags);
      } else {
        ScanTableKeeps(s, 0, now, {}, None);
        ScanTableFirm(s, 0, now, {}, None);
      }
      TakeSlotFirm(t, now, true, freedAll);
      FirmTrans(s, t, TakeSlot(t, now, true, freedAll).s, now);
    }
  }

  // Nothing moves in the table, and static records change at most their uid.
  lemma {:induction false} SameFirm(s: State, t: State, now: int)
    requires t.table == s.table && t.mix == s.mix
    requires forall r: Id :: Static(Get(s.recs, r).flags) ==> Get(t.recs, r) == Get(s.recs, r).(uid := Get(t.recs, r).uid)
    ensures FirmStay(s, t, now)
  {
    hide Bucket;
    forall r: Id | s.Hashed(r) && Firm(Get(s.recs, r), now) ensures Stays(s, t, r) {
      assert t.Home(r) == s.Home(r);
    }
  }

  lemma {:induction false} SettleFirm(s: State, r: Id, uid: nat, name: Option<Name>, data: Option<Data>, ttd: int, flags: Flags, malloc: bool, now: int)
    requires Inv(s) && r < s.n
    ensures FirmStay(s, Settle(s, r, uid, name, data, ttd, flags, malloc).s, now)
  {
    hide Bucket, ChainsOk, OrderOk, LruOk, UidsOk, LinksOk, BigOk, FindableOk;
    SameFirm(s, Settle(s, r, uid, name, data, ttd, flags, malloc).s, now);
  }

  lemma {:induction false} InsertFirm(s: State, name: Option<Name>, data: Option<Data>, now: int, ttl: nat, flags: Flags, malloc: bool)
    requires Inv(s) && Insertable(name, data, flags)
    ensures FirmStay(s, Insert(s, name, data, now, ttl, flags, malloc).s, now)
  {
    hide Bucket, Inv, FirmStay, ScanFree, TakeSlot, Settle, TargetOk, Shrinks, HitOk;
    FirmRefl(s, now);
    FailFirm(s, s, now);
    if !s.err && ttl != 0 {
      var scan := ScanFree(s, name, data, now, flags);
      ScanFreeKeeps(s, name, data, now, flags);
      ScanFreeFirm(s, name, data, now, flags);
      FailFirm(s, scan.s, now);
      if scan.hit.None? && scan.target.Some? {
        var t := scan.target.value;
        TargetIn(scan.s, t, name.value);
        SettleFirm(scan.s, t.rec, t.uid, name, data, now + ttl, flags, malloc, now);
        FirmTrans(s, scan.s, Settle(scan.s, t.rec, t.uid, name, data, now + ttl, flags, malloc).s, now);
      } else if scan.hit.None? {
        var slot := TakeSlot(scan.s, now, F_REVERSE in flags, false);
        TakeSlotKeeps(scan.s, now, F_REVERSE in flags, false);
        TakeSlotFirm(scan.s, now, F_REVERSE in flags, false);
        FirmTrans(s, scan.s, slot.s, now);
        FailFirm(s, slot.s, now);
        if slot.rec.Some? {
          var r := slot.rec.value;
          PoolOf(slot.s);
          SettleFirm(slot.s, r, slot.s.At(r).uid, name, data, now + ttl, flags, malloc, now);
          FirmTrans(s, slot.s, Settle(slot.s, r, slot.s.At(r).uid, name, data, now + ttl, flags, malloc).s, now);
        }
      }
    }
  }

  lemma {:induction false} TargetIn(s: State, t: Target, name: Name)
    requires Inv(s) && TargetOk(s, t, name)
    ensures t.rec < s.n
  {
    hide Bucket, ChainsOk, OrderOk, LruOk, UidsOk, LinksOk, BigOk, FindableOk;
  }

  lemma {:induction false} FailFirm(s: State, t: State, now: int)
    requires FirmStay(s, t, now)
    ensures FirmStay(s, Fail(t).s, now)
  {
    hide FirmStay;
    SameFirm(t, Fail(t).s, now);
    FirmTrans(s, t, Fail(t).s, now);
  }
}
