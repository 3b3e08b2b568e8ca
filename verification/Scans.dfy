/**
 What scanning and inserting do to the state: the invariant is kept, and
 entries only ever leave the table.
 */
module Scans {
  import opened Names
  import opened Records
  import opened State
  import opened Keeps
  import opened Ops

  // Entries have left the table, and those from the pool have been freed. What
  // remains may have been reordered.
  ghost predicate Shrinks(s: State, t: State) {
    && t == s.(recs := t.recs, lru := t.lru, table := t.table, bigFree := t.bigFree,
               next := t.next, stamp := t.stamp, clock := t.clock)
    && |t.table| == |s.table|
    && (forall p: Id :: p in t.lru <==> p in s.lru)
    && (forall b, r: Id :: 0 <= b < |s.table| && r in t.table[b] ==> r in s.table[b])
    && (forall r: Id :: r in s.recs <==> r in t.recs)
    && (forall r: Id :: Get(t.recs, r) == Get(s.recs, r) || (r < s.n && Get(t.recs, r) == Freed(Get(s.recs, r))))
    && (forall b, r: Id :: 0 <= b < |s.table| && r in s.table[b] && r !in t.table[b] && r < s.n ==>
          Get(t.recs, r) == Freed(Get(s.recs, r)))
  }

  lemma {:induction false} ShrinksShape(s: State, t: State)
    requires Shrinks(s, t)
    ensures t.n == s.n && t.mix == s.mix && |t.table| == |s.table| && t.err == s.err && t.pending == s.pending
  {}

  lemma {:induction false} FreedTwice(x: Rec)
    ensures Freed(Freed(x)) == Freed(x)
  {
    assert Freed(Freed(x)).flags == Freed(x).flags;
  }

  lemma {:induction false} ShrinksTrans(s: State, t: State, v: State)
    requires Shrinks(s, t) && Shrinks(t, v)
    ensures Shrinks(s, v)
  {
    forall r: Id
      ensures Get(v.recs, r) == Get(s.recs, r) || (r < s.n && Get(v.recs, r) == Freed(Get(s.recs, r)))
    {
      FreedTwice(Get(s.recs, r));
    }
    forall b, r: Id | 0 <= b < |s.table| && r in s.table[b] && r !in v.table[b] && r < s.n
      ensures Get(v.recs, r) == Freed(Get(s.recs, r))
    {
      FreedTwice(Get(s.recs, r));
      if r in t.table[b] {
        assert Get(v.recs, r) == Freed(Get(t.recs, r));
      } else {
        assert Get(t.recs, r) == Freed(Get(s.recs, r));
      }
    }
  }

  lemma {:induction false} EvictShrinks(s: State, b: nat, u: nat)
    requires Inv(s) && b < |s.table| && u < |s.table[b]|
    ensures Shrinks(s, Evict(s, b, u))
    ensures s.table[b][u] !in Evict(s, b, u).table[b]
  {
    hide Bucket, OrderOk, LruOk, FindableOk, UidsOk, LinksOk, BigOk;
    var r, t := s.table[b][u], Evict(s, b, u);
    assert ChainOk(s, b, s.table[b]) && EntryOk(s, r, b);
    CutFacts(s.table[b], u);
    WithoutFacts(s.lru, r);
    if r < s.n {
      Frame(s.recs, t.recs, r, Freed(s.At(r)));
    }
  }

  // The record a forward scan offers for reuse is free, has the name that was
  // scanned for, and no other record has its uid.
  ghost predicate TargetOk(s: State, t: Target, name: Name) {
    && t.rec in s.lru && !InUse(s.At(t.rec).flags) && SameName(s.At(t.rec).name, name)
    && 0 < t.uid <= s.lastUid
    && forall p: Id :: p < s.n ==> Get(s.recs, p).uid != t.uid
  }

  lemma {:induction false} TargetStays(s: State, t: State, target: Target, name: Name)
    requires Shrinks(s, t) && TargetOk(s, target, name)
    ensures TargetOk(t, target, name)
  {}

  lemma {:induction false} NewTarget(s: State, b: nat, u: nat, name: Name)
    requires Inv(s) && b < |s.table| && u < |s.table[b]|
    requires !Static(s.At(s.table[b][u]).flags) && s.At(s.table[b][u]).uid != UID_NONE
    requires SameName(s.At(s.table[b][u]).name, name)
    ensures TargetOk(Evict(s, b, u), Target(s.table[b][u], s.At(s.table[b][u]).uid), name)
  {
    hide Bucket, OrderOk, LruOk, FindableOk, LinksOk, BigOk;
    var r, t := s.table[b][u], Evict(s, b, u);
    assert ChainOk(s, b, s.table[b]) && EntryOk(s, r, b);
    Frame(s.recs, t.recs, r, Freed(s.At(r)));
  }

  // The static entry that stops a forward scan is in the table, for the name that
  // was scanned for.
  ghost predicate HitOk(s: State, r: Id, name: Name, flags: Flags) {
    s.n <= r && r in s.recs && Static(s.At(r).flags) && s.Hashed(r) && InTheWay(s.At(r), name, flags)
  }

  lemma {:induction false} ScanBucketKeeps(s: State, b: nat, u: nat, name: Name, now: int, flags: Flags, target: Option<Target>)
    requires Inv(s) && b < |s.table| && u <= |s.table[b]|
    requires target.Some? ==> TargetOk(s, target.value, name)
    ensures var out := ScanBucket(s, b, u, name, now, flags, target);
      && Inv(out.s) && Shrinks(s, out.s)
      && (out.target.Some? ==> TargetOk(out.s, out.target.value, name))
      && (out.hit.Some? ==> HitOk(out.s, out.hit.value, name, flags))
    decreases |s.table[b]| - u
  {
    hide Bucket, Inv, Shrinks, TargetOk;
    if u == |s.table[b]| {
      ShrinksRefl(s);
    } else {
      var r, x, t := s.table[b][u], s.At(s.table[b][u]), Evict(s, b, u);
      EvictKeeps(s, b, u);
      EvictShrinks(s, b, u);
      ShrinksRefl(s);
      if target.Some? {
        TargetStays(s, t, target.value, name);
      }
      if InTheWay(x, name, flags) {
        if Static(x.flags) {
          HashedStatic(s, b, u);
        } else {
          if x.uid != UID_NONE {
            NewTarget(s, b, u, name);
          }
          var target' := if x.uid != UID_NONE then Some(Target(r, x.uid)) else target;
          ScanBucketKeeps(t, b, u, name, now, flags, target');
          ShrinksTrans(s, t, ScanBucket(t, b, u, name, now, flags, target').s);
        }
      } else if Expired(now, x) || s.Outdated(r) {
        ScanBucketKeeps(t, b, u, name, now, flags, target);
        ShrinksTrans(s, t, ScanBucket(t, b, u, name, now, flags, target).s);
      } else {
        ScanBucketKeeps(s, b, u + 1, name, now, flags, target);
      }
    }
  }

  // The uid offered for reuse is the one the offered record had.
  lemma {:induction false} ScanBucketUid(s0: State, s: State, b: nat, u: nat, name: Name, now: int, flags: Flags, target: Option<Target>)
    requires Inv(s) && Shrinks(s0, s) && b < |s.table| && u <= |s.table[b]|
    requires target.Some? ==> s0.At(target.value.rec).uid == target.value.uid
    ensures var out := ScanBucket(s, b, u, name, now, flags, target);
      out.target.Some? ==> s0.At(out.target.value.rec).uid == out.target.value.uid
    decreases |s.table[b]| - u
  {
    hide Bucket, Inv, Shrinks, InTheWay, Static, Expired;
    if u < |s.table[b]| {
      var r, x, t := s.table[b][u], s.At(s.table[b][u]), Evict(s, b, u);
      EvictKeeps(s, b, u);
      EvictShrinks(s, b, u);
      ShrinksTrans(s0, s, t);
      UidFrom(s0, s, r);
      if InTheWay(x, name, flags) {
        if !Static(x.flags) {
          ScanBucketUid(s0, t, b, u, name, now, flags, if x.uid != UID_NONE then Some(Target(r, x.uid)) else target);
        }
      } else if Expired(now, x) || s.Outdated(r) {
        ScanBucketUid(s0, t, b, u, name, now, flags, target);
      } else {
        ScanBucketUid(s0, s, b, u + 1, name, now, flags, target);
      }
    }
  }

  lemma {:induction false} UidFrom(s: State, t: State, r: Id)
    requires Shrinks(s, t)
    ensures t.At(r).uid == s.At(r).uid || t.At(r).uid == UID_NONE
  {
    assert Get(t.recs, r) == Get(s.recs, r) || Get(t.recs, r) == Freed(Get(s.recs, r));
  }

  lemma {:induction false} HashedStatic(s: State, b: nat, u: nat)
    requires Inv(s) && b < |s.table| && u < |s.table[b]|
    ensures s.table[b][u] in s.recs && s.Hashed(s.table[b][u]) && (Static(s.At(s.table[b][u]).flags) <==> s.n <= s.table[b][u])
  {
    hide Bucket;
    assert ChainOk(s, b, s.table[b]) && EntryOk(s, s.table[b][u], b);
  }

  lemma {:induction false} ShrinksRefl(s: State)
    ensures Shrinks(s, s)
  {}

  lemma {:induction false} ScanChainKeeps(s: State, b: nat, u: nat, now: int, flags: Flags, addr: Option<Data>)
    requires Inv(s) && b < |s.table| && u <= |s.table[b]|
    ensures Inv(ScanChain(s, b, u, now, flags, addr)) && Shrinks(s, ScanChain(s, b, u, now, flags, addr))
    decreases |s.table[b]| - u
  {
    hide Bucket, Inv, Shrinks;
    ShrinksRefl(s);
    if u < |s.table[b]| && Segment(s.At(s.table[b][u]).flags) != 2 {
      var x, t := s.At(s.table[b][u]), Evict(s, b, u);
      if Expired(now, x) || SameReverse(x, flags, addr) {
        EvictKeeps(s, b, u);
        EvictShrinks(s, b, u);
        ScanChainKeeps(t, b, u, now, flags, addr);
        ShrinksTrans(s, t, ScanChain(t, b, u, now, flags, addr));
      } else {
        ScanChainKeeps(s, b, u + 1, now, flags, addr);
      }
    }
  }

  lemma {:induction false} ScanTableKeeps(s: State, b: nat, now: int, flags: Flags, addr: Option<Data>)
    requires Inv(s) && b <= |s.table|
    ensures Inv(ScanTable(s, b, now, flags, addr)) && Shrinks(s, ScanTable(s, b, now, flags, addr))
    decreases |s.table| - b
  {
    hide Bucket, Inv, Shrinks;
    ShrinksRefl(s);
    if b < |s.table| {
      var t := ScanChain(s, b, 0, now, flags, addr);
      ScanChainKeeps(s, b, 0, now, flags, addr);
      ScanTableKeeps(t, b + 1, now, flags, addr);
      ShrinksTrans(s, t, ScanTable(t, b + 1, now, flags, addr));
    }
  }

  lemma {:induction false} ScanFreeKeeps(s: State, name: Option<Name>, addr: Option<Data>, now: int, flags: Flags)
    requires Inv(s) && (F_FORWARD in flags ==> name.Some?)
    ensures var out := ScanFree(s, name, addr, now, flags);
      && Inv(out.s) && Shrinks(s, out.s)
      && (out.target.Some? ==> name.Some? && TargetOk(out.s, out.target.value, name.value))
      && (out.hit.Some? ==> name.Some? && HitOk(out.s, out.hit.value, name.value, flags))
      && (out.target.Some? ==> s.At(out.target.value.rec).uid == out.target.value.uid)
  {
    hide Inv, Shrinks, TargetOk;
    if F_FORWARD in flags {
      ShrinksRefl(s);
      ScanBucketUid(s, s, s.BucketOf(name.value), 0, name.value, now, flags, None);
      ScanBucketKeeps(s, s.BucketOf(name.value), 0, name.value, now, flags, None);
    } else {
      ScanTableKeeps(s, 0, now, flags, addr);
    }
  }

  lemma {:induction false} TakeSlotKeeps(s: State, now: int, freedAll: bool, freeAvail: bool)
    requires Inv(s)
    ensures var out := TakeSlot(s, now, freedAll, freeAvail);
      && Inv(out.s) && Shrinks(s, out.s)
      && (out.rec.Some? ==> out.rec.value in out.s.lru && !InUse(out.s.At(out.rec.value).flags))
    decreases if freeAvail then 0 else if freedAll then 1 else 2
  {
    hide Bucket, Inv, Shrinks;
    ShrinksRefl(s);
    if s.lru != [] && InUse(s.At(Tail(s)).flags) && !freeAvail {
      var x := s.At(Tail(s));
      var t := if freedAll then ScanFree(s, Some(x.name), Some(x.data), now, x.flags).s else ScanTable(s, 0, now, {}, None);
      if freedAll {
        ScanFreeKeeps(s, Some(x.name), Some(x.data), now, x.flags);
      } else {
        ScanTableKeeps(s, 0, now, {}, None);
      }
      TakeSlotKeeps(t, now, true, freedAll);
      ShrinksTrans(s, t, TakeSlot(t, now, true, freedAll).s);
    }
  }
}
