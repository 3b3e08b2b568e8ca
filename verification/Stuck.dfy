/**
 When the slot loop of really_insert ends in its internal error: giving up the entries
 of the record at the tail has freed nothing.
 */
module Stuck {
  import opened Names
  import opened Records
  import opened State
  import opened Ops
  import opened Scans
  import opened Clears
  import opened Slots
  import opened Exact
  import opened Replace

  // A forward scan for the record's name passes a pool entry that it removes: one in
  // the way, expired or dangling, before any static entry in the way. A scan for its
  // address removes an expired one or one for the address.
  ghost predicate Frees(s: State, x: Rec, now: int) {
    if F_FORWARD in x.flags then
      var c := s.table[s.BucketOf(x.name)];
      exists i :: 0 <= i < Stop(s, c, 0, x.name, x.flags) && c[i] < s.n && Weak(s, c[i], x, now)
    else exists p: Id :: p < s.n && s.Hashed(p) && Culled(s.At(p), now, x.flags, Some(x.data))
  }

  predicate Weak(s: State, r: Id, x: Rec, now: int) {
    InTheWay(s.At(r), x.name, x.flags) || Expired(now, s.At(r)) || s.Outdated(r)
  }

  // ---------- a scan of one bucket ----------

  lemma {:induction false} TakenGrows(s: State, c: seq<Id>, i: nat, k: nat, name: Name, now: int, flags: Flags)
    requires i <= k <= |c|
    ensures Taken(s, c, i, name, now, flags) <= Taken(s, c, k, name, now, flags)
    decreases k
  {
    hide Goes;
    if i < k {
      TakenGrows(s, c, i, k - 1, name, now, flags);
    }
  }

  lemma {:induction false} WeakTaken(s: State, c: seq<Id>, i: nat, k: nat, x: Rec, now: int)
    requires i < k <= Stop(s, c, 0, x.name, x.flags) && Weak(s, c[i], x, now)
    ensures c[i] in Taken(s, c, k, x.name, now, x.flags)
  {
    hide InTheWay, State.Outdated, Expired, Bereft;
    assert !Stops(s, c[i], x.name, x.flags);
    assert c[i] in Taken(s, c, i + 1, x.name, now, x.flags);
    TakenGrows(s, c, i + 1, k, x.name, now, x.flags);
  }

  lemma {:induction false} NoneTaken(s: State, c: seq<Id>, k: nat, x: Rec, now: int)
    requires k <= |c| && forall i :: 0 <= i < k && c[i] < s.n ==> !Weak(s, c[i], x, now)
    ensures forall p: Id :: p in Taken(s, c, k, x.name, now, x.flags) ==> s.n <= p
  {
    hide InTheWay, State.Outdated, Expired;
    if k > 0 {
      NoneTaken(s, c, k - 1, x, now);
    }
  }

  lemma {:induction false} LruUsed(s: State)
    requires Inv(s) && s.lru != [] && InUse(s.At(Tail(s)).flags)
    ensures forall p: Id :: p in s.lru <==> p < s.n && p !in s.pending
    ensures forall p: Id :: p in s.lru ==> InUse(Get(s.recs, p).flags) && s.Hashed(p)
  {
    hide Bucket, RecsOk, ChainsOk, OrderOk, UidsOk, LinksOk, BigOk;
    TailLeastRecent(s);
  }

  lemma {:induction false} FreedIdle(x: Rec)
    ensures !InUse(Freed(x).flags)
  {}

  lemma {:induction false} BucketFrees(s: State, x: Rec, now: int)
    requires Inv(s) && s.lru != [] && InUse(s.At(Tail(s)).flags) && F_FORWARD in x.flags
    ensures var t := ScanFree(s, Some(x.name), Some(x.data), now, x.flags).s;
      (exists p: Id :: p in s.lru && !InUse(Get(t.recs, p).flags)) <==> Frees(s, x, now)
  {
    hide Bucket, Inv, ScanBucket, Weak, Goes, InUse;
    var b := s.BucketOf(x.name);
    var c := s.table[b];
    var k := Stop(s, c, 0, x.name, x.flags);
    var t := ScanBucket(s, b, 0, x.name, now, x.flags, None).s;
    LruUsed(s);
    ScanBucketExact(s, b, x.name, now, x.flags);
    if Frees(s, x, now) {
      var i :| 0 <= i < k && c[i] < s.n && Weak(s, c[i], x, now);
      WeakTaken(s, c, i, k, x, now);
      ChainPool(s, b, i);
      FreedIdle(Get(s.recs, c[i]));
      assert c[i] in s.lru && !InUse(Get(t.recs, c[i]).flags);
    } else {
      NoneTaken(s, c, k, x, now);
    }
  }

  lemma {:induction false} ChainPool(s: State, b: nat, i: nat)
    requires Inv(s) && b < |s.table| && i < |s.table[b]| && s.table[b][i] < s.n
    ensures s.table[b][i] in s.lru && InUse(s.At(s.table[b][i]).flags)
  {
    hide Bucket, PoolOk, RecsOk, FindableOk, OrderOk, LruOk, UidsOk, LinksOk, BigOk;
    assert ChainOk(s, b, s.table[b]) && EntryOk(s, s.table[b][i], b);
  }

  // ---------- a scan of the table ----------

  lemma {:induction false} HashedUsed(s: State, p: Id)
    requires Inv(s) && s.Hashed(p) && p < s.n
    ensures p in s.lru && InUse(s.At(p).flags)
  {
    hide Bucket, PoolOk, RecsOk, FindableOk, OrderOk, LruOk, UidsOk, LinksOk, BigOk;
    assert ChainOk(s, s.Home(p), s.table[s.Home(p)]) && EntryOk(s, p, s.Home(p));
  }

  lemma {:induction false} TableFrees(s: State, x: Rec, now: int)
    requires Inv(s) && s.lru != [] && InUse(s.At(Tail(s)).flags) && F_FORWARD !in x.flags
    ensures var t := ScanFree(s, Some(x.name), Some(x.data), now, x.flags).s;
      (exists p: Id :: p in s.lru && !InUse(Get(t.recs, p).flags)) <==> Frees(s, x, now)
  {
    hide Bucket, Inv, Shrinks, ScanTable, Culled, InUse;
    var t := ScanTable(s, 0, now, x.flags, Some(x.data));
    LruUsed(s);
    TableScan(s, now, x.flags, Some(x.data));
    if Frees(s, x, now) {
      var p: Id :| p < s.n && s.Hashed(p) && Culled(s.At(p), now, x.flags, Some(x.data));
      HashedUsed(s, p);
      Removed(s, t, p);
      assert p in s.lru && !InUse(Get(t.recs, p).flags);
    }
    if p: Id :| p in s.lru && !InUse(Get(t.recs, p).flags) {
      if t.Hashed(p) {
        ShrinksShape(s, t);
        HashedUsed(t, p);
        assert false;
      }
      assert p < s.n && s.Hashed(p) && Culled(s.At(p), now, x.flags, Some(x.data));
    }
  }

  // ---------- the slot loop ----------

  lemma {:induction false} NothingFree(s: State, t: State)
    requires Inv(t) && Shrinks(s, t) && s.lru != []
    ensures t.lru != [] && (InUse(t.At(Tail(t)).flags) <==> !exists p: Id :: p in s.lru && !InUse(Get(t.recs, p).flags))
  {
    hide Bucket, Inv;
    assert s.lru[0] in t.lru;
    assert Tail(t) in t.lru && Tail(t) in s.lru;
    if p: Id :| p in s.lru && !InUse(Get(t.recs, p).flags) {
      assert p in t.lru;
      TailFree(t, p);
    }
  }

  // The loop ends in the internal error if and only if, with no record free and, where
  // it has looked, none expired, giving up the entries of the one at the tail would
  // free none.
  lemma {:induction false} InternalError(s: State, now: int, freedAll: bool)
    requires Inv(s)
    ensures var v := BeforeSpill(s, now, freedAll);
      TakeSlot(s, now, freedAll, false).internal <==>
        v.lru != [] && InUse(v.At(Tail(v)).flags) && !Frees(v, v.At(Tail(v)), now)
  {
    hide Bucket, Inv, Shrinks, ScanTable, ScanFree, InUse, Frees;
    var v := BeforeSpill(s, now, freedAll);
    ScanTableKeeps(s, 0, now, {}, None);
    ShrinksRefl(s);
    LruKept(s, v);
    if s.lru != [] {
      if !freedAll && !InUse(s.At(Tail(s)).flags) {
        StillFree(s, v);
      }
      if InUse(v.At(Tail(v)).flags) {
        var x := v.At(Tail(v));
        var t := ScanFree(v, Some(x.name), Some(x.data), now, x.flags).s;
        InUseName(x);
        ScanFreeKeeps(v, Some(x.name), Some(x.data), now, x.flags);
        NothingFree(v, t);
        if F_FORWARD in x.flags {
          BucketFrees(v, x, now);
        } else {
          TableFrees(v, x, now);
        }
      }
    }
  }

  lemma {:induction false} InUseName(x: Rec)
    requires InUse(x.flags)
    ensures F_FORWARD in x.flags || F_REVERSE in x.flags
  {}

  lemma {:induction false} LruKept(s: State, t: State)
    requires Shrinks(s, t)
    ensures s.lru != [] <==> t.lru != []
  {
    if s.lru != [] {
      assert s.lru[0] in t.lru;
    }
    if t.lru != [] {
      assert t.lru[0] in s.lru;
    }
  }

  lemma {:induction false} StillFree(s: State, t: State)
    requires Inv(t) && Shrinks(s, t) && s.lru != [] && !InUse(s.At(Tail(s)).flags)
    ensures t.lru != [] && !InUse(t.At(Tail(t)).flags)
  {
    hide Bucket, Inv;
    var r := Tail(s);
    assert r in s.lru && r in t.lru;
    FreedIdle(Get(s.recs, r));
    assert Get(t.recs, r) == Get(s.recs, r) || Get(t.recs, r) == Freed(Get(s.recs, r));
    TailFree(t, r);
  }

  // Then the record is a forward one, if it has a type, and a static entry in the way
  // of such a record has its name and comes before it in the chain.
  lemma {:induction false} StuckBehindStatic(s: State, r: Id, now: int)
    requires Inv(s) && r in s.lru && InUse(s.At(r).flags) && HasType(s.At(r).flags) && !Frees(s, s.At(r), now)
    ensures var x := s.At(r); var c := s.table[s.BucketOf(x.name)];
      && F_FORWARD in x.flags && r in c
      && var k := Stop(s, c, 0, x.name, x.flags);
      && k < |c| && Static(s.At(c[k]).flags) && InTheWay(s.At(c[k]), x.name, x.flags) && r in c[k + 1..]
  {
    hide Bucket, Inv, Clashes;
    LruHashed(s, r);
    var x := s.At(r);
    var c := s.table[s.BucketOf(x.name)];
    OwnAddress(x, now);
    if F_FORWARD in x.flags {
      var i :| 0 <= i < |c| && c[i] == r;
      var k := Stop(s, c, 0, x.name, x.flags);
      assert Weak(s, c[i], x, now);
      assert i != k;
      assert c[k + 1..][i - k - 1] == r;
    }
  }

  lemma {:induction false} OwnAddress(x: Rec, now: int)
    ensures F_FORWARD !in x.flags && InUse(x.flags) && HasType(x.flags) && !Static(x.flags) ==> Culled(x, now, x.flags, Some(x.data))
  {}
}
