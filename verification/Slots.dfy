/**
 Finding room for a new record: it always succeeds where it should, and a live
 record is given up only when nothing else is left.
 */
module Slots {
  import opened Names
  import opened Records
  import opened State
  import opened Keeps
  import opened Ops
  import opened Scans
  import opened Batch
  import opened Clears

  ghost predicate Clear(s: State, c: seq<Id>, name: Name, now: int, flags: Flags) {
    forall r: Id :: r in c ==> !InTheWay(Get(s.recs, r), name, flags) && !Expired(now, Get(s.recs, r))
  }

  lemma {:induction false} EvictClear(s: State, b: nat, u: nat, name: Name, now: int, flags: Flags)
    requires Inv(s) && b < |s.table| && u < |s.table[b]| && Clear(s, s.table[b][..u], name, now, flags)
    ensures var t := Evict(s, b, u);
      |t.table| == |s.table| && u <= |t.table[b]| && Clear(t, t.table[b][..u], name, now, flags)
  {
    hide Bucket, Inv, Shrinks, InTheWay;
    var t := Evict(s, b, u);
    EvictKeeps(s, b, u);
    EvictShrinks(s, b, u);
    assert t.table[b][..u] == s.table[b][..u];
    forall r: Id | r in t.table[b][..u] ensures !InTheWay(Get(t.recs, r), name, flags) && !Expired(now, Get(t.recs, r)) {
      HashedKeeps(s, t, b, r);
    }
  }

  // A scan of one bucket is stopped by a static entry in the way, or leaves
  // nothing in the way and nothing expired.
  lemma {:induction false} ScanBucketClears(s: State, b: nat, u: nat, name: Name, now: int, flags: Flags, target: Option<Target>)
    requires Inv(s) && b < |s.table| && u <= |s.table[b]| && Clear(s, s.table[b][..u], name, now, flags)
    ensures var out := ScanBucket(s, b, u, name, now, flags, target);
      match out.hit
      case None => Clear(out.s, out.s.table[b], name, now, flags)
      case Some(r) => r in out.s.table[b] && InTheWay(out.s.At(r), name, flags) && Static(out.s.At(r).flags)
    decreases |s.table[b]| - u
  {
    hide Bucket, Inv, InTheWay, Evict;
    if u == |s.table[b]| {
      assert s.table[b][..u] == s.table[b];
    } else {
      var r, x, t := s.table[b][u], s.At(s.table[b][u]), Evict(s, b, u);
      EvictKeeps(s, b, u);
      EvictClear(s, b, u, name, now, flags);
      if InTheWay(x, name, flags) {
        if !Static(x.flags) {
          ScanBucketClears(t, b, u, name, now, flags, if x.uid != UID_NONE then Some(Target(r, x.uid)) else target);
        }
      } else if Expired(now, x) || s.Outdated(r) {
        ScanBucketClears(t, b, u, name, now, flags, target);
      } else {
        assert s.table[b][..u + 1] == s.table[b][..u] + [r];
        ScanBucketClears(s, b, u + 1, name, now, flags, target);
      }
    }
  }

  // ---------- a live record as a last resort ----------

  ghost predicate NoneExpired(s: State, now: int) {
    forall r: Id :: s.Hashed(r) ==> !Expired(now, s.At(r))
  }

  // Every LRU record is in use, and `r` was touched before all others.
  ghost predicate LeastRecent(s: State, r: Id) {
    && r in s.lru
    && forall p: Id :: p in s.lru ==> InUse(Get(s.recs, p).flags) && (p != r ==> Stamp(s.stamp, r) < Stamp(s.stamp, p))
  }

  lemma {:induction false} TailLeastRecent(s: State)
    requires Inv(s) && s.lru != [] && InUse(s.At(Tail(s)).flags)
    ensures LeastRecent(s, Tail(s))
  {
    hide Bucket, RecsOk, ChainsOk, OrderOk, FindableOk, UidsOk, LinksOk, BigOk;
    forall p: Id | p in s.lru ensures InUse(Get(s.recs, p).flags) && (p != Tail(s) ==> Stamp(s.stamp, Tail(s)) < Stamp(s.stamp, p)) {
      var i :| 0 <= i < |s.lru| && s.lru[i] == p;
      assert i == |s.lru| - 1 || InUse(Get(s.recs, s.lru[i]).flags);
    }
  }

  // The state in which the slot loop gives up a live record, if it comes to it.
  function BeforeSpill(s: State, now: int, freedAll: bool): State {
    if freedAll then s else ScanTable(s, 0, now, {}, None)
  }

  // Entries are spilled only when no record is free and none in the table has
  // expired, and they are those of the record touched longest ago.
  lemma {:induction false} SpillIsLastResort(s: State, now: int, freedAll: bool)
    requires Inv(s) && (freedAll ==> NoneExpired(s, now))
    ensures var out := TakeSlot(s, now, freedAll, false);
      var v := BeforeSpill(s, now, freedAll);
      && out.rounds <= 3
      && (out.spilled.Some? ==> Inv(v) && Shrinks(s, v) && NoneExpired(v, now) && LeastRecent(v, out.spilled.value))
  {
    hide Bucket, Inv, Shrinks, ScanTable, ScanFree, Expired;
    var v := BeforeSpill(s, now, freedAll);
    ShrinksRefl(s);
    TableScan(s, now, {}, None);
    ScanTableNone(s, now, {}, None);
    if v.lru != [] && InUse(v.At(Tail(v)).flags) {
      TailLeastRecent(v);
    }
  }

  lemma {:induction false} ScanTableNone(s: State, now: int, flags: Flags, addr: Option<Data>)
    requires Inv(s)
    ensures NoneExpired(ScanTable(s, 0, now, flags, addr), now)
  {
    hide Bucket, Inv, Shrinks, ScanTable;
    var t := ScanTable(s, 0, now, flags, addr);
    TableScan(s, now, flags, addr);
    forall r: Id | t.Hashed(r) ensures !Expired(now, t.At(r)) {
      HashedIn(s, t, r);
      HashedKeeps(s, t, t.Home(r), r);
    }
  }

  // The same for an insert that is not both forward and reverse: the scan it
  // begins with has then gone through the whole table, or the slot loop will.
  lemma {:induction false} InsertLastResort(s: State, name: Option<Name>, data: Option<Data>, now: int, flags: Flags)
    requires Inv(s) && Insertable(name, data, flags) && !(F_FORWARD in flags && F_REVERSE in flags)
    ensures var scan := ScanFree(s, name, data, now, flags);
      var out := TakeSlot(scan.s, now, F_REVERSE in flags, false);
      var v := BeforeSpill(scan.s, now, F_REVERSE in flags);
      && out.rounds <= 3
      && (out.spilled.Some? ==> Inv(v) && Shrinks(s, v) && NoneExpired(v, now) && LeastRecent(v, out.spilled.value))
  {
    hide Bucket, Inv, Shrinks, ScanTable, TakeSlot, ScanBucket, NoneExpired, LeastRecent, BeforeSpill;
    var t := ScanFree(s, name, data, now, flags).s;
    ScanFreeKeeps(s, name, data, now, flags);
    if F_REVERSE in flags {
      ScanTableNone(s, now, flags, data);
    }
    SpillIsLastResort(t, now, F_REVERSE in flags);
    if TakeSlot(t, now, F_REVERSE in flags, false).spilled.Some? {
      ShrinksTrans(s, t, BeforeSpill(t, now, F_REVERSE in flags));
    }
  }

  // ---------- there is always room ----------

  // Forward records have a type that a new record of the type would replace;
  // reverse records have an address family.
  predicate HasType(f: Flags) {
    if F_FORWARD in f then Clashes(f, f) else F_IPV4 in f || F_IPV6 in f
  }

  ghost predicate PoolTyped(s: State) {
    forall p: Id :: p < s.n && InUse(Get(s.recs, p).flags) ==> HasType(Get(s.recs, p).flags)
  }

  // No static forward entry in the table has the given name.
  ghost predicate Unclaimed(s: State, name: Name) {
    forall r: Id :: s.Hashed(r) && Static(s.At(r).flags) && F_FORWARD in s.At(r).flags ==> !SameName(s.At(r).name, name)
  }

  ghost predicate PoolUnclaimed(s: State) {
    forall p: Id :: p < s.n && InUse(Get(s.recs, p).flags) ==> Unclaimed(s, Get(s.recs, p).name)
  }

  lemma {:induction false} UnclaimedStays(s: State, t: State, name: Name)
    requires Inv(t) && Shrinks(s, t) && Unclaimed(s, name)
    ensures Unclaimed(t, name)
  {
    hide Bucket, Inv, Shrinks, SameName;
    forall r: Id | t.Hashed(r) && Static(t.At(r).flags) && F_FORWARD in t.At(r).flags ensures !SameName(t.At(r).name, name) {
      HashedIn(s, t, r);
      ShrinksShape(s, t);
      HashedKeeps(s, t, t.Home(r), r);
    }
  }

  lemma {:induction false} Unstopped(s: State, name: Name, addr: Option<Data>, now: int, flags: Flags)
    requires Inv(s) && Unclaimed(s, name) && F_FORWARD in flags
    ensures var out := ScanFree(s, Some(name), addr, now, flags);
      out.hit.None? && Clear(out.s, out.s.table[s.BucketOf(name)], name, now, flags)
  {
    hide Bucket, Inv, Shrinks, ScanBucket, SameName, Clear;
    var b := s.BucketOf(name);
    var out := ScanBucket(s, b, 0, name, now, flags, None);
    assert s.table[b][..0] == [];
    NoneClear(s, name, now, flags);
    ScanBucketClears(s, b, 0, name, now, flags, None);
    ScanBucketKeeps(s, b, 0, name, now, flags, None);
    if out.hit.Some? {
      var r := out.hit.value;
      HashedKeeps(s, out.s, b, r);
      InBucket(s, out.s, b, r);
      assert false;
    }
  }

  lemma {:induction false} NoneClear(s: State, name: Name, now: int, flags: Flags)
    ensures Clear(s, [], name, now, flags)
  {}

  lemma {:induction false} InBucket(s: State, t: State, b: nat, r: Id)
    requires Inv(s) && Shrinks(s, t) && b < |s.table| && r in t.table[b]
    ensures s.Hashed(r)
  {
    hide Bucket, PoolOk, RecsOk, FindableOk, OrderOk, LruOk, UidsOk, LinksOk, BigOk;
    assert ChainOk(s, b, s.table[b]) && EntryOk(s, r, b);
  }

  // Scanning for its own name or address removes the record itself.
  lemma {:induction false} SpillFrees(s: State, r: Id, now: int)
    requires Inv(s) && PoolTyped(s) && PoolUnclaimed(s) && r in s.lru && InUse(s.At(r).flags)
    ensures var x := s.At(r);
      var t := ScanFree(s, Some(x.name), Some(x.data), now, x.flags).s;
      Inv(t) && Shrinks(s, t) && !InUse(t.At(r).flags)
  {
    hide Bucket, Inv, Shrinks, ScanFree, Clear, Unclaimed;
    var x := s.At(r);
    var t := ScanFree(s, Some(x.name), Some(x.data), now, x.flags).s;
    LruHashed(s, r);
    ScanFreeKeeps(s, Some(x.name), Some(x.data), now, x.flags);
    if F_FORWARD in x.flags {
      Unstopped(s, x.name, Some(x.data), now, x.flags);
      NotClear(t, t.table[s.BucketOf(x.name)], r, x.name, now, x.flags);
    } else {
      ReverseGone(s, r, now);
    }
    Removed(s, t, r);
  }

  lemma {:induction false} ReverseGone(s: State, r: Id, now: int)
    requires Inv(s) && r < s.n && F_FORWARD !in s.At(r).flags && F_REVERSE in s.At(r).flags && HasType(s.At(r).flags)
    requires !Static(s.At(r).flags)
    ensures var x := s.At(r);
      !ScanFree(s, Some(x.name), Some(x.data), now, x.flags).s.Hashed(r)
  {
    hide Bucket, Inv, Shrinks, ScanTable, View;
    var x := s.At(r);
    TableScan(s, now, x.flags, Some(x.data));
    assert SameReverse(x, x.flags, Some(x.data));
  }

  lemma {:induction false} LruHashed(s: State, r: Id)
    requires Inv(s) && r in s.lru && InUse(s.At(r).flags)
    ensures r < s.n && s.Hashed(r) && !Static(s.At(r).flags)
  {
    hide Bucket, ChainsOk, OrderOk, LruOk, UidsOk, LinksOk, BigOk;
  }

  lemma {:induction false} NotClear(s: State, c: seq<Id>, r: Id, name: Name, now: int, flags: Flags)
    requires Clear(s, c, name, now, flags) && F_FORWARD in flags && Clashes(flags, flags)
    ensures r in c ==> s.At(r).flags != flags || s.At(r).name != name
  {}

  lemma {:induction false} Removed(s: State, t: State, r: Id)
    requires Inv(s) && Inv(t) && Shrinks(s, t) && r < s.n && s.Hashed(r)
    requires !t.Hashed(r) || t.At(r) != s.At(r)
    ensures !InUse(t.At(r).flags)
  {
    hide Bucket, PoolOk, RecsOk, FindableOk, OrderOk, LruOk, UidsOk, LinksOk, BigOk, ChainsOk;
    HashedIn(s, t, r);
    assert Get(t.recs, r) == Get(s.recs, r) || Get(t.recs, r) == Freed(Get(s.recs, r));
  }

  lemma {:induction false} TailFree(s: State, r: Id)
    requires Inv(s) && r in s.lru && !InUse(s.At(r).flags)
    ensures s.lru != [] && !InUse(s.At(Tail(s)).flags)
  {
    hide Bucket, PoolOk, RecsOk, ChainsOk, OrderOk, FindableOk, UidsOk, LinksOk, BigOk;
    var i :| 0 <= i < |s.lru| && s.lru[i] == r;
    assert !InUse(Get(s.recs, s.lru[i]).flags) && (i == |s.lru| - 1 || i < |s.lru| - 1);
  }

  lemma {:induction false} PoolStays(s: State, t: State)
    requires Inv(t) && Shrinks(s, t) && PoolTyped(s) && PoolUnclaimed(s)
    ensures PoolTyped(t) && PoolUnclaimed(t) && (s.lru != [] ==> t.lru != [])
  {
    hide Bucket, Inv, Unclaimed, HasType;
    forall p: Id | p < t.n && InUse(Get(t.recs, p).flags) ensures HasType(Get(t.recs, p).flags) && Unclaimed(t, Get(t.recs, p).name) {
      assert Get(t.recs, p) == Get(s.recs, p) || Get(t.recs, p) == Freed(Get(s.recs, p));
      assert Get(t.recs, p) == Get(s.recs, p);
      UnclaimedStays(s, t, Get(s.recs, p).name);
    }
    if s.lru != [] {
      assert s.lru[0] in t.lru;
    }
  }

  // The slot loop finds a record in at most three rounds.
  lemma {:induction false} SlotFound(s: State, now: int, freedAll: bool)
    requires Inv(s) && PoolTyped(s) && PoolUnclaimed(s) && s.lru != []
    ensures var out := TakeSlot(s, now, freedAll, false);
      out.rec.Some? && !out.internal && out.rounds <= 3
    decreases !freedAll
  {
    hide Bucket, Inv, Shrinks, ScanTable, ScanFree, PoolTyped, PoolUnclaimed;
    if InUse(s.At(Tail(s)).flags) {
      if freedAll {
        var r, x := Tail(s), s.At(Tail(s));
        var t := ScanFree(s, Some(x.name), Some(x.data), now, x.flags).s;
        SpillFrees(s, r, now);
        SameLru(s, t, r);
        TailFree(t, r);
      } else {
        var t := ScanTable(s, 0, now, {}, None);
        ScanTableKeeps(s, 0, now, {}, None);
        PoolStays(s, t);
        SlotFound(t, now, true);
      }
    }
  }

  lemma {:induction false} SameLru(s: State, t: State, r: Id)
    requires Shrinks(s, t)
    ensures r in s.lru <==> r in t.lru
  {}

  // There is storage for the name, if it is a long one.
  predicate BigRoom(s: State, name: Option<Name>, malloc: bool) {
    name.Some? && LongName(name.value) ==> s.bigFree > 0 || (s.bigLeft > 0 && malloc)
  }

  // Removing entries gives back the storage of their long names.
  lemma {:induction false} BigGrows(s: State, t: State)
    requires Inv(s) && Inv(t) && Shrinks(s, t)
    ensures t.bigFree >= s.bigFree && t.bigLeft == s.bigLeft
  {
    hide Bucket, PoolOk, RecsOk, ChainsOk, FindableOk, OrderOk, LruOk, UidsOk, LinksOk;
    assert BigSet(t) <= BigSet(s) by {
      forall p: Id | p in BigSet(t) ensures p in BigSet(s) {
        assert Get(t.recs, p) == Get(s.recs, p) || Get(t.recs, p) == Freed(Get(s.recs, p));
      }
    }
    SubsetSize(BigSet(t), BigSet(s));
  }

  lemma {:induction false} SubsetSize(a: set<Id>, b: set<Id>)
    requires a <= b
    ensures |a| <= |b|
  {
    assert b == a + (b - a);
  }

  lemma {:induction false} SettleRoom(s: State, r: Id, uid: nat, name: Option<Name>, data: Option<Data>, ttd: int, flags: Flags, malloc: bool)
    requires BigRoom(s, name, malloc)
    ensures var out := Settle(s, r, uid, name, data, ttd, flags, malloc);
      && out.rec == Some(r) && out.s.err == s.err && out.s.pending == [r] + s.pending
      && (s.bigFree > 0 ==> out.s.bigLeft == s.bigLeft)
  {
    hide Bucket, Without, Fill;
  }

  // Insert progress: with a nonempty LRU list, an insert with a nonzero TTL gets a
  // record, unless static entries claim the names involved or there is no storage for
  // a long name. The allowance for long names is not touched while any is free.
  lemma {:induction false} AlwaysRoom(s: State, name: Option<Name>, data: Option<Data>, now: int, ttl: nat, flags: Flags, malloc: bool)
    requires Inv(s) && Insertable(name, data, flags) && PoolTyped(s) && PoolUnclaimed(s)
    requires !s.err && ttl > 0 && s.lru != [] && BigRoom(s, name, malloc)
    requires F_FORWARD in flags ==> Unclaimed(s, name.value)
    ensures var out := Insert(s, name, data, now, ttl, flags, malloc);
      && out.rec.Some? && out.rec.value < s.n && !out.s.err && out.s.pending == [out.rec.value] + s.pending
      && (s.bigFree > 0 ==> out.s.bigLeft == s.bigLeft)
  {
    hide Bucket, Inv, ScanFree, TakeSlot, Settle, PoolTyped, PoolUnclaimed, Unclaimed, Clear, Shrinks, TargetOk;
    var scan := ScanFree(s, name, data, now, flags);
    ScanFreeKeeps(s, name, data, now, flags);
    Hitless(s, name, data, now, flags);
    PoolStays(s, scan.s);
    SlotFound(scan.s, now, F_REVERSE in flags);
    TakeSlotKeeps(scan.s, now, F_REVERSE in flags, false);
    var t := TakeSlot(scan.s, now, F_REVERSE in flags, false).s;
    ShrinksShape(s, scan.s);
    ShrinksShape(scan.s, t);
    PoolBound(t);
    PoolBound(scan.s);
    BigGrows(s, scan.s);
    BigGrows(scan.s, t);
    if scan.target.Some? {
      assert TargetOk(scan.s, scan.target.value, name.value);
      TargetLru(scan.s, scan.target.value, name.value);
      SettleRoom(scan.s, scan.target.value.rec, scan.target.value.uid, name, data, now + ttl, flags, malloc);
    } else {
      var r := TakeSlot(scan.s, now, F_REVERSE in flags, false).rec.value;
      SettleRoom(t, r, t.At(r).uid, name, data, now + ttl, flags, malloc);
    }
  }

  lemma {:induction false} Hitless(s: State, name: Option<Name>, data: Option<Data>, now: int, flags: Flags)
    requires Inv(s) && (F_FORWARD in flags ==> name.Some? && Unclaimed(s, name.value))
    ensures ScanFree(s, name, data, now, flags).hit.None?
  {
    hide Bucket, Inv, Unclaimed;
    if F_FORWARD in flags {
      Unstopped(s, name.value, data, now, flags);
    }
  }

  lemma {:induction false} PoolBound(s: State)
    requires Inv(s)
    ensures forall p: Id :: p in s.lru ==> p < s.n
  {}

  lemma {:induction false} TargetLru(s: State, t: Target, name: Name)
    requires TargetOk(s, t, name)
    ensures t.rec in s.lru
  {}
}
