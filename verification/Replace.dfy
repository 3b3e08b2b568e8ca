/**
 What an insert does to the entries that are there: those that it replaces are
 gone, and a scan of a bucket takes no others than it should.
 */
module Replace {
  import opened Names
  import opened Records
  import opened State
  import opened Keeps
  import opened Ops
  import opened Scans
  import opened Batch
  import opened Clears
  import opened Slots
  import opened Answers
  import opened Exact

  // The entries an insert is to leave none of.
  predicate Replaced(x: Rec, name: Option<Name>, data: Option<Data>, now: int, flags: Flags) {
    if F_FORWARD in flags then name.Some? && InTheWay(x, name.value, flags) else Culled(x, now, flags, data)
  }

  // A record that was just taken is not in the table.
  lemma {:induction false} TookHashed(t: State, v: State, r: Id, name: Option<Name>, data: Option<Data>, ttd: int, flags: Flags, x: Id)
    requires Inv(t) && Took(t, v, r, name, data, ttd, flags) && v.Hashed(x)
    ensures t.Hashed(x) && v.At(x) == t.At(x)
  {
    hide Bucket, RecsOk, FindableOk, OrderOk, LruOk, UidsOk, LinksOk, BigOk;
    PendingUnhashed(t, r);
    assert x != r ==> v.Home(x) == t.Home(x);
  }

  lemma {:induction false} ShrunkHashed(s: State, t: State, x: Id)
    requires Inv(t) && Shrinks(s, t) && t.Hashed(x)
    ensures s.Hashed(x) && t.At(x) == s.At(x)
  {
    hide Bucket, Inv;
    HashedIn(s, t, x);
    HashedKeeps(s, t, t.Home(x), x);
  }

  // After the scan that an insert begins with, nothing is left to replace.
  lemma {:induction false} ScanReplaces(s: State, name: Option<Name>, data: Option<Data>, now: int, flags: Flags, x: Id)
    requires Inv(s) && (F_FORWARD in flags ==> name.Some?) && ScanFree(s, name, data, now, flags).hit.None?
    ensures var t := ScanFree(s, name, data, now, flags).s;
      t.Hashed(x) ==> !Replaced(t.At(x), name, data, now, flags)
  {
    hide Bucket, Inv, Shrinks, ScanBucket, ScanTable, SameName;
    var t := ScanFree(s, name, data, now, flags).s;
    ScanFreeKeeps(s, name, data, now, flags);
    if t.Hashed(x) {
      ShrunkHashed(s, t, x);
      if F_FORWARD in flags {
        var b := s.BucketOf(name.value);
        assert s.table[b][..0] == [];
        ScanBucketClears(s, b, 0, name.value, now, flags, None);
        ShrinksShape(s, t);
        if SameName(t.At(x).name, name.value) {
          BucketIgnoresCase(t.mix, t.At(x).name, name.value, |t.table|);
        }
      } else {
        TableScan(s, now, flags, data);
      }
    }
  }

  // A successful insert leaves no entry that it replaces, and every entry it
  // leaves is one that was there, unchanged.
  lemma {:induction false} InsertReplaces(s: State, name: Option<Name>, data: Option<Data>, now: int, ttl: nat, flags: Flags, malloc: bool, x: Id)
    requires Inv(s) && Insertable(name, data, flags)
    requires var out := Insert(s, name, data, now, ttl, flags, malloc); out.rec.Some? && out.rec.value < s.n && out.s.Hashed(x)
    ensures var t := Insert(s, name, data, now, ttl, flags, malloc).s;
      s.Hashed(x) && t.At(x) == s.At(x) && !Replaced(t.At(x), name, data, now, flags)
  {
    hide Bucket, Inv, Shrinks, ScanFree, TakeSlot, Settle, Took, TargetOk, Replaced, Repeats;
    var out := Insert(s, name, data, now, ttl, flags, malloc);
    var scan := ScanFree(s, name, data, now, flags);
    ScanFreeKeeps(s, name, data, now, flags);
    if scan.hit.None? {
      ScanReplaces(s, name, data, now, flags, x);
      var slot := TakeSlot(scan.s, now, F_REVERSE in flags, false);
      TakeSlotKeeps(scan.s, now, F_REVERSE in flags, false);
      if scan.target.Some? {
        SettleEffect(scan.s, scan.target.value.rec, scan.target, name, data, now + ttl, flags, malloc);
        TookHashed(scan.s, out.s, out.rec.value, name, data, now + ttl, flags, x);
      } else {
        FreeUid(slot.s, slot.rec.value);
        SettleEffect(slot.s, slot.rec.value, None, name, data, now + ttl, flags, malloc);
        TookHashed(slot.s, out.s, out.rec.value, name, data, now + ttl, flags, x);
        ShrunkHashed(scan.s, slot.s, x);
      }
      ShrunkHashed(s, scan.s, x);
    }
  }

  // ---------- exactly what a scan of a bucket removes ----------

  // The entry stops the scan.
  predicate Stops(s: State, r: Id, name: Name, flags: Flags) {
    InTheWay(s.At(r), name, flags) && Static(s.At(r).flags)
  }

  // The entry is removed, once `gone` have been: it is in the way, or expired, or a
  // CNAME that dangles, be it for the loss of one of those.
  predicate Goes(s: State, r: Id, gone: set<Id>, name: Name, now: int, flags: Flags) {
    InTheWay(s.At(r), name, flags) || Doomed(s, r, gone, now)
  }

  function Stop(s: State, c: seq<Id>, i: nat, name: Name, flags: Flags): (k: nat)
    requires i <= |c|
    ensures i <= k <= |c| && (k < |c| ==> Stops(s, c[k], name, flags))
    ensures forall j :: i <= j < k ==> !Stops(s, c[j], name, flags)
    decreases |c| - i
  {
    if i < |c| && !Stops(s, c[i], name, flags) then Stop(s, c, i + 1, name, flags) else i
  }

  function Taken(s: State, c: seq<Id>, i: nat, name: Name, now: int, flags: Flags): (g: set<Id>)
    requires i <= |c|
    ensures forall r: Id :: r in g ==> r in c[..i]
  {
    if i == 0 then {}
    else
      var g := Taken(s, c, i - 1, name, now, flags);
      assert c[..i] == c[..i - 1] + [c[i - 1]];
      if Goes(s, c[i - 1], g, name, now, flags) then g + {c[i - 1]} else g
  }

  function Left(s: State, c: seq<Id>, i: nat, name: Name, now: int, flags: Flags): seq<Id>
    requires i <= |c|
  {
    if i == 0 then []
    else if Goes(s, c[i - 1], Taken(s, c, i - 1, name, now, flags), name, now, flags) then Left(s, c, i - 1, name, now, flags)
    else Left(s, c, i - 1, name, now, flags) + [c[i - 1]]
  }

  // The record that the scan offers for reuse once it has passed `i` entries: the last
  // of those in the way that carries a uid, with its uid.
  function Offer(s: State, c: seq<Id>, i: nat, name: Name, flags: Flags): Option<Target>
    requires i <= |c|
  {
    if i == 0 then None
    else if InTheWay(s.At(c[i - 1]), name, flags) && s.At(c[i - 1]).uid != UID_NONE then Some(Target(c[i - 1], s.At(c[i - 1]).uid))
    else Offer(s, c, i - 1, name, flags)
  }

  // The scan has passed the first `i` entries.
  ghost predicate Scanned(s: State, b: nat, i: nat, t: State, u: nat, name: Name, now: int, flags: Flags) {
    && b < |s.table| && i <= |s.table[b]| && u == |Left(s, s.table[b], i, name, now, flags)|
    && t.table == s.table[b := Left(s, s.table[b], i, name, now, flags) + s.table[b][i..]]
    && Trimmed(s, t, Taken(s, s.table[b], i, name, now, flags))
  }

  lemma {:induction false} NotTaken(s: State, b: nat, i: nat, name: Name, now: int, flags: Flags)
    requires Inv(s) && b < |s.table| && i < |s.table[b]|
    ensures s.table[b][i] !in Taken(s, s.table[b], i, name, now, flags)
  {
    hide Inv, Goes;
    PassedOnce(s, b, i);
  }

  lemma {:induction false} ScanRemoves(s: State, b: nat, i: nat, t: State, u: nat, name: Name, now: int, flags: Flags)
    requires Inv(s) && Inv(t) && Scanned(s, b, i, t, u, name, now, flags) && i < |s.table[b]|
    requires Goes(s, s.table[b][i], Taken(s, s.table[b], i, name, now, flags), name, now, flags)
    ensures u < |t.table[b]| && t.table[b][u] == s.table[b][i]
    ensures Scanned(s, b, i + 1, Evict(t, b, u), u, name, now, flags)
  {
    hide Bucket, Inv, Goes, Evict;
    var c, v := s.table[b], Left(s, s.table[b], i, name, now, flags);
    assert t.table[b] == v + c[i..];
    EvictFacts(t, b, u);
    assert Cut(t.table[b], u) == v + c[i + 1..];
    HashedStatic(t, b, u);
    NotTaken(s, b, i, name, now, flags);
  }

  lemma {:induction false} ScanPasses(s: State, b: nat, i: nat, t: State, u: nat, name: Name, now: int, flags: Flags)
    requires Scanned(s, b, i, t, u, name, now, flags) && i < |s.table[b]|
    requires !Goes(s, s.table[b][i], Taken(s, s.table[b], i, name, now, flags), name, now, flags)
    ensures Scanned(s, b, i + 1, t, u + 1, name, now, flags)
  {
    hide Bucket, Goes;
    var c, v := s.table[b], Left(s, s.table[b], i, name, now, flags);
    assert v + c[i..] == v + [c[i]] + c[i + 1..];
  }

  // The entry that comes next is as it was, and dangles if it did or is bereft.
  lemma {:induction false} ScanNext(s: State, b: nat, i: nat, t: State, u: nat, name: Name, now: int, flags: Flags)
    requires Inv(s) && Scanned(s, b, i, t, u, name, now, flags) && i < |s.table[b]|
    ensures var r := s.table[b][i];
      && u < |t.table[b]| && t.table[b][u] == r && t.At(r) == s.At(r)
      && (t.Outdated(r) <==> s.Outdated(r) || Bereft(s, r, Taken(s, s.table[b], i, name, now, flags)))
  {
    hide Bucket, PoolOk, RecsOk, ChainsOk, FindableOk, OrderOk, LruOk, UidsOk, BigOk, Goes, Bereft;
    NotTaken(s, b, i, name, now, flags);
    OutdatedNow(s, t, Taken(s, s.table[b], i, name, now, flags), s.table[b][i]);
  }

  lemma {:induction false} ScanFrom(s: State, b: nat, i: nat, t: State, u: nat, name: Name, now: int, flags: Flags, target: Option<Target>)
    requires Inv(s) && Inv(t) && Scanned(s, b, i, t, u, name, now, flags) && target == Offer(s, s.table[b], i, name, flags)
    ensures var k := Stop(s, s.table[b], i, name, flags); var out := ScanBucket(t, b, u, name, now, flags, target);
      && Scanned(s, b, k, out.s, |Left(s, s.table[b], k, name, now, flags)|, name, now, flags)
      && out.hit == (if k < |s.table[b]| then Some(s.table[b][k]) else None) && out.target == Offer(s, s.table[b], k, name, flags)
    decreases |s.table[b]| - i
  {
    hide Bucket, Inv, InTheWay, Evict, Scanned, Bereft, State.Outdated, Expired, Left, Taken;
    ScanShape(s, b, i, t, u, name, now, flags);
    if i < |s.table[b]| {
      ScanNext(s, b, i, t, u, name, now, flags);
      var r, x := s.table[b][i], s.At(s.table[b][i]);
      EvictKeeps(t, b, u);
      if InTheWay(x, name, flags) {
        if !Static(x.flags) {
          ScanRemoves(s, b, i, t, u, name, now, flags);
          var target' := if x.uid != UID_NONE then Some(Target(r, x.uid)) else target;
          ScanFrom(s, b, i + 1, Evict(t, b, u), u, name, now, flags, target');
          assert ScanBucket(t, b, u, name, now, flags, target) == ScanBucket(Evict(t, b, u), b, u, name, now, flags, target');
        } else {
          assert ScanBucket(t, b, u, name, now, flags, target) == Scan(t, Some(r), target) && Stop(s, s.table[b], i, name, flags) == i;
        }
      } else if Expired(now, x) || t.Outdated(r) {
        ScanRemoves(s, b, i, t, u, name, now, flags);
        ScanFrom(s, b, i + 1, Evict(t, b, u), u, name, now, flags, target);
        assert ScanBucket(t, b, u, name, now, flags, target) == ScanBucket(Evict(t, b, u), b, u, name, now, flags, target);
      } else {
        ScanPasses(s, b, i, t, u, name, now, flags);
        ScanFrom(s, b, i + 1, t, u + 1, name, now, flags, target);
      }
    }
  }

  lemma {:induction false} ScanShape(s: State, b: nat, i: nat, t: State, u: nat, name: Name, now: int, flags: Flags)
    requires Scanned(s, b, i, t, u, name, now, flags)
    ensures b < |s.table| && |t.table| == |s.table| && i <= |s.table[b]| && u == |Left(s, s.table[b], i, name, now, flags)| && |t.table[b]| - u == |s.table[b]| - i && u <= |t.table[b]|
  {
    hide Goes;
  }

  // A forward scan goes as far as the first static entry in the way. Of the entries
  // up to there exactly those that go are removed, the others keep their order, and
  // of the pool records exactly those removed are freed. Other buckets are untouched.
  // What it offers for reuse is the last of the entries in the way that has a uid.
  lemma {:induction false} ScanBucketExact(s: State, b: nat, name: Name, now: int, flags: Flags)
    requires Inv(s) && b < |s.table|
    ensures var out := ScanBucket(s, b, 0, name, now, flags, None); var t, c := out.s, s.table[b];
      var k := Stop(s, c, 0, name, flags);
      && out.hit == (if k < |c| then Some(c[k]) else None) && out.target == Offer(s, c, k, name, flags)
      && t.table == s.table[b := Left(s, c, k, name, now, flags) + c[k..]]
      && Trimmed(s, t, Taken(s, c, k, name, now, flags))
  {
    hide Bucket, Inv, Goes, ScanBucket;
    assert s.table[b][0..] == s.table[b];
    assert [] + s.table[b] == s.table[b];
    assert Scanned(s, b, 0, s, 0, name, now, flags);
    ScanFrom(s, b, 0, s, 0, name, now, flags, None);
  }
}
