/**
 Replacing a record: the new one takes the place and the uid of one that it replaces, so
 that CNAMEs for that one go on to work.
 */
module Renewal {
  import opened Names
  import opened Records
  import opened State
  import opened Keeps
  import opened Ops
  import opened Scans
  import opened Batch
  import opened Slots
  import opened Answers
  import opened Exact
  import opened Replace
  import opened Runs
  import opened Atomic

  // A pool entry that the insert replaces and that CNAMEs may point at.
  ghost predicate Bearer(s: State, x: Id, name: Name, flags: Flags) {
    x < s.n && s.Hashed(x) && InTheWay(s.At(x), name, flags) && s.At(x).uid != UID_NONE
  }

  // The entry `c` comes after `t` in its chain.
  ghost predicate Behind(s: State, c: Id, t: Id) {
    var l := s.table[s.Home(t)];
    exists i, j :: 0 <= i < j < |l| && l[i] == t && l[j] == c
  }

  // ---------- what an insert gives back ----------

  // If static entries are in the way, the first of them decides: it is returned if it
  // gives the address, and the insert fails otherwise. With none there is no static
  // entry in the result.
  lemma {:induction false} StaticDecides(s: State, name: Name, data: Option<Data>, now: int, ttl: nat, flags: Flags, malloc: bool)
    requires Inv(s) && Insertable(Some(name), data, flags) && F_FORWARD in flags && !s.err && ttl > 0
    ensures var c := s.table[s.BucketOf(name)]; var k := Stop(s, c, 0, name, flags);
      var out := Insert(s, Some(name), data, now, ttl, flags, malloc);
      if k == |c| then out.rec.Some? ==> out.rec.value < s.n
      else if Repeats(s.At(c[k]), data, flags) then out.rec == Some(c[k]) && !out.s.err
      else out.rec.None? && out.s.err
  {
    hide Bucket, Inv, ScanBucket, TakeSlot, Settle, Repeats, Insertable, Stops, InTheWay, Trimmed, Shrinks, TargetOk;
    var b := s.BucketOf(name);
    var c := s.table[b];
    var k := Stop(s, c, 0, name, flags);
    ScanBucketExact(s, b, name, now, flags);
    ScanFreeKeeps(s, Some(name), data, now, flags);
    var scan := ScanFree(s, Some(name), data, now, flags);
    ShrinksShape(s, scan.s);
    if k < |c| {
      StopKept(s, b, k, name, now, flags, scan.s);
    } else {
      var slot := TakeSlot(scan.s, now, F_REVERSE in flags, false);
      TakeSlotKeeps(scan.s, now, F_REVERSE in flags, false);
      ShrinksShape(scan.s, slot.s);
      PoolBound(scan.s);
      PoolBound(slot.s);
      if scan.target.Some? {
        TargetLru(scan.s, scan.target.value, name);
      }
      SettleGives(scan.s, slot.s, scan.target, slot.rec, name, data, now + ttl, flags, malloc);
    }
  }

  lemma {:induction false} SettleGives(s: State, t: State, target: Option<Target>, rec: Option<Id>, name: Name, data: Option<Data>, ttd: int, flags: Flags, malloc: bool)
    ensures target.Some? ==> var out := Settle(s, target.value.rec, target.value.uid, Some(name), data, ttd, flags, malloc).rec; out.Some? ==> out.value == target.value.rec
    ensures rec.Some? ==> var out := Settle(t, rec.value, t.At(rec.value).uid, Some(name), data, ttd, flags, malloc).rec; out.Some? ==> out.value == rec.value
  {}

  // The entry that stops a scan is as it was.
  lemma {:induction false} StopKept(s: State, b: nat, k: nat, name: Name, now: int, flags: Flags, t: State)
    requires Inv(s) && b < |s.table| && k < |s.table[b]| && Stops(s, s.table[b][k], name, flags)
    requires Trimmed(s, t, Taken(s, s.table[b], k, name, now, flags))
    ensures t.At(s.table[b][k]) == s.At(s.table[b][k])
  {
    hide Bucket, Inv, Goes;
    NotTaken(s, b, k, name, now, flags);
  }

  // ---------- the uid ----------

  predicate Carries(s: State, x: Id, name: Name, flags: Flags) {
    InTheWay(s.At(x), name, flags) && s.At(x).uid != UID_NONE
  }

  // What a scan offers is the last of the entries it passed that are in the way and
  // have a uid.
  lemma {:induction false} OfferLast(s: State, c: seq<Id>, i: nat, name: Name, flags: Flags) returns (m: nat)
    requires i <= |c|
    ensures match Offer(s, c, i, name, flags)
      case None => forall j :: 0 <= j < i ==> !Carries(s, c[j], name, flags)
      case Some(o) => m < i && o == Target(c[m], s.At(c[m]).uid) && Carries(s, c[m], name, flags) && forall j :: m < j < i ==> !Carries(s, c[j], name, flags)
  {
    hide InTheWay;
    m := 0;
    if i > 0 {
      if Carries(s, c[i - 1], name, flags) {
        m := i - 1;
      } else {
        m := OfferLast(s, c, i - 1, name, flags);
      }
    }
  }

  lemma {:induction false} BearerPlace(s: State, x: Id, name: Name, flags: Flags)
    requires Bearer(s, x, name, flags)
    ensures x in s.table[s.BucketOf(name)]
  {
    hide Bucket, SameName;
    BucketIgnoresCase(s.mix, s.At(x).name, name, |s.table|);
  }

  lemma {:induction false} ChainBearer(s: State, x: Id, name: Name, flags: Flags)
    requires Inv(s) && x in s.table[s.BucketOf(name)] && Carries(s, x, name, flags) && !Static(s.At(x).flags)
    ensures Bearer(s, x, name, flags)
  {
    hide Bucket, PoolOk, RecsOk, FindableOk, OrderOk, LruOk, UidsOk, LinksOk, BigOk, InTheWay;
    var b := s.BucketOf(name);
    assert ChainOk(s, b, s.table[b]) && EntryOk(s, x, b);
  }

  // What a forward insert does once no static entry stops it.
  lemma {:induction false} InsertReuses(s: State, name: Name, data: Option<Data>, now: int, ttl: nat, flags: Flags, malloc: bool)
    requires Inv(s) && Insertable(Some(name), data, flags) && F_FORWARD in flags
    requires var out := Insert(s, Some(name), data, now, ttl, flags, malloc); out.rec.Some? && out.rec.value < s.n
    ensures var c := s.table[s.BucketOf(name)]; var out := Insert(s, Some(name), data, now, ttl, flags, malloc);
      && !s.err && ttl > 0 && Stop(s, c, 0, name, flags) == |c|
      && match Offer(s, c, |c|, name, flags)
         case Some(o) =>
           var t := ScanBucket(s, s.BucketOf(name), 0, name, now, flags, None).s;
           && out.rec == Some(o.rec) && out.s.At(o.rec).uid == o.uid && out.s.table == t.table
           && forall p: Id :: p != o.rec ==> Get(out.s.recs, p) == Get(t.recs, p)
         case None => out.s.At(out.rec.value).uid == UID_NONE
  {
    hide Bucket, Inv, ScanBucket, TakeSlot, Settle, Repeats, Insertable, Trimmed, Shrinks, TargetOk, Took, InTheWay, Left, Taken;
    var b := s.BucketOf(name);
    ScanBucketExact(s, b, name, now, flags);
    ScanFreeKeeps(s, Some(name), data, now, flags);
    StaticInsert(s, name, data, now, ttl, flags, malloc);
    var scan := ScanFree(s, Some(name), data, now, flags);
    if scan.target.Some? {
      SettleFields(scan.s, scan.target.value.rec, scan.target.value.uid, name, data, now + ttl, flags, malloc);
    } else {
      var slot := TakeSlot(scan.s, now, F_REVERSE in flags, false);
      TakeSlotKeeps(scan.s, now, F_REVERSE in flags, false);
      FreeUid(slot.s, slot.rec.value);
      SettleFields(slot.s, slot.rec.value, slot.s.At(slot.rec.value).uid, name, data, now + ttl, flags, malloc);
    }
  }

  // A record from the pool is not the static entry that stopped the scan.
  lemma {:induction false} StaticInsert(s: State, name: Name, data: Option<Data>, now: int, ttl: nat, flags: Flags, malloc: bool)
    requires Inv(s) && Insertable(Some(name), data, flags) && F_FORWARD in flags
    requires var out := Insert(s, Some(name), data, now, ttl, flags, malloc); out.rec.Some? && out.rec.value < s.n
    ensures !s.err && ttl > 0 && ScanFree(s, Some(name), data, now, flags).hit.None?
  {
    hide Bucket, Inv, ScanFree, TakeSlot, Settle, Repeats, Insertable, TargetOk, Shrinks;
    ScanFreeKeeps(s, Some(name), data, now, flags);
  }

  lemma {:induction false} SettleFields(s: State, r: Id, uid: nat, name: Name, data: Option<Data>, ttd: int, flags: Flags, malloc: bool)
    ensures var out := Settle(s, r, uid, Some(name), data, ttd, flags, malloc);
      out.rec.Some? ==> out.rec.value == r && out.s.At(r).uid == uid && out.s.table == s.table && forall p: Id :: p != r ==> Get(out.s.recs, p) == Get(s.recs, p)
  {
    hide Bucket, Without, LongName, TakeBig, Fill;
    SettleWith(s, r, uid, name, data, ttd, flags, malloc);
  }

  lemma {:induction false} SettleWith(s: State, r: Id, uid: nat, name: Name, data: Option<Data>, ttd: int, flags: Flags, malloc: bool)
    ensures Fill(s, r, uid, Some(name), data, ttd, flags).uid == uid
    ensures var big := TakeBig(s, flags, malloc); big.Some? ==> big.value.table == s.table && big.value.recs == s.recs
  {}

  // If a forward insert gets a record of the pool, and an entry that it replaces has a
  // uid, then the record is such an entry, the last of them in its chain, and has the
  // uid it had; otherwise it has none.
  lemma {:induction false} ReuseKeepsUid(s: State, name: Name, data: Option<Data>, now: int, ttl: nat, flags: Flags, malloc: bool)
    requires Inv(s) && Insertable(Some(name), data, flags) && F_FORWARD in flags
    requires var out := Insert(s, Some(name), data, now, ttl, flags, malloc); out.rec.Some? && out.rec.value < s.n
    ensures var out := Insert(s, Some(name), data, now, ttl, flags, malloc); var r := out.rec.value;
      && ((exists x: Id :: Bearer(s, x, name, flags)) ==>
            Bearer(s, r, name, flags) && out.s.At(r).uid == s.At(r).uid && forall x: Id :: Behind(s, x, r) ==> !Bearer(s, x, name, flags))
      && ((forall x: Id :: !Bearer(s, x, name, flags)) ==> out.s.At(r).uid == UID_NONE)
  {
    hide Bucket, Inv, Insert, Insertable, Bearer, InTheWay, ScanBucket;
    var c := s.table[s.BucketOf(name)];
    InsertReuses(s, name, data, now, ttl, flags, malloc);
    var m := OfferLast(s, c, |c|, name, flags);
    match Offer(s, c, |c|, name, flags)
    case None =>
      forall x: Id ensures !Bearer(s, x, name, flags) {
        NoBearer(s, c, x, name, flags);
      }
    case Some(o) =>
      assert !Stops(s, c[m], name, flags);
      ChainBearer(s, o.rec, name, flags);
      HomeOf(s, o.rec, name, flags);
      ChainNoDup(s, s.BucketOf(name));
      forall x: Id | Behind(s, x, o.rec) ensures !Bearer(s, x, name, flags) {
        BearerCarries(s, x, name, flags);
      }
  }

  lemma {:induction false} BearerCarries(s: State, x: Id, name: Name, flags: Flags)
    ensures Bearer(s, x, name, flags) ==> Carries(s, x, name, flags)
  {}

  lemma {:induction false} NoBearer(s: State, c: seq<Id>, x: Id, name: Name, flags: Flags)
    requires c == s.table[s.BucketOf(name)] && forall j :: 0 <= j < |c| ==> !Carries(s, c[j], name, flags)
    ensures !Bearer(s, x, name, flags)
  {
    hide Bucket, InTheWay;
    if Bearer(s, x, name, flags) {
      BearerPlace(s, x, name, flags);
      assert false;
    }
  }

  // ---------- CNAMEs for a record that is renewed ----------

  lemma {:induction false} LeftIn(s: State, c: seq<Id>, i: nat, name: Name, now: int, flags: Flags, j: nat)
    requires NoDup(c) && i <= |c| && j < |c|
    ensures c[j] in Left(s, c, i, name, now, flags) <==> j < i && !Goes(s, c[j], Taken(s, c, j, name, now, flags), name, now, flags)
    ensures c[j] in Taken(s, c, i, name, now, flags) <==> j < i && Goes(s, c[j], Taken(s, c, j, name, now, flags), name, now, flags)
  {
    hide Goes;
    if i > 0 {
      LeftIn(s, c, i - 1, name, now, flags, j);
    }
  }

  // The record is a CNAME whose link, to `t`, passes the uid test.
  ghost predicate Follows(s: State, c: Id, t: Id) {
    c != t && F_CNAME in s.At(c).flags && s.At(c).data == CnameRec(Some(t), s.At(t).uid) && !s.Outdated(c)
  }

  // A record is replaced that CNAMEs point at, and no other that is replaced has a uid.
  // Then the new one is put in its place and the links pass the uid test as before. A
  // CNAME that is live and not itself replaced stays in the table, as it was, if and
  // only if it did not come after the record in its chain.
  lemma {:induction false} Renewed(s: State, name: Name, data: Option<Data>, now: int, ttl: nat, flags: Flags, malloc: bool, t: Id, c: Id)
    requires Inv(s) && Insertable(Some(name), data, flags) && F_FORWARD in flags
    requires var out := Insert(s, Some(name), data, now, ttl, flags, malloc); out.rec.Some? && out.rec.value < s.n
    requires Bearer(s, t, name, flags) && (forall x: Id :: Bearer(s, x, name, flags) ==> x == t) && Follows(s, c, t)
    ensures var out := Insert(s, Some(name), data, now, ttl, flags, malloc);
      && out.rec == Some(t) && Follows(out.s, c, t)
      && (s.Hashed(c) && !Expired(now, s.At(c)) && !InTheWay(s.At(c), name, flags) ==>
            (out.s.Hashed(c) <==> !Behind(s, c, t)) && (out.s.Hashed(c) ==> out.s.At(c) == s.At(c)))
  {
    hide Bucket, Inv, Insert, Insertable, Bearer, InTheWay, ScanBucket, Left, Taken, Goes, Behind, Follows;
    var b := s.BucketOf(name);
    var l := s.table[b];
    var out := Insert(s, Some(name), data, now, ttl, flags, malloc);
    var v := ScanBucket(s, b, 0, name, now, flags, None).s;
    ReuseKeepsUid(s, name, data, now, ttl, flags, malloc);
    InsertReuses(s, name, data, now, ttl, flags, malloc);
    OneOffered(s, t, name, flags);
    ScanBucketExact(s, b, name, now, flags);
    assert l[|l|..] == [] && Left(s, l, |l|, name, now, flags) + [] == Left(s, l, |l|, name, now, flags);
    NewFlags(s, name, data, now, ttl, flags, malloc);
    LinkKept(s, v, out.s, c, t, Taken(s, l, |l|, name, now, flags));
    if s.Hashed(c) && !Expired(now, s.At(c)) && !InTheWay(s.At(c), name, flags) {
      Remains(s, name, now, flags, t, c, out.s);
    }
  }

  lemma {:induction false} OneOffered(s: State, t: Id, name: Name, flags: Flags)
    requires Bearer(s, t, name, flags)
    ensures var l := s.table[s.BucketOf(name)]; Offer(s, l, |l|, name, flags).Some?
  {
    hide Bucket, Bearer, InTheWay;
    var l := s.table[s.BucketOf(name)];
    var m := OfferLast(s, l, |l|, name, flags);
    if Offer(s, l, |l|, name, flags).None? {
      NoBearer(s, l, t, name, flags);
    }
  }

  lemma {:induction false} NewFlags(s: State, name: Name, data: Option<Data>, now: int, ttl: nat, flags: Flags, malloc: bool)
    requires Inv(s) && Insertable(Some(name), data, flags)
    requires var out := Insert(s, Some(name), data, now, ttl, flags, malloc); out.rec.Some? && out.rec.value < s.n
    ensures var out := Insert(s, Some(name), data, now, ttl, flags, malloc);
      F_DS !in out.s.At(out.rec.value).flags && F_DNSKEY !in out.s.At(out.rec.value).flags
  {
    hide Bucket, Inv, Insert, Shrinks, Fillable, SameName;
    var t := InsertEffect(s, Some(name), data, now, ttl, flags, malloc);
  }

  lemma {:induction false} LinkKept(s: State, v: State, o: State, c: Id, t: Id, gone: set<Id>)
    requires Follows(s, c, t) && Trimmed(s, v, gone)
    requires (forall p: Id :: p != t ==> Get(o.recs, p) == Get(v.recs, p)) && o.At(t).uid == s.At(t).uid
    requires F_DS !in o.At(t).flags && F_DNSKEY !in o.At(t).flags
    ensures Follows(o, c, t)
  {
    assert Get(o.recs, c) == Get(v.recs, c);
  }

  // What becomes of a live CNAME whose target is replaced.
  lemma {:induction false} Remains(s: State, name: Name, now: int, flags: Flags, t: Id, c: Id, o: State)
    requires Inv(s) && Bearer(s, t, name, flags) && Follows(s, c, t)
    requires s.Hashed(c) && !Expired(now, s.At(c)) && !InTheWay(s.At(c), name, flags)
    requires var b := s.BucketOf(name); var l := s.table[b]; var gone := Taken(s, l, |l|, name, now, flags);
      && o.table == s.table[b := Left(s, l, |l|, name, now, flags)] && o.mix == s.mix
      && forall p: Id :: p != t ==> Get(o.recs, p) == if p in gone && p < s.n then Freed(Get(s.recs, p)) else Get(s.recs, p)
    ensures (o.Hashed(c) <==> !Behind(s, c, t)) && (o.Hashed(c) ==> o.At(c) == s.At(c))
  {
    hide Bucket, Inv, Left, Taken, Goes, InTheWay;
    var b := s.BucketOf(name);
    var l := s.table[b];
    ChainNoDup(s, b);
    BearerPlace(s, t, name, flags);
    assert s.Home(t) == b by { HomeOf(s, t, name, flags); }
    assert o.At(c).name == s.At(c).name && o.Home(c) == s.Home(c);
    if s.Home(c) == b {
      var i :| 0 <= i < |l| && l[i] == t;
      var j :| 0 <= j < |l| && l[j] == c;
      TargetTaken(s, l, i, j, name, now, flags);
      LeftIn(s, l, |l|, name, now, flags, j);
    } else {
      ElsewhereIn(s, b, c);
    }
  }

  lemma {:induction false} ElsewhereIn(s: State, b: nat, c: Id)
    requires Inv(s) && b < |s.table| && s.Home(c) != b
    ensures c !in s.table[b]
  {
    hide Bucket, PoolOk, RecsOk, FindableOk, OrderOk, LruOk, UidsOk, LinksOk, BigOk;
    assert ChainOk(s, b, s.table[b]) && (c in s.table[b] ==> EntryOk(s, c, b));
  }

  // The CNAME at `j` goes if and only if its target, at `i`, went before it.
  lemma {:induction false} TargetTaken(s: State, l: seq<Id>, i: nat, j: nat, name: Name, now: int, flags: Flags)
    requires NoDup(l) && i < |l| && j < |l| && Bearer(s, l[i], name, flags) && Follows(s, l[j], l[i])
    requires !Expired(now, s.At(l[j])) && !InTheWay(s.At(l[j]), name, flags)
    ensures Goes(s, l[j], Taken(s, l, j, name, now, flags), name, now, flags) <==> i < j
  {
    hide Bucket, InTheWay, Taken;
    LeftIn(s, l, j, name, now, flags, i);
  }

  lemma {:induction false} HomeOf(s: State, t: Id, name: Name, flags: Flags)
    requires Bearer(s, t, name, flags)
    ensures s.Home(t) == s.BucketOf(name)
  {
    hide Bucket, SameName;
    BucketIgnoresCase(s.mix, s.At(t).name, name, |s.table|);
  }

  // Replacing an entry that has a uid needs no other record: it works whenever no
  // static entry is in the way and there is storage for a long name.
  lemma {:induction false} RenewalRoom(s: State, name: Name, data: Option<Data>, now: int, ttl: nat, flags: Flags, malloc: bool, t: Id)
    requires Inv(s) && Insertable(Some(name), data, flags) && F_FORWARD in flags && !s.err && ttl > 0 && BigRoom(s, Some(name), malloc)
    requires Bearer(s, t, name, flags) && forall x: Id :: s.Hashed(x) && InTheWay(s.At(x), name, flags) ==> !Static(s.At(x).flags)
    ensures var out := Insert(s, Some(name), data, now, ttl, flags, malloc); out.rec.Some? && out.rec.value < s.n && !out.s.err
  {
    hide Bucket, Inv, Insertable, Bearer, InTheWay, ScanBucket, Settle, Shrinks, Stop, BigRoom, TargetOk;
    var b := s.BucketOf(name);
    var c := s.table[b];
    OneOffered(s, t, name, flags);
    ScanBucketExact(s, b, name, now, flags);
    ScanFreeKeeps(s, Some(name), data, now, flags);
    Unstopped(s, name, flags);
    var scan := ScanFree(s, Some(name), data, now, flags);
    BigGrows(s, scan.s);
    BigRoomGrows(s, scan.s, name, malloc);
    ShrinksShape(s, scan.s);
    PoolBound(scan.s);
    TargetLru(scan.s, scan.target.value, name);
    SettleRoom(scan.s, scan.target.value.rec, scan.target.value.uid, Some(name), data, now + ttl, flags, malloc);
  }

  lemma {:induction false} Unstopped(s: State, name: Name, flags: Flags)
    requires Inv(s) && forall x: Id :: s.Hashed(x) && InTheWay(s.At(x), name, flags) ==> !Static(s.At(x).flags)
    ensures var c := s.table[s.BucketOf(name)]; Stop(s, c, 0, name, flags) == |c|
  {
    hide Bucket, Inv, InTheWay, Stop;
    var b := s.BucketOf(name);
    var k := Stop(s, s.table[b], 0, name, flags);
    if k < |s.table[b]| {
      HashedStatic(s, b, k);
      assert false;
    }
  }

  lemma {:induction false} BigRoomGrows(s: State, t: State, name: Name, malloc: bool)
    requires BigRoom(s, Some(name), malloc) && t.bigFree >= s.bigFree && t.bigLeft == s.bigLeft
    ensures BigRoom(t, Some(name), malloc)
  {}

  // ---------- over runs ----------

  // In any run: an insert replaces a record that a CNAME points at, and no other that it
  // replaces has a uid. Then the link passes the uid test after it as before. Once a
  // batch with anything but a CNAME in that place is committed, the CNAME, if it was
  // live, not itself replaced and not behind the record, is in the table as it was, for
  // what was inserted.
  lemma {:induction false} RenewedInRun(n: CInt, mix: Mix, ops: seq<Op>, op: Op, t: Id, c: Id)
    requires Allowed(Initial(n, mix), ops) && op.Add? && op.name.Some? && F_FORWARD in op.flags && Insertable(op.name, op.data, op.flags)
    requires var s := After(Initial(n, mix), ops); var out := Insert(s, op.name, op.data, op.now, op.ttl, op.flags, op.malloc);
      && out.rec.Some? && out.rec.value < s.n
      && Bearer(s, t, op.name.value, op.flags) && (forall x: Id :: Bearer(s, x, op.name.value, op.flags) ==> x == t) && Follows(s, c, t)
    ensures Allowed(Initial(n, mix), ops + [op]) && Follows(After(Initial(n, mix), ops + [op]), c, t)
    ensures Allowed(Initial(n, mix), ops + [op] + [End])
    ensures var s, e := After(Initial(n, mix), ops), After(Initial(n, mix), ops + [op] + [End]);
      F_CNAME !in op.flags && s.Hashed(c) ==>
        && e.Hashed(t) && Says(e.At(t), s.At(t), op.name, op.data, op.now + op.ttl, op.flags) && Follows(e, c, t)
        && (!Expired(op.now, s.At(c)) && !InTheWay(s.At(c), op.name.value, op.flags) && !Behind(s, c, t) ==> e.Hashed(c) && e.At(c) == s.At(c))
  {
    hide Bucket, Inv, Initial, Allowed, After, Insert, Insertable, Bearer, InTheWay, Behind, Follows, Says, EndInsert;
    var s := After(Initial(n, mix), ops);
    AnotherRecord(s, c, t);
    InitialInv(n, mix);
    RunKeeps(Initial(n, mix), ops);
    Further(Initial(n, mix), ops, op);
    var v := Step(s, op);
    Further(Initial(n, mix), ops + [op], End);
    Renewed(s, op.name.value, op.data, op.now, op.ttl, op.flags, op.malloc, t, c);
    if F_CNAME !in op.flags && s.Hashed(c) {
      Inserted(s, op.name.value, op.data, op.now, op.ttl, op.flags, op.malloc, c);
      CommitFollows(v, t, c);
    }
  }

  lemma {:induction false} AnotherRecord(s: State, c: Id, t: Id)
    requires Follows(s, c, t)
    ensures c != t
  {}

  // The record is in the batch, and no entry of the table is.
  lemma {:induction false} Inserted(s: State, name: Name, data: Option<Data>, now: int, ttl: nat, flags: Flags, malloc: bool, c: Id)
    requires Inv(s) && Insertable(Some(name), data, flags) && F_CNAME !in flags && s.Hashed(c)
    requires var out := Insert(s, Some(name), data, now, ttl, flags, malloc); out.rec.Some? && out.rec.value < s.n && c != out.rec.value
    ensures var out := Insert(s, Some(name), data, now, ttl, flags, malloc); var r := out.rec.value;
      && Inv(out.s) && !out.s.err && r in out.s.pending && c !in out.s.pending && F_CNAME !in out.s.At(r).flags
      && Says(out.s.At(r), s.At(r), Some(name), data, now + ttl, flags)
  {
    hide Bucket, Inv, Insert, Fillable, SameName, Insertable;
    var t := InsertEffect(s, Some(name), data, now, ttl, flags, malloc);
    PendingHidden(s);
  }

  lemma {:induction false} CommitFollows(v: State, t: Id, c: Id)
    requires Inv(v) && !v.err && t in v.pending && c !in v.pending && F_CNAME !in v.At(t).flags && Follows(v, c, t)
    ensures var e := EndInsert(v);
      e.Hashed(t) && e.At(t) == v.At(t) && Follows(e, c, t) && e.At(c) == v.At(c) && (e.Hashed(c) <==> v.Hashed(c))
  {
    hide Bucket, Inv, EndInsert, Loose;
    CommittedBatch(v);
    if t in Loose(v, |v.pending|) {
      LooseCname(v, |v.pending|, t);
    }
  }
}
