/**
 Inserting into a batch and committing or discarding it keep the invariant.
 */
module Batch {
  import opened Names
  import opened Records
  import opened State
  import opened Keeps
  import opened Ops
  import opened Scans

  // What callers of cache_insert pass: a forward or reverse record that is not
  // static and not a DNSSEC one, either of some type or a CNAME, with an address
  // or nothing as its data. The target of an SRV record ends in a zero byte.
  predicate Insertable(name: Option<Name>, data: Option<Data>, flags: Flags) {
    && InUse(flags) && !Static(flags) && F_DS !in flags && F_DNSKEY !in flags
    && (F_FORWARD in flags ==> name.Some?)
    && (F_BIGNAME in flags ==> name.Some? && LongName(name.value))
    && (data.Some? ==> !data.value.CnameRec?)
    && !(Typed(flags) && F_CNAME in flags)
    && (HasTarget(flags) ==> data.Some? && HasBytes(data.value))
  }

  predicate HasBytes(d: Data) {
    d.Srv? && d.target != []
  }

  // The record `y` says what was inserted; without new data it keeps those of `x`.
  ghost predicate Says(y: Rec, x: Rec, name: Option<Name>, data: Option<Data>, ttd: int, flags: Flags) {
    && y.name == (if name.Some? then name.value else []) && y.ttd == ttd
    && y.flags == (if name.Some? && LongName(name.value) then flags + {F_BIGNAME} else flags)
    && y.data == (if data.Some? then data.value else x.data)
  }

  // The record `t` was filled with, in the pool record `r`.
  ghost predicate Took(t: State, v: State, r: Id, name: Option<Name>, data: Option<Data>, ttd: int, flags: Flags) {
    && Fillable(t, r, v.At(r))
    && v == Grab(t, r, v.At(r)).(bigFree := v.bigFree, bigLeft := v.bigLeft)
    && Says(v.At(r), t.At(r), name, data, ttd, flags)
    && (v.At(r).uid != UID_NONE ==> SameName(t.At(r).name, v.At(r).name))
  }

  // An insert first removes entries; then it takes a record, or returns a static
  // one of the name with the same address, or fails. After a failure and with a TTL
  // of zero it fails at once.
  lemma {:induction false} InsertEffect(s: State, name: Option<Name>, data: Option<Data>, now: int, ttl: nat, flags: Flags, malloc: bool)
    returns (t: State)
    requires Inv(s) && Insertable(name, data, flags)
    ensures Inv(t) && Shrinks(s, t)
    ensures var out := Insert(s, name, data, now, ttl, flags, malloc);
      && Inv(out.s) && (s.err || ttl == 0 ==> out.rec.None? && t == s)
      && match out.rec
         case None => out.s == t.(err := true)
         case Some(r) =>
           if r < s.n then
             && !s.err && Took(t, out.s, r, name, data, now + ttl, flags)
             && (out.s.At(r).uid == UID_NONE || out.s.At(r).uid == s.At(r).uid)
           else out.s == t && !s.err && name.Some? && HitOk(t, r, name.value, flags) && Repeats(t.At(r), data, flags)
  {
    hide Bucket, Inv, Shrinks, TargetOk, Took, ScanFree, TakeSlot, Settle, Repeats;
    ShrinksRefl(s);
    t := s;
    if !s.err && ttl != 0 {
      var scan := ScanFree(s, name, data, now, flags);
      t := scan.s;
      ScanFreeKeeps(s, name, data, now, flags);
      if scan.hit.None? && scan.target.Some? {
        SettleEffect(t, scan.target.value.rec, scan.target, name, data, now + ttl, flags, malloc);
      } else if scan.hit.None? {
        var slot := TakeSlot(t, now, F_REVERSE in flags, false);
        TakeSlotKeeps(t, now, F_REVERSE in flags, false);
        ShrinksTrans(s, t, slot.s);
        t := slot.s;
        if slot.rec.Some? {
          FreeUid(t, slot.rec.value);
          SettleEffect(t, slot.rec.value, None, name, data, now + ttl, flags, malloc);
        }
      }
    }
    ErrKeeps(t);
  }

  lemma {:induction false} FreeUid(s: State, r: Id)
    requires Inv(s) && r in s.lru && !InUse(s.At(r).flags)
    ensures s.At(r).uid == UID_NONE
  {
    hide Bucket, ChainsOk, OrderOk, LruOk, FindableOk, UidsOk, LinksOk, BigOk;
  }

  lemma {:induction false} SettleEffect(s: State, r: Id, target: Option<Target>, name: Option<Name>, data: Option<Data>, ttd: int, flags: Flags, malloc: bool)
    requires Inv(s) && Insertable(name, data, flags)
    requires match target
      case None => r in s.lru && !InUse(s.At(r).flags)
      case Some(t) => r == t.rec && name.Some? && TargetOk(s, t, name.value)
    ensures var uid := if target.Some? then target.value.uid else s.At(r).uid;
      var out := Settle(s, r, uid, name, data, ttd, flags, malloc);
      && r < s.n
      && (out.rec.None? ==> out.s == s.(err := true))
      && (out.rec.Some? ==> out.rec.value == r && Inv(out.s) && Took(s, out.s, r, name, data, ttd, flags) && out.s.At(r).uid == uid)
  {
    hide Bucket, Inv, TargetOk, Fillable, SameName, Took;
    FillOk(s, r, target, name, data, ttd, flags);
    var uid := if target.Some? then target.value.uid else s.At(r).uid;
    if Settle(s, r, uid, name, data, ttd, flags, malloc).rec.Some? {
      var big := if name.Some? && LongName(name.value) then TakeBig(s, flags, malloc).value else s;
      GrabTook(s, big, r, Fill(s, r, uid, name, data, ttd, flags), name, data, ttd, flags);
    }
  }

  lemma {:induction false} GrabTook(s: State, big: State, r: Id, x: Rec, name: Option<Name>, data: Option<Data>, ttd: int, flags: Flags)
    requires Inv(s) && Fillable(s, r, x) && big == s.(bigFree := big.bigFree, bigLeft := big.bigLeft)
    requires s.bigFree + s.bigLeft == big.bigFree + big.bigLeft + if F_BIGNAME in x.flags then 1 else 0
    requires x == Fill(s, r, x.uid, name, data, ttd, flags)
    requires x.uid != UID_NONE ==> SameName(s.At(r).name, x.name)
    ensures Inv(Grab(big, r, x)) && Took(s, Grab(big, r, x), r, name, data, ttd, flags) && Grab(big, r, x).At(r) == x
  {
    hide Bucket, Inv, Fillable, SameName;
    GrabKeeps(s, big, r, x);
    assert Grab(big, r, x).At(r) == x;
  }

  lemma {:induction false} FillOk(s: State, r: Id, target: Option<Target>, name: Option<Name>, data: Option<Data>, ttd: int, flags: Flags)
    requires Inv(s) && Insertable(name, data, flags)
    requires match target
      case None => r in s.lru && !InUse(s.At(r).flags)
      case Some(t) => r == t.rec && name.Some? && TargetOk(s, t, name.value)
    ensures var uid := if target.Some? then target.value.uid else s.At(r).uid;
      var x := Fill(s, r, uid, name, data, ttd, flags);
      r < s.n && Fillable(s, r, x) && (uid != UID_NONE ==> SameName(s.At(r).name, x.name))
  {
    hide Bucket, ChainsOk, OrderOk, LruOk, FindableOk, BigOk;
  }

  lemma {:induction false} ErrKeeps(s: State)
    requires Inv(s)
    ensures Inv(s.(err := true)) && Inv(s.(err := false))
  {
    hide Bucket, ChainsOk, OrderOk, LruOk, FindableOk;
    forall e: bool ensures Inv(s.(err := e)) {
      var t := s.(err := e);
      SameTable(s, t);
      assert BigSet(t) == BigSet(s);
    }
  }

  lemma {:induction false} SameTable(s: State, t: State)
    requires ChainsOk(s) && OrderOk(s) && LruOk(s) && FindableOk(s)
    requires t == s.(err := t.err, next := t.next, spare := t.spare)
    ensures ChainsOk(t) && OrderOk(t) && LruOk(t) && FindableOk(t)
  {
    hide Bucket;
    OffTable(s, t);
    forall p: Id | p in t.lru && InUse(Get(t.recs, p).flags) ensures t.Hashed(p) {
      assert s.Hashed(p) && t.Home(p) == s.Home(p);
    }
  }

  lemma {:induction false} DiscardKeeps(s: State)
    requires Inv(s)
    ensures Inv(Discard(s))
    decreases |s.pending|
  {
    hide Inv;
    if s.pending == [] {
      ErrKeeps(s);
    } else {
      DropKeeps(s);
      DiscardKeeps(Drop(s));
    }
  }

  lemma {:induction false} CommitAllKeeps(s: State)
    requires Inv(s)
    ensures Inv(CommitAll(s))
    decreases |s.pending|
  {
    hide Inv;
    if s.pending != [] {
      DropKeeps(s);
      CommitKeeps(s);
      CommitAllKeeps(if s.Outdated(s.pending[0]) then Drop(s) else Commit(s));
    }
  }
}
