/**
 What the parent's cache holds after reading a batch: the child's records, with
 every CNAME linked to the last record before it that is not a CNAME.
 */
module Delivery {
  import opened Names
  import opened Records
  import opened State
  import opened Keeps
  import opened Ops
  import opened Scans
  import opened Batch
  import opened Wire
  import opened Pipe
  import opened Runs

  // An item as a child sends it: a record that was inserted, and has not expired.
  ghost predicate Welcome(x: Item, now: int) {
    && Insertable(Some(x.name), x.data, x.flags)
    && (LongName(x.name) ==> F_BIGNAME in x.flags)
    && (x.data.Some? <==> Typed(x.flags))
    && x.ttd > now
  }

  // The record is the child's, with the child's absolute expiry.
  ghost predicate Same(y: Rec, x: Item) {
    && y.name == x.name && y.flags == x.flags && y.ttd == x.ttd
    && (x.data.Some? ==> y.data == x.data.value)
  }

  // A static entry gives the item's name its address already.
  ghost predicate StaticGives(y: Rec, x: Item) {
    Static(y.flags) && F_FORWARD in y.flags && SameName(y.name, x.name) && Repeats(y, x.data, x.flags)
  }

  // The record made by the last of the first `k` items that is not a CNAME.
  function LastTyped(items: seq<Item>, made: seq<Option<Id>>, k: nat): Option<Id>
    requires k <= |items| && k <= |made|
  {
    if k == 0 then None
    else if Typed(items[k - 1].flags) then made[k - 1]
    else LastTyped(items, made, k - 1)
  }

  // The pool records that were made, latest first.
  function PoolMade(made: seq<Option<Id>>, n: nat): seq<Id> {
    if made == [] then []
    else
      var r := made[|made| - 1];
      (if r.Some? && r.value < n then [r.value] else []) + PoolMade(made[..|made| - 1], n)
  }

  ghost predicate LinkedTo(s: State, c: Id, to: Option<Id>) {
    var d := s.At(c).data;
    && d.CnameRec? && d.rec == to
    && (to.Some? ==> d.uid == Get(s.recs, to.value).uid && d.uid != UID_NONE)
  }

  // What the reader has done with item `i`: made a record of it, found a static
  // entry that gives it, or passed it over.
  ghost predicate Handled(m: Made, items: seq<Item>, i: nat)
    requires i < |m.made| <= |items|
  {
    var x, r := items[i], m.made[i];
    if Typed(x.flags) then
      && r.Some?
      && (if r.value < m.s.n then r.value in m.s.pending && Same(Get(m.s.recs, r.value), x)
          else r.value in m.s.recs && StaticGives(Get(m.s.recs, r.value), x))
    else if F_CNAME in x.flags then
      && r.Some? && r.value < m.s.n && r.value in m.s.pending
      && Same(Get(m.s.recs, r.value), x) && LinkedTo(m.s, r.value, LastTyped(items, m.made, i))
    else r.None?
  }

  // ---------- one item ----------

  // The record is as it was, but may have been given a uid.
  ghost predicate KeepsRec(s: State, t: State, p: Id) {
    && Get(t.recs, p) == Get(s.recs, p).(uid := Get(t.recs, p).uid)
    && (Get(s.recs, p).uid != UID_NONE ==> Get(t.recs, p).uid == Get(s.recs, p).uid)
  }

  // Nothing befalls the batch or the records outside the pool.
  ghost predicate KeepsBatch(s: State, t: State) {
    && t.n == s.n
    && (forall p: Id :: p in s.pending || s.n <= p ==> KeepsRec(s, t, p))
    && (forall p: Id :: p in s.recs ==> p in t.recs)
    && (forall p: Id :: p in s.pending ==> p in t.pending)
  }

  ghost predicate LastOk(m: Made) {
    m.last.Some? ==> m.last.value in m.s.pending || (m.s.n <= m.last.value && m.last.value in m.s.recs)
  }

  lemma {:induction false} PendingApart(s: State)
    requires Inv(s)
    ensures forall p: Id :: p in s.pending ==> p < s.n && p !in s.lru && InUse(Get(s.recs, p).flags)
    ensures forall p: Id :: p in s.lru ==> p < s.n
  {
    hide Bucket, ChainsOk, OrderOk, LruOk, UidsOk, LinksOk, BigOk, FindableOk;
  }

  lemma {:induction false} PendingKept(s: State, t: State)
    requires Inv(s) && Inv(t) && Shrinks(s, t)
    ensures forall p: Id :: p in s.pending ==> Get(t.recs, p) == Get(s.recs, p)
  {
    hide Bucket, Inv;
    PendingApart(s);
    PendingApart(t);
    forall p: Id | p in s.pending ensures Get(t.recs, p) == Get(s.recs, p) {
      FreedIdle(Get(s.recs, p));
    }
  }

  lemma {:induction false} FreedIdle(x: Rec)
    ensures !InUse(Freed(x).flags)
  {}

  // A successful insert adds one record to the batch, or finds a static entry.
  lemma {:induction false} InsertKeeps(s: State, x: Item, data: Option<Data>, now: int, malloc: bool)
    requires Inv(s) && Welcome(x, now) && Insertable(Some(x.name), data, x.flags) && (data.Some? ==> data == x.data)
    requires data.None? ==> x.data.None?
    requires !Insert(s, Some(x.name), data, now, x.ttd - now, x.flags, malloc).s.err
    ensures var out := Insert(s, Some(x.name), data, now, x.ttd - now, x.flags, malloc);
      && Inv(out.s) && !s.err && KeepsBatch(s, out.s) && out.rec.Some?
      && var r := out.rec.value;
      && r in out.s.recs
      && if r < s.n then out.s.pending == [r] + s.pending && Same(out.s.At(r), x)
         else out.s.pending == s.pending && (data == x.data ==> StaticGives(out.s.At(r), x)) && out.s.Hashed(r)
  {
    hide Bucket, Inv, Insert, Insertable, Fillable, SameName, Typed, Repeats;
    var out := Insert(s, Some(x.name), data, now, x.ttd - now, x.flags, malloc);
    var t := InsertEffect(s, Some(x.name), data, now, x.ttd - now, x.flags, malloc);
    PendingKept(s, t);
    PendingApart(s);
    if out.rec.Some? && out.rec.value < s.n {
      var r := out.rec.value;
      Frame(t.recs, out.s.recs, r, out.s.At(r));
      TookFree(t, out.s, r, Some(x.name), data, now + (x.ttd - now), x.flags);
      PendingApart(t);
    }
  }

  lemma {:induction false} TookFree(t: State, v: State, r: Id, name: Option<Name>, data: Option<Data>, ttd: int, flags: Flags)
    requires Took(t, v, r, name, data, ttd, flags)
    ensures r in t.lru
  {}

  lemma {:induction false} LinkKeeps(s: State, c: Id, to: Option<Id>)
    requires Inv(s) && c in s.pending && F_CNAME in s.At(c).flags && to != Some(c)
    requires to.Some? ==> to.value in s.pending || (s.n <= to.value && to.value in s.recs)
    ensures var t := SetLink(s, c, to);
      && Inv(t) && t.n == s.n && t.pending == s.pending && t.err == s.err && LinkedTo(t, c, to)
      && t.At(c) == s.At(c).(data := t.At(c).data)
      && (forall p: Id :: p != c ==> KeepsRec(s, t, p))
      && (forall p: Id :: p in s.recs ==> p in t.recs)
  {
    hide Bucket, Inv;
    PointKeeps(s, c, to);
    var t := SetLink(s, c, to);
    if to.Some? {
      var u := NextUid(s, to.value);
      Frame(u.recs, t.recs, c, t.At(c));
    } else {
      Frame(s.recs, t.recs, c, t.At(c));
    }
  }

  // What one item adds.
  ghost predicate Applied(m: Made, m': Made, x: Item)
    requires |m.made| < |m'.made|
  {
    var r := m'.made[|m.made|];
    && Inv(m'.s) && !m.s.err && LastOk(m')
    && m'.s.n == m.s.n
    && (forall p: Id :: p in m.s.pending || m.s.n <= p ==> KeepsRec(m.s, m'.s, p))
    && (forall p: Id :: p in m.s.recs ==> p in m'.s.recs)
    && m'.s.pending == (if r.Some? && r.value < m.s.n then [r.value] else []) + m.s.pending
    && m'.last == (if Typed(x.flags) then r else m.last)
    && if Typed(x.flags) then
         && r.Some?
         && (if r.value < m.s.n then Same(Get(m'.s.recs, r.value), x)
             else r.value in m'.s.recs && StaticGives(Get(m'.s.recs, r.value), x) && m'.s.Hashed(r.value))
       else if F_CNAME in x.flags then
         r.Some? && r.value < m.s.n && Same(Get(m'.s.recs, r.value), x) && LinkedTo(m'.s, r.value, m.last)
       else r.None?
  }

  lemma {:induction false} ApplyTyped(m: Made, x: Item, now: int, late: nat, malloc: bool)
    requires Inv(m.s) && LastOk(m) && Welcome(x, now) && Typed(x.flags)
    requires |m.made| < |Apply(m, x, now, late, malloc).made| && !Apply(m, x, now, late, malloc).s.err
    ensures Applied(m, Apply(m, x, now, late, malloc), x)
  {
    hide Bucket, Inv, Insert, Insertable, Typed, Same, LinkedTo, KeepsRec;
    InsertKeeps(m.s, x, x.data, now, malloc);
    var m' := Apply(m, x, now, late, malloc);
    assert m'.made[|m.made|] == m'.last;
    PendingApart(m'.s);
  }

  lemma {:induction false} CnameFails(s: State, x: Item, now: int, ttl: nat, malloc: bool)
    requires Inv(s) && Insertable(Some(x.name), None, x.flags)
    ensures var r := Insert(s, Some(x.name), None, now, ttl, x.flags, malloc).rec;
      r.Some? ==> r.value < s.n
  {
    hide Bucket, Inv, ScanFree, TakeSlot, Insertable, Shrinks, Took, Settle;
    var t := InsertEffect(s, Some(x.name), None, now, ttl, x.flags, malloc);
    if !s.err && ttl != 0 {
      var scan := ScanFree(s, Some(x.name), None, now, x.flags);
      if scan.hit.None? {
        SlotInPool(s, x, now, ttl, malloc);
      }
    }
  }

  lemma {:induction false} SlotInPool(s: State, x: Item, now: int, ttl: nat, malloc: bool)
    requires Inv(s) && Insertable(Some(x.name), None, x.flags) && !s.err && ttl != 0
    requires ScanFree(s, Some(x.name), None, now, x.flags).hit.None?
    ensures var r := Insert(s, Some(x.name), None, now, ttl, x.flags, malloc).rec;
      r.Some? ==> r.value < s.n
  {
    hide Bucket, Inv, ScanFree, TakeSlot, Insertable, Shrinks, Took;
    var scan := ScanFree(s, Some(x.name), None, now, x.flags);
    ScanFreeKeeps(s, Some(x.name), None, now, x.flags);
    PendingApart(scan.s);
    if scan.target.None? {
      TakeSlotKeeps(scan.s, now, F_REVERSE in x.flags, false);
      var slot := TakeSlot(scan.s, now, F_REVERSE in x.flags, false);
      PendingApart(slot.s);
    }
  }

  lemma {:induction false} ApplyCname(m: Made, x: Item, now: int, late: nat, malloc: bool)
    requires Inv(m.s) && LastOk(m) && Welcome(x, now) && !Typed(x.flags) && F_CNAME in x.flags
    requires |m.made| < |Apply(m, x, now, late, malloc).made| && !Apply(m, x, now, late, malloc).s.err
    ensures Applied(m, Apply(m, x, now, late, malloc), x)
  {
    hide Bucket, Inv, Insert, Insertable, Typed, SetLink, LinkedTo;
    var out := Insert(m.s, Some(x.name), None, now, x.ttd - now, x.flags, malloc);
    CnameFails(m.s, x, now, x.ttd - now, malloc);
    PendingApart(m.s);
    var m' := Apply(m, x, now, late, malloc);
    assert m'.made[|m.made|] == out.rec;
    ErrStays(out.s, out.rec, m.last);
    InsertKeeps(m.s, x, None, now, malloc);
    var c := out.rec.value;
    PendingApart(out.s);
    FreshRecord(m.s, out.s, c);
    LinkKeeps(out.s, c, m.last);
    assert Same(Get(m'.s.recs, c), x);
    forall p: Id | p in m.s.pending || m.s.n <= p ensures KeepsRec(m.s, m'.s, p) {
      assert KeepsRec(m.s, out.s, p) && KeepsRec(out.s, m'.s, p);
    }
  }

  lemma {:induction false} ErrStays(s: State, c: Option<Id>, to: Option<Id>)
    ensures c.Some? ==> SetLink(s, c.value, to).err == s.err
  {}

  lemma {:induction false} FreshRecord(s: State, t: State, c: Id)
    requires Inv(t) && t.pending == [c] + s.pending
    ensures c !in s.pending
  {
    hide Bucket, ChainsOk, OrderOk, LruOk, UidsOk, LinksOk, BigOk, FindableOk, RecsOk;
    assert t.pending[0] == c;
    forall i | 0 <= i < |s.pending| ensures s.pending[i] != c {
      assert t.pending[i + 1] == s.pending[i];
    }
  }

  lemma {:induction false} ApplyOne(m: Made, x: Item, now: int, late: nat, malloc: bool)
    requires Inv(m.s) && LastOk(m) && Welcome(x, now) && !Apply(m, x, now, late, malloc).s.err
    ensures var m' := Apply(m, x, now, late, malloc);
      |m'.made| == |m.made| + 1 && m'.made[..|m.made|] == m.made && Applied(m, m', x)
  {
    hide Bucket, Inv, Insert, Welcome, Typed, SetLink, Applied;
    if Typed(x.flags) {
      ApplyTyped(m, x, now, late, malloc);
    } else if F_CNAME in x.flags {
      ApplyCname(m, x, now, late, malloc);
    } else {
      Skipped(m, Apply(m, x, now, late, malloc), x);
    }
  }

  lemma {:induction false} Skipped(m: Made, m': Made, x: Item)
    requires Inv(m.s) && LastOk(m) && !m.s.err && !Typed(x.flags) && F_CNAME !in x.flags && m' == m.(made := m.made + [None])
    ensures Applied(m, m', x)
  {
    hide Inv, Typed;
  }

  // ---------- a batch ----------

  lemma {:induction false} LastTypedPrefix(items: seq<Item>, made: seq<Option<Id>>, made': seq<Option<Id>>, k: nat)
    requires k <= |items| && k <= |made| <= |made'| && made'[..|made|] == made
    ensures LastTyped(items, made, k) == LastTyped(items, made', k)
  {
    hide Typed;
    if k > 0 {
      assert made'[k - 1] == made[k - 1];
      LastTypedPrefix(items, made, made', k - 1);
    }
  }

  // The target of a link is still where it was.
  lemma {:induction false} TargetKept(m: Made, items: seq<Item>, k: nat)
    requires k <= |m.made| <= |items| && forall i :: 0 <= i < k ==> Handled(m, items, i)
    ensures var r := LastTyped(items, m.made, k);
      r.Some? ==> r.value in m.s.pending || m.s.n <= r.value
  {
    hide Typed, Same, LinkedTo, StaticGives;
    if k > 0 {
      assert Handled(m, items, k - 1);
      TargetKept(m, items, k - 1);
    }
  }

  lemma {:induction false} HandledStays(m: Made, m': Made, items: seq<Item>, x: Item, i: nat)
    requires i < |m.made| < |m'.made| <= |items| && m'.made[..|m.made|] == m.made && Applied(m, m', x)
    requires forall j :: 0 <= j <= i ==> Handled(m, items, j)
    ensures Handled(m', items, i)
  {
    hide Inv, Typed, Applied;
    var r := m.made[i];
    assert m'.made[i] == r && Handled(m, items, i);
    AppliedKeeps(m, m', x);
    LastTypedPrefix(items, m.made, m'.made, i);
    TargetKept(m, items, i);
    var to := LastTyped(items, m.made, i);
    if r.Some? {
      assert r.value in m.s.pending || m.s.n <= r.value ==> KeepsRec(m.s, m'.s, r.value);
    }
    if to.Some? {
      assert KeepsRec(m.s, m'.s, to.value);
    }
  }

  lemma {:induction false} AppliedKeeps(m: Made, m': Made, x: Item)
    requires |m.made| < |m'.made| && Applied(m, m', x)
    ensures m'.s.n == m.s.n
    ensures forall p: Id :: p in m.s.pending || m.s.n <= p ==> KeepsRec(m.s, m'.s, p)
    ensures forall p: Id :: p in m.s.pending ==> p in m'.s.pending
    ensures forall p: Id :: p in m.s.recs ==> p in m'.s.recs
  {
    hide Inv, Typed, KeepsRec, Same, LinkedTo, StaticGives;
  }

  lemma {:induction false} HandledNow(m: Made, m': Made, items: seq<Item>)
    requires |m'.made| == |m.made| + 1 <= |items| && m'.made[..|m.made|] == m.made
    requires Applied(m, m', items[|m.made|]) && m.last == LastTyped(items, m.made, |m.made|)
    ensures Handled(m', items, |m.made|) && m'.last == LastTyped(items, m'.made, |m'.made|)
    ensures m'.s.pending == (if m'.made[|m.made|].Some? && m'.made[|m.made|].value < m.s.n then [m'.made[|m.made|].value] else []) + m.s.pending
  {
    hide Inv, Typed, KeepsRec, Same, LinkedTo, StaticGives;
    LastTypedPrefix(items, m.made, m'.made, |m.made|);
  }

  ghost predicate WelcomeAll(items: seq<Item>, now: int) {
    forall i :: 0 <= i < |items| ==> Welcome(items[i], now)
  }

  // If no insert failed: every address item is now a record of the batch with
  // the child's name, flags, data and expiry, or is given by a static entry of the
  // same name with the same address; every CNAME item is a record linked to the one made by the
  // last item before it that is not a CNAME, and the link is good; items that are
  // neither are passed over; and the batch holds nothing else.
  lemma {:induction false} Delivered(s: State, items: seq<Item>, k: nat, now: int, late: nat, fails: set<nat>)
    requires Inv(s) && s.pending == [] && k <= |items| && WelcomeAll(items, now)
    requires !ApplyAll(s, items, k, now, late, fails).s.err
    ensures var m := ApplyAll(s, items, k, now, late, fails);
      && Inv(m.s) && m.s.n == s.n && LastOk(m) && m.last == LastTyped(items, m.made, k)
      && (forall i :: 0 <= i < k ==> Handled(m, items, i))
      && m.s.pending == PoolMade(m.made, s.n)
  {
    hide Inv, Typed, Apply, Applied, Handled, Welcome, LastTyped;
    var m' := ApplyAll(s, items, k, now, late, fails);
    if k == 0 {
      NoneTyped(items, m'.made);
    } else {
      var m := ApplyAll(s, items, k - 1, now, late, fails);
      ErrKept(m, items[k - 1], now, late, k - 1 !in fails);
      Delivered(s, items, k - 1, now, late, fails);
      ApplyOne(m, items[k - 1], now, late, k - 1 !in fails);
      AppliedInv(m, m', items[k - 1]);
      HandledNow(m, m', items);
      forall i | 0 <= i < k - 1 ensures Handled(m', items, i) {
        HandledStays(m, m', items, items[k - 1], i);
      }
    }
  }

  lemma {:induction false} NoneTyped(items: seq<Item>, made: seq<Option<Id>>)
    ensures LastTyped(items, made, 0) == None
  {}

  lemma {:induction false} AppliedInv(m: Made, m': Made, x: Item)
    requires |m.made| < |m'.made| && Applied(m, m', x)
    ensures Inv(m'.s) && LastOk(m') && m'.s.n == m.s.n
  {
    hide Inv, Typed, KeepsRec, Same, LinkedTo, StaticGives;
  }

  lemma {:induction false} ErrKept(m: Made, x: Item, now: int, late: nat, malloc: bool)
    ensures m.s.err ==> Apply(m, x, now, late, malloc).s.err
  {
    hide Typed;
  }

  // The invariant, whether an insert fails or not.
  lemma {:induction false} ApplyInv(s: State, items: seq<Item>, k: nat, now: int, late: nat, fails: set<nat>)
    requires Inv(s) && s.pending == [] && k <= |items| && WelcomeAll(items, now)
    ensures Inv(ApplyAll(s, items, k, now, late, fails).s)
  {
    hide Inv, Apply, Welcome, Handled, LastTyped;
    if k > 0 {
      var m := ApplyAll(s, items, k - 1, now, late, fails);
      ApplyInv(s, items, k - 1, now, late, fails);
      if m.s.err {
        ApplyErr(m, items[k - 1], now, late, k - 1 !in fails);
      } else {
        Delivered(s, items, k - 1, now, late, fails);
        ApplyOnce(m, items[k - 1], now, late, k - 1 !in fails);
      }
    }
  }

  lemma {:induction false} ApplyErr(m: Made, x: Item, now: int, late: nat, malloc: bool)
    requires m.s.err
    ensures Apply(m, x, now, late, malloc).s == m.s
  {
    hide Typed;
  }

  lemma {:induction false} ApplyOnce(m: Made, x: Item, now: int, late: nat, malloc: bool)
    requires Inv(m.s) && LastOk(m) && Welcome(x, now)
    ensures Inv(Apply(m, x, now, late, malloc).s)
  {
    hide Inv, Insert, Applied, Typed, Bucket, SetLink, Shrinks, Took;
    if !Apply(m, x, now, late, malloc).s.err {
      ApplyOne(m, x, now, late, malloc);
      AppliedInv(m, Apply(m, x, now, late, malloc), x);
    } else {
      FailedInv(m, x, now, late, malloc);
    }
  }

  lemma {:induction false} FailedInv(m: Made, x: Item, now: int, late: nat, malloc: bool)
    requires Inv(m.s) && Welcome(x, now) && Apply(m, x, now, late, malloc).s.err
    ensures Inv(Apply(m, x, now, late, malloc).s)
  {
    hide Inv, Typed, Bucket, Insert, SetLink;
    if Typed(x.flags) || F_CNAME in x.flags {
      var data, ttl := if Typed(x.flags) then x.data else None, Ttl(x.ttd, now, late);
      var t := InsertEffect(m.s, Some(x.name), data, now, ttl, x.flags, malloc);
      var out := Insert(m.s, Some(x.name), data, now, ttl, x.flags, malloc);
      ErrStays(out.s, out.rec, m.last);
    }
  }
}
