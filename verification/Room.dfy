/**
 When no insert fails while a batch is read from the pipe, so that all of it that can
 arrive does.
 */
module Room {
  import opened Names
  import opened Records
  import opened State
  import opened Keeps
  import opened Ops
  import opened Scans
  import opened Batch
  import opened Slots
  import opened Replace
  import opened Rehash
  import opened Runs
  import opened Atomic
  import opened Wire
  import opened Pipe
  import opened Delivery
  import opened Arrival

  // What is inserted for the item has a type and a short name that no static entry has.
  ghost predicate Suits(s: State, x: Item) {
    Typed(x.flags) || F_CNAME in x.flags ==> !LongName(x.name) && HasType(x.flags) && Unclaimed(s, x.name)
  }

  ghost predicate Roomy(s: State, items: seq<Item>) {
    && PoolTyped(s) && PoolUnclaimed(s) && |items| <= s.n
    && forall i :: 0 <= i < |items| ==> Suits(s, items[i])
  }

  lemma {:induction false} LruLeft(s: State)
    requires Inv(s) && |s.pending| < s.n
    ensures s.lru != []
  {
    hide Bucket, RecsOk, ChainsOk, FindableOk, OrderOk, LruOk, UidsOk, LinksOk, BigOk;
    if s.lru == [] {
      LongEnough(s.pending, s.n);
    }
  }

  lemma {:induction false} LongEnough(l: seq<Id>, n: nat)
    requires forall p: Id :: p < n ==> p in l
    ensures n <= |l|
    decreases n
  {
    if n > 0 {
      var k := Index(l, n - 1);
      var l' := l[..k] + l[k + 1..];
      forall p: Id | p < n - 1 ensures p in l' {
        assert p in l;
        var i :| 0 <= i < |l| && l[i] == p;
        assert l'[if i < k then i else i - 1] == p;
      }
      LongEnough(l', n - 1);
    }
  }

  // ---------- one insert ----------

  lemma {:induction false} TookRoom(t: State, v: State, r: Id, name: Name, data: Option<Data>, ttd: int, flags: Flags)
    requires Inv(t) && Took(t, v, r, Some(name), data, ttd, flags) && !LongName(name)
    requires PoolTyped(t) && PoolUnclaimed(t) && HasType(flags) && Unclaimed(t, name)
    ensures PoolTyped(v) && PoolUnclaimed(v)
  {
    hide Bucket, Inv, HasType, SameName, Fillable, Unclaimed, InUse;
    Frame(t.recs, v.recs, r, v.At(r));
    forall p: Id | p < v.n && InUse(Get(v.recs, p).flags) ensures HasType(Get(v.recs, p).flags) && Unclaimed(v, Get(v.recs, p).name) {
      TookClaims(t, v, r, Some(name), data, ttd, flags, Get(v.recs, p).name);
    }
  }

  lemma {:induction false} TookClaims(t: State, v: State, r: Id, name: Option<Name>, data: Option<Data>, ttd: int, flags: Flags, other: Name)
    requires Inv(t) && Took(t, v, r, name, data, ttd, flags)
    ensures Unclaimed(t, other) ==> Unclaimed(v, other)
  {
    hide Bucket, Inv, SameName, Took;
    if Unclaimed(t, other) {
      forall x: Id | v.Hashed(x) && Static(v.At(x).flags) && F_FORWARD in v.At(x).flags ensures !SameName(v.At(x).name, other) {
        TookHashed(t, v, r, name, data, ttd, flags, x);
      }
    }
  }

  // A successful insert leaves room as it was.
  lemma {:induction false} InsertRoom(s: State, x: Item, data: Option<Data>, now: int, ttl: nat, malloc: bool, items: seq<Item>)
    requires Inv(s) && Insertable(Some(x.name), data, x.flags) && Roomy(s, items) && x in items && (Typed(x.flags) || F_CNAME in x.flags)
    requires !s.err && ttl > 0 && s.lru != []
    ensures var out := Insert(s, Some(x.name), data, now, ttl, x.flags, malloc);
      out.rec.Some? && !out.s.err && out.s.pending == [out.rec.value] + s.pending && out.s.n == s.n && Roomy(out.s, items)
  {
    hide Bucket, Inv, Insert, Insertable, Unclaimed, HasType, Shrinks, Took, PoolTyped, PoolUnclaimed, Typed, HitOk, Repeats;
    assert Suits(s, x);
    AlwaysRoom(s, Some(x.name), data, now, ttl, x.flags, malloc);
    var out := Insert(s, Some(x.name), data, now, ttl, x.flags, malloc);
    var t := InsertEffect(s, Some(x.name), data, now, ttl, x.flags, malloc);
    PoolStays(s, t);
    ShrinksShape(s, t);
    UnclaimedStays(s, t, x.name);
    TookRoom(t, out.s, out.rec.value, x.name, data, now + ttl, x.flags);
    forall i | 0 <= i < |items| ensures Suits(out.s, items[i]) {
      assert Suits(s, items[i]);
      if Unclaimed(s, items[i].name) {
        UnclaimedStays(s, t, items[i].name);
      }
      TookClaims(t, out.s, out.rec.value, Some(x.name), data, now + ttl, x.flags, items[i].name);
    }
  }

  // A link changes neither names nor flags.
  lemma {:induction false} LinkRoom(s: State, c: Id, to: Option<Id>, items: seq<Item>)
    requires Roomy(s, items)
    ensures Roomy(SetLink(s, c, to), items)
  {
    hide Bucket, HasType, SameName, Typed;
    var t := SetLink(s, c, to);
    SameFlags(s, c, to);
    hide SetLink;
    forall name: Name ensures Unclaimed(s, name) ==> Unclaimed(t, name) {
      if Unclaimed(s, name) {
        forall r: Id | t.Hashed(r) && Static(t.At(r).flags) && F_FORWARD in t.At(r).flags ensures !SameName(t.At(r).name, name) {
          assert s.Hashed(r);
        }
      }
    }
    hide Unclaimed;
    forall i | 0 <= i < |items| ensures Suits(t, items[i]) {
      assert Suits(s, items[i]);
    }
  }

  lemma {:induction false} SameFlags(s: State, c: Id, to: Option<Id>)
    ensures var t := SetLink(s, c, to);
      && t == s.(recs := t.recs, lastUid := t.lastUid)
      && forall r: Id :: Get(t.recs, r).flags == Get(s.recs, r).flags && Get(t.recs, r).name == Get(s.recs, r).name
  {
    var t := SetLink(s, c, to);
    if to.Some? {
      var u := NextUid(s, to.value);
      if u != s {
        Frame(s.recs, u.recs, to.value, u.At(to.value));
      }
      Frame(u.recs, t.recs, c, t.At(c));
    } else {
      Frame(s.recs, t.recs, c, t.At(c));
    }
  }

  // ---------- a batch ----------

  lemma {:induction false} ApplyRoom(m: Made, items: seq<Item>, k: nat, now: int, late: nat, malloc: bool)
    requires Inv(m.s) && k < |items| && !m.s.err && Roomy(m.s, items) && Welcome(items[k], now) && |m.s.pending| <= k
    ensures var m' := Apply(m, items[k], now, late, malloc);
      !m'.s.err && m'.s.n == m.s.n && Roomy(m'.s, items) && |m'.s.pending| <= k + 1
  {
    hide Bucket, Inv, Insert, SetLink, Insertable, Typed, PoolTyped, PoolUnclaimed, Suits;
    var x := items[k];
    var m' := Apply(m, x, now, late, malloc);
    LruLeft(m.s);
    if Typed(x.flags) {
      InsertRoom(m.s, x, x.data, now, Ttl(x.ttd, now, late), malloc, items);
    } else if F_CNAME in x.flags {
      InsertRoom(m.s, x, None, now, Ttl(x.ttd, now, late), malloc, items);
      var out := Insert(m.s, Some(x.name), None, now, Ttl(x.ttd, now, late), x.flags, malloc);
      LinkRoom(out.s, out.rec.value, m.last, items);
      SameFlags(out.s, out.rec.value, m.last);
    }
  }

  // No insert fails if there are as many pool records as items, what is in the pool and
  // what is to be inserted has a type, and no static entry has one of their names.
  lemma {:induction false} NoneFails(s: State, items: seq<Item>, k: nat, now: int, late: nat, fails: set<nat>)
    requires Inv(s) && !s.err && s.pending == [] && k <= |items| && WelcomeAll(items, now) && Roomy(s, items)
    ensures var m := ApplyAll(s, items, k, now, late, fails);
      !m.s.err && m.s.n == s.n && Roomy(m.s, items) && |m.s.pending| <= k
  {
    hide Inv, Apply, Welcome, Roomy;
    if k > 0 {
      NoneFails(s, items, k - 1, now, late, fails);
      ApplyInv(s, items, k - 1, now, late, fails);
      ApplyRoom(ApplyAll(s, items, k - 1, now, late, fails), items, k - 1, now, late, k - 1 !in fails);
    }
  }

  // Then every record with a type arrives, and every CNAME sent after one.
  lemma {:induction false} AllArrive(n: CInt, n': CInt, mix: Mix, ops: seq<Op>, ops': seq<Op>, at: Id -> Ptr,
                                     rest: seq<Byte>, now: int, late: nat, fails: set<nat>)
    requires Allowed(Initial(n, mix), ops) && Allowed(Initial(n', mix), ops')
    requires var child := After(Initial(n, mix), ops); !child.err && Timely(child, at, now)
    requires Roomy(Discard(After(Initial(n', mix), ops')), CarriedAll(Staying(After(Initial(n, mix), ops), at, 0)))
    ensures var child, parent := After(Initial(n, mix), ops), After(Initial(n', mix), ops');
      var items := CarriedAll(Staying(child, at, 0));
      var m := ApplyAll(Discard(parent), items, |items|, now, late, fails);
      var got := RecvInsert(parent, Output(child, at) + rest, now, late, fails);
      && got.ok && got.rest == rest && !m.s.err
      && forall i :: 0 <= i < |items| ==>
           (InParent(got.s, m.made[i], items[i], now) <==>
              Typed(items[i].flags) || (F_CNAME in items[i].flags && Preceded(items, i)))
  {
    hide Bucket, Inv, Pow2, Allowed, After, Initial, PlainBatch, Timely, Staying, SendableAll, WelcomeAll, CarriedAll,
      Output, RecvInsert, ApplyAll, LastTyped, Discard, Preceded, Typed, InParent, LinkedTo, Roomy;
    var child, parent := After(Initial(n, mix), ops), After(Initial(n', mix), ops');
    RoundTrip(n, n', mix, ops, ops', at, rest, now, late, fails);
    InitialInv(n, mix);
    InitialPlain(n, mix);
    RunPlain(Initial(n, mix), ops);
    InitialInv(n', mix);
    RunKeeps(Initial(n', mix), ops');
    AbandonedBatch(parent);
    StayingWelcome(child, at, now, 0);
    var items := CarriedAll(Staying(child, at, 0));
    NoneFails(Discard(parent), items, |items|, now, late, fails);
  }
}
