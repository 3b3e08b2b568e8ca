/**
 From the child's cache to the parent's: which of the records that a child puts in
 its table end up in its parent's.
 */
module Arrival {
  import opened Names
  import opened Records
  import opened State
  import opened Keeps
  import opened Ops
  import opened Scans
  import opened Batch
  import opened Answers
  import opened AddrAnswers
  import opened Rehash
  import opened Runs
  import opened Atomic
  import opened Wire
  import opened Pipe
  import opened Delivery
  import opened Statics
  import Lookup

  // ---------- what a batch holds ----------

  // A record as an insert leaves it.
  ghost predicate Plain(x: Rec) {
    && InUse(x.flags) && !Static(x.flags) && F_DS !in x.flags && F_DNSKEY !in x.flags
    && (F_BIGNAME in x.flags <==> LongName(x.name))
    && !(Typed(x.flags) && F_CNAME in x.flags)
    && (HasTarget(x.flags) ==> HasBytes(x.data))
  }

  ghost predicate PlainBatch(s: State) {
    forall p: Id :: p in s.pending ==> Plain(Get(s.recs, p))
  }

  lemma {:induction false} AddPlain(s: State, name: Option<Name>, data: Option<Data>, now: int, ttl: nat, flags: Flags, malloc: bool)
    requires Inv(s) && PlainBatch(s) && Insertable(name, data, flags)
    ensures PlainBatch(Insert(s, name, data, now, ttl, flags, malloc).s)
  {
    hide Bucket, Inv, Insert, Fillable, SameName;
    var out := Insert(s, name, data, now, ttl, flags, malloc);
    var t := InsertEffect(s, name, data, now, ttl, flags, malloc);
    PendingKept(s, t);
    if out.rec.Some? && out.rec.value < s.n {
      Frame(t.recs, out.s.recs, out.rec.value, out.s.At(out.rec.value));
    }
  }

  lemma {:induction false} PointPlain(s: State, c: Id, to: Option<Id>)
    requires PlainBatch(s) && F_CNAME in s.At(c).flags && c in s.pending
    ensures PlainBatch(SetLink(s, c, to))
  {
    hide Typed;
    assert Plain(Get(s.recs, c));
    if HasTarget(s.At(c).flags) {
      TargetTyped(s.At(c).flags);
    }
    var s', t := if to.Some? then NextUid(s, to.value) else s, SetLink(s, c, to);
    if to.Some? && s' != s {
      Frame(s.recs, s'.recs, to.value, s'.At(to.value));
    }
    Frame(s'.recs, t.recs, c, t.At(c));
  }

  lemma {:induction false} ShrinksPlain(s: State, t: State)
    requires Inv(s) && Inv(t) && Shrinks(s, t) && PlainBatch(s)
    ensures PlainBatch(t)
  {
    hide Bucket, Inv, Plain;
    PendingKept(s, t);
  }

  lemma {:induction false} DefinePlain(s: State, r: Id, x: Rec)
    requires Inv(s) && s.n <= r && PlainBatch(s)
    ensures PlainBatch(AddStatic(s, r, x))
  {
    hide Bucket, Inv, Plain;
    PendingApart(s);
    Frame(s.recs, AddStatic(s, r, x).recs, r, x);
  }

  lemma {:induction false} StepPlain(s: State, op: Op)
    requires Inv(s) && Pow2(|s.table|) && Enabled(s, op) && PlainBatch(s)
    ensures PlainBatch(Step(s, op))
  {
    hide Bucket, Inv, Insert, SetLink, Lookup.FindByName, Lookup.FindByAddr, AddStatic, Grow, UnhashDhcp, Pow2, Shrinks, Plain;
    match op
    case Start =>
    case Add(name, data, now, ttl, flags, malloc) => AddPlain(s, name, data, now, ttl, flags, malloc);
    case Point(c, to) => PointPlain(s, c, to);
    case End =>
    case Find(name, now, prot, noRR) =>
      var out := NameLookup(s, name, now, prot, noRR);
      ShrinksPlain(s, Step(s, op));
    case FindAddr(addr, now, prot) =>
      var out := AddrLookup(s, addr, now, prot);
      ShrinksPlain(s, Step(s, op));
    case Define(r, x) => DefinePlain(s, r, x);
    case Resize(size, malloc) => GrowInvisible(s, size, malloc);
    case DropDhcp =>
  }

  lemma {:induction false} RunPlain(s: State, ops: seq<Op>)
    requires Inv(s) && Pow2(|s.table|) && Allowed(s, ops) && PlainBatch(s)
    ensures PlainBatch(After(s, ops))
    decreases |ops|
  {
    hide Inv, Enabled, Step, Pow2, PlainBatch;
    if ops != [] {
      StepKeeps(s, ops[0]);
      StepPlain(s, ops[0]);
      RunPlain(Step(s, ops[0]), ops[1..]);
    }
  }

  // What the child must see to: times in the future, and fields that fit.
  ghost predicate Timely(s: State, at: Id -> Ptr, now: int) {
    forall p: Id :: p in s.pending ==>
      Sendable(Sending(Get(s.recs, p), at(p))) && Get(s.recs, p).ttd > now
  }

  lemma {:induction false} StayingWelcome(s: State, at: Id -> Ptr, now: int, i: nat)
    requires PlainBatch(s) && Timely(s, at, now) && i <= |s.pending|
    ensures SendableAll(Staying(s, at, i)) && WelcomeAll(CarriedAll(Staying(s, at, i)), now)
    decreases |s.pending| - i
  {
    hide Loose, Sendable, Wire.Empty, Carried, Welcome, Plain;
    if i < |s.pending| {
      StayingWelcome(s, at, now, i + 1);
      var r := s.pending[i];
      CarriedWelcome(Sending(Get(s.recs, r), at(r)), now);
    }
  }

  lemma {:induction false} CarriedWelcome(w: Sending, now: int)
    requires Plain(w.rec) && Sendable(w) && w.rec.ttd > now
    ensures Welcome(Carried(w), now) && !Wire.Empty(w.rec)
  {
    hide Typed, Image, Limit;
    if HasTarget(w.rec.flags) {
      TargetTyped(w.rec.flags);
    }
  }

  lemma {:induction false} InitialPlain(n: CInt, mix: Mix)
    ensures PlainBatch(Initial(n, mix))
  {
    LinkedFacts(n, mix, n);
  }

  // ---------- no DNSSEC records ----------

  lemma {:induction false} ShrinksNoDnssec(s: State, t: State)
    requires Shrinks(s, t) && NoDnssec(s)
    ensures NoDnssec(t)
  {
    forall r: Id ensures Get(t.recs, r).flags <= Get(s.recs, r).flags {
      assert Get(t.recs, r) == Get(s.recs, r) || Get(t.recs, r) == Freed(Get(s.recs, r));
    }
  }

  lemma {:induction false} InsertNoDnssec(s: State, name: Option<Name>, data: Option<Data>, now: int, ttl: nat, flags: Flags, malloc: bool)
    requires Inv(s) && NoDnssec(s) && Insertable(name, data, flags)
    ensures NoDnssec(Insert(s, name, data, now, ttl, flags, malloc).s)
  {
    hide Bucket, Inv, Insert, Fillable, SameName, Shrinks;
    var out := Insert(s, name, data, now, ttl, flags, malloc);
    var t := InsertEffect(s, name, data, now, ttl, flags, malloc);
    ShrinksNoDnssec(s, t);
    ShrinksShape(s, t);
    if out.rec.Some? && out.rec.value < s.n {
      Frame(t.recs, out.s.recs, out.rec.value, out.s.At(out.rec.value));
    }
  }

  lemma {:induction false} PointNoDnssec(s: State, c: Id, to: Option<Id>)
    requires NoDnssec(s)
    ensures NoDnssec(SetLink(s, c, to))
  {
    var s', t := if to.Some? then NextUid(s, to.value) else s, SetLink(s, c, to);
    if to.Some? && s' != s {
      Frame(s.recs, s'.recs, to.value, s'.At(to.value));
    }
    Frame(s'.recs, t.recs, c, t.At(c));
  }

  lemma {:induction false} DropNoDnssec(s: State)
    requires s.pending != [] && NoDnssec(s)
    ensures NoDnssec(Drop(s))
  {
    Frame(s.recs, Drop(s).recs, s.pending[0], Freed(s.At(s.pending[0])));
  }

  lemma {:induction false} DiscardNoDnssec(s: State)
    requires NoDnssec(s)
    ensures NoDnssec(Discard(s))
    decreases |s.pending|
  {
    hide NoDnssec;
    if s.pending == [] {
      SameRecs(s, Discard(s));
    } else {
      DropNoDnssec(s);
      DiscardNoDnssec(Drop(s));
    }
  }

  lemma {:induction false} SameRecs(s: State, t: State)
    requires NoDnssec(s) && t.recs == s.recs
    ensures NoDnssec(t)
  {}

  lemma {:induction false} CommitAllNoDnssec(s: State)
    requires NoDnssec(s)
    ensures NoDnssec(CommitAll(s))
    decreases |s.pending|
  {
    hide NoDnssec;
    if s.pending != [] {
      DropNoDnssec(s);
      SameRecs(s, Commit(s));
      CommitAllNoDnssec(if s.Outdated(s.pending[0]) then Drop(s) else Commit(s));
    }
  }

  lemma {:induction false} StepNoDnssec(s: State, op: Op)
    requires Inv(s) && Pow2(|s.table|) && Enabled(s, op) && NoDnssec(s)
    ensures NoDnssec(Step(s, op))
  {
    hide Bucket, Inv, Insert, SetLink, Lookup.FindByName, Lookup.FindByAddr, Grow, UnhashDhcp, Pow2, Shrinks, NoDnssec, Discard, CommitAll;
    match op
    case Start => DiscardNoDnssec(s);
    case Add(name, data, now, ttl, flags, malloc) => InsertNoDnssec(s, name, data, now, ttl, flags, malloc);
    case Point(c, to) => PointNoDnssec(s, c, to);
    case End => CommitAllNoDnssec(s);
    case Find(name, now, prot, noRR) =>
      var out := NameLookup(s, name, now, prot, noRR);
      ShrinksNoDnssec(s, Step(s, op));
    case FindAddr(addr, now, prot) =>
      var out := AddrLookup(s, addr, now, prot);
      ShrinksNoDnssec(s, Step(s, op));
    case Define(r, x) => DefineNoDnssec(s, r, x);
    case Resize(size, malloc) =>
      GrowInvisible(s, size, malloc);
      SameRecs(s, Step(s, op));
    case DropDhcp => SameRecs(s, Step(s, op));
  }

  lemma {:induction false} DefineNoDnssec(s: State, r: Id, x: Rec)
    requires NoDnssec(s) && F_DS !in x.flags && F_DNSKEY !in x.flags
    ensures NoDnssec(AddStatic(s, r, x))
  {
    Frame(s.recs, AddStatic(s, r, x).recs, r, x);
  }

  lemma {:induction false} RunNoDnssec(s: State, ops: seq<Op>)
    requires Inv(s) && Pow2(|s.table|) && Allowed(s, ops) && NoDnssec(s)
    ensures NoDnssec(After(s, ops))
    decreases |ops|
  {
    hide Inv, Enabled, Step, Pow2, NoDnssec;
    if ops != [] {
      StepKeeps(s, ops[0]);
      StepNoDnssec(s, ops[0]);
      RunNoDnssec(Step(s, ops[0]), ops[1..]);
    }
  }

  lemma {:induction false} InitialNoDnssec(n: CInt, mix: Mix)
    ensures NoDnssec(Initial(n, mix))
  {
    LinkedFacts(n, mix, n);
  }

  // Reading items adds nothing to the table, and no DNSSEC record.
  lemma {:induction false} ApplyFrame(s: State, items: seq<Item>, k: nat, now: int, late: nat, fails: set<nat>)
    requires Inv(s) && NoDnssec(s) && s.pending == [] && k <= |items| && WelcomeAll(items, now)
    ensures var m := ApplyAll(s, items, k, now, late, fails);
      Inv(m.s) && NoDnssec(m.s) && forall r: Id :: m.s.Hashed(r) ==> s.Hashed(r)
  {
    hide Bucket, Inv, Welcome, Apply, NoDnssec;
    ApplyInv(s, items, k, now, late, fails);
    if k > 0 {
      ApplyFrame(s, items, k - 1, now, late, fails);
      ApplyAdds(ApplyAll(s, items, k - 1, now, late, fails), items[k - 1], now, late, k - 1 !in fails);
    }
  }

  lemma {:induction false} ApplyAdds(m: Made, x: Item, now: int, late: nat, malloc: bool)
    requires Inv(m.s) && NoDnssec(m.s) && Welcome(x, now)
    ensures var m' := Apply(m, x, now, late, malloc);
      NoDnssec(m'.s) && forall r: Id :: m'.s.Hashed(r) ==> m.s.Hashed(r)
  {
    hide Bucket, Inv, Insert, Typed, NoDnssec, SetLink;
    if Typed(x.flags) || F_CNAME in x.flags {
      var data, ttl := if Typed(x.flags) then x.data else None, Ttl(x.ttd, now, late);
      var out := Insert(m.s, Some(x.name), data, now, ttl, x.flags, malloc);
      AddShows(m.s, Some(x.name), data, now, ttl, x.flags, malloc);
      InsertNoDnssec(m.s, Some(x.name), data, now, ttl, x.flags, malloc);
      if out.rec.Some? {
        PointShows(out.s, out.rec.value, m.last);
        PointNoDnssec(out.s, out.rec.value, m.last);
      }
    }
  }

  // ---------- which records arrive ----------

  // An item with a type comes before item `i`.
  predicate Preceded(items: seq<Item>, i: nat)
    requires i <= |items|
  {
    exists j :: 0 <= j < i && Typed(items[j].flags)
  }

  // The parent's table says what the item says: it holds the item itself, or a static
  // entry of the name with its address, which may have gone since if it is about to.
  ghost predicate InParent(t: State, r: Option<Id>, x: Item, now: int) {
    && r.Some?
    && if r.value < t.n then t.Hashed(r.value) && Same(t.At(r.value), x)
       else StaticGives(t.At(r.value), x) && StaticHere(t, r, now)
  }

  // A static entry that was found is in the table, unless it has expired or is a CNAME.
  ghost predicate StaticHere(s: State, r: Option<Id>, now: int) {
    r.Some? && s.n <= r.value && Firm(s.At(r.value), now) ==> s.Hashed(r.value)
  }

  lemma {:induction false} ApplyFirm(m: Made, x: Item, now: int, late: nat, malloc: bool)
    requires Inv(m.s) && Welcome(x, now)
    ensures FirmStay(m.s, Apply(m, x, now, late, malloc).s, now)
  {
    hide Bucket, Inv, Insert, SetLink, Typed, FirmStay, Shrinks, Took, HitOk;
    FirmRefl(m.s, now);
    if Typed(x.flags) || F_CNAME in x.flags {
      var data, ttl := if Typed(x.flags) then x.data else None, Ttl(x.ttd, now, late);
      var out := Insert(m.s, Some(x.name), data, now, ttl, x.flags, malloc);
      InsertFirm(m.s, Some(x.name), data, now, ttl, x.flags, malloc);
      if !Typed(x.flags) && out.rec.Some? {
        CnameFails(m.s, x, now, ttl, malloc);
        var t := InsertEffect(m.s, Some(x.name), data, now, ttl, x.flags, malloc);
        PointFirm(out.s, out.rec.value, m.last, now);
        FirmTrans(m.s, out.s, SetLink(out.s, out.rec.value, m.last), now);
      }
    }
  }

  lemma {:induction false} PointFirm(s: State, c: Id, to: Option<Id>, now: int)
    requires Inv(s) && c < s.n
    ensures FirmStay(s, SetLink(s, c, to), now)
  {
    hide Bucket, ChainsOk, OrderOk, LruOk, UidsOk, LinksOk, BigOk, FindableOk, PoolOk;
    SameFirm(s, SetLink(s, c, to), now);
  }

  lemma {:induction false} StaticsHere(s: State, items: seq<Item>, k: nat, now: int, late: nat, fails: set<nat>)
    requires Inv(s) && s.pending == [] && k <= |items| && WelcomeAll(items, now)
    requires !ApplyAll(s, items, k, now, late, fails).s.err
    ensures var m := ApplyAll(s, items, k, now, late, fails);
      forall i :: 0 <= i < k ==> StaticHere(m.s, m.made[i], now)
  {
    hide Inv, Typed, Apply, Applied, Handled, Welcome, LastTyped, StaticHere;
    if k > 0 {
      var m, m' := ApplyAll(s, items, k - 1, now, late, fails), ApplyAll(s, items, k, now, late, fails);
      ErrKept(m, items[k - 1], now, late, k - 1 !in fails);
      Delivered(s, items, k - 1, now, late, fails);
      StaticsHere(s, items, k - 1, now, late, fails);
      ApplyOne(m, items[k - 1], now, late, k - 1 !in fails);
      ApplyFirm(m, items[k - 1], now, late, k - 1 !in fails);
      forall i | 0 <= i < k ensures StaticHere(m'.s, m'.made[i], now) {
        if i < k - 1 {
          assert m'.made[i] == m.made[i];
          StillHere(m, m', items[k - 1], m.made[i], now);
        } else {
          FoundHere(m, m', items[k - 1], now);
        }
      }
    }
  }

  lemma {:induction false} StillHere(m: Made, m': Made, x: Item, r: Option<Id>, now: int)
    requires |m.made| < |m'.made| && Applied(m, m', x) && FirmStay(m.s, m'.s, now) && StaticHere(m.s, r, now)
    ensures StaticHere(m'.s, r, now)
  {
    hide Bucket, Inv, Typed, Applied;
    AppliedKeeps(m, m', x);
    if r.Some? && m.s.n <= r.value {
      assert KeepsRec(m.s, m'.s, r.value);
      assert m.s.Hashed(r.value) && Firm(m.s.At(r.value), now) ==> Stays(m.s, m'.s, r.value);
    }
  }

  lemma {:induction false} FoundHere(m: Made, m': Made, x: Item, now: int)
    requires |m.made| < |m'.made| && Applied(m, m', x)
    ensures StaticHere(m'.s, m'.made[|m.made|], now)
  {
    hide Bucket, Inv, Typed, KeepsRec, Same, LinkedTo, StaticGives;
  }

  lemma {:induction false} LastTypedSome(m: Made, items: seq<Item>, k: nat)
    requires k <= |m.made| <= |items| && forall i :: 0 <= i < k ==> Handled(m, items, i)
    ensures LastTyped(items, m.made, k).Some? <==> Preceded(items, k)
    ensures LastTyped(items, m.made, k).Some? ==>
      exists j :: 0 <= j < k && Typed(items[j].flags) && LastTyped(items, m.made, k) == m.made[j]
  {
    hide Typed, Same, LinkedTo, StaticGives;
    if k > 0 {
      assert Handled(m, items, k - 1);
      LastTypedSome(m, items, k - 1);
    }
  }

  // A typed record of the batch is no CNAME, so it is not dropped.
  lemma {:induction false} TypedStays(m: Made, items: seq<Item>, now: int, j: nat)
    requires Inv(m.s) && j < |items| == |m.made| && WelcomeAll(items, now) && Handled(m, items, j) && Typed(items[j].flags)
    ensures m.made[j].Some? && m.made[j].value !in Loose(m.s, |m.s.pending|)
  {
    hide Inv, Loose, Typed, LinkedTo, StaticGives;
    var r := m.made[j].value;
    PendingApart(m.s);
    assert Welcome(items[j], now);
    if r in Loose(m.s, |m.s.pending|) {
      LooseCname(m.s, |m.s.pending|, r);
    }
  }

  // A CNAME of the batch is dropped unless it was linked.
  lemma {:induction false} CnameStays(m: Made, items: seq<Item>, now: int, i: nat)
    requires Inv(m.s) && NoDnssec(m.s) && i < |items| == |m.made| && WelcomeAll(items, now)
    requires forall j :: 0 <= j < |items| ==> Handled(m, items, j)
    requires !Typed(items[i].flags) && F_CNAME in items[i].flags
    ensures m.made[i].Some? && m.made[i].value in m.s.pending
    ensures m.made[i].value in Loose(m.s, |m.s.pending|) <==> !Preceded(items, i)
    ensures Preceded(items, i) ==> LastTyped(items, m.made, i).Some? && LastTyped(items, m.made, i).value !in Loose(m.s, |m.s.pending|)
  {
    hide Inv, Loose, Typed, StaticGives, Preceded;
    assert Handled(m, items, i);
    LastTypedSome(m, items, i);
    var r, to := m.made[i].value, LastTyped(items, m.made, i);
    var k :| 0 <= k < |m.s.pending| && m.s.pending[k] == r;
    LooseOne(m.s, k);
    if to.Some? {
      var j :| 0 <= j < i && Typed(items[j].flags) && to == m.made[j];
      TypedStays(m, items, now, j);
      LooseGrows(m.s, k, |m.s.pending|);
      assert F_DS !in Get(m.s.recs, to.value).flags && F_DNSKEY !in Get(m.s.recs, to.value).flags;
    }
  }

  // If no insert failed, what the parent's table holds for item `i` once the batch
  // is committed.
  lemma {:induction false} Shown(m: Made, items: seq<Item>, now: int, i: nat)
    requires Inv(m.s) && !m.s.err && NoDnssec(m.s) && i < |items| == |m.made| && WelcomeAll(items, now)
    requires forall j :: 0 <= j < |items| ==> Handled(m, items, j)
    requires StaticHere(m.s, m.made[i], now)
    ensures var t, x := EndInsert(m.s), items[i];
      && (InParent(t, m.made[i], x, now) <==> Typed(x.flags) || (F_CNAME in x.flags && Preceded(items, i)))
      && (!Typed(x.flags) && F_CNAME in x.flags && Preceded(items, i) ==>
            m.made[i].Some? && LinkedTo(t, m.made[i].value, LastTyped(items, m.made, i)))
  {
    hide Bucket, Inv, Loose, Typed, Preceded, EndInsert;
    var t, x, r := EndInsert(m.s), items[i], m.made[i];
    CommittedBatch(m.s);
    PendingHidden(m.s);
    EndShape(m.s);
    assert Handled(m, items, i);
    if Typed(x.flags) {
      TypedStays(m, items, now, i);
    } else if F_CNAME in x.flags {
      CnameStays(m, items, now, i);
    }
  }

  lemma {:induction false} EndShape(s: State)
    ensures EndInsert(s).n == s.n
  {}

  lemma {:induction false} EndFailed(s: State)
    requires s.err
    ensures EndInsert(s) == s
  {}

  // ---------- every run ----------

  // From the child's cache to the parent's, for every run of each. The parent reads
  // exactly the child's batch. Unless an insert fails, its table then says what a
  // record that the child has put in its own table says if and only if the record
  // has a type, or is a CNAME and one with a type was sent before it; such a CNAME
  // is linked to the last of those. Nothing else enters the parent's table, and nothing
  // at all if an insert fails.
  lemma {:induction false} RoundTrip(n: CInt, n': CInt, mix: Mix, ops: seq<Op>, ops': seq<Op>, at: Id -> Ptr,
                                     rest: seq<Byte>, now: int, late: nat, fails: set<nat>)
    requires Allowed(Initial(n, mix), ops) && Allowed(Initial(n', mix), ops')
    requires var child := After(Initial(n, mix), ops); !child.err && Timely(child, at, now)
    ensures var child, parent := After(Initial(n, mix), ops), After(Initial(n', mix), ops');
      var items := CarriedAll(Staying(child, at, 0));
      var m := ApplyAll(Discard(parent), items, |items|, now, late, fails);
      var got := RecvInsert(parent, Output(child, at) + rest, now, late, fails);
      && got.ok && got.rest == rest && Inv(got.s)
      && (!m.s.err ==>
            && (forall i :: 0 <= i < |items| ==>
                  (InParent(got.s, m.made[i], items[i], now) <==>
                     Typed(items[i].flags) || (F_CNAME in items[i].flags && Preceded(items, i))))
            && (forall i :: 0 <= i < |items| && !Typed(items[i].flags) && F_CNAME in items[i].flags && Preceded(items, i) ==>
                  LinkedTo(got.s, m.made[i].value, LastTyped(items, m.made, i))))
      && (forall r: Id :: got.s.Hashed(r) ==> parent.Hashed(r) || (!m.s.err && Some(r) in m.made))
  {
    hide Bucket, Inv, Pow2, Allowed, After, Initial, PlainBatch, Timely, Staying, SendableAll, WelcomeAll, CarriedAll, NoDnssec,
      Sent, EncodeAll, RecvInsert, ApplyAll, Handled, LastTyped, PoolMade, Loose, EndInsert, Discard, LastOk, Preceded, Typed, InParent;
    var child, parent := After(Initial(n, mix), ops), After(Initial(n', mix), ops');
    InitialInv(n, mix);
    InitialInv(n', mix);
    RunKeeps(Initial(n, mix), ops);
    RunKeeps(Initial(n', mix), ops');
    InitialPlain(n, mix);
    RunPlain(Initial(n, mix), ops);
    InitialNoDnssec(n', mix);
    RunNoDnssec(Initial(n', mix), ops');
    StayingWelcome(child, at, now, 0);
    SentExact(child, at);
    var l := Staying(child, at, 0);
    BatchArrives(parent, l, rest, now, late, fails);
    AbandonedBatch(parent);
    DiscardNoDnssec(parent);
    Read(parent, Discard(parent), CarriedAll(l), now, late, fails);
  }

  lemma {:induction false} Read(parent: State, s: State, items: seq<Item>, now: int, late: nat, fails: set<nat>)
    requires Inv(s) && NoDnssec(s) && s.pending == [] && WelcomeAll(items, now)
    requires s == Discard(parent) && Inv(parent)
    ensures var m := ApplyAll(s, items, |items|, now, late, fails); var t := EndInsert(m.s);
      && Inv(t)
      && (!m.s.err ==>
            && (forall i :: 0 <= i < |items| ==>
                  (InParent(t, m.made[i], items[i], now) <==>
                     Typed(items[i].flags) || (F_CNAME in items[i].flags && Preceded(items, i))))
            && (forall i :: 0 <= i < |items| && !Typed(items[i].flags) && F_CNAME in items[i].flags && Preceded(items, i) ==>
                  LinkedTo(t, m.made[i].value, LastTyped(items, m.made, i))))
      && (forall r: Id :: t.Hashed(r) ==> parent.Hashed(r) || (!m.s.err && Some(r) in m.made))
  {
    hide Bucket, Inv, WelcomeAll, NoDnssec, ApplyAll, Handled, LastTyped, Loose, EndInsert, Discard, LastOk, Preceded, Typed, InParent, StaticHere, LinkedTo;
    var m := ApplyAll(s, items, |items|, now, late, fails);
    ApplyFrame(s, items, |items|, now, late, fails);
    EndKeeps(m.s);
    DiscardShows(parent);
    if m.s.err {
      EndFailed(m.s);
    } else {
      Delivered(s, items, |items|, now, late, fails);
      StaticsHere(s, items, |items|, now, late, fails);
      CommittedBatch(m.s);
      forall i | 0 <= i < |items|
        ensures InParent(EndInsert(m.s), m.made[i], items[i], now) <==> Typed(items[i].flags) || (F_CNAME in items[i].flags && Preceded(items, i))
        ensures !Typed(items[i].flags) && F_CNAME in items[i].flags && Preceded(items, i) ==>
          m.made[i].Some? && LinkedTo(EndInsert(m.s), m.made[i].value, LastTyped(items, m.made, i))
      {
        Shown(m, items, now, i);
      }
      forall r: Id | r in m.s.pending ensures Some(r) in m.made {
        PoolMadeIn(m.made, s.n, r);
      }
    }
  }

  lemma {:induction false} PoolMadeIn(made: seq<Option<Id>>, n: nat, r: Id)
    requires r in PoolMade(made, n)
    ensures Some(r) in made
  {
    var k := |made| - 1;
    if made[k] != Some(r) {
      PoolMadeIn(made[..k], n, r);
    }
  }

  lemma {:induction false} DiscardShows(s: State)
    requires Inv(s)
    ensures forall r: Id :: Discard(s).Hashed(r) <==> s.Hashed(r)
    decreases |s.pending|
  {
    hide Bucket, Inv;
    if s.pending == [] {
      assert forall r: Id :: Discard(s).Home(r) == s.Home(r);
    } else {
      DropKeeps(s);
      DropShows(s);
      DiscardShows(Drop(s));
    }
  }
}
