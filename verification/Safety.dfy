/**
 A promise over whole runs: a CNAME never leads to the wrong name.
 */
module Safety {
  import opened Names
  import opened Records
  import opened State
  import opened Keeps
  import opened Ops
  import opened Scans
  import opened Batch
  import opened Answers
  import opened AddrAnswers
  import opened Rehash
  import opened Runs
  import Lookup

  // ---------- CNAME links ----------

  // Whatever pool record has a uid in `t` either has just been given it or had
  // it in `s`, under the same name; static records keep their names.
  ghost predicate Tame(s: State, t: State) {
    && t.n == s.n && s.lastUid <= t.lastUid
    && (forall p: Id :: p < s.n ==>
          || Get(t.recs, p).uid == UID_NONE || Get(t.recs, p).uid > s.lastUid
          || (Get(t.recs, p).uid == Get(s.recs, p).uid && SameName(Get(t.recs, p).name, Get(s.recs, p).name)))
    && (forall r: Id :: s.n <= r && r in s.recs ==> r in t.recs && Get(t.recs, r).name == Get(s.recs, r).name)
  }

  lemma {:induction false} TameTrans(s: State, t: State, v: State)
    requires Tame(s, t) && Tame(t, v)
    ensures Tame(s, v)
  {
    hide SameName;
    forall p: Id | p < s.n ensures
      || Get(v.recs, p).uid == UID_NONE || Get(v.recs, p).uid > s.lastUid
      || (Get(v.recs, p).uid == Get(s.recs, p).uid && SameName(Get(v.recs, p).name, Get(s.recs, p).name))
    {
      SameTrans(Get(v.recs, p).name, Get(t.recs, p).name, Get(s.recs, p).name);
    }
  }

  lemma {:induction false} SameTrans(a: Name, b: Name, c: Name)
    ensures SameName(a, a) && (SameName(a, b) && SameName(b, c) ==> SameName(a, c))
  {}

  lemma {:induction false} ShrinksTame(s: State, t: State)
    requires Shrinks(s, t)
    ensures Tame(s, t)
  {
    forall r: Id ensures Get(t.recs, r).name == Get(s.recs, r).name && (Get(t.recs, r).uid == Get(s.recs, r).uid || Get(t.recs, r).uid == UID_NONE) {
      assert Get(t.recs, r) == Get(s.recs, r) || Get(t.recs, r) == Freed(Get(s.recs, r));
    }
  }

  lemma {:induction false} SameRecsTame(s: State, t: State)
    requires t.n == s.n && t.lastUid == s.lastUid && t.recs == s.recs
    ensures Tame(s, t)
  {}

  lemma {:induction false} DiscardTame(s: State)
    requires Inv(s)
    ensures Tame(s, Discard(s))
    decreases |s.pending|
  {
    hide Bucket, Inv, Tame;
    if s.pending == [] {
      SameRecsTame(s, Discard(s));
    } else {
      DropTame(s);
      DropKeeps(s);
      DiscardTame(Drop(s));
      TameTrans(s, Drop(s), Discard(Drop(s)));
    }
  }

  lemma {:induction false} DropTame(s: State)
    requires Inv(s) && s.pending != []
    ensures Tame(s, Drop(s))
  {
    hide Bucket, ChainsOk, OrderOk, LruOk, FindableOk, UidsOk, LinksOk, BigOk;
    Frame(s.recs, Drop(s).recs, s.pending[0], Freed(s.At(s.pending[0])));
    assert s.pending[0] in s.pending;
  }

  lemma {:induction false} CommitAllTame(s: State)
    requires Inv(s)
    ensures Tame(s, CommitAll(s))
    decreases |s.pending|
  {
    hide Bucket, Inv, Tame;
    if s.pending == [] {
      SameRecsTame(s, s);
    } else {
      DropTame(s);
      DropKeeps(s);
      CommitKeeps(s);
      SameRecsTame(s, Commit(s));
      var t := if s.Outdated(s.pending[0]) then Drop(s) else Commit(s);
      CommitAllTame(t);
      TameTrans(s, t, CommitAll(t));
    }
  }

  lemma {:induction false} AddTame(s: State, name: Option<Name>, data: Option<Data>, now: int, ttl: nat, flags: Flags, malloc: bool)
    requires Inv(s) && Insertable(name, data, flags)
    ensures Tame(s, Insert(s, name, data, now, ttl, flags, malloc).s)
  {
    hide Bucket, Inv, Shrinks, Insert, Fillable, SameName;
    var out := Insert(s, name, data, now, ttl, flags, malloc);
    var t := InsertEffect(s, name, data, now, ttl, flags, malloc);
    ShrinksTame(s, t);
    ShrinksUid(s, t);
    if out.rec.Some? && out.rec.value < s.n {
      var r := out.rec.value;
      Frame(t.recs, out.s.recs, r, out.s.At(r));
      SameTrans(out.s.At(r).name, out.s.At(r).name, out.s.At(r).name);
      SameSym(t.At(r).name, out.s.At(r).name);
    }
  }

  lemma {:induction false} SameSym(a: Name, b: Name)
    ensures SameName(a, b) <==> SameName(b, a)
  {}

  lemma {:induction false} ShrinksUid(s: State, t: State)
    requires Shrinks(s, t)
    ensures t.lastUid == s.lastUid && t.n == s.n && forall r: Id :: Get(t.recs, r).name == Get(s.recs, r).name
  {
    forall r: Id ensures Get(t.recs, r).name == Get(s.recs, r).name {
      assert Get(t.recs, r) == Get(s.recs, r) || Get(t.recs, r) == Freed(Get(s.recs, r));
    }
  }

  lemma {:induction false} PointTame(s: State, c: Id, to: Option<Id>)
    requires Inv(s) && Enabled(s, Point(c, to))
    ensures Tame(s, SetLink(s, c, to))
  {
    var s' := if to.Some? then NextUid(s, to.value) else s;
    var t := SetLink(s, c, to);
    if to.Some? && s' != s {
      Frame(s.recs, s'.recs, to.value, s'.At(to.value));
    }
    Frame(s'.recs, t.recs, c, t.At(c));
  }

  lemma {:induction false} StepTame(s: State, op: Op)
    requires Inv(s) && Pow2(|s.table|) && Enabled(s, op)
    ensures Tame(s, Step(s, op))
  {
    hide Bucket, Inv, Discard, Insert, SetLink, Lookup.FindByName, Lookup.FindByAddr, AddStatic, Grow, UnhashDhcp, Pow2, Shrinks, Tame;
    match op
    case Start => DiscardTame(s);
    case Add(name, data, now, ttl, flags, malloc) => AddTame(s, name, data, now, ttl, flags, malloc);
    case Point(c, to) => PointTame(s, c, to);
    case End => CommitAllTame(s); SameRecsTame(s, s);
    case Find(name, now, prot, noRR) =>
      var out := NameLookup(s, name, now, prot, noRR);
      ShrinksTame(s, Step(s, op));
    case FindAddr(addr, now, prot) =>
      var out := AddrLookup(s, addr, now, prot);
      ShrinksTame(s, Step(s, op));
    case Define(r, x) => DefineTame(s, r, x);
    case Resize(size, malloc) =>
      GrowInvisible(s, size, malloc);
      SameRecsTame(s, Step(s, op));
    case DropDhcp => SameRecsTame(s, Step(s, op));
  }

  lemma {:induction false} DefineTame(s: State, r: Id, x: Rec)
    requires s.n <= r && r !in s.recs
    ensures Tame(s, AddStatic(s, r, x))
  {
    Frame(s.recs, AddStatic(s, r, x).recs, r, x);
  }

  lemma {:induction false} RunTame(s: State, ops: seq<Op>)
    requires Inv(s) && Pow2(|s.table|) && Allowed(s, ops)
    ensures Tame(s, After(s, ops))
    decreases |ops|
  {
    hide Inv, Enabled, Step, Pow2, Tame;
    if ops == [] {
      SameRecsTame(s, s);
    } else {
      StepKeeps(s, ops[0]);
      StepTame(s, ops[0]);
      RunTame(Step(s, ops[0]), ops[1..]);
      TameTrans(s, Step(s, ops[0]), After(Step(s, ops[0]), ops[1..]));
    }
  }

  // CNAME `c` is linked to `t`. However long the run goes on, through frees,
  // reuse of records and replacement of `t` by a new record of its name: while a
  // CNAME with this link passes the uid test, `t` has the name it had then.
  lemma {:induction false} LinkSafety(s: State, c: Id, t: Id, ops: seq<Op>, d: Id)
    requires Inv(s) && Pow2(|s.table|) && Enabled(s, Point(c, Some(t)))
    requires Allowed(Step(s, Point(c, Some(t))), ops)
    requires var linked := Step(s, Point(c, Some(t))); var e := After(linked, ops);
      e.At(d).data == linked.At(c).data && F_CNAME in e.At(d).flags && !e.Outdated(d)
    ensures SameName(After(Step(s, Point(c, Some(t))), ops).At(t).name, s.At(t).name)
  {
    hide Bucket, Inv, Enabled, Allowed, SameName, Pow2;
    var linked := Step(s, Point(c, Some(t)));
    var e := After(linked, ops);
    StepKeeps(s, Point(c, Some(t)));
    RunTame(linked, ops);
    LinkedTarget(s, c, t);
    SameTrans(e.At(t).name, e.At(t).name, e.At(t).name);
    assert e.At(d).data == CnameRec(Some(t), linked.At(t).uid);
    assert Get(e.recs, t).uid == linked.At(t).uid;
  }

  lemma {:induction false} LinkedTarget(s: State, c: Id, t: Id)
    requires Inv(s) && Enabled(s, Point(c, Some(t)))
    ensures var linked := SetLink(s, c, Some(t));
      && linked.At(c).data == CnameRec(Some(t), linked.At(t).uid)
      && linked.At(t).name == s.At(t).name && linked.n == s.n && (s.n <= t ==> t in linked.recs)
      && (t < s.n ==> 0 < linked.At(t).uid <= linked.lastUid)
  {
    hide Bucket, ChainsOk, OrderOk, LruOk, FindableOk, BigOk;
  }

  // ---------- where links come from ----------

  ghost predicate IsLink(d: Data) {
    d.CnameRec? && d.rec.Some?
  }

  // Only `Point` makes links.
  ghost predicate Unlinked(s: State, t: State, c: Option<Id>) {
    forall r: Id :: IsLink(Get(t.recs, r).data) ==> Get(t.recs, r).data == Get(s.recs, r).data || c == Some(r)
  }

  lemma {:induction false} ShrinksUnlinked(s: State, t: State)
    requires Shrinks(s, t)
    ensures Unlinked(s, t, None)
  {
    forall r: Id ensures Get(t.recs, r).data == Get(s.recs, r).data {
      assert Get(t.recs, r) == Get(s.recs, r) || Get(t.recs, r) == Freed(Get(s.recs, r));
    }
  }

  lemma {:induction false} DropUnlinked(s: State)
    requires s.pending != []
    ensures Unlinked(s, Drop(s), None)
  {
    Frame(s.recs, Drop(s).recs, s.pending[0], Freed(s.At(s.pending[0])));
  }

  lemma {:induction false} DiscardUnlinked(s: State)
    ensures Unlinked(s, Discard(s), None)
    decreases |s.pending|
  {
    if s.pending != [] {
      DropUnlinked(s);
      DiscardUnlinked(Drop(s));
    }
  }

  lemma {:induction false} CommitAllUnlinked(s: State)
    ensures Unlinked(s, CommitAll(s), None)
    decreases |s.pending|
  {
    hide Bucket;
    if s.pending != [] {
      DropUnlinked(s);
      CommitAllUnlinked(if s.Outdated(s.pending[0]) then Drop(s) else Commit(s));
    }
  }

  lemma {:induction false} AddUnlinked(s: State, name: Option<Name>, data: Option<Data>, now: int, ttl: nat, flags: Flags, malloc: bool)
    requires Inv(s) && Insertable(name, data, flags)
    ensures Unlinked(s, Insert(s, name, data, now, ttl, flags, malloc).s, None)
  {
    hide Bucket, Inv, Shrinks, Insert, Fillable, SameName;
    var out := Insert(s, name, data, now, ttl, flags, malloc);
    var t := InsertEffect(s, name, data, now, ttl, flags, malloc);
    ShrinksUnlinked(s, t);
    if out.rec.Some? && out.rec.value < s.n {
      Frame(t.recs, out.s.recs, out.rec.value, out.s.At(out.rec.value));
    }
  }

  lemma {:induction false} PointUnlinked(s: State, c: Id, to: Option<Id>)
    ensures Unlinked(s, SetLink(s, c, to), Some(c))
    ensures IsLink(SetLink(s, c, to).At(c).data) ==> SetLink(s, c, to).At(c).data.rec == to
  {
    var s' := if to.Some? then NextUid(s, to.value) else s;
    var t := SetLink(s, c, to);
    if to.Some? && s' != s {
      Frame(s.recs, s'.recs, to.value, s'.At(to.value));
    }
    Frame(s'.recs, t.recs, c, t.At(c));
  }

  lemma {:induction false} StepUnlinked(s: State, op: Op)
    requires Inv(s) && Pow2(|s.table|) && Enabled(s, op)
    ensures Unlinked(s, Step(s, op), if op.Point? then Some(op.cname) else None)
  {
    hide Bucket, Inv, Discard, Insert, SetLink, Lookup.FindByName, Lookup.FindByAddr, AddStatic, Grow, UnhashDhcp, Pow2, Shrinks, CommitAll;
    match op
    case Start => DiscardUnlinked(s);
    case Add(name, data, now, ttl, flags, malloc) => AddUnlinked(s, name, data, now, ttl, flags, malloc);
    case Point(c, to) => PointUnlinked(s, c, to);
    case End => CommitAllUnlinked(s);
    case Find(name, now, prot, noRR) =>
      var out := NameLookup(s, name, now, prot, noRR);
      ShrinksUnlinked(s, Step(s, op));
    case FindAddr(addr, now, prot) =>
      var out := AddrLookup(s, addr, now, prot);
      ShrinksUnlinked(s, Step(s, op));
    case Define(r, x) => DefineUnlinked(s, r, x);
    case Resize(size, malloc) => GrowInvisible(s, size, malloc);
    case DropDhcp =>
  }

  lemma {:induction false} DefineUnlinked(s: State, r: Id, x: Rec)
    requires !x.data.CnameRec?
    ensures Unlinked(s, AddStatic(s, r, x), None)
  {
    Frame(s.recs, AddStatic(s, r, x).recs, r, x);
  }

  // The state before step `i` of a run.
  ghost function Before(s: State, ops: seq<Op>, i: nat): State
    requires Allowed(s, ops) && i <= |ops|
    decreases i
  {
    if i == 0 then s else Before(Step(s, ops[0]), ops[1..], i - 1)
  }

  lemma {:induction false} BeforeKeeps(s: State, ops: seq<Op>, i: nat)
    requires Inv(s) && Pow2(|s.table|) && Allowed(s, ops) && i <= |ops|
    ensures var b := Before(s, ops, i);
      && Inv(b) && Pow2(|b.table|) && Allowed(b, ops[i..]) && After(b, ops[i..]) == After(s, ops)
    decreases i
  {
    hide Inv, Enabled, Step, Pow2;
    if i == 0 {
      assert ops[0..] == ops;
    } else {
      StepKeeps(s, ops[0]);
      BeforeKeeps(Step(s, ops[0]), ops[1..], i - 1);
      assert ops[1..][i - 1..] == ops[i..];
    }
  }

  // Step `i` of the run made the link.
  ghost predicate Makes(s: State, ops: seq<Op>, i: nat, d: Data)
    requires Allowed(s, ops) && i < |ops|
  {
    && IsLink(d) && ops[i].Point? && ops[i].to == d.rec
    && Before(s, ops, i + 1).At(ops[i].cname).data == d
  }

  lemma {:induction false} LinkOrigin(s: State, ops: seq<Op>, r: Id)
    requires Inv(s) && Pow2(|s.table|) && Allowed(s, ops) && IsLink(After(s, ops).At(r).data)
    ensures var d := After(s, ops).At(r).data;
      s.At(r).data == d || exists i :: 0 <= i < |ops| && Makes(s, ops, i, d)
    decreases |ops|
  {
    hide Inv, Enabled, Step, Pow2;
    if ops != [] {
      var t, d := Step(s, ops[0]), After(s, ops).At(r).data;
      StepKeeps(s, ops[0]);
      LinkOrigin(t, ops[1..], r);
      if t.At(r).data == d {
        StepUnlinked(s, ops[0]);
        if s.At(r).data != d {
          MadeFirst(s, ops, r, d);
        }
      } else {
        var i :| 0 <= i < |ops[1..]| && Makes(t, ops[1..], i, d);
        assert Makes(s, ops, i + 1, d);
      }
    }
  }

  lemma {:induction false} MadeFirst(s: State, ops: seq<Op>, r: Id, d: Data)
    requires Allowed(s, ops) && ops != [] && IsLink(d) && Step(s, ops[0]).At(r).data == d
    requires ops[0].Point? && ops[0].cname == r
    ensures Makes(s, ops, 0, d)
  {
    hide Enabled;
    PointUnlinked(s, r, ops[0].to);
    assert Before(s, ops, 1) == Step(s, ops[0]);
  }

  // In every run from cache_init on: a CNAME whose link passes the uid test was
  // linked by some step, and its target still has the name, up to case, that it
  // had at that step.
  lemma {:induction false} EveryLinkSafe(n: CInt, mix: Mix, ops: seq<Op>, d: Id)
    requires Allowed(Initial(n, mix), ops)
    requires var e := After(Initial(n, mix), ops);
      F_CNAME in e.At(d).flags && e.At(d).data.CnameRec? && !e.Outdated(d)
    ensures var s, e := Initial(n, mix), After(Initial(n, mix), ops); var link := e.At(d).data;
      exists i :: 0 <= i < |ops| && Makes(s, ops, i, link)
        && SameName(e.At(link.rec.value).name, Before(s, ops, i).At(link.rec.value).name)
  {
    hide Bucket, Inv, Enabled, Step, Pow2, SameName, Allowed, Linked;
    var s, e := Initial(n, mix), After(Initial(n, mix), ops);
    var link := e.At(d).data;
    InitialInv(n, mix);
    LinkedFacts(n, mix, n);
    LinkOrigin(s, ops, d);
    var i :| 0 <= i < |ops| && Makes(s, ops, i, link);
    StillSafe(s, ops, i, d);
  }

  lemma {:induction false} StillSafe(s: State, ops: seq<Op>, i: nat, d: Id)
    requires Inv(s) && Pow2(|s.table|) && Allowed(s, ops) && i < |ops|
    requires var e := After(s, ops);
      F_CNAME in e.At(d).flags && e.At(d).data.CnameRec? && !e.Outdated(d) && Makes(s, ops, i, e.At(d).data)
    ensures var e := After(s, ops); var t := e.At(d).data.rec.value;
      SameName(e.At(t).name, Before(s, ops, i).At(t).name)
  {
    hide Bucket, Inv, Step, Pow2, SameName, Before;
    BeforeKeeps(s, ops, i);
    var b := Before(s, ops, i);
    assert ops[i..][0] == ops[i] && ops[i..][1..] == ops[i + 1..];
    BeforeNext(s, ops, i);
    LinkSafety(b, ops[i].cname, ops[i].to.value, ops[i + 1..], d);
  }

  lemma {:induction false} BeforeNext(s: State, ops: seq<Op>, i: nat)
    requires Allowed(s, ops) && i < |ops| && Enabled(Before(s, ops, i), ops[i])
    ensures Before(s, ops, i + 1) == Step(Before(s, ops, i), ops[i])
    decreases i
  {
    hide Enabled, Step;
    if i > 0 {
      BeforeNext(Step(s, ops[0]), ops[1..], i - 1);
    } else {
      assert Before(s, ops, 1) == Before(Step(s, ops[0]), ops[1..], 0);
    }
  }
}
