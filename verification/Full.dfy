/**
 A run in which an insert ends in the internal error: the cache is full, and the record
 touched longest ago is a CNAME whose name is also the parent of a lease.
 */
module Full {
  import opened Names
  import opened Records
  import opened State
  import opened Keeps
  import opened Ops
  import opened Rehash
  import opened Runs
  import opened NonTerminals
  import opened Ancestors
  import opened Witness
  import opened Leases

  const FAR: Name := [116]
  const NEW: Name := [122]

  // ---------- two records ----------

  // The CNAME `c` of the parent's name points at `r`; both are committed, and there are
  // no other records in the pool.
  ghost predicate Pair(e: State, c: Id, r: Id) {
    && Dynamic(e) && c != r && c < e.n && r < e.n && e.lru == [r, c] && !e.err
    && Holds(e, c, Cname(PARENT)) && Holds(e, r, Witness.Target(FAR))
    && !e.Outdated(c) && e.At(c).data == CnameRec(Some(r), e.At(r).uid)
    && forall b :: 0 <= b < |e.table| ==> e.table[b] == (if b == e.BucketOf(FAR) then [r] else []) + (if b == e.BucketOf(PARENT) then [c] else [])
  }

  lemma {:induction false} PairCommitted(u: State)
    requires Bare(u) && Poolish(u) && |u.pending| == 2 && u.pending[0] != u.pending[1] && u.lru == []
    requires Holds(u, u.pending[0], Cname(PARENT)) && Holds(u, u.pending[1], Witness.Target(FAR)) && !u.Outdated(u.pending[0])
    requires u.At(u.pending[0]).data == CnameRec(Some(u.pending[1]), u.At(u.pending[1]).uid)
    ensures Pair(EndInsert(u), u.pending[0], u.pending[1]) && EndInsert(u).n == u.n
  {
    hide Bucket, Inv, Commit, SkipReverse, Bare;
    BareInv(u);
    EndKeeps(u);
    var c, r := u.pending[0], u.pending[1];
    var v := Commit(u);
    FirstIn(u);
    assert v.pending == [r] && !v.Outdated(r);
    var e := Commit(v);
    SecondIn(u, v);
    assert e.pending == [] && e.recs == u.recs && e.lru == [r, c];
    AllIn(u, v, e);
    PairReverse(e, c, r);
    PairDynamic(e, c, r);
    assert !e.Outdated(c);
  }

  lemma {:induction false} AllIn(u: State, v: State, e: State)
    requires u.pending != [] && !u.Outdated(u.pending[0]) && v == Commit(u) && v.pending != [] && !v.Outdated(v.pending[0]) && e == Commit(v)
    requires e.pending == [] && !u.err
    ensures EndInsert(u) == e
  {
    hide Bucket, Commit, State.Outdated;
    assert CommitAll(e) == e && CommitAll(v) == e && CommitAll(u) == e;
  }

  lemma {:induction false} PairDynamic(e: State, c: Id, r: Id)
    requires Inv(e) && Poolish(e) && c < e.n && r < e.n && SkipReverse(e.recs, e.table[e.BucketOf(PARENT)], 0) == 0
    requires forall b :: 0 <= b < |e.table| ==> e.table[b] == (if b == e.BucketOf(FAR) then [r] else []) + (if b == e.BucketOf(PARENT) then [c] else [])
    ensures Dynamic(e)
  {
    hide Bucket, Inv, SkipReverse;
  }

  lemma {:induction false} FirstIn(u: State)
    requires Bare(u) && u.pending != [] && u.At(u.pending[0]).name == PARENT
    ensures var v := Commit(u);
      && v == u.(table := v.table, lru := v.lru, stamp := v.stamp, clock := v.clock, pending := v.pending) && |v.table| == |u.table|
      && v.lru == [u.pending[0]] + u.lru && v.pending == u.pending[1..]
      && forall b :: 0 <= b < |u.table| ==> v.table[b] == if b == u.BucketOf(PARENT) then [u.pending[0]] else []
  {
    hide Bucket, Inv;
  }

  lemma {:induction false} SecondIn(u: State, v: State)
    requires v.pending != [] && v.At(v.pending[0]).name == FAR && F_REVERSE !in v.At(v.pending[0]).flags && F_IMMORTAL !in v.At(v.pending[0]).flags
    requires u.pending != [] && F_REVERSE !in v.At(u.pending[0]).flags && v.mix == u.mix && |v.table| == |u.table|
    requires forall b :: 0 <= b < |u.table| ==> v.table[b] == if b == u.BucketOf(PARENT) then [u.pending[0]] else []
    ensures var e, r := Commit(v), v.pending[0];
      && e == v.(table := e.table, lru := e.lru, stamp := e.stamp, clock := e.clock, pending := e.pending) && |e.table| == |v.table|
      && e.lru == [r] + v.lru && e.pending == v.pending[1..]
      && forall b :: 0 <= b < |e.table| ==>
           e.table[b] == (if b == e.BucketOf(FAR) then [r] else []) + (if b == e.BucketOf(PARENT) then [u.pending[0]] else [])
  {
    hide Bucket;
    var b, r := v.BucketOf(FAR), v.pending[0];
    assert Place(v.recs, v.table[b], v.At(r).flags) == 0;
    assert Inserted(v.table[b], 0, r) == [r] + v.table[b];
  }

  lemma {:induction false} PairReverse(e: State, c: Id, r: Id)
    requires F_REVERSE !in e.At(c).flags && F_REVERSE !in e.At(r).flags
    requires e.table[e.BucketOf(PARENT)] == [c] || e.table[e.BucketOf(PARENT)] == [r] + [c]
    ensures SkipReverse(e.recs, e.table[e.BucketOf(PARENT)], 0) == 0
  {
    hide Bucket;
  }

  lemma {:induction false} PairMade(mix: Mix) returns (ops: seq<Op>, e: State, c: Id, r: Id)
    ensures Allowed(Initial(2, mix), ops) && After(Initial(2, mix), ops) == e && Pair(e, c, r) && e.n == 2
  {
    hide Bucket, Inv, Initial, Pow2, EndInsert, SetLink, Allowed, After, Holds, Pair, Bare;
    Untyped();
    SimplePair();
    var t;
    ops, t := Begun(2, mix, Witness.Target(FAR), Cname(PARENT));
    c, r := t.pending[0], t.pending[1];
    BareInv(t);
    LinkTarget(t, PARENT, FAR);
    var u := SetLink(t, c, Some(r));
    PointKeeps(t, c, Some(r));
    HoldsPool(t, c, Cname(PARENT));
    HoldsPool(t, r, Witness.Target(FAR));
    LinkPoolish(t, c, r);
    Further(Initial(2, mix), ops, Point(c, Some(r)));
    Further(Initial(2, mix), ops + [Point(c, Some(r))], End);
    e := EndInsert(u);
    BareAgain(t, u);
    PairCommitted(u);
    ops := ops + [Point(c, Some(r))] + [End];
  }

  lemma {:induction false} SimplePair()
    ensures Simple(Witness.Target(FAR)) && Simple(Cname(PARENT))
  {}

  lemma {:induction false} BareInv(t: State)
    requires Bare(t)
    ensures Inv(t) && !t.err
  {}

  lemma {:induction false} BareAgain(t: State, u: State)
    requires Bare(t) && Inv(u) && u.table == t.table && u.err == t.err
    ensures Bare(u)
  {}

  lemma {:induction false} LinkPoolish(t: State, c: Id, r: Id)
    requires Poolish(t) && c < t.n && r < t.n
    ensures var u := SetLink(t, c, Some(r)); Poolish(u) && u.lru == t.lru && u.n == t.n
  {
    var v, u := NextUid(t, r), SetLink(t, c, Some(r));
    if v != t {
      Frame(t.recs, v.recs, r, v.At(r));
    }
    Frame(v.recs, u.recs, c, u.At(c));
  }

  lemma {:induction false} HoldsPool(s: State, r: Id, op: Op)
    requires Holds(s, r, op)
    ensures r < s.n
  {}

  // ---------- scans that remove nothing ----------

  ghost predicate Quiet(s: State, r: Id, name: Name, now: int, flags: Flags) {
    !InTheWay(s.At(r), name, flags) && !Expired(now, s.At(r)) && !s.Outdated(r)
  }

  lemma {:induction false} BucketIdle(s: State, b: nat, u: nat, name: Name, now: int, flags: Flags)
    requires b < |s.table| && u <= |s.table[b]| && forall r: Id :: r in s.table[b] ==> Quiet(s, r, name, now, flags)
    ensures ScanBucket(s, b, u, name, now, flags, None) == Scan(s, None, None)
    decreases |s.table[b]| - u
  {
    hide InTheWay, State.Outdated, Expired;
    if u < |s.table[b]| {
      assert Quiet(s, s.table[b][u], name, now, flags);
      BucketIdle(s, b, u + 1, name, now, flags);
    }
  }

  lemma {:induction false} BucketHit(s: State, b: nat, u: nat, k: nat, name: Name, now: int, flags: Flags)
    requires b < |s.table| && u <= k < |s.table[b]| && InTheWay(s.At(s.table[b][k]), name, flags) && Static(s.At(s.table[b][k]).flags)
    requires forall j :: u <= j < k ==> Quiet(s, s.table[b][j], name, now, flags)
    ensures ScanBucket(s, b, u, name, now, flags, None).s == s
    decreases k - u
  {
    hide InTheWay, State.Outdated, Expired;
    if u < k {
      assert Quiet(s, s.table[b][u], name, now, flags);
      BucketHit(s, b, u + 1, k, name, now, flags);
    }
  }

  lemma {:induction false} ChainIdle(s: State, b: nat, u: nat, now: int)
    requires b < |s.table| && u <= |s.table[b]| && forall r: Id :: r in s.table[b] ==> !Expired(now, Get(s.recs, r))
    ensures ScanChain(s, b, u, now, {}, None) == s
    decreases |s.table[b]| - u
  {
    hide Expired;
    if u < |s.table[b]| {
      assert s.table[b][u] in s.table[b];
      ChainIdle(s, b, u + 1, now);
    }
  }

  lemma {:induction false} TableIdle(s: State, b: nat, now: int)
    requires b <= |s.table| && forall k, r: Id :: 0 <= k < |s.table| && r in s.table[k] ==> !Expired(now, Get(s.recs, r))
    ensures ScanTable(s, b, now, {}, None) == s
    decreases |s.table| - b
  {
    hide Expired, ScanChain;
    if b < |s.table| {
      ChainIdle(s, b, 0, now);
      TableIdle(s, b + 1, now);
    }
  }

  // ---------- the internal error ----------

  // Nothing in the table has expired or dangles, and nothing has the new name.
  lemma {:induction false} AllQuiet(e: State, t: State, c: Id, r: Id, x: Rec)
    requires Pair(e, c, r) && Parented(e, t, x) && IsLease(x) && F_IMMORTAL !in x.flags
    ensures forall b, q: Id :: 0 <= b < |t.table| && q in t.table[b] ==> Quiet(t, q, NEW, 1, {F_FORWARD, F_IPV4})
    ensures t.At(c) == e.At(c)
  {
    hide Bucket, Dynamic, IsLease, SameName;
    LeaseFacts(x);
    NewNames(x.name);
    RecNamed(x);
    assert t.At(e.n + 2) == ParentRec(x) && t.At(e.n) == x && t.At(c) == e.At(c) && t.At(r) == e.At(r);
    LinkFirm(e, t, c);
    hide ParentRec, State.Outdated;
    forall b, q: Id | 0 <= b < |t.table| && q in t.table[b] ensures Quiet(t, q, NEW, 1, {F_FORWARD, F_IPV4}) {
      assert ParentedAt(e, t, x, b);
      assert q == c || q == r || q == e.n || q == e.n + 2;
      NoCname(t, q);
    }
  }

  lemma {:induction false} NoCname(s: State, q: Id)
    ensures F_CNAME !in s.At(q).flags ==> !s.Outdated(q)
  {}

  lemma {:induction false} RecNamed(x: Rec)
    requires F_FORWARD in x.flags && F_DHCP in x.flags && F_CNAME !in x.flags && F_DS !in x.flags && F_DNSKEY !in x.flags && x.ttd == 1000
    ensures var y := ParentRec(x);
      && y.name == PARENT && F_FORWARD in y.flags && F_DHCP in y.flags && F_CNAME !in y.flags
      && F_DS !in y.flags && F_DNSKEY !in y.flags && y.ttd == 1000
  {}

  lemma {:induction false} NewNames(name: Name)
    requires |name| == 3
    ensures !SameName(FAR, NEW) && !SameName(PARENT, NEW) && !SameName(name, NEW) && !SameName(name, PARENT)
  {
    Lengths(name, NEW);
    Lengths(name, PARENT);
    assert Fold(FAR)[0] != Fold(NEW)[0] && Fold(PARENT)[0] != Fold(NEW)[0];
  }

  // The link of the CNAME is to a record of the pool, which is as it was.
  lemma {:induction false} LinkFirm(e: State, t: State, c: Id)
    requires !e.Outdated(c) && t.At(c) == e.At(c)
    requires e.At(c).data.CnameRec? && e.At(c).data.rec.Some? ==> t.At(e.At(c).data.rec.value) == e.At(e.At(c).data.rec.value)
    ensures !t.Outdated(c)
  {}

  lemma {:induction false} SearchFails(e: State, t: State, c: Id, r: Id, x: Rec)
    requires Pair(e, c, r) && Parented(e, t, x) && IsLease(x) && F_IMMORTAL !in x.flags
    ensures TakeSlot(t, 1, false, false).internal && TakeSlot(t, 1, false, false).s == t && TakeSlot(t, 1, false, false).rec.None?
  {
    hide Bucket, Dynamic, IsLease, SameName, ScanTable, ScanBucket, Parented;
    AllQuiet(e, t, c, r, x);
    forall k, q: Id | 0 <= k < |t.table| && q in t.table[k] ensures !Expired(1, Get(t.recs, q)) {
      assert Quiet(t, q, NEW, 1, {F_FORWARD, F_IPV4});
    }
    TableIdle(t, 0, 1);
    NameKept(e, t, c, r, x);
    var y := t.At(c);
    assert ScanFree(t, Some(y.name), Some(y.data), 1, y.flags).s == t;
    assert t.lru == [r, c] && Tail(t) == c && InUse(y.flags) by { SameLru(e, t, x); }
    hide ScanFree;
    assert TakeSlot(t, 1, true, true) == Slot(t, None, 1, None, true);
  }

  lemma {:induction false} SameLru(e: State, t: State, x: Rec)
    requires Parented(e, t, x)
    ensures t.lru == e.lru && t.err == e.err
  {}

  // The scan for the CNAME's own name stops at the entry of the parent.
  lemma {:induction false} NameKept(e: State, t: State, c: Id, r: Id, x: Rec)
    requires Pair(e, c, r) && Parented(e, t, x) && IsLease(x) && F_IMMORTAL !in x.flags
    ensures ScanBucket(t, t.BucketOf(PARENT), 0, PARENT, 1, {F_FORWARD, F_CNAME}, None).s == t
  {
    hide Bucket, Dynamic, IsLease, SameName;
    LeaseFacts(x);
    RecNamed(x);
    NewNames(x.name);
    var b := t.BucketOf(PARENT);
    assert ParentedAt(e, t, x, b);
    var k := |Ahead(e, x, b)|;
    assert t.table[b][k] == e.n + 2 && t.At(e.n + 2) == ParentRec(x) && t.At(e.n) == x;
    Itself(PARENT);
    forall j | 0 <= j < k ensures Quiet(t, t.table[b][j], PARENT, 1, {F_FORWARD, F_CNAME}) {
      assert t.table[b][j] == e.n;
    }
    BucketHit(t, b, 0, k, PARENT, 1, {F_FORWARD, F_CNAME});
  }

  lemma {:induction false} InsertFails(e: State, t: State, c: Id, r: Id, x: Rec)
    requires Pair(e, c, r) && Parented(e, t, x) && IsLease(x) && F_IMMORTAL !in x.flags
    ensures Insert(t, Some(NEW), Some(Ip(NO_ADDR)), 1, 100, {F_FORWARD, F_IPV4}, true) == Outcome(t.(err := true), None)
  {
    hide Bucket, Dynamic, IsLease, SameName, ScanBucket, TakeSlot, Parented, Quiet;
    AllQuiet(e, t, c, r, x);
    BucketIdle(t, t.BucketOf(NEW), 0, NEW, 1, {F_FORWARD, F_IPV4});
    SearchFails(e, t, c, r, x);
    SameLru(e, t, x);
  }

  // A run after which nothing has expired, the LRU list is not empty and no name of the
  // new record's is taken, and yet its insert fails.
  lemma {:induction false} InternalReached(mix: Mix)
    ensures exists ops: seq<Op> :: Allowed(Initial(2, mix), ops) && var s := After(Initial(2, mix), ops);
      var t := AddName(s, Lease(97, false), 2, {});
      && Inv(s) && Ready(s, Lease(97, false), 2) && t.lru != [] && TakeSlot(t, 1, false, false).internal
      && Insert(t, Some(NEW), Some(Ip(NO_ADDR)), 1, 100, {F_FORWARD, F_IPV4}, true) == Outcome(t.(err := true), None)
  {
    hide Bucket, Inv, Initial, Allowed, After, Ready, AddName, Insert, TakeSlot, Parented, Pair;
    var x := Lease(97, false);
    assert IsLease(x);
    var ops, s, c, r := PairMade(mix);
    PairParts(s, c, r);
    DynamicReady(s, x);
    ParentFirst(s, x);
    var t := AddName(s, x, 2, {});
    SearchFails(s, t, c, r, x);
    InsertFails(s, t, c, r, x);
    SameLru(s, t, x);
  }

  lemma {:induction false} PairParts(s: State, c: Id, r: Id)
    requires Pair(s, c, r)
    ensures Dynamic(s) && Inv(s) && s.lru != []
  {
    hide Inv;
  }
}
