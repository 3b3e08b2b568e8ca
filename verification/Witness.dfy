/**
 Runs from cache_init in which something one might expect of the code does not
 come about.
 */
module Witness {
  import opened Names
  import opened Records
  import opened State
  import opened Keeps
  import opened Ops
  import opened Batch
  import opened Rehash
  import opened Runs
  import opened Exact
  import opened Atomic
  import opened Fair
  import opened Renewal
  import opened Wire
  import opened Pipe

  // ---------- inserts while the table is empty ----------

  ghost predicate Bare(s: State) {
    Inv(s) && !s.err && forall b :: 0 <= b < |s.table| ==> s.table[b] == []
  }

  lemma {:induction false} BareTail(s: State)
    requires Bare(s) && s.lru != []
    ensures Tail(s) < s.n && Tail(s) !in s.pending && !InUse(s.At(Tail(s)).flags) && s.At(Tail(s)).uid == UID_NONE
  {
    hide Bucket, ChainsOk, OrderOk, LruOk, UidsOk, LinksOk, BigOk;
    var r := Tail(s);
    assert r in s.lru && !s.Hashed(r);
  }

  // The record that is taken for a short name.
  function Filled(s: State, name: Name, data: Option<Data>, ttd: int, flags: Flags): Rec
    requires s.lru != []
  {
    Rec(flags, name, if data.Some? then data.value else s.At(Tail(s)).data, ttd, UID_NONE)
  }

  lemma {:induction false} BareInsert(s: State, name: Name, data: Option<Data>, now: int, ttl: nat, flags: Flags, malloc: bool)
    requires Bare(s) && s.lru != [] && F_FORWARD in flags && !LongName(name) && ttl > 0 && Insertable(Some(name), data, flags)
    ensures var t := Grab(s, Tail(s), Filled(s, name, data, now + ttl, flags));
      Insert(s, Some(name), data, now, ttl, flags, malloc) == Outcome(t, Some(Tail(s))) && Bare(t) && |t.lru| == |s.lru| - 1
  {
    hide Bucket, Inv, Insertable;
    BareTail(s);
    var scan := ScanFree(s, Some(name), data, now, flags);
    assert s.table[s.BucketOf(name)] == [];
    assert scan == Scan(s, None, None);
    assert TakeSlot(s, now, F_REVERSE in flags, false) == Slot(s, Some(Tail(s)), 1, None, false);
    var t := Grab(s, Tail(s), Filled(s, name, data, now + ttl, flags));
    assert Insert(s, Some(name), data, now, ttl, flags, malloc) == Outcome(t, Some(Tail(s)));
    var v := InsertEffect(s, Some(name), data, now, ttl, flags, malloc);
  }

  // There are no records but those of the pool.
  ghost predicate Poolish(s: State) {
    s.spare == [] && forall r: Id :: s.n <= r ==> Get(s.recs, r) == BLANK
  }

  lemma {:induction false} BareInitial(n: CInt, mix: Mix)
    ensures var s := Initial(n, mix);
      && Bare(Discard(s)) && Discard(s) == s.(err := false) && |Discard(s).lru| == n && s.mix == mix && Pow2(|s.table|) && |s.table| == NewSize(n)
      && Poolish(s)
  {
    hide Bucket, Inv, Pow2;
    InitialInv(n, mix);
    LinkedFacts(n, mix, n);
    LinkedLength(n, mix, n);
    DiscardKeeps(Initial(n, mix));
  }

  lemma {:induction false} LinkedLength(n: CInt, mix: Mix, k: nat)
    ensures |Linked(n, mix, k).lru| == k
  {
    if k > 0 {
      LinkedLength(n, mix, k - 1);
    }
  }

  lemma {:induction false} Then(s: State, op: Op, ops: seq<Op>)
    requires Enabled(s, op) && Allowed(Step(s, op), ops)
    ensures Allowed(s, [op] + ops) && After(s, [op] + ops) == After(Step(s, op), ops)
  {
    hide Enabled, Step;
    assert ([op] + ops)[0] == op && ([op] + ops)[1..] == ops;
  }

  // ---------- two records in a batch ----------

  ghost predicate Simple(op: Op) {
    && op.Add? && op.name.Some? && F_FORWARD in op.flags && !LongName(op.name.value) && op.ttl > 0
    && Insertable(op.name, op.data, op.flags)
  }

  // The record `r` holds what was inserted, whatever its data.
  ghost predicate Holds(s: State, r: Id, op: Op) {
    && op.Add? && op.name.Some? && r < s.n
    && s.At(r).flags == op.flags && s.At(r).name == op.name.value && s.At(r).ttd == op.now + op.ttl
  }

  lemma {:induction false} AddOne(s: State, a: Op)
    requires Bare(s) && s.lru != [] && Simple(a)
    ensures var t := Step(s, a);
      && Bare(t) && |t.lru| == |s.lru| - 1 && t.table == s.table && t.mix == s.mix && t.n == s.n
      && t.pending == [Tail(s)] + s.pending && Tail(s) !in s.pending
      && Holds(t, Tail(s), a) && t.At(Tail(s)).uid == UID_NONE
      && (forall p: Id :: p in s.pending ==> Get(t.recs, p) == Get(s.recs, p)) && (Poolish(s) ==> Poolish(t))
  {
    hide Bucket, Inv, Insert, Insertable;
    BareTail(s);
    BareInsert(s, a.name.value, a.data, a.now, a.ttl, a.flags, a.malloc);
    Frame(s.recs, Step(s, a).recs, Tail(s), Filled(s, a.name.value, a.data, a.now + a.ttl, a.flags));
  }

  // A batch of two is begun; the later record is at its head.
  lemma {:induction false} Begun(n: CInt, mix: Mix, a: Op, b: Op) returns (ops: seq<Op>, t: State)
    requires n >= 2 && Simple(a) && Simple(b)
    ensures Allowed(Initial(n, mix), ops) && After(Initial(n, mix), ops) == t && Bare(t) && Pow2(|t.table|)
    ensures |t.pending| == 2 && t.pending[0] != t.pending[1] && t.At(t.pending[0]).uid == t.At(t.pending[1]).uid == UID_NONE
    ensures Holds(t, t.pending[1], a) && Holds(t, t.pending[0], b) && |t.table| == NewSize(n) && t.mix == mix
    ensures Poolish(t) && |t.lru| == n - 2 && t.n == n
  {
    hide Bucket, Inv, Initial, Discard, Pow2, Insert, Insertable, Bare, Holds;
    var s := Discard(Initial(n, mix));
    InitialInv(n, mix);
    BareInitial(n, mix);
    AddOne(s, a);
    var u := Step(s, a);
    AddOne(u, b);
    t := Step(u, b);
    HoldsStill(u, t, u.pending[0], a);
    Then(u, b, []);
    Then(s, a, [b] + []);
    Then(Initial(n, mix), Start, [a] + ([b] + []));
    ops := [Start] + ([a] + ([b] + []));
  }

  lemma {:induction false} HoldsStill(s: State, t: State, r: Id, op: Op)
    requires Holds(s, r, op) && t.n == s.n && Get(t.recs, r) == Get(s.recs, r)
    ensures Holds(t, r, op)
  {}

  // ---------- a commit that drops a CNAME which did not dangle ----------

  const CNAME_A := Add(Some([97]), None, 0, 100, {F_FORWARD, F_CNAME}, true)
  const CNAME_B := Add(Some([98]), None, 0, 100, {F_FORWARD, F_CNAME}, true)

  lemma {:induction false} Untyped()
    ensures !Typed({F_FORWARD, F_CNAME}) && !Typed({F_FORWARD, F_NEG, F_NXDOMAIN})
  {}

  // The links that are made: one to nothing, and one to that record.
  lemma {:induction false} ChainLinks(t: State, ra: Id, rb: Id)
    requires t.pending == [rb, ra] && ra != rb && F_CNAME in t.At(ra).flags && F_CNAME in t.At(rb).flags
    requires F_DS !in t.At(rb).flags && F_DNSKEY !in t.At(rb).flags && t.At(rb).uid == UID_NONE
    ensures var u := SetLink(t, rb, None); var v := SetLink(u, ra, Some(rb));
      && v.pending == u.pending == t.pending && v.err == t.err && F_CNAME in u.At(ra).flags && Snag(v, 0, 1)
  {}

  // A chain of two CNAMEs without an answer at its end: [97] is for [98], which is
  // for nothing. Both are dropped, although [97] did not dangle.
  lemma {:induction false} ChainDropped(n: CInt, mix: Mix)
    requires n >= 2
    ensures exists ops: seq<Op> :: Allowed(Initial(n, mix), ops) && var s := After(Initial(n, mix), ops);
      !s.err && exists r: Id :: r in s.pending && !s.Outdated(r) && !EndInsert(s).Hashed(r)
  {
    hide Bucket, Inv, Initial, Pow2, EndInsert, SetLink, Snag, State.Outdated, Allowed, After;
    Untyped();
    var ops, t := Begun(n, mix, CNAME_A, CNAME_B);
    var rb, ra := t.pending[0], t.pending[1];
    ChainLinks(t, ra, rb);
    var u := SetLink(t, rb, None);
    PointKeeps(t, rb, None);
    Further(Initial(n, mix), ops, Point(rb, None));
    var v := SetLink(u, ra, Some(rb));
    PointKeeps(u, ra, Some(rb));
    Further(Initial(n, mix), ops + [Point(rb, None)], Point(ra, Some(rb)));
    SnagDrops(v, 0, 1);
    SnagAt(v, 0, 1);
    CommittedBatch(v);
    PendingHidden(v);
    assert ra in v.pending && !v.Outdated(ra) && !EndInsert(v).Hashed(ra);
    assert After(Initial(n, mix), ops + [Point(rb, None)] + [Point(ra, Some(rb))]) == v;
  }

  // ---------- a lookup that misses a live record ----------

  // The CNAME's target is given five seconds, the CNAME a hundred.
  function Target(b: Name): Op {
    Add(Some(b), Some(Ip(NO_ADDR)), 0, 5, {F_FORWARD, F_IPV4}, true)
  }

  function Cname(a: Name): Op {
    Add(Some(a), None, 0, 100, {F_FORWARD, F_CNAME}, true)
  }

  // Once committed, the target is in front of the CNAME in their chain.
  lemma {:induction false} TargetFirst(t: State, a: Name, b: Name)
    requires Bare(t) && |t.pending| == 2 && t.pending[0] != t.pending[1]
    requires Holds(t, t.pending[0], Cname(a)) && Holds(t, t.pending[1], Target(b)) && t.BucketOf(a) == t.BucketOf(b)
    requires !t.Outdated(t.pending[0])
    ensures EndInsert(t).table[t.BucketOf(a)] == [t.pending[1], t.pending[0]]
    ensures |EndInsert(t).table| == |t.table| && EndInsert(t).mix == t.mix && EndInsert(t).recs == t.recs && EndInsert(t).n == t.n && EndInsert(t).err == t.err
  {
    hide Bucket, Inv;
    var c, r, k := t.pending[0], t.pending[1], t.BucketOf(a);
    var u := Commit(t);
    assert u.pending == [r] && t.table[k] == [] && u.table[k] == [c];
    var v := Commit(u);
    assert SkipReverse(u.recs, [c], 0) == 0;
    assert v.pending == [] && v.table[k] == [r, c];
    assert CommitAll(t) == CommitAll(u) == CommitAll(v) == v;
  }

  // The CNAME `r` is linked to a record of name `b`.
  ghost predicate IsFor(s: State, r: Id, b: Name) {
    s.At(r).data.CnameRec? && s.At(r).data.rec.Some? && s.At(s.At(r).data.rec.value).name == b
  }

  // The CNAME `c` of name `a` comes after its target `r`, of name `b`, in their chain.
  ghost predicate Paired(e: State, c: Id, r: Id, a: Name, b: Name) {
    && Inv(e) && !e.err && c != r && r < e.n && e.BucketOf(b) == e.BucketOf(a) && e.table[e.BucketOf(a)] == [r, c]
    && e.At(c).flags == {F_FORWARD, F_CNAME} && e.At(c).name == a && e.At(c).ttd == 100 && e.At(c).data == CnameRec(Some(r), e.At(r).uid)
    && e.At(r).flags == {F_FORWARD, F_IPV4} && e.At(r).name == b && e.At(r).ttd == 5 && e.At(r).uid != UID_NONE && !e.Outdated(c)
  }

  // Whenever two names share a bucket, there is a run that ends so.
  lemma {:induction false} PairRun(n: CInt, mix: Mix, a: Name, b: Name) returns (ops: seq<Op>, e: State, c: Id, r: Id)
    requires n >= 2 && !LongName(a) && !LongName(b)
    requires Bucket(mix, a, NewSize(n)) == Bucket(mix, b, NewSize(n))
    ensures Allowed(Initial(n, mix), ops) && e == After(Initial(n, mix), ops) && Paired(e, c, r, a, b)
  {
    hide Bucket, Inv, Initial, Pow2, EndInsert, SetLink, Allowed, After, Holds, Paired;
    Untyped();
    var ops', t := Begun(n, mix, Target(b), Cname(a));
    c, r := t.pending[0], t.pending[1];
    LinkTarget(t, a, b);
    var u := SetLink(t, c, Some(r));
    PointKeeps(t, c, Some(r));
    Further(Initial(n, mix), ops', Point(c, Some(r)));
    Further(Initial(n, mix), ops' + [Point(c, Some(r))], End);
    e := EndInsert(u);
    PairAfter(u, a, b);
    ops := ops' + [Point(c, Some(r))] + [End];
  }

  lemma {:induction false} PairAfter(u: State, a: Name, b: Name)
    requires Bare(u) && |u.pending| == 2 && u.pending[0] != u.pending[1] && u.BucketOf(a) == u.BucketOf(b)
    requires Holds(u, u.pending[0], Cname(a)) && Holds(u, u.pending[1], Target(b)) && u.At(u.pending[1]).uid != UID_NONE
    requires !u.Outdated(u.pending[0]) && u.At(u.pending[0]).data == CnameRec(Some(u.pending[1]), u.At(u.pending[1]).uid)
    ensures Paired(EndInsert(u), u.pending[0], u.pending[1], a, b)
  {
    hide Bucket, Inv, EndInsert;
    TargetFirst(u, a, b);
    EndKeeps(u);
  }

  // After it a lookup of one name misses its live CNAME for the other.
  lemma {:induction false} MissedInBucket(n: CInt, mix: Mix, a: Name, b: Name)
    requires n >= 2 && !LongName(a) && !LongName(b)
    requires Bucket(mix, a, NewSize(n)) == Bucket(mix, b, NewSize(n))
    ensures exists ops: seq<Op> :: Allowed(Initial(n, mix), ops) && var s := After(Initial(n, mix), ops);
      exists r: Id :: IsFor(s, r, b) && Wanted(s, r, a, 10, {F_CNAME}) && !Given(s, r, a, 10, {F_CNAME}, false)
  {
    hide Bucket, Inv, Initial, Allowed, After, Wanted, Given;
    var ops, e, c, r := PairRun(n, mix, a, b);
    Missed(e, c, r, a);
    assert IsFor(e, c, b);
  }

  lemma {:induction false} LinkTarget(t: State, a: Name, b: Name)
    requires Bare(t) && |t.pending| == 2 && t.pending[0] != t.pending[1]
    requires Holds(t, t.pending[0], Cname(a)) && Holds(t, t.pending[1], Target(b))
    ensures var c, r := t.pending[0], t.pending[1]; var u := SetLink(t, c, Some(r));
      && u.pending == t.pending && u.table == t.table && u.mix == t.mix && u.err == t.err && F_CNAME in t.At(c).flags
      && Holds(u, c, Cname(a)) && Holds(u, r, Target(b)) && !u.Outdated(c)
      && u.At(c).data == CnameRec(Some(r), u.At(r).uid) && u.At(r).uid != UID_NONE
  {
    hide Inv;
  }

  // The lookup first removes the target, which has expired.
  lemma {:induction false} Missed(e: State, c: Id, r: Id, a: Name)
    requires Inv(e) && e.table[e.BucketOf(a)] == [r, c] && r < e.n && e.At(c).data == CnameRec(Some(r), e.At(r).uid)
    requires e.At(c).flags == {F_FORWARD, F_CNAME} && e.At(c).name == a && e.At(c).ttd == 100
    requires e.At(r).flags == {F_FORWARD, F_IPV4} && e.At(r).ttd == 5
    ensures Wanted(e, c, a, 10, {F_CNAME}) && !Given(e, c, a, 10, {F_CNAME}, false)
  {
    hide Bucket, Inv, Given;
    var l := e.table[e.BucketOf(a)];
    GivenUnlessGone(e, a, 10, {F_CNAME}, false, c);
    assert Gone(e, l, 0, 10) == {} && Doomed(e, r, {}, 10) && Gone(e, l, 1, 10) == {r};
    assert F_CNAME in {F_CNAME} && l[1] == c;
  }

  // ---------- names that share a bucket ----------

  // The lowest bits of a number as a name of letters.
  function BitName(k: nat, len: nat): (name: Name)
    ensures |name| == len
  {
    if len == 0 then [] else [if k % 2 == 0 then 97 else 98] + BitName(k / 2, len - 1)
  }

  lemma {:induction false} BitNamesDiffer(i: nat, j: nat, len: nat)
    requires i < Two(len) && j < Two(len) && i != j
    ensures !SameName(BitName(i, len), BitName(j, len))
    decreases len
  {
    var a, b := BitName(i, len), BitName(j, len);
    assert a[0] == (if i % 2 == 0 then 97 else 98) && b[0] == (if j % 2 == 0 then 97 else 98);
    if i % 2 == j % 2 {
      BitNamesDiffer(i / 2, j / 2, len - 1);
      assert Fold(a)[1..] == Fold(a[1..]) && Fold(b)[1..] == Fold(b[1..]);
    } else {
      assert Fold(a)[0] != Fold(b)[0];
    }
  }

  lemma {:induction false} Pigeonhole(f: seq<nat>, m: nat) returns (i: nat, j: nat)
    requires |f| > m >= 1 && forall k :: 0 <= k < |f| ==> f[k] < m
    ensures i < j < |f| && f[i] == f[j]
    decreases m
  {
    var n, v := |f| - 1, f[|f| - 1];
    if m == 1 {
      return 0, 1;
    } else if v in f[..n] {
      i :| 0 <= i < n && f[i] == v;
      return i, n;
    }
    // `v` takes the place of the largest value.
    var g := seq(n, k requires 0 <= k < n => if f[k] == m - 1 then v else f[k]);
    forall k | 0 <= k < n ensures g[k] < m - 1 && f[k] != v {
      assert f[..n][k] == f[k];
    }
    i, j := Pigeonhole(g, m - 1);
  }

  lemma {:induction false} BucketShared(n: CInt, mix: Mix) returns (a: Name, b: Name)
    ensures !SameName(a, b) && !LongName(a) && !LongName(b) && Bucket(mix, a, NewSize(n)) == Bucket(mix, b, NewSize(n))
  {
    hide Bucket, SameName, Two, NewSize;
    var m := NewSize(n);
    var f := seq(m + 1, k requires 0 <= k <= m => Bucket(mix, BitName(k, 32), m));
    var i, j := Pigeonhole(f, m);
    a, b := BitName(i, 32), BitName(j, 32);
    assert f[i] == Bucket(mix, a, m) && f[j] == Bucket(mix, b, m);
    FourBytes();
    BitNamesDiffer(i, j, 32);
  }

  lemma {:induction false} FourBytes()
    ensures Two(32) == 0x1_0000_0000
  {
    TwoLimit(4);
    assert Limit(1) == 0x100 && Limit(2) == 0x1_0000 && Limit(3) == 0x100_0000;
  }

  // Whatever the mixing table and the size of the cache, there are such names.
  lemma {:induction false} LiveRecordMissed(n: CInt, mix: Mix)
    requires n >= 2
    ensures exists a: Name, b: Name, ops: seq<Op> :: !SameName(a, b) && Allowed(Initial(n, mix), ops) && var s := After(Initial(n, mix), ops);
      exists r: Id :: IsFor(s, r, b) && Wanted(s, r, a, 10, {F_CNAME}) && !Given(s, r, a, 10, {F_CNAME}, false)
  {
    hide Bucket, Inv, Initial, Allowed, After, Wanted, Given, SameName, IsFor;
    var a, b := BucketShared(n, mix);
    MissedInBucket(n, mix, a, b);
  }

  // ---------- a CNAME that is lost when its target is renewed ----------

  // The same answer for the target again, a second later.
  function Again(b: Name): Op {
    Add(Some(b), Some(Ip(NO_ADDR)), 1, 5, {F_FORWARD, F_IPV4}, true)
  }

  // The insert replaces the target `t` of the live CNAME `c`, and `c` is gone with it.
  ghost predicate Loses(s: State, op: Op, t: Id, c: Id) {
    && Enabled(s, op) && Simple(op) && Bearer(s, t, op.name.value, op.flags) && (forall x: Id :: Bearer(s, x, op.name.value, op.flags) ==> x == t)
    && Follows(s, c, t) && s.Hashed(c) && !Expired(op.now, s.At(c)) && !SameName(s.At(c).name, op.name.value)
    && Follows(Step(s, op), c, t) && !Step(s, op).Hashed(c)
  }

  lemma {:induction false} AgainSimple(b: Name)
    requires !LongName(b)
    ensures Simple(Again(b)) && SameName(b, b)
  {
    assert F_IPV4 in {F_FORWARD, F_IPV4};
  }

  lemma {:induction false} PairBehind(e: State, c: Id, r: Id, a: Name, b: Name)
    requires Paired(e, c, r, a, b) && !SameName(a, b)
    ensures Inv(e) && !e.err && r < e.n && Behind(e, c, r) && Follows(e, c, r)
    ensures e.Hashed(c) && !Expired(1, e.At(c)) && !SameName(e.At(c).name, b) && !InTheWay(e.At(c), b, {F_FORWARD, F_IPV4})
  {
    hide Bucket, Inv, SameName;
    var l := e.table[e.Home(r)];
    assert l[0] == r && l[1] == c;
  }

  lemma {:induction false} PairLoses(e: State, c: Id, r: Id, a: Name, b: Name)
    requires Paired(e, c, r, a, b) && !SameName(a, b) && !LongName(b)
    ensures Loses(e, Again(b), r, c)
  {
    hide Bucket, Inv, Insert, SameName, LongName, Paired, Bearer, Follows, Behind, InTheWay, Insertable;
    AgainSimple(b);
    PairBehind(e, c, r, a, b);
    var f: Flags := {F_FORWARD, F_IPV4};
    forall x: Id ensures (Bearer(e, x, b, f) <==> x == r) && (e.Hashed(x) && InTheWay(e.At(x), b, f) ==> !Static(e.At(x).flags)) {
      OnlyBearer(e, c, r, a, b, x);
    }
    RenewalRoom(e, b, Some(Ip(NO_ADDR)), 1, 5, f, true, r);
    Renewed(e, b, Some(Ip(NO_ADDR)), 1, 5, f, true, r, c);
  }

  lemma {:induction false} OnlyBearer(e: State, c: Id, r: Id, a: Name, b: Name, x: Id)
    requires Paired(e, c, r, a, b) && !SameName(a, b) && SameName(b, b)
    ensures var f: Flags := {F_FORWARD, F_IPV4}; (Bearer(e, x, b, f) <==> x == r) && (e.Hashed(x) && InTheWay(e.At(x), b, f) ==> !Static(e.At(x).flags))
  {
    hide Bucket, Inv, SameName;
    if e.Hashed(x) && SameName(e.At(x).name, b) {
      BucketIgnoresCase(e.mix, e.At(x).name, b, |e.table|);
      assert x in [r, c];
    }
  }

  // Renewing a record does not keep all CNAMEs for it: one behind it in its chain goes,
  // although it is live and its link would pass the uid test.
  lemma {:induction false} RenewalLoses(n: CInt, mix: Mix)
    requires n >= 2
    ensures exists ops: seq<Op>, op: Op, t: Id, c: Id :: Allowed(Initial(n, mix), ops) && Loses(After(Initial(n, mix), ops), op, t, c)
  {
    hide Bucket, Inv, Initial, Allowed, After, SameName, Loses, Paired;
    var a, b := BucketShared(n, mix);
    var ops, e, c, r := PairRun(n, mix, a, b);
    PairLoses(e, c, r, a, b);
    assert Loses(After(Initial(n, mix), ops), Again(b), r, c);
  }

  // ---------- a record that is lost in the pipe ----------

  // The reply that a name does not exist.
  const NXDOMAIN := Add(Some([97]), None, 0, 10, {F_FORWARD, F_NEG, F_NXDOMAIN}, true)

  // A child puts the reply in its table and sends it; no parent puts it in its own.
  lemma {:induction false} NxdomainLost(n: CInt, mix: Mix, at: Id -> Ptr, parent: State, rest: seq<Byte>, now: int, late: nat, fails: set<nat>)
    requires n >= 1
    ensures exists ops: seq<Op> :: Allowed(Initial(n, mix), ops) && var child := After(Initial(n, mix), ops);
      && !child.err && (exists r: Id :: r in child.pending && EndInsert(child).Hashed(r))
      && RecvInsert(parent, Output(child, at) + rest, now, late, fails) == Received(Discard(parent), true, rest)
  {
    hide Bucket, Inv, Initial, Discard, Pow2, Insert, Insertable, RecvInsert, EndInsert, Bare, EncodeAll;
    var s := Discard(Initial(n, mix));
    BareInitial(n, mix);
    Untyped();
    assert Simple(NXDOMAIN) by { NxdomainSimple(); }
    AddOne(s, NXDOMAIN);
    var child := Step(s, NXDOMAIN);
    Then(s, NXDOMAIN, []);
    Then(Initial(n, mix), Start, [NXDOMAIN] + []);
    var ops := [Start] + ([NXDOMAIN] + []);
    var r := Tail(s);
    assert child.pending == [r];
    ChildShows(child, r);
    ParentSkips(child, r, at, parent, rest, now, late, fails);
    assert r in child.pending && EndInsert(child).Hashed(r);
    assert After(Initial(n, mix), ops) == child;
  }

  lemma {:induction false} NxdomainSimple()
    ensures Simple(NXDOMAIN)
  {
    hide Typed;
  }

  lemma {:induction false} ChildShows(child: State, r: Id)
    requires Bare(child) && child.pending == [r] && F_CNAME !in child.At(r).flags
    ensures EndInsert(child).Hashed(r) && !child.err
  {
    hide Bucket, Inv, Loose, EndInsert;
    CommittedBatch(child);
    if r in Loose(child, 1) {
      LooseCname(child, 1, r);
    }
  }

  lemma {:induction false} ParentSkips(child: State, r: Id, at: Id -> Ptr, parent: State, rest: seq<Byte>, now: int, late: nat, fails: set<nat>)
    requires !child.err && child.pending == [r] && Holds(child, r, NXDOMAIN)
    ensures RecvInsert(parent, Output(child, at) + rest, now, late, fails) == Received(Discard(parent), true, rest)
  {
    hide Bucket, RecvInsert, EncodeAll, Discard, Typed, Image, Limit;
    Untyped();
    LimitOne(7);
    var w := Sending(child.At(r), at(r));
    assert Sent(child, at) == [w];
    assert SendableAll([w]);
    BatchArrives(parent, [w], rest, now, late, fails);
    var m := ApplyAll(Discard(parent), CarriedAll([w]), 1, now, late, fails);
    assert m.s == Discard(parent);
    EndOfNothing(Discard(parent));
  }

  lemma {:induction false} EndOfNothing(s: State)
    requires s.pending == []
    ensures EndInsert(s) == s
  {}
}
