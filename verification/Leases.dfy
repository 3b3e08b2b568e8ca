/**
 Runs with DHCP leases: an empty entry made for the parent of a lease comes in front
 of the records from the pool, and what then becomes of the chain.
 */
module Leases {
  import opened Names
  import opened Records
  import opened State
  import opened Ops
  import opened Batch
  import opened Rehash
  import opened Runs
  import opened NonTerminals
  import opened Ancestors
  import opened Witness

  const PARENT: Name := [98]

  // A lease of the name whose first label is one letter and whose parent is [98].
  function Lease(letter: Byte, forever: bool): Rec {
    Rec({F_NAMEP, F_DHCP, F_FORWARD, F_REVERSE, F_IPV4} + (if forever then {F_IMMORTAL} else {}),
        [letter, DOT] + PARENT, Ip(NO_ADDR), 1000, UID_NONE)
  }

  ghost predicate IsLease(x: Rec) {
    exists letter: Byte, forever: bool :: letter != DOT && x == Lease(letter, forever)
  }

  lemma {:induction false} LeaseFacts(x: Rec)
    requires IsLease(x)
    ensures TypeOf(x.flags) == {F_DHCP} && F_FORWARD in x.flags && F_REVERSE in x.flags && F_DHCP in x.flags && F_IPV4 in x.flags
    ensures F_CNAME !in x.flags && F_NXDOMAIN !in x.flags && Static(x.flags) && F_DS !in x.flags && F_DNSKEY !in x.flags
    ensures |x.name| == 3 && x.name[0] != DOT && x.name[1] == DOT && x.name[2] != DOT && x.name[2..] == PARENT && x.ttd == 1000 && x.data == Ip(NO_ADDR)
  {}

  // No entry for the name comes from a lease.
  ghost predicate Unleased(s: State, name: Name) {
    forall b, r: Id :: 0 <= b < |s.table| && r in s.table[b] ==> Unlike(s, r, name)
  }

  ghost predicate Unlike(s: State, r: Id, name: Name) {
    !(F_DHCP in s.At(r).flags && SameName(name, s.At(r).name))
  }

  lemma {:induction false} Unfit(s: State, r: Id, name: Name)
    requires Unlike(s, r, name)
    ensures !Fits(s, r, name, {F_DHCP})
  {
    hide SameName, State.Outdated;
  }

  lemma {:induction false} Lengths(a: Name, b: Name)
    requires |a| != |b|
    ensures !SameName(a, b)
  {
    assert |Fold(a)| == |a| && |Fold(b)| == |b|;
  }

  // ---------- a lease is added ----------

  lemma {:induction false} Hashes(s: State, r: Id, x: Rec)
    requires F_REVERSE in x.flags
    ensures var b := s.BucketOf(x.name);
      AddStatic(s, r, x) == s.(recs := s.recs[r := x], table := s.table[b := [r] + s.table[b]])
  {
    hide Bucket;
    var s' := s.(recs := s.recs[r := x]);
    var c := s.table[s.BucketOf(x.name)];
    assert s'.Home(r) == s.BucketOf(x.name) && Place(s'.recs, c, x.flags) == 0;
    assert Inserted(c, 0, r) == [r] + c;
  }

  lemma {:induction false} NothingCleared(s: State, b: nat, u: nat, name: Name, type': Flags)
    requires b < |s.table| && u <= |s.table[b]| && forall r: Id :: r in s.table[b] ==> !Empty(s, r, name, type')
    ensures Clear(s, b, u, name, type') == s
    decreases |s.table[b]| - u
  {
    hide Fits;
    if u < |s.table[b]| {
      assert s.table[b][u] in s.table[b];
      NothingCleared(s, b, u + 1, name, type');
    }
  }

  lemma {:induction false} OneDot(s: State, x: Rec, heap: Id)
    requires IsLease(x)
    ensures CoverAll(s, x.name, 0, x, heap, {}) == Cover(s, PARENT, x, heap + 1, true)
  {
    hide Bucket, Cover;
    LeaseFacts(x);
    hide IsLease;
    var t := Cover(s, PARENT, x, heap + 1, true);
    assert CoverAll(t, x.name, 3, x, heap, {}) == t;
    assert CoverAll(t, x.name, 2, x, heap, {}) == t;
    assert CoverAll(s, x.name, 1, x, heap, {}) == CoverAll(t, x.name, 2, x, heap, {});
  }

  // Adding a lease hashes it in front and covers its parent.
  lemma {:induction false} LeaseAdded(s: State, x: Rec, limit: Id)
    requires IsLease(x) && Unleased(s, x.name)
    ensures AddName(s, x, limit, {}) == Cover(AddStatic(s, limit, x), PARENT, x, limit + 2, true)
  {
    hide Bucket, Cover, CoverAll, SameName, IsLease;
    LeaseFacts(x);
    Hashes(s, limit, x);
    hide AddStatic;
    var t, b := AddStatic(s, limit, x), s.BucketOf(x.name);
    assert t.At(limit) == x && t.Home(limit) == b;
    forall r: Id | r in t.table[b] ensures !Empty(t, r, x.name, {F_DHCP}) {
      if r == limit {
        assert F_IPV4 in x.flags && F_IPV4 in TYPES;
      } else {
        assert r in s.table[b] && t.At(r) == s.At(r) && Unlike(s, r, x.name);
        Unfit(t, r, x.name);
      }
    }
    NothingCleared(t, b, 0, x.name, {F_DHCP});
    OneDot(t, x, limit + 1);
  }

  // ---------- the parent has no entry yet ----------

  // Only records from the pool are in the table, and none is a reverse one where the
  // parent's entry will be.
  ghost predicate Dynamic(s: State) {
    && Inv(s) && s.spare == []
    && (forall b, r: Id :: 0 <= b < |s.table| && r in s.table[b] ==> r < s.n)
    && (forall r: Id :: s.n <= r ==> Get(s.recs, r) == BLANK)
    && SkipReverse(s.recs, s.table[s.BucketOf(PARENT)], 0) == 0
  }

  lemma {:induction false} DynamicUnleased(s: State, name: Name)
    requires Dynamic(s)
    ensures Unleased(s, name)
  {
    hide Bucket, PoolOk, FindableOk, OrderOk, LruOk, UidsOk, LinksOk, BigOk, ChainsOk, SameName, SkipReverse;
    forall b, r: Id | 0 <= b < |s.table| && r in s.table[b] ensures Unlike(s, r, name) {
      assert !Static(Get(s.recs, r).flags);
    }
  }

  lemma {:induction false} DynamicReady(s: State, x: Rec)
    requires Dynamic(s) && IsLease(x)
    ensures Rest(s) && OrderOk(s) && Ready(s, x, s.n) && !x.data.CnameRec?
  {
    LeaseFacts(x);
    hide Bucket, PoolOk, FindableOk, OrderOk, LruOk, UidsOk, LinksOk, BigOk, ChainsOk, SkipReverse, IsLease;
    forall b, r: Id | 0 <= b < |s.table| && r in s.table[b] ensures Settled(s, r, s.n) {}
  }

  // What the parent's entry says.
  function ParentRec(x: Rec): Rec {
    Rec(x.flags + {F_NAMEP} - TYPES - {F_REVERSE}, PARENT, BLANK.data, x.ttd, BLANK.uid)
  }

  function Ahead(s: State, x: Rec, b: nat): seq<Id> {
    if b == s.BucketOf(x.name) then [s.n] else []
  }

  // The lease is in front of its chain; the entry of the parent is in front of the pool
  // records of its bucket.
  ghost predicate Parented(s: State, t: State, x: Rec) {
    && t == s.(recs := s.recs[s.n := x][s.n + 2 := ParentRec(x)], table := t.table) && |t.table| == |s.table|
    && forall b :: 0 <= b < |s.table| ==> ParentedAt(s, t, x, b)
  }

  ghost predicate ParentedAt(s: State, t: State, x: Rec, b: nat) {
    && b < |s.table| && b < |t.table|
    && t.table[b] == Ahead(s, x, b) + (if b == s.BucketOf(PARENT) then [s.n + 2] else []) + s.table[b]
  }

  lemma {:induction false} ParentFirst(s: State, x: Rec)
    requires Dynamic(s) && IsLease(x) && F_IMMORTAL !in x.flags
    ensures Parented(s, AddName(s, x, s.n, {}), x)
  {
    hide Bucket, SameName, Inv, AddName, IsLease, Cover, SkipReverse, Hash;
    LeaseFacts(x);
    DynamicUnleased(s, x.name);
    LeaseAdded(s, x, s.n);
    ParentMade(s, x);
    Hashes(s, s.n, x);
    var u := AddStatic(s, s.n, x);
    ParentHashed(s, u, x);
  }

  lemma {:induction false} ParentMade(s: State, x: Rec)
    requires Dynamic(s) && IsLease(x) && F_IMMORTAL !in x.flags
    ensures var u := AddStatic(s, s.n, x);
      Cover(u, PARENT, x, s.n + 2, true) == Hash(u.(recs := u.recs[s.n + 2 := ParentRec(x)]), s.n + 2)
  {
    hide Bucket, SameName, Inv, IsLease, Hash, SkipReverse;
    LeaseFacts(x);
    DynamicUnleased(s, PARENT);
    Hashes(s, s.n, x);
    var u := AddStatic(s, s.n, x);
    hide AddStatic;
    NoneFound(s, u, x, u.table[u.BucketOf(PARENT)]);
    assert Get(s.recs, s.n + 2) == BLANK && Get(u.recs, s.n + 2) == BLANK;
  }

  lemma {:induction false} ParentHashed(s: State, u: State, x: Rec)
    requires Dynamic(s) && F_REVERSE in x.flags && F_IMMORTAL !in x.flags
    requires var h := s.BucketOf(x.name); u == s.(recs := s.recs[s.n := x], table := s.table[h := [s.n] + s.table[h]])
    ensures Parented(s, Hash(u.(recs := u.recs[s.n + 2 := ParentRec(x)]), s.n + 2), x)
  {
    hide Bucket, Inv, Hash, Place;
    var u', b := u.(recs := u.recs[s.n + 2 := ParentRec(x)]), s.BucketOf(PARENT);
    var c, d := s.table[b], u.table[b];
    assert d == Ahead(s, x, b) + c;
    var k := |d| - |c|;
    ParentPlaced(s, u', x, c, d);
    var t := Hash(u', s.n + 2);
    HashAt(u', s.n + 2, b, k);
    assert d[..k] == Ahead(s, x, b) && d[k..] == c;
    hide SkipReverse, Dynamic;
    forall b' | 0 <= b' < |s.table| ensures ParentedAt(s, t, x, b') {
      assert b' != b ==> t.table[b'] == u.table[b'] && Ahead(s, x, b') + [] + s.table[b'] == u.table[b'];
    }
  }

  lemma {:induction false} ParentPlaced(s: State, u: State, x: Rec, c: seq<Id>, d: seq<Id>)
    requires Dynamic(s) && F_REVERSE in x.flags && F_IMMORTAL !in x.flags && c == s.table[s.BucketOf(PARENT)]
    requires u.recs == s.recs[s.n := x][s.n + 2 := ParentRec(x)] && (d == c || d == [s.n] + c)
    ensures Place(u.recs, d, ParentRec(x).flags) == |d| - |c| && F_REVERSE !in ParentRec(x).flags
  {
    hide Bucket, Inv, SkipReverse;
    SkipFirst(s.recs, u.recs, c, d, s.n, s.n);
    assert F_REVERSE !in x.flags + {F_NAMEP} - TYPES - {F_REVERSE};
    assert F_IMMORTAL !in x.flags + {F_NAMEP} - TYPES - {F_REVERSE};
  }

  lemma {:induction false} HashAt(s: State, r: Id, b: nat, k: nat)
    requires b == s.Home(r) && Place(s.recs, s.table[b], s.At(r).flags) == k
    ensures Hash(s, r) == SetChain(s, b, Inserted(s.table[b], k, r))
  {
    hide Bucket, Place;
  }

  lemma {:induction false} NoneFound(s: State, u: State, x: Rec, d: seq<Id>)
    requires Unleased(s, PARENT) && |x.name| == 3 && u == AddStatic(s, s.n, x) && u.recs == s.recs[s.n := x] && u.mix == s.mix && |u.table| == |s.table|
    requires d == u.table[u.BucketOf(PARENT)] && forall r: Id :: r in d ==> r == s.n || r in s.table[s.BucketOf(PARENT)]
    ensures Same(u, d, 0, PARENT, {F_DHCP}) == None
  {
    hide Bucket, SameName, Fits, AddStatic;
    forall r: Id | r in d ensures !Fits(u, r, PARENT, {F_DHCP}) {
      if r == s.n {
        Lengths(PARENT, x.name);
      } else {
        assert Unlike(s, r, PARENT);
      }
      Unfit(u, r, PARENT);
    }
    if Same(u, d, 0, PARENT, {F_DHCP}).Some? {
      assert false;
    }
  }

  // A reverse entry in front is passed, and nothing else.
  lemma {:induction false} SkipFirst(recs: map<Id, Rec>, recs': map<Id, Rec>, c: seq<Id>, d: seq<Id>, l: Id, n: nat)
    requires (d == c || d == [l] + c) && SkipReverse(recs, c, 0) == 0 && F_REVERSE in Get(recs', l).flags
    requires forall r: Id :: r in c ==> Get(recs', r) == Get(recs, r)
    ensures SkipReverse(recs', d, 0) == |d| - |c|
  {
    if c != [] {
      assert c[0] in c && F_REVERSE !in Get(recs', c[0]).flags;
    }
    if d != c {
      assert |c| > 0 ==> d[1] == c[0];
      assert SkipReverse(recs', d, 1) == 1;
    }
  }

  // ---------- a lease for ever with the same parent ----------

  lemma {:induction false} ParentedUnleased(s: State, t: State, x: Rec, name: Name)
    requires Dynamic(s) && Parented(s, t, x) && |name| == 3 && !SameName(name, x.name)
    ensures Unleased(t, name)
  {
    hide Bucket, SameName, Inv, SkipReverse;
    DynamicUnleased(s, name);
    Lengths(name, PARENT);
    forall b, r: Id | 0 <= b < |t.table| && r in t.table[b] ensures Unlike(t, r, name) {
      assert ParentedAt(s, t, x, b);
      if r != s.n && r != s.n + 2 {
        assert r in s.table[b] && Unlike(s, r, name) && t.At(r) == s.At(r);
      }
    }
  }

  // The chain of the parent once both leases are there.
  ghost predicate BothLeased(s: State, w: State, x: Rec, y: Rec) {
    && w.n == s.n && w.mix == s.mix && |w.table| == |s.table|
    && var b := s.BucketOf(PARENT);
    && w.table[b] == (if b == s.BucketOf(y.name) then [s.n + 4] else []) + Ahead(s, x, b) + [s.n + 2] + s.table[b]
    && w.At(s.n + 4) == y && w.At(s.n) == x && w.At(s.n + 2) == ParentRec(x).(flags := ParentRec(x).flags + {F_IMMORTAL})
    && forall p: Id :: p < s.n ==> Get(w.recs, p) == Get(s.recs, p)
  }

  lemma {:induction false} ParentPromoted(s: State, t: State, x: Rec, y: Rec)
    requires Dynamic(s) && Parented(s, t, x) && IsLease(x) && IsLease(y) && F_IMMORTAL !in x.flags && F_IMMORTAL in y.flags
    requires !SameName(y.name, x.name)
    ensures BothLeased(s, AddName(t, y, s.n + 4, {}), x, y)
  {
    hide Bucket, SameName, Inv, AddName, IsLease, SkipReverse, Same, AddStatic, Dynamic, BothLeased, Cover;
    LeaseFacts(x);
    LeaseFacts(y);
    ParentedUnleased(s, t, x, y.name);
    LeaseAdded(t, y, s.n + 4);
    Hashes(t, s.n + 4, y);
    assert ParentedAt(s, t, x, s.BucketOf(PARENT));
    ParentExtended(s, t, AddStatic(t, s.n + 4, y), x, y);
  }

  lemma {:induction false} ParentExtended(s: State, t: State, v: State, x: Rec, y: Rec)
    requires t == s.(recs := s.recs[s.n := x][s.n + 2 := ParentRec(x)], table := t.table) && |t.table| == |s.table|
    requires ParentedAt(s, t, x, s.BucketOf(PARENT))
    requires var h := t.BucketOf(y.name); v == t.(recs := t.recs[s.n + 4 := y], table := t.table[h := [s.n + 4] + t.table[h]])
    requires F_FORWARD in x.flags && F_DHCP in x.flags && F_CNAME !in x.flags && F_IMMORTAL !in x.flags && F_IMMORTAL in y.flags
    requires TypeOf(y.flags) == {F_DHCP} && |x.name| == |y.name| == 3
    ensures BothLeased(s, Cover(v, PARENT, y, s.n + 6, true), x, y)
  {
    hide Bucket, Same;
    var b, h := s.BucketOf(PARENT), s.n + 2;
    var pre := (if b == s.BucketOf(y.name) then [s.n + 4] else []) + Ahead(s, x, b);
    assert v.table[b] == pre + [h] + s.table[b];
    ParentFound(v, x, pre, h, s.table[b]);
    assert F_IMMORTAL !in ParentRec(x).flags;
    var e := ParentRec(x).(flags := ParentRec(x).flags + {F_IMMORTAL});
    hide ParentRec;
    assert Cover(v, PARENT, y, s.n + 6, true) == v.(recs := v.recs[h := e]);
  }

  // The entry of the parent is the first that fits.
  lemma {:induction false} ParentFound(v: State, x: Rec, pre: seq<Id>, h: Id, c: seq<Id>)
    requires F_FORWARD in x.flags && F_DHCP in x.flags && F_CNAME !in x.flags && v.At(h) == ParentRec(x)
    requires forall r: Id :: r in pre ==> |v.At(r).name| == 3
    ensures Same(v, pre + [h] + c, 0, PARENT, {F_DHCP}) == Some(h)
  {
    hide SameName;
    var d := pre + [h] + c;
    forall j | 0 <= j < |pre| ensures !Fits(v, d[j], PARENT, {F_DHCP}) {
      assert d[j] == pre[j] && pre[j] in pre;
      Lengths(PARENT, v.At(d[j]).name);
      Unfit(v, d[j], PARENT);
    }
    var f := x.flags + {F_NAMEP} - TYPES - {F_REVERSE};
    assert F_FORWARD in f && F_DHCP in f && F_CNAME !in f;
    assert F_DHCP in {F_DHCP} && SameName(PARENT, PARENT) by { Itself(PARENT); }
    assert Fits(v, h, PARENT, {F_DHCP}) && d[|pre|] == h;
    SameFirst(v, d, 0, |pre|, PARENT, {F_DHCP});
  }

  lemma {:induction false} Itself(name: Name)
    ensures SameName(name, name)
  {}

  lemma {:induction false} SameFirst(s: State, c: seq<Id>, u: nat, j: nat, name: Name, type': Flags)
    requires u <= j < |c| && Fits(s, c[j], name, type') && forall i :: u <= i < j ==> !Fits(s, c[i], name, type')
    ensures Same(s, c, u, name, type') == Some(c[j])
    decreases j - u
  {
    hide Fits;
    if u < j {
      SameFirst(s, c, u + 1, j, name, type');
    }
  }

  // ---------- a chain that no scan of the table gets through ----------

  ghost predicate Dammed(s: State, b: nat, k: nat, now: int) {
    && b < |s.table| && k < |s.table[b]| && Segment(s.At(s.table[b][k]).flags) == 2
    && forall j :: 0 <= j <= k ==> Static(Get(s.recs, s.table[b][j]).flags) && !Expired(now, Get(s.recs, s.table[b][j]))
  }

  ghost predicate Unmoved(s: State, t: State, b: nat) {
    && b < |s.table| == |t.table| && t.table[b] == s.table[b]
    && forall r: Id :: Static(Get(s.recs, r).flags) ==> Get(t.recs, r) == Get(s.recs, r)
  }

  lemma {:induction false} DamHolds(s: State, t: State, b: nat, k: nat, now: int)
    requires Dammed(s, b, k, now) && Unmoved(s, t, b)
    ensures Dammed(t, b, k, now)
  {
    hide Segment, Expired, Static;
  }

  lemma {:induction false} ScanElsewhere(s: State, b: nat, u: nat, b': nat, now: int, flags: Flags, addr: Option<Data>)
    requires b < |s.table| && b' < |s.table| && b' != b && u <= |s.table[b']|
    ensures Unmoved(s, ScanChain(s, b', u, now, flags, addr), b)
    decreases |s.table[b']| - u
  {
    hide Expired, SameReverse;
    if u < |s.table[b']| && Segment(s.At(s.table[b'][u]).flags) != 2 {
      var x, t := s.At(s.table[b'][u]), Evict(s, b', u);
      if Expired(now, x) || SameReverse(x, flags, addr) {
        assert |t.table[b']| == |s.table[b']| - 1 && Unmoved(s, t, b);
        ScanElsewhere(t, b, u, b', now, flags, addr);
      } else {
        ScanElsewhere(s, b, u + 1, b', now, flags, addr);
      }
    }
  }

  lemma {:induction false} ScanStops(s: State, b: nat, u: nat, k: nat, now: int, flags: Flags, addr: Option<Data>)
    requires Dammed(s, b, k, now) && u <= k
    ensures ScanChain(s, b, u, now, flags, addr) == s
    decreases k - u
  {
    hide Expired;
    assert Static(Get(s.recs, s.table[b][u]).flags) && !Expired(now, Get(s.recs, s.table[b][u]));
    if Segment(s.At(s.table[b][u]).flags) != 2 {
      ScanStops(s, b, u + 1, k, now, flags, addr);
    }
  }

  lemma {:induction false} ScanLeaves(s: State, b: nat, k: nat, i: nat, now: int, flags: Flags, addr: Option<Data>)
    requires Dammed(s, b, k, now) && i <= |s.table|
    ensures Unmoved(s, ScanTable(s, i, now, flags, addr), b)
    decreases |s.table| - i
  {
    hide ScanChain, Dammed;
    assert b < |s.table| by { DamIn(s, b, k, now); }
    if i < |s.table| {
      var t := ScanChain(s, i, 0, now, flags, addr);
      if i == b {
        ScanStops(s, b, 0, k, now, flags, addr);
      } else {
        ScanElsewhere(s, b, 0, i, now, flags, addr);
      }
      DamHolds(s, t, b, k, now);
      ScanLeaves(t, b, k, i + 1, now, flags, addr);
    }
  }

  lemma {:induction false} DamIn(s: State, b: nat, k: nat, now: int)
    requires Dammed(s, b, k, now)
    ensures b < |s.table|
  {}

  // ---------- order is lost ----------

  const SHORT := Add(Some(PARENT), Some(Ip(NO_ADDR)), 0, 5, {F_FORWARD, F_IPV4}, true)

  // One record of the parent's name is committed.
  ghost predicate OneRecord(e: State, p: Id) {
    && Dynamic(e) && Holds(e, p, SHORT)
    && forall b :: 0 <= b < |e.table| ==> e.table[b] == if b == e.BucketOf(PARENT) then [p] else []
  }

  lemma {:induction false} OneCommitted(n: CInt, mix: Mix) returns (ops: seq<Op>, e: State, p: Id)
    requires n >= 1
    ensures Allowed(Initial(n, mix), ops) && After(Initial(n, mix), ops) == e && OneRecord(e, p) && e.n == n
  {
    hide Bucket, Inv, Initial, Discard, Pow2, Insert, Insertable, EndInsert, Bare, Dynamic, Holds;
    var s := Discard(Initial(n, mix));
    InitialInv(n, mix);
    BareInitial(n, mix);
    ShortSimple();
    AddOne(s, SHORT);
    var t := Step(s, SHORT);
    p := Tail(s);
    e := EndInsert(t);
    assert t.pending == [p];
    Then(t, End, []);
    Then(s, SHORT, [End] + []);
    Then(Initial(n, mix), Start, [SHORT] + ([End] + []));
    ops := [Start] + ([SHORT] + ([End] + []));
    CommitOne(t, p);
  }

  lemma {:induction false} ShortSimple()
    ensures Simple(SHORT)
  {
    hide Typed;
  }

  lemma {:induction false} CommitOne(t: State, p: Id)
    requires Bare(t) && Poolish(t) && t.pending == [p] && Holds(t, p, SHORT)
    ensures OneRecord(EndInsert(t), p) && EndInsert(t).n == t.n
  {
    hide Bucket, Inv;
    var e, b := Commit(t), t.BucketOf(PARENT);
    EndKeeps(t);
    assert !t.Outdated(p) && e.pending == [] && CommitAll(e) == e;
    assert EndInsert(t) == e;
    assert t.table[b] == [] && e.table[b] == [p];
    assert SkipReverse(e.recs, [p], 0) == 0;
  }

  lemma {:induction false} TwoNames(s: State, x: Rec, y: Rec, limit: Id)
    requires |x.name| == 3
    ensures AddNames(s, [x, y], limit, [{}, {}]).0 == AddName(AddName(s, x, limit, {}), y, limit + 4, {})
  {
    hide AddName;
    var xs: seq<Rec>, fails: seq<set<nat>> := [x, y], [{}, {}];
    assert xs[..1] == [x] && fails[..1] == [{}] && [x][..0] == [];
    assert AddNames(s, [], limit, []) == (s, limit);
    assert AddNames(s, [x], limit, [{}]) == (AddName(s, x, limit, {}), limit + 4);
  }

  // The record of the parent's name expires behind an immortal entry.
  lemma {:induction false} Behind(s: State, w: State, x: Rec, y: Rec, p: Id)
    requires OneRecord(s, p) && BothLeased(s, w, x, y) && IsLease(x) && IsLease(y)
    ensures !OrderOk(w) && p in w.table[w.BucketOf(PARENT)] && Expired(10, w.At(p))
    ensures p in ScanTable(w, 0, 10, {}, None).table[w.BucketOf(PARENT)]
  {
    hide Bucket, Inv, ScanTable, IsLease, SkipReverse;
    LeaseFacts(x);
    LeaseFacts(y);
    var b := w.BucketOf(PARENT);
    var c := w.table[b];
    var k := |c| - 2;
    assert s.table[b] == [p] && c[k] == s.n + 2 && c[k + 1] == p && w.At(p) == s.At(p);
    RecStands(x);
    assert Segment(Get(w.recs, c[k]).flags) == 2 && Segment(Get(w.recs, c[k + 1]).flags) == 1;
    assert !Ordered(w.recs, c);
    assert Dammed(w, b, k, 10);
    ScanLeaves(w, b, k, 0, 10, {}, None);
  }

  lemma {:induction false} RecStands(x: Rec)
    requires F_DHCP in x.flags
    ensures var f := ParentRec(x).flags + {F_IMMORTAL}; Segment(f) == 2 && Static(f)
  {}

  // A record of name [98] is inserted, then leases of its children begin, one that will
  // end and one that will not. The chain is then out of order, and a scan of the table
  // leaves the record in it after it has expired.
  lemma {:induction false} OrderLost(n: CInt, mix: Mix)
    requires n >= 1
    ensures exists ops: seq<Op> :: Allowed(Initial(n, mix), ops) && var s := After(Initial(n, mix), ops);
      var t := AddNames(s, [Lease(97, false), Lease(99, true)], n, [{}, {}]).0;
      && Inv(s) && Ready(s, Lease(97, false), n) && !OrderOk(t)
      && exists p: Id :: p in t.table[t.BucketOf(PARENT)] && Expired(10, t.At(p))
           && p in ScanTable(t, 0, 10, {}, None).table[t.BucketOf(PARENT)]
  {
    hide Bucket, Inv, Initial, Allowed, After, Ready, AddNames, AddName, OrderOk, ScanTable, Expired, BothLeased, Parented, OneRecord, SameName;
    var x, y := Lease(97, false), Lease(99, true);
    assert IsLease(x) && IsLease(y);
    var ops, s, p := OneCommitted(n, mix);
    OneDynamic(s, p);
    DynamicReady(s, x);
    ParentFirst(s, x);
    Differ();
    ParentPromoted(s, AddName(s, x, n, {}), x, y);
    TwoNames(s, x, y, n);
    Behind(s, AddNames(s, [x, y], n, [{}, {}]).0, x, y, p);
  }

  lemma {:induction false} OneDynamic(s: State, p: Id)
    requires OneRecord(s, p)
    ensures Dynamic(s) && Inv(s)
  {
    hide Inv;
  }

  lemma {:induction false} Differ()
    ensures !SameName(Lease(99, true).name, Lease(97, false).name)
  {
    var a, b := Lease(99, true).name, Lease(97, false).name;
    assert Fold(a)[0] != Fold(b)[0];
  }
}
