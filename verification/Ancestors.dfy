/**
 make_non_terminals over successive calls: what it keeps of the invariant, and when
 it keeps chains in order.
 */
module Ancestors {
  import opened Names
  import opened Records
  import opened State
  import opened Keeps
  import opened NonTerminals

  // The invariant but for the order of chains.
  ghost predicate Rest(s: State) {
    && PoolOk(s) && RecsOk(s) && ChainsOk(s) && FindableOk(s)
    && LruOk(s) && UidsOk(s) && LinksOk(s) && BigOk(s)
  }

  // ---------- changes outside the pool ----------

  ghost predicate PoolSame(s: State, t: State) {
    && t == s.(recs := t.recs, table := t.table, spare := t.spare)
    && (forall p: Id :: p < s.n ==> Get(t.recs, p) == Get(s.recs, p) && (p in s.recs ==> p in t.recs))
    && (forall r: Id :: Get(t.recs, r).data == Get(s.recs, r).data || !Get(t.recs, r).data.CnameRec?)
  }

  lemma {:induction false} PoolKeeps(s: State, t: State)
    requires PoolOk(s) && RecsOk(s) && LruOk(s) && UidsOk(s) && LinksOk(s) && BigOk(s) && PoolSame(s, t)
    ensures PoolOk(t) && RecsOk(t) && LruOk(t) && UidsOk(t) && LinksOk(t) && BigOk(t)
  {
    LruSame(s, t);
    assert BigSet(t) == BigSet(s);
  }

  lemma {:induction false} LruSame(s: State, t: State)
    requires PoolOk(s) && LruOk(s) && PoolSame(s, t)
    ensures LruOk(t)
  {
    forall i | 0 <= i < |s.lru| ensures Get(t.recs, s.lru[i]) == Get(s.recs, s.lru[i]) {
      assert s.lru[i] in s.lru;
    }
  }

  // Every record that was in a bucket and is not `r` still is.
  lemma {:induction false} FindableKeeps(s: State, t: State, r: Id)
    requires FindableOk(s) && PoolOk(s) && PoolSame(s, t) && s.n <= r && |t.table| == |s.table|
    requires forall b, p: Id :: 0 <= b < |s.table| && p in s.table[b] && p != r ==> p in t.table[b]
    ensures FindableOk(t)
  {
    hide Bucket;
    forall p: Id | p in t.lru && InUse(Get(t.recs, p).flags) ensures t.Hashed(p) {
      assert p in s.lru && s.Hashed(p) && t.Home(p) == s.Home(p);
    }
  }

  // ---------- extending an entry ----------

  lemma {:induction false} ExtendRest(s: State, r: Id, src: Rec)
    requires Rest(s) && s.n <= r && Static(s.At(r).flags)
    ensures Rest(Extend(s, r, src))
  {
    hide Bucket, PoolOk, RecsOk, ChainsOk, FindableOk, LruOk, UidsOk, LinksOk, BigOk;
    var t := Extend(s, r, src);
    if t != s {
      Frame(s.recs, t.recs, r, t.At(r));
      assert PoolSame(s, t);
      PoolKeeps(s, t);
      FindableKeeps(s, t, r);
      ExtendChains(s, r, src);
    }
  }

  lemma {:induction false} ExtendChains(s: State, r: Id, src: Rec)
    requires ChainsOk(s) && s.n <= r && Static(s.At(r).flags)
    ensures ChainsOk(Extend(s, r, src))
  {
    hide Bucket;
    var t := Extend(s, r, src);
    if t != s {
      Frame(s.recs, t.recs, r, t.At(r));
      forall b | 0 <= b < |t.table| ensures ChainOk(t, b, t.table[b]) {
        assert ChainOk(s, b, s.table[b]);
        forall p: Id | p in t.table[b] ensures EntryOk(t, p, b) {
          assert EntryOk(s, p, b) && t.Home(p) == s.Home(p);
        }
      }
    }
  }

  // Extending makes a mortal entry immortal where it stands.
  predicate Promotes(s: State, r: Id, src: Rec) {
    F_IMMORTAL !in s.At(r).flags && F_IMMORTAL in src.flags
  }

  // It keeps the chains in order if and only if it promotes no entry, or a reverse
  // one, or one that only immortal forward entries follow.
  lemma {:induction false} ExtendOrder(s: State, b: nat, u: nat, src: Rec)
    requires ChainsOk(s) && OrderOk(s) && b < |s.table| && u < |s.table[b]|
    ensures var r := s.table[b][u];
      OrderOk(Extend(s, r, src)) <==>
        !Promotes(s, r, src) || F_REVERSE in s.At(r).flags || forall j :: u < j < |s.table[b]| ==> Segment(Get(s.recs, s.table[b][j]).flags) == 2
  {
    hide Bucket;
    var r, t := s.table[b][u], Extend(s, s.table[b][u], src);
    assert ChainOk(s, b, s.table[b]) && Ordered(s.recs, s.table[b]);
    if t != s {
      Frame(s.recs, t.recs, r, t.At(r));
    }
    OrderAt(s, t, r, b);
    hide OrderOk, ChainsOk, Ordered, NoDup, ChainOk;
    if Promotes(s, r, src) {
      PromotionOrder(s.recs, s.table[b], u);
    } else {
      SameSegments(s.recs, t.recs, s.table[b]);
    }
  }

  lemma {:induction false} SameSegments(recs: map<Id, Rec>, recs': map<Id, Rec>, c: seq<Id>)
    requires Ordered(recs, c) && forall r: Id :: r in c ==> Segment(Get(recs', r).flags) == Segment(Get(recs, r).flags)
    ensures Ordered(recs', c)
  {
    assert forall i :: 0 <= i < |c| ==> c[i] in c;
  }

  // Only the chain of the record that changed may be out of order.
  lemma {:induction false} OrderAt(s: State, t: State, r: Id, b: nat)
    requires ChainsOk(s) && OrderOk(s) && b < |s.table| && r in s.table[b] && t.table == s.table
    requires forall p: Id :: p != r ==> Get(t.recs, p) == Get(s.recs, p)
    ensures OrderOk(t) <==> Ordered(t.recs, s.table[b])
  {
    hide Ordered, ChainsOk;
    forall b' | 0 <= b' < |s.table| && b' != b ensures Ordered(t.recs, s.table[b']) {
      OtherOrder(s, t, r, b, b');
    }
  }

  lemma {:induction false} OtherOrder(s: State, t: State, r: Id, b: nat, b': nat)
    requires ChainsOk(s) && OrderOk(s) && b < |s.table| && b' < |s.table| && b != b' && r in s.table[b]
    requires forall p: Id :: p != r ==> Get(t.recs, p) == Get(s.recs, p)
    ensures Ordered(t.recs, s.table[b'])
  {
    hide Bucket;
    assert ChainOk(s, b, s.table[b]) && ChainOk(s, b', s.table[b']) && Ordered(s.recs, s.table[b']);
    assert EntryOk(s, r, b);
    assert r !in s.table[b'] by {
      assert r in s.table[b'] ==> EntryOk(s, r, b');
    }
    SameSegments(s.recs, t.recs, s.table[b']);
  }

  lemma {:induction false} PromotionOrder(recs: map<Id, Rec>, c: seq<Id>, u: nat)
    requires Ordered(recs, c) && NoDup(c) && u < |c| && F_IMMORTAL !in Get(recs, c[u]).flags
    ensures var x := Get(recs, c[u]);
      Ordered(recs[c[u] := x.(flags := x.flags + {F_IMMORTAL})], c) <==>
      F_REVERSE in x.flags || forall j :: u < j < |c| ==> Segment(Get(recs, c[j]).flags) == 2
  {
    var x := Get(recs, c[u]);
    var recs' := recs[c[u] := x.(flags := x.flags + {F_IMMORTAL})];
    Frame(recs, recs', c[u], x.(flags := x.flags + {F_IMMORTAL}));
    if Ordered(recs', c) && F_REVERSE !in x.flags {
      forall j | u < j < |c| ensures Segment(Get(recs, c[j]).flags) == 2 {
        assert Segment(Get(recs', c[u]).flags) <= Segment(Get(recs', c[j]).flags);
      }
    }
  }

  // ---------- creating an entry ----------

  // A static record is put in the table.
  lemma {:induction false} PutRest(s: State, r: Id, x: Rec)
    requires Rest(s) && s.n <= r && Static(x.flags) && (x.data == s.At(r).data || !x.data.CnameRec?)
    requires forall b :: 0 <= b < |s.table| ==> r !in s.table[b]
    ensures Rest(AddStatic(s, r, x)) && (OrderOk(s) ==> OrderOk(AddStatic(s, r, x)))
  {
    hide Bucket, PoolOk, RecsOk, ChainsOk, FindableOk, LruOk, UidsOk, LinksOk, BigOk, OrderOk, Hash;
    var s', t := s.(recs := s.recs[r := x]), AddStatic(s, r, x);
    HashTable(s', r);
    Frame(s.recs, s'.recs, r, x);
    assert PoolSame(s, t);
    PoolKeeps(s, t);
    FindableKeeps(s, t, r);
    PutChains(s, r, x);
  }

  lemma {:induction false} PutChains(s: State, r: Id, x: Rec)
    requires ChainsOk(s) && s.n <= r && Static(x.flags) && forall b :: 0 <= b < |s.table| ==> r !in s.table[b]
    ensures ChainsOk(AddStatic(s, r, x)) && (OrderOk(s) ==> OrderOk(AddStatic(s, r, x)))
  {
    hide Bucket, Place;
    var s' := s.(recs := s.recs[r := x]);
    var b, t := s'.Home(r), AddStatic(s, r, x);
    Frame(s.recs, s'.recs, r, x);
    var c := s.table[b];
    assert ChainOk(s, b, c);
    InsertedFacts(c, Place(s'.recs, c, x.flags), r);
    forall b' | 0 <= b' < |t.table| ensures ChainOk(t, b', t.table[b']) {
      assert ChainOk(s, b', s.table[b']);
      forall p: Id | p in t.table[b'] ensures EntryOk(t, p, b') {
        if p != r {
          assert EntryOk(s, p, b') && t.Home(p) == s.Home(p);
        } else {
          assert b' == b && t.Home(r) == b;
        }
      }
    }
    if OrderOk(s) {
      CreateOrder(s, s', r, x);
    }
  }

  lemma {:induction false} CreateRest(s: State, r: Id, name: Name, src: Rec)
    requires Rest(s) && s.n <= r && Named(src) && forall b :: 0 <= b < |s.table| ==> r !in s.table[b]
    ensures Rest(Create(s, r, name, src)) && (OrderOk(s) ==> OrderOk(Create(s, r, name, src)))
  {
    hide Bucket, Rest, OrderOk, Hash;
    PutRest(s, r, Made(s, r, name, src));
  }

  lemma {:induction false} CreateOrder(s: State, s': State, r: Id, x: Rec)
    requires OrderOk(s) && s' == s.(recs := s.recs[r := x]) && forall b :: 0 <= b < |s.table| ==> r !in s.table[b]
    ensures OrderOk(Hash(s', r))
  {
    hide Bucket, Place;
    Frame(s.recs, s'.recs, r, x);
    forall b | 0 <= b < |s.table| ensures Ordered(s'.recs, s.table[b]) {
      assert Ordered(s.recs, s.table[b]);
      SameSegments(s.recs, s'.recs, s.table[b]);
    }
    InsertedOrdered(s'.recs, s.table[s'.Home(r)], r);
  }

  // ---------- taking an entry out ----------

  lemma {:induction false} ClearedRest(s: State, b: nat, u: nat, t: State)
    requires Rest(s) && b < |s.table| && u < |s.table[b]| && s.n <= s.table[b][u]
    requires t == Unhash(s, b, u).(spare := t.spare, recs := t.recs) && (t.recs == s.recs || t.recs == s.recs - {s.table[b][u]})
    ensures Rest(t) && (OrderOk(s) ==> OrderOk(t))
  {
    hide Bucket, PoolOk, RecsOk, FindableOk, LruOk, UidsOk, LinksOk, BigOk;
    var r, c := s.table[b][u], s.table[b];
    assert ChainOk(s, b, c);
    CutFacts(c, u);
    forall p: Id ensures Get(t.recs, p) == Get(s.recs, p) || (p == r && Get(t.recs, p) == BLANK) {}
    assert PoolSame(s, t);
    PoolKeeps(s, t);
    FindableKeeps(s, t, r);
    forall b' | 0 <= b' < |t.table| ensures ChainOk(t, b', t.table[b']) && (OrderOk(s) ==> Ordered(t.recs, t.table[b'])) {
      ClearedChain(s, b, u, t, b');
    }
  }

  lemma {:induction false} ClearedChain(s: State, b: nat, u: nat, t: State, b': nat)
    requires ChainsOk(s) && b < |s.table| && u < |s.table[b]| && b' < |s.table|
    requires t == Unhash(s, b, u).(spare := t.spare, recs := t.recs) && (t.recs == s.recs || t.recs == s.recs - {s.table[b][u]})
    ensures ChainOk(t, b', t.table[b']) && (OrderOk(s) ==> Ordered(t.recs, t.table[b']))
  {
    hide Bucket;
    var r, c := s.table[b][u], s.table[b];
    assert ChainOk(s, b, c) && ChainOk(s, b', s.table[b']) && EntryOk(s, r, b);
    CutFacts(c, u);
    forall p: Id | p in t.table[b'] ensures EntryOk(t, p, b') && Get(t.recs, p) == Get(s.recs, p) {
      assert p in s.table[b'] && EntryOk(s, p, b') && p != r;
      assert t.Home(p) == s.Home(p);
    }
    if OrderOk(s) {
      assert Ordered(s.recs, s.table[b']);
      CutOrdered(s.recs, c, u);
      SameSegments(s.recs, t.recs, t.table[b']);
    }
  }

  lemma {:induction false} ClearRest(s: State, b: nat, u: nat, name: Name, src: Rec)
    requires Rest(s) && b < |s.table| && u <= |s.table[b]|
    ensures var t := Clear(s, b, u, name, TypeOf(src.flags));
      Rest(t) && (OrderOk(s) ==> OrderOk(t))
    decreases |s.table[b]| - u
  {
    hide Bucket, Rest, Fits, OrderOk;
    if u < |s.table[b]| {
      var r := s.table[b][u];
      if Empty(s, r, name, TypeOf(src.flags)) {
        RestStatic(s, r, name, src);
        var t := Clear(s, b, u, name, TypeOf(src.flags));
        assert t.recs == s.recs || t.recs == s.recs - {r};
        assert t == Unhash(s, b, u).(spare := t.spare, recs := t.recs);
        ClearedRest(s, b, u, t);
      } else {
        ClearRest(s, b, u + 1, name, src);
      }
    }
  }

  lemma {:induction false} RestStatic(s: State, r: Id, name: Name, src: Rec)
    requires Rest(s) && Fits(s, r, name, TypeOf(src.flags))
    ensures Static(s.At(r).flags) && s.n <= r
  {
    hide PoolOk, ChainsOk, FindableOk, LruOk, UidsOk, LinksOk, BigOk, Fits, RecsOk;
    FitsStatic(s, r, name, src);
  }

  // ---------- one ancestor ----------

  lemma {:induction false} CoverRest(s: State, name: Name, src: Rec, heap: Id, malloc: bool)
    requires Rest(s) && Ready(s, src, heap)
    ensures var t := Cover(s, name, src, heap, malloc);
      Rest(t) && Ready(t, src, heap + 1)
  {
    hide Bucket, Rest, Ready, Fits, Extend, Create;
    var found := Same(s, s.table[s.BucketOf(name)], 0, name, TypeOf(src.flags));
    if found.Some? {
      RestStatic(s, found.value, name, src);
      ExtendRest(s, found.value, src);
      FitsMeets(s, found.value, name, src);
      ExtendReady(s, found.value, name, src, heap);
      ReadyUp(Extend(s, found.value, src), src, heap);
    } else if F_DHCP in src.flags && s.spare != [] {
      SpareReady(s, src, heap);
      HeapReady(s, src, heap);
      CreateReady(s.(spare := s.spare[1..]), s.spare[0], name, src, heap, heap + 1);
      SpareRest(s, src, heap);
      CreateRest(s.(spare := s.spare[1..]), s.spare[0], name, src);
    } else if malloc {
      HeapReady(s, src, heap);
      CreateReady(s, heap, name, src, heap, heap + 1);
      Unused(s, src, heap);
      CreateRest(s, heap, name, src);
    } else {
      ReadyUp(s, src, heap);
    }
  }

  lemma {:induction false} Unused(s: State, src: Rec, limit: nat)
    requires Ready(s, src, limit)
    ensures Named(src) && (forall b :: 0 <= b < |s.table| ==> limit !in s.table[b])
    ensures forall b, r: Id :: 0 <= b < |s.table| && r in s.spare ==> r !in s.table[b]
  {
    forall b | 0 <= b < |s.table| ensures limit !in s.table[b] {
      assert limit in s.table[b] ==> Settled(s, limit, limit);
    }
    forall b, r: Id | 0 <= b < |s.table| && r in s.spare ensures r !in s.table[b] {
      assert r in s.table[b] ==> Settled(s, r, limit);
    }
  }

  lemma {:induction false} SpareRest(s: State, src: Rec, limit: nat)
    requires Rest(s) && Ready(s, src, limit) && s.spare != []
    ensures var t := s.(spare := s.spare[1..]);
      Rest(t) && (OrderOk(s) ==> OrderOk(t)) && Named(src) && forall b :: 0 <= b < |t.table| ==> s.spare[0] !in t.table[b]
  {
    hide Bucket, PoolOk, RecsOk, FindableOk, LruOk, UidsOk, LinksOk, BigOk, Ready;
    var t := s.(spare := s.spare[1..]);
    Unused(s, src, limit);
    assert s.spare[0] in s.spare;
    assert PoolSame(s, t);
    PoolKeeps(s, t);
    FindableKeeps(s, t, s.n);
    forall b | 0 <= b < |t.table| ensures ChainOk(t, b, t.table[b]) {
      assert ChainOk(s, b, s.table[b]);
      forall p: Id | p in t.table[b] ensures EntryOk(t, p, b) {
        assert EntryOk(s, p, b) && t.Home(p) == s.Home(p);
      }
    }
  }

  // Where an entry of the name and kind is.
  lemma {:induction false} SameAt(s: State, c: seq<Id>, u: nat, name: Name, type': Flags) returns (j: nat)
    requires u <= |c| && Same(s, c, u, name, type').Some?
    ensures j < |c| && c[j] == Same(s, c, u, name, type').value
    decreases |c| - u
  {
    hide Fits;
    j := u;
    if !Fits(s, c[u], name, type') {
      j := SameAt(s, c, u + 1, name, type');
    }
  }

  // One ancestor: chains stay in order if and only if no entry for it is promoted
  // past a mortal one.
  lemma {:induction false} CoverOrder(s: State, name: Name, src: Rec, heap: Id, malloc: bool)
    requires Rest(s) && OrderOk(s) && Ready(s, src, heap)
    ensures var c := s.table[s.BucketOf(name)]; var found := Same(s, c, 0, name, TypeOf(src.flags));
      OrderOk(Cover(s, name, src, heap, malloc)) <==>
        found.None? || !Promotes(s, found.value, src) || F_REVERSE in s.At(found.value).flags
        || forall j :: Index(c, found.value) < j < |c| ==> Segment(Get(s.recs, c[j]).flags) == 2
  {
    hide Bucket, Ready, Fits, Extend, Create, PoolOk, RecsOk, FindableOk, LruOk, UidsOk, LinksOk, BigOk, OrderOk, ChainsOk;
    var c := s.table[s.BucketOf(name)];
    var found := Same(s, c, 0, name, TypeOf(src.flags));
    if found.Some? {
      ExtendOrder(s, s.BucketOf(name), Index(c, found.value), src);
    } else if F_DHCP in src.flags && s.spare != [] {
      HeapReady(s, src, heap);
      SpareRest(s, src, heap);
      CreateRest(s.(spare := s.spare[1..]), s.spare[0], name, src);
    } else if malloc {
      HeapReady(s, src, heap);
      Unused(s, src, heap);
      CreateRest(s, heap, name, src);
    }
  }

  // ---------- all ancestors ----------

  lemma {:induction false} CoverAllKeeps(s: State, name: Name, i: nat, src: Rec, heap: Id, fails: set<nat>)
    requires Rest(s) && Ready(s, src, heap + i) && i <= |name|
    ensures var t := CoverAll(s, name, i, src, heap, fails);
      && Rest(t) && Ready(t, src, heap + |name|)
      && (OrderOk(s) && F_IMMORTAL !in src.flags ==> OrderOk(t))
    decreases |name| - i
  {
    hide Bucket, Rest, Ready, Cover, OrderOk, Same;
    if i < |name| {
      var t := if name[i] == DOT then Cover(s, name[i + 1..], src, heap + i, i !in fails) else s;
      if name[i] == DOT {
        CoverRest(s, name[i + 1..], src, heap + i, i !in fails);
        if OrderOk(s) {
          CoverOrder(s, name[i + 1..], src, heap + i, i !in fails);
        }
      } else {
        ReadyUp(s, src, heap + i);
      }
      CoverAllKeeps(t, name, i + 1, src, heap, fails);
    }
  }

  // make_non_terminals keeps all of the invariant but the order of chains.
  lemma {:induction false} MakeKeeps(s: State, source: Id, heap: Id, fails: set<nat>)
    requires Rest(s) && Ready(s, s.At(source), heap)
    ensures var t := MakeNonTerminals(s, source, heap, fails);
      Rest(t) && Ready(t, s.At(source), heap + |s.At(source).name|)
  {
    hide Bucket, Ready, Clear, CoverAll, OrderOk, PoolOk, RecsOk, ChainsOk, FindableOk, LruOk, UidsOk, LinksOk, BigOk;
    var src, b := s.At(source), s.Home(source);
    var u := Clear(s, b, 0, src.name, TypeOf(src.flags));
    ClearReady(s, b, 0, src.name, src, heap);
    ClearRest(s, b, 0, src.name, src);
    CoverAllKeeps(u, src.name, 0, src, heap, fails);
  }

  // ---------- one name after another ----------

  // A static record is put in the table and its ancestors are covered.
  function AddName(s: State, x: Rec, limit: Id, fails: set<nat>): State {
    MakeNonTerminals(AddStatic(s, limit, x), limit, limit + 1, fails)
  }

  ghost predicate Fixed(x: Rec) {
    Named(x) && !x.data.CnameRec?
  }

  lemma {:induction false} PutReady(s: State, x: Rec, limit: Id)
    requires Rest(s) && Ready(s, x, limit) && Fixed(x)
    ensures var t := AddStatic(s, limit, x);
      Rest(t) && Ready(t, x, limit + 1) && t.At(limit) == x && (OrderOk(s) ==> OrderOk(t))
  {
    hide Bucket, Rest, Hash, OrderOk;
    var s', t := s.(recs := s.recs[limit := x]), AddStatic(s, limit, x);
    Unused(s, x, limit);
    PutRest(s, limit, x);
    HashTable(s', limit);
    Frame(s.recs, s'.recs, limit, x);
    forall b, p: Id | 0 <= b < |t.table| && p in t.table[b] ensures Settled(t, p, limit + 1) {
      assert p == limit || (p in s.table[b] && Settled(s, p, limit));
    }
  }

  lemma {:induction false} AddNameKeeps(s: State, x: Rec, limit: Id, fails: set<nat>)
    requires Rest(s) && Ready(s, x, limit) && Fixed(x)
    ensures Rest(AddName(s, x, limit, fails)) && Ready(AddName(s, x, limit, fails), x, limit + 1 + |x.name|)
  {
    hide Bucket, Rest, Ready, AddStatic, MakeNonTerminals;
    PutReady(s, x, limit);
    MakeKeeps(AddStatic(s, limit, x), limit, limit + 1, fails);
  }

  // The names are added in order; `limit` is the first record not yet allocated.
  function AddNames(s: State, xs: seq<Rec>, limit: Id, fails: seq<set<nat>>): (out: (State, Id))
    requires |fails| == |xs|
  {
    if xs == [] then (s, limit)
    else
      var n := |xs| - 1;
      var (u, l) := AddNames(s, xs[..n], limit, fails[..n]);
      (AddName(u, xs[n], l, fails[n]), l + 1 + |xs[n].name|)
  }

  lemma {:induction false} NamesKeep(s: State, xs: seq<Rec>, limit: Id, fails: seq<set<nat>>, y: Rec)
    requires Rest(s) && |fails| == |xs| && Ready(s, y, limit) && forall i :: 0 <= i < |xs| ==> Fixed(xs[i])
    ensures var (t, l) := AddNames(s, xs, limit, fails);
      Rest(t) && Ready(t, y, l)
    decreases |xs|
  {
    hide Bucket, Rest, AddName, Ready;
    if xs != [] {
      var n := |xs| - 1;
      ReadyFor(s, limit, y, xs[n]);
      NamesKeep(s, xs[..n], limit, fails[..n], xs[n]);
      var (u, l) := AddNames(s, xs[..n], limit, fails[..n]);
      AddNameKeeps(u, xs[n], l, fails[n]);
      ReadyNamed(s, limit, y);
      ReadyFor(AddName(u, xs[n], l, fails[n]), l + 1 + |xs[n].name|, xs[n], y);
    }
  }

  lemma {:induction false} ReadyNamed(s: State, limit: nat, x: Rec)
    requires Ready(s, x, limit)
    ensures Named(x)
  {}

  lemma {:induction false} ReadyFor(s: State, limit: nat, x: Rec, y: Rec)
    requires Ready(s, x, limit) && Named(y)
    ensures Ready(s, y, limit)
  {}

  // Whatever static names have been added before, and with whatever failures: when
  // allocation succeeds for a name, all its ancestors have entries that last as long
  // as it does, and are known to exist at any time before it expires.
  lemma {:induction false} EveryName(s: State, xs: seq<Rec>, limit: Id, fails: seq<set<nat>>, y: Rec, j: nat, now: int)
    requires Rest(s) && |fails| == |xs| && Ready(s, y, limit) && Fixed(y) && forall i :: 0 <= i < |xs| ==> Fixed(xs[i])
    requires j < |y.name| && y.name[j] == DOT
    ensures var (u, l) := AddNames(s, xs, limit, fails); var t := AddName(u, y, l, {});
      Covered(t, y.name[j + 1..], y) && (!Expired(now, y) ==> Known(t, y.name[j + 1..], now))
  {
    hide Bucket, Rest, Ready, AddNames, MakeNonTerminals, Covered, Known, Expired;
    NamesKeep(s, xs, limit, fails, y);
    var (u, l) := AddNames(s, xs, limit, fails);
    PutReady(u, y, l);
    RestParts(AddStatic(u, l, y));
    EmptyNonTerminals(AddStatic(u, l, y), l, l + 1, j, now);
  }

  lemma {:induction false} RestParts(s: State)
    requires Rest(s)
    ensures ChainsOk(s) && RecsOk(s)
  {
    hide PoolOk, RecsOk, ChainsOk, FindableOk, LruOk, UidsOk, LinksOk, BigOk;
  }
}
