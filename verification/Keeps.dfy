/**
 The pointer operations keep the invariant.
 */
module Keeps {
  import opened Names
  import opened Records
  import opened State

  // ---------- one record changes ----------

  lemma {:induction false} Frame(recs: map<Id, Rec>, t: map<Id, Rec>, r: Id, x: Rec)
    requires t == recs[r := x]
    ensures forall p: Id :: Get(t, p) == if p == r then x else Get(recs, p)
  {}

  lemma {:induction false} CutOrdered(recs: map<Id, Rec>, c: seq<Id>, k: nat)
    requires Ordered(recs, c) && k < |c|
    ensures Ordered(recs, Cut(c, k))
  {}

  // Record `r` moves to one end of the LRU list.
  lemma {:induction false} MovePool(s: State, t: State, r: Id)
    requires PoolOk(s) && r in s.lru
    requires t.n == s.n && t.pending == s.pending
    requires t.lru == Without(s.lru, r) + [r] || t.lru == [r] + Without(s.lru, r)
    ensures PoolOk(t)
  {
    WithoutFacts(s.lru, r);
  }

  lemma {:induction false} FreeRecs(s: State, t: State, r: Id)
    requires RecsOk(s) && r < s.n && r !in t.pending
    requires t.n == s.n && (forall p: Id :: p in t.pending ==> p in s.pending)
    requires t.recs == s.recs[r := Freed(s.At(r))]
    ensures RecsOk(t)
  {
    Frame(s.recs, t.recs, r, Freed(s.At(r)));
  }

  lemma {:induction false} FreeUids(s: State, t: State, r: Id)
    requires UidsOk(s) && LinksOk(s)
    requires t.n == s.n && t.lastUid == s.lastUid && t.recs == s.recs[r := Freed(s.At(r))]
    ensures UidsOk(t) && LinksOk(t)
  {
    Frame(s.recs, t.recs, r, Freed(s.At(r)));
  }

  lemma {:induction false} FreeBig(s: State, t: State, r: Id)
    requires BigOk(s) && r < s.n
    requires t.n == s.n && t.recs == s.recs[r := Freed(s.At(r))] && t.bigLeft == s.bigLeft
    requires t.bigFree == s.bigFree + if F_BIGNAME in s.At(r).flags then 1 else 0
    ensures BigOk(t)
  {
    Frame(s.recs, t.recs, r, Freed(s.At(r)));
    assert BigSet(t) == BigSet(s) - {r};
  }

  // A freed record goes to the tail: the in-use prefix only shrinks.
  lemma {:induction false} FreeLru(s: State, t: State, r: Id, l: seq<Id>)
    requires t.recs == s.recs[r := Freed(s.At(r))] && t.lru == l + [r] && r !in l
    requires LruOk(s.(lru := l))
    requires t.stamp == s.stamp && t.clock == s.clock
    ensures LruOk(t)
  {
    Frame(s.recs, t.recs, r, Freed(s.At(r)));
    var s' := s.(lru := l);
    forall i, j | 0 <= i < j < |t.lru| && InUse(Get(t.recs, t.lru[j]).flags)
      ensures InUse(Get(t.recs, t.lru[i]).flags) && Stamp(t.stamp, t.lru[j]) < Stamp(t.stamp, t.lru[i])
    {
      assert j < |l| && s'.lru[i] == t.lru[i] && s'.lru[j] == t.lru[j];
    }
  }

  lemma {:induction false} CutLru(s: State, r: Id)
    requires LruOk(s)
    ensures LruOk(s.(lru := Without(s.lru, r)))
  {
    if r in s.lru {
      var k, t := Index(s.lru, r), s.(lru := Without(s.lru, r));
      forall i, j | 0 <= i < j < |t.lru| && InUse(Get(t.recs, t.lru[j]).flags)
        ensures InUse(Get(t.recs, t.lru[i]).flags) && Stamp(t.stamp, t.lru[j]) < Stamp(t.stamp, t.lru[i])
      {
        var i', j' := if i < k then i else i + 1, if j < k then j else j + 1;
        assert t.lru[i] == s.lru[i'] && t.lru[j] == s.lru[j'];
      }
    }
  }

  // ---------- leaving the hash table ----------

  lemma {:induction false} UnhashStatic(s: State, b: nat, u: nat)
    requires Inv(s) && b < |s.table| && u < |s.table[b]| && s.n <= s.table[b][u]
    ensures Inv(Unhash(s, b, u))
  {
    hide Bucket;
    var t := Unhash(s, b, u);
    assert ChainOk(s, b, s.table[b]);
    CutFacts(s.table[b], u);
    CutOrdered(s.recs, s.table[b], u);
    assert ChainsOk(t);
    assert BigSet(t) == BigSet(s);
  }

  lemma {:induction false} EvictChains(s: State, b: nat, u: nat, t: State)
    requires ChainsOk(s) && PoolOk(s) && b < |s.table| && u < |s.table[b]| && s.table[b][u] < s.n
    requires t == Free(Unlink(Unhash(s, b, u), s.table[b][u]), s.table[b][u])
    ensures ChainsOk(t)
  {
    hide Bucket;
    var r := s.table[b][u];
    assert ChainOk(s, b, s.table[b]) && EntryOk(s, r, b);
    CutFacts(s.table[b], u);
    WithoutFacts(s.lru, r);
    forall c | 0 <= c < |t.table| ensures ChainOk(t, c, t.table[c]) {
      assert ChainOk(s, c, s.table[c]);
      assert r !in t.table[c];
    }
  }

  lemma {:induction false} EvictOrder(s: State, b: nat, u: nat, t: State)
    requires ChainsOk(s) && OrderOk(s) && b < |s.table| && u < |s.table[b]|
    requires t == Free(Unlink(Unhash(s, b, u), s.table[b][u]), s.table[b][u])
    ensures OrderOk(t)
  {
    hide Bucket;
    var r := s.table[b][u];
    assert ChainOk(s, b, s.table[b]) && EntryOk(s, r, b);
    CutFacts(s.table[b], u);
    CutOrdered(s.recs, s.table[b], u);
    Frame(s.recs, t.recs, r, Freed(s.At(r)));
    forall c | 0 <= c < |t.table| ensures Ordered(t.recs, t.table[c]) {
      assert ChainOk(s, c, s.table[c]) && Ordered(s.recs, s.table[c]);
      assert r !in t.table[c];
    }
  }

  lemma {:induction false} EvictFindable(s: State, b: nat, u: nat, t: State)
    requires ChainsOk(s) && FindableOk(s) && PoolOk(s) && b < |s.table| && u < |s.table[b]|
    requires t == Free(Unlink(Unhash(s, b, u), s.table[b][u]), s.table[b][u])
    ensures FindableOk(t)
  {
    hide Bucket;
    var r := s.table[b][u];
    assert ChainOk(s, b, s.table[b]);
    CutFacts(s.table[b], u);
    WithoutFacts(s.lru, r);
    Frame(s.recs, t.recs, r, Freed(s.At(r)));
    forall p: Id | p in t.lru && InUse(Get(t.recs, p).flags) ensures t.Hashed(p) {
      assert p in s.lru && s.Hashed(p) && p != r;
    }
  }

  lemma {:induction false} EvictKeeps(s: State, b: nat, u: nat)
    requires Inv(s) && b < |s.table| && u < |s.table[b]|
    ensures Inv(Evict(s, b, u))
    ensures |Evict(s, b, u).table[b]| == |s.table[b]| - 1
  {
    hide Bucket;
    var r, t := s.table[b][u], Evict(s, b, u);
    assert ChainOk(s, b, s.table[b]) && EntryOk(s, r, b);
    if s.n <= r {
      UnhashStatic(s, b, u);
    } else {
      EvictChains(s, b, u, t);
      EvictOrder(s, b, u, t);
      EvictFindable(s, b, u, t);
      MovePool(s, t, r);
      FreeRecs(s, t, r);
      FreeUids(s, t, r);
      FreeBig(s, t, r);
      CutLru(s, r);
      WithoutFacts(s.lru, r);
      FreeLru(s, t, r, Without(s.lru, r));
    }
  }

  // ---------- moving within the lists ----------

  lemma {:induction false} StampFrame(m: map<Id, nat>, t: map<Id, nat>, r: Id, x: nat)
    requires t == m[r := x]
    ensures forall p: Id :: Stamp(t, p) == if p == r then x else Stamp(m, p)
  {}

  // Putting a record in use at the head keeps the list ordered by touch.
  lemma {:induction false} HeadLru(s: State, t: State, r: Id)
    requires LruOk(s) && InUse(s.At(r).flags) && r !in s.lru
    requires t.recs == s.recs && t.lru == [r] + s.lru
    requires t.clock == s.clock + 1 && t.stamp == s.stamp[r := s.clock + 1]
    ensures LruOk(t)
  {
    StampFrame(s.stamp, t.stamp, r, s.clock + 1);
    forall i, j | 0 <= i < j < |t.lru| && InUse(Get(t.recs, t.lru[j]).flags)
      ensures InUse(Get(t.recs, t.lru[i]).flags) && Stamp(t.stamp, t.lru[j]) < Stamp(t.stamp, t.lru[i])
    {
      assert t.lru[j] == s.lru[j - 1] && Stamp(s.stamp, t.lru[j]) <= s.clock;
      if i > 0 {
        assert t.lru[i] == s.lru[i - 1];
      }
    }
  }

  lemma {:induction false} LruOnly(s: State, t: State)
    requires t == s.(lru := t.lru, clock := t.clock, stamp := t.stamp)
    requires forall p: Id :: p in t.lru <==> p in s.lru
    requires ChainsOk(s) && FindableOk(s)
    ensures ChainsOk(t) && FindableOk(t)
  {
    hide Bucket;
    forall b | 0 <= b < |t.table| ensures ChainOk(t, b, t.table[b]) {
      assert ChainOk(s, b, s.table[b]);
    }
    forall p: Id | p in t.lru && InUse(Get(t.recs, p).flags) ensures t.Hashed(p) {
      assert s.Hashed(p) && t.Home(p) == s.Home(p);
    }
  }

  lemma {:induction false} TouchKeeps(s: State, r: Id)
    requires Inv(s) && r in s.lru && InUse(s.At(r).flags)
    ensures Inv(Link(Unlink(s, r), r))
  {
    hide Bucket, ChainsOk, FindableOk, OrderOk;
    var t := Link(Unlink(s, r), r);
    WithoutFacts(s.lru, r);
    CutLru(s, r);
    HeadLru(Unlink(s, r), t, r);
    MovePool(s, t, r);
    LruOnly(s, t);
    assert OrderOk(t) by { SameOrder(s, t); }
    assert BigSet(t) == BigSet(s);
  }

  lemma {:induction false} SameOrder(s: State, t: State)
    requires OrderOk(s) && t.recs == s.recs && t.table == s.table
    ensures OrderOk(t)
  {}

  // A chain may be permuted as long as the segments stay in order.
  lemma {:induction false} ReorderKeeps(s: State, b: nat, c: seq<Id>)
    requires Inv(s) && b < |s.table|
    requires NoDup(c) && Ordered(s.recs, c) && forall r: Id :: r in c <==> r in s.table[b]
    ensures Inv(SetChain(s, b, c))
  {
    hide Bucket;
    var t := SetChain(s, b, c);
    forall b' | 0 <= b' < |t.table| ensures ChainOk(t, b', t.table[b']) {
      assert ChainOk(s, b', s.table[b']);
    }
    assert BigSet(t) == BigSet(s);
  }

  // ---------- joining the hash table ----------

  lemma {:induction false} InsertedOrdered(recs: map<Id, Rec>, c: seq<Id>, r: Id)
    requires Ordered(recs, c)
    ensures Ordered(recs, Inserted(c, Place(recs, c, Get(recs, r).flags), r))
  {
    var f := Get(recs, r).flags;
    var k, d := Place(recs, c, f), Inserted(c, Place(recs, c, f), r);
    forall i | 0 <= i < k ensures Segment(Get(recs, c[i]).flags) <= Segment(f) {}
    forall i | k <= i < |c| ensures Segment(f) <= Segment(Get(recs, c[i]).flags) {
      assert i == k || Segment(Get(recs, c[k]).flags) <= Segment(Get(recs, c[i]).flags);
    }
    forall i, j | 0 <= i < j < |d| ensures Segment(Get(recs, d[i]).flags) <= Segment(Get(recs, d[j]).flags) {
      assert i == k || d[i] == c[if i < k then i else i - 1];
      assert j == k || d[j] == c[if j < k then j else j - 1];
    }
  }

  lemma {:induction false} InsertedFacts(c: seq<Id>, k: nat, r: Id)
    requires NoDup(c) && k <= |c| && r !in c
    ensures NoDup(Inserted(c, k, r))
    ensures forall y: Id :: y in Inserted(c, k, r) <==> y in c || y == r
  {}

  lemma {:induction false} HashKeeps(s: State, r: Id)
    requires ChainsOk(s) && OrderOk(s) && !s.Hashed(r) && EntryOk(s, r, s.Home(r))
    ensures ChainsOk(Hash(s, r)) && OrderOk(Hash(s, r)) && Hash(s, r).Hashed(r)
    ensures forall p: Id :: s.Hashed(p) ==> Hash(s, r).Hashed(p)
  {
    hide Bucket;
    var b, t := s.Home(r), Hash(s, r);
    var c := s.table[b];
    assert ChainOk(s, b, c) && Ordered(s.recs, c);
    InsertedFacts(c, Place(s.recs, c, s.At(r).flags), r);
    InsertedOrdered(s.recs, c, r);
    forall b' | 0 <= b' < |t.table| ensures ChainOk(t, b', t.table[b']) && Ordered(t.recs, t.table[b']) {
      assert ChainOk(s, b', s.table[b']) && Ordered(s.recs, s.table[b']);
    }
    forall p: Id | s.Hashed(p) ensures t.Hashed(p) {
      assert t.Home(p) == s.Home(p);
    }
  }

  lemma {:induction false} CommitChains(s: State)
    requires PoolOk(s) && ChainsOk(s) && OrderOk(s) && FindableOk(s) && RecsOk(s) && s.pending != []
    ensures ChainsOk(Commit(s)) && OrderOk(Commit(s)) && FindableOk(Commit(s))
  {
    hide Bucket, OrderOk;
    var r, t := s.pending[0], Commit(s);
    var s' := Link(s, r);
    forall b | 0 <= b < |s'.table| ensures ChainOk(s', b, s'.table[b]) {
      assert ChainOk(s, b, s.table[b]);
    }
    PendingUnhashed(s, r);
    assert s'.Home(r) == s.Home(r);
    assert OrderOk(s') by { SameOrder(s, s'); }
    HashKeeps(s', r);
    var h := Hash(s', r);
    assert t == h.(pending := s.pending[1..]);
    hide Hash, Commit, Link;
    SameOrder(h, t);
    forall b | 0 <= b < |t.table| ensures ChainOk(t, b, t.table[b]) {
      assert ChainOk(h, b, h.table[b]);
    }
    forall p: Id | p in t.lru && InUse(Get(t.recs, p).flags) ensures t.Hashed(p) {
      assert p == r || (p in s.lru && s.Hashed(p) && s'.Home(p) == s.Home(p));
      assert h.Home(p) == t.Home(p);
    }
  }

  lemma {:induction false} CommitKeeps(s: State)
    requires Inv(s) && s.pending != []
    ensures Inv(Commit(s))
  {
    hide Bucket, ChainsOk, FindableOk, OrderOk, LruOk;
    var r, t := s.pending[0], Commit(s);
    CommitChains(s);
    HeadLru(s, t, r);
    assert s.pending == [r] + t.pending;
    assert forall p: Id :: p in s.pending <==> p == r || p in t.pending;
    assert BigSet(t) == BigSet(s);
  }

  lemma {:induction false} AddStaticChains(s: State, r: Id, x: Rec)
    requires ChainsOk(s) && OrderOk(s) && FindableOk(s) && PoolOk(s)
    requires s.n <= r && r !in s.recs && Static(x.flags)
    ensures ChainsOk(AddStatic(s, r, x)) && OrderOk(AddStatic(s, r, x)) && FindableOk(AddStatic(s, r, x))
  {
    hide Bucket;
    var s', t := s.(recs := s.recs[r := x]), AddStatic(s, r, x);
    Frame(s.recs, s'.recs, r, x);
    forall b | 0 <= b < |s'.table| ensures ChainOk(s', b, s'.table[b]) && Ordered(s'.recs, s'.table[b]) {
      assert ChainOk(s, b, s.table[b]) && Ordered(s.recs, s.table[b]);
      assert r !in s.table[b];
    }
    HashKeeps(s', r);
    forall p: Id | p in t.lru && InUse(Get(t.recs, p).flags) ensures t.Hashed(p) {
      assert s.Hashed(p) && s'.Home(p) == s.Home(p) && s'.Hashed(p);
    }
  }

  lemma {:induction false} AddStaticKeeps(s: State, r: Id, x: Rec)
    requires Inv(s) && s.n <= r && r !in s.recs && Static(x.flags)
    requires x.data.CnameRec? && x.data.rec.Some? ==> x.data.uid != UID_NONE
    ensures Inv(AddStatic(s, r, x))
  {
    hide Bucket, ChainsOk, FindableOk, OrderOk;
    var t := AddStatic(s, r, x);
    AddStaticChains(s, r, x);
    Frame(s.recs, t.recs, r, x);
    assert r !in s.lru;
    assert BigSet(t) == BigSet(s);
  }

  // ---------- the batch ----------

  ghost predicate SameEntry(s: State, t: State, r: Id) {
    && (r in s.recs ==> r in t.recs) && (r in s.lru ==> r in t.lru)
    && Get(t.recs, r).flags == Get(s.recs, r).flags && Get(t.recs, r).name == Get(s.recs, r).name
  }

  // Records off the table may change as long as they keep their place.
  lemma {:induction false} SameChains(s: State, t: State)
    requires ChainsOk(s) && t.n == s.n && t.mix == s.mix && t.table == s.table
    requires forall b, r: Id :: 0 <= b < |s.table| && r in s.table[b] ==> SameEntry(s, t, r)
    ensures ChainsOk(t)
  {
    hide Bucket;
    forall b | 0 <= b < |t.table| ensures ChainOk(t, b, t.table[b]) {
      assert ChainOk(s, b, s.table[b]);
      forall r: Id | r in t.table[b] ensures EntryOk(t, r, b) {
        assert EntryOk(s, r, b) && SameEntry(s, t, r);
      }
    }
  }

  lemma {:induction false} OffTable(s: State, t: State)
    requires ChainsOk(s) && OrderOk(s)
    requires t.n == s.n && t.mix == s.mix && t.table == s.table
    requires forall b, r: Id :: 0 <= b < |s.table| && r in s.table[b] ==> SameEntry(s, t, r)
    ensures ChainsOk(t) && OrderOk(t)
  {
    SameChains(s, t);
    hide Bucket, ChainsOk;
    forall b | 0 <= b < |t.table| ensures Ordered(t.recs, t.table[b]) {
      assert Ordered(s.recs, s.table[b]);
      forall i | 0 <= i < |t.table[b]| ensures Get(t.recs, t.table[b][i]).flags == Get(s.recs, t.table[b][i]).flags {
        assert t.table[b][i] in s.table[b] && SameEntry(s, t, t.table[b][i]);
      }
    }
  }

  lemma {:induction false} PendingUnhashed(s: State, p: Id)
    requires ChainsOk(s) && p < s.n && (p !in s.lru || !InUse(s.At(p).flags))
    ensures forall b :: 0 <= b < |s.table| ==> p !in s.table[b]
  {
    hide Bucket;
    forall b | 0 <= b < |s.table| ensures p !in s.table[b] {
      assert ChainOk(s, b, s.table[b]);
      assert p in s.table[b] ==> EntryOk(s, p, b);
    }
  }

  lemma {:induction false} DropChains(s: State)
    requires PoolOk(s) && ChainsOk(s) && OrderOk(s) && FindableOk(s) && s.pending != []
    ensures ChainsOk(Drop(s)) && OrderOk(Drop(s)) && FindableOk(Drop(s))
  {
    hide Bucket;
    var r, t := s.pending[0], Drop(s);
    PendingUnhashed(s, r);
    Frame(s.recs, t.recs, r, Freed(s.At(r)));
    OffTable(s, t);
    forall p: Id | p in t.lru && InUse(Get(t.recs, p).flags) ensures t.Hashed(p) {
      assert s.Hashed(p) && t.Home(p) == s.Home(p);
    }
  }

  lemma {:induction false} DropKeeps(s: State)
    requires Inv(s) && s.pending != []
    ensures Inv(Drop(s))
  {
    hide Bucket, ChainsOk, OrderOk, LruOk, FindableOk;
    var r, t := s.pending[0], Drop(s);
    assert s.pending == [r] + t.pending;
    assert forall p: Id :: p in s.pending <==> p == r || p in t.pending;
    DropChains(s);
    FreeRecs(s, t, r);
    FreeUids(s, t, r);
    FreeBig(s, t, r);
    assert s.(lru := s.lru) == s;
    FreeLru(s, t, r, s.lru);
  }

  // What a slot may be filled with: the uid is none, or one no other record has.
  ghost predicate Fillable(s: State, r: Id, x: Rec) {
    && r in s.lru && !InUse(s.At(r).flags)
    && InUse(x.flags) && !Static(x.flags)
    && x.uid <= s.lastUid
    && (x.uid != UID_NONE ==> forall p: Id :: p < s.n ==> Get(s.recs, p).uid != x.uid)
    && (x.data.CnameRec? && x.data.rec.Some? ==> x.data.uid != UID_NONE)
  }

  lemma {:induction false} GrabChains(s: State, r: Id, x: Rec)
    requires PoolOk(s) && ChainsOk(s) && OrderOk(s) && FindableOk(s) && LruOk(s) && Fillable(s, r, x)
    ensures ChainsOk(Grab(s, r, x)) && OrderOk(Grab(s, r, x)) && FindableOk(Grab(s, r, x)) && LruOk(Grab(s, r, x))
  {
    hide Bucket;
    var t := Grab(s, r, x);
    PendingUnhashed(s, r);
    WithoutFacts(s.lru, r);
    Frame(s.recs, t.recs, r, x);
    OffTable(s, t);
    forall p: Id | p in t.lru && InUse(Get(t.recs, p).flags) ensures t.Hashed(p) {
      assert s.Hashed(p) && t.Home(p) == s.Home(p);
    }
    GrabLru(s, r, x);
  }

  lemma {:induction false} GrabLru(s: State, r: Id, x: Rec)
    requires NoDup(s.lru) && LruOk(s) && r in s.lru
    ensures LruOk(Grab(s, r, x))
  {
    var s', t := Unlink(s, r), Grab(s, r, x);
    CutLru(s, r);
    WithoutFacts(s.lru, r);
    Frame(s.recs, t.recs, r, x);
    forall i, j | 0 <= i < j < |t.lru| && InUse(Get(t.recs, t.lru[j]).flags)
      ensures InUse(Get(t.recs, t.lru[i]).flags) && Stamp(t.stamp, t.lru[j]) < Stamp(t.stamp, t.lru[i])
    {
      assert s'.lru[i] == t.lru[i] && s'.lru[j] == t.lru[j];
    }
  }

  // The storage for a long name was taken from `big_free` or from the allowance.
  lemma {:induction false} GrabKeeps(s: State, s': State, r: Id, x: Rec)
    requires Inv(s) && Fillable(s, r, x) && s' == s.(bigFree := s'.bigFree, bigLeft := s'.bigLeft)
    requires s.bigFree + s.bigLeft == s'.bigFree + s'.bigLeft + if F_BIGNAME in x.flags then 1 else 0
    ensures Inv(Grab(s', r, x))
  {
    hide Bucket, ChainsOk, OrderOk, LruOk, FindableOk;
    var t, t' := Grab(s, r, x), Grab(s', r, x);
    GrabChains(s, r, x);
    BigOnly(t, t');
    GrabRest(s, t', r, x);
  }

  lemma {:induction false} GrabRest(s: State, t: State, r: Id, x: Rec)
    requires PoolOk(s) && RecsOk(s) && UidsOk(s) && LinksOk(s) && Fillable(s, r, x)
    requires t == Grab(s, r, x).(bigFree := t.bigFree, bigLeft := t.bigLeft)
    ensures PoolOk(t) && RecsOk(t) && UidsOk(t) && LinksOk(t)
    ensures |BigSet(t)| == |BigSet(s)| + if F_BIGNAME in x.flags then 1 else 0
  {
    hide PoolOk, RecsOk, UidsOk, LinksOk, BigSet, Fillable;
    GrabPool(s, t, r, x);
    GrabUids(s, t, r, x);
    GrabBig(s, t, r, x);
  }

  lemma {:induction false} GrabPool(s: State, t: State, r: Id, x: Rec)
    requires PoolOk(s) && RecsOk(s) && Fillable(s, r, x)
    requires t == Grab(s, r, x).(bigFree := t.bigFree, bigLeft := t.bigLeft)
    ensures PoolOk(t) && RecsOk(t)
  {
    WithoutFacts(s.lru, r);
    Frame(s.recs, t.recs, r, x);
    assert t.pending == [r] + s.pending && r !in s.pending;
  }

  lemma {:induction false} GrabUids(s: State, t: State, r: Id, x: Rec)
    requires UidsOk(s) && LinksOk(s) && Fillable(s, r, x)
    requires t == Grab(s, r, x).(bigFree := t.bigFree, bigLeft := t.bigLeft)
    ensures UidsOk(t) && LinksOk(t)
  {
    hide Without;
    Frame(s.recs, t.recs, r, x);
  }

  lemma {:induction false} GrabBig(s: State, t: State, r: Id, x: Rec)
    requires PoolOk(s) && RecsOk(s) && Fillable(s, r, x)
    requires t == Grab(s, r, x).(bigFree := t.bigFree, bigLeft := t.bigLeft)
    ensures |BigSet(t)| == |BigSet(s)| + if F_BIGNAME in x.flags then 1 else 0
  {
    hide Without;
    Frame(s.recs, t.recs, r, x);
    assert r < s.n && r !in BigSet(s);
    assert BigSet(t) == BigSet(s) + if F_BIGNAME in x.flags then {r} else {};
  }

  lemma {:induction false} BigOnly(s: State, t: State)
    requires ChainsOk(s) && OrderOk(s) && LruOk(s) && FindableOk(s)
    requires t == s.(bigFree := t.bigFree, bigLeft := t.bigLeft)
    ensures ChainsOk(t) && OrderOk(t) && LruOk(t) && FindableOk(t)
  {
    hide Bucket;
    LruOnly(s, t.(bigFree := s.bigFree, bigLeft := s.bigLeft));
    assert forall b, r: Id :: 0 <= b < |s.table| && r in s.table[b] ==> SameEntry(s, t, r);
    OffTable(s, t);
    forall p: Id | p in t.lru && InUse(Get(t.recs, p).flags) ensures t.Hashed(p) {
      assert s.Hashed(p) && t.Home(p) == s.Home(p);
    }
  }

  lemma {:induction false} NextUidKeeps(s: State, r: Id)
    requires Inv(s) && r in s.recs && (r < s.n ==> InUse(s.At(r).flags))
    ensures Inv(NextUid(s, r))
  {
    hide Bucket;
    var t := NextUid(s, r);
    if t != s {
      RecordOnly(s, t, r);
      Frame(s.recs, t.recs, r, t.At(r));
      assert BigSet(t) == BigSet(s);
    }
  }

  // One record changes its uid or its data, and nothing moves.
  lemma {:induction false} RecordOnly(s: State, t: State, r: Id)
    requires ChainsOk(s) && OrderOk(s) && LruOk(s) && FindableOk(s) && r in s.recs
    requires t == s.(recs := s.recs[r := t.At(r)], lastUid := t.lastUid)
    requires t.At(r).flags == s.At(r).flags && t.At(r).name == s.At(r).name
    ensures ChainsOk(t) && OrderOk(t) && LruOk(t) && FindableOk(t)
  {
    hide Bucket;
    Frame(s.recs, t.recs, r, t.At(r));
    OffTable(s, t);
    forall p: Id | p in t.lru && InUse(Get(t.recs, p).flags) ensures t.Hashed(p) {
      assert s.Hashed(p) && t.Home(p) == s.Home(p);
    }
  }

  lemma {:induction false} DataKeeps(s: State, c: Id, d: Data)
    requires Inv(s) && c in s.recs && (d.CnameRec? && d.rec.Some? ==> d.uid != UID_NONE)
    ensures Inv(s.(recs := s.recs[c := s.At(c).(data := d)]))
  {
    hide Bucket, ChainsOk, OrderOk, LruOk, FindableOk;
    var t := s.(recs := s.recs[c := s.At(c).(data := d)]);
    RecordOnly(s, t, c);
    Frame(s.recs, t.recs, c, t.At(c));
    assert BigSet(t) == BigSet(s);
  }

  lemma {:induction false} SetLinkKeeps(s: State, c: Id, to: Option<Id>)
    requires Inv(s) && c in s.recs
    requires to.Some? ==> to.value in s.recs && (to.value < s.n ==> InUse(s.At(to.value).flags))
    ensures Inv(SetLink(s, c, to))
  {
    hide Inv;
    if to.Some? {
      var t := NextUid(s, to.value);
      NextUidKeeps(s, to.value);
      DataKeeps(t, c, CnameRec(to, t.At(to.value).uid));
    } else {
      DataKeeps(s, c, CnameRec(None, UID_NONE));
    }
  }
}
