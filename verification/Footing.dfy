/**
 The part of the invariant that the pointers of src/cache.c rely on, whatever the
 order within a chain: a hashed record is static, or in use and in the LRU list.
 */
module Footing {
  import opened Names
  import opened Records
  import opened State
  import opened Keeps
  import opened Lookup
  import opened Answers

  ghost predicate Housed(s: State) {
    PoolOk(s) && RecsOk(s) && ChainsOk(s)
  }

  // A scan may leave a record for reuse: it is in the LRU list, and not in use.
  ghost predicate Vacant(s: State, r: Id) {
    r in s.lru && !InUse(s.At(r).flags)
  }

  // What only removes entries leaves the vacant records vacant.
  ghost predicate Vacates(s: State, t: State) {
    && |t.table| == |s.table| && t.n == s.n && t.mix == s.mix && t.err == s.err && t.pending == s.pending
    && (forall r: Id :: r in s.recs ==> r in t.recs)
    && forall r: Id :: Vacant(s, r) ==> Vacant(t, r)
  }

  lemma {:induction false} VacatesTrans(s: State, t: State, v: State)
    requires Vacates(s, t) && Vacates(t, v)
    ensures Vacates(s, v)
  {
    hide Vacant;
  }

  lemma {:induction false} HashedRec(s: State, b: nat, u: nat)
    requires Housed(s) && b < |s.table| && u < |s.table[b]|
    ensures var r := s.table[b][u];
      r in s.recs && if Static(s.At(r).flags) then s.n <= r else r < s.n && r in s.lru && InUse(s.At(r).flags)
  {
    hide Bucket;
    assert ChainOk(s, b, s.table[b]) && EntryOk(s, s.table[b][u], b);
  }

  lemma {:induction false} ReorderHoused(s: State, b: nat, c: seq<Id>)
    requires Housed(s) && b < |s.table| && NoDup(c) && forall r: Id :: r in c ==> r in s.table[b]
    ensures Housed(SetChain(s, b, c))
  {
    hide Bucket;
    var t := SetChain(s, b, c);
    forall b' | 0 <= b' < |t.table| ensures ChainOk(t, b', t.table[b']) {
      assert ChainOk(s, b', s.table[b']);
    }
  }

  lemma {:induction false} EvictHoused(s: State, b: nat, u: nat)
    requires Housed(s) && b < |s.table| && u < |s.table[b]|
    ensures Housed(Evict(s, b, u)) && Vacates(s, Evict(s, b, u)) && |Evict(s, b, u).table[b]| == |s.table[b]| - 1
    ensures !Static(s.At(s.table[b][u]).flags) ==> Vacant(Evict(s, b, u), s.table[b][u])
  {
    hide Bucket;
    var r, t := s.table[b][u], Evict(s, b, u);
    HashedRec(s, b, u);
    if Static(s.At(r).flags) {
      assert ChainOk(s, b, s.table[b]);
      CutFacts(s.table[b], u);
      ReorderHoused(s, b, Cut(s.table[b], u));
    } else {
      assert EntryOk(s, r, b);
      EvictChains(s, b, u, t);
      hide ChainsOk;
      MovePool(s, t, r);
      FreeRecs(s, t, r);
      WithoutFacts(s.lru, r);
      Frame(s.recs, t.recs, r, Freed(s.At(r)));
    }
  }

  lemma {:induction false} GatherHoused(s: State, b: nat, u: nat, k: Cursor)
    requires Housed(s) && b < |s.table| && u < |s.table[b]|
    ensures Housed(Gather(s, s.table[b][u], k).s)
  {
    hide Bucket;
    var r := s.table[b][u];
    HashedRec(s, b, u);
    var t := Gather(s, r, k).s;
    if Static(s.At(r).flags) {
      SameChains(s, t);
    } else {
      MovePool(s, t, r);
      WithoutFacts(s.lru, r);
      SameChains(s, t);
    }
  }

  lemma {:induction false} PromoteHoused(s: State, b: nat, k: Cursor, noRR: bool)
    requires Housed(s) && b < |s.table| && k.u < |s.table[b]| && (k.insert.Some? ==> k.insert.value <= k.u)
    ensures Housed(Promote(s, b, k, noRR).s)
  {
    hide Bucket, Housed, MoveUp;
    if Promote(s, b, k, noRR).s != s {
      var c, i := s.table[b], k.insert.value;
      ChainOnce(s, b);
      MoveUpNoDup(c, k.u, i);
      MoveUpIn(c, k.u, i);
      ReorderHoused(s, b, MoveUp(c, k.u, i));
    }
  }

  lemma {:induction false} ChainOnce(s: State, b: nat)
    requires Housed(s) && b < |s.table|
    ensures NoDup(s.table[b])
  {
    hide Bucket;
    assert ChainOk(s, b, s.table[b]);
  }

  lemma {:induction false} TieHoused(s: State, t: State)
    requires Housed(s) && t == s.(next := t.next)
    ensures Housed(t)
  {
    hide Bucket;
    SameChains(s, t);
  }

  lemma {:induction false} DropHoused(s: State)
    requires Housed(s) && s.pending != []
    ensures Housed(Drop(s))
  {
    hide Bucket, ChainsOk;
    var r, t := s.pending[0], Drop(s);
    assert s.pending == [r] + t.pending;
    assert forall p: Id :: p in s.pending <==> p == r || p in t.pending;
    PendingUnhashed(s, r);
    Frame(s.recs, t.recs, r, Freed(s.At(r)));
    SameChains(s, t);
    FreeRecs(s, t, r);
  }

  lemma {:induction false} HashHoused(s: State, r: Id)
    requires ChainsOk(s) && r !in s.table[s.Home(r)] && EntryOk(s, r, s.Home(r))
    ensures ChainsOk(Hash(s, r))
  {
    hide Bucket, Place;
    var b, t := s.Home(r), Hash(s, r);
    assert ChainOk(s, b, s.table[b]);
    InsertedFacts(s.table[b], Place(s.recs, s.table[b], s.At(r).flags), r);
    forall b' | 0 <= b' < |t.table| ensures ChainOk(t, b', t.table[b']) {
      assert ChainOk(s, b', s.table[b']);
    }
  }

  // The head of the batch is linked, and not hashed yet.
  lemma {:induction false} LinkHoused(s: State, s': State, r: Id)
    requires Housed(s) && s.pending != [] && r == s.pending[0] && s' == Link(s, r).(pending := s.pending[1..])
    ensures Housed(s') && r in s'.recs && r < s.n && r in s'.lru && InUse(s'.At(r).flags)
    ensures forall b :: 0 <= b < |s.table| ==> r !in s.table[b]
  {
    assert r in s.pending && r < s.n && r !in s.lru && r in s.recs && InUse(s.At(r).flags);
    hide Bucket, ChainsOk;
    assert s.pending == [r] + s'.pending;
    assert forall p: Id :: p in s.pending <==> p == r || p in s'.pending;
    PendingUnhashed(s, r);
    SameChains(s, s');
  }

  lemma {:induction false} CommitHoused(s: State)
    requires Housed(s) && s.pending != []
    ensures Housed(Commit(s))
  {
    var r := s.pending[0];
    var s' := Link(s, r).(pending := s.pending[1..]);
    LinkHoused(s, s', r);
    Entering(s', r);
    HashLink(s, r, s');
    hide Bucket, ChainsOk, Hash, EntryOk, Link, Commit, NoDup, InUse, Static;
    assert 0 <= s'.Home(r) < |s.table|;
    HashHoused(s', r);
  }

  lemma {:induction false} Entering(s: State, r: Id)
    requires r in s.recs && r < s.n && r in s.lru && InUse(s.At(r).flags)
    ensures EntryOk(s, r, s.Home(r))
  {
    hide Bucket;
  }

  lemma {:induction false} HashLink(s: State, r: Id, s': State)
    requires s.pending != [] && r == s.pending[0] && s' == Link(s, r).(pending := s.pending[1..])
    ensures Commit(s) == Hash(s', r) && Hash(s', r) == s'.(table := Hash(s', r).table)
  {
    hide Bucket, Place;
  }

  lemma {:induction false} GrabHoused(s: State, t: State, r: Id, x: Rec)
    requires Housed(s) && Vacant(s, r) && InUse(x.flags) && !Static(x.flags)
    requires t == Grab(s, r, x).(bigFree := t.bigFree, bigLeft := t.bigLeft)
    ensures Housed(t)
  {
    hide Bucket, ChainsOk;
    PendingUnhashed(s, r);
    WithoutFacts(s.lru, r);
    Frame(s.recs, t.recs, r, x);
    SameChains(s, t);
    assert t.pending == [r] + s.pending && r !in s.pending;
  }

  // A record other than a vacant one gets a uid or new data.
  lemma {:induction false} RecHoused(s: State, t: State, r: Id)
    requires Housed(s) && r in s.recs && (r < s.n ==> InUse(s.At(r).flags))
    requires t == s.(recs := s.recs[r := t.At(r)], lastUid := t.lastUid)
    requires t.At(r).flags == s.At(r).flags && t.At(r).name == s.At(r).name
    ensures Housed(t)
  {
    hide Bucket, ChainsOk;
    Frame(s.recs, t.recs, r, t.At(r));
    SameChains(s, t);
  }

  lemma {:induction false} SetLinkHoused(s: State, c: Id, to: Option<Id>)
    requires Housed(s) && c in s.recs && (c < s.n ==> InUse(s.At(c).flags))
    requires to.Some? ==> to.value in s.recs && (to.value < s.n ==> InUse(s.At(to.value).flags))
    ensures Housed(SetLink(s, c, to))
  {
    hide Housed;
    if to.Some? {
      var t := NextUid(s, to.value);
      if t != s {
        RecHoused(s, t, to.value);
      }
      RecHoused(t, SetLink(s, c, to), c);
    } else {
      RecHoused(s, SetLink(s, c, to), c);
    }
  }

  lemma {:induction false} ErrHoused(s: State, e: bool)
    requires Housed(s)
    ensures Housed(s.(err := e))
  {
    hide Bucket;
    SameChains(s, s.(err := e));
  }
}
