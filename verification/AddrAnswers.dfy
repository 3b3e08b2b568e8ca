/**
 Looking up an address: although each chain is searched only up to its first
 entry that is not a reverse one, exactly the live reverse records are found.
 */
module AddrAnswers {
  import opened Names
  import opened Records
  import opened State
  import opened Keeps
  import opened Scans
  import opened Lookup
  import opened Answers

  // Only expired entries have left the table.
  ghost predicate ExpiredOnly(s: State, t: State, now: int) {
    |t.table| == |s.table| &&
    forall b, r: Id :: 0 <= b < |s.table| && r in s.table[b] && r !in t.table[b] ==> Expired(now, Get(s.recs, r))
  }

  lemma {:induction false} ExpiredOnlyTrans(s: State, t: State, v: State, now: int)
    requires Shrinks(s, t) && ExpiredOnly(s, t, now) && ExpiredOnly(t, v, now)
    ensures ExpiredOnly(s, v, now)
  {
    forall b, r: Id | 0 <= b < |s.table| && r in s.table[b] && r !in v.table[b] ensures Expired(now, Get(s.recs, r)) {
      if r in t.table[b] {
        assert Expired(now, Get(t.recs, r));
      }
    }
  }

  lemma {:induction false} EvictExpired(s: State, b: nat, u: nat, now: int)
    requires Inv(s) && b < |s.table| && u < |s.table[b]| && Expired(now, s.At(s.table[b][u]))
    ensures ExpiredOnly(s, Evict(s, b, u), now)
  {
    hide Bucket, EntryOk;
    ChainNoDup(s, b);
    CutFacts(s.table[b], u);
  }

  // An entry that matches is among the answers; the answers match and are live.
  ghost predicate Settled(s: State, r: Id, addr: Data, prot: Flags, st: seq<Id>, ps: seq<Id>) {
    MatchesAddr(Get(s.recs, r), addr, prot) ==> r in st || r in ps
  }

  ghost predicate Good(s: State, b: nat, addr: Data, now: int, prot: Flags, st: seq<Id>, ps: seq<Id>) {
    forall r: Id :: r in st || r in ps ==>
      MatchesAddr(Get(s.recs, r), addr, prot) && !Expired(now, Get(s.recs, r)) && s.Hashed(r) && s.Home(r) < b
  }

  ghost predicate Passed(s: State, b: nat, addr: Data, prot: Flags, st: seq<Id>, ps: seq<Id>) {
    forall b', r: Id :: 0 <= b' < b && b' < |s.table| && r in s.table[b'] ==> Settled(s, r, addr, prot, st, ps)
  }

  ghost predicate PassedIn(s: State, c: seq<Id>, addr: Data, prot: Flags, st: seq<Id>, ps: seq<Id>) {
    forall r: Id :: r in c ==> Settled(s, r, addr, prot, st, ps)
  }

  // The state of the search before entry `k.u` of chain `b`.
  ghost predicate Search(s: State, b: nat, k: Cursor, addr: Data, now: int, prot: Flags, st: seq<Id>, ps: seq<Id>) {
    && Threaded(s, k, st, ps) && Good(s, b + 1, addr, now, prot, st, ps) && Passed(s, b, addr, prot, st, ps)
    && b < |s.table| && k.u <= |s.table[b]| && PassedIn(s, s.table[b][..k.u], addr, prot, st, ps)
    && forall j :: k.u <= j < |s.table[b]| ==> s.table[b][j] !in st && s.table[b][j] !in ps
  }

  lemma {:induction false} EvictSearch(s: State, b: nat, k: Cursor, addr: Data, now: int, prot: Flags, st: seq<Id>, ps: seq<Id>)
    requires Inv(s) && Search(s, b, k, addr, now, prot, st, ps) && k.u < |s.table[b]|
    ensures Search(Evict(s, b, k.u), b, k, addr, now, prot, st, ps)
  {
    hide Bucket, Threaded, MatchesAddr, OrderOk, LruOk, FindableOk, UidsOk, LinksOk, BigOk, Good, Passed, PassedIn, RecsOk, PoolOk;
    var t, c := Evict(s, b, k.u), s.table[b];
    EvictThreaded(s, b, k.u, k, st, ps);
    EvictFacts(s, b, k.u);
    EvictGood(s, b, k.u, addr, now, prot, st, ps);
    EvictPassed(s, b, k.u, addr, prot, st, ps);
    assert t.table[b] == Cut(c, k.u);
    assert forall j :: k.u <= j < |t.table[b]| ==> t.table[b][j] == c[j + 1];
  }

  lemma {:induction false} EvictGood(s: State, b: nat, u: nat, addr: Data, now: int, prot: Flags, st: seq<Id>, ps: seq<Id>)
    requires Inv(s) && b < |s.table| && u < |s.table[b]| && s.table[b][u] !in st && s.table[b][u] !in ps
    requires Good(s, b + 1, addr, now, prot, st, ps)
    ensures Good(Evict(s, b, u), b + 1, addr, now, prot, st, ps)
  {
    hide Bucket, Inv, MatchesAddr, Evict;
    var t := Evict(s, b, u);
    EvictFacts(s, b, u);
    ChainNoDup(s, b);
    CutFacts(s.table[b], u);
    forall r: Id | r in st || r in ps ensures t.Hashed(r) {
      assert s.Hashed(r) && t.Home(r) == s.Home(r);
    }
  }

  lemma {:induction false} EvictPassed(s: State, b: nat, u: nat, addr: Data, prot: Flags, st: seq<Id>, ps: seq<Id>)
    requires Inv(s) && b < |s.table| && u < |s.table[b]|
    requires Passed(s, b, addr, prot, st, ps) && PassedIn(s, s.table[b][..u], addr, prot, st, ps)
    ensures var t := Evict(s, b, u);
      Passed(t, b, addr, prot, st, ps) && u <= |t.table[b]| && PassedIn(t, t.table[b][..u], addr, prot, st, ps)
  {
    hide Bucket, MatchesAddr, Evict, OrderOk, LruOk, FindableOk, UidsOk, LinksOk, BigOk, RecsOk, PoolOk;
    var t, r, c := Evict(s, b, u), s.table[b][u], s.table[b];
    EvictFacts(s, b, u);
    assert ChainOk(s, b, c) && EntryOk(s, r, b);
    PastPrefix(c, u);
    assert t.table[b][..u] == c[..u];
    forall b', r': Id | 0 <= b' < b && r' in t.table[b'] ensures Settled(t, r', addr, prot, st, ps) {
      assert ChainOk(s, b', s.table[b']);
      assert Settled(s, r', addr, prot, st, ps) && EntryOk(s, r', b');
    }
  }

  lemma {:induction false} GatherShrinks(s: State, b: nat, u: nat, k: Cursor)
    requires Inv(s) && b < |s.table| && u < |s.table[b]|
    ensures Shrinks(s, Gather(s, s.table[b][u], k).s)
  {
    hide Bucket, Inv;
    PoolOf(s);
    HashedStatic(s, b, u);
    if s.table[b][u] < s.n {
      WithoutFacts(s.lru, s.table[b][u]);
      HashedInUse(s, b, u);
    }
  }

  lemma {:induction false} GatherGood(s: State, t: State, b: nat, u: nat, addr: Data, now: int, prot: Flags, st: seq<Id>, ps: seq<Id>, st': seq<Id>, ps': seq<Id>)
    requires Inv(s) && b < |s.table| && u < |s.table[b]| && Good(s, b + 1, addr, now, prot, st, ps)
    requires !Expired(now, s.At(s.table[b][u])) && MatchesAddr(s.At(s.table[b][u]), addr, prot)
    requires t.recs == s.recs && t.table == s.table && t.mix == s.mix
    requires forall r: Id :: r in st' || r in ps' ==> r in st || r in ps || r == s.table[b][u]
    ensures Good(t, b + 1, addr, now, prot, st', ps')
  {
    hide Bucket, Inv, MatchesAddr;
    HashedHome(s, b, u);
    forall r: Id | r in st' || r in ps' ensures t.Hashed(r) && t.Home(r) < b + 1 {
      assert s.Home(r) == t.Home(r);
    }
  }

  lemma {:induction false} GatherSearch(s: State, b: nat, k: Cursor, addr: Data, now: int, prot: Flags, st: seq<Id>, ps: seq<Id>)
    returns (st': seq<Id>, ps': seq<Id>)
    requires Inv(s) && Search(s, b, k, addr, now, prot, st, ps) && k.u < |s.table[b]|
    requires !Expired(now, s.At(s.table[b][k.u])) && MatchesAddr(s.At(s.table[b][k.u]), addr, prot)
    ensures var g := Gather(s, s.table[b][k.u], k);
      Inv(g.s) && Search(g.s, b, g.k.(u := k.u + 1), addr, now, prot, st', ps')
  {
    hide Bucket, Inv, Threaded, MatchesAddr, Passed, Gather, Good;
    var r, c := s.table[b][k.u], s.table[b];
    var g := Gather(s, r, k);
    ChainNoDup(s, b);
    assert c[..k.u + 1] == c[..k.u] + [r];
    PoolOf(s);
    HashedStatic(s, b, k.u);
    GatherKeeps(s, b, k.u, k);
    GatherThreaded(s, r, k, st, ps);
    st', ps' := if s.n <= r then st + [r] else st, if s.n <= r then ps else [r] + ps;
    GatherGood(s, g.s, b, k.u, addr, now, prot, st, ps, st', ps');
    ThreadedMoves(g.s, g.k, g.s, g.k.(u := k.u + 1), st', ps');
    PassedGrows(s, g.s, b, addr, prot, st, ps, st', ps');
  }

  lemma {:induction false} SkipSearch(s: State, b: nat, k: Cursor, addr: Data, now: int, prot: Flags, st: seq<Id>, ps: seq<Id>)
    requires Search(s, b, k, addr, now, prot, st, ps) && k.u < |s.table[b]|
    requires !MatchesAddr(s.At(s.table[b][k.u]), addr, prot)
    ensures Search(s, b, k.(u := k.u + 1), addr, now, prot, st, ps)
  {
    hide Bucket, MatchesAddr, Passed, Good;
    assert s.table[b][..k.u + 1] == s.table[b][..k.u] + [s.table[b][k.u]];
  }

  lemma {:induction false} PassedGrows(s: State, t: State, b: nat, addr: Data, prot: Flags, st: seq<Id>, ps: seq<Id>, st': seq<Id>, ps': seq<Id>)
    requires Passed(s, b, addr, prot, st, ps) && t.recs == s.recs && t.table == s.table
    requires forall r: Id :: r in st || r in ps ==> r in st' || r in ps'
    ensures Passed(t, b, addr, prot, st', ps')
  {
    forall b', r: Id | 0 <= b' < b && b' < |t.table| && r in t.table[b'] ensures Settled(t, r, addr, prot, st', ps') {
      assert r in s.table[b'];
      assert Settled(s, r, addr, prot, st, ps);
    }
  }

  lemma {:induction false} HashedHome(s: State, b: nat, u: nat)
    requires Inv(s) && b < |s.table| && u < |s.table[b]|
    ensures s.Home(s.table[b][u]) == b && s.Hashed(s.table[b][u])
  {
    hide Bucket;
    assert ChainOk(s, b, s.table[b]) && EntryOk(s, s.table[b][u], b);
  }

  lemma {:induction false} SweepChainSearch(s: State, b: nat, k: Cursor, addr: Data, now: int, prot: Flags, st: seq<Id>, ps: seq<Id>)
    returns (st': seq<Id>, ps': seq<Id>)
    requires Inv(s) && Search(s, b, k, addr, now, prot, st, ps)
    ensures var out := SweepChain(s, b, addr, now, prot, k);
      && Inv(out.s) && Shrinks(s, out.s) && ExpiredOnly(s, out.s, now)
      && Threaded(out.s, out.k, st', ps') && Good(out.s, b + 1, addr, now, prot, st', ps')
      && Passed(out.s, b + 1, addr, prot, st', ps')
    decreases |s.table[b]| - k.u
  {
    hide Bucket, Inv, Shrinks, Threaded, Good, Passed, MatchesAddr, Evict, Gather, ExpiredOnly;
    ShrinksRefl(s);
    ExpiredOnlyRefl(s, now);
    if k.u == |s.table[b]| || F_REVERSE !in s.At(s.table[b][k.u]).flags {
      st', ps' := st, ps;
      RestForward(s, b, k, addr, now, prot, st, ps);
    } else if Expired(now, s.At(s.table[b][k.u])) {
      var t := Evict(s, b, k.u);
      EvictKeeps(s, b, k.u);
      EvictShrinks(s, b, k.u);
      EvictExpired(s, b, k.u, now);
      EvictSearch(s, b, k, addr, now, prot, st, ps);
      st', ps' := SweepChainSearch(t, b, k, addr, now, prot, st, ps);
      ShrinksTrans(s, t, SweepChain(t, b, addr, now, prot, k).s);
      ExpiredOnlyTrans(s, t, SweepChain(t, b, addr, now, prot, k).s, now);
    } else {
      var r := s.table[b][k.u];
      var g := if MatchesAddr(s.At(r), addr, prot) then Gather(s, r, k) else Found(s, k);
      var st1, ps1, k' := st, ps, g.k.(u := k.u + 1);
      if MatchesAddr(s.At(r), addr, prot) {
        GatherShrinks(s, b, k.u, k);
        st1, ps1 := GatherSearch(s, b, k, addr, now, prot, st, ps);
      } else {
        SkipSearch(s, b, k, addr, now, prot, st, ps);
      }
      st', ps' := SweepChainSearch(g.s, b, k', addr, now, prot, st1, ps1);
      ShrinksTrans(s, g.s, SweepChain(g.s, b, addr, now, prot, k').s);
      SameTableExpired(s, g.s, now);
      ExpiredOnlyTrans(s, g.s, SweepChain(g.s, b, addr, now, prot, k').s, now);
    }
  }

  lemma {:induction false} ExpiredOnlyRefl(s: State, now: int)
    ensures ExpiredOnly(s, s, now)
  {}

  lemma {:induction false} SameTableExpired(s: State, t: State, now: int)
    requires t.table == s.table
    ensures ExpiredOnly(s, t, now)
  {}

  // Past the first entry that is not a reverse one there are no more.
  lemma {:induction false} RestForward(s: State, b: nat, k: Cursor, addr: Data, now: int, prot: Flags, st: seq<Id>, ps: seq<Id>)
    requires Inv(s) && Search(s, b, k, addr, now, prot, st, ps)
    requires k.u == |s.table[b]| || F_REVERSE !in s.At(s.table[b][k.u]).flags
    ensures Passed(s, b + 1, addr, prot, st, ps)
  {
    hide Bucket, PoolOk, RecsOk, ChainsOk, LruOk, FindableOk, UidsOk, LinksOk, BigOk, Threaded, Good;
    var c := s.table[b];
    forall r: Id | r in c ensures Settled(s, r, addr, prot, st, ps) {
      var j :| 0 <= j < |c| && c[j] == r;
      if j < k.u {
        assert c[..k.u][j] == r;
      } else {
        assert Ordered(s.recs, c);
        assert Segment(Get(s.recs, c[k.u]).flags) != 0;
      }
    }
  }

  // The next chain holds none of the answers found so far.
  lemma {:induction false} NextChain(s: State, b: nat, k: Cursor, addr: Data, now: int, prot: Flags, st: seq<Id>, ps: seq<Id>)
    requires Inv(s) && b < |s.table| && Threaded(s, k, st, ps) && Passed(s, b, addr, prot, st, ps)
    requires Good(s, b, addr, now, prot, st, ps)
    ensures Search(s, b, k.(u := 0), addr, now, prot, st, ps)
  {
    hide Bucket, MatchesAddr, Inv, Passed;
    forall j | 0 <= j < |s.table[b]| ensures s.table[b][j] !in st && s.table[b][j] !in ps {
      HashedHome(s, b, j);
    }
  }

  lemma {:induction false} SweepTableSearch(s: State, b: nat, k: Cursor, addr: Data, now: int, prot: Flags, st: seq<Id>, ps: seq<Id>)
    returns (st': seq<Id>, ps': seq<Id>)
    requires Inv(s) && b <= |s.table| && Threaded(s, k, st, ps) && Passed(s, b, addr, prot, st, ps)
    requires Good(s, b, addr, now, prot, st, ps)
    ensures var out := SweepTable(s, b, addr, now, prot, k);
      && Inv(out.s) && Shrinks(s, out.s) && ExpiredOnly(s, out.s, now)
      && Threaded(out.s, out.k, st', ps') && Good(out.s, |s.table|, addr, now, prot, st', ps')
      && Passed(out.s, |s.table|, addr, prot, st', ps')
    decreases |s.table| - b
  {
    hide Bucket, Inv, Shrinks, Threaded, Passed, MatchesAddr, SweepChain, ExpiredOnly;
    ShrinksRefl(s);
    ExpiredOnlyRefl(s, now);
    st', ps' := st, ps;
    if b < |s.table| {
      NextChain(s, b, k, addr, now, prot, st, ps);
      var f := SweepChain(s, b, addr, now, prot, k.(u := 0));
      st', ps' := SweepChainSearch(s, b, k.(u := 0), addr, now, prot, st, ps);
      st', ps' := SweepTableSearch(f.s, b + 1, f.k, addr, now, prot, st', ps');
      ShrinksTrans(s, f.s, SweepTable(f.s, b + 1, addr, now, prot, f.k).s);
      ExpiredOnlyTrans(s, f.s, SweepTable(f.s, b + 1, addr, now, prot, f.k).s, now);
    }
  }

  ghost predicate YieldsAddr(s: State, ans: Option<Id>, addr: Data, prot: Flags, out: seq<Id>) {
    && ans == (if out == [] then None else Some(out[0]))
    && forall i :: 0 <= i < |out| ==>
         FindNextAddr(s, out[i], addr, prot) == if i + 1 < |out| then Some(out[i + 1]) else None
  }

  lemma {:induction false} SettledAt(s: State, r: Id, addr: Data, prot: Flags, st: seq<Id>, ps: seq<Id>)
    requires Passed(s, |s.table|, addr, prot, st, ps) && s.Hashed(r)
    ensures Settled(s, r, addr, prot, st, ps)
  {
    hide Bucket, MatchesAddr;
  }

  lemma {:induction false} NoFurtherAddr(s: State, addr: Data, prot: Flags, st: seq<Id>, ps: seq<Id>)
    requires Inv(s) && |ps| < |s.lru| && s.lru[..|ps|] == ps
    requires Passed(s, |s.table|, addr, prot, st, ps)
    requires forall r: Id :: r in st ==> s.n <= r
    ensures !MatchesAddr(s.At(s.lru[|ps|]), addr, prot)
  {
    hide Bucket, ChainsOk, OrderOk, LruOk, UidsOk, LinksOk, BigOk;
    var r := s.lru[|ps|];
    if MatchesAddr(s.At(r), addr, prot) {
      assert s.Hashed(r);
      PastPrefix(s.lru, |ps|);
      SettledAt(s, r, addr, prot, st, ps);
    }
  }

  lemma {:induction false} YieldsAddrAt(f: Found, addr: Data, now: int, prot: Flags, st: seq<Id>, ps: seq<Id>, i: nat)
    requires Inv(f.s) && Threaded(f.s, f.k, st, ps) && Passed(f.s, |f.s.table|, addr, prot, st, ps)
    requires Good(f.s, |f.s.table|, addr, now, prot, st, ps)
    requires i < |st + ps|
    ensures FindNextAddr(Tie(f).s, (st + ps)[i], addr, prot) == if i + 1 < |st + ps| then Some((st + ps)[i + 1]) else None
  {
    hide Bucket, Inv, MatchesAddr, Next, Passed;
    var out := st + ps;
    if |ps| < |f.s.lru| {
      NoFurtherAddr(f.s, addr, prot, st, ps);
    }
    TieNext(f, st, ps, i);
    assert i + 1 < |out| ==> out[i + 1] in st || out[i + 1] in ps;
  }

  lemma {:induction false} YieldsAddrFirst(f: Found, addr: Data, now: int, prot: Flags, st: seq<Id>, ps: seq<Id>)
    requires Inv(f.s) && Threaded(f.s, f.k, st, ps) && Passed(f.s, |f.s.table|, addr, prot, st, ps)
    requires Good(f.s, |f.s.table|, addr, now, prot, st, ps)
    ensures AcceptAddr(Tie(f).s, Tie(f).ans, addr, prot) == if st + ps == [] then None else Some((st + ps)[0])
  {
    hide Bucket, Inv, MatchesAddr, Next, Passed;
    var out := st + ps;
    if |ps| < |f.s.lru| {
      NoFurtherAddr(f.s, addr, prot, st, ps);
    }
    TieFirst(f, st, ps);
    assert out != [] ==> out[0] in st || out[0] in ps;
  }

  lemma {:induction false} TieYieldsAddr(f: Found, addr: Data, now: int, prot: Flags, st: seq<Id>, ps: seq<Id>)
    requires Inv(f.s) && Threaded(f.s, f.k, st, ps) && Passed(f.s, |f.s.table|, addr, prot, st, ps)
    requires Good(f.s, |f.s.table|, addr, now, prot, st, ps)
    ensures YieldsAddr(Tie(f).s, AcceptAddr(Tie(f).s, Tie(f).ans, addr, prot), addr, prot, st + ps)
  {
    YieldsAddrFirst(f, addr, now, prot, st, ps);
    forall i | 0 <= i < |st + ps|
      ensures FindNextAddr(Tie(f).s, (st + ps)[i], addr, prot) == if i + 1 < |st + ps| then Some((st + ps)[i + 1]) else None
    {
      YieldsAddrAt(f, addr, now, prot, st, ps, i);
    }
  }

  // What left the table had expired; what stayed is as it was.
  lemma {:induction false} StillThere(s: State, t: State, now: int, r: Id)
    requires Inv(s) && Inv(t) && Shrinks(s, t) && ExpiredOnly(s, t, now)
    ensures t.Hashed(r) ==> s.Hashed(r) && t.At(r) == s.At(r)
    ensures s.Hashed(r) && !Expired(now, s.At(r)) ==> t.Hashed(r)
  {
    hide Bucket, PoolOk, RecsOk, FindableOk, OrderOk, LruOk, UidsOk, LinksOk, BigOk;
    assert Get(t.recs, r) == Get(s.recs, r) || Get(t.recs, r) == Freed(Get(s.recs, r));
    assert t.Home(r) == s.Home(r);
    if t.Hashed(r) {
      assert ChainOk(t, t.Home(r), t.table[t.Home(r)]) && EntryOk(t, r, t.Home(r));
    }
  }

  // A lookup by address, repeated until it gives no more, yields each live
  // reverse record for the address exactly once and nothing else.
  lemma {:induction false} AddrLookup(s: State, addr: Data, now: int, prot: Flags) returns (out: seq<Id>)
    requires Inv(s)
    ensures var o := FindByAddr(s, addr, now, prot);
      && Inv(o.s) && Shrinks(s, o.s) && ExpiredOnly(s, o.s, now)
      && YieldsAddr(o.s, o.ans, addr, prot, out) && NoDup(out)
      && forall r: Id :: r in out <==> s.Hashed(r) && MatchesAddr(s.At(r), addr, prot) && !Expired(now, s.At(r))
  {
    hide Bucket, Inv, Shrinks, SweepTable, MatchesAddr, Tie, ExpiredOnly;
    var f := SweepTable(s, 0, addr, now, prot, START);
    var st, ps := SweepTableSearch(s, 0, START, addr, now, prot, [], []);
    out := st + ps;
    ShrinksShape(s, f.s);
    TieKeeps(f);
    SameTableExpired(f.s, Tie(f).s, now);
    ShrinksTrans(s, f.s, Tie(f).s);
    ExpiredOnlyTrans(s, f.s, Tie(f).s, now);
    PoolOf(f.s);
    ThreadedNoDup(f.s, f.k, st, ps);
    forall r: Id ensures r in out <==> s.Hashed(r) && MatchesAddr(s.At(r), addr, prot) && !Expired(now, s.At(r)) {
      StillThere(s, f.s, now, r);
      if f.s.Hashed(r) {
        assert r in f.s.table[f.s.Home(r)] ==> Settled(f.s, r, addr, prot, st, ps);
      }
    }
    assert YieldsAddr(Tie(f).s, AcceptAddr(Tie(f).s, Tie(f).ans, addr, prot), addr, prot, out) by {
      TieYieldsAddr(f, addr, now, prot, st, ps);
    }
  }
}
