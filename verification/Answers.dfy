/**
 Looking up a name: the answers, taken one after the other through `next`, are
 exactly the matching records that stay in the table.
 */
module Answers {
  import opened Names
  import opened Records
  import opened State
  import opened Keeps
  import opened Scans
  import opened Lookup
  import opened Batch

  // ---------- the invariant ----------

  ghost predicate CursorOk(s: State, b: nat, k: Cursor) {
    && b < |s.table| && k.u <= |s.table[b]|
    && (k.insert.Some? ==> k.insert.value < k.u && Group(Get(s.recs, s.table[b][k.insert.value]).flags) == k.group)
  }

  // Where each entry goes.
  function MovedTo(u: nat, k: nat, i: nat): nat {
    if i < k || i > u then i else if i == u then k else i + 1
  }

  lemma {:induction false} MoveUpAt(c: seq<Id>, u: nat, k: nat)
    requires k <= u < |c|
    ensures |MoveUp(c, u, k)| == |c|
    ensures forall i :: 0 <= i < |c| ==> MoveUp(c, u, k)[MovedTo(u, k, i)] == c[i]
    ensures forall i :: 0 <= i < |c| ==> MoveUp(c, u, k)[i] == if i < k then c[i] else if i == k then c[u] else if i <= u then c[i - 1] else c[i]
  {}

  lemma {:induction false} MoveUpFacts(c: seq<Id>, u: nat, k: nat)
    requires NoDup(c) && k <= u < |c|
    ensures NoDup(MoveUp(c, u, k)) && |MoveUp(c, u, k)| == |c|
    ensures forall r: Id :: r in MoveUp(c, u, k) <==> r in c
    ensures forall r: Id :: r in MoveUp(c, u, k)[..u + 1] <==> r in c[..u] || r == c[u]
  {
    MoveUpAt(c, u, k);
    MoveUpNoDup(c, u, k);
    MoveUpIn(c, u, k);
    MoveUpPassed(c, u, k);
  }

  lemma {:induction false} MoveUpNoDup(c: seq<Id>, u: nat, k: nat)
    requires NoDup(c) && k <= u < |c|
    ensures NoDup(MoveUp(c, u, k))
  {
    MoveUpAt(c, u, k);
    hide MoveUp;
  }

  lemma {:induction false} MoveUpIn(c: seq<Id>, u: nat, k: nat)
    requires k <= u < |c|
    ensures forall r: Id :: r in MoveUp(c, u, k) <==> r in c
  {
    MoveUpAt(c, u, k);
    hide MoveUp;
    var d := MoveUp(c, u, k);
    forall r: Id | r in c ensures r in d {
      var i :| 0 <= i < |c| && c[i] == r;
      assert d[MovedTo(u, k, i)] == r;
    }
    forall r: Id | r in d ensures r in c {
      var i :| 0 <= i < |d| && d[i] == r;
    }
  }

  lemma {:induction false} MoveUpPassed(c: seq<Id>, u: nat, k: nat)
    requires k <= u < |c|
    ensures |MoveUp(c, u, k)| == |c|
    ensures forall r: Id :: r in MoveUp(c, u, k)[..u + 1] <==> r in c[..u] || r == c[u]
  {
    assert c[..u + 1] == c[..u] + [c[u]] && MoveUp(c, u, k)[..u + 1] == MoveUp(c[..u + 1], u, k);
    MoveUpIn(c[..u + 1], u, k);
  }

  lemma {:induction false} MoveUpOrdered(recs: map<Id, Rec>, c: seq<Id>, u: nat, k: nat)
    requires Ordered(recs, c) && k < u < |c|
    requires Group(Get(recs, c[k]).flags) == Group(Get(recs, c[u]).flags)
    ensures Ordered(recs, MoveUp(c, u, k))
  {
    var d := MoveUp(c, u, k);
    forall i, j | 0 <= i < j < |d| ensures Segment(Get(recs, d[i]).flags) <= Segment(Get(recs, d[j]).flags) {
      var i' := if i < k || i > u then i else if i == k then u else i - 1;
      var j' := if j < k || j > u then j else if j == k then u else j - 1;
      assert d[i] == c[i'] && d[j] == c[j'];
      assert Segment(Get(recs, c[k]).flags) == Segment(Get(recs, c[u]).flags);
      if i' > j' {
        assert Segment(Get(recs, c[k]).flags) <= Segment(Get(recs, c[j']).flags);
      }
    }
  }

  lemma {:induction false} GatherKeeps(s: State, b: nat, u: nat, k: Cursor)
    requires Inv(s) && b < |s.table| && u < |s.table[b]|
    ensures Inv(Gather(s, s.table[b][u], k).s)
    ensures Gather(s, s.table[b][u], k).s.recs == s.recs
  {
    hide Bucket, Inv;
    var r := s.table[b][u];
    HashedStatic(s, b, u);
    if Static(s.At(r).flags) {
      NextKeeps(s, Gather(s, r, k).s);
    } else {
      HashedInUse(s, b, u);
      TouchKeeps(s, r);
    }
  }

  lemma {:induction false} HashedInUse(s: State, b: nat, u: nat)
    requires Inv(s) && b < |s.table| && u < |s.table[b]| && s.table[b][u] < s.n
    ensures s.table[b][u] in s.lru && InUse(s.At(s.table[b][u]).flags)
  {
    hide Bucket;
    assert ChainOk(s, b, s.table[b]) && EntryOk(s, s.table[b][u], b);
  }

  lemma {:induction false} NextKeeps(s: State, t: State)
    requires Inv(s) && t == s.(next := t.next, spare := t.spare)
    ensures Inv(t)
  {
    hide Bucket, ChainsOk, OrderOk, LruOk, FindableOk;
    SameTable(s, t);
    assert BigSet(t) == BigSet(s);
  }

  lemma {:induction false} PromoteKeeps(s: State, b: nat, k: Cursor, noRR: bool)
    requires Inv(s) && CursorOk(s, b, k) && k.u < |s.table[b]|
    ensures Inv(Promote(s, b, k, noRR).s) && CursorOk(Promote(s, b, k, noRR).s, b, Promote(s, b, k, noRR).k)
    ensures forall r: Id :: r in Promote(s, b, k, noRR).s.table[b][..k.u + 1] <==> r in s.table[b][..k.u] || r == s.table[b][k.u]
  {
    hide Bucket, PoolOk, RecsOk, FindableOk, LruOk, UidsOk, LinksOk, BigOk;
    var c, p := s.table[b], Promote(s, b, k, noRR);
    assert ChainOk(s, b, c) && Ordered(s.recs, c);
    if k.insert.Some? && Group(s.At(c[k.u]).flags) == k.group {
      MoveUpFacts(c, k.u, k.insert.value);
      MoveUpOrdered(s.recs, c, k.u, k.insert.value);
      ReorderKeeps(s, b, MoveUp(c, k.u, k.insert.value));
      assert MoveUp(c, k.u, k.insert.value)[k.insert.value + 1] == c[k.insert.value];
    }
  }

  // ---------- the answers ----------

  // `st` are the static answers so far, threaded in order; `ps` those from the
  // pool, now the first records of the LRU list.
  ghost predicate Threaded(s: State, k: Cursor, st: seq<Id>, ps: seq<Id>) {
    && |ps| <= |s.lru| && s.lru[..|ps|] == ps
    && NoDup(st) && (forall r: Id :: r in st ==> s.n <= r)
    && (if st == [] then k.first.None? && k.last.None?
        else k.first == Some(st[0]) && k.last == Some(st[|st| - 1]))
    && (forall j :: 0 <= j < |st| - 1 ==> st[j] in s.next && s.next[st[j]] == Some(st[j + 1]))
  }

  // The entries passed so far are live, and the matching ones are the answers.
  ghost predicate Covers(s: State, c: seq<Id>, name: Name, now: int, prot: Flags, st: seq<Id>, ps: seq<Id>) {
    && (forall r: Id :: r in c ==> !Expired(now, Get(s.recs, r)))
    && (forall r: Id :: r in c ==> (Matches(Get(s.recs, r), name, prot) <==> r in st || r in ps))
    && (forall r: Id :: r in st || r in ps ==> r in c)
  }

  lemma {:induction false} EvictFacts(s: State, b: nat, u: nat)
    requires b < |s.table| && u < |s.table[b]|
    ensures var t, r := Evict(s, b, u), s.table[b][u];
      && t.table == s.table[b := Cut(s.table[b], u)] && t.mix == s.mix && t.n == s.n
      && (forall p: Id :: p != r ==> Get(t.recs, p) == Get(s.recs, p))
      && Get(t.recs, r) == (if Static(s.At(r).flags) then Get(s.recs, r) else Freed(Get(s.recs, r)))
      && (forall p: Id :: Get(t.recs, p).name == Get(s.recs, p).name)
  {
    hide Bucket;
    var t, r := Evict(s, b, u), s.table[b][u];
    if !Static(s.At(r).flags) {
      Frame(s.recs, t.recs, r, Freed(s.At(r)));
    }
  }

  lemma {:induction false} NotInPrefix(l: seq<Id>, n: nat, i: nat)
    requires n <= |l| && i < |l| && l[i] !in l[..n]
    ensures n <= i
  {
    if i < n {
      InPrefix(l, n, i);
    }
  }

  lemma {:induction false} InPrefix(l: seq<Id>, n: nat, i: nat)
    requires i < n <= |l|
    ensures l[i] in l[..n]
  {
    assert l[..n][i] == l[i];
  }

  lemma {:induction false} EvictThreaded(s: State, b: nat, u: nat, k: Cursor, st: seq<Id>, ps: seq<Id>)
    requires PoolOk(s) && b < |s.table| && u < |s.table[b]|
    requires s.table[b][u] !in ps && Threaded(s, k, st, ps)
    ensures Threaded(Evict(s, b, u), k, st, ps)
  {
    var r, t := s.table[b][u], Evict(s, b, u);
    if !Static(s.At(r).flags) && r in s.lru {
      var i := Index(s.lru, r);
      NotInPrefix(s.lru, |ps|, i);
    }
    assert t.lru[..|ps|] == ps;
  }

  lemma {:induction false} GatherThreaded(s: State, r: Id, k: Cursor, st: seq<Id>, ps: seq<Id>)
    requires PoolOk(s) && Threaded(s, k, st, ps) && r !in st && r !in ps
    requires Static(s.At(r).flags) <==> s.n <= r
    ensures var g := Gather(s, r, k);
      if s.n <= r then Threaded(g.s, g.k, st + [r], ps) else Threaded(g.s, g.k, st, [r] + ps)
  {
    var g := Gather(s, r, k);
    if s.n <= r {
      assert forall j :: 0 <= j < |st| ==> (st + [r])[j] == st[j];
    } else {
      var l := Without(s.lru, r);
      if r in s.lru {
        var i := Index(s.lru, r);
        NotInPrefix(s.lru, |ps|, i);
      }
      assert l[..|ps|] == ps;
      assert g.s.lru[..|ps| + 1] == [r] + ps;
    }
  }

  lemma {:induction false} EvictCovers(s: State, b: nat, k: Cursor, name: Name, now: int, prot: Flags, st: seq<Id>, ps: seq<Id>)
    requires Inv(s) && CursorOk(s, b, k) && k.u < |s.table[b]| && Threaded(s, k, st, ps)
    requires Covers(s, s.table[b][..k.u], name, now, prot, st, ps)
    ensures var t := Evict(s, b, k.u);
      && CursorOk(t, b, k) && Threaded(t, k, st, ps)
      && Covers(t, t.table[b][..k.u], name, now, prot, st, ps)
  {
    hide Bucket, Threaded, Matches, OrderOk, LruOk, FindableOk, UidsOk, LinksOk, BigOk;
    var t, r, c := Evict(s, b, k.u), s.table[b][k.u], s.table[b];
    assert ChainOk(s, b, c) && EntryOk(s, r, b);
    assert t.table[b] == Cut(c, k.u) && t.table[b][..k.u] == c[..k.u];
    assert r !in c[..k.u];
    EvictThreaded(s, b, k.u, k, st, ps);
    if r < s.n {
      Frame(s.recs, t.recs, r, Freed(s.At(r)));
    }
    if k.insert.Some? {
      assert t.table[b][k.insert.value] == c[k.insert.value] && c[k.insert.value] in c[..k.u];
    }
  }

  lemma {:induction false} SkipCovers(s: State, b: nat, k: Cursor, name: Name, now: int, prot: Flags, st: seq<Id>, ps: seq<Id>)
    requires Inv(s) && CursorOk(s, b, k) && k.u < |s.table[b]| && Threaded(s, k, st, ps)
    requires Covers(s, s.table[b][..k.u], name, now, prot, st, ps)
    requires !Expired(now, s.At(s.table[b][k.u])) && !Matches(s.At(s.table[b][k.u]), name, prot)
    ensures var k' := k.(u := k.u + 1);
      && CursorOk(s, b, k') && Threaded(s, k', st, ps)
      && Covers(s, s.table[b][..k'.u], name, now, prot, st, ps)
  {
    hide Bucket, Matches, PoolOk, RecsOk, OrderOk, LruOk, FindableOk, UidsOk, LinksOk, BigOk;
    var c := s.table[b];
    assert ChainOk(s, b, c);
    assert c[..k.u + 1] == c[..k.u] + [c[k.u]] && c[k.u] !in c[..k.u];
  }

  lemma {:induction false} GatherCovers(s: State, b: nat, k: Cursor, name: Name, now: int, prot: Flags, noRR: bool, st: seq<Id>, ps: seq<Id>)
    returns (st': seq<Id>, ps': seq<Id>)
    requires Inv(s) && CursorOk(s, b, k) && k.u < |s.table[b]| && Threaded(s, k, st, ps)
    requires Covers(s, s.table[b][..k.u], name, now, prot, st, ps)
    requires !Expired(now, s.At(s.table[b][k.u])) && Matches(s.At(s.table[b][k.u]), name, prot)
    ensures var g := Gather(s, s.table[b][k.u], k); var p := Promote(g.s, b, g.k, noRR);
      && Inv(p.s) && CursorOk(p.s, b, p.k) && Threaded(p.s, p.k, st', ps')
      && Covers(p.s, p.s.table[b][..p.k.u], name, now, prot, st', ps')
      && Shrinks(s, p.s)
  {
    hide Bucket, Matches, Inv, Threaded, Promote, Covers, Shrinks;
    var r, c := s.table[b][k.u], s.table[b];
    var g := Gather(s, r, k);
    var p := Promote(g.s, b, g.k, noRR);
    PassedOnce(s, b, k.u);
    CoversOnly(s, c[..k.u], name, now, prot, st, ps);
    assert r !in st && r !in ps;
    HashedStatic(s, b, k.u);
    GatherKeeps(s, b, k.u, k);
    PromoteKeeps(g.s, b, g.k, noRR);
    PoolOf(s);
    GatherThreaded(s, r, k, st, ps);
    if s.n <= r {
      st', ps' := st + [r], ps;
    } else {
      st', ps' := st, [r] + ps;
    }
    ThreadedMoves(g.s, g.k, p.s, p.k, st', ps');
    GatherShrinks(s, b, k, noRR);
    CoversMore(s, p.s, c[..k.u], p.s.table[b][..p.k.u], r, name, now, prot, st, ps, st', ps');
  }

  lemma {:induction false} CoversOnly(s: State, c: seq<Id>, name: Name, now: int, prot: Flags, st: seq<Id>, ps: seq<Id>)
    requires Covers(s, c, name, now, prot, st, ps)
    ensures forall r: Id :: r in st || r in ps ==> r in c
  {
    hide Matches;
  }

  lemma {:induction false} CoversMore(s: State, t: State, c: seq<Id>, d: seq<Id>, r: Id, name: Name, now: int, prot: Flags,
                                      st: seq<Id>, ps: seq<Id>, st': seq<Id>, ps': seq<Id>)
    requires Covers(s, c, name, now, prot, st, ps) && t.recs == s.recs && (forall x: Id :: x in d <==> x in c || x == r)
    requires !Expired(now, s.At(r)) && Matches(s.At(r), name, prot)
    requires (st' == st + [r] && ps' == ps) || (st' == st && ps' == [r] + ps)
    ensures Covers(t, d, name, now, prot, st', ps')
  {
    hide Matches;
    assert forall x: Id :: x in st' || x in ps' <==> x in st || x in ps || x == r;
  }

  lemma {:induction false} GatherShrinks(s: State, b: nat, k: Cursor, noRR: bool)
    requires Inv(s) && CursorOk(s, b, k) && k.u < |s.table[b]|
    ensures var g := Gather(s, s.table[b][k.u], k); Shrinks(s, Promote(g.s, b, g.k, noRR).s)
  {
    hide Bucket, Inv, Promote;
    var r := s.table[b][k.u];
    var g := Gather(s, r, k);
    HashedStatic(s, b, k.u);
    GatherKeeps(s, b, k.u, k);
    PoolOf(s);
    if r < s.n {
      WithoutFacts(s.lru, r);
      HashedInUse(s, b, k.u);
    }
    PromoteShrinks(g.s, b, g.k, noRR);
  }

  lemma {:induction false} PoolOf(s: State)
    requires Inv(s)
    ensures PoolOk(s)
  {}

  lemma {:induction false} PassedOnce(s: State, b: nat, u: nat)
    requires Inv(s) && b < |s.table| && u < |s.table[b]|
    ensures s.table[b][u] !in s.table[b][..u]
  {
    hide Bucket, EntryOk;
    assert ChainOk(s, b, s.table[b]);
  }

  lemma {:induction false} ThreadedMoves(s: State, k: Cursor, t: State, k': Cursor, st: seq<Id>, ps: seq<Id>)
    requires Threaded(s, k, st, ps) && t == s.(table := t.table)
    requires k'.first == k.first && k'.last == k.last
    ensures Threaded(t, k', st, ps)
  {}

  lemma {:induction false} PromoteShrinks(s: State, b: nat, k: Cursor, noRR: bool)
    requires Inv(s) && CursorOk(s, b, k) && k.u < |s.table[b]|
    ensures forall b', r: Id :: 0 <= b' < |s.table| ==> (r in Promote(s, b, k, noRR).s.table[b'] <==> r in s.table[b'])
  {
    hide Bucket, Inv, EntryOk;
    var c := s.table[b];
    ChainNoDup(s, b);
    if k.insert.Some? && Group(s.At(c[k.u]).flags) == k.group {
      MoveUpFacts(c, k.u, k.insert.value);
    }
  }

  lemma {:induction false} ChainNoDup(s: State, b: nat)
    requires Inv(s) && b < |s.table|
    ensures NoDup(s.table[b])
  {
    hide Bucket, EntryOk;
    assert ChainOk(s, b, s.table[b]);
  }

  lemma {:induction false} SweepAnswers(s: State, b: nat, name: Name, now: int, prot: Flags, noRR: bool, k: Cursor, st: seq<Id>, ps: seq<Id>)
    returns (st': seq<Id>, ps': seq<Id>)
    requires Inv(s) && CursorOk(s, b, k) && Threaded(s, k, st, ps)
    requires Covers(s, s.table[b][..k.u], name, now, prot, st, ps)
    ensures var out := Sweep(s, b, name, now, prot, noRR, k);
      && Inv(out.s) && Shrinks(s, out.s) && Threaded(out.s, out.k, st', ps')
      && Covers(out.s, out.s.table[b], name, now, prot, st', ps')
    decreases |s.table[b]| - k.u
  {
    hide Bucket, Inv, Shrinks, Threaded, Covers, Matches, Evict, Gather, Promote;
    ShrinksRefl(s);
    if k.u == |s.table[b]| {
      assert s.table[b][..k.u] == s.table[b];
      st', ps' := st, ps;
    } else {
      var r := s.table[b][k.u];
      if Expired(now, s.At(r)) || s.Outdated(r) {
        var t := Evict(s, b, k.u);
        EvictKeeps(s, b, k.u);
        EvictShrinks(s, b, k.u);
        EvictCovers(s, b, k, name, now, prot, st, ps);
        st', ps' := SweepAnswers(t, b, name, now, prot, noRR, k, st, ps);
        ShrinksTrans(s, t, Sweep(t, b, name, now, prot, noRR, k).s);
      } else if Matches(s.At(r), name, prot) {
        var g := Gather(s, r, k);
        var p := Promote(g.s, b, g.k, noRR);
        var st1, ps1 := GatherCovers(s, b, k, name, now, prot, noRR, st, ps);
        st', ps' := SweepAnswers(p.s, b, name, now, prot, noRR, p.k, st1, ps1);
        ShrinksTrans(s, p.s, Sweep(p.s, b, name, now, prot, noRR, p.k).s);
      } else {
        SkipCovers(s, b, k, name, now, prot, st, ps);
        st', ps' := SweepAnswers(s, b, name, now, prot, noRR, k.(u := k.u + 1), st, ps);
      }
    }
  }

  // What a caller gets by asking again with each answer until there is none.
  ghost predicate Yields(s: State, ans: Option<Id>, name: Name, prot: Flags, out: seq<Id>) {
    && ans == (if out == [] then None else Some(out[0]))
    && forall i :: 0 <= i < |out| ==>
         FindNext(s, out[i], name, prot) == if i + 1 < |out| then Some(out[i + 1]) else None
  }

  lemma {:induction false} IndexUnique(l: seq<Id>, i: nat)
    requires NoDup(l) && i < |l|
    ensures Index(l, l[i]) == i
  {}

  // The LRU record after the gathered ones.
  function Following(s: State, ps: seq<Id>): Option<Id> {
    if |ps| < |s.lru| then Some(s.lru[|ps|]) else None
  }

  lemma {:induction false} TieFirst(f: Found, st: seq<Id>, ps: seq<Id>)
    requires Threaded(f.s, f.k, st, ps)
    ensures Tie(f).ans == if st + ps == [] then Following(f.s, ps) else Some((st + ps)[0])
  {
    assert ps != [] ==> ps[0] == f.s.lru[0];
  }

  // From each answer `next` leads to the one after it.
  lemma {:induction false} TieNext(f: Found, st: seq<Id>, ps: seq<Id>, i: nat)
    requires Inv(f.s) && Threaded(f.s, f.k, st, ps) && i < |st + ps|
    ensures Next(Tie(f).s, (st + ps)[i]) == if i + 1 < |st + ps| then Some((st + ps)[i + 1]) else Following(f.s, ps)
  {
    hide Bucket, Inv;
    var t, out := Tie(f), st + ps;
    PoolOf(f.s);
    assert ps != [] ==> ps[0] == f.s.lru[0];
    if i < |st| {
      assert st[i] in st;
    } else {
      var j := i - |st|;
      assert ps[j] == f.s.lru[j] && ps[j] in f.s.lru;
      IndexUnique(f.s.lru, j);
      assert j + 1 < |ps| ==> ps[j + 1] == f.s.lru[j + 1];
    }
  }

  lemma {:induction false} PastPrefix(l: seq<Id>, n: nat)
    requires NoDup(l) && n < |l|
    ensures l[n] !in l[..n]
  {}

  // It cannot be another answer: it would be in the bucket that was swept.
  lemma {:induction false} NoFurther(s: State, name: Name, now: int, prot: Flags, st: seq<Id>, ps: seq<Id>)
    requires Inv(s) && |ps| < |s.lru| && s.lru[..|ps|] == ps
    requires Covers(s, s.table[s.BucketOf(name)], name, now, prot, st, ps)
    requires forall r: Id :: r in st ==> s.n <= r
    ensures !Matches(s.At(s.lru[|ps|]), name, prot)
  {
    hide Bucket, ChainsOk, OrderOk, LruOk, UidsOk, LinksOk, BigOk;
    var r := s.lru[|ps|];
    if Matches(s.At(r), name, prot) {
      assert s.Hashed(r);
      BucketIgnoresCase(s.mix, s.At(r).name, name, |s.table|);
      PastPrefix(s.lru, |ps|);
    }
  }

  lemma {:induction false} YieldsAt(f: Found, name: Name, now: int, prot: Flags, st: seq<Id>, ps: seq<Id>, i: nat)
    requires Inv(f.s) && Threaded(f.s, f.k, st, ps)
    requires Covers(f.s, f.s.table[f.s.BucketOf(name)], name, now, prot, st, ps)
    ensures i < |st + ps| ==>
      FindNext(Tie(f).s, (st + ps)[i], name, prot) == if i + 1 < |st + ps| then Some((st + ps)[i + 1]) else None
    ensures Accept(Tie(f).s, Tie(f).ans, name, prot) == if st + ps == [] then None else Some((st + ps)[0])
  {
    hide Bucket, Inv, Matches, Next;
    var out := st + ps;
    TieFirst(f, st, ps);
    if |ps| < |f.s.lru| {
      NoFurther(f.s, name, now, prot, st, ps);
    }
    if i < |out| {
      TieNext(f, st, ps, i);
      assert i + 1 < |out| ==> out[i + 1] in st || out[i + 1] in ps;
    }
    assert out != [] ==> out[0] in st || out[0] in ps;
  }

  lemma {:induction false} TieYields(f: Found, name: Name, now: int, prot: Flags, st: seq<Id>, ps: seq<Id>)
    requires Inv(f.s) && Threaded(f.s, f.k, st, ps)
    requires Covers(f.s, f.s.table[f.s.BucketOf(name)], name, now, prot, st, ps)
    ensures Yields(Tie(f).s, Accept(Tie(f).s, Tie(f).ans, name, prot), name, prot, st + ps)
  {
    YieldsAt(f, name, now, prot, st, ps, 0);
    forall i | 0 <= i < |st + ps|
      ensures FindNext(Tie(f).s, (st + ps)[i], name, prot) == if i + 1 < |st + ps| then Some((st + ps)[i + 1]) else None
    {
      YieldsAt(f, name, now, prot, st, ps, i);
    }
  }

  lemma {:induction false} ThreadedNoDup(s: State, k: Cursor, st: seq<Id>, ps: seq<Id>)
    requires PoolOk(s) && Threaded(s, k, st, ps)
    ensures NoDup(st + ps)
  {
    forall i | 0 <= i < |ps| ensures ps[i] == s.lru[i] && ps[i] < s.n {
      assert s.lru[..|ps|][i] == s.lru[i] && s.lru[i] in s.lru;
    }
    assert forall i :: 0 <= i < |st| ==> st[i] in st;
  }

  // A lookup by name, repeated until it gives no more, yields each record of
  // that name and type left in the table exactly once, and none is expired.
  lemma {:induction false} NameLookup(s: State, name: Name, now: int, prot: Flags, noRR: bool) returns (out: seq<Id>)
    requires Inv(s)
    ensures var o := FindByName(s, name, now, prot, noRR);
      && Inv(o.s) && Shrinks(s, o.s)
      && Yields(o.s, o.ans, name, prot, out) && NoDup(out)
      && (forall r: Id :: r in out <==> o.s.Hashed(r) && Matches(o.s.At(r), name, prot))
      && (forall r: Id :: r in out ==> !Expired(now, o.s.At(r)))
  {
    hide Bucket, Inv, Shrinks, Sweep, Matches, Yields, Tie;
    var b := s.BucketOf(name);
    var f := Sweep(s, b, name, now, prot, noRR, START);
    assert s.table[b][..0] == [];
    var st, ps := SweepAnswers(s, b, name, now, prot, noRR, START, [], []);
    out := st + ps;
    ShrinksShape(s, f.s);
    TieYields(f, name, now, prot, st, ps);
    TieKeeps(f);
    ShrinksTrans(s, f.s, Tie(f).s);
    PoolOf(f.s);
    ThreadedNoDup(f.s, f.k, st, ps);
    var o := FindByName(s, name, now, prot, noRR);
    forall r: Id ensures r in out <==> o.s.Hashed(r) && Matches(o.s.At(r), name, prot) {
      HomeOfMatch(f.s, r, name, prot);
    }
  }

  lemma {:induction false} HomeOfMatch(s: State, r: Id, name: Name, prot: Flags)
    ensures Matches(s.At(r), name, prot) ==> s.Home(r) == s.BucketOf(name)
  {
    if Matches(s.At(r), name, prot) {
      BucketIgnoresCase(s.mix, s.At(r).name, name, |s.table|);
    }
  }

  lemma {:induction false} TieKeeps(f: Found)
    requires Inv(f.s)
    ensures Inv(Tie(f).s) && Shrinks(f.s, Tie(f).s)
    ensures Tie(f).s == f.s.(next := Tie(f).s.next)
  {
    hide Inv;
    NextKeeps(f.s, Tie(f).s);
  }
}
