/**
 A batch of inserts becomes visible as a whole when it is committed, and not at
 all once an insert in it has failed.
 */
module Atomic {
  import opened Names
  import opened Records
  import opened State
  import opened Keeps
  import opened Ops
  import opened Scans
  import opened Batch
  import opened Clears
  import opened Answers
  import opened AddrAnswers
  import opened Rehash
  import opened Runs
  import opened Exact
  import opened Replace
  import Lookup

  // ---------- a failed batch ----------

  // The entry was put in the table by a `Define` of the run.
  ghost predicate Defined(ops: seq<Op>, r: Id) {
    exists i :: 0 <= i < |ops| && ops[i].Define? && ops[i].rec == r
  }

  // No step but a commit adds to the table, apart from a `Define`.
  lemma {:induction false} StepAdds(s: State, op: Op)
    requires Inv(s) && Pow2(|s.table|) && Enabled(s, op) && !op.Start? && (op.End? ==> s.err)
    ensures var t := Step(s, op);
      && (s.err ==> t.err && t.pending == s.pending)
      && forall r: Id :: t.Hashed(r) ==> s.Hashed(r) || (op.Define? && op.rec == r)
  {
    hide Bucket, Inv, Insert, Insertable, Lookup.FindByName, Lookup.FindByAddr, Grow, UnhashDhcp, Pow2, Shrinks;
    var t := Step(s, op);
    match op
    case Add(name, data, now, ttl, flags, malloc) => AddShows(s, name, data, now, ttl, flags, malloc);
    case Point(c, to) => PointShows(s, c, to);
    case End =>
    case Find(name, now, prot, noRR) =>
      var out := NameLookup(s, name, now, prot, noRR);
      ShrinksShows(s, t);
    case FindAddr(addr, now, prot) =>
      var out := AddrLookup(s, addr, now, prot);
      ShrinksShows(s, t);
    case Define(r, x) => DefineShows(s, r, x);
    case Resize(size, malloc) => GrowInvisible(s, size, malloc);
    case DropDhcp => ForgetShows(s);
  }

  lemma {:induction false} AddShows(s: State, name: Option<Name>, data: Option<Data>, now: int, ttl: nat, flags: Flags, malloc: bool)
    requires Inv(s) && Insertable(name, data, flags)
    ensures var out := Insert(s, name, data, now, ttl, flags, malloc);
      && (forall r: Id :: out.s.Hashed(r) ==> s.Hashed(r)) && (s.err ==> out.s == s)
  {
    hide Bucket, Inv, Shrinks, ScanFree, TakeSlot, Settle, Took, Repeats;
    var out := Insert(s, name, data, now, ttl, flags, malloc);
    var t := InsertEffect(s, name, data, now, ttl, flags, malloc);
    ShrinksShows(s, t);
    if out.rec.Some? && out.rec.value < s.n {
      ShrinksShape(s, t);
      forall r: Id | out.s.Hashed(r) ensures t.Hashed(r) {
        TookHashed(t, out.s, out.rec.value, name, data, now + ttl, flags, r);
      }
    }
  }

  lemma {:induction false} ShrinksShows(s: State, t: State)
    requires Shrinks(s, t)
    ensures t.err == s.err && t.pending == s.pending && forall r: Id :: t.Hashed(r) ==> s.Hashed(r)
  {
    hide Bucket;
    forall r: Id ensures t.Hashed(r) ==> s.Hashed(r) {
      HashedIn(s, t, r);
    }
  }

  lemma {:induction false} PointShows(s: State, c: Id, to: Option<Id>)
    ensures forall r: Id :: SetLink(s, c, to).Hashed(r) <==> s.Hashed(r)
  {
    hide Bucket;
    var s', t := if to.Some? then NextUid(s, to.value) else s, SetLink(s, c, to);
    forall r: Id ensures t.Hashed(r) <==> s.Hashed(r) {
      assert t.At(r).name == s'.At(r).name == s.At(r).name;
    }
  }

  lemma {:induction false} DefineShows(s: State, r: Id, x: Rec)
    requires Inv(s) && Enabled(s, Define(r, x))
    ensures forall p: Id :: AddStatic(s, r, x).Hashed(p) <==> s.Hashed(p) || p == r
  {
    hide Bucket, OrderOk, LruOk, UidsOk, LinksOk, BigOk, Place;
    var s', t := s.(recs := s.recs[r := x]), AddStatic(s, r, x);
    Frame(s.recs, s'.recs, r, x);
    forall p: Id ensures t.Hashed(p) <==> s.Hashed(p) || p == r {
      assert t.Home(p) == s'.Home(p) && (p != r ==> s'.Home(p) == s.Home(p));
      var c := s.table[s'.Home(r)];
      assert forall y: Id :: y in Inserted(c, Place(s'.recs, c, x.flags), r) <==> y in c || y == r;
    }
  }

  lemma {:induction false} ForgetIn(recs: map<Id, Rec>, c: seq<Id>)
    ensures forall r: Id :: r in Forget(recs, c) <==> r in c && F_DHCP !in Get(recs, r).flags
  {
    if c != [] {
      ForgetIn(recs, c[1..]);
    }
  }

  lemma {:induction false} ForgetShows(s: State)
    requires Inv(s)
    ensures forall r: Id :: UnhashDhcp(s, 0).Hashed(r) <==> s.Hashed(r) && F_DHCP !in s.At(r).flags
  {
    hide Bucket, Inv, UnhashDhcp, Forget;
    var t := UnhashDhcp(s, 0);
    DhcpForgotten(s, 0);
    forall r: Id ensures t.Hashed(r) <==> s.Hashed(r) && F_DHCP !in s.At(r).flags {
      ForgetIn(s.recs, s.table[s.Home(r)]);
      assert t.Home(r) == s.Home(r);
    }
  }

  ghost predicate Uncommitted(ops: seq<Op>) {
    forall i :: 0 <= i < |ops| ==> !ops[i].Start? && !ops[i].End?
  }

  lemma {:induction false} DefinedLater(ops: seq<Op>, r: Id)
    requires ops != [] && Defined(ops[1..], r)
    ensures Defined(ops, r)
  {
    var i :| 0 <= i < |ops[1..]| && ops[1..][i].Define? && ops[1..][i].rec == r;
    assert ops[i + 1].Define? && ops[i + 1].rec == r;
  }

  lemma {:induction false} RunAdds(s: State, ops: seq<Op>)
    requires Inv(s) && Pow2(|s.table|) && Allowed(s, ops)
    requires Uncommitted(ops) || (s.err && forall i :: 0 <= i < |ops| ==> !ops[i].Start?)
    ensures var e := Runs.After(s, ops);
      && (s.err ==> e.err && e.pending == s.pending)
      && (forall r: Id :: e.Hashed(r) ==> s.Hashed(r) || Defined(ops, r))
    decreases |ops|
  {
    hide Inv, Enabled, Step, Pow2, Bucket, Defined;
    if ops != [] {
      var t := Step(s, ops[0]);
      StepKeeps(s, ops[0]);
      StepAdds(s, ops[0]);
      RunAdds(t, ops[1..]);
      var e := Runs.After(s, ops);
      forall r: Id | e.Hashed(r) ensures s.Hashed(r) || Defined(ops, r) {
        if Defined(ops[1..], r) {
          DefinedLater(ops, r);
        } else if ops[0].Define? && ops[0].rec == r {
          DefinedFirst(ops, r);
        }
      }
    }
  }

  lemma {:induction false} DefinedFirst(ops: seq<Op>, r: Id)
    requires ops != [] && ops[0].Define? && ops[0].rec == r
    ensures Defined(ops, r)
  {}

  // A batch in which an insert fails: `before` are the steps from its beginning
  // until then, `after` whatever is done before the next batch begins. Then none
  // of its records is ever in the table, and all that the table has was there when
  // the batch began, apart from new static entries.
  lemma {:induction false} FailedBatch(s: State, before: seq<Op>, after: seq<Op>)
    requires Inv(s) && Pow2(|s.table|) && Allowed(s, before) && Uncommitted(before)
    requires var failed := Runs.After(s, before);
      failed.err && Allowed(failed, after) && forall i :: 0 <= i < |after| ==> !after[i].Start?
    ensures var failed := Runs.After(s, before); var e := Runs.After(failed, after);
      && e.err && e.pending == failed.pending
      && (forall p: Id :: p in failed.pending ==> !e.Hashed(p))
      && (forall r: Id :: e.Hashed(r) ==> s.Hashed(r) || Defined(before, r) || Defined(after, r))
  {
    hide Inv, Enabled, Step, Pow2, Bucket, Allowed, Defined, Uncommitted;
    var failed := Runs.After(s, before);
    RunKeeps(s, before);
    RunAdds(s, before);
    RunKeeps(failed, after);
    RunAdds(failed, after);
    PendingHidden(Runs.After(failed, after));
  }

  lemma {:induction false} PendingHidden(s: State)
    requires Inv(s)
    ensures forall p: Id :: p in s.pending ==> !s.Hashed(p)
  {
    hide Bucket, OrderOk, LruOk, UidsOk, LinksOk, BigOk, FindableOk;
    forall p: Id | p in s.pending ensures !s.Hashed(p) {
      assert ChainOk(s, s.Home(p), s.table[s.Home(p)]);
      assert s.Hashed(p) ==> EntryOk(s, p, s.Home(p));
    }
  }

  // ---------- an abandoned batch ----------

  // The next batch begins with every record of the abandoned one free again.
  lemma {:induction false} AbandonedBatch(s: State)
    requires Inv(s)
    ensures var t := Discard(s);
      && Inv(t) && !t.err && t.pending == [] && t.table == s.table
      && (forall p: Id :: p in s.lru || p in s.pending ==> p in t.lru)
      && (forall p: Id :: p in s.pending ==> t.At(p) == Freed(s.At(p)))
      && (forall r: Id :: r !in s.pending ==> t.At(r) == s.At(r))
    decreases |s.pending|
  {
    hide Bucket, Inv;
    DiscardKeeps(s);
    if s.pending != [] {
      var r, t := s.pending[0], Drop(s);
      DropKeeps(s);
      PendingOnce(s);
      Frame(s.recs, t.recs, r, Freed(s.At(r)));
      AbandonedBatch(t);
      assert s.pending == [r] + t.pending;
      assert forall p: Id :: p in s.pending <==> p == r || p in t.pending;
    }
  }

  lemma {:induction false} PendingOnce(s: State)
    requires Inv(s) && s.pending != []
    ensures s.pending[0] !in s.pending[1..]
  {
    hide Bucket, ChainsOk, OrderOk, LruOk, UidsOk, LinksOk, BigOk, FindableOk, RecsOk;
  }

  // ---------- a batch that is committed ----------

  // The CNAMEs dropped among the first `i` records of the batch: those without
  // a target, and those whose target has just been dropped.
  function Loose(s: State, i: nat): (g: set<Id>)
    requires i <= |s.pending|
    ensures forall r: Id :: r in g ==> r in s.pending[..i]
  {
    if i == 0 then {}
    else
      var g, r := Loose(s, i - 1), s.pending[i - 1];
      assert s.pending[..i] == s.pending[..i - 1] + [r];
      if s.Outdated(r) || Bereft(s, r, g) then g + {r} else g
  }

  ghost predicate Committing(s: State, i: nat, t: State) {
    && i <= |s.pending| && t.pending == s.pending[i..] && Trimmed(s, t, Loose(s, i))
    && forall r: Id :: t.Hashed(r) <==> s.Hashed(r) || (r in s.pending[..i] && r !in Loose(s, i))
  }

  lemma {:induction false} DropCommits(s: State, i: nat, t: State)
    requires Inv(s) && Inv(t) && Committing(s, i, t) && i < |s.pending|
    requires s.Outdated(s.pending[i]) || Bereft(s, s.pending[i], Loose(s, i))
    ensures Committing(s, i + 1, Drop(t))
  {
    hide Bucket, Inv, Bereft;
    var r, t' := s.pending[i], Drop(t);
    assert t.pending[0] == r && t'.pending == s.pending[i + 1..];
    assert s.pending[..i + 1] == s.pending[..i] + [r];
    BatchOnce(s, i);
    Frame(t.recs, t'.recs, r, Freed(t.At(r)));
    DropShows(t);
    PendingHidden(s);
    PendingHidden(t);
  }

  lemma {:induction false} DropShows(s: State)
    requires s.pending != []
    ensures forall r: Id :: Drop(s).Hashed(r) <==> s.Hashed(r)
  {
    hide Bucket;
    var t := Drop(s);
    forall r: Id ensures t.Hashed(r) <==> s.Hashed(r) {
      assert t.At(r).name == s.At(r).name;
    }
  }

  lemma {:induction false} BatchOnce(s: State, i: nat)
    requires Inv(s) && i < |s.pending|
    ensures s.pending[i] !in s.pending[..i] && s.pending[i] < s.n
  {
    hide Bucket, ChainsOk, OrderOk, LruOk, UidsOk, LinksOk, BigOk, FindableOk, RecsOk;
    assert s.pending[i] in s.pending;
  }

  lemma {:induction false} CommitCommits(s: State, i: nat, t: State)
    requires Inv(s) && Inv(t) && Committing(s, i, t) && i < |s.pending|
    requires !(s.Outdated(s.pending[i]) || Bereft(s, s.pending[i], Loose(s, i)))
    ensures Committing(s, i + 1, Commit(t))
  {
    hide Bucket, Inv, Place, Bereft;
    var r, t' := s.pending[i], Commit(t);
    assert t.pending[0] == r && t'.pending == s.pending[i + 1..];
    assert s.pending[..i + 1] == s.pending[..i] + [r];
    BatchOnce(s, i);
    forall p: Id ensures t'.Hashed(p) <==> t.Hashed(p) || p == r {
      assert t'.Home(p) == t.Home(p);
      var c := t.table[t.Home(r)];
      assert forall y: Id :: y in Inserted(c, Place(t.recs, c, t.At(r).flags), r) <==> y in c || y == r;
    }
  }

  lemma {:induction false} CommitsFrom(s: State, i: nat, t: State)
    requires Inv(s) && Inv(t) && Committing(s, i, t)
    ensures Committing(s, |s.pending|, CommitAll(t))
    decreases |s.pending| - i
  {
    hide Bucket, Inv, Committing, Loose, Bereft, Drop, Commit;
    assert Committing(s, i, t) ==> t.pending == s.pending[i..] by { BatchLeft(s, i, t); }
    BatchLeft(s, i, t);
    if i < |s.pending| {
      var r := s.pending[i];
      DropKeeps(t);
      CommitKeeps(t);
      BatchOutdated(s, i, t);
      if s.Outdated(r) || Bereft(s, r, Loose(s, i)) {
        DropCommits(s, i, t);
        CommitsFrom(s, i + 1, Drop(t));
      } else {
        CommitCommits(s, i, t);
        CommitsFrom(s, i + 1, Commit(t));
      }
    }
  }

  lemma {:induction false} BatchLeft(s: State, i: nat, t: State)
    requires Committing(s, i, t)
    ensures i <= |s.pending| && t.pending == s.pending[i..]
  {}

  lemma {:induction false} BatchOutdated(s: State, i: nat, t: State)
    requires Inv(s) && Committing(s, i, t) && i < |s.pending|
    ensures t.Outdated(s.pending[i]) <==> s.Outdated(s.pending[i]) || Bereft(s, s.pending[i], Loose(s, i))
  {
    hide Bucket, ChainsOk, OrderOk, LruOk, UidsOk, BigOk, FindableOk, RecsOk, Bereft, PoolOk;
    BatchOnce(s, i);
    OutdatedNow(s, t, Loose(s, i), s.pending[i]);
  }

  // Committing adds to the table exactly the pending records that are not
  // dropped as CNAMEs without a target, and changes none of them.
  lemma {:induction false} CommittedBatch(s: State)
    requires Inv(s) && !s.err
    ensures var t := EndInsert(s); var loose := Loose(s, |s.pending|);
      && Inv(t) && t.pending == []
      && (forall r: Id :: t.Hashed(r) <==> s.Hashed(r) || (r in s.pending && r !in loose))
      && (forall r: Id :: r !in loose ==> t.At(r) == s.At(r))
      && (forall r: Id :: r in loose ==> t.At(r) == Freed(s.At(r)))
  {
    hide Bucket, Inv, Loose, CommitAll;
    CommitAllKeeps(s);
    CommitsStart(s);
    CommitsFrom(s, 0, s);
    assert s.pending[..|s.pending|] == s.pending;
    var loose := Loose(s, |s.pending|);
    forall r: Id | r in loose ensures r < s.n {
      PoolOf(s);
      assert r in s.pending;
    }
  }

  lemma {:induction false} CommitsStart(s: State)
    ensures Committing(s, 0, s)
  {
    hide Bucket;
    assert s.pending[0..] == s.pending && s.pending[..0] == [];
  }

  lemma {:induction false} LooseCname(s: State, i: nat, r: Id)
    requires i <= |s.pending| && r in Loose(s, i)
    ensures F_CNAME in s.At(r).flags
  {
    if r !in Loose(s, i - 1) {
      assert r == s.pending[i - 1];
    } else {
      LooseCname(s, i - 1, r);
    }
  }

  ghost predicate PointsAt(s: State, r: Id, to: Id) {
    F_CNAME in s.At(r).flags && s.At(r).data.CnameRec? && s.At(r).data.rec == Some(to)
  }

  // Pending CNAME `j`, which does not dangle, points at `i`, which does and comes
  // before it.
  ghost predicate Snag(s: State, i: nat, j: nat) {
    && i < j < |s.pending|
    && s.Outdated(s.pending[i]) && !s.Outdated(s.pending[j]) && PointsAt(s, s.pending[j], s.pending[i])
  }

  lemma {:induction false} LooseIfNoSnag(s: State, k: nat)
    requires k <= |s.pending| && forall i, j :: !Snag(s, i, j)
    ensures forall r: Id :: r in Loose(s, k) <==> r in s.pending[..k] && s.Outdated(r)
  {
    hide State.Outdated;
    if k > 0 {
      LooseIfNoSnag(s, k - 1);
      var r := s.pending[k - 1];
      assert s.pending[..k] == s.pending[..k - 1] + [r];
      if Bereft(s, r, Loose(s, k - 1)) {
        var i :| 0 <= i < k - 1 && s.pending[i] == s.At(r).data.rec.value;
        assert !Snag(s, i, k - 1);
      }
    }
  }

  lemma {:induction false} LooseGrows(s: State, i: nat, j: nat)
    requires i <= j <= |s.pending|
    ensures Loose(s, i) <= Loose(s, j)
    decreases j
  {
    hide Bereft, State.Outdated;
    if i < j {
      LooseGrows(s, i, j - 1);
    }
  }

  lemma {:induction false} SnagDrops(s: State, i: nat, j: nat)
    requires Inv(s) && Snag(s, i, j)
    ensures s.pending[j] in Loose(s, |s.pending|)
  {
    hide Inv, State.Outdated;
    BatchOnce(s, i);
    LooseGrows(s, i + 1, j);
    LooseGrows(s, j + 1, |s.pending|);
  }

  // A commit puts in the table exactly the pending records that do not dangle when
  // it begins, if and only if no pending CNAME points at a dangling one before it.
  lemma {:induction false} DropsOnlyDangling(s: State)
    requires Inv(s) && !s.err
    ensures (forall r: Id :: r in s.pending ==> (EndInsert(s).Hashed(r) <==> !s.Outdated(r)))
      <==> forall i, j :: !Snag(s, i, j)
  {
    hide Bucket, Inv, Loose, EndInsert, Snag, State.Outdated;
    CommittedBatch(s);
    PendingHidden(s);
    assert s.pending[..|s.pending|] == s.pending;
    if forall i, j :: !Snag(s, i, j) {
      LooseIfNoSnag(s, |s.pending|);
    } else {
      var i, j :| Snag(s, i, j);
      SnagDrops(s, i, j);
      SnagAt(s, i, j);
    }
  }

  lemma {:induction false} SnagAt(s: State, i: nat, j: nat)
    requires Snag(s, i, j)
    ensures s.pending[j] in s.pending && !s.Outdated(s.pending[j])
  {}
}
