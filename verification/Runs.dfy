/**
 Whole runs of the cache from cache_init on, without a reload: what holds in
 every state that can be reached.
 */
module Runs {
  import opened Names
  import opened Records
  import opened State
  import opened Keeps
  import opened Ops
  import opened Scans
  import opened Batch
  import opened Answers
  import opened AddrAnswers
  import opened Rehash
  import Lookup

  // ---------- cache_init ----------

  // The first `k` records of the pool have been linked.
  function Linked(n: CInt, mix: Mix, k: nat): (s: State)
    ensures s.n == n && s.mix == mix && |s.table| == NewSize(n)
  {
    if k == 0 then
      State(n, mix, map[], [], [], seq(NewSize(n), _ => []), 0, n / 10, false, 0, map[], [], map[], 0)
    else
      var s := Linked(n, mix, k - 1);
      Link(s.(recs := s.recs[k - 1 := BLANK]), k - 1)
  }

  function Initial(n: CInt, mix: Mix): State {
    Linked(n, mix, n)
  }

  lemma {:induction false} LinkedFacts(n: CInt, mix: Mix, k: nat)
    ensures var s := Linked(n, mix, k);
      && NoDup(s.lru) && (forall p: Id :: p in s.lru <==> p < k) && s.pending == []
      && (forall p: Id :: p < k ==> p in s.recs) && (forall p: Id :: Get(s.recs, p) == BLANK)
      && (forall p: Id :: Stamp(s.stamp, p) <= s.clock)
      && (forall b :: 0 <= b < |s.table| ==> s.table[b] == [])
      && s.bigFree == 0 && s.bigLeft == n / 10 && s.spare == []
  {
    if k > 0 {
      LinkedFacts(n, mix, k - 1);
      var s := Linked(n, mix, k - 1);
      var t := Linked(n, mix, k);
      Frame(s.recs, t.recs, k - 1, BLANK);
      StampFrame(s.stamp, t.stamp, k - 1, s.clock + 1);
      assert k - 1 !in s.lru;
      ConsNoDup(s.lru, k - 1);
    }
  }

  lemma {:induction false} InitialInv(n: CInt, mix: Mix)
    ensures Inv(Initial(n, mix)) && Pow2(|Initial(n, mix).table|) && Initial(n, mix).n == n
  {
    hide Bucket, Linked;
    var s := Initial(n, mix);
    LinkedFacts(n, mix, n);
    assert BigSet(s) == {};
  }

  // ---------- steps ----------

  datatype Op =
    | Start
    | Add(name: Option<Name>, data: Option<Data>, now: int, ttl: nat, flags: Flags, malloc: bool)
    | Point(cname: Id, to: Option<Id>)
    | End
    | Find(name': Name, now: int, prot: Flags, noRR: bool)
    | FindAddr(addr: Data, now: int, prot: Flags)
    | Define(rec: Id, x: Rec)
    | Resize(size: CInt, malloc: bool)
    | DropDhcp

  // What the callers see to: inserts are of dynamic records, a CNAME is linked
  // while it is in the batch, to a record of the batch or a static one, and a
  // static entry is a new record. There are no DNSSEC records.
  ghost predicate Enabled(s: State, op: Op) {
    match op
    case Add(name, data, _, _, flags, _) => Insertable(name, data, flags)
    case Point(c, to) =>
      && c in s.pending && F_CNAME in s.At(c).flags
      && (to.Some? ==> to.value in s.pending || (s.n <= to.value && to.value in s.recs))
    case Define(r, x) =>
      && s.n <= r && r !in s.recs && !x.data.CnameRec?
      && Static(x.flags) && F_DS !in x.flags && F_DNSKEY !in x.flags
    case _ => true
  }

  ghost function Step(s: State, op: Op): State
    requires Enabled(s, op)
  {
    match op
    case Start => Discard(s)
    case Add(name, data, now, ttl, flags, malloc) => Insert(s, name, data, now, ttl, flags, malloc).s
    case Point(c, to) => SetLink(s, c, to)
    case End => EndInsert(s)
    case Find(name, now, prot, noRR) => Lookup.FindByName(s, name, now, prot, noRR).s
    case FindAddr(addr, now, prot) => Lookup.FindByAddr(s, addr, now, prot).s
    case Define(r, x) => AddStatic(s, r, x)
    case Resize(size, malloc) => Grow(s, size, malloc)
    case DropDhcp => UnhashDhcp(s, 0)
  }

  lemma {:induction false} StepKeeps(s: State, op: Op)
    requires Inv(s) && Pow2(|s.table|) && Enabled(s, op)
    ensures Inv(Step(s, op)) && Pow2(|Step(s, op).table|) && Step(s, op).n == s.n
  {
    hide Bucket, Inv, Discard, Insert, SetLink, EndInsert, Lookup.FindByName, Lookup.FindByAddr, AddStatic, Grow, UnhashDhcp, Pow2, Shrinks;
    match op
    case Start => DiscardKeeps(s);
    case Add(name, data, now, ttl, flags, malloc) =>
      var t := InsertEffect(s, name, data, now, ttl, flags, malloc);
    case Point(c, to) => PointKeeps(s, c, to);
    case End => EndKeeps(s);
    case Find(name, now, prot, noRR) =>
      var out := NameLookup(s, name, now, prot, noRR);
    case FindAddr(addr, now, prot) =>
      var out := AddrLookup(s, addr, now, prot);
    case Define(r, x) => DefineKeeps(s, r, x);
    case Resize(size, malloc) => GrowInvisible(s, size, malloc);
    case DropDhcp => DhcpForgotten(s, 0);
  }

  lemma {:induction false} PointKeeps(s: State, c: Id, to: Option<Id>)
    requires Inv(s) && Enabled(s, Point(c, to))
    ensures Inv(SetLink(s, c, to)) && SetLink(s, c, to).table == s.table && SetLink(s, c, to).n == s.n
  {
    hide Bucket, ChainsOk, OrderOk, LruOk, FindableOk, UidsOk, LinksOk, BigOk;
    SetLinkKeeps(s, c, to);
  }

  lemma {:induction false} DefineKeeps(s: State, r: Id, x: Rec)
    requires Inv(s) && Enabled(s, Define(r, x))
    ensures Inv(AddStatic(s, r, x)) && |AddStatic(s, r, x).table| == |s.table| && AddStatic(s, r, x).n == s.n
  {
    hide Bucket, Inv;
    AddStaticKeeps(s, r, x);
  }

  lemma {:induction false} EndKeeps(s: State)
    requires Inv(s)
    ensures Inv(EndInsert(s))
  {
    hide Inv;
    CommitAllKeeps(s);
  }

  // ---------- runs ----------

  ghost predicate Allowed(s: State, ops: seq<Op>)
    decreases |ops|
  {
    ops == [] || (Enabled(s, ops[0]) && Allowed(Step(s, ops[0]), ops[1..]))
  }

  ghost function After(s: State, ops: seq<Op>): State
    requires Allowed(s, ops)
    decreases |ops|
  {
    if ops == [] then s else After(Step(s, ops[0]), ops[1..])
  }

  lemma {:induction false} Further(s: State, ops: seq<Op>, op: Op)
    requires Allowed(s, ops) && Enabled(After(s, ops), op)
    ensures Allowed(s, ops + [op]) && After(s, ops + [op]) == Step(After(s, ops), op)
    decreases |ops|
  {
    hide Enabled, Step;
    if ops == [] {
      assert ops + [op] == [op] && [op][1..] == [];
    } else {
      assert (ops + [op])[0] == ops[0] && (ops + [op])[1..] == ops[1..] + [op];
      Further(Step(s, ops[0]), ops[1..], op);
    }
  }

  lemma {:induction false} RunKeeps(s: State, ops: seq<Op>)
    requires Inv(s) && Pow2(|s.table|) && Allowed(s, ops)
    ensures Inv(After(s, ops)) && Pow2(|After(s, ops).table|) && After(s, ops).n == s.n
    decreases |ops|
  {
    hide Inv, Enabled, Step, Pow2;
    if ops != [] {
      StepKeeps(s, ops[0]);
      RunKeeps(Step(s, ops[0]), ops[1..]);
    }
  }

  // Every state that a run can reach keeps the invariant: the LRU list and the
  // batch share out the pool, an LRU record is in use if and only if it is in
  // the table, there exactly once and in the bucket of its name, chains and the
  // LRU list are in order, and no long-name storage is lost.
  lemma {:induction false} Reachable(n: CInt, mix: Mix, ops: seq<Op>)
    requires Allowed(Initial(n, mix), ops)
    ensures var s := After(Initial(n, mix), ops);
      && PoolOk(s) && OrderOk(s) && LruOk(s) && BigOk(s) && Pow2(|s.table|) && s.n == n
      && (forall b :: 0 <= b < |s.table| ==> NoDup(s.table[b]))
      && (forall b, r: Id :: 0 <= b < |s.table| && r in s.table[b] ==> b == s.Home(r))
      && (forall p: Id :: p in s.lru ==> (InUse(Get(s.recs, p).flags) <==> s.Hashed(p)))
      && (forall p: Id :: p in s.pending ==> !s.Hashed(p))
  {
    hide Bucket, Allowed, Pow2, Initial, OrderOk, LruOk, UidsOk, LinksOk, BigOk;
    var s := After(Initial(n, mix), ops);
    InitialInv(n, mix);
    RunKeeps(Initial(n, mix), ops);
    forall b | 0 <= b < |s.table| ensures ChainOk(s, b, s.table[b]) {}
    forall p: Id | s.Hashed(p) && p < s.n ensures EntryOk(s, p, s.Home(p)) {
      assert ChainOk(s, s.Home(p), s.table[s.Home(p)]);
    }
  }
}
