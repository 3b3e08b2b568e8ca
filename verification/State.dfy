/**
 The state of the cache, the pointer operations every step of src/cache.c is
 made of, and the invariant they keep.
 */
module State {
  import opened Names
  import opened Records

  type Table = t: seq<seq<Id>> | 0 < |t| < 0x8000_0000 witness [[]]

  function Get(recs: map<Id, Rec>, r: Id): Rec {
    if r in recs then recs[r] else BLANK
  }

  function Stamp(stamp: map<Id, nat>, r: Id): nat {
    if r in stamp then stamp[r] else 0
  }

  // Linked lists are sequences. `next` is the `next` field of records outside
  // the pool; for pool records it is their successor in `lru` or `pending`.
  // `stamp` and `clock` record when a record was last put at the head of `lru`;
  // the C code keeps no such thing.
  datatype State = State(
    n: nat,                    // daemon->cachesize
    mix: Mix,
    recs: map<Id, Rec>,
    lru: seq<Id>,              // cache_head .. cache_tail
    pending: seq<Id>,          // new_chain
    table: Table,              // hash_table
    bigFree: nat,              // length of big_free
    bigLeft: nat,              // bignames_left
    err: bool,                 // insert_error
    lastUid: nat,
    next: map<Id, Option<Id>>,
    spare: seq<Id>,            // dhcp_spare
    stamp: map<Id, nat>,
    clock: nat)
  {
    function At(r: Id): Rec {
      Get(recs, r)
    }

    function BucketOf(name: Name): (b: nat)
      ensures b < |table|
    {
      Bucket(mix, name, |table|)
    }

    function Home(r: Id): (b: nat)
      ensures b < |table|
    {
      BucketOf(At(r).name)
    }

    predicate Hashed(r: Id) {
      r in table[Home(r)]
    }

    // is_outdated_cname_pointer
    predicate Outdated(r: Id) {
      && F_CNAME in At(r).flags
      && !At(r).data.CnameName?
      && !(&& At(r).data.CnameRec? && At(r).data.rec.Some?
           && var t := At(At(r).data.rec.value);
           && F_DNSKEY !in t.flags && F_DS !in t.flags
           && At(r).data.uid == t.uid)
    }
  }

  // ---------- lists ----------

  predicate NoDup(s: seq<Id>) {
    forall i, j :: 0 <= i < j < |s| ==> s[i] != s[j]
  }

  function Index(s: seq<Id>, x: Id): (k: nat)
    requires x in s
    ensures k < |s| && s[k] == x
  {
    if s[0] == x then 0 else 1 + Index(s[1..], x)
  }

  function Cut(s: seq<Id>, k: nat): seq<Id>
    requires k < |s|
  {
    s[..k] + s[k + 1..]
  }

  function Without(s: seq<Id>, x: Id): seq<Id> {
    if x in s then Cut(s, Index(s, x)) else s
  }

  lemma {:induction false} CutFacts(s: seq<Id>, k: nat)
    requires k < |s| && NoDup(s)
    ensures NoDup(Cut(s, k))
    ensures forall y: Id :: y in Cut(s, k) <==> y in s && y != s[k]
  {
    forall y | y in s && y != s[k] ensures y in Cut(s, k) {
      var i :| 0 <= i < |s| && s[i] == y;
      assert Cut(s, k)[if i < k then i else i - 1] == y;
    }
  }

  lemma {:induction false} WithoutFacts(s: seq<Id>, x: Id)
    requires NoDup(s)
    ensures NoDup(Without(s, x))
    ensures forall y: Id :: y in Without(s, x) <==> y in s && y != x
  {
    if x in s {
      CutFacts(s, Index(s, x));
    }
  }

  lemma {:induction false} ConsNoDup(l: seq<Id>, r: Id)
    requires NoDup(l) && r !in l
    ensures NoDup([r] + l)
  {}

  // ---------- pointer operations ----------

  // cache_free: the record keeps its name, its data and its other flags.
  function Freed(r: Rec): Rec {
    r.(flags := r.flags - {F_FORWARD, F_REVERSE, F_BIGNAME}, uid := UID_NONE)
  }

  function Free(s: State, r: Id): State {
    s.(recs := s.recs[r := Freed(s.At(r))],
       lru := s.lru + [r],
       bigFree := s.bigFree + if F_BIGNAME in s.At(r).flags then 1 else 0)
  }

  // cache_link
  function Link(s: State, r: Id): State {
    s.(lru := [r] + s.lru, clock := s.clock + 1, stamp := s.stamp[r := s.clock + 1])
  }

  // cache_unlink
  function Unlink(s: State, r: Id): State {
    s.(lru := Without(s.lru, r))
  }

  function SetChain(s: State, b: nat, c: seq<Id>): State
    requires b < |s.table|
  {
    s.(table := s.table[b := c])
  }

  // *up = crecp->hash_next
  function Unhash(s: State, b: nat, u: nat): State
    requires b < |s.table| && u < |s.table[b]|
  {
    SetChain(s, b, Cut(s.table[b], u))
  }

  // The record leaves its chain; a pool record is also freed.
  function Evict(s: State, b: nat, u: nat): State
    requires b < |s.table| && u < |s.table[b]|
  {
    var r := s.table[b][u];
    var t := Unhash(s, b, u);
    if Static(s.At(r).flags) then t else Free(Unlink(t, r), r)
  }

  // Where cache_hash puts a record: after the reverse entries unless it is one,
  // and after the mortal entries too if it is immortal.
  function SkipReverse(recs: map<Id, Rec>, c: seq<Id>, u: nat): (k: nat)
    requires u <= |c|
    ensures u <= k <= |c|
    ensures forall i :: u <= i < k ==> F_REVERSE in Get(recs, c[i]).flags
    ensures k < |c| ==> F_REVERSE !in Get(recs, c[k]).flags
    decreases |c| - u
  {
    if u < |c| && F_REVERSE in Get(recs, c[u]).flags then SkipReverse(recs, c, u + 1) else u
  }

  function SkipMortal(recs: map<Id, Rec>, c: seq<Id>, u: nat): (k: nat)
    requires u <= |c|
    ensures u <= k <= |c|
    ensures forall i :: u <= i < k ==> F_IMMORTAL !in Get(recs, c[i]).flags
    ensures k < |c| ==> F_IMMORTAL in Get(recs, c[k]).flags
    decreases |c| - u
  {
    if u < |c| && F_IMMORTAL !in Get(recs, c[u]).flags then SkipMortal(recs, c, u + 1) else u
  }

  function Place(recs: map<Id, Rec>, c: seq<Id>, f: Flags): (k: nat)
    ensures k <= |c|
  {
    if F_REVERSE in f then 0
    else if F_IMMORTAL in f then SkipMortal(recs, c, SkipReverse(recs, c, 0))
    else SkipReverse(recs, c, 0)
  }

  function Inserted(c: seq<Id>, k: nat, r: Id): seq<Id>
    requires k <= |c|
  {
    c[..k] + [r] + c[k..]
  }

  // cache_hash
  function Hash(s: State, r: Id): State {
    var b := s.Home(r);
    SetChain(s, b, Inserted(s.table[b], Place(s.recs, s.table[b], s.At(r).flags), r))
  }

  // A free LRU record is taken, filled in and put on the uncommitted batch.
  function Grab(s: State, r: Id, x: Rec): State {
    Unlink(s, r).(recs := s.recs[r := x], pending := [r] + s.pending)
  }

  // The head of the batch is given back, or hashed and linked.
  function Drop(s: State): State
    requires s.pending != []
  {
    Free(s, s.pending[0]).(pending := s.pending[1..])
  }

  function Commit(s: State): State
    requires s.pending != []
  {
    Link(Hash(s, s.pending[0]), s.pending[0]).(pending := s.pending[1..])
  }

  // A record from malloc is hashed.
  function AddStatic(s: State, r: Id, x: Rec): State {
    Hash(s.(recs := s.recs[r := x]), r)
  }

  // next_uid
  function NextUid(s: State, r: Id): State {
    if s.At(r).uid != UID_NONE then s
    else s.(recs := s.recs[r := s.At(r).(uid := s.lastUid + 1)], lastUid := s.lastUid + 1)
  }

  // A CNAME's link is pointed at `to`, which gets a uid if it has none.
  function SetLink(s: State, c: Id, to: Option<Id>): State {
    match to
    case None => s.(recs := s.recs[c := s.At(c).(data := CnameRec(None, UID_NONE))])
    case Some(r) =>
      var t := NextUid(s, r);
      t.(recs := t.recs[c := t.At(c).(data := CnameRec(to, t.At(r).uid))])
  }

  // ---------- the invariant ----------

  // The LRU list and the uncommitted batch share out the pool.
  ghost predicate PoolOk(s: State) {
    && NoDup(s.lru) && NoDup(s.pending)
    && (forall p: Id :: p in s.lru ==> p < s.n)
    && (forall p: Id :: p in s.pending ==> p < s.n && p !in s.lru)
    && (forall p: Id :: p < s.n ==> p in s.lru || p in s.pending)
  }

  ghost predicate RecsOk(s: State) {
    && (forall p: Id :: p < s.n ==> p in s.recs)
    && (forall p: Id :: p < s.n ==> !Static(Get(s.recs, p).flags))
    && (forall p: Id :: p in s.pending ==> InUse(Get(s.recs, p).flags))
    && (forall p: Id :: p < s.n && !InUse(Get(s.recs, p).flags) ==>
          Get(s.recs, p).uid == UID_NONE && F_BIGNAME !in Get(s.recs, p).flags)
  }

  ghost predicate EntryOk(s: State, r: Id, b: nat) {
    && r in s.recs
    && s.Home(r) == b
    && (if r < s.n then r in s.lru && InUse(Get(s.recs, r).flags) else Static(Get(s.recs, r).flags))
  }

  ghost predicate ChainOk(s: State, b: nat, c: seq<Id>) {
    NoDup(c) && forall r: Id :: r in c ==> EntryOk(s, r, b)
  }

  // Each hashed record is hashed once, in the bucket of its own name.
  ghost predicate ChainsOk(s: State) {
    forall b :: 0 <= b < |s.table| ==> ChainOk(s, b, s.table[b])
  }

  // Every LRU record in use can be found through the table.
  ghost predicate FindableOk(s: State) {
    forall p: Id :: p in s.lru && InUse(Get(s.recs, p).flags) ==> s.Hashed(p)
  }

  ghost predicate Ordered(recs: map<Id, Rec>, c: seq<Id>) {
    forall i, j :: 0 <= i < j < |c| ==> Segment(Get(recs, c[i]).flags) <= Segment(Get(recs, c[j]).flags)
  }

  // Reverse entries first, immortal forward entries last.
  ghost predicate OrderOk(s: State) {
    forall b :: 0 <= b < |s.table| ==> Ordered(s.recs, s.table[b])
  }

  // Records in use come first, the most recently touched at the head.
  ghost predicate LruOk(s: State) {
    && (forall i, j :: 0 <= i < j < |s.lru| && InUse(Get(s.recs, s.lru[j]).flags) ==>
          InUse(Get(s.recs, s.lru[i]).flags) && Stamp(s.stamp, s.lru[j]) < Stamp(s.stamp, s.lru[i]))
    && (forall p: Id :: Stamp(s.stamp, p) <= s.clock)
  }

  ghost predicate UidsOk(s: State) {
    && (forall p: Id :: p < s.n ==> Get(s.recs, p).uid <= s.lastUid)
    && (forall p: Id, q: Id :: p < s.n && q < s.n && p != q && Get(s.recs, p).uid != UID_NONE ==>
          Get(s.recs, p).uid != Get(s.recs, q).uid)
  }

  ghost predicate LinksOk(s: State) {
    forall r: Id :: Get(s.recs, r).data.CnameRec? && Get(s.recs, r).data.rec.Some? ==> Get(s.recs, r).data.uid != UID_NONE
  }

  ghost function BigSet(s: State): set<Id> {
    set p: Id | p < s.n && F_BIGNAME in Get(s.recs, p).flags
  }

  // Long-name storage is neither lost nor made up.
  ghost predicate BigOk(s: State) {
    |BigSet(s)| + s.bigFree + s.bigLeft == s.n / 10
  }

  ghost predicate Inv(s: State) {
    && PoolOk(s) && RecsOk(s) && ChainsOk(s) && FindableOk(s) && OrderOk(s)
    && LruOk(s) && UidsOk(s) && LinksOk(s) && BigOk(s)
  }

  // DNSSEC is off.
  ghost predicate NoDnssec(s: State) {
    forall r: Id :: F_DNSKEY !in Get(s.recs, r).flags && F_DS !in Get(s.recs, r).flags
  }
}
