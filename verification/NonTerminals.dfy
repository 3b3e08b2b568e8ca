/**
 Empty non-terminals: the entries that make_non_terminals puts in the table for
 the names above a new static name.
 */
module NonTerminals {
  import opened Names
  import opened Records
  import opened State
  import opened Keeps

  const DOT: Byte := 46

  const TYPES: Flags := {F_IPV4, F_IPV6, F_CNAME, F_SRV, F_DNSKEY, F_DS}

  // Entries derived from DHCP are kept apart from those of hosts files and
  // configuration.
  function TypeOf(f: Flags): Flags {
    if F_DHCP in f then {F_DHCP} else {F_HOSTS, F_CONFIG}
  }

  predicate Fits(s: State, r: Id, name: Name, type': Flags) {
    && !s.Outdated(r) && F_FORWARD in s.At(r).flags && Meets(s.At(r).flags, type')
    && SameName(name, s.At(r).name)
  }

  // The first entry from `u` on that fits.
  function Same(s: State, c: seq<Id>, u: nat, name: Name, type': Flags): (found: Option<Id>)
    requires u <= |c|
    ensures match found
      case Some(r) => r in c && Fits(s, r, name, type')
      case None => forall j :: u <= j < |c| ==> !Fits(s, c[j], name, type')
    decreases |c| - u
  {
    if u == |c| then None
    else if Fits(s, c[u], name, type') then Some(c[u])
    else Same(s, c, u + 1, name, type')
  }

  // An old empty entry for the new name itself is taken out first.
  predicate Empty(s: State, r: Id, name: Name, type': Flags) {
    Fits(s, r, name, type') && s.At(r).flags !! TYPES
  }

  function Clear(s: State, b: nat, u: nat, name: Name, type': Flags): (t: State)
    requires b < |s.table| && u <= |s.table[b]|
    ensures |t.table| == |s.table| && t.mix == s.mix && t.n == s.n
    decreases |s.table[b]| - u
  {
    if u == |s.table[b]| then s
    else
      var r := s.table[b][u];
      if Empty(s, r, name, type') then
        var t := Unhash(s, b, u);
        if F_DHCP in type' then t.(spare := [r] + s.spare) else t.(recs := s.recs - {r})
      else Clear(s, b, u + 1, name, type')
  }

  // The entry will last at least as long as the source.
  function Extend(s: State, r: Id, src: Rec): State {
    var x := s.At(r);
    if F_IMMORTAL in x.flags then s
    else if F_IMMORTAL in src.flags then s.(recs := s.recs[r := x.(flags := x.flags + {F_IMMORTAL})])
    else if x.ttd < src.ttd then s.(recs := s.recs[r := x.(ttd := src.ttd)])
    else s
  }

  // A new empty entry; the record keeps what it held in its other fields.
  function Made(s: State, r: Id, name: Name, src: Rec): Rec {
    var f := src.flags + {F_NAMEP} - TYPES - {F_REVERSE};
    var x := s.At(r).(flags := f, name := name);
    if F_IMMORTAL in f then x else x.(ttd := src.ttd)
  }

  function Create(s: State, r: Id, name: Name, src: Rec): State {
    AddStatic(s, r, Made(s, r, name, src))
  }

  function Cover(s: State, name: Name, src: Rec, heap: Id, malloc: bool): (t: State)
    ensures |t.table| == |s.table| && t.mix == s.mix && t.n == s.n
  {
    var found := Same(s, s.table[s.BucketOf(name)], 0, name, TypeOf(src.flags));
    if found.Some? then Extend(s, found.value, src)
    else if F_DHCP in src.flags && s.spare != [] then Create(s.(spare := s.spare[1..]), s.spare[0], name, src)
    else if malloc then Create(s, heap, name, src)
    else s
  }

  // All names after a dot, from position `i` on. The record that malloc gives
  // for the dot at `i` is `heap + i`; `fails` says where it gives none.
  function CoverAll(s: State, name: Name, i: nat, src: Rec, heap: Id, fails: set<nat>): (t: State)
    ensures |t.table| == |s.table| && t.mix == s.mix && t.n == s.n
    decreases |name| - i
  {
    if i >= |name| then s
    else CoverAll(if name[i] == DOT then Cover(s, name[i + 1..], src, heap + i, i !in fails) else s,
                  name, i + 1, src, heap, fails)
  }

  function MakeNonTerminals(s: State, source: Id, heap: Id, fails: set<nat>): (t: State)
    ensures |t.table| == |s.table| && t.mix == s.mix && t.n == s.n
  {
    var src := s.At(source);
    CoverAll(Clear(s, s.Home(source), 0, src.name, TypeOf(src.flags)), src.name, 0, src, heap, fails)
  }

  // cache_find_non_terminal
  ghost predicate Known(s: State, name: Name, now: int) {
    exists r: Id :: r in s.table[s.BucketOf(name)] && Shows(s, r, name, now)
  }

  predicate Shows(s: State, r: Id, name: Name, now: int) {
    && !s.Outdated(r) && !Expired(now, s.At(r)) && F_FORWARD in s.At(r).flags
    && F_NXDOMAIN !in s.At(r).flags && SameName(name, s.At(r).name)
  }

  // ---------- every ancestor has an entry ----------

  // Entry `r` stands for the name and lasts as long as the source.
  ghost predicate Covers(s: State, r: Id, name: Name, src: Rec) {
    && r in s.table[s.BucketOf(name)] && Fits(s, r, name, TypeOf(src.flags)) && F_NXDOMAIN !in s.At(r).flags
    && (F_IMMORTAL in s.At(r).flags || (F_IMMORTAL !in src.flags && src.ttd <= s.At(r).ttd))
  }

  ghost predicate Covered(s: State, name: Name, src: Rec) {
    exists r: Id :: Covers(s, r, name, src)
  }

  // A new static name: it exists, and is looked up forwards.
  predicate Named(x: Rec) {
    F_NXDOMAIN !in x.flags && F_FORWARD in x.flags && Static(x.flags)
  }

  // Static entries are never for a name that does not exist, and the records
  // that creation would use, those from `limit` on and the spare ones, are not in
  // the table.
  ghost predicate Ready(s: State, src: Rec, limit: nat) {
    && Named(src) && s.n <= limit
    && (forall r: Id :: Static(Get(s.recs, r).flags) ==> F_NXDOMAIN !in Get(s.recs, r).flags)
    && NoDup(s.spare) && (forall r: Id :: r in s.spare ==> s.n <= r < limit)
    && (forall b, r: Id :: 0 <= b < |s.table| && r in s.table[b] ==> Settled(s, r, limit))
  }

  ghost predicate Settled(s: State, r: Id, limit: nat) {
    r < limit && r !in s.spare
  }

  lemma {:induction false} StaticMeets(f: Flags, g: Flags)
    ensures Static(f) ==> Meets(f, TypeOf(f))
    ensures Meets(f, TypeOf(g)) ==> Static(f)
  {
    if F_DHCP in f {
      assert F_DHCP in TypeOf(f);
    } else if F_HOSTS in f {
      assert F_HOSTS in TypeOf(f);
    } else if F_CONFIG in f {
      assert F_CONFIG in TypeOf(f);
    }
  }

  // ---------- an entry that is in the table ----------

  lemma {:induction false} ExtendCovers(s: State, r: Id, name: Name, src: Rec, limit: nat)
    requires Ready(s, src, limit) && r in s.table[s.BucketOf(name)] && Fits(s, r, name, TypeOf(src.flags))
    ensures Covers(Extend(s, r, src), r, name, src)
  {
    hide Bucket, SameName;
    var t := Extend(s, r, src);
    StaticMeets(s.At(r).flags, src.flags);
    if t != s {
      Frame(s.recs, t.recs, r, t.At(r));
      assert forall f :: f in s.At(r).flags ==> f in t.At(r).flags;
    }
  }

  // Extending an entry loses no other.
  lemma {:induction false} ExtendStays(s: State, r: Id, src: Rec, q: Id, name: Name, limit: nat)
    requires Ready(s, src, limit) && Covers(s, q, name, src)
    ensures Covers(Extend(s, r, src), q, name, src)
  {
    hide Bucket, SameName;
    var t := Extend(s, r, src);
    if t != s {
      Frame(s.recs, t.recs, r, t.At(r));
      assert forall f :: f in s.At(r).flags ==> f in t.At(r).flags;
    }
  }

  lemma {:induction false} ExtendReady(s: State, r: Id, name: Name, src: Rec, limit: nat)
    requires Ready(s, src, limit) && Meets(s.At(r).flags, TypeOf(src.flags))
    ensures Ready(Extend(s, r, src), src, limit)
  {
    var t := Extend(s, r, src);
    StaticMeets(s.At(r).flags, src.flags);
    if t != s {
      Frame(s.recs, t.recs, r, t.At(r));
    }
    forall b, p: Id | 0 <= b < |t.table| && p in t.table[b] ensures Settled(t, p, limit) {
      assert p in s.table[b] && Settled(s, p, limit);
    }
  }

  // ---------- an entry that is new ----------

  lemma {:induction false} HashTable(s: State, r: Id)
    ensures var t := Hash(s, r);
      && t == s.(table := t.table) && |t.table| == |s.table|
      && forall b, p: Id :: 0 <= b < |s.table| ==> (p in t.table[b] <==> p in s.table[b] || (b == s.Home(r) && p == r))
  {
    hide Bucket, Place;
    var c := s.table[s.Home(r)];
    assert forall y: Id :: y in Inserted(c, Place(s.recs, c, s.At(r).flags), r) <==> y in c || y == r;
  }

  lemma {:induction false} CreateCovers(s: State, r: Id, name: Name, src: Rec, limit: nat)
    requires Ready(s, src, limit)
    ensures Covers(Create(s, r, name, src), r, name, src)
  {
    hide Bucket, Hash;
    var t, x := Create(s, r, name, src), Made(s, r, name, src);
    HashTable(s.(recs := s.recs[r := x]), r);
    assert t.At(r) == x;
    StaticMeets(x.flags, x.flags);
    assert TypeOf(x.flags) == TypeOf(src.flags);
  }

  lemma {:induction false} CreateStays(s: State, r: Id, name: Name, src: Rec, q: Id, name': Name)
    requires Covers(s, q, name', src) && q != r
    ensures Covers(Create(s, r, name, src), q, name', src)
  {
    hide Bucket, Hash, SameName, Meets;
    var t := Create(s, r, name, src);
    var s' := s.(recs := s.recs[r := Made(s, r, name, src)]);
    HashTable(s', r);
    Frame(s.recs, s'.recs, r, s'.At(r));
    assert t.At(q) == s.At(q);
  }

  lemma {:induction false} CreateReady(s: State, r: Id, name: Name, src: Rec, limit: nat, limit': nat)
    requires Ready(s, src, limit) && r !in s.spare && s.n <= r < limit' && limit <= limit'
    ensures Ready(Create(s, r, name, src), src, limit')
  {
    hide Bucket, Hash;
    var t := Create(s, r, name, src);
    var s' := s.(recs := s.recs[r := Made(s, r, name, src)]);
    HashTable(s', r);
    Frame(s.recs, s'.recs, r, s'.At(r));
    forall b, p: Id | 0 <= b < |t.table| && p in t.table[b] ensures Settled(t, p, limit') {
      assert p == r || (p in s.table[b] && Settled(s, p, limit));
    }
  }

  // ---------- all ancestors ----------

  lemma {:induction false} CoverStep(s: State, name: Name, src: Rec, heap: Id)
    requires Ready(s, src, heap)
    ensures var t := Cover(s, name, src, heap, true);
      && Ready(t, src, heap + 1) && Covered(t, name, src)
      && forall name' :: Covered(s, name', src) ==> Covered(t, name', src)
  {
    hide Bucket, Fits, Extend, Create, Ready, Covers;
    var t := Cover(s, name, src, heap, true);
    var c := s.table[s.BucketOf(name)];
    var found := Same(s, c, 0, name, TypeOf(src.flags));
    if found.Some? {
      FitsMeets(s, found.value, name, src);
      ExtendCovers(s, found.value, name, src, heap);
      ExtendReady(s, found.value, name, src, heap);
      ReadyUp(t, src, heap);
      forall name' | Covered(s, name', src) ensures Covered(t, name', src) {
        var q :| Covers(s, q, name', src);
        ExtendStays(s, found.value, src, q, name', heap);
      }
    } else {
      var spare := F_DHCP in src.flags && s.spare != [];
      var r, s' := if spare then s.spare[0] else heap, if spare then s.(spare := s.spare[1..]) else s;
      if spare {
        SpareReady(s, src, heap);
      }
      CreateCovers(s', r, name, src, heap);
      HeapReady(s, src, heap);
      CreateReady(s', r, name, src, heap, heap + 1);
      forall name' | Covered(s, name', src) ensures Covered(t, name', src) {
        var q :| Covers(s, q, name', src);
        CoversSettled(s, q, name', src, heap);
        SameCovers(s, s', q, name', src);
        CreateStays(s', r, name, src, q, name');
      }
    }
  }

  lemma {:induction false} FitsMeets(s: State, r: Id, name: Name, src: Rec)
    requires Fits(s, r, name, TypeOf(src.flags))
    ensures Meets(s.At(r).flags, TypeOf(src.flags))
  {}

  lemma {:induction false} ReadyUp(s: State, src: Rec, limit: nat)
    requires Ready(s, src, limit)
    ensures Ready(s, src, limit + 1)
  {
    forall b, p: Id | 0 <= b < |s.table| && p in s.table[b] ensures Settled(s, p, limit + 1) {
      assert Settled(s, p, limit);
    }
  }

  lemma {:induction false} HeapReady(s: State, src: Rec, limit: nat)
    requires Ready(s, src, limit)
    ensures limit !in s.spare && s.n <= limit && (s.spare != [] ==> s.n <= s.spare[0] < limit)
  {
    assert s.spare != [] ==> s.spare[0] in s.spare;
  }

  lemma {:induction false} SpareReady(s: State, src: Rec, limit: nat)
    requires Ready(s, src, limit) && s.spare != []
    ensures Ready(s.(spare := s.spare[1..]), src, limit) && s.spare[0] !in s.spare[1..]
  {
    var t := s.(spare := s.spare[1..]);
    assert forall r: Id :: r in t.spare ==> r in s.spare;
    forall b, p: Id | 0 <= b < |t.table| && p in t.table[b] ensures Settled(t, p, limit) {
      assert Settled(s, p, limit);
    }
  }

  lemma {:induction false} CoversSettled(s: State, q: Id, name: Name, src: Rec, limit: nat)
    requires Ready(s, src, limit) && Covers(s, q, name, src)
    ensures q < limit && q !in s.spare
  {
    hide Bucket;
    assert q in s.table[s.BucketOf(name)] && Settled(s, q, limit);
  }

  lemma {:induction false} SameCovers(s: State, t: State, q: Id, name: Name, src: Rec)
    requires Covers(s, q, name, src) && t == s.(spare := t.spare)
    ensures Covers(t, q, name, src)
  {
    hide Bucket;
  }

  lemma {:induction false} CoverAllCovers(s: State, name: Name, i: nat, src: Rec, heap: Id)
    requires Ready(s, src, heap + i) && i <= |name|
    ensures var t := CoverAll(s, name, i, src, heap, {});
      && (forall j :: i <= j < |name| && name[j] == DOT ==> Covered(t, name[j + 1..], src))
      && (forall name' :: Covered(s, name', src) ==> Covered(t, name', src))
    decreases |name| - i
  {
    hide Bucket, Ready, Cover, Covered;
    if i < |name| {
      var t := if name[i] == DOT then Cover(s, name[i + 1..], src, heap + i, true) else s;
      if name[i] == DOT {
        CoverStep(s, name[i + 1..], src, heap + i);
      } else {
        ReadyUp(s, src, heap + i);
      }
      CoverAllCovers(t, name, i + 1, src, heap);
    }
  }

  lemma {:induction false} ClearedReady(s: State, b: nat, u: nat, name: Name, src: Rec, limit: nat)
    requires ChainsOk(s) && Ready(s, src, limit) && b < |s.table| && u < |s.table[b]| && s.n <= s.table[b][u]
    ensures Ready(Unhash(s, b, u).(spare := [s.table[b][u]] + s.spare), src, limit)
    ensures Ready(Unhash(s, b, u).(recs := s.recs - {s.table[b][u]}), src, limit)
  {
    hide Bucket;
    var r, c := s.table[b][u], s.table[b];
    var t, v := Unhash(s, b, u).(spare := [r] + s.spare), Unhash(s, b, u).(recs := s.recs - {r});
    assert ChainOk(s, b, c) && EntryOk(s, r, b);
    CutFacts(c, u);
    assert Settled(s, r, limit);
    forall b', p: Id | 0 <= b' < |s.table| && p in t.table[b'] ensures Settled(t, p, limit) && Settled(v, p, limit) {
      assert ChainOk(s, b', s.table[b']);
      assert p in s.table[b'] && Settled(s, p, limit) && EntryOk(s, p, b');
      assert p != r;
    }
    forall p: Id ensures Get(v.recs, p) == if p == r then BLANK else Get(s.recs, p) {}
  }

  lemma {:induction false} ClearReady(s: State, b: nat, u: nat, name: Name, src: Rec, limit: nat)
    requires ChainsOk(s) && RecsOk(s) && Ready(s, src, limit) && b < |s.table| && u <= |s.table[b]|
    ensures Ready(Clear(s, b, u, name, TypeOf(src.flags)), src, limit)
    decreases |s.table[b]| - u
  {
    hide Bucket, Ready, ChainsOk, RecsOk, Fits;
    if u < |s.table[b]| {
      if Empty(s, s.table[b][u], name, TypeOf(src.flags)) {
        FitsStatic(s, s.table[b][u], name, src);
        ClearedReady(s, b, u, name, src, limit);
      } else {
        ClearReady(s, b, u + 1, name, src, limit);
      }
    }
  }

  // An entry of a static name's kind is static, so it is not in the pool.
  lemma {:induction false} FitsStatic(s: State, r: Id, name: Name, src: Rec)
    requires RecsOk(s) && Fits(s, r, name, TypeOf(src.flags))
    ensures Static(s.At(r).flags) && s.n <= r
  {
    StaticMeets(s.At(r).flags, src.flags);
  }

  // When allocation succeeds, every name above the source's has an entry of the
  // source's kind that lasts as long as the source, so that the name is known
  // to exist at any time before the source expires.
  lemma {:induction false} EmptyNonTerminals(s: State, source: Id, heap: Id, j: nat, now: int)
    requires ChainsOk(s) && RecsOk(s) && Ready(s, s.At(source), heap)
    requires j < |s.At(source).name| && s.At(source).name[j] == DOT
    ensures var t := MakeNonTerminals(s, source, heap, {}); var src := s.At(source);
      && Covered(t, src.name[j + 1..], src)
      && (!Expired(now, src) ==> Known(t, src.name[j + 1..], now))
  {
    hide Bucket, Ready, Fits, Clear, CoverAll;
    var src := s.At(source);
    var t := MakeNonTerminals(s, source, heap, {});
    ClearReady(s, s.Home(source), 0, src.name, src, heap);
    CoverAllCovers(Clear(s, s.Home(source), 0, src.name, TypeOf(src.flags)), src.name, 0, src, heap);
    if !Expired(now, src) {
      var r :| Covers(t, r, src.name[j + 1..], src);
      CoversShow(t, r, src.name[j + 1..], src, now);
    }
  }

  lemma {:induction false} CoversShow(s: State, r: Id, name: Name, src: Rec, now: int)
    requires Covers(s, r, name, src) && !Expired(now, src)
    ensures r in s.table[s.BucketOf(name)] && Shows(s, r, name, now)
  {
    hide Bucket;
  }
}
