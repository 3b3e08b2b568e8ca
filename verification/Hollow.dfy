/**
 What make_non_terminals leaves in the table: the entries it makes answer for no type,
 and what was there is kept but for how long it lasts.
 */
module Hollow {
  import opened Names
  import opened Records
  import opened State
  import opened Keeps
  import opened NonTerminals
  import opened Ancestors
  import opened Promotion
  import opened Rehash
  import opened Runs
  import opened Scans
  import Lookup

  // ---------- entries ----------

  predicate DotAt(name: Name, j: nat) {
    j < |name| && name[j] == DOT
  }

  // The name `x` is what follows some dot of the other, up to case.
  ghost predicate Above(name: Name, x: Name) {
    exists j: nat :: DotAt(name, j) && SameName(name[j + 1..], x)
  }

  // An entry that says only that its name, one above the source's, exists. It is of
  // the source's kind and expires when the source does.
  ghost predicate IsHollow(x: Rec, src: Rec) {
    && (exists j: nat :: DotAt(src.name, j) && x.name == src.name[j + 1..])
    && F_FORWARD in x.flags && F_REVERSE !in x.flags && x.flags !! TYPES && F_NAMEP in x.flags
    && (forall f: Flag :: f in {F_DHCP, F_HOSTS, F_CONFIG, F_IMMORTAL} ==> (f in x.flags <==> f in src.flags))
    && (F_IMMORTAL !in src.flags ==> x.ttd == src.ttd)
  }

  // The source lasts longer.
  predicate Outlived(x: Rec, src: Rec) {
    F_IMMORTAL !in x.flags && (F_IMMORTAL in src.flags || x.ttd < src.ttd)
  }

  // The entry, with the source's expiry.
  function Lengthened(x: Rec, src: Rec): Rec {
    if F_IMMORTAL in src.flags then x.(flags := x.flags + {F_IMMORTAL}) else x.(ttd := src.ttd)
  }

  // The entry `x` has become `y`: the same, or a forward one of the source's kind for a
  // name above the source's that now lasts exactly as long as the source.
  ghost predicate Stretched(x: Rec, y: Rec, src: Rec) {
    || y == x
    || (&& F_FORWARD in x.flags && Meets(x.flags, TypeOf(src.flags)) && Above(src.name, x.name) && Outlived(x, src)
        && y == Lengthened(x, src))
  }

  lemma {:induction false} StretchedOnce(x: Rec, y: Rec, z: Rec, src: Rec)
    requires Stretched(x, y, src) && Stretched(y, z, src)
    ensures Stretched(x, z, src)
  {
    hide Above, Meets;
  }

  lemma {:induction false} HollowStays(x: Rec, y: Rec, src: Rec)
    requires IsHollow(x, src) && Stretched(x, y, src)
    ensures y == x
  {
    hide Above, Meets;
    assert F_IMMORTAL in {F_DHCP, F_HOSTS, F_CONFIG, F_IMMORTAL};
  }

  // ---------- rounds ----------

  // From `s` to `t` rounds only add hollow entries and stretch others.
  ghost predicate Grown(s: State, t: State, src: Rec) {
    && t == s.(recs := t.recs, table := t.table, spare := t.spare)
    && (forall r: Id :: s.Hashed(r) ==> t.Hashed(r) && Stretched(s.At(r), t.At(r), src))
    && (forall r: Id :: t.Hashed(r) && !s.Hashed(r) ==> IsHollow(t.At(r), src))
  }

  // Of the spare records the first are in the table and the others still spare. Only a
  // source from DHCP takes them, and takes no others before they are used up.
  ghost predicate Spent(s: State, t: State, src: Rec) {
    && |t.spare| <= |s.spare| && t.spare == s.spare[|s.spare| - |t.spare|..]
    && (forall r: Id :: r in s.spare ==> r in t.spare || t.Hashed(r))
    && (if F_DHCP in src.flags then forall r: Id :: t.Hashed(r) && !s.Hashed(r) && r !in s.spare ==> t.spare == []
        else t.spare == s.spare)
  }

  lemma {:induction false} GrownTrans(s: State, t: State, u: State, src: Rec)
    requires Grown(s, t, src) && Grown(t, u, src)
    ensures Grown(s, u, src)
  {
    hide Bucket, Stretched, IsHollow;
    forall r: Id | s.Hashed(r) ensures u.Hashed(r) && Stretched(s.At(r), u.At(r), src) {
      StretchedOnce(s.At(r), t.At(r), u.At(r), src);
    }
    forall r: Id | u.Hashed(r) && !s.Hashed(r) ensures IsHollow(u.At(r), src) {
      if t.Hashed(r) {
        HollowStays(t.At(r), u.At(r), src);
      }
    }
  }

  lemma {:induction false} SpentTrans(s: State, t: State, u: State, src: Rec)
    requires Grown(t, u, src) && Spent(s, t, src) && Spent(t, u, src)
    ensures Spent(s, u, src)
  {
    hide Bucket, Stretched, IsHollow, State.Hashed;
    assert u.spare == t.spare[|t.spare| - |u.spare|..] == s.spare[|s.spare| - |u.spare|..];
    forall r: Id | u.Hashed(r) && !s.Hashed(r) && r !in s.spare && F_DHCP in src.flags ensures u.spare == [] {
      assert r in t.spare ==> r in s.spare;
    }
  }

  lemma {:induction false} GrownRefl(s: State, src: Rec)
    ensures Grown(s, s, src) && Spent(s, s, src)
  {
    hide Bucket, State.Hashed;
  }

  lemma {:induction false} ExtendGrown(s: State, r: Id, name: Name, src: Rec)
    requires Fits(s, r, name, TypeOf(src.flags)) && Above(src.name, s.At(r).name)
    ensures Grown(s, Extend(s, r, src), src) && Spent(s, Extend(s, r, src), src)
  {
    hide Bucket, Above, Meets, SameName, State.Outdated;
    var t := Extend(s, r, src);
    if t != s {
      Frame(s.recs, t.recs, r, t.At(r));
    }
    assert Stretched(s.At(r), t.At(r), src);
    hide Stretched, Extend, Fits;
    forall p: Id ensures t.Home(p) == s.Home(p) && (t.Hashed(p) <==> s.Hashed(p)) {}
  }

  lemma {:induction false} MadeHollow(s: State, r: Id, j: nat, src: Rec)
    requires Named(src) && DotAt(src.name, j)
    ensures IsHollow(Made(s, r, src.name[j + 1..], src), src)
  {
    assert Made(s, r, src.name[j + 1..], src).name == src.name[j + 1..];
  }

  // A record that was not in the table is put there.
  lemma {:induction false} PutGrown(s: State, r: Id, x: Rec, src: Rec)
    requires IsHollow(x, src) && forall b :: 0 <= b < |s.table| ==> r !in s.table[b]
    ensures Grown(s, AddStatic(s, r, x), src) && AddStatic(s, r, x).Hashed(r) && AddStatic(s, r, x).spare == s.spare
    ensures forall p: Id :: AddStatic(s, r, x).Hashed(p) ==> p == r || s.Hashed(p)
  {
    hide Bucket, Hash, IsHollow, Above, Meets;
    var s', t := s.(recs := s.recs[r := x]), AddStatic(s, r, x);
    Frame(s.recs, s'.recs, r, x);
    HashTable(s', r);
    forall p: Id ensures p != r ==> t.At(p) == s.At(p) && t.Home(p) == s.Home(p) && (t.Hashed(p) <==> s.Hashed(p)) {}
    assert !s.Hashed(r) && t.At(r) == x;
  }

  lemma {:induction false} CoverGrown(s: State, j: nat, src: Rec, heap: Id, malloc: bool)
    requires Ready(s, src, heap) && DotAt(src.name, j)
    ensures var t := Cover(s, src.name[j + 1..], src, heap, malloc); Grown(s, t, src) && Spent(s, t, src)
  {
    hide Bucket, Ready, Fits, Extend, AddStatic, Made, Grown, Spent, IsHollow;
    var name := src.name[j + 1..];
    var found := Same(s, s.table[s.BucketOf(name)], 0, name, TypeOf(src.flags));
    Unused(s, src, heap);
    HeapReady(s, src, heap);
    GrownRefl(s, src);
    if found.Some? {
      FitsAbove(s, found.value, j, src);
      ExtendGrown(s, found.value, name, src);
    } else if F_DHCP in src.flags && s.spare != [] {
      var s', r := s.(spare := s.spare[1..]), s.spare[0];
      assert r in s.spare;
      MadeHollow(s', r, j, src);
      PutGrown(s', r, Made(s', r, name, src), src);
      SpareTaken(s, Create(s', r, name, src), src);
    } else if malloc {
      MadeHollow(s, heap, j, src);
      PutGrown(s, heap, Made(s, heap, name, src), src);
      NoneTaken(s, Create(s, heap, name, src), src);
    }
  }

  lemma {:induction false} FitsAbove(s: State, r: Id, j: nat, src: Rec)
    requires DotAt(src.name, j) && Fits(s, r, src.name[j + 1..], TypeOf(src.flags))
    ensures Above(src.name, s.At(r).name)
  {}

  lemma {:induction false} SpareTaken(s: State, t: State, src: Rec)
    requires s.spare != [] && F_DHCP in src.flags && Grown(s.(spare := s.spare[1..]), t, src) && t.spare == s.spare[1..]
    requires t.Hashed(s.spare[0]) && forall p: Id :: t.Hashed(p) ==> p == s.spare[0] || s.(spare := s.spare[1..]).Hashed(p)
    ensures Grown(s, t, src) && Spent(s, t, src)
  {
    hide Bucket, Stretched, IsHollow;
    var s' := s.(spare := s.spare[1..]);
    assert forall p: Id :: s'.Hashed(p) <==> s.Hashed(p);
    assert s.spare == [s.spare[0]] + s.spare[1..];
  }

  lemma {:induction false} NoneTaken(s: State, t: State, src: Rec)
    requires Grown(s, t, src) && t.spare == s.spare && (F_DHCP in src.flags ==> s.spare == [])
    ensures Spent(s, t, src)
  {
    hide Grown, State.Hashed;
  }

  lemma {:induction false} CoverAllGrown(s: State, i: nat, src: Rec, heap: Id, fails: set<nat>)
    requires Rest(s) && Ready(s, src, heap + i) && i <= |src.name|
    ensures var t := CoverAll(s, src.name, i, src, heap, fails); Grown(s, t, src) && Spent(s, t, src)
    decreases |src.name| - i
  {
    hide Bucket, Rest, Ready, Cover, Grown, Spent;
    GrownRefl(s, src);
    if i < |src.name| {
      var t := s;
      if src.name[i] == DOT {
        t := Cover(s, src.name[i + 1..], src, heap + i, i !in fails);
        CoverGrown(s, i, src, heap + i, i !in fails);
        CoverRest(s, src.name[i + 1..], src, heap + i, i !in fails);
      } else {
        ReadyUp(s, src, heap + i);
      }
      CoverAllGrown(t, i + 1, src, heap, fails);
      var u := CoverAll(t, src.name, i + 1, src, heap, fails);
      GrownTrans(s, t, u, src);
      SpentTrans(s, t, u, src);
    }
  }

  // ---------- the old entry of the name itself ----------

  // An empty entry of the name and kind is out of the table, if there is one; nothing
  // else has changed.
  ghost predicate Cleared(s: State, t: State, name: Name, type': Flags, out: Option<Id>) {
    && t == s.(recs := t.recs, table := t.table, spare := t.spare)
    && (forall r: Id :: t.Hashed(r) <==> s.Hashed(r) && out != Some(r))
    && (forall r: Id :: out != Some(r) ==> t.At(r) == s.At(r))
    && match out
       case None => t == s && forall r: Id :: s.Hashed(r) ==> !Empty(s, r, name, type')
       case Some(r) =>
         s.Hashed(r) && Empty(s, r, name, type')
         && if F_DHCP in type' then t.spare == [r] + s.spare && t.At(r) == s.At(r) else t.spare == s.spare && r !in t.recs
  }

  lemma {:induction false} UnhashExactly(s: State, b: nat, u: nat, t: State)
    requires ChainsOk(s) && b < |s.table| && u < |s.table[b]|
    requires t == Unhash(s, b, u).(spare := t.spare, recs := t.recs) && (t.recs == s.recs || t.recs == s.recs - {s.table[b][u]})
    ensures forall r: Id :: t.Hashed(r) <==> s.Hashed(r) && r != s.table[b][u]
    ensures forall r: Id :: r != s.table[b][u] ==> t.At(r) == s.At(r)
  {
    hide Bucket;
    var x := s.table[b][u];
    assert ChainOk(s, b, s.table[b]) && EntryOk(s, x, b);
    CutFacts(s.table[b], u);
    forall r: Id ensures t.Hashed(r) <==> s.Hashed(r) && r != x {
      assert r != x ==> t.At(r) == s.At(r) && t.Home(r) == s.Home(r);
      assert ChainOk(s, t.Home(x), s.table[t.Home(x)]) && (x in s.table[t.Home(x)] ==> EntryOk(s, x, t.Home(x)));
    }
  }

  lemma {:induction false} ClearFrom(s: State, b: nat, u: nat, name: Name, type': Flags) returns (out: Option<Id>)
    requires ChainsOk(s) && b == s.BucketOf(name) && u <= |s.table[b]|
    requires forall j :: 0 <= j < u ==> !Empty(s, s.table[b][j], name, type')
    ensures Cleared(s, Clear(s, b, u, name, type'), name, type', out)
    decreases |s.table[b]| - u
  {
    hide Bucket, Empty, ChainsOk, State.Hashed;
    out := None;
    if u == |s.table[b]| {
      forall r: Id | s.Hashed(r) ensures !Empty(s, r, name, type') {
        EmptyHome(s, r, name, type');
      }
    } else if Empty(s, s.table[b][u], name, type') {
      out := Some(s.table[b][u]);
      UnhashExactly(s, b, u, Clear(s, b, u, name, type'));
      ChainHashed(s, b, u);
    } else {
      out := ClearFrom(s, b, u + 1, name, type');
    }
  }

  lemma {:induction false} ChainHashed(s: State, b: nat, u: nat)
    requires ChainsOk(s) && b < |s.table| && u < |s.table[b]|
    ensures s.Hashed(s.table[b][u])
  {
    hide Bucket;
    assert ChainOk(s, b, s.table[b]) && EntryOk(s, s.table[b][u], b);
  }

  lemma {:induction false} EmptyHome(s: State, r: Id, name: Name, type': Flags)
    requires s.Hashed(r)
    ensures Empty(s, r, name, type') ==> r in s.table[s.BucketOf(name)]
  {
    hide Bucket, SameName;
    if SameName(name, s.At(r).name) {
      BucketIgnoresCase(s.mix, name, s.At(r).name, |s.table|);
    }
  }

  // ---------- the whole call ----------

  // What is in the table after the call. `out` is the old empty entry of the name.
  ghost predicate OnlyHollow(s: State, t: State, src: Rec, out: Option<Id>) {
    && (out.Some? ==> s.Hashed(out.value) && Empty(s, out.value, src.name, TypeOf(src.flags)))
    && (forall r: Id :: s.Hashed(r) && out != Some(r) ==> t.Hashed(r) && Stretched(s.At(r), t.At(r), src))
    && (forall r: Id :: t.Hashed(r) && (s.Hashed(r) ==> out == Some(r)) ==> IsHollow(t.At(r), src))
  }

  // A lookup by type, forwards or by address, has the same entries to choose from.
  ghost predicate SameMatches(s: State, t: State, prot: Flags) {
    && (forall r: Id, name: Name ::
          (t.Hashed(r) && Lookup.Matches(t.At(r), name, prot) <==> s.Hashed(r) && Lookup.Matches(s.At(r), name, prot)))
    && (forall r: Id, addr: Data ::
          (t.Hashed(r) && Lookup.MatchesAddr(t.At(r), addr, prot) <==> s.Hashed(r) && Lookup.MatchesAddr(s.At(r), addr, prot)))
  }

  // Whatever allocations fail: all that the call adds to the table are hollow entries,
  // all that it takes out is one empty entry of the name itself, if there was one, and
  // all that it changes is that entries for names above last as long as the source. So
  // a lookup by types has no entry to choose from that it had not, and the reverse.
  lemma {:induction false} NothingAnswers(s: State, source: Id, heap: Id, fails: set<nat>) returns (out: Option<Id>)
    requires Rest(s) && Ready(s, s.At(source), heap)
    ensures var t, src := MakeNonTerminals(s, source, heap, fails), s.At(source);
      OnlyHollow(s, t, src, out) && forall prot: Flags :: prot <= TYPES ==> SameMatches(s, t, prot)
    ensures out.None? ==> forall r: Id :: s.Hashed(r) ==> !Empty(s, r, s.At(source).name, TypeOf(s.At(source).flags))
  {
    hide Bucket, Ready, Clear, CoverAll, PoolOk, RecsOk, ChainsOk, FindableOk, LruOk, UidsOk, LinksOk, BigOk, Grown, Spent, OnlyHollow, SameMatches;
    var src, b := s.At(source), s.Home(source);
    out := ClearFrom(s, b, 0, src.name, TypeOf(src.flags));
    var u := Clear(s, b, 0, src.name, TypeOf(src.flags));
    ClearReady(s, b, 0, src.name, src, heap);
    ClearRest(s, b, 0, src.name, src);
    CoverAllGrown(u, 0, src, heap, fails);
    var t := MakeNonTerminals(s, source, heap, fails);
    ClearedGrown(s, u, t, src, out);
    forall prot: Flags | prot <= TYPES ensures SameMatches(s, t, prot) {
      HollowMatches(s, t, src, out, prot);
    }
  }

  lemma {:induction false} ClearedGrown(s: State, u: State, t: State, src: Rec, out: Option<Id>)
    requires Cleared(s, u, src.name, TypeOf(src.flags), out) && Grown(u, t, src)
    ensures OnlyHollow(s, t, src, out)
  {
    hide Bucket, State.Hashed, Empty, Stretched, IsHollow;
  }

  lemma {:induction false} HollowMatches(s: State, t: State, src: Rec, out: Option<Id>, prot: Flags)
    requires OnlyHollow(s, t, src, out) && prot <= TYPES
    ensures SameMatches(s, t, prot)
  {
    hide Bucket, State.Hashed, SameName, SameAddr, OnlyHollow, Meets, TYPES;
    forall r: Id, name: Name
      ensures t.Hashed(r) && Lookup.Matches(t.At(r), name, prot) <==> s.Hashed(r) && Lookup.Matches(s.At(r), name, prot)
    {
      EntryMatches(s, t, src, out, prot, r);
    }
    forall r: Id, addr: Data
      ensures t.Hashed(r) && Lookup.MatchesAddr(t.At(r), addr, prot) <==> s.Hashed(r) && Lookup.MatchesAddr(s.At(r), addr, prot)
    {
      EntryMatches(s, t, src, out, prot, r);
    }
  }

  // What a lookup sees of an entry: nothing before or after, or the same.
  lemma {:induction false} EntryMatches(s: State, t: State, src: Rec, out: Option<Id>, prot: Flags, r: Id)
    requires OnlyHollow(s, t, src, out) && prot <= TYPES
    ensures
      || ((s.Hashed(r) ==> !Meets(s.At(r).flags, prot)) && (t.Hashed(r) ==> !Meets(t.At(r).flags, prot)))
      || (s.Hashed(r) && t.Hashed(r) && Alike(s.At(r), t.At(r)) && (Meets(s.At(r).flags, prot) <==> Meets(t.At(r).flags, prot)))
  {
    hide Bucket, State.Hashed, Above, Fits;
    if s.Hashed(r) && out != Some(r) {
      MeetsAlike(s.At(r).flags, t.At(r).flags, prot);
    }
  }

  // Records are neither lost nor taken from elsewhere: those spare before, with the old
  // entry of a name from DHCP, are spare or in the table, and no others are spare. Only
  // a source from DHCP takes spare records, and it takes no new ones while there are any.
  lemma {:induction false} SpareAccounted(s: State, source: Id, heap: Id, fails: set<nat>) returns (out: Option<Id>)
    requires Rest(s) && Ready(s, s.At(source), heap)
    ensures var t, src := MakeNonTerminals(s, source, heap, fails), s.At(source);
      && OnlyHollow(s, t, src, out)
      && (forall r: Id :: r in s.spare || (F_DHCP in src.flags && out == Some(r)) ==> r in t.spare || t.Hashed(r))
      && (forall r: Id :: r in t.spare ==> r in s.spare || out == Some(r))
      && (if F_DHCP !in src.flags then t.spare == s.spare
          else forall r: Id :: t.Hashed(r) && !s.Hashed(r) && r !in s.spare ==> t.spare == [])
  {
    hide Bucket, Ready, Clear, CoverAll, PoolOk, RecsOk, ChainsOk, FindableOk, LruOk, UidsOk, LinksOk, BigOk, Grown, Spent, OnlyHollow;
    var src, b := s.At(source), s.Home(source);
    out := ClearFrom(s, b, 0, src.name, TypeOf(src.flags));
    var u := Clear(s, b, 0, src.name, TypeOf(src.flags));
    ClearReady(s, b, 0, src.name, src, heap);
    ClearRest(s, b, 0, src.name, src);
    CoverAllGrown(u, 0, src, heap, fails);
    var t := MakeNonTerminals(s, source, heap, fails);
    ClearedGrown(s, u, t, src, out);
    ClearedSpent(s, u, t, src, out);
  }

  lemma {:induction false} ClearedSpent(s: State, u: State, t: State, src: Rec, out: Option<Id>)
    requires Cleared(s, u, src.name, TypeOf(src.flags), out) && Spent(u, t, src)
    ensures forall r: Id :: r in s.spare || (F_DHCP in src.flags && out == Some(r)) ==> r in t.spare || t.Hashed(r)
    ensures forall r: Id :: r in t.spare ==> r in s.spare || out == Some(r)
    ensures F_DHCP !in src.flags ==> t.spare == s.spare
    ensures F_DHCP in src.flags ==> forall r: Id :: t.Hashed(r) && !s.Hashed(r) && r !in s.spare ==> t.spare == []
  {
    hide Bucket, State.Hashed, Empty;
    forall r: Id | r in s.spare || (F_DHCP in src.flags && out == Some(r)) ensures r in t.spare || t.Hashed(r) {
      assert r in u.spare;
    }
    forall r: Id | r in t.spare ensures r in s.spare || out == Some(r) {
      assert r in u.spare;
    }
    hide Spent;
    forall r: Id | F_DHCP in src.flags && t.Hashed(r) && !s.Hashed(r) && r !in s.spare ensures t.spare == [] {
      SpentNew(u, t, src, r);
    }
  }

  lemma {:induction false} SpentNew(s: State, t: State, src: Rec, r: Id)
    requires Spent(s, t, src) && F_DHCP in src.flags && t.Hashed(r) && !s.Hashed(r) && r !in s.spare
    ensures t.spare == []
  {
    hide Bucket, State.Hashed;
  }

  // Taking the DHCP entries out of the table leaves it ready for names again.
  lemma {:induction false} ForgottenReady(s: State, src: Rec, limit: nat)
    requires Inv(s) && Ready(s, src, limit)
    ensures Inv(UnhashDhcp(s, 0)) && Ready(UnhashDhcp(s, 0), src, limit)
  {
    hide Bucket, Inv, UnhashDhcp;
    var t := UnhashDhcp(s, 0);
    assert SpareApart(s) by {
      forall b, r: Id | 0 <= b < |s.table| && r in s.table[b] ensures r !in s.spare {
        assert Settled(s, r, limit);
      }
    }
    UnhashDhcpSpares(s, 0);
    DhcpForgotten(s, 0);
    forall r: Id | r in t.spare ensures s.n <= r < limit {
      if r !in s.spare {
        var b :| 0 <= b < |s.table| && r in s.table[b] && F_DHCP in s.At(r).flags;
        assert Settled(s, r, limit);
        HashedStatic(s, b, Index(s.table[b], r));
      }
    }
    forall b, r: Id | 0 <= b < |t.table| && r in t.table[b] ensures Settled(t, r, limit) {
      ForgetIn(s.recs, s.table[b], r);
      assert Settled(s, r, limit);
    }
  }

  // ---------- entries that last longer ----------

  // The entry that the round for the dot at `j` finds answers for some type and would
  // have expired before the source.
  ghost predicate Prolonged(u: State, src: Rec, j: nat) {
    && DotAt(src.name, j)
    && var found := FoundFor(u, src.name, j, TypeOf(src.flags));
    && found.Some? && Outlived(u.At(found.value), src) && Meets(u.At(found.value).flags, TYPES)
  }

  // The entry is one for a lookup to choose from at the time.
  ghost predicate Held(s: State, r: Id, name: Name, now: int, prot: Flags) {
    s.Hashed(r) && Lookup.Matches(s.At(r), name, prot) && !Expired(now, s.At(r))
  }

  // A round changes no entry but the one it finds, which then lasts as the source does.
  lemma {:induction false} CoverTouches(s: State, j: nat, src: Rec, heap: Id, malloc: bool)
    requires Ready(s, src, heap) && NoDnssec(s) && DotAt(src.name, j)
    ensures var t, found := Cover(s, src.name[j + 1..], src, heap, malloc), FoundFor(s, src.name, j, TypeOf(src.flags));
      && NoDnssec(t) && (forall r: Id :: s.Hashed(r) && found != Some(r) ==> t.At(r) == s.At(r))
      && (found.Some? ==> !Outlived(t.At(found.value), src))
  {
    hide Bucket, Ready, Fits, Create, NoDnssec, Same;
    var name := src.name[j + 1..];
    var found := FoundFor(s, src.name, j, TypeOf(src.flags));
    Unused(s, src, heap);
    if found.Some? {
      ExtendAlike(s, found.value, src);
    } else if F_DHCP in src.flags && s.spare != [] {
      assert s.spare[0] in s.spare;
      SpareOnly(s, s.(spare := s.spare[1..]), {});
      CreateTouches(s.(spare := s.spare[1..]), s.spare[0], name, src);
    } else if malloc {
      CreateTouches(s, heap, name, src);
    }
  }

  lemma {:induction false} CreateTouches(s: State, r: Id, name: Name, src: Rec)
    requires NoDnssec(s) && forall b :: 0 <= b < |s.table| ==> r !in s.table[b]
    ensures var t := Create(s, r, name, src); NoDnssec(t) && forall p: Id :: p != r ==> t.At(p) == s.At(p)
  {
    hide Bucket, Hash;
    var s' := s.(recs := s.recs[r := Made(s, r, name, src)]);
    Frame(s.recs, s'.recs, r, Made(s, r, name, src));
    HashTable(s', r);
  }

  // The rounds from `i` on: each entry that changes is one that was to be found, and
  // all those that were last as the source does.
  lemma {:induction false} CoverAllTouches(u: State, w: State, i: nat, src: Rec, heap: Id, fails: set<nat>)
    requires i <= |src.name| && Rest(w) && Ready(w, src, heap + i) && NoDnssec(w) && FindsAs(u, w, src.name, i, TypeOf(src.flags))
    requires forall j: nat :: i <= j && DotAt(src.name, j) ==> var found := FoundFor(u, src.name, j, TypeOf(src.flags)); found.Some? ==> w.Hashed(found.value)
    ensures var t := CoverAll(w, src.name, i, src, heap, fails);
      && (forall r: Id :: w.Hashed(r) && t.At(r) != w.At(r) ==> exists j: nat :: DotAt(src.name, j) && FoundFor(u, src.name, j, TypeOf(src.flags)) == Some(r))
      && (forall j: nat :: i <= j && DotAt(src.name, j) ==> var found := FoundFor(u, src.name, j, TypeOf(src.flags)); found.Some? ==> !Outlived(t.At(found.value), src))
    decreases |src.name| - i
  {
    hide Bucket, Rest, Ready, NoDnssec, Cover, Same, Grown, State.Hashed, Outlived, FoundFor;
    if i < |src.name| {
      var v, t := w, CoverAll(w, src.name, i, src, heap, fails);
      if src.name[i] == DOT {
        v := Cover(w, src.name[i + 1..], src, heap + i, i !in fails);
        assert FoundFor(w, src.name, i, TypeOf(src.flags)) == FoundFor(u, src.name, i, TypeOf(src.flags));
        CoverTouches(w, i, src, heap + i, i !in fails);
        CoverGrown(w, i, src, heap + i, i !in fails);
        CoverRest(w, src.name[i + 1..], src, heap + i, i !in fails);
        FindsOn(u, w, src.name, i, src, heap + i, i !in fails);
      } else {
        GrownRefl(w, src);
        ReadyUp(w, src, heap + i);
      }
      GrownHashed(w, v, src);
      CoverAllTouches(u, v, i + 1, src, heap, fails);
      CoverAllGrown(v, i + 1, src, heap, fails);
      GrownLasts(v, t, src);
    }
  }

  lemma {:induction false} GrownHashed(s: State, t: State, src: Rec)
    requires Grown(s, t, src)
    ensures forall r: Id :: s.Hashed(r) ==> t.Hashed(r)
  {
    hide State.Hashed, Stretched;
  }

  lemma {:induction false} GrownLasts(s: State, t: State, src: Rec)
    requires Grown(s, t, src)
    ensures forall r: Id :: s.Hashed(r) && !Outlived(s.At(r), src) ==> !Outlived(t.At(r), src)
  {
    hide State.Hashed, Above, Meets;
  }

  // The facts about the call that the two directions below need.
  ghost predicate Outcome(s: State, u: State, t: State, src: Rec, out: Option<Id>) {
    && Cleared(s, u, src.name, TypeOf(src.flags), out) && OnlyHollow(s, t, src, out)
    && (forall r: Id :: u.Hashed(r) && t.At(r) != u.At(r) ==> exists j: nat :: DotAt(src.name, j) && FoundFor(u, src.name, j, TypeOf(src.flags)) == Some(r))
    && (forall j: nat :: DotAt(src.name, j) ==> var found := FoundFor(u, src.name, j, TypeOf(src.flags));
          found.Some? ==> u.Hashed(found.value) && F_FORWARD in u.At(found.value).flags && !Outlived(t.At(found.value), src))
  }

  lemma {:induction false} MakeOutcome(s: State, source: Id, heap: Id, fails: set<nat>) returns (out: Option<Id>)
    requires Rest(s) && NoDnssec(s) && Ready(s, s.At(source), heap)
    ensures var src := s.At(source);
      Outcome(s, Clear(s, s.Home(source), 0, src.name, TypeOf(src.flags)), MakeNonTerminals(s, source, heap, fails), src, out)
  {
    hide Bucket, Rest, Ready, Clear, CoverAll, NoDnssec, OnlyHollow, Grown, Spent, Cleared, State.Hashed, FoundFor, Outlived;
    var src, b := s.At(source), s.Home(source);
    var u := Clear(s, b, 0, src.name, TypeOf(src.flags));
    RestParts(s);
    out := ClearFrom(s, b, 0, src.name, TypeOf(src.flags));
    ClearReady(s, b, 0, src.name, src, heap);
    ClearRest(s, b, 0, src.name, src);
    ClearNoDnssec(s, b, 0, src.name, src);
    RestParts(u);
    AllFound(u, src);
    CoverAllTouches(u, u, 0, src, heap, fails);
    CoverAllGrown(u, 0, src, heap, fails);
    ClearedGrown(s, u, MakeNonTerminals(s, source, heap, fails), src, out);
  }

  // A lookup by types gains an entry at some time if and only if, once an old entry for
  // the name itself is out, some entry that a round finds answers for a type and would
  // have expired before the source: it need not be an empty one to be prolonged.
  lemma {:induction false} LookupGains(s: State, source: Id, heap: Id, fails: set<nat>)
    requires Rest(s) && NoDnssec(s) && Ready(s, s.At(source), heap)
    ensures var src := s.At(source); var t := MakeNonTerminals(s, source, heap, fails);
      var u := Clear(s, s.Home(source), 0, src.name, TypeOf(src.flags));
      (exists r: Id, name: Name, now: int, prot: Flags :: prot <= TYPES && Held(t, r, name, now, prot) && !Held(s, r, name, now, prot))
      <==> exists j: nat :: Prolonged(u, src, j)
  {
    hide Bucket, Rest, Ready, Clear, CoverAll, NoDnssec, Held, Prolonged, Outcome;
    var src := s.At(source);
    var u := Clear(s, s.Home(source), 0, src.name, TypeOf(src.flags));
    var t := MakeNonTerminals(s, source, heap, fails);
    var out := MakeOutcome(s, source, heap, fails);
    forall r: Id, name: Name, now: int, prot: Flags | prot <= TYPES && Held(t, r, name, now, prot) && !Held(s, r, name, now, prot)
      ensures exists j: nat :: Prolonged(u, src, j)
    {
      GainProlonged(s, u, t, src, out, r, name, now, prot);
    }
    forall j: nat | Prolonged(u, src, j)
      ensures exists r: Id, name: Name, now: int, prot: Flags :: prot <= TYPES && Held(t, r, name, now, prot) && !Held(s, r, name, now, prot)
    {
      var r, name, now, prot := ProlongedGain(s, u, t, src, out, j);
    }
  }

  // What a round finds is in the table.
  lemma {:induction false} AllFound(u: State, src: Rec)
    requires ChainsOk(u)
    ensures forall j: nat :: DotAt(src.name, j) ==> var found := FoundFor(u, src.name, j, TypeOf(src.flags));
      found.Some? ==> u.Hashed(found.value) && F_FORWARD in u.At(found.value).flags
  {
    hide Bucket, Fits, Same, ChainsOk, State.Hashed;
    forall j: nat | DotAt(src.name, j) && FoundFor(u, src.name, j, TypeOf(src.flags)).Some?
      ensures var found := FoundFor(u, src.name, j, TypeOf(src.flags)); u.Hashed(found.value) && F_FORWARD in u.At(found.value).flags
    {
      var b := u.BucketOf(src.name[j + 1..]);
      var r := FoundFor(u, src.name, j, TypeOf(src.flags)).value;
      ChainHashed(u, b, Index(u.table[b], r));
      FitsForward(u, r, src.name[j + 1..], TypeOf(src.flags));
    }
  }

  lemma {:induction false} FitsForward(s: State, r: Id, name: Name, type': Flags)
    requires Fits(s, r, name, type')
    ensures F_FORWARD in s.At(r).flags
  {}

  lemma {:induction false} GainProlonged(s: State, u: State, t: State, src: Rec, out: Option<Id>, r: Id, name: Name, now: int, prot: Flags)
    requires Outcome(s, u, t, src, out) && prot <= TYPES && Held(t, r, name, now, prot) && !Held(s, r, name, now, prot)
    ensures exists j: nat :: Prolonged(u, src, j)
  {
    hide Bucket, State.Hashed, SameName, Above, FoundFor, IsHollow, Fits;
    HollowMatches(s, t, src, out, prot);
    assert s.Hashed(r) && Lookup.Matches(s.At(r), name, prot) && Expired(now, s.At(r));
    assert out != Some(r) by { EntryMatches(s, t, src, out, prot, r); }
    assert u.Hashed(r) && u.At(r) == s.At(r) && Stretched(s.At(r), t.At(r), src);
    assert t.At(r) != s.At(r);
    var j: nat :| DotAt(src.name, j) && FoundFor(u, src.name, j, TypeOf(src.flags)) == Some(r);
    assert Meets(u.At(r).flags, TYPES);
    assert Prolonged(u, src, j);
  }

  // An entry that a round prolongs has the source's expiry.
  lemma {:induction false} ProlongedTo(s: State, u: State, t: State, src: Rec, out: Option<Id>, j: nat)
    requires Outcome(s, u, t, src, out) && Prolonged(u, src, j)
    ensures DotAt(src.name, j) && var found := FoundFor(u, src.name, j, TypeOf(src.flags)); found.Some? && var r := found.value;
      && s.Hashed(r) && u.At(r) == s.At(r) && F_FORWARD in s.At(r).flags && Outlived(s.At(r), src) && Meets(s.At(r).flags, TYPES)
      && t.Hashed(r) && t.At(r) == Lengthened(s.At(r), src)
  {
    hide Bucket, State.Hashed, Above, FoundFor, IsHollow, Empty, Meets;
    var r := FoundFor(u, src.name, j, TypeOf(src.flags)).value;
    assert u.Hashed(r) && u.At(r) == s.At(r);
    assert Stretched(s.At(r), t.At(r), src);
  }

  lemma {:induction false} ProlongedGain(s: State, u: State, t: State, src: Rec, out: Option<Id>, j: nat) returns (r: Id, name: Name, now: int, prot: Flags)
    requires Outcome(s, u, t, src, out) && Prolonged(u, src, j)
    ensures prot <= TYPES && Held(t, r, name, now, prot) && !Held(s, r, name, now, prot)
  {
    hide Bucket, State.Hashed, FoundFor, Outcome, Prolonged;
    ProlongedTo(s, u, t, src, out, j);
    r := FoundFor(u, src.name, j, TypeOf(src.flags)).value;
    name, now, prot := s.At(r).name, s.At(r).ttd, TYPES;
    MeetsAlike(s.At(r).flags, t.At(r).flags, TYPES);
    assert SameName(name, name);
  }

  // ---------- a name that outlives its lease ----------

  const LEASE := Rec({F_FORWARD, F_DHCP, F_IPV4}, [98], Ip(NO_ADDR), 5, UID_NONE)
  const LONGER := Rec({F_FORWARD, F_DHCP, F_IPV4}, [97, DOT, 98], Ip(NO_ADDR), 100, UID_NONE)

  // The entries of the table are the records from the pool size to `limit`.
  ghost predicate Stocked(s: State, limit: Id) {
    && Inv(s) && NoDnssec(s) && s.spare == [] && s.n <= limit && (forall r: Id :: limit <= r ==> r !in s.recs)
    && (forall b, r: Id :: 0 <= b < |s.table| && r in s.table[b] ==> s.n <= r < limit)
    && (forall r: Id :: s.n <= r < limit ==> s.Hashed(r))
    && (forall r: Id :: Static(Get(s.recs, r).flags) ==> F_NXDOMAIN !in Get(s.recs, r).flags)
  }

  lemma {:induction false} Stock(s: State, limit: Id, x: Rec)
    requires Stocked(s, limit) && Fixed(x) && F_DS !in x.flags && F_DNSKEY !in x.flags
    ensures var t := AddStatic(s, limit, x);
      && Enabled(s, Define(limit, x)) && Stocked(t, limit + 1) && t.n == s.n && t.At(limit) == x
      && forall p: Id :: p != limit ==> t.At(p) == s.At(p)
  {
    hide Bucket, Inv, Hash;
    var t := AddStatic(s, limit, x);
    DefineKeeps(s, limit, x);
    HashTable(s.(recs := s.recs[limit := x]), limit);
    Frame(s.recs, t.recs, limit, x);
    forall r: Id | t.n <= r < limit + 1 ensures t.Hashed(r) {
      assert r != limit ==> s.Hashed(r) && t.Home(r) == s.Home(r);
    }
  }

  lemma {:induction false} StockNone(n: CInt, mix: Mix)
    ensures Stocked(Initial(n, mix), n) && Initial(n, mix).n == n
  {
    hide Bucket, Inv;
    InitialInv(n, mix);
    LinkedFacts(n, mix, n);
    NoRecords(n, mix, n);
  }

  lemma {:induction false} NoRecords(n: CInt, mix: Mix, k: nat)
    ensures forall r: Id :: k <= r ==> r !in Linked(n, mix, k).recs
  {
    if k > 0 {
      NoRecords(n, mix, k - 1);
    }
  }

  // The two leases are in the table.
  lemma {:induction false} OnlyTwo(n: CInt, mix: Mix) returns (ops: seq<Op>, s: State)
    ensures Allowed(Initial(n, mix), ops) && s == After(Initial(n, mix), ops)
    ensures s.n == n && Stocked(s, n + 2) && s.At(n) == LEASE && s.At(n + 1) == LONGER
  {
    hide Bucket, Inv, Initial, AddStatic, Stocked, Allowed, After;
    var i := Initial(n, mix);
    StockNone(n, mix);
    Stock(i, n, LEASE);
    var a := AddStatic(i, n, LEASE);
    Stock(a, n + 1, LONGER);
    s := AddStatic(a, n + 1, LONGER);
    NoSteps(i);
    Further(i, [], Define(n, LEASE));
    Further(i, [] + [Define(n, LEASE)], Define(n + 1, LONGER));
    ops := [] + [Define(n, LEASE)] + [Define(n + 1, LONGER)];
  }

  lemma {:induction false} NoSteps(s: State)
    ensures Allowed(s, []) && After(s, []) == s
  {}

  lemma {:induction false} StockReady(s: State, limit: Id, x: Rec)
    requires Stocked(s, limit) && Named(x)
    ensures Rest(s) && Ready(s, x, limit) && NoDnssec(s)
  {
    hide Bucket, Inv, Rest, NoDnssec;
    InvParts(s);
  }

  ghost predicate Leased(s: State) {
    Stocked(s, s.n + 2) && s.At(s.n) == LEASE && s.At(s.n + 1) == LONGER
  }

  lemma {:induction false} LeasedEntries(s: State, r: Id)
    requires Leased(s)
    ensures s.Hashed(r) ==> r == s.n || r == s.n + 1
    ensures s.Hashed(s.n) && s.n in s.table[s.BucketOf([98])] && !Empty(s, s.n, LONGER.name, {F_DHCP}) && !Empty(s, s.n + 1, LONGER.name, {F_DHCP})
    ensures Fits(s, s.n, [98], {F_DHCP}) && !Fits(s, s.n + 1, [98], {F_DHCP})
    ensures forall q: Id :: q in s.table[s.BucketOf([98])] ==> q == s.n || q == s.n + 1
  {
    hide Bucket, Inv, Fits, NoDnssec;
    assert F_IPV4 in LEASE.flags && F_IPV4 in LONGER.flags && F_IPV4 in TYPES;
    OtherLength(s, s.n + 1, [98], {F_DHCP});
    LeaseFits(s);
  }

  lemma {:induction false} LeaseFits(s: State)
    requires s.At(s.n) == LEASE
    ensures Fits(s, s.n, [98], {F_DHCP})
  {
    assert F_DHCP in LEASE.flags;
  }

  // No empty entry is taken out, and the round for [98] finds the shorter lease.
  lemma {:induction false} LeaseFound(s: State)
    requires Leased(s)
    ensures Clear(s, s.Home(s.n + 1), 0, LONGER.name, {F_DHCP}) == s
    ensures FoundFor(s, LONGER.name, 1, {F_DHCP}) == Some(s.n)
  {
    hide Bucket, Inv, Fits, Same, Clear, State.Hashed, Empty, NoDnssec;
    InvParts(s);
    RestParts(s);
    LeasedEntries(s, 0);
    var out := ClearFrom(s, s.Home(s.n + 1), 0, LONGER.name, {F_DHCP});
    if out.Some? {
      LeasedEntries(s, out.value);
    }
    assert LONGER.name[1 + 1..] == [98];
    var c := s.table[s.BucketOf([98])];
    var found := Same(s, c, 0, [98], {F_DHCP});
    assert c[Index(c, s.n)] == s.n;
  }

  // A lease of [98] until 5 is in the table, and one of [97, DOT, 98] until 100 is made
  // known. From then on [98] has its address until 100.
  lemma {:induction false} LeaseProlonged(n: CInt, mix: Mix, fails: set<nat>)
    ensures exists ops: seq<Op> :: Allowed(Initial(n, mix), ops) && var s := After(Initial(n, mix), ops); var t := MakeNonTerminals(s, n + 1, n + 2, fails);
      && s.At(n) == LEASE && s.At(n + 1) == LONGER && Rest(s) && Ready(s, LONGER, n + 2)
      && !Held(s, n, [98], 10, {F_IPV4}) && Held(t, n, [98], 10, {F_IPV4})
  {
    hide Bucket, Inv, Initial, Allowed, After, Rest, Ready, NoDnssec, Stocked, Clear, CoverAll, Outcome, FoundFor, State.Hashed;
    var ops, s := OnlyTwo(n, mix);
    StockReady(s, n + 2, LONGER);
    LeaseFound(s);
    var t := MakeNonTerminals(s, n + 1, n + 2, fails);
    var out := MakeOutcome(s, n + 1, n + 2, fails);
    assert F_IPV4 in LEASE.flags && F_IPV4 in TYPES && TypeOf(LONGER.flags) == {F_DHCP};
    assert Prolonged(s, LONGER, 1);
    ProlongedTo(s, s, t, LONGER, out, 1);
    assert Held(t, n, [98], 10, {F_IPV4});
  }
}
