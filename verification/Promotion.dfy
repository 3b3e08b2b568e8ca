/**
 When make_non_terminals leaves the chains in order: an immortal source promotes
 mortal entries where they stand, and entries created later go in front of those.
 */
module Promotion {
  import opened Names
  import opened Records
  import opened State
  import opened Keeps
  import opened NonTerminals
  import opened Ancestors

  // The entry that the round for the dot at `j` finds.
  function FoundFor(s: State, name: Name, j: nat, type': Flags): Option<Id>
    requires j < |name|
  {
    Same(s, s.table[s.BucketOf(name[j + 1..])], 0, name[j + 1..], type')
  }

  // The mortal entries among those that the rounds from `i` on find.
  function Promoted(s: State, name: Name, i: nat, src: Rec): set<Id>
    requires i <= |name|
    decreases |name| - i
  {
    if i == |name| then {}
    else
      var found := if name[i] == DOT then FoundFor(s, name, i, TypeOf(src.flags)) else None;
      (if found.Some? && Promotes(s, found.value, src) then {found.value} else {}) + Promoted(s, name, i + 1, src)
  }

  // A forward entry is promoted and one after it stays mortal.
  ghost predicate Overtakes(s: State, p: set<Id>, b: nat, i: nat, j: nat) {
    && b < |s.table| && i < j < |s.table[b]|
    && s.table[b][i] in p && F_REVERSE !in s.At(s.table[b][i]).flags
    && s.table[b][j] !in p && Segment(s.At(s.table[b][j]).flags) == 1
  }

  // ---------- the segment an entry will be of ----------

  function Final(s: State, r: Id, p: set<Id>): nat {
    if F_REVERSE in s.At(r).flags then 0 else if F_IMMORTAL in s.At(r).flags || r in p then 2 else 1
  }

  ghost predicate FinalChain(s: State, c: seq<Id>, p: set<Id>) {
    forall i, j :: 0 <= i < j < |c| ==> Final(s, c[i], p) <= Final(s, c[j], p)
  }

  ghost predicate FinalOrder(s: State, p: set<Id>) {
    forall b :: 0 <= b < |s.table| ==> FinalChain(s, s.table[b], p)
  }

  lemma {:induction false} FinalSame(s: State, t: State, c: seq<Id>, p: set<Id>)
    requires forall r: Id :: r in c ==> Final(t, r, p) == Final(s, r, p)
    ensures FinalChain(t, c, p) <==> FinalChain(s, c, p)
  {
    hide Final;
    assert forall i :: 0 <= i < |c| ==> c[i] in c;
  }

  lemma {:induction false} ExtendFinal(s: State, r: Id, src: Rec, p: set<Id>)
    requires Promotes(s, r, src) ==> r in p
    ensures FinalOrder(Extend(s, r, src), p) <==> FinalOrder(s, p)
  {
    hide FinalChain;
    var t := Extend(s, r, src);
    FinalKept(s, r, src, p);
    hide Extend, Final;
    forall b | 0 <= b < |s.table| ensures FinalChain(t, t.table[b], p) <==> FinalChain(s, s.table[b], p) {
      FinalSame(s, t, s.table[b], p);
    }
  }

  lemma {:induction false} FinalKept(s: State, r: Id, src: Rec, p: set<Id>)
    requires Promotes(s, r, src) ==> r in p
    ensures var t := Extend(s, r, src); t == s.(recs := t.recs) && forall x: Id :: Final(t, x, p) == Final(s, x, p)
  {
    var t := Extend(s, r, src);
    if t != s {
      Frame(s.recs, t.recs, r, t.At(r));
    }
  }

  // A new immortal entry goes in front of the first one that is immortal already.
  lemma {:induction false} InsertFinal(s: State, c: seq<Id>, r: Id, p: set<Id>)
    requires F_IMMORTAL in s.At(r).flags && F_REVERSE !in s.At(r).flags
    ensures FinalChain(s, Inserted(c, Place(s.recs, c, s.At(r).flags), r), p) <==> FinalChain(s, c, p)
  {
    hide SkipReverse, SkipMortal, FinalChain;
    var k := Place(s.recs, c, s.At(r).flags);
    FinalWithout(s, c, k, r, p);
    if FinalChain(s, c, p) {
      if k < |c| {
        PlacedFirst(s, c, r, p);
      }
      FinalWith(s, c, k, r, p);
    }
  }

  lemma {:induction false} FinalWithout(s: State, c: seq<Id>, k: nat, r: Id, p: set<Id>)
    requires k <= |c|
    ensures FinalChain(s, Inserted(c, k, r), p) ==> FinalChain(s, c, p)
  {
    hide Final;
    var d := Inserted(c, k, r);
    if FinalChain(s, d, p) {
      forall i, j | 0 <= i < j < |c| ensures Final(s, c[i], p) <= Final(s, c[j], p) {
        var i', j' := if i < k then i else i + 1, if j < k then j else j + 1;
        assert d[i'] == c[i] && d[j'] == c[j] && Final(s, d[i'], p) <= Final(s, d[j'], p);
      }
    }
  }

  lemma {:induction false} FinalWith(s: State, c: seq<Id>, k: nat, r: Id, p: set<Id>)
    requires FinalChain(s, c, p) && k <= |c| && Final(s, r, p) == 2 && (k < |c| ==> Final(s, c[k], p) == 2)
    ensures FinalChain(s, Inserted(c, k, r), p)
  {
    var d := Inserted(c, k, r);
    FinalTop(s, p);
    hide Final;
    forall i, j | 0 <= i < j < |d| ensures Final(s, d[i], p) <= Final(s, d[j], p) {
      assert i != k ==> d[i] == c[if i < k then i else i - 1];
      assert j != k ==> d[j] == c[if j < k then j else j - 1];
      assert j > k + 1 ==> Final(s, c[k], p) <= Final(s, c[j - 1], p);
    }
  }

  lemma {:induction false} FinalTop(s: State, p: set<Id>)
    ensures forall r: Id :: Final(s, r, p) <= 2
  {}

  lemma {:induction false} PlacedFirst(s: State, c: seq<Id>, r: Id, p: set<Id>)
    requires F_IMMORTAL in s.At(r).flags && F_REVERSE !in s.At(r).flags && FinalChain(s, c, p)
    requires Place(s.recs, c, s.At(r).flags) < |c|
    ensures Final(s, c[Place(s.recs, c, s.At(r).flags)], p) == 2
  {
    hide SkipReverse, SkipMortal;
    var k := Place(s.recs, c, s.At(r).flags);
    var u := SkipReverse(s.recs, c, 0);
    assert u <= k && F_IMMORTAL in Get(s.recs, c[k]).flags && F_REVERSE !in Get(s.recs, c[u]).flags;
    assert u < k ==> Final(s, c[u], p) <= Final(s, c[k], p);
  }

  lemma {:induction false} CreateFinal(s: State, r: Id, name: Name, src: Rec, p: set<Id>)
    requires F_IMMORTAL in src.flags && forall b :: 0 <= b < |s.table| ==> r !in s.table[b]
    ensures FinalOrder(Create(s, r, name, src), p) <==> FinalOrder(s, p)
  {
    hide Bucket, Place, FinalChain;
    var x := Made(s, r, name, src);
    var s', t := s.(recs := s.recs[r := x]), Create(s, r, name, src);
    Frame(s.recs, s'.recs, r, x);
    var h := s'.Home(r);
    InsertFinal(s', s.table[h], r, p);
    forall b | 0 <= b < |s.table| ensures FinalChain(t, t.table[b], p) <==> FinalChain(s, s.table[b], p) {
      assert forall q: Id :: q in s.table[b] ==> Final(s', q, p) == Final(s, q, p);
      FinalSame(s, s', s.table[b], p);
      assert forall q: Id :: Final(t, q, p) == Final(s', q, p);
      FinalSame(s', t, t.table[b], p);
    }
  }

  // ---------- what later rounds find ----------

  lemma {:induction false} SameCongruent(s: State, t: State, c: seq<Id>, u: nat, name: Name, type': Flags)
    requires u <= |c| && forall r: Id :: r in c ==> (Fits(t, r, name, type') <==> Fits(s, r, name, type'))
    ensures Same(t, c, u, name, type') == Same(s, c, u, name, type')
    decreases |c| - u
  {
    hide Fits;
    if u < |c| {
      assert c[u] in c;
      SameCongruent(s, t, c, u + 1, name, type');
    }
  }

  lemma {:induction false} SameShifted(s: State, c: seq<Id>, d: seq<Id>, u: nat, v: nat, name: Name, type': Flags)
    requires u <= |c| && v <= |d| && c[u..] == d[v..]
    ensures Same(s, c, u, name, type') == Same(s, d, v, name, type')
    decreases |c| - u
  {
    hide Fits;
    assert |c| - u == |d| - v;
    if u < |c| {
      assert c[u] == c[u..][0] && d[v] == d[v..][0] && c[u + 1..] == c[u..][1..] && d[v + 1..] == d[v..][1..];
      SameShifted(s, c, d, u + 1, v + 1, name, type');
    }
  }

  // An entry that does not fit makes no difference.
  lemma {:induction false} SameInserted(s: State, c: seq<Id>, k: nat, r: Id, u: nat, name: Name, type': Flags)
    requires u <= k <= |c| && !Fits(s, r, name, type')
    ensures Same(s, Inserted(c, k, r), u, name, type') == Same(s, c, u, name, type')
    decreases k - u
  {
    hide Fits;
    var d := Inserted(c, k, r);
    if u == k {
      assert d[u] == r && d[u + 1..] == c[u..];
      SameShifted(s, c, d, u, u + 1, name, type');
    } else {
      assert d[u] == c[u];
      SameInserted(s, c, k, r, u + 1, name, type');
    }
  }

  // What decides whether a record fits, and that it is no DNSSEC record.
  ghost predicate Alike(x: Rec, y: Rec) {
    && (forall f: Flag :: f != F_IMMORTAL ==> (f in x.flags <==> f in y.flags))
    && y.name == x.name && y.data == x.data && y.uid == x.uid
  }

  lemma {:induction false} FitsAlike(s: State, t: State, r: Id, name: Name, type': Flags)
    requires NoDnssec(s) && NoDnssec(t) && F_IMMORTAL !in type' && Alike(s.At(r), t.At(r))
    requires forall q: Id :: Get(t.recs, q).uid == Get(s.recs, q).uid
    ensures Fits(t, r, name, type') <==> Fits(s, r, name, type')
  {
    hide SameName;
    MeetsAlike(s.At(r).flags, t.At(r).flags, type');
    var d := s.At(r).data;
    if d.CnameRec? && d.rec.Some? {
      assert Get(t.recs, d.rec.value).uid == Get(s.recs, d.rec.value).uid;
      assert F_DS !in Get(t.recs, d.rec.value).flags && F_DS !in Get(s.recs, d.rec.value).flags;
    }
  }

  lemma {:induction false} MeetsAlike(f: Flags, g: Flags, type': Flags)
    requires (forall x: Flag :: x != F_IMMORTAL ==> (x in f <==> x in g)) && F_IMMORTAL !in type'
    ensures Meets(f, type') <==> Meets(g, type')
  {
    assert forall x :: x in type' ==> (x in f <==> x in g);
  }

  lemma {:induction false} ExtendFinds(s: State, r: Id, src: Rec, name: Name, type': Flags)
    requires NoDnssec(s) && F_IMMORTAL !in type'
    ensures var t := Extend(s, r, src);
      NoDnssec(t) && t.table == s.table && Same(t, t.table[t.BucketOf(name)], 0, name, type') == Same(s, s.table[s.BucketOf(name)], 0, name, type')
  {
    hide Bucket, Fits, Same;
    var t := Extend(s, r, src);
    ExtendAlike(s, r, src);
    hide Extend, Alike, NoDnssec;
    if t != s {
      forall q: Id ensures Fits(t, q, name, type') <==> Fits(s, q, name, type') {
        FitsAlike(s, t, q, name, type');
      }
      SameCongruent(s, t, s.table[s.BucketOf(name)], 0, name, type');
    }
  }

  lemma {:induction false} ExtendAlike(s: State, r: Id, src: Rec)
    requires NoDnssec(s)
    ensures var t := Extend(s, r, src);
      && NoDnssec(t) && t == s.(recs := t.recs)
      && (forall q: Id :: Alike(Get(s.recs, q), Get(t.recs, q)) && Get(t.recs, q).uid == Get(s.recs, q).uid)
  {
    var t := Extend(s, r, src);
    if t != s {
      Frame(s.recs, t.recs, r, t.At(r));
    }
  }

  lemma {:induction false} CreateFinds(s: State, r: Id, name: Name, src: Rec, name': Name, type': Flags)
    requires NoDnssec(s) && F_IMMORTAL !in type' && |name'| != |name| && forall b :: 0 <= b < |s.table| ==> r !in s.table[b]
    ensures var t := Create(s, r, name, src);
      NoDnssec(t) && Same(t, t.table[t.BucketOf(name')], 0, name', type') == Same(s, s.table[s.BucketOf(name')], 0, name', type')
  {
    hide Bucket, Fits, Place, Same;
    var x := Made(s, r, name, src);
    var s', t := s.(recs := s.recs[r := x]), Create(s, r, name, src);
    Frame(s.recs, s'.recs, r, x);
    var b, h := s.BucketOf(name'), s'.Home(r);
    var c := s.table[b];
    forall q: Id | q in c ensures Fits(t, q, name', type') <==> Fits(s, q, name', type') {
      FitsAlike(s, t, q, name', type');
    }
    SameCongruent(s, t, c, 0, name', type');
    if b == h {
      OtherLength(t, r, name', type');
      SameInserted(t, c, Place(s'.recs, c, x.flags), r, 0, name', type');
    }
  }

  lemma {:induction false} OtherLength(s: State, r: Id, name: Name, type': Flags)
    requires |s.At(r).name| != |name|
    ensures !Fits(s, r, name, type')
  {
    assert |Fold(name)| == |name| && |Fold(s.At(r).name)| == |s.At(r).name|;
  }

  // ---------- one round ----------

  ghost predicate Older(s: State, t: State) {
    forall r: Id :: F_IMMORTAL in Get(s.recs, r).flags ==> F_IMMORTAL in Get(t.recs, r).flags
  }

  lemma {:induction false} ExtendOlder(s: State, r: Id, src: Rec)
    requires F_IMMORTAL in src.flags
    ensures Older(s, Extend(s, r, src)) && F_IMMORTAL in Extend(s, r, src).At(r).flags
  {}

  lemma {:induction false} CreateOlder(s: State, r: Id, name: Name, src: Rec)
    requires F_IMMORTAL in src.flags
    ensures Older(s, Create(s, r, name, src))
  {
    hide Bucket, Hash;
    var s' := s.(recs := s.recs[r := Made(s, r, name, src)]);
    HashTable(s', r);
  }

  lemma {:induction false} CoverFinal(s: State, name: Name, src: Rec, heap: Id, malloc: bool, p: set<Id>)
    requires Rest(s) && Ready(s, src, heap) && NoDnssec(s) && F_IMMORTAL in src.flags
    requires var found := Same(s, s.table[s.BucketOf(name)], 0, name, TypeOf(src.flags));
      found.Some? && Promotes(s, found.value, src) ==> found.value in p
    ensures var t := Cover(s, name, src, heap, malloc);
      var found := Same(s, s.table[s.BucketOf(name)], 0, name, TypeOf(src.flags));
      && NoDnssec(t) && Older(s, t) && (FinalOrder(t, p) <==> FinalOrder(s, p))
      && (found.Some? ==> F_IMMORTAL in t.At(found.value).flags)
  {
    hide Bucket, Rest, Ready, Fits, Extend, Create, FinalOrder, Older, NoDnssec;
    var found := Same(s, s.table[s.BucketOf(name)], 0, name, TypeOf(src.flags));
    assert F_IMMORTAL !in TypeOf(src.flags);
    Unused(s, src, heap);
    HeapReady(s, src, heap);
    if found.Some? {
      ExtendFinal(s, found.value, src, p);
      ExtendFinds(s, found.value, src, name, TypeOf(src.flags));
      ExtendOlder(s, found.value, src);
    } else if F_DHCP in src.flags && s.spare != [] {
      assert s.spare[0] in s.spare;
      SpareOnly(s, s.(spare := s.spare[1..]), p);
      CreateFinal(s.(spare := s.spare[1..]), s.spare[0], name, src, p);
      CreateFinds(s.(spare := s.spare[1..]), s.spare[0], name, src, name + [DOT], TypeOf(src.flags));
      CreateOlder(s.(spare := s.spare[1..]), s.spare[0], name, src);
    } else if malloc {
      CreateFinal(s, heap, name, src, p);
      CreateFinds(s, heap, name, src, name + [DOT], TypeOf(src.flags));
      CreateOlder(s, heap, name, src);
    }
    OlderSame(s, s.spare);
  }

  lemma {:induction false} SpareOnly(s: State, t: State, p: set<Id>)
    requires t == s.(spare := t.spare)
    ensures (FinalOrder(t, p) <==> FinalOrder(s, p)) && (NoDnssec(s) ==> NoDnssec(t))
    ensures forall v: State :: Older(t, v) ==> Older(s, v)
  {
    forall b | 0 <= b < |s.table| ensures FinalChain(t, t.table[b], p) <==> FinalChain(s, s.table[b], p) {
      FinalSame(s, t, s.table[b], p);
    }
  }

  lemma {:induction false} OlderSame(s: State, spare: seq<Id>)
    ensures Older(s, s)
  {}

  // A round for one name does not change what is found for one of another length.
  lemma {:induction false} CoverFinds(s: State, name: Name, src: Rec, heap: Id, malloc: bool, name': Name)
    requires Rest(s) && Ready(s, src, heap) && NoDnssec(s) && |name'| != |name|
    ensures var t := Cover(s, name, src, heap, malloc);
      Same(t, t.table[t.BucketOf(name')], 0, name', TypeOf(src.flags)) == Same(s, s.table[s.BucketOf(name')], 0, name', TypeOf(src.flags))
  {
    hide Bucket, Rest, Ready, Fits, Extend, Create, NoDnssec;
    var found := Same(s, s.table[s.BucketOf(name)], 0, name, TypeOf(src.flags));
    assert F_IMMORTAL !in TypeOf(src.flags);
    Unused(s, src, heap);
    if found.Some? {
      ExtendFinds(s, found.value, src, name', TypeOf(src.flags));
    } else if F_DHCP in src.flags && s.spare != [] {
      assert s.spare[0] in s.spare;
      var s' := s.(spare := s.spare[1..]);
      SpareOnly(s, s', {});
      SpareFinds(s, s', name', TypeOf(src.flags));
      CreateFinds(s', s.spare[0], name, src, name', TypeOf(src.flags));
    } else if malloc {
      CreateFinds(s, heap, name, src, name', TypeOf(src.flags));
    }
  }

  lemma {:induction false} SpareFinds(s: State, t: State, name: Name, type': Flags)
    requires t == s.(spare := t.spare)
    ensures Same(t, t.table[t.BucketOf(name)], 0, name, type') == Same(s, s.table[s.BucketOf(name)], 0, name, type')
  {
    hide Bucket;
    SameCongruent(s, t, s.table[s.BucketOf(name)], 0, name, type');
  }

  // ---------- the whole call ----------

  // The rounds from `i` on will find in `w` what they would have found in `u`.
  ghost predicate FindsAs(u: State, w: State, name: Name, i: nat, type': Flags)
    requires i <= |name|
  {
    forall j :: i <= j < |name| ==> FoundFor(w, name, j, type') == FoundFor(u, name, j, type')
  }

  lemma {:induction false} FindsOn(u: State, w: State, name: Name, i: nat, src: Rec, heap: Id, malloc: bool)
    requires i < |name| && Rest(w) && Ready(w, src, heap) && NoDnssec(w) && FindsAs(u, w, name, i, TypeOf(src.flags))
    ensures FindsAs(u, Cover(w, name[i + 1..], src, heap, malloc), name, i + 1, TypeOf(src.flags))
  {
    hide Bucket, Rest, Ready, NoDnssec, Cover, Same;
    var t := Cover(w, name[i + 1..], src, heap, malloc);
    forall j | i + 1 <= j < |name| ensures FoundFor(t, name, j, TypeOf(src.flags)) == FoundFor(u, name, j, TypeOf(src.flags)) {
      assert |name[j + 1..]| != |name[i + 1..]|;
      CoverFinds(w, name[i + 1..], src, heap, malloc, name[j + 1..]);
      assert FoundFor(w, name, j, TypeOf(src.flags)) == FoundFor(u, name, j, TypeOf(src.flags));
    }
  }

  lemma {:induction false} CoverAllFinal(u: State, w: State, name: Name, i: nat, src: Rec, heap: Id, fails: set<nat>, p: set<Id>)
    requires i <= |name| && F_IMMORTAL in src.flags && Rest(w) && Ready(w, src, heap + i) && NoDnssec(w)
    requires FindsAs(u, w, name, i, TypeOf(src.flags)) && Older(u, w) && Promoted(u, name, i, src) <= p
    requires forall r: Id :: r in p ==> r in Promoted(u, name, i, src) || F_IMMORTAL in Get(w.recs, r).flags
    ensures var t := CoverAll(w, name, i, src, heap, fails);
      (FinalOrder(t, p) <==> FinalOrder(w, p)) && forall r: Id :: r in p ==> F_IMMORTAL in Get(t.recs, r).flags
    decreases |name| - i
  {
    hide Bucket, Rest, Ready, NoDnssec, Cover, FinalOrder, Same;
    if i < |name| {
      var t := if name[i] == DOT then Cover(w, name[i + 1..], src, heap + i, i !in fails) else w;
      if name[i] == DOT {
        assert FoundFor(w, name, i, TypeOf(src.flags)) == FoundFor(u, name, i, TypeOf(src.flags));
        CoverRest(w, name[i + 1..], src, heap + i, i !in fails);
        CoverFinal(w, name[i + 1..], src, heap + i, i !in fails, p);
        FindsOn(u, w, name, i, src, heap + i, i !in fails);
      } else {
        ReadyUp(w, src, heap + i);
      }
      CoverAllFinal(u, t, name, i + 1, src, heap, fails, p);
    }
  }

  lemma {:induction false} FinalIsOrder(s: State, p: set<Id>)
    requires forall r: Id :: r in p ==> F_IMMORTAL in Get(s.recs, r).flags
    ensures FinalOrder(s, p) <==> OrderOk(s)
  {
    assert forall r: Id :: Final(s, r, p) == Segment(Get(s.recs, r).flags);
    hide Final, Segment;
    forall b | 0 <= b < |s.table| ensures FinalChain(s, s.table[b], p) <==> Ordered(s.recs, s.table[b]) {}
  }

  lemma {:induction false} FinalUnlessOvertaken(s: State, p: set<Id>)
    requires OrderOk(s)
    ensures FinalOrder(s, p) <==> forall b: nat, i: nat, j: nat :: !Overtakes(s, p, b, i, j)
  {
    if FinalOrder(s, p) {
      forall b: nat, i: nat, j: nat ensures !Overtakes(s, p, b, i, j) {
        if b < |s.table| && i < j < |s.table[b]| {
          assert FinalChain(s, s.table[b], p) && Final(s, s.table[b][i], p) <= Final(s, s.table[b][j], p);
        }
      }
    }
    if forall b: nat, i: nat, j: nat :: !Overtakes(s, p, b, i, j) {
      forall b | 0 <= b < |s.table| ensures FinalChain(s, s.table[b], p) {
        var c := s.table[b];
        assert Ordered(s.recs, c);
        forall i, j | 0 <= i < j < |c| ensures Final(s, c[i], p) <= Final(s, c[j], p) {
          assert !Overtakes(s, p, b, i, j) && Segment(Get(s.recs, c[i]).flags) <= Segment(Get(s.recs, c[j]).flags);
        }
      }
    }
  }

  // make_non_terminals keeps the invariant if and only if, once an old entry for the
  // name itself is out, no forward entry that it promotes has a mortal one after it
  // that it does not promote.
  lemma {:induction false} MakeOrder(s: State, source: Id, heap: Id, fails: set<nat>)
    requires Inv(s) && NoDnssec(s) && Ready(s, s.At(source), heap)
    ensures var src := s.At(source);
      var u := Clear(s, s.Home(source), 0, src.name, TypeOf(src.flags));
      Inv(MakeNonTerminals(s, source, heap, fails)) <==>
        forall b: nat, i: nat, j: nat :: !Overtakes(u, Promoted(u, src.name, 0, src), b, i, j)
  {
    hide Bucket, Inv, Rest, Ready, Clear, CoverAll, OrderOk, NoDnssec, FinalOrder, Overtakes, Older, Promoted;
    var src, b := s.At(source), s.Home(source);
    var u := Clear(s, b, 0, src.name, TypeOf(src.flags));
    var t, p := MakeNonTerminals(s, source, heap, fails), Promoted(u, src.name, 0, src);
    InvParts(s);
    InvParts(t);
    RestParts(s);
    MakeKeeps(s, source, heap, fails);
    ClearReady(s, b, 0, src.name, src, heap);
    ClearRest(s, b, 0, src.name, src);
    ClearNoDnssec(s, b, 0, src.name, src);
    FinalUnlessOvertaken(u, p);
    if F_IMMORTAL in src.flags {
      OlderSame(u, []);
      CoverAllFinal(u, u, src.name, 0, src, heap, fails, p);
      FinalIsOrder(t, p);
    } else {
      NonePromoted(u, src.name, 0, src);
      FinalIsOrder(u, p);
      CoverAllKeeps(u, src.name, 0, src, heap, fails);
    }
  }

  lemma {:induction false} InvParts(s: State)
    ensures Inv(s) <==> Rest(s) && OrderOk(s)
  {}

  lemma {:induction false} NonePromoted(s: State, name: Name, i: nat, src: Rec)
    requires i <= |name| && F_IMMORTAL !in src.flags
    ensures Promoted(s, name, i, src) == {}
    decreases |name| - i
  {
    hide Same;
    if i < |name| {
      NonePromoted(s, name, i + 1, src);
    }
  }

  lemma {:induction false} ClearNoDnssec(s: State, b: nat, u: nat, name: Name, src: Rec)
    requires NoDnssec(s) && b < |s.table| && u <= |s.table[b]|
    ensures NoDnssec(Clear(s, b, u, name, TypeOf(src.flags)))
    decreases |s.table[b]| - u
  {
    hide Bucket, Fits;
    if u < |s.table[b]| {
      var r := s.table[b][u];
      forall q: Id ensures Get(s.recs - {r}, q) == if q == r then BLANK else Get(s.recs, q) {}
      if !Empty(s, r, name, TypeOf(src.flags)) {
        ClearNoDnssec(s, b, u + 1, name, src);
      }
    }
  }
}
