/**
 Exactly which entries a lookup by name leaves in the bucket, and in which order.
 */
module Exact {
  import opened Names
  import opened Records
  import opened State
  import opened Keeps
  import opened Scans
  import opened Lookup
  import opened Answers
  import opened RoundRobin

  // A CNAME whose target is among the pool records `gone`.
  predicate Bereft(s: State, r: Id, gone: set<Id>) {
    var x := s.At(r);
    F_CNAME in x.flags && x.data.CnameRec? && x.data.rec.Some? && x.data.rec.value < s.n && x.data.rec.value in gone
  }

  predicate Doomed(s: State, r: Id, gone: set<Id>, now: int) {
    Expired(now, s.At(r)) || s.Outdated(r) || Bereft(s, r, gone)
  }

  // The first `i` entries of a chain are removed or kept in turn: removing one
  // leaves the CNAMEs after it that point to it without a target.
  function Gone(s: State, c: seq<Id>, i: nat, now: int): (g: set<Id>)
    requires i <= |c|
    ensures forall r: Id :: r in g ==> r in c[..i]
  {
    if i == 0 then {}
    else
      var g := Gone(s, c, i - 1, now);
      assert c[..i] == c[..i - 1] + [c[i - 1]];
      if Doomed(s, c[i - 1], g, now) then g + {c[i - 1]} else g
  }

  function Kept(s: State, c: seq<Id>, i: nat, now: int): (v: seq<Id>)
    requires i <= |c|
  {
    if i == 0 then []
    else if Doomed(s, c[i - 1], Gone(s, c, i - 1, now), now) then Kept(s, c, i - 1, now)
    else Kept(s, c, i - 1, now) + [c[i - 1]]
  }

  // The group (reverse or not, immortal or not) of the first match in a list.
  function Lead(s: State, v: seq<Id>, name: Name, prot: Flags): Option<(bool, bool)> {
    if v == [] then None
    else if Lead(s, v[..|v| - 1], name, prot).Some? then Lead(s, v[..|v| - 1], name, prot)
    else if Matches(s.At(v[|v| - 1]), name, prot) then Some(Group(s.At(v[|v| - 1]).flags))
    else None
  }

  // The matches of one group.
  function Mates(s: State, c: seq<Id>, name: Name, prot: Flags, g: (bool, bool)): set<Id> {
    set r | r in c && Matches(s.At(r), name, prot) && Group(s.At(r).flags) == g
  }

  function Arranged(s: State, c: seq<Id>, v: seq<Id>, name: Name, prot: Flags, noRR: bool): seq<Id> {
    var g := Lead(s, v, name, prot);
    if noRR || g.None? then v else Arrange(v, Mates(s, c, name, prot, g.value)).0
  }

  // ---------- the sweep, entry by entry ----------

  ghost predicate Trimmed(s: State, t: State, gone: set<Id>) {
    && t.n == s.n
    && forall r: Id :: Get(t.recs, r) == if r in gone && r < s.n then Freed(Get(s.recs, r)) else Get(s.recs, r)
  }

  lemma {:induction false} OutdatedNow(s: State, t: State, gone: set<Id>, r: Id)
    requires LinksOk(s) && Trimmed(s, t, gone) && r !in gone
    ensures t.Outdated(r) <==> s.Outdated(r) || Bereft(s, r, gone)
  {
    assert Get(t.recs, r) == Get(s.recs, r);
    if s.At(r).data.CnameRec? && s.At(r).data.rec.Some? {
      assert Get(t.recs, s.At(r).data.rec.value) == Get(t.recs, s.At(r).data.rec.value);
    }
  }

  ghost predicate Track(s: State, c: seq<Id>, i: nat, t: State, b: nat, k: Cursor, name: Name, now: int, prot: Flags, noRR: bool) {
    && i <= |c| && b < |t.table| && b < |s.table| && c == s.table[b]
    && var v := Kept(s, c, i, now);
    && k.u == |v|
    && t.table == s.table[b := Arranged(s, c, v, name, prot, noRR) + c[i..]]
    && (if noRR then k.insert.None?
        else match Lead(s, v, name, prot)
             case None => k.insert.None?
             case Some(g) => k.group == g && k.insert == Some(Arrange(v, Mates(s, c, name, prot, g)).1)
                             && Sel(v, Mates(s, c, name, prot, g)) != [])
    && Trimmed(s, t, Gone(s, c, i, now))
  }

  lemma {:induction false} ArrangedLength(s: State, c: seq<Id>, v: seq<Id>, name: Name, prot: Flags, noRR: bool)
    ensures |Arranged(s, c, v, name, prot, noRR)| == |v|
  {}

  lemma {:induction false} TrackEvict(s: State, c: seq<Id>, i: nat, t: State, b: nat, k: Cursor, name: Name, now: int, prot: Flags, noRR: bool)
    requires Inv(s) && Inv(t) && Track(s, c, i, t, b, k, name, now, prot, noRR) && i < |c|
    requires Doomed(s, c[i], Gone(s, c, i, now), now)
    ensures k.u < |t.table[b]| && t.table[b][k.u] == c[i]
    ensures Track(s, c, i + 1, Evict(t, b, k.u), b, k, name, now, prot, noRR)
  {
    hide Bucket, Inv, Arranged, Doomed, Lead, Arrange, Mates, Sel, Evict;
    var a := Arranged(s, c, Kept(s, c, i, now), name, prot, noRR);
    ArrangedLength(s, c, Kept(s, c, i, now), name, prot, noRR);
    assert t.table[b] == a + c[i..];
    EvictFacts(t, b, k.u);
    assert Cut(t.table[b], k.u) == a + c[i + 1..];
    HashedStatic(t, b, k.u);
    NotGone(s, c, b, i, now);
  }

  lemma {:induction false} NotGone(s: State, c: seq<Id>, b: nat, i: nat, now: int)
    requires Inv(s) && b < |s.table| && c == s.table[b] && i < |c|
    ensures c[i] !in Gone(s, c, i, now)
  {
    hide Inv, Doomed;
    ChainNoDup(s, b);
  }

  lemma {:induction false} LeadSnoc(s: State, v: seq<Id>, r: Id, name: Name, prot: Flags)
    ensures Lead(s, v + [r], name, prot) ==
      if Lead(s, v, name, prot).Some? then Lead(s, v, name, prot)
      else if Matches(s.At(r), name, prot) then Some(Group(s.At(r).flags)) else None
  {
    hide Matches;
    assert (v + [r])[..|v|] == v;
  }

  lemma {:induction false} NoLead(s: State, v: seq<Id>, name: Name, prot: Flags)
    requires Lead(s, v, name, prot).None?
    ensures forall r: Id :: r in v ==> !Matches(s.At(r), name, prot)
  {
    hide Matches;
    if v != [] {
      NoLead(s, v[..|v| - 1], name, prot);
      assert v == v[..|v| - 1] + [v[|v| - 1]];
    }
  }

  lemma {:induction false} SomeFirst(v: seq<Id>)
    ensures v == [] || v[0] in v
  {}

  lemma {:induction false} NotMarked(s: State, c: seq<Id>, v: seq<Id>, name: Name, prot: Flags, g: (bool, bool))
    requires Lead(s, v, name, prot).None?
    ensures Sel(v, Mates(s, c, name, prot, g)) == []
  {
    hide Matches;
    var m := Mates(s, c, name, prot, g);
    NoLead(s, v, name, prot);
    SelIn(v, m);
    SomeFirst(Sel(v, m));
  }

  // One more entry is kept that does not move up.
  lemma {:induction false} StayArranged(s: State, c: seq<Id>, v: seq<Id>, r: Id, name: Name, prot: Flags, noRR: bool)
    requires r in c
    requires Matches(s.At(r), name, prot) ==>
      noRR || Lead(s, v, name, prot).None? || Lead(s, v, name, prot).value != Group(s.At(r).flags)
    ensures Arranged(s, c, v + [r], name, prot, noRR) == Arranged(s, c, v, name, prot, noRR) + [r]
    ensures var g := Lead(s, v + [r], name, prot);
      g.Some? && !noRR ==>
        var m := Mates(s, c, name, prot, g.value);
        && Arrange(v + [r], m).1 == (if Lead(s, v, name, prot).Some? then Arrange(v, m).1 else |v|)
        && (Lead(s, v, name, prot).None? || Sel(v, m) != [] ==> Sel(v + [r], m) != [])
  {
    hide Matches, Arrange, Sel, Lead;
    LeadSnoc(s, v, r, name, prot);
    var g := Lead(s, v + [r], name, prot);
    if g.Some? {
      var m := Mates(s, c, name, prot, g.value);
      ArrangeSnoc(v, r, m);
      Snoc(v, r, m);
      if Lead(s, v, name, prot).None? {
        NotMarked(s, c, v, name, prot, g.value);
        ArrangeNone(v, m);
      }
    }
  }

  lemma {:induction false} MoveArranged(s: State, c: seq<Id>, v: seq<Id>, r: Id, name: Name, prot: Flags)
    requires r in c && Matches(s.At(r), name, prot) && Lead(s, v, name, prot) == Some(Group(s.At(r).flags))
    requires Sel(v, Mates(s, c, name, prot, Group(s.At(r).flags))) != []
    ensures var m := Mates(s, c, name, prot, Group(s.At(r).flags));
      && Lead(s, v + [r], name, prot) == Lead(s, v, name, prot)
      && Arranged(s, c, v + [r], name, prot, false) == Put(Arranged(s, c, v, name, prot, false), Arrange(v, m).1, r)
      && Arrange(v + [r], m).1 == Arrange(v, m).1 + 1 && Sel(v + [r], m) != []
  {
    hide Matches, Arrange, Sel, Lead;
    LeadSnoc(s, v, r, name, prot);
    ArrangeSnoc(v, r, Mates(s, c, name, prot, Group(s.At(r).flags)));
    Snoc(v, r, Mates(s, c, name, prot, Group(s.At(r).flags)));
  }

  // What the next entry is, and whether it goes.
  lemma {:induction false} TrackHere(s: State, c: seq<Id>, i: nat, t: State, b: nat, k: Cursor, name: Name, now: int, prot: Flags, noRR: bool)
    requires Inv(s) && Track(s, c, i, t, b, k, name, now, prot, noRR) && i < |c|
    ensures k.u < |t.table[b]| && t.table[b][k.u] == c[i] && t.At(c[i]) == s.At(c[i])
    ensures Doomed(s, c[i], Gone(s, c, i, now), now) <==> Expired(now, t.At(c[i])) || t.Outdated(c[i])
  {
    hide Bucket, Arranged, Lead, Arrange, Mates, Sel, PoolOk, RecsOk, OrderOk, LruOk, FindableOk, UidsOk, BigOk;
    ArrangedLength(s, c, Kept(s, c, i, now), name, prot, noRR);
    ChainNoDup(s, b);
    assert c[i] !in Gone(s, c, i, now);
    OutdatedNow(s, t, Gone(s, c, i, now), c[i]);
  }

  lemma {:induction false} TrackSkip(s: State, c: seq<Id>, i: nat, t: State, b: nat, k: Cursor, name: Name, now: int, prot: Flags, noRR: bool)
    requires Inv(s) && Track(s, c, i, t, b, k, name, now, prot, noRR) && i < |c|
    requires !Doomed(s, c[i], Gone(s, c, i, now), now) && !Matches(s.At(c[i]), name, prot)
    ensures Track(s, c, i + 1, t, b, k.(u := k.u + 1), name, now, prot, noRR)
  {
    hide Bucket, Inv, Arranged, Doomed, Arrange, Mates, Sel, Matches, Lead;
    var v := Kept(s, c, i, now);
    LeadSnoc(s, v, c[i], name, prot);
    StayArranged(s, c, v, c[i], name, prot, noRR);
    assert Arranged(s, c, v, name, prot, noRR) + c[i..] == Arranged(s, c, v, name, prot, noRR) + [c[i]] + c[i + 1..];
  }

  lemma {:induction false} TrackMatch(s: State, c: seq<Id>, i: nat, t: State, b: nat, k: Cursor, name: Name, now: int, prot: Flags, noRR: bool)
    requires Inv(s) && Track(s, c, i, t, b, k, name, now, prot, noRR) && i < |c|
    requires !Doomed(s, c[i], Gone(s, c, i, now), now) && Matches(s.At(c[i]), name, prot)
    requires k.u < |t.table[b]| && t.table[b][k.u] == c[i] && t.At(c[i]) == s.At(c[i])
    ensures k.insert.Some? ==> k.insert.value <= k.u
    ensures var p := Promote(t, b, k, noRR);
      Track(s, c, i + 1, p.s, b, p.k, name, now, prot, noRR)
  {
    hide Bucket, Inv, Doomed, Arrange, Mates, Sel, Matches, Lead, Arranged;
    var v, r := Kept(s, c, i, now), c[i];
    var a := Arranged(s, c, v, name, prot, noRR);
    ArrangedLength(s, c, v, name, prot, noRR);
    LeadSnoc(s, v, r, name, prot);
    assert a + c[i..] == a + [r] + c[i + 1..];
    if !noRR && Lead(s, v, name, prot) == Some(Group(s.At(r).flags)) {
      MoveArranged(s, c, v, r, name, prot);
      assert MoveUp(a + c[i..], |a|, k.insert.value) == Put(a, k.insert.value, r) + c[i + 1..];
    } else {
      StayArranged(s, c, v, r, name, prot, noRR);
    }
  }

  lemma {:induction false} SweepTrack(s: State, c: seq<Id>, i: nat, t: State, b: nat, k: Cursor, name: Name, now: int, prot: Flags, noRR: bool)
    requires Inv(s) && Inv(t) && CursorOk(t, b, k) && Track(s, c, i, t, b, k, name, now, prot, noRR)
    ensures var out := Sweep(t, b, name, now, prot, noRR, k);
      && out.s.table == s.table[b := Arranged(s, c, Kept(s, c, |c|, now), name, prot, noRR)]
      && Trimmed(s, out.s, Gone(s, c, |c|, now))
    decreases |c| - i
  {
    hide Bucket, Inv, Arranged, Kept, Gone, Doomed, Matches, Evict, Gather, Promote, Trimmed;
    ArrangedLength(s, c, Kept(s, c, i, now), name, prot, noRR);
    if i == |c| {
      var v := Arranged(s, c, Kept(s, c, i, now), name, prot, noRR);
      assert v + c[i..] == v;
    } else {
      TrackHere(s, c, i, t, b, k, name, now, prot, noRR);
      if Doomed(s, c[i], Gone(s, c, i, now), now) {
        TrackEvict(s, c, i, t, b, k, name, now, prot, noRR);
        EvictKeeps(t, b, k.u);
        EvictCursor(t, b, k);
        SweepTrack(s, c, i + 1, Evict(t, b, k.u), b, k, name, now, prot, noRR);
      } else if Matches(s.At(c[i]), name, prot) {
        var g := Gather(t, c[i], k);
        GatherKeeps(t, b, k.u, k);
        TrackGather(s, c, i, t, b, k, g.s, g.k, name, now, prot, noRR);
        TrackMatch(s, c, i, g.s, b, g.k, name, now, prot, noRR);
        var p := Promote(g.s, b, g.k, noRR);
        PromoteKeeps(g.s, b, g.k, noRR);
        SweepTrack(s, c, i + 1, p.s, b, p.k, name, now, prot, noRR);
      } else {
        TrackSkip(s, c, i, t, b, k, name, now, prot, noRR);
        SweepTrack(s, c, i + 1, t, b, k.(u := k.u + 1), name, now, prot, noRR);
      }
    }
  }

  lemma {:induction false} TrackGather(s: State, c: seq<Id>, i: nat, t: State, b: nat, k: Cursor, t': State, k': Cursor, name: Name, now: int, prot: Flags, noRR: bool)
    requires Track(s, c, i, t, b, k, name, now, prot, noRR)
    requires t'.recs == t.recs && t'.table == t.table && t'.n == t.n && k' == k.(first := k'.first, last := k'.last)
    ensures Track(s, c, i, t', b, k', name, now, prot, noRR)
  {
    hide Arranged, Kept, Gone, Lead, Arrange, Mates, Sel;
  }

  lemma {:induction false} EvictCursor(s: State, b: nat, k: Cursor)
    requires Inv(s) && CursorOk(s, b, k) && k.u < |s.table[b]|
    ensures CursorOk(Evict(s, b, k.u), b, k)
  {
    hide Bucket, Inv;
    var t, r := Evict(s, b, k.u), s.table[b][k.u];
    PassedOnce(s, b, k.u);
    if k.insert.Some? {
      assert s.table[b][k.insert.value] in s.table[b][..k.u];
      assert t.table[b][k.insert.value] == s.table[b][k.insert.value];
    }
  }

  // ---------- results ----------

  // The table after a lookup: in the bucket of the name the entries kept, with the
  // matches of the first match's group turned once around, and the others as before.
  lemma {:induction false} NameLeaves(s: State, name: Name, now: int, prot: Flags, noRR: bool)
    requires Inv(s)
    ensures var o := FindByName(s, name, now, prot, noRR);
      var c := s.table[s.BucketOf(name)];
      && o.s.table == s.table[s.BucketOf(name) := Arranged(s, c, Kept(s, c, |c|, now), name, prot, noRR)]
      && Trimmed(s, o.s, Gone(s, c, |c|, now))
  {
    hide Bucket, Inv, Sweep, Arranged, Gone, Kept, Trimmed;
    var b := s.BucketOf(name);
    var f := Sweep(s, b, name, now, prot, noRR, START);
    TrackStart(s, b, name, now, prot, noRR);
    SweepTrack(s, s.table[b], 0, s, b, START, name, now, prot, noRR);
    TrimmedTie(s, f, Gone(s, s.table[b], |s.table[b]|, now));
  }

  lemma {:induction false} TrackStart(s: State, b: nat, name: Name, now: int, prot: Flags, noRR: bool)
    requires b < |s.table|
    ensures Track(s, s.table[b], 0, s, b, START, name, now, prot, noRR)
  {
    assert [] + s.table[b][0..] == s.table[b];
    assert s.table[b := s.table[b]] == s.table;
  }

  lemma {:induction false} TrimmedTie(s: State, f: Found, gone: set<Id>)
    requires Trimmed(s, f.s, gone)
    ensures Trimmed(s, Tie(f).s, gone) && Tie(f).s.table == f.s.table
  {}
}
