/**
 Round robin over repeated lookups, and when a lookup finds every live record.
 */
module Fair {
  import opened Names
  import opened Records
  import opened State
  import opened Scans
  import opened Lookup
  import opened Answers
  import opened RoundRobin
  import opened Exact

  // A lookup turns the matches of the first match's group from m1 .. mk into
  // m2 .. mk, m1 and keeps all other entries in their order.
  lemma {:induction false} LookupTurns(s: State, name: Name, now: int, prot: Flags)
    requires Inv(s)
    ensures var b := s.BucketOf(name); var c := s.table[b]; var v := Kept(s, c, |c|, now);
      var d := FindByName(s, name, now, prot, false).s.table[b];
      match Lead(s, v, name, prot)
      case None => d == v
      case Some(g) =>
        var m := Mates(s, c, name, prot, g);
        Sel(d, m) == Rotate(Sel(v, m)) && Rej(d, m) == Rej(v, m)
  {
    hide Bucket, Inv, FindByName, Kept, Lead, Mates, Sel, Rej, Arrange, Trimmed, Gone;
    NameLeaves(s, name, now, prot, false);
    var c := s.table[s.BucketOf(name)];
    var v := Kept(s, c, |c|, now);
    if Lead(s, v, name, prot).Some? {
      ArrangeTurns(v, Mates(s, c, name, prot, Lead(s, v, name, prot).value));
    }
  }

  // ---------- several lookups ----------

  lemma {:induction false} LeadExtends(s: State, v: seq<Id>, w: seq<Id>, name: Name, prot: Flags)
    requires Lead(s, v, name, prot).Some?
    ensures Lead(s, v + w, name, prot) == Lead(s, v, name, prot)
  {
    hide Matches;
    if w == [] {
      assert v + w == v;
    } else {
      LeadExtends(s, v, w[..|w| - 1], name, prot);
      LeadSnoc(s, v + w[..|w| - 1], w[|w| - 1], name, prot);
      assert v + w[..|w| - 1] + [w[|w| - 1]] == v + w;
    }
  }

  // The list leads with group `g`, and so does its first part if that has matches.
  ghost predicate Leads(s: State, w: seq<Id>, p: nat, name: Name, prot: Flags, g: (bool, bool)) {
    && p <= |w| && Lead(s, w, name, prot) == Some(g)
    && (Lead(s, w[..p], name, prot) == None || Lead(s, w[..p], name, prot) == Some(g))
  }

  lemma {:induction false} LeadsOn(s: State, w: seq<Id>, p: nat, r: Id, name: Name, prot: Flags, g: (bool, bool))
    requires Leads(s, w, p, name, prot, g)
    ensures Leads(s, w + [r], p, name, prot, g)
    ensures Matches(s.At(r), name, prot) && Group(s.At(r).flags) == g ==> Leads(s, Put(w, p, r), p + 1, name, prot, g)
  {
    hide Matches, Lead;
    LeadExtends(s, w, [r], name, prot);
    assert (w + [r])[..p] == w[..p];
    if Matches(s.At(r), name, prot) && Group(s.At(r).flags) == g {
      LeadSnoc(s, w[..p], r, name, prot);
      LeadExtends(s, w[..p] + [r], w[p..], name, prot);
      assert Put(w, p, r)[..p + 1] == w[..p] + [r];
    }
  }

  // Moving matches up does not change which group comes first.
  lemma {:induction false} LeadStays(s: State, c: seq<Id>, v: seq<Id>, name: Name, prot: Flags, g: (bool, bool))
    requires Lead(s, v, name, prot) == Some(g) && forall r: Id :: r in v ==> r in c
    ensures var (w, p) := Arrange(v, Mates(s, c, name, prot, g)); Leads(s, w, p, name, prot, g)
    ensures Sel(v, Mates(s, c, name, prot, g)) != []
  {
    assert v != [];
    hide Matches, Lead, Arrange, Sel, Leads;
    var m := Mates(s, c, name, prot, g);
    var v', r := v[..|v| - 1], v[|v| - 1];
    assert v == v' + [r] && r in v;
    LeadSnoc(s, v', r, name, prot);
    ArrangeSnoc(v', r, m);
    Snoc(v', r, m);
    var (w, p) := Arrange(v', m);
    if Lead(s, v', name, prot).None? {
      NotMarked(s, c, v', name, prot, g);
      ArrangeNone(v', m);
      FirstLeads(s, v', r, name, prot, g);
    } else {
      assert forall x: Id :: x in v' ==> x in v;
      LeadStays(s, c, v', name, prot, g);
      LeadsOn(s, w, p, r, name, prot, g);
    }
  }

  lemma {:induction false} FirstLeads(s: State, v: seq<Id>, r: Id, name: Name, prot: Flags, g: (bool, bool))
    requires Lead(s, v, name, prot).None? && Lead(s, v + [r], name, prot) == Some(g)
    ensures Leads(s, v + [r], |v|, name, prot, g)
  {
    hide Lead;
    assert (v + [r])[..|v|] == v;
  }

  lemma {:induction false} KeptIn(s: State, c: seq<Id>, i: nat, now: int, j: nat)
    requires NoDup(c) && i <= |c| && j < |c|
    ensures c[j] in Kept(s, c, i, now) <==> j < i && !Doomed(s, c[j], Gone(s, c, j, now), now)
    ensures c[j] in Gone(s, c, i, now) <==> j < i && Doomed(s, c[j], Gone(s, c, j, now), now)
  {
    hide Doomed;
    if i > 0 {
      KeptIn(s, c, i - 1, now, j);
    }
  }

  // The lookup removes none of the given entries.
  ghost predicate Stay(s: State, name: Name, now: int, m: set<Id>) {
    var c := s.table[s.BucketOf(name)];
    forall r: Id :: r in m ==> r in Kept(s, c, |c|, now)
  }

  lemma {:induction false} NoneLeads(s: State, v: seq<Id>, name: Name, prot: Flags)
    requires forall r: Id :: r in v ==> !Matches(s.At(r), name, prot)
    ensures Lead(s, v, name, prot) == None
  {
    hide Matches;
    if v != [] {
      NoneLeads(s, v[..|v| - 1], name, prot);
      assert v[|v| - 1] in v;
    }
  }

  // If all matches of the leading group stay, they stay in order and lead.
  lemma {:induction false} KeptMates(s: State, c: seq<Id>, i: nat, now: int, name: Name, prot: Flags, g: (bool, bool))
    requires NoDup(c) && i <= |c| && forall r: Id :: r in Mates(s, c, name, prot, g) ==> r in Kept(s, c, |c|, now)
    ensures Sel(Kept(s, c, i, now), Mates(s, c, name, prot, g)) == Sel(c[..i], Mates(s, c, name, prot, g))
    ensures Lead(s, c[..i], name, prot) == Some(g) ==> Lead(s, Kept(s, c, i, now), name, prot) == Some(g)
  {
    hide Matches, Doomed, Gone;
    if i > 0 {
      var r, m, v := c[i - 1], Mates(s, c, name, prot, g), Kept(s, c, i - 1, now);
      KeptMates(s, c, i - 1, now, name, prot, g);
      assert c[..i] == c[..i - 1] + [r] && r in c;
      KeptIn(s, c, |c|, now, i - 1);
      Snoc(v, r, m);
      Snoc(c[..i - 1], r, m);
      LeadSnoc(s, v, r, name, prot);
      LeadSnoc(s, c[..i - 1], r, name, prot);
      if Lead(s, c[..i - 1], name, prot).None? {
        NoLead(s, c[..i - 1], name, prot);
        KeptOf(s, c, i - 1, now);
        NoneLeads(s, v, name, prot);
      }
    }
  }

  lemma {:induction false} KeptOf(s: State, c: seq<Id>, i: nat, now: int)
    requires i <= |c|
    ensures forall r: Id :: r in Kept(s, c, i, now) ==> r in c[..i]
  {
    hide Doomed, Gone;
    if i > 0 {
      KeptOf(s, c, i - 1, now);
      assert c[..i] == c[..i - 1] + [c[i - 1]];
    }
  }

  lemma {:induction false} SameLead(s: State, t: State, v: seq<Id>, name: Name, prot: Flags)
    requires forall r: Id :: r in v ==> Get(t.recs, r) == Get(s.recs, r)
    ensures Lead(t, v, name, prot) == Lead(s, v, name, prot)
  {
    hide Matches;
    if v != [] {
      SameLead(s, t, v[..|v| - 1], name, prot);
      assert v[|v| - 1] in v;
    }
  }

  // Entries that are kept have not been freed.
  lemma {:induction false} KeptSame(s: State, t: State, c: seq<Id>, now: int)
    requires NoDup(c) && Trimmed(s, t, Gone(s, c, |c|, now))
    ensures forall r: Id :: r in Kept(s, c, |c|, now) ==> r in c && Get(t.recs, r) == Get(s.recs, r)
  {
    hide Doomed;
    KeptOf(s, c, |c|, now);
    forall r: Id | r in Kept(s, c, |c|, now) ensures r in c && r !in Gone(s, c, |c|, now) {
      assert r in c[..|c|];
      var j :| 0 <= j < |c| && c[j] == r;
      KeptIn(s, c, |c|, now, j);
    }
  }

  // One lookup that removes no match of the leading group turns them, whatever
  // else it removes.
  lemma {:induction false} Turn(s: State, name: Name, now: int, prot: Flags, g: (bool, bool), m: set<Id>)
    requires Inv(s) && Lead(s, s.table[s.BucketOf(name)], name, prot) == Some(g)
    requires m == Mates(s, s.table[s.BucketOf(name)], name, prot, g) && Stay(s, name, now, m)
    ensures var b := s.BucketOf(name); var t := FindByName(s, name, now, prot, false).s;
      && Inv(t) && t.BucketOf(name) == b && |t.table| == |s.table| && Lead(t, t.table[b], name, prot) == Some(g)
      && Mates(t, t.table[b], name, prot, g) == m && Sel(t.table[b], m) == Rotate(Sel(s.table[b], m))
      && forall r: Id :: r in m ==> Get(t.recs, r) == Get(s.recs, r)
  {
    hide Bucket, Inv, FindByName, Kept, Gone, Sel, Rej, Arrange, Matches, Lead, Shrinks, Trimmed;
    var b := s.BucketOf(name);
    var c := s.table[b];
    var v := Kept(s, c, |c|, now);
    var t := FindByName(s, name, now, prot, false).s;
    var out := NameLookup(s, name, now, prot, false);
    ShrinksShape(s, t);
    ChainNoDup(s, b);
    assert c[..|c|] == c;
    NameLeaves(s, name, now, prot, false);
    KeptMates(s, c, |c|, now, name, prot, g);
    KeptSame(s, t, c, now);
    assert t.table[b] == Arrange(v, m).0;
    ArrangeTurns(v, m);
    ArrangeIn(v, m);
    LeadStays(s, c, v, name, prot, g);
    SameLead(s, t, t.table[b], name, prot);
  }

  // Lookups at the given times, one after the other.
  function Looks(s: State, name: Name, times: seq<int>, prot: Flags): (t: State)
    ensures |t.table| == |s.table| && t.mix == s.mix
  {
    if times == [] then s
    else FindByName(Looks(s, name, times[..|times| - 1], prot), name, times[|times| - 1], prot, false).s
  }

  // None of the lookups removes any of the given entries.
  ghost predicate Lasting(s: State, name: Name, times: seq<int>, prot: Flags, m: set<Id>) {
    forall k :: 0 <= k < |times| ==> Stay(Looks(s, name, times[..k], prot), name, times[k], m)
  }

  lemma {:induction false} LastingPrefix(s: State, name: Name, times: seq<int>, prot: Flags, m: set<Id>, n: nat)
    requires Lasting(s, name, times, prot, m) && n <= |times|
    ensures Lasting(s, name, times[..n], prot, m)
  {
    hide Stay, Looks;
    forall k | 0 <= k < n ensures Stay(Looks(s, name, times[..n][..k], prot), name, times[..n][k], m) {
      assert times[..n][..k] == times[..k];
    }
  }

  lemma {:induction false} ManyTurns(s: State, name: Name, times: seq<int>, prot: Flags, g: (bool, bool), m: set<Id>)
    requires Inv(s) && Lead(s, s.table[s.BucketOf(name)], name, prot) == Some(g)
    requires m == Mates(s, s.table[s.BucketOf(name)], name, prot, g) && Lasting(s, name, times, prot, m)
    ensures var b := s.BucketOf(name); var t := Looks(s, name, times, prot);
      && Inv(t) && t.BucketOf(name) == b && Lead(t, t.table[b], name, prot) == Some(g)
      && Mates(t, t.table[b], name, prot, g) == m && Sel(t.table[b], m) == Rotations(Sel(s.table[b], m), |times|)
      && forall r: Id :: r in m ==> Get(t.recs, r) == Get(s.recs, r)
    decreases |times|
  {
    hide Bucket, Inv, FindByName, Sel, Matches, Lead, Mates, Stay;
    if times != [] {
      var n := |times| - 1;
      LastingPrefix(s, name, times, prot, m, n);
      ManyTurns(s, name, times[..n], prot, g, m);
      assert Stay(Looks(s, name, times[..n], prot), name, times[n], m);
      Turn(Looks(s, name, times[..n], prot), name, times[n], prot, g, m);
    }
  }

  // As many lookups as there are matches in the leading group put these back in
  // order, whatever else comes to an end meanwhile.
  lemma {:induction false} FullRound(s: State, name: Name, times: seq<int>, prot: Flags, g: (bool, bool), m: set<Id>)
    requires Inv(s) && Lead(s, s.table[s.BucketOf(name)], name, prot) == Some(g)
    requires m == Mates(s, s.table[s.BucketOf(name)], name, prot, g) && Lasting(s, name, times, prot, m)
    requires |times| == |Sel(s.table[s.BucketOf(name)], m)|
    ensures Sel(Looks(s, name, times, prot).table[s.BucketOf(name)], m) == Sel(s.table[s.BucketOf(name)], m)
  {
    hide Bucket, Inv, FindByName, Sel, Rej, Matches, Lead, Mates, Looks, Lasting;
    ManyTurns(s, name, times, prot, g, m);
    FullTurn(Sel(s.table[s.BucketOf(name)], m));
  }

  // Records that are no CNAMEs last until they expire.
  lemma {:induction false} AddressesLast(s: State, name: Name, times: seq<int>, prot: Flags, g: (bool, bool), m: set<Id>)
    requires Inv(s) && Lead(s, s.table[s.BucketOf(name)], name, prot) == Some(g)
    requires m == Mates(s, s.table[s.BucketOf(name)], name, prot, g)
    requires forall r: Id :: r in m ==> F_CNAME !in Get(s.recs, r).flags
    requires forall r: Id, k :: r in m && 0 <= k < |times| ==> !Expired(times[k], Get(s.recs, r))
    ensures Lasting(s, name, times, prot, m)
    decreases |times|
  {
    hide Bucket, Inv, Matches, Lead, Mates, Stay, Looks, Expired;
    if times != [] {
      var n := |times| - 1;
      AddressesLast(s, name, times[..n], prot, g, m);
      ManyTurns(s, name, times[..n], prot, g, m);
      AddressStays(Looks(s, name, times[..n], prot), name, times[n], prot, g, m);
      forall k | 0 <= k < |times| ensures Stay(Looks(s, name, times[..k], prot), name, times[k], m) {
        assert k < n ==> times[..n][..k] == times[..k] && times[..n][k] == times[k];
      }
    }
  }

  lemma {:induction false} AddressStays(s: State, name: Name, now: int, prot: Flags, g: (bool, bool), m: set<Id>)
    requires Inv(s) && m == Mates(s, s.table[s.BucketOf(name)], name, prot, g)
    requires forall r: Id :: r in m ==> F_CNAME !in Get(s.recs, r).flags && !Expired(now, Get(s.recs, r))
    ensures Stay(s, name, now, m)
  {
    hide Bucket, Inv, Matches, Expired, Gone, Kept;
    var c := s.table[s.BucketOf(name)];
    ChainNoDup(s, s.BucketOf(name));
    forall r: Id | r in m ensures r in Kept(s, c, |c|, now) {
      var j :| 0 <= j < |c| && c[j] == r;
      KeptIn(s, c, |c|, now, j);
    }
  }

  // ---------- which live records are found ----------

  // A record that a plain search of the table would give.
  ghost predicate Wanted(s: State, r: Id, name: Name, now: int, prot: Flags) {
    s.Hashed(r) && Matches(s.At(r), name, prot) && !Expired(now, s.At(r)) && !s.Outdated(r)
  }

  ghost predicate Given(s: State, r: Id, name: Name, now: int, prot: Flags, noRR: bool) {
    var t := FindByName(s, name, now, prot, noRR).s;
    t.Hashed(r) && Matches(t.At(r), name, prot)
  }

  // ---------- CNAMEs that fail for what is before them ----------

  // Entry `j` is a CNAME for entry `i`, a pool record before it in the chain.
  predicate PointsBack(s: State, c: seq<Id>, j: nat, i: nat) {
    && i < j < |c| && F_CNAME in s.At(c[j]).flags
    && var d := s.At(c[j]).data; d.CnameRec? && d.rec == Some(c[i]) && c[i] < s.n
  }

  predicate Fails(s: State, r: Id, now: int) {
    Expired(now, s.At(r)) || s.Outdated(r)
  }

  // A path of such links that ends at an expired or dangling entry.
  ghost predicate Trail(s: State, c: seq<Id>, p: seq<nat>, now: int) {
    && p != [] && (forall k :: 0 <= k < |p| ==> p[k] < |c|)
    && (forall k :: 0 <= k < |p| - 1 ==> PointsBack(s, c, p[k], p[k + 1]))
    && Fails(s, c[p[|p| - 1]], now)
  }

  ghost predicate Undermined(s: State, c: seq<Id>, j: nat, now: int) {
    exists p: seq<nat> :: p != [] && p[0] == j && Trail(s, c, p, now)
  }

  lemma {:induction false} TrailOn(s: State, c: seq<Id>, p: seq<nat>, now: int, j: nat)
    requires Trail(s, c, p, now) && PointsBack(s, c, j, p[0])
    ensures Trail(s, c, [j] + p, now)
  {
    hide Fails, PointsBack;
    var q := [j] + p;
    assert q[|q| - 1] == p[|p| - 1];
    assert j < |c| by {
      PointsIn(s, c, j, p[0]);
    }
    forall k | 0 <= k < |q| - 1 ensures PointsBack(s, c, q[k], q[k + 1]) {
      assert q[k + 1] == p[k] && (k > 0 ==> q[k] == p[k - 1]);
    }
  }

  lemma {:induction false} PointsIn(s: State, c: seq<Id>, j: nat, i: nat)
    requires PointsBack(s, c, j, i)
    ensures i < j < |c|
  {}

  lemma {:induction false} TrailRest(s: State, c: seq<Id>, p: seq<nat>, now: int)
    requires Trail(s, c, p, now) && |p| > 1
    ensures PointsBack(s, c, p[0], p[1]) && Trail(s, c, p[1..], now)
  {
    hide Fails, PointsBack;
    forall k | 0 <= k < |p[1..]| - 1 ensures PointsBack(s, c, p[1..][k], p[1..][k + 1]) {
      assert p[1..][k] == p[k + 1] && p[1..][k + 1] == p[k + 2];
    }
  }

  // An entry goes if and only if such a path starts at it.
  lemma {:induction false} DoomedExactly(s: State, c: seq<Id>, j: nat, now: int)
    requires NoDup(c) && j < |c|
    ensures Doomed(s, c[j], Gone(s, c, j, now), now) <==> Undermined(s, c, j, now)
    decreases j
  {
    hide Gone, Trail, State.Outdated, Expired;
    if Fails(s, c[j], now) {
      ShortTrail(s, c, j, now);
    } else {
      if Doomed(s, c[j], Gone(s, c, j, now), now) {
        var r := s.At(c[j]).data.rec.value;
        assert r in c[..j];
        var i :| 0 <= i < j && c[i] == r;
        KeptIn(s, c, j, now, i);
        DoomedExactly(s, c, i, now);
        var p: seq<nat> :| p != [] && p[0] == i && Trail(s, c, p, now);
        TrailOn(s, c, p, now, j);
        assert ([j] + p)[0] == j;
      }
      if Undermined(s, c, j, now) {
        var p: seq<nat> :| p != [] && p[0] == j && Trail(s, c, p, now);
        LongTrail(s, c, p, now);
        TrailRest(s, c, p, now);
        assert p[1..][0] == p[1];
        DoomedExactly(s, c, p[1], now);
        KeptIn(s, c, j, now, p[1]);
      }
    }
  }

  lemma {:induction false} ShortTrail(s: State, c: seq<Id>, j: nat, now: int)
    requires j < |c| && Fails(s, c[j], now)
    ensures Undermined(s, c, j, now)
  {
    hide Fails;
    assert Trail(s, c, [j], now) && [j][0] == j;
  }

  lemma {:induction false} LongTrail(s: State, c: seq<Id>, p: seq<nat>, now: int)
    requires Trail(s, c, p, now)
    ensures p != [] && p[0] < |c| && (Fails(s, c[p[0]], now) || |p| > 1)
  {}

  // No wanted entry starts such a path.
  ghost predicate Undisturbed(s: State, name: Name, now: int, prot: Flags) {
    var c := s.table[s.BucketOf(name)];
    forall j :: 0 <= j < |c| && Wanted(s, c[j], name, now, prot) ==> !Undermined(s, c, j, now)
  }

  // What the lookup gives, told from the state before it.
  lemma {:induction false} GivenUnlessGone(s: State, name: Name, now: int, prot: Flags, noRR: bool, r: Id)
    requires Inv(s)
    ensures Given(s, r, name, now, prot, noRR) ==> Wanted(s, r, name, now, prot)
    ensures var c := s.table[s.BucketOf(name)];
      forall i :: 0 <= i < |c| && c[i] == r && Wanted(s, r, name, now, prot) ==>
        (Given(s, r, name, now, prot, noRR) <==> !Bereft(s, r, Gone(s, c, i, now)))
  {
    hide Bucket, Inv, FindByName, Matches, Shrinks, Arrange, Lead, Mates, Bereft;
    var b := s.BucketOf(name);
    var c := s.table[b];
    var t := FindByName(s, name, now, prot, noRR).s;
    var v := Kept(s, c, |c|, now);
    ChainNoDup(s, b);
    var out := NameLookup(s, name, now, prot, noRR);
    ShrinksShape(s, t);
    NameLeaves(s, name, now, prot, noRR);
    HomeOfMatch(s, r, name, prot);
    HomeOfMatch(t, r, name, prot);
    KeptOf(s, c, |c|, now);
    assert c[..|c|] == c;
    ArrangedIn(s, c, v, name, prot, noRR);
    assert r in t.table[b] <==> r in v;
    forall i | 0 <= i < |c| && c[i] == r
      ensures Given(s, r, name, now, prot, noRR) <==>
        Matches(s.At(r), name, prot) && !Doomed(s, r, Gone(s, c, i, now), now)
    {
      KeptIn(s, c, |c|, now, i);
      if r in v {
        assert Get(t.recs, r) == Get(s.recs, r);
      }
    }
    if Given(s, r, name, now, prot, noRR) {
      assert r in c;
    }
  }

  lemma {:induction false} ArrangedIn(s: State, c: seq<Id>, v: seq<Id>, name: Name, prot: Flags, noRR: bool)
    ensures forall r: Id :: r in Arranged(s, c, v, name, prot, noRR) <==> r in v
  {
    hide Arrange, Lead, Mates;
    var g := Lead(s, v, name, prot);
    if g.Some? {
      ArrangeIn(v, Mates(s, c, name, prot, g.value));
    }
  }

  // A lookup gives only records that a plain search would give, and such a record
  // if and only if no path of links leads from it to an earlier one that fails.
  lemma {:induction false} GivenExactly(s: State, name: Name, now: int, prot: Flags, noRR: bool, r: Id)
    requires Inv(s)
    ensures Given(s, r, name, now, prot, noRR) ==> Wanted(s, r, name, now, prot)
    ensures var c := s.table[s.BucketOf(name)];
      forall j :: 0 <= j < |c| && c[j] == r && Wanted(s, r, name, now, prot) ==>
        (Given(s, r, name, now, prot, noRR) <==> !Undermined(s, c, j, now))
  {
    hide Bucket, Inv, Gone, Given, Bereft, Undermined, Expired, Matches, State.Outdated;
    var c := s.table[s.BucketOf(name)];
    ChainNoDup(s, s.BucketOf(name));
    GivenUnlessGone(s, name, now, prot, noRR, r);
    forall j | 0 <= j < |c| && c[j] == r && Wanted(s, r, name, now, prot)
      ensures Given(s, r, name, now, prot, noRR) <==> !Undermined(s, c, j, now)
    {
      DoomedExactly(s, c, j, now);
    }
  }

  // A lookup gives exactly the live, undangling records of the name if and only
  // if none of them starts a path of links to an earlier entry that fails.
  lemma {:induction false} AllLiveFound(s: State, name: Name, now: int, prot: Flags, noRR: bool)
    requires Inv(s)
    ensures (forall r: Id :: Given(s, r, name, now, prot, noRR) <==> Wanted(s, r, name, now, prot))
      <==> Undisturbed(s, name, now, prot)
  {
    hide Bucket, Inv, Given, Undermined;
    var c := s.table[s.BucketOf(name)];
    forall r: Id
      ensures Given(s, r, name, now, prot, noRR) ==> Wanted(s, r, name, now, prot)
      ensures Wanted(s, r, name, now, prot) ==> r in c
      ensures forall j :: 0 <= j < |c| && c[j] == r && Wanted(s, r, name, now, prot) ==>
        (Given(s, r, name, now, prot, noRR) <==> !Undermined(s, c, j, now))
    {
      GivenExactly(s, name, now, prot, noRR, r);
      HomeOfMatch(s, r, name, prot);
    }
    if forall r: Id :: Given(s, r, name, now, prot, noRR) <==> Wanted(s, r, name, now, prot) {
      forall j | 0 <= j < |c| && Wanted(s, c[j], name, now, prot) ensures !Undermined(s, c, j, now) {
        assert Given(s, c[j], name, now, prot, noRR);
      }
    }
  }
}
