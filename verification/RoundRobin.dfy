/**
 Lists with some elements marked: what moving each later marked element up to
 just before the first one does.
 */
module RoundRobin {
  import opened Records

  function Sel(v: seq<Id>, marked: set<Id>): seq<Id> {
    if v == [] then []
    else if v[|v| - 1] in marked then Sel(v[..|v| - 1], marked) + [v[|v| - 1]]
    else Sel(v[..|v| - 1], marked)
  }

  function Rej(v: seq<Id>, marked: set<Id>): seq<Id> {
    if v == [] then []
    else if v[|v| - 1] in marked then Rej(v[..|v| - 1], marked)
    else Rej(v[..|v| - 1], marked) + [v[|v| - 1]]
  }

  function Put(v: seq<Id>, p: nat, r: Id): seq<Id>
    requires p <= |v|
  {
    v[..p] + [r] + v[p..]
  }

  // The list after the moves, and the place of the first marked element in it.
  function Arrange(v: seq<Id>, marked: set<Id>): (a: (seq<Id>, nat))
    ensures |a.0| == |v| && a.1 <= |v|
  {
    if v == [] then ([], 0)
    else
      var (w, p) := Arrange(v[..|v| - 1], marked);
      var r := v[|v| - 1];
      if r !in marked then (w + [r], p)
      else if Sel(v[..|v| - 1], marked) == [] then (w + [r], |w|)
      else (Put(w, p, r), p + 1)
  }

  function Rotate(m: seq<Id>): seq<Id> {
    if m == [] then [] else m[1..] + [m[0]]
  }

  function Rotations(m: seq<Id>, k: nat): seq<Id> {
    if k == 0 then m else Rotate(Rotations(m, k - 1))
  }

  lemma {:induction false} Snoc(v: seq<Id>, r: Id, marked: set<Id>)
    ensures Sel(v + [r], marked) == Sel(v, marked) + if r in marked then [r] else []
    ensures Rej(v + [r], marked) == Rej(v, marked) + if r in marked then [] else [r]
  {
    assert (v + [r])[..|v|] == v;
  }

  lemma {:induction false} Split(v: seq<Id>, w: seq<Id>, marked: set<Id>)
    ensures Sel(v + w, marked) == Sel(v, marked) + Sel(w, marked)
    ensures Rej(v + w, marked) == Rej(v, marked) + Rej(w, marked)
  {
    if w == [] {
      assert v + w == v;
    } else {
      var w', r := w[..|w| - 1], w[|w| - 1];
      Split(v, w', marked);
      Snoc(w', r, marked);
      Snoc(v + w', r, marked);
      assert w' + [r] == w && v + w' + [r] == v + w;
    }
  }

  lemma {:induction false} PutSplit(v: seq<Id>, p: nat, r: Id, marked: set<Id>)
    requires p <= |v|
    ensures Sel(Put(v, p, r), marked) == Sel(v[..p], marked) + Sel([r], marked) + Sel(v[p..], marked)
    ensures Rej(Put(v, p, r), marked) == Rej(v[..p], marked) + Rej([r], marked) + Rej(v[p..], marked)
    ensures Sel(v, marked) == Sel(v[..p], marked) + Sel(v[p..], marked)
    ensures Rej(v, marked) == Rej(v[..p], marked) + Rej(v[p..], marked)
  {
    Split(v[..p] + [r], v[p..], marked);
    Split(v[..p], [r], marked);
    Split(v[..p], v[p..], marked);
    assert v[..p] + v[p..] == v;
  }

  // The marked elements are turned once around; the others keep their order.
  lemma {:induction false} ArrangeTurns(v: seq<Id>, marked: set<Id>)
    ensures var (a, p) := Arrange(v, marked);
      && Sel(a, marked) == Rotate(Sel(v, marked)) && Rej(a, marked) == Rej(v, marked)
      && (Sel(v, marked) != [] ==> p < |a| && Sel(a[p..], marked) == [Sel(v, marked)[0]])
  {
    if v != [] {
      var v', r := v[..|v| - 1], v[|v| - 1];
      ArrangeTurns(v', marked);
      var (w, p) := Arrange(v', marked);
      assert v == v' + [r];
      Snoc(v', r, marked);
      if r !in marked || Sel(v', marked) == [] {
        Snoc(w, r, marked);
        if r !in marked && Sel(v', marked) != [] {
          Snoc(w[p..], r, marked);
          assert (w + [r])[p..] == w[p..] + [r];
        } else if r in marked {
          assert (w + [r])[|w|..] == [r];
        }
      } else {
        MoveTurns(w, p, r, Sel(v', marked), marked);
      }
    }
  }

  lemma {:induction false} MoveTurns(w: seq<Id>, p: nat, r: Id, m: seq<Id>, marked: set<Id>)
    requires r in marked && m != [] && p < |w|
    requires Sel(w, marked) == Rotate(m) && Sel(w[p..], marked) == [m[0]]
    ensures Sel(Put(w, p, r), marked) == Rotate(m + [r]) && Rej(Put(w, p, r), marked) == Rej(w, marked)
    ensures Put(w, p, r)[p + 1..] == w[p..]
  {
    hide Sel, Rej;
    PutSplit(w, p, r, marked);
    One(r, marked);
    Cancel(Sel(w[..p], marked), m[1..], m[0]);
    assert (m + [r])[1..] == m[1..] + [r];
  }

  lemma {:induction false} One(r: Id, marked: set<Id>)
    requires r in marked
    ensures Sel([r], marked) == [r] && Rej([r], marked) == []
  {}

  lemma {:induction false} Cancel(x: seq<Id>, y: seq<Id>, a: Id)
    requires x + [a] == y + [a]
    ensures x == y
  {
    assert x == (x + [a])[..|x|] && y == (y + [a])[..|y|];
  }

  lemma {:induction false} RotationsAt(m: seq<Id>, k: nat)
    requires k <= |m|
    ensures Rotations(m, k) == m[k..] + m[..k]
  {
    if k > 0 {
      RotationsAt(m, k - 1);
      assert m[k - 1..] + m[..k - 1] == [m[k - 1]] + (m[k..] + m[..k - 1]);
    } else {
      assert m[0..] + m[..0] == m;
    }
  }

  // As many turns as there are elements bring each back to its place.
  lemma {:induction false} FullTurn(m: seq<Id>)
    ensures Rotations(m, |m|) == m
  {
    RotationsAt(m, |m|);
    assert m[|m|..] + m[..|m|] == m;
  }

  lemma {:induction false} SelIn(v: seq<Id>, marked: set<Id>)
    ensures forall r: Id :: r in Sel(v, marked) <==> r in v && r in marked
  {
    if v != [] {
      SelIn(v[..|v| - 1], marked);
      assert v == v[..|v| - 1] + [v[|v| - 1]];
    }
  }

  lemma {:induction false} ArrangeIn(v: seq<Id>, marked: set<Id>)
    ensures forall r: Id :: r in Arrange(v, marked).0 <==> r in v
  {
    if v != [] {
      ArrangeIn(v[..|v| - 1], marked);
      assert v == v[..|v| - 1] + [v[|v| - 1]];
    }
  }

  lemma {:induction false} ArrangeSnoc(v: seq<Id>, r: Id, marked: set<Id>)
    ensures var (w, p) := Arrange(v, marked);
      Arrange(v + [r], marked) ==
        if r !in marked then (w + [r], p) else if Sel(v, marked) == [] then (w + [r], |w|) else (Put(w, p, r), p + 1)
  {
    assert (v + [r])[..|v|] == v;
  }

  lemma {:induction false} ArrangeNone(v: seq<Id>, marked: set<Id>)
    requires Sel(v, marked) == []
    ensures Arrange(v, marked).0 == v
  {
    if v != [] {
      ArrangeNone(v[..|v| - 1], marked);
      assert v == v[..|v| - 1] + [v[|v| - 1]];
    }
  }
}
