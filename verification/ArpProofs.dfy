/**
 A refresh makes the records agree with the kernel's table.
 */
module ArpProofs {
  import opened Records
  import opened ArpState

  // ---------- the lists share out the records ----------

  ghost predicate Distinct(a: seq<Node>) {
    forall i, j :: 0 <= i < j < |a| ==> a[i].id != a[j].id
  }

  ghost predicate Apart(a: seq<Node>, b: seq<Node>) {
    forall i, j :: 0 <= i < |a| && 0 <= j < |b| ==> a[i].id != b[j].id
  }

  ghost predicate Below(a: seq<Node>, heap: Id) {
    forall i :: 0 <= i < |a| ==> a[i].id < heap
  }

  ghost predicate ListsOk(s: Arps) {
    && Distinct(s.arps) && Distinct(s.gone) && Distinct(s.free)
    && Apart(s.arps, s.gone) && Apart(s.arps, s.free) && Apart(s.gone, s.free)
    && Below(s.arps, s.heap) && Below(s.gone, s.heap) && Below(s.free, s.heap)
    && |s.arps| + |s.gone| + |s.free| == s.heap
  }

  // ---------- what the records say ----------

  // Negative records have no MAC and are alone for their host; no two records
  // say the same.
  ghost predicate Sound(l: seq<Node>) {
    && (forall i :: 0 <= i < |l| ==> if l[i].status == Empty then l[i].entry.mac == [] else 0 < |l[i].entry.mac| <= DHCP_CHADDR_MAX)
    && (forall i, j :: 0 <= i < j < |l| ==> l[i].entry != l[j].entry)
    && (forall i, j :: 0 <= i < j < |l| && SameHost(l[i].entry, l[j].entry) ==> l[i].status != Empty && l[j].status != Empty)
  }

  // The entries with a MAC.
  function Held(l: seq<Node>): set<Entry> {
    set x | x in l && x.status != Empty :: x.entry
  }

  function Live(l: seq<Node>): set<Entry> {
    set x | x in l && (x.status == Found || x.status == New) :: x.entry
  }

  function Known(l: seq<Node>): set<Entry> {
    set x | x in l && (x.status == Found || x.status == Mark) :: x.entry
  }

  function ToSet(k: seq<Entry>): set<Entry> {
    set e | e in k
  }

  // No entry twice, and MACs of 1 to 16 bytes.
  ghost predicate Proper(kernel: seq<Entry>) {
    && (forall i :: 0 <= i < |kernel| ==> 0 < |kernel[i].mac| <= DHCP_CHADDR_MAX)
    && (forall i, j :: 0 <= i < j < |kernel| ==> kernel[i] != kernel[j])
  }

  // ---------- one kernel entry ----------

  lemma {:induction false} SupplyLists(s: Arps, status: Status, e: Entry)
    requires ListsOk(s)
    ensures ListsOk(Prepend(s, status, e, true)) && |Prepend(s, status, e, true).arps| == |s.arps| + 1
    ensures Prepend(s, status, e, true).arps[1..] == s.arps && Prepend(s, status, e, true).gone == s.gone
    ensures Prepend(s, status, e, true).last == s.last
    ensures Prepend(s, status, e, true).arps[0].status == status && Prepend(s, status, e, true).arps[0].entry == e
  {
    var t := Prepend(s, status, e, true);
    assert t.arps == [t.arps[0]] + s.arps;
  }

  // One record is replaced by another with the same id.
  lemma {:induction false} ReplaceLists(s: Arps, k: nat, x: Node)
    requires ListsOk(s) && k < |s.arps| && x.id == s.arps[k].id
    ensures ListsOk(s.(arps := s.arps[k := x]))
  {}

  lemma {:induction false} FilterLists(s: Arps, e: Entry)
    requires ListsOk(s)
    ensures ListsOk(Filter(s, e, true)) && Filter(s, e, true).gone == s.gone && Filter(s, e, true).last == s.last
  {
    SupplyLists(s, New, e);
    var k := FirstTaker(s.arps, e, 0);
    if k < |s.arps| && |e.mac| <= DHCP_CHADDR_MAX {
      var x := s.arps[k];
      ReplaceLists(s, k, if x.status == Empty then Node(x.id, New, e) else x.(status := Found));
    }
  }

  // Seen so far: the live records are the entries reported, and what was known
  // before the refresh is still marked or has been confirmed.
  ghost predicate Seen(l: seq<Node>, told: set<Entry>, before: set<Entry>) {
    Sound(l) && Live(l) == told && Known(l) == before
  }

  lemma {:induction false} ReplacedSets(l: seq<Node>, k: nat, x: Node)
    requires k < |l| && Sound(l)
    ensures var m := l[k := x];
      forall y :: y in m <==> y == x || (y in l && y != l[k])
  {
    var m := l[k := x];
    forall y | y in l && y != l[k] ensures y in m {
      var i :| 0 <= i < |l| && l[i] == y;
      assert m[i] == y;
    }
    forall y | y in m && y != x ensures y in l && y != l[k] {
      var i :| 0 <= i < |m| && m[i] == y;
      assert i != k && l[i].entry != l[k].entry;
    }
    assert m[k] == x;
  }

  lemma {:induction false} FilterFills(l: seq<Node>, e: Entry, k: nat, told: set<Entry>, before: set<Entry>)
    requires Seen(l, told, before) && e !in told && 0 < |e.mac| <= DHCP_CHADDR_MAX
    requires k < |l| && Takes(l[k], e) && l[k].status == Empty
    ensures Seen(l[k := Node(l[k].id, New, e)], told + {e}, before)
  {
    var m := l[k := Node(l[k].id, New, e)];
    ReplacedSets(l, k, m[k]);
    forall i, j | 0 <= i < j < |m|
      ensures m[i].entry != m[j].entry && (SameHost(m[i].entry, m[j].entry) ==> m[i].status != Empty && m[j].status != Empty)
    {
      assert l[i].entry != l[j].entry;
      assert i == k || j == k ==> !SameHost(l[i].entry, l[j].entry);
    }
    assert Live(m) == told + {e} by {
      forall f | f in told ensures f in Live(m) {
        var y :| y in l && (y.status == Found || y.status == New) && y.entry == f;
        assert y in m;
      }
      assert m[k] in m;
    }
    assert Known(m) == before by {
      forall f | f in before ensures f in Known(m) {
        var y :| y in l && (y.status == Found || y.status == Mark) && y.entry == f;
        assert y in m;
      }
    }
  }

  lemma {:induction false} FilterConfirms(l: seq<Node>, e: Entry, k: nat, told: set<Entry>, before: set<Entry>)
    requires Seen(l, told, before) && e !in told && 0 < |e.mac| <= DHCP_CHADDR_MAX
    requires k < |l| && Takes(l[k], e) && l[k].status != Empty
    ensures Seen(l[k := l[k].(status := Found)], told + {e}, before)
  {
    var m := l[k := l[k].(status := Found)];
    assert l[k].entry == e && l[k] in l;
    assert l[k].status == Mark;
    ReplacedSets(l, k, m[k]);
    assert forall i :: 0 <= i < |l| ==> m[i].entry == l[i].entry && (m[i].status == Empty <==> l[i].status == Empty);
    assert Live(m) == told + {e} by {
      forall f | f in told ensures f in Live(m) {
        var y :| y in l && (y.status == Found || y.status == New) && y.entry == f;
        assert y in m;
      }
      assert m[k] in m;
    }
    assert Known(m) == before by {
      forall f | f in before ensures f in Known(m) {
        var y :| y in l && (y.status == Found || y.status == Mark) && y.entry == f;
        assert y == l[k] || y in m;
        assert m[k] in m;
      }
    }
  }

  // No record says what a new kernel entry says.
  lemma {:induction false} NotYet(l: seq<Node>, x: Node, e: Entry, told: set<Entry>, before: set<Entry>)
    requires Seen(l, told, before) && x in l && !Takes(x, e) && e !in told && e.mac != []
    ensures x.entry != e && (SameHost(x.entry, e) ==> x.status != Empty)
  {
    hide Sound;
    assert x.status == Found || x.status == New ==> x.entry in Live(l);
  }

  lemma {:induction false} FilterAdds(l: seq<Node>, e: Entry, m: seq<Node>, told: set<Entry>, before: set<Entry>)
    requires Seen(l, told, before) && e !in told && 0 < |e.mac| <= DHCP_CHADDR_MAX
    requires forall j :: 0 <= j < |l| ==> !Takes(l[j], e)
    requires |m| == |l| + 1 && m[1..] == l && m[0].status == New && m[0].entry == e
    ensures Seen(m, told + {e}, before)
  {
    assert m == [m[0]] + l;
    assert forall y :: y in m <==> y == m[0] || y in l;
    forall i, j | 0 <= i < j < |m|
      ensures m[i].entry != m[j].entry && (SameHost(m[i].entry, m[j].entry) ==> m[i].status != Empty && m[j].status != Empty)
    {
      assert m[j] == l[j - 1] && l[j - 1] in l;
      if i == 0 {
        NotYet(l, l[j - 1], e, told, before);
      } else {
        assert m[i] == l[i - 1];
      }
    }
    assert Live(m) == told + {e} && Known(m) == before;
  }

  lemma {:induction false} FilterSeen(s: Arps, e: Entry, told: set<Entry>, before: set<Entry>)
    requires ListsOk(s) && Seen(s.arps, told, before) && e !in told && 0 < |e.mac| <= DHCP_CHADDR_MAX
    ensures Seen(Filter(s, e, true).arps, told + {e}, before)
  {
    hide Seen, ListsOk;
    var k := FirstTaker(s.arps, e, 0);
    if k == |s.arps| {
      SupplyLists(s, New, e);
      FilterAdds(s.arps, e, Filter(s, e, true).arps, told, before);
    } else if s.arps[k].status == Empty {
      FilterFills(s.arps, e, k, told, before);
    } else {
      FilterConfirms(s.arps, e, k, told, before);
    }
  }

  lemma {:induction false} EnumerateSeen(s: Arps, kernel: seq<Entry>, i: nat, before: set<Entry>)
    requires ListsOk(s) && Proper(kernel) && i <= |kernel| && Seen(s.arps, ToSet(kernel[..i]), before)
    ensures var t := Enumerate(s, kernel, i, {});
      ListsOk(t) && Seen(t.arps, ToSet(kernel), before) && t.gone == s.gone && t.last == s.last
    decreases |kernel| - i
  {
    hide Seen, ListsOk, Filter;
    if i == |kernel| {
      assert kernel[..i] == kernel;
    } else {
      assert kernel[..i + 1] == kernel[..i] + [kernel[i]];
      assert ToSet(kernel[..i + 1]) == ToSet(kernel[..i]) + {kernel[i]};
      assert kernel[i] !in ToSet(kernel[..i]);
      FilterLists(s, kernel[i]);
      FilterSeen(s, kernel[i], ToSet(kernel[..i]), before);
      EnumerateSeen(Filter(s, kernel[i], true), kernel, i + 1, before);
    }
  }

  // ---------- the sweep ----------

  lemma {:induction false} MoveSound(l: seq<Node>, i: nat)
    requires Sound(l) && i < |l|
    ensures var m := l[..i] + l[i + 1..];
      Sound(m) && forall y :: y in m <==> y in l && y != l[i]
  {
    var m := l[..i] + l[i + 1..];
    assert forall j :: 0 <= j < |m| ==> m[j] == l[if j < i then j else j + 1];
    forall y | y in l && y != l[i] ensures y in m {
      var j :| 0 <= j < |l| && l[j] == y;
      assert m[if j < i then j else j - 1] == y;
    }
  }

  lemma {:induction false} MoveOne(s: Arps, i: nat)
    requires ListsOk(s) && Sound(s.arps) && i < |s.arps|
    ensures var t := s.(arps := s.arps[..i] + s.arps[i + 1..], gone := [s.arps[i]] + s.gone);
      && ListsOk(t) && Sound(t.arps)
      && forall y :: y in t.arps <==> y in s.arps && y != s.arps[i]
  {
    hide Sound;
    MoveSound(s.arps, i);
  }

  lemma {:induction false} SweptOne(arps: seq<Node>, i: nat, gone: seq<Node>, arps': seq<Node>, a: seq<Node>, g: seq<Node>)
    requires i < |arps| && arps[i].status == Mark
    requires forall y :: y in arps' <==> y in arps && y != arps[i]
    requires forall y :: y in a <==> y in arps' && y.status != Mark
    requires forall y :: y in g <==> y in [arps[i]] + gone || (y in arps' && y.status == Mark)
    requires |gone| + 1 <= |g| && g[|g| - |gone| - 1..] == [arps[i]] + gone
    ensures forall y :: y in a <==> y in arps && y.status != Mark
    ensures forall y :: y in g <==> y in gone || (y in arps && y.status == Mark)
    ensures g[|g| - |gone|..] == gone
  {
    assert forall y :: y in [arps[i]] + gone <==> y == arps[i] || y in gone;
    assert g[|g| - |gone|..] == g[|g| - |gone| - 1..][1..];
  }

  // The marked records have gone over to the other list.
  ghost predicate Swept(s: Arps, t: Arps) {
    && (forall y :: y in t.arps <==> y in s.arps && y.status != Mark)
    && (forall y :: y in t.gone <==> y in s.gone || (y in s.arps && y.status == Mark))
    && |s.gone| <= |t.gone| && t.gone[|t.gone| - |s.gone|..] == s.gone
  }

  ghost predicate NoMark(l: seq<Node>, i: nat) {
    forall j :: 0 <= j < i && j < |l| ==> l[j].status != Mark
  }

  lemma {:induction false} SweptNone(s: Arps)
    requires NoMark(s.arps, |s.arps|)
    ensures Swept(s, s)
  {
    assert s.gone[0..] == s.gone;
    forall y | y in s.arps ensures y.status != Mark {
      var j :| 0 <= j < |s.arps| && s.arps[j] == y;
    }
  }

  lemma {:induction false} SweptMore(s: Arps, i: nat, t: Arps, v: Arps)
    requires i < |s.arps| && s.arps[i].status == Mark && Swept(t, v)
    requires t.gone == [s.arps[i]] + s.gone && forall y :: y in t.arps <==> y in s.arps && y != s.arps[i]
    ensures Swept(s, v)
  {
    SweptOne(s.arps, i, s.gone, t.arps, v.arps, v.gone);
  }

  lemma {:induction false} SweepMoves(s: Arps, i: nat)
    requires ListsOk(s) && Sound(s.arps) && i <= |s.arps| && NoMark(s.arps, i)
    ensures var t := Sweep(s, i);
      ListsOk(t) && Sound(t.arps) && t.last == s.last && Swept(s, t)
    decreases |s.arps| - i
  {
    hide ListsOk, Sound, Swept;
    if i < |s.arps| && s.arps[i].status == Mark {
      MoveOne(s, i);
      var t := s.(arps := s.arps[..i] + s.arps[i + 1..], gone := [s.arps[i]] + s.gone);
      SweepMoves(t, i);
      SweptMore(s, i, t, Sweep(t, i));
    } else if i < |s.arps| {
      SweepMoves(s, i + 1);
    } else {
      SweptNone(s);
    }
  }

  // ---------- the refresh ----------

  lemma {:induction false} MarkedSound(l: seq<Node>)
    requires Sound(l)
    ensures Sound(Marked(l))
  {
    var m := Marked(l);
    assert forall i :: 0 <= i < |l| ==> m[i].entry == l[i].entry && (m[i].status == Empty <==> l[i].status == Empty);
    hide Marked;
  }

  lemma {:induction false} MarkedKnown(l: seq<Node>)
    ensures Known(Marked(l)) == Held(l)
  {
    var m := Marked(l);
    hide Marked;
    forall f | f in Held(l) ensures f in Known(m) {
      var y :| y in l && y.status != Empty && y.entry == f;
      var i :| 0 <= i < |l| && l[i] == y;
      assert m[i] in m && m[i].entry == f;
    }
    forall f | f in Known(m) ensures f in Held(l) {
      var y :| y in m && (y.status == Found || y.status == Mark) && y.entry == f;
      var i :| 0 <= i < |m| && m[i] == y;
      assert l[i] in l && l[i].entry == f;
    }
  }

  lemma {:induction false} MarkedSeen(l: seq<Node>)
    requires Sound(l)
    ensures Seen(Marked(l), {}, Held(l))
  {
    hide Sound, Known, Held;
    MarkedSound(l);
    MarkedKnown(l);
    NothingLive(l);
  }

  // The entries that left the list in a refresh.
  function Moved(s: Arps, t: Arps): set<Entry>
    requires |s.gone| <= |t.gone|
  {
    set x | x in t.gone[..|t.gone| - |s.gone|] :: x.entry
  }

  ghost predicate Good(s: Arps) {
    ListsOk(s) && Sound(s.arps) && forall x :: x in s.arps ==> x.status != Mark
  }

  // After a refresh the records with a MAC are exactly the kernel's entries,
  // those that it no longer reports have been moved to the other list, and the
  // three lists still hold different records.
  lemma {:induction false} RefreshExact(s: Arps, kernel: seq<Entry>, now: int)
    requires Good(s) && Proper(kernel)
    ensures var t := Refresh(s, kernel, now, {});
      && Good(t) && Held(t.arps) == ToSet(kernel) && t.last == now
      && |s.gone| <= |t.gone| && t.gone[|t.gone| - |s.gone|..] == s.gone
      && Moved(s, t) == Held(s.arps) - ToSet(kernel)
      && (forall x :: x in t.arps && x.status == New ==> x.entry !in Held(s.arps))
      && (forall x :: x in t.arps && x.status == Found ==> x.entry in Held(s.arps))
  {
    hide ListsOk, Proper, Sound, Held, Live, Known, Marked, Enumerate, Sweep, Moved, ToSet, Swept;
    var m := s.(arps := Marked(s.arps), last := now);
    MarkedLists(s, now);
    MarkedSeen(s.arps);
    assert kernel[..0] == [] && ToSet([]) == {} by { NothingTold(); }
    EnumerateSeen(m, kernel, 0, Held(s.arps));
    var e := Enumerate(m, kernel, 0, {});
    SweepMoves(e, 0);
    var t := Refresh(s, kernel, now, {});
    SweptSets(s, e, t, ToSet(kernel), Held(s.arps));
  }

  lemma {:induction false} NothingTold()
    ensures ToSet([]) == {}
  {}

  lemma {:induction false} MarkedLists(s: Arps, now: int)
    requires ListsOk(s)
    ensures ListsOk(s.(arps := Marked(s.arps), last := now))
  {}

  lemma {:induction false} SweptSets(s: Arps, e: Arps, t: Arps, told: set<Entry>, before: set<Entry>)
    requires Seen(e.arps, told, before) && e.gone == s.gone && ListsOk(t)
    requires ListsOk(e) && Swept(e, t)
    ensures |s.gone| <= |t.gone| && t.gone[|t.gone| - |s.gone|..] == s.gone
    ensures Held(t.arps) == told && Moved(s, t) == before - told
    ensures forall x :: x in t.arps && x.status == New ==> x.entry !in before
    ensures forall x :: x in t.arps ==> x.status != Mark
    ensures forall x :: x in t.arps && x.status == Found ==> x.entry in before
  {}

  // ---------- find_mac ----------

  // A negative record is added for a host that has none, if there is a record for it.
  lemma {:induction false} NegativeKeeps(s: Arps, host: Entry, malloc: bool)
    requires Good(s) && forall j :: 0 <= j < |s.arps| ==> !SameHost(s.arps[j].entry, host)
    ensures var e := Entry(host.family, host.addr, []); var t := Prepend(s, Empty, e, malloc);
      && Good(t) && Held(t.arps) == Held(s.arps) && t.last == s.last && t.gone == s.gone
      && if malloc || s.free != [] then t.arps != [] && t.arps[1..] == s.arps && t.arps[0].status == Empty && t.arps[0].entry == e else t == s
  {
    hide ListsOk, Sound, Held;
    var e := Entry(host.family, host.addr, []);
    if malloc || s.free != [] {
      var t := Prepend(s, Empty, e, true);
      assert Prepend(s, Empty, e, malloc) == t;
      SupplyLists(s, Empty, e);
      hide Prepend;
      assert t.arps == [t.arps[0]] + s.arps;
      NegativeSets(s.arps, t.arps[0]);
    }
  }

  lemma {:induction false} NegativeSets(l: seq<Node>, x: Node)
    requires x.status == Empty && x.entry.mac == [] && forall j :: 0 <= j < |l| ==> !SameHost(l[j].entry, x.entry)
    ensures Held([x] + l) == Held(l) && (forall y :: y in [x] + l <==> y == x || y in l)
    ensures Sound(l) ==> Sound([x] + l)
  {
    var m := [x] + l;
    assert forall i :: 0 < i < |m| ==> m[i] == l[i - 1];
    assert forall y :: y in m <==> y == x || y in l;
  }

  lemma {:induction false} EmptyAlone(l: seq<Node>, k: nat, y: Node)
    requires Sound(l) && k < |l| && l[k].status == Empty && y in l && y.status != Empty
    ensures !SameHost(y.entry, l[k].entry)
  {
    var j :| 0 <= j < |l| && l[j] == y;
    assert j < k || k < j;
  }

  // What the first answering record of a list tells about the host.
  lemma {:induction false} AnswerTrue(l: seq<Node>, host: Entry, any: bool)
    requires Sound(l)
    ensures var k := FirstAnswer(l, host, any, 0);
      && (k < |l| && l[k].entry.mac != [] ==> Entry(host.family, host.addr, l[k].entry.mac) in Held(l))
      && (k < |l| && l[k].entry.mac == [] ==> any && forall e :: e in Held(l) ==> !SameHost(e, host))
      && (k == |l| ==> forall e :: e in Held(l) ==> !SameHost(e, host))
      && (k == |l| && any ==> forall j :: 0 <= j < |l| ==> !SameHost(l[j].entry, host))
  {
    var k := FirstAnswer(l, host, any, 0);
    if k < |l| {
      assert l[k] in l;
    }
    if k == |l| || l[k].entry.mac == [] {
      forall e | e in Held(l) ensures !SameHost(e, host) {
        var y :| y in l && y.status != Empty && y.entry == e;
        if k < |l| {
          EmptyAlone(l, k, y);
        }
      }
    }
  }

  // find_mac: an answer is a MAC that the last snapshot gave the host, no answer
  // means that the snapshot had none, the snapshot is less than 90 seconds old,
  // and unless the caller is lazy an answer of none rests on one taken in this very
  // call.
  lemma {:induction false} MacSound(s: Arps, host: Entry, lazy: bool, now: int, kernel: seq<Entry>, malloc: bool)
    requires Good(s) && Proper(kernel)
    ensures var out := FindMac(s, Some(host), lazy, now, kernel, {}, malloc);
      var snapshot := if out.asked == 0 then Held(s.arps) else ToSet(kernel);
      && Good(out.s) && Held(out.s.arps) == snapshot
      && out.asked <= 1 && out.s.last == (if out.asked == 0 then s.last else now) && now - out.s.last < INTERVAL
      && (out.mac != [] ==> Entry(host.family, host.addr, out.mac) in snapshot)
      && (out.mac == [] ==> forall e :: e in snapshot ==> !SameHost(e, host))
      && (out.mac == [] && !lazy ==> out.asked == 1)
  {
    hide Good, Refresh, Prepend, Held, Proper, SameHost;
    SoundOf(s);
    AnswerTrue(s.arps, host, lazy);
    var t := Refresh(s, kernel, now, {});
    RefreshExact(s, kernel, now);
    SoundOf(t);
    AnswerTrue(t.arps, host, true);
    if FirstAnswer(t.arps, host, true, 0) == |t.arps| {
      NegativeKeeps(t, host, malloc);
    }
  }

  lemma {:induction false} SoundOf(s: Arps)
    requires Good(s)
    ensures Sound(s.arps)
  {}

  // ---------- a refresh from any table, in any state ----------

  // The entries that are not ignored for the length of their MAC.
  function Small(kernel: seq<Entry>): set<Entry> {
    set e | e in kernel && |e.mac| <= DHCP_CHADDR_MAX
  }

  lemma {:induction false} ReplacedAt(l: seq<Node>, k: nat, x: Node)
    requires k < |l|
    ensures forall y :: y in l[k := x] ==> y == x || y in l
    ensures forall y :: y in l && y != l[k] ==> y in l[k := x]
    ensures x in l[k := x] && l[k] in l
  {
    assert l[k := x][k] == x;
    forall y | y in l && y != l[k] ensures y in l[k := x] {
      var i :| 0 <= i < |l| && l[i] == y;
      assert l[k := x][i] == y;
    }
  }

  // One kernel entry makes itself live, unless there is neither a record that takes
  // it nor room for a new one; and no record that was known is forgotten.
  lemma {:induction false} FilterAny(s: Arps, e: Entry, malloc: bool)
    ensures var l, m := s.arps, Filter(s, e, malloc).arps;
      && Known(l) <= Known(m) && Live(l) <= Live(m) <= Live(l) + (if |e.mac| <= DHCP_CHADDR_MAX then {e} else {})
      && (|e.mac| <= DHCP_CHADDR_MAX && (malloc || e in Known(l)) ==> e in Live(m))
  {
    var l, k := s.arps, FirstTaker(s.arps, e, 0);
    if |e.mac| <= DHCP_CHADDR_MAX {
      if k < |l| {
        var x := if l[k].status == Empty then Node(l[k].id, New, e) else l[k].(status := Found);
        ReplacedAt(l, k, x);
      } else {
        forall y | y in l && (y.status == Found || y.status == Mark) ensures y.entry != e {
          var i :| 0 <= i < |l| && l[i] == y;
          assert !Takes(l[i], e);
        }
        var t := Prepend(s, New, e, malloc);
        if t != s {
          assert t.arps == [t.arps[0]] + l;
          assert forall y :: y in t.arps <==> y == t.arps[0] || y in l;
        }
      }
    }
  }

  lemma {:induction false} EnumerateAny(s: Arps, kernel: seq<Entry>, i: nat, fails: set<nat>)
    requires i <= |kernel|
    ensures var l, m := s.arps, Enumerate(s, kernel, i, fails).arps;
      && Known(l) <= Known(m) && Live(l) <= Live(m) <= Live(l) + Small(kernel[i..])
      && Known(l) * Small(kernel[i..]) <= Live(m)
      && (fails == {} ==> Small(kernel[i..]) <= Live(m))
    decreases |kernel| - i
  {
    hide Filter, Known, Live;
    if i < |kernel| {
      FilterAny(s, kernel[i], i !in fails);
      EnumerateAny(Filter(s, kernel[i], i !in fails), kernel, i + 1, fails);
      assert kernel[i..] == [kernel[i]] + kernel[i + 1..];
      assert Small(kernel[i..]) == Small(kernel[i + 1..]) + (if |kernel[i].mac| <= DHCP_CHADDR_MAX then {kernel[i]} else {});
    }
  }

  lemma {:induction false} SweepAny(s: Arps, i: nat)
    requires i <= |s.arps| && NoMark(s.arps, i)
    ensures forall y :: y in Sweep(s, i).arps <==> y in s.arps && y.status != Mark
    decreases |s.arps| - i
  {
    if i == |s.arps| {
      forall y | y in s.arps ensures y.status != Mark {
        var j :| 0 <= j < |s.arps| && s.arps[j] == y;
      }
    } else if s.arps[i].status == Mark {
      var t := s.(arps := s.arps[..i] + s.arps[i + 1..], gone := [s.arps[i]] + s.gone);
      SweepAny(t, i);
      forall y | y in s.arps && y.status != Mark ensures y in t.arps {
        var j :| 0 <= j < |s.arps| && s.arps[j] == y;
        assert t.arps[if j < i then j else j - 1] == y;
      }
    } else {
      SweepAny(s, i + 1);
    }
  }

  // Whatever the kernel reports, repeated or not, and whether or not there is room:
  // after a refresh every record with a status that counts is for a reported entry,
  // every reported one that was held is held, and all are if no malloc fails.
  lemma {:induction false} RefreshAny(s: Arps, kernel: seq<Entry>, now: int, fails: set<nat>)
    ensures var l, m := s.arps, Refresh(s, kernel, now, fails).arps;
      && Held(l) * Small(kernel) <= Held(m) <= Small(kernel)
      && (fails == {} ==> Held(m) == Small(kernel))
  {
    hide Marked, Enumerate, Sweep;
    var m := s.(arps := Marked(s.arps), last := now);
    MarkedKnown(s.arps);
    NothingLive(s.arps);
    EnumerateAny(m, kernel, 0, fails);
    assert kernel[0..] == kernel;
    var e := Enumerate(m, kernel, 0, fails);
    SweepAny(e, 0);
    assert Held(Sweep(e, 0).arps) == Live(e.arps);
  }

  lemma {:induction false} NothingLive(l: seq<Node>)
    ensures Live(Marked(l)) == {}
  {
    forall y | y in Marked(l) ensures y.status == Empty || y.status == Mark {
      var i :| 0 <= i < |l| && Marked(l)[i] == y;
    }
  }
}
