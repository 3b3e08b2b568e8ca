/**
 The events given to scripts: replaying them gives the records with a MAC.
 */
module ArpEvents {
  import opened Records
  import opened ArpState
  import opened ArpProofs

  function Replay(log: seq<Event>): set<Entry> {
    if log == [] then {}
    else
      var before, e := Replay(log[..|log| - 1]), log[|log| - 1];
      if e.Added? then before + {e.entry} else before - {e.entry}
  }

  function Entries(l: seq<Node>): set<Entry> {
    set x | x in l :: x.entry
  }

  function Founds(l: seq<Node>): set<Entry> {
    set x | x in l && x.status == Found :: x.entry
  }

  function News(l: seq<Node>): set<Entry> {
    set x | x in l && x.status == New :: x.entry
  }

  // Nothing is left to report.
  ghost predicate Drained(s: Arps) {
    s.gone == [] && forall x :: x in s.arps ==> x.status != New
  }

  // How the log stands to the lists, if `silent` are the entries that have been
  // confirmed without having been reported: all other confirmed ones have been,
  // and what has been reported is confirmed or waits for its end to be.
  ghost predicate Told(s: Arps, log: seq<Event>, silent: set<Entry>) {
    && Good(s) && silent <= Founds(s.arps)
    && Founds(s.arps) - silent <= Replay(log) <= (Founds(s.arps) - silent) + Entries(s.gone)
    && Entries(s.gone) !! Founds(s.arps) - silent
  }

  lemma {:induction false} Snoc(log: seq<Event>, e: Event)
    ensures Replay(log + [e]) == if e.Added? then Replay(log) + {e.entry} else Replay(log) - {e.entry}
  {
    assert (log + [e])[..|log|] == log;
  }

  lemma {:induction false} DrainedTold(s: Arps, log: seq<Event>, silent: set<Entry>)
    requires Told(s, log, silent) && Drained(s)
    ensures Replay(log) == Held(s.arps) - silent && silent <= Held(s.arps)
  {
    hide ListsOk, Sound, Replay;
    assert Entries(s.gone) == {};
    assert Held(s.arps) == Founds(s.arps);
  }

  // ---------- do_arp_script_run ----------

  lemma {:induction false} DeletedGood(s: Arps)
    requires Good(s) && s.gone != []
    ensures Good(ScriptRun(s).0)
  {}

  lemma {:induction false} DeletedTold(s: Arps, log: seq<Event>, silent: set<Entry>)
    requires Told(s, log, silent) && s.gone != []
    ensures Told(ScriptRun(s).0, log + [ScriptRun(s).1.value], silent)
  {
    hide Good, Replay;
    var t, x := ScriptRun(s).0, s.gone[0];
    DeletedGood(s);
    Snoc(log, Deleted(x.entry));
    assert s.gone == [x] + t.gone;
    assert forall y :: y in s.gone <==> y == x || y in t.gone;
    assert Entries(s.gone) == Entries(t.gone) + {x.entry};
  }

  lemma {:induction false} AddedGood(s: Arps, k: nat)
    requires Good(s) && k < |s.arps| && s.arps[k].status == New
    ensures var t := s.(arps := s.arps[k := s.arps[k].(status := Found)]);
      Good(t) && Held(t.arps) == Held(s.arps)
  {
    var l := s.arps;
    var m := l[k := l[k].(status := Found)];
    ReplacedSets(l, k, m[k]);
    ReplaceLists(s, k, m[k]);
    assert forall i :: 0 <= i < |l| ==> m[i].entry == l[i].entry && (m[i].status == Empty <==> l[i].status == Empty);
    forall e | e in Held(l) ensures e in Held(m) {
      var y :| y in l && y.status != Empty && y.entry == e;
      assert y == l[k] || y in m;
      assert m[k] in m;
    }
    forall e | e in Held(m) ensures e in Held(l) {
      var y :| y in m && y.status != Empty && y.entry == e;
      assert l[k] in l;
    }
  }

  lemma {:induction false} AddedTold(s: Arps, log: seq<Event>, silent: set<Entry>)
    requires Told(s, log, silent) && s.gone == [] && ScriptRun(s).1.Some?
    ensures Told(ScriptRun(s).0, log + [ScriptRun(s).1.value], silent)
  {
    hide ListsOk, Replay;
    var k, t := FirstNew(s.arps, 0), ScriptRun(s).0;
    var x, y := s.arps[k], t.arps[k];
    AddedGood(s, k);
    Snoc(log, Added(x.entry));
    ReplacedSets(s.arps, k, y);
    assert x in s.arps && y in t.arps;
    assert Founds(t.arps) == Founds(s.arps) + {x.entry};
    NewNotFound(s.arps, x);
  }

  // A record still to be reported says what no confirmed one says.
  lemma {:induction false} NewNotFound(l: seq<Node>, x: Node)
    requires Sound(l) && x in l && x.status == New
    ensures x.entry !in Founds(l)
  {
    forall y | y in l && y.status == Found ensures y.entry != x.entry {
      var i, j :| 0 <= i < |l| && 0 <= j < |l| && l[i] == x && l[j] == y;
      assert i < j || j < i;
    }
  }

  lemma {:induction false} ScriptTold(s: Arps, log: seq<Event>, silent: set<Entry>)
    requires Told(s, log, silent)
    ensures var (t, e) := ScriptRun(s);
      && Told(t, if e.Some? then log + [e.value] else log, silent)
      && Held(t.arps) == Held(s.arps) && t.last == s.last
      && (e.None? <==> Drained(s))
      && (e.Some? ==> if s.gone != [] then e.value == Deleted(s.gone[0].entry) else e.value.Added? && e.value.entry in News(s.arps))
  {
    hide ListsOk, Sound, Replay, Held, Founds, Entries;
    var (t, e) := ScriptRun(s);
    if s.gone != [] {
      DeletedTold(s, log, silent);
    } else {
      var k := FirstNew(s.arps, 0);
      if e.Some? {
        AddedTold(s, log, silent);
        AddedGood(s, k);
        assert s.arps[k] in s.arps;
      } else {
        forall x | x in s.arps ensures x.status != New {
          var i :| 0 <= i < |s.arps| && s.arps[i] == x;
        }
      }
    }
  }

  // ---------- a refresh, at any time ----------

  // The entries confirmed without a report after a refresh: those still to be
  // reported that it confirms join them, those that vanish leave.
  function Silenced(s: Arps, silent: set<Entry>, told: set<Entry>): set<Entry> {
    (silent + News(s.arps)) * told
  }

  lemma {:induction false} RefreshTold(s: Arps, log: seq<Event>, silent: set<Entry>, kernel: seq<Entry>, now: int)
    requires Told(s, log, silent) && Proper(kernel)
    ensures Told(Refresh(s, kernel, now, {}), log, Silenced(s, silent, ToSet(kernel)))
  {
    hide ListsOk, Replay, Proper, Refresh, Founds, News, Entries, Held, Moved;
    var t := Refresh(s, kernel, now, {});
    RefreshExact(s, kernel, now);
    HeldParts(s);
    NewsApart(s.arps);
    FoundAfter(s, t, ToSet(kernel));
    GoneAfter(s, t);
  }

  lemma {:induction false} HeldParts(s: Arps)
    requires Good(s)
    ensures Held(s.arps) == Founds(s.arps) + News(s.arps)
  {
    hide ListsOk, Sound;
  }

  lemma {:induction false} NewsApart(l: seq<Node>)
    requires Sound(l)
    ensures Founds(l) !! News(l)
  {
    forall x | x in l && x.status == New ensures x.entry !in Founds(l) {
      NewNotFound(l, x);
    }
  }

  lemma {:induction false} FoundAfter(s: Arps, t: Arps, told: set<Entry>)
    requires Good(t) && Held(t.arps) == told
    requires forall x :: x in t.arps && x.status == New ==> x.entry !in Held(s.arps)
    requires forall x :: x in t.arps && x.status == Found ==> x.entry in Held(s.arps)
    ensures Founds(t.arps) == told * Held(s.arps)
  {
    hide ListsOk, Sound;
    forall e | e in told && e in Held(s.arps) ensures e in Founds(t.arps) {
      assert e in Held(t.arps);
      var x :| x in t.arps && x.status != Empty && x.entry == e;
      assert x.status != New;
    }
  }

  lemma {:induction false} GoneAfter(s: Arps, t: Arps)
    requires |s.gone| <= |t.gone| && t.gone[|t.gone| - |s.gone|..] == s.gone
    ensures Entries(t.gone) == Moved(s, t) + Entries(s.gone)
  {
    var n := |t.gone| - |s.gone|;
    assert t.gone == t.gone[..n] + t.gone[n..];
  }

  // ---------- runs ----------

  datatype Op =
    | Ask(host: Option<Entry>, lazy: bool, now: int, kernel: seq<Entry>, malloc: bool)
    | Report

  // `taken` is when the kernel's table was last read, `snapshot` what it held, and
  // `silent` the entries of it that were confirmed while still to be reported.
  datatype World = World(s: Arps, log: seq<Event>, taken: Option<int>, snapshot: set<Entry>, silent: set<Entry>)

  const START := World(Arps([], [], [], 0, 0), [], None, {}, {})

  function Step(w: World, op: Op): World {
    match op
    case Ask(host, lazy, now, kernel, malloc) =>
      var out := FindMac(w.s, host, lazy, now, kernel, {}, malloc);
      if out.asked == 0 then w.(s := out.s)
      else World(out.s, w.log, Some(now), ToSet(kernel), Silenced(w.s, w.silent, ToSet(kernel)))
    case Report =>
      var (t, e) := ScriptRun(w.s);
      w.(s := t, log := if e.Some? then w.log + [e.value] else w.log)
  }

  ghost predicate ProperAsk(op: Op) {
    op.Ask? ==> Proper(op.kernel)
  }

  ghost predicate Fine(w: World) {
    && Told(w.s, w.log, w.silent) && Held(w.s.arps) == w.snapshot
    && w.s.last == (if w.taken.Some? then w.taken.value else 0) && (w.taken.None? ==> w.snapshot == {})
  }

  lemma {:induction false} NegativeTold(s: Arps, log: seq<Event>, silent: set<Entry>, host: Entry, malloc: bool)
    requires Told(s, log, silent) && forall j :: 0 <= j < |s.arps| ==> !SameHost(s.arps[j].entry, host)
    ensures Told(Prepend(s, Empty, Entry(host.family, host.addr, []), malloc), log, silent)
  {
    hide ListsOk, Sound, Replay, Prepend;
    var t := Prepend(s, Empty, Entry(host.family, host.addr, []), malloc);
    NegativeKeeps(s, host, malloc);
    if t != s {
      assert t.arps == [t.arps[0]] + s.arps;
      assert forall y :: y in t.arps <==> y == t.arps[0] || y in s.arps;
      assert Founds(t.arps) == Founds(s.arps);
    }
  }

  lemma {:induction false} StepFine(w: World, op: Op)
    requires Fine(w) && ProperAsk(op)
    ensures Fine(Step(w, op))
  {
    hide Good, Replay, Founds, Entries, News, Held, Refresh, Proper, SameHost, Prepend, Silenced;
    match op
    case Report => ScriptTold(w.s, w.log, w.silent);
    case Ask(host, lazy, now, kernel, malloc) =>
      if FindMac(w.s, host, lazy, now, kernel, {}, malloc).asked != 0 {
        var t := Refresh(w.s, kernel, now, {});
        RefreshTold(w.s, w.log, w.silent, kernel, now);
        RefreshExact(w.s, kernel, now);
        if host.Some? && FirstAnswer(t.arps, host.value, true, 0) == |t.arps| {
          SoundOf(t);
          AnswerTrue(t.arps, host.value, true);
          NegativeTold(t, w.log, Silenced(w.s, w.silent, ToSet(kernel)), host.value, malloc);
          NegativeKeeps(t, host.value, malloc);
        }
      }
  }

  function After(w: World, ops: seq<Op>): World
    decreases |ops|
  {
    if ops == [] then w else After(Step(w, ops[0]), ops[1..])
  }

  lemma {:induction false} RunFine(w: World, ops: seq<Op>)
    requires Fine(w) && forall i :: 0 <= i < |ops| ==> ProperAsk(ops[i])
    ensures Fine(After(w, ops))
    decreases |ops|
  {
    hide Fine, Step;
    if ops != [] {
      assert ProperAsk(ops[0]);
      StepFine(w, ops[0]);
      RunFine(Step(w, ops[0]), ops[1..]);
    }
  }

  lemma {:induction false} StartFine()
    ensures Fine(START)
  {
    assert Replay([]) == {};
    assert Founds([]) == {} && Entries([]) == {} && Held([]) == {};
  }

  // In every run, whenever nothing is left to report: replaying the events gives
  // all records with a MAC but those that a refresh confirmed while they were still
  // to be reported. So it gives all of them if and only if there are none such.
  lemma {:induction false} ReplayExact(ops: seq<Op>)
    requires forall i :: 0 <= i < |ops| ==> ProperAsk(ops[i])
    ensures var w := After(START, ops);
      && Good(w.s) && Held(w.s.arps) == w.snapshot
      && (Drained(w.s) ==>
            && Replay(w.log) == w.snapshot - w.silent && w.silent <= w.snapshot
            && (Replay(w.log) == w.snapshot <==> w.silent == {}))
  {
    hide After, Replay, Good, Held, Founds, Entries;
    StartFine();
    RunFine(START, ops);
    var w := After(START, ops);
    if Drained(w.s) {
      DrainedTold(w.s, w.log, w.silent);
    }
  }

  // ---------- which entries go unreported ----------

  ghost predicate Reads(w: World, op: Op) {
    op.Ask? && FindMac(w.s, op.host, op.lazy, op.now, op.kernel, {}, op.malloc).asked != 0
  }

  // The kernel's table is read and confirms an entry that is still to be reported.
  ghost predicate Confirms(w: World, op: Op, e: Entry) {
    Reads(w, op) && e in News(w.s.arps) && e in ToSet(op.kernel)
  }

  lemma {:induction false} AfterSnoc(w: World, ops: seq<Op>, op: Op)
    ensures After(w, ops + [op]) == Step(After(w, ops), op)
    decreases |ops|
  {
    hide Step;
    if ops == [] {
      assert ops + [op] == [op] && [op][1..] == [];
    } else {
      assert (ops + [op])[0] == ops[0] && (ops + [op])[1..] == ops[1..] + [op];
      AfterSnoc(Step(w, ops[0]), ops[1..], op);
    }
  }

  // Step `k` of a run confirms the entry unreported, and every later reading of
  // the kernel's table finds it.
  ghost predicate Hushed(ops: seq<Op>, k: nat, e: Entry) {
    && k < |ops| && Confirms(After(START, ops[..k]), ops[k], e)
    && forall j :: k < j < |ops| && Reads(After(START, ops[..j]), ops[j]) ==> e in ToSet(ops[j].kernel)
  }

  lemma {:induction false} HushedSnoc(ops: seq<Op>, op: Op, k: nat, e: Entry)
    requires k < |ops|
    ensures Hushed(ops + [op], k, e) <==> Hushed(ops, k, e) && (Reads(After(START, ops), op) ==> e in ToSet(op.kernel))
  {
    hide After, FindMac, Confirms;
    var all := ops + [op];
    assert forall j :: 0 <= j <= |ops| ==> all[..j] == ops[..j];
    assert ops[..|ops|] == ops;
    if Hushed(all, k, e) {
      forall j | k < j < |ops| && Reads(After(START, ops[..j]), ops[j]) ensures e in ToSet(ops[j].kernel) {
        assert all[j] == ops[j];
      }
      assert all[|ops|] == op;
    }
  }

  // An entry is missing from the replay if and only if some reading confirmed it
  // while it was still to be reported and no later one missed it.
  lemma {:induction false} SilentExactly(ops: seq<Op>, e: Entry)
    ensures e in After(START, ops).silent <==> exists k: nat :: Hushed(ops, k, e)
    decreases |ops|
  {
    hide Hushed, FindMac, ScriptRun, News;
    if ops == [] {
      assert forall k: nat :: !Hushed([], k, e) by { NotHushed(e); }
    } else {
      var n := |ops| - 1;
      var init, op := ops[..n], ops[n];
      assert ops == init + [op];
      AfterSnoc(START, init, op);
      SilentExactly(init, e);
      forall k: nat | k < n ensures Hushed(ops, k, e) <==> Hushed(init, k, e) && (Reads(After(START, init), op) ==> e in ToSet(op.kernel)) {
        HushedSnoc(init, op, k, e);
      }
      HushedLast(init, op, e);
      HushedBound(ops, init, e);
    }
  }

  lemma {:induction false} NotHushed(e: Entry)
    ensures forall k: nat :: !Hushed([], k, e)
  {}

  lemma {:induction false} HushedLast(init: seq<Op>, op: Op, e: Entry)
    ensures Hushed(init + [op], |init|, e) <==> Confirms(After(START, init), op, e)
  {
    hide After, Confirms;
    assert (init + [op])[..|init|] == init && (init + [op])[|init|] == op;
  }

  lemma {:induction false} HushedBound(ops: seq<Op>, init: seq<Op>, e: Entry)
    ensures forall k: nat :: (Hushed(ops, k, e) ==> k < |ops|) && (Hushed(init, k, e) ==> k < |init|)
  {
    hide After, Confirms, Reads;
  }

  // So none is missing if the kernel's table is never read while it holds an entry
  // that is still to be reported.
  lemma {:induction false} ReplayPatient(ops: seq<Op>)
    requires forall i :: 0 <= i < |ops| ==> ProperAsk(ops[i])
    requires forall k, e :: 0 <= k < |ops| ==> !Confirms(After(START, ops[..k]), ops[k], e)
    ensures var w := After(START, ops);
      Drained(w.s) ==> Replay(w.log) == w.snapshot
  {
    hide After, Replay, Drained, Confirms, Reads, ProperAsk;
    ReplayExact(ops);
    forall e ensures e !in After(START, ops).silent {
      SilentExactly(ops, e);
      NoneHushed(ops, e);
    }
  }

  lemma {:induction false} NoneHushed(ops: seq<Op>, e: Entry)
    requires forall k :: 0 <= k < |ops| ==> !Confirms(After(START, ops[..k]), ops[k], e)
    ensures forall k: nat :: !Hushed(ops, k, e)
  {
    hide After, Confirms, Reads;
  }

  // Without the wait for reports: a record that is found again before it was
  // reported is never reported.
  lemma {:induction false} UndrainedLoses()
    ensures exists ops: seq<Op> :: var w := After(START, ops);
      (forall i :: 0 <= i < |ops| ==> ProperAsk(ops[i])) && Drained(w.s) && Replay(w.log) != Held(w.s.arps)
  {
    hide Refresh, Drained, Held;
    var e := Entry(Inet, [10, 0, 0, 1], [1]);
    var n := Node(0, New, e);
    var first, second := Ask(None, false, 100, [e], true), Ask(None, false, 200, [e], true);
    var s1, s2 := Arps([n], [], [], 1, 100), Arps([n.(status := Found)], [], [], 1, 200);
    FirstRead(e);
    SecondRead(e);
    assert s2.arps[0] in s2.arps;
    LeftOut(s2, e);
    var w1, w2 := Step(START, first), Step(Step(START, first), second);
    assert w1.s == s1 && w2.s == s2 && w2.log == [];
    assert [first, second][1..] == [second] && [second][1..] == [];
    assert After(START, [first, second]) == After(w1, [second]) == After(w2, []) == w2;
    assert forall i :: 0 <= i < 2 ==> ProperAsk([first, second][i]);
  }

  lemma {:induction false} FirstRead(e: Entry)
    requires 0 < |e.mac| <= DHCP_CHADDR_MAX
    ensures Refresh(START.s, [e], 100, {}) == Arps([Node(0, New, e)], [], [], 1, 100)
  {
    var s1 := Arps([Node(0, New, e)], [], [], 1, 100);
    var m := START.s.(last := 100);
    assert Filter(m, e, true) == s1;
    assert Enumerate(m, [e], 0, {}) == Enumerate(s1, [e], 1, {}) == s1;
    assert Sweep(s1, 0) == Sweep(s1, 1) == s1;
  }

  lemma {:induction false} SecondRead(e: Entry)
    requires 0 < |e.mac| <= DHCP_CHADDR_MAX
    ensures Refresh(Arps([Node(0, New, e)], [], [], 1, 100), [e], 200, {}) == Arps([Node(0, Found, e)], [], [], 1, 200)
  {
    var s2 := Arps([Node(0, Found, e)], [], [], 1, 200);
    var m := Arps([Node(0, Mark, e)], [], [], 1, 200);
    assert Marked([Node(0, New, e)]) == [Node(0, Mark, e)];
    assert Filter(m, e, true) == s2;
    assert Enumerate(m, [e], 0, {}) == Enumerate(s2, [e], 1, {}) == s2;
    assert Sweep(s2, 0) == Sweep(s2, 1) == s2;
  }

  lemma {:induction false} LeftOut(s: Arps, e: Entry)
    requires s.gone == [] && |s.arps| == 1 && s.arps[0].status == Found && s.arps[0].entry == e
    ensures Drained(s) && e in Held(s.arps)
  {
    assert s.arps[0] in s.arps;
  }

  // ---------- find_mac over runs ----------

  // After any run, reported or not: an answer is a MAC that the last snapshot
  // gave the host, and an answer of none means that the snapshot had none. The
  // snapshot is less than 90 seconds old; before there is one, the clock itself is.
  lemma {:induction false} RunMacSound(ops: seq<Op>, host: Entry, lazy: bool, now: int, kernel: seq<Entry>, malloc: bool)
    requires Proper(kernel) && forall i :: 0 <= i < |ops| ==> ProperAsk(ops[i])
    ensures var w := After(START, ops);
      var out := FindMac(w.s, Some(host), lazy, now, kernel, {}, malloc);
      var next := Step(w, Ask(Some(host), lazy, now, kernel, malloc));
      && out.asked <= 1 && next.snapshot == (if out.asked == 0 then w.snapshot else ToSet(kernel))
      && next.taken == (if out.asked == 0 then w.taken else Some(now))
      && now - (if next.taken.Some? then next.taken.value else 0) < INTERVAL
      && (out.mac != [] ==> Entry(host.family, host.addr, out.mac) in next.snapshot)
      && (out.mac == [] ==> forall e :: e in next.snapshot ==> !SameHost(e, host))
      && (out.mac == [] && !lazy ==> next.taken == Some(now) && out.asked == 1)
  {
    hide After, Proper, SameHost, Refresh, Prepend, Replay, Held, Good;
    StartFine();
    RunFine(START, ops);
    MacSound(After(START, ops).s, host, lazy, now, kernel, malloc);
  }
}
