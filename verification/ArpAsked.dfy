/**
 When find_mac answers from its own records and when it asks the kernel.
 */
module ArpAsked {
  import opened Records
  import opened ArpState
  import opened ArpProofs
  import opened ArpEvents

  // ---------- negative records ----------

  ghost predicate HasNegative(l: seq<Node>, host: Entry) {
    exists x :: x in l && x.status == Empty && SameHost(x.entry, host)
  }

  // The table has an entry for the host.
  ghost predicate Lists(kernel: set<Entry>, host: Entry) {
    exists e :: e in kernel && SameHost(e, host)
  }

  // A kernel entry takes the place of the negative record for its host, and only of
  // that.
  lemma {:induction false} FilterNegative(s: Arps, e: Entry, host: Entry)
    requires Sound(s.arps) && |e.mac| <= DHCP_CHADDR_MAX
    ensures HasNegative(Filter(s, e, true).arps, host) <==> HasNegative(s.arps, host) && !SameHost(e, host)
  {
    var l, m, k := s.arps, Filter(s, e, true).arps, FirstTaker(s.arps, e, 0);
    if k < |l| {
      ReplacedSets(l, k, m[k]);
    } else {
      assert m == [m[0]] + l;
      assert forall y :: y in m <==> y == m[0] || y in l;
    }
    if HasNegative(l, host) {
      var x :| x in l && x.status == Empty && SameHost(x.entry, host);
      var i :| 0 <= i < |l| && l[i] == x;
      if SameHost(e, host) {
        assert Takes(l[i], e) && k <= i;
        AloneFor(l, i, host);
      } else {
        assert k < |l| ==> l[k] != x;
        assert x in m;
      }
    }
  }

  // A negative record is the only one for its host.
  lemma {:induction false} AloneFor(l: seq<Node>, i: nat, host: Entry)
    requires Sound(l) && i < |l| && l[i].status == Empty && SameHost(l[i].entry, host)
    ensures forall j :: 0 <= j < |l| && SameHost(l[j].entry, host) ==> j == i
  {
    forall j | 0 <= j < |l| && SameHost(l[j].entry, host) ensures j == i {
      assert j < i ==> SameHost(l[j].entry, l[i].entry);
      assert i < j ==> SameHost(l[i].entry, l[j].entry);
    }
  }

  lemma {:induction false} EnumerateNegative(s: Arps, kernel: seq<Entry>, i: nat, before: set<Entry>, host: Entry)
    requires ListsOk(s) && Proper(kernel) && i <= |kernel| && Seen(s.arps, ToSet(kernel[..i]), before)
    ensures HasNegative(Enumerate(s, kernel, i, {}).arps, host) <==> HasNegative(s.arps, host) && forall j :: i <= j < |kernel| ==> !SameHost(kernel[j], host)
    decreases |kernel| - i
  {
    hide Sound, Live, Known, ListsOk, Filter, HasNegative;
    if i < |kernel| {
      assert kernel[..i + 1] == kernel[..i] + [kernel[i]];
      assert ToSet(kernel[..i + 1]) == ToSet(kernel[..i]) + {kernel[i]};
      assert kernel[i] !in ToSet(kernel[..i]);
      FilterNegative(s, kernel[i], host);
      FilterLists(s, kernel[i]);
      FilterSeen(s, kernel[i], ToSet(kernel[..i]), before);
      EnumerateNegative(Filter(s, kernel[i], true), kernel, i + 1, before, host);
    }
  }

  lemma {:induction false} MarkedNegative(l: seq<Node>, host: Entry)
    ensures HasNegative(Marked(l), host) <==> HasNegative(l, host)
  {
    var m := Marked(l);
    hide Marked;
    if HasNegative(l, host) {
      var x :| x in l && x.status == Empty && SameHost(x.entry, host);
      var i :| 0 <= i < |l| && l[i] == x;
      assert m[i] in m;
    }
    if HasNegative(m, host) {
      var x :| x in m && x.status == Empty && SameHost(x.entry, host);
      var i :| 0 <= i < |m| && m[i] == x;
      assert l[i] in l;
    }
  }

  // A refresh keeps the negative records for the hosts that the kernel does not list.
  lemma {:induction false} RefreshNegative(s: Arps, kernel: seq<Entry>, now: int, host: Entry)
    requires Good(s) && Proper(kernel)
    ensures HasNegative(Refresh(s, kernel, now, {}).arps, host) <==> HasNegative(s.arps, host) && !Lists(ToSet(kernel), host)
  {
    hide ListsOk, Proper, Sound, Held, Live, Known, Marked, Enumerate, Sweep, Swept, SameHost;
    var m := s.(arps := Marked(s.arps), last := now);
    MarkedLists(s, now);
    MarkedSeen(s.arps);
    MarkedNegative(s.arps, host);
    assert kernel[..0] == [] && ToSet([]) == {} by { NothingTold(); }
    EnumerateNegative(m, kernel, 0, Held(s.arps), host);
    SweepAny(Enumerate(m, kernel, 0, {}), 0);
    ListsIn(kernel, host);
  }

  lemma {:induction false} ListsIn(kernel: seq<Entry>, host: Entry)
    ensures Lists(ToSet(kernel), host) <==> exists j :: 0 <= j < |kernel| && SameHost(kernel[j], host)
  {
    hide SameHost;
    if Lists(ToSet(kernel), host) {
      var e :| e in ToSet(kernel) && SameHost(e, host);
      var j :| 0 <= j < |kernel| && kernel[j] == e;
    }
  }

  // ---------- one call ----------

  // What decides whether the first look at the records gives an answer.
  lemma {:induction false} FirstLook(l: seq<Node>, host: Entry, any: bool)
    ensures FirstAnswer(l, host, any, 0) < |l| <==> Lists(Held(l), host) || (any && HasNegative(l, host))
  {
    hide SameHost;
    var k := FirstAnswer(l, host, any, 0);
    if k < |l| {
      assert l[k] in l;
    } else {
      forall x | x in l ensures !Answers(x, host, any) {
        var i :| 0 <= i < |l| && l[i] == x;
      }
    }
  }

  // There is a record for a negative answer: a free one, or one from malloc.
  ghost predicate CanRecord(s: Arps, op: Op) {
    op.Ask? && (op.malloc || Refresh(s, op.kernel, op.now, {}).free != [])
  }

  // The call reads the kernel's table, finds no entry for the host there, and can
  // record that.
  ghost predicate Refuses(w: World, op: Op, host: Entry) {
    && Reads(w, op) && op.host.Some? && SameHost(op.host.value, host)
    && !Lists(ToSet(op.kernel), host) && CanRecord(w.s, op)
  }

  lemma {:induction false} PrependNegative(s: Arps, e: Entry, malloc: bool, host: Entry)
    requires Good(s) && forall j :: 0 <= j < |s.arps| ==> !SameHost(s.arps[j].entry, e)
    ensures HasNegative(Prepend(s, Empty, Entry(e.family, e.addr, []), malloc).arps, host) <==>
      HasNegative(s.arps, host) || (SameHost(e, host) && (malloc || s.free != []))
  {
    hide Good, Prepend;
    var t := Prepend(s, Empty, Entry(e.family, e.addr, []), malloc);
    NegativeKeeps(s, e, malloc);
    if malloc || s.free != [] {
      assert t.arps == [t.arps[0]] + s.arps;
      assert forall y :: y in t.arps <==> y == t.arps[0] || y in s.arps;
    }
  }

  lemma {:induction false} ScriptNegative(s: Arps, host: Entry)
    requires Good(s)
    ensures HasNegative(ScriptRun(s).0.arps, host) <==> HasNegative(s.arps, host)
  {
    hide ListsOk, SameHost;
    var k := FirstNew(s.arps, 0);
    if s.gone == [] && k < |s.arps| {
      ReplacedSets(s.arps, k, s.arps[k].(status := Found));
    }
  }

  // A step leaves a negative record for the host if there was one and it has not read
  // a table with an entry for it, or if it refuses.
  lemma {:induction false} StepNegative(w: World, op: Op, host: Entry)
    requires Fine(w) && ProperAsk(op)
    ensures HasNegative(Step(w, op).s.arps, host) <==>
      (HasNegative(w.s.arps, host) && (Reads(w, op) ==> !Lists(ToSet(op.kernel), host))) || Refuses(w, op, host)
  {
    hide Told, Good, HasNegative, Lists, Refresh, Prepend, Proper, SameHost, Held, Replay;
    TellsGood(w);
    if op.Report? {
      ScriptNegative(w.s, host);
    } else if Reads(w, op) {
      RefreshNegative(w.s, op.kernel, op.now, host);
      RefreshExact(w.s, op.kernel, op.now);
      var t := Refresh(w.s, op.kernel, op.now, {});
      if op.host.Some? {
        var h := op.host.value;
        RefreshNegative(w.s, op.kernel, op.now, h);
        SoundOf(t);
        FirstLook(t.arps, h, true);
        SameLists(ToSet(op.kernel), t.arps, h, host);
        if FirstAnswer(t.arps, h, true, 0) == |t.arps| {
          AnswerTrue(t.arps, h, true);
          PrependNegative(t, h, op.malloc, host);
        }
      }
    }
  }

  lemma {:induction false} TellsGood(w: World)
    requires Fine(w)
    ensures Good(w.s)
  {
    hide Good;
  }

  // Hosts that are the same have the same entries.
  lemma {:induction false} SameLists(kernel: set<Entry>, l: seq<Node>, a: Entry, b: Entry)
    ensures SameHost(a, b) ==> (Lists(kernel, a) <==> Lists(kernel, b)) && (HasNegative(l, a) <==> HasNegative(l, b))
  {
    if SameHost(a, b) {
      forall e: Entry ensures SameHost(e, a) <==> SameHost(e, b) {}
    }
  }

  // ---------- over runs ----------

  // Step `k` of a run refuses, and no table read later has an entry for the host.
  ghost predicate Refused(ops: seq<Op>, k: nat, host: Entry) {
    && k < |ops| && Refuses(After(START, ops[..k]), ops[k], host)
    && forall j :: k < j < |ops| && Reads(After(START, ops[..j]), ops[j]) ==> !Lists(ToSet(ops[j].kernel), host)
  }

  lemma {:induction false} RefusedSnoc(ops: seq<Op>, op: Op, k: nat, host: Entry)
    requires k < |ops|
    ensures Refused(ops + [op], k, host) <==> Refused(ops, k, host) && (Reads(After(START, ops), op) ==> !Lists(ToSet(op.kernel), host))
  {
    hide After, FindMac, Refuses, Lists;
    var all := ops + [op];
    assert forall j :: 0 <= j <= |ops| ==> all[..j] == ops[..j];
    assert ops[..|ops|] == ops;
    if Refused(all, k, host) {
      forall j | k < j < |ops| && Reads(After(START, ops[..j]), ops[j]) ensures !Lists(ToSet(ops[j].kernel), host) {
        assert all[j] == ops[j];
      }
      assert all[|ops|] == op;
    }
  }

  lemma {:induction false} RefusedLast(init: seq<Op>, op: Op, host: Entry)
    ensures Refused(init + [op], |init|, host) <==> Refuses(After(START, init), op, host)
  {
    hide After, Refuses, Reads;
    assert (init + [op])[..|init|] == init && (init + [op])[|init|] == op;
  }

  lemma {:induction false} RefusedBound(ops: seq<Op>, host: Entry)
    ensures forall k: nat :: Refused(ops, k, host) ==> k < |ops|
  {
    hide After, Refuses, Reads;
  }

  // There is a negative record for the host if and only if some call was refused for
  // it and no table read since has an entry for it.
  lemma {:induction false} NegativeExactly(ops: seq<Op>, host: Entry)
    requires forall i :: 0 <= i < |ops| ==> ProperAsk(ops[i])
    ensures HasNegative(After(START, ops).s.arps, host) <==> exists k: nat :: Refused(ops, k, host)
    decreases |ops|
  {
    hide Refused, Refuses, FindMac, HasNegative, Step, Fine, Lists, ProperAsk;
    RefusedBound(ops, host);
    if ops == [] {
      NoneAtStart(host);
    } else {
      var n := |ops| - 1;
      var init, op := ops[..n], ops[n];
      assert ops == init + [op];
      AfterSnoc(START, init, op);
      NegativeExactly(init, host);
      StartFine();
      RunFine(START, init);
      StepNegative(After(START, init), op, host);
      forall k: nat | k < n ensures Refused(ops, k, host) <==> Refused(init, k, host) && (Reads(After(START, init), op) ==> !Lists(ToSet(op.kernel), host)) {
        RefusedSnoc(init, op, k, host);
      }
      RefusedLast(init, op, host);
      RefusedBound(init, host);
    }
  }

  lemma {:induction false} NoneAtStart(host: Entry)
    ensures !HasNegative(After(START, []).s.arps, host)
  {}

  // find_mac, after any run, does not ask the kernel if and only if the last snapshot,
  // or the clock before there is one, is less than 90 seconds old and has the host, or
  // the caller is lazy and was refused for it since the last snapshot that had it. Then
  // nothing changes. Without a host, the age alone decides.
  lemma {:induction false} AskedExactly(ops: seq<Op>, host: Option<Entry>, lazy: bool, now: int, kernel: seq<Entry>, malloc: bool)
    requires forall i :: 0 <= i < |ops| ==> ProperAsk(ops[i])
    ensures var w := After(START, ops); var out := FindMac(w.s, host, lazy, now, kernel, {}, malloc);
      && (out.asked == 0 <==>
            && now - (if w.taken.Some? then w.taken.value else 0) < INTERVAL
            && (host.Some? ==> Lists(w.snapshot, host.value) || (lazy && exists k: nat :: Refused(ops, k, host.value))))
      && (out.asked == 0 ==> out.s == w.s)
  {
    hide After, Told, SameHost, Refresh, Prepend, Held, Lists, HasNegative, Refused, FirstAnswer, ProperAsk;
    StartFine();
    RunFine(START, ops);
    if host.Some? {
      FirstLook(After(START, ops).s.arps, host.value, lazy);
      NegativeExactly(ops, host.value);
    }
  }
}
