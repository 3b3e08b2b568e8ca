/**
 cache_find_by_name and cache_find_by_addr on the state. The first call gathers
 the answers: static ones are threaded through `next`, those from the pool are
 moved to the head of the LRU list, and the thread is tied to that head.
 */
module Lookup {
  import opened Names
  import opened Records
  import opened State

  // Where the gathering loop is: its position `u` in the chain, the place
  // `insert` to which later entries of the same group move up, and the ends of
  // the thread of static answers (`chainp` points at the `next` of `last`).
  datatype Cursor = Cursor(u: nat, insert: Option<nat>, group: (bool, bool), first: Option<Id>, last: Option<Id>)

  const START := Cursor(0, None, (false, false), None, None)

  datatype Found = Found(s: State, k: Cursor)

  function Group(f: Flags): (bool, bool) {
    (F_REVERSE in f, F_IMMORTAL in f)
  }

  predicate Matches(x: Rec, name: Name, prot: Flags) {
    F_FORWARD in x.flags && Meets(x.flags, prot) && SameName(x.name, name)
  }

  predicate MatchesAddr(x: Rec, addr: Data, prot: Flags) {
    F_REVERSE in x.flags && Meets(x.flags, prot) && SameAddr(x.data, addr, prot == {F_IPV6})
  }

  // A static answer joins the thread, a pool record moves to the LRU head.
  function Gather(s: State, r: Id, k: Cursor): (out: Found)
    ensures out.s.table == s.table && out.s.n == s.n && out.s.mix == s.mix
    ensures out.k == k.(first := out.k.first, last := out.k.last)
  {
    if Static(s.At(r).flags) then
      Found(if k.last.None? then s else s.(next := s.next[k.last.value := Some(r)]),
            k.(first := if k.last.None? then Some(r) else k.first, last := Some(r)))
    else Found(Link(Unlink(s, r), r), k)
  }

  function MoveUp(c: seq<Id>, u: nat, k: nat): seq<Id>
    requires k <= u < |c|
  {
    c[..k] + [c[u]] + c[k..u] + c[u + 1..]
  }

  // Round robin: the chain after entry `u` was found to match.
  function Promote(s: State, b: nat, k: Cursor, noRR: bool): (out: Found)
    requires b < |s.table| && k.u < |s.table[b]| && (k.insert.Some? ==> k.insert.value <= k.u)
    ensures |out.s.table| == |s.table| && out.s == SetChain(s, b, out.s.table[b]) && |out.s.table[b]| == |s.table[b]|
    ensures out.k == k.(u := k.u + 1, insert := out.k.insert, group := out.k.group)
    ensures out.k.insert.Some? ==> out.k.insert.value <= out.k.u
  {
    var group := Group(s.At(s.table[b][k.u]).flags);
    if k.insert.Some? && group == k.group then
      Found(SetChain(s, b, MoveUp(s.table[b], k.u, k.insert.value)),
            k.(u := k.u + 1, insert := Some(k.insert.value + 1)))
    else if k.insert.None? && !noRR then
      Found(s, k.(u := k.u + 1, insert := Some(k.u), group := group))
    else Found(s, k.(u := k.u + 1))
  }

  function Sweep(s: State, b: nat, name: Name, now: int, prot: Flags, noRR: bool, k: Cursor): (out: Found)
    requires b < |s.table| && k.u <= |s.table[b]| && (k.insert.Some? ==> k.insert.value <= k.u)
    ensures |out.s.table| == |s.table| && out.s.n == s.n && out.s.mix == s.mix
    decreases |s.table[b]| - k.u
  {
    if k.u == |s.table[b]| then Found(s, k)
    else
      var r := s.table[b][k.u];
      if Expired(now, s.At(r)) || s.Outdated(r) then
        Sweep(Evict(s, b, k.u), b, name, now, prot, noRR, k)
      else if Matches(s.At(r), name, prot) then
        var g := Gather(s, r, k);
        var p := Promote(g.s, b, g.k, noRR);
        Sweep(p.s, b, name, now, prot, noRR, p.k)
      else Sweep(s, b, name, now, prot, noRR, k.(u := k.u + 1))
  }

  function Head(s: State): Option<Id> {
    if s.lru == [] then None else Some(s.lru[0])
  }

  // *chainp = cache_head
  function Tie(f: Found): Outcome {
    if f.k.last.None? then Outcome(f.s, Head(f.s))
    else Outcome(f.s.(next := f.s.next[f.k.last.value := Head(f.s)]), f.k.first)
  }

  datatype Outcome = Outcome(s: State, ans: Option<Id>)

  function Next(s: State, r: Id): Option<Id> {
    if r < s.n then
      if r in s.lru && Index(s.lru, r) + 1 < |s.lru| then Some(s.lru[Index(s.lru, r) + 1]) else None
    else if r in s.next then s.next[r] else None
  }

  // The test at the end of cache_find_by_name.
  function Accept(s: State, ans: Option<Id>, name: Name, prot: Flags): Option<Id> {
    if ans.Some? && Matches(s.At(ans.value), name, prot) then ans else None
  }

  // A later call, with the answer `r` of the one before.
  function FindNext(s: State, r: Id, name: Name, prot: Flags): Option<Id> {
    Accept(s, Next(s, r), name, prot)
  }

  function FindByName(s: State, name: Name, now: int, prot: Flags, noRR: bool): (out: Outcome)
    ensures |out.s.table| == |s.table| && out.s.n == s.n && out.s.mix == s.mix
  {
    var t := Tie(Sweep(s, s.BucketOf(name), name, now, prot, noRR, START));
    Outcome(t.s, Accept(t.s, t.ans, name, prot))
  }

  // ---------- by address ----------

  // One chain: its reverse entries are all at the front.
  function SweepChain(s: State, b: nat, addr: Data, now: int, prot: Flags, k: Cursor): (out: Found)
    requires b < |s.table| && k.u <= |s.table[b]|
    ensures |out.s.table| == |s.table| && out.s.n == s.n && out.s.mix == s.mix
    decreases |s.table[b]| - k.u
  {
    if k.u == |s.table[b]| || F_REVERSE !in s.At(s.table[b][k.u]).flags then Found(s, k)
    else
      var r := s.table[b][k.u];
      if Expired(now, s.At(r)) then SweepChain(Evict(s, b, k.u), b, addr, now, prot, k)
      else
        var g := if MatchesAddr(s.At(r), addr, prot) then Gather(s, r, k) else Found(s, k);
        SweepChain(g.s, b, addr, now, prot, g.k.(u := k.u + 1))
  }

  function SweepTable(s: State, b: nat, addr: Data, now: int, prot: Flags, k: Cursor): (out: Found)
    requires b <= |s.table|
    ensures |out.s.table| == |s.table| && out.s.n == s.n && out.s.mix == s.mix
    decreases |s.table| - b
  {
    if b == |s.table| then Found(s, k)
    else
      var f := SweepChain(s, b, addr, now, prot, k.(u := 0));
      SweepTable(f.s, b + 1, addr, now, prot, f.k)
  }

  function AcceptAddr(s: State, ans: Option<Id>, addr: Data, prot: Flags): Option<Id> {
    if ans.Some? && MatchesAddr(s.At(ans.value), addr, prot) then ans else None
  }

  function FindNextAddr(s: State, r: Id, addr: Data, prot: Flags): Option<Id> {
    AcceptAddr(s, Next(s, r), addr, prot)
  }

  function FindByAddr(s: State, addr: Data, now: int, prot: Flags): (out: Outcome)
    ensures |out.s.table| == |s.table| && out.s.n == s.n && out.s.mix == s.mix
  {
    var t := Tie(SweepTable(s, 0, addr, now, prot, START));
    Outcome(t.s, AcceptAddr(t.s, t.ans, addr, prot))
  }
}
