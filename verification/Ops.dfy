/**
 The operations of src/cache.c on the state: scanning for entries to remove,
 inserting, committing.
 */
module Ops {
  import opened Names
  import opened Records
  import opened State

  // ---------- cache_scan_free ----------

  datatype Target = Target(rec: Id, uid: nat)

  // `hit` is the static entry that stops a forward scan; `target` the last
  // record removed that carried a uid.
  datatype Scan = Scan(s: State, hit: Option<Id>, target: Option<Target>)

  // An entry `f` makes way for a new entry `g` of the same name.
  predicate Clashes(f: Flags, g: Flags) {
    || (F_IPV4 in f && F_IPV4 in g) || (F_IPV6 in f && F_IPV6 in g)
    || (F_SRV in f && F_SRV in g) || (F_NXDOMAIN in f && F_NXDOMAIN in g)
    || ((F_CNAME in f || F_CNAME in g) && F_DNSKEY !in f && F_DS !in f)
  }

  predicate InTheWay(x: Rec, name: Name, g: Flags) {
    F_FORWARD in x.flags && SameName(x.name, name) && Clashes(x.flags, g)
  }

  // The scan of one bucket for the entries of `name`.
  function ScanBucket(s: State, b: nat, u: nat, name: Name, now: int, flags: Flags, target: Option<Target>): (out: Scan)
    requires b < |s.table| && u <= |s.table[b]|
    ensures |out.s.table| == |s.table| && out.s.mix == s.mix && out.s.n == s.n
    decreases |s.table[b]| - u
  {
    if u == |s.table[b]| then Scan(s, None, target)
    else
      var r := s.table[b][u];
      var x := s.At(r);
      if InTheWay(x, name, flags) then
        if Static(x.flags) then Scan(s, Some(r), target)
        else ScanBucket(Evict(s, b, u), b, u, name, now, flags,
                        if x.uid != UID_NONE then Some(Target(r, x.uid)) else target)
      else if Expired(now, x) || s.Outdated(r) then
        ScanBucket(Evict(s, b, u), b, u, name, now, flags, target)
      else ScanBucket(s, b, u + 1, name, now, flags, target)
  }

  // A live reverse entry for the address being inserted.
  predicate SameReverse(x: Rec, flags: Flags, addr: Option<Data>) {
    && !Static(x.flags)
    && F_REVERSE in flags && F_REVERSE in x.flags
    && ((F_IPV4 in flags && F_IPV4 in x.flags) || (F_IPV6 in flags && F_IPV6 in x.flags))
    && addr.Some? && SameAddr(x.data, addr.value, F_IPV6 in flags)
  }

  // The scan of one chain when the whole table is searched: it stops at the
  // first immortal entry that is not a reverse one.
  function ScanChain(s: State, b: nat, u: nat, now: int, flags: Flags, addr: Option<Data>): (t: State)
    requires b < |s.table| && u <= |s.table[b]|
    ensures |t.table| == |s.table| && t.mix == s.mix && t.n == s.n
    decreases |s.table[b]| - u
  {
    if u == |s.table[b]| || Segment(s.At(s.table[b][u]).flags) == 2 then s
    else
      var x := s.At(s.table[b][u]);
      if Expired(now, x) || SameReverse(x, flags, addr) then
        ScanChain(Evict(s, b, u), b, u, now, flags, addr)
      else ScanChain(s, b, u + 1, now, flags, addr)
  }

  function ScanTable(s: State, b: nat, now: int, flags: Flags, addr: Option<Data>): (t: State)
    requires b <= |s.table|
    ensures |t.table| == |s.table| && t.mix == s.mix && t.n == s.n
    decreases |s.table| - b
  {
    if b == |s.table| then s
    else ScanTable(ScanChain(s, b, 0, now, flags, addr), b + 1, now, flags, addr)
  }

  function ScanFree(s: State, name: Option<Name>, addr: Option<Data>, now: int, flags: Flags): (out: Scan)
    requires F_FORWARD in flags ==> name.Some?
    ensures |out.s.table| == |s.table| && out.s.mix == s.mix && out.s.n == s.n
  {
    if F_FORWARD in flags
    then ScanBucket(s, s.BucketOf(name.value), 0, name.value, now, flags, None)
    else Scan(ScanTable(s, 0, now, flags, addr), None, None)
  }

  // ---------- really_insert ----------

  // What the slot loop ends with. `spilled` is the record whose entries were
  // removed to make room, `internal` says that even that made none.
  datatype Slot = Slot(s: State, rec: Option<Id>, rounds: nat, spilled: Option<Id>, internal: bool)

  function Tail(s: State): Id
    requires s.lru != []
  {
    s.lru[|s.lru| - 1]
  }

  function TakeSlot(s: State, now: int, freedAll: bool, freeAvail: bool): (out: Slot)
    ensures |out.s.table| == |s.table| && out.s.mix == s.mix && out.s.n == s.n
    ensures out.rec.Some? ==> out.s.lru != [] && out.rec.value == Tail(out.s)
    decreases if freeAvail then 0 else if freedAll then 1 else 2
  {
    if s.lru == [] then Slot(s, None, 1, None, false)
    else
      var r := Tail(s);
      var x := s.At(r);
      if !InUse(x.flags) then Slot(s, Some(r), 1, None, false)
      else if freeAvail then Slot(s, None, 1, None, true)
      else if freedAll then
        var out := TakeSlot(ScanFree(s, Some(x.name), Some(x.data), now, x.flags).s, now, true, true);
        out.(rounds := out.rounds + 1, spilled := Some(r))
      else
        var out := TakeSlot(ScanTable(s, 0, now, {}, None), now, true, false);
        out.(rounds := out.rounds + 1)
  }

  datatype Outcome = Outcome(s: State, rec: Option<Id>)

  // The insert repeats an address that a static entry already gives the name.
  predicate Repeats(x: Rec, data: Option<Data>, flags: Flags) {
    && F_FORWARD in flags && data.Some?
    && (|| (F_IPV4 in flags && F_IPV4 in x.flags && SameAddr(x.data, data.value, false))
        || (F_IPV6 in flags && F_IPV6 in x.flags && SameAddr(x.data, data.value, true)))
  }

  function Fail(s: State): Outcome {
    Outcome(s.(err := true), None)
  }

  // Storage for a long name, from `big_free` or else from malloc, which the
  // allowance limits for records that are not DNSSEC ones.
  function TakeBig(s: State, flags: Flags, malloc: bool): Option<State> {
    if s.bigFree > 0 then Some(s.(bigFree := s.bigFree - 1))
    else if (s.bigLeft == 0 && F_DS !in flags && F_DNSKEY !in flags) || !malloc then None
    else Some(if s.bigLeft != 0 then s.(bigLeft := s.bigLeft - 1) else s)
  }

  function Fill(s: State, r: Id, uid: nat, name: Option<Name>, data: Option<Data>, ttd: int, flags: Flags): Rec {
    var long := name.Some? && LongName(name.value);
    Rec(if long then flags + {F_BIGNAME} else flags,
        if name.Some? then name.value else [],
        if data.Some? then data.value else s.At(r).data,
        ttd, uid)
  }

  // The record is filled in once any long name has its storage.
  function Settle(s: State, r: Id, uid: nat, name: Option<Name>, data: Option<Data>, ttd: int, flags: Flags, malloc: bool): (out: Outcome)
    ensures out.s.table == s.table && out.s.mix == s.mix && out.s.n == s.n
  {
    var big := if name.Some? && LongName(name.value) then TakeBig(s, flags, malloc) else Some(s);
    if big.None? then Fail(s)
    else Outcome(Grab(big.value, r, Fill(s, r, uid, name, data, ttd, flags)), Some(r))
  }

  function Insert(s: State, name: Option<Name>, data: Option<Data>, now: int, ttl: nat, flags: Flags, malloc: bool): (out: Outcome)
    requires F_FORWARD in flags ==> name.Some?
    ensures |out.s.table| == |s.table| && out.s.mix == s.mix && out.s.n == s.n
  {
    if s.err then Outcome(s, None)
    else if ttl == 0 then Fail(s)
    else
      var scan := ScanFree(s, name, data, now, flags);
      if scan.hit.Some? then
        if Repeats(scan.s.At(scan.hit.value), data, flags) then Outcome(scan.s, scan.hit) else Fail(scan.s)
      else if scan.target.Some? then
        Settle(scan.s, scan.target.value.rec, scan.target.value.uid, name, data, now + ttl, flags, malloc)
      else
        var slot := TakeSlot(scan.s, now, F_REVERSE in flags, false);
        if slot.rec.None? then Fail(slot.s)
        else Settle(slot.s, slot.rec.value, slot.s.At(slot.rec.value).uid, name, data, now + ttl, flags, malloc)
  }

  // cache_insert: the TTL is the one within the configured limits that is nearest to
  // the one given; where the limits cross, the lower one wins. Zero means no limit.
  function ClampTtl(ttl: nat, maxTtl: nat, minTtl: nat): (r: nat)
    ensures (maxTtl == 0 || ttl <= maxTtl) && minTtl <= ttl ==> r == ttl
    ensures maxTtl != 0 && minTtl <= maxTtl < ttl ==> r == maxTtl
    ensures ttl < minTtl || (maxTtl != 0 && maxTtl < minTtl) ==> r == minTtl
    ensures ttl > 0 ==> r > 0
  {
    var ttl' := if maxTtl != 0 && maxTtl < ttl then maxTtl else ttl;
    if minTtl != 0 && minTtl > ttl' then minTtl else ttl'
  }

  // ---------- transactions ----------

  // cache_start_insert
  function Discard(s: State): (t: State)
    ensures t.table == s.table && t.mix == s.mix && t.n == s.n && t.pending == [] && !t.err
    decreases |s.pending|
  {
    if s.pending == [] then s.(err := false) else Discard(Drop(s))
  }

  // The loop of cache_end_insert.
  function CommitAll(s: State): (t: State)
    ensures |t.table| == |s.table| && t.mix == s.mix && t.n == s.n && t.pending == []
    decreases |s.pending|
  {
    if s.pending == [] then s
    else CommitAll(if s.Outdated(s.pending[0]) then Drop(s) else Commit(s))
  }

  function EndInsert(s: State): (t: State)
    ensures |t.table| == |s.table| && t.mix == s.mix && t.n == s.n
  {
    if s.err then s else CommitAll(s)
  }
}
