/**
 The cache itself. Each method walks and rewires the lists as src/cache.c does
 and is proved to have the effect of the function that describes it on `State`.
 The LRU list and the uncommitted batch are the fields that the C code has; `lru`
 and `pending` are the sequences those fields lead through, and `threads` is the
 `next` field of records outside the pool. A position `up` in a chain stands for
 the C code's pointer to the link that leads to the next entry.
 */
module Cache {
  import opened Names
  import opened Records
  import opened State
  import opened Ops
  import opened Rehash
  import opened Footing
  import L = LruList
  import Runs
  import Scans
  import Lookup
  import Answers
  import AddrAnswers
  import NT = NonTerminals
  import Pipe
  import Wire

  // What the other end of the pipe sends: each record that is to be inserted is a
  // forward or reverse one and not static.
  ghost predicate Trusted(input: seq<Byte>)
    decreases |input|
  {
    match Wire.ReadItem(input)
    case Short => true
    case Ended(_) => true
    case More(x, rest) => (Typed(x.flags) || F_CNAME in x.flags ==> Proper(x.flags)) && Trusted(rest)
  }

  predicate Proper(f: Flags) {
    InUse(f) && !Static(f)
  }

  class Cache {
    const n: CInt
    const mix: Mix
    var recs: map<Id, Rec>
    var head: Option<Id>       // cache_head
    var tail: Option<Id>       // cache_tail
    var newChain: Option<Id>   // new_chain
    var next: L.Links
    var prev: L.Links
    var table: Table
    var bigFree: nat
    var bigLeft: nat
    var err: bool
    var lastUid: nat
    var spare: seq<Id>
    ghost var lru: seq<Id>
    ghost var pending: seq<Id>
    ghost var threads: L.Links
    ghost var stamp: map<Id, nat>
    ghost var clock: nat

    ghost function Snap(): State
      reads this`recs, this`lru, this`pending, this`table, this`bigFree, this`bigLeft, this`err, this`lastUid,
            this`threads, this`spare, this`stamp, this`clock
    {
      State(n, mix, recs, lru, pending, table, bigFree, bigLeft, err, lastUid, threads, spare, stamp, clock)
    }

    ghost function Wires(): L.Wires
      reads this`head, this`tail, this`newChain, this`next, this`prev
    {
      L.Wires(head, tail, newChain, next, prev)
    }

    // The pointers lead through the sequences.
    ghost predicate Wired()
      reads this`head, this`tail, this`newChain, this`next, this`prev, this`lru, this`pending, this`threads
    {
      L.Holds(Wires(), n, lru, pending) && L.Outside(n, threads, next)
    }

    // Operations on the table alone leave `Wired` as it is; `Housed` is then part
    // of what `Inv` or, after empty non-terminals were made, `Rest` says.
    ghost predicate Valid()
      reads this
    {
      Wired() && Housed(Snap())
    }

    function At(r: Id): Rec
      reads this
    {
      if r in recs then recs[r] else BLANK
    }

    // cache_init
    constructor (n: CInt, mix: Mix)
      ensures Valid() && Snap() == Runs.Initial(n, mix)
    {
      this.n, this.mix := n, mix;
      recs, head, tail, newChain, next, prev := map[], None, None, None, map[], map[];
      bigFree, bigLeft, err, lastUid, spare := 0, n / 10, false, 0, [];
      lru, pending, threads, stamp, clock := [], [], map[], map[], 0;
      table := [[]];
      new;
      hide Inv, Housed, Runs.Initial;
      var size := Resized(n);
      table := seq(size, _ => []);
      LinkAll();
      Runs.InitialInv(n, mix);
      Parts(Snap());
    }

    static lemma {:induction false} Parts(s: State)
      requires Inv(s)
      ensures Housed(s)
    {
      hide Bucket, ChainsOk;
    }

    // The loop of cache_init that links the pool.
    method LinkAll()
      requires Wired() && Snap() == Runs.Linked(n, mix, 0)
      modifies this`head, this`tail, this`next, this`prev, this`lru, this`stamp, this`clock, this`recs
      ensures Wired() && Snap() == Runs.Initial(n, mix)
    {
      hide Wired, Runs.Linked, Link;
      var i := 0;
      while i < n
        invariant 0 <= i <= n && Wired()
        invariant Snap() == Runs.Linked(n, mix, i)
      {
        Runs.LinkedFacts(n, mix, i);
        LinkedNext(n, mix, i);
        LinkHead(i);
        recs := recs[i := BLANK];
        i := i + 1;
      }
    }

    static lemma {:induction false} LinkedNext(n: CInt, mix: Mix, i: nat)
      ensures var t := Link(Runs.Linked(n, mix, i), i); Runs.Linked(n, mix, i + 1) == t.(recs := t.recs[i := BLANK])
    {}

    // The loop at the start of rehash.
    static method Resized(size: CInt) returns (k: nat)
      ensures k == NewSize(size) && 0 < k < 0x8000_0000
    {
      hide Pow2;
      k := 64;
      PowSixtyFour();
      while k < size / 10
        invariant 64 <= k && Pow2(k) && Doubled(k, size / 10) == NewSize(size)
        invariant k == 64 || k < 2 * (size / 10)
        decreases size - k
      {
        PowTwice(k);
        k := 2 * k;
      }
    }

    // ---------- the LRU list ----------

    method Prepend(r: Id)
      requires Wired() && r < n && r !in lru && r !in pending
      modifies this`head, this`tail, this`next, this`prev, this`lru
      ensures Wired() && lru == [r] + old(lru)
    {
      hide L.Holds, L.Outside, L.To;
      L.LinkHeadHolds(Wires(), n, lru, pending, r);
      L.OutsideTrans(n, threads, next, L.LinkHead(Wires(), r).next);
      lru := [r] + lru;
      if head.Some? {
        prev := prev[head.value := Some(r)];
      }
      next := next[r := head];
      prev := prev[r := None];
      head := Some(r);
      if tail.None? {
        tail := Some(r);
      }
    }

    method Append(r: Id)
      requires Wired() && r < n && r !in lru && r !in pending
      modifies this`head, this`tail, this`next, this`prev, this`lru
      ensures Wired() && lru == old(lru) + [r]
    {
      hide L.Holds, L.Outside, L.To;
      L.PutTailHolds(Wires(), n, lru, pending, r);
      L.OutsideTrans(n, threads, next, L.PutTail(Wires(), r).next);
      lru := lru + [r];
      if tail.Some? {
        next := next[tail.value := Some(r)];
      } else {
        head := Some(r);
      }
      prev := prev[r := tail];
      next := next[r := None];
      tail := Some(r);
    }

    method Detach(r: Id)
      requires Wired() && r in lru
      modifies this`head, this`tail, this`next, this`prev, this`lru
      ensures Wired() && lru == Without(old(lru), r) && r < n && r !in lru && r !in pending
    {
      L.UnlinkHolds(Wires(), n, lru, pending, r);
      WithoutFacts(lru, r);
      L.OutsideTrans(n, threads, next, L.Unlink(Wires(), r).next);
      hide L.Holds, L.Outside, L.To, Without;
      lru := Without(lru, r);
      var before, after := L.To(prev, r), L.To(next, r);
      if before.Some? {
        next := next[before.value := after];
      } else {
        head := after;
      }
      if after.Some? {
        prev := prev[after.value := before];
      } else {
        tail := before;
      }
    }

    // cache_link
    method LinkHead(r: Id)
      requires Wired() && r < n && r !in lru && r !in pending
      modifies this`head, this`tail, this`next, this`prev, this`lru, this`stamp, this`clock
      ensures Wired() && Snap() == Link(old(Snap()), r)
    {
      hide Wired;
      Prepend(r);
      clock := clock + 1;
      stamp := stamp[r := clock];
    }

    // cache_unlink
    method UnlinkRec(r: Id)
      requires Wired() && r in lru
      modifies this`head, this`tail, this`next, this`prev, this`lru
      ensures Wired() && Snap() == Unlink(old(Snap()), r) && r < n && r !in lru && r !in pending
    {
      hide Wired, Without;
      Detach(r);
    }

    // cache_free
    method FreeRec(r: Id)
      requires Wired() && r < n && r !in lru && r !in pending
      modifies this`head, this`tail, this`next, this`prev, this`recs, this`lru, this`bigFree
      ensures Wired() && Snap() == Free(old(Snap()), r)
    {
      hide Wired;
      var x := At(r);
      x := x.(flags := x.flags - {F_FORWARD});
      x := x.(flags := x.flags - {F_REVERSE});
      x := x.(uid := UID_NONE);
      Append(r);
      if F_BIGNAME in x.flags {
        bigFree := bigFree + 1;
        x := x.(flags := x.flags - {F_BIGNAME});
      }
      recs := recs[r := x];
      assert x.flags == Freed(old(At(r))).flags;
    }

    // *up = crecp->hash_next, and the record is freed unless it is static.
    method EvictAt(b: nat, up: nat)
      requires Valid() && b < |table| && up < |table[b]|
      modifies this`head, this`tail, this`next, this`prev, this`table, this`recs, this`lru, this`bigFree
      ensures Valid() && Snap() == Evict(old(Snap()), b, up)
      ensures |table| == |old(table)| && |table[b]| == |old(table[b])| - 1 && Vacates(old(Snap()), Snap())
      ensures !Static(old(At(table[b][up])).flags) ==> Vacant(Snap(), old(table[b][up]))
    {
      hide Wired, Housed, Vacates, Vacant;
      HashedRec(Snap(), b, up);
      EvictHoused(Snap(), b, up);
      var r := table[b][up];
      table := table[b := table[b][..up] + table[b][up + 1..]];
      if !Static(At(r).flags) {
        UnlinkRec(r);
        FreeRec(r);
      }
    }

    // Where in a chain cache_hash puts a record.
    method PlaceIn(c: seq<Id>, f: Flags) returns (up: nat)
      ensures up == Place(recs, c, f) && up <= |c|
    {
      up := 0;
      if F_REVERSE !in f {
        while up < |c| && F_REVERSE in At(c[up]).flags
          invariant 0 <= up <= |c| && SkipReverse(recs, c, 0) == SkipReverse(recs, c, up)
        {
          up := up + 1;
        }
        if F_IMMORTAL in f {
          ghost var from := up;
          while up < |c| && F_IMMORTAL !in At(c[up]).flags
            invariant from <= up <= |c| && SkipMortal(recs, c, from) == SkipMortal(recs, c, up)
          {
            up := up + 1;
          }
        }
      }
    }

    // cache_hash
    method HashRec(r: Id)
      modifies this`table
      ensures Snap() == Hash(old(Snap()), r)
    {
      hide Bucket, Place;
      var b := HashBucket(mix, At(r).name, |table|);
      var up := PlaceIn(table[b], At(r).flags);
      table := table[b := table[b][..up] + [r] + table[b][up..]];
    }

    // cache_scan_free when a forward entry is to be inserted.
    method ScanForward(name: Name, now: int, flags: Flags) returns (hit: Option<Id>, target: Option<Target>)
      requires Valid()
      modifies this`head, this`tail, this`next, this`prev, this`table, this`recs, this`lru, this`bigFree
      ensures Valid() && Vacates(old(Snap()), Snap())
      ensures target.Some? ==> Vacant(Snap(), target.value.rec)
      ensures hit.Some? ==> n <= hit.value && hit.value in recs
      ensures Scan(Snap(), hit, target) == ScanBucket(old(Snap()), old(Snap()).BucketOf(name), 0, name, now, flags, None)
    {
      hide Bucket, Evict, SameName, Clashes, Expired, State.Outdated, ScanBucket, Housed, Wired, Vacates, Vacant;
      VacatesSame(Snap());
      var b := HashBucket(mix, name, |table|);
      var up := 0;
      hit, target := None, None;
      while up < |table[b]|
        invariant |table| == |old(table)| && 0 <= up <= |table[b]| && Valid() && Vacates(old(Snap()), Snap())
        invariant target.Some? ==> Vacant(Snap(), target.value.rec)
        invariant ScanBucket(Snap(), b, up, name, now, flags, target) == ScanBucket(old(Snap()), b, 0, name, now, flags, None)
        decreases |table[b]| - up
      {
        var r := table[b][up];
        var x := At(r);
        ghost var was := Snap();
        ScanStep(was, b, up, name, now, flags, target);
        if F_FORWARD in x.flags && SameName(x.name, name) && Clashes(x.flags, flags) {
          if Static(x.flags) {
            HashedRec(Snap(), b, up);
            hit := Some(r);
            return;
          }
          EvictAt(b, up);
          StillVacant(old(Snap()), was, Snap(), target);
          if x.uid != UID_NONE {
            target := Some(Target(r, x.uid));
          }
        } else if Expired(now, x) || IsOutdated(r) {
          EvictAt(b, up);
          StillVacant(old(Snap()), was, Snap(), target);
        } else {
          up := up + 1;
        }
      }
      ScanStep(Snap(), b, up, name, now, flags, target);
    }

    static lemma {:induction false} ScanStep(s: State, b: nat, u: nat, name: Name, now: int, flags: Flags, target: Option<Target>)
      requires b < |s.table| && u <= |s.table[b]|
      ensures var out := ScanBucket(s, b, u, name, now, flags, target);
        if u == |s.table[b]| then out == Scan(s, None, target)
        else
          var r := s.table[b][u];
          var x := s.At(r);
          if F_FORWARD in x.flags && SameName(x.name, name) && Clashes(x.flags, flags) then
            if Static(x.flags) then out == Scan(s, Some(r), target)
            else out == ScanBucket(Evict(s, b, u), b, u, name, now, flags, if x.uid != UID_NONE then Some(Target(r, x.uid)) else target)
          else if Expired(now, x) || s.Outdated(r) then out == ScanBucket(Evict(s, b, u), b, u, name, now, flags, target)
          else out == ScanBucket(s, b, u + 1, name, now, flags, target)
    {
      hide Bucket, SameName, Clashes, Expired, State.Outdated;
    }

    static lemma {:induction false} VacatesSame(s: State)
      ensures Vacates(s, s)
    {}

    static lemma {:induction false} StillVacant(s: State, t: State, v: State, target: Option<Target>)
      requires Vacates(s, t) && Vacates(t, v) && (target.Some? ==> Vacant(t, target.value.rec))
      ensures Vacates(s, v) && (target.Some? ==> Vacant(v, target.value.rec))
    {
      hide Vacant;
      VacatesTrans(s, t, v);
    }

    // is_outdated_cname_pointer
    predicate IsOutdated(r: Id)
      reads this
      ensures IsOutdated(r) == Snap().Outdated(r)
    {
      var x := At(r);
      if F_CNAME !in x.flags || x.data.CnameName? then false
      else if !x.data.CnameRec? || x.data.rec.None? then true
      else
        var t := At(x.data.rec.value);
        !(F_DNSKEY !in t.flags && F_DS !in t.flags && x.data.uid == t.uid)
    }

    // cache_scan_free over the whole table.
    method ScanWhole(addr: Option<Data>, now: int, flags: Flags)
      requires Valid()
      modifies this`head, this`tail, this`next, this`prev, this`table, this`recs, this`lru, this`bigFree
      ensures Valid() && Vacates(old(Snap()), Snap())
      ensures Snap() == ScanTable(old(Snap()), 0, now, flags, addr)
    {
      hide Bucket, Evict, ScanChain, Expired, SameReverse, Housed, Wired, Vacates;
      VacatesSame(Snap());
      var b := 0;
      while b < |table|
        invariant |table| == |old(table)| && 0 <= b <= |table| && Valid() && Vacates(old(Snap()), Snap())
        invariant ScanTable(Snap(), b, now, flags, addr) == ScanTable(old(Snap()), 0, now, flags, addr)
      {
        ghost var was := Snap();
        ScanOne(b, addr, now, flags);
        VacatesTrans(old(Snap()), was, Snap());
        b := b + 1;
      }
    }

    method ScanOne(b: nat, addr: Option<Data>, now: int, flags: Flags)
      requires Valid() && b < |table|
      modifies this`head, this`tail, this`next, this`prev, this`table, this`recs, this`lru, this`bigFree
      ensures Valid() && Vacates(old(Snap()), Snap())
      ensures Snap() == ScanChain(old(Snap()), b, 0, now, flags, addr)
    {
      hide Bucket, Evict, SameReverse, Housed, Wired, Vacates;
      VacatesSame(Snap());
      var up := 0;
      while up < |table[b]| && (F_REVERSE in At(table[b][up]).flags || F_IMMORTAL !in At(table[b][up]).flags)
        invariant |table| == |old(table)| && 0 <= up <= |table[b]| && Valid() && Vacates(old(Snap()), Snap())
        invariant ScanChain(Snap(), b, up, now, flags, addr) == ScanChain(old(Snap()), b, 0, now, flags, addr)
        decreases |table[b]| - up
      {
        var x := At(table[b][up]);
        ghost var was := Snap();
        if Expired(now, x) {
          EvictAt(b, up);
          VacatesTrans(old(Snap()), was, Snap());
        } else if SameReverse(x, flags, addr) {
          EvictAt(b, up);
          VacatesTrans(old(Snap()), was, Snap());
        } else {
          up := up + 1;
        }
      }
    }

    // cache_scan_free
    method ScanFreeRecs(name: Option<Name>, addr: Option<Data>, now: int, flags: Flags)
      returns (hit: Option<Id>, target: Option<Target>)
      requires Valid() && (F_FORWARD in flags ==> name.Some?)
      modifies this`head, this`tail, this`next, this`prev, this`table, this`recs, this`lru, this`bigFree
      ensures Valid() && Vacates(old(Snap()), Snap())
      ensures target.Some? ==> Vacant(Snap(), target.value.rec)
      ensures hit.Some? ==> n <= hit.value && hit.value in recs
      ensures Scan(Snap(), hit, target) == ScanFree(old(Snap()), name, addr, now, flags)
    {
      hide Bucket, ScanBucket, ScanTable, Housed, Wired, Vacates, Vacant;
      if F_FORWARD in flags {
        hit, target := ScanForward(name.value, now, flags);
      } else {
        ScanWhole(addr, now, flags);
        hit, target := None, None;
      }
    }

    // The loop of really_insert that finds a record to use.
    method FindSlot(now: int, all: bool) returns (slot: Option<Id>, ghost rounds: nat, ghost spilled: Option<Id>, internal: bool)
      requires Valid()
      modifies this`head, this`tail, this`next, this`prev, this`table, this`recs, this`lru, this`bigFree
      ensures Valid() && Vacates(old(Snap()), Snap()) && (slot.Some? ==> Vacant(Snap(), slot.value))
      ensures Slot(Snap(), slot, rounds, spilled, internal) == TakeSlot(old(Snap()), now, all, false)
    {
      hide Bucket, ScanFree, ScanTable, TakeSlot, Housed, Wired, Vacates, Vacant, InUse, Onward;
      VacatesSame(Snap());
      OnwardNone(TakeSlot(Snap(), now, all, false));
      var freedAll, freeAvail := all, false;
      rounds, spilled := 0, None;
      while true
        invariant Valid() && Vacates(old(Snap()), Snap())
        invariant freeAvail ==> freedAll
        invariant TakeSlot(old(Snap()), now, all, false) == Onward(TakeSlot(Snap(), now, freedAll, freeAvail), rounds, spilled)
        invariant spilled.Some? <==> freeAvail
        decreases !freeAvail, !freedAll
      {
        ghost var was := Snap();
        SlotStep(was, now, freedAll, freeAvail, rounds, spilled);
        rounds := rounds + 1;
        Ends();
        if tail.None? {
          return None, rounds, spilled, false;
        }
        var r := tail.value;
        if !InUse(At(r).flags) {
          return Some(r), rounds, spilled, false;
        }
        if freeAvail {
          return None, rounds, spilled, true;
        }
        if freedAll {
          var x := At(r);
          freeAvail := true;
          spilled := Some(r);
          var hit, target := ScanFreeRecs(Some(x.name), Some(x.data), now, x.flags);
        } else {
          ScanWhole(None, now, {});
          freedAll := true;
        }
        VacatesTrans(old(Snap()), was, Snap());
      }
    }

    // A search for a record that already went `rounds` rounds and may have spilled.
    static ghost function Onward(out: Slot, rounds: nat, spilled: Option<Id>): Slot {
      out.(rounds := out.rounds + rounds, spilled := if spilled.Some? then spilled else out.spilled)
    }

    static lemma {:induction false} OnwardNone(out: Slot)
      ensures Onward(out, 0, None) == out
    {}

    static lemma {:induction false} SlotStep(s: State, now: int, freedAll: bool, freeAvail: bool, rounds: nat, spilled: Option<Id>)
      requires spilled.Some? <==> freeAvail
      ensures var out := Onward(TakeSlot(s, now, freedAll, freeAvail), rounds, spilled);
        if s.lru == [] then out == Slot(s, None, rounds + 1, spilled, false)
        else
          var r := s.lru[|s.lru| - 1];
          var x := s.At(r);
          if !InUse(x.flags) then out == Slot(s, Some(r), rounds + 1, spilled, false) && Vacant(s, r)
          else if freeAvail then out == Slot(s, None, rounds + 1, spilled, true)
          else if freedAll then
            out == Onward(TakeSlot(ScanFree(s, Some(x.name), Some(x.data), now, x.flags).s, now, true, true), rounds + 1, Some(r))
          else out == Onward(TakeSlot(ScanTable(s, 0, now, {}, None), now, true, false), rounds + 1, None)
    {
      hide Bucket, ScanFree, ScanTable;
    }

    lemma {:induction false} Ends()
      requires Wired()
      ensures head == if lru == [] then None else Some(lru[0])
      ensures tail == if lru == [] then None else Some(lru[|lru| - 1])
      ensures newChain == if pending == [] then None else Some(pending[0])
    {}

    // The records of the batch stay in it and no record goes.
    static ghost predicate Adds(s: State, t: State) {
      (forall p: Id :: p in s.pending ==> p in t.pending) && (forall r: Id :: r in s.recs ==> r in t.recs)
    }

    static lemma {:induction false} AddsScan(s: State, t: State)
      requires Vacates(s, t)
      ensures Adds(s, t)
    {
      hide Vacant;
    }

    static lemma {:induction false} AddsTrans(s: State, t: State, v: State)
      requires Adds(s, t) && Adds(t, v)
      ensures Adds(s, v)
    {}

    static lemma {:induction false} AddsSame(s: State)
      ensures Adds(s, s)
    {}

    // really_insert
    method ReallyInsert(name: Option<Name>, data: Option<Data>, now: int, ttl: nat, flags: Flags, malloc: bool)
      returns (r: Option<Id>)
      requires Valid() && (F_FORWARD in flags ==> name.Some?)
      modifies this`head, this`tail, this`next, this`prev, this`table, this`recs, this`lru, this`bigFree,
               this`bigLeft, this`newChain, this`pending, this`err
      ensures Wired() && (Proper(flags) ==> Valid()) && Adds(old(Snap()), Snap())
      ensures r.Some? ==> r.value in recs && (r.value in pending || n <= r.value)
      ensures Outcome(Snap(), r) == Insert(old(Snap()), name, data, now, ttl, flags, malloc)
    {
      hide Bucket, ScanFree, TakeSlot, Settle, Housed, Wired, Vacant, Vacates, Adds, Proper, Repeats, Fail;
      AddsSame(Snap());
      if err {
        return None;
      }
      if ttl == 0 {
        GiveUp();
        return None;
      }
      var hit, target := ScanFreeRecs(name, data, now, flags);
      ghost var was := Snap();
      AddsScan(old(Snap()), was);
      if hit.Some? {
        r := UseStatic(hit.value, data, flags);
      } else if target.Some? {
        r := FillSlot(target.value.rec, target.value.uid, name, data, now + ttl, flags, malloc);
      } else {
        r := Allot(name, data, now, ttl, flags, malloc);
      }
      AddsTrans(old(Snap()), was, Snap());
    }

    // insert_error = 1
    method GiveUp()
      requires Valid()
      modifies this`err
      ensures Valid() && Adds(old(Snap()), Snap()) && Outcome(Snap(), None) == Fail(old(Snap()))
    {
      hide Housed, Wired;
      ErrHoused(Snap(), true);
      err := true;
    }

    // really_insert when a static entry has the name.
    method UseStatic(hit: Id, data: Option<Data>, flags: Flags) returns (r: Option<Id>)
      requires Valid()
      modifies this`err
      ensures Valid() && Adds(old(Snap()), Snap()) && (r.Some? ==> r == Some(hit) && recs == old(recs))
      ensures Outcome(Snap(), r) == if Repeats(old(At(hit)), data, flags) then Outcome(old(Snap()), Some(hit)) else Fail(old(Snap()))
    {
      hide Housed, Wired, Fail;
      var x := At(hit);
      if (F_IPV4 in flags || F_IPV6 in flags) && F_FORWARD in flags && data.Some? {
        if F_IPV4 in flags && F_IPV4 in x.flags && SameAddr(x.data, data.value, false) {
          return Some(hit);
        } else if F_IPV6 in flags && F_IPV6 in x.flags && SameAddr(x.data, data.value, true) {
          return Some(hit);
        }
      }
      GiveUp();
      return None;
    }

    // really_insert when no record of the name is to be used again.
    method Allot(name: Option<Name>, data: Option<Data>, now: int, ttl: nat, flags: Flags, malloc: bool)
      returns (r: Option<Id>)
      requires Valid()
      modifies this`head, this`tail, this`next, this`prev, this`table, this`recs, this`lru, this`bigFree,
               this`bigLeft, this`newChain, this`pending, this`err
      ensures Wired() && (Proper(flags) ==> Valid()) && Adds(old(Snap()), Snap())
      ensures r.Some? ==> r.value in recs && r.value in pending
      ensures var slot := TakeSlot(old(Snap()), now, F_REVERSE in flags, false);
        Outcome(Snap(), r) == if slot.rec.None? then Fail(slot.s)
          else Settle(slot.s, slot.rec.value, slot.s.At(slot.rec.value).uid, name, data, now + ttl, flags, malloc)
    {
      hide Bucket, TakeSlot, Settle, Housed, Wired, Vacant, Vacates, Adds, Proper, Fail;
      var slot, internal;
      ghost var rounds, spilled;
      slot, rounds, spilled, internal := FindSlot(now, F_REVERSE in flags);
      ghost var was := Snap();
      AddsScan(old(Snap()), was);
      if slot.None? {
        GiveUp();
        r := None;
      } else {
        r := FillSlot(slot.value, At(slot.value).uid, name, data, now + ttl, flags, malloc);
      }
      AddsTrans(old(Snap()), was, Snap());
    }

    // The rest of really_insert, once there is a record.
    method FillSlot(slot: Id, uid: nat, name: Option<Name>, data: Option<Data>, ttd: int, flags: Flags, malloc: bool)
      returns (r: Option<Id>)
      requires Valid() && Vacant(Snap(), slot)
      modifies this`head, this`tail, this`next, this`prev, this`recs, this`lru, this`bigFree, this`bigLeft,
               this`newChain, this`pending, this`err
      ensures Wired() && (Proper(flags) ==> Valid()) && Adds(old(Snap()), Snap())
      ensures r.Some? ==> r.value in recs && r.value in pending
      ensures Outcome(Snap(), r) == Settle(old(Snap()), slot, uid, name, data, ttd, flags, malloc)
    {
      hide Without, Housed, Wired, TakeBig;
      var big := false;
      if name.Some? && |name.value| > SMALLDNAME - 1 {
        big := TakeName(flags, malloc);
        if !big {
          GiveUp();
          return None;
        }
      }
      var x := At(slot);
      x := x.(uid := uid);
      UnlinkRec(slot);
      x := x.(flags := flags);
      if big {
        x := x.(flags := x.flags + {F_BIGNAME});
      }
      x := x.(name := if name.Some? then name.value else []);
      if data.Some? {
        x := x.(data := data.value);
      }
      x := x.(ttd := ttd);
      recs := recs[slot := x];
      PushBatch(slot);
      r := Some(slot);
      if Proper(flags) {
        GrabHoused(old(Snap()), Snap(), slot, x);
      }
    }

    // Storage for a long name.
    method TakeName(flags: Flags, malloc: bool) returns (ok: bool)
      modifies this`bigFree, this`bigLeft
      ensures var big := TakeBig(old(Snap()), flags, malloc); ok == big.Some? && Snap() == if ok then big.value else old(Snap())
      ensures Snap() == old(Snap()).(bigFree := bigFree, bigLeft := bigLeft)
    {
      if bigFree > 0 {
        bigFree := bigFree - 1;
      } else if (bigLeft == 0 && F_DS !in flags && F_DNSKEY !in flags) || !malloc {
        return false;
      } else if bigLeft != 0 {
        bigLeft := bigLeft - 1;
      }
      return true;
    }

    // new->next = new_chain; new_chain = new
    method PushBatch(r: Id)
      requires Wired() && r < n && r !in lru && r !in pending
      modifies this`next, this`newChain, this`pending
      ensures Wired() && Snap() == old(Snap()).(pending := [r] + old(pending))
    {
      hide L.Holds, L.Outside, L.To;
      L.PushChainHolds(Wires(), n, lru, pending, r);
      L.OutsideTrans(n, threads, next, L.PushChain(Wires(), r).next);
      next := next[r := newChain];
      newChain := Some(r);
      pending := [r] + pending;
    }

    // tmp = new_chain->next, which becomes new_chain
    method PopBatch() returns (r: Id)
      requires Wired() && newChain.Some?
      modifies this`newChain, this`pending
      ensures old(pending) != [] && r == old(pending)[0] && Some(r) == old(newChain)
      ensures Wired() && r < n && r !in lru && r !in pending && Snap() == old(Snap()).(pending := old(pending)[1..])
    {
      Ends();
      hide L.Holds;
      L.PopChainHolds(Wires(), n, lru, pending);
      r := newChain.value;
      newChain := L.To(next, r);
      pending := pending[1..];
    }

    // cache_insert
    method CacheInsert(name: Option<Name>, data: Option<Data>, now: int, ttl: nat, flags: Flags, malloc: bool, maxTtl: nat, minTtl: nat)
      returns (r: Option<Id>)
      requires Valid() && (F_FORWARD in flags ==> name.Some?)
      modifies this`head, this`tail, this`next, this`prev, this`table, this`recs, this`lru, this`bigFree,
               this`bigLeft, this`newChain, this`pending, this`err
      ensures Wired() && (Proper(flags) ==> Valid())
      ensures Outcome(Snap(), r) == Insert(old(Snap()), name, data, now, ClampTtl(ttl, maxTtl, minTtl), flags, malloc)
    {
      hide Insert, Housed, Wired;
      var ttl' := ttl;
      if maxTtl != 0 && maxTtl < ttl' {
        ttl' := maxTtl;
      }
      if minTtl != 0 && minTtl > ttl' {
        ttl' := minTtl;
      }
      r := ReallyInsert(name, data, now, ttl', flags, malloc);
    }

    // cache_start_insert
    method StartInsert()
      requires Valid()
      modifies this`head, this`tail, this`next, this`prev, this`newChain, this`pending, this`err, this`recs, this`lru, this`bigFree
      ensures Valid() && Snap() == Discard(old(Snap()))
    {
      hide Free, Housed, Wired;
      while newChain.Some?
        invariant Valid() && Discard(Snap()) == Discard(old(Snap()))
        decreases |pending|
      {
        Ends();
        DropHoused(Snap());
        DropSteps(Snap());
        var r := PopBatch();
        FreeRec(r);
      }
      Ends();
      ErrHoused(Snap(), false);
      err := false;
    }

    // cache_end_insert. A child process also writes what it commits to its
    // parent; `at` gives the pointer in a record's `addr`.
    method EndBatch(piped: bool, at: Id -> Wire.Ptr) returns (out: seq<Byte>)
      requires Valid()
      modifies this`head, this`tail, this`next, this`prev, this`newChain, this`pending, this`recs, this`lru, this`bigFree,
               this`table, this`stamp, this`clock
      ensures Valid() && Snap() == EndInsert(old(Snap()))
      ensures out == if piped then Pipe.Output(old(Snap()), at) else []
    {
      hide Drop, Commit, Wire.Encode, Wire.EncodeAll, Pipe.Sent, State.Outdated, Housed, Wired;
      out := [];
      if err {
        return;
      }
      while newChain.Some?
        invariant Valid() && CommitAll(Snap()) == CommitAll(old(Snap()))
        invariant piped ==> out + Wire.EncodeAll(Pipe.Sent(Snap(), at)) == Wire.EncodeAll(Pipe.Sent(old(Snap()), at))
        invariant !piped ==> out == []
        decreases |pending|
      {
        ghost var was, wrote := Snap(), out;
        Ends();
        var r := newChain.value;
        var x := At(r);
        var gone := CommitHead();
        if piped && !gone {
          out := out + Wire.Encode(Wire.Sending(x, at(r)));
          SentNext(was, at, wrote, out);
        }
        SentSkip(was, at);
      }
      Ends();
      SentSkip(Snap(), at);
      if piped {
        out := out + Wire.SENTINEL;
      }
    }

    // One record of the batch is hashed and linked, or dropped.
    method CommitHead() returns (gone: bool)
      requires Valid() && newChain.Some?
      modifies this`head, this`tail, this`next, this`prev, this`newChain, this`pending, this`recs, this`lru, this`bigFree,
               this`table, this`stamp, this`clock
      ensures Valid() && old(pending) != [] && |pending| < |old(pending)|
      ensures gone == old(Snap().Outdated(newChain.value)) && old(newChain) == Some(old(pending)[0])
      ensures Snap() == if gone then Drop(old(Snap())) else Commit(old(Snap()))
    {
      hide Bucket, Free, Hash, Link, State.Outdated, Housed, Wired;
      Ends();
      DropHoused(Snap());
      CommitHoused(Snap());
      DropSteps(Snap());
      CommitSteps(Snap());
      gone := IsOutdated(newChain.value);
      var r := PopBatch();
      if gone {
        FreeRec(r);
      } else {
        HashRec(r);
        LinkHead(r);
      }
    }

    static lemma {:induction false} DropSteps(s: State)
      requires s.pending != []
      ensures Drop(s) == Free(s.(pending := s.pending[1..]), s.pending[0])
    {}

    static lemma {:induction false} CommitSteps(s: State)
      requires s.pending != []
      ensures var h := Hash(s.(pending := s.pending[1..]), s.pending[0]);
        Commit(s) == Link(h, s.pending[0]) && h.lru == s.lru && h.pending == s.pending[1..] && h.n == s.n
    {
      hide Bucket, Place;
    }

    static lemma {:induction false} SentSkip(s: State, at: Id -> Wire.Ptr)
      ensures if s.pending == [] then Wire.EncodeAll(Pipe.Sent(s, at)) == Wire.SENTINEL
        else s.Outdated(s.pending[0]) ==> Pipe.Sent(s, at) == Pipe.Sent(Drop(s), at)
    {
      hide Drop, Commit, State.Outdated;
    }

    static lemma {:induction false} SentNext(s: State, at: Id -> Wire.Ptr, wrote: seq<Byte>, out: seq<Byte>)
      requires s.pending != [] && !s.Outdated(s.pending[0])
      requires out == wrote + Wire.Encode(Wire.Sending(s.At(s.pending[0]), at(s.pending[0])))
      ensures out + Wire.EncodeAll(Pipe.Sent(Commit(s), at)) == wrote + Wire.EncodeAll(Pipe.Sent(s, at))
    {
      hide Commit, State.Outdated, Wire.Encode, Wire.EncodeAll;
      var w, l := Wire.Sending(s.At(s.pending[0]), at(s.pending[0])), Pipe.Sent(Commit(s), at);
      assert Pipe.Sent(s, at) == [w] + l;
      EncodedFirst(w, l);
    }

    static lemma {:induction false} EncodedFirst(w: Wire.Sending, l: seq<Wire.Sending>)
      ensures Wire.EncodeAll([w] + l) == Wire.Encode(w) + Wire.EncodeAll(l)
    {
      hide Wire.Encode;
      assert ([w] + l)[0] == w && ([w] + l)[1..] == l;
    }

    // The record that a CNAME is pointed at is in the batch, or static.
    static ghost predicate Pointable(s: State, r: Option<Id>) {
      r.Some? ==> r.value in s.recs && (r.value in s.pending || s.n <= r.value)
    }

    // One record that cache_recv_insert has read.
    method Arrive(x: Wire.Item, last: Option<Id>, now: int, late: nat, malloc: bool, ghost made: seq<Option<Id>>)
      returns (last': Option<Id>, ghost r: Option<Id>)
      requires Valid() && Pointable(Snap(), last) && (Typed(x.flags) || F_CNAME in x.flags ==> Proper(x.flags))
      modifies this`head, this`tail, this`next, this`prev, this`table, this`recs, this`lru, this`bigFree,
               this`bigLeft, this`newChain, this`pending, this`err, this`lastUid
      ensures Valid() && Pointable(Snap(), last')
      ensures Pipe.Made(Snap(), last', made + [r]) == Pipe.Apply(Pipe.Made(old(Snap()), last, made), x, now, late, malloc)
    {
      hide Insert, SetLink, Typed, Housed, Wired, Proper;
      last', r := last, None;
      var ttl := if x.ttd >= now then x.ttd - now else late;
      if Typed(x.flags) {
        last' := ReallyInsert(Some(x.name), x.data, now, ttl, x.flags, malloc);
        r := last';
      } else if F_CNAME in x.flags {
        var newc := ReallyInsert(Some(x.name), None, now, ttl, x.flags, malloc);
        r := newc;
        if newc.Some? {
          LinkKeepsRecs(Snap(), newc.value, last);
          PointTo(newc.value, last);
        }
      }
    }

    static lemma {:induction false} LinkKeepsRecs(s: State, c: Id, to: Option<Id>)
      ensures forall r: Id :: r in s.recs ==> r in SetLink(s, c, to).recs
      ensures SetLink(s, c, to).pending == s.pending && SetLink(s, c, to).n == s.n
    {}

    // cache_recv_insert
    method RecvInsert(input: seq<Byte>, now: int, late: nat, fails: set<nat>) returns (ok: bool, rest: seq<Byte>)
      requires Valid() && Trusted(input)
      modifies this
      ensures Valid() && Pipe.Received(Snap(), ok, rest) == Pipe.RecvInsert(old(Snap()), input, now, late, fails)
    {
      hide Discard, Pipe.Apply, EndInsert, Wire.ReadItem, Housed, Wired;
      StartInsert();
      var last, i := None, 0;
      ghost var made := [];
      rest := input;
      while true
        invariant i == |made| && Valid() && Pointable(Snap(), last) && Trusted(rest)
        invariant Pipe.RecvInsert(old(Snap()), input, now, late, fails)
          == Pipe.Recv(Pipe.Made(Snap(), last, made), rest, now, late, fails)
        decreases |rest|
      {
        match Wire.ReadItem(rest)
        case Short => return false, rest;
        case Ended(rest') =>
          var out := EndBatch(false, _ => [0, 0, 0, 0, 0, 0, 0, 0]);
          return true, rest';
        case More(x, rest') =>
          ghost var r;
          last, r := Arrive(x, last, now, late, i !in fails, made);
          made := made + [r];
          i := i + 1;
          rest := rest';
      }
    }

    // next_uid, on an unbounded counter
    method NextUidFor(r: Id)
      modifies this`recs, this`lastUid
      ensures Snap() == NextUid(old(Snap()), r)
    {
      if At(r).uid == UID_NONE {
        lastUid := lastUid + 1;
        recs := recs[r := At(r).(uid := lastUid)];
      }
    }

    // The link of a CNAME, as its inserter makes it.
    method PointTo(c: Id, to: Option<Id>)
      requires Valid() && Pointable(Snap(), Some(c)) && Pointable(Snap(), to)
      modifies this`recs, this`lastUid
      ensures Valid() && Snap() == SetLink(old(Snap()), c, to)
    {
      hide Housed, Wired, Pointable, NextUid;
      PointHoused(Snap(), c, to);
      if to.None? {
        recs := recs[c := At(c).(data := CnameRec(None, UID_NONE))];
      } else {
        NextUidFor(to.value);
        recs := recs[c := At(c).(data := CnameRec(to, At(to.value).uid))];
      }
    }

    static lemma {:induction false} PointHoused(s: State, c: Id, to: Option<Id>)
      requires Housed(s) && Pointable(s, Some(c)) && Pointable(s, to)
      ensures Housed(SetLink(s, c, to))
    {
      hide Bucket, ChainsOk;
      SetLinkHoused(s, c, to);
    }

    // *chainp = r; chainp = &r->next
    method Thread(first: Option<Id>, last: Option<Id>, r: Option<Id>) returns (first': Option<Id>)
      requires Wired() && (last.Some? ==> n <= last.value)
      modifies this`next, this`threads
      ensures Wired() && first' == if last.None? then r else first
      ensures Snap() == if last.None? then old(Snap()) else old(Snap()).(next := old(Snap()).next[last.value := r])
    {
      hide L.Holds, L.Outside;
      if last.None? {
        first' := r;
      } else {
        L.ThreadHolds(Wires(), n, lru, pending, last.value, r);
        L.OutsideBoth(n, threads, next, last.value, r);
        first' := first;
        next := next[last.value := r];
        threads := threads[last.value := r];
        assert Wires() == old(Wires()).(next := next);
      }
    }

    method GatherRec(r: Id, k: Lookup.Cursor) returns (k': Lookup.Cursor)
      requires Wired() && (k.last.Some? ==> n <= k.last.value) && if Static(At(r).flags) then n <= r else r in lru
      modifies this`head, this`tail, this`next, this`prev, this`threads, this`lru, this`stamp, this`clock
      ensures Wired() && (k'.last.Some? ==> n <= k'.last.value)
      ensures Lookup.Found(Snap(), k') == Lookup.Gather(old(Snap()), r, k)
    {
      hide Without, L.Holds;
      k' := k;
      if Static(At(r).flags) {
        var first := Thread(k.first, k.last, Some(r));
        k' := k.(first := first, last := Some(r));
      } else {
        UnlinkRec(r);
        LinkHead(r);
      }
    }

    // Round robin for the matching entry `k.u` of bucket `b`.
    method PromoteAt(b: nat, k: Lookup.Cursor, noRR: bool) returns (k': Lookup.Cursor)
      requires b < |table| && k.u < |table[b]| && (k.insert.Some? ==> k.insert.value <= k.u)
      modifies this`table
      ensures Lookup.Found(Snap(), k') == Lookup.Promote(old(Snap()), b, k, noRR)
    {
      var x := At(table[b][k.u]);
      var group := (F_REVERSE in x.flags, F_IMMORTAL in x.flags);
      k' := k;
      if k.insert.Some? && group == k.group {
        var c, at := table[b], k.insert.value;
        table := table[b := c[..at] + [c[k.u]] + c[at..k.u] + c[k.u + 1..]];
        k' := k'.(insert := Some(at + 1));
      } else if k.insert.None? && !noRR {
        k' := k'.(insert := Some(k.u), group := group);
      }
      k' := k'.(u := k.u + 1);
    }

    // Where the gathering loop stands: the thread ends at a static record.
    ghost predicate Gathering(b: nat, k: Lookup.Cursor)
      reads this
    {
      b < |table| && k.u <= |table[b]| && (k.insert.Some? ==> k.insert.value <= k.u) && (k.last.Some? ==> n <= k.last.value)
    }

    // One entry of the bucket in cache_find_by_name.
    method SweepEntry(b: nat, name: Name, now: int, prot: Flags, noRR: bool, k: Lookup.Cursor) returns (k': Lookup.Cursor)
      requires Valid() && Gathering(b, k) && k.u < |table[b]|
      modifies this
      ensures Valid() && Gathering(b, k') && |table| == |old(table)|
      ensures |table[b]| - k'.u < |old(table[b])| - k.u
      ensures Lookup.Sweep(Snap(), b, name, now, prot, noRR, k') == Lookup.Sweep(old(Snap()), b, name, now, prot, noRR, k)
    {
      hide Bucket, Evict, Lookup.Gather, Lookup.Promote, Lookup.Matches, Expired, State.Outdated, Housed, Wired;
      k' := k;
      var r := table[b][k.u];
      HashedRec(Snap(), b, k.u);
      if !Expired(now, At(r)) && !IsOutdated(r) {
        if Lookup.Matches(At(r), name, prot) {
          GatherHoused(Snap(), b, k.u, k);
          k' := GatherRec(r, k);
          PromoteHoused(Snap(), b, k', noRR);
          k' := PromoteAt(b, k', noRR);
        } else {
          k' := k.(u := k.u + 1);
        }
      } else {
        EvictAt(b, k.u);
      }
    }

    // cache_find_by_name when it is first called
    method FindByName(name: Name, now: int, prot: Flags, noRR: bool) returns (ans: Option<Id>)
      requires Valid()
      modifies this
      ensures Valid() && Lookup.Outcome(Snap(), ans) == Lookup.FindByName(old(Snap()), name, now, prot, noRR)
    {
      hide Bucket, Lookup.Matches, Housed, Wired;
      var b := HashBucket(mix, name, |table|);
      var k := Lookup.START;
      while k.u < |table[b]|
        invariant |table| == |old(table)| && Valid() && Gathering(b, k)
        invariant Lookup.Sweep(Snap(), b, name, now, prot, noRR, k) == Lookup.Sweep(old(Snap()), b, name, now, prot, noRR, Lookup.START)
        decreases |table[b]| - k.u
      {
        k := SweepEntry(b, name, now, prot, noRR, k);
      }
      ans := TieThread(k);
      if ans.Some? && !Lookup.Matches(At(ans.value), name, prot) {
        ans := None;
      }
    }

    // *chainp = cache_head
    method TieThread(k: Lookup.Cursor) returns (ans: Option<Id>)
      requires Valid() && (k.last.Some? ==> n <= k.last.value)
      modifies this`next, this`threads
      ensures Valid() && Lookup.Outcome(Snap(), ans) == Lookup.Tie(Lookup.Found(old(Snap()), k))
    {
      hide Housed, L.Holds;
      Ends();
      ans := Thread(k.first, k.last, head);
      TieHoused(old(Snap()), Snap());
    }

    // crecp->next
    function NextOf(r: Id): Option<Id>
      requires Wired() && (r in lru || n <= r)
      reads this
      ensures NextOf(r) == Lookup.Next(Snap(), r)
    {
      if r in next then NextIs(r); next[r] else NextIs(r); None
    }

    lemma {:induction false} NextIs(r: Id)
      requires Wired() && (r in lru || n <= r)
      ensures L.To(next, r) == Lookup.Next(Snap(), r)
    {
      if r in lru {
        L.NextIs(Wires(), n, lru, pending, r);
      }
    }

    // cache_find_by_name when it is called with its last answer
    method FindAgain(r: Id, name: Name, prot: Flags) returns (ans: Option<Id>)
      requires Wired() && (r in lru || n <= r)
      ensures ans == Lookup.FindNext(Snap(), r, name, prot)
    {
      hide Wired;
      ans := NextOf(r);
      if ans.Some? && !Lookup.Matches(At(ans.value), name, prot) {
        ans := None;
      }
    }

    // How callers go through the answers: they call until there is none.
    method AllByName(name: Name, now: int, prot: Flags, noRR: bool) returns (out: seq<Id>)
      requires Wired() && Inv(Snap())
      modifies this
      ensures Wired() && Inv(Snap()) && Snap() == Lookup.FindByName(old(Snap()), name, now, prot, noRR).s
      ensures NoDup(out) && forall r: Id :: r in out <==> Snap().Hashed(r) && Lookup.Matches(At(r), name, prot)
      ensures forall r: Id :: r in out ==> !Expired(now, At(r))
    {
      hide Bucket, Inv, Housed, Wired, Lookup.FindByName, Lookup.Matches, Expired, Answers.Yields;
      ghost var all := Answers.NameLookup(Snap(), name, now, prot, noRR);
      Parts(Snap());
      var r := FindByName(name, now, prot, noRR);
      forall r: Id | r in all ensures r in lru || n <= r {
        Walkable(Snap(), r);
      }
      out := RestByName(r, name, prot, all);
    }

    // The calls after the first one.
    method RestByName(first: Option<Id>, name: Name, prot: Flags, ghost all: seq<Id>) returns (out: seq<Id>)
      requires Wired() && Answers.Yields(Snap(), first, name, prot, all) && forall r: Id :: r in all ==> r in lru || n <= r
      ensures out == all
    {
      hide Wired, Lookup.FindNext;
      var r := first;
      out := [];
      while r.Some?
        invariant |out| <= |all| && out == all[..|out|] && r == if |out| < |all| then Some(all[|out|]) else None
        decreases |all| - |out|
      {
        out := out + [r.value];
        r := FindAgain(r.value, name, prot);
      }
      assert out == all;
    }

    static lemma {:induction false} Walkable(s: State, r: Id)
      requires Inv(s) && s.Hashed(r)
      ensures r in s.lru || s.n <= r
    {
      hide Bucket;
      assert ChainOk(s, s.Home(r), s.table[s.Home(r)]);
    }

    // cache_find_by_addr when it is first called
    method FindByAddr(addr: Data, now: int, prot: Flags) returns (ans: Option<Id>)
      requires Valid()
      modifies this
      ensures Valid() && Lookup.Outcome(Snap(), ans) == Lookup.FindByAddr(old(Snap()), addr, now, prot)
    {
      hide Bucket, Lookup.SweepChain, Lookup.MatchesAddr, Housed, Wired;
      var k, b := Lookup.START, 0;
      while b < |table|
        invariant |table| == |old(table)| && 0 <= b <= |table| && Valid() && (k.last.Some? ==> n <= k.last.value)
        invariant Lookup.SweepTable(Snap(), b, addr, now, prot, k) == Lookup.SweepTable(old(Snap()), 0, addr, now, prot, Lookup.START)
      {
        k := FindInChain(b, addr, now, prot, k);
        b := b + 1;
      }
      ans := TieThread(k);
      if ans.Some? && !Lookup.MatchesAddr(At(ans.value), addr, prot) {
        ans := None;
      }
    }

    method FindInChain(b: nat, addr: Data, now: int, prot: Flags, k0: Lookup.Cursor) returns (k: Lookup.Cursor)
      requires Valid() && b < |table| && (k0.last.Some? ==> n <= k0.last.value)
      modifies this
      ensures Valid() && (k.last.Some? ==> n <= k.last.value)
      ensures Lookup.Found(Snap(), k) == Lookup.SweepChain(old(Snap()), b, addr, now, prot, k0.(u := 0))
    {
      hide Bucket, Evict, Lookup.Gather, Lookup.MatchesAddr, Expired, Housed, Wired;
      k := k0.(u := 0);
      while k.u < |table[b]| && F_REVERSE in At(table[b][k.u]).flags
        invariant |table| == |old(table)| && k.u <= |table[b]| && Valid() && (k.last.Some? ==> n <= k.last.value)
        invariant Lookup.SweepChain(Snap(), b, addr, now, prot, k) == Lookup.SweepChain(old(Snap()), b, addr, now, prot, k0.(u := 0))
        decreases |table[b]| - k.u
      {
        var r := table[b][k.u];
        HashedRec(Snap(), b, k.u);
        if !Expired(now, At(r)) {
          if Lookup.MatchesAddr(At(r), addr, prot) {
            GatherHoused(Snap(), b, k.u, k);
            k := GatherRec(r, k);
          }
          k := k.(u := k.u + 1);
        } else {
          EvictAt(b, k.u);
        }
      }
    }

    method FindAddrAgain(r: Id, addr: Data, prot: Flags) returns (ans: Option<Id>)
      requires Wired() && (r in lru || n <= r)
      ensures ans == Lookup.FindNextAddr(Snap(), r, addr, prot)
    {
      hide Wired;
      ans := NextOf(r);
      if ans.Some? && !Lookup.MatchesAddr(At(ans.value), addr, prot) {
        ans := None;
      }
    }

    method AllByAddr(addr: Data, now: int, prot: Flags) returns (out: seq<Id>)
      requires Wired() && Inv(Snap())
      modifies this
      ensures Wired() && Inv(Snap()) && Snap() == Lookup.FindByAddr(old(Snap()), addr, now, prot).s
      ensures NoDup(out) && forall r: Id :: r in out <==>
        old(Snap()).Hashed(r) && Lookup.MatchesAddr(old(At(r)), addr, prot) && !Expired(now, old(At(r)))
    {
      hide Bucket, Inv, Housed, Wired, Lookup.FindByAddr, Lookup.MatchesAddr, Expired, AddrAnswers.YieldsAddr, Scans.Shrinks;
      ghost var all := AddrAnswers.AddrLookup(Snap(), addr, now, prot);
      Parts(Snap());
      var r := FindByAddr(addr, now, prot);
      forall r: Id | r in all ensures r in lru || n <= r {
        AddrWalkable(old(Snap()), Snap(), r);
      }
      out := RestByAddr(r, addr, prot, all);
    }

    method RestByAddr(first: Option<Id>, addr: Data, prot: Flags, ghost all: seq<Id>) returns (out: seq<Id>)
      requires Wired() && AddrAnswers.YieldsAddr(Snap(), first, addr, prot, all) && forall r: Id :: r in all ==> r in lru || n <= r
      ensures out == all
    {
      hide Wired, Lookup.FindNextAddr;
      var r := first;
      out := [];
      while r.Some?
        invariant |out| <= |all| && out == all[..|out|] && r == if |out| < |all| then Some(all[|out|]) else None
        decreases |all| - |out|
      {
        out := out + [r.value];
        r := FindAddrAgain(r.value, addr, prot);
      }
      assert out == all;
    }

    static lemma {:induction false} AddrWalkable(s: State, t: State, r: Id)
      requires Inv(s) && Scans.Shrinks(s, t) && s.Hashed(r)
      ensures r in t.lru || t.n <= r
    {
      hide Bucket, Inv;
      Walkable(s, r);
    }

    // rehash, once there is a table
    method GrowTable(size: CInt, malloc: bool)
      modifies this`table
      ensures Snap() == Grow(old(Snap()), size, malloc)
    {
      hide Bucket, Hash;
      var k := Resized(size);
      if k <= |table| || !malloc {
        return;
      }
      var was := table;
      table := seq(k, _ => []);
      ghost var empty := Snap();
      var i := 0;
      while i < |was|
        invariant 0 <= i <= |was|
        invariant RehashAll(Snap(), was[i..]) == RehashAll(empty, was)
      {
        assert was[i..][0] == was[i] && was[i..][1..] == was[i + 1..];
        RehashOne(was[i]);
        i := i + 1;
      }
    }

    method RehashOne(c: seq<Id>)
      modifies this`table
      ensures Snap() == RehashChain(old(Snap()), c)
    {
      hide Bucket, Hash;
      var j := 0;
      while j < |c|
        invariant 0 <= j <= |c|
        invariant RehashChain(Snap(), c[j..]) == RehashChain(old(Snap()), c)
      {
        assert c[j..][0] == c[j] && c[j..][1..] == c[j + 1..];
        HashRec(c[j]);
        j := j + 1;
      }
    }

    // cache_unhash_dhcp
    method ForgetDhcp()
      modifies this`table, this`spare
      ensures Snap() == UnhashDhcp(old(Snap()), 0)
    {
      hide Bucket;
      var b := 0;
      while b < |table|
        invariant |table| == |old(table)| && 0 <= b <= |table|
        invariant UnhashDhcp(Snap(), b) == UnhashDhcp(old(Snap()), 0)
      {
        var up := 0;
        ghost var before := Snap();
        while up < |table[b]|
          invariant |table| == |old(table)| && 0 <= up <= |table[b]|
          invariant UnhashChain(Snap(), b, up) == UnhashChain(before, b, 0)
          decreases |table[b]| - up
        {
          var r := table[b][up];
          if F_DHCP in At(r).flags {
            table := table[b := table[b][..up] + table[b][up + 1..]];
            spare := [r] + spare;
          } else {
            up := up + 1;
          }
        }
        b := b + 1;
      }
    }

    // A record from malloc joins the table.
    method Define(r: Id, x: Rec)
      modifies this`recs, this`table
      ensures Snap() == AddStatic(old(Snap()), r, x)
    {
      hide Bucket, Place;
      recs := recs[r := x];
      HashRec(r);
    }

    // ---------- empty non-terminals ----------

    // cache_find_non_terminal
    method KnownName(name: Name, now: int) returns (known: bool)
      ensures known <==> NT.Known(Snap(), name, now)
    {
      hide Bucket, SameName;
      var b := HashBucket(mix, name, |table|);
      var i := 0;
      while i < |table[b]|
        invariant 0 <= i <= |table[b]|
        invariant forall j :: 0 <= j < i ==> !NT.Shows(Snap(), table[b][j], name, now)
      {
        var r := table[b][i];
        if !IsOutdated(r) && !Expired(now, At(r)) && F_FORWARD in At(r).flags &&
           F_NXDOMAIN !in At(r).flags && SameName(name, At(r).name) {
          assert NT.Shows(Snap(), r, name, now) && r in Snap().table[Snap().BucketOf(name)];
          return true;
        }
        i := i + 1;
      }
      known := false;
    }

    predicate FitsHere(r: Id, name: Name, type': Flags)
      reads this
      ensures FitsHere(r, name, type') == NT.Fits(Snap(), r, name, type')
    {
      !IsOutdated(r) && F_FORWARD in At(r).flags && Meets(At(r).flags, type') && SameName(name, At(r).name)
    }

    // The part of make_non_terminals that removes an old entry for the name.
    method ClearEmpty(name: Name, type': Flags)
      modifies this`table, this`spare, this`recs
      ensures Snap() == NT.Clear(old(Snap()), old(Snap()).BucketOf(name), 0, name, type')
    {
      hide Bucket, NT.Fits;
      var b := HashBucket(mix, name, |table|);
      var up := 0;
      while up < |table[b]|
        invariant 0 <= up <= |table[b]| && Snap() == old(Snap())
        invariant NT.Clear(Snap(), b, up, name, type') == NT.Clear(Snap(), b, 0, name, type')
      {
        var r := table[b][up];
        if FitsHere(r, name, type') && At(r).flags !! NT.TYPES {
          table := table[b := table[b][..up] + table[b][up + 1..]];
          if F_DHCP in type' {
            spare := [r] + spare;
          } else {
            recs := recs - {r};
          }
          return;
        }
        up := up + 1;
      }
    }

    // One round of the loop of make_non_terminals.
    method CoverName(name: Name, src: Rec, heap: Id, malloc: bool)
      modifies this`recs, this`table, this`spare
      ensures Snap() == NT.Cover(old(Snap()), name, src, heap, malloc)
    {
      hide Bucket, NT.Fits, Hash;
      var b := HashBucket(mix, name, |table|);
      var type' := NT.TypeOf(src.flags);
      var i := 0;
      while i < |table[b]| && !FitsHere(table[b][i], name, type')
        invariant 0 <= i <= |table[b]|
        invariant NT.Same(Snap(), table[b], i, name, type') == NT.Same(Snap(), table[b], 0, name, type')
      {
        i := i + 1;
      }
      if i < |table[b]| {
        var r := table[b][i];
        var x := At(r);
        if F_IMMORTAL !in x.flags {
          if F_IMMORTAL in src.flags {
            recs := recs[r := x.(flags := x.flags + {F_IMMORTAL})];
          } else if x.ttd < src.ttd {
            recs := recs[r := x.(ttd := src.ttd)];
          }
        }
        return;
      }
      var r := heap;
      if F_DHCP in src.flags && spare != [] {
        r := spare[0];
        spare := spare[1..];
      } else if !malloc {
        return;
      }
      var x := At(r).(flags := src.flags + {F_NAMEP} - NT.TYPES - {F_REVERSE}, name := name);
      if F_IMMORTAL !in x.flags {
        x := x.(ttd := src.ttd);
      }
      recs := recs[r := x];
      HashRec(r);
    }

    // make_non_terminals
    method MakeNonTerminals(source: Id, heap: Id, fails: set<nat>)
      modifies this`recs, this`table, this`spare
      ensures Snap() == NT.MakeNonTerminals(old(Snap()), source, heap, fails)
    {
      hide Bucket, NT.Clear, NT.Cover;
      var src := At(source);
      ClearEmpty(src.name, NT.TypeOf(src.flags));
      ghost var cleared := Snap();
      var i := 0;
      while i < |src.name|
        invariant 0 <= i <= |src.name|
        invariant NT.CoverAll(Snap(), src.name, i, src, heap, fails) == NT.CoverAll(cleared, src.name, 0, src, heap, fails)
      {
        if src.name[i] == NT.DOT {
          CoverName(src.name[i + 1..], src, heap + i, i !in fails);
        }
        i := i + 1;
      }
    }
  }
}
