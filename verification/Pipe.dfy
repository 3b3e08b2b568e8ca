/**
 A batch on its way from a child process to its parent: what the child writes as
 it commits, and what the parent's cache makes of it.
 */
module Pipe {
  import opened Names
  import opened Records
  import opened State
  import opened Keeps
  import opened Ops
  import opened Wire
  import opened Exact
  import opened Atomic

  // ---------- the child: cache_end_insert ----------

  // The records written while a batch is committed, and their bytes. `at` gives
  // the pointer in a record's `addr`.
  function Sent(s: State, at: Id -> Ptr): seq<Sending>
    decreases |s.pending|
  {
    if s.pending == [] then []
    else if s.Outdated(s.pending[0]) then Sent(Drop(s), at)
    else [Sending(s.At(s.pending[0]), at(s.pending[0]))] + Sent(Commit(s), at)
  }

  function Output(s: State, at: Id -> Ptr): seq<Byte> {
    if s.err then [] else EncodeAll(Sent(s, at))
  }

  // ---------- the parent: cache_recv_insert ----------

  // `last` is crecp, the record made by the last item that was not a CNAME;
  // `made` what each item so far was turned into.
  datatype Made = Made(s: State, last: Option<Id>, made: seq<Option<Id>>)

  // The conversion of a negative time to unsigned gives `late`.
  function Ttl(ttd: int, now: int, late: nat): nat {
    if ttd >= now then ttd - now else late
  }

  function Apply(m: Made, x: Item, now: int, late: nat, malloc: bool): Made {
    var ttl := Ttl(x.ttd, now, late);
    if Typed(x.flags) then
      var out := Insert(m.s, Some(x.name), x.data, now, ttl, x.flags, malloc);
      Made(out.s, out.rec, m.made + [out.rec])
    else if F_CNAME in x.flags then
      var out := Insert(m.s, Some(x.name), None, now, ttl, x.flags, malloc);
      Made(if out.rec.Some? then SetLink(out.s, out.rec.value, m.last) else out.s, m.last, m.made + [out.rec])
    else m.(made := m.made + [None])
  }

  // After the first `k` items; `fails` says at which of them malloc would fail.
  function ApplyAll(s: State, items: seq<Item>, k: nat, now: int, late: nat, fails: set<nat>): (m: Made)
    requires k <= |items|
    ensures |m.made| == k
  {
    if k == 0 then Made(s, None, [])
    else Apply(ApplyAll(s, items, k - 1, now, late, fails), items[k - 1], now, late, k - 1 !in fails)
  }

  datatype Received = Received(s: State, ok: bool, rest: seq<Byte>)

  function Recv(m: Made, input: seq<Byte>, now: int, late: nat, fails: set<nat>): Received
    decreases |input|
  {
    match ReadItem(input)
    case Short => Received(m.s, false, input)
    case Ended(rest) => Received(EndInsert(m.s), true, rest)
    case More(x, rest) => Recv(Apply(m, x, now, late, |m.made| !in fails), rest, now, late, fails)
  }

  function RecvInsert(s: State, input: seq<Byte>, now: int, late: nat, fails: set<nat>): Received {
    Recv(Made(Discard(s), None, []), input, now, late, fails)
  }

  // ---------- what is sent ----------

  // The pending records from the `i`th on that are not dropped.
  ghost function Staying(s: State, at: Id -> Ptr, i: nat): seq<Sending>
    requires i <= |s.pending|
    decreases |s.pending| - i
  {
    if i == |s.pending| then []
    else
      var r := s.pending[i];
      (if r in Loose(s, |s.pending|) then [] else [Sending(s.At(r), at(r))]) + Staying(s, at, i + 1)
  }

  lemma {:induction false} LooseSettled(s: State, i: nat, j: nat)
    requires Inv(s) && i < j <= |s.pending|
    ensures s.pending[i] in Loose(s, j) <==> s.pending[i] in Loose(s, i + 1)
    decreases j
  {
    hide Inv, Bereft, State.Outdated;
    if i + 1 < j {
      LooseSettled(s, i, j - 1);
      BatchOnce(s, j - 1);
    }
  }

  lemma {:induction false} LooseOne(s: State, i: nat)
    requires Inv(s) && i < |s.pending|
    ensures s.pending[i] in Loose(s, |s.pending|) <==> s.Outdated(s.pending[i]) || Bereft(s, s.pending[i], Loose(s, i))
    ensures s.pending[i] !in Loose(s, i)
  {
    hide Inv, Bereft, State.Outdated;
    LooseSettled(s, i, |s.pending|);
    BatchOnce(s, i);
  }

  lemma {:induction false} SentFrom(s: State, at: Id -> Ptr, i: nat, t: State)
    requires Inv(s) && Inv(t) && Committing(s, i, t)
    ensures i <= |s.pending| && Sent(t, at) == Staying(s, at, i)
    decreases |s.pending| - i
  {
    hide Bucket, Inv, Loose, Bereft, Drop, Commit;
    if i < |s.pending| {
      var r := s.pending[i];
      assert t.pending[0] == r;
      DropKeeps(t);
      CommitKeeps(t);
      BatchOutdated(s, i, t);
      LooseOne(s, i);
      assert t.At(r) == s.At(r);
      if s.Outdated(r) || Bereft(s, r, Loose(s, i)) {
        DropCommits(s, i, t);
        SentFrom(s, at, i + 1, Drop(t));
      } else {
        CommitCommits(s, i, t);
        SentFrom(s, at, i + 1, Commit(t));
      }
    }
  }

  // The parent is sent exactly the records that enter the table, in the order in
  // which they do.
  lemma {:induction false} SentExact(s: State, at: Id -> Ptr)
    requires Inv(s)
    ensures Sent(s, at) == Staying(s, at, 0)
  {
    hide Inv, Staying, Sent, Committing;
    CommitsStart(s);
    SentFrom(s, at, 0, s);
  }

  // ---------- what arrives ----------

  lemma {:induction false} RecvFrom(s: State, l: seq<Sending>, k: nat, rest: seq<Byte>, now: int, late: nat, fails: set<nat>)
    requires SendableAll(l) && k <= |l|
    ensures Recv(ApplyAll(s, CarriedAll(l), k, now, late, fails), EncodeAll(l[k..]) + rest, now, late, fails)
      == Received(EndInsert(ApplyAll(s, CarriedAll(l), |l|, now, late, fails).s), true, rest)
    decreases |l| - k
  {
    hide Sendable, Encode, ReadItem, SENTINEL, Carried, Empty, Apply, EndInsert;
    var items := CarriedAll(l);
    var m := ApplyAll(s, items, k, now, late, fails);
    if k == |l| {
      assert l[k..] == [];
      SentinelBack(rest);
    } else {
      var tail := EncodeAll(l[k + 1..]);
      assert l[k..][0] == l[k] && l[k..][1..] == l[k + 1..];
      assert EncodeAll(l[k..]) + rest == Encode(l[k]) + (tail + rest);
      ItemBack(l[k], tail + rest);
      assert ApplyAll(s, items, k + 1, now, late, fails) == Apply(m, items[k], now, late, k !in fails);
      RecvFrom(s, l, k + 1, rest, now, late, fails);
    }
  }

  // Reading what a child wrote applies its records one by one, commits, and
  // leaves the next batch in the pipe.
  lemma {:induction false} BatchArrives(s: State, l: seq<Sending>, rest: seq<Byte>, now: int, late: nat, fails: set<nat>)
    requires SendableAll(l)
    ensures RecvInsert(s, EncodeAll(l) + rest, now, late, fails)
      == Received(EndInsert(ApplyAll(Discard(s), CarriedAll(l), |l|, now, late, fails).s), true, rest)
  {
    hide SendableAll, EncodeAll, CarriedAll, Recv, EndInsert, Apply;
    RecvFrom(Discard(s), l, 0, rest, now, late, fails);
    assert l[0..] == l;
  }
}
