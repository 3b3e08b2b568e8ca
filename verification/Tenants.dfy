/**
 Many chains of blocks in one pool, through any sequence of stores and releases.
 */
module Tenants {
  import opened Names
  import opened BlockPool

  // Data is stored, or the `k`th of what is kept is given up.
  datatype Cmd = Keep(data: seq<Byte>) | Give(k: nat)

  function Cut<T>(s: seq<T>, k: nat): seq<T> {
    if k < |s| then s[..k] + s[k + 1..] else s
  }

  // What is kept after the commands, if `ok` says which stores found room.
  function Remaining(cmds: seq<Cmd>, ok: seq<bool>): seq<seq<Byte>>
    requires |ok| == |cmds|
  {
    if cmds == [] then []
    else
      var n := |cmds| - 1;
      var before := Remaining(cmds[..n], ok[..n]);
      match cmds[n]
      case Keep(d) => if ok[n] then before + [d] else before
      case Give(k) => Cut(before, k)
  }

  // The part of a stored datum that no write to a block can change, and the rest.
  ghost predicate Shaped(head: Block?, chain: seq<Block>, keys: seq<seq<Byte>>, data: seq<Byte>) {
    && head == First(chain) && Distinct(chain) && |keys| == |chain| == Blocks(|data|)
    && (forall j :: 0 <= j < |keys| ==> |keys[j]| == KEYBLOCK_LEN) && Bytes(keys, |data|) == data
  }

  ghost predicate Written(chain: seq<Block>, keys: seq<seq<Byte>>)
    reads chain
  {
    |keys| == |chain| && forall j :: 0 <= j < |chain| ==> chain[j].next == Succ(chain, j, null) && chain[j].key == keys[j]
  }

  ghost predicate Lodges(head: Block?, chain: seq<Block>, keys: seq<seq<Byte>>, data: seq<Byte>)
    reads chain
  {
    Shaped(head, chain, keys, data) && Written(chain, keys)
  }

  lemma {:induction false} LodgesIs(head: Block?, chain: seq<Block>, keys: seq<seq<Byte>>, data: seq<Byte>)
    ensures Lodges(head, chain, keys, data) <==>
      IsList(head, chain) && Holds(chain, keys) && |chain| == Blocks(|data|) && Bytes(keys, |data|) == data
  {
    hide Bytes, Blocks;
  }

  ghost function All(chains: seq<seq<Block>>): set<Block> {
    set i, b | 0 <= i < |chains| && b in chains[i] :: b
  }

  ghost predicate Apart(chains: seq<seq<Block>>) {
    forall i, j, b :: 0 <= i < j < |chains| && b in chains[i] ==> b !in chains[j]
  }

  ghost predicate Inside(chains: seq<seq<Block>>, i: nat) {
    i < |chains| && forall b :: b in chains[i] ==> b in All(chains)
  }

  // Each chain holds its data.
  ghost predicate EachLodges(heads: seq<Block?>, chains: seq<seq<Block>>, keys: seq<seq<seq<Byte>>>, data: seq<seq<Byte>>)
    reads All(chains)
  {
    && |heads| == |chains| == |keys| == |data|
    && forall i :: 0 <= i < |chains| ==> Inside(chains, i) && Lodges(heads[i], chains[i], keys[i], data[i])
  }

  // The pool's lodgers: each chain holds its data, no two share a block, none has a
  // block of the free list, and the blocks taken are theirs and those of `base`.
  ghost predicate Lodged(pool: Pool, heads: seq<Block?>, chains: seq<seq<Block>>, keys: seq<seq<seq<Byte>>>, data: seq<seq<Byte>>, base: set<Block>)
    reads pool, pool.freeList, All(chains)
  {
    && pool.Valid() && EachLodges(heads, chains, keys, data) && Apart(chains)
    && All(chains) !! base && pool.taken == base + All(chains)
  }

  // The blocks are as many as the data needs.
  ghost function Sum(data: seq<seq<Byte>>): nat {
    if data == [] then 0 else Sum(data[..|data| - 1]) + Blocks(|data[|data| - 1]|)
  }

  // ---------- one more, or one less ----------

  lemma {:induction false} AllSnoc(chains: seq<seq<Block>>, chain: seq<Block>)
    ensures All(chains + [chain]) == All(chains) + Set(chain)
  {
    var c := chains + [chain];
    assert c[|chains|] == chain;
    forall b | b in All(chains) ensures b in All(c) {
      var i :| 0 <= i < |chains| && b in chains[i];
      assert c[i] == chains[i];
    }
    forall b | b in All(c) ensures b in All(chains) + Set(chain) {
      var i :| 0 <= i < |c| && b in c[i];
      assert i < |chains| ==> c[i] == chains[i];
    }
  }

  lemma {:induction false} AllCut(chains: seq<seq<Block>>, k: nat)
    requires k < |chains| && Apart(chains)
    ensures All(Cut(chains, k)) == All(chains) - Set(chains[k]) && Apart(Cut(chains, k))
  {
    var c := Cut(chains, k);
    forall b | b in All(c) ensures b in All(chains) - Set(chains[k]) {
      var i :| 0 <= i < |c| && b in c[i];
      var i' := if i < k then i else i + 1;
      assert c[i] == chains[i'] && (i' < k || k < i');
    }
    forall b | b in All(chains) - Set(chains[k]) ensures b in All(c) {
      var i :| 0 <= i < |chains| && b in chains[i];
      assert i != k && c[if i < k then i else i - 1] == chains[i];
    }
    forall i, j, b | 0 <= i < j < |c| && b in c[i] ensures b !in c[j] {
      assert c[i] == chains[if i < k then i else i + 1] && c[j] == chains[if j < k then j else j + 1];
    }
  }

  lemma {:induction false} ApartSnoc(chains: seq<seq<Block>>, chain: seq<Block>)
    requires Apart(chains) && Set(chain) !! All(chains)
    ensures Apart(chains + [chain])
  {
    var c := chains + [chain];
    forall i, j, b | 0 <= i < j < |c| && b in c[i] ensures b !in c[j] {
      assert c[i] == chains[i] && b in All(chains);
      assert j < |chains| ==> c[j] == chains[j];
    }
  }

  lemma {:induction false} InsideAll(chains: seq<seq<Block>>)
    ensures forall i :: 0 <= i < |chains| ==> Inside(chains, i)
  {}

  lemma {:induction false} EachSnoc(heads: seq<Block?>, chains: seq<seq<Block>>, keys: seq<seq<seq<Byte>>>, data: seq<seq<Byte>>,
                                    head: Block?, chain: seq<Block>, ks: seq<seq<Byte>>, d: seq<Byte>)
    requires EachLodges(heads, chains, keys, data) && Lodges(head, chain, ks, d)
    ensures EachLodges(heads + [head], chains + [chain], keys + [ks], data + [d])
  {
    hide Lodges, All;
    var c := chains + [chain];
    InsideAll(c);
    forall i | 0 <= i < |c| ensures Lodges((heads + [head])[i], c[i], (keys + [ks])[i], (data + [d])[i]) {
      if i < |chains| {
        assert Inside(chains, i) && Lodges(heads[i], chains[i], keys[i], data[i]);
      }
    }
  }

  lemma {:induction false} EachCut(heads: seq<Block?>, chains: seq<seq<Block>>, keys: seq<seq<seq<Byte>>>, data: seq<seq<Byte>>, k: nat)
    requires |heads| == |chains| == |keys| == |data| && k < |chains|
    requires forall i :: 0 <= i < |chains| && i != k ==> Written(chains[i], keys[i]) && Shaped(heads[i], chains[i], keys[i], data[i])
    ensures EachLodges(Cut(heads, k), Cut(chains, k), Cut(keys, k), Cut(data, k))
  {
    hide Shaped, Written, All, Cut;
    CutAt(heads, k);
    CutAt(chains, k);
    CutAt(keys, k);
    CutAt(data, k);
    EachAgain(Cut(heads, k), Cut(chains, k), Cut(keys, k), Cut(data, k));
  }

  lemma {:induction false} CutAt<T>(s: seq<T>, k: nat)
    requires k < |s|
    ensures |Cut(s, k)| == |s| - 1 && forall i :: 0 <= i < |s| - 1 ==> Cut(s, k)[i] == s[if i < k then i else i + 1]
  {}

  method KeepOne(pool: Pool, d: seq<Byte>, heads: seq<Block?>, ghost chains: seq<seq<Block>>, ghost keys: seq<seq<seq<Byte>>>, ghost data: seq<seq<Byte>>, ghost base: set<Block>)
    returns (ok: bool, heads': seq<Block?>, ghost chains': seq<seq<Block>>, ghost keys': seq<seq<seq<Byte>>>)
    requires Lodged(pool, heads, chains, keys, data, base)
    modifies pool, pool.freeList
    ensures Lodged(pool, heads', chains', keys', if ok then data + [d] else data, base)
    ensures pool.alloced >= old(pool.alloced) && (Blocks(|d|) <= |old(pool.freeList)| ==> ok)
    ensures forall b :: b in All(chains') ==> b in All(chains) || b in old(pool.freeList) || fresh(b)
    ensures forall j :: 0 <= j < |pool.freeList| ==> pool.freeList[j] in old(pool.freeList) || fresh(pool.freeList[j])
  {
    hide Leads, Holds, Bytes, Blocks, IsList, Lodges, EachLodges, Lodged, Inside, All, Apart, Set, Pool.Valid, Shaped;
    Parts(pool, heads, chains, keys, data, base);
    EachParts(heads, chains, keys, data);
    var ret;
    ghost var chain, ks, refused;
    ret, chain, ks, refused := pool.Store(d, |d|);
    forall i | 0 <= i < |chains| ensures Written(chains[i], keys[i]) {
      assert old(Written(chains[i], keys[i]));
      assert forall j :: 0 <= j < |chains[i]| ==> chains[i][j] in chains[i] && chains[i][j] !in old(pool.freeList);
    }
    EachAgain(heads, chains, keys, data);
    ok := ret != null || d == [];
    heads', chains', keys' := heads, chains, keys;
    if ok {
      assert d[..|d|] == d;
      LodgesIs(ret, chain, ks, d);
      EachSnoc(heads, chains, keys, data, ret, chain, ks, d);
      AllSnoc(chains, chain);
      ApartSnoc(chains, chain);
      InSet(chain);
      Again(pool, heads + [ret], chains + [chain], keys + [ks], data + [d], base);
      heads', chains', keys' := heads + [ret], chains + [chain], keys + [ks];
    } else {
      Again(pool, heads, chains, keys, data, base);
    }
  }

  lemma {:induction false} EachParts(heads: seq<Block?>, chains: seq<seq<Block>>, keys: seq<seq<seq<Byte>>>, data: seq<seq<Byte>>)
    requires EachLodges(heads, chains, keys, data)
    ensures forall i :: 0 <= i < |chains| ==> Written(chains[i], keys[i]) && Shaped(heads[i], chains[i], keys[i], data[i])
    ensures forall i, b :: 0 <= i < |chains| && b in chains[i] ==> b in All(chains)
  {
    hide Shaped, Written, All;
    forall i | 0 <= i < |chains| ensures Written(chains[i], keys[i]) && Shaped(heads[i], chains[i], keys[i], data[i]) && Inside(chains, i) {
      assert Inside(chains, i) && Lodges(heads[i], chains[i], keys[i], data[i]);
    }
  }

  lemma {:induction false} EachAgain(heads: seq<Block?>, chains: seq<seq<Block>>, keys: seq<seq<seq<Byte>>>, data: seq<seq<Byte>>)
    requires |heads| == |chains| == |keys| == |data|
    requires forall i :: 0 <= i < |chains| ==> Written(chains[i], keys[i]) && Shaped(heads[i], chains[i], keys[i], data[i])
    ensures EachLodges(heads, chains, keys, data)
  {
    hide Shaped, Written, All;
    InsideAll(chains);
  }

  lemma {:induction false} Parts(pool: Pool, heads: seq<Block?>, chains: seq<seq<Block>>, keys: seq<seq<seq<Byte>>>, data: seq<seq<Byte>>, base: set<Block>)
    requires Lodged(pool, heads, chains, keys, data, base)
    ensures pool.Valid() && EachLodges(heads, chains, keys, data) && Apart(chains) && |heads| == |chains| == |keys| == |data|
    ensures All(chains) !! base && pool.taken == base + All(chains) && forall b :: b in pool.freeList ==> b !in All(chains)
  {
    hide Lodges, Inside, All, Apart;
  }

  lemma {:induction false} Again(pool: Pool, heads: seq<Block?>, chains: seq<seq<Block>>, keys: seq<seq<seq<Byte>>>, data: seq<seq<Byte>>, base: set<Block>)
    requires pool.Valid() && EachLodges(heads, chains, keys, data) && Apart(chains)
    requires All(chains) !! base && pool.taken == base + All(chains)
    ensures Lodged(pool, heads, chains, keys, data, base)
  {}

  method GiveOne(pool: Pool, k: nat, heads: seq<Block?>, ghost chains: seq<seq<Block>>, ghost keys: seq<seq<seq<Byte>>>, ghost data: seq<seq<Byte>>, ghost base: set<Block>)
    returns (heads': seq<Block?>, ghost chains': seq<seq<Block>>, ghost keys': seq<seq<seq<Byte>>>)
    requires Lodged(pool, heads, chains, keys, data, base) && k < |heads|
    modifies pool, chains[k]
    ensures Lodged(pool, heads', chains', keys', Cut(data, k), base) && pool.alloced == old(pool.alloced)
    ensures All(chains') <= All(chains)
    ensures forall j :: 0 <= j < |pool.freeList| ==> pool.freeList[j] in All(chains) || pool.freeList[j] in old(pool.freeList)
  {
    hide Leads, Holds, Bytes, Blocks, IsList, Lodges, EachLodges, Lodged, Inside, All, Set, Pool.Valid, Shaped;
    Parts(pool, heads, chains, keys, data, base);
    EachParts(heads, chains, keys, data);
    ListOf(heads, chains, keys, data, k);
    pool.Release(heads[k], chains[k]);
    forall i | 0 <= i < |chains| && i != k ensures Written(chains[i], keys[i]) {
      assert old(Written(chains[i], keys[i]));
      assert forall j :: 0 <= j < |chains[i]| ==> chains[i][j] in chains[i] && chains[i][j] !in chains[k];
    }
    EachCut(heads, chains, keys, data, k);
    AllCut(chains, k);
    InSet(chains[k]);
    heads', chains', keys' := Cut(heads, k), Cut(chains, k), Cut(keys, k);
    Again(pool, heads', chains', keys', Cut(data, k), base);
  }

  lemma {:induction false} ListOf(heads: seq<Block?>, chains: seq<seq<Block>>, keys: seq<seq<seq<Byte>>>, data: seq<seq<Byte>>, k: nat)
    requires EachLodges(heads, chains, keys, data) && k < |chains|
    ensures IsList(heads[k], chains[k])
  {
    hide Lodges, All, Leads, Holds, Bytes, Blocks;
    assert Inside(chains, k) && Lodges(heads[k], chains[k], keys[k], data[k]);
    LodgesIs(heads[k], chains[k], keys[k], data[k]);
  }

  // ---------- any sequence ----------

  lemma {:induction false} Nobody(pool: Pool)
    requires pool.Valid()
    ensures Lodged(pool, [], [], [], [], pool.taken)
  {
    assert All([]) == {};
  }

  lemma {:induction false} RemainingNext(cmds: seq<Cmd>, i: nat, ok: seq<bool>, o: bool)
    requires i < |cmds| && |ok| == i
    ensures cmds[..i + 1][..i] == cmds[..i] && (ok + [o])[..i] == ok
    ensures var before := Remaining(cmds[..i], ok);
      Remaining(cmds[..i + 1], ok + [o]) == match cmds[i] {
        case Keep(d) => if o then before + [d] else before
        case Give(k) => Cut(before, k) }
  {
    assert cmds[..i + 1][..i] == cmds[..i] && (ok + [o])[..i] == ok;
  }

  // The `i`th command is a store that `n` blocks would have room for, beside what is
  // kept then.
  ghost predicate RoomFor(cmds: seq<Cmd>, ok: seq<bool>, i: nat, n: int) {
    i < |cmds| && i <= |ok| && cmds[i].Keep? && Sum(Remaining(cmds[..i], ok[..i])) + Blocks(|cmds[i].data|) <= n
  }

  lemma {:induction false} RoomSame(cmds: seq<Cmd>, ok: seq<bool>, o: bool, i: nat, n: int)
    requires i <= |ok|
    ensures RoomFor(cmds, ok + [o], i, n) <==> RoomFor(cmds, ok, i, n)
  {
    hide Sum, Remaining, Blocks;
    assert (ok + [o])[..i] == ok[..i];
  }

  // After any stores and releases what is kept is kept in chains that share no block,
  // and the pool counts their blocks. A store that the blocks of the pool have room for
  // does not fail.
  method Serve(pool: Pool, cmds: seq<Cmd>)
    returns (ok: seq<bool>, heads: seq<Block?>, ghost chains: seq<seq<Block>>, ghost keys: seq<seq<seq<Byte>>>)
    requires pool.Valid()
    modifies pool, pool.freeList
    ensures |ok| == |cmds| && Lodged(pool, heads, chains, keys, Remaining(cmds, ok), old(pool.taken))
    ensures pool.count == old(pool.count) + Sum(Remaining(cmds, ok)) && pool.alloced >= old(pool.alloced)
    ensures forall i: nat :: RoomFor(cmds, ok, i, old(pool.alloced) - old(pool.count)) ==> ok[i]
  {
    hide Lodged, Pool.Valid, Remaining, Sum, Blocks, RoomFor;
    ok, heads, chains, keys := [], [], [], [];
    Nobody(pool);
    CountIs(pool);
    RemainingNone();
    ghost var room := pool.alloced - pool.count;
    var i := 0;
    while i < |cmds|
      invariant 0 <= i <= |cmds| && |ok| == i && pool.alloced >= old(pool.alloced)
      invariant Lodged(pool, heads, chains, keys, Remaining(cmds[..i], ok), old(pool.taken))
      invariant forall j: nat :: j < i && RoomFor(cmds, ok, j, room) ==> ok[j]
      invariant forall b :: b in All(chains) ==> b in old(pool.freeList) || fresh(b)
      invariant forall j :: 0 <= j < |pool.freeList| ==> pool.freeList[j] in old(pool.freeList) || fresh(pool.freeList[j])
    {
      ghost var data := Remaining(cmds[..i], ok);
      LodgedShape(pool, heads, chains, keys, data, old(pool.taken));
      RoomIs(pool, cmds, ok, i, heads, chains, keys, old(pool.taken), room);
      ghost var fits := RoomFor(cmds, ok, i, room);
      var o := true;
      match cmds[i] {
        case Keep(d) =>
          o, heads, chains, keys := KeepOne(pool, d, heads, chains, keys, data, old(pool.taken));
        case Give(k) =>
          if k < |heads| {
            assert forall j :: 0 <= j < |chains[k]| ==> chains[k][j] in All(chains);
            heads, chains, keys := GiveOne(pool, k, heads, chains, keys, data, old(pool.taken));
          }
      }
      RemainingNext(cmds, i, ok, o);
      forall j: nat | j <= i ensures RoomFor(cmds, ok + [o], j, room) <==> RoomFor(cmds, ok, j, room) {
        RoomSame(cmds, ok, o, j, room);
      }
      ok := ok + [o];
      i := i + 1;
    }
    assert cmds[..i] == cmds;
    RoomBound(cmds, ok, room);
    Counted(pool, heads, chains, keys, Remaining(cmds, ok), old(pool.taken));
  }

  lemma {:induction false} RoomBound(cmds: seq<Cmd>, ok: seq<bool>, n: int)
    ensures forall i: nat :: RoomFor(cmds, ok, i, n) ==> i < |cmds|
  {
    hide Sum, Remaining, Blocks;
  }

  // A store there is room for finds its blocks on the free list.
  lemma {:induction false} RoomIs(pool: Pool, cmds: seq<Cmd>, ok: seq<bool>, i: nat, heads: seq<Block?>, chains: seq<seq<Block>>, keys: seq<seq<seq<Byte>>>, base: set<Block>, room: int)
    requires i < |cmds| && |ok| == i && Lodged(pool, heads, chains, keys, Remaining(cmds[..i], ok), base)
    requires room <= pool.alloced - |base|
    ensures RoomFor(cmds, ok, i, room) ==> cmds[i].Keep? && Blocks(|cmds[i].data|) <= |pool.freeList|
  {
    hide Sum, Remaining, Blocks, EachLodges, Apart, All, Leads;
    assert ok[..i] == ok;
    Counted(pool, heads, chains, keys, Remaining(cmds[..i], ok), base);
  }

  lemma {:induction false} CountIs(pool: Pool)
    requires pool.Valid()
    ensures pool.count == |pool.taken|
  {}

  lemma {:induction false} RemainingNone()
    ensures Remaining([], []) == [] && All([]) == {}
  {}

  lemma {:induction false} LodgedShape(pool: Pool, heads: seq<Block?>, chains: seq<seq<Block>>, keys: seq<seq<seq<Byte>>>, data: seq<seq<Byte>>, base: set<Block>)
    requires Lodged(pool, heads, chains, keys, data, base)
    ensures |heads| == |chains| == |data| && forall i, b :: 0 <= i < |chains| && b in chains[i] ==> b in All(chains)
  {}

  // The blocks taken are counted.
  lemma {:induction false} Counted(pool: Pool, heads: seq<Block?>, chains: seq<seq<Block>>, keys: seq<seq<seq<Byte>>>, data: seq<seq<Byte>>, base: set<Block>)
    requires Lodged(pool, heads, chains, keys, data, base)
    ensures pool.count == |base| + Sum(data)
  {
    hide Leads, Holds, Bytes, Blocks;
    forall i | 0 <= i < |chains| ensures Distinct(chains[i]) && |chains[i]| == Blocks(|data[i]|) {
      assert Lodges(heads[i], chains[i], keys[i], data[i]);
    }
    Sized(chains, data);
  }

  lemma {:induction false} Sized(chains: seq<seq<Block>>, data: seq<seq<Byte>>)
    requires |chains| == |data| && Apart(chains) && forall i :: 0 <= i < |chains| ==> Distinct(chains[i]) && |chains[i]| == Blocks(|data[i]|)
    ensures |All(chains)| == Sum(data)
    decreases |chains|
  {
    hide Blocks, Distinct;
    if chains == [] {
      assert All(chains) == {};
    } else {
      var n := |chains| - 1;
      Sized(chains[..n], data[..n]);
      assert chains == chains[..n] + [chains[n]];
      AllSnoc(chains[..n], chains[n]);
      SetSize(chains[n]);
      forall b | b in All(chains[..n]) ensures b !in Set(chains[n]) {
        var i :| 0 <= i < n && b in chains[..n][i];
        assert chains[..n][i] == chains[i];
      }
    }
  }
}
