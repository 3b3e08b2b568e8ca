/**
 The pool of fixed-size blocks in src/blockdata.c. Data of any length is kept in
 a chain of blocks taken from a free list, which grows by 50 blocks at a time.
 */
module BlockPool {
  import opened Names

  const KEYBLOCK_LEN: nat := 40

  class Block {
    var key: seq<Byte>
    var next: Block?

    constructor ()
      ensures next == null && |key| == KEYBLOCK_LEN
    {
      key := seq(KEYBLOCK_LEN, _ => 0);
      next := null;
    }
  }

  ghost predicate Distinct(s: seq<Block>) {
    forall i, j :: 0 <= i < j < |s| ==> s[i] != s[j]
  }

  ghost function First(s: seq<Block>): Block? {
    if s == [] then null else s[0]
  }

  ghost function Succ(s: seq<Block>, i: nat, end: Block?): Block? {
    if i + 1 < |s| then s[i + 1] else end
  }

  // The `next` fields lead through the blocks of `s` and on to `end`.
  ghost predicate Leads(s: seq<Block>, end: Block?)
    reads s
  {
    && Distinct(s)
    && (forall i :: 0 <= i < |s| ==> s[i].next == Succ(s, i, end))
    && (forall i :: 0 <= i < |s| ==> |s[i].key| == KEYBLOCK_LEN)
  }

  ghost predicate IsList(head: Block?, s: seq<Block>)
    reads s
  {
    head == First(s) && Leads(s, null)
  }

  lemma {:induction false} Join(a: seq<Block>, s: seq<Block>, end: Block?)
    requires Leads(a, First(s)) && Leads(s, end) && forall b :: b in a ==> b !in s
    requires s == [] ==> end == null
    ensures Leads(a + s, end)
  {
    var t := a + s;
    forall i | 0 <= i < |t| ensures t[i].next == Succ(t, i, end) {
      if i < |a| {
        assert t[i] == a[i] && (i + 1 < |a| ==> t[i + 1] == a[i + 1]) && (i + 1 == |a| && s != [] ==> t[i + 1] == s[0]);
      } else {
        assert t[i] == s[i - |a|] && (i + 1 < |t| ==> t[i + 1] == s[i + 1 - |a|]);
      }
    }
    forall i, j | 0 <= i < j < |t| ensures t[i] != t[j] {
      assert i >= |a| ==> t[i] == s[i - |a|];
      assert j >= |a| ==> t[j] == s[j - |a|];
      assert i < |a| <= j ==> t[i] in a && t[j] in s;
    }
  }

  ghost function Set(s: seq<Block>): set<Block> {
    set b | b in s
  }

  lemma {:induction false} SetSize(s: seq<Block>)
    requires Distinct(s)
    ensures |Set(s)| == |s|
  {
    if s != [] {
      SetSize(s[1..]);
      assert Set(s) == Set(s[1..]) + {s[0]};
    }
  }

  function Blocks(len: nat): nat {
    (len + KEYBLOCK_LEN - 1) / KEYBLOCK_LEN
  }

  // The blocks of `s` hold the keys, in order.
  ghost predicate Holds(s: seq<Block>, keys: seq<seq<Byte>>)
    reads s
  {
    && |keys| == |s|
    && (forall i :: 0 <= i < |s| ==> s[i].key == keys[i])
    && (forall i :: 0 <= i < |keys| ==> |keys[i]| == KEYBLOCK_LEN)
  }

  function Max(a: nat, b: nat): nat {
    if a < b then b else a
  }

  function Part(len: nat): nat {
    if len > KEYBLOCK_LEN then KEYBLOCK_LEN else len
  }

  // `len` bytes read from the keys: whole blocks, then a part of one.
  function Bytes(keys: seq<seq<Byte>>, len: nat): seq<Byte>
    requires forall i :: 0 <= i < |keys| ==> |keys[i]| == KEYBLOCK_LEN
  {
    if keys == [] || len == 0 then []
    else keys[0][..Part(len)] + Bytes(keys[1..], len - Part(len))
  }

  lemma {:induction false} BytesSnoc(keys: seq<seq<Byte>>, key: seq<Byte>, part: nat)
    requires (forall i :: 0 <= i < |keys| ==> |keys[i]| == KEYBLOCK_LEN) && |key| == KEYBLOCK_LEN && 0 < part <= KEYBLOCK_LEN
    ensures var len := KEYBLOCK_LEN * |keys|;
      (forall i :: 0 <= i < |keys + [key]| ==> |(keys + [key])[i]| == KEYBLOCK_LEN) &&
      Bytes(keys + [key], len + part) == Bytes(keys, len) + key[..part]
  {
    if keys == [] {
      assert keys + [key] == [key] && Bytes([key][1..], 0) == [];
    } else {
      BytesSnoc(keys[1..], key, part);
      assert (keys + [key])[1..] == keys[1..] + [key];
    }
  }

  lemma {:induction false} RestOfList(head: Block?, s: seq<Block>)
    requires IsList(head, s) && head != null
    ensures s == [head] + s[1..] && IsList(head.next, s[1..]) && head in s && head !in s[1..] && |head.key| == KEYBLOCK_LEN
  {}

  // One step of reading a chain.
  lemma {:induction false} BytesStep(keys: seq<seq<Byte>>, k: nat, left: nat)
    requires k < |keys| && left > 0 && forall i :: 0 <= i < |keys| ==> |keys[i]| == KEYBLOCK_LEN
    ensures Bytes(keys[k..], left) == keys[k][..Part(left)] + Bytes(keys[k + 1..], left - Part(left))
  {
    assert keys[k..][0] == keys[k] && keys[k..][1..] == keys[k + 1..];
  }

  lemma {:induction false} NoBytes(keys: seq<seq<Byte>>, left: nat)
    requires (forall i :: 0 <= i < |keys| ==> |keys[i]| == KEYBLOCK_LEN) && (left == 0 || keys == [])
    ensures Bytes(keys, left) == []
  {}

  class Pool {
    var free: Block?      // keyblock_free
    var count: nat        // blockdata_count
    var hwm: nat          // blockdata_hwm
    var alloced: nat      // blockdata_alloced
    ghost var freeList: seq<Block>
    ghost var taken: set<Block>

    // Every block ever allocated is on the free list or has been taken.
    ghost predicate Valid()
      reads this, freeList
    {
      && IsList(free, freeList)
      && (forall b :: b in freeList ==> b !in taken)
      && |taken| == count && |freeList| + count == alloced && count <= hwm <= alloced
    }

    // blockdata_init without DNSSEC
    constructor ()
      ensures Valid() && freeList == [] && taken == {} && count == hwm == alloced == 0
    {
      free, count, hwm, alloced := null, 0, 0, 0;
      freeList, taken := [], {};
    }

    // What whine_malloc may give for `n` blocks: nothing, or new memory.
    static method Malloc(n: nat) returns (ok: bool, a: seq<Block>)
      ensures ok ==> |a| == n && Distinct(a) && fresh(a) && forall i :: 0 <= i < n ==> |a[i].key| == KEYBLOCK_LEN
    {
      ok := *;
      a := [];
      var i := 0;
      while i < n
        invariant 0 <= i <= n && |a| == i && Distinct(a) && fresh(a)
        invariant forall j :: 0 <= j < i ==> |a[j].key| == KEYBLOCK_LEN
      {
        var b := new Block();
        a := a + [b];
        i := i + 1;
      }
    }

    // blockdata_expand: the new blocks are chained up in front of the free list.
    method Expand(n: nat) returns (ok: bool)
      requires Valid() && n > 0
      modifies this
      ensures Valid() && taken == old(taken) && count == old(count) && hwm == old(hwm)
      ensures if ok then alloced == old(alloced) + n && freeList[n..] == old(freeList) else alloced == old(alloced) && freeList == old(freeList)
      ensures forall i :: 0 <= i < |freeList| ==> freeList[i] in old(freeList) || fresh(freeList[i])
    {
      hide Leads;
      var a;
      ok, a := Malloc(n);
      if ok {
        assert a[0] in a;
        ChainUp(a, free);
        free := a[0];
        alloced := alloced + n;
        Join(a, freeList, null);
        freeList := a + freeList;
      }
    }

    // The loop of blockdata_expand.
    static method ChainUp(a: seq<Block>, end: Block?)
      requires a != [] && Distinct(a) && forall i :: 0 <= i < |a| ==> |a[i].key| == KEYBLOCK_LEN
      modifies a
      ensures Leads(a, end)
    {
      a[|a| - 1].next := end;
      var i := 0;
      while i < |a| - 1
        invariant 0 <= i <= |a| - 1
        invariant forall j :: 0 <= j < i ==> a[j].next == Succ(a, j, end)
        invariant a[|a| - 1].next == end
        invariant forall j :: 0 <= j < |a| ==> |a[j].key| == KEYBLOCK_LEN
      {
        a[i].next := a[i + 1];
        i := i + 1;
      }
    }

    // The walk of blockdata_free to the end of the chain.
    method CountDown(blocks: Block, ghost chain: seq<Block>) returns (tmp: Block)
      requires IsList(blocks, chain) && |chain| <= count
      modifies this`count
      ensures tmp == chain[|chain| - 1] && count == old(count) - (|chain| - 1)
    {
      ghost var k := 0;
      tmp := blocks;
      while tmp.next != null
        invariant 0 <= k < |chain| && tmp == chain[k] && count == old(count) - k
        decreases |chain| - k
      {
        count := count - 1;
        tmp := tmp.next;
        k := k + 1;
      }
    }

    // blockdata_free: the chain is put back in front of the free list.
    method Release(blocks: Block?, ghost chain: seq<Block>)
      requires Valid() && IsList(blocks, chain) && forall b :: b in chain ==> b in taken
      modifies this, chain
      ensures Valid() && freeList == chain + old(freeList) && alloced == old(alloced) && hwm == old(hwm)
      ensures taken == old(taken) - Set(chain)
    {
      hide Leads, Set;
      Sizes(taken, chain, freeList);
      if blocks != null {
        var tmp := CountDown(blocks, chain);
        Attach(tmp, free, chain, freeList);
        free := blocks;
        count := count - 1;
        freeList := chain + freeList;
        taken := taken - Set(chain);
      } else {
        assert chain == [] && chain + freeList == freeList;
      }
    }

    // A block from the free list, which is refilled if it is empty. There is none only
    // if the list was empty and could not be refilled.
    method Take() returns (block: Block?, ghost refused: bool)
      requires Valid()
      modifies this
      ensures Valid() && (block == null <==> refused) && (refused ==> old(freeList) == [])
      ensures alloced == old(alloced) + if old(freeList) == [] && !refused then 50 else 0
      ensures forall i :: 0 <= i < |freeList| ==> freeList[i] in old(freeList) || fresh(freeList[i])
      ensures refused ==> freeList == [] && taken == old(taken) && hwm == old(hwm)
      ensures !refused ==>
        && taken == old(taken) + {block} && block !in old(taken) && |block.key| == KEYBLOCK_LEN
        && block !in freeList && (block in old(freeList) || fresh(block)) && hwm == Max(old(hwm), count)
    {
      refused := false;
      if free == null {
        var ok := Expand(50);
        refused := !ok;
      }
      block := free;
      if free != null {
        assert free in freeList;
        ghost var before := freeList;
        Pop();
        assert forall i :: 0 <= i < |freeList| ==> freeList[i] == before[i + 1];
      }
    }

    method Pop()
      requires Valid() && free != null
      modifies this
      ensures Valid() && alloced == old(alloced) && hwm == Max(old(hwm), count)
      ensures old(freeList) == [old(free)] + freeList && taken == old(taken) + {old(free)}
      ensures old(free) !in old(taken) && old(free) !in freeList && |old(free).key| == KEYBLOCK_LEN
    {
      hide Leads;
      RestOfList(free, freeList);
      taken := taken + {free};
      freeList := freeList[1..];
      free := free.next;
      count := count + 1;
      if hwm < count {
        hwm := count;
      }
    }

    // *prev = block; block->next = NULL, after the key was filled in.
    static method Append(ret: Block?, prev: Block?, block: Block, part: seq<Byte>, ghost chain: seq<Block>, ghost keys: seq<seq<Byte>>)
      returns (ret': Block, ghost key: seq<Byte>)
      requires IsList(ret, chain) && Holds(chain, keys) && block !in chain && |block.key| == KEYBLOCK_LEN && |part| <= KEYBLOCK_LEN
      requires prev == if chain == [] then null else chain[|chain| - 1]
      modifies block, prev
      ensures IsList(ret', chain + [block]) && Holds(chain + [block], keys + [key]) && |key| == KEYBLOCK_LEN && key[..|part|] == part
    {
      key := part + block.key[|part|..];
      block.key := part + block.key[|part|..];
      block.next := null;
      ret' := block;
      if prev != null {
        prev.next := block;
        ret' := ret;
      }
      ghost var t := chain + [block];
      forall i | 0 <= i < |t| ensures t[i].next == Succ(t, i, null) {
        assert i < |chain| ==> t[i] == chain[i] && old(chain[i].next) == Succ(chain, i, null);
      }
    }

    // A chain being built: it holds `done` bytes, in full blocks.
    ghost predicate Building(ret: Block?, prev: Block?, chain: seq<Block>, keys: seq<seq<Byte>>, base: set<Block>)
      reads this, freeList, chain
    {
      && Valid() && IsList(ret, chain) && Holds(chain, keys)
      && prev == (if chain == [] then null else chain[|chain| - 1])
      && (forall b :: b in chain ==> b !in base && b !in freeList)
      && taken == base + Set(chain)
    }

    lemma {:induction false} Begin()
      requires Valid()
      ensures IsList(null, []) && Holds([], []) && Building(null, null, [], [], taken) && Blocks(0) == 0 && Bytes([], 0) == []
      ensures |freeList| + |taken| == alloced && count == |taken| && hwm == Max(hwm, count)
    {}

    lemma {:induction false} Built(ret: Block?, prev: Block?, chain: seq<Block>, keys: seq<seq<Byte>>, base: set<Block>)
      requires Building(ret, prev, chain, keys, base)
      ensures Valid() && IsList(ret, chain) && Holds(chain, keys) && taken == base + Set(chain) && Set(chain) !! base
      ensures IsList(null, []) && Holds([], []) && (chain != [] ==> ret != null) && count == |base| + |chain|
    {
      BuildingSizes(ret, prev, chain, keys, base);
    }

    // The blocks of the pool are free, of the chain, or were taken before.
    lemma {:induction false} BuildingSizes(ret: Block?, prev: Block?, chain: seq<Block>, keys: seq<seq<Byte>>, base: set<Block>)
      requires Building(ret, prev, chain, keys, base)
      ensures count == |base| + |chain| && |freeList| + |base| + |chain| == alloced
    {
      hide Leads, Holds;
      assert Distinct(chain) by { ListDistinct(ret, chain); }
      SetSize(chain);
      assert base !! Set(chain);
    }

    // A block has been taken for the chain and is not yet on it.
    ghost predicate Loose(ret: Block?, prev: Block?, block: Block, chain: seq<Block>, keys: seq<seq<Byte>>, base: set<Block>)
      reads this, freeList, chain, block
    {
      && Valid() && IsList(ret, chain) && Holds(chain, keys)
      && prev == (if chain == [] then null else chain[|chain| - 1])
      && (forall b :: b in chain ==> b !in base && b !in freeList)
      && taken == base + Set(chain) + {block}
      && block !in base && block !in chain && block !in freeList && |block.key| == KEYBLOCK_LEN
    }

    method Reserve(ghost ret: Block?, ghost prev: Block?, ghost chain: seq<Block>, ghost keys: seq<seq<Byte>>, ghost base: set<Block>)
      returns (block: Block?, ghost refused: bool)
      requires Building(ret, prev, chain, keys, base)
      modifies this
      ensures (block == null <==> refused) && alloced >= old(alloced)
      ensures refused ==> freeList == [] && alloced == |base| + |chain|
      ensures !refused ==> hwm == Max(old(hwm), |base| + |chain| + 1) && (alloced == old(alloced) || old(alloced) == |base| + |chain|)
      ensures forall i :: 0 <= i < |freeList| ==> freeList[i] in old(freeList) || fresh(freeList[i])
      ensures refused ==> Building(ret, prev, chain, keys, base)
      ensures !refused ==> Loose(ret, prev, block, chain, keys, base) && (block in old(freeList) || fresh(block))
    {
      hide Leads, Holds, Bytes;
      BuildingSizes(ret, prev, chain, keys, base);
      block, refused := Take();
    }

    method Enchain(ret: Block?, prev: Block?, block: Block, part: seq<Byte>, ghost chain: seq<Block>, ghost keys: seq<seq<Byte>>, ghost base: set<Block>)
      returns (ret': Block?, ghost key: seq<Byte>)
      requires Loose(ret, prev, block, chain, keys, base) && |part| <= KEYBLOCK_LEN
      modifies block, prev
      ensures Building(ret', block, chain + [block], keys + [key], base)
      ensures |key| == KEYBLOCK_LEN && key[..|part|] == part
    {
      hide Leads, Holds, Set, IsList;
      assert prev != null ==> prev in chain;
      ret', key := Append(ret, prev, block, part, chain, keys);
      assert Valid();
      Enchained(ret', block, chain, keys + [key], base);
    }

    lemma {:induction false} Enchained(ret: Block?, block: Block, chain: seq<Block>, keys: seq<seq<Byte>>, base: set<Block>)
      requires Valid() && IsList(ret, chain + [block]) && Holds(chain + [block], keys)
      requires forall b :: b in chain ==> b !in base && b !in freeList
      requires taken == base + Set(chain) + {block} && block !in base && block !in freeList
      ensures Building(ret, block, chain + [block], keys, base)
    {
      hide Leads, Holds, IsList, Valid;
      SetSnoc(chain, block);
    }

    // One more block for the chain, with `part` as its data.
    method More(ret: Block?, prev: Block?, part: seq<Byte>, ghost chain: seq<Block>, ghost keys: seq<seq<Byte>>, ghost base: set<Block>)
      returns (block: Block?, ret': Block?, ghost key: seq<Byte>, ghost refused: bool)
      requires Building(ret, prev, chain, keys, base) && |part| <= KEYBLOCK_LEN
      modifies this, freeList, chain
      ensures (block == null <==> refused) && alloced >= old(alloced)
      ensures refused ==> freeList == [] && alloced == |base| + |chain|
      ensures !refused ==> hwm == Max(old(hwm), |base| + |chain| + 1) && (alloced == old(alloced) || old(alloced) == |base| + |chain|)
      ensures forall i :: 0 <= i < |freeList| ==> freeList[i] in old(freeList) || fresh(freeList[i])
      ensures refused ==> Building(ret, prev, chain, keys, base)
      ensures !refused ==>
        && Building(ret', block, chain + [block], keys + [key], base)
        && |key| == KEYBLOCK_LEN && key[..|part|] == part && (block in old(freeList) || fresh(block))
    {
      ret', key := ret, [];
      assert prev != null ==> prev in chain;
      hide Building, Loose, Leads, Holds, IsList, Valid, Max, Set;
      block, refused := Reserve(ret, prev, chain, keys, base);
      if block != null {
        ret', key := Enchain(ret, prev, block, part, chain, keys, base);
      }
    }

    // blockdata_alloc_real: the data comes from memory, or is what can be read
    // from a descriptor, which may be less than `len`. If it is not less, the store
    // fails only if the pool could not be expanded once all free blocks were used, and
    // they were too few; if they are enough, the pool is not expanded at all.
    method Store(input: seq<Byte>, len: nat) returns (ret: Block?, ghost chain: seq<Block>, ghost keys: seq<seq<Byte>>, ghost refused: bool)
      requires Valid()
      modifies this, freeList
      ensures Valid() && alloced >= old(alloced) && IsList(ret, chain) && Holds(chain, keys)
      ensures (ret != null || len == 0) <==> len <= |input| && !refused
      ensures refused ==> |old(freeList)| < Blocks(len)
      ensures Blocks(len) <= |old(freeList)| && len <= |input| ==> alloced == old(alloced)
      ensures ret != null || len == 0 ==>
        && |chain| == Blocks(len) && Bytes(keys, len) == input[..len]
        && taken == old(taken) + Set(chain) && Set(chain) !! old(taken) && hwm == Max(old(hwm), count)
      ensures ret == null && len > 0 ==>
        && old(taken) <= taken && |taken| == |old(taken)| + (if refused then 0 else 1)
        && (refused ==> taken == old(taken) && |freeList| < Blocks(len))
      ensures forall i :: 0 <= i < |chain| ==> chain[i] in old(freeList) || fresh(chain[i])
      ensures forall i :: 0 <= i < |freeList| ==> freeList[i] in old(freeList) || fresh(freeList[i])
    {
      hide Leads, Set, Holds, Building, Blocks, Bytes, IsList, Valid, Max, Part;
      ret, chain, keys, refused := null, [], [], false;
      Begin();
      var prev: Block? := null;
      var left, done := len, 0;
      while left > 0
        invariant 0 <= left && left + done == len && done <= |input| && alloced >= old(alloced)
        invariant left > 0 ==> done == KEYBLOCK_LEN * |chain|
        invariant |chain| == Blocks(done) && (done > 0 ==> chain != []) && !refused
        invariant alloced == old(alloced) || |old(freeList)| < |chain|
        invariant hwm == Max(old(hwm), old(count) + |chain|)
        invariant Building(ret, prev, chain, keys, old(taken))
        invariant (forall i :: 0 <= i < |keys| ==> |keys[i]| == KEYBLOCK_LEN) && |keys| == |chain| && Bytes(keys, done) == input[..done]
        invariant forall i :: 0 <= i < |chain| ==> chain[i] in old(freeList) || fresh(chain[i])
        invariant forall i :: 0 <= i < |freeList| ==> freeList[i] in old(freeList) || fresh(freeList[i])
      {
        var part := Part(left);
        PartOf(left);
        MaxOf(old(hwm), old(count) + |chain|);
        BlocksMore(len, |chain|);
        if |input| < done + part {
          refused := Lose(ret, prev, chain, keys, old(taken));
          ret, chain, keys := null, [], [];
          return;
        }
        ghost var key;
        var block, ret';
        block, ret', key, refused := More(ret, prev, input[done..done + part], chain, keys, old(taken));
        if block == null {
          GiveUp(ret, prev, chain, keys, old(taken));
          ret, chain, keys := null, [], [];
          return;
        }
        NextPart(input, done, part, keys, key);
        ret, prev := ret', block;
        chain, keys := chain + [block], keys + [key];
        left, done := left - part, done + part;
      }
      Built(ret, prev, chain, keys, old(taken));
    }

    // No block for the next part: the chain is given back.
    method GiveUp(ret: Block?, ghost prev: Block?, ghost chain: seq<Block>, ghost keys: seq<seq<Byte>>, ghost base: set<Block>)
      requires Building(ret, prev, chain, keys, base)
      modifies this, chain
      ensures Valid() && alloced == old(alloced) && taken == base && freeList == chain + old(freeList)
    {
      hide Leads, Holds, IsList, Set;
      Built(ret, prev, chain, keys, base);
      InSet(chain);
      Release(ret, chain);
    }

    // The read of the next part fails: a block has been taken for it, which is
    // not on the chain that is given back.
    method Lose(ret: Block?, ghost prev: Block?, ghost chain: seq<Block>, ghost keys: seq<seq<Byte>>, ghost base: set<Block>)
      returns (ghost refused: bool)
      requires Building(ret, prev, chain, keys, base)
      modifies this, chain
      ensures Valid() && alloced >= old(alloced) && base <= taken && |taken| == |base| + if refused then 0 else 1
      ensures refused ==> old(alloced) == |base| + |chain| && freeList == chain && taken == base
      ensures forall i :: 0 <= i < |freeList| ==> freeList[i] in chain || freeList[i] in old(freeList) || fresh(freeList[i])
    {
      hide Leads, Holds, IsList, Set;
      InSet(chain);
      Built(ret, prev, chain, keys, base);
      var block;
      block, refused := Reserve(ret, prev, chain, keys, base);
      Release(ret, chain);
      assert taken == if refused then base else base + {block};
    }

    // blockdata_retrieve into the caller's buffer, and blockdata_write
    static method Fetch(block: Block?, len: nat, ghost chain: seq<Block>, ghost keys: seq<seq<Byte>>) returns (data: seq<Byte>)
      requires IsList(block, chain) && Holds(chain, keys)
      ensures data == Bytes(keys, len)
    {
      hide Bytes;
      data := [];
      var b, left := block, len;
      ghost var k := 0;
      assert keys[0..] == keys;
      while left > 0 && b != null
        invariant 0 <= left && 0 <= k <= |chain| && b == (if k < |chain| then chain[k] else null)
        invariant data + Bytes(keys[k..], left) == Bytes(keys, len)
        decreases |chain| - k
      {
        var part := if left > KEYBLOCK_LEN then KEYBLOCK_LEN else left;
        BytesStep(keys, k, left);
        data := data + b.key[..part];
        left := left - part;
        b := b.next;
        k := k + 1;
      }
      NoBytes(keys[k..], left);
    }

    // Storing and fetching: the data comes back whenever there was room for it.
    method StoreAndFetch(d: seq<Byte>) returns (stored: bool, e: seq<Byte>)
      requires Valid()
      modifies this, freeList
      ensures Valid() && (stored ==> e == d) && (!stored ==> d != [] && taken == old(taken))
      ensures Blocks(|d|) <= |old(freeList)| ==> stored && alloced == old(alloced)
    {
      ghost var chain, keys, refused;
      var ret;
      ret, chain, keys, refused := Store(d, |d|);
      stored := ret != null || d == [];
      e := Fetch(ret, |d|, chain, keys);
      assert d[..|d|] == d;
    }

    // blockdata_write down a pipe and blockdata_read at the other end, into
    // another pool.
    method SendAndReceive(block: Block?, len: nat, ghost chain: seq<Block>, ghost keys: seq<seq<Byte>>, peer: Pool)
      returns (ret: Block?, ghost chain': seq<Block>, ghost keys': seq<seq<Byte>>, ghost refused: bool)
      requires IsList(block, chain) && Holds(chain, keys) && |chain| == Blocks(len) && peer.Valid()
      modifies peer, peer.freeList
      ensures peer.Valid() && IsList(ret, chain') && Holds(chain', keys')
      ensures (ret != null || len == 0) <==> !refused
      ensures refused ==> |old(peer.freeList)| < |chain| && peer.taken == old(peer.taken)
      ensures !refused ==> |chain'| == |chain| && Bytes(keys', len) == Bytes(keys, len)
    {
      var pipe := Fetch(block, len, chain, keys);
      BytesLength(keys, len);
      ret, chain', keys', refused := peer.Store(pipe, len);
      assert pipe[..len] == pipe;
    }

    // The last block of one list is made to lead to another list.
    static method Attach(tmp: Block, front: Block?, ghost chain: seq<Block>, ghost s: seq<Block>)
      requires Leads(chain, null) && chain != [] && tmp == chain[|chain| - 1]
      requires IsList(front, s) && forall b :: b in chain ==> b !in s
      modifies tmp`next
      ensures Leads(chain + s, null)
    {
      tmp.next := front;
      assert tmp in chain;
      forall i | 0 <= i < |chain| ensures chain[i].next == Succ(chain, i, First(s)) {
        assert old(chain[i].next) == Succ(chain, i, null);
      }
      Join(chain, s, null);
    }
  }

  lemma {:induction false} BytesLength(keys: seq<seq<Byte>>, len: nat)
    requires (forall i :: 0 <= i < |keys| ==> |keys[i]| == KEYBLOCK_LEN) && |keys| >= Blocks(len)
    ensures |Bytes(keys, len)| == len
  {
    if len > 0 {
      BytesLength(keys[1..], len - Part(len));
    }
  }

  lemma {:induction false} BlocksNext(n: nat, part: nat)
    requires 0 < part <= KEYBLOCK_LEN
    ensures Blocks(KEYBLOCK_LEN * n + part) == n + 1
  {}

  lemma {:induction false} NextPart(input: seq<Byte>, done: nat, part: nat, keys: seq<seq<Byte>>, key: seq<Byte>)
    requires (forall i :: 0 <= i < |keys| ==> |keys[i]| == KEYBLOCK_LEN) && |key| == KEYBLOCK_LEN && 0 < part <= KEYBLOCK_LEN
    requires done == KEYBLOCK_LEN * |keys| && done + part <= |input| && Bytes(keys, done) == input[..done] && key[..part] == input[done..done + part]
    ensures (forall i :: 0 <= i < |keys + [key]| ==> |(keys + [key])[i]| == KEYBLOCK_LEN) && Blocks(done + part) == |keys + [key]|
    ensures Bytes(keys + [key], done + part) == input[..done + part]
  {
    hide Bytes, Blocks;
    BytesSnoc(keys, key, part);
    BlocksNext(|keys|, part);
    assert input[..done + part] == input[..done] + input[done..done + part];
  }

  lemma {:induction false} BlocksMore(len: nat, n: nat)
    requires KEYBLOCK_LEN * n < len
    ensures n < Blocks(len)
  {}

  lemma {:induction false} PartOf(left: nat)
    requires left > 0
    ensures 0 < Part(left) <= left && Part(left) <= KEYBLOCK_LEN && (Part(left) < left ==> Part(left) == KEYBLOCK_LEN)
  {}

  lemma {:induction false} MaxOf(a: nat, n: nat)
    ensures Max(Max(a, n), n + 1) == Max(a, n + 1) && (n <= a ==> Max(a, n) == a)
  {}

  lemma {:induction false} ListDistinct(head: Block?, s: seq<Block>)
    requires IsList(head, s)
    ensures Distinct(s)
  {}

  lemma {:induction false} SetSnoc(chain: seq<Block>, block: Block)
    ensures Set(chain + [block]) == Set(chain) + {block} && Set([]) == {}
    ensures forall b :: b in Set(chain) <==> b in chain
  {}

  lemma {:induction false} InSet(chain: seq<Block>)
    ensures forall b :: b in Set(chain) <==> b in chain
  {}

  lemma {:induction false} Sizes(taken: set<Block>, chain: seq<Block>, s: seq<Block>)
    requires Leads(chain, null) && (forall b :: b in chain ==> b in taken) && forall b :: b in s ==> b !in taken
    ensures |chain| <= |taken| && |taken - Set(chain)| == |taken| - |chain|
    ensures forall b :: b in chain + s ==> b !in taken - Set(chain)
    ensures forall b :: b in chain ==> b !in s
    ensures chain == [] ==> taken - Set(chain) == taken
  {
    SetSize(chain);
    assert taken == Set(chain) + (taken - Set(chain));
  }
}
