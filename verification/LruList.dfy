/**
 The lists of pool records as src/cache.c keeps them: the LRU list, linked both ways
 between `cache_head` and `cache_tail`, and the uncommitted batch, linked from
 `new_chain`. Both go through the one `next` field that a record has.
 */
module LruList {
  import opened Records
  import opened State

  type Links = map<Id, Option<Id>>

  function To(m: Links, r: Id): Option<Id> {
    if r in m then m[r] else None
  }

  // Entry `i` of a list, or nothing beyond its ends.
  function Entry(l: seq<Id>, i: int): Option<Id> {
    if 0 <= i < |l| then Some(l[i]) else None
  }

  ghost predicate Forward(next: Links, l: seq<Id>) {
    forall i :: 0 <= i < |l| ==> To(next, l[i]) == Entry(l, i + 1)
  }

  ghost predicate Backward(prev: Links, l: seq<Id>) {
    forall i :: 0 <= i < |l| ==> To(prev, l[i]) == Entry(l, i - 1)
  }

  datatype Wires = Wires(head: Option<Id>, tail: Option<Id>, chain: Option<Id>, next: Links, prev: Links)

  ghost predicate Apart(n: nat, lru: seq<Id>, pending: seq<Id>) {
    && NoDup(lru) && NoDup(pending)
    && (forall p: Id :: p in lru ==> p < n && p !in pending) && (forall p: Id :: p in pending ==> p < n)
  }

  // The fields lead through the two lists, and the LRU list also backwards.
  ghost predicate Holds(w: Wires, n: nat, lru: seq<Id>, pending: seq<Id>) {
    && Apart(n, lru, pending)
    && w.head == Entry(lru, 0) && w.tail == Entry(lru, |lru| - 1) && w.chain == Entry(pending, 0)
    && Forward(w.next, lru) && Backward(w.prev, lru) && Forward(w.next, pending)
  }

  // The `next` fields of records outside the pool are as they were.
  ghost predicate Outside(n: nat, next: Links, next': Links) {
    forall r: Id :: n <= r ==> To(next', r) == To(next, r)
  }

  lemma {:induction false} OutsideTrans(n: nat, a: Links, b: Links, c: Links)
    requires Outside(n, a, b) && Outside(n, b, c)
    ensures Outside(n, a, c)
  {
    hide To;
  }

  lemma {:induction false} OutsideBoth(n: nat, a: Links, b: Links, r: Id, to: Option<Id>)
    requires Outside(n, a, b)
    ensures Outside(n, a[r := to], b[r := to])
  {
    var a', b' := a[r := to], b[r := to];
    forall p: Id | n <= p ensures To(b', p) == To(a', p) {
      assert To(b, p) == To(a, p);
    }
  }

  // ---------- the operations ----------

  // cache_link
  function LinkHead(w: Wires, r: Id): Wires {
    Wires(Some(r), if w.tail.None? then Some(r) else w.tail, w.chain, w.next[r := w.head],
          (if w.head.Some? then w.prev[w.head.value := Some(r)] else w.prev)[r := None])
  }

  // The part of cache_free that puts a record at the tail.
  function PutTail(w: Wires, r: Id): Wires {
    Wires(if w.tail.Some? then w.head else Some(r), Some(r), w.chain,
          (if w.tail.Some? then w.next[w.tail.value := Some(r)] else w.next)[r := None], w.prev[r := w.tail])
  }

  // cache_unlink
  function Unlink(w: Wires, r: Id): Wires {
    var p, n := To(w.prev, r), To(w.next, r);
    Wires(if p.Some? then w.head else n, if n.Some? then w.tail else p, w.chain,
          if p.Some? then w.next[p.value := n] else w.next, if n.Some? then w.prev[n.value := p] else w.prev)
  }

  // A record joins the batch, or its head leaves it.
  function PushChain(w: Wires, r: Id): Wires {
    w.(next := w.next[r := w.chain], chain := Some(r))
  }

  function PopChain(w: Wires): Wires
    requires w.chain.Some?
  {
    w.(chain := To(w.next, w.chain.value))
  }

  // ---------- what they do to the lists ----------

  lemma {:induction false} ForwardFrame(next: Links, next': Links, l: seq<Id>)
    requires Forward(next, l) && forall r: Id :: r in l ==> To(next', r) == To(next, r)
    ensures Forward(next', l)
  {
    assert forall i :: 0 <= i < |l| ==> l[i] in l;
  }

  lemma {:induction false} LinkHeadHolds(w: Wires, n: nat, lru: seq<Id>, pending: seq<Id>, r: Id)
    requires Holds(w, n, lru, pending) && r < n && r !in lru && r !in pending
    ensures Holds(LinkHead(w, r), n, [r] + lru, pending) && Outside(n, w.next, LinkHead(w, r).next)
  {
    hide Forward, Backward, NoDup;
    var w' := LinkHead(w, r);
    PushNext(w.next, w'.next, lru, r);
    PushPrev(w.prev, w'.prev, lru, r);
    ForwardFrame(w.next, w'.next, pending);
    assert forall p: Id :: p in [r] + lru <==> p == r || p in lru;
  }

  lemma {:induction false} PutTailHolds(w: Wires, n: nat, lru: seq<Id>, pending: seq<Id>, r: Id)
    requires Holds(w, n, lru, pending) && r < n && r !in lru && r !in pending
    ensures Holds(PutTail(w, r), n, lru + [r], pending) && Outside(n, w.next, PutTail(w, r).next)
  {
    hide Forward, Backward, NoDup;
    var w' := PutTail(w, r);
    AppendNext(w.next, w'.next, lru, r);
    AppendPrev(w.prev, w'.prev, lru, r);
    assert lru != [] ==> lru[|lru| - 1] in lru;
    ForwardFrame(w.next, w'.next, pending);
    assert forall p: Id :: p in lru + [r] <==> p == r || p in lru;
  }

  lemma {:induction false} UnlinkHolds(w: Wires, n: nat, lru: seq<Id>, pending: seq<Id>, r: Id)
    requires Holds(w, n, lru, pending) && r in lru
    ensures Holds(Unlink(w, r), n, Without(lru, r), pending) && Outside(n, w.next, Unlink(w, r).next)
  {
    hide Forward, Backward, Without, NoDup, Cut, Entry, Index;
    var w' := Unlink(w, r);
    var k := Neighbours(w.next, w.prev, lru, r);
    CutNext(w.next, w'.next, lru, k);
    CutPrev(w.prev, w'.prev, lru, k);
    WithoutFacts(lru, r);
    assert k > 0 ==> lru[k - 1] in lru;
    ForwardFrame(w.next, w'.next, pending);
  }

  lemma {:induction false} PushChainHolds(w: Wires, n: nat, lru: seq<Id>, pending: seq<Id>, r: Id)
    requires Holds(w, n, lru, pending) && r < n && r !in lru && r !in pending
    ensures Holds(PushChain(w, r), n, lru, [r] + pending) && Outside(n, w.next, PushChain(w, r).next)
  {
    hide Forward, Backward, NoDup;
    var w' := PushChain(w, r);
    PushNext(w.next, w'.next, pending, r);
    ForwardFrame(w.next, w'.next, lru);
    assert forall p: Id :: p in [r] + pending <==> p == r || p in pending;
  }

  lemma {:induction false} PopNext(next: Links, l: seq<Id>)
    requires Forward(next, l) && NoDup(l) && l != []
    ensures Forward(next, l[1..]) && NoDup(l[1..]) && To(next, l[0]) == Entry(l[1..], 0)
    ensures l[0] in l && l[0] !in l[1..] && forall p: Id :: p in l[1..] ==> p in l
  {
    var rest := l[1..];
    forall i | 0 <= i < |rest| ensures To(next, rest[i]) == Entry(rest, i + 1) && rest[i] in l && rest[i] != l[0] {
      assert rest[i] == l[i + 1];
    }
  }

  lemma {:induction false} PopChainHolds(w: Wires, n: nat, lru: seq<Id>, pending: seq<Id>)
    requires Holds(w, n, lru, pending) && pending != []
    ensures w.chain == Some(pending[0]) && Holds(PopChain(w), n, lru, pending[1..])
    ensures pending[0] < n && pending[0] !in lru && pending[0] !in pending[1..]
  {
    hide Backward, Forward, NoDup;
    PopNext(w.next, pending);
  }

  // A static record is threaded.
  lemma {:induction false} ThreadHolds(w: Wires, n: nat, lru: seq<Id>, pending: seq<Id>, r: Id, to: Option<Id>)
    requires Holds(w, n, lru, pending) && n <= r
    ensures Holds(w.(next := w.next[r := to]), n, lru, pending)
  {
    hide Backward, Forward, NoDup;
    ForwardFrame(w.next, w.next[r := to], lru);
    ForwardFrame(w.next, w.next[r := to], pending);
  }

  // A record's `next` field leads to the record after it in the LRU list.
  lemma {:induction false} NextIs(w: Wires, n: nat, lru: seq<Id>, pending: seq<Id>, r: Id)
    requires Holds(w, n, lru, pending) && r in lru
    ensures To(w.next, r) == if Index(lru, r) + 1 < |lru| then Some(lru[Index(lru, r) + 1]) else None
  {
    hide Backward, NoDup, Index;
    var k := Index(lru, r);
    assert To(w.next, lru[k]) == Entry(lru, k + 1);
  }

  // ---------- how ----------

  lemma {:induction false} PushNext(next: Links, next': Links, l: seq<Id>, r: Id)
    requires Forward(next, l) && r !in l && NoDup(l) && next' == next[r := Entry(l, 0)]
    ensures Forward(next', [r] + l) && NoDup([r] + l)
  {
    var t := [r] + l;
    forall i | 0 <= i < |t| ensures To(next', t[i]) == Entry(t, i + 1) {
      assert i > 0 ==> t[i] == l[i - 1] && To(next, l[i - 1]) == Entry(l, i);
    }
  }

  lemma {:induction false} PushPrev(prev: Links, prev': Links, l: seq<Id>, r: Id)
    requires Backward(prev, l) && r !in l && NoDup(l)
    requires prev' == (if l == [] then prev else prev[l[0] := Some(r)])[r := None]
    ensures Backward(prev', [r] + l)
  {
    var t := [r] + l;
    forall i | 0 <= i < |t| ensures To(prev', t[i]) == Entry(t, i - 1) {
      assert i > 0 ==> t[i] == l[i - 1] && To(prev, l[i - 1]) == Entry(l, i - 2);
    }
  }

  lemma {:induction false} AppendNext(next: Links, next': Links, l: seq<Id>, r: Id)
    requires Forward(next, l) && r !in l && NoDup(l)
    requires next' == (if l == [] then next else next[l[|l| - 1] := Some(r)])[r := None]
    ensures Forward(next', l + [r]) && NoDup(l + [r])
  {
    var t := l + [r];
    forall i | 0 <= i < |t| ensures To(next', t[i]) == Entry(t, i + 1) {
      assert i < |l| ==> t[i] == l[i] && To(next, l[i]) == Entry(l, i + 1);
    }
  }

  lemma {:induction false} AppendPrev(prev: Links, prev': Links, l: seq<Id>, r: Id)
    requires Backward(prev, l) && r !in l && prev' == prev[r := Entry(l, |l| - 1)]
    ensures Backward(prev', l + [r])
  {
    var t := l + [r];
    forall i | 0 <= i < |t| ensures To(prev', t[i]) == Entry(t, i - 1) {
      assert i < |l| ==> t[i] == l[i] && To(prev, l[i]) == Entry(l, i - 1);
    }
  }

  lemma {:induction false} Neighbours(next: Links, prev: Links, l: seq<Id>, r: Id) returns (k: int)
    requires Forward(next, l) && Backward(prev, l) && NoDup(l) && r in l
    ensures 0 <= k < |l| && l[k] == r && Without(l, r) == Cut(l, k) && NoDup(Cut(l, k)) && |Cut(l, k)| == |l| - 1
    ensures To(prev, r) == Entry(l, k - 1) == if k == 0 then None else Some(l[k - 1])
    ensures To(next, r) == Entry(l, k + 1) == if k + 1 == |l| then None else Some(l[k + 1])
    ensures Entry(Cut(l, k), 0) == if k == 0 then Entry(l, 1) else Entry(l, 0)
    ensures Entry(Cut(l, k), |l| - 2) == if k == |l| - 1 then Entry(l, k - 1) else Entry(l, |l| - 1)
  {
    k := Index(l, r);
    assert To(prev, l[k]) == Entry(l, k - 1) && To(next, l[k]) == Entry(l, k + 1);
    CutFacts(l, k);
    CutLength(l, k);
  }

  // Entry `i` and its neighbours once entry `k` is out; it was entry `j`.
  lemma {:induction false} CutAt(l: seq<Id>, k: nat, i: nat) returns (j: int)
    requires NoDup(l) && k < |l| && i < |l| - 1
    ensures 0 <= j < |l| && |Cut(l, k)| == |l| - 1 && Cut(l, k)[i] == l[j]
    ensures Entry(Cut(l, k), i + 1) == if j + 1 == k then Entry(l, k + 1) else Entry(l, j + 1)
    ensures Entry(Cut(l, k), i - 1) == if j == k + 1 then Entry(l, k - 1) else Entry(l, j - 1)
    ensures (k > 0 ==> (l[j] == l[k - 1] <==> j == k - 1)) && (k + 1 < |l| ==> (l[j] == l[k + 1] <==> j == k + 1))
  {
    j := if i < k then i else i + 1;
    Same(l, j, k - 1);
    Same(l, j, k + 1);
  }

  lemma {:induction false} Same(l: seq<Id>, i: int, j: int)
    requires NoDup(l) && 0 <= i < |l|
    ensures 0 <= j < |l| ==> (l[i] == l[j] <==> i == j)
  {
    assert i < j || j < i || i == j;
  }

  lemma {:induction false} CutNext(next: Links, next': Links, l: seq<Id>, k: nat)
    requires Forward(next, l) && NoDup(l) && k < |l|
    requires next' == if k == 0 then next else next[l[k - 1] := Entry(l, k + 1)]
    ensures Forward(next', Cut(l, k))
  {
    hide Cut, NoDup, Entry;
    var t := Cut(l, k);
    CutLength(l, k);
    forall i | 0 <= i < |t| ensures To(next', t[i]) == Entry(t, i + 1) {
      var j := CutAt(l, k, i);
      assert To(next, l[j]) == Entry(l, j + 1);
    }
  }

  lemma {:induction false} CutPrev(prev: Links, prev': Links, l: seq<Id>, k: nat)
    requires Backward(prev, l) && NoDup(l) && k < |l|
    requires prev' == if k + 1 == |l| then prev else prev[l[k + 1] := Entry(l, k - 1)]
    ensures Backward(prev', Cut(l, k))
  {
    hide Cut, NoDup, Entry;
    var t := Cut(l, k);
    CutLength(l, k);
    forall i | 0 <= i < |t| ensures To(prev', t[i]) == Entry(t, i - 1) {
      var j := CutAt(l, k, i);
      assert To(prev, l[j]) == Entry(l, j - 1);
    }
  }

  lemma {:induction false} CutLength(l: seq<Id>, k: int)
    requires 0 <= k < |l|
    ensures |Cut(l, k)| == |l| - 1
    ensures Entry(Cut(l, k), 0) == if k == 0 then Entry(l, 1) else Entry(l, 0)
    ensures Entry(Cut(l, k), |l| - 2) == if k == |l| - 1 then Entry(l, k - 1) else Entry(l, |l| - 1)
  {}
}
