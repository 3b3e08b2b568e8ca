/**
 The format in which a child process passes new cache records to its parent:
 what cache_end_insert writes and what cache_recv_insert reads back.
 */
module Wire {
  import opened Names
  import opened Records

  // ---------- numbers in memory ----------

  // `n` in `k` bytes, two's complement.
  function Bytes(n: int, k: nat): (b: seq<Byte>)
    ensures |b| == k
    decreases k
  {
    if k == 0 then [] else [n % 256] + Bytes(n / 256, k - 1)
  }

  function Number(b: seq<Byte>): nat {
    if b == [] then 0 else b[0] + 256 * Number(b[1..])
  }

  function Signed(b: seq<Byte>): int
    requires b != []
  {
    if |b| == 1 then (if b[0] < 128 then b[0] else b[0] - 256) else b[0] + 256 * Signed(b[1..])
  }

  function Limit(k: nat): nat {
    if k == 0 then 1 else 256 * Limit(k - 1)
  }

  lemma {:induction false} NumberBack(n: nat, k: nat)
    requires n < Limit(k)
    ensures Number(Bytes(n, k)) == n
  {
    if k > 0 {
      NumberBack(n / 256, k - 1);
      assert Bytes(n, k)[1..] == Bytes(n / 256, k - 1);
    }
  }

  lemma {:induction false} SignedBack(n: int, k: nat)
    requires k > 0 && -128 * Limit(k - 1) <= n < 128 * Limit(k - 1)
    ensures Signed(Bytes(n, k)) == n
    decreases k
  {
    assert Bytes(n, k)[1..] == Bytes(n / 256, k - 1);
    if k > 1 {
      SignedBack(n / 256, k - 1);
    }
  }

  // ---------- flags as an unsigned int ----------

  function Pack(f: Flags, i: nat): nat
    requires i <= 32
    decreases 32 - i
  {
    if i == 32 then 0 else (if i in f then 1 else 0) + 2 * Pack(f, i + 1)
  }

  function Unpack(n: nat, i: nat): Flags
    requires i <= 32
    decreases 32 - i
  {
    if i == 32 then {} else (if n % 2 == 1 then {i} else {}) + Unpack(n / 2, i + 1)
  }

  function Two(k: nat): nat {
    if k == 0 then 1 else 2 * Two(k - 1)
  }

  lemma {:induction false} FlagsBack(f: Flags, i: nat)
    requires i <= 32
    ensures Pack(f, i) < Two(32 - i)
    ensures forall x: Flag :: x in Unpack(Pack(f, i), i) <==> x in f && i <= x
    decreases 32 - i
  {
    if i < 32 {
      FlagsBack(f, i + 1);
    }
  }

  lemma {:induction false} TwoLimit(k: nat)
    ensures Two(8 * k) == Limit(k)
  {
    if k > 0 {
      TwoLimit(k - 1);
      var j := 8 * (k - 1);
      assert Two(j + 2) == 4 * Two(j) && Two(j + 4) == 4 * Two(j + 2) && Two(j + 6) == 4 * Two(j + 4) && Two(j + 8) == 4 * Two(j + 6);
    }
  }

  lemma {:induction false} FlagsFit(f: Flags)
    ensures Pack(f, 0) < Limit(4) && Unpack(Pack(f, 0), 0) == f
  {
    hide Two, Limit, Pack, Unpack;
    FlagsBack(f, 0);
    TwoLimit(4);
  }

  // ---------- records ----------

  // What crosses the pipe about one record. `ttd` is absolute.
  datatype Item = Item(name: Name, ttd: int, flags: Flags, data: Option<Data>)

  // A pointer, which means nothing to the other process.
  type Ptr = b: seq<Byte> | |b| == 8 witness [0, 0, 0, 0, 0, 0, 0, 0]

  // union all_addr in memory.
  function Image(d: Data, ptr: Ptr): AddrBytes {
    match d
    case Ip(bytes) => bytes
    case Srv(target, port, priority, weight) =>
      ptr + Bytes(|target|, 2) + Bytes(port, 2) + Bytes(priority, 2) + Bytes(weight, 2)
    case CnameRec(_, uid) => ptr + Bytes(uid, 4) + Bytes(0, 4)
    case CnameName(_) => ptr + Bytes(0, 4) + Bytes(1, 4)
  }

  // A record about to be written, and the pointer its `addr` happens to hold.
  datatype Sending = Sending(rec: Rec, ptr: Ptr)

  const SENTINEL: seq<Byte> := Bytes(-1, 8)

  // The bytes written for a record.
  function Encode(w: Sending): seq<Byte> {
    var x := w.rec;
    Bytes(|x.name|, 8) + x.name + Bytes(x.ttd, 8) + Bytes(Pack(x.flags, 0), 4)
    + (if Typed(x.flags) then Image(x.data, w.ptr) else [])
    + (if HasTarget(x.flags) && x.data.Srv? then x.data.target else [])
  }

  // What those bytes tell the other process.
  function Carried(w: Sending): Item {
    var x := w.rec;
    Item(x.name, x.ttd, x.flags,
         if !Typed(x.flags) then None
         else if HasTarget(x.flags) then Some(x.data)
         else Some(Ip(Image(x.data, w.ptr))))
  }

  // The fields fit the C types, and an SRV entry has SRV data.
  predicate Sendable(w: Sending) {
    var x := w.rec;
    && |x.name| < 128 * Limit(7)
    && -128 * Limit(7) <= x.ttd < 128 * Limit(7)
    && (HasTarget(x.flags) ==>
          && x.data.Srv? && |x.data.target| < Limit(2)
          && x.data.port < Limit(2) && x.data.priority < Limit(2) && x.data.weight < Limit(2))
  }

  // ---------- reading ----------

  datatype Got = Short | Ended(rest: seq<Byte>) | More(item: Item, rest: seq<Byte>)

  function ReadData(name: Name, ttd: int, flags: Flags, input: seq<Byte>): (g: Got)
    ensures !g.Ended? && (g.More? ==> |g.rest| <= |input|)
  {
    if !Typed(flags) then More(Item(name, ttd, flags, None), input)
    else if |input| < 16 then Short
    else if !HasTarget(flags) then More(Item(name, ttd, flags, Some(Ip(input[..16]))), input[16..])
    else
      var len := Number(input[8..10]);
      // blockdata_read gives no blocks for no bytes, which is taken for a failure
      if len == 0 || |input| < 16 + len then Short
      else
        var srv := Srv(input[16..16 + len], Number(input[10..12]), Number(input[12..14]), Number(input[14..16]));
        More(Item(name, ttd, flags, Some(srv)), input[16 + len..])
  }

  function ReadItem(input: seq<Byte>): (g: Got)
    ensures !g.Short? ==> |g.rest| < |input|
  {
    if |input| < 8 then Short
    else
      var m := Signed(input[..8]);
      if m == -1 then Ended(input[8..])
      else if m < 0 || |input| < m + 20 then Short
      else
        ReadData(input[8..8 + m], Signed(input[8 + m..16 + m]), Unpack(Number(input[16 + m..20 + m]), 0), input[20 + m..])
  }

  lemma {:induction false} SentinelBack(rest: seq<Byte>)
    ensures ReadItem(SENTINEL + rest) == Ended(rest)
  {
    LimitOne(7);
    SignedBack(-1, 8);
    assert (SENTINEL + rest)[..8] == SENTINEL;
  }

  lemma {:induction false} LimitOne(k: nat)
    ensures 1 <= Limit(k)
  {
    if k > 0 { LimitOne(k - 1); }
  }

  lemma {:induction false} TargetTyped(f: Flags)
    requires HasTarget(f)
    ensures Typed(f)
  {
    assert F_SRV in {F_IPV4, F_IPV6, F_DNSKEY, F_DS, F_SRV};
  }

  lemma {:induction false} DataBack(w: Sending, rest: seq<Byte>, input: seq<Byte>)
    requires Sendable(w) && Typed(w.rec.flags)
    requires input == Image(w.rec.data, w.ptr) + (if HasTarget(w.rec.flags) then w.rec.data.target else []) + rest
    ensures ReadData(w.rec.name, w.rec.ttd, w.rec.flags, input) == if Empty(w.rec) then Short else More(Carried(w), rest)
  {
    hide Typed, Limit, Bytes, Number;
    var image := Image(w.rec.data, w.ptr);
    assert input[..16] == image;
    if !HasTarget(w.rec.flags) {
      assert input[16..] == rest;
    } else {
      var d := w.rec.data;
      NumberBack(|d.target|, 2);
      NumberBack(d.port, 2);
      NumberBack(d.priority, 2);
      NumberBack(d.weight, 2);
      assert input[8..10] == image[8..10] == Bytes(|d.target|, 2);
      assert input[10..12] == image[10..12] == Bytes(d.port, 2);
      assert input[12..14] == image[12..14] == Bytes(d.priority, 2);
      assert input[14..16] == image[14..16] == Bytes(d.weight, 2);
      assert input[16..] == d.target + rest;
    }
  }

  // An SRV entry whose target has no bytes.
  predicate Empty(x: Rec) {
    HasTarget(x.flags) && x.data.Srv? && x.data.target == []
  }

  lemma {:induction false} Fields(input: seq<Byte>, a: seq<Byte>, name: seq<Byte>, c: seq<Byte>, f: seq<Byte>, data: seq<Byte>)
    requires |a| == |c| == 8 && |f| == 4 && input == a + (name + (c + (f + data)))
    ensures var m := |name|;
      && |input| >= m + 20 && input[..8] == a && input[8..8 + m] == name && input[8 + m..16 + m] == c
      && input[16 + m..20 + m] == f && input[20 + m..] == data
  {}

  // Every record is read back as it was, from exactly the bytes written for it,
  // unless it is an SRV entry with an empty target: then reading stops.
  lemma {:induction false} ItemBack(w: Sending, rest: seq<Byte>)
    requires Sendable(w)
    ensures ReadItem(Encode(w) + rest) == if Empty(w.rec) then Short else More(Carried(w), rest)
  {
    hide Typed, Limit, Bytes, Number, Signed, Pack, Unpack, HasTarget, Image, ReadData;
    var x := w.rec;
    var m, flags := |x.name|, Bytes(Pack(x.flags, 0), 4);
    var input := Encode(w) + rest;
    var data := (if Typed(x.flags) then Image(x.data, w.ptr) else [])
      + (if HasTarget(x.flags) then x.data.target else []) + rest;
    assert input == Bytes(m, 8) + (x.name + (Bytes(x.ttd, 8) + (flags + data)));
    SignedBack(m, 8);
    SignedBack(x.ttd, 8);
    FlagsFit(x.flags);
    NumberBack(Pack(x.flags, 0), 4);
    Fields(input, Bytes(m, 8), x.name, Bytes(x.ttd, 8), flags, data);
    if Typed(x.flags) {
      DataBack(w, rest, data);
    } else {
      Untyped(x, rest, data);
    }
  }

  lemma {:induction false} Untyped(x: Rec, rest: seq<Byte>, data: seq<Byte>)
    requires !Typed(x.flags) && data == [] + (if HasTarget(x.flags) && x.data.Srv? then x.data.target else []) + rest
    ensures ReadData(x.name, x.ttd, x.flags, data) == More(Item(x.name, x.ttd, x.flags, None), rest) && !Empty(x)
  {
    if HasTarget(x.flags) {
      TargetTyped(x.flags);
    }
    assert data == rest;
  }

  // ---------- batches ----------

  ghost predicate SendableAll(l: seq<Sending>) {
    forall i :: 0 <= i < |l| ==> Sendable(l[i]) && !Empty(l[i].rec)
  }

  function EncodeAll(l: seq<Sending>): seq<Byte> {
    if l == [] then SENTINEL else Encode(l[0]) + EncodeAll(l[1..])
  }

  function CarriedAll(l: seq<Sending>): (c: seq<Item>)
    ensures |c| == |l| && forall i :: 0 <= i < |l| ==> c[i] == Carried(l[i])
  {
    if l == [] then [] else [Carried(l[0])] + CarriedAll(l[1..])
  }

  // A whole batch, and what follows it in the pipe.
  function ReadAll(input: seq<Byte>): Option<(seq<Item>, seq<Byte>)>
    decreases |input|
  {
    match ReadItem(input)
    case Short => None
    case Ended(rest) => Some(([], rest))
    case More(x, rest) =>
      var more := ReadAll(rest);
      if more.None? then None else Some(([x] + more.value.0, more.value.1))
  }

  // Batches stay apart: a batch is read back item by item, and reading stops
  // where the next one begins.
  lemma {:induction false} BatchBack(l: seq<Sending>, rest: seq<Byte>)
    requires SendableAll(l)
    ensures ReadAll(EncodeAll(l) + rest) == Some((CarriedAll(l), rest))
    decreases |l|
  {
    hide Sendable, Encode, ReadItem, SENTINEL, Carried, Empty;
    if l == [] {
      SentinelBack(rest);
    } else {
      var tail := EncodeAll(l[1..]);
      ItemBack(l[0], tail + rest);
      assert EncodeAll(l) + rest == Encode(l[0]) + (tail + rest);
      BatchBack(l[1..], rest);
    }
  }

  // ---------- a pipe that is cut off ----------

  lemma {:induction false} ReadFurther(input: seq<Byte>, more: seq<Byte>)
    requires !ReadItem(input).Short?
    ensures var g := ReadItem(input);
      ReadItem(input + more) == if g.Ended? then Ended(g.rest + more) else More(g.item, g.rest + more)
  {
    hide Typed, Number, Signed, Unpack, HasTarget;
    var whole := input + more;
    assert whole[..8] == input[..8];
    var m := Signed(input[..8]);
    if m == -1 {
      assert whole[8..] == input[8..] + more;
    } else {
      assert whole[8..8 + m] == input[8..8 + m] && whole[8 + m..16 + m] == input[8 + m..16 + m];
      assert whole[16 + m..20 + m] == input[16 + m..20 + m];
      var data := input[20 + m..];
      assert whole[20 + m..] == data + more;
      var flags := Unpack(Number(input[16 + m..20 + m]), 0);
      if Typed(flags) {
        assert (data + more)[..16] == data[..16] && (data + more)[16..] == data[16..] + more;
        if HasTarget(flags) {
          var len := Number(data[8..10]);
          assert forall i, j :: 0 <= i <= j <= |data| ==> (data + more)[i..j] == data[i..j];
          assert (data + more)[16 + len..] == data[16 + len..] + more;
        }
      }
    }
  }

  lemma {:induction false} ReadAllFurther(input: seq<Byte>, more: seq<Byte>)
    requires ReadAll(input).Some?
    ensures ReadAll(input + more) == Some((ReadAll(input).value.0, ReadAll(input).value.1 + more))
    decreases |input|
  {
    hide ReadItem;
    ReadFurther(input, more);
    if ReadItem(input).More? {
      ReadAllFurther(ReadItem(input).rest, more);
    }
  }

  // No part of a batch that ends before the sentinel passes for a batch.
  lemma {:induction false} CutOff(l: seq<Sending>, k: nat)
    requires SendableAll(l) && k < |EncodeAll(l)|
    ensures ReadAll(EncodeAll(l)[..k]).None?
  {
    hide ReadAll, EncodeAll, SendableAll, CarriedAll;
    var all := EncodeAll(l);
    if ReadAll(all[..k]).Some? {
      ReadAllFurther(all[..k], all[k..]);
      assert all[..k] + all[k..] == all == all + [];
      BatchBack(l, []);
    }
  }
}
