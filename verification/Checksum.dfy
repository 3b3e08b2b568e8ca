/**
 The IP and UDP checksums of send_via_bpf in src/bpf.c. Memory is bytes; the
 program reads it as 16-bit words in the byte order of its machine, adds them up
 in 32 bits and folds the carries at the end. The receiver is the independent
 definition of section 1 of RFC 1071: one's complement addition, word by word,
 in the byte order of its own machine.
 */
module Checksum {
  import opened Names

  const DHCP_PACKET_MAX: nat := 16384
  const IPPROTO_UDP: Byte := 17
  const ONES: nat := 0xffff

  type Half = n: nat | n < 0x10000 witness 0

  // The word that two bytes of memory make.
  function Load(a: Byte, b: Byte, little: bool): Half {
    if little then a + 256 * b else 256 * a + b
  }

  // The two bytes of memory that a word makes.
  function Store(w: Half, little: bool): (b: seq<Byte>)
    ensures |b| == 2 && Load(b[0], b[1], little) == w
  {
    if little then [(w % 256) as Byte, (w / 256) as Byte] else [(w / 256) as Byte, (w % 256) as Byte]
  }

  // ---------- the receiver ----------

  function OnesAdd(a: Half, b: Half): Half {
    if a + b >= 0x10000 then a + b - ONES else a + b
  }

  function OnesSum(m: seq<Byte>, little: bool): Half {
    if |m| < 2 then 0
    else OnesAdd(OnesSum(m[..|m| - 2], little), Load(m[|m| - 2], m[|m| - 1], little))
  }

  // The receiver finds no error, whatever the byte order of its machine.
  ghost predicate Verifies(m: seq<Byte>) {
    OnesSum(m, true) == ONES && OnesSum(m, false) == ONES
  }

  // ---------- sums ----------

  function Sum(m: seq<Byte>, little: bool): nat {
    if |m| < 2 then 0 else Sum(m[..|m| - 2], little) + Load(m[|m| - 2], m[|m| - 1], little)
  }

  // What is left of a sum when its carries have been added back in.
  function Reduce(n: nat): (r: Half)
    ensures r <= n && r % ONES == n % ONES && (r == 0 <==> n == 0)
    ensures r == ONES <==> n > 0 && n % ONES == 0
  {
    if n == 0 then 0 else (n - 1) % ONES + 1
  }

  lemma {:induction false} ReduceStep(n: nat, w: Half)
    ensures OnesAdd(Reduce(n), w) == Reduce(n + w)
  {
    if n > 0 {
      var q, r := (n - 1) / ONES, Reduce(n);
      assert n + w - 1 == q * ONES + (r + w - 1);
      if r + w - 1 < ONES {
        Quotient(n + w - 1, q, r + w - 1);
      } else {
        Quotient(n + w - 1, q + 1, r + w - 1 - ONES);
      }
    }
  }

  lemma {:induction false} Quotient(n: nat, q: nat, r: nat)
    requires n == q * ONES + r && r < ONES
    ensures n % ONES == r
  {}

  lemma {:induction false} OnesSumReduces(m: seq<Byte>, little: bool)
    ensures OnesSum(m, little) == Reduce(Sum(m, little))
  {
    if |m| >= 2 {
      hide Reduce;
      OnesSumReduces(m[..|m| - 2], little);
      ReduceStep(Sum(m[..|m| - 2], little), Load(m[|m| - 2], m[|m| - 1], little));
    }
  }

  lemma {:induction false} SumJoin(a: seq<Byte>, b: seq<Byte>, little: bool)
    requires |a| % 2 == 0 && |b| % 2 == 0
    ensures Sum(a + b, little) == Sum(a, little) + Sum(b, little)
  {
    if b == [] {
      assert a + b == a;
    } else {
      SumJoin(a, b[..|b| - 2], little);
      assert (a + b)[..|a + b| - 2] == a + b[..|b| - 2];
    }
  }

  lemma {:induction false} SumBound(m: seq<Byte>, little: bool)
    ensures Sum(m, little) <= |m| / 2 * ONES
  {
    if |m| >= 2 {
      SumBound(m[..|m| - 2], little);
    }
  }

  // Turning the bytes of every word around multiplies the sum by 256, up to
  // carries: section 2 (B) of RFC 1071.
  lemma {:induction false} SwapSum(m: seq<Byte>)
    ensures exists k: int :: Sum(m, false) == 256 * Sum(m, true) - k * ONES
    ensures Sum(m, false) == 0 <==> Sum(m, true) == 0
  {
    if |m| < 2 {
      assert Sum(m, false) == 256 * Sum(m, true) - 0 * ONES;
    } else {
      SwapSum(m[..|m| - 2]);
      var k: int :| Sum(m[..|m| - 2], false) == 256 * Sum(m[..|m| - 2], true) - k * ONES;
      var a, b := m[|m| - 2], m[|m| - 1];
      assert Sum(m, false) == 256 * Sum(m, true) - (k + b) * ONES;
    }
  }

  lemma {:induction false} MultipleOf(k: int, s: int, t: int)
    requires t == 256 * s - k * ONES
    ensures t % ONES == 0 <==> s % ONES == 0
  {
    if s % ONES == 0 {
      assert t == (256 * (s / ONES) - k) * ONES;
    }
    if t % ONES == 0 {
      assert 256 * t == 65536 * s - 256 * k * ONES;
      assert s == (256 * (t / ONES) - s + 256 * k) * ONES;
    }
  }

  // The check comes out the same on every machine.
  lemma {:induction false} ByteOrder(m: seq<Byte>)
    ensures OnesSum(m, true) == ONES <==> OnesSum(m, false) == ONES
  {
    OnesSumReduces(m, true);
    OnesSumReduces(m, false);
    SwapSum(m);
    var k: int :| Sum(m, false) == 256 * Sum(m, true) - k * ONES;
    MultipleOf(k, Sum(m, true), Sum(m, false));
  }

  // ---------- the checksum ----------

  // The value stored for words that add up to `total`.
  function Stored(total: nat): Half {
    if Reduce(total) == ONES then ONES else ONES - Reduce(total)
  }

  // With the checksum field at `at` zero, the value stored there is never zero,
  // makes the message verify, and is the only one that does, except that zero
  // does as well where all ones was stored for words that are not all zero.
  lemma {:induction false} OnlyStored(m: seq<Byte>, at: nat, w: Half, little: bool)
    requires |m| % 2 == 0 && at % 2 == 0 && at + 2 <= |m| && m[at] == 0 && m[at + 1] == 0
    ensures var total := Sum(m, little);
      var sent := m[..at] + Store(w, little) + m[at + 2..];
      && Stored(total) != 0
      && (Verifies(sent) <==> w == Stored(total) || (w == 0 && Stored(total) == ONES && total > 0))
  {
    var total, sent := Sum(m, little), m[..at] + Store(w, little) + m[at + 2..];
    PutSum(m, at, w, little);
    OnesSumReduces(sent, little);
    ByteOrder(sent);
    ReduceStep(total, w);
  }

  lemma {:induction false} PutSum(m: seq<Byte>, at: nat, w: Half, little: bool)
    requires |m| % 2 == 0 && at % 2 == 0 && at + 2 <= |m| && m[at] == 0 && m[at + 1] == 0
    ensures Sum(m[..at] + Store(w, little) + m[at + 2..], little) == Sum(m, little) + w
  {
    var a, z, b, c := m[..at], [0, 0], Store(w, little), m[at + 2..];
    assert m == a + z + c;
    SumJoin(a + z, c, little);
    SumJoin(a, z, little);
    SumJoin(a + b, c, little);
    SumJoin(a, b, little);
    assert z[..0] == [] && b[..0] == [];
    assert Sum(z, little) == 0 && Sum(b, little) == w;
  }

  // ---------- send_via_bpf ----------

  // One summing loop, in 32 bits.
  method AddWords(a: array<Byte>, n: nat, start: nat, little: bool) returns (sum: nat)
    requires 2 * n <= a.Length && start + n * ONES < WORD
    ensures sum == start + Sum(a[..2 * n], little) <= start + n * ONES
  {
    sum := start;
    var i := 0;
    while i < n
      invariant i <= n && sum == start + Sum(a[..2 * i], little) <= start + i * ONES
    {
      assert a[..2 * (i + 1)][..2 * i] == a[..2 * i];
      sum := (sum + Load(a[2 * i], a[2 * i + 1], little)) % WORD;
      i := i + 1;
    }
  }

  method FoldCarries(total: nat) returns (sum: nat)
    requires total < WORD
    ensures sum == Reduce(total)
  {
    hide Reduce;
    sum := total;
    while sum / 0x10000 != 0
      invariant sum <= total && Reduce(sum) == Reduce(total)
      decreases sum
    {
      FoldOnce(sum);
      sum := sum % 0x10000 + sum / 0x10000;
    }
    Folded(sum);
  }

  lemma {:induction false} FoldOnce(n: nat)
    requires n >= 0x10000
    ensures n % 0x10000 + n / 0x10000 < n && Reduce(n % 0x10000 + n / 0x10000) == Reduce(n)
  {
    var q, r := n / 0x10000, n % 0x10000 + n / 0x10000;
    assert n == q * ONES + r;
    assert n - 1 == q * ONES + (r - 1) == (q + (r - 1) / ONES) * ONES + (r - 1) % ONES;
    Quotient(n - 1, q + (r - 1) / ONES, (r - 1) % ONES);
  }

  lemma {:induction false} Folded(n: nat)
    requires n < 0x10000
    ensures Reduce(n) == n
  {}

  method Put(a: array<Byte>, i: nat, w: Half, little: bool)
    requires i + 2 <= a.Length
    modifies a
    ensures a[..] == old(a[..i]) + Store(w, little) + old(a[i + 2..])
  {
    var b := Store(w, little);
    a[i] := b[0];
    a[i + 1] := b[1];
  }

  method Complement(total: nat) returns (c: Half)
    requires total < WORD
    ensures c == Stored(total)
  {
    var sum := FoldCarries(total);
    c := if sum == ONES then sum else ONES - sum;
  }

  lemma {:induction false} StoreZero(w: Half, little: bool)
    requires w != 0
    ensures Store(w, little)[0] != 0 || Store(w, little)[1] != 0
  {}

  // The loop over the IP header, and what it stores.
  method IpChecksum(ip: array<Byte>, little: bool)
    requires ip.Length == 20
    modifies ip
    ensures Verifies(ip[..]) && (ip[10] != 0 || ip[11] != 0)
    ensures ip[..10] == old(ip[..10]) && ip[12..] == old(ip[12..])
  {
    hide Sum, Load, Verifies;
    ip[10], ip[11] := 0, 0;
    ghost var m := ip[..];
    var sum := AddWords(ip, 10, 0, little);
    assert ip[..20] == m;
    var c := Complement(sum);
    OnlyStored(m, 10, c, little);
    StoreZero(c, little);
    Put(ip, 10, c, little);
  }

  // htons: the word whose bytes in memory are most significant first.
  function Network(w: Half): seq<Byte> {
    Store(w, false)
  }

  function Padded(payload: seq<Byte>): (p: seq<Byte>)
    ensures |p| % 2 == 0
  {
    if |payload| % 2 == 0 then payload else payload + [0]
  }

  // What the UDP checksum covers: the pseudo header of RFC 768, with the length
  // field of the UDP header a second time, then the datagram padded to a word.
  function Covered(src: seq<Byte>, dst: seq<Byte>, udp: seq<Byte>, payload: seq<Byte>): seq<Byte>
    requires |udp| == 8
  {
    src + dst + [0, IPPROTO_UDP] + udp[4..6] + udp + Padded(payload)
  }

  lemma {:induction false} FourBytes(a: seq<Byte>, little: bool)
    requires |a| == 4
    ensures Sum(a, little) == Load(a[0], a[1], little) + Load(a[2], a[3], little)
  {
    assert a[..2][..0] == [] && a[..2][0] == a[0] && a[..2][1] == a[1];
    assert Sum(a[..2], little) == Load(a[0], a[1], little);
  }

  lemma {:induction false} TwoBytes(a: seq<Byte>, little: bool)
    requires |a| == 2
    ensures Sum(a, little) == Load(a[0], a[1], little)
  {
    assert a[..0] == [];
  }

  lemma {:induction false} CoveredSum(src: seq<Byte>, dst: seq<Byte>, udp: seq<Byte>, payload: seq<Byte>, little: bool)
    requires |src| == |dst| == 4 && |udp| == 8
    ensures Sum(Covered(src, dst, udp, payload), little)
      == Load(src[0], src[1], little) + Load(src[2], src[3], little)
       + Load(dst[0], dst[1], little) + Load(dst[2], dst[3], little)
       + Load(0, IPPROTO_UDP, little) + Load(udp[4], udp[5], little)
       + Sum(udp, little) + Sum(Padded(payload), little)
  {
    hide Sum, Load, Padded;
    var p := [0, IPPROTO_UDP];
    SumJoin(src + dst + p + udp[4..6] + udp, Padded(payload), little);
    SumJoin(src + dst + p + udp[4..6], udp, little);
    SumJoin(src + dst + p, udp[4..6], little);
    SumJoin(src + dst, p, little);
    SumJoin(src, dst, little);
    FourBytes(src, little);
    FourBytes(dst, little);
    TwoBytes(p, little);
    TwoBytes(udp[4..6], little);
  }

  lemma {:induction false} CoveredPut(src: seq<Byte>, dst: seq<Byte>, udp: seq<Byte>, payload: seq<Byte>, c: seq<Byte>)
    requires |src| == |dst| == 4 && |udp| == 8 && |c| == 2
    ensures var m := Covered(src, dst, udp, payload);
      20 <= |m| && Covered(src, dst, udp[..6] + c, payload) == m[..18] + c + m[20..]
      && m[18] == udp[6] && m[19] == udp[7] && |m| % 2 == 0
  {
    assert (udp[..6] + c)[4..6] == udp[4..6];
  }

  // The sum over the pseudo header, the UDP header and the payload, in 32 bits.
  method UdpSum(udp: array<Byte>, mess: array<Byte>, len: nat, src: seq<Byte>, dst: seq<Byte>, little: bool)
    returns (sum: nat)
    requires udp.Length == 8 && len <= DHCP_PACKET_MAX && len + len % 2 <= mess.Length
    requires |src| == |dst| == 4 && (len % 2 == 1 ==> mess[len] == 0)
    ensures sum == Sum(Covered(src, dst, udp[..], mess[..len]), little) < WORD
  {
    hide Sum, Load, Covered;
    sum := Load(udp[4], udp[5], little);
    sum := sum + Load(0, IPPROTO_UDP, little);
    sum := sum + Load(src[0], src[1], little);
    sum := sum + Load(src[2], src[3], little);
    sum := sum + Load(dst[0], dst[1], little);
    sum := sum + Load(dst[2], dst[3], little);
    sum := AddWords(udp, 4, sum, little);
    sum := AddWords(mess, (len + 1) / 2, sum, little);
    assert udp[..8] == udp[..] && mess[..2 * ((len + 1) / 2)] == Padded(mess[..len]);
    CoveredSum(src, dst, udp[..], mess[..len], little);
  }

  method Prepare(udp: array<Byte>, mess: array<Byte>, len: nat)
    requires udp.Length == 8 && udp != mess && len <= DHCP_PACKET_MAX && len + len % 2 <= mess.Length
    modifies udp, mess
    ensures udp[..] == old(udp[..4]) + Network(8 + len) + [0, 0]
    ensures len % 2 == 1 ==> mess[len] == 0
    ensures forall i :: 0 <= i < mess.Length && i != len ==> mess[i] == old(mess[i])
  {
    if len % 2 == 1 { mess[len] := 0; }
    udp[6], udp[7] := 0, 0;
    Put(udp, 4, 8 + len, false);
  }

  // The UDP header's length and checksum.
  method UdpChecksum(udp: array<Byte>, mess: array<Byte>, len: nat, src: seq<Byte>, dst: seq<Byte>, little: bool)
    requires udp.Length == 8 && udp != mess && len <= DHCP_PACKET_MAX && len + len % 2 <= mess.Length
    requires |src| == |dst| == 4
    modifies udp, mess
    ensures Verifies(Covered(src, dst, udp[..], mess[..len])) && (udp[6] != 0 || udp[7] != 0)
    ensures udp[..4] == old(udp[..4]) && udp[4..6] == Network(8 + len)
    ensures forall i :: 0 <= i < mess.Length && i != len ==> mess[i] == old(mess[i])
  {
    hide Sum, Load, Covered, Verifies;
    Prepare(udp, mess, len);
    ghost var u, payload := udp[..], mess[..len];
    var sum := UdpSum(udp, mess, len, src, dst, little);
    var c := Complement(sum);
    CoveredPut(src, dst, u, payload, Store(c, little));
    OnlyStored(Covered(src, dst, u, payload), 18, c, little);
    Put(udp, 6, c, little);
    assert udp[..] == u[..6] + Store(c, little);
    assert udp[6..8] == Store(c, little);
    StoreZero(c, little);
  }
}
