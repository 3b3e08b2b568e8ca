/**
 Cache records (`struct crec` of src/dnsmasq.h) and the two tests that decide
 whether a record may still be used.
 */
module Records {
  import opened Names

  datatype Option<+T> = None | Some(value: T)

  // Records are named by handle: the pool that cache_init allocates holds the
  // handles below the cache size, records made with malloc the others.
  type Id = nat

  // A flag is a bit position of `unsigned int flags`; `f & g` is not zero when
  // the sets share an element.
  type Flag = i: int | 0 <= i < 32
  type Flags = set<Flag>

  const F_IMMORTAL: Flag := 0
  const F_NAMEP: Flag := 1
  const F_REVERSE: Flag := 2
  const F_FORWARD: Flag := 3
  const F_DHCP: Flag := 4
  const F_NEG: Flag := 5
  const F_HOSTS: Flag := 6
  const F_IPV4: Flag := 7
  const F_IPV6: Flag := 8
  const F_BIGNAME: Flag := 9
  const F_NXDOMAIN: Flag := 10
  const F_CNAME: Flag := 11
  const F_DNSKEY: Flag := 12
  const F_CONFIG: Flag := 13
  const F_DS: Flag := 14
  const F_SRV: Flag := 30

  const UID_NONE: nat := 0
  const SMALLDNAME: nat := 50

  predicate Meets(f: Flags, g: Flags) {
    exists x :: x in f && x in g
  }

  predicate Static(f: Flags) {
    F_HOSTS in f || F_DHCP in f || F_CONFIG in f
  }

  predicate InUse(f: Flags) {
    F_FORWARD in f || F_REVERSE in f
  }

  // The record's `addr` holds the data of an address or service record.
  predicate Typed(f: Flags) {
    Meets(f, {F_IPV4, F_IPV6, F_DNSKEY, F_DS, F_SRV})
  }

  // A negative SRV entry has no target.
  predicate HasTarget(f: Flags) {
    F_SRV in f && F_NEG !in f
  }

  type AddrBytes = b: seq<Byte> | |b| == 16 witness [0, 0, 0, 0, 0, 0, 0, 0, 0, 0, 0, 0, 0, 0, 0, 0]

  const NO_ADDR: AddrBytes := [0, 0, 0, 0, 0, 0, 0, 0, 0, 0, 0, 0, 0, 0, 0, 0]

  // union all_addr. `CnameRec` points at another record and remembers the uid
  // that record had when the link was made.
  datatype Data =
    | Ip(bytes: AddrBytes)
    | Srv(target: seq<Byte>, port: nat, priority: nat, weight: nat)
    | CnameName(alias: Name)
    | CnameRec(rec: Option<Id>, uid: nat)

  // The bytes memcmp reads. Records compared by address hold an `Ip`.
  function View(d: Data): AddrBytes {
    if d.Ip? then d.bytes else NO_ADDR
  }

  predicate SameAddr(d: Data, e: Data, six: bool) {
    var len := if six then 16 else 4;
    View(d)[..len] == View(e)[..len]
  }

  datatype Rec = Rec(flags: Flags, name: Name, data: Data, ttd: int, uid: nat)

  const BLANK := Rec({}, [], Ip(NO_ADDR), 0, UID_NONE)

  predicate Expired(now: int, r: Rec) {
    F_IMMORTAL !in r.flags && r.ttd <= now
  }

  // The three segments of a hash chain: reverse, mortal, immortal.
  function Segment(f: Flags): nat {
    if F_REVERSE in f then 0 else if F_IMMORTAL !in f then 1 else 2
  }

  predicate LongName(name: Name) {
    |name| > SMALLDNAME - 1
  }
}
