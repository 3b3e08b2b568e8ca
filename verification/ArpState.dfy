/**
 The state of src/arp.c and what its functions do to it. A record is in one of
 three lists at a time; `id` tells records apart.
 */
module ArpState {
  import opened Names
  import opened Records

  const INTERVAL: int := 90
  const DHCP_CHADDR_MAX: nat := 16

  datatype Status = Mark | Found | New | Empty

  datatype Family = Inet | Inet6

  // What the kernel reports, and what scripts are told about.
  datatype Entry = Entry(family: Family, addr: seq<Byte>, mac: seq<Byte>)

  datatype Node = Node(id: Id, status: Status, entry: Entry)

  datatype Arps = Arps(
    arps: seq<Node>,
    gone: seq<Node>,      // old
    free: seq<Node>,      // freelist
    heap: Id,             // records below this have been allocated
    last: int)

  predicate SameHost(e: Entry, f: Entry) {
    e.family == f.family && e.addr == f.addr
  }

  // ---------- filter_mac ----------

  // The existing record that a kernel entry confirms or fills in.
  predicate Takes(x: Node, e: Entry) {
    SameHost(x.entry, e) && x.status != New && (x.status == Empty || x.entry.mac == e.mac)
  }

  function FirstTaker(l: seq<Node>, e: Entry, i: nat): (k: nat)
    requires i <= |l|
    ensures i <= k <= |l| && (k < |l| ==> Takes(l[k], e))
    ensures forall j :: i <= j < k ==> !Takes(l[j], e)
    decreases |l| - i
  {
    if i < |l| && !Takes(l[i], e) then FirstTaker(l, e, i + 1) else i
  }

  // A record to use: from the free list, or else from malloc.
  function Supply(s: Arps, malloc: bool): Option<(Arps, Id)> {
    if s.free != [] then Some((s.(free := s.free[1..]), s.free[0].id))
    else if malloc then Some((s.(heap := s.heap + 1), s.heap))
    else None
  }

  function Prepend(s: Arps, status: Status, e: Entry, malloc: bool): Arps {
    match Supply(s, malloc)
    case None => s
    case Some((t, id)) => t.(arps := [Node(id, status, e)] + t.arps)
  }

  function Filter(s: Arps, e: Entry, malloc: bool): Arps {
    if |e.mac| > DHCP_CHADDR_MAX then s
    else
      var k := FirstTaker(s.arps, e, 0);
      if k == |s.arps| then Prepend(s, New, e, malloc)
      else
        var x := s.arps[k];
        s.(arps := s.arps[k := if x.status == Empty then Node(x.id, New, e) else x.(status := Found)])
  }

  // ---------- the refresh in find_mac ----------

  function Marked(l: seq<Node>): (m: seq<Node>)
    ensures |m| == |l|
    ensures forall i :: 0 <= i < |l| ==> m[i] == if l[i].status == Empty then l[i] else l[i].(status := Mark)
  {
    if l == [] then [] else [if l[0].status == Empty then l[0] else l[0].(status := Mark)] + Marked(l[1..])
  }

  // iface_enumerate calls filter_mac for each kernel entry; `fails` says at
  // which of them malloc would fail.
  function Enumerate(s: Arps, kernel: seq<Entry>, i: nat, fails: set<nat>): Arps
    requires i <= |kernel|
    decreases |kernel| - i
  {
    if i == |kernel| then s else Enumerate(Filter(s, kernel[i], i !in fails), kernel, i + 1, fails)
  }

  function Sweep(s: Arps, i: nat): Arps
    requires i <= |s.arps|
    decreases |s.arps| - i
  {
    if i == |s.arps| then s
    else if s.arps[i].status == Mark then
      Sweep(s.(arps := s.arps[..i] + s.arps[i + 1..], gone := [s.arps[i]] + s.gone), i)
    else Sweep(s, i + 1)
  }

  function Refresh(s: Arps, kernel: seq<Entry>, now: int, fails: set<nat>): Arps {
    Sweep(Enumerate(s.(arps := Marked(s.arps), last := now), kernel, 0, fails), 0)
  }

  // ---------- find_mac ----------

  predicate Answers(x: Node, host: Entry, any: bool) {
    SameHost(x.entry, host) && (x.status != Empty || any)
  }

  function FirstAnswer(l: seq<Node>, host: Entry, any: bool, i: nat): (k: nat)
    requires i <= |l|
    ensures i <= k <= |l| && (k < |l| ==> Answers(l[k], host, any))
    ensures forall j :: i <= j < k ==> !Answers(l[j], host, any)
    decreases |l| - i
  {
    if i < |l| && !Answers(l[i], host, any) then FirstAnswer(l, host, any, i + 1) else i
  }

  // `asked` counts how often the kernel's table was read.
  datatype Reply = Reply(s: Arps, mac: seq<Byte>, asked: nat)

  function FindMac(s: Arps, host: Option<Entry>, lazy: bool, now: int, kernel: seq<Entry>, fails: set<nat>, malloc: bool): Reply {
    var k := if host.Some? then FirstAnswer(s.arps, host.value, lazy, 0) else 0;
    if now - s.last < INTERVAL && (host.None? || k < |s.arps|) then
      Reply(s, if host.None? then [] else s.arps[k].entry.mac, 0)
    else
      var t := Refresh(s, kernel, now, fails);
      if host.None? then Reply(t, [], 1)
      else
        var j := FirstAnswer(t.arps, host.value, true, 0);
        if j < |t.arps| then Reply(t, t.arps[j].entry.mac, 1)
        else Reply(Prepend(t, Empty, Entry(host.value.family, host.value.addr, []), malloc), [], 1)
  }

  // ---------- do_arp_script_run ----------

  datatype Event = Added(entry: Entry) | Deleted(entry: Entry)

  function FirstNew(l: seq<Node>, i: nat): (k: nat)
    requires i <= |l|
    ensures i <= k <= |l| && (k < |l| ==> l[k].status == New)
    ensures forall j :: i <= j < k ==> l[j].status != New
    decreases |l| - i
  {
    if i < |l| && l[i].status != New then FirstNew(l, i + 1) else i
  }

  function ScriptRun(s: Arps): (Arps, Option<Event>) {
    if s.gone != [] then
      (s.(gone := s.gone[1..], free := [s.gone[0]] + s.free), Some(Deleted(s.gone[0].entry)))
    else
      var k := FirstNew(s.arps, 0);
      if k < |s.arps| then
        (s.(arps := s.arps[k := s.arps[k].(status := Found)]), Some(Added(s.arps[k].entry)))
      else (s, None)
  }
}
