/**
 src/arp.c as it runs: the three lists are fields that the functions reassign
 step by step. Each method leaves the state its counterpart in ArpState gives.
 */
module Arp {
  import opened Names
  import opened Records
  import opened ArpState

  class ArpTable {
    var arps: seq<Node>
    var gone: seq<Node>
    var free: seq<Node>
    var heap: Id
    var last: int

    ghost function Snap(): Arps
      reads this
    {
      Arps(arps, gone, free, heap, last)
    }

    constructor ()
      ensures Snap() == Arps([], [], [], 0, 0)
    {
      arps, gone, free, heap, last := [], [], [], 0, 0;
    }

    method NewRecord(status: Status, e: Entry, malloc: bool)
      modifies this
      ensures Snap() == Prepend(old(Snap()), status, e, malloc)
    {
      if free != [] {
        var id := free[0].id;
        free := free[1..];
        arps := [Node(id, status, e)] + arps;
      } else if malloc {
        arps := [Node(heap, status, e)] + arps;
        heap := heap + 1;
      }
    }

    method FilterMac(e: Entry, malloc: bool)
      modifies this
      ensures Snap() == Filter(old(Snap()), e, malloc) && last == old(last)
    {
      if |e.mac| > DHCP_CHADDR_MAX { return; }
      var i := 0;
      while i < |arps|
        invariant i <= |arps| && Snap() == old(Snap())
        invariant FirstTaker(arps, e, 0) == FirstTaker(arps, e, i)
      {
        var x := arps[i];
        if x.entry.family == e.family && x.status != New && x.entry.addr == e.addr {
          if x.status == Empty {
            arps := arps[i := Node(x.id, New, e)];
            return;
          } else if x.entry.mac == e.mac {
            arps := arps[i := x.(status := Found)];
            return;
          }
        }
        i := i + 1;
      }
      NewRecord(New, e, malloc);
    }

    // The first record for the host, if it may be used.
    method Search(host: Entry, any: bool) returns (k: nat)
      ensures k == FirstAnswer(arps, host, any, 0)
    {
      k := 0;
      while k < |arps|
        invariant k <= |arps| && FirstAnswer(arps, host, any, 0) == FirstAnswer(arps, host, any, k)
      {
        if arps[k].entry.family == host.family && arps[k].entry.addr == host.addr && (arps[k].status != Empty || any) {
          return;
        }
        k := k + 1;
      }
    }

    method MarkAll()
      modifies this
      ensures Snap() == old(Snap()).(arps := Marked(old(arps)))
    {
      hide Marked;
      var i := 0;
      while i < |arps|
        invariant i <= |arps| == |old(arps)| && Snap() == old(Snap()).(arps := arps)
        invariant forall j :: 0 <= j < |arps| ==> arps[j] == if j < i then Marked(old(arps))[j] else old(arps)[j]
      {
        if arps[i].status != Empty {
          arps := arps[i := arps[i].(status := Mark)];
        }
        i := i + 1;
      }
    }

    method RemoveMarked()
      modifies this
      ensures Snap() == Sweep(old(Snap()), 0) && last == old(last)
    {
      var i := 0;
      while i < |arps|
        invariant i <= |arps| && Sweep(old(Snap()), 0) == Sweep(Snap(), i) && last == old(last)
        decreases |arps| - i
      {
        if arps[i].status == Mark {
          gone := [arps[i]] + gone;
          arps := arps[..i] + arps[i + 1..];
        } else {
          i := i + 1;
        }
      }
    }

    method ReadKernel(kernel: seq<Entry>, now: int, fails: set<nat>)
      modifies this
      ensures Snap() == Refresh(old(Snap()), kernel, now, fails) && last == now
    {
      last := now;
      MarkAll();
      ghost var marked := Snap();
      var i := 0;
      while i < |kernel|
        invariant i <= |kernel| && Enumerate(marked, kernel, 0, fails) == Enumerate(Snap(), kernel, i, fails)
        invariant last == now
      {
        FilterMac(kernel[i], i !in fails);
        i := i + 1;
      }
      RemoveMarked();
    }

    method FindMac(host: Option<Entry>, lazy: bool, now: int, kernel: seq<Entry>, fails: set<nat>, malloc: bool)
      returns (mac: seq<Byte>, asked: nat)
      modifies this
      ensures Reply(Snap(), mac, asked) == ArpState.FindMac(old(Snap()), host, lazy, now, kernel, fails, malloc)
    {
      hide Refresh, Prepend, FirstAnswer;
      asked := 0;
      while true
        invariant Snap() == if asked == 0 then old(Snap()) else Refresh(old(Snap()), kernel, now, fails)
        invariant asked <= 1 && (asked == 1 ==> last == now)
        invariant asked == 1 ==> ArpState.FindMac(old(Snap()), host, lazy, now, kernel, fails, malloc).asked == 1
        decreases 1 - asked
      {
        if now - last < INTERVAL {
          if host.None? { return [], asked; }
          var k := Search(host.value, lazy || asked == 1);
          if k < |arps| { return arps[k].entry.mac, asked; }
        }
        if asked == 1 { break; }
        asked := 1;
        ReadKernel(kernel, now, fails);
      }
      NewRecord(Empty, Entry(host.value.family, host.value.addr, []), malloc);
      mac := [];
    }

    method ScriptRun() returns (again: bool, event: Option<Event>)
      modifies this
      ensures (Snap(), event) == ArpState.ScriptRun(old(Snap())) && again == event.Some?
    {
      if gone != [] {
        event := Some(Deleted(gone[0].entry));
        free := [gone[0]] + free;
        gone := gone[1..];
        return true, event;
      }
      var i := 0;
      while i < |arps|
        invariant i <= |arps| && Snap() == old(Snap()) && FirstNew(arps, 0) == FirstNew(arps, i)
      {
        if arps[i].status == New {
          event := Some(Added(arps[i].entry));
          arps := arps[i := arps[i].(status := Found)];
          return true, event;
        }
        i := i + 1;
      }
      return false, None;
    }
  }
}
