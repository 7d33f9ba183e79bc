// The ping list of src/coap/caping.c in its own form: linked records, cut and unlinked in place.

module PingList {
  import opened PingSpec

  // PingInfo
  class PingInfo {
    const ping: Ping
    var next: PingInfo?

    constructor (ping: Ping, next: PingInfo?)
      ensures this.ping == ping && this.next == next
    {
      this.ping, this.next := ping, next;
    }
  }

  // From "link" on the list consists of exactly these records.
  ghost predicate Links(link: PingInfo?, nodes: seq<PingInfo>)
    reads nodes
  {
    && (link == if nodes == [] then null else nodes[0])
    && (forall i {:trigger nodes[i].next} | 0 <= i < |nodes| ::
          nodes[i].next == if i + 1 < |nodes| then nodes[i + 1] else null)
  }

  ghost predicate Distinct(nodes: seq<PingInfo>) {
    forall i, j | 0 <= i < j < |nodes| :: nodes[i] != nodes[j]
  }

  ghost function Pings(nodes: seq<PingInfo>): (pings: seq<Ping>)
    ensures |pings| == |nodes| && forall i | 0 <= i < |nodes| :: pings[i] == nodes[i].ping
  {
    if nodes == [] then [] else [nodes[0].ping] + Pings(nodes[1..])
  }

  lemma PingsCut(nodes: seq<PingInfo>, i: nat)
    requires i <= |nodes|
    ensures Pings(nodes[i..]) == Pings(nodes)[i..] && Pings(nodes[..i]) == Pings(nodes)[..i]
  {
    hide Pings;
  }

  lemma PingsWithout(nodes: seq<PingInfo>, i: nat)
    requires i < |nodes|
    ensures Pings(nodes[..i] + nodes[i + 1..]) == Pings(nodes)[..i] + Pings(nodes)[i + 1..]
  {
    hide Pings;
  }

  lemma DropNext(nodes: seq<PingInfo>, i: nat)
    requires i < |nodes|
    ensures var id := nodes[i].ping.id;
            DropCalls(Pings(nodes[i..])) == [Disconnect(id)] + ([DeleteContext(id)] + DropCalls(Pings(nodes[i + 1..])))
  {
    assert nodes[i..][1..] == nodes[i + 1..];
  }

  lemma DeleteNext(nodes: seq<PingInfo>, i: nat)
    requires i < |nodes|
    ensures DeleteCalls(Pings(nodes[i..])) == [DeleteContext(nodes[i].ping.id)] + DeleteCalls(Pings(nodes[i + 1..]))
  {
    assert nodes[i..][1..] == nodes[i + 1..];
  }

  lemma NoCalls()
    ensures Pings([]) == [] && DropCalls([]) == [] && DeleteCalls([]) == []
  {
  }

  class PingTable {
    var head: PingInfo?          // g_pingInfoList
    var timeout: nat             // g_timeout
    var log: seq<Call>           // the callbacks and disconnections made so far
    ghost var nodes: seq<PingInfo>

    ghost predicate Valid()
      reads this, nodes
    {
      && Links(head, nodes)
      && Distinct(nodes)
    }

    ghost function Now(): State
      reads this
    {
      State(Pings(nodes), timeout, log)
    }

    constructor ()
      ensures Valid() && Now() == INITIAL
    {
      head, timeout, log, nodes := null, 10000, [], [];
    }

    // 238-242
    method SetPingTimeout(timeout: nat)
      requires Valid()
      modifies this
      ensures Valid() && Now() == old(Now()).(timeout := timeout)
    {
      this.timeout := timeout;
    }

    // 196-197
    method Add(ping: Ping)
      requires Valid()
      modifies this
      ensures Valid() && Now() == Prepend(old(Now()), ping)
      ensures fresh(nodes[0]) && nodes[1..] == old(nodes)
    {
      var cur := new PingInfo(ping, head);
      head := cur;
      nodes := [cur] + nodes;
    }

    // 91-96
    method DestroyPingInfo(pingInfo: PingInfo)
      modifies this`log
      ensures log == old(log) + [DeleteContext(pingInfo.ping.id)]
    {
      log := log + [DeleteContext(pingInfo.ping.id)];
    }

    // Takes the record at position i out of the list (288).
    method Unlink(prev: PingInfo?, cur: PingInfo, ghost i: nat)
      requires Valid() && i < |nodes| && cur == nodes[i]
      requires prev == if i == 0 then null else nodes[i - 1]
      modifies `head, `nodes, nodes
      ensures Valid() && nodes == old(nodes)[..i] + old(nodes)[i + 1..]
    {
      if prev == null {
        head := cur.next;
      } else {
        prev.next := cur.next;
      }
      nodes := nodes[..i] + nodes[i + 1..];
    }

    // Ends the list before position i; what is cut off stays linked (256-257).
    method Truncate(prev: PingInfo?, ghost i: nat)
      requires Valid() && i <= |nodes|
      requires prev == if i == 0 then null else nodes[i - 1]
      modifies `head, `nodes, nodes
      ensures Valid() && nodes == old(nodes)[..i]
      ensures Links(if i < |old(nodes)| then old(nodes)[i] else null, old(nodes)[i..])
    {
      if prev == null {
        head := null;
      } else {
        prev.next := null;
      }
      nodes := nodes[..i];
    }

    // 286-289
    method Answered(prev: PingInfo?, cur: PingInfo, ghost i: nat)
      requires Valid() && i < |nodes| && cur == nodes[i]
      requires prev == if i == 0 then null else nodes[i - 1]
      modifies this, nodes
      ensures Valid() && timeout == old(timeout)
      ensures log == old(log) + [PongCallback(cur.ping.id), DeleteContext(cur.ping.id)]
      ensures Pings(nodes) == old(Pings(nodes))[..i] + old(Pings(nodes))[i + 1..]
    {
      hide Pings;
      log := log + [PongCallback(cur.ping.id)];
      Unlink(prev, cur, i);
      DestroyPingInfo(cur);
      PingsWithout(old(nodes), i);
    }

    // 271-297
    method PongReceived(addr: string, token: seq<nat>, tokenLength: nat)
      requires Valid()
      modifies this, nodes
      ensures Valid() && Now() == Pong(old(Now()), addr, token, tokenLength)
    {
      hide Matches, Pings, SameToken, Distinct;
      var prev: PingInfo? := null;
      var cur := head;
      ghost var i := 0;
      while cur != null
        invariant Valid() && nodes == old(nodes) && log == old(log) && timeout == old(timeout)
        invariant i <= |nodes| && cur == if i < |nodes| then nodes[i] else null
        invariant prev == if i == 0 then null else nodes[i - 1]
        invariant forall k | 0 <= k < i :: !Matches(nodes[k].ping, addr, token, tokenLength)
        decreases |nodes| - i
      {
        if Matches(cur.ping, addr, token, tokenLength) {
          Answered(prev, cur, i);
          break;
        }
        prev := cur;
        cur := cur.next;
        i := i + 1;
      }
      FoundIs(old(Pings(nodes)), i, addr, token, tokenLength);
    }

    // 244-269
    method ProcessPing(now: nat)
      requires Valid()
      modifies this, nodes
      ensures Valid() && Now() == Process(old(Now()), now)
    {
      hide Pings, Expired;
      var prev: PingInfo? := null;
      var cur := head;
      ghost var i := 0;
      while cur != null && !Expired(cur.ping, timeout, now)
        invariant Valid() && nodes == old(nodes)
        invariant i <= |nodes| && cur == if i < |nodes| then nodes[i] else null
        invariant prev == if i == 0 then null else nodes[i - 1]
        invariant forall k | 0 <= k < i :: !Expired(nodes[k].ping, timeout, now)
        decreases |nodes| - i
      {
        prev := cur;
        cur := cur.next;
        i := i + 1;
      }
      CutIs(Pings(nodes), i, timeout, now);
      ghost var dropped := nodes[i..];
      Truncate(prev, i);
      PingsCut(old(nodes), i);
      Drop(cur, dropped);
    }

    // 260-267
    method Drop(first: PingInfo?, ghost dropped: seq<PingInfo>)
      requires Links(first, dropped)
      modifies this`log
      ensures log == old(log) + DropCalls(Pings(dropped))
    {
      hide DropCalls, Pings;
      var del := first;
      ghost var i := 0;
      assert dropped[0..] == dropped;
      while del != null
        invariant Links(first, dropped)
        invariant i <= |dropped| && del == if i < |dropped| then dropped[i] else null
        invariant log + DropCalls(Pings(dropped[i..])) == old(log) + DropCalls(Pings(dropped))
        decreases |dropped| - i
      {
        var tmp := del;
        del := del.next;
        DropNext(dropped, i);
        log := log + [Disconnect(tmp.ping.id)];
        DestroyPingInfo(tmp);
        i := i + 1;
      }
      assert dropped[i..] == [];
      NoCalls();
    }

    // 299-313; the head is left as it is.
    method Terminate()
      requires Valid()
      modifies `log
      ensures log == PingSpec.Terminate(old(Now())).log
      ensures Valid() && Now() == PingSpec.Terminate(old(Now()))
    {
      hide DeleteCalls, Pings;
      var cur := head;
      ghost var i := 0;
      assert nodes[0..] == nodes;
      while cur != null
        invariant i <= |nodes| && cur == if i < |nodes| then nodes[i] else null
        invariant log + DeleteCalls(Pings(nodes[i..])) == old(log) + DeleteCalls(Pings(nodes))
        decreases |nodes| - i
      {
        var del := cur;
        cur := cur.next;
        DeleteNext(nodes, i);
        DestroyPingInfo(del);
        i := i + 1;
      }
      assert nodes[i..] == [];
      NoCalls();
    }
  }

  lemma {:induction false} FoundIs(pings: seq<Ping>, i: nat, addr: string, token: seq<nat>, n: nat)
    requires i <= |pings| && forall k | 0 <= k < i :: !Matches(pings[k], addr, token, n)
    requires i < |pings| ==> Matches(pings[i], addr, token, n)
    ensures Find(pings, addr, token, n) == i
  {
    if i > 0 {
      FoundIs(pings[1..], i - 1, addr, token, n);
    }
  }

  lemma {:induction false} CutIs(pings: seq<Ping>, i: nat, timeout: nat, now: nat)
    requires i <= |pings| && forall k | 0 <= k < i :: !Expired(pings[k], timeout, now)
    requires i < |pings| ==> Expired(pings[i], timeout, now)
    ensures Cut(pings, timeout, now) == i
  {
    if i > 0 {
      CutIs(pings[1..], i - 1, timeout, now);
    }
  }
}
