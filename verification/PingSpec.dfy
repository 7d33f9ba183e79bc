// The pings waiting for a pong (src/coap/caping.c), as values: what each operation does to the list
// and which callbacks it makes.

module PingSpec {

  const U64 := 0x1_0000_0000_0000_0000

  // id tells ping records apart; a record is added once.
  datatype Ping = Ping(id: nat, addr: string, token: seq<nat>, timeStamp: nat)

  datatype Call =
    | PongCallback(id: nat)
    | Disconnect(id: nat)
    | DeleteContext(id: nat)

  datatype State = State(pings: seq<Ping>, timeout: nat, log: seq<Call>)

  // The unsigned 64-bit sum of line 254 wraps around.
  predicate Expired(p: Ping, timeout: nat, now: nat) {
    (p.timeStamp + timeout) % U64 <= now
  }

  // strncmp on byte strings: equal up to n bytes or a common terminator; past its end a token reads
  // as zeros.
  predicate SameToken(a: seq<nat>, b: seq<nat>, n: nat)
    decreases n
  {
    n == 0 ||
    (var x := if a == [] then 0 else a[0];
     var y := if b == [] then 0 else b[0];
     x == y && (x == 0 || SameToken(if a == [] then [] else a[1..], if b == [] then [] else b[1..], n - 1)))
  }

  predicate Matches(p: Ping, addr: string, token: seq<nat>, n: nat) {
    p.addr == addr && SameToken(p.token, token, n)
  }

  // 195-198
  function Prepend(s: State, p: Ping): State {
    s.(pings := [p] + s.pings)
  }

  // The position of the first expired ping.
  function Cut(pings: seq<Ping>, timeout: nat, now: nat): (k: nat)
    ensures k <= |pings|
    ensures k < |pings| ==> Expired(pings[k], timeout, now)
    ensures forall i | 0 <= i < k :: !Expired(pings[i], timeout, now)
  {
    if pings == [] || Expired(pings[0], timeout, now) then 0
    else 1 + Cut(pings[1..], timeout, now)
  }

  function DropCalls(pings: seq<Ping>): seq<Call> {
    if pings == [] then []
    else [Disconnect(pings[0].id), DeleteContext(pings[0].id)] + DropCalls(pings[1..])
  }

  // 244-269
  function Process(s: State, now: nat): State {
    var k := Cut(s.pings, s.timeout, now);
    s.(pings := s.pings[..k], log := s.log + DropCalls(s.pings[k..]))
  }

  // The position of the first ping a pong answers.
  function Find(pings: seq<Ping>, addr: string, token: seq<nat>, n: nat): (k: nat)
    ensures k <= |pings|
    ensures k < |pings| ==> Matches(pings[k], addr, token, n)
    ensures forall i | 0 <= i < k :: !Matches(pings[i], addr, token, n)
  {
    if pings == [] || Matches(pings[0], addr, token, n) then 0
    else 1 + Find(pings[1..], addr, token, n)
  }

  // 278-294
  function Pong(s: State, addr: string, token: seq<nat>, n: nat): State {
    var k := Find(s.pings, addr, token, n);
    if k == |s.pings| then s
    else s.(pings := s.pings[..k] + s.pings[k + 1..],
            log := s.log + [PongCallback(s.pings[k].id), DeleteContext(s.pings[k].id)])
  }

  function DeleteCalls(pings: seq<Ping>): seq<Call> {
    if pings == [] then [] else [DeleteContext(pings[0].id)] + DeleteCalls(pings[1..])
  }

  // 299-313; the head of the list still points at the records that were destroyed.
  function Terminate(s: State): State {
    s.(log := s.log + DeleteCalls(s.pings))
  }

  // ---------------------------------------------------------------------------------------------
  // Order and expiry

  ghost predicate NewestFirst(pings: seq<Ping>) {
    forall i, j | 0 <= i < j < |pings| :: pings[i].timeStamp >= pings[j].timeStamp
  }

  // Timed out, counting without wrap-around.
  predicate TimedOut(p: Ping, timeout: nat, now: nat) {
    p.timeStamp + timeout <= now
  }

  function Remaining(pings: seq<Ping>, timeout: nat, now: nat): seq<Ping> {
    if pings == [] then []
    else (if TimedOut(pings[0], timeout, now) then [] else [pings[0]]) + Remaining(pings[1..], timeout, now)
  }

  lemma {:induction false} AllRemain(pings: seq<Ping>, timeout: nat, now: nat)
    requires forall i | 0 <= i < |pings| :: !TimedOut(pings[i], timeout, now)
    ensures Remaining(pings, timeout, now) == pings
  {
    if pings != [] {
      AllRemain(pings[1..], timeout, now);
    }
  }

  lemma {:induction false} NoneRemain(pings: seq<Ping>, timeout: nat, now: nat)
    requires forall i | 0 <= i < |pings| :: TimedOut(pings[i], timeout, now)
    ensures Remaining(pings, timeout, now) == []
  {
    if pings != [] {
      NoneRemain(pings[1..], timeout, now);
    }
  }

  lemma {:induction false} RemainingConcat(a: seq<Ping>, b: seq<Ping>, timeout: nat, now: nat)
    ensures Remaining(a + b, timeout, now) == Remaining(a, timeout, now) + Remaining(b, timeout, now)
  {
    if a == [] {
      assert a + b == b;
    } else {
      assert (a + b)[1..] == a[1..] + b;
      RemainingConcat(a[1..], b, timeout, now);
    }
  }

  // Stamps, timeout and clock fit into 64 bits, and no stamp is in the future.
  ghost predicate Stamped(pings: seq<Ping>, timeout: nat, now: nat) {
    && timeout < U64 && now < U64
    && forall i | 0 <= i < |pings| :: pings[i].timeStamp <= now
  }

  // Cutting at the first expired ping removes exactly the pings that timed out, and keeps the others
  // in order, if and only if the newest stamp plus the timeout does not wrap around.
  lemma {:induction false} CutIsExact(pings: seq<Ping>, timeout: nat, now: nat)
    requires NewestFirst(pings) && Stamped(pings, timeout, now)
    ensures pings[..Cut(pings, timeout, now)] == Remaining(pings, timeout, now)
            <==> pings == [] || pings[0].timeStamp + timeout < U64
  {
    var k := Cut(pings, timeout, now);
    if pings != [] && pings[0].timeStamp + timeout >= U64 {
      assert Expired(pings[0], timeout, now);
      assert pings[0] in Remaining(pings, timeout, now);
    } else {
      forall i | 0 <= i < |pings| ensures Expired(pings[i], timeout, now) == TimedOut(pings[i], timeout, now) {
        assert pings[0].timeStamp >= pings[i].timeStamp;
      }
      assert pings == pings[..k] + pings[k..];
      RemainingConcat(pings[..k], pings[k..], timeout, now);
      AllRemain(pings[..k], timeout, now);
      NoneRemain(pings[k..], timeout, now);
    }
  }

  // A ping sent with a timeout so long that the sum wraps around is dropped at once.
  lemma {:induction false} LongTimeoutExpiresAtOnce()
    ensures var ping := Ping(0, "a", [], 1);
            Cut([ping], U64 - 1, 1) == 0 && !TimedOut(ping, U64 - 1, 1)
  {
  }

  // Adding a ping keeps the list newest-first exactly when it is not older than the first one.
  lemma PrependKeepsOrder(s: State, p: Ping)
    requires NewestFirst(s.pings)
    ensures NewestFirst(Prepend(s, p).pings) <==> s.pings == [] || p.timeStamp >= s.pings[0].timeStamp
  {
    var pings := Prepend(s, p).pings;
    if s.pings != [] {
      assert pings[1] == s.pings[0];
      assert NewestFirst(pings) ==> pings[0].timeStamp >= pings[1].timeStamp;
      if p.timeStamp >= s.pings[0].timeStamp {
        forall i, j | 0 <= i < j < |pings| ensures pings[i].timeStamp >= pings[j].timeStamp {
          assert pings[j] == s.pings[j - 1];
          assert i > 0 ==> pings[i] == s.pings[i - 1];
        }
      }
    }
  }

  lemma {:induction false} OthersKeepOrder(s: State, addr: string, token: seq<nat>, n: nat, now: nat)
    requires NewestFirst(s.pings)
    ensures NewestFirst(Process(s, now).pings) && NewestFirst(Pong(s, addr, token, n).pings)
  {
  }

  // ---------------------------------------------------------------------------------------------
  // Whole runs

  // Each operation happens at a time; a ping is stamped with the time it is sent at.
  datatype Op =
    | Send(p: Ping)
    | Answer(addr: string, token: seq<nat>, n: nat)
    | Expire
    | SetTimeout(timeout: nat)

  datatype Event = Event(now: nat, op: Op)

  const INITIAL := State([], 10000, [])

  function Apply(s: State, e: Event): State {
    match e.op
    case Send(p) => Prepend(s, p)
    case Answer(addr, token, n) => Pong(s, addr, token, n)
    case Expire => Process(s, e.now)
    case SetTimeout(t) => s.(timeout := t)
  }

  function After(events: seq<Event>): State {
    if events == [] then INITIAL else Apply(After(events[..|events| - 1]), events[|events| - 1])
  }

  // Time does not run backwards, and pings carry the time they were sent at.
  ghost predicate Monotone(events: seq<Event>) {
    && (forall i, j | 0 <= i < j < |events| :: events[i].now <= events[j].now)
    && (forall i | 0 <= i < |events| && events[i].op.Send? :: events[i].op.p.timeStamp == events[i].now)
  }

  lemma MonotoneBefore(events: seq<Event>)
    requires events != [] && Monotone(events)
    ensures Monotone(events[..|events| - 1])
    ensures |events| > 1 ==> events[|events| - 2].now <= events[|events| - 1].now
    ensures var e := events[|events| - 1]; e.op.Send? ==> e.op.p.timeStamp == e.now
  {
  }

  // The list is newest-first at every moment of every run, also when the timeout changes.
  lemma {:induction false} RunIsNewestFirst(events: seq<Event>)
    requires Monotone(events)
    ensures NewestFirst(After(events).pings)
    ensures events != [] ==>
      forall i | 0 <= i < |After(events).pings| :: After(events).pings[i].timeStamp <= events[|events| - 1].now
    ensures events == [] ==> After(events).pings == []
    decreases |events|
  {
    hide Expired, SameToken, DropCalls, DeleteCalls, Monotone;
    if events != [] {
      var before, e := events[..|events| - 1], events[|events| - 1];
      var s := After(before);
      MonotoneBefore(events);
      RunIsNewestFirst(before);
      match e.op
      case Send(p) => PrependKeepsOrder(s, p);
      case Answer(addr, token, n) => OthersKeepOrder(s, addr, token, n, e.now);
      case Expire => OthersKeepOrder(s, "", [], 0, e.now);
      case SetTimeout(_) =>
    }
  }

  // A record is sent once.
  ghost predicate DistinctSends(events: seq<Event>) {
    forall i, j | 0 <= i < j < |events| && events[i].op.Send? && events[j].op.Send? ::
      events[i].op.p.id != events[j].op.p.id
  }

  ghost predicate Sent(events: seq<Event>, id: nat) {
    exists i :: 0 <= i < |events| && events[i].op.Send? && events[i].op.p.id == id
  }

  function Calls(log: seq<Call>, c: Call): nat {
    multiset(log)[c]
  }

  function Listed(pings: seq<Ping>, id: nat): nat {
    if pings == [] then 0 else (if pings[0].id == id then 1 else 0) + Listed(pings[1..], id)
  }

  // No call is made on a record whose context has been deleted.
  ghost predicate NoUseAfterDelete(log: seq<Call>) {
    forall j | 0 <= j < |log| :: Calls(log[..j], DeleteContext(log[j].id)) == 0
  }

  // Each record sent is in the list or has been deleted, once; its pong callback comes with deletion.
  ghost predicate Owned(s: State, id: nat, sent: nat) {
    && Listed(s.pings, id) + Calls(s.log, DeleteContext(id)) == sent
    && Calls(s.log, PongCallback(id)) <= Calls(s.log, DeleteContext(id))
  }

  lemma {:induction false} ListedConcat(a: seq<Ping>, b: seq<Ping>, id: nat)
    ensures Listed(a + b, id) == Listed(a, id) + Listed(b, id)
  {
    if a == [] {
      assert a + b == b;
    } else {
      assert (a + b)[1..] == a[1..] + b;
      ListedConcat(a[1..], b, id);
    }
  }

  lemma CallsConcat(a: seq<Call>, b: seq<Call>, c: Call)
    ensures Calls(a + b, c) == Calls(a, c) + Calls(b, c)
  {
  }

  lemma {:induction false} DropCallsOf(pings: seq<Ping>, id: nat)
    ensures Calls(DropCalls(pings), DeleteContext(id)) == Listed(pings, id)
    ensures Calls(DropCalls(pings), PongCallback(id)) == 0
  {
    if pings != [] {
      DropCallsOf(pings[1..], id);
      CallsConcat([Disconnect(pings[0].id), DeleteContext(pings[0].id)], DropCalls(pings[1..]), DeleteContext(id));
      CallsConcat([Disconnect(pings[0].id), DeleteContext(pings[0].id)], DropCalls(pings[1..]), PongCallback(id));
    }
  }

  lemma {:induction false} DeleteCallsOf(pings: seq<Ping>, id: nat)
    ensures Calls(DeleteCalls(pings), DeleteContext(id)) == Listed(pings, id)
    ensures Calls(DeleteCalls(pings), PongCallback(id)) == 0 && Calls(DeleteCalls(pings), Disconnect(id)) == 0
  {
    if pings != [] {
      DeleteCallsOf(pings[1..], id);
      CallsConcat([DeleteContext(pings[0].id)], DeleteCalls(pings[1..]), Disconnect(id));
      CallsConcat([DeleteContext(pings[0].id)], DeleteCalls(pings[1..]), DeleteContext(id));
      CallsConcat([DeleteContext(pings[0].id)], DeleteCalls(pings[1..]), PongCallback(id));
    }
  }

  lemma ProcessOwns(s: State, now: nat, id: nat, sent: nat)
    requires Owned(s, id, sent)
    ensures Owned(Process(s, now), id, sent)
  {
    var k := Cut(s.pings, s.timeout, now);
    assert s.pings == s.pings[..k] + s.pings[k..];
    ListedConcat(s.pings[..k], s.pings[k..], id);
    DropCallsOf(s.pings[k..], id);
    CallsConcat(s.log, DropCalls(s.pings[k..]), DeleteContext(id));
    CallsConcat(s.log, DropCalls(s.pings[k..]), PongCallback(id));
  }

  lemma ListedWithout(pings: seq<Ping>, k: nat, id: nat)
    requires k < |pings|
    ensures Listed(pings, id) == Listed(pings[..k] + pings[k + 1..], id) + if pings[k].id == id then 1 else 0
  {
    assert pings == pings[..k] + pings[k..] && pings[k..][1..] == pings[k + 1..];
    ListedConcat(pings[..k], pings[k..], id);
    ListedConcat(pings[..k], pings[k + 1..], id);
  }

  lemma TwoCalls(log: seq<Call>, c: Call, d: Call, x: Call)
    requires c != d
    ensures Calls(log + [c, d], x) == Calls(log, x) + if x == c || x == d then 1 else 0
  {
    CallsConcat(log, [c, d], x);
  }

  // A pong makes one callback and one deletion for the ping that it takes from the list.
  lemma AnswerCalls(s: State, addr: string, token: seq<nat>, n: nat, id: nat)
    ensures var t := Pong(s, addr, token, n);
            var left := Listed(s.pings, id) - Listed(t.pings, id);
            && Calls(t.log, Disconnect(id)) == Calls(s.log, Disconnect(id))
            && Calls(t.log, PongCallback(id)) == Calls(s.log, PongCallback(id)) + left
            && Calls(t.log, DeleteContext(id)) == Calls(s.log, DeleteContext(id)) + left
            && left >= 0 && |s.pings| - 1 <= |t.pings| <= |s.pings| && s.log <= t.log
  {
    hide Find, Listed, Calls;
    var k := Find(s.pings, addr, token, n);
    if k < |s.pings| {
      var p := s.pings[k];
      ListedWithout(s.pings, k, id);
      TwoCalls(s.log, PongCallback(p.id), DeleteContext(p.id), Disconnect(id));
      TwoCalls(s.log, PongCallback(p.id), DeleteContext(p.id), PongCallback(id));
      TwoCalls(s.log, PongCallback(p.id), DeleteContext(p.id), DeleteContext(id));
    }
  }

  lemma PongOwns(s: State, addr: string, token: seq<nat>, n: nat, id: nat, sent: nat)
    requires Owned(s, id, sent)
    ensures Owned(Pong(s, addr, token, n), id, sent)
  {
    AnswerCalls(s, addr, token, n, id);
  }

  lemma TerminateDeletes(s: State, id: nat)
    ensures var log := Terminate(s).log;
            && Calls(log, DeleteContext(id)) == Calls(s.log, DeleteContext(id)) + Listed(s.pings, id)
            && Calls(log, PongCallback(id)) == Calls(s.log, PongCallback(id))
            && Calls(log, Disconnect(id)) == Calls(s.log, Disconnect(id))
  {
    DeleteCallsOf(s.pings, id);
    CallsConcat(s.log, DeleteCalls(s.pings), DeleteContext(id));
    CallsConcat(s.log, DeleteCalls(s.pings), PongCallback(id));
    CallsConcat(s.log, DeleteCalls(s.pings), Disconnect(id));
  }

  ghost function SentOnce(events: seq<Event>, id: nat): nat {
    if Sent(events, id) then 1 else 0
  }

  lemma SentNext(events: seq<Event>, id: nat)
    requires events != []
    ensures var e := events[|events| - 1];
            Sent(events, id) <==> Sent(events[..|events| - 1], id) || (e.op.Send? && e.op.p.id == id)
  {
    var before := events[..|events| - 1];
    if Sent(before, id) {
      var i :| 0 <= i < |before| && before[i].op.Send? && before[i].op.p.id == id;
      assert events[i] == before[i];
    }
  }

  lemma {:induction false} RunOwns(events: seq<Event>, id: nat)
    requires DistinctSends(events)
    ensures Owned(After(events), id, SentOnce(events, id))
    decreases |events|
  {
    if events != [] {
      var before, e := events[..|events| - 1], events[|events| - 1];
      var s := After(before);
      RunOwns(before, id);
      SentNext(events, id);
      match e.op
      case Send(p) => assert Prepend(s, p).pings[1..] == s.pings;
      case Answer(addr, token, n) => PongOwns(s, addr, token, n, id, SentOnce(before, id));
      case Expire => ProcessOwns(s, e.now, id, SentOnce(before, id));
      case SetTimeout(_) =>
    }
  }

  // Every run that ends with CATerminatePing deletes the context of each ping sent exactly once, and
  // calls back about it at most once.
  lemma {:induction false} EveryContextIsDeletedOnce(events: seq<Event>, id: nat)
    requires DistinctSends(events)
    ensures var log := Terminate(After(events)).log;
            && Calls(log, DeleteContext(id)) == SentOnce(events, id)
            && Calls(log, PongCallback(id)) <= 1
  {
    RunOwns(events, id);
    TerminateDeletes(After(events), id);
  }

  // Before that, what has been deleted is not in the list any more.
  lemma DeletedIsUnlinked(events: seq<Event>, i: nat)
    requires DistinctSends(events) && i < |After(events).pings|
    ensures Calls(After(events).log, DeleteContext(After(events).pings[i].id)) == 0
  {
    RunOwns(events, After(events).pings[i].id);
    ListedAt(After(events).pings, i);
  }

  lemma {:induction false} ListedAt(pings: seq<Ping>, i: nat)
    requires i < |pings|
    ensures Listed(pings, pings[i].id) > 0
  {
    if i > 0 {
      ListedAt(pings[1..], i - 1);
    }
  }

  lemma UseEmit(log: seq<Call>, c: Call)
    ensures NoUseAfterDelete(log + [c]) <==> NoUseAfterDelete(log) && Calls(log, DeleteContext(c.id)) == 0
  {
    var more := log + [c];
    assert forall j | 0 <= j < |log| :: more[..j] == log[..j] && more[j] == log[j];
    assert more[..|log|] == log && more[|log|] == c;
    if NoUseAfterDelete(more) {
      forall j | 0 <= j < |log| ensures Calls(log[..j], DeleteContext(log[j].id)) == 0 {
        assert Calls(more[..j], DeleteContext(more[j].id)) == 0;
      }
    }
  }

  // The records of a list are distinct and not deleted.
  ghost predicate Fresh(pings: seq<Ping>, log: seq<Call>) {
    && (forall i, j | 0 <= i < j < |pings| :: pings[i].id != pings[j].id)
    && (forall i | 0 <= i < |pings| :: Calls(log, DeleteContext(pings[i].id)) == 0)
  }

  // One record is dropped: a call on it, then its deletion.
  lemma DropOne(log: seq<Call>, c: Call)
    requires NoUseAfterDelete(log) && Calls(log, DeleteContext(c.id)) == 0 && !c.DeleteContext?
    ensures var more := log + [c, DeleteContext(c.id)];
            NoUseAfterDelete(more) &&
            forall id: nat | id != c.id :: Calls(more, DeleteContext(id)) == Calls(log, DeleteContext(id))
  {
    UseEmit(log, c);
    CallsConcat(log, [c], DeleteContext(c.id));
    UseEmit(log + [c], DeleteContext(c.id));
    assert log + [c] + [DeleteContext(c.id)] == log + [c, DeleteContext(c.id)];
  }

  lemma FreshAfterDrop(pings: seq<Ping>, log: seq<Call>)
    requires pings != [] && NoUseAfterDelete(log) && Fresh(pings, log)
    ensures var more := log + [Disconnect(pings[0].id), DeleteContext(pings[0].id)];
            NoUseAfterDelete(more) && Fresh(pings[1..], more)
  {
    hide NoUseAfterDelete, Calls;
    DropOne(log, Disconnect(pings[0].id));
  }

  lemma {:induction false} DropsAreSafe(pings: seq<Ping>, log: seq<Call>)
    requires NoUseAfterDelete(log) && Fresh(pings, log)
    ensures NoUseAfterDelete(log + DropCalls(pings))
  {
    hide NoUseAfterDelete, Calls, Fresh;
    if pings == [] {
      assert log + [] == log;
    } else {
      var more := log + [Disconnect(pings[0].id), DeleteContext(pings[0].id)];
      FreshAfterDrop(pings, log);
      DropsAreSafe(pings[1..], more);
      assert more + DropCalls(pings[1..]) == log + DropCalls(pings);
    }
  }

  lemma FreshAfterDelete(pings: seq<Ping>, log: seq<Call>)
    requires pings != [] && NoUseAfterDelete(log) && Fresh(pings, log)
    ensures var more := log + [DeleteContext(pings[0].id)];
            NoUseAfterDelete(more) && Fresh(pings[1..], more)
  {
    var more := log + [DeleteContext(pings[0].id)];
    UseEmit(log, DeleteContext(pings[0].id));
    hide NoUseAfterDelete, Calls;
    forall i | 0 <= i < |pings[1..]| ensures Calls(more, DeleteContext(pings[1..][i].id)) == 0 {
      CallsConcat(log, [DeleteContext(pings[0].id)], DeleteContext(pings[i + 1].id));
      OtherCall(DeleteContext(pings[0].id), DeleteContext(pings[i + 1].id));
    }
  }

  lemma OtherCall(c: Call, d: Call)
    requires c != d
    ensures Calls([c], d) == 0
  {
  }

  lemma {:induction false} DeletesAreSafe(pings: seq<Ping>, log: seq<Call>)
    requires NoUseAfterDelete(log) && Fresh(pings, log)
    ensures NoUseAfterDelete(log + DeleteCalls(pings))
  {
    hide NoUseAfterDelete, Calls, Fresh;
    if pings == [] {
      assert log + [] == log;
    } else {
      var more := log + [DeleteContext(pings[0].id)];
      FreshAfterDelete(pings, log);
      DeletesAreSafe(pings[1..], more);
      assert more + DeleteCalls(pings[1..]) == log + DeleteCalls(pings);
    }
  }

  lemma {:induction false} ListedTwice(pings: seq<Ping>, i: nat, j: nat)
    requires i < j < |pings| && pings[i].id == pings[j].id
    ensures Listed(pings, pings[i].id) > 1
  {
    if i > 0 {
      ListedTwice(pings[1..], i - 1, j - 1);
    } else {
      ListedAt(pings[1..], j - 1);
    }
  }

  lemma RunIsFresh(events: seq<Event>)
    requires DistinctSends(events)
    ensures Fresh(After(events).pings, After(events).log)
  {
    var s := After(events);
    forall i, j | 0 <= i < j < |s.pings| ensures s.pings[i].id != s.pings[j].id {
      RunOwns(events, s.pings[i].id);
      if s.pings[i].id == s.pings[j].id {
        ListedTwice(s.pings, i, j);
      }
    }
    forall i | 0 <= i < |s.pings| ensures Calls(s.log, DeleteContext(s.pings[i].id)) == 0 {
      DeletedIsUnlinked(events, i);
    }
  }

  // No run, terminated or not, disconnects a ping, calls back about it, or deletes its context after
  // its context has been deleted.
  lemma {:induction false} NeverUsedAfterDelete(events: seq<Event>)
    requires DistinctSends(events)
    ensures NoUseAfterDelete(After(events).log) && NoUseAfterDelete(Terminate(After(events)).log)
    decreases |events|
  {
    if events != [] {
      var before, e := events[..|events| - 1], events[|events| - 1];
      var s := After(before);
      NeverUsedAfterDelete(before);
      RunIsFresh(before);
      if e.op.Expire? {
        var k := Cut(s.pings, s.timeout, e.now);
        DropsAreSafe(s.pings[k..], s.log);
      } else if e.op.Answer? {
        var k := Find(s.pings, e.op.addr, e.op.token, e.op.n);
        if k < |s.pings| {
          DropOne(s.log, PongCallback(s.pings[k].id));
        }
      }
    }
    RunIsFresh(events);
    DeletesAreSafe(After(events).pings, After(events).log);
  }

  // ---------------------------------------------------------------------------------------------
  // Why a record was deleted: its session was disconnected, or its pong came

  // The calls about id up to here: deleted as often as disconnected or called back.
  ghost predicate Paired(log: seq<Call>, id: nat) {
    Calls(log, Disconnect(id)) + Calls(log, PongCallback(id)) == Calls(log, DeleteContext(id))
  }

  // Each deletion comes right behind a call on the same record that gives the reason.
  ghost predicate Explained(log: seq<Call>) {
    forall j | 0 <= j < |log| && log[j].DeleteContext? ::
      j > 0 && (log[j - 1] == Disconnect(log[j].id) || log[j - 1] == PongCallback(log[j].id))
  }

  lemma ExplainedMore(log: seq<Call>, c: Call)
    requires Explained(log) && !c.DeleteContext?
    ensures Explained(log + [c, DeleteContext(c.id)])
  {
    var more := log + [c, DeleteContext(c.id)];
    assert forall j | 0 <= j < |log| :: more[j] == log[j];
  }

  lemma {:induction false} DropsExplained(pings: seq<Ping>, log: seq<Call>)
    requires Explained(log)
    ensures Explained(log + DropCalls(pings))
    decreases |pings|
  {
    hide Explained;
    if pings == [] {
      assert log + [] == log;
    } else {
      var more := log + [Disconnect(pings[0].id), DeleteContext(pings[0].id)];
      ExplainedMore(log, Disconnect(pings[0].id));
      DropsExplained(pings[1..], more);
      assert more + DropCalls(pings[1..]) == log + DropCalls(pings);
    }
  }

  lemma {:induction false} DropsDisconnect(pings: seq<Ping>, id: nat)
    ensures Calls(DropCalls(pings), Disconnect(id)) == Listed(pings, id)
  {
    if pings != [] {
      DropsDisconnect(pings[1..], id);
      CallsConcat([Disconnect(pings[0].id), DeleteContext(pings[0].id)], DropCalls(pings[1..]), Disconnect(id));
    }
  }

  // Each event accounts for the pings that leave the list in it: expiry by a disconnection, a pong by a
  // callback, and for each by one deletion. Nothing else makes a call.
  lemma {:induction false} CallsFollowTheList(events: seq<Event>, e: Event, id: nat)
    ensures var s, t := After(events), After(events + [e]);
            && Calls(t.log, Disconnect(id)) - Calls(s.log, Disconnect(id))
               == (if e.op.Expire? then Listed(s.pings, id) - Listed(t.pings, id) else 0)
            && Calls(t.log, PongCallback(id)) - Calls(s.log, PongCallback(id))
               == (if e.op.Answer? then Listed(s.pings, id) - Listed(t.pings, id) else 0)
            && Calls(t.log, DeleteContext(id)) - Calls(s.log, DeleteContext(id))
               == (if e.op.Expire? || e.op.Answer? then Listed(s.pings, id) - Listed(t.pings, id) else 0)
            && (e.op.Answer? ==> |s.pings| - 1 <= |t.pings| <= |s.pings|)
            && s.log <= t.log
  {
    hide Calls, Listed, Expired, Matches;
    var s := After(events);
    assert (events + [e])[..|events|] == events;
    match e.op
    case Expire =>
      var k := Cut(s.pings, s.timeout, e.now);
      assert s.pings == s.pings[..k] + s.pings[k..];
      ListedConcat(s.pings[..k], s.pings[k..], id);
      DropCallsOf(s.pings[k..], id);
      DropsDisconnect(s.pings[k..], id);
      CallsConcat(s.log, DropCalls(s.pings[k..]), Disconnect(id));
      CallsConcat(s.log, DropCalls(s.pings[k..]), PongCallback(id));
      CallsConcat(s.log, DropCalls(s.pings[k..]), DeleteContext(id));
    case Answer(addr, token, n) => AnswerCalls(s, addr, token, n, id);
    case _ =>
  }

  // Before termination a context is deleted exactly as often as the session was disconnected or the pong
  // was called back, and each deletion comes right behind the one or the other.
  lemma {:induction false} DeletionsAreExplained(events: seq<Event>, id: nat)
    ensures Paired(After(events).log, id) && Explained(After(events).log)
    decreases |events|
  {
    hide Explained, Calls;
    if events == [] {
      NothingExplained(id);
    } else {
      var before, e := events[..|events| - 1], events[|events| - 1];
      var s := After(before);
      DeletionsAreExplained(before, id);
      CallsFollowTheList(before, e, id);
      assert before + [e] == events;
      match e.op
      case Expire => DropsExplained(s.pings[Cut(s.pings, s.timeout, e.now)..], s.log);
      case Answer(addr, token, n) =>
        var k := Find(s.pings, addr, token, n);
        if k < |s.pings| {
          ExplainedMore(s.log, PongCallback(s.pings[k].id));
        }
      case _ =>
    }
  }

  lemma NothingExplained(id: nat)
    ensures Paired([], id) && Explained([])
  {
  }

  // A record sent once that is not in the list any more was disconnected or called back, once.
  lemma {:induction false} EachEndsOneWay(events: seq<Event>, id: nat)
    requires DistinctSends(events)
    ensures var s := After(events);
            Calls(s.log, Disconnect(id)) + Calls(s.log, PongCallback(id)) + Listed(s.pings, id)
            == if Sent(events, id) then 1 else 0
  {
    RunOwns(events, id);
    DeletionsAreExplained(events, id);
  }

  // Tokens without zeros are compared as a whole, up to the length the pong gives.
  lemma {:induction false} SameTokenIs(a: seq<nat>, b: seq<nat>, n: nat)
    requires n <= |a| && n <= |b| && 0 !in a[..n]
    ensures SameToken(a, b, n) <==> a[..n] == b[..n]
    decreases n
  {
    if n > 0 {
      assert a[..n] == [a[0]] + a[1..][..n - 1] && b[..n] == [b[0]] + b[1..][..n - 1];
      assert a[0] in a[..n];
      SameTokenIs(a[1..], b[1..], n - 1);
    }
  }

  // The ping was sent to this address with a token that begins as the pong's.
  predicate Answers(p: Ping, addr: string, token: seq<nat>, n: nat)
    requires n <= |p.token| && n <= |token|
  {
    p.addr == addr && p.token[..n] == token[..n]
  }

  // A pong removes the newest ping that has its address and token, and no other.
  lemma {:induction false} NewestIsAnswered(
    events: seq<Event>, now: nat, addr: string, token: seq<nat>, n: nat)
    requires n <= |token| && 0 !in token[..n]
    requires forall p | p in After(events).pings :: n <= |p.token| && 0 !in p.token[..n]
    ensures var s, t := After(events).pings, After(events + [Event(now, Answer(addr, token, n))]).pings;
            || (t == s && forall p | p in s :: !Answers(p, addr, token, n))
            || (exists k | 0 <= k < |s| :: t == s[..k] + s[k + 1..] && Answers(s[k], addr, token, n)
                                           && forall j | 0 <= j < k :: !Answers(s[j], addr, token, n))
  {
    hide SameToken, Find;
    var s, e := After(events).pings, Event(now, Answer(addr, token, n));
    assert (events + [e])[..|events|] == events;
    forall j | 0 <= j < |s| ensures Matches(s[j], addr, token, n) <==> Answers(s[j], addr, token, n) {
      assert s[j] in s;
      SameTokenIs(s[j].token, token, n);
    }
    hide After, Matches, Answers;
    var k := Find(s, addr, token, n);
    if k == |s| {
      assert forall p | p in s :: !Answers(p, addr, token, n);
    } else {
      assert Answers(s[k], addr, token, n) && forall j | 0 <= j < k :: !Answers(s[j], addr, token, n);
    }
  }

  // ---------------------------------------------------------------------------------------------
  // After CATerminatePing the list head is left as it was, and CAInitializePing does not clear it

  lemma DeletedIsUsed(log: seq<Call>, more: seq<Call>)
    requires more != [] && Calls(log, DeleteContext(more[0].id)) > 0
    ensures !NoUseAfterDelete(log + more)
  {
    hide Calls;
    assert (log + more)[..|log|] == log && (log + more)[|log|] == more[0];
  }

  lemma ListedIsDeleted(s: State, i: nat)
    requires i < |s.pings|
    ensures Calls(Terminate(s).log, DeleteContext(s.pings[i].id)) > 0
  {
    TerminateDeletes(s, s.pings[i].id);
    ListedAt(s.pings, i);
  }

  // After termination, calls on destroyed records are made if and only if a ping left in the list has
  // expired by then, or is answered; and by a second termination unless the list was empty.
  lemma {:induction false} UsedAfterTermination(
    events: seq<Event>, now: nat, addr: string, token: seq<nat>, n: nat)
    requires DistinctSends(events)
    ensures var s := Terminate(After(events));
            && (NoUseAfterDelete(Process(s, now).log) <==> forall p | p in s.pings :: !Expired(p, s.timeout, now))
            && (NoUseAfterDelete(Pong(s, addr, token, n).log)
                <==> forall p | p in s.pings :: !Matches(p, addr, token, n))
            && (NoUseAfterDelete(Terminate(s).log) <==> s.pings == [])
  {
    hide NoUseAfterDelete, Calls, Cut, Find, After;
    var s := Terminate(After(events));
    var k, i := Cut(s.pings, s.timeout, now), Find(s.pings, addr, token, n);
    NeverUsedAfterDelete(events);
    if k < |s.pings| {
      ListedIsDeleted(After(events), k);
      DeletedIsUsed(s.log, DropCalls(s.pings[k..]));
    } else {
      assert s.log + DropCalls(s.pings[k..]) == s.log;
    }
    if i < |s.pings| {
      ListedIsDeleted(After(events), i);
      DeletedIsUsed(s.log, [PongCallback(s.pings[i].id), DeleteContext(s.pings[i].id)]);
    }
    if s.pings != [] {
      ListedIsDeleted(After(events), 0);
      DeletedIsUsed(s.log, DeleteCalls(s.pings));
    } else {
      assert s.log + DeleteCalls(s.pings) == s.log;
    }
  }
}
