// What becomes of a queued message (src/comm/caqueueingthread.c:82-129) as long as nobody asks the worker
// to stop: the worker takes it, gives it to threadTask and releases it within a known number of steps.

module QueueingProgress {
  import opened Options
  import opened QueueingThread
  import opened QueueingHandshake

  // In the loop, so not on the way out.
  predicate InLoop(pc: WorkerPc) {
    !Exiting(pc) && !pc.Finished?
  }

  // The most steps a worker in its loop takes until it takes a message from a queue that is not empty.
  function StepsToTake(pc: WorkerPc): nat {
    match pc
    case AtTask(_) => 6
    case AtFree(_) => 5
    case AtLoop => 4
    case AtLock => 3
    case AtTest | Notified | Waiting => 2
    case _ => 1
  }

  // Messages are numbered, so x is queued as long as x messages or fewer have left the queue.
  function StepsToRelease(s: State, i: nat, x: nat): nat
    requires i < |s.workers|
  {
    if |s.popped| <= x then 6 * (x - |s.popped|) + StepsToTake(s.workers[i]) + 2
    else if s.workers[i] == AtTask(x) then 2
    else if s.workers[i] == AtFree(x) then 1
    else 0
  }

  // The steps of worker i between states m and n.
  function StepsOf(actions: seq<Action>, i: nat, m: nat, n: nat): nat
    requires m <= n <= |actions|
    decreases n
  {
    if m == n then 0
    else
      StepsOf(actions, i, m, n - 1) + if actions[n - 1].ByWorker? && actions[n - 1].i == i then 1 else 0
  }

  // Message x is queued, or worker i has it, or it was given to threadTask and released, or Destroy
  // released it.
  predicate Handled(s: State, i: nat, x: nat)
    requires i < |s.workers|
  {
    || |s.popped| <= x
    || s.workers[i] == AtTask(x)
    || (s.workers[i] == AtFree(x) && x in s.tasked)
    || (x in s.tasked && x in s.freed)
    || x in s.drained
  }

  function Less(n: nat, k: nat): nat {
    if n < k then 0 else n - k
  }

  predicate IsStepOf(a: Action, i: nat) {
    a.ByWorker? && a.i == i
  }

  // ---------------------------------------------------------------------------------------------
  // One step

  // A step of another thread at most wakes the worker up.
  lemma OthersLeaveIt(s: State, t: State, a: Action, i: nat)
    requires Step(s, t, a) && i < |s.workers| && !IsStepOf(a, i)
    ensures i < |t.workers|
    ensures t.workers[i] == s.workers[i] || (s.workers[i].Waiting? && t.workers[i].Notified?)
  {
    match a
    case ByWorker(j, wake) => OtherWorker(s, t, i, j, wake);
    case ByController(choice, wake) => ControllerMoves(s, t, choice, wake);
    case _ =>
  }

  lemma OtherWorker(s: State, t: State, i: nat, j: nat, wake: Option<Waiter>)
    requires WorkerStep(s, t, j, wake) && i < |s.workers| && i != j
    ensures |t.workers| == |s.workers|
    ensures t.workers[i] == s.workers[i] || (s.workers[i].Waiting? && t.workers[i].Notified?)
  {
  }

  // The queue holds the numbers from |popped| on.
  lemma QueueIsNumbered(s: State)
    requires s.popped + s.queue == Numbers(s.added)
    ensures |s.popped| + |s.queue| == s.added
    ensures forall k | 0 <= k < |s.queue| :: s.queue[k] == |s.popped| + k
  {
    forall k | 0 <= k < |s.queue| ensures s.queue[k] == |s.popped| + k {
      assert (s.popped + s.queue)[|s.popped| + k] == s.queue[k];
    }
  }

  // What the worker's own step does, on the way to taking a message and after it.
  lemma OwnStep(s: State, t: State, i: nat, wake: Option<Waiter>)
    requires WorkerStep(s, t, i, wake) && InLoop(s.workers[i]) && !s.isStop
    ensures |t.workers| == |s.workers| && InLoop(t.workers[i])
    ensures t.added == s.added && t.drained == s.drained
    ensures s.workers[i].AtStopCheck? && s.queue != [] ==>
              && t.workers[i] == AtTask(s.queue[0]) && t.popped == s.popped + [s.queue[0]]
              && t.tasked == s.tasked && t.freed == s.freed
    ensures !(s.workers[i].AtStopCheck? && s.queue != []) ==> t.popped == s.popped
    ensures !s.workers[i].AtStopCheck? && s.queue != [] ==> StepsToTake(t.workers[i]) < StepsToTake(s.workers[i])
    ensures s.workers[i].AtTask? ==>
              && t.workers[i] == AtFree(s.workers[i].m) && t.tasked == s.tasked + [s.workers[i].m]
              && t.freed == s.freed
    ensures s.workers[i].AtFree? ==>
              t.workers[i].AtLoop? && t.tasked == s.tasked && t.freed == s.freed + [s.workers[i].m]
    ensures !s.workers[i].AtTask? && !s.workers[i].AtFree? ==> t.tasked == s.tasked && t.freed == s.freed
    ensures !s.workers[i].AtTask? && !s.workers[i].AtStopCheck? ==> !t.workers[i].AtTask? && !t.workers[i].AtFree?
  {
  }

  // Each step of worker i brings the release of message x nearer; steps of others do not put it off.
  lemma Approaches(s: State, t: State, a: Action, i: nat, x: nat)
    requires Step(s, t, a) && Conserved(s) && !s.isStop && x < s.added
    requires i < |s.workers| && InLoop(s.workers[i])
    ensures i < |t.workers| && InLoop(t.workers[i]) && x < t.added
    ensures StepsToRelease(t, i, x) <= Less(StepsToRelease(s, i, x), if IsStepOf(a, i) then 1 else 0)
  {
    QueueStep(s, t, a);
    QueueIsNumbered(s);
    if IsStepOf(a, i) {
      OwnStep(s, t, i, a.wake);
    } else {
      OthersLeaveIt(s, t, a, i);
    }
    hide Step, Conserved;
  }

  // What steps of the controller, of producers and spurious wakeups do to what messages went through.
  lemma OthersRecord(s: State, t: State, a: Action)
    requires Step(s, t, a) && !a.ByWorker?
    ensures t.tasked == s.tasked && t.freed == s.freed
    ensures || (t.popped == s.popped && t.drained == s.drained)
            || (s.queue != [] && t.popped == s.popped + [s.queue[0]] && t.drained == s.drained + [s.queue[0]])
  {
  }

  // With one live worker, a message that leaves the queue is with that worker, or Destroy has it.
  lemma HandledStays(s: State, t: State, a: Action, i: nat, x: nat)
    requires Step(s, t, a) && Conserved(s) && OneLive(s) && !s.isStop && x < s.added
    requires i < |s.workers| && InLoop(s.workers[i]) && Handled(s, i, x)
    ensures i < |t.workers| && Handled(t, i, x)
  {
    QueueIsNumbered(s);
    match a
    case ByWorker(j, wake) =>
      OthersFinished(s, i);
      assert j == i;
      OwnStep(s, t, i, wake);
    case _ =>
      OthersLeaveIt(s, t, a, i);
      OthersRecord(s, t, a);
      hide Step, Conserved, OneLive;
  }

  // ---------------------------------------------------------------------------------------------
  // Runs

  // In every run: as long as nobody asks for a stop, the steps of a worker that is in its loop bring the
  // release of a queued message nearer, one by one, whatever the other threads do.
  lemma {:induction false} StepsCount(states: seq<State>, actions: seq<Action>, m: nat, n: nat, i: nat, x: nat)
    requires Run(states, actions) && m <= n < |states| && forall k | m <= k <= n :: !states[k].isStop
    requires i < |states[m].workers| && InLoop(states[m].workers[i]) && x < states[m].added
    ensures i < |states[n].workers| && InLoop(states[n].workers[i]) && x < states[n].added
    ensures StepsToRelease(states[n], i, x) <= Less(StepsToRelease(states[m], i, x), StepsOf(actions, i, m, n))
    decreases n
  {
    hide Step, Conserved, MutexInv, StepsToRelease, InLoop;
    if m < n {
      StepsCount(states, actions, m, n - 1, i, x);
      RunIsConserved(states, actions, n - 1);
      assert Step(states[n - 1], states[n - 1 + 1], actions[n - 1]);
      Approaches(states[n - 1], states[n], actions[n - 1], i, x);
    }
  }

  // So the message leaves the queue after at most six steps for it and for each one before it.
  lemma {:induction false} QueuedIsTaken(states: seq<State>, actions: seq<Action>, m: nat, n: nat, i: nat, q: nat)
    requires Run(states, actions) && m <= n < |states| && forall k | m <= k <= n :: !states[k].isStop
    requires i < |states[m].workers| && InLoop(states[m].workers[i]) && q < |states[m].queue|
    requires StepsOf(actions, i, m, n) >= 6 * q + 6
    ensures states[m].queue[q] !in states[n].queue && states[m].queue[q] in states[n].popped
  {
    hide Step, MutexInv;
    RunIsConserved(states, actions, m);
    QueueIsNumbered(states[m]);
    StepsCount(states, actions, m, n, i, states[m].queue[q]);
    RunIsConserved(states, actions, n);
    QueueIsNumbered(states[n]);
    LeftTheQueue(states[n], states[m].queue[q]);
  }

  lemma LeftTheQueue(s: State, x: nat)
    requires s.popped + s.queue == Numbers(s.added) && x < |s.popped|
    ensures x in s.popped && x !in s.queue
  {
    QueueIsNumbered(s);
    assert (s.popped + s.queue)[x] == s.popped[x];
  }

  lemma LiveIsInLoop(s: State, i: nat)
    requires StopInv(s) && !s.isStop && i < |s.workers| && !s.workers[i].Finished?
    ensures OneLive(s) && InLoop(s.workers[i])
  {
  }

  lemma {:induction false} HandledOnTheWay(
    states: seq<State>, actions: seq<Action>, m: nat, n: nat, i: nat, x: nat)
    requires Disciplined(states, actions) && m <= n < |states| && forall k | m <= k <= n :: !states[k].isStop
    requires i < |states[m].workers| && InLoop(states[m].workers[i]) && |states[m].popped| <= x < states[m].added
    ensures i < |states[n].workers| && InLoop(states[n].workers[i]) && Handled(states[n], i, x)
    decreases n
  {
    hide Step, Conserved, MutexInv, StepsToRelease, InLoop, StopInv, PolitelyStarted, Handled;
    StepsCount(states, actions, m, n, i, x);
    if m == n {
      QueuedIsHandled(states[m], i, x);
    } else {
      HandledOnTheWay(states, actions, m, n - 1, i, x);
      StepsCount(states, actions, m, n - 1, i, x);
      RunIsConserved(states, actions, n - 1);
      DisciplinedRunAgrees(states, actions, n - 1);
      LoopIsLive(states[n - 1].workers[i]);
      LiveIsInLoop(states[n - 1], i);
      assert Step(states[n - 1], states[n - 1 + 1], actions[n - 1]);
      HandledStays(states[n - 1], states[n], actions[n - 1], i, x);
    }
  }

  lemma QueuedIsHandled(s: State, i: nat, x: nat)
    requires i < |s.workers| && |s.popped| <= x
    ensures Handled(s, i, x)
  {
  }

  lemma LoopIsLive(pc: WorkerPc)
    ensures InLoop(pc) ==> !pc.Finished?
  {
  }

  // If Start only follows when no worker is live: as long as nobody asks for a stop, the live worker gives
  // a queued message to threadTask and releases it, in at most six of its own steps for the message and for
  // each one before it, and two more, unless Destroy releases it first.
  lemma {:induction false} QueuedIsReleased(
    states: seq<State>, actions: seq<Action>, m: nat, n: nat, i: nat, q: nat)
    requires Disciplined(states, actions) && m <= n < |states| && forall k | m <= k <= n :: !states[k].isStop
    requires i < |states[m].workers| && !states[m].workers[i].Finished? && q < |states[m].queue|
    requires StepsOf(actions, i, m, n) >= 6 * q + 8
    ensures var x, s := states[m].queue[q], states[n];
            (x in s.tasked && x in s.freed) || x in s.drained
  {
    hide Step, Conserved, MutexInv, StopInv, PolitelyStarted;
    DisciplinedRunAgrees(states, actions, m);
    LiveIsInLoop(states[m], i);
    RunIsConserved(states, actions, m);
    ConservedIs(states[m]);
    QueueIsNumbered(states[m]);
    StepsCount(states, actions, m, n, i, states[m].queue[q]);
    HandledOnTheWay(states, actions, m, n, i, states[m].queue[q]);
  }

  lemma ConservedIs(s: State)
    requires Conserved(s)
    ensures s.popped + s.queue == Numbers(s.added)
  {
  }

  // A worker in its loop that is not blocked at the wait can take its next step; only where it has to lock the
  // mutex first must that be free.
  lemma {:induction false} WorkerIsNotStuck(states: seq<State>, actions: seq<Action>, k: nat, i: nat)
    returns (t: State)
    requires Run(states, actions) && k < |states| && !states[k].isStop && i < |states[k].workers|
    requires InLoop(states[k].workers[i]) && !states[k].workers[i].Waiting?
    requires states[k].workers[i].AtLock? || states[k].workers[i].Notified? ==> Free(states[k])
    ensures WorkerStep(states[k], t, i, None)
  {
    hide Step, Conserved;
    RunIsConserved(states, actions, k);
    var s := states[k];
    match s.workers[i]
    case AtLoop => t := s.(workers := s.workers[i := AtLock]);
    case AtLock => t := s.(owner := Some(Worker(i)), workers := s.workers[i := AtTest]);
    case AtTest =>
      t := if s.queue == [] then s.(owner := None, workers := s.workers[i := Waiting])
           else s.(workers := s.workers[i := AtStopCheck]);
    case Notified => t := s.(owner := Some(Worker(i)), workers := s.workers[i := AtStopCheck]);
    case AtStopCheck =>
      t := if s.queue == [] then s.(owner := None, workers := s.workers[i := AtLoop])
           else s.(owner := None, workers := s.workers[i := AtTask(s.queue[0])],
                   queue := s.queue[1..], popped := s.popped + [s.queue[0]]);
    case AtTask(m) => t := s.(workers := s.workers[i := AtFree(m)], tasked := s.tasked + [m]);
    case AtFree(m) => t := s.(workers := s.workers[i := AtLoop], freed := s.freed + [m]);
  }
}
