// What ends the wait of CAQueueingThreadStop (src/comm/caqueueingthread.c:344-359): which steps end it
// too early, and how soon the worker ends it.

module QueueingStop {
  import opened Options
  import opened QueueingThread
  import opened QueueingHandshake

  // A signal of AddData, or a spurious wakeup of Stop, while Stop waits.
  predicate Interrupts(s: State, a: Action) {
    s.ctl.StopWaiting? && ((a.ByProducer? && s.prod.AtAddSignal?) || a == Spurious(WaitingStop))
  }

  // While Stop waits no worker does, so a signal can only wake Stop.
  lemma OnlyStopWaits(s: State)
    requires WakeInv(s) && s.ctl.StopWaiting?
    ensures forall w :: IsWaiting(s, w) <==> w.WaitingStop?
  {
    hide MutexInv, OneLive, NoneLive;
  }

  lemma HeardUnlessInterrupted(s: State, t: State, a: Action)
    requires StopInv(s) && Step(s, t, a)
    ensures HeardStep(s, t, a) <==> !Interrupts(s, a)
  {
    if s.ctl.StopWaiting? {
      OnlyStopWaits(s);
      assert IsWaiting(s, WaitingStop);
      hide WakeInv, Agreed, IsWaiting;
    }
  }

  lemma {:induction false} UninterruptedSettles(states: seq<State>, actions: seq<Action>, k: nat)
    requires Run(states, actions) && k < |states|
    requires forall j | 0 <= j < |actions| :: !Interrupts(states[j], actions[j])
    ensures StopInv(states[k]) && Settled(states[k])
    decreases k
  {
    hide StopInv, Settled, Step, HeardStep, PolitelyStarted, Interrupts;
    if k == 0 {
      InitialStopInv();
      InitialSettled();
    } else {
      UninterruptedSettles(states, actions, k - 1);
      var s, t, a := states[k - 1], states[k], actions[k - 1];
      assert Step(s, states[k - 1 + 1], a) && !Interrupts(s, a);
      HeardUnlessInterrupted(s, t, a);
      HeardPolitely(s, a);
      StopInvStep(s, t, a);
      HeardStepSettles(s, t, a);
    }
  }

  // For every run: the worker's last signal is what wakes Stop up, every time, if and only if no AddData
  // signals and no spurious wakeup of Stop comes while Stop waits. AddData may come before the wait and
  // after it, and workers may wake up spuriously.
  lemma {:induction false} HeardIsUninterrupted(states: seq<State>, actions: seq<Action>)
    requires Run(states, actions)
    ensures Heard(states, actions) <==> forall k | 0 <= k < |actions| :: !Interrupts(states[k], actions[k])
  {
    hide StopInv, Settled, Step, HeardStep, Interrupts;
    if Heard(states, actions) {
      forall k | 0 <= k < |actions| ensures !Interrupts(states[k], actions[k]) {
        HeardRunSettles(states, actions, k);
        assert Step(states[k], states[k + 1], actions[k]) && HeardStep(states[k], states[k + 1], actions[k]);
        HeardUnlessInterrupted(states[k], states[k + 1], actions[k]);
      }
    }
    if forall k | 0 <= k < |actions| :: !Interrupts(states[k], actions[k]) {
      forall k | 0 <= k < |actions| ensures HeardStep(states[k], states[k + 1], actions[k]) {
        UninterruptedSettles(states, actions, k);
        assert Step(states[k], states[k + 1], actions[k]) && !Interrupts(states[k], actions[k]);
        HeardUnlessInterrupted(states[k], states[k + 1], actions[k]);
      }
    }
  }

  // ---------------------------------------------------------------------------------------------
  // How soon the worker signals

  // The most steps that a worker can take before its last signal while isStop is set.
  function StepsLeft(pc: WorkerPc): nat {
    match pc
    case AtLock => 5
    case AtTest | Notified | AtTask(_) => 4
    case AtStopCheck | AtFree(_) => 3
    case AtLoop => 2
    case AtExitLock => 1
    case _ => 0
  }

  function WorkerSteps(actions: seq<Action>, m: nat, n: nat): nat
    requires m <= n <= |actions|
    decreases n
  {
    if m == n then 0 else WorkerSteps(actions, m, n - 1) + if actions[n - 1].ByWorker? then 1 else 0
  }

  // The worker that Stop waits for.
  ghost predicate Awaited(s: State, i: nat) {
    s.ctl.StopWaiting? && i < |s.workers| && !s.workers[i].Finished?
  }

  lemma WorkerGetsOn(s: State, t: State, i: nat, wake: Option<Waiter>)
    requires WorkerStep(s, t, i, wake) && s.isStop && !s.workers[i].AtExitSignal? && !s.workers[i].AtExitUnlock?
    ensures i < |t.workers| && StepsLeft(t.workers[i]) + 1 <= StepsLeft(s.workers[i]) && !t.workers[i].Finished?
  {
  }

  // A step that leaves Stop waiting brings the worker nearer to its signal, or leaves it where it is.
  lemma NearerToTheSignal(s: State, t: State, a: Action, i: nat)
    requires StopInv(s) && Step(s, t, a) && Awaited(s, i) && t.ctl.StopWaiting?
    ensures Awaited(t, i)
    ensures StepsLeft(t.workers[i]) + (if a.ByWorker? then 1 else 0) <= StepsLeft(s.workers[i])
  {
    OnlyStopWaits(s);
    match a
    case ByWorker(j, wake) =>
      OthersFinished(s, i);
      assert j == i;
      assert !Signalled(s.workers[i]);
      if s.workers[i].AtExitSignal? {
        LastSignal(s, t, i, wake);
        assert false;
      }
      WorkerGetsOn(s, t, i, wake);
      OthersStay(s, t, i, wake);
    case ByController(_, _) =>
    case _ =>
      hide WakeInv, Agreed;
  }

  lemma {:induction false} StepsAreCounted(states: seq<State>, actions: seq<Action>, m: nat, n: nat, i: nat)
    requires Disciplined(states, actions) && m <= n < |states|
    requires forall k | m <= k <= n :: states[k].ctl.StopWaiting?
    requires Awaited(states[m], i)
    ensures Awaited(states[n], i)
    ensures WorkerSteps(actions, m, n) + StepsLeft(states[n].workers[i]) <= StepsLeft(states[m].workers[i])
    decreases n
  {
    hide StopInv, Step, PolitelyStarted, StepsLeft;
    if m < n {
      StepsAreCounted(states, actions, m, n - 1, i);
      DisciplinedRunAgrees(states, actions, n - 1);
      assert Step(states[n - 1], states[n - 1 + 1], actions[n - 1]);
      NearerToTheSignal(states[n - 1], states[n], actions[n - 1], i);
    }
  }

  // As long as Stop waits, workers take at most five steps in all: the sixth is the signal that ends the
  // wait, if nothing else has ended it.
  lemma {:induction false} WaitIsShort(states: seq<State>, actions: seq<Action>, m: nat, n: nat)
    requires Disciplined(states, actions) && m <= n < |states|
    requires forall k | m <= k <= n :: states[k].ctl.StopWaiting?
    ensures WorkerSteps(actions, m, n) <= 5
    ensures WorkerSteps(actions, m, n) == 5 && n < |actions| && actions[n].ByWorker?
            ==> EndsWait(states[n], states[n + 1])
  {
    hide StopInv, Step, PolitelyStarted, StepsLeft;
    DisciplinedRunAgrees(states, actions, m);
    var i := SomeoneIsAwaited(states[m]);
    StepsAreCounted(states, actions, m, n, i);
    StepsLeftAtMost(states[m].workers[i]);
    if n < |actions| && !EndsWait(states[n], states[n + 1]) {
      StepsAreCounted(states, actions, m, n + 1, i);
    }
  }

  lemma SomeoneIsAwaited(s: State) returns (i: nat)
    requires StopInv(s) && s.ctl.StopWaiting?
    ensures Awaited(s, i)
  {
    hide WakeInv, Nowhere;
    i :| i < |s.workers| && !s.workers[i].Finished?;
  }

  lemma StepsLeftAtMost(pc: WorkerPc)
    ensures StepsLeft(pc) <= 5
  {
  }
}
