// Wakeups and the stop handshake of the queueing thread.

module QueueingHandshake {
  import opened Options
  import opened QueueingThread

  ghost predicate NoneLive(s: State) {
    forall i | 0 <= i < |s.workers| :: s.workers[i].Finished?
  }

  ghost predicate OneLive(s: State) {
    forall i, j | 0 <= i < |s.workers| && 0 <= j < |s.workers|
                  && !s.workers[i].Finished? && !s.workers[j].Finished? :: i == j
  }

  predicate Starting(pc: ControllerPc) {
    pc.AtStartLock? || pc.AtStartClear? || pc.AtSpawn? || pc.AtFailLock? || pc.AtFailSet?
  }

  // Between Stop setting isStop and Stop returning.
  predicate Stopping(pc: ControllerPc) {
    pc.AtStopSignal? || pc.AtStopWait? || pc.StopWaiting? || pc.StopNotified? || pc.AtStopUnlock?
  }

  // ---------------------------------------------------------------------------------------------
  // No lost wakeup

  // Start is called only when no worker is live (or returns at once because the thread is running).
  ghost predicate Disciplined(states: seq<State>, actions: seq<Action>) {
    && Run(states, actions)
    && forall k | 0 <= k < |actions| :: PolitelyStarted(states[k], actions[k])
  }

  ghost predicate PolitelyStarted(s: State, a: Action) {
    a.ByController? && a.choice.Start? && s.ctl.Idle? && s.isStop ==> NoneLive(s)
  }

  // A worker blocked at the wait has nothing to do, or is about to be signalled.
  ghost predicate Awake(s: State) {
    forall i | 0 <= i < |s.workers| && s.workers[i].Waiting? ::
      && (s.queue == [] || s.prod.AtAddSignal?)
      && (!s.isStop || s.ctl.AtStopSignal?)
  }

  ghost predicate WakeInv(s: State) {
    && MutexInv(s) && OneLive(s) && Awake(s)
    && (Starting(s.ctl) ==> NoneLive(s))
    && (Stopping(s.ctl) ==> s.isStop)
  }

  lemma WorkerKeepsWakeInv(s: State, t: State, i: nat, wake: Option<Waiter>)
    requires WakeInv(s) && WorkerStep(s, t, i, wake)
    ensures WakeInv(t)
  {
    WorkerKeepsMutex(s, t, i, wake);
    LiveStays(s, t, i, wake);
    hide MutexInv, OneLive, NoneLive;
    OwnerIs(s, i);
    assert forall j | 0 <= j < |s.workers| && t.workers[j].Waiting? :: j == i || s.workers[j].Waiting?;
  }

  lemma OwnerIs(s: State, i: nat)
    requires MutexInv(s) && i < |s.workers|
    ensures Owns(s.workers[i]) ==> s.prod.Outside? && !ControllerOwns(s.ctl)
  {
  }

  // A worker's step neither revives a worker nor, unless it is its last one, ends it.
  lemma LiveStays(s: State, t: State, i: nat, wake: Option<Waiter>)
    requires WorkerStep(s, t, i, wake)
    ensures |t.workers| == |s.workers| && !s.workers[i].Finished?
    ensures forall j | 0 <= j < |s.workers| && s.workers[j].Finished? :: t.workers[j].Finished?
    ensures forall j | 0 <= j < |s.workers| && t.workers[j].Finished? && !s.workers[j].Finished? ::
      j == i && s.workers[i].AtExitUnlock?
    ensures OneLive(s) ==> OneLive(t)
    ensures NoneLive(s) ==> NoneLive(t)
  {
  }

  lemma ControllerKeepsWakeInv(s: State, t: State, choice: Choice, wake: Option<Waiter>)
    requires WakeInv(s) && ControllerStep(s, t, choice, wake)
    requires PolitelyStarted(s, ByController(choice, wake))
    ensures WakeInv(t)
  {
    ControllerKeepsMutex(s, t, choice, wake);
    hide MutexInv, Wakes, ControllerStep;
    if s.ctl.AtSpawn? {
      SpawnKeepsWakeInv(s, t, choice, wake);
    } else if s.ctl.AtStopSignal? {
      StopSignalIs(s, t, choice, wake);
      SignalWakesTheWorker(s, t, wake);
    } else {
      hide OneLive, NoneLive;
      WorkersUntouched(s, t, choice, wake);
      ControllerFlags(s, t, choice, wake);
      if Starting(s.ctl) || Starting(t.ctl) {
        NoneWaits(s);
      }
    }
  }

  lemma NoneWaits(s: State)
    ensures NoneLive(s) ==> forall i | 0 <= i < |s.workers| :: !s.workers[i].Waiting?
  {
  }

  lemma SpawnKeepsWakeInv(s: State, t: State, choice: Choice, wake: Option<Waiter>)
    requires WakeInv(s) && ControllerStep(s, t, choice, wake) && s.ctl.AtSpawn? && MutexInv(t)
    ensures WakeInv(t)
  {
    hide MutexInv, Wakes;
    assert forall i | 0 <= i < |s.workers| :: t.workers[i] == s.workers[i];
  }

  lemma StopSignalIs(s: State, t: State, choice: Choice, wake: Option<Waiter>)
    requires ControllerStep(s, t, choice, wake) && s.ctl.AtStopSignal?
    ensures Wakes(s, wake) && ControllerStep(s, t, Stop, wake)
    ensures t.isStop == s.isStop && (t.ctl.AtStopWait? || t.ctl.StopNotified?)
  {
  }

  // The controller's other steps leave the workers alone.
  lemma WorkersUntouched(s: State, t: State, choice: Choice, wake: Option<Waiter>)
    requires ControllerStep(s, t, choice, wake) && !s.ctl.AtStopSignal? && !s.ctl.AtSpawn?
    ensures t.workers == s.workers
    ensures NoneLive(t) == NoneLive(s) && SomeLive(t) == SomeLive(s) && OneLive(t) == OneLive(s)
    ensures forall p :: Nowhere(t, p) == Nowhere(s, p)
  {
  }

  // And what they do to the rest.
  lemma ControllerFlags(s: State, t: State, choice: Choice, wake: Option<Waiter>)
    requires ControllerStep(s, t, choice, wake) && !s.ctl.AtStopSignal? && !s.ctl.AtSpawn?
    ensures t.prod == s.prod && (s.queue == [] ==> t.queue == [])
    ensures t.isStop ==> s.isStop || t.ctl.AtStopSignal? || s.ctl.AtFailSet?
    ensures Starting(t.ctl) ==> Starting(s.ctl) || (s.ctl.Idle? && choice.Start? && s.isStop)
    ensures Stopping(t.ctl) ==> (Stopping(s.ctl) && t.isStop == s.isStop) || (t.ctl.AtStopSignal? && t.isStop)
  {
  }

  // Stop's signal wakes the worker if it is blocked: nobody else waits.
  lemma SignalWakesTheWorker(s: State, t: State, wake: Option<Waiter>)
    requires WakeInv(s) && ControllerStep(s, t, Stop, wake) && s.ctl.AtStopSignal?
    ensures forall i | 0 <= i < |t.workers| :: !t.workers[i].Waiting?
    ensures OneLive(t)
  {
    assert !IsWaiting(s, WaitingStop);
    forall i | 0 <= i < |s.workers| && s.workers[i].Waiting? ensures wake == Some(WaitingWorker(i)) {
      assert IsWaiting(s, WaitingWorker(i));
      if wake.Some? {
        assert IsWaiting(s, wake.value);
      }
    }
  }

  lemma ProducerKeepsWakeInv(s: State, t: State, wake: Option<Waiter>)
    requires WakeInv(s) && ProducerStep(s, t, wake)
    ensures WakeInv(t)
  {
    MutexStep(s, t, ByProducer(wake));
    if s.prod.AtAddSignal? {
      // If a worker waits, isStop is not set, so Stop does not wait, so the worker is woken.
      forall i | 0 <= i < |s.workers| && s.workers[i].Waiting? ensures wake == Some(WaitingWorker(i)) {
        assert IsWaiting(s, WaitingWorker(i));
        if wake.Some? {
          assert IsWaiting(s, wake.value);
        }
      }
    }
  }

  lemma SpuriousKeepsWakeInv(s: State, t: State, w: Waiter)
    requires WakeInv(s) && SpuriousWakeup(s, t, w)
    ensures WakeInv(t)
  {
    MutexStep(s, t, Spurious(w));
  }

  lemma {:induction false} DisciplinedRunWakes(states: seq<State>, actions: seq<Action>, k: nat)
    requires Disciplined(states, actions) && k < |states|
    ensures WakeInv(states[k])
    decreases k
  {
    hide WakeInv, Step, PolitelyStarted;
    if k == 0 {
      InitialWakeInv();
    } else {
      DisciplinedRunWakes(states, actions, k - 1);
      var s, t, a := states[k - 1], states[k], actions[k - 1];
      assert Step(s, states[k - 1 + 1], a) && PolitelyStarted(s, a);
      WakeInvStep(s, t, a);
    }
  }

  lemma InitialWakeInv()
    ensures WakeInv(INITIAL)
  {
  }

  lemma WakeInvStep(s: State, t: State, a: Action)
    requires WakeInv(s) && Step(s, t, a) && PolitelyStarted(s, a)
    ensures WakeInv(t)
  {
    hide WakeInv;
    match a
    case ByWorker(i, wake) => WorkerKeepsWakeInv(s, t, i, wake);
    case ByController(choice, wake) => ControllerKeepsWakeInv(s, t, choice, wake);
    case ByProducer(wake) => ProducerKeepsWakeInv(s, t, wake);
    case Spurious(w) => SpuriousKeepsWakeInv(s, t, w);
  }

  // While no thread is about to signal, a worker blocked at the wait has an empty queue and no
  // request to stop, whatever spurious wakeups there were.
  lemma NoLostWakeup(states: seq<State>, actions: seq<Action>, k: nat, i: nat)
    requires Disciplined(states, actions) && k < |states|
    requires i < |states[k].workers| && states[k].workers[i].Waiting?
    ensures states[k].queue == [] || states[k].prod.AtAddSignal?
    ensures !states[k].isStop || states[k].ctl.AtStopSignal?
  {
    DisciplinedRunWakes(states, actions, k);
  }

  // ---------------------------------------------------------------------------------------------
  // The stop handshake

  ghost predicate SomeLive(s: State) {
    exists i: nat | i < |s.workers| :: !s.workers[i].Finished?
  }

  // No worker is in one of these places.
  ghost predicate Nowhere(s: State, p: WorkerPc -> bool) {
    forall i | 0 <= i < |s.workers| :: !p(s.workers[i])
  }

  predicate Exiting(pc: WorkerPc) {
    pc.AtExitLock? || pc.AtExitSignal? || pc.AtExitUnlock?
  }

  predicate Signalled(pc: WorkerPc) {
    pc.AtExitUnlock?
  }

  // The last signal is still to come.
  predicate BeforeEnd(pc: WorkerPc) {
    !pc.Finished? && !pc.AtExitUnlock?
  }

  // What the controller's place says about the worker.
  ghost predicate Agreed(s: State) {
    match s.ctl
    case AtStopLock | AtStopSet => !s.isStop && SomeLive(s) && Nowhere(s, Exiting)
    case AtStopSignal | AtStopWait | StopWaiting => SomeLive(s) && Nowhere(s, Signalled)
    case StopNotified(byWorker) => byWorker ==> Nowhere(s, BeforeEnd)
    case AtStopUnlock => true
    case _ =>
      if Starting(s.ctl) then s.ctl.AtSpawn? ==> !s.isStop
      else !s.isStop ==> SomeLive(s) && Nowhere(s, Exiting)
  }

  ghost predicate StopInv(s: State) {
    WakeInv(s) && Agreed(s)
  }

  lemma OthersFinished(s: State, i: nat)
    requires OneLive(s) && i < |s.workers| && !s.workers[i].Finished?
    ensures forall j | 0 <= j < |s.workers| && j != i :: s.workers[j].Finished?
  {
  }

  lemma OthersStay(s: State, t: State, i: nat, wake: Option<Waiter>)
    requires WorkerStep(s, t, i, wake) && !s.workers[i].AtExitSignal?
    ensures |t.workers| == |s.workers| && t.ctl == s.ctl && t.isStop == s.isStop && t.prod == s.prod
    ensures forall j | 0 <= j < |s.workers| && j != i :: t.workers[j] == s.workers[j]
  {
  }

  lemma WorkerAgrees(s: State, t: State, i: nat, wake: Option<Waiter>)
    requires StopInv(s) && WorkerStep(s, t, i, wake)
    ensures Agreed(t)
  {
    LiveStays(s, t, i, wake);
    OwnerIs(s, i);
    if s.workers[i].AtExitSignal? {
      LastSignal(s, t, i, wake);
    } else {
      hide MutexInv, OneLive;
      OthersFinished(s, i);
      OthersStay(s, t, i, wake);
    }
  }

  // A worker's last signal wakes Stop, if Stop waits; nobody else can be waiting then.
  lemma LastSignal(s: State, t: State, i: nat, wake: Option<Waiter>)
    requires StopInv(s) && WorkerStep(s, t, i, wake) && s.workers[i].AtExitSignal?
    ensures t.ctl == if s.ctl.StopWaiting? then StopNotified(true) else s.ctl
    ensures Nowhere(t, BeforeEnd) && Agreed(t)
  {
    OwnerIs(s, i);
    hide MutexInv, OneLive;
    OthersFinished(s, i);
    if wake.Some? {
      assert IsWaiting(s, wake.value);
    }
    if s.ctl.StopWaiting? {
      assert IsWaiting(s, WaitingStop);
    }
  }

  // Whoever owns the mutex in Stop knows that the worker does not.
  lemma ControllerAlone(s: State)
    requires MutexInv(s) && ControllerOwns(s.ctl)
    ensures s.prod.Outside? && Nowhere(s, Owns) && Nowhere(s, Signalled)
  {
  }

  lemma ControllerAgrees(s: State, t: State, choice: Choice, wake: Option<Waiter>)
    requires StopInv(s) && ControllerStep(s, t, choice, wake)
    ensures Agreed(t)
  {
    if ControllerOwns(s.ctl) {
      ControllerAlone(s);
    }
    hide WakeInv, MutexInv, OneLive, Nowhere, SomeLive;
    if s.ctl.AtSpawn? {
      SpawnAgrees(s, t, choice, wake);
    } else if s.ctl.AtStopSignal? {
      StopSignalIs(s, t, choice, wake);
      SomeoneSignals(s, t, wake);
      StopWaitsNext(s, t, wake);
    } else {
      WorkersUntouched(s, t, choice, wake);
      MovesAgree(s, t, choice, wake);
    }
  }

  lemma SpawnAgrees(s: State, t: State, choice: Choice, wake: Option<Waiter>)
    requires StopInv(s) && ControllerStep(s, t, choice, wake) && s.ctl.AtSpawn?
    ensures Agreed(t)
  {
    if choice.Accepted? {
      WorkerSpawned(s, t);
    }
  }

  lemma StopWaitsNext(s: State, t: State, wake: Option<Waiter>)
    requires ControllerStep(s, t, Stop, wake) && s.ctl.AtStopSignal?
    ensures t.ctl.AtStopWait?
  {
    if wake.Some? {
      assert IsWaiting(s, wake.value);
    }
  }

  lemma MovesAgree(s: State, t: State, choice: Choice, wake: Option<Waiter>)
    requires StopInv(s) && ControllerStep(s, t, choice, wake) && !s.ctl.AtStopSignal? && !s.ctl.AtSpawn?
    requires SomeLive(t) == SomeLive(s) && forall p :: Nowhere(t, p) == Nowhere(s, p)
    requires ControllerOwns(s.ctl) ==> Nowhere(s, Signalled)
    ensures Agreed(t)
  {
    hide MutexInv, OneLive, NoneLive, Nowhere, SomeLive, Awake;
  }

  lemma WorkerSpawned(s: State, t: State)
    requires NoneLive(s) && t.workers == s.workers + [AtLoop]
    ensures SomeLive(t) && Nowhere(t, Exiting)
  {
    assert !t.workers[|s.workers|].Finished?;
    assert forall i | 0 <= i < |s.workers| :: t.workers[i] == s.workers[i];
  }

  // A signal or a spurious wakeup moves a blocked worker, if it concerns one, and ends nothing.
  lemma SomeoneSignals(s: State, t: State, wake: Option<Waiter>)
    requires wake.Some? ==> IsWaiting(s, wake.value)
    requires t.workers == Wake(s, wake, false).workers
    ensures SomeLive(t) == SomeLive(s) && NoneLive(t) == NoneLive(s)
    ensures Nowhere(t, Signalled) == Nowhere(s, Signalled) && Nowhere(t, Exiting) == Nowhere(s, Exiting)
    ensures Nowhere(t, BeforeEnd) == Nowhere(s, BeforeEnd)
  {
    if wake.Some? && wake.value.WaitingWorker? {
      var i := wake.value.i;
      assert t.workers[i].Notified? && s.workers[i].Waiting?;
      assert forall j | 0 <= j < |s.workers| && j != i :: t.workers[j] == s.workers[j];
    }
  }

  lemma OthersAgree(s: State, t: State, a: Action)
    requires StopInv(s) && Step(s, t, a) && (a.ByProducer? || a.Spurious?)
    ensures Agreed(t) && NoneLive(t) == NoneLive(s) && Nowhere(t, BeforeEnd) == Nowhere(s, BeforeEnd)
    ensures t.isStop == s.isStop
    ensures t.ctl == s.ctl || (s.ctl.StopWaiting? && t.ctl == StopNotified(false))
  {
    hide WakeInv, NoneLive, SomeLive, Nowhere, Agreed, Step;
    var wake := if a.Spurious? then Some(a.w) else if s.prod.AtAddSignal? then a.wake else None;
    OthersMove(s, t, a, wake);
    SomeoneSignals(s, t, wake);
    AgreedStays(s, t);
  }

  lemma OthersMove(s: State, t: State, a: Action, wake: Option<Waiter>)
    requires Step(s, t, a) && (a.ByProducer? || a.Spurious?)
    requires wake == if a.Spurious? then Some(a.w) else if s.prod.AtAddSignal? then a.wake else None
    ensures wake.Some? ==> IsWaiting(s, wake.value)
    ensures t.workers == Wake(s, wake, false).workers && t.isStop == s.isStop
    ensures t.ctl == s.ctl || (s.ctl.StopWaiting? && t.ctl == StopNotified(false))
  {
  }

  lemma AgreedStays(s: State, t: State)
    requires Agreed(s) && SomeLive(t) == SomeLive(s) && t.isStop == s.isStop
    requires Nowhere(t, Signalled) == Nowhere(s, Signalled) && Nowhere(t, Exiting) == Nowhere(s, Exiting)
    requires Nowhere(t, BeforeEnd) == Nowhere(s, BeforeEnd)
    requires t.ctl == s.ctl || (s.ctl.StopWaiting? && t.ctl == StopNotified(false))
    ensures Agreed(t)
  {
    hide SomeLive, Nowhere;
  }

  lemma StopInvStep(s: State, t: State, a: Action)
    requires StopInv(s) && Step(s, t, a) && PolitelyStarted(s, a)
    ensures StopInv(t)
  {
    WakeInvStep(s, t, a);
    hide WakeInv, Agreed;
    match a
    case ByWorker(i, wake) => WorkerAgrees(s, t, i, wake);
    case ByController(choice, wake) => ControllerAgrees(s, t, choice, wake);
    case ByProducer(wake) => OthersAgree(s, t, a);
    case Spurious(w) => OthersAgree(s, t, a);
  }

  lemma InitialStopInv()
    ensures StopInv(INITIAL) && NoneLive(INITIAL)
  {
  }

  lemma {:induction false} DisciplinedRunAgrees(states: seq<State>, actions: seq<Action>, k: nat)
    requires Disciplined(states, actions) && k < |states|
    ensures StopInv(states[k])
    decreases k
  {
    hide StopInv, Step, PolitelyStarted;
    if k == 0 {
      InitialStopInv();
    } else {
      DisciplinedRunAgrees(states, actions, k - 1);
      var s, t, a := states[k - 1], states[k], actions[k - 1];
      assert Step(s, states[k - 1 + 1], a) && PolitelyStarted(s, a);
      StopInvStep(s, t, a);
    }
  }

  // A step that ends the wait of Stop.
  predicate EndsWait(s: State, t: State) {
    s.ctl.StopWaiting? && !t.ctl.StopWaiting?
  }

  // Whatever producers and spurious wakeups do: Stop is woken up after the worker's last signal if and
  // only if it is woken up by that signal.
  lemma {:induction false} WokenByTheWorker(states: seq<State>, actions: seq<Action>, k: nat)
    requires Disciplined(states, actions) && k < |actions| && EndsWait(states[k], states[k + 1])
    ensures Nowhere(states[k + 1], BeforeEnd) <==> actions[k].ByWorker?
  {
    DisciplinedRunAgrees(states, actions, k);
    var s, t, a := states[k], states[k + 1], actions[k];
    assert Step(s, t, a);
    match a
    case ByWorker(i, wake) =>
      if s.workers[i].AtExitSignal? {
        LastSignal(s, t, i, wake);
      } else {
        OthersStay(s, t, i, wake);
      }
    case ByController(_, _) =>
    case _ =>
      LiveIsBeforeEnd(s);
      OthersAgree(s, t, a);
  }

  lemma LiveIsBeforeEnd(s: State)
    requires SomeLive(s) && Nowhere(s, Signalled)
    ensures !Nowhere(s, BeforeEnd)
  {
    var i: nat :| i < |s.workers| && !s.workers[i].Finished?;
    assert !Signalled(s.workers[i]) && BeforeEnd(s.workers[i]);
  }

  // Stop woken up by the worker owns the mutex again only after the worker has given it up for the
  // last time.
  lemma NotifiedMeansOver(s: State)
    requires StopInv(s) && s.ctl == StopNotified(true) && Free(s)
    ensures NoneLive(s)
  {
    assert forall i | 0 <= i < |s.workers| :: !BeforeEnd(s.workers[i]);
  }

  // Stop is woken up by the worker's last signal, every time.
  ghost predicate Heard(states: seq<State>, actions: seq<Action>) {
    && Run(states, actions)
    && forall k | 0 <= k < |actions| :: HeardStep(states[k], states[k + 1], actions[k])
  }

  predicate HeardStep(s: State, t: State, a: Action) {
    EndsWait(s, t) ==> a.ByWorker?
  }

  // Between calls, isStop says that no worker is live.
  ghost predicate Settled(s: State) {
    match s.ctl
    case StopNotified(byWorker) => byWorker
    case AtStopUnlock => NoneLive(s)
    case _ => s.isStop && !Stopping(s.ctl) && !Starting(s.ctl) ==> NoneLive(s)
  }

  lemma HeardPolitely(s: State, a: Action)
    requires Settled(s)
    ensures PolitelyStarted(s, a)
  {
    hide NoneLive;
  }

  lemma HeardStepSettles(s: State, t: State, a: Action)
    requires StopInv(s) && Settled(s) && Step(s, t, a) && HeardStep(s, t, a)
    ensures Settled(t)
  {
    match a
    case ByWorker(i, wake) =>
      LiveStays(s, t, i, wake);
      hide WakeInv, Agreed, NoneLive;
      if s.workers[i].AtExitSignal? {
        LastSignal(s, t, i, wake);
        SameStop(s, t, i, wake);
      } else {
        OthersStay(s, t, i, wake);
      }
    case ByController(choice, wake) => ControllerSettles(s, t, choice, wake);
    case _ =>
      OthersAgree(s, t, a);
      hide WakeInv, Agreed, NoneLive, Step;
  }

  lemma SameStop(s: State, t: State, i: nat, wake: Option<Waiter>)
    requires WorkerStep(s, t, i, wake)
    ensures t.isStop == s.isStop
  {
  }

  lemma ControllerSettles(s: State, t: State, choice: Choice, wake: Option<Waiter>)
    requires StopInv(s) && Settled(s) && ControllerStep(s, t, choice, wake)
    ensures Settled(t)
  {
    if s.ctl.StopNotified? {
      NotifiedMeansOver(s);
    }
    hide MutexInv, OneLive, Awake, SomeLive, Nowhere, NoneLive, Wakes;
    if !s.ctl.AtStopSignal? && !s.ctl.AtSpawn? {
      WorkersUntouched(s, t, choice, wake);
    }
  }

  lemma {:induction false} HeardRunSettles(states: seq<State>, actions: seq<Action>, k: nat)
    requires Heard(states, actions) && k < |states|
    ensures StopInv(states[k]) && Settled(states[k])
    decreases k
  {
    hide StopInv, Settled, Step, HeardStep, PolitelyStarted;
    if k == 0 {
      InitialStopInv();
      InitialSettled();
    } else {
      HeardRunSettles(states, actions, k - 1);
      var s, t, a := states[k - 1], states[k], actions[k - 1];
      assert Step(s, states[k - 1 + 1], a) && HeardStep(s, states[k - 1 + 1], a);
      HeardPolitely(s, a);
      StopInvStep(s, t, a);
      HeardStepSettles(s, t, a);
    }
  }

  lemma InitialSettled()
    ensures Settled(INITIAL)
  {
  }

  // In runs in which the worker's last signal is what wakes Stop up, there are never two live workers,
  // however often Start and Stop are called; when Stop is about to return, the worker has left its loop
  // and given up the mutex for good; and no worker is started while another one is live.
  lemma {:induction false} StopWaitsForTheWorker(states: seq<State>, actions: seq<Action>, k: nat)
    requires Heard(states, actions) && k < |states|
    ensures OneLive(states[k])
    ensures states[k].ctl.AtStopUnlock? ==> NoneLive(states[k])
    ensures states[k].ctl.Idle? ==> (states[k].isStop <==> NoneLive(states[k]))
    ensures Disciplined(states, actions)
  {
    HeardRunSettles(states, actions, k);
    forall j | 0 <= j < |actions| ensures PolitelyStarted(states[j], actions[j]) {
      HeardRunSettles(states, actions, j);
      HeardPolitely(states[j], actions[j]);
    }
  }

  // No AddData critical section begins between Stop setting isStop and Stop returning, and the
  // wait in Stop returns only when signalled.
  ghost predicate Quiet(states: seq<State>, actions: seq<Action>) {
    && Run(states, actions)
    && forall k | 0 <= k < |actions| :: QuietStep(states[k], actions[k])
  }

  predicate QuietStep(s: State, a: Action) {
    && (a.ByProducer? && s.prod.Outside? ==> !Stopping(s.ctl))
    && a != Spurious(WaitingStop)
  }

  lemma QuietStepIsHeard(s: State, t: State, a: Action)
    requires MutexInv(s) && Step(s, t, a) && QuietStep(s, a) && (Stopping(s.ctl) ==> s.prod.Outside?)
    ensures HeardStep(s, t, a) && MutexInv(t) && (Stopping(t.ctl) ==> t.prod.Outside?)
  {
    MutexStep(s, t, a);
  }

  lemma {:induction false} QuietRunIsHeard(states: seq<State>, actions: seq<Action>, k: nat)
    requires Quiet(states, actions) && k < |states|
    ensures MutexInv(states[k]) && (Stopping(states[k].ctl) ==> states[k].prod.Outside?)
    decreases k
  {
    hide MutexInv, Step, QuietStep;
    if k == 0 {
      InitialWakeInv();
    } else {
      QuietRunIsHeard(states, actions, k - 1);
      assert Step(states[k - 1], states[k - 1 + 1], actions[k - 1]) && QuietStep(states[k - 1], actions[k - 1]);
      QuietStepIsHeard(states[k - 1], states[k], actions[k - 1]);
    }
  }

  // Without AddData in the way and without a spurious wakeup of Stop, the handshake works.
  lemma QuietIsHeard(states: seq<State>, actions: seq<Action>)
    requires Quiet(states, actions)
    ensures Heard(states, actions)
  {
    forall k | 0 <= k < |actions| ensures HeardStep(states[k], states[k + 1], actions[k]) {
      QuietRunIsHeard(states, actions, k);
      QuietStepIsHeard(states[k], states[k + 1], actions[k]);
    }
  }

  lemma {:induction false} QuietIsDisciplined(states: seq<State>, actions: seq<Action>)
    requires Quiet(states, actions)
    ensures Disciplined(states, actions)
  {
    QuietIsHeard(states, actions);
    StopWaitsForTheWorker(states, actions, 0);
  }

  // While Stop is blocked, the worker's last signal is still to come, and the worker is not blocked: it
  // can take its next step, unless a producer owns the mutex.
  lemma {:induction false} StopIsNotStuck(states: seq<State>, actions: seq<Action>, k: nat) returns (i: nat, t: State)
    requires Disciplined(states, actions) && k < |states| && states[k].ctl.StopWaiting?
    ensures i < |states[k].workers| && BeforeEnd(states[k].workers[i]) && !states[k].workers[i].Waiting?
    ensures states[k].owner == Some(Producer) ||
            WorkerStep(states[k], t, i, if states[k].workers[i].AtExitSignal? then Some(WaitingStop) else None)
  {
    var s := states[k];
    DisciplinedRunAgrees(states, actions, k);
    i :| i < |s.workers| && !s.workers[i].Finished?;
    assert !Signalled(s.workers[i]) && !s.workers[i].Waiting?;
    if s.owner == Some(Producer) {
      t := s;
    } else {
      t := NextOf(s, i);
    }
  }

  // The next step of a worker that is neither blocked nor at its end.
  lemma NextOf(s: State, i: nat) returns (t: State)
    requires StopInv(s) && s.ctl.StopWaiting? && i < |s.workers| && s.owner != Some(Producer)
    requires BeforeEnd(s.workers[i]) && !s.workers[i].Waiting?
    ensures WorkerStep(s, t, i, if s.workers[i].AtExitSignal? then Some(WaitingStop) else None)
  {
    OnlyWorkersOwn(s, i);
    match s.workers[i]
    case AtLoop => t := s.(workers := s.workers[i := if s.isStop then AtExitLock else AtLock]);
    case AtLock => t := s.(owner := Some(Worker(i)), workers := s.workers[i := AtTest]);
    case AtTest => t := s.(workers := s.workers[i := AtStopCheck]);
    case Notified => t := s.(owner := Some(Worker(i)), workers := s.workers[i := AtStopCheck]);
    case AtStopCheck => t := s.(owner := None, workers := s.workers[i := AtLoop]);
    case AtTask(m) => t := s.(workers := s.workers[i := AtFree(m)], tasked := s.tasked + [m]);
    case AtFree(m) => t := s.(workers := s.workers[i := AtLoop], freed := s.freed + [m]);
    case AtExitLock => t := s.(owner := Some(Worker(i)), workers := s.workers[i := AtExitSignal]);
    case AtExitSignal =>
      assert IsWaiting(s, WaitingStop);
      t := Wake(s.(workers := s.workers[i := AtExitUnlock]), Some(WaitingStop), true);
  }

  lemma OnlyWorkersOwn(s: State, i: nat)
    requires StopInv(s) && s.ctl.StopWaiting? && s.owner != Some(Producer)
    requires i < |s.workers| && !s.workers[i].Finished?
    ensures s.isStop && (Owns(s.workers[i]) || Free(s))
  {
    if s.owner.Some? && s.owner.value.Worker? {
      assert Owns(s.workers[s.owner.value.i]);
    }
  }

  // ---------------------------------------------------------------------------------------------
  // Without that condition the handshake fails: a signal meant for the worker wakes Stop

  lemma Then(states: seq<State>, actions: seq<Action>, t: State, a: Action)
    returns (more: seq<State>, acts: seq<Action>)
    requires Run(states, actions) && Step(states[|states| - 1], t, a)
    ensures Run(more, acts) && more == states + [t] && acts == actions + [a]
  {
    more, acts := states + [t], actions + [a];
    forall k | 0 <= k < |acts| ensures Step(more[k], more[k + 1], acts[k]) {
      if k < |actions| {
        assert Step(states[k], states[k + 1], actions[k]);
      }
    }
  }

  // From every such state in which nobody owns the mutex, one AddData or one spurious wakeup lets Stop
  // return while the worker's last signal is still to come.
  lemma {:induction false} StopCanReturnEarly(states: seq<State>, actions: seq<Action>, byProducer: bool)
    returns (more: seq<State>, acts: seq<Action>)
    requires Disciplined(states, actions)
    requires states[|states| - 1].ctl.StopWaiting? && states[|states| - 1].owner.None?
    ensures Run(more, acts) && |more| > |states| && more[..|states|] == states
    ensures more[|more| - 1].ctl.Idle? && !Nowhere(more[|more| - 1], BeforeEnd)
  {
    var s := states[|states| - 1];
    DisciplinedRunAgrees(states, actions, |states| - 1);
    LiveIsBeforeEnd(s);
    var t;
    more, acts, t := StopIsWoken(states, actions, byProducer);
    assert more[..|states|] == states;
    var u := t.(owner := Some(Controller), ctl := AtStopUnlock);
    more, acts := Then(more, acts, u, ByController(Stop, None));
    u := u.(owner := None, ctl := Idle);
    more, acts := Then(more, acts, u, ByController(Stop, None));
    SameWorkers(s, u);
  }

  lemma SameWorkers(s: State, t: State)
    requires t.workers == s.workers
    ensures Nowhere(t, BeforeEnd) == Nowhere(s, BeforeEnd)
  {
  }

  lemma StopIsWoken(states: seq<State>, actions: seq<Action>, byProducer: bool)
    returns (more: seq<State>, acts: seq<Action>, t: State)
    requires Run(states, actions) && StopInv(states[|states| - 1])
    requires states[|states| - 1].ctl.StopWaiting? && states[|states| - 1].owner.None?
    ensures Run(more, acts) && |more| > |states| && more[..|states|] == states && more[|more| - 1] == t
    ensures t.ctl == StopNotified(false) && t.owner.None? && t.workers == states[|states| - 1].workers
  {
    var s := states[|states| - 1];
    assert s.prod.Outside?;
    more, acts, t := states, actions, s;
    if byProducer {
      t := t.(owner := Some(Producer), prod := AtAdd);
      more, acts := Then(more, acts, t, ByProducer(None));
      t := t.(queue := t.queue + [t.added], added := t.added + 1, prod := AtAddSignal);
      more, acts := Then(more, acts, t, ByProducer(None));
      assert IsWaiting(t, WaitingStop);
      t := t.(prod := AtAddUnlock, ctl := StopNotified(false));
      more, acts := Then(more, acts, t, ByProducer(Some(WaitingStop)));
      t := t.(owner := None, prod := Outside);
      more, acts := Then(more, acts, t, ByProducer(None));
    } else {
      t := t.(ctl := StopNotified(false));
      more, acts := Then(more, acts, t, Spurious(WaitingStop));
    }
  }

  // Start, and a worker that finds nothing to do.
  lemma WorkerWaits() returns (states: seq<State>, actions: seq<Action>)
    ensures Run(states, actions)
    ensures states[|states| - 1] == State(false, [], None, [Waiting], Idle, Outside, 0, [], [], [], [])
  {
    var t := INITIAL;
    states, actions := [t], [];
    t := t.(ctl := AtStartLock);
    states, actions := Then(states, actions, t, ByController(Start, None));
    t := t.(owner := Some(Controller), ctl := AtStartClear);
    states, actions := Then(states, actions, t, ByController(Start, None));
    t := t.(isStop := false, owner := None, ctl := AtSpawn);
    states, actions := Then(states, actions, t, ByController(Start, None));
    t := t.(workers := [AtLoop], ctl := Idle);
    states, actions := Then(states, actions, t, ByController(Accepted, None));
    t := t.(workers := [AtLock]);
    states, actions := Then(states, actions, t, ByWorker(0, None));
    t := t.(workers := [AtTest], owner := Some(Worker(0)));
    states, actions := Then(states, actions, t, ByWorker(0, None));
    t := t.(workers := [Waiting], owner := None);
    states, actions := Then(states, actions, t, ByWorker(0, None));
  }

  // Stop up to its wait; the worker is awake but has not run yet.
  lemma StopBeforeTheWorker() returns (states: seq<State>, actions: seq<Action>)
    ensures Run(states, actions)
    ensures states[|states| - 1] == State(true, [], None, [Notified], StopWaiting, Outside, 0, [], [], [], [])
  {
    states, actions := WorkerWaits();
    var t := states[|states| - 1].(ctl := AtStopLock);
    states, actions := Then(states, actions, t, ByController(Stop, None));
    t := t.(owner := Some(Controller), ctl := AtStopSet);
    states, actions := Then(states, actions, t, ByController(Stop, None));
    t := t.(isStop := true, ctl := AtStopSignal);
    states, actions := Then(states, actions, t, ByController(Stop, None));
    assert IsWaiting(t, WaitingWorker(0));
    t := t.(workers := [Notified], ctl := AtStopWait);
    states, actions := Then(states, actions, t, ByController(Stop, Some(WaitingWorker(0))));
    t := t.(owner := None, ctl := StopWaiting);
    states, actions := Then(states, actions, t, ByController(Stop, None));
  }

  // An AddData at that moment wakes Stop instead of the worker: Stop returns while the worker is live.
  lemma StopReturnsEarly() returns (states: seq<State>, actions: seq<Action>)
    ensures Run(states, actions)
    ensures states[|states| - 1] == State(true, [0], None, [Notified], Idle, Outside, 1, [], [], [], [])
  {
    states, actions := StopBeforeTheWorker();
    var t := states[|states| - 1].(owner := Some(Producer), prod := AtAdd);
    states, actions := Then(states, actions, t, ByProducer(None));
    t := t.(queue := [0], added := 1, prod := AtAddSignal);
    states, actions := Then(states, actions, t, ByProducer(None));
    assert IsWaiting(t, WaitingStop);
    t := t.(prod := AtAddUnlock, ctl := StopNotified(false));
    states, actions := Then(states, actions, t, ByProducer(Some(WaitingStop)));
    t := t.(owner := None, prod := Outside);
    states, actions := Then(states, actions, t, ByProducer(None));
    t := t.(owner := Some(Controller), ctl := AtStopUnlock);
    states, actions := Then(states, actions, t, ByController(Stop, None));
    t := t.(owner := None, ctl := Idle);
    states, actions := Then(states, actions, t, ByController(Stop, None));
  }

  // The next Start makes a second worker.
  lemma AddDataBreaksTheHandshake() returns (states: seq<State>, actions: seq<Action>)
    ensures Run(states, actions) && !Disciplined(states, actions)
    ensures !OneLive(states[|states| - 1])
  {
    states, actions := StopReturnsEarly();
    ghost var k := |actions|;
    var idle := states[k];
    var t := idle.(ctl := AtStartLock);
    states, actions := Then(states, actions, t, ByController(Start, None));
    t := t.(owner := Some(Controller), ctl := AtStartClear);
    states, actions := Then(states, actions, t, ByController(Start, None));
    t := t.(isStop := false, owner := None, ctl := AtSpawn);
    states, actions := Then(states, actions, t, ByController(Start, None));
    t := t.(workers := [Notified, AtLoop], ctl := Idle);
    states, actions := Then(states, actions, t, ByController(Accepted, None));
    assert states[k] == idle && actions[k] == ByController(Start, None);
    assert !idle.workers[0].Finished?;
    assert !PolitelyStarted(states[k], actions[k]);
    assert !t.workers[0].Finished? && !t.workers[1].Finished?;
  }
}
