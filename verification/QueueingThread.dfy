// The queueing thread of src/comm/caqueueingthread.c as a state machine: workers, one controller and
// any number of producers that share one mutex and one condition variable.  Each step is one
// statement or one block that its thread executes while it owns the mutex.

module QueueingThread {
  import opened Options

  // Where a worker is in CAQueueingThreadBaseRoutine.
  datatype WorkerPc =
    | AtLoop                // 82, before reading isStop without the lock
    | AtLock                // 85
    | AtTest                // 88, owning the mutex
    | Waiting               // 93, blocked on the condition
    | Notified              // 93, woken up, before owning the mutex again
    | AtStopCheck           // 99, owning the mutex
    | AtTask(m: nat)        // 116
    | AtFree(m: nat)        // 119-128
    | AtExitLock            // 131
    | AtExitSignal          // 132, owning the mutex
    | AtExitUnlock          // 133, owning the mutex
    | Finished

  // Where the controller is in Start, Stop or Destroy.
  datatype ControllerPc =
    | Idle
    | AtStartLock | AtStartClear | AtSpawn | AtFailLock | AtFailSet                     // 216-228
    | AtStopLock | AtStopSet | AtStopSignal | AtStopWait                                // 347-355
    | StopWaiting | StopNotified(byWorker: bool) | AtStopUnlock                         // 355-358
    | AtDestroyLock | Draining | Destroyed                                              // 293-325

  // The producer that owns the mutex, if one does; producers outside the lock have no state.
  datatype ProducerPc = Outside | AtAdd | AtAddSignal | AtAddUnlock                     // 266-275

  datatype Owner = Worker(i: nat) | Controller | Producer

  // Messages are numbered in the order they are added.  popped, tasked, freed and drained record
  // which messages left the queue, were given to threadTask, were released by a worker, and were
  // released by Destroy.
  datatype State = State(
    isStop: bool,
    queue: seq<nat>,
    owner: Option<Owner>,
    workers: seq<WorkerPc>,
    ctl: ControllerPc,
    prod: ProducerPc,
    added: nat,
    popped: seq<nat>,
    tasked: seq<nat>,
    freed: seq<nat>,
    drained: seq<nat>)

  // CAQueueingThreadInitialize
  const INITIAL := State(true, [], None, [], Idle, Outside, 0, [], [], [], [])

  // ---------------------------------------------------------------------------------------------
  // The condition variable

  datatype Waiter = WaitingWorker(i: nat) | WaitingStop

  predicate IsWaiting(s: State, w: Waiter) {
    match w
    case WaitingWorker(i) => i < |s.workers| && s.workers[i].Waiting?
    case WaitingStop => s.ctl.StopWaiting?
  }

  // A signal wakes exactly one waiter; it is lost if nobody waits.
  ghost predicate Wakes(s: State, wake: Option<Waiter>) {
    match wake
    case None => forall w :: !IsWaiting(s, w)
    case Some(w) => IsWaiting(s, w)
  }

  function Wake(s: State, wake: Option<Waiter>, byWorker: bool): State {
    match wake
    case None => s
    case Some(WaitingWorker(i)) => if i < |s.workers| then s.(workers := s.workers[i := Notified]) else s
    case Some(WaitingStop) => s.(ctl := StopNotified(byWorker))
  }

  // ---------------------------------------------------------------------------------------------
  // The threads

  predicate Free(s: State) {
    s.owner.None? && !s.ctl.Destroyed?
  }

  // The next step of worker i; "wake" says whom its signal wakes.
  ghost predicate WorkerStep(s: State, t: State, i: nat, wake: Option<Waiter>) {
    i < |s.workers| &&
    match s.workers[i]
    case AtLoop => t == s.(workers := s.workers[i := if s.isStop then AtExitLock else AtLock])
    case AtLock => Free(s) && t == s.(owner := Some(Worker(i)), workers := s.workers[i := AtTest])
    case AtTest =>
      if !s.isStop && s.queue == [] then t == s.(owner := None, workers := s.workers[i := Waiting])
      else t == s.(workers := s.workers[i := AtStopCheck])
    case Waiting => false
    case Notified => Free(s) && t == s.(owner := Some(Worker(i)), workers := s.workers[i := AtStopCheck])
    case AtStopCheck =>
      if s.isStop || s.queue == [] then t == s.(owner := None, workers := s.workers[i := AtLoop])
      else t == s.(owner := None, workers := s.workers[i := AtTask(s.queue[0])],
                   queue := s.queue[1..], popped := s.popped + [s.queue[0]])
    case AtTask(m) => t == s.(workers := s.workers[i := AtFree(m)], tasked := s.tasked + [m])
    case AtFree(m) => t == s.(workers := s.workers[i := AtLoop], freed := s.freed + [m])
    case AtExitLock => Free(s) && t == s.(owner := Some(Worker(i)), workers := s.workers[i := AtExitSignal])
    case AtExitSignal =>
      Wakes(s, wake) && t == Wake(s.(workers := s.workers[i := AtExitUnlock]), wake, true)
    case AtExitUnlock => t == s.(owner := None, workers := s.workers[i := Finished])
    case Finished => false
  }

  // What the controller decides to do next, and whether the thread pool accepts a task.
  datatype Choice = Start | Stop | Destroy | Accepted | Rejected

  ghost predicate ControllerStep(s: State, t: State, choice: Choice, wake: Option<Waiter>) {
    match s.ctl
    case Idle =>
      (match choice
       case Start => t == s.(ctl := if s.isStop then AtStartLock else Idle)
       case Stop => t == s.(ctl := if s.isStop then Idle else AtStopLock)
       case Destroy => t == s.(ctl := AtDestroyLock)
       case _ => false)
    case AtStartLock => Free(s) && t == s.(owner := Some(Controller), ctl := AtStartClear)
    case AtStartClear => t == s.(isStop := false, owner := None, ctl := AtSpawn)
    case AtSpawn =>
      if choice.Accepted? then t == s.(workers := s.workers + [AtLoop], ctl := Idle)
      else choice.Rejected? && t == s.(ctl := AtFailLock)
    case AtFailLock => Free(s) && t == s.(owner := Some(Controller), ctl := AtFailSet)
    case AtFailSet => t == s.(isStop := true, owner := None, ctl := Idle)
    case AtStopLock => Free(s) && t == s.(owner := Some(Controller), ctl := AtStopSet)
    case AtStopSet => t == s.(isStop := true, ctl := AtStopSignal)
    case AtStopSignal => Wakes(s, wake) && t == Wake(s.(ctl := AtStopWait), wake, false)
    case AtStopWait => t == s.(owner := None, ctl := StopWaiting)
    case StopWaiting => false
    case StopNotified(_) => Free(s) && t == s.(owner := Some(Controller), ctl := AtStopUnlock)
    case AtStopUnlock => t == s.(owner := None, ctl := Idle)
    case AtDestroyLock => Free(s) && t == s.(owner := Some(Controller), ctl := Draining)
    case Draining =>
      if s.queue == [] then t == s.(owner := None, ctl := Destroyed)
      else t == s.(queue := s.queue[1..], popped := s.popped + [s.queue[0]], drained := s.drained + [s.queue[0]])
    case Destroyed => false
  }

  ghost predicate ProducerStep(s: State, t: State, wake: Option<Waiter>) {
    match s.prod
    case Outside => Free(s) && t == s.(owner := Some(Producer), prod := AtAdd)
    case AtAdd => t == s.(queue := s.queue + [s.added], added := s.added + 1, prod := AtAddSignal)
    case AtAddSignal => Wakes(s, wake) && t == Wake(s.(prod := AtAddUnlock), wake, false)
    case AtAddUnlock => t == s.(owner := None, prod := Outside)
  }

  // A condition wait may return without a signal.
  ghost predicate SpuriousWakeup(s: State, t: State, w: Waiter) {
    IsWaiting(s, w) && t == Wake(s, Some(w), false)
  }

  datatype Action =
    | ByWorker(i: nat, wake: Option<Waiter>)
    | ByController(choice: Choice, wake: Option<Waiter>)
    | ByProducer(wake: Option<Waiter>)
    | Spurious(w: Waiter)

  ghost predicate Step(s: State, t: State, a: Action) {
    match a
    case ByWorker(i, wake) => WorkerStep(s, t, i, wake)
    case ByController(choice, wake) => ControllerStep(s, t, choice, wake)
    case ByProducer(wake) => ProducerStep(s, t, wake)
    case Spurious(w) => SpuriousWakeup(s, t, w)
  }

  ghost predicate Run(states: seq<State>, actions: seq<Action>) {
    && |states| == |actions| + 1
    && states[0] == INITIAL
    && forall k | 0 <= k < |actions| :: Step(states[k], states[k + 1], actions[k])
  }

  // ---------------------------------------------------------------------------------------------
  // Who owns the mutex

  predicate Owns(pc: WorkerPc) {
    pc.AtTest? || pc.AtStopCheck? || pc.AtExitSignal? || pc.AtExitUnlock?
  }

  predicate ControllerOwns(pc: ControllerPc) {
    pc.AtStartClear? || pc.AtFailSet? || pc.AtStopSet? || pc.AtStopSignal? || pc.AtStopWait?
    || pc.AtStopUnlock? || pc.Draining?
  }

  ghost predicate MutexInv(s: State) {
    && (forall i: nat | i < |s.workers| :: Owns(s.workers[i]) <==> s.owner == Some(Worker(i)))
    && (ControllerOwns(s.ctl) <==> s.owner == Some(Controller))
    && (!s.prod.Outside? <==> s.owner == Some(Producer))
    && (s.owner.Some? && s.owner.value.Worker? ==> s.owner.value.i < |s.workers|)
  }

  // What a worker's step does to the mutex and to the others.
  lemma WorkerMoves(s: State, t: State, i: nat, wake: Option<Waiter>)
    requires WorkerStep(s, t, i, wake)
    ensures i < |s.workers| == |t.workers| && t.prod == s.prod
    ensures t.ctl == s.ctl || (s.ctl.StopWaiting? && t.ctl.StopNotified?)
    ensures forall j | 0 <= j < |s.workers| && j != i :: t.workers[j] == s.workers[j] || !Owns(t.workers[j])
    ensures forall j | 0 <= j < |s.workers| && j != i :: t.workers[j] != s.workers[j] ==> s.workers[j].Waiting?
    ensures || (t.owner == s.owner && Owns(t.workers[i]) == Owns(s.workers[i]))
            || (t.owner.None? && Owns(s.workers[i]) && !Owns(t.workers[i]))
            || (s.owner.None? && t.owner == Some(Worker(i)) && Owns(t.workers[i]))
  {
  }

  lemma WorkerKeepsMutex(s: State, t: State, i: nat, wake: Option<Waiter>)
    requires MutexInv(s) && WorkerStep(s, t, i, wake)
    ensures MutexInv(t)
  {
    WorkerMoves(s, t, i, wake);
    hide WorkerStep;
  }

  // And what a step of the controller does.
  lemma ControllerMoves(s: State, t: State, choice: Choice, wake: Option<Waiter>)
    requires ControllerStep(s, t, choice, wake)
    ensures t.prod == s.prod && |s.workers| <= |t.workers|
    ensures forall j | 0 <= j < |s.workers| ::
              t.workers[j] == s.workers[j] || (s.workers[j].Waiting? && t.workers[j].Notified?)
    ensures forall j | |s.workers| <= j < |t.workers| :: t.workers[j].AtLoop?
    ensures || (t.owner == s.owner && ControllerOwns(t.ctl) == ControllerOwns(s.ctl))
            || (t.owner.None? && ControllerOwns(s.ctl) && !ControllerOwns(t.ctl))
            || (s.owner.None? && t.owner == Some(Controller) && ControllerOwns(t.ctl))
  {
  }

  lemma ControllerKeepsMutex(s: State, t: State, choice: Choice, wake: Option<Waiter>)
    requires MutexInv(s) && ControllerStep(s, t, choice, wake)
    ensures MutexInv(t)
  {
    ControllerMoves(s, t, choice, wake);
    hide ControllerStep;
  }

  lemma ProducerKeepsMutex(s: State, t: State, wake: Option<Waiter>)
    requires MutexInv(s) && ProducerStep(s, t, wake)
    ensures MutexInv(t)
  {
  }

  lemma SpuriousKeepsMutex(s: State, t: State, w: Waiter)
    requires MutexInv(s) && SpuriousWakeup(s, t, w)
    ensures MutexInv(t)
  {
  }

  lemma MutexStep(s: State, t: State, a: Action)
    requires MutexInv(s) && Step(s, t, a)
    ensures MutexInv(t)
  {
    hide MutexInv, WorkerStep, ControllerStep, ProducerStep, SpuriousWakeup;
    match a
    case ByWorker(i, wake) => WorkerKeepsMutex(s, t, i, wake);
    case ByController(choice, wake) => ControllerKeepsMutex(s, t, choice, wake);
    case ByProducer(wake) => ProducerKeepsMutex(s, t, wake);
    case Spurious(w) => SpuriousKeepsMutex(s, t, w);
  }

  // ---------------------------------------------------------------------------------------------
  // Conservation: no message is lost, duplicated or overtaken

  function Numbers(n: nat): (r: seq<nat>)
    ensures |r| == n && forall k | 0 <= k < n :: r[k] == k
  {
    if n == 0 then [] else Numbers(n - 1) + [n - 1]
  }

  function Count(s: seq<nat>, m: nat): nat {
    multiset(s)[m]
  }

  // How many workers have taken message m and not released it yet.
  function Held(workers: seq<WorkerPc>, m: nat): nat {
    if workers == [] then 0 else OneHeld(workers[0], m) + Held(workers[1..], m)
  }

  function OneHeld(pc: WorkerPc, m: nat): nat {
    if pc == AtTask(m) || pc == AtFree(m) then 1 else 0
  }

  // And how many of them have run threadTask on it.
  function HeldTasked(workers: seq<WorkerPc>, m: nat): nat {
    if workers == [] then 0 else OneTasked(workers[0], m) + HeldTasked(workers[1..], m)
  }

  function OneTasked(pc: WorkerPc, m: nat): nat {
    if pc == AtFree(m) then 1 else 0
  }

  ghost predicate ConservedFor(s: State, m: nat) {
    && Count(s.popped, m) == Held(s.workers, m) + Count(s.freed, m) + Count(s.drained, m)
    && Count(s.tasked, m) == HeldTasked(s.workers, m) + Count(s.freed, m)
  }

  ghost predicate Conserved(s: State) {
    && s.popped + s.queue == Numbers(s.added)
    && forall m: nat :: ConservedFor(s, m)
  }

  lemma {:induction false} HeldUpdate(workers: seq<WorkerPc>, i: nat, pc: WorkerPc, m: nat)
    requires i < |workers|
    ensures Held(workers[i := pc], m) + OneHeld(workers[i], m) == Held(workers, m) + OneHeld(pc, m)
    ensures HeldTasked(workers[i := pc], m) + OneTasked(workers[i], m) == HeldTasked(workers, m) + OneTasked(pc, m)
    decreases |workers|
  {
    if i == 0 {
      assert workers[0 := pc][1..] == workers[1..];
    } else {
      assert workers[i := pc][1..] == workers[1..][i - 1 := pc];
      HeldUpdate(workers[1..], i - 1, pc, m);
    }
  }

  lemma {:induction false} HeldAppend(workers: seq<WorkerPc>, m: nat)
    ensures Held(workers + [AtLoop], m) == Held(workers, m)
    ensures HeldTasked(workers + [AtLoop], m) == HeldTasked(workers, m)
    decreases |workers|
  {
    if workers == [] {
      assert [AtLoop][1..] == [];
    } else {
      assert (workers + [AtLoop])[1..] == workers[1..] + [AtLoop];
      HeldAppend(workers[1..], m);
    }
  }

  lemma CountAppend(s: seq<nat>, x: nat, m: nat)
    ensures Count(s + [x], m) == Count(s, m) + if x == m then 1 else 0
  {
  }

  // Nobody holds a message more or less after moving between points where none is held.
  lemma WakeHolds(s: State, wake: Option<Waiter>, byWorker: bool, m: nat)
    requires wake.Some? ==> IsWaiting(s, wake.value)
    ensures var t := Wake(s, wake, byWorker);
            Held(t.workers, m) == Held(s.workers, m) && HeldTasked(t.workers, m) == HeldTasked(s.workers, m)
  {
    if wake.Some? && wake.value.WaitingWorker? {
      HeldUpdate(s.workers, wake.value.i, Notified, m);
    }
  }

  // A worker moves and nothing else happens to message m.
  lemma MoveConserves(s: State, t: State, i: nat, pc: WorkerPc, m: nat)
    requires ConservedFor(s, m) && i < |s.workers| && t.workers == s.workers[i := pc]
    requires Count(t.popped, m) - OneHeld(pc, m) - Count(t.freed, m)
             == Count(s.popped, m) - OneHeld(s.workers[i], m) - Count(s.freed, m)
    requires Count(t.tasked, m) - OneTasked(pc, m) - Count(t.freed, m)
             == Count(s.tasked, m) - OneTasked(s.workers[i], m) - Count(s.freed, m)
    requires t.drained == s.drained
    ensures ConservedFor(t, m)
  {
    hide Held, HeldTasked, OneHeld, OneTasked, Count;
    HeldUpdate(s.workers, i, pc, m);
  }

  lemma SignalConserves(s: State, t: State, i: nat, wake: Option<Waiter>, m: nat)
    requires ConservedFor(s, m) && WorkerStep(s, t, i, wake) && s.workers[i].AtExitSignal?
    ensures ConservedFor(t, m)
  {
    hide Held, HeldTasked;
    var u := s.(workers := s.workers[i := AtExitUnlock]);
    MoveConserves(s, u, i, AtExitUnlock, m);
    WakeHolds(u, wake, true, m);
  }

  lemma PopConserves(s: State, t: State, i: nat, wake: Option<Waiter>, m: nat)
    requires ConservedFor(s, m) && WorkerStep(s, t, i, wake) && s.workers[i].AtStopCheck?
    ensures ConservedFor(t, m)
  {
    hide Held, HeldTasked;
    if s.isStop || s.queue == [] {
      MoveConserves(s, t, i, AtLoop, m);
    } else {
      CountAppend(s.popped, s.queue[0], m);
      MoveConserves(s, t, i, AtTask(s.queue[0]), m);
    }
  }

  lemma HandleConserves(s: State, t: State, i: nat, wake: Option<Waiter>, m: nat)
    requires ConservedFor(s, m) && WorkerStep(s, t, i, wake) && (s.workers[i].AtTask? || s.workers[i].AtFree?)
    ensures ConservedFor(t, m)
  {
    hide Held, HeldTasked;
    var x := s.workers[i].m;
    if s.workers[i].AtTask? {
      CountAppend(s.tasked, x, m);
      MoveConserves(s, t, i, AtFree(x), m);
    } else {
      CountAppend(s.freed, x, m);
      MoveConserves(s, t, i, AtLoop, m);
    }
  }

  lemma WorkerConserves(s: State, t: State, i: nat, wake: Option<Waiter>, m: nat)
    requires ConservedFor(s, m) && WorkerStep(s, t, i, wake)
    ensures ConservedFor(t, m)
  {
    hide ConservedFor, Wakes, Count;
    match s.workers[i]
    case AtExitSignal => SignalConserves(s, t, i, wake, m);
    case AtStopCheck => PopConserves(s, t, i, wake, m);
    case AtTask(_) => HandleConserves(s, t, i, wake, m);
    case AtFree(_) => HandleConserves(s, t, i, wake, m);
    case Waiting =>
    case Finished =>
    case _ => MoveConserves(s, t, i, t.workers[i], m);
  }

  lemma ControllerConserves(s: State, t: State, choice: Choice, wake: Option<Waiter>, m: nat)
    requires ConservedFor(s, m) && ControllerStep(s, t, choice, wake)
    ensures ConservedFor(t, m)
  {
    match s.ctl
    case AtSpawn => HeldAppend(s.workers, m);
    case AtStopSignal => WakeHolds(s.(ctl := AtStopWait), wake, false, m);
    case Draining =>
      if s.queue != [] {
        CountAppend(s.popped, s.queue[0], m);
        CountAppend(s.drained, s.queue[0], m);
      }
    case _ =>
  }

  lemma OthersConserve(s: State, t: State, a: Action, m: nat)
    requires ConservedFor(s, m) && Step(s, t, a) && (a.ByProducer? || a.Spurious?)
    ensures ConservedFor(t, m)
  {
    if a.Spurious? {
      WakeHolds(s, Some(a.w), false, m);
    } else if s.prod.AtAddSignal? {
      WakeHolds(s.(prod := AtAddUnlock), a.wake, false, m);
    }
  }

  // Taking the head of the queue, or adding at its end, keeps what passed through it in order.
  lemma OrderStep(s: State, t: State, a: Action)
    requires s.popped + s.queue == Numbers(s.added) && Step(s, t, a)
    ensures t.popped + t.queue == Numbers(t.added)
  {
    QueueStep(s, t, a);
    hide Step, Numbers;
    if t.added != s.added {
      NumbersNext(s.added);
      assert s.popped + (s.queue + [s.added]) == (s.popped + s.queue) + [s.added];
    } else if t.popped != s.popped {
      FrontMoves(s.popped, s.queue);
    }
  }

  lemma FrontMoves(popped: seq<nat>, queue: seq<nat>)
    requires queue != []
    ensures (popped + [queue[0]]) + queue[1..] == popped + queue
  {
  }

  lemma NumbersNext(n: nat)
    ensures Numbers(n + 1) == Numbers(n) + [n]
  {
  }

  // The three things that can happen to the queue.
  lemma QueueStep(s: State, t: State, a: Action)
    requires Step(s, t, a)
    ensures
      || (t.queue == s.queue && t.popped == s.popped && t.added == s.added)
      || (t.queue == s.queue + [s.added] && t.popped == s.popped && t.added == s.added + 1)
      || (s.queue != [] && t.queue == s.queue[1..] && t.popped == s.popped + [s.queue[0]] && t.added == s.added)
  {
    hide Wakes;
  }

  lemma ConservedStep(s: State, t: State, a: Action)
    requires Conserved(s) && Step(s, t, a)
    ensures Conserved(t)
  {
    hide Held, HeldTasked, ConservedFor;
    OrderStep(s, t, a);
    forall m: nat ensures ConservedFor(t, m) {
      match a
      case ByWorker(i, wake) => WorkerConserves(s, t, i, wake, m);
      case ByController(choice, wake) => ControllerConserves(s, t, choice, wake, m);
      case ByProducer(wake) => OthersConserve(s, t, a, m);
      case Spurious(w) => OthersConserve(s, t, a, m);
    }
  }

  lemma {:induction false} RunIsConserved(states: seq<State>, actions: seq<Action>, k: nat)
    requires Run(states, actions) && k < |states|
    ensures MutexInv(states[k]) && Conserved(states[k])
    decreases k
  {
    hide Conserved, MutexInv, Step;
    if k == 0 {
      InitialIsConserved();
    } else {
      RunIsConserved(states, actions, k - 1);
      assert Step(states[k - 1], states[k - 1 + 1], actions[k - 1]);
      MutexStep(states[k - 1], states[k], actions[k - 1]);
      ConservedStep(states[k - 1], states[k], actions[k - 1]);
    }
  }

  lemma InitialIsConserved()
    ensures MutexInv(INITIAL) && Conserved(INITIAL)
  {
    assert forall m: nat :: ConservedFor(INITIAL, m);
  }

  lemma {:induction false} NumbersOnce(n: nat, m: nat)
    ensures Count(Numbers(n), m) == if m < n then 1 else 0
    decreases n
  {
    if n > 0 {
      NumbersOnce(n - 1, m);
      CountAppend(Numbers(n - 1), n - 1, m);
    }
  }

  // In every reachable state messages have left the queue in the order they were added, and each is
  // in one place: in the queue, with one worker, or released, once, by a worker or by Destroy; it was
  // given to threadTask at most once, always before a worker releases it, and never if Destroy did.
  lemma {:induction false} MessagesAreConserved(states: seq<State>, actions: seq<Action>, k: nat, m: nat)
    requires Run(states, actions) && k < |states|
    ensures var s := states[k];
            && s.popped + s.queue == Numbers(s.added)
            && Count(s.queue, m) + Held(s.workers, m) + Count(s.freed, m) + Count(s.drained, m)
               == (if m < s.added then 1 else 0)
            && Count(s.tasked, m) == HeldTasked(s.workers, m) + Count(s.freed, m) <= 1
            && Count(s.drained, m) + Count(s.tasked, m) <= 1
  {
    var s := states[k];
    RunIsConserved(states, actions, k);
    assert ConservedFor(s, m);
    NumbersOnce(s.added, m);
    assert multiset(s.popped + s.queue) == multiset(s.popped) + multiset(s.queue);
    TaskedIsHeld(s.workers, m);
  }

  lemma {:induction false} TaskedIsHeld(workers: seq<WorkerPc>, m: nat)
    ensures HeldTasked(workers, m) <= Held(workers, m)
    decreases |workers|
  {
    if workers != [] {
      TaskedIsHeld(workers[1..], m);
    }
  }

  lemma {:induction false} NoneHeld(workers: seq<WorkerPc>, m: nat)
    requires forall i | 0 <= i < |workers| :: workers[i].Finished?
    ensures Held(workers, m) == 0
    decreases |workers|
  {
    if workers != [] {
      NoneHeld(workers[1..], m);
    }
  }

  // After Destroy, with all workers gone, every message added has been released exactly once.
  lemma {:induction false} AllReleasedOnce(states: seq<State>, actions: seq<Action>, k: nat, m: nat)
    requires Run(states, actions) && k < |states| && m < states[k].added
    requires states[k].ctl.Destroyed? && forall i | 0 <= i < |states[k].workers| :: states[k].workers[i].Finished?
    ensures Count(states[k].freed, m) + Count(states[k].drained, m) == 1
  {
    DestroyedIsDrained(states, actions, k);
    MessagesAreConserved(states, actions, k, m);
    NoneHeld(states[k].workers, m);
  }

  // Nobody adds to the queue once Destroy has given up the mutex for good.
  lemma {:induction false} DestroyedIsDrained(states: seq<State>, actions: seq<Action>, k: nat)
    requires Run(states, actions) && k < |states| && states[k].ctl.Destroyed?
    ensures states[k].queue == [] && states[k].prod.Outside?
    decreases k
  {
    hide Step, MutexInv, Conserved;
    if k > 0 {
      var s, t := states[k - 1], states[k];
      assert Step(s, states[k - 1 + 1], actions[k - 1]);
      RunIsConserved(states, actions, k - 1);
      if s.ctl.Destroyed? {
        DestroyedIsDrained(states, actions, k - 1);
      }
      DrainedStep(s, t, actions[k - 1]);
    }
  }

  lemma DrainedStep(s: State, t: State, a: Action)
    requires Step(s, t, a) && MutexInv(s) && t.ctl.Destroyed?
    requires s.ctl.Destroyed? ==> s.queue == [] && s.prod.Outside?
    ensures t.queue == [] && t.prod.Outside?
  {
    hide Wakes;
  }

  // Destroy frees the mutex, which the model never lets anybody own again: a worker that is live then
  // never finishes. In the original it would go on with the freed mutex, so Destroy must wait for it.
  lemma {:induction false} DestroyStrandsWorkers(states: seq<State>, actions: seq<Action>, j: nat, k: nat, i: nat)
    requires Run(states, actions) && j <= k < |states| && states[j].ctl.Destroyed? && i < |states[j].workers|
    ensures states[k].ctl.Destroyed? && |states[k].workers| == |states[j].workers|
    ensures states[k].workers[i].Finished? <==> states[j].workers[i].Finished?
    decreases k
  {
    hide Step, MutexInv, Conserved;
    if j < k {
      var s, t := states[k - 1], states[k];
      assert Step(s, states[k - 1 + 1], actions[k - 1]);
      DestroyStrandsWorkers(states, actions, j, k - 1, i);
      RunIsConserved(states, actions, k - 1);
      NobodyOwns(states, actions, k - 1);
      StrandedStep(s, t, actions[k - 1], i);
    }
  }

  lemma {:induction false} NobodyOwns(states: seq<State>, actions: seq<Action>, k: nat)
    requires Run(states, actions) && k < |states| && states[k].ctl.Destroyed?
    ensures states[k].owner.None?
    decreases k
  {
    hide Step, MutexInv, Conserved;
    if k > 0 {
      var s := states[k - 1];
      assert Step(s, states[k - 1 + 1], actions[k - 1]);
      if s.ctl.Destroyed? {
        NobodyOwns(states, actions, k - 1);
      }
      RunIsConserved(states, actions, k - 1);
      StaysUnowned(s, states[k], actions[k - 1]);
    }
  }

  lemma StaysUnowned(s: State, t: State, a: Action)
    requires Step(s, t, a) && MutexInv(s) && t.ctl.Destroyed? && (s.ctl.Destroyed? ==> s.owner.None?)
    ensures t.owner.None?
  {
  }

  lemma StrandedStep(s: State, t: State, a: Action, i: nat)
    requires Step(s, t, a) && MutexInv(s) && s.ctl.Destroyed? && s.owner.None? && i < |s.workers|
    ensures t.ctl.Destroyed? && |t.workers| == |s.workers| && (t.workers[i].Finished? <==> s.workers[i].Finished?)
  {
  }
}
