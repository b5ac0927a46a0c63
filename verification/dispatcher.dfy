/** The dispatcher's task queue: one worker and any number of producers, interleaved step by step
    around a mutex and a condition variable. */
module Dispatcher {
  import opened Basics

  /** A task; `expires` when it was added with a time limit. */
  datatype Task = Task(id: nat, expires: bool, isShutdown: bool)

  datatype ThreadState = Running | Closing | Terminated

  datatype Thread = Worker | Producer(p: nat)

  /** Where the worker stands in Dispatcher::threadMain. */
  datatype WorkerPc =
    | Testing                 // at the loop condition
    | Locking                 // waiting for the lock
    | Checking                // holding the lock, about to look at the list
    | Waiting                 // in taskSignal.wait, the lock released
    | Woken                   // about to take the lock again
    | Swapping                // holding the lock, about to swap the lists
    | Unlocking               // holding the lock, after the swap
    | Executing               // in the loop over the local list
    | Exited

  /** Where a producer stands in addTask or shutdown. */
  datatype ProducerPc =
    | Idle
    | Adding(task: Task)      // holding the lock, before the test of the state
    | Added(signal: bool)     // holding the lock, after the push
    | Signalling(signal: bool) // the lock released, the signal still to be given
    | Stopping(task: Task)    // in shutdown, holding the lock, before the push
    | Stopped                 // in shutdown, holding the lock, before the signal
    | Leaving                 // in shutdown, holding the lock, after the signal

  /** A task that was taken off the local list, and whether it was executed. */
  datatype Done = Done(task: Task, ran: bool)

  datatype State = State(
    lock: Option<Thread>,
    threadState: ThreadState,
    taskList: seq<Task>,
    tmpTaskList: seq<Task>,
    at: nat,
    worker: WorkerPc,
    producers: map<nat, ProducerPc>,
    dispatcherCycle: nat,
    accepted: seq<Task>,
    done: seq<Done>
  )

  function Pc(s: State, p: nat): ProducerPc {
    if p in s.producers then s.producers[p] else Idle
  }

  function Go(s: State, p: nat, pc: ProducerPc): State {
    s.(producers := s.producers[p := pc])
  }

  function Init(): State {
    State(None, Running, [], [], 0, Testing, map[], 0, [], [])
  }

  /** The steps of the threads, each of them atomic, and what may happen from outside. */
  datatype Step =
    | Test | Lock | Check | WakeByChance | Relock | Swap | Unlock
    | Execute(late: bool) | Clear
    | LockToAdd(p: nat, task: Task) | Push(p: nat) | UnlockAdded(p: nat) | Signal(p: nat)
    | LockToStop(p: nat, task: Task) | PushStop(p: nat) | SignalStop(p: nat) | UnlockStop(p: nat)
    | Close

  predicate Enabled(s: State, step: Step) {
    match step
    case Test => s.worker == Testing
    case Lock => s.worker == Locking && s.lock == None
    case Check => s.worker == Checking
    case WakeByChance => s.worker == Waiting
    case Relock => s.worker == Woken && s.lock == None
    case Swap => s.worker == Swapping
    case Unlock => s.worker == Unlocking
    case Execute(_) => s.worker == Executing && s.at < |s.tmpTaskList|
    case Clear => s.worker == Executing && s.at == |s.tmpTaskList|
    case LockToAdd(p, task) => Pc(s, p) == Idle && s.lock == None && !task.isShutdown
    case Push(p) => Pc(s, p).Adding?
    case UnlockAdded(p) => Pc(s, p).Added?
    case Signal(p) => Pc(s, p).Signalling?
    case LockToStop(p, task) => Pc(s, p) == Idle && s.lock == None && task.isShutdown && !task.expires
    case PushStop(p) => Pc(s, p).Stopping?
    case SignalStop(p) => Pc(s, p) == Stopped
    case UnlockStop(p) => Pc(s, p) == Leaving
    case Close => s.threadState == Running
  }

  /** notify_one: it wakes the worker if it waits just now, and is forgotten otherwise. */
  function Notify(s: State): State {
    if s.worker == Waiting then s.(worker := Woken) else s
  }

  function Do(s: State, step: Step): State
    requires Enabled(s, step)
  {
    match step
    case Test => s.(worker := if s.threadState != Terminated then Locking else Exited)
    case Lock => s.(lock := Some(Worker), worker := Checking)
    case Check => if s.taskList == [] then s.(lock := None, worker := Waiting) else s.(worker := Swapping)
    case WakeByChance => s.(worker := Woken)
    case Relock => s.(lock := Some(Worker), worker := Swapping)
    case Swap => s.(taskList := s.tmpTaskList, tmpTaskList := s.taskList, at := 0, worker := Unlocking)
    case Unlock => s.(lock := None, worker := Executing)
    case Execute(late) =>
      var task := s.tmpTaskList[s.at];
      var hasExpired := task.expires && late;
      var n := s.(at := s.at + 1, done := s.done + [Done(task, !hasExpired)]);
      if hasExpired then n
      else
        var m := n.(dispatcherCycle := n.dispatcherCycle + 1);
        if task.isShutdown then Notify(m.(threadState := Terminated)) else m
    case Clear => s.(tmpTaskList := [], at := 0, worker := Testing)
    case LockToAdd(p, task) => Go(s, p, Adding(task)).(lock := Some(Producer(p)))
    case Push(p) =>
      if s.threadState == Running then
        var task := Pc(s, p).task;
        Go(s, p, Added(s.taskList == [])).(taskList := s.taskList + [task], accepted := s.accepted + [task])
      else Go(s, p, Added(false))
    case UnlockAdded(p) => Go(s, p, Signalling(Pc(s, p).signal)).(lock := None)
    case Signal(p) => if Pc(s, p).signal then Notify(Go(s, p, Idle)) else Go(s, p, Idle)
    case LockToStop(p, task) => Go(s, p, Stopping(task)).(lock := Some(Producer(p)))
    case PushStop(p) =>
      var task := Pc(s, p).task;
      Go(s, p, Stopped).(taskList := s.taskList + [task], accepted := s.accepted + [task])
    case SignalStop(p) => Notify(Go(s, p, Leaving))
    case UnlockStop(p) => Go(s, p, Idle).(lock := None)
    case Close => s.(threadState := Closing)
  }

  // ---------------------------------------------------------------- runs

  /** A run takes only steps that are enabled. */
  ghost predicate Possible(s: State, steps: seq<Step>)
    decreases |steps|
  {
    steps == [] || (Enabled(s, steps[0]) && Possible(Do(s, steps[0]), steps[1..]))
  }

  ghost function After(s: State, steps: seq<Step>): State
    requires Possible(s, steps)
    decreases |steps|
  {
    if steps == [] then s else After(Do(s, steps[0]), steps[1..])
  }

  // ---------------------------------------------------------------- the invariant

  ghost function Tasks(done: seq<Done>): seq<Task> {
    if done == [] then [] else Tasks(done[..|done| - 1]) + [done[|done| - 1].task]
  }

  ghost function Ran(done: seq<Done>): nat {
    if done == [] then 0 else Ran(done[..|done| - 1]) + (if done[|done| - 1].ran then 1 else 0)
  }

  /** What was finished, then the rest of the local list, then the shared list: the accepted tasks,
      none missing, none twice, in the order in which they came. */
  ghost predicate InOrder(s: State) {
    && s.at <= |s.tmpTaskList|
    && Tasks(s.done) + s.tmpTaskList[s.at..] + s.taskList == s.accepted
  }

  /** The lock is held by just the thread whose place in the code says so. */
  ghost predicate Exclusive(s: State) {
    && (s.lock == Some(Worker) <==> s.worker in {Checking, Swapping, Unlocking})
    && forall p :: s.lock == Some(Producer(p)) <==> HoldsLock(Pc(s, p))
  }

  predicate HoldsLock(pc: ProducerPc) {
    pc.Adding? || pc.Added? || pc.Stopping? || pc.Stopped? || pc.Leaving?
  }

  /** The local list is empty wherever the worker does not work on it. */
  ghost predicate Emptied(s: State) {
    s.worker !in {Unlocking, Executing} ==> s.tmpTaskList == []
  }

  /** Somebody has pushed and will still give the signal, with no lock to wait for. */
  predicate WillSignal(pc: ProducerPc) {
    pc == Added(true) || pc == Signalling(true) || pc == Stopped
  }

  /** No wake-up is lost. */
  ghost predicate NotLost(s: State) {
    s.worker == Waiting && s.taskList != [] ==> exists p :: WillSignal(Pc(s, p))
  }

  /** The worker stops only for a shutdown task, which is executed; every executed task counts. */
  ghost predicate Counted(s: State) {
    && s.dispatcherCycle == Ran(s.done)
    && (forall d :: d in s.done ==> !d.ran ==> d.task.expires)
    && (s.threadState == Terminated ==> exists d :: d in s.done && d.ran && d.task.isShutdown)
    && (s.worker == Exited ==> s.threadState == Terminated)
  }

  /** Only shutdown builds shutdown tasks, and they do not expire. */
  ghost predicate Inv(s: State) {
    InOrder(s) && Exclusive(s) && Emptied(s) && NotLost(s) && Counted(s)
  }

  lemma InitHolds()
    ensures Inv(Init())
  {
  }

  lemma TasksSnoc(done: seq<Done>, d: Done)
    ensures Tasks(done + [d]) == Tasks(done) + [d.task] && Ran(done + [d]) == Ran(done) + (if d.ran then 1 else 0)
  {
    assert (done + [d])[..|done|] == done;
  }

  lemma OneHandled(done: seq<Task>, list: seq<Task>, at: nat, rest: seq<Task>)
    requires at < |list|
    ensures done + [list[at]] + list[at + 1..] + rest == done + list[at..] + rest
  {
    assert list[at..] == [list[at]] + list[at + 1..];
  }

  lemma OneMore(done: seq<Task>, list: seq<Task>, rest: seq<Task>, task: Task)
    ensures done + list + (rest + [task]) == done + list + rest + [task]
  {
  }

  lemma Swapped(done: seq<Task>, rest: seq<Task>)
    ensures done + [] + rest == done + rest[0..] + []
  {
  }

  lemma KeepsOrder(s: State, step: Step)
    requires Inv(s) && Enabled(s, step)
    ensures InOrder(Do(s, step))
  {
    hide Exclusive, NotLost, Counted, Tasks;
    match step {
      case Execute(late) =>
        OrderExecute(s, late);
      case Swap =>
        assert s.tmpTaskList == [];
        Swapped(Tasks(s.done), s.taskList);
      case Push(p) =>
        OneMore(Tasks(s.done), s.tmpTaskList[s.at..], s.taskList, Pc(s, p).task);
      case PushStop(p) =>
        OneMore(Tasks(s.done), s.tmpTaskList[s.at..], s.taskList, Pc(s, p).task);
      case _ =>
    }
  }

  lemma OrderExecute(s: State, late: bool)
    requires InOrder(s) && Enabled(s, Execute(late))
    ensures InOrder(Do(s, Execute(late)))
  {
    hide Tasks;
    var task := s.tmpTaskList[s.at];
    TasksSnoc(s.done, Done(task, !(task.expires && late)));
    OneHandled(Tasks(s.done), s.tmpTaskList, s.at, s.taskList);
  }

  lemma KeepsEmptied(s: State, step: Step)
    requires Inv(s) && Enabled(s, step)
    ensures Emptied(Do(s, step))
  {
    hide Exclusive, NotLost, Counted, Tasks, InOrder;
  }

  lemma KeepsExclusive(s: State, step: Step)
    requires Inv(s) && Enabled(s, step)
    ensures Exclusive(Do(s, step))
  {
    hide InOrder, NotLost, Counted, Emptied;
  }

  lemma KeepsSignals(s: State, step: Step)
    requires Inv(s) && Enabled(s, step)
    ensures NotLost(Do(s, step))
  {
    hide InOrder, Counted, Emptied;
    var n := Do(s, step);
    if n.worker == Waiting && n.taskList != [] {
      if s.worker == Waiting && s.taskList != [] {
        var p :| WillSignal(Pc(s, p));
        assert WillSignal(Pc(n, p));
      } else {
        assert WillSignal(Pc(n, step.p));
      }
    }
  }

  lemma KeepsCount(s: State, step: Step)
    requires Inv(s) && Enabled(s, step)
    ensures Counted(Do(s, step))
  {
    hide InOrder, NotLost, Exclusive, Emptied, Ran, Tasks;
    var n := Do(s, step);
    if step.Execute? {
      CountOne(s, step.late);
    } else {
      assert n.done == s.done && n.dispatcherCycle == s.dispatcherCycle;
    }
  }

  lemma CountOne(s: State, late: bool)
    requires Counted(s) && Enabled(s, Execute(late))
    ensures Counted(Do(s, Execute(late)))
  {
    hide Ran, Tasks;
    var task := s.tmpTaskList[s.at];
    var d := Done(task, !(task.expires && late));
    var n := Do(s, Execute(late));
    TasksSnoc(s.done, d);
    assert n.done == s.done + [d] && d in n.done;
    if s.threadState == Terminated {
      var e :| e in s.done && e.ran && e.task.isShutdown;
      assert e in n.done;
    }
  }

  lemma Keeps(s: State, step: Step)
    requires Inv(s) && Enabled(s, step)
    ensures Inv(Do(s, step))
  {
    KeepsOrder(s, step);
    KeepsEmptied(s, step);
    KeepsExclusive(s, step);
    KeepsSignals(s, step);
    KeepsCount(s, step);
  }

  /** The invariant holds at the end of every run. */
  lemma {:induction false} Safe(s: State, steps: seq<Step>)
    requires Inv(s) && Possible(s, steps)
    ensures Inv(After(s, steps))
    decreases |steps|
  {
    hide Inv;
    if steps != [] {
      Keeps(s, steps[0]);
      Safe(Do(s, steps[0]), steps[1..]);
    }
  }

  /** Every run from the start finishes the accepted tasks front to back, each at most once: what is
      done at any time stays done, is a part of what was accepted, and was skipped only if it could
      expire. */
  lemma {:induction false} OnceInOrder(first: seq<Step>, second: seq<Step>)
    requires Possible(Init(), first) && Possible(After(Init(), first), second)
    ensures var s, n := After(Init(), first), After(After(Init(), first), second);
            && s.done <= n.done && s.accepted <= n.accepted
            && Tasks(n.done) <= n.accepted && n.dispatcherCycle == Ran(n.done)
            && forall d :: d in n.done && !d.task.expires ==> d.ran
  {
    InitHolds();
    Safe(Init(), first);
    Safe(After(Init(), first), second);
    Grows(After(Init(), first), second);
    DonePrefix(After(After(Init(), first), second));
  }

  lemma DonePrefix(s: State)
    requires InOrder(s)
    ensures Tasks(s.done) <= s.accepted
  {
    assert s.accepted == Tasks(s.done) + (s.tmpTaskList[s.at..] + s.taskList);
  }

  lemma {:induction false} Grows(s: State, steps: seq<Step>)
    requires Possible(s, steps)
    ensures s.done <= After(s, steps).done && s.accepted <= After(s, steps).accepted
    decreases |steps|
  {
    if steps != [] {
      Grows(Do(s, steps[0]), steps[1..]);
    }
  }

  // ---------------------------------------------------------------- nothing gets stuck

  lemma {:induction false} Onwards(s: State, first: seq<Step>, second: seq<Step>)
    requires Possible(s, first) && Possible(After(s, first), second)
    ensures Possible(s, first + second) && After(s, first + second) == After(After(s, first), second)
    decreases |first|
  {
    if first == [] {
      assert first + second == second;
    } else {
      assert (first + second)[0] == first[0] && (first + second)[1..] == first[1..] + second;
      Onwards(Do(s, first[0]), first[1..], second);
    }
  }

  /** One step and a run behind it. */
  lemma Then(s: State, step: Step, rest: seq<Step>)
    requires Enabled(s, step) && Possible(Do(s, step), rest)
    ensures Possible(s, [step] + rest) && After(s, [step] + rest) == After(Do(s, step), rest)
  {
    assert ([step] + rest)[1..] == rest;
  }

  /** Everything accepted in `s` has been handled in `n`. */
  ghost predicate Handled(s: State, n: State) {
    s.accepted <= Tasks(n.done)
  }

  /** A waiting worker with work to do is woken by one or two steps of a producer who needs no lock. */
  lemma WakesUp(s: State) returns (p: nat, steps: seq<Step>)
    requires Inv(s) && s.worker == Waiting && s.taskList != []
    ensures steps == [Signal(p)] || steps == [UnlockAdded(p), Signal(p)] || steps == [SignalStop(p)]
    ensures Possible(s, steps) && After(s, steps).worker == Woken && After(s, steps).taskList == s.taskList
  {
    hide InOrder, Exclusive, Emptied, Counted;
    p :| WillSignal(Pc(s, p));
    var step := match Pc(s, p) case Added(_) => UnlockAdded(p) case Stopped => SignalStop(p) case _ => Signal(p);
    var n := Do(s, step);
    if step.UnlockAdded? {
      assert Enabled(n, Signal(p)) && Do(n, Signal(p)).worker == Woken;
      Then(n, Signal(p), []);
      Then(s, step, [Signal(p)]);
      steps := [step] + [Signal(p)];
    } else {
      Then(s, step, []);
      steps := [step] + [];
    }
  }

  /** A producer who holds the lock can give it back. */
  lemma FreesLock(s: State) returns (steps: seq<Step>)
    requires Inv(s)
    ensures Possible(s, steps) && Inv(After(s, steps))
    ensures var n := After(s, steps);
            && (n.lock == None || n.lock == Some(Worker)) && s.accepted <= n.accepted && n.done == s.done
            && (n.worker == s.worker || (s.worker == Waiting && n.worker == Woken))
            && n.tmpTaskList == s.tmpTaskList && n.at == s.at && n.threadState == s.threadState
  {
    steps := [];
    if s.lock.Some? && s.lock.value.Producer? {
      var p := s.lock.value.p;
      assert HoldsLock(Pc(s, p));
      var step :=
        match Pc(s, p)
        case Adding(_) => Push(p)
        case Added(_) => UnlockAdded(p)
        case Stopping(_) => PushStop(p)
        case Stopped => SignalStop(p)
        case _ => UnlockStop(p);
      Keeps(s, step);
      var rest := FreesLockNext(Do(s, step), p);
      Then(s, step, rest);
      steps := [step] + rest;
    }
  }

  lemma FreesLockNext(s: State, p: nat) returns (steps: seq<Step>)
    requires Inv(s) && Pc(s, p) in {Added(true), Added(false), Stopped, Leaving, Signalling(true), Signalling(false), Idle}
    requires s.lock == None || s.lock == Some(Producer(p))
    ensures Possible(s, steps) && Inv(After(s, steps))
    ensures var n := After(s, steps);
            && n.lock == None && s.accepted == n.accepted && n.done == s.done
            && (n.worker == s.worker || (s.worker == Waiting && n.worker == Woken))
            && n.tmpTaskList == s.tmpTaskList && n.at == s.at && n.threadState == s.threadState
    decreases if Pc(s, p) == Stopped then 2 else if HoldsLock(Pc(s, p)) then 1 else 0
  {
    steps := [];
    if s.lock != None {
      assert HoldsLock(Pc(s, p));
      var step := if Pc(s, p).Added? then UnlockAdded(p) else if Pc(s, p).Stopped? then SignalStop(p) else UnlockStop(p);
      Keeps(s, step);
      var rest := FreesLockNext(Do(s, step), p);
      Then(s, step, rest);
      steps := [step] + rest;
    }
  }

  /** The worker can go through the rest of its local list. */
  lemma ExecutesAll(s: State) returns (steps: seq<Step>)
    requires Inv(s) && s.worker == Executing
    ensures Possible(s, steps) && Inv(After(s, steps))
    ensures var n := After(s, steps);
            && n.worker == Executing && n.at == |n.tmpTaskList| && n.accepted == s.accepted && n.taskList == s.taskList && n.lock == s.lock
            && ((forall t :: t in s.tmpTaskList[s.at..] ==> !t.isShutdown) ==> n.threadState == s.threadState)
    decreases |s.tmpTaskList| - s.at
  {
    hide Exclusive, NotLost, Counted, Emptied, Tasks;
    steps := [];
    assert s.at <= |s.tmpTaskList| by { LocalAccepted(s); }
    if s.at < |s.tmpTaskList| {
      assert s.tmpTaskList[s.at..] == [s.tmpTaskList[s.at]] + s.tmpTaskList[s.at + 1..];
      Keeps(s, Execute(false));
      var rest := ExecutesAll(Do(s, Execute(false)));
      Then(s, Execute(false), rest);
      steps := [Execute(false)] + rest;
    }
  }

  /** At the end of the local list everything is handled that is not in the shared list. */
  lemma AtTheEnd(s: State)
    requires InOrder(s) && s.at == |s.tmpTaskList|
    ensures Tasks(s.done) + s.taskList == s.accepted
  {
    assert s.tmpTaskList[s.at..] == [] && Tasks(s.done) + [] == Tasks(s.done);
  }

  lemma FromSwapping(s: State) returns (steps: seq<Step>)
    requires Inv(s) && s.worker == Swapping
    ensures Possible(s, steps) && Handled(s, After(s, steps))
  {
    hide Exclusive, NotLost, Counted, InOrder, Tasks;
    Keeps(s, Swap);
    var n := Do(s, Swap);
    Keeps(n, Unlock);
    var m := Do(n, Unlock);
    assert m.taskList == [] && m.accepted == s.accepted;
    var rest := ExecutesAll(m);
    AtTheEnd(After(m, rest));
    Then(n, Unlock, rest);
    Then(s, Swap, [Unlock] + rest);
    steps := [Swap] + ([Unlock] + rest);
  }

  /** With the lock free for it, a worker that has nothing on its local list can handle everything. */
  lemma FromOutside(s: State) returns (steps: seq<Step>)
    requires Inv(s) && s.worker !in {Unlocking, Executing, Exited} && s.threadState != Terminated
    requires s.lock == None || s.lock == Some(Worker)
    ensures Possible(s, steps) && Handled(s, After(s, steps))
    decreases match s.worker case Testing => 4 case Locking => 3 case Checking => 2 case Waiting => 1 case _ => 0
  {
    hide Counted, InOrder, Tasks, NotLost;
    assert s.tmpTaskList == [];
    if s.taskList == [] {
      NothingLeft(s);
      steps := [];
    } else if s.worker == Swapping {
      steps := FromSwapping(s);
    } else {
      var step;
      if s.worker == Waiting {
        step := SignalFor(s);
      } else {
        step := match s.worker case Testing => Test case Locking => Lock case Checking => Check case _ => Relock;
      }
      Keeps(s, step);
      var n := Do(s, step);
      var rest;
      if n.worker == Swapping {
        rest := FromSwapping(n);
      } else {
        rest := FromOutside(n);
      }
      Then(s, step, rest);
      steps := [step] + rest;
    }
  }

  lemma NothingLeft(s: State)
    requires InOrder(s) && s.taskList == [] && s.tmpTaskList == []
    ensures Handled(s, s)
  {
    AtTheEnd(s);
    assert Tasks(s.done) + [] == Tasks(s.done);
  }

  /** When no producer holds the lock, the one who will wake the worker only has to signal. */
  lemma SignalFor(s: State) returns (step: Step)
    requires NotLost(s) && Exclusive(s) && s.worker == Waiting && s.taskList != [] && s.lock == None
    ensures step.Signal? && Enabled(s, step) && Do(s, step).worker == Woken && Do(s, step).taskList == s.taskList
    ensures Do(s, step).lock == None && Do(s, step).accepted == s.accepted && Do(s, step).threadState == s.threadState
  {
    var p :| WillSignal(Pc(s, p));
    assert !HoldsLock(Pc(s, p));
    step := Signal(p);
  }

  /** From every state before a shutdown, however the threads stand, all the accepted tasks can still
      be handled: there is no deadlock and no task that nobody will look at. */
  lemma Deliverable(s: State) returns (steps: seq<Step>)
    requires Inv(s) && s.threadState != Terminated && forall t :: t in s.accepted ==> !t.isShutdown
    ensures Possible(s, steps) && Handled(s, After(s, steps))
  {
    hide Exclusive, NotLost, Emptied, InOrder, Tasks;
    var free := FreesLock(s);
    var n := After(s, free);
    var rest;
    if n.worker in {Unlocking, Executing} {
      LocalAccepted(n);
      LocalAccepted(s);
      rest := FromInside(n, s.accepted);
    } else {
      rest := FromOutside(n);
    }
    Onwards(s, free, rest);
    steps := free + rest;
  }

  lemma LocalAccepted(s: State)
    requires InOrder(s)
    ensures s.at <= |s.tmpTaskList| && forall t :: t in s.tmpTaskList[s.at..] ==> t in s.accepted
  {
    var rest := s.tmpTaskList[s.at..];
    assert forall t :: t in rest ==> t in Tasks(s.done) + rest + s.taskList;
  }

  lemma FromInside(s: State, accepted: seq<Task>) returns (steps: seq<Step>)
    requires Inv(s) && s.worker in {Unlocking, Executing} && s.threadState != Terminated
    requires accepted <= s.accepted && (s.lock == None || s.lock == Some(Worker))
    requires s.at <= |s.tmpTaskList| && forall t :: t in s.tmpTaskList[s.at..] ==> !t.isShutdown
    decreases if s.worker == Unlocking then 1 else 0
    ensures Possible(s, steps) && accepted <= Tasks(After(s, steps).done)
  {
    hide Exclusive, NotLost, Emptied, InOrder, Tasks;
    if s.worker == Unlocking {
      Keeps(s, Unlock);
      var rest := FromInside(Do(s, Unlock), accepted);
      Then(s, Unlock, rest);
      steps := [Unlock] + rest;
    } else {
      var all := ExecutesAll(s);
      var n := After(s, all);
      Keeps(n, Clear);
      var rest := FromOutside(Do(n, Clear));
      Then(n, Clear, rest);
      Onwards(s, all, [Clear] + rest);
      steps := all + ([Clear] + rest);
    }
  }

  /** A task that is added while the dispatcher runs can be handled, behind all the tasks before it; one
      that is added later is dropped. */
  lemma AddedIsHandled(s: State, p: nat, task: Task) returns (steps: seq<Step>)
    requires Inv(s) && s.lock == None && Pc(s, p) == Idle && !task.isShutdown && forall t :: t in s.accepted ==> !t.isShutdown
    ensures Possible(s, [LockToAdd(p, task), Push(p)] + steps)
    ensures var n := After(s, [LockToAdd(p, task), Push(p)] + steps);
            if s.threadState == Running then s.accepted + [task] <= Tasks(n.done)
            else n.taskList == s.taskList && n.accepted == s.accepted
  {
    hide Inv, Tasks;
    var m := Do(s, LockToAdd(p, task));
    var n := Do(m, Push(p));
    Keeps(s, LockToAdd(p, task));
    Keeps(m, Push(p));
    steps := [];
    if s.threadState == Running {
      assert n.accepted == s.accepted + [task];
      steps := Deliverable(n);
    }
    Then(m, Push(p), steps);
    Then(s, LockToAdd(p, task), [Push(p)] + steps);
    assert [LockToAdd(p, task), Push(p)] + steps == [LockToAdd(p, task)] + ([Push(p)] + steps);
  }
}
