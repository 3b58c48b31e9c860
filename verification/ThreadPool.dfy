// The worker pool (hw4/ThreadPool.cc) as the steps of its threads: N workers,
// the thread that owns the pool (constructor and destructor), and any number of
// client threads that call Dispatch.  A step runs up to the next point where
// another thread may take over: acquiring the lock, releasing it, or waiting.
module ThreadPool {
  type Task = nat // the address of the Task object

  // Where a worker is in ThreadLoop.
  datatype Worker =
    | Unborn
    | Starting                 // created, wants the lock for the first time
    | LoopTest                 // holds the lock, at the outer loop's test
    | Waiting                  // blocked in pthread_cond_wait
    | Woken                    // signalled, wants the lock back
    | QueueTest                // holds the lock, at the inner loop's test
    | Running(task: nat)       // runs the task with this sequence number, lock released
    | Returned                 // the task returned, wants the lock back
    | Dead

  // Where the owning thread is.
  datatype Owner =
    | Locking                  // the constructor wants the lock
    | Spawning(next: nat)      // holds the lock, creating thread number next
    | Counting                 // holds the lock, at the test of num_threads_running_
    | Sleeping                 // released the lock, wants it back
    | Ready                    // the pool is in use
    | Closing                  // the destructor wants the lock
    | Joins(next: nat, total: int)     // holds the lock, at the join loop's test
    | Joining(next: nat, total: int)   // released the lock, waiting for thread number next to die
    | Rejoining(next: nat, total: int) // it died, wants the lock back
    | Draining                 // all joined, at the drain loop's test
    | DrainRunning(task: nat)
    | Done

  datatype Client = Idle | DispatchLocking(task: Task) | DispatchHolding(task: Task)

  datatype Holder = Free | HeldByWorker(w: nat) | HeldByOwner | HeldByClient(c: nat)

  datatype State = State(
    workers: seq<Worker>,
    owner: Owner,
    clients: seq<Client>,
    qLock: Holder,
    workQueue: seq<Task>,
    terminateThreads: bool,
    numThreadsRunning: int,
    // history
    dispatched: seq<Task>,     // every task ever dispatched, in order
    pickedUp: nat,             // how many of them have left the queue
    finished: set<nat>)        // the sequence numbers of those that returned

  datatype Action =
    | WorkerLock(w: nat)            // pthread_mutex_lock succeeds
    | WorkerTest(w: nat)            // the outer loop's test: wait or die
    | WorkerTake(w: nat)            // the inner loop's test: pop and unlock, or leave the loop
    | WorkerReturn(w: nat)          // the task function returns
    | SpuriousWakeup(w: nat)
    | OwnerLock
    | OwnerStep                     // the owner's next step while it holds the lock or runs alone
    | OwnerJoin                     // pthread_join returns
    | BeginDestructor
    | BeginDispatch(c: nat, task: Task)
    | ClientLock(c: nat)
    // The check of the terminate flag, push, signal and unlock; the signal
    // wakes the given workers.
    | ClientPush(c: nat, woken: set<nat>)

  // ---------- The steps ----------

  function Wake(ws: seq<Worker>, woken: set<nat>): (r: seq<Worker>)
    ensures |r| == |ws|
    ensures forall i :: 0 <= i < |ws| ==> r[i] == if i in woken && ws[i] == Waiting then Woken else ws[i]
  {
    seq(|ws|, i requires 0 <= i < |ws| => if i in woken && ws[i] == Waiting then Woken else ws[i])
  }

  // pthread_cond_broadcast
  function WakeAll(ws: seq<Worker>): (r: seq<Worker>)
    ensures |r| == |ws|
    ensures forall i :: 0 <= i < |ws| ==> r[i] == if ws[i] == Waiting then Woken else ws[i]
  {
    seq(|ws|, i requires 0 <= i < |ws| => if ws[i] == Waiting then Woken else ws[i])
  }

  predicate AllIdle(cs: seq<Client>) { forall c :: 0 <= c < |cs| ==> cs[c] == Idle }

  // pthread_cond_signal wakes at least one of the threads that wait.
  predicate Signals(ws: seq<Worker>, woken: set<nat>) {
    (exists i :: 0 <= i < |ws| && ws[i] == Waiting) ==> exists i :: 0 <= i < |ws| && ws[i] == Waiting && i in woken
  }

  predicate Enabled(s: State, a: Action) {
    match a
    case WorkerLock(w) => w < |s.workers| && s.qLock == Free && s.workers[w] in {Starting, Woken, Returned}
    case WorkerTest(w) => w < |s.workers| && s.workers[w] == LoopTest
    case WorkerTake(w) => w < |s.workers| && s.workers[w] == QueueTest
    case WorkerReturn(w) => w < |s.workers| && s.workers[w].Running?
    case SpuriousWakeup(w) => w < |s.workers| && s.workers[w] == Waiting
    case OwnerLock => s.qLock == Free && (s.owner in {Locking, Sleeping, Closing} || s.owner.Rejoining?)
    case OwnerStep =>
      s.owner.Spawning? || s.owner == Counting || s.owner.Joins? || s.owner == Draining || s.owner.DrainRunning?
    case OwnerJoin => s.owner.Joining? && s.owner.next < |s.workers| && s.workers[s.owner.next] == Dead
    case BeginDestructor => s.owner == Ready
    case BeginDispatch(c, _) => c < |s.clients| && s.clients[c] == Idle && s.owner == Ready
    case ClientLock(c) => c < |s.clients| && s.clients[c].DispatchLocking? && s.qLock == Free
    case ClientPush(c, woken) =>
      c < |s.clients| && s.clients[c].DispatchHolding? && !s.terminateThreads && Signals(s.workers, woken)
  }

  function Do(s: State, a: Action): State
    requires Enabled(s, a)
  {
    match a
    case WorkerLock(w) =>
      var born := s.workers[w] == Starting;
      s.(workers := s.workers[w := if born then LoopTest else QueueTest],
         numThreadsRunning := s.numThreadsRunning + (if born then 1 else 0),
         qLock := HeldByWorker(w))
    case WorkerTest(w) =>
      if s.terminateThreads then
        s.(workers := s.workers[w := Dead], numThreadsRunning := s.numThreadsRunning - 1, qLock := Free)
      else
        s.(workers := s.workers[w := Waiting], qLock := Free)
    case WorkerTake(w) =>
      if s.workQueue != [] && !s.terminateThreads then
        s.(workers := s.workers[w := Running(s.pickedUp)], workQueue := s.workQueue[1..], pickedUp := s.pickedUp + 1,
           qLock := Free)
      else
        s.(workers := s.workers[w := LoopTest])
    case WorkerReturn(w) =>
      s.(workers := s.workers[w := Returned], finished := s.finished + {s.workers[w].task})
    case SpuriousWakeup(w) => s.(workers := s.workers[w := Woken])
    case OwnerLock =>
      if s.owner == Closing then
        s.(owner := Joins(0, s.numThreadsRunning), terminateThreads := true, qLock := HeldByOwner)
      else if s.owner.Rejoining? then s.(owner := Joins(s.owner.next + 1, s.owner.total), qLock := HeldByOwner)
      else s.(owner := if s.owner == Locking then Spawning(0) else Counting, qLock := HeldByOwner)
    case OwnerStep => OwnerDo(s)
    case OwnerJoin => s.(owner := Rejoining(s.owner.next, s.owner.total))
    case BeginDestructor => s.(owner := Closing)
    case BeginDispatch(c, t) => s.(clients := s.clients[c := DispatchLocking(t)])
    case ClientLock(c) => s.(clients := s.clients[c := DispatchHolding(s.clients[c].task)], qLock := HeldByClient(c))
    case ClientPush(c, woken) =>
      var t := s.clients[c].task;
      s.(clients := s.clients[c := Idle], workQueue := s.workQueue + [t], dispatched := s.dispatched + [t],
         workers := Wake(s.workers, woken), qLock := Free)
  }

  function OwnerDo(s: State): State
    requires Enabled(s, OwnerStep)
  {
    match s.owner
    case Spawning(i) =>
      if i < |s.workers| then s.(owner := Spawning(i + 1), workers := s.workers[i := Starting])
      else s.(owner := Counting)
    case Counting =>
      if s.numThreadsRunning != |s.workers| then s.(owner := Sleeping, qLock := Free)
      else s.(owner := Ready, qLock := Free)
    case Joins(i, n) =>
      if i < n then
        s.(owner := Joining(i, n), workers := WakeAll(s.workers), qLock := Free)
      else s.(owner := Draining, qLock := Free)
    case Draining =>
      if s.workQueue != [] then
        s.(owner := DrainRunning(s.pickedUp), workQueue := s.workQueue[1..], pickedUp := s.pickedUp + 1)
      else s.(owner := Done)
    case DrainRunning(k) => s.(owner := Draining, finished := s.finished + {k})
    case _ => s
  }

  function Initial(workers: nat, clients: nat): State {
    State(seq(workers, _ => Unborn), Locking, seq(clients, _ => Idle), Free, [], false, 0, [], 0, {})
  }

  // A run from s: every step is enabled where it is taken.
  ghost predicate Runs(s: State, run: seq<Action>)
    decreases run
  {
    run == [] || (Enabled(s, run[0]) && Runs(Do(s, run[0]), run[1..]))
  }

  function After(s: State, run: seq<Action>): State
    requires Runs(s, run)
    decreases run
  {
    if run == [] then s else After(Do(s, run[0]), run[1..])
  }

  // ---------- The invariant ----------

  predicate Holds(w: Worker) { w == LoopTest || w == QueueTest }

  predicate Alive(w: Worker) { w != Unborn && w != Starting && w != Dead }

  function AliveCount(ws: seq<Worker>): nat {
    if ws == [] then 0 else AliveCount(ws[..|ws| - 1]) + (if Alive(ws[|ws| - 1]) then 1 else 0)
  }

  predicate OwnerHolds(o: Owner) { o.Spawning? || o == Counting || o.Joins? }

  predicate Constructing(o: Owner) { o == Locking || o.Spawning? || o == Counting || o == Sleeping }

  predicate Joined(o: Owner) { o == Draining || o.DrainRunning? || o == Done }

  predicate Terminating(o: Owner) { o.Joins? || o.Joining? || o.Rejoining? || Joined(o) }

  // The lock is held by exactly the thread that is inside a critical section.
  ghost predicate LockOk(s: State) {
    (forall i: nat :: s.qLock == HeldByWorker(i) <==> i < |s.workers| && Holds(s.workers[i])) &&
    (forall c: nat :: s.qLock == HeldByClient(c) <==> c < |s.clients| && s.clients[c].DispatchHolding?) &&
    (s.qLock == HeldByOwner <==> OwnerHolds(s.owner))
  }

  predicate WorkerPhaseOk(o: Owner, i: nat, w: Worker) {
    (o == Locking ==> w == Unborn) &&
    (o.Spawning? ==> w == if i < o.next then Starting else Unborn) &&
    (w == Unborn ==> o == Locking || o.Spawning?) &&
    (w == Starting ==> Constructing(o)) &&
    (w == Dead ==> Terminating(o)) &&
    (o.Joins? || o.Joining? || o.Rejoining? ==> i < o.next ==> w == Dead) &&
    (o.Rejoining? ==> i == o.next ==> w == Dead) &&
    (Joined(o) ==> w == Dead) &&
    (w == Waiting ==> Terminating(o) ==> o.Joins? && o.next == 0)
  }

  ghost predicate PhaseOk(s: State) {
    (s.terminateThreads <==> Terminating(s.owner)) &&
    (Constructing(s.owner) ==> s.dispatched == []) &&
    (Constructing(s.owner) ==> AllIdle(s.clients)) &&
    (s.owner.Spawning? ==> s.owner.next <= |s.workers|) &&
    (s.owner.Joins? ==> s.owner.next <= s.owner.total == |s.workers|) &&
    (s.owner.Joining? || s.owner.Rejoining? ==> s.owner.next < s.owner.total == |s.workers|) &&
    forall i :: 0 <= i < |s.workers| ==> WorkerPhaseOk(s.owner, i, s.workers[i])
  }

  ghost predicate CountOk(s: State) { s.numThreadsRunning == AliveCount(s.workers) }

  predicate AllWaiting(ws: seq<Worker>) { |ws| > 0 && forall i :: 0 <= i < |ws| ==> ws[i] == Waiting }

  // The queue holds the dispatched tasks that were not picked up yet, in order.
  ghost predicate FifoOk(s: State) {
    s.pickedUp <= |s.dispatched| && s.workQueue == s.dispatched[s.pickedUp..] &&
    (s.owner == Done ==> s.workQueue == [])
  }

  ghost predicate WakeOk(s: State) {
    (!s.terminateThreads ==> forall i :: 0 <= i < |s.workers| ==> s.workers[i] == LoopTest ==> s.workQueue == []) &&
    (s.workQueue != [] && !s.terminateThreads ==> !AllWaiting(s.workers))
  }

  // Task number k is being run by some thread.
  ghost predicate InFlight(s: State, k: nat) {
    s.owner == DrainRunning(k) || exists i :: 0 <= i < |s.workers| && s.workers[i] == Running(k)
  }

  ghost predicate TaskOk(s: State) {
    (forall k :: k in s.finished ==> k < s.pickedUp) &&
    (forall i :: 0 <= i < |s.workers| && s.workers[i].Running? ==>
       s.workers[i].task < s.pickedUp && s.workers[i].task !in s.finished) &&
    (forall i, j :: 0 <= i < j < |s.workers| && s.workers[i].Running? ==> s.workers[i] != s.workers[j]) &&
    (s.owner.DrainRunning? ==> s.owner.task < s.pickedUp && s.owner.task !in s.finished) &&
    forall k: nat :: k < s.pickedUp ==> k in s.finished || InFlight(s, k)
  }

  ghost predicate Inv(s: State) { LockOk(s) && PhaseOk(s) && CountOk(s) && FifoOk(s) && WakeOk(s) && TaskOk(s) }

  // ---------- Every step keeps it ----------

  predicate ByOwner(a: Action) { a == OwnerLock || a == OwnerStep || a == OwnerJoin || a == BeginDestructor }

  predicate ByClient(a: Action) { a.BeginDispatch? || a.ClientLock? || a.ClientPush? }

  lemma LockOwnerStep(s: State, a: Action)
    requires LockOk(s) && Enabled(s, a) && ByOwner(a)
    ensures LockOk(Do(s, a))
  {
  }

  lemma LockClientStep(s: State, a: Action)
    requires LockOk(s) && Enabled(s, a) && ByClient(a)
    ensures LockOk(Do(s, a))
  {
    hide OwnerDo;
  }

  lemma LockWorkerStep(s: State, a: Action)
    requires LockOk(s) && Enabled(s, a) && !ByOwner(a) && !ByClient(a)
    ensures LockOk(Do(s, a))
  {
    hide OwnerDo, Signals;
  }

  lemma LockStep(s: State, a: Action)
    requires LockOk(s) && Enabled(s, a)
    ensures LockOk(Do(s, a))
  {
    hide LockOk, Do, Enabled;
    if ByOwner(a) {
      LockOwnerStep(s, a);
    } else if ByClient(a) {
      LockClientStep(s, a);
    } else {
      LockWorkerStep(s, a);
    }
  }

  lemma {:induction false} CountUpdate(ws: seq<Worker>, i: nat, w: Worker)
    requires i < |ws|
    ensures AliveCount(ws[i := w]) == AliveCount(ws) - (if Alive(ws[i]) then 1 else 0) + (if Alive(w) then 1 else 0)
  {
    if i < |ws| - 1 {
      CountUpdate(ws[..|ws| - 1], i, w);
      assert ws[i := w][..|ws| - 1] == ws[..|ws| - 1][i := w];
    } else {
      assert ws[i := w][..|ws| - 1] == ws[..|ws| - 1];
    }
  }

  lemma {:induction false} CountSame(ws: seq<Worker>, ws': seq<Worker>)
    requires |ws| == |ws'| && forall i :: 0 <= i < |ws| ==> Alive(ws[i]) == Alive(ws'[i])
    ensures AliveCount(ws) == AliveCount(ws')
  {
    if ws != [] { CountSame(ws[..|ws| - 1], ws'[..|ws| - 1]); }
  }

  lemma {:induction false} CountFull(ws: seq<Worker>)
    ensures AliveCount(ws) <= |ws|
    ensures AliveCount(ws) == |ws| <==> forall i :: 0 <= i < |ws| ==> Alive(ws[i])
  {
    if ws != [] { CountFull(ws[..|ws| - 1]); }
  }

  lemma {:induction false} CountNone(ws: seq<Worker>)
    requires forall i :: 0 <= i < |ws| ==> !Alive(ws[i])
    ensures AliveCount(ws) == 0
  {
    if ws != [] { CountNone(ws[..|ws| - 1]); }
  }

  // While no thread is being born and none has died, all of them are counted.
  lemma AllCounted(s: State)
    requires PhaseOk(s) && CountOk(s) && !Constructing(s.owner) && !Terminating(s.owner)
    ensures s.numThreadsRunning == |s.workers|
  {
    forall i | 0 <= i < |s.workers| ensures Alive(s.workers[i]) {
      assert WorkerPhaseOk(s.owner, i, s.workers[i]);
    }
    CountFull(s.workers);
  }

  lemma OwnerPhaseStep(s: State, a: Action, i: nat)
    requires LockOk(s) && PhaseOk(s) && CountOk(s) && Enabled(s, a) && i < |s.workers| && ByOwner(a)
    ensures WorkerPhaseOk(Do(s, a).owner, i, Do(s, a).workers[i])
  {
    hide LockOk, AllIdle;
    assert WorkerPhaseOk(s.owner, i, s.workers[i]);
    if a == OwnerStep && s.owner == Counting { CountFull(s.workers); }
  }

  lemma WorkerPhaseStep(s: State, a: Action, i: nat)
    requires LockOk(s) && PhaseOk(s) && Enabled(s, a) && i < |s.workers| && !ByOwner(a)
    ensures WorkerPhaseOk(Do(s, a).owner, i, Do(s, a).workers[i])
  {
    hide AllIdle, OwnerDo, Signals;
    assert WorkerPhaseOk(s.owner, i, s.workers[i]);
    LockHolders(s);
  }

  // Who holds the lock while some worker or client does.
  lemma LockHolders(s: State)
    requires LockOk(s)
    ensures forall i :: 0 <= i < |s.workers| && Holds(s.workers[i]) ==> !OwnerHolds(s.owner)
    ensures forall c :: 0 <= c < |s.clients| && s.clients[c].DispatchHolding? ==> !OwnerHolds(s.owner)
  {
  }

  lemma PhaseStep(s: State, a: Action)
    requires LockOk(s) && PhaseOk(s) && CountOk(s) && Enabled(s, a)
    ensures PhaseOk(Do(s, a))
  {
    hide WorkerPhaseOk, LockOk, Signals;
    forall i | 0 <= i < |s.workers| ensures WorkerPhaseOk(Do(s, a).owner, i, Do(s, a).workers[i]) {
      if ByOwner(a) { OwnerPhaseStep(s, a, i); } else { WorkerPhaseStep(s, a, i); }
    }
    if s.owner == Closing { AllCounted(s); }
  }

  lemma CountOwnerStep(s: State)
    requires PhaseOk(s) && CountOk(s) && Enabled(s, OwnerStep)
    ensures CountOk(Do(s, OwnerStep))
  {
    if s.owner.Spawning? && s.owner.next < |s.workers| {
      assert WorkerPhaseOk(s.owner, s.owner.next, s.workers[s.owner.next]);
    }
    CountSame(s.workers, Do(s, OwnerStep).workers);
  }

  lemma CountStep(s: State, a: Action)
    requires PhaseOk(s) && CountOk(s) && Enabled(s, a)
    ensures CountOk(Do(s, a))
  {
    hide PhaseOk, OwnerDo;
    var s' := Do(s, a);
    match a {
      case WorkerLock(w) => CountUpdate(s.workers, w, s'.workers[w]);
      case WorkerTest(w) => CountUpdate(s.workers, w, s'.workers[w]);
      case WorkerTake(w) => CountUpdate(s.workers, w, s'.workers[w]);
      case WorkerReturn(w) => CountUpdate(s.workers, w, s'.workers[w]);
      case SpuriousWakeup(w) => CountUpdate(s.workers, w, s'.workers[w]);
      case ClientPush(_, _) => CountSame(s.workers, s'.workers);
      case OwnerStep => CountOwnerStep(s);
      case _ =>
    }
  }

  lemma FifoStep(s: State, a: Action)
    requires PhaseOk(s) && FifoOk(s) && Enabled(s, a)
    ensures FifoOk(Do(s, a))
  {
    hide WorkerPhaseOk, Wake, WakeAll, Signals;
  }

  lemma WakeStep(s: State, a: Action)
    requires LockOk(s) && PhaseOk(s) && WakeOk(s) && Enabled(s, a)
    requires Constructing(s.owner) ==> s.workQueue == []
    ensures WakeOk(Do(s, a))
  {
    var s' := Do(s, a);
    match a {
      case WorkerLock(w) =>
        assert s'.workers[w] != Waiting;
        assert WorkerPhaseOk(s.owner, w, s.workers[w]);
      case WorkerTake(w) => assert s'.workers[w] != Waiting;
      case WorkerReturn(w) => assert s'.workers[w] != Waiting;
      case SpuriousWakeup(w) => assert s'.workers[w] != Waiting;
      case ClientPush(_, woken) => PushWakes(s.workers, woken);
      case _ =>
    }
  }

  lemma PushWakes(ws: seq<Worker>, woken: set<nat>)
    requires Signals(ws, woken)
    ensures !AllWaiting(Wake(ws, woken))
  {
    if i :| 0 <= i < |ws| && ws[i] == Waiting {
      var j :| 0 <= j < |ws| && ws[j] == Waiting && j in woken;
      assert Wake(ws, woken)[j] == Woken;
    } else if |ws| > 0 {
      assert Wake(ws, woken)[0] != Waiting;
    }
  }

  // A step that starts no task and ends none.
  lemma TasksUntouched(s: State, s': State)
    requires TaskOk(s) && s'.finished == s.finished && s'.pickedUp == s.pickedUp && |s'.workers| == |s.workers|
    requires s'.owner.DrainRunning? || s.owner.DrainRunning? ==> s'.owner == s.owner
    requires forall i :: 0 <= i < |s.workers| ==> s.workers[i].Running? || s'.workers[i].Running? ==>
            s.workers[i] == s'.workers[i]
    ensures TaskOk(s')
  {
    forall k: nat | k < s'.pickedUp && k !in s'.finished ensures InFlight(s', k) {
      assert InFlight(s, k);
      if s.owner != DrainRunning(k) {
        var i :| 0 <= i < |s.workers| && s.workers[i] == Running(k);
        assert s'.workers[i] == Running(k);
      }
    }
  }

  // Taking task number pickedUp off the queue.
  lemma TaskTaken(s: State, w: nat)
    requires TaskOk(s) && Enabled(s, WorkerTake(w)) && s.workQueue != [] && !s.terminateThreads
    ensures TaskOk(Do(s, WorkerTake(w)))
  {
    var s' := Do(s, WorkerTake(w));
    forall k: nat | k < s'.pickedUp && k !in s'.finished ensures InFlight(s', k) {
      if k == s.pickedUp {
        assert s'.workers[w] == Running(k);
      } else {
        assert InFlight(s, k);
        if s.owner != DrainRunning(k) {
          var i :| 0 <= i < |s.workers| && s.workers[i] == Running(k);
          assert s'.workers[i] == Running(k);
        }
      }
    }
  }

  lemma TaskReturned(s: State, w: nat)
    requires TaskOk(s) && Enabled(s, WorkerReturn(w)) && !s.owner.DrainRunning?
    ensures TaskOk(Do(s, WorkerReturn(w)))
  {
    var s' := Do(s, WorkerReturn(w));
    forall k: nat | k < s'.pickedUp && k !in s'.finished ensures InFlight(s', k) {
      assert InFlight(s, k);
      var i :| 0 <= i < |s.workers| && s.workers[i] == Running(k);
      assert s'.workers[i] == Running(k);
    }
  }

  // The destructor's own loop: no worker is left to run anything.
  lemma TaskDrained(s: State)
    requires TaskOk(s) && PhaseOk(s) && Enabled(s, OwnerStep) && Joined(s.owner)
    ensures TaskOk(Do(s, OwnerStep))
  {
    var s' := Do(s, OwnerStep);
    assert forall i :: 0 <= i < |s.workers| ==> WorkerPhaseOk(s.owner, i, s.workers[i]);
    forall k: nat | k < s'.pickedUp && k !in s'.finished ensures InFlight(s', k) {
      assert k < s.pickedUp ==> InFlight(s, k);
    }
  }

  lemma TaskStep(s: State, a: Action)
    requires PhaseOk(s) && TaskOk(s) && Enabled(s, a)
    ensures TaskOk(Do(s, a))
  {
    hide TaskOk, WorkerPhaseOk;
    if a.WorkerTake? && s.workQueue != [] && !s.terminateThreads {
      TaskTaken(s, a.w);
    } else if a.WorkerReturn? {
      assert !s.owner.DrainRunning? by { WorkerGone(s, a.w); }
      TaskReturned(s, a.w);
    } else if a == OwnerStep && Joined(s.owner) {
      TaskDrained(s);
    } else {
      if a == OwnerStep && s.owner.Spawning? && s.owner.next < |s.workers| { NotYetRunning(s); }
      TasksUntouched(s, Do(s, a));
    }
  }

  lemma WorkerGone(s: State, w: nat)
    requires PhaseOk(s) && w < |s.workers| && s.workers[w] != Dead
    ensures !Joined(s.owner)
  {
    assert WorkerPhaseOk(s.owner, w, s.workers[w]);
  }

  lemma NotYetRunning(s: State)
    requires PhaseOk(s) && s.owner.Spawning? && s.owner.next < |s.workers|
    ensures !s.workers[s.owner.next].Running?
  {
    assert WorkerPhaseOk(s.owner, s.owner.next, s.workers[s.owner.next]);
  }

  lemma NothingQueuedYet(s: State)
    requires PhaseOk(s) && FifoOk(s)
    ensures Constructing(s.owner) ==> s.workQueue == []
  {
    hide WorkerPhaseOk;
  }

  lemma InvStep(s: State, a: Action)
    requires Inv(s) && Enabled(s, a)
    ensures Inv(Do(s, a))
  {
    hide LockOk, PhaseOk, CountOk, FifoOk, WakeOk, TaskOk;
    LockStep(s, a);
    PhaseStep(s, a);
    CountStep(s, a);
    FifoStep(s, a);
    NothingQueuedYet(s);
    WakeStep(s, a);
    TaskStep(s, a);
  }

  lemma InvInitial(workers: nat, clients: nat)
    ensures Inv(Initial(workers, clients))
  {
    CountNone(Initial(workers, clients).workers);
  }

  // The invariant holds in every state of every run.
  lemma {:induction false} InvRun(s: State, run: seq<Action>)
    requires Inv(s) && Runs(s, run)
    ensures Inv(After(s, run))
    decreases run
  {
    hide Inv, Enabled, Do;
    if run != [] {
      InvStep(s, run[0]);
      InvRun(Do(s, run[0]), run[1..]);
    }
  }

  ghost predicate Reachable(s: State, workers: nat, clients: nat) {
    exists run :: Runs(Initial(workers, clients), run) && After(Initial(workers, clients), run) == s
  }

  lemma ReachableInv(s: State, workers: nat, clients: nat)
    requires Reachable(s, workers, clients)
    ensures Inv(s)
  {
    var run :| Runs(Initial(workers, clients), run) && After(Initial(workers, clients), run) == s;
    InvInitial(workers, clients);
    InvRun(Initial(workers, clients), run);
  }

  // ---------- Wakeups ----------

  lemma OnlyTestBlocks(s: State, a: Action, w: nat)
    requires Enabled(s, a) && w < |s.workers|
    requires s.workers[w] != Waiting && Do(s, a).workers[w] == Waiting
    ensures a == WorkerTest(w) && !s.terminateThreads
  {
  }

  // A worker blocks only when there is nothing to do and no shutdown has begun.
  lemma BlocksOnlyWhenIdle(s: State, a: Action, w: nat, workers: nat, clients: nat)
    requires Reachable(s, workers, clients) && Enabled(s, a) && w < |s.workers|
    requires s.workers[w] != Waiting && Do(s, a).workers[w] == Waiting
    ensures s.workQueue == [] && !s.terminateThreads
  {
    hide LockOk, PhaseOk, CountOk, FifoOk, TaskOk, Reachable, Do;
    ReachableInv(s, workers, clients);
    OnlyTestBlocks(s, a, w);
  }

  // A waiting task always finds some worker that is not blocked.
  lemma NoLostWakeup(s: State, workers: nat, clients: nat)
    requires Reachable(s, workers, clients) && |s.workers| > 0
    requires s.workQueue != [] && !s.terminateThreads
    ensures exists w :: 0 <= w < |s.workers| && s.workers[w] != Waiting
  {
    ReachableInv(s, workers, clients);
  }

  // Once other threads can see the terminate flag, no worker is blocked.
  lemma NoStuckShutdown(s: State, workers: nat, clients: nat)
    requires Reachable(s, workers, clients) && s.terminateThreads && s.qLock != HeldByOwner
    ensures forall w :: 0 <= w < |s.workers| ==> s.workers[w] != Waiting
  {
    ReachableInv(s, workers, clients);
    forall w | 0 <= w < |s.workers| ensures s.workers[w] != Waiting {
      assert WorkerPhaseOk(s.owner, w, s.workers[w]);
    }
  }

  // ---------- The checks in the code ----------

  // The call of client c holds the lock and finds the terminate flag set.
  predicate CallFails(s: State, c: nat) { s.terminateThreads && c < |s.clients| && s.clients[c].DispatchHolding? }

  predicate CheckFails(s: State) {
    s.terminateThreads && exists c :: 0 <= c < |s.clients| && s.clients[c].DispatchHolding?
  }

  // Some continuation leads to a failed check in client c's call ...
  ghost predicate CallCanFail(s: State, c: nat) { exists run :: Runs(s, run) && CallFails(After(s, run), c) }

  // ... or in some call.
  ghost predicate CheckCanFail(s: State) { exists run :: Runs(s, run) && CheckFails(After(s, run)) }

  // The call of client c wants the lock.
  predicate Pending(s: State, c: nat) { c < |s.clients| && s.clients[c].DispatchLocking? }

  // The destructor has begun, and client c's call does not fail its check now
  // and does not want the lock, unless a call that failed its check keeps it.
  predicate Safe(s: State, c: nat) {
    (s.owner == Closing || Terminating(s.owner)) && !CallFails(s, c) && (Pending(s, c) ==> CheckFails(s))
  }

  // A failed check keeps the lock.
  lemma FailureLasts(s: State, a: Action)
    requires LockOk(s) && PhaseOk(s) && CheckFails(s) && Enabled(s, a)
    ensures CheckFails(Do(s, a)) && !a.ClientLock?
  {
    hide WorkerPhaseOk, Signals, OwnerDo;
    var c: nat :| c < |s.clients| && s.clients[c].DispatchHolding?;
    assert s.qLock == HeldByClient(c);
    if ByOwner(a) { OwnerKeeps(s, a); }
    assert Do(s, a).clients[c].DispatchHolding?;
  }

  lemma OwnerKeeps(s: State, a: Action)
    requires Enabled(s, a) && ByOwner(a)
    ensures Do(s, a).clients == s.clients && (s.terminateThreads ==> Do(s, a).terminateThreads)
  {
  }

  lemma SafeStep(s: State, a: Action, c: nat)
    requires Inv(s) && Safe(s, c) && Enabled(s, a)
    ensures Safe(Do(s, a), c)
  {
    hide CountOk, FifoOk, WakeOk, TaskOk, Signals, WorkerPhaseOk, CheckFails;
    if CheckFails(s) { FailureLasts(s, a); }
  }

  lemma {:induction false} SafeRun(s: State, run: seq<Action>, c: nat)
    requires Inv(s) && Safe(s, c) && Runs(s, run)
    ensures !CallFails(After(s, run), c)
    decreases run
  {
    hide Inv, Enabled, Do;
    if run != [] {
      SafeStep(s, run[0], c);
      InvStep(s, run[0]);
      SafeRun(Do(s, run[0]), run[1..], c);
    }
  }

  lemma CanFailLater(s: State, a: Action, c: nat)
    requires Enabled(s, a) && CallCanFail(Do(s, a), c)
    ensures CallCanFail(s, c)
  {
    hide Enabled, Do, CallFails;
    var run :| Runs(Do(s, a), run) && CallFails(After(Do(s, a), run), c);
    var all := RunsCons(s, a, run);
  }

  // The schedule that makes a call fail that wants the lock once the destructor
  // has begun: whoever holds the lock lets go, the destructor takes it and sets
  // the flag, and the call comes next.
  function Worst(s: State, c: nat): Action {
    match s.qLock
    case HeldByOwner => OwnerStep
    case HeldByWorker(w) => if w < |s.workers| && s.workers[w] == LoopTest then WorkerTest(w) else WorkerTake(w)
    case HeldByClient(d) => ClientPush(d, set i: nat | 0 <= i < |s.workers| && s.workers[i] == Waiting)
    case Free => if s.terminateThreads then ClientLock(c) else OwnerLock
  }

  function Distance(s: State): nat {
    (if s.terminateThreads then 1 else 4) +
    match s.qLock
    case Free => 0
    case HeldByWorker(w) => if w < |s.workers| && s.workers[w] == QueueTest then 2 else 1
    case _ => 1
  }

  lemma WorstStep(s: State, c: nat)
    requires Inv(s) && Pending(s, c) && !CheckFails(s) && (s.owner == Closing || Terminating(s.owner))
    ensures Enabled(s, Worst(s, c))
    ensures var s' := Do(s, Worst(s, c));
            CallFails(s', c) ||
            (Pending(s', c) && !CheckFails(s') && (s'.owner == Closing || Terminating(s'.owner)) &&
             Distance(s') < Distance(s))
  {
    hide CountOk, FifoOk, WakeOk, TaskOk, WorkerPhaseOk;
    assert forall d: nat :: !CallFails(s, d);
  }

  lemma {:induction false} PendingCanFail(s: State, c: nat)
    requires Inv(s) && Pending(s, c) && !CheckFails(s) && (s.owner == Closing || Terminating(s.owner))
    ensures CallCanFail(s, c)
    decreases Distance(s)
  {
    hide Inv, Enabled, Do, Worst, CheckFails, CallFails, Pending, Distance;
    WorstStep(s, c);
    var s' := Do(s, Worst(s, c));
    InvStep(s, Worst(s, c));
    if CallFails(s', c) {
      FailsNow(s', c);
    } else {
      PendingCanFail(s', c);
    }
    CanFailLater(s, Worst(s, c), c);
  }

  lemma FailsNow(s: State, c: nat)
    requires CallFails(s, c)
    ensures CallCanFail(s, c)
  {
    assert Runs(s, []) && After(s, []) == s;
  }

  // A pool in use can still be destroyed before a client's call gets the lock.
  lemma ReadyCanFail(s: State, c: nat)
    requires Inv(s) && s.owner == Ready && c < |s.clients|
    ensures CallCanFail(s, c)
    decreases if s.clients[c].DispatchHolding? then 2 else if s.clients[c] == Idle then 1 else 0
  {
    hide Inv, CallCanFail;
    ReadyHolds(s);
    var a := match s.clients[c]
      case Idle => BeginDispatch(c, 0)
      case DispatchLocking(_) => BeginDestructor
      case DispatchHolding(_) => ClientPush(c, set i: nat | 0 <= i < |s.workers| && s.workers[i] == Waiting);
    InvStep(s, a);
    if s.clients[c].DispatchLocking? {
      PendingCanFail(Do(s, a), c);
    } else {
      ReadyCanFail(Do(s, a), c);
    }
    CanFailLater(s, a, c);
  }

  lemma ReadyHolds(s: State)
    requires Inv(s) && s.owner == Ready
    ensures !s.terminateThreads
  {
  }

  // Once the pool is constructed, the check in client c's present or later
  // calls can fail if and only if the destructor has not begun, or the call
  // wants the lock and no check has failed yet, or the check is failing.
  lemma CallCanFailWhen(s: State, c: nat, workers: nat, clients: nat)
    requires Reachable(s, workers, clients) && !Constructing(s.owner) && c < |s.clients|
    ensures CallCanFail(s, c) <==> s.owner == Ready || (Pending(s, c) && !CheckFails(s)) || CallFails(s, c)
  {
    hide Inv, Runs, After, Reachable;
    ReachableInv(s, workers, clients);
    if s.owner == Ready {
      ReadyCanFail(s, c);
    } else if CallFails(s, c) {
      FailsNow(s, c);
    } else if Pending(s, c) && !CheckFails(s) {
      PendingCanFail(s, c);
    } else {
      forall run | Runs(s, run) ensures !CallFails(After(s, run), c) { SafeRun(s, run, c); }
    }
  }

  lemma ClosingCanFail(s: State)
    requires Inv(s) && s.owner == Closing
    ensures CheckCanFail(s) <==> exists c: nat :: Pending(s, c)
  {
    hide LockOk, CountOk, FifoOk, WakeOk, TaskOk, Runs, After, Pending, WorkerPhaseOk;
    assert forall d: nat :: !CallFails(s, d);
    if c: nat :| Pending(s, c) {
      PendingCanFail(s, c);
      var run :| Runs(s, run) && CallFails(After(s, run), c);
    } else {
      forall run | Runs(s, run) ensures !CheckFails(After(s, run)) {
        forall c: nat ensures !CallFails(After(s, run), c) { SafeRun(s, run, c); }
        SomeCallFails(After(s, run));
      }
    }
  }

  lemma SomeCallFails(s: State)
    ensures CheckFails(s) <==> exists c: nat :: CallFails(s, c)
  {
    if CheckFails(s) {
      var c: nat :| c < |s.clients| && s.clients[c].DispatchHolding?;
      assert CallFails(s, c);
    }
  }

  // When the destructor has begun and has not set the flag, the check in
  // Dispatch can fail if and only if some call wants the lock; and the
  // destructor finds all workers dead after its joins, having joined every one.
  lemma ChecksHold(s: State, workers: nat, clients: nat)
    requires Reachable(s, workers, clients)
    ensures s.owner == Closing ==> (CheckCanFail(s) <==> exists c: nat :: Pending(s, c))
    ensures s.owner.Joins? && s.owner.next >= s.owner.total ==> s.numThreadsRunning == 0 && s.owner.total == |s.workers|
  {
    ReachableInv(s, workers, clients);
    if s.owner.Joins? && s.owner.next >= s.owner.total {
      assert forall i :: 0 <= i < |s.workers| ==> WorkerPhaseOk(s.owner, i, s.workers[i]);
      CountNone(s.workers);
    }
    if s.owner == Closing { ClosingCanFail(s); }
  }

  // A pool without workers, constructed, with one client.
  function ReadyPool(): State { State([], Ready, [Idle], Free, [], false, 0, [], 0, {}) }

  lemma PoolGetsReady(rest: seq<Action>) returns (run: seq<Action>)
    requires Runs(ReadyPool(), rest)
    ensures Runs(Initial(0, 1), run) && After(Initial(0, 1), run) == After(ReadyPool(), rest)
  {
    var s1 := Do(Initial(0, 1), OwnerLock);
    var s2 := Do(s1, OwnerStep);
    assert Do(s2, OwnerStep) == ReadyPool();
    hide Enabled, Do;
    run := RunsCons(s2, OwnerStep, rest);
    run := RunsCons(s1, OwnerStep, run);
    run := RunsCons(Initial(0, 1), OwnerLock, run);
  }

  // Such a call can fail: it wants the lock, and the destructor gets it first.
  lemma LateDispatchFails(t: Task) returns (run: seq<Action>)
    ensures Runs(Initial(0, 1), run) && CheckFails(After(Initial(0, 1), run))
  {
    var s1 := Do(ReadyPool(), BeginDispatch(0, t));
    var s2 := Do(s1, BeginDestructor);
    var s3 := Do(s2, OwnerLock);
    var s4 := Do(s3, OwnerStep);
    var s5 := Do(s4, ClientLock(0));
    assert s5.terminateThreads && s5.clients[0].DispatchHolding?;
    hide Enabled, Do, CheckFails;
    run := RunsCons(s4, ClientLock(0), []);
    run := RunsCons(s3, OwnerStep, run);
    run := RunsCons(s2, OwnerLock, run);
    run := RunsCons(s1, BeginDestructor, run);
    run := RunsCons(ReadyPool(), BeginDispatch(0, t), run);
    run := PoolGetsReady(run);
  }

  lemma RunsCons(s: State, a: Action, run: seq<Action>) returns (all: seq<Action>)
    requires Enabled(s, a) && Runs(Do(s, a), run)
    ensures all == [a] + run && Runs(s, all) && After(s, all) == After(Do(s, a), run)
  {
    all := [a] + run;
    assert all[1..] == run;
  }

  // ---------- Progress ----------

  // Steps the pool takes by itself, as opposed to new requests and to wakeups
  // without cause.
  predicate Progress(a: Action) {
    !a.SpuriousWakeup? && !a.BeginDispatch? && a != BeginDestructor
  }

  function Weight(w: Worker): nat {
    match w
    case Running(_) => 4
    case Woken => 3
    case Returned => 3
    case Starting => 3
    case Unborn => 3
    case QueueTest => 2
    case LoopTest => 1
    case Waiting => 0
    case Dead => 0
  }

  function WorkerWeight(ws: seq<Worker>): nat {
    if ws == [] then 0 else WorkerWeight(ws[..|ws| - 1]) + Weight(ws[|ws| - 1])
  }

  // A push adds a task and wakes at most n workers.
  function CallWeight(c: Client, n: nat): nat {
    match c
    case Idle => 0
    case DispatchLocking(_) => 5 + 3 * n
    case DispatchHolding(_) => 4 + 3 * n
  }

  function ClientWeight(cs: seq<Client>, n: nat): nat {
    if cs == [] then 0 else ClientWeight(cs[..|cs| - 1], n) + CallWeight(cs[|cs| - 1], n)
  }

  function OwnerWeight(o: Owner, n: nat): int {
    match o
    case Closing => 4 * n + 5 + 3 * n
    case Joins(i, _) => 4 * (n - i) + 4 + (if i == 0 then 3 * n else 0)
    case Joining(i, _) => 4 * (n - i) + 3
    case Rejoining(i, _) => 4 * (n - i) + 2
    case DrainRunning(_) => 2
    case Draining => 1
    case _ => 0
  }

  // How much the pool can still do on its own.
  function Measure(s: State): int {
    var n := |s.workers|;
    WorkerWeight(s.workers) + ClientWeight(s.clients, n) + OwnerWeight(s.owner, n) + 3 * |s.workQueue|
  }

  lemma {:induction false} WeightUpdate(ws: seq<Worker>, i: nat, w: Worker)
    requires i < |ws|
    ensures WorkerWeight(ws[i := w]) == WorkerWeight(ws) - Weight(ws[i]) + Weight(w)
  {
    if i < |ws| - 1 {
      WeightUpdate(ws[..|ws| - 1], i, w);
      assert ws[i := w][..|ws| - 1] == ws[..|ws| - 1][i := w];
    } else {
      assert ws[i := w][..|ws| - 1] == ws[..|ws| - 1];
    }
  }

  lemma {:induction false} WeightWake(ws: seq<Worker>, ws': seq<Worker>)
    requires |ws| == |ws'|
    requires forall i :: 0 <= i < |ws| ==> ws'[i] == ws[i] || (ws[i] == Waiting && ws'[i] == Woken)
    ensures WorkerWeight(ws') <= WorkerWeight(ws) + 3 * |ws|
  {
    if ws != [] { WeightWake(ws[..|ws| - 1], ws'[..|ws| - 1]); }
  }

  lemma {:induction false} ClientUpdate(cs: seq<Client>, n: nat, c: nat, x: Client)
    requires c < |cs|
    ensures ClientWeight(cs[c := x], n) == ClientWeight(cs, n) - CallWeight(cs[c], n) + CallWeight(x, n)
  {
    if c < |cs| - 1 {
      ClientUpdate(cs[..|cs| - 1], n, c, x);
      assert cs[c := x][..|cs| - 1] == cs[..|cs| - 1][c := x];
    } else {
      assert cs[c := x][..|cs| - 1] == cs[..|cs| - 1];
    }
  }

  lemma WorkerProgress(s: State, a: Action)
    requires Enabled(s, a) && (a.WorkerLock? || a.WorkerTest? || a.WorkerTake? || a.WorkerReturn?)
    ensures Measure(Do(s, a)) < Measure(s)
  {
    hide ClientWeight, OwnerWeight;
    WeightUpdate(s.workers, a.w, Do(s, a).workers[a.w]);
  }

  lemma ClientProgress(s: State, a: Action)
    requires Enabled(s, a) && (a.ClientLock? || a.ClientPush?)
    ensures Measure(Do(s, a)) < Measure(s)
  {
    hide OwnerWeight, WorkerWeight, ClientWeight;
    ClientUpdate(s.clients, |s.workers|, a.c, Do(s, a).clients[a.c]);
    WeightWake(s.workers, Do(s, a).workers);
  }

  lemma OwnerProgress(s: State, a: Action)
    requires PhaseOk(s) && Enabled(s, a) && (a == OwnerLock || a == OwnerStep || a == OwnerJoin) &&
            !Constructing(s.owner)
    ensures Measure(Do(s, a)) < Measure(s)
  {
    hide ClientWeight, WorkerWeight;
    WeightWake(s.workers, Do(s, a).workers);
    if s.owner.Joins? && s.owner.next > 0 { NobodyToWake(s); }
  }

  // Outside the constructor's polling loop, every step the pool takes by
  // itself leaves less to do.
  lemma ProgressDecreases(s: State, a: Action)
    requires Inv(s) && Enabled(s, a) && Progress(a) && !Constructing(s.owner)
    ensures Measure(Do(s, a)) < Measure(s) && !Constructing(Do(s, a).owner)
  {
    hide Measure, LockOk, CountOk, FifoOk, WakeOk, TaskOk, PhaseOk;
    if a.WorkerLock? || a.WorkerTest? || a.WorkerTake? || a.WorkerReturn? {
      WorkerProgress(s, a);
    } else if a.ClientLock? || a.ClientPush? {
      ClientProgress(s, a);
    } else {
      OwnerProgress(s, a);
    }
  }

  lemma NobodyToWake(s: State)
    requires PhaseOk(s) && s.owner.Joins? && s.owner.next > 0
    ensures WakeAll(s.workers) == s.workers
  {
    assert forall i :: 0 <= i < |s.workers| ==> WorkerPhaseOk(s.owner, i, s.workers[i]);
  }

  // No step the pool could take by itself is enabled.
  ghost predicate Stuck(s: State) { forall a :: Progress(a) ==> !Enabled(s, a) }

  // The holder of the lock can go on unless its check fails ...
  lemma HolderCanStep(s: State) returns (a: Action)
    requires LockOk(s) && s.qLock != Free && !CheckFails(s)
    ensures Progress(a) && Enabled(s, a)
  {
    match s.qLock {
      case HeldByOwner => a := OwnerStep;
      case HeldByWorker(w) => a := if s.workers[w] == LoopTest then WorkerTest(w) else WorkerTake(w);
      case HeldByClient(c) =>
        var woken := set i: nat | 0 <= i < |s.workers| && s.workers[i] == Waiting;
        a := ClientPush(c, woken);
    }
  }

  // ... so a stuck pool's lock is free.
  lemma StuckLockIsFree(s: State)
    requires Inv(s) && Stuck(s) && !CheckFails(s)
    ensures s.qLock == Free
  {
    if s.qLock != Free {
      var a := HolderCanStep(s);
      assert false;
    }
  }

  lemma StuckWorker(s: State, w: nat)
    requires Inv(s) && Stuck(s) && !CheckFails(s) && w < |s.workers| && !Constructing(s.owner)
    ensures s.workers[w] == Waiting || s.workers[w] == Dead
  {
    StuckLockIsFree(s);
    assert WorkerPhaseOk(s.owner, w, s.workers[w]);
    assert !Enabled(s, WorkerLock(w)) && !Enabled(s, WorkerReturn(w));
  }

  lemma StuckOwner(s: State)
    requires Inv(s) && Stuck(s) && !CheckFails(s) && !Constructing(s.owner)
    ensures s.owner == Ready || s.owner == Done
    ensures AllIdle(s.clients)
  {
    StuckLockIsFree(s);
    assert !Enabled(s, OwnerLock) && !Enabled(s, OwnerStep) && !Enabled(s, OwnerJoin);
    if s.owner.Joining? {
      assert WorkerPhaseOk(s.owner, s.owner.next, s.workers[s.owner.next]);
      StuckWorker(s, s.owner.next);
      assert false;
    }
    forall c | 0 <= c < |s.clients| ensures s.clients[c] == Idle {
      assert !Enabled(s, ClientLock(c));
    }
  }

  ghost predicate AllFinished(s: State) {
    s.workQueue == [] && s.pickedUp == |s.dispatched| && forall k: nat :: k in s.finished <==> k < |s.dispatched|
  }

  // When a pool with workers has nothing left to do, every dispatched task has
  // finished; and a pool that is shutting down has nothing left to do only
  // when the destructor has returned.
  lemma StuckMeansFinished(s: State, workers: nat, clients: nat)
    requires Reachable(s, workers, clients) && Stuck(s) && !CheckFails(s) && !Constructing(s.owner)
    ensures |s.workers| > 0 || s.terminateThreads ==> AllFinished(s)
    ensures s.terminateThreads ==> s.owner == Done
  {
    ReachableInv(s, workers, clients);
    StuckInvFinished(s);
  }

  lemma StuckInvFinished(s: State)
    requires Inv(s) && Stuck(s) && !CheckFails(s) && !Constructing(s.owner)
    ensures |s.workers| > 0 || s.terminateThreads ==> AllFinished(s)
    ensures s.terminateThreads ==> s.owner == Done
  {
    StuckOwner(s);
    forall w | 0 <= w < |s.workers| ensures s.workers[w] == Waiting || s.workers[w] == Dead { StuckWorker(s, w); }
    if s.terminateThreads {
      DoneMeansFinished(s);
    } else if |s.workers| > 0 {
      forall w | 0 <= w < |s.workers| ensures s.workers[w] == Waiting {
        assert WorkerPhaseOk(s.owner, w, s.workers[w]);
      }
      assert AllWaiting(s.workers);
      NothingInFlight(s);
    }
  }

  lemma NothingInFlight(s: State)
    requires TaskOk(s) && FifoOk(s) && s.workQueue == [] && !s.owner.DrainRunning?
    requires forall w :: 0 <= w < |s.workers| ==> !s.workers[w].Running?
    ensures AllFinished(s)
  {
    assert s.dispatched[s.pickedUp..] == [];
    assert forall k: nat :: !InFlight(s, k);
  }

  // After the destructor, every dispatched task has run.
  lemma DoneMeansFinished(s: State)
    requires Inv(s) && s.owner == Done
    ensures AllFinished(s)
  {
    DoneQueueEmpty(s);
    forall w | 0 <= w < |s.workers| ensures !s.workers[w].Running? {
      assert WorkerPhaseOk(s.owner, w, s.workers[w]);
    }
    NothingInFlight(s);
  }

  lemma DoneQueueEmpty(s: State)
    requires Inv(s) && s.owner == Done
    ensures s.workQueue == []
  {
  }

  // Left alone, a pool that is in use takes at most Measure(s) steps ...
  lemma {:induction false} ProgressEnds(s: State, run: seq<Action>)
    requires Inv(s) && !Constructing(s.owner) && Runs(s, run) && forall i :: 0 <= i < |run| ==> Progress(run[i])
    ensures Inv(After(s, run)) && !Constructing(After(s, run).owner)
    ensures |run| + Measure(After(s, run)) <= Measure(s)
    decreases run
  {
    hide Inv, Measure, Enabled, Do, Constructing, Progress;
    if run != [] {
      ProgressDecreases(s, run[0]);
      InvStep(s, run[0]);
      ProgressEnds(Do(s, run[0]), run[1..]);
    }
  }

  // ... and when it has taken them all, every task ever dispatched has finished.
  lemma EveryTaskFinishes(s: State, run: seq<Action>, workers: nat, clients: nat)
    requires Reachable(s, workers, clients) && !Constructing(s.owner) && |s.workers| > 0
    requires Runs(s, run) && forall i :: 0 <= i < |run| ==> Progress(run[i])
    ensures |run| <= Measure(s) && (Stuck(After(s, run)) && !CheckFails(After(s, run)) ==> AllFinished(After(s, run)))
  {
    hide Inv, Measure, Enabled, Do, Constructing, Progress, Stuck, AllFinished, CheckFails;
    ReachableInv(s, workers, clients);
    ProgressEnds(s, run);
    MeasureIsBounded(After(s, run));
    if Stuck(After(s, run)) && !CheckFails(After(s, run)) {
      SameWorkers(s, run);
      StuckInvFinished(After(s, run));
    }
  }

  lemma {:induction false} SameWorkers(s: State, run: seq<Action>)
    requires Runs(s, run)
    ensures |After(s, run).workers| == |s.workers|
    decreases run
  {
    if run != [] { SameWorkers(Do(s, run[0]), run[1..]); }
  }

  // ---------- Shutdown ----------

  // The destructor has published the terminate flag and woken every waiter.
  predicate ShuttingDown(s: State) { Terminating(s.owner) && !(s.owner.Joins? && s.owner.next == 0) }

  lemma ShutdownOnlyProgresses(s: State, a: Action)
    requires Inv(s) && ShuttingDown(s) && Enabled(s, a)
    ensures Progress(a) && ShuttingDown(Do(s, a))
  {
    forall w | 0 <= w < |s.workers| ensures s.workers[w] != Waiting {
      assert WorkerPhaseOk(s.owner, w, s.workers[w]);
    }
  }

  // From then on every run, under any scheduling and with any spurious
  // wakeups, has at most Measure(s) steps, so each join is reached and the
  // destructor returns, provided that tasks do.
  lemma {:induction false} ShutdownEnds(s: State, run: seq<Action>)
    requires Inv(s) && ShuttingDown(s) && Runs(s, run)
    ensures |run| + Measure(After(s, run)) <= Measure(s) && ShuttingDown(After(s, run))
    decreases run
  {
    hide Inv, Measure, Enabled, Do, ShuttingDown, Constructing;
    if run != [] {
      ShutdownOnlyProgresses(s, run[0]);
      assert !Constructing(s.owner) by { NotConstructing(s); }
      ProgressDecreases(s, run[0]);
      InvStep(s, run[0]);
      ShutdownEnds(Do(s, run[0]), run[1..]);
    }
  }

  lemma NotConstructing(s: State)
    requires ShuttingDown(s)
    ensures !Constructing(s.owner)
  {
  }

  lemma MeasureIsBounded(s: State)
    requires Inv(s) && !Constructing(s.owner)
    ensures Measure(s) >= 0
  {
    hide LockOk, CountOk, FifoOk, WakeOk, TaskOk, WorkerPhaseOk, WorkerWeight, ClientWeight;
  }

  // A step before all workers are joined takes nothing from the queue and adds
  // nothing to it.
  lemma FlagStep(s: State, a: Action)
    requires s.terminateThreads && !Joined(s.owner) && PhaseOk(s) && Enabled(s, a)
    ensures Do(s, a).terminateThreads && Do(s, a).dispatched == s.dispatched
    ensures Do(s, a).pickedUp == s.pickedUp && Do(s, a).workQueue == s.workQueue
  {
    hide WorkerPhaseOk, Signals, Wake, WakeAll;
  }

  lemma JoinedStep(s: State, a: Action)
    requires s.terminateThreads && Joined(s.owner) && PhaseOk(s) && Enabled(s, a)
    ensures Do(s, a).terminateThreads && Joined(Do(s, a).owner) && Do(s, a).dispatched == s.dispatched
  {
    hide WorkerPhaseOk, Signals, Wake, WakeAll;
  }

  lemma {:induction false} QueueWaits(s: State, run: seq<Action>)
    requires Inv(s) && s.terminateThreads && Runs(s, run)
    ensures var r := After(s, run);
            r.terminateThreads && r.dispatched == s.dispatched && (Joined(s.owner) ==> Joined(r.owner)) &&
            (!Joined(r.owner) ==> r.pickedUp == s.pickedUp && r.workQueue == s.workQueue)
    decreases run
  {
    hide LockOk, PhaseOk, CountOk, FifoOk, WakeOk, TaskOk, Enabled, Do, Joined;
    if run != [] {
      InvStep(s, run[0]);
      if Joined(s.owner) { JoinedStep(s, run[0]); } else { FlagStep(s, run[0]); }
      QueueWaits(Do(s, run[0]), run[1..]);
    }
  }

  // Once the terminate flag is set, nothing is dispatched any more, and the
  // tasks that are still in the queue stay there until all workers have been
  // joined: no worker ever runs one of them.
  lemma NoWorkerTakesMore(s: State, run: seq<Action>, workers: nat, clients: nat)
    requires Reachable(s, workers, clients) && s.terminateThreads && Runs(s, run)
    ensures var r := After(s, run);
            r.terminateThreads && r.dispatched == s.dispatched &&
            (!Joined(r.owner) ==> r.pickedUp == s.pickedUp && r.workQueue == s.workQueue) &&
            forall w :: 0 <= w < |r.workers| && r.workers[w].Running? ==> r.workers[w].task < s.pickedUp
  {
    hide LockOk, CountOk, FifoOk, WakeOk, Enabled, Do, Runs, After;
    ReachableInv(s, workers, clients);
    QueueWaits(s, run);
    InvRun(s, run);
    var r := After(s, run);
    forall w | 0 <= w < |r.workers| && r.workers[w].Running? ensures r.workers[w].task < s.pickedUp {
      assert WorkerPhaseOk(r.owner, w, r.workers[w]);
    }
  }

  // ---------- What the lock and the condition variable may do ----------

  // A worker is held up only by the lock that it wants, or because it has not
  // been created or is dead; one that waits may wake.
  lemma WorkerIsFree(s: State, w: nat)
    requires w < |s.workers|
    ensures Enabled(s, WorkerLock(w)) <==> s.workers[w] in {Starting, Woken, Returned} && s.qLock == Free
    ensures (Enabled(s, WorkerTest(w)) || Enabled(s, WorkerTake(w)) || Enabled(s, WorkerReturn(w)) ||
             Enabled(s, SpuriousWakeup(w))) <==> s.workers[w] !in {Unborn, Starting, Woken, Returned, Dead}
  {
  }

  // A client is held up only by the lock that it wants, or by the failed check;
  // it may call Dispatch with any task until the destructor begins.
  lemma ClientIsFree(s: State, c: nat, task: Task)
    requires c < |s.clients|
    ensures Enabled(s, BeginDispatch(c, task)) <==> s.clients[c] == Idle && s.owner == Ready
    ensures Enabled(s, ClientLock(c)) <==> s.clients[c].DispatchLocking? && s.qLock == Free
    ensures (exists woken :: Enabled(s, ClientPush(c, woken))) <==>
            s.clients[c].DispatchHolding? && !CallFails(s, c)
  {
    if s.clients[c].DispatchHolding? && !CallFails(s, c) {
      assert Enabled(s, ClientPush(c, set i: nat | 0 <= i < |s.workers| && s.workers[i] == Waiting));
    }
  }

  // The owner is held up only by the lock that it wants or by the thread that it
  // joins; it may begin the destructor whenever the pool is in use.
  lemma OwnerIsFree(s: State)
    requires Inv(s)
    ensures s.owner.Joining? ==> s.owner.next < |s.workers|
    ensures (exists a :: ByOwner(a) && Enabled(s, a)) <==>
            match s.owner
            case Locking => s.qLock == Free
            case Sleeping => s.qLock == Free
            case Closing => s.qLock == Free
            case Rejoining(_, _) => s.qLock == Free
            case Joining(next, _) => s.workers[next] == Dead
            case Done => false
            case _ => true
  {
    hide LockOk, CountOk, FifoOk, WakeOk, TaskOk, WorkerPhaseOk;
    assert (exists a :: ByOwner(a) && Enabled(s, a)) <==>
           (Enabled(s, OwnerLock) || Enabled(s, OwnerStep) || Enabled(s, OwnerJoin) || Enabled(s, BeginDestructor)) by {
      assert ByOwner(OwnerLock) && ByOwner(OwnerStep) && ByOwner(OwnerJoin) && ByOwner(BeginDestructor);
    }
  }

  // A worker may wake without cause; it then finds nothing to do and blocks
  // again, and everything is as before.
  lemma WakeupWithoutCause(s: State, w: nat) returns (run: seq<Action>)
    requires w < |s.workers| && s.workers[w] == Waiting && s.qLock == Free && s.workQueue == [] && !s.terminateThreads
    ensures run == [SpuriousWakeup(w), WorkerLock(w), WorkerTake(w), WorkerTest(w)]
    ensures Runs(s, run) && After(s, run) == s
  {
    var s1 := Do(s, SpuriousWakeup(w));
    var s2 := Do(s1, WorkerLock(w));
    var s3 := Do(s2, WorkerTake(w));
    assert Do(s3, WorkerTest(w)).workers == s.workers;
    assert Do(s3, WorkerTest(w)) == s;
    hide Enabled, Do;
    run := RunsCons(s3, WorkerTest(w), []);
    run := RunsCons(s2, WorkerTake(w), run);
    run := RunsCons(s1, WorkerLock(w), run);
    run := RunsCons(s, SpuriousWakeup(w), run);
  }

  // A signal may wake any one of the workers that wait, and no other.
  lemma SignalWakesOne(s: State, c: nat, w: nat)
    requires c < |s.clients| && s.clients[c].DispatchHolding? && !s.terminateThreads
    requires w < |s.workers| && s.workers[w] == Waiting
    ensures Enabled(s, ClientPush(c, {w})) && Do(s, ClientPush(c, {w})).workers == s.workers[w := Woken]
    ensures Do(s, ClientPush(c, {w})).workQueue == s.workQueue + [s.clients[c].task]
  {
  }

  // ---------- Conservation ----------

  // The queue holds exactly the dispatched tasks that were not picked up yet,
  // in the order of dispatch; a task that was picked up is either being run,
  // by one thread, or finished; and the counter counts the live workers.
  lemma TasksAreConserved(s: State, workers: nat, clients: nat)
    requires Reachable(s, workers, clients)
    ensures s.pickedUp <= |s.dispatched| && s.dispatched == s.dispatched[..s.pickedUp] + s.workQueue
    ensures forall k: nat :: k in s.finished ==> k < s.pickedUp && !InFlight(s, k)
    ensures forall k: nat :: InFlight(s, k) ==> k < s.pickedUp
    ensures forall k: nat :: k < s.pickedUp ==> k in s.finished || InFlight(s, k)
    ensures forall i, j :: 0 <= i < j < |s.workers| && s.workers[i].Running? ==> s.workers[i] != s.workers[j]
    ensures s.owner.DrainRunning? ==> forall i :: 0 <= i < |s.workers| ==> !s.workers[i].Running?
    ensures s.numThreadsRunning == AliveCount(s.workers)
  {
    ReachableInv(s, workers, clients);
    if s.owner.DrainRunning? {
      forall i | 0 <= i < |s.workers| ensures !s.workers[i].Running? {
        assert WorkerPhaseOk(s.owner, i, s.workers[i]);
      }
    }
  }
}
