/** The pool of thread_pool.c at work on the seats: one producer and any number of
    workers, whose single steps are taken in any order. A handler runs, step by
    step, while its worker holds the pool lock. */
module SeatServers {
  import opened Wrappers
  import opened SeatModel
  import opened SeatHandlers
  import Semaphores
  import opened TaskRings

  /** Where a worker is in thread_do_work. */
  datatype WorkerPc =
    | Locking | Testing | Waiting | Parked | Woken
    | Reading | Taking(task: Task) | Handling(task: Task, at: Point) | Leaving

  /** Where the producer is in pool_add_task. */
  datatype ProducerPc =
    | Accepting | Entering(task: Task) | Writing(task: Task) | Advancing(task: Task) | Signalling | Exiting

  datatype Agent = Producer | Worker(w: nat)

  /** `added` and `taken` record the tasks in the order in which the queue got them
      and gave them up; `filled` whether a task ever filled the array. */
  datatype Server = Server(lock: Option<Agent>, producer: ProducerPc, workers: seq<WorkerPc>,
                           ring: Ring<Task>, shared: Shared,
                           added: seq<Task>, taken: seq<Task>, filled: bool)

  /** Signal names the parked worker to wake; Spurious wakes one unasked, and
      SpuriousInSem one that sleeps in the semaphore. */
  datatype Action =
    | Accept(task: Task) | Produce | Signal(w: nat) | Work(w: nat)
    | Spurious(w: nat) | SpuriousInSem(w: nat)

  /** `buf` is whatever the new array holds. */
  function Start(n: nat, m: nat, buf: seq<Task>): Server {
    Server(None, Accepting, seq(m, i => Locking), Ring(buf, 0, 0), Clean(Loaded(n), m), [], [], false)
  }

  function Step(s: Server, a: Action): Option<Server>
    requires RingOk(s.ring)
  {
    match a
    case Accept(task) => if s.producer == Accepting then Some(s.(producer := Entering(task))) else None
    case Produce => ProducerStep(s)
    case Signal(w) => SignalStep(s, w)
    case Work(w) => if w < |s.workers| then WorkerStep(s, w) else None
    case Spurious(w) => if w < |s.workers| && s.workers[w] == Parked then Some(Moved(s, w, Woken)) else None
    case SpuriousInSem(w) =>
      var sem := Semaphores.Step(s.shared.sem, Semaphores.Spurious(w));
      if sem.None? then None else Some(s.(shared := s.shared.(sem := sem.value)))
  }

  function ProducerStep(s: Server): Option<Server>
    requires RingOk(s.ring)
  {
    match s.producer
    case Entering(x) => if s.lock == None then Some(s.(lock := Some(Producer), producer := Writing(x))) else None
    case Writing(x) => Some(s.(ring := Written(s.ring, x), producer := Advancing(x)))
    case Advancing(x) =>
      Some(s.(ring := Advanced(s.ring), producer := Signalling, added := s.added + [x],
              filled := s.filled || |Contents(s.ring)| + 1 == |s.ring.buf|))
    case Exiting => Some(s.(lock := None, producer := Accepting))
    case _ => None
  }

  predicate NoneParked(workers: seq<WorkerPc>) {
    forall i :: 0 <= i < |workers| ==> workers[i] != Parked
  }

  /** pthread_cond_signal wakes one parked worker, if there is any. */
  function SignalStep(s: Server, w: nat): Option<Server> {
    if s.producer != Signalling then None
    else if w < |s.workers| && s.workers[w] == Parked then Some(Moved(s, w, Woken).(producer := Exiting))
    else if NoneParked(s.workers) then Some(s.(producer := Exiting))
    else None
  }

  function Moved(s: Server, w: nat, pc: WorkerPc): Server
    requires w < |s.workers|
  {
    s.(workers := s.workers[w := pc])
  }

  function WorkerStep(s: Server, w: nat): Option<Server>
    requires RingOk(s.ring) && w < |s.workers|
  {
    match s.workers[w]
    case Locking => if s.lock == None then Some(Moved(s, w, Testing).(lock := Some(Worker(w)))) else None
    case Testing => Some(Moved(s, w, if Empty(s.ring) then Waiting else Reading))
    case Waiting => Some(Moved(s, w, Parked).(lock := None))
    case Parked => None
    case Woken => if s.lock == None then Some(Moved(s, w, Testing).(lock := Some(Worker(w)))) else None
    case Reading => Some(Moved(s, w, if Empty(s.ring) then Leaving else Taking(s.ring.buf[s.ring.start])))
    case Taking(x) => Some(Moved(s, w, Handling(x, Entry)).(ring := Taken(s.ring), taken := s.taken + [x]))
    case Handling(x, at) => HandlerStep(s, w, x, at)
    case Leaving => Some(Moved(s, w, Locking).(lock := None))
  }

  function HandlerStep(s: Server, w: nat, x: Task, at: Point): Option<Server>
    requires w < |s.workers|
  {
    if at == Done then Some(Moved(s, w, Leaving))
    else
      var next := SeatHandlers.Step(s.shared, w, x, at);
      if next.None? then None else Some(Moved(s, w, Handling(x, next.value.1)).(shared := next.value.0))
  }

  // ----- the invariant

  predicate ProducerOwns(pc: ProducerPc) {
    pc.Writing? || pc.Advancing? || pc.Signalling? || pc.Exiting?
  }

  predicate WorkerOwns(pc: WorkerPc) {
    pc.Testing? || pc.Waiting? || pc.Reading? || pc.Taking? || pc.Handling? || pc.Leaving?
  }

  /** Exactly the agent that has the lock is where the lock is held. */
  ghost predicate LockOk(s: Server) {
    && (ProducerOwns(s.producer) <==> s.lock == Some(Producer))
    && (s.lock.Some? && s.lock.value.Worker? ==> s.lock.value.w < |s.workers|)
    && (forall w :: 0 <= w < |s.workers| ==> (WorkerOwns(s.workers[w]) <==> s.lock == Some(Worker(w))))
  }

  /** What an agent learnt under the lock is still so. */
  ghost predicate LocalOk(s: Server) {
    && RingOk(s.ring)
    && (s.producer.Advancing? ==> s.ring.buf[s.ring.end] == s.producer.task)
    && (forall w :: 0 <= w < |s.workers| ==> WorkerLocalOk(s.ring, s.workers[w]))
  }

  predicate WorkerLocalOk(r: Ring<Task>, pc: WorkerPc)
    requires RingOk(r)
  {
    && (pc.Waiting? ==> Empty(r))
    && (pc.Reading? ==> !Empty(r))
    && (pc.Taking? ==> !Empty(r) && pc.task == r.buf[r.start])
  }

  predicate HandlerRuns(s: Server) {
    s.lock.Some? && s.lock.value.Worker? && s.lock.value.w < |s.workers| && s.workers[s.lock.value.w].Handling?
  }

  /** The seats are those of a sequential run over the tasks taken; while a handler
      is under way, they will be when it has finished. */
  ghost predicate SeatsOk(n: nat, s: Server) {
    if HandlerRuns(s) then
      var pc := s.workers[s.lock.value.w];
      Rest(s.shared, s.lock.value.w, pc.task, pc.at) == Some(Clean(Fold(n, s.taken), |s.workers|))
    else s.shared == Clean(Fold(n, s.taken), |s.workers|)
  }

  /** The queue with its history. */
  function QueueOf(s: Server): Log<Task> {
    Log(s.ring, s.added, s.taken)
  }

  /** First in, first out; once a task has filled the array, tasks are missing. */
  ghost predicate QueueOk(s: Server)
    requires RingOk(s.ring)
  {
    if s.filled then Lost(QueueOf(s)) > 0 else Fifo(QueueOf(s))
  }

  ghost predicate Awake(workers: seq<WorkerPc>) {
    exists w :: 0 <= w < |workers| && workers[w] != Parked
  }

  /** A queue that does not look empty has a worker awake, or a signal on its way. */
  ghost predicate Attended(s: Server) {
    Empty(s.ring) || s.producer.Signalling? || Awake(s.workers)
  }

  /** Nobody ever sleeps in the semaphore: under the pool lock it is always free. */
  ghost predicate NobodyWaits(s: Server) {
    forall v :: 0 <= v < |s.shared.sem.pcs| ==> s.shared.sem.pcs[v] != Semaphores.Parked
  }

  ghost predicate Inv(n: nat, s: Server) {
    NobodyWaits(s) && LockOk(s) && LocalOk(s) && SeatsOk(n, s) && QueueOk(s) && Attended(s) && |s.workers| > 0
  }

  // ----- every step keeps it

  lemma LockKeptByWorker(s: Server, w: nat)
    requires RingOk(s.ring) && LockOk(s) && w < |s.workers| && WorkerStep(s, w).Some?
    ensures LockOk(WorkerStep(s, w).value)
  {
    var u := WorkerStep(s, w).value;
    assert WorkerOwns(s.workers[w]) <==> s.lock == Some(Worker(w));
    assert u.producer == s.producer && |u.workers| == |s.workers|;
    forall v: nat | v < |u.workers| ensures WorkerOwns(u.workers[v]) <==> u.lock == Some(Worker(v)) {
      assert WorkerOwns(s.workers[v]) <==> s.lock == Some(Worker(v));
    }
  }

  lemma LockKept(s: Server, a: Action)
    requires RingOk(s.ring) && LockOk(s) && Step(s, a).Some?
    ensures LockOk(Step(s, a).value)
  {
    if a.Work? {
      LockKeptByWorker(s, a.w);
    } else {
      var u := Step(s, a).value;
      forall v: nat | v < |u.workers| ensures WorkerOwns(u.workers[v]) <==> u.lock == Some(Worker(v)) {
        assert WorkerOwns(s.workers[v]) <==> s.lock == Some(Worker(v));
      }
    }
  }

  lemma LocalKeptByProducer(s: Server)
    requires LockOk(s) && LocalOk(s) && ProducerStep(s).Some?
    ensures LocalOk(ProducerStep(s).value)
  {
    var u := ProducerStep(s).value;
    if s.producer.Writing? { WrittenKeeps(s.ring, s.producer.task); }
    if s.producer.Advancing? { AdvancedAppends(s.ring); }
    forall v: nat | v < |s.workers| ensures WorkerLocalOk(u.ring, u.workers[v]) {
      assert WorkerOwns(s.workers[v]) <==> s.lock == Some(Worker(v));
      assert WorkerLocalOk(s.ring, s.workers[v]);
    }
  }

  lemma LocalKeptByWorker(s: Server, w: nat)
    requires LockOk(s) && LocalOk(s) && w < |s.workers| && WorkerStep(s, w).Some?
    ensures LocalOk(WorkerStep(s, w).value)
  {
    var u := WorkerStep(s, w).value;
    assert WorkerLocalOk(s.ring, s.workers[w]);
    assert WorkerOwns(s.workers[w]) <==> s.lock == Some(Worker(w));
    TakenIsFirst(s.ring);
    forall v | 0 <= v < |s.workers| ensures WorkerLocalOk(u.ring, u.workers[v]) {
      assert WorkerLocalOk(s.ring, s.workers[v]);
      assert WorkerOwns(s.workers[v]) <==> s.lock == Some(Worker(v));
    }
  }

  lemma LocalKept(s: Server, a: Action)
    requires LockOk(s) && LocalOk(s) && Step(s, a).Some?
    ensures LocalOk(Step(s, a).value)
  {
    match a
    case Produce => LocalKeptByProducer(s);
    case Work(w) => LocalKeptByWorker(s, w);
    case _ =>
      var u := Step(s, a).value;
      forall v | 0 <= v < |s.workers| ensures WorkerLocalOk(u.ring, u.workers[v]) {
        assert WorkerLocalOk(s.ring, s.workers[v]);
      }
  }

  lemma FoldOne(n: nat, tasks: seq<Task>, x: Task)
    ensures Fold(n, tasks + [x]) == Apply(Fold(n, tasks), x)
  {
    assert (tasks + [x])[..|tasks|] == tasks;
  }

  /** The worker that runs a handler is the only one whose steps matter to the
      seats: this is what the pool lock is for. */
  lemma SeatsKeptByWorker(n: nat, s: Server, w: nat)
    requires LockOk(s) && LocalOk(s) && SeatsOk(n, s) && w < |s.workers| && WorkerStep(s, w).Some?
    ensures SeatsOk(n, WorkerStep(s, w).value)
  {
    assert WorkerOwns(s.workers[w]) <==> s.lock == Some(Worker(w));
    if s.workers[w].Taking? {
      HandlerIsApply(Fold(n, s.taken), |s.workers|, w, s.workers[w].task);
      FoldOne(n, s.taken, s.workers[w].task);
    }
  }

  /** A handler that went to sleep would never finish. */
  lemma HandlerStaysAwake(s: Shared, w: nat, task: Task, at: Point)
    requires forall v :: 0 <= v < |s.sem.pcs| ==> s.sem.pcs[v] != Semaphores.Parked
    requires at != Done && Rest(s, w, task, at).Some?
    ensures SeatHandlers.Step(s, w, task, at).Some?
    ensures var u := SeatHandlers.Step(s, w, task, at).value.0;
            forall v :: 0 <= v < |u.sem.pcs| ==> u.sem.pcs[v] != Semaphores.Parked
  {
    var (u, next) := SeatHandlers.Step(s, w, task, at).value;
    assert Rest(u, w, task, next).Some?;
    if u.sem != s.sem {
      assert w < |s.sem.pcs| && Semaphores.Step(s.sem, Semaphores.Run(w)) == Some(u.sem);
      Semaphores.OthersStay(s.sem, Semaphores.Run(w));
    }
  }

  lemma NobodyWaitsKept(n: nat, s: Server, a: Action)
    requires NobodyWaits(s) && LockOk(s) && LocalOk(s) && SeatsOk(n, s) && Step(s, a).Some?
    ensures NobodyWaits(Step(s, a).value)
  {
    if a.Work? && s.workers[a.w].Handling? && s.workers[a.w].at != Done {
      assert WorkerOwns(s.workers[a.w]) <==> s.lock == Some(Worker(a.w));
      HandlerStaysAwake(s.shared, a.w, s.workers[a.w].task, s.workers[a.w].at);
    }
  }

  lemma SeatsKept(n: nat, s: Server, a: Action)
    requires NobodyWaits(s) && LockOk(s) && LocalOk(s) && SeatsOk(n, s) && Step(s, a).Some?
    ensures SeatsOk(n, Step(s, a).value)
  {
    if a.Work? { SeatsKeptByWorker(n, s, a.w); }
  }

  /** The step that moves q_end when only one slot is left. */
  predicate Fills(s: Server, a: Action)
    requires RingOk(s.ring)
  {
    a.Produce? && s.producer.Advancing? && |Contents(s.ring)| + 1 == |s.ring.buf|
  }

  /** A step that neither writes the queue nor takes from it. */
  lemma NoTaskMoved(s: Server, a: Action)
    requires RingOk(s.ring) && Step(s, a).Some?
    requires !(a.Produce? && (s.producer.Writing? || s.producer.Advancing?))
    requires !(a.Work? && s.workers[a.w].Taking?)
    ensures QueueOf(Step(s, a).value) == QueueOf(s) && Step(s, a).value.filled == s.filled
  {
  }

  lemma TaskAdvanced(s: Server)
    requires LocalOk(s) && s.producer.Advancing?
    ensures RingOk(Advanced(s.ring))
    ensures var l, u := QueueOf(s), QueueOf(ProducerStep(s).value);
            && Lost(u) == Lost(l) + (if Fills(s, Produce) then |s.ring.buf| else 0)
            && (Fifo(l) && !Fills(s, Produce) ==> Fifo(u))
  {
    var x := s.producer.task;
    AdvancedAppends(s.ring);
    if Fifo(QueueOf(s)) {
      assert s.taken + (Contents(s.ring) + [x]) == s.added + [x];
    }
  }

  lemma TaskTaken(s: Server, w: nat)
    requires LocalOk(s) && w < |s.workers| && s.workers[w].Taking?
    ensures RingOk(Taken(s.ring))
    ensures var l, u := QueueOf(s), QueueOf(WorkerStep(s, w).value); Lost(u) == Lost(l) && (Fifo(l) ==> Fifo(u))
  {
    assert WorkerLocalOk(s.ring, s.workers[w]);
    var x := s.workers[w].task;
    TakenIsFirst(s.ring);
    assert s.taken + ([x] + Contents(Taken(s.ring))) == s.taken + [x] + Contents(Taken(s.ring));
  }

  /** The queue stays first-in, first-out through a step if and only if the step
      does not fill the array. */
  lemma QueueKept(s: Server, a: Action)
    requires LocalOk(s) && Step(s, a).Some?
    ensures var u := Step(s, a).value;
            && RingOk(u.ring)
            && Lost(QueueOf(u)) == Lost(QueueOf(s)) + (if Fills(s, a) then |s.ring.buf| else 0)
            && (Fifo(QueueOf(s)) ==> (Fifo(QueueOf(u)) <==> !Fills(s, a)))
            && (u.filled <==> s.filled || Fills(s, a))
  {
    if a.Produce? && s.producer.Writing? {
      WrittenKeeps(s.ring, s.producer.task);
    } else if a.Produce? && s.producer.Advancing? {
      TaskAdvanced(s);
    } else if a.Work? && s.workers[a.w].Taking? {
      TaskTaken(s, a.w);
    } else {
      NoTaskMoved(s, a);
    }
    FifoLosesNothing(QueueOf(s));
    FifoLosesNothing(QueueOf(Step(s, a).value));
  }

  lemma AttendedKept(s: Server, a: Action)
    requires LockOk(s) && LocalOk(s) && Attended(s) && |s.workers| > 0 && Step(s, a).Some?
    ensures Attended(Step(s, a).value) && |Step(s, a).value.workers| == |s.workers|
  {
    var u := Step(s, a).value;
    match a
    case Signal(w) =>
      assert u.workers[if w < |s.workers| then w else 0] != Parked;
    case Work(w) =>
      assert WorkerLocalOk(s.ring, s.workers[w]);
      assert !s.workers[w].Waiting? ==> u.workers[w] != Parked;
    case Spurious(w) =>
      assert u.workers[w] != Parked;
    case _ =>
      assert u.workers == s.workers;
  }

  lemma StepKeepsInv(n: nat, s: Server, a: Action)
    requires Inv(n, s) && Step(s, a).Some?
    ensures Inv(n, Step(s, a).value) && |Step(s, a).value.workers| == |s.workers|
  {
    LockKept(s, a);
    LocalKept(s, a);
    SeatsKept(n, s, a);
    NobodyWaitsKept(n, s, a);
    AttendedKept(s, a);
    QueueKept(s, a);
    FifoLosesNothing(QueueOf(s));
  }

  // ----- whole runs

  lemma RingStays(s: Server, a: Action)
    requires RingOk(s.ring) && Step(s, a).Some?
    ensures RingOk(Step(s, a).value.ring)
  {
    NextIndex(s.ring.start, |s.ring.buf|);
    NextIndex(s.ring.end, |s.ring.buf|);
  }

  /** A server with `n` seats and `m` workers after a run. */
  function Exec(n: nat, m: nat, buf: seq<Task>, run: seq<Action>): Option<Server>
    requires m > 0 && buf != []
    ensures Exec(n, m, buf, run).Some? ==> RingOk(Exec(n, m, buf, run).value.ring)
  {
    if run == [] then Some(Start(n, m, buf))
    else
      var before := Exec(n, m, buf, run[..|run| - 1]);
      if before.None? || Step(before.value, run[|run| - 1]).None? then None
      else
        RingStays(before.value, run[|run| - 1]);
        Step(before.value, run[|run| - 1])
  }

  lemma StartInv(n: nat, m: nat, buf: seq<Task>)
    requires m > 0 && buf != []
    ensures Inv(n, Start(n, m, buf))
  {
    var s := Start(n, m, buf);
    assert s.workers[0] != Parked;
    assert Contents(s.ring) == [];
  }

  lemma {:induction false} RunKeepsInv(n: nat, m: nat, buf: seq<Task>, run: seq<Action>)
    requires m > 0 && buf != [] && Exec(n, m, buf, run).Some?
    ensures Inv(n, Exec(n, m, buf, run).value) && |Exec(n, m, buf, run).value.workers| == m
  {
    if run == [] {
      StartInv(n, m, buf);
    } else {
      RunKeepsInv(n, m, buf, run[..|run| - 1]);
      StepKeepsInv(n, Exec(n, m, buf, run[..|run| - 1]).value, run[|run| - 1]);
    }
  }

  /** The tasks that a run hands to the pool, in order: those of its Accept actions. */
  function Accepted(run: seq<Action>): seq<Task> {
    if run == [] then []
    else
      var before := Accepted(run[..|run| - 1]);
      match run[|run| - 1]
      case Accept(task) => before + [task]
      case _ => before
  }

  /** The task that the producer has not put on the queue yet. */
  function InHand(pc: ProducerPc): seq<Task> {
    match pc
    case Entering(x) => [x]
    case Writing(x) => [x]
    case Advancing(x) => [x]
    case _ => []
  }

  lemma HandsOn(s: Server, a: Action)
    requires RingOk(s.ring) && Step(s, a).Some?
    ensures var u := Step(s, a).value;
            u.added + InHand(u.producer)
            == if a.Accept? then s.added + InHand(s.producer) + [a.task] else s.added + InHand(s.producer)
  {
    var u := Step(s, a).value;
    if a.Produce? && s.producer.Advancing? {
      assert s.added + [s.producer.task] + [] == s.added + [s.producer.task];
    }
  }

  /** No accepted task is dropped, invented or moved on its way to the queue. */
  lemma {:induction false} AcceptedAreAdded(n: nat, m: nat, buf: seq<Task>, run: seq<Action>)
    requires m > 0 && buf != [] && Exec(n, m, buf, run).Some?
    ensures var s := Exec(n, m, buf, run).value; Accepted(run) == s.added + InHand(s.producer)
  {
    if run != [] {
      AcceptedAreAdded(n, m, buf, run[..|run| - 1]);
      HandsOn(Exec(n, m, buf, run[..|run| - 1]).value, run[|run| - 1]);
    }
  }

  /** Action `k` of the run puts a task on the queue that fills the array. */
  predicate FillsAt(n: nat, m: nat, buf: seq<Task>, run: seq<Action>, k: nat)
    requires m > 0 && buf != []
  {
    k < |run| && Exec(n, m, buf, run[..k]).Some? && Fills(Exec(n, m, buf, run[..k]).value, run[k])
  }

  lemma FillsAtBefore(n: nat, m: nat, buf: seq<Task>, run: seq<Action>, k: nat)
    requires m > 0 && buf != [] && k + 1 < |run|
    ensures FillsAt(n, m, buf, run[..|run| - 1], k) == FillsAt(n, m, buf, run, k)
  {
    assert run[..|run| - 1][..k] == run[..k];
  }

  lemma FilledByStep(n: nat, m: nat, buf: seq<Task>, run: seq<Action>)
    requires m > 0 && buf != [] && run != [] && Exec(n, m, buf, run).Some?
    ensures Exec(n, m, buf, run[..|run| - 1]).Some?
    ensures Exec(n, m, buf, run).value.filled
            <==> Exec(n, m, buf, run[..|run| - 1]).value.filled || FillsAt(n, m, buf, run, |run| - 1)
  {
    var before := run[..|run| - 1];
    RunKeepsInv(n, m, buf, before);
    QueueKept(Exec(n, m, buf, before).value, run[|run| - 1]);
  }

  /** Some task in the run filled the array. */
  ghost predicate SomeFills(n: nat, m: nat, buf: seq<Task>, run: seq<Action>)
    requires m > 0 && buf != []
  {
    exists k :: FillsAt(n, m, buf, run, k)
  }

  lemma SomeFillsByStep(n: nat, m: nat, buf: seq<Task>, run: seq<Action>)
    requires m > 0 && buf != [] && run != []
    ensures SomeFills(n, m, buf, run)
            <==> SomeFills(n, m, buf, run[..|run| - 1]) || FillsAt(n, m, buf, run, |run| - 1)
  {
    var before := run[..|run| - 1];
    if SomeFills(n, m, buf, before) {
      var k: nat :| FillsAt(n, m, buf, before, k);
      FillsAtBefore(n, m, buf, run, k);
    }
    if SomeFills(n, m, buf, run) {
      var k: nat :| FillsAt(n, m, buf, run, k);
      if k + 1 < |run| { FillsAtBefore(n, m, buf, run, k); }
    }
  }

  /** The mark `filled` says what it should. */
  lemma {:induction false} FilledIfSomeFills(n: nat, m: nat, buf: seq<Task>, run: seq<Action>)
    requires m > 0 && buf != [] && Exec(n, m, buf, run).Some?
    ensures Exec(n, m, buf, run).value.filled <==> SomeFills(n, m, buf, run)
  {
    if run != [] {
      FilledByStep(n, m, buf, run);
      SomeFillsByStep(n, m, buf, run);
      FilledIfSomeFills(n, m, buf, run[..|run| - 1]);
    }
  }

  lemma InvRefines(n: nat, s: Server)
    requires Inv(n, s)
    ensures s.lock == None ==> s.shared == Clean(Fold(n, s.taken), |s.workers|)
    ensures s.taken + Contents(s.ring) == s.added <==> !s.filled
  {
    FifoLosesNothing(QueueOf(s));
  }

  /** Every interleaving refines a sequential run: whenever the pool lock is free,
      seats and standby list are those of the tasks taken so far, applied one after
      the other, no seat mutex is held, and nobody is inside the semaphore. The
      tasks taken, followed by those in the queue and the one in the producer's hands,
      are the tasks accepted, in order, if and only if no task has filled the array. */
  lemma RefinesSequentialRun(n: nat, m: nat, buf: seq<Task>, run: seq<Action>)
    requires m > 0 && buf != [] && Exec(n, m, buf, run).Some?
    ensures var s := Exec(n, m, buf, run).value;
            && |s.workers| == m
            && (s.lock == None ==> s.shared == Clean(Fold(n, s.taken), m))
            && (s.taken + Contents(s.ring) + InHand(s.producer) == Accepted(run)
                <==> !SomeFills(n, m, buf, run))
  {
    var s := Exec(n, m, buf, run).value;
    RunKeepsInv(n, m, buf, run);
    InvRefines(n, s);
    AcceptedAreAdded(n, m, buf, run);
    FilledIfSomeFills(n, m, buf, run);
    SameEnd(s.taken + Contents(s.ring), s.added, InHand(s.producer));
  }

  lemma SameEnd(a: seq<Task>, b: seq<Task>, c: seq<Task>)
    ensures a + c == b + c <==> a == b
  {
    if a + c == b + c {
      assert |a| == |b|;
      assert a == (a + c)[..|a|] && b == (b + c)[..|b|];
    }
  }

  predicate CanStep(s: Server, a: Action)
    requires RingOk(s.ring)
  {
    (a.Produce? || a.Signal? || a.Work?) && Step(s, a).Some?
  }

  /** A handler never blocks: not on the seat's mutex, not on the semaphore, not on
      a NULL standby list. */
  lemma OwnerCanStep(n: nat, s: Server)
    requires Inv(n, s) && s.lock.Some?
    ensures exists a :: CanStep(s, a)
  {
    match s.lock.value
    case Producer =>
      if s.producer.Signalling? {
        if NoneParked(s.workers) {
          assert CanStep(s, Signal(0));
        } else {
          var w: nat :| w < |s.workers| && s.workers[w] == Parked;
          assert CanStep(s, Signal(w));
        }
      } else {
        assert CanStep(s, Produce);
      }
    case Worker(w) =>
      assert WorkerOwns(s.workers[w]);
      assert CanStep(s, Work(w));
  }

  predicate AllParked(workers: seq<WorkerPc>) {
    forall w :: 0 <= w < |workers| ==> workers[w] == Parked
  }

  /** Nothing left to do: no task waits, nobody is under way, the workers sleep. */
  predicate AtRest(s: Server) {
    Empty(s.ring) && s.producer == Accepting && s.lock == None && AllParked(s.workers)
  }

  /** No reachable state is stuck: unless the pool is at rest, some thread can go on
      without a spurious wakeup and without a new task. */
  lemma NeverStuck(n: nat, s: Server)
    requires Inv(n, s)
    ensures AtRest(s) || exists a :: CanStep(s, a)
  {
    if s.lock.Some? {
      OwnerCanStep(n, s);
    } else if s.producer != Accepting {
      assert CanStep(s, Produce);
    } else if !AllParked(s.workers) {
      var w: nat :| w < |s.workers| && s.workers[w] != Parked;
      assert !WorkerOwns(s.workers[w]);
      assert CanStep(s, Work(w));
    }
  }

  // ----- the pool comes to rest

  function WorkerRank(pc: WorkerPc): nat {
    match pc
    case Parked => 0
    case Waiting => 1
    case Taking(_) => 1
    case Reading => 2
    case Testing => 3
    case Locking => 4
    case Woken => 4
    case Leaving => 5
    case Handling(_, at) => 6 + 12 * Rank(at)
  }

  function ProducerRank(pc: ProducerPc): nat {
    match pc
    case Accepting => 0
    case Exiting => 1
    case Signalling => 2
    case Advancing(_) => 3
    case Writing(_) => 4
    case Entering(_) => 5
  }

  function Total(workers: seq<WorkerPc>): nat {
    if workers == [] then 0 else WorkerRank(workers[0]) + Total(workers[1..])
  }

  lemma {:induction false} TotalAfter(workers: seq<WorkerPc>, w: nat, pc: WorkerPc)
    requires w < |workers|
    ensures Total(workers[w := pc]) == Total(workers) - WorkerRank(workers[w]) + WorkerRank(pc)
  {
    if w == 0 {
      assert workers[w := pc][1..] == workers[1..];
    } else {
      TotalAfter(workers[1..], w - 1, pc);
      assert workers[w := pc][1..] == workers[1..][w - 1 := pc];
    }
  }

  /** How far the handler under way is from the end of the semaphore. */
  function InSem(s: Server): nat {
    if HandlerRuns(s) then SemLeft(s.shared, s.lock.value.w) else 0
  }

  /** How much the threads can still do without a new task. */
  function Measure(s: Server): nat
    requires RingOk(s.ring)
  {
    250 * ProducerRank(s.producer) + 240 * |Contents(s.ring)| + Total(s.workers) + InSem(s)
  }

  lemma ProducerWearsDown(s: Server)
    requires LockOk(s) && LocalOk(s) && ProducerStep(s).Some? && RingOk(ProducerStep(s).value.ring)
    ensures Measure(ProducerStep(s).value) < Measure(s)
  {
    if s.producer.Writing? { WrittenKeeps(s.ring, s.producer.task); }
    if s.producer.Advancing? { AdvancedAppends(s.ring); }
    assert InSem(s) == 0 && InSem(ProducerStep(s).value) == 0;
  }

  /** A step of one worker, seen from the others and from the queue. */
  lemma WorkerMoves(s: Server, w: nat)
    requires LockOk(s) && RingOk(s.ring) && w < |s.workers| && WorkerLocalOk(s.ring, s.workers[w])
    requires WorkerStep(s, w).Some?
    requires !s.workers[w].Handling?
    ensures var u := WorkerStep(s, w).value;
            && u.workers == s.workers[w := u.workers[w]] && u.producer == s.producer && InSem(s) == 0
            && if s.workers[w].Taking?
               then u.ring == Taken(s.ring) && WorkerRank(u.workers[w]) == WorkerRank(s.workers[w]) + 221
               else u.ring == s.ring && WorkerRank(u.workers[w]) < WorkerRank(s.workers[w]) && InSem(u) == 0
  {
    assert WorkerOwns(s.workers[w]) <==> s.lock == Some(Worker(w));
  }

  lemma HandlerMoves(s: Server, w: nat)
    requires LockOk(s) && w < |s.workers| && s.workers[w].Handling?
    requires HandlerStep(s, w, s.workers[w].task, s.workers[w].at).Some?
    ensures var u := HandlerStep(s, w, s.workers[w].task, s.workers[w].at).value;
            && u.workers == s.workers[w := u.workers[w]] && u.producer == s.producer && u.ring == s.ring
            && WorkerRank(u.workers[w]) + InSem(u) < WorkerRank(s.workers[w]) + InSem(s)
  {
    var pc := s.workers[w];
    assert WorkerOwns(pc) <==> s.lock == Some(Worker(w));
    if pc.at != Done {
      StepGoesOn(s.shared, w, pc.task, pc.at);
    }
  }

  lemma SemLeftIsSmall(s: Shared, w: nat)
    ensures SemLeft(s, w) <= 10
  {
  }

  lemma WorkerWearsDown(s: Server, w: nat)
    requires LockOk(s) && LocalOk(s) && w < |s.workers| && WorkerStep(s, w).Some? && RingOk(WorkerStep(s, w).value.ring)
    ensures Measure(WorkerStep(s, w).value) < Measure(s)
  {
    var u := WorkerStep(s, w).value;
    assert WorkerLocalOk(s.ring, s.workers[w]);
    if s.workers[w].Handling? {
      HandlerMoves(s, w);
    } else {
      WorkerMoves(s, w);
      TakenIsFirst(s.ring);
      SemLeftIsSmall(u.shared, w);
    }
    TotalAfter(s.workers, w, u.workers[w]);
  }

  lemma SignalWearsDown(s: Server, w: nat)
    requires LockOk(s) && RingOk(s.ring) && SignalStep(s, w).Some?
    ensures Measure(SignalStep(s, w).value) < Measure(s)
  {
    if w < |s.workers| { TotalAfter(s.workers, w, Woken); }
    assert InSem(s) == 0 && InSem(SignalStep(s, w).value) == 0;
  }

  lemma StepWearsDown(n: nat, s: Server, a: Action)
    requires Inv(n, s) && CanStep(s, a)
    ensures Inv(n, Step(s, a).value) && Measure(Step(s, a).value) < Measure(s)
  {
    StepKeepsInv(n, s, a);
    match a
    case Produce => ProducerWearsDown(s);
    case Signal(w) => SignalWearsDown(s, w);
    case Work(w) => WorkerWearsDown(s, w);
  }

  /** The state after the threads have gone on by themselves. */
  function Follow(s: Server, acts: seq<Action>): (t: Option<Server>)
    requires RingOk(s.ring)
    ensures t.Some? ==> RingOk(t.value.ring)
  {
    if acts == [] then Some(s)
    else
      var before := Follow(s, acts[..|acts| - 1]);
      if before.None? || !CanStep(before.value, acts[|acts| - 1]) then None
      else
        RingStays(before.value, acts[|acts| - 1]);
        Step(before.value, acts[|acts| - 1])
  }

  /** However the threads are scheduled, they cannot go on for ever. */
  lemma {:induction false} QuietRunsEnd(n: nat, s: Server, acts: seq<Action>)
    requires Inv(n, s) && Follow(s, acts).Some?
    ensures Inv(n, Follow(s, acts).value)
    ensures |acts| + Measure(Follow(s, acts).value) <= Measure(s)
    ensures |Follow(s, acts).value.workers| == |s.workers|
  {
    if acts != [] {
      var before, last := acts[..|acts| - 1], acts[|acts| - 1];
      QuietRunsEnd(n, s, before);
      StepWearsDown(n, Follow(s, before).value, last);
      StepKeepsInv(n, Follow(s, before).value, last);
    }
  }

  lemma RestMeansDone(n: nat, t: Server)
    requires Inv(n, t) && forall a :: !CanStep(t, a)
    ensures AtRest(t) && t.shared == Clean(Fold(n, t.taken), |t.workers|) && (t.taken == t.added <==> !t.filled)
  {
    NeverStuck(n, t);
    InvRefines(n, t);
    TakenIsFirst(t.ring);
    assert t.taken + [] == t.taken;
  }

  lemma ExecOneMore(n: nat, m: nat, buf: seq<Task>, run: seq<Action>, a: Action)
    requires m > 0 && buf != [] && Exec(n, m, buf, run).Some? && CanStep(Exec(n, m, buf, run).value, a)
    ensures Exec(n, m, buf, run + [a]) == Step(Exec(n, m, buf, run).value, a)
  {
    assert (run + [a])[..|run|] == run;
  }

  lemma FollowLast(s: Server, acts: seq<Action>)
    requires RingOk(s.ring) && acts != [] && Follow(s, acts).Some?
    ensures var before := Follow(s, acts[..|acts| - 1]);
            && before.Some? && CanStep(before.value, acts[|acts| - 1])
            && Follow(s, acts) == Step(before.value, acts[|acts| - 1]) && !acts[|acts| - 1].Accept?
  {
  }

  /** State `t` is what the run leads to. */
  predicate Reached(n: nat, m: nat, buf: seq<Task>, run: seq<Action>, t: Option<Server>)
    requires m > 0 && buf != []
  {
    t.Some? && Exec(n, m, buf, run) == t
  }

  lemma LastBehind(run: seq<Action>, acts: seq<Action>)
    requires acts != []
    ensures run + acts == run + acts[..|acts| - 1] + [acts[|acts| - 1]]
  {
  }

  lemma ReachedNext(n: nat, m: nat, buf: seq<Task>, run: seq<Action>, t: Server, a: Action, u: Option<Server>)
    requires m > 0 && buf != [] && RingOk(t.ring) && Reached(n, m, buf, run, Some(t))
    requires CanStep(t, a) && u == Step(t, a)
    ensures Reached(n, m, buf, run + [a], u)
  {
    ExecOneMore(n, m, buf, run, a);
  }

  /** What the threads do by themselves continues the run. */
  lemma {:induction false} FollowIsRun(n: nat, m: nat, buf: seq<Task>, run: seq<Action>, s: Server, acts: seq<Action>)
    requires m > 0 && buf != [] && RingOk(s.ring) && Reached(n, m, buf, run, Some(s)) && Follow(s, acts).Some?
    ensures Reached(n, m, buf, run + acts, Follow(s, acts))
    decreases |acts|
  {
    if acts == [] {
      assert run + acts == run;
    } else {
      var fewer, last := acts[..|acts| - 1], acts[|acts| - 1];
      FollowLast(s, acts);
      FollowIsRun(n, m, buf, run, s, fewer);
      ReachedNext(n, m, buf, run + fewer, Follow(s, fewer).value, last, Follow(s, acts));
      LastBehind(run, acts);
    }
  }

  predicate Quiet(acts: seq<Action>) {
    forall k :: 0 <= k < |acts| ==> !acts[k].Accept?
  }

  lemma QuietWith(acts: seq<Action>)
    requires acts != [] && Quiet(acts[..|acts| - 1]) && !acts[|acts| - 1].Accept?
    ensures Quiet(acts)
  {
    forall k | 0 <= k < |acts| - 1 ensures !acts[k].Accept? {
      assert acts[k] == acts[..|acts| - 1][k];
    }
  }

  lemma {:induction false} FollowIsQuiet(s: Server, acts: seq<Action>)
    requires RingOk(s.ring) && Follow(s, acts).Some?
    ensures Quiet(acts)
    decreases |acts|
  {
    if acts != [] {
      FollowLast(s, acts);
      FollowIsQuiet(s, acts[..|acts| - 1]);
      QuietWith(acts);
    }
  }

  lemma {:induction false} QuietAcceptsNothing(run: seq<Action>, acts: seq<Action>)
    requires Quiet(acts)
    ensures Accepted(run + acts) == Accepted(run)
    decreases |acts|
  {
    if acts == [] {
      assert run + acts == run;
    } else {
      QuietAcceptsNothing(run, acts[..|acts| - 1]);
      assert (run + acts)[..|run + acts| - 1] == run + acts[..|acts| - 1];
    }
  }

  /** The pool is at rest, ready for any task, with the seats as the tasks taken leave
      them, and these are `tasks` if and only if none filled the array. */
  ghost predicate DoneWith(n: nat, m: nat, t: Server, tasks: seq<Task>, filled: bool) {
    && RingOk(t.ring) && AtRest(t) && (forall x :: Step(t, Accept(x)).Some?)
    && t.shared == Clean(Fold(n, t.taken), m)
    && (t.taken == tasks <==> !filled)
  }

  lemma RestMeansDoneWith(n: nat, m: nat, buf: seq<Task>, run: seq<Action>)
    requires m > 0 && buf != [] && Exec(n, m, buf, run).Some?
    requires forall a :: !CanStep(Exec(n, m, buf, run).value, a)
    ensures DoneWith(n, m, Exec(n, m, buf, run).value, Accepted(run), SomeFills(n, m, buf, run))
  {
    var t := Exec(n, m, buf, run).value;
    RunKeepsInv(n, m, buf, run);
    RestMeansDone(n, t);
    AcceptedAreAdded(n, m, buf, run);
    FilledIfSomeFills(n, m, buf, run);
    assert t.added + [] == t.added;
  }

  /** Every task gets done. From any reachable state the threads, left alone, take a
      bounded number of steps under every schedule; where they can go no further,
      the queue is empty, the workers sleep, and the seats are those of all tasks
      taken, applied in order, which are all tasks ever accepted if and only if no
      task has filled the array. */
  lemma EveryTaskGetsDone(n: nat, m: nat, buf: seq<Task>, run: seq<Action>, acts: seq<Action>)
    requires m > 0 && buf != [] && Exec(n, m, buf, run).Some?
    ensures var s := Exec(n, m, buf, run).value;
            Follow(s, acts).Some? ==>
              && |acts| <= Measure(s)
              && var t := Follow(s, acts).value;
                 (forall a :: !CanStep(t, a)) ==>
                   DoneWith(n, m, t, Accepted(run), SomeFills(n, m, buf, run + acts))
  {
    var s := Exec(n, m, buf, run).value;
    if Follow(s, acts).Some? {
      RunKeepsInv(n, m, buf, run);
      QuietRunsEnd(n, s, acts);
      FollowIsRun(n, m, buf, run, s, acts);
      FollowIsQuiet(s, acts);
      QuietAcceptsNothing(run, acts);
      if forall a :: !CanStep(Follow(s, acts).value, a) {
        RestMeansDoneWith(n, m, buf, run + acts);
      }
    }
  }

  /** Whenever the queue does not look empty, some worker is not asleep, or the
      producer is about to signal. */
  lemma SomebodyAttends(n: nat, m: nat, buf: seq<Task>, run: seq<Action>)
    requires m > 0 && buf != [] && Exec(n, m, buf, run).Some?
    ensures var s := Exec(n, m, buf, run).value; Contents(s.ring) != [] ==> s.producer.Signalling? || Awake(s.workers)
  {
    RunKeepsInv(n, m, buf, run);
    TakenIsFirst(Exec(n, m, buf, run).value.ring);
  }

  lemma TakenKept(s: Server, a: Action)
    requires RingOk(s.ring) && Step(s, a).Some?
    ensures s.taken <= Step(s, a).value.taken
  {
  }

  lemma {:induction false} TakenGrows(n: nat, m: nat, buf: seq<Task>, run: seq<Action>, more: seq<Action>)
    requires m > 0 && buf != [] && Exec(n, m, buf, run + more).Some?
    ensures Exec(n, m, buf, run).Some?
    ensures Exec(n, m, buf, run).value.taken <= Exec(n, m, buf, run + more).value.taken
  {
    if more == [] {
      assert run + more == run;
    } else {
      var fewer := more[..|more| - 1];
      assert (run + more)[..|run + more| - 1] == run + fewer;
      TakenGrows(n, m, buf, run, fewer);
      TakenKept(Exec(n, m, buf, run + fewer).value, more[|more| - 1]);
    }
  }

  lemma OccupiedStays(n: nat, m: nat, s: Server, t: Server, i: nat)
    requires s.shared == Clean(Fold(n, s.taken), m) && t.shared == Clean(Fold(n, t.taken), m) && s.taken <= t.taken
    requires i < |s.shared.seats| && s.shared.seats[i].state == Occupied
    ensures i < |t.shared.seats| && t.shared.seats[i] == s.shared.seats[i]
  {
    var more := t.taken[|s.taken|..];
    assert t.taken == s.taken + more;
    OccupiedForEver(n, s.taken, more, i);
  }

  /** Once a seat is occupied, whatever the threads do next, it is found occupied by
      the same customer at every later moment at which the lock is free. */
  lemma OccupiedForEverInThePool(n: nat, m: nat, buf: seq<Task>, run: seq<Action>, more: seq<Action>, i: nat)
    requires m > 0 && buf != [] && Exec(n, m, buf, run + more).Some? && Exec(n, m, buf, run).Some?
    requires Exec(n, m, buf, run).value.lock == None && Exec(n, m, buf, run + more).value.lock == None
    requires i < |Exec(n, m, buf, run).value.shared.seats|
    requires Exec(n, m, buf, run).value.shared.seats[i].state == Occupied
    ensures i < |Exec(n, m, buf, run + more).value.shared.seats|
    ensures Exec(n, m, buf, run + more).value.shared.seats[i] == Exec(n, m, buf, run).value.shared.seats[i]
  {
    var s, t := Exec(n, m, buf, run).value, Exec(n, m, buf, run + more).value;
    RefinesSequentialRun(n, m, buf, run);
    RefinesSequentialRun(n, m, buf, run + more);
    TakenGrows(n, m, buf, run, more);
    OccupiedStays(n, m, s, t, i);
  }
}
