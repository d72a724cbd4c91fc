/** What guards the shared fields while the pool is at work: the standby list and its
    length are written only inside the semaphore, and confirm_seat and cancel write a
    seat only while they hold its mutex. */
module SeatGuards {
  import opened Wrappers
  import opened SeatModel
  import opened SeatHandlers
  import Semaphores
  import opened TaskRings
  import opened SeatServers

  /** Thread `w` is between the decrement and the increment of the semaphore. */
  predicate InSemaphore(s: Shared, w: nat) {
    w < |s.sem.pcs| && Semaphores.Holds(s.sem.pcs[w])
  }

  /** Between sem_wait and sem_post. */
  predicate InSection(at: Point) {
    at.Append? || at.Count? || at.Give? || at.Pop? || at.Fill? || at.Uncount?
  }

  /** Between taking the mutex of the seat and giving it up. */
  predicate InSeat(task: Task, at: Point) {
    !task.View? && !at.Entry? && !at.Lock? && !at.Done?
  }

  /** Thread `w` at `at` holds what it needs there. */
  predicate Guarded(s: Shared, w: nat, task: Task, at: Point) {
    && (InSection(at) ==> InSemaphore(s, w))
    && (InSeat(task, at) ==> SeatThere(s, task.seat) && s.locked[task.seat])
  }

  lemma SemKeepsGuard(s: Shared, w: nat, task: Task, at: Point, next: Point)
    requires Guarded(s, w, task, at) && (at == SemWait || at == SemPost) && SemStep(s, w, at, next).Some?
    requires if at == SemWait then InSection(next) && (InSeat(task, next) ==> InSeat(task, at))
             else !InSection(next) && (InSeat(task, next) ==> InSeat(task, at))
    ensures var (u, to) := SemStep(s, w, at, next).value; Guarded(u, w, task, to)
  {
  }

  /** A handler keeps it. */
  lemma StepKeepsGuard(s: Shared, w: nat, task: Task, at: Point)
    requires Guarded(s, w, task, at) && at != Done && SeatHandlers.Step(s, w, task, at).Some?
    ensures var (u, next) := SeatHandlers.Step(s, w, task, at).value; Guarded(u, w, task, next)
  {
    if at == SemWait || at == SemPost {
      SemKeepsGuard(s, w, task, at, Behind(task, at));
    } else {
      PlainKeepsGuard(s, w, task, at);
    }
  }

  lemma PlainKeepsGuard(s: Shared, w: nat, task: Task, at: Point)
    requires Guarded(s, w, task, at) && SeatHandlers.Step(s, w, task, at).Some?
    requires at != Done && at != SemWait && at != SemPost
    ensures var (u, next) := SeatHandlers.Step(s, w, task, at).value; Guarded(u, w, task, next)
  {
  }

  /** The step from `s` to `u` of thread `w`, which handles `task`, writes the standby
      list inside the semaphore only, no seat but that of the task, and, unless it views
      a seat, that one only while its mutex is held. */
  ghost predicate WritesGuarded(s: Shared, u: Shared, w: nat, task: Task) {
    && |u.seats| == |s.seats|
    && (u.standby != s.standby || u.length != s.length ==> InSemaphore(s, w))
    && (u.seats != s.seats && !task.View? ==> SeatThere(s, task.seat) && s.locked[task.seat])
    && (forall i :: 0 <= i < |s.seats| && i != task.seat ==> u.seats[i] == s.seats[i])
  }

  lemma StepIsGuarded(s: Shared, w: nat, task: Task, at: Point)
    requires Guarded(s, w, task, at) && at != Done && SeatHandlers.Step(s, w, task, at).Some?
    ensures WritesGuarded(s, SeatHandlers.Step(s, w, task, at).value.0, w, task)
  {
  }

  // ----- whole runs

  ghost predicate GuardsHold(s: Server) {
    && Semaphores.Inv(s.shared.sem)
    && forall w :: 0 <= w < |s.workers| && s.workers[w].Handling? ==>
         Guarded(s.shared, w, s.workers[w].task, s.workers[w].at)
  }

  /** The semaphore moves by its own steps only. */
  lemma SemMoved(s: Server, a: Action) returns (b: Semaphores.Action)
    requires RingOk(s.ring) && SeatServers.Step(s, a).Some?
    ensures var u := SeatServers.Step(s, a).value.shared.sem;
            u == s.shared.sem || Semaphores.Step(s.shared.sem, b) == Some(u)
  {
    b := if a.Work? then Semaphores.Run(a.w)
         else if a.SpuriousInSem? then Semaphores.Spurious(a.w)
         else Semaphores.Run(0);
  }

  lemma GuardsKeptByHandler(s: Server, w: nat)
    requires LockOk(s) && GuardsHold(s) && w < |s.workers| && s.workers[w].Handling?
    requires HandlerStep(s, w, s.workers[w].task, s.workers[w].at).Some?
    ensures var u := HandlerStep(s, w, s.workers[w].task, s.workers[w].at).value;
            && |u.workers| == |s.workers|
            && forall v :: 0 <= v < |u.workers| && u.workers[v].Handling? ==>
                 Guarded(u.shared, v, u.workers[v].task, u.workers[v].at)
  {
    var x, at := s.workers[w].task, s.workers[w].at;
    assert WorkerOwns(s.workers[w]) <==> s.lock == Some(Worker(w));
    if at != Done { StepKeepsGuard(s.shared, w, x, at); }
    var u := HandlerStep(s, w, x, at).value;
    forall v: nat | v < |u.workers| && u.workers[v].Handling?
      ensures Guarded(u.shared, v, u.workers[v].task, u.workers[v].at)
    {
      assert WorkerOwns(s.workers[v]) <==> s.lock == Some(Worker(v));
    }
  }

  lemma GuardsKeptByOther(s: Server, a: Action)
    requires RingOk(s.ring) && GuardsHold(s) && SeatServers.Step(s, a).Some?
    requires !(a.Work? && s.workers[a.w].Handling?)
    ensures var u := SeatServers.Step(s, a).value;
            && u.shared == s.shared.(sem := u.shared.sem)
            && forall v :: 0 <= v < |u.workers| && u.workers[v].Handling? ==>
                 Guarded(u.shared, v, u.workers[v].task, u.workers[v].at)
  {
    var u := SeatServers.Step(s, a).value;
    if a.SpuriousInSem? { Semaphores.OthersStay(s.shared.sem, Semaphores.Spurious(a.w)); }
    forall v: nat | v < |u.workers| && u.workers[v].Handling?
      ensures Guarded(u.shared, v, u.workers[v].task, u.workers[v].at)
    {
      assert s.workers[v].Handling? ==> Guarded(s.shared, v, s.workers[v].task, s.workers[v].at);
    }
  }

  lemma GuardsKept(s: Server, a: Action)
    requires RingOk(s.ring) && LockOk(s) && GuardsHold(s) && SeatServers.Step(s, a).Some?
    ensures GuardsHold(SeatServers.Step(s, a).value)
  {
    var b := SemMoved(s, a);
    if Semaphores.Step(s.shared.sem, b).Some? { Semaphores.StepKeepsInv(s.shared.sem, b); }
    if a.Work? && s.workers[a.w].Handling? {
      GuardsKeptByHandler(s, a.w);
    } else {
      GuardsKeptByOther(s, a);
    }
  }

  lemma {:induction false} RunKeepsGuards(n: nat, m: nat, buf: seq<Task>, run: seq<Action>)
    requires m > 0 && buf != [] && SeatServers.Exec(n, m, buf, run).Some?
    ensures GuardsHold(SeatServers.Exec(n, m, buf, run).value)
  {
    if run == [] {
      Semaphores.StartInv(m);
    } else {
      var before := run[..|run| - 1];
      RunKeepsGuards(n, m, buf, before);
      SeatServers.RunKeepsInv(n, m, buf, before);
      GuardsKept(SeatServers.Exec(n, m, buf, before).value, run[|run| - 1]);
    }
  }

  /** In every interleaving the standby list and its length are written only by a thread
      inside the semaphore, and there is never another one inside; confirm_seat and
      cancel write no seat but their own, and that one only while they hold its mutex;
      and nothing but a handler writes any of these. */
  lemma WritesAreGuarded(n: nat, m: nat, buf: seq<Task>, run: seq<Action>, a: Action)
    requires m > 0 && buf != [] && SeatServers.Exec(n, m, buf, run).Some?
    requires SeatServers.Step(SeatServers.Exec(n, m, buf, run).value, a).Some?
    ensures var s := SeatServers.Exec(n, m, buf, run).value;
            var u := SeatServers.Step(s, a).value;
            && (forall v, w :: InSemaphore(s.shared, v) && InSemaphore(s.shared, w) ==> v == w)
            && if a.Work? && s.workers[a.w].Handling? then WritesGuarded(s.shared, u.shared, a.w, s.workers[a.w].task)
               else u.shared == s.shared.(sem := u.shared.sem)
  {
    var s := SeatServers.Exec(n, m, buf, run).value;
    RunKeepsGuards(n, m, buf, run);
    forall v: nat, w: nat | InSemaphore(s.shared, v) && InSemaphore(s.shared, w) ensures v == w {
      Semaphores.OnlyOneHolds(s.shared.sem, v, w);
    }
    if a.Work? && s.workers[a.w].Handling? {
      if s.workers[a.w].at != Done {
        StepIsGuarded(s.shared, a.w, s.workers[a.w].task, s.workers[a.w].at);
      }
    } else {
      GuardsKeptByOther(s, a);
    }
  }
}
