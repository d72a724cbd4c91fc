/** The seat operations of seats.c as the single steps of a thread: each reads or
    writes one shared field, takes or gives up the mutex of a seat, or is one step
    inside sem_wait or sem_post. Run without interference they do what SeatModel
    says. */
module SeatHandlers {
  import opened Wrappers
  import opened SeatModel
  import Semaphores

  /** `length` is standby_length, `sem` the semaphore with every thread's place in
      it, `locked[i]` whether the mutex of seat `i` is held. */
  datatype Shared = Shared(seats: seq<Seat>, standby: seq<int>, length: int, sem: Semaphores.Sem, locked: seq<bool>)

  function Unlocked(n: nat): (r: seq<bool>)
    ensures |r| == n && forall i :: 0 <= i < n ==> !r[i]
  {
    seq(n, i => false)
  }

  /** The shared fields of `m` threads while no operation is under way. */
  function Clean(t: Table, m: nat): Shared {
    Shared(t.seats, t.standby, |t.standby|, Semaphores.Start(m), Unlocked(|t.seats|))
  }

  /** What a handler does next. */
  datatype Point =
    | Entry                                    // find the seat; view_seat also tests its state
    | MarkState | MarkCustomer                 // the seat becomes pending
    | Lock | Test                              // confirm_seat and cancel
    | Occupy
    | LengthTest | WaitingTest                 // standby_length, read outside the semaphore
    | FreeSeat
    | SemWait
    | Append | Count                           // onto the standby list
    | Give | Pop | Fill | Uncount              // off the standby list
    | SemPost | Unlock | Done

  function Rank(at: Point): nat {
    match at
    case Entry => 18
    case MarkState => 17
    case MarkCustomer => 16
    case Lock => 15
    case Test => 14
    case Occupy => 13
    case LengthTest => 12
    case WaitingTest => 11
    case FreeSeat => 10
    case SemWait => 9
    case Append => 8
    case Count => 7
    case Give => 6
    case Pop => 5
    case Fill => 4
    case Uncount => 3
    case SemPost => 2
    case Unlock => 1
    case Done => 0
  }

  predicate SeatThere(s: Shared, id: int) {
    0 <= id < |s.seats| && |s.locked| == |s.seats|
  }

  function WithState(s: Shared, id: int, state: SeatState): Shared
    requires SeatThere(s, id)
  {
    s.(seats := s.seats[id := s.seats[id].(state := state)])
  }

  function WithCustomer(s: Shared, id: int, customer: int): Shared
    requires SeatThere(s, id)
  {
    s.(seats := s.seats[id := s.seats[id].(customer := customer)])
  }

  /** A step of thread `w` in sem_wait, or in sem_post; `next` once it is out. */
  function SemStep(s: Shared, w: nat, at: Point, next: Point): Option<(Shared, Point)> {
    var sem := Semaphores.Step(s.sem, Semaphores.Run(w));
    if w >= |s.sem.pcs| || Posts(s.sem.pcs[w]) != (at == SemPost) || sem.None? then None
    else Some((s.(sem := sem.value), if Posts(sem.value.pcs[w]) != (at == SemPost) then next else at))
  }

  /** From inside the guarded section to the end of sem_post. */
  predicate Posts(pc: Semaphores.Pc) {
    pc.Inside? || pc.Posting? || pc.Raising? || pc.Waking? || pc.Unlocking?
  }

  function SemRank(pc: Semaphores.Pc): nat {
    match pc
    case Idle => 10
    case Locking => 9
    case Woken => 9
    case Testing => 8
    case Leaving => 7
    case Inside => 6
    case Posting => 5
    case Raising => 4
    case Waking => 3
    case Unlocking => 2
    case Parked => 0
  }

  /** Thread `w` on its way through the semaphore. */
  function SemLeft(s: Shared, w: nat): nat {
    if w < |s.sem.pcs| then SemRank(s.sem.pcs[w]) else 0
  }

  /** A step of thread `w`. None: it is blocked, or follows a NULL pointer. */
  function Step(s: Shared, w: nat, task: Task, at: Point): Option<(Shared, Point)> {
    var i, c := task.seat, task.customer;
    if at == Entry then
      if !SeatThere(s, i) then Some((s, Done))
      else if !task.View? then Some((s, Lock))
      else if s.seats[i].state == Available || SeatModel.Holds(s.seats[i], c) then Some((s, MarkState))
      else Some((s, LengthTest))
    else if !SeatThere(s, i) then None
    else if task.View? then ViewStep(s, w, i, c, at)
    else LockedStep(s, w, task, at)
  }

  function ViewStep(s: Shared, w: nat, i: int, c: int, at: Point): Option<(Shared, Point)>
    requires SeatThere(s, i)
  {
    match at
    case MarkState => Some((WithState(s, i, Pending), MarkCustomer))
    case MarkCustomer => Some((WithCustomer(s, i, c), Done))
    case LengthTest => Some((s, if s.length != STANDBY_SIZE then SemWait else Done))
    case SemWait => SemStep(s, w, SemWait, Append)
    case Append =>
      if s.length == 0 then Some((s.(standby := [c]), Count))
      else if s.standby == [] then None
      else Some((s.(standby := s.standby + [c]), Count))
    case Count => Some((s.(length := s.length + 1), SemPost))
    case SemPost => SemStep(s, w, SemPost, Done)
    case _ => None
  }

  /** confirm_seat and cancel, which hold the mutex of the seat. */
  function LockedStep(s: Shared, w: nat, task: Task, at: Point): Option<(Shared, Point)>
    requires SeatThere(s, task.seat)
  {
    var i := task.seat;
    match at
    case Lock => if s.locked[i] then None else Some((s.(locked := s.locked[i := true]), Test))
    case Test =>
      var held := SeatModel.Holds(s.seats[i], task.customer);
      Some((s, if !held then Unlock else if task.Confirm? then Occupy else WaitingTest))
    case Occupy => Some((WithState(s, i, Occupied), Unlock))
    case WaitingTest => Some((s, if s.length > 0 then SemWait else FreeSeat))
    case FreeSeat => Some((WithState(s, i, Available), Unlock))
    case SemWait => SemStep(s, w, SemWait, Give)
    case Give => if s.standby == [] then None else Some((WithCustomer(s, i, s.standby[0]), Pop))
    case Pop => if s.standby == [] then None else Some((s.(standby := s.standby[1..]), Fill))
    case Fill => Some((WithState(s, i, Occupied), Uncount))
    case Uncount => Some((s.(length := s.length - 1), SemPost))
    case SemPost => SemStep(s, w, SemPost, Unlock)
    case Unlock => Some((s.(locked := s.locked[i := false]), Done))
    case _ => None
  }

  lemma SemStepGoesOn(s: Shared, w: nat, at: Point, next: Point)
    requires at == SemWait || at == SemPost
    requires Rank(next) < Rank(at) && SemStep(s, w, at, next).Some?
    ensures var (u, to) := SemStep(s, w, at, next).value; 12 * Rank(to) + SemLeft(u, w) < 12 * Rank(at) + SemLeft(s, w)
  {
  }

  lemma ViewStepGoesOn(s: Shared, w: nat, i: int, c: int, at: Point)
    requires SeatThere(s, i) && ViewStep(s, w, i, c, at).Some?
    ensures var (u, next) := ViewStep(s, w, i, c, at).value;
            12 * Rank(next) + SemLeft(u, w) < 12 * Rank(at) + SemLeft(s, w)
  {
    if at == SemWait { SemStepGoesOn(s, w, at, Append); }
    if at == SemPost { SemStepGoesOn(s, w, at, Done); }
  }

  lemma LockedStepGoesDown(s: Shared, w: nat, task: Task, at: Point)
    requires at != SemWait && at != SemPost && SeatThere(s, task.seat) && LockedStep(s, w, task, at).Some?
    ensures var (u, next) := LockedStep(s, w, task, at).value; u.sem == s.sem && Rank(next) < Rank(at)
  {
  }

  lemma LockedStepGoesOn(s: Shared, w: nat, task: Task, at: Point)
    requires SeatThere(s, task.seat) && LockedStep(s, w, task, at).Some?
    ensures var (u, next) := LockedStep(s, w, task, at).value;
            12 * Rank(next) + SemLeft(u, w) < 12 * Rank(at) + SemLeft(s, w)
  {
    if at == SemWait {
      SemStepGoesOn(s, w, at, Give);
    } else if at == SemPost {
      SemStepGoesOn(s, w, at, Unlock);
    } else {
      LockedStepGoesDown(s, w, task, at);
    }
  }

  lemma StepGoesOn(s: Shared, w: nat, task: Task, at: Point)
    requires Step(s, w, task, at).Some?
    ensures var (u, next) := Step(s, w, task, at).value; 12 * Rank(next) + SemLeft(u, w) < 12 * Rank(at) + SemLeft(s, w)
  {
    if at != Entry {
      if task.View? {
        ViewStepGoesOn(s, w, task.seat, task.customer, at);
      } else {
        LockedStepGoesOn(s, w, task, at);
      }
    }
  }

  /** The shared fields when the handler is left to finish from `at`. */
  function Rest(s: Shared, w: nat, task: Task, at: Point): Option<Shared>
    decreases 12 * Rank(at) + SemLeft(s, w)
  {
    if at == Done then Some(s)
    else
      var next := Step(s, w, task, at);
      if next.None? then None
      else
        StepGoesOn(s, w, task, at);
        Rest(next.value.0, w, task, next.value.1)
  }

  lemma RestMoves(s: Shared, w: nat, task: Task, at: Point, u: Shared, next: Point)
    requires at != Done && Step(s, w, task, at) == Some((u, next))
    ensures Rest(s, w, task, at) == Rest(u, w, task, next)
  {
  }

  // ----- through the semaphore

  /** The semaphore held by thread `w`. */
  function Held(m: nat, w: nat): Semaphores.Sem
    requires w < m
  {
    Alone(m, w, 0, None, Semaphores.Inside)
  }

  /** Where a thread goes on after the semaphore. */
  function Behind(task: Task, at: Point): Point {
    if at == SemWait then (if task.View? then Append else Give) else if task.View? then Done else Unlock
  }

  /** One step in the semaphore, `u` the semaphore behind it. */
  lemma SemMoves(s: Shared, w: nat, task: Task, at: Point, u: Semaphores.Sem)
    requires w < |s.sem.pcs| == |u.pcs| && SeatThere(s, task.seat) && !task.Confirm? && (at == SemWait || at == SemPost)
    requires Semaphores.Step(s.sem, Semaphores.Run(w)) == Some(u) && Posts(s.sem.pcs[w]) == (at == SemPost)
    ensures Rest(s, w, task, at)
         == Rest(s.(sem := u), w, task, if Posts(u.pcs[w]) == (at == SemPost) then at else Behind(task, at))
  {
    var next := if Posts(u.pcs[w]) == (at == SemPost) then at else Behind(task, at);
    assert SemStep(s, w, at, Behind(task, at)) == Some((s.(sem := u), next));
    assert Step(s, w, task, at) == Some((s.(sem := u), next));
  }

  /** Thread `w` somewhere in the semaphore, the others outside. */
  function Alone(m: nat, w: nat, count: int, owner: Option<nat>, pc: Semaphores.Pc): Semaphores.Sem
    requires w < m
  {
    Semaphores.Sem(count, owner, Semaphores.Start(m).pcs[w := pc])
  }

  lemma AloneMoves(m: nat, w: nat, count: int, owner: Option<nat>, pc: Semaphores.Pc, to: Semaphores.Pc)
    requires w < m
    ensures Alone(m, w, count, owner, pc).pcs[w := to] == Alone(m, w, count, owner, to).pcs
    ensures pc != Semaphores.Parked ==>
              Semaphores.AllWoken(Alone(m, w, count, owner, pc).pcs) == Alone(m, w, count, owner, pc).pcs
    ensures Alone(m, w, count, owner, Semaphores.Idle).pcs == Semaphores.Start(m).pcs
  {
  }

  /** Nobody holds the semaphore: sem_wait goes through without sleeping. */
  lemma WaitGoesThrough(s: Shared, m: nat, w: nat, task: Task)
    requires w < m && s.sem == Semaphores.Start(m) && SeatThere(s, task.seat) && !task.Confirm?
    ensures Rest(s, w, task, SemWait) == Rest(s.(sem := Held(m, w)), w, task, Behind(task, SemWait))
  {
    var a := Alone(m, w, 1, None, Semaphores.Locking);
    var b := Alone(m, w, 1, Some(w), Semaphores.Testing);
    var c := Alone(m, w, 0, Some(w), Semaphores.Leaving);
    AloneMoves(m, w, 1, None, Semaphores.Locking, Semaphores.Testing);
    AloneMoves(m, w, 1, Some(w), Semaphores.Testing, Semaphores.Leaving);
    AloneMoves(m, w, 0, Some(w), Semaphores.Leaving, Semaphores.Inside);
    SemMoves(s, w, task, SemWait, a);
    SemMoves(s.(sem := a), w, task, SemWait, b);
    SemMoves(s.(sem := b), w, task, SemWait, c);
    SemMoves(s.(sem := c), w, task, SemWait, Held(m, w));
  }

  /** sem_post leaves the semaphore as sem_wait found it. */
  lemma PostGoesThrough(s: Shared, m: nat, w: nat, task: Task)
    requires w < m && s.sem == Held(m, w) && SeatThere(s, task.seat) && !task.Confirm?
    ensures Rest(s, w, task, SemPost) == Rest(s.(sem := Semaphores.Start(m)), w, task, Behind(task, SemPost))
  {
    var a := Alone(m, w, 0, None, Semaphores.Posting);
    var b := Alone(m, w, 0, Some(w), Semaphores.Raising);
    AloneMoves(m, w, 0, None, Semaphores.Inside, Semaphores.Posting);
    AloneMoves(m, w, 0, None, Semaphores.Posting, Semaphores.Raising);
    SemMoves(s, w, task, SemPost, a);
    SemMoves(s.(sem := a), w, task, SemPost, b);
    RaisedGoesThrough(s.(sem := b), m, w, task);
  }

  lemma RaisedGoesThrough(s: Shared, m: nat, w: nat, task: Task)
    requires w < m && SeatThere(s, task.seat) && !task.Confirm?
    requires s.sem == Alone(m, w, 0, Some(w), Semaphores.Raising)
    ensures Rest(s, w, task, SemPost) == Rest(s.(sem := Semaphores.Start(m)), w, task, Behind(task, SemPost))
  {
    var c := Alone(m, w, 1, Some(w), Semaphores.Waking);
    var d := Alone(m, w, 1, Some(w), Semaphores.Unlocking);
    AloneMoves(m, w, 0, Some(w), Semaphores.Raising, Semaphores.Waking);
    AloneMoves(m, w, 1, Some(w), Semaphores.Waking, Semaphores.Unlocking);
    AloneMoves(m, w, 1, Some(w), Semaphores.Unlocking, Semaphores.Idle);
    SemMoves(s, w, task, SemPost, c);
    SemMoves(s.(sem := c), w, task, SemPost, d);
    SemMoves(s.(sem := d), w, task, SemPost, Semaphores.Start(m));
  }

  // ----- whole handlers

  /** A whole handler of one of `m` threads, started on clean shared fields, never
      blocks and leaves them clean: it applies its task, every mutex it took is free
      again, and the semaphore is as it was. */
  lemma HandlerIsApply(t: Table, m: nat, w: nat, task: Task)
    requires w < m
    ensures Rest(Clean(t, m), w, task, Entry) == Some(Clean(Apply(t, task), m))
  {
    if !Known(t, task.seat) {
    } else if task.View? {
      ViewIsViewed(t, m, w, task);
    } else if task.Confirm? {
      ConfirmIsConfirmed(t, m, w, task);
    } else {
      CancelIsCancelled(t, m, w, task);
    }
  }

  lemma ViewIsViewed(t: Table, m: nat, w: nat, task: Task)
    requires w < m && task.View? && Known(t, task.seat)
    ensures Rest(Clean(t, m), w, task, Entry) == Some(Clean(Viewed(t, task.seat, task.customer), m))
  {
    var s, i, c := Clean(t, m), task.seat, task.customer;
    if t.seats[i].state == Available || SeatModel.Holds(t.seats[i], c) {
      var s1 := WithState(s, i, Pending);
      var s2 := WithCustomer(s1, i, c);
      assert Rest(s, w, task, MarkState) == Rest(s1, w, task, MarkCustomer) == Rest(s2, w, task, Done);
      assert s2 == Clean(Viewed(t, i, c), m);
    } else if |t.standby| != STANDBY_SIZE {
      assert Rest(s, w, task, LengthTest) == Rest(s, w, task, SemWait);
      QueueingCleans(t, m, w, task);
    } else {
      assert Rest(s, w, task, LengthTest) == Rest(s, w, task, Done);
    }
  }

  lemma QueueingCleans(t: Table, m: nat, w: nat, task: Task)
    requires w < m && task.View? && Known(t, task.seat)
    ensures Rest(Clean(t, m), w, task, SemWait) == Some(Clean(t.(standby := t.standby + [task.customer]), m))
  {
    var s := Clean(t, m);
    var s1 := s.(sem := Held(m, w));
    var s2 := s1.(standby := s.standby + [task.customer]);
    var s3 := s2.(length := s.length + 1);
    WaitGoesThrough(s, m, w, task);
    assert s.standby == [] ==> [] + [task.customer] == [task.customer];
    RestMoves(s1, w, task, Append, s2, Count);
    RestMoves(s2, w, task, Count, s3, SemPost);
    PostGoesThrough(s3, m, w, task);
  }

  /** The shared fields while the mutex of the seat is held. */
  function SeatLocked(t: Table, m: nat, i: int): Shared
    requires Known(t, i)
  {
    Clean(t, m).(locked := Unlocked(|t.seats|)[i := true])
  }

  lemma ConfirmIsConfirmed(t: Table, m: nat, w: nat, task: Task)
    requires task.Confirm? && Known(t, task.seat)
    ensures Rest(Clean(t, m), w, task, Entry) == Some(Clean(Confirmed(t, task.seat, task.customer), m))
  {
    var i, c := task.seat, task.customer;
    var s1 := SeatLocked(t, m, i);
    LockIsTaken(t, m, w, task);
    if SeatModel.Holds(t.seats[i], c) {
      assert Rest(s1, w, task, Test) == Rest(s1, w, task, Occupy) == Rest(WithState(s1, i, Occupied), w, task, Unlock);
      UnlockCleans(WithState(s1, i, Occupied), m, w, task, Confirmed(t, i, c));
    } else {
      RestMoves(s1, w, task, Test, s1, Unlock);
      UnlockCleans(s1, m, w, task, t);
    }
  }

  lemma LockIsTaken(t: Table, m: nat, w: nat, task: Task)
    requires !task.View? && Known(t, task.seat)
    ensures Rest(Clean(t, m), w, task, Entry) == Rest(SeatLocked(t, m, task.seat), w, task, Test)
  {
    assert Rest(Clean(t, m), w, task, Entry) == Rest(Clean(t, m), w, task, Lock);
  }

  /** Giving up the mutex is the last step. */
  lemma UnlockCleans(s: Shared, m: nat, w: nat, task: Task, t: Table)
    requires !task.View? && Known(t, task.seat) && s == SeatLocked(t, m, task.seat)
    ensures Rest(s, w, task, Unlock) == Some(Clean(t, m))
  {
    var u := s.(locked := s.locked[task.seat := false]);
    assert u.locked == Unlocked(|t.seats|);
    assert Rest(s, w, task, Unlock) == Rest(u, w, task, Done);
  }

  lemma CancelIsCancelled(t: Table, m: nat, w: nat, task: Task)
    requires w < m && task.Cancel? && Known(t, task.seat)
    ensures Rest(Clean(t, m), w, task, Entry) == Some(Clean(Cancelled(t, task.seat, task.customer), m))
  {
    var i, c := task.seat, task.customer;
    var s1 := SeatLocked(t, m, i);
    LockIsTaken(t, m, w, task);
    if !SeatModel.Holds(t.seats[i], c) {
      RestMoves(s1, w, task, Test, s1, Unlock);
      UnlockCleans(s1, m, w, task, t);
    } else if |t.standby| > 0 {
      RestMoves(s1, w, task, Test, s1, WaitingTest);
      RestMoves(s1, w, task, WaitingTest, s1, SemWait);
      SeatingCleans(t, m, w, task);
    } else {
      FreeingCleans(t, m, w, task);
    }
  }

  lemma FreeingCleans(t: Table, m: nat, w: nat, task: Task)
    requires task.Cancel? && Known(t, task.seat) && SeatModel.Holds(t.seats[task.seat], task.customer)
    requires t.standby == []
    ensures Rest(SeatLocked(t, m, task.seat), w, task, Test) == Some(Clean(Cancelled(t, task.seat, task.customer), m))
  {
    var s1, i := SeatLocked(t, m, task.seat), task.seat;
    var s2 := WithState(s1, i, Available);
    RestMoves(s1, w, task, Test, s1, WaitingTest);
    RestMoves(s1, w, task, WaitingTest, s1, FreeSeat);
    RestMoves(s1, w, task, FreeSeat, s2, Unlock);
    UnlockCleans(s2, m, w, task, Cancelled(t, i, task.customer));
  }

  lemma SeatingCleans(t: Table, m: nat, w: nat, task: Task)
    requires w < m && task.Cancel? && Known(t, task.seat) && |t.standby| > 0
    requires SeatModel.Holds(t.seats[task.seat], task.customer)
    ensures Rest(SeatLocked(t, m, task.seat), w, task, SemWait)
         == Some(Clean(Cancelled(t, task.seat, task.customer), m))
  {
    var s, i := SeatLocked(t, m, task.seat), task.seat;
    var s1 := s.(sem := Held(m, w));
    var s2 := WithCustomer(s1, i, s.standby[0]);
    var s3 := s2.(standby := s.standby[1..]);
    WaitGoesThrough(s, m, w, task);
    RestMoves(s1, w, task, Give, s2, Pop);
    RestMoves(s2, w, task, Pop, s3, Fill);
    FillingCleans(s3, t, m, w, task);
  }

  lemma FillingCleans(s3: Shared, t: Table, m: nat, w: nat, task: Task)
    requires w < m && task.Cancel? && Known(t, task.seat) && |t.standby| > 0
    requires SeatModel.Holds(t.seats[task.seat], task.customer)
    requires s3 == WithCustomer(SeatLocked(t, m, task.seat), task.seat, t.standby[0])
                   .(sem := Held(m, w), standby := t.standby[1..])
    ensures Rest(s3, w, task, Fill) == Some(Clean(Cancelled(t, task.seat, task.customer), m))
  {
    var i := task.seat;
    var s4 := WithState(s3, i, Occupied);
    var s5 := s4.(length := |t.standby| - 1);
    RestMoves(s3, w, task, Fill, s4, Uncount);
    RestMoves(s4, w, task, Uncount, s5, SemPost);
    PostGoesThrough(s5, m, w, task);
    UnlockCleans(s5.(sem := Semaphores.Start(m)), m, w, task, Cancelled(t, i, task.customer));
  }
}
