/** The seats and the standby list of seats.c on values, and what holds over whole
    runs of seat operations. */
module SeatModel {
  const STANDBY_SIZE := 8

  datatype SeatState = Available | Pending | Occupied

  datatype Seat = Seat(state: SeatState, customer: int)

  /** Seat `i` has id `i`; the standby list holds customers, first come first. */
  datatype Table = Table(seats: seq<Seat>, standby: seq<int>)

  datatype Task = View(seat: int, customer: int) | Confirm(seat: int, customer: int) | Cancel(seat: int, customer: int)

  /** load_seats */
  function Loaded(n: nat): Table {
    Table(seq(n, i => Seat(Available, -1)), [])
  }

  predicate Known(t: Table, id: int) {
    0 <= id < |t.seats|
  }

  predicate Holds(s: Seat, customer: int) {
    s.state == Pending && s.customer == customer
  }

  function Apply(t: Table, task: Task): Table {
    if !Known(t, task.seat) then t
    else
      match task
      case View(i, c) => Viewed(t, i, c)
      case Confirm(i, c) => Confirmed(t, i, c)
      case Cancel(i, c) => Cancelled(t, i, c)
  }

  /** view_seat: the seat becomes pending for a customer who can have it; another
      customer goes on the standby list while there is room. */
  function Viewed(t: Table, i: int, c: int): Table
    requires Known(t, i)
  {
    if t.seats[i].state == Available || Holds(t.seats[i], c) then t.(seats := t.seats[i := Seat(Pending, c)])
    else if |t.standby| != STANDBY_SIZE then t.(standby := t.standby + [c])
    else t
  }

  /** confirm_seat */
  function Confirmed(t: Table, i: int, c: int): Table
    requires Known(t, i)
  {
    if Holds(t.seats[i], c) then t.(seats := t.seats[i := Seat(Occupied, c)]) else t
  }

  /** cancel: the seat goes to the first customer on standby, if there is one. */
  function Cancelled(t: Table, i: int, c: int): Table
    requires Known(t, i)
  {
    if !Holds(t.seats[i], c) then t
    else if |t.standby| > 0 then Table(t.seats[i := Seat(Occupied, t.standby[0])], t.standby[1..])
    else t.(seats := t.seats[i := Seat(Available, c)])
  }

  // ----- runs

  /** The table after `tasks`, in order. */
  function Fold(n: nat, tasks: seq<Task>): Table {
    if tasks == [] then Loaded(n) else Apply(Fold(n, tasks[..|tasks| - 1]), tasks[|tasks| - 1])
  }

  /** The customer a task puts on the standby list: who views a seat that another
      customer has, while there is room. */
  function Queued(t: Table, task: Task): seq<int> {
    if task.View? && Known(t, task.seat) && t.seats[task.seat].state != Available
       && !Holds(t.seats[task.seat], task.customer) && |t.standby| < STANDBY_SIZE
    then [task.customer]
    else []
  }

  /** The customer a task seats from the standby list: the first one, when the holder
      of a seat cancels. */
  function Seated(t: Table, task: Task): seq<int> {
    if task.Cancel? && Known(t, task.seat) && Holds(t.seats[task.seat], task.customer) && t.standby != []
    then [t.standby[0]]
    else []
  }

  function QueuedLog(n: nat, tasks: seq<Task>): seq<int> {
    if tasks == [] then []
    else
      var before := tasks[..|tasks| - 1];
      QueuedLog(n, before) + Queued(Fold(n, before), tasks[|tasks| - 1])
  }

  function SeatedLog(n: nat, tasks: seq<Task>): seq<int> {
    if tasks == [] then []
    else
      var before := tasks[..|tasks| - 1];
      SeatedLog(n, before) + Seated(Fold(n, before), tasks[|tasks| - 1])
  }

  lemma StandbyStep(t: Table, task: Task)
    requires |t.standby| <= STANDBY_SIZE
    ensures t.standby + Queued(t, task) == Seated(t, task) + Apply(t, task).standby
    ensures |Apply(t, task).standby| <= STANDBY_SIZE && |Apply(t, task).seats| == |t.seats|
  {
    if Seated(t, task) != [] {
      assert t.standby == [t.standby[0]] + t.standby[1..];
    }
  }

  lemma Regroup(a: seq<int>, b: seq<int>, c: seq<int>, d: seq<int>, e: seq<int>)
    requires b + c == d + e
    ensures a + b + c == a + d + e
  {
    assert a + b + c == a + (b + c);
    assert a + d + e == a + (d + e);
  }

  /** First come, first seated: the customers put on standby are those seated from
      it, in the same order, followed by those still waiting, never more than
      eight. */
  lemma {:induction false} StandbyIsFifo(n: nat, tasks: seq<Task>)
    ensures QueuedLog(n, tasks) == SeatedLog(n, tasks) + Fold(n, tasks).standby
    ensures |Fold(n, tasks).standby| <= STANDBY_SIZE && |Fold(n, tasks).seats| == n
  {
    if tasks != [] {
      var before, task := tasks[..|tasks| - 1], tasks[|tasks| - 1];
      var t := Fold(n, before);
      StandbyIsFifo(n, before);
      StandbyStep(t, task);
      Regroup(SeatedLog(n, before), t.standby, Queued(t, task), Seated(t, task), Apply(t, task).standby);
    }
  }

  /** What one task does to seat `i`, and what it cannot do. A task for another seat
      leaves it alone. An available seat becomes pending for whoever views it, and
      changes in no other way. A pending one changes only when its holder confirms it,
      and then is his, or cancels it: then the first customer on standby has it, or it
      is available when nobody waits. An occupied seat is never touched. */
  lemma SeatRules(t: Table, task: Task, i: nat)
    requires i < |t.seats|
    ensures |Apply(t, task).seats| == |t.seats|
    ensures var s, u := t.seats[i], Apply(t, task).seats[i];
            && (task.seat != i ==> u == s)
            && (s.state == Available ==>
                u == if task == View(i, task.customer) then Seat(Pending, task.customer) else s)
            && (s.state == Pending && task == Confirm(i, s.customer) ==> u == Seat(Occupied, s.customer))
            && (s.state == Pending && task == Cancel(i, s.customer) ==>
                u == if t.standby == [] then Seat(Available, s.customer) else Seat(Occupied, t.standby[0]))
            && (s.state == Pending && u != s ==> task == Confirm(i, s.customer) || task == Cancel(i, s.customer))
            && (s.state == Occupied ==> u == s)
  {
  }

  /** An occupied seat keeps its state and its customer for the rest of the run. */
  lemma {:induction false} OccupiedForEver(n: nat, tasks: seq<Task>, more: seq<Task>, i: nat)
    requires i < |Fold(n, tasks).seats| && Fold(n, tasks).seats[i].state == Occupied
    ensures i < |Fold(n, tasks + more).seats| && Fold(n, tasks + more).seats[i] == Fold(n, tasks).seats[i]
  {
    if more == [] {
      assert tasks + more == tasks;
    } else {
      var fewer, last := more[..|more| - 1], more[|more| - 1];
      OccupiedForEver(n, tasks, fewer, i);
      assert (tasks + more)[..|tasks + more| - 1] == tasks + fewer;
      SeatRules(Fold(n, tasks + fewer), last, i);
    }
  }

  /** A pending seat stays its holder's until a task of the holder for that seat. */
  lemma {:induction false} PendingUntilHolderActs(n: nat, tasks: seq<Task>, more: seq<Task>, i: nat)
    requires i < |Fold(n, tasks).seats| && Fold(n, tasks).seats[i].state == Pending
    requires forall k :: 0 <= k < |more| ==>
               more[k].View? || more[k].seat != i || more[k].customer != Fold(n, tasks).seats[i].customer
    ensures i < |Fold(n, tasks + more).seats| && Fold(n, tasks + more).seats[i] == Fold(n, tasks).seats[i]
  {
    if more == [] {
      assert tasks + more == tasks;
    } else {
      var fewer, last := more[..|more| - 1], more[|more| - 1];
      PendingUntilHolderActs(n, tasks, fewer, i);
      assert (tasks + more)[..|tasks + more| - 1] == tasks + fewer;
      SeatRules(Fold(n, tasks + fewer), last, i);
    }
  }

  lemma FoldStep(n: nat, tasks: seq<Task>, k: nat)
    requires k < |tasks|
    ensures Fold(n, tasks[..k + 1]) == Apply(Fold(n, tasks[..k]), tasks[k])
    ensures |Fold(n, tasks[..k]).seats| == n
  {
    assert tasks[..k + 1][..k] == tasks[..k];
    StandbyIsFifo(n, tasks[..k]);
  }

  /** Customer `c` has seat `i`. */
  predicate Has(t: Table, i: nat, c: int) {
    i < |t.seats| && t.seats[i].state != Available && t.seats[i].customer == c
  }

  /** A seat viewed while available stays the viewer's as long as he does not cancel it. */
  lemma {:induction false} ViewerKeepsSeat(n: nat, tasks: seq<Task>, i: nat, c: int, j: nat, k: nat)
    requires i < n && j < k <= |tasks| && tasks[j] == View(i, c)
    requires i < |Fold(n, tasks[..j]).seats| && Fold(n, tasks[..j]).seats[i].state == Available
    requires forall m :: j < m < k ==> tasks[m] != Cancel(i, c)
    ensures Has(Fold(n, tasks[..k]), i, c)
  {
    FoldStep(n, tasks, k - 1);
    if j < k - 1 {
      ViewerKeepsSeat(n, tasks, i, c, j, k - 1);
    }
    SeatRules(Fold(n, tasks[..k - 1]), tasks[k - 1], i);
  }

  /** Who views an available seat and confirms it later, without cancelling it in
      between, has it in the end, whatever all others do. */
  lemma ViewedThenConfirmed(n: nat, tasks: seq<Task>, i: nat, c: int, j: nat, k: nat)
    requires i < n && j < k < |tasks| && tasks[j] == View(i, c) && tasks[k] == Confirm(i, c)
    requires i < |Fold(n, tasks[..j]).seats| && Fold(n, tasks[..j]).seats[i].state == Available
    requires forall m :: j < m < k ==> tasks[m] != Cancel(i, c)
    ensures i < |Fold(n, tasks).seats| && Fold(n, tasks).seats[i] == Seat(Occupied, c)
  {
    ViewerKeepsSeat(n, tasks, i, c, j, k);
    FoldStep(n, tasks, k);
    SeatRules(Fold(n, tasks[..k]), tasks[k], i);
    assert tasks == tasks[..k + 1] + tasks[k + 1..];
    OccupiedForEver(n, tasks[..k + 1], tasks[k + 1..], i);
  }

  /** The task that gives seat `i` to customer `c` for good: the holder confirms it, or
      he cancels it while `c` is first on standby. */
  predicate Gives(t: Table, task: Task, i: nat, c: int) {
    && i < |t.seats| && t.seats[i].state == Pending && task.seat == i && task.customer == t.seats[i].customer
    && (if task.Confirm? then c == task.customer else task.Cancel? && t.standby != [] && c == t.standby[0])
  }

  lemma SeatGiven(t: Table, task: Task, i: nat, c: int)
    requires i < |t.seats|
    ensures |Apply(t, task).seats| == |t.seats|
    ensures Apply(t, task).seats[i] == Seat(Occupied, c) <==> t.seats[i] == Seat(Occupied, c) || Gives(t, task, i, c)
  {
    SeatRules(t, task, i);
  }

  /** Task `k` of the run is the one. */
  predicate GivesAt(n: nat, tasks: seq<Task>, i: nat, c: int, k: nat) {
    k < |tasks| && Gives(Fold(n, tasks[..k]), tasks[k], i, c)
  }

  lemma GivesAtBefore(n: nat, tasks: seq<Task>, i: nat, c: int, k: nat)
    requires k + 1 < |tasks|
    ensures GivesAt(n, tasks[..|tasks| - 1], i, c, k) == GivesAt(n, tasks, i, c, k)
  {
    assert tasks[..|tasks| - 1][..k] == tasks[..k];
  }

  /** Over every run a seat is occupied by a customer if and only if some task gave it
      to him. */
  lemma {:induction false} OccupiedBecause(n: nat, tasks: seq<Task>, i: nat, c: int)
    requires i < n
    ensures |Fold(n, tasks).seats| == n
    ensures Fold(n, tasks).seats[i] == Seat(Occupied, c) <==> exists k :: GivesAt(n, tasks, i, c, k)
  {
    StandbyIsFifo(n, tasks);
    if tasks != [] {
      var m := |tasks| - 1;
      var before := tasks[..m];
      OccupiedBecause(n, before, i, c);
      SeatGiven(Fold(n, before), tasks[m], i, c);
      forall k: nat | k < m ensures GivesAt(n, before, i, c, k) == GivesAt(n, tasks, i, c, k) {
        GivesAtBefore(n, tasks, i, c, k);
      }
      assert GivesAt(n, tasks, i, c, m) == Gives(Fold(n, before), tasks[m], i, c);
    }
  }
}
