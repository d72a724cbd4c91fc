/** The task queue of thread_pool.c: a circular array with no test for being
    full. */
module TaskRings {
  datatype Ring<T> = Ring(buf: seq<T>, start: nat, end: nat)

  predicate RingOk<T>(r: Ring<T>) {
    r.start < |r.buf| && r.end < |r.buf|
  }

  /** The test of the workers. */
  predicate Empty<T>(r: Ring<T>) {
    r.start == r.end
  }

  /** The tasks added and not yet taken, in order, as long as fewer than
      task_queue_size_limit of them ever waited at once. */
  function Contents<T>(r: Ring<T>): seq<T>
    requires RingOk(r)
  {
    if r.start <= r.end then r.buf[r.start..r.end] else r.buf[r.start..] + r.buf[..r.end]
  }

  function Written<T>(r: Ring<T>, x: T): Ring<T>
    requires RingOk(r)
  {
    r.(buf := r.buf[r.end := x])
  }

  function Advanced<T>(r: Ring<T>): Ring<T>
    requires RingOk(r)
  {
    r.(end := (r.end + 1) % |r.buf|)
  }

  /** pool_add_task */
  function Put<T>(r: Ring<T>, x: T): Ring<T>
    requires RingOk(r)
  {
    Advanced(Written(r, x))
  }

  /** What a worker does to the queue. */
  function Taken<T>(r: Ring<T>): Ring<T>
    requires RingOk(r)
  {
    r.(start := (r.start + 1) % |r.buf|)
  }

  lemma NextIndex(i: nat, n: nat)
    requires i < n
    ensures (i + 1) % n == if i + 1 == n then 0 else i + 1
  {
    if i + 1 < n {
      SmallModulus(i + 1, n);
    }
  }

  lemma SmallModulus(i: nat, n: nat)
    requires i < n
    ensures i % n == i
  {
  }

  lemma WrappedIndex(i: nat, n: nat)
    requires n <= i < 2 * n
    ensures i % n == i - n
  {
    var q, m := i / n, i % n;
    assert i == n * q + m && 0 <= m < n;
    assert q >= 2 ==> n * q >= n * 2;
    assert q <= 0 ==> n * q <= 0;
    assert q == 1;
  }

  /** Slot by slot: the task `k` places behind the first. */
  lemma ContentsAt<T>(r: Ring<T>, k: nat)
    requires RingOk(r) && k < |Contents(r)|
    ensures Contents(r)[k] == r.buf[(r.start + k) % |r.buf|]
  {
    if r.start + k < |r.buf| {
      SmallModulus(r.start + k, |r.buf|);
    } else {
      WrappedIndex(r.start + k, |r.buf|);
    }
  }

  /** Adding a task appends it if and only if the array does not fill up; the task
      that fills it makes the queue look empty, so that all of them are lost. */
  lemma PutAppends<T>(r: Ring<T>, x: T)
    requires RingOk(r)
    ensures RingOk(Put(r, x)) && |Contents(r)| < |r.buf|
    ensures Contents(Put(r, x)) == Contents(r) + [x] <==> |Contents(r)| + 1 < |r.buf|
    ensures |Contents(r)| + 1 == |r.buf| ==> Empty(Put(r, x)) && Contents(Put(r, x)) == []
  {
    NextIndex(r.end, |r.buf|);
    WrittenKeeps(r, x);
    var w := Written(r, x);
    AdvancedAppends(w);
    assert Contents(Put(r, x)) == [] ==> Contents(Put(r, x)) != Contents(r) + [x];
  }

  lemma WrittenKeeps<T>(r: Ring<T>, x: T)
    requires RingOk(r)
    ensures RingOk(Written(r, x)) && Contents(Written(r, x)) == Contents(r)
  {
  }

  lemma AdvancedAppends<T>(r: Ring<T>)
    requires RingOk(r)
    ensures RingOk(Advanced(r))
    ensures Contents(Advanced(r)) == if |Contents(r)| + 1 < |r.buf| then Contents(r) + [r.buf[r.end]] else []
  {
    var b, i, j := r.buf, r.start, r.end;
    NextIndex(j, |b|);
    assert b[..j + 1] == b[..j] + [b[j]];
    if i <= j {
      assert b[i..j + 1] == b[i..j] + [b[j]];
      if j + 1 == |b| {
        assert b[i..] + b[..0] == b[i..j + 1];
      }
    } else {
      assert b[i..] + b[..j + 1] == b[i..] + b[..j] + [b[j]];
    }
  }

  /** Taking removes the first task; a queue is empty exactly when it looks so. */
  lemma TakenIsFirst<T>(r: Ring<T>)
    requires RingOk(r)
    ensures Contents(r) == [] <==> Empty(r)
    ensures !Empty(r) ==> RingOk(Taken(r)) && Contents(r) == [r.buf[r.start]] + Contents(Taken(r))
  {
    var b, i, j := r.buf, r.start, r.end;
    NextIndex(i, |b|);
    if i < j {
      assert b[i..j] == [b[i]] + b[i + 1..j];
    } else if i > j {
      assert b[i..] == [b[i]] + b[i + 1..];
      assert b[i..] + b[..j] == [b[i]] + (b[i + 1..] + b[..j]);
      if i + 1 == |b| {
        assert b[i + 1..] + b[..j] == b[0..j];
      }
    }
  }

  /** Two tasks added to an array of two: both are lost. */
  lemma FillExample(x: int, y: int)
    ensures Contents(Put(Put(Ring([0, 0], 0, 0), x), y)) == []
  {
    PutAppends(Ring([0, 0], 0, 0), x);
    PutAppends(Put(Ring([0, 0], 0, 0), x), y);
  }

  // ----- whole runs

  datatype Op<T> = Add(task: T) | TakeOne

  /** A queue with the tasks ever added and the tasks ever taken. */
  datatype Log<T> = Log(ring: Ring<T>, added: seq<T>, taken: seq<T>)

  function Do<T>(l: Log<T>, op: Op<T>): Log<T>
    requires RingOk(l.ring)
  {
    match op
    case Add(x) => Log(Put(l.ring, x), l.added + [x], l.taken)
    case TakeOne => if Empty(l.ring) then l else Log(Taken(l.ring), l.added, l.taken + [l.ring.buf[l.ring.start]])
  }

  ghost predicate Fifo<T>(l: Log<T>) {
    RingOk(l.ring) && l.taken + Contents(l.ring) == l.added
  }

  /** The operation that fills the array. */
  predicate Fills<T>(l: Log<T>, op: Op<T>)
    requires RingOk(l.ring)
  {
    op.Add? && |Contents(l.ring)| + 1 == |l.ring.buf|
  }

  /** Tasks added and neither taken nor in the queue. */
  function Lost<T>(l: Log<T>): int
    requires RingOk(l.ring)
  {
    |l.added| - |l.taken| - |Contents(l.ring)|
  }

  /** Filling the array loses every task in it; nothing else loses or finds one. */
  lemma DoLoses<T>(l: Log<T>, op: Op<T>)
    requires RingOk(l.ring)
    ensures RingOk(Do(l, op).ring) && |Do(l, op).ring.buf| == |l.ring.buf|
    ensures Lost(Do(l, op)) == Lost(l) + if Fills(l, op) then |l.ring.buf| else 0
  {
    if op.Add? { PutAppends(l.ring, op.task); } else { TakenIsFirst(l.ring); }
  }

  lemma AddKeepsFifo<T>(l: Log<T>, x: T)
    requires Fifo(l) && !Fills(l, Add(x))
    ensures Fifo(Do(l, Add(x)))
  {
    PutAppends(l.ring, x);
    assert l.taken + (Contents(l.ring) + [x]) == l.taken + Contents(l.ring) + [x];
  }

  lemma TakeKeepsFifo<T>(l: Log<T>)
    requires Fifo(l)
    ensures Fifo(Do(l, TakeOne))
  {
    TakenIsFirst(l.ring);
    if !Empty(l.ring) {
      var x, rest := l.ring.buf[l.ring.start], Contents(Taken(l.ring));
      assert l.taken + [x] + rest == l.taken + ([x] + rest);
    }
  }

  /** Across any number of wraparounds, one operation keeps the queue first-in,
      first-out exactly when it does not fill the array. */
  lemma DoKeepsFifo<T>(l: Log<T>, op: Op<T>)
    requires Fifo(l)
    ensures Fifo(Do(l, op)) <==> !Fills(l, op)
  {
    DoLoses(l, op);
    FifoLosesNothing(l);
    FifoLosesNothing(Do(l, op));
    if op.Add? {
      if !Fills(l, op) { AddKeepsFifo(l, op.task); }
    } else {
      TakeKeepsFifo(l);
    }
  }

  /** The log after a run on a new queue; `buf` is whatever the array held. */
  function Run<T>(buf: seq<T>, ops: seq<Op<T>>): (l: Log<T>)
    requires buf != []
    ensures RingOk(l.ring) && |l.ring.buf| == |buf|
  {
    if ops == [] then Log(Ring(buf, 0, 0), [], [])
    else
      var before := Run(buf, ops[..|ops| - 1]);
      DoLoses(before, ops[|ops| - 1]);
      Do(before, ops[|ops| - 1])
  }

  /** Some task in the run filled the array. */
  predicate EverFilled<T>(buf: seq<T>, ops: seq<Op<T>>)
    requires buf != []
  {
    ops != [] && (EverFilled(buf, ops[..|ops| - 1]) || Fills(Run(buf, ops[..|ops| - 1]), ops[|ops| - 1]))
  }

  /** Over every run the tasks taken, followed by those in the queue, are the tasks
      added, in order, if and only if no task ever filled the array; from the first
      one that does, tasks are missing for ever. */
  lemma {:induction false} RunKeepsFifo<T>(buf: seq<T>, ops: seq<Op<T>>)
    requires buf != []
    ensures Fifo(Run(buf, ops)) <==> !EverFilled(buf, ops)
    ensures Lost(Run(buf, ops)) >= 0 && (Lost(Run(buf, ops)) > 0 <==> EverFilled(buf, ops))
  {
    if ops != [] {
      var before, op := ops[..|ops| - 1], ops[|ops| - 1];
      var l := Run(buf, before);
      RunKeepsFifo(buf, before);
      DoLoses(l, op);
      FifoLosesNothing(Do(l, op));
      if Fifo(l) { DoKeepsFifo(l, op); }
    }
  }

  lemma FifoLosesNothing<T>(l: Log<T>)
    requires RingOk(l.ring)
    ensures Fifo(l) ==> Lost(l) == 0
  {
  }

  /** An unbounded queue after the same run: the tasks that wait, and those taken. */
  function Unbounded<T>(ops: seq<Op<T>>): (seq<T>, seq<T>) {
    if ops == [] then ([], [])
    else
      var (waiting, out) := Unbounded(ops[..|ops| - 1]);
      match ops[|ops| - 1]
      case Add(x) => (waiting + [x], out)
      case TakeOne => if waiting == [] then (waiting, out) else (waiting[1..], out + [waiting[0]])
  }

  lemma {:induction false} NothingIsLostUnbounded<T>(buf: seq<T>, ops: seq<Op<T>>)
    requires buf != []
    ensures Unbounded(ops).1 + Unbounded(ops).0 == Run(buf, ops).added
  {
    if ops != [] {
      var before := ops[..|ops| - 1];
      var (waiting, out) := Unbounded(before);
      NothingIsLostUnbounded(buf, before);
      assert ops[|ops| - 1].Add? ==> out + (waiting + [ops[|ops| - 1].task]) == out + waiting + [ops[|ops| - 1].task];
      assert waiting != [] ==> out + [waiting[0]] + waiting[1..] == out + waiting;
    }
  }

  /** The array does what an unbounded queue does. */
  ghost predicate LikeUnbounded<T>(buf: seq<T>, ops: seq<Op<T>>)
    requires buf != []
  {
    (Contents(Run(buf, ops).ring), Run(buf, ops).taken) == Unbounded(ops)
  }

  lemma StepIsLikeUnbounded<T>(buf: seq<T>, ops: seq<Op<T>>)
    requires buf != [] && ops != [] && LikeUnbounded(buf, ops[..|ops| - 1])
    requires !Fills(Run(buf, ops[..|ops| - 1]), ops[|ops| - 1])
    ensures LikeUnbounded(buf, ops)
  {
    var l, op := Run(buf, ops[..|ops| - 1]), ops[|ops| - 1];
    if op.Add? {
      PutAppends(l.ring, op.task);
    } else {
      TakenIsFirst(l.ring);
    }
  }

  /** Over every run the array holds and gives out, in order, what an unbounded queue
      would, if and only if no task ever filled it. */
  lemma {:induction false} RefinesUnbounded<T>(buf: seq<T>, ops: seq<Op<T>>)
    requires buf != []
    ensures LikeUnbounded(buf, ops) <==> !EverFilled(buf, ops)
  {
    RunKeepsFifo(buf, ops);
    NothingIsLostUnbounded(buf, ops);
    if ops != [] && !EverFilled(buf, ops) {
      RefinesUnbounded(buf, ops[..|ops| - 1]);
      StepIsLikeUnbounded(buf, ops);
    }
  }

  /** The queue as thread_pool.c keeps it. */
  class TaskRing<T(0)> {
    const limit: nat
    const queue: array<T>
    var qStart: nat
    var qEnd: nat

    ghost predicate Valid()
      reads this, queue
    {
      queue.Length == limit && RingOk(Abs())
    }

    ghost function Abs(): Ring<T>
      reads this, queue
    {
      Ring(queue[..], qStart, qEnd)
    }

    constructor (queueSize: nat)
      requires queueSize > 0
      ensures Valid() && Empty(Abs()) && limit == queueSize && fresh(queue)
    {
      limit := queueSize;
      queue := new T[queueSize];
      qStart, qEnd := 0, 0;
    }

    method AddTask(argument: T)
      requires Valid()
      modifies this`qEnd, queue
      ensures Valid() && Abs() == Put(old(Abs()), argument)
      ensures |Contents(old(Abs()))| + 1 < limit ==> Contents(Abs()) == Contents(old(Abs())) + [argument]
    {
      PutAppends(Abs(), argument);
      queue[qEnd] := argument;
      qEnd := (qEnd + 1) % limit;
    }

    method TakeTask() returns (found: bool, argument: T)
      requires Valid()
      modifies this`qStart
      ensures Valid() && (found <==> Contents(old(Abs())) != [])
      ensures found ==> Contents(old(Abs())) == [argument] + Contents(Abs()) && Abs() == Taken(old(Abs()))
      ensures !found ==> Abs() == old(Abs())
    {
      TakenIsFirst(Abs());
      ghost var r := Abs();
      argument := queue[qStart];
      found := qStart != qEnd;
      if found {
        qStart := (qStart + 1) % limit;
        assert Abs() == Taken(r);
      }
    }
  }
}
