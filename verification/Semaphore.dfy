/** The semaphore of semaphore.c, built from a mutex and a condition variable, as
    a machine in which any number of threads take their steps in any order. Every
    thread waits, works inside the guarded section, and posts, for ever. */
module Semaphores {
  import opened Wrappers

  /** Where a thread is: outside; in sem_wait before the lock, at the test, asleep,
      awake without the lock, before the unlock; inside the section; in sem_post
      before the lock, the increment, the broadcast, the unlock. */
  datatype Pc = Idle | Locking | Testing | Parked | Woken | Leaving | Inside | Posting | Raising | Waking | Unlocking

  datatype Sem = Sem(count: int, owner: Option<nat>, pcs: seq<Pc>)

  /** A thread's own next step, or a wakeup nobody asked for. */
  datatype Action = Run(t: nat) | Spurious(t: nat)

  function Start(n: nat): Sem {
    Sem(1, None, seq(n, i => Idle))
  }

  function At(s: Sem, t: nat, pc: Pc): Sem
    requires t < |s.pcs|
  {
    s.(pcs := s.pcs[t := pc])
  }

  function Acquired(s: Sem, t: nat, pc: Pc): Option<Sem>
    requires t < |s.pcs|
  {
    if s.owner == None then Some(At(s, t, pc).(owner := Some(t))) else None
  }

  function Released(s: Sem, t: nat, pc: Pc): Sem
    requires t < |s.pcs|
  {
    At(s, t, pc).(owner := None)
  }

  function AllWoken(pcs: seq<Pc>): (r: seq<Pc>)
    ensures |r| == |pcs| && forall i :: 0 <= i < |pcs| ==> r[i] == if pcs[i] == Parked then Woken else pcs[i]
  {
    seq(|pcs|, i requires 0 <= i < |pcs| => if pcs[i] == Parked then Woken else pcs[i])
  }

  /** None: the step is not enabled. */
  function Step(s: Sem, a: Action): Option<Sem> {
    if a.t >= |s.pcs| then None
    else if a.Spurious? then (if s.pcs[a.t] == Parked then Some(At(s, a.t, Woken)) else None)
    else
      match s.pcs[a.t]
      case Idle => Some(At(s, a.t, Locking))
      case Locking => Acquired(s, a.t, Testing)
      case Testing =>
        Some(if s.count <= 0 then Released(s, a.t, Parked) else At(s, a.t, Leaving).(count := s.count - 1))
      case Parked => None
      case Woken => Acquired(s, a.t, Testing)
      case Leaving => Some(Released(s, a.t, Inside))
      case Inside => Some(At(s, a.t, Posting))
      case Posting => Acquired(s, a.t, Raising)
      case Raising => Some(At(s, a.t, Waking).(count := s.count + 1))
      case Waking => Some(At(s.(pcs := AllWoken(s.pcs)), a.t, Unlocking))
      case Unlocking => Some(Released(s, a.t, Idle))
  }

  function Exec(n: nat, run: seq<Action>): Option<Sem> {
    if run == [] then Some(Start(n))
    else
      var before := Exec(n, run[..|run| - 1]);
      if before.None? then None else Step(before.value, run[|run| - 1])
  }

  predicate Owns(pc: Pc) {
    pc.Testing? || pc.Leaving? || pc.Raising? || pc.Waking? || pc.Unlocking?
  }

  /** Between the decrement and the increment of the count. */
  predicate Holds(pc: Pc) {
    pc.Leaving? || pc.Inside? || pc.Posting? || pc.Raising?
  }

  function Holders(pcs: seq<Pc>): set<nat> {
    set t: nat | t < |pcs| && Holds(pcs[t])
  }

  ghost predicate Inv(s: Sem) {
    && (s.owner.Some? ==> s.owner.value < |s.pcs|)
    && (forall t :: 0 <= t < |s.pcs| ==> (Owns(s.pcs[t]) <==> s.owner == Some(t)))
    && s.count >= 0 && s.count + |Holders(s.pcs)| == 1
    && (forall t :: 0 <= t < |s.pcs| && s.pcs[t] == Parked && s.count > 0 ==>
          s.owner.Some? && s.pcs[s.owner.value] == Waking)
  }

  lemma HoldersAfter(pcs: seq<Pc>, t: nat, pc: Pc)
    requires t < |pcs|
    ensures Holders(pcs[t := pc]) == if Holds(pc) then Holders(pcs) + {t} else Holders(pcs) - {t}
    ensures t in Holders(pcs) <==> Holds(pcs[t])
  {
  }

  lemma WakingKeepsHolders(pcs: seq<Pc>)
    ensures Holders(AllWoken(pcs)) == Holders(pcs)
  {
  }

  /** The size of a set that has one element more or less. */
  lemma OneMore(a: set<nat>, t: nat)
    ensures |a + {t}| == if t in a then |a| else |a| + 1
    ensures |a - {t}| == if t in a then |a| - 1 else |a|
  {
    assert t in a ==> a + {t} == a;
    assert t !in a ==> a - {t} == a;
  }

  predicate Decrements(s: Sem, a: Action)
    requires a.t < |s.pcs|
  {
    a.Run? && s.pcs[a.t] == Testing && s.count > 0
  }

  predicate Increments(s: Sem, a: Action)
    requires a.t < |s.pcs|
  {
    a.Run? && s.pcs[a.t] == Raising
  }

  /** Who holds the semaphore changes with the count, and only then. */
  lemma HoldersFollowCount(s: Sem, a: Action)
    requires Step(s, a).Some?
    ensures var u := Step(s, a).value;
            if Decrements(s, a) then
              Holders(u.pcs) == Holders(s.pcs) + {a.t} && a.t !in Holders(s.pcs) && u.count == s.count - 1
            else if Increments(s, a) then
              Holders(u.pcs) == Holders(s.pcs) - {a.t} && a.t in Holders(s.pcs) && u.count == s.count + 1
            else Holders(u.pcs) == Holders(s.pcs) && u.count == s.count
  {
    var u := Step(s, a).value;
    if s.pcs[a.t] == Waking {
      WakingKeepsHolders(s.pcs);
      HoldersAfter(AllWoken(s.pcs), a.t, Unlocking);
      HoldersAfter(s.pcs, a.t, Unlocking);
    } else {
      assert u.pcs == s.pcs[a.t := u.pcs[a.t]];
      HoldersAfter(s.pcs, a.t, u.pcs[a.t]);
    }
  }

  /** What a step does to the other threads. */
  lemma OthersStay(s: Sem, a: Action)
    requires Step(s, a).Some?
    ensures var u := Step(s, a).value;
            && |u.pcs| == |s.pcs|
            && forall t :: 0 <= t < |s.pcs| && t != a.t ==>
                 u.pcs[t] == if a.Run? && s.pcs[a.t] == Waking && s.pcs[t] == Parked then Woken else s.pcs[t]
  {
  }

  lemma OwnerKept(s: Sem, a: Action)
    requires Inv(s) && Step(s, a).Some?
    ensures var u := Step(s, a).value;
            && (u.owner.Some? ==> u.owner.value < |u.pcs|)
            && |u.pcs| == |s.pcs|
            && forall t :: 0 <= t < |u.pcs| ==> (Owns(u.pcs[t]) <==> u.owner == Some(t))
  {
    OthersStay(s, a);
    assert Owns(s.pcs[a.t]) <==> s.owner == Some(a.t);
  }

  lemma StepKeepsInv(s: Sem, a: Action)
    requires Inv(s) && Step(s, a).Some?
    ensures Inv(Step(s, a).value)
  {
    OwnerKept(s, a);
    HoldersFollowCount(s, a);
    OneMore(Holders(s.pcs), a.t);
    SleepersWait(s, a);
  }

  lemma SleepersWait(s: Sem, a: Action)
    requires Inv(s) && Step(s, a).Some?
    requires Step(s, a).value.owner.Some? ==> Step(s, a).value.owner.value < |Step(s, a).value.pcs|
    ensures var u := Step(s, a).value;
            forall t :: 0 <= t < |u.pcs| && u.pcs[t] == Parked && u.count > 0 ==>
              u.owner.Some? && u.pcs[u.owner.value] == Waking
  {
    OthersStay(s, a);
    assert Owns(s.pcs[a.t]) <==> s.owner == Some(a.t);
  }

  lemma StartInv(n: nat)
    ensures Inv(Start(n))
  {
    assert Holders(Start(n).pcs) == {};
  }

  lemma {:induction false} RunKeepsInv(n: nat, run: seq<Action>)
    requires Exec(n, run).Some?
    ensures Inv(Exec(n, run).value) && |Exec(n, run).value.pcs| == n
  {
    StartInv(n);
    if run != [] {
      RunKeepsInv(n, run[..|run| - 1]);
      StepKeepsInv(Exec(n, run[..|run| - 1]).value, run[|run| - 1]);
    }
  }

  /** Under the invariant at most one thread holds the semaphore. */
  lemma OnlyOneHolds(s: Sem, t: nat, u: nat)
    requires Inv(s) && t < |s.pcs| && u < |s.pcs| && Holds(s.pcs[t]) && Holds(s.pcs[u])
    ensures t == u
  {
    OneMore(Holders(s.pcs), t);
    OneMore(Holders(s.pcs) - {t}, u);
  }

  /** Mutual exclusion in every reachable state, under broadcast and spurious
      wakeups alike; the count is 1 when nobody holds the semaphore and 0 when
      somebody does. */
  lemma MutualExclusion(n: nat, run: seq<Action>, t: nat, u: nat)
    requires Exec(n, run).Some? && t < n && u < n
    ensures |Exec(n, run).value.pcs| == n
    ensures var s := Exec(n, run).value;
            && (Holds(s.pcs[t]) && Holds(s.pcs[u]) ==> t == u)
            && (s.count == 0 || s.count == 1)
            && (s.count == 1 <==> Holders(s.pcs) == {})
  {
    RunKeepsInv(n, run);
    var s := Exec(n, run).value;
    if Holds(s.pcs[t]) && Holds(s.pcs[u]) { OnlyOneHolds(s, t, u); }
    if s.count == 1 { assert Holders(s.pcs) == {}; }
  }

  /** An abstract semaphore: who holds it. A step of the machine either leaves it
      alone, or is the P of the thread that steps, taken while nobody holds the
      semaphore, or the V of its holder. */
  lemma StepRefines(s: Sem, a: Action)
    requires Inv(s) && Step(s, a).Some?
    ensures var h, g := Holders(s.pcs), Holders(Step(s, a).value.pcs);
            if Decrements(s, a) then h == {} && g == {a.t}
            else if Increments(s, a) then h == {a.t} && g == {}
            else g == h
  {
    HoldersFollowCount(s, a);
    var h := Holders(s.pcs);
    OneMore(h, a.t);
    assert h == {} <==> |h| == 0;
    assert Increments(s, a) ==> |h - {a.t}| == 0 && h == {a.t} + (h - {a.t});
  }

  predicate Enabled(s: Sem, t: nat) {
    t < |s.pcs| && !s.pcs[t].Idle? && Step(s, Run(t)).Some?
  }

  /** No reachable state is stuck: while some thread is waiting, inside or posting,
      one such thread can step, without any spurious wakeup. */
  lemma NeverStuck(n: nat, run: seq<Action>, t: nat)
    requires Exec(n, run).Some? && t < n && |Exec(n, run).value.pcs| == n && !Exec(n, run).value.pcs[t].Idle?
    ensures exists u: nat :: Enabled(Exec(n, run).value, u)
  {
    RunKeepsInv(n, run);
    var s := Exec(n, run).value;
    if s.owner.Some? {
      assert Enabled(s, s.owner.value);
    } else if s.pcs[t] != Parked {
      assert Enabled(s, t);
    } else {
      assert s.count == 0;
      var h :| h in Holders(s.pcs);
      assert Enabled(s, h);
    }
  }
}
