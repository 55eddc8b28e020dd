/** No interleaving gets stuck.  A lock's holder is never itself waiting, so whenever some call
    is running some call can move, every move uses up work, and every run can be completed. */
module Progress {
  import opened Machine
  import opened ThreadSums
  import opened Interleaving
  import opened Solo

  /** Thread `t` has a step to take that is not a wait. */
  predicate CanMove(s: State, t: nat) {
    t < |s.threads| && s.threads[t].Running? && !Blocked(s, s.threads[t].prog)
  }

  /** The thread to move: a running one, or the holder of the lock it waits for. */
  lemma Mover(s: State, t: nat) returns (u: nat)
    requires LockInv(s) && t < |s.threads| && s.threads[t].Running?
    ensures CanMove(s, u)
  {
    u := t;
    if Blocked(s, s.threads[t].prog) {
      var id := s.threads[t].prog.lock;
      assert StoreLocked(s, id);
      u := s.stores.Get(id).lock.value;
      assert ThreadDisciplined(s, u);
    }
  }

  /** In every interleaving, while any call is running some thread can take a step. */
  lemma NoDeadlock(s: State, steps: seq<Step>)
    requires Init(s) && !Quiescent(Run(s, steps))
    ensures exists u :: CanMove(Run(s, steps), u)
  {
    InitLocked(s);
    LockRun(s, steps);
    var t :| 0 <= t < |s.threads| && !Run(s, steps).threads[t].Idle?;
    var u := Mover(Run(s, steps), t);
  }

  ghost function Work(s: State): int {
    Sum(s.threads, (th: Thread) => Remaining(th))
  }

  lemma MoveWorks(s: State, t: nat)
    requires CanMove(s, t)
    ensures Work(Exec(s, t)) < Work(s)
  {
    var s' := Exec(s, t);
    assert s'.threads == s.threads[t := s'.threads[t]];
    SumUpdate(s.threads, t, s'.threads[t], (th: Thread) => Remaining(th));
    assert Remaining(s'.threads[t]) < Remaining(s.threads[t]);
  }

  lemma {:induction false} WorkNonNegative(threads: seq<Thread>)
    ensures Sum(threads, (th: Thread) => Remaining(th)) >= 0
  {
    if threads != [] {
      WorkNonNegative(threads[1..]);
    }
  }

  lemma {:induction false} Drain(s: State) returns (rest: seq<Step>)
    requires LockInv(s)
    ensures Quiescent(Run(s, rest)) && forall i :: 0 <= i < |rest| ==> rest[i].Go?
    ensures |rest| <= Work(s)
    decreases Work(s)
  {
    WorkNonNegative(s.threads);
    rest := [];
    if !Quiescent(s) {
      var t :| 0 <= t < |s.threads| && !s.threads[t].Idle?;
      var u := Mover(s, t);
      MoveWorks(s, u);
      LockStep(s, Go(u));
      WorkNonNegative(Exec(s, u).threads);
      var later := Drain(Exec(s, u));
      rest := [Go(u)] + later;
      RunFirst(s, rest);
      assert rest[1..] == later;
    }
  }

  /** Every run can be completed: from wherever it stands, letting the threads finish, with no
      new calls, brings every call to its return and frees every lock. */
  lemma EveryRunCompletes(s: State, steps: seq<Step>) returns (rest: seq<Step>)
    requires Init(s)
    ensures forall i :: 0 <= i < |rest| ==> rest[i].Go?
    ensures Quiescent(Run(s, steps + rest))
    ensures forall id :: Run(s, steps + rest).stores.Get(id).lock.None?
    ensures |rest| <= Work(Run(s, steps))
  {
    InitLocked(s);
    LockRun(s, steps);
    rest := Drain(Run(s, steps));
    RunConcat(s, steps, rest);
    LockRun(s, steps + rest);
    var e := Run(s, steps + rest);
    forall id ensures e.stores.Get(id).lock.None? {
      assert StoreLocked(e, id);
      if e.stores.Get(id).lock.Some? {
        assert ThreadDisciplined(e, e.stores.Get(id).lock.value);
      }
    }
  }
}
