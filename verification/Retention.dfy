/** When an entry is safe.  Read off any reachable state, the exact condition under which a key
    stays listed until another delete of it begins: the copies of the key, with the one about to
    be appended, outnumber the deletes of it that have yet to unlink. */
module Retention {
  import opened Kernel
  import opened Policy
  import opened Machine
  import opened ThreadSums
  import opened PolicyStore
  import opened Interleaving
  import opened Solo
  import opened Progress

  // ----- how threads come to append and unlink -------------------------------

  /** Where a delete of `key` can be. */
  predicate DelStage(p: Prog, key: Key) {
    var id := StoreOf(key);
    || p == DelProg(key)
    || p == DelProg(key).next
    || p == CountDec(id, Release(id, Done(0)))
    || p == Release(id, Done(0))
    || p == Release(id, Done(-ENOENT))
    || p.Ret?
  }

  ghost predicate Tracked(th: Thread) {
    th.Running? ==> Orderly(th.prog, Target(th.call)) && (th.call.Del? ==> DelStage(th.prog, th.call.key))
  }

  ghost predicate OrderInv(s: State) {
    && LockInv(s)
    && (forall t :: 0 <= t < |s.threads| ==> Tracked(s.threads[t]))
    && (forall id :: s.stores.Get(id).count >= 0)
  }

  lemma CountExec(s: State, t: nat, id: StoreId)
    requires LockInv(s) && t < |s.threads| && s.threads[t].Running? && s.stores.Get(id).count >= 0
    ensures Exec(s, t).stores.Get(id).count >= 0
  {
    assert ThreadDisciplined(s, t);
  }

  lemma OrderStep(s: State, step: Step)
    requires OrderInv(s)
    ensures OrderInv(Apply(s, step))
  {
    LockStep(s, step);
    var t := step.thread;
    if t < |s.threads| {
      if step.Start? {
        CodeFresh(step.call);
      } else if s.threads[t].Running? {
        forall id ensures Exec(s, t).stores.Get(id).count >= 0 {
          CountExec(s, t, id);
        }
      }
    }
  }

  lemma {:induction false} OrderRun(s: State, steps: seq<Step>)
    requires OrderInv(s)
    ensures OrderInv(Run(s, steps))
    decreases |steps|
  {
    if steps != [] {
      OrderRun(s, steps[..|steps| - 1]);
      OrderStep(Run(s, steps[..|steps| - 1]), steps[|steps| - 1]);
    }
  }

  lemma InitOrdered(s: State)
    requires Init(s)
    ensures OrderInv(s)
  {
    InitLocked(s);
    forall id ensures s.stores.Get(id).count >= 0 {
      assert StartStore(s.stores.Get(id), id);
    }
  }

  // ----- the margin ----------------------------------------------------------

  function ListOf(s: State, key: Key): seq<Key> {
    s.stores.Get(StoreOf(key)).list
  }

  /** A delete of `key` that may still unlink it. */
  ghost function Deleting(key: Key): Thread -> int {
    (th: Thread) => if th.Running? && th.call == Del(key) && (th.prog == DelProg(key) || th.prog == DelProg(key).next) then 1 else 0
  }

  /** A thread inside the critical section whose next access appends `key`. */
  ghost function Appending(key: Key): Thread -> int {
    (th: Thread) => if th.Running? && th.prog.Append? && th.prog.key == key then 1 else 0
  }

  /** The copies of `key`, present or just being appended, beyond the deletes yet to unlink. */
  ghost function Margin(s: State, key: Key): int {
    Copies(ListOf(s, key), key) + Sum(s.threads, Appending(key)) - Sum(s.threads, Deleting(key))
  }

  /** Thread `t` takes the lock in order to append `key`. */
  predicate EntersToAppend(s: State, t: nat, key: Key)
    requires t < |s.threads| && s.threads[t].Running?
  {
    var p := s.threads[t].prog;
    p.Acquire? && s.stores.Get(p.lock).lock.None? && p.next.Append? && p.next.key == key
  }

  /** Thread `t` looks for `key` to unlink it and finds none. */
  predicate Misses(s: State, t: nat, key: Key)
    requires t < |s.threads| && s.threads[t].Running?
  {
    var p := s.threads[t].prog;
    p.Unlink? && p.gone == key && key !in ListOf(s, key)
  }

  lemma CopiesChange(s: State, t: nat, key: Key)
    requires t < |s.threads| && s.threads[t].Running?
    ensures var p := s.threads[t].prog;
            Copies(ListOf(Exec(s, t), key), key) == Copies(ListOf(s, key), key)
              + (if p.Append? && p.key == key then 1 else 0)
              - (if p.Unlink? && p.gone == key && key in ListOf(s, key) then 1 else 0)
  {
    var p, list := s.threads[t].prog, ListOf(s, key);
    ListAfter(s, t, StoreOf(key));
    if p.Unlink? && StoreOf(p.gone) == StoreOf(key) && p.gone in list {
      RemoveFirstCounts(list, p.gone);
    }
  }

  /** How a step changes what its own thread is about to do. */
  lemma IntentChange(s: State, t: nat, key: Key)
    requires t < |s.threads| && s.threads[t].Running? && Tracked(s.threads[t])
    ensures var p, th, th' := s.threads[t].prog, s.threads[t], Exec(s, t).threads[t];
            && Appending(key)(th') == Appending(key)(th)
                 - (if p.Append? && p.key == key then 1 else 0) + (if EntersToAppend(s, t, key) then 1 else 0)
            && Deleting(key)(th') == Deleting(key)(th) - (if p.Unlink? && p.gone == key then 1 else 0)
  {
  }

  /** A step never lowers the margin; it raises it only by entering to append or by missing. */
  lemma MarginExec(s: State, t: nat, key: Key)
    requires t < |s.threads| && s.threads[t].Running? && Tracked(s.threads[t])
    ensures Margin(Exec(s, t), key) == Margin(s, key)
              + (if EntersToAppend(s, t, key) then 1 else 0) + (if Misses(s, t, key) then 1 else 0)
  {
    var s' := Exec(s, t);
    CopiesChange(s, t, key);
    IntentChange(s, t, key);
    assert s'.threads == s.threads[t := s'.threads[t]];
    SumUpdate(s.threads, t, s'.threads[t], Appending(key));
    SumUpdate(s.threads, t, s'.threads[t], Deleting(key));
  }

  lemma MarginStart(s: State, t: nat, call: Call, key: Key)
    requires call != Del(key)
    ensures Margin(Apply(s, Start(t, call)), key) == Margin(s, key)
  {
    if t < |s.threads| && s.threads[t].Idle? {
      SumUpdate(s.threads, t, Running(call, Code(call), ZERO), Appending(key));
      SumUpdate(s.threads, t, Running(call, Code(call), ZERO), Deleting(key));
    }
  }

  /** While some thread holds the lock and is not itself about to append `key`, nobody is. */
  lemma NobodyAppends(s: State, t: nat, key: Key)
    requires LockInv(s) && t < |s.threads| && s.threads[t].Running?
    requires s.stores.Get(StoreOf(key)).lock == Some(t) && Appending(key)(s.threads[t]) == 0
    ensures Sum(s.threads, Appending(key)) == 0
  {
    forall u | 0 <= u < |s.threads| ensures Appending(key)(s.threads[u]) == 0 {
      assert ThreadDisciplined(s, u);
    }
    SumZero(s.threads, Appending(key));
  }

  lemma NobodyAppendsUnlocked(s: State, key: Key)
    requires LockInv(s) && s.stores.Get(StoreOf(key)).lock.None?
    ensures Sum(s.threads, Appending(key)) == 0
  {
    forall u | 0 <= u < |s.threads| ensures Appending(key)(s.threads[u]) == 0 {
      assert ThreadDisciplined(s, u);
    }
    SumZero(s.threads, Appending(key));
  }

  lemma {:induction false} DeletingSum(threads: seq<Thread>, key: Key)
    ensures Sum(threads, Deleting(key)) >= 0
    ensures Sum(threads, Deleting(key)) > 0 ==> exists t :: 0 <= t < |threads| && Deleting(key)(threads[t]) == 1
    ensures forall t :: 0 <= t < |threads| && Deleting(key)(threads[t]) == 1 ==> Sum(threads, Deleting(key)) > 0
  {
    if threads != [] {
      DeletingSum(threads[1..], key);
      if t :| 0 <= t < |threads[1..]| && Deleting(key)(threads[1..][t]) == 1 {
        assert Deleting(key)(threads[t + 1]) == 1;
      }
      forall t | 0 <= t < |threads| && Deleting(key)(threads[t]) == 1 ensures Sum(threads, Deleting(key)) > 0 {
        if t > 0 { assert Deleting(key)(threads[1..][t - 1]) == 1; }
      }
    }
  }

  // ----- a key with a margin stays -------------------------------------------

  ghost predicate Safe(s: State, key: Key) {
    key in ListOf(s, key) && Margin(s, key) > 0
  }

  /** A thread about to unlink `key` finds nobody appending and more copies than deletes. */
  lemma UnlinkLeavesOne(s: State, t: nat, key: Key)
    requires OrderInv(s) && Margin(s, key) > 0
    requires t < |s.threads| && s.threads[t].Running? && s.threads[t].prog.Unlink? && s.threads[t].prog.gone == key
    ensures Copies(ListOf(s, key), key) >= 2
  {
    assert ThreadDisciplined(s, t) && Tracked(s.threads[t]);
    NobodyAppends(s, t, key);
    DeletingSum(s.threads, key);
    assert Deleting(key)(s.threads[t]) == 1;
  }

  lemma SafeExec(s: State, t: nat, key: Key)
    requires OrderInv(s) && Safe(s, key) && t < |s.threads| && s.threads[t].Running?
    ensures Safe(Exec(s, t), key)
  {
    assert Tracked(s.threads[t]);
    MarginExec(s, t, key);
    CopiesChange(s, t, key);
    var p := s.threads[t].prog;
    if p.Unlink? && p.gone == key {
      UnlinkLeavesOne(s, t, key);
    } else {
      assert key in multiset(ListOf(s, key));
    }
    assert key in multiset(ListOf(Exec(s, t), key));
  }

  lemma {:induction false} SafeRun(s: State, steps: seq<Step>, key: Key)
    requires OrderInv(s) && Safe(s, key) && !BeginsDel(steps, key)
    ensures Safe(Run(s, steps), key)
    decreases |steps|
  {
    if steps != [] {
      SafeRun(s, steps[..|steps| - 1], key);
      OrderRun(s, steps[..|steps| - 1]);
      var mid, step := Run(s, steps[..|steps| - 1]), steps[|steps| - 1];
      if step.Start? {
        MarginStart(mid, step.thread, step.call, key);
      } else if step.thread < |mid.threads| && mid.threads[step.thread].Running? {
        SafeExec(mid, step.thread, key);
      }
    }
  }

  // ----- a key without one can be erased -------------------------------------

  /** Only threads already running move, and the settings stay as they are. */
  ghost predicate OnlyFinishes(s: State, steps: seq<Step>) {
    && (forall i :: 0 <= i < |steps| ==> steps[i].Go?)
    && Run(s, steps).cfg == s.cfg
    && (forall t :: 0 <= t < |s.threads| && s.threads[t].Idle? ==> Run(s, steps).threads[t] == s.threads[t])
  }

  lemma FinishesMore(s: State, u: nat, later: seq<Step>)
    requires u < |s.threads| && s.threads[u].Running? && Exec(s, u).cfg == s.cfg && OnlyFinishes(Exec(s, u), later)
    ensures Run(s, [Go(u)] + later) == Run(Exec(s, u), later) && OnlyFinishes(s, [Go(u)] + later)
  {
    var steps := [Go(u)] + later;
    RunFirst(s, steps);
    assert steps[1..] == later;
  }

  lemma FinishesThen(s: State, a: seq<Step>, b: seq<Step>)
    requires OnlyFinishes(s, a) && OnlyFinishes(Run(s, a), b)
    ensures Run(s, a + b) == Run(Run(s, a), b) && OnlyFinishes(s, a + b)
  {
    RunConcat(s, a, b);
  }

  /** A thread inside a critical section is not waiting and does not touch the settings. */
  lemma HolderMoves(s: State, id: StoreId, u: nat)
    requires LockInv(s) && s.stores.Get(id).lock == Some(u)
    ensures u < |s.threads| && CanMove(s, u) && !s.threads[u].prog.Acquire? && Exec(s, u).cfg == s.cfg
    ensures forall other :: other != id ==> Exec(s, u).stores.Get(other) == s.stores.Get(other)
  {
    assert StoreLocked(s, id);
    assert ThreadDisciplined(s, u);
  }

  /** Whom to let run so as to get rid of `key`: the holder of the lock, or a pending delete. */
  lemma NextEraser(s: State, key: Key) returns (u: nat)
    requires OrderInv(s) && Margin(s, key) <= 0
    requires key in ListOf(s, key) || s.stores.Get(StoreOf(key)).lock.Some?
    ensures CanMove(s, u) && Exec(s, u).cfg == s.cfg && Margin(Exec(s, u), key) <= 0
  {
    var lock := s.stores.Get(StoreOf(key)).lock;
    DeletingSum(s.threads, key);
    if lock.Some? {
      u := lock.value;
      HolderMoves(s, StoreOf(key), u);
      MarginExec(s, u, key);
      if Misses(s, u, key) {
        MissKeepsMargin(s, u, key);
      }
    } else {
      NobodyAppendsUnlocked(s, key);
      assert key in multiset(ListOf(s, key));
      u :| 0 <= u < |s.threads| && Deleting(key)(s.threads[u]) == 1;
      assert ThreadDisciplined(s, u);
      MarginExec(s, u, key);
    }
  }

  lemma MissKeepsMargin(s: State, u: nat, key: Key)
    requires OrderInv(s) && u < |s.threads| && s.threads[u].Running? && Misses(s, u, key)
    ensures Margin(s, key) < 0
  {
    assert ThreadDisciplined(s, u) && Tracked(s.threads[u]);
    NobodyAppends(s, u, key);
    DeletingSum(s.threads, key);
    assert Deleting(key)(s.threads[u]) == 1;
    assert key !in multiset(ListOf(s, key));
  }

  lemma {:induction false} Erase(s: State, key: Key) returns (steps: seq<Step>)
    requires OrderInv(s) && Margin(s, key) <= 0
    ensures OnlyFinishes(s, steps)
    ensures key !in ListOf(Run(s, steps), key) && Run(s, steps).stores.Get(StoreOf(key)).lock.None?
    decreases Work(s)
  {
    WorkNonNegative(s.threads);
    steps := [];
    if key in ListOf(s, key) || s.stores.Get(StoreOf(key)).lock.Some? {
      var u := NextEraser(s, key);
      MoveWorks(s, u);
      WorkNonNegative(Exec(s, u).threads);
      OrderStep(s, Go(u));
      var later := Erase(Exec(s, u), key);
      FinishesMore(s, u, later);
      steps := [Go(u)] + later;
    }
  }

  /** The exact condition, at any point of any run, under which a key stays listed for as long as
      no further delete of it begins, whatever all threads do. */
  lemma KeptIff(start: State, before: seq<Step>, key: Key)
    requires Init(start)
    ensures var s := Run(start, before);
            && ((forall steps :: !BeginsDel(steps, key) ==> key in ListOf(Run(s, steps), key)) <==> Safe(s, key))
            && (s.stores.Get(StoreOf(key)).lock.None? ==>
                  (Safe(s, key) <==> Copies(ListOf(s, key), key) > Sum(s.threads, Deleting(key))))
  {
    var s := Run(start, before);
    InitOrdered(start);
    OrderRun(start, before);
    DeletingSum(s.threads, key);
    if Safe(s, key) {
      forall steps | !BeginsDel(steps, key) ensures key in ListOf(Run(s, steps), key) {
        SafeRun(s, steps, key);
      }
    } else if key !in ListOf(s, key) {
      assert !BeginsDel([], key) && Run(s, []) == s;
    } else {
      var steps := Erase(s, key);
    }
    if s.stores.Get(StoreOf(key)).lock.None? {
      NobodyAppendsUnlocked(s, key);
      assert key in ListOf(s, key) <==> key in multiset(ListOf(s, key));
    }
  }

  // ----- freeing the other locks ---------------------------------------------

  lemma {:induction false} FreeLock(s: State, id: StoreId) returns (steps: seq<Step>)
    requires OrderInv(s)
    ensures OnlyFinishes(s, steps)
    ensures Run(s, steps).stores.Get(id).lock.None?
    ensures forall other :: other != id ==> Run(s, steps).stores.Get(other) == s.stores.Get(other)
    decreases Work(s)
  {
    WorkNonNegative(s.threads);
    steps := [];
    if s.stores.Get(id).lock.Some? {
      var u := s.stores.Get(id).lock.value;
      HolderMoves(s, id, u);
      MoveWorks(s, u);
      WorkNonNegative(Exec(s, u).threads);
      OrderStep(s, Go(u));
      var later := FreeLock(Exec(s, u), id);
      FinishesMore(s, u, later);
      steps := [Go(u)] + later;
    }
  }
}
