/** Schedules that show the interleaving bounds cannot be improved: N threads really do reach
    MAX + N - 1 entries and N copies of one key, and a delete already in flight when an add
    returns really does undo it. */
module Schedules {
  import opened Kernel
  import opened Policy
  import opened Machine
  import opened Interleaving
  import opened Solo
  import opened PolicyStore
  import opened ProtectionWindow

  predicate Storable(key: Key) {
    key.Nr? ==> key.nr >= 0
  }

  function Checked(key: Key): Thread {
    Running(Add(key, true), AddTail(key, true), ZERO)
  }

  function SetList(s: State, id: StoreId, list: seq<Key>): State {
    SetStore(s, id, StoreState(list, |list|, None))
  }

  lemma {:induction false} RunSnoc(s: State, steps: seq<Step>, step: Step)
    ensures Run(s, steps + [step]) == Apply(Run(s, steps), step)
  {
  }

  /** Thread `t` passes both checks of an add and drops the lock. */
  lemma CheckPhase(s: State, t: nat, key: Key) returns (steps: seq<Step>)
    requires t < |s.threads| && s.threads[t].Idle? && Unlocked(s) && Storable(key)
    requires key !in s.stores.Get(StoreOf(key)).list
    requires |s.stores.Get(StoreOf(key)).list| < Capacity(StoreOf(key))
    ensures Run(s, steps) == SetThread(s, t, Checked(key))
  {
    var id := StoreOf(key);
    var call := Add(key, true);
    var st := s.stores.Get(id);
    assert st.lock.None? && st.count == |st.list|;
    var locked := SetStore(s, id, st.(lock := Some(t)));
    var check := AddCheck(key, true);
    var body := Test(Full(id), Release(id, Done(-ENOSPC)), check);
    assert Apply(s, Start(t, call)) == At(s, t, call, Acquire(id, body));
    assert Exec(At(s, t, call, Acquire(id, body)), t) == At(locked, t, call, body);
    assert Exec(At(locked, t, call, body), t) == At(locked, t, call, check);
    assert Exec(At(locked, t, call, check), t) == At(locked, t, call, check.no);
    assert Exec(At(locked, t, call, check.no), t) == At(s, t, call, AddTail(key, true));
    RunSnoc(s, [Start(t, call)], Go(t));
    RunSnoc(s, [Start(t, call), Go(t)], Go(t));
    RunSnoc(s, [Start(t, call), Go(t), Go(t)], Go(t));
    RunSnoc(s, [Start(t, call), Go(t), Go(t), Go(t)], Go(t));
    steps := [Start(t, call)] + [Go(t)] + [Go(t)] + [Go(t)] + [Go(t)];
    assert [Start(t, call)] + [Go(t)] == [Start(t, call), Go(t)];
    assert [Start(t, call), Go(t)] + [Go(t)] == [Start(t, call), Go(t), Go(t)];
    assert [Start(t, call), Go(t), Go(t)] + [Go(t)] == [Start(t, call), Go(t), Go(t), Go(t)];
  }

  /** A checked thread appends and returns, whatever the store holds by now. */
  lemma AppendPhase(s: State, t: nat, key: Key) returns (steps: seq<Step>)
    requires t < |s.threads| && s.threads[t] == Checked(key) && Unlocked(s)
    ensures var r := Run(s, steps);
            && r.threads == s.threads[t := Idle(0)]
            && r.stores == SetList(s, StoreOf(key), s.stores.Get(StoreOf(key)).list + [key]).stores
  {
    AddTailAlone(s, t, Add(key, true), key, true);
    assert At(s, t, Add(key, true), AddTail(key, true)) == s by {
      assert s.threads[t := s.threads[t]] == s.threads;
    }
    var n := AloneIsARun(s, t);
    steps := Gos(t, n);
  }

  /** The first `n` threads have passed the check for `key`; the others are as in `s`. */
  function Claimed(s: State, key: Key, n: nat): State {
    s.(threads := seq(|s.threads|, i requires 0 <= i < |s.threads| => if i < n then Checked(key) else s.threads[i]))
  }

  lemma {:induction false} AllCheck(s: State, key: Key, n: nat) returns (steps: seq<Step>)
    requires n <= |s.threads| && Quiescent(s) && Unlocked(s) && Storable(key)
    requires key !in s.stores.Get(StoreOf(key)).list
    requires |s.stores.Get(StoreOf(key)).list| < Capacity(StoreOf(key))
    ensures Run(s, steps) == Claimed(s, key, n)
  {
    if n == 0 {
      steps := [];
      assert Claimed(s, key, 0).threads == s.threads;
    } else {
      var before := AllCheck(s, key, n - 1);
      var mid := Claimed(s, key, n - 1);
      var more := CheckPhase(mid, n - 1, key);
      RunConcat(s, before, more);
      assert SetThread(mid, n - 1, Checked(key)).threads == Claimed(s, key, n).threads;
      steps := before + more;
    }
  }

  function Repeat(key: Key, n: nat): seq<Key> {
    seq(n, _ => key)
  }

  /** Threads `n`-1 down to 0 of a fully claimed state append one after the other. */
  lemma {:induction false} AllAppend(s: State, key: Key, n: nat) returns (steps: seq<Step>)
    requires n <= |s.threads| && Unlocked(s)
    requires forall t :: 0 <= t < |s.threads| ==> if t < n then s.threads[t] == Checked(key) else s.threads[t].Idle?
    ensures Quiescent(Run(s, steps))
    ensures Run(s, steps).stores == SetList(s, StoreOf(key), s.stores.Get(StoreOf(key)).list + Repeat(key, n)).stores
    decreases n
  {
    var id := StoreOf(key);
    var list := s.stores.Get(id).list;
    if n == 0 {
      steps := [];
      assert list + Repeat(key, 0) == list;
      assert s.stores.Get(id).lock.None? && s.stores.Get(id).count == |list|;
      assert SetList(s, id, list).stores == s.stores;
    } else {
      var first := AppendPhase(s, n - 1, key);
      var mid := Run(s, first);
      Filled(s, mid, id, list + [key]);
      var more := AllAppend(mid, key, n - 1);
      RunConcat(s, first, more);
      assert list + [key] + Repeat(key, n - 1) == list + Repeat(key, n);
      steps := first + more;
    }
  }

  lemma {:induction false} RepeatCopies(key: Key, n: nat)
    ensures multiset(Repeat(key, n))[key] == n
  {
    if n > 0 {
      RepeatCopies(key, n - 1);
      assert Repeat(key, n) == [key] + Repeat(key, n - 1);
    }
  }

  /** From any quiet state with room for one more, N threads adding the same absent key can
      store it N times: with MAX - 1 entries to start from, that is MAX + N - 1 in all. */
  lemma OvershootReached(s: State, key: Key) returns (steps: seq<Step>)
    requires Quiescent(s) && Unlocked(s) && Storable(key)
    requires key !in s.stores.Get(StoreOf(key)).list
    requires |s.stores.Get(StoreOf(key)).list| < Capacity(StoreOf(key))
    ensures var list := Run(s, steps).stores.Get(StoreOf(key)).list;
            && |list| == |s.stores.Get(StoreOf(key)).list| + |s.threads|
            && Copies(list, key) == |s.threads|
  {
    var n := |s.threads|;
    var claim := AllCheck(s, key, n);
    var mid := Claimed(s, key, n);
    var append := AllAppend(mid, key, n);
    RunConcat(s, claim, append);
    RepeatCopies(key, n);
    steps := claim + append;
  }

  // ----- from any initial state ----------------------------------------------

  /** A number in which keys of one kind can differ without end. */
  function Rank(key: Key): int {
    match key
    case Path(path) => |path|
    case Proc(_, pid) => pid
    case Nr(nr) => nr
  }

  function KeyOf(id: StoreId, rank: nat): (key: Key)
    ensures StoreOf(key) == id && Rank(key) == rank && Storable(key)
  {
    match id
    case Files => Path(seq(rank, _ => 'a'))
    case Procs => Proc("", rank)
    case Syscalls => Nr(rank)
  }

  lemma {:induction false} RankBound(list: seq<Key>) returns (n: nat)
    ensures forall key :: key in list ==> Rank(key) < n
  {
    n := 0;
    if list != [] {
      n := RankBound(list[1..]);
      if n <= Rank(list[0]) { n := Rank(list[0]) + 1; }
      assert list == [list[0]] + list[1..];
    }
  }

  /** There is always a key to add. */
  lemma FreshKey(id: StoreId, list: seq<Key>) returns (key: Key)
    ensures StoreOf(key) == id && Storable(key) && key !in list
  {
    var n := RankBound(list);
    key := KeyOf(id, n);
  }

  /** Thread 0 makes a call and nobody interferes. */
  lemma CallAlone(s: State, call: Call) returns (steps: seq<Step>)
    requires |s.threads| > 0 && s.threads[0].Idle?
    ensures Run(s, steps) == Alone(At(s, 0, call, Code(call)), 0)
  {
    var begun := Apply(s, Start(0, call));
    var k := AloneIsARun(begun, 0);
    RunConcat(s, [Start(0, call)], Gos(0, k));
    steps := [Start(0, call)] + Gos(0, k);
  }

  /** One thread fills a store up to `n` entries. */
  lemma {:induction false} FillTo(s: State, id: StoreId, n: nat) returns (steps: seq<Step>)
    requires Quiescent(s) && Unlocked(s) && |s.threads| > 0
    requires |s.stores.Get(id).list| <= n <= Capacity(id)
    ensures Quiescent(Run(s, steps)) && Unlocked(Run(s, steps)) && |Run(s, steps).stores.Get(id).list| == n
    decreases n - |s.stores.Get(id).list|
  {
    var list := s.stores.Get(id).list;
    steps := [];
    if |list| < n {
      var key := FreshKey(id, list);
      AddAloneInserts(s, 0, key, true);
      var first := CallAlone(s, Add(key, true));
      var mid := Run(s, first);
      var more := FillTo(mid, id, n);
      RunConcat(s, first, more);
      steps := first + more;
    }
  }

  /** One thread leaves exactly one free slot in a store. */
  lemma LeaveOneSlot(s: State, id: StoreId) returns (steps: seq<Step>)
    requires Init(s) && |s.threads| > 0
    ensures Quiescent(Run(s, steps)) && Unlocked(Run(s, steps))
    ensures |Run(s, steps).stores.Get(id).list| == Capacity(id) - 1
  {
    var list := s.stores.Get(id).list;
    assert StartStore(s.stores.Get(id), id);
    if |list| == Capacity(id) {
      var key := list[0];
      assert StoreOf(key) == id;
      DelAloneRemoves(s, 0, key);
      steps := CallAlone(s, Del(key));
    } else {
      steps := FillTo(s, id, Capacity(id) - 1);
    }
  }

  /** The bounds of `BoundedOvershoot` are attained, in every store and from every initial
      state: N threads reach MAX + N - 1 entries with N copies of one key. */
  lemma OvershootIsTight(s: State, id: StoreId) returns (steps: seq<Step>, key: Key)
    requires Init(s) && |s.threads| > 0
    ensures var list := Run(s, steps).stores.Get(id).list;
            && |list| == Capacity(id) + |s.threads| - 1
            && StoreOf(key) == id && Copies(list, key) == |s.threads|
  {
    var fill := LeaveOneSlot(s, id);
    key := FreshKey(id, Run(s, fill).stores.Get(id).list);
    var rest := OvershootReached(Run(s, fill), key);
    RunConcat(s, fill, rest);
    steps := fill + rest;
  }

  /** From any initial state, a store keeps within its limit over all runs exactly when there is
      at most one thread. */
  lemma WithinLimitIff(s: State, id: StoreId)
    requires Init(s)
    ensures (forall steps :: |Run(s, steps).stores.Get(id).list| <= Capacity(id)) <==> |s.threads| <= 1
  {
    if |s.threads| == 1 {
      forall steps ensures |Run(s, steps).stores.Get(id).list| <= Capacity(id) {
        ThreadsBoundPast(s, steps, id);
        OneAddAtATime(s, steps, id);
      }
    } else if |s.threads| == 0 {
      forall steps ensures |Run(s, steps).stores.Get(id).list| <= Capacity(id) {
        NothingRuns(s, steps);
        assert StartStore(s.stores.Get(id), id);
      }
    } else {
      var steps, key := OvershootIsTight(s, id);
    }
  }

  /** From any initial state, a store keeps free of duplicates over all runs exactly when there
      is at most one thread. */
  lemma NoDuplicatesIff(s: State, id: StoreId)
    requires Init(s)
    ensures (forall steps :: Distinct(Run(s, steps).stores.Get(id).list)) <==> |s.threads| <= 1
  {
    if |s.threads| == 1 {
      forall steps ensures Distinct(Run(s, steps).stores.Get(id).list) {
        ThreadsBoundPast(s, steps, id);
        OneAddAtATime(s, steps, id);
      }
    } else if |s.threads| == 0 {
      forall steps ensures Distinct(Run(s, steps).stores.Get(id).list) {
        NothingRuns(s, steps);
        assert StartStore(s.stores.Get(id), id);
      }
    } else {
      var steps, key := OvershootIsTight(s, id);
      if Distinct(Run(s, steps).stores.Get(id).list) {
        DistinctCopies(Run(s, steps).stores.Get(id).list, key);
      }
    }
  }

  lemma {:induction false} NothingRuns(s: State, steps: seq<Step>)
    requires |s.threads| == 0
    ensures Run(s, steps) == s
    decreases |steps|
  {
    if steps != [] {
      NothingRuns(s, steps[..|steps| - 1]);
    }
  }

  /** Thread 1 begins a delete and is preempted; thread 0 adds the path and returns 0. */
  lemma AddDuringDel(s: State, key: Key) returns (steps: seq<Step>)
    requires Quiescent(s) && Unlocked(s) && |s.threads| >= 2 && key.Path? && s.stores.files.list == []
    ensures var r := Run(s, steps);
            && r.threads[0] == Idle(0) && r.threads[1] == Running(Del(key), DelProg(key), ZERO)
            && r.stores.files.list == [key] && Unlocked(r) && r.cfg == s.cfg
  {
    var s1 := Apply(s, Start(1, Del(key)));
    AddAloneInserts(s1, 0, key, true);
    assert s1.stores.Get(Files).list == [];
    assert SetAdd(s1.stores.Get(Files).list, MAX_FILES, key, true) == Outcome(0, [key]);
    var begun := Apply(s1, Start(0, Add(key, true)));
    assert begun == At(s1, 0, Add(key, true), AddProg(key, true));
    var k := AloneIsARun(begun, 0);
    Filled(s1, Run(begun, Gos(0, k)), Files, [key]);
    RunSnoc(s, [Start(1, Del(key))], Start(0, Add(key, true)));
    RunConcat(s, [Start(1, Del(key))] + [Start(0, Add(key, true))], Gos(0, k));
    steps := [Start(1, Del(key))] + [Start(0, Add(key, true))] + Gos(0, k);
  }

  /** The preempted delete goes on. */
  lemma DelGoesOn(s: State, key: Key) returns (n: nat)
    requires Unlocked(s) && |s.threads| >= 2 && key.Path? && s.stores.files.list == [key]
    requires s.threads[1] == Running(Del(key), DelProg(key), ZERO)
    ensures var r := Run(s, Gos(1, n));
            r.threads[0] == s.threads[0] && r.stores.files.list == [] && Unlocked(r) && r.cfg == s.cfg
  {
    assert s.threads[1 := s.threads[1]] == s.threads;
    assert At(s, 1, Del(key), DelProg(key)) == s;
    DelAloneRemoves(s, 1, key);
    assert s.stores.Get(Files).list == [key] && RemoveFirst([key], key) == [];
    n := AloneIsARun(s, 1);
    Filled(s, Run(s, Gos(1, n)), Files, []);
  }

  lemma WriteAllowed(s: State, hook: Hook) returns (n: nat)
    requires Unlocked(s) && |s.threads| > 0 && s.threads[0].Idle? && s.stores.files.list == []
    requires hook.FilePermission?
    ensures var r := Run(Apply(s, Start(0, HookCall(hook))), Gos(0, n));
            r.threads[0] == Idle(0) && r.cfg == s.cfg
  {
    HookAloneDecides(s, 0, hook);
    var called := Apply(s, Start(0, HookCall(hook)));
    assert called == At(s, 0, HookCall(hook), HookProg(hook));
    n := AloneIsARun(called, 0);
  }

  /** The condition of `WritesRefusedIff` can fail at the return of a successful add:
      here a delete begins first, the add returns 0, no further delete begins, and a write to
      the path is then allowed under the boot configuration. */
  lemma DelInFlightUndoesAdd(s: State, path: string, hook: Hook)
      returns (before: seq<Step>, mid: nat, end: nat)
    requires Init(s) && |s.threads| >= 2 && s.stores.files.list == []
    requires WritesTo(hook, path) && hook.FilePermission?
    ensures var added := Run(s, before);
            && added.threads[0] == Idle(0) && added.stores.files.list == [Path(path)]
            && var after := Gos(1, mid) + [Start(0, HookCall(hook))] + Gos(0, end);
            && !BeginsDel(after, Path(path))
            && Run(added, after).threads[0] == Idle(0)
            && Run(added, after).cfg == s.cfg
  {
    before := AddDuringDel(s, Path(path));
    var s2 := Run(s, before);
    mid := DelGoesOn(s2, Path(path));
    end := WriteAllowed(Run(s2, Gos(1, mid)), hook);
    RunSnoc(s2, Gos(1, mid), Start(0, HookCall(hook)));
    RunConcat(s2, Gos(1, mid) + [Start(0, HookCall(hook))], Gos(0, end));
  }

  lemma Filled(s: State, s': State, id: StoreId, list: seq<Key>)
    requires Unlocked(s) && s'.stores == s.stores.Put(id, StoreState(list, |list|, None))
    ensures Unlocked(s')
  {
  }
}
