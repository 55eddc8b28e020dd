/** A call that runs without interference.  The step programs then do exactly what the policy
    and the bounded-set reference say, so the interleaved machine and the sequential model
    describe the same module. */
module Solo {
  import opened Kernel
  import opened Policy
  import opened Machine
  import opened PolicyStore
  import opened Interleaving
  import opened HookPrograms
  import opened StablePolicy

  function Size(p: Prog): nat {
    match p
    case Ret(_) => 1
    case Test(_, yes, no) => 1 + Size(yes) + Size(no)
    case Unlink(_, found, missing) => 1 + Size(found) + Size(missing)
    case _ => 1 + Size(p.next)
  }

  function Remaining(th: Thread): nat {
    if th.Idle? then 0 else 1 + Size(th.prog)
  }

  predicate Blocked(s: State, p: Prog) {
    p.Acquire? && s.stores.Get(p.lock).lock.Some?
  }

  /** Let thread `t` run alone until it returns or blocks. */
  function Alone(s: State, t: nat): State
    requires t < |s.threads|
    decreases Remaining(s.threads[t])
  {
    if s.threads[t].Idle? || Blocked(s, s.threads[t].prog) then s else Alone(Exec(s, t), t)
  }

  function Gos(t: nat, n: nat): seq<Step> {
    seq(n, _ => Go(t))
  }

  lemma {:induction false} RunFirst(s: State, steps: seq<Step>)
    requires steps != []
    ensures Run(s, steps) == Run(Apply(s, steps[0]), steps[1..])
  {
    RunConcat(s, steps[..1], steps[1..]);
    assert steps == steps[..1] + steps[1..];
    assert steps[..1][..0] == [];
    assert Run(s, steps[..1]) == Apply(Run(s, []), steps[0]);
  }

  /** Running alone is one of the interleavings. */
  lemma {:induction false} AloneIsARun(s: State, t: nat) returns (n: nat)
    requires t < |s.threads|
    ensures Alone(s, t) == Run(s, Gos(t, n))
    decreases Remaining(s.threads[t])
  {
    if s.threads[t].Idle? || Blocked(s, s.threads[t].prog) {
      n := 0;
    } else {
      var k := AloneIsARun(Exec(s, t), t);
      n := k + 1;
      RunFirst(s, Gos(t, n));
      assert Gos(t, n)[1..] == Gos(t, k);
    }
  }

  /** The state `s` with thread `t` about to run `p`. */
  function At(s: State, t: nat, call: Call, p: Prog): State
    requires t < |s.threads|
  {
    SetThread(s, t, Running(call, p, ZERO))
  }

  /** `s` after thread `t` has made `call` and the policy's decision `d` has been carried out. */
  function HookDone(s: State, t: nat, call: Call, d: Decision): State
    requires t < |s.threads|
  {
    s.(threads := s.threads[t := Idle(d.code)],
       counters := Tally(s.counters, d.event),
       history := s.history + [Record(t, call, d.code, Tally(ZERO, d.event))])
  }

  ghost predicate Unlocked(s: State) {
    forall id :: s.stores.Get(id).lock.None? && s.stores.Get(id).count == |s.stores.Get(id).list|
  }

  function ListsOf(s: State): Lists {
    Lists(s.stores.files.list, s.stores.procs.list, s.stores.syscalls.list)
  }

  function Plus(a: Counters, b: Counters): Counters {
    Counters(a.ptraceBlocked + b.ptraceBlocked, a.fileViolations + b.fileViolations,
             a.syscallViolations + b.syscallViolations, a.moduleViolations + b.moduleViolations,
             a.totalEvents + b.totalEvents)
  }

  function Free(st: Stores): Stores {
    Stores(st.files.(lock := None), st.procs.(lock := None), st.syscalls.(lock := None))
  }

  /** Thread `t` is the only one to hold a lock, if it holds one, and every count is right. */
  ghost predicate Only(s: State, t: nat, held: Option<StoreId>) {
    forall id :: s.stores.Get(id).count == |s.stores.Get(id).list|
              && s.stores.Get(id).lock == if held == Some(id) then Some(t) else None
  }

  /** Thread `t` is in the middle of a hook that can only end in `d`, having added its share to
      statistics that stood at `base`. */
  ghost predicate Midway(s: State, t: nat, hook: Hook, d: Decision, base: Counters, held: Option<StoreId>) {
    && t < |s.threads| && Settling(s.threads[t], hook, s.cfg, ListsOf(s), d)
    && Disciplined(s.threads[t].prog, held, 0) && Only(s, t, held)
    && s.counters == Plus(base, s.threads[t].moved)
  }

  function Holding(p: Prog, held: Option<StoreId>): Option<StoreId> {
    match p
    case Acquire(id, _) => Some(id)
    case Release(_, _) => None
    case _ => held
  }

  /** The hook's own progress: it returns as it must, or goes on. */
  lemma MidwaySettles(s: State, t: nat, hook: Hook, d: Decision, base: Counters, held: Option<StoreId>)
    requires Midway(s, t, hook, d, base, held)
    ensures var s', p := Exec(s, t), s.threads[t].prog;
            if p.Ret? then
              held.None? && p.code == d.code && s.threads[t].moved == Tally(ZERO, d.event)
            else Settling(s'.threads[t], hook, s.cfg, ListsOf(s), d)
  {
    assert s.stores.Get(Files).count == |s.stores.Get(Files).list|;
    assert Agrees(s, hook, s.cfg, ListsOf(s));
    SettlingExec(s, t, hook, s.cfg, ListsOf(s), d);
  }

  /** What a step of it changes: its thread, its lock, the statistics. */
  lemma MidwayStep(s: State, t: nat, hook: Hook, d: Decision, base: Counters, held: Option<StoreId>)
    requires Midway(s, t, hook, d, base, held) && !s.threads[t].prog.Ret?
    ensures var s', p := Exec(s, t), s.threads[t].prog;
            && !Blocked(s, p) && Midway(s', t, hook, d, base, Holding(p, held))
            && s' == s.(threads := s.threads[t := s'.threads[t]], counters := s'.counters, stores := s'.stores)
            && Free(s'.stores) == Free(s.stores)
  {
    MidwaySettles(s, t, hook, d, base, held);
    assert s.stores.Get(Files).lock == (if held == Some(Files) then Some(t) else None);
    assert s.stores.Get(Procs).lock == (if held == Some(Procs) then Some(t) else None);
    assert s.stores.Get(Syscalls).lock == (if held == Some(Syscalls) then Some(t) else None);
    assert ListsOf(Exec(s, t)) == ListsOf(s);
  }

  /** What is left of such a hook, run alone, carries out the decision and changes nothing else. */
  lemma {:induction false} SettledAlone(s: State, t: nat, hook: Hook, d: Decision, base: Counters, held: Option<StoreId>)
    requires Midway(s, t, hook, d, base, held)
    ensures Alone(s, t) == HookDone(s.(counters := base, stores := Free(s.stores)), t, HookCall(hook), d)
    decreases Size(s.threads[t].prog)
  {
    MidwaySettles(s, t, hook, d, base, held);
    var p, s' := s.threads[t].prog, Exec(s, t);
    if p.Ret? {
      assert s.stores.Get(Files).lock.None? && s.stores.Get(Procs).lock.None? && s.stores.Get(Syscalls).lock.None?;
      assert Alone(s, t) == s';
    } else {
      MidwayStep(s, t, hook, d, base, held);
      SettledAlone(s', t, hook, d, base, Holding(p, held));
      assert s'.threads[t := Idle(d.code)] == s.threads[t := Idle(d.code)];
    }
  }

  /** Every hook, run without interference from any state whose locks are free, decides as the
      policy says, moves the statistics accordingly and touches nothing else. */
  lemma HookAloneDecides(s: State, t: nat, hook: Hook)
    requires t < |s.threads| && Unlocked(s)
    ensures Alone(At(s, t, HookCall(hook), HookProg(hook)), t) ==
            HookDone(s, t, HookCall(hook), Decide(s.cfg, ListsOf(s), hook))
  {
    var d, begun := Decide(s.cfg, ListsOf(s), hook), At(s, t, HookCall(hook), HookProg(hook));
    CodeFresh(HookCall(hook));
    HookSettles(hook, s.cfg, ListsOf(s));
    assert s.stores.Get(Files).lock.None? && s.stores.Get(Procs).lock.None? && s.stores.Get(Syscalls).lock.None?;
    SettledAlone(begun, t, hook, d, s.counters, None);
    assert begun.threads[t := Idle(d.code)] == s.threads[t := Idle(d.code)];
  }

  // ----- store operations ----------------------------------------------------

  /** `s` after thread `t` has made `call` with outcome `o` on store `id`. */
  function StoreDone(s: State, t: nat, call: Call, id: StoreId, o: Outcome<Key>): State
    requires t < |s.threads|
  {
    s.(threads := s.threads[t := Idle(o.code)],
       stores := s.stores.Put(id, StoreState(o.list, |o.list|, None)),
       history := s.history + [Record(t, call, o.code, ZERO)])
  }

  /** From `s`, running `p` alone returns `o.code` and leaves `o.list` in store `id`, unlocked
      and correctly counted, and changes nothing else. */
  predicate Leaves(s: State, t: nat, call: Call, p: Prog, id: StoreId, o: Outcome<Key>)
    requires t < |s.threads|
  {
    Alone(At(s, t, call, p), t) == StoreDone(s, t, call, id, o)
  }

  lemma LeavesStep(s: State, t: nat, call: Call, p: Prog, s': State, p': Prog, id: StoreId, o: Outcome<Key>)
    requires t < |s.threads| && s'.threads == s.threads
    requires s'.stores.Put(id, s.stores.Get(id)) == s.stores
    requires s'.cfg == s.cfg && s'.mirrors == s.mirrors && s'.counters == s.counters && s'.history == s.history
    requires !Blocked(s, p) && Exec(At(s, t, call, p), t) == At(s', t, call, p')
    requires Leaves(s', t, call, p', id, o)
    ensures Leaves(s, t, call, p, id, o)
  {
  }

  /** Unlocking and returning. */
  lemma LeavesUnlock(s: State, t: nat, call: Call, id: StoreId, code: int, list: seq<Key>)
    requires t < |s.threads| && s.stores.Get(id).list == list && s.stores.Get(id).count == |list|
    ensures Leaves(s, t, call, Release(id, Done(code)), id, Outcome(code, list))
  {
    var free := SetStore(s, id, s.stores.Get(id).(lock := None));
    assert Exec(At(s, t, call, Release(id, Done(code))), t) == At(free, t, call, Done(code));
    assert Exec(At(free, t, call, Done(code)), t).threads == s.threads[t := Idle(code)];
    assert Leaves(free, t, call, Done(code), id, Outcome(code, list));
    LeavesStep(s, t, call, Release(id, Done(code)), free, Done(code), id, Outcome(code, list));
  }

  lemma AddTailAlone(s: State, t: nat, call: Call, key: Key, alloc: bool)
    requires t < |s.threads| && Unlocked(s)
    ensures var list := s.stores.Get(StoreOf(key)).list;
            Leaves(s, t, call, AddTail(key, alloc), StoreOf(key),
                   if alloc then Outcome(0, list + [key]) else Outcome(-ENOMEM, list))
  {
    var id := StoreOf(key);
    var st := s.stores.Get(id);
    var tail := AddTail(key, alloc);
    if alloc {
      var o := Outcome(0, st.list + [key]);
      var unlock := Release(id, Done(0));
      var inc := CountInc(id, unlock);
      var s1 := SetStore(s, id, st.(lock := Some(t)));
      var s2 := SetStore(s1, id, s1.stores.Get(id).(list := st.list + [key]));
      var s3 := SetStore(s2, id, s2.stores.Get(id).(count := st.count + 1));
      LeavesUnlock(s3, t, call, id, 0, st.list + [key]);
      assert Exec(At(s2, t, call, inc), t) == At(s3, t, call, unlock);
      LeavesStep(s2, t, call, inc, s3, unlock, id, o);
      assert Exec(At(s1, t, call, Append(key, inc)), t) == At(s2, t, call, inc);
      LeavesStep(s1, t, call, Append(key, inc), s2, inc, id, o);
      assert Exec(At(s, t, call, Acquire(id, Append(key, inc))), t) == At(s1, t, call, Append(key, inc));
      LeavesStep(s, t, call, Acquire(id, Append(key, inc)), s1, Append(key, inc), id, o);
      assert Exec(At(s, t, call, tail), t) == At(s, t, call, tail.yes);
      LeavesStep(s, t, call, tail, s, tail.yes, id, o);
    } else {
      assert Exec(At(s, t, call, tail), t) == At(s, t, call, tail.no);
      LeavesStep(s, t, call, tail, s, tail.no, id, Outcome(-ENOMEM, st.list));
    }
  }

  lemma AddCheckAlone(s: State, t: nat, call: Call, key: Key, alloc: bool)
    requires t < |s.threads| && Unlocked(s) && |s.stores.Get(StoreOf(key)).list| < Capacity(StoreOf(key))
    ensures var id := StoreOf(key);
            var locked := SetStore(s, id, s.stores.Get(id).(lock := Some(t)));
            Leaves(locked, t, call, AddCheck(key, alloc), id,
                   SetAdd(s.stores.Get(id).list, Capacity(id), key, alloc))
  {
    var id := StoreOf(key);
    var st := s.stores.Get(id);
    var locked := SetStore(s, id, st.(lock := Some(t)));
    var o := SetAdd(st.list, Capacity(id), key, alloc);
    var check := AddCheck(key, alloc);
    if key in st.list {
      LeavesUnlock(locked, t, call, id, -EEXIST, st.list);
      assert Exec(At(locked, t, call, check), t) == At(locked, t, call, check.yes);
      LeavesStep(locked, t, call, check, locked, check.yes, id, o);
    } else {
      AddTailAlone(s, t, call, key, alloc);
      assert Exec(At(locked, t, call, check.no), t) == At(s, t, call, AddTail(key, alloc));
      LeavesStep(locked, t, call, check.no, s, AddTail(key, alloc), id, o);
      assert Exec(At(locked, t, call, check), t) == At(locked, t, call, check.no);
      LeavesStep(locked, t, call, check, locked, check.no, id, o);
    }
  }

  /** An add that runs without interference is the reference's insertion. */
  lemma AddAloneInserts(s: State, t: nat, key: Key, alloc: bool)
    requires t < |s.threads| && Unlocked(s)
    ensures var list := s.stores.Get(StoreOf(key)).list;
            Leaves(s, t, Add(key, alloc), AddProg(key, alloc), StoreOf(key),
                   if key.Nr? && key.nr < 0 then Outcome(-EINVAL, list)
                   else SetAdd(list, Capacity(StoreOf(key)), key, alloc))
  {
    var call := Add(key, alloc);
    var id := StoreOf(key);
    var st := s.stores.Get(id);
    if !(key.Nr? && key.nr < 0) {
      var o := SetAdd(st.list, Capacity(id), key, alloc);
      var body := Test(Full(id), Release(id, Done(-ENOSPC)), AddCheck(key, alloc));
      var locked := SetStore(s, id, st.(lock := Some(t)));
      var next := if |st.list| >= Capacity(id) then body.yes else body.no;
      if |st.list| >= Capacity(id) {
        LeavesUnlock(locked, t, call, id, -ENOSPC, st.list);
      } else {
        AddCheckAlone(s, t, call, key, alloc);
      }
      assert Exec(At(locked, t, call, body), t) == At(locked, t, call, next);
      LeavesStep(locked, t, call, body, locked, next, id, o);
      assert Exec(At(s, t, call, Acquire(id, body)), t) == At(locked, t, call, body);
      LeavesStep(s, t, call, Acquire(id, body), locked, body, id, o);
    }
  }

  lemma UnlinkAlone(s: State, t: nat, call: Call, key: Key)
    requires t < |s.threads| && Unlocked(s)
    requires key in s.stores.Get(StoreOf(key)).list
    ensures var id := StoreOf(key);
            var locked := SetStore(s, id, s.stores.Get(id).(lock := Some(t)));
            Leaves(locked, t, call, DelProg(key).next, id, ListDel(s.stores.Get(id).list, key))
  {
    var id := StoreOf(key);
    var st := s.stores.Get(id);
    var locked := SetStore(s, id, st.(lock := Some(t)));
    var o := ListDel(st.list, key);
    var unlock := Release(id, Done(0));
    var dec := CountDec(id, unlock);
    var s2 := SetStore(locked, id, locked.stores.Get(id).(list := o.list));
    var s3 := SetStore(s2, id, s2.stores.Get(id).(count := st.count - 1));
    LeavesUnlock(s3, t, call, id, 0, o.list);
    assert Exec(At(s2, t, call, dec), t) == At(s3, t, call, unlock);
    LeavesStep(s2, t, call, dec, s3, unlock, id, o);
    var body := DelProg(key).next;
    assert Exec(At(locked, t, call, body), t) == At(s2, t, call, dec);
    LeavesStep(locked, t, call, body, s2, dec, id, o);
  }

  /** A del that runs without interference takes out the first occurrence, whatever the list. */
  lemma DelAloneRemoves(s: State, t: nat, key: Key)
    requires t < |s.threads| && Unlocked(s)
    ensures Leaves(s, t, Del(key), DelProg(key), StoreOf(key), ListDel(s.stores.Get(StoreOf(key)).list, key))
  {
    var call := Del(key);
    var id := StoreOf(key);
    var st := s.stores.Get(id);
    var body := DelProg(key).next;
    var locked := SetStore(s, id, st.(lock := Some(t)));
    if key in st.list {
      UnlinkAlone(s, t, call, key);
    } else {
      var miss := Release(id, Done(-ENOENT));
      LeavesUnlock(locked, t, call, id, -ENOENT, st.list);
      assert Exec(At(locked, t, call, body), t) == At(locked, t, call, miss);
      LeavesStep(locked, t, call, body, locked, miss, id, Outcome(-ENOENT, st.list));
    }
    assert Exec(At(s, t, call, DelProg(key)), t) == At(locked, t, call, body);
    LeavesStep(s, t, call, DelProg(key), locked, body, id, ListDel(st.list, key));
  }

  // ----- sysctl writes -------------------------------------------------------

  /** `s` after thread `t` has made a sysctl call. */
  function SysctlDone(s: State, t: nat, knob: Knob, written: Option<int>, answer: int): State
    requires t < |s.threads|
  {
    var code := if written.Some? then 0 else answer;
    var mirrors := if written.Some? then WriteMirror(s.mirrors, knob, written.value) else s.mirrors;
    s.(threads := s.threads[t := Idle(code)], mirrors := mirrors,
       cfg := if written.Some? then SyncKnob(s.cfg, mirrors, knob) else s.cfg,
       history := s.history + [Record(t, Sysctl(knob, written, answer), code, ZERO)])
  }

  /** A sysctl write that runs without interference stores the value in its mirror, makes the
      live field its projection, disturbs no other knob and returns 0; a read, or a write that
      the parser refused, changes nothing and returns the parser's answer. */
  lemma SysctlAloneSyncs(s: State, t: nat, knob: Knob, written: Option<int>, answer: int)
    requires t < |s.threads|
    ensures var e := Alone(At(s, t, Sysctl(knob, written, answer), SysctlProg(knob, written, answer)), t);
            && e == SysctlDone(s, t, knob, written, answer)
            && (written.Some? ==> Projects(e.cfg, e.mirrors, knob))
            && forall j :: j != knob ==> (Projects(e.cfg, e.mirrors, j) <==> Projects(s.cfg, s.mirrors, j))
  {
    var call := Sysctl(knob, written, answer);
    if written.Some? {
      var s1 := s.(mirrors := WriteMirror(s.mirrors, knob, written.value));
      var s2 := s1.(cfg := SyncKnob(s1.cfg, s1.mirrors, knob));
      assert Exec(At(s, t, call, SysctlProg(knob, written, answer)), t) == At(s1, t, call, Sync(knob, Done(0)));
      assert Exec(At(s1, t, call, Sync(knob, Done(0))), t) == At(s2, t, call, Done(0));
      var e := Exec(At(s2, t, call, Done(0)), t);
      assert e.threads == s.threads[t := Idle(0)] && Alone(At(s2, t, call, Done(0)), t) == e;
      assert Alone(At(s1, t, call, Sync(knob, Done(0))), t) == Alone(At(s2, t, call, Done(0)), t);
      assert forall j :: j != knob ==> (Projects(s2.cfg, s2.mirrors, j) <==> Projects(s.cfg, s.mirrors, j));
    } else {
      var e := Exec(At(s, t, call, Done(answer)), t);
      assert e.threads == s.threads[t := Idle(answer)] && Alone(At(s, t, call, Done(answer)), t) == e;
    }
  }
}
