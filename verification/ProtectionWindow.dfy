/** The promise of file protection under every interleaving: the exact condition, read off any
    moment of any run, under which every write to a path is refused until another delete of the
    path begins, the unlocked count shortcut notwithstanding; and that an add which meets no
    pending delete establishes it. */
module ProtectionWindow {
  import opened Kernel
  import opened Policy
  import opened Machine
  import opened ThreadSums
  import opened Interleaving
  import opened Solo
  import opened Conservation
  import opened Retention

  ghost predicate Enforcing(s: State) {
    Live(s.cfg, FileIntegrity) && s.cfg.integrityEnforce
  }

  ghost predicate Enforced(s: State, steps: seq<Step>) {
    forall i :: 0 <= i <= |steps| ==> Enforcing(Run(s, steps[..i]))
  }

  /** The path has a margin over its pending deletes, and the count shortcut cannot miss it. */
  ghost predicate Armed(s: State, path: string) {
    Margin(s, Path(path)) > 0 && s.stores.files.count >= 1
  }

  // ----- a path stays armed --------------------------------------------------

  /** Whoever holds the lock and is not appending the path sees it listed. */
  lemma HolderSees(s: State, t: nat, path: string)
    requires OrderInv(s) && Margin(s, Path(path)) > 0
    requires t < |s.threads| && s.threads[t].Running? && s.stores.files.lock == Some(t) && !s.threads[t].prog.Append?
    ensures Path(path) in s.stores.files.list
  {
    NobodyAppends(s, t, Path(path));
    DeletingSum(s.threads, Path(path));
    assert Path(path) in multiset(ListOf(s, Path(path)));
  }

  lemma ArmedExec(s: State, t: nat, path: string)
    requires OrderInv(s) && Armed(s, path) && t < |s.threads| && s.threads[t].Running?
    ensures Armed(Exec(s, t), path)
  {
    assert Tracked(s.threads[t]) && ThreadDisciplined(s, t);
    MarginExec(s, t, Path(path));
    var p := s.threads[t].prog;
    if p.CountDec? && p.dec == Files {
      HolderSees(s, t, path);
    }
  }

  lemma ArmedStep(s: State, step: Step, path: string)
    requires OrderInv(s) && Armed(s, path) && step != Start(step.thread, Del(Path(path)))
    ensures Armed(Apply(s, step), path)
  {
    if step.Start? {
      MarginStart(s, step.thread, step.call, Path(path));
    } else if step.thread < |s.threads| && s.threads[step.thread].Running? {
      ArmedExec(s, step.thread, path);
    }
  }

  lemma {:induction false} ArmedRun(s: State, steps: seq<Step>, path: string)
    requires OrderInv(s) && Armed(s, path) && !BeginsDel(steps, Path(path))
    ensures Armed(Run(s, steps), path)
    decreases |steps|
  {
    if steps != [] {
      ArmedRun(s, steps[..|steps| - 1], path);
      OrderRun(s, steps[..|steps| - 1]);
      ArmedStep(Run(s, steps[..|steps| - 1]), steps[|steps| - 1], path);
    }
  }

  // ----- a successful add arms its path --------------------------------------

  /** Every way this program returns 0 passes through the append of `key`. */
  predicate Appends(p: Prog, key: Key) {
    match p
    case Ret(code) => code != 0
    case Test(_, yes, no) => Appends(yes, key) && Appends(no, key)
    case Unlink(_, found, missing) => Appends(found, key) && Appends(missing, key)
    case Append(k, next) => k == key || Appends(next, key)
    case _ => Appends(p.next, key)
  }

  lemma AddAppends(key: Key, alloc: bool)
    ensures Appends(AddProg(key, alloc), key)
  {
    var id := StoreOf(key);
    var append := Append(key, CountInc(id, Release(id, Done(0))));
    assert Appends(append, key);
    assert Appends(Acquire(id, append), key);
    assert Appends(AddTail(key, alloc), key);
    assert Appends(Release(id, AddTail(key, alloc)), key);
    assert Appends(Release(id, Done(-EEXIST)), key);
    assert Appends(AddCheck(key, alloc), key);
    assert Appends(Release(id, Done(-ENOSPC)), key);
    assert Appends(Test(Full(id), Release(id, Done(-ENOSPC)), AddCheck(key, alloc)), key);
  }

  /** No delete of the path has yet to unlink it. */
  ghost predicate NonePending(s: State, path: string) {
    Sum(s.threads, Deleting(Path(path))) == 0
  }

  lemma NonePendingStep(s: State, step: Step, path: string)
    requires OrderInv(s) && NonePending(s, path) && step != Start(step.thread, Del(Path(path)))
    ensures NonePending(Apply(s, step), path)
  {
    var t, s' := step.thread, Apply(s, step);
    DeletingSum(s'.threads, Path(path));
    if step.Start? {
      if t < |s.threads| && s.threads[t].Idle? {
        SumUpdate(s.threads, t, s'.threads[t], Deleting(Path(path)));
      }
    } else if t < |s.threads| && s.threads[t].Running? {
      assert Tracked(s.threads[t]);
      IntentChange(s, t, Path(path));
      assert s'.threads == s.threads[t := s'.threads[t]];
      SumUpdate(s.threads, t, s'.threads[t], Deleting(Path(path)));
    }
  }

  /** Where thread `a` is with its add: not there yet, failed, about to count, or done. */
  ghost predicate Adding(s: State, a: nat, path: string)
    requires a < |s.threads|
  {
    var th := s.threads[a];
    || (th.Running? && Appends(th.prog, Path(path)))
    || (th.Idle? && th.last != 0)
    || Armed(s, path)
    || (Margin(s, Path(path)) > 0 && th.Running? && th.prog.CountInc? && th.prog.inc == Files)
  }

  lemma AppendOwesCount(p: Prog, held: Option<StoreId>)
    requires Disciplined(p, held, -1)
    ensures p.CountInc? && held == Some(p.inc)
  {
  }

  /** With no delete pending, the append itself gives the path its margin. */
  lemma AppendArms(s: State, a: nat, path: string)
    requires OrderInv(s) && NonePending(s, path) && a < |s.threads| && s.threads[a].Running?
    requires s.threads[a].prog.Append? && s.threads[a].prog.key == Path(path)
    ensures var th := Exec(s, a).threads[a];
            Margin(Exec(s, a), Path(path)) > 0 && th.Running? && th.prog.CountInc? && th.prog.inc == Files
  {
    assert Tracked(s.threads[a]) && ThreadDisciplined(s, a);
    AppendOwesCount(s.threads[a].prog.next, Some(Files));
    MarginExec(s, a, Path(path));
    AppendingSum(s.threads, a, Path(path));
  }

  lemma {:induction false} AppendingSum(threads: seq<Thread>, a: nat, key: Key)
    ensures Sum(threads, Appending(key)) >= 0
    ensures a < |threads| && Appending(key)(threads[a]) == 1 ==> Sum(threads, Appending(key)) >= 1
  {
    if threads != [] {
      AppendingSum(threads[1..], if a == 0 then 0 else a - 1, key);
    }
  }

  lemma AddingExec(s: State, t: nat, a: nat, path: string)
    requires OrderInv(s) && NonePending(s, path)
    requires t < |s.threads| && s.threads[t].Running? && a < |s.threads| && Adding(s, a, path)
    ensures Adding(Exec(s, t), a, path)
  {
    assert ThreadDisciplined(s, a) && Tracked(s.threads[t]);
    var th := s.threads[a];
    if Armed(s, path) {
      ArmedExec(s, t, path);
    } else if th.Running? && Appends(th.prog, Path(path)) {
      if t == a && th.prog.Append? && th.prog.key == Path(path) {
        AppendArms(s, a, path);
      }
    } else if th.Running? {
      MarginExec(s, t, Path(path));
      assert s.stores.Get(Files).count >= 0;
    }
  }

  lemma {:induction false} AddingRun(s: State, steps: seq<Step>, a: nat, path: string)
    requires OrderInv(s) && NonePending(s, path) && a < |s.threads| && Adding(s, a, path)
    requires !BeginsDel(steps, Path(path)) && !Begins(steps, a)
    ensures NonePending(Run(s, steps), path) && Adding(Run(s, steps), a, path)
    decreases |steps|
  {
    if steps != [] {
      var step := steps[|steps| - 1];
      assert forall i :: 0 <= i < |steps| - 1 ==> steps[..|steps| - 1][i] == steps[i];
      AddingRun(s, steps[..|steps| - 1], a, path);
      var mid := Run(s, steps[..|steps| - 1]);
      OrderRun(s, steps[..|steps| - 1]);
      NonePendingStep(mid, step, path);
      if step.Go? {
        if step.thread < |mid.threads| && mid.threads[step.thread].Running? {
          AddingExec(mid, step.thread, a, path);
        }
      } else {
        MarginStart(mid, step.thread, step.call, Path(path));
      }
    }
  }

  /** Thread `a` is running an add that has not appended yet, no delete of the path is yet to
      unlink and none begins: when the add returns 0, the path is armed. */
  lemma QuietAddArms(start: State, before: seq<Step>, a: nat, during: seq<Step>, path: string)
    requires Init(start) && a < |start.threads|
    requires var s := Run(start, before);
             && s.threads[a].Running? && Appends(s.threads[a].prog, Path(path)) && NonePending(s, path)
             && !BeginsDel(during, Path(path)) && !Begins(during, a)
             && Run(s, during).threads[a] == Idle(0)
    ensures Armed(Run(Run(start, before), during), path)
  {
    InitOrdered(start);
    OrderRun(start, before);
    AddingRun(Run(start, before), during, a, path);
  }

  /** An add is in the state that `QuietAddArms` starts from as soon as it begins. */
  lemma AddBeginsUnappended(s: State, a: nat, path: string, alloc: bool)
    requires a < |s.threads| && s.threads[a].Idle?
    ensures var th := Apply(s, Start(a, Add(Path(path), alloc))).threads[a];
            th.Running? && Appends(th.prog, Path(path))
  {
    AddAppends(Path(path), alloc);
  }

  // ----- a write is refused --------------------------------------------------

  /** While `path` is listed and enforcement is on, this program can only return -EACCES. */
  predicate Denies(p: Prog, path: string) {
    match p
    case Ret(code) => code == -EACCES
    case Test(c, yes, no) =>
      (match c
       case IsEnabled => Denies(yes, path)
       case CountZero => Denies(no, path)
       case Given(b) => if b then Denies(yes, path) else Denies(no, path)
       case _ =>
         if c == FeatureBit(FileIntegrity) || c == Switch(KEnforce) || c == Has(Path(path)) then Denies(yes, path)
         else Denies(yes, path) && Denies(no, path))
    case Unlink(_, found, missing) => Denies(found, path) && Denies(missing, path)
    case _ => Denies(p.next, path)
  }

  /** A write-mode call of one of the two file hooks, with the path string obtained. */
  predicate WritesTo(hook: Hook, path: string) {
    match hook
    case FilePermission(access, page, p) => (access.write || access.append) && page && p == Some(path)
    case FileOpen(_, w, page, p) => w && page && p == Some(path)
    case _ => false
  }

  lemma WriteDenies(hook: Hook, path: string)
    requires WritesTo(hook, path)
    ensures Denies(HookProg(hook), path)
  {
    var known := OnProtectedFile(true);
    assert Denies(Total(Done(-EACCES)), path);
    assert Denies(Refuse(VFile, -EACCES), path);
    assert Denies(known, path);
    assert Denies(Release(Files, known), path);
    var look := Lookup(Path(path), known, Done(0));
    assert Denies(Test(Has(Path(path)), Release(Files, known), Release(Files, Done(0))), path);
    assert Denies(look, path);
    assert Denies(Test(FeatureBit(FileIntegrity), look, Done(0)), path);
    var inner := IsFileProtected(path, known, Done(0));
    assert Denies(inner, path);
    assert Denies(Test(Given(true), inner, Done(0)), path);
    var counted := Test(CountZero, Done(0), Test(Given(true), inner, Done(0)));
    assert Denies(counted, path);
    assert Denies(Test(FeatureBit(FileIntegrity), counted, Done(0)), path);
  }

  /** The call in thread `t` is on its way to, or has returned, -EACCES. */
  ghost predicate Refusing(s: State, t: nat, path: string)
    requires t < |s.threads|
  {
    var th := s.threads[t];
    if th.Running? then Denies(th.prog, path) else th.last == -EACCES
  }

  lemma RefusingExec(s: State, u: nat, t: nat, path: string)
    requires OrderInv(s) && Armed(s, path) && Enforcing(s)
    requires u < |s.threads| && s.threads[u].Running?
    requires t < |s.threads| && Refusing(s, t, path)
    ensures Refusing(Exec(s, u), t, path)
  {
    if u == t && s.threads[t].prog.Test? && s.threads[t].prog.cond == Has(Path(path)) {
      assert ThreadDisciplined(s, t);
      HolderSees(s, t, path);
    }
  }

  lemma {:induction false} RefusingRun(s: State, steps: seq<Step>, t: nat, path: string)
    requires OrderInv(s) && Armed(s, path) && t < |s.threads| && Refusing(s, t, path)
    requires !BeginsDel(steps, Path(path)) && Enforced(s, steps) && !Begins(steps, t)
    ensures Refusing(Run(s, steps), t, path)
    decreases |steps|
  {
    if steps != [] {
      var step := steps[|steps| - 1];
      var shorter := steps[..|steps| - 1];
      assert forall i :: 0 <= i <= |shorter| ==> shorter[..i] == steps[..i];
      assert shorter[..|shorter|] == shorter;
      RefusingRun(s, shorter, t, path);
      ArmedRun(s, shorter, path);
      OrderRun(s, shorter);
      var mid := Run(s, shorter);
      assert Enforcing(mid);
      if step.Go? && step.thread < |mid.threads| && mid.threads[step.thread].Running? {
        RefusingExec(mid, step.thread, t, path);
      }
    }
  }

  /** From `s`, after `between`, thread `t` calls `hook` and returns within `within`; no delete of
      the path begins and enforcement stays on during the call. */
  ghost predicate WriteReturns(s: State, between: seq<Step>, t: nat, hook: Hook, within: seq<Step>, path: string) {
    && t < |s.threads| && Run(s, between).threads[t].Idle?
    && var called := Apply(Run(s, between), Start(t, HookCall(hook)));
    && !BeginsDel(between, Path(path)) && !BeginsDel(within, Path(path)) && !Begins(within, t)
    && Enforced(called, within)
    && Run(called, within).threads[t].Idle?
  }

  function Verdict(s: State, between: seq<Step>, t: nat, hook: Hook, within: seq<Step>): Thread
    requires t < |s.threads|
  {
    Run(Apply(Run(s, between), Start(t, HookCall(hook))), within).threads[t]
  }

  lemma ArmedWriteIsDenied(s: State, between: seq<Step>, t: nat, hook: Hook, within: seq<Step>, path: string)
    requires OrderInv(s) && Armed(s, path) && WritesTo(hook, path) && WriteReturns(s, between, t, hook, within, path)
    ensures Verdict(s, between, t, hook, within) == Idle(-EACCES)
  {
    var start := Start(t, HookCall(hook));
    ArmedRun(s, between, path);
    OrderRun(s, between);
    OrderStep(Run(s, between), start);
    ArmedStep(Run(s, between), start, path);
    WriteDenies(hook, path);
    RefusingRun(Apply(Run(s, between), start), within, t, path);
  }

  /** From the return of a successful add of `path`, as long as no further delete of the path
      begins and whatever every other thread does, every write to the path is refused; it is
      enough that at that moment the copies outnumber the deletes yet to unlink. */
  lemma AddedPathIsDenied(start: State, before: seq<Step>, between: seq<Step>, t: nat, hook: Hook, within: seq<Step>, path: string)
    requires Init(start) && WritesTo(hook, path)
    requires var s := Run(start, before);
             && s.stores.files.lock.None? && Copies(s.stores.files.list, Path(path)) > Sum(s.threads, Deleting(Path(path)))
             && WriteReturns(s, between, t, hook, within, path)
    ensures Verdict(Run(start, before), between, t, hook, within) == Idle(-EACCES)
  {
    var s := Run(start, before);
    InitOrdered(start);
    OrderRun(start, before);
    NobodyAppendsUnlocked(s, Path(path));
    DeletingSum(s.threads, Path(path));
    assert StoreLocked(s, Files) && Path(path) in multiset(s.stores.files.list);
    ArmedWriteIsDenied(s, between, t, hook, within, path);
  }

  // ----- and only then -------------------------------------------------------

  /** A hook left to run does not touch the settings. */
  lemma {:induction false} HookKeepsSettings(s: State, t: nat, n: nat)
    requires OutcomeInv(s) && t < |s.threads| && (s.threads[t].Running? ==> s.threads[t].call.HookCall?)
    ensures var e := Run(s, Gos(t, n));
            OutcomeInv(e) && e.cfg == s.cfg && (e.threads[t].Running? ==> e.threads[t].call.HookCall?)
  {
    if n > 0 {
      HookKeepsSettings(s, t, n - 1);
      assert Gos(t, n)[..n - 1] == Gos(t, n - 1);
      var mid := Run(s, Gos(t, n - 1));
      assert ThreadEnds(mid.threads[t]);
      OutcomeStep(mid, Go(t));
    }
  }

  /** A call that runs on its own while enforcement is on returns within the window. */
  lemma LoneWriteReturns(s: State, between: seq<Step>, t: nat, hook: Hook, n: nat, path: string)
    requires OutcomeInv(Run(s, between)) && Enforcing(Run(s, between)) && !BeginsDel(between, Path(path))
    requires t < |s.threads| && Run(s, between).threads[t].Idle?
    requires Run(Apply(Run(s, between), Start(t, HookCall(hook))), Gos(t, n)).threads[t].Idle?
    ensures WriteReturns(s, between, t, hook, Gos(t, n), path)
  {
    var called := Apply(Run(s, between), Start(t, HookCall(hook)));
    OutcomeStep(Run(s, between), Start(t, HookCall(hook)));
    forall i | 0 <= i <= n ensures Enforcing(Run(called, Gos(t, n)[..i])) {
      assert Gos(t, n)[..i] == Gos(t, i);
      HookKeepsSettings(called, t, i);
    }
  }

  /** With the count at zero the shortcut lets a write through. */
  lemma ShortcutMisses(s: State, t: nat, hook: Hook, path: string) returns (n: nat)
    requires t < |s.threads| && s.threads[t].Idle? && Enforcing(s) && s.stores.files.count == 0 && WritesTo(hook, path)
    ensures Run(Apply(s, Start(t, HookCall(hook))), Gos(t, n)).threads[t] == Idle(0)
  {
    var s0 := Apply(s, Start(t, HookCall(hook)));
    var s1 := Exec(s0, t);
    var s2 := Exec(s1, t);
    var s3 := Exec(s2, t);
    assert s3.threads[t].prog == Done(0);
    assert Alone(s3, t) == Exec(s3, t) && Exec(s3, t).threads[t] == Idle(0);
    assert Alone(s0, t) == Alone(s1, t) == Alone(s2, t) == Alone(s3, t);
    n := AloneIsARun(s0, t);
  }

  /** Without a margin the path can be erased and every lock freed, with nobody starting. */
  lemma EraseAndFree(s: State, path: string) returns (steps: seq<Step>)
    requires OrderInv(s) && Margin(s, Path(path)) <= 0
    ensures OnlyFinishes(s, steps) && Unlocked(Run(s, steps)) && Path(path) !in Run(s, steps).stores.files.list
  {
    var erase := Erase(s, Path(path));
    var s1 := Run(s, erase);
    OrderRun(s, erase);
    var procs := FreeLock(s1, Procs);
    var s2 := Run(s1, procs);
    OrderRun(s1, procs);
    FinishesThen(s, erase, procs);
    var calls := FreeLock(s2, Syscalls);
    OrderRun(s2, calls);
    FinishesThen(s, erase + procs, calls);
    steps := erase + procs + calls;
    var e := Run(s, steps);
    assert e.stores.Get(Files) == s1.stores.Get(Files) && e.stores.Get(Procs) == s2.stores.Get(Procs);
    forall id ensures e.stores.Get(id).lock.None? && e.stores.Get(id).count == |e.stores.Get(id).list| {
      assert StoreLocked(e, id);
    }
  }

  lemma ErasedWritePasses(s: State, t: nat, hook: Hook, path: string) returns (n: nat)
    requires t < |s.threads| && s.threads[t].Idle? && Unlocked(s) && Path(path) !in s.stores.files.list && WritesTo(hook, path)
    ensures Run(Apply(s, Start(t, HookCall(hook))), Gos(t, n)).threads[t] == Idle(0)
  {
    HookAloneDecides(s, t, hook);
    n := AloneIsARun(Apply(s, Start(t, HookCall(hook))), t);
  }

  /** The exact condition.  At any moment of any run, under enforcement and for any idle thread:
      every write to the path that the thread will make before another delete of the path begins
      is refused exactly when the path is armed at that moment. */
  lemma WritesRefusedIff(start: State, before: seq<Step>, t: nat, hook: Hook, path: string)
    requires Init(start) && t < |start.threads| && WritesTo(hook, path)
    requires Run(start, before).threads[t].Idle? && Enforcing(Run(start, before))
    ensures var s := Run(start, before);
            (forall between, within :: WriteReturns(s, between, t, hook, within, path) ==>
               Verdict(s, between, t, hook, within) == Idle(-EACCES))
            <==> Armed(s, path)
  {
    var s := Run(start, before);
    InitOrdered(start);
    OrderRun(start, before);
    OutcomeRun(start, before);
    if Armed(s, path) {
      forall between, within | WriteReturns(s, between, t, hook, within, path)
        ensures Verdict(s, between, t, hook, within) == Idle(-EACCES)
      {
        ArmedWriteIsDenied(s, between, t, hook, within, path);
      }
    } else {
      var between: seq<Step> := [];
      if s.stores.files.count >= 1 {
        between := EraseAndFree(s, path);
      }
      var s1 := Run(s, between);
      OutcomeRun(s, between);
      assert s.stores.Get(Files).count >= 0;
      var n;
      if s.stores.files.count >= 1 {
        n := ErasedWritePasses(s1, t, hook, path);
      } else {
        n := ShortcutMisses(s1, t, hook, path);
      }
      LoneWriteReturns(s, between, t, hook, n, path);
      assert Verdict(s, between, t, hook, Gos(t, n)) == Idle(0);
    }
  }
}
