/** What can be counted on beside any number of other threads: readers pass, a task with a listed
    entry cannot be traced, a listed loader call is refused, and what is never listed is not. */
module Assurances {
  import opened Kernel
  import opened Policy
  import opened Machine
  import opened Interleaving
  import opened HookPrograms
  import opened InForce
  import opened Solo
  import opened Retention
  import CString
  import Aegis
  import PolicyLaws

  // ----- values that hold throughout a call ----------------------------------

  /** At every moment of the run, `c` was `b`. */
  ghost predicate Always(s: State, steps: seq<Step>, c: Cond, b: bool) {
    forall i :: 0 <= i <= |steps| ==> Truth(Run(s, steps[..i]), c) == b
  }

  /** At every moment of the run, the module was enabled and the feature was on. */
  ghost predicate AlwaysLive(s: State, steps: seq<Step>, f: Feature) {
    forall i :: 0 <= i <= |steps| ==> Live(Run(s, steps[..i]).cfg, f)
  }

  ghost predicate AlwaysListed(s: State, steps: seq<Step>, key: Key) {
    forall i :: 0 <= i <= |steps| ==> key in ListOf(Run(s, steps[..i]), key)
  }

  /** The record a call leaves when it returns. */
  function Result(start: State, before: seq<Step>, t: nat, hook: Hook, within: seq<Step>): Option<Record> {
    LastOf(Run(Called(start, before, t, hook), within).history, t)
  }

  /** What was in force at some moment is what was in force at every moment. */
  lemma Answers(s: State, steps: seq<Step>, hook: Hook, cfg: Config, lists: Lists, c: Cond, b: bool)
    requires InForce.InForce(s, steps, hook, cfg, lists) && Relevant(c, hook) && Always(s, steps, c, b)
    ensures Answer(c, cfg, lists) == b
  {
  }

  lemma Accounted(start: State, before: seq<Step>, t: nat, hook: Hook, within: seq<Step>, grain: Grain)
    returns (cfg: Config, lists: Lists)
    requires Returns(start, before, t, hook, within) && Explicable(hook, grain)
    ensures var called := Called(start, before, t, hook);
            var r := Result(start, before, t, hook, within);
            && t < |Run(called, within).threads| && Run(called, within).threads[t].Idle?
            && r.Some? && r.value.code == Run(called, within).threads[t].last
            && InForce.InForce(called, within, hook, cfg, lists)
            && Explains(grain, Decide(cfg, lists, hook), r.value.code, r.value.moved)
  {
    EveryOutcomeExplained(start, before, t, hook, within, grain);
    var called := Called(start, before, t, hook);
    var r := LastOf(Run(called, within).history, t).value;
    cfg, lists :| InForce.InForce(called, within, hook, cfg, lists) && Explains(grain, Decide(cfg, lists, hook), r.code, r.moved);
  }

  // ----- readers -------------------------------------------------------------

  /** Whatever settings and lists do meanwhile, an open for reading and an access that neither
      writes nor appends returns 0 and adds nothing to any violation counter. */
  lemma ReaderPasses(start: State, before: seq<Step>, t: nat, hook: Hook, within: seq<Step>)
    requires Returns(start, before, t, hook, within)
    requires (hook.FileOpen? && !hook.fmodeWrite) || (hook.FilePermission? && !hook.access.write && !hook.access.append)
    ensures var r := Result(start, before, t, hook, within);
            && Run(Called(start, before, t, hook), within).threads[t].last == 0
            && r.Some? && r.value.code == 0 && r.value.moved.fileViolations == 0
            && (r.value.moved == ZERO || r.value.moved == Counters(0, 0, 0, 0, 1))
  {
    var cfg, lists := Accounted(start, before, t, hook, within, Everything);
  }

  // ----- tracers -------------------------------------------------------------

  lemma AlwaysCovered(s: State, steps: seq<Step>, comm: string, pid: int, task: Task)
    requires PolicyLaws.Names(comm, pid, task) && AlwaysListed(s, steps, Proc(comm, pid))
    ensures Always(s, steps, AnyCovers(task), true)
  {
    forall i | 0 <= i <= |steps| ensures Truth(Run(s, steps[..i]), AnyCovers(task)) {
      PolicyLaws.CoveredIsNamed(Run(s, steps[..i]).stores.procs.list, task);
    }
  }

  lemma AlwaysBits(s: State, steps: seq<Step>, f: Feature)
    requires AlwaysLive(s, steps, f)
    ensures Always(s, steps, IsEnabled, true) && Always(s, steps, FeatureBit(f), true)
  {
  }

  /** While an entry that names a process is listed and both features are live, every attempt to
      trace the process is refused and counted, whatever else changes meanwhile. */
  lemma {:induction false} NamedTaskUntraceable(start: State, before: seq<Step>, t: nat, child: Task, noAudit: bool,
                                                    within: seq<Step>, comm: string, pid: int)
    requires Returns(start, before, t, PtraceAccess(child, noAudit), within) && PolicyLaws.Names(comm, pid, child)
    requires var called := Called(start, before, t, PtraceAccess(child, noAudit));
             && AlwaysListed(called, within, Proc(comm, pid))
             && AlwaysLive(called, within, PtraceRestrict) && AlwaysLive(called, within, ProcessProtect)
    ensures var hook := PtraceAccess(child, noAudit);
            var r := Result(start, before, t, hook, within);
            && Run(Called(start, before, t, hook), within).threads[t].last == -EPERM
            && r.Some? && r.value.code == -EPERM && r.value.moved == Counters(1, 0, 0, 0, 1)
  {
    var hook := PtraceAccess(child, noAudit);
    var called := Called(start, before, t, hook);
    AlwaysCovered(called, within, comm, pid, child);
    AlwaysBits(called, within, PtraceRestrict);
    AlwaysBits(called, within, ProcessProtect);
    var cfg, lists := Accounted(start, before, t, hook, within, Everything);
    Answers(called, within, hook, cfg, lists, IsEnabled, true);
    Answers(called, within, hook, cfg, lists, FeatureBit(PtraceRestrict), true);
    Answers(called, within, hook, cfg, lists, FeatureBit(ProcessProtect), true);
    Answers(called, within, hook, cfg, lists, AnyCovers(child), true);
  }

  /** No entry that names the process is listed at any moment of the run. */
  ghost predicate NeverNamed(s: State, steps: seq<Step>, task: Task) {
    forall i, comm, pid :: 0 <= i <= |steps| && PolicyLaws.Names(comm, pid, task) ==>
      Proc(comm, pid) !in Run(s, steps[..i]).stores.procs.list
  }

  lemma NeverCovered(s: State, steps: seq<Step>, task: Task)
    requires NeverNamed(s, steps, task)
    ensures Always(s, steps, AnyCovers(task), false)
  {
    forall i | 0 <= i <= |steps| ensures !Truth(Run(s, steps[..i]), AnyCovers(task)) {
      PolicyLaws.CoveredIsNamed(Run(s, steps[..i]).stores.procs.list, task);
    }
  }

  /** And unless restrict-all is set or an entry names the process at some moment of the attempt, the
      attempt is allowed and leaves no trace in the statistics. */
  lemma {:induction false} UnnamedTaskTraceable(start: State, before: seq<Step>, t: nat, child: Task, noAudit: bool, within: seq<Step>)
    requires Returns(start, before, t, PtraceAccess(child, noAudit), within)
    requires var called := Called(start, before, t, PtraceAccess(child, noAudit));
             && NeverNamed(called, within, child)
             && forall i :: 0 <= i <= |within| ==> !Run(called, within[..i]).cfg.ptraceRestrictAll
    ensures var hook := PtraceAccess(child, noAudit);
            var r := Result(start, before, t, hook, within);
            && Run(Called(start, before, t, hook), within).threads[t].last == 0
            && r.Some? && r.value.code == 0 && r.value.moved == ZERO
  {
    var hook := PtraceAccess(child, noAudit);
    var called := Called(start, before, t, hook);
    var cfg, lists := Accounted(start, before, t, hook, within, Everything);
    NeverCovered(called, within, child);
    Answers(called, within, hook, cfg, lists, Switch(KPtraceAll), false);
    Answers(called, within, hook, cfg, lists, AnyCovers(child), false);
  }

  /** From the moment an entry is listed with more copies than deletes yet to unlink, until
      another delete of it begins, no task that it names can be traced while both features are
      live. */
  lemma {:induction false} SafeEntryProtects(start: State, before: seq<Step>, between: seq<Step>, t: nat, child: Task,
                                                 noAudit: bool, within: seq<Step>, comm: string, pid: int)
    requires Safe(Run(start, before), Proc(comm, pid)) && PolicyLaws.Names(comm, pid, child)
    requires !BeginsDel(between, Proc(comm, pid)) && !BeginsDel(within, Proc(comm, pid))
    requires Returns(start, before + between, t, PtraceAccess(child, noAudit), within)
    requires var called := Called(start, before + between, t, PtraceAccess(child, noAudit));
             AlwaysLive(called, within, PtraceRestrict) && AlwaysLive(called, within, ProcessProtect)
    ensures Run(Called(start, before + between, t, PtraceAccess(child, noAudit)), within).threads[t].last == -EPERM
  {
    var hook, key := PtraceAccess(child, noAudit), Proc(comm, pid);
    var s := Run(start, before);
    var called := Called(start, before + between, t, hook);
    InitOrdered(start);
    OrderRun(start, before);
    RunConcat(start, before, between);
    SafeRun(s, between, key);
    OrderRun(s, between);
    SafeRun(Run(s, between), [Start(t, HookCall(hook))], key);
    OrderRun(Run(s, between), [Start(t, HookCall(hook))]);
    assert Run(Run(s, between), [Start(t, HookCall(hook))]) == called;
    forall i | 0 <= i <= |within| ensures key in ListOf(Run(called, within[..i]), key) {
      SafeRun(called, within[..i], key);
    }
    NamedTaskUntraceable(start, before + between, t, child, noAudit, within, comm, pid);
  }

  // ----- loaders -------------------------------------------------------------

  /** The number under which the source looks up a loader request. */
  predicate LooksUp(hook: Hook, nr: int) {
    || (hook.LoadData? && hook.loadId == LoadModule && nr == NR_INIT_MODULE)
    || (hook.LoadData? && hook.loadId == LoadKexecImage && nr == NR_KEXEC_LOAD)
    || (hook.ReadFile? && hook.readId == ReadModule && nr == NR_FINIT_MODULE)
    || (hook.ReadFile? && (hook.readId == ReadKexecImage || hook.readId == ReadKexecInitramfs) && nr == NR_KEXEC_FILE_LOAD)
  }

  lemma ListedDecided(cfg: Config, lists: Lists, hook: Hook, nr: int)
    requires LooksUp(hook, nr)
    ensures Relevant(Has(Nr(nr)), hook) && Relevant(Switch(KAudit), hook) && Relevant(FeatureBit(SyscallAudit), hook)
    ensures Live(cfg, SyscallAudit) && cfg.auditEnable && Nr(nr) in lists.syscalls ==> Decide(cfg, lists, hook).code != 0
  {
  }

  lemma UnlistedDecided(cfg: Config, lists: Lists, hook: Hook)
    requires hook.LoadData? || hook.ReadFile?
    requires !cfg.loadingDenied && forall nr :: LooksUp(hook, nr) ==> Nr(nr) !in lists.syscalls
    ensures Decide(cfg, lists, hook).code == 0
  {
  }

  /** A request whose number is listed while auditing is live is refused. */
  lemma {:induction false} ListedCallRefused(start: State, before: seq<Step>, t: nat, hook: Hook, within: seq<Step>, nr: int)
    requires Returns(start, before, t, hook, within) && LooksUp(hook, nr)
    requires var called := Called(start, before, t, hook);
             && AlwaysListed(called, within, Nr(nr)) && AlwaysLive(called, within, SyscallAudit)
             && forall i :: 0 <= i <= |within| ==> Run(called, within[..i]).cfg.auditEnable
    ensures Run(Called(start, before, t, hook), within).threads[t].last != 0
  {
    var called := Called(start, before, t, hook);
    var cfg, lists := Accounted(start, before, t, hook, within, Verdict);
    AlwaysBits(called, within, SyscallAudit);
    ListedDecided(cfg, lists, hook, nr);
    Answers(called, within, hook, cfg, lists, IsEnabled, true);
    Answers(called, within, hook, cfg, lists, FeatureBit(SyscallAudit), true);
    Answers(called, within, hook, cfg, lists, Switch(KAudit), true);
    Answers(called, within, hook, cfg, lists, Has(Nr(nr)), true);
  }

  /** A loader request is let through if loading is not denied at any moment and its number, if
      it has one, is not listed at any. */
  lemma {:induction false} UnlistedCallAllowed(start: State, before: seq<Step>, t: nat, hook: Hook, within: seq<Step>)
    requires Returns(start, before, t, hook, within) && (hook.LoadData? || hook.ReadFile?)
    requires var called := Called(start, before, t, hook);
             forall i :: 0 <= i <= |within| ==>
               var s := Run(called, within[..i]);
               && !s.cfg.loadingDenied
               && forall nr :: LooksUp(hook, nr) ==> Nr(nr) !in s.stores.syscalls.list
    ensures Run(Called(start, before, t, hook), within).threads[t].last == 0
  {
    var called := Called(start, before, t, hook);
    var cfg, lists := Accounted(start, before, t, hook, within, Verdict);
    Answers(called, within, hook, cfg, lists, Switch(KLoadingDenied), false);
    forall nr | LooksUp(hook, nr) ensures Nr(nr) !in lists.syscalls {
      Answers(called, within, hook, cfg, lists, Has(Nr(nr)), false);
    }
    UnlistedDecided(cfg, lists, hook);
  }

  // ----- additions -----------------------------------------------------------

  /** The key as the source's functions take it: strings without a NUL that fit their fields. */
  predicate Fits(key: Key) {
    match key
    case Path(path) => CString.NUL !in path && |path| < PATH_LEN
    case Proc(comm, _) => CString.NUL !in comm && |comm| < COMM_LEN
    case Nr(_) => true
  }

  /** An add that runs without interference does to its store what the source's function of that
      store does, with that store's own limit. */
  lemma AddAloneIsTheFunction(s: State, t: nat, key: Key, alloc: bool)
    requires t < |s.threads| && Unlocked(s) && Fits(key)
    ensures key.Path? ==> Leaves(s, t, Add(key, alloc), AddProg(key, alloc), Files,
                                 Aegis.PathAdd(s.stores.files.list, key.path, alloc))
    ensures key.Proc? ==> Leaves(s, t, Add(key, alloc), AddProg(key, alloc), Procs,
                                 Aegis.CommAdd(s.stores.procs.list, key.comm, key.pid, alloc))
    ensures key.Nr? ==> Leaves(s, t, Add(key, alloc), AddProg(key, alloc), Syscalls,
                               Aegis.NrAdd(s.stores.syscalls.list, key.nr, alloc))
  {
    AddAloneInserts(s, t, key, alloc);
    match key
    case Path(path) => assert CString.Clip(path, PATH_LEN) == path;
    case Proc(comm, _) => assert CString.Clip(comm, COMM_LEN) == comm;
    case Nr(_) =>
  }
}
