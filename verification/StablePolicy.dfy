/** What a hook decides in the middle of everything else.  In every interleaving, a call during
    which the policy it depends on does not change returns and counts exactly what the policy
    says, however its own steps are spread between those of other threads; and a run whose
    policy does not change leaves exactly the statistics the policy adds up to. */
module StablePolicy {
  import opened Kernel
  import opened Policy
  import opened Machine
  import opened ThreadSums
  import opened Conservation
  import opened HookPrograms

  // ----- every interleaving --------------------------------------------------

  /** In `s`, everything the hook's decision depends on is as in `cfg` and `lists`, and nothing
      else need be; a listed path has been counted. */
  ghost predicate Agrees(s: State, hook: Hook, cfg: Config, lists: Lists) {
    && s.cfg.enabled == cfg.enabled
    && (forall f :: Consults(hook, f) ==> (HasFeature(s.cfg.features, f) <==> HasFeature(cfg.features, f)))
    && (forall knob :: Minds(hook, knob) ==> SwitchOf(s.cfg, knob) == SwitchOf(cfg, knob))
    && (PathOf(hook).Some? ==>
          (Path(PathOf(hook).value) in s.stores.files.list <==> Path(PathOf(hook).value) in lists.files))
    && (PathListed(lists, hook) ==> s.stores.files.count != 0)
    && (SyscallOf(hook).Some? ==>
          (Nr(SyscallOf(hook).value) in s.stores.syscalls.list <==> Nr(SyscallOf(hook).value) in lists.syscalls))
    && (hook.PtraceAccess? ==> (TaskCovered(s.stores.procs.list, hook.child) <==> TaskCovered(lists.procs, hook.child)))
  }

  ghost predicate AgreesThroughout(s: State, steps: seq<Step>, hook: Hook, cfg: Config, lists: Lists) {
    forall i :: 0 <= i <= |steps| ==> Agrees(Run(s, steps[..i]), hook, cfg, lists)
  }

  /** A running call of `hook` that can only end in `d`. */
  ghost predicate Settling(th: Thread, hook: Hook, cfg: Config, lists: Lists, d: Decision) {
    th.Running? && th.call == HookCall(hook) && Settles(th.prog, hook, cfg, lists, d, th.moved)
  }

  /** One step of such a call: it goes on settling, or returns as it must. */
  lemma SettlingExec(s: State, t: nat, hook: Hook, cfg: Config, lists: Lists, d: Decision)
    requires Agrees(s, hook, cfg, lists) && t < |s.threads| && Settling(s.threads[t], hook, cfg, lists, d)
    ensures var s' := Exec(s, t);
            if s'.threads[t].Idle? then
              && s'.threads[t].last == d.code
              && s'.history == s.history + [Record(t, HookCall(hook), d.code, Tally(ZERO, d.event))]
            else Settling(s'.threads[t], hook, cfg, lists, d) && s'.history == s.history
  {
    var p := s.threads[t].prog;
    if p.Test? && p.cond != CountZero {
      assert Holds(s, p.cond) <==> Answer(p.cond, cfg, lists);
    }
  }

  /** Thread `t` is on its way to `d`, or has returned it and is on record with it. */
  ghost predicate Decided(s: State, t: nat, hook: Hook, cfg: Config, lists: Lists, d: Decision)
    requires t < |s.threads|
  {
    var th := s.threads[t];
    if th.Running? then Settling(th, hook, cfg, lists, d)
    else th.last == d.code && Record(t, HookCall(hook), d.code, Tally(ZERO, d.event)) in s.history
  }

  lemma DecidedExec(s: State, u: nat, t: nat, hook: Hook, cfg: Config, lists: Lists, d: Decision)
    requires Agrees(s, hook, cfg, lists) && u < |s.threads| && s.threads[u].Running?
    requires t < |s.threads| && Decided(s, t, hook, cfg, lists, d)
    ensures Decided(Exec(s, u), t, hook, cfg, lists, d)
  {
    if u == t {
      SettlingExec(s, t, hook, cfg, lists, d);
    } else {
      assert s.history <= Exec(s, u).history;
    }
  }

  lemma {:induction false} DecidedRun(s: State, steps: seq<Step>, t: nat, hook: Hook, cfg: Config, lists: Lists, d: Decision)
    requires t < |s.threads| && Decided(s, t, hook, cfg, lists, d)
    requires AgreesThroughout(s, steps, hook, cfg, lists) && !Begins(steps, t)
    ensures Decided(Run(s, steps), t, hook, cfg, lists, d)
    decreases |steps|
  {
    if steps != [] {
      var step := steps[|steps| - 1];
      var shorter := steps[..|steps| - 1];
      assert forall i :: 0 <= i <= |shorter| ==> shorter[..i] == steps[..i];
      DecidedRun(s, shorter, t, hook, cfg, lists, d);
      var mid := Run(s, shorter);
      assert steps[..|shorter|] == shorter;
      assert Agrees(mid, hook, cfg, lists);
      if step.Go? && step.thread < |mid.threads| && mid.threads[step.thread].Running? {
        DecidedExec(mid, step.thread, t, hook, cfg, lists, d);
      }
    }
  }

  /** A hook call by thread `t` from any state `s` whatsoever, with any number of other threads
      taking any steps in between: if the settings and the entries it depends on stay put while
      it runs, it returns what the policy decides and counts what the policy says. */
  lemma StablePolicyDecides(s: State, t: nat, hook: Hook, within: seq<Step>, cfg: Config, lists: Lists)
    requires t < |s.threads| && s.threads[t].Idle? && !Begins(within, t)
    requires AgreesThroughout(Apply(s, Start(t, HookCall(hook))), within, hook, cfg, lists)
    ensures var d := Decide(cfg, lists, hook);
            var end := Run(Apply(s, Start(t, HookCall(hook))), within);
            end.threads[t].Idle? ==>
              && end.threads[t].last == d.code
              && Record(t, HookCall(hook), d.code, Tally(ZERO, d.event)) in end.history
  {
    HookSettles(hook, cfg, lists);
    DecidedRun(Apply(s, Start(t, HookCall(hook))), within, t, hook, cfg, lists, Decide(cfg, lists, hook));
  }

  // ----- whole runs under a policy that holds still --------------------------

  /** The policy in force is `cfg` and `lists`, as far as any hook could tell. */
  ghost predicate Still(s: State, cfg: Config, lists: Lists) {
    forall hook :: Agrees(s, hook, cfg, lists)
  }

  ghost predicate StillThroughout(s: State, steps: seq<Step>, cfg: Config, lists: Lists) {
    forall i :: 0 <= i <= |steps| ==> Still(Run(s, steps[..i]), cfg, lists)
  }

  /** A returned hook call did what the policy says. */
  predicate Obeys(r: Record, cfg: Config, lists: Lists) {
    r.call.HookCall? ==> DecidesAs(cfg, lists, r.call.hook, r.code, r.moved)
  }

  ghost predicate ObeyInv(b: State, s: State, cfg: Config, lists: Lists) {
    && Later(b, s) && OutcomeInv(s)
    && (forall t :: 0 <= t < |s.threads| && s.threads[t].Running? && s.threads[t].call.HookCall? ==>
          Settling(s.threads[t], s.threads[t].call.hook, cfg, lists, Decide(cfg, lists, s.threads[t].call.hook)))
    && (forall i :: 0 <= i < |Since(b, s)| ==> Obeys(Since(b, s)[i], cfg, lists))
  }

  lemma ObeyExec(b: State, s: State, t: nat, cfg: Config, lists: Lists)
    requires ObeyInv(b, s, cfg, lists) && Still(s, cfg, lists) && t < |s.threads| && s.threads[t].Running?
    ensures ObeyInv(b, Exec(s, t), cfg, lists)
  {
    var s', th := Exec(s, t), s.threads[t];
    OutcomeStep(s, Go(t));
    MeterStep(s, t, MTotal);
    if th.call.HookCall? {
      assert Agrees(s, th.call.hook, cfg, lists);
      SettlingExec(s, t, th.call.hook, cfg, lists, Decide(cfg, lists, th.call.hook));
    }
    if th.prog.Ret? {
      assert Since(b, s') == Since(b, s) + [Record(t, th.call, th.prog.code, th.moved)];
    } else {
      assert Since(b, s') == Since(b, s);
    }
  }

  lemma ObeyStart(b: State, s: State, t: nat, call: Call, cfg: Config, lists: Lists)
    requires ObeyInv(b, s, cfg, lists)
    ensures ObeyInv(b, Apply(s, Start(t, call)), cfg, lists)
  {
    OutcomeStep(s, Start(t, call));
    assert Since(b, Apply(s, Start(t, call))) == Since(b, s);
    if call.HookCall? {
      HookSettles(call.hook, cfg, lists);
    }
  }

  lemma {:induction false} ObeyRun(b: State, steps: seq<Step>, cfg: Config, lists: Lists)
    requires Quiescent(b) && OutcomeInv(b) && StillThroughout(b, steps, cfg, lists)
    ensures ObeyInv(b, Run(b, steps), cfg, lists)
    decreases |steps|
  {
    if steps == [] {
      assert Since(b, b) == [];
    } else {
      var shorter, step := steps[..|steps| - 1], steps[|steps| - 1];
      assert forall i :: 0 <= i <= |shorter| ==> shorter[..i] == steps[..i];
      ObeyRun(b, shorter, cfg, lists);
      assert steps[..|shorter|] == shorter;
      var s := Run(b, shorter);
      assert Still(s, cfg, lists);
      if step.Start? {
        ObeyStart(b, s, step.thread, step.call, cfg, lists);
      } else if step.thread < |s.threads| && s.threads[step.thread].Running? {
        ObeyExec(b, s, step.thread, cfg, lists);
      }
    }
  }

  /** The policy's own account: tally what it decides for each hook call, one after the other. */
  function Audit(c: Counters, h: seq<Record>, cfg: Config, lists: Lists): Counters {
    if h == [] then c
    else
      var before := Audit(c, h[..|h| - 1], cfg, lists);
      var call := h[|h| - 1].call;
      if call.HookCall? then Tally(before, Decide(cfg, lists, call.hook).event) else before
  }

  lemma {:induction false} AuditReads(c: Counters, h: seq<Record>, cfg: Config, lists: Lists, m: Meter)
    requires forall i :: 0 <= i < |h| ==> Obeys(h[i], cfg, lists) && Allowed(h[i].call, h[i].code, h[i].moved)
    ensures Read(Audit(c, h, cfg, lists), m) == Read(c, m) + Over(h, Returned(m))
  {
    if h != [] {
      var r := h[|h| - 1];
      AuditReads(c, h[..|h| - 1], cfg, lists, m);
      assert Obeys(r, cfg, lists) && Allowed(r.call, r.code, r.moved);
      assert Read(ZERO, m) == 0;
    }
  }

  lemma SameCounters(a: Counters, b: Counters)
    requires forall m :: Read(a, m) == Read(b, m)
    ensures a == b
  {
    assert Read(a, MPtrace) == Read(b, MPtrace) && Read(a, MFile) == Read(b, MFile);
    assert Read(a, MSyscall) == Read(b, MSyscall) && Read(a, MModule) == Read(b, MModule);
    assert Read(a, MTotal) == Read(b, MTotal);
  }

  /** From any rest point of any run, let any number of threads make any calls in any
      interleaving while the policy holds still.  At the next rest point every hook call has
      returned what the policy decides, and the statistics have moved by exactly the events the
      policy decides for the hook calls made. */
  lemma StableRunTallies(start: State, before: seq<Step>, steps: seq<Step>, cfg: Config, lists: Lists)
    requires Init(start) && Quiescent(Run(start, before)) && Quiescent(Run(Run(start, before), steps))
    requires StillThroughout(Run(start, before), steps, cfg, lists)
    ensures var b, e := Run(start, before), Run(Run(start, before), steps);
            && Later(b, e)
            && e.counters == Audit(b.counters, Since(b, e), cfg, lists)
            && forall i :: 0 <= i < |Since(b, e)| ==> Obeys(Since(b, e)[i], cfg, lists)
  {
    var b, e := Run(start, before), Run(Run(start, before), steps);
    OutcomeRun(start, before);
    ObeyRun(b, steps, cfg, lists);
    BalancedRun(b, steps);
    var h := Since(b, e);
    assert forall i :: 0 <= i < |h| ==> h[i] == e.history[|b.history| + i];
    forall m ensures Read(e.counters, m) == Read(Audit(b.counters, h, cfg, lists), m) {
      AuditReads(b.counters, h, cfg, lists, m);
      SumZero(e.threads, Pending(m));
    }
    SameCounters(e.counters, Audit(b.counters, h, cfg, lists));
  }
}
