/** What a hook's outcome owes to the moments of its call.  Settings and lists may change between
    any two tests of a hook.  Its outcome is then the policy's decision on values each of which
    was in force at some moment of that very call: for every hook as far as refusing goes, and
    exactly for which hooks as far as the code and the statistics go. */
module InForce {
  import opened Kernel
  import opened Policy
  import opened Machine
  import opened Interleaving
  import opened HookPrograms
  import opened Solo

  // ----- what is in force ----------------------------------------------------

  /** A listed path counts as in force once it has been counted. */
  predicate Truth(s: State, c: Cond) {
    Holds(s, c) && (c.Has? && c.key.Path? ==> s.stores.files.count != 0)
  }

  /** At some moment of the run, `c` was `b`. */
  ghost predicate Was(s: State, steps: seq<Step>, c: Cond, b: bool) {
    exists i :: 0 <= i <= |steps| && Truth(Run(s, steps[..i]), c) == b
  }

  /** The settings, entries and coverage that a hook depends on. */
  predicate Relevant(c: Cond, hook: Hook) {
    Concerns(c, hook) && c != CountZero && !c.Given?
  }

  /** Each value of `cfg` and `lists` that the hook depends on was in force at some moment. */
  ghost predicate InForce(s: State, steps: seq<Step>, hook: Hook, cfg: Config, lists: Lists) {
    forall c :: Relevant(c, hook) ==> Was(s, steps, c, Answer(c, cfg, lists))
  }

  // ----- every interleaving --------------------------------------------------

  /** `k` is a possible explanation, given what has been answered true and false so far. */
  ghost predicate Compatible(k: Case, yeses: set<Cond>, noes: set<Cond>) {
    && (k.loud ==> forall c :: c in yeses ==> k.Says(c))
    && (forall c :: c in noes && (k.Firm() || c == Switch(KEnforce)) ==> !k.Says(c))
  }

  /** Every outcome still possible is explained by every explanation still possible. */
  ghost predicate OnTrack(p: Prog, moved: Counters, hook: Hook, grain: Grain, yeses: set<Cond>, noes: set<Cond>) {
    && (forall k: Case :: k.hook == hook && k.grain == grain && !k.strict && Compatible(k, yeses, noes) ==> Sound(p, k, moved))
    && (Switch(KEnforce) in yeses + noes ==> Unasking(p))
  }

  /** The outcome is explained by every explanation compatible with the answers. */
  ghost predicate Settled(r: Record, hook: Hook, grain: Grain, yeses: set<Cond>, noes: set<Cond>) {
    forall k: Case ::
      (k.hook == hook && k.grain == grain && !k.strict && k.loud == (r.code != 0 || r.moved != ZERO) && Compatible(k, yeses, noes)) ==>
        Explains(grain, k.Decision(), r.code, r.moved)
  }

  /** The last call of thread `t` to have returned. */
  function LastOf(h: seq<Record>, t: nat): Option<Record> {
    if h == [] then None
    else if h[|h| - 1].thread == t then Some(h[|h| - 1])
    else LastOf(h[..|h| - 1], t)
  }

  lemma LastOfMore(h: seq<Record>, r: Record, t: nat)
    ensures LastOf(h + [r], t) == if r.thread == t then Some(r) else LastOf(h, t)
  {
    assert (h + [r])[..|h|] == h;
  }

  /** Thread `t` is making the call, or has made it and is on record with its outcome. */
  ghost predicate Following(s: State, t: nat, hook: Hook, grain: Grain, yeses: set<Cond>, noes: set<Cond>) {
    && t < |s.threads| && Switch(KEnforce) !in yeses * noes
    && (forall c :: c in yeses + noes ==> Relevant(c, hook))
    && var th := s.threads[t];
    if th.Running? then th.call == HookCall(hook) && OnTrack(th.prog, th.moved, hook, grain, yeses, noes)
    else
      var r := LastOf(s.history, t);
      r.Some? && r.value.call == HookCall(hook) && r.value.code == th.last && Settled(r.value, hook, grain, yeses, noes)
  }

  /** The condition a test answers, if it tells anything. */
  function Told(s: State, p: Prog, hook: Hook): Option<Cond> {
    if !p.Test? || p.cond.Given? then None
    else if p.cond != CountZero then Some(p.cond)
    else if Holds(s, CountZero) && PathOf(hook).Some? then Some(Has(Path(PathOf(hook).value)))
    else None
  }

  function NewYeses(s: State, p: Prog, hook: Hook, yeses: set<Cond>): set<Cond> {
    if Told(s, p, hook).Some? && Truth(s, Told(s, p, hook).value) then yeses + {Told(s, p, hook).value} else yeses
  }

  function NewNoes(s: State, p: Prog, hook: Hook, noes: set<Cond>): set<Cond> {
    if Told(s, p, hook).Some? && !Truth(s, Told(s, p, hook).value) then noes + {Told(s, p, hook).value} else noes
  }

  /** With everything off, a quiet outcome is explained whatever has been answered. */
  function Dark(hook: Hook, grain: Grain): Case {
    Case(hook, Config(false, 0, false, false, false, false, false), Lists([], [], []), false, false, grain)
  }

  lemma DarkCompatible(hook: Hook, grain: Grain, yeses: set<Cond>, noes: set<Cond>)
    requires forall c :: c in noes ==> Relevant(c, hook)
    ensures Compatible(Dark(hook, grain), yeses, noes)
  {
  }

  /** What a test of a hook reveals: a relevant condition and its truth at that moment. */
  lemma Revealed(s: State, t: nat, k: Case)
    requires LockInv(s) && t < |s.threads| && s.threads[t].Running? && s.threads[t].prog.Test?
    requires Sound(s.threads[t].prog, k, s.threads[t].moved)
    ensures var c := s.threads[t].prog.cond;
            && (!c.Given? && c != CountZero ==> Relevant(c, k.hook) && Truth(s, c) == Holds(s, c))
            && (c == CountZero && Holds(s, c) && PathOf(k.hook).Some? ==> !Truth(s, Has(Path(PathOf(k.hook).value))))
  {
    assert ThreadDisciplined(s, t);
  }

  /** The branch taken is sound for every explanation that fits the answer. */
  lemma BranchSound(s: State, t: nat, k: Case, yeses: set<Cond>, noes: set<Cond>)
    requires LockInv(s) && t < |s.threads| && s.threads[t].Running? && s.threads[t].prog.Test?
    requires Sound(s.threads[t].prog, k, s.threads[t].moved)
    requires var p := s.threads[t].prog;
             Compatible(k, NewYeses(s, p, k.hook, yeses), NewNoes(s, p, k.hook, noes))
    ensures var p := s.threads[t].prog; Sound(if Holds(s, p.cond) then p.yes else p.no, k, s.threads[t].moved)
  {
    var p := s.threads[t].prog;
    Revealed(s, t, k);
    if Told(s, p, k.hook).Some? {
      assert Told(s, p, k.hook).value in NewYeses(s, p, k.hook, yeses) + NewNoes(s, p, k.hook, noes);
    }
  }

  /** A test of the hook itself. */
  lemma FollowTest(s: State, t: nat, hook: Hook, grain: Grain, yeses: set<Cond>, noes: set<Cond>)
    requires LockInv(s) && Following(s, t, hook, grain, yeses, noes) && s.threads[t].Running? && s.threads[t].prog.Test?
    ensures var p := s.threads[t].prog;
            Following(Exec(s, t), t, hook, grain, NewYeses(s, p, hook, yeses), NewNoes(s, p, hook, noes))
  {
    var p, moved := s.threads[t].prog, s.threads[t].moved;
    var yeses', noes' := NewYeses(s, p, hook, yeses), NewNoes(s, p, hook, noes);
    DarkCompatible(hook, grain, yeses, noes);
    assert Sound(p, Dark(hook, grain), moved);
    Revealed(s, t, Dark(hook, grain));
    var next := if Holds(s, p.cond) then p.yes else p.no;
    forall k: Case | k.hook == hook && k.grain == grain && !k.strict && Compatible(k, yeses', noes')
      ensures Sound(next, k, moved)
    {
      assert Compatible(k, yeses, noes);
      BranchSound(s, t, k, yeses, noes);
    }
  }

  lemma FollowExec(s: State, u: nat, t: nat, hook: Hook, grain: Grain, yeses: set<Cond>, noes: set<Cond>)
    requires LockInv(s) && Following(s, t, hook, grain, yeses, noes) && u < |s.threads| && s.threads[u].Running?
    requires u == t ==> !s.threads[t].prog.Test?
    ensures Following(Exec(s, u), t, hook, grain, yeses, noes)
  {
    var th := s.threads[u];
    if th.prog.Ret? {
      LastOfMore(s.history, Record(u, th.call, th.prog.code, th.moved), t);
    }
    if u == t {
      DarkCompatible(hook, grain, yeses, noes);
      assert Sound(th.prog, Dark(hook, grain), th.moved);
    } else {
      assert Exec(s, u).threads[t] == s.threads[t];
    }
  }

  lemma WasLonger(s: State, steps: seq<Step>, c: Cond, b: bool)
    requires steps != [] && Was(s, steps[..|steps| - 1], c, b)
    ensures Was(s, steps, c, b)
  {
    var shorter := steps[..|steps| - 1];
    var i :| 0 <= i <= |shorter| && Truth(Run(s, shorter[..i]), c) == b;
    assert shorter[..i] == steps[..i];
  }

  lemma WasBeforeLast(s: State, steps: seq<Step>, c: Cond)
    requires steps != []
    ensures Was(s, steps, c, Truth(Run(s, steps[..|steps| - 1]), c))
  {
  }

  /** Everything answered so far was so at some moment of the call. */
  ghost predicate Witnessed(s: State, steps: seq<Step>, yeses: set<Cond>, noes: set<Cond>) {
    (forall c :: c in yeses ==> Was(s, steps, c, true)) && (forall c :: c in noes ==> Was(s, steps, c, false))
  }

  lemma WitnessedLonger(s: State, steps: seq<Step>, yeses: set<Cond>, noes: set<Cond>)
    requires steps != [] && Witnessed(s, steps[..|steps| - 1], yeses, noes)
    ensures Witnessed(s, steps, yeses, noes)
  {
    forall c | c in yeses ensures Was(s, steps, c, true) { WasLonger(s, steps, c, true); }
    forall c | c in noes ensures Was(s, steps, c, false) { WasLonger(s, steps, c, false); }
  }

  lemma {:induction false} FollowRun(s: State, steps: seq<Step>, t: nat, hook: Hook, grain: Grain)
      returns (yeses: set<Cond>, noes: set<Cond>)
    requires LockInv(s) && Following(s, t, hook, grain, {}, {}) && !Begins(steps, t)
    ensures Following(Run(s, steps), t, hook, grain, yeses, noes)
    ensures Witnessed(s, steps, yeses, noes)
    decreases |steps|
  {
    if steps == [] {
      yeses, noes := {}, {};
    } else {
      var shorter, step := steps[..|steps| - 1], steps[|steps| - 1];
      assert forall i :: 0 <= i < |shorter| ==> shorter[i] == steps[i];
      yeses, noes := FollowRun(s, shorter, t, hook, grain);
      WitnessedLonger(s, steps, yeses, noes);
      var mid := Run(s, shorter);
      LockRun(s, shorter);
      if step.Go? && step.thread < |mid.threads| && mid.threads[step.thread].Running? {
        if step.thread == t && mid.threads[t].prog.Test? {
          var p := mid.threads[t].prog;
          FollowTest(mid, t, hook, grain, yeses, noes);
          if Told(mid, p, hook).Some? {
            WasBeforeLast(s, steps, Told(mid, p, hook).value);
          }
          yeses, noes := NewYeses(mid, p, hook, yeses), NewNoes(mid, p, hook, noes);
        } else {
          FollowExec(mid, step.thread, t, hook, grain, yeses, noes);
        }
      }
    }
  }

  // ----- settings and lists made to measure ----------------------------------

  function Bit(b: bool, mask: nat): nat {
    if b then mask else 0
  }

  function ConfigFor(v: Cond -> bool): Config {
    Config(v(IsEnabled),
           Bit(v(FeatureBit(ProcessProtect)), 1) + Bit(v(FeatureBit(FileIntegrity)), 2) + Bit(v(FeatureBit(SyscallAudit)), 4)
           + Bit(v(FeatureBit(ModuleControl)), 8) + Bit(v(FeatureBit(PtraceRestrict)), 16),
           v(Switch(KPtraceAll)), v(Switch(KEnforce)), v(Switch(KLog)), v(Switch(KAudit)), v(Switch(KLoadingDenied)))
  }

  function ListsFor(hook: Hook, v: Cond -> bool): Lists {
    Lists(if PathOf(hook).Some? && v(Has(Path(PathOf(hook).value))) then [Path(PathOf(hook).value)] else [],
          if hook.PtraceAccess? && v(AnyCovers(hook.child)) then [Proc(hook.child.comm, 0)] else [],
          if SyscallOf(hook).Some? && v(Has(Nr(SyscallOf(hook).value))) then [Nr(SyscallOf(hook).value)] else [])
  }

  lemma BitsAnswer(v: Cond -> bool, f: Feature)
    ensures HasFeature(ConfigFor(v).features, f) == v(FeatureBit(f))
  {
  }

  lemma MadeToMeasure(hook: Hook, v: Cond -> bool, c: Cond)
    requires Relevant(c, hook)
    ensures Answer(c, ConfigFor(v), ListsFor(hook, v)) == v(c)
  {
    match c
    case FeatureBit(f) => BitsAnswer(v, f);
    case AnyCovers(task) =>
      if v(c) { assert Covers(ListsFor(hook, v).procs[0], task); }
    case _ =>
  }

  // ----- the outcome is the policy's on values in force ----------------------

  /** Thread `t` calls `hook` at some moment of a run and returns within `within`. */
  ghost predicate Returns(start: State, before: seq<Step>, t: nat, hook: Hook, within: seq<Step>) {
    && Init(start) && t < |start.threads| && Run(start, before).threads[t].Idle? && !Begins(within, t)
    && Run(Called(start, before, t, hook), within).threads[t].Idle?
  }

  function Called(start: State, before: seq<Step>, t: nat, hook: Hook): State {
    Apply(Run(start, before), Start(t, HookCall(hook)))
  }

  /** The outcome of that call is what the policy decides on values in force during it. */
  ghost predicate Explained(start: State, before: seq<Step>, t: nat, hook: Hook, within: seq<Step>, grain: Grain) {
    var called := Called(start, before, t, hook);
    var end := Run(called, within);
    var r := LastOf(end.history, t);
    && t < |end.threads| && end.threads[t].Idle? && r.Some? && r.value.call == HookCall(hook) && r.value.code == end.threads[t].last
    && exists cfg, lists :: InForce(called, within, hook, cfg, lists)
                            && Explains(grain, Decide(cfg, lists, hook), r.value.code, r.value.moved)
  }

  lemma EveryOutcomeExplained(start: State, before: seq<Step>, t: nat, hook: Hook, within: seq<Step>, grain: Grain)
    requires Returns(start, before, t, hook, within) && Explicable(hook, grain)
    ensures Explained(start, before, t, hook, within, grain)
  {
    var called := Called(start, before, t, hook);
    InitLocked(start);
    LockRun(start, before);
    LockStep(Run(start, before), Start(t, HookCall(hook)));
    forall k: Case | k.hook == hook && k.grain == grain && !k.strict ensures Sound(HookProg(hook), k, ZERO) {
      HookSound(k);
    }
    var yeses, noes := FollowRun(called, within, t, hook, grain);
    Explanation(called, within, t, hook, grain, yeses, noes);
  }

  /** Choose each value as it was answered, or as it is at the end. */
  lemma Explanation(called: State, within: seq<Step>, t: nat, hook: Hook, grain: Grain, yeses: set<Cond>, noes: set<Cond>)
    requires Following(Run(called, within), t, hook, grain, yeses, noes) && Run(called, within).threads[t].Idle?
    requires Witnessed(called, within, yeses, noes)
    ensures var r := LastOf(Run(called, within).history, t).value;
            exists cfg, lists :: InForce(called, within, hook, cfg, lists) && Explains(grain, Decide(cfg, lists, hook), r.code, r.moved)
  {
    var end := Run(called, within);
    var r := LastOf(end.history, t).value;
    var loud := r.code != 0 || r.moved != ZERO;
    var v := (c: Cond) => if loud then c in yeses || (c !in noes && Truth(end, c)) else c !in noes && (c in yeses || Truth(end, c));
    var k := Case(hook, ConfigFor(v), ListsFor(hook, v), loud, false, grain);
    forall c | Relevant(c, hook) ensures k.Says(c) == v(c) && Was(called, within, c, v(c)) {
      MadeToMeasure(hook, v, c);
      assert within[..|within|] == within;
    }
    assert Compatible(k, yeses, noes);
    assert InForce(called, within, hook, k.cfg, k.lists);
    assert Explains(grain, k.Decision(), r.code, r.moved);
  }

  /** What no refusal can do without: the module enabled, for every hook; the feature and the
      entry or switch that the hook alone hangs on. */
  predicate Foundation(hook: Hook, c: Cond) {
    || c == IsEnabled
    || (PathOf(hook).Some? && (c == FeatureBit(FileIntegrity) || c == Switch(KEnforce) || c == Has(Path(PathOf(hook).value))))
    || ((hook.PtraceAccess? || hook.PtraceTraceme?) && c == FeatureBit(PtraceRestrict))
    || (hook.PtraceTraceme? && c == Switch(KPtraceAll))
    || (SyscallOf(hook).Some? && !ModuleRequest(hook)
        && (c == FeatureBit(SyscallAudit) || c == Switch(KAudit) || c == Has(Nr(SyscallOf(hook).value))))
    || (ModuleRequest(hook) && SyscallOf(hook).None? && (c == FeatureBit(ModuleControl) || c == Switch(KLoadingDenied)))
  }

  lemma FoundationNeeded(hook: Hook, c: Cond, cfg: Config, lists: Lists)
    requires Foundation(hook, c)
    ensures Relevant(c, hook) && (Decide(cfg, lists, hook).code != 0 ==> Answer(c, cfg, lists))
  {
  }

  /** Every refusal is founded: whatever settings and lists do meanwhile, a call that is refused
      had each of its foundations in force at some moment.  So a path not listed at any moment
      of a call is never refused to it. */
  lemma RefusalFounded(start: State, before: seq<Step>, t: nat, hook: Hook, within: seq<Step>, c: Cond)
    requires Returns(start, before, t, hook, within) && Foundation(hook, c)
    requires Run(Called(start, before, t, hook), within).threads[t].last != 0
    ensures Was(Called(start, before, t, hook), within, c, true)
  {
    EveryOutcomeExplained(start, before, t, hook, within, Verdict);
    var called := Called(start, before, t, hook);
    var r := LastOf(Run(called, within).history, t).value;
    var cfg, lists :| InForce(called, within, hook, cfg, lists) && Explains(Verdict, Decide(cfg, lists, hook), r.code, r.moved);
    FoundationNeeded(hook, c, cfg, lists);
  }

  // ----- where an explanation fails ------------------------------------------

  /** Whatever else changes, only `enabled` and the threads do. */
  predicate Same(b: State, s: State) {
    s.cfg.(enabled := true) == b.cfg.(enabled := true) && s.stores == b.stores
  }

  ghost predicate Steady(s: State, steps: seq<Step>) {
    forall i :: 0 <= i <= |steps| ==> Same(s, Run(s, steps[..i]))
  }

  lemma SteadyConcat(s: State, a: seq<Step>, b: seq<Step>)
    requires Steady(s, a) && Steady(Run(s, a), b)
    ensures Steady(s, a + b) && Run(s, a + b) == Run(Run(s, a), b)
  {
    RunConcat(s, a, b);
    assert a[..|a|] == a;
    forall i | 0 <= i <= |a + b| ensures Same(s, Run(s, (a + b)[..i])) {
      if i <= |a| {
        assert (a + b)[..i] == a[..i];
      } else {
        assert (a + b)[..i] == a + b[..i - |a|];
        RunConcat(s, a, b[..i - |a|]);
      }
    }
  }

  lemma SteadyOne(s: State, step: Step)
    requires Same(s, Apply(s, step))
    ensures Steady(s, [step]) && Run(s, [step]) == Apply(s, step)
  {
    assert [step][..0] == [] && [step][..1] == [step];
  }

  lemma SteadyThen(s: State, a: seq<Step>, step: Step)
    requires Steady(s, a) && Same(s, Apply(Run(s, a), step))
    ensures Steady(s, a + [step]) && Run(s, a + [step]) == Apply(Run(s, a), step)
  {
    assert a[..|a|] == a;
    SteadyOne(Run(s, a), step);
    SteadyConcat(s, a, [step]);
  }

  function Toggle(v: int): Call {
    Sysctl(KEnabled, Some(v), 0)
  }

  /** Thread 1 switches the module on or off. */
  lemma Toggles(s: State, v: int) returns (steps: seq<Step>)
    requires |s.threads| == 2 && s.threads[1].Idle?
    ensures Steady(s, steps) && !Begins(steps, 0)
    ensures var e := Run(s, steps);
            && e.cfg == s.cfg.(enabled := v != 0) && |e.threads| == 2 && e.threads[0] == s.threads[0] && e.threads[1].Idle?
            && e.counters == s.counters && LastOf(e.history, 0) == LastOf(s.history, 0)
  {
    var begun := Start(1, Toggle(v));
    SteadyOne(s, begun);
    var s1 := Apply(s, begun);
    var s2 := Exec(s1, 1);
    SteadyThen(s, [begun], Go(1));
    var s3 := Exec(s2, 1);
    SteadyThen(s, [begun] + [Go(1)], Go(1));
    var s4 := Exec(s3, 1);
    SteadyThen(s, [begun] + [Go(1)] + [Go(1)], Go(1));
    LastOfMore(s.history, Record(1, Toggle(v), 0, ZERO), 0);
    steps := [begun] + [Go(1)] + [Go(1)] + [Go(1)];
  }

  /** The program touches nothing but the statistics. */
  predicate Untouching(p: Prog) {
    match p
    case Ret(_) => true
    case Test(_, yes, no) => Untouching(yes) && Untouching(no)
    case Bump(_, next) => Untouching(next)
    case Total(next) => Untouching(next)
    case _ => false
  }

  lemma {:induction false} UntouchingSteady(s: State, t: nat, n: nat)
    requires t < |s.threads| && (s.threads[t].Running? ==> Untouching(s.threads[t].prog))
    ensures Steady(s, Gos(t, n))
    ensures var th := Run(s, Gos(t, n)).threads[t]; th.Running? ==> Untouching(th.prog)
  {
    if n > 0 {
      UntouchingSteady(s, t, n - 1);
      assert Gos(t, n) == Gos(t, n - 1) + [Go(t)];
      assert Gos(t, n - 1)[..n - 1] == Gos(t, n - 1);
      SteadyThen(s, Gos(t, n - 1), Go(t));
    }
  }

  /** The part of a doubly controlled hook that asks module control. */
  function ControlPart(hook: Hook): Prog
    requires DoublyControlled(hook)
  {
    match hook
    case ReadFile(id, file, page, path) => ReadModuleControl(id, file, page, path)
    case LoadData(id) => LoadModuleControl(id)
  }

  lemma ControlUntouching(hook: Hook)
    requires DoublyControlled(hook)
    ensures Untouching(ControlPart(hook))
  {
    var refuse := Refuse(VModule, -EPERM);
    assert Untouching(Total(Done(-EPERM))) && Untouching(refuse);
    var inner := refuse;
    if hook.ReadFile? {
      var named := Test(Given(hook.path.Some?), refuse, Done(-EPERM));
      assert Untouching(named);
      assert Untouching(Test(Given(hook.page), named, Done(-ENOMEM)));
      inner := ModuleReadRefusal(hook.file, hook.page, hook.path);
      assert Untouching(inner);
    }
    assert Untouching(Test(Switch(KLoadingDenied), inner, Done(0)));
    assert Untouching(Test(FeatureBit(ModuleControl), Test(Switch(KLoadingDenied), inner, Done(0)), Done(0)));
  }

  /** Everything on, the hook's system call listed, two idle threads. */
  function Primed(hook: Hook): State
    requires DoublyControlled(hook)
  {
    var none := StoreState([], 0, None);
    State(BOOT_CONFIG.(loadingDenied := true), Mirrors(1, FEATURE_ALL, 0, 1, 1, 1, 1),
          Stores(none, none, StoreState([Nr(SyscallOf(hook).value)], 1, None)),
          ZERO, [], [Idle(0), Idle(0)])
  }

  lemma PrimedInit(hook: Hook)
    requires DoublyControlled(hook)
    ensures Init(Primed(hook))
  {
    assert forall id :: StartStore(Primed(hook).stores.Get(id), id);
    assert forall knob :: InSync(Primed(hook), knob);
  }

  /** A doubly controlled hook asks twice whether the module is enabled before anything else. */
  lemma AsksTwice(hook: Hook)
    requires DoublyControlled(hook)
    ensures var p := HookProg(hook);
            && p.Test? && p.cond == IsEnabled
            && p.yes.Test? && p.yes.cond == IsEnabled && p.yes.no == ControlPart(hook)
  {
  }

  /** One after the other. */
  lemma Chain(s: State, a: seq<Step>, b: seq<Step>)
    requires Steady(s, a) && Steady(Run(s, a), b) && !Begins(a, 0) && !Begins(b, 0)
    ensures Steady(s, a + b) && Run(s, a + b) == Run(Run(s, a), b) && !Begins(a + b, 0)
  {
    SteadyConcat(s, a, b);
  }

  /** Thread 0 asks whether the module is enabled. */
  lemma Asks(s: State)
    requires |s.threads| == 2 && s.threads[0].Running? && s.threads[0].prog.Test? && s.threads[0].prog.cond == IsEnabled
    ensures var th := s.threads[0];
            Run(s, [Go(0)]) == SetThread(s, 0, th.(prog := if s.cfg.enabled then th.prog.yes else th.prog.no))
    ensures Steady(s, [Go(0)]) && !Begins([Go(0)], 0)
  {
    SteadyOne(s, Go(0));
  }

  /** The hook asks whether the module is enabled; it is.  The module is switched off, the hook
      asks again on behalf of the system call list and passes it by, and the module is switched
      on again before module control is asked. */
  lemma SlipsBy(s: State, hook: Hook) returns (steps: seq<Step>)
    requires DoublyControlled(hook) && s.cfg.enabled && |s.threads| == 2 && s.threads[1].Idle?
    requires s.threads[0] == Running(HookCall(hook), HookProg(hook), ZERO)
    ensures Steady(s, steps) && !Begins(steps, 0)
    ensures var e := Run(s, steps);
            && |e.threads| == 2 && e.threads[0] == Running(HookCall(hook), ControlPart(hook), ZERO)
            && e.cfg == s.cfg && e.counters == s.counters && LastOf(e.history, 0) == LastOf(s.history, 0)
  {
    AsksTwice(hook);
    Asks(s);
    var s1 := Run(s, [Go(0)]);
    var off := Toggles(s1, 0);
    Chain(s, [Go(0)], off);
    var s2 := Run(s1, off);
    Asks(s2);
    Chain(s, [Go(0)] + off, [Go(0)]);
    var s3 := Run(s2, [Go(0)]);
    var on := Toggles(s3, 1);
    Chain(s, [Go(0)] + off + [Go(0)], on);
    steps := [Go(0)] + off + [Go(0)] + on;
  }

  lemma ControlSettled(hook: Hook, cfg: Config, lists: Lists)
    requires DoublyControlled(hook) && RefusedByModuleControl(cfg, hook)
    ensures SettlesOn(ControlPart(hook), hook, cfg, lists, ModuleRefusal(hook))
  {
    var d, refuse := ModuleRefusal(hook), Refuse(VModule, -EPERM);
    if d.event == ModuleDenied {
      assert Settles(Total(Done(-EPERM)), hook, cfg, lists, d, BumpCounter(ZERO, VModule));
      assert SettlesOn(refuse, hook, cfg, lists, d);
    }
    var inner := refuse;
    if hook.ReadFile? {
      var named := Test(Given(hook.path.Some?), refuse, Done(-EPERM));
      assert hook.file && hook.page ==> SettlesOn(named, hook, cfg, lists, d);
      assert hook.file ==> SettlesOn(Test(Given(hook.page), named, Done(-ENOMEM)), hook, cfg, lists, d);
      inner := ModuleReadRefusal(hook.file, hook.page, hook.path);
    }
    assert SettlesOn(inner, hook, cfg, lists, d);
    var asked := Test(Switch(KLoadingDenied), inner, Done(0));
    assert SettlesOn(asked, hook, cfg, lists, d);
    assert SettlesOn(Test(FeatureBit(ModuleControl), asked, Done(0)), hook, cfg, lists, d);
  }

  /** Left to itself, a hook that can only end in `d` does, and touches nothing on the way. */
  lemma EndsAlone(s: State, hook: Hook, p: Prog, d: Decision) returns (n: nat)
    requires LockInv(s) && Unlocked(s) && |s.threads| == 2 && s.threads[0] == Running(HookCall(hook), p, ZERO)
    requires SettlesOn(p, hook, s.cfg, ListsOf(s), d) && Untouching(p)
    ensures Steady(s, Gos(0, n)) && Run(s, Gos(0, n)).threads[0].Idle?
    ensures LastOf(Run(s, Gos(0, n)).history, 0) == Some(Record(0, HookCall(hook), d.code, Tally(ZERO, d.event)))
  {
    assert ThreadDisciplined(s, 0);
    assert s.stores.Get(Files).lock.None? && s.stores.Get(Procs).lock.None? && s.stores.Get(Syscalls).lock.None?;
    assert Plus(s.counters, ZERO) == s.counters;
    SettledAlone(s, 0, hook, d, s.counters, None);
    LastOfMore(s.history, Record(0, HookCall(hook), d.code, Tally(ZERO, d.event)), 0);
    n := AloneIsARun(s, 0);
    UntouchingSteady(s, 0, n);
  }

  /** So a call slips past the system call list and is refused by module control instead. */
  lemma SlipsThrough(hook: Hook) returns (within: seq<Step>)
    requires DoublyControlled(hook)
    ensures Returns(Primed(hook), [], 0, hook, within) && Steady(Called(Primed(hook), [], 0, hook), within)
    ensures LastOf(Run(Called(Primed(hook), [], 0, hook), within).history, 0) ==
            Some(Record(0, HookCall(hook), ModuleRefusal(hook).code, Tally(ZERO, ModuleRefusal(hook).event)))
  {
    PrimedInit(hook);
    var called := Called(Primed(hook), [], 0, hook);
    var slip := SlipsBy(called, hook);
    var s := Run(called, slip);
    InitLocked(Primed(hook));
    LockStep(Primed(hook), Start(0, HookCall(hook)));
    LockRun(called, slip);
    assert slip[..|slip|] == slip;
    assert Same(called, s);
    assert HasFeature(FEATURE_ALL, ModuleControl);
    ControlSettled(hook, s.cfg, ListsOf(s));
    ControlUntouching(hook);
    var n := EndsAlone(s, hook, ControlPart(hook), ModuleRefusal(hook));
    SteadyConcat(called, slip, Gos(0, n));
    within := slip + Gos(0, n);
  }

  /** With auditing live but for the module switch, and the call listed, the policy never decides
      what module control did. */
  lemma ListWouldRefuse(hook: Hook, cfg: Config, lists: Lists, grain: Grain)
    requires DoublyControlled(hook) && !Explicable(hook, grain)
    requires HasFeature(cfg.features, SyscallAudit) && cfg.auditEnable && Nr(SyscallOf(hook).value) in lists.syscalls
    ensures !Explains(grain, Decide(cfg, lists, hook), ModuleRefusal(hook).code, Tally(ZERO, ModuleRefusal(hook).event))
  {
    assert Decide(cfg, lists, hook) == if cfg.enabled then Decision(-EPERM, SyscallDenied) else Decision(0, Quiet);
  }

  /** No values in force during that call explain it. */
  lemma SlipUnexplained(hook: Hook, within: seq<Step>, grain: Grain)
    requires DoublyControlled(hook) && !Explicable(hook, grain)
    requires Steady(Called(Primed(hook), [], 0, hook), within)
    requires LastOf(Run(Called(Primed(hook), [], 0, hook), within).history, 0) ==
             Some(Record(0, HookCall(hook), ModuleRefusal(hook).code, Tally(ZERO, ModuleRefusal(hook).event)))
    ensures !Explained(Primed(hook), [], 0, hook, within, grain)
  {
    forall cfg, lists | InForce(Called(Primed(hook), [], 0, hook), within, hook, cfg, lists)
      ensures !Explains(grain, Decide(cfg, lists, hook), ModuleRefusal(hook).code, Tally(ZERO, ModuleRefusal(hook).event))
    {
      AuditUnmoved(hook, within, cfg, lists);
      ListWouldRefuse(hook, cfg, lists, grain);
    }
  }

  lemma AuditUnmoved(hook: Hook, within: seq<Step>, cfg: Config, lists: Lists)
    requires DoublyControlled(hook) && Steady(Called(Primed(hook), [], 0, hook), within)
    requires InForce(Called(Primed(hook), [], 0, hook), within, hook, cfg, lists)
    ensures HasFeature(cfg.features, SyscallAudit) && cfg.auditEnable && Nr(SyscallOf(hook).value) in lists.syscalls
  {
    assert HasFeature(FEATURE_ALL, SyscallAudit);
    Unmoved(hook, within, cfg, lists, FeatureBit(SyscallAudit));
    Unmoved(hook, within, cfg, lists, Switch(KAudit));
    Unmoved(hook, within, cfg, lists, Has(Nr(SyscallOf(hook).value)));
  }

  lemma Unmoved(hook: Hook, within: seq<Step>, cfg: Config, lists: Lists, c: Cond)
    requires DoublyControlled(hook) && Steady(Called(Primed(hook), [], 0, hook), within)
    requires InForce(Called(Primed(hook), [], 0, hook), within, hook, cfg, lists)
    requires Relevant(c, hook) && c != IsEnabled
    ensures Answer(c, cfg, lists) == Truth(Primed(hook), c)
  {
    var called := Called(Primed(hook), [], 0, hook);
    assert Was(called, within, c, Answer(c, cfg, lists));
    var i :| 0 <= i <= |within| && Truth(Run(called, within[..i]), c) == Answer(c, cfg, lists);
    assert Same(called, Run(called, within[..i]));
  }

  /** Which outcomes are always the policy's decision on values in force during the call, over all
      runs: whether a call is refused, for every hook; its code, for every hook but module reads
      without a page buffer; code and statistics, for every hook that the system call list and
      module control do not both decide about. */
  lemma ExplainedIff(hook: Hook, grain: Grain)
    ensures (forall start, before, t, within :: Returns(start, before, t, hook, within) ==>
               Explained(start, before, t, hook, within, grain))
            <==> Explicable(hook, grain)
  {
    if Explicable(hook, grain) {
      forall start, before, t, within | Returns(start, before, t, hook, within)
        ensures Explained(start, before, t, hook, within, grain)
      {
        EveryOutcomeExplained(start, before, t, hook, within, grain);
      }
    } else {
      var within := SlipsThrough(hook);
      SlipUnexplained(hook, within, grain);
    }
  }
}
