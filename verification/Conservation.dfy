/** The shared statistics over every interleaving.  Whatever other threads do, a call that
    returns has returned and counted what the policy decides about that call under some
    settings and lists; so nothing is counted twice or lost, and the counters are exactly what
    the returned calls account for. */
module Conservation {
  import opened Kernel
  import opened Policy
  import opened Machine
  import opened ThreadSums

  // ----- what a call may return and count ------------------------------------

  /** The policy, for some settings and some lists, has `hook` return `code` and count `moved`. */
  ghost predicate Possible(hook: Hook, code: int, moved: Counters) {
    exists cfg, lists :: DecidesAs(cfg, lists, hook, code, moved)
  }

  predicate DecidesAs(cfg: Config, lists: Lists, hook: Hook, code: int, moved: Counters) {
    var d := Decide(cfg, lists, hook);
    code == d.code && moved == Tally(ZERO, d.event)
  }

  /** Hooks end in a possible outcome; the other calls count nothing. */
  ghost predicate Allowed(call: Call, code: int, moved: Counters) {
    if call.HookCall? then Possible(call.hook, code, moved) else moved == ZERO
  }

  /** The marks a call can leave in the total without a violation. */
  datatype Mark = FreeMark | ExecMark | LogMark

  predicate FileCall(call: Call) {
    call.HookCall? && (call.hook.FilePermission? || call.hook.FileOpen?)
  }

  /** Which calls leave which mark. */
  predicate Makes(call: Call, mark: Mark) {
    match mark
    case FreeMark => call == HookCall(TaskFree)
    case ExecMark => call == HookCall(BprmCheck)
    case LogMark => FileCall(call)
  }

  /** The setting on which a mark hangs: the module enabled, auditing on, logging on. */
  predicate MarkOn(cfg: Config, mark: Mark) {
    match mark
    case FreeMark => cfg.enabled
    case ExecMark => cfg.auditEnable
    case LogMark => cfg.integrityLog
  }

  /** The question a call asks last before it leaves its mark. */
  function Question(mark: Mark): Prog {
    var c := match mark
      case FreeMark => IsEnabled
      case ExecMark => Switch(KAudit)
      case LogMark => Switch(KLog);
    Test(c, Total(Done(0)), Done(0))
  }

  /** Having counted `moved`, the program can only end in an allowed way, whichever way its tests
      of shared state go.  The total is incremented only right after a violation or on a true
      answer to the question that its mark hangs on; only a sysctl call touches the settings. */
  ghost predicate Ends(p: Prog, call: Call, moved: Counters) {
    match p
    case Ret(code) => Allowed(call, code, moved)
    case Test(c, yes, no) =>
      && !no.Total? && (yes.Total? ==> exists mark :: Makes(call, mark) && p == Question(mark))
      && if c.Given? then Ends(if c.answer then yes else no, call, moved)
         else Ends(yes, call, moved) && Ends(no, call, moved)
    case Unlink(_, found, missing) =>
      !found.Total? && !missing.Total? && Ends(found, call, moved) && Ends(missing, call, moved)
    case Bump(v, next) => moved == ZERO && next.Total? && Ends(next, call, BumpCounter(moved, v))
    case Total(next) => next.Ret? && Ends(next, call, CountTotal(moved))
    case SetMirror(_, _, next) => call.Sysctl? && !next.Total? && Ends(next, call, moved)
    case Sync(_, next) => call.Sysctl? && !next.Total? && Ends(next, call, moved)
    case _ => !p.next.Total? && Ends(p.next, call, moved)
  }

  ghost predicate EndsHook(p: Prog, hook: Hook) {
    Ends(p, HookCall(hook), ZERO)
  }

  // Settings and lists under which the policy decides in some way or other.

  function Nothing(): Lists {
    Lists([], [], [])
  }

  function Off(): Config {
    BOOT_CONFIG.(enabled := false)
  }

  function Strict(): Config {
    BOOT_CONFIG.(ptraceRestrictAll := true, loadingDenied := true)
  }

  function Lenient(): Config {
    BOOT_CONFIG.(integrityEnforce := false)
  }

  /** Under a disabled module everything is let through quietly. */
  lemma QuietEnds(hook: Hook)
    ensures EndsHook(Done(0), hook)
  {
    assert DecidesAs(Off(), Nothing(), hook, 0, ZERO);
  }

  /** A refusal is allowed where the policy can refuse in that way. */
  lemma RefuseEnds(v: Violation, code: int, hook: Hook, cfg: Config, lists: Lists)
    requires DecidesAs(cfg, lists, hook, code, CountTotal(BumpCounter(ZERO, v)))
    ensures EndsHook(Refuse(v, code), hook)
  {
    assert Ends(Total(Done(code)), HookCall(hook), BumpCounter(ZERO, v));
  }

  lemma TotalEnds(hook: Hook, cfg: Config, lists: Lists)
    requires DecidesAs(cfg, lists, hook, 0, CountTotal(ZERO))
    ensures EndsHook(Total(Done(0)), hook)
  {
    assert Ends(Done(0), HookCall(hook), CountTotal(ZERO));
  }

  lemma CheckEnds(f: Feature, yes: Prog, no: Prog, hook: Hook)
    requires EndsHook(yes, hook) && EndsHook(no, hook) && !yes.Total? && !no.Total?
    ensures EndsHook(FeatureCheck(f, yes, no), hook)
  {
    assert EndsHook(Test(FeatureBit(f), yes, no), hook);
  }

  lemma ScanEnds(id: StoreId, c: Cond, yes: Prog, no: Prog, hook: Hook)
    requires !c.Given? && EndsHook(yes, hook) && EndsHook(no, hook) && !yes.Total? && !no.Total?
    ensures EndsHook(Acquire(id, Test(c, Release(id, yes), Release(id, no))), hook)
  {
    assert EndsHook(Release(id, yes), hook) && EndsHook(Release(id, no), hook);
    assert EndsHook(Test(c, Release(id, yes), Release(id, no)), hook);
  }

  lemma BlockedEnds(nr: int, yes: Prog, no: Prog, hook: Hook)
    requires EndsHook(yes, hook) && EndsHook(no, hook) && !yes.Total? && !no.Total?
    ensures EndsHook(IsSyscallBlocked(nr, yes, no), hook)
  {
    ScanEnds(Syscalls, Has(Nr(nr)), yes, no, hook);
    var audited := Test(Switch(KAudit), Lookup(Nr(nr), yes, no), no);
    assert EndsHook(audited, hook);
    CheckEnds(SyscallAudit, audited, no, hook);
  }

  lemma PtraceEnds(hook: Hook)
    requires hook.PtraceAccess? || hook.PtraceTraceme?
    ensures EndsHook(HookProg(hook), hook)
  {
    var refuse := Refuse(VPtrace, -EPERM);
    QuietEnds(hook);
    RefuseEnds(VPtrace, -EPERM, hook, Strict(), Nothing());
    var rest := Done(0);
    if hook.PtraceAccess? {
      ScanEnds(Procs, AnyCovers(hook.child), refuse, Done(0), hook);
      var scan := Acquire(Procs, Test(AnyCovers(hook.child), Release(Procs, refuse), Release(Procs, Done(0))));
      CheckEnds(ProcessProtect, scan, Done(0), hook);
      var known := IsProcessProtected(hook.child, refuse, Done(0));
      CheckEnds(ProcessProtect, known, Done(0), hook);
      rest := FeatureCheck(ProcessProtect, known, Done(0));
    }
    assert EndsHook(Test(Switch(KPtraceAll), refuse, rest), hook);
    CheckEnds(PtraceRestrict, Test(Switch(KPtraceAll), refuse, rest), Done(0), hook);
  }

  /** The file check on behalf of `hook`, which asks for exactly this access. */
  ghost predicate AsksFor(hook: Hook, writes: bool, page: bool, path: Option<string>) {
    forall cfg, lists :: Decide(cfg, lists, hook) == FileDecision(cfg, lists.files, writes, page, path)
  }

  lemma KnownFileEnds(hook: Hook, writes: bool, path: string)
    requires FileCall(HookCall(hook)) && AsksFor(hook, writes, true, Some(path))
    ensures EndsHook(OnProtectedFile(writes), hook)
  {
    var listed := Lists([Path(path)], [], []);
    QuietEnds(hook);
    assert Decide(Lenient(), listed, hook) == FileDecision(Lenient(), listed.files, writes, true, Some(path));
    TotalEnds(hook, Lenient(), listed);
    assert Makes(HookCall(hook), LogMark) && LogAccess() == Question(LogMark);
    assert EndsHook(LogAccess(), hook);
    if writes {
      assert Decide(BOOT_CONFIG, listed, hook) == FileDecision(BOOT_CONFIG, listed.files, writes, true, Some(path));
      RefuseEnds(VFile, -EACCES, hook, BOOT_CONFIG, listed);
    }
  }

  lemma FileEnds(hook: Hook, writes: bool, page: bool, path: Option<string>)
    requires FileCall(HookCall(hook)) && AsksFor(hook, writes, page, path)
    ensures EndsHook(FileProg(writes, page, path), hook)
  {
    var known := OnProtectedFile(writes);
    QuietEnds(hook);
    var inner := if path.None? then Done(0) else IsFileProtected(path.value, known, Done(0));
    if page && path.Some? {
      KnownFileEnds(hook, writes, path.value);
      ScanEnds(Files, Has(Path(path.value)), known, Done(0), hook);
      CheckEnds(FileIntegrity, Lookup(Path(path.value), known, Done(0)), Done(0), hook);
    }
    assert EndsHook(Test(Given(page), inner, Done(0)), hook);
    assert EndsHook(Test(CountZero, Done(0), Test(Given(page), inner, Done(0))), hook);
    CheckEnds(FileIntegrity, Test(CountZero, Done(0), Test(Given(page), inner, Done(0))), Done(0), hook);
  }

  /** What module control can do with a request. */
  lemma ControlPossible(hook: Hook)
    requires ModuleRequest(hook)
    ensures DecidesAs(Strict(), Nothing(), hook, ModuleRefusal(hook).code, Tally(ZERO, ModuleRefusal(hook).event))
  {
  }

  lemma ModuleReadEnds(hook: Hook)
    requires hook.ReadFile? && hook.readId == ReadModule
    ensures EndsHook(ModuleReadRefusal(hook.file, hook.page, hook.path), hook)
  {
    ControlPossible(hook);
    if hook.file && hook.page && hook.path.Some? {
      RefuseEnds(VModule, -EPERM, hook, Strict(), Nothing());
    }
    var named := Test(Given(hook.path.Some?), Refuse(VModule, -EPERM), Done(-EPERM));
    if hook.file && hook.page {
      assert EndsHook(named, hook);
    }
    if hook.file {
      assert EndsHook(Test(Given(hook.page), named, Done(-ENOMEM)), hook);
    }
  }

  lemma SyscallPossible(hook: Hook)
    requires SyscallOf(hook).Some?
    ensures EndsHook(Refuse(VSyscall, -EPERM), hook)
  {
    var listed := Lists([], [], [Nr(SyscallOf(hook).value)]);
    RefuseEnds(VSyscall, -EPERM, hook, BOOT_CONFIG, listed);
  }

  lemma ReadControlEnds(hook: Hook)
    requires hook.ReadFile?
    ensures EndsHook(ReadModuleControl(hook.readId, hook.file, hook.page, hook.path), hook)
  {
    QuietEnds(hook);
    if hook.readId == ReadModule {
      ModuleReadEnds(hook);
    } else if hook.readId == ReadFirmware {
      ControlPossible(hook);
      RefuseEnds(VModule, -EPERM, hook, Strict(), Nothing());
    }
    var inner := if hook.readId == ReadModule then Test(Switch(KLoadingDenied), ModuleReadRefusal(hook.file, hook.page, hook.path), Done(0))
                 else if hook.readId == ReadFirmware then Test(Switch(KLoadingDenied), Refuse(VModule, -EPERM), Done(0))
                 else Done(0);
    assert EndsHook(inner, hook);
    CheckEnds(ModuleControl, inner, Done(0), hook);
  }

  lemma ReadFileEnds(hook: Hook)
    requires hook.ReadFile?
    ensures EndsHook(HookProg(hook), hook)
  {
    QuietEnds(hook);
    ReadControlEnds(hook);
    var rest := ReadModuleControl(hook.readId, hook.file, hook.page, hook.path);
    if SyscallOf(hook).Some? {
      SyscallPossible(hook);
      BlockedEnds(SyscallOf(hook).value, Refuse(VSyscall, -EPERM), rest, hook);
    }
  }

  lemma LoadDataEnds(hook: Hook)
    requires hook.LoadData?
    ensures EndsHook(HookProg(hook), hook)
  {
    QuietEnds(hook);
    if hook.loadId == LoadModule {
      ControlPossible(hook);
      RefuseEnds(VModule, -EPERM, hook, Strict(), Nothing());
    }
    var inner := if hook.loadId == LoadModule then Test(Switch(KLoadingDenied), Refuse(VModule, -EPERM), Done(0)) else Done(0);
    assert EndsHook(inner, hook);
    CheckEnds(ModuleControl, inner, Done(0), hook);
    var rest := LoadModuleControl(hook.loadId);
    var body := match SyscallOf(hook)
                case Some(nr) => IsSyscallBlocked(nr, Refuse(VSyscall, -EPERM), rest)
                case None => rest;
    if SyscallOf(hook).Some? {
      SyscallPossible(hook);
      BlockedEnds(SyscallOf(hook).value, Refuse(VSyscall, -EPERM), rest, hook);
    }
    CheckEnds(SyscallAudit, body, rest, hook);
  }

  lemma BprmEnds()
    ensures EndsHook(BprmProg(), BprmCheck)
  {
    QuietEnds(BprmCheck);
    TotalEnds(BprmCheck, BOOT_CONFIG, Nothing());
    var audit := Test(Switch(KAudit), Total(Done(0)), Done(0));
    assert Makes(HookCall(BprmCheck), ExecMark) && audit == Question(ExecMark);
    assert EndsHook(audit, BprmCheck);
    CheckEnds(SyscallAudit, audit, Done(0), BprmCheck);
  }

  lemma AddEnds(key: Key, alloc: bool)
    ensures Ends(AddProg(key, alloc), Add(key, alloc), ZERO)
  {
    var id, add := StoreOf(key), Add(key, alloc);
    var append := Append(key, CountInc(id, Release(id, Done(0))));
    assert Ends(CountInc(id, Release(id, Done(0))), add, ZERO);
    assert Ends(Acquire(id, append), add, ZERO);
    assert Ends(Release(id, AddTail(key, alloc)), add, ZERO);
    assert Ends(AddCheck(key, alloc), add, ZERO);
    assert Ends(Test(Full(id), Release(id, Done(-ENOSPC)), AddCheck(key, alloc)), add, ZERO);
  }

  lemma DelEnds(key: Key)
    ensures Ends(DelProg(key), Del(key), ZERO)
  {
    var id := StoreOf(key);
    assert Ends(CountDec(id, Release(id, Done(0))), Del(key), ZERO);
    assert Ends(DelProg(key).next, Del(key), ZERO);
  }

  /** Every entry point can only end as the policy allows for that very call. */
  lemma CodeEnds(call: Call)
    ensures Ends(Code(call), call, ZERO)
  {
    match call
    case Add(key, alloc) => AddEnds(key, alloc);
    case Del(key) => DelEnds(key);
    case Sysctl(knob, _, _) => assert Ends(Sync(knob, Done(0)), call, ZERO);
    case HookCall(hook) =>
      QuietEnds(hook);
      match hook {
        case TaskFree =>
          TotalEnds(hook, BOOT_CONFIG, Nothing());
          assert Makes(call, FreeMark) && HookProg(hook) == Question(FreeMark);
        case BprmCheck => BprmEnds();
        case PtraceAccess(_, _) => PtraceEnds(hook);
        case PtraceTraceme => PtraceEnds(hook);
        case FilePermission(access, page, path) => FileEnds(hook, access.write || access.append, page, path);
        case FileOpen(r, w, page, path) => if r || w { FileEnds(hook, w, page, path); }
        case ReadFile(_, _, _, _) => ReadFileEnds(hook);
        case LoadData(_) => LoadDataEnds(hook);
      }
  }

  // ----- every returned call has an allowed outcome --------------------------

  ghost predicate ThreadEnds(th: Thread) {
    th.Running? ==> Ends(th.prog, th.call, th.moved)
  }

  ghost predicate OutcomeInv(s: State) {
    && (forall t :: 0 <= t < |s.threads| ==> ThreadEnds(s.threads[t]))
    && (forall i :: 0 <= i < |s.history| ==> Allowed(s.history[i].call, s.history[i].code, s.history[i].moved))
  }

  lemma OutcomeStep(s: State, step: Step)
    requires OutcomeInv(s)
    ensures OutcomeInv(Apply(s, step))
  {
    var t := step.thread;
    if t < |s.threads| {
      if step.Start? {
        CodeEnds(step.call);
      } else {
        assert ThreadEnds(s.threads[t]);
      }
    }
  }

  lemma {:induction false} OutcomeRun(s: State, steps: seq<Step>)
    requires OutcomeInv(s)
    ensures OutcomeInv(Run(s, steps))
    decreases |steps|
  {
    if steps != [] {
      OutcomeRun(s, steps[..|steps| - 1]);
      OutcomeStep(Run(s, steps[..|steps| - 1]), steps[|steps| - 1]);
    }
  }

  /** In every interleaving, however settings and lists change meanwhile, each hook call that has
      returned did so with a code and a movement of the statistics that the policy decides for
      that very call under some settings and lists; all other calls moved nothing. */
  lemma OutcomesAllowed(s: State, steps: seq<Step>, i: nat)
    requires Init(s) && i < |Run(s, steps).history|
    ensures var r := Run(s, steps).history[i]; Allowed(r.call, r.code, r.moved)
  {
    OutcomeRun(s, steps);
  }

  // ----- the counters are what the calls moved -------------------------------

  datatype Meter = MPtrace | MFile | MSyscall | MModule | MTotal

  function Read(c: Counters, m: Meter): int {
    match m
    case MPtrace => c.ptraceBlocked
    case MFile => c.fileViolations
    case MSyscall => c.syscallViolations
    case MModule => c.moduleViolations
    case MTotal => c.totalEvents
  }

  /** Adding up a weight over returned calls. */
  ghost function Over(h: seq<Record>, w: Record -> int): int {
    if h == [] then 0 else Over(h[..|h| - 1], w) + w(h[|h| - 1])
  }

  ghost function Returned(m: Meter): Record -> int {
    (r: Record) => Read(r.moved, m)
  }

  ghost function Pending(m: Meter): Thread -> int {
    (th: Thread) => if th.Running? then Read(th.moved, m) else 0
  }

  /** Since `b`, at rest, the calls that returned are `Since(b, s)`. */
  ghost predicate Later(b: State, s: State) {
    b.history <= s.history
  }

  function Since(b: State, s: State): seq<Record>
    requires Later(b, s)
  {
    s.history[|b.history|..]
  }

  ghost predicate Balanced(b: State, s: State) {
    && Later(b, s)
    && forall m :: Read(s.counters, m) == Read(b.counters, m) + Over(Since(b, s), Returned(m)) + Sum(s.threads, Pending(m))
  }

  /** A step adds to a counter what it adds to the record of its own call, and a return hands
      that record over. */
  lemma MeterStep(s: State, t: nat, m: Meter)
    requires t < |s.threads| && s.threads[t].Running?
    ensures var s', th := Exec(s, t), s.threads[t];
            if th.prog.Ret? then
              s'.counters == s.counters && s'.threads[t].Idle? && s'.history == s.history + [Record(t, th.call, th.prog.code, th.moved)]
            else
              && s'.history == s.history && s'.threads[t].Running?
              && Read(s'.counters, m) - Read(s.counters, m) == Read(s'.threads[t].moved, m) - Read(th.moved, m)
  {
  }

  lemma BalancedMeter(b: State, s: State, t: nat, m: Meter)
    requires Balanced(b, s) && t < |s.threads| && s.threads[t].Running?
    ensures var s' := Exec(s, t);
            && Later(b, s')
            && Read(s'.counters, m) == Read(b.counters, m) + Over(Since(b, s'), Returned(m)) + Sum(s'.threads, Pending(m))
  {
    var s', th := Exec(s, t), s.threads[t];
    MeterStep(s, t, m);
    assert s'.threads == s.threads[t := s'.threads[t]];
    SumUpdate(s.threads, t, s'.threads[t], Pending(m));
    if th.prog.Ret? {
      var r := Record(t, th.call, th.prog.code, th.moved);
      assert Since(b, s') == Since(b, s) + [r];
    }
  }

  lemma BalancedStart(b: State, s: State, t: nat, call: Call)
    requires Balanced(b, s) && t < |s.threads| && s.threads[t].Idle?
    ensures Balanced(b, Apply(s, Start(t, call)))
  {
    var s' := Apply(s, Start(t, call));
    forall m ensures Sum(s'.threads, Pending(m)) == Sum(s.threads, Pending(m)) {
      SumUpdate(s.threads, t, s'.threads[t], Pending(m));
    }
  }

  lemma {:induction false} BalancedRun(b: State, steps: seq<Step>)
    requires Quiescent(b)
    ensures Balanced(b, Run(b, steps))
    decreases |steps|
  {
    if steps == [] {
      assert Since(b, b) == [];
      forall m ensures Sum(b.threads, Pending(m)) == 0 {
        SumZero(b.threads, Pending(m));
      }
    } else {
      BalancedRun(b, steps[..|steps| - 1]);
      var s, step := Run(b, steps[..|steps| - 1]), steps[|steps| - 1];
      var t := step.thread;
      if step.Start? {
        if t < |s.threads| && s.threads[t].Idle? { BalancedStart(b, s, t, step.call); }
      } else if t < |s.threads| && s.threads[t].Running? {
        forall m ensures Later(b, Exec(s, t)) &&
          Read(Exec(s, t).counters, m) == Read(b.counters, m) + Over(Since(b, Exec(s, t)), Returned(m)) + Sum(Exec(s, t).threads, Pending(m))
        {
          BalancedMeter(b, s, t, m);
        }
      }
    }
  }

  // ----- what callers can see of it ------------------------------------------

  predicate PtraceCall(call: Call) {
    call.HookCall? && (call.hook.PtraceAccess? || call.hook.PtraceTraceme?)
  }

  predicate LoaderCall(call: Call) {
    call.HookCall? && (call.hook.ReadFile? || call.hook.LoadData?)
  }

  /** A module read that could not be named: no file, no page buffer, or no path. */
  predicate NullFileRead(call: Call) {
    call.HookCall? && call.hook.ReadFile? && call.hook.readId == ReadModule && !call.hook.file
  }

  predicate NoPageRead(call: Call) {
    call.HookCall? && call.hook.ReadFile? && call.hook.readId == ReadModule && call.hook.file && !call.hook.page
  }

  predicate NoPathRead(call: Call) {
    && call.HookCall? && call.hook.ReadFile? && call.hook.readId == ReadModule
    && call.hook.file && call.hook.page && call.hook.path.None?
  }

  function One(b: bool): int {
    if b then 1 else 0
  }

  ghost function RefusedPtrace(): Record -> int {
    (r: Record) => One(PtraceCall(r.call) && r.code != 0)
  }

  ghost function RefusedFile(): Record -> int {
    (r: Record) => One(FileCall(r.call) && r.code != 0)
  }

  ghost function RefusedLoader(): Record -> int {
    (r: Record) => One(LoaderCall(r.call) && r.code != 0)
  }

  /** Module reads refused without being counted, by what they lacked. */
  ghost function UncountedNullFile(): Record -> int {
    (r: Record) => One(NullFileRead(r.call) && r.code != 0 && r.moved == ZERO)
  }

  ghost function UncountedNoPage(): Record -> int {
    (r: Record) => One(NoPageRead(r.call) && r.code != 0 && r.moved == ZERO)
  }

  ghost function UncountedNoPath(): Record -> int {
    (r: Record) => One(NoPathRead(r.call) && r.code != 0 && r.moved == ZERO)
  }

  /** Calls that have left a mark. */
  ghost function Left(mark: Mark): Record -> int {
    (r: Record) => One(Makes(r.call, mark) && r.moved == CountTotal(ZERO))
  }

  /** How the movement of one allowed call splits up: by hook, ... */
  lemma RecordByHook(r: Record)
    requires Allowed(r.call, r.code, r.moved)
    ensures Returned(MPtrace)(r) == RefusedPtrace()(r) && Returned(MFile)(r) == RefusedFile()(r)
  {
    if r.call.HookCall? {
      var cfg, lists :| DecidesAs(cfg, lists, r.call.hook, r.code, r.moved);
    }
  }

  /** ... for the loader, less what it lacks, ... */
  lemma RecordOfLoader(r: Record)
    requires Allowed(r.call, r.code, r.moved)
    ensures Returned(MSyscall)(r) + Returned(MModule)(r)
            + UncountedNullFile()(r) + UncountedNoPage()(r) + UncountedNoPath()(r) == RefusedLoader()(r)
  {
    if r.call.HookCall? {
      var cfg, lists :| DecidesAs(cfg, lists, r.call.hook, r.code, r.moved);
    }
  }

  /** ... and in the total. */
  lemma RecordInTotal(r: Record)
    requires Allowed(r.call, r.code, r.moved)
    ensures Returned(MTotal)(r) == Returned(MPtrace)(r) + Returned(MFile)(r) + Returned(MSyscall)(r) + Returned(MModule)(r)
                                   + Left(FreeMark)(r) + Left(ExecMark)(r) + Left(LogMark)(r)
  {
    if r.call.HookCall? {
      var cfg, lists :| DecidesAs(cfg, lists, r.call.hook, r.code, r.moved);
    }
  }

  lemma {:induction false} HistorySplits(h: seq<Record>)
    requires forall i :: 0 <= i < |h| ==> Allowed(h[i].call, h[i].code, h[i].moved)
    ensures Over(h, Returned(MPtrace)) == Over(h, RefusedPtrace()) && Over(h, Returned(MFile)) == Over(h, RefusedFile())
    ensures Over(h, Returned(MSyscall)) + Over(h, Returned(MModule))
            + Over(h, UncountedNullFile()) + Over(h, UncountedNoPage()) + Over(h, UncountedNoPath())
            == Over(h, RefusedLoader())
    ensures Over(h, Returned(MTotal)) == Over(h, Returned(MPtrace)) + Over(h, Returned(MFile))
                                         + Over(h, Returned(MSyscall)) + Over(h, Returned(MModule))
                                         + Over(h, Left(FreeMark)) + Over(h, Left(ExecMark)) + Over(h, Left(LogMark))
  {
    if h != [] {
      HistorySplits(h[..|h| - 1]);
      RecordByHook(h[|h| - 1]);
      RecordOfLoader(h[|h| - 1]);
      RecordInTotal(h[|h| - 1]);
    }
  }

  /** A running call whose next access increments the total. */
  ghost function AtTotal(): Thread -> int {
    (th: Thread) => One(th.Running? && th.prog.Total?)
  }

  /** A running call that has been told to leave its mark, whether or not it has done so. */
  ghost function Due(mark: Mark): Thread -> int {
    (th: Thread) => One(th.Running? && Makes(th.call, mark)
                        && ((th.prog.Total? && th.moved == ZERO) || th.moved == CountTotal(ZERO)))
  }

  /** What a running call can have counted so far: nothing, a violation with its total still to
      come, a full pair, or a lone total. */
  ghost predicate ThreadMoved(th: Thread) {
    th.Running? ==>
      || th.moved == ZERO
      || (exists v :: th.moved == BumpCounter(ZERO, v) && th.prog.Total?)
      || (exists v :: th.moved == CountTotal(BumpCounter(ZERO, v)) && th.prog.Ret?)
      || (th.moved == CountTotal(ZERO) && th.prog.Ret?)
  }

  ghost predicate MovedInv(s: State) {
    forall t :: 0 <= t < |s.threads| ==> ThreadMoved(s.threads[t])
  }

  lemma MovedExec(s: State, t: nat)
    requires OutcomeInv(s) && MovedInv(s) && t < |s.threads| && s.threads[t].Running?
    ensures ThreadMoved(Exec(s, t).threads[t])
  {
    var th, th' := s.threads[t], Exec(s, t).threads[t];
    assert ThreadEnds(th) && ThreadMoved(th);
    if th.prog.Bump? {
      assert th'.moved == BumpCounter(ZERO, th.prog.violation);
    }
  }

  lemma {:induction false} MovedRun(s: State, steps: seq<Step>)
    requires Init(s)
    ensures MovedInv(Run(s, steps))
    decreases |steps|
  {
    if steps != [] {
      MovedRun(s, steps[..|steps| - 1]);
      OutcomeRun(s, steps[..|steps| - 1]);
      var before, step := Run(s, steps[..|steps| - 1]), steps[|steps| - 1];
      if step.Go? && step.thread < |before.threads| && before.threads[step.thread].Running? {
        MovedExec(before, step.thread);
      }
    }
  }

  lemma ThreadSplits(th: Thread)
    requires ThreadMoved(th) && ThreadEnds(th)
    ensures Pending(MTotal)(th) + AtTotal()(th) == Pending(MPtrace)(th) + Pending(MFile)(th)
            + Pending(MSyscall)(th) + Pending(MModule)(th) + Due(FreeMark)(th) + Due(ExecMark)(th) + Due(LogMark)(th)
  {
    if th.Running? && th.moved == ZERO && th.prog.Total? {
      assert Ends(th.prog.next, th.call, CountTotal(ZERO));
    }
  }

  lemma {:induction false} ThreadsSplit(threads: seq<Thread>)
    requires forall t :: 0 <= t < |threads| ==> ThreadMoved(threads[t]) && ThreadEnds(threads[t])
    ensures Sum(threads, Pending(MTotal)) + Sum(threads, AtTotal()) ==
            Sum(threads, Pending(MPtrace)) + Sum(threads, Pending(MFile)) + Sum(threads, Pending(MSyscall))
            + Sum(threads, Pending(MModule)) + Sum(threads, Due(FreeMark)) + Sum(threads, Due(ExecMark)) + Sum(threads, Due(LogMark))
  {
    if threads != [] {
      ThreadSplits(threads[0]);
      ThreadsSplit(threads[1..]);
    }
  }

  // ----- marks are left exactly where the settings say so --------------------

  /** At this step thread `t` asks whether to leave its mark, and the setting in force says yes. */
  predicate Grants(s: State, step: Step, mark: Mark) {
    && step.Go? && step.thread < |s.threads| && s.threads[step.thread].Running?
    && Makes(s.threads[step.thread].call, mark) && s.threads[step.thread].prog == Question(mark)
    && MarkOn(s.cfg, mark)
  }

  /** How often in a run a call asked and the setting said yes. */
  function Granted(s: State, steps: seq<Step>, mark: Mark): nat
    decreases |steps|
  {
    if steps == [] then 0
    else Granted(s, steps[..|steps| - 1], mark)
         + if Grants(Run(s, steps[..|steps| - 1]), steps[|steps| - 1], mark) then 1 else 0
  }

  /** A returning call hands its mark over. */
  lemma DueReturned(s: State, t: nat, mark: Mark)
    requires MovedInv(s) && t < |s.threads| && s.threads[t].Running? && s.threads[t].prog.Ret?
    ensures var th := s.threads[t]; Due(mark)(th) == Left(mark)(Record(t, th.call, th.prog.code, th.moved))
  {
  }

  /** A mark becomes due by a granted question ... */
  lemma DueAsked(s: State, t: nat, mark: Mark)
    requires OutcomeInv(s) && MovedInv(s) && t < |s.threads| && s.threads[t].Running? && s.threads[t].prog.Test?
    ensures Due(mark)(Exec(s, t).threads[t]) == One(Grants(s, Go(t), mark)) && Due(mark)(s.threads[t]) == 0
  {
    var th := s.threads[t];
    assert ThreadEnds(th) && ThreadMoved(th) && th.moved == ZERO;
    if th.prog.yes.Total? {
      var asked :| Makes(th.call, asked) && th.prog == Question(asked);
      assert Holds(s, th.prog.cond) == MarkOn(s.cfg, asked);
    }
  }

  /** ... and in no other way. */
  lemma DueStays(s: State, t: nat, mark: Mark)
    requires OutcomeInv(s) && MovedInv(s) && t < |s.threads| && s.threads[t].Running?
    requires !s.threads[t].prog.Ret? && !s.threads[t].prog.Test?
    ensures Due(mark)(Exec(s, t).threads[t]) == Due(mark)(s.threads[t])
  {
    assert ThreadEnds(s.threads[t]) && ThreadMoved(s.threads[t]);
  }

  /** Marks left by returned calls, with those due from running ones, are the marks granted. */
  ghost predicate MarksBalanced(s: State, steps: seq<Step>, mark: Mark) {
    Over(Run(s, steps).history, Left(mark)) + Sum(Run(s, steps).threads, Due(mark)) == Granted(s, steps, mark)
  }

  lemma MarkExec(s: State, steps: seq<Step>, mark: Mark)
    requires Init(s) && steps != [] && MarksBalanced(s, steps[..|steps| - 1], mark) && steps[|steps| - 1].Go?
    ensures MarksBalanced(s, steps, mark)
  {
    var before, t := Run(s, steps[..|steps| - 1]), steps[|steps| - 1].thread;
    if t < |before.threads| && before.threads[t].Running? {
      MovedRun(s, steps[..|steps| - 1]);
      OutcomeRun(s, steps[..|steps| - 1]);
      if before.threads[t].prog.Ret? {
        DueReturned(before, t, mark);
      } else if before.threads[t].prog.Test? {
        DueAsked(before, t, mark);
      } else {
        DueStays(before, t, mark);
      }
      MeterStep(before, t, MTotal);
      var after := Exec(before, t);
      assert after.threads == before.threads[t := after.threads[t]];
      SumUpdate(before.threads, t, after.threads[t], Due(mark));
    }
  }

  /** In every run, each kind of mark has been left, or is just being left, exactly as often as a
      call asked for it while the setting in force said yes. */
  lemma {:induction false} MarksGranted(s: State, steps: seq<Step>, mark: Mark)
    requires Init(s)
    ensures MarksBalanced(s, steps, mark)
    decreases |steps|
  {
    if steps == [] {
      SumZero(s.threads, Due(mark));
    } else {
      MarksGranted(s, steps[..|steps| - 1], mark);
      var before, step := Run(s, steps[..|steps| - 1]), steps[|steps| - 1];
      if step.Go? {
        MarkExec(s, steps, mark);
      } else if step.thread < |before.threads| && before.threads[step.thread].Idle? {
        CodeEnds(step.call);
        SumUpdate(before.threads, step.thread, Run(s, steps).threads[step.thread], Due(mark));
      }
    }
  }

  lemma Accounts(s: State, steps: seq<Step>, m: Meter)
    requires Init(s)
    ensures Read(Run(s, steps).counters, m) ==
            Over(Run(s, steps).history, Returned(m)) + Sum(Run(s, steps).threads, Pending(m))
  {
    BalancedRun(s, steps);
    assert Since(s, Run(s, steps)) == Run(s, steps).history;
    assert Read(ZERO, m) == 0;
  }

  /** At every point of every run, total_events, with the calls whose next access increments it,
      is the four violation counters plus task frees that found the module enabled, the
      execs that found auditing on and the file accesses that found logging on. */
  lemma TotalConserved(s: State, steps: seq<Step>)
    requires Init(s)
    ensures var s' := Run(s, steps);
            s'.counters.totalEvents + Sum(s'.threads, AtTotal()) ==
            s'.counters.ptraceBlocked + s'.counters.fileViolations
            + s'.counters.syscallViolations + s'.counters.moduleViolations
            + Granted(s, steps, FreeMark) + Granted(s, steps, ExecMark) + Granted(s, steps, LogMark)
  {
    MovedRun(s, steps);
    OutcomeRun(s, steps);
    HistorySplits(Run(s, steps).history);
    ThreadsSplit(Run(s, steps).threads);
    forall m ensures Read(Run(s, steps).counters, m) ==
                     Over(Run(s, steps).history, Returned(m)) + Sum(Run(s, steps).threads, Pending(m))
    {
      Accounts(s, steps, m);
    }
    forall mark ensures MarksBalanced(s, steps, mark) {
      MarksGranted(s, steps, mark);
    }
    var s' := Run(s, steps);
    assert Read(s'.counters, MTotal) == s'.counters.totalEvents;
    assert Read(s'.counters, MPtrace) == s'.counters.ptraceBlocked && Read(s'.counters, MFile) == s'.counters.fileViolations;
    assert Read(s'.counters, MSyscall) == s'.counters.syscallViolations && Read(s'.counters, MModule) == s'.counters.moduleViolations;
    assert MarksBalanced(s, steps, FreeMark) && MarksBalanced(s, steps, ExecMark) && MarksBalanced(s, steps, LogMark);
  }

  /** At every point of every run, each violation counter is the refusals its hooks returned plus
      those counted by calls still running; module reads that could not be named are the only
      refusals it misses. */
  lemma RefusalsTracked(s: State, steps: seq<Step>)
    requires Init(s)
    ensures var s' := Run(s, steps);
            && s'.counters.ptraceBlocked == Over(s'.history, RefusedPtrace()) + Sum(s'.threads, Pending(MPtrace))
            && s'.counters.fileViolations == Over(s'.history, RefusedFile()) + Sum(s'.threads, Pending(MFile))
            && s'.counters.syscallViolations + s'.counters.moduleViolations
               + Over(s'.history, UncountedNullFile()) + Over(s'.history, UncountedNoPage()) + Over(s'.history, UncountedNoPath())
               == Over(s'.history, RefusedLoader()) + Sum(s'.threads, Pending(MSyscall)) + Sum(s'.threads, Pending(MModule))
  {
    MovedRun(s, steps);
    OutcomeRun(s, steps);
    HistorySplits(Run(s, steps).history);
    Accounts(s, steps, MPtrace);
    Accounts(s, steps, MFile);
    Accounts(s, steps, MSyscall);
    Accounts(s, steps, MModule);
  }

  /** Whenever no call is in flight the violation counters are the refusals returned to callers,
      and the total is those plus the marks granted. */
  lemma RefusalsCounted(s: State, steps: seq<Step>)
    requires Init(s) && Quiescent(Run(s, steps))
    ensures var c, h := Run(s, steps).counters, Run(s, steps).history;
            && c.totalEvents == c.ptraceBlocked + c.fileViolations + c.syscallViolations + c.moduleViolations
                                + Granted(s, steps, FreeMark) + Granted(s, steps, ExecMark) + Granted(s, steps, LogMark)
            && c.ptraceBlocked == Over(h, RefusedPtrace())
            && c.fileViolations == Over(h, RefusedFile())
            && Over(h, RefusedLoader()) == c.syscallViolations + c.moduleViolations
               + Over(h, UncountedNullFile()) + Over(h, UncountedNoPage()) + Over(h, UncountedNoPath())
  {
    TotalConserved(s, steps);
    RefusalsTracked(s, steps);
    var threads := Run(s, steps).threads;
    SumZero(threads, AtTotal());
    forall m ensures Sum(threads, Pending(m)) == 0 {
      SumZero(threads, Pending(m));
    }
  }
}
