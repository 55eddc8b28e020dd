/** The module as a step machine.  Every entry point is written as the sequence of shared
    accesses its C code performs; any number of threads run such programs, one access at a
    time, in any order. */
module Machine {
  import opened Kernel
  import opened Policy
  import opened PolicyStore

  // ----- programs ------------------------------------------------------------

  /** One sysctl knob: a mirror integer and the configuration field it is synced into. */
  datatype Knob = KEnabled | KFeatures | KPtraceAll | KEnforce | KLog | KLoadingDenied | KAudit

  datatype Violation = VPtrace | VFile | VSyscall | VModule

  datatype Cond =
    | IsEnabled
    | FeatureBit(feature: Feature)
    | Switch(knob: Knob)
    | Full(id: StoreId)
    | Has(key: Key)
    | AnyCovers(task: Task)
    | CountZero
    | Given(answer: bool)  // what a kernel service answered during this call

  datatype Prog =
    | Ret(code: int)
    | Test(cond: Cond, yes: Prog, no: Prog)
    | Acquire(lock: StoreId, next: Prog)
    | Release(unlock: StoreId, next: Prog)
    | Append(key: Key, next: Prog)
    | CountInc(inc: StoreId, next: Prog)
    | Unlink(gone: Key, found: Prog, missing: Prog)
    | CountDec(dec: StoreId, next: Prog)
    | Bump(violation: Violation, next: Prog)
    | Total(next: Prog)
    | SetMirror(mirror: Knob, value: int, next: Prog)
    | Sync(synced: Knob, next: Prog)

  datatype Call =
    | HookCall(hook: Hook)
    | Add(key: Key, alloc: bool)
    | Del(key: Key)
    | Sysctl(knob: Knob, written: Option<int>, answer: int)  // written is None for a read or a rejected write

  function Done(code: int): Prog {
    Ret(code)
  }

  function FeatureCheck(f: Feature, yes: Prog, no: Prog): Prog {
    Test(IsEnabled, Test(FeatureBit(f), yes, no), no)
  }

  // ----- the store operations ------------------------------------------------

  /** The part of an add after the lock has been dropped. */
  function AddTail(key: Key, alloc: bool): Prog {
    var id := StoreOf(key);
    Test(Given(alloc), Acquire(id, Append(key, CountInc(id, Release(id, Done(0))))), Done(-ENOMEM))
  }

  function AddCheck(key: Key, alloc: bool): Prog {
    var id := StoreOf(key);
    Test(Has(key), Release(id, Done(-EEXIST)), Release(id, AddTail(key, alloc)))
  }

  function AddProg(key: Key, alloc: bool): Prog {
    var id := StoreOf(key);
    if key.Nr? && key.nr < 0 then Done(-EINVAL)
    else Acquire(id, Test(Full(id), Release(id, Done(-ENOSPC)), AddCheck(key, alloc)))
  }

  function DelProg(key: Key): Prog {
    var id := StoreOf(key);
    Acquire(id, Unlink(key, CountDec(id, Release(id, Done(0))), Release(id, Done(-ENOENT))))
  }

  /** A lookup: one critical section around the scan. */
  function Lookup(key: Key, yes: Prog, no: Prog): Prog {
    var id := StoreOf(key);
    Acquire(id, Test(Has(key), Release(id, yes), Release(id, no)))
  }

  function IsSyscallBlocked(nr: int, yes: Prog, no: Prog): Prog {
    FeatureCheck(SyscallAudit, Test(Switch(KAudit), Lookup(Nr(nr), yes, no), no), no)
  }

  function IsFileProtected(path: string, yes: Prog, no: Prog): Prog {
    FeatureCheck(FileIntegrity, Lookup(Path(path), yes, no), no)
  }

  function IsProcessProtected(task: Task, yes: Prog, no: Prog): Prog {
    FeatureCheck(ProcessProtect,
                 Acquire(Procs, Test(AnyCovers(task), Release(Procs, yes), Release(Procs, no))), no)
  }

  // ----- the hooks -----------------------------------------------------------

  function Refuse(v: Violation, code: int): Prog {
    Bump(v, Total(Done(code)))
  }

  function PtraceAccessProg(child: Task): Prog {
    FeatureCheck(PtraceRestrict,
                 Test(Switch(KPtraceAll), Refuse(VPtrace, -EPERM),
                      FeatureCheck(ProcessProtect,
                                   IsProcessProtected(child, Refuse(VPtrace, -EPERM), Done(0)), Done(0))),
                 Done(0))
  }

  function TracemeProg(): Prog {
    FeatureCheck(PtraceRestrict, Test(Switch(KPtraceAll), Refuse(VPtrace, -EPERM), Done(0)), Done(0))
  }

  function LogAccess(): Prog {
    Test(Switch(KLog), Total(Done(0)), Done(0))
  }

  function OnProtectedFile(writes: bool): Prog {
    if writes then Test(Switch(KEnforce), Refuse(VFile, -EACCES), LogAccess()) else LogAccess()
  }

  function FileProg(writes: bool, page: bool, path: Option<string>): Prog {
    FeatureCheck(FileIntegrity,
                 Test(CountZero, Done(0),
                      Test(Given(page),
                           if path.None? then Done(0)
                           else IsFileProtected(path.value, OnProtectedFile(writes), Done(0)),
                           Done(0))),
                 Done(0))
  }

  function ModuleReadRefusal(file: bool, page: bool, path: Option<string>): Prog {
    Test(Given(file),
         Test(Given(page),
              Test(Given(path.Some?), Refuse(VModule, -EPERM), Done(-EPERM)),
              Done(-ENOMEM)),
         Done(-EPERM))
  }

  function ReadModuleControl(id: ReadId, file: bool, page: bool, path: Option<string>): Prog {
    FeatureCheck(ModuleControl,
                 if id == ReadModule then Test(Switch(KLoadingDenied), ModuleReadRefusal(file, page, path), Done(0))
                 else if id == ReadFirmware then Test(Switch(KLoadingDenied), Refuse(VModule, -EPERM), Done(0))
                 else Done(0),
                 Done(0))
  }

  function ReadFileProg(id: ReadId, file: bool, page: bool, path: Option<string>): Prog {
    var rest := ReadModuleControl(id, file, page, path);
    Test(IsEnabled,
         match SyscallOf(ReadFile(id, file, page, path))
         case Some(nr) => IsSyscallBlocked(nr, Refuse(VSyscall, -EPERM), rest)
         case None => rest,
         Done(0))
  }

  function LoadModuleControl(id: LoadId): Prog {
    FeatureCheck(ModuleControl,
                 if id == LoadModule then Test(Switch(KLoadingDenied), Refuse(VModule, -EPERM), Done(0)) else Done(0),
                 Done(0))
  }

  function LoadDataProg(id: LoadId): Prog {
    var rest := LoadModuleControl(id);
    Test(IsEnabled,
         FeatureCheck(SyscallAudit,
                      match SyscallOf(LoadData(id))
                      case Some(nr) => IsSyscallBlocked(nr, Refuse(VSyscall, -EPERM), rest)
                      case None => rest,
                      rest),
         Done(0))
  }

  function BprmProg(): Prog {
    Test(IsEnabled,
         FeatureCheck(SyscallAudit, Test(Switch(KAudit), Total(Done(0)), Done(0)), Done(0)),
         Done(0))
  }

  function HookProg(hook: Hook): Prog {
    match hook
    case TaskFree => Test(IsEnabled, Total(Done(0)), Done(0))
    case BprmCheck => BprmProg()
    case PtraceAccess(child, _) => PtraceAccessProg(child)
    case PtraceTraceme => TracemeProg()
    case FilePermission(access, page, path) => FileProg(access.write || access.append, page, path)
    case FileOpen(r, w, page, path) => if !r && !w then Done(0) else FileProg(w, page, path)
    case ReadFile(id, file, page, path) => ReadFileProg(id, file, page, path)
    case LoadData(id) => LoadDataProg(id)
  }

  function SysctlProg(knob: Knob, written: Option<int>, answer: int): Prog {
    match written
    case Some(v) => SetMirror(knob, v, Sync(knob, Done(0)))
    case None => Done(answer)
  }

  function Code(call: Call): Prog {
    match call
    case HookCall(hook) => HookProg(hook)
    case Add(key, alloc) => AddProg(key, alloc)
    case Del(key) => DelProg(key)
    case Sysctl(knob, written, answer) => SysctlProg(knob, written, answer)
  }

  // ----- states --------------------------------------------------------------

  datatype StoreState = StoreState(list: seq<Key>, count: int, lock: Option<nat>)

  datatype Stores = Stores(files: StoreState, procs: StoreState, syscalls: StoreState) {
    function Get(id: StoreId): StoreState {
      match id
      case Files => files
      case Procs => procs
      case Syscalls => syscalls
    }

    function Put(id: StoreId, s: StoreState): (r: Stores)
      ensures r.Get(id) == s
      ensures forall other :: other != id ==> r.Get(other) == Get(other)
    {
      match id
      case Files => this.(files := s)
      case Procs => this.(procs := s)
      case Syscalls => this.(syscalls := s)
    }
  }

  datatype Mirrors = Mirrors(
    enabled: int, features: int, ptraceAll: int, enforce: int, log: int, loadingDenied: int, audit: int)

  /** `moved` is what the running call has added to the statistics so far. */
  datatype Thread = Idle(last: int) | Running(call: Call, prog: Prog, moved: Counters)

  /** A call that has returned, and what it added to the statistics in all. */
  datatype Record = Record(thread: nat, call: Call, code: int, moved: Counters)

  datatype State = State(
    cfg: Config,
    mirrors: Mirrors,
    stores: Stores,
    counters: Counters,
    history: seq<Record>,
    threads: seq<Thread>)

  // ----- steps ---------------------------------------------------------------

  function SwitchOf(cfg: Config, knob: Knob): bool {
    match knob
    case KEnabled => cfg.enabled
    case KFeatures => cfg.features != 0
    case KPtraceAll => cfg.ptraceRestrictAll
    case KEnforce => cfg.integrityEnforce
    case KLog => cfg.integrityLog
    case KLoadingDenied => cfg.loadingDenied
    case KAudit => cfg.auditEnable
  }

  predicate Holds(s: State, c: Cond) {
    match c
    case IsEnabled => s.cfg.enabled
    case FeatureBit(f) => HasFeature(s.cfg.features, f)
    case Switch(knob) => SwitchOf(s.cfg, knob)
    case Full(id) => s.stores.Get(id).count >= Capacity(id)
    case Has(key) => key in s.stores.Get(StoreOf(key)).list
    case AnyCovers(task) => TaskCovered(s.stores.procs.list, task)
    case CountZero => s.stores.files.count == 0
    case Given(answer) => answer
  }

  function BumpCounter(c: Counters, v: Violation): Counters {
    match v
    case VPtrace => c.(ptraceBlocked := c.ptraceBlocked + 1)
    case VFile => c.(fileViolations := c.fileViolations + 1)
    case VSyscall => c.(syscallViolations := c.syscallViolations + 1)
    case VModule => c.(moduleViolations := c.moduleViolations + 1)
  }

  function CountTotal(c: Counters): Counters {
    c.(totalEvents := c.totalEvents + 1)
  }

  function WriteMirror(m: Mirrors, knob: Knob, v: int): Mirrors {
    match knob
    case KEnabled => m.(enabled := v)
    case KFeatures => m.(features := v)
    case KPtraceAll => m.(ptraceAll := v)
    case KEnforce => m.(enforce := v)
    case KLog => m.(log := v)
    case KLoadingDenied => m.(loadingDenied := v)
    case KAudit => m.(audit := v)
  }

  /** A knob's live field is the projection of its mirror. */
  predicate Projects(cfg: Config, m: Mirrors, knob: Knob) {
    match knob
    case KEnabled => cfg.enabled == (m.enabled != 0)
    case KFeatures => cfg.features == m.features % TWO32
    case KPtraceAll => cfg.ptraceRestrictAll == (m.ptraceAll != 0)
    case KEnforce => cfg.integrityEnforce == (m.enforce != 0)
    case KLog => cfg.integrityLog == (m.log != 0)
    case KLoadingDenied => cfg.loadingDenied == (m.loadingDenied != 0)
    case KAudit => cfg.auditEnable == (m.audit != 0)
  }

  function SyncKnob(cfg: Config, m: Mirrors, knob: Knob): Config {
    match knob
    case KEnabled => cfg.(enabled := m.enabled != 0)
    case KFeatures => cfg.(features := m.features % TWO32)
    case KPtraceAll => cfg.(ptraceRestrictAll := m.ptraceAll != 0)
    case KEnforce => cfg.(integrityEnforce := m.enforce != 0)
    case KLog => cfg.(integrityLog := m.log != 0)
    case KLoadingDenied => cfg.(loadingDenied := m.loadingDenied != 0)
    case KAudit => cfg.(auditEnable := m.audit != 0)
  }

  function SetThread(s: State, t: nat, th: Thread): State
    requires t < |s.threads|
  {
    s.(threads := s.threads[t := th])
  }

  function Continue(s: State, t: nat, prog: Prog): State
    requires t < |s.threads| && s.threads[t].Running?
  {
    SetThread(s, t, s.threads[t].(prog := prog))
  }

  function SetStore(s: State, id: StoreId, store: StoreState): State {
    s.(stores := s.stores.Put(id, store))
  }

  /** One shared access by a running thread.  A thread waiting for a held lock stays put. */
  function Exec(s: State, t: nat): (s': State)
    requires t < |s.threads| && s.threads[t].Running?
    ensures |s'.threads| == |s.threads|
    ensures forall u :: 0 <= u < |s.threads| && u != t ==> s'.threads[u] == s.threads[u]
  {
    var th := s.threads[t];
    match th.prog
    case Ret(code) =>
      SetThread(s, t, Idle(code)).(history := s.history + [Record(t, th.call, code, th.moved)])
    case Test(cond, yes, no) => Continue(s, t, if Holds(s, cond) then yes else no)
    case Acquire(id, next) =>
      var st := s.stores.Get(id);
      if st.lock.None? then Continue(SetStore(s, id, st.(lock := Some(t))), t, next) else s
    case Release(id, next) =>
      Continue(SetStore(s, id, s.stores.Get(id).(lock := None)), t, next)
    case Append(key, next) =>
      var st := s.stores.Get(StoreOf(key));
      Continue(SetStore(s, StoreOf(key), st.(list := st.list + [key])), t, next)
    case CountInc(id, next) =>
      var st := s.stores.Get(id);
      Continue(SetStore(s, id, st.(count := st.count + 1)), t, next)
    case Unlink(key, found, missing) =>
      var st := s.stores.Get(StoreOf(key));
      if key in st.list
      then Continue(SetStore(s, StoreOf(key), st.(list := RemoveFirst(st.list, key))), t, found)
      else Continue(s, t, missing)
    case CountDec(id, next) =>
      var st := s.stores.Get(id);
      Continue(SetStore(s, id, st.(count := st.count - 1)), t, next)
    case Bump(v, next) =>
      SetThread(s, t, th.(prog := next, moved := BumpCounter(th.moved, v))).(counters := BumpCounter(s.counters, v))
    case Total(next) =>
      SetThread(s, t, th.(prog := next, moved := CountTotal(th.moved))).(counters := CountTotal(s.counters))
    case SetMirror(knob, v, next) => Continue(s, t, next).(mirrors := WriteMirror(s.mirrors, knob, v))
    case Sync(knob, next) => Continue(s, t, next).(cfg := SyncKnob(s.cfg, s.mirrors, knob))
  }

  datatype Step = Start(thread: nat, call: Call) | Go(thread: nat)

  /** One step of the whole machine; a step that names no suitable thread does nothing. */
  function Apply(s: State, step: Step): (s': State)
    ensures |s'.threads| == |s.threads|
  {
    var t := step.thread;
    if t >= |s.threads| then s
    else match step
      case Start(_, call) => if s.threads[t].Idle? then SetThread(s, t, Running(call, Code(call), ZERO)) else s
      case Go(_) => if s.threads[t].Running? then Exec(s, t) else s
  }

  function Run(s: State, steps: seq<Step>): (s': State)
    ensures |s'.threads| == |s.threads|
    decreases |steps|
  {
    if steps == [] then s else Apply(Run(s, steps[..|steps| - 1]), steps[|steps| - 1])
  }

  lemma {:induction false} RunConcat(s: State, a: seq<Step>, b: seq<Step>)
    ensures Run(s, a + b) == Run(Run(s, a), b)
    decreases |b|
  {
    if b == [] {
      assert a + b == a;
    } else {
      RunConcat(s, a, b[..|b| - 1]);
      assert (a + b)[..|a + b| - 1] == a + b[..|b| - 1];
    }
  }

  /** Thread `t` begins a call in these steps. */
  predicate Begins(steps: seq<Step>, t: nat) {
    exists i :: 0 <= i < |steps| && steps[i].Start? && steps[i].thread == t
  }

  /** A delete of `key` begins in these steps. */
  predicate BeginsDel(steps: seq<Step>, key: Key) {
    exists i :: 0 <= i < |steps| && steps[i].Start? && steps[i].call == Del(key)
  }

  // ----- initial states ------------------------------------------------------

  predicate Quiescent(s: State) {
    forall t :: 0 <= t < |s.threads| ==> s.threads[t].Idle?
  }

  ghost predicate StartStore(st: StoreState, id: StoreId) {
    && st.lock == None
    && st.count == |st.list| <= Capacity(id)
    && Distinct(st.list)
    && (forall i :: 0 <= i < |st.list| ==> StoreOf(st.list[i]) == id)
  }

  predicate InSync(s: State, knob: Knob) {
    Projects(s.cfg, s.mirrors, knob)
  }

  /** Nothing is running, every store is consistent, and nothing has been counted yet. */
  ghost predicate Init(s: State) {
    && Quiescent(s)
    && (forall id :: StartStore(s.stores.Get(id), id))
    && s.counters == ZERO
    && s.history == []
    && (forall knob :: InSync(s, knob))
  }
}
