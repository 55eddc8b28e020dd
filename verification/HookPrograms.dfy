/** The hook programs read statically: what each hook consults, and how every way through its
    program ends, both when its questions are answered by one fixed policy throughout and when
    they are answered by a policy that changes as it goes. */
module HookPrograms {
  import opened Kernel
  import opened Policy
  import opened Machine

  // ----- what a hook depends on ----------------------------------------------

  function PathOf(hook: Hook): Option<string> {
    match hook
    case FilePermission(_, _, path) => path
    case FileOpen(_, _, _, path) => path
    case _ => None
  }

  predicate PathListed(lists: Lists, hook: Hook) {
    PathOf(hook).Some? && Path(PathOf(hook).value) in lists.files
  }

  /** The feature bits a hook consults. */
  predicate Consults(hook: Hook, f: Feature) {
    match hook
    case TaskFree => false
    case BprmCheck => f == SyscallAudit
    case PtraceAccess(_, _) => f == PtraceRestrict || f == ProcessProtect
    case PtraceTraceme => f == PtraceRestrict
    case FilePermission(_, _, _) => f == FileIntegrity
    case FileOpen(_, _, _, _) => f == FileIntegrity
    case ReadFile(_, _, _, _) => f == SyscallAudit || f == ModuleControl
    case LoadData(_) => f == SyscallAudit || f == ModuleControl
  }

  /** The switches a hook consults. */
  predicate Minds(hook: Hook, knob: Knob) {
    match hook
    case TaskFree => false
    case BprmCheck => knob == KAudit
    case PtraceAccess(_, _) => knob == KPtraceAll
    case PtraceTraceme => knob == KPtraceAll
    case FilePermission(_, _, _) => knob == KEnforce || knob == KLog
    case FileOpen(_, _, _, _) => knob == KEnforce || knob == KLog
    case ReadFile(_, _, _, _) => knob == KAudit || knob == KLoadingDenied
    case LoadData(_) => knob == KAudit || knob == KLoadingDenied
  }

  /** What a test answers under a fixed configuration and fixed lists. */
  predicate Answer(c: Cond, cfg: Config, lists: Lists) {
    match c
    case IsEnabled => cfg.enabled
    case FeatureBit(f) => HasFeature(cfg.features, f)
    case Switch(knob) => SwitchOf(cfg, knob)
    case Has(Path(p)) => Path(p) in lists.files
    case Has(Nr(nr)) => Nr(nr) in lists.syscalls
    case AnyCovers(task) => TaskCovered(lists.procs, task)
    case Given(answer) => answer
    case _ => false
  }

  /** The test looks at nothing that the hook's decision does not depend on. */
  predicate Concerns(c: Cond, hook: Hook) {
    match c
    case IsEnabled => true
    case FeatureBit(f) => Consults(hook, f)
    case Switch(knob) => Minds(hook, knob)
    case Full(_) => false
    case Has(Path(p)) => PathOf(hook) == Some(p)
    case Has(Nr(nr)) => SyscallOf(hook) == Some(nr)
    case Has(Proc(_, _)) => false
    case AnyCovers(task) => hook.PtraceAccess? && hook.child == task
    case CountZero => true
    case Given(_) => true
  }

  /** Having counted `moved`, under the fixed policy the program can only end by returning and
      having counted what `d` says.  The count shortcut may go either way unless the path is
      listed, and then must lead to the same end. */
  predicate Settles(p: Prog, hook: Hook, cfg: Config, lists: Lists, d: Decision, moved: Counters) {
    match p
    case Ret(code) => code == d.code && moved == Tally(ZERO, d.event)
    case Test(c, yes, no) =>
      if c == CountZero then
        && Settles(no, hook, cfg, lists, d, moved)
        && (!PathListed(lists, hook) ==> Settles(yes, hook, cfg, lists, d, moved))
      else Concerns(c, hook) && Settles(if Answer(c, cfg, lists) then yes else no, hook, cfg, lists, d, moved)
    case Acquire(_, next) => Settles(next, hook, cfg, lists, d, moved)
    case Release(_, next) => Settles(next, hook, cfg, lists, d, moved)
    case Bump(v, next) => Settles(next, hook, cfg, lists, d, BumpCounter(moved, v))
    case Total(next) => Settles(next, hook, cfg, lists, d, CountTotal(moved))
    case _ => false
  }

  predicate SettlesOn(p: Prog, hook: Hook, cfg: Config, lists: Lists, d: Decision) {
    Settles(p, hook, cfg, lists, d, ZERO)
  }

  // ----- how far an outcome can be explained ---------------------------------

  /** How much of an outcome is to be explained: whether it refuses, its code, or all of it. */
  datatype Grain = Verdict | ReturnCode | Everything

  predicate Explains(grain: Grain, d: Decision, code: int, moved: Counters) {
    match grain
    case Verdict => (code == 0) == (d.code == 0)
    case ReturnCode => code == d.code
    case Everything => code == d.code && moved == Tally(ZERO, d.event)
  }

  /** The hooks that the system call list and module control both decide about. */
  predicate DoublyControlled(hook: Hook) {
    SyscallOf(hook).Some? && ModuleRequest(hook)
  }

  /** Where nothing stands in the way of an explanation: module reads for which no page is
      available have a code of their own; doubly controlled hooks count one of two violations. */
  predicate Explicable(hook: Hook, grain: Grain) {
    match grain
    case Verdict => true
    case ReturnCode => !(hook.ReadFile? && hook.readId == ReadModule && hook.file && !hook.page)
    case Everything => !DoublyControlled(hook)
  }

  // ----- a static reading of programs ----------------------------------------

  /** One hook under one fixed policy.  `loud` is for outcomes that refuse or count; `strict` is
      for runs of the hook in which every answer is the policy's. */
  datatype Case = Case(hook: Hook, cfg: Config, lists: Lists, loud: bool, strict: bool, grain: Grain) {
    function Decision(): Decision {
      Decide(cfg, lists, hook)
    }

    predicate Says(c: Cond) {
      Answer(c, cfg, lists)
    }

    /** A no counts as a no of the policy. */
    predicate Firm() {
      !loud || strict
    }

    predicate Tractable() {
      strict || Explicable(hook, grain)
    }
  }

  /** The program does not ask whether to enforce. */
  predicate Unasking(p: Prog) {
    match p
    case Ret(_) => true
    case Test(c, yes, no) => c != Switch(KEnforce) && Unasking(yes) && Unasking(no)
    case Unlink(_, found, missing) => Unasking(found) && Unasking(missing)
    case _ => Unasking(p.next)
  }

  /** Along every path whose false answers are false in `k` (if it ends quietly), or whose true
      answers are true in `k`, and whether to enforce is answered as in `k` (if it ends loudly),
      the end is explained by `k`.  Repeated questions may be answered differently, unless `k`
      is strict. */
  predicate Sound(p: Prog, k: Case, moved: Counters) {
    match p
    case Ret(code) => k.loud == (code != 0 || moved != ZERO) ==> Explains(k.grain, k.Decision(), code, moved)
    case Test(c, yes, no) =>
      if c.Given? then Sound(if c.answer then yes else no, k, moved)
      else if c == CountZero then
        Sound(no, k, moved) && ((!k.loud ==> !PathListed(k.lists, k.hook)) ==> Sound(yes, k, moved))
      else
        && Concerns(c, k.hook) && (c == Switch(KEnforce) ==> Unasking(yes) && Unasking(no))
        && ((k.loud ==> k.Says(c)) ==> Sound(yes, k, moved))
        && ((k.Firm() || c == Switch(KEnforce) ==> !k.Says(c)) ==> Sound(no, k, moved))
    case Acquire(_, next) => Sound(next, k, moved)
    case Release(_, next) => Sound(next, k, moved)
    case Bump(v, next) => Sound(next, k, BumpCounter(moved, v))
    case Total(next) => Sound(next, k, CountTotal(moved))
    case _ => false
  }

  predicate SoundFor(p: Prog, k: Case) {
    Sound(p, k, ZERO)
  }

  lemma SoundRefuse(v: Violation, code: int, k: Case)
    requires k.loud ==> Explains(k.grain, k.Decision(), code, CountTotal(BumpCounter(ZERO, v)))
    ensures SoundFor(Refuse(v, code), k)
  {
    assert Sound(Total(Done(code)), k, BumpCounter(ZERO, v));
  }

  lemma SoundCheck(f: Feature, yes: Prog, no: Prog, k: Case)
    requires Consults(k.hook, f)
    requires (k.loud ==> Live(k.cfg, f)) ==> SoundFor(yes, k)
    requires (k.Firm() ==> !Live(k.cfg, f)) ==> SoundFor(no, k)
    ensures SoundFor(FeatureCheck(f, yes, no), k)
  {
    if k.loud ==> k.cfg.enabled {
      assert SoundFor(Test(FeatureBit(f), yes, no), k);
    }
  }

  lemma SoundScan(id: StoreId, c: Cond, yes: Prog, no: Prog, k: Case)
    requires (c.Has? || c.AnyCovers?) && Concerns(c, k.hook)
    requires (k.loud ==> k.Says(c)) ==> SoundFor(yes, k)
    requires (k.Firm() ==> !k.Says(c)) ==> SoundFor(no, k)
    ensures SoundFor(Acquire(id, Test(c, Release(id, yes), Release(id, no))), k)
  {
    assert SoundFor(yes, k) ==> SoundFor(Release(id, yes), k);
    assert SoundFor(no, k) ==> SoundFor(Release(id, no), k);
    assert SoundFor(Test(c, Release(id, yes), Release(id, no)), k);
  }

  lemma SoundBlocked(nr: int, yes: Prog, no: Prog, k: Case)
    requires SyscallOf(k.hook) == Some(nr)
    requires (k.loud ==> AuditLive(k.cfg) && Nr(nr) in k.lists.syscalls) ==> SoundFor(yes, k)
    requires (k.Firm() ==> !(AuditLive(k.cfg) && Nr(nr) in k.lists.syscalls)) ==> SoundFor(no, k)
    ensures SoundFor(IsSyscallBlocked(nr, yes, no), k)
  {
    if k.loud ==> AuditLive(k.cfg) {
      SoundScan(Syscalls, Has(Nr(nr)), yes, no, k);
    }
    var audited := Test(Switch(KAudit), Lookup(Nr(nr), yes, no), no);
    if k.loud ==> Live(k.cfg, SyscallAudit) {
      assert SoundFor(audited, k);
    }
    SoundCheck(SyscallAudit, audited, no, k);
  }

  lemma PtraceSound(k: Case)
    requires k.hook.PtraceAccess? || k.hook.PtraceTraceme?
    ensures SoundFor(HookProg(k.hook), k)
  {
    var refuse := Refuse(VPtrace, -EPERM);
    if k.loud ==> k.Decision() == Decision(-EPERM, PtraceBlocked) {
      SoundRefuse(VPtrace, -EPERM, k);
    }
    var rest := Done(0);
    if k.hook.PtraceAccess? {
      var child := k.hook.child;
      var scan := Acquire(Procs, Test(AnyCovers(child), Release(Procs, refuse), Release(Procs, Done(0))));
      var known := IsProcessProtected(child, refuse, Done(0));
      rest := FeatureCheck(ProcessProtect, known, Done(0));
      if (k.loud ==> Live(k.cfg, PtraceRestrict)) && (k.Firm() ==> !k.cfg.ptraceRestrictAll) {
        if k.loud ==> Live(k.cfg, ProcessProtect) {
          SoundScan(Procs, AnyCovers(child), refuse, Done(0), k);
          SoundCheck(ProcessProtect, scan, Done(0), k);
        }
        SoundCheck(ProcessProtect, known, Done(0), k);
      }
    }
    if k.loud ==> Live(k.cfg, PtraceRestrict) {
      assert SoundFor(Test(Switch(KPtraceAll), refuse, rest), k);
    }
    SoundCheck(PtraceRestrict, Test(Switch(KPtraceAll), refuse, rest), Done(0), k);
  }

  lemma KnownFileSound(writes: bool, page: bool, path: Option<string>, k: Case)
    requires k.hook.FilePermission? || k.hook.FileOpen?
    requires k.Decision() == FileDecision(k.cfg, k.lists.files, writes, page, path)
    requires k.loud ==> FileSeen(k.cfg, k.lists.files, page, path)
    ensures SoundFor(OnProtectedFile(writes), k)
  {
    if writes {
      if k.loud ==> k.cfg.integrityEnforce {
        SoundRefuse(VFile, -EACCES, k);
      }
    }
    if k.loud && k.cfg.integrityLog {
      assert (writes ==> !k.cfg.integrityEnforce) ==> Sound(Done(0), k, CountTotal(ZERO));
    }
    if writes ==> !k.cfg.integrityEnforce {
      if k.loud {
        assert SoundFor(Done(0), k);
      } else {
        assert SoundFor(Total(Done(0)), k);
      }
      assert SoundFor(LogAccess(), k);
    }
  }

  lemma FileSound(writes: bool, page: bool, path: Option<string>, k: Case)
    requires (k.hook.FilePermission? || k.hook.FileOpen?) && PathOf(k.hook) == path
    requires k.Decision() == FileDecision(k.cfg, k.lists.files, writes, page, path)
    ensures SoundFor(FileProg(writes, page, path), k)
  {
    var known := OnProtectedFile(writes);
    var inner := if path.None? then Done(0) else IsFileProtected(path.value, known, Done(0));
    if page && path.Some? {
      if k.loud ==> FileSeen(k.cfg, k.lists.files, page, path) {
        KnownFileSound(writes, page, path, k);
      }
      if k.loud ==> Live(k.cfg, FileIntegrity) {
        SoundScan(Files, Has(Path(path.value)), known, Done(0), k);
      }
      SoundCheck(FileIntegrity, Lookup(Path(path.value), known, Done(0)), Done(0), k);
    }
    assert SoundFor(Test(Given(page), inner, Done(0)), k);
    assert SoundFor(Test(CountZero, Done(0), Test(Given(page), inner, Done(0))), k);
    SoundCheck(FileIntegrity, Test(CountZero, Done(0), Test(Given(page), inner, Done(0))), Done(0), k);
  }

  lemma ModuleReadSound(k: Case)
    requires k.hook.ReadFile? && k.hook.readId == ReadModule && k.Tractable()
    requires k.loud ==> RefusedByModuleControl(k.cfg, k.hook)
    requires k.strict ==> !RefusedBySyscall(k.cfg, k.lists.syscalls, k.hook)
    ensures SoundFor(ModuleReadRefusal(k.hook.file, k.hook.page, k.hook.path), k)
  {
    var hook := k.hook;
    if hook.file && hook.page && hook.path.Some? {
      SoundRefuse(VModule, -EPERM, k);
    }
    var named := Test(Given(hook.path.Some?), Refuse(VModule, -EPERM), Done(-EPERM));
    if hook.file && hook.page {
      assert SoundFor(named, k);
    }
    if hook.file {
      assert SoundFor(Test(Given(hook.page), named, Done(-ENOMEM)), k);
    }
  }

  lemma ReadControlSound(k: Case)
    requires k.hook.ReadFile? && k.Tractable()
    requires k.Firm() ==> !RefusedBySyscall(k.cfg, k.lists.syscalls, k.hook)
    ensures SoundFor(ReadModuleControl(k.hook.readId, k.hook.file, k.hook.page, k.hook.path), k)
  {
    var hook := k.hook;
    if k.loud ==> RefusedByModuleControl(k.cfg, hook) {
      if hook.readId == ReadModule {
        ModuleReadSound(k);
      } else if hook.readId == ReadFirmware {
        SoundRefuse(VModule, -EPERM, k);
      }
    }
    var inner := if hook.readId == ReadModule then Test(Switch(KLoadingDenied), ModuleReadRefusal(hook.file, hook.page, hook.path), Done(0))
                 else if hook.readId == ReadFirmware then Test(Switch(KLoadingDenied), Refuse(VModule, -EPERM), Done(0))
                 else Done(0);
    if k.loud ==> Live(k.cfg, ModuleControl) {
      assert SoundFor(inner, k);
    }
    SoundCheck(ModuleControl, inner, Done(0), k);
  }

  lemma ReadFileSound(k: Case)
    requires k.hook.ReadFile? && k.Tractable()
    ensures SoundFor(HookProg(k.hook), k)
  {
    var rest := ReadModuleControl(k.hook.readId, k.hook.file, k.hook.page, k.hook.path);
    if k.Firm() ==> !RefusedBySyscall(k.cfg, k.lists.syscalls, k.hook) {
      ReadControlSound(k);
    }
    if SyscallOf(k.hook).Some? {
      if k.loud ==> RefusedBySyscall(k.cfg, k.lists.syscalls, k.hook) {
        SoundRefuse(VSyscall, -EPERM, k);
      }
      SoundBlocked(SyscallOf(k.hook).value, Refuse(VSyscall, -EPERM), rest, k);
    }
  }

  lemma LoadControlSound(k: Case)
    requires k.hook.LoadData? && k.Tractable()
    requires k.Firm() ==> !RefusedBySyscall(k.cfg, k.lists.syscalls, k.hook)
    ensures SoundFor(LoadModuleControl(k.hook.loadId), k)
  {
    if k.hook.loadId == LoadModule {
      if k.loud ==> RefusedByModuleControl(k.cfg, k.hook) {
        SoundRefuse(VModule, -EPERM, k);
      }
    }
    var inner := if k.hook.loadId == LoadModule then Test(Switch(KLoadingDenied), Refuse(VModule, -EPERM), Done(0)) else Done(0);
    if k.loud ==> Live(k.cfg, ModuleControl) {
      assert SoundFor(inner, k);
    }
    SoundCheck(ModuleControl, inner, Done(0), k);
  }

  lemma LoadDataSound(k: Case)
    requires k.hook.LoadData? && k.Tractable()
    ensures SoundFor(HookProg(k.hook), k)
  {
    var rest := LoadModuleControl(k.hook.loadId);
    if k.Firm() ==> !RefusedBySyscall(k.cfg, k.lists.syscalls, k.hook) {
      LoadControlSound(k);
    }
    var body := match SyscallOf(k.hook)
                case Some(nr) => IsSyscallBlocked(nr, Refuse(VSyscall, -EPERM), rest)
                case None => rest;
    if SyscallOf(k.hook).Some? {
      if k.loud ==> RefusedBySyscall(k.cfg, k.lists.syscalls, k.hook) {
        SoundRefuse(VSyscall, -EPERM, k);
      }
      SoundBlocked(SyscallOf(k.hook).value, Refuse(VSyscall, -EPERM), rest, k);
    }
    SoundCheck(SyscallAudit, body, rest, k);
  }

  lemma BprmSound(k: Case)
    requires k.hook == BprmCheck
    ensures SoundFor(BprmProg(), k)
  {
    var audit := Test(Switch(KAudit), Total(Done(0)), Done(0));
    if k.loud ==> AuditLive(k.cfg) {
      assert Sound(Done(0), k, CountTotal(ZERO));
      assert SoundFor(Total(Done(0)), k);
    }
    if k.loud ==> Live(k.cfg, SyscallAudit) {
      assert SoundFor(audit, k);
    }
    SoundCheck(SyscallAudit, audit, Done(0), k);
  }

  lemma HookSound(k: Case)
    requires k.Tractable()
    ensures SoundFor(HookProg(k.hook), k)
  {
    match k.hook
    case TaskFree =>
      if k.loud ==> k.cfg.enabled {
        assert Sound(Done(0), k, CountTotal(ZERO));
      }
    case BprmCheck => BprmSound(k);
    case PtraceAccess(_, _) => PtraceSound(k);
    case PtraceTraceme => PtraceSound(k);
    case FilePermission(access, page, path) => FileSound(access.write || access.append, page, path, k);
    case FileOpen(r, w, page, path) => if r || w { FileSound(w, page, path, k); }
    case ReadFile(_, _, _, _) => ReadFileSound(k);
    case LoadData(_) => LoadDataSound(k);
  }

  // ----- under one fixed policy ----------------------------------------------

  /** A program sound for one policy, answered by it throughout, settles on its decision. */
  lemma {:induction false} SoundSettles(p: Prog, k: Case, moved: Counters)
    requires k.strict && k.grain == Everything
    requires Sound(p, k.(loud := true), moved) && Sound(p, k.(loud := false), moved)
    ensures Settles(p, k.hook, k.cfg, k.lists, k.Decision(), moved)
    decreases p
  {
    match p
    case Ret(_) =>
    case Test(c, yes, no) =>
      if c.Given? {
        SoundSettles(if c.answer then yes else no, k, moved);
      } else if c == CountZero {
        SoundSettles(no, k, moved);
        if !PathListed(k.lists, k.hook) { SoundSettles(yes, k, moved); }
      } else {
        SoundSettles(if k.Says(c) then yes else no, k, moved);
      }
    case Acquire(_, next) => SoundSettles(next, k, moved);
    case Release(_, next) => SoundSettles(next, k, moved);
    case Bump(v, next) => SoundSettles(next, k, BumpCounter(moved, v));
    case Total(next) => SoundSettles(next, k, CountTotal(moved));
  }

  /** Under one fixed policy every hook settles on the policy's decision. */
  lemma HookSettles(hook: Hook, cfg: Config, lists: Lists)
    ensures SettlesOn(HookProg(hook), hook, cfg, lists, Decide(cfg, lists, hook))
  {
    var k := Case(hook, cfg, lists, true, true, Everything);
    HookSound(k);
    HookSound(k.(loud := false));
    SoundSettles(HookProg(hook), k, ZERO);
  }
}
