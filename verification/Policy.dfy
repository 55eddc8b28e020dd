/** The policy AEGIS promises, written without reference to how the hooks compute it:
    what is stored, which requests are refused, and which statistics an outcome moves. */
module Policy {
  import opened Kernel

  // ----- what is stored ------------------------------------------------------

  datatype StoreId = Files | Procs | Syscalls

  /** An entry of one of the three stores, as its C strings read back. */
  datatype Key = Path(path: string) | Proc(comm: string, pid: int) | Nr(nr: int)

  function StoreOf(key: Key): StoreId {
    match key
    case Path(_) => Files
    case Proc(_, _) => Procs
    case Nr(_) => Syscalls
  }

  function Capacity(id: StoreId): nat {
    match id
    case Files => MAX_FILES
    case Procs => MAX_PROCS
    case Syscalls => MAX_SYSCALLS
  }

  datatype Lists = Lists(files: seq<Key>, procs: seq<Key>, syscalls: seq<Key>)

  // ----- configuration -------------------------------------------------------

  datatype Feature = ProcessProtect | FileIntegrity | SyscallAudit | ModuleControl | PtraceRestrict

  function Mask(f: Feature): nat {
    match f
    case ProcessProtect => 1
    case FileIntegrity => 2
    case SyscallAudit => 4
    case ModuleControl => 8
    case PtraceRestrict => 16
  }

  const FEATURE_ALL: nat := 31

  predicate HasFeature(features: nat, f: Feature) {
    (features / Mask(f)) % 2 == 1
  }

  function Bit(b: bool): nat {
    if b then 1 else 0
  }

  /** The unsigned number with the given bits, least significant first. */
  function OfBits(bits: seq<bool>): nat {
    if bits == [] then 0 else Bit(bits[0]) + 2 * OfBits(bits[1..])
  }

  lemma Halves(n: nat, m: nat)
    requires m == 2 || m == 4 || m == 8
    ensures (n / 2) / m == n / (2 * m)
  {
  }

  /** Dropping the lowest bit halves the number. */
  lemma {:induction false} Shifted(bits: seq<bool>)
    requires bits != []
    ensures OfBits(bits) % 2 == Bit(bits[0]) && OfBits(bits) / 2 == OfBits(bits[1..])
  {
  }

  /** The five features are bits 0 to 4 of the 32-bit word, and no other bit matters. */
  lemma {:induction false} FeatureBits(bits: seq<bool>)
    requires |bits| == 32
    ensures HasFeature(OfBits(bits), ProcessProtect) == bits[0]
    ensures HasFeature(OfBits(bits), FileIntegrity) == bits[1]
    ensures HasFeature(OfBits(bits), SyscallAudit) == bits[2]
    ensures HasFeature(OfBits(bits), ModuleControl) == bits[3]
    ensures HasFeature(OfBits(bits), PtraceRestrict) == bits[4]
  {
    var n := OfBits(bits);
    Halves(n, 2);
    Halves(n, 4);
    Halves(n, 8);
    Halves(n / 2, 2);
    Halves(n / 2, 4);
    Halves(n / 4, 2);
    Shifted(bits);
    Shifted(bits[1..]);
    Shifted(bits[2..]);
    Shifted(bits[3..]);
    Shifted(bits[4..]);
    assert bits[1..][1..] == bits[2..] && bits[2..][1..] == bits[3..] && bits[3..][1..] == bits[4..];
  }

  /** All features means those five bits and nothing else. */
  lemma AllFeatures()
    ensures FEATURE_ALL == OfBits([true, true, true, true, true])
    ensures forall f :: HasFeature(FEATURE_ALL, f)
  {
    var five := [true, true, true, true, true];
    assert five[1..] == [true, true, true, true] && [true, true, true, true][1..] == [true, true, true];
    assert [true, true, true][1..] == [true, true] && [true, true][1..] == [true] && [true][1..] == [];
  }

  /** The fields of `aegis_config` that some hook reads. */
  datatype Config = Config(
    enabled: bool,
    features: nat,
    ptraceRestrictAll: bool,
    integrityEnforce: bool,
    integrityLog: bool,
    auditEnable: bool,
    loadingDenied: bool)

  predicate Live(cfg: Config, f: Feature) {
    cfg.enabled && HasFeature(cfg.features, f)
  }

  const BOOT_CONFIG := Config(true, FEATURE_ALL, false, true, true, true, false)

  // ----- requests ------------------------------------------------------------

  datatype Task = Task(comm: string, pid: int, leaderComm: string)

  datatype Access = Access(read: bool, write: bool, append: bool)

  datatype ReadId = ReadModule | ReadKexecImage | ReadKexecInitramfs | ReadFirmware | ReadOther

  datatype LoadId = LoadModule | LoadKexecImage | LoadOther

  /** A call of one hook.  `page` and `path` are what the kernel services answer during the
      call: whether a page buffer was available, and the string `d_path` produced, if any. */
  datatype Hook =
    | TaskFree
    | BprmCheck
    | PtraceAccess(child: Task, noAudit: bool)
    | PtraceTraceme
    | FilePermission(access: Access, page: bool, path: Option<string>)
    | FileOpen(fmodeRead: bool, fmodeWrite: bool, page: bool, path: Option<string>)
    | ReadFile(readId: ReadId, file: bool, page: bool, path: Option<string>)
    | LoadData(loadId: LoadId)

  // ----- outcomes ------------------------------------------------------------

  /** Why a module read was refused without being counted. */
  datatype Silence = NullFile | NoPage | NoPath

  /** What a hook call amounts to, for the statistics. */
  datatype Event =
    | Quiet
    | PtraceBlocked
    | FileDenied
    | FileLogged
    | SyscallDenied
    | ModuleDenied
    | Uncounted(why: Silence)
    | TaskFreed
    | ExecAudited

  datatype Decision = Decision(code: int, event: Event)

  datatype Counters = Counters(
    ptraceBlocked: int,
    fileViolations: int,
    syscallViolations: int,
    moduleViolations: int,
    totalEvents: int)

  const ZERO := Counters(0, 0, 0, 0, 0)

  function Tally(c: Counters, e: Event): Counters {
    match e
    case Quiet => c
    case Uncounted(_) => c
    case PtraceBlocked => c.(ptraceBlocked := c.ptraceBlocked + 1, totalEvents := c.totalEvents + 1)
    case FileDenied => c.(fileViolations := c.fileViolations + 1, totalEvents := c.totalEvents + 1)
    case SyscallDenied => c.(syscallViolations := c.syscallViolations + 1, totalEvents := c.totalEvents + 1)
    case ModuleDenied => c.(moduleViolations := c.moduleViolations + 1, totalEvents := c.totalEvents + 1)
    case FileLogged => c.(totalEvents := c.totalEvents + 1)
    case TaskFreed => c.(totalEvents := c.totalEvents + 1)
    case ExecAudited => c.(totalEvents := c.totalEvents + 1)
  }

  // ----- the policy ----------------------------------------------------------

  /** A protected-process entry covers a task by pid when it names one, by name otherwise. */
  predicate Covers(key: Key, task: Task) {
    key.Proc? &&
    if key.pid != 0 then key.pid == task.pid
    else key.comm == task.comm || key.comm == task.leaderComm
  }

  predicate TaskCovered(procs: seq<Key>, task: Task) {
    exists i :: 0 <= i < |procs| && Covers(procs[i], task)
  }

  predicate PtraceRefused(cfg: Config, procs: seq<Key>, child: Task) {
    Live(cfg, PtraceRestrict) &&
    (cfg.ptraceRestrictAll || (HasFeature(cfg.features, ProcessProtect) && TaskCovered(procs, child)))
  }

  /** The access concerns a protected file and the module could tell. */
  predicate FileSeen(cfg: Config, files: seq<Key>, page: bool, path: Option<string>) {
    Live(cfg, FileIntegrity) && page && path.Some? && Path(path.value) in files
  }

  function FileDecision(cfg: Config, files: seq<Key>, writes: bool, page: bool, path: Option<string>): Decision {
    if !FileSeen(cfg, files, page, path) then Decision(0, Quiet)
    else if writes && cfg.integrityEnforce then Decision(-EACCES, FileDenied)
    else Decision(0, if cfg.integrityLog then FileLogged else Quiet)
  }

  /** The system call a loader request stands for, where a hook can observe one. */
  function SyscallOf(hook: Hook): Option<int> {
    match hook
    case ReadFile(ReadModule, _, _, _) => Some(NR_FINIT_MODULE)
    case ReadFile(ReadKexecImage, _, _, _) => Some(NR_KEXEC_FILE_LOAD)
    case ReadFile(ReadKexecInitramfs, _, _, _) => Some(NR_KEXEC_FILE_LOAD)
    case LoadData(LoadModule) => Some(NR_INIT_MODULE)
    case LoadData(LoadKexecImage) => Some(NR_KEXEC_LOAD)
    case _ => None
  }

  /** The requests that module control covers. */
  predicate ModuleRequest(hook: Hook) {
    match hook
    case ReadFile(id, _, _, _) => id == ReadModule || id == ReadFirmware
    case LoadData(id) => id == LoadModule
    case _ => false
  }

  predicate AuditLive(cfg: Config) {
    Live(cfg, SyscallAudit) && cfg.auditEnable
  }

  predicate RefusedBySyscall(cfg: Config, syscalls: seq<Key>, hook: Hook) {
    AuditLive(cfg) && SyscallOf(hook).Some? && Nr(SyscallOf(hook).value) in syscalls
  }

  predicate RefusedByModuleControl(cfg: Config, hook: Hook) {
    Live(cfg, ModuleControl) && cfg.loadingDenied && ModuleRequest(hook)
  }

  predicate LoaderRefused(cfg: Config, syscalls: seq<Key>, hook: Hook) {
    RefusedBySyscall(cfg, syscalls, hook) || RefusedByModuleControl(cfg, hook)
  }

  /** How a module-control refusal is reported: a module read that cannot be named is not counted. */
  function ModuleRefusal(hook: Hook): Decision {
    match hook
    case ReadFile(ReadModule, file, page, path) =>
      if !file then Decision(-EPERM, Uncounted(NullFile))
      else if !page then Decision(-ENOMEM, Uncounted(NoPage))
      else if path.None? then Decision(-EPERM, Uncounted(NoPath))
      else Decision(-EPERM, ModuleDenied)
    case _ => Decision(-EPERM, ModuleDenied)
  }

  /** What module control decides about a request, the system call list aside. */
  function ControlDecision(cfg: Config, hook: Hook): Decision {
    if RefusedByModuleControl(cfg, hook) then ModuleRefusal(hook) else Decision(0, Quiet)
  }

  function LoaderDecision(cfg: Config, syscalls: seq<Key>, hook: Hook): Decision {
    if RefusedBySyscall(cfg, syscalls, hook) then Decision(-EPERM, SyscallDenied)
    else ControlDecision(cfg, hook)
  }

  function Decide(cfg: Config, lists: Lists, hook: Hook): Decision {
    match hook
    case TaskFree => Decision(0, if cfg.enabled then TaskFreed else Quiet)
    case BprmCheck => Decision(0, if AuditLive(cfg) then ExecAudited else Quiet)
    case PtraceAccess(child, _) =>
      if PtraceRefused(cfg, lists.procs, child) then Decision(-EPERM, PtraceBlocked) else Decision(0, Quiet)
    case PtraceTraceme =>
      if Live(cfg, PtraceRestrict) && cfg.ptraceRestrictAll
      then Decision(-EPERM, PtraceBlocked) else Decision(0, Quiet)
    case FilePermission(access, page, path) =>
      FileDecision(cfg, lists.files, access.write || access.append, page, path)
    case FileOpen(r, w, page, path) =>
      if !r && !w then Decision(0, Quiet) else FileDecision(cfg, lists.files, w, page, path)
    case ReadFile(_, _, _, _) => LoaderDecision(cfg, lists.syscalls, hook)
    case LoadData(_) => LoaderDecision(cfg, lists.syscalls, hook)
  }

  // ----- the policy hook by hook, in the source's own terms ------------------

  /** A load of a module is refused by the call list exactly when init_module is listed, of a
      kexec image exactly when kexec_load is, of anything else never; whatever the list does not
      refuse, module control refuses exactly if it is a module load. */
  lemma LoadDataExact(cfg: Config, lists: Lists, id: LoadId)
    ensures var listed := AuditLive(cfg) && ((id == LoadModule && Nr(NR_INIT_MODULE) in lists.syscalls)
                                             || (id == LoadKexecImage && Nr(NR_KEXEC_LOAD) in lists.syscalls));
            var denied := Live(cfg, ModuleControl) && cfg.loadingDenied && id == LoadModule;
            Decide(cfg, lists, LoadData(id)) ==
              if listed then Decision(-EPERM, SyscallDenied)
              else if denied then Decision(-EPERM, ModuleDenied)
              else Decision(0, Quiet)
  {
  }

  /** A read of a module is refused by the call list exactly when finit_module is listed, of a
      kexec image or an initramfs exactly when kexec_file_load is, of anything else never;
      whatever the list does not refuse, module control refuses exactly if it is a module or
      firmware read, without counting a module read that it cannot name. */
  lemma ReadFileExact(cfg: Config, lists: Lists, id: ReadId, file: bool, page: bool, path: Option<string>)
    ensures var listed := AuditLive(cfg) && ((id == ReadModule && Nr(NR_FINIT_MODULE) in lists.syscalls)
                                             || ((id == ReadKexecImage || id == ReadKexecInitramfs)
                                                 && Nr(NR_KEXEC_FILE_LOAD) in lists.syscalls));
            var denied := Live(cfg, ModuleControl) && cfg.loadingDenied && (id == ReadModule || id == ReadFirmware);
            Decide(cfg, lists, ReadFile(id, file, page, path)) ==
              if listed then Decision(-EPERM, SyscallDenied)
              else if !denied then Decision(0, Quiet)
              else if id == ReadFirmware || (file && page && path.Some?) then Decision(-EPERM, ModuleDenied)
              else if !file then Decision(-EPERM, Uncounted(NullFile))
              else if !page then Decision(-ENOMEM, Uncounted(NoPage))
              else Decision(-EPERM, Uncounted(NoPath))
  {
  }
}
