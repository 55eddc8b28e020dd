/** The module as a single caller sees it: the live configuration, the three stores, the store
    operations, the hooks and the write endpoints, as imperative code over shared objects. */
module Aegis {
  import opened Kernel
  import opened CString
  import opened Decimal
  import opened ControlText
  import opened Policy
  import opened PolicyStore
  import FileHash

  // ----- entries -------------------------------------------------------------

  type PathBuf = b: CBuf | |b| == PATH_LEN witness Strscpy("", PATH_LEN)
  type CommBuf = b: CBuf | |b| == COMM_LEN witness Strscpy("", COMM_LEN)

  datatype FileEntry = FileEntry(path: PathBuf, hash: FileHash.Digest, hashValid: bool)
  datatype ProcEntry = ProcEntry(comm: CommBuf, pid: int)

  /** A task whose names are C strings. */
  type CTask = t: Task | NUL !in t.comm && NUL !in t.leaderComm witness Task("", 0, "")

  function FileKey(e: FileEntry): Key {
    Path(Str(e.path))
  }

  function ProcKey(e: ProcEntry): Key {
    Proc(Str(e.comm), e.pid)
  }

  function NrKey(nr: int): Key {
    Nr(nr)
  }

  /** The bounded comparison with a path singles out the entries under that path. */
  function PathMatcher(path: Text): (matches: FileEntry -> bool)
    ensures forall e :: matches(e) <==> FileKey(e) == Path(path)
  {
    var query := Terminate(path);
    assert forall e: FileEntry :: StrnEq(e.path, query, PATH_LEN) <==> FileKey(e) == Path(path) by {
      forall e: FileEntry ensures StrnEq(e.path, query, PATH_LEN) <==> FileKey(e) == Path(path) {
        FieldMatches(e.path, query);
      }
    }
    (e: FileEntry) => StrnEq(e.path, query, PATH_LEN)
  }

  function CommMatcher(comm: Text, pid: int): (matches: ProcEntry -> bool)
    ensures forall e :: matches(e) <==> ProcKey(e) == Proc(comm, pid)
  {
    var query := Terminate(comm);
    assert forall e: ProcEntry :: StrnEq(e.comm, query, COMM_LEN) <==> Str(e.comm) == comm by {
      forall e: ProcEntry ensures StrnEq(e.comm, query, COMM_LEN) <==> Str(e.comm) == comm {
        FieldMatches(e.comm, query);
      }
    }
    (e: ProcEntry) => e.pid == pid && StrnEq(e.comm, query, COMM_LEN)
  }

  /** The entry made for a path, with its digest if one was computed. */
  function StoredFile(path: Text, hash: Option<FileHash.Digest>): FileEntry {
    FileEntry(Strscpy(path, PATH_LEN), if hash.Some? then hash.value else FileHash.Unset(), hash.Some?)
  }

  /** Adding a path: the duplicate check sees the whole path, the entry keeps what fits. */
  function PathAdd(files: seq<Key>, path: Text, alloc: bool): Outcome<Key> {
    ListAdd(files, MAX_FILES, Path(path), Path(Clip(path, PATH_LEN)), alloc)
  }

  function CommAdd(procs: seq<Key>, comm: Text, pid: int, alloc: bool): Outcome<Key> {
    ListAdd(procs, MAX_PROCS, Proc(comm, pid), Proc(Clip(comm, COMM_LEN), pid), alloc)
  }

  function NrAdd(syscalls: seq<Key>, nr: int, alloc: bool): Outcome<Key> {
    if nr < 0 then Outcome(-EINVAL, syscalls) else SetAdd(syscalls, MAX_SYSCALLS, Nr(nr), alloc)
  }

  /** Within the limit of its field a name is added as to a bounded set; past it, the set
      property survives exactly when the clipped name was absent. */
  lemma PathAddExact(files: seq<Key>, path: Text, alloc: bool)
    requires Distinct(files)
    ensures |path| < PATH_LEN ==> PathAdd(files, path, alloc) == SetAdd(files, MAX_FILES, Path(path), alloc)
    ensures var o := PathAdd(files, path, alloc);
            Distinct(o.list) <==> o.code != 0 || |path| < PATH_LEN || Path(Clip(path, PATH_LEN)) !in files
  {
    ListAddDistinct(files, MAX_FILES, Path(path), Path(Clip(path, PATH_LEN)), alloc);
    if |path| < PATH_LEN {
      assert Clip(path, PATH_LEN) == path;
    }
  }

  lemma CommAddExact(procs: seq<Key>, comm: Text, pid: int, alloc: bool)
    requires Distinct(procs)
    ensures |comm| < COMM_LEN ==> CommAdd(procs, comm, pid, alloc) == SetAdd(procs, MAX_PROCS, Proc(comm, pid), alloc)
    ensures var o := CommAdd(procs, comm, pid, alloc);
            Distinct(o.list) <==> o.code != 0 || |comm| < COMM_LEN || Proc(Clip(comm, COMM_LEN), pid) !in procs
  {
    ListAddDistinct(procs, MAX_PROCS, Proc(comm, pid), Proc(Clip(comm, COMM_LEN), pid), alloc);
    if |comm| < COMM_LEN {
      assert Clip(comm, COMM_LEN) == comm;
    }
  }

  predicate EntryGuards(e: ProcEntry, task: CTask) {
    if e.pid != 0 then e.pid == task.pid else Str(e.comm) == task.comm || Str(e.comm) == task.leaderComm
  }

  function One(b: bool): int {
    if b then 1 else 0
  }

  /** The three tests of the scan amount to the policy's coverage. */
  lemma EntryCovers(e: ProcEntry, task: CTask)
    ensures Covers(ProcKey(e), task) <==>
            || (e.pid != 0 && e.pid == task.pid)
            || (e.pid == 0 && StrnEq(e.comm, Terminate(task.comm), COMM_LEN))
            || (e.pid == 0 && StrnEq(e.comm, Terminate(task.leaderComm), COMM_LEN))
  {
    FieldMatches(e.comm, Terminate(task.comm));
    FieldMatches(e.comm, Terminate(task.leaderComm));
  }

  // ----- configuration and statistics ----------------------------------------

  class AegisConfig {
    var enabled: bool
    var features: nat
    var ptraceRestrictAll: bool
    var integrityEnforce: bool
    var integrityLog: bool
    var auditEnable: bool
    var loadingDenied: bool
    var ptraceBlocked: int
    var fileViolations: int
    var syscallViolations: int
    var moduleViolations: int
    var totalEvents: int

    function View(): Config
      reads this
    {
      Config(enabled, features, ptraceRestrictAll, integrityEnforce, integrityLog, auditEnable, loadingDenied)
    }

    function Stats(): Counters
      reads this
    {
      Counters(ptraceBlocked, fileViolations, syscallViolations, moduleViolations, totalEvents)
    }

    constructor ()
      ensures View() == BOOT_CONFIG && Stats() == Counters(0, 0, 0, 0, 0)
    {
      enabled, features := true, FEATURE_ALL;
      ptraceRestrictAll, integrityEnforce, integrityLog := false, true, true;
      auditEnable, loadingDenied := true, false;
      ptraceBlocked, fileViolations, syscallViolations, moduleViolations, totalEvents := 0, 0, 0, 0, 0;
    }

    predicate FeatureCheck(f: Feature)
      reads this
    {
      enabled && HasFeature(features, f)
    }
  }

  // ----- what a write endpoint makes of its input ----------------------------

  datatype Input<+T> = Rejected(code: int) | Accepted(arg: T)

  /** The text of a write, when it is accepted at all. */
  function TextInput(ubuf: string, copied: bool, max: nat): Input<Text>
    requires max > 0
  {
    var taken := ubuf[..Min(|ubuf|, max - 1)];
    if !copied then Rejected(-EFAULT)
    else if NUL in taken then Rejected(-EINVAL)
    else
      var text: Text := Trim(taken);
      if text == "" then Rejected(0) else Accepted(text)
  }

  function PathInput(authorized: bool, ubuf: string, copied: bool, buffer: bool): Input<Text> {
    if !authorized then Rejected(-EPERM)
    else if |ubuf| == 0 || |ubuf| > PATH_LEN then Rejected(-EINVAL)
    else if !buffer then Rejected(-ENOMEM)
    else TextInput(ubuf, copied, PATH_LEN)
  }

  datatype CommPid = CommPid(comm: Text, pid: int)

  function ProcInput(authorized: bool, ubuf: string, copied: bool): Input<CommPid> {
    if !authorized then Rejected(-EPERM)
    else if |ubuf| == 0 || |ubuf| >= PATH_LEN then Rejected(-EINVAL)
    else match TextInput(ubuf, copied, PATH_LEN)
      case Rejected(code) => Rejected(code)
      case Accepted(text) =>
        ScanNulFree(text);
        var (comm, pid) := ScanCommPid(text).value;
        Accepted(CommPid(comm, pid))
  }

  lemma {:induction false} SkipSuffix(s: string)
    ensures |SkipSpaces(s)| <= |s| && SkipSpaces(s) == s[|s| - |SkipSpaces(s)|..]
  {
    if s != "" && IsSpace(s[0]) {
      SkipSuffix(s[1..]);
    }
  }

  lemma ScanNulFree(text: Text)
    requires text != ""
    ensures ScanCommPid(text).Some? && NUL !in ScanCommPid(text).value.0
  {
    SkipSuffix(text);
    var comm := ScanCommPid(text).value.0;
    assert comm <= SkipSpaces(text);
    assert forall i :: 0 <= i < |comm| ==> comm[i] == text[|text| - |SkipSpaces(text)| + i];
  }

  /** A name that a process endpoint accepts fits its field. */
  lemma ProcInputFits(authorized: bool, ubuf: string, copied: bool)
    ensures match ProcInput(authorized, ubuf, copied)
            case Rejected(code) => code <= 0
            case Accepted(arg) => SpaceFree(arg.comm) && |arg.comm| < COMM_LEN && IsInt32(arg.pid)
  {
  }

  /** What a write returns: its length for success. */
  function Answer(code: int, len: nat): int {
    if code == 0 then len else code
  }

  /** An operation's outcome as a write reports it. */
  function Answered(o: Outcome<Key>, len: nat): Outcome<Key> {
    Outcome(Answer(o.code, len), o.list)
  }

  const NR_BUF: nat := 16

  function NrInput(authorized: bool, ubuf: string, copied: bool): Input<int> {
    if !authorized then Rejected(-EPERM)
    else if |ubuf| == 0 || |ubuf| >= NR_BUF then Rejected(-EINVAL)
    else match TextInput(ubuf, copied, NR_BUF)
      case Rejected(code) => Rejected(code)
      case Accepted(text) =>
        match ScanNr(text)
        case None => Rejected(-EINVAL)
        case Some(nr) => if nr < 0 then Rejected(-EINVAL) else Accepted(nr)
  }

  /** The path endpoint names what was written, line ends aside, exactly when the write is
      shorter than the buffer or its last byte is a line end; a 256-byte write without one
      loses its last byte. */
  lemma PathInputNames(ubuf: string, path: Text)
    requires PathInput(true, ubuf, true, true) == Accepted(path)
    ensures path == Trim(ubuf) <==> |ubuf| < PATH_LEN || IsLineEnd(ubuf[PATH_LEN - 1])
  {
    if |ubuf| < PATH_LEN {
      assert ubuf[..|ubuf|] == ubuf;
    }
  }

  /** Every write of 256 bytes without a NUL whose last two bytes are not line ends is accepted
      under a name that lacks its last byte. */
  lemma FullWriteLosesByte(t: Text, c: char)
    requires |t| == PATH_LEN - 1 && !IsLineEnd(t[|t| - 1]) && !IsLineEnd(c) && c != NUL
    ensures PathInput(true, t + [c], true, true) == Accepted(t) && Trim(t + [c]) == t + [c] != t
  {
    assert (t + [c])[..PATH_LEN - 1] == t;
    assert Trim(t) == t;
  }

  // ----- the module ----------------------------------------------------------

  /** Every name in the list could have come through a process endpoint. */
  ghost predicate CleanProcs(procs: seq<Key>) {
    forall i :: 0 <= i < |procs| ==>
      procs[i].Proc? && SpaceFree(procs[i].comm) && |procs[i].comm| < COMM_LEN && IsInt32(procs[i].pid)
  }

  class Module {
    const cfg: AegisConfig
    const files: Store<FileEntry>
    const procs: Store<ProcEntry>
    const syscalls: Store<int>

    function Keys(): Lists
      reads files, procs, syscalls
    {
      Lists(KeysOf(files.entries, FileKey), KeysOf(procs.entries, ProcKey), KeysOf(syscalls.entries, NrKey))
    }

    ghost predicate Valid()
      reads files, procs, syscalls
    {
      && files.Valid() && procs.Valid() && syscalls.Valid()
      && files.max == MAX_FILES && procs.max == MAX_PROCS && syscalls.max == MAX_SYSCALLS
      && |files.entries| <= MAX_FILES && |procs.entries| <= MAX_PROCS && |syscalls.entries| <= MAX_SYSCALLS
    }

    /** Each store is a set of keys. */
    ghost predicate Sets()
      reads files, procs, syscalls
    {
      Distinct(Keys().files) && Distinct(Keys().procs) && Distinct(Keys().syscalls)
    }

    /** The module before its subsystems are initialised. */
    constructor ()
      ensures Valid() && Keys() == Lists([], [], [])
      ensures cfg.View() == BOOT_CONFIG && cfg.Stats() == Counters(0, 0, 0, 0, 0)
    {
      cfg := new AegisConfig();
      files := new Store<FileEntry>(MAX_FILES);
      procs := new Store<ProcEntry>(MAX_PROCS);
      syscalls := new Store<int>(MAX_SYSCALLS);
    }

    /** The default protected processes; `alloc` says which allocations succeed. */
    method ProcessInit(alloc: seq<bool>)
      requires Valid() && Keys().procs == [] && |alloc| == 3
      modifies procs`entries, procs`count
      ensures Valid()
      ensures Keys().procs == BootProcs(alloc)
    {
      var r := ProtectProcessAdd(Some("sshd"), 0, alloc[0]);
      r := ProtectProcessAdd(Some("init"), 1, alloc[1]);
      r := ProtectProcessAdd(Some("systemd"), 1, alloc[2]);
    }

    /** The default blocked system calls. */
    method AuditInit(alloc: seq<bool>)
      requires Valid() && Keys().syscalls == [] && |alloc| == 5
      modifies syscalls`entries, syscalls`count
      ensures Valid()
      ensures Keys().syscalls == BootSyscalls(alloc)
    {
      var r := SyscallBlockAdd(NR_KEXEC_LOAD, alloc[0]);
      r := SyscallBlockAdd(NR_KEXEC_FILE_LOAD, alloc[1]);
      r := SyscallBlockAdd(NR_INIT_MODULE, alloc[2]);
      r := SyscallBlockAdd(NR_FINIT_MODULE, alloc[3]);
      r := SyscallBlockAdd(NR_DELETE_MODULE, alloc[4]);
    }

    // ----- protected files ---------------------------------------------------

    /** `hash` is the digest computed between the two critical sections, if there is one. */
    method ProtectedFileAdd(path: Option<Text>, alloc: bool, hash: Option<FileHash.Digest>) returns (ret: int)
      requires Valid()
      modifies files`entries, files`count
      ensures Valid()
      ensures path.None? ==> ret == -EINVAL && Keys() == old(Keys())
      ensures path.Some? ==> Outcome(ret, Keys().files) == PathAdd(old(Keys()).files, path.value, alloc)
      ensures ret == 0 ==> path.Some? && files.entries == old(files.entries) + [StoredFile(path.value, hash)]
    {
      if path.None? {
        return -EINVAL;
      }
      var matches := PathMatcher(path.value);
      var entry := StoredFile(path.value, hash);
      ghost var before := files.entries;
      ret := files.Add(matches, entry, alloc);
      AddRefines(before, files.entries, ret, MAX_FILES, FileKey, Path(path.value), matches, entry, alloc);
    }

    method ProtectedFileDel(path: Option<Text>) returns (ret: int)
      requires Valid()
      modifies files`entries, files`count
      ensures Valid()
      ensures path.None? ==> ret == -EINVAL && Keys() == old(Keys())
      ensures path.Some? ==> Outcome(ret, Keys().files) == ListDel(old(Keys()).files, Path(path.value))
    {
      if path.None? {
        return -EINVAL;
      }
      var matches := PathMatcher(path.value);
      ghost var before := files.entries;
      ret := files.Del(matches);
      DelRefines(before, files.entries, ret, FileKey, Path(path.value), matches);
    }

    method IsFileProtected(path: Option<Text>) returns (found: bool)
      ensures found <==> Live(cfg.View(), FileIntegrity) && path.Some? && Path(path.value) in Keys().files
    {
      if path.None? || !cfg.FeatureCheck(FileIntegrity) {
        return false;
      }
      var matches := PathMatcher(path.value);
      found := files.Any(matches);
    }

    // ----- protected processes -----------------------------------------------

    method ProtectProcessAdd(comm: Option<Text>, pid: int, alloc: bool) returns (ret: int)
      requires Valid()
      modifies procs`entries, procs`count
      ensures Valid()
      ensures comm.None? ==> ret == -EINVAL && Keys() == old(Keys())
      ensures comm.Some? ==> Outcome(ret, Keys().procs) == CommAdd(old(Keys()).procs, comm.value, pid, alloc)
    {
      if comm.None? {
        return -EINVAL;
      }
      var matches := CommMatcher(comm.value, pid);
      var entry := ProcEntry(Strscpy(comm.value, COMM_LEN), pid);
      ghost var before := procs.entries;
      ret := procs.Add(matches, entry, alloc);
      AddRefines(before, procs.entries, ret, MAX_PROCS, ProcKey, Proc(comm.value, pid), matches, entry, alloc);
    }

    method ProtectProcessDel(comm: Option<Text>, pid: int) returns (ret: int)
      requires Valid()
      modifies procs`entries, procs`count
      ensures Valid()
      ensures comm.None? ==> ret == -EINVAL && Keys() == old(Keys())
      ensures comm.Some? ==> Outcome(ret, Keys().procs) == ListDel(old(Keys()).procs, Proc(comm.value, pid))
    {
      if comm.None? {
        return -EINVAL;
      }
      var matches := CommMatcher(comm.value, pid);
      ghost var before := procs.entries;
      ret := procs.Del(matches);
      DelRefines(before, procs.entries, ret, ProcKey, Proc(comm.value, pid), matches);
    }

    /** The early-exit scan over pid, name and group leader's name. */
    method ScanProcs(task: CTask) returns (protected: bool)
      ensures protected <==> exists i :: 0 <= i < |procs.entries| && Covers(ProcKey(procs.entries[i]), task)
    {
      protected := false;
      var own, leader := Terminate(task.comm), Terminate(task.leaderComm);
      var i := 0;
      while i < |procs.entries|
        invariant 0 <= i <= |procs.entries| && !protected
        invariant forall j :: 0 <= j < i ==> !Covers(ProcKey(procs.entries[j]), task)
      {
        var e := procs.entries[i];
        EntryCovers(e, task);
        if e.pid != 0 && e.pid == task.pid {
          protected := true;
          break;
        }
        if e.pid == 0 && StrnEq(e.comm, own, COMM_LEN) {
          protected := true;
          break;
        }
        if e.pid == 0 && StrnEq(e.comm, leader, COMM_LEN) {
          protected := true;
          break;
        }
        i := i + 1;
      }
    }

    method IsProcessProtected(task: Option<CTask>) returns (protected: bool)
      ensures protected <==> Live(cfg.View(), ProcessProtect) && task.Some? && TaskCovered(Keys().procs, task.value)
    {
      if task.None? || !cfg.FeatureCheck(ProcessProtect) {
        return false;
      }
      protected := ScanProcs(task.value);
      ghost var keys := Keys().procs;
      assert forall i :: 0 <= i < |keys| ==> keys[i] == ProcKey(procs.entries[i]);
    }

    // ----- blocked system calls ----------------------------------------------

    method SyscallBlockAdd(nr: int, alloc: bool) returns (ret: int)
      requires Valid()
      modifies syscalls`entries, syscalls`count
      ensures Valid()
      ensures Outcome(ret, Keys().syscalls) == NrAdd(old(Keys()).syscalls, nr, alloc)
      ensures nr < 0 ==> ret == -EINVAL && Keys() == old(Keys())
    {
      if nr < 0 {
        return -EINVAL;
      }
      var matches := (e: int) => e == nr;
      ghost var before := syscalls.entries;
      ret := syscalls.Add(matches, nr, alloc);
      AddRefines(before, syscalls.entries, ret, MAX_SYSCALLS, NrKey, Nr(nr), matches, nr, alloc);
    }

    method SyscallBlockDel(nr: int) returns (ret: int)
      requires Valid()
      modifies syscalls`entries, syscalls`count
      ensures Valid()
      ensures Outcome(ret, Keys().syscalls) == ListDel(old(Keys()).syscalls, Nr(nr))
    {
      var matches := (e: int) => e == nr;
      ghost var before := syscalls.entries;
      ret := syscalls.Del(matches);
      DelRefines(before, syscalls.entries, ret, NrKey, Nr(nr), matches);
    }

    method IsSyscallBlocked(nr: int) returns (blocked: bool)
      ensures blocked <==> AuditLive(cfg.View()) && Nr(nr) in Keys().syscalls
    {
      if !cfg.FeatureCheck(SyscallAudit) {
        return false;
      }
      if !cfg.auditEnable {
        return false;
      }
      var matches := (e: int) => e == nr;
      blocked := syscalls.Any(matches);
    }

    // ----- hooks -------------------------------------------------------------

    method TaskFree()
      modifies cfg`totalEvents
      ensures cfg.Stats() == Tally(old(cfg.Stats()), Decide(cfg.View(), Keys(), Hook.TaskFree).event)
      ensures cfg.totalEvents == old(cfg.totalEvents) + One(cfg.enabled)
    {
      if !cfg.enabled {
        return;
      }
      cfg.totalEvents := cfg.totalEvents + 1;
    }

    method BprmCheckSecurity() returns (ret: int)
      modifies cfg`totalEvents
      ensures Decided(BprmCheck, ret, old(cfg.Stats()))
      ensures ret == 0
      ensures cfg.totalEvents == old(cfg.totalEvents) + One(cfg.FeatureCheck(SyscallAudit) && cfg.auditEnable)
    {
      if !cfg.enabled {
        return 0;
      }
      if cfg.FeatureCheck(SyscallAudit) && cfg.auditEnable {
        cfg.totalEvents := cfg.totalEvents + 1;
      }
      return 0;
    }

    /** Some entry names the process's pid or, having no pid, its name or its group leader's. */
    predicate Guarded(task: CTask)
      reads procs
    {
      exists i :: 0 <= i < |procs.entries| && EntryGuards(procs.entries[i], task)
    }

    /** The call returned and counted what the policy says about `hook` in this state. */
    ghost predicate Decided(hook: Hook, ret: int, before: Counters)
      reads cfg, files, procs, syscalls
    {
      var d := Decide(cfg.View(), Keys(), hook);
      ret == d.code && cfg.Stats() == Tally(before, d.event)
    }

    method PtraceAccessCheck(child: CTask, noAudit: bool) returns (rc: int)
      modifies cfg`ptraceBlocked, cfg`totalEvents
      ensures Decided(PtraceAccess(child, noAudit), rc, old(cfg.Stats()))
      ensures rc == 0 || rc == -EPERM
      ensures rc != 0 <==>
        cfg.FeatureCheck(PtraceRestrict) && (cfg.ptraceRestrictAll || (cfg.FeatureCheck(ProcessProtect) && Guarded(child)))
      ensures cfg.ptraceBlocked == old(cfg.ptraceBlocked) + One(rc != 0)
      ensures cfg.totalEvents == old(cfg.totalEvents) + One(rc != 0)
    {
      rc := 0;
      if !cfg.FeatureCheck(PtraceRestrict) {
        return;
      }
      if cfg.ptraceRestrictAll {
        cfg.ptraceBlocked := cfg.ptraceBlocked + 1;
        cfg.totalEvents := cfg.totalEvents + 1;
        return -EPERM;
      }
      if cfg.FeatureCheck(ProcessProtect) {
        var protected := IsProcessProtected(Some(child));
        if protected {
          cfg.ptraceBlocked := cfg.ptraceBlocked + 1;
          cfg.totalEvents := cfg.totalEvents + 1;
          rc := -EPERM;
        }
      }
    }

    method PtraceTracemeCheck() returns (ret: int)
      modifies cfg`ptraceBlocked, cfg`totalEvents
      ensures Decided(PtraceTraceme, ret, old(cfg.Stats()))
      ensures ret == if cfg.FeatureCheck(PtraceRestrict) && cfg.ptraceRestrictAll then -EPERM else 0
      ensures cfg.ptraceBlocked == old(cfg.ptraceBlocked) + One(ret != 0)
      ensures cfg.totalEvents == old(cfg.totalEvents) + One(ret != 0)
    {
      if !cfg.FeatureCheck(PtraceRestrict) {
        return 0;
      }
      if cfg.ptraceRestrictAll {
        cfg.ptraceBlocked := cfg.ptraceBlocked + 1;
        cfg.totalEvents := cfg.totalEvents + 1;
        return -EPERM;
      }
      return 0;
    }

    method FilePermissionCheck(access: Access, page: bool, path: Option<Text>) returns (rc: int)
      requires Valid()
      modifies cfg`fileViolations, cfg`totalEvents
      ensures Decided(FilePermission(access, page, path), rc, old(cfg.Stats()))
      ensures var seen := cfg.FeatureCheck(FileIntegrity) && page && path.Some? && Path(path.value) in Keys().files;
              && rc == (if seen && (access.write || access.append) && cfg.integrityEnforce then -EACCES else 0)
              && cfg.fileViolations == old(cfg.fileViolations) + One(rc != 0)
              && cfg.totalEvents == old(cfg.totalEvents) + One(rc != 0 || (seen && cfg.integrityLog))
      ensures !access.write && !access.append ==> rc == 0 && cfg.fileViolations == old(cfg.fileViolations)
    {
      rc := 0;
      if !cfg.FeatureCheck(FileIntegrity) {
        return;
      }
      if files.count == 0 {
        return;
      }
      if !page {
        return;
      }
      if path.None? {
        return;
      }
      var protected := IsFileProtected(path);
      if protected {
        rc := OnProtectedFile(access);
      }
    }

    /** What is done about an access to a protected file. */
    method OnProtectedFile(access: Access) returns (rc: int)
      modifies cfg`fileViolations, cfg`totalEvents
      ensures rc == if (access.write || access.append) && cfg.integrityEnforce then -EACCES else 0
      ensures cfg.fileViolations == old(cfg.fileViolations) + One(rc != 0)
      ensures cfg.totalEvents == old(cfg.totalEvents) + One(rc != 0 || cfg.integrityLog)
    {
      rc := 0;
      if (access.write || access.append) && cfg.integrityEnforce {
        cfg.fileViolations := cfg.fileViolations + 1;
        cfg.totalEvents := cfg.totalEvents + 1;
        rc := -EACCES;
      }
      if cfg.integrityLog && rc == 0 {
        cfg.totalEvents := cfg.totalEvents + 1;
      }
    }

    method FileOpenCheck(fmodeRead: bool, fmodeWrite: bool, page: bool, path: Option<Text>) returns (ret: int)
      requires Valid()
      modifies cfg`fileViolations, cfg`totalEvents
      ensures Decided(FileOpen(fmodeRead, fmodeWrite, page, path), ret, old(cfg.Stats()))
      ensures var seen := && (fmodeRead || fmodeWrite) && cfg.FeatureCheck(FileIntegrity)
                          && page && path.Some? && Path(path.value) in Keys().files;
              && ret == (if seen && fmodeWrite && cfg.integrityEnforce then -EACCES else 0)
              && cfg.fileViolations == old(cfg.fileViolations) + One(ret != 0)
              && cfg.totalEvents == old(cfg.totalEvents) + One(ret != 0 || (seen && cfg.integrityLog))
      ensures !fmodeWrite ==> ret == 0 && cfg.fileViolations == old(cfg.fileViolations)
    {
      var mask := Access(false, false, false);
      if fmodeWrite {
        mask := mask.(write := true);
      }
      if fmodeRead {
        mask := mask.(read := true);
      }
      if mask == Access(false, false, false) {
        return 0;
      }
      ret := FilePermissionCheck(mask, page, path);
    }

    method KernelReadFile(id: ReadId, file: bool, page: bool, path: Option<Text>) returns (ret: int)
      modifies cfg`syscallViolations, cfg`moduleViolations, cfg`totalEvents
      ensures Decided(ReadFile(id, file, page, path), ret, old(cfg.Stats()))
      ensures var listed := cfg.FeatureCheck(SyscallAudit) && cfg.auditEnable &&
                            ((id == ReadModule && Nr(NR_FINIT_MODULE) in Keys().syscalls)
                             || ((id == ReadKexecImage || id == ReadKexecInitramfs) && Nr(NR_KEXEC_FILE_LOAD) in Keys().syscalls));
              var denied := !listed && cfg.FeatureCheck(ModuleControl) && cfg.loadingDenied && (id == ReadModule || id == ReadFirmware);
              var counted := denied && (id == ReadModule ==> file && page && path.Some?);
              && ret == (if denied && id == ReadModule && file && !page then -ENOMEM else if listed || denied then -EPERM else 0)
              && cfg.syscallViolations == old(cfg.syscallViolations) + One(listed)
              && cfg.moduleViolations == old(cfg.moduleViolations) + One(counted)
              && cfg.totalEvents == old(cfg.totalEvents) + One(listed || counted)
    {
      ReadFileExact(cfg.View(), Keys(), id, file, page, path);
      if !cfg.enabled {
        return 0;
      }
      var blocked := ReadBlocked(id);
      if blocked {
        cfg.syscallViolations := cfg.syscallViolations + 1;
        cfg.totalEvents := cfg.totalEvents + 1;
        return -EPERM;
      }
      ret := ControlModuleRead(id, file, page, path);
    }

    /** The system call list's part of a read. */
    method ReadBlocked(id: ReadId) returns (blocked: bool)
      ensures blocked <==> cfg.FeatureCheck(SyscallAudit) && cfg.auditEnable &&
                           ((id == ReadModule && Nr(NR_FINIT_MODULE) in Keys().syscalls)
                            || ((id == ReadKexecImage || id == ReadKexecInitramfs) && Nr(NR_KEXEC_FILE_LOAD) in Keys().syscalls))
    {
      blocked := false;
      var nr := ReadIdToSyscall(id);
      if nr >= 0 {
        blocked := IsSyscallBlocked(nr);
      }
    }

    /** The module control part of a read. */
    method ControlModuleRead(id: ReadId, file: bool, page: bool, path: Option<Text>) returns (ret: int)
      requires cfg.enabled
      modifies cfg`moduleViolations, cfg`totalEvents
      ensures var denied := cfg.FeatureCheck(ModuleControl) && cfg.loadingDenied && (id == ReadModule || id == ReadFirmware);
              var counted := denied && (id == ReadModule ==> file && page && path.Some?);
              && ret == (if denied && id == ReadModule && file && !page then -ENOMEM else if denied then -EPERM else 0)
              && cfg.moduleViolations == old(cfg.moduleViolations) + One(counted)
              && cfg.totalEvents == old(cfg.totalEvents) + One(counted)
    {
      if !cfg.FeatureCheck(ModuleControl) {
        return 0;
      }
      if id == ReadModule && cfg.loadingDenied {
        if !file {
          return -EPERM;
        }
        if !page {
          return -ENOMEM;
        }
        if path.Some? {
          cfg.moduleViolations := cfg.moduleViolations + 1;
          cfg.totalEvents := cfg.totalEvents + 1;
        }
        return -EPERM;
      }
      if id == ReadFirmware && cfg.loadingDenied {
        cfg.moduleViolations := cfg.moduleViolations + 1;
        cfg.totalEvents := cfg.totalEvents + 1;
        return -EPERM;
      }
      return 0;
    }

    method KernelLoadData(id: LoadId) returns (ret: int)
      modifies cfg`syscallViolations, cfg`moduleViolations, cfg`totalEvents
      ensures Decided(LoadData(id), ret, old(cfg.Stats()))
      ensures var listed := cfg.FeatureCheck(SyscallAudit) && cfg.auditEnable &&
                            ((id == LoadModule && Nr(NR_INIT_MODULE) in Keys().syscalls)
                             || (id == LoadKexecImage && Nr(NR_KEXEC_LOAD) in Keys().syscalls));
              var denied := !listed && cfg.FeatureCheck(ModuleControl) && cfg.loadingDenied && id == LoadModule;
              && ret == (if listed || denied then -EPERM else 0)
              && cfg.syscallViolations == old(cfg.syscallViolations) + One(listed)
              && cfg.moduleViolations == old(cfg.moduleViolations) + One(denied)
              && cfg.totalEvents == old(cfg.totalEvents) + One(ret != 0)
    {
      LoadDataExact(cfg.View(), Keys(), id);
      if !cfg.enabled {
        return 0;
      }
      var blocked := LoadBlocked(id);
      if blocked {
        cfg.syscallViolations := cfg.syscallViolations + 1;
        cfg.totalEvents := cfg.totalEvents + 1;
        return -EPERM;
      }
      if !cfg.FeatureCheck(ModuleControl) {
        return 0;
      }
      if id == LoadModule && cfg.loadingDenied {
        cfg.moduleViolations := cfg.moduleViolations + 1;
        cfg.totalEvents := cfg.totalEvents + 1;
        return -EPERM;
      }
      return 0;
    }

    /** The system call list's part of a load. */
    method LoadBlocked(id: LoadId) returns (blocked: bool)
      ensures blocked <==> cfg.FeatureCheck(SyscallAudit) && cfg.auditEnable &&
                           ((id == LoadModule && Nr(NR_INIT_MODULE) in Keys().syscalls)
                            || (id == LoadKexecImage && Nr(NR_KEXEC_LOAD) in Keys().syscalls))
    {
      blocked := false;
      if cfg.FeatureCheck(SyscallAudit) {
        if id == LoadModule {
          blocked := IsSyscallBlocked(NR_INIT_MODULE);
        }
        if !blocked && id == LoadKexecImage {
          blocked := IsSyscallBlocked(NR_KEXEC_LOAD);
        }
      }
    }

    // ----- write endpoints ---------------------------------------------------

    /** Fetch and normalise the text of a write into a buffer of `max` bytes. */
    method FetchText(ubuf: string, copied: bool, max: nat) returns (n: int, text: Text)
      requires max > 0
      ensures match TextInput(ubuf, copied, max)
              case Rejected(code) => n == code <= 0
              case Accepted(t) => n == |t| > 0 && text == t
    {
      var buf := new char[max](_ => NUL);
      n := GetString(ubuf, copied, buf, max);
      text := "";
      if n > 0 {
        text := buf[..n];
      }
    }

    /** What a path endpoint reads from its input. */
    method FetchPath(authorized: bool, ubuf: string, copied: bool, buffer: bool) returns (n: int, path: Text)
      ensures match PathInput(authorized, ubuf, copied, buffer)
              case Rejected(code) => n == code <= 0
              case Accepted(p) => n > 0 && path == p && |p| < PATH_LEN
    {
      path := "";
      if !authorized {
        return -EPERM, path;
      }
      if |ubuf| == 0 || |ubuf| > PATH_LEN {
        return -EINVAL, path;
      }
      if !buffer {
        return -ENOMEM, path;
      }
      n, path := FetchText(ubuf, copied, PATH_LEN);
    }

    method FilesAddWrite(authorized: bool, ubuf: string, copied: bool, buffer: bool, alloc: bool,
                         hash: Option<FileHash.Digest>) returns (ret: int)
      requires Valid()
      modifies files`entries, files`count
      ensures Valid()
      ensures !authorized ==> ret == -EPERM && Keys() == old(Keys())
      ensures authorized && (|ubuf| == 0 || |ubuf| > PATH_LEN) ==> ret == -EINVAL && Keys() == old(Keys())
      ensures authorized && 0 < |ubuf| <= PATH_LEN && !buffer ==> ret == -ENOMEM && Keys() == old(Keys())
      ensures authorized && 0 < |ubuf| <= PATH_LEN && buffer && !copied ==> ret == -EFAULT && Keys() == old(Keys())
      ensures var taken := ubuf[..Min(|ubuf|, PATH_LEN - 1)];
              authorized && 0 < |ubuf| <= PATH_LEN && buffer && copied ==>
                && (NUL in taken ==> ret == -EINVAL && Keys() == old(Keys()))
                && (Trim(taken) == "" && NUL !in taken ==> ret == 0 && Keys() == old(Keys()))
                && (Trim(taken) != "" && NUL !in taken ==>
                      Outcome(ret, Keys().files) == Answered(SetAdd(old(Keys()).files, MAX_FILES, Path(Trim(taken)), alloc), |ubuf|))
      ensures match PathInput(authorized, ubuf, copied, buffer)
              case Rejected(code) => ret == code
              case Accepted(path) =>
                var o := SetAdd(old(Keys()).files, MAX_FILES, Path(path), alloc);
                Keys().files == o.list && ret == Answer(o.code, |ubuf|)
      ensures ret == |ubuf| <==> |Keys().files| == |old(Keys()).files| + 1
      ensures ret != |ubuf| ==> Keys() == old(Keys())
      ensures old(Sets()) ==> Sets()
    {
      var path;
      ret, path := FetchPath(authorized, ubuf, copied, buffer);
      if ret <= 0 {
        return;
      }
      ret := AddFitting(path, alloc, hash);
      ret := if ret == 0 then |ubuf| else ret;
    }

    /** Adding a path that fits its field is insertion into a set. */
    method AddFitting(path: Text, alloc: bool, hash: Option<FileHash.Digest>) returns (ret: int)
      requires Valid() && |path| < PATH_LEN
      modifies files`entries, files`count
      ensures Valid()
      ensures Outcome(ret, Keys().files) == SetAdd(old(Keys()).files, MAX_FILES, Path(path), alloc)
      ensures ret != 0 ==> Keys() == old(Keys())
      ensures old(Sets()) ==> Sets()
    {
      if Distinct(Keys().files) { SetKept(Keys().files, MAX_FILES, Path(path), alloc); }
      assert Clip(path, PATH_LEN) == path;
      ret := ProtectedFileAdd(Some(path), alloc, hash);
    }

    method FilesDelWrite(authorized: bool, ubuf: string, copied: bool, buffer: bool) returns (ret: int)
      requires Valid()
      modifies files`entries, files`count
      ensures Valid()
      ensures !authorized ==> ret == -EPERM && Keys() == old(Keys())
      ensures authorized && (|ubuf| == 0 || |ubuf| > PATH_LEN) ==> ret == -EINVAL && Keys() == old(Keys())
      ensures authorized && 0 < |ubuf| <= PATH_LEN && !buffer ==> ret == -ENOMEM && Keys() == old(Keys())
      ensures authorized && 0 < |ubuf| <= PATH_LEN && buffer && !copied ==> ret == -EFAULT && Keys() == old(Keys())
      ensures var taken := ubuf[..Min(|ubuf|, PATH_LEN - 1)];
              authorized && 0 < |ubuf| <= PATH_LEN && buffer && copied ==>
                && (NUL in taken ==> ret == -EINVAL && Keys() == old(Keys()))
                && (Trim(taken) == "" && NUL !in taken ==> ret == 0 && Keys() == old(Keys()))
                && (Trim(taken) != "" && NUL !in taken ==>
                      Outcome(ret, Keys().files) == Answered(ListDel(old(Keys()).files, Path(Trim(taken))), |ubuf|))
      ensures match PathInput(authorized, ubuf, copied, buffer)
              case Rejected(code) => ret == code
              case Accepted(path) =>
                var o := ListDel(old(Keys()).files, Path(path));
                Keys().files == o.list && ret == Answer(o.code, |ubuf|)
      ensures ret == |ubuf| <==> |Keys().files| == |old(Keys()).files| - 1
      ensures ret != |ubuf| ==> Keys() == old(Keys())
      ensures old(Sets()) ==> Sets()
    {
      var path;
      ret, path := FetchPath(authorized, ubuf, copied, buffer);
      if ret <= 0 {
        return;
      }
      if Distinct(Keys().files) { ListDelDistinct(Keys().files, Path(path)); }
      ret := ProtectedFileDel(Some(path));
      ret := if ret == 0 then |ubuf| else ret;
    }

    /** What a process endpoint reads from its input. */
    method FetchCommPid(authorized: bool, ubuf: string, copied: bool) returns (n: int, comm: Text, pid: int)
      ensures match ProcInput(authorized, ubuf, copied)
              case Rejected(code) => n == code <= 0
              case Accepted(arg) => n > 0 && comm == arg.comm && pid == arg.pid
    {
      comm, pid := "", 0;
      if !authorized {
        return -EPERM, comm, pid;
      }
      if |ubuf| == 0 || |ubuf| >= PATH_LEN {
        return -EINVAL, comm, pid;
      }
      var text;
      n, text := FetchText(ubuf, copied, PATH_LEN);
      if n <= 0 {
        return;
      }
      ScanNulFree(text);
      var scanned := ScanCommPid(text);
      comm, pid := scanned.value.0, scanned.value.1;
    }

    method ProcsAddWrite(authorized: bool, ubuf: string, copied: bool, alloc: bool) returns (ret: int)
      requires Valid()
      modifies procs`entries, procs`count
      ensures Valid()
      ensures !authorized ==> ret == -EPERM && Keys() == old(Keys())
      ensures authorized && (|ubuf| == 0 || |ubuf| >= PATH_LEN) ==> ret == -EINVAL && Keys() == old(Keys())
      ensures authorized && 0 < |ubuf| < PATH_LEN && !copied ==> ret == -EFAULT && Keys() == old(Keys())
      ensures var taken := ubuf[..Min(|ubuf|, PATH_LEN - 1)];
              authorized && 0 < |ubuf| < PATH_LEN && copied ==>
                && (NUL in taken ==> ret == -EINVAL && Keys() == old(Keys()))
                && (Trim(taken) == "" && NUL !in taken ==> ret == 0 && Keys() == old(Keys()))
                && (Trim(taken) != "" && NUL !in taken ==>
                      var arg := ScanCommPid(Trim(taken)).value;
                      Outcome(ret, Keys().procs) == Answered(SetAdd(old(Keys()).procs, MAX_PROCS, Proc(arg.0, arg.1), alloc), |ubuf|))
      ensures match ProcInput(authorized, ubuf, copied)
              case Rejected(code) => ret == code
              case Accepted(arg) =>
                var o := SetAdd(old(Keys()).procs, MAX_PROCS, Proc(arg.comm, arg.pid), alloc);
                Keys().procs == o.list && ret == Answer(o.code, |ubuf|)
      ensures ret == |ubuf| <==> |Keys().procs| == |old(Keys()).procs| + 1
      ensures ret != |ubuf| ==> Keys() == old(Keys())
      ensures old(Sets()) ==> Sets()
      ensures CleanProcs(old(Keys()).procs) ==> CleanProcs(Keys().procs)
    {
      var comm, pid;
      ret, comm, pid := FetchCommPid(authorized, ubuf, copied);
      if ret <= 0 {
        return;
      }
      ProcInputFits(authorized, ubuf, copied);
      ret := AddNamed(comm, pid, alloc);
      ret := if ret == 0 then |ubuf| else ret;
    }

    /** Adding a name that fits its field is insertion into a set. */
    method AddNamed(comm: Text, pid: int, alloc: bool) returns (ret: int)
      requires Valid() && |comm| < COMM_LEN
      modifies procs`entries, procs`count
      ensures Valid()
      ensures Outcome(ret, Keys().procs) == SetAdd(old(Keys()).procs, MAX_PROCS, Proc(comm, pid), alloc)
      ensures ret != 0 ==> Keys() == old(Keys())
      ensures old(Sets()) ==> Sets()
    {
      if Distinct(Keys().procs) { SetKept(Keys().procs, MAX_PROCS, Proc(comm, pid), alloc); }
      assert Clip(comm, COMM_LEN) == comm;
      ret := ProtectProcessAdd(Some(comm), pid, alloc);
    }

    method ProcsDelWrite(authorized: bool, ubuf: string, copied: bool) returns (ret: int)
      requires Valid()
      modifies procs`entries, procs`count
      ensures Valid()
      ensures !authorized ==> ret == -EPERM && Keys() == old(Keys())
      ensures authorized && (|ubuf| == 0 || |ubuf| >= PATH_LEN) ==> ret == -EINVAL && Keys() == old(Keys())
      ensures authorized && 0 < |ubuf| < PATH_LEN && !copied ==> ret == -EFAULT && Keys() == old(Keys())
      ensures var taken := ubuf[..Min(|ubuf|, PATH_LEN - 1)];
              authorized && 0 < |ubuf| < PATH_LEN && copied ==>
                && (NUL in taken ==> ret == -EINVAL && Keys() == old(Keys()))
                && (Trim(taken) == "" && NUL !in taken ==> ret == 0 && Keys() == old(Keys()))
                && (Trim(taken) != "" && NUL !in taken ==>
                      var arg := ScanCommPid(Trim(taken)).value;
                      Outcome(ret, Keys().procs) == Answered(ListDel(old(Keys()).procs, Proc(arg.0, arg.1)), |ubuf|))
      ensures match ProcInput(authorized, ubuf, copied)
              case Rejected(code) => ret == code
              case Accepted(arg) =>
                var o := ListDel(old(Keys()).procs, Proc(arg.comm, arg.pid));
                Keys().procs == o.list && ret == Answer(o.code, |ubuf|)
      ensures ret == |ubuf| <==> |Keys().procs| == |old(Keys()).procs| - 1
      ensures ret != |ubuf| ==> Keys() == old(Keys())
      ensures old(Sets()) ==> Sets()
    {
      var comm, pid;
      ret, comm, pid := FetchCommPid(authorized, ubuf, copied);
      if ret <= 0 {
        return;
      }
      if Distinct(Keys().procs) { ListDelDistinct(Keys().procs, Proc(comm, pid)); }
      ret := ProtectProcessDel(Some(comm), pid);
      ret := if ret == 0 then |ubuf| else ret;
    }

    /** What a system call endpoint reads from its input. */
    method FetchNr(authorized: bool, ubuf: string, copied: bool) returns (n: int, nr: int)
      ensures match NrInput(authorized, ubuf, copied)
              case Rejected(code) => n == code <= 0
              case Accepted(arg) => n > 0 && nr == arg >= 0
    {
      nr := 0;
      if !authorized {
        return -EPERM, nr;
      }
      if |ubuf| == 0 || |ubuf| >= NR_BUF {
        return -EINVAL, nr;
      }
      var text;
      n, text := FetchText(ubuf, copied, NR_BUF);
      if n <= 0 {
        return;
      }
      var scanned := ScanNr(text);
      if scanned.None? || scanned.value < 0 {
        return -EINVAL, nr;
      }
      nr := scanned.value;
    }

    method SyscallsAddWrite(authorized: bool, ubuf: string, copied: bool, alloc: bool) returns (ret: int)
      requires Valid()
      modifies syscalls`entries, syscalls`count
      ensures Valid()
      ensures !authorized ==> ret == -EPERM && Keys() == old(Keys())
      ensures authorized && (|ubuf| == 0 || |ubuf| >= NR_BUF) ==> ret == -EINVAL && Keys() == old(Keys())
      ensures authorized && 0 < |ubuf| < NR_BUF && !copied ==> ret == -EFAULT && Keys() == old(Keys())
      ensures var taken := ubuf[..Min(|ubuf|, NR_BUF - 1)];
              authorized && 0 < |ubuf| < NR_BUF && copied ==>
                && (NUL in taken ==> ret == -EINVAL && Keys() == old(Keys()))
                && (Trim(taken) == "" && NUL !in taken ==> ret == 0 && Keys() == old(Keys()))
                && (Trim(taken) != "" && NUL !in taken ==>
                      var nr := ScanNr(Trim(taken));
                      if nr.None? || nr.value < 0 then ret == -EINVAL && Keys() == old(Keys())
                      else Outcome(ret, Keys().syscalls) ==
                           Answered(SetAdd(old(Keys()).syscalls, MAX_SYSCALLS, Nr(nr.value), alloc), |ubuf|))
      ensures match NrInput(authorized, ubuf, copied)
              case Rejected(code) => ret == code
              case Accepted(nr) =>
                var o := SetAdd(old(Keys()).syscalls, MAX_SYSCALLS, Nr(nr), alloc);
                Keys().syscalls == o.list && ret == Answer(o.code, |ubuf|)
      ensures ret == |ubuf| <==> |Keys().syscalls| == |old(Keys()).syscalls| + 1
      ensures ret != |ubuf| ==> Keys() == old(Keys())
      ensures old(Sets()) ==> Sets()
    {
      var nr;
      ret, nr := FetchNr(authorized, ubuf, copied);
      if ret <= 0 {
        return;
      }
      if Distinct(Keys().syscalls) { SetKept(Keys().syscalls, MAX_SYSCALLS, Nr(nr), alloc); }
      ret := SyscallBlockAdd(nr, alloc);
      ret := if ret == 0 then |ubuf| else ret;
    }

    method SyscallsDelWrite(authorized: bool, ubuf: string, copied: bool) returns (ret: int)
      requires Valid()
      modifies syscalls`entries, syscalls`count
      ensures Valid()
      ensures !authorized ==> ret == -EPERM && Keys() == old(Keys())
      ensures authorized && (|ubuf| == 0 || |ubuf| >= NR_BUF) ==> ret == -EINVAL && Keys() == old(Keys())
      ensures authorized && 0 < |ubuf| < NR_BUF && !copied ==> ret == -EFAULT && Keys() == old(Keys())
      ensures var taken := ubuf[..Min(|ubuf|, NR_BUF - 1)];
              authorized && 0 < |ubuf| < NR_BUF && copied ==>
                && (NUL in taken ==> ret == -EINVAL && Keys() == old(Keys()))
                && (Trim(taken) == "" && NUL !in taken ==> ret == 0 && Keys() == old(Keys()))
                && (Trim(taken) != "" && NUL !in taken ==>
                      var nr := ScanNr(Trim(taken));
                      if nr.None? || nr.value < 0 then ret == -EINVAL && Keys() == old(Keys())
                      else Outcome(ret, Keys().syscalls) == Answered(ListDel(old(Keys()).syscalls, Nr(nr.value)), |ubuf|))
      ensures match NrInput(authorized, ubuf, copied)
              case Rejected(code) => ret == code
              case Accepted(nr) =>
                var o := ListDel(old(Keys()).syscalls, Nr(nr));
                Keys().syscalls == o.list && ret == Answer(o.code, |ubuf|)
      ensures ret == |ubuf| <==> |Keys().syscalls| == |old(Keys()).syscalls| - 1
      ensures ret != |ubuf| ==> Keys() == old(Keys())
      ensures old(Sets()) ==> Sets()
    {
      var nr;
      ret, nr := FetchNr(authorized, ubuf, copied);
      if ret <= 0 {
        return;
      }
      if Distinct(Keys().syscalls) { ListDelDistinct(Keys().syscalls, Nr(nr)); }
      ret := SyscallBlockDel(nr);
      ret := if ret == 0 then |ubuf| else ret;
    }
  }

  function BootProcs(alloc: seq<bool>): seq<Key>
    requires |alloc| == 3
  {
    var l1 := CommAdd([], "sshd", 0, alloc[0]).list;
    var l2 := CommAdd(l1, "init", 1, alloc[1]).list;
    CommAdd(l2, "systemd", 1, alloc[2]).list
  }

  function BootSyscalls(alloc: seq<bool>): seq<Key>
    requires |alloc| == 5
  {
    var l1 := NrAdd([], NR_KEXEC_LOAD, alloc[0]).list;
    var l2 := NrAdd(l1, NR_KEXEC_FILE_LOAD, alloc[1]).list;
    var l3 := NrAdd(l2, NR_INIT_MODULE, alloc[2]).list;
    var l4 := NrAdd(l3, NR_FINIT_MODULE, alloc[3]).list;
    NrAdd(l4, NR_DELETE_MODULE, alloc[4]).list
  }

  /** With every allocation granted, boot protects three processes and blocks five calls. */
  lemma BootDefaults(procs: seq<bool>, syscalls: seq<bool>)
    requires procs == [true, true, true] && syscalls == [true, true, true, true, true]
    ensures BootProcs(procs) == [Proc("sshd", 0), Proc("init", 1), Proc("systemd", 1)]
    ensures BootSyscalls(syscalls) == [Nr(NR_KEXEC_LOAD), Nr(NR_KEXEC_FILE_LOAD), Nr(NR_INIT_MODULE),
                                       Nr(NR_FINIT_MODULE), Nr(NR_DELETE_MODULE)]
  {
    assert Clip("sshd", COMM_LEN) == "sshd" && Clip("init", COMM_LEN) == "init" && Clip("systemd", COMM_LEN) == "systemd";
  }

  /** The decision on every hook from then on, until the lists or the switches are changed:
      module loads and kexec are refused, other loads are not; sshd and process 1 cannot be
      traced, others can; listed files can be read, which is logged, but not written. */
  lemma BootDecisions(files: seq<Key>, hook: Hook)
    ensures var lists := Lists(files, BootProcs([true, true, true]), BootSyscalls([true, true, true, true, true]));
            Decide(BOOT_CONFIG, lists, hook) ==
              match hook
              case TaskFree => Decision(0, TaskFreed)
              case BprmCheck => Decision(0, ExecAudited)
              case PtraceAccess(child, _) =>
                if child.pid == 1 || child.comm == "sshd" || child.leaderComm == "sshd"
                then Decision(-EPERM, PtraceBlocked) else Decision(0, Quiet)
              case PtraceTraceme => Decision(0, Quiet)
              case FilePermission(access, page, path) =>
                if !page || path.None? || Path(path.value) !in files then Decision(0, Quiet)
                else if access.write || access.append then Decision(-EACCES, FileDenied) else Decision(0, FileLogged)
              case FileOpen(r, w, page, path) =>
                if (!r && !w) || !page || path.None? || Path(path.value) !in files then Decision(0, Quiet)
                else if w then Decision(-EACCES, FileDenied) else Decision(0, FileLogged)
              case ReadFile(id, _, _, _) =>
                if id == ReadFirmware || id == ReadOther then Decision(0, Quiet) else Decision(-EPERM, SyscallDenied)
              case LoadData(id) => if id == LoadOther then Decision(0, Quiet) else Decision(-EPERM, SyscallDenied)
  {
    AllFeatures();
    BootDefaults([true, true, true], [true, true, true, true, true]);
    if hook.PtraceAccess? {
      BootCovers(hook.child);
    }
  }

  lemma BootCovers(task: Task)
    ensures TaskCovered([Proc("sshd", 0), Proc("init", 1), Proc("systemd", 1)], task)
            <==> task.pid == 1 || task.comm == "sshd" || task.leaderComm == "sshd"
  {
    var procs := [Proc("sshd", 0), Proc("init", 1), Proc("systemd", 1)];
    assert Covers(procs[0], task) || Covers(procs[1], task) ==> TaskCovered(procs, task);
  }

  function ReadIdToSyscall(id: ReadId): (nr: int)
    ensures forall file, page, path :: SyscallOf(ReadFile(id, file, page, path)) == if nr < 0 then None else Some(nr)
  {
    match id
    case ReadModule => NR_FINIT_MODULE
    case ReadKexecImage => NR_KEXEC_FILE_LOAD
    case ReadKexecInitramfs => NR_KEXEC_FILE_LOAD
    case _ => -1
  }
}
