/** What the locks guarantee in every interleaving: a store's count follows its list, and the
    gap between an add's check and its append is bounded by the number of threads. */
module Interleaving {
  import opened Kernel
  import opened Policy
  import opened Machine
  import opened ThreadSums
  import opened PolicyStore

  // ----- a static reading of programs ----------------------------------------

  predicate CondOk(c: Cond, held: Option<StoreId>) {
    match c
    case Full(id) => held == Some(id)
    case Has(key) => held == Some(StoreOf(key))
    case AnyCovers(_) => held == Some(Procs)
    case _ => true
  }

  /** The store whose append this program has earned by passing the capacity check. */
  function Pend(p: Prog): Option<StoreId> {
    match p
    case Ret(_) => None
    case Test(c, yes, no) => if c.Full? then None else Either(Pend(yes), Pend(no))
    case Unlink(_, found, missing) => Either(Pend(found), Pend(missing))
    case Append(key, _) => Some(StoreOf(key))
    case _ => Pend(p.next)
  }

  /** The key whose append this program has earned by passing the duplicate check. */
  function PendKey(p: Prog): Option<Key> {
    match p
    case Ret(_) => None
    case Test(c, yes, no) => if c.Has? then None else Either(PendKey(yes), PendKey(no))
    case Unlink(_, found, missing) => Either(PendKey(found), PendKey(missing))
    case Append(key, _) => Some(key)
    case _ => PendKey(p.next)
  }

  function Either<T>(a: Option<T>, b: Option<T>): Option<T> {
    if a.Some? then a else b
  }

  predicate Compatible<T(==)>(a: Option<T>, b: Option<T>) {
    a.None? || b.None? || a == b
  }

  /** The program respects the lock it holds, and `drift` is what it still owes to the count. */
  predicate Disciplined(p: Prog, held: Option<StoreId>, drift: int) {
    match p
    case Ret(_) => held.None? && drift == 0
    case Test(c, yes, no) =>
      && drift == 0 && CondOk(c, held)
      && Disciplined(yes, held, 0) && Disciplined(no, held, 0)
      && (c.Full? ==> Pend(yes).None? && (Pend(no).None? || Pend(no) == Some(c.id)))
      && (c.Full? ==> PendKey(yes).None? && PendKey(no).None?)
      && (c.Has? ==> PendKey(yes).None? && (PendKey(no).None? || PendKey(no) == Some(c.key)))
      && Compatible(Pend(yes), Pend(no)) && Compatible(PendKey(yes), PendKey(no))
    case Acquire(id, next) => held.None? && drift == 0 && Disciplined(next, Some(id), 0)
    case Release(id, next) => held == Some(id) && drift == 0 && Disciplined(next, None, 0)
    case Append(key, next) =>
      && held == Some(StoreOf(key)) && drift == 0 && Disciplined(next, held, -1)
      && Pend(next).None? && PendKey(next).None?
    case CountInc(id, next) => held == Some(id) && drift == -1 && Disciplined(next, held, 0)
    case Unlink(key, found, missing) =>
      && held == Some(StoreOf(key)) && drift == 0
      && Disciplined(found, held, 1) && Disciplined(missing, held, 0)
      && Compatible(Pend(found), Pend(missing)) && Compatible(PendKey(found), PendKey(missing))
    case CountDec(id, next) => held == Some(id) && drift == 1 && Disciplined(next, held, 0)
    case SetMirror(knob, _, next) =>
      held.None? && drift == 0 && Disciplined(next, None, 0) && next.Sync? && next.synced == knob
    case _ => held.None? && drift == 0 && Disciplined(p.next, None, 0)
  }

  /** The only key this program can take off a list is `target`, and it appends only as the
      first thing it does in a critical section. */
  predicate Orderly(p: Prog, target: Option<Key>) {
    match p
    case Ret(_) => true
    case Test(_, yes, no) => !yes.Append? && !no.Append? && Orderly(yes, target) && Orderly(no, target)
    case Unlink(key, found, missing) =>
      && target == Some(key) && !found.Append? && !missing.Append?
      && Orderly(found, target) && Orderly(missing, target)
    case Acquire(_, next) => Orderly(next, target)
    case _ => !p.next.Append? && Orderly(p.next, target)
  }

  function Target(call: Call): Option<Key> {
    if call.Del? then Some(call.key) else None
  }

  /** The program, holding `held`, is disciplined, has earned no append and unlinks nothing. */
  predicate Plain(p: Prog, held: Option<StoreId>) {
    Disciplined(p, held, 0) && Pend(p).None? && PendKey(p).None? && Orderly(p, None)
  }

  /** How every entry point starts: outside every lock, with no append earned. */
  predicate Fresh(call: Call) {
    var p := Code(call);
    Disciplined(p, None, 0) && Pend(p).None? && PendKey(p).None? && Orderly(p, Target(call))
  }

  lemma RetPlain(code: int)
    ensures Plain(Done(code), None)
  {
  }

  lemma AddTailEarned(key: Key, alloc: bool)
    ensures Earned(AddTail(key, alloc), None, key, Some(key))
  {
    var id := StoreOf(key);
    RetPlain(0);
    RetPlain(-ENOMEM);
    assert Plain(Release(id, Done(0)), Some(id));
    var inc := CountInc(id, Release(id, Done(0)));
    assert Disciplined(inc, Some(id), -1) && Pend(inc).None? && PendKey(inc).None? && Orderly(inc, None);
    var append := Append(key, inc);
    assert Earned(append, Some(id), key, Some(key));
    assert Earned(Acquire(id, append), None, key, Some(key));
  }

  lemma AddPlain(key: Key, alloc: bool)
    ensures Plain(AddProg(key, alloc), None)
  {
    var id := StoreOf(key);
    var tail := AddTail(key, alloc);
    RetPlain(-EEXIST);
    RetPlain(-ENOSPC);
    RetPlain(-EINVAL);
    AddTailEarned(key, alloc);
    assert Earned(Release(id, tail), Some(id), key, Some(key));
    assert Plain(Release(id, Done(-EEXIST)), Some(id));
    var check := AddCheck(key, alloc);
    assert Earned(check, Some(id), key, None);
    assert Plain(Release(id, Done(-ENOSPC)), Some(id));
    assert Plain(Test(Full(id), Release(id, Done(-ENOSPC)), check), Some(id));
  }

  /** Past the capacity check of `key`'s store; `claim` is the key once the duplicate check passed. */
  predicate Earned(p: Prog, held: Option<StoreId>, key: Key, claim: Option<Key>) {
    Disciplined(p, held, 0) && Pend(p) == Some(StoreOf(key)) && PendKey(p) == claim && Orderly(p, None)
  }

  lemma DelFresh(key: Key)
    ensures Fresh(Del(key))
  {
    var id := StoreOf(key);
    RetPlain(0);
    RetPlain(-ENOENT);
    assert Plain(Release(id, Done(0)), Some(id)) && Plain(Release(id, Done(-ENOENT)), Some(id));
    var dec := CountDec(id, Release(id, Done(0)));
    assert Disciplined(dec, Some(id), 1) && Pend(dec).None? && PendKey(dec).None?;
    var body := Unlink(key, dec, Release(id, Done(-ENOENT)));
    assert Disciplined(body, Some(id), 0) && Pend(body).None? && PendKey(body).None?;
    assert Orderly(Release(id, Done(0)), Some(key)) && Orderly(Release(id, Done(-ENOENT)), Some(key));
    assert Orderly(dec, Some(key));
    assert Orderly(body, Some(key));
  }

  // ----- the hooks -----------------------------------------------------------

  /** The program touches lists only to look, under their locks, and counts outside all locks. */
  predicate Looks(p: Prog, held: Option<StoreId>) {
    match p
    case Ret(_) => held.None?
    case Test(c, yes, no) => !c.Full? && CondOk(c, held) && Looks(yes, held) && Looks(no, held)
    case Acquire(id, next) => held.None? && Looks(next, Some(id))
    case Release(id, next) => held == Some(id) && Looks(next, None)
    case Bump(_, next) => held.None? && Looks(next, None)
    case Total(next) => held.None? && Looks(next, None)
    case _ => false
  }

  lemma {:induction false} LooksPlain(p: Prog, held: Option<StoreId>)
    requires Looks(p, held)
    ensures Plain(p, held)
    decreases p
  {
    match p
    case Ret(_) =>
    case Test(_, yes, no) =>
      LooksPlain(yes, held);
      LooksPlain(no, held);
    case Acquire(id, next) => LooksPlain(next, Some(id));
    case Release(_, next) => LooksPlain(next, None);
    case Bump(_, next) => LooksPlain(next, None);
    case Total(next) => LooksPlain(next, None);
  }

  lemma ScanLooks(id: StoreId, c: Cond, yes: Prog, no: Prog)
    requires !c.Full? && CondOk(c, Some(id)) && Looks(yes, None) && Looks(no, None)
    ensures Looks(Acquire(id, Test(c, Release(id, yes), Release(id, no))), None)
  {
    assert Looks(Release(id, yes), Some(id)) && Looks(Release(id, no), Some(id));
    assert Looks(Test(c, Release(id, yes), Release(id, no)), Some(id));
  }

  lemma CheckLooks(f: Feature, yes: Prog, no: Prog)
    requires Looks(yes, None) && Looks(no, None)
    ensures Looks(FeatureCheck(f, yes, no), None)
  {
    assert Looks(Test(FeatureBit(f), yes, no), None);
  }

  lemma BlockedLooks(nr: int, yes: Prog, no: Prog)
    requires Looks(yes, None) && Looks(no, None)
    ensures Looks(IsSyscallBlocked(nr, yes, no), None)
  {
    ScanLooks(Syscalls, Has(Nr(nr)), yes, no);
    var audited := Test(Switch(KAudit), Lookup(Nr(nr), yes, no), no);
    assert Looks(audited, None);
    CheckLooks(SyscallAudit, audited, no);
  }

  lemma RefuseLooks(v: Violation, code: int)
    ensures Looks(Refuse(v, code), None)
  {
    assert Looks(Total(Done(code)), None);
  }

  lemma PtraceLooks(child: Task)
    ensures Looks(PtraceAccessProg(child), None) && Looks(TracemeProg(), None)
  {
    RefuseLooks(VPtrace, -EPERM);
    var refuse := Refuse(VPtrace, -EPERM);
    ScanLooks(Procs, AnyCovers(child), refuse, Done(0));
    var scan := Acquire(Procs, Test(AnyCovers(child), Release(Procs, refuse), Release(Procs, Done(0))));
    CheckLooks(ProcessProtect, scan, Done(0));
    var known := IsProcessProtected(child, refuse, Done(0));
    CheckLooks(ProcessProtect, known, Done(0));
    CheckLooks(PtraceRestrict, Test(Switch(KPtraceAll), refuse, FeatureCheck(ProcessProtect, known, Done(0))), Done(0));
    CheckLooks(PtraceRestrict, Test(Switch(KPtraceAll), refuse, Done(0)), Done(0));
  }

  lemma FileLooks(writes: bool, page: bool, path: Option<string>)
    ensures Looks(FileProg(writes, page, path), None)
  {
    RefuseLooks(VFile, -EACCES);
    var known := OnProtectedFile(writes);
    assert Looks(Total(Done(0)), None);
    assert Looks(LogAccess(), None);
    assert Looks(known, None);
    var inner := if path.None? then Done(0) else IsFileProtected(path.value, known, Done(0));
    if path.Some? {
      ScanLooks(Files, Has(Path(path.value)), known, Done(0));
      CheckLooks(FileIntegrity, Lookup(Path(path.value), known, Done(0)), Done(0));
    }
    var asked := Test(Given(page), inner, Done(0));
    assert Looks(asked, None);
    CheckLooks(FileIntegrity, Test(CountZero, Done(0), asked), Done(0));
  }

  lemma ReadControlLooks(id: ReadId, file: bool, page: bool, path: Option<string>)
    ensures Looks(ReadModuleControl(id, file, page, path), None)
  {
    RefuseLooks(VModule, -EPERM);
    var named := Test(Given(path.Some?), Refuse(VModule, -EPERM), Done(-EPERM));
    assert Looks(named, None);
    assert Looks(Test(Given(page), named, Done(-ENOMEM)), None);
    var refusal := ModuleReadRefusal(file, page, path);
    assert Looks(refusal, None);
    var inner := if id == ReadModule then Test(Switch(KLoadingDenied), refusal, Done(0))
                 else if id == ReadFirmware then Test(Switch(KLoadingDenied), Refuse(VModule, -EPERM), Done(0))
                 else Done(0);
    CheckLooks(ModuleControl, inner, Done(0));
  }

  lemma LoaderLooks(hook: Hook)
    requires hook.ReadFile? || hook.LoadData?
    ensures Looks(HookProg(hook), None)
  {
    RefuseLooks(VModule, -EPERM);
    RefuseLooks(VSyscall, -EPERM);
    var rest;
    if hook.ReadFile? {
      ReadControlLooks(hook.readId, hook.file, hook.page, hook.path);
      rest := ReadModuleControl(hook.readId, hook.file, hook.page, hook.path);
    } else {
      var inner := if hook.loadId == LoadModule then Test(Switch(KLoadingDenied), Refuse(VModule, -EPERM), Done(0)) else Done(0);
      CheckLooks(ModuleControl, inner, Done(0));
      rest := LoadModuleControl(hook.loadId);
    }
    var body := match SyscallOf(hook)
                case Some(nr) => IsSyscallBlocked(nr, Refuse(VSyscall, -EPERM), rest)
                case None => rest;
    if SyscallOf(hook).Some? {
      BlockedLooks(SyscallOf(hook).value, Refuse(VSyscall, -EPERM), rest);
    }
    CheckLooks(SyscallAudit, body, rest);
  }

  lemma HookLooks(hook: Hook)
    ensures Looks(HookProg(hook), None)
  {
    match hook
    case TaskFree => assert Looks(Total(Done(0)), None);
    case BprmCheck =>
      assert Looks(Total(Done(0)), None);
      CheckLooks(SyscallAudit, Test(Switch(KAudit), Total(Done(0)), Done(0)), Done(0));
    case PtraceAccess(child, _) => PtraceLooks(child);
    case PtraceTraceme => PtraceLooks(Task("", 0, ""));
    case FilePermission(access, page, path) => FileLooks(access.write || access.append, page, path);
    case FileOpen(r, w, page, path) => FileLooks(w, page, path);
    case ReadFile(_, _, _, _) => LoaderLooks(hook);
    case LoadData(_) => LoaderLooks(hook);
  }

  /** Every entry point of the module is lock-disciplined. */
  lemma CodeFresh(call: Call)
    ensures Fresh(call)
  {
    match call
    case Add(key, alloc) => AddPlain(key, alloc);
    case Del(key) => DelFresh(key);
    case HookCall(hook) =>
      HookLooks(hook);
      LooksPlain(HookProg(hook), None);
    case Sysctl(knob, written, answer) =>
      RetPlain(0);
      RetPlain(answer);
      assert Plain(Sync(knob, Done(0)), None);
  }

  // ----- locks and counts ----------------------------------------------------

  function HeldBy(s: State, t: nat): Option<StoreId> {
    if s.stores.files.lock == Some(t) then Some(Files)
    else if s.stores.procs.lock == Some(t) then Some(Procs)
    else if s.stores.syscalls.lock == Some(t) then Some(Syscalls)
    else None
  }

  function Drift(s: State, held: Option<StoreId>): int {
    if held.None? then 0 else s.stores.Get(held.value).count - |s.stores.Get(held.value).list|
  }

  ghost predicate ThreadDisciplined(s: State, t: nat)
    requires t < |s.threads|
  {
    if s.threads[t].Idle? then HeldBy(s, t).None?
    else Disciplined(s.threads[t].prog, HeldBy(s, t), Drift(s, HeldBy(s, t)))
  }

  ghost predicate StoreLocked(s: State, id: StoreId) {
    var st := s.stores.Get(id);
    && (st.lock.None? ==> st.count == |st.list|)
    && (st.lock.Some? ==> st.lock.value < |s.threads| && HeldBy(s, st.lock.value) == Some(id))
  }

  ghost predicate LockInv(s: State) {
    && (forall t :: 0 <= t < |s.threads| ==> ThreadDisciplined(s, t))
    && (forall id :: StoreLocked(s, id))
  }

  lemma LockStart(s: State, t: nat, call: Call)
    requires LockInv(s)
    ensures LockInv(Apply(s, Start(t, call)))
  {
    CodeFresh(call);
    var s' := Apply(s, Start(t, call));
    forall u | 0 <= u < |s'.threads|
      ensures ThreadDisciplined(s', u)
    {
      assert ThreadDisciplined(s, u);
    }
    forall id ensures StoreLocked(s', id) {
      assert StoreLocked(s, id);
    }
  }

  /** A step that changes thread `t` and, if anything, the store `t` holds or takes. */
  lemma LockChange(s: State, s': State, t: nat, id: StoreId, st: StoreState)
    requires LockInv(s) && t < |s.threads| == |s'.threads|
    requires forall u :: 0 <= u < |s.threads| && u != t ==> s'.threads[u] == s.threads[u]
    requires s'.stores == s.stores.Put(id, st)
    requires s.stores.Get(id).lock == None || s.stores.Get(id).lock == Some(t)
    requires HeldBy(s, t).None? || HeldBy(s, t) == Some(id)
    requires st.lock == Some(t) || (st.lock == None && st.count == |st.list|)
    requires ThreadDisciplined(s', t)
    ensures LockInv(s')
  {
    assert StoreLocked(s, Files) && StoreLocked(s, Procs) && StoreLocked(s, Syscalls);
    forall other ensures StoreLocked(s', other) {
      assert StoreLocked(s, other);
    }
    forall u | 0 <= u < |s'.threads| ensures ThreadDisciplined(s', u) {
      if u != t {
        assert ThreadDisciplined(s, u);
        assert HeldBy(s', u) == HeldBy(s, u) != Some(id);
      }
    }
  }

  /** A step that touches no store leaves the lock invariant to the moving thread. */
  lemma LockFrame(s: State, s': State, t: nat)
    requires LockInv(s) && t < |s.threads| == |s'.threads|
    requires forall u :: 0 <= u < |s.threads| && u != t ==> s'.threads[u] == s.threads[u]
    requires s'.stores == s.stores
    requires ThreadDisciplined(s', t)
    ensures LockInv(s')
  {
    forall u | 0 <= u < |s'.threads| ensures ThreadDisciplined(s', u) {
      assert u != t ==> ThreadDisciplined(s, u);
    }
    forall id ensures StoreLocked(s', id) {
      assert StoreLocked(s, id);
    }
  }

  lemma LockAcquire(s: State, t: nat)
    requires LockInv(s) && t < |s.threads| && s.threads[t].Running? && s.threads[t].prog.Acquire?
    ensures LockInv(Exec(s, t))
  {
    var id := s.threads[t].prog.lock;
    assert ThreadDisciplined(s, t) && StoreLocked(s, id);
    if s.stores.Get(id).lock.None? {
      LockChange(s, Exec(s, t), t, id, s.stores.Get(id).(lock := Some(t)));
    }
  }

  lemma LockRelease(s: State, t: nat)
    requires LockInv(s) && t < |s.threads| && s.threads[t].Running? && s.threads[t].prog.Release?
    ensures LockInv(Exec(s, t))
  {
    var id := s.threads[t].prog.unlock;
    assert ThreadDisciplined(s, t);
    assert StoreLocked(s, Files) && StoreLocked(s, Procs) && StoreLocked(s, Syscalls);
    LockChange(s, Exec(s, t), t, id, s.stores.Get(id).(lock := None));
  }

  lemma LockUpdate(s: State, t: nat)
    requires LockInv(s) && t < |s.threads| && s.threads[t].Running?
    requires var p := s.threads[t].prog; p.Append? || p.CountInc? || p.CountDec?
    ensures LockInv(Exec(s, t))
  {
    assert ThreadDisciplined(s, t);
    var id := HeldBy(s, t).value;
    LockChange(s, Exec(s, t), t, id, Exec(s, t).stores.Get(id));
  }

  lemma LockUnlink(s: State, t: nat)
    requires LockInv(s) && t < |s.threads| && s.threads[t].Running? && s.threads[t].prog.Unlink?
    ensures LockInv(Exec(s, t))
  {
    assert ThreadDisciplined(s, t);
    var id := HeldBy(s, t).value;
    if s.threads[t].prog.gone in s.stores.Get(id).list {
      LockChange(s, Exec(s, t), t, id, Exec(s, t).stores.Get(id));
    } else {
      LockFrame(s, Exec(s, t), t);
    }
  }

  lemma LockExec(s: State, t: nat)
    requires LockInv(s) && t < |s.threads| && s.threads[t].Running?
    ensures LockInv(Exec(s, t))
  {
    match s.threads[t].prog
    case Acquire(_, _) => LockAcquire(s, t);
    case Release(_, _) => LockRelease(s, t);
    case Append(_, _) => LockUpdate(s, t);
    case CountInc(_, _) => LockUpdate(s, t);
    case CountDec(_, _) => LockUpdate(s, t);
    case Unlink(_, _, _) => LockUnlink(s, t);
    case _ =>
      assert ThreadDisciplined(s, t);
      LockFrame(s, Exec(s, t), t);
  }

  lemma LockStep(s: State, step: Step)
    requires LockInv(s)
    ensures LockInv(Apply(s, step))
  {
    match step
    case Start(t, call) => LockStart(s, t, call);
    case Go(t) => if t < |s.threads| && s.threads[t].Running? { LockExec(s, t); }
  }

  lemma {:induction false} LockRun(s: State, steps: seq<Step>)
    requires LockInv(s)
    ensures LockInv(Run(s, steps))
    decreases |steps|
  {
    if steps != [] {
      LockRun(s, steps[..|steps| - 1]);
      LockStep(Run(s, steps[..|steps| - 1]), steps[|steps| - 1]);
    }
  }

  lemma InitLocked(s: State)
    requires Init(s)
    ensures LockInv(s)
  {
    assert StartStore(s.stores.Get(Files), Files);
    assert StartStore(s.stores.Get(Procs), Procs);
    assert StartStore(s.stores.Get(Syscalls), Syscalls);
  }

  /** What a thread inside a critical section still owes to the count. */
  function Owed(p: Prog): int {
    if p.CountInc? then -1 else if p.CountDec? then 1 else 0
  }

  /** In every interleaving a store's count is its length whenever its lock is free; while a
      thread holds the lock the count is one behind between append and increment, one ahead
      between unlink and decrement, and exact otherwise. */
  lemma CountFollowsList(s: State, steps: seq<Step>, id: StoreId)
    requires Init(s)
    ensures var st := Run(s, steps).stores.Get(id);
            && (st.lock.None? ==> st.count == |st.list|)
            && (st.lock.Some? ==>
                  && st.lock.value < |s.threads|
                  && Run(s, steps).threads[st.lock.value].Running?
                  && st.count == |st.list| + Owed(Run(s, steps).threads[st.lock.value].prog))
  {
    InitLocked(s);
    LockRun(s, steps);
    var s' := Run(s, steps);
    assert StoreLocked(s', id);
    var st := s'.stores.Get(id);
    if st.lock.Some? {
      assert ThreadDisciplined(s', st.lock.value);
    }
  }

  /** The instructions that read or write a store's list. */
  predicate Touches(p: Prog, id: StoreId) {
    match p
    case Append(key, _) => StoreOf(key) == id
    case Unlink(key, _, _) => StoreOf(key) == id
    case CountInc(i, _) => i == id
    case CountDec(i, _) => i == id
    case Test(c, _, _) => CondOk(c, Some(id)) && !CondOk(c, None)
    case _ => false
  }

  /** No two threads are ever about to touch the same list. */
  lemma MutualExclusion(s: State, steps: seq<Step>, id: StoreId, t: nat, u: nat)
    requires Init(s) && t < |s.threads| && u < |s.threads|
    requires var s' := Run(s, steps);
             && s'.threads[t].Running? && Touches(s'.threads[t].prog, id)
             && s'.threads[u].Running? && Touches(s'.threads[u].prog, id)
    ensures t == u
  {
    InitLocked(s);
    LockRun(s, steps);
    var s' := Run(s, steps);
    assert ThreadDisciplined(s', t) && ThreadDisciplined(s', u);
  }

  // ----- the gap between check and append ------------------------------------

  ghost function PendingIn(id: StoreId): Thread -> int {
    (th: Thread) => if th.Running? && Pend(th.prog) == Some(id) then 1 else 0
  }

  ghost function PendingOf(key: Key): Thread -> int {
    (th: Thread) => if th.Running? && PendKey(th.prog) == Some(key) then 1 else 0
  }

  function Copies(list: seq<Key>, key: Key): nat {
    multiset(list)[key]
  }

  /** A claim on a key is made only past the capacity check of its store. */
  lemma {:induction false} ClaimIsPast(p: Prog, held: Option<StoreId>, drift: int)
    requires Disciplined(p, held, drift) && PendKey(p).Some?
    ensures Pend(p) == Some(StoreOf(PendKey(p).value))
    decreases p
  {
    match p
    case Ret(_) =>
    case Test(_, yes, no) =>
      if PendKey(yes).Some? { ClaimIsPast(yes, held, 0); }
      if PendKey(no).Some? { ClaimIsPast(no, held, 0); }
    case Unlink(_, found, missing) =>
      if PendKey(found).Some? { ClaimIsPast(found, held, 1); }
      if PendKey(missing).Some? { ClaimIsPast(missing, held, 0); }
    case Acquire(id, next) => ClaimIsPast(next, Some(id), 0);
    case Release(_, next) => ClaimIsPast(next, None, 0);
    case Append(_, _) =>
    case CountInc(_, next) => ClaimIsPast(next, held, 0);
    case CountDec(_, next) => ClaimIsPast(next, held, 0);
    case _ => ClaimIsPast(p.next, None, 0);
  }

  lemma {:induction false} ClaimsArePast(threads: seq<Thread>, key: Key)
    requires forall th :: th in threads && th.Running? && PendKey(th.prog) == Some(key) ==> Pend(th.prog) == Some(StoreOf(key))
    ensures 0 <= Sum(threads, PendingOf(key)) <= Sum(threads, PendingIn(StoreOf(key)))
    decreases |threads|
  {
    if threads != [] {
      ClaimsArePast(threads[1..], key);
      assert threads[0] in threads;
    }
  }

  lemma FewerClaims(s: State, key: Key)
    requires LockInv(s)
    ensures 0 <= Sum(s.threads, PendingOf(key)) <= Sum(s.threads, PendingIn(StoreOf(key)))
  {
    forall th | th in s.threads && th.Running? && PendKey(th.prog) == Some(key)
      ensures Pend(th.prog) == Some(StoreOf(key))
    {
      var t :| 0 <= t < |s.threads| && s.threads[t] == th;
      assert ThreadDisciplined(s, t);
      ClaimIsPast(th.prog, HeldBy(s, t), Drift(s, HeldBy(s, t)));
    }
    ClaimsArePast(s.threads, key);
  }

  /** At no moment are more than `k` adds to the store past their capacity check. */
  ghost predicate AtMostPast(s: State, steps: seq<Step>, id: StoreId, k: nat) {
    forall i :: 0 <= i <= |steps| ==> Sum(Run(s, steps[..i]).threads, PendingIn(id)) <= k
  }

  ghost predicate LengthBound(s: State, id: StoreId, k: nat) {
    |s.stores.Get(id).list| + Sum(s.threads, PendingIn(id)) <= Capacity(id) + k - 1
  }

  ghost predicate CopiesBound(s: State, key: Key, k: nat) {
    Copies(s.stores.Get(StoreOf(key)).list, key) + Sum(s.threads, PendingOf(key)) <= k
  }

  /** Every list holds only entries of its own kind. */
  ghost predicate AtHome(s: State, id: StoreId) {
    forall key :: key in s.stores.Get(id).list ==> StoreOf(key) == id
  }

  lemma AtHomeExec(s: State, t: nat, id: StoreId)
    requires t < |s.threads| && s.threads[t].Running? && AtHome(s, id)
    ensures AtHome(Exec(s, t), id)
  {
    var p := s.threads[t].prog;
    if p.Unlink? && p.gone in s.stores.Get(StoreOf(p.gone)).list {
      RemoveFirstCounts(s.stores.Get(StoreOf(p.gone)).list, p.gone);
    }
  }

  lemma LengthStart(s: State, t: nat, call: Call, id: StoreId, k: nat)
    requires LengthBound(s, id, k)
    ensures LengthBound(Apply(s, Start(t, call)), id, k)
  {
    if t < |s.threads| && s.threads[t].Idle? {
      CodeFresh(call);
      SumUpdate(s.threads, t, Running(call, Code(call), ZERO), PendingIn(id));
    }
  }

  lemma LengthExec(s: State, t: nat, id: StoreId, k: nat)
    requires LockInv(s) && t < |s.threads| && s.threads[t].Running?
    requires LengthBound(s, id, k) && Sum(Exec(s, t).threads, PendingIn(id)) <= k
    ensures LengthBound(Exec(s, t), id, k)
  {
    var s' := Exec(s, t);
    var p := s.threads[t].prog;
    assert ThreadDisciplined(s, t);
    assert s'.threads == s.threads[t := s'.threads[t]];
    SumUpdate(s.threads, t, s'.threads[t], PendingIn(id));
    if p.Test? && p.cond == Full(id) && !Holds(s, p.cond) {
      assert |s.stores.Get(id).list| < Capacity(id);
    }
  }

  lemma CopiesStart(s: State, t: nat, call: Call, key: Key, k: nat)
    requires CopiesBound(s, key, k)
    ensures CopiesBound(Apply(s, Start(t, call)), key, k)
  {
    if t < |s.threads| && s.threads[t].Idle? {
      CodeFresh(call);
      SumUpdate(s.threads, t, Running(call, Code(call), ZERO), PendingOf(key));
    }
  }

  /** How a step changes a list: only `Append` and `Unlink` do. */
  lemma ListAfter(s: State, t: nat, id: StoreId)
    requires t < |s.threads| && s.threads[t].Running?
    ensures var p, list := s.threads[t].prog, s.stores.Get(id).list;
            Exec(s, t).stores.Get(id).list ==
              if p.Append? && StoreOf(p.key) == id then list + [p.key]
              else if p.Unlink? && StoreOf(p.gone) == id && p.gone in list then RemoveFirst(list, p.gone)
              else list
  {
  }

  lemma ListChange(s: State, t: nat, id: StoreId)
    requires t < |s.threads| && s.threads[t].Running?
    ensures var p := s.threads[t].prog;
            var before, after := multiset(s.stores.Get(id).list), multiset(Exec(s, t).stores.Get(id).list);
            if p.Append? && StoreOf(p.key) == id then after == before + multiset{p.key} else after <= before
  {
    var p, list := s.threads[t].prog, s.stores.Get(id).list;
    ListAfter(s, t, id);
    if p.Unlink? && StoreOf(p.gone) == id && p.gone in list {
      RemoveFirstCounts(list, p.gone);
    }
  }

  /** How a step moves a thread's claim on a key: only a failed duplicate check creates one. */
  lemma ClaimChange(s: State, t: nat, key: Key)
    requires LockInv(s) && t < |s.threads| && s.threads[t].Running?
    ensures var p := s.threads[t].prog;
            var before, after := PendingOf(key)(s.threads[t]), PendingOf(key)(Exec(s, t).threads[t]);
            && (p.Append? ==> after == 0 && (p.key == key ==> before == 1))
            && (after > before ==> p.Test? && p.cond == Has(key) && key !in s.stores.Get(StoreOf(key)).list)
  {
    assert ThreadDisciplined(s, t);
  }

  lemma CopiesExec(s: State, t: nat, key: Key, k: nat)
    requires LockInv(s) && t < |s.threads| && s.threads[t].Running?
    requires CopiesBound(s, key, k) && Sum(Exec(s, t).threads, PendingOf(key)) <= k
    ensures CopiesBound(Exec(s, t), key, k)
  {
    var s' := Exec(s, t);
    ListChange(s, t, StoreOf(key));
    ClaimChange(s, t, key);
    assert s'.threads == s.threads[t := s'.threads[t]];
    SumUpdate(s.threads, t, s'.threads[t], PendingOf(key));
  }

  lemma {:induction false} DistinctCopies(list: seq<Key>, key: Key)
    requires Distinct(list)
    ensures Copies(list, key) <= 1
  {
    if list != [] {
      assert list == [list[0]] + list[1..];
      DistinctCopies(list[1..], key);
      if key in list[1..] {
        assert list[0] != key;
      }
    }
  }

  lemma PastPrefix(s: State, steps: seq<Step>, id: StoreId, k: nat)
    requires steps != [] && AtMostPast(s, steps, id, k)
    ensures AtMostPast(s, steps[..|steps| - 1], id, k)
    ensures Sum(Run(s, steps).threads, PendingIn(id)) <= k
  {
    var shorter := steps[..|steps| - 1];
    assert forall i :: 0 <= i <= |shorter| ==> shorter[..i] == steps[..i];
    assert steps[..|steps|] == steps;
  }

  lemma {:induction false} GapRun(s: State, steps: seq<Step>, key: Key, k: nat)
    requires Init(s) && k > 0 && AtMostPast(s, steps, StoreOf(key), k)
    ensures AtHome(Run(s, steps), StoreOf(key))
    ensures LengthBound(Run(s, steps), StoreOf(key), k) && CopiesBound(Run(s, steps), key, k)
    decreases |steps|
  {
    var id := StoreOf(key);
    if steps == [] {
      SumZero(s.threads, PendingIn(id));
      SumZero(s.threads, PendingOf(key));
      assert StartStore(s.stores.Get(id), id);
      DistinctCopies(s.stores.Get(id).list, key);
    } else {
      var before := Run(s, steps[..|steps| - 1]);
      var step := steps[|steps| - 1];
      PastPrefix(s, steps, id, k);
      GapRun(s, steps[..|steps| - 1], key, k);
      InitLocked(s);
      LockRun(s, steps[..|steps| - 1]);
      LockStep(before, step);
      FewerClaims(Run(s, steps), key);
      match step
      case Start(t, call) =>
        LengthStart(before, t, call, id, k);
        CopiesStart(before, t, call, key, k);
      case Go(t) =>
        if t < |before.threads| && before.threads[t].Running? {
          LengthExec(before, t, id, k);
          CopiesExec(before, t, key, k);
          AtHomeExec(before, t, id);
        }
    }
  }

  /** If at no moment of a run more than `k` adds to a store are past their capacity check, its
      length plus the appends still pending never exceeds MAX + k - 1, and the copies of one key
      plus its pending adds never exceed `k`, however many threads make other calls. */
  lemma OvershootByAdds(s: State, steps: seq<Step>, key: Key, k: nat)
    requires Init(s) && k > 0 && AtMostPast(s, steps, StoreOf(key), k)
    ensures var s', id := Run(s, steps), StoreOf(key);
            && |s'.stores.Get(id).list| + Sum(s'.threads, PendingIn(id)) <= Capacity(id) + k - 1
            && Copies(s'.stores.Get(id).list, key) + Sum(s'.threads, PendingOf(key)) <= k
  {
    GapRun(s, steps, key, k);
  }

  lemma ThreadsBoundPast(s: State, steps: seq<Step>, id: StoreId)
    ensures AtMostPast(s, steps, id, |s.threads|)
  {
    forall i | 0 <= i <= |steps| ensures Sum(Run(s, steps[..i]).threads, PendingIn(id)) <= |s.threads| {
      SumAtMost(Run(s, steps[..i]).threads, PendingIn(id));
    }
  }

  /** So N threads can overfill a store by at most N - 1 entries and store a key at most N times. */
  lemma BoundedOvershoot(s: State, steps: seq<Step>, key: Key)
    requires Init(s) && |s.threads| > 0
    ensures var s', id := Run(s, steps), StoreOf(key);
            && |s'.stores.Get(id).list| + Sum(s'.threads, PendingIn(id)) <= Capacity(id) + |s.threads| - 1
            && Copies(s'.stores.Get(id).list, key) + Sum(s'.threads, PendingOf(key)) <= |s.threads|
  {
    ThreadsBoundPast(s, steps, StoreOf(key));
    OvershootByAdds(s, steps, key, |s.threads|);
  }

  lemma RepeatedCopies(list: seq<Key>, i: nat, j: nat)
    requires i < j < |list| && list[i] == list[j]
    ensures Copies(list, list[j]) >= 2
  {
    assert list == list[..j] + list[j..];
    assert list[..j][i] == list[j] && list[j..][0] == list[j];
    assert multiset(list[..j])[list[j]] >= 1 && multiset(list[j..])[list[j]] >= 1;
  }

  /** A key of a given store. */
  function SomeKey(id: StoreId): (key: Key)
    ensures StoreOf(key) == id
  {
    match id
    case Files => Path("")
    case Procs => Proc("", 0)
    case Syscalls => Nr(0)
  }

  /** While adds to a store come one at a time, whatever else all threads do, the store never
      exceeds its limit and never holds a key twice. */
  lemma OneAddAtATime(s: State, steps: seq<Step>, id: StoreId)
    requires Init(s) && AtMostPast(s, steps, id, 1)
    ensures |Run(s, steps).stores.Get(id).list| <= Capacity(id)
    ensures Distinct(Run(s, steps).stores.Get(id).list)
  {
    var s' := Run(s, steps);
    GapRun(s, steps, SomeKey(id), 1);
    SumAtMost(s'.threads, PendingIn(id));
    var list := s'.stores.Get(id).list;
    forall i, j | 0 <= i < j < |list| ensures list[i] != list[j] {
      if list[i] == list[j] {
        RepeatedCopies(list, i, j);
        assert list[j] in list;
        OvershootByAdds(s, steps, list[j], 1);
        SumAtMost(s'.threads, PendingOf(list[j]));
      }
    }
  }
}
