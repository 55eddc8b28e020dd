/** What the policy means to whoever sets it: how entries protect tasks and paths, that writing
    a listing back undoes it, and that unrelated system call numbers do not matter. */
module PolicyLaws {
  import opened Kernel
  import opened CString
  import opened ControlText
  import opened Decimal
  import opened Policy
  import opened PolicyStore
  import opened Aegis

  // ----- protected processes -------------------------------------------------

  lemma CoveredBy(procs: seq<Key>, task: Task)
    ensures TaskCovered(procs, task) <==> exists k :: k in procs && Covers(k, task)
  {
  }

  /** The order of the entries does not matter. */
  lemma CoverageIgnoresOrder(a: seq<Key>, b: seq<Key>, task: Task)
    requires multiset(a) == multiset(b)
    ensures TaskCovered(a, task) <==> TaskCovered(b, task)
  {
    CoveredBy(a, task);
    CoveredBy(b, task);
    assert forall k :: k in a <==> k in multiset(a);
    assert forall k :: k in b <==> k in multiset(b);
  }

  /** An addition protects exactly the tasks the new entry covers, besides those protected. */
  lemma AddProtects(procs: seq<Key>, key: Key, alloc: bool, task: Task)
    ensures var o := SetAdd(procs, MAX_PROCS, key, alloc);
            TaskCovered(o.list, task) <==> TaskCovered(procs, task) || (o.code == 0 && Covers(key, task))
  {
    CoveredBy(procs, task);
    CoveredBy(procs + [key], task);
    assert forall k :: k in procs + [key] <==> k in procs || k == key;
  }

  /** A deletion leaves protected exactly the tasks that some remaining entry covers: another
      entry, or another copy of the deleted one. */
  lemma DelUnprotects(procs: seq<Key>, key: Key, task: Task)
    ensures TaskCovered(ListDel(procs, key).list, task) <==>
              exists k :: k in procs && Covers(k, task) && (k != key || multiset(procs)[key] >= 2)
  {
    var after := ListDel(procs, key).list;
    CoveredBy(after, task);
    if key in procs {
      RemoveFirstCounts(procs, key);
    }
    forall k ensures k in after <==> k in procs && (k != key || multiset(procs)[key] >= 2) {
      assert k in after <==> k in multiset(after);
      assert k in procs <==> k in multiset(procs);
    }
  }

  // ----- protected files: text to store to hook ------------------------------

  ghost predicate Enforcing(cfg: Config) {
    Live(cfg, FileIntegrity) && cfg.integrityEnforce
  }

  /** A path accepted by the endpoint and stored is refused to writers, and so is nothing that
      was not refused before; writing the same text to the delete endpoint undoes it. */
  lemma EndpointProtectsExactly(cfg: Config, files: seq<Key>, ubuf: string, path: Text, alloc: bool, query: string)
    requires PathInput(true, ubuf, true, true) == Accepted(path)
    requires PathAdd(files, path, alloc).code == 0
    ensures var o := PathAdd(files, path, alloc);
            && (FileDecision(cfg, o.list, true, true, Some(query)).code == -EACCES
                <==> Enforcing(cfg) && (query == path || Path(query) in files))
            && ListDel(o.list, Path(path)) == Outcome(0, files)
  {
    assert |path| < PATH_LEN;
    assert Clip(path, PATH_LEN) == path;
    assert PathAdd(files, path, alloc) == SetAdd(files, MAX_FILES, Path(path), alloc);
    AddThenDel(files, MAX_FILES, Path(path), alloc);
  }

  // ----- protected processes: text to store to hook --------------------------

  /** The entry names the process: by its pid, or without a pid by its own or its leader's name. */
  predicate Names(comm: string, pid: int, task: Task) {
    (pid != 0 && pid == task.pid) || (pid == 0 && (comm == task.comm || comm == task.leaderComm))
  }

  lemma CoveredIsNamed(procs: seq<Key>, task: Task)
    ensures TaskCovered(procs, task) <==> exists comm, pid :: Names(comm, pid, task) && Proc(comm, pid) in procs
  {
    if i :| 0 <= i < |procs| && Covers(procs[i], task) {
      assert Names(procs[i].comm, procs[i].pid, task) && procs[i] == Proc(procs[i].comm, procs[i].pid);
    }
    if comm, pid :| Names(comm, pid, task) && Proc(comm, pid) in procs {
      var i :| 0 <= i < |procs| && procs[i] == Proc(comm, pid);
      assert Covers(procs[i], task);
    }
  }

  /** A name and pid accepted by the endpoint and stored: with both features live, an attempt to
      trace a task is refused exactly if restrict-all is set, the new entry names the process or an
      earlier one does; deleting the entry gives the earlier list back. */
  lemma ProcessEndpointProtectsExactly(cfg: Config, lists: Lists, ubuf: string, arg: CommPid, alloc: bool, task: Task, noAudit: bool)
    requires ProcInput(true, ubuf, true) == Accepted(arg)
    requires CommAdd(lists.procs, arg.comm, arg.pid, alloc).code == 0
    ensures var o := CommAdd(lists.procs, arg.comm, arg.pid, alloc);
            var d := Decide(cfg, lists.(procs := o.list), PtraceAccess(task, noAudit));
            && (d.code == -EPERM <==>
                  && cfg.enabled && HasFeature(cfg.features, PtraceRestrict)
                  && (|| cfg.ptraceRestrictAll
                      || (HasFeature(cfg.features, ProcessProtect)
                          && (|| Names(arg.comm, arg.pid, task)
                              || exists comm, pid :: Names(comm, pid, task) && Proc(comm, pid) in lists.procs))))
            && (d.code == 0 || d.code == -EPERM)
            && ListDel(o.list, Proc(arg.comm, arg.pid)) == Outcome(0, lists.procs)
  {
    ProcInputFits(true, ubuf, true);
    var key := Proc(arg.comm, arg.pid);
    assert Clip(arg.comm, COMM_LEN) == arg.comm;
    assert CommAdd(lists.procs, arg.comm, arg.pid, alloc) == SetAdd(lists.procs, MAX_PROCS, key, alloc);
    AddProtects(lists.procs, key, alloc, task);
    CoveredIsNamed(lists.procs, task);
    AddThenDel(lists.procs, MAX_PROCS, key, alloc);
  }

  // ----- writing the process listing back ------------------------------------

  function Rows(procs: seq<Key>): seq<string>
    requires forall i :: 0 <= i < |procs| ==> procs[i].Proc?
  {
    if procs == [] then [] else [ProcRow(procs[0].comm, procs[0].pid)] + Rows(procs[1..])
  }

  /** One row written to the delete endpoint by an authorised caller. */
  function WriteBack(procs: seq<Key>, row: string): Outcome<Key> {
    match ProcInput(true, row, true)
    case Rejected(code) => Outcome(code, procs)
    case Accepted(arg) =>
      var o := ListDel(procs, Proc(arg.comm, arg.pid));
      Outcome(Answer(o.code, |row|), o.list)
  }

  function WriteAllBack(procs: seq<Key>, rows: seq<string>): seq<Key>
    decreases |rows|
  {
    if rows == [] then procs else WriteAllBack(WriteBack(procs, rows[0]).list, rows[1..])
  }

  lemma RowShape(comm: Text, pid: int) returns (body: Text)
    requires |comm| < COMM_LEN && IsInt32(pid)
    ensures ProcRow(comm, pid) == body + "\n" && body != "" && |body| < 60
    ensures Trim(ProcRow(comm, pid)) == body
  {
    var num := PrintInt(pid);
    DigitCount(if pid < 0 then -pid else pid, 10);
    assert Pow10(10) == 10_000_000_000;
    assert NUL !in Gap(comm, num);
    body := comm + Gap(comm, num) + num;
  }

  lemma RowAccepted(comm: Text, pid: int)
    requires |comm| < COMM_LEN && IsInt32(pid)
    ensures var row := ProcRow(comm, pid);
            var scanned := ScanCommPid(Trim(row));
            && ProcInput(true, row, true).Accepted? && scanned.Some?
            && ProcInput(true, row, true).arg.comm == scanned.value.0
            && ProcInput(true, row, true).arg.pid == scanned.value.1
  {
    var row := ProcRow(comm, pid);
    var body := RowShape(comm, pid);
    assert row[..|row|] == row;
    ScanNulFree(body);
  }

  /** The row of an entry deletes that entry, and reports success, exactly when its name is not
      empty; no row ever deletes an entry with an empty name. */
  lemma RowDeletes(procs: seq<Key>, comm: Text, pid: int)
    requires SpaceFree(comm) && |comm| < COMM_LEN && IsInt32(pid)
    ensures var row := ProcRow(comm, pid);
            var o := ListDel(procs, Proc(comm, pid));
            && (comm != "" ==> WriteBack(procs, row) == Outcome(Answer(o.code, |row|), o.list))
            && forall p :: Proc("", p) in procs ==> Proc("", p) in WriteBack(procs, row).list
  {
    var row := ProcRow(comm, pid);
    RowAccepted(comm, pid);
    ProcRowReadsBack(comm, pid);
    var arg := ProcInput(true, row, true).arg;
    var key := Proc(arg.comm, arg.pid);
    forall p | Proc("", p) in procs ensures Proc("", p) in WriteBack(procs, row).list {
      if key in procs {
        RemoveFirstCounts(procs, key);
        assert Proc("", p) in multiset(procs);
        assert Proc("", p) in multiset(RemoveFirst(procs, key));
      }
    }
  }

  ghost predicate CTexts(procs: seq<Key>) {
    CleanProcs(procs) && forall i :: 0 <= i < |procs| ==> NUL !in procs[i].comm
  }

  /** The entries without a name, in order. */
  function Unnamed(procs: seq<Key>): (r: seq<Key>)
    requires forall i :: 0 <= i < |procs| ==> procs[i].Proc?
    ensures forall i :: 0 <= i < |r| ==> r[i].Proc? && r[i].comm == ""
  {
    if procs == [] then []
    else (if procs[0].comm == "" then [procs[0]] else []) + Unnamed(procs[1..])
  }

  lemma {:induction false} AllUnnamed(list: seq<Key>)
    requires forall i :: 0 <= i < |list| ==> list[i].Proc? && list[i].comm == ""
    ensures Unnamed(list) == list
  {
    if list != [] {
      AllUnnamed(list[1..]);
      assert list == [list[0]] + list[1..];
    }
  }

  /** Taking out a named entry leaves the others, and the entries without a name, as they were. */
  lemma {:induction false} RemoveNamed(list: seq<Key>, key: Key)
    requires (forall i :: 0 <= i < |list| ==> list[i].Proc?) && key in list && key.comm != ""
    ensures forall i :: 0 <= i < |RemoveFirst(list, key)| ==> RemoveFirst(list, key)[i].Proc?
    ensures Unnamed(RemoveFirst(list, key)) == Unnamed(list)
  {
    if list[0] != key {
      RemoveNamed(list[1..], key);
      var r := RemoveFirst(list, key);
      assert r[1..] == RemoveFirst(list[1..], key);
    }
  }

  /** What the row of an entry does to a list: it takes out that entry if it has a name, and no
      row takes out an entry without one. */
  lemma RowTakes(list: seq<Key>, procs: seq<Key>) returns (key: Key)
    requires CTexts(procs) && procs != [] && forall i :: 0 <= i < |list| ==> list[i].Proc?
    ensures key.Proc? && key.comm != "" && (procs[0].comm != "" ==> key == procs[0])
    ensures WriteBack(list, Rows(procs)[0]).list == ListDel(list, key).list
    ensures forall i :: 0 <= i < |ListDel(list, key).list| ==> ListDel(list, key).list[i].Proc?
    ensures Unnamed(ListDel(list, key).list) == Unnamed(list)
  {
    var comm, pid := procs[0].comm, procs[0].pid;
    RowAccepted(comm, pid);
    ProcRowReadsBack(comm, pid);
    var arg := ProcInput(true, ProcRow(comm, pid), true).arg;
    key := Proc(arg.comm, arg.pid);
    if key in list {
      RemoveNamed(list, key);
    }
  }

  /** Each named entry of the list has a row still to come. */
  ghost predicate RowsToCome(list: seq<Key>, procs: seq<Key>) {
    forall k: Key :: k.Proc? && k.comm != "" ==> multiset(list)[k] <= multiset(procs)[k]
  }

  lemma RowsStillToCome(list: seq<Key>, procs: seq<Key>, key: Key)
    requires procs != [] && procs[0].Proc? && (procs[0].comm != "" ==> key == procs[0]) && RowsToCome(list, procs)
    ensures RowsToCome(ListDel(list, key).list, procs[1..])
  {
    assert procs == [procs[0]] + procs[1..];
    assert multiset(procs) == multiset{procs[0]} + multiset(procs[1..]);
    if key in list {
      RemoveFirstCounts(list, key);
    } else {
      assert key !in multiset(list);
    }
  }

  lemma {:induction false} RowsLeave(list: seq<Key>, procs: seq<Key>)
    requires CTexts(procs) && RowsToCome(list, procs) && forall i :: 0 <= i < |list| ==> list[i].Proc?
    ensures WriteAllBack(list, Rows(procs)) == Unnamed(list)
    decreases |procs|
  {
    if procs == [] {
      forall i | 0 <= i < |list| ensures list[i].comm == "" {
        assert list[i] in multiset(list);
      }
      AllUnnamed(list);
    } else {
      var key := RowTakes(list, procs);
      RowsStillToCome(list, procs, key);
      RowsLeave(ListDel(list, key).list, procs[1..]);
      assert Rows(procs)[1..] == Rows(procs[1..]);
    }
  }

  /** Writing the whole process listing back to the delete endpoint leaves exactly the entries
      without a name, in order. */
  lemma ListingLeaves(procs: seq<Key>)
    requires CTexts(procs)
    ensures WriteAllBack(procs, Rows(procs)) == Unnamed(procs)
  {
    RowsLeave(procs, procs);
  }

  lemma {:induction false} NoneUnnamed(procs: seq<Key>)
    requires forall i :: 0 <= i < |procs| ==> procs[i].Proc?
    ensures Unnamed(procs) == [] <==> forall i :: 0 <= i < |procs| ==> procs[i].comm != ""
  {
    if procs != [] {
      NoneUnnamed(procs[1..]);
      assert forall i :: 0 < i < |procs| ==> procs[i] == procs[1..][i - 1];
    }
  }

  /** So it empties the store exactly when no listed name is empty. */
  lemma ListingDrains(procs: seq<Key>)
    requires CTexts(procs)
    ensures WriteAllBack(procs, Rows(procs)) == [] <==> forall i :: 0 <= i < |procs| ==> procs[i].comm != ""
  {
    ListingLeaves(procs);
    NoneUnnamed(procs);
  }

  /** Blanks written to the add endpoint by an authorised caller are accepted as an empty name;
      from then on writing the listing back does not drain the store. */
  lemma BlankNameStays(procs: seq<Key>)
    requires CTexts(procs) && |procs| < MAX_PROCS && Proc("", 0) !in procs
    ensures ProcInput(true, " ", true) == Accepted(CommPid("", 0))
    ensures var o := SetAdd(procs, MAX_PROCS, Proc("", 0), true);
            o.code == 0 && CTexts(o.list) && WriteAllBack(o.list, Rows(o.list)) != []
  {
    BlankScans();
    var list := procs + [Proc("", 0)];
    ListingDrains(list);
    assert list[|procs|].comm == "";
  }

  lemma BlankScans()
    ensures ProcInput(true, " ", true) == Accepted(CommPid("", 0))
  {
    assert " "[..1] == " " && Trim(" ") == " ";
    assert SkipSpaces(" ") == SkipSpaces("") == "";
    assert Word("", COMM_LEN - 1) == "";
  }

  // ----- writing a file row back ---------------------------------------------

  /** One file row written to the delete endpoint by an authorised caller. */
  function WriteBackPath(files: seq<Key>, row: string): Outcome<Key> {
    match PathInput(true, row, true, true)
    case Rejected(code) => Outcome(code, files)
    case Accepted(path) =>
      var o := ListDel(files, Path(path));
      Outcome(Answer(o.code, |row|), o.list)
  }

  /** The endpoint takes the row, if it takes it at all, for the name of another file. */
  lemma FileRowInput(path: Text, hash: FileHash.Digest, valid: bool)
    ensures var row := FileRow(path, FileHash.HashColumn(hash, valid));
            match PathInput(true, row, true, true)
            case Rejected(code) => code < 0
            case Accepted(named) => named == Trim(row) != path
  {
    var column := FileHash.HashColumn(hash, valid);
    var row := FileRow(path, column);
    FileHash.HexDecodes(hash);
    FileRowNamesAnother(path, column);
    if PathInput(true, row, true, true).Accepted? {
      PathInputNames(row, PathInput(true, row, true, true).arg);
    } else {
      RowTakenWhole(path, column);
    }
  }

  lemma RowTakenWhole(path: Text, column: Text)
    requires column != "" && !IsLineEnd(column[|column| - 1])
    ensures var row := FileRow(path, column); |row| > 0 && (|row| <= PATH_LEN ==> TextInput(row, true, PATH_LEN).Accepted?)
  {
    var row := FileRow(path, column);
    var body := row[..|row| - 1];
    assert NUL !in row;
    assert body[|body| - 1] == column[|column| - 1];
    TrimUnique(row, body);
    TrimUnique(body, body);
    if |row| < PATH_LEN {
      assert row[..|row|] == row;
    }
  }

  /** The row of a listed file never deletes that file.  It deletes nothing at all, unless some
      other entry happens to be named by the whole row. */
  lemma FileRowKeeps(files: seq<Key>, path: Text, hash: FileHash.Digest, valid: bool)
    ensures var row := FileRow(path, FileHash.HashColumn(hash, valid));
            var o := WriteBackPath(files, row);
            && multiset(o.list)[Path(path)] == multiset(files)[Path(path)]
            && (Path(Trim(row)) !in files ==> o.code < 0 && o.list == files)
  {
    var row := FileRow(path, FileHash.HashColumn(hash, valid));
    FileRowInput(path, hash, valid);
    if Path(Trim(row)) in files {
      RemoveFirstCounts(files, Path(Trim(row)));
    }
  }

  // ----- the loader policy ---------------------------------------------------

  /** The settings the system call list depends on. */
  predicate SameAudit(a: Config, b: Config) {
    && a.enabled == b.enabled && a.auditEnable == b.auditEnable
    && (HasFeature(a.features, SyscallAudit) <==> HasFeature(b.features, SyscallAudit))
  }

  /** The loader hooks refuse exactly what the declarative policy refuses; what the system call
      list refuses it refuses under any setting of everything else, module control included. */
  lemma LoaderPolicy(cfg: Config, lists: Lists, hook: Hook)
    requires hook.ReadFile? || hook.LoadData?
    ensures Decide(cfg, lists, hook).code != 0 <==> LoaderRefused(cfg, lists.syscalls, hook)
    ensures RefusedBySyscall(cfg, lists.syscalls, hook) ==>
              forall other :: SameAudit(cfg, other) ==> Decide(other, lists, hook) == Decision(-EPERM, SyscallDenied)
  {
  }

  // ----- unrelated numbers ---------------------------------------------------

  datatype Op =
    | Block(nr: int, alloc: bool)
    | Unblock(nr: int)
    | Reconfigure(cfg: Config)
    | Ask(hook: Hook)

  datatype World = World(cfg: Config, lists: Lists)

  predicate Relevant(nr: int) {
    nr == NR_FINIT_MODULE || nr == NR_KEXEC_FILE_LOAD || nr == NR_INIT_MODULE || nr == NR_KEXEC_LOAD
  }

  predicate Unrelated(op: Op) {
    (op.Block? || op.Unblock?) && !Relevant(op.nr)
  }

  function AfterOp(w: World, op: Op): World {
    match op
    case Block(nr, alloc) => w.(lists := w.lists.(syscalls := NrAdd(w.lists.syscalls, nr, alloc).list))
    case Unblock(nr) => w.(lists := w.lists.(syscalls := ListDel(w.lists.syscalls, Nr(nr)).list))
    case Reconfigure(cfg) => w.(cfg := cfg)
    case Ask(_) => w
  }

  /** The decisions a run hands out, in order. */
  function Decisions(w: World, ops: seq<Op>): seq<Decision>
    decreases |ops|
  {
    if ops == [] then []
    else (if ops[0].Ask? then [Decide(w.cfg, w.lists, ops[0].hook)] else [])
         + Decisions(AfterOp(w, ops[0]), ops[1..])
  }

  function Purge(ops: seq<Op>): seq<Op> {
    if ops == [] then []
    else (if Unrelated(ops[0]) then [] else [ops[0]]) + Purge(ops[1..])
  }

  /** Whenever an operation of the run would store a relevant number, the store is full in the
      run exactly when it is full in the purged run. */
  predicate SameRoom(a: World, b: World, ops: seq<Op>)
    decreases |ops|
  {
    if ops == [] then true
    else if Unrelated(ops[0]) then SameRoom(AfterOp(a, ops[0]), b, ops[1..])
    else
      && (ops[0].Block? && ops[0].alloc && Nr(ops[0].nr) !in a.lists.syscalls ==>
            (|a.lists.syscalls| < MAX_SYSCALLS <==> |b.lists.syscalls| < MAX_SYSCALLS))
      && SameRoom(AfterOp(a, ops[0]), AfterOp(b, ops[0]), ops[1..])
  }

  /** No hook, under any configuration, tells the two worlds apart. */
  ghost predicate Indistinguishable(a: World, b: World) {
    forall cfg, hook :: Decide(cfg, a.lists, hook) == Decide(cfg, b.lists, hook)
  }

  /** No hook tells the run from the purged run at any point. */
  ghost predicate NeverTold(a: World, b: World, ops: seq<Op>)
    decreases |ops|
  {
    && Indistinguishable(a, b)
    && (ops == [] ||
        if Unrelated(ops[0]) then NeverTold(AfterOp(a, ops[0]), b, ops[1..])
        else NeverTold(AfterOp(a, ops[0]), AfterOp(b, ops[0]), ops[1..]))
  }

  /** The two worlds look the same to every hook. */
  ghost predicate Alike(a: World, b: World) {
    && a.cfg == b.cfg && a.lists.files == b.lists.files && a.lists.procs == b.lists.procs
    && Distinct(a.lists.syscalls) && Distinct(b.lists.syscalls)
    && forall nr :: Relevant(nr) ==> (Nr(nr) in a.lists.syscalls <==> Nr(nr) in b.lists.syscalls)
  }

  /** What an operation does to the membership of a number. */
  lemma MembershipAfter(w: World, op: Op, x: int)
    requires Distinct(w.lists.syscalls)
    ensures Distinct(AfterOp(w, op).lists.syscalls)
    ensures (op.Block? || op.Unblock?) && op.nr != x ==>
              (Nr(x) in AfterOp(w, op).lists.syscalls <==> Nr(x) in w.lists.syscalls)
    ensures op == Unblock(x) ==> Nr(x) !in AfterOp(w, op).lists.syscalls
  {
    var list := w.lists.syscalls;
    match op
    case Block(nr, alloc) =>
    case Unblock(nr) =>
      ListDelIsSetDel(list, Nr(nr));
      WithoutMember(list, Nr(nr), Nr(x));
      SetKept(list, |list|, Nr(nr), true);
    case _ =>
  }

  /** A configuration and a hook that reveal whether a relevant number is listed. */
  lemma Reveals(w: World, nr: int) returns (cfg: Config, hook: Hook)
    requires Relevant(nr)
    ensures cfg == BOOT_CONFIG && SyscallOf(hook) == Some(nr)
    ensures Decide(cfg, w.lists, hook).code != 0 <==> Nr(nr) in w.lists.syscalls
  {
    cfg := BOOT_CONFIG;
    hook := if nr == NR_FINIT_MODULE then ReadFile(ReadModule, true, true, None)
            else if nr == NR_KEXEC_FILE_LOAD then ReadFile(ReadKexecImage, true, true, None)
            else if nr == NR_INIT_MODULE then LoadData(LoadModule)
            else LoadData(LoadKexecImage);
    LoaderPolicy(cfg, w.lists, hook);
  }

  /** An unrelated operation leaves the run alike its purged counterpart. */
  lemma UnrelatedAlike(a: World, b: World, op: Op)
    requires Alike(a, b) && Unrelated(op)
    ensures Alike(AfterOp(a, op), b)
  {
    forall x ensures Distinct(AfterOp(a, op).lists.syscalls)
                  && (Relevant(x) ==> (Nr(x) in AfterOp(a, op).lists.syscalls <==> Nr(x) in a.lists.syscalls))
    {
      MembershipAfter(a, op, x);
    }
  }

  /** A common operation keeps them alike exactly when it finds the same room in both. */
  lemma CommonAlike(a: World, b: World, op: Op)
    requires Alike(a, b) && !Unrelated(op)
    ensures Alike(AfterOp(a, op), AfterOp(b, op)) <==>
              (op.Block? && op.alloc && Nr(op.nr) !in a.lists.syscalls ==>
                 (|a.lists.syscalls| < MAX_SYSCALLS <==> |b.lists.syscalls| < MAX_SYSCALLS))
  {
    var a', b' := AfterOp(a, op), AfterOp(b, op);
    forall x ensures Distinct(a'.lists.syscalls) && Distinct(b'.lists.syscalls)
                  && ((op.Block? ==> op.nr != x) && Relevant(x) ==>
                        (Nr(x) in a'.lists.syscalls <==> Nr(x) in b'.lists.syscalls))
    {
      MembershipAfter(a, op, x);
      MembershipAfter(b, op, x);
    }
    if op.Block? {
      assert Relevant(op.nr);
      assert Alike(a', b') <==> (Nr(op.nr) in a'.lists.syscalls <==> Nr(op.nr) in b'.lists.syscalls);
    }
  }

  /** Worlds that differ in a relevant number are told apart. */
  lemma UnlikeTold(a: World, b: World, nr: int)
    requires Relevant(nr) && (Nr(nr) in a.lists.syscalls <==> Nr(nr) !in b.lists.syscalls)
    ensures !Indistinguishable(a, b)
  {
    var cfg, hook := Reveals(a, nr);
    LoaderPolicy(cfg, b.lists, hook);
    assert Decide(cfg, a.lists, hook) != Decide(cfg, b.lists, hook);
  }

  lemma {:induction false} NeverToldIff(a: World, b: World, ops: seq<Op>)
    requires Alike(a, b)
    ensures NeverTold(a, b, ops) <==> SameRoom(a, b, ops)
    decreases |ops|
  {
    if ops != [] {
      var op := ops[0];
      var a', b' := AfterOp(a, op), AfterOp(b, op);
      if Unrelated(op) {
        UnrelatedAlike(a, b, op);
        NeverToldIff(a', b, ops[1..]);
      } else {
        CommonAlike(a, b, op);
        if Alike(a', b') {
          NeverToldIff(a', b', ops[1..]);
        } else {
          assert Nr(op.nr) in a'.lists.syscalls <==> Nr(op.nr) !in b'.lists.syscalls;
          UnlikeTold(a', b', op.nr);
        }
      }
    }
  }

  /** Adding and removing other numbers leaves every decision of every hook unchanged at every
      point of a run exactly when they never change whether there is room for a relevant number
      about to be stored. */
  lemma UnrelatedNeverTold(w: World, ops: seq<Op>)
    requires Distinct(w.lists.syscalls)
    ensures NeverTold(w, w, ops) <==> SameRoom(w, w, ops)
  {
    NeverToldIff(w, w, ops);
  }

  lemma {:induction false} PurgedDecisions(a: World, b: World, ops: seq<Op>)
    requires Alike(a, b) && SameRoom(a, b, ops)
    ensures Decisions(a, ops) == Decisions(b, Purge(ops))
    decreases |ops|
  {
    if ops != [] {
      var op := ops[0];
      var a' := AfterOp(a, op);
      if Unrelated(op) {
        UnrelatedAlike(a, b, op);
        PurgedDecisions(a', b, ops[1..]);
        assert Purge(ops) == [] + Purge(ops[1..]) == Purge(ops[1..]);
        assert Decisions(a, ops) == [] + Decisions(a', ops[1..]);
      } else {
        CommonAlike(a, b, op);
        PurgedDecisions(a', AfterOp(b, op), ops[1..]);
        assert Purge(ops)[0] == op && Purge(ops)[1..] == Purge(ops[1..]);
      }
    }
  }

  /** Then the decisions a run hands out are those of the run without them. */
  lemma UnrelatedDoNotInterfere(w: World, ops: seq<Op>)
    requires Distinct(w.lists.syscalls) && SameRoom(w, w, ops)
    ensures Decisions(w, ops) == Decisions(w, Purge(ops))
  {
    PurgedDecisions(w, w, ops);
  }

  /** The proviso is needed: filling the last slot with an unrelated number makes a later block
      of finit_module fail, and a module read it would have refused goes through. */
  lemma FullStoreInterferes(w: World, x: int, hook: Hook)
    requires Distinct(w.lists.syscalls) && |w.lists.syscalls| == MAX_SYSCALLS - 1
    requires x >= 0 && !Relevant(x) && Nr(x) !in w.lists.syscalls && Nr(NR_FINIT_MODULE) !in w.lists.syscalls
    requires AuditLive(w.cfg) && !w.cfg.loadingDenied && hook.ReadFile? && hook.readId == ReadModule
    ensures var ops := [Block(x, true), Block(NR_FINIT_MODULE, true), Ask(hook)];
            && Decisions(w, ops) == [Decision(0, Quiet)]
            && Decisions(w, Purge(ops)) == [Decision(-EPERM, SyscallDenied)]
  {
    var b1, b2, ask := Block(x, true), Block(NR_FINIT_MODULE, true), Ask(hook);
    var ops := [b1, b2, ask];
    assert ops[1..] == [b2, ask] && [b2, ask][1..] == [ask] && [ask][1..] == [];
    assert Purge([ask]) == [ask];
    assert Purge([b2, ask]) == [b2, ask];
    assert Purge(ops) == [b2, ask];
    var w1 := AfterOp(w, b1);
    assert |w1.lists.syscalls| == MAX_SYSCALLS;
    assert AfterOp(w1, b2) == w1;
    assert Decisions(w1, [ask]) == [Decide(w1.cfg, w1.lists, hook)];
    assert Decisions(w1, [b2, ask]) == [] + Decisions(w1, [ask]);
    assert Decisions(w, ops) == [] + Decisions(w1, [b2, ask]);
    var v := AfterOp(w, b2);
    assert Decisions(v, [ask]) == [Decide(v.cfg, v.lists, hook)];
    assert Decisions(w, [b2, ask]) == [] + Decisions(v, [ask]);
  }

  /** The other way to interfere: in a full store, removing an unrelated number makes room for a
      block of finit_module that would have failed, and a module read that would have gone
      through is refused. */
  lemma FreedSlotInterferes(w: World, x: int, hook: Hook)
    requires Distinct(w.lists.syscalls) && |w.lists.syscalls| == MAX_SYSCALLS
    requires !Relevant(x) && Nr(x) in w.lists.syscalls && Nr(NR_FINIT_MODULE) !in w.lists.syscalls
    requires AuditLive(w.cfg) && !w.cfg.loadingDenied && hook.ReadFile? && hook.readId == ReadModule
    ensures var ops := [Unblock(x), Block(NR_FINIT_MODULE, true), Ask(hook)];
            && Decisions(w, ops) == [Decision(-EPERM, SyscallDenied)]
            && Decisions(w, Purge(ops)) == [Decision(0, Quiet)]
  {
    var u, b, ask := Unblock(x), Block(NR_FINIT_MODULE, true), Ask(hook);
    var ops := [u, b, ask];
    assert ops[1..] == [b, ask] && [b, ask][1..] == [ask] && [ask][1..] == [];
    assert Purge([ask]) == [ask];
    assert Purge([b, ask]) == [b, ask];
    assert Purge(ops) == [b, ask];
    var w1 := AfterOp(w, u);
    MembershipAfter(w, u, NR_FINIT_MODULE);
    assert |w1.lists.syscalls| == MAX_SYSCALLS - 1;
    var w2 := AfterOp(w1, b);
    assert w2.lists.syscalls == w1.lists.syscalls + [Nr(NR_FINIT_MODULE)];
    assert Decisions(w2, [ask]) == [Decide(w2.cfg, w2.lists, hook)];
    assert Decisions(w1, [b, ask]) == [] + Decisions(w2, [ask]);
    assert Decisions(w, ops) == [] + Decisions(w1, [b, ask]);
    assert AfterOp(w, b) == w;
    assert Decisions(w, [ask]) == [Decide(w.cfg, w.lists, hook)];
    assert Decisions(w, [b, ask]) == [] + Decisions(w, [ask]);
  }
}
