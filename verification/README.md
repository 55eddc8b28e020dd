# AEGIS in Dafny

AEGIS is a Linux security module. It keeps three bounded policy stores (protected files,
protected processes, blocked system calls), answers LSM hooks from them, counts what it refuses,
and lets an administrator edit policy through securityfs endpoints and sysctl knobs.

The model looks at the module from three sides and ties them together.

- `Policy` says, without reference to how it is computed, what each hook call must return and
  which statistics it must move (`Decide`, `Tally`).
- `Aegis`, `PolicyStore`, `Sysctl`, `SecurityFs`, `FileHash`, `ControlText` and `AuditTail` hold
  the code as one caller sees it: classes with the source's fields, loops over lists and buffers,
  the same branches and error codes. Each method is proved against `Policy`, against a bounded
  ordered set, or against a reference function.
- `Machine` holds the same entry points as programs of single shared accesses, run by any number
  of threads in any order. `HookPrograms` reads the hook programs statically, and `Solo` proves
  that such a program, run without interference, is the policy's decision or the set operation,
  so both sides describe one module. `Interleaving`,
  `Progress`, `Retention`, `ProtectionWindow`, `Conservation`, `StablePolicy`, `InForce`,
  `Assurances`, `SysctlSync` and `Schedules` prove what survives in every interleaving and what does not.

`PolicyLaws` draws the consequences for whoever sets the policy. `Kernel`, `CString`, `Decimal`
and `ThreadSums` are the vocabulary.

Main results, over all runs of N threads:

- A store's count equals its length whenever its lock is free, and is off by exactly the one
  pending update otherwise (`CountFollowsList`).
- The gap between an add's check and its append costs at most K - 1 entries of capacity and K
  copies of a key, where K is the most adds ever in the gap at once (`OvershootByAdds`). So N
  threads cost at most N - 1 and N (`BoundedOvershoot`), which is reached in every store from
  every initial state (`OvershootIsTight`), and adds made one at a time cost nothing
  (`OneAddAtATime`).
- At any moment of any run, a key stays listed until another delete of it begins exactly when its
  copies, with one just being appended, outnumber the deletes of it that have yet to unlink
  (`KeptIff`). Every write to a path is refused until then exactly when this holds and the
  stored count is not zero, so that the shortcut cannot miss the path (`WritesRefusedIff`). An add that meets no pending delete establishes
  this (`QuietAddArms`).
- Every hook returns and counts what the policy decides when what it depends on holds still during
  the call (`StablePolicyDecides`). Over a run whose policy holds still the statistics at rest are
  the policy's own tally over the hook calls made (`StableRunTallies`).
- However settings and lists change during a call, whether it is refused is what the policy
  decides on values each of which was in force at some moment of that call; exactly which hooks
  this extends to as regards the code and the statistics is `ExplainedIff`. So every refusal is
  founded on something in force during the call (`RefusalFounded`).
- Whatever the other threads do, a task cannot be traced while an entry that names it is listed and
  both features are live (`NamedTaskUntraceable`), which lasts from the moment its copies outnumber
  its pending deletes until another delete of it begins (`SafeEntryProtects`); a reader of a file
  is never refused (`ReaderPasses`); a loader request is refused while its number is listed under
  live auditing and let through while neither control covers it (`ListedCallRefused`,
  `UnlistedCallAllowed`).
- The statistics are conserved in every run: the total is the violations plus freed tasks,
  execs and file accesses whose last question the settings in force answered yes
  (`TotalConserved`, `MarksGranted`), and the violation counters are the refusals handed out
  (`RefusalsTracked`, `RefusalsCounted`).
- Nothing deadlocks and every run can be completed (`NoDeadlock`, `EveryRunCompletes`).

Some expected properties are false of the code. For each one there is a failing input and the
exact condition under which the property holds.

| expected | holds exactly when | condition | failing input |
|---|---|---|---|
| a successful add protects its path until a delete of it begins | at its return, copies (with one just being appended) outnumber deletes yet to unlink and the count is not zero | `WritesRefusedIff` | `DelInFlightUndoesAdd` |
| a store never exceeds its limit, over all runs of N threads | N is at most one; in one run, adds one at a time suffice (`OneAddAtATime`) | `WithinLimitIff` | `OvershootIsTight` |
| a store never holds a key twice, over all runs of N threads | N is at most one; in one run, adds one at a time suffice | `NoDuplicatesIff` | `OvershootReached` |
| a hook's code is the policy's on values in force during the call | it is not a module read with a file and no page buffer | `ExplainedIff` | `SlipsThrough` |
| a hook's code and statistics are the policy's on values in force during the call | it is not a module read or load, which two controls decide about | `ExplainedIff` | `SlipsThrough` |
| a path write names what was written | under 256 bytes, or the last byte is a line end | `PathInputNames` | `FullWriteLosesByte` |
| a stored name is found under its own text only | it is shorter than its field | `FieldFaithful` | every longer name; latent, because the endpoints and the boot defaults pass only names that fit |
| a system call row written back names its number | the number has at least eight digits | `NrRowReadsBack` | every shorter number |
| writing the process listing back drains the store | no listed name is empty | `ListingDrains` | `BlankNameStays` |
| other system call numbers never change a decision | they never change whether there is room for a loader number about to be stored | `UnrelatedNeverTold` | `FullStoreInterferes`, `FreedSlotInterferes` |
| a knob at rest agrees with its mirror | at most one writer, once the sync line is a load and a store | `SplitSyncIff` | `StaleSchedule` |
| `audit N` shows the last N tagged lines | at most N tags, or no line carries the tag twice | `TailIsExact` | `DoubleTagHides` |

## Model

| member | source | states |
|---|---|---|
| `Interleaving.CodeFresh` | aegis/aegis_file.c:143-228 | every entry point takes one lock at a time, touches a list only under its lock, settles the count before unlocking, and appends only after both checks |
| `Interleaving.CountFollowsList` | aegis/aegis_file.c:154-190 | in every interleaving the count is the list's length while the lock is free; under the lock it is one behind between append and increment, one ahead between unlink and decrement, else exact |
| `Interleaving.MutualExclusion` | aegis/aegis_process.c:89-113 | two threads are never both about to touch the same list |
| `Interleaving.OvershootByAdds` | aegis/aegis_audit.c:93-115 | if at no moment more than K adds to a store are past their capacity check, length plus pending appends is at most MAX + K - 1 and copies of a key plus its pending adds at most K, whatever other calls are made |
| `Interleaving.BoundedOvershoot` | aegis/aegis_audit.c:93-115 | so with N threads at most MAX + N - 1 and N |
| `Interleaving.OneAddAtATime` | aegis/aegis_audit.c:93-115 | while adds to a store come one at a time, with any number of threads making other calls, it never exceeds its limit and never holds a key twice |
| `Schedules.OvershootReached` | aegis/aegis_process.c:89-113 | from any quiet state with room, some schedule makes all N threads append the same key |
| `Schedules.OvershootIsTight` | aegis/aegis_audit.c:93-115 | in every store and from every initial state some schedule reaches exactly MAX + N - 1 entries with N copies of one key |
| `Schedules.WithinLimitIff` | aegis/aegis_audit.c:93-115 | from every initial state, each store keeps within its limit over all runs exactly when there is at most one thread |
| `Schedules.NoDuplicatesIff` | aegis/aegis_file.c:154-190 | from every initial state, each store stays free of duplicates over all runs exactly when there is at most one thread |
| `Schedules.DelInFlightUndoesAdd` | aegis/aegis_file.c:187-221 | a delete started before a successful add of the same path returns can remove it, after which a write goes through |
| `Progress.NoDeadlock` | aegis/aegis_file.c:154-221 | in every reachable state with a running call some thread can take a step |
| `Progress.EveryRunCompletes` | aegis/aegis_file.c:154-221 | every run can be extended, without new calls and within a bound set by the remaining code, until every call has returned and every lock is free |
| `Retention.MarginExec` | aegis/aegis_file.c:154-221 | the margin of a key, its copies present or being appended less its deletes yet to unlink, is lowered by no step of any thread |
| `Retention.KeptIff` | aegis/aegis_file.c:143-228 | at any moment of any run a key stays listed, whatever all threads do, until another delete of it begins, exactly when it is listed with a positive margin; while the lock is free that is: copies outnumber deletes yet to unlink |
| `ProtectionWindow.WritesRefusedIff` | aegis/aegis_lsm.c:166-243 | at any moment of any run, under enforcement, every write-mode file hook on the path that returns before another delete of it begins returns -EACCES exactly when the path has a positive margin and the count is not zero at that moment |
| `ProtectionWindow.AddedPathIsDenied` | aegis/aegis_lsm.c:166-243 | from a moment, such as an add's return, at which the lock is free and copies outnumber deletes yet to unlink, every write is refused as long as no new delete begins |
| `ProtectionWindow.QuietAddArms` | aegis/aegis_file.c:143-195 | an add that has yet to append, with no delete of the path yet to unlink and none beginning, leaves the path armed when it returns 0 |
| `ProtectionWindow.ArmedRun` | aegis/aegis_file.c:203-228 | a path with a positive margin and a count that is not zero keeps both as long as no delete of it begins |
| `ProtectionWindow.AddBeginsUnappended` | aegis/aegis_file.c:143-195 | every add starts in the phase that `QuietAddArms` assumes |
| `HookPrograms.HookSettles` | aegis/aegis_lsm.c:80-399 | under fixed policy each hook can only end by returning and having counted what the policy decides, whichever way the count shortcut goes, and it consults only the settings and entries listed for it |
| `StablePolicy.StablePolicyDecides` | aegis/aegis_lsm.c:80-399 | in every interleaving, from any state, a hook for which the switches, feature bits and entries it consults hold still during the call returns the policy's code and has counted exactly the policy's event |
| `StablePolicy.StableRunTallies` | aegis/aegis_lsm.c:80-399 | between two moments of rest, over any interleaving of any calls under a policy that holds still, the statistics move by exactly the events the policy decides for the hook calls made, and each returned the policy's code |
| `Conservation.CodeEnds` | aegis/aegis_lsm.c:80-399 | whichever way its tests of shared state go, each entry point ends in a code and a movement of the statistics that the policy can decide for that very call, and touches the total only after a violation or on a yes to the question its mark hangs on; adds, deletes and sysctl calls count nothing; only sysctl calls touch settings |
| `Conservation.OutcomesAllowed` | aegis/aegis_lsm.c:80-399 | so does every call returned in any run; that the settings and lists were in force during the call is `InForce.ExplainedIff` |
| `HookPrograms.HookSound` | aegis/aegis_lsm.c:80-399 | even if repeated questions are answered differently, a quiet end is explained by any policy in which the no answers are no, and a refusing or counting end by any in which the yes answers are yes |
| `InForce.ExplainedIff` | aegis/aegis_lsm.c:80-399 | over all runs, with settings and lists changing between any two tests, an outcome is the policy's decision on values each in force at some moment of the call: as to refusal for every hook, as to the code for all but module reads without a page buffer, as to code and statistics exactly for the hooks that the call list and module control do not both decide about |
| `InForce.RefusalFounded` | aegis/aegis_lsm.c:96-375 | a refused call had the module enabled, and the feature, switch and entry its hook hangs on, each in force at some moment; a path not listed at any moment of a call is not refused |
| `InForce.SlipsThrough` | aegis/aegis_lsm.c:273-375 | with the module switched off and on between its two questions, a listed module load passes the call list by and is refused by module control, under its code and counter |
| `Assurances.ReaderPasses` | aegis/aegis_lsm.c:166-243 | in every interleaving, whatever settings and lists do, an open without write mode and an access that neither writes nor appends returns 0 and adds to no violation counter |
| `Assurances.NamedTaskUntraceable` | aegis/aegis_lsm.c:96-132 | in every interleaving, while an entry that names the process is listed and both features are live, a trace of it returns -EPERM and is counted once |
| `Assurances.UnnamedTaskTraceable` | aegis/aegis_lsm.c:96-132 | while restrict-all is off and no listed entry names the process, a trace of it returns 0 and counts nothing |
| `Assurances.SafeEntryProtects` | aegis/aegis_process.c:81-152 | from a moment at which an entry is listed with a positive margin, until another delete of it begins, no task it names can be traced while both features are live |
| `Assurances.ListedCallRefused` | aegis/aegis_lsm.c:273-375 | in every interleaving, a loader request whose number stays listed while auditing is live is refused; the number is given request by request |
| `Assurances.UnlistedCallAllowed` | aegis/aegis_lsm.c:273-375 | one whose number, if it has any, is at no moment listed is let through while loading is not denied |
| `Conservation.MarksGranted` | aegis/aegis_lsm.c:80-213 | in every run each kind of lone mark has been left, or is just being left, exactly as often as a call of that kind asked its last question while the setting in force said yes |
| `Conservation.TotalConserved` | aegis/aegis_lsm.c:80-213 | in every run total events plus the calls about to increment it equals the four violation counters plus task frees that found the module enabled, the execs that found auditing on and the file accesses that found logging on |
| `Conservation.RefusalsTracked` | aegis/aegis_lsm.c:96-375 | in every run each violation counter is the refusals its hooks returned plus those in flight; the only refusals missed are module reads with no file, no page buffer or no path, told by the arguments of the call |
| `Conservation.RefusalsCounted` | aegis/aegis_lsm.c:287-332 | at rest the violation counters equal the refusals handed out, less those module reads, and the total is the violations plus the marks granted |
| `Solo.AloneIsARun` | aegis/aegis_lsm.c:80-399 | letting one thread run to its end is one of the interleavings |
| `Solo.HookAloneDecides` | aegis/aegis_lsm.c:80-399 | every stepwise hook, run alone, returns the policy's code, moves exactly the policy's statistics and leaves stores and settings as they were; in particular the file count shortcut agrees with the scan |
| `Solo.AddAloneInserts` | aegis/aegis_process.c:81-117 | a stepwise add, run alone, is the bounded set's insertion with the right count and a free lock |
| `Assurances.AddAloneIsTheFunction` | aegis/aegis.h:33-37 | a stepwise add, run alone, does to its store what the function of that store does, with the limit of that store: 128 files, 64 processes, 256 numbers |
| `Solo.DelAloneRemoves` | aegis/aegis_process.c:126-152 | a stepwise delete, run alone on any list, takes out the first occurrence, with the right count and a free lock |
| `Solo.SysctlAloneSyncs` | aegis/aegis_sysctl.c:43-104 | a sysctl write, run alone, stores the value, makes the live field its projection and disturbs no other knob; a read changes nothing |
| `SysctlSync.MirrorsInSync` | aegis/aegis_sysctl.c:43-104 | in every run with any number of writers a knob's live field is the projection of its mirror unless a writer of it is between its two writes |
| `SysctlSync.SplitSyncIff` | aegis/aegis_sysctl.c:43-93 | with the sync line as a load and a store, for any projection that tells two values apart, mirror and live field agree at rest over all runs exactly when there is at most one writer |
| `SysctlSync.ProjectionsDiffer` | aegis/aegis_sysctl.c:43-93 | the projections of the seven knobs, a truth value or a 32-bit mask, are of that kind |
| `Sysctl.Table.constructor` | aegis/aegis_sysctl.c:30-36 | the mirrors start in agreement with the boot configuration |
| `Sysctl.Table.ProcEnable` | aegis/aegis_sysctl.c:43-56 | a stored write of v leaves v in the mirror and whether v is non-zero in the live switch; any other answer changes nothing; all seven knobs stay in agreement |
| `Sysctl.Table.ProcFeatures` | aegis/aegis_sysctl.c:61-73 | a stored write of v leaves v in the mirror and v modulo 2^32 in the live mask; all knobs stay in agreement |
| `Sysctl.Table.ProcBool` | aegis/aegis_sysctl.c:80-104 | a stored write of v leaves v in the mirror of its own knob and whether v is non-zero in its live field, and each of the other four as it was; any other answer changes nothing |
| `CString.StrnEqExact` | aegis/aegis_file.c:160-166 | the bounded comparison, which stops at a NUL, holds exactly when the first n characters of the two strings agree |
| `CString.FieldMatches` | aegis/aegis_file.c:258-262 | comparing over the whole field is equality of the two strings |
| `CString.FieldFaithful` | aegis/aegis_file.c:172-180 | a stored copy is matched by its own text and nothing else exactly when the text is shorter than the field |
| `PolicyStore.Store.constructor` | aegis/aegis_process.c:31-33 | a store starts empty with count zero |
| `PolicyStore.Store.Any` | aegis/aegis_audit.c:168-175 | the early-exit scan finds a match exactly when the list holds one |
| `PolicyStore.Store.Add` | aegis/aegis_audit.c:85-119 | full, duplicate and out-of-memory answers in that order of priority; success appends the entry and nothing else changes |
| `PolicyStore.Store.Del` | aegis/aegis_audit.c:127-149 | the first match alone is taken out, order kept, or -ENOENT and no change |
| `PolicyStore.Store.Exit` | aegis/aegis_audit.c:65-76 | draining leaves an empty list and a zero count |
| `PolicyStore.AddRefines` | aegis/aegis_process.c:81-117 | on keys, adding is insertion into the reference list |
| `PolicyStore.DelRefines` | aegis/aegis_process.c:126-152 | on keys, deleting is removal from the reference list |
| `PolicyStore.ListAddDistinct` | aegis/aegis_file.c:158-190 | when the entry may read back differently from the query, keys stay distinct exactly when the add fails or what is stored was absent |
| `PolicyStore.ListDelIsSetDel` | aegis/aegis_file.c:211-221 | on distinct keys, removing the first match removes the key |
| `PolicyStore.AddThenDel` | aegis/aegis_audit.c:85-149 | deleting what was just added restores the list, order included |
| `PolicyStore.SetKept` | aegis/aegis_audit.c:85-149 | insertion and removal keep a bounded list of distinct keys |
| `Aegis.PathAddExact` | aegis/aegis_file.c:143-195 | a path under 256 bytes is inserted as into a set; a longer one keeps keys distinct exactly when its clipped form was absent or the add failed |
| `Aegis.CommAddExact` | aegis/aegis_process.c:81-117 | the same for process names and their 16-byte field |
| `Aegis.PathMatcher` | aegis/aegis_file.c:159-164 | comparing a path with an entry over the field singles out exactly the entries that read back as that path |
| `Aegis.CommMatcher` | aegis/aegis_process.c:89-103 | the same for a name together with its pid |
| `Aegis.EntryCovers` | aegis/aegis_process.c:174-194 | the three tests of the scan amount to: the pid if the entry has one, else the name of the process or of its group leader |
| `Aegis.Module.constructor` | aegis/aegis_lsm.c:30-46 | the module starts with empty stores, boot settings and zero statistics |
| `Aegis.Module.ProcessInit` | aegis/aegis_process.c:40-51 | the defaults whose allocation succeeds are protected, in order |
| `Aegis.Module.AuditInit` | aegis/aegis_audit.c:35-60 | the defaults whose allocation succeeds are blocked, in order |
| `Aegis.BootDefaults` | aegis/aegis_audit.c:40-58 | with memory granted, boot leaves three processes and five calls listed, in order |
| `Aegis.BootDecisions` | aegis/aegis_lsm.c:30-46 | the decision on every hook after boot, in full: module loads and kexec are refused, other loads are not; process 1 and what is or is led by sshd cannot be traced, all else can; listed files can be read, which is logged, and not written |
| `Policy.FeatureBits` | aegis/aegis.h:46-51 | the five feature tests are bits 0 to 4 of the 32-bit word, whatever its other bits |
| `Policy.AllFeatures` | aegis/aegis.h:54-58 | the default mask is those five bits and nothing else |
| `Aegis.Module.ProtectedFileAdd` | aegis/aegis_file.c:143-195 | on keys the reference addition with its error order; the entry carries the clipped path and the digest if there is one |
| `Aegis.Module.ProtectedFileDel` | aegis/aegis_file.c:203-228 | on keys the reference removal |
| `Aegis.Module.IsFileProtected` | aegis/aegis_file.c:248-266 | true exactly when file integrity is live and the path is listed |
| `Aegis.Module.ProtectProcessAdd` | aegis/aegis_process.c:81-117 | on keys the reference addition of name and pid |
| `Aegis.Module.ProtectProcessDel` | aegis/aegis_process.c:126-152 | on keys the reference removal of name and pid |
| `Aegis.Module.ScanProcs` | aegis/aegis_process.c:171-197 | the early-exit scan is true exactly when some entry covers that process |
| `Aegis.Module.IsProcessProtected` | aegis/aegis_process.c:162-201 | true exactly when process protection is live and some entry covers that process |
| `Aegis.Module.SyscallBlockAdd` | aegis/aegis_audit.c:85-119 | negative numbers are rejected; otherwise insertion into a bounded set |
| `Aegis.Module.SyscallBlockDel` | aegis/aegis_audit.c:127-149 | on keys the reference removal |
| `Aegis.Module.IsSyscallBlocked` | aegis/aegis_audit.c:157-178 | true exactly when auditing is live and switched on and the number is listed |
| `Aegis.Module.TaskFree` | aegis/aegis_lsm.c:80-86 | the total moves by one exactly when the module is enabled; this is what the policy decides |
| `Aegis.Module.BprmCheckSecurity` | aegis/aegis_lsm.c:386-399 | returns 0 and moves the total by one exactly when auditing is live and switched on; this is what the policy decides |
| `Aegis.Module.PtraceAccessCheck` | aegis/aegis_lsm.c:96-132 | -EPERM exactly when ptrace restriction is live and restrict-all is set, or process protection is live and some entry guards the child by its pid or, without a pid, by its own or its leader's name; ptrace_blocked and the total count exactly the refusals; this is what the policy decides |
| `Aegis.Module.PtraceTracemeCheck` | aegis/aegis_lsm.c:140-155 | -EPERM exactly when ptrace restriction is live and restrict-all is set, counted; this is what the policy decides |
| `Aegis.Module.FilePermissionCheck` | aegis/aegis_lsm.c:166-217 | -EACCES exactly when file integrity is live, the path was obtained and is listed, the access writes or appends and enforcement is on; file_violations counts exactly the refusals, the total these and the logged accesses; reads return 0 and leave file_violations as it was; the empty-store shortcut makes no difference |
| `Aegis.Module.FileOpenCheck` | aegis/aegis_lsm.c:225-243 | the same for an open, by its write mode; an open without it returns 0 and leaves file_violations as it was, and one with neither mode is not looked at |
| `Aegis.ReadIdToSyscall` | aegis/aegis_lsm.c:260-271 | a read kind maps to the number whose listing decides it, and to none otherwise |
| `Aegis.Module.KernelReadFile` | aegis/aegis_lsm.c:273-335 | refused under the syscall counter exactly when auditing is live and the number of its kind is listed (finit_module for modules, kexec_file_load for kexec images and initramfs); else under module control exactly for modules and firmware; a module read with no file, page or path is refused uncounted, without a page with -ENOMEM |
| `Aegis.Module.KernelLoadData` | aegis/aegis_lsm.c:343-375 | refused under the syscall counter exactly when auditing is live and init_module is listed for a module, kexec_load for a kexec image; else under module control exactly for modules; nothing else is refused |
| `Policy.LoadDataExact` | aegis/aegis_lsm.c:343-375 | the policy on load requests, hook by number: for all settings and lists, module load with init_module, kexec image with kexec_load, anything else with none |
| `Policy.ReadFileExact` | aegis/aegis_lsm.c:260-335 | the same for read requests: module with finit_module, kexec image and initramfs with kexec_file_load, anything else with none |
| `ControlText.Trim` | aegis/aegis_control.c:52-55 | a prefix of the text that ends in no line end and drops only line ends |
| `ControlText.TrimUnique` | aegis/aegis_control.c:52-55 | any text with those properties is the trimmed one |
| `ControlText.GetString` | aegis/aegis_control.c:40-56 | at most max - 1 bytes, terminated inside the buffer; an embedded NUL is an error; otherwise the trimmed text and its length; bytes past max untouched |
| `ControlText.ProcRowReadsBack` | aegis/aegis_process.c:207-221 | a process row scans back to its entry exactly when the name is not empty, and never to an empty name |
| `ControlText.NrRowReadsBack` | aegis/aegis_audit.c:184-197 | a system call row parses back to its number exactly from 10,000,000 on; padding makes shorter ones unreadable |
| `ControlText.ScanCommPidExact` | aegis/aegis_control.c:113-141 | the reading of a process write for every text: leading blanks are skipped, the name is the first word, cut at 15 characters, the pid the number that comes next, or 0 if none does |
| `ControlText.NameAlone` | aegis/aegis_control.c:113-141 | a non-empty blank-free name of at most 15 characters written alone means pid 0 |
| `ControlText.ScanIntExact` | aegis/aegis_control.c:113-141 | the pid is an optional minus and the longest run of digits, reduced to 32 bits, whatever follows |
| `ControlText.ScanNrExact` | aegis/aegis_control.c:180-197 | a number write is digits with at most one sign before and one newline after, and must fit an int; digits followed by anything else are rejected |
| `ControlText.RowColumns` | aegis/aegis_process.c:213-219 | the listings pad names to 20, numbers to 8 and paths to 40 columns and cut nothing |
| `PolicyLaws.FileRowKeeps` | aegis/aegis_control.c:58-99 | a file row written to the delete endpoint never deletes its file, and deletes nothing unless another entry is named by the whole row |
| `Aegis.PathInputNames` | aegis/aegis_control.c:58-83 | an accepted path write names what was written, line ends aside, exactly when shorter than 256 bytes or ending in a line end |
| `Aegis.FullWriteLosesByte` | aegis/aegis_control.c:58-83 | every 256-byte write without NUL or trailing line end is accepted under a name lacking its last byte |
| `Aegis.ProcInputFits` | aegis/aegis_control.c:117-141 | a name accepted by a process endpoint fits its field and holds no blank; rejections are never positive |
| `Aegis.Module.FetchText` | aegis/aegis_control.c:40-56 | the text of a write, or the code it is rejected with |
| `Aegis.Module.FetchPath` | aegis/aegis_control.c:58-83 | privilege, length, memory and text checks in order; an accepted path fits its field |
| `Aegis.Module.FetchCommPid` | aegis/aegis_control.c:117-137 | the name and pid of a write, or the code it is rejected with |
| `Aegis.Module.FetchNr` | aegis/aegis_control.c:180-197 | the number of a write, never negative, or the code it is rejected with |
| `Aegis.Module.FilesAddWrite` | aegis/aegis_control.c:58-92 | an unauthorised write returns -EPERM, a bad length -EINVAL, no buffer -ENOMEM, a failed copy -EFAULT, a NUL -EINVAL, text that trims to nothing 0, in that order and with every list unchanged; otherwise the trimmed text is inserted as into a set, and the whole length is returned exactly when it was added; stores stay sets |
| `Aegis.Module.FilesDelWrite` | aegis/aegis_control.c:58-99 | the same checks; otherwise the trimmed text is removed, and the whole length is returned exactly when it was listed |
| `Aegis.Module.ProcsAddWrite` | aegis/aegis_control.c:117-141 | an unauthorised write returns -EPERM, a bad length -EINVAL, a failed copy -EFAULT, a NUL -EINVAL, text that trims to nothing 0, in that order and with every list unchanged; otherwise the name and pid read from the trimmed text are inserted as into a set; listed names stay clean |
| `Aegis.Module.ProcsDelWrite` | aegis/aegis_control.c:143-166 | the same checks; otherwise that name with that pid is removed |
| `Aegis.Module.SyscallsAddWrite` | aegis/aegis_control.c:180-201 | the same checks, and -EINVAL for text that is no number or a negative one; otherwise the number is inserted as into a set |
| `Aegis.Module.SyscallsDelWrite` | aegis/aegis_control.c:203-224 | the same checks; otherwise the number is removed |
| `PolicyLaws.CoverageIgnoresOrder` | aegis/aegis_process.c:162-201 | whether a task is protected depends only on which entries are listed |
| `PolicyLaws.AddProtects` | aegis/aegis_process.c:81-117 | an addition protects exactly the tasks its entry covers, besides those already protected |
| `PolicyLaws.DelUnprotects` | aegis/aegis_process.c:126-152 | after a deletion exactly the tasks that another entry or another copy of the deleted one covers stay protected |
| `PolicyLaws.EndpointProtectsExactly` | aegis/aegis_control.c:58-99 | a path written to the endpoint is refused to writers, and nothing else newly is; deleting it restores the store |
| `PolicyLaws.ProcessEndpointProtectsExactly` | aegis/aegis_lsm.c:96-132 | a name and pid written to the endpoint and stored: a trace of a task is refused exactly when ptrace restriction is live and restrict-all is set, or process protection is on and the new entry or an earlier one names the process; deleting the entry restores the store |
| `PolicyLaws.RowDeletes` | aegis/aegis_control.c:143-166 | the row of a named process deletes that entry; no row deletes an entry without a name |
| `PolicyLaws.ListingLeaves` | aegis/aegis_process.c:207-221 | writing the whole listing back to the delete endpoint leaves exactly the entries without a name, in order, duplicates and look-alike names included |
| `PolicyLaws.ListingDrains` | aegis/aegis_process.c:207-221 | so it empties the store exactly when no listed name is empty |
| `PolicyLaws.BlankNameStays` | aegis/aegis_control.c:117-141 | a blank written to the add endpoint is stored as an empty name, after which writing the listing back does not drain the store |
| `PolicyLaws.LoaderPolicy` | aegis/aegis_lsm.c:273-375 | in the policy the loader hooks are proved against, refusal is the call list's or module control's, and what the call list refuses it refuses under any setting of all else, the module-control bit and switch included |
| `PolicyLaws.UnrelatedNeverTold` | aegis/aegis_audit.c:157-178 | over a whole run, operations on other numbers change no decision of any hook under any settings exactly when they never change whether there is room for a loader number about to be stored |
| `PolicyLaws.UnrelatedDoNotInterfere` | aegis/aegis_audit.c:157-178 | then the decisions of a run are those of the run without them |
| `PolicyLaws.FullStoreInterferes` | aegis/aegis_audit.c:93-98 | filling the last slot with another number lets a module read through that would have been refused |
| `PolicyLaws.FreedSlotInterferes` | aegis/aegis_audit.c:127-149 | removing another number from a full store gets a module read refused that would have gone through |
| `FileHash.AbsorbConcat` | aegis/aegis_file.c:80-90 | hashing in pieces is hashing the whole |
| `FileHash.AbsorbFile` | aegis/aegis_file.c:80-90 | the page loop absorbs the whole file in order, or returns the error of the first read or update to fail |
| `FileHash.ComputeFileHash` | aegis/aegis_file.c:45-101 | 0 only if every service worked and every update made returned 0; with all earlier ones working, the first service to fail, the final step included, is the value returned and there is no digest; with 0 comes the digest of the whole file; what was acquired is released in reverse order |
| `FileHash.CleanReleasesOnce` | aegis/aegis_file.c:94-101 | on every path each resource is released as often as it is acquired, at most once |
| `FileHash.HexDecodes` | aegis/aegis_file.c:286-287 | the hexadecimal listing decodes to the digest |
| `FileHash.HashColumnFaithful` | aegis/aegis_file.c:286-292 | the listing column is equal for two entries exactly when both are pending or both hold the same digest |
| `FileHash.RenderHash` | aegis/aegis_file.c:283-292 | the in-place rendering stays in its 65 bytes, is terminated and shows the column, whatever the buffer held before |
| `SecurityFs.Fs.Create` | aegis/aegis_securityfs.c:198-265 | a creation puts a new dentry or an error pointer in its slot, and live dentries stay exactly those held |
| `SecurityFs.Fs.ControlInit` | aegis/aegis_control.c:255-271 | creation stops at the first failure with its code, keeping what was made |
| `SecurityFs.Fs.ControlExit` | aegis/aegis_control.c:273-282 | the control dentries are removed once each, in order, and their pointers cleared |
| `SecurityFs.Fs.CreateViews` | aegis/aegis_securityfs.c:210-250 | either all read files exist or everything was taken down |
| `SecurityFs.Fs.Init` | aegis/aegis_securityfs.c:198-265 | for every pattern of failures: all twelve dentries and 0, or the first failing creation's code with everything created before it removed and no pointer left |
| `SecurityFs.Fs.Exit` | aegis/aegis_securityfs.c:270-295 | every live dentry is removed exactly once and nothing else is, the directory last, all pointers are cleared, and with nothing live nothing is done |
| `SecurityFs.TeardownExact` | aegis/aegis_securityfs.c:270-295 | for any slots that share no dentry the teardown order lists each held dentry exactly once |
| `SecurityFs.Fs.Drive` | aegis/aegis_securityfs.c:198-295 | after any sequence of inits, with any failures, and exits, closed by an exit, every dentry ever created has been removed exactly once |
| `SecurityFs.TeardownOnce` | aegis/aegis_securityfs.c:270-295 | taking down what the first m creations made removes each of the m dentries exactly once, the directory last |
| `AuditTail.StrstrCounts` | devkit/src/aegisctl.c:224-226 | the search fails exactly when there is no tag, and skips none |
| `AuditTail.CountTags` | devkit/src/aegisctl.c:224-226 | restarting one byte past each hit counts every tag once |
| `AuditTail.CountOfTokens` | devkit/src/aegisctl.c:224-251 | tags in the raw log are the tags of its lines |
| `AuditTail.EventsJoin` | devkit/src/aegisctl.c:239-250 | the events of a log are those of its parts around any newline, in order |
| `AuditTail.EventOfLine` | devkit/src/aegisctl.c:239-250 | the event of a single line is the line from its first tag on, if it has one |
| `AuditTail.TaggedAtMost` | devkit/src/aegisctl.c:224-251 | tagged lines never outnumber tags, and equal them exactly when no line carries the tag twice |
| `AuditTail.Strtok` | devkit/src/aegisctl.c:241-250 | cutting the next line off in place leaves the remaining lines as they were |
| `AuditTail.PrintTagged` | devkit/src/aegisctl.c:239-250 | exactly the tagged lines past the skipped ones are printed, in order |
| `AuditTail.CmdAudit` | devkit/src/aegisctl.c:193-253 | on the C string in the buffer read, the count is the number of tags and the lines shown are the tagged ones past the first total - N |
| `AuditTail.TailIsExact` | devkit/src/aegisctl.c:193-253 | never more than N lines, always the end of the tagged lines, and the last min(N, tagged) of them exactly when at most N tags or no line carries two |
| `AuditTail.DoubleTagHides` | devkit/src/aegisctl.c:224-251 | on a log of two tagged lines, one carrying the tag twice, asking for one event shows none |

## Left out

- Kernel services (allocation, `d_path`, user copies, capability checks, `proc_dointvec`, dentry creation, crypto calls) are parameters: every answer they can give is considered.
- The SHA-256 compression function: a digest is a final function of a fold over the bytes.
- Shared accesses are sequentially consistent steps; weaker memory orders are not modelled. A sysctl sync is one step in `Machine`, and `SysctlSync` treats its split into load and store separately.
- Statistics counters are unbounded integers, not 64-bit words. Bytes are characters.
- List nodes are elements of a sequence: node pointers, `kfree` and use after free are not modelled.
- The hash computation between an add's two critical sections is passed over. Opening and reading the file re-enters this module's `file_open` and `file_permission` hooks in read mode, holding no lock; they never refuse but may log and count. In the interleaved machine such a hook call is made by another thread.
- The interleaved programs take names that fit their fields, as every name from an endpoint does; longer names from other callers are treated for a single caller by `PathAddExact` and `CommAddExact`.
- The six static pointers and the array of dentry pointers in securityfs are one sequence of twelve slots.
- Text of `printk`, `status`, `stats` and the audit-suppression flag of ptrace, which only affects logging.
- `aegis_module.c`, `task_alloc`, `socket_create` and `inode_permission`, which decide nothing, and the settings no hook reads (`ptrace_scope`, `syscall_deny_unlisted`, `module_force_loading`).
- Boot order in `aegis_init`, which only calls the subsystem initialisers in turn.
- Subsystem exits racing with other calls; draining is modelled for a single caller only.
- The rest of `aegisctl`, the init program, and the build and launch scripts.
- System call numbers are those of x86_64. There `kexec_load` is 246; the repository's README calls 165 `kexec_load`, and the model follows the code, which uses the kernel's own constants.
- Solo.AddAloneInserts: claims unchanged statistics for the add itself; the read hooks re-entered while hashing are not part of it, for the reason above.
- SecurityFs.Fs.Drive: no init is made while the tree is up, because the source registers init as a single late initcall; a second init would overwrite live pointers.
- Progress.EveryRunCompletes: shows that completion is always possible, not that an unfair scheduler brings it about.
