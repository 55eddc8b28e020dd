/** Concurrent sysctl writers.  With the sync line as one step every knob is in sync whenever
    no writer stands between its mirror write and its sync; with the line split into the load
    and the store it compiles to, that promise survives only without concurrency. */
module SysctlSync {
  import opened Kernel
  import opened Policy
  import opened Machine
  import opened Interleaving

  /** Thread `t` has written the mirror of `knob` and not yet synced it. */
  predicate Syncing(s: State, t: nat, knob: Knob)
    requires t < |s.threads|
  {
    s.threads[t].Running? && s.threads[t].prog.Sync? && s.threads[t].prog.synced == knob
  }

  ghost predicate SomeoneSyncing(s: State, knob: Knob) {
    exists t :: 0 <= t < |s.threads| && Syncing(s, t, knob)
  }

  ghost predicate KnobInv(s: State, knob: Knob) {
    InSync(s, knob) || SomeoneSyncing(s, knob)
  }

  /** Syncing one knob leaves the others as they were. */
  lemma SyncIndependent(cfg: Config, m: Mirrors, k: Knob, j: Knob)
    ensures Projects(SyncKnob(cfg, m, k), m, k)
    ensures Projects(cfg, m, j) ==> Projects(SyncKnob(cfg, m, k), m, j)
  {
  }

  lemma OthersKeepSyncing(s: State, t: nat, knob: Knob)
    requires t < |s.threads| && s.threads[t].Running?
    requires exists u :: 0 <= u < |s.threads| && u != t && Syncing(s, u, knob)
    ensures SomeoneSyncing(Exec(s, t), knob)
  {
    var u :| 0 <= u < |s.threads| && u != t && Syncing(s, u, knob);
    assert Syncing(Exec(s, t), u, knob);
  }

  lemma KnobExec(s: State, t: nat, knob: Knob)
    requires LockInv(s) && t < |s.threads| && s.threads[t].Running? && KnobInv(s, knob)
    ensures KnobInv(Exec(s, t), knob)
  {
    assert ThreadDisciplined(s, t);
    var p := s.threads[t].prog;
    if exists u :: 0 <= u < |s.threads| && u != t && Syncing(s, u, knob) {
      OthersKeepSyncing(s, t, knob);
    } else if p.SetMirror? && p.mirror == knob {
      assert Syncing(Exec(s, t), t, knob);
    } else if p.Sync? {
      SyncIndependent(s.cfg, s.mirrors, p.synced, knob);
    }
  }

  lemma KnobStep(s: State, step: Step, knob: Knob)
    requires LockInv(s) && KnobInv(s, knob)
    ensures KnobInv(Apply(s, step), knob)
  {
    var t := step.thread;
    if t < |s.threads| && step.Go? && s.threads[t].Running? {
      KnobExec(s, t, knob);
    } else if SomeoneSyncing(s, knob) {
      var u :| 0 <= u < |s.threads| && Syncing(s, u, knob);
      assert Syncing(Apply(s, step), u, knob);
    }
  }

  lemma {:induction false} KnobRun(s: State, steps: seq<Step>, knob: Knob)
    requires Init(s)
    ensures KnobInv(Run(s, steps), knob)
    decreases |steps|
  {
    if steps == [] {
      assert InSync(s, knob);
    } else {
      KnobRun(s, steps[..|steps| - 1], knob);
      InitLocked(s);
      LockRun(s, steps[..|steps| - 1]);
      KnobStep(Run(s, steps[..|steps| - 1]), steps[|steps| - 1], knob);
    }
  }

  /** In every run of any number of concurrent readers and writers, a knob's live field is the
      projection of its mirror unless a writer of that knob is between its two writes. */
  lemma MirrorsInSync(s: State, steps: seq<Step>, knob: Knob)
    requires Init(s)
    requires forall t :: 0 <= t < |s.threads| ==> !Syncing(Run(s, steps), t, knob)
    ensures InSync(Run(s, steps), knob)
  {
    KnobRun(s, steps, knob);
  }

  // ----- the sync line as a load and a store ---------------------------------

  datatype Writer = Rest | Wrote | Loaded(value: int)

  /** One knob and its writers; `live` is the field the hooks read. */
  datatype Split<L> = Split(mirror: int, live: L, writers: seq<Writer>)

  datatype SplitStep = WriteMirror(w: nat, v: int) | LoadMirror(w: nat) | StoreLive(w: nat)

  /** `project` is what the sync line makes of the mirror. */
  function SplitApply<L>(s: Split<L>, step: SplitStep, project: int -> L): (s': Split<L>)
    ensures |s'.writers| == |s.writers|
  {
    if step.w >= |s.writers| then s
    else match (step, s.writers[step.w])
      case (WriteMirror(w, v), Rest) => s.(mirror := v, writers := s.writers[w := Wrote])
      case (LoadMirror(w), Wrote) => s.(writers := s.writers[w := Loaded(s.mirror)])
      case (StoreLive(w), Loaded(v)) => s.(live := project(v), writers := s.writers[w := Rest])
      case _ => s
  }

  function SplitRun<L>(s: Split<L>, steps: seq<SplitStep>, project: int -> L): (s': Split<L>)
    ensures |s'.writers| == |s.writers|
    decreases |steps|
  {
    if steps == [] then s else SplitRun(SplitApply(s, steps[0], project), steps[1..], project)
  }

  predicate AtRest<L>(s: Split<L>) {
    forall w :: 0 <= w < |s.writers| ==> s.writers[w].Rest?
  }

  predicate Agrees<L(==)>(s: Split<L>, project: int -> L) {
    s.live == project(s.mirror)
  }

  /** What a single writer keeps: it agrees at rest, and what it has loaded is current. */
  predicate LoneInv<L(==)>(s: Split<L>, project: int -> L) {
    |s.writers| <= 1 &&
    if |s.writers| == 0 || s.writers[0].Rest? then Agrees(s, project)
    else s.writers[0].Loaded? ==> s.writers[0].value == s.mirror
  }

  lemma {:induction false} LoneWriter<L>(s: Split<L>, steps: seq<SplitStep>, project: int -> L)
    requires LoneInv(s, project)
    ensures LoneInv(SplitRun(s, steps, project), project)
    decreases |steps|
  {
    if steps != [] {
      LoneWriter(SplitApply(s, steps[0], project), steps[1..], project);
    }
  }

  function Overtake(v: int): seq<SplitStep> {
    [WriteMirror(1, v), LoadMirror(1), StoreLive(1), StoreLive(0)]
  }

  /** The second writer writes `v` and syncs; the first then stores what it loaded before. */
  lemma StaleTail<L>(s: Split<L>, u: int, v: int, project: int -> L)
    requires |s.writers| >= 2 && s.writers[0] == Loaded(u) && forall w :: 0 < w < |s.writers| ==> s.writers[w].Rest?
    requires project(u) != project(v)
    ensures var r := SplitRun(s, Overtake(v), project); AtRest(r) && !Agrees(r, project)
  {
    var s1 := SplitApply(s, WriteMirror(1, v), project);
    var s2 := SplitApply(s1, LoadMirror(1), project);
    var s3 := SplitApply(s2, StoreLive(1), project);
    assert Overtake(v)[1..] == [LoadMirror(1), StoreLive(1), StoreLive(0)];
    assert [LoadMirror(1), StoreLive(1), StoreLive(0)][1..] == [StoreLive(1), StoreLive(0)];
    assert [StoreLive(1), StoreLive(0)][1..] == [StoreLive(0)];
    assert SplitRun(s3, [StoreLive(0)], project) == SplitApply(s3, StoreLive(0), project);
  }

  lemma StaleSchedule<L>(s: Split<L>, u: int, v: int, project: int -> L) returns (steps: seq<SplitStep>)
    requires AtRest(s) && |s.writers| >= 2 && project(u) != project(v)
    ensures AtRest(SplitRun(s, steps, project)) && !Agrees(SplitRun(s, steps, project), project)
  {
    steps := [WriteMirror(0, u), LoadMirror(0)] + Overtake(v);
    assert steps[1..][1..] == Overtake(v);
    var s1 := SplitApply(s, WriteMirror(0, u), project);
    StaleTail(SplitApply(s1, LoadMirror(0), project), u, v, project);
  }

  /** With the sync line split, every quiet state agrees with its mirror exactly when there is
      at most one writer, whatever the knob projects to, as long as two values differ in it. */
  lemma SplitSyncIff<L>(s: Split<L>, u: int, v: int, project: int -> L)
    requires AtRest(s) && Agrees(s, project) && project(u) != project(v)
    ensures (forall steps :: AtRest(SplitRun(s, steps, project)) ==> Agrees(SplitRun(s, steps, project), project))
            <==> |s.writers| <= 1
  {
    if |s.writers| <= 1 {
      forall steps | AtRest(SplitRun(s, steps, project)) ensures Agrees(SplitRun(s, steps, project), project) {
        LoneWriter(s, steps, project);
      }
    } else {
      var steps := StaleSchedule(s, u, v, project);
    }
  }

  /** The projections of the source: a boolean for six knobs, a 32-bit mask for the features. */
  lemma ProjectionsDiffer()
    ensures Truth(1) != Truth(0) && Word32(1) != Word32(0)
    ensures forall cfg, m, knob :: knob != KFeatures ==>
              (Projects(cfg, m, knob) <==> SwitchOf(cfg, knob) == Truth(MirrorOf(m, knob)))
    ensures forall cfg, m :: Projects(cfg, m, KFeatures) <==> cfg.features == Word32(m.features)
  {
  }

  function Truth(v: int): bool {
    v != 0
  }

  function Word32(v: int): nat {
    v % TWO32
  }

  function MirrorOf(m: Mirrors, knob: Knob): int {
    match knob
    case KEnabled => m.enabled
    case KFeatures => m.features
    case KPtraceAll => m.ptraceAll
    case KEnforce => m.enforce
    case KLog => m.log
    case KLoadingDenied => m.loadingDenied
    case KAudit => m.audit
  }
}
