/** The sysctl handlers: each writes an integer mirror through proc_dointvec and, after a
    successful write, commits it to the field the hooks read (aegis_sysctl.c). */
module Sysctl {
  import opened Kernel
  import opened Policy
  import opened Machine
  import opened Aegis
  import SysctlSync

  /** What proc_dointvec answers: a value it stored (for a write) or nothing stored. */
  datatype Dointvec = Stored(value: int) | ReadOut | Failed(code: int)

  class Table {
    const cfg: AegisConfig
    var enabled: int
    var features: int
    var ptraceRestrictAll: int
    var integrityEnforce: int
    var integrityLog: int
    var loadingDenied: int
    var auditEnable: int

    function Mirror(): Mirrors
      reads this
    {
      Mirrors(enabled, features, ptraceRestrictAll, integrityEnforce, integrityLog, loadingDenied, auditEnable)
    }

    /** Every live field is the projection of its mirror. */
    ghost predicate Valid()
      reads this, cfg
    {
      forall knob :: Projects(cfg.View(), Mirror(), knob)
    }

    constructor (cfg: AegisConfig)
      requires cfg.View() == BOOT_CONFIG
      ensures Valid() && this.cfg == cfg && Mirror() == Mirrors(1, FEATURE_ALL, 0, 1, 1, 0, 1)
    {
      this.cfg := cfg;
      enabled, features, ptraceRestrictAll := 1, FEATURE_ALL, 0;
      integrityEnforce, integrityLog, loadingDenied, auditEnable := 1, 1, 0, 1;
    }

    /** A write stored `v`: the mirror of `knob` and its live field follow, nothing else. */
    twostate predicate Committed(knob: Knob, v: int)
      reads this, cfg
    {
      && Mirror() == WriteMirror(old(Mirror()), knob, v)
      && cfg.View() == SyncKnob(old(cfg.View()), Mirror(), knob)
      && cfg.Stats() == old(cfg.Stats())
    }

    method ProcEnable(answer: Dointvec) returns (ret: int)
      requires Valid()
      modifies `enabled, cfg`enabled
      ensures Valid()
      ensures answer.Stored? ==> Committed(KEnabled, answer.value) && enabled == answer.value && cfg.enabled == (answer.value != 0)
      ensures !answer.Stored? ==> Mirror() == old(Mirror()) && cfg.View() == old(cfg.View())
      ensures ret == if answer.Failed? then answer.code else 0
    {
      ret := if answer.Failed? then answer.code else 0;
      if answer.Stored? {
        enabled := answer.value;
        cfg.enabled := enabled != 0;
        StillSynced(old(cfg.View()), old(Mirror()), cfg.View(), Mirror(), KEnabled, enabled);
      }
    }

    method ProcFeatures(answer: Dointvec) returns (ret: int)
      requires Valid()
      modifies `features, cfg`features
      ensures Valid()
      ensures answer.Stored? ==> Committed(KFeatures, answer.value) && features == answer.value && cfg.features == answer.value % TWO32
      ensures !answer.Stored? ==> Mirror() == old(Mirror()) && cfg.View() == old(cfg.View())
      ensures ret == if answer.Failed? then answer.code else 0
    {
      ret := if answer.Failed? then answer.code else 0;
      if answer.Stored? {
        features := answer.value;
        cfg.features := features % TWO32;
        StillSynced(old(cfg.View()), old(Mirror()), cfg.View(), Mirror(), KFeatures, features);
      }
    }

    /** The knob took the value: its mirror is `v`, its live field whether `v` is non-zero, and
        the other four are as they were. */
    twostate predicate Took(knob: Knob, v: int)
      reads this, cfg
    {
      && ptraceRestrictAll == (if knob == KPtraceAll then v else old(ptraceRestrictAll))
      && integrityEnforce == (if knob == KEnforce then v else old(integrityEnforce))
      && integrityLog == (if knob == KLog then v else old(integrityLog))
      && loadingDenied == (if knob == KLoadingDenied then v else old(loadingDenied))
      && auditEnable == (if knob == KAudit then v else old(auditEnable))
      && cfg.ptraceRestrictAll == (if knob == KPtraceAll then v != 0 else old(cfg.ptraceRestrictAll))
      && cfg.integrityEnforce == (if knob == KEnforce then v != 0 else old(cfg.integrityEnforce))
      && cfg.integrityLog == (if knob == KLog then v != 0 else old(cfg.integrityLog))
      && cfg.loadingDenied == (if knob == KLoadingDenied then v != 0 else old(cfg.loadingDenied))
      && cfg.auditEnable == (if knob == KAudit then v != 0 else old(cfg.auditEnable))
    }

    /** The two writes of a boolean handler: the mirror, then the live field. */
    method Take(knob: Knob, v: int)
      requires knob != KEnabled && knob != KFeatures
      modifies `ptraceRestrictAll, `integrityEnforce, `integrityLog, `loadingDenied, `auditEnable
      modifies cfg`ptraceRestrictAll, cfg`integrityEnforce, cfg`integrityLog, cfg`loadingDenied, cfg`auditEnable
      ensures Took(knob, v)
    {
      match knob {
        case KPtraceAll =>
          ptraceRestrictAll := v;
          cfg.ptraceRestrictAll := ptraceRestrictAll != 0;
        case KEnforce =>
          integrityEnforce := v;
          cfg.integrityEnforce := integrityEnforce != 0;
        case KLog =>
          integrityLog := v;
          cfg.integrityLog := integrityLog != 0;
        case KLoadingDenied =>
          loadingDenied := v;
          cfg.loadingDenied := loadingDenied != 0;
        case KAudit =>
          auditEnable := v;
          cfg.auditEnable := auditEnable != 0;
      }
    }

    /** The five handlers stamped out by the boolean handler macro. */
    method ProcBool(knob: Knob, answer: Dointvec) returns (ret: int)
      requires Valid() && knob != KEnabled && knob != KFeatures
      modifies `ptraceRestrictAll, `integrityEnforce, `integrityLog, `loadingDenied, `auditEnable
      modifies cfg`ptraceRestrictAll, cfg`integrityEnforce, cfg`integrityLog, cfg`loadingDenied, cfg`auditEnable
      ensures Valid()
      ensures answer.Stored? ==> Took(knob, answer.value) && Committed(knob, answer.value)
      ensures !answer.Stored? ==> Mirror() == old(Mirror()) && cfg.View() == old(cfg.View())
      ensures ret == if answer.Failed? then answer.code else 0
    {
      ret := if answer.Failed? then answer.code else 0;
      ghost var was := cfg.View();
      if answer.Stored? {
        Take(knob, answer.value);
        ghost var live, mirror := cfg.View(), Mirror();
        TakenIsCommitted(was, old(Mirror()), live, mirror, knob, answer.value);
        StillSynced(was, old(Mirror()), live, mirror, knob, answer.value);
      }
    }
  }

  /** Taking a value field by field is writing the mirror and committing it. */
  lemma TakenIsCommitted(cfg: Config, m: Mirrors, cfg': Config, m': Mirrors, knob: Knob, v: int)
    requires knob != KEnabled && knob != KFeatures
    requires m'.enabled == m.enabled && m'.features == m.features && cfg'.enabled == cfg.enabled && cfg'.features == cfg.features
    requires m'.ptraceAll == (if knob == KPtraceAll then v else m.ptraceAll)
    requires m'.enforce == (if knob == KEnforce then v else m.enforce)
    requires m'.log == (if knob == KLog then v else m.log)
    requires m'.loadingDenied == (if knob == KLoadingDenied then v else m.loadingDenied)
    requires m'.audit == (if knob == KAudit then v else m.audit)
    requires cfg'.ptraceRestrictAll == (if knob == KPtraceAll then v != 0 else cfg.ptraceRestrictAll)
    requires cfg'.integrityEnforce == (if knob == KEnforce then v != 0 else cfg.integrityEnforce)
    requires cfg'.integrityLog == (if knob == KLog then v != 0 else cfg.integrityLog)
    requires cfg'.loadingDenied == (if knob == KLoadingDenied then v != 0 else cfg.loadingDenied)
    requires cfg'.auditEnable == (if knob == KAudit then v != 0 else cfg.auditEnable)
    ensures m' == WriteMirror(m, knob, v) && cfg' == SyncKnob(cfg, m', knob)
  {
  }

  /** Writing one mirror leaves the other knobs as they were. */
  lemma WriteIndependent(cfg: Config, m: Mirrors, knob: Knob, v: int, k: Knob)
    requires k != knob
    ensures Projects(cfg, WriteMirror(m, knob, v), k) <==> Projects(cfg, m, k)
  {
  }

  /** Committing one knob keeps every knob in sync. */
  lemma StillSynced(cfg: Config, m: Mirrors, cfg': Config, m': Mirrors, knob: Knob, v: int)
    requires forall k :: Projects(cfg, m, k)
    requires m' == WriteMirror(m, knob, v) && cfg' == SyncKnob(cfg, m', knob)
    ensures forall k :: Projects(cfg', m', k)
  {
    forall k ensures Projects(cfg', m', k) {
      SysctlSync.SyncIndependent(cfg, m', knob, k);
      if k != knob {
        WriteIndependent(cfg, m, knob, v, k);
      }
    }
  }
}
