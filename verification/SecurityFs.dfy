/** Ownership of the securityfs entries: creation step by step with unwinding, and teardown
    (aegis_securityfs.c, aegis_control.c).  The six static pointers and the array of control
    pointers are the twelve slots of one sequence. */
module SecurityFs {
  import opened Kernel

  /** What a dentry pointer variable holds. */
  datatype Ptr = Null | Error(code: int) | Dentry(id: nat)

  const DIR: nat := 0
  const STATUS: nat := 1
  const STATS: nat := 2
  const PROCS: nat := 3
  const FILES: nat := 4
  const SYSCALLS: nat := 5
  const CONTROL: nat := 6  // the first of six
  const SLOTS: nat := 12

  function Held(slots: seq<Ptr>): set<nat> {
    set i | 0 <= i < |slots| && slots[i].Dentry? :: slots[i].id
  }

  /** No dentry is held twice. */
  predicate Unshared(slots: seq<Ptr>) {
    forall i, j :: 0 <= i < j < |slots| && slots[i].Dentry? && slots[j].Dentry? ==> slots[i].id != slots[j].id
  }

  function Nulls(): (s: seq<Ptr>)
    ensures |s| == SLOTS && (forall i :: 0 <= i < SLOTS ==> s[i] == Null) && Held(s) == {}
  {
    seq(SLOTS, _ => Null)
  }

  function One(p: Ptr): seq<nat> {
    if p.Dentry? then [p.id] else []
  }

  /** The dentries in slots lo to hi - 1, in order. */
  function Dentries(slots: seq<Ptr>, lo: nat, hi: nat): seq<nat>
    requires hi <= |slots|
  {
    if hi <= lo then [] else Dentries(slots, lo, hi - 1) + One(slots[hi - 1])
  }

  lemma DentriesStep(slots: seq<Ptr>, lo: nat, k: nat)
    requires lo <= k < |slots|
    ensures Dentries(slots, lo, k + 1) == Dentries(slots, lo, k) + One(slots[k])
    ensures lo == k ==> Dentries(slots, lo, k) == []
  {
  }

  /** Everything in teardown order: control endpoints, read files, the directory last. */
  function Teardown(slots: seq<Ptr>): seq<nat>
    requires |slots| == SLOTS
  {
    Dentries(slots, CONTROL, SLOTS) + Dentries(slots, STATUS, CONTROL) + Dentries(slots, DIR, STATUS)
  }

  /** The slots after the first `m` creations, numbering dentries from `base`. */
  function Created(base: nat, m: nat): (s: seq<Ptr>)
    ensures |s| == SLOTS && forall k :: 0 <= k < SLOTS ==> s[k] == if k < m then Dentry(base + k) else Null
  {
    seq(SLOTS, k requires 0 <= k => if k < m then Dentry(base + k) else Null)
  }

  lemma HeldUpdate(slots: seq<Ptr>, k: nat, p: Ptr)
    requires k < |slots| && Unshared(slots) && (p.Dentry? ==> p.id !in Held(slots))
    ensures Unshared(slots[k := p])
    ensures Held(slots[k := p]) ==
            Held(slots) - (if slots[k].Dentry? then {slots[k].id} else {}) + (if p.Dentry? then {p.id} else {})
  {
    var before, after := Held(slots), Held(slots[k := p]);
    forall d ensures d in after <==> (d in before && (slots[k].Dentry? ==> d != slots[k].id)) || (p.Dentry? && d == p.id) {
      if d in before && (slots[k].Dentry? ==> d != slots[k].id) {
        var i :| 0 <= i < |slots| && slots[i].Dentry? && slots[i].id == d;
        assert slots[k := p][i] == slots[i];
      }
      if p.Dentry? && d == p.id {
        assert slots[k := p][k] == p;
      }
    }
  }

  class Fs {
    var slots: seq<Ptr>
    var live: set<nat>     // the dentries that exist
    var nextId: nat
    var removed: seq<nat>  // the dentries removed so far, in order

    /** Every dentry ever created is live or has been removed, once. */
    ghost predicate Accounted()
      reads this
    {
      && Distinct(removed)
      && (forall d :: d in removed ==> d !in live)
      && (forall d :: 0 <= d < nextId <==> d in live || d in removed)
    }

    /** Live dentries are exactly the ones held, each by one pointer, and all are accounted for. */
    ghost predicate Valid()
      reads this
    {
      && |slots| == SLOTS
      && Unshared(slots)
      && live == Held(slots)
      && Accounted()
    }

    constructor ()
      ensures Valid() && slots == Nulls() && removed == []
    {
      slots, live, nextId, removed := Nulls(), {}, 0, [];
    }

    /** securityfs_create_*: a new dentry, or an error pointer, into slot `k`. */
    method Create(k: nat, err: int)
      requires Valid() && k < SLOTS && !slots[k].Dentry?
      modifies this
      ensures Valid() && removed == old(removed)
      ensures slots == old(slots)[k := if err == 0 then Dentry(old(nextId)) else Error(err)]
      ensures nextId == old(nextId) + if err == 0 then 1 else 0
    {
      HeldUpdate(slots, k, if err == 0 then Dentry(nextId) else Error(err));
      if err == 0 {
        slots := slots[k := Dentry(nextId)];
        live := live + {nextId};
        nextId := nextId + 1;
      } else {
        slots := slots[k := Error(err)];
      }
    }

    /** securityfs_remove of what slot `k` holds, which must exist; the pointer is left as it is.
        `rest` is the slots without those already removed. */
    method Remove(k: nat, ghost rest: seq<Ptr>)
      requires k < |slots| == |rest| && Unshared(rest) && live == Held(rest) && rest[k] == slots[k] && Accounted()
      modifies `live, `removed
      ensures Unshared(rest[k := Null]) && live == Held(rest[k := Null]) && Accounted()
      ensures removed == old(removed) + One(slots[k])
    {
      HeldUpdate(rest, k, Null);
      if slots[k].Dentry? {
        assert slots[k].id in live;
        live := live - {slots[k].id};
        removed := removed + [slots[k].id];
      }
    }

    /** aegis_control_exit: remove and clear the six control endpoints. */
    method ControlExit()
      requires Valid()
      modifies this
      ensures Valid() && nextId == old(nextId)
      ensures forall k :: 0 <= k < SLOTS ==> slots[k] == if k < CONTROL then old(slots)[k] else Null
      ensures removed == old(removed) + Dentries(old(slots), CONTROL, SLOTS)
    {
      ghost var start := slots;
      var i := CONTROL;
      while i < SLOTS
        invariant CONTROL <= i <= SLOTS && Valid() && nextId == old(nextId)
        invariant forall k :: 0 <= k < SLOTS ==> slots[k] == if CONTROL <= k < i then Null else start[k]
        invariant removed == old(removed) + Dentries(start, CONTROL, i)
      {
        HeldUpdate(slots, i, Null);
        Remove(i, slots);
        slots := slots[i := Null];
        i := i + 1;
      }
    }

    /** The five read files, their pointers left as they are; `rest` are the slots still live. */
    method RemoveViews() returns (ghost rest: seq<Ptr>)
      requires Valid()
      modifies `live, `removed
      ensures |rest| == SLOTS && Unshared(rest) && live == Held(rest) && Accounted()
      ensures forall k :: 0 <= k < SLOTS ==> rest[k] == if STATUS <= k < CONTROL then Null else slots[k]
      ensures removed == old(removed) + Dentries(slots, STATUS, CONTROL)
    {
      rest := slots;
      ghost var before := removed;
      Remove(STATUS, rest);
      rest := rest[STATUS := Null];
      DentriesStep(slots, STATUS, STATUS);
      assert removed == before + Dentries(slots, STATUS, STATS);
      Remove(STATS, rest);
      rest := rest[STATS := Null];
      DentriesStep(slots, STATUS, STATS);
      assert removed == before + Dentries(slots, STATUS, PROCS);
      Remove(PROCS, rest);
      rest := rest[PROCS := Null];
      DentriesStep(slots, STATUS, PROCS);
      assert removed == before + Dentries(slots, STATUS, FILES);
      Remove(FILES, rest);
      rest := rest[FILES := Null];
      DentriesStep(slots, STATUS, FILES);
      assert removed == before + Dentries(slots, STATUS, SYSCALLS);
      Remove(SYSCALLS, rest);
      rest := rest[SYSCALLS := Null];
      DentriesStep(slots, STATUS, SYSCALLS);
    }

    /** Control endpoints, read files, the directory last; six pointers are left as they are. */
    method TakeDown()
      requires Valid()
      modifies this
      ensures live == {} && Accounted() && nextId == old(nextId)
      ensures |slots| == SLOTS && forall k :: CONTROL <= k < SLOTS ==> slots[k] == Null
      ensures removed == old(removed) + Teardown(old(slots))
    {
      ghost var start := slots;
      ControlExit();
      ghost var rest := RemoveViews();
      Remove(DIR, rest);
      DentriesStep(start, DIR, DIR);
      SameDentries(slots, start, STATUS, CONTROL);
      assert rest[DIR := Null] == Nulls();
    }

    method ClearPointers()
      requires |slots| == SLOTS && forall k :: CONTROL <= k < SLOTS ==> slots[k] == Null
      modifies `slots
      ensures slots == Nulls()
    {
      slots := slots[STATUS := Null];
      slots := slots[STATS := Null];
      slots := slots[PROCS := Null];
      slots := slots[FILES := Null];
      slots := slots[SYSCALLS := Null];
      slots := slots[DIR := Null];
      assert slots == Nulls();
    }

    /** aegis_securityfs_exit: remove whatever is there, each once, the directory last, and only
        then clear the pointers; with nothing there, do nothing. */
    method Exit()
      requires Valid()
      modifies this
      ensures Valid() && slots == Nulls() && live == {} && nextId == old(nextId)
      ensures removed == old(removed) + Teardown(old(slots))
      ensures Distinct(Teardown(old(slots))) && forall d :: d in Teardown(old(slots)) <==> d in old(live)
      ensures old(live) == {} ==> removed == old(removed)
    {
      TeardownExact(slots);
      TakeDown();
      ClearPointers();
    }

    /** aegis_control_init: stop at the first failure, leaving its slot alone. */
    method ControlInit(errs: seq<int>, ghost base: nat) returns (ret: int, ghost m: nat)
      requires Valid() && |errs| == SLOTS && slots == Created(base, CONTROL) && nextId == base + CONTROL
      modifies this
      ensures Valid() && removed == old(removed)
      ensures CONTROL <= m <= SLOTS && slots == Created(base, m)
      ensures forall k :: CONTROL <= k < m ==> errs[k] == 0
      ensures if m == SLOTS then ret == 0 else ret == errs[m] != 0
    {
      var i := CONTROL;
      while i < SLOTS
        invariant CONTROL <= i <= SLOTS && Valid() && removed == old(removed)
        invariant slots == Created(base, i) && nextId == base + i
        invariant forall k :: CONTROL <= k < i ==> errs[k] == 0
      {
        if errs[i] != 0 {
          return errs[i], i;
        }
        Create(i, 0);
        assert slots == Created(base, i + 1);
        i := i + 1;
      }
      return 0, SLOTS;
    }

    /** Creation number `m` failed; everything created so far is taken down. */
    method Unwind(err: int, ghost base: nat, ghost m: nat)
      requires Valid() && m < SLOTS && (slots == Created(base, m) || slots == Created(base, m)[m := Error(err)])
      modifies this
      ensures Valid() && slots == Nulls() && live == {}
      ensures removed == old(removed) + Teardown(Created(base, m))
    {
      SameDentries(slots, Created(base, m), CONTROL, SLOTS);
      SameDentries(slots, Created(base, m), STATUS, CONTROL);
      SameDentries(slots, Created(base, m), DIR, STATUS);
      Exit();
    }

    /** One read file of the init sequence; on failure everything is unwound. */
    method CreateView(k: nat, err: int, ghost base: nat) returns (ok: bool)
      requires Valid() && 0 < k < CONTROL && slots == Created(base, k) && nextId == base + k
      modifies this
      ensures Valid() && ok == (err == 0)
      ensures ok ==> slots == Created(base, k + 1) && nextId == base + k + 1 && removed == old(removed)
      ensures !ok ==> slots == Nulls() && live == {} && removed == old(removed) + Teardown(Created(base, k))
    {
      Create(k, err);
      ok := err == 0;
      if ok {
        assert slots == Created(base, k + 1);
      } else {
        Unwind(err, base, k);
      }
    }

    /** The five read files in turn; after a failure everything has been unwound. */
    method CreateViews(errs: seq<int>, ghost base: nat) returns (ret: int, ghost m: nat)
      requires Valid() && |errs| == SLOTS && slots == Created(base, STATUS) && nextId == base + STATUS
      modifies this
      ensures Valid() && STATUS <= m <= CONTROL && forall k :: STATUS <= k < m ==> errs[k] == 0
      ensures if m == CONTROL then ret == 0 else ret == errs[m] != 0
      ensures ret == 0 ==> slots == Created(base, CONTROL) && nextId == base + CONTROL && removed == old(removed)
      ensures ret != 0 ==> slots == Nulls() && live == {} && removed == old(removed) + Teardown(Created(base, m))
    {
      var ok := CreateView(STATUS, errs[STATUS], base);
      if !ok { return errs[STATUS], STATUS; }
      ok := CreateView(STATS, errs[STATS], base);
      if !ok { return errs[STATS], STATS; }
      ok := CreateView(PROCS, errs[PROCS], base);
      if !ok { return errs[PROCS], PROCS; }
      ok := CreateView(FILES, errs[FILES], base);
      if !ok { return errs[FILES], FILES; }
      ok := CreateView(SYSCALLS, errs[SYSCALLS], base);
      if !ok { return errs[SYSCALLS], SYSCALLS; }
      return 0, CONTROL;
    }

    /** aegis_securityfs_init with any pattern of creation failures.  All or nothing: on success
        twelve live dentries are held; on failure the `m` dentries created before the first
        failing creation have been taken down and none is left. */
    method Init(errs: seq<int>) returns (ret: int, ghost m: nat)
      requires Valid() && slots == Nulls() && |errs| == SLOTS
      modifies this
      ensures Valid()
      ensures m <= SLOTS && (forall k :: 0 <= k < m ==> errs[k] == 0)
      ensures if m == SLOTS then ret == 0 else ret == errs[m] != 0
      ensures m == SLOTS ==> slots == Created(old(nextId), SLOTS) && removed == old(removed)
      ensures m < SLOTS ==> slots == Nulls() && live == {} && removed == old(removed) + Teardown(Created(old(nextId), m))
    {
      ghost var base := nextId;
      Create(DIR, errs[DIR]);
      if errs[DIR] != 0 {
        HeldUpdate(slots, DIR, Null);
        slots := slots[DIR := Null];
        assert slots == Nulls() == Created(base, 0);
        TeardownOnce(base, 0);
        return errs[DIR], 0;
      }
      assert slots == Created(base, 1);
      ret, m := CreateViews(errs, base);
      if ret != 0 {
        return;
      }
      ret, m := ControlInit(errs, base);
      if ret != 0 {
        Unwind(ret, base, m);
      }
    }

    /** Any sequence of inits and exits in which no init is made while the tree is up, from the
        start and closed by an exit: every dentry ever created was removed exactly once. */
    method Drive(calls: seq<FsCall>)
      requires Valid() && slots == Nulls() && removed == [] && nextId == 0 && Legal(calls, false)
      modifies this
      ensures Valid() && live == {} && Distinct(removed)
      ensures forall d :: d in removed <==> 0 <= d < nextId
    {
      ghost var up := false;
      var i := 0;
      while i < |calls|
        invariant 0 <= i <= |calls| && Valid() && Legal(calls[i..], up)
        invariant !up ==> slots == Nulls()
      {
        match calls[i] {
          case CallInit(errs) =>
            var ret, m := Init(errs);
            up := AllCreated(errs);
          case CallExit =>
            Exit();
            up := false;
        }
        assert calls[i..][1..] == calls[i + 1..];
        i := i + 1;
      }
      Exit();
    }
  }

  datatype FsCall = CallInit(errs: seq<int>) | CallExit

  predicate AllCreated(errs: seq<int>) {
    forall k :: 0 <= k < |errs| ==> errs[k] == 0
  }

  /** No init is made while the tree is up. */
  predicate Legal(calls: seq<FsCall>, up: bool) {
    if calls == [] then true
    else match calls[0]
      case CallInit(errs) => !up && |errs| == SLOTS && Legal(calls[1..], AllCreated(errs))
      case CallExit => Legal(calls[1..], false)
  }

  lemma {:induction false} DentriesIn(slots: seq<Ptr>, lo: nat, hi: nat, d: nat)
    requires hi <= |slots|
    ensures d in Dentries(slots, lo, hi) <==> exists k :: lo <= k < hi && slots[k] == Dentry(d)
  {
    if lo < hi {
      DentriesIn(slots, lo, hi - 1, d);
      var last := slots[hi - 1];
      assert d in One(last) <==> last == Dentry(d);
      assert d in Dentries(slots, lo, hi) <==> d in Dentries(slots, lo, hi - 1) || d in One(last);
    }
  }

  lemma {:induction false} DentriesDistinct(slots: seq<Ptr>, lo: nat, hi: nat)
    requires hi <= |slots| && Unshared(slots)
    ensures Distinct(Dentries(slots, lo, hi))
  {
    if lo < hi {
      DentriesDistinct(slots, lo, hi - 1);
      if slots[hi - 1].Dentry? {
        DentriesIn(slots, lo, hi - 1, slots[hi - 1].id);
      }
    }
  }

  lemma DisjointRuns(a: seq<nat>, b: seq<nat>)
    requires Distinct(a) && Distinct(b) && forall d :: d in a ==> d !in b
    ensures Distinct(a + b)
  {
    forall i, j | 0 <= i < j < |a + b| ensures (a + b)[i] != (a + b)[j] {
      if i < |a| && j >= |a| {
        assert a[i] in a && b[j - |a|] in b;
      }
    }
  }

  lemma TwoRanges(slots: seq<Ptr>, a: nat, b: nat, c: nat, e: nat, d: nat)
    requires b <= |slots| && e <= |slots| && (b <= c || e <= a) && Unshared(slots)
    ensures d in Dentries(slots, a, b) ==> d !in Dentries(slots, c, e)
  {
    DentriesIn(slots, a, b, d);
    DentriesIn(slots, c, e, d);
  }

  /** For any slots that share no dentry, teardown lists each held dentry exactly once. */
  lemma TeardownExact(slots: seq<Ptr>)
    requires |slots| == SLOTS && Unshared(slots)
    ensures Distinct(Teardown(slots)) && forall d :: d in Teardown(slots) <==> d in Held(slots)
    ensures Teardown(slots) != [] ==> Held(slots) != {}
  {
    var control, views, dir := Dentries(slots, CONTROL, SLOTS), Dentries(slots, STATUS, CONTROL), Dentries(slots, DIR, STATUS);
    DentriesDistinct(slots, CONTROL, SLOTS);
    DentriesDistinct(slots, STATUS, CONTROL);
    DentriesDistinct(slots, DIR, STATUS);
    forall d ensures d in Teardown(slots) <==> d in Held(slots) {
      TeardownHolds(slots, d);
    }
    forall d ensures d in control ==> d !in views {
      TwoRanges(slots, CONTROL, SLOTS, STATUS, CONTROL, d);
    }
    DisjointRuns(control, views);
    forall d ensures d in control + views ==> d !in dir {
      TwoRanges(slots, CONTROL, SLOTS, DIR, STATUS, d);
      TwoRanges(slots, STATUS, CONTROL, DIR, STATUS, d);
    }
    DisjointRuns(control + views, dir);
    if Teardown(slots) != [] {
      assert Teardown(slots)[0] in Held(slots);
    }
  }

  lemma TeardownHolds(slots: seq<Ptr>, d: nat)
    requires |slots| == SLOTS
    ensures d in Teardown(slots) <==> d in Held(slots)
  {
    DentriesIn(slots, CONTROL, SLOTS, d);
    DentriesIn(slots, STATUS, CONTROL, d);
    DentriesIn(slots, DIR, STATUS, d);
    if d in Held(slots) {
      var k :| 0 <= k < |slots| && slots[k].Dentry? && slots[k].id == d;
      assert slots[k] == Dentry(d);
    }
  }

  lemma {:induction false} SameDentries(s: seq<Ptr>, s': seq<Ptr>, lo: nat, hi: nat)
    requires hi <= |s| == |s'|
    requires forall k :: lo <= k < hi ==> s[k] == s'[k] || (!s[k].Dentry? && !s'[k].Dentry?)
    ensures Dentries(s, lo, hi) == Dentries(s', lo, hi)
  {
    if lo < hi { SameDentries(s, s', lo, hi - 1); }
  }

  /** The numbers from `a` up to but not including `b`. */
  function Ids(a: nat, b: nat): (s: seq<nat>)
    ensures |s| == (if a <= b then b - a else 0) && forall i :: 0 <= i < |s| ==> s[i] == a + i
  {
    if b <= a then [] else seq(b - a, i requires 0 <= i => a + i)
  }

  lemma {:induction false} CreatedDentries(base: nat, m: nat, lo: nat, hi: nat)
    requires lo <= hi <= SLOTS
    ensures Dentries(Created(base, m), lo, hi) == Ids(base + lo, base + Min(hi, m))
    decreases hi
  {
    if lo < hi {
      CreatedDentries(base, m, lo, hi - 1);
      DentriesStep(Created(base, m), lo, hi - 1);
    }
  }

  /** Taking down what `m` creations made removes each of the `m` dentries exactly once, and the
      directory, created first, last. */
  lemma TeardownOnce(base: nat, m: nat)
    requires m <= SLOTS
    ensures var t := Teardown(Created(base, m));
            && |t| == m && Distinct(t) && (m > 0 ==> t[m - 1] == base)
            && forall d :: base <= d < base + m <==> d in t
  {
    CreatedDentries(base, m, CONTROL, SLOTS);
    CreatedDentries(base, m, STATUS, CONTROL);
    CreatedDentries(base, m, DIR, STATUS);
    var a, b, c := Ids(base + 6, base + m), Ids(base + 1, base + Min(6, m)), Ids(base, base + Min(1, m));
    assert Teardown(Created(base, m)) == a + b + c;
    JoinRuns(a, b, c, base, m);
  }

  lemma JoinRuns(a: seq<nat>, b: seq<nat>, c: seq<nat>, base: nat, m: nat)
    requires a == Ids(base + 6, base + m) && b == Ids(base + 1, base + Min(6, m)) && c == Ids(base, base + Min(1, m))
    ensures var t := a + b + c;
            && |t| == m && Distinct(t) && (m > 0 ==> t[m - 1] == base)
            && forall d :: base <= d < base + m <==> d in t
  {
    var t := a + b + c;
    forall d | base <= d < base + m ensures d in t {
      if d >= base + 6 {
        assert t[d - base - 6] == d;
      } else if d > base {
        assert t[|a| + d - base - 1] == d;
      } else {
        assert t[m - 1] == d;
      }
    }
  }
}
