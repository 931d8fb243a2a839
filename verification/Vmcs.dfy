/**
 * Which CPU holds which VMCS: vmx_clear_here(), vmx_release(), vmx_make_current() and the
 * stages of vmx_enter_once() in vmctx.c. Machine holds the operations, and Host the stages of
 * entries that interleave on any number of CPUs.
 */
module Vmcs {
  type Cpu = int
  type RunId = nat

  /** The fields the write cache covers: three of the guest's, and the task's FS base for the exit. */
  datatype Fields = Fields(cr3: nat, fs: nat, gs: nat, hostFs: nat)

  /** struct vmx_run: where it is loaded (-1: nowhere), the guest's registers, the fields last written. */
  datatype Run = Run(loadedCpu: Cpu, cr3: nat, fs: nat, gs: nat, cache: Fields, cached: bool, launched: bool)

  /** One VMCS active on one CPU. The hardware gives no meaning to a VMCS active on two. */
  datatype Active = Active(cpu: Cpu, run: RunId)

  /** One VM entry: the fields asked for and found, the instruction chosen, the true launch state. */
  datatype Entry = Entry(wanted: Fields, fields: Fields, resume: bool, hardwareLaunched: bool)

  const NEW_RUN := Run(-1, 0, 0, 0, Fields(0, 0, 0, 0), false, false)

  /** vmx_cur and loaded_cpu are each other's inverse. */
  ghost predicate Linked(cur: map<Cpu, RunId>, runs: map<RunId, Run>) {
    && (forall c | c in cur :: 0 <= c && cur[c] in runs && runs[cur[c]].loadedCpu == c)
    && (forall r | r in runs && runs[r].loadedCpu != -1 :: runs[r].loadedCpu in cur && cur[runs[r].loadedCpu] == r)
  }

  /** The active VMCSs are exactly the ones vmx_cur names. */
  ghost predicate Mirrors(cur: map<Cpu, RunId>, active: set<Active>) {
    forall a :: a in active <==> a.cpu in cur && cur[a.cpu] == a.run
  }

  /** A cache that claims to be valid holds what the VMCS holds. */
  ghost predicate CacheIsTrue(runs: map<RunId, Run>, vmcs: map<RunId, Fields>) {
    runs.Keys == vmcs.Keys && forall r | r in runs && runs[r].cached :: vmcs[r] == runs[r].cache
  }

  /** The driver's launched flag is the hardware's launch state, and only a loaded VMCS is launched. */
  ghost predicate LaunchIsTrue(runs: map<RunId, Run>, launched: set<RunId>) {
    && (forall r :: r in launched <==> r in runs && runs[r].launched)
    && (forall r | r in runs && runs[r].launched :: runs[r].loadedCpu >= 0)
  }

  /** The run's VMCS is active on no CPU. */
  ghost predicate Inactive(active: set<Active>, r: RunId) {
    forall a | a in active :: a.run != r
  }

  function Unloaded(run: Run): Run {
    run.(loadedCpu := -1, launched := false)
  }

  /** Taking the run off the CPU it is loaded on, if any, keeps the tables linked. */
  lemma Unlink(cur: map<Cpu, RunId>, runs: map<RunId, Run>, active: set<Active>, r: RunId)
    requires Linked(cur, runs) && Mirrors(cur, active) && r in runs
    ensures Linked(cur - {runs[r].loadedCpu}, runs[r := Unloaded(runs[r])])
    ensures Mirrors(cur - {runs[r].loadedCpu}, active - {Active(runs[r].loadedCpu, r)})
    ensures Inactive(active - {Active(runs[r].loadedCpu, r)}, r)
  {
  }

  lemma UnlinkFields(runs: map<RunId, Run>, vmcs: map<RunId, Fields>, launched: set<RunId>, r: RunId)
    requires CacheIsTrue(runs, vmcs) && LaunchIsTrue(runs, launched) && r in runs
    ensures CacheIsTrue(runs[r := Unloaded(runs[r])], vmcs) && LaunchIsTrue(runs[r := Unloaded(runs[r])], launched - {r})
  {
  }

  /** Loading a run that is loaded nowhere on a CPU that holds nothing keeps the tables linked. */
  lemma Link(cur: map<Cpu, RunId>, runs: map<RunId, Run>, active: set<Active>, c: Cpu, r: RunId, run: Run)
    requires Linked(cur, runs) && Mirrors(cur, active)
    requires r in runs && runs[r].loadedCpu < 0 && 0 <= c && c !in cur && run.loadedCpu == c
    ensures Linked(cur[c := r], runs[r := run]) && Mirrors(cur[c := r], active + {Active(c, r)})
  {
  }

  /** The fields after the writes of one entry: a field is written unless the cache holds its value. */
  function Written(run: Run, image: Fields, hostFs: nat): (after: Fields)
    ensures run.cached ==> (image == run.cache ==> after == Fields(run.cr3, run.fs, run.gs, hostFs))
    ensures !run.cached ==> after == Fields(run.cr3, run.fs, run.gs, hostFs)
  {
    Fields(
      if !run.cached || run.cache.cr3 != run.cr3 then run.cr3 else image.cr3,
      if !run.cached || run.cache.fs != run.fs then run.fs else image.fs,
      if !run.cached || run.cache.gs != run.gs then run.gs else image.gs,
      if !run.cached || run.cache.hostFs != hostFs then hostFs else image.hostFs)
  }

  /**
   * Making r current on c changes r, the run c held, and what vmx_cur says on c and on the CPU r
   * came from; every other run and every other CPU is as it was.
   */
  ghost predicate OthersKept(
    cur: map<Cpu, RunId>, runs: map<RunId, Run>, cur': map<Cpu, RunId>, runs': map<RunId, Run>, c: Cpu, r: RunId)
    requires r in runs
  {
    var touched := {r} + if c in cur then {cur[c]} else {};
    runs' - touched == runs - touched && cur' - {c, runs[r].loadedCpu} == cur - {c, runs[r].loadedCpu}
  }

  /** Loading r afterwards touches nothing more. */
  lemma LoadKeepsOthers(
    cur: map<Cpu, RunId>, runs: map<RunId, Run>, cur': map<Cpu, RunId>, runs': map<RunId, Run>, c: Cpu, r: RunId, run: Run)
    requires r in runs && OthersKept(cur, runs, cur', runs', c, r)
    ensures OthersKept(cur, runs, cur'[c := r], runs'[r := run], c, r)
  {
    var touched := {r} + if c in cur then {cur[c]} else {};
    assert runs'[r := run] - touched == runs' - touched;
    assert cur'[c := r] - {c, runs[r].loadedCpu} == cur' - {c, runs[r].loadedCpu};
  }

  /** Taking r off its CPU, and then the run of c off c, touches nothing else. */
  lemma EvictionsKeepOthers(cur: map<Cpu, RunId>, runs: map<RunId, Run>, c: Cpu, r: RunId, run: Run)
    requires Linked(cur, runs) && r in runs && runs[r].loadedCpu != c
    ensures var runs1, cur1 := runs[r := run], cur - {runs[r].loadedCpu};
            && OthersKept(cur, runs, cur1, runs1, c, r)
            && (c in cur ==> OthersKept(cur, runs, cur1 - {c}, runs1[cur[c] := Unloaded(runs[cur[c]])], c, r))
  {
    var runs1, cur1 := runs[r := run], cur - {runs[r].loadedCpu};
    var gone := {c, runs[r].loadedCpu};
    assert cur1 - gone == cur - gone && cur1 - {c} - gone == cur - gone;
    var touched := {r} + if c in cur then {cur[c]} else {};
    assert runs1 - touched == runs - touched;
    if c in cur {
      assert runs1[cur[c] := Unloaded(runs[cur[c]])] - touched == runs - touched;
    }
  }

  const EIO := -5

  function Registers(run: Run): (nat, nat, nat) {
    (run.cr3, run.fs, run.gs)
  }

  class Machine {
    var cur: map<Cpu, RunId>
    var runs: map<RunId, Run>
    /** The hardware: which VMCSs are active, and what each one's guest fields hold. */
    ghost var active: set<Active>
    ghost var vmcs: map<RunId, Fields>
    ghost var launched: set<RunId>

    ghost predicate Valid()
      reads this
    {
      Linked(cur, runs) && Mirrors(cur, active) && CacheIsTrue(runs, vmcs) && LaunchIsTrue(runs, launched)
    }

    constructor ()
      ensures Valid() && runs == map[]
    {
      cur, runs, active, vmcs, launched := map[], map[], {}, map[], {};
    }

    /** vmx_run_alloc(). */
    method Alloc(r: RunId)
      requires Valid() && r !in runs
      modifies this`runs, this`vmcs
      ensures Valid() && runs == old(runs)[r := NEW_RUN] && Inactive(active, r)
    {
      runs := runs[r := NEW_RUN];
      vmcs := vmcs[r := NEW_RUN.cache];
    }

    /** vmx_clear_here() on CPU c. VMCLEAR writes the fields back and leaves the VMCS not launched. */
    method ClearHere(c: Cpu, r: RunId)
      requires Valid() && r in runs && (runs[r].loadedCpu == c || runs[r].loadedCpu == -1)
      modifies this`cur, this`runs, this`active, this`launched
      ensures vmcs == old(vmcs)
      ensures Valid() && Inactive(active, r)
      ensures runs == old(runs)[r := Unloaded(old(runs)[r])]
      ensures cur == old(cur) - {old(runs)[r].loadedCpu}
    {
      Unlink(cur, runs, active, r);
      UnlinkFields(runs, vmcs, launched, r);
      active, launched := active - {Active(runs[r].loadedCpu, r)}, launched - {r};
      if c in cur && cur[c] == r {
        cur := cur - {c};
      } else {
        assert cur == cur - {runs[r].loadedCpu};
      }
      runs := runs[r := Unloaded(runs[r])];
    }

    /** vmx_release(): here, or by a waited call on the CPU that holds the run. */
    method Release(r: RunId)
      requires Valid() && r in runs
      modifies this`cur, this`runs, this`active, this`launched
      ensures vmcs == old(vmcs)
      ensures Valid() && Inactive(active, r)
      ensures runs == old(runs)[r := Unloaded(old(runs)[r])]
      ensures cur == old(cur) - {old(runs)[r].loadedCpu}
    {
      if runs[r].loadedCpu >= 0 {
        ClearHere(runs[r].loadedCpu, r);
      } else {
        assert runs[r] == Unloaded(runs[r]);
      }
    }

    /**
     * vmx_make_current() on CPU c: 0 if the run was current here already, 1 if it had to be
     * loaded, -1 if VMCLEAR or VMPTRLD failed. It disturbs another CPU or evicts another run
     * exactly when the run was loaded elsewhere or this CPU held one.
     */
    method MakeCurrent(c: Cpu, r: RunId, clearOk: bool, loadOk: bool) returns (result: int, disturbed: bool)
      requires Valid() && 0 <= c && r in runs
      modifies this`cur, this`runs, this`active, this`launched
      ensures vmcs == old(vmcs)
      ensures Valid() && r in runs
      ensures result == 0 <==> old(runs)[r].loadedCpu == c
      ensures result == 1 <==> old(runs)[r].loadedCpu != c && clearOk && loadOk
      ensures result == -1 <==> old(runs)[r].loadedCpu != c && !(clearOk && loadOk)
      ensures disturbed <==> old(runs)[r].loadedCpu != c && (old(runs)[r].loadedCpu != -1 || c in old(cur))
      ensures result == -1 ==> Inactive(active, r) && c !in cur
      ensures result != -1 ==> c in cur && cur[c] == r
      ensures result == 1 ==> runs[r] == old(runs)[r].(loadedCpu := c, launched := false, cached := false)
      ensures result == 0 ==> runs == old(runs) && cur == old(cur)
      ensures result == -1 ==> runs[r] == Unloaded(old(runs)[r])
      ensures OthersKept(old(cur), old(runs), cur, runs, c, r)
      ensures !disturbed ==> runs == old(runs)[r := runs[r]]
      ensures !disturbed && result == 1 ==> cur == old(cur)[c := r]
      ensures !disturbed && result == -1 ==> cur == old(cur)
    {
      disturbed := false;
      if c in cur && cur[c] == r && runs[r].loadedCpu == c {
        return 0, false;
      }
      disturbed := MakeRoom(c, r);
      if !(clearOk && loadOk) {
        return -1, disturbed;
      }
      LoadKeepsOthers(old(cur), old(runs), cur, runs, c, r, runs[r].(loadedCpu := c, launched := false, cached := false));
      Load(c, r);
      result := 1;
    }

    /** The two evictions of vmx_make_current(): the run from another CPU, another run from this one. */
    method MakeRoom(c: Cpu, r: RunId) returns (disturbed: bool)
      requires Valid() && 0 <= c && r in runs && runs[r].loadedCpu != c
      modifies this`cur, this`runs, this`active, this`launched
      ensures vmcs == old(vmcs)
      ensures Valid() && r in runs && c !in cur && Inactive(active, r) && runs[r] == Unloaded(old(runs)[r])
      ensures disturbed <==> old(runs)[r].loadedCpu != -1 || c in old(cur)
      ensures !disturbed ==> runs == old(runs) && cur == old(cur)
      ensures OthersKept(old(cur), old(runs), cur, runs, c, r)
    {
      disturbed := false;
      EvictionsKeepOthers(cur, runs, c, r, runs[r]);
      EvictionsKeepOthers(cur, runs, c, r, Unloaded(runs[r]));
      assert runs[r := runs[r]] == runs;
      if runs[r].loadedCpu >= 0 && runs[r].loadedCpu != c {
        disturbed := true;
        ClearHere(runs[r].loadedCpu, r);
      } else {
        assert cur - {runs[r].loadedCpu} == cur;
      }
      if c in cur && cur[c] != r {
        disturbed := true;
        ClearHere(c, cur[c]);
      }
    }

    method Load(c: Cpu, r: RunId)
      requires Valid() && 0 <= c && c !in cur && r in runs && runs[r].loadedCpu == -1
      modifies this`cur, this`runs, this`active
      ensures vmcs == old(vmcs)
      ensures Valid() && cur == old(cur)[c := r]
      ensures runs == old(runs)[r := old(runs)[r].(loadedCpu := c, launched := false, cached := false)]
    {
      var run := runs[r].(loadedCpu := c, launched := false, cached := false);
      Link(cur, runs, active, c, r, run);
      active := active + {Active(c, r)};
      cur := cur[c := r];
      runs := runs[r := run];
    }

    /** The cached field writes: skipped where the cache already holds the value wanted. */
    method WriteFields(r: RunId, hostFs: nat)
      requires Valid() && r in runs
      modifies this`runs, this`vmcs
      ensures launched == old(launched)
      ensures cur == old(cur) && active == old(active)
      ensures Valid() && r in runs && r in vmcs
      ensures vmcs == old(vmcs)[r := Fields(runs[r].cr3, runs[r].fs, runs[r].gs, hostFs)]
      ensures runs == old(runs)[r := old(runs)[r].(cache := vmcs[r], cached := true)]
    {
      vmcs := vmcs[r := Written(runs[r], vmcs[r], hostFs)];
      runs := runs[r := runs[r].(cache := Fields(runs[r].cr3, runs[r].fs, runs[r].gs, hostFs), cached := true)];
    }

    /** The guest runs, moves its FS and GS bases and exits; both are read back and cached. */
    method RunGuest(r: RunId, fs: nat, gs: nat)
      requires Valid() && r in runs && runs[r].loadedCpu != -1
      modifies this`runs, this`vmcs, this`launched
      ensures cur == old(cur) && active == old(active)
      ensures Valid() && r in runs
      ensures runs == old(runs)[r := runs[r]]
      ensures runs[r].loadedCpu == old(runs)[r].loadedCpu && runs[r].cr3 == old(runs)[r].cr3
      ensures runs[r].fs == fs && runs[r].gs == gs
      ensures r in old(vmcs) && vmcs == old(vmcs)[r := old(vmcs)[r].(fs := fs, gs := gs)]
    {
      var run := runs[r];
      vmcs := vmcs[r := vmcs[r].(fs := fs, gs := gs)];
      launched := launched + {r};
      runs := runs[r := run.(fs := fs, gs := gs, cache := run.cache.(fs := fs, gs := gs), launched := true)];
    }

    /** The VM entry: it fails and changes nothing, or the guest runs. */
    method TryRun(r: RunId, entryOk: bool, fs: nat, gs: nat)
      requires Valid() && r in runs && runs[r].loadedCpu != -1
      modifies this`runs, this`vmcs, this`launched
      ensures cur == old(cur) && active == old(active)
      ensures Valid() && r in runs && r in vmcs && r in old(vmcs)
      ensures runs == old(runs)[r := runs[r]] && vmcs == old(vmcs)[r := vmcs[r]]
      ensures Registers(runs[r]) == if entryOk then (old(runs)[r].cr3, fs, gs) else Registers(old(runs)[r])
    {
      if entryOk {
        RunGuest(r, fs, gs);
      }
    }

    /** vmx_run_free(): no CPU has the VMCS active when its page is freed. */
    method Free(r: RunId)
      requires Valid() && r in runs
      modifies this
      ensures Valid() && Inactive(active, r) && runs == old(runs) - {r}
    {
      Release(r);
      runs, vmcs := runs - {r}, vmcs - {r};
    }
  }

  // ---- entries on many CPUs ----

  /**
   * Where a CPU is inside the non-preemptible section of vmx_enter_once(), for which run, and the
   * fields the entry is to run with.
   */
  datatype Stage =
    | Entering(run: RunId, wanted: Fields)
    | Loaded(run: RunId, wanted: Fields)
    | Ready(run: RunId, wanted: Fields)
    | Exited(run: RunId)

  ghost predicate RunIs(run: Run, wanted: Fields) {
    run.cr3 == wanted.cr3 && run.fs == wanted.fs && run.gs == wanted.gs
  }

  ghost predicate StageHolds(cur: map<Cpu, RunId>, runs: map<RunId, Run>, vmcs: map<RunId, Fields>, c: Cpu, st: Stage) {
    && 0 <= c && st.run in runs && st.run in vmcs
    && match st
       case Entering(r, wanted) => c !in cur && RunIs(runs[r], wanted)
       case Loaded(r, wanted) => c in cur && cur[c] == r && RunIs(runs[r], wanted)
       case Ready(r, wanted) => c in cur && cur[c] == r && vmcs[r] == wanted
       case Exited(r) => c in cur ==> cur[c] == r
  }

  /** Every CPU's stage holds, one CPU a run, and no CPU outside a section has a VMCS. */
  ghost predicate StagesHold(
    cur: map<Cpu, RunId>, runs: map<RunId, Run>, vmcs: map<RunId, Fields>, stages: map<Cpu, Stage>)
  {
    && (forall c | c in stages :: StageHolds(cur, runs, vmcs, c, stages[c]))
    && (forall c, d | c in stages && d in stages && c != d :: stages[c].run != stages[d].run)
    && (forall c | c in cur :: c in stages)
  }

  /** What one CPU does to its own run and its own vmx_cur disturbs no other CPU's stage. */
  lemma OtherStagesHold(
    cur: map<Cpu, RunId>, runs: map<RunId, Run>, vmcs: map<RunId, Fields>, stages: map<Cpu, Stage>,
    cur': map<Cpu, RunId>, run: Run, image: Fields, c: Cpu, st: Stage)
    requires StagesHold(cur, runs, vmcs, stages) && cur' - {c} == cur - {c}
    requires forall d | d in stages && d != c :: stages[d].run != st.run
    requires StageHolds(cur', runs[st.run := run], vmcs[st.run := image], c, st)
    ensures StagesHold(cur', runs[st.run := run], vmcs[st.run := image], stages[c := st])
  {
    forall d | d in cur'
      ensures d in stages[c := st]
    {
      if d != c {
        assert d in cur' - {c};
      }
    }
    forall d | d in stages && d != c
      ensures StageHolds(cur', runs[st.run := run], vmcs[st.run := image], d, stages[d])
    {
      assert d in cur' - {c} <==> d in cur - {c};
      if d in cur {
        assert (cur' - {c})[d] == (cur - {c})[d];
      }
    }
  }

  /** Releasing the run of c and leaving its section keeps every other CPU's stage. */
  lemma LeftStagesHold(cur: map<Cpu, RunId>, runs: map<RunId, Run>, vmcs: map<RunId, Fields>, stages: map<Cpu, Stage>, c: Cpu)
    requires Linked(cur, runs) && StagesHold(cur, runs, vmcs, stages) && c in stages
    ensures var r := stages[c].run;
            && c !in cur - {runs[r].loadedCpu}
            && StagesHold(cur - {runs[r].loadedCpu}, runs[r := Unloaded(runs[r])], vmcs, stages - {c})
  {
    var r := stages[c].run;
    assert runs[r].loadedCpu == -1 || runs[r].loadedCpu == c;
  }

  /** Changing a run outside every section disturbs no stage. */
  lemma OutsideStagesHold(
    cur: map<Cpu, RunId>, runs: map<RunId, Run>, vmcs: map<RunId, Fields>, stages: map<Cpu, Stage>, r: RunId, run: Run)
    requires StagesHold(cur, runs, vmcs, stages) && forall c | c in stages :: stages[c].run != r
    ensures StagesHold(cur, runs[r := run], vmcs, stages)
  {
  }

  /** A run whose CPU has not loaded it yet is loaded nowhere. */
  lemma EnteringIsUnloaded(cur: map<Cpu, RunId>, runs: map<RunId, Run>, vmcs: map<RunId, Fields>, stages: map<Cpu, Stage>, c: Cpu)
    requires Linked(cur, runs) && StagesHold(cur, runs, vmcs, stages) && c in stages && c !in cur
    ensures runs[stages[c].run].loadedCpu == -1
  {
  }

  /** An entry ran with the fields asked for, and VMRESUME exactly for a launched VMCS. */
  predicate Right(e: Entry) {
    e.fields == e.wanted && (e.resume <==> e.hardwareLaunched)
  }

  /** Only run r changed, and its guest registers did not. */
  ghost predicate KeepsRegisters(runs: map<RunId, Run>, runs': map<RunId, Run>, r: RunId) {
    OnlyRun(runs, runs', r) && Registers(runs'[r]) == Registers(runs[r])
  }

  /** Only run r changed since the start. */
  ghost predicate OnlyRun(runs: map<RunId, Run>, runs': map<RunId, Run>, r: RunId) {
    r in runs && r in runs' && runs' == runs[r := runs'[r]]
  }

  lemma OnlyRunAgain(a: map<RunId, Run>, b: map<RunId, Run>, c: map<RunId, Run>, r: RunId)
    requires OnlyRun(a, b, r) && OnlyRun(b, c, r)
    ensures OnlyRun(a, c, r)
  {
  }

  lemma Restaged(stages: map<Cpu, Stage>, c: Cpu, a: Stage, b: Stage)
    ensures stages[c := a][c := b] == stages[c := b]
  {
  }

  lemma Unstaged(stages: map<Cpu, Stage>, c: Cpu, a: Stage)
    requires c !in stages
    ensures stages[c := a] - {c} == stages
  {
  }

  /** A step of some CPU, with what the hardware and the guest make of it. */
  datatype Act =
    | DoRegisters(r: RunId, cr3: nat, fs: nat, gs: nat)
    | DoEnter(c: Cpu, r: RunId, hostFs: nat)
    | DoLoad(c: Cpu, clearOk: bool, loadOk: bool)
    | DoWrite(c: Cpu)
    | DoRun(c: Cpu, entryOk: bool, fs: nat, gs: nat)
    | DoLeave(c: Cpu)

  class Host {
    const machine: Machine
    var stages: map<Cpu, Stage>
    /** Every VM entry so far, on any CPU. */
    ghost var entries: seq<Entry>

    ghost predicate Valid()
      reads this, machine
    {
      && machine.Valid() && StagesHold(machine.cur, machine.runs, machine.vmcs, stages)
      && forall i | 0 <= i < |entries| :: Right(entries[i])
    }

    /** No CPU is inside a section for the run. */
    predicate Outside(r: RunId)
      reads this
    {
      forall c | c in stages :: stages[c].run != r
    }

    constructor (machine: Machine)
      requires machine.Valid() && machine.cur == map[]
      ensures Valid() && this.machine == machine && stages == map[] && entries == []
    {
      this.machine := machine;
      stages, entries := map[], [];
    }

    /** The exit handler, between entries, moves the guest's registers. */
    method SetRegisters(r: RunId, cr3: nat, fs: nat, gs: nat)
      requires Valid() && r in machine.runs && Outside(r)
      modifies machine`runs
      ensures Valid() && machine.runs == old(machine.runs)[r := old(machine.runs)[r].(cr3 := cr3, fs := fs, gs := gs)]
    {
      var run := machine.runs[r].(cr3 := cr3, fs := fs, gs := gs);
      OutsideStagesHold(machine.cur, machine.runs, machine.vmcs, stages, r, run);
      machine.runs := machine.runs[r := run];
    }

    /** preempt_disable(): the task, and its run, is in no other CPU's section. */
    method Enter(c: Cpu, r: RunId, hostFs: nat)
      requires Valid() && 0 <= c && c !in stages && r in machine.runs && Outside(r)
      modifies this`stages
      ensures entries == old(entries)
      ensures Valid()
      ensures var run := machine.runs[r];
              stages == old(stages)[c := Entering(r, Fields(run.cr3, run.fs, run.gs, hostFs))]
    {
      var run := machine.runs[r];
      var st := Entering(r, Fields(run.cr3, run.fs, run.gs, hostFs));
      OtherStagesHold(machine.cur, machine.runs, machine.vmcs, stages, machine.cur, run, machine.vmcs[r], c, st);
      assert machine.runs[r := run] == machine.runs && machine.vmcs[r := machine.vmcs[r]] == machine.vmcs;
      stages := stages[c := st];
    }

    /** vmx_make_current() in its section: it never has to disturb another CPU or another run. */
    method Load(c: Cpu, clearOk: bool, loadOk: bool) returns (ok: bool)
      requires Valid() && c in stages && stages[c].Entering?
      modifies this`stages, machine`cur, machine`runs, machine`active, machine`launched
      ensures entries == old(entries)
      ensures Valid() && (ok <==> clearOk && loadOk)
      ensures var st := old(stages)[c];
              stages == old(stages)[c := if ok then Loaded(st.run, st.wanted) else Exited(st.run)]
      ensures KeepsRegisters(old(machine.runs), machine.runs, old(stages)[c].run)
    {
      var st := stages[c];
      var r := st.run;
      ghost var cur, runs := machine.cur, machine.runs;
      EnteringIsUnloaded(cur, runs, machine.vmcs, stages, c);
      var result, disturbed := machine.MakeCurrent(c, r, clearOk, loadOk);
      assert !disturbed;
      ok := result == 1;
      var st' := if ok then Loaded(r, st.wanted) else Exited(r);
      assert machine.vmcs[r := machine.vmcs[r]] == machine.vmcs;
      assert machine.cur - {c} == cur - {c};
      OtherStagesHold(cur, runs, machine.vmcs, stages, machine.cur, machine.runs[r], machine.vmcs[r], c, st');
      stages := stages[c := st'];
    }

    /** The field writes. */
    method Write(c: Cpu)
      requires Valid() && c in stages && stages[c].Loaded?
      modifies this`stages, machine`runs, machine`vmcs
      ensures entries == old(entries)
      ensures Valid() && stages == old(stages)[c := Ready(old(stages)[c].run, old(stages)[c].wanted)]
      ensures KeepsRegisters(old(machine.runs), machine.runs, old(stages)[c].run)
    {
      var st := stages[c];
      var r := st.run;
      ghost var runs, vmcs := machine.runs, machine.vmcs;
      machine.WriteFields(r, st.wanted.hostFs);
      var st' := Ready(r, st.wanted);
      OtherStagesHold(machine.cur, runs, vmcs, stages, machine.cur, machine.runs[r], machine.vmcs[r], c, st');
      stages := stages[c := st'];
    }

    /** The VM entry and the read-back after its exit. */
    method Run(c: Cpu, entryOk: bool, fs: nat, gs: nat)
      requires Valid() && c in stages && stages[c].Ready?
      modifies this`stages, this`entries, machine`runs, machine`vmcs, machine`launched
      ensures Valid() && stages == old(stages)[c := Exited(old(stages)[c].run)]
      ensures |entries| == |old(entries)| + 1 && old(entries) < entries
      ensures entries[|old(entries)|].wanted == old(stages)[c].wanted
      ensures var r := old(stages)[c].run;
              && OnlyRun(old(machine.runs), machine.runs, r)
              && Registers(machine.runs[r]) == if entryOk then (old(machine.runs)[r].cr3, fs, gs) else Registers(old(machine.runs)[r])
    {
      var st := stages[c];
      var r := st.run;
      ghost var runs, vmcs := machine.runs, machine.vmcs;
      entries := entries + [Entry(st.wanted, machine.vmcs[r], machine.runs[r].launched, r in machine.launched)];
      machine.TryRun(r, entryOk, fs, gs);
      OtherStagesHold(machine.cur, runs, vmcs, stages, machine.cur, machine.runs[r], machine.vmcs[r], c, Exited(r));
      stages := stages[c := Exited(r)];
    }

    /** Every way out of the section: the VMCS is released before the CPU is preemptible again. */
    method Leave(c: Cpu)
      requires Valid() && c in stages
      modifies this`stages, machine`cur, machine`runs, machine`active, machine`launched
      ensures entries == old(entries)
      ensures Valid() && stages == old(stages) - {c}
      ensures Inactive(machine.active, old(stages)[c].run) && c !in machine.cur
      ensures KeepsRegisters(old(machine.runs), machine.runs, old(stages)[c].run)
    {
      var r := stages[c].run;
      ghost var cur, runs := machine.cur, machine.runs;
      machine.Release(r);
      LeftStagesHold(cur, runs, machine.vmcs, stages, c);
      stages := stages - {c};
    }

    /** The inside of the section, nothing interleaved. */
    method Inside(c: Cpu, clearOk: bool, loadOk: bool, entryOk: bool, fs: nat, gs: nat) returns (ret: int)
      requires Valid() && c in stages && stages[c].Entering?
      modifies this, machine
      ensures Valid() && stages == old(stages)[c := Exited(old(stages)[c].run)]
      ensures ret == if clearOk && loadOk && entryOk then 0 else EIO
      ensures entries == old(entries) <==> !(clearOk && loadOk)
      ensures var r := old(stages)[c].run;
              && OnlyRun(old(machine.runs), machine.runs, r)
              && Registers(machine.runs[r])
                 == if ret == 0 then (old(machine.runs)[r].cr3, fs, gs) else Registers(old(machine.runs)[r])
    {
      ghost var r, runs := stages[c].run, machine.runs;
      var ready := Prepare(c, clearOk, loadOk);
      if !ready {
        return EIO;
      }
      ghost var prepared, st := machine.runs, stages[c];
      Run(c, entryOk, fs, gs);
      OnlyRunAgain(runs, prepared, machine.runs, r);
      Restaged(old(stages), c, st, Exited(r));
      ret := if entryOk then 0 else EIO;
    }

    /** Load and write. */
    method Prepare(c: Cpu, clearOk: bool, loadOk: bool) returns (ok: bool)
      requires Valid() && c in stages && stages[c].Entering?
      modifies this`stages, machine
      ensures entries == old(entries)
      ensures Valid() && (ok <==> clearOk && loadOk)
      ensures var st := old(stages)[c];
              stages == old(stages)[c := if ok then Ready(st.run, st.wanted) else Exited(st.run)]
      ensures KeepsRegisters(old(machine.runs), machine.runs, old(stages)[c].run)
    {
      ghost var st, runs := stages[c], machine.runs;
      ok := Load(c, clearOk, loadOk);
      if ok {
        ghost var loaded := machine.runs;
        Write(c);
        OnlyRunAgain(runs, loaded, machine.runs, st.run);
        Restaged(old(stages), c, Loaded(st.run, st.wanted), Ready(st.run, st.wanted));
      }
    }

    /** The section from preempt_disable() to preempt_enable(), nothing interleaved. */
    method Section(c: Cpu, r: RunId, checks: int, clearOk: bool, loadOk: bool, hostFs: nat, entryOk: bool, fs: nat, gs: nat)
      returns (ret: int)
      requires Valid() && 0 <= c && c !in stages && r in machine.runs && Outside(r)
      modifies this, machine
      ensures Valid() && stages == old(stages) && Inactive(machine.active, r) && c !in machine.cur
      ensures ret == if checks != 0 then checks else if clearOk && loadOk && entryOk then 0 else EIO
      ensures entries == old(entries) <==> checks != 0 || !(clearOk && loadOk)
      ensures OnlyRun(old(machine.runs), machine.runs, r)
      ensures Registers(machine.runs[r])
              == if ret == 0 then (old(machine.runs)[r].cr3, fs, gs) else Registers(old(machine.runs)[r])
    {
      ret := checks;
      Enter(c, r, hostFs);
      ghost var entering := stages[c];
      if ret == 0 {
        ret := Inside(c, clearOk, loadOk, entryOk, fs, gs);
        Restaged(old(stages), c, entering, Exited(r));
      }
      ghost var runs, last := machine.runs, stages[c];
      Leave(c);
      OnlyRunAgain(old(machine.runs), runs, machine.runs, r);
      Unstaged(old(stages), c, last);
    }

    /**
     * vmx_enter_once() on CPU c, nothing interleaved: executionEnter and checks are what the steps
     * before the section and before vmx_make_current() returned.
     */
    method EnterOnce(c: Cpu, r: RunId, executionEnter: int, checks: int, clearOk: bool, loadOk: bool, hostFs: nat,
                     entryOk: bool, fs: nat, gs: nat) returns (ret: int)
      requires Valid() && 0 <= c && c !in stages && r in machine.runs && Outside(r)
      modifies this, machine
      ensures Valid() && stages == old(stages) && Inactive(machine.active, r) && c !in machine.cur
      ensures ret == if executionEnter != 0 then executionEnter
                     else if checks != 0 then checks
                     else if clearOk && loadOk && entryOk then 0 else EIO
      ensures entries == old(entries) <==> executionEnter != 0 || checks != 0 || !(clearOk && loadOk)
      ensures OnlyRun(old(machine.runs), machine.runs, r)
      ensures Registers(machine.runs[r])
              == if ret == 0 then (old(machine.runs)[r].cr3, fs, gs) else Registers(old(machine.runs)[r])
    {
      if executionEnter != 0 {
        OutsideIsInactive(r);
        return executionEnter;
      }
      ret := Section(c, r, checks, clearOk, loadOk, hostFs, entryOk, fs, gs);
    }

    /** Outside every section, so at every preemptible point, a run is active on no CPU. */
    lemma OutsideIsInactive(r: RunId)
      requires Valid() && Outside(r)
      ensures Inactive(machine.active, r)
    {
    }

    /** The step may be taken now. */
    predicate Enabled(a: Act)
      reads this, machine
    {
      match a
      case DoRegisters(r, _, _, _) => r in machine.runs && Outside(r)
      case DoEnter(c, r, _) => 0 <= c && c !in stages && r in machine.runs && Outside(r)
      case DoLoad(c, _, _) => c in stages && stages[c].Entering?
      case DoWrite(c) => c in stages && stages[c].Loaded?
      case DoRun(c, _, _, _) => c in stages && stages[c].Ready?
      case DoLeave(c) => c in stages
    }

    method Perform(a: Act)
      requires Valid() && Enabled(a)
      modifies this, machine
      ensures Valid() && old(entries) <= entries
    {
      match a
      case DoRegisters(r, cr3, fs, gs) => SetRegisters(r, cr3, fs, gs);
      case DoEnter(c, r, hostFs) => Enter(c, r, hostFs);
      case DoLoad(c, clearOk, loadOk) => var _ := Load(c, clearOk, loadOk);
      case DoWrite(c) => Write(c);
      case DoRun(c, entryOk, fs, gs) => Run(c, entryOk, fs, gs);
      case DoLeave(c) => Leave(c);
    }

    /**
     * Any schedule of stages on any number of CPUs, with any failures: every entry runs with the
     * fields of its own run and the right instruction, no VMCS is ever active on two CPUs, and none
     * is active for a run outside its section or on a CPU outside one.
     */
    method Interleave(schedule: seq<Act>)
      requires Valid()
      modifies this, machine
      ensures Valid() && old(entries) <= entries
      ensures forall i | 0 <= i < |entries| :: Right(entries[i])
      ensures forall r | Outside(r) :: Inactive(machine.active, r)
      ensures forall c | c !in stages :: c !in machine.cur
      ensures forall a, b | a in machine.active && b in machine.active :: a.cpu == b.cpu <==> a.run == b.run
    {
      for i := 0 to |schedule|
        invariant Valid() && old(entries) <= entries
      {
        if Enabled(schedule[i]) {
          Perform(schedule[i]);
        }
      }
      forall r | Outside(r)
        ensures Inactive(machine.active, r)
      {
        OutsideIsInactive(r);
      }
    }
  }
}
