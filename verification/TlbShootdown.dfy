/**
 * Guest-TLB shootdown by generation: vmctx_kick_guests() against svm_vmrun_once_gpr().
 *
 * A take unmaps a frame, bumps the generation, reads the count of running guests and, if it
 * is not zero, sends an IPI to every other CPU and waits. An entry counts itself in, reads
 * the generation and arms a flush when its CPU has not recorded that generation yet. The
 * model interleaves these steps over any number of CPUs and of concurrent takes. IPIs are
 * acknowledged only with interrupts enabled, and a guest with an IPI pending may still
 * execute any number of instructions before it exits.
 */
module TlbShootdown {
  type Frame = nat
  type Page = nat

  /** A cached translation, with the number of unmaps completed when it was walked. */
  datatype Translation = Translation(page: Page, frame: Frame, walked: nat)

  /** Host: interrupts enabled. All other points lie inside local_irq_save/restore. */
  datatype CpuPoint = Host | IrqsOff | CountedIn | Checked | InGuest | Exited

  datatype Cpu = Cpu(point: CpuPoint, recorded: nat, armed: bool, tlb: set<Translation>)

  datatype TakePoint = Unmapped | Bumped | MustSend | Waiting(acked: set<nat>) | Returned

  datatype Take = Take(frame: Frame, unmapAt: nat, bump: nat, point: TakePoint)

  datatype State = State(
    gen: nat, running: int, cpus: seq<Cpu>, takes: seq<Take>,
    table: map<Page, Frame>, retired: set<Frame>, unmaps: nat, memory: map<Frame, int>)

  datatype Step =
    | MapPage(p: Page, f: Frame)
    | DisableIrqs(c: nat)
    | EnableIrqs(c: nat)
    | CountIn(c: nat)
    | CheckGeneration(c: nat)
    | Vmrun(c: nat, standingFlush: bool)
    | Walk(c: nat, p: Page)
    | Store(c: nat, via: Translation, value: int)
    | Vmexit(c: nat)
    | CountOut(c: nat)
    | Unmap(f: Frame)
    | BumpGeneration(t: nat)
    | ReadRunning(t: nat)
    | SendIpis(t: nat, self: nat)
    | Acknowledge(t: nat, c: nat)
    | ReturnFromKick(t: nat)
  {
    predicate CpuStep() {
      DisableIrqs? || EnableIrqs? || CountIn? || CheckGeneration? || Vmrun? || Walk? || Vmexit? || CountOut?
    }

    predicate TakeStep() {
      BumpGeneration? || ReadRunning? || SendIpis? || Acknowledge? || ReturnFromKick?
    }
  }

  predicate Initial(s: State) {
    && s.gen == 1 && s.running == 0 && s.takes == [] && s.retired == {} && s.unmaps == 0
    && (forall c | 0 <= c < |s.cpus| ::
          s.cpus[c].point == Host && s.cpus[c].recorded == 0 && !s.cpus[c].armed && s.cpus[c].tlb == {})
  }

  predicate AtPoint(s: State, c: nat, point: CpuPoint) {
    c < |s.cpus| && s.cpus[c].point == point
  }

  predicate TakeAt(s: State, t: nat, point: TakePoint) {
    t < |s.takes| && s.takes[t].point == point
  }

  predicate Enabled(s: State, step: Step) {
    match step
    case MapPage(_, f) => f !in s.retired
    case DisableIrqs(c) => AtPoint(s, c, Host)
    case EnableIrqs(c) => AtPoint(s, c, IrqsOff)
    case CountIn(c) => AtPoint(s, c, IrqsOff)
    case CheckGeneration(c) => AtPoint(s, c, CountedIn)
    case Vmrun(c, _) => AtPoint(s, c, Checked)
    case Walk(c, p) => AtPoint(s, c, InGuest) && p in s.table
    case Store(c, via, _) => AtPoint(s, c, InGuest) && via in s.cpus[c].tlb
    case Vmexit(c) => AtPoint(s, c, InGuest)
    case CountOut(c) => AtPoint(s, c, Exited)
    case Unmap(f) => f !in s.retired
    case BumpGeneration(t) => TakeAt(s, t, Unmapped)
    case ReadRunning(t) => TakeAt(s, t, Bumped)
    case SendIpis(t, self) => TakeAt(s, t, MustSend) && AtPoint(s, self, Host)
    case Acknowledge(t, c) =>
      t < |s.takes| && s.takes[t].point.Waiting? && AtPoint(s, c, Host)
    case ReturnFromKick(t) =>
      t < |s.takes| && s.takes[t].point.Waiting? && forall c | 0 <= c < |s.cpus| :: c in s.takes[t].point.acked
  }

  function SetCpu(s: State, c: nat, cpu: Cpu): State
    requires c < |s.cpus|
  {
    s.(cpus := s.cpus[c := cpu])
  }

  function SetTake(s: State, t: nat, point: TakePoint): State
    requires t < |s.takes|
  {
    s.(takes := s.takes[t := s.takes[t].(point := point)])
  }

  function MoveTo(s: State, c: nat, point: CpuPoint): State
    requires c < |s.cpus|
  {
    SetCpu(s, c, s.cpus[c].(point := point))
  }

  function Apply(s: State, step: Step): State
    requires Enabled(s, step)
  {
    match step
    case MapPage(p, f) => s.(table := s.table[p := f])
    case DisableIrqs(c) => MoveTo(s, c, IrqsOff)
    case EnableIrqs(c) => MoveTo(s, c, Host)
    case CountIn(c) => MoveTo(s, c, CountedIn).(running := s.running + 1)
    case CheckGeneration(c) =>
      var cpu := s.cpus[c];
      if cpu.recorded != s.gen
      then SetCpu(s, c, cpu.(point := Checked, recorded := s.gen, armed := true))
      else MoveTo(s, c, Checked)
    case Vmrun(c, standingFlush) =>
      var cpu := s.cpus[c];
      var tlb := if cpu.armed || standingFlush then {} else cpu.tlb;
      SetCpu(s, c, cpu.(point := InGuest, armed := false, tlb := tlb))
    case Walk(c, p) =>
      var cpu := s.cpus[c];
      SetCpu(s, c, cpu.(tlb := cpu.tlb + {Translation(p, s.table[p], s.unmaps)}))
    case Store(_, via, value) => s.(memory := s.memory[via.frame := value])
    case Vmexit(c) => MoveTo(s, c, Exited)
    case CountOut(c) => MoveTo(s, c, IrqsOff).(running := s.running - 1)
    case Unmap(f) =>
      s.(table := map p | p in s.table && s.table[p] != f :: s.table[p],
         retired := s.retired + {f}, unmaps := s.unmaps + 1,
         takes := s.takes + [Take(f, s.unmaps + 1, 0, Unmapped)])
    case BumpGeneration(t) =>
      s.(gen := s.gen + 1, takes := s.takes[t := s.takes[t].(bump := s.gen + 1, point := Bumped)])
    case ReadRunning(t) => SetTake(s, t, if s.running <= 0 then Returned else MustSend)
    case SendIpis(t, self) => SetTake(s, t, Waiting({self}))
    case Acknowledge(t, c) => SetTake(s, t, Waiting(s.takes[t].point.acked + {c}))
    case ReturnFromKick(t) => SetTake(s, t, Returned)
  }

  /** Between atomic_inc and atomic_dec of the running count. */
  predicate InSection(cpu: Cpu) {
    cpu.point in {CountedIn, Checked, InGuest, Exited}
  }

  /** Inside the section and past the generation check. */
  predicate PastCheck(cpu: Cpu) {
    cpu.point in {Checked, InGuest, Exited}
  }

  function Section(s: State): set<nat> {
    set c: nat | c < |s.cpus| && InSection(s.cpus[c])
  }

  /** The take's bump is published. */
  predicate Published(take: Take) {
    !take.point.Unmapped?
  }

  /** The take knows that CPU c was outside the section, or had not checked, after its bump. */
  predicate Cleared(take: Take, c: nat) {
    take.point.Returned? || (take.point.Waiting? && c in take.point.acked)
  }

  ghost predicate WellFormed(s: State) {
    && s.running == |Section(s)|
    && (forall c | 0 <= c < |s.cpus| :: s.cpus[c].armed ==> s.cpus[c].point == Checked)
    && (forall c | 0 <= c < |s.cpus| :: s.cpus[c].recorded <= s.gen)
    && (forall t | 0 <= t < |s.takes| :: s.takes[t].unmapAt <= s.unmaps && s.takes[t].frame in s.retired)
    && (forall t | 0 <= t < |s.takes| :: Published(s.takes[t]) ==> 1 <= s.takes[t].bump <= s.gen)
    && (forall p | p in s.table :: s.table[p] !in s.retired)
    && (forall c, tr | 0 <= c < |s.cpus| && tr in s.cpus[c].tlb :: tr.walked <= s.unmaps)
  }

  /** A frame leaves the tables for good, so its translations are older than its unmap. */
  ghost predicate OldTranslations(cpus: seq<Cpu>, takes: seq<Take>) {
    forall c, t, tr | 0 <= c < |cpus| && 0 <= t < |takes| && tr in cpus[c].tlb ::
      tr.frame == takes[t].frame ==> tr.walked < takes[t].unmapAt
  }

  /** A CPU whose recorded generation covers a take holds nothing walked before its unmap. */
  ghost predicate RecordedIsFlushed(cpus: seq<Cpu>, takes: seq<Take>) {
    forall c, t, tr | 0 <= c < |cpus| && 0 <= t < |takes| && tr in cpus[c].tlb ::
      Published(takes[t]) && takes[t].bump <= cpus[c].recorded && !cpus[c].armed
      ==> takes[t].unmapAt <= tr.walked
  }

  /** Every CPU a take has cleared runs its guest with at least the take's generation. */
  ghost predicate ClearedIsRecorded(cpus: seq<Cpu>, takes: seq<Take>) {
    forall c, t | 0 <= c < |cpus| && 0 <= t < |takes| ::
      Cleared(takes[t], c) && PastCheck(cpus[c]) ==> takes[t].bump <= cpus[c].recorded
  }

  ghost predicate Inv(s: State) {
    && WellFormed(s)
    && OldTranslations(s.cpus, s.takes)
    && RecordedIsFlushed(s.cpus, s.takes)
    && ClearedIsRecorded(s.cpus, s.takes)
  }

  // ---- every step keeps the invariant ----

  /** Replacing one CPU changes the section by that CPU alone. */
  lemma SectionAfter(s: State, c: nat, cpu: Cpu)
    requires c < |s.cpus|
    ensures Section(SetCpu(s, c, cpu)) == if InSection(cpu) then Section(s) + {c} else Section(s) - {c}
  {
  }

  lemma InitialInv(s: State)
    requires Initial(s)
    ensures Inv(s)
  {
    assert Section(s) == {};
  }

  /** What a step on CPU c may do to that CPU. */
  ghost predicate CpuMayBecome(s: State, cpu: Cpu, cpu': Cpu) {
    && (cpu'.armed ==> cpu'.point == Checked)
    && cpu'.recorded <= s.gen
    && (PastCheck(cpu') ==> cpu'.recorded == s.gen || (PastCheck(cpu) && cpu'.recorded == cpu.recorded))
    && (forall tr | tr in cpu'.tlb :: tr in cpu.tlb || (tr.walked == s.unmaps && tr.frame !in s.retired))
    && (cpu'.tlb == {} || cpu'.armed || (cpu'.recorded == cpu.recorded && !cpu.armed))
  }

  lemma CpuChangeTranslations(s: State, c: nat, cpu': Cpu)
    requires Inv(s) && c < |s.cpus| && CpuMayBecome(s, s.cpus[c], cpu')
    ensures OldTranslations(s.cpus[c := cpu'], s.takes)
    ensures RecordedIsFlushed(s.cpus[c := cpu'], s.takes)
  {
  }

  lemma CpuChangeCleared(s: State, c: nat, cpu': Cpu)
    requires Inv(s) && c < |s.cpus| && CpuMayBecome(s, s.cpus[c], cpu')
    ensures ClearedIsRecorded(s.cpus[c := cpu'], s.takes)
  {
  }

  lemma CpuChangeInv(s: State, c: nat, cpu': Cpu, running: int)
    requires Inv(s) && c < |s.cpus| && CpuMayBecome(s, s.cpus[c], cpu')
    requires running == s.running + (if InSection(cpu') then 1 else 0) - (if InSection(s.cpus[c]) then 1 else 0)
    ensures Inv(SetCpu(s, c, cpu').(running := running))
  {
    var s' := SetCpu(s, c, cpu');
    SectionAfter(s, c, cpu');
    assert Section(s'.(running := running)) == Section(s');
    assert InSection(s.cpus[c]) <==> c in Section(s);
    CpuChangeTranslations(s, c, cpu');
    CpuChangeCleared(s, c, cpu');
  }

  lemma CpuStepInv(s: State, step: Step)
    requires Inv(s) && Enabled(s, step) && step.CpuStep()
    ensures Inv(Apply(s, step))
  {
    var s' := Apply(s, step);
    assert s' == SetCpu(s, step.c, s'.cpus[step.c]).(running := s'.running);
    CpuChangeInv(s, step.c, s'.cpus[step.c], s'.running);
  }

  /** What a step of take t may do to that take and the generation. */
  lemma TakeChangeInv(s: State, t: nat, take': Take, gen: nat)
    requires Inv(s) && t < |s.takes| && s.gen <= gen
    requires take'.frame == s.takes[t].frame && take'.unmapAt == s.takes[t].unmapAt
    requires if take'.point.Bumped? then take'.bump == gen > s.gen
             else take'.bump == s.takes[t].bump && Published(s.takes[t]) && Published(take')
    requires forall c | 0 <= c < |s.cpus| ::
               Cleared(take', c) ==> Cleared(s.takes[t], c) || !PastCheck(s.cpus[c])
    ensures Inv(s.(gen := gen, takes := s.takes[t := take']))
  {
    var s' := s.(gen := gen, takes := s.takes[t := take']);
    assert Section(s') == Section(s);
  }

  lemma NobodyInside(s: State)
    requires WellFormed(s) && s.running <= 0
    ensures forall c | 0 <= c < |s.cpus| :: !InSection(s.cpus[c])
  {
    forall c | 0 <= c < |s.cpus|
      ensures !InSection(s.cpus[c])
    {
      assert c !in Section(s);
    }
  }

  lemma TakeStepInv(s: State, step: Step)
    requires Inv(s) && Enabled(s, step) && step.TakeStep()
    ensures Inv(Apply(s, step))
  {
    var s' := Apply(s, step);
    if step.ReadRunning? && s.running <= 0 {
      NobodyInside(s);
    }
    TakeChangeInv(s, step.t, s'.takes[step.t], s'.gen);
    assert s' == s.(gen := s'.gen, takes := s.takes[step.t := s'.takes[step.t]]);
  }

  lemma UnmapInv(s: State, f: Frame)
    requires Inv(s) && f !in s.retired
    ensures Inv(Apply(s, Unmap(f)))
  {
    assert Section(Apply(s, Unmap(f))) == Section(s);
  }

  lemma StepInv(s: State, step: Step)
    requires Inv(s) && Enabled(s, step)
    ensures Inv(Apply(s, step))
  {
    if step.CpuStep() {
      CpuStepInv(s, step);
    } else if step.TakeStep() {
      TakeStepInv(s, step);
    } else if step.Unmap? {
      UnmapInv(s, step.f);
    } else {
      assert Section(Apply(s, step)) == Section(s);
    }
  }

  // ---- whole runs ----

  ghost predicate IsRun(s: State, steps: seq<Step>)
    decreases |steps|
  {
    steps == [] || (Enabled(s, steps[0]) && IsRun(Apply(s, steps[0]), steps[1..]))
  }

  ghost function After(s: State, steps: seq<Step>): State
    requires IsRun(s, steps)
    decreases |steps|
  {
    if steps == [] then s else After(Apply(s, steps[0]), steps[1..])
  }

  lemma {:induction false} RunInv(s: State, steps: seq<Step>)
    requires Inv(s) && IsRun(s, steps)
    ensures Inv(After(s, steps))
    decreases |steps|
  {
    if steps != [] {
      StepInv(s, steps[0]);
      RunInv(Apply(s, steps[0]), steps[1..]);
    }
  }

  /** The take's frame is out of reach: no guest holds any translation walked before its unmap. */
  ghost predicate Sealed(s: State, t: nat)
    requires t < |s.takes|
  {
    forall c, tr | 0 <= c < |s.cpus| && s.cpus[c].point == InGuest && tr in s.cpus[c].tlb ::
      s.takes[t].unmapAt <= tr.walked && tr.frame != s.takes[t].frame
  }

  lemma ReturnedIsSealed(s: State, t: nat)
    requires Inv(s) && t < |s.takes| && s.takes[t].point.Returned?
    ensures Sealed(s, t)
  {
  }

  /** The bytes a frame holds, if it was ever written. */
  ghost function Bytes(s: State, f: Frame): set<int> {
    if f in s.memory then {s.memory[f]} else {}
  }

  lemma ReturnedStep(s: State, t: nat, step: Step)
    requires t < |s.takes| && s.takes[t].point.Returned? && Sealed(s, t) && Enabled(s, step)
    ensures t < |Apply(s, step).takes| && Apply(s, step).takes[t] == s.takes[t]
    ensures Bytes(Apply(s, step), s.takes[t].frame) == Bytes(s, s.takes[t].frame)
  {
  }

  /**
   * Once a kick has returned, in every continuation of every run: no CPU can execute a guest
   * instruction through a translation walked before the take's unmap, and the frame's bytes
   * never change again. The copy the take makes therefore holds every store ever made.
   */
  lemma {:induction false} KickReturnedIsFinal(s: State, t: nat, steps: seq<Step>)
    requires Inv(s) && IsRun(s, steps)
    requires t < |s.takes| && s.takes[t].point.Returned?
    ensures t < |After(s, steps).takes| && After(s, steps).takes[t] == s.takes[t]
    ensures Sealed(After(s, steps), t)
    ensures Bytes(After(s, steps), s.takes[t].frame) == Bytes(s, s.takes[t].frame)
    decreases |steps|
  {
    ReturnedIsSealed(s, t);
    if steps != [] {
      ReturnedStep(s, t, steps[0]);
      StepInv(s, steps[0]);
      KickReturnedIsFinal(Apply(s, steps[0]), t, steps[1..]);
    }
  }

  /** The same from the start: whatever ran before the kick returned and whatever runs after. */
  lemma NoStaleAccess(s: State, before: seq<Step>, t: nat, after: seq<Step>)
    requires Initial(s) && IsRun(s, before) && IsRun(After(s, before), after)
    requires t < |After(s, before).takes| && After(s, before).takes[t].point.Returned?
    ensures var end := After(After(s, before), after);
            && t < |end.takes| && Sealed(end, t)
            && Bytes(end, end.takes[t].frame) == Bytes(After(s, before), end.takes[t].frame)
  {
    InitialInv(s);
    RunInv(s, before);
    KickReturnedIsFinal(After(s, before), t, after);
  }

  // ---- a kick can always return ----

  lemma {:induction false} Append(s: State, a: seq<Step>, b: seq<Step>)
    requires IsRun(s, a) && IsRun(After(s, a), b)
    ensures IsRun(s, a + b) && After(s, a + b) == After(After(s, a), b)
    decreases |a|
  {
    if a == [] {
      assert a + b == b;
    } else {
      Append(Apply(s, a[0]), a[1..], b);
      assert (a + b)[1..] == a[1..] + b;
    }
  }

  lemma One(s: State, step: Step)
    requires Enabled(s, step)
    ensures IsRun(s, [step]) && After(s, [step]) == Apply(s, step)
  {
    assert [step][1..] == [];
  }

  /** What a CPU still has to do to be back in the host with interrupts enabled. */
  function WayHome(point: CpuPoint): nat {
    match point
    case Host => 0
    case IrqsOff => 1
    case Exited => 2
    case InGuest => 3
    case Checked => 4
    case CountedIn => 5
  }

  function StepHome(point: CpuPoint, c: nat): Step
    requires point != Host
  {
    match point
    case IrqsOff => EnableIrqs(c)
    case Exited => CountOut(c)
    case InGuest => Vmexit(c)
    case Checked => Vmrun(c, false)
    case CountedIn => CheckGeneration(c)
  }

  /** A CPU can go home by its own steps, which no take notices but in the running count. */
  lemma {:induction false} BringHome(s: State, c: nat) returns (steps: seq<Step>)
    requires c < |s.cpus|
    ensures IsRun(s, steps) && AtPoint(After(s, steps), c, Host)
    ensures After(s, steps).takes == s.takes && |After(s, steps).cpus| == |s.cpus|
    decreases WayHome(s.cpus[c].point)
  {
    if s.cpus[c].point == Host {
      steps := [];
    } else {
      var step := StepHome(s.cpus[c].point, c);
      One(s, step);
      var rest := BringHome(Apply(s, step), c);
      Append(s, [step], rest);
      steps := [step] + rest;
    }
  }

  /** CPU by CPU, the IPI is acknowledged from k on. */
  lemma {:induction false} AcknowledgeFrom(s: State, t: nat, k: nat) returns (steps: seq<Step>)
    requires t < |s.takes| && s.takes[t].point.Waiting? && k <= |s.cpus|
    ensures IsRun(s, steps)
    ensures var e := After(s, steps);
            && |e.cpus| == |s.cpus| && |e.takes| == |s.takes| && e.takes[t].point.Waiting?
            && s.takes[t].point.acked <= e.takes[t].point.acked
            && forall c | k <= c < |s.cpus| :: c in e.takes[t].point.acked
    decreases |s.cpus| - k
  {
    if k == |s.cpus| {
      steps := [];
    } else {
      var home := BringHome(s, k);
      var s1 := After(s, home);
      One(s1, Acknowledge(t, k));
      Append(s, home, [Acknowledge(t, k)]);
      var rest := AcknowledgeFrom(Apply(s1, Acknowledge(t, k)), t, k + 1);
      Append(s, home + [Acknowledge(t, k)], rest);
      steps := home + [Acknowledge(t, k)] + rest;
    }
  }

  /** Steps the kick itself still has to take. */
  function KickLeft(point: TakePoint): nat {
    match point
    case Unmapped => 4
    case Bumped => 3
    case MustSend => 2
    case Waiting(_) => 1
    case Returned => 0
  }

  /** From every state with a CPU, some run of the CPUs and of this kick completes it. */
  lemma {:induction false} KickCanReturn(s: State, t: nat) returns (steps: seq<Step>)
    requires t < |s.takes| && |s.cpus| > 0
    ensures IsRun(s, steps) && t < |After(s, steps).takes| && After(s, steps).takes[t].point.Returned?
    decreases KickLeft(s.takes[t].point)
  {
    var point := s.takes[t].point;
    if point.Returned? {
      return [];
    }
    var next: Step;
    match point {
      case Unmapped => steps, next := [], BumpGeneration(t);
      case Bumped => steps, next := [], ReadRunning(t);
      case MustSend =>
        steps := BringHome(s, 0);
        next := SendIpis(t, 0);
      case Waiting(_) =>
        steps := AcknowledgeFrom(s, t, 0);
        next := ReturnFromKick(t);
    }
    var ready := After(s, steps);
    One(ready, next);
    Append(s, steps, [next]);
    var rest := KickCanReturn(Apply(ready, next), t);
    Append(s, steps + [next], rest);
    steps := steps + [next] + rest;
  }

  /**
   * Until the kick returns the danger is real: one CPU in its guest can still store through a
   * translation walked before the unmap, so the theorem above is not about guests that never run.
   */
  lemma StaleStoreBeforeKick(s: State, p: Page, f: Frame, value: int) returns (steps: seq<Step>)
    requires Initial(s) && |s.cpus| == 1 && s.table == map[]
    ensures IsRun(s, steps)
    ensures var e := After(s, steps);
            && |e.takes| == 1 && e.takes[0].frame == f && e.takes[0].point == Unmapped && p !in e.table
            && AtPoint(e, 0, InGuest) && Translation(p, f, 0) in e.cpus[0].tlb
            && f in e.memory && e.memory[f] == value
  {
    var entry := [MapPage(p, f), DisableIrqs(0), CountIn(0), CheckGeneration(0), Vmrun(0, false)];
    var s1 := Apply(s, entry[0]);
    var s2 := Apply(s1, entry[1]);
    var s3 := Apply(s2, entry[2]);
    var s4 := Apply(s3, entry[3]);
    One(s, entry[0]);
    One(s1, entry[1]);
    Append(s, [entry[0]], [entry[1]]);
    One(s2, entry[2]);
    Append(s, [entry[0]] + [entry[1]], [entry[2]]);
    One(s3, entry[3]);
    Append(s, [entry[0]] + [entry[1]] + [entry[2]], [entry[3]]);
    One(s4, entry[4]);
    Append(s, [entry[0]] + [entry[1]] + [entry[2]] + [entry[3]], [entry[4]]);
    steps := [entry[0]] + [entry[1]] + [entry[2]] + [entry[3]] + [entry[4]];
    var g := After(s, steps);
    assert AtPoint(g, 0, InGuest) && g.table == map[p := f] && g.unmaps == 0 && g.retired == {} && g.takes == [];
    var more := StoreAfterUnmap(g, p, f, value);
    Append(s, steps, more);
    steps := steps + more;
  }

  lemma StoreAfterUnmap(s: State, p: Page, f: Frame, value: int) returns (steps: seq<Step>)
    requires AtPoint(s, 0, InGuest) && s.table == map[p := f] && s.unmaps == 0 && s.retired == {} && s.takes == []
    ensures IsRun(s, steps)
    ensures var e := After(s, steps);
            && |e.takes| == 1 && e.takes[0].frame == f && e.takes[0].point == Unmapped && p !in e.table
            && AtPoint(e, 0, InGuest) && Translation(p, f, 0) in e.cpus[0].tlb
            && f in e.memory && e.memory[f] == value
  {
    var s1 := Apply(s, Walk(0, p));
    var s2 := Apply(s1, Unmap(f));
    One(s, Walk(0, p));
    One(s1, Unmap(f));
    Append(s, [Walk(0, p)], [Unmap(f)]);
    One(s2, Store(0, Translation(p, f, 0), value));
    Append(s, [Walk(0, p)] + [Unmap(f)], [Store(0, Translation(p, f, 0), value)]);
    steps := [Walk(0, p)] + [Unmap(f)] + [Store(0, Translation(p, f, 0), value)];
  }
}
