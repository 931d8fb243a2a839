/**
 * One record of the source registry: source-registry.h. Threads borrow references, query the
 * native context outside the lock and publish their results under it in any order; the last
 * reference retires the record. Each step below is one critical section or one native call.
 */
module SourceRegistry {
  import opened Basics
  const UINT_MAX: nat := 0xffff_ffff

  /** A native INFO result; `rest` stands for the fields the registry only stores. */
  datatype Info = Info(mm: nat, ended: bool, rest: int)

  /** One observed address space of the context, newest last. */
  datatype Bound = Bound(mm: nat, epoch: nat)

  datatype Record = Record(
    info: Info, chain: seq<Bound>, refs: nat, retiring: bool, claimed: bool, infoError: bool, closes: nat)

  datatype Cached = Stored(record: Record) | Ignored | Rejected

  /** source_record_cache(): an older result cannot undo a newer one or a terminal record. */
  function Cache(r: Record, info: Info, memoryOk: bool): Cached {
    if r.info.ended then Ignored
    else if info.mm < r.info.mm then (if info.ended then Rejected else Ignored)
    else if info.mm != 0 && (r.chain == [] || info.mm != r.chain[|r.chain| - 1].mm) then
      if (r.chain != [] && r.chain[|r.chain| - 1].epoch == U64_MAX) || !memoryOk then Rejected
      else
        var epoch := if r.chain == [] then 1 else r.chain[|r.chain| - 1].epoch + 1;
        Stored(r.(info := info, chain := r.chain + [Bound(info.mm, epoch)]))
    else Stored(r.(info := info))
  }

  function Apply(r: Record, c: Cached): Record {
    if c.Stored? then c.record else r
  }

  datatype Step =
    | Get
    | Claim
    | PublishInfo(info: Info, memoryOk: bool)
    | Put
    | CloseNative
    | FinishPut(queried: bool, info: Info, memoryOk: bool)

  /** A caller of Claim names any id; every other step needs a reference or the retirement. */
  predicate Enabled(r: Record, step: Step) {
    match step
    case Get => true
    case Claim => true
    case PublishInfo(_, _) => r.refs > 0
    case Put => r.refs > 0
    case CloseNative => r.retiring && r.closes == 0
    case FinishPut(_, _, _) => r.retiring && r.closes == 1
  }

  function Perform(r: Record, step: Step): Record
    requires Enabled(r, step)
  {
    match step
    case Get => if r.refs == 0 || r.retiring || r.refs == UINT_MAX then r else r.(refs := r.refs + 1)
    case Claim => if r.refs == 0 || r.retiring then r else r.(claimed := true)
    case PublishInfo(info, memoryOk) => Apply(r, Cache(r, info, memoryOk))
    case Put => r.(refs := r.refs - 1, retiring := r.refs == 1)
    case CloseNative => r.(closes := r.closes + 1)
    case FinishPut(queried, info, memoryOk) =>
      var c := Cache(r, info, memoryOk);
      (if queried then Apply(r, c) else r).(retiring := false, infoError := !queried || c.Rejected?)
  }

  /** Epochs 1, 2, 3, ... with strictly increasing MM ids, ending in the cached MM. */
  ghost predicate ChainOk(info: Info, chain: seq<Bound>) {
    && (forall i | 0 <= i < |chain| :: chain[i].epoch == i + 1 && chain[i].mm != 0)
    && (forall i, j | 0 <= i < j < |chain| :: chain[i].mm < chain[j].mm)
    && (if chain == [] then info.mm == 0 else info.mm == chain[|chain| - 1].mm)
  }

  ghost predicate Inv(r: Record) {
    && ChainOk(r.info, r.chain)
    && (r.refs > 0 ==> r.closes == 0 && !r.retiring)
    && r.closes <= 1
    && (r.refs == 0 && !r.retiring ==> r.closes == 1)
  }

  /** What every later moment keeps of an earlier one. */
  ghost predicate Later(r: Record, s: Record) {
    && r.info.mm <= s.info.mm
    && |r.chain| <= |s.chain| && s.chain[..|r.chain|] == r.chain
    && (r.info.ended ==> s.info == r.info && s.chain == r.chain)
    && (r.refs == 0 ==> s.refs == 0)
    && r.closes <= s.closes
    && (r.claimed ==> s.claimed)
  }

  /** A younger MM opens the next epoch. */
  lemma ChainGrows(info: Info, chain: seq<Bound>, info': Info)
    requires ChainOk(info, chain) && info.mm < info'.mm
    ensures ChainOk(info', chain + [Bound(info'.mm, |chain| + 1)])
  {
    var grown := chain + [Bound(info'.mm, |chain| + 1)];
    forall i, j | 0 <= i < j < |grown|
      ensures grown[i].mm < grown[j].mm
    {
      if j == |chain| && i < |chain| - 1 {
        assert chain[i].mm < chain[|chain| - 1].mm;
      }
    }
  }

  lemma CacheInv(r: Record, info: Info, memoryOk: bool)
    requires ChainOk(r.info, r.chain)
    ensures var s := Apply(r, Cache(r, info, memoryOk));
            && ChainOk(s.info, s.chain)
            && r.info.mm <= s.info.mm
            && |r.chain| <= |s.chain| && s.chain[..|r.chain|] == r.chain
            && (r.info.ended ==> s == r)
            && s == r.(info := s.info, chain := s.chain)
  {
    var s := Apply(r, Cache(r, info, memoryOk));
    if s.chain != r.chain {
      ChainGrows(r.info, r.chain, info);
      assert s == r.(info := info, chain := r.chain + [Bound(info.mm, |r.chain| + 1)]);
    } else {
      assert s.info.mm == r.info.mm;
      assert r.chain[..|r.chain|] == r.chain;
    }
  }

  /** Each answer of the cache, told by age and termination; what is stored is the result itself. */
  lemma CacheAnswers(r: Record, info: Info, memoryOk: bool)
    requires ChainOk(r.info, r.chain)
    ensures var c := Cache(r, info, memoryOk);
            var full := |r.chain| == U64_MAX || !memoryOk;
            && (c.Ignored? <==> r.info.ended || (info.mm < r.info.mm && !info.ended))
            && (c.Rejected? <==> !r.info.ended && ((info.mm < r.info.mm && info.ended) || (r.info.mm < info.mm && full)))
            && (c.Stored? <==> !r.info.ended && (info.mm == r.info.mm || (r.info.mm < info.mm && !full)))
            && (c.Stored? ==> c.record.info == info
                              && c.record.chain == r.chain + if r.info.mm < info.mm then [Bound(info.mm, |r.chain| + 1)] else [])
  {
    assert r.chain + [] == r.chain;
  }

  /** The result a step stores, if it stores one. */
  function Accepted(r: Record, step: Step): Option<Info> {
    if (step.PublishInfo? || (step.FinishPut? && step.queried)) && Cache(r, step.info, step.memoryOk).Stored?
    then Some(step.info) else None
  }

  /**
   * What each step does to the record besides the chain: references, retirement, the one claim, the
   * descriptor, the terminal error; and the record shows a result exactly if the step accepted it.
   */
  lemma StepEffects(r: Record, step: Step)
    requires Inv(r) && Enabled(r, step)
    ensures var s := Perform(r, step);
            && s.info == (if Accepted(r, step).Some? then Accepted(r, step).value else r.info)
            && s.refs == r.refs + (if step.Get? && r.refs > 0 && r.refs != UINT_MAX then 1 else 0) - (if step.Put? then 1 else 0)
            && (s.retiring <==> (r.retiring && !step.FinishPut?) || (step.Put? && r.refs == 1))
            && (s.claimed <==> r.claimed || (step.Claim? && r.refs > 0))
            && s.closes == r.closes + (if step.CloseNative? then 1 else 0)
            && (step.FinishPut? ==> (s.infoError <==> !step.queried || Cache(r, step.info, step.memoryOk).Rejected?))
            && (!step.FinishPut? ==> s.infoError == r.infoError)
  {
    if step.PublishInfo? || step.FinishPut? {
      CacheInv(r, step.info, step.memoryOk);
      CacheAnswers(r, step.info, step.memoryOk);
    }
  }

  lemma StepInv(r: Record, step: Step)
    requires Inv(r) && Enabled(r, step)
    ensures Inv(Perform(r, step)) && Later(r, Perform(r, step))
  {
    if step.PublishInfo? || step.FinishPut? {
      CacheInv(r, step.info, step.memoryOk);
    } else {
      assert Perform(r, step).info == r.info && Perform(r, step).chain == r.chain;
      assert r.chain[..|r.chain|] == r.chain;
    }
  }

  ghost predicate IsRun(r: Record, steps: seq<Step>)
    decreases |steps|
  {
    steps == [] || (Enabled(r, steps[0]) && IsRun(Perform(r, steps[0]), steps[1..]))
  }

  ghost function After(r: Record, steps: seq<Step>): Record
    requires IsRun(r, steps)
    decreases |steps|
  {
    if steps == [] then r else After(Perform(r, steps[0]), steps[1..])
  }

  /** Over every interleaving: the chain only grows, snapshots never go back, terminal is final. */
  lemma {:induction false} RegistryIsMonotone(r: Record, steps: seq<Step>)
    requires Inv(r) && IsRun(r, steps)
    ensures Inv(After(r, steps)) && Later(r, After(r, steps))
    decreases |steps|
  {
    if steps != [] {
      StepInv(r, steps[0]);
      RegistryIsMonotone(Perform(r, steps[0]), steps[1..]);
    }
  }

  /** The results a run accepts, in order. */
  ghost function AcceptedIn(r: Record, steps: seq<Step>): seq<Info>
    requires IsRun(r, steps)
    decreases |steps|
  {
    if steps == [] then []
    else
      var rest := AcceptedIn(Perform(r, steps[0]), steps[1..]);
      match Accepted(r, steps[0])
      case Some(info) => [info] + rest
      case None => rest
  }

  /** From the record's own result on, MM ids never fall, and nothing follows a terminal result. */
  ghost predicate Progress(infos: seq<Info>) {
    && (forall i, j | 0 <= i < j < |infos| :: infos[i].mm <= infos[j].mm)
    && (forall i | 0 <= i < |infos| - 1 :: !infos[i].ended)
  }

  lemma ProgressCons(info: Info, infos: seq<Info>)
    requires Progress(infos) && infos != [] && info.mm <= infos[0].mm && !info.ended
    ensures Progress([info] + infos)
  {
    var all := [info] + infos;
    forall i, j | 0 <= i < j < |all|
      ensures all[i].mm <= all[j].mm
    {
      if i == 0 && j > 1 {
        assert infos[0].mm <= infos[j - 1].mm;
      }
    }
  }

  /**
   * Over every interleaving the record shows the last result it accepted, which is terminal once a
   * terminal one was accepted; and accepted results only ever progress.
   */
  lemma {:induction false} RecordShowsLastAccepted(r: Record, steps: seq<Step>)
    requires Inv(r) && IsRun(r, steps)
    ensures var shown := [r.info] + AcceptedIn(r, steps);
            Progress(shown) && After(r, steps).info == shown[|shown| - 1]
    decreases |steps|
  {
    if steps != [] {
      var s := Perform(r, steps[0]);
      StepInv(r, steps[0]);
      StepEffects(r, steps[0]);
      RecordShowsLastAccepted(s, steps[1..]);
      if Accepted(r, steps[0]).Some? {
        CacheAnswers(r, steps[0].info, steps[0].memoryOk);
        var rest := AcceptedIn(s, steps[1..]);
        ProgressCons(r.info, [s.info] + rest);
        assert [r.info] + AcceptedIn(r, steps) == [r.info] + ([s.info] + rest);
      }
    }
  }

  /** Claims a run grants: the caller gets the birth's reference. */
  ghost function ClaimsIn(r: Record, steps: seq<Step>): nat
    requires IsRun(r, steps)
    decreases |steps|
  {
    if steps == [] then 0
    else ClaimsIn(Perform(r, steps[0]), steps[1..]) + if steps[0].Claim? && r.refs > 0 && !r.retiring && !r.claimed then 1 else 0
  }

  /** A birth is claimed by one connection at most. */
  lemma {:induction false} ClaimedAtMostOnce(r: Record, steps: seq<Step>)
    requires Inv(r) && IsRun(r, steps)
    ensures ClaimsIn(r, steps) <= if r.claimed then 0 else 1
    decreases |steps|
  {
    if steps != [] {
      StepInv(r, steps[0]);
      StepEffects(r, steps[0]);
      ClaimedAtMostOnce(Perform(r, steps[0]), steps[1..]);
    }
  }

  /** source_record_add(): the first INFO result is cached before the record becomes visible. */
  function NewRecord(info: Info): Record {
    Apply(Record(Info(0, false, 0), [], 1, false, false, false, 0), Cache(Record(Info(0, false, 0), [], 1, false, false, false, 0), info, true))
  }

  lemma NewRecordInv(info: Info)
    ensures Inv(NewRecord(info)) && NewRecord(info).refs == 1 && NewRecord(info).info == info
    ensures NewRecord(info).chain == if info.mm == 0 then [] else [Bound(info.mm, 1)]
  {
  }

  /** source_record_has_binding(). */
  method HasBinding(r: Record, mm: nat, epoch: nat) returns (found: bool)
    ensures found <==> mm != 0 && epoch != 0 && Bound(mm, epoch) in r.chain
  {
    found := false;
    if mm != 0 && epoch != 0 {
      var i := |r.chain|;
      while i > 0 && !found
        invariant 0 <= i <= |r.chain|
        invariant found <==> Bound(mm, epoch) in r.chain[i..]
      {
        i := i - 1;
        found := r.chain[i] == Bound(mm, epoch);
      }
      assert !found ==> r.chain[i..] == r.chain;
    }
  }

  /** A published binding stays valid for ever, and names its MM for ever. */
  lemma BindingStaysValid(r: Record, steps: seq<Step>, b: Bound, c: Bound)
    requires Inv(r) && IsRun(r, steps) && b in r.chain
    requires c in After(r, steps).chain && c.epoch == b.epoch
    ensures c == b && b in After(r, steps).chain
  {
    RegistryIsMonotone(r, steps);
    var i :| 0 <= i < |r.chain| && r.chain[i] == b;
    assert After(r, steps).chain[i] == r.chain[i];
  }

  /** The descriptor is closed at most once, never under a reference, and before retirement ends. */
  lemma ClosesExactlyOnce(info: Info, steps: seq<Step>)
    requires IsRun(NewRecord(info), steps)
    ensures var r := After(NewRecord(info), steps);
            r.closes <= 1 && (r.refs > 0 ==> r.closes == 0) && (r.refs == 0 && !r.retiring ==> r.closes == 1)
  {
    NewRecordInv(info);
    RegistryIsMonotone(NewRecord(info), steps);
  }
}
