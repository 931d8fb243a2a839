/**
 * The three-state futex mutex over the ownership segment: own_lock() and own_unlock().
 *
 * The lock word is 0 (free), 1 (held) or 2 (held, a sleeper may exist). Every atomic
 * instruction and every futex call is one step; FUTEX_WAIT is an atomic compare-and-sleep,
 * it may also return for no reason, and FUTEX_WAKE wakes one arbitrary sleeper.
 */
module FutexMutex {
  /** Where a thread stands in own_lock()/own_unlock(). */
  datatype Point =
    | Outside    // not using the lock
    | Contender  // about to exchange 2 into the word
    | Refused    // its exchange found the lock held; about to call FUTEX_WAIT
    | Asleep     // parked in FUTEX_WAIT
    | Holder     // own_lock() returned
    | OwesWake   // released a word of 2; about to call FUTEX_WAKE

  datatype State = State(word: nat, threads: seq<Point>)

  datatype Step =
    | CompareExchange(t: nat)
    | Exchange(t: nat)
    | FutexWait(t: nat)
    | SpuriousWake(t: nat)
    | Unlock(t: nat)
    | FutexWakeNobody(t: nat)
    | FutexWakeOne(t: nat, sleeper: nat)

  predicate Initial(s: State) {
    s.word == 0 && forall t | 0 <= t < |s.threads| :: s.threads[t] == Outside
  }

  predicate At(s: State, t: nat, point: Point) {
    t < |s.threads| && s.threads[t] == point
  }

  predicate Some(s: State, point: Point) {
    exists t | 0 <= t < |s.threads| :: s.threads[t] == point
  }

  predicate Enabled(s: State, step: Step) {
    match step
    case CompareExchange(t) => At(s, t, Outside)
    case Exchange(t) => At(s, t, Contender)
    case FutexWait(t) => At(s, t, Refused)
    case SpuriousWake(t) => At(s, t, Asleep)
    case Unlock(t) => At(s, t, Holder)
    case FutexWakeNobody(t) => At(s, t, OwesWake) && !Some(s, Asleep)
    case FutexWakeOne(t, sleeper) => At(s, t, OwesWake) && At(s, sleeper, Asleep)
  }

  function Apply(s: State, step: Step): State
    requires Enabled(s, step)
  {
    match step
    case CompareExchange(t) =>
      if s.word == 0 then State(1, s.threads[t := Holder]) else State(s.word, s.threads[t := Contender])
    case Exchange(t) => State(2, s.threads[t := if s.word == 0 then Holder else Refused])
    case FutexWait(t) => State(s.word, s.threads[t := if s.word == 2 then Asleep else Contender])
    case SpuriousWake(t) => State(s.word, s.threads[t := Contender])
    case Unlock(t) => State(0, s.threads[t := if s.word == 2 then OwesWake else Outside])
    case FutexWakeNobody(t) => State(s.word, s.threads[t := Outside])
    case FutexWakeOne(t, sleeper) => State(s.word, s.threads[t := Outside][sleeper := Contender])
  }

  /** One holder at most, and the word says whether there is one. */
  ghost predicate Exclusive(s: State) {
    && s.word <= 2
    && (s.word == 0 <==> !Some(s, Holder))
    && (forall t, u | 0 <= t < u < |s.threads| :: !(s.threads[t] == Holder && s.threads[u] == Holder))
  }

  /** Somebody is bound to notice the sleepers. */
  ghost predicate Watched(s: State) {
    s.word == 2 || Some(s, OwesWake) || Some(s, Contender)
  }

  ghost predicate Inv(s: State) {
    Exclusive(s) && (Some(s, Asleep) ==> Watched(s))
  }

  /** A step moves only its own thread, and FUTEX_WAKE one sleeper. */
  lemma OthersStay(s: State, step: Step, point: Point)
    requires Enabled(s, step) && Some(s, point)
    requires s.threads[step.t] != point
    requires step.FutexWakeOne? ==> point != Asleep
    ensures Some(Apply(s, step), point)
  {
    var x :| 0 <= x < |s.threads| && s.threads[x] == point;
    assert Apply(s, step).threads[x] == point;
  }

  lemma StepExclusive(s: State, step: Step)
    requires Inv(s) && Enabled(s, step)
    ensures Exclusive(Apply(s, step))
  {
    var s' := Apply(s, step);
    if step.Unlock? {
      assert !Some(s', Holder);
    } else if Some(s, Holder) {
      OthersStay(s, step, Holder);
    } else {
      assert s'.word != 0 ==> s'.threads[step.t] == Holder;
    }
  }

  lemma StepWatched(s: State, step: Step)
    requires Inv(s) && Enabled(s, step) && Some(Apply(s, step), Asleep)
    ensures Watched(Apply(s, step))
  {
    var s' := Apply(s, step);
    var moved := if step.FutexWakeOne? then step.sleeper else step.t;
    if s'.threads[moved] !in {Contender, OwesWake} && s'.word != 2 {
      assert Some(s, Asleep);
      if Some(s, OwesWake) {
        OthersStay(s, step, OwesWake);
      } else {
        OthersStay(s, step, Contender);
      }
    }
  }

  ghost predicate IsRun(s: State, steps: seq<Step>)
    decreases |steps|
  {
    steps == [] || (Enabled(s, steps[0]) && IsRun(Apply(s, steps[0]), steps[1..]))
  }

  ghost function After(s: State, steps: seq<Step>): State
    requires IsRun(s, steps)
    decreases |steps|
  {
    if steps == [] then s else After(Apply(s, steps[0]), steps[1..])
  }

  lemma {:induction false} RunInv(s: State, steps: seq<Step>)
    requires Inv(s) && IsRun(s, steps)
    ensures Inv(After(s, steps))
    decreases |steps|
  {
    if steps != [] {
      StepExclusive(s, steps[0]);
      if Some(Apply(s, steps[0]), Asleep) {
        StepWatched(s, steps[0]);
      }
      RunInv(Apply(s, steps[0]), steps[1..]);
    }
  }

  /** Mutual exclusion and no stranded sleeper, in every reachable state. */
  lemma LockIsSafe(s: State, steps: seq<Step>)
    requires Initial(s) && IsRun(s, steps)
    ensures Exclusive(After(s, steps))
    ensures Some(After(s, steps), Asleep) ==> Watched(After(s, steps))
  {
    RunInv(s, steps);
  }

  // ---- a sleeper can always still get the lock ----

  lemma {:induction false} Snoc(s: State, steps: seq<Step>, last: Step)
    requires IsRun(s, steps) && Enabled(After(s, steps), last)
    ensures IsRun(s, steps + [last]) && After(s, steps + [last]) == Apply(After(s, steps), last)
    decreases |steps|
  {
    if steps == [] {
      assert IsRun(Apply(s, last), []);
    } else {
      assert (steps + [last])[1..] == steps[1..] + [last];
      Snoc(Apply(s, steps[0]), steps[1..], last);
    }
  }

  /** A run in which nobody wakes without being woken. */
  ghost predicate NoSpurious(steps: seq<Step>) {
    forall i | 0 <= i < |steps| :: !steps[i].SpuriousWake?
  }

  /** The next thing somebody awake can do for the sleepers; repeated, it wakes thread x. */
  lemma WakeSchedule(s: State, x: nat) returns (steps: seq<Step>)
    requires Inv(s) && At(s, x, Asleep)
    ensures IsRun(s, steps) && NoSpurious(steps) && At(After(s, steps), x, Contender)
    decreases if Some(s, OwesWake) then 0 else if s.word == 2 then 1 else if s.word == 0 then 2 else 3
  {
    var step: Step;
    if Some(s, OwesWake) {
      var u :| 0 <= u < |s.threads| && s.threads[u] == OwesWake;
      step := FutexWakeOne(u, x);
      assert IsRun(Apply(s, step), []);
      return [step];
    } else if s.word != 0 {
      var h :| 0 <= h < |s.threads| && s.threads[h] == Holder;
      step := Unlock(h);
      assert s.word == 2 ==> Apply(s, step).threads[h] == OwesWake;
    } else {
      var y :| 0 <= y < |s.threads| && s.threads[y] == Contender;
      step := Exchange(y);
    }
    assert Apply(s, step).threads[x] == Asleep;
    StepExclusive(s, step);
    StepWatched(s, step);
    var rest := WakeSchedule(Apply(s, step), x);
    steps := [step] + rest;
    assert steps[1..] == rest;
  }

  /** From every reachable state, the other threads' own steps can bring sleeper x to hold the lock. */
  lemma SleeperCanAcquire(s: State, x: nat) returns (steps: seq<Step>)
    requires Inv(s) && At(s, x, Asleep)
    ensures IsRun(s, steps) && NoSpurious(steps) && At(After(s, steps), x, Holder)
  {
    steps := WakeSchedule(s, x);
    RunInv(s, steps);
    var s' := After(s, steps);
    if s'.word != 0 {
      var h :| 0 <= h < |s'.threads| && s'.threads[h] == Holder;
      Snoc(s, steps, Unlock(h));
      steps := steps + [Unlock(h)];
    }
    Snoc(s, steps, Exchange(x));
    steps := steps + [Exchange(x)];
  }

  /** Sleeping is real too: while one thread holds the lock, another's own steps put it to sleep with the word at 2. */
  lemma ContenderCanSleep(s: State, h: nat, x: nat) returns (steps: seq<Step>)
    requires Inv(s) && At(s, h, Holder) && At(s, x, Outside)
    ensures IsRun(s, steps)
    ensures At(After(s, steps), x, Asleep) && At(After(s, steps), h, Holder) && After(s, steps).word == 2
  {
    Snoc(s, [], CompareExchange(x));
    Snoc(s, [CompareExchange(x)], Exchange(x));
    Snoc(s, [CompareExchange(x), Exchange(x)], FutexWait(x));
    steps := [CompareExchange(x), Exchange(x), FutexWait(x)];
    assert [] + [CompareExchange(x)] == [CompareExchange(x)];
    assert [CompareExchange(x)] + [Exchange(x)] == [CompareExchange(x), Exchange(x)];
    assert [CompareExchange(x), Exchange(x)] + [FutexWait(x)] == steps;
  }

  /** A free lock is taken at the first attempt, and given back by its holder's unlock. */
  lemma FreeLockIsTaken(s: State, t: nat)
    requires Inv(s) && s.word == 0 && At(s, t, Outside)
    ensures var held := Apply(s, CompareExchange(t));
            At(held, t, Holder) && held.word == 1 && Apply(held, Unlock(t)) == s
  {
  }
}
