/**
 * One entry of the ownership segment: own_begin(), own_land(), own_abort(), own_forget() and
 * own_wait(), over any number of threads.
 *
 * The field updates of begin, land, abort and forget run under the segment mutex, whose
 * exclusion is proved in FutexMutex, so each is one step. Everything outside the mutex (the
 * waiter count, the load of gen, both futex calls) is a step of its own. FUTEX_WAIT is an
 * atomic compare-and-sleep; it may time out or return for no reason.
 */
module OwnWake {
  datatype Site = NowhereYet | Home | Remote
  datatype Transit = Idle | ToHome | ToRemote

  /** The futex word is 32 bits wide and counts landings. */
  const GEN_MODULUS: nat := 0x1_0000_0000

  function Gen(landings: nat): (g: nat)
    ensures g < GEN_MODULUS
  {
    landings % GEN_MODULUS
  }

  /** Where a thread stands. `since` is the landing count when its begin found the entry busy. */
  datatype Point =
    | Free
    | Claimed(to: Transit)   // own_begin() returned CLAIMED for this transition
    | Told(since: nat)       // own_begin() returned BUSY with Gen(since)
    | Reading(since: nat)    // counted in waiters; about to load gen
    | Parking(since: nat)    // loaded its own gen; about to call FUTEX_WAIT
    | Asleep(since: nat)
    | Leaving(landed: bool, since: nat)  // about to count itself out and answer: it landed, or the bound
    | Landed                 // bumped gen; about to load the waiter count
    | Waking                 // loaded a non-zero count; about to call FUTEX_WAKE

  datatype State = State(
    site: Site, transit: Transit, landings: nat, waiters: int, threads: seq<Point>, revoked: bool)

  datatype Step =
    | Begin(t: nat, to: Transit)
    | DropAnswer(t: nat)
    | CountIn(t: nat)
    | LoadGen(t: nat)
    | GiveUp(t: nat)
    | FutexWait(t: nat)
    | FutexReturns(t: nat)
    | CountOut(t: nat)
    | Land(t: nat, site: Site)
    | Abort(t: nat)
    | Forget(t: nat)
    | LoadWaiters(t: nat)
    | FutexWakeAll(t: nat)

  predicate Initial(s: State) {
    && s.site == NowhereYet && s.transit == Idle && s.landings == 0 && s.waiters == 0 && !s.revoked
    && forall t | 0 <= t < |s.threads| :: s.threads[t] == Free
  }

  predicate Enabled(s: State, step: Step) {
    && step.t < |s.threads|
    && var point := s.threads[step.t];
       match step
       case Begin(_, to) => point.Free? && to != Idle
       case DropAnswer(_) => point.Told?
       case CountIn(_) => point.Told?
       case LoadGen(_) => point.Reading?
       case GiveUp(_) => point.Parking?
       case FutexWait(_) => point.Parking?
       case FutexReturns(_) => point.Asleep?
       case CountOut(_) => point.Leaving?
       case Land(_, _) => point.Claimed?
       case Abort(_) => point.Claimed?
       case Forget(_) => point.Free?
       case LoadWaiters(_) => point.Landed?
       case FutexWakeAll(_) => point.Waking?
  }

  function Woken(point: Point): Point {
    if point.Asleep? then Reading(point.since) else point
  }

  /** Thread t moves to `point`; the entry's fields are those of `s`. */
  function MoveTo(s: State, t: nat, point: Point): State
    requires t < |s.threads|
  {
    s.(threads := s.threads[t := point])
  }

  /** The transition ends, the landing count moves, and thread t owes the wake. */
  function EndTransit(s: State, t: nat, site: Site): State
    requires t < |s.threads|
  {
    MoveTo(s, t, Landed).(site := site, transit := Idle, landings := s.landings + 1)
  }

  function Apply(s: State, step: Step): State
    requires Enabled(s, step)
  {
    var t := step.t;
    match step
    case Begin(_, to) =>
      if s.transit != Idle then MoveTo(s, t, Told(s.landings)) else MoveTo(s, t, Claimed(to)).(transit := to)
    case DropAnswer(_) => MoveTo(s, t, Free)
    case CountIn(_) => MoveTo(s, t, Reading(s.threads[t].since)).(waiters := s.waiters + 1)
    case LoadGen(_) =>
      var since := s.threads[t].since;
      MoveTo(s, t, if Gen(s.landings) != Gen(since) then Leaving(true, since) else Parking(since))
    case GiveUp(_) => MoveTo(s, t, Leaving(false, s.threads[t].since))
    case FutexWait(_) =>
      var since := s.threads[t].since;
      MoveTo(s, t, if Gen(s.landings) == Gen(since) then Asleep(since) else Reading(since))
    case FutexReturns(_) => MoveTo(s, t, Reading(s.threads[t].since))
    case CountOut(_) => MoveTo(s, t, Free).(waiters := s.waiters - 1)
    case Land(_, site) => EndTransit(s, t, site)
    case Abort(_) => if s.transit != Idle then EndTransit(s, t, s.site) else MoveTo(s, t, Free)
    case Forget(_) => EndTransit(s, t, NowhereYet).(revoked := s.revoked || s.transit != Idle)
    case LoadWaiters(_) => MoveTo(s, t, if s.waiters != 0 then Waking else Free)
    case FutexWakeAll(_) =>
      s.(threads := seq(|s.threads|, i requires 0 <= i < |s.threads| => if i == t then Free else Woken(s.threads[i])))
  }

  predicate IsCounted(point: Point) {
    point.Reading? || point.Parking? || point.Asleep? || point.Leaving?
  }

  function Counted(threads: seq<Point>): set<nat> {
    set t: nat | t < |threads| && IsCounted(threads[t])
  }

  predicate HasTicket(point: Point) {
    point.Told? || point.Reading? || point.Parking? || point.Asleep?
  }

  /** A lander that has bumped gen and has not yet finished waking. */
  predicate SomeLander(threads: seq<Point>) {
    exists u | 0 <= u < |threads| :: threads[u].Landed? || threads[u].Waking?
  }

  /** A sleeper on a generation the entry has left has a lander coming. */
  ghost predicate NoLostWakeup(threads: seq<Point>, landings: nat) {
    forall t | 0 <= t < |threads| && threads[t].Asleep? ::
      Gen(threads[t].since) == Gen(landings) || SomeLander(threads)
  }

  /** A BUSY answer names a transition that is in flight or has ended since. */
  ghost predicate TicketsHold(threads: seq<Point>, landings: nat, transit: Transit) {
    forall t | 0 <= t < |threads| && HasTicket(threads[t]) ::
      threads[t].since <= landings && (threads[t].since == landings ==> transit != Idle)
  }

  /** The entry is in transit exactly while one thread has claimed it. */
  ghost predicate ClaimExclusive(threads: seq<Point>, transit: Transit) {
    && (forall t, u | 0 <= t < u < |threads| :: !(threads[t].Claimed? && threads[u].Claimed?))
    && (transit != Idle <==> exists t | 0 <= t < |threads| :: threads[t].Claimed?)
    && (forall t | 0 <= t < |threads| && threads[t].Claimed? :: threads[t].to == transit)
  }

  /** A wait that answers "it landed" has seen a landing since its BUSY answer. */
  ghost predicate AnswersTrue(threads: seq<Point>, landings: nat) {
    forall t | 0 <= t < |threads| && threads[t].Leaving? && threads[t].landed :: threads[t].since < landings
  }

  ghost predicate Inv(s: State) {
    && s.waiters == |Counted(s.threads)|
    && NoLostWakeup(s.threads, s.landings)
    && TicketsHold(s.threads, s.landings, s.transit)
    && AnswersTrue(s.threads, s.landings)
    && (!s.revoked ==> ClaimExclusive(s.threads, s.transit))
  }

  lemma CountedAfter(threads: seq<Point>, t: nat, point: Point)
    requires t < |threads|
    ensures Counted(threads[t := point])
            == if IsCounted(point) then Counted(threads) + {t} else Counted(threads) - {t}
    ensures t in Counted(threads) <==> IsCounted(threads[t])
  {
  }

  /** One thread's move changes the number of counted threads by that thread alone. */
  lemma CountedSize(threads: seq<Point>, t: nat, point: Point)
    requires t < |threads|
    ensures |Counted(threads[t := point])|
            == |Counted(threads)| + (if IsCounted(point) then 1 else 0) - (if IsCounted(threads[t]) then 1 else 0)
  {
    CountedAfter(threads, t, point);
    var before := Counted(threads);
    if IsCounted(point) && !IsCounted(threads[t]) {
      assert |before + {t}| == |before| + 1;
    } else if !IsCounted(point) && IsCounted(threads[t]) {
      assert |before - {t}| == |before| - 1;
    } else {
      assert Counted(threads[t := point]) == before;
    }
  }

  lemma StepMoves(s: State, step: Step)
    requires Enabled(s, step) && !step.FutexWakeAll?
    ensures var s' := Apply(s, step); var t := step.t;
            && |s'.threads| == |s.threads| && s'.threads == s.threads[t := s'.threads[t]]
            && s'.waiters
               == s.waiters + (if IsCounted(s'.threads[t]) then 1 else 0) - (if IsCounted(s.threads[t]) then 1 else 0)
  {
  }

  lemma StepCount(s: State, step: Step)
    requires Inv(s) && Enabled(s, step)
    ensures Apply(s, step).waiters == |Counted(Apply(s, step).threads)|
  {
    var s' := Apply(s, step);
    if step.FutexWakeAll? {
      assert Counted(s'.threads) == Counted(s.threads);
    } else {
      StepMoves(s, step);
      CountedSize(s.threads, step.t, s'.threads[step.t]);
    }
  }

  lemma StepNoLostWakeup(s: State, step: Step)
    requires Inv(s) && Enabled(s, step)
    ensures NoLostWakeup(Apply(s, step).threads, Apply(s, step).landings)
  {
    var s' := Apply(s, step);
    if s'.threads[step.t].Landed? || s'.threads[step.t].Waking? || step.FutexWakeAll? {
    } else if step.LoadWaiters? {
      forall t | 0 <= t < |s.threads|
        ensures !s.threads[t].Asleep?
      {
        assert t !in Counted(s.threads);
      }
    } else if SomeLander(s.threads) {
      var u :| 0 <= u < |s.threads| && (s.threads[u].Landed? || s.threads[u].Waking?);
      assert s'.threads[u] == s.threads[u];
    }
  }

  lemma StepTickets(s: State, step: Step)
    requires Inv(s) && Enabled(s, step)
    ensures TicketsHold(Apply(s, step).threads, Apply(s, step).landings, Apply(s, step).transit)
  {
  }

  lemma StepAnswers(s: State, step: Step)
    requires Inv(s) && Enabled(s, step)
    ensures AnswersTrue(Apply(s, step).threads, Apply(s, step).landings)
  {
  }

  lemma StepClaims(s: State, step: Step)
    requires Inv(s) && Enabled(s, step) && !Apply(s, step).revoked
    ensures ClaimExclusive(Apply(s, step).threads, Apply(s, step).transit)
  {
    var s' := Apply(s, step);
    if step.Begin? && s.transit == Idle {
      assert s'.threads[step.t].Claimed?;
      assert forall u | 0 <= u < |s.threads| && u != step.t :: s'.threads[u] == s.threads[u] && !s.threads[u].Claimed?;
    } else if step.Land? || step.Abort? || step.Forget? {
      assert forall u | 0 <= u < |s.threads| :: u != step.t ==> !s.threads[u].Claimed?;
    } else {
      SameClaims(s.threads, s'.threads, s.transit);
    }
  }

  lemma SameClaims(threads: seq<Point>, threads': seq<Point>, transit: Transit)
    requires ClaimExclusive(threads, transit) && |threads'| == |threads|
    requires forall u | 0 <= u < |threads| :: threads[u].Claimed? || threads'[u].Claimed? ==> threads'[u] == threads[u]
    ensures ClaimExclusive(threads', transit)
  {
    if t :| 0 <= t < |threads| && threads[t].Claimed? {
      assert threads'[t].Claimed?;
    }
  }

  lemma StepInv(s: State, step: Step)
    requires Inv(s) && Enabled(s, step)
    ensures Inv(Apply(s, step))
  {
    StepCount(s, step);
    StepNoLostWakeup(s, step);
    StepTickets(s, step);
    StepAnswers(s, step);
    if !Apply(s, step).revoked {
      StepClaims(s, step);
    }
  }

  ghost predicate IsRun(s: State, steps: seq<Step>)
    decreases |steps|
  {
    steps == [] || (Enabled(s, steps[0]) && IsRun(Apply(s, steps[0]), steps[1..]))
  }

  ghost function After(s: State, steps: seq<Step>): State
    requires IsRun(s, steps)
    decreases |steps|
  {
    if steps == [] then s else After(Apply(s, steps[0]), steps[1..])
  }

  lemma {:induction false} RunInv(s: State, steps: seq<Step>)
    requires Inv(s) && IsRun(s, steps)
    ensures Inv(After(s, steps))
    decreases |steps|
  {
    if steps != [] {
      StepInv(s, steps[0]);
      RunInv(Apply(s, steps[0]), steps[1..]);
    }
  }

  /** Generations 2^32 landings apart are the only ones the futex word confuses. */
  lemma GenDiffers(since: nat, landings: nat)
    requires since <= landings < since + GEN_MODULUS
    ensures Gen(since) == Gen(landings) <==> since == landings
  {
  }

  /**
   * In every reachable state, a thread asleep in own_wait() for fewer than 2^32 landings is
   * either waiting for a transition that is still in flight (and owned by a claimer, unless
   * own_forget() revoked it), or a lander is about to wake it: one that has yet to load the
   * waiter count, which is then not zero, or one that is already at its FUTEX_WAKE.
   */
  lemma SleeperIsNeverStranded(s: State, steps: seq<Step>, t: nat)
    requires Initial(s) && IsRun(s, steps)
    requires var e := After(s, steps); t < |e.threads| && e.threads[t].Asleep?
                                       && e.landings < e.threads[t].since + GEN_MODULUS
    ensures var e := After(s, steps);
            if e.landings == e.threads[t].since
            then e.transit != Idle && (!e.revoked ==> exists u | 0 <= u < |e.threads| :: e.threads[u].Claimed?)
            else SomeLander(e.threads) && e.waiters != 0
  {
    assert Counted(s.threads) == {};
    RunInv(s, steps);
    var e := After(s, steps);
    GenDiffers(e.threads[t].since, e.landings);
    assert t in Counted(e.threads);
  }

  /** The generation a BUSY begin returns is changed by the end of that very transition. */
  lemma BusyGenerationMoves(s: State, t: nat, step: Step)
    requires Inv(s) && Enabled(s, step)
    requires t < |s.threads| && HasTicket(s.threads[t]) && s.threads[t].since == s.landings
    requires Apply(s, step).transit == Idle
    ensures Gen(Apply(s, step).landings) != Gen(s.threads[t].since)
  {
    GenDiffers(s.landings, s.landings + 1);
  }

  /** Claims stay exclusive exactly as long as no own_forget() meets a transition in flight. */
  lemma ClaimsExclusiveUnlessRevoked(s: State, step: Step)
    requires Inv(s) && !s.revoked && Enabled(s, step)
    ensures ClaimExclusive(Apply(s, step).threads, Apply(s, step).transit)
            <==> !(step.Forget? && s.transit != Idle)
  {
    if step.Forget? && s.transit != Idle {
      var u :| 0 <= u < |s.threads| && s.threads[u].Claimed?;
      assert Apply(s, step).threads[u].Claimed?;
    } else {
      StepClaims(s, step);
    }
  }

  // ---- what a wait answers ----

  /** In every reachable state, "it landed" is told only after a landing since the BUSY answer. */
  lemma LandedAnswerIsTrue(s: State, steps: seq<Step>, t: nat)
    requires Initial(s) && IsRun(s, steps)
    requires var e := After(s, steps); t < |e.threads| && e.threads[t].Leaving? && e.threads[t].landed
    ensures After(s, steps).threads[t].since < After(s, steps).landings
  {
    assert Counted(s.threads) == {};
    RunInv(s, steps);
  }

  /**
   * Fewer than 2^32 landings on, a waiter leaves its loop exactly if a landing has come since its
   * BUSY answer; until then it goes on to park, and parking puts it to sleep.
   */
  lemma WaitsUntilLanding(s: State, t: nat)
    requires Inv(s) && t < |s.threads| && HasTicket(s.threads[t]) && s.landings < s.threads[t].since + GEN_MODULUS
    ensures var since := s.threads[t].since;
            && (s.threads[t].Reading? ==>
                  Apply(s, LoadGen(t)) == MoveTo(s, t, if since < s.landings then Leaving(true, since) else Parking(since)))
            && (s.threads[t].Parking? ==>
                  Apply(s, FutexWait(t)) == MoveTo(s, t, if since < s.landings then Reading(since) else Asleep(since)))
  {
    GenDiffers(s.threads[t].since, s.landings);
  }

  /** A wait answers "the bound" only where its caller's bound ran out. */
  lemma OnlyTheBoundGivesUp(s: State, step: Step, t: nat)
    requires Enabled(s, step) && t < |s.threads| && Apply(s, step).threads[t] != s.threads[t]
    requires Apply(s, step).threads[t].Leaving? && !Apply(s, step).threads[t].landed
    ensures step == GiveUp(t) && s.threads[t] == Parking(Apply(s, step).threads[t].since)
  {
  }

  lemma {:induction false} Snoc(s: State, steps: seq<Step>, last: Step)
    requires IsRun(s, steps) && Enabled(After(s, steps), last)
    ensures IsRun(s, steps + [last]) && After(s, steps + [last]) == Apply(After(s, steps), last)
    decreases |steps|
  {
    if steps == [] {
      assert (steps + [last])[1..] == [];
    } else {
      Snoc(Apply(s, steps[0]), steps[1..], last);
      assert (steps + [last])[1..] == steps[1..] + [last];
    }
  }

  lemma ThreeSteps(s: State, a: Step, b: Step, c: Step)
    requires Enabled(s, a) && Enabled(Apply(s, a), b) && Enabled(Apply(Apply(s, a), b), c)
    ensures IsRun(s, [a, b, c]) && After(s, [a, b, c]) == Apply(Apply(Apply(s, a), b), c)
  {
    Snoc(s, [], a);
    Snoc(s, [a], b);
    Snoc(s, [a, b], c);
    assert [] + [a] == [a] && [a] + [b] == [a, b] && [a, b] + [c] == [a, b, c];
  }

  /** A thread told BUSY while the transition is in flight can go to sleep on it. */
  lemma BusyThreadSleeps(s: State, t: nat) returns (steps: seq<Step>)
    requires Inv(s) && t < |s.threads| && s.threads[t] == Told(s.landings)
    ensures IsRun(s, steps)
    ensures After(s, steps) == MoveTo(s, t, Asleep(s.landings)).(waiters := s.waiters + 1)
  {
    var s1 := Apply(s, CountIn(t));
    StepInv(s, CountIn(t));
    WaitsUntilLanding(s1, t);
    var s2 := Apply(s1, LoadGen(t));
    StepInv(s1, LoadGen(t));
    WaitsUntilLanding(s2, t);
    ThreeSteps(s, CountIn(t), LoadGen(t), FutexWait(t));
    steps := [CountIn(t), LoadGen(t), FutexWait(t)];
  }

  /** The landing of the thread that claimed the transition wakes the sleeper, which answers "it landed". */
  lemma LandingWakes(s: State, t: nat, u: nat, site: Site) returns (steps: seq<Step>)
    requires Inv(s) && t < |s.threads| && u < |s.threads|
    requires s.threads[t] == Asleep(s.landings) && s.threads[u].Claimed?
    ensures IsRun(s, steps)
    ensures var e := After(s, steps);
            && |e.threads| == |s.threads| && e.threads[t] == Leaving(true, s.landings) && e.threads[u] == Free
            && e.site == site && e.transit == Idle && e.landings == s.landings + 1 && e.waiters == s.waiters
  {
    LandAndWake(s, t, u, site);
    var woken := [Land(u, site), LoadWaiters(u), FutexWakeAll(u)];
    var s3 := After(s, woken);
    WaitsUntilLanding(s3, t);
    Snoc(s, woken, LoadGen(t));
    steps := woken + [LoadGen(t)];
  }

  lemma LandAndWake(s: State, t: nat, u: nat, site: Site)
    requires Inv(s) && t < |s.threads| && u < |s.threads|
    requires s.threads[t] == Asleep(s.landings) && s.threads[u].Claimed?
    ensures var steps := [Land(u, site), LoadWaiters(u), FutexWakeAll(u)];
            && IsRun(s, steps) && Inv(After(s, steps))
            && var e := After(s, steps);
               && |e.threads| == |s.threads| && e.threads[t] == Reading(s.landings) && e.threads[u] == Free
               && e.site == site && e.transit == Idle && e.landings == s.landings + 1 && e.waiters == s.waiters
  {
    var s1 := Apply(s, Land(u, site));
    StepInv(s, Land(u, site));
    assert t in Counted(s1.threads);
    var s2 := Apply(s1, LoadWaiters(u));
    StepInv(s1, LoadWaiters(u));
    StepInv(s2, FutexWakeAll(u));
    ThreeSteps(s, Land(u, site), LoadWaiters(u), FutexWakeAll(u));
  }

  // ---- what the entry records ----

  /** The last landing or forget among the steps decides the site. */
  function LastSite(site: Site, steps: seq<Step>): Site
    decreases |steps|
  {
    if steps == [] then site
    else
      var last := steps[|steps| - 1];
      if last.Land? then last.site else if last.Forget? then NowhereYet else LastSite(site, steps[..|steps| - 1])
  }

  lemma {:induction false} SplitLast(s: State, steps: seq<Step>)
    requires IsRun(s, steps) && steps != []
    ensures var init, last := steps[..|steps| - 1], steps[|steps| - 1];
            IsRun(s, init) && Enabled(After(s, init), last) && After(s, steps) == Apply(After(s, init), last)
    decreases |steps|
  {
    if |steps| > 1 {
      SplitLast(Apply(s, steps[0]), steps[1..]);
      assert steps[1..][..|steps| - 2] == steps[..|steps| - 1][1..];
    }
  }

  /** Over every run the entry's site is where the token last landed, or nowhere after a forget. */
  lemma {:induction false} SiteIsLastLanding(s: State, steps: seq<Step>)
    requires IsRun(s, steps)
    ensures After(s, steps).site == LastSite(s.site, steps)
    decreases |steps|
  {
    if steps != [] {
      SplitLast(s, steps);
      SiteIsLastLanding(s, steps[..|steps| - 1]);
    }
  }

  /**
   * The transition recorded is the one its claimer asked for; a busy entry refuses with the present
   * landing count; the three endings clear it and count a landing, except an abort of nothing.
   */
  lemma TransitionIsTheClaimers(s: State, step: Step)
    requires Inv(s) && Enabled(s, step)
    ensures var s' := Apply(s, step);
            && (step.Begin? && s.transit == Idle ==>
                  s'.transit == step.to && s'.threads[step.t] == Claimed(step.to) && s'.landings == s.landings)
            && (step.Begin? && s.transit != Idle ==>
                  s'.transit == s.transit && s'.threads[step.t] == Told(s.landings) && s'.landings == s.landings)
            && (step.Land? || step.Abort? || step.Forget? ==> s'.transit == Idle && !s'.threads[step.t].Claimed?)
            && (s'.landings == s.landings + 1 <==> step.Land? || step.Forget? || (step.Abort? && s.transit != Idle))
            && (s'.landings == s.landings || s'.landings == s.landings + 1)
            && (!step.Begin? && !step.Land? && !step.Abort? && !step.Forget? ==> s'.transit == s.transit)
  {
  }

  /** Two claimers of one entry after such a forget. */
  lemma RevokedClaimRepeats()
    ensures exists s: State, steps: seq<Step> ::
      Initial(s) && IsRun(s, steps)
      && After(s, steps).threads == [Claimed(ToRemote), Claimed(ToRemote), Landed]
  {
    var s := State(NowhereYet, Idle, 0, 0, [Free, Free, Free], false);
    var s1 := Apply(s, Begin(0, ToRemote));
    var s2 := Apply(s1, Forget(2));
    var s3 := Apply(s2, Begin(1, ToRemote));
    var steps := [Begin(0, ToRemote), Forget(2), Begin(1, ToRemote)];
    assert steps[1..] == [Forget(2), Begin(1, ToRemote)] && steps[1..][1..] == [Begin(1, ToRemote)];
    assert IsRun(s3, []);
    assert IsRun(s2, [Begin(1, ToRemote)]) && After(s2, [Begin(1, ToRemote)]) == s3;
    assert IsRun(s1, steps[1..]) && After(s1, steps[1..]) == s3;
    assert IsRun(s, steps) && After(s, steps) == s3;
    assert s3.threads == [Claimed(ToRemote), Claimed(ToRemote), Landed];
  }
}
