/**
 * The source's page-fault service: the fault decision of ctx_monitor() and the page request
 * pg_get_op() in vmhome.c. What the peer, the channel, the clock and the page tables answer is a
 * parameter, one answer per question asked; the evidence records what was really landed or seen.
 */
module FaultService {
  datatype PageState = NONE | OURS | THEIRS | CLAIM | INTRANSIT

  /** The record says the page was handed over, or is being moved. */
  predicate Gone(st: PageState) {
    st in {THEIRS, CLAIM, INTRANSIT}
  }

  predicate Moving(st: PageState) {
    st in {CLAIM, INTRANSIT}
  }

  /** What the fault event says about the page and its mapping. */
  datatype Fault = Fault(
    recorded: bool, state: PageState, classValid: bool, file: bool, shared: bool, writable: bool,
    sealedReadOnly: bool, pageWasPresent: bool, parentAlive: bool)

  predicate PrivateFile(f: Fault) {
    f.classValid && f.file && !f.shared
  }

  /** SELF: the local kernel fills the page. DONE: the monitor has. KILL: nobody can. */
  datatype Action = SELF | DONE | KILL

  /** What happened to the page while it was served. */
  datatype Evidence = Evidence(peerBytes: bool, zeros: bool, present: bool)

  const NOTHING := Evidence(false, false, false)
  const PEER_BYTES := Evidence(true, false, false)
  const ZEROS := Evidence(false, true, false)
  const PRESENT := Evidence(false, false, true)

  datatype Result = Result(action: Action, seen: Evidence)

  // ---- one page request ----

  datatype Got = Failed | Bytes | Absent | Landed

  /**
   * A reply of the peer. INFLIGHT comes with what this side then finds: the page's presence,
   * record and landing count, and whether the time budget still allows another ask.
   */
  datatype PeerReply =
    | Broken
    | WrongStatus
    | GivesBytes
    | SaysAbsent
    | SaysInflight(pulling: bool, gen: nat, present: bool, state: PageState, landedGen: nat, timeLeft: bool)

  /** The page has landed here meanwhile: present, recorded as this side's, not behind the peer's count. */
  predicate LandedHere(r: PeerReply) {
    r.SaysInflight? && !r.pulling && r.present && r.state == OURS && r.landedGen != 0 && r.gen <= r.landedGen
  }

  /** The reply only means "ask again". */
  predicate Undecided(r: PeerReply, mayLand: bool) {
    r.SaysInflight? && r.timeLeft && !(mayLand && LandedHere(r))
  }

  /** What a reply that decides the request decides. */
  function Verdict(r: PeerReply, mayLand: bool): Got {
    if r.GivesBytes? then Bytes
    else if r.SaysAbsent? then Absent
    else if mayLand && LandedHere(r) then Landed
    else Failed
  }

  /** The first reply that decides; a script that ends first is a broken channel. */
  function GetAnswer(script: seq<PeerReply>, mayLand: bool): Got {
    if script == [] then Failed
    else if Undecided(script[0], mayLand) then GetAnswer(script[1..], mayLand)
    else Verdict(script[0], mayLand)
  }

  /**
   * pg_get_op(): asks again while the answer is INFLIGHT. LANDED exactly when, before anything
   * else decided, the page was found here, recorded OURS and not behind the peer's count.
   */
  method GetPage(script: seq<PeerReply>, mayLand: bool) returns (got: Got)
    ensures got == GetAnswer(script, mayLand)
    ensures got == Landed <==> mayLand && exists i | 0 <= i < |script| ::
                               LandedHere(script[i]) && forall j | 0 <= j < i :: Undecided(script[j], mayLand)
    ensures got == Bytes <==> exists i | 0 <= i < |script| ::
                              script[i].GivesBytes? && forall j | 0 <= j < i :: Undecided(script[j], mayLand)
    ensures got == Absent <==> exists i | 0 <= i < |script| ::
                               script[i].SaysAbsent? && forall j | 0 <= j < i :: Undecided(script[j], mayLand)
  {
    var i := 0;
    while i < |script| && Undecided(script[i], mayLand)
      invariant 0 <= i <= |script| && forall j | 0 <= j < i :: Undecided(script[j], mayLand)
      invariant GetAnswer(script, mayLand) == GetAnswer(script[i..], mayLand)
    {
      assert script[i..][1..] == script[i + 1..];
      i := i + 1;
    }
    got := if i == |script| then Failed else Verdict(script[i], mayLand);
  }

  /** Bytes are got exactly when the first reply that decides gives them. */
  lemma BytesIff(script: seq<PeerReply>, mayLand: bool)
    ensures GetAnswer(script, mayLand) == Bytes <==>
            exists i | 0 <= i < |script| :: script[i].GivesBytes? && forall j | 0 <= j < i :: Undecided(script[j], mayLand)
  {
    var i := 0;
    while i < |script| && Undecided(script[i], mayLand)
      invariant 0 <= i <= |script| && forall j | 0 <= j < i :: Undecided(script[j], mayLand)
      invariant GetAnswer(script, mayLand) == GetAnswer(script[i..], mayLand)
    {
      assert script[i..][1..] == script[i + 1..];
      i := i + 1;
    }
    if i < |script| {
      assert script[i..][0] == script[i];
    }
  }

  // ---- the loops around it ----

  /** The first settled state polled, or the last one. */
  function Settled(polled: seq<PageState>): PageState
    requires polled != []
  {
    if !Moving(polled[0]) || |polled| == 1 then polled[0] else Settled(polled[1..])
  }

  /** Wait for a sibling's transition. */
  method AwaitSibling(polled: seq<PageState>) returns (st: PageState)
    requires polled != []
    ensures st == Settled(polled)
    ensures Moving(st) <==> forall i | 0 <= i < |polled| :: Moving(polled[i])
    ensures !Moving(st) ==> exists i | 0 <= i < |polled| :: polled[i] == st && forall j | 0 <= j < i :: Moving(polled[j])
  {
    var spin := 0;
    st := polled[0];
    while Moving(st) && spin + 1 < |polled|
      invariant 0 <= spin < |polled| && st == polled[spin]
      invariant forall i | 0 <= i < spin :: Moving(polled[i])
      invariant Settled(polled[spin..]) == Settled(polled)
    {
      spin := spin + 1;
      st := polled[spin];
      assert polled[spin - 1..][1..] == polled[spin..];
    }
  }

  /** The answer of the first of at most `tries` asks that is an answer at all. */
  function Fetched(asks: seq<seq<PeerReply>>, mayLand: bool, tries: nat): Got {
    if tries == 0 || asks == [] then Failed
    else if GetAnswer(asks[0], mayLand) != Failed then GetAnswer(asks[0], mayLand)
    else Fetched(asks[1..], mayLand, tries - 1)
  }

  const ASKS: nat := 31

  /** The first of at most 31 asks that is answered at all is answered g. */
  ghost predicate FirstAnswers(asks: seq<seq<PeerReply>>, mayLand: bool, g: Got) {
    exists i | 0 <= i < |asks| && i < 31 ::
      GetAnswer(asks[i], mayLand) == g && forall j | 0 <= j < i :: GetAnswer(asks[j], mayLand) == Failed
  }

  lemma {:induction false} FetchedFrom(asks: seq<seq<PeerReply>>, mayLand: bool, tries: nat, i: nat)
    requires i <= |asks| && i <= tries && forall j | 0 <= j < i :: GetAnswer(asks[j], mayLand) == Failed
    ensures Fetched(asks, mayLand, tries)
            == if i == |asks| || i == tries then Failed else Fetched(asks[i..], mayLand, tries - i)
  {
    if i > 0 {
      forall j | 0 <= j < i - 1
        ensures GetAnswer(asks[1..][j], mayLand) == Failed
      {
        assert asks[1..][j] == asks[j + 1];
      }
      FetchedFrom(asks[1..], mayLand, tries - 1, i - 1);
      assert asks[1..][i - 1..] == asks[i..];
    } else {
      assert asks[0..] == asks;
    }
  }

  lemma FetchedIsFirst(asks: seq<seq<PeerReply>>, mayLand: bool)
    ensures Fetched(asks, mayLand, ASKS) == Failed
            <==> forall i | 0 <= i < |asks| && i < 31 :: GetAnswer(asks[i], mayLand) == Failed
    ensures forall g | g != Failed :: Fetched(asks, mayLand, ASKS) == g <==> FirstAnswers(asks, mayLand, g)
  {
    var i: nat := 0;
    while i < |asks| && i < ASKS && GetAnswer(asks[i], mayLand) == Failed
      invariant i <= |asks| && i <= ASKS && forall j | 0 <= j < i :: GetAnswer(asks[j], mayLand) == Failed
    {
      i := i + 1;
    }
    FetchedFrom(asks, mayLand, ASKS, i);
    if i < |asks| && i < ASKS {
      assert asks[i..][0] == asks[i];
      assert FirstAnswers(asks, mayLand, GetAnswer(asks[i], mayLand));
    }
  }

  /** Ask, and ask again over fresh connections while the channel fails; [] is a failed connection. */
  method Fetch(asks: seq<seq<PeerReply>>, mayLand: bool) returns (got: Got)
    ensures got == Fetched(asks, mayLand, ASKS)
    ensures got == Landed ==> mayLand
    ensures got == Failed <==> forall i | 0 <= i < |asks| && i < 31 :: GetAnswer(asks[i], mayLand) == Failed
    ensures forall g | g != Failed :: got == g <==> FirstAnswers(asks, mayLand, g)
  {
    FetchedIsFirst(asks, mayLand);
    got := Failed;
    var i: nat := 0;
    while i < ASKS && i < |asks| && got == Failed
      invariant i <= ASKS && i <= |asks| && (got == Landed ==> mayLand)
      invariant Fetched(asks, mayLand, ASKS) == if got == Failed then Fetched(asks[i..], mayLand, ASKS - i) else got
    {
      got := GetPage(asks[i], mayLand);
      assert asks[i..][0] == asks[i] && asks[i..][1..] == asks[i + 1..];
      i := i + 1;
    }
  }

  /** One more ask for a handed-over page, and whether the page is then found here. */
  datatype Regain = Regain(script: seq<PeerReply>, present: bool)

  function Regained(asks: seq<Regain>, tries: nat): Got {
    if tries == 0 then Absent
    else if asks == [] then Failed
    else if GetAnswer(asks[0].script, false) != Absent then GetAnswer(asks[0].script, false)
    else if asks[0].present then Absent
    else Regained(asks[1..], tries - 1)
  }

  const REGAINS: nat := 40

  /** One of at most forty asks gives the bytes, all before it having said ABSENT with no page here. */
  ghost predicate RegainGives(asks: seq<Regain>) {
    exists i | 0 <= i < |asks| && i < 40 ::
      GetAnswer(asks[i].script, false) == Bytes
      && forall j | 0 <= j < i :: GetAnswer(asks[j].script, false) == Absent && !asks[j].present
  }

  lemma {:induction false} RegainedFrom(asks: seq<Regain>, tries: nat, i: nat)
    requires i <= |asks| && i <= tries
    requires forall j | 0 <= j < i :: GetAnswer(asks[j].script, false) == Absent && !asks[j].present
    ensures Regained(asks, tries) == Regained(asks[i..], tries - i)
  {
    if i > 0 {
      forall j | 0 <= j < i - 1
        ensures GetAnswer(asks[1..][j].script, false) == Absent && !asks[1..][j].present
      {
        assert asks[1..][j] == asks[j + 1];
      }
      RegainedFrom(asks[1..], tries - 1, i - 1);
      assert asks[1..][i - 1..] == asks[i..];
    } else {
      assert asks[0..] == asks;
    }
  }

  lemma RegainedIsFirst(asks: seq<Regain>)
    ensures Regained(asks, REGAINS) == Bytes <==> RegainGives(asks)
  {
    var i: nat := 0;
    while i < |asks| && i < REGAINS && GetAnswer(asks[i].script, false) == Absent && !asks[i].present
      invariant i <= |asks| && i <= REGAINS
      invariant forall j | 0 <= j < i :: GetAnswer(asks[j].script, false) == Absent && !asks[j].present
    {
      i := i + 1;
    }
    RegainedFrom(asks, REGAINS, i);
    if i < |asks| && i < REGAINS {
      assert asks[i..][0] == asks[i];
      if GetAnswer(asks[i].script, false) == Bytes {
        assert RegainGives(asks);
      }
    }
  }

  /** The page was handed over and the peer says ABSENT: ask again, but not for ever. */
  method AskAgain(asks: seq<Regain>) returns (got: Got)
    ensures got == Regained(asks, REGAINS)
    ensures got == Bytes <==> RegainGives(asks)
  {
    RegainedIsFirst(asks);
    got := Absent;
    var i: nat := 0;
    while i < REGAINS && got == Absent
      invariant i <= REGAINS && (got == Absent ==> i <= |asks|)
      invariant Regained(asks, REGAINS) == if got == Absent then Regained(asks[i..], REGAINS - i) else got
    {
      if i == |asks| {
        return Failed;
      }
      got := GetPage(asks[i].script, false);
      assert asks[i..][0] == asks[i] && asks[i..][1..] == asks[i + 1..];
      if got == Absent && asks[i].present {
        return;
      }
      i := i + 1;
    }
  }

  // ---- the decision ----

  datatype LandResult = Installed | Exists | CannotLand

  /** The answers to every question one fault may ask. */
  datatype World = World(
    asks: seq<seq<PeerReply>>, bytesLand: LandResult,
    breakScript: seq<PeerReply>, breakLand: LandResult,
    presentBefore: bool, regains: seq<Regain>, regainLand: LandResult, presentFinally: bool,
    zerosLand: LandResult, presentAfter: bool)

  /** Copy-on-write broken at the parent's machine and the copy landed. */
  predicate ParentsCopy(f: Fault, got: Got, land: LandResult) {
    f.parentAlive && got == Bytes && land == Installed
  }

  /** One of the further asks gave the bytes, and they were landed. */
  ghost predicate Regains(w: World) {
    RegainGives(w.regains) && w.regainLand == Installed
  }

  /** The parent's machine gave its copy, and it was landed. */
  ghost predicate ParentGives(f: Fault, w: World) {
    && f.parentAlive && w.breakLand == Installed
    && exists i | 0 <= i < |w.breakScript| ::
         w.breakScript[i].GivesBytes? && forall j | 0 <= j < i :: Undecided(w.breakScript[j], false)
  }

  /** A handed-over page the peer reports ABSENT: regained, found here, or the context ends. */
  function HandedOver(got: Got, w: World): Result {
    if got == Bytes && w.regainLand == Installed then Result(DONE, PEER_BYTES)
    else if w.presentFinally then Result(DONE, PRESENT)
    else Result(KILL, NOTHING)
  }

  /** A page nobody was ever given: the parent's copy if one is owed, else zeros from here. */
  function Fresh(f: Fault, parents: Got, w: World): Result {
    if ParentsCopy(f, parents, w.breakLand) then Result(DONE, PEER_BYTES)
    else if w.zerosLand == Installed then Result(DONE, ZEROS)
    else if w.presentAfter then Result(DONE, PRESENT)
    else Result(SELF, NOTHING)
  }

  /** What an answer decides, given the record state it is acted on with. */
  function Decision(f: Fault, prior: PageState, got: Got, w: World): Result {
    match got
    case Landed => Result(DONE, PRESENT)
    case Bytes =>
      if w.bytesLand == Installed then Result(DONE, PEER_BYTES)
      else if w.bytesLand == Exists then Result(DONE, PRESENT)
      else Result(KILL, NOTHING)
    case Failed => if Gone(prior) then Result(KILL, NOTHING) else Result(SELF, NOTHING)
    case Absent =>
      if PrivateFile(f) && !Gone(prior) then
        if ParentsCopy(f, GetAnswer(w.breakScript, false), w.breakLand) then Result(DONE, PEER_BYTES)
        else Result(SELF, NOTHING)
      else if w.presentBefore then Result(DONE, PRESENT)
      else if Gone(prior) then HandedOver(Regained(w.regains, REGAINS), w)
      else Fresh(f, GetAnswer(w.breakScript, false), w)
  }

  method Decide(f: Fault, prior: PageState, got: Got, w: World) returns (r: Result)
    ensures r == Decision(f, prior, got, w)
    ensures Gone(prior) ==> r.action != SELF && !r.seen.zeros
    ensures r.action == DONE <==> r.seen != NOTHING
    ensures r.action == KILL <==>
            || (got == Bytes && w.bytesLand == CannotLand)
            || (Gone(prior) && got == Failed)
            || (Gone(prior) && got == Absent && !w.presentBefore && !Regains(w) && !w.presentFinally)
    ensures r.seen.peerBytes <==>
            || (got == Bytes && w.bytesLand == Installed)
            || (Gone(prior) && got == Absent && !w.presentBefore && Regains(w))
            || (!Gone(prior) && got == Absent && (PrivateFile(f) || !w.presentBefore) && ParentGives(f, w))
    ensures r.seen.zeros <==>
            !Gone(prior) && got == Absent && !PrivateFile(f) && !w.presentBefore && !ParentGives(f, w) && w.zerosLand == Installed
    ensures r.seen.present ==>
            || got == Landed || (got == Bytes && w.bytesLand == Exists)
            || (got == Absent && (w.presentBefore || (Gone(prior) && w.presentFinally) || (!Gone(prior) && w.presentAfter)))
    ensures (got == Landed || (got == Bytes && w.bytesLand == Exists)) ==> r == Result(DONE, PRESENT)
  {
    RegainedIsFirst(w.regains);
    BytesIff(w.breakScript, false);
    if got == Absent {
      if PrivateFile(f) && !Gone(prior) {
        var parents := GetPage(w.breakScript, false);
        return if ParentsCopy(f, parents, w.breakLand) then Result(DONE, PEER_BYTES) else Result(SELF, NOTHING);
      }
      if w.presentBefore {
        return Result(DONE, PRESENT);
      }
      if Gone(prior) {
        var again := AskAgain(w.regains);
        return HandedOver(again, w);
      }
      var parents := GetPage(w.breakScript, false);
      return Fresh(f, parents, w);
    }
    r := Decision(f, prior, got, w);
  }

  // ---- the fault ----

  /** A read-only file page no forwarded mprotect has sealed, never handed over: the file is current. */
  predicate FileIsCurrent(f: Fault) {
    PrivateFile(f) && !f.writable && !(f.recorded && Gone(f.state)) && !f.sealedReadOnly
  }

  /** The sibling's transition ended without this side holding the page, and the claim is refused. */
  predicate ClaimRefused(f: Fault, polled: seq<PageState>, claimOk: bool)
    requires polled != []
  {
    f.recorded && Moving(f.state) && Settled(polled) != OURS && !claimOk
  }

  /** The record state the service finally acts on. */
  function ActsOn(f: Fault, polled: seq<PageState>): PageState
    requires polled != []
  {
    if !f.recorded then NONE
    else if !Moving(f.state) then f.state
    else if Moving(Settled(polled)) then NONE
    else Settled(polled)
  }

  /** The peer is asked at all: the answer is neither known here nor another thread's. */
  predicate Asks(f: Fault, polled: seq<PageState>, claimOk: bool)
    requires polled != []
  {
    && !(PrivateFile(f) && !f.writable && !f.sealedReadOnly && !(f.recorded && Gone(f.state)))
    && !(f.recorded && f.state == OURS)
    && !(f.recorded && Moving(f.state) && (Settled(polled) == OURS || !claimOk))
  }

  function Outcome(f: Fault, polled: seq<PageState>, claimOk: bool, siblingLeftIt: bool, w: World): Result
    requires polled != []
  {
    if FileIsCurrent(f) || (f.recorded && f.state == OURS) then Result(SELF, NOTHING)
    else if f.recorded && Moving(f.state) && Settled(polled) == OURS then
      if siblingLeftIt then Result(DONE, PRESENT) else Result(SELF, NOTHING)
    else if ClaimRefused(f, polled, claimOk) then Result(DONE, NOTHING)
    else Decision(f, ActsOn(f, polled), Fetched(w.asks, !f.pageWasPresent, ASKS), w)
  }

  /**
   * The fault service never invents a handed-over page. If the state it acts on is REMOTE,
   * the reply is never SELF and zeros are never landed. DONE rests on landed bytes or on the
   * page having been seen present, with one exact exception: a refused claim, after which
   * the access simply retries.
   */
  method Serve(f: Fault, polled: seq<PageState>, claimOk: bool, siblingLeftIt: bool, w: World) returns (r: Result)
    requires polled != []
    ensures r == Outcome(f, polled, claimOk, siblingLeftIt, w)
    ensures ActsOn(f, polled) == THEIRS ==> r.action != SELF && !r.seen.zeros
    ensures ActsOn(f, polled) == THEIRS && r.action == DONE && !ClaimRefused(f, polled, claimOk)
            ==> r.seen.peerBytes || r.seen.present
    ensures r == Result(DONE, NOTHING) <==> ClaimRefused(f, polled, claimOk)
    ensures r.seen.zeros ==> ActsOn(f, polled) == NONE && !PrivateFile(f) && w.zerosLand == Installed
    ensures Asks(f, polled, claimOk) && FirstAnswers(w.asks, !f.pageWasPresent, Bytes) ==>
              r == (if w.bytesLand == Installed then Result(DONE, PEER_BYTES)
                    else if w.bytesLand == Exists then Result(DONE, PRESENT) else Result(KILL, NOTHING))
    ensures r.seen.peerBytes ==>
              || (FirstAnswers(w.asks, !f.pageWasPresent, Bytes) && w.bytesLand == Installed)
              || (FirstAnswers(w.asks, !f.pageWasPresent, Absent) && (Regains(w) || ParentGives(f, w)))
    ensures !Asks(f, polled, claimOk) ==>
              r == (if ClaimRefused(f, polled, claimOk) then Result(DONE, NOTHING)
                    else if f.recorded && Moving(f.state) && siblingLeftIt then Result(DONE, PRESENT)
                    else Result(SELF, NOTHING))
  {
    var prior := if f.recorded then f.state else NONE;
    if PrivateFile(f) && !f.writable && !Gone(prior) && !f.sealedReadOnly {
      return Result(SELF, NOTHING);
    }
    if f.recorded && prior == OURS {
      return Result(SELF, NOTHING);
    }
    if f.recorded && Moving(prior) {
      var st := AwaitSibling(polled);
      if st == OURS {
        return if siblingLeftIt then Result(DONE, PRESENT) else Result(SELF, NOTHING);
      }
      prior := if Moving(st) then NONE else st;
      if !claimOk {
        return Result(DONE, NOTHING);
      }
    }
    var got := Fetch(w.asks, !f.pageWasPresent);
    r := Decide(f, prior, got, w);
  }

  // ---- when a page that exists elsewhere can be invented here ----

  /** The page is left to the local kernel, or filled with zeros. */
  predicate Invents(r: Result) {
    r.action == SELF || r.seen.zeros
  }

  /** The peer answers ABSENT at once, nothing is found here, and landing works. */
  const ABSENT_WORLD := World([[SaysAbsent]], Installed, [], CannotLand, false, [], CannotLand, false, Installed, false)

  /**
   * For a page recorded as handed over or moving, over all answers of the world: it can be
   * invented if and only if it was moving and the transition settled here (whose local fill is
   * then awaited), or settled as no record at all, or outlasted every poll, and in the last two
   * cases the claim was granted. A page recorded as handed over, or found so after the wait, never is.
   */
  lemma InventedIffTransitionLost(f: Fault, polled: seq<PageState>, claimOk: bool)
    requires polled != [] && f.recorded && Gone(f.state)
    ensures (exists w: World, left: bool :: Invents(Outcome(f, polled, claimOk, left, w)))
            <==> Moving(f.state) && (Settled(polled) == OURS || (claimOk && Settled(polled) != THEIRS))
  {
    if Moving(f.state) && (Settled(polled) == OURS || (claimOk && Settled(polled) != THEIRS)) {
      assert GetAnswer([SaysAbsent], !f.pageWasPresent) == Absent;
      assert Fetched(ABSENT_WORLD.asks, !f.pageWasPresent, ASKS) == Absent;
      assert Invents(Outcome(f, polled, claimOk, false, ABSENT_WORLD));
    }
  }

  /** Zeros need more: the claim granted, the transition lost, and no private file behind the page. */
  lemma ZerosIffTransitionLost(f: Fault, polled: seq<PageState>, claimOk: bool)
    requires polled != [] && f.recorded && Gone(f.state)
    ensures (exists w: World, left: bool :: Outcome(f, polled, claimOk, left, w).seen.zeros)
            <==> Moving(f.state) && claimOk && Settled(polled) !in {OURS, THEIRS} && !PrivateFile(f)
  {
    if Moving(f.state) && claimOk && Settled(polled) !in {OURS, THEIRS} && !PrivateFile(f) {
      assert GetAnswer([SaysAbsent], !f.pageWasPresent) == Absent;
      assert Fetched(ABSENT_WORLD.asks, !f.pageWasPresent, ASKS) == Absent;
      assert Outcome(f, polled, claimOk, false, ABSENT_WORLD).seen.zeros;
    }
  }

  /** One such fault: a page in transit at every poll, whose claim is granted and whose peer says ABSENT. */
  lemma TransitOutlastsPolling()
    ensures var f := Fault(true, INTRANSIT, true, false, false, true, false, false, false);
            Outcome(f, [INTRANSIT, INTRANSIT], true, false, ABSENT_WORLD) == Result(DONE, ZEROS)
  {
    assert Settled([INTRANSIT, INTRANSIT]) == INTRANSIT by {
      assert [INTRANSIT, INTRANSIT][1..] == [INTRANSIT];
    }
    assert Fetched(ABSENT_WORLD.asks, true, ASKS) == Absent;
  }
}
