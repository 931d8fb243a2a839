/**
 * Page-transfer reservations: pgstate.h. A table from (address space, page) to a state and an
 * episode number; a claim names one episode and only that episode can finish.
 */
module PageClaims {
  import opened Pages
  import opened ProbeTable

  datatype PgState = Invalid | Shared | Owned | Uninstalling | Transferring | Downgrading | Requesting

  /** A hand-off is in flight. */
  predicate Transient(st: PgState) {
    st in {Uninstalling, Transferring, Downgrading, Requesting}
  }

  type Key = (nat, nat)

  datatype PgSlot = PgSlot(episode: nat, st: PgState)

  /** A caller's reservation; episode 0 means none. */
  datatype Claim = Claim(space: nat, page: nat, episode: nat, prior: PgState)

  const NO_CLAIM := Claim(0, 0, 0, Invalid)
  const INITIAL_CAPACITY: nat := 8192
  const EPISODE_MAX: nat := 0xffff_ffff_ffff_ffff

  function KeyOf(c: Claim): Key {
    (c.space, PageOf(c.page))
  }

  datatype ClaimResult = Granted(prior: PgState) | BadArgument | AlreadyHeld | Busy | Exhausted

  datatype FinishResult = Finished | BadFinish | Stale

  // ---- what the operations do to the map ----

  function SlotOf(m: map<Key, PgSlot>, k: Key): PgSlot {
    if k in m then m[k] else PgSlot(0, Invalid)
  }

  function ClaimOutcome(m: map<Key, PgSlot>, k: Key, mine: PgState, held: Claim): ClaimResult {
    if !Transient(mine) then BadArgument
    else if held.episode != 0 then AlreadyHeld
    else if Transient(SlotOf(m, k).st) then Busy
    else if SlotOf(m, k).episode == EPISODE_MAX then Exhausted
    else Granted(SlotOf(m, k).st)
  }

  /** A grant opens the next episode of the page. */
  function SlotAfter(slot: PgSlot, mine: PgState): PgSlot {
    if Transient(slot.st) || slot.episode == EPISODE_MAX then slot else PgSlot(slot.episode + 1, mine)
  }

  /** Any look-up that may create leaves a row behind, granted or not. */
  function ClaimEffect(m: map<Key, PgSlot>, k: Key, mine: PgState, held: Claim): map<Key, PgSlot> {
    if !Transient(mine) || held.episode != 0 then m else m[k := SlotAfter(SlotOf(m, k), mine)]
  }

  function FinishOutcome(m: map<Key, PgSlot>, claim: Claim, st: PgState): FinishResult {
    if claim.episode == 0 || Transient(st) then BadFinish
    else if KeyOf(claim) in m && Transient(m[KeyOf(claim)].st) && m[KeyOf(claim)].episode == claim.episode
    then Finished
    else Stale
  }

  function FinishEffect(m: map<Key, PgSlot>, claim: Claim, st: PgState): map<Key, PgSlot> {
    if FinishOutcome(m, claim, st).Finished? then m[KeyOf(claim) := PgSlot(claim.episode, st)] else m
  }

  /** A grant opens the next episode in the claimer's state and tells the state before; no other slot moves. */
  lemma ClaimMeans(m: map<Key, PgSlot>, k: Key, mine: PgState, held: Claim)
    ensures var r, after := ClaimOutcome(m, k, mine, held), ClaimEffect(m, k, mine, held);
            && (r.Granted? <==> Transient(mine) && held.episode == 0
                                && !Transient(SlotOf(m, k).st) && SlotOf(m, k).episode != EPISODE_MAX)
            && (r.Granted? ==> k in after && after[k] == PgSlot(SlotOf(m, k).episode + 1, mine) && r.prior == SlotOf(m, k).st)
            && (k in m && !r.Granted? ==> after == m)
            && (forall x | x in m && x != k :: x in after && after[x] == m[x])
  {
    assert k in m ==> m[k := m[k]] == m;
  }

  /** An accepted finish leaves the final state under the claim's episode; no other slot moves. */
  lemma FinishMeans(m: map<Key, PgSlot>, claim: Claim, st: PgState)
    ensures var r, after := FinishOutcome(m, claim, st), FinishEffect(m, claim, st);
            && (r.Finished? ==> KeyOf(claim) in after && after[KeyOf(claim)] == PgSlot(claim.episode, st))
            && (!r.Finished? ==> after == m)
            && (forall x | x in m && x != KeyOf(claim) :: x in after && after[x] == m[x])
  {
  }

  lemma Overwritten(m: map<Key, PgSlot>, k: Key, a: PgSlot, b: PgSlot)
    ensures m[k := a][k := b] == m[k := b]
  {
  }

  // ---- the table ----

  class PageStates {
    const table: Table<Key, PgSlot>

    ghost predicate Valid()
      reads this, table, table.tab
    {
      table.Valid()
    }

    ghost function View(): map<Key, PgSlot>
      reads this, table
    {
      table.View()
    }

    constructor (hash: Key -> nat)
      ensures Valid() && View() == map[] && fresh(table) && fresh(table.tab)
    {
      table := new Table(hash);
    }

    /** pg_slot_find(): the row's position, creating it (and room for it) when asked. */
    method Find(k: Key, create: bool) returns (pos: nat, found: bool)
      requires Valid()
      modifies table, table.tab
      ensures Valid() && (fresh(table.tab) || table.tab == old(table.tab))
      ensures View() == if create then old(View())[k := SlotOf(old(View()), k)] else old(View())
      ensures found <==> k in View()
      ensures found ==> pos < table.tab.Length && table.tab[pos] == Row(k, View()[k])
    {
      pos, found := table.Find(k);
      if !found && create {
        table.MakeRoom(INITIAL_CAPACITY);
        pos := table.Insert(k, PgSlot(0, Invalid));
        found := true;
      }
    }

    /** The slot of a page, created if need be. */
    method Look(k: Key) returns (pos: nat, slot: PgSlot)
      requires Valid()
      modifies table, table.tab
      ensures Valid() && (fresh(table.tab) || table.tab == old(table.tab))
      ensures slot == SlotOf(old(View()), k) && View() == old(View())[k := slot]
      ensures pos < table.tab.Length && table.tab[pos] == Row(k, slot)
    {
      var found;
      pos, found := Find(k, true);
      slot := table.tab[pos].value;
    }

    /** Overwrites the slot found at a position. */
    method Write(pos: nat, k: Key, slot: PgSlot)
      requires Valid() && pos < table.tab.Length && table.tab[pos].Row? && table.tab[pos].key == k
      modifies table`view, table.tab
      ensures Valid() && View() == old(View())[k := slot] && table.tab == old(table.tab)
    {
      table.Store(pos, slot);
    }

    /** The part of pg_try_claim() under the mutex. */
    method Reserve(k: Key, mine: PgState, ghost held: Claim) returns (episode: nat, r: ClaimResult)
      requires Valid() && Transient(mine) && held.episode == 0
      modifies table, table.tab
      ensures Valid() && (fresh(table.tab) || table.tab == old(table.tab))
      ensures r == ClaimOutcome(old(View()), k, mine, held)
      ensures View() == ClaimEffect(old(View()), k, mine, held)
      ensures r.Granted? ==> k in View() && episode == View()[k].episode
    {
      var pos, slot := Look(k);
      episode := slot.episode;
      if Transient(slot.st) {
        return episode, Busy;
      }
      if slot.episode == EPISODE_MAX {
        return episode, Exhausted;
      }
      episode := slot.episode + 1;
      Overwritten(old(View()), k, slot, PgSlot(episode, mine));
      Write(pos, k, PgSlot(episode, mine));
      r := Granted(slot.st);
    }

    /** pg_try_claim(). */
    method TryClaim(space: nat, address: nat, mine: PgState, held: Claim) returns (claim: Claim, r: ClaimResult)
      requires Valid()
      modifies table, table.tab
      ensures Valid() && (fresh(table.tab) || table.tab == old(table.tab))
      ensures var k := (space, PageOf(address));
              && r == ClaimOutcome(old(View()), k, mine, held)
              && View() == ClaimEffect(old(View()), k, mine, held)
              && claim == if r.Granted? then Claim(space, PageOf(address), View()[k].episode, r.prior) else held
      ensures var k := (space, PageOf(address));
              && (r.Granted? ==> k in View() && View()[k] == PgSlot(SlotOf(old(View()), k).episode + 1, mine)
                                 && r.prior == SlotOf(old(View()), k).st)
              && (forall x | x in old(View()) && x != k :: x in View() && View()[x] == old(View())[x])
              && (k in old(View()) && !r.Granted? ==> View() == old(View()))
    {
      ClaimMeans(View(), (space, PageOf(address)), mine, held);
      claim := held;
      if !Transient(mine) {
        return claim, BadArgument;
      }
      if held.episode != 0 {
        return claim, AlreadyHeld;
      }
      var episode;
      episode, r := Reserve((space, PageOf(address)), mine, held);
      if r.Granted? {
        claim := Claim(space, PageOf(address), episode, r.prior);
      }
    }

    /** pg_finish(). */
    method Finish(held: Claim, st: PgState) returns (claim: Claim, r: FinishResult)
      requires Valid()
      modifies table, table.tab
      ensures Valid() && (fresh(table.tab) || table.tab == old(table.tab))
      ensures r == FinishOutcome(old(View()), held, st)
      ensures View() == FinishEffect(old(View()), held, st)
      ensures claim == if r.Finished? then held.(episode := 0) else held
      ensures r.Finished? ==> KeyOf(held) in View() && View()[KeyOf(held)] == PgSlot(held.episode, st)
      ensures !r.Finished? ==> View() == old(View())
      ensures forall x | x in old(View()) && x != KeyOf(held) :: x in View() && View()[x] == old(View())[x]
    {
      FinishMeans(View(), held, st);
      claim := held;
      if held.episode == 0 || Transient(st) {
        return claim, BadFinish;
      }
      var k := KeyOf(held);
      var pos, found := Find(k, false);
      if !found {
        return claim, Stale;
      }
      var slot := table.tab[pos].value;
      if !Transient(slot.st) || slot.episode != held.episode {
        return claim, Stale;
      }
      Write(pos, k, PgSlot(slot.episode, st));
      claim := held.(episode := 0);
      r := Finished;
    }
  }

  // ---- whole runs ----

  /** A granted claim: what it was told, the state it set, whether its finish was accepted, what that left. */
  datatype Grant = Grant(episode: nat, prior: PgState, mine: PgState, done: bool, final: PgState)

  /** The map, and the grants of each page in order. */
  datatype World = World(m: map<Key, PgSlot>, grants: map<Key, seq<Grant>>)

  const START := World(map[], map[])

  function GrantsOf(w: World, k: Key): seq<Grant> {
    if k in w.grants then w.grants[k] else []
  }

  /** Claims reach pg_finish() in any copy, any number of times, or made up. */
  datatype Op = OpClaim(space: nat, address: nat, mine: PgState, held: Claim) | OpFinish(claim: Claim, st: PgState)

  /** The page an operation is about. */
  function PageOp(op: Op): Key {
    if op.OpClaim? then (op.space, PageOf(op.address)) else KeyOf(op.claim)
  }

  /** The finish of one episode, marked on its grant. */
  function Ended(gs: seq<Grant>, episode: nat, st: PgState): seq<Grant> {
    seq(|gs|, i requires 0 <= i < |gs| =>
      if !gs[i].done && gs[i].episode == episode then gs[i].(done := true, final := st) else gs[i])
  }

  function Perform(w: World, op: Op): World {
    var k := PageOp(op);
    match op
    case OpClaim(_, _, mine, held) =>
      var r := ClaimOutcome(w.m, k, mine, held);
      var m' := ClaimEffect(w.m, k, mine, held);
      World(m', if r.Granted? then w.grants[k := GrantsOf(w, k) + [Grant(m'[k].episode, r.prior, mine, false, Invalid)]]
                else w.grants)
    case OpFinish(claim, st) =>
      World(FinishEffect(w.m, claim, st),
            if FinishOutcome(w.m, claim, st).Finished? then w.grants[k := Ended(GrantsOf(w, k), claim.episode, st)]
            else w.grants)
  }

  /** What a page's slot shows after its grants. */
  function Shown(gs: seq<Grant>): PgSlot {
    if gs == [] then PgSlot(0, Invalid)
    else
      var last := gs[|gs| - 1];
      PgSlot(|gs|, if last.done then last.final else last.mine)
  }

  /** Episodes count up from 1; only the last grant may be unfinished; each is told how the one before ended. */
  ghost predicate Chained(gs: seq<Grant>) {
    && (forall i | 0 <= i < |gs| ::
          && gs[i].episode == i + 1 && Transient(gs[i].mine)
          && (gs[i].done ==> !Transient(gs[i].final)) && (i + 1 < |gs| ==> gs[i].done))
    && (gs != [] ==> gs[0].prior == Invalid)
    && (forall i, j | 0 <= i < j < |gs| && j == i + 1 :: gs[j].prior == gs[i].final)
  }

  ghost predicate Inv(w: World) {
    forall k: Key :: Chained(GrantsOf(w, k)) && SlotOf(w.m, k) == Shown(GrantsOf(w, k))
  }

  /** An operation concerns one page. */
  lemma OtherPages(w: World, op: Op, k: Key)
    requires k != PageOp(op)
    ensures SlotOf(Perform(w, op).m, k) == SlotOf(w.m, k) && GrantsOf(Perform(w, op), k) == GrantsOf(w, k)
  {
  }

  lemma ClaimInv(w: World, op: Op)
    requires Inv(w) && op.OpClaim?
    ensures Chained(GrantsOf(Perform(w, op), PageOp(op)))
    ensures SlotOf(Perform(w, op).m, PageOp(op)) == Shown(GrantsOf(Perform(w, op), PageOp(op)))
  {
    var k := PageOp(op);
    ClaimMeans(w.m, k, op.mine, op.held);
    assert SlotOf(w.m, k) == Shown(GrantsOf(w, k));
  }

  /** Finishing the last grant keeps the chain. */
  lemma EndedLast(gs: seq<Grant>, st: PgState)
    requires Chained(gs) && gs != [] && !gs[|gs| - 1].done && !Transient(st)
    ensures Chained(Ended(gs, |gs|, st)) && Shown(Ended(gs, |gs|, st)) == PgSlot(|gs|, st)
  {
    var ended := Ended(gs, |gs|, st);
    forall i, j | 0 <= i < j < |ended| && j == i + 1
      ensures ended[j].prior == ended[i].final
    {
      assert gs[j].prior == gs[i].final && gs[i].done;
    }
  }

  lemma FinishInv(w: World, op: Op)
    requires Inv(w) && op.OpFinish?
    ensures Chained(GrantsOf(Perform(w, op), PageOp(op)))
    ensures SlotOf(Perform(w, op).m, PageOp(op)) == Shown(GrantsOf(Perform(w, op), PageOp(op)))
  {
    var k := PageOp(op);
    var gs := GrantsOf(w, k);
    FinishMeans(w.m, op.claim, op.st);
    assert Chained(gs) && SlotOf(w.m, k) == Shown(gs);
    if FinishOutcome(w.m, op.claim, op.st).Finished? {
      EndedLast(gs, op.st);
    }
  }

  lemma StepInv(w: World, op: Op)
    requires Inv(w)
    ensures Inv(Perform(w, op))
  {
    forall k: Key
      ensures Chained(GrantsOf(Perform(w, op), k)) && SlotOf(Perform(w, op).m, k) == Shown(GrantsOf(Perform(w, op), k))
    {
      if k != PageOp(op) {
        OtherPages(w, op, k);
      } else if op.OpClaim? {
        ClaimInv(w, op);
      } else {
        FinishInv(w, op);
      }
    }
  }

  ghost function Run(w: World, ops: seq<Op>): World
    decreases |ops|
  {
    if ops == [] then w else Run(Perform(w, ops[0]), ops[1..])
  }

  lemma {:induction false} RunInv(w: World, ops: seq<Op>)
    requires Inv(w)
    ensures Inv(Run(w, ops))
    decreases |ops|
  {
    if ops != [] {
      StepInv(w, ops[0]);
      RunInv(Perform(w, ops[0]), ops[1..]);
    }
  }

  /** After any run at most one claim per (address space, page) is unfinished, and episodes increase. */
  lemma ClaimsAreExclusive(ops: seq<Op>, k: Key, i: nat, j: nat)
    requires i < j < |GrantsOf(Run(START, ops), k)|
    ensures var gs := GrantsOf(Run(START, ops), k); gs[i].done && gs[i].episode < gs[j].episode
  {
    RunInv(START, ops);
    assert Chained(GrantsOf(Run(START, ops), k));
  }

  /**
   * Over any run, a grant is told as its prior state the very state in which the grant before it
   * of that page was finished, Invalid if it is the first, and opens the episode after that one's.
   */
  lemma PriorIsPreviousFinish(ops: seq<Op>, k: Key, j: nat)
    requires j < |GrantsOf(Run(START, ops), k)|
    ensures var gs := GrantsOf(Run(START, ops), k);
            if j == 0 then gs[j].prior == Invalid && gs[j].episode == 1
            else gs[j - 1].done && gs[j].prior == gs[j - 1].final && gs[j].episode == gs[j - 1].episode + 1
  {
    RunInv(START, ops);
    assert Chained(GrantsOf(Run(START, ops), k));
  }

  /** A finish is accepted exactly for the page and episode of an unfinished grant; any other changes nothing. */
  lemma OnlyTheOpenClaimFinishes(ops: seq<Op>, claim: Claim, st: PgState)
    requires claim.episode != 0 && !Transient(st)
    ensures var w := Run(START, ops);
            var gs := GrantsOf(w, KeyOf(claim));
            var open := exists i | 0 <= i < |gs| :: !gs[i].done && gs[i].episode == claim.episode;
            && (FinishOutcome(w.m, claim, st).Finished? <==> open)
            && (!open ==> Perform(w, OpFinish(claim, st)) == w)
  {
    RunInv(START, ops);
    var w := Run(START, ops);
    var gs := GrantsOf(w, KeyOf(claim));
    assert Chained(gs) && SlotOf(w.m, KeyOf(claim)) == Shown(gs);
    if FinishOutcome(w.m, claim, st).Finished? {
      assert !gs[|gs| - 1].done && gs[|gs| - 1].episode == claim.episode;
    }
  }
}
