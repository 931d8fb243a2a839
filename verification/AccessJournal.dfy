/**
 * Applying the source's access journal: access-journal.h. A batch of events updates the
 * range table except where a mapping built later already covers the address. The native
 * mapping change of a span may fail, which stops the batch there.
 */
module AccessJournal {
  import opened Basics
  import opened Pages
  import opened Intervals
  import opened AccessLayout

  const UNMAP := 1
  const DISCARD := 2
  const PROTECT := 3
  const DENY := 4
  const ALLOW := 5
  const CONSTRUCT := 6
  const BATCH_MAX: nat := 16

  datatype Event = Event(sequence: nat, start: nat, end: nat, kind: nat, protection: nat)

  /** A published mapping incarnation; rows that only change protection are marked. */
  datatype Construction = Construction(space: nat, start: nat, end: nat, seq_: nat, onlyProtects: bool)

  datatype Batch = Batch(identity: nat, acknowledged: nat, cursor: nat, head: nat, reserved: nat, events: seq<Event>)

  // ---- what an event means at one address ----

  /** The construction outranks the event; a tie counts as newer only for an unmap. */
  predicate Outranks(c: Construction, space: nat, e: Event) {
    c.space == space && !c.onlyProtects && (c.seq_ > e.sequence || (c.seq_ == e.sequence && e.kind == UNMAP))
  }

  predicate BuiltLater(cons: seq<Construction>, space: nat, e: Event, a: nat) {
    exists i | 0 <= i < |cons| :: Outranks(cons[i], space, e) && cons[i].start <= a < cons[i].end
  }

  /** Rights after an event reaches an address: a newer stamp wins, a protect keeps the guard. */
  function Updated(o: Option<Rights>, e: Event): Option<Rights> {
    if e.kind == DISCARD || (o.Some? && o.value.sequence > e.sequence) then o
    else
      var guarded := o.Some? && o.value.denied;
      Some(Rights(e.sequence,
                  if e.kind == UNMAP then 0 else e.protection,
                  if e.kind == PROTECT then guarded else e.kind == DENY || e.kind == UNMAP))
  }

  function Stamp(o: Option<Rights>): int {
    if o.Some? then o.value.sequence else -1
  }

  predicate Guarded(o: Option<Rights>) {
    o.Some? && o.value.denied
  }

  function EventAt(cons: seq<Construction>, space: nat, e: Event, a: nat, o: Option<Rights>): Option<Rights> {
    if e.start <= a < e.end && !BuiltLater(cons, space, e, a) then Updated(o, e) else o
  }

  function BatchAt(cons: seq<Construction>, space: nat, events: seq<Event>, a: nat, o: Option<Rights>): Option<Rights> {
    if events == [] then o
    else
      var n := |events| - 1;
      EventAt(cons, space, events[n], a, BatchAt(cons, space, events[..n], a, o))
  }

  // ---- the acceptor ----

  predicate Increasing(events: seq<Event>, after: nat) {
    && (forall i | 0 <= i < |events| :: after < events[i].sequence)
    && (forall i, j | 0 <= i < j < |events| :: events[i].sequence < events[j].sequence)
  }

  predicate WellFormedEvent(e: Event, head: nat) {
    && e.sequence <= head && e.start < e.end
    && e.start % PAGE == 0 && e.end % PAGE == 0
    && UNMAP <= e.kind <= CONSTRUCT && e.protection <= 7
  }

  function LastSequence(events: seq<Event>, after: nat): nat {
    if events == [] then after else events[|events| - 1].sequence
  }

  /** What access_batch_valid() accepts: consecutive with the cursor, ordered, aligned. */
  predicate ValidBatch(b: Batch, identity: nat, acknowledged: nat) {
    && b.identity == identity && b.reserved == 0 && |b.events| <= BATCH_MAX
    && b.acknowledged == acknowledged && b.cursor <= b.head
    && Increasing(b.events, acknowledged)
    && (forall i | 0 <= i < |b.events| :: WellFormedEvent(b.events[i], b.head))
    && b.cursor == LastSequence(b.events, acknowledged)
  }

  method CheckBatch(b: Batch, identity: nat, acknowledged: nat) returns (ok: bool)
    ensures ok <==> ValidBatch(b, identity, acknowledged)
  {
    if b.identity != identity || b.reserved != 0 || |b.events| > BATCH_MAX
       || b.acknowledged != acknowledged || b.cursor > b.head {
      return false;
    }
    var previous := acknowledged;
    var i := 0;
    while i < |b.events|
      invariant 0 <= i <= |b.events|
      invariant previous == if i == 0 then acknowledged else b.events[i - 1].sequence
      invariant forall j | 0 <= j < i :: acknowledged < b.events[j].sequence <= previous
      invariant forall j, k | 0 <= j < k < i :: b.events[j].sequence < b.events[k].sequence
      invariant forall j | 0 <= j < i :: WellFormedEvent(b.events[j], b.head)
    {
      var e := b.events[i];
      if e.sequence <= previous || e.sequence > b.head || e.start >= e.end
         || e.start % PAGE != 0 || e.end % PAGE != 0
         || e.kind < UNMAP || e.kind > CONSTRUCT || e.protection > 7 {
        assert !Increasing(b.events, acknowledged) || !WellFormedEvent(b.events[i], b.head);
        return false;
      }
      previous := e.sequence;
      i := i + 1;
    }
    ok := b.cursor == previous;
  }

  // ---- application ----

  /** access_construction_boundary(): a prefix with one answer, to the next place it may change. */
  method Boundary(cons: seq<Construction>, space: nat, e: Event, start: nat, end: nat) returns (next: nat, skip: bool)
    requires start < end
    ensures start < next <= end
    ensures forall a: nat | start <= a < next :: BuiltLater(cons, space, e, a) <==> skip
  {
    next, skip := end, false;
    ghost var cover := 0;
    var i := 0;
    while i < |cons|
      invariant 0 <= i <= |cons| && start < next <= end
      invariant skip ==> cover < i && Outranks(cons[cover], space, e) && cons[cover].start <= start && next <= cons[cover].end
      invariant !skip ==> forall j | 0 <= j < i && Outranks(cons[j], space, e) ::
                            cons[j].end <= start || next <= cons[j].start
    {
      var c := cons[i];
      if !(c.space != space || c.onlyProtects || c.seq_ < e.sequence || (c.seq_ == e.sequence && e.kind != UNMAP)
           || c.end <= start || end <= c.start) {
        if c.start <= start {
          cover := if skip && cons[cover].end <= c.end then cover else i;
          skip := true;
          if c.end < next {
            next := c.end;
          }
        } else if c.start < next {
          next := c.start;
        }
      }
      i := i + 1;
    }
  }

  /** The table after an event has been applied to [start, reached) of one space. */
  ghost predicate SpanDone(before: seq<AccessRow>, after: seq<AccessRow>, space: nat, e: Event, start: nat, reached: nat) {
    forall x: nat, a: nat ::
      At(after, x, a) == if x == space && start <= a < reached then Updated(At(before, x, a), e) else At(before, x, a)
  }

  /** An event is ignored by a newer stamp; otherwise it leaves its stamp, its protection and its guard. */
  lemma UpdatedRights(o: Option<Rights>, e: Event)
    ensures e.kind == DISCARD || Stamp(o) > e.sequence ==> Updated(o, e) == o
    ensures var m := Updated(o, e);
            e.kind != DISCARD && Stamp(o) <= e.sequence ==>
              && Stamp(m) == e.sequence && m.value.protection == (if e.kind == UNMAP then 0 else e.protection)
              && (e.kind == DENY || e.kind == UNMAP ==> Guarded(m))
              && (e.kind == ALLOW || e.kind == CONSTRUCT ==> !Guarded(m))
              && (e.kind == PROTECT ==> (Guarded(m) <==> Guarded(o)))
  {
  }

  /** The loop of access_apply_span(), row by row. */
  method Sweep(layout: Layout, space: nat, e: Event, start: nat, end: nat) returns (ok: bool, ghost reached: nat)
    requires layout.Valid() && start < end <= U64_MAX
    modifies layout
    ensures layout.Valid() && start <= reached <= end && (ok ==> reached == end)
    ensures e.kind !in {PROTECT, DENY, ALLOW} ==> ok
    ensures SpanDone(old(layout.rows), layout.rows, space, e, start, reached)
    ensures e.kind == DISCARD ==> layout.rows == old(layout.rows)
  {
    if e.kind == DISCARD {
      return true, end;
    }
    var at := start;
    while at < end
      invariant start <= at <= end && layout.Valid()
      invariant SpanDone(old(layout.rows), layout.rows, space, e, start, at)
    {
      ghost var before := layout.rows;
      var have, r := layout.Lookup(space, at, end);
      var next := if r.end < end then r.end else end;
      ghost var o := At(before, space, at);
      assert forall a: nat | at <= a < next :: At(before, space, a) == o;
      if !(have && r.payload.sequence > e.sequence) {
        var guarded := r.payload.denied;
        var protection := e.protection;
        if e.kind != PROTECT {
          guarded := e.kind == DENY;
        }
        if e.kind == UNMAP {
          guarded, protection := true, 0;
        }
        layout.Note(Row(space, at, next, Rights(e.sequence, protection, guarded)));
        assert Updated(o, e) == Some(Rights(e.sequence, protection, guarded));
        assert SpanDone(old(layout.rows), layout.rows, space, e, start, next);
        if e.kind in {PROTECT, DENY, ALLOW} {
          var nativeOk: bool := *;
          if !nativeOk {
            return false, next;
          }
        }
      } else {
        assert Updated(o, e) == o;
      }
      at := next;
    }
    return true, end;
  }

  /** access_apply_span(): `reached` tells how far a failed call got. */
  method ApplySpan(layout: Layout, space: nat, e: Event, start: nat, end: nat) returns (ok: bool, ghost reached: nat)
    requires layout.Valid() && start < end <= U64_MAX
    modifies layout
    ensures layout.Valid() && start <= reached <= end && (ok ==> reached == end)
    ensures e.kind !in {PROTECT, DENY, ALLOW} ==> ok
    ensures SpanDone(old(layout.rows), layout.rows, space, e, start, reached)
    ensures e.kind == DISCARD ==> layout.rows == old(layout.rows)
    ensures forall a: nat | start <= a < reached && Stamp(At(old(layout.rows), space, a)) > e.sequence ::
              At(layout.rows, space, a) == At(old(layout.rows), space, a)
    ensures e.kind != DISCARD ==>
              forall a: nat | start <= a < reached && Stamp(At(old(layout.rows), space, a)) <= e.sequence ::
                && Stamp(At(layout.rows, space, a)) == e.sequence
                && At(layout.rows, space, a).value.protection == (if e.kind == UNMAP then 0 else e.protection)
                && (e.kind == DENY || e.kind == UNMAP ==> Guarded(At(layout.rows, space, a)))
                && (e.kind == ALLOW || e.kind == CONSTRUCT ==> !Guarded(At(layout.rows, space, a)))
                && (e.kind == PROTECT ==>
                      (Guarded(At(layout.rows, space, a)) <==> Guarded(At(old(layout.rows), space, a))))
  {
    ok, reached := Sweep(layout, space, e, start, end);
    forall a: nat | start <= a < reached {
      UpdatedRights(At(old(layout.rows), space, a), e);
    }
  }

  /** The table after an event has been applied below `reached`. */
  ghost predicate EventDone(
    cons: seq<Construction>, before: seq<AccessRow>, after: seq<AccessRow>, space: nat, e: Event, reached: nat)
  {
    forall x: nat, a: nat ::
      At(after, x, a)
      == if x == space && a < reached then EventAt(cons, space, e, a, At(before, x, a)) else At(before, x, a)
  }

  /** One event of access_apply_batch(): alternate between skipped and applied spans. */
  method ApplyEvent(layout: Layout, cons: seq<Construction>, space: nat, e: Event) returns (ok: bool, ghost reached: nat)
    requires layout.Valid() && e.start < e.end <= U64_MAX
    modifies layout
    ensures layout.Valid() && reached <= e.end && (ok ==> reached == e.end)
    ensures EventDone(cons, old(layout.rows), layout.rows, space, e, reached)
  {
    var at := e.start;
    while at < e.end
      invariant e.start <= at <= e.end && layout.Valid()
      invariant EventDone(cons, old(layout.rows), layout.rows, space, e, at)
    {
      var next, skip := Boundary(cons, space, e, at, e.end);
      if !skip {
        ok, reached := ApplySpan(layout, space, e, at, next);
        if !ok {
          return;
        }
      }
      at := next;
    }
    return true, e.end;
  }

  /** access_apply_batch(): success means the pointwise fold of all events, in order. */
  method ApplyBatch(layout: Layout, cons: seq<Construction>, space: nat, events: seq<Event>)
    returns (ok: bool, ghost done: nat, ghost reached: nat)
    requires layout.Valid() && forall i | 0 <= i < |events| :: events[i].start < events[i].end <= U64_MAX
    modifies layout
    ensures layout.Valid() && done <= |events| && (ok <==> done == |events|)
    ensures ok ==> forall x: nat, a: nat ::
              At(layout.rows, x, a) == if x == space then BatchAt(cons, space, events, a, At(old(layout.rows), x, a))
                                       else At(old(layout.rows), x, a)
    ensures !ok ==> forall x: nat, a: nat ::
              At(layout.rows, x, a)
              == if x == space then BatchAt(cons, space, events[..if a < reached then done + 1 else done], a, At(old(layout.rows), x, a))
                 else At(old(layout.rows), x, a)
  {
    var i := 0;
    reached := 0;
    while i < |events|
      invariant 0 <= i <= |events| && layout.Valid()
      invariant forall x: nat, a: nat ::
        At(layout.rows, x, a) == if x == space then BatchAt(cons, space, events[..i], a, At(old(layout.rows), x, a))
                                 else At(old(layout.rows), x, a)
    {
      assert events[..i + 1][..i] == events[..i];
      ok, reached := ApplyEvent(layout, cons, space, events[i]);
      if !ok {
        return false, i, reached;
      }
      i := i + 1;
    }
    assert events[..i] == events;
    return true, i, reached;
  }

  // ---- what a batch cannot do ----

  /** Stamps never decrease. */
  lemma {:induction false} StampNeverDecreases(cons: seq<Construction>, space: nat, events: seq<Event>, a: nat, o: Option<Rights>)
    ensures Stamp(o) <= Stamp(BatchAt(cons, space, events, a, o))
  {
    if events != [] {
      StampNeverDecreases(cons, space, events[..|events| - 1], a, o);
    }
  }

  /** Re-applying any one event of an already applied batch changes nothing. */
  lemma {:induction false} EventIsAbsorbed(
    cons: seq<Construction>, space: nat, events: seq<Event>, after: nat, i: nat, a: nat, o: Option<Rights>)
    requires Increasing(events, after) && i < |events|
    ensures var m := BatchAt(cons, space, events, a, o); EventAt(cons, space, events[i], a, m) == m
  {
    var n := |events| - 1;
    if i < n {
      EventIsAbsorbed(cons, space, events[..n], after, i, a, o);
    }
  }

  lemma {:induction false} PrefixIsAbsorbed(
    cons: seq<Construction>, space: nat, events: seq<Event>, after: nat, k: nat, a: nat, o: Option<Rights>)
    requires Increasing(events, after) && k <= |events|
    ensures var m := BatchAt(cons, space, events, a, o); BatchAt(cons, space, events[..k], a, m) == m
  {
    if k > 0 {
      PrefixIsAbsorbed(cons, space, events, after, k - 1, a, o);
      assert events[..k][..k - 1] == events[..k - 1];
      EventIsAbsorbed(cons, space, events, after, k - 1, a, o);
    }
  }

  /** Replaying a whole batch changes nothing, so a repeated READ is harmless. */
  lemma ReplayChangesNothing(cons: seq<Construction>, space: nat, events: seq<Event>, after: nat, a: nat, o: Option<Rights>)
    requires Increasing(events, after)
    ensures BatchAt(cons, space, events, a, BatchAt(cons, space, events, a, o)) == BatchAt(cons, space, events, a, o)
  {
    PrefixIsAbsorbed(cons, space, events, after, |events|, a, o);
    assert events[..|events|] == events;
  }

  /** A guard disappears only through an ALLOW or a CONSTRUCT that reaches the address. */
  lemma {:induction false} OnlyAllowOrConstructClears(
    cons: seq<Construction>, space: nat, events: seq<Event>, a: nat, o: Option<Rights>)
    requires forall i | 0 <= i < |events| :: UNMAP <= events[i].kind <= CONSTRUCT
    requires Guarded(o) && !Guarded(BatchAt(cons, space, events, a, o))
    ensures exists i | 0 <= i < |events| ::
              events[i].kind in {ALLOW, CONSTRUCT} && events[i].start <= a < events[i].end
              && !BuiltLater(cons, space, events[i], a)
  {
    var n := |events| - 1;
    if !Guarded(BatchAt(cons, space, events[..n], a, o)) {
      OnlyAllowOrConstructClears(cons, space, events[..n], a, o);
      var i :| 0 <= i < n && events[..n][i].kind in {ALLOW, CONSTRUCT} && events[..n][i].start <= a < events[..n][i].end
               && !BuiltLater(cons, space, events[..n][i], a);
      assert events[i] == events[..n][i];
    }
  }

  // ---- what a batch does ----

  /** A newer mapping is left alone, and so is one built by the very unmap. */
  lemma NewerMappingIsKept(cons: seq<Construction>, space: nat, e: Event, a: nat, o: Option<Rights>, i: nat)
    requires i < |cons| && cons[i].space == space && !cons[i].onlyProtects && cons[i].start <= a < cons[i].end
    requires e.sequence < cons[i].seq_ || (e.sequence == cons[i].seq_ && e.kind == UNMAP)
    ensures EventAt(cons, space, e, a, o) == o
  {
    assert Outranks(cons[i], space, e);
  }

  /** No mapping of the space newer than the event covers the address; protections do not count. */
  ghost predicate NotOutdated(cons: seq<Construction>, space: nat, e: Event, a: nat) {
    forall i | 0 <= i < |cons| && cons[i].space == space && cons[i].start <= a < cons[i].end ::
      cons[i].onlyProtects || cons[i].seq_ < e.sequence || (cons[i].seq_ == e.sequence && e.kind != UNMAP)
  }

  /** The event changes the address. */
  ghost predicate Reaches(cons: seq<Construction>, space: nat, e: Event, a: nat) {
    e.kind != DISCARD && e.start <= a < e.end && NotOutdated(cons, space, e, a)
  }

  /** What an event that reaches an address leaves there. */
  lemma ReachedRights(cons: seq<Construction>, space: nat, e: Event, a: nat, o: Option<Rights>)
    ensures !Reaches(cons, space, e, a) || Stamp(o) > e.sequence ==> EventAt(cons, space, e, a, o) == o
    ensures var m := EventAt(cons, space, e, a, o);
            Reaches(cons, space, e, a) && Stamp(o) <= e.sequence ==>
              && Stamp(m) == e.sequence && m.value.protection == (if e.kind == UNMAP then 0 else e.protection)
              && (e.kind == DENY || e.kind == UNMAP ==> Guarded(m))
              && (e.kind == ALLOW || e.kind == CONSTRUCT ==> !Guarded(m))
              && (e.kind == PROTECT ==> (Guarded(m) <==> Guarded(o)))
  {
    if BuiltLater(cons, space, e, a) {
      var i :| 0 <= i < |cons| && Outranks(cons[i], space, e) && cons[i].start <= a < cons[i].end;
      assert !NotOutdated(cons, space, e, a);
    } else {
      forall i | 0 <= i < |cons| && cons[i].space == space && cons[i].start <= a < cons[i].end
        ensures !Outranks(cons[i], space, e)
      {
      }
      assert NotOutdated(cons, space, e, a);
    }
  }

  /** The last event of the batch that reaches the address. */
  ghost function LastReach(cons: seq<Construction>, space: nat, events: seq<Event>, a: nat): Option<Event> {
    if events == [] then None
    else
      var n := |events| - 1;
      if Reaches(cons, space, events[n], a) then Some(events[n]) else LastReach(cons, space, events[..n], a)
  }

  /** The last event that decides the guard there, as a protect does not. */
  ghost function LastDecider(cons: seq<Construction>, space: nat, events: seq<Event>, a: nat): Option<Event> {
    if events == [] then None
    else
      var n := |events| - 1;
      if Reaches(cons, space, events[n], a) && events[n].kind != PROTECT then Some(events[n])
      else LastDecider(cons, space, events[..n], a)
  }

  lemma {:induction false} LastReachIsLast(cons: seq<Construction>, space: nat, events: seq<Event>, a: nat)
    ensures match LastReach(cons, space, events, a)
            case None => forall i | 0 <= i < |events| :: !Reaches(cons, space, events[i], a)
            case Some(e) => exists i | 0 <= i < |events| ::
                              events[i] == e && Reaches(cons, space, e, a)
                              && forall j | i < j < |events| :: !Reaches(cons, space, events[j], a)
  {
    if events != [] {
      var n := |events| - 1;
      LastReachIsLast(cons, space, events[..n], a);
      if Reaches(cons, space, events[n], a) {
        assert LastReach(cons, space, events, a) == Some(events[n]);
      } else if LastReach(cons, space, events[..n], a).Some? {
        var e := LastReach(cons, space, events[..n], a).value;
        var i :| 0 <= i < n && events[..n][i] == e && forall j | i < j < n :: !Reaches(cons, space, events[..n][j], a);
        forall j | i < j < |events|
          ensures !Reaches(cons, space, events[j], a)
        {
          if j < n {
            assert events[..n][j] == events[j];
          }
        }
        assert events[i] == e;
      } else {
        forall i | 0 <= i < |events|
          ensures !Reaches(cons, space, events[i], a)
        {
          if i < n {
            assert events[..n][i] == events[i];
          }
        }
      }
    }
  }

  /** Stamp and protection as the last event left them, the guard as the last decision did. */
  ghost predicate RightsAre(m: Option<Rights>, o: Option<Rights>, last: Option<Event>, decider: Option<Event>) {
    && (last.None? ==> m == o)
    && (last.Some? ==> Stamp(m) == last.value.sequence
                       && m.value.protection == if last.value.kind == UNMAP then 0 else last.value.protection)
    && (Guarded(m) <==> if decider.None? then Guarded(o) else decider.value.kind in {UNMAP, DENY})
  }

  /**
   * Over a whole ordered batch, whose events are newer than what the address holds: stamp and
   * protection are those of the last event that reaches it, the guard is what the last event but
   * protects decided, and an address nothing reaches is unchanged.
   */
  lemma {:induction false} BatchRights(
    cons: seq<Construction>, space: nat, events: seq<Event>, after: nat, a: nat, o: Option<Rights>)
    requires Increasing(events, after) && Stamp(o) <= after
    requires forall i | 0 <= i < |events| :: UNMAP <= events[i].kind <= CONSTRUCT
    ensures RightsAre(BatchAt(cons, space, events, a, o), o,
                      LastReach(cons, space, events, a), LastDecider(cons, space, events, a))
  {
    if events != [] {
      var n := |events| - 1;
      BatchRights(cons, space, events[..n], after, a, o);
      StampBelow(cons, space, events[..n], a, o, events[n].sequence);
      NextRights(cons, space, events[n], a, BatchAt(cons, space, events[..n], a, o), o,
                 LastReach(cons, space, events[..n], a), LastDecider(cons, space, events[..n], a));
    }
  }

  lemma NextRights(
    cons: seq<Construction>, space: nat, e: Event, a: nat, m: Option<Rights>, o: Option<Rights>,
    last: Option<Event>, decider: Option<Event>)
    requires RightsAre(m, o, last, decider) && Stamp(m) <= e.sequence && UNMAP <= e.kind <= CONSTRUCT
    ensures RightsAre(EventAt(cons, space, e, a, m), o,
                      if Reaches(cons, space, e, a) then Some(e) else last,
                      if Reaches(cons, space, e, a) && e.kind != PROTECT then Some(e) else decider)
  {
    ReachedRights(cons, space, e, a, m);
  }

  lemma {:induction false} StampBelow(
    cons: seq<Construction>, space: nat, events: seq<Event>, a: nat, o: Option<Rights>, bound: nat)
    requires Stamp(o) <= bound && forall i | 0 <= i < |events| :: events[i].sequence < bound
    ensures Stamp(BatchAt(cons, space, events, a, o)) <= bound
  {
    if events != [] {
      StampBelow(cons, space, events[..|events| - 1], a, o, bound);
    }
  }
}
