/**
 * One connection of the serve loop in vmhome.c: a page request takes a native ticket
 * (ctx_page()), an installation settles it (ctx_page_ack()), and everything else, native
 * admission above all, waits until no ticket is unsettled.
 */
module Serve {
  import opened MemoryIdentity
  import Custody
  import Admission
  import ForkCow
  import Pages

  const EBUSY := Custody.OtherError(16)
  const ESRCH := Custody.OtherError(3)
  const ENXIO := Custody.OtherError(6)
  const PG_THEIRS := 2

  datatype PageReply = Bytes | CowBreak | Claiming | NotHolder | Absent | Denied | NoMap | Failed | Gone

  /** The kernel's answers to the calls one page request may make. */
  datatype PageCalls = PageCalls(
    share: ForkCow.ShareProbe,
    begin: Custody.Reply, capture: Custody.Reply, read: Custody.Reply, cancel: Custody.Reply, forget: Custody.Reply)

  /** The captured outcome delivers the page: bytes, or zeros with an explicit grant. */
  predicate Delivers(o: Custody.Outcome) {
    o.status == Custody.TAKEN || o.status == Custody.COPIED || (o.status == Custody.ABSENT && o.grant)
  }

  function Refusal(o: Custody.Outcome): PageReply {
    if o.status == Custody.CLAIMING then Claiming
    else if o.status == Custody.ABSENT then (if o.state == PG_THEIRS then NotHolder else Absent)
    else if o.status == Custody.DENIED then Denied
    else if o.status == Custody.NOMAP then NoMap
    else Failed
  }

  /** The connection may begin, and the kernel issues a ticket for exactly this page. */
  predicate Begins(mine: bool, closed: bool, target: Binding, address: nat, reply: Custody.Reply) {
    && mine && !closed && ValidBinding(target) && target.context <= 0x7fff_ffff && address % Pages.PAGE == 0
    && reply.Answer? && reply.ticket != 0
    && Custody.Echoes(reply, Custody.BEGIN, Custody.NewTransfer(target.mm, address, reply.ticket))
  }

  /** The kernel captures the page under that ticket, with a legal outcome. */
  predicate Captures(target: Binding, address: nat, native: PageCalls) {
    && native.begin.Answer?
    && Custody.Echoes(native.capture, Custody.CAPTURE, Custody.NewTransfer(target.mm, address, native.begin.ticket))
    && Custody.LegalOutcome(native.capture.outcome)
  }

  /**
   * ctx_page() for an aligned page. Bytes leave only under a ticket that was captured and read,
   * and that ticket stays pending; an answer other than Bytes or Failed leaves the pending list
   * as it was. Whether the page is still its parent's is decided before any ticket is taken.
   */
  method CtxPage(
    lineage: ForkCow.Lineage, custody: Custody.Connection, thread: int, target: Binding, address: nat, nocow: bool,
    native: PageCalls)
    returns (r: PageReply)
    requires custody.Valid() && lineage.Valid()
    requires native.begin.Answer? ==> native.begin.ticket !in custody.issued || native.begin.ticket == 0
    modifies custody
    ensures custody.Valid() && custody.closed == old(custody.closed) && old(custody.dead) <= custody.dead
    ensures r == Bytes ==>
              && native.begin.Answer? && |custody.pending| == |old(custody.pending)| + 1
              && custody.pending[1..] == old(custody.pending)
              && Custody.IdOf(custody.pending[0]) == Custody.Id(target, address, native.begin.ticket)
              && custody.pending[0].transfer.read && Delivers(custody.pending[0].transfer.outcome)
    ensures r != Bytes && r != Failed ==> custody.pending == old(custody.pending)
    ensures r == CowBreak <==> !nocow && target.mm in lineage.View() && native.share == ForkCow.Seen(false, false, false)
    ensures r == CowBreak || (!nocow && target.mm in lineage.View() && native.share.ShareProbeFailed?) ==>
              custody.View() == old(custody.View())
    ensures !nocow && target.mm in lineage.View() && native.share.ShareProbeFailed? ==> r == Failed
    ensures r == Bytes <==>
            && (nocow || target.mm !in lineage.View()
                || (native.share.Seen? && (native.share.recorded || native.share.sharedMapping || native.share.present)))
            && Begins(old(custody.owned) ==> old(custody.owner) == thread, old(custody.closed), target, address, native.begin)
            && Captures(target, address, native) && Delivers(native.capture.outcome)
            && Custody.Echoes(native.read, Custody.READ, Custody.NewTransfer(target.mm, address, native.begin.ticket))
            && native.read.outcome == native.capture.outcome
  {
    var sharing := ForkCow.CowStillShared(lineage, target.mm, nocow, native.share);
    if sharing == ForkCow.ShareUnknown {
      return Failed;
    }
    if sharing == ForkCow.StillShared {
      return CowBreak;
    }
    var begun, entered := custody.Begin(thread, target, address, native.begin);
    if begun.Err? {
      return if !entered && (begun.errno == ESRCH || begun.errno == ENXIO) then Gone else Failed;
    }
    r := CaptureAndRead(custody, thread, target, address, native);
  }

  /** Drops the entry just begun. */
  method Undo(custody: Custody.Connection, thread: int, target: Binding, address: nat, native: PageCalls)
    returns (ok: bool)
    requires custody.Valid() && custody.pending != []
    requires Custody.IdOf(custody.pending[0]) == Custody.Id(target, address, custody.pending[0].transfer.ticket)
    modifies custody
    ensures custody.Valid() && custody.closed == old(custody.closed) && old(custody.dead) <= custody.dead
    ensures ok ==> custody.pending == old(custody.pending)[1..]
  {
    var s := custody.Cancel(thread, target, address, custody.pending[0].transfer.ticket, native.cancel, native.forget);
    ok := s.Ok?;
    assert old(custody.pending)[..0] + old(custody.pending)[1..] == old(custody.pending)[1..];
  }

  method CaptureAndRead(custody: Custody.Connection, thread: int, target: Binding, address: nat, native: PageCalls)
    returns (r: PageReply)
    requires custody.Valid() && custody.pending != []
    requires Custody.IdOf(custody.pending[0]) == Custody.Id(target, address, custody.pending[0].transfer.ticket)
    modifies custody
    ensures custody.Valid() && custody.closed == old(custody.closed) && old(custody.dead) <= custody.dead
    ensures r == Bytes ==>
              && |custody.pending| == |old(custody.pending)| && custody.pending[1..] == old(custody.pending)[1..]
              && Custody.IdOf(custody.pending[0]) == Custody.IdOf(old(custody.pending)[0])
              && custody.pending[0].transfer.read && Delivers(custody.pending[0].transfer.outcome)
    ensures r != Bytes && r != Failed ==> custody.pending == old(custody.pending)[1..]
    ensures var (t, captured) := Custody.Captured(old(custody.pending)[0].transfer, native.capture);
            && (r == Bytes <==> captured.Ok? && Delivers(t.outcome) && Custody.ReadOut(t, native.read).1.Ok?)
            && (captured.Ok? && !Delivers(t.outcome) ==> r == Refusal(t.outcome) || r == Failed)
            && (r == Bytes ==> t.outcome.status in {Custody.TAKEN, Custody.COPIED}
                               || (t.outcome.status == Custody.ABSENT && t.outcome.grant))
            && (captured.Ok? && (t.outcome.status in {Custody.TAKEN, Custody.COPIED} || t.outcome.grant) ==>
                  r == Bytes || r == Failed)
            && (r == Claiming ==> t.outcome.status == Custody.CLAIMING || captured == Custody.Err(EBUSY))
            && (r == NotHolder ==> t.outcome.status == Custody.ABSENT && t.outcome.state == PG_THEIRS && !t.outcome.grant)
            && (r == Absent ==> t.outcome.status == Custody.ABSENT && t.outcome.state != PG_THEIRS && !t.outcome.grant)
            && (r == Denied ==> t.outcome.status == Custody.DENIED)
            && (r == NoMap ==> t.outcome.status == Custody.NOMAP)
    ensures r != Gone && r != CowBreak
  {
    var captured := custody.Capture(0, native.capture);
    if captured.Err? {
      var undone := false;
      if captured.errno == EBUSY {
        undone := Undo(custody, thread, target, address, native);
      }
      return if undone then Claiming else Failed;
    }
    var outcome := custody.pending[0].transfer.outcome;
    if Delivers(outcome) {
      var read := custody.Read(0, native.read);
      return if read.Ok? then Bytes else Failed;
    }
    var undone := Undo(custody, thread, target, address, native);
    r := if undone then Refusal(outcome) else Failed;
  }

  /** A request, with the answers the native side gives to the calls it leads to. */
  datatype Request =
    | CtxPageRequest(target: Binding, address: nat, nocow: bool, native: PageCalls)
    | Installed(target: Binding, address: nat, ticket: nat, ack: Custody.Reply, forget: Custody.Reply)
    | StaleTrail
    | CallStep(step: Admission.Request, answers: Admission.Native)
    | OtherRequest

  /** May be served while tickets are unsettled. */
  predicate MaySettle(q: Request) {
    q.CtxPageRequest? || q.Installed? || q.StaleTrail?
  }

  class Connection {
    const custody: Custody.Connection
    const admission: Admission.Call
    const lineage: ForkCow.Lineage
    /** The unsettled entries at each admission step so far. */
    ghost var held: seq<nat>

    ghost predicate Valid()
      reads this, custody, admission, lineage
    {
      custody.Valid() && lineage.Valid() && admission.Valid() && forall i | 0 <= i < |held| :: held[i] == 0
    }

    constructor (lineage: ForkCow.Lineage)
      requires lineage.Valid()
      ensures Valid() && this.lineage == lineage && fresh(custody) && fresh(admission) && held == []
    {
      this.lineage := lineage;
      custody := new Custody.Connection();
      admission := new Admission.Call();
      held := [];
    }

    /** One turn of the serve loop; it ends the connection on a request it must not serve. */
    method Handle(thread: int, q: Request) returns (open: bool)
      requires Valid()
      requires q.CtxPageRequest? && q.native.begin.Answer? ==>
                 q.native.begin.ticket !in custody.issued || q.native.begin.ticket == 0
      modifies this, custody, admission
      ensures Valid()
      ensures old(custody.pending) != [] && !MaySettle(q) ==>
                !open && custody.View() == old(custody.View()) && admission.trace == old(admission.trace)
                && held == old(held)
      ensures admission.trace != old(admission.trace) || admission.next != old(admission.next) ==>
                q.CallStep? && old(custody.pending) == [] && custody.View() == old(custody.View())
      ensures held == if q.CallStep? && old(custody.pending) == [] then old(held) + [0] else old(held)
      ensures !open ==> !MaySettle(q)
    {
      if custody.count != 0 && !MaySettle(q) {
        return false;
      }
      open := true;
      match q
      case CtxPageRequest(target, address, nocow, native) =>
        var _ := CtxPage(lineage, custody, thread, target, address, nocow, native);
      case Installed(target, address, ticket, ack, forget) =>
        var _ := custody.Ack(thread, target, address, ticket, ack, forget);
      case CallStep(step, answers) =>
        held := held + [|custody.pending|];
        var r := admission.Step(step, answers);
        open := r != Admission.Failed;
      case _ =>
    }
  }
}
