/**
 * Native page custody of one connection: source-transfer.h and source-custody.h. The native
 * kernel answers every call as it likes (success, a malformed answer, any error); the ghost
 * log records each call and whether its answer confirmed exactly the operation asked for.
 */
module Custody {
  import opened MemoryIdentity
  import opened Pages

  datatype Errno = EINVAL | EPERM | ESHUTDOWN | EPROTO | ESTALE | ECANCELED | ENOENT | OtherError(code: int)

  datatype Status = Ok | Err(errno: Errno)

  datatype Op = BEGIN | CAPTURE | READ | ACK | CANCEL | FORGET | ABANDON

  /** What a capture reports about the page. */
  datatype Outcome = Outcome(status: nat, grant: bool, class_: nat, state: nat, gen: nat, sum: nat)

  const TAKEN := 1
  const COPIED := 2
  const ABSENT := 3
  const CLAIMING := 4
  const DENIED := 5
  const NOMAP := 6

  predicate LegalOutcome(o: Outcome) {
    && TAKEN <= o.status <= NOMAP && o.state <= 4 && o.sum <= 0xffff
    && (o.grant ==> o.status == COPIED || o.status == ABSENT)
  }

  /** A native answer, with the request fields it echoes. */
  datatype Reply =
    | Refused(errno: Errno)
    | Answer(op: Op, mm: nat, address: nat, ticket: nat, headerOk: bool, outcome: Outcome)

  datatype Call = Call(op: Op, mm: nat, address: nat, ticket: nat, confirmed: bool)

  const ABANDONED := Call(ABANDON, 0, 0, 0, true)

  /** struct source_transfer; `stale` is a settlement error. */
  datatype Transfer = Transfer(
    mm: nat, address: nat, ticket: nat, outcome: Outcome,
    captured: bool, read: bool, settled: bool, cancelled: bool, stale: bool)

  datatype Entry = Entry(target: Binding, transfer: Transfer)

  // ---- one native step of a transfer ----

  /** source_transfer_step(): only FORGET may go unechoed. */
  function StepStatus(t: Transfer, op: Op, reply: Reply): Status {
    if t.ticket == 0 || t.mm == 0 then Err(EINVAL)
    else match reply
      case Refused(errno) => Err(errno)
      case Answer(op', mm, address, ticket, headerOk, _) =>
        if op == FORGET || (op' == op && mm == t.mm && address == t.address && ticket == t.ticket && headerOk)
        then Ok else Err(EPROTO)
  }

  function StepLog(t: Transfer, op: Op, reply: Reply): seq<Call> {
    if t.ticket == 0 || t.mm == 0 then [] else [Call(op, t.mm, t.address, t.ticket, StepStatus(t, op, reply).Ok?)]
  }

  /** source_transfer_capture(): a repeated capture must report the same outcome. */
  function Captured(t: Transfer, reply: Reply): (Transfer, Status) {
    var status := StepStatus(t, CAPTURE, reply);
    if status.Err? then (t, status)
    else if !reply.Answer? || !LegalOutcome(reply.outcome) || (t.captured && reply.outcome != t.outcome)
    then (t, Err(EPROTO))
    else (t.(outcome := reply.outcome, captured := true), Ok)
  }

  /** source_transfer_read(). */
  function ReadOut(t: Transfer, reply: Reply): (Transfer, Status) {
    if !t.captured then (t, Err(EINVAL))
    else
      var status := StepStatus(t, READ, reply);
      if status.Err? then (t, status)
      else if !reply.Answer? || reply.outcome != t.outcome then (t, Err(EPROTO))
      else (t.(read := true), Ok)
  }

  /** source_transfer_ack(): a settled transfer repeats its settlement without a native call. */
  function Acked(t: Transfer, reply: Reply): (Transfer, Status) {
    if t.cancelled then (t, Err(ECANCELED))
    else if !t.read then (t, Err(EINVAL))
    else if t.settled then (t, if t.stale then Err(ESTALE) else Ok)
    else
      var status := StepStatus(t, ACK, reply);
      if status.Ok? || status.errno == ESTALE then (t.(settled := true, stale := status.Err?), status) else (t, status)
  }

  /** source_transfer_cancel(). */
  function Cancelled(t: Transfer, reply: Reply): (Transfer, Status) {
    if t.settled then (t, Ok)
    else
      var status := StepStatus(t, CANCEL, reply);
      if status.Err? then (t, status) else (t.(settled := true, cancelled := true), Ok)
  }

  /** The answer echoes the operation, the page and the ticket asked about. */
  predicate Echoes(reply: Reply, op: Op, t: Transfer) {
    && reply.Answer? && reply.op == op && reply.headerOk
    && reply.mm == t.mm && reply.address == t.address && reply.ticket == t.ticket
  }

  predicate Issued(t: Transfer) {
    t.ticket != 0 && t.mm != 0
  }

  /** A capture succeeds exactly on an echoed, legal outcome that agrees with an earlier one, and keeps it. */
  lemma CaptureMeans(t: Transfer, reply: Reply)
    ensures var (t', s) := Captured(t, reply);
            && (s.Ok? <==> Issued(t) && Echoes(reply, CAPTURE, t) && LegalOutcome(reply.outcome)
                           && (t.captured ==> reply.outcome == t.outcome))
            && t' == if s.Ok? then t.(captured := true, outcome := reply.outcome) else t
  {
  }

  /** A read succeeds exactly on an echoed answer with the captured outcome. */
  lemma ReadMeans(t: Transfer, reply: Reply)
    ensures var (t', s) := ReadOut(t, reply);
            && (s.Ok? <==> t.captured && Issued(t) && Echoes(reply, READ, t) && reply.outcome == t.outcome)
            && t' == if s.Ok? then t.(read := true) else t
  {
  }

  /**
   * An ACK succeeds exactly for a transfer that was read and not cancelled, and that was settled
   * without being stale or is echoed now; ESTALE settles it too, as stale; nothing else does.
   */
  lemma AckMeans(t: Transfer, reply: Reply)
    ensures var (t', s) := Acked(t, reply);
            var asks := t.read && !t.cancelled && !t.settled && Issued(t);
            && (s.Ok? <==> t.read && !t.cancelled && (if t.settled then !t.stale else Issued(t) && Echoes(reply, ACK, t)))
            && t' == (if asks && Echoes(reply, ACK, t) then t.(settled := true, stale := false)
                      else if asks && reply == Refused(ESTALE) then t.(settled := true, stale := true) else t)
  {
  }

  /** A cancellation succeeds exactly if the transfer is settled already or the cancel is echoed. */
  lemma CancelMeans(t: Transfer, reply: Reply)
    ensures var (t', s) := Cancelled(t, reply);
            && (s.Ok? <==> t.settled || (Issued(t) && Echoes(reply, CANCEL, t)))
            && t' == if !t.settled && s.Ok? then t.(settled := true, cancelled := true) else t
  {
  }

  /** The calls an operation makes: none when it is answered locally. */
  function AckLog(t: Transfer, reply: Reply): seq<Call> {
    if t.cancelled || !t.read || t.settled then [] else StepLog(t, ACK, reply)
  }

  function CancelLog(t: Transfer, reply: Reply): seq<Call> {
    if t.settled then [] else StepLog(t, CANCEL, reply)
  }

  // ---- what the log proves about an entry ----

  ghost predicate Confirmed(log: seq<Call>, op: Op, t: Transfer) {
    Call(op, t.mm, t.address, t.ticket, true) in log
  }

  /** Every flag of an entry rests on confirmed native answers for exactly its page and ticket. */
  ghost predicate Justified(log: seq<Call>, dead: set<nat>, e: Entry) {
    var t := e.transfer;
    && t.mm == e.target.mm && t.mm != 0
    && (t.captured ==> Confirmed(log, CAPTURE, t))
    && (t.read ==> t.captured && Confirmed(log, READ, t))
    && (t.settled && !t.cancelled ==> t.read)
    && (t.settled && !t.cancelled && !t.stale ==> Confirmed(log, ACK, t))
    && (t.cancelled ==> t.settled && !t.stale && Confirmed(log, CANCEL, t))
    && (t.stale ==> t.settled)
    && (t.ticket != 0 ==> (t.ticket in dead <==> t.cancelled || t.stale))
  }

  datatype Id = Id(target: Binding, address: nat, ticket: nat)

  function IdOf(e: Entry): Id {
    Id(e.target, e.transfer.address, e.transfer.ticket)
  }

  /** The entry's custody ended natively: FORGET of its ticket, or ABANDON of all. */
  ghost predicate Released(log: seq<Call>, id: Id) {
    Call(FORGET, id.target.mm, id.address, id.ticket, true) in log || ABANDONED in log
  }

  /** The collection and what has happened so far. */
  datatype Ledger = Ledger(pending: seq<Entry>, log: seq<Call>, begun: set<Id>, issued: set<nat>, dead: set<nat>)

  ghost function Ids(pending: seq<Entry>): set<Id> {
    set i | 0 <= i < |pending| :: IdOf(pending[i])
  }

  ghost predicate HasTicket(pending: seq<Entry>, ticket: nat) {
    exists i | 0 <= i < |pending| :: pending[i].transfer.ticket == ticket
  }

  ghost predicate DistinctTickets(pending: seq<Entry>) {
    forall i, j | 0 <= i < j < |pending| && pending[i].transfer.ticket == pending[j].transfer.ticket ::
      pending[i].transfer.ticket == 0
  }

  /** Custody safety: flags are justified, and nothing leaves without a confirmed release. */
  ghost predicate Safe(l: Ledger) {
    && (forall i | 0 <= i < |l.pending| :: Justified(l.log, l.dead, l.pending[i]) && l.pending[i].transfer.ticket in l.issued)
    && DistinctTickets(l.pending)
    && l.dead <= l.issued && 0 !in l.dead && Ids(l.pending) <= l.begun
    && (forall id | id in l.begun :: Released(l.log, id) || id in Ids(l.pending))
  }

  lemma JustifiedGrows(log: seq<Call>, more: seq<Call>, dead: set<nat>, e: Entry)
    requires Justified(log, dead, e)
    ensures Justified(log + more, dead, e)
  {
  }

  lemma ConsIds(e: Entry, pending: seq<Entry>)
    ensures Ids([e] + pending) == Ids(pending) + {IdOf(e)}
  {
    var all := [e] + pending;
    assert all[0] == e && forall i | 0 <= i < |pending| :: all[i + 1] == pending[i];
  }

  lemma ConsDistinct(e: Entry, pending: seq<Entry>, issued: set<nat>)
    requires DistinctTickets(pending) && (e.transfer.ticket !in issued || e.transfer.ticket == 0)
    requires forall i | 0 <= i < |pending| :: pending[i].transfer.ticket in issued
    ensures DistinctTickets([e] + pending)
  {
    var all := [e] + pending;
    assert forall i | 0 < i < |all| :: all[i] == pending[i - 1];
  }

  lemma AddEntry(l: Ledger, e: Entry, more: seq<Call>)
    requires Safe(l) && Justified([], {}, e)
    requires e.transfer.ticket !in l.issued || e.transfer.ticket == 0
    requires !e.transfer.cancelled && !e.transfer.stale
    ensures Safe(Ledger([e] + l.pending, l.log + more, l.begun + {IdOf(e)}, l.issued + {e.transfer.ticket}, l.dead))
  {
    var pending := [e] + l.pending;
    ConsIds(e, l.pending);
    ConsDistinct(e, l.pending, l.issued);
    forall i | 0 <= i < |pending|
      ensures Justified(l.log + more, l.dead, pending[i]) && pending[i].transfer.ticket in l.issued + {e.transfer.ticket}
    {
      if i == 0 {
        JustifiedGrows([], l.log + more, {}, e);
        assert [] + (l.log + more) == l.log + more;
      } else {
        JustifiedGrows(l.log, more, l.dead, l.pending[i - 1]);
      }
    }
    forall id | id in l.begun
      ensures Released(l.log + more, id) || id in Ids(pending)
    {
    }
  }

  /** One entry changes its flags; its ticket may die with it. */
  lemma ChangeEntry(l: Ledger, i: nat, e: Entry, more: seq<Call>, dead: set<nat>)
    requires Safe(l) && i < |l.pending| && IdOf(e) == IdOf(l.pending[i])
    requires Justified(l.log + more, dead, e)
    requires dead == l.dead || (e.transfer.ticket != 0 && dead == l.dead + {e.transfer.ticket})
    ensures Safe(l.(pending := l.pending[i := e], log := l.log + more, dead := dead))
    ensures Ids(l.pending[i := e]) == Ids(l.pending)
  {
    assert Ids(l.pending[i := e]) == Ids(l.pending) by {
      forall j | 0 <= j < |l.pending|
        ensures IdOf(l.pending[i := e][j]) == IdOf(l.pending[j])
      {
      }
    }
  }

  lemma DropEntry(l: Ledger, i: nat, more: seq<Call>)
    requires Safe(l) && i < |l.pending| && Released(l.log + more, IdOf(l.pending[i]))
    ensures Safe(l.(pending := l.pending[..i] + l.pending[i + 1..], log := l.log + more))
  {
    var rest := l.pending[..i] + l.pending[i + 1..];
    forall id | id in l.begun
      ensures Released(l.log + more, id) || id in Ids(rest)
    {
      if !Released(l.log + more, id) {
        var j :| 0 <= j < |l.pending| && IdOf(l.pending[j]) == id;
        assert rest[if j < i then j else j - 1] == l.pending[j];
      }
    }
  }

  /** The list after entry i became t: gone if it is settled and the kernel accepts the FORGET. */
  function Settled(pending: seq<Entry>, i: nat, t: Transfer, forgetReply: Reply): seq<Entry>
    requires i < |pending|
  {
    if t.settled && forgetReply.Answer? then pending[..i] + pending[i + 1..]
    else pending[i := pending[i].(transfer := t)]
  }

  class Connection {
    var pending: seq<Entry>
    var count: nat
    var owner: int
    var owned: bool
    var closed: bool
    /** Native calls so far; entries ever begun; tickets ever issued; tickets cancelled or stale. */
    ghost var log: seq<Call>
    ghost var begun: set<Id>
    ghost var issued: set<nat>
    ghost var dead: set<nat>

    ghost function View(): Ledger
      reads this
    {
      Ledger(pending, log, begun, issued, dead)
    }

    ghost predicate Valid()
      reads this
    {
      count == |pending| && Safe(View())
    }

    constructor ()
      ensures Valid() && View() == Ledger([], [], {}, {}, {}) && !closed
    {
      pending, count, owner, owned, closed := [], 0, 0, false, false;
      log, begun, issued, dead := [], {}, {}, {};
    }

    /** source_custody_thread(): the first user's thread owns the collection. */
    method Enter(thread: int) returns (s: Status)
      modifies this`owner, this`owned
      ensures s == if old(owned) && old(owner) != thread then Err(EPERM) else Ok
      ensures s.Ok? ==> owned && owner == thread
    {
      if owned && owner != thread {
        return Err(EPERM);
      }
      if !owned {
        owner, owned := thread, true;
      }
      s := Ok;
    }

    /**
     * source_custody_begin(): once the kernel has answered, the entry is kept, even if the
     * answer is malformed. The kernel never issues a ticket twice.
     */
    method Begin(thread: int, target: Binding, address: nat, reply: Reply) returns (s: Status, entered: bool)
      requires Valid() && (reply.Answer? ==> reply.ticket !in issued || reply.ticket == 0)
      modifies this
      ensures Valid() && closed == old(closed) && dead == old(dead) && old(log) <= log
      ensures entered ==> reply.Answer? && |pending| == |old(pending)| + 1 && pending[1..] == old(pending)
                          && IdOf(pending[0]) == Id(target, address, reply.ticket)
                          && begun == old(begun) + {IdOf(pending[0])} && issued == old(issued) + {reply.ticket}
      ensures !entered ==> View() == old(View()) && s.Err?
      ensures entered <==> reply.Answer? && !(old(owned) && old(owner) != thread) && !closed
                           && ValidBinding(target) && target.context <= 0x7fff_ffff && address % PAGE == 0
      ensures entered ==> owned && owner == thread
      ensures entered ==> pending[0] == Entry(target, NewTransfer(target.mm, address, reply.ticket))
      ensures s.Ok? <==> entered && StepStatus(NewTransfer(target.mm, address, reply.ticket), BEGIN, reply).Ok?
    {
      entered := false;
      s := Enter(thread);
      if s.Err? {
        return;
      }
      if closed {
        return Err(ESHUTDOWN), false;
      }
      if !ValidBinding(target) || target.context > 0x7fff_ffff || address % PAGE != 0 {
        return Err(EINVAL), false;
      }
      match reply
      case Refused(errno) =>
        s := Err(errno);
      case Answer(op, mm, addr, ticket, headerOk, _) =>
        var ok := op == BEGIN && mm == target.mm && addr == address && ticket != 0 && headerOk;
        Keep(Entry(target, NewTransfer(target.mm, address, ticket)), ok);
        entered := true;
        s := if ok then Ok else Err(EPROTO);
    }

    /** Puts a fresh entry at the head of the list. */
    method Keep(e: Entry, ghost ok: bool)
      requires Valid() && (e.transfer.ticket !in issued || e.transfer.ticket == 0)
      requires e.target.mm != 0 && e.transfer == NewTransfer(e.target.mm, e.transfer.address, e.transfer.ticket)
      modifies this`pending, this`count, this`log, this`issued, this`begun
      ensures Valid() && pending == [e] + old(pending) && old(log) <= log && begun == old(begun) + {IdOf(e)}
      ensures issued == old(issued) + {e.transfer.ticket}
    {
      ghost var more := [Call(BEGIN, e.transfer.mm, e.transfer.address, e.transfer.ticket, ok)];
      AddEntry(View(), e, more);
      log := log + more;
      pending := [e] + pending;
      count := count + 1;
      issued := issued + {e.transfer.ticket};
      begun := begun + {IdOf(e)};
    }

    /** Store an entry's new flags and account for the calls behind them. */
    method Update(i: nat, t: Transfer, ghost more: seq<Call>, ghost dead': set<nat>)
      requires Valid() && i < |pending| && IdOf(pending[i].(transfer := t)) == IdOf(pending[i])
      requires Justified(log + more, dead', pending[i].(transfer := t))
      requires dead' == dead || (t.ticket != 0 && dead' == dead + {t.ticket})
      modifies this`pending, this`log, this`dead
      ensures Valid() && Ids(pending) == Ids(old(pending))
      ensures pending == old(pending[i := pending[i].(transfer := t)]) && log == old(log) + more && dead == dead'
    {
      ChangeEntry(View(), i, pending[i].(transfer := t), more, dead');
      pending := pending[i := pending[i].(transfer := t)];
      log := log + more;
      dead := dead';
    }

    /** source_transfer_capture() on the entry just begun. */
    method Capture(i: nat, reply: Reply) returns (s: Status)
      requires Valid() && i < |pending|
      modifies this`pending, this`log, this`dead
      ensures Valid() && dead == old(dead) && Ids(pending) == Ids(old(pending)) && old(log) <= log
      ensures var (t, status) := Captured(old(pending)[i].transfer, reply);
              s == status && pending == old(pending)[i := old(pending)[i].(transfer := t)]
      ensures s.Ok? ==> pending[i].transfer.captured && Confirmed(log, CAPTURE, pending[i].transfer)
    {
      var t := pending[i].transfer;
      var (t', status) := Captured(t, reply);
      ghost var more := StepLog(t, CAPTURE, reply);
      Update(i, t', more, dead);
      s := status;
    }

    /** source_transfer_read() on the entry just captured. */
    method Read(i: nat, reply: Reply) returns (s: Status)
      requires Valid() && i < |pending|
      modifies this`pending, this`log, this`dead
      ensures Valid() && dead == old(dead) && Ids(pending) == Ids(old(pending)) && old(log) <= log
      ensures var (t, status) := ReadOut(old(pending)[i].transfer, reply);
              s == status && pending == old(pending)[i := old(pending)[i].(transfer := t)]
      ensures s.Ok? ==> pending[i].transfer.read && Confirmed(log, READ, pending[i].transfer)
    {
      var t := pending[i].transfer;
      var (t', status) := ReadOut(t, reply);
      ghost var more := if t.captured then StepLog(t, READ, reply) else [];
      Update(i, t', more, dead);
      s := status;
    }

    /** The conditions a request must meet before the list is searched at all. */
    ghost predicate Admits(thread: int, target: Binding, address: nat, ticket: nat)
      reads this
    {
      (owned ==> owner == thread) && !closed && ValidBinding(target) && ticket != 0 && address % PAGE == 0
    }

    /** The request names an entry of the list exactly. */
    ghost predicate Finds(thread: int, target: Binding, address: nat, ticket: nat)
      reads this
    {
      Admits(thread, target, address, ticket) && Id(target, address, ticket) in Ids(pending)
    }

    /** source_custody_find(): the one entry of that ticket, if target and address match too. */
    method Find(thread: int, target: Binding, address: nat, ticket: nat) returns (s: Status, i: nat)
      requires Valid()
      modifies this`owner, this`owned
      ensures s.Ok? ==> i < |pending| && ticket != 0 && IdOf(pending[i]) == Id(target, address, ticket)
      ensures s.Ok? <==> old(Finds(thread, target, address, ticket))
      ensures s == Err(ENOENT) <==> old(Admits(thread, target, address, ticket)) && !HasTicket(pending, ticket)
      ensures s == Err(EPERM) <==> old(owned) && old(owner) != thread
    {
      i := 0;
      s := Enter(thread);
      if s.Err? {
        return;
      }
      if closed {
        return Err(ESHUTDOWN), 0;
      }
      if !ValidBinding(target) || ticket == 0 || address % PAGE != 0 {
        return Err(EINVAL), 0;
      }
      while i < |pending|
        invariant 0 <= i <= |pending| && forall j | 0 <= j < i :: pending[j].transfer.ticket != ticket
      {
        var e := pending[i];
        if e.transfer.ticket == ticket {
          if e.transfer.address != address || e.target != target {
            return Err(ESTALE), 0;
          }
          return Ok, i;
        }
        i := i + 1;
      }
      s := Err(ENOENT);
    }

    /** source_custody_retire(): unlink only after a confirmed FORGET. */
    method Retire(i: nat, reply: Reply) returns (s: Status)
      requires Valid() && i < |pending|
      modifies this`pending, this`count, this`log
      ensures Valid()
      ensures s.Ok? <==> old(pending[i].transfer).settled && old(pending[i].transfer).ticket != 0 && reply.Answer?
      ensures s.Err? ==> pending == old(pending)
      ensures s.Ok? ==> pending == old(pending[..i] + pending[i + 1..])
                        && Confirmed(log, FORGET, old(pending[i].transfer))
      ensures old(log) <= log
    {
      var t := pending[i].transfer;
      if !t.settled {
        return Err(EINVAL);
      }
      ghost var more := StepLog(t, FORGET, reply);
      s := StepStatus(t, FORGET, reply);
      if s.Err? {
        ChangeEntry(View(), i, pending[i], more, dead);
        assert pending[i := pending[i]] == pending;
        log := log + more;
        return;
      }
      assert Call(FORGET, t.mm, t.address, t.ticket, true) in log + more;
      DropEntry(View(), i, more);
      log := log + more;
      pending := pending[..i] + pending[i + 1..];
      count := count - 1;
    }

    /** The entry found for an ACK: settle it, and drop it once the kernel has forgotten it. */
    method AckAt(i: nat, ackReply: Reply, forgetReply: Reply) returns (s: Status)
      requires Valid() && i < |pending| && pending[i].transfer.ticket != 0
      modifies this`pending, this`count, this`log, this`dead
      ensures Valid() && old(log) <= log && old(dead) <= dead
      ensures var (t, status) := Acked(old(pending)[i].transfer, ackReply);
              && (s.Ok? <==> status.Ok? && forgetReply.Answer?)
              && pending == Settled(old(pending), i, t, forgetReply)
      ensures s.Ok? ==> var t := old(pending)[i].transfer;
                        && Confirmed(log, CAPTURE, t) && Confirmed(log, READ, t)
                        && Confirmed(log, ACK, t) && Confirmed(log, FORGET, t) && t.ticket !in dead
      ensures old(pending)[i].transfer.ticket in old(dead) ==> s.Err?
    {
      var t := pending[i].transfer;
      var (t', status) := Acked(t, ackReply);
      Update(i, t', AckLog(t, ackReply), if t'.stale then dead + {t.ticket} else dead);
      if !t'.settled {
        return status;
      }
      s := Retire(i, forgetReply);
      if s.Ok? {
        s := status;
      }
    }

    /**
     * source_custody_ack(): success means this very page was captured, read and natively
     * acknowledged under this ticket, and that the ticket was never cancelled or stale.
     */
    method Ack(thread: int, target: Binding, address: nat, ticket: nat, ackReply: Reply, forgetReply: Reply)
      returns (s: Status)
      requires Valid()
      modifies this
      ensures Valid() && closed == old(closed) && old(log) <= log && old(dead) <= dead && begun == old(begun) && issued == old(issued)
      ensures s.Ok? ==> forall op | op in {CAPTURE, READ, ACK, FORGET} :: Call(op, target.mm, address, ticket, true) in log
      ensures s.Ok? ==> ticket !in dead && Id(target, address, ticket) in Ids(old(pending))
      ensures ticket in old(dead) ==> s.Err?
      ensures !old(Finds(thread, target, address, ticket)) ==> s.Err? && View() == old(View())
      ensures forall i | 0 <= i < |old(pending)| && IdOf(old(pending)[i]) == Id(target, address, ticket)
                      && old(Finds(thread, target, address, ticket)) ::
                var (t, status) := Acked(old(pending)[i].transfer, ackReply);
                && (s.Ok? <==> status.Ok? && forgetReply.Answer?)
                && pending == Settled(old(pending), i, t, forgetReply)
    {
      var i;
      s, i := Find(thread, target, address, ticket);
      if s.Ok? {
        s := AckAt(i, ackReply, forgetReply);
      }
    }

    /** The entry found for a cancellation. */
    method CancelAt(i: nat, cancelReply: Reply, forgetReply: Reply) returns (s: Status)
      requires Valid() && i < |pending| && pending[i].transfer.ticket != 0
      modifies this`pending, this`count, this`log, this`dead
      ensures Valid() && old(log) <= log && old(dead) <= dead
      ensures var (t, status) := Cancelled(old(pending)[i].transfer, cancelReply);
              && (s.Ok? <==> status.Ok? && forgetReply.Answer?)
              && pending == Settled(old(pending), i, t, forgetReply)
      ensures s.Ok? ==> var t := old(pending)[i].transfer;
                        Confirmed(log, FORGET, t) && (t.ticket in dead || Confirmed(log, ACK, t))
    {
      var t := pending[i].transfer;
      var (t', status) := Cancelled(t, cancelReply);
      Update(i, t', CancelLog(t, cancelReply), if t'.cancelled then dead + {t.ticket} else dead);
      if status.Err? {
        return status;
      }
      s := Retire(i, forgetReply);
    }

    /** source_custody_cancel(): a ticket it settles can never be acknowledged. */
    method Cancel(thread: int, target: Binding, address: nat, ticket: nat, cancelReply: Reply, forgetReply: Reply)
      returns (s: Status)
      requires Valid()
      modifies this
      ensures Valid() && closed == old(closed) && old(log) <= log && old(dead) <= dead && begun == old(begun) && issued == old(issued)
      ensures s.Ok? ==> Call(FORGET, target.mm, address, ticket, true) in log
      ensures s.Ok? ==> ticket in dead || Call(ACK, target.mm, address, ticket, true) in log
      ensures !old(Finds(thread, target, address, ticket)) ==> s.Err? && View() == old(View())
      ensures forall i | 0 <= i < |old(pending)| && IdOf(old(pending)[i]) == Id(target, address, ticket)
                      && old(Finds(thread, target, address, ticket)) ::
                var (t, status) := Cancelled(old(pending)[i].transfer, cancelReply);
                && (s.Ok? <==> status.Ok? && forgetReply.Answer?)
                && pending == Settled(old(pending), i, t, forgetReply)
    {
      var i;
      s, i := Find(thread, target, address, ticket);
      if s.Ok? {
        s := CancelAt(i, cancelReply, forgetReply);
      }
    }

    /** source_custody_abandon(): closes first; drops the records only if the kernel released all. */
    method Abandon(thread: int, reply: Reply) returns (s: Status)
      requires Valid()
      modifies this
      ensures Valid() && begun == old(begun) && old(log) <= log && dead == old(dead) && issued == old(issued)
      ensures s.Ok? <==> (old(owned) ==> old(owner) == thread) && reply.Answer?
      ensures s.Ok? ==> pending == [] && closed && ABANDONED in log
      ensures s.Err? ==> pending == old(pending) && (closed || s.errno == EPERM)
    {
      s := Enter(thread);
      if s.Err? {
        return;
      }
      closed := true;
      if reply.Refused? {
        return Err(reply.errno);
      }
      log := log + [ABANDONED];
      pending, count := [], 0;
      s := Ok;
    }
  }

  function NewTransfer(mm: nat, address: nat, ticket: nat): Transfer {
    Transfer(mm, address, ticket, Outcome(0, false, 0, 0, 0, 0), false, false, false, false, false)
  }

  // ---- whole runs ----

  /** A ticket the kernel issued once and the list no longer holds. */
  ghost predicate Retired(l: Ledger, ticket: nat) {
    ticket != 0 && ticket in l.issued && !HasTicket(l.pending, ticket)
  }

  /** What every later moment keeps of an earlier one. */
  ghost predicate Later(l: Ledger, l': Ledger) {
    && l.begun <= l'.begun && l.log <= l'.log && l.dead <= l'.dead && l.issued <= l'.issued
    && (forall ticket | Retired(l, ticket) :: Retired(l', ticket))
  }

  lemma LaterTransitive(a: Ledger, b: Ledger, c: Ledger)
    requires Later(a, b) && Later(b, c)
    ensures Later(a, c)
  {
  }

  lemma SettledTickets(pending: seq<Entry>, i: nat, t: Transfer, forgetReply: Reply, ticket: nat)
    requires i < |pending| && t.ticket == pending[i].transfer.ticket
    ensures HasTicket(Settled(pending, i, t, forgetReply), ticket) ==> HasTicket(pending, ticket)
    ensures DistinctTickets(pending) && t.ticket != 0 && t.settled && forgetReply.Answer? ==>
              !HasTicket(Settled(pending, i, t, forgetReply), t.ticket)
  {
    var after := Settled(pending, i, t, forgetReply);
    if k :| 0 <= k < |after| && after[k].transfer.ticket == ticket {
      var j := if t.settled && forgetReply.Answer? && i <= k then k + 1 else k;
      assert pending[j].transfer.ticket == ticket;
    }
  }

  /** A request to the collection, with the native answers it meets. */
  datatype Action =
    | DoBegin(target: Binding, address: nat, reply: Reply)
    | DoCapture(i: nat, reply: Reply)
    | DoRead(i: nat, reply: Reply)
    | DoAck(target: Binding, address: nat, ticket: nat, reply: Reply, forget: Reply)
    | DoCancel(target: Binding, address: nat, ticket: nat, reply: Reply, forget: Reply)
    | DoAbandon(reply: Reply)

  /** The ticket a BEGIN answer issues; 0 for none. */
  function Issues(a: Action): nat {
    if a.DoBegin? && a.reply.Answer? then a.reply.ticket else 0
  }

  /** The action may take an entry with this ticket off the list. */
  predicate Settles(a: Action, ticket: nat) {
    (a.DoAck? || a.DoCancel?) && a.ticket == ticket
  }

  ghost predicate Acknowledged(log: seq<Call>, a: Action)
    requires a.DoAck?
  {
    forall op | op in {CAPTURE, READ, ACK, FORGET} :: Call(op, a.target.mm, a.address, a.ticket, true) in log
  }

  /** An entry found and settled is retired if the kernel forgets it; no ticket comes back. */
  lemma SettledIsLater(l: Ledger, l': Ledger, i: nat, t: Transfer, forgetReply: Reply)
    requires Safe(l) && i < |l.pending| && t.ticket == l.pending[i].transfer.ticket != 0
    requires l'.pending == Settled(l.pending, i, t, forgetReply) && l'.issued == l.issued && l'.begun == l.begun
    requires l.log <= l'.log && l.dead <= l'.dead
    ensures Later(l, l') && (t.settled && forgetReply.Answer? ==> Retired(l', t.ticket))
  {
    forall ticket {
      SettledTickets(l.pending, i, t, forgetReply, ticket);
    }
  }

  /** An ACK: the ticket is retired when it succeeds, and refused once retired or dead. */
  method AckBy(c: Connection, thread: int, a: Action) returns (s: Status)
    requires c.Valid() && a.DoAck?
    modifies c
    ensures c.Valid() && Later(old(c.View()), c.View()) && c.issued == old(c.issued)
    ensures s.Ok? ==> Retired(c.View(), a.ticket) && Acknowledged(c.log, a)
    ensures Retired(old(c.View()), a.ticket) || a.ticket in old(c.dead) ==> s.Err?
  {
    ghost var before := c.View();
    ghost var found := c.Finds(thread, a.target, a.address, a.ticket);
    s := c.Ack(thread, a.target, a.address, a.ticket, a.reply, a.forget);
    if found {
      ghost var i :| 0 <= i < |before.pending| && IdOf(before.pending[i]) == Id(a.target, a.address, a.ticket);
      SettledIsLater(before, c.View(), i, Acked(before.pending[i].transfer, a.reply).0, a.forget);
    }
  }

  /** A cancellation: the ticket is retired when it succeeds, and refused once retired. */
  method CancelBy(c: Connection, thread: int, a: Action) returns (s: Status)
    requires c.Valid() && a.DoCancel?
    modifies c
    ensures c.Valid() && Later(old(c.View()), c.View()) && c.issued == old(c.issued)
    ensures s.Ok? ==> Retired(c.View(), a.ticket)
    ensures Retired(old(c.View()), a.ticket) ==> s.Err?
  {
    ghost var before := c.View();
    ghost var found := c.Finds(thread, a.target, a.address, a.ticket);
    s := c.Cancel(thread, a.target, a.address, a.ticket, a.reply, a.forget);
    if found {
      ghost var i :| 0 <= i < |before.pending| && IdOf(before.pending[i]) == Id(a.target, a.address, a.ticket);
      SettledIsLater(before, c.View(), i, Cancelled(before.pending[i].transfer, a.reply).0, a.forget);
    }
  }

  /** One action, by any thread, with any answers. */
  method Perform(c: Connection, thread: int, a: Action) returns (s: Status)
    requires c.Valid() && (Issues(a) == 0 || Issues(a) !in c.issued)
    modifies c
    ensures c.Valid() && Later(old(c.View()), c.View()) && c.issued <= old(c.issued) + {Issues(a)}
    ensures (a.DoAck? || a.DoCancel?) && s.Ok? ==> Retired(c.View(), a.ticket)
    ensures a.DoAck? && s.Ok? ==> Acknowledged(c.log, a)
    ensures (a.DoAck? || a.DoCancel?) && Retired(old(c.View()), a.ticket) ==> s.Err?
    ensures a.DoAck? && a.ticket in old(c.dead) ==> s.Err?
  {
    ghost var before := c.View();
    match a
    case DoBegin(target, address, reply) =>
      var entered;
      s, entered := c.Begin(thread, target, address, reply);
      assert entered ==> forall k | 1 <= k < |c.pending| :: c.pending[k] == before.pending[k - 1];
    case DoCapture(i, reply) =>
      s := Err(EINVAL);
      if i < |c.pending| {
        s := c.Capture(i, reply);
      }
    case DoRead(i, reply) =>
      s := Err(EINVAL);
      if i < |c.pending| {
        s := c.Read(i, reply);
      }
    case DoAbandon(reply) =>
      s := c.Abandon(thread, reply);
    case DoAck(_, _, _, _, _) =>
      s := AckBy(c, thread, a);
    case DoCancel(_, _, _, _, _) =>
      s := CancelBy(c, thread, a);
  }

  datatype Request = Request(thread: int, action: Action)

  /** The kernel never issues a ticket twice. */
  ghost predicate FreshTickets(requests: seq<Request>, issued: set<nat>) {
    && (forall j | 0 <= j < |requests| :: Issues(requests[j].action) == 0 || Issues(requests[j].action) !in issued)
    && (forall j, k | 0 <= j < k < |requests| ::
          Issues(requests[j].action) == 0 || Issues(requests[j].action) != Issues(requests[k].action))
  }

  /** Every ticket issued by now is old or came with one of the first n requests. */
  ghost predicate Accounted(requests: seq<Request>, n: nat, before: set<nat>, issued: set<nat>) {
    forall ticket | ticket in issued ::
      ticket == 0 || ticket in before || exists j | 0 <= j < n <= |requests| :: Issues(requests[j].action) == ticket
  }

  /** What the results of the first n requests say, given the ledger after them. */
  ghost predicate Told(requests: seq<Request>, results: seq<Status>, l: Ledger)
    requires |results| <= |requests|
  {
    && (forall j | 0 <= j < |results| && results[j].Ok? && requests[j].action.DoAck? :: Acknowledged(l.log, requests[j].action))
    && (forall j | 0 <= j < |results| && results[j].Ok? && (requests[j].action.DoAck? || requests[j].action.DoCancel?) ::
          Retired(l, requests[j].action.ticket))
  }

  /** An ACK of a ticket that was dead at the start, or settled by an earlier request, failed. */
  ghost predicate NeverTwice(requests: seq<Request>, results: seq<Status>, dead: set<nat>)
    requires |results| <= |requests|
  {
    && (forall j, k | 0 <= j < k < |results| && results[j].Ok? && requests[k].action.DoAck?
                   && Settles(requests[j].action, requests[k].action.ticket) :: results[k].Err?)
    && (forall k | 0 <= k < |results| && requests[k].action.DoAck? && requests[k].action.ticket in dead :: results[k].Err?)
  }

  /** One more result of a request that fails on tickets retired or dead before it. */
  lemma TellNext(requests: seq<Request>, results: seq<Status>, s: Status, l: Ledger, l': Ledger, dead: set<nat>)
    requires |results| < |requests| && Told(requests, results, l) && Later(l, l') && dead <= l.dead
    requires NeverTwice(requests, results, dead)
    requires var a := requests[|results|].action;
             && ((a.DoAck? || a.DoCancel?) && s.Ok? ==> Retired(l', a.ticket))
             && (a.DoAck? && s.Ok? ==> Acknowledged(l'.log, a))
             && (a.DoAck? && (Retired(l, a.ticket) || a.ticket in l.dead) ==> s.Err?)
    ensures Told(requests, results + [s], l') && NeverTwice(requests, results + [s], dead)
  {
    ToldLater(requests, results, l, l');
  }

  lemma ToldLater(requests: seq<Request>, results: seq<Status>, l: Ledger, l': Ledger)
    requires |results| <= |requests| && Told(requests, results, l) && Later(l, l')
    ensures Told(requests, results, l')
  {
    forall j | 0 <= j < |results| && results[j].Ok? && requests[j].action.DoAck?
      ensures Acknowledged(l'.log, requests[j].action)
    {
      assert Acknowledged(l.log, requests[j].action);
    }
  }

  /**
   * Any sequence of requests, threads and native answers: nothing leaves the list without a
   * confirmed release, an ACK that succeeds was captured, read and acknowledged natively, and a
   * ticket once settled or dead is never acknowledged again.
   */
  method Run(c: Connection, requests: seq<Request>) returns (results: seq<Status>)
    requires c.Valid() && FreshTickets(requests, c.issued)
    modifies c
    ensures c.Valid() && Later(old(c.View()), c.View()) && |results| == |requests|
    ensures forall id | id in old(c.begun) || id in Ids(old(c.pending)) :: id in Ids(c.pending) || Released(c.log, id)
    ensures Told(requests, results, c.View())
    ensures NeverTwice(requests, results, old(c.dead))
  {
    results := [];
    while |results| < |requests|
      invariant |results| <= |requests| && c.Valid() && Later(old(c.View()), c.View())
      invariant Accounted(requests, |results|, old(c.issued), c.issued)
      invariant Told(requests, results, c.View())
      invariant NeverTwice(requests, results, old(c.dead))
    {
      ghost var before := c.View();
      var q := requests[|results|];
      var s := Perform(c, q.thread, q.action);
      LaterTransitive(old(c.View()), before, c.View());
      TellNext(requests, results, s, before, c.View(), old(c.dead));
      results := results + [s];
    }
  }

  /** The kernel's echo of a call. */
  function Echo(op: Op, target: Binding, address: nat, ticket: nat, outcome: Outcome): Reply {
    Answer(op, target.mm, address, ticket, true, outcome)
  }

  /** Begin, capture and read with echoing answers all succeed, and leave one read entry more. */
  method TakePage(c: Connection, thread: int, target: Binding, address: nat, ticket: nat, outcome: Outcome)
    requires c.Valid() && !c.closed && (c.owned ==> c.owner == thread)
    requires ValidBinding(target) && target.context <= 0x7fff_ffff && address % PAGE == 0
    requires ticket != 0 && ticket !in c.issued && LegalOutcome(outcome)
    modifies c
    ensures c.Valid() && c.Admits(thread, target, address, ticket)
    ensures |c.pending| == |old(c.pending)| + 1 && c.pending[1..] == old(c.pending)
    ensures c.pending[0]
            == Entry(target, NewTransfer(target.mm, address, ticket).(captured := true, outcome := outcome, read := true))
  {
    var begun, entered := c.Begin(thread, target, address, Echo(BEGIN, target, address, ticket, outcome));
    var captured := c.Capture(0, Echo(CAPTURE, target, address, ticket, outcome));
    var read := c.Read(0, Echo(READ, target, address, ticket, outcome));
  }

  /**
   * One page delivered: with answers that echo each call, begin, capture, read and acknowledgement
   * all succeed, and the list is as it was.
   */
  method Deliver(c: Connection, thread: int, target: Binding, address: nat, ticket: nat, outcome: Outcome)
    returns (s: Status)
    requires c.Valid() && !c.closed && (c.owned ==> c.owner == thread)
    requires ValidBinding(target) && target.context <= 0x7fff_ffff && address % PAGE == 0
    requires ticket != 0 && ticket !in c.issued && LegalOutcome(outcome)
    modifies c
    ensures s.Ok? && c.Valid() && c.pending == old(c.pending) && ticket !in c.dead
    ensures forall op | op in {CAPTURE, READ, ACK, FORGET} :: Call(op, target.mm, address, ticket, true) in c.log
  {
    TakePage(c, thread, target, address, ticket, outcome);
    ghost var held := c.pending;
    assert IdOf(held[0]) == Id(target, address, ticket);
    AckMeans(held[0].transfer, Echo(ACK, target, address, ticket, outcome));
    s := c.Ack(thread, target, address, ticket, Echo(ACK, target, address, ticket, outcome),
               Echo(FORGET, target, address, ticket, outcome));
    assert held[..0] + held[1..] == held[1..];
  }
}
