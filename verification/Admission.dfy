/**
 * One connection's system calls: source-admission.h. Each call gets a ticket, is entered in
 * the native gate, may be changed by tracing before it is admitted, and is committed once.
 * The gate, the registry and the child export answer arbitrarily within the gate's contract
 * (vmctx_syscall_gate.h); the ghost trace records what the monitor made happen.
 */
module Admission {
  import opened Basics
  import opened MemoryIdentity

  datatype SysCall = SysCall(nr: int, args: seq<nat>)

  datatype GateState = Entering | Admitted | Running | Complete | Unknown

  /** The native gate record; childPid is non-zero once the call has made a child. */
  datatype Gate = Gate(ticket: nat, state: GateState, call: SysCall, childPid: nat)

  /** EAGAIN and EBUSY mean "ask again"; any other error ends the exchange. */
  datatype GateAnswer = Again | Fails | Replies(state: GateState, call: SysCall, childPid: nat)

  datatype BirthAnswer = BirthBusy | BirthFails | ChildEnded | Born(child: nat, mm: nat, sharedMm: bool)

  datatype Kind = PREPARE | EXECUTE | POLL

  /** `clean`: every field that only PREPARE may carry is zero. */
  datatype Request = Request(kind: Kind, ticket: nat, clean: bool, cpuOk: bool)

  /** What the native side answers during one step. */
  datatype Native = Native(
    installOk: bool, gate: GateAnswer, snapshot: Option<Binding>,
    commit: GateAnswer, commitDispatches: bool, birth: BirthAnswer, dead: bool)

  datatype Reply = Failed | Pending(state: GateState) | Done(live: bool)

  // ---- what may happen, and after what ----

  datatype Event =
    | Install(ticket: nat)
    | Observe(ticket: nat, target: Binding, call: SysCall)
    | PrepareMemory(ticket: nat, target: Binding, call: SysCall)
    | Commit(ticket: nat, target: Binding, call: SysCall, ok: bool)
    | Dispatch(ticket: nat)
    | Publish(ticket: nat, child: nat, mm: nat, sharedMm: bool)
    | Completed(ticket: nat, live: bool)

  /** What has happened under one ticket. */
  datatype Record = Record(
    first: Option<(Binding, SysCall)>, prepared: bool, tried: bool, committed: bool, dispatched: bool, published: bool)

  const FRESH := Record(None, false, false, false, false, false)

  /** A child shares the MM the call was admitted in, or has a younger one forked from it. */
  predicate Descends(admitted: Binding, mm: nat, sharedMm: bool) {
    if sharedMm then mm == admitted.mm else admitted.mm < mm
  }

  /** The rules of admission, against the records of tickets 1, 2, ... */
  ghost predicate Allowed(records: seq<Record>, e: Event) {
    if e.Install? then e.ticket == |records| + 1  // tickets are consecutive
    else
      && 1 <= e.ticket <= |records|
      && var r := records[e.ticket - 1];
         match e
         case Install(_) => true
         case Observe(_, target, call) => r.first.None? || r.first == Some((target, call))
         case PrepareMemory(_, target, call) => r.first == Some((target, call)) && !r.prepared && !r.tried
         case Commit(_, target, call, _) => r.first == Some((target, call)) && r.prepared && !r.committed
         case Dispatch(_) => r.tried && !r.dispatched
         case Publish(_, _, mm, sharedMm) => r.first.Some? && !r.published && Descends(r.first.value.0, mm, sharedMm)
         case Completed(_, live) => live ==> r.committed
  }

  ghost function Updated(r: Record, e: Event): Record {
    match e
    case Install(_) => r
    case Observe(_, target, call) => r.(first := Some((target, call)))
    case PrepareMemory(_, _, _) => r.(prepared := true)
    case Commit(_, _, _, ok) => r.(tried := true, committed := ok)
    case Dispatch(_) => r.(dispatched := true)
    case Publish(_, _, _, _) => r.(published := true)
    case Completed(_, _) => r
  }

  ghost function Effect(records: seq<Record>, e: Event): seq<Record>
    requires Allowed(records, e)
  {
    if e.Install? then records + [FRESH] else records[e.ticket - 1 := Updated(records[e.ticket - 1], e)]
  }

  /** A history, newest event last. */
  datatype Trace = Start | Then(before: Trace, event: Event)

  /** Every event was allowed when it happened. */
  ghost predicate Lawful(t: Trace)
    decreases t, 0
  {
    t.Then? ==> Lawful(t.before) && Allowed(Records(t.before), t.event)
  }

  ghost function Records(t: Trace): seq<Record>
    requires Lawful(t)
    decreases t, 1
  {
    if t.Start? then [] else Effect(Records(t.before), t.event)
  }

  /** t extends s by later events. */
  ghost predicate Extends(t: Trace, s: Trace) {
    t == s || (t.Then? && Extends(t.before, s))
  }

  lemma {:induction false} ExtendsTransitive(t: Trace, s: Trace, r: Trace)
    requires Extends(t, s) && Extends(s, r)
    ensures Extends(t, r)
  {
    if t != s {
      ExtendsTransitive(t.before, s, r);
    }
  }

  // ---- what a lawful trace means ----

  datatype Mark = Installs | Prepares | Commits | Dispatches | Publishes

  predicate Is(e: Event, mark: Mark, k: nat) {
    e.ticket == k && match mark
    case Installs => e.Install?
    case Prepares => e.PrepareMemory?
    case Commits => e.Commit? && e.ok
    case Dispatches => e.Dispatch?
    case Publishes => e.Publish?
  }

  ghost function Count(t: Trace, mark: Mark, k: nat): nat {
    if t.Start? then 0 else Count(t.before, mark, k) + if Is(t.event, mark, k) then 1 else 0
  }

  ghost predicate Occurs(t: Trace, e: Event) {
    t.Then? && (t.event == e || Occurs(t.before, e))
  }

  /** How often the records say the mark happened under ticket k. */
  ghost function Recorded(records: seq<Record>, mark: Mark, k: nat): nat
    requires 1 <= k
  {
    if k > |records| then 0
    else
      var r := records[k - 1];
      var yes := match mark
        case Installs => true
        case Prepares => r.prepared
        case Commits => r.committed
        case Dispatches => r.dispatched
        case Publishes => r.published;
      if yes then 1 else 0
  }

  lemma EffectCounts(records: seq<Record>, e: Event, mark: Mark, k: nat)
    requires Allowed(records, e) && 1 <= k
    ensures Recorded(Effect(records, e), mark, k) == Recorded(records, mark, k) + if Is(e, mark, k) then 1 else 0
  {
  }

  /** The record of ticket k counts what happened under it. */
  lemma {:induction false} RecordCounts(t: Trace, mark: Mark, k: nat)
    requires Lawful(t) && 1 <= k
    ensures Count(t, mark, k) == Recorded(Records(t), mark, k)
  {
    if t.Then? {
      RecordCounts(t.before, mark, k);
      EffectCounts(Records(t.before), t.event, mark, k);
    }
  }

  /** Per ticket: one install, at most one preparation, successful commit, dispatch and birth. */
  lemma EachAtMostOnce(t: Trace, mark: Mark, k: nat)
    requires Lawful(t) && 1 <= k
    ensures Count(t, mark, k) <= 1
  {
    RecordCounts(t, mark, k);
  }

  /** What a record claims did occur in the trace. */
  ghost predicate Backed(t: Trace, r: Record, k: nat) {
    && (r.first.Some? ==> Occurs(t, Observe(k, r.first.value.0, r.first.value.1)))
    && (r.prepared ==> r.first.Some? && Occurs(t, PrepareMemory(k, r.first.value.0, r.first.value.1)))
    && (r.committed ==> r.first.Some? && Occurs(t, Commit(k, r.first.value.0, r.first.value.1, true)))
  }

  /** The record of ticket k names events that really occurred. */
  lemma {:induction false} RecordOccurs(t: Trace, k: nat)
    requires Lawful(t) && 1 <= k <= |Records(t)|
    ensures Backed(t, Records(t)[k - 1], k)
  {
    var before := Records(t.before);
    if k <= |before| {
      RecordOccurs(t.before, k);
      if t.event.ticket == k {
        assert Records(t)[k - 1] == Updated(before[k - 1], t.event);
      } else {
        assert Records(t)[k - 1] == before[k - 1];
      }
    }
  }

  /** All accepted observations of a ticket name one binding and one call. */
  lemma {:induction false} ObservationsAgree(t: Trace, k: nat, target: Binding, call: SysCall)
    requires Lawful(t) && Occurs(t, Observe(k, target, call))
    ensures 1 <= k <= |Records(t)| && Records(t)[k - 1].first == Some((target, call))
  {
    if t.event != Observe(k, target, call) {
      ObservationsAgree(t.before, k, target, call);
    }
  }

  lemma {:induction false} PrefixLawful(t: Trace, u: Trace)
    requires Lawful(t) && Extends(t, u)
    ensures Lawful(u)
  {
    if t != u {
      PrefixLawful(t.before, u);
    }
  }

  /**
   * Wherever a COMMIT stands in a trace, the same binding, number and arguments were observed
   * and prepared before it; a live completion stands after a successful COMMIT; and a child is
   * published after an admitted observation whose MM it shares or was forked from.
   */
  lemma CommitFollowsAdmission(t: Trace, u: Trace)
    requires Lawful(t) && Extends(t, u) && u.Then?
    ensures u.event.Commit? ==>
              && Occurs(u.before, Observe(u.event.ticket, u.event.target, u.event.call))
              && Occurs(u.before, PrepareMemory(u.event.ticket, u.event.target, u.event.call))
              && Count(u.before, Commits, u.event.ticket) == 0
    ensures u.event.Completed? && u.event.live ==> Count(u.before, Commits, u.event.ticket) == 1
    ensures u.event.Publish? ==>
              && Count(u.before, Publishes, u.event.ticket) == 0
              && exists target, call :: Occurs(u.before, Observe(u.event.ticket, target, call))
                                        && (if u.event.sharedMm then u.event.mm == target.mm else target.mm < u.event.mm)
  {
    PrefixLawful(t, u);
    if u.event.Commit? || u.event.Completed? || u.event.Publish? {
      RecordOccurs(u.before, u.event.ticket);
      RecordCounts(u.before, Commits, u.event.ticket);
      RecordCounts(u.before, Publishes, u.event.ticket);
    }
  }

  // ---- the monitor ----

  /** An EXECUTE that finds the call admitted as it was first seen, and whose commit the gate confirms. */
  ghost predicate CommitsNow(request: Request, native: Native, saved: Option<Binding>, savedCall: SysCall) {
    && request.kind == EXECUTE && native.gate.Replies? && native.gate.state == Admitted
    && native.commit.Replies? && native.snapshot.Some?
    && (saved.Some? ==> saved == native.snapshot && savedCall == native.gate.call)
  }

  class Call {
    var gate: Gate
    var saved: Option<Binding>
    var savedCall: SysCall
    var next: nat
    var active: bool
    var begun: bool
    var prepared: bool
    var committed: bool
    var birthSeen: bool
    ghost var trace: Trace
    ghost var records: seq<Record>

    /** The trace is lawful and `records` is its summary. */
    ghost predicate Traced()
      reads this`trace, this`records
    {
      Lawful(trace) && records == Records(trace)
    }

    /** The record of the newest ticket is what the fields say. */
    ghost predicate Valid()
      reads this
    {
      && Traced() && |records| == next
      && (next == 0 ==> !active)
      && (next > 0 ==> gate.ticket == next && Agrees(records[next - 1]))
    }

    ghost predicate Agrees(r: Record)
      reads this
    {
      && r.first == (if saved.Some? then Some((saved.value, savedCall)) else None)
      && r.prepared == prepared && r.committed == committed
      && (r.tried ==> prepared) && (prepared ==> saved.Some?)
      && (r.published ==> birthSeen)
    }

    constructor ()
      ensures Valid() && next == 0 && !active && trace == Start
    {
      gate := Gate(0, Unknown, SysCall(0, []), 0);
      saved, savedCall, next := None, SysCall(0, []), 0;
      active, begun, prepared, committed, birthSeen := false, false, false, false, false;
      trace, records := Start, [];
    }

    ghost method Happens(e: Event)
      requires Traced() && Allowed(records, e)
      modifies this`trace, this`records
      ensures Traced() && trace == Then(old(trace), e) && records == Effect(old(records), e)
    {
      trace := Then(trace, e);
      records := Effect(records, e);
    }

    /** The PREPARE arm: install the CPU state once and open the next ticket. */
    method Open(request: Request, native: Native) returns (ok: bool)
      requires Valid()
      modifies this
      ensures Valid()
      ensures ok <==> !old(active) && request.ticket == 0 && request.cpuOk && old(next) < U64_MAX && native.installOk
      ensures ok ==> active && next == old(next) + 1 && trace == Then(old(trace), Install(next))
      ensures !ok ==> trace == old(trace) && next == old(next) && active == old(active)
    {
      if active || request.ticket != 0 || !request.cpuOk || next >= U64_MAX || !native.installOk {
        return false;
      }
      Happens(Install(next + 1));
      next := next + 1;
      saved, savedCall := None, SysCall(0, []);
      active, begun, prepared, committed, birthSeen := true, false, false, false, false;
      gate := Gate(next, Entering, SysCall(0, []), 0);
      ok := true;
    }

    /** source_admission_native(): only a successful call updates the gate record. */
    method Ask(answer: GateAnswer)
      modifies this`gate
      ensures gate == if answer.Replies? then Gate(old(gate).ticket, answer.state, answer.call, answer.childPid)
                      else old(gate)
    {
      if answer.Replies? {
        gate := Gate(gate.ticket, answer.state, answer.call, answer.childPid);
      }
    }

    /** An ADMITTED gate: save the first observation, insist that later ones repeat it. */
    method Admit(snapshot: Option<Binding>) returns (ok: bool)
      requires Valid() && active
      modifies this`saved, this`savedCall, this`trace, this`records
      ensures Valid() && Extends(trace, old(trace))
      ensures ok ==> saved == snapshot && saved.Some? && savedCall == gate.call
      ensures ok <==> snapshot.Some? && (old(saved).Some? ==> old(saved) == snapshot && old(savedCall) == gate.call)
    {
      if snapshot.None? || (saved.Some? && (saved != snapshot || savedCall != gate.call)) {
        return false;
      }
      Happens(Observe(next, snapshot.value, gate.call));
      saved, savedCall := snapshot, gate.call;
      ok := true;
    }

    /** Memory preparation runs once per ticket, before the first COMMIT. */
    method PrepareOnce()
      requires Valid() && active && saved.Some? && !committed
      modifies this`prepared, this`trace, this`records
      ensures Valid() && prepared
      ensures trace == if old(prepared) then old(trace) else Then(old(trace), PrepareMemory(next, saved.value, savedCall))
    {
      if !prepared {
        Happens(PrepareMemory(next, saved.value, savedCall));
        prepared := true;
      }
    }

    /** The kernel may dispatch even when its answer is lost, but never twice for one ticket. */
    method SendCommit(answer: GateAnswer, dispatches: bool)
      requires Valid() && active && prepared && !committed
      modifies this`committed, this`gate, this`trace, this`records
      ensures Valid() && committed == answer.Replies?
      ensures var sent := Then(old(trace), Commit(next, saved.value, savedCall, answer.Replies?));
              trace == sent || trace == Then(sent, Dispatch(next))
    {
      Ask(answer);
      Happens(Commit(next, saved.value, savedCall, answer.Replies?));
      committed := answer.Replies?;
      if dispatches && !records[next - 1].dispatched {
        Happens(Dispatch(next));
      }
    }

    /** The EXECUTE arm on an admitted call. */
    method Execute(answer: GateAnswer, dispatches: bool) returns (ok: bool)
      requires Valid() && active && saved.Some? && !committed
      modifies this`prepared, this`committed, this`gate, this`trace, this`records
      ensures Valid() && Extends(trace, old(trace)) && prepared
      ensures committed <==> answer.Replies?
      ensures ok <==> !answer.Fails?
    {
      PrepareOnce();
      ghost var ready := trace;
      SendCommit(answer, dispatches);
      assert Extends(trace.before, ready) || Extends(trace.before.before, ready);
      ExtendsTransitive(trace, ready, old(trace));
      ok := !answer.Fails?;
    }

    /** A live child of an admitted call, with the MM that the call's own MM allows. */
    ghost predicate Publishable(answer: BirthAnswer)
      reads this
    {
      answer.Born? && saved.Some? && Descends(saved.value, answer.mm, answer.sharedMm)
    }

    /** source_admission_birth(): 1 to retry later, 0 when accounted for. */
    method Birth(answer: BirthAnswer) returns (r: int)
      requires Valid() && active
      modifies this`birthSeen, this`trace, this`records
      ensures Valid() && Extends(trace, old(trace))
      ensures r == 0 <==> old(birthSeen) || gate.childPid == 0 || answer.ChildEnded? || Publishable(answer)
      ensures r == 1 <==> !old(birthSeen) && gate.childPid != 0 && answer.BirthBusy?
      ensures -1 <= r <= 1
      ensures trace != old(trace) ==>
                saved.Some? && answer.Born? && if answer.sharedMm then answer.mm == saved.value.mm else saved.value.mm < answer.mm
      ensures trace == if !old(birthSeen) && gate.childPid != 0 && Publishable(answer)
                       then Then(old(trace), Publish(next, answer.child, answer.mm, answer.sharedMm)) else old(trace)
      ensures birthSeen <==> old(birthSeen) || (gate.childPid != 0 && r == 0)
    {
      if birthSeen || gate.childPid == 0 {
        return 0;
      }
      match answer
      case BirthBusy => r := 1;
      case BirthFails => r := -1;
      case ChildEnded => birthSeen := true; r := 0;
      case Born(child, mm, sharedMm) =>
        if saved.None? || !Descends(saved.value, mm, sharedMm) {
          return -1;
        }
        Happens(Publish(next, child, mm, sharedMm));
        birthSeen := true;
        r := 0;
    }

    /** The reply for the gate's final state; the ticket retires with a completion. */
    method Finish(dead: bool) returns (r: Reply)
      requires Valid() && active
      modifies this`active, this`trace, this`records
      ensures Valid() && Extends(trace, old(trace))
      ensures r.Done? ==> !active && trace == Then(old(trace), Completed(next, r.live))
      ensures r.Done? <==> dead || (gate.state == Complete && committed)
      ensures r.Done? ==> r.live == !dead
      ensures r.Pending? ==> r.state == gate.state
      ensures r.Failed? <==> !dead && (gate.state == Unknown || (gate.state == Complete && !committed))
      ensures !r.Done? ==> trace == old(trace) && active
    {
      if !dead {
        match gate.state
        case Entering => return Pending(Entering);
        case Admitted => return Pending(Admitted);
        case Running => return Pending(Running);
        case Unknown => return Failed;
        case Complete =>
          if !committed {
            return Failed;
          }
      }
      Happens(Completed(next, !dead));
      active := false;
      r := Done(!dead);
    }

    /** The request may open a ticket, or names the open one and carries nothing else. */
    ghost predicate Accepts(request: Request, native: Native)
      reads this
    {
      if request.kind == PREPARE
      then !active && request.ticket == 0 && request.cpuOk && next < U64_MAX && native.installOk
      else active && request.ticket == next && request.clean
    }

    /** The first half of source_admission_step(): check the request and ask the gate. */
    method Arrive(request: Request, native: Native) returns (r: Option<Reply>)
      requires Valid()
      modifies this
      ensures Valid() && Extends(trace, old(trace))
      ensures next == old(next) || (request.kind == PREPARE && next == old(next) + 1)
      ensures r.Some? ==> !r.value.Done?
      ensures !old(Accepts(request, native)) ==> r == Some(Failed) && trace == old(trace) && next == old(next)
      ensures old(Accepts(request, native)) ==> (r.None? <==> native.gate.Replies?) && (r == Some(Failed) <==> native.gate.Fails?)
      ensures r.None? ==> active && gate.state == native.gate.state && gate.call == native.gate.call
      ensures old(Accepts(request, native)) && request.kind != PREPARE ==>
                trace == old(trace) && committed == old(committed) && saved == old(saved) && savedCall == old(savedCall)
      ensures r.None? && request.kind == PREPARE ==> !committed && saved.None?
      ensures old(Accepts(request, native)) && native.gate.Again? ==>
                r == Some(Pending(if request.kind == PREPARE then Entering
                                  else if old(committed) then Running else if old(prepared) then Admitted else Entering))
    {
      if request.kind == PREPARE {
        var started := Open(request, native);
        if !started {
          return Some(Failed);
        }
      } else if !active || request.ticket != gate.ticket || !request.clean {
        return Some(Failed);
      }
      if native.gate.Fails? {
        return Some(Failed);
      }
      if native.gate.Again? {
        return Some(Pending(if committed then Running else if prepared then Admitted else Entering));
      }
      Ask(native.gate);
      begun := true;
      r := None;
    }

    /** An ADMITTED gate is observed, and an EXECUTE commits it; EXECUTE finds no other gate. */
    method Advance(execute: bool, native: Native) returns (ok: bool)
      requires Valid() && active
      modifies this`saved, this`savedCall, this`prepared, this`committed, this`gate, this`trace, this`records
      ensures Valid() && Extends(trace, old(trace))
      ensures execute && !old(committed) && old(gate.state) != Admitted ==> !ok
      ensures committed <==> old(committed) || (execute && old(gate).state == Admitted && native.commit.Replies?
                             && native.snapshot.Some?
                             && (old(saved).Some? ==> old(saved) == native.snapshot && old(savedCall) == old(gate).call))
      ensures trace != old(trace) ==> old(gate).state == Admitted
    {
      if gate.state != Admitted {
        return !execute || committed;
      }
      ok := Admit(native.snapshot);
      if ok && execute && !committed {
        ghost var mid := trace;
        ok := Execute(native.commit, native.commitDispatches);
        ExtendsTransitive(trace, mid, old(trace));
      }
    }

    /** The last part of source_admission_step(): no ticket finishes before its birth is accounted for. */
    method Conclude(native: Native) returns (r: Reply)
      requires Valid() && active
      modifies this`birthSeen, this`active, this`trace, this`records
      ensures Valid() && Extends(trace, old(trace))
      ensures r.Done? ==> !active && (birthSeen || gate.childPid == 0) && (r.live ==> committed)
      ensures !r.Done? ==> active
      ensures r.Pending? ==> r.state == if !old(birthSeen) && gate.childPid != 0 && native.birth.BirthBusy? then Running else gate.state
      ensures r.Done? <==> (old(birthSeen) || gate.childPid == 0 || native.birth.ChildEnded? || Publishable(native.birth))
                           && (native.dead || (gate.state == Complete && committed))
    {
      var birth := Birth(native.birth);
      if birth != 0 {
        return if birth < 0 then Failed else Pending(Running);
      }
      ghost var accounted := trace;
      r := Finish(native.dead);
      ExtendsTransitive(trace, accounted, old(trace));
    }

    /** source_admission_step(). */
    method Step(request: Request, native: Native) returns (r: Reply)
      requires Valid()
      modifies this
      ensures Valid() && Extends(trace, old(trace))
      ensures next == old(next) || (request.kind == PREPARE && next == old(next) + 1)
      ensures r.Done? && r.live ==> committed
      ensures !old(Accepts(request, native)) ==> r == Failed && trace == old(trace) && next == old(next)
      ensures old(Accepts(request, native)) && native.gate.Fails? ==> r == Failed
      ensures r.Done? ==> old(Accepts(request, native)) && native.gate.Replies? && !active
      ensures old(Accepts(request, native)) && request.kind != PREPARE ==>
                (committed <==> old(committed) || CommitsNow(request, native, old(saved), old(savedCall)))
      ensures old(Accepts(request, native)) && native.gate.Again? ==>
                r == Pending(if request.kind == PREPARE then Entering
                             else if old(committed) then Running else if old(prepared) then Admitted else Entering)
      ensures r.Pending? && native.gate.Replies? ==> r.state == Running || r.state == gate.state
    {
      var early := Arrive(request, native);
      if early.Some? {
        return early.value;
      }
      ghost var arrived := trace;
      var ok := Advance(request.kind == EXECUTE, native);
      ExtendsTransitive(trace, arrived, old(trace));
      if !ok {
        return Failed;
      }
      ghost var advanced := trace;
      r := Conclude(native);
      ExtendsTransitive(trace, advanced, old(trace));
    }
  }
}
