/**
 * The pages a forked child starts with: source_child_pages() in source-snapshot.h scans them in
 * batches, child_pages_valid() in child-pages.h checks each batch on the other machine, and
 * child_source_pages_read() in vmremote.c puts the batches together.
 */
module ChildPages {
  import opened Pages

  const BATCH := 256
  const TOP := 0x8000_0000_0000_0000
  const EINVAL := -22
  const ESTALE := -116
  const EIO := -5

  predicate Aligned(a: nat) {
    a % PAGE == 0
  }

  lemma NextPage(a: nat)
    requires Aligned(a)
    ensures Aligned(a + PAGE)
    ensures forall b: nat | Aligned(b) && a < b :: a + PAGE <= b
  {
  }

  predicate Ascending(pages: seq<nat>) {
    forall i, j | 0 <= i < j < |pages| :: pages[i] < pages[j]
  }

  /** struct vmr_child_pages, as it crosses the wire. next is zero when the scan is complete. */
  datatype Batch = Batch(next: nat, count: nat, reserved: nat, slots: seq<nat>)

  function Entries(b: Batch): seq<nat>
    requires b.count <= |b.slots|
  {
    b.slots[..b.count]
  }

  /** What the receiver is owed: distinct aligned pages in order from the cursor, and a cursor past them. */
  ghost predicate InOrder(pages: seq<nat>, cursor: nat, next: nat) {
    && Ascending(pages)
    && (forall i | 0 <= i < |pages| :: Aligned(pages[i]) && cursor <= pages[i] < TOP)
    && (next != 0 ==> Aligned(next) && cursor < next < TOP && forall i | 0 <= i < |pages| :: pages[i] < next)
  }

  ghost predicate ValidBatch(b: Batch, cursor: nat) {
    && |b.slots| == BATCH && b.count <= BATCH && b.reserved == 0 && Aligned(cursor)
    && InOrder(Entries(b), cursor, b.next)
    && (forall i | b.count <= i < BATCH :: b.slots[i] == 0)
  }

  /** The first loop of child_pages_valid(). */
  method CheckEntries(b: Batch, cursor: nat) returns (ok: bool, previous: nat)
    requires |b.slots| == BATCH && b.count <= BATCH && Aligned(cursor)
    ensures ok <==> InOrder(Entries(b), cursor, 0)
    ensures ok ==> previous == if b.count == 0 then cursor else b.slots[b.count - 1] + PAGE
  {
    previous := cursor;
    for i := 0 to b.count
      invariant previous == if i == 0 then cursor else b.slots[i - 1] + PAGE
      invariant InOrder(b.slots[..i], cursor, 0)
    {
      var p := b.slots[i];
      assert Entries(b)[i] == p;
      if !Aligned(p) || p >= TOP || p < previous {
        if i > 0 && Aligned(p) {
          assert Entries(b)[i - 1] == b.slots[i - 1];
          assert b.slots[..i][i - 1] == b.slots[i - 1];
          if b.slots[i - 1] < p {
            NextPage(b.slots[i - 1]);
          }
        }
        return false, previous;
      }
      assert b.slots[..i + 1] == b.slots[..i] + [p];
      previous := p + PAGE;
    }
    ok := true;
  }

  /** child_pages_valid(): accepts exactly the valid batches. */
  method CheckBatch(b: Batch, cursor: nat) returns (ok: bool)
    requires |b.slots| == BATCH
    ensures ok <==> ValidBatch(b, cursor)
  {
    if b.count > BATCH || b.reserved != 0 || !Aligned(cursor) {
      return false;
    }
    var ordered, previous := CheckEntries(b, cursor);
    if !ordered {
      return false;
    }
    ghost var last := b.count - 1;
    if b.count > 0 {
      assert Entries(b)[last] == b.slots[last];
      NextPage(b.slots[last]);
    }
    if b.next != 0 && (!Aligned(b.next) || b.next <= cursor || b.next < previous || b.next >= TOP) {
      return false;
    }
    for i := b.count to BATCH
      invariant forall j | b.count <= j < i :: b.slots[j] == 0
    {
      if b.slots[i] != 0 {
        return false;
      }
    }
    ok := true;
  }

  /** A line of /proc/pid/maps. */
  datatype Line = Mapping(lo: nat, hi: nat, private: bool) | Garbled

  /** The kernel lists mappings in address order, page aligned and disjoint. */
  ghost predicate Ordered(lines: seq<Line>) {
    && (forall i | 0 <= i < |lines| && lines[i].Mapping? ::
          Aligned(lines[i].lo) && Aligned(lines[i].hi) && lines[i].lo < lines[i].hi)
    && (forall i, j | 0 <= i < j < |lines| && lines[i].Mapping? && lines[j].Mapping? :: lines[i].hi <= lines[j].lo)
  }

  /** Every line has the expected form. */
  predicate Readable(lines: seq<Line>) {
    forall i | 0 <= i < |lines| :: lines[i].Mapping?
  }

  predicate Holds(line: Line, a: nat) {
    line.Mapping? && line.private && line.hi < TOP && line.lo <= a < line.hi
  }

  /** a is a resident page of a private mapping in user space. */
  ghost predicate Wanted(lines: seq<Line>, present: set<nat>, a: nat) {
    Aligned(a) && a in present && exists i | 0 <= i < |lines| :: Holds(lines[i], a)
  }

  /** pages is the list of all wanted pages from lo up to hi. */
  ghost predicate Found(pages: seq<nat>, lines: seq<Line>, present: set<nat>, lo: nat, hi: nat) {
    Ascending(pages) && forall a: nat :: a in pages <==> lo <= a < hi && Wanted(lines, present, a)
  }

  /** Every line before i ends by done, and done is not yet inside a line from i on, or is still the cursor. */
  ghost predicate Reached(lines: seq<Line>, i: nat, cursor: nat, done: nat) {
    && cursor <= done
    && (forall k | 0 <= k < i <= |lines| :: lines[k].Mapping? && lines[k].hi <= done)
    && (forall k | i <= k < |lines| && lines[k].Mapping? :: done == cursor || done <= lines[k].lo)
  }

  lemma FoundSkip(pages: seq<nat>, lines: seq<Line>, present: set<nat>, cursor: nat, done: nat, to: nat)
    requires Found(pages, lines, present, cursor, done) && cursor <= done <= to
    requires forall a: nat | done <= a < to :: !Wanted(lines, present, a)
    ensures Found(pages, lines, present, cursor, to)
  {
  }

  lemma FoundNext(pages: seq<nat>, lines: seq<Line>, present: set<nat>, cursor: nat, done: nat)
    requires Found(pages, lines, present, cursor, done) && cursor <= done && Aligned(done)
    ensures Aligned(done + PAGE)
    ensures Wanted(lines, present, done) ==> Found(pages + [done], lines, present, cursor, done + PAGE)
    ensures !Wanted(lines, present, done) ==> Found(pages, lines, present, cursor, done + PAGE)
  {
    NextPage(done);
    forall i | 0 <= i < |pages|
      ensures pages[i] < done
    {
      assert pages[i] in pages;
    }
  }

  /** Line i is the only one a page between done and its end can lie in. */
  lemma OnlyLine(lines: seq<Line>, present: set<nat>, i: nat, cursor: nat, done: nat, a: nat)
    requires Ordered(lines) && i < |lines| && lines[i].Mapping? && Reached(lines, i, cursor, done)
    requires done <= a < lines[i].hi && Wanted(lines, present, a)
    ensures Holds(lines[i], a)
  {
    var k :| 0 <= k < |lines| && Holds(lines[k], a);
    if k != i {
      assert false;
    }
  }

  lemma SkipTo(pages: seq<nat>, lines: seq<Line>, present: set<nat>, i: nat, cursor: nat, done: nat, to: nat)
    requires Ordered(lines) && i < |lines| && lines[i].Mapping? && Reached(lines, i, cursor, done)
    requires Found(pages, lines, present, cursor, done) && done <= to <= lines[i].hi
    requires to == done || to <= lines[i].lo || !lines[i].private || lines[i].hi >= TOP
    ensures Found(pages, lines, present, cursor, to)
  {
    forall a: nat | done <= a < to
      ensures !Wanted(lines, present, a)
    {
      if Wanted(lines, present, a) {
        OnlyLine(lines, present, i, cursor, done, a);
      }
    }
    FoundSkip(pages, lines, present, cursor, done, to);
  }

  lemma SkipLine(pages: seq<nat>, lines: seq<Line>, present: set<nat>, i: nat, cursor: nat, done: nat) returns (to: nat)
    requires Ordered(lines) && i < |lines| && lines[i].Mapping? && Reached(lines, i, cursor, done)
    requires Found(pages, lines, present, cursor, done)
    requires !lines[i].private || lines[i].hi <= cursor || lines[i].hi >= TOP
    ensures Reached(lines, i + 1, cursor, to) && Found(pages, lines, present, cursor, to)
  {
    if lines[i].hi <= done {
      to := done;
    } else {
      to := lines[i].hi;
      SkipTo(pages, lines, present, i, cursor, done, to);
    }
  }

  /** pages is the list of all wanted pages from the cursor on. */
  ghost predicate FoundAll(pages: seq<nat>, lines: seq<Line>, present: set<nat>, cursor: nat) {
    Ascending(pages) && forall a: nat :: a in pages <==> cursor <= a && Wanted(lines, present, a)
  }

  /** No line is left: what was found up to done is everything. */
  lemma FoundIsAll(pages: seq<nat>, lines: seq<Line>, present: set<nat>, cursor: nat, done: nat)
    requires Reached(lines, |lines|, cursor, done) && Found(pages, lines, present, cursor, done)
    ensures FoundAll(pages, lines, present, cursor)
  {
    forall a: nat | Wanted(lines, present, a)
      ensures a < done
    {
      var k :| 0 <= k < |lines| && Holds(lines[k], a);
    }
  }

  /** The batch reports every wanted page from the cursor up to its next cursor, and no other page. */
  ghost predicate Honest(b: Batch, lines: seq<Line>, present: set<nat>, cursor: nat) {
    && ValidBatch(b, cursor)
    && (b.next == 0 ==> FoundAll(Entries(b), lines, present, cursor))
    && (b.next != 0 ==> Found(Entries(b), lines, present, cursor, b.next))
  }

  function Packed(pages: seq<nat>, next: nat): (b: Batch)
    requires |pages| <= BATCH
    ensures b.count <= |b.slots| && Entries(b) == pages
  {
    Batch(next, |pages|, 0, pages + seq(BATCH - |pages|, _ => 0))
  }

  /** What the scan produces passes the receiver's check. */
  lemma PackedIsValid(pages: seq<nat>, lines: seq<Line>, present: set<nat>, cursor: nat, next: nat)
    requires |pages| <= BATCH && Aligned(cursor) && Ascending(pages)
    requires forall a | a in pages :: cursor <= a && Wanted(lines, present, a) && (next != 0 ==> a < next)
    requires next != 0 ==> Aligned(next) && cursor < next < TOP
    ensures ValidBatch(Packed(pages, next), cursor)
  {
    forall i | 0 <= i < |pages|
      ensures Aligned(pages[i]) && cursor <= pages[i] < TOP && (next != 0 ==> pages[i] < next)
    {
      assert pages[i] in pages;
      var k :| 0 <= k < |lines| && Holds(lines[k], pages[i]);
    }
  }

  ghost function Elements(pages: seq<nat>): set<nat> {
    set a | a in pages
  }

  /** The source's record of the child: pages it owns (PG_OURS) and pages whose sharing is broken. */
  class Child {
    var owned: set<nat>
    var broken: set<nat>
    /** No native read or record update of this child fails; otherwise any of them may. */
    const reliable: bool

    constructor (reliable: bool)
      ensures this.reliable == reliable && owned == {} && broken == {}
    {
      owned, broken := {}, {};
      this.reliable := reliable;
    }

    method NativeCall() returns (ok: bool)
      ensures reliable ==> ok
    {
      var fine: bool := *;
      ok := reliable || fine;
    }

    /** pg_set(), which may fail, then cow_mm_note_break(). */
    method Publish(address: nat) returns (ok: bool)
      modifies this
      ensures ok ==> owned == old(owned) + {address} && broken == old(broken) + {address}
      ensures !ok ==> owned == old(owned) && broken == old(broken)
      ensures reliable ==> ok
    {
      ok := NativeCall();
      if ok {
        owned := owned + {address};
        broken := broken + {address};
      }
    }

    /** One pagemap read of n entries, publishing the resident ones; full when the batch is. */
    method ScanChunk(lines: seq<Line>, present: set<nat>, ghost line: nat, cursor: nat, start: nat, n: nat, have: seq<nat>)
      returns (ok: bool, full: bool, address: nat, pages: seq<nat>)
      requires line < |lines| && lines[line].Mapping? && lines[line].private && lines[line].hi < TOP
      requires Aligned(start) && cursor <= start && lines[line].lo <= start && start + n * PAGE <= lines[line].hi
      requires |have| < BATCH && Found(have, lines, present, cursor, start)
      requires Elements(have) <= owned && Elements(have) <= broken
      modifies this
      ensures Aligned(address) && start <= address <= start + n * PAGE && Found(pages, lines, present, cursor, address)
      ensures |pages| <= BATCH && (full <==> |pages| == BATCH) && Elements(have) <= Elements(pages)
      ensures ok && !full ==> address == start + n * PAGE
      ensures full ==> ok && start < address
      ensures reliable ==> ok
      ensures owned == old(owned) + Elements(pages) && broken == old(broken) + Elements(pages)
    {
      ok, full, address, pages := true, false, start, have;
      var i := 0;
      while i < n
        invariant 0 <= i <= n && address == start + i * PAGE && Aligned(address)
        invariant Found(pages, lines, present, cursor, address)
        invariant |pages| < BATCH
        invariant owned == old(owned) + Elements(pages) && broken == old(broken) + Elements(pages)
      {
        FoundNext(pages, lines, present, cursor, address);
        assert Holds(lines[line], address);
        if address in present {
          var published := Publish(address);
          if !published {
            return false, false, address, pages;
          }
          assert Elements(pages + [address]) == Elements(pages) + {address};
          pages := pages + [address];
          if |pages| == BATCH {
            return true, true, address + PAGE, pages;
          }
        }
        address := address + PAGE;
        i := i + 1;
      }
    }

    /** The pages of one mapping from address on, a chunk at a time. */
    method ScanLine(lines: seq<Line>, present: set<nat>, line: nat, cursor: nat, start: nat, have: seq<nat>)
      returns (ok: bool, full: bool, address: nat, pages: seq<nat>)
      requires Ordered(lines) && line < |lines| && lines[line].Mapping? && lines[line].private && lines[line].hi < TOP
      requires Aligned(start) && cursor <= start && lines[line].lo <= start <= lines[line].hi
      requires |have| < BATCH && Found(have, lines, present, cursor, start)
      requires Elements(have) <= owned && Elements(have) <= broken
      modifies this
      ensures Aligned(address) && start <= address <= lines[line].hi && Found(pages, lines, present, cursor, address)
      ensures |pages| <= BATCH && (full <==> |pages| == BATCH) && Elements(have) <= Elements(pages)
      ensures ok && !full ==> address == lines[line].hi
      ensures full ==> ok && start < address
      ensures reliable ==> ok
      ensures owned == old(owned) + Elements(pages) && broken == old(broken) + Elements(pages)
    {
      ok, full, address, pages := true, false, start, have;
      var hi := lines[line].hi;
      while address < hi
        invariant Aligned(address) && start <= address <= hi && Found(pages, lines, present, cursor, address)
        invariant |pages| < BATCH && ok && !full
        invariant owned == old(owned) + Elements(pages) && broken == old(broken) + Elements(pages)
      {
        NextPage(address);
        var n := (hi - address) / PAGE;
        if n > BATCH {
          n := BATCH;
        }
        var complete := NativeCall();
        if !complete {
          return false, false, address, pages;
        }
        ok, full, address, pages := ScanChunk(lines, present, line, cursor, address, n, pages);
        if !ok || full {
          return;
        }
      }
    }

    /** One line of the maps file: skipped, or scanned from the cursor or its start. */
    method VisitLine(lines: seq<Line>, present: set<nat>, i: nat, cursor: nat, ghost done: nat, have: seq<nat>)
      returns (ok: bool, next: nat, ghost to: nat, pages: seq<nat>)
      requires Ordered(lines) && Aligned(cursor) && i < |lines| && lines[i].Mapping?
      requires Reached(lines, i, cursor, done) && Found(have, lines, present, cursor, done) && |have| < BATCH
      requires Elements(have) <= owned && Elements(have) <= broken
      modifies this
      ensures Found(pages, lines, present, cursor, to) && |pages| <= BATCH && Elements(have) <= Elements(pages)
      ensures reliable ==> ok
      ensures ok && next == 0 ==> Reached(lines, i + 1, cursor, to) && |pages| < BATCH
      ensures ok && next != 0 ==> next == to && Aligned(next) && cursor < next < TOP
      ensures owned == old(owned) + Elements(pages) && broken == old(broken) + Elements(pages)
    {
      ok, next, pages := true, 0, have;
      if !lines[i].private || lines[i].hi <= cursor || lines[i].hi >= TOP {
        to := SkipLine(pages, lines, present, i, cursor, done);
      } else {
        var start := if lines[i].lo < cursor then cursor else lines[i].lo;
        SkipTo(pages, lines, present, i, cursor, done, start);
        var full, address;
        ok, full, address, pages := ScanLine(lines, present, i, cursor, start, pages);
        to := address;
        next := if full then address else 0;
      }
    }

    /** The lines from the first on, until the batch is full or the lines run out. */
    method ScanLines(lines: seq<Line>, present: set<nat>, cursor: nat) returns (ok: bool, next: nat, pages: seq<nat>)
      requires Ordered(lines) && Aligned(cursor)
      modifies this
      ensures |pages| <= BATCH && forall a | a in pages :: Wanted(lines, present, a)
      ensures reliable && Readable(lines) ==> ok
      ensures ok && next == 0 ==> FoundAll(pages, lines, present, cursor)
      ensures ok && next != 0 ==> Found(pages, lines, present, cursor, next) && Aligned(next) && cursor < next < TOP
      ensures owned == old(owned) + Elements(pages) && broken == old(broken) + Elements(pages)
    {
      ok, next, pages := true, 0, [];
      ghost var done: nat := cursor;
      for i := 0 to |lines|
        invariant Reached(lines, i, cursor, done) && Found(pages, lines, present, cursor, done) && |pages| < BATCH
        invariant ok && next == 0
        invariant owned == old(owned) + Elements(pages) && broken == old(broken) + Elements(pages)
      {
        if lines[i].Garbled? {
          return false, 0, pages;
        }
        ok, next, done, pages := VisitLine(lines, present, i, cursor, done, pages);
        if !ok || next != 0 {
          return;
        }
      }
      FoundIsAll(pages, lines, present, cursor, done);
      ok := NativeCall();
    }

    /**
     * source_child_pages(): one batch from the cursor. openError is what opening the child's
     * /proc files returned; current says they still belong to the child's memory.
     */
    method Scan(lines: seq<Line>, present: set<nat>, openError: int, current: bool, cursor: nat)
      returns (result: int, batch: Batch)
      requires Ordered(lines) && openError <= 0
      modifies this
      ensures result == EINVAL || Aligned(cursor)
      ensures reliable && Readable(lines) && openError == 0 && current && Aligned(cursor) ==> result == 0
      ensures result == 0 ==> openError == 0 && current && Honest(batch, lines, present, cursor)
      ensures result == 0 ==>
                owned == old(owned) + Elements(Entries(batch)) && broken == old(broken) + Elements(Entries(batch))
      ensures openError == 0 && current && Aligned(cursor) ==> result == 0 || result == EIO
      ensures result == 0 || result == EIO || (owned == old(owned) && broken == old(broken))
      ensures forall a | a in owned && a !in old(owned) :: Wanted(lines, present, a)
    {
      batch := Packed([], 0);
      if !Aligned(cursor) {
        return EINVAL, batch;
      }
      if openError != 0 {
        return openError, batch;
      }
      if !current {
        return ESTALE, batch;
      }
      var ok, next, pages := ScanLines(lines, present, cursor);
      batch := Packed(pages, next);
      if !ok {
        return EIO, batch;
      }
      PackedIsValid(pages, lines, present, cursor, next);
      result := 0;
    }
  }

  /** What one request for a batch brings back. */
  datatype Reply = Failed | Answer(batch: Batch)

  ghost predicate HonestSource(reply: nat -> Reply, lines: seq<Line>, present: set<nat>) {
    forall c: nat | Aligned(c) && reply(c).Answer? :: Honest(reply(c).batch, lines, present, c)
  }

  lemma JoinOrder(pages: seq<nat>, more: seq<nat>, cursor: nat, next: nat)
    requires InOrder(pages, 0, cursor) && InOrder(more, cursor, next) && (cursor == 0 ==> pages == [])
    ensures InOrder(pages + more, 0, next)
  {
  }

  lemma JoinFound(pages: seq<nat>, b: Batch, lines: seq<Line>, present: set<nat>, cursor: nat)
    requires Found(pages, lines, present, 0, cursor) && Honest(b, lines, present, cursor)
    ensures b.next == 0 ==> FoundAll(pages + Entries(b), lines, present, 0)
    ensures b.next != 0 ==> Found(pages + Entries(b), lines, present, 0, b.next)
  {
    var more := Entries(b);
    forall i, j | 0 <= i < |pages| && 0 <= j < |more|
      ensures pages[i] < more[j]
    {
      assert pages[i] in pages && more[j] in more;
    }
    assert Ascending(pages + more);
  }

  /**
   * child_source_pages_read(): batches until one says it is the last. Whatever the other machine
   * answers, the loop ends and an accepted list is in order; and if it answers honestly the list
   * is every resident private page of the child, each once.
   */
  method Read(reply: nat -> Reply, ghost lines: seq<Line>, ghost present: set<nat>) returns (ok: bool, pages: seq<nat>)
    ensures ok ==> InOrder(pages, 0, 0)
    ensures ok && HonestSource(reply, lines, present) ==> FoundAll(pages, lines, present, 0)
    ensures HonestSource(reply, lines, present) && (forall c: nat | Aligned(c) :: reply(c).Answer?) ==> ok
  {
    pages := [];
    var cursor: nat := 0;
    while true
      invariant InOrder(pages, 0, cursor) && (cursor == 0 ==> pages == []) && cursor < TOP && Aligned(cursor)
      invariant HonestSource(reply, lines, present) ==> Found(pages, lines, present, 0, cursor)
      decreases TOP - cursor
    {
      var r := reply(cursor);
      if r.Failed? || |r.batch.slots| != BATCH {
        return false, pages;
      }
      var valid := CheckBatch(r.batch, cursor);
      if !valid {
        return false, pages;
      }
      JoinOrder(pages, Entries(r.batch), cursor, r.batch.next);
      if HonestSource(reply, lines, present) {
        JoinFound(pages, r.batch, lines, present, cursor);
      }
      pages := pages + Entries(r.batch);
      if r.batch.next == 0 {
        return true, pages;
      }
      cursor := r.batch.next;
    }
  }

  /**
   * Repeating the scan from cursor 0 until it says it is complete, through the receiver's check.
   * It ends, no batch is refused, and it yields every resident private page once, in order, all
   * of them and no others published as the child's own; only a failing native call can stop it.
   */
  method Snapshot(child: Child, lines: seq<Line>, present: set<nat>) returns (error: int, pages: seq<nat>)
    requires Ordered(lines)
    modifies child
    ensures error == 0 ==> FoundAll(pages, lines, present, 0) && InOrder(pages, 0, 0)
    ensures error == 0 || error == EIO
    ensures error == 0 ==>
              child.owned == old(child.owned) + Elements(pages) && child.broken == old(child.broken) + Elements(pages)
    ensures child.reliable && Readable(lines) ==> error == 0
  {
    error, pages := 0, [];
    var cursor: nat := 0;
    while true
      invariant InOrder(pages, 0, cursor) && (cursor == 0 ==> pages == []) && cursor < TOP && Aligned(cursor)
      invariant Found(pages, lines, present, 0, cursor)
      invariant child.owned == old(child.owned) + Elements(pages) && child.broken == old(child.broken) + Elements(pages)
      decreases TOP - cursor
    {
      var result, batch := child.Scan(lines, present, 0, true, cursor);
      if result != 0 {
        return result, pages;
      }
      var valid := CheckBatch(batch, cursor);
      assert valid;
      JoinOrder(pages, Entries(batch), cursor, batch.next);
      JoinFound(pages, batch, lines, present, cursor);
      assert Elements(pages + Entries(batch)) == Elements(pages) + Elements(Entries(batch));
      pages := pages + Entries(batch);
      if batch.next == 0 {
        return 0, pages;
      }
      cursor := batch.next;
    }
  }
}
