/**
 * Unordered tables of disjoint address ranges, the structure under access-layout.h and
 * shared-layout.h, and the loop both use to cut a span out of one: trim or split the rows
 * that overlap it and fill a vacated slot with the last row.
 */
module Intervals {
  import opened Basics

  /** Addresses [start, end) of one address space carry `payload`. */
  datatype Row<+P> = Row(space: nat, start: nat, end: nat, payload: P)

  predicate Covers<P>(r: Row<P>, space: nat, a: nat) {
    r.space == space && r.start <= a < r.end
  }

  predicate Overlaps<P>(r: Row<P>, space: nat, start: nat, end: nat) {
    r.space == space && start < r.end && r.start < end
  }

  /** Sticks out of the span on both sides, so cutting the span splits it. */
  predicate Straddles<P>(r: Row<P>, space: nat, start: nat, end: nat) {
    r.space == space && r.start < start && end < r.end
  }

  predicate Apart<P>(r: Row<P>, q: Row<P>) {
    r.space != q.space || r.end <= q.start || q.end <= r.start
  }

  ghost predicate Disjoint<P>(rows: seq<Row<P>>) {
    && (forall i | 0 <= i < |rows| :: rows[i].start < rows[i].end)
    && (forall i, j | 0 <= i < j < |rows| :: Apart(rows[i], rows[j]))
  }

  /** The table as a map from (space, address). */
  ghost function At<P>(rows: seq<Row<P>>, space: nat, a: nat): Option<P> {
    if exists i | 0 <= i < |rows| :: Covers(rows[i], space, a)
    then var i :| 0 <= i < |rows| && Covers(rows[i], space, a); Some(rows[i].payload)
    else None
  }

  lemma RowAt<P>(rows: seq<Row<P>>, i: nat, space: nat, a: nat)
    requires Disjoint(rows) && i < |rows| && Covers(rows[i], space, a)
    ensures At(rows, space, a) == Some(rows[i].payload)
  {
  }

  /** Two tables agree at an address when the rows covering it carry the same payload. */
  lemma SameAt<P>(rows: seq<Row<P>>, rows': seq<Row<P>>, space: nat, a: nat)
    requires Disjoint(rows) && Disjoint(rows')
    requires forall i | 0 <= i < |rows| && Covers(rows[i], space, a) ::
               exists j | 0 <= j < |rows'| :: Covers(rows'[j], space, a) && rows'[j].payload == rows[i].payload
    requires forall j | 0 <= j < |rows'| && Covers(rows'[j], space, a) ::
               exists i | 0 <= i < |rows| :: Covers(rows[i], space, a)
    ensures At(rows', space, a) == At(rows, space, a)
  {
    if i :| 0 <= i < |rows| && Covers(rows[i], space, a) {
      RowAt(rows, i, space, a);
      var j :| 0 <= j < |rows'| && Covers(rows'[j], space, a) && rows'[j].payload == rows[i].payload;
      RowAt(rows', j, space, a);
    }
  }

  // ---- the cutting loop ----

  /** How many rows from index i on overlap the span; the loop's termination measure. */
  ghost function Pending<P>(rows: seq<Row<P>>, i: nat, space: nat, start: nat, end: nat): nat
    requires i <= |rows|
    decreases |rows| - i
  {
    if i == |rows| then 0
    else (if Overlaps(rows[i], space, start, end) then 1 else 0) + Pending(rows, i + 1, space, start, end)
  }

  lemma {:induction false} PendingSame<P>(rows: seq<Row<P>>, rows': seq<Row<P>>, i: nat, space: nat, start: nat, end: nat)
    requires i <= |rows| <= |rows'| && rows[i..] == rows'[i..|rows|]
    requires forall j | |rows| <= j < |rows'| :: !Overlaps(rows'[j], space, start, end)
    ensures Pending(rows', i, space, start, end) == Pending(rows, i, space, start, end)
    decreases |rows'| - i
  {
    if i < |rows| {
      assert rows[i] == rows[i..][0] == rows'[i..|rows|][0] == rows'[i];
      assert rows[i + 1..] == rows[i..][1..] == rows'[i..|rows|][1..] == rows'[i + 1..|rows|];
      PendingSame(rows, rows', i + 1, space, start, end);
    } else if i < |rows'| {
      PendingSame(rows', rows', i + 1, space, start, end);
      PendingNone(rows', i, space, start, end);
    }
  }

  lemma {:induction false} PendingNone<P>(rows: seq<Row<P>>, i: nat, space: nat, start: nat, end: nat)
    requires i <= |rows|
    requires forall j | i <= j < |rows| :: !Overlaps(rows[j], space, start, end)
    ensures Pending(rows, i, space, start, end) == 0
    decreases |rows| - i
  {
    if i < |rows| {
      PendingNone(rows, i + 1, space, start, end);
    }
  }

  lemma {:induction false} PendingInit<P>(rows: seq<Row<P>>, i: nat, space: nat, start: nat, end: nat)
    requires i < |rows|
    ensures Pending(rows, i, space, start, end)
            == Pending(rows[..|rows| - 1], i, space, start, end)
               + if Overlaps(rows[|rows| - 1], space, start, end) then 1 else 0
    decreases |rows| - i
  {
    if i + 1 < |rows| {
      PendingInit(rows, i + 1, space, start, end);
    }
  }

  /** Filling slot i with the last row leaves one overlapping row fewer. */
  lemma PendingSwap<P>(rows: seq<Row<P>>, i: nat, space: nat, start: nat, end: nat)
    requires i < |rows| && Overlaps(rows[i], space, start, end)
    ensures Pending(rows[i := rows[|rows| - 1]][..|rows| - 1], i, space, start, end)
            == Pending(rows, i, space, start, end) - 1
  {
    var n := |rows| - 1;
    var rows' := rows[i := rows[n]][..n];
    if i < n {
      PendingInit(rows, i + 1, space, start, end);
      assert rows[..n][i + 1..] == rows'[i + 1..n];
      PendingSame(rows[..n], rows', i + 1, space, start, end);
    }
  }

  /** One turn of the loop at index i. */
  function CutStep<P>(rows: seq<Row<P>>, i: nat, space: nat, start: nat, end: nat): (next: (seq<Row<P>>, nat))
    requires i < |rows|
    ensures next.1 <= |next.0|
  {
    var r := rows[i];
    if !Overlaps(r, space, start, end) then (rows, i + 1)
    else if r.start < start then
      var trimmed := rows[i := r.(end := start)];
      (if end < r.end then trimmed + [r.(start := end)] else trimmed, i + 1)
    else if end < r.end then (rows[i := r.(start := end)], i + 1)
    else (rows[i := rows[|rows| - 1]][..|rows| - 1], i)
  }

  /** Rows before i are already clear of the span. */
  ghost predicate ClearBefore<P>(rows: seq<Row<P>>, i: nat, space: nat, start: nat, end: nat) {
    i <= |rows| && forall j | 0 <= j < i :: !Overlaps(rows[j], space, start, end)
  }

  /** Some row from i on still has to be split. */
  ghost predicate SplitAhead<P>(rows: seq<Row<P>>, i: nat, space: nat, start: nat, end: nat) {
    exists j | i <= j < |rows| :: Straddles(rows[j], space, start, end)
  }

  lemma CutStepDisjoint<P>(rows: seq<Row<P>>, i: nat, space: nat, start: nat, end: nat)
    requires Disjoint(rows) && i < |rows| && start < end
    ensures Disjoint(CutStep(rows, i, space, start, end).0)
  {
  }

  lemma CutStepClear<P>(rows: seq<Row<P>>, i: nat, space: nat, start: nat, end: nat)
    requires Disjoint(rows) && i < |rows| && start < end && ClearBefore(rows, i, space, start, end)
    ensures var (rows', i') := CutStep(rows, i, space, start, end); ClearBefore(rows', i', space, start, end)
  {
  }

  lemma CutStepAt<P>(rows: seq<Row<P>>, i: nat, space: nat, start: nat, end: nat, x: nat, a: nat)
    requires Disjoint(rows) && i < |rows| && start < end && !(x == space && start <= a < end)
    ensures At(CutStep(rows, i, space, start, end).0, x, a) == At(rows, x, a)
  {
    var (rows', _) := CutStep(rows, i, space, start, end);
    CutStepDisjoint(rows, i, space, start, end);
    var n := |rows|;
    forall j | 0 <= j < n && Covers(rows[j], x, a)
      ensures exists k | 0 <= k < |rows'| :: Covers(rows'[k], x, a) && rows'[k].payload == rows[j].payload
    {
      var k := if j == i && i < |rows'| && !Covers(rows'[i], x, a) then n else if j == n - 1 && |rows'| < n then i else j;
      assert Covers(rows'[k], x, a) && rows'[k].payload == rows[j].payload;
    }
    forall k | 0 <= k < |rows'| && Covers(rows'[k], x, a)
      ensures exists j | 0 <= j < n :: Covers(rows[j], x, a)
    {
      var j := if k == n then i else if k == i && |rows'| < n then n - 1 else k;
      assert Covers(rows[j], x, a);
    }
    SameAt(rows, rows', x, a);
  }

  lemma CutStepMeasure<P>(rows: seq<Row<P>>, i: nat, space: nat, start: nat, end: nat)
    requires i < |rows| && start < end
    ensures var (rows', i') := CutStep(rows, i, space, start, end);
            var p, p' := Pending(rows, i, space, start, end), Pending(rows', i', space, start, end);
            p' < p || (p' == p && |rows'| - i' < |rows| - i)
  {
    var (rows', i') := CutStep(rows, i, space, start, end);
    if i' == i + 1 {
      assert rows[i'..] == rows'[i'..|rows|];
      PendingSame(rows, rows', i', space, start, end);
    } else {
      PendingSwap(rows, i, space, start, end);
    }
  }

  /** A table of disjoint rows has at most one row to split, so one spare slot is enough. */
  lemma CutStepRoom<P>(rows: seq<Row<P>>, i: nat, space: nat, start: nat, end: nat)
    requires Disjoint(rows) && i < |rows| && start < end
    ensures var (rows', i') := CutStep(rows, i, space, start, end);
            && |rows'| <= |rows| + 1
            && (|rows'| > |rows| ==> Straddles(rows[i], space, start, end) && !SplitAhead(rows', i', space, start, end))
            && (SplitAhead(rows', i', space, start, end) ==> SplitAhead(rows, i, space, start, end))
  {
    var (rows', i') := CutStep(rows, i, space, start, end);
    if j :| i' <= j < |rows'| && Straddles(rows'[j], space, start, end) {
      if i' == i {
        assert rows'[j] == rows[if j == i then |rows| - 1 else j];
      } else {
        assert j < |rows| && rows'[j] == rows[j];
      }
    }
  }

  /** The loop from index i to the end. */
  ghost function CutFrom<P>(rows: seq<Row<P>>, i: nat, space: nat, start: nat, end: nat): seq<Row<P>>
    requires i <= |rows| && start < end
    decreases Pending(rows, i, space, start, end), |rows| - i
  {
    if i == |rows| then rows
    else
      CutStepMeasure(rows, i, space, start, end);
      var (rows', i') := CutStep(rows, i, space, start, end);
      CutFrom(rows', i', space, start, end)
  }

  /** Cutting a span erases exactly its addresses and keeps every other one. */
  lemma {:induction false} CutFromErases<P>(rows: seq<Row<P>>, i: nat, space: nat, start: nat, end: nat)
    requires Disjoint(rows) && start < end && ClearBefore(rows, i, space, start, end)
    ensures var cut := CutFrom(rows, i, space, start, end);
            && Disjoint(cut)
            && ClearBefore(cut, |cut|, space, start, end)
            && (forall x: nat, a: nat :: At(cut, x, a) == if x == space && start <= a < end then None else At(rows, x, a))
    decreases Pending(rows, i, space, start, end), |rows| - i
  {
    if i == |rows| {
      assert forall a: nat | start <= a < end :: At(rows, space, a) == None;
    } else {
      var (rows', i') := CutStep(rows, i, space, start, end);
      CutStepMeasure(rows, i, space, start, end);
      CutStepDisjoint(rows, i, space, start, end);
      CutStepClear(rows, i, space, start, end);
      CutFromErases(rows', i', space, start, end);
      forall x: nat, a: nat | !(x == space && start <= a < end)
        ensures At(rows', x, a) == At(rows, x, a)
      {
        CutStepAt(rows, i, space, start, end, x, a);
      }
    }
  }

  /** No row reaches past `limit`. */
  ghost predicate Within<P>(rows: seq<Row<P>>, limit: nat) {
    forall i | 0 <= i < |rows| :: rows[i].end <= limit
  }

  /** The loop invariant: `rows` at index i is what cutting `from` has come to. */
  ghost predicate Cutting<P>(from: seq<Row<P>>, rows: seq<Row<P>>, i: nat, space: nat, start: nat, end: nat, limit: nat) {
    && start < end <= limit && i <= |rows|
    && Disjoint(rows) && Within(rows, limit)
    && CutFrom(rows, i, space, start, end) == CutFrom(from, 0, space, start, end)
    && |rows| <= |from| + 1
    && (SplitAhead(rows, i, space, start, end) ==> |rows| <= |from|)
  }

  lemma CuttingTurn<P>(from: seq<Row<P>>, rows: seq<Row<P>>, i: nat, space: nat, start: nat, end: nat, limit: nat)
    requires Cutting(from, rows, i, space, start, end, limit) && i < |rows|
    ensures var (rows', i') := CutStep(rows, i, space, start, end);
            && Cutting(from, rows', i', space, start, end, limit)
            && var p, p' := Pending(rows, i, space, start, end), Pending(rows', i', space, start, end);
               p' < p || (p' == p && |rows'| - i' < |rows| - i)
  {
    CutStepMeasure(rows, i, space, start, end);
    CutStepDisjoint(rows, i, space, start, end);
    CutStepRoom(rows, i, space, start, end);
    var (rows', _) := CutStep(rows, i, space, start, end);
    assert Within(rows', limit);
  }

  /** Appending a row over a cleared span sets exactly its addresses. */
  lemma AppendRow<P>(rows: seq<Row<P>>, r: Row<P>)
    requires Disjoint(rows) && r.start < r.end && ClearBefore(rows, |rows|, r.space, r.start, r.end)
    ensures Disjoint(rows + [r])
    ensures forall x: nat, a: nat :: At(rows + [r], x, a) == if Covers(r, x, a) then Some(r.payload) else At(rows, x, a)
  {
    forall x: nat, a: nat
      ensures At(rows + [r], x, a) == if Covers(r, x, a) then Some(r.payload) else At(rows, x, a)
    {
      if Covers(r, x, a) {
        RowAt(rows + [r], |rows|, x, a);
      } else if i :| 0 <= i < |rows| && Covers(rows[i], x, a) {
        RowAt(rows, i, x, a);
        assert (rows + [r])[i] == rows[i];
        RowAt(rows + [r], i, x, a);
      }
    }
  }

  // ---- copying one space's rows to another ----

  function CopyOf<P>(r: Row<P>, child: nat, f: P -> P): Row<P> {
    r.(space := child, payload := f(r.payload))
  }

  /** The parent's rows, renamed to the child, in table order. */
  function Copies<P>(rows: seq<Row<P>>, parent: nat, child: nat, f: P -> P): seq<Row<P>> {
    if rows == [] then []
    else
      var last := rows[|rows| - 1];
      Copies(rows[..|rows| - 1], parent, child, f) + if last.space == parent then [CopyOf(last, child, f)] else []
  }

  function Mapped<P>(o: Option<P>, f: P -> P): Option<P> {
    if o.Some? then Some(f(o.value)) else None
  }

  lemma {:induction false} CopiesComeFrom<P>(rows: seq<Row<P>>, parent: nat, child: nat, f: P -> P, q: Row<P>)
    requires q in Copies(rows, parent, child, f)
    ensures exists k | 0 <= k < |rows| :: rows[k].space == parent && q == CopyOf(rows[k], child, f)
  {
    var n := |rows| - 1;
    if q in Copies(rows[..n], parent, child, f) {
      CopiesComeFrom(rows[..n], parent, child, f, q);
      var k :| 0 <= k < n && rows[..n][k].space == parent && q == CopyOf(rows[..n][k], child, f);
      assert rows[k].space == parent && q == CopyOf(rows[k], child, f);
    }
  }

  /** The copy of row n overlaps no row and no copy of an earlier row. */
  lemma CopiesApart<P>(rows: seq<Row<P>>, n: nat, parent: nat, child: nat, f: P -> P)
    requires Disjoint(rows) && n < |rows| && rows[n].space == parent
    requires forall j | 0 <= j < |rows| :: rows[j].space != child
    ensures var done := rows + Copies(rows[..n], parent, child, f);
            ClearBefore(done, |done|, child, rows[n].start, rows[n].end)
  {
    var done := rows + Copies(rows[..n], parent, child, f);
    forall j | |rows| <= j < |done|
      ensures !Overlaps(done[j], child, rows[n].start, rows[n].end)
    {
      assert done[j] in Copies(rows[..n], parent, child, f);
      CopiesComeFrom(rows[..n], parent, child, f, done[j]);
    }
  }

  /** The child's part of `done` is the parent's part of the first n rows. */
  ghost predicate CopiedUpTo<P>(rows: seq<Row<P>>, done: seq<Row<P>>, n: nat, parent: nat, child: nat, f: P -> P)
    requires n <= |rows|
  {
    forall x: nat, a: nat ::
      At(done, x, a) == if x == child then Mapped(At(rows[..n], parent, a), f) else At(rows, x, a)
  }

  lemma CopyNext<P>(rows: seq<Row<P>>, done: seq<Row<P>>, n: nat, parent: nat, child: nat, f: P -> P)
    requires Disjoint(rows) && Disjoint(done) && n < |rows| && child != parent && rows[n].space == parent
    requires CopiedUpTo(rows, done, n, parent, child, f)
    requires ClearBefore(done, |done|, child, rows[n].start, rows[n].end)
    ensures Disjoint(done + [CopyOf(rows[n], child, f)])
    ensures CopiedUpTo(rows, done + [CopyOf(rows[n], child, f)], n + 1, parent, child, f)
  {
    AppendRow(done, CopyOf(rows[n], child, f));
    AppendRow(rows[..n], rows[n]);
    assert rows[..n + 1] == rows[..n] + [rows[n]];
  }

  lemma CopySkips<P>(rows: seq<Row<P>>, done: seq<Row<P>>, n: nat, parent: nat, child: nat, f: P -> P)
    requires Disjoint(rows) && n < |rows| && rows[n].space != parent
    requires CopiedUpTo(rows, done, n, parent, child, f)
    ensures CopiedUpTo(rows, done, n + 1, parent, child, f)
  {
    AppendRow(rows[..n], rows[n]);
    assert rows[..n + 1] == rows[..n] + [rows[n]];
  }

  /** Appending the copies gives the child the parent's map and changes nobody else's. */
  lemma {:induction false} CopiesAt<P>(rows: seq<Row<P>>, n: nat, parent: nat, child: nat, f: P -> P)
    requires Disjoint(rows) && n <= |rows| && child != parent
    requires forall j | 0 <= j < |rows| :: rows[j].space != child
    ensures Disjoint(rows + Copies(rows[..n], parent, child, f))
    ensures CopiedUpTo(rows, rows + Copies(rows[..n], parent, child, f), n, parent, child, f)
  {
    if n == 0 {
      assert rows + Copies(rows[..n], parent, child, f) == rows;
    } else {
      CopiesAt(rows, n - 1, parent, child, f);
      var r := rows[n - 1];
      var done := rows + Copies(rows[..n - 1], parent, child, f);
      assert rows[..n][..n - 1] == rows[..n - 1];
      if r.space == parent {
        CopiesApart(rows, n - 1, parent, child, f);
        CopyNext(rows, done, n - 1, parent, child, f);
        assert rows + Copies(rows[..n], parent, child, f) == done + [CopyOf(r, child, f)];
      } else {
        CopySkips(rows, done, n - 1, parent, child, f);
        assert rows + Copies(rows[..n], parent, child, f) == done;
      }
    }
  }

  /** How many rows belong to a space. */
  function SpaceCount<P>(rows: seq<Row<P>>, space: nat): nat {
    if rows == [] then 0
    else SpaceCount(rows[..|rows| - 1], space) + if rows[|rows| - 1].space == space then 1 else 0
  }

  lemma {:induction false} CopiesLength<P>(rows: seq<Row<P>>, parent: nat, child: nat, f: P -> P)
    ensures |Copies(rows, parent, child, f)| == SpaceCount(rows, parent)
  {
    if rows != [] {
      CopiesLength(rows[..|rows| - 1], parent, child, f);
    }
  }

  lemma {:induction false} SpaceCountUpdate<P>(rows: seq<Row<P>>, i: nat, r: Row<P>, space: nat)
    requires i < |rows|
    ensures SpaceCount(rows[i := r], space)
            == SpaceCount(rows, space) - (if rows[i].space == space then 1 else 0) + if r.space == space then 1 else 0
  {
    var n := |rows| - 1;
    if i < n {
      SpaceCountUpdate(rows[..n], i, r, space);
      assert rows[i := r][..n] == rows[..n][i := r];
    } else {
      assert rows[i := r][..n] == rows[..n];
    }
  }

  /** Cutting one space's rows keeps the number of another's; a whole space is cut without splits. */
  lemma {:induction false} CutFromCount<P>(rows: seq<Row<P>>, i: nat, space: nat, end: nat, other: nat)
    requires i <= |rows| && 0 < end && other != space
    ensures SpaceCount(CutFrom(rows, i, space, 0, end), other) == SpaceCount(rows, other)
    ensures |CutFrom(rows, i, space, 0, end)| <= |rows|
    decreases Pending(rows, i, space, 0, end), |rows| - i
  {
    if i < |rows| {
      var (rows', i') := CutStep(rows, i, space, 0, end);
      CutStepMeasure(rows, i, space, 0, end);
      CutFromCount(rows', i', space, end, other);
      if Overlaps(rows[i], space, 0, end) {
        SpaceCountUpdate(rows, i, if i' == i then rows[|rows| - 1] else rows'[i], other);
      }
    }
  }

  // ---- repainting a span in place ----

  /** Row i inside the span gets a new payload; what sticks out is appended with the old one. */
  function PaintStep<P>(rows: seq<Row<P>>, i: nat, space: nat, start: nat, end: nat, f: P -> P): seq<Row<P>>
    requires i < |rows|
  {
    var r := rows[i];
    if !Overlaps(r, space, start, end) then rows
    else
      var lo := if start < r.start then r.start else start;
      var hi := if r.end < end then r.end else end;
      rows[i := Row(r.space, lo, hi, f(r.payload))]
      + (if r.start < lo then [r.(end := lo)] else [])
      + (if hi < r.end then [r.(start := hi)] else [])
  }

  predicate CutBy<P>(r: Row<P>, space: nat, point: nat) {
    r.space == space && r.start < point < r.end
  }

  /** One of the first i rows is cut at `point`. */
  ghost predicate CutBefore<P>(rows: seq<Row<P>>, i: nat, space: nat, point: nat) {
    exists j | 0 <= j < i && j < |rows| :: CutBy(rows[j], space, point)
  }

  ghost predicate CoveredBefore<P>(rows: seq<Row<P>>, i: nat, space: nat, a: nat) {
    exists j | 0 <= j < i && j < |rows| :: Covers(rows[j], space, a)
  }

  /** The map after the first i rows of `from` have been repainted. */
  ghost predicate Painted<P>(from: seq<Row<P>>, rows: seq<Row<P>>, i: nat, space: nat, start: nat, end: nat, f: P -> P) {
    forall x: nat, a: nat ::
      At(rows, x, a) == if x == space && start <= a < end && CoveredBefore(from, i, x, a) then Mapped(At(from, x, a), f)
                        else At(from, x, a)
  }

  ghost predicate Painting<P>(
    from: seq<Row<P>>, rows: seq<Row<P>>, i: nat, space: nat, start: nat, end: nat, f: P -> P, limit: nat)
  {
    && start < end <= limit && i <= |from| <= |rows|
    && Disjoint(from) && Disjoint(rows) && Within(rows, limit)
    && rows[i..|from|] == from[i..]
    && Painted(from, rows, i, space, start, end, f)
    && |rows| <= |from| + (if CutBefore(from, i, space, start) then 1 else 0) + (if CutBefore(from, i, space, end) then 1 else 0)
  }

  lemma PaintStepDisjoint<P>(rows: seq<Row<P>>, i: nat, space: nat, start: nat, end: nat, f: P -> P)
    requires Disjoint(rows) && i < |rows| && start < end
    ensures Disjoint(PaintStep(rows, i, space, start, end, f))
  {
  }

  lemma PaintStepAt<P>(rows: seq<Row<P>>, i: nat, space: nat, start: nat, end: nat, f: P -> P, x: nat, a: nat)
    requires Disjoint(rows) && i < |rows| && start < end
    ensures At(PaintStep(rows, i, space, start, end, f), x, a)
            == if x == space && start <= a < end && Covers(rows[i], x, a) then Some(f(rows[i].payload)) else At(rows, x, a)
  {
    var rows' := PaintStep(rows, i, space, start, end, f);
    PaintStepDisjoint(rows, i, space, start, end, f);
    if Covers(rows[i], x, a) {
      RowAt(rows, i, x, a);
      var k := if Covers(rows'[i], x, a) then i
               else if Covers(rows'[|rows|], x, a) then |rows| else |rows| + 1;
      RowAt(rows', k, x, a);
    } else if j :| 0 <= j < |rows| && Covers(rows[j], x, a) {
      RowAt(rows, j, x, a);
      assert rows'[j] == rows[j];
      RowAt(rows', j, x, a);
    }
  }

  lemma PaintingTurn<P>(
    from: seq<Row<P>>, rows: seq<Row<P>>, i: nat, space: nat, start: nat, end: nat, f: P -> P, limit: nat)
    requires Painting(from, rows, i, space, start, end, f, limit) && i < |from|
    ensures Painting(from, PaintStep(rows, i, space, start, end, f), i + 1, space, start, end, f, limit)
    ensures |PaintStep(rows, i, space, start, end, f)| <= |from| + 2
  {
    var rows' := PaintStep(rows, i, space, start, end, f);
    assert rows[i] == rows[i..|from|][0] == from[i];
    PaintStepDisjoint(rows, i, space, start, end, f);
    assert Within(rows', limit);
    assert rows'[i + 1..|from|] == rows[i..|from|][1..] == from[i..][1..] == from[i + 1..];
    forall x: nat, a: nat
      ensures At(rows', x, a)
              == if x == space && start <= a < end && CoveredBefore(from, i + 1, x, a) then Mapped(At(from, x, a), f)
                 else At(from, x, a)
    {
      PaintStepAt(rows, i, space, start, end, f, x, a);
      if Covers(from[i], x, a) {
        RowAt(from, i, x, a);
      } else {
        assert CoveredBefore(from, i + 1, x, a) <==> CoveredBefore(from, i, x, a);
      }
    }
    PaintingRoom(from, i, space, start);
    PaintingRoom(from, i, space, end);
  }

  /** Disjoint rows are cut at one point at most once. */
  lemma PaintingRoom<P>(from: seq<Row<P>>, i: nat, space: nat, point: nat)
    requires Disjoint(from) && i < |from|
    ensures CutBefore(from, i + 1, space, point) <==> CutBefore(from, i, space, point) || CutBy(from[i], space, point)
    ensures !(CutBefore(from, i, space, point) && CutBy(from[i], space, point))
  {
  }

  /** A finished loop has repainted exactly the span, whatever covered it. */
  lemma PaintedAll<P>(from: seq<Row<P>>, rows: seq<Row<P>>, space: nat, start: nat, end: nat, f: P -> P, x: nat, a: nat)
    requires Painted(from, rows, |from|, space, start, end, f)
    ensures At(rows, x, a) == if x == space && start <= a < end then Mapped(At(from, x, a), f) else At(from, x, a)
  {
  }
}
