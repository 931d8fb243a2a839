/**
 * Access restrictions per address space: access-layout.h. An unordered array of disjoint
 * ranges with base rights, a guard and the journal sequence that set them.
 */
module AccessLayout {
  import opened Basics
  import opened Intervals

  datatype Rights = Rights(sequence: nat, protection: nat, denied: bool)

  type AccessRow = Row<Rights>

  /** A child has its own journal, so inherited rights carry sequence 0. */
  function Inherited(r: Rights): Rights {
    r.(sequence := 0)
  }

  class Layout {
    var rows: seq<AccessRow>
    /** Rows the allocation has room for. */
    var capacity: nat

    ghost predicate Valid()
      reads this
    {
      && Disjoint(rows)
      && |rows| <= capacity
      && Within(rows, U64_MAX)
    }

    constructor ()
      ensures Valid() && rows == []
    {
      rows := [];
      capacity := 0;
    }

    /** access_reserve(). */
    method Reserve(count: nat)
      modifies this`capacity
      ensures capacity >= count && capacity >= old(capacity)
    {
      if count <= capacity {
        return;
      }
      var n := if capacity != 0 then capacity else 64;
      while n < count
        invariant 0 < n && old(capacity) <= n
        decreases count - n
      {
        n := n * 2;
      }
      capacity := n;
    }

    /** The loop body of access_remove_locked(). A split stores past the last row. */
    method RemoveTurn(i: nat, space: nat, start: nat, end: nat) returns (next: nat)
      requires i < |rows| && (Straddles(rows[i], space, start, end) ==> |rows| < capacity)
      modifies this`rows
      ensures (rows, next) == CutStep(old(rows), i, space, start, end)
    {
      next := i;
      var r := rows[i];
      if r.space != space || r.end <= start || r.start >= end {
        next := i + 1;
      } else if r.start < start {
        rows := rows[i := r.(end := start)];
        next := i + 1;
        if r.end > end {
          assert |rows| < capacity;
          rows := rows + [r.(start := end)];
        }
      } else if r.end > end {
        rows := rows[i := r.(start := end)];
        next := i + 1;
      } else {
        rows := rows[i := rows[|rows| - 1]][..|rows| - 1];
      }
    }

    /** access_remove_locked(): one reserved row is enough, however many rows overlap. */
    method Remove(space: nat, start: nat, end: nat)
      requires Valid() && start < end <= U64_MAX
      modifies this
      ensures Valid() && capacity >= old(capacity) && |rows| <= |old(rows)| + 1
      ensures ClearBefore(rows, |rows|, space, start, end)
      ensures forall x: nat, a: nat ::
                At(rows, x, a) == if x == space && start <= a < end then None else At(old(rows), x, a)
    {
      CutFromErases(rows, 0, space, start, end);
      Reserve(|rows| + 1);
      var i: nat := 0;
      while i < |rows|
        invariant old(capacity) <= capacity && |old(rows)| + 1 <= capacity
        invariant Cutting(old(rows), rows, i, space, start, end, U64_MAX)
        decreases Pending(rows, i, space, start, end), |rows| - i
      {
        CuttingTurn(old(rows), rows, i, space, start, end, U64_MAX);
        i := RemoveTurn(i, space, start, end);
      }
    }

    /** access_note(): overwrite one range. */
    method Note(r: AccessRow)
      requires Valid() && r.start < r.end <= U64_MAX
      modifies this
      ensures Valid()
      ensures forall x: nat, a: nat ::
                At(rows, x, a) == if Covers(r, x, a) then Some(r.payload) else At(old(rows), x, a)
    {
      Reserve(|rows| + 2);
      Remove(r.space, r.start, r.end);
      AppendRow(rows, r);
      rows := rows + [r];
    }

    /** access_forget(). */
    method Forget(space: nat)
      requires Valid()
      modifies this
      ensures Valid()
      ensures forall x: nat, a: nat | a < U64_MAX ::
                At(rows, x, a) == if x == space then None else At(old(rows), x, a)
    {
      Remove(space, 0, U64_MAX);
    }

    /** access_lookup(): a covering row, or the gap up to the next row. */
    method Lookup(space: nat, addr: nat, end: nat) returns (found: bool, r: AccessRow)
      requires Valid() && addr < end
      ensures found <==> At(rows, space, addr).Some?
      ensures found ==> Covers(r, space, addr) && r in rows
      ensures found ==> forall a: nat | r.start <= a < r.end :: At(rows, space, a) == Some(r.payload)
      ensures !found ==> r.space == space && r.start == addr < r.end <= end && !r.payload.denied
      ensures !found ==> forall a: nat | addr <= a < r.end :: At(rows, space, a) == None
    {
      r := Row(space, addr, end, Rights(0, 0, false));
      var i := 0;
      while i < |rows|
        invariant 0 <= i <= |rows|
        invariant r.space == space && r.start == addr < r.end <= end && r.payload == Rights(0, 0, false)
        invariant forall j | 0 <= j < i :: !Overlaps(rows[j], space, addr, r.end)
      {
        var row := rows[i];
        if row.space == space && addr < row.end {
          if row.start <= addr {
            forall a: nat | row.start <= a < row.end
              ensures At(rows, space, a) == Some(row.payload)
            {
              RowAt(rows, i, space, a);
            }
            return true, row;
          }
          if row.start < r.end {
            r := r.(end := row.start);
          }
        }
        i := i + 1;
      }
      found := false;
    }

    /** access_inherit(): replace the child's restrictions by a copy of the parent's. */
    method Inherit(child: nat, parent: nat)
      requires Valid()
      modifies this
      ensures Valid()
      ensures forall x: nat, a: nat | a < U64_MAX ::
                At(rows, x, a) == if x == child && child != parent then Mapped(At(old(rows), parent, a), Inherited)
                                  else At(old(rows), x, a)
      ensures child != parent ==> forall a: nat | a < U64_MAX ::
                match At(old(rows), parent, a)
                case None => At(rows, child, a).None?
                case Some(r) => At(rows, child, a).Some? && At(rows, child, a).value.denied == r.denied
                                && At(rows, child, a).value.protection == r.protection && At(rows, child, a).value.sequence == 0
    {
      if child == parent {
        return;
      }
      Remove(child, 0, U64_MAX);
      ghost var cut := rows;
      Reserve(|rows| * 2 + 1);
      AppendCopies(child, parent);
      InheritDone(cut, child, parent);
    }

    /** The loop of access_inherit(): every row of the parent again, for the child. */
    method AppendCopies(child: nat, parent: nat)
      requires |rows| * 2 + 1 <= capacity
      modifies this`rows
      ensures |rows| <= capacity && rows == old(rows) + Copies(old(rows), parent, child, Inherited)
    {
      ghost var cut := rows;
      var n := |rows|;
      var i := 0;
      while i < n
        invariant 0 <= i <= n == |cut| <= |rows| <= n + i
        invariant rows == cut + Copies(cut[..i], parent, child, Inherited)
      {
        assert cut[..i + 1][..i] == cut[..i];
        if rows[i].space == parent {
          rows := rows + [rows[i].(space := child, payload := Inherited(rows[i].payload))];
        }
        i := i + 1;
      }
      assert cut[..n] == cut;
    }
  }

  /** With the child's own rows gone, the copies give it the parent's map. */
  lemma InheritDone(cut: seq<AccessRow>, child: nat, parent: nat)
    requires Disjoint(cut) && Within(cut, U64_MAX) && child != parent && ClearBefore(cut, |cut|, child, 0, U64_MAX)
    ensures var rows := cut + Copies(cut, parent, child, Inherited);
            && Disjoint(rows) && Within(rows, U64_MAX)
            && forall x: nat, a: nat ::
                 At(rows, x, a) == if x == child then Mapped(At(cut, parent, a), Inherited) else At(cut, x, a)
  {
    var rows := cut + Copies(cut, parent, child, Inherited);
    assert cut[..|cut|] == cut;
    forall j | 0 <= j < |cut|
      ensures cut[j].space != child
    {
      assert !Overlaps(cut[j], child, 0, U64_MAX);
    }
    CopiesAt(cut, |cut|, parent, child, Inherited);
    forall j | |cut| <= j < |rows|
      ensures rows[j].end <= U64_MAX
    {
      assert rows[j] in Copies(cut, parent, child, Inherited);
      CopiesComeFrom(cut, parent, child, Inherited, rows[j]);
    }
  }
}
