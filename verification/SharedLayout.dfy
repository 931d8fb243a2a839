/**
 * Where each byte of a shared mapping lives: shared-layout.h. Rows map address ranges to
 * object offsets; every store below stays inside the rows reserved beforehand.
 */
module SharedLayout {
  import opened Basics
  import opened Intervals

  datatype SharedRange = SharedRange(space: nat, st: nat, en: nat, off: int, objectId: nat, prot: nat)

  /** A row's constant part: splitting moves `st` and `off` together. */
  datatype Mapping = Mapping(objectId: nat, delta: int, prot: nat)

  function Abstract(r: SharedRange): Row<Mapping> {
    Row(r.space, r.st, r.en, Mapping(r.objectId, r.off - r.st, r.prot))
  }

  function AbstractAll(rows: seq<SharedRange>): (a: seq<Row<Mapping>>)
    ensures |a| == |rows| && forall i | 0 <= i < |rows| :: a[i] == Abstract(rows[i])
  {
    seq(|rows|, i requires 0 <= i < |rows| => Abstract(rows[i]))
  }

  /** The object byte behind an address, and the protection it is mapped with. */
  datatype Place = Place(objectId: nat, offset: int, prot: nat)

  ghost function PlaceAt(rows: seq<SharedRange>, space: nat, a: nat): Option<Place> {
    match At(AbstractAll(rows), space, a)
    case Some(m) => Some(Place(m.objectId, m.delta + a, m.prot))
    case None => None
  }

  function SetProt(m: Mapping, prot: nat): Mapping {
    m.(prot := prot)
  }

  /** The range is erased and nothing else. */
  ghost predicate Erased(before: seq<Row<Mapping>>, after: seq<Row<Mapping>>, space: nat, st: nat, en: nat) {
    forall x: nat, a: nat :: At(after, x, a) == if x == space && st <= a < en then None else At(before, x, a)
  }

  lemma NotedPlaces(before: seq<SharedRange>, cut: seq<SharedRange>, after: seq<SharedRange>, r: SharedRange)
    requires Erased(AbstractAll(before), AbstractAll(cut), r.space, r.st, r.en)
    requires forall x: nat, a: nat ::
               At(AbstractAll(after), x, a)
               == if Covers(Abstract(r), x, a) then Some(Abstract(r).payload) else At(AbstractAll(cut), x, a)
    ensures forall x: nat, a: nat ::
              PlaceAt(after, x, a)
              == if x == r.space && r.st <= a < r.en then Some(Place(r.objectId, r.off + (a - r.st), r.prot))
                 else PlaceAt(before, x, a)
  {
  }

  class Layout {
    var rows: seq<SharedRange>
    /** Rows the allocation has room for. */
    var capacity: nat

    ghost predicate Valid()
      reads this
    {
      Disjoint(AbstractAll(rows)) && Within(AbstractAll(rows), U64_MAX) && |rows| <= capacity
    }

    constructor ()
      ensures Valid() && rows == []
    {
      rows := [];
      capacity := 0;
    }

    /** shared_layout_reserve(). */
    method Reserve(need: nat)
      modifies this`capacity
      ensures capacity >= need && capacity >= old(capacity)
    {
      if need <= capacity {
        return;
      }
      var cap := if capacity != 0 then capacity else 64;
      while cap < need
        invariant 0 < cap && old(capacity) <= cap
        decreases need - cap
      {
        cap := cap * 2;
      }
      capacity := cap;
    }

    /** The loop body of shared_layout_remove_locked(); the right part keeps its byte offsets. */
    method RemoveTurn(i: nat, space: nat, st: nat, en: nat) returns (next: nat)
      requires i < |rows| && (Straddles(Abstract(rows[i]), space, st, en) ==> |rows| < capacity)
      modifies this`rows
      ensures (AbstractAll(rows), next) == CutStep(AbstractAll(old(rows)), i, space, st, en)
    {
      next := i;
      ghost var before := AbstractAll(rows);
      var r := rows[i];
      if r.space != space || r.en <= st || r.st >= en {
        next := i + 1;
      } else if r.st < st {
        rows := rows[i := r.(en := st)];
        next := i + 1;
        if r.en > en {
          assert |rows| < capacity;
          rows := rows + [r.(off := r.off + en - r.st, st := en)];
        }
      } else if r.en > en {
        rows := rows[i := r.(off := r.off + en - r.st, st := en)];
        next := i + 1;
      } else {
        rows := rows[i := rows[|rows| - 1]][..|rows| - 1];
      }
      assert AbstractAll(rows) == CutStep(before, i, space, st, en).0;
    }

    /** shared_layout_remove_locked(): needs one of the two rows its callers reserve. */
    method Remove(space: nat, st: nat, en: nat)
      requires Valid() && st < en <= U64_MAX && |rows| < capacity
      modifies this`rows
      ensures Valid() && |rows| <= |old(rows)| + 1
      ensures AbstractAll(rows) == CutFrom(AbstractAll(old(rows)), 0, space, st, en)
    {
      ghost var from := AbstractAll(rows);
      var i: nat := 0;
      while i < |rows|
        invariant Cutting(from, AbstractAll(rows), i, space, st, en, U64_MAX)
        decreases Pending(AbstractAll(rows), i, space, st, en), |rows| - i
      {
        CuttingTurn(from, AbstractAll(rows), i, space, st, en, U64_MAX);
        i := RemoveTurn(i, space, st, en);
      }
    }

    /** shared_layout_forget(): erase exactly the given addresses. */
    method Forget(space: nat, st: nat, en: nat)
      requires Valid() && en <= U64_MAX
      modifies this
      ensures Valid()
      ensures forall x: nat, a: nat ::
                PlaceAt(rows, x, a) == if x == space && st <= a < en then None else PlaceAt(old(rows), x, a)
    {
      if en <= st {
        return;
      }
      CutFromErases(AbstractAll(rows), 0, space, st, en);
      Reserve(|rows| + 2);
      Remove(space, st, en);
    }

    /** shared_layout_note(): overwrite the given addresses. */
    method Note(space: nat, st: nat, en: nat, off: nat, prot: nat, objectId: nat) returns (ended: bool)
      requires Valid() && en <= U64_MAX
      modifies this
      ensures Valid()
      ensures ended <==> objectId == 0 || en <= st || off > INT64_MAX || en - st > INT64_MAX - off
      ensures ended ==> rows == old(rows)
      ensures !ended ==> forall x: nat, a: nat ::
                PlaceAt(rows, x, a) == if x == space && st <= a < en then Some(Place(objectId, off + (a - st), prot))
                                       else PlaceAt(old(rows), x, a)
    {
      ended := objectId == 0 || en <= st || off > INT64_MAX || en - st > INT64_MAX - off;
      if ended {
        return;
      }
      Reserve(|rows| + 2);
      ghost var before := rows;
      Erase(space, st, en);
      ghost var cut := rows;
      var r := SharedRange(space, st, en, off, objectId, prot);
      Append(r);
      NotedPlaces(before, cut, rows, r);
    }

    /** Remove, told by address. */
    method Erase(space: nat, st: nat, en: nat)
      requires Valid() && st < en <= U64_MAX && |rows| < capacity
      modifies this`rows
      ensures Valid() && |rows| <= |old(rows)| + 1 && ClearBefore(AbstractAll(rows), |rows|, space, st, en)
      ensures Erased(AbstractAll(old(rows)), AbstractAll(rows), space, st, en)
    {
      CutFromErases(AbstractAll(rows), 0, space, st, en);
      Remove(space, st, en);
    }

    /** One more row over cleared addresses. */
    method Append(r: SharedRange)
      requires Valid() && |rows| < capacity && r.st < r.en <= U64_MAX
      requires ClearBefore(AbstractAll(rows), |rows|, r.space, r.st, r.en)
      modifies this`rows
      ensures Valid() && AbstractAll(rows) == AbstractAll(old(rows)) + [Abstract(r)]
      ensures forall x: nat, a: nat ::
                At(AbstractAll(rows), x, a)
                == if Covers(Abstract(r), x, a) then Some(Abstract(r).payload) else At(AbstractAll(old(rows)), x, a)
    {
      AppendRow(AbstractAll(rows), Abstract(r));
      assert AbstractAll(rows + [r]) == AbstractAll(rows) + [Abstract(r)];
      rows := rows + [r];
    }

    /** shared_layout_lookup(). */
    method Lookup(space: nat, a: nat) returns (r: Option<SharedRange>)
      requires Valid()
      ensures PlaceAt(rows, space, a)
              == if r.Some? then Some(Place(r.value.objectId, r.value.off + (a - r.value.st), r.value.prot)) else None
      ensures r.Some? ==> r.value in rows && Covers(Abstract(r.value), space, a)
    {
      var i := 0;
      while i < |rows|
        invariant 0 <= i <= |rows|
        invariant forall j | 0 <= j < i :: !Covers(Abstract(rows[j]), space, a)
      {
        if rows[i].space == space && rows[i].st <= a < rows[i].en {
          RowAt(AbstractAll(rows), i, space, a);
          return Some(rows[i]);
        }
        i := i + 1;
      }
      r := None;
    }

    /** The loop body of shared_layout_protect() for row i. */
    method ProtectTurn(i: nat, space: nat, st: nat, en: nat, prot: nat, ghost f: Mapping -> Mapping)
      requires i < |rows| && forall m :: f(m) == SetProt(m, prot)
      requires |PaintStep(AbstractAll(rows), i, space, st, en, f)| <= capacity
      modifies this`rows
      ensures AbstractAll(rows) == PaintStep(AbstractAll(old(rows)), i, space, st, en, f)
    {
      ghost var before := AbstractAll(rows);
      var r := rows[i];
      if r.space == space && st < r.en && r.st < en {
        var lo := if r.st > st then r.st else st;
        var hi := if r.en < en then r.en else en;
        if r.st < lo {
          rows := rows + [r.(en := lo)];
        }
        if r.en > hi {
          rows := rows + [r.(st := hi, off := r.off + hi - r.st)];
        }
        rows := rows[i := SharedRange(space, lo, hi, r.off + lo - r.st, r.objectId, prot)];
        assert AbstractAll(rows) == PaintStep(before, i, space, st, en, f);
      }
    }

    /** shared_layout_protect(): only the protection of mapped addresses changes. */
    method Protect(space: nat, st: nat, en: nat, prot: nat)
      requires Valid() && en <= U64_MAX
      modifies this
      ensures Valid() && |rows| <= |old(rows)| + 2
      ensures forall x: nat, a: nat ::
                PlaceAt(rows, x, a)
                == match PlaceAt(old(rows), x, a)
                   case Some(p) => if x == space && st <= a < en then Some(p.(prot := prot)) else Some(p)
                   case None => None
    {
      if en <= st {
        return;
      }
      Reserve(|rows| + 2);
      ghost var from := AbstractAll(rows);
      ghost var f := (m: Mapping) => SetProt(m, prot);
      var n := |rows|;
      var i: nat := 0;
      while i < n
        invariant n == |from| && n + 2 <= capacity && i <= n
        invariant Painting(from, AbstractAll(rows), i, space, st, en, f, U64_MAX)
      {
        PaintingTurn(from, AbstractAll(rows), i, space, st, en, f, U64_MAX);
        ProtectTurn(i, space, st, en, prot, f);
        i := i + 1;
      }
      ProtectedPlaces(old(rows), rows, space, st, en, prot, f);
    }

    method CountSpace(space: nat) returns (count: nat)
      ensures count == SpaceCount(AbstractAll(rows), space)
    {
      ghost var all := AbstractAll(rows);
      count := 0;
      var i: nat := 0;
      while i < |rows|
        invariant i <= |rows| && count == SpaceCount(all[..i], space)
      {
        assert all[..i + 1][..i] == all[..i];
        count := count + if rows[i].space == space then 1 else 0;
        i := i + 1;
      }
      assert all[..i] == all;
    }

    /** The second loop of shared_layout_inherit(). */
    method AppendCopies(child: nat, parent: nat, ghost f: Mapping -> Mapping)
      requires forall m :: f(m) == m
      modifies this`rows
      ensures AbstractAll(rows) == AbstractAll(old(rows)) + Copies(AbstractAll(old(rows)), parent, child, f)
    {
      ghost var cut := AbstractAll(rows);
      var n := |rows|;
      var i: nat := 0;
      while i < n
        invariant i <= n == |cut| <= |rows|
        invariant AbstractAll(rows) == cut + Copies(cut[..i], parent, child, f)
      {
        assert cut[..i + 1][..i] == cut[..i];
        if rows[i].space == parent {
          ghost var before := AbstractAll(rows);
          assert before[i] == cut[i];
          rows := rows + [rows[i].(space := child)];
          assert AbstractAll(rows) == before + [CopyOf(cut[i], child, f)];
        }
        i := i + 1;
      }
      assert cut[..n] == cut;
    }

    /** The erasure of shared_layout_inherit(): everything of the child, nothing of the parent. */
    method Clear(child: nat, parent: nat)
      requires Valid() && child != parent && |rows| < capacity
      modifies this`rows
      ensures Valid() && |rows| <= |old(rows)|
      ensures ClearBefore(AbstractAll(rows), |rows|, child, 0, U64_MAX)
      ensures SpaceCount(AbstractAll(rows), parent) == SpaceCount(AbstractAll(old(rows)), parent)
      ensures forall x: nat, a: nat ::
                At(AbstractAll(rows), x, a)
                == if x == child && a < U64_MAX then None else At(AbstractAll(old(rows)), x, a)
    {
      CutFromErases(AbstractAll(rows), 0, child, 0, U64_MAX);
      CutFromCount(AbstractAll(rows), 0, child, U64_MAX, parent);
      Remove(child, 0, U64_MAX);
    }

    /** shared_layout_inherit(): the child becomes a copy of the parent. */
    method Inherit(child: nat, parent: nat)
      requires Valid()
      modifies this
      ensures Valid()
      ensures forall x: nat, a: nat | a < U64_MAX ::
                PlaceAt(rows, x, a) == PlaceAt(old(rows), if x == child then parent else x, a)
    {
      if child == parent {
        return;
      }
      ghost var from := AbstractAll(rows);
      var n := |rows|;
      var count := CountSpace(parent);
      Reserve(n + count + 2);
      Clear(child, parent);
      ghost var cut := AbstractAll(rows);
      ghost var f := (m: Mapping) => m;
      AppendCopies(child, parent, f);
      InheritDone(from, cut, rows, child, parent, f);
      InheritedPlaces(old(rows), rows, child, parent);
    }
  }

  lemma ProtectedPlaces(
    before: seq<SharedRange>, rows: seq<SharedRange>, space: nat, st: nat, en: nat, prot: nat, f: Mapping -> Mapping)
    requires st < en && forall m :: f(m) == SetProt(m, prot)
    requires Painting(AbstractAll(before), AbstractAll(rows), |before|, space, st, en, f, U64_MAX)
    ensures forall x: nat, a: nat ::
              PlaceAt(rows, x, a)
              == match PlaceAt(before, x, a)
                 case Some(p) => if x == space && st <= a < en then Some(p.(prot := prot)) else Some(p)
                 case None => None
  {
    forall x: nat, a: nat {
      PaintedAll(AbstractAll(before), AbstractAll(rows), space, st, en, f, x, a);
    }
  }

  lemma InheritedPlaces(before: seq<SharedRange>, rows: seq<SharedRange>, child: nat, parent: nat)
    requires forall x: nat, a: nat | a < U64_MAX ::
               At(AbstractAll(rows), x, a) == At(AbstractAll(before), if x == child then parent else x, a)
    ensures forall x: nat, a: nat | a < U64_MAX :: PlaceAt(rows, x, a) == PlaceAt(before, if x == child then parent else x, a)
  {
  }

  lemma InheritDone(
    from: seq<Row<Mapping>>, cut: seq<Row<Mapping>>, rows: seq<SharedRange>, child: nat, parent: nat, f: Mapping -> Mapping)
    requires Disjoint(cut) && Within(cut, U64_MAX) && child != parent && forall m :: f(m) == m
    requires ClearBefore(cut, |cut|, child, 0, U64_MAX)
    requires forall x: nat, a: nat :: At(cut, x, a) == if x == child && a < U64_MAX then None else At(from, x, a)
    requires AbstractAll(rows) == cut + Copies(cut, parent, child, f)
    ensures Disjoint(AbstractAll(rows)) && Within(AbstractAll(rows), U64_MAX)
    ensures |rows| == |cut| + SpaceCount(cut, parent)
    ensures forall x: nat, a: nat | a < U64_MAX ::
              At(AbstractAll(rows), x, a) == At(from, if x == child then parent else x, a)
  {
    assert cut[..|cut|] == cut;
    forall j | 0 <= j < |cut|
      ensures cut[j].space != child
    {
      assert !Overlaps(cut[j], child, 0, U64_MAX);
    }
    CopiesAt(cut, |cut|, parent, child, f);
    CopiesLength(cut, parent, child, f);
    forall j | 0 <= j < |rows|
      ensures Abstract(rows[j]).end <= U64_MAX
    {
      if |cut| <= j {
        assert Abstract(rows[j]) in Copies(cut, parent, child, f);
        CopiesComeFrom(cut, parent, child, f, Abstract(rows[j]));
      }
    }
  }
}
