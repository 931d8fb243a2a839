/**
 * Backing slots of shared objects: shared-pages.h. Each (object, page offset) asked for gets
 * the next unused page of one local file and keeps it for the whole session.
 */
module SharedPages {
  import opened Basics
  import opened Pages
  import opened ProbeTable

  type Key = (nat, nat)

  const INITIAL_CAPACITY: nat := 256

  datatype SlotResult = Backed(slot: nat) | BadArgument | NotFound | Overflow | NativeError

  /** What the allocator, fstat() and ftruncate() answer. */
  datatype Native = Native(canGrow: bool, statOk: bool, fileSize: int, canExtend: bool)

  // ---- what a sequence of requests does to the map ----

  /** The next unused page goes to a new key; a known key keeps its page. */
  function Assign(m: map<Key, nat>, k: Key): map<Key, nat> {
    if k in m then m else m[k := PAGE * |m|]
  }

  /** Every page lies below the allocation mark, and no two keys' pages overlap. */
  ghost predicate DistinctSlots(m: map<Key, nat>) {
    && (forall k | k in m :: m[k] + PAGE <= PAGE * |m|)
    && (forall j, k | j in m && k in m && j != k :: m[j] + PAGE <= m[k] || m[k] + PAGE <= m[j])
  }

  lemma AssignDistinct(m: map<Key, nat>, k: Key)
    requires DistinctSlots(m)
    ensures DistinctSlots(Assign(m, k))
  {
    if k !in m {
      assert |m[k := PAGE * |m|]| == |m| + 1;
    }
  }

  ghost function AssignAll(m: map<Key, nat>, ks: seq<Key>): map<Key, nat>
    decreases |ks|
  {
    if ks == [] then m else AssignAll(Assign(m, ks[0]), ks[1..])
  }

  lemma {:induction false} AssignAllDistinct(m: map<Key, nat>, ks: seq<Key>)
    requires DistinctSlots(m)
    ensures DistinctSlots(AssignAll(m, ks))
    decreases |ks|
  {
    if ks != [] {
      AssignDistinct(m, ks[0]);
      AssignAllDistinct(Assign(m, ks[0]), ks[1..]);
    }
  }

  /** A slot once given is never changed, and every request is served. */
  lemma {:induction false} AssignAllKeeps(m: map<Key, nat>, ks: seq<Key>, k: Key)
    ensures k in m ==> k in AssignAll(m, ks) && AssignAll(m, ks)[k] == m[k]
    ensures k in ks ==> k in AssignAll(m, ks)
    decreases |ks|
  {
    if ks != [] {
      AssignAllKeeps(Assign(m, ks[0]), ks[1..], k);
    }
  }

  /** Over any run of requests, slots stay distinct and nobody's slot ever changes. */
  lemma SlotsAreStable(m: map<Key, nat>, ks: seq<Key>)
    requires DistinctSlots(m)
    ensures DistinctSlots(AssignAll(m, ks))
    ensures forall k | k in m :: k in AssignAll(m, ks) && AssignAll(m, ks)[k] == m[k]
    ensures forall k | k in ks :: k in AssignAll(m, ks)
  {
    AssignAllDistinct(m, ks);
    forall k {
      AssignAllKeeps(m, ks, k);
    }
  }

  // ---- the table ----

  /** The file can be bound, if it is not yet, and holds one more page or can be made to. */
  predicate Backable(fd: int, extent: int, used: nat, native: Native) {
    && (fd >= 0 || (native.statOk && native.fileSize >= 0))
    && (PAGE * used + PAGE <= (if fd >= 0 then extent else native.fileSize) || native.canExtend)
  }

  class PageSlots {
    const table: Table<Key, nat>
    var fd: int
    var extent: int

    ghost predicate Valid()
      reads this, table, table.tab
    {
      && table.Valid()
      && DistinctSlots(table.View())
      && (table.used == 0 || (0 <= fd && PAGE * table.used <= extent))
    }

    ghost function View(): map<Key, nat>
      reads this, table
    {
      table.View()
    }

    constructor (hash: Key -> nat)
      ensures Valid() && View() == map[] && fresh(table) && fresh(table.tab) && fd == -1
    {
      table := new Table(hash);
      fd := -1;
      extent := 0;
    }

    /** Bind the file on first use and make it long enough for one more page. */
    method Back(file: int, native: Native) returns (r: SlotResult)
      requires Valid() && 0 <= file && (0 <= fd ==> fd == file)
      modifies this
      ensures Valid()
      ensures r.NativeError? || r.BadArgument? || r == Backed(PAGE * table.used)
      ensures r.Backed? ==> fd == file && PAGE * table.used + PAGE <= extent
      ensures fd == file || fd == old(fd)
      ensures r.Backed? <==> Backable(old(fd), old(extent), table.used, native)
    {
      if fd < 0 {
        if !native.statOk {
          return NativeError;
        }
        if native.fileSize < 0 {
          return BadArgument;
        }
        extent := native.fileSize;
        fd := file;
      }
      var slot := PAGE * table.used;
      if slot + PAGE > extent {
        if !native.canExtend {
          return NativeError;
        }
        extent := slot + PAGE;
      }
      r := Backed(slot);
    }

    /** The creating half of shared_page_slot(), for a key the table does not hold. */
    method Allocate(file: int, k: Key, native: Native) returns (r: SlotResult)
      requires Valid() && k !in View() && 0 <= file && (0 <= fd ==> fd == file)
      modifies this, table, table.tab
      ensures Valid() && (fresh(table.tab) || table.tab == old(table.tab))
      ensures View() == if r.Backed? then old(View())[k := r.slot] else old(View())
      ensures r.Backed? ==> r.slot == PAGE * |old(View())|
      ensures !r.NotFound?
      ensures r.Backed? <==>
              && PAGE * (|old(View())| + 1) <= INT64_MAX
              && (2 * |old(View())| + 2 <= old(table.tab.Length) || native.canGrow)
              && Backable(old(fd), old(extent), |old(View())|, native)
    {
      if table.used >= INT64_MAX / PAGE {
        return Overflow;
      }
      if table.used >= table.tab.Length / 2 && !native.canGrow {
        return NativeError;
      }
      table.MakeRoom(INITIAL_CAPACITY);
      r := Back(file, native);
      if r.Backed? {
        AssignDistinct(View(), k);
        var _ := table.Insert(k, r.slot);
      }
    }

    /** shared_page_slot(). A failed request assigns nothing. */
    method SlotFor(file: int, objectId: nat, offset: nat, create: bool, native: Native) returns (r: SlotResult)
      requires Valid()
      modifies this, table, table.tab
      ensures Valid() && (fresh(table.tab) || table.tab == old(table.tab))
      ensures View() == if r.Backed? then Assign(old(View()), (objectId, offset)) else old(View())
      ensures r.Backed? ==> (objectId, offset) in View() && r.slot == View()[(objectId, offset)]
      ensures !create ==> View() == old(View())
      ensures r.NotFound? ==> !create && (objectId, offset) !in View()
      ensures (file < 0 || objectId == 0 || offset % PAGE != 0 || offset > INT64_MAX - 4095 || (0 <= old(fd) && old(fd) != file))
              ==> r.BadArgument?
      ensures 0 <= file && objectId != 0 && offset % PAGE == 0 && offset <= INT64_MAX - 4095 && !(0 <= old(fd) && old(fd) != file)
              ==> (r.Backed? <==>
                     || (objectId, offset) in old(View())
                     || (create && PAGE * (|old(View())| + 1) <= INT64_MAX
                         && (2 * |old(View())| + 2 <= old(table.tab.Length) || native.canGrow)
                         && Backable(old(fd), old(extent), |old(View())|, native))) && (r.NotFound? <==> !create && (objectId, offset) !in View())
    {
      if file < 0 || objectId == 0 || offset % PAGE != 0 || offset > INT64_MAX - 4095 {
        return BadArgument;
      }
      if 0 <= fd && fd != file {
        return BadArgument;
      }
      var k := (objectId, offset);
      var pos, found := table.Find(k);
      if found {
        return Backed(table.tab[pos].value);
      }
      if !create {
        return NotFound;
      }
      r := Allocate(file, k, native);
    }
  }
}
