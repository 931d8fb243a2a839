/**
 * The record of broken copy-on-write pages: cow_mm_is_broken() and cow_mm_note_break() of
 * source-lineage.h, an open-addressed set of (MM, page).
 */
module CowTable {
  import opened Pages
  import opened ProbeTable

  type Key = (nat, nat)

  const INITIAL_CAPACITY: nat := 256

  class BrokenPages {
    const table: Table<Key, ()>

    ghost predicate Valid()
      reads this, table, table.tab
    {
      table.Valid()
    }

    ghost function Broken(): set<Key>
      reads this, table
    {
      table.View().Keys
    }

    constructor (hash: Key -> nat)
      ensures Valid() && Broken() == {} && fresh(table) && fresh(table.tab)
    {
      table := new Table(hash);
    }

    method IsBroken(mm: nat, address: nat) returns (found: bool)
      requires Valid()
      ensures found <==> (mm, PageOf(address)) in Broken()
    {
      var _, present := table.Find((mm, PageOf(address)));
      found := present;
    }

    /** MM 0 ends the process; otherwise grows before looking, even for a known page. */
    method NoteBreak(mm: nat, address: nat) returns (ended: bool)
      requires Valid()
      modifies table, table.tab
      ensures Valid() && (fresh(table.tab) || table.tab == old(table.tab))
      ensures ended <==> mm == 0
      ensures Broken() == if ended then old(Broken()) else old(Broken()) + {(mm, PageOf(address))}
    {
      ended := mm == 0;
      if ended {
        return;
      }
      table.MakeRoom(INITIAL_CAPACITY);
      Add((mm, PageOf(address)));
    }

    /** Inserts the key unless the table holds it. */
    method Add(k: Key)
      requires Valid() && 2 * table.used + 2 <= table.tab.Length
      modifies table, table.tab
      ensures Valid() && table.tab == old(table.tab) && Broken() == old(Broken()) + {k}
    {
      var _, present := table.Find(k);
      if !present {
        var _ := table.Insert(k, ());
      }
    }
  }
}
