/**
 * The open-addressed tables of pgstate.h, shared-pages.h and source-lineage.h: linear
 * probing, no deletion, growth by rehashing into a table twice as large before more than
 * half of the slots are used. The hash is a parameter; nothing depends on its choice.
 */
module ProbeTable {
  datatype Slot<K, V> = Empty | Row(key: K, value: V)

  // ---- the slots as a sequence ----

  /** Cyclic distance from slot `home` forward to slot `i`. */
  function Distance(home: nat, i: nat, capacity: nat): (d: nat)
    requires home < capacity && i < capacity
    ensures d < capacity
  {
    if home <= i then i - home else i + capacity - home
  }

  function Next(i: nat, capacity: nat): (j: nat)
    requires i < capacity
    ensures j < capacity
  {
    if i + 1 == capacity then 0 else i + 1
  }

  function Home<K(!new)>(hash: K -> nat, k: K, capacity: nat): (h: nat)
    requires 0 < capacity
    ensures h < capacity
  {
    hash(k) % capacity
  }

  /** No free slot between a row's home and the row. */
  ghost predicate Reachable<K(!new), V>(tab: seq<Slot<K, V>>, hash: K -> nat) {
    forall i, j | 0 <= i < |tab| && 0 <= j < |tab| && tab[i].Row? ::
      Distance(Home(hash, tab[i].key, |tab|), j, |tab|) < Distance(Home(hash, tab[i].key, |tab|), i, |tab|)
      ==> tab[j].Row?
  }

  ghost predicate Unique<K, V>(tab: seq<Slot<K, V>>) {
    forall i, j | 0 <= i < j < |tab| && tab[i].Row? && tab[j].Row? :: tab[i].key != tab[j].key
  }

  ghost function Keys<K, V>(tab: seq<Slot<K, V>>): set<K> {
    set i | 0 <= i < |tab| && tab[i].Row? :: tab[i].key
  }

  ghost function ValueOf<K, V>(tab: seq<Slot<K, V>>, k: K): V
    requires k in Keys(tab)
  {
    var i :| 0 <= i < |tab| && tab[i].Row? && tab[i].key == k;
    tab[i].value
  }

  /** The finite map a table stands for. */
  ghost function Contents<K, V>(tab: seq<Slot<K, V>>): map<K, V> {
    map k | k in Keys(tab) :: ValueOf(tab, k)
  }

  ghost predicate Legal<K(!new), V>(tab: seq<Slot<K, V>>, hash: K -> nat) {
    Reachable(tab, hash) && Unique(tab)
  }

  lemma RowIsContent<K, V>(tab: seq<Slot<K, V>>, i: nat)
    requires Unique(tab) && i < |tab| && tab[i].Row?
    ensures tab[i].key in Contents(tab) && Contents(tab)[tab[i].key] == tab[i].value
  {
  }

  /** Where a probe for k may stop: its row, or a free slot with no free slot before it. */
  ghost predicate ProbeEnd<K(!new), V>(tab: seq<Slot<K, V>>, hash: K -> nat, k: K, pos: nat) {
    && pos < |tab|
    && (tab[pos].Row? ==> tab[pos].key == k)
    && forall j | 0 <= j < |tab| ::
         Distance(Home(hash, k, |tab|), j, |tab|) < Distance(Home(hash, k, |tab|), pos, |tab|)
         ==> tab[j].Row? && tab[j].key != k
  }

  /** A probe that stops at a free slot proves the key absent. */
  lemma FreeMeansAbsent<K(!new), V>(tab: seq<Slot<K, V>>, hash: K -> nat, k: K, pos: nat)
    requires Legal(tab, hash) && ProbeEnd(tab, hash, k, pos) && tab[pos].Empty?
    ensures k !in Keys(tab)
  {
  }

  lemma PlaceRow<K(!new), V>(tab: seq<Slot<K, V>>, hash: K -> nat, k: K, pos: nat, v: V)
    requires Legal(tab, hash) && ProbeEnd(tab, hash, k, pos)
    ensures Legal(tab[pos := Row(k, v)], hash)
    ensures Contents(tab[pos := Row(k, v)]) == Contents(tab)[k := v]
  {
    var tab' := tab[pos := Row(k, v)];
    if tab[pos].Empty? {
      FreeMeansAbsent(tab, hash, k, pos);
    }
    assert Unique(tab');
    forall x
      ensures x in Contents(tab') <==> x in Contents(tab)[k := v]
      ensures x in Contents(tab') ==> Contents(tab')[x] == Contents(tab)[k := v][x]
    {
      if x in Contents(tab') {
        var i :| 0 <= i < |tab'| && tab'[i].Row? && tab'[i].key == x;
        RowIsContent(tab', i);
        if i != pos {
          RowIsContent(tab, i);
        }
      }
      if x in Keys(tab) {
        var i :| 0 <= i < |tab| && tab[i].Row? && tab[i].key == x;
        assert tab'[i].Row? && tab'[i].key == x;
      } else if x == k {
        assert tab'[pos].Row?;
      }
    }
  }

  lemma RewriteRow<K(!new), V>(tab: seq<Slot<K, V>>, hash: K -> nat, pos: nat, v: V)
    requires Legal(tab, hash) && pos < |tab| && tab[pos].Row?
    ensures var tab' := tab[pos := Row(tab[pos].key, v)];
            && Legal(tab', hash) && Keys(tab') == Keys(tab)
            && Contents(tab') == Contents(tab)[tab[pos].key := v]
  {
    assert ProbeEnd(tab, hash, tab[pos].key, pos);
    PlaceRow(tab, hash, tab[pos].key, pos, v);
    RowIsContent(tab, pos);
    ContentsKeys(tab);
    ContentsKeys(tab[pos := Row(tab[pos].key, v)]);
  }

  /** A table with more slots than keys has a free slot. */
  lemma {:induction false} FullTableKeys<K, V>(tab: seq<Slot<K, V>>)
    requires Unique(tab) && forall i | 0 <= i < |tab| :: tab[i].Row?
    ensures |Keys(tab)| == |tab|
  {
    if tab != [] {
      var n := |tab| - 1;
      FullTableKeys(tab[..n]);
      assert Keys(tab) == Keys(tab[..n]) + {tab[n].key};
    }
  }

  lemma FreeSlotExists<K, V>(tab: seq<Slot<K, V>>) returns (f: nat)
    requires Unique(tab) && |Keys(tab)| < |tab|
    ensures f < |tab| && tab[f].Empty?
  {
    if forall i | 0 <= i < |tab| :: tab[i].Row? {
      FullTableKeys(tab);
    }
    f :| 0 <= f < |tab| && tab[f].Empty?;
  }

  lemma ContentsKeys<K, V>(tab: seq<Slot<K, V>>)
    ensures Contents(tab).Keys == Keys(tab) && |Contents(tab)| == |Keys(tab)|
  {
    assert |Contents(tab)| == |Contents(tab).Keys|;
  }

  lemma PrefixContents<K, V>(tab: seq<Slot<K, V>>, i: nat)
    requires Unique(tab) && i < |tab|
    ensures Contents(tab[..i + 1])
            == if tab[i].Row? then Contents(tab[..i])[tab[i].key := tab[i].value] else Contents(tab[..i])
    ensures |Contents(tab[..i + 1])| <= |Contents(tab[..i])| + 1
  {
    var before, after := tab[..i], tab[..i + 1];
    assert Keys(after) == if tab[i].Row? then Keys(before) + {tab[i].key} else Keys(before);
    forall x | x in Keys(after)
      ensures Contents(after)[x] == if tab[i].Row? && x == tab[i].key then tab[i].value else Contents(before)[x]
    {
      var j :| 0 <= j < |after| && after[j].Row? && after[j].key == x;
      RowIsContent(after, j);
      if j < i {
        RowIsContent(before, j);
      }
    }
  }

  /** Every slot the probe has left behind holds another key. */
  ghost predicate Passed<K, V>(tab: seq<Slot<K, V>>, home: nat, pos: nat, k: K)
    requires home < |tab| && pos < |tab|
  {
    forall j | 0 <= j < |tab| ::
      Distance(home, j, |tab|) < Distance(home, pos, |tab|) ==> tab[j].Row? && tab[j].key != k
  }

  lemma PassOne<K, V>(tab: seq<Slot<K, V>>, home: nat, pos: nat, k: K, free: nat)
    requires home < |tab| && pos < |tab| && free < |tab| && Passed(tab, home, pos, k)
    requires tab[pos].Row? && tab[pos].key != k && tab[free].Empty?
    requires Distance(home, pos, |tab|) <= Distance(home, free, |tab|)
    ensures Passed(tab, home, Next(pos, |tab|), k)
    ensures Distance(home, pos, |tab|) < Distance(home, Next(pos, |tab|), |tab|) <= Distance(home, free, |tab|)
  {
  }

  // ---- the table itself ----

  class Table<K(==, !new), V> {
    const hash: K -> nat
    var tab: array<Slot<K, V>>
    var used: nat
    /** The finite map the table stands for. */
    ghost var view: map<K, V>

    /** At most half of the slots are used, so every probe meets a free slot. */
    ghost predicate Valid()
      reads this, tab
    {
      && Legal(tab[..], hash)
      && view == Contents(tab[..])
      && used == |view|
      && 2 * used <= tab.Length
    }

    ghost function View(): map<K, V>
      reads this
    {
      view
    }

    constructor (hash: K -> nat)
      ensures Valid() && View() == map[] && tab.Length == 0 && fresh(tab) && this.hash == hash
    {
      this.hash := hash;
      tab := new Slot<K, V>[0];
      used := 0;
      view := map[];
    }

    /** The probe loop: walks from the key's home slot to its row or to the first free slot. */
    static method ProbeIn(tab: array<Slot<K, V>>, hash: K -> nat, k: K) returns (pos: nat)
      requires Legal(tab[..], hash) && |Keys(tab[..])| < tab.Length
      ensures ProbeEnd(tab[..], hash, k, pos)
    {
      ghost var free := FreeSlotExists(tab[..]);
      var home := hash(k) % tab.Length;
      pos := home;
      while tab[pos].Row? && tab[pos].key != k
        invariant pos < tab.Length && Passed(tab[..], home, pos, k)
        invariant Distance(home, pos, tab.Length) <= Distance(home, free, tab.Length)
        decreases Distance(home, free, tab.Length) - Distance(home, pos, tab.Length)
      {
        PassOne(tab[..], home, pos, k, free);
        pos := Next(pos, tab.Length);
      }
    }

    /** Look a key up; a table that has never grown holds nothing. */
    method Find(k: K) returns (pos: nat, found: bool)
      requires Valid()
      ensures found <==> k in View()
      ensures found ==> pos < tab.Length && tab[pos] == Row(k, View()[k])
    {
      ContentsKeys(tab[..]);
      if tab.Length == 0 {
        return 0, false;
      }
      pos := ProbeIn(tab, hash, k);
      found := tab[pos].Row?;
      if found {
        RowIsContent(tab[..], pos);
      } else {
        FreeMeansAbsent(tab[..], hash, k, pos);
      }
    }

    /** Copy one row into the table being built. */
    static method Reinsert(grown: array<Slot<K, V>>, hash: K -> nat, row: Slot<K, V>)
      requires row.Row? && Legal(grown[..], hash) && |Contents(grown[..])| < grown.Length
      modifies grown
      ensures Legal(grown[..], hash)
      ensures Contents(grown[..]) == old(Contents(grown[..]))[row.key := row.value]
    {
      ContentsKeys(grown[..]);
      var pos := ProbeIn(grown, hash, row.key);
      PlaceRow(grown[..], hash, row.key, pos, row.value);
      grown[pos] := row;
    }

    /** Rehash every row into a table of twice the capacity; publish only the complete table. */
    method Grow(initial: nat)
      requires Valid() && 2 <= initial
      modifies this
      ensures Valid() && View() == old(View()) && fresh(tab)
      ensures tab.Length == (if old(tab.Length) == 0 then initial else 2 * old(tab.Length))
      ensures used == old(used)
    {
      var capacity := if tab.Length == 0 then initial else 2 * tab.Length;
      var grown := new Slot<K, V>[capacity](_ => Empty);
      ghost var rows := tab[..];
      assert Contents(grown[..]) == Contents(rows[..0]) == map[];
      var i := 0;
      while i < tab.Length
        invariant unchanged(this) && unchanged(tab) && fresh(grown) && grown.Length == capacity
        invariant 0 <= i <= tab.Length
        invariant Legal(grown[..], hash)
        invariant Contents(grown[..]) == Contents(rows[..i])
        invariant |Contents(rows[..i])| <= i
      {
        PrefixContents(rows, i);
        if tab[i].Row? {
          Reinsert(grown, hash, tab[i]);
        }
        i := i + 1;
      }
      assert rows[..i] == rows;
      tab := grown;
    }

    /** Grow before more than half of the slots would be used. */
    method MakeRoom(initial: nat)
      requires Valid() && 2 <= initial
      modifies this
      ensures Valid() && View() == old(View()) && used == old(used) && 2 * used + 2 <= tab.Length
      ensures fresh(tab) || tab == old(tab)
    {
      if used >= tab.Length / 2 {
        Grow(initial);
      }
    }

    /** Write a new row into the first free slot of its probe sequence. */
    method Insert(k: K, v: V) returns (pos: nat)
      requires Valid() && k !in View() && 2 * used + 2 <= tab.Length
      modifies this`used, this`view, tab
      ensures Valid() && View() == old(View())[k := v] && used == old(used) + 1
      ensures tab == old(tab) && pos < tab.Length && tab[pos] == Row(k, v)
    {
      ContentsKeys(tab[..]);
      pos := ProbeIn(tab, hash, k);
      if tab[pos].Row? {
        RowIsContent(tab[..], pos);
      }
      PlaceRow(tab[..], hash, k, pos, v);
      tab[pos] := Row(k, v);
      used := used + 1;
      view := view[k := v];
    }

    /** Overwrite the value of the row at a known position. */
    method Store(pos: nat, v: V)
      requires Valid() && pos < tab.Length && tab[pos].Row?
      modifies this`view, tab
      ensures Valid() && View() == old(View())[old(tab[pos]).key := v]
      ensures tab == old(tab) && tab[pos] == Row(old(tab[pos]).key, v)
    {
      RowIsContent(tab[..], pos);
      RewriteRow(tab[..], hash, pos, v);
      view := view[tab[pos].key := v];
      tab[pos] := Row(tab[pos].key, v);
    }
  }
}
