/**
 * Copy-on-write fork across machines: the lineage of source-lineage.h, the write decision of
 * ctx_write_prep() and the meaning of both. A forked MM starts with no pages of its own and
 * reads through to its nearest ancestor that has the page; a write is admitted only when
 * every direct child has been given its copy. The result is an eager copy at fork.
 */
module ForkCow {
  import opened Pages
  import opened CowTable

  type Mm = nat

  /** One fork: `child` began as a copy of `parent`. */
  datatype Edge = Edge(child: Mm, parent: Mm)

  // ---- the lineage array ----

  /** MM ids are allocated in order, so a child's id is above its parent's. */
  ghost predicate IsLineage(edges: seq<Edge>) {
    && (forall i | 0 <= i < |edges| :: 0 < edges[i].parent < edges[i].child)
    && (forall i, j | 0 <= i < j < |edges| :: edges[i].child != edges[j].child)
  }

  ghost function Parents(edges: seq<Edge>): map<Mm, Mm> {
    if edges == [] then map[]
    else Parents(edges[..|edges| - 1])[edges[|edges| - 1].child := edges[|edges| - 1].parent]
  }

  lemma {:induction false} EdgeIsParent(edges: seq<Edge>, i: nat)
    requires IsLineage(edges) && i < |edges|
    ensures edges[i].child in Parents(edges) && Parents(edges)[edges[i].child] == edges[i].parent
  {
    if i + 1 < |edges| {
      EdgeIsParent(edges[..|edges| - 1], i);
    }
  }

  lemma {:induction false} ParentIsEdge(edges: seq<Edge>, c: Mm)
    requires c in Parents(edges)
    ensures exists i | 0 <= i < |edges| :: edges[i].child == c
  {
    var last := |edges| - 1;
    if c != edges[last].child {
      ParentIsEdge(edges[..last], c);
    }
  }

  ghost function ChildrenOf(parents: map<Mm, Mm>, parent: Mm): set<Mm> {
    set c | c in parents && parents[c] == parent
  }

  ghost function Elements(kids: seq<Mm>): set<Mm> {
    set c | c in kids
  }

  ghost predicate Distinct(kids: seq<Mm>) {
    forall i, j | 0 <= i < j < |kids| :: kids[i] != kids[j]
  }

  lemma {:induction false} DistinctSize(kids: seq<Mm>)
    requires Distinct(kids)
    ensures |Elements(kids)| == |kids|
  {
    if kids != [] {
      var init, last := kids[..|kids| - 1], kids[|kids| - 1];
      DistinctSize(init);
      assert kids == init + [last];
      assert Elements(kids) == Elements(init) + {last};
    }
  }

  /** The edges naming a parent are exactly its children. */
  lemma EdgesAreChildren(edges: seq<Edge>, parent: Mm, c: Mm)
    requires IsLineage(edges)
    ensures c in ChildrenOf(Parents(edges), parent) <==> exists j | 0 <= j < |edges| :: edges[j] == Edge(c, parent)
  {
    if c in Parents(edges) {
      ParentIsEdge(edges, c);
    }
    forall j | 0 <= j < |edges| && edges[j].child == c
      ensures c in Parents(edges) && Parents(edges)[c] == edges[j].parent
    {
      EdgeIsParent(edges, j);
    }
  }

  lemma AllListed(edges: seq<Edge>, parent: Mm, kids: seq<Mm>)
    requires IsLineage(edges) && Distinct(kids)
    requires forall c :: c in kids <==> exists j | 0 <= j < |edges| :: edges[j] == Edge(c, parent)
    ensures Elements(kids) == ChildrenOf(Parents(edges), parent) && |ChildrenOf(Parents(edges), parent)| == |kids|
  {
    forall c
      ensures c in kids <==> c in ChildrenOf(Parents(edges), parent)
    {
      EdgesAreChildren(edges, parent, c);
    }
    assert Elements(kids) == ChildrenOf(Parents(edges), parent);
    DistinctSize(kids);
  }

  /** One more child than the list has room for. */
  lemma TooMany(edges: seq<Edge>, i: nat, parent: Mm, kids: seq<Mm>)
    requires IsLineage(edges) && Distinct(kids) && i < |edges| && edges[i].parent == parent && edges[i].child !in kids
    requires forall c | c in kids :: exists j | 0 <= j < i :: edges[j] == Edge(c, parent)
    ensures |kids| < |ChildrenOf(Parents(edges), parent)|
  {
    var more := kids + [edges[i].child];
    forall c | c in more
      ensures c in ChildrenOf(Parents(edges), parent)
    {
      EdgesAreChildren(edges, parent, c);
      assert edges[i] == Edge(edges[i].child, parent);
    }
    DistinctSize(more);
    SubsetSize(Elements(more), ChildrenOf(Parents(edges), parent));
  }

  lemma {:induction false} SubsetSize(a: set<Mm>, b: set<Mm>)
    requires a <= b
    ensures |a| <= |b|
    decreases a
  {
    if a != {} {
      var x :| x in a;
      SubsetSize(a - {x}, b - {x});
    }
  }

  datatype NoteResult = Noted | Ended

  /** A new edge for an MM that is nobody's copy yet. */
  lemma AddEdge(edges: seq<Edge>, child: Mm, parent: Mm)
    requires IsLineage(edges) && 0 < parent < child && child !in Parents(edges)
    ensures IsLineage(edges + [Edge(child, parent)])
    ensures Parents(edges + [Edge(child, parent)]) == Parents(edges)[child := parent]
  {
    forall i | 0 <= i < |edges|
      ensures edges[i].child != child
    {
      EdgeIsParent(edges, i);
    }
    assert (edges + [Edge(child, parent)])[..|edges|] == edges;
  }

  lemma SameEdge(parents: map<Mm, Mm>, child: Mm)
    requires child in parents
    ensures parents[child := parents[child]] == parents
  {
  }

  class Lineage {
    var edges: seq<Edge>

    ghost predicate Valid()
      reads this
    {
      IsLineage(edges)
    }

    ghost function View(): map<Mm, Mm>
      reads this
    {
      Parents(edges)
    }

    constructor ()
      ensures Valid() && View() == map[]
    {
      edges := [];
    }

    /** fork_parent_mm(): 0 when the MM is nobody's copy. */
    method ParentOf(child: Mm) returns (parent: Mm)
      requires Valid()
      ensures parent == if child in View() then View()[child] else 0
      ensures parent != 0 <==> child in View()
    {
      var i := 0;
      while i < |edges|
        invariant 0 <= i <= |edges|
        invariant forall j | 0 <= j < i :: edges[j].child != child
      {
        if edges[i].child == child {
          EdgeIsParent(edges, i);
          return edges[i].parent;
        }
        i := i + 1;
      }
      if child in View() {
        ParentIsEdge(edges, child);
      }
      parent := 0;
    }

    /** fork_rel_note(): idempotent; a malformed or contradicting fork ends the monitor. */
    method Note(child: Mm, parent: Mm) returns (r: NoteResult)
      requires Valid()
      modifies this
      ensures Valid()
      ensures r == Noted <==> 0 < parent < child && (child in old(View()) ==> old(View())[child] == parent)
      ensures View() == if r == Noted then old(View())[child := parent] else old(View())
    {
      if child == 0 || parent == 0 || child <= parent {
        return Ended;
      }
      var known := ParentOf(child);
      if known != 0 {
        SameEdge(View(), child);
        return if known == parent then Noted else Ended;
      }
      AddEdge(edges, child, parent);
      edges := edges + [Edge(child, parent)];
      r := Noted;
    }

    /** fork_rel_children(): every direct child exactly once, ended ones included. */
    method Children(parent: Mm, max: nat) returns (r: NoteResult, kids: seq<Mm>)
      requires Valid()
      ensures r == Noted <==> |ChildrenOf(View(), parent)| <= max
      ensures r == Noted ==> Elements(kids) == ChildrenOf(View(), parent)
      ensures Distinct(kids) && |kids| <= max
    {
      kids := [];
      var i := 0;
      while i < |edges|
        invariant 0 <= i <= |edges| && |kids| <= max && Distinct(kids)
        invariant forall c :: c in kids <==> exists j | 0 <= j < i :: edges[j] == Edge(c, parent)
      {
        if edges[i].parent == parent {
          assert edges[i].child !in kids;
          if |kids| == max {
            TooMany(edges, i, parent, kids);
            return Ended, kids;
          }
          kids := kids + [edges[i].child];
        }
        i := i + 1;
      }
      r := Noted;
      AllListed(edges, parent, kids);
    }
  }

  // ---- the write decision ----

  /** What the native probe of the page says. */
  datatype Probe = ProbeFailed | NotMapped | Denied | ReadOnly | Writable

  datatype Verdict = Failed | Fault | AccessDenied | Free | BreakFirst | MonitorEnds

  const FORK_REL_MAX: nat := 256

  /** The loop of ctx_write_prep(): how many of the copies still owe the page. */
  method Owed(pages: BrokenPages, kids: seq<Mm>, page: nat) returns (owed: nat)
    requires pages.Valid() && page == PageOf(page)
    ensures owed <= |kids| && (owed == 0 <==> forall c | c in kids :: (c, page) in pages.Broken())
  {
    owed := 0;
    for i := 0 to |kids|
      invariant owed <= i && (owed == 0 <==> forall j | 0 <= j < i :: (kids[j], page) in pages.Broken())
    {
      var broken := pages.IsBroken(kids[i], page);
      if !broken {
        owed := owed + 1;
      }
    }
  }

  /** ctx_write_prep(): may this MM write the page now? */
  method WritePrep(lineage: Lineage, pages: BrokenPages, mm: Mm, address: nat, probe: Probe) returns (r: Verdict)
    requires lineage.Valid() && pages.Valid()
    ensures r == MonitorEnds <==> |ChildrenOf(lineage.View(), mm)| > FORK_REL_MAX
    ensures r == Free || r == BreakFirst <==> r != MonitorEnds && probe == Writable
    ensures r == Free ==> AllGiven(lineage.View(), pages.Broken(), mm, PageOf(address))
    ensures r == BreakFirst ==> !AllGiven(lineage.View(), pages.Broken(), mm, PageOf(address))
    ensures r == Failed <==> r != MonitorEnds && probe == ProbeFailed
    ensures r == Fault <==> r != MonitorEnds && probe == NotMapped
    ensures r == AccessDenied <==> r != MonitorEnds && probe in {Denied, ReadOnly}
  {
    var listed, kids := lineage.Children(mm, FORK_REL_MAX);
    if listed == Ended {
      return MonitorEnds;
    }
    match probe {
      case ProbeFailed => return Failed;
      case NotMapped => return Fault;
      case Denied => return AccessDenied;
      case ReadOnly => return AccessDenied;
      case Writable =>
    }
    var owed := Owed(pages, kids, PageOf(address));
    assert forall c :: c in kids <==> c in ChildrenOf(lineage.View(), mm) by {
      assert forall c :: c in kids <==> c in Elements(kids);
    }
    r := if owed == 0 then Free else BreakFirst;
  }

  /** Every direct child is recorded as having its own copy of the page. */
  ghost predicate AllGiven(parents: map<Mm, Mm>, broken: set<(Mm, nat)>, mm: Mm, page: nat) {
    forall c | c in parents && parents[c] == mm :: (c, page) in broken
  }

  // ---- what it means: lazy fork refines eager copy ----

  /** A page's bytes by offset; an untouched page is all zero. */
  type Bytes = map<nat, int>

  /**
   * `copies` are the pages that really exist, `broken` the breaks the source has recorded,
   * `eager` the memories an eager copy at every fork would give.
   */
  datatype State = State(
    parents: map<Mm, Mm>, copies: map<(Mm, nat), Bytes>, broken: set<(Mm, nat)>,
    ended: set<Mm>, eager: map<Mm, map<nat, Bytes>>)

  datatype Step =
    | NewRoot(mm: Mm)
    | Fork(child: Mm, parent: Mm)
    | GiveCopy(mm: Mm, page: nat)
    | RecordBreak(mm: Mm, page: nat)
    | Write(mm: Mm, page: nat, offset: nat, value: int)
    | End(mm: Mm)

  ghost predicate Tree(parents: map<Mm, Mm>) {
    forall c | c in parents :: parents[c] < c
  }

  /** A page read through the nearest ancestor that has a copy. */
  ghost function Resolve(parents: map<Mm, Mm>, copies: map<(Mm, nat), Bytes>, mm: Mm, page: nat): Bytes
    requires Tree(parents)
    decreases mm
  {
    if (mm, page) in copies then copies[(mm, page)]
    else if mm in parents then Resolve(parents, copies, parents[mm], page)
    else map[]
  }

  ghost function EagerPage(eager: map<Mm, map<nat, Bytes>>, mm: Mm, page: nat): Bytes
    requires mm in eager
  {
    if page in eager[mm] then eager[mm][page] else map[]
  }

  ghost predicate Live(s: State, mm: Mm) {
    mm in s.eager && mm !in s.ended
  }

  ghost predicate Enabled(s: State, step: Step) {
    match step
    case NewRoot(mm) => mm !in s.eager
    case Fork(child, parent) => Live(s, parent) && child !in s.eager && parent < child
    case GiveCopy(mm, page) => mm in s.eager && (mm, page) !in s.copies
    case RecordBreak(mm, page) => (mm, page) in s.copies
    case Write(mm, page, _, _) => Live(s, mm) && AllGiven(s.parents, s.copies.Keys, mm, page)
    case End(mm) => Live(s, mm)
  }

  ghost function Written(s: State, mm: Mm, page: nat, offset: nat, value: int): State
    requires Tree(s.parents) && mm in s.eager
  {
    var memory: map<nat, Bytes> := s.eager[mm];
    var memory': map<nat, Bytes> := memory[page := EagerPage(s.eager, mm, page)[offset := value]];
    s.(copies := s.copies[(mm, page) := Resolve(s.parents, s.copies, mm, page)[offset := value]],
       eager := s.eager[mm := memory'])
  }

  ghost function Apply(s: State, step: Step): State
    requires Tree(s.parents) && Enabled(s, step)
  {
    match step
    case NewRoot(mm) => s.(eager := s.eager[mm := map[]])
    case Fork(child, parent) =>
      s.(parents := s.parents[child := parent], eager := s.eager[child := s.eager[parent]])
    case GiveCopy(mm, page) =>
      s.(copies := s.copies[(mm, page) := Resolve(s.parents, s.copies, mm, page)])
    case RecordBreak(mm, page) => s.(broken := s.broken + {(mm, page)})
    case Write(mm, page, offset, value) => Written(s, mm, page, offset, value)
    case End(mm) => s.(ended := s.ended + {mm})
  }

  /** Every MM, live or ended, reads exactly what an eager copy would have given it. */
  ghost predicate Refines(s: State)
    requires Tree(s.parents)
  {
    forall mm: Mm, page: nat | mm in s.eager :: Resolve(s.parents, s.copies, mm, page) == EagerPage(s.eager, mm, page)
  }

  ghost predicate WellFormed(s: State) {
    && Tree(s.parents)
    && (forall c | c in s.parents :: c in s.eager && s.parents[c] in s.eager)
    && (forall k | k in s.copies :: k.0 in s.eager)
    && s.broken <= s.copies.Keys
  }

  ghost predicate Inv(s: State) {
    WellFormed(s) && Refines(s)
  }

  /** A copy given to `mm` changes nothing for anyone who does not read through it. */
  lemma {:induction false} ResolveElsewhere(s: State, mm: Mm, page: nat, bytes: Bytes, x: Mm, p: nat)
    requires Tree(s.parents) && (x != mm || p != page)
    requires forall c | c in s.parents && s.parents[c] == mm :: (c, page) in s.copies
    ensures Resolve(s.parents, s.copies[(mm, page) := bytes], x, p) == Resolve(s.parents, s.copies, x, p)
    decreases x
  {
    if (x, p) !in s.copies && x in s.parents {
      ResolveElsewhere(s, mm, page, bytes, s.parents[x], p);
    }
  }

  /** Materialising what an MM already reads changes nothing for anyone. */
  lemma {:induction false} ResolveSameBytes(s: State, mm: Mm, page: nat, x: Mm, p: nat)
    requires Tree(s.parents)
    ensures Resolve(s.parents, s.copies[(mm, page) := Resolve(s.parents, s.copies, mm, page)], x, p)
            == Resolve(s.parents, s.copies, x, p)
    decreases x
  {
    if (x, p) !in s.copies && x in s.parents && (x, p) != (mm, page) {
      ResolveSameBytes(s, mm, page, s.parents[x], p);
    }
  }

  /** A new child reads its parent's pages; everyone else reads what they read before. */
  lemma {:induction false} ResolveAfterFork(s: State, child: Mm, parent: Mm, x: Mm, p: nat)
    requires WellFormed(s) && child !in s.eager && parent < child && x in s.eager
    ensures Tree(s.parents[child := parent])
    ensures Resolve(s.parents[child := parent], s.copies, x, p) == Resolve(s.parents, s.copies, x, p)
    decreases x
  {
    if (x, p) !in s.copies && x in s.parents {
      ResolveAfterFork(s, child, parent, s.parents[x], p);
    }
  }

  lemma WriteRefines(s: State, mm: Mm, page: nat, offset: nat, value: int)
    requires Inv(s) && mm in s.eager
    requires forall c | c in s.parents && s.parents[c] == mm :: (c, page) in s.copies
    ensures Inv(Written(s, mm, page, offset, value))
  {
    var s' := Written(s, mm, page, offset, value);
    forall x: Mm, p: nat | x in s'.eager
      ensures Resolve(s'.parents, s'.copies, x, p) == EagerPage(s'.eager, x, p)
    {
      if x != mm || p != page {
        ResolveElsewhere(s, mm, page, s'.copies[(mm, page)], x, p);
      }
    }
  }

  lemma StepInv(s: State, step: Step)
    requires Inv(s) && Enabled(s, step)
    ensures Inv(Apply(s, step))
  {
    var s' := Apply(s, step);
    match step
    case Fork(child, parent) =>
      forall x: Mm, p: nat | x in s'.eager
        ensures Resolve(s'.parents, s'.copies, x, p) == EagerPage(s'.eager, x, p)
      {
        ResolveAfterFork(s, child, parent, if x == child then parent else x, p);
        assert (child, p) !in s.copies;
      }
    case GiveCopy(mm, page) =>
      forall x: Mm, p: nat | x in s'.eager
        ensures Resolve(s'.parents, s'.copies, x, p) == EagerPage(s'.eager, x, p)
      {
        ResolveSameBytes(s, mm, page, x, p);
      }
    case Write(mm, page, offset, value) =>
      WriteRefines(s, mm, page, offset, value);
    case NewRoot(mm) =>
      assert forall p: nat :: Resolve(s'.parents, s'.copies, mm, p) == map[];
    case _ =>
  }

  ghost predicate IsRun(s: State, steps: seq<Step>)
    requires Tree(s.parents)
    decreases |steps|
  {
    steps == [] || (Enabled(s, steps[0]) && Tree(Apply(s, steps[0]).parents) && IsRun(Apply(s, steps[0]), steps[1..]))
  }

  ghost function After(s: State, steps: seq<Step>): State
    requires Tree(s.parents) && IsRun(s, steps)
    decreases |steps|
  {
    if steps == [] then s else After(Apply(s, steps[0]), steps[1..])
  }

  // ---- what each step does to what an MM reads ----

  /** What x reads at page p after one step, told by what was read before it. */
  ghost function ReadAfter(s: State, step: Step, x: Mm, p: nat): Bytes
    requires Tree(s.parents)
  {
    if step.Fork? && x == step.child then Resolve(s.parents, s.copies, step.parent, p)
    else if step.NewRoot? && x == step.mm then map[]
    else if step.Write? && x == step.mm && p == step.page then Resolve(s.parents, s.copies, x, p)[step.offset := step.value]
    else Resolve(s.parents, s.copies, x, p)
  }

  /**
   * A forked child reads, on every page, what its parent read before the fork; a new root reads
   * empty pages; a write changes one byte for its writer; nothing else changes what anyone reads.
   */
  lemma StepReads(s: State, step: Step, x: Mm, p: nat)
    requires Inv(s) && Enabled(s, step) && x in Apply(s, step).eager
    ensures Tree(Apply(s, step).parents)
    ensures Resolve(Apply(s, step).parents, Apply(s, step).copies, x, p) == ReadAfter(s, step, x, p)
  {
    StepInv(s, step);
    match step
    case Fork(child, parent) =>
      ResolveAfterFork(s, child, parent, if x == child then parent else x, p);
      assert (child, p) !in s.copies;
    case GiveCopy(mm, page) => ResolveSameBytes(s, mm, page, x, p);
    case Write(mm, page, offset, value) => WriteIsPrivate(s, mm, page, offset, value);
    case _ =>
  }

  /** Lineage, MMs, recorded breaks and ends grow by exactly the step that adds to them. */
  lemma StepRecords(s: State, step: Step)
    requires Tree(s.parents) && Enabled(s, step)
    ensures Apply(s, step).parents == if step.Fork? then s.parents[step.child := step.parent] else s.parents
    ensures Apply(s, step).eager.Keys
            == s.eager.Keys + if step.Fork? then {step.child} else if step.NewRoot? then {step.mm} else {}
    ensures Apply(s, step).broken == s.broken + if step.RecordBreak? then {(step.mm, step.page)} else {}
    ensures Apply(s, step).ended == s.ended + if step.End? then {step.mm} else {}
  {
  }

  /** The step may change what x reads at page p. */
  predicate Touches(step: Step, x: Mm, p: nat) {
    step.Write? && step.mm == x && step.page == p
  }

  /** Isolation: over any run, only an MM's own writes to a page change what it reads there. */
  lemma {:induction false} OnlyOwnWritesChange(s: State, steps: seq<Step>, x: Mm, p: nat)
    requires Inv(s) && IsRun(s, steps) && x in s.eager
    requires forall i | 0 <= i < |steps| :: !Touches(steps[i], x, p)
    ensures Tree(After(s, steps).parents) && x in After(s, steps).eager
    ensures Resolve(After(s, steps).parents, After(s, steps).copies, x, p) == Resolve(s.parents, s.copies, x, p)
    decreases |steps|
  {
    if steps != [] {
      var s1 := Apply(s, steps[0]);
      StepInv(s, steps[0]);
      assert !Touches(steps[0], x, p);
      assert x in s1.eager;
      StepReads(s, steps[0], x, p);
      forall i | 0 <= i < |steps[1..]|
        ensures !Touches(steps[1..][i], x, p)
      {
        assert steps[1..][i] == steps[i + 1];
      }
      OnlyOwnWritesChange(s1, steps[1..], x, p);
    }
  }

  /**
   * The fork snapshot over runs: whatever happens after the fork, and however late the page is
   * copied, a child that has not written a page reads there what its parent read at the fork.
   */
  lemma ForkSnapshotHolds(s: State, child: Mm, parent: Mm, steps: seq<Step>, p: nat)
    requires Inv(s) && Enabled(s, Fork(child, parent)) && IsRun(Apply(s, Fork(child, parent)), steps)
    requires forall i | 0 <= i < |steps| :: !Touches(steps[i], child, p)
    ensures var e := After(Apply(s, Fork(child, parent)), steps);
            Tree(e.parents) && Resolve(e.parents, e.copies, child, p) == Resolve(s.parents, s.copies, parent, p)
  {
    StepInv(s, Fork(child, parent));
    StepReads(s, Fork(child, parent), child, p);
    OnlyOwnWritesChange(Apply(s, Fork(child, parent)), steps, child, p);
  }

  /** Over every run of forks, breaks, writes and ends, lazy fork equals eager copy. */
  lemma {:induction false} LazyForkRefinesEager(s: State, steps: seq<Step>)
    requires Inv(s) && IsRun(s, steps)
    ensures Inv(After(s, steps))
    decreases |steps|
  {
    if steps != [] {
      StepInv(s, steps[0]);
      LazyForkRefinesEager(Apply(s, steps[0]), steps[1..]);
    }
  }

  /** In particular from the empty machine. */
  lemma LazyForkFromStart(steps: seq<Step>)
    requires IsRun(State(map[], map[], {}, {}, map[]), steps)
    ensures Inv(After(State(map[], map[], {}, {}, map[]), steps))
  {
    LazyForkRefinesEager(State(map[], map[], {}, {}, map[]), steps);
  }

  /**
   * The condition is exact: a write keeps the refinement if and only if every direct child
   * has its copy of the page, or the write stores the byte that is already there.
   */
  lemma WriteSafeIffGiven(s: State, mm: Mm, page: nat, offset: nat, value: int)
    requires Inv(s) && mm in s.eager
    ensures Inv(Written(s, mm, page, offset, value))
            <==> (forall c | c in s.parents && s.parents[c] == mm :: (c, page) in s.copies)
                 || EagerPage(s.eager, mm, page)[offset := value] == EagerPage(s.eager, mm, page)
  {
    var s' := Written(s, mm, page, offset, value);
    if forall c | c in s.parents && s.parents[c] == mm :: (c, page) in s.copies {
      WriteRefines(s, mm, page, offset, value);
    } else if EagerPage(s.eager, mm, page)[offset := value] == EagerPage(s.eager, mm, page) {
      forall x: Mm, p: nat | x in s'.eager
        ensures Resolve(s'.parents, s'.copies, x, p) == EagerPage(s'.eager, x, p)
      {
        ResolveSameBytes(s, mm, page, x, p);
      }
    } else {
      var c :| c in s.parents && s.parents[c] == mm && (c, page) !in s.copies;
      assert Resolve(s'.parents, s'.copies, c, page) == s'.copies[(mm, page)];
      assert EagerPage(s'.eager, c, page) == EagerPage(s.eager, c, page) == Resolve(s.parents, s.copies, mm, page);
    }
  }

  /** The store is seen by the writer and by no other MM, live or ended, parent or child. */
  ghost predicate StoreSeenOnlyBy(s: State, s': State, mm: Mm, page: nat, offset: nat, value: int)
    requires Tree(s.parents) && Tree(s'.parents)
  {
    forall x: Mm, p: nat | x in s.eager ::
      Resolve(s'.parents, s'.copies, x, p)
      == if (x, p) == (mm, page) then Resolve(s.parents, s.copies, x, p)[offset := value]
         else Resolve(s.parents, s.copies, x, p)
  }

  lemma WriteIsPrivate(s: State, mm: Mm, page: nat, offset: nat, value: int)
    requires Inv(s) && Enabled(s, Write(mm, page, offset, value))
    ensures StoreSeenOnlyBy(s, Written(s, mm, page, offset, value), mm, page, offset, value)
  {
    forall x: Mm, p: nat | (x, p) != (mm, page)
      ensures Resolve(s.parents, Written(s, mm, page, offset, value).copies, x, p) == Resolve(s.parents, s.copies, x, p)
    {
      ResolveElsewhere(s, mm, page, Resolve(s.parents, s.copies, mm, page)[offset := value], x, p);
    }
  }

  /**
   * A FREE answer rests on recorded breaks only. That is licence enough: the store keeps the
   * refinement, the writer sees it, and nobody else's memory changes.
   */
  lemma FreeAnswerAdmitsWrite(s: State, mm: Mm, page: nat, offset: nat, value: int)
    requires Inv(s) && Live(s, mm) && AllGiven(s.parents, s.broken, mm, page)
    ensures IsRun(s, [Write(mm, page, offset, value)])
    ensures var s' := After(s, [Write(mm, page, offset, value)]);
            Inv(s') && StoreSeenOnlyBy(s, s', mm, page, offset, value)
  {
    var w := Write(mm, page, offset, value);
    StepInv(s, w);
    WriteIsPrivate(s, mm, page, offset, value);
    assert [w][1..] == [];
  }

  /** cow_break_copies(): every child that has no copy of the page is given one. */
  ghost function Breaks(copies: map<(Mm, nat), Bytes>, kids: seq<Mm>, page: nat): seq<Step> {
    if kids == [] then []
    else if (kids[0], page) in copies then Breaks(copies, kids[1..], page)
    else [GiveCopy(kids[0], page)] + Breaks(copies, kids[1..], page)
  }

  /** What breaking changes: who has a copy of the page, and nothing that anyone reads. */
  ghost predicate Broke(s: State, s': State, kids: seq<Mm>, page: nat)
    requires Tree(s.parents) && Tree(s'.parents)
  {
    && s' == s.(copies := s'.copies) && s.copies.Keys <= s'.copies.Keys
    && (forall c | c in kids :: (c, page) in s'.copies)
    && (forall x: Mm, p: nat :: Resolve(s'.parents, s'.copies, x, p) == Resolve(s.parents, s.copies, x, p))
  }

  /** Copies given to some children do not affect which others still need one. */
  lemma {:induction false} BreaksElsewhere(copies: map<(Mm, nat), Bytes>, kids: seq<Mm>, page: nat, c: Mm, bytes: Bytes)
    requires c !in kids
    ensures Breaks(copies[(c, page) := bytes], kids, page) == Breaks(copies, kids, page)
  {
    if kids != [] {
      BreaksElsewhere(copies, kids[1..], page, c, bytes);
    }
  }

  lemma GiveOne(s: State, c: Mm, page: nat)
    requires Inv(s) && c in s.eager && (c, page) !in s.copies
    ensures Inv(Apply(s, GiveCopy(c, page))) && Broke(s, Apply(s, GiveCopy(c, page)), [c], page)
  {
    StepInv(s, GiveCopy(c, page));
    forall x: Mm, p: nat {
      ResolveSameBytes(s, c, page, x, p);
    }
  }

  lemma {:induction false} BreaksRun(s: State, kids: seq<Mm>, page: nat)
    requires Inv(s) && Distinct(kids) && forall c | c in kids :: c in s.eager
    ensures IsRun(s, Breaks(s.copies, kids, page))
    ensures var s' := After(s, Breaks(s.copies, kids, page)); Inv(s') && Broke(s, s', kids, page)
    decreases |kids|
  {
    if kids != [] {
      var c, rest := kids[0], kids[1..];
      assert c !in rest;
      if (c, page) in s.copies {
        BreaksRun(s, rest, page);
      } else {
        var step := GiveCopy(c, page);
        var s1 := Apply(s, step);
        GiveOne(s, c, page);
        BreaksElsewhere(s.copies, rest, page, c, s1.copies[(c, page)]);
        BreaksRun(s1, rest, page);
        assert Breaks(s.copies, kids, page)[1..] == Breaks(s1.copies, rest, page);
      }
    }
  }

  lemma {:induction false} Snoc(s: State, steps: seq<Step>, last: Step)
    requires Tree(s.parents) && IsRun(s, steps) && Inv(After(s, steps)) && Enabled(After(s, steps), last)
    ensures IsRun(s, steps + [last]) && After(s, steps + [last]) == Apply(After(s, steps), last)
    decreases |steps|
  {
    if steps == [] {
      StepInv(s, last);
      assert (steps + [last])[1..] == [];
    } else {
      Snoc(Apply(s, steps[0]), steps[1..], last);
      assert (steps + [last])[1..] == steps[1..] + [last];
    }
  }

  /**
   * A COWBREAK answer, followed by the breaks it asks for, ends in the same licence, although
   * the source has recorded none of those breaks.
   */
  lemma BreaksAdmitWrite(s: State, kids: seq<Mm>, mm: Mm, page: nat, offset: nat, value: int)
    requires Inv(s) && Live(s, mm) && Distinct(kids) && Elements(kids) == ChildrenOf(s.parents, mm)
    ensures var steps := Breaks(s.copies, kids, page) + [Write(mm, page, offset, value)];
            IsRun(s, steps) && Inv(After(s, steps)) && StoreSeenOnlyBy(s, After(s, steps), mm, page, offset, value)
  {
    forall c | c in kids
      ensures c in s.eager
    {
      assert c in Elements(kids);
    }
    BreaksRun(s, kids, page);
    var s1 := After(s, Breaks(s.copies, kids, page));
    forall c | c in s1.parents && s1.parents[c] == mm
      ensures (c, page) in s1.copies.Keys
    {
      assert c in Elements(kids);
    }
    var w := Write(mm, page, offset, value);
    Snoc(s, Breaks(s.copies, kids, page), w);
    StepInv(s1, w);
    WriteIsPrivate(s1, mm, page, offset, value);
  }

  /**
   * A store that needs write preparation, from the source's verdict to the executor's grant.
   * Both answers that let it go on lead, by steps of the machine, to a store that only the
   * writer sees; no other answer changes anything.
   */
  method PrepareStore(
    lineage: Lineage, pages: BrokenPages, ghost s: State, mm: Mm, address: nat, probe: Probe, ghost offset: nat, ghost value: int)
    returns (r: Verdict, ghost steps: seq<Step>)
    requires lineage.Valid() && pages.Valid() && Inv(s) && Live(s, mm)
    requires lineage.View() == s.parents && pages.Broken() == s.broken
    ensures r == Free || r == BreakFirst <==> |ChildrenOf(s.parents, mm)| <= FORK_REL_MAX && probe == Writable
    ensures r == Free ==> steps == [Write(mm, PageOf(address), offset, value)]
    ensures r != Free && r != BreakFirst ==> steps == []
    ensures IsRun(s, steps) && Inv(After(s, steps))
    ensures r == Free || r == BreakFirst ==> StoreSeenOnlyBy(s, After(s, steps), mm, PageOf(address), offset, value)
  {
    steps := [];
    r := WritePrep(lineage, pages, mm, address, probe);
    if r == Free {
      FreeAnswerAdmitsWrite(s, mm, PageOf(address), offset, value);
      steps := [Write(mm, PageOf(address), offset, value)];
    } else if r == BreakFirst {
      var _, kids := lineage.Children(mm, FORK_REL_MAX);
      BreaksAdmitWrite(s, kids, mm, PageOf(address), offset, value);
      steps := Breaks(s.copies, kids, PageOf(address)) + [Write(mm, PageOf(address), offset, value)];
    }
  }

  // ---- the read decision ----

  /** The record, the mapping and presence of a page at the source, in one probe. */
  datatype ShareProbe = ShareProbeFailed | Seen(recorded: bool, sharedMapping: bool, present: bool)

  datatype Sharing = NotShared | StillShared | ShareUnknown

  /** cow_still_shared(): must the requester break copy-on-write where the page already is? */
  method CowStillShared(lineage: Lineage, mm: Mm, nocow: bool, probe: ShareProbe) returns (r: Sharing)
    requires lineage.Valid()
    ensures r == ShareUnknown <==> !nocow && mm in lineage.View() && probe == ShareProbeFailed
    ensures r == StillShared <==> !nocow && mm in lineage.View() && probe == Seen(false, false, false)
  {
    if nocow {
      return NotShared;
    }
    var parent := lineage.ParentOf(mm);
    if parent == 0 {
      return NotShared;
    }
    if probe.ShareProbeFailed? {
      return ShareUnknown;
    }
    r := if probe.recorded || probe.sharedMapping || probe.present then NotShared else StillShared;
  }

  /** The requester asks only for a page it does not hold, so a copy it has is recorded or present here. */
  ghost predicate Reports(s: State, mm: Mm, page: nat, probe: ShareProbe) {
    (mm, page) in s.copies && probe.Seen? ==> probe.recorded || probe.present
  }

  /**
   * A COWBREAK answer to a read names a page the MM has no copy of, so it reads its parent's;
   * the copy then made is what an eager fork would have given it, and changes nobody's memory.
   */
  lemma CowBreakGivesForkSnapshot(s: State, mm: Mm, page: nat)
    requires Inv(s) && mm in s.parents && Reports(s, mm, page, Seen(false, false, false))
    ensures (mm, page) !in s.copies
    ensures Resolve(s.parents, s.copies, mm, page) == Resolve(s.parents, s.copies, s.parents[mm], page)
    ensures Enabled(s, GiveCopy(mm, page))
    ensures var s' := Apply(s, GiveCopy(mm, page));
            Inv(s') && s'.copies[(mm, page)] == EagerPage(s.eager, mm, page) && Broke(s, s', [mm], page)
  {
    GiveOne(s, mm, page);
  }
}
