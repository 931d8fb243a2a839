/**
 * Which address space an executor context runs: execution-target.h over the binding guard of
 * execution-mm.h. Source observations are recorded in an immutable history; a publication
 * replaces the native binding; a control reaches the native adapter only through the target
 * that is bound now.
 */
module ExecutionTarget {
  import opened Basics
  import opened MemoryIdentity

  /** An executor MM record: one per identity, with its source-declared parent (0 for none). */
  datatype Mm = Mm(identity: nat, parent: nat)

  /** What a target saw of the native binding; epoch 0 is an observation that was never bound. */
  datatype View = View(mm: Mm, epoch: nat)

  datatype Target = Target(source: Binding, view: View)

  predicate MatchesMm(source: Binding, mm: Mm) {
    ValidBinding(source) && source.mm == mm.identity && source.parentMm == mm.parent
  }

  /** The adapter's answer to "replace the binding of this epoch". */
  datatype Adapter = Declined | Uncertain | Committed(epoch: nat)

  /** The adapter confirms the successor epoch of the binding. */
  predicate Commits(native: View, adapter: Adapter) {
    native.epoch != U64_MAX && adapter.Committed? && adapter.epoch == native.epoch + 1
  }

  /** Ended: the monitor stops rather than use an uncertain binding. */
  datatype Result = Found(target: Target) | Refused | Ended

  /** One source epoch names one binding and one MM. */
  ghost predicate OneBindingPerEpoch(history: seq<Target>) {
    forall i, j | 0 <= i < j < |history| && history[i].source.epoch == history[j].source.epoch ::
      history[i].source == history[j].source && history[i].view.mm == history[j].view.mm
  }

  /** Bindings in the order they were installed: source epochs rise, native epochs by exactly one. */
  ghost predicate InstallOrder(installs: seq<Target>) {
    && |installs| > 0
    && (forall i | 0 <= i < |installs| :: installs[i].view.epoch == installs[0].view.epoch + i)
    && (forall i, j | 0 <= i < j < |installs| :: installs[i].source.epoch < installs[j].source.epoch)
  }

  class Context {
    var native: View
    var current: Target
    var history: seq<Target>
    ghost var installs: seq<Target>

    ghost predicate Valid()
      reads this
    {
      && InstallOrder(installs) && 0 < installs[0].view.epoch
      && current == installs[|installs| - 1] && native == current.view
      && OneBindingPerEpoch(history)
      && (forall i | 0 <= i < |installs| :: installs[i] in history)
      && (forall t | t in history ::
            MatchesMm(t.source, t.view.mm) && t.source.context == current.source.context
            && (t.view.epoch != 0 ==> t in installs))
    }

    constructor (mm: Mm, source: Binding, epoch: nat)
      requires MatchesMm(source, mm) && 0 < epoch
      ensures Valid() && current == Target(source, View(mm, epoch)) && installs == [current] && history == [current]
    {
      native := View(mm, epoch);
      current := Target(source, View(mm, epoch));
      history := [Target(source, View(mm, epoch))];
      installs := [Target(source, View(mm, epoch))];
    }

    /** execution_target_find_locked(). */
    method Find(epoch: nat) returns (found: bool, t: Target)
      requires Valid()
      ensures found ==> t in history && t.source.epoch == epoch
      ensures !found ==> forall u | u in history :: u.source.epoch != epoch
    {
      t := current;
      var i := 0;
      while i < |history|
        invariant 0 <= i <= |history|
        invariant forall j | 0 <= j < i :: history[j].source.epoch != epoch
      {
        if history[i].source.epoch == epoch {
          return true, history[i];
        }
        i := i + 1;
      }
      found := false;
    }

    /** Record an observed binding of an epoch the history does not know. */
    method Remember(mm: Mm, source: Binding) returns (t: Target)
      requires Valid() && MatchesMm(source, mm) && source.context == current.source.context
      requires forall u | u in history :: u.source.epoch != source.epoch
      modifies this`history
      ensures Valid() && t == Target(source, View(mm, 0)) && history == [t] + old(history)
    {
      t := Target(source, View(mm, 0));
      history := [t] + history;
    }

    /** execution_target_observe(): never changes the native binding. */
    method Observe(mm: Mm, source: Binding, spare: bool) returns (r: Result)
      requires Valid()
      modifies this`history
      ensures Valid() && !r.Ended?
      ensures r.Found? ==> r.target in history && r.target.source == source && r.target.view.mm == mm
      ensures history == old(history) || (r.Found? && history == [r.target] + old(history))
      ensures spare ==> (r.Found? <==> Consistent(old(history), current, mm, source))
    {
      if !MatchesMm(source, mm) {
        return Refused;
      }
      var found, t := Find(source.epoch);
      if source.context != current.source.context || (found && (t.source != source || t.view.mm != mm)) {
        return Refused;
      }
      if !found {
        if !spare {
          return Refused;
        }
        t := Remember(mm, source);
      }
      r := Found(t);
    }

    /**
     * execution_target_publish(): a newer source binding replaces the native one; an older or
     * equal one only resolves to its own target.
     */
    method Publish(mm: Mm, source: Binding, spare: bool, adapter: Adapter) returns (r: Result)
      requires Valid()
      modifies this
      ensures Valid()
      ensures r.Found? ==> r.target in history && r.target.source == source && r.target.view.mm == mm
      ensures r.Found? ==> (source.epoch > old(current).source.epoch <==> installs == old(installs) + [r.target])
      ensures installs == old(installs) || (r.Found? && installs == old(installs) + [r.target] && current == r.target)
      ensures installs == old(installs) <==> native == old(native)
      ensures history == old(history) || (r.Found? && history == [r.target] + old(history))
      ensures r.Found? ==> Consistent(old(history), old(current), mm, source)
      ensures spare && Consistent(old(history), old(current), mm, source) && source.epoch <= old(current).source.epoch
              ==> r.Found?
      ensures spare && Consistent(old(history), old(current), mm, source) && source.epoch > old(current).source.epoch
              ==> (r.Found? <==> source.mm != old(current).source.mm && Commits(old(native), adapter))
    {
      if !MatchesMm(source, mm) {
        return Refused;
      }
      var found, t := Find(source.epoch);
      if source.context != current.source.context || (found && (t.source != source || t.view.mm != mm)) {
        return Refused;
      }
      if source.epoch <= current.source.epoch {
        if !found {
          if !spare {
            return Refused;
          }
          t := Remember(mm, source);
        }
        return Found(t);
      }
      if source.mm == current.source.mm || !spare {
        return Refused;
      }
      r := Replace(mm, source, adapter);
    }

    /** execution_binding_replace() and the publication that follows a commit. */
    method Replace(mm: Mm, source: Binding, adapter: Adapter) returns (r: Result)
      requires Valid() && MatchesMm(source, mm) && source.context == current.source.context
      requires source.epoch > current.source.epoch && source.mm != current.source.mm
      requires forall u | u in history && u.source.epoch == source.epoch :: u.source == source && u.view.mm == mm
      modifies this
      ensures Valid()
      ensures r.Found? <==> Commits(old(native), adapter)
      ensures r.Ended? <==> old(native).epoch != U64_MAX && !adapter.Declined? && !Commits(old(native), adapter)
      ensures r.Found? ==> current == r.target == Target(source, View(mm, old(native).epoch + 1))
      ensures r.Found? ==> installs == old(installs) + [r.target] && history == [r.target] + old(history)
      ensures !r.Found? ==> native == old(native) && installs == old(installs) && history == old(history) && current == old(current)
    {
      if native.epoch == U64_MAX || adapter.Declined? {
        return Refused;
      }
      if adapter.Uncertain? || adapter.epoch != native.epoch + 1 {
        return Ended;
      }
      var t := Target(source, View(mm, adapter.epoch));
      native := t.view;
      current := t;
      history := [t] + history;
      installs := installs + [t];
      r := Found(t);
    }

    /** execution_target_control(): does the control reach the native adapter? */
    method Control(t: Target) returns (reached: bool)
      requires Valid() && t in history
      ensures reached <==> t == current
      ensures reached ==> t.view == native
    {
      if t.view.epoch == 0 {
        return false;
      }
      reached := native == t.view;
      if reached {
        ghost var i :| 0 <= i < |installs| && installs[i] == t;
        assert installs[i].view.epoch == installs[|installs| - 1].view.epoch;
      }
    }
  }

  /** The binding is well formed, of this context, and does not contradict the history. */
  ghost predicate Consistent(history: seq<Target>, current: Target, mm: Mm, source: Binding) {
    && MatchesMm(source, mm) && source.context == current.source.context
    && forall t | t in history && t.source.epoch == source.epoch :: t.source == source && t.view.mm == mm
  }

  // ---- whole runs ----

  datatype Request =
    | DoObserve(mm: Mm, source: Binding, spare: bool)
    | DoPublish(mm: Mm, source: Binding, spare: bool, adapter: Adapter)
    | DoControl(target: Target)

  /** The targets the context has seen, other than the one bound: superseded, or only observed. */
  ghost function Past(c: Context): set<Target>
    reads c
  {
    set t | t in c.history && t != c.current
  }

  /** Epochs only rise, so the last of a longer install order is new or was last before. */
  lemma NeverCurrentAgain(before: seq<Target>, after: seq<Target>, t: Target)
    requires InstallOrder(before) && InstallOrder(after) && before <= after && 0 < before[0].view.epoch
    requires t != before[|before| - 1] && (t.view.epoch != 0 ==> t in before)
    ensures t != after[|after| - 1]
  {
    assert before[0] == after[0];
    if t in before {
      var i :| 0 <= i < |before| && before[i] == t;
      assert after[i] == t && after[|after| - 1].view.epoch == after[0].view.epoch + |after| - 1;
    }
  }

  lemma PastStaysPast(history: seq<Target>, before: seq<Target>, history': seq<Target>, after: seq<Target>)
    requires InstallOrder(before) && InstallOrder(after) && before <= after && 0 < before[0].view.epoch
    requires forall t | t in history :: t.view.epoch != 0 ==> t in before
    requires forall t | t in history :: t in history'
    ensures forall t | t in history && t != before[|before| - 1] :: t in history' && t != after[|after| - 1]
  {
    forall t | t in history && t != before[|before| - 1]
      ensures t != after[|after| - 1]
    {
      NeverCurrentAgain(before, after, t);
    }
  }

  /** One request by any caller. */
  method Perform(c: Context, q: Request) returns (reached: bool)
    requires c.Valid()
    modifies c
    ensures c.Valid() && old(c.installs) <= c.installs && old(Past(c)) <= Past(c)
    ensures reached <==> q.DoControl? && q.target in old(c.history) && q.target == old(c.current)
    ensures reached ==> q.target.view == c.native && c.current == old(c.current)
  {
    reached := false;
    ghost var history, installs := c.history, c.installs;
    match q {
      case DoObserve(mm, source, spare) => var _ := c.Observe(mm, source, spare);
      case DoPublish(mm, source, spare, adapter) => var _ := c.Publish(mm, source, spare, adapter);
      case DoControl(t) =>
        if t in c.history {
          reached := c.Control(t);
        }
    }
    PastStaysPast(history, installs, c.history, c.installs);
  }

  /** No control through a target of `past` is among the first n that reached the adapter. */
  ghost predicate NoneReached(requests: seq<Request>, reached: seq<bool>, past: set<Target>)
    requires |reached| <= |requests|
  {
    forall i | 0 <= i < |reached| && requests[i].DoControl? && requests[i].target in past :: !reached[i]
  }

  lemma InstallEpochs(before: seq<Target>, after: seq<Target>)
    requires InstallOrder(before) && InstallOrder(after) && before <= after
    ensures after[|after| - 1].view.epoch == before[|before| - 1].view.epoch + |after| - |before|
    ensures |before| < |after| ==> before[|before| - 1].source.epoch < after[|after| - 1].source.epoch
  {
    assert before[0] == after[0] && before[|before| - 1] == after[|before| - 1];
  }

  /**
   * Over any sequence of observations, publications and controls: native epochs have risen by one
   * for each installation and source epochs strictly, and a control through a target that was
   * superseded or only observed never reaches the adapter, now or later.
   */
  method Run(c: Context, requests: seq<Request>) returns (reached: seq<bool>)
    requires c.Valid()
    modifies c
    ensures c.Valid() && |reached| == |requests|
    ensures old(c.installs) <= c.installs && c.native.epoch == old(c.native).epoch + |c.installs| - |old(c.installs)|
    ensures |c.installs| > |old(c.installs)| ==> old(c.current).source.epoch < c.current.source.epoch
    ensures old(Past(c)) <= Past(c) && NoneReached(requests, reached, old(Past(c)))
  {
    reached := [];
    ghost var past := Past(c);
    while |reached| < |requests|
      invariant |reached| <= |requests| && c.Valid() && old(c.installs) <= c.installs
      invariant past <= Past(c) && NoneReached(requests, reached, past)
    {
      var r := Perform(c, requests[|reached|]);
      reached := reached + [r];
    }
    InstallEpochs(old(c.installs), c.installs);
  }
}
