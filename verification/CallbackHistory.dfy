/**
 What every run of a callback list makes of its memory, of who is due, and of the numbers of its registrations.
 */
module CallbackHistory {
  import opened Wrappers
  import opened CallbackList
  import opened CallbackDelivery
  import opened CallbackRuns

  /** All data fired so far, that of the walk under way included. */
  function Fires<F(!new), D(!new)>(s: List<F, D>): seq<D> {
    FiredData(s.passes) + Under(s)
  }

  /** Registrations are numbered in the order they were made, and the list holds only such. */
  ghost predicate Numbered<F(!new), D(!new)>(s: List<F, D>) {
    && s.nextId == |s.pushed| && (forall i :: 0 <= i < |s.pushed| ==> s.pushed[i].id == i)
    && (s.entries.Some? ==> AllIn(s.entries.value, s.pushed))
    && (s.walk.Some? ==> AllIn(s.walk.value.due, s.pushed))
    && (forall k :: 0 <= k < |s.passes| ==> AllIn(s.passes[k].due, s.pushed))
  }

  ghost predicate AllIn<F(!new)>(es: seq<Entry<F>>, pushed: seq<Entry<F>>) {
    forall i :: 0 <= i < |es| ==> es[i].id < |pushed| && pushed[es[i].id] == es[i]
  }

  /** These are numbers of registrations of functions that somebody removed. */
  ghost predicate GoneFrom<F(!new)>(gone: set<nat>, pushed: seq<Entry<F>>, removed: set<F>) {
    forall x :: x in gone ==> x < |pushed| && pushed[x].fn in removed
  }

  ghost predicate GoneOk<F(!new), D(!new)>(s: List<F, D>, removed: set<F>) {
    && (forall k :: 0 <= k < |s.passes| ==> GoneFrom(s.passes[k].gone, s.pushed, removed))
    && (s.walk.Some? ==> GoneFrom(s.walk.value.gone, s.pushed, removed))
  }

  /** What a list remembers is what it fired last. */
  ghost predicate MemoryOk<F(!new), D(!new)>(s: List<F, D>) {
    s.entries.Some? ==>
      && (s.fired <==> Fires(s) != [])
      && s.memory == (if s.remembers && Fires(s) != [] then Some(Fires(s)[|Fires(s)| - 1]) else None)
      && (s.walk.Some? && s.walk.value.replay ==> s.memory == Some(s.walk.value.data))
  }

  ghost predicate InSomeDue<F(!new), D(!new)>(s: List<F, D>, e: Entry<F>) {
    DueIn(s.walk, s.passes, e)
  }

  ghost predicate DueIn<F(!new), D(!new)>(walk: Option<Pass<F, D>>, passes: seq<Pass<F, D>>, e: Entry<F>) {
    (walk.Some? && e in walk.value.due) || exists k :: 0 <= k < |passes| && e in passes[k].due
  }

  /** In a fire everybody listed is due; with a memory the first n have been, at one time or another. */
  ghost predicate DueOk<F(!new), D(!new)>(s: List<F, D>, n: nat) {
    s.entries.Some? ==>
      && (s.walk.Some? && !s.walk.value.replay ==>
            forall i :: 0 <= i < |s.entries.value| ==> s.entries.value[i] in s.walk.value.due)
      && (s.memory.Some? ==> forall i :: 0 <= i < n && i < |s.entries.value| ==> InSomeDue(s, s.entries.value[i]))
  }

  ghost predicate UniqueOk<F(!new), D(!new)>(s: List<F, D>) {
    s.unique && s.entries.Some? ==>
      forall i, j :: 0 <= i < j < |s.entries.value| ==> s.entries.value[i].fn != s.entries.value[j].fn
  }

  function Length<F, D>(s: List<F, D>): nat {
    if s.entries.Some? then |s.entries.value| else 0
  }

  ghost predicate FactsUpTo<F(!new), D(!new)>(s: List<F, D>, removed: set<F>, n: nat) {
    Numbered(s) && GoneOk(s, removed) && MemoryOk(s) && DueOk(s, n) && UniqueOk(s)
  }

  ghost predicate Facts<F(!new), D(!new)>(s: List<F, D>, removed: set<F>) {
    FactsUpTo(s, removed, Length(s))
  }

  // ---------- the steps of the loop ----------

  /** Queue, loop variables and the record of what was asked for play no part. */
  lemma FactsSame<F(!new), D(!new)>(s: List<F, D>, t: List<F, D>, removed: set<F>)
    requires Facts(s, removed)
    requires t == s.(queue := t.queue, index := t.index, length := t.length, asked := t.asked)
    ensures Facts(t, removed)
  {
  }

  lemma FactsTurn<F(!new), D(!new)>(s: List<F, D>, removed: set<F>, called: seq<Entry<F>>)
    requires Facts(s, removed) && s.walk.Some?
    ensures Facts(s.(walk := Some(s.walk.value.(called := called))), removed)
  {
  }

  lemma OverMemory<F(!new), D(!new)>(s: List<F, D>)
    requires s.walk.Some?
    ensures (var over := s.(walk := None, passes := s.passes + [s.walk.value]); Fires(over) == Fires(s))
  {
    FiredSnoc(s.passes, s.walk.value);
  }

  lemma OverDue<F(!new), D(!new)>(s: List<F, D>, e: Entry<F>)
    requires s.walk.Some? && InSomeDue(s, e)
    ensures InSomeDue(s.(walk := None, passes := s.passes + [s.walk.value]), e)
  {
    var passes := s.passes + [s.walk.value];
    assert passes[|s.passes|] == s.walk.value;
    if e !in s.walk.value.due {
      var k :| 0 <= k < |s.passes| && e in s.passes[k].due;
      assert passes[k] == s.passes[k];
    }
  }

  lemma GoneMore<F(!new), D(!new)>(s: List<F, D>, pushed: seq<Entry<F>>, removed: set<F>, more: set<F>)
    requires GoneOk(s, removed) && s.pushed <= pushed && removed <= more
    ensures GoneOk(s.(pushed := pushed), more)
  {
    hide GoneFrom;
    forall gone | GoneFrom(gone, s.pushed, removed) ensures GoneFrom(gone, pushed, more) {
      MoreFrom(gone, s.pushed, pushed, removed, more);
    }
  }

  lemma MoreFrom<F(!new)>(gone: set<nat>, some: seq<Entry<F>>, all: seq<Entry<F>>, removed: set<F>, more: set<F>)
    requires GoneFrom(gone, some, removed) && some <= all && removed <= more
    ensures GoneFrom(gone, all, more)
  {
  }

  lemma OverGone<F(!new), D(!new)>(s: List<F, D>, removed: set<F>)
    requires s.walk.Some? && GoneOk(s, removed)
    ensures GoneOk(s.(walk := None, passes := s.passes + [s.walk.value]), removed)
  {
  }

  lemma FactsOver<F(!new), D(!new)>(s: List<F, D>, removed: set<F>)
    requires Facts(s, removed) && s.walk.Some?
    ensures Facts(s.(walk := None, passes := s.passes + [s.walk.value]), removed)
  {
    hide Fires, GoneOk, InSomeDue;
    OverMemory(s);
    OverGone(s, removed);
    forall e | InSomeDue(s, e) ensures InSomeDue(s.(walk := None, passes := s.passes + [s.walk.value]), e) {
      OverDue(s, e);
    }
  }

  /** At rest the list may be emptied or disabled. */
  lemma FactsEmptied<F(!new), D(!new)>(s: List<F, D>, removed: set<F>)
    requires Facts(s, removed) && s.walk.None? && s.entries.Some?
    ensures Facts(s.(entries := Some([])), removed)
  {
  }

  lemma FactsDisabled<F(!new), D(!new)>(s: List<F, D>, removed: set<F>)
    requires Facts(s, removed)
    ensures Facts(DisableList(s), removed)
    ensures s.entries.None? ==> Facts(s.(walk := None), removed)
  {
  }

  /** A fire starts over the whole list; a replay over those behind the first that were due before. */
  lemma FactsBegin<F(!new), D(!new)>(s: List<F, D>, removed: set<F>, from: nat, l: D, replay: bool)
    requires s.entries.Some? && s.walk.None? && from <= |s.entries.value|
    requires FactsUpTo(s, removed, if replay then from else 0)
    requires if replay then s.memory == Some(l) else from == 0
    ensures Facts(Begin(s, from, l, replay), removed)
  {
    hide FiredData, InSomeDue;
    var r := Begin(s, from, l, replay);
    assert FiredData(s.passes) + [] == FiredData(s.passes);
    forall i | 0 <= i < |s.entries.value| && r.memory.Some? ensures InSomeDue(r, s.entries.value[i]) {
      BeginDue(s, from, l, replay, i);
    }
  }

  lemma BeginDue<F(!new), D(!new)>(s: List<F, D>, from: nat, l: D, replay: bool, i: nat)
    requires s.entries.Some? && s.walk.None? && from <= |s.entries.value| && i < |s.entries.value|
    requires i < from ==> InSomeDue(s, s.entries.value[i])
    ensures InSomeDue(Begin(s, from, l, replay), s.entries.value[i])
  {
    if i >= from {
      assert s.entries.value[from..][i - from] == s.entries.value[i];
    }
  }

  lemma {:induction false} FactsHead<F(!new), D(!new)>(s: List<F, D>, removed: set<F>)
    requires Facts(s, removed) && s.walk.Some?
    ensures Facts(Head(s), removed)
    decreases QueueLength(s)
  {
    hide Facts, Begin;
    if s.entries.None? {
      FactsDisabled(s, removed);
    } else if 0 <= s.index < s.length && s.index < |s.entries.value| {
      FactsTurn(s, removed, s.walk.value.called + [s.entries.value[s.index]]);
    } else {
      var over := s.(walk := None, passes := s.passes + [s.walk.value]);
      FactsOver(s, removed);
      if s.queue.Some? {
        if s.queue.value != [] {
          var t := over.(queue := Some(s.queue.value[1..]));
          FactsSame(over, t, removed);
          FactsFire(t, removed, s.queue.value[0]);
          FactsHead(Begin(t, 0, s.queue.value[0], false), removed);
        }
      } else {
        FactsEmptied(over, removed);
        FactsDisabled(over, removed);
      }
    }
  }

  lemma FactsFire<F(!new), D(!new)>(s: List<F, D>, removed: set<F>, l: D)
    requires s.entries.Some? && s.walk.None? && Facts(s, removed)
    ensures Facts(Begin(s, 0, l, false), removed)
  {
    hide Numbered, GoneOk, MemoryOk, UniqueOk, Begin, InSomeDue;
    assert FactsUpTo(s, removed, 0);
    FactsBegin(s, removed, 0, l, false);
  }

  // ---------- adding ----------

  lemma FactsPush<F(!new), D(!new)>(s: List<F, D>, removed: set<F>, fn: F, n: nat)
    requires s.entries.Some? && FactsUpTo(s, removed, n) && n <= |s.entries.value|
    requires s.walk.Some? ==> n == |s.entries.value|
    ensures (var r := Push(s, fn); FactsUpTo(r, removed, if s.walk.Some? then |r.entries.value| else n))
  {
    hide Push, Numbered, GoneOk, MemoryOk, DueOk, UniqueOk;
    PushNumbered(s, fn);
    PushGone(s, removed, fn);
    PushMemory(s, fn);
    PushDueOk(s, fn, n);
    PushUnique(s, fn);
  }

  lemma PushNumbered<F(!new), D(!new)>(s: List<F, D>, fn: F)
    requires s.entries.Some? && Numbered(s)
    ensures Numbered(Push(s, fn))
  {
    hide Has, AllIn;
    var r := Push(s, fn);
    if r != s {
      var e := Entry(fn, s.nextId);
      assert r.pushed == s.pushed + [e];
      MoreIn(s.entries.value, s.pushed, e);
      if s.walk.Some? {
        MoreIn(s.walk.value.due, s.pushed, e);
      }
      forall k | 0 <= k < |s.passes| ensures AllIn(s.passes[k].due, r.pushed) {
        MoreIn(s.passes[k].due, s.pushed, e);
      }
    }
  }

  lemma MoreIn<F(!new)>(es: seq<Entry<F>>, pushed: seq<Entry<F>>, e: Entry<F>)
    requires AllIn(es, pushed) && e.id == |pushed|
    ensures AllIn(es, pushed + [e]) && AllIn(es + [e], pushed + [e])
  {
  }

  lemma PushMemory<F(!new), D(!new)>(s: List<F, D>, fn: F)
    requires s.entries.Some? && MemoryOk(s)
    ensures MemoryOk(Push(s, fn))
  {
    hide Has, Fires;
    PushFires(s, fn);
  }

  lemma PushDueOk<F(!new), D(!new)>(s: List<F, D>, fn: F, n: nat)
    requires s.entries.Some? && DueOk(s, n) && n <= |s.entries.value|
    requires s.walk.Some? ==> n == |s.entries.value|
    ensures DueOk(Push(s, fn), if s.walk.Some? then |Push(s, fn).entries.value| else n)
  {
    hide InSomeDue, Has;
    if Push(s, fn) != s {
      var r := Push(s, fn);
      forall i | 0 <= i < |r.entries.value| && (i < n || s.walk.Some?) && s.memory.Some?
        ensures InSomeDue(r, r.entries.value[i])
      {
        PushDue(s, fn, i);
      }
    }
  }

  lemma PushUnique<F(!new), D(!new)>(s: List<F, D>, fn: F)
    requires s.entries.Some? && UniqueOk(s)
    ensures UniqueOk(Push(s, fn))
  {
  }

  lemma PushFires<F(!new), D(!new)>(s: List<F, D>, fn: F)
    requires s.entries.Some?
    ensures Fires(Push(s, fn)) == Fires(s)
  {
  }

  lemma PushGone<F(!new), D(!new)>(s: List<F, D>, removed: set<F>, fn: F)
    requires s.entries.Some? && GoneOk(s, removed)
    ensures GoneOk(Push(s, fn), removed)
  {
    hide Has;
    var r := Push(s, fn);
    GoneMore(s, r.pushed, removed, removed);
  }

  lemma PushDue<F(!new), D(!new)>(s: List<F, D>, fn: F, i: nat)
    requires s.entries.Some? && Push(s, fn) != s && i <= |s.entries.value|
    requires i < |s.entries.value| ==> InSomeDue(s, s.entries.value[i])
    requires i == |s.entries.value| ==> s.walk.Some?
    ensures InSomeDue(Push(s, fn), Push(s, fn).entries.value[i])
  {
    hide Has;
  }

  lemma {:induction false} FactsPushAll<F(!new), D(!new)>(s: List<F, D>, removed: set<F>, fns: seq<F>, n: nat)
    requires s.entries.Some? && FactsUpTo(s, removed, n) && n <= |s.entries.value|
    requires s.walk.Some? ==> n == |s.entries.value|
    ensures (var r := PushAll(s, fns);
             && FactsUpTo(r, removed, if s.walk.Some? then |r.entries.value| else n)
             && (r.walk.Some? <==> s.walk.Some?) && r.memory == s.memory && r.remembers == s.remembers)
    decreases |fns|
  {
    hide FactsUpTo, Has;
    if fns != [] {
      FactsPush(s, removed, fns[0], n);
      var t := Push(s, fns[0]);
      FactsPushAll(t, removed, fns[1..], if s.walk.Some? then |t.entries.value| else n);
    }
  }

  lemma FactsAdd<F(!new), D(!new)>(s: List<F, D>, removed: set<F>, fns: seq<F>)
    requires Facts(s, removed)
    ensures Facts(AddAll(s, fns), removed)
  {
    hide FactsUpTo, Begin, Head, PushAll;
    if s.entries.Some? {
      FactsPushAll(s, removed, fns, |s.entries.value|);
      var r := PushAll(s, fns);
      if s.walk.Some? {
        FactsSame(r, r.(length := |r.entries.value|), removed);
      } else if s.memory.Some? {
        FactsBegin(r, removed, |s.entries.value|, s.memory.value, true);
        FactsHead(Begin(r, |s.entries.value|, s.memory.value, true), removed);
      } else {
        NoMemoryNoDue(r, removed, |s.entries.value|);
      }
    }
  }

  lemma NoMemoryNoDue<F(!new), D(!new)>(s: List<F, D>, removed: set<F>, n: nat)
    requires FactsUpTo(s, removed, n) && s.memory.None?
    ensures Facts(s, removed)
  {
  }

  // ---------- removing ----------

  lemma FactsRemoveAt<F(!new), D(!new)>(s: List<F, D>, removed: set<F>, d: nat)
    requires s.entries.Some? && d < |s.entries.value| && Facts(s, removed) && s.entries.value[d].fn in removed
    ensures Facts(RemoveAt(s, d), removed)
  {
    hide RemoveAt, Numbered, GoneOk, MemoryOk, DueOk, UniqueOk;
    RemoveNumbered(s, d);
    RemoveGone(s, removed, d);
    RemoveMemory(s, d);
    RemoveDueOk(s, d);
    RemoveUnique(s, d);
  }

  lemma RemoveNumbered<F(!new), D(!new)>(s: List<F, D>, d: nat)
    requires s.entries.Some? && d < |s.entries.value| && Numbered(s)
    ensures Numbered(RemoveAt(s, d))
  {
    hide AllIn;
    FewerIn(s.entries.value, s.pushed, d);
  }

  lemma FewerIn<F(!new)>(es: seq<Entry<F>>, pushed: seq<Entry<F>>, d: nat)
    requires d < |es| && AllIn(es, pushed)
    ensures AllIn(Cut(es, d), pushed)
  {
  }

  lemma RemoveMemory<F(!new), D(!new)>(s: List<F, D>, d: nat)
    requires s.entries.Some? && d < |s.entries.value| && MemoryOk(s)
    ensures MemoryOk(RemoveAt(s, d))
  {
    hide FiredData, Cut;
  }

  lemma RemoveUnique<F(!new), D(!new)>(s: List<F, D>, d: nat)
    requires s.entries.Some? && d < |s.entries.value| && UniqueOk(s)
    ensures UniqueOk(RemoveAt(s, d))
  {
  }

  lemma RemoveDueOk<F(!new), D(!new)>(s: List<F, D>, d: nat)
    requires s.entries.Some? && d < |s.entries.value| && DueOk(s, |s.entries.value|)
    ensures DueOk(RemoveAt(s, d), |s.entries.value| - 1)
  {
    hide InSomeDue;
    forall e | InSomeDue(s, e) ensures InSomeDue(RemoveAt(s, d), e) {
      RemoveDue(s, d, e);
    }
  }

  lemma RemoveDue<F(!new), D(!new)>(s: List<F, D>, d: nat, e: Entry<F>)
    requires s.entries.Some? && d < |s.entries.value| && InSomeDue(s, e)
    ensures InSomeDue(RemoveAt(s, d), e)
  {
  }

  lemma RemoveGone<F(!new), D(!new)>(s: List<F, D>, removed: set<F>, d: nat)
    requires s.entries.Some? && d < |s.entries.value| && s.entries.value[d].fn in removed
    requires Numbered(s) && GoneOk(s, removed)
    ensures GoneOk(RemoveAt(s, d), removed)
  {
  }

  lemma {:induction false} FactsRemoveFrom<F(!new), D(!new)>(s: List<F, D>, removed: set<F>, fn: F, d: nat)
    requires s.entries.Some? && d <= |s.entries.value| && Facts(s, removed) && fn in removed
    ensures Facts(RemoveFrom(s, fn, d), removed)
    decreases |s.entries.value| - d
  {
    hide Facts, RemoveAt;
    if d < |s.entries.value| {
      if s.entries.value[d].fn == fn {
        FactsRemoveAt(s, removed, d);
        FactsRemoveFrom(RemoveAt(s, d), removed, fn, d);
      } else {
        FactsRemoveFrom(s, removed, fn, d + 1);
      }
    }
  }

  lemma {:induction false} FactsRemove<F(!new), D(!new)>(s: List<F, D>, removed: set<F>, fns: seq<F>)
    requires Facts(s, removed) && forall fn :: fn in fns ==> fn in removed
    ensures Facts(RemoveAll(s, fns), removed)
    decreases |fns|
  {
    hide Facts, RemoveFrom;
    if s.entries.Some? && fns != [] {
      FactsRemoveFrom(s, removed, fns[0], 0);
      FactsRemove(RemoveFrom(s, fns[0], 0), removed, fns[1..]);
    }
  }

  // ---------- runs ----------

  function RemovedBy<F, D>(a: Act<F, D>): set<F> {
    if a.Remove? then set fn | fn in a.fns else {}
  }

  function RemovedIn<F, D>(acts: seq<Act<F, D>>): set<F> {
    if acts == [] then {} else RemovedBy(acts[0]) + RemovedIn(acts[1..])
  }

  lemma FactsMore<F(!new), D(!new)>(s: List<F, D>, removed: set<F>, more: set<F>)
    requires Facts(s, removed)
    ensures Facts(s, removed + more)
  {
    hide InSomeDue, FiredData;
    GoneMore(s, s.pushed, removed, removed + more);
  }

  lemma FactsStep<F(!new), D(!new)>(s: List<F, D>, a: Act<F, D>, removed: set<F>)
    requires Facts(s, removed)
    ensures Facts(Step(s, a), removed + RemovedBy(a))
  {
    hide Facts, Begin, Head, AddAll, RemoveAll;
    var now := removed + RemovedBy(a);
    FactsMore(s, removed, RemovedBy(a));
    match a
    case Add(fns) => FactsAdd(s, now, fns);
    case Remove(fns) => FactsRemove(s, now, fns);
    case FireWith(l) =>
      var t := s.(asked := s.asked + [l]);
      FactsSame(s, t, now);
      if s.entries.Some? && (!s.fired || s.queue.Some?) {
        if s.walk.None? {
          FactsFire(t, now, l);
          FactsHead(Begin(t, 0, l, false), now);
        } else if s.queue.Some? {
          FactsSame(t, t.(queue := Some(s.queue.value + [l])), now);
        }
      }
    case Disable => FactsDisabled(s, now);
    case Lock =>
      FactsSame(s, s.(queue := None), now);
      FactsDisabled(s, now);
    case Return =>
      if s.walk.Some? {
        FactsSame(s, s.(index := s.index + 1), now);
        FactsHead(s.(index := s.index + 1), now);
      }
  }

  lemma {:induction false} FactsRun<F(!new), D(!new)>(s: List<F, D>, acts: seq<Act<F, D>>, removed: set<F>)
    requires Facts(s, removed)
    ensures Facts(Run(s, acts), removed + RemovedIn(acts))
    decreases |acts|
  {
    hide Facts, Step;
    if acts == [] {
      assert removed + RemovedIn(acts) == removed;
    } else {
      FactsStep(s, acts[0], removed);
      FactsRun(Step(s, acts[0]), acts[1..], removed + RemovedBy(acts[0]));
      assert removed + RemovedBy(acts[0]) + RemovedIn(acts[1..]) == removed + RemovedIn(acts);
    }
  }

  lemma FactsInit<F(!new), D(!new)>(once: bool, remembers: bool, unique: bool)
    ensures Facts(Init<F, D>(once, remembers, unique), {})
  {
  }

  lemma ReachableFacts<F(!new), D(!new)>(once: bool, remembers: bool, unique: bool, acts: seq<Act<F, D>>)
    ensures Facts(Run(Init<F, D>(once, remembers, unique), acts), RemovedIn(acts))
    ensures Inv(Run(Init<F, D>(once, remembers, unique), acts))
  {
    hide Facts, Inv, Run;
    FactsInit<F, D>(once, remembers, unique);
    FactsRun(Init<F, D>(once, remembers, unique), acts, {});
    assert {} + RemovedIn(acts) == RemovedIn(acts);
    ReachableInv<F, D>(once, remembers, unique, acts);
  }

  /** Only functions that somebody removes are ever passed over. */
  lemma OnlyRemovedSkipped<F(!new), D(!new)>(once: bool, remembers: bool, unique: bool, acts: seq<Act<F, D>>, k: nat,
                                             e: Entry<F>)
    requires k < |Run(Init<F, D>(once, remembers, unique), acts).passes|
    requires e in Run(Init<F, D>(once, remembers, unique), acts).passes[k].due && e.fn !in RemovedIn(acts)
    ensures e in Run(Init<F, D>(once, remembers, unique), acts).passes[k].called
  {
    hide Run, RemovedIn;
    ReachableFacts<F, D>(once, remembers, unique, acts);
    EachDueCalledOnce<F, D>(once, remembers, unique, acts, k, e);
    var s := Run(Init<F, D>(once, remembers, unique), acts);
    NotGoneUnlessRemoved(s.passes[k], s.pushed, RemovedIn(acts), e);
  }

  lemma NotGoneUnlessRemoved<F(!new), D(!new)>(p: Pass<F, D>, pushed: seq<Entry<F>>, removed: set<F>, e: Entry<F>)
    requires AllIn(p.due, pushed) && GoneFrom(p.gone, pushed, removed) && e in p.due && e.fn !in removed
    ensures e.id !in p.gone
  {
  }

  /** During a fire, exactly those listed at positions up to the index have been called. */
  lemma FireCallsListed<F(!new), D(!new)>(once: bool, remembers: bool, unique: bool, acts: seq<Act<F, D>>, i: nat)
    requires (var s := Run(Init<F, D>(once, remembers, unique), acts);
              s.walk.Some? && !s.walk.value.replay && s.entries.Some? && i < |s.entries.value|)
    ensures (var s := Run(Init<F, D>(once, remembers, unique), acts);
             s.entries.value[i] in s.walk.value.called <==> i <= s.index)
  {
    hide Run, RemovedIn, Inv;
    ReachableFacts<F, D>(once, remembers, unique, acts);
    IndexDivides<F, D>(once, remembers, unique, acts, i);
  }

  /** At rest, a list with a memory has called everybody on it, unless somebody removed the function meanwhile. */
  lemma MemoryMeansCalled<F(!new), D(!new)>(once: bool, unique: bool, acts: seq<Act<F, D>>, e: Entry<F>)
    requires (var s := Run(Init<F, D>(once, true, unique), acts);
              s.memory.Some? && s.walk.None? && s.entries.Some? && e in s.entries.value && e.fn !in RemovedIn(acts))
    ensures (var s := Run(Init<F, D>(once, true, unique), acts);
             exists k :: 0 <= k < |s.passes| && e in s.passes[k].called)
  {
    hide Run, RemovedIn, Inv;
    ReachableFacts<F, D>(once, true, unique, acts);
    var s := Run(Init<F, D>(once, true, unique), acts);
    assert InSomeDue(s, e);
    var k :| 0 <= k < |s.passes| && e in s.passes[k].due;
    OnlyRemovedSkipped<F, D>(once, true, unique, acts, k, e);
  }

  /** What a list remembers, and hands on to newcomers, is the data of its last fire. */
  lemma MemoryIsLastFire<F(!new), D(!new)>(once: bool, remembers: bool, unique: bool, acts: seq<Act<F, D>>)
    ensures (var s := Run(Init<F, D>(once, remembers, unique), acts); var fires := FiredData(s.passes) + Under(s);
             s.entries.Some? ==>
               && (s.fired <==> fires != [])
               && s.memory == (if remembers && fires != [] then Some(fires[|fires| - 1]) else None)
               && (s.walk.Some? && s.walk.value.replay ==> s.memory == Some(s.walk.value.data)))
  {
    hide Run, RemovedIn, Inv;
    ReachableFacts<F, D>(once, remembers, unique, acts);
    RunKind(Init<F, D>(once, remembers, unique), acts);
  }

  /** A unique list never holds a function twice. */
  lemma UniqueMeansOnce<F(!new), D(!new)>(once: bool, remembers: bool, acts: seq<Act<F, D>>, i: nat, j: nat)
    requires (var s := Run(Init<F, D>(once, remembers, true), acts); s.entries.Some? && i < j < |s.entries.value|)
    ensures (var s := Run(Init<F, D>(once, remembers, true), acts); s.entries.value[i].fn != s.entries.value[j].fn)
  {
    hide Run, RemovedIn, Inv;
    ReachableFacts<F, D>(once, remembers, true, acts);
    RunKind(Init<F, D>(once, remembers, true), acts);
  }
}
