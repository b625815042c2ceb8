/**
 Callback lists that are left open behave like a plain list and carry out every fire; those of the kind "once" and
 locked ones carry out no more.
 */
module OpenLists {
  import opened Wrappers
  import opened CallbackList
  import opened CallbackDelivery
  import opened CallbackRuns
  import opened CallbackHistory
  import opened OnceMemory

  /** A plain list of functions, of which a unique one takes up only new ones. */
  function Taken<F(==)>(fs: seq<F>, fns: seq<F>, unique: bool): seq<F>
    decreases |fns|
  {
    if fns == [] then fs
    else Taken(if unique && fns[0] in fs then fs else fs + [fns[0]], fns[1..], unique)
  }

  function Without<F(==)>(fs: seq<F>, fns: seq<F>): seq<F> {
    if fs == [] then [] else (if fs[0] in fns then [] else [fs[0]]) + Without(fs[1..], fns)
  }

  function PlainStep<F(==), D>(fs: seq<F>, a: Act<F, D>, unique: bool): seq<F> {
    match a
    case Add(fns) => Taken(fs, fns, unique)
    case Remove(fns) => Without(fs, fns)
    case _ => fs
  }

  function PlainRun<F(==), D>(fs: seq<F>, acts: seq<Act<F, D>>, unique: bool): seq<F>
    decreases |acts|
  {
    if acts == [] then fs else PlainRun(PlainStep(fs, acts[0], unique), acts[1..], unique)
  }

  ghost predicate Distinct<F(!new)>(fs: seq<F>) {
    forall i, j :: 0 <= i < j < |fs| ==> fs[i] != fs[j]
  }

  ghost predicate Open<F(!new), D(!new)>(s: List<F, D>) {
    !s.once && s.entries.Some? && s.queue.Some?
  }

  /** The loop leaves an open list as it is. */
  lemma {:induction false} HeadOpen<F(!new), D(!new)>(s: List<F, D>)
    requires Open(s) && s.walk.Some?
    ensures (var r := Head(s); Open(r) && r.asked == s.asked && r.entries == s.entries && r.unique == s.unique)
    decreases QueueLength(s)
  {
    if !(0 <= s.index < s.length && s.index < |s.entries.value|) && s.queue.value != [] {
      var over := s.(walk := None, passes := s.passes + [s.walk.value]);
      HeadOpen(Begin(over.(queue := Some(s.queue.value[1..])), 0, s.queue.value[0], false));
    }
  }

  lemma HasIs<F(!new)>(es: seq<Entry<F>>, fn: F)
    ensures Has(es, fn) <==> fn in Fns(es)
  {
    assert forall i :: 0 <= i < |es| ==> Fns(es)[i] == es[i].fn;
  }

  lemma {:induction false} PushAllPlain<F(!new), D(!new)>(s: List<F, D>, fns: seq<F>)
    requires s.entries.Some?
    ensures (var r := PushAll(s, fns);
             && Fns(r.entries.value) == Taken(Fns(s.entries.value), fns, s.unique)
             && r.once == s.once && r.queue == s.queue && r.asked == s.asked && r.unique == s.unique
             && (r.walk.Some? <==> s.walk.Some?) && r.memory == s.memory)
    decreases |fns|
  {
    hide Has;
    if fns != [] {
      HasIs(s.entries.value, fns[0]);
      var t := Push(s, fns[0]);
      assert Fns(s.entries.value + [Entry(fns[0], s.nextId)]) == Fns(s.entries.value) + [fns[0]];
      PushAllPlain(t, fns[1..]);
    }
  }

  lemma {:induction false} OthersPlain<F(!new)>(es: seq<Entry<F>>, fns: seq<F>)
    ensures Fns(Others(es, fns)) == Without(Fns(es), fns)
  {
    if es != [] {
      OthersPlain(es[1..], fns);
      assert Fns(es)[1..] == Fns(es[1..]);
    }
  }

  lemma {:induction false} RemoveOpen<F(!new), D(!new)>(s: List<F, D>, fns: seq<F>)
    requires s.entries.Some?
    ensures (var r := RemoveAll(s, fns);
             r.once == s.once && r.queue == s.queue && r.asked == s.asked && r.unique == s.unique)
    decreases |fns|
  {
    hide RemoveFrom;
    if fns != [] {
      RemoveFromOpen(s, fns[0], 0);
      RemoveOpen(RemoveFrom(s, fns[0], 0), fns[1..]);
    }
  }

  lemma {:induction false} RemoveFromOpen<F(!new), D(!new)>(s: List<F, D>, fn: F, d: nat)
    requires s.entries.Some? && d <= |s.entries.value|
    ensures (var r := RemoveFrom(s, fn, d);
             r.once == s.once && r.queue == s.queue && r.asked == s.asked && r.unique == s.unique)
    decreases |s.entries.value| - d
  {
    if d < |s.entries.value| {
      if s.entries.value[d].fn == fn {
        RemoveFromOpen(RemoveAt(s, d), fn, d);
      } else {
        RemoveFromOpen(s, fn, d + 1);
      }
    }
  }

  lemma OpenStep<F(!new), D(!new)>(s: List<F, D>, a: Act<F, D>)
    requires Open(s) && !a.Lock? && !a.Disable?
    ensures (var r := Step(s, a);
             && Open(r) && r.unique == s.unique && r.asked == s.asked + AskedBy(a)
             && Fns(r.entries.value) == PlainStep(Fns(s.entries.value), a, s.unique))
  {
    hide Head, PushAll, RemoveAll, Taken, Without;
    match a
    case Add(fns) =>
      PushAllPlain(s, fns);
      var r := PushAll(s, fns);
      if s.walk.None? && s.memory.Some? {
        HeadOpen(Begin(r, |s.entries.value|, s.memory.value, true));
      }
    case Remove(fns) =>
      RemoveOpen(s, fns);
      RemoveAllIs(s, fns);
      OthersPlain(s.entries.value, fns);
    case FireWith(l) =>
      if s.walk.None? {
        HeadOpen(Begin(s.(asked := s.asked + [l]), 0, l, false));
      }
    case Return =>
      if s.walk.Some? {
        HeadOpen(s.(index := s.index + 1));
      }
  }

  lemma {:induction false} OpenRun<F(!new), D(!new)>(s: List<F, D>, acts: seq<Act<F, D>>)
    requires Open(s) && LeftOpen(acts)
    ensures (var r := Run(s, acts);
             && Open(r) && r.asked == s.asked + FireAsks(acts)
             && Fns(r.entries.value) == PlainRun(Fns(s.entries.value), acts, s.unique))
    decreases |acts|
  {
    hide Step, PlainStep, AskedBy;
    if acts != [] {
      OpenStep(s, acts[0]);
      OpenRun(Step(s, acts[0]), acts[1..]);
      assert s.asked + AskedBy(acts[0]) + FireAsks(acts[1..]) == s.asked + FireAsks(acts);
    }
  }

  /**
   A list that is not "once" and that nobody locks or disables carries out every fire, in order: what the acts fired
   is what the finished walks, the one under way and the queue have, and at rest the finished walks alone. And
   whatever walks there were, its functions are those of a plain list under the same adds and removes.
   */
  lemma EveryFireCarriedOut<F(!new), D(!new)>(remembers: bool, unique: bool, acts: seq<Act<F, D>>)
    requires LeftOpen(acts)
    ensures (var s := Run(Init<F, D>(false, remembers, unique), acts);
             && s.entries.Some? && s.queue.Some? && s.asked == FireAsks(acts)
             && FireAsks(acts) == FiredData(s.passes) + Under(s) + s.queue.value
             && (s.walk.None? ==> FireAsks(acts) == FiredData(s.passes))
             && Fns(s.entries.value) == PlainRun([], acts, unique))
  {
    hide Run, FireAsks, PlainRun, FiredData;
    OpenRun(Init<F, D>(false, remembers, unique), acts);
    ReachableInv<F, D>(false, remembers, unique, acts);
    var s := Run(Init<F, D>(false, remembers, unique), acts);
    assert [] + FireAsks(acts) == FireAsks(acts);
    if s.walk.None? {
      assert FiredData(s.passes) + [] + [] == FiredData(s.passes);
    }
  }

  /** Adding to a plain list: nobody is left out, the order is kept, and a unique list holds no function twice. */
  lemma {:induction false} TakenIs<F(!new)>(fs: seq<F>, fns: seq<F>, unique: bool)
    ensures forall fn :: fn in Taken(fs, fns, unique) <==> fn in fs || fn in fns
    ensures !unique ==> Taken(fs, fns, unique) == fs + fns
    ensures unique && Distinct(fs) ==> Distinct(Taken(fs, fns, unique))
    decreases |fns|
  {
    if fns != [] {
      var now := if unique && fns[0] in fs then fs else fs + [fns[0]];
      TakenIs(now, fns[1..], unique);
      assert fns == [fns[0]] + fns[1..];
      assert !unique ==> fs + [fns[0]] + fns[1..] == fs + fns;
    }
  }

  // ---------- lists that fire once, and locked lists ----------

  ghost predicate OnceOk<F(!new), D(!new)>(s: List<F, D>) {
    && s.once && s.queue.None? && (s.fired <==> |s.asked| == 1)
    && (!s.fired ==> s.asked == [] && s.entries.Some? && s.memory.None? && s.walk.None?)
    && (s.fired ==> Spent(s) && (s.memory.Some? <==> s.remembers))
  }

  /** With the walk over, the list is emptied if it remembers, and otherwise disabled. */
  ghost predicate Spent<F(!new), D(!new)>(s: List<F, D>) {
    if s.walk.Some? then s.entries.Some? else s.entries == if s.memory.Some? then Some([]) else None
  }

  lemma HeadSpends<F(!new), D(!new)>(s: List<F, D>)
    requires s.walk.Some? && s.queue.None? && s.entries.Some?
    ensures Spent(Head(s)) && (Head(s).memory.Some? <==> s.memory.Some?)
    ensures Head(s).remembers == s.remembers && Head(s).unique == s.unique
  {
  }

  /** The loop starts nothing new once the queue is gone. */
  lemma HeadLocked<F(!new), D(!new)>(s: List<F, D>)
    requires s.walk.Some? && s.queue.None?
    ensures (var r := Head(s);
             && r.queue.None? && r.asked == s.asked && r.fired == s.fired && r.once == s.once
             && (s.entries.None? ==> r.entries.None?)
             && (Keeping(s) ==> Keeping(r) && r.memory == s.memory))
  {
  }

  /** The list stands and remembers. */
  predicate Keeping<F, D>(s: List<F, D>) {
    s.entries.Some? && s.remembers && s.memory.Some?
  }

  lemma LockedStep<F(!new), D(!new)>(s: List<F, D>, a: Act<F, D>)
    requires s.queue.None? && (s.fired || s.entries.None?)
    ensures (var r := Step(s, a);
             && r.queue.None? && (r.fired || r.entries.None?) && r.asked == s.asked && r.once == s.once
             && (s.fired ==> r.fired) && (s.entries.None? ==> r.entries.None?)
             && (Keeping(s) && !a.Disable? ==> Keeping(r) && r.memory == s.memory))
  {
    hide Head, PushAll, RemoveAll;
    match a
    case Add(fns) =>
      if s.entries.Some? {
        PushAllRecord(s, fns);
        if s.walk.None? && s.memory.Some? {
          HeadLocked(Begin(PushAll(s, fns), |s.entries.value|, s.memory.value, true));
        }
      }
    case Remove(fns) => RemoveRecord(s, fns);
    case Return =>
      if s.walk.Some? {
        HeadLocked(s.(index := s.index + 1));
      }
    case _ =>
  }

  lemma {:induction false} PushAllRecord<F(!new), D(!new)>(s: List<F, D>, fns: seq<F>)
    requires s.entries.Some?
    ensures (var r := PushAll(s, fns);
             r.queue == s.queue && r.asked == s.asked && r.fired == s.fired && r.once == s.once && r.memory == s.memory
             && r.remembers == s.remembers
             && (r.walk.Some? <==> s.walk.Some?))
    decreases |fns|
  {
    hide Has;
    if fns != [] {
      PushAllRecord(Push(s, fns[0]), fns[1..]);
    }
  }

  lemma {:induction false} RemoveRecord<F(!new), D(!new)>(s: List<F, D>, fns: seq<F>)
    ensures (var r := RemoveAll(s, fns);
             r.queue == s.queue && r.asked == s.asked && r.fired == s.fired && r.once == s.once && r.memory == s.memory
             && r.remembers == s.remembers
             && (r.entries.Some? <==> s.entries.Some?) && (r.walk.Some? <==> s.walk.Some?))
    decreases |fns|
  {
    hide RemoveFrom;
    if s.entries.Some? && fns != [] {
      RemoveFromRecord(s, fns[0], 0);
      RemoveRecord(RemoveFrom(s, fns[0], 0), fns[1..]);
    }
  }

  lemma {:induction false} RemoveFromRecord<F(!new), D(!new)>(s: List<F, D>, fn: F, d: nat)
    requires s.entries.Some? && d <= |s.entries.value|
    ensures (var r := RemoveFrom(s, fn, d);
             r.queue == s.queue && r.asked == s.asked && r.fired == s.fired && r.once == s.once && r.memory == s.memory
             && r.remembers == s.remembers
             && r.entries.Some? && (r.walk.Some? <==> s.walk.Some?))
    decreases |s.entries.value| - d
  {
    if d < |s.entries.value| {
      if s.entries.value[d].fn == fn {
        RemoveFromRecord(RemoveAt(s, d), fn, d);
      } else {
        RemoveFromRecord(s, fn, d + 1);
      }
    }
  }

  lemma {:induction false} LockedRun<F(!new), D(!new)>(s: List<F, D>, acts: seq<Act<F, D>>)
    requires s.queue.None? && (s.fired || s.entries.None?)
    ensures Run(s, acts).queue.None? && Run(s, acts).asked == s.asked
    ensures s.entries.None? ==> Run(s, acts).entries.None?
    ensures Keeping(s) && (forall k :: 0 <= k < |acts| ==> !acts[k].Disable?) ==>
              Keeping(Run(s, acts)) && Run(s, acts).memory == s.memory
    decreases |acts|
  {
    hide Step;
    if acts != [] {
      LockedStep(s, acts[0]);
      LockedRun(Step(s, acts[0]), acts[1..]);
    }
  }

  /**
   After a lock nothing that is fired is ever carried out any more, nor what was queued. A list that remembers nothing
   is then disabled; one with a memory goes on as it was, and never loses that memory unless it is disabled.
   */
  lemma AfterLock<F(!new), D(!new)>(once: bool, remembers: bool, unique: bool, acts: seq<Act<F, D>>,
                                    later: seq<Act<F, D>>)
    ensures (var s := Run(Init<F, D>(once, remembers, unique), acts); var r := Run(Step(s, Lock), later);
             && r.queue.None? && r.asked == s.asked
             && (r.entries.Some? ==> FiredData(r.passes) + Under(r) <= s.asked)
             && (s.memory.None? ==> Step(s, Lock).entries.None? && r.entries.None?)
             && (s.memory.Some? ==>
                   && Step(s, Lock).entries == s.entries && Step(s, Lock).walk == s.walk
                   && ((forall k :: 0 <= k < |later| ==> !later[k].Disable?) ==>
                         r.entries.Some? && r.memory == s.memory)))
  {
    hide Run, Inv, FiredData;
    ReachableFacts<F, D>(once, remembers, unique, acts);
    var s := Run(Init<F, D>(once, remembers, unique), acts);
    MemoryMeansFired(s);
    LockedRun(Step(s, Lock), later);
    StepKeeps(s, Lock);
    RunKeeps(Step(s, Lock), later);
    InvFires(Run(Step(s, Lock), later));
  }

  lemma MemoryMeansFired<F(!new), D(!new)>(s: List<F, D>)
    requires Inv(s) && MemoryOk(s)
    ensures s.memory.Some? ==> s.fired && s.entries.Some? && s.remembers
  {
  }

  lemma InvFires<F(!new), D(!new)>(s: List<F, D>)
    requires Inv(s)
    ensures s.entries.Some? ==> FiredData(s.passes) + Under(s) <= s.asked
  {
  }

  /** A list with a memory that is open and then locked: it stands from there on iff something was fired before. */
  lemma OpenThenLocked<F(!new), D(!new)>(acts: seq<Act<F, D>>, later: seq<Act<F, D>>)
    requires LeftOpen(acts) && LeftOpen(later)
    ensures (var s := Run(Init<F, D>(false, true, false), acts); var r := Run(Step(s, Lock), later);
             && r.asked == FireAsks(acts) && r.queue.None?
             && (r.entries.Some? ==> FiredData(r.passes) + Under(r) <= FireAsks(acts))
             && (r.entries.Some? <==> FireAsks(acts) != [])
             && (r.entries.Some? ==> r.memory == s.memory))
  {
    hide Run, FireAsks, FiredData, Under, Inv, PlainRun, RemovedIn;
    EveryFireCarriedOut<F, D>(true, false, acts);
    AfterLock<F, D>(false, true, false, acts, later);
    ReachableFacts<F, D>(false, true, false, acts);
    RunKind(Init<F, D>(false, true, false), acts);
    MemoryIfAsked(Run(Init<F, D>(false, true, false), acts));
  }

  lemma MemoryIfAsked<F(!new), D(!new)>(s: List<F, D>)
    requires Inv(s) && MemoryOk(s) && s.remembers && s.entries.Some?
    ensures s.memory.Some? <==> s.asked != []
  {
  }

  lemma SpentStep<F(!new), D(!new)>(s: List<F, D>, a: Act<F, D>)
    requires OnceOk(s) && s.fired && !a.Lock? && !a.Disable?
    ensures Spent(Step(s, a)) && (Step(s, a).memory.Some? <==> s.memory.Some?) && Step(s, a).remembers == s.remembers
  {
    hide Head, PushAll, RemoveAll;
    StepKind(s, a);
    match a
    case Add(fns) =>
      if s.entries.Some? {
        PushAllRecord(s, fns);
        if s.walk.None? && s.memory.Some? {
          HeadSpends(Begin(PushAll(s, fns), |s.entries.value|, s.memory.value, true));
        }
      }
    case Remove(fns) =>
      RemoveRecord(s, fns);
      if s.entries.Some? {
        RemoveAllIs(s, fns);
      }
    case FireWith(l) =>
    case Return =>
      if s.walk.Some? {
        HeadSpends(s.(index := s.index + 1));
      }
  }

  lemma OnceStep<F(!new), D(!new)>(s: List<F, D>, a: Act<F, D>)
    requires OnceOk(s) && !a.Lock? && !a.Disable?
    ensures OnceOk(Step(s, a)) && Step(s, a).asked == if s.asked == [] then AskedBy(a) else s.asked
  {
    hide Head, PushAll, RemoveAll, Spent;
    if s.fired {
      LockedStep(s, a);
      SpentStep(s, a);
    } else {
      match a
      case Add(fns) => PushAllRecord(s, fns);
      case Remove(fns) => RemoveRecord(s, fns);
      case FireWith(l) =>
        HeadLocked(Begin(s.(asked := s.asked + [l]), 0, l, false));
        HeadSpends(Begin(s.(asked := s.asked + [l]), 0, l, false));
      case Return =>
    }
  }

  lemma {:induction false} OnceRun<F(!new), D(!new)>(s: List<F, D>, acts: seq<Act<F, D>>)
    requires OnceOk(s) && LeftOpen(acts)
    ensures OnceOk(Run(s, acts))
    ensures Run(s, acts).asked == if s.asked != [] || FireAsks(acts) == [] then s.asked else [FireAsks(acts)[0]]
    decreases |acts|
  {
    hide Step;
    if acts != [] {
      OnceStep(s, acts[0]);
      OnceRun(Step(s, acts[0]), acts[1..]);
    }
  }

  /**
   A list of the kind "once" that nobody locks or disables carries out the first fire and no other. When it has, it is
   empty if it has a memory, to call whoever is added later; without one it is disabled.
   */
  lemma OnlyFirstFire<F(!new), D(!new)>(remembers: bool, unique: bool, acts: seq<Act<F, D>>)
    requires LeftOpen(acts)
    ensures (var s := Run(Init<F, D>(true, remembers, unique), acts);
             && s.asked == (if FireAsks(acts) == [] then [] else [FireAsks(acts)[0]])
             && (s.entries.Some? ==> FiredData(s.passes) + Under(s) == s.asked)
             && (FireAsks(acts) != [] && s.walk.None? ==> s.entries == if remembers then Some([]) else None))
  {
    hide Run, FireAsks, RemovedIn;
    OnceRun(Init<F, D>(true, remembers, unique), acts);
    RunKind(Init<F, D>(true, remembers, unique), acts);
    ReachableFacts<F, D>(true, remembers, unique, acts);
  }

  // ---------- one act at rest ----------

  /** At rest, a fire calls the first on the list, with the whole list due. */
  lemma FireStarts<F(!new), D(!new)>(s: List<F, D>, l: D)
    requires s.walk.None? && s.entries.Some? && s.entries.value != [] && (!s.fired || s.queue.Some?)
    ensures (var r := Step(s, FireWith(l));
             && r.walk == Some(Pass(l, false, s.entries.value, {}, [s.entries.value[0]]))
             && r.passes == s.passes && r.entries == s.entries)
  {
    assert s.entries.value[0..] == s.entries.value && [] + [s.entries.value[0]] == [s.entries.value[0]];
  }

  /** At rest, with a memory, those added are due with the remembered data, and the first of them is called. */
  lemma AddReplays<F(!new), D(!new)>(s: List<F, D>, fns: seq<F>)
    requires s.walk.None? && s.entries.Some? && s.memory.Some? && !s.unique && fns != []
    ensures (var r := Step(s, Add(fns));
             && r.walk.Some? && r.walk.value.replay && r.walk.value.data == s.memory.value
             && Fns(r.walk.value.due) == fns && Fns(r.walk.value.called) == [fns[0]] && r.passes == s.passes)
  {
    hide PushAll, Has;
    var added := PushAllIs(s, fns);
    assert (s.entries.value + added)[|s.entries.value|..] == added;
    assert Fns(added)[0] == added[0].fn;
    assert [] + [added[0]] == [added[0]];
  }

  // ---------- how a walk goes on ----------

  /** When the callback returns the next one is called, with the same data; after the last the walk is finished. */
  lemma ReturnGoesOn<F(!new), D(!new)>(s: List<F, D>)
    requires Inv(s) && s.walk.Some? && s.entries.Some?
    ensures (var r, es, w := Step(s, Return), s.entries.value, s.walk.value;
             && 0 <= s.index + 1 <= |es|
             && (s.index + 1 < |es| ==>
                   && r.walk == Some(w.(called := w.called + [es[s.index + 1]]))
                   && r.passes == s.passes && r.entries == s.entries)
             && (s.index + 1 == |es| ==> s.passes + [w] <= r.passes))
  {
    hide Head, PassesOk, FiresOk, Increasing, Below, Remaining;
    HeadGoesOn(s.(index := s.index + 1));
  }

  lemma {:induction false} HeadGoesOn<F(!new), D(!new)>(s: List<F, D>)
    requires s.walk.Some? && s.entries.Some? && 0 <= s.index <= s.length == |s.entries.value|
    ensures s.index < s.length ==> Head(s) == s.(walk := Some(s.walk.value.(called := s.walk.value.called
                                                                               + [s.entries.value[s.index]])))
    ensures s.index == s.length ==> s.passes + [s.walk.value] <= Head(s).passes
    decreases QueueLength(s)
  {
    if s.index == s.length && s.queue.Some? && s.queue.value != [] {
      var over := s.(walk := None, passes := s.passes + [s.walk.value]);
      HeadGoesOn(Begin(over.(queue := Some(s.queue.value[1..])), 0, s.queue.value[0], false));
    }
  }

  /** How many more returns there can be. */
  function Left<F, D>(s: List<F, D>): int {
    if s.walk.None? then 0
    else if s.entries.None? then 1
    else 1 + QueueLength(s) * |s.entries.value| + |s.entries.value| - s.index
  }

  lemma {:induction false} HeadLeft<F(!new), D(!new)>(s: List<F, D>)
    requires s.walk.Some? && (s.entries.Some? ==> 0 <= s.index <= s.length == |s.entries.value|)
    ensures Left(Head(s)) <= (if s.entries.Some? then Left(s) else 0)
    decreases QueueLength(s)
  {
    if s.entries.Some? {
      var n, q := |s.entries.value|, QueueLength(s);
      assert 0 <= q * n;
      if s.index == s.length && 0 < q {
        var over := s.(walk := None, passes := s.passes + [s.walk.value]);
        var t := Begin(over.(queue := Some(s.queue.value[1..])), 0, s.queue.value[0], false);
        assert (q - 1) * n + n == q * n;
        HeadLeft(t);
      }
    }
  }

  lemma LeftDrops<F(!new), D(!new)>(s: List<F, D>)
    requires Inv(s) && s.walk.Some?
    ensures 0 <= Left(Step(s, Return)) < Left(s)
  {
    hide Head, PassesOk, FiresOk, Increasing, Below, Remaining;
    HeadLeft(s.(index := s.index + 1));
    StepKeeps(s, Return);
    LeftNat(Step(s, Return));
  }

  lemma LeftNat<F(!new), D(!new)>(s: List<F, D>)
    requires Inv(s)
    ensures 0 <= Left(s)
  {
    if s.walk.Some? && s.entries.Some? {
      assert 0 <= QueueLength(s) * |s.entries.value|;
    }
  }

  function Returns<F, D>(n: nat): seq<Act<F, D>> {
    if n == 0 then [] else [Return] + Returns(n - 1)
  }

  /** If nobody acts any more, the list comes to rest. */
  lemma {:induction false} ComesToRest<F(!new), D(!new)>(s: List<F, D>) returns (n: nat)
    requires Inv(s)
    ensures Run(s, Returns(n)).walk.None? && Inv(Run(s, Returns(n)))
    decreases Left(s)
  {
    hide Inv, Step;
    n := 0;
    if s.walk.Some? {
      LeftDrops(s);
      StepKeeps(s, Return);
      LeftNat(s);
      n := ComesToRest(Step(s, Return));
      n := n + 1;
      assert Returns<F, D>(n)[1..] == Returns<F, D>(n - 1);
    }
  }
}
