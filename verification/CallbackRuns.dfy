/**
 Runs of a callback list seen from outside: what the acts themselves (which functions were added and removed,
 which data fired) make of the list, its memory and the calls.
 */
module CallbackRuns {
  import opened Wrappers
  import opened CallbackList
  import opened OnceMemory

  // ---------- what the acts ask for ----------

  /** The functions added, in order. */
  function Added<F, D>(acts: seq<Act<F, D>>): seq<F> {
    if acts == [] then [] else AddedBy(acts[0]) + Added(acts[1..])
  }

  function AddedBy<F, D>(a: Act<F, D>): seq<F> {
    if a.Add? then a.fns else []
  }

  /** The data fired, in order. */
  function FireAsks<F, D>(acts: seq<Act<F, D>>): seq<D> {
    if acts == [] then [] else AskedBy(acts[0]) + FireAsks(acts[1..])
  }

  function AskedBy<F, D>(a: Act<F, D>): seq<D> {
    if a.FireWith? then [a.data] else []
  }

  /** Nobody locks or disables the list. */
  predicate LeftOpen<F, D>(acts: seq<Act<F, D>>) {
    forall k :: 0 <= k < |acts| ==> !acts[k].Lock? && !acts[k].Disable?
  }

  // ---------- the kind of list ----------

  predicate SameKind<F, D>(s: List<F, D>, t: List<F, D>) {
    s.once == t.once && s.remembers == t.remembers && s.unique == t.unique
  }

  lemma {:induction false} HeadKind<F(!new), D(!new)>(s: List<F, D>)
    requires s.walk.Some?
    ensures SameKind(s, Head(s))
    decreases QueueLength(s)
  {
    var turn := 0 <= s.index < s.length && s.entries.Some? && s.index < |s.entries.value|;
    if s.entries.Some? && !turn && s.queue.Some? && s.queue.value != [] {
      var over := s.(walk := None, passes := s.passes + [s.walk.value]);
      HeadKind(Begin(over.(queue := Some(s.queue.value[1..])), 0, s.queue.value[0], false));
    }
  }

  lemma {:induction false} PushAllKind<F(!new), D(!new)>(s: List<F, D>, fns: seq<F>)
    requires s.entries.Some?
    ensures SameKind(s, PushAll(s, fns))
    decreases |fns|
  {
    hide Has;
    if fns != [] {
      PushAllKind(Push(s, fns[0]), fns[1..]);
    }
  }

  lemma {:induction false} RemoveFromKind<F(!new), D(!new)>(s: List<F, D>, fn: F, d: nat)
    requires s.entries.Some? && d <= |s.entries.value|
    ensures SameKind(s, RemoveFrom(s, fn, d))
    decreases |s.entries.value| - d
  {
    if d < |s.entries.value| {
      if s.entries.value[d].fn == fn {
        RemoveFromKind(RemoveAt(s, d), fn, d);
      } else {
        RemoveFromKind(s, fn, d + 1);
      }
    }
  }

  lemma {:induction false} RemoveKind<F(!new), D(!new)>(s: List<F, D>, fns: seq<F>)
    ensures SameKind(s, RemoveAll(s, fns))
    decreases |fns|
  {
    hide RemoveFrom;
    if s.entries.Some? && fns != [] {
      RemoveFromKind(s, fns[0], 0);
      RemoveKind(RemoveFrom(s, fns[0], 0), fns[1..]);
    }
  }

  lemma StepKind<F(!new), D(!new)>(s: List<F, D>, a: Act<F, D>)
    ensures SameKind(s, Step(s, a))
  {
    hide Head, PushAll, RemoveAll;
    match a
    case Add(fns) =>
      if s.entries.Some? {
        PushAllKind(s, fns);
        if s.walk.None? && s.memory.Some? {
          HeadKind(Begin(PushAll(s, fns), |s.entries.value|, s.memory.value, true));
        }
      }
    case Remove(fns) => RemoveKind(s, fns);
    case FireWith(l) =>
      if s.entries.Some? && s.walk.None? {
        HeadKind(Begin(s.(asked := s.asked + [l]), 0, l, false));
      }
    case Return =>
      if s.walk.Some? {
        HeadKind(s.(index := s.index + 1));
      }
    case _ =>
  }

  /** What kind of list it is never changes. */
  lemma {:induction false} RunKind<F(!new), D(!new)>(s: List<F, D>, acts: seq<Act<F, D>>)
    ensures SameKind(s, Run(s, acts))
    decreases |acts|
  {
    hide Step;
    if acts != [] {
      StepKind(s, acts[0]);
      RunKind(Step(s, acts[0]), acts[1..]);
    }
  }

  // ---------- removing ----------

  /** The entries of other functions. */
  function Others<F(==)>(es: seq<Entry<F>>, fns: seq<F>): seq<Entry<F>> {
    if es == [] then [] else (if es[0].fn in fns then [] else [es[0]]) + Others(es[1..], fns)
  }

  lemma {:induction false} OthersSum<F(!new)>(a: seq<Entry<F>>, b: seq<Entry<F>>, fns: seq<F>)
    ensures Others(a + b, fns) == Others(a, fns) + Others(b, fns)
  {
    hide Others;
    OthersHead(a, fns);
    OthersHead(a + b, fns);
    if a == [] {
      assert a + b == b && [] + Others(b, fns) == Others(b, fns);
    } else {
      OthersSum(a[1..], b, fns);
      assert (a + b)[1..] == a[1..] + b;
      var head := if a[0].fn in fns then [] else [a[0]];
      assert head + (Others(a[1..], fns) + Others(b, fns)) == head + Others(a[1..], fns) + Others(b, fns);
    }
  }

  lemma OthersHead<F(!new)>(es: seq<Entry<F>>, fns: seq<F>)
    ensures es == [] ==> Others(es, fns) == []
    ensures es != [] ==> Others(es, fns) == (if es[0].fn in fns then [] else [es[0]]) + Others(es[1..], fns)
    ensures es != [] && es[0].fn in fns ==> Others(es, fns) == Others(es[1..], fns)
  {
  }

  lemma {:induction false} OthersTwice<F(!new)>(es: seq<Entry<F>>, f: F, fns: seq<F>)
    ensures Others(Others(es, [f]), fns) == Others(es, [f] + fns)
  {
    if es != [] {
      OthersTwice(es[1..], f, fns);
      OthersSum(if es[0].fn in [f] then [] else [es[0]], Others(es[1..], [f]), fns);
    }
  }

  lemma {:induction false} OthersOfNone<F(!new)>(es: seq<Entry<F>>)
    ensures Others(es, []) == es
  {
    if es != [] {
      OthersOfNone(es[1..]);
    }
  }

  lemma {:induction false} OthersAre<F(!new)>(es: seq<Entry<F>>, fns: seq<F>)
    ensures forall e :: e in Others(es, fns) <==> e in es && e.fn !in fns
  {
    if es != [] {
      OthersAre(es[1..], fns);
      assert es == [es[0]] + es[1..];
    }
  }

  lemma {:induction false} RemoveFromIs<F(!new), D(!new)>(s: List<F, D>, fn: F, d: nat)
    requires s.entries.Some? && d <= |s.entries.value|
    ensures RemoveFrom(s, fn, d).entries == Some(s.entries.value[..d] + Others(s.entries.value[d..], [fn]))
    decreases |s.entries.value| - d
  {
    hide RemoveAt, Others;
    var es := s.entries.value;
    OthersHead(es[d..], [fn]);
    if d < |es| {
      if es[d].fn == fn {
        RemoveAtEntries(s, d);
        RemoveFromIs(RemoveAt(s, d), fn, d);
        assert Cut(es, d)[..d] == es[..d] && Cut(es, d)[d..] == es[d..][1..];
        assert es[d..][0] == es[d];
      } else {
        RemoveFromIs(s, fn, d + 1);
        assert es[d + 1..] == es[d..][1..];
        assert es[..d + 1] + Others(es[d + 1..], [fn]) == es[..d] + ([es[d]] + Others(es[d + 1..], [fn]));
      }
    } else {
      assert es[..d] + [] == es;
    }
  }

  lemma RemoveAtEntries<F(!new), D(!new)>(s: List<F, D>, d: nat)
    requires s.entries.Some? && d < |s.entries.value|
    ensures RemoveAt(s, d).entries == Some(Cut(s.entries.value, d))
  {
  }

  /** After `remove` the list holds exactly its entries of other functions, in their order. */
  lemma RemoveAllIs<F(!new), D(!new)>(s: List<F, D>, fns: seq<F>)
    requires s.entries.Some?
    ensures RemoveAll(s, fns).entries == Some(Others(s.entries.value, fns))
    ensures forall e :: e in RemoveAll(s, fns).entries.value <==> e in s.entries.value && e.fn !in fns
  {
    hide RemoveAll, Others;
    RemoveAllLeaves(s, fns);
    OthersAre(s.entries.value, fns);
  }

  lemma {:induction false} RemoveAllLeaves<F(!new), D(!new)>(s: List<F, D>, fns: seq<F>)
    requires s.entries.Some?
    ensures RemoveAll(s, fns).entries == Some(Others(s.entries.value, fns))
    decreases |fns|
  {
    hide RemoveFrom, Others;
    if fns == [] {
      OthersOfNone(s.entries.value);
    } else {
      var es, t := s.entries.value, RemoveFrom(s, fns[0], 0);
      RemoveFromIs(s, fns[0], 0);
      assert es[0..] == es && es[..0] + Others(es, [fns[0]]) == Others(es, [fns[0]]);
      RemoveAllLeaves(t, fns[1..]);
      OthersTwice(es, fns[0], fns[1..]);
      assert [fns[0]] + fns[1..] == fns;
    }
  }

  // ---------- who is called ----------

  /** How often a function is called. */
  function Times<F(==), D>(calls: seq<(F, D)>, fn: F): nat {
    if calls == [] then 0
    else Times(calls[..|calls| - 1], fn) + (if calls[|calls| - 1].0 == fn then 1 else 0)
  }

  predicate Unlisted<F(!new, ==), D(!new)>(s: List<F, D>, fn: F) {
    s.entries.Some? ==> forall i :: 0 <= i < |s.entries.value| ==> s.entries.value[i].fn != fn
  }

  lemma TimesSnoc<F(!new), D(!new)>(calls: seq<(F, D)>, c: (F, D), fn: F)
    ensures Times(calls + [c], fn) == Times(calls, fn) + (if c.0 == fn then 1 else 0)
  {
    assert (calls + [c])[..|calls|] == calls;
  }

  /** A turn of the loop adds one call to the record. */
  lemma TurnCalls<F(!new), D(!new)>(s: List<F, D>)
    requires s.walk.Some? && s.entries.Some? && 0 <= s.index < |s.entries.value|
    ensures (var e := s.entries.value[s.index];
             Calls(s.(walk := Some(s.walk.value.(called := s.walk.value.called + [e]))))
             == Calls(s) + [(e.fn, s.walk.value.data)])
  {
    hide CallsOf;
    var w, e := s.walk.value, s.entries.value[s.index];
    assert With(w.called + [e], w.data) == With(w.called, w.data) + [(e.fn, w.data)];
  }

  /** The end of a walk keeps the record. */
  lemma EndCalls<F(!new), D(!new)>(s: List<F, D>)
    requires s.walk.Some?
    ensures Calls(s.(walk := None, passes := s.passes + [s.walk.value])) == Calls(s)
  {
    hide CallsOf;
    var w := s.walk.value;
    CallsSnoc(s.passes, w);
    assert CallsOf(s.passes) + With(w.called, w.data) + [] == CallsOf(s.passes) + With(w.called, w.data);
  }

  lemma {:induction false} TimesPrefix<F(!new), D(!new)>(calls: seq<(F, D)>, more: seq<(F, D)>, fn: F)
    ensures Times(calls, fn) <= Times(calls + more, fn)
    decreases |more|
  {
    if more != [] {
      var init, last := more[..|more| - 1], more[|more| - 1];
      TimesPrefix(calls, init, fn);
      assert calls + more == calls + init + [last];
      TimesSnoc(calls + init, last, fn);
    } else {
      assert calls + [] == calls;
    }
  }

  lemma BeginCalls<F(!new), D(!new)>(s: List<F, D>, from: nat, l: D, replay: bool)
    requires s.entries.Some? && from <= |s.entries.value| && s.walk.None?
    ensures Calls(Begin(s, from, l, replay)) == Calls(s) && Begin(s, from, l, replay).entries == s.entries
  {
  }

  /** A function that is not listed is not called by the loop, which lists nobody. */
  lemma {:induction false} HeadCalls<F(!new), D(!new)>(s: List<F, D>, fn: F)
    requires s.walk.Some? && Unlisted(s, fn)
    ensures Unlisted(Head(s), fn) && Times(Calls(Head(s)), fn) <= Times(Calls(s), fn)
    decreases QueueLength(s)
  {
    hide Times, Calls, Begin, Unlisted;
    if s.entries.None? {
      DroppedCalls(s, fn);
    } else if 0 <= s.index < s.length && s.index < |s.entries.value| {
      TurnCallsOther(s, fn);
    } else {
      EndCalls(s);
      var over := s.(walk := None, passes := s.passes + [s.walk.value]);
      AtRestCalls(s, over, fn);
      if s.queue.Some? && s.queue.value != [] {
        var t := over.(queue := Some(s.queue.value[1..]));
        BeginCalls(t, 0, s.queue.value[0], false);
        AtRestCalls(t, Begin(t, 0, s.queue.value[0], false), fn);
        HeadCalls(Begin(t, 0, s.queue.value[0], false), fn);
      }
    }
  }

  lemma TurnCallsOther<F(!new), D(!new)>(s: List<F, D>, fn: F)
    requires s.walk.Some? && Unlisted(s, fn) && s.entries.Some? && 0 <= s.index < |s.entries.value|
    ensures (var r := s.(walk := Some(s.walk.value.(called := s.walk.value.called + [s.entries.value[s.index]])));
             Unlisted(r, fn) && Times(Calls(r), fn) == Times(Calls(s), fn))
  {
    hide Times, Calls;
    TurnCalls(s);
    TimesSnoc(Calls(s), (s.entries.value[s.index].fn, s.walk.value.data), fn);
  }

  /** Changing the queue, emptying or disabling calls and lists nobody. */
  lemma AtRestCalls<F(!new), D(!new)>(s: List<F, D>, r: List<F, D>, fn: F)
    requires Unlisted(s, fn) && r.entries == s.entries
    ensures Unlisted(r, fn)
    ensures forall q :: Calls(r.(queue := q)) == Calls(r) && Unlisted(r.(queue := q), fn)
    ensures Calls(r.(entries := Some([]))) == Calls(r) && Unlisted(r.(entries := Some([])), fn)
    ensures Calls(DisableList(r)) == Calls(r) && Unlisted(DisableList(r), fn)
  {
  }

  lemma DroppedCalls<F(!new), D(!new)>(s: List<F, D>, fn: F)
    requires s.walk.Some? && Unlisted(s, fn)
    ensures Times(Calls(s.(walk := None)), fn) <= Times(Calls(s), fn) && Unlisted(s.(walk := None), fn)
  {
    TimesPrefix(CallsOf(s.passes), With(s.walk.value.called, s.walk.value.data), fn);
    assert CallsOf(s.passes) + [] == CallsOf(s.passes);
  }

  /** Calls look at the record only. */
  lemma SameCalls<F(!new), D(!new)>(s: List<F, D>)
    ensures forall q :: Calls(s.(queue := q)) == Calls(s)
    ensures forall es :: Calls(s.(entries := es)) == Calls(s)
    ensures forall a :: Calls(s.(asked := a)) == Calls(s)
    ensures forall i :: Calls(s.(index := i)) == Calls(s)
    ensures forall n :: Calls(s.(length := n)) == Calls(s)
    ensures Calls(DisableList(s)) == Calls(s)
  {
  }

  lemma {:induction false} PushAllCalls<F(!new), D(!new)>(s: List<F, D>, fns: seq<F>, fn: F)
    requires s.entries.Some? && Unlisted(s, fn) && fn !in fns
    ensures Unlisted(PushAll(s, fns), fn) && Calls(PushAll(s, fns)) == Calls(s)
    ensures PushAll(s, fns).walk.Some? <==> s.walk.Some?
    ensures PushAll(s, fns).memory == s.memory
    decreases |fns|
  {
    hide Has;
    if fns != [] {
      PushAllCalls(Push(s, fns[0]), fns[1..], fn);
    }
  }

  lemma {:induction false} RemoveCalls<F(!new), D(!new)>(s: List<F, D>, fns: seq<F>)
    ensures Calls(RemoveAll(s, fns)) == Calls(s)
    decreases |fns|
  {
    hide RemoveFrom, Calls;
    if s.entries.Some? && fns != [] {
      RemoveFromCalls(s, fns[0], 0);
      RemoveCalls(RemoveFrom(s, fns[0], 0), fns[1..]);
    }
  }

  lemma {:induction false} RemoveFromCalls<F(!new), D(!new)>(s: List<F, D>, fn: F, d: nat)
    requires s.entries.Some? && d <= |s.entries.value|
    ensures Calls(RemoveFrom(s, fn, d)) == Calls(s)
    decreases |s.entries.value| - d
  {
    if d < |s.entries.value| {
      if s.entries.value[d].fn == fn {
        RemoveFromCalls(RemoveAt(s, d), fn, d);
      } else {
        RemoveFromCalls(s, fn, d + 1);
      }
    }
  }

  /** Once a function is not listed and nobody adds it, no act makes it be called. */
  lemma UnlistedStays<F(!new), D(!new)>(s: List<F, D>, a: Act<F, D>, fn: F)
    requires Unlisted(s, fn) && fn !in AddedBy(a)
    ensures Unlisted(Step(s, a), fn) && Times(Calls(Step(s, a)), fn) <= Times(Calls(s), fn)
  {
    hide Times, Calls, Begin, Head, PushAll, RemoveAll;
    SameCalls(s);
    match a
    case Add(fns) => AddCalls(s, fns, fn);
    case Remove(fns) =>
      RemoveCalls(s, fns);
      if s.entries.Some? {
        RemoveAllIs(s, fns);
        StillUnlisted(s, RemoveAll(s, fns), fn);
      } else {
        NothingToRemove(s, fns);
      }
    case FireWith(l) =>
      var t := s.(asked := s.asked + [l]);
      SameCalls(t);
      if s.entries.Some? && s.walk.None? {
        BeginCalls(t, 0, l, false);
        HeadCalls(Begin(t, 0, l, false), fn);
      }
    case Disable =>
    case Lock =>
    case Return =>
      if s.walk.Some? {
        HeadCalls(s.(index := s.index + 1), fn);
      }
  }

  lemma NothingToRemove<F(!new), D(!new)>(s: List<F, D>, fns: seq<F>)
    requires s.entries.None?
    ensures RemoveAll(s, fns) == s
  {
  }

  lemma StillUnlisted<F(!new), D(!new)>(s: List<F, D>, t: List<F, D>, fn: F)
    requires s.entries.Some? && t.entries.Some? && Unlisted(s, fn)
    requires forall e :: e in t.entries.value ==> e in s.entries.value
    ensures Unlisted(t, fn)
  {
    forall i | 0 <= i < |t.entries.value| ensures t.entries.value[i].fn != fn {
      assert t.entries.value[i] in t.entries.value;
    }
  }

  lemma AddCalls<F(!new), D(!new)>(s: List<F, D>, fns: seq<F>, fn: F)
    requires Unlisted(s, fn) && fn !in fns
    ensures Unlisted(AddAll(s, fns), fn) && Times(Calls(AddAll(s, fns)), fn) <= Times(Calls(s), fn)
  {
    hide Times, Calls, Begin, Head, PushAll;
    if s.entries.Some? {
      PushAllCalls(s, fns, fn);
      var r := PushAll(s, fns);
      SameCalls(r);
      if s.walk.None? && s.memory.Some? {
        BeginCalls(r, |s.entries.value|, s.memory.value, true);
        HeadCalls(Begin(r, |s.entries.value|, s.memory.value, true), fn);
      }
    }
  }

  /** A function that has been removed, and is not added again, is called by no later turn of any run. */
  lemma {:induction false} RemovedNotCalled<F(!new), D(!new)>(s: List<F, D>, fns: seq<F>, acts: seq<Act<F, D>>, fn: F)
    requires fn in fns && fn !in Added(acts)
    ensures (var t := RemoveAll(s, fns);
             && Calls(t) == Calls(s)
             && Times(Calls(Run(t, acts)), fn) <= Times(Calls(s), fn)
             && Unlisted(Run(t, acts), fn))
  {
    hide Run, Times, Calls, RemoveAll;
    RemoveCalls(s, fns);
    if s.entries.Some? {
      RemoveAllIs(s, fns);
    } else {
      NothingToRemove(s, fns);
    }
    assert Unlisted(RemoveAll(s, fns), fn);
    UnlistedRun(RemoveAll(s, fns), acts, fn);
  }

  lemma {:induction false} UnlistedRun<F(!new), D(!new)>(s: List<F, D>, acts: seq<Act<F, D>>, fn: F)
    requires Unlisted(s, fn) && fn !in Added(acts)
    ensures Unlisted(Run(s, acts), fn) && Times(Calls(Run(s, acts)), fn) <= Times(Calls(s), fn)
    decreases |acts|
  {
    hide Step, Times, Calls, Unlisted, AddedBy;
    if acts != [] {
      UnlistedStays(s, acts[0], fn);
      UnlistedRun(Step(s, acts[0]), acts[1..], fn);
    }
  }
}
