/**
 What every run of a callback list keeps, however the callbacks act on the list they are called from.
 */
module CallbackDelivery {
  import opened Wrappers
  import opened CallbackList

  // ---------- sequences of registrations ----------

  predicate Increasing<F(!new)>(es: seq<Entry<F>>) {
    forall i, j :: 0 <= i < j < |es| ==> es[i].id < es[j].id
  }

  predicate Below<F(!new)>(es: seq<Entry<F>>, n: nat) {
    forall i :: 0 <= i < |es| ==> es[i].id < n
  }

  /** Those that were not removed. */
  function Remaining<F(!new)>(due: seq<Entry<F>>, gone: set<nat>): seq<Entry<F>> {
    if due == [] then []
    else
      var init, last := due[..|due| - 1], due[|due| - 1];
      Remaining(init, gone) + (if last.id in gone then [] else [last])
  }

  lemma RemainingSnoc<F(!new)>(due: seq<Entry<F>>, e: Entry<F>, gone: set<nat>)
    ensures Remaining(due + [e], gone) == Remaining(due, gone) + (if e.id in gone then [] else [e])
  {
  }

  lemma {:induction false} RemainingAll<F(!new)>(due: seq<Entry<F>>)
    ensures Remaining(due, {}) == due
  {
    if due != [] {
      RemainingAll(due[..|due| - 1]);
      assert due == due[..|due| - 1] + [due[|due| - 1]];
    }
  }

  lemma InitIncreasing<F(!new)>(due: seq<Entry<F>>)
    requires Increasing(due) && due != []
    ensures Increasing(due[..|due| - 1])
    ensures Below(due[..|due| - 1], due[|due| - 1].id)
  {
  }

  lemma {:induction false} RemainingMembers<F(!new)>(due: seq<Entry<F>>, gone: set<nat>)
    ensures forall e :: e in Remaining(due, gone) <==> e in due && e.id !in gone
  {
    if due != [] {
      var init, last := due[..|due| - 1], due[|due| - 1];
      RemainingMembers(init, gone);
      assert due == init + [last];
    }
  }

  lemma {:induction false} RemainingIncreasing<F(!new)>(due: seq<Entry<F>>, gone: set<nat>)
    requires Increasing(due)
    ensures Increasing(Remaining(due, gone))
  {
    if due != [] {
      var init, last := due[..|due| - 1], due[|due| - 1];
      InitIncreasing(due);
      RemainingIncreasing(init, gone);
      SnocIncreasing(init, gone, last);
    }
  }

  lemma SnocIncreasing<F(!new)>(init: seq<Entry<F>>, gone: set<nat>, last: Entry<F>)
    requires Increasing(Remaining(init, gone)) && Below(init, last.id)
    ensures Increasing(Remaining(init, gone) + [last]) && Increasing(Remaining(init, gone) + [])
  {
    var r := Remaining(init, gone);
    assert r + [] == r;
    RemainingMembers(init, gone);
    forall i | 0 <= i < |r| ensures r[i].id < last.id {
      var e := r[i];
      assert e in r;
      assert e in init;
      var j :| 0 <= j < |init| && init[j] == e;
    }
  }

  /** Membership, and that the order is kept. */
  lemma {:induction false} RemainingIs<F(!new)>(due: seq<Entry<F>>, gone: set<nat>)
    requires Increasing(due)
    ensures forall e :: e in Remaining(due, gone) <==> e in due && e.id !in gone
    ensures Increasing(Remaining(due, gone))
  {
    RemainingMembers(due, gone);
    RemainingIncreasing(due, gone);
  }

  lemma SnocCancel<T>(p: seq<T>, e: T, q: seq<T>, f: T)
    requires p + [e] == q + [f]
    ensures p == q && e == f
  {
    assert (p + [e])[..|p|] == p;
    assert (q + [f])[..|q|] == q;
    assert (p + [e])[|p|] == e && (q + [f])[|q|] == f;
  }

  /** Removing one more takes just that one out. */
  lemma {:induction false} RemainingDrop<F(!new)>(due: seq<Entry<F>>, gone: set<nat>, a: seq<Entry<F>>, x: Entry<F>,
                                                b: seq<Entry<F>>)
    requires Increasing(due) && Remaining(due, gone) == a + [x] + b
    ensures Remaining(due, gone + {x.id}) == a + b
    decreases |due|
  {
    hide Increasing;
    var init, last := due[..|due| - 1], due[|due| - 1];
    InitIncreasing(due);
    if last.id in gone {
      RemainingDrop(init, gone, a, x, b);
    } else if b == [] {
      assert a + [x] + b == a + [x];
      SnocCancel(Remaining(init, gone), last, a, x);
      RemainingSame(init, gone, x.id);
    } else {
      var b0, b1 := b[..|b| - 1], b[|b| - 1];
      assert a + [x] + b == (a + [x] + b0) + [b1];
      SnocCancel(Remaining(init, gone), last, a + [x] + b0, b1);
      RemainingDrop(init, gone, a, x, b0);
      KeptIsEarlier(due, gone, a, x, b0);
      assert a + b0 + [b1] == a + b;
    }
  }

  lemma KeptIsEarlier<F(!new)>(due: seq<Entry<F>>, gone: set<nat>, a: seq<Entry<F>>, x: Entry<F>, b: seq<Entry<F>>)
    requires due != [] && Increasing(due) && Remaining(due[..|due| - 1], gone) == a + [x] + b
    ensures x.id < due[|due| - 1].id
  {
    var init := due[..|due| - 1];
    RemainingIs(init, gone);
    assert (a + [x] + b)[|a|] == x;
    assert x in Remaining(init, gone);
  }

  lemma {:induction false} RemainingSame<F(!new)>(due: seq<Entry<F>>, gone: set<nat>, id: nat)
    requires forall i :: 0 <= i < |due| ==> due[i].id != id
    ensures Remaining(due, gone + {id}) == Remaining(due, gone)
  {
    if due != [] {
      RemainingSame(due[..|due| - 1], gone, id);
    }
  }

  // ---------- the invariant ----------

  /** Registrations stand in the list in the order they were made. */
  ghost predicate ListOk<F(!new), D(!new)>(s: List<F, D>) {
    s.entries.Some? ==> Increasing(s.entries.value) && Below(s.entries.value, s.nextId)
  }

  /**
   The heart of it: with the walk having come up to position `at`, those due and not removed before
   their turn are the ones called so far followed by the rest of the list.
   */
  ghost predicate WalkOk<F(!new), D(!new)>(s: List<F, D>, at: int) {
    s.walk.Some? && s.entries.Some? ==>
      && 0 <= at <= |s.entries.value|
      && Increasing(s.walk.value.due) && Below(s.walk.value.due, s.nextId)
      && (forall x :: x in s.walk.value.gone ==> x < s.nextId)
      && (forall i :: 0 <= i < |s.entries.value| ==> s.entries.value[i].id !in s.walk.value.gone)
      && Remaining(s.walk.value.due, s.walk.value.gone) == s.walk.value.called + s.entries.value[at..]
  }

  ghost predicate LengthOk<F(!new), D(!new)>(s: List<F, D>) {
    s.walk.Some? && s.entries.Some? ==> s.length == |s.entries.value|
  }

  /** A finished walk called all that were due and not removed before their turn, once and in order. */
  ghost predicate Delivered<F(!new), D(!new)>(p: Pass<F, D>) {
    Increasing(p.due) && p.called == Remaining(p.due, p.gone)
  }

  ghost predicate PassesOk<F(!new), D(!new)>(s: List<F, D>) {
    forall i :: 0 <= i < |s.passes| ==> Delivered(s.passes[i])
  }

  /** The data of the walks that were not replays. */
  function FiredData<F(!new), D(!new)>(passes: seq<Pass<F, D>>): seq<D> {
    if passes == [] then []
    else
      var last := passes[|passes| - 1];
      FiredData(passes[..|passes| - 1]) + (if last.replay then [] else [last.data])
  }

  function Under<F(!new), D(!new)>(s: List<F, D>): seq<D> {
    if s.walk.Some? && !s.walk.value.replay then [s.walk.value.data] else []
  }

  /** Fires are carried out in the order they were asked for; none is lost while the queue stands. */
  ghost predicate FiresOk<F(!new), D(!new)>(s: List<F, D>) {
    && (s.entries.Some? ==>
          && FiredData(s.passes) + Under(s) <= s.asked
          && (s.queue.Some? ==> FiredData(s.passes) + Under(s) + s.queue.value == s.asked))
    && (s.entries.Some? && s.walk.None? && s.queue.Some? ==> s.queue.value == [])
    && (!s.fired ==> s.passes == [] && s.asked == [] && s.walk.None?)
    && (!s.fired && s.entries.Some? ==> s.queue.None? ==> s.once)
    && (s.entries.None? ==> s.memory.None? && s.queue.None?)
    && (s.memory.Some? ==> s.fired)
  }

  ghost predicate Inv<F(!new), D(!new)>(s: List<F, D>) {
    ListOk(s) && WalkOk(s, s.index + 1) && LengthOk(s) && PassesOk(s) && FiresOk(s)
  }

  /** The same before a turn of the loop: the callback at the index is still to be called. */
  ghost predicate AtHead<F(!new), D(!new)>(s: List<F, D>) {
    s.walk.Some? && ListOk(s) && WalkOk(s, s.index) && LengthOk(s) && PassesOk(s) && FiresOk(s)
  }

  lemma FiredSnoc<F(!new), D(!new)>(passes: seq<Pass<F, D>>, p: Pass<F, D>)
    ensures FiredData(passes + [p]) == FiredData(passes) + (if p.replay then [] else [p.data])
  {
  }

  /** Beginning a walk on an idle list, with the fire it answers already counted. */
  lemma BeginAtHead<F(!new), D(!new)>(s: List<F, D>, from: nat, l: D, replay: bool)
    requires s.entries.Some? && from <= |s.entries.value| && s.walk.None?
    requires ListOk(s) && PassesOk(s)
    requires FiredData(s.passes) + (if replay then [] else [l]) <= s.asked
    requires s.queue.Some? ==> FiredData(s.passes) + (if replay then [] else [l]) + s.queue.value == s.asked
    ensures AtHead(Begin(s, from, l, replay))
  {
    RemainingAll(s.entries.value[from..]);
  }

  lemma {:induction false} HeadKeeps<F(!new), D(!new)>(s: List<F, D>)
    requires AtHead(s)
    ensures Inv(Head(s))
    decreases QueueLength(s)
  {
    hide AtHead, Inv, Begin;
    if s.entries.None? {
      DisabledEnds(s);
    } else {
      IndexAtHead(s);
      if s.index < s.length {
        CallNext(s);
      } else if s.queue.Some? && s.queue.value != [] {
        NextFire(s);
        var over := s.(walk := None, passes := s.passes + [s.walk.value]);
        HeadKeeps(Begin(over.(queue := Some(s.queue.value[1..])), 0, s.queue.value[0], false));
      } else {
        NothingQueued(s);
      }
    }
  }

  lemma DisabledEnds<F(!new), D(!new)>(s: List<F, D>)
    requires AtHead(s) && s.entries.None?
    ensures Inv(s.(walk := None))
  {
  }

  /** The walk is over and a queued fire starts. */
  lemma NextFire<F(!new), D(!new)>(s: List<F, D>)
    requires AtHead(s) && s.entries.Some? && s.length <= s.index && s.queue.Some? && s.queue.value != []
    ensures (var over := s.(walk := None, passes := s.passes + [s.walk.value]);
             AtHead(Begin(over.(queue := Some(s.queue.value[1..])), 0, s.queue.value[0], false)))
  {
    hide WalkOk, PassesOk, Begin, ListOk, LengthOk, Inv;
    WalkOver(s);
    var over, q := s.(walk := None, passes := s.passes + [s.walk.value]), s.queue.value;
    FirstOfQueue(FiredData(over.passes), q, s.asked);
    SameList(over, over.(queue := Some(q[1..])));
    BeginAtHead(over.(queue := Some(q[1..])), 0, q[0], false);
  }

  /** The walk is over and the list comes to rest. */
  lemma NothingQueued<F(!new), D(!new)>(s: List<F, D>)
    requires AtHead(s) && s.entries.Some? && s.length <= s.index && (s.queue.Some? ==> s.queue.value == [])
    ensures (var over := s.(walk := None, passes := s.passes + [s.walk.value]);
             && (s.queue.Some? ==> Inv(over))
             && (s.memory.Some? ==> Inv(over.(entries := Some([]))))
             && Inv(DisableList(over)))
  {
    hide WalkOk, PassesOk, ListOk, AtHead;
    FiresAtHead(s);
    WalkOver(s);
    var over := s.(walk := None, passes := s.passes + [s.walk.value]);
    NoWalk(over);
    assert FiredData(over.passes) + [] == FiredData(over.passes);
  }

  lemma FiresAtHead<F(!new), D(!new)>(s: List<F, D>)
    requires AtHead(s)
    ensures s.walk.Some? && FiresOk(s)
  {
  }

  lemma IndexAtHead<F(!new), D(!new)>(s: List<F, D>)
    requires AtHead(s) && s.entries.Some?
    ensures s.walk.Some? && 0 <= s.index <= s.length == |s.entries.value|
  {
  }

  lemma FirstOfQueue<D>(before: seq<D>, q: seq<D>, asked: seq<D>)
    requires q != [] && before + q == asked
    ensures before + [q[0]] <= asked && before + [q[0]] + q[1..] == asked
  {
  }

  /** These conditions look at list, numbers and record only. */
  lemma SameList<F(!new), D(!new)>(s: List<F, D>, t: List<F, D>)
    requires s.entries == t.entries && s.nextId == t.nextId && s.passes == t.passes
    ensures ListOk(s) <==> ListOk(t)
    ensures PassesOk(s) <==> PassesOk(t)
  {
  }

  lemma NoWalk<F(!new), D(!new)>(s: List<F, D>)
    requires s.walk.None?
    ensures forall at :: WalkOk(s, at)
    ensures forall at :: WalkOk(s.(entries := Some([])), at)
    ensures forall at :: WalkOk(DisableList(s), at)
    ensures ListOk(s.(entries := Some([]))) && ListOk(DisableList(s))
    ensures PassesOk(s) ==> PassesOk(s.(entries := Some([]))) && PassesOk(DisableList(s))
  {
  }

  lemma CallNext<F(!new), D(!new)>(s: List<F, D>)
    requires AtHead(s) && s.entries.Some? && s.index < s.length
    ensures Inv(s.(walk := Some(s.walk.value.(called := s.walk.value.called + [s.entries.value[s.index]]))))
  {
  }

  lemma WalkOver<F(!new), D(!new)>(s: List<F, D>)
    requires AtHead(s) && s.entries.Some? && s.length <= s.index
    ensures (var over := s.(walk := None, passes := s.passes + [s.walk.value]);
             && PassesOk(over) && ListOk(over) && FiredData(over.passes) == FiredData(s.passes) + Under(s))
  {
    hide Remaining, Increasing;
    var es := s.entries.value;
    assert s.walk.value.called + es[s.index..] == s.walk.value.called;
    FiredSnoc(s.passes, s.walk.value);
  }

  // ---------- the operations keep the invariant ----------

  /** All but the loop's length, which `add` sets last. */
  ghost predicate MostOf<F(!new), D(!new)>(s: List<F, D>) {
    ListOk(s) && WalkOk(s, s.index + 1) && PassesOk(s) && FiresOk(s)
  }

  lemma PushKeeps<F(!new), D(!new)>(s: List<F, D>, fn: F)
    requires s.entries.Some? && MostOf(s)
    ensures MostOf(Push(s, fn))
  {
    hide FiresOk, PassesOk, Remaining, Has;
    if Push(s, fn) != s {
      var e := Entry(fn, s.nextId);
      PushKeepsRecord(s, e);
      if s.walk.Some? {
        RemainingSnoc(s.walk.value.due, e, s.walk.value.gone);
        var es := s.entries.value;
        assert (es + [e])[s.index + 1..] == es[s.index + 1..] + [e];
        assert s.walk.value.called + es[s.index + 1..] + [e] == s.walk.value.called + (es[s.index + 1..] + [e]);
      }
    }
  }

  lemma PushKeepsRecord<F(!new), D(!new)>(s: List<F, D>, e: Entry<F>)
    requires s.entries.Some? && PassesOk(s) && FiresOk(s)
    ensures (var t := s.(entries := Some(s.entries.value + [e]), nextId := s.nextId + 1, pushed := s.pushed + [e],
                         walk := if s.walk.Some? then Some(s.walk.value.(due := s.walk.value.due + [e])) else None);
             PassesOk(t) && FiresOk(t))
  {
  }

  lemma {:induction false} PushAllKeeps<F(!new), D(!new)>(s: List<F, D>, fns: seq<F>)
    requires s.entries.Some? && MostOf(s)
    ensures MostOf(PushAll(s, fns))
    ensures (var r := PushAll(s, fns);
             r.walk.Some? == s.walk.Some? && r.queue == s.queue && r.memory == s.memory && r.asked == s.asked
             && r.passes == s.passes && r.fired == s.fired)
    decreases |fns|
  {
    hide MostOf;
    if fns != [] {
      PushKeeps(s, fns[0]);
      PushAllKeeps(Push(s, fns[0]), fns[1..]);
    }
  }

  lemma AddKeeps<F(!new), D(!new)>(s: List<F, D>, fns: seq<F>)
    requires Inv(s)
    ensures Inv(AddAll(s, fns))
  {
    hide WalkOk, ListOk, PassesOk, Head;
    if s.entries.Some? {
      PushAllKeeps(s, fns);
      var r := PushAll(s, fns);
      if s.walk.Some? {
        LengthSet(r);
      } else if s.memory.Some? {
        assert FiredData(r.passes) + [] == FiredData(r.passes);
        BeginAtHead(r, |s.entries.value|, s.memory.value, true);
        HeadKeeps(Begin(r, |s.entries.value|, s.memory.value, true));
      }
    }
  }

  lemma LengthSet<F(!new), D(!new)>(r: List<F, D>)
    requires r.entries.Some? && MostOf(r)
    ensures Inv(r.(length := |r.entries.value|))
  {
  }

  lemma CutIs<F(!new)>(es: seq<Entry<F>>, d: nat, n: nat)
    requires d < |es| && Increasing(es) && Below(es, n)
    ensures Increasing(Cut(es, d)) && Below(Cut(es, d), n) && es[d].id < n
    ensures forall i :: 0 <= i < |Cut(es, d)| ==> Cut(es, d)[i].id != es[d].id && Cut(es, d)[i] in es
  {
  }

  /** An entry whose turn is still to come: it is no longer due, and nobody else moves. */
  lemma RemoveWaiting<F(!new)>(due: seq<Entry<F>>, gone: set<nat>, called: seq<Entry<F>>, es: seq<Entry<F>>,
                               index: int, d: nat)
    requires -1 <= index < d < |es| && Increasing(due)
    requires Remaining(due, gone) == called + es[index + 1..]
    ensures Remaining(due, gone + {es[d].id}) == called + Cut(es, d)[index + 1..]
  {
    hide Remaining, Increasing;
    var a, b := es[index + 1..d], es[d + 1..];
    assert called + es[index + 1..] == (called + a) + [es[d]] + b;
    RemainingDrop(due, gone, called + a, es[d], b);
    assert called + a + b == called + Cut(es, d)[index + 1..];
  }

  lemma NotGone<F(!new)>(es: seq<Entry<F>>, d: nat, gone: set<nat>)
    requires d < |es| && Increasing(es) && forall i :: 0 <= i < |es| ==> es[i].id !in gone
    ensures forall i :: 0 <= i < |Cut(es, d)| ==> Cut(es, d)[i].id !in gone + {es[d].id}
  {
  }

  lemma CutTail<T>(es: seq<T>, d: nat, index: int)
    requires d <= index < |es|
    ensures Cut(es, d)[index..] == es[index + 1..]
  {
  }

  /** Taking out an entry corrects index and length so that nobody is skipped or called again. */
  lemma RemoveAtKeeps<F(!new), D(!new)>(s: List<F, D>, d: nat)
    requires s.entries.Some? && d < |s.entries.value| && Inv(s)
    ensures Inv(RemoveAt(s, d))
  {
    hide FiresOk, PassesOk, WalkOk;
    CutIs(s.entries.value, d, s.nextId);
    RemoveAtRecord(s, d);
    RemoveAtWalk(s, d);
  }

  lemma RemoveAtWalk<F(!new), D(!new)>(s: List<F, D>, d: nat)
    requires s.entries.Some? && d < |s.entries.value| && ListOk(s) && LengthOk(s) && WalkOk(s, s.index + 1)
    ensures WalkOk(RemoveAt(s, d), RemoveAt(s, d).index + 1) && LengthOk(RemoveAt(s, d))
  {
    hide WalkOk, Cut, Remaining, Increasing, Below;
    if s.walk.Some? {
      if d > s.index {
        RemoveAhead(s, d);
      } else {
        RemoveBehind(s, d);
      }
    } else {
      NoWalk(RemoveAt(s, d));
    }
  }

  /** The entry's turn is still to come. */
  lemma RemoveAhead<F(!new), D(!new)>(s: List<F, D>, d: nat)
    requires s.entries.Some? && s.walk.Some? && s.index < d < |s.entries.value|
    requires ListOk(s) && LengthOk(s) && WalkOk(s, s.index + 1)
    ensures WalkOk(RemoveAt(s, d), s.index + 1)
  {
    hide Remaining, Increasing, Below, Cut;
    var es, w := s.entries.value, s.walk.value;
    CutIs(es, d, s.nextId);
    NotGone(es, d, w.gone);
    RemoveWaiting(w.due, w.gone, w.called, es, s.index, d);
  }

  /** The entry has been called, or was there before the walk began. */
  lemma RemoveBehind<F(!new), D(!new)>(s: List<F, D>, d: nat)
    requires s.entries.Some? && s.walk.Some? && d < |s.entries.value| && d <= s.index
    requires ListOk(s) && LengthOk(s) && WalkOk(s, s.index + 1)
    ensures WalkOk(RemoveAt(s, d), s.index)
  {
    hide Remaining, Increasing, Below, Cut;
    var es, w := s.entries.value, s.walk.value;
    CutIs(es, d, s.nextId);
    NotGone(es, d, w.gone);
    CutTail(es, d, s.index);
  }

  lemma RemoveAtRecord<F(!new), D(!new)>(s: List<F, D>, d: nat)
    requires s.entries.Some? && d < |s.entries.value| && PassesOk(s) && FiresOk(s)
    ensures PassesOk(RemoveAt(s, d)) && FiresOk(RemoveAt(s, d))
  {
  }

  lemma {:induction false} RemoveFromKeeps<F(!new), D(!new)>(s: List<F, D>, fn: F, d: nat)
    requires s.entries.Some? && d <= |s.entries.value| && Inv(s)
    ensures Inv(RemoveFrom(s, fn, d))
    decreases |s.entries.value| - d
  {
    hide Inv, RemoveAt;
    if d < |s.entries.value| {
      if s.entries.value[d].fn == fn {
        RemoveAtKeeps(s, d);
        RemoveFromKeeps(RemoveAt(s, d), fn, d);
      } else {
        RemoveFromKeeps(s, fn, d + 1);
      }
    }
  }

  lemma {:induction false} RemoveKeeps<F(!new), D(!new)>(s: List<F, D>, fns: seq<F>)
    requires Inv(s)
    ensures Inv(RemoveAll(s, fns))
    decreases |fns|
  {
    hide Inv, RemoveFrom;
    if s.entries.Some? && fns != [] {
      RemoveFromKeeps(s, fns[0], 0);
      RemoveKeeps(RemoveFrom(s, fns[0], 0), fns[1..]);
    }
  }

  lemma FireKeeps<F(!new), D(!new)>(s: List<F, D>, l: D)
    requires Inv(s)
    ensures Inv(Fire(s, l))
  {
    hide WalkOk, ListOk, PassesOk, Head, Begin;
    if s.entries.Some? && (!s.fired || s.queue.Some?) {
      var t := s.(asked := s.asked + [l]);
      SameList(s, t);
      if s.walk.None? {
        BeginAtHead(t, 0, l, false);
        HeadKeeps(Begin(t, 0, l, false));
      } else if s.queue.Some? {
        QueueKeeps(s, l);
      }
    }
  }

  lemma QueueKeeps<F(!new), D(!new)>(s: List<F, D>, l: D)
    requires Inv(s) && s.entries.Some? && s.walk.Some? && s.queue.Some?
    ensures Inv(s.(asked := s.asked + [l], queue := Some(s.queue.value + [l])))
  {
    hide WalkOk, ListOk, PassesOk;
    var u := s.(asked := s.asked + [l], queue := Some(s.queue.value + [l]));
    SameList(s, u);
    SameWalk(s, u);
    assert FiredData(s.passes) + Under(s) + (s.queue.value + [l])
        == FiredData(s.passes) + Under(s) + s.queue.value + [l];
  }

  lemma SameWalk<F(!new), D(!new)>(s: List<F, D>, t: List<F, D>)
    requires s.entries == t.entries && s.nextId == t.nextId && s.walk == t.walk
    ensures forall at :: WalkOk(s, at) <==> WalkOk(t, at)
  {
  }

  lemma DisableKeeps<F(!new), D(!new)>(s: List<F, D>)
    requires Inv(s)
    ensures Inv(DisableList(s))
  {
  }

  lemma LockKeeps<F(!new), D(!new)>(s: List<F, D>)
    requires Inv(s)
    ensures Inv(LockList(s))
  {
    hide WalkOk, ListOk, PassesOk;
    if s.memory.None? {
      DisableKeeps(s);
    } else {
      SameList(s, s.(queue := None));
      SameWalk(s, s.(queue := None));
    }
  }

  lemma ResumeKeeps<F(!new), D(!new)>(s: List<F, D>)
    requires Inv(s)
    ensures Inv(Resume(s))
  {
    hide WalkOk, ListOk, PassesOk, Head;
    if s.walk.Some? {
      var t := s.(index := s.index + 1);
      SameList(s, t);
      SameWalk(s, t);
      HeadKeeps(t);
    }
  }

  lemma StepKeeps<F(!new), D(!new)>(s: List<F, D>, a: Act<F, D>)
    requires Inv(s)
    ensures Inv(Step(s, a))
  {
    hide Inv, AddAll, RemoveAll, Fire, DisableList, LockList, Resume;
    match a
    case Add(fns) => AddKeeps(s, fns);
    case Remove(fns) => RemoveKeeps(s, fns);
    case FireWith(l) => FireKeeps(s, l);
    case Disable => DisableKeeps(s);
    case Lock => LockKeeps(s);
    case Return => ResumeKeeps(s);
  }

  lemma {:induction false} RunKeeps<F(!new), D(!new)>(s: List<F, D>, acts: seq<Act<F, D>>)
    requires Inv(s)
    ensures Inv(Run(s, acts))
    decreases |acts|
  {
    hide Inv, Step;
    if acts != [] {
      StepKeeps(s, acts[0]);
      RunKeeps(Step(s, acts[0]), acts[1..]);
    }
  }

  lemma InitOk<F(!new), D(!new)>(once: bool, remembers: bool, unique: bool)
    ensures Inv(Init<F, D>(once, remembers, unique))
  {
  }

  // ---------- what this means for the callbacks ----------

  lemma ReachableInv<F(!new), D(!new)>(once: bool, remembers: bool, unique: bool, acts: seq<Act<F, D>>)
    ensures Inv(Run(Init<F, D>(once, remembers, unique), acts))
  {
    hide Inv;
    InitOk<F, D>(once, remembers, unique);
    RunKeeps(Init<F, D>(once, remembers, unique), acts);
  }

  /**
   In every run, a finished walk has called each entry that was due and not removed before its turn
   exactly once, and nobody else; and it called them in the order of registration.
   */
  lemma EachDueCalledOnce<F(!new), D(!new)>(once: bool, remembers: bool, unique: bool, acts: seq<Act<F, D>>, k: nat,
                                            e: Entry<F>)
    requires k < |Run(Init<F, D>(once, remembers, unique), acts).passes|
    ensures (var p := Run(Init<F, D>(once, remembers, unique), acts).passes[k];
             && (e in p.called <==> e in p.due && e.id !in p.gone)
             && multiset(p.called)[e] <= 1
             && Increasing(p.called))
  {
    hide Run;
    ReachableInv<F, D>(once, remembers, unique, acts);
    var p := Run(Init<F, D>(once, remembers, unique), acts).passes[k];
    RemainingIs(p.due, p.gone);
    AtMostOnce(p.called, e);
  }

  lemma {:induction false} AtMostOnce<F(!new)>(es: seq<Entry<F>>, e: Entry<F>)
    requires Increasing(es)
    ensures multiset(es)[e] <= 1
  {
    if es != [] {
      var init, last := es[..|es| - 1], es[|es| - 1];
      assert es == init + [last];
      AtMostOnce(init, e);
      if e == last {
        assert e !in init;
      }
    }
  }

  /**
   At any moment of a walk, of those due the ones at positions up to the index have been called, the
   ones behind it have not, and nobody has been called twice.
   */
  lemma IndexDivides<F(!new), D(!new)>(once: bool, remembers: bool, unique: bool, acts: seq<Act<F, D>>, i: nat)
    requires (var s := Run(Init<F, D>(once, remembers, unique), acts);
              s.walk.Some? && s.entries.Some? && i < |s.entries.value|)
    ensures (var s := Run(Init<F, D>(once, remembers, unique), acts);
             && -1 <= s.index < |s.entries.value|
             && (s.entries.value[i] in s.walk.value.due && i <= s.index ==> s.entries.value[i] in s.walk.value.called)
             && (s.index < i ==> s.entries.value[i] !in s.walk.value.called)
             && Increasing(s.walk.value.called))
  {
    hide Run;
    ReachableInv<F, D>(once, remembers, unique, acts);
    var s := Run(Init<F, D>(once, remembers, unique), acts);
    var w, es := s.walk.value, s.entries.value;
    RemainingIs(w.due, w.gone);
    PositionSplits(w.called, es, s.index, i);
    if es[i] in w.due && i <= s.index {
      assert es[i] in w.called + es[s.index + 1..];
    }
  }

  lemma PositionSplits<F(!new)>(called: seq<Entry<F>>, es: seq<Entry<F>>, index: int, i: nat)
    requires -1 <= index < |es| && i < |es| && Increasing(es) && Increasing(called + es[index + 1..])
    ensures i <= index ==> es[i] !in es[index + 1..]
    ensures index < i ==> es[i] !in called
    ensures Increasing(called)
  {
    var all := called + es[index + 1..];
    assert forall j :: 0 <= j < |called| ==> all[j] == called[j];
    if index < i {
      assert all[|called| + i - index - 1] == es[i];
    }
  }

  /** Fires are carried out in the order asked for; without lock and disable, an idle list owes none. */
  lemma FiresInOrder<F(!new), D(!new)>(once: bool, remembers: bool, unique: bool, acts: seq<Act<F, D>>)
    ensures (var s := Run(Init<F, D>(once, remembers, unique), acts);
             s.entries.Some? ==>
               && FiredData(s.passes) + Under(s) <= s.asked
               && (s.walk.None? && s.queue.Some? ==> FiredData(s.passes) == s.asked))
  {
    hide Run;
    ReachableInv<F, D>(once, remembers, unique, acts);
    var s := Run(Init<F, D>(once, remembers, unique), acts);
    if s.entries.Some? && s.walk.None? && s.queue.Some? {
      assert FiredData(s.passes) + [] + [] == FiredData(s.passes);
    }
  }

  /** Once disabled, a list stays so: no walk begins or is finished, and nobody is called any more. */
  lemma DisabledForGood<F(!new), D(!new)>(s: List<F, D>, a: Act<F, D>)
    requires s.entries.None?
    ensures Step(s, a).entries.None? && Step(s, a).passes == s.passes
    ensures Step(s, a).walk == s.walk || Step(s, a).walk == None
  {
  }
}
