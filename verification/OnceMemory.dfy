/**
 A callback list of the kind "once memory", as the done and fail lists of a Deferred are: it fires at
 most once, and whoever registers later is called with the remembered data.
 */
module OnceMemory {
  import opened Wrappers
  import opened CallbackList

  /** Calls of these registrations with the same data. */
  function With<F, D>(es: seq<Entry<F>>, l: D): (r: seq<(F, D)>)
    ensures |r| == |es|
  {
    seq(|es|, i requires 0 <= i < |es| => (es[i].fn, l))
  }

  /** The calls of finished walks, in order. */
  function CallsOf<F, D>(passes: seq<Pass<F, D>>): seq<(F, D)> {
    if passes == [] then []
    else CallsOf(passes[..|passes| - 1]) + With(passes[|passes| - 1].called, passes[|passes| - 1].data)
  }

  /** Every call made on a list so far: function and data. */
  function Calls<F, D>(s: List<F, D>): seq<(F, D)> {
    CallsOf(s.passes) + (if s.walk.Some? then With(s.walk.value.called, s.walk.value.data) else [])
  }

  /** Those the walk under way is still to call. */
  function Coming<F, D>(s: List<F, D>): seq<Entry<F>> {
    if s.walk.Some? && s.entries.Some? && 0 <= s.index + 1 <= |s.entries.value| then s.entries.value[s.index + 1..]
    else []
  }

  lemma WithSum<F, D>(a: seq<Entry<F>>, b: seq<Entry<F>>, l: D)
    ensures With(a + b, l) == With(a, l) + With(b, l)
  {
  }

  lemma CallsSnoc<F, D>(passes: seq<Pass<F, D>>, p: Pass<F, D>)
    ensures CallsOf(passes + [p]) == CallsOf(passes) + With(p.called, p.data)
  {
  }

  /** Such a list that has not fired: registrations only gather. */
  ghost predicate Unfired<F(!new), D(!new)>(s: List<F, D>) {
    && s.once && s.remembers && !s.unique && !s.fired
    && s.entries == Some(s.pushed) && s.queue.None? && s.memory.None? && s.walk.None? && s.passes == []
  }

  /** One that was disabled before it fired. */
  ghost predicate Dead<F(!new), D(!new)>(s: List<F, D>) {
    s.entries.None? && s.walk.None? && s.passes == [] && s.memory.None? && s.queue.None?
  }

  /** What fired lists have in common at rest, in a walk, and before a turn of the loop. */
  ghost predicate FiredWith<F(!new), D(!new)>(s: List<F, D>, l: D) {
    && s.once && s.remembers && !s.unique && s.fired
    && s.entries.Some? && s.queue.None? && s.memory == Some(l)
    && (s.walk.Some? ==> s.length == |s.entries.value| && s.walk.value.data == l)
  }

  /**
   One that has fired with l: all that were ever registered have been called with l, in order, up to
   those that the walk under way is still to call.
   */
  ghost predicate Fired<F(!new), D(!new)>(s: List<F, D>, l: D) {
    && FiredWith(s, l)
    && (s.walk.None? ==> s.entries.value == [])
    && (s.walk.Some? ==> 0 <= s.index < |s.entries.value| && s.walk.value.called != []
                         && s.walk.value.called[|s.walk.value.called| - 1] == s.entries.value[s.index])
    && Calls(s) + With(Coming(s), l) == With(s.pushed, l)
  }

  ghost predicate BeforeTurn<F(!new), D(!new)>(s: List<F, D>, l: D) {
    && FiredWith(s, l) && s.walk.Some? && 0 <= s.index <= |s.entries.value|
    && Calls(s) + With(s.entries.value[s.index..], l) == With(s.pushed, l)
  }

  lemma TurnFired<F(!new), D(!new)>(s: List<F, D>, l: D)
    requires BeforeTurn(s, l)
    ensures Fired(Head(s), l)
    ensures Head(s).pushed == s.pushed && Head(s).nextId == s.nextId
    ensures s.index < |s.entries.value| ==>
              Head(s).walk.Some? && Head(s).index == s.index && Head(s).entries == s.entries
    ensures s.index == |s.entries.value| ==> Head(s).walk.None?
  {
    var es, w := s.entries.value, s.walk.value;
    if s.index < s.length {
      assert es[s.index..] == [es[s.index]] + es[s.index + 1..];
      WithSum([es[s.index]], es[s.index + 1..], l);
      WithSum(w.called, [es[s.index]], l);
      assert CallsOf(s.passes) + (With(w.called, l) + With([es[s.index]], l)) + With(es[s.index + 1..], l)
          == CallsOf(s.passes) + With(w.called, l) + (With([es[s.index]], l) + With(es[s.index + 1..], l));
    } else {
      CallsSnoc(s.passes, w);
      assert CallsOf(s.passes) + With(w.called, l) + [] + [] == CallsOf(s.passes) + With(w.called, l) + [];
    }
  }

  lemma ResumeFired<F(!new), D(!new)>(s: List<F, D>, l: D)
    requires Fired(s, l)
    ensures Fired(Resume(s), l) && Resume(s).pushed == s.pushed
    ensures s.walk.Some? && s.index + 1 < |s.entries.value| ==>
              Resume(s).walk.Some? && Resume(s).index == s.index + 1 && Resume(s).entries == s.entries
    ensures !(s.walk.Some? && s.index + 1 < |s.entries.value|) ==> Resume(s).walk.None?
  {
    if s.walk.Some? {
      TurnFired(s.(index := s.index + 1), l);
    }
  }

  /** The first fire. */
  lemma FireUnfired<F(!new), D(!new)>(s: List<F, D>, l: D)
    requires Unfired(s)
    ensures Fired(Fire(s, l), l) && Fire(s, l).pushed == s.pushed
    ensures s.pushed != [] ==> Fire(s, l).walk.Some? && Fire(s, l).index == 0 && Fire(s, l).entries == s.entries
  {
    var t := Begin(s.(asked := s.asked + [l]), 0, l, false);
    assert [] + With(s.pushed, l) == With(s.pushed, l);
    assert s.pushed[0..] == s.pushed;
    TurnFired(t, l);
  }

  /** Any further fire of a fired or dead list changes nothing at all. */
  lemma FireAgain<F(!new), D(!new)>(s: List<F, D>, l: D, m: D)
    requires Fired(s, l) || Dead(s)
    ensures Fire(s, m) == s
  {
  }

  /** Registering gathers; the entries are the functions given, in order. */
  lemma {:induction false} PushAllIs<F(!new), D(!new)>(s: List<F, D>, fns: seq<F>) returns (added: seq<Entry<F>>)
    requires s.entries.Some? && !s.unique
    ensures Fns(added) == fns
    ensures PushAll(s, fns).entries.value == s.entries.value + added && PushAll(s, fns).pushed == s.pushed + added
    ensures (var r := PushAll(s, fns);
             && r.walk.Some? == s.walk.Some?
             && (s.walk.Some? ==> r.walk.value.data == s.walk.value.data && r.walk.value.called == s.walk.value.called)
             && r == s.(entries := r.entries, nextId := r.nextId, walk := r.walk, pushed := r.pushed))
    decreases |fns|
  {
    if fns == [] {
      added := [];
      assert s.entries.value + [] == s.entries.value && s.pushed + [] == s.pushed;
    } else {
      var rest := PushAllIs(Push(s, fns[0]), fns[1..]);
      var e := Entry(fns[0], s.nextId);
      added := [e] + rest;
      assert s.entries.value + [e] + rest == s.entries.value + added;
      assert s.pushed + [e] + rest == s.pushed + added;
    }
  }

  /** Functions of registrations. */
  function Fns<F>(es: seq<Entry<F>>): (r: seq<F>)
    ensures |r| == |es|
  {
    seq(|es|, i requires 0 <= i < |es| => es[i].fn)
  }

  /** A list that is not disabled records every registration, in any phase. */
  lemma AddUnfired<F(!new), D(!new)>(s: List<F, D>, fns: seq<F>)
    requires Unfired(s)
    ensures Unfired(AddAll(s, fns)) && Fns(AddAll(s, fns).pushed) == Fns(s.pushed) + fns
  {
    var added := PushAllIs(s, fns);
    assert Fns(s.pushed + added) == Fns(s.pushed) + fns;
  }

  /** After the fire, newcomers join the walk under way or are called at once, with the same data. */
  lemma AddFired<F(!new), D(!new)>(s: List<F, D>, fns: seq<F>, l: D)
    requires Fired(s, l)
    ensures Fired(AddAll(s, fns), l) && Fns(AddAll(s, fns).pushed) == Fns(s.pushed) + fns
    ensures s.walk.Some? ==> AddAll(s, fns).walk.Some?
  {
    var added := PushAllIs(s, fns);
    var r := PushAll(s, fns);
    assert Fns(s.pushed + added) == Fns(s.pushed) + fns;
    if s.walk.Some? {
      JoinWalk(s, r, added, l);
    } else {
      assert s.entries.value + added == added && r.walk == s.walk;
      StartWalk(s, r, added, l);
    }
  }

  lemma StartWalk<F(!new), D(!new)>(s: List<F, D>, r: List<F, D>, added: seq<Entry<F>>, l: D)
    requires Fired(s, l) && s.walk.None?
    requires r == s.(entries := Some(added), nextId := r.nextId, pushed := s.pushed + added)
    ensures Fired(Head(Begin(r, 0, l, true)), l) && Head(Begin(r, 0, l, true)).pushed == r.pushed
  {
    WithSum(s.pushed, added, l);
    assert added[0..] == added;
    assert Calls(s) + [] == Calls(s);
    assert CallsOf(s.passes) + [] + With(added, l) == With(r.pushed, l);
    TurnFired(Begin(r, 0, l, true), l);
  }

  lemma JoinWalk<F(!new), D(!new)>(s: List<F, D>, r: List<F, D>, added: seq<Entry<F>>, l: D)
    requires Fired(s, l) && s.walk.Some? && r.walk.Some? && r.entries.Some?
    requires r.entries.value == s.entries.value + added && r.pushed == s.pushed + added
    requires r.walk.value.data == s.walk.value.data && r.walk.value.called == s.walk.value.called
    requires r == s.(entries := r.entries, nextId := r.nextId, walk := r.walk, pushed := r.pushed)
    ensures Fired(r.(length := |r.entries.value|), l)
  {
    var es := s.entries.value;
    assert (es + added)[s.index + 1..] == es[s.index + 1..] + added;
    WithSum(es[s.index + 1..], added, l);
    WithSum(s.pushed, added, l);
    assert Calls(s) + (With(es[s.index + 1..], l) + With(added, l))
        == Calls(s) + With(es[s.index + 1..], l) + With(added, l);
  }
}
