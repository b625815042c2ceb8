/**
 What `when` makes of the events of a run: which inputs have settled, with what the first rejection was, and what
 the last reports were.
 */
module WhenHistory {
  import opened Wrappers
  import opened When
  import D = Deferred
  import Notifications
  import OnceMemory

  // ---------- inputs ----------

  /** The event that settles input i, and how it leaves it. */
  function SettledBy<C, V>(e: Event<C, V>, i: nat): Option<Status<C, V>> {
    match e
    case InputResolved(j, ctx, args) => if i == j then Some(Resolved(ctx, args)) else None
    case InputRejected(j, ctx, args) => if i == j then Some(Rejected(ctx, args)) else None
    case _ => None
  }

  /** An input is what it was at the call of `when`, or what the one event since then that settles it says. */
  lemma {:induction false} InputsFollowEvents<C(!new), V(!new)>(inputs: seq<Input<C, V>>, states: seq<State<C, V>>,
                                                                events: seq<Event<C, V>>, k: nat, i: nat)
    requires IsRun(inputs, states, events) && k < |states| && i < |inputs|
    ensures |states[k].inputs| == |inputs|
    ensures forall j :: 0 <= j < k && SettledBy(events[j], i).Some? ==>
              && inputs[i].Promise? && inputs[i].now.Awaiting?
              && states[k].inputs[i] == Promise(SettledBy(events[j], i).value, inputs[i].before)
    ensures (forall j :: 0 <= j < k ==> SettledBy(events[j], i).None?) ==> states[k].inputs[i] == inputs[i]
  {
    hide Started, Inv, Step;
    if k == 0 {
      StartedOk(inputs);
    } else {
      InputsFollowEvents(inputs, states, events, k - 1, i);
      OneInput(states[k - 1], events[k - 1], i);
    }
  }

  lemma OneInput<C(!new), V(!new)>(w: State<C, V>, e: Event<C, V>, i: nat)
    requires CanHappen(w, e) && i < |w.inputs|
    ensures |Step(w, e).inputs| == |w.inputs|
    ensures SettledBy(e, i).None? ==> Step(w, e).inputs[i] == w.inputs[i]
    ensures SettledBy(e, i).Some? ==>
              && w.inputs[i].Promise? && w.inputs[i].now.Awaiting?
              && Step(w, e).inputs[i] == Promise(SettledBy(e, i).value, w.inputs[i].before)
  {
    hide D.Step;
  }

  // ---------- the reason ----------

  /** The first rejection decides: that of the first input rejected before the call, or else of the first event. */
  lemma {:induction false} FirstRejection<C(!new), V(!new)>(inputs: seq<Input<C, V>>, states: seq<State<C, V>>,
                                                            events: seq<Event<C, V>>, k: nat)
    requires IsRun(inputs, states, events) && k < |states|
    ensures states[0].reason == ReasonOf(inputs)
    ensures states[0].reason.Some? ==> states[k].reason == states[0].reason
    ensures forall j :: 0 <= j < k && events[j].InputRejected? && states[0].reason.None?
                        && (forall h :: 0 <= h < j ==> !events[h].InputRejected?) ==>
              states[k].reason == Some(Reason(events[j].ctx, events[j].args))
    ensures (forall j :: 0 <= j < k ==> !events[j].InputRejected?) ==> states[k].reason == states[0].reason
  {
    hide Started, Inv, Step;
    ReasonAtStart(inputs);
    if k > 0 {
      FirstRejection(inputs, states, events, k - 1);
      OneReason(states[k - 1], events[k - 1]);
    }
  }

  /** The reason of the first input that is rejected. */
  function ReasonOf<C, V>(inputs: seq<Input<C, V>>): Option<Message<C, V>> {
    if inputs == [] then None
    else if inputs[0].Promise? && inputs[0].now.Rejected? then Some(Reason(inputs[0].now.ctx, inputs[0].now.args))
    else ReasonOf(inputs[1..])
  }

  lemma OneReason<C(!new), V(!new)>(w: State<C, V>, e: Event<C, V>)
    requires CanHappen(w, e)
    ensures w.reason.Some? || !e.InputRejected? ==> Step(w, e).reason == w.reason
    ensures w.reason.None? && e.InputRejected? ==> Step(w, e).reason == Some(Reason(e.ctx, e.args))
  {
    hide D.Step;
  }

  lemma ReasonAtStart<C(!new), V(!new)>(inputs: seq<Input<C, V>>)
    requires !Lone(inputs)
    ensures Started(inputs).reason == ReasonOf(inputs)
  {
    hide D.Step, D.Init, SetUpFrom;
    if |inputs| > 1 {
      ReasonFrom(Initial(inputs), 0);
      assert inputs[0..] == inputs;
    }
  }

  lemma {:induction false} ReasonFrom<C(!new), V(!new)>(w: State<C, V>, b: nat)
    requires Shaped(w) && b <= |w.inputs|
    ensures SetUpFrom(w, b).reason == if w.reason.Some? then w.reason else ReasonOf(w.inputs[b..])
    decreases |w.inputs| - b
  {
    hide SetUp;
    if b < |w.inputs| {
      SetUpReason(w, b);
      ReasonFrom(SetUp(w, b), b + 1);
      assert w.inputs[b..][1..] == w.inputs[b + 1..];
    }
  }

  lemma SetUpReason<C(!new), V(!new)>(w: State<C, V>, b: nat)
    requires Shaped(w) && b < |w.inputs|
    ensures SetUp(w, b).reason
         == if w.reason.None? && w.inputs[b].Promise? && w.inputs[b].now.Rejected?
            then Some(Reason(w.inputs[b].now.ctx, w.inputs[b].now.args)) else w.reason
  {
    hide D.Step;
  }

  // ---------- reports ----------

  /** The last report of input i: among the first k events, or before the call of `when`. */
  function LastReport<C, V>(inputs: seq<Input<C, V>>, events: seq<Event<C, V>>, k: nat, i: nat): Option<(C, seq<V>)>
    requires k <= |events| && i < |inputs|
  {
    if k == 0 then if inputs[i].Promise? then inputs[i].before else None
    else
      match events[k - 1]
      case InputReports(j, ctx, args) =>
        if i == j then Some((ctx, args)) else LastReport(inputs, events, k - 1, i)
      case _ => LastReport(inputs, events, k - 1, i)
  }

  /** This report stands in the arrays; if there is none, nothing does. */
  ghost predicate Stands<C(!new), V(!new)>(report: Option<(C, seq<V>)>, ctx: Option<C>, slot: Slot<V>) {
    match report
    case None => ctx == None && slot == Hole
    case Some((c, args)) => ctx == Some(c) && Handed(args, slot)
  }

  /** At every moment of every run the arrays for progress hold the last report of each input, and nothing else. */
  lemma {:induction false} LastReportsStand<C(!new), V(!new)>(inputs: seq<Input<C, V>>, states: seq<State<C, V>>,
                                                              events: seq<Event<C, V>>, k: nat, i: nat)
    requires IsRun(inputs, states, events) && k < |states| && i < |inputs|
    ensures |states[k].progressContexts| == |states[k].progressValues| == |inputs|
    ensures Stands(LastReport(inputs, events, k, i), states[k].progressContexts[i], states[k].progressValues[i])
  {
    hide Started, Step, Stands;
    if k == 0 {
      ReportsAtStart(inputs, i);
    } else {
      LastReportsStand(inputs, states, events, k - 1, i);
      OneReport(states[k - 1], events[k - 1], i, LastReport(inputs, events, k - 1, i));
    }
  }

  lemma OneReport<C(!new), V(!new)>(w: State<C, V>, e: Event<C, V>, i: nat, report: Option<(C, seq<V>)>)
    requires CanHappen(w, e) && i < |w.inputs| && Stands(report, w.progressContexts[i], w.progressValues[i])
    ensures (var r := Step(w, e);
             && |r.progressContexts| == |r.progressValues| == |w.inputs|
             && Stands(if e.InputReports? && e.i == i then Some((e.ctx, e.args)) else report,
                       r.progressContexts[i], r.progressValues[i]))
  {
    hide D.Step;
  }

  lemma ReportsAtStart<C(!new), V(!new)>(inputs: seq<Input<C, V>>, i: nat)
    requires !Lone(inputs) && i < |inputs|
    ensures |Started(inputs).progressContexts| == |Started(inputs).progressValues| == |inputs|
    ensures Stands(if inputs[i].Promise? then inputs[i].before else None,
                   Started(inputs).progressContexts[i], Started(inputs).progressValues[i])
  {
    hide D.Step, D.Init, SetUpFrom;
    if |inputs| > 1 {
      ReportsFrom(Initial(inputs), 0, i);
    }
  }

  lemma {:induction false} ReportsFrom<C(!new), V(!new)>(w: State<C, V>, b: nat, i: nat)
    requires Shaped(w) && b <= |w.inputs| && i < |w.inputs|
    requires Stands(if w.inputs[i].Promise? && i < b then w.inputs[i].before else None,
                    w.progressContexts[i], w.progressValues[i])
    ensures (var r := SetUpFrom(w, b);
             Stands(if w.inputs[i].Promise? then w.inputs[i].before else None,
                    r.progressContexts[i], r.progressValues[i]))
    decreases |w.inputs| - b
  {
    hide SetUp, Stands;
    if b < |w.inputs| {
      SetUpReport(w, b, i);
      ReportsFrom(SetUp(w, b), b + 1, i);
    }
  }

  lemma SetUpReport<C(!new), V(!new)>(w: State<C, V>, b: nat, i: nat)
    requires Shaped(w) && b < |w.inputs| && i < |w.inputs|
    requires Stands(if w.inputs[i].Promise? && i < b then w.inputs[i].before else None,
                    w.progressContexts[i], w.progressValues[i])
    ensures (var r := SetUp(w, b);
             Stands(if w.inputs[i].Promise? && i < b + 1 then w.inputs[i].before else None,
                    r.progressContexts[i], r.progressValues[i]))
  {
    hide D.Step;
  }

  /** Each report notifies the master with the arrays that now hold it, and does nothing else. */
  lemma ReportNotifies<C(!new), V(!new)>(inputs: seq<Input<C, V>>, states: seq<State<C, V>>,
                                         events: seq<Event<C, V>>, k: nat)
    requires IsRun(inputs, states, events) && k < |events| && events[k].InputReports? && events[k].i < |inputs|
    ensures (var w, r, e := states[k], states[k + 1], events[k];
             && |r.progressContexts| == |r.progressValues| == |inputs|
             && Stands(Some((e.ctx, e.args)), r.progressContexts[e.i], r.progressValues[e.i])
             && r.master == D.Step(w.master, D.Settle(D.Progress, Values(r.progressContexts, r.progressValues)))
             && r == w.(progressContexts := r.progressContexts, progressValues := r.progressValues, master := r.master))
  {
    hide Started, D.Step;
    LastReportsStand(inputs, states, events, k + 1, events[k].i);
  }

  // ---------- the master's users ----------

  /** The functions that users registered with the master in the first k events. */
  function UsersIn<C, V>(events: seq<Event<C, V>>, k: nat, n: D.Name): seq<nat>
    requires k <= |events|
  {
    if k == 0 then [] else UsersIn(events, k - 1, n) + UsersBy(events[k - 1], n)
  }

  function UsersBy<C, V>(e: Event<C, V>, n: D.Name): seq<nat> {
    match e
    case MasterRegisters(m, users) => if m == n then users else []
    case _ => []
  }

  /** A Deferred in a state that acts can lead to, with these users registered on list n. */
  ghost predicate Reached<M(!new)>(d: D.State<M>, n: D.Name, users: seq<nat>) {
    exists acts :: D.Registered(acts, n) == users && d == D.Run(D.Init<M>(), acts)
  }

  lemma ReachedStep<M(!new)>(d: D.State<M>, n: D.Name, users: seq<nat>, a: D.Act<M>)
    requires Reached(d, n, users)
    ensures Reached(D.Step(d, a), n, users + D.RegisteredBy(a, n))
  {
    hide D.Step, D.Init, D.Run, D.Registered;
    var acts :| D.Registered(acts, n) == users && d == D.Run(D.Init<M>(), acts);
    Notifications.RunInTwo(D.Init<M>(), acts, [a]);
    JustOne(d, a, n);
    RegisteredSum(acts, [a], n);
    assert D.Registered(acts + [a], n) == users + D.RegisteredBy(a, n);
  }

  lemma JustOne<M(!new)>(d: D.State<M>, a: D.Act<M>, n: D.Name)
    ensures D.Run(d, [a]) == D.Step(d, a) && D.Registered([a], n) == D.RegisteredBy(a, n)
  {
    hide D.Step;
    assert D.Run(D.Step(d, a), []) == D.Step(d, a);
    assert D.Registered([a], n) == D.RegisteredBy(a, n) + D.Registered<M>([], n);
  }

  lemma {:induction false} RegisteredSum<M(!new)>(a: seq<D.Act<M>>, b: seq<D.Act<M>>, n: D.Name)
    ensures D.Registered(a + b, n) == D.Registered(a, n) + D.Registered(b, n)
  {
    hide D.RegisteredBy, D.Registered;
    Unfolded(a, n);
    Unfolded(a + b, n);
    if a == [] {
      assert a + b == b;
    } else {
      RegisteredSum(a[1..], b, n);
      assert (a + b)[1..] == a[1..] + b;
      assert D.RegisteredBy(a[0], n) + (D.Registered(a[1..], n) + D.Registered(b, n))
          == D.RegisteredBy(a[0], n) + D.Registered(a[1..], n) + D.Registered(b, n);
    }
  }

  lemma Unfolded<M(!new)>(a: seq<D.Act<M>>, n: D.Name)
    ensures a == [] ==> D.Registered(a, n) == []
    ensures a != [] ==> D.Registered(a, n) == D.RegisteredBy(a[0], n) + D.Registered(a[1..], n)
  {
  }

  lemma MasterSettles<C(!new), V(!new)>(w: State<C, V>, n: D.Name, users: seq<nat>, m: D.Name, data: Message<C, V>)
    requires Reached(w.master, n, users)
    ensures Reached(SettleMaster(w, m, data).master, n, users)
  {
    hide D.Step, Reached;
    ReachedStep(w.master, n, users, D.Settle(m, data));
    assert users + [] == users;
  }

  lemma MasterReports<C(!new), V(!new)>(w: State<C, V>, n: D.Name, users: seq<nat>, i: nat, ctx: C, args: seq<V>)
    requires Shaped(w) && i < |w.inputs| && Reached(w.master, n, users)
    ensures Reached(Report(w, i, ctx, args).master, n, users)
  {
    hide D.Step, Reached, SettleMaster;
    var t := w.(progressContexts := w.progressContexts[i := Some(ctx)],
                progressValues := w.progressValues[i := Pack(args)]);
    MasterSettles(t, n, users, D.Progress, Values(t.progressContexts, t.progressValues));
  }

  lemma MasterArrives<C(!new), V(!new)>(w: State<C, V>, n: D.Name, users: seq<nat>, i: nat, now: Status<C, V>)
    requires Shaped(w) && i < |w.inputs| && w.inputs[i].Promise? && Reached(w.master, n, users)
    ensures Reached(Answered(w, i, now).master, n, users)
  {
    hide D.Step, Reached, SettleMaster;
    match now
    case Awaiting =>
    case Resolved(ctx, args) =>
      var t := w.(contexts := w.contexts[i := Some(ctx)], values := w.values[i := Pack(args)],
                  remaining := w.remaining - 1, inputs := Settled(w.inputs, i, now));
      MasterSettles(t, n, users, D.Done, Values(t.contexts, t.values));
    case Rejected(ctx, args) =>
      MasterSettles(w.(inputs := Settled(w.inputs, i, now),
                       reason := if w.reason.Some? then w.reason else Some(Reason(ctx, args))),
                    n, users, D.Fail, Reason(ctx, args));
  }

  lemma {:induction false} MasterSetUp<C(!new), V(!new)>(w: State<C, V>, b: nat, n: D.Name)
    requires Shaped(w) && b <= |w.inputs| && Reached(w.master, n, [])
    ensures Reached(SetUpFrom(w, b).master, n, [])
    decreases |w.inputs| - b
  {
    hide Reached, Report, Answered;
    if b < |w.inputs| {
      if w.inputs[b].Promise? {
        MasterArrives(w, n, [], b, w.inputs[b].now);
        assert Settled(w.inputs, b, w.inputs[b].now) == w.inputs;
        AnsweredShaped(w, b);
        if w.inputs[b].before.Some? {
          var (ctx, args) := w.inputs[b].before.value;
          MasterReports(Answered(w, b, w.inputs[b].now), n, [], b, ctx, args);
        }
      }
      MasterSetUp(SetUp(w, b), b + 1, n);
    }
  }

  lemma AnsweredShaped<C(!new), V(!new)>(w: State<C, V>, b: nat)
    requires Shaped(w) && b < |w.inputs| && w.inputs[b].Promise?
    ensures Shaped(Answered(w, b, w.inputs[b].now)) && |Answered(w, b, w.inputs[b].now).inputs| == |w.inputs|
  {
    hide D.Step;
  }

  lemma MasterStarts<C(!new), V(!new)>(inputs: seq<Input<C, V>>, n: D.Name)
    requires !Lone(inputs)
    ensures Reached(Started(inputs).master, n, [])
  {
    hide D.Init, D.Step, Reached, SetUpFrom, SettleMaster;
    assert Reached(Initial(inputs).master, n, []) by {
      NoActs<Message<C, V>>(n);
    }
    if |inputs| > 1 {
      MasterSetUp(Initial(inputs), 0, n);
      MasterConcludes(SetUpFrom(Initial(inputs), 0), n);
    } else {
      MasterConcludes(Initial(inputs).(remaining := 0), n);
    }
  }

  lemma NoActs<M(!new)>(n: D.Name)
    ensures Reached(D.Init<M>(), n, [])
  {
    assert D.Registered<M>([], n) == [] && D.Run(D.Init<M>(), []) == D.Init<M>();
  }

  lemma MasterConcludes<C(!new), V(!new)>(w: State<C, V>, n: D.Name)
    requires Reached(w.master, n, [])
    ensures Reached(Concluded(w).master, n, [])
  {
    hide Reached, SettleMaster;
    MasterSettles(w, n, [], D.Done, Values(w.contexts, w.values));
  }

  /** The master is a Deferred like any other, with those registered that users registered, in their order. */
  lemma {:induction false} MasterIsADeferred<C(!new), V(!new)>(inputs: seq<Input<C, V>>, states: seq<State<C, V>>,
                                                               events: seq<Event<C, V>>, k: nat, n: D.Name)
    requires IsRun(inputs, states, events) && k < |states|
    ensures Reached(states[k].master, n, UsersIn(events, k, n))
  {
    hide Started, D.Step, Reached, Arrive, Refuse, Report;
    if k == 0 {
      MasterStarts(inputs, n);
    } else {
      MasterIsADeferred(inputs, states, events, k - 1, n);
      var w, e, users := states[k - 1], events[k - 1], UsersIn(events, k - 1, n);
      assert users + [] == users;
      match e
      case InputResolved(i, ctx, args) => MasterArrives(w, n, users, i, Resolved(ctx, args));
      case InputRejected(i, ctx, args) => MasterArrives(w, n, users, i, Rejected(ctx, args));
      case InputReports(i, ctx, args) => MasterReports(w, n, users, i, ctx, args);
      case MasterRegisters(m, more) => ReachedStep(w.master, n, users, D.Register(m, more));
      case MasterFinishes => ReachedStep(w.master, n, users, D.Finish);
    }
  }

  /**
   Once the master is resolved and no walk over its done list is under way, it has called there the three internal
   functions and then all that users ever registered, each once, in order and with all inputs' values; and once it is
   rejected it has done so on its fail list with the first reason.
   */
  lemma MasterCallsUsers<C(!new), V(!new)>(inputs: seq<Input<C, V>>, states: seq<State<C, V>>,
                                           events: seq<Event<C, V>>, k: nat)
    requires IsRun(inputs, states, events) && k < |states|
    ensures (var w := states[k];
             && (w.master.phase == D.Resolved && D.Done !in w.master.nested ==>
                   OnceMemory.Calls(w.master.done)
                   == D.CalledWith(D.INTERNAL + D.Users(UsersIn(events, k, D.Done)), Values(w.contexts, w.values)))
             && (w.master.phase == D.Rejected && D.Fail !in w.master.nested ==>
                   w.reason.Some?
                   && OnceMemory.Calls(w.master.fail)
                      == D.CalledWith(D.INTERNAL + D.Users(UsersIn(events, k, D.Fail)), w.reason.value)))
  {
    assert k <= |events|;
    hide *;
    MasterFollowsInputs(inputs, states, events, k);
    var w := states[k];
    if w.master.phase == D.Resolved && D.Done !in w.master.nested {
      MasterIsADeferred(inputs, states, events, k, D.Done);
      ReachedCalls(w.master, D.Done, UsersIn(events, k, D.Done), Values(w.contexts, w.values));
    }
    if w.master.phase == D.Rejected && D.Fail !in w.master.nested {
      MasterIsADeferred(inputs, states, events, k, D.Fail);
      ReachedCalls(w.master, D.Fail, UsersIn(events, k, D.Fail), w.reason.value);
    }
  }

  lemma ReachedCalls<M(!new)>(d: D.State<M>, n: D.Name, users: seq<nat>, m: M)
    requires Reached(d, n, users) && n != D.Progress && n !in d.nested
    requires d.phase == (if n == D.Done then D.Resolved else D.Rejected) && CallsOnly(d, Some((n, m)))
    ensures OnceMemory.Calls(D.Get(d, n)) == D.CalledWith(D.INTERNAL + D.Users(users), m)
  {
    hide D.Run, D.Init, D.Registered, D.Users;
    var acts :| D.Registered(acts, n) == users && d == D.Run(D.Init<M>(), acts);
    D.EveryRun(acts);
    var o := D.Outcome(acts, None);
    var calls := OnceMemory.Calls(D.Get(d, n));
    assert o.value.0 == n;
    assert calls == D.CalledWith(D.INTERNAL + D.Users(users), o.value.1);
    assert calls[0].1 == o.value.1 && calls[0].1 == m;
  }
}
