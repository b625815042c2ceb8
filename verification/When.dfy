/**
 `when`: one Deferred, the master, for many inputs. Inputs are plain values or promises; a promise
 settles at most once (which `Deferred.EveryRun` shows), before or after the call, in any order.
 */
module When {
  import opened Wrappers
  import opened CallbackList
  import opened OnceMemory
  import D = Deferred

  datatype Status<C, V> = Awaiting | Resolved(ctx: C, args: seq<V>) | Rejected(ctx: C, args: seq<V>)

  /** A promise may have reported progress before; it remembers its last report. */
  datatype Input<C, V> = Plain(v: V) | Promise(now: Status<C, V>, before: Option<(C, seq<V>)>)

  /** An element of the arrays handed on: the input itself, nothing yet, or what a callback received. */
  datatype Slot<V> = Given(v: V) | ThePromise | Hole | Single(first: Option<V>) | Several(args: seq<V>)

  /** What the master is settled or notified with. */
  datatype Message<C, V> = Values(contexts: seq<Option<C>>, values: seq<Slot<V>>) | Reason(ctx: C, args: seq<V>)

  /** What the master is settled with, if it is. */
  type Outcome<C, V> = Option<(D.Name, Message<C, V>)>

  /**
   The variables of `when`, the master, and as history what has become of each input and the first
   reason to reject.
   */
  datatype State<C, V> = State(remaining: int, contexts: seq<Option<C>>, values: seq<Slot<V>>,
                               progressContexts: seq<Option<C>>, progressValues: seq<Slot<V>>,
                               master: D.State<Message<C, V>>,
                               inputs: seq<Input<C, V>>, reason: Option<Message<C, V>>)

  /** Several arguments are kept as an array, a single one by itself. */
  function Pack<V>(args: seq<V>): Slot<V> {
    if |args| > 1 then Several(args) else if |args| == 1 then Single(Some(args[0])) else Single(None)
  }

  /** What a slot holds for these arguments, said case by case. */
  ghost predicate Handed<V(!new)>(args: seq<V>, slot: Slot<V>) {
    && (|args| == 0 ==> slot == Single(None))
    && (|args| == 1 ==> slot == Single(Some(args[0])))
    && (|args| >= 2 ==> slot == Several(args))
  }

  function SettleMaster<C, V>(w: State<C, V>, n: D.Name, m: Message<C, V>): State<C, V> {
    w.(master := D.Step(w.master, D.Settle(n, m)))
  }

  function Settled<C, V>(inputs: seq<Input<C, V>>, i: nat, now: Status<C, V>): seq<Input<C, V>>
    requires i < |inputs| && inputs[i].Promise?
  {
    inputs[i := inputs[i].(now := now)]
  }

  /** The callback that `when` registers for an input's resolution. */
  function Arrive<C, V>(w: State<C, V>, i: nat, ctx: C, args: seq<V>): State<C, V>
    requires i < |w.contexts| == |w.values| == |w.inputs| && w.inputs[i].Promise?
  {
    var t := w.(contexts := w.contexts[i := Some(ctx)], values := w.values[i := Pack(args)],
                remaining := w.remaining - 1, inputs := Settled(w.inputs, i, Resolved(ctx, args)));
    if t.remaining == 0 then SettleMaster(t, D.Done, Values(t.contexts, t.values)) else t
  }

  /** The master's `reject`, registered for an input's rejection. */
  function Refuse<C, V>(w: State<C, V>, i: nat, ctx: C, args: seq<V>): State<C, V>
    requires i < |w.inputs| && w.inputs[i].Promise?
  {
    SettleMaster(w.(inputs := Settled(w.inputs, i, Rejected(ctx, args)),
                    reason := if w.reason.Some? then w.reason else Some(Reason(ctx, args))),
                 D.Fail, Reason(ctx, args))
  }

  /** The callback registered for an input's progress. */
  function Report<C, V>(w: State<C, V>, i: nat, ctx: C, args: seq<V>): State<C, V>
    requires i < |w.progressContexts| == |w.progressValues|
  {
    var t := w.(progressContexts := w.progressContexts[i := Some(ctx)],
                progressValues := w.progressValues[i := Pack(args)]);
    SettleMaster(t, D.Progress, Values(t.progressContexts, t.progressValues))
  }

  function Unset<T>(n: nat, t: T): (r: seq<T>)
    ensures |r| == n && forall i :: 0 <= i < n ==> r[i] == t
  {
    seq(n, i => t)
  }

  /** The array of values starts out as the array of arguments. */
  function Slots<C, V>(inputs: seq<Input<C, V>>): (r: seq<Slot<V>>)
    ensures |r| == |inputs|
    ensures forall i :: 0 <= i < |r| ==> r[i] == if inputs[i].Plain? then Given(inputs[i].v) else ThePromise
  {
    seq(|inputs|, i requires 0 <= i < |inputs| => if inputs[i].Plain? then Given(inputs[i].v) else ThePromise)
  }

  // ---------- the set-up loop ----------

  /** A promise already settled answers at once. */
  function Answered<C, V>(w: State<C, V>, i: nat, now: Status<C, V>): State<C, V>
    requires i < |w.contexts| == |w.values| == |w.inputs| && w.inputs[i].Promise?
  {
    match now
    case Awaiting => w
    case Resolved(ctx, args) => Arrive(w, i, ctx, args)
    case Rejected(ctx, args) => Refuse(w, i, ctx, args)
  }

  predicate Shaped<C, V>(w: State<C, V>) {
    |w.contexts| == |w.values| == |w.inputs| == |w.progressContexts| == |w.progressValues|
  }

  /**
   One turn: what is no promise only counts down; a promise answers if it is settled, and then, settled or
   not, repeats its last report to the callback just registered.
   */
  function SetUp<C, V>(w: State<C, V>, i: nat): (r: State<C, V>)
    requires Shaped(w) && i < |w.inputs|
    ensures Shaped(r) && r.inputs == w.inputs
  {
    match w.inputs[i]
    case Plain(_) => w.(remaining := w.remaining - 1)
    case Promise(now, before) =>
      assert Settled(w.inputs, i, now) == w.inputs;
      var t := Answered(w, i, now);
      if before.Some? then Report(t, i, before.value.0, before.value.1) else t
  }

  /** The whole loop, from position b on. */
  function SetUpFrom<C, V>(w: State<C, V>, b: nat): (r: State<C, V>)
    requires Shaped(w) && b <= |w.inputs|
    ensures Shaped(r) && r.inputs == w.inputs
    decreases |w.inputs| - b
  {
    if b == |w.inputs| then w else SetUpFrom(SetUp(w, b), b + 1)
  }

  /** `resolveWith` at the end, if nothing is left to wait for. */
  function Concluded<C, V>(w: State<C, V>): State<C, V> {
    if w.remaining == 0 then SettleMaster(w, D.Done, Values(w.contexts, w.values)) else w
  }

  /** `when` hands a single promise back as it is. */
  predicate Lone<C, V>(inputs: seq<Input<C, V>>) {
    |inputs| == 1 && inputs[0].Promise?
  }

  /** What `when` has done when it returns; for nothing, or one plain value, the count starts at zero. */
  function Started<C, V>(inputs: seq<Input<C, V>>): State<C, V>
    requires !Lone(inputs)
  {
    Concluded(if |inputs| > 1 then SetUpFrom(Initial(inputs), 0) else Initial(inputs).(remaining := 0))
  }

  function Initial<C, V>(inputs: seq<Input<C, V>>): State<C, V> {
    var n := |inputs|;
    State(n, Unset(n, None), Slots(inputs), Unset(n, None), Unset(n, Hole), D.Init(), inputs, None)
  }

  /** What has come of the inputs: those not yet resolved, and whether one was rejected. */
  function Unresolved<C, V>(inputs: seq<Input<C, V>>): nat {
    if inputs == [] then 0
    else Unresolved(inputs[..|inputs| - 1])
         + (if inputs[|inputs| - 1].Plain? || inputs[|inputs| - 1].now.Resolved? then 0 else 1)
  }

  predicate AnyRejected<C, V>(inputs: seq<Input<C, V>>) {
    exists i :: 0 <= i < |inputs| && inputs[i].Promise? && inputs[i].now.Rejected?
  }

  /** The value an input contributes: itself, or what it was resolved with. Any other promise stands in its place. */
  ghost predicate Contributes<C(!new), V(!new)>(input: Input<C, V>, ctx: Option<C>, value: Slot<V>) {
    match input
    case Plain(v) => ctx == None && value == Given(v)
    case Promise(Resolved(c, args), _) => ctx == Some(c) && Handed(args, value)
    case _ => ctx == None && value == ThePromise
  }

  /** Values and contexts in argument order, as far as they have come in. */
  ghost predicate InOrder<C(!new), V(!new)>(w: State<C, V>, n: nat) {
    && Shaped(w) && n <= |w.inputs|
    && (forall i :: 0 <= i < n ==> Contributes(w.inputs[i], w.contexts[i], w.values[i]))
  }

  /** What the master's outcome should be. */
  function Due<C, V>(w: State<C, V>): Outcome<C, V> {
    if w.reason.Some? then Some((D.Fail, w.reason.value))
    else if w.remaining == 0 then Some((D.Done, Values(w.contexts, w.values)))
    else None
  }

  ghost predicate Inv<C(!new), V(!new)>(w: State<C, V>) {
    && InOrder(w, |w.inputs|)
    && w.remaining == Unresolved(w.inputs)
    && (w.reason.Some? <==> AnyRejected(w.inputs))
    && D.Consistent(w.master, Due(w))
  }

  lemma {:induction false} UnresolvedUpdate<C(!new), V(!new)>(inputs: seq<Input<C, V>>, i: nat, now: Status<C, V>)
    requires i < |inputs| && inputs[i].Promise? && inputs[i].now.Awaiting?
    ensures Unresolved(Settled(inputs, i, now)) == Unresolved(inputs) - (if now.Resolved? then 1 else 0)
  {
    var last := |inputs| - 1;
    if i < last {
      UnresolvedUpdate(inputs[..last], i, now);
      assert Settled(inputs, i, now)[..last] == Settled(inputs[..last], i, now);
    } else {
      assert Settled(inputs, i, now)[..last] == inputs[..last];
    }
  }

  /** Whoever is not resolved counts. */
  lemma {:induction false} UnresolvedZero<C(!new), V(!new)>(inputs: seq<Input<C, V>>)
    ensures Unresolved(inputs) == 0 <==> forall i :: 0 <= i < |inputs| ==> inputs[i].Plain? || inputs[i].now.Resolved?
  {
    if inputs != [] {
      UnresolvedZero(inputs[..|inputs| - 1]);
      assert forall i :: 0 <= i < |inputs| - 1 ==> inputs[..|inputs| - 1][i] == inputs[i];
    }
  }

  /** The master is still open or already settled as it should be; settling it as due makes it so. */
  lemma SettleDue<C(!new), V(!new)>(w: State<C, V>, o: Outcome<C, V>, n: D.Name, m: Message<C, V>)
    requires D.Consistent(w.master, o) && n != D.Progress
    ensures D.Consistent(SettleMaster(w, n, m).master, if o.Some? then o else Some((n, m)))
  {
    hide D.Consistent, D.Step;
    D.StepConsistent(w.master, D.Settle(n, m), o);
  }

  lemma RejectedNotZero<C(!new), V(!new)>(inputs: seq<Input<C, V>>)
    requires AnyRejected(inputs)
    ensures 0 < Unresolved(inputs)
  {
  }

  // ---------- set-up ----------

  /** Half-way through the set-up loop: the inputs before b have been dealt with. */
  ghost predicate Underway<C(!new), V(!new)>(w: State<C, V>, inputs: seq<Input<C, V>>, b: nat, o: Outcome<C, V>) {
    && b <= |inputs| && w.inputs == inputs && InOrder(w, b)
    && (forall i :: b <= i < |inputs| ==> w.values[i] == Slots(inputs)[i] && w.contexts[i] == None)
    && w.remaining == |inputs| - b + Unresolved(inputs[..b])
    && (w.reason.Some? <==> AnyRejected(inputs[..b]))
    && (o == Due(w) || (o == None && w.reason == None))
    && D.Consistent(w.master, o)
  }

  lemma PrefixStep<C(!new), V(!new)>(inputs: seq<Input<C, V>>, b: nat)
    requires b < |inputs|
    ensures Unresolved(inputs[..b + 1])
         == Unresolved(inputs[..b]) + (if inputs[b].Plain? || inputs[b].now.Resolved? then 0 else 1)
    ensures AnyRejected(inputs[..b + 1])
       <==> AnyRejected(inputs[..b]) || (inputs[b].Promise? && inputs[b].now.Rejected?)
  {
    assert inputs[..b + 1][..b] == inputs[..b];
    assert forall i :: 0 <= i < b ==> inputs[..b + 1][i] == inputs[..b][i];
    assert inputs[..b + 1][b] == inputs[b];
  }

  /** Nothing but the arrays for progress and the master change, and the master's outcome does not. */
  lemma ReportKeepsUnderway<C(!new), V(!new)>(w: State<C, V>, inputs: seq<Input<C, V>>, b: nat, i: nat,
                                              ctx: C, args: seq<V>, o: Outcome<C, V>)
    requires Underway(w, inputs, b, o) && i < |inputs|
    ensures Underway(Report(w, i, ctx, args), inputs, b, o)
  {
    hide D.Consistent, D.Step, AnyRejected, Unresolved;
    var t := w.(progressContexts := w.progressContexts[i := Some(ctx)],
                progressValues := w.progressValues[i := Pack(args)]);
    D.StepConsistent(w.master, D.Settle(D.Progress, Values(t.progressContexts, t.progressValues)), o);
  }

  lemma AnsweredKeeps<C(!new), V(!new)>(w: State<C, V>, inputs: seq<Input<C, V>>, b: nat, o: Outcome<C, V>)
    returns (o': Outcome<C, V>)
    requires Underway(w, inputs, b, o) && b < |inputs| && inputs[b].Promise?
    ensures Underway(Answered(w, b, inputs[b].now), inputs, b + 1, o')
  {
    hide D.Consistent, D.Step, AnyRejected, Unresolved;
    PrefixStep(inputs, b);
    o' := o;
    assert Settled(inputs, b, inputs[b].now) == inputs;
    match inputs[b].now
    case Awaiting =>
    case Resolved(ctx, args) =>
      var t := w.(contexts := w.contexts[b := Some(ctx)], values := w.values[b := Pack(args)],
                  remaining := w.remaining - 1);
      if t.remaining == 0 {
        var m := Values(t.contexts, t.values);
        SettleDue(t, o, D.Done, m);
        o' := if o.Some? then o else Some((D.Done, m));
        LastIsNotRejected(w, inputs, b, o);
      }
    case Rejected(ctx, args) =>
      var m := Reason(ctx, args);
      SettleDue(w.(reason := if w.reason.Some? then w.reason else Some(m)), o, D.Fail, m);
      o' := if o.Some? then o else Some((D.Fail, Reason(ctx, args)));
  }

  lemma SetUpKeeps<C(!new), V(!new)>(w: State<C, V>, inputs: seq<Input<C, V>>, b: nat, o: Outcome<C, V>)
    returns (o': Outcome<C, V>)
    requires Underway(w, inputs, b, o) && b < |inputs|
    ensures Underway(SetUp(w, b), inputs, b + 1, o')
  {
    hide D.Consistent, D.Step, AnyRejected, Unresolved, Answered, Report, Underway;
    UnderwayShows(w, inputs, b, o);
    if inputs[b].Plain? {
      PlainKeeps(w, inputs, b, o);
      o' := o;
    } else {
      o' := AnsweredKeeps(w, inputs, b, o);
      if inputs[b].before.Some? {
        var (ctx, args) := inputs[b].before.value;
        ReportKeepsUnderway(Answered(w, b, inputs[b].now), inputs, b + 1, b, ctx, args, o');
      }
    }
  }

  lemma UnderwayShows<C(!new), V(!new)>(w: State<C, V>, inputs: seq<Input<C, V>>, b: nat, o: Outcome<C, V>)
    requires Underway(w, inputs, b, o)
    ensures w.inputs == inputs && Shaped(w)
  {
  }

  lemma PlainKeeps<C(!new), V(!new)>(w: State<C, V>, inputs: seq<Input<C, V>>, b: nat, o: Outcome<C, V>)
    requires Underway(w, inputs, b, o) && b < |inputs| && inputs[b].Plain?
    ensures Underway(w.(remaining := w.remaining - 1), inputs, b + 1, o)
  {
    hide D.Consistent, AnyRejected, Unresolved;
    PrefixStep(inputs, b);
  }

  lemma LastIsNotRejected<C(!new), V(!new)>(w: State<C, V>, inputs: seq<Input<C, V>>, b: nat, o: Outcome<C, V>)
    requires Underway(w, inputs, b, o) && b < |inputs| && w.remaining == 1
    ensures w.reason.None? && o.None?
  {
    hide D.Consistent;
    if AnyRejected(inputs[..b]) {
      RejectedNotZero(inputs[..b]);
    }
  }

  lemma EmptyPrefix<C(!new), V(!new)>(inputs: seq<Input<C, V>>)
    ensures inputs[..0] == [] && Unresolved(inputs[..0]) == 0 && !AnyRejected(inputs[..0])
  {
  }

  lemma NoneRejectedAtZero<C(!new), V(!new)>(w: State<C, V>, inputs: seq<Input<C, V>>)
    requires w.remaining == Unresolved(inputs) == 0 && (w.reason.Some? <==> AnyRejected(inputs))
    ensures w.reason.None?
  {
  }

  /** Every input has been attended to; the master may still have to be told that none is left. */
  ghost predicate Attended<C(!new), V(!new)>(w: State<C, V>) {
    exists o :: Underway(w, w.inputs, |w.inputs|, o)
  }

  lemma {:induction false} SetUpFromKeeps<C(!new), V(!new)>(w: State<C, V>, b: nat, o: Outcome<C, V>)
    requires Underway(w, w.inputs, b, o)
    ensures Attended(SetUpFrom(w, b))
    decreases |w.inputs| - b
  {
    hide Underway, SetUp;
    UnderwayBound(w, b, o);
    if b < |w.inputs| {
      var o' := SetUpKeeps(w, w.inputs, b, o);
      SetUpFromKeeps(SetUp(w, b), b + 1, o');
    }
  }

  lemma UnderwayBound<C(!new), V(!new)>(w: State<C, V>, b: nat, o: Outcome<C, V>)
    requires Underway(w, w.inputs, b, o)
    ensures b <= |w.inputs| && Shaped(w)
  {
  }

  lemma StartsUnderway<C(!new), V(!new)>(inputs: seq<Input<C, V>>)
    ensures Underway(Initial(inputs), inputs, 0, None)
  {
    hide D.Consistent, D.Init, AnyRejected, Unresolved;
    D.InitConsistent<Message<C, V>>();
    EmptyPrefix(inputs);
  }

  lemma FewAttended<C(!new), V(!new)>(inputs: seq<Input<C, V>>)
    requires |inputs| == 0 || (|inputs| == 1 && inputs[0].Plain?)
    ensures Attended(Initial(inputs).(remaining := 0))
  {
    hide D.Consistent, D.Init, AnyRejected, Unresolved;
    StartsUnderway(inputs);
    if |inputs| == 1 {
      PlainKeeps(Initial(inputs), inputs, 0, None);
    }
    assert Underway(Initial(inputs).(remaining := 0), inputs, |inputs|, None);
  }

  lemma ConcludedOk<C(!new), V(!new)>(w: State<C, V>)
    requires Attended(w)
    ensures Inv(Concluded(w)) && Concluded(w).inputs == w.inputs
  {
    hide D.Consistent, D.Step, AnyRejected, Unresolved;
    var o :| Underway(w, w.inputs, |w.inputs|, o);
    assert w.inputs[..|w.inputs|] == w.inputs;
    if w.remaining == 0 {
      SettleDue(w, o, D.Done, Values(w.contexts, w.values));
      NoneRejectedAtZero(w, w.inputs);
    }
  }

  /** Set-up leaves everything as it should be, whatever has become of the inputs before. */
  lemma StartedOk<C(!new), V(!new)>(inputs: seq<Input<C, V>>)
    requires !Lone(inputs)
    ensures Inv(Started(inputs)) && Started(inputs).inputs == inputs
  {
    hide Inv, Concluded, Attended, Underway, D.Init, SetUpFrom;
    StartsUnderway(inputs);
    if |inputs| > 1 {
      SetUpFromKeeps(Initial(inputs), 0, None);
      ConcludedOk(SetUpFrom(Initial(inputs), 0));
    } else {
      FewAttended(inputs);
      ConcludedOk(Initial(inputs).(remaining := 0));
    }
  }

  // ---------- runs ----------

  /**
   What can happen later: an input that waits settles; one that is a promise reports, even after it has
   settled if it did so while it was reporting; the master's users do as they like.
   */
  datatype Event<C, V> =
    | InputResolved(i: nat, ctx: C, args: seq<V>)
    | InputRejected(i: nat, ctx: C, args: seq<V>)
    | InputReports(i: nat, ctx: C, args: seq<V>)
    | MasterRegisters(to: D.Name, users: seq<nat>)
    | MasterFinishes

  predicate Waits<C, V>(w: State<C, V>, i: nat) {
    i < |w.inputs| && w.inputs[i].Promise? && w.inputs[i].now.Awaiting?
  }

  predicate CanHappen<C, V>(w: State<C, V>, e: Event<C, V>) {
    && Shaped(w)
    && (e.InputResolved? || e.InputRejected? ==> Waits(w, e.i))
    && (e.InputReports? ==> e.i < |w.inputs| && w.inputs[e.i].Promise?)
  }

  function Step<C, V>(w: State<C, V>, e: Event<C, V>): State<C, V>
    requires CanHappen(w, e)
  {
    match e
    case InputResolved(i, ctx, args) => Arrive(w, i, ctx, args)
    case InputRejected(i, ctx, args) => Refuse(w, i, ctx, args)
    case InputReports(i, ctx, args) => Report(w, i, ctx, args)
    case MasterRegisters(n, users) => w.(master := D.Step(w.master, D.Register(n, users)))
    case MasterFinishes => w.(master := D.Step(w.master, D.Finish))
  }

  lemma StepKeeps<C(!new), V(!new)>(w: State<C, V>, e: Event<C, V>)
    requires Inv(w) && CanHappen(w, e)
    ensures Inv(Step(w, e))
  {
    hide D.Consistent, D.Step, Unresolved, AnyRejected;
    var o := Due(w);
    match e
    case InputResolved(i, ctx, args) =>
      UnresolvedUpdate(w.inputs, i, Resolved(ctx, args));
      RejectedUpdate(w.inputs, i, Resolved(ctx, args));
      var t := w.(contexts := w.contexts[i := Some(ctx)], values := w.values[i := Pack(args)],
                  remaining := w.remaining - 1, inputs := Settled(w.inputs, i, Resolved(ctx, args)));
      StillWaiting(w, i);
      if t.remaining == 0 {
        NoneRejectedAtZero(t, t.inputs);
        SettleDue(t, o, D.Done, Values(t.contexts, t.values));
      }
    case InputRejected(i, ctx, args) =>
      UnresolvedUpdate(w.inputs, i, Rejected(ctx, args));
      RejectedUpdate(w.inputs, i, Rejected(ctx, args));
      StillWaiting(w, i);
      SettleDue(w.(inputs := Settled(w.inputs, i, Rejected(ctx, args)),
                   reason := if w.reason.Some? then w.reason else Some(Reason(ctx, args))),
                o, D.Fail, Reason(ctx, args));
    case InputReports(i, ctx, args) =>
      var t := w.(progressContexts := w.progressContexts[i := Some(ctx)],
                  progressValues := w.progressValues[i := Pack(args)]);
      D.StepConsistent(w.master, D.Settle(D.Progress, Values(t.progressContexts, t.progressValues)), o);
    case MasterRegisters(n, users) =>
      D.StepConsistent(w.master, D.Register(n, users), o);
    case MasterFinishes =>
      D.StepConsistent(w.master, D.Finish, o);
  }

  lemma RejectedUpdate<C(!new), V(!new)>(inputs: seq<Input<C, V>>, i: nat, now: Status<C, V>)
    requires i < |inputs| && inputs[i].Promise? && inputs[i].now.Awaiting?
    ensures AnyRejected(Settled(inputs, i, now)) <==> AnyRejected(inputs) || now.Rejected?
  {
    var after := Settled(inputs, i, now);
    assert forall j :: 0 <= j < |inputs| && j != i ==> after[j] == inputs[j];
    assert after[i].Promise? && after[i].now == now;
  }

  lemma StillWaiting<C(!new), V(!new)>(w: State<C, V>, i: nat)
    requires w.remaining == Unresolved(w.inputs) && Waits(w, i)
    ensures 0 < w.remaining
  {
    UnresolvedZero(w.inputs);
  }

  /** A run from the call of `when` on: every event could happen where it does. */
  ghost predicate IsRun<C(!new), V(!new)>(inputs: seq<Input<C, V>>, states: seq<State<C, V>>,
                                          events: seq<Event<C, V>>)
  {
    && !Lone(inputs)
    && |states| == |events| + 1
    && states[0] == Started(inputs)
    && forall k :: 0 <= k < |events| ==> CanHappen(states[k], events[k]) && states[k + 1] == Step(states[k], events[k])
  }

  lemma {:induction false} RunKeeps<C(!new), V(!new)>(inputs: seq<Input<C, V>>, states: seq<State<C, V>>,
                                                      events: seq<Event<C, V>>, k: nat)
    requires IsRun(inputs, states, events) && k < |states|
    ensures Inv(states[k])
  {
    hide Inv, Step, Started;
    if k > 0 {
      RunKeeps(inputs, states, events, k - 1);
      StepKeeps(states[k - 1], events[k - 1]);
    } else {
      StartedOk(inputs);
    }
  }

  /**
   The master has called nobody while it is pending. Once settled it calls on one list only, everybody with
   the same message, and when no walk is under way has called all that were registered there.
   */
  ghost predicate CallsOnly<M(!new)>(d: D.State<M>, o: Option<(D.Name, M)>) {
    match o
    case None => Calls(d.done) == [] && Calls(d.fail) == []
    case Some((n, m)) =>
      && (forall j :: 0 <= j < |Calls(D.Get(d, n))| ==> Calls(D.Get(d, n))[j].1 == m)
      && (n !in d.nested ==> Calls(D.Get(d, n)) == With(D.Get(d, n).pushed, m))
      && Calls(D.Get(d, D.Rival(n))) == []
  }

  lemma CallsAre<M(!new)>(d: D.State<M>, o: Option<(D.Name, M)>)
    requires D.Consistent(d, o)
    ensures CallsOnly(d, o)
  {
    if o.Some? {
      var (n, m) := o.value;
      var s := D.Get(d, n);
      PrefixWith(Calls(s), With(Coming(s), m), s.pushed, m);
      assert Calls(s) + [] == Calls(s);
    }
  }

  lemma PrefixWith<F, M>(calls: seq<(F, M)>, coming: seq<(F, M)>, all: seq<Entry<F>>, m: M)
    requires calls + coming == With(all, m)
    ensures forall j :: 0 <= j < |calls| ==> calls[j].1 == m
  {
    forall j | 0 <= j < |calls| ensures calls[j].1 == m {
      assert (calls + coming)[j] == calls[j];
    }
  }

  /**
   At every moment of every run: the counter is the number of inputs not yet resolved; the master is
   resolved iff all are, and then whoever is called on its done list gets the values in argument order,
   whatever the order of arrival; it is rejected iff an input was, and whoever is called on its fail list
   gets the reason of the first.
   */
  lemma MasterFollowsInputs<C(!new), V(!new)>(inputs: seq<Input<C, V>>, states: seq<State<C, V>>,
                                              events: seq<Event<C, V>>, k: nat)
    requires IsRun(inputs, states, events) && k < |states|
    ensures (var w := states[k];
      && w.remaining == Unresolved(w.inputs)
      && (w.master.phase == D.Resolved <==>
            forall i :: 0 <= i < |w.inputs| ==> w.inputs[i].Plain? || w.inputs[i].now.Resolved?)
      && (w.master.phase == D.Rejected <==> AnyRejected(w.inputs))
      && (w.master.phase == D.Resolved ==> CallsOnly(w.master, Some((D.Done, Values(w.contexts, w.values)))))
      && (w.master.phase == D.Rejected ==> w.reason.Some? && CallsOnly(w.master, Some((D.Fail, w.reason.value))))
      && (w.master.phase == D.Pending ==> CallsOnly(w.master, None))
      && Shaped(w)
      && forall i :: 0 <= i < |w.inputs| ==> Contributes(w.inputs[i], w.contexts[i], w.values[i]))
  {
    hide D.Consistent, CallsOnly, IsRun;
    RunKeeps(inputs, states, events, k);
    var w := states[k];
    OutcomeShows(w.master, Due(w));
    CallsAre(w.master, Due(w));
    UnresolvedZero(w.inputs);
    if AnyRejected(w.inputs) {
      RejectedNotZero(w.inputs);
    }
  }

  lemma OutcomeShows<M(!new)>(d: D.State<M>, o: Option<(D.Name, M)>)
    requires D.Consistent(d, o)
    ensures d.phase == D.PhaseOf(o)
  {
  }
}
