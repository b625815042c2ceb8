/**
 Notifications of a Deferred. In every run its progress list has just done what a callback list does under the
 registrations and notifications that the acts ask for, so that all that is proved of callback lists holds of it.
 */
module Notifications {
  import opened Wrappers
  import L = CallbackList
  import opened Deferred
  import CallbackDelivery
  import opened CallbackRuns
  import opened CallbackHistory
  import opened OpenLists
  import opened OnceMemory

  /** The data given to `notify`, in order. */
  function Notified<D>(acts: seq<Act<D>>): seq<D> {
    if acts == [] then []
    else (if acts[0].Settle? && acts[0].which == Progress then [acts[0].data] else []) + Notified(acts[1..])
  }

  /** Where the first resolve or reject stands; the end if there is none. */
  function FirstSettling<D>(acts: seq<Act<D>>): (k: nat)
    ensures k <= |acts|
    ensures forall i :: 0 <= i < k ==> acts[i].Settle? ==> acts[i].which == Progress
    ensures k < |acts| ==> acts[k].Settle? && acts[k].which != Progress
  {
    if acts == [] || (acts[0].Settle? && acts[0].which != Progress) then 0 else 1 + FirstSettling(acts[1..])
  }

  /** What an act means for the progress list. */
  function Meant<D>(d: State<D>, a: Act<D>, settled: bool): seq<L.Act<Callback, D>> {
    match a
    case Register(n, users) => if n == Progress then [L.Add(Users(users))] else []
    case Settle(n, l) => if n == Progress then [L.FireWith(l)] else if settled then [] else [L.Lock]
    case Finish => if Goes(d, Progress) then [L.Return] else []
  }

  lemma StepMeans<D(!new)>(d: State<D>, a: Act<D>, outcome: Option<(Name, D)>)
    requires Consistent(d, outcome)
    ensures Step(d, a).progress == L.Run(d.progress, Meant(d, a, outcome.Some?))
  {
    hide Step, L.AddAll, L.Fire, L.LockList, L.Resume, CallbackDelivery.Inv;
    OneAct(d.progress, Meant(d, a, outcome.Some?));
    match a
    case Register(n, users) =>
      RegisterKeeps(d, n, users, outcome);
      assert n != Progress ==> Get(Step(d, a), Progress) == Get(d, Progress);
    case Finish => FinishKeeps(d, outcome);
    case Settle(n, l) =>
      if outcome.Some? {
        SettledForGood(d, n, l, outcome);
        SealedWhenSettled(d, outcome);
        SealedFire(d.progress, l);
      } else if n == Progress {
        NotifyKeeps(d, l);
      } else {
        SettleFirst(d, n, l);
      }
  }

  lemma SealedWhenSettled<D(!new)>(d: State<D>, outcome: Option<(Name, D)>)
    requires Consistent(d, outcome) && outcome.Some?
    ensures Sealed(d.progress)
  {
  }

  lemma OneAct<D(!new)>(s: L.List<Callback, D>, acts: seq<L.Act<Callback, D>>)
    ensures acts == [] ==> L.Run(s, acts) == s
    ensures |acts| == 1 ==> L.Run(s, acts) == L.Step(s, acts[0])
  {
    if |acts| == 1 {
      assert acts[1..] == [];
    }
  }

  /** What a run means for the progress list. */
  function Trace<D>(d: State<D>, acts: seq<Act<D>>, settled: bool): seq<L.Act<Callback, D>>
    decreases |acts|
  {
    if acts == [] then []
    else
      Meant(d, acts[0], settled)
      + Trace(Step(d, acts[0]), acts[1..], settled || (acts[0].Settle? && acts[0].which != Progress))
  }

  lemma {:induction false} RunSum<F(!new), D(!new)>(s: L.List<F, D>, a: seq<L.Act<F, D>>, b: seq<L.Act<F, D>>)
    ensures L.Run(s, a + b) == L.Run(L.Run(s, a), b)
    decreases |a|
  {
    hide L.Step;
    if a == [] {
      assert a + b == b;
    } else {
      RunSum(L.Step(s, a[0]), a[1..], b);
      assert (a + b)[1..] == a[1..] + b;
    }
  }

  lemma {:induction false} RunMeans<D(!new)>(d: State<D>, acts: seq<Act<D>>, outcome: Option<(Name, D)>)
    requires Consistent(d, outcome)
    ensures Run(d, acts).progress == L.Run(d.progress, Trace(d, acts, outcome.Some?))
    decreases |acts|
  {
    hide Consistent, Step, Meant, L.Step;
    if acts != [] {
      StepMeans(d, acts[0], outcome);
      StepConsistent(d, acts[0], outcome);
      RunMeans(Step(d, acts[0]), acts[1..], After(outcome, acts[0]));
      RunSum(d.progress, Meant(d, acts[0], outcome.Some?),
             Trace(Step(d, acts[0]), acts[1..], After(outcome, acts[0]).Some?));
    }
  }

  /** No act for the progress list removes anybody; those that add and fire are the ones meant for it. */
  lemma {:induction false} TraceIs<D(!new)>(d: State<D>, acts: seq<Act<D>>, settled: bool)
    ensures (var t := Trace(d, acts, settled);
             FireAsks(t) == Notified(acts) && Added(t) == Users(Registered(acts, Progress)) && RemovedIn(t) == {})
    decreases |acts|
  {
    hide Step, Users, FireAsks, Added, RemovedIn, Meant, Notified, Registered;
    OneByOne(acts);
    if acts == [] {
      MeantIs(d, [], settled);
    } else {
      var later := settled || (acts[0].Settle? && acts[0].which != Progress);
      MeantIs(d, [acts[0]], settled);
      TraceIs(Step(d, acts[0]), acts[1..], later);
      AsksSum(Meant(d, acts[0], settled), Trace(Step(d, acts[0]), acts[1..], later));
      UsersSum(RegisteredBy(acts[0], Progress), Registered(acts[1..], Progress));
    }
  }

  lemma OneByOne<D>(acts: seq<Act<D>>)
    ensures acts == [] ==> Registered(acts, Progress) == []
    ensures acts != [] ==>
              && Notified(acts) == Notified([acts[0]]) + Notified(acts[1..])
              && Registered(acts, Progress) == RegisteredBy(acts[0], Progress) + Registered(acts[1..], Progress)
  {
    if acts != [] {
      assert [acts[0]][1..] == [];
    }
  }

  /** Nobody is removed and nothing disabled. */
  predicate NoLoss<F, D>(acts: seq<L.Act<F, D>>) {
    forall i :: 0 <= i < |acts| ==> !acts[i].Disable? && !acts[i].Remove?
  }

  /** Nothing disables the progress list or removes from it, and only the settling locks it. */
  lemma {:induction false} TraceLocks<D(!new)>(d: State<D>, acts: seq<Act<D>>, settled: bool)
    ensures NoLoss(Trace(d, acts, settled))
    ensures settled || FirstSettling(acts) == |acts| ==> LeftOpen(Trace(d, acts, settled))
    decreases |acts|
  {
    hide Step, Users, NoLoss, LeftOpen, Meant;
    MeantLocks(d, acts, settled);
    if acts != [] {
      var later := settled || (acts[0].Settle? && acts[0].which != Progress);
      TraceLocks(Step(d, acts[0]), acts[1..], later);
      LocksSum(Meant(d, acts[0], settled), Trace(Step(d, acts[0]), acts[1..], later));
    }
  }

  lemma MeantLocks<D(!new)>(d: State<D>, acts: seq<Act<D>>, settled: bool)
    ensures NoLoss<Callback, D>([]) && LeftOpen<Callback, D>([])
    ensures acts != [] ==> NoLoss(Meant(d, acts[0], settled))
    ensures acts != [] && (settled || FirstSettling(acts) != 0) ==> LeftOpen(Meant(d, acts[0], settled))
  {
  }

  lemma LocksSum<F(!new), D(!new)>(a: seq<L.Act<F, D>>, b: seq<L.Act<F, D>>)
    ensures NoLoss(a) && NoLoss(b) ==> NoLoss(a + b)
    ensures LeftOpen(a) && LeftOpen(b) ==> LeftOpen(a + b)
  {
  }

  lemma MeantIs<D(!new)>(d: State<D>, acts: seq<Act<D>>, settled: bool)
    requires |acts| <= 1
    ensures (var t := if acts == [] then [] else Meant(d, acts[0], settled);
             && FireAsks(t) == Notified(acts) && RemovedIn(t) == {}
             && Added(t) == Users(if acts == [] then [] else RegisteredBy(acts[0], Progress)))
  {
    hide FireAsks, Added, RemovedIn, Notified, Users;
    NoUsers();
    NotifiedOne(acts);
    AtMostOneAct(if acts == [] then [] else Meant(d, acts[0], settled));
  }

  lemma NoUsers()
    ensures Users([]) == []
  {
  }

  lemma NotifiedOne<D>(acts: seq<Act<D>>)
    requires |acts| <= 1
    ensures Notified(acts)
         == if acts != [] && acts[0].Settle? && acts[0].which == Progress then [acts[0].data] else []
  {
    if acts != [] {
      assert acts[1..] == [];
    }
  }

  lemma AtMostOneAct<F(!new), D(!new)>(t: seq<L.Act<F, D>>)
    ensures t == [] ==> FireAsks(t) == [] && Added(t) == [] && RemovedIn(t) == {}
    ensures |t| == 1 ==> FireAsks(t) == AskedBy(t[0]) && Added(t) == AddedBy(t[0]) && RemovedIn(t) == RemovedBy(t[0])
  {
    hide AskedBy, AddedBy, RemovedBy;
    if |t| == 1 {
      assert t[1..] == [];
    }
  }

  lemma {:induction false} AsksSum<F(!new), D(!new)>(a: seq<L.Act<F, D>>, b: seq<L.Act<F, D>>)
    ensures FireAsks(a + b) == FireAsks(a) + FireAsks(b)
    ensures Added(a + b) == Added(a) + Added(b)
    ensures RemovedIn(a + b) == RemovedIn(a) + RemovedIn(b)
  {
    hide FireAsks, Added, RemovedIn, AskedBy, AddedBy, RemovedBy;
    Unfolded(a);
    Unfolded(a + b);
    if a == [] {
      assert a + b == b;
    } else {
      AsksSum(a[1..], b);
      assert (a + b)[1..] == a[1..] + b;
      assert AskedBy(a[0]) + (FireAsks(a[1..]) + FireAsks(b)) == AskedBy(a[0]) + FireAsks(a[1..]) + FireAsks(b);
      assert AddedBy(a[0]) + (Added(a[1..]) + Added(b)) == AddedBy(a[0]) + Added(a[1..]) + Added(b);
      assert RemovedBy(a[0]) + (RemovedIn(a[1..]) + RemovedIn(b)) == RemovedBy(a[0]) + RemovedIn(a[1..]) + RemovedIn(b);
    }
  }

  lemma Unfolded<F(!new), D(!new)>(a: seq<L.Act<F, D>>)
    ensures a == [] ==> FireAsks(a) == [] && Added(a) == [] && RemovedIn(a) == {}
    ensures a != [] ==>
              && FireAsks(a) == AskedBy(a[0]) + FireAsks(a[1..]) && Added(a) == AddedBy(a[0]) + Added(a[1..])
              && RemovedIn(a) == RemovedBy(a[0]) + RemovedIn(a[1..])
  {
  }

  /** With adds only, a plain list that is not unique holds what was added. */
  lemma {:induction false} PlainAdds<F(!new), D(!new)>(fs: seq<F>, acts: seq<L.Act<F, D>>)
    requires NoLoss(acts)
    ensures PlainRun(fs, acts, false) == fs + Added(acts)
    decreases |acts|
  {
    hide PlainStep, AddedBy;
    if acts == [] {
      assert fs + [] == fs;
    } else {
      PlainAdd(fs, acts[0]);
      PlainAdds(PlainStep(fs, acts[0], false), acts[1..]);
      assert fs + AddedBy(acts[0]) + Added(acts[1..]) == fs + Added(acts);
    }
  }

  lemma PlainAdd<F(!new), D(!new)>(fs: seq<F>, a: L.Act<F, D>)
    requires !a.Remove?
    ensures PlainStep(fs, a, false) == fs + AddedBy(a)
  {
    if a.Add? {
      TakenIs(fs, a.fns, false);
    }
  }

  lemma {:induction false} RunInTwo<D(!new)>(d: State<D>, a: seq<Act<D>>, b: seq<Act<D>>)
    ensures Run(d, a + b) == Run(Run(d, a), b)
    decreases |a|
  {
    hide Step;
    if a == [] {
      assert a + b == b;
    } else {
      RunInTwo(Step(d, a[0]), a[1..], b);
      assert (a + b)[1..] == a[1..] + b;
    }
  }

  lemma {:induction false} StillPending<D(!new)>(acts: seq<Act<D>>)
    requires FirstSettling(acts) == |acts|
    ensures Outcome(acts, None) == None
    decreases |acts|
  {
    if acts != [] {
      StillPending(acts[1..]);
    }
  }

  /** Without resolve and reject the progress list is an open callback list, and carries out every notification. */
  lemma PendingProgress<D(!new)>(acts: seq<Act<D>>)
    requires FirstSettling(acts) == |acts|
    ensures (var d, t := Run(Init<D>(), acts), Trace(Init<D>(), acts, false);
             && Consistent(d, None)
             && d.progress == L.Run(L.Init<Callback, D>(false, true, false), t) && LeftOpen(t)
             && FireAsks(t) == Notified(acts) && RemovedIn(t) == {})
    ensures Run(Init<D>(), acts).progress.asked == Notified(acts)
    ensures (var s := Run(Init<D>(), acts).progress;
             && s.entries.Some? && s.queue.Some?
             && Notified(acts) == CallbackDelivery.FiredData(s.passes) + CallbackDelivery.Under(s) + s.queue.value
             && (s.walk.None? ==> Notified(acts) == CallbackDelivery.FiredData(s.passes))
             && Fns(s.entries.value) == Users(Registered(acts, Progress)))
  {
    hide Run, L.Run, Trace, Registered, Notified, Users, FireAsks, Added, LeftOpen, PlainRun, Outcome, Consistent;
    hide CallbackDelivery.FiredData, CallbackDelivery.Under;
    var t := Trace(Init<D>(), acts, false);
    InitConsistent<D>();
    StillPending(acts);
    RunRecords(Init<D>(), acts, None, Done);
    RunMeans(Init<D>(), acts, None);
    TraceIs(Init<D>(), acts, false);
    TraceLocks(Init<D>(), acts, false);
    EveryFireCarriedOut(true, false, t);
    PlainAdds([], t);
  }

  lemma BeforeSettling<D(!new)>(acts: seq<Act<D>>)
    ensures FirstSettling(acts[..FirstSettling(acts)]) == FirstSettling(acts)
  {
    var k := FirstSettling(acts[..FirstSettling(acts)]);
  }

  /** The settling locks the progress list, and what comes later does not open it again. */
  lemma SettlingStep<D(!new)>(d: State<D>, a: Act<D>, later: seq<Act<D>>)
    requires Consistent(d, None) && a.Settle? && a.which != Progress
    ensures (var t := Trace(Step(d, a), later, true);
             && Run(d, [a] + later).progress == L.Run(L.Step(d.progress, L.Lock), t)
             && LeftOpen(t))
  {
    hide Consistent, Step, L.Run, Trace, LeftOpen, L.LockList;
    StepConsistent(d, a, None);
    SettleFirst(d, a.which, a.data);
    RunMeans(Step(d, a), later, Some((a.which, a.data)));
    TraceLocks(Step(d, a), later, true);
    assert ([a] + later)[1..] == later;
  }

  /** Such a run means that the progress list is open up to the settling, and then locked. */
  lemma SettledMeans<D(!new)>(acts: seq<Act<D>>)
    returns (t: seq<L.Act<Callback, D>>, later: seq<L.Act<Callback, D>>)
    requires FirstSettling(acts) < |acts|
    ensures LeftOpen(t) && LeftOpen(later) && FireAsks(t) == Notified(acts[..FirstSettling(acts)])
    ensures (var s := L.Run(L.Init<Callback, D>(false, true, false), t);
             && Run(Init<D>(), acts[..FirstSettling(acts)]).progress == s
             && Run(Init<D>(), acts).progress == L.Run(L.Step(s, L.Lock), later))
  {
    hide *;
    var k := FirstSettling(acts);
    var before := acts[..k];
    assert acts == before + ([acts[k]] + acts[k + 1..]);
    var d := Run(Init<D>(), before);
    RunInTwo(Init<D>(), before, [acts[k]] + acts[k + 1..]);
    BeforeSettling(acts);
    PendingProgress(before);
    SettlingStep(d, acts[k], acts[k + 1..]);
    t, later := Trace(Init<D>(), before, false), Trace(Step(d, acts[k]), acts[k + 1..], true);
  }

  /**
   Resolving or rejecting ends it: only notifications before it are ever carried out, from the first on and in order.
   If there was none, the progress list is disabled; otherwise it stands, with the data it remembered.
   */
  lemma SettledProgress<D(!new)>(acts: seq<Act<D>>)
    requires FirstSettling(acts) < |acts|
    ensures (var before := acts[..FirstSettling(acts)];
             var s := Run(Init<D>(), acts).progress;
             && s.asked == Notified(before) && s.queue.None?
             && (s.entries.Some? ==>
                   CallbackDelivery.FiredData(s.passes) + CallbackDelivery.Under(s) <= Notified(before))
             && (s.entries.Some? <==> Notified(before) != [])
             && (s.entries.Some? ==> s.memory == Run(Init<D>(), before).progress.memory))
  {
    hide *;
    var t, later := SettledMeans(acts);
    OpenThenLocked<Callback, D>(t, later);
  }

  /**
   Each finished walk over the progress list has called all that were due, in every run; and at rest, once something
   has been notified, everybody registered there has been called.
   */
  lemma AllAreNotified<D(!new)>(acts: seq<Act<D>>, e: L.Entry<Callback>)
    ensures (var s := Run(Init<D>(), acts).progress;
             && (forall j :: 0 <= j < |s.passes| && e in s.passes[j].due ==> e in s.passes[j].called)
             && (s.memory.Some? && s.walk.None? && s.entries.Some? && e in s.entries.value ==>
                   exists j :: 0 <= j < |s.passes| && e in s.passes[j].called))
  {
    hide Run, L.Run, Trace, Registered, Notified, Users, FireAsks, Added, Consistent, RemovedIn, L.Init;
    var t := Trace(Init<D>(), acts, false);
    InitConsistent<D>();
    RunMeans(Init<D>(), acts, None);
    TraceIs(Init<D>(), acts, false);
    var s := Run(Init<D>(), acts).progress;
    InitProgress<D>();
    forall j | 0 <= j < |s.passes| && e in s.passes[j].due ensures e in s.passes[j].called {
      OnlyRemovedSkipped<Callback, D>(false, true, false, t, j, e);
    }
    if s.memory.Some? && s.walk.None? && s.entries.Some? && e in s.entries.value {
      MemoryMeansCalled<Callback, D>(false, false, t, e);
    }
  }

  lemma InitProgress<D(!new)>()
    ensures Init<D>().progress == L.Init<Callback, D>(false, true, false)
  {
  }

  /** While pending and at rest, a notification calls the first user's function on the progress list, with its data. */
  lemma NotifyCalls<D(!new)>(d: State<D>, l: D)
    requires Consistent(d, None) && d.progress.walk.None? && d.progress.entries.Some? && d.progress.entries.value != []
    requires d.progress.queue.Some?
    ensures (var r := Step(d, Settle(Progress, l));
             && r.progress.walk == Some(L.Pass(l, false, d.progress.entries.value, {}, [d.progress.entries.value[0]]))
             && d.progress.entries.value[0].fn.User? && r.nested == d.nested + [Progress])
  {
    hide CallbackDelivery.Inv, L.Fire, Update;
    NotifyKeeps(d, l);
    FireStarts(d.progress, l);
    ProgressFire(d.progress, l);
    UpdateNests(d, Progress, L.Fire(d.progress, l));
  }
}
