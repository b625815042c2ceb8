/**
 `Deferred`: three callback lists that act on each other. Callbacks may register, resolve, reject
 and notify while they run, so that walks over different lists nest; the nesting is a stack of the
 lists under way, of which only the innermost can go on.
 */
module Deferred {
  import opened Wrappers
  import opened CallbackList
  import opened CallbackDelivery
  import opened OnceMemory

  /** Users' functions, and the three that every Deferred puts first on its done and fail lists. */
  datatype Callback = User(n: nat) | SetState | DisableOther | LockProgress

  datatype Name = Done | Fail | Progress

  datatype Phase = Pending | Resolved | Rejected

  datatype State<D> = State(done: List<Callback, D>, fail: List<Callback, D>, progress: List<Callback, D>,
                            phase: Phase, nested: seq<Name>)

  /** `done`/`fail`/`progress` with functions; `resolveWith`/`rejectWith`/`notifyWith`; the end of a callback. */
  datatype Act<D> = Register(to: Name, users: seq<nat>) | Settle(which: Name, data: D) | Finish

  const INTERNAL: seq<Callback> := [SetState, DisableOther, LockProgress]

  function Users(ns: seq<nat>): (r: seq<Callback>)
    ensures |r| == |ns| && forall i :: 0 <= i < |r| ==> r[i] == User(ns[i])
  {
    seq(|ns|, i requires 0 <= i < |ns| => User(ns[i]))
  }

  function Init<D>(): State<D> {
    State(AddAll(CallbackList.Init(true, true, false), INTERNAL),
          AddAll(CallbackList.Init(true, true, false), INTERNAL),
          CallbackList.Init(false, true, false), Pending, [])
  }

  function Get<D>(d: State<D>, n: Name): List<Callback, D> {
    match n
    case Done => d.done
    case Fail => d.fail
    case Progress => d.progress
  }

  function Set<D>(d: State<D>, n: Name, s: List<Callback, D>): State<D> {
    match n
    case Done => d.(done := s)
    case Fail => d.(fail := s)
    case Progress => d.(progress := s)
  }

  /** The callback that runs in the walk over a list. */
  function Running<D>(s: List<Callback, D>): Option<Callback> {
    if s.walk.Some? && s.walk.value.called != [] then Some(s.walk.value.called[|s.walk.value.called| - 1].fn) else None
  }

  /** What the internal callbacks do. */
  function Internal<D>(d: State<D>, n: Name, c: Callback): State<D> {
    match c
    case SetState => d.(phase := if n == Done then Resolved else if n == Fail then Rejected else d.phase)
    case DisableOther =>
      if n == Done then d.(fail := DisableList(d.fail)) else if n == Fail then d.(done := DisableList(d.done)) else d
    case LockProgress => d.(progress := LockList(d.progress))
    case User(_) => d
  }

  /** Runs internal callbacks, at most k of them, up to the next user's. */
  function Drive<D>(d: State<D>, n: Name, k: nat): State<D>
    decreases k
  {
    var c := Running(Get(d, n));
    if k == 0 || c.None? || c.value.User? then d
    else
      var e := Internal(d, n, c.value);
      Drive(Set(e, n, Resume(Get(e, n))), n, k - 1)
  }

  /** A list takes a new value; a walk that this begins nests inside those under way. */
  function Update<D>(d: State<D>, n: Name, s: List<Callback, D>): State<D> {
    var t := Set(d, n, s);
    if Get(d, n).walk.Some? || s.walk.None? then t
    else
      var u := Drive(t, n, |INTERNAL|);
      if Get(u, n).walk.Some? then u.(nested := u.nested + [n]) else u
  }

  function Step<D>(d: State<D>, a: Act<D>): State<D> {
    match a
    case Register(n, users) => Update(d, n, AddAll(Get(d, n), Users(users)))
    case Settle(n, l) => Update(d, n, Fire(Get(d, n), l))
    case Finish =>
      if d.nested == [] then d
      else
        var n := d.nested[|d.nested| - 1];
        var t := Set(d, n, Resume(Get(d, n)));
        if Get(t, n).walk.None? then t.(nested := d.nested[..|d.nested| - 1]) else t
  }

  function Run<D>(d: State<D>, acts: seq<Act<D>>): State<D>
    decreases |acts|
  {
    if acts == [] then d else Run(Step(d, acts[0]), acts[1..])
  }

  // ---------- the invariant ----------

  /** The list whose walk is the innermost. */
  predicate Goes<D>(d: State<D>, n: Name) {
    d.nested != [] && d.nested[|d.nested| - 1] == n
  }

  ghost predicate IsNested<D(!new)>(d: State<D>) {
    && (forall n :: n in d.nested <==> Get(d, n).walk.Some?)
    && (forall i, j :: 0 <= i < j < |d.nested| ==> d.nested[i] != d.nested[j])
  }

  /** The registrations on a done or fail list: the internal ones, then users'. */
  ghost predicate Shape<D(!new)>(s: List<Callback, D>) {
    && 3 <= |s.pushed| && s.pushed[0].fn == SetState && s.pushed[1].fn == DisableOther && s.pushed[2].fn == LockProgress
    && forall i :: 3 <= i < |s.pushed| ==> s.pushed[i].fn.User?
  }

  /** From the one that runs on, only users' callbacks are left. */
  ghost predicate UsersAhead<D(!new)>(s: List<Callback, D>) {
    s.walk.Some? && s.entries.Some? ==>
      forall i :: 0 <= s.index <= i < |s.entries.value| ==> s.entries.value[i].fn.User?
  }

  ghost predicate Winner<D(!new)>(s: List<Callback, D>, l: D) {
    Fired(s, l) && Shape(s) && UsersAhead(s)
  }

  ghost predicate Waiting<D(!new)>(s: List<Callback, D>) {
    Unfired(s) && Shape(s)
  }

  ghost predicate ProgressOk<D(!new)>(s: List<Callback, D>) {
    && Inv(s) && !s.once && !s.unique
    && (s.entries.Some? ==> forall i :: 0 <= i < |s.entries.value| ==> s.entries.value[i].fn.User?)
  }

  /** After the settling nothing can be notified any more. */
  ghost predicate Sealed<D(!new)>(s: List<Callback, D>) {
    s.entries.None? || (s.fired && s.queue.None?)
  }

  ghost predicate Undecided<D(!new)>(d: State<D>) {
    d.phase == Pending && Waiting(d.done) && Waiting(d.fail)
  }

  ghost predicate DecidedDone<D(!new)>(d: State<D>, l: D) {
    d.phase == Resolved && Winner(d.done, l) && Dead(d.fail) && Sealed(d.progress)
  }

  ghost predicate DecidedFail<D(!new)>(d: State<D>, l: D) {
    d.phase == Rejected && Winner(d.fail, l) && Dead(d.done) && Sealed(d.progress)
  }

  /** The phase a Deferred is in, with the data it was settled with. */
  ghost predicate Decided<D(!new)>(d: State<D>, outcome: Option<(Name, D)>) {
    match outcome
    case None => Undecided(d)
    case Some((Done, l)) => DecidedDone(d, l)
    case Some((Fail, l)) => DecidedFail(d, l)
    case Some((Progress, _)) => false
  }

  ghost predicate Consistent<D(!new)>(d: State<D>, outcome: Option<(Name, D)>) {
    IsNested(d) && ProgressOk(d.progress) && Decided(d, outcome)
  }

  lemma InitConsistent<D(!new)>()
    ensures Consistent(Init<D>(), None)
    ensures Fns(Init<D>().done.pushed) == INTERNAL && Fns(Init<D>().fail.pushed) == INTERNAL
  {
    hide Inv, Shape, AddAll;
    InternalsFirst<D>();
    InitOk<Callback, D>(false, true, false);
  }

  lemma InternalsFirst<D(!new)>()
    ensures (var s := AddAll(CallbackList.Init<Callback, D>(true, true, false), INTERNAL);
             Unfired(s) && Shape(s) && Fns(s.pushed) == INTERNAL)
  {
  }

  // ---------- settling ----------

  /** The three internal callbacks of the first walk, run one after the other. */
  lemma FirstThree<D(!new)>(d: State<D>, n: Name, l: D)
    requires n != Progress && Undecided(d) && Inv(d.progress)
    ensures (var s := Fire(Get(d, n), l);
             var u := Drive(Set(d, n, s), n, |INTERNAL|);
             && Winner(Get(u, n), l) && Get(u, n).pushed == Get(d, n).pushed
             && u == Set(d.(phase := if n == Done then Resolved else Rejected,
                            done := if n == Fail then DisableList(d.done) else d.done,
                            fail := if n == Done then DisableList(d.fail) else d.fail,
                            progress := LockList(d.progress)), n, Get(u, n)))
  {
    hide Fire, Resume, Fired, LockList, DisableList, Inv, Drive, Running;
    var s := Fire(Get(d, n), l);
    FireUnfired(Get(d, n), l);
    ResumeFired(s, l);
    RunningIs(s, l);
    var s1 := Resume(s);
    ResumeFired(s1, l);
    RunningIs(s1, l);
    var s2 := Resume(s1);
    ResumeFired(s2, l);
    RunningIs(s2, l);
    var s3 := Resume(s2);
    var d0 := Set(d, n, s);
    var d1 := Set(Internal(d0, n, SetState), n, s1);
    var d2 := Set(Internal(d1, n, DisableOther), n, s2);
    var d3 := Set(Internal(d2, n, LockProgress), n, s3);
    DriveOnce(d2, n, 1, LockProgress);
    DriveOnce(d1, n, 2, DisableOther);
    DriveOnce(d0, n, 3, SetState);
    assert Drive(d3, n, 0) == d3 by { DriveNone(d3, n); }
  }

  lemma DriveNone<D(!new)>(d: State<D>, n: Name)
    ensures Drive(d, n, 0) == d
  {
  }

  lemma DriveOnce<D(!new)>(d: State<D>, n: Name, k: nat, c: Callback)
    requires 1 <= k && Running(Get(d, n)) == Some(c) && !c.User?
    ensures (var e := Internal(d, n, c); Drive(d, n, k) == Drive(Set(e, n, Resume(Get(e, n))), n, k - 1))
  {
  }

  lemma RunningIs<D(!new)>(s: List<Callback, D>, l: D)
    requires Fired(s, l)
    ensures s.walk.Some? ==>
              s.entries.Some? && 0 <= s.index < |s.entries.value| && Running(s) == Some(s.entries.value[s.index].fn)
  {
  }

  // ---------- the progress list ----------

  /** What the loop can do to a list: stop at a call of one of its entries, empty it, or disable it. */
  lemma {:induction false} HeadRuns<D(!new)>(s: List<Callback, D>)
    requires s.walk.Some? && s.entries.Some? && s.fired
    ensures (var r := Head(s);
             && (r.entries == s.entries || r.entries == Some([]) || r.entries.None?)
             && (r.walk.Some? ==> r.entries == s.entries && 0 <= r.index < |s.entries.value|
                                  && Running(r) == Some(s.entries.value[r.index].fn))
             && r.fired && r.once == s.once && r.unique == s.unique && r.pushed == s.pushed
             && (s.queue.None? ==> r.queue.None?))
    decreases QueueLength(s)
  {
    if !(0 <= s.index < s.length && s.index < |s.entries.value|) && s.queue.Some? && s.queue.value != [] {
      var over := s.(walk := None, passes := s.passes + [s.walk.value]);
      HeadRuns(Begin(over.(queue := Some(s.queue.value[1..])), 0, s.queue.value[0], false));
    }
  }

  /** Registering on the progress list. */
  lemma ProgressAdd<D(!new)>(s: List<Callback, D>, users: seq<nat>)
    requires ProgressOk(s)
    ensures (var r := AddAll(s, Users(users));
             && ProgressOk(r) && (Sealed(s) ==> Sealed(r))
             && (s.walk.Some? ==> r.walk.Some?)
             && (s.walk.None? && r.walk.Some? ==> Running(r).Some? && Running(r).value.User?))
  {
    hide Inv, Head, Begin;
    AddKeeps(s, Users(users));
    if s.entries.Some? {
      var added := PushAllIs(s, Users(users));
      var r := PushAll(s, Users(users));
      UsersAdded(s.entries.value, added, users);
      if s.walk.None? && s.memory.Some? {
        BeginIs(r, |s.entries.value|, s.memory.value, true);
        HeadRuns(Begin(r, |s.entries.value|, s.memory.value, true));
      }
    }
  }

  lemma UsersAdded(es: seq<Entry<Callback>>, added: seq<Entry<Callback>>, users: seq<nat>)
    requires Fns(added) == Users(users)
    requires forall i :: 0 <= i < |es| ==> es[i].fn.User?
    ensures forall i :: 0 <= i < |es + added| ==> (es + added)[i].fn.User?
  {
    forall i | 0 <= i < |added| ensures added[i].fn.User? {
      assert Fns(added)[i] == added[i].fn;
    }
  }

  lemma BeginIs<D(!new)>(s: List<Callback, D>, from: nat, l: D, replay: bool)
    requires s.entries.Some? && from <= |s.entries.value|
    ensures (var r := Begin(s, from, l, replay);
             r.walk.Some? && r.fired && r.entries == s.entries && r.queue == s.queue && r.once == s.once
             && r.unique == s.unique && r.pushed == s.pushed)
  {
  }

  lemma ProgressFire<D(!new)>(s: List<Callback, D>, l: D)
    requires ProgressOk(s)
    ensures (var r := Fire(s, l);
             && ProgressOk(r)
             && (s.walk.Some? ==> r.walk.Some?)
             && (s.walk.None? && r.walk.Some? ==> Running(r).Some? && Running(r).value.User?))
  {
    hide Inv, Head, Begin;
    FireKeeps(s, l);
    if s.entries.Some? && (!s.fired || s.queue.Some?) && s.walk.None? {
      var t := s.(asked := s.asked + [l]);
      BeginIs(t, 0, l, false);
      HeadRuns(Begin(t, 0, l, false));
    }
  }

  lemma ProgressResume<D(!new)>(s: List<Callback, D>)
    requires ProgressOk(s)
    ensures ProgressOk(Resume(s)) && (Sealed(s) ==> Sealed(Resume(s)))
  {
    hide Inv, Head;
    ResumeKeeps(s);
    if s.walk.Some? {
      var t := s.(index := s.index + 1);
      WalkMeansFired(s);
      if s.entries.Some? {
        HeadRuns(t);
      } else {
        HeadDisabled(t);
      }
    }
  }

  lemma WalkMeansFired<D(!new)>(s: List<Callback, D>)
    requires Inv(s) && s.walk.Some?
    ensures s.fired
  {
  }

  lemma HeadDisabled<D(!new)>(s: List<Callback, D>)
    requires s.walk.Some? && s.entries.None?
    ensures Head(s) == s.(walk := None)
  {
  }

  lemma ProgressLock<D(!new)>(s: List<Callback, D>)
    requires ProgressOk(s)
    ensures ProgressOk(LockList(s)) && Sealed(LockList(s)) && LockList(s).walk == s.walk
  {
  }

  /** Nothing is notified any more on a sealed list. */
  lemma SealedFire<D(!new)>(s: List<Callback, D>, l: D)
    requires Sealed(s)
    ensures Fire(s, l) == s
  {
  }

  // ---------- the done and fail lists ----------

  lemma ShapeByFns<D(!new)>(s: List<Callback, D>, t: List<Callback, D>, users: seq<nat>)
    requires Shape(s) && Fns(t.pushed) == Fns(s.pushed) + Users(users)
    ensures Shape(t)
  {
    assert |t.pushed| == |s.pushed| + |users|;
    forall i | 0 <= i < |t.pushed|
      ensures t.pushed[i].fn == if i < |s.pushed| then s.pushed[i].fn else User(users[i - |s.pushed|])
    {
      assert Fns(t.pushed)[i] == t.pushed[i].fn;
    }
  }

  lemma FiredFacts<D(!new)>(s: List<Callback, D>, l: D)
    requires Fired(s, l)
    ensures s.entries.Some? && !s.unique
  {
  }

  lemma WinnerAdd<D(!new)>(s: List<Callback, D>, users: seq<nat>, l: D)
    requires Winner(s, l)
    ensures (var r := AddAll(s, Users(users));
             && Winner(r, l) && Fns(r.pushed) == Fns(s.pushed) + Users(users)
             && (s.walk.Some? ==> r.walk.Some?)
             && (s.walk.None? && r.walk.Some? ==> Running(r).Some? && Running(r).value.User?))
  {
    hide Shape, Head, Begin, Fired;
    var r := AddAll(s, Users(users));
    AddFired(s, Users(users), l);
    ShapeByFns(s, r, users);
    FiredFacts(s, l);
    var added := PushAllIs(s, Users(users));
    AddUsersAhead(s, users, l, added);
    assert forall c :: c in Users(users) ==> c.User?;
  }

  lemma AddUsersAhead<D(!new)>(s: List<Callback, D>, users: seq<nat>, l: D, added: seq<Entry<Callback>>)
    requires Fired(s, l) && UsersAhead(s)
    requires Fns(added) == Users(users) && PushAll(s, Users(users)).entries.Some?
    requires PushAll(s, Users(users)).entries.value == s.entries.value + added
    ensures UsersAhead(AddAll(s, Users(users)))
    ensures s.walk.None? && AddAll(s, Users(users)).walk.Some? ==>
              Running(AddAll(s, Users(users))).Some? && Running(AddAll(s, Users(users))).value.User?
  {
    UsersAdded([], added, users);
    assert [] + added == added;
    var r := PushAll(s, Users(users));
    if s.walk.None? {
      var _ := PushAllIs(s, Users(users));
      BeginIs(r, 0, l, true);
      HeadRuns(Begin(r, 0, l, true));
    } else {
      var _ := PushAllIs(s, Users(users));
    }
  }

  lemma WinnerResume<D(!new)>(s: List<Callback, D>, l: D)
    requires Winner(s, l)
    ensures Winner(Resume(s), l) && Resume(s).pushed == s.pushed
  {
    hide Resume, Fired;
    ResumeFired(s, l);
    RunningIs(s, l);
  }

  lemma WaitingAdd<D(!new)>(s: List<Callback, D>, users: seq<nat>)
    requires Waiting(s)
    ensures Waiting(AddAll(s, Users(users))) && Fns(AddAll(s, Users(users)).pushed) == Fns(s.pushed) + Users(users)
  {
    hide Shape;
    AddUnfired(s, Users(users));
    ShapeByFns(s, AddAll(s, Users(users)), users);
  }

  lemma DeadAdd<D(!new)>(s: List<Callback, D>, fns: seq<Callback>)
    requires Dead(s)
    ensures AddAll(s, fns) == s
  {
  }

  // ---------- every act keeps the invariant ----------

  /** A list that was not walked over begins no walk, or one that a user's callback runs in. */
  lemma UpdateNests<D(!new)>(d: State<D>, n: Name, s: List<Callback, D>)
    requires IsNested(d)
    requires Get(d, n).walk.Some? ==> s.walk.Some?
    requires Get(d, n).walk.None? && s.walk.Some? ==> Running(s).Some? && Running(s).value.User?
    ensures IsNested(Update(d, n, s))
    ensures Update(d, n, s) == Set(d, n, s).(nested := Update(d, n, s).nested)
    ensures Update(d, n, s).nested == if Get(d, n).walk.None? && s.walk.Some? then d.nested + [n] else d.nested
  {
    hide Running;
    var t := Set(d, n, s);
    if Get(d, n).walk.None? && s.walk.Some? {
      DriveUser(t, n, |INTERNAL|);
      NestedGrows(d, t.(nested := d.nested + [n]), n);
    }
  }

  lemma DriveUser<D(!new)>(d: State<D>, n: Name, k: nat)
    requires Running(Get(d, n)).Some? && Running(Get(d, n)).value.User?
    ensures Drive(d, n, k) == d
  {
  }

  lemma NestedGrows<D(!new)>(d: State<D>, t: State<D>, n: Name)
    requires IsNested(d) && Get(d, n).walk.None? && Get(t, n).walk.Some? && t.nested == d.nested + [n]
    requires forall m :: m != n ==> Get(t, m).walk.Some? == Get(d, m).walk.Some?
    ensures IsNested(t)
  {
  }

  lemma RegisterKeeps<D(!new)>(d: State<D>, n: Name, users: seq<nat>, outcome: Option<(Name, D)>)
    requires Consistent(d, outcome)
    ensures Consistent(Step(d, Register(n, users)), outcome)
    ensures forall m :: m != n ==> Get(Step(d, Register(n, users)), m) == Get(d, m)
    ensures Get(Step(d, Register(n, users)), n) == AddAll(Get(d, n), Users(users))
  {
    hide Inv, AddAll, Winner, Waiting, ProgressOk, Sealed, Dead, IsNested, Update, Running;
    var s := Get(d, n);
    var r := AddAll(s, Users(users));
    NoWalkYet(d, outcome);
    if n == Progress {
      ProgressAdd(s, users);
    } else if outcome.None? {
      WaitingAdd(s, users);
      WaitingIdle(s);
      WaitingIdle(r);
    } else if outcome.value.0 == n {
      WinnerAdd(s, users, outcome.value.1);
    } else {
      DeadAdd(s, Users(users));
    }
    UpdateNests(d, n, r);
  }

  lemma NoWalkYet<D(!new)>(d: State<D>, outcome: Option<(Name, D)>)
    requires Consistent(d, outcome)
    ensures outcome.Some? && outcome.value.0 == Done ==> d.fail.walk.None?
    ensures outcome.Some? && outcome.value.0 == Fail ==> d.done.walk.None?
    ensures outcome.None? ==> d.done.walk.None? && d.fail.walk.None?
    ensures outcome.Some? ==> outcome.value.0 != Progress
  {
  }

  lemma WaitingIdle<D(!new)>(s: List<Callback, D>)
    requires Waiting(s)
    ensures s.walk.None?
  {
  }

  /** Once settled, resolving, rejecting and notifying change nothing at all. */
  lemma SettledForGood<D(!new)>(d: State<D>, n: Name, l: D, outcome: Option<(Name, D)>)
    requires Consistent(d, outcome) && outcome.Some?
    ensures Step(d, Settle(n, l)) == d
  {
    hide Fired, Fire, Sealed, Dead, Inv;
    var m := outcome.value.1;
    if n == Progress {
      SealedFire(d.progress, l);
    } else {
      FireAgain(Get(d, n), m, l);
    }
  }

  /** The first resolve or reject settles; the rival list is disabled before any user's callback runs. */
  lemma SettleFirst<D(!new)>(d: State<D>, n: Name, l: D)
    requires Consistent(d, None) && n != Progress
    ensures Consistent(Step(d, Settle(n, l)), Some((n, l)))
    ensures Get(Step(d, Settle(n, l)), n).pushed == Get(d, n).pushed
    ensures Step(d, Settle(n, l)).progress == LockList(d.progress)
  {
    hide Fire, Fired, Inv, Drive, Shape, UsersAhead, Unfired, LockList;
    var s := Fire(Get(d, n), l);
    var t := Set(d, n, s);
    var u := Drive(t, n, |INTERNAL|);
    WaitingIdle(Get(d, n));
    WaitingIdle(d.done);
    WaitingIdle(d.fail);
    FirstThree(d, n, l);
    ProgressLock(d.progress);
    FireBegins(Get(d, n), l);
    DisabledIsDead(d.done);
    DisabledIsDead(d.fail);
    if Get(u, n).walk.Some? {
      NestedGrows(d, u.(nested := u.nested + [n]), n);
    }
  }

  lemma FireBegins<D(!new)>(s: List<Callback, D>, l: D)
    requires Waiting(s)
    ensures Fire(s, l).walk.Some?
  {
  }

  lemma DisabledIsDead<D(!new)>(s: List<Callback, D>)
    requires Waiting(s)
    ensures Dead(DisableList(s))
  {
  }

  lemma NotifyKeeps<D(!new)>(d: State<D>, l: D)
    requires Consistent(d, None)
    ensures Consistent(Step(d, Settle(Progress, l)), None)
    ensures Step(d, Settle(Progress, l)).done == d.done && Step(d, Settle(Progress, l)).fail == d.fail
    ensures Step(d, Settle(Progress, l)).progress == Fire(d.progress, l)
  {
    hide Fire, Inv, ProgressOk, Waiting, IsNested, Running, Update;
    ProgressFire(d.progress, l);
    UpdateNests(d, Progress, Fire(d.progress, l));
  }

  lemma FinishKeeps<D(!new)>(d: State<D>, outcome: Option<(Name, D)>)
    requires Consistent(d, outcome)
    ensures Consistent(Step(d, Finish), outcome)
    ensures Step(d, Finish).done.pushed == d.done.pushed && Step(d, Finish).fail.pushed == d.fail.pushed
    ensures Step(d, Finish).progress == if Goes(d, Progress) then Resume(d.progress) else d.progress
  {
    hide Inv, Resume, Winner, Waiting, ProgressOk, Sealed, Dead, IsNested;
    if d.nested != [] {
      var n := d.nested[|d.nested| - 1];
      InnermostWalks(d);
      NoWalkYet(d, outcome);
      var r := Resume(Get(d, n));
      if n == Progress {
        ProgressResume(d.progress);
      } else {
        WinnerResume(Get(d, n), outcome.value.1);
      }
      NestedFinish(d, n, r);
    }
  }

  lemma InnermostWalks<D(!new)>(d: State<D>)
    requires IsNested(d) && d.nested != []
    ensures Get(d, d.nested[|d.nested| - 1]).walk.Some?
  {
  }

  lemma NestedFinish<D(!new)>(d: State<D>, n: Name, r: List<Callback, D>)
    requires IsNested(d) && d.nested != [] && n == d.nested[|d.nested| - 1]
    ensures r.walk.Some? ==> IsNested(Set(d, n, r))
    ensures r.walk.None? ==> IsNested(Set(d, n, r).(nested := d.nested[..|d.nested| - 1]))
  {
    LastLeaves(d.nested);
    var t := Set(d, n, r).(nested := d.nested[..|d.nested| - 1]);
    forall m ensures Get(t, m) == if m == n then r else Get(d, m) {
    }
    assert n in d.nested;
  }

  lemma LastLeaves(s: seq<Name>)
    requires s != [] && forall i, j :: 0 <= i < j < |s| ==> s[i] != s[j]
    ensures forall m :: m in s[..|s| - 1] <==> m in s && m != s[|s| - 1]
  {
  }

  /** A walk that begins nests inside those under way; only the innermost goes on, and it alone can end. */
  lemma InnermostFirst<D(!new)>(d: State<D>, a: Act<D>)
    ensures !a.Finish? ==> d.nested <= Step(d, a).nested && |Step(d, a).nested| <= |d.nested| + 1
    ensures a.Finish? ==> Step(d, a).nested == d.nested || Step(d, a).nested == d.nested[..|d.nested| - 1]
    ensures a.Finish? ==> forall n :: Get(Step(d, a), n) == if Goes(d, n) then Resume(Get(d, n)) else Get(d, n)
  {
    hide Fire, AddAll, Resume, Running, Internal;
    if !a.Finish? {
      var n := if a.Register? then a.to else a.which;
      var s := if a.Register? then AddAll(Get(d, n), Users(a.users)) else Fire(Get(d, n), a.data);
      DriveNested(Set(d, n, s), n, |INTERNAL|);
    } else if d.nested != [] {
      var n := d.nested[|d.nested| - 1];
      forall m ensures Get(Set(d, n, Resume(Get(d, n))), m) == if m == n then Resume(Get(d, n)) else Get(d, m) {
      }
    }
  }

  lemma {:induction false} DriveNested<D(!new)>(d: State<D>, n: Name, k: nat)
    ensures Drive(d, n, k).nested == d.nested
    decreases k
  {
    hide Resume, Running, LockList, DisableList;
    if k > 0 && Running(Get(d, n)).Some? && !Running(Get(d, n)).value.User? {
      var e := Internal(d, n, Running(Get(d, n)).value);
      DriveNested(Set(e, n, Resume(Get(e, n))), n, k - 1);
    }
  }

  /** The outcome that an act leads to. */
  function After<D>(outcome: Option<(Name, D)>, a: Act<D>): Option<(Name, D)> {
    if outcome.None? && a.Settle? && a.which != Progress then Some((a.which, a.data)) else outcome
  }

  lemma StepConsistent<D(!new)>(d: State<D>, a: Act<D>, outcome: Option<(Name, D)>)
    requires Consistent(d, outcome)
    ensures Consistent(Step(d, a), After(outcome, a))
  {
    hide Consistent, Step;
    match a
    case Register(n, users) => RegisterKeeps(d, n, users, outcome);
    case Finish => FinishKeeps(d, outcome);
    case Settle(n, m) =>
      if outcome.Some? {
        SettledForGood(d, n, m, outcome);
      } else if n == Progress {
        NotifyKeeps(d, m);
      } else {
        SettleFirst(d, n, m);
      }
  }

  // ---------- whole runs ----------

  /** The first resolve or reject among the acts decides. */
  function Outcome<D>(acts: seq<Act<D>>, outcome: Option<(Name, D)>): Option<(Name, D)>
    decreases |acts|
  {
    if acts == [] then outcome else Outcome(acts[1..], After(outcome, acts[0]))
  }

  /** The users' functions registered on a list, in order. */
  function Registered<D>(acts: seq<Act<D>>, n: Name): seq<nat>
    decreases |acts|
  {
    if acts == [] then [] else RegisteredBy(acts[0], n) + Registered(acts[1..], n)
  }

  function RegisteredBy<D>(a: Act<D>, n: Name): seq<nat> {
    if a.Register? && a.to == n then a.users else []
  }

  /** The list has not lost to its rival. */
  predicate Alive<D>(outcome: Option<(Name, D)>, n: Name) {
    outcome.None? || outcome.value.0 == n
  }

  lemma StepRecords<D(!new)>(d: State<D>, a: Act<D>, outcome: Option<(Name, D)>, n: Name)
    requires Consistent(d, outcome)
    requires n != Progress && Alive(After(outcome, a), n)
    ensures Fns(Get(Step(d, a), n).pushed) == Fns(Get(d, n).pushed) + Users(RegisteredBy(a, n))
  {
    hide Step, AddAll, Winner, Waiting, Inv, IsNested, ProgressOk, Sealed, Dead;
    assert Fns(Get(d, n).pushed) + Users([]) == Fns(Get(d, n).pushed);
    match a
    case Register(m, users) =>
      RegisterKeeps(d, m, users, outcome);
      if m == n {
        if outcome.None? {
          WaitingAdd(Get(d, n), users);
        } else {
          WinnerAdd(Get(d, n), users, outcome.value.1);
        }
      }
    case Finish => FinishKeeps(d, outcome);
    case Settle(m, k) =>
      if outcome.Some? {
        SettledForGood(d, m, k, outcome);
      } else if m == Progress {
        NotifyKeeps(d, k);
      } else {
        SettleFirst(d, m, k);
      }
  }

  lemma {:induction false} OutcomeStays<D(!new)>(acts: seq<Act<D>>, outcome: Option<(Name, D)>)
    requires outcome.Some?
    ensures Outcome(acts, outcome) == outcome
    decreases |acts|
  {
    if acts != [] {
      OutcomeStays(acts[1..], outcome);
    }
  }

  lemma {:induction false} RunRecords<D(!new)>(d: State<D>, acts: seq<Act<D>>, outcome: Option<(Name, D)>, n: Name)
    requires Consistent(d, outcome) && n != Progress
    ensures Consistent(Run(d, acts), Outcome(acts, outcome))
    ensures Alive(Outcome(acts, outcome), n) ==>
              Fns(Get(Run(d, acts), n).pushed) == Fns(Get(d, n).pushed) + Users(Registered(acts, n))
    decreases |acts|
  {
    hide Consistent, Step;
    if acts == [] {
      assert Fns(Get(d, n).pushed) + Users([]) == Fns(Get(d, n).pushed);
    } else {
      var a, later := acts[0], After(outcome, acts[0]);
      StepConsistent(d, a, outcome);
      RunRecords(Step(d, a), acts[1..], later, n);
      if Alive(Outcome(acts, outcome), n) {
        if later.Some? {
          OutcomeStays(acts[1..], later);
        }
        StepRecords(d, a, outcome, n);
        UsersSum(RegisteredBy(a, n), Registered(acts[1..], n));
        assert Fns(Get(d, n).pushed) + Users(RegisteredBy(a, n)) + Users(Registered(acts[1..], n))
            == Fns(Get(d, n).pushed) + (Users(RegisteredBy(a, n)) + Users(Registered(acts[1..], n)));
      }
    }
  }

  lemma UsersSum(a: seq<nat>, b: seq<nat>)
    ensures Users(a + b) == Users(a) + Users(b)
  {
  }

  /** These functions, each called with the same data. */
  function CalledWith<D>(fns: seq<Callback>, l: D): (r: seq<(Callback, D)>)
    ensures |r| == |fns|
  {
    seq(|fns|, i requires 0 <= i < |fns| => (fns[i], l))
  }

  function Rival(n: Name): Name {
    if n == Done then Fail else Done
  }

  function PhaseOf<D>(outcome: Option<(Name, D)>): Phase {
    if outcome.None? then Pending else if outcome.value.0 == Done then Resolved else Rejected
  }

  /**
   Every run of a Deferred: the first resolve or reject settles it, for good and with its data. On the
   winning list the three internal functions and then all users' functions, whether registered before,
   during or after the settling, are called in order of registration, each exactly once and with that
   data (all of them, unless a walk over the list is still under way). On the rival list nobody is ever called.
   */
  lemma EveryRun<D(!new)>(acts: seq<Act<D>>)
    ensures (var d := Run(Init<D>(), acts); var o := Outcome(acts, None);
             && d.phase == PhaseOf(o)
             && (o.None? ==> Calls(d.done) == [] && Calls(d.fail) == [])
             && (o.Some? ==>
                   var (n, l) := o.value;
                   var all := CalledWith(INTERNAL + Users(Registered(acts, n)), l);
                   && n != Progress
                   && Calls(Get(d, n)) <= all
                   && (n !in d.nested ==> Calls(Get(d, n)) == all)
                   && Calls(Get(d, Rival(n))) == []))
  {
    hide Run, Registered, Outcome;
    InitConsistent<D>();
    RunRecords(Init<D>(), acts, None, Done);
    RunRecords(Init<D>(), acts, None, Fail);
    var d, o := Run(Init<D>(), acts), Outcome(acts, None);
    if o.Some? {
      var (n, l) := o.value;
      WinnerCalls(d, n, l, Registered(acts, n));
    }
  }

  /**
   On the progress list, in every run, each finished walk has called once and in order all that were due and
   not removed; notifications are carried out in the order given, and while none can have been dropped, all are.
   */
  lemma ProgressInOrder<D(!new)>(acts: seq<Act<D>>)
    ensures (var s := Run(Init<D>(), acts).progress;
             && (forall k :: 0 <= k < |s.passes| ==> Delivered(s.passes[k]))
             && (s.entries.Some? ==> FiredData(s.passes) + Under(s) <= s.asked)
             && (s.entries.Some? && s.queue.Some? ==> FiredData(s.passes) + Under(s) + s.queue.value == s.asked))
  {
    hide Run, Registered, Outcome, Delivered, FiredData, Under;
    InitConsistent<D>();
    RunRecords(Init<D>(), acts, None, Done);
  }

  lemma WinnerCalls<D(!new)>(d: State<D>, n: Name, l: D, users: seq<nat>)
    requires Consistent(d, Some((n, l))) && Fns(Get(d, n).pushed) == INTERNAL + Users(users)
    ensures (var all := CalledWith(INTERNAL + Users(users), l);
             && Calls(Get(d, n)) <= all
             && (n !in d.nested ==> Calls(Get(d, n)) == all)
             && Calls(Get(d, Rival(n))) == [])
  {
    var s := Get(d, n);
    assert With(s.pushed, l) == CalledWith(Fns(s.pushed), l);
    assert Calls(s) + [] == Calls(s);
  }
}
