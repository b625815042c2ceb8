/**
 `Deferred` as an object over three `Callbacks` objects. Each act carries out what `Deferred.Step` says,
 so that all that is proved of runs there holds of the object.
 */
module DeferredObject {
  import opened Wrappers
  import opened CallbackList
  import opened CallbackObject
  import opened CallbackDelivery
  import opened Deferred

  /** While a walk is under way, the callback at the index is the one that runs. */
  ghost predicate RunsAtIndex<D(!new)>(s: List<Callback, D>) {
    s.walk.Some? ==>
      && s.entries.Some? && 0 <= s.index < |s.entries.value|
      && Running(s) == Some(s.entries.value[s.index].fn)
  }

  lemma HeadAtIndex<D(!new)>(s: List<Callback, D>)
    requires s.walk.Some? && s.fired
    ensures RunsAtIndex(Head(s))
  {
    hide Head;
    if s.entries.Some? {
      HeadRuns(s);
    } else {
      HeadDisabled(s);
    }
  }

  /** A walk that registering begins stops at its first callback, and so does one that firing begins. */
  lemma AddAtIndex<D(!new)>(s: List<Callback, D>, fns: seq<Callback>)
    requires s.walk.None?
    ensures RunsAtIndex(AddAll(s, fns))
  {
    hide Head, RunsAtIndex, PushAll;
    NoWalkAtIndex(s);
    if s.entries.Some? {
      var r := PushAll(s, fns);
      PushAllWalks(s, fns);
      NoWalkAtIndex(r);
      if s.memory.Some? {
        HeadAtIndex(Begin(r, |s.entries.value|, s.memory.value, true));
      }
    }
  }

  lemma FireAtIndex<D(!new)>(s: List<Callback, D>, l: D)
    requires s.walk.None?
    ensures RunsAtIndex(Fire(s, l))
  {
    hide Head, RunsAtIndex;
    NoWalkAtIndex(s);
    if s.entries.Some? {
      HeadAtIndex(Begin(s.(asked := s.asked + [l]), 0, l, false));
    }
  }

  lemma NoWalkAtIndex<D(!new)>(s: List<Callback, D>)
    ensures s.walk.None? ==> RunsAtIndex(s)
  {
  }

  lemma {:induction false} PushAllWalks<D(!new)>(s: List<Callback, D>, fns: seq<Callback>)
    requires s.entries.Some? && s.walk.None?
    ensures PushAll(s, fns).walk.None? && PushAll(s, fns).memory == s.memory
    decreases |fns|
  {
    if fns != [] {
      PushAllWalks(Push(s, fns[0]), fns[1..]);
    }
  }

  lemma ResumeAtIndex<D(!new)>(s: List<Callback, D>)
    requires s.walk.Some? ==> s.fired
    ensures RunsAtIndex(Resume(s))
  {
    hide Head;
    if s.walk.Some? {
      HeadAtIndex(s.(index := s.index + 1));
    }
  }

  /** A list for settling, with what every Deferred registers for itself. */
  method SettlingList<D(!new)>() returns (c: Callbacks<Callback, D>)
    ensures fresh(c) && c.Valid() && c.Abs() == AddAll(CallbackList.Init(true, true, false), INTERNAL)
  {
    hide AddAll, CallbackList.Init;
    c := new Callbacks(true, true, false);
    c.Add(INTERNAL);
  }

  class Deferral<D(!new)> {
    const done: Callbacks<Callback, D>
    const fail: Callbacks<Callback, D>
    const progress: Callbacks<Callback, D>
    var phase: Phase
    var nested: seq<Name>
    ghost var outcome: Option<(Name, D)>

    ghost function Abs(): State<D>
      reads this, done, fail, progress
    {
      State(done.Abs(), fail.Abs(), progress.Abs(), phase, nested)
    }

    /** Three lists of its own. */
    ghost predicate Parts()
      reads this, done, fail, progress
    {
      && done != fail && done != progress && fail != progress
      && done.Valid() && fail.Valid() && progress.Valid()
    }

    ghost predicate Valid()
      reads this, done, fail, progress
    {
      Parts() && Consistent(Abs(), outcome)
    }

    function ListOf(n: Name): Callbacks<Callback, D> {
      match n
      case Done => done
      case Fail => fail
      case Progress => progress
    }

    constructor ()
      ensures Valid() && Abs() == Deferred.Init() && outcome == None
      ensures fresh(done) && fresh(fail) && fresh(progress)
    {
      hide AddAll, Consistent, CallbackList.Init;
      var d := SettlingList<D>();
      var f := SettlingList<D>();
      done, fail := d, f;
      progress := new Callbacks(false, true, false);
      phase, nested, outcome := Pending, [], None;
      new;
      InitConsistent<D>();
    }

    /** One of the callbacks that every Deferred registers for itself. */
    method RunInternal(n: Name, c: Callback)
      requires Parts() && n != Progress
      modifies this`phase, done, fail, progress
      ensures Parts() && Abs() == Internal(old(Abs()), n, c) && ListOf(n).Abs() == old(ListOf(n).Abs())
    {
      match c
      case SetState => phase := if n == Done then Resolved else Rejected;
      case DisableOther =>
        if n == Done {
          fail.Disable();
        } else {
          done.Disable();
        }
      case LockProgress => progress.Lock();
      case User(_) =>
    }

    /** The first callbacks of a walk, as long as they are internal. */
    method RunInternals(n: Name)
      requires Parts() && RunsAtIndex(ListOf(n).Abs())
      requires n == Progress && progress.firing ==> Running(progress.Abs()).value.User?
      modifies this`phase, done, fail, progress
      ensures Parts() && Abs() == Drive(old(Abs()), n, |INTERNAL|)
    {
      hide Resume, Internal, Running, Drive;
      var l := ListOf(n);
      var k := |INTERNAL|;
      while k > 0 && l.firing && !l.list.value[l.firingIndex].fn.User?
        invariant 0 <= k && Parts() && RunsAtIndex(l.Abs()) && nested == old(nested)
        invariant n == Progress && progress.firing ==> Running(progress.Abs()).value.User?
        invariant Drive(Abs(), n, k) == Drive(old(Abs()), n, |INTERNAL|)
      {
        var c := l.list.value[l.firingIndex].fn;
        DriveOnce(Abs(), n, k, c);
        RunInternal(n, c);
        ResumeAtIndex(l.Abs());
        l.Return();
        k := k - 1;
      }
      DriveEnds(Abs(), n, k);
    }

    /** After the list n has changed; d is the state before. */
    method GoOn(n: Name, walked: bool, ghost d: State<D>)
      requires Parts() && Abs() == Set(d, n, ListOf(n).Abs()) && (walked <==> Get(d, n).walk.Some?)
      requires !walked ==> RunsAtIndex(ListOf(n).Abs())
      requires !walked && n == Progress && progress.firing ==> Running(progress.Abs()).value.User?
      modifies this`phase, this`nested, done, fail, progress
      ensures Parts() && Abs() == Update(d, n, old(ListOf(n).Abs()))
    {
      hide Drive, Running;
      if !walked && ListOf(n).firing {
        RunInternals(n);
        if ListOf(n).firing {
          nested := nested + [n];
        }
      }
    }

    /** `done`, `fail` and `progress` with functions. */
    method Register(n: Name, users: seq<nat>)
      requires Valid()
      modifies this, done, fail, progress
      ensures Valid() && Abs() == Deferred.Step(old(Abs()), Deferred.Register(n, users)) && outcome == old(outcome)
    {
      hide AddAll, Consistent, Update, RunsAtIndex, Running;
      ghost var d := Abs();
      var l := ListOf(n);
      var walked := l.firing;
      if !walked {
        StartsWithUser(d, n, users, None, outcome);
      }
      l.Add(Users(users));
      GoOn(n, walked, d);
      StepConsistent(d, Deferred.Register(n, users), outcome);
    }

    /** `resolveWith`, `rejectWith` and `notifyWith`. */
    method Settle(n: Name, data: D)
      requires Valid()
      modifies this, done, fail, progress
      ensures Valid() && Abs() == Deferred.Step(old(Abs()), Deferred.Settle(n, data))
      ensures outcome == After(old(outcome), Deferred.Settle(n, data))
    {
      hide Fire, Consistent, Update, RunsAtIndex, Running;
      ghost var d := Abs();
      var l := ListOf(n);
      var walked := l.firing;
      if !walked {
        StartsWithUser(d, n, [], Some(data), outcome);
      }
      l.FireWith(data);
      GoOn(n, walked, d);
      StepConsistent(d, Deferred.Settle(n, data), outcome);
      outcome := After(outcome, Deferred.Settle(n, data));
    }

    method ReturnIn(n: Name)
      requires Parts()
      modifies done, fail, progress
      ensures Parts() && Abs() == Set(old(Abs()), n, Resume(old(ListOf(n).Abs())))
    {
      hide Resume;
      ListOf(n).Return();
    }

    /** The innermost callback that runs returns. */
    method Finish()
      requires Valid()
      modifies this, done, fail, progress
      ensures Valid() && Abs() == Deferred.Step(old(Abs()), Deferred.Finish) && outcome == old(outcome)
    {
      hide Resume, Consistent, Update, AddAll, Fire, Users;
      ghost var d := Abs();
      if nested != [] {
        var n := nested[|nested| - 1];
        ReturnIn(n);
        if !ListOf(n).firing {
          nested := nested[..|nested| - 1];
        }
      }
      StepConsistent(d, Deferred.Finish, outcome);
    }
  }

  lemma DriveEnds<D(!new)>(d: State<D>, n: Name, k: nat)
    requires k == 0 || Get(d, n).walk.None? || (Running(Get(d, n)).Some? && Running(Get(d, n)).value.User?)
    ensures Drive(d, n, k) == d
  {
  }

  /** No internal callback is ever on the progress list. */
  lemma StartsWithUser<D(!new)>(d: State<D>, n: Name, users: seq<nat>, data: Option<D>, outcome: Option<(Name, D)>)
    requires Consistent(d, outcome) && Get(d, n).walk.None?
    ensures (var r := if data.Some? then Fire(Get(d, n), data.value) else AddAll(Get(d, n), Users(users));
             RunsAtIndex(r) && (n == Progress && r.walk.Some? ==> Running(r).Some? && Running(r).value.User?))
  {
    hide Fire, AddAll, RunsAtIndex, Inv, Running, IsNested, Decided;
    if data.Some? {
      FireAtIndex(Get(d, n), data.value);
    } else {
      AddAtIndex(Get(d, n), Users(users));
    }
    if n == Progress {
      if data.Some? {
        ProgressFire(d.progress, data.value);
      } else {
        ProgressAdd(d.progress, users);
      }
    }
  }
}
