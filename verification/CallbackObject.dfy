/**
 `Callbacks` as an object: the variables of the closure are fields, updated in place. The loop that
 calls the callbacks stops at each call; `Resume` continues it when the callback returns.
 */
module CallbackObject {
  import opened Wrappers
  import opened CallbackList

  class Callbacks<F(==,!new), D(!new)> {
    const once: bool
    const remembers: bool
    const unique: bool
    var list: Option<seq<Entry<F>>>
    var stack: Option<seq<D>>
    var memory: Option<D>
    var fired: bool
    var firing: bool
    var firingStart: nat
    var firingIndex: int
    var firingLength: int
    var nextId: nat

    // the record of the run
    ghost var walk: Option<Pass<F, D>>
    ghost var passes: seq<Pass<F, D>>
    ghost var pushed: seq<Entry<F>>
    ghost var asked: seq<D>

    /** The state as a value. */
    ghost function Abs(): List<F, D>
      reads this
    {
      List(once, remembers, unique, list, stack, memory, fired, firingIndex, firingLength, walk, nextId, passes, pushed,
           asked)
    }

    ghost predicate Valid()
      reads this
    {
      (firing <==> walk.Some?) && (firing ==> fired) && firingStart == 0
    }

    constructor (once: bool, remembers: bool, unique: bool)
      ensures Valid() && Abs() == Init(once, remembers, unique)
    {
      this.once, this.remembers, this.unique := once, remembers, unique;
      list, memory, fired, firing := Some([]), None, false, false;
      stack := if once then None else Some([]);
      firingStart, firingIndex, firingLength, nextId := 0, 0, 0, 0;
      walk, passes, pushed, asked := None, [], [], [];
    }

    /** `fire`: the walk begins at firingStart and runs to the first call. */
    method StartFiring(l: D, ghost replay: bool)
      requires list.Some? && firingStart <= |list.value| && !firing && walk.None?
      modifies this
      ensures Valid() && Abs() == Head(Begin(old(Abs()), old(firingStart), l, replay))
      decreases QueueLength(Abs()), 1
    {
      hide Head;
      memory := if remembers then Some(l) else None;
      fired := true;
      firingIndex := firingStart;
      firingStart := 0;
      firingLength := |list.value|;
      firing := true;
      walk := Some(Pass(l, replay, list.value[firingIndex..], {}, []));
      assert Abs() == Begin(old(Abs()), old(firingStart), l, replay);
      hide Begin;
      Loop();
    }

    /** The loop up to its next call, or past its end into the next queued fire. */
    method Loop()
      requires Valid() && firing
      modifies this
      ensures Valid() && Abs() == Head(old(Abs()))
      decreases QueueLength(Abs()), 0
    {
      if list.Some? && 0 <= firingIndex < firingLength && firingIndex < |list.value| {
        walk := Some(walk.value.(called := walk.value.called + [list.value[firingIndex]]));
        return;
      }
      firing := false;
      if list.None? {
        walk := None;
        return;
      }
      passes := passes + [walk.value];
      walk := None;
      if stack.Some? {
        if stack.value != [] {
          var l := stack.value[0];
          stack := Some(stack.value[1..]);
          StartFiring(l, false);
        }
      } else if memory.Some? {
        list := Some([]);
      } else {
        Disable();
      }
    }

    /** `has`, for one function. */
    method HasFunction(fn: F) returns (found: bool)
      requires list.Some?
      ensures found == Has(list.value, fn)
    {
      var d := InArray(fn, 0);
      found := d > -1;
    }

    /** `inArray`: the first place of a function from position `from` on, or -1. */
    method InArray(fn: F, from: nat) returns (d: int)
      requires list.Some? && from <= |list.value|
      ensures d == -1 ==> forall i :: from <= i < |list.value| ==> list.value[i].fn != fn
      ensures d != -1 ==> from <= d < |list.value| && list.value[d].fn == fn
                          && forall i :: from <= i < d ==> list.value[i].fn != fn
    {
      d := from;
      while d < |list.value|
        invariant from <= d <= |list.value|
        invariant forall i :: from <= i < d ==> list.value[i].fn != fn
      {
        if list.value[d].fn == fn {
          return;
        }
        d := d + 1;
      }
      d := -1;
    }

    /** The body of the loop in `add`. */
    method PushOne(fn: F)
      requires Valid() && list.Some?
      modifies this
      ensures Valid() && list.Some? && |old(list.value)| <= |list.value| && Abs() == Push(old(Abs()), fn)
      ensures firing == old(firing) && memory == old(memory) && fired == old(fired)
    {
      var found := HasFunction(fn);
      if !(unique && found) {
        var e := Entry(fn, nextId);
        list := Some(list.value + [e]);
        nextId := nextId + 1;
        pushed := pushed + [e];
        walk := if walk.Some? then Some(walk.value.(due := walk.value.due + [e])) else None;
      }
    }

    /** `add`. */
    method Add(fns: seq<F>)
      requires Valid()
      modifies this
      ensures Valid() && Abs() == AddAll(old(Abs()), fns)
    {
      if list.None? {
        return;
      }
      hide Push, Head, Begin, Has;
      var start := |list.value|;
      var i := 0;
      while i < |fns|
        invariant 0 <= i <= |fns| && list.Some? && start <= |list.value| && Valid()
        invariant firing == old(firing) && memory == old(memory) && fired == old(fired)
        invariant PushAll(Abs(), fns[i..]) == PushAll(old(Abs()), fns)
      {
        assert fns[i..][0] == fns[i] && fns[i..][1..] == fns[i + 1..];
        PushOne(fns[i]);
        i := i + 1;
      }
      if firing {
        firingLength := |list.value|;
      } else if memory.Some? {
        firingStart := start;
        StartFiring(memory.value, true);
      }
    }

    /** `remove`: every place of every function, the walk under way corrected at each. */
    method Remove(fns: seq<F>)
      requires Valid()
      modifies this
      ensures Valid() && Abs() == RemoveAll(old(Abs()), fns)
    {
      if list.None? {
        return;
      }
      var i := 0;
      while i < |fns|
        invariant 0 <= i <= |fns| && list.Some? && Valid()
        invariant RemoveAll(Abs(), fns[i..]) == RemoveAll(old(Abs()), fns)
      {
        assert fns[i..][0] == fns[i] && fns[i..][1..] == fns[i + 1..];
        RemoveFunction(fns[i]);
        i := i + 1;
      }
    }

    method RemoveFunction(fn: F)
      requires Valid() && list.Some?
      modifies this
      ensures Valid() && list.Some? && Abs() == RemoveFrom(old(Abs()), fn, 0)
    {
      var d := InArray(fn, 0);
      SkipOthers(Abs(), fn, 0, if d == -1 then |list.value| else d);
      while d > -1
        invariant list.Some? && Valid() && -1 <= d < |list.value|
        invariant d > -1 ==> list.value[d].fn == fn
        invariant RemoveFrom(Abs(), fn, if d == -1 then |list.value| else d) == RemoveFrom(old(Abs()), fn, 0)
        decreases |list.value|, d
      {
        Splice(d);
        var from := d;
        d := InArray(fn, from);
        SkipOthers(Abs(), fn, from, if d == -1 then |list.value| else d);
      }
    }

    /** Takes the entry at d out of the list and moves the loop's index and length along. */
    method Splice(d: nat)
      requires Valid() && list.Some? && d < |list.value|
      modifies this
      ensures Valid() && Abs() == RemoveAt(old(Abs()), d)
    {
      var e := list.value[d];
      list := Some(Cut(list.value, d));
      if firing {
        walk := if d > firingIndex then Some(walk.value.(gone := walk.value.gone + {e.id})) else walk;
        firingLength := if firingLength >= d then firingLength - 1 else firingLength;
        firingIndex := if firingIndex >= d then firingIndex - 1 else firingIndex;
      }
    }

    /** `fireWith`. */
    method FireWith(l: D)
      requires Valid()
      modifies this
      ensures Valid() && Abs() == Fire(old(Abs()), l)
    {
      if list.Some? && (!fired || stack.Some?) {
        asked := asked + [l];
        if firing {
          stack := Some(stack.value + [l]);
        } else {
          StartFiring(l, false);
        }
      }
    }

    /** `disable`. */
    method Disable()
      modifies this
      ensures Abs() == DisableList(old(Abs()))
      ensures firing == old(firing) && fired == old(fired) && firingStart == old(firingStart)
    {
      list, stack, memory := None, None, None;
    }

    /** `lock`. */
    method Lock()
      requires Valid()
      modifies this
      ensures Valid() && Abs() == LockList(old(Abs()))
    {
      stack := None;
      if memory.None? {
        Disable();
      }
    }

    /** The callback that runs returns. */
    method Return()
      requires Valid()
      modifies this
      ensures Valid() && Abs() == Resume(old(Abs()))
    {
      if firing {
        firingIndex := firingIndex + 1;
        Loop();
      }
    }
  }

  /** Passing over other functions changes nothing. */
  lemma {:induction false} SkipOthers<F(!new), D(!new)>(s: List<F, D>, fn: F, d: nat, to: nat)
    requires s.entries.Some? && d <= to <= |s.entries.value|
    requires forall i :: d <= i < to ==> s.entries.value[i].fn != fn
    ensures RemoveFrom(s, fn, d) == RemoveFrom(s, fn, to)
    decreases |s.entries.value| - d
  {
    if d < to {
      SkipOthers(s, fn, d + 1, to);
    }
  }
}
