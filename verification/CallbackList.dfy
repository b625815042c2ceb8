/**
 `Callbacks` of jQuery as a state machine. The loop that calls the callbacks is cut at each call:
 between two turns the callback that runs, or anybody else, may act on the list in any way.
 */
module CallbackList {
  import opened Wrappers

  /** A registration. The code compares functions only; the number tells registrations apart. */
  datatype Entry<F> = Entry(fn: F, id: nat)

  /**
   One walk of the loop over the list: with what data, whether it only calls newcomers with the
   remembered data, who was due, who was removed before its turn, and who was called.
   */
  datatype Pass<F, D> = Pass(data: D, replay: bool, due: seq<Entry<F>>, gone: set<nat>, called: seq<Entry<F>>)

  /**
   The variables of the closure: the list (None once disabled), the queue of fires made while firing
   (None for "once" and after locking), the remembered data, the loop's index and length, and the
   walk under way, if any. Of the walk the code knows only the data; its record and the last three
   fields are the history of the run, on which nothing depends.
   */
  datatype List<F, D> = List(once: bool, remembers: bool, unique: bool,
                             entries: Option<seq<Entry<F>>>, queue: Option<seq<D>>, memory: Option<D>,
                             fired: bool, index: int, length: int, walk: Option<Pass<F, D>>, nextId: nat,
                             passes: seq<Pass<F, D>>, pushed: seq<Entry<F>>, asked: seq<D>)

  datatype Act<F, D> = Add(fns: seq<F>) | Remove(fns: seq<F>) | FireWith(data: D) | Disable | Lock | Return

  function Init<F, D>(once: bool, remembers: bool, unique: bool): List<F, D> {
    List(once, remembers, unique, Some([]), if once then None else Some([]), None, false, 0, 0, None, 0, [], [], [])
  }

  // ---------- the operations ----------

  predicate Has<F(==)>(es: seq<Entry<F>>, fn: F) {
    exists i :: 0 <= i < |es| && es[i].fn == fn
  }

  /** `push`, unless the list is unique and has the function. */
  function Push<F(==), D>(s: List<F, D>, fn: F): (r: List<F, D>)
    requires s.entries.Some?
    ensures r.entries.Some? && |s.entries.value| <= |r.entries.value|
  {
    if s.unique && Has(s.entries.value, fn) then s
    else
      var e := Entry(fn, s.nextId);
      var due := if s.walk.Some? then Some(s.walk.value.(due := s.walk.value.due + [e])) else None;
      s.(entries := Some(s.entries.value + [e]), nextId := s.nextId + 1, walk := due, pushed := s.pushed + [e])
  }

  function PushAll<F(==), D>(s: List<F, D>, fns: seq<F>): (r: List<F, D>)
    requires s.entries.Some?
    ensures r.entries.Some? && |s.entries.value| <= |r.entries.value|
    decreases |fns|
  {
    if fns == [] then s else PushAll(Push(s, fns[0]), fns[1..])
  }

  /** The start of a walk over the list from a position on, before its first turn. */
  function Begin<F, D>(s: List<F, D>, from: nat, l: D, replay: bool): (r: List<F, D>)
    requires s.entries.Some? && from <= |s.entries.value|
    ensures r.walk.Some? && r.queue == s.queue
  {
    s.(memory := if s.remembers then Some(l) else None, fired := true, index := from,
       length := |s.entries.value|, walk := Some(Pass(l, replay, s.entries.value[from..], {}, [])))
  }

  function QueueLength<F, D>(s: List<F, D>): nat {
    if s.queue.Some? then |s.queue.value| else 0
  }

  function DisableList<F, D>(s: List<F, D>): List<F, D> {
    s.(entries := None, queue := None, memory := None)
  }

  /**
   The head of the loop: either the next callback is called, and now runs, or the walk is over. Then
   the next queued fire starts; or a list that fires once is emptied or, without memory, disabled.
   */
  function Head<F, D>(s: List<F, D>): List<F, D>
    requires s.walk.Some?
    decreases QueueLength(s)
  {
    if s.entries.None? then s.(walk := None)
    else if 0 <= s.index < s.length && s.index < |s.entries.value| then
      s.(walk := Some(s.walk.value.(called := s.walk.value.called + [s.entries.value[s.index]])))
    else
      var over := s.(walk := None, passes := s.passes + [s.walk.value]);
      if s.queue.Some? then
        if s.queue.value == [] then over
        else Head(Begin(over.(queue := Some(s.queue.value[1..])), 0, s.queue.value[0], false))
      else if s.memory.Some? then over.(entries := Some([]))
      else DisableList(over)
  }

  /** `add`: during a walk the new entries join it; otherwise they are called at once with the memory. */
  function AddAll<F(==), D>(s: List<F, D>, fns: seq<F>): List<F, D> {
    if s.entries.None? then s
    else
      var r := PushAll(s, fns);
      if s.walk.Some? then r.(length := |r.entries.value|)
      else if s.memory.Some? then Head(Begin(r, |s.entries.value|, s.memory.value, true))
      else r
  }

  function Cut<T>(es: seq<T>, d: nat): (r: seq<T>)
    requires d < |es|
    ensures |r| == |es| - 1
  {
    es[..d] + es[d + 1..]
  }

  /** Taking out the entry at d; a walk under way is corrected. */
  function RemoveAt<F, D>(s: List<F, D>, d: nat): (r: List<F, D>)
    requires s.entries.Some? && d < |s.entries.value|
    ensures r.entries.Some? && |r.entries.value| == |s.entries.value| - 1
  {
    var es := s.entries.value;
    var t := s.(entries := Some(Cut(es, d)));
    if s.walk.None? then t
    else
      var gone := if d > s.index then s.walk.value.gone + {es[d].id} else s.walk.value.gone;
      t.(length := if s.length >= d then s.length - 1 else s.length,
         index := if s.index >= d then s.index - 1 else s.index,
         walk := Some(s.walk.value.(gone := gone)))
  }

  /** Takes out every entry of a function, searching from d on. */
  function RemoveFrom<F(==), D>(s: List<F, D>, fn: F, d: nat): (r: List<F, D>)
    requires s.entries.Some? && d <= |s.entries.value|
    ensures r.entries.Some?
    decreases |s.entries.value| - d
  {
    if d == |s.entries.value| then s
    else if s.entries.value[d].fn == fn then RemoveFrom(RemoveAt(s, d), fn, d)
    else RemoveFrom(s, fn, d + 1)
  }

  function RemoveAll<F(==), D>(s: List<F, D>, fns: seq<F>): List<F, D>
    decreases |fns|
  {
    if s.entries.None? || fns == [] then s else RemoveAll(RemoveFrom(s, fns[0], 0), fns[1..])
  }

  /** `fireWith`: nothing once a "once" or locked list has fired; queued during a walk. */
  function Fire<F, D>(s: List<F, D>, l: D): List<F, D> {
    if s.entries.Some? && (!s.fired || s.queue.Some?) then
      var t := s.(asked := s.asked + [l]);
      if s.walk.None? then Head(Begin(t, 0, l, false))
      else if s.queue.Some? then t.(queue := Some(s.queue.value + [l]))
      else s
    else s
  }

  /** `lock`: queued fires are dropped; without memory the list is disabled. */
  function LockList<F, D>(s: List<F, D>): List<F, D> {
    if s.memory.None? then DisableList(s) else s.(queue := None)
  }

  /** The running callback returns and the loop goes on. */
  function Resume<F, D>(s: List<F, D>): List<F, D> {
    if s.walk.Some? then Head(s.(index := s.index + 1)) else s
  }

  function Step<F(==), D>(s: List<F, D>, a: Act<F, D>): List<F, D> {
    match a
    case Add(fns) => AddAll(s, fns)
    case Remove(fns) => RemoveAll(s, fns)
    case FireWith(l) => Fire(s, l)
    case Disable => DisableList(s)
    case Lock => LockList(s)
    case Return => Resume(s)
  }

  function Run<F(==), D>(s: List<F, D>, acts: seq<Act<F, D>>): List<F, D>
    decreases |acts|
  {
    if acts == [] then s else Run(Step(s, acts[0]), acts[1..])
  }
}
