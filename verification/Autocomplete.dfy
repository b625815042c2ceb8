/**
 Requests and answers of the autocomplete: answers may come in any order, each request being answered
 at most once. While an answer is dealt with, handlers may search, close, and let other answers in.
 */
module Autocomplete {

  /**
   `pending`, `requestIndex`, the loading mark, `cancelSearch`; and as history the requests whose
   responder has not returned, and those among them whose responder has been called.
   */
  datatype State = State(pending: int, requestIndex: int, loading: bool, cancelSearch: bool,
                         open: set<int>, begun: set<int>)

  /** The responder of a request is called with the answer; it returns after the handlers it called. */
  datatype Event = Search | Answer(request: int) | Answered(request: int) | Close

  const START := State(0, 0, false, false, {}, {})

  /** A responder is called at most once, and returns only if it was called. */
  predicate CanHappen(s: State, e: Event) {
    && (e.Answer? ==> e.request in s.open - s.begun)
    && (e.Answered? ==> e.request in s.begun)
  }

  /** The answer goes on to `__response`, which opens the menu unless `cancelSearch` is set after the handlers. */
  predicate Passes(s: State, request: int) {
    request == s.requestIndex
  }

  function Step(s: State, e: Event): State {
    match e
    case Search =>
      s.(pending := s.pending + 1, requestIndex := s.requestIndex + 1, loading := true, cancelSearch := false,
         open := s.open + {s.requestIndex + 1})
    case Answer(r) => s.(begun := s.begun + {r})
    case Answered(r) =>
      s.(pending := s.pending - 1, loading := if s.pending - 1 == 0 then false else s.loading,
         open := s.open - {r}, begun := s.begun - {r})
    case Close => s.(cancelSearch := true)
  }

  /** A run: every event could happen where it does. */
  ghost predicate IsRun(states: seq<State>, events: seq<Event>) {
    && |states| == |events| + 1 && states[0] == START
    && forall k :: 0 <= k < |events| ==> CanHappen(states[k], events[k]) && states[k + 1] == Step(states[k], events[k])
  }

  ghost predicate Inv(s: State) {
    && s.pending == |s.open| && (s.loading <==> s.pending > 0) && s.begun <= s.open
    && 0 <= s.requestIndex && forall r :: r in s.open ==> 1 <= r <= s.requestIndex
  }

  lemma StepKeeps(s: State, e: Event)
    requires Inv(s) && CanHappen(s, e)
    ensures Inv(Step(s, e))
  {
    if e.Answered? {
      assert |s.open - {e.request}| == |s.open| - 1;
      assert s.open - {e.request} == {} <==> |s.open - {e.request}| == 0;
    }
  }

  lemma {:induction false} RunKeeps(states: seq<State>, events: seq<Event>, k: nat)
    requires IsRun(states, events) && k < |states|
    ensures Inv(states[k])
  {
    hide Inv, Step, CanHappen;
    if k > 0 {
      RunKeeps(states, events, k - 1);
      StepKeeps(states[k - 1], events[k - 1]);
    } else {
      StartOk();
    }
  }

  lemma StartOk()
    ensures Inv(START)
  {
  }

  predicate Occurs(events: seq<Event>, j: nat, k: nat, e: Event)
    requires k <= |events|
  {
    exists i :: j < i < k && events[i] == e
  }

  lemma OccursStep(events: seq<Event>, j: nat, k: nat, e: Event)
    requires j + 1 < k <= |events|
    ensures Occurs(events, j, k, e) <==> Occurs(events, j, k - 1, e) || events[k - 1] == e
  {
    if events[k - 1] == e {
      assert events[k - 1] == e;
    }
  }

  /**
   The request made by event j can be answered iff it has not been, and its responder can return iff it was called
   and has not returned: so each is answered at most once.
   */
  lemma {:induction false} AnsweredOnce(states: seq<State>, events: seq<Event>, j: nat, k: nat)
    requires IsRun(states, events) && j < k < |states| && events[j].Search?
    ensures (var r := states[j + 1].requestIndex;
             && (CanHappen(states[k], Answer(r)) <==> !Occurs(events, j, k, Answer(r)))
             && (CanHappen(states[k], Answered(r))
                 <==> Occurs(events, j, k, Answer(r)) && !Occurs(events, j, k, Answered(r)))
             && (r in states[k].open <==> !Occurs(events, j, k, Answered(r)))
             && (Occurs(events, j, k, Answered(r)) ==> Occurs(events, j, k, Answer(r)))
             && r <= states[k].requestIndex)
  {
    hide Inv;
    RunKeeps(states, events, j);
    var r := states[j + 1].requestIndex;
    if k == j + 1 {
      NewRequest(states[j]);
    } else {
      AnsweredOnce(states, events, j, k - 1);
      OccursStep(events, j, k, Answer(r));
      OccursStep(events, j, k, Answered(r));
    }
  }

  lemma NewRequest(s: State)
    requires Inv(s)
    ensures s.requestIndex + 1 !in s.open && s.requestIndex + 1 !in s.begun
  {
  }

  /** How many searches the events hold. */
  function Searches(events: seq<Event>): nat {
    if events == [] then 0
    else Searches(events[..|events| - 1]) + (if events[|events| - 1].Search? then 1 else 0)
  }

  lemma {:induction false} IndexCounts(states: seq<State>, events: seq<Event>, k: nat)
    requires IsRun(states, events) && k < |states|
    ensures states[k].requestIndex == Searches(events[..k])
  {
    if k > 0 {
      IndexCounts(states, events, k - 1);
      assert events[..k][..k - 1] == events[..k - 1];
    }
  }

  lemma {:induction false} SearchesGrow(events: seq<Event>, j: nat, k: nat)
    requires j <= k <= |events|
    ensures Searches(events[..j]) <= Searches(events[..k])
    ensures Searches(events[..j]) == Searches(events[..k]) <==> forall i :: j <= i < k ==> !events[i].Search?
    decreases k
  {
    if j < k {
      SearchesGrow(events, j, k - 1);
      assert events[..k][..k - 1] == events[..k - 1];
    }
  }

  /**
   In every run, with the request made by event j and answered by event k: the answer goes on if and only
   if no later request has been issued in between.
   */
  lemma OnlyTheLatestAnswers(states: seq<State>, events: seq<Event>, j: nat, k: nat)
    requires IsRun(states, events) && j < k < |events| && events[j].Search?
    requires events[k] == Answer(states[j + 1].requestIndex)
    ensures Passes(states[k], events[k].request) <==> forall i :: j < i < k ==> !events[i].Search?
  {
    hide Step;
    IndexCounts(states, events, j + 1);
    IndexCounts(states, events, k);
    SearchesGrow(events, j + 1, k);
  }

  /** A search is cancelled as long as the widget has been closed since the last one. */
  lemma {:induction false} CancelledIs(states: seq<State>, events: seq<Event>, k: nat)
    requires IsRun(states, events) && k < |states|
    ensures states[k].cancelSearch <==> exists i :: 0 <= i < k && events[i].Close? && NoSearch(events, i, k)
  {
    hide NoSearch;
    if k > 0 {
      CancelledIs(states, events, k - 1);
      forall i | 0 <= i < k
        ensures NoSearch(events, i, k) <==> i == k - 1 || (NoSearch(events, i, k - 1) && !events[k - 1].Search?)
      {
        NoSearchStep(events, i, k);
      }
      if events[k - 1].Close? {
        assert NoSearch(events, k - 1, k);
      }
    }
  }

  /** No event strictly between these two is a search. */
  predicate NoSearch(events: seq<Event>, i: nat, k: nat)
    requires k <= |events|
  {
    forall l :: i < l < k ==> !events[l].Search?
  }

  lemma NoSearchStep(events: seq<Event>, i: nat, k: nat)
    requires i < k <= |events|
    ensures NoSearch(events, i, k) <==> i == k - 1 || (NoSearch(events, i, k - 1) && !events[k - 1].Search?)
  {
  }

  /**
   In every run, with the request made by event j and answered by event k, and m the moment when the handlers
   of the answer are through: the menu is opened iff no later request had been issued when the answer came and
   the widget has not been closed since its request, or has searched again after that. If the handlers do
   nothing, it is opened iff there was neither a search nor a close in between.
   */
  lemma MenuOpens(states: seq<State>, events: seq<Event>, j: nat, k: nat, m: nat)
    requires IsRun(states, events) && j < k < |events| && k <= m < |states| && events[j].Search?
    requires events[k] == Answer(states[j + 1].requestIndex)
    ensures Passes(states[k], events[k].request) && !states[m].cancelSearch
       <==> && NoSearch(events, j, k)
            && forall i :: j < i < m && events[i].Close? ==> !NoSearch(events, i, m)
    ensures Passes(states[k], events[k].request) && !states[k].cancelSearch
       <==> forall i :: j < i < k ==> !events[i].Search? && !events[i].Close?
  {
    hide Step, IsRun;
    OnlyTheLatestAnswers(states, events, j, k);
    CancelledSince(states, events, j, m);
    CancelledSince(states, events, j, k);
  }

  /** Only closes after a search count. */
  lemma CancelledSince(states: seq<State>, events: seq<Event>, j: nat, m: nat)
    requires IsRun(states, events) && j < m < |states| && events[j].Search?
    ensures states[m].cancelSearch <==> exists i :: j < i < m && events[i].Close? && NoSearch(events, i, m)
  {
    hide IsRun;
    CancelledIs(states, events, m);
  }

  /**
   In every run the counter is the number of requests made less the number of responders that have
   returned, and the loading mark is on exactly while they differ.
   */
  lemma PendingCounts(states: seq<State>, events: seq<Event>, k: nat)
    requires IsRun(states, events) && k < |states|
    ensures states[k].pending == Searches(events[..k]) - Returns(events[..k])
    ensures 0 <= states[k].pending && (states[k].loading <==> Returns(events[..k]) < Searches(events[..k]))
  {
    hide Step;
    RunKeeps(states, events, k);
    ReturnsCount(states, events, k);
  }

  /** How many responders have returned. */
  function Returns(events: seq<Event>): nat {
    if events == [] then 0
    else Returns(events[..|events| - 1]) + (if events[|events| - 1].Answered? then 1 else 0)
  }

  lemma {:induction false} ReturnsCount(states: seq<State>, events: seq<Event>, k: nat)
    requires IsRun(states, events) && k < |states|
    ensures states[k].pending == Searches(events[..k]) - Returns(events[..k])
  {
    if k > 0 {
      ReturnsCount(states, events, k - 1);
      assert events[..k][..k - 1] == events[..k - 1];
    }
  }

  /** The widget's own fields. */
  class Widget {
    var pending: int
    var requestIndex: int
    var loading: bool
    var cancelSearch: bool
    ghost var open: set<int>
    ghost var begun: set<int>

    ghost function Abs(): State
      reads this
    {
      State(pending, requestIndex, loading, cancelSearch, open, begun)
    }

    /** `pending` counts the open requests, and the loading mark is on while there are any. */
    ghost predicate Valid()
      reads this
    {
      Inv(Abs())
    }

    constructor ()
      ensures Valid() && Abs() == START
    {
      pending, requestIndex, loading, cancelSearch, open, begun := 0, 0, false, false, {}, {};
    }

    /** `_search`; the number is the one that the responder keeps. */
    method Search() returns (request: int)
      requires Valid()
      modifies this
      ensures Valid() && Abs() == Step(old(Abs()), Event.Search)
      ensures request == requestIndex && request !in old(open) && request in open - begun
      ensures loading && pending == |old(open)| + 1
    {
      StepKeeps(Abs(), Event.Search);
      pending := pending + 1;
      loading := true;
      cancelSearch := false;
      requestIndex := requestIndex + 1;
      request := requestIndex;
      open := open + {request};
    }

    /** The first half of a responder: whether the content goes on to `__response`. */
    method Respond(request: int) returns (passed: bool)
      requires Valid() && CanHappen(Abs(), Answer(request))
      modifies this
      ensures Valid() && Abs() == Step(old(Abs()), Answer(request))
      ensures passed == Passes(old(Abs()), request)
    {
      StepKeeps(Abs(), Answer(request));
      passed := request == requestIndex;
      begun := begun + {request};
    }

    /** Its second half, after the handlers. */
    method Responded(request: int)
      requires Valid() && CanHappen(Abs(), Answered(request))
      modifies this
      ensures Valid() && Abs() == Step(old(Abs()), Answered(request))
      ensures pending == |old(open)| - 1 && (loading <==> old(open) != {request})
    {
      StepKeeps(Abs(), Answered(request));
      pending := pending - 1;
      if pending == 0 {
        loading := false;
      }
      open := open - {request};
      begun := begun - {request};
    }

    /** `close`. */
    method Close()
      requires Valid()
      modifies this
      ensures Valid() && Abs() == Step(old(Abs()), Event.Close)
    {
      cancelSearch := true;
    }
  }
}
