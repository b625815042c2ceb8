/**
 Which tabs are disabled, kept as `false`, `true` or a list of indices, and the search for the next
 enabled tab.
 */
module Tabs {
  import opened Wrappers
  import opened Division

  /** `options.disabled`: false, true, or an array. */
  datatype Disabled = Nobody | Everybody | These(list: seq<int>)

  /** `$.inArray( i, disabled ) !== -1`; a boolean is no array and holds nothing. */
  predicate Listed(d: Disabled, i: int) {
    d.These? && i in d.list
  }

  /** The tabs, of n, that are disabled. */
  ghost function Denotes(d: Disabled, n: nat): set<int> {
    set i | 0 <= i < n && (d == Everybody || Listed(d, i))
  }

  predicate Distinct(s: seq<int>) {
    forall i, j :: 0 <= i < j < |s| ==> s[i] != s[j]
  }

  /** An array is used only where it must be: some tabs, not all, each once. */
  predicate Canonical(d: Disabled, n: nat) {
    d.These? ==> 0 < |d.list| < n && Distinct(d.list) && forall i :: 0 <= i < |d.list| ==> 0 <= d.list[i] < n
  }

  /** The array-to-boolean step of `_setupDisabled`. */
  function Simplify(d: Disabled, n: nat): Disabled {
    if d.These? && d.list == [] then Nobody
    else if d.These? && |d.list| == n then Everybody
    else d
  }

  /** `$.map` with a function that drops one number. */
  function Without(s: seq<int>, index: int): seq<int> {
    if s == [] then [] else (if s[0] != index then [s[0]] else []) + Without(s[1..], index)
  }

  /** The indices of n tabs. */
  function Indices(n: nat): (s: seq<int>)
    ensures |s| == n && forall i :: 0 <= i < n ==> s[i] == i
  {
    seq(n, i => i)
  }

  /** `options.disabled` after `enable`; None stands for all tabs. */
  function AfterEnable(d: Disabled, n: nat, index: Option<int>): Disabled {
    if d == Nobody then d
    else if index.None? then Nobody
    else Simplify(These(Without(if d.These? then d.list else Indices(n), index.value)), n)
  }

  /** `options.disabled` after `disable`, but for the order of the list. */
  function AfterDisable(d: Disabled, n: nat, index: Option<int>): Disabled {
    if d == Everybody then d
    else if index.None? then Everybody
    else if Listed(d, index.value) then d
    else Simplify(These([index.value] + (if d.These? then d.list else [])), n)
  }

  class TabSet {
    const n: nat
    var disabled: Disabled
    var marked: seq<bool>  // the class ui-state-disabled of each tab

    constructor (n: nat)
      ensures this.n == n && disabled == Nobody && Consistent()
    {
      this.n, disabled, marked := n, Nobody, seq(n, i => false);
    }

    /** The marks show what the option denotes. */
    ghost predicate Consistent()
      reads this
    {
      |marked| == n && forall i :: 0 <= i < n ==> (marked[i] <==> i in Denotes(disabled, n))
    }

    /** `_setupDisabled`. */
    method SetupDisabled(d: Disabled)
      modifies this
      ensures disabled == Simplify(d, n) && Consistent()
    {
      var value := Simplify(d, n);
      var marks := [];
      for i := 0 to n
        invariant |marks| == i && forall k :: 0 <= k < i ==> (marks[k] <==> value == Everybody || Listed(value, k))
      {
        marks := marks + [value == Everybody || Listed(value, i)];
      }
      disabled, marked := value, marks;
    }

    /** `enable`. */
    method Enable(index: Option<int>)
      requires Consistent()
      modifies this
      ensures disabled == AfterEnable(old(disabled), n, index)
      ensures Consistent()
    {
      if disabled == Nobody {
        return;
      }
      if index.None? {
        SetupDisabled(Nobody);
      } else {
        var kept := Drop(if disabled.These? then disabled.list else Indices(n), index.value);
        SetupDisabled(These(kept));
      }
    }

    /** The loop of `$.map`. */
    method Drop(all: seq<int>, index: int) returns (kept: seq<int>)
      ensures kept == Without(all, index)
    {
      hide Without;
      WithoutEnds(all, index);
      kept := [];
      var i := 0;
      while i < |all|
        invariant 0 <= i <= |all|
        invariant kept + Without(all[i..], index) == Without(all, index)
      {
        WithoutStep(kept, all, i, index);
        if all[i] != index {
          kept := kept + [all[i]];
        }
        i := i + 1;
      }
      assert kept + [] == kept;
    }

    /** `disable`. */
    method Disable(index: Option<int>)
      requires Consistent()
      modifies this
      ensures disabled == AfterDisable(old(disabled), n, index)
      ensures Consistent()
    {
      if disabled == Everybody {
        return;
      }
      if index.None? {
        SetupDisabled(Everybody);
      } else {
        if Listed(disabled, index.value) {
          return;
        }
        SetupDisabled(These([index.value] + (if disabled.These? then disabled.list else [])));
      }
    }

    /**
     `_findNextTab`: the search ends, at the first enabled tab in the direction from where it starts; if
     all tabs are disabled, where it starts.
     */
    method FindNextTab(start: int, goingForward: bool) returns (index: int)
      requires Canonical(disabled, n)
      ensures n == 0 ==> index == if start > -1 then 0 else -1
      ensures n > 0 ==> IsNext(disabled, n, Constrain(start, n), goingForward, index)
    {
      index := Constrain(start, n);
      ghost var from, k, reach := index, 0, 0;
      if disabled.These? {
        reach := SomeEnabled(disabled.list, n, from, goingForward);
      }
      WalkStep(from, 0, n, goingForward);
      while Listed(disabled, index)
        invariant n > 0 ==> 0 <= k <= reach && k < n && index == Walk(from, k, n, goingForward)
        invariant n == 0 ==> k == 0 && index == from
        invariant forall j :: 0 <= j < k ==> Listed(disabled, Walk(from, j, n, goingForward))
        invariant reach == 0 || (n > 0 && reach < n)
        invariant disabled.These? ==> n > 0 && !Listed(disabled, Walk(from, reach, n, goingForward))
        decreases reach - k
      {
        WalkStep(from, k, n, goingForward);
        index := Constrain(if goingForward then index + 1 else index - 1, n);
        k := k + 1;
      }
    }
  }

  lemma WithoutEnds(all: seq<int>, index: int)
    ensures Without(all[|all|..], index) == [] && Without(all[0..], index) == Without(all, index)
  {
  }

  lemma WithoutStep(kept: seq<int>, all: seq<int>, i: nat, index: int)
    requires i < |all|
    ensures kept + Without(all[i..], index)
         == (if all[i] != index then kept + [all[i]] else kept) + Without(all[i + 1..], index)
  {
  }

  /** `constrain`: round the end to the first tab, below the first to the last. */
  function Constrain(index: int, n: nat): (r: int)
    ensures 0 < n ==> 0 <= r < n && (r == index <==> 0 <= index < n)
    ensures index < 0 ==> r == n - 1
    ensures 0 < n <= index ==> r == 0
  {
    var i := if index > n - 1 then 0 else index;
    if i < 0 then n - 1 else i
  }

  /** The tab k places on, round the end. */
  function Walk(from: int, k: int, n: nat, goingForward: bool): (r: int)
    ensures 0 < n ==> 0 <= r < n
  {
    if n == 0 then from else if goingForward then (from + k) % n else (from - k) % n
  }

  /** Reached in the direction after passing only disabled tabs, and enabled if any tab is. */
  ghost predicate IsNext(d: Disabled, n: nat, from: int, goingForward: bool, index: int)
    requires 0 < n
  {
    exists k :: 0 <= k < n && index == Walk(from, k, n, goingForward)
      && (d == Everybody ==> k == 0)
      && (d != Everybody ==> index !in Denotes(d, n))
      && (d != Everybody ==> forall j :: 0 <= j < k ==> Walk(from, j, n, goingForward) in Denotes(d, n))
  }

  /** One place on is one step, round the end. */
  lemma WalkStep(from: int, k: nat, n: nat, goingForward: bool)
    ensures 0 < n ==> (var i := Walk(from, k, n, goingForward);
                       Walk(from, k + 1, n, goingForward) == Constrain(if goingForward then i + 1 else i - 1, n))
    ensures 0 < n && 0 <= from < n ==> Walk(from, 0, n, goingForward) == from
  {
    if 0 < n {
      StepUp(from + k, n);
      StepUp(from - k - 1, n);
      if 0 <= from < n {
        DivUnique(from, n, 0, from);
      }
    }
  }

  lemma StepUp(a: int, n: nat)
    requires 0 < n
    ensures (a + 1) % n == if a % n == n - 1 then 0 else a % n + 1
  {
    if a % n == n - 1 {
      assert n * (a / n + 1) == n * (a / n) + n;
      DivUnique(a + 1, n, a / n + 1, 0);
    } else {
      DivUnique(a + 1, n, a / n, a % n + 1);
    }
  }

  // ---------- counting ----------

  function ElementsOf(s: seq<int>): set<int> {
    set x | x in s
  }

  lemma {:induction false} FewElements(s: seq<int>)
    ensures |ElementsOf(s)| <= |s|
    ensures Distinct(s) ==> |ElementsOf(s)| == |s|
  {
    if s != [] {
      var init, last := s[..|s| - 1], s[|s| - 1];
      FewElements(init);
      assert s == init + [last];
      assert ElementsOf(s) == ElementsOf(init) + {last};
      if Distinct(s) {
        assert last !in init;
      }
    }
  }

  function Range(n: nat): (r: set<int>)
    ensures forall i :: i in r <==> 0 <= i < n
  {
    if n == 0 then {} else Range(n - 1) + {n - 1}
  }

  lemma {:induction false} RangeSize(n: nat)
    ensures |Range(n)| == n
  {
    if n > 0 {
      RangeSize(n - 1);
      OneMore(Range(n - 1), n - 1);
    }
  }

  lemma OneMore(s: set<int>, x: int)
    requires x !in s
    ensures |s + {x}| == |s| + 1
  {
  }

  lemma SubsetSize(a: set<int>, b: set<int>)
    requires a <= b
    ensures |a| <= |b|
    ensures |a| == |b| ==> a == b
  {
    assert b == a + (b - a);
    assert |b| == |a| + |b - a|;
    if |a| == |b| {
      assert b - a == {};
    }
  }

  /** A list shorter than n leaves some tab enabled, within n - 1 steps of anywhere. */
  lemma SomeEnabled(list: seq<int>, n: nat, from: int, goingForward: bool) returns (k: nat)
    requires |list| < n && 0 <= from < n
    ensures k < n && Walk(from, k, n, goingForward) !in list
  {
    if forall e :: 0 <= e < n ==> e in list {
      RangeSize(n);
      FewElements(list);
      SubsetSize(Range(n), ElementsOf(list));
      assert false;
    }
    var e :| 0 <= e < n && e !in list;
    var d := if goingForward then e - from else from - e;
    k := if d >= 0 then d else d + n;
    var a := if goingForward then from + k else from - k;
    if a == e {
      DivUnique(a, n, 0, e);
    } else if goingForward {
      DivUnique(a, n, 1, e);
    } else {
      DivUnique(a, n, -1, e);
    }
  }

  // ---------- what enable and disable mean ----------

  lemma {:induction false} WithoutIs(s: seq<int>, index: int)
    ensures forall x :: x in Without(s, index) <==> x in s && x != index
    ensures Distinct(s) ==> Distinct(Without(s, index))
    ensures |Without(s, index)| <= |s|
    ensures index in s ==> |Without(s, index)| < |s|
    ensures index !in s ==> Without(s, index) == s
    decreases |s|
  {
    if s != [] {
      WithoutIs(s[1..], index);
      assert s == [s[0]] + s[1..];
      var rest := Without(s[1..], index);
      assert Distinct(s) ==> s[0] !in s[1..];
      assert forall i :: 0 <= i < |rest| ==> rest[i] in rest;
    }
  }

  /** A list of distinct tabs, simplified, is in canonical form and denotes its elements. */
  lemma SimplifyDenotes(list: seq<int>, n: nat)
    requires Distinct(list) && forall x :: x in list ==> 0 <= x < n
    ensures Canonical(Simplify(These(list), n), n)
    ensures Denotes(Simplify(These(list), n), n) == ElementsOf(list)
  {
    RangeSize(n);
    FewElements(list);
    SubsetSize(ElementsOf(list), Range(n));
    assert forall i :: 0 <= i < |list| ==> list[i] in list;
  }

  /** Enabling takes the tab out of the disabled ones; an index that is no tab changes nothing. */
  lemma EnableDenotes(d: Disabled, n: nat, index: int)
    requires Canonical(d, n)
    ensures Canonical(AfterEnable(d, n, Some(index)), n)
    ensures Denotes(AfterEnable(d, n, Some(index)), n) == Denotes(d, n) - {index}
  {
    hide Simplify, Without;
    if d != Nobody {
      var all := if d.These? then d.list else Indices(n);
      AllListed(d, n, all);
      WithoutIs(all, index);
      SimplifyDenotes(Without(all, index), n);
      assert ElementsOf(Without(all, index)) == ElementsOf(all) - {index};
    }
  }

  lemma AllListed(d: Disabled, n: nat, all: seq<int>)
    requires Canonical(d, n) && d != Nobody && all == if d.These? then d.list else Indices(n)
    ensures Distinct(all) && (forall x :: x in all ==> 0 <= x < n) && ElementsOf(all) == Denotes(d, n)
  {
    if d == Everybody {
      forall i | 0 <= i < n ensures i in all {
        assert all[i] == i;
      }
    }
  }

  /**
   Disabling a tab adds it to the disabled ones and keeps the form canonical; given an index that is no
   tab it fails to, unless all tabs are disabled already.
   */
  lemma DisableDenotes(d: Disabled, n: nat, index: int)
    requires Canonical(d, n)
    ensures (var r := AfterDisable(d, n, Some(index));
             Canonical(r, n) && Denotes(r, n) == Denotes(d, n) + ({index} * Range(n))
             <==> 0 <= index < n || d == Everybody)
  {
    var list := if d.These? then d.list else [];
    if d != Everybody && !Listed(d, index) {
      NobodyOrListed(d, n, list);
      if 0 <= index < n {
        hide Simplify;
        assert forall x :: x in [index] + list <==> x == index || x in list;
        SimplifyDenotes([index] + list, n);
        assert ElementsOf([index] + list) == ElementsOf(list) + {index};
      } else {
        NoTab(d, n, index, list);
      }
    }
  }

  lemma NobodyOrListed(d: Disabled, n: nat, list: seq<int>)
    requires Canonical(d, n) && d != Everybody && list == if d.These? then d.list else []
    ensures Distinct(list) && (forall x :: x in list ==> 0 <= x < n) && ElementsOf(list) == Denotes(d, n)
  {
  }

  /** An index that is no tab stays in the list or, counted in, makes it seem complete. */
  lemma NoTab(d: Disabled, n: nat, index: int, list: seq<int>)
    requires Canonical(d, n) && d != Everybody && list == (if d.These? then d.list else []) && !(0 <= index < n)
    ensures (var r := AfterDisable(d, n, Some(index)); !Canonical(r, n) || Denotes(r, n) != Denotes(d, n))
  {
    var r := AfterDisable(d, n, Some(index));
    if r == Everybody {
      RangeSize(n);
      NobodyOrListed(d, n, list);
      FewElements(list);
      assert Denotes(r, n) == Range(n);
    } else {
      assert ([index] + list)[0] == index;
    }
  }

  /** With a single tab, disabling a tab that does not exist disables it. */
  lemma NoTabDisablesAll()
    ensures AfterDisable(Nobody, 1, Some(5)) == Everybody && 0 in Denotes(Everybody, 1) && 0 !in Denotes(Nobody, 1)
  {
  }

  datatype Op = EnableTab(i: int) | DisableTab(i: int) | EnableAll | DisableAll

  function Apply(d: Disabled, n: nat, op: Op): Disabled {
    match op
    case EnableTab(i) => AfterEnable(d, n, Some(i))
    case DisableTab(i) => AfterDisable(d, n, Some(i))
    case EnableAll => AfterEnable(d, n, None)
    case DisableAll => AfterDisable(d, n, None)
  }

  function ApplyAll(d: Disabled, n: nat, ops: seq<Op>): Disabled
    decreases |ops|
  {
    if ops == [] then d else ApplyAll(Apply(d, n, ops[0]), n, ops[1..])
  }

  /** The same on plain sets. */
  function SetAfter(s: set<int>, n: nat, ops: seq<Op>): set<int>
    decreases |ops|
  {
    if ops == [] then s
    else
      var t := match ops[0]
               case EnableTab(i) => s - {i}
               case DisableTab(i) => s + {i}
               case EnableAll => {}
               case DisableAll => Range(n);
      SetAfter(t, n, ops[1..])
  }

  /** In every run the mixed form denotes the true set of disabled tabs, in canonical form. */
  lemma {:induction false} RunDenotes(d: Disabled, n: nat, ops: seq<Op>)
    requires Canonical(d, n)
    requires forall k :: 0 <= k < |ops| && ops[k].DisableTab? ==> 0 <= ops[k].i < n
    ensures Canonical(ApplyAll(d, n, ops), n)
    ensures Denotes(ApplyAll(d, n, ops), n) == SetAfter(Denotes(d, n), n, ops)
    decreases |ops|
  {
    hide AfterEnable, AfterDisable, Canonical, Denotes;
    if ops != [] {
      ApplyDenotes(d, n, ops[0]);
      RunDenotes(Apply(d, n, ops[0]), n, ops[1..]);
    }
  }

  lemma ApplyDenotes(d: Disabled, n: nat, op: Op)
    requires Canonical(d, n) && (op.DisableTab? ==> 0 <= op.i < n)
    ensures Canonical(Apply(d, n, op), n)
    ensures Denotes(Apply(d, n, op), n) == match op
                                          case EnableTab(i) => Denotes(d, n) - {i}
                                          case DisableTab(i) => Denotes(d, n) + {i}
                                          case EnableAll => {}
                                          case DisableAll => Range(n)
  {
    match op
    case EnableTab(i) => EnableDenotes(d, n, i);
    case DisableTab(i) => DisableDenotes(d, n, i);
    case EnableAll =>
    case DisableAll => assert Denotes(Everybody, n) == Range(n);
  }
}
