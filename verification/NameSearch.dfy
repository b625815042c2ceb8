/**
 Which name `getName` finds: the longest of those that stand at the position, and among equally
 long ones the first in the list.
 */
module NameSearch {
  import opened Wrappers
  import opened ParseDate

  /** Index a is looked at before index b. */
  predicate Before(names: seq<string>, a: nat, b: nat)
    requires a < |names| && b < |names|
  {
    |names[a]| > |names[b]| || (|names[a]| == |names[b]| && a < b)
  }

  /** A list of indices in the order of the search. */
  ghost predicate Ordered(order: seq<nat>, names: seq<string>)
    decreases |order|
  {
    order == [] ||
    (&& order[0] < |names|
     && (forall x: nat :: x in order[1..] ==> x < |names| && Before(names, order[0], x))
     && Ordered(order[1..], names))
  }

  lemma {:induction false} InsertKeepsOrder(order: seq<nat>, k: nat, names: seq<string>)
    requires k < |names| && (forall i :: 0 <= i < |order| ==> order[i] < |names|)
    requires Ordered(order, names) && forall x: nat :: x in order ==> x < k
    ensures Ordered(InsertByLength(order, k, names), names)
    ensures forall x: nat :: x in InsertByLength(order, k, names) <==> x in order || x == k
    decreases |order|
  {
    if order == [] || |names[order[0]]| < |names[k]| {
      assert ([k] + order)[1..] == order;
      assert order == [] || order == [order[0]] + order[1..];
    } else {
      var r := InsertByLength(order[1..], k, names);
      assert order == [order[0]] + order[1..];
      assert order[0] in order;
      assert forall x: nat :: x in order[1..] ==> x in order;
      InsertKeepsOrder(order[1..], k, names);
      assert ([order[0]] + r)[1..] == r;
    }
  }

  lemma {:induction false} ByLengthIsOrdered(names: seq<string>, k: nat)
    requires k <= |names|
    ensures Ordered(ByLength(names, k), names)
    ensures forall x: nat :: x in ByLength(names, k) <==> x < k
  {
    hide Before, InsertByLength, Ordered;
    if k > 0 {
      ByLengthIsOrdered(names, k - 1);
      InsertKeepsOrder(ByLength(names, k - 1), k - 1, names);
    } else {
      OrderedEmpty(names);
    }
  }

  lemma OrderedEmpty(names: seq<string>)
    ensures Ordered([], names)
  {
  }

  lemma {:induction false} FirstMatchLeads(order: seq<nat>, names: seq<string>, value: string, pos: nat)
    requires (forall i :: 0 <= i < |order| ==> order[i] < |names|) && Ordered(order, names)
    ensures FirstMatch(order, names, value, pos).Some? ==> FirstMatch(order, names, value, pos).value in order
    ensures forall j: nat :: j in order && MatchesAt(value, pos, names[j]) ==>
              var m := FirstMatch(order, names, value, pos);
              m.Some? && (m.value == j || Before(names, m.value, j))
    decreases |order|
  {
    hide MatchesAt, Before;
    if order != [] {
      FirstMatchLeads(order[1..], names, value, pos);
      assert order == [order[0]] + order[1..];
    }
  }

  /** `getName` finds name k iff it stands there and every other name that does comes after it. */
  lemma GetNameFinds(names: seq<string>, value: string, pos: nat, k: nat)
    requires k < |names|
    ensures GetName(names, value, pos) == Ok((k, pos + |names[k]|))
       <==> MatchesAt(value, pos, names[k])
            && forall j :: 0 <= j < |names| && j != k && MatchesAt(value, pos, names[j]) ==> Before(names, k, j)
  {
    hide MatchesAt, ByLength, FirstMatch;
    ByLengthIsOrdered(names, |names|);
    FirstMatchLeads(ByLength(names, |names|), names, value, pos);
    var m := FirstMatch(ByLength(names, |names|), names, value, pos);
  }

  /** It ends where name k ends iff name k stands there and no longer name does. */
  lemma GetNameEnds(names: seq<string>, value: string, pos: nat, k: nat)
    requires k < |names| && MatchesAt(value, pos, names[k])
    ensures GetName(names, value, pos).Ok?
    ensures GetName(names, value, pos).value.1 == pos + |names[k]|
       <==> forall j :: 0 <= j < |names| && MatchesAt(value, pos, names[j]) ==> |names[j]| <= |names[k]|
  {
    hide MatchesAt, ByLength, FirstMatch;
    ByLengthIsOrdered(names, |names|);
    FirstMatchLeads(ByLength(names, |names|), names, value, pos);
    var m := FirstMatch(ByLength(names, |names|), names, value, pos);
  }

  /** It fails, naming the position, iff no name stands there. */
  lemma GetNameFails(names: seq<string>, value: string, pos: nat)
    ensures GetName(names, value, pos) == Err(UnknownName(pos))
       <==> forall j :: 0 <= j < |names| ==> !MatchesAt(value, pos, names[j])
    ensures GetName(names, value, pos).Err? ==> GetName(names, value, pos) == Err(UnknownName(pos))
  {
    hide ByLength, MatchesAt;
    ByLengthIsOrdered(names, |names|);
    FirstMatchLeads(ByLength(names, |names|), names, value, pos);
    var m := FirstMatch(ByLength(names, |names|), names, value, pos);
    if m.Some? {
      FirstMatchStands(ByLength(names, |names|), names, value, pos);
    }
  }

  lemma {:induction false} FirstMatchStands(order: seq<nat>, names: seq<string>, value: string, pos: nat)
    requires (forall i :: 0 <= i < |order| ==> order[i] < |names|) && FirstMatch(order, names, value, pos).Some?
    ensures MatchesAt(value, pos, names[FirstMatch(order, names, value, pos).value])
    decreases |order|
  {
    hide MatchesAt;
    if order != [] && !MatchesAt(value, pos, names[order[0]]) {
      FirstMatchStands(order[1..], names, value, pos);
    }
  }
}
