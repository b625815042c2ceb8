/**
 Rubber-band selection: what a drag makes of every item. Each item carries classes on its element and
 flags in its record, which the code sets side by side but not always alike.
 */
module Selectable {

  /** Position of an item, its classes (c...) and its flags. */
  datatype Item = Item(left: int, right: int, top: int, bottom: int,
                       cSelected: bool, cSelecting: bool, cUnselecting: bool,
                       selected: bool, selecting: bool, unselecting: bool, startselected: bool)

  datatype Tolerance = Touch | Fit

  datatype Point = Point(x: int, y: int)

  /** The rectangle between where the drag began and where the mouse is now. */
  datatype Rect = Rect(x1: int, y1: int, x2: int, y2: int)

  function RectOf(a: Point, b: Point): Rect {
    Rect(if a.x > b.x then b.x else a.x, if a.y > b.y then b.y else a.y,
         if a.x > b.x then a.x else b.x, if a.y > b.y then a.y else b.y)
  }

  predicate Hit(i: Item, r: Rect, tolerance: Tolerance) {
    match tolerance
    case Touch => !(i.left > r.x2 || i.right < r.x1 || i.top > r.y2 || i.bottom < r.y1)
    case Fit => i.left > r.x1 && i.right < r.x2 && i.top > r.y1 && i.bottom < r.y2
  }

  predicate Between(a: int, x: int, b: int) {
    a <= x <= b || b <= x <= a
  }

  predicate Inside(a: int, x: int, b: int) {
    a < x < b || b < x < a
  }

  predicate OnItem(p: Point, i: Item) {
    i.left <= p.x <= i.right && i.top <= p.y <= i.bottom
  }

  /**
   Wherever the drag began and ended: an item is touched iff it shares a point with the rectangle between, and fits
   iff all of it lies inside.
   */
  lemma HitByPoints(i: Item, a: Point, b: Point)
    requires i.left <= i.right && i.top <= i.bottom
    ensures Hit(i, RectOf(a, b), Touch)
       <==> exists p: Point :: OnItem(p, i) && Between(a.x, p.x, b.x) && Between(a.y, p.y, b.y)
    ensures Hit(i, RectOf(a, b), Fit)
       <==> forall p: Point :: OnItem(p, i) ==> Inside(a.x, p.x, b.x) && Inside(a.y, p.y, b.y)
  {
    var r := RectOf(a, b);
    if Hit(i, r, Touch) {
      var p := Point(if i.left >= r.x1 then i.left else r.x1, if i.top >= r.y1 then i.top else r.y1);
      assert OnItem(p, i) && Between(a.x, p.x, b.x) && Between(a.y, p.y, b.y);
    }
    assert OnItem(Point(i.left, i.top), i) && OnItem(Point(i.right, i.bottom), i);
  }

  /** `refresh`: the flags are read off the classes. */
  function Refreshed(i: Item): Item {
    i.(startselected := false, selected := i.cSelected, selecting := i.cSelecting, unselecting := i.cUnselecting)
  }

  /** `_mouseStart`, for one item: modifier says whether Ctrl or Meta is held. */
  function Started(i: Item, modifier: bool): Item {
    if !i.cSelected then i
    else if modifier then i.(startselected := true)
    else i.(startselected := true, cSelected := false, selected := false, cUnselecting := true, unselecting := true)
  }

  /** The item that the drag began on. */
  function Pressed(i: Item, modifier: bool): Item {
    var doSelect := !modifier || !i.cSelected;
    if doSelect then
      i.(cUnselecting := false, cSelecting := true, unselecting := false, selecting := true, selected := true)
    else i.(cSelected := false, cUnselecting := true, unselecting := true, selecting := false, selected := false)
  }

  /** `_mouseDrag`, for one item inside the rectangle. */
  function DraggedIn(i: Item): Item {
    var a := if i.selected then i.(cSelected := false, selected := false) else i;
    var b := if a.unselecting then a.(cUnselecting := false, unselecting := false) else a;
    if !b.selecting then b.(cSelecting := true, selecting := true) else b
  }

  /** `_mouseDrag`, for one item outside of it. */
  function DraggedOut(i: Item, modifier: bool): Item {
    var a := if !i.selecting then i
             else if modifier && i.startselected then
               i.(cSelecting := false, selecting := false, cSelected := true, selected := true)
             else if i.startselected then
               i.(cSelecting := false, selecting := false, cUnselecting := true, unselecting := true)
             else i.(cSelecting := false, selecting := false);
    if a.selected && !modifier && !a.startselected then
      a.(cSelected := false, selected := false, cUnselecting := true, unselecting := true)
    else a
  }

  function Dragged(i: Item, hit: bool, modifier: bool): Item {
    if hit then DraggedIn(i) else DraggedOut(i, modifier)
  }

  /** `_mouseStop`, for one item: first the unselecting ones, then the selecting ones. */
  function Stopped(i: Item): Item {
    var a := if i.cUnselecting then i.(cUnselecting := false, unselecting := false, startselected := false) else i;
    if a.cSelecting then
      a.(cSelecting := false, cSelected := true, selecting := false, selected := true, startselected := true)
    else a
  }

  // ---------- a whole drag ----------

  /** Nobody is being selected or unselected: so it is before a drag and after it. */
  predicate Idle(i: Item) {
    !i.cSelecting && !i.cUnselecting && !i.selecting && !i.unselecting
  }

  function Begun(i: Item, pressed: bool, modifier: bool): Item {
    if pressed then Pressed(Started(i, modifier), modifier) else Started(i, modifier)
  }

  /** One move: whether the rectangle hits the item, and whether Ctrl or Meta is held. */
  datatype Move = Move(hit: bool, modifier: bool)

  /** The moves of a drag during which keys may be pressed and let go. */
  function MixedMoves(i: Item, moves: seq<Move>): Item {
    if moves == [] then i
    else Dragged(MixedMoves(i, moves[..|moves| - 1]), moves[|moves| - 1].hit, moves[|moves| - 1].modifier)
  }

  /** The moves of a drag during which keys are held throughout or not at all. */
  function Moved(i: Item, hits: seq<bool>, modifier: bool): Item {
    MixedMoves(i, seq(|hits|, k requires 0 <= k < |hits| => Move(hits[k], modifier)))
  }

  lemma MovedStep(i: Item, hits: seq<bool>, modifier: bool)
    ensures Moved(i, hits, modifier)
         == if hits == [] then i else Dragged(Moved(i, hits[..|hits| - 1], modifier), hits[|hits| - 1], modifier)
  {
    hide Dragged;
    if hits != [] {
      var init := hits[..|hits| - 1];
      var moves := seq(|hits|, k requires 0 <= k < |hits| => Move(hits[k], modifier));
      assert moves[..|hits| - 1] == seq(|init|, k requires 0 <= k < |init| => Move(init[k], modifier));
    }
  }

  /** What a drag makes of an item. */
  function AfterDrag(i: Item, pressed: bool, hits: seq<bool>, modifier: bool): Item {
    Stopped(Moved(Begun(i, pressed, modifier), hits, modifier))
  }

  /** Selecting and unselecting exclude each other, and here class and flag always agree. */
  predicate Exclusive(i: Item) {
    !(i.cSelecting && i.cUnselecting) && i.cSelecting == i.selecting && i.cUnselecting == i.unselecting
  }

  /**
   An item between drags, with or without a refresh: nothing is being selected, and the other flags are set
   where the class is, though perhaps also where it is not.
   */
  predicate AtRest(i: Item) {
    Idle(i) && (i.startselected ==> i.cSelected) && (i.cSelected ==> i.selected)
  }

  /** The same in the middle of a drag. */
  predicate Steady(i: Item) {
    && Exclusive(i) && (i.cSelected ==> i.selected)
    && (i.startselected ==> i.cSelected || i.cSelecting || i.cUnselecting)
  }

  lemma DragExclusive(i: Item, hit: bool, modifier: bool)
    requires Exclusive(i)
    ensures Exclusive(Dragged(i, hit, modifier))
  {
  }

  /** After every event of every drag, whatever keys are held at each of them; and the release leaves no mark. */
  lemma {:induction false} NeverBoth(i: Item, pressed: bool, modifier: bool, moves: seq<Move>)
    requires Idle(i)
    ensures Exclusive(MixedMoves(Begun(i, pressed, modifier), moves))
    ensures Idle(Stopped(MixedMoves(Begun(i, pressed, modifier), moves)))
  {
    hide Dragged;
    if moves != [] {
      var init := moves[..|moves| - 1];
      NeverBoth(i, pressed, modifier, init);
      DragExclusive(MixedMoves(Begun(i, pressed, modifier), init), moves[|moves| - 1].hit, moves[|moves| - 1].modifier);
    }
  }

  lemma SteadySteps(i: Item, pressed: bool, hit: bool, modifier: bool)
    ensures AtRest(i) ==> Steady(Begun(i, pressed, modifier))
    ensures Steady(i) ==> Steady(Dragged(i, hit, modifier))
    ensures Steady(i) ==> AtRest(Stopped(i))
  {
  }

  lemma {:induction false} SteadyMoves(i: Item, pressed: bool, modifier: bool, moves: seq<Move>)
    requires AtRest(i)
    ensures Steady(MixedMoves(Begun(i, pressed, modifier), moves))
  {
    hide Dragged, Begun, Steady, AtRest;
    if moves == [] {
      SteadySteps(i, pressed, false, modifier);
    } else {
      var init, last := moves[..|moves| - 1], moves[|moves| - 1];
      SteadyMoves(i, pressed, modifier, init);
      SteadySteps(MixedMoves(Begun(i, pressed, modifier), init), pressed, last.hit, last.modifier);
    }
  }

  /** A refreshed idle item is at rest, and every drag, whatever keys are held, leaves an item at rest so. */
  lemma RestKept(i: Item, pressed: bool, modifier: bool, moves: seq<Move>)
    ensures !i.cSelecting && !i.cUnselecting ==> AtRest(Refreshed(i)) && (Refreshed(i).selected <==> i.cSelected)
    ensures AtRest(i) ==> AtRest(Stopped(MixedMoves(Begun(i, pressed, modifier), moves)))
  {
    hide Dragged, Begun, Steady, MixedMoves, Stopped;
    if AtRest(i) {
      SteadyMoves(i, pressed, modifier, moves);
      SteadySteps(MixedMoves(Begun(i, pressed, modifier), moves), pressed, false, modifier);
    }
  }

  lemma {:induction false} PlainMoves(i: Item, pressed: bool, hits: seq<bool>)
    requires Idle(i)
    ensures (var m := Moved(Begun(i, pressed, false), hits, false);
             Exclusive(m) && !m.cSelected && (hits != [] ==> m.cSelecting == hits[|hits| - 1]))
  {
    hide Moved;
    MovedStep(Begun(i, pressed, false), hits, false);
    if hits != [] {
      PlainMoves(i, pressed, hits[..|hits| - 1]);
    }
  }

  /**
   Without Ctrl or Meta, after at least one move, exactly the items that the last rectangle hits are
   selected, whatever was selected before and whatever earlier rectangles hit.
   */
  lemma PlainDragSelects(i: Item, pressed: bool, hits: seq<bool>)
    requires Idle(i) && hits != []
    ensures AfterDrag(i, pressed, hits, false).cSelected <==> hits[|hits| - 1]
    ensures Idle(AfterDrag(i, pressed, hits, false))
  {
    PlainMoves(i, pressed, hits);
  }

  /** With a key held: whether the item was selected, whether it is to be kept so, whether the rectangle is on it. */
  predicate Tracks(m: Item, was: bool, kept: bool, last: bool) {
    && Exclusive(m) && m.startselected == was && (m.cSelected ==> m.selected) && (was ==> (m.selected <==> m.cSelected))
    && m.cSelecting == last && (last && was ==> kept)
    && (m.cSelected <==> was && kept && !last)
  }

  lemma TracksBegun(i: Item, pressed: bool)
    requires AtRest(i)
    ensures Tracks(Begun(i, pressed, true), i.cSelected, !pressed, pressed && !i.cSelected)
  {
  }

  lemma TracksDragged(m: Item, was: bool, kept: bool, last: bool, hit: bool)
    requires Tracks(m, was, kept, last)
    ensures Tracks(Dragged(m, hit, true), was, kept || hit, hit)
  {
  }

  /** The last rectangle is on the item; before the first move it counts as on an unselected item pressed on. */
  function Last(i: Item, pressed: bool, hits: seq<bool>): bool {
    if hits == [] then pressed && !i.cSelected else hits[|hits| - 1]
  }

  lemma AnyHit(hits: seq<bool>)
    requires hits != []
    ensures true in hits <==> true in hits[..|hits| - 1] || hits[|hits| - 1]
  {
    assert hits == hits[..|hits| - 1] + [hits[|hits| - 1]];
  }

  lemma {:induction false} ModifierMoves(i: Item, pressed: bool, hits: seq<bool>)
    requires AtRest(i)
    ensures Tracks(Moved(Begun(i, pressed, true), hits, true), i.cSelected, !pressed || true in hits,
                   Last(i, pressed, hits))
  {
    hide Dragged, Begun, Tracks, AtRest, Moved;
    MovedStep(Begun(i, pressed, true), hits, true);
    if hits == [] {
      TracksBegun(i, pressed);
    } else {
      var init, hit := hits[..|hits| - 1], hits[|hits| - 1];
      ModifierMoves(i, pressed, init);
      AnyHit(hits);
      TracksDragged(Moved(Begun(i, pressed, true), init, true), i.cSelected, !pressed || true in init,
                    Last(i, pressed, init), hit);
    }
  }

  /**
   With Ctrl or Meta held all through, the hits of the last rectangle are added to what was selected; an
   item selected before that the drag begins on is given up unless some rectangle hits it.
   */
  lemma ModifierDragAdds(i: Item, pressed: bool, hits: seq<bool>)
    requires AtRest(i) && hits != []
    ensures AfterDrag(i, pressed, hits, true).cSelected
       <==> hits[|hits| - 1] || (i.cSelected && (!pressed || true in hits))
  {
    hide Moved, Begun;
    ModifierMoves(i, pressed, hits);
  }

  /** A move without keys clears the flag of an item that it hits or that was not selected at the start. */
  lemma DragFlag(i: Item, hit: bool)
    ensures Dragged(i, hit, false).selected == (i.selected && !hit && i.startselected)
    ensures Dragged(i, hit, false).startselected == i.startselected
  {
  }

  /** Before the first move the flag is set on the item the drag began on, and where it was left behind. */
  lemma BegunFlags(i: Item, pressed: bool)
    requires AtRest(i)
    ensures Begun(i, pressed, false).selected <==> pressed || (i.selected && !i.cSelected)
    ensures Begun(i, pressed, false).startselected == i.cSelected
  {
  }

  lemma {:induction false} FlagMoves(i: Item, hits: seq<bool>)
    ensures Moved(i, hits, false).startselected == i.startselected
    ensures hits != [] ==> (Moved(i, hits, false).selected <==> i.selected && i.startselected && true !in hits)
  {
    hide Dragged, Moved;
    MovedStep(i, hits, false);
    if hits != [] {
      var init := hits[..|hits| - 1];
      FlagMoves(i, init);
      MovedStep(i, init, false);
      DragFlag(Moved(i, init, false), hits[|hits| - 1]);
      AnyHit(hits);
    }
  }

  /**
   The flag of an item can be left behind its class: after a drag without keys they agree except for an
   item selected before that the drag began on and no rectangle ever hit.
   */
  lemma FlagLags(i: Item, pressed: bool, hits: seq<bool>)
    requires AtRest(i) && hits != []
    ensures (var r := AfterDrag(i, pressed, hits, false);
             r.selected == r.cSelected <==> !(pressed && i.cSelected && true !in hits))
  {
    hide Moved, Begun;
    BegunFlags(i, pressed);
    FlagMoves(Begun(i, pressed, false), hits);
    PlainMoves(i, pressed, hits);
    assert hits[|hits| - 1] ==> true in hits;
  }

  /** Such a drag: press on a selected item outside of every rectangle, move once, release. */
  lemma FlagLeftBehind()
    ensures (var r := AfterDrag(Item(0, 9, 0, 9, true, false, false, true, false, false, false), true, [false], false);
             r.selected && !r.cSelected)
  {
    MovedStep(Begun(Item(0, 9, 0, 9, true, false, false, true, false, false, false), true, false), [false], false);
    assert [false][..0] == [];
  }

  // ---------- the loops over the items ----------

  class Lasso {
    const tolerance: Tolerance
    const autoRefresh: bool
    var items: seq<Item>
    var origin: Point

    constructor (items: seq<Item>, tolerance: Tolerance, autoRefresh: bool)
      ensures this.items == items && this.tolerance == tolerance && this.autoRefresh == autoRefresh
    {
      this.items, this.tolerance, this.autoRefresh, origin := items, tolerance, autoRefresh, Point(0, 0);
    }

    /** `_mouseStart`, on the item at index `pressed` if there is one. */
    method MouseStart(at: Point, modifier: bool, pressed: int)
      modifies this
      ensures origin == at && |items| == |old(items)|
      ensures forall k :: 0 <= k < |items| ==>
                items[k] == Begun(if autoRefresh then Refreshed(old(items)[k]) else old(items)[k],
                                  k == pressed, modifier)
    {
      origin := at;
      var k := 0;
      while k < |items|
        invariant 0 <= k <= |items| == |old(items)| && origin == at
        invariant forall j :: k <= j < |items| ==> items[j] == old(items)[j]
        invariant forall j :: 0 <= j < k ==>
                    items[j] == Started(if autoRefresh then Refreshed(old(items)[j]) else old(items)[j], modifier)
      {
        items := items[k := Started(if autoRefresh then Refreshed(items[k]) else items[k], modifier)];
        k := k + 1;
      }
      if 0 <= pressed < |items| {
        items := items[pressed := Pressed(items[pressed], modifier)];
      }
    }

    /** `_mouseDrag`. */
    method MouseDrag(at: Point, modifier: bool)
      modifies this`items
      ensures |items| == |old(items)|
      ensures forall k :: 0 <= k < |items| ==>
                items[k] == Dragged(old(items)[k], Hit(old(items)[k], RectOf(origin, at), tolerance), modifier)
    {
      var r := RectOf(origin, at);
      var k := 0;
      while k < |items|
        invariant 0 <= k <= |items| == |old(items)|
        invariant forall j :: k <= j < |items| ==> items[j] == old(items)[j]
        invariant forall j :: 0 <= j < k ==>
                    items[j] == Dragged(old(items)[j], Hit(old(items)[j], r, tolerance), modifier)
      {
        items := items[k := Dragged(items[k], Hit(items[k], r, tolerance), modifier)];
        k := k + 1;
      }
    }

    /** `_mouseStop`. */
    method MouseStop()
      modifies this`items
      ensures |items| == |old(items)|
      ensures forall k :: 0 <= k < |items| ==> items[k] == Stopped(old(items)[k])
    {
      var k := 0;
      while k < |items|
        invariant 0 <= k <= |items| == |old(items)|
        invariant forall j :: k <= j < |items| ==> items[j] == old(items)[j]
        invariant forall j :: 0 <= j < k ==> items[j] == Stopped(old(items)[j])
      {
        items := items[k := Stopped(items[k])];
        k := k + 1;
      }
    }

    /** A whole drag without keys: press, move through the given points, release. */
    method PlainDrag(start: Point, pressed: int, path: seq<Point>)
      requires path != [] && forall k :: 0 <= k < |items| ==> Idle(items[k])
      modifies this
      ensures |items| == |old(items)|
      ensures forall k :: 0 <= k < |items| ==>
                && Idle(items[k])
                && (items[k].cSelected <==> Hit(old(items)[k], RectOf(start, path[|path| - 1]), tolerance))
    {
      hide Begun, Dragged, Stopped, RectOf, Moved;
      ghost var before := items;
      ghost var given := seq(|before|, k requires 0 <= k < |before| =>
                               if autoRefresh then Refreshed(before[k]) else before[k]);
      MouseStart(start, false, pressed);
      var n := 0;
      forall k | 0 <= k < |items|
        ensures items[k] == Moved(Begun(given[k], k == pressed, false), Trail(given[k], start, path[..0]), false)
      {
        assert Trail(given[k], start, path[..0]) == [];
        MovedStep(Begun(given[k], k == pressed, false), [], false);
      }
      while n < |path|
        invariant 0 <= n <= |path| && origin == start && |items| == |given|
        invariant forall k :: 0 <= k < |items| ==>
                    items[k] == Moved(Begun(given[k], k == pressed, false), Trail(given[k], start, path[..n]), false)
      {
        forall k | 0 <= k < |items|
          ensures Moved(Begun(given[k], k == pressed, false), Trail(given[k], start, path[..n + 1]), false)
               == Dragged(items[k], Hit(items[k], RectOf(start, path[n]), tolerance), false)
        {
          TrailSnoc(given[k], k == pressed, start, path, n, items[k]);
        }
        MouseDrag(path[n], false);
        n := n + 1;
      }
      assert path[..|path|] == path;
      MouseStop();
      forall k | 0 <= k < |items|
        ensures Idle(items[k]) && (items[k].cSelected <==> Hit(given[k], RectOf(start, path[|path| - 1]), tolerance))
      {
        PlainDragSelects(given[k], k == pressed, Trail(given[k], start, path));
      }
    }

    /** The hits of an item along a path. */
    function Trail(i: Item, start: Point, path: seq<Point>): (r: seq<bool>)
      ensures |r| == |path|
      ensures forall n :: 0 <= n < |r| ==> r[n] == Hit(i, RectOf(start, path[n]), tolerance)
    {
      seq(|path|, n requires 0 <= n < |path| => Hit(i, RectOf(start, path[n]), tolerance))
    }

    lemma TrailSnoc(i: Item, pressed: bool, start: Point, path: seq<Point>, n: nat, now: Item)
      requires n < |path| && now == Moved(Begun(i, pressed, false), Trail(i, start, path[..n]), false)
      ensures Moved(Begun(i, pressed, false), Trail(i, start, path[..n + 1]), false)
           == Dragged(now, Hit(now, RectOf(start, path[n]), tolerance), false)
    {
      hide RectOf, Moved, Dragged;
      var t := Trail(i, start, path[..n + 1]);
      assert t[..n] == Trail(i, start, path[..n]);
      MovedStep(Begun(i, pressed, false), t, false);
      MovesInPlace(Begun(i, pressed, false), Trail(i, start, path[..n]), false);
    }
  }

  predicate SamePlace(i: Item, m: Item) {
    m.left == i.left && m.right == i.right && m.top == i.top && m.bottom == i.bottom
  }

  lemma DragInPlace(i: Item, hit: bool, modifier: bool)
    ensures SamePlace(i, Dragged(i, hit, modifier))
  {
  }

  /** Items do not move while they are selected. */
  lemma {:induction false} MovesInPlace(i: Item, hits: seq<bool>, modifier: bool)
    ensures SamePlace(i, Moved(i, hits, modifier))
  {
    hide Dragged, Moved;
    MovedStep(i, hits, modifier);
    if hits != [] {
      MovesInPlace(i, hits[..|hits| - 1], modifier);
      DragInPlace(Moved(i, hits[..|hits| - 1], modifier), hits[|hits| - 1], modifier);
    }
  }
}
