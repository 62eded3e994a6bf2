/** The records the world keeps in its three registries, the player's hotbar
    stacks and the pending digging operation, plus the geometry of dropping an
    item: a new ground item is nudged right until no item lies within
    `STACK_DIST` of it. */
module Entities {
  import opened Kinds

  /** Tile size of the ground sheet in pixels (32-pixel cells drawn at scale 2). */
  const TW: real := 64.0
  const TH: real := 64.0

  /** Ground items closer than this (in tiles) are nudged apart. */
  const STACK_DIST: real := 0.25

  /** A ground item, at a position measured in tiles. */
  datatype Item = Item(x: real, y: real, kind: Kind)

  /** A decoration on a grid cell; `health` is -1 for one that has none. */
  datatype Decoration = Decoration(x: int, y: int, kind: Kind, health: real)

  /** A creature at a position in pixels, facing 0 (up), 1 (left), 2 (down) or 3 (right). */
  datatype Animal = Animal(x: real, y: real, kind: Kind, health: real, facing: int, speed: int)

  /** A hotbar stack. */
  datatype Stack = Stack(kind: Kind, count: int)

  /** A digging operation: the cell, when it completes, the tile it leaves and the item it drops. */
  datatype Dig = Dig(tx: int, ty: int, end: real, after: Kind, drop: Kind)

  // ---------------------------------------------------------------------
  // Dropping

  /** `e` is closer than STACK_DIST to (x, y), compared on squared distances
      (0.0625 is STACK_DIST squared). */
  predicate Close(e: Item, x: real, y: real)
  {
    (e.x - x) * (e.x - x) + (e.y - y) * (e.y - y) < 0.0625
  }

  predicate Crowded(items: seq<Item>, x: real, y: real)
  {
    exists i :: 0 <= i < |items| && Close(items[i], x, y)
  }

  /** The x position after `n` nudges. */
  function Offset(x: real, n: nat): real
  {
    x + 0.25 * n as real
  }

  /** The right-most item position (or 0 for no items). */
  function MaxX(items: seq<Item>): (m: real)
    ensures forall i :: 0 <= i < |items| ==> items[i].x <= m
  {
    if items == [] then 0.0
    else
      var m := MaxX(items[1..]);
      assert forall i :: 1 <= i < |items| ==> items[i] == items[1..][i - 1];
      if items[0].x > m then items[0].x else m
  }

  /** An item close to x lies right of x - STACK_DIST. */
  lemma CloseBound(e: Item, x: real, y: real)
    requires Close(e, x, y)
    ensures x - 0.25 < e.x
  {
    var dy := e.y - y;
    assert dy * dy >= 0.0;
  }

  /** A crowded spot lies left of the right-most item plus STACK_DIST, so the
      nudging stops after fewer than NudgeBound steps. */
  function NudgeBound(items: seq<Item>, x: real): int
  {
    (4.0 * (MaxX(items) - x)).Floor + 2
  }

  lemma CrowdedBounded(items: seq<Item>, x: real, y: real, n: nat)
    requires Crowded(items, Offset(x, n), y)
    ensures n < NudgeBound(items, x)
  {
    var i :| 0 <= i < |items| && Close(items[i], Offset(x, n), y);
    var ox := Offset(x, n);
    CloseBound(items[i], ox, y);
    var m := MaxX(items);
    assert ox < m + 0.25;
    FloorStep(4.0 * (m - x), n);
  }

  lemma FloorStep(q: real, n: nat)
    requires n as real < q + 1.0
    ensures n < q.Floor + 2
  {
  }

  /** How many nudges a drop at (x, y) takes, counting from `n`. */
  function Landing(items: seq<Item>, x: real, y: real, n: nat): (m: nat)
    ensures n <= m
    decreases NudgeBound(items, x) - n
  {
    if Crowded(items, Offset(x, n), y) then
      CrowdedBounded(items, x, y, n);
      Landing(items, x, y, n + 1)
    else n
  }

  /** The nudging stops at the first clear spot: every spot it passes is
      crowded and the one it stops at is not. */
  lemma {:induction false} LandingClear(items: seq<Item>, x: real, y: real, n: nat)
    ensures !Crowded(items, Offset(x, Landing(items, x, y, n)), y)
    ensures forall j :: n <= j < Landing(items, x, y, n) ==> Crowded(items, Offset(x, j), y)
    decreases NudgeBound(items, x) - n
  {
    if Crowded(items, Offset(x, n), y) {
      CrowdedBounded(items, x, y, n);
      LandingClear(items, x, y, n + 1);
    }
  }

  /** The items after dropping one of kind `k` at (x, y): one item of kind `k`
      is appended on row y, at or right of x, and nothing else moves. */
  function Dropped(items: seq<Item>, x: real, y: real, k: Kind): (r: seq<Item>)
    ensures |r| == |items| + 1 && r[..|items|] == items && r[|items|].kind == k && r[|items|].y == y
    ensures x <= r[|items|].x
  {
    items + [Item(Offset(x, Landing(items, x, y, 0)), y, k)]
  }

  /** The dropped item lands at the first nudge (a whole number of STACK_DIST
      steps right of x) that is clear of every item already there. */
  lemma DroppedLandsClear(items: seq<Item>, x: real, y: real, k: Kind)
    ensures var r := Dropped(items, x, y, k);
      !Crowded(items, r[|items|].x, y)
      && exists n: nat :: r[|items|].x == Offset(x, n) && forall j :: 0 <= j < n ==> Crowded(items, Offset(x, j), y)
  {
    var n := Landing(items, x, y, 0);
    LandingClear(items, x, y, 0);
    assert Dropped(items, x, y, k)[|items|].x == Offset(x, n);
  }

  /** The items after dropping each kind of `ks` at (x, y) in turn. */
  function DroppedAll(items: seq<Item>, x: real, y: real, ks: seq<Kind>): (r: seq<Item>)
    decreases |ks|
  {
    if ks == [] then items else DroppedAll(Dropped(items, x, y, ks[0]), x, y, ks[1..])
  }

  /** Dropping several kinds appends one item per kind, in order, and keeps the
      items already there. */
  lemma {:induction false} DroppedAllAppends(items: seq<Item>, x: real, y: real, ks: seq<Kind>)
    ensures |DroppedAll(items, x, y, ks)| == |items| + |ks|
    ensures DroppedAll(items, x, y, ks)[..|items|] == items
    ensures forall i :: 0 <= i < |ks| ==> DroppedAll(items, x, y, ks)[|items| + i].kind == ks[i]
    decreases |ks|
  {
    if ks != [] {
      var d := Dropped(items, x, y, ks[0]);
      DroppedAllAppends(d, x, y, ks[1..]);
      var r := DroppedAll(items, x, y, ks);
      assert r[..|items|] == r[..|d|][..|items|];
      forall i | 0 <= i < |ks| ensures r[|items| + i].kind == ks[i] {
        if i > 0 {
          assert r[|d| + (i - 1)].kind == ks[1..][i - 1];
        } else {
          assert r[|items|] == r[..|d|][|items|];
        }
      }
    }
  }

  /** Dropping one more kind after several drops it last. */
  lemma {:induction false} DroppedAllSnoc(items: seq<Item>, x: real, y: real, ks: seq<Kind>, k: Kind)
    ensures DroppedAll(items, x, y, ks + [k]) == Dropped(DroppedAll(items, x, y, ks), x, y, k)
    decreases |ks|
  {
    if ks == [] {
      assert ks + [k] == [k] && [k][1..] == [];
    } else {
      assert (ks + [k])[0] == ks[0] && (ks + [k])[1..] == ks[1..] + [k];
      DroppedAllSnoc(Dropped(items, x, y, ks[0]), x, y, ks[1..], k);
    }
  }

  /** Dropping `k` first and then `ks` is dropping `[k] + ks`. */
  lemma DroppedAllCons(items: seq<Item>, x: real, y: real, k: Kind, ks: seq<Kind>)
    ensures DroppedAll(items, x, y, [k] + ks) == DroppedAll(Dropped(items, x, y, k), x, y, ks)
  {
    assert ([k] + ks)[0] == k && ([k] + ks)[1..] == ks;
  }
}
