/** Looking decorations up by cell, as the game's scans over its decoration
    list do. */
module Decorations {
  import opened Util
  import opened Kinds
  import opened Entities

  predicate At(d: Decoration, x: int, y: int)
  {
    d.x == x && d.y == y
  }

  /** The first decoration on cell (x, y). */
  function FirstAt(ds: seq<Decoration>, x: int, y: int): (r: Option<nat>)
    ensures r.Some? ==> r.value < |ds| && At(ds[r.value], x, y)
    ensures r.Some? ==> forall j :: 0 <= j < r.value ==> !At(ds[j], x, y)
    ensures r.None? ==> forall j :: 0 <= j < |ds| ==> !At(ds[j], x, y)
  {
    if ds == [] then None
    else if At(ds[0], x, y) then Some(0)
    else match FirstAt(ds[1..], x, y)
      case None => None
      case Some(j) => Some(j + 1)
  }

  /** The first decoration of kind `k` on cell (x, y). */
  function FirstOfKindAt(ds: seq<Decoration>, x: int, y: int, k: Kind): (r: Option<nat>)
    ensures r.Some? ==> r.value < |ds| && At(ds[r.value], x, y) && ds[r.value].kind == k
    ensures r.Some? ==> forall j :: 0 <= j < r.value ==> !(At(ds[j], x, y) && ds[j].kind == k)
    ensures r.None? ==> forall j :: 0 <= j < |ds| ==> !(At(ds[j], x, y) && ds[j].kind == k)
  {
    if ds == [] then None
    else if At(ds[0], x, y) && ds[0].kind == k then Some(0)
    else match FirstOfKindAt(ds[1..], x, y, k)
      case None => None
      case Some(j) => Some(j + 1)
  }

  /** A scan that stops at a match of kind `k` on (x, y) with none before it,
      or that passes every decoration without a match, finds `FirstOfKindAt`. */
  lemma FirstOfKindAtScan(ds: seq<Decoration>, x: int, y: int, k: Kind, i: nat)
    requires i <= |ds| && forall j :: 0 <= j < i ==> !(At(ds[j], x, y) && ds[j].kind == k)
    ensures i < |ds| && At(ds[i], x, y) && ds[i].kind == k ==> FirstOfKindAt(ds, x, y, k) == Some(i)
    ensures i == |ds| ==> FirstOfKindAt(ds, x, y, k) == None
  {
    var f := FirstOfKindAt(ds, x, y, k);
    if f.Some? {
      assert f.value >= i;
    }
  }

  /** The first decoration on cell (x, y) that can be broken. */
  function FirstBreakableAt(ds: seq<Decoration>, x: int, y: int): (r: Option<nat>)
    ensures r.Some? ==> r.value < |ds| && At(ds[r.value], x, y) && ds[r.value].kind in Breakable
  {
    if ds == [] then None
    else if At(ds[0], x, y) && ds[0].kind in Breakable then Some(0)
    else match FirstBreakableAt(ds[1..], x, y)
      case None => None
      case Some(j) => Some(j + 1)
  }

  /** No breakable decoration on the cell comes before the one found, and
      with none found there is none at all. */
  lemma {:induction false} FirstBreakableAtIsFirst(ds: seq<Decoration>, x: int, y: int)
    ensures var r := FirstBreakableAt(ds, x, y);
      r.Some? ==> forall j :: 0 <= j < r.value ==> !(At(ds[j], x, y) && ds[j].kind in Breakable)
    ensures FirstBreakableAt(ds, x, y).None? ==>
      forall j :: 0 <= j < |ds| ==> !(At(ds[j], x, y) && ds[j].kind in Breakable)
  {
    if ds != [] {
      FirstBreakableAtIsFirst(ds[1..], x, y);
      assert forall j :: 0 < j < |ds| ==> ds[j] == ds[1..][j - 1];
    }
  }

  /** The decorations after clearing cell (x, y): its first decoration goes. */
  function Cleared(ds: seq<Decoration>, x: int, y: int): (r: seq<Decoration>)
  {
    match FirstAt(ds, x, y)
    case None => ds
    case Some(i) => RemoveAt(ds, i)
  }

  /** How many decorations stand on cell (x, y). */
  function CountAt(ds: seq<Decoration>, x: int, y: int): nat
  {
    if ds == [] then 0 else (if At(ds[0], x, y) then 1 else 0) + CountAt(ds[1..], x, y)
  }

  lemma {:induction false} CountAtSplit(a: seq<Decoration>, b: seq<Decoration>, x: int, y: int)
    ensures CountAt(a + b, x, y) == CountAt(a, x, y) + CountAt(b, x, y)
    decreases |a|
  {
    if a != [] {
      assert (a + b)[1..] == a[1..] + b;
      CountAtSplit(a[1..], b, x, y);
    } else {
      assert a + b == b;
    }
  }

  /** Clearing a cell removes exactly one of its decorations when it has any,
      and never touches another cell's. */
  lemma ClearedRemovesOne(ds: seq<Decoration>, x: int, y: int, x': int, y': int)
    requires (x', y') != (x, y)
    ensures CountAt(Cleared(ds, x, y), x, y) == if CountAt(ds, x, y) > 0 then CountAt(ds, x, y) - 1 else 0
    ensures CountAt(Cleared(ds, x, y), x', y') == CountAt(ds, x', y')
  {
    match FirstAt(ds, x, y)
    case None =>
      NoneAtCountsZero(ds, x, y);
    case Some(i) =>
      assert ds == ds[..i] + [ds[i]] + ds[i + 1..];
      CountAtSplit(ds[..i] + [ds[i]], ds[i + 1..], x, y);
      CountAtSplit(ds[..i], [ds[i]], x, y);
      CountAtSplit(ds[..i], ds[i + 1..], x, y);
      CountAtSplit(ds[..i] + [ds[i]], ds[i + 1..], x', y');
      CountAtSplit(ds[..i], [ds[i]], x', y');
      CountAtSplit(ds[..i], ds[i + 1..], x', y');
      assert CountAt([ds[i]], x, y) == 1;
      assert CountAt([ds[i]], x', y') == 0;
  }

  lemma {:induction false} NoneAtCountsZero(ds: seq<Decoration>, x: int, y: int)
    requires forall j :: 0 <= j < |ds| ==> !At(ds[j], x, y)
    ensures CountAt(ds, x, y) == 0
  {
    if ds != [] {
      NoneAtCountsZero(ds[1..], x, y);
    }
  }
}
