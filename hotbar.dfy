/** The ten-slot hotbar: picking items up, dropping or consuming one, the
    console's give command, and the stats the held items give the player. */
module Hotbar {
  import opened Util
  import opened Kinds
  import opened Entities

  const SLOTS: nat := 10

  /** Each slot is empty or holds a stack. */
  type Bar = seq<Option<Stack>>

  predicate Holds(s: Option<Stack>, k: Kind)
  {
    s.Some? && s.value.kind == k
  }

  /** The first slot holding a stack of kind `k`. */
  function FirstHolding(hb: Bar, k: Kind): (r: Option<nat>)
    ensures r.Some? ==> r.value < |hb| && Holds(hb[r.value], k)
    ensures r.Some? ==> forall j :: 0 <= j < r.value ==> !Holds(hb[j], k)
    ensures r.None? ==> forall j :: 0 <= j < |hb| ==> !Holds(hb[j], k)
  {
    if hb == [] then None
    else if Holds(hb[0], k) then Some(0)
    else match FirstHolding(hb[1..], k)
      case None => None
      case Some(j) => Some(j + 1)
  }

  /** The first empty slot. */
  function FirstEmpty(hb: Bar): (r: Option<nat>)
    ensures r.Some? ==> r.value < |hb| && hb[r.value].None?
    ensures r.Some? ==> forall j :: 0 <= j < r.value ==> hb[j].Some?
    ensures r.None? ==> forall j :: 0 <= j < |hb| ==> hb[j].Some?
  {
    if hb == [] then None
    else if hb[0].None? then Some(0)
    else match FirstEmpty(hb[1..])
      case None => None
      case Some(j) => Some(j + 1)
  }

  // ---------------------------------------------------------------------
  // Picking up

  /** The hotbar after picking up one item of kind `k`: the first stack of that
      kind grows by one, or else the first empty slot takes a new stack of one.
      None: the item stays on the ground. */
  function Picked(hb: Bar, k: Kind): (r: Option<Bar>)
    ensures r.Some? ==> |r.value| == |hb|
  {
    if k in NoPickup then None
    else match FirstHolding(hb, k)
      case Some(i) => Some(hb[i := Some(Stack(k, hb[i].value.count + 1))])
      case None =>
        match FirstEmpty(hb)
        case Some(i) => Some(hb[i := Some(Stack(k, 1))])
        case None => None
  }

  /** Total number of items of kind `k` on the hotbar. */
  function CountOf(hb: Bar, k: Kind): int
  {
    if hb == [] then 0
    else (if Holds(hb[0], k) then hb[0].value.count else 0) + CountOf(hb[1..], k)
  }

  lemma {:induction false} CountOfUpdate(hb: Bar, i: nat, s: Option<Stack>, k: Kind)
    requires i < |hb|
    ensures CountOf(hb[i := s], k)
         == CountOf(hb, k) - (if Holds(hb[i], k) then hb[i].value.count else 0)
                           + (if Holds(s, k) then s.value.count else 0)
  {
    if i > 0 {
      assert hb[i := s][1..] == hb[1..][i - 1 := s];
      CountOfUpdate(hb[1..], i - 1, s, k);
    }
  }

  /** Picking an item up is refused exactly for kinds that cannot be picked up,
      or when no slot holds the kind and no slot is empty. */
  lemma PickedRefused(hb: Bar, k: Kind)
    ensures Picked(hb, k).None? <==>
      k in NoPickup || forall j :: 0 <= j < |hb| ==> hb[j].Some? && hb[j].value.kind != k
  {
    if Picked(hb, k).Some? && k !in NoPickup {
      match FirstHolding(hb, k)
      case Some(i) =>
      case None =>
        var i := FirstEmpty(hb).value;
        assert hb[i].None?;
    }
  }

  /** A pick-up adds exactly one item of its kind and leaves every other kind's
      total alone. */
  lemma PickedCounts(hb: Bar, k: Kind, other: Kind)
    requires Picked(hb, k).Some?
    ensures CountOf(Picked(hb, k).value, other) == CountOf(hb, other) + (if other == k then 1 else 0)
  {
    match FirstHolding(hb, k)
    case Some(i) =>
      CountOfUpdate(hb, i, Some(Stack(k, hb[i].value.count + 1)), k);
      CountOfUpdate(hb, i, Some(Stack(k, hb[i].value.count + 1)), other);
    case None =>
      var i := FirstEmpty(hb).value;
      CountOfUpdate(hb, i, Some(Stack(k, 1)), k);
      CountOfUpdate(hb, i, Some(Stack(k, 1)), other);
  }

  /** When some slot already holds the kind, that stack grows and no empty slot
      is filled. */
  lemma PickedStacks(hb: Bar, k: Kind, j: nat)
    requires k !in NoPickup && j < |hb| && Holds(hb[j], k)
    ensures Picked(hb, k).Some?
    ensures forall n :: 0 <= n < |hb| ==> (hb[n].None? <==> Picked(hb, k).value[n].None?)
  {
    var i := FirstHolding(hb, k).value;
    assert Picked(hb, k).value == hb[i := Some(Stack(k, hb[i].value.count + 1))];
  }

  /** No two slots hold the same kind. */
  predicate Distinct(hb: Bar)
  {
    forall i, j :: 0 <= i < j < |hb| && hb[i].Some? && hb[j].Some? ==> hb[i].value.kind != hb[j].value.kind
  }

  /** Every stack holds at least one item. */
  predicate Positive(hb: Bar)
  {
    forall i :: 0 <= i < |hb| && hb[i].Some? ==> hb[i].value.count >= 1
  }

  /** Picking up keeps the slots' kinds distinct and the stacks non-empty. */
  lemma PickedKeepsDistinct(hb: Bar, k: Kind)
    requires Distinct(hb) && Positive(hb) && Picked(hb, k).Some?
    ensures Distinct(Picked(hb, k).value) && Positive(Picked(hb, k).value)
  {
    var r := Picked(hb, k).value;
    match FirstHolding(hb, k)
    case Some(i) =>
    case None =>
      var i := FirstEmpty(hb).value;
      forall a, b | 0 <= a < b < |r| && r[a].Some? && r[b].Some?
        ensures r[a].value.kind != r[b].value.kind
      {
        if a == i {
          assert !Holds(hb[b], k);
        } else if b == i {
          assert !Holds(hb[a], k);
        }
      }
  }

  // ---------------------------------------------------------------------
  // Dropping and consuming

  /** Slot `p` after `n` of its items are dropped or used up: the count falls
      by `n` and a stack that reaches zero or less empties the slot. */
  function Consumed(hb: Bar, p: nat, n: int): (r: Bar)
    requires p < |hb| && hb[p].Some?
    ensures |r| == |hb| && forall j :: 0 <= j < |hb| && j != p ==> r[j] == hb[j]
    ensures hb[p].value.count - n <= 0 ==> r[p].None?
    ensures hb[p].value.count - n > 0 ==> r[p] == Some(Stack(hb[p].value.kind, hb[p].value.count - n))
  {
    var c := hb[p].value.count - n;
    if c <= 0 then hb[p := None] else hb[p := Some(Stack(hb[p].value.kind, c))]
  }

  /** Using up one item lowers its kind's total by one and keeps the hotbar's
      invariants. */
  lemma ConsumedOne(hb: Bar, p: nat)
    requires p < |hb| && hb[p].Some? && Positive(hb) && Distinct(hb)
    ensures CountOf(Consumed(hb, p, 1), hb[p].value.kind) == CountOf(hb, hb[p].value.kind) - 1
    ensures Positive(Consumed(hb, p, 1)) && Distinct(Consumed(hb, p, 1))
  {
    var k := hb[p].value.kind;
    var c := hb[p].value.count - 1;
    if c <= 0 {
      CountOfUpdate(hb, p, None, k);
    } else {
      CountOfUpdate(hb, p, Some(Stack(k, c)), k);
    }
  }

  // ---------------------------------------------------------------------
  // The console's give command

  /** The slot that receives `amount` items of kind `k`: the first that is
      empty or holds the kind (an empty slot before a matching stack wins). */
  function GiveSlot(hb: Bar, k: Kind): (r: Option<nat>)
    ensures r.Some? ==> r.value < |hb| && (hb[r.value].None? || Holds(hb[r.value], k))
    ensures r.Some? ==> forall j :: 0 <= j < r.value ==> hb[j].Some? && hb[j].value.kind != k
    ensures r.None? <==> forall j :: 0 <= j < |hb| ==> hb[j].Some? && hb[j].value.kind != k
  {
    if hb == [] then None
    else if hb[0].None? || Holds(hb[0], k) then Some(0)
    else match GiveSlot(hb[1..], k)
      case None => None
      case Some(j) => Some(j + 1)
  }

  /** The hotbar after giving `amount` items of kind `k`, or None when no slot
      qualifies (the items are then dropped at the player's feet). */
  function Given(hb: Bar, k: Kind, amount: int): (r: Option<Bar>)
    ensures r.None? <==> forall j :: 0 <= j < |hb| ==> hb[j].Some? && hb[j].value.kind != k
  {
    match GiveSlot(hb, k)
    case None => None
    case Some(i) =>
      if hb[i].None? then Some(hb[i := Some(Stack(k, amount))])
      else Some(hb[i := Some(Stack(k, hb[i].value.count + amount))])
  }

  /** Giving adds exactly `amount` to the kind's total. */
  lemma GivenCounts(hb: Bar, k: Kind, amount: int)
    requires Given(hb, k, amount).Some?
    ensures CountOf(Given(hb, k, amount).value, k) == CountOf(hb, k) + amount
  {
    var i := GiveSlot(hb, k).value;
    CountOfUpdate(hb, i, Given(hb, k, amount).value[i], k);
    assert Given(hb, k, amount).value == hb[i := Given(hb, k, amount).value[i]];
  }

  /** Unlike a pick-up, giving can put a kind into a second slot: an empty slot
      left of an existing stack takes the items. */
  lemma GiveCanDuplicate()
    ensures Distinct([None, Some(Stack(Stick, 3))])
    ensures Given([None, Some(Stack(Stick, 3))], Stick, 2) == Some([Some(Stack(Stick, 2)), Some(Stack(Stick, 3))])
    ensures !Distinct(Given([None, Some(Stack(Stick, 3))], Stick, 2).value)
    ensures Picked([None, Some(Stack(Stick, 3))], Stick) == Some([None, Some(Stack(Stick, 4))])
  {
    var hb: Bar := [None, Some(Stack(Stick, 3))];
    assert FirstHolding(hb, Stick) == Some(1);
    assert GiveSlot(hb, Stick) == Some(0);
    assert Given(hb, Stick, 2) == Some(hb[0 := Some(Stack(Stick, 2))]);
    assert hb[0 := Some(Stack(Stick, 2))] == [Some(Stack(Stick, 2)), Some(Stack(Stick, 3))];
    assert Picked(hb, Stick) == Some(hb[1 := Some(Stack(Stick, 4))]);
    assert hb[1 := Some(Stack(Stick, 4))] == [None, Some(Stack(Stick, 4))];
    var g := [Some(Stack(Stick, 2)), Some(Stack(Stick, 3))];
    assert g[0].Some? && g[1].Some? && g[0].value.kind == g[1].value.kind;
    assert !Distinct(g);
  }

  // ---------------------------------------------------------------------
  // What the held items give

  /** 1 plus the rating of every armour piece on the hotbar. */
  function Armour(hb: Bar): (r: int)
    ensures r >= 1
  {
    if hb == [] then 1
    else Armour(hb[1..]) + (if hb[0].Some? && hb[0].value.kind in ArmourRating then ArmourRating[hb[0].value.kind] else 0)
  }

  /** Damage a strike does to a decoration with the selected slot's item. */
  function BreakDamage(held: Option<Stack>): (r: real)
    ensures 0.5 <= r <= 3.0
    ensures held.None? ==> r == 1.0
  {
    if held.None? || held.value.kind !in BreakAmount then 1.0 else BreakAmount[held.value.kind]
  }

  /** Damage a swing does to a creature with the selected slot's item. */
  function SwingDamage(held: Option<Stack>): (r: real)
    ensures 1.0 <= r <= 10.0
    ensures held.None? ==> r == 1.0
  {
    if held.None? || held.value.kind !in SwingAmount then 1.0 else SwingAmount[held.value.kind]
  }
}
