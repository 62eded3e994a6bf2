/** The game scene: the world grid, the three registries (ground items,
    decorations, creatures), the hotbar and the player's vital statistics, with
    the operations that change them. Randomness enters as roll parameters in
    [0, 1) or as a free choice among the cells the game's guard accepts; the
    clock enters as `now` and `dt`. Positions of the player and creatures are
    in pixels, ground items in tiles, decorations in whole cells. */
module World {
  import opened Util
  import opened Kinds
  import opened Terrain
  import opened Entities
  import opened Decorations
  import opened Crafting
  import opened Hotbar
  import opened Combat
  import opened Placement

  const MAX_HEALTH: real := 10.0
  const MAX_HUNGER: real := 10.0
  /** Health each altar restores on the super-slow tick. */
  const ALTAR_BONUS: real := 0.25

  /** The keys the scene reacts to: a number key, Q (drop one) and C (craft). */
  datatype WorldKey = Digit(d: int) | KeyQ | KeyC | OtherKey

  /** The hotbar slot a number key selects: 1 to 9 pick slots 0 to 8, 0 picks slot 9. */
  function SlotOfDigit(d: int): (s: nat)
    requires 0 <= d <= 9
    ensures s < SLOTS && (s + 1) % 10 == d
  {
    if d == 0 then 9 else d - 1
  }

  /** The cell under a pixel coordinate. */
  function CellOf(p: real): int
  {
    (p / 64.0).Floor
  }

  /** A pixel coordinate lies in cell x exactly when it is within that cell's
      64-pixel span, as a rectangle's point test counts it. */
  lemma CellOfExact(p: real, x: int)
    ensures CellOf(p) == x <==> x as real * 64.0 <= p < x as real * 64.0 + 64.0
  {
  }

  /** Every coordinate inside the world lies in a cell of the grid. */
  lemma CellInRange(p: real)
    requires 0.0 <= p < 6144.0
    ensures 0 <= CellOf(p) < WIDTH && CellOf(p) < HEIGHT
  {
  }

  /** The first creature whose 64-pixel square contains the point. */
  function AnimalUnder(herd: seq<Animal>, xp: real, yp: real): (r: Option<nat>)
    ensures r.Some? ==> r.value < |herd| && Under(herd[r.value], xp, yp)
    ensures r.Some? ==> forall j :: 0 <= j < r.value ==> !Under(herd[j], xp, yp)
    ensures r.None? ==> forall j :: 0 <= j < |herd| ==> !Under(herd[j], xp, yp)
  {
    if herd == [] then None
    else if Under(herd[0], xp, yp) then Some(0)
    else match AnimalUnder(herd[1..], xp, yp)
      case None => None
      case Some(j) => Some(j + 1)
  }

  predicate Under(a: Animal, xp: real, yp: real)
  {
    a.x <= xp < a.x + 64.0 && a.y <= yp < a.y + 64.0
  }

  /** A decoration after a blow of `amount`. */
  function Worn(d: Decoration, amount: real): Decoration
  {
    d.(health := d.health - amount)
  }

  /** The ground items after a decoration breaks: its drop lands a tenth of a
      tile in from its corner, and a tree on a winning roll also leaves an
      apple at the corner. */
  function Broken(items: seq<Item>, x: int, y: int, k: Kind, appleRoll: real): (r: seq<Item>)
    requires k in EDrops
    ensures |r| == |items| + (if k == Tree && appleRoll > 0.3 then 2 else 1)
    ensures r[..|items|] == items && r[|items|].kind == EDrops[k]
  {
    var once := Dropped(items, x as real + 0.1, y as real + 0.1, EDrops[k]);
    if k == Tree && appleRoll > 0.3 then
      assert once[..|items|] == items;
      Dropped(once, x as real, y as real, Apple)
    else once
  }

  /** The decorations, ground items, altar count and hunger after the j-th of
      decorations `g` takes a blow of `amount`: a survivor is worn in place and
      nothing else changes; one left without health is cleared from its cell,
      drops its item (and a tree, on a winning roll, an apple), no longer
      counts as an altar and costs the hunger of breaking it. The ground items
      change exactly when the decoration breaks. */
  function Chipped(g: seq<Decoration>, j: nat, amount: real, items: seq<Item>, alt: int, h: real, appleRoll: real)
    : (r: (seq<Decoration>, seq<Item>, int, real))
    requires j < |g| && g[j].kind in Breakable
    ensures |r.0| <= |g| && r.2 <= alt
    ensures r.1 != items <==> g[j].health <= amount
  {
    var d := g[j];
    Breaks(d.kind);
    if d.health > amount then (g[j := Worn(d, amount)], items, alt, h)
    else (Cleared(g[j := Worn(d, amount)], d.x, d.y), Broken(items, d.x, d.y, d.kind, appleRoll),
          alt - (if d.kind == Altar then 1 else 0), h - Hunger[d.kind])
  }

  /** The grid, ground items, hunger and decorations after dig `d` completes:
      the dug cell takes its new tile, the dug material drops there, hunger is
      charged by the new tile and the cell's first decoration is cleared. */
  function Completion(d: Dig, w: Grid, items: seq<Item>, h: real, g: seq<Decoration>)
    : (r: (Grid, seq<Item>, real, seq<Decoration>))
    requires 0 <= d.tx < |w| && 0 <= d.ty < |w[d.tx]| && d.after in {Mud, RockS, RockR}
    ensures r.2 < h
    ensures |r.1| == |items| + 1 && r.1[..|items|] == items && r.1[|items|].kind == d.drop
  {
    (CompleteDig(w, d), Dropped(items, d.tx as real, d.ty as real, d.drop), h - Hunger[d.after], Cleared(g, d.tx, d.ty))
  }

  function Min(a: real, b: real): real
  {
    if a <= b then a else b
  }

  function MaxReal(a: real, b: real): real
  {
    if a >= b then a else b
  }

  /** The items right-clicking can spend on the terrain. */
  const Fillers: set<Kind> := {SandDrop, DirtDrop, Rubble, PlankFDrop, PlankWDrop}

  /** The items right-clicking places as a decoration on a free cell. */
  const Placed: set<Kind> := {Candle, CandleG, Altar}

  /** Whether right-clicking with an item of kind `k` uses one up, given the
      clicked cell's tile, the player's hunger and health, whether the cell has
      no decoration and whether it has an altar: food is eaten only when
      hungry (raw meat is always taken by an altar), a heart only heals the
      wounded, building items only act where they fit, candles and altars
      need a free placeable cell, and nothing else is usable. */
  predicate UseAccepted(k: Kind, tile: Kind, hunger: real, health: real, cellFree: bool, altarHere: bool)
  {
    if Food(k) then FoodAccepted(k, hunger, health, altarHere) else BuildAccepted(k, tile, cellFree)
  }

  predicate Food(k: Kind)
  {
    k == Apple || k == PigMeat || k == PigHeart
  }

  predicate FoodAccepted(k: Kind, hunger: real, health: real, altarHere: bool)
  {
    if k == Apple then hunger < MAX_HUNGER
    else if k == PigMeat then altarHere || hunger < MAX_HUNGER
    else k == PigHeart && health < MAX_HEALTH
  }

  predicate BuildAccepted(k: Kind, tile: Kind, cellFree: bool)
  {
    if k in Fillers then Fill(k, tile).Some?
    else k in Placed && tile in Placeable && cellFree
  }

  /** A cell on which a creature may appear: placeable and without decoration. */
  predicate FreeCell(g: Grid, ds: seq<Decoration>, x: int, y: int)
  {
    0 <= x < |g| && 0 <= y < |g[x]| && g[x][y] in Placeable && FirstAt(ds, x, y).None?
  }

  /** The creature stands exactly on the corner of a free cell. */
  predicate OnFreeCell(a: Animal, g: Grid, ds: seq<Decoration>)
  {
    a.x == CellOf(a.x) as real * 64.0 && a.y == CellOf(a.y) as real * 64.0
    && FreeCell(g, ds, CellOf(a.x), CellOf(a.y))
  }

  /** A creature of kind `k` freshly spawned: full health for its kind, the
      given facing and speed, on the corner of a free cell. */
  predicate Newcomer(a: Animal, k: Kind, facing: int, speed: int, g: Grid, ds: seq<Decoration>)
  {
    a.kind == k && k in AnimalHealth && a.health == AnimalHealth[k] && a.facing == facing && a.speed == speed
    && OnFreeCell(a, g, ds)
  }

  /** A creature put on the corner of a free cell is a newcomer there, and
      alive. */
  lemma NewcomerAt(k: Kind, facing: int, speed: int, g: Grid, ds: seq<Decoration>, x: int, y: int)
    requires k in AnimalHealth && FreeCell(g, ds, x, y)
    ensures AnimalHealth[k] > 0.0
    ensures Newcomer(Animal(x as real * 64.0, y as real * 64.0, k, AnimalHealth[k], facing, speed), k, facing, speed, g, ds)
  {
    CellOfExact(x as real * 64.0, x);
    CellOfExact(y as real * 64.0, y);
    CreatureTablesAgree();
  }

  /** A wave creature: facing up, at speed 16. */
  predicate Arrival(a: Animal, k: Kind, g: Grid, ds: seq<Decoration>)
  {
    Newcomer(a, k, 0, 16, g, ds)
  }

  /** `s` are the creatures spawned for the kinds `ks`, one each, in order. */
  predicate Arrived(s: seq<Animal>, ks: seq<Kind>, g: Grid, ds: seq<Decoration>)
  {
    |s| == |ks| && forall i :: 0 <= i < |s| ==> Arrival(s[i], ks[i], g, ds)
  }

  lemma ArrivedAppend(s: seq<Animal>, ks: seq<Kind>, t: seq<Animal>, ls: seq<Kind>, g: Grid, ds: seq<Decoration>)
    requires Arrived(s, ks, g, ds) && Arrived(t, ls, g, ds)
    ensures Arrived(s + t, ks + ls, g, ds)
  {
    forall i | 0 <= i < |s + t| ensures Arrival((s + t)[i], (ks + ls)[i], g, ds) {
      if i >= |s| {
        assert (s + t)[i] == t[i - |s|] && (ks + ls)[i] == ls[i - |s|];
      }
    }
  }

  /** Every kind a wave can bring has a starting health. */
  lemma RotationSpawnable()
    ensures forall k :: k in Rotation ==> k in AnimalHealth
  {
    CreatureTablesAgree();
  }

  /** Every kind a wave brings has a starting health. */
  lemma CohortSpawnable(wave: int)
    ensures forall k :: k in Cohort(Rotation, wave) ==> k in AnimalHealth
  {
    RotationSpawnable();
    CohortWithin(Rotation, wave);
  }

  /** Growth keeps a free cell free: mud only ever turns to grass, and both
      take decorations. */
  lemma SpreadKeepsFree(g: Grid, grow: set<(int, int)>, ds: seq<Decoration>, x: int, y: int)
    requires Rectangular(g) && FreeCell(g, ds, x, y)
    ensures FreeCell(Spread(g, grow), ds, x, y)
  {
    SpreadOnlyGrowsGrass(g, grow, x, y);
  }

  /** `w` is `copy` with the cells before (x, y), in the column-by-column
      order the passes walk the grid, already taken from `target`. */
  ghost predicate RewrittenUpTo(w: Grid, copy: Grid, target: Grid, x: int, y: int)
  {
    IsGrid(w, WIDTH, HEIGHT) && IsGrid(copy, WIDTH, HEIGHT) && IsGrid(target, WIDTH, HEIGHT)
    && forall i, j :: 0 <= i < WIDTH && 0 <= j < HEIGHT ==>
         w[i][j] == (if i < x || (i == x && j < y) then target[i][j] else copy[i][j])
  }

  /** Writing the target value of the next cell advances the rewrite by one
      cell; so does leaving a cell whose target value is the old one. */
  lemma RewriteCell(w: Grid, copy: Grid, target: Grid, x: int, y: int)
    requires RewrittenUpTo(w, copy, target, x, y) && 0 <= x < WIDTH && 0 <= y < HEIGHT
    ensures RewrittenUpTo(Put(w, x, y, target[x][y]), copy, target, x, y + 1)
    ensures target[x][y] == copy[x][y] ==> RewrittenUpTo(w, copy, target, x, y + 1)
  {
  }

  /** A finished column moves the rewrite to the top of the next one. */
  lemma RewriteColumn(w: Grid, copy: Grid, target: Grid, x: int)
    requires RewrittenUpTo(w, copy, target, x, HEIGHT)
    ensures RewrittenUpTo(w, copy, target, x + 1, 0)
  {
  }

  /** A rewrite that has passed every column has produced the target. */
  lemma RewriteDone(w: Grid, copy: Grid, target: Grid)
    requires RewrittenUpTo(w, copy, target, WIDTH, 0)
    ensures w == target
  {
    GridsEqual(w, target);
  }

  lemma GridsEqual(a: Grid, b: Grid)
    requires IsGrid(a, WIDTH, HEIGHT) && IsGrid(b, WIDTH, HEIGHT)
    requires forall i, j :: 0 <= i < WIDTH && 0 <= j < HEIGHT ==> a[i][j] == b[i][j]
    ensures a == b
  {
    forall i | 0 <= i < WIDTH ensures a[i] == b[i] {
      assert forall j :: 0 <= j < HEIGHT ==> a[i][j] == b[i][j];
    }
  }

  /** The ground item lies under the player's rectangle (a positive overlap,
      as rectangle collision counts it). */
  predicate Touches(e: Item, px: real, py: real, w: real, h: real)
  {
    px < e.x * 64.0 + 64.0 && e.x * 64.0 < px + w && py < e.y * 64.0 + 64.0 && e.y * 64.0 < py + h
  }

  /** The ground items under the player, in list order. */
  function Touching(items: seq<Item>, px: real, py: real, w: real, h: real): (r: seq<Item>)
    ensures multiset(r) <= multiset(items)
    ensures forall e :: e in r ==> Touches(e, px, py, w, h)
  {
    if items == [] then []
    else
      var init := items[..|items| - 1];
      var e := items[|items| - 1];
      assert items == init + [e];
      var r := Touching(init, px, py, w, h);
      if Touches(e, px, py, w, h) then r + [e] else r
  }

  /** The hotbar and the ground items after each item of `snap` that touches
      the player's rectangle is offered to the hotbar in turn: a pick-up that
      fits takes the item off the ground. */
  function Gathered(hb: Bar, items: seq<Item>, snap: seq<Item>, px: real, py: real, w: real, h: real): (r: (Bar, seq<Item>))
    requires multiset(snap) <= multiset(items)
    ensures |r.0| == |hb| && multiset(r.1) <= multiset(items)
    decreases |snap|
  {
    if snap == [] then (hb, items)
    else
      var e := snap[0];
      assert snap == [e] + snap[1..];
      var p := if Touches(e, px, py, w, h) then Picked(hb, e.kind) else None;
      if p.Some? then
        assert e in multiset(items);
        RemoveCount(items, e);
        Gathered(p.value, Remove(items, e), snap[1..], px, py, w, h)
      else Gathered(hb, items, snap[1..], px, py, w, h)
  }

  /** The items of kind `k` the player owns: on the hotbar and on the ground. */
  function Stock(hb: Bar, items: seq<Item>, k: Kind): int
  {
    CountOf(hb, k) + multiset(KindsOf(items))[k]
  }

  /** One pick-up moves an item from the ground to the hotbar. */
  lemma PickConserves(hb: Bar, items: seq<Item>, e: Item, k: Kind)
    requires Picked(hb, e.kind).Some? && e in items
    ensures Stock(Picked(hb, e.kind).value, Remove(items, e), k) == Stock(hb, items, k)
  {
    PickedCounts(hb, e.kind, k);
    KindsOfRemove(items, e);
  }

  /** Gathering moves items and never makes or loses one: for every kind, the
      hotbar's total plus the ground items of that kind stay the same. */
  lemma {:induction false} GatheredConserves(hb: Bar, items: seq<Item>, snap: seq<Item>, px: real, py: real, w: real, h: real, k: Kind)
    requires multiset(snap) <= multiset(items)
    ensures var r := Gathered(hb, items, snap, px, py, w, h);
      Stock(r.0, r.1, k) == Stock(hb, items, k)
    decreases |snap|
  {
    if snap != [] {
      var e := snap[0];
      assert snap == [e] + snap[1..];
      var p := if Touches(e, px, py, w, h) then Picked(hb, e.kind) else None;
      if p.Some? {
        assert e in multiset(items);
        RemoveCount(items, e);
        assert Gathered(hb, items, snap, px, py, w, h) == Gathered(p.value, Remove(items, e), snap[1..], px, py, w, h);
        GatheredConserves(p.value, Remove(items, e), snap[1..], px, py, w, h, k);
        PickConserves(hb, items, e, k);
      } else {
        assert Gathered(hb, items, snap, px, py, w, h) == Gathered(hb, items, snap[1..], px, py, w, h);
        GatheredConserves(hb, items, snap[1..], px, py, w, h, k);
      }
    }
  }

  /** Only items touching the player leave the ground. */
  lemma {:induction false} GatheredTakesTouching(hb: Bar, items: seq<Item>, snap: seq<Item>, px: real, py: real, w: real, h: real, e: Item)
    requires multiset(snap) <= multiset(items) && !Touches(e, px, py, w, h)
    ensures multiset(Gathered(hb, items, snap, px, py, w, h).1)[e] == multiset(items)[e]
    decreases |snap|
  {
    if snap != [] {
      var x := snap[0];
      assert snap == [x] + snap[1..];
      var p := if Touches(x, px, py, w, h) then Picked(hb, x.kind) else None;
      if p.Some? {
        assert x in multiset(items);
        RemoveCount(items, x);
        GatheredTakesTouching(p.value, Remove(items, x), snap[1..], px, py, w, h, e);
      } else {
        GatheredTakesTouching(hb, items, snap[1..], px, py, w, h, e);
      }
    }
  }

  function Hurt(a: Animal, amount: real): Animal
  {
    a.(health := a.health - amount)
  }

  /** The ground items after creature `a` takes a blow of `amount`: when the
      blow leaves it no health, its loot is dropped where it stood (in tiles). */
  function Spoils(items: seq<Item>, a: Animal, amount: real, heartRoll: real, gemRolls: seq<real>): (r: seq<Item>)
    requires |gemRolls| == |Gems|
    ensures a.health > amount ==> r == items
  {
    if a.health <= amount then DroppedAll(items, a.x / 64.0, a.y / 64.0, AnimalDrops(a.kind, heartRoll, gemRolls))
    else items
  }

  /** The creatures after the i-th takes a blow: it loses `amount` health and,
      when that leaves it none, the first creature equal to it leaves the list. */
  function AfterBlow(herd: seq<Animal>, i: nat, amount: real): (r: seq<Animal>)
    requires i < |herd|
    ensures forall b :: b in r ==> b in herd || b == Hurt(herd[i], amount)
  {
    var b := Hurt(herd[i], amount);
    if b.health <= 0.0 then
      assert herd[i := b][i] == b;
      RemoveKeeps(herd[i := b], b);
      Remove(herd[i := b], b)
    else herd[i := b]
  }

  /** A blow kills exactly when it is at least the creature's health: a killed
      creature leaves (those after it move down one place), a survivor only
      loses `amount` health, and every other creature stays as it was. */
  lemma BlowEffect(herd: seq<Animal>, i: nat, amount: real)
    requires i < |herd|
    ensures herd[i].health <= amount ==> |AfterBlow(herd, i, amount)| == |herd| - 1
    ensures herd[i].health <= amount ==> AfterBlow(herd, i, amount)[i..] == herd[i + 1..]
    ensures herd[i].health > amount ==> |AfterBlow(herd, i, amount)| == |herd|
    ensures herd[i].health > amount ==>
      AfterBlow(herd, i, amount)[i].health == herd[i].health - amount
      && AfterBlow(herd, i, amount)[i].kind == herd[i].kind
      && forall j :: 0 <= j < |herd| && j != i ==> AfterBlow(herd, i, amount)[j] == herd[j]
  {
    var b := Hurt(herd[i], amount);
    if b.health <= 0.0 {
      RemoveShiftsTail(herd[i := b], i);
      assert herd[i := b][i + 1..] == herd[i + 1..];
    }
  }

  /** A herd whose creatures all face one of the four directions and are
      all alive. */
  predicate Sound(herd: seq<Animal>)
  {
    forall j :: 0 <= j < |herd| ==> 0 <= herd[j].facing < 4 && herd[j].health > 0.0
  }

  /** In a herd of living creatures no other creature equals the one a blow
      kills, so the creature that leaves the list is the victim itself. */
  lemma BlowRemovesVictim(herd: seq<Animal>, i: nat, amount: real)
    requires i < |herd| && Sound(herd)
    ensures herd[i].health <= amount ==> AfterBlow(herd, i, amount) == RemoveAt(herd, i)
  {
    var b := Hurt(herd[i], amount);
    if b.health <= 0.0 {
      var s := herd[i := b];
      assert forall j :: 0 <= j < i ==> s[j] != s[i];
      RemoveFirstIsRemoveAt(s, i);
      assert RemoveAt(s, i) == RemoveAt(herd, i);
    }
  }

  /** A blow keeps the herd sound: the dead leave it and the survivor keeps
      its facing. */
  lemma BlowKeepsSound(herd: seq<Animal>, i: nat, amount: real)
    requires i < |herd| && Sound(herd)
    ensures Sound(AfterBlow(herd, i, amount))
  {
    BlowRemovesVictim(herd, i, amount);
  }

  // ---------------------------------------------------------------------
  // The creatures' once-a-second step

  /** One creature's random draws for a slow tick: the wander roll and turn,
      and the loot rolls should it drown. */
  datatype Fate = Fate(wander: real, delta: int, heart: real, gemL: real, gemM: real, gemS: real)

  /** The gem rolls of a fate, in the order of the gem table. */
  function GemRolls(f: Fate): (r: seq<real>)
    ensures |r| == |Gems|
  {
    [f.gemL, f.gemM, f.gemS]
  }

  /** The player at (px, py) is less than `tiles` tiles from the creature
      (squared distances, so no square root is taken). */
  predicate Within(a: Animal, px: real, py: real, tiles: real)
  {
    (px - a.x) * (px - a.x) + (py - a.y) * (py - a.y) < (64.0 * tiles) * (64.0 * tiles)
  }

  /** A hostile creature that sees the player. */
  predicate Sees(a: Animal, px: real, py: real)
  {
    a.kind in Hostile && a.kind in VRange && Within(a, px, py, VRange[a.kind])
  }

  /** The creature after it looks around: a hostile that sees the player
      turns toward it; any other creature wanders on a winning roll. */
  function Steered(a: Animal, px: real, py: real, f: Fate): (b: Animal)
    ensures b == a.(facing := b.facing)
    ensures 0 <= a.facing < 4 ==> 0 <= b.facing < 4
  {
    if Sees(a, px, py) then a.(facing := FaceToward(px - a.x, py - a.y))
    else if f.wander > 0.8 then a.(facing := Turn(a.facing, f.delta))
    else a
  }

  /** What a hostile within attack range takes from the player's health. */
  function Bite(a: Animal, px: real, py: real, armour: int): (d: real)
    requires armour >= 1
    ensures d >= 0.0
  {
    if a.kind in Hostile && a.kind in Range && a.kind in Attack && Within(a, px, py, Range[a.kind]) then
      Attack[a.kind] / armour as real
    else 0.0
  }

  /** A walking creature standing on a water cell of the grid. */
  predicate Drowns(a: Animal, g: Grid)
  {
    a.kind !in Floating && 0 <= CellOf(a.x) < |g| && 0 <= CellOf(a.y) < |g[CellOf(a.x)]|
    && g[CellOf(a.x)][CellOf(a.y)] in Wet
  }

  /** What is left of one creature after its step: it may drown, losing one
      health, and leave the herd when none is left. */
  function Fated(a: Animal, f: Fate, g: Grid, px: real, py: real): (r: seq<Animal>)
    ensures |r| <= 1
  {
    Soaked(Steered(a, px, py, f), g)
  }

  /** A creature after the water check: one that drowns loses one health
      and leaves when none is left. */
  function Soaked(b: Animal, g: Grid): (r: seq<Animal>)
    ensures |r| <= 1
  {
    if !Drowns(b, g) then [b]
    else if b.health <= 1.0 then []
    else [Hurt(b, 1.0)]
  }

  /** The outcomes of the first `n` creatures' steps, in herd order. */
  function Stepped(herd: seq<Animal>, fates: seq<Fate>, n: nat, g: Grid, px: real, py: real): (r: seq<Animal>)
    requires n <= |herd| == |fates|
    ensures |r| <= n
  {
    if n == 0 then []
    else Stepped(herd, fates, n - 1, g, px, py) + Fated(herd[n - 1], fates[n - 1], g, px, py)
  }

  /** The total the first `n` creatures' bites take off the player's health. */
  function Bites(herd: seq<Animal>, n: nat, px: real, py: real, armour: int): (d: real)
    requires n <= |herd| && armour >= 1
    ensures d >= 0.0
  {
    if n == 0 then 0.0
    else Bites(herd, n - 1, px, py, armour) + Bite(herd[n - 1], px, py, armour)
  }

  /** The ground items after a creature's water check: the loot of one that
      drowned for good, dropped where it stood; the items as they were when
      it is still alive. */
  function Remains(items: seq<Item>, b: Animal, f: Fate, g: Grid): (r: seq<Item>)
    ensures Soaked(b, g) != [] ==> r == items
  {
    if Drowns(b, g) then Spoils(items, b, 1.0, f.heart, GemRolls(f)) else items
  }

  /** The ground items after each of the first `n` creatures that drowned for
      good dropped its loot where it stood, in herd order. */
  function Drownings(items: seq<Item>, herd: seq<Animal>, fates: seq<Fate>, n: nat, g: Grid, px: real, py: real): seq<Item>
    requires n <= |herd| == |fates|
  {
    if n == 0 then items
    else
      Remains(Drownings(items, herd, fates, n - 1, g, px, py), Steered(herd[n - 1], px, py, fates[n - 1]), fates[n - 1], g)
  }

  /** Where the walk over the herd stands after its first `k` creatures: the
      live list holds their outcomes (`j` of them) followed by the rest of
      the herd as it was, the ground items hold the drowned creatures' loot,
      and the player has lost `hurt` health to their bites. */
  ghost predicate Walked(herd: seq<Animal>, fates: seq<Fate>, k: nat, j: nat, live: seq<Animal>, items0: seq<Item>,
                         items: seq<Item>, hurt: real, g: Grid, px: real, py: real, armour: int)
    requires |fates| == |herd| && armour >= 1
  {
    k <= |herd|
    && live == Stepped(herd, fates, k, g, px, py) + herd[k..]
    && j == |Stepped(herd, fates, k, g, px, py)|
    && items == Drownings(items0, herd, fates, k, g, px, py)
    && hurt == Bites(herd, k, px, py, armour)
  }

  /** Where the walk stands, the next creature sits at place `j`. */
  lemma WalkedAt(herd: seq<Animal>, fates: seq<Fate>, k: nat, j: nat, live: seq<Animal>, items0: seq<Item>,
                 items: seq<Item>, hurt: real, g: Grid, px: real, py: real, armour: int)
    requires |fates| == |herd| && armour >= 1 && k < |herd|
    requires Walked(herd, fates, k, j, live, items0, items, hurt, g, px, py, armour)
    ensures j < |live| && live[j] == herd[k]
  {
    var done := Stepped(herd, fates, k, g, px, py);
    assert live == done + herd[k..];
    assert live[|done|] == herd[k..][0];
  }

  /** One creature's step, as the live list, the ground items and the
      player's health see it, moves the walk on by one creature. */
  lemma WalkedStep(herd: seq<Animal>, fates: seq<Fate>, k: nat, j: nat, live: seq<Animal>, live': seq<Animal>,
                   items0: seq<Item>, items: seq<Item>, items': seq<Item>, hurt: real, hurt': real,
                   g: Grid, px: real, py: real, armour: int)
    requires |fates| == |herd| && armour >= 1 && k < |herd|
    requires Walked(herd, fates, k, j, live, items0, items, hurt, g, px, py, armour) && j < |live|
    requires live' == live[..j] + Fated(herd[k], fates[k], g, px, py) + live[j + 1..]
    requires items' == Remains(items, Steered(herd[k], px, py, fates[k]), fates[k], g)
    requires hurt' == hurt + Bite(herd[k], px, py, armour)
    ensures Walked(herd, fates, k + 1, j + |Fated(herd[k], fates[k], g, px, py)|, live', items0, items', hurt', g, px, py, armour)
  {
    var done := Stepped(herd, fates, k, g, px, py);
    assert live[..j] == done && live[j + 1..] == herd[k + 1..];
  }

  // -------------------------------------------------------------------
  // The scene's state as a value: what clicks, digs and used items make of it

  /** The parts of the game scene that a click, a dig or a used item changes. */
  datatype SceneState = SceneState(world: Grid, animals: seq<Animal>, entities: seq<Item>, gEntities: seq<Decoration>,
                                   altars: int, hunger: real, health: real, mLock: bool, digging: Option<Dig>)

  /** A pending dig is on a cell of the grid and leaves mud or rock behind. */
  predicate DigFits(d: Option<Dig>)
  {
    d.Some? ==> 0 <= d.value.tx < WIDTH && 0 <= d.value.ty < HEIGHT && d.value.after in {Mud, RockS, RockR}
  }

  /** The scene after a left click at world pixel (xp, yp), with `swing` the
      held item's damage to creatures and `blow` its damage to decorations: a
      starving player changes nothing; otherwise the first creature under the
      point takes the swing (dropping its loot if it dies), else the first
      breakable decoration on the cell takes the blow (both lock the mouse),
      else an unlocked click on a diggable tile starts digging it. A click
      never changes a tile, never adds a creature or a decoration, and never
      touches health. */
  function Clicked(s: SceneState, xp: real, yp: real, now: real, swing: real, blow: real,
                   heartRoll: real, gemRolls: seq<real>, appleRoll: real): (r: SceneState)
    requires IsGrid(s.world, WIDTH, HEIGHT) && DigFits(s.digging)
    requires |gemRolls| == |Gems| && 0.0 <= xp < 6144.0 && 0.0 <= yp < 6144.0
    ensures r.world == s.world && r.health == s.health && DigFits(r.digging)
    ensures |r.animals| <= |s.animals| && |r.gEntities| <= |s.gEntities|
  {
    CellInRange(xp);
    CellInRange(yp);
    var tx, ty := CellOf(xp), CellOf(yp);
    if s.hunger <= 0.0 then s
    else match AnimalUnder(s.animals, xp, yp)
      case Some(i) =>
        s.(animals := AfterBlow(s.animals, i, swing),
           entities := Spoils(s.entities, s.animals[i], swing, heartRoll, gemRolls), mLock := true)
      case None =>
        match FirstBreakableAt(s.gEntities, tx, ty)
        case Some(j) =>
          var c := Chipped(s.gEntities, j, blow, s.entities, s.altars, s.hunger, appleRoll);
          s.(gEntities := c.0, entities := c.1, altars := c.2, hunger := c.3, mLock := true)
        case None =>
          if !s.mLock && s.world[tx][ty] in Progression then
            DigTablesAgree();
            s.(digging := StartDig(s.world[tx][ty], tx, ty, now))
          else s
  }

  /** The scene after the frame's dig check at time `now`: a dig whose time
      has come completes on the cell that was dug (see `Completion`) and
      nothing is dug any more; otherwise nothing changes. Afterwards no dig
      is overdue. */
  function Finished(s: SceneState, now: real): (r: SceneState)
    requires IsGrid(s.world, WIDTH, HEIGHT) && DigFits(s.digging)
    ensures r.digging.None? || now < r.digging.value.end
    ensures r.animals == s.animals && r.altars == s.altars && r.mLock == s.mLock && r.health == s.health
  {
    if s.digging.Some? && now >= s.digging.value.end then
      var c := Completion(s.digging.value, s.world, s.entities, s.hunger, s.gEntities);
      s.(world := c.0, entities := c.1, hunger := c.2, gEntities := c.3, digging := None)
    else s
  }

  /** The scene after an item of kind `k` is used on cell (tx, ty): food and
      hearts act on the player (and raw meat on an altar there), building
      items on the terrain. `facing` and `speed` are the random picks for a
      zombie pig an altar spawns. Using an item never moves a ground item and
      never touches the mouse lock or the dig. */
  function Applied(s: SceneState, k: Kind, tx: int, ty: int, facing: int, speed: int): (r: SceneState)
    requires IsGrid(s.world, WIDTH, HEIGHT) && 0 <= tx < WIDTH && 0 <= ty < HEIGHT
    ensures r.entities == s.entities && r.mLock == s.mLock && r.digging == s.digging
  {
    if Food(k) then Fed(s, k, tx, ty, facing, speed) else Built(s, k, tx, ty)
  }

  /** Food and hearts: an apple feeds half a point, raw meat goes to the first
      altar on the cell (or feeds a whole point when there is none), a heart
      heals one point; feeding and healing only when below the maximum, and
      never past it. */
  function Fed(s: SceneState, k: Kind, tx: int, ty: int, facing: int, speed: int): (r: SceneState)
    ensures r.world == s.world && r.entities == s.entities && r.mLock == s.mLock && r.digging == s.digging
    ensures r.hunger <= MaxReal(s.hunger, MAX_HUNGER) && r.health <= MaxReal(s.health, MAX_HEALTH)
  {
    if k == Apple then Ate(s, 0.5)
    else if k == PigMeat then
      match FirstOfKindAt(s.gEntities, tx, ty, Altar)
      case Some(j) => Offered(s, j, facing, speed)
      case None => Ate(s, 1.0)
    else if s.health < MAX_HEALTH then s.(health := Min(s.health + 1.0, MAX_HEALTH))
    else s
  }

  /** Eating `amount`: only when hungry, and never past full. */
  function Ate(s: SceneState, amount: real): (r: SceneState)
  {
    if s.hunger < MAX_HUNGER then s.(hunger := Min(s.hunger + amount, MAX_HUNGER)) else s
  }

  /** Raw meat offered on the j-th decoration, an altar: it loses five health
      and is cleared from its cell (no longer counting) once none is left; the
      player pays one health; hunger stays as `max(h, h - 3)` leaves it; a
      zombie pig appears on the altar's cell. */
  function Offered(s: SceneState, j: nat, facing: int, speed: int): (r: SceneState)
    requires j < |s.gEntities|
  {
    var d := s.gEntities[j];
    var worn := s.gEntities[j := Worn(d, 5.0)];
    s.(gEntities := if d.health > 5.0 then worn else Cleared(worn, d.x, d.y),
       altars := if d.health > 5.0 then s.altars else s.altars - 1,
       health := s.health - 1.0,
       hunger := MaxReal(s.hunger, s.hunger - 3.0),
       animals := s.animals + [Animal(d.x as real * 64.0, d.y as real * 64.0, ZPig, 30.0, facing, speed)])
  }

  /** Building items: the change `Fill` names is made (a tile replaced, or a
      wall put on the cell); candles and altars go on a placeable cell with no
      decoration, and an altar counts. Anything else does nothing. */
  function Built(s: SceneState, k: Kind, tx: int, ty: int): (r: SceneState)
    requires IsGrid(s.world, WIDTH, HEIGHT) && 0 <= tx < WIDTH && 0 <= ty < HEIGHT
    ensures r.animals == s.animals && r.hunger == s.hunger && r.health == s.health
    ensures IsGrid(r.world, WIDTH, HEIGHT)
  {
    if k in Fillers then
      match Fill(k, s.world[tx][ty])
      case None => s
      case Some(SetTile(t)) => s.(world := Put(s.world, tx, ty, t))
      case Some(Build(d)) => s.(gEntities := s.gEntities + [Decoration(tx, ty, d, HealthOf(d))])
    else if k in Placed && s.world[tx][ty] in Placeable && FirstAt(s.gEntities, tx, ty).None? then
      s.(gEntities := s.gEntities + [Decoration(tx, ty, k, HealthOf(k))], altars := s.altars + (if k == Altar then 1 else 0))
    else s
  }

  /** A filler always changes the tile it is accepted on. */
  lemma FillChangesTile(item: Kind, tile: Kind)
    requires Fill(item, tile).Some? && Fill(item, tile).value.SetTile?
    ensures Fill(item, tile).value.tile != tile
  {
  }

  /** The used item is taken from the hotbar exactly when using it changes
      the scene: `UseAccepted` is the guard and `Applied` the effect. */
  lemma UsedIffApplied(s: SceneState, k: Kind, tx: int, ty: int, facing: int, speed: int)
    requires IsGrid(s.world, WIDTH, HEIGHT) && 0 <= tx < WIDTH && 0 <= ty < HEIGHT
    ensures UseAccepted(k, s.world[tx][ty], s.hunger, s.health, FirstAt(s.gEntities, tx, ty).None?,
                        FirstOfKindAt(s.gEntities, tx, ty, Altar).Some?)
            <==> Applied(s, k, tx, ty, facing, speed) != s
  {
    if Food(k) {
      FedIffAccepted(s, k, tx, ty, facing, speed);
    } else {
      BuiltIffAccepted(s, k, tx, ty);
    }
  }

  /** Food changes the scene exactly when the player can take it. */
  lemma FedIffAccepted(s: SceneState, k: Kind, tx: int, ty: int, facing: int, speed: int)
    requires Food(k)
    ensures FoodAccepted(k, s.hunger, s.health, FirstOfKindAt(s.gEntities, tx, ty, Altar).Some?)
            <==> Fed(s, k, tx, ty, facing, speed) != s
  {
    if k == PigMeat && FirstOfKindAt(s.gEntities, tx, ty, Altar).Some? {
      assert |Fed(s, k, tx, ty, facing, speed).animals| == |s.animals| + 1;
    }
  }

  /** A building item changes the scene exactly when it is accepted there. */
  lemma BuiltIffAccepted(s: SceneState, k: Kind, tx: int, ty: int)
    requires IsGrid(s.world, WIDTH, HEIGHT) && 0 <= tx < WIDTH && 0 <= ty < HEIGHT
    ensures BuildAccepted(k, s.world[tx][ty], FirstAt(s.gEntities, tx, ty).None?) <==> Built(s, k, tx, ty) != s
  {
    var r := Built(s, k, tx, ty);
    if k in Fillers {
      match Fill(k, s.world[tx][ty])
      case None =>
      case Some(SetTile(t)) =>
        FillChangesTile(k, s.world[tx][ty]);
        assert r.world[tx][ty] == t != s.world[tx][ty];
      case Some(Build(d)) =>
        assert |r.gEntities| == |s.gEntities| + 1;
    } else if k in Placed && s.world[tx][ty] in Placeable && FirstAt(s.gEntities, tx, ty).None? {
      assert |r.gEntities| == |s.gEntities| + 1;
    }
  }

  /** A fed player's click locks the mouse exactly when it hit a creature or
      a breakable decoration (or the mouse was locked already); only an
      unlocked click on a diggable tile with nothing on it starts a dig, and
      the dig is of that cell. */
  lemma ClickedLocksOrDigs(s: SceneState, xp: real, yp: real, now: real, swing: real, blow: real,
                           heartRoll: real, gemRolls: seq<real>, appleRoll: real)
    requires IsGrid(s.world, WIDTH, HEIGHT) && DigFits(s.digging)
    requires |gemRolls| == |Gems| && 0.0 <= xp < 6144.0 && 0.0 <= yp < 6144.0
    requires s.hunger > 0.0
    ensures var r := Clicked(s, xp, yp, now, swing, blow, heartRoll, gemRolls, appleRoll);
      var hit := AnimalUnder(s.animals, xp, yp).Some? || FirstBreakableAt(s.gEntities, CellOf(xp), CellOf(yp)).Some?;
      (r.mLock <==> s.mLock || hit)
      && (r.digging != s.digging ==>
            !hit && !s.mLock && r.digging.Some? && r.digging.value.tx == CellOf(xp) && r.digging.value.ty == CellOf(yp))
  {
    CellInRange(xp);
    CellInRange(yp);
  }

  /** Holding the button and moving off a dug cell onto one where the click
      starts nothing, the dig still completes on the cell that was dug once
      its time has come, and the cell under the cursor stays as it was. */
  lemma HeldDigCompletesDugCell(s: SceneState, xp: real, yp: real, now: real, swing: real, blow: real,
                                heartRoll: real, gemRolls: seq<real>, appleRoll: real)
    requires IsGrid(s.world, WIDTH, HEIGHT) && DigFits(s.digging)
    requires |gemRolls| == |Gems| && 0.0 <= xp < 6144.0 && 0.0 <= yp < 6144.0
    requires s.digging.Some? && now >= s.digging.value.end
    requires AnimalUnder(s.animals, xp, yp).None? && FirstBreakableAt(s.gEntities, CellOf(xp), CellOf(yp)).None?
    requires 0 <= CellOf(xp) < WIDTH && 0 <= CellOf(yp) < HEIGHT && s.world[CellOf(xp)][CellOf(yp)] !in Progression
    requires (CellOf(xp), CellOf(yp)) != (s.digging.value.tx, s.digging.value.ty)
    ensures var r := Finished(Clicked(s, xp, yp, now, swing, blow, heartRoll, gemRolls, appleRoll), now);
      var d := s.digging.value;
      r.digging.None?
      && r.world == CompleteDig(s.world, d)
      && r.world[d.tx][d.ty] == d.after
      && r.world[CellOf(xp)][CellOf(yp)] == s.world[CellOf(xp)][CellOf(yp)]
  {
    var c := Clicked(s, xp, yp, now, swing, blow, heartRoll, gemRolls, appleRoll);
    assert c.digging == s.digging && c.world == s.world;
  }

  class GameScene {
    var world: Grid
    var entities: seq<Item>
    var gEntities: seq<Decoration>
    var animals: seq<Animal>
    var hotbar: Bar
    var health: real
    var hunger: real
    var altars: int
    var wave: nat
    var waveTimer: real
    var digging: Option<Dig>
    var mLock: bool
    var hbP: nat
    var difficulty: int
    var flash: bool
    var lastTile: Option<(int, int)>
    /** The player's top-left corner, in pixels. */
    var px: real
    var py: real
    /** The size of the player's sprite, in pixels. */
    const playerW: real
    const playerH: real

    ghost predicate Valid()
      reads this`world, this`hotbar, this`hbP, this`wave, this`animals, this`gEntities, this`digging
    {
      GridOk() && HotbarOk() && wave < |WaveTimers| && playerW > 0.0 && playerH > 0.0
      && HerdOk() && DecorationsOk() && DigOk()
    }

    ghost predicate GridOk()
      reads this`world
    {
      IsGrid(world, WIDTH, HEIGHT)
    }

    ghost predicate HotbarOk()
      reads this`hotbar, this`hbP
    {
      |hotbar| == SLOTS && hbP < SLOTS
    }

    /** Every creature faces one of the four directions and is alive. */
    ghost predicate HerdOk()
      reads this`animals
    {
      Sound(animals)
    }

    /** Every decoration stands on a cell of the grid. */
    ghost predicate DecorationsOk()
      reads this`gEntities
    {
      forall i :: 0 <= i < |gEntities| ==> 0 <= gEntities[i].x < WIDTH && 0 <= gEntities[i].y < HEIGHT
    }

    /** A pending dig is on a cell of the grid and leaves mud or rock behind. */
    ghost predicate DigOk()
      reads this`digging
    {
      DigFits(digging)
    }

    /** The scene's state as a value. */
    ghost function State(): SceneState
      reads this`world, this`animals, this`entities, this`gEntities, this`altars, this`hunger, this`health,
            this`mLock, this`digging
    {
      SceneState(world, animals, entities, gEntities, altars, hunger, health, mLock, digging)
    }

    /** A fresh scene on a generated world: empty registries and hotbar, full
        health and hunger, the player in the middle of the map. */
    constructor (difficulty: int, playerW: real, playerH: real, world: Grid)
      requires IsGrid(world, WIDTH, HEIGHT) && playerW > 0.0 && playerH > 0.0
      ensures Valid()
      ensures this.world == world && this.difficulty == difficulty
      ensures entities == [] && gEntities == [] && animals == []
      ensures |hotbar| == SLOTS && forall i :: 0 <= i < SLOTS ==> hotbar[i].None?
      ensures health == MAX_HEALTH && hunger == MAX_HUNGER && altars == 0 && hbP == 0
      ensures wave == 0 && waveTimer == 0.0 && digging.None? && !mLock && lastTile.None?
      ensures px == 48.0 * 64.0 && py == 48.0 * 64.0
    {
      this.world := world;
      this.difficulty := difficulty;
      this.playerW := playerW;
      this.playerH := playerH;
      entities := [];
      gEntities := [];
      animals := [];
      hotbar := seq(SLOTS, _ => None);
      health := MAX_HEALTH;
      hunger := MAX_HUNGER;
      altars := 0;
      hbP := 0;
      wave := 0;
      waveTimer := 0.0;
      digging := None;
      mLock := false;
      flash := true;
      lastTile := None;
      px := (WIDTH / 2) as real * 64.0;
      py := (HEIGHT / 2) as real * 64.0;
    }

    // -------------------------------------------------------------------
    // Grid and decoration mutation

    /** Set one tile; returns the chunk slot that is redrawn. */
    method SetAt(x: int, y: int, k: Kind) returns (c: ChunkRef)
      requires GridOk() && 0 <= x < WIDTH && 0 <= y < HEIGHT
      modifies this`world
      ensures GridOk()
      ensures world == Put(old(world), x, y, k) && c == ChunkOf(x, y)
    {
      world := world[x := world[x][y := k]];
      c := ChunkOf(x, y);
    }

    /** Put a decoration on a cell (registered unless `passive`), or with None
        remove the cell's first decoration. */
    method SetG(x: int, y: int, k: Option<Kind>, passive: bool)
      requires DecorationsOk() && 0 <= x < WIDTH && 0 <= y < HEIGHT
      modifies this`gEntities
      ensures DecorationsOk()
      ensures k.None? ==> gEntities == Cleared(old(gEntities), x, y)
      ensures k.Some? && passive ==> gEntities == old(gEntities)
      ensures k.Some? && !passive ==> gEntities == old(gEntities) + [Decoration(x, y, k.value, HealthOf(k.value))]
    {
      if k.None? {
        var i := 0;
        while i < |gEntities| && !At(gEntities[i], x, y)
          invariant 0 <= i <= |gEntities|
          invariant forall j :: 0 <= j < i ==> !At(gEntities[j], x, y)
        {
          i := i + 1;
        }
        if i < |gEntities| {
          gEntities := RemoveAt(gEntities, i);
        }
      } else if !passive {
        gEntities := gEntities + [Decoration(x, y, k.value, HealthOf(k.value))];
      }
    }

    // -------------------------------------------------------------------
    // Ground items and the hotbar

    /** Drop an item at (x, y) tiles, nudged right until nothing lies within
        STACK_DIST of it. */
    method DropItem(x: real, y: real, k: Kind)
      modifies this`entities
      ensures entities == Dropped(old(entities), x, y, k)
    {
      var n: nat := 0;
      while Crowded(entities, Offset(x, n), y)
        invariant entities == old(entities)
        invariant Landing(entities, x, y, n) == Landing(entities, x, y, 0)
        decreases NudgeBound(entities, x) - n
      {
        CrowdedBounded(entities, x, y, n);
        n := n + 1;
      }
      entities := entities + [Item(Offset(x, n), y, k)];
    }

    /** Pick a ground item up into the hotbar, if it fits. */
    method Pickup(e: Item)
      requires HotbarOk() && e in entities
      modifies this`hotbar, this`entities
      ensures HotbarOk()
      ensures Picked(old(hotbar), e.kind).None? ==> hotbar == old(hotbar) && entities == old(entities)
      ensures Picked(old(hotbar), e.kind).Some? ==>
        hotbar == Picked(old(hotbar), e.kind).value && entities == Remove(old(entities), e)
    {
      if e.kind in NoPickup {
        return;
      }
      var i := 0;
      while i < |hotbar|
        invariant 0 <= i <= |hotbar| && hotbar == old(hotbar) && entities == old(entities)
        invariant forall j :: 0 <= j < i ==> !Holds(hotbar[j], e.kind)
      {
        if hotbar[i].Some? && hotbar[i].value.kind == e.kind {
          hotbar := hotbar[i := Some(Stack(e.kind, hotbar[i].value.count + 1))];
          entities := Remove(entities, e);
          return;
        }
        i := i + 1;
      }
      i := 0;
      while i < |hotbar|
        invariant 0 <= i <= |hotbar| && hotbar == old(hotbar) && entities == old(entities)
        invariant forall j :: 0 <= j < i ==> hotbar[j].Some?
      {
        if hotbar[i].None? {
          hotbar := hotbar[i := Some(Stack(e.kind, 1))];
          entities := Remove(entities, e);
          return;
        }
        i := i + 1;
      }
    }

    /** The Q key: one item of the selected stack is dropped at the player's feet. */
    method DropSelected()
      requires Valid()
      modifies this`hotbar, this`entities
      ensures Valid()
      ensures old(hotbar[hbP]).None? ==> hotbar == old(hotbar) && entities == old(entities)
      ensures old(hotbar[hbP]).Some? ==>
        hotbar == Consumed(old(hotbar), hbP, 1)
        && entities == Dropped(old(entities), px / 64.0, py / 64.0, old(hotbar[hbP]).value.kind)
    {
      if hotbar[hbP].Some? {
        var k := hotbar[hbP].value.kind;
        hotbar := Consumed(hotbar, hbP, 1);
        DropItem(px / 64.0, py / 64.0, k);
      }
    }

    /** The crafting key: the first recipe (in table order) that the items
        under the player satisfy consumes its items, drops its result at the
        player's feet and costs its sacrifice in health; with no match nothing
        changes. */
    method DoCraft(recipes: seq<Recipe>)
      requires Valid()
      modifies this`entities, this`health
      ensures Valid()
      ensures var c := old(CraftFor(recipes, entities));
        c.None? ==> entities == old(entities) && health == old(health)
      ensures var c := old(CraftFor(recipes, entities));
        c.Some? ==>
          c.value.0 < |recipes|
          && entities == Dropped(RemoveEach(old(entities), c.value.1), px / 64.0, py / 64.0, ResultOf(recipes, c.value.0))
          && health == old(health) - Sacrifice(ResultOf(recipes, c.value.0))
      ensures (entities, health) == old(Crafted(recipes, entities, health))
    {
      ghost var c := CraftFor(recipes, entities);
      ghost var before, h0 := entities, health;
      ghost var after := Crafted(recipes, before, h0);
      var found := FindCraft(recipes);
      assert found == c && entities == before;
      if found.Some? {
        var used, result := found.value.1, recipes[found.value.0].result;
        Craft(used, result);
        assert entities == Dropped(RemoveEach(before, used), px / 64.0, py / 64.0, result);
        assert before == old(entities) && used == c.value.1 && result == ResultOf(recipes, c.value.0);
      }
      assert (entities, health) == after;
    }

    /** The ground items and health after the crafting key, from `items`
        and `h` before it. */
    ghost function Crafted(recipes: seq<Recipe>, items: seq<Item>, h: real): (r: (seq<Item>, real))
      reads this`px, this`py
      ensures |r.0| <= |items| + 1
      ensures r.1 <= h
    {
      var c := CraftFor(recipes, items);
      if c.None? then (items, h)
      else
        var rest := RemoveEach(items, c.value.1);
        assert |rest| == |multiset(rest)| <= |multiset(items)| == |items|;
        var k := ResultOf(recipes, c.value.0);
        (Dropped(rest, px / 64.0, py / 64.0, k), h - Sacrifice(k))
    }

    /** What the i-th recipe of the table makes. */
    function ResultOf(recipes: seq<Recipe>, i: nat): Kind
      requires i < |recipes|
    {
      recipes[i].result
    }

    /** Consumes the used items, drops the result at the player's feet and
        takes the result's sacrifice from health. */
    method Craft(used: seq<Item>, result: Kind)
      requires multiset(used) <= multiset(entities)
      modifies this`entities, this`health
      ensures entities == Dropped(RemoveEach(old(entities), used), px / 64.0, py / 64.0, result)
      ensures health == old(health) - Sacrifice(result)
    {
      RemoveUsed(used);
      DropItem(px / 64.0, py / 64.0, result);
      health := health - Sacrifice(result);
    }

    /** The recipe the crafting key uses on `items`, with the items it consumes:
        the first in table order that the items under the player satisfy. */
    ghost function CraftFor(recipes: seq<Recipe>, items: seq<Item>): (r: Option<(nat, seq<Item>)>)
      reads this`px, this`py
      ensures r.Some? ==> r.value.0 < |recipes| && multiset(r.value.1) <= multiset(items)
    {
      var usable := Touching(items, px, py, playerW, playerH);
      var r := FirstRecipe(recipes, usable, 0);
      if r.Some? then
        CanCraftTakes(recipes[r.value.0].ingredients, usable);
        r
      else r
    }

    /** Looks the recipe up among the items under the player. */
    method FindCraft(recipes: seq<Recipe>) returns (found: Option<(nat, seq<Item>)>)
      ensures found == CraftFor(recipes, entities)
      ensures found.Some? ==> found.value.0 < |recipes| && multiset(found.value.1) <= multiset(entities)
    {
      var usable := Usable();
      found := FindRecipe(recipes, usable);
    }

    /** The ground items under the player, in list order. */
    method Usable() returns (usable: seq<Item>)
      ensures usable == Touching(entities, px, py, playerW, playerH)
    {
      usable := [];
      var i := 0;
      while i < |entities|
        invariant 0 <= i <= |entities|
        invariant usable == Touching(entities[..i], px, py, playerW, playerH)
      {
        assert entities[..i + 1][..i] == entities[..i];
        if Touches(entities[i], px, py, playerW, playerH) {
          usable := usable + [entities[i]];
        }
        i := i + 1;
      }
      assert entities[..i] == entities;
    }

    /** Removes the first equal ground item for each of `used`, in turn. */
    method RemoveUsed(used: seq<Item>)
      requires multiset(used) <= multiset(entities)
      modifies this`entities
      ensures entities == RemoveEach(old(entities), used)
    {
      var start, rest := entities, entities;
      var j := 0;
      while j < |used|
        invariant 0 <= j <= |used|
        invariant multiset(used[j..]) <= multiset(rest)
        invariant RemoveEach(rest, used[j..]) == RemoveEach(start, used)
      {
        RemoveEachStep(rest, used[j..]);
        assert used[j..][1..] == used[j + 1..];
        rest := Remove(rest, used[j]);
        j := j + 1;
      }
      entities := rest;
    }

    // -------------------------------------------------------------------
    // Striking

    /** A blow of `amount` to the i-th creature; a killed creature leaves the
        list and drops its loot at its tile position. */
    method DamageAnimal(i: nat, amount: real, heartRoll: real, gemRolls: seq<real>)
      requires HerdOk() && i < |animals| && |gemRolls| == |Gems|
      modifies this`animals, this`entities
      ensures HerdOk()
      ensures animals == AfterBlow(old(animals), i, amount)
      ensures old(animals[i]).health <= amount ==> animals == old(animals[..i]) + old(animals[i + 1..])
      ensures old(animals[i]).health > amount ==>
        animals == old(animals[..i]) + [Hurt(old(animals[i]), amount)] + old(animals[i + 1..])
      ensures entities == Spoils(old(entities), old(animals[i]), amount, heartRoll, gemRolls)
    {
      var victim := animals[i];
      ghost var before := entities;
      Blow(i, amount);
      if victim.health - amount <= 0.0 {
        DropLoot(victim.x / 64.0, victim.y / 64.0, victim.kind, heartRoll, gemRolls);
      }
      assert entities == Spoils(before, victim, amount, heartRoll, gemRolls);
    }

    /** The blow itself: the creature loses `amount` health and leaves the
        herd when none is left. */
    method Blow(i: nat, amount: real)
      requires HerdOk() && i < |animals|
      modifies this`animals
      ensures HerdOk() && animals == AfterBlow(old(animals), i, amount)
      ensures old(animals[i]).health <= amount ==> animals == old(animals[..i]) + old(animals[i + 1..])
      ensures old(animals[i]).health > amount ==>
        animals == old(animals[..i]) + [Hurt(old(animals[i]), amount)] + old(animals[i + 1..])
    {
      BlowKeepsSound(animals, i, amount);
      BlowRemovesVictim(animals, i, amount);
      ghost var herd := animals;
      animals := AfterBlow(animals, i, amount);
      if herd[i].health <= amount {
        assert RemoveAt(herd, i) == herd[..i] + herd[i + 1..];
      } else {
        assert herd[i := Hurt(herd[i], amount)] == herd[..i] + [Hurt(herd[i], amount)] + herd[i + 1..];
      }
    }

    /** A slain creature's loot, dropped at (x, y) in tiles: a pig's heart (on
        a winning roll) then its meat, a zombie pig's heart, or a hostile's gems. */
    method DropLoot(x: real, y: real, kind: Kind, heartRoll: real, gemRolls: seq<real>)
      requires |gemRolls| == |Gems|
      modifies this`entities
      ensures entities == DroppedAll(old(entities), x, y, AnimalDrops(kind, heartRoll, gemRolls))
    {
      if kind == Pig {
        DropPigLoot(x, y, heartRoll);
      } else if kind == ZPig {
        DropItem(x, y, PigHeart);
        DroppedAllCons(old(entities), x, y, PigHeart, []);
      } else if kind in Hostile {
        assert AnimalDrops(kind, heartRoll, gemRolls) == GemDrops(Gems, gemRolls);
        DropGems(x, y, Gems, gemRolls);
      }
    }

    /** A pig's loot: its heart on a winning roll, then its meat. */
    method DropPigLoot(x: real, y: real, heartRoll: real)
      modifies this`entities
      ensures entities == DroppedAll(old(entities), x, y, (if heartRoll > 0.5 then [PigHeart] else []) + [PigMeat])
    {
      if heartRoll > 0.5 {
        DropItem(x, y, PigHeart);
      }
      ghost var before := entities;
      DropItem(x, y, PigMeat);
      DroppedAllCons(before, x, y, PigMeat, []);
      if heartRoll > 0.5 {
        DroppedAllCons(old(entities), x, y, PigHeart, [PigMeat]);
      }
    }

    /** Each gem whose roll beats its threshold is dropped at (x, y), in table order. */
    method DropGems(x: real, y: real, gems: seq<(Kind, real)>, gemRolls: seq<real>)
      requires |gemRolls| == |gems|
      modifies this`entities
      ensures entities == DroppedAll(old(entities), x, y, GemDrops(gems, gemRolls))
    {
      var j := 0;
      while j < |gems|
        invariant 0 <= j <= |gems|
        invariant DroppedAll(entities, x, y, GemDrops(gems[j..], gemRolls[j..]))
               == DroppedAll(old(entities), x, y, GemDrops(gems, gemRolls))
      {
        assert gems[j..][1..] == gems[j + 1..] && gemRolls[j..][1..] == gemRolls[j + 1..];
        var rest := GemDrops(gems[j + 1..], gemRolls[j + 1..]);
        if gemRolls[j] > gems[j].1 {
          assert GemDrops(gems[j..], gemRolls[j..]) == [gems[j].0] + rest;
          DroppedAllCons(entities, x, y, gems[j].0, rest);
          DropItem(x, y, gems[j].0);
        } else {
          assert GemDrops(gems[j..], gemRolls[j..]) == [] + rest;
          assert [] + rest == rest;
        }
        j := j + 1;
      }
    }

    /** A left click at world pixel (xp, yp): a starving player does nothing;
        otherwise the first creature under the point takes a swing, else the
        first breakable decoration on the cell takes a blow (both lock the
        mouse), else an unlocked click starts digging a diggable tile. */
    method Click(xp: real, yp: real, now: real, heartRoll: real, gemRolls: seq<real>, appleRoll: real)
      requires Valid() && |gemRolls| == |Gems| && 0.0 <= xp < 6144.0 && 0.0 <= yp < 6144.0
      modifies this`animals, this`entities, this`gEntities, this`altars, this`hunger, this`mLock, this`digging
      ensures Valid()
      ensures State() == Clicked(old(State()), xp, yp, now, SwingDamage(hotbar[hbP]), BreakDamage(hotbar[hbP]),
                                 heartRoll, gemRolls, appleRoll)
    {
      if hunger > 0.0 {
        CellInRange(xp);
        CellInRange(yp);
        var hit := FindAnimalUnder(xp, yp);
        if hit.Some? {
          Strike(hit.value, heartRoll, gemRolls);
        } else {
          Poke(CellOf(xp), CellOf(yp), now, appleRoll);
        }
      }
    }

    /** A click on a creature: it takes the held item's swing damage and the
        mouse locks until it is released. */
    method Strike(i: nat, heartRoll: real, gemRolls: seq<real>)
      requires HerdOk() && HotbarOk() && i < |animals| && |gemRolls| == |Gems|
      modifies this`animals, this`entities, this`mLock
      ensures HerdOk()
      ensures animals == AfterBlow(old(animals), i, SwingDamage(hotbar[hbP])) && mLock
      ensures entities == Spoils(old(entities), old(animals[i]), SwingDamage(hotbar[hbP]), heartRoll, gemRolls)
    {
      DamageAnimal(i, SwingDamage(hotbar[hbP]), heartRoll, gemRolls);
      mLock := true;
    }

    /** A click on a cell with no creature under the pointer: the first
        breakable decoration there takes the held item's break damage and the
        mouse locks; with none, an unlocked mouse starts digging the tile. */
    method Poke(tx: int, ty: int, now: real, appleRoll: real)
      requires Valid() && 0 <= tx < WIDTH && 0 <= ty < HEIGHT
      modifies this`entities, this`gEntities, this`altars, this`hunger, this`mLock, this`digging
      ensures Valid()
      ensures FirstBreakableAt(old(gEntities), tx, ty).Some? ==>
        mLock && digging == old(digging)
        && (gEntities, entities, altars, hunger)
           == Chipped(old(gEntities), FirstBreakableAt(old(gEntities), tx, ty).value, BreakDamage(hotbar[hbP]),
                      old(entities), old(altars), old(hunger), appleRoll)
      ensures FirstBreakableAt(old(gEntities), tx, ty).None? ==>
        entities == old(entities) && gEntities == old(gEntities) && altars == old(altars)
        && hunger == old(hunger) && mLock == old(mLock)
        && digging == (if !old(mLock) && world[tx][ty] in Progression then StartDig(world[tx][ty], tx, ty, now)
                       else old(digging))
    {
      var j := FindBreakableAt(tx, ty);
      if j.Some? {
        Chip(j.value, appleRoll);
      } else if !mLock {
        StartDigging(tx, ty, now);
      }
    }

    /** The held item's break damage on decoration `j`; the mouse locks. */
    method Chip(j: nat, appleRoll: real)
      requires DecorationsOk() && HotbarOk() && j < |gEntities| && gEntities[j].kind in Breakable
      modifies this`entities, this`gEntities, this`altars, this`hunger, this`mLock
      ensures DecorationsOk() && mLock
      ensures (gEntities, entities, altars, hunger)
           == Chipped(old(gEntities), j, BreakDamage(hotbar[hbP]), old(entities), old(altars), old(hunger), appleRoll)
    {
      BreakDecoration(j, BreakDamage(hotbar[hbP]), appleRoll);
      mLock := true;
    }

    /** The list scan for the first creature under the point. */
    method FindAnimalUnder(xp: real, yp: real) returns (r: Option<nat>)
      ensures r == AnimalUnder(animals, xp, yp)
    {
      var i := 0;
      while i < |animals|
        invariant 0 <= i <= |animals|
        invariant AnimalUnder(animals[i..], xp, yp).Some? ==>
                    AnimalUnder(animals, xp, yp) == Some(i + AnimalUnder(animals[i..], xp, yp).value)
        invariant AnimalUnder(animals[i..], xp, yp).None? ==> AnimalUnder(animals, xp, yp).None?
      {
        assert animals[i..][1..] == animals[i + 1..];
        if Under(animals[i], xp, yp) {
          return Some(i);
        }
        i := i + 1;
      }
      return None;
    }

    /** The list scan for the first breakable decoration on a cell. */
    method FindBreakableAt(x: int, y: int) returns (r: Option<nat>)
      ensures r == FirstBreakableAt(gEntities, x, y)
    {
      var i := 0;
      while i < |gEntities|
        invariant 0 <= i <= |gEntities|
        invariant FirstBreakableAt(gEntities[i..], x, y).Some? ==>
                    FirstBreakableAt(gEntities, x, y) == Some(i + FirstBreakableAt(gEntities[i..], x, y).value)
        invariant FirstBreakableAt(gEntities[i..], x, y).None? ==> FirstBreakableAt(gEntities, x, y).None?
      {
        assert gEntities[i..][1..] == gEntities[i + 1..];
        if At(gEntities[i], x, y) && gEntities[i].kind in Breakable {
          return Some(i);
        }
        i := i + 1;
      }
      return None;
    }

    /** A blow of `amount` to the j-th decoration; one left without health is
        cleared from its cell, drops its item (and a tree maybe an apple) and
        costs hunger; a broken altar no longer counts. */
    method BreakDecoration(j: nat, amount: real, appleRoll: real)
      requires DecorationsOk() && j < |gEntities| && gEntities[j].kind in Breakable
      modifies this`gEntities, this`altars, this`entities, this`hunger
      ensures DecorationsOk() && |gEntities| <= |old(gEntities)|
      ensures (gEntities, entities, altars, hunger) == Chipped(old(gEntities), j, amount, old(entities), old(altars), old(hunger), appleRoll)
    {
      var d := Worn(gEntities[j], amount);
      Replace(j, d);
      if d.health <= 0.0 {
        Demolish(d, appleRoll);
      }
    }

    /** Updates the j-th decoration in place, on the same cell. */
    method Replace(j: nat, d: Decoration)
      requires DecorationsOk() && j < |gEntities| && d.x == gEntities[j].x && d.y == gEntities[j].y
      modifies this`gEntities
      ensures DecorationsOk() && gEntities == old(gEntities)[j := d]
    {
      gEntities := gEntities[j := d];
    }

    /** Clears a broken decoration's cell, drops its item (and for a tree,
        on a winning roll, an apple), discounts a broken altar and charges the
        breaking's hunger. */
    method Demolish(d: Decoration, appleRoll: real)
      requires DecorationsOk() && 0 <= d.x < WIDTH && 0 <= d.y < HEIGHT && d.kind in Breakable
      modifies this`gEntities, this`altars, this`entities, this`hunger
      ensures DecorationsOk()
      ensures gEntities == Cleared(old(gEntities), d.x, d.y)
      ensures altars == old(altars) - (if d.kind == Altar then 1 else 0)
      ensures hunger == old(hunger) - Hunger[d.kind]
      ensures entities == Broken(old(entities), d.x, d.y, d.kind, appleRoll)
    {
      Breaks(d.kind);
      SetG(d.x, d.y, None, false);
      if d.kind == Altar {
        altars := altars - 1;
      }
      DropBroken(d.x, d.y, d.kind, appleRoll);
      hunger := hunger - Hunger[d.kind];
    }

    /** A broken decoration's item (and a tree's apple, on a winning roll). */
    method DropBroken(x: int, y: int, k: Kind, appleRoll: real)
      requires k in EDrops
      modifies this`entities
      ensures entities == Broken(old(entities), x, y, k, appleRoll)
    {
      DropItem(x as real + 0.1, y as real + 0.1, EDrops[k]);
      if k == Tree && appleRoll > 0.3 {
        DropItem(x as real, y as real, Apple);
      }
    }

    /** An unlocked click on a diggable tile starts digging it. */
    method StartDigging(tx: int, ty: int, now: real)
      requires Valid() && 0 <= tx < WIDTH && 0 <= ty < HEIGHT
      modifies this`digging
      ensures Valid()
      ensures digging == (if world[tx][ty] in Progression then StartDig(world[tx][ty], tx, ty, now) else old(digging))
    {
      var tile := world[tx][ty];
      if tile in Progression {
        DigTablesAgree();
        digging := StartDig(tile, tx, ty, now);
      }
    }

    // -------------------------------------------------------------------
    // Terrain passes

    /** The flooding pass: every rock cell that touched water before the pass
        becomes shallow water. */
    method FloodRock()
      requires Valid()
      modifies this`world
      ensures Valid() && world == Flood(old(world))
    {
      var copy := world;
      ghost var target := Flood(copy);
      var x := 0;
      while x < WIDTH
        invariant 0 <= x <= WIDTH && RewrittenUpTo(world, copy, target, x, 0)
      {
        var y := 0;
        while y < HEIGHT
          invariant 0 <= y <= HEIGHT && RewrittenUpTo(world, copy, target, x, y)
        {
          assert target[x][y] == FloodCell(copy, x, y);
          RewriteCell(world, copy, target, x, y);
          if copy[x][y] in Rock && NextTo(copy, x, y, Wet) {
            var _ := SetAt(x, y, Water);
          }
          y := y + 1;
        }
        RewriteColumn(world, copy, target, x);
        x := x + 1;
      }
      RewriteDone(world, copy, target);
    }

    /** The growth pass: mud that touched grass before the pass turns to grass
        on the cells whose roll succeeded (`grow`). */
    method GrowGrass(grow: set<(int, int)>)
      requires Valid()
      modifies this`world
      ensures Valid() && world == Spread(old(world), grow)
    {
      var copy := world;
      ghost var target := Spread(copy, grow);
      var x := 0;
      while x < WIDTH
        invariant 0 <= x <= WIDTH && RewrittenUpTo(world, copy, target, x, 0)
      {
        var y := 0;
        while y < HEIGHT
          invariant 0 <= y <= HEIGHT && RewrittenUpTo(world, copy, target, x, y)
        {
          assert target[x][y] == SpreadCell(copy, x, y, grow);
          RewriteCell(world, copy, target, x, y);
          if copy[x][y] == Mud && NextTo(copy, x, y, {Grass}) && (x, y) in grow {
            var _ := SetAt(x, y, Grass);
          }
          y := y + 1;
        }
        RewriteColumn(world, copy, target, x);
        x := x + 1;
      }
      RewriteDone(world, copy, target);
    }

    // -------------------------------------------------------------------
    // The slow tick

    /** The once-a-second tick: the torch flicker toggles, a starving player
        loses health, rock next to water floods, and every creature takes
        its step (turning, biting, drowning), in herd order. */
    method SlowTick(fates: seq<Fate>)
      requires Valid() && |fates| == |animals|
      modifies this`flash, this`health, this`world, this`animals, this`entities
      ensures Valid() && flash == !old(flash) && world == Flood(old(world))
      ensures animals == Stepped(old(animals), fates, |fates|, world, px, py)
      ensures entities == Drownings(old(entities), old(animals), fates, |fates|, world, px, py)
      ensures health == old(health) - (if old(hunger) <= 0.0 then 0.2 else 0.0) - Bites(old(animals), |fates|, px, py, Armour(hotbar))
    {
      flash := !flash;
      if hunger <= 0.0 {
        health := health - 0.2;
      }
      FloodRock();
      StepHerd(fates);
    }

    /** The once-every-few-seconds tick: mud grows into grass where its roll
        succeeded (`grow`), a pig may appear on a free cell (when `spawnRoll`
        beats 0.9, facing `facing` with speed `speed`), and each altar heals
        the player a quarter point, never above full health. */
    method SuperSlowTick(grow: set<(int, int)>, spawnRoll: real, facing: int, speed: int)
      requires Valid() && 0 <= facing <= 3 && 32 <= speed <= 64
      requires spawnRoll > 0.9 ==> exists x, y :: FreeCell(world, gEntities, x, y)
      modifies this`world, this`animals, this`health
      ensures Valid() && world == Spread(old(world), grow)
      ensures health == Min(old(health) + altars as real * ALTAR_BONUS, MAX_HEALTH)
      ensures spawnRoll <= 0.9 ==> animals == old(animals)
      ensures spawnRoll > 0.9 ==>
        |animals| == |old(animals)| + 1 && animals[..|old(animals)|] == old(animals)
        && Newcomer(animals[|old(animals)|], Pig, facing, speed, world, gEntities)
    {
      ghost var x0, y0 := 0, 0;
      if spawnRoll > 0.9 {
        x0, y0 :| FreeCell(world, gEntities, x0, y0);
      }
      GrowGrass(grow);
      if spawnRoll > 0.9 {
        SpreadKeepsFree(old(world), grow, gEntities, x0, y0);
        var _ := SpawnOnFreeCell(Pig, facing, speed, x0, y0);
      }
      health := Min(health + altars as real * ALTAR_BONUS, MAX_HEALTH);
    }

    /** The frame tick, `dt` seconds after the last one at time `now`, with
        the pointer at world pixel (xp, yp), the left button `pressed` and the
        F key `gathering`: waves, then the game-over test (`over`, for health
        below zero), then digging, then picking up. Moving the player and the
        camera is not part of this model. */
    method Tick(dt: real, now: real, xp: real, yp: real, pressed: bool, gathering: bool,
                heartRoll: real, gemRolls: seq<real>, appleRoll: real) returns (over: bool)
      requires Valid() && |gemRolls| == |Gems| && 0.0 <= xp < 6144.0 && 0.0 <= yp < 6144.0
      requires difficulty != 1 ==> exists x, y :: FreeCell(world, gEntities, x, y)
      modifies this`waveTimer, this`wave, this`animals, this`world, this`entities, this`gEntities,
               this`altars, this`hunger, this`mLock, this`digging, this`hotbar
      ensures Valid() && over == (old(health) < 0.0) && health == old(health)
      ensures !gathering ==> hotbar == old(hotbar)
      ensures !old(mLock) ==> digging.None? || now < digging.value.end
      ensures old(mLock) ==>
        world == old(world) && gEntities == old(gEntities) && altars == old(altars) && hunger == old(hunger)
        && mLock && digging == old(digging) && (!gathering ==> entities == old(entities))
    {
      WaveTick(dt);
      over := health < 0.0;
      DigTick(xp, yp, pressed, now, heartRoll, gemRolls, appleRoll);
      if gathering {
        Gather();
      }
    }

    /** The wave part of the frame tick: the wave timer runs on by `dt` and a
        wave fires once it is due. */
    method WaveTick(dt: real)
      requires Valid()
      requires difficulty != 1 ==> exists x, y :: FreeCell(world, gEntities, x, y)
      modifies this`waveTimer, this`wave, this`animals
      ensures Valid()
      ensures !WaveDue(old(waveTimer) + dt, old(wave), altars) || difficulty == 1 ==>
        waveTimer == old(waveTimer) + dt && wave == old(wave) && animals == old(animals)
      ensures WaveDue(old(waveTimer) + dt, old(wave), altars) && difficulty != 1 ==>
        waveTimer == 0.0 && wave == NextWave(old(wave))
        && |old(animals)| <= |animals| && animals[..|old(animals)|] == old(animals)
        && Arrived(animals[|old(animals)|..], Horde(Cohort(Rotation, wave), Rounds(wave, altars)), world, gEntities)
    {
      waveTimer := waveTimer + dt;
      if WaveDue(waveTimer, wave, altars) {
        DoWave();
      }
    }

    /** The end of a dig, once its time has come: the dug cell takes its new
        tile, the dug material drops there, hunger is charged by the new
        tile, the cell's decoration is cleared and nothing is dug any more.
        (The game applies this to the cell under the cursor; see
        `CompleteDigAsWritten`.) */
    method FinishDig(now: real)
      requires Valid()
      modifies this`world, this`entities, this`hunger, this`gEntities, this`digging
      ensures Valid()
      ensures State() == Finished(old(State()), now)
    {
      if digging.Some? && now >= digging.value.end {
        var d := digging.value;
        DigTablesAgree();
        var _ := SetAt(d.tx, d.ty, d.after);
        DropItem(d.tx as real, d.ty as real, d.drop);
        hunger := hunger - Hunger[d.after];
        SetG(d.tx, d.ty, None, false);
        digging := None;
      }
    }

    /** Whether the frame tick clicks: the button is held over a cell other
        than the one being dug. */
    ghost predicate ClicksAgain(xp: real, yp: real, pressed: bool)
      reads this`digging
    {
      pressed && (digging.None? || (CellOf(xp), CellOf(yp)) != (digging.value.tx, digging.value.ty))
    }

    /** The digging part of the frame tick, with the pointer at world pixel
        (xp, yp): with the mouse unlocked, a held button over a cell other
        than the one being dug clicks there, and then a dig whose time has
        come completes on the cell that was dug. A locked mouse does nothing. */
    method DigTick(xp: real, yp: real, pressed: bool, now: real, heartRoll: real, gemRolls: seq<real>, appleRoll: real)
      requires Valid() && |gemRolls| == |Gems| && 0.0 <= xp < 6144.0 && 0.0 <= yp < 6144.0
      modifies this`world, this`animals, this`entities, this`gEntities, this`altars, this`hunger, this`mLock, this`digging
      ensures Valid()
      ensures old(mLock) ==> State() == old(State())
      ensures !old(mLock) ==>
        State() == Finished(if old(ClicksAgain(xp, yp, pressed))
                            then Clicked(old(State()), xp, yp, now, SwingDamage(hotbar[hbP]), BreakDamage(hotbar[hbP]),
                                         heartRoll, gemRolls, appleRoll)
                            else old(State()), now)
      ensures !old(mLock) ==> digging.None? || now < digging.value.end
    {
      if !mLock {
        var stale := digging.None? || (CellOf(xp), CellOf(yp)) != (digging.value.tx, digging.value.ty);
        if stale && pressed {
          Click(xp, yp, now, heartRoll, gemRolls, appleRoll);
        }
        FinishDig(now);
      }
    }

    /** The F key: every ground item that was under the player when the key
        was read is offered to the hotbar, in list order. */
    method Gather()
      requires HotbarOk()
      modifies this`hotbar, this`entities
      ensures HotbarOk()
      ensures (hotbar, entities) == Gathered(old(hotbar), old(entities), old(entities), px, py, playerW, playerH)
    {
      var snapshot := entities;
      var i := 0;
      assert snapshot[i..] == snapshot;
      while i < |snapshot|
        invariant 0 <= i <= |snapshot| && HotbarOk()
        invariant multiset(snapshot[i..]) <= multiset(entities)
        invariant Gathered(hotbar, entities, snapshot[i..], px, py, playerW, playerH)
               == Gathered(old(hotbar), old(entities), snapshot, px, py, playerW, playerH)
      {
        assert snapshot[i..] == [snapshot[i]] + snapshot[i + 1..];
        Offer(snapshot[i], snapshot[i + 1..]);
        i := i + 1;
      }
      assert snapshot[i..] == [];
    }

    /** One item of the gathering: picked up when it touches the player.
        `rest` are the items still to be offered. */
    method Offer(e: Item, ghost rest: seq<Item>)
      requires HotbarOk() && multiset([e] + rest) <= multiset(entities)
      modifies this`hotbar, this`entities
      ensures HotbarOk() && multiset(rest) <= multiset(entities)
      ensures Gathered(hotbar, entities, rest, px, py, playerW, playerH)
           == Gathered(old(hotbar), old(entities), [e] + rest, px, py, playerW, playerH)
    {
      assert ([e] + rest)[0] == e && ([e] + rest)[1..] == rest;
      if Touches(e, px, py, playerW, playerH) {
        assert e in multiset(entities);
        RemoveCount(entities, e);
        ghost var p := Picked(hotbar, e.kind);
        assert Gathered(hotbar, entities, [e] + rest, px, py, playerW, playerH)
            == if p.Some? then Gathered(p.value, Remove(entities, e), rest, px, py, playerW, playerH)
               else Gathered(hotbar, entities, rest, px, py, playerW, playerH);
        Pickup(e);
      } else {
        assert Gathered(old(hotbar), old(entities), [e] + rest, px, py, playerW, playerH)
            == Gathered(hotbar, entities, rest, px, py, playerW, playerH);
      }
    }

    /** Every creature of the herd as it was takes its step; `j` follows the
        creature's place in the live list, which a drowning shortens. */
    method StepHerd(fates: seq<Fate>)
      requires GridOk() && HerdOk() && |fates| == |animals|
      modifies this`health, this`animals, this`entities
      ensures HerdOk()
      ensures animals == Stepped(old(animals), fates, |fates|, world, px, py)
      ensures entities == Drownings(old(entities), old(animals), fates, |fates|, world, px, py)
      ensures health == old(health) - Bites(old(animals), |fates|, px, py, Armour(hotbar))
    {
      var herd := animals;
      var armour := Armour(hotbar);
      var j := 0;
      var k := 0;
      while k < |herd|
        invariant k <= |herd| && HerdOk()
        invariant Walked(herd, fates, k, j, animals, old(entities), entities, old(health) - health, world, px, py, armour)
      {
        j := WalkOne(herd, fates, k, j, old(entities), old(health), armour);
        k := k + 1;
      }
      assert herd[k..] == [];
    }

    /** The walk's step for the k-th creature of the herd, which sits at
        place `j` of the live list; `j'` is where the next one sits. */
    method WalkOne(ghost herd: seq<Animal>, fates: seq<Fate>, k: nat, j: nat, ghost items0: seq<Item>,
                   ghost health0: real, armour: int) returns (j': nat)
      requires GridOk() && HerdOk() && k < |herd| == |fates| && armour >= 1
      requires Walked(herd, fates, k, j, animals, items0, entities, health0 - health, world, px, py, armour)
      modifies this`health, this`animals, this`entities
      ensures HerdOk()
      ensures Walked(herd, fates, k + 1, j', animals, items0, entities, health0 - health, world, px, py, armour)
    {
      WalkedAt(herd, fates, k, j, animals, items0, entities, health0 - health, world, px, py, armour);
      ghost var live, items, hurt := animals, entities, health0 - health;
      var stays := StepOne(j, herd[k], fates[k], armour);
      WalkedStep(herd, fates, k, j, live, animals, items0, items, entities, hurt, health0 - health, world, px, py, armour);
      j' := if stays then j + 1 else j;
    }

    /** One creature's step. */
    method StepOne(j: nat, ghost a: Animal, f: Fate, armour: int) returns (stays: bool)
      requires GridOk() && HerdOk() && j < |animals| && animals[j] == a && armour >= 1
      modifies this`health, this`animals, this`entities
      ensures HerdOk()
      ensures stays == (Fated(a, f, world, px, py) != [])
      ensures animals == old(animals[..j]) + Fated(a, f, world, px, py) + old(animals[j + 1..])
      ensures health == old(health) - Bite(a, px, py, armour)
      ensures entities == Remains(old(entities), Steered(a, px, py, f), f, world)
    {
      Steer(j, f, armour);
      assert animals[..j] == old(animals[..j]) && animals[j + 1..] == old(animals[j + 1..]);
      stays := Soak(j, f);
    }

    /** The water check: a walking creature on a water cell takes a blow of
        one (and drops its loot if that kills it). */
    method Soak(j: nat, f: Fate) returns (stays: bool)
      requires GridOk() && HerdOk() && j < |animals|
      modifies this`animals, this`entities
      ensures HerdOk()
      ensures stays == (Soaked(old(animals[j]), world) != [])
      ensures animals == old(animals[..j]) + Soaked(old(animals[j]), world) + old(animals[j + 1..])
      ensures entities == Remains(old(entities), old(animals[j]), f, world)
    {
      var b := animals[j];
      var drowning := false;
      if b.kind !in Floating {
        var tx, ty := CellOf(b.x), CellOf(b.y);
        if 0 <= tx < WIDTH && 0 <= ty < HEIGHT && world[tx][ty] in Wet {
          drowning := true;
        }
      }
      assert drowning == Drowns(b, world);
      stays := true;
      if drowning {
        DamageAnimal(j, 1.0, f.heart, GemRolls(f));
        stays := b.health > 1.0;
      } else {
        assert old(animals) == old(animals[..j]) + [b] + old(animals[j + 1..]);
      }
    }

    /** A creature looks around: a hostile that sees the player turns toward
        it and bites it when in reach; otherwise it may wander. */
    method Steer(j: nat, f: Fate, armour: int)
      requires HerdOk() && j < |animals| && armour >= 1
      modifies this`animals, this`health
      ensures HerdOk() && animals == old(animals)[j := Steered(old(animals[j]), px, py, f)]
      ensures health == old(health) - Bite(old(animals[j]), px, py, armour)
    {
      var a := animals[j];
      var wander := true;
      if a.kind in Hostile {
        CreatureTablesAgree();
        if Within(a, px, py, VRange[a.kind]) {
          animals := animals[j := a.(facing := FaceToward(px - a.x, py - a.y))];
          wander := false;
        }
        if Within(a, px, py, Range[a.kind]) {
          health := health - Attack[a.kind] / armour as real;
        }
      }
      if wander && f.wander > 0.8 {
        animals := animals[j := a.(facing := Turn(a.facing, f.delta))];
      }
    }

    // -------------------------------------------------------------------
    // Waves

    /** A wave: except on the peaceful difficulty, the timer restarts, the wave
        number advances (up to the last timer) and every pass of the wave
        spawns the cohort, each creature on some free cell. */
    method DoWave()
      requires Valid()
      requires difficulty != 1 ==> exists x, y :: FreeCell(world, gEntities, x, y)
      modifies this`waveTimer, this`wave, this`animals
      ensures Valid()
      ensures difficulty == 1 ==> waveTimer == old(waveTimer) && wave == old(wave) && animals == old(animals)
      ensures difficulty != 1 ==> waveTimer == 0.0 && wave == NextWave(old(wave))
      ensures difficulty != 1 ==>
        |old(animals)| <= |animals| && animals[..|old(animals)|] == old(animals)
        && Arrived(animals[|old(animals)|..], Horde(Cohort(Rotation, wave), Rounds(wave, altars)), world, gEntities)
    {
      if difficulty != 1 {
        ghost var x0, y0 :| FreeCell(world, gEntities, x0, y0);
        waveTimer := 0.0;
        wave := NextWave(wave);
        assert FreeCell(world, gEntities, x0, y0);
        CohortSpawnable(wave);
        SpawnWave(Cohort(Rotation, wave), Rounds(wave, altars), x0, y0);
      }
    }

    /** The passes of a wave: `rounds` times the cohort `ks`. */
    method SpawnWave(ks: seq<Kind>, rounds: nat, ghost x0: int, ghost y0: int)
      requires HerdOk() && forall k :: k in ks ==> k in AnimalHealth
      requires FreeCell(world, gEntities, x0, y0)
      modifies this`animals
      ensures HerdOk() && |old(animals)| <= |animals| && animals[..|old(animals)|] == old(animals)
      ensures Arrived(animals[|old(animals)|..], Horde(ks, rounds), world, gEntities)
    {
      ghost var start := animals;
      var r := 0;
      while r < rounds
        invariant 0 <= r <= rounds && HerdOk()
        invariant |start| <= |animals| && animals[..|start|] == start
        invariant Arrived(animals[|start|..], Horde(ks, r), world, gEntities)
      {
        ghost var before := animals;
        SpawnCohort(ks, x0, y0);
        ArrivedAppend(before[|start|..], Horde(ks, r), animals[|before|..], ks, world, gEntities);
        assert animals[|start|..] == before[|start|..] + animals[|before|..];
        r := r + 1;
      }
    }

    /** One pass of a wave: a creature of each kind of `ks`, in order. */
    method SpawnCohort(ks: seq<Kind>, ghost x0: int, ghost y0: int)
      requires HerdOk() && forall k :: k in ks ==> k in AnimalHealth
      requires FreeCell(world, gEntities, x0, y0)
      modifies this`animals
      ensures HerdOk() && |old(animals)| <= |animals| && animals[..|old(animals)|] == old(animals)
      ensures Arrived(animals[|old(animals)|..], ks, world, gEntities)
    {
      var j := 0;
      while j < |ks|
        invariant 0 <= j <= |ks| && HerdOk()
        invariant |old(animals)| <= |animals| && animals[..|old(animals)|] == old(animals)
        invariant Arrived(animals[|old(animals)|..], ks[..j], world, gEntities)
      {
        ghost var before := animals;
        var a := SpawnOnFreeCell(ks[j], 0, 16, x0, y0);
        assert animals[|old(animals)|..] == before[|old(animals)|..] + [a];
        assert ks[..j + 1] == ks[..j] + [ks[j]];
        j := j + 1;
      }
      assert ks[..|ks|] == ks;
    }

    /** A creature of kind `k` on some free cell (the source retries random
        cells until one is placeable and undecorated; (x0, y0) is one). */
    method SpawnOnFreeCell(k: Kind, facing: int, speed: int, ghost x0: int, ghost y0: int) returns (a: Animal)
      requires HerdOk() && k in AnimalHealth && 0 <= facing <= 3
      requires FreeCell(world, gEntities, x0, y0)
      modifies this`animals
      ensures HerdOk() && animals == old(animals) + [a] && Newcomer(a, k, facing, speed, world, gEntities)
    {
      var x, y :| FreeCell(world, gEntities, x, y);
      NewcomerAt(k, facing, speed, world, gEntities, x, y);
      a := Animal(x as real * 64.0, y as real * 64.0, k, AnimalHealth[k], facing, speed);
      Spawn(a);
    }

    // -------------------------------------------------------------------
    // Using the selected item

    /** A right click at world pixel (xp, yp) with the selected slot: the item
        acts (eaten, fed to an altar, healing, building or placed) and, when it
        did, one is taken from the slot. `facing` and `speed` are the random
        picks for a zombie pig an altar spawns. */
    method Use(xp: real, yp: real, facing: int, speed: int) returns (used: bool)
      requires Valid() && 0.0 <= xp < 6144.0 && 0.0 <= yp < 6144.0 && 0 <= facing <= 3 && 64 <= speed <= 128
      modifies this`hotbar, this`hunger, this`health, this`world, this`gEntities, this`altars, this`animals
      ensures Valid()
      ensures old(hotbar[hbP]).None? ==> !used
      ensures old(hotbar[hbP]).Some? ==>
        used == UseAccepted(old(hotbar[hbP]).value.kind, old(world[CellOf(xp)][CellOf(yp)]), old(hunger), old(health),
                            old(FirstAt(gEntities, CellOf(xp), CellOf(yp))).None?,
                            old(FirstOfKindAt(gEntities, CellOf(xp), CellOf(yp), Altar)).Some?)
      ensures hotbar == if used then Consumed(old(hotbar), hbP, 1) else old(hotbar)
      ensures old(hotbar[hbP]).None? ==> State() == old(State())
      ensures old(hotbar[hbP]).Some? ==>
        State() == Applied(old(State()), old(hotbar[hbP]).value.kind, CellOf(xp), CellOf(yp), facing, speed)
    {
      var held := hotbar[hbP];
      if held.None? {
        return false;
      }
      CellInRange(xp);
      CellInRange(yp);
      used := Apply(CellOf(xp), CellOf(yp), held.value.kind, facing, speed);
      if used {
        hotbar := Consumed(hotbar, hbP, 1);
      }
    }

    /** What an item of kind `k` does on cell (tx, ty), and whether it was used. */
    method Apply(tx: int, ty: int, k: Kind, facing: int, speed: int) returns (used: bool)
      requires Valid() && 0 <= tx < WIDTH && 0 <= ty < HEIGHT && 0 <= facing <= 3
      modifies this`hunger, this`health, this`world, this`gEntities, this`altars, this`animals
      ensures Valid()
      ensures used == UseAccepted(k, old(world[tx][ty]), old(hunger), old(health),
                                  FirstAt(old(gEntities), tx, ty).None?,
                                  FirstOfKindAt(old(gEntities), tx, ty, Altar).Some?)
      ensures State() == Applied(old(State()), k, tx, ty, facing, speed)
    {
      if Food(k) {
        used := Consume(tx, ty, k, facing, speed);
      } else {
        used := Build(tx, ty, k);
      }
    }

    /** Building items and decorations. */
    method Build(tx: int, ty: int, k: Kind) returns (used: bool)
      requires Valid() && 0 <= tx < WIDTH && 0 <= ty < HEIGHT
      modifies this`world, this`gEntities, this`altars
      ensures Valid()
      ensures used == BuildAccepted(k, old(world[tx][ty]), FirstAt(old(gEntities), tx, ty).None?)
      ensures State() == Built(old(State()), k, tx, ty)
    {
      if k in Fillers {
        used := Terraform(tx, ty, k);
      } else if k in Placed {
        used := PlaceDecoration(tx, ty, k);
      } else {
        used := false;
      }
    }

    /** Food and hearts: an apple is eaten, raw meat goes to an altar on the
        cell (or is eaten when there is none) and a heart heals. */
    method Consume(tx: int, ty: int, k: Kind, facing: int, speed: int) returns (used: bool)
      requires Valid() && 0 <= tx < WIDTH && 0 <= ty < HEIGHT && 0 <= facing <= 3
      requires Food(k)
      modifies this`hunger, this`health, this`gEntities, this`altars, this`animals
      ensures Valid()
      ensures used == FoodAccepted(k, old(hunger), old(health), FirstOfKindAt(old(gEntities), tx, ty, Altar).Some?)
      ensures State() == Fed(old(State()), k, tx, ty, facing, speed)
    {
      ghost var s0 := State();
      if k == Apple {
        used := Eat(0.5);
        assert State() == Ate(s0, 0.5);
      } else if k == PigMeat {
        var j := FindKindAt(tx, ty, Altar);
        if j.Some? {
          FeedAltar(j.value, facing, speed);
          used := true;
        } else {
          used := Eat(1.0);
          assert State() == Ate(s0, 1.0);
        }
      } else {
        used := Heal();
        assert State() == s0.(health := health);
      }
    }

    /** Eating: only when hungry, and never past full. */
    method Eat(amount: real) returns (used: bool)
      modifies this`hunger
      ensures used == (old(hunger) < MAX_HUNGER)
      ensures hunger == (if used then Min(old(hunger) + amount, MAX_HUNGER) else old(hunger))
    {
      used := false;
      if hunger < MAX_HUNGER {
        hunger := hunger + amount;
        hunger := Min(hunger, MAX_HUNGER);
        used := true;
      }
    }

    /** A heart heals one point, only when wounded and never past full. */
    method Heal() returns (used: bool)
      modifies this`health
      ensures used == (old(health) < MAX_HEALTH)
      ensures health == (if used then Min(old(health) + 1.0, MAX_HEALTH) else old(health))
    {
      used := false;
      if health < MAX_HEALTH {
        health := health + 1.0;
        health := Min(health, MAX_HEALTH);
        used := true;
      }
    }

    /** The list scan for the first decoration of kind `k` on a cell. */
    method FindKindAt(x: int, y: int, k: Kind) returns (r: Option<nat>)
      ensures r == FirstOfKindAt(gEntities, x, y, k)
    {
      var i := 0;
      while i < |gEntities|
        invariant 0 <= i <= |gEntities|
        invariant forall j :: 0 <= j < i ==> !(At(gEntities[j], x, y) && gEntities[j].kind == k)
      {
        if At(gEntities[i], x, y) && gEntities[i].kind == k {
          FirstOfKindAtScan(gEntities, x, y, k, i);
          return Some(i);
        }
        i := i + 1;
      }
      FirstOfKindAtScan(gEntities, x, y, k, i);
      return None;
    }

    /** Raw meat offered on an altar: the altar loses five health (and is
        cleared from its cell when none is left), the player pays one health,
        hunger stays as it was, and a zombie pig appears on the altar's cell. */
    method FeedAltar(j: nat, facing: int, speed: int)
      requires Valid() && j < |gEntities| && gEntities[j].kind == Altar && 0 <= facing <= 3
      modifies this`gEntities, this`altars, this`health, this`hunger, this`animals
      ensures Valid()
      ensures State() == Offered(old(State()), j, facing, speed)
      ensures hunger == old(hunger)
    {
      var d := gEntities[j];
      WearAltar(j);
      health := health - 1.0;
      hunger := MaxReal(hunger, hunger - 3.0);
      Spawn(Animal(d.x as real * 64.0, d.y as real * 64.0, ZPig, 30.0, facing, speed));
    }

    /** The altar's share of an offering: five health off, and its cell cleared
        and the altar count lowered once none is left. */
    method WearAltar(j: nat)
      requires DecorationsOk() && j < |gEntities|
      modifies this`gEntities, this`altars
      ensures DecorationsOk()
      ensures old(gEntities[j]).health > 5.0 ==>
        gEntities == old(gEntities)[j := Worn(old(gEntities[j]), 5.0)] && altars == old(altars)
      ensures old(gEntities[j]).health <= 5.0 ==>
        gEntities == Cleared(old(gEntities)[j := Worn(old(gEntities[j]), 5.0)], old(gEntities[j]).x, old(gEntities[j]).y)
        && altars == old(altars) - 1
    {
      var d := Worn(gEntities[j], 5.0);
      Replace(j, d);
      if d.health <= 0.0 {
        SetG(d.x, d.y, None, false);
        altars := altars - 1;
      }
    }

    /** A creature joins the list. */
    method Spawn(a: Animal)
      requires HerdOk() && 0 <= a.facing < 4 && a.health > 0.0
      modifies this`animals
      ensures HerdOk() && animals == old(animals) + [a]
    {
      animals := animals + [a];
    }

    /** Building on the terrain: the change `Fill` names is made (a tile
        replaced, or a wall registered on the cell); with none, nothing
        happens. */
    method Terraform(tx: int, ty: int, k: Kind) returns (used: bool)
      requires Valid() && 0 <= tx < WIDTH && 0 <= ty < HEIGHT
      modifies this`world, this`gEntities
      ensures Valid()
      ensures used == Fill(k, old(world[tx][ty])).Some?
      ensures Fill(k, old(world[tx][ty])).None? ==> world == old(world) && gEntities == old(gEntities)
      ensures Fill(k, old(world[tx][ty])).Some? && Fill(k, old(world[tx][ty])).value.SetTile? ==>
        world == Put(old(world), tx, ty, Fill(k, old(world[tx][ty])).value.tile) && gEntities == old(gEntities)
      ensures Fill(k, old(world[tx][ty])).Some? && Fill(k, old(world[tx][ty])).value.Build? ==>
        world == old(world)
        && gEntities == old(gEntities) + [Decoration(tx, ty, Fill(k, old(world[tx][ty])).value.decoration,
                                                     HealthOf(Fill(k, old(world[tx][ty])).value.decoration))]
    {
      var change := Fill(k, world[tx][ty]);
      used := change.Some?;
      if change.Some? {
        match change.value
        case SetTile(t) =>
          var _ := SetAt(tx, ty, t);
        case Build(d) =>
          SetG(tx, ty, Some(d), false);
      }
    }

    /** Placing a candle or an altar: only on a placeable tile with no
        decoration; an altar counts towards the altar total. */
    method PlaceDecoration(tx: int, ty: int, k: Kind) returns (used: bool)
      requires Valid() && 0 <= tx < WIDTH && 0 <= ty < HEIGHT
      modifies this`gEntities, this`altars
      ensures Valid()
      ensures used == (old(world[tx][ty]) in Placeable && FirstAt(old(gEntities), tx, ty).None?)
      ensures used ==> gEntities == old(gEntities) + [Decoration(tx, ty, k, HealthOf(k))]
                       && altars == old(altars) + (if k == Altar then 1 else 0)
      ensures !used ==> gEntities == old(gEntities) && altars == old(altars)
    {
      used := false;
      if world[tx][ty] in Placeable {
        var i := 0;
        while i < |gEntities|
          invariant 0 <= i <= |gEntities|
          invariant forall j :: 0 <= j < i ==> !At(gEntities[j], tx, ty)
        {
          if At(gEntities[i], tx, ty) {
            return;
          }
          i := i + 1;
        }
        SetG(tx, ty, Some(k), false);
        if k == Altar {
          altars := altars + 1;
        }
        used := true;
      }
    }

    /** A key press: a number key selects a hotbar slot, Q drops one of the
        selected item, C crafts. */
    method KeyDown(key: WorldKey)
      requires Valid() && (key.Digit? ==> 0 <= key.d <= 9)
      modifies this`hbP, this`hotbar, this`entities, this`health
      ensures Valid()
      ensures key.Digit? ==> hbP == SlotOfDigit(key.d) && hotbar == old(hotbar) && entities == old(entities)
      ensures !key.Digit? ==> hbP == old(hbP)
      ensures key.KeyQ? || key.OtherKey? ==> health == old(health)
      ensures key.OtherKey? ==> hotbar == old(hotbar) && entities == old(entities)
      ensures key.KeyQ? && old(hotbar[hbP]).None? ==> hotbar == old(hotbar) && entities == old(entities)
      ensures key.KeyQ? && old(hotbar[hbP]).Some? ==>
        hotbar == Consumed(old(hotbar), hbP, 1)
        && entities == Dropped(old(entities), px / 64.0, py / 64.0, old(hotbar[hbP]).value.kind)
      ensures key.KeyC? ==> hotbar == old(hotbar)
      ensures key.KeyC? ==> (entities, health) == old(Crafted(Recipes, entities, health))
    {
      match key
      case Digit(d) => hbP := SlotOfDigit(d);
      case KeyQ => DropSelected();
      case KeyC =>
        DoCraft(Recipes);
        assert hotbar == old(hotbar);
      case OtherKey =>
    }

    /** Releasing the left button stops digging and unlocks the mouse. */
    method MouseUp(button: int)
      modifies this`digging, this`mLock
      ensures button == 1 ==> digging.None? && !mLock
      ensures button != 1 ==> digging == old(digging) && mLock == old(mLock)
    {
      if button == 1 {
        digging := None;
        mLock := false;
      }
    }
  }
}
