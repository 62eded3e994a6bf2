/** Every tile, decoration, item and creature kind of the world, and the game's
    fixed lookup tables keyed by kind.

    The game names each kind by the (column, row) of its sprite on the ground
    tile sheet, so tiles, decorations, items and creatures share one namespace
    (an altar or a candle is both a decoration and an item). Here the kinds form
    one closed enumeration, and `Sprite` recovers the sheet cell. */
module Kinds {
  import opened Util

  datatype Kind =
    | Water | WaterM | WaterD | PlankW | PlankF | Grass | Sand | Table | Fracture
    | SandDrop | DirtDrop | Tree | LogDrop | Apple | Stick | Mud | RockS | RockR
    | Pickaxe | PlankFDrop | PlankWDrop | FlowersC | FlowersB | FlowersW | WetRock
    | ZPig | Pig | PigMeat | PigHeart | CandleL | Candle | Altar | CandleG | Rubble
    | RockWall | Tile | HighStone | Vines | Blood | SkyStone | Eye | Angel
    | Slime | GemL | GemM | GemS | Ingot | SwordS | SwordI | ArmourS | ArmourI | Vampire

  /** The sheet cell (column, row) the game uses as the kind's identity. */
  function Sprite(k: Kind): (int, int)
  {
    match k
    case Water => (0, 0)      case WaterM => (4, 1)     case WaterD => (4, 0)
    case PlankW => (4, 2)     case PlankF => (4, 3)     case Grass => (1, 0)
    case Sand => (2, 0)       case Table => (0, 1)      case Fracture => (1, 1)
    case SandDrop => (2, 1)   case DirtDrop => (2, 2)   case Tree => (0, 2)
    case LogDrop => (1, 2)    case Apple => (0, 3)      case Stick => (1, 3)
    case Mud => (2, 3)        case RockS => (3, 0)      case RockR => (3, 1)
    case Pickaxe => (3, 3)    case PlankFDrop => (3, 2) case PlankWDrop => (0, 4)
    case FlowersC => (2, 4)   case FlowersB => (3, 4)   case FlowersW => (4, 4)
    case WetRock => (5, 4)    case ZPig => (5, 5)       case Pig => (0, 5)
    case PigMeat => (1, 4)    case PigHeart => (1, 5)   case CandleL => (5, 0)
    case Candle => (5, 1)     case Altar => (5, 2)      case CandleG => (4, 5)
    case Rubble => (5, 3)     case RockWall => (3, 5)   case Tile => (2, 5)
    case HighStone => (0, 6)  case Vines => (1, 6)      case Blood => (2, 6)
    case SkyStone => (3, 6)   case Eye => (4, 6)        case Angel => (5, 6)
    case Slime => (6, 0)      case GemL => (6, 1)       case GemM => (6, 2)
    case GemS => (6, 3)       case Ingot => (6, 4)      case SwordS => (6, 5)
    case SwordI => (6, 6)     case ArmourS => (7, 0)    case ArmourI => (7, 1)
    case Vampire => (7, 2)
  }

  /** The kind named by a sheet cell, if any: the lookup the debug console's
      `give` command performs on the value it is handed. */
  function KindAt(cell: (int, int)): Option<Kind>
  {
    match cell
    case (0, 0) => Some(Water)      case (4, 1) => Some(WaterM)     case (4, 0) => Some(WaterD)
    case (4, 2) => Some(PlankW)     case (4, 3) => Some(PlankF)     case (1, 0) => Some(Grass)
    case (2, 0) => Some(Sand)       case (0, 1) => Some(Table)      case (1, 1) => Some(Fracture)
    case (2, 1) => Some(SandDrop)   case (2, 2) => Some(DirtDrop)   case (0, 2) => Some(Tree)
    case (1, 2) => Some(LogDrop)    case (0, 3) => Some(Apple)      case (1, 3) => Some(Stick)
    case (2, 3) => Some(Mud)        case (3, 0) => Some(RockS)      case (3, 1) => Some(RockR)
    case (3, 3) => Some(Pickaxe)    case (3, 2) => Some(PlankFDrop) case (0, 4) => Some(PlankWDrop)
    case (2, 4) => Some(FlowersC)   case (3, 4) => Some(FlowersB)   case (4, 4) => Some(FlowersW)
    case (5, 4) => Some(WetRock)    case (5, 5) => Some(ZPig)       case (0, 5) => Some(Pig)
    case (1, 4) => Some(PigMeat)    case (1, 5) => Some(PigHeart)   case (5, 0) => Some(CandleL)
    case (5, 1) => Some(Candle)     case (5, 2) => Some(Altar)      case (4, 5) => Some(CandleG)
    case (5, 3) => Some(Rubble)     case (3, 5) => Some(RockWall)   case (2, 5) => Some(Tile)
    case (0, 6) => Some(HighStone)  case (1, 6) => Some(Vines)      case (2, 6) => Some(Blood)
    case (3, 6) => Some(SkyStone)   case (4, 6) => Some(Eye)        case (5, 6) => Some(Angel)
    case (6, 0) => Some(Slime)      case (6, 1) => Some(GemL)       case (6, 2) => Some(GemM)
    case (6, 3) => Some(GemS)       case (6, 4) => Some(Ingot)      case (6, 5) => Some(SwordS)
    case (6, 6) => Some(SwordI)     case (7, 0) => Some(ArmourS)    case (7, 1) => Some(ArmourI)
    case (7, 2) => Some(Vampire)
    case _ => None
  }

  /** No two kinds share a sheet cell, so the enumeration loses nothing. */
  lemma {:induction false} SpriteNamesKind(k: Kind)
    ensures KindAt(Sprite(k)) == Some(k)
  {
    match k
    case Water => case WaterM => case WaterD => case PlankW => case PlankF =>
    case Grass => case Sand => case Table => case Fracture => case SandDrop =>
    case DirtDrop => case Tree => case LogDrop => case Apple => case Stick =>
    case Mud => case RockS => case RockR => case Pickaxe => case PlankFDrop =>
    case PlankWDrop => case FlowersC => case FlowersB => case FlowersW => case WetRock =>
    case ZPig => case Pig => case PigMeat => case PigHeart => case CandleL =>
    case Candle => case Altar => case CandleG => case Rubble => case RockWall =>
    case Tile => case HighStone => case Vines => case Blood => case SkyStone =>
    case Eye => case Angel => case Slime => case GemL => case GemM =>
    case GemS => case Ingot => case SwordS => case SwordI => case ArmourS =>
    case ArmourI => case Vampire =>
  }

  lemma SpriteInjective(a: Kind, b: Kind)
    requires Sprite(a) == Sprite(b)
    ensures a == b
  {
    SpriteNamesKind(a);
    SpriteNamesKind(b);
  }

  // ---------------------------------------------------------------------
  // Crafting

  /** One crafting rule: the ground items it consumes and the item it yields. */
  datatype Recipe = Recipe(ingredients: seq<Kind>, result: Kind)

  /** The recipe table in its priority order (the order the game tries them). */
  const Recipes: seq<Recipe> := [
    Recipe([DirtDrop, DirtDrop, SandDrop], Rubble),
    Recipe([GemM, DirtDrop, DirtDrop], Ingot),
    Recipe([DirtDrop, DirtDrop], SandDrop),
    Recipe([Stick, Stick, Rubble], Pickaxe),
    Recipe([Stick, Stick, PigMeat], Candle),
    Recipe([Candle, Candle, Candle], CandleG),
    Recipe([PigHeart, PigHeart, PigHeart, CandleG, CandleG], Altar),
    Recipe([Stick, Stick, Stick, Stick], PlankFDrop),
    Recipe([PlankFDrop, PlankFDrop], PlankWDrop),
    Recipe([LogDrop], Stick),
    Recipe([GemS, GemS, Stick], SwordS),
    Recipe([Ingot, Ingot, SwordS], SwordI),
    Recipe([GemL, PigHeart, PigMeat], ArmourS),
    Recipe([ArmourS, Ingot, Ingot], ArmourI)
  ]

  /** Health the player pays for crafting an item (absent: free). */
  const Sacrifices: map<Kind, real> := map[
    Stick := 0.05, SandDrop := 0.1, Rubble := 0.1, Pickaxe := 0.5, PlankFDrop := 0.1,
    PlankWDrop := 0.1, Candle := 0.5, CandleG := 1.0, Altar := 4.0]

  function Sacrifice(k: Kind): real
  {
    if k in Sacrifices then Sacrifices[k] else 0.0
  }

  // ---------------------------------------------------------------------
  // Tools

  const BreakAmount: map<Kind, real> := map[Pickaxe := 3.0, SwordS := 0.5, SwordI := 0.7]
  const SwingAmount: map<Kind, real> := map[Pickaxe := 3.0, SwordS := 5.0, SwordI := 10.0]
  const ArmourRating: map<Kind, int> := map[ArmourS := 2, ArmourI := 5]

  // ---------------------------------------------------------------------
  // Digging and breaking

  /** What a dug tile turns into. */
  const Progression: map<Kind, Kind> := map[Grass := Mud, Sand := RockS, Mud := RockR, HighStone := RockR]
  /** The item a dug tile drops. */
  const Drops: map<Kind, Kind> := map[Grass := DirtDrop, Sand := SandDrop, Mud := DirtDrop, HighStone := Rubble]
  /** Seconds it takes to dig a tile. */
  const DigTime: map<Kind, real> := map[Grass := 0.3, Sand := 0.2, Mud := 0.3, HighStone := 0.8]
  /** Starting health of the decorations that can be broken. */
  const DecorationHealth: map<Kind, real> := map[
    Tree := 3.0, PlankW := 10.0, Candle := 1.0, CandleG := 3.0, CandleL := 1.0,
    Altar := 25.0, RockWall := 15.0]
  /** Hunger spent digging into a tile (keyed by the resulting tile) or breaking a decoration. */
  const Hunger: map<Kind, real> := map[
    Sand := 0.05, Mud := 0.1, RockS := 0.1, RockR := 0.1, HighStone := 0.2,
    Tree := 0.15, PlankW := 0.3, RockWall := 0.3, Candle := 0.3, CandleL := 0.3,
    CandleG := 0.9, Altar := 4.0]
  /** The item a broken decoration drops. */
  const EDrops: map<Kind, Kind> := map[
    Tree := LogDrop, Altar := Altar, Candle := Candle, CandleL := Candle,
    PlankW := LogDrop, RockWall := Rubble, CandleG := CandleG]

  /** The decorations that have health, and so can be broken. */
  const Breakable: set<Kind> := {Tree, PlankW, Candle, CandleG, CandleL, Altar, RockWall}

  /** A decoration's starting health; -1 marks one without health. */
  function HealthOf(k: Kind): real
  {
    if k in DecorationHealth then DecorationHealth[k] else -1.0
  }

  // ---------------------------------------------------------------------
  // Creatures

  const AnimalHealth: map<Kind, real> := map[
    Pig := 10.0, ZPig := 30.0, Eye := 11.0, Angel := 50.0, Slime := 2.0, Vampire := 100.0]
  const Floating: set<Kind> := {Eye, Angel}
  const Hostile: set<Kind> := {Eye, Angel, Slime, Vampire}
  /** Sight radius in tiles: a hostile closer than this turns to the player. */
  const VRange: map<Kind, real> := map[Eye := 75.0, Angel := 50.0, Slime := 25.0, Vampire := 25.0]
  /** Attack radius in tiles. */
  const Range: map<Kind, real> := map[Eye := 2.0, Angel := 5.0, Slime := 1.0, Vampire := 5.0]
  const Attack: map<Kind, real> := map[Eye := 3.0, Angel := 3.0, Slime := 1.0, Vampire := 5.0]
  /** Gem drops of a slain hostile, in order, each with the roll it must beat. */
  const Gems: seq<(Kind, real)> := [(GemL, 0.9), (GemM, 0.5), (GemS, 0.0)]

  // ---------------------------------------------------------------------
  // Terrain classes

  /** Tiles on which decorations may be placed and creatures may spawn. */
  const Placeable: set<Kind> := {Mud, Grass, Sand, RockR, RockS, Tile, PlankF, WetRock, HighStone, SkyStone}
  const NoPickup: set<Kind> := {Blood}
  const Wet: set<Kind> := {Water, WaterM, WaterD}
  const Rock: set<Kind> := {RockR, RockS}

  /** Minutes between waves, indexed by the wave number. */
  const WaveTimers: seq<real> := [1.0, 2.0, 3.0, 3.0, 3.0, 3.0, 3.0, 2.0, 1.0, 0.5, 0.25, 0.1]

  /** The digging tables agree: every diggable tile has a drop and a positive
      digging time, and every tile digging leaves has a hunger cost. */
  lemma DigTablesAgree()
    ensures Progression.Keys == Drops.Keys == DigTime.Keys
    ensures forall k :: k in Progression ==> Progression[k] in {Mud, RockS, RockR}
    ensures Mud in Hunger && RockS in Hunger && RockR in Hunger
    ensures forall k :: k in DigTime ==> DigTime[k] > 0.0
  {
  }

  /** Every decoration with health has a drop and a hunger cost for breaking it. */
  lemma DecorationTablesAgree()
    ensures Breakable == DecorationHealth.Keys
    ensures DecorationHealth.Keys <= EDrops.Keys && DecorationHealth.Keys <= Hunger.Keys
  {
  }

  /** A breakable decoration has a drop and a hunger cost. */
  lemma Breaks(k: Kind)
    requires k in Breakable
    ensures k in EDrops && k in Hunger
  {
    DecorationTablesAgree();
  }

  /** Every creature has a starting health, and every hostile a sight range,
      an attack range and an attack. */
  lemma CreatureTablesAgree()
    ensures Hostile <= VRange.Keys && Hostile <= Range.Keys && Hostile <= Attack.Keys
    ensures Hostile + {Pig, ZPig} == AnimalHealth.Keys
    ensures forall k :: k in AnimalHealth ==> AnimalHealth[k] > 0.0
  {
  }
}
