/** The tile grid: generation-time classification of noise into terrain,
    chunk arithmetic for redraws, and the two periodic terrain rules (rock next
    to water floods; mud next to grass may grow grass). */
module Terrain {
  import opened Kinds

  // ---------------------------------------------------------------------
  // World size

  const X_CHUNKS: int := 3
  const Y_CHUNKS: int := 3
  const CHUNK_W: int := 32
  const CHUNK_H: int := 32
  const WIDTH: int := X_CHUNKS * CHUNK_W
  const HEIGHT: int := Y_CHUNKS * CHUNK_H

  /** A grid is indexed column first, `g[x][y]`, like the game's world list. */
  type Grid = seq<seq<Kind>>

  ghost predicate IsGrid(g: Grid, w: int, h: int)
  {
    |g| == w && forall x :: 0 <= x < |g| ==> |g[x]| == h
  }

  /** Every column has the same height (the neighbour tests index `g[x±1][y]`). */
  ghost predicate Rectangular(g: Grid)
  {
    forall x :: 0 <= x < |g| ==> |g[x]| == |g[0]|
  }

  // ---------------------------------------------------------------------
  // Noise classification

  const DUNGEON: real := -0.4
  const DEEP: real := -0.1
  const MEDIUM: real := 0.1
  const SEA: real := 0.2
  const BEACH: real := 0.25
  const TREE_H: real := 0.3
  const STONE_H: real := 0.8
  const TOP_H: real := 0.85

  /** The terrain layers from lowest to highest noise, and the cutoffs between them. */
  const Layers: seq<Kind> := [WetRock, WaterD, WaterM, Water, Sand, Grass, HighStone, SkyStone]
  const Cutoffs: seq<real> := [DUNGEON, DEEP, MEDIUM, SEA, BEACH, STONE_H, TOP_H]

  /** Noise value `v` lies in layer `i`: at or above the cutoff below it and under the one above. */
  ghost predicate InLayer(v: real, i: int)
  {
    0 <= i < |Layers| && (i == 0 || Cutoffs[i - 1] <= v) && (i == |Layers| - 1 || v < Cutoffs[i])
  }

  /** Position of a terrain layer in `Layers` (-1 for kinds that are not a layer). */
  function LayerIndex(k: Kind): int
  {
    match k
    case WetRock => 0 case WaterD => 1 case WaterM => 2 case Water => 3
    case Sand => 4 case Grass => 5 case HighStone => 6 case SkyStone => 7
    case _ => -1
  }

  /** World generation's choice of tile for a noise sample. */
  function Classify(v: real): (k: Kind)
    ensures 0 <= LayerIndex(k) < |Layers| && Layers[LayerIndex(k)] == k
    ensures InLayer(v, LayerIndex(k))
  {
    if v < DUNGEON then WetRock
    else if v < DEEP then WaterD
    else if v < MEDIUM then WaterM
    else if v < SEA then Water
    else if v < BEACH then Sand
    else if v < STONE_H then Grass
    else if v < TOP_H then HighStone
    else SkyStone
  }

  /** The layers partition the noise range: `v` is in exactly the layer picked. */
  lemma ClassifyExact(v: real, i: int)
    requires 0 <= i < |Layers|
    ensures InLayer(v, i) <==> Classify(v) == Layers[i]
  {
  }

  /** Higher noise never gives a lower layer. */
  lemma ClassifyMonotone(v: real, w: real)
    requires v <= w
    ensures LayerIndex(Classify(v)) <= LayerIndex(Classify(w))
  {
  }

  /** The spawn cell is accepted strictly between the sea and tree cutoffs, so
      the player always starts on sand or grass. */
  lemma SpawnOnBeachOrGrass(v: real)
    requires SEA < v < TREE_H
    ensures Classify(v) == Sand || Classify(v) == Grass
  {
  }

  // ---------------------------------------------------------------------
  // Chunks

  /** The chunk a cell is drawn in, and the cell's position inside it. */
  datatype ChunkRef = ChunkRef(cx: int, cy: int, relX: int, relY: int)

  function ChunkOf(x: int, y: int): (c: ChunkRef)
    requires 0 <= x < WIDTH && 0 <= y < HEIGHT
    ensures 0 <= c.cx < X_CHUNKS && 0 <= c.cy < Y_CHUNKS
    ensures 0 <= c.relX < CHUNK_W && 0 <= c.relY < CHUNK_H
    ensures x == c.cx * CHUNK_W + c.relX && y == c.cy * CHUNK_H + c.relY
  {
    ChunkRef(x / CHUNK_W, y / CHUNK_H, x % CHUNK_W, y % CHUNK_H)
  }

  /** Distinct cells never share a chunk slot, so a redraw touches only its own cell. */
  lemma ChunkOfInjective(x: int, y: int, x': int, y': int)
    requires 0 <= x < WIDTH && 0 <= y < HEIGHT && 0 <= x' < WIDTH && 0 <= y' < HEIGHT
    requires ChunkOf(x, y) == ChunkOf(x', y')
    ensures x == x' && y == y'
  {
  }

  /** The grid with cell (x, y) set to `k`. */
  function Put(g: Grid, x: int, y: int, k: Kind): (r: Grid)
    requires 0 <= x < |g| && 0 <= y < |g[x]|
    ensures |r| == |g| && forall i :: 0 <= i < |g| ==> |r[i]| == |g[i]|
    ensures r[x][y] == k
    ensures forall i, j :: 0 <= i < |g| && 0 <= j < |g[i]| && (i, j) != (x, y) ==> r[i][j] == g[i][j]
  {
    g[x := g[x][y := k]]
  }

  // ---------------------------------------------------------------------
  // Flooding (the once-a-second rule)

  /** One of the four neighbours of (x, y) in `g` is a tile of `kinds`. */
  predicate NextTo(g: Grid, x: int, y: int, kinds: set<Kind>)
    requires Rectangular(g) && 0 <= x < |g| && 0 <= y < |g[x]|
  {
    (y > 0 && g[x][y - 1] in kinds) || (y < |g[x]| - 1 && g[x][y + 1] in kinds) ||
    (x > 0 && g[x - 1][y] in kinds) || (x < |g| - 1 && g[x + 1][y] in kinds)
  }

  /** A rock cell next to water becomes shallow water; nothing else changes. */
  function FloodCell(g: Grid, x: int, y: int): Kind
    requires Rectangular(g) && 0 <= x < |g| && 0 <= y < |g[x]|
  {
    if g[x][y] in Rock && NextTo(g, x, y, Wet) then Water else g[x][y]
  }

  /** The whole grid after one flooding pass, decided from the grid before it. */
  function Flood(g: Grid): (r: Grid)
    requires Rectangular(g)
    ensures |r| == |g| && forall x :: 0 <= x < |g| ==> |r[x]| == |g[x]|
    ensures forall x, y :: 0 <= x < |g| && 0 <= y < |g[x]| ==> r[x][y] == FloodCell(g, x, y)
  {
    seq(|g|, x requires 0 <= x < |g| => seq(|g[x]|, y requires 0 <= y < |g[x]| => FloodCell(g, x, y)))
  }

  /** A flooding pass changes a cell only by drowning rock that touched water
      before the pass. */
  lemma FloodOnlyDrownsRock(g: Grid, x: int, y: int)
    requires Rectangular(g) && 0 <= x < |g| && 0 <= y < |g[x]|
    ensures Flood(g)[x][y] != g[x][y] <==> g[x][y] in Rock && NextTo(g, x, y, Wet)
    ensures Flood(g)[x][y] != g[x][y] ==> Flood(g)[x][y] == Water
  {
  }

  // ---------------------------------------------------------------------
  // Grass growth (the every-two-seconds rule)

  /** Mud next to grass turns to grass where the cell's roll succeeded (`grow`). */
  function SpreadCell(g: Grid, x: int, y: int, grow: set<(int, int)>): Kind
    requires Rectangular(g) && 0 <= x < |g| && 0 <= y < |g[x]|
  {
    if g[x][y] == Mud && NextTo(g, x, y, {Grass}) && (x, y) in grow then Grass else g[x][y]
  }

  function Spread(g: Grid, grow: set<(int, int)>): (r: Grid)
    requires Rectangular(g)
    ensures |r| == |g| && forall x :: 0 <= x < |g| ==> |r[x]| == |g[x]|
    ensures forall x, y :: 0 <= x < |g| && 0 <= y < |g[x]| ==> r[x][y] == SpreadCell(g, x, y, grow)
  {
    seq(|g|, x requires 0 <= x < |g| => seq(|g[x]|, y requires 0 <= y < |g[x]| => SpreadCell(g, x, y, grow)))
  }

  /** Whatever the rolls, growth only turns mud that touched grass into grass. */
  lemma SpreadOnlyGrowsGrass(g: Grid, grow: set<(int, int)>, x: int, y: int)
    requires Rectangular(g) && 0 <= x < |g| && 0 <= y < |g[x]|
    ensures Spread(g, grow)[x][y] != g[x][y] ==> g[x][y] == Mud && NextTo(g, x, y, {Grass})
    ensures Spread(g, grow)[x][y] in {g[x][y], Grass}
  {
  }
}
