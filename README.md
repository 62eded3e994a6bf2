# Brink, modelled in Dafny

Brink is a small survival game written with pygame. The player walks a
96 × 96 tile world and digs, gathers, crafts and builds. They fight off waves
of hostile creatures, and crafting and walking cost them blood. This project
models the game's core and proves properties of it:

- **The game scene** (`GameScene`, in `world.dfy` and the modules it imports).
  This is the grid of tiles and the decorations standing on it, the items on
  the ground, the creatures and the ten-slot hotbar. The model covers:
  - the scene's key, mouse and timer events: selecting a slot, dropping,
    crafting, the left click (strike, break, dig) and the right click (eat,
    feed an altar, heal, build, place);
  - the once-a-second tick: hunger, flooding, creatures turning, biting and
    drowning;
  - the slower tick: grass growth, pig spawning, altar healing;
  - the wave timer and waves;
  - dig completion and gathering.

  Each of these is a method of the class, proved against specification
  functions (`Flood`, `Spread`, `Dropped`, `Picked`, `CanCraft`, `AfterBlow`,
  `Stepped`, …). The properties of those functions are proved as lemmas.
- **The debug console** (`console.dfy`). It is a file-like sink for standard
  output that splits what is written into log lines. It is also a line editor
  with history, and it decides whether typed input is complete before
  evaluating it.
- **The game object** (`game.dfy`). It relays ticks, draws and events to the
  active scenes; an open console grabs events first. It also has the
  console's `give` command and the frame timer that caps the step handed to
  the scenes.
- **Scenes and slide shows** (`scenes.dfy`). This covers the activation switch
  every scene has and the fading splash and game-over slides.
- **The sprite-sheet helpers** (`pyg.dfy`). A tile sheet cuts and remembers
  tiles. The bitmap font decides which characters it can draw and from which
  cell.

Randomness becomes parameters: a roll in [0, 1) compared with the game's own
threshold, or a set of cells whose roll succeeded. Where the game retries
random cells until one is free, a `:|` choice stands in, given that a free
cell exists. The clock enters as `now`, as the frame's `dt`, or as measured
frame durations. Python's `eval` enters as an `Outcome`: what the evaluation
printed and the traceback it raised. A scene's answer to a relayed call
enters as a boolean.

Items are identified by their sprite-sheet cell in the game; here they are an
enumeration `Kind`, and `KindAt`/`Sprite` convert between the two.

## Model

| member | source | states |
|---|---|---|
| Util.RemoveCount | game/scenes/world.py:1067 | `list.remove` takes exactly one occurrence of the element out of the list's multiset of elements |
| Util.RemoveAt | game/scenes/world.py:732-736 | deleting position i keeps the elements before i and shifts those after it down by one |
| Util.RemoveFirstIsRemoveAt | game/scenes/world.py:788-792 | removing the first element equal to s[i], when no earlier one equals it, is deleting position i |
| Util.RemoveShiftsTail | game/scenes/world.py:788-792 | after removing the first copy of s[i], the elements past i are unchanged, shifted down one place |
| Util.RemoveEach | game/scenes/world.py:869-870 | removing each consumed item in turn takes exactly those items out of the multiset of ground items |
| Util.RemoveKeeps | game/scenes/world.py:870 | removal never introduces an element |
| Kinds.SpriteNamesKind | game/scenes/world.py:97-151 | every kind is recovered from its sprite cell, so no two item constants share a cell |
| Kinds.SpriteInjective | game/scenes/world.py:97-151 | distinct kinds have distinct sprite cells |
| Kinds.DigTablesAgree | game/scenes/world.py:253-294 | the progression, drop and dig-time tables have the same keys; digging leaves mud or rock; every such tile has a hunger cost; dig times are positive |
| Kinds.DecorationTablesAgree | game/scenes/world.py:265-303 | the breakable decorations are exactly those with a health, and each has a drop and a hunger cost |
| Kinds.Breaks | game/scenes/world.py:823-834 | a decoration the click can break has a drop and a hunger cost, so breaking it never fails a lookup |
| Kinds.CreatureTablesAgree | game/scenes/world.py:304-345 | every hostile has a sight range, an attack range and an attack; the creatures with a starting health are the hostiles and the two pigs, all positive |
| Entities.Landing | game/scenes/world.py:898-901 | the number of STACK_DIST nudges a drop takes is never below where it starts |
| Entities.CrowdedBounded | game/scenes/world.py:898-901 | a crowded spot lies left of the right-most item plus STACK_DIST, so the recursive nudging terminates |
| Entities.LandingClear | game/scenes/world.py:898-901 | every spot the nudging passes is crowded and the one it stops at is clear |
| Entities.Dropped | game/scenes/world.py:898-902 | a drop appends exactly one item of the kind, on the same row, at or right of x, and moves no other item |
| Entities.DroppedLandsClear | game/scenes/world.py:898-902 | the dropped item lands at the first whole number of nudges that is clear of every item |
| Entities.DroppedAllAppends | game/scenes/world.py:794-803 | several drops append one item per kind, in order, and keep the items already there |
| Entities.DroppedAllSnoc | game/game.py:95-96 | dropping one more kind after several drops it last |
| Terrain.Classify | game/scenes/world.py:491-499 | the tile chosen for a noise value is the layer whose cutoffs enclose it |
| Terrain.ClassifyExact | game/scenes/world.py:491-499 | the layers partition the noise range: a value lies in layer i exactly when layer i is chosen |
| Terrain.ClassifyMonotone | game/scenes/world.py:491-499 | higher noise never gives a lower layer |
| Terrain.SpawnOnBeachOrGrass | game/scenes/world.py:478 | the accepted spawn noise lies between SEA and TREE_H, so the player starts on sand or grass |
| Terrain.ChunkOf | game/scenes/world.py:444-445 | a cell's chunk and offset lie within the 3 × 3 chunks of 32 × 32 tiles and recompose the cell |
| Terrain.ChunkOfInjective | game/scenes/world.py:444-445 | distinct cells never share a chunk slot |
| Terrain.Put | game/scenes/world.py:443 | setting a tile changes that cell and no other |
| Terrain.Flood | game/scenes/world.py:701-710 | each cell after a flooding pass is decided from the grid before the pass |
| Terrain.FloodOnlyDrownsRock | game/scenes/world.py:703-710 | a cell changes exactly when it is rock touching water before the pass, and it then becomes shallow water |
| Terrain.Spread | game/scenes/world.py:670-679 | each cell after growth is decided from the grid before it and its roll |
| Terrain.SpreadOnlyGrowsGrass | game/scenes/world.py:672-679 | whatever the rolls, only mud touching grass changes, and only to grass |
| Decorations.FirstAt | game/scenes/world.py:655-657 | the first decoration on a cell: it is on the cell, none before it is, and with none found none is |
| Decorations.FirstOfKindAt | game/scenes/world.py:594-595 | the first decoration of a kind on a cell, with the same three guarantees |
| Decorations.FirstOfKindAtScan | game/scenes/world.py:594-607 | a scan that stops at a match after only misses, or passes every decoration, finds exactly FirstOfKindAt |
| Decorations.FirstBreakableAt | game/scenes/world.py:819-823 | the decoration a click hits is on the cell and breakable |
| Decorations.FirstBreakableAtIsFirst | game/scenes/world.py:819-823 | no breakable decoration on the cell comes before it; with none found there is none |
| Decorations.ClearedRemovesOne | game/scenes/world.py:520-526 | clearing a cell removes exactly one of its decorations when it has any and never touches another cell's |
| Decorations.CountAtSplit | game/scenes/world.py:520-526 | decorations on a cell count additively over concatenation |
| Crafting.KindsOfIndex | game/scenes/world.py:890 | the kinds of the items are the items' kinds, position by position |
| Crafting.FirstOfKind | game/scenes/world.py:889-893 | the first usable item of an ingredient's kind, with none before it; none found means none has that kind |
| Crafting.CanCraft | game/scenes/world.py:885-896 | a successful match takes one item per ingredient |
| Crafting.CanCraftTakes | game/scenes/world.py:885-896 | the items taken have the ingredients' kinds, in order, and are distinct members of the usable items |
| Crafting.CanCraftIffSubMultiset | game/scenes/world.py:885-896 | a recipe matches exactly when the ingredients are a sub-multiset of the usable kinds: the greedy first match never misses |
| Crafting.CanCraftOrderIndependent | game/scenes/world.py:859-864 | the order the usable items were collected in does not decide whether a recipe matches |
| Crafting.MissingKindFails | game/scenes/world.py:889-893 | a recipe needing a kind no usable item has fails |
| Crafting.ExactItemsAllUsed | game/scenes/world.py:885-896 | items lying in exactly the recipe's order are all consumed, in that order |
| Crafting.KindsOfPermutation | game/scenes/world.py:885-896 | a permutation of the items permutes their kinds |
| Crafting.FirstRecipe | game/scenes/world.py:866-868 | the chosen recipe is in the table and its match gives the consumed items |
| Crafting.FirstRecipeIsFirst | game/scenes/world.py:866-874 | no recipe before the chosen one matches; with none chosen no recipe matches |
| Crafting.FirstRecipeAt | game/scenes/world.py:866-874 | a recipe that matches after only misses is the one chosen |
| Crafting.FindRecipe | game/scenes/world.py:866-874 | the loop over the recipe table finds FirstRecipe |
| Hotbar.FirstHolding | game/scenes/world.py:1063-1068 | the first slot holding the kind, with none before it |
| Hotbar.FirstEmpty | game/scenes/world.py:1070-1075 | the first empty slot, with none before it |
| Hotbar.Picked | game/scenes/world.py:1059-1075 | a pick-up keeps the hotbar's ten slots |
| Hotbar.PickedRefused | game/scenes/world.py:1060-1075 | a pick-up is refused exactly for kinds that cannot be picked up, or when no slot holds the kind and none is empty |
| Hotbar.PickedCounts | game/scenes/world.py:1063-1075 | a pick-up adds exactly one item of its kind and changes no other kind's total |
| Hotbar.PickedStacks | game/scenes/world.py:1063-1068 | when a slot holds the kind, that stack grows and no empty slot is filled |
| Hotbar.PickedKeepsDistinct | game/scenes/world.py:1059-1075 | picking up keeps the slots' kinds distinct and every stack non-empty |
| Hotbar.Consumed | game/scenes/world.py:664-667 | using up n items lowers the slot by n and empties it at zero or below; no other slot changes |
| Hotbar.ConsumedOne | game/scenes/world.py:559-563 | dropping or using one item lowers its kind's total by one and keeps the hotbar's invariants |
| Hotbar.GiveSlot | game/game.py:87-93 | `give` fills the first slot that is empty or holds the kind; with none, every slot holds another kind |
| Hotbar.Given | game/game.py:87-94 | `give` finds no slot exactly when every slot holds another kind |
| Hotbar.GivenCounts | game/game.py:87-93 | `give` adds exactly `amount` to the kind's total |
| Hotbar.GiveCanDuplicate | game/game.py:87-93 | unlike a pick-up, `give` can put a kind into a second slot (an empty slot left of its stack) |
| Hotbar.Armour | game/scenes/world.py:876-882 | the armour value is at least 1 |
| Hotbar.BreakDamage | game/scenes/world.py:843-848 | a strike on a decoration does between 0.5 and 3, and 1 bare-handed |
| Hotbar.SwingDamage | game/scenes/world.py:850-855 | a swing at a creature does between 1 and 10, and 1 bare-handed |
| Combat.FaceToward | game/scenes/world.py:718-722 | a hostile that sees the player takes one of the four facings |
| Combat.FaceTowardIsBest | game/scenes/world.py:718-722 | the facing chosen makes at least as much progress toward the player as any other, never away, and a tie goes vertical |
| Combat.Turn | game/scenes/world.py:729-730 | a random turn stays among the four facings |
| Combat.TurnNeverReverses | game/scenes/world.py:729-730 | a random turn keeps the facing exactly for a zero step and never reverses it |
| Combat.GemDrops | game/scenes/world.py:800-803 | a slain hostile drops at most one of each gem |
| Combat.GemDropsEarned | game/scenes/world.py:801-803 | every gem dropped beat its own roll threshold |
| Combat.DropsGuaranteed | game/scenes/world.py:794-803 | a pig always leaves meat last and its heart exactly on a winning roll; a zombie pig leaves one heart; a hostile leaves only gems, always the small gem; others leave nothing |
| Combat.Cohort | game/scenes/world.py:914-918 | a wave round brings at most the kinds of the rotation |
| Combat.CohortWithin | game/scenes/world.py:914-918 | a round brings only kinds of the rotation |
| Combat.CohortShape | game/scenes/world.py:914-918 | a round brings eye, slimes and zombie pigs; angels join after wave 4 and vampires after wave 7 |
| Combat.CohortRule | game/scenes/world.py:914-918 | a rotation kind is held back exactly in the waves the rule names |
| Combat.Rounds | game/scenes/world.py:913 | a wave makes wave × (altars + 1) passes |
| Combat.Horde | game/scenes/world.py:913-918 | a wave brings rounds × cohort creatures |
| Combat.HordeKinds | game/scenes/world.py:913-918 | a wave brings only kinds of its cohort |
| Combat.HordePass | game/scenes/world.py:913-918 | each pass of a wave brings the whole cohort, in order |
| Combat.FirstWave | game/scenes/world.py:908-918 | the first wave without altars brings an eye, two slimes and two zombie pigs |
| Combat.NextWave | game/scenes/world.py:910-911 | the wave number grows by one and stops at the last timer |
| Combat.WaveDelay | game/scenes/world.py:938 | the time to the next wave is positive |
| Combat.WaveDueMonotone | game/scenes/world.py:938 | more altars never bring a wave sooner, and a due wave stays due as time passes |
| Combat.StartDig | game/scenes/world.py:838-841 | a dig starts exactly on tiles with a progression, on the clicked cell, ends later, and leaves the progression and drop the tables name |
| Combat.DiggingBottomsOut | game/scenes/world.py:253-258 | digging always changes the tile, and after at most two digs a cell can no longer be dug |
| Combat.CompleteDigChangesDugCell | game/scenes/world.py:1042-1048 | a completed dig turns the dug cell into its progression and touches no other cell |
| Combat.DigCompletesUnderCursor | game/scenes/world.py:1037-1044 | as written, a dig completes on the cell under the cursor: dig grass at (0, 0), hold the button and move onto water at (1, 0), and the water becomes mud while the grass stays |
| Placement.FillShallows | game/scenes/world.py:617-636 | sand and dirt make water exactly one level shallower, and nothing deepens water or floods dry land |
| Placement.FillNeedsGround | game/scenes/world.py:617-651 | building items act only on rock, water or soil, and walls only on placeable soil |
| World.SlotOfDigit | game/scenes/world.py:537-556 | keys 1 to 9 select slots 0 to 8 and key 0 selects slot 9 |
| World.CellOfExact | game/scenes/world.py:810 | a pixel lies in cell x exactly when it is within that cell's 64-pixel span |
| World.CellInRange | game/scenes/world.py:809-810 | every pixel inside the world lies on a cell of the grid |
| World.AnimalUnder | game/scenes/world.py:812-814 | the creature a click hits is the first whose square contains the point |
| World.Broken | game/scenes/world.py:830-833 | a broken decoration drops its item, and a tree maybe an apple, after the items already there |
| World.NewcomerAt | game/scenes/world.py:929-932 | a creature put on a free cell is a live newcomer there |
| World.ArrivedAppend | game/scenes/world.py:913-932 | creatures spawned for two lists of kinds, one after the other, are those spawned for the concatenation |
| World.RotationSpawnable | game/scenes/world.py:304-311 | every kind of the wave rotation has a starting health |
| World.CohortSpawnable | game/scenes/world.py:914-931 | every kind a wave brings has a starting health |
| World.SpreadKeepsFree | game/scenes/world.py:672-691 | grass growth keeps a free cell free, so the pig spawn still finds one |
| World.RewriteDone | game/scenes/world.py:672-679 | a cell-by-cell pass that has visited every column has produced the target grid |
| World.Touching | game/scenes/world.py:858-864 | the items under the player are ground items, in list order, each touching the player |
| World.Gathered | game/scenes/world.py:1051-1057 | gathering keeps the hotbar's size and only takes items off the ground |
| World.PickConserves | game/scenes/world.py:1059-1075 | one pick-up moves an item from the ground to the hotbar |
| World.GatheredConserves | game/scenes/world.py:1051-1075 | gathering never makes or loses an item: per kind, hotbar total plus ground items stay the same |
| World.GatheredTakesTouching | game/scenes/world.py:1053-1057 | only items touching the player leave the ground |
| World.Spoils | game/scenes/world.py:788-803 | a creature that survives a blow drops nothing |
| World.AfterBlow | game/scenes/world.py:788-792 | after a blow the herd holds only its old creatures and the hurt one |
| World.BlowEffect | game/scenes/world.py:788-792 | a blow kills exactly when it is at least the creature's health: a killed creature leaves and the rest move down; a survivor loses the amount and nothing else changes |
| World.BlowRemovesVictim | game/scenes/world.py:788-792 | in a herd of living creatures the creature `remove` takes out is the victim itself |
| World.BlowKeepsSound | game/scenes/world.py:788-792 | a blow keeps every creature facing a direction and alive |
| World.GemRolls | game/scenes/world.py:801-802 | one roll per gem |
| World.Steered | game/scenes/world.py:712-730 | looking around changes only a creature's facing, and keeps it one of the four |
| World.Bite | game/scenes/world.py:726-727 | a bite never heals |
| World.Fated | game/scenes/world.py:712-736 | a creature's step leaves it or removes it |
| World.Soaked | game/scenes/world.py:732-736 | the water check leaves a creature or removes it |
| World.Stepped | game/scenes/world.py:712-736 | the herd's steps never add a creature |
| World.Bites | game/scenes/world.py:712-727 | the herd's bites never heal |
| World.Remains | game/scenes/world.py:732-736 | a creature that survives the water check drops nothing |
| World.WalkedStep | game/scenes/world.py:712-736 | one creature's step moves the walk over the herd on by one creature |
| World.Chipped | game/scenes/world.py:823-835 | a blow never adds a decoration or raises the altar count, and changes the ground items exactly when it breaks the decoration |
| World.Completion | game/scenes/world.py:1042-1048 | a completed dig appends exactly one item of its drop after the items already there and costs hunger |
| World.Clicked | game/scenes/world.py:805-841 | a click never changes a tile or health, never adds a creature or a decoration, and keeps a pending dig on the grid |
| World.Finished | game/scenes/world.py:1042-1048 | after the dig check no dig is overdue, and creatures, altars, the mouse lock and health are untouched |
| World.Applied | game/scenes/world.py:580-667 | using an item never moves a ground item and never touches the mouse lock or the dig |
| World.Fed | game/scenes/world.py:588-616 | food leaves the terrain, the ground items, the mouse lock and the dig alone, and never takes hunger or health above both its old value and the maximum |
| World.Built | game/scenes/world.py:617-662 | building keeps the grid's shape and never touches creatures, hunger or health |
| World.UsedIffApplied | game/scenes/world.py:580-667 | the held item is taken exactly when using it changes the scene: UseAccepted holds exactly when Applied changes something |
| World.FedIffAccepted | game/scenes/world.py:588-616 | food changes the scene exactly when FoodAccepted holds |
| World.BuiltIffAccepted | game/scenes/world.py:617-662 | a building item changes the scene exactly when BuildAccepted holds |
| World.ClickedLocksOrDigs | game/scenes/world.py:805-841 | a fed player's click locks the mouse exactly when it hits a creature or a breakable decoration (or it was locked), and a click that changes the dig started it, unlocked and with nothing hit, on the clicked cell |
| World.HeldDigCompletesDugCell | game/scenes/world.py:1033-1048 | holding the button and moving onto a cell where the click starts nothing, a due dig completes on the dug cell and the cell under the cursor stays as it was |
| World.GameScene.constructor | game/scenes/world.py:357-413 | a fresh scene on a generated world has empty lists and an empty hotbar, full health and hunger, and the player in the middle of the map |
| World.GameScene.SetAt | game/scenes/world.py:442-446 | setting a tile changes that cell only and redraws its chunk slot |
| World.GameScene.SetG | game/scenes/world.py:516-533 | None clears the cell's first decoration; a passive one is not registered; otherwise one is appended with its table health |
| World.GameScene.DropItem | game/scenes/world.py:898-902 | the ground items become Dropped |
| World.GameScene.Pickup | game/scenes/world.py:1059-1075 | a pick-up that fits updates the hotbar as Picked and takes the item off the ground; otherwise nothing changes |
| World.GameScene.DropSelected | game/scenes/world.py:557-563 | Q with a selected stack drops one of its items at the player's tile; with an empty slot nothing changes |
| World.GameScene.DoCraft | game/scenes/world.py:857-874 | the first matching recipe consumes its items, drops its result at the player and costs its sacrifice; with no match nothing changes |
| World.GameScene.Crafted | game/scenes/world.py:857-874 | crafting adds at most one ground item net and never raises health |
| World.GameScene.Craft | game/scenes/world.py:869-873 | the used items go, the result is dropped at the player and the sacrifice is paid |
| World.GameScene.FindCraft | game/scenes/world.py:858-868 | the recipe search over the items under the player finds CraftFor |
| World.GameScene.Usable | game/scenes/world.py:858-864 | the loop collects exactly the items touching the player |
| World.GameScene.RemoveUsed | game/scenes/world.py:869-870 | the loop removes each used item in turn |
| World.GameScene.DamageAnimal | game/scenes/world.py:788-803 | the herd becomes AfterBlow (killed: removed; survivor: hurt) and a killed creature's loot is dropped where it stood |
| World.GameScene.Blow | game/scenes/world.py:789-792 | the blow's effect on the herd |
| World.GameScene.DropLoot | game/scenes/world.py:794-803 | a slain creature's loot is dropped in drop order |
| World.GameScene.DropPigLoot | game/scenes/world.py:794-797 | a pig drops its heart on a winning roll, then its meat |
| World.GameScene.DropGems | game/scenes/world.py:800-803 | each gem whose roll beats its threshold is dropped, in table order |
| World.GameScene.Click | game/scenes/world.py:805-841 | the scene becomes Clicked: a starving player changes nothing; otherwise the first creature hit takes the swing and drops its loot, else the first breakable decoration takes the blow (both lock the mouse), else an unlocked click starts a dig on a diggable tile |
| World.GameScene.Strike | game/scenes/world.py:812-817 | the herd becomes AfterBlow with the held item's swing damage, the ground items become Spoils (the loot of a killed creature), and the mouse locks |
| World.GameScene.Poke | game/scenes/world.py:819-841 | a breakable decoration on the cell is hit as Chipped says (decorations, ground items, altar count, hunger) and the mouse locks; with none, an unlocked click starts a dig and nothing else changes |
| World.GameScene.Chip | game/scenes/world.py:823-835 | the decoration takes the held item's break damage with the effect Chipped states, and the mouse locks |
| World.GameScene.FindAnimalUnder | game/scenes/world.py:812-814 | the scan finds AnimalUnder |
| World.GameScene.FindBreakableAt | game/scenes/world.py:819-823 | the scan finds FirstBreakableAt |
| World.GameScene.BreakDecoration | game/scenes/world.py:823-834 | decorations, ground items, altar count and hunger become Chipped: a survivor only loses health, a broken one is cleared, drops its items, costs hunger and, for an altar, lowers the count |
| World.GameScene.Demolish | game/scenes/world.py:825-834 | the broken decoration's cell is cleared, its drops land, a broken altar is discounted and hunger is paid |
| World.GameScene.DropBroken | game/scenes/world.py:830-833 | the ground items become Broken |
| World.GameScene.StartDigging | game/scenes/world.py:838-841 | a diggable tile starts a dig; any other keeps the current one |
| World.GameScene.FloodRock | game/scenes/world.py:701-710 | the pass over a copy of the grid produces Flood of the old grid |
| World.GameScene.GrowGrass | game/scenes/world.py:670-679 | the pass over a copy of the grid produces Spread of the old grid |
| World.GameScene.SlowTick | game/scenes/world.py:695-736 | the flicker toggles, the grid floods, the herd steps as Stepped, drowned loot lands as Drownings, and health loses the hunger penalty and the bites |
| World.GameScene.SuperSlowTick | game/scenes/world.py:669-693 | grass grows as Spread, a winning roll appends one pig on a free cell, and altars heal a quarter point each, capped at full health |
| World.GameScene.Tick | game/scenes/world.py:936-1057 | the frame tick reports game over for negative health, leaves the hotbar alone unless gathering, leaves no due dig pending, and with the mouse locked leaves terrain, decorations, hunger and the dig as they were |
| World.GameScene.WaveTick | game/scenes/world.py:937-939 | the timer runs on, and a due wave fires except on the peaceful difficulty |
| World.GameScene.FinishDig | game/scenes/world.py:1042-1048 | the scene becomes Finished: a due dig completes on the dug cell and ends; otherwise nothing changes |
| World.GameScene.DigTick | game/scenes/world.py:1033-1048 | a locked mouse changes nothing; unlocked, a held button away from the dug cell (or with no dig) clicks as Clicked, then a due dig completes as Finished; a released button, or one held on the dug cell, only completes a due dig; afterwards no dig is overdue |
| World.GameScene.Gather | game/scenes/world.py:1050-1057 | F offers every item under the player to the hotbar, in list order, as Gathered |
| World.GameScene.Offer | game/scenes/world.py:1053-1057 | one item's offer advances Gathered by one item |
| World.GameScene.StepHerd | game/scenes/world.py:712-736 | the walk over the herd gives Stepped, Drownings and the bites |
| World.GameScene.StepOne | game/scenes/world.py:712-736 | one creature turns, bites and maybe drowns; whether it stays is reported |
| World.GameScene.Soak | game/scenes/world.py:732-736 | a walking creature on water takes a blow of one and drops its loot if it dies |
| World.GameScene.Steer | game/scenes/world.py:712-730 | the creature's facing becomes Steered and health loses its bite |
| World.GameScene.DoWave | game/scenes/world.py:904-932 | except on the peaceful difficulty: the timer restarts, the wave number advances, and the wave's creatures are appended on free cells, in order |
| World.GameScene.SpawnWave | game/scenes/world.py:913-932 | the passes append the Horde's creatures after the old herd |
| World.GameScene.SpawnCohort | game/scenes/world.py:914-932 | one pass appends one creature per cohort kind, in order |
| World.GameScene.SpawnOnFreeCell | game/scenes/world.py:920-932 | one creature of the kind is appended on a free cell |
| World.GameScene.Use | game/scenes/world.py:580-667 | a right click with an empty slot changes nothing; otherwise the scene becomes Applied for the held kind on the clicked cell, and one item is taken from the slot exactly when UseAccepted holds |
| World.GameScene.Apply | game/scenes/world.py:588-662 | the scene becomes Applied, and the item counts as used exactly when UseAccepted holds |
| World.GameScene.Build | game/scenes/world.py:617-662 | the scene becomes Built, and the item counts as used exactly when BuildAccepted holds |
| World.GameScene.Consume | game/scenes/world.py:588-616 | the scene becomes Fed, and the item counts as used exactly when FoodAccepted holds |
| World.GameScene.Eat | game/scenes/world.py:588-592 | eating happens only when hungry and never past full |
| World.GameScene.Heal | game/scenes/world.py:612-616 | a heart heals one point only when wounded and never past full |
| World.GameScene.FindKindAt | game/scenes/world.py:594-595 | the scan finds FirstOfKindAt |
| World.GameScene.FeedAltar | game/scenes/world.py:593-606 | the scene becomes Offered: the altar is worn by five (cleared and discounted at zero), one health is paid, hunger stays, and a zombie pig appears on the cell |
| World.GameScene.WearAltar | game/scenes/world.py:596-599 | the altar loses five health; at zero it is cleared and discounted |
| World.GameScene.Terraform | game/scenes/world.py:617-651 | the change Fill names is made: a tile set or a wall registered; with none nothing changes |
| World.GameScene.PlaceDecoration | game/scenes/world.py:653-662 | a candle or altar is placed exactly on a free placeable cell, and an altar counts |
| World.GameScene.KeyDown | game/scenes/world.py:536-565 | number keys select a slot and change nothing else; Q drops one of the selected stack at the player (nothing with an empty slot); C gives the ground items and health Crafted states; other keys change nothing |
| World.GameScene.MouseUp | game/scenes/world.py:575-578 | releasing the left button ends the dig and unlocks the mouse; other buttons change nothing |
| Console.WrittenSplits | game/console.py:64-76 | writing keeps the old lines and adds only log lines; those lines, each with its newline, then the buffer, spell the old buffer plus the text without carriage returns |
| Console.WrittenClean | game/console.py:64-76 | no emitted line and no buffer holds a line break |
| Console.WrittenPlain | game/console.py:66-76 | text without line breaks only grows the buffer |
| Console.WrittenLine | game/console.py:118-119 | writing text and a newline emits the buffer that text leaves as one more line |
| Console.RStrip | game/console.py:148 | `rstrip()` is a prefix without trailing whitespace, and only whitespace was cut |
| Console.RStripSpaces | game/console.py:150 | `strip(' ')` at the end: a prefix without trailing spaces, and only spaces were cut |
| Console.Partner | game/console.py:129-143 | a closer's partner is an opener |
| Console.Closed | game/console.py:126-153 | the scan, one character at a time, decides IsClosed |
| Console.OnlyOpenersPending | game/console.py:137-143 | only openers are ever left open |
| Console.ColonContinues | game/console.py:148-149 | input ending in a colon is incomplete |
| Console.OpenerContinues | game/console.py:137-149 | an opener outside a string leaves the input incomplete |
| Console.StrayCloserIgnored | game/console.py:140-143 | a closer with no open partner changes neither the brackets nor the string state |
| Console.EscapedQuoteIgnored | game/console.py:132 | a quote after a backslash neither opens nor closes a string |
| Console.Shown | game/console.py:201-208 | the traceback is shown without its second and third lines, in order, as error lines |
| Console.Take | game/console.py:217 | a Python slice `s[:i]` is clamped to the string |
| Console.Drop | game/console.py:217 | `s[:i] + s[i:]` is s |
| Console.Edited | game/console.py:215-250 | after an editing key the cursor stays within the line; the arrows keep the line; Backspace away from the start removes one character and moves the cursor back by one |
| Console.Browsed | game/console.py:230-243 | browsing keeps the cursor and history position in range and the history, scroll-back and input as they were; a moved position shows that history entry, and Down past the newest shows the saved line |
| Console.Entered | game/console.py:171-210 | Enter echoes the prompt and line, resets cursor and browsing, records a non-blank line in the history, and chooses PS2 exactly when the input is incomplete, gathering it, else clears the input and the line |
| Console.Keyed | game/console.py:212-254 | a key press keeps the editor valid, and every key but Enter leaves the scroll-back, the input and the history alone |
| Console.TypeThenBackspace | game/console.py:215-250 | typing a character and then Backspace restores the line and the cursor |
| Console.LeftThenRight | game/console.py:223-226 | Left then Right puts the cursor back unless it was at the start |
| Console.UpThenDown | game/console.py:230-243 | Up from the unfinished line and then Down brings that line back with the cursor at its end |
| Console.Console.constructor | game/console.py:33-57 | a new console is closed, under PS1, with the start message logged and empty editor and history |
| Console.Console.Write | game/console.py:64-76 | the lines and buffer become Written |
| Console.Console.Flush | game/console.py:78-81 | a non-empty buffer is emitted as one more line; the buffer ends empty |
| Console.Console.Log | game/console.py:118-119 | the buffer, completed by the text, becomes one more line |
| Console.Console.Show | game/console.py:162-163 | the console opens |
| Console.Console.Hide | game/console.py:165-166 | the console closes |
| Console.Console.Toggle | game/console.py:168-169 | the console flips between open and closed |
| Console.Console.Return | game/console.py:171-210 | the editor becomes Entered: Enter echoes the line, adds a non-blank line to the history, asks for a continuation under PS2 when the input is incomplete, otherwise evaluates non-blank input and starts afresh under PS1 |
| Console.Console.Echo | game/console.py:172-182 | the prompt and line are echoed, the line joins the input and, when not blank, the history |
| Console.Console.Evaluate | game/console.py:193-208 | non-blank input's output is written, then its traceback shown |
| Console.Console.Type | game/console.py:215-250 | the line and cursor become Edited: Backspace and Delete remove around the cursor, the arrows move it within the line, Tab appends four spaces, Ctrl-C clears, other keys type at the cursor |
| Console.Console.Browse | game/console.py:230-244 | the editor becomes Browsed: Up and Down browse the history newest first, saving and restoring the unfinished line, with the cursor at the end |
| Console.Console.Tick | game/console.py:212-254 | closed, the console refuses everything and changes nothing; open, it grabs every key press except the backquote, the editor becoming Keyed, and ignores other events |
| Scenes.Scene.constructor | game/scenes/scene.py:7-9 | a scene starting active has run its activation hook once |
| Scenes.Scene.SetActive | game/scenes/scene.py:18-22 | the setter stores the value and runs the hook exactly on a change from inactive to active |
| Scenes.Scene.Start | game/scenes/scene.py:36-38 | start makes the scene active and returns it |
| Scenes.Round | game/scenes/splash.py:45 | Python's round: to the nearest integer, ties to even |
| Scenes.RoundMonotone | game/scenes/splash.py:45-47 | rounding keeps order |
| Scenes.Fade | game/scenes/splash.py:44-49 | the opacity is never above 255 |
| Scenes.FadeShape | game/scenes/splash.py:44-49 | during a showing the opacity is non-negative, full between the fades, rising while fading in and falling while fading out |
| Scenes.SlidesScene.constructor | game/scenes/splash.py:11-23 | a show starts on the first slide, shown, with nothing drawn |
| Scenes.SlidesScene.SetActive | game/scenes/splash.py:25-29 | becoming active restarts the show from the first slide |
| Scenes.SlidesScene.Tick | game/scenes/splash.py:34-58 | a shown slide is drawn with its fade and hidden after SHOW seconds; a hidden one gives way to the next after HIDE seconds; past the last slide the show switches off and asks for the next scene |
| Pyg.TileSheet.constructor | game/pyg.py:5-12 | tile size and padding are scaled, and the memory starts empty |
| Pyg.TileSheet.GetAt | game/pyg.py:14-21 | the tile is the rectangle its key names; a remembered key leaves the memory as it was, a new one adds just that key |
| Pyg.TileSheet.SourceGrid | game/pyg.py:16-19 | the sheet is a grid of padded cells whose tiles never overlap |
| Pyg.Upper | game/pyg.py:31 | ASCII letters are upper-cased and other characters kept |
| Pyg.KeyInFont | game/pyg.py:25 | each character of KEY is a font character at its own index, so KEY holds each once |
| Pyg.FontInKey | game/pyg.py:25 | every font character sits in KEY at its index |
| Pyg.InFontIsInKey | game/pyg.py:25-31 | the font has a character exactly when KEY holds it |
| Pyg.Filtered | game/pyg.py:31 | what is drawn is never longer than the text and holds only font characters |
| Pyg.FilteredConcat | game/pyg.py:31 | filtering works character by character, in order |
| Pyg.FilteredChar | game/pyg.py:31 | a character is kept, upper-cased, exactly when KEY holds its upper case |
| Pyg.GlyphCell | game/pyg.py:35-36 | a glyph's cell is one of 16 columns, and its row is in the light or the dark half |
| Pyg.GlyphCellNamesChar | game/pyg.py:35-36 | the glyph's cell gives the character back |
| Pyg.BMPFont.constructor | game/pyg.py:27-28 | the font owns a fresh, empty sheet |
| Pyg.BMPFont.Render | game/pyg.py:30-38 | the surface is as wide as the kept characters, and each is drawn one tile further right from its own cell; the sheet's memory only grows |
| GameLoop.RelayedVisits | game/game.py:104-108 | a relay visits only active scenes, in order, every one but the last answering truthily |
| GameLoop.RelayedSkips | game/game.py:104-108 | an active scene is skipped only behind a visited scene that answered falsily |
| GameLoop.Dispatch | game/game.py:147-150 | the relay loop visits Relayed |
| GameLoop.FrameTimes | game/game.py:152-160 | the first step is zero; each later step is the previous frame's measured time capped at 1/20 second |
| GameLoop.CopiesSnoc | game/game.py:95 | one more copy is one more item at the end |
| GameLoop.GiveSpotAsWritten | game/game.py:96 | as written, `give` drops at the player's pixel position |
| GameLoop.GiveDropsOffMap | game/game.py:94-96 | from the start position the as-written drop lands 3072 tiles out, far off the 96-tile map; the tile under the player is the map's middle |
| GameLoop.GiveSpot | game/game.py:96 | the corrected spot is the player's position in tiles, on the map whenever the player is |
| GameLoop.Game.constructor | game/game.py:44-48 | a new game is running with its console and game scene |
| GameLoop.Game.ConGive | game/game.py:79-96 | an unknown item changes nothing; otherwise the first empty or matching slot receives the amount, else that many items are dropped under the player |
| GameLoop.Game.HandleEvent | game/game.py:121-150 | an open console grabs every key press but the backquote and its editor becomes Keyed; otherwise a quit stops the game, the backquote toggles the console without editing it, and the event is relayed to the scenes |

## Left out

- Moving the player and the camera (game/scenes/world.py:944-1031): movement, collision with decorations, scrolling and the blood trail left by walking. These are continuous geometry and pixel sizes; the frame tick takes the pointer's world position and the player's position as given.
- Creature movement (`med_tick`, game/scenes/world.py:738-786): it runs on its own thread, sleeping between passes. Threads and timing are outside the model.
- World generation's noise (game/scenes/world.py:448-514): OpenSimplex is foreign code. Only the choice of tile for a noise value (`Classify`) and the spawn check are modelled; the scene's constructor takes a generated grid.
- Drawing: every `render`, chunk surfaces, the HUD, chat and `auto_crop`. A drawn tile is modelled by the rectangle it comes from.
- `reset`/`start`, `do_chat` and the chat list: these only re-initialise fields or show text.
- Python `eval` in the console: its effect enters as an `Outcome`. `expose`, `bind`, `clear`, `help` and the file-protocol stubs are not modelled.
- The console's `give` prints a message; the message is left out. Only items given as a sprite cell are modelled.
- Game events other than quit, key presses and the backquote toggle: F11 full-screen and the music events are events the scenes still receive, but their own effect is left out.
- The scenes' answers to a relayed call are parameters. The game reads each scene's `active` flag as it goes, so a scene switched on during the same pass is not modelled.
- `pygame.Rect` truncates coordinates to integers; collisions here are on real numbers.
- `Upper` handles ASCII letters only, not all of Unicode.
- `TileSheet.GetAt` does not model the error pygame raises for a rectangle outside the image.
- Console.Console.constructor: it assigns the start message directly rather than by calling `Log`, which gives the same lines on an empty console.
- Game.__init__'s pygame, music and scene-list setup is left out.
- GameLoop.FrameTimes: it models only the frame steps, not the tick, render and event calls of `mainloop`.
- World.GameScene.Tick: with the mouse unlocked it states only that no dig is left overdue, since the wave fired before the click chooses the creatures nondeterministically; `WaveTick`, `DigTick` and `Gather` state each part in full.
- World.GameScene.DamageAnimal: it removes the i-th creature. The source removes the first equal one, and `BlowRemovesVictim` shows they agree on a herd of living creatures.
- Python floats are modelled as exact reals. This affects the hunger and health arithmetic (the HUNGER and SACRIFICES costs, the 0.25 altar heal), the DIG_T deadlines and the slides' fade. A boundary test such as `hunger <= 0` or `health < 0` can fall on the other side after float rounding: ten subtractions of 0.1 from 1.0 leave a small positive remainder in floats but exactly zero here.
- World.GameScene.FeedAltar: hunger stays as it was, as `max(h, h - 3)` at game/scenes/world.py:601 leaves it.

## Findings

| source | as written | input that shows it | evidently intended | confidence | as-written member | corrected member |
|---|---|---|---|---|---|---|
| game/scenes/world.py:1042-1048 | a due dig sets the tile, drops the material and clears the decoration at the cell under the cursor (tx, ty recomputed from the mouse) | start digging grass at (0, 0), keep the button held and move onto water at (1, 0) before the dig is due (the click there starts nothing): the water becomes mud and the grass stays | the dig completes on the cell that was dug (`digging[0:2]`) | not executed | Combat.DigCompletesUnderCursor | World.HeldDigCompletesDugCell |
| game/game.py:94-96 | `give` drops what does not fit at `pos`, which is in pixels, while `drop_item` takes tile units | a full hotbar without the kind, player at the start position (3072, 3072): the items land at tile x = 3072, off the 96-tile map | drop at `pos / tw`, the tile under the player, as the Q key does | not executed | GameLoop.GiveDropsOffMap | GameLoop.Game.ConGive |
