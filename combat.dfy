/** Creature and wave rules: how a hostile turns toward the player, the random
    turn, what a slain creature drops, which creatures a wave brings and when,
    and how digging starts and completes. */
module Combat {
  import opened Util
  import opened Kinds
  import opened Terrain
  import opened Entities

  // ---------------------------------------------------------------------
  // Facing

  /** The unit step of each facing: 0 up, 1 left, 2 down, 3 right (y grows downwards). */
  function Direction(f: int): (int, int)
    requires 0 <= f < 4
  {
    if f == 0 then (0, -1) else if f == 1 then (-1, 0) else if f == 2 then (0, 1) else (1, 0)
  }

  /** How far one step in facing `f` moves along the vector (dx, dy). */
  function Progress(f: int, dx: real, dy: real): real
    requires 0 <= f < 4
  {
    Direction(f).0 as real * dx + Direction(f).1 as real * dy
  }

  function Abs(x: real): real
  {
    if x < 0.0 then -x else x
  }

  /** The facing a hostile takes toward a player (dx, dy) away: along the
      dominant axis, vertical on a tie. */
  function FaceToward(dx: real, dy: real): (f: int)
    ensures 0 <= f < 4
  {
    if Abs(dx) > Abs(dy) then (if dx > 0.0 then 3 else 1)
    else (if dy > 0.0 then 2 else 0)
  }

  /** The chosen facing makes at least as much progress toward the player as
      any other facing, and a tie between the axes is broken vertically. */
  lemma FaceTowardIsBest(dx: real, dy: real, g: int)
    requires 0 <= g < 4
    ensures Progress(FaceToward(dx, dy), dx, dy) >= Progress(g, dx, dy)
    ensures Progress(FaceToward(dx, dy), dx, dy) >= 0.0
    ensures Abs(dx) == Abs(dy) ==> FaceToward(dx, dy) % 2 == 0
  {
  }

  /** The random turn by `delta` (-1, 0 or 1), wrapping round the four facings. */
  function Turn(f: int, delta: int): (r: int)
    ensures 0 <= r < 4
  {
    (f + delta) % 4
  }

  /** A random turn keeps the facing or turns it a quarter: never a reversal. */
  lemma TurnNeverReverses(f: int, delta: int)
    requires 0 <= f < 4 && -1 <= delta <= 1
    ensures Turn(f, delta) == f <==> delta == 0
    ensures Direction(Turn(f, delta)) != (-Direction(f).0, -Direction(f).1)
  {
  }

  // ---------------------------------------------------------------------
  // Drops

  /** The gems whose roll beat their threshold, in table order. */
  function GemDrops(gems: seq<(Kind, real)>, rolls: seq<real>): (r: seq<Kind>)
    requires |rolls| == |gems|
    ensures |r| <= |gems|
  {
    if gems == [] then []
    else (if rolls[0] > gems[0].1 then [gems[0].0] else []) + GemDrops(gems[1..], rolls[1..])
  }

  /** Every dropped gem was earned: its roll beat its own threshold. */
  lemma {:induction false} GemDropsEarned(gems: seq<(Kind, real)>, rolls: seq<real>)
    requires |rolls| == |gems|
    ensures forall k :: k in GemDrops(gems, rolls) ==> exists i :: 0 <= i < |gems| && gems[i].0 == k && rolls[i] > gems[i].1
  {
    if gems != [] {
      var rest := GemDrops(gems[1..], rolls[1..]);
      GemDropsEarned(gems[1..], rolls[1..]);
      forall k | k in GemDrops(gems, rolls)
        ensures exists i :: 0 <= i < |gems| && gems[i].0 == k && rolls[i] > gems[i].1
      {
        if k in rest {
          var i :| 0 <= i < |gems| - 1 && gems[1..][i].0 == k && rolls[1..][i] > gems[1..][i].1;
          assert gems[i + 1].0 == k && rolls[i + 1] > gems[i + 1].1;
        } else {
          assert gems[0].0 == k && rolls[0] > gems[0].1;
        }
      }
    }
  }

  /** What a slain creature drops, in drop order. `heartRoll` is the pig's heart
      roll and `gemRolls` the hostile's roll per gem; both are in [0, 1). */
  function AnimalDrops(kind: Kind, heartRoll: real, gemRolls: seq<real>): (r: seq<Kind>)
    requires |gemRolls| == |Gems|
  {
    if kind == Pig then (if heartRoll > 0.5 then [PigHeart] else []) + [PigMeat]
    else if kind == ZPig then [PigHeart]
    else if kind in Hostile then GemDrops(Gems, gemRolls)
    else []
  }

  /** Guaranteed drops stay fixed and random ones depend only on their roll: a
      pig always leaves meat (last), a zombie pig exactly one heart, a hostile
      only gems and always the small gem when its roll is above zero. */
  lemma DropsGuaranteed(kind: Kind, heartRoll: real, gemRolls: seq<real>)
    requires |gemRolls| == |Gems| && forall i :: 0 <= i < |gemRolls| ==> 0.0 <= gemRolls[i] < 1.0
    ensures kind == Pig ==> AnimalDrops(kind, heartRoll, gemRolls)[|AnimalDrops(kind, heartRoll, gemRolls)| - 1] == PigMeat
    ensures kind == Pig ==> (PigHeart in AnimalDrops(kind, heartRoll, gemRolls) <==> heartRoll > 0.5)
    ensures kind == ZPig ==> AnimalDrops(kind, heartRoll, gemRolls) == [PigHeart]
    ensures kind in Hostile ==> forall k :: k in AnimalDrops(kind, heartRoll, gemRolls) ==> k in {GemL, GemM, GemS}
    ensures kind in Hostile && gemRolls[2] > 0.0 ==> GemS in AnimalDrops(kind, heartRoll, gemRolls)
    ensures kind !in Hostile + {Pig, ZPig} ==> AnimalDrops(kind, heartRoll, gemRolls) == []
  {
    if kind in Hostile {
      var r := AnimalDrops(kind, heartRoll, gemRolls);
      assert r == GemDrops(Gems, gemRolls);
      assert GemDrops(Gems[2..], gemRolls[2..]) == (if gemRolls[2] > 0.0 then [GemS] else []) + GemDrops(Gems[3..], gemRolls[3..]);
      assert GemDrops(Gems[1..], gemRolls[1..]) == (if gemRolls[1] > 0.5 then [GemM] else []) + GemDrops(Gems[2..], gemRolls[2..]);
    }
  }

  // ---------------------------------------------------------------------
  // Waves

  /** The kind rotation a wave round walks through. */
  const Rotation: seq<Kind> := [Eye, Angel, Slime, Slime, ZPig, ZPig, Vampire]

  /** The kinds of `rot` that wave number `wave` brings: angels only after
      wave 4, vampires only after wave 7. */
  function Cohort(rot: seq<Kind>, wave: int): (r: seq<Kind>)
    ensures |r| <= |rot|
  {
    if rot == [] then []
    else if (rot[0] == Angel && wave <= 4) || (rot[0] == Vampire && wave <= 7) then Cohort(rot[1..], wave)
    else [rot[0]] + Cohort(rot[1..], wave)
  }

  /** A cohort holds only kinds of its rotation. */
  lemma {:induction false} CohortWithin(rot: seq<Kind>, wave: int)
    ensures forall k :: k in Cohort(rot, wave) ==> k in rot
  {
    if rot != [] {
      CohortWithin(rot[1..], wave);
      CohortCons(rot[0], rot[1..], wave);
      assert rot == [rot[0]] + rot[1..];
    }
  }

  /** One step of the filter: the head kind stays unless the wave holds it back. */
  lemma CohortCons(k: Kind, rest: seq<Kind>, wave: int)
    ensures Cohort([k] + rest, wave)
         == (if (k == Angel && wave <= 4) || (k == Vampire && wave <= 7) then [] else [k]) + Cohort(rest, wave)
  {
    assert ([k] + rest)[0] == k && ([k] + rest)[1..] == rest;
  }

  /** The filter at position `i` of a rotation. */
  lemma CohortAt(rot: seq<Kind>, i: nat, wave: int)
    requires i < |rot|
    ensures Cohort(rot[i..], wave)
         == (if (rot[i] == Angel && wave <= 4) || (rot[i] == Vampire && wave <= 7) then [] else [rot[i]])
            + Cohort(rot[i + 1..], wave)
  {
    assert rot[i..] == [rot[i]] + rot[i + 1..];
    CohortCons(rot[i], rot[i + 1..], wave);
  }

  lemma {:induction false} CohortTail(wave: int)
    ensures Cohort(Rotation[2..], wave) == [Slime, Slime, ZPig, ZPig] + (if wave <= 7 then [] else [Vampire])
  {
    var r := Rotation;
    assert r[2] == Slime && r[3] == Slime && r[4] == ZPig && r[5] == ZPig && r[6] == Vampire;
    assert r[7..] == [];
    var v := if wave <= 7 then [] else [Vampire];
    CohortAt(r, 6, wave);
    assert Cohort(r[6..], wave) == v;
    CohortAt(r, 5, wave);
    var c5 := [ZPig] + v;
    CohortAt(r, 4, wave);
    var c4 := [ZPig] + c5;
    assert Cohort(r[4..], wave) == c4;
    CohortAt(r, 3, wave);
    var c3 := [Slime] + c4;
    CohortAt(r, 2, wave);
    assert Cohort(r[2..], wave) == [Slime] + c3;
    Cons4(Slime, Slime, ZPig, ZPig, v);
  }

  lemma Cons4<T>(a: T, b: T, c: T, d: T, v: seq<T>)
    ensures [a] + ([b] + ([c] + ([d] + v))) == [a, b, c, d] + v
  {
  }

  /** The creatures of one wave round, spelled out. */
  lemma {:induction false} CohortShape(wave: int)
    ensures wave <= 4 ==> Cohort(Rotation, wave) == [Eye, Slime, Slime, ZPig, ZPig]
    ensures 4 < wave <= 7 ==> Cohort(Rotation, wave) == [Eye, Angel, Slime, Slime, ZPig, ZPig]
    ensures 7 < wave ==> Cohort(Rotation, wave) == Rotation
  {
    var r := Rotation;
    var v := if wave <= 7 then [] else [Vampire];
    var a := if wave <= 4 then [] else [Angel];
    var t := [Slime, Slime, ZPig, ZPig] + v;
    CohortTail(wave);
    assert r[0] == Eye && r[1] == Angel && r[0..] == r;
    CohortAt(r, 1, wave);
    CohortAt(r, 0, wave);
    assert Cohort(r, wave) == [Eye] + (a + t);
    if wave <= 4 {
      Spelled(Eye, [], Slime, Slime, ZPig, ZPig, []);
    } else if wave <= 7 {
      Spelled(Eye, [Angel], Slime, Slime, ZPig, ZPig, []);
    } else {
      Spelled(Eye, [Angel], Slime, Slime, ZPig, ZPig, [Vampire]);
    }
  }

  /** Sequence shapes the proof above spells out. */
  lemma Spelled<T>(e: T, a: seq<T>, p: T, q: T, s: T, t: T, v: seq<T>)
    ensures [e] + (a + ([p, q, s, t] + v)) == [e] + a + [p, q, s, t] + v
    ensures a == [] && v == [] ==> [e] + a + [p, q, s, t] + v == [e, p, q, s, t]
    ensures |a| == 1 && v == [] ==> [e] + a + [p, q, s, t] + v == [e, a[0], p, q, s, t]
    ensures |a| == 1 && |v| == 1 ==> [e] + a + [p, q, s, t] + v == [e, a[0], p, q, s, t, v[0]]
  {
  }

  /** A kind of the rotation is held back exactly in the waves the rule names. */
  lemma CohortRule(wave: int, k: Kind)
    ensures k in Cohort(Rotation, wave) <==>
      k in Rotation && !(k == Angel && wave <= 4) && !(k == Vampire && wave <= 7)
  {
    CohortShape(wave);
  }

  /** How many passes over the cohort a wave makes: one per altar and one
      more, times the wave number (none when that product is negative). */
  function Rounds(wave: nat, altars: int): (n: nat)
    ensures altars >= 0 ==> n == wave * (altars + 1)
    ensures altars < 0 ==> n == 0 || altars == -1
  {
    if altars < -1 then 0 else wave * (altars + 1)
  }

  /** The kinds of a whole wave: `rounds` passes over the cohort. */
  function Horde(ks: seq<Kind>, rounds: nat): (r: seq<Kind>)
    ensures |r| == rounds * |ks|
  {
    if rounds == 0 then [] else Horde(ks, rounds - 1) + ks
  }

  /** A wave brings only kinds of its cohort. */
  lemma {:induction false} HordeKinds(ks: seq<Kind>, rounds: nat)
    ensures forall k :: k in Horde(ks, rounds) ==> k in ks
  {
    if rounds > 0 {
      HordeKinds(ks, rounds - 1);
    }
  }

  /** Pass `n` of a wave brings the whole cohort, in order. */
  lemma {:induction false} HordePass(ks: seq<Kind>, rounds: nat, n: nat)
    requires n < rounds
    ensures n * |ks| + |ks| <= |Horde(ks, rounds)|
    ensures Horde(ks, rounds)[n * |ks| .. n * |ks| + |ks|] == ks
  {
    var h := Horde(ks, rounds - 1);
    if n < rounds - 1 {
      HordePass(ks, rounds - 1, n);
      assert Horde(ks, rounds)[..|h|] == h;
    } else {
      assert n * |ks| == |h|;
    }
  }

  /** The first wave with no altar brings five creatures: an eye, two slimes
      and two zombie pigs. */
  lemma FirstWave()
    ensures Horde(Cohort(Rotation, NextWave(0)), Rounds(NextWave(0), 0)) == [Eye, Slime, Slime, ZPig, ZPig]
  {
    CohortShape(1);
    assert Horde(Cohort(Rotation, 1), 1) == [] + Cohort(Rotation, 1);
  }

  /** `wave` and the next wave's number: it never passes the last timer. */
  function NextWave(wave: nat): (r: nat)
    requires wave < |WaveTimers|
    ensures r < |WaveTimers| && wave <= r <= wave + 1
    ensures r == wave <==> wave == |WaveTimers| - 1
  {
    if wave < |WaveTimers| - 1 then wave + 1 else wave
  }

  function Max(a: int, b: int): int
  {
    if a > b then a else b
  }

  /** Seconds until the next wave: the wave's timer in minutes, stretched by
      every altar beyond the second. */
  function WaveDelay(wave: nat, altars: int): (d: real)
    requires wave < |WaveTimers|
    ensures d > 0.0
  {
    WaveTimers[wave] * 60.0 * Max(1, altars - 2) as real
  }

  predicate WaveDue(timer: real, wave: nat, altars: int)
    requires wave < |WaveTimers|
  {
    timer > WaveDelay(wave, altars)
  }

  /** Waves come no sooner with more altars, and once due stay due as time passes. */
  lemma WaveDueMonotone(timer: real, later: real, wave: nat, altars: int, more: int)
    requires wave < |WaveTimers| && timer <= later && altars <= more
    ensures WaveDue(timer, wave, more) ==> WaveDue(timer, wave, altars)
    ensures WaveDue(timer, wave, altars) ==> WaveDue(later, wave, altars)
  {
    var t := WaveTimers[wave] * 60.0;
    assert t > 0.0;
    assert Max(1, altars - 2) as real <= Max(1, more - 2) as real;
    assert t * Max(1, altars - 2) as real <= t * Max(1, more - 2) as real;
  }

  // ---------------------------------------------------------------------
  // Digging

  /** A dig started at time `now` on a tile: only tiles with a progression can
      be dug. */
  function StartDig(tile: Kind, tx: int, ty: int, now: real): (r: Option<Dig>)
    ensures r.Some? <==> tile in Progression
    ensures r.Some? ==> r.value.end > now && r.value.after == Progression[tile] && r.value.drop == Drops[tile]
    ensures r.Some? ==> r.value.tx == tx && r.value.ty == ty
  {
    DigTablesAgree();
    if tile in Progression then Some(Dig(tx, ty, now + DigTime[tile], Progression[tile], Drops[tile])) else None
  }

  /** Digging always changes the tile and bottoms out: after at most two digs
      a cell can no longer be dug. */
  lemma DiggingBottomsOut(tile: Kind)
    requires tile in Progression
    ensures Progression[tile] != tile
    ensures Progression[tile] !in Progression || Progression[Progression[tile]] !in Progression
  {
  }

  /** The grid after the dig completes, applied where the cursor is, as the game
      does it. */
  function CompleteDigAsWritten(g: Grid, d: Dig, cursorX: int, cursorY: int): (r: Grid)
    requires 0 <= cursorX < |g| && 0 <= cursorY < |g[cursorX]|
  {
    Put(g, cursorX, cursorY, d.after)
  }

  /** The grid after the dig completes, applied to the cell that was dug. */
  function CompleteDig(g: Grid, d: Dig): (r: Grid)
    requires 0 <= d.tx < |g| && 0 <= d.ty < |g[d.tx]|
  {
    Put(g, d.tx, d.ty, d.after)
  }

  /** Completing a dig turns the dug cell into its progression and touches no
      other cell. */
  lemma CompleteDigChangesDugCell(g: Grid, tile: Kind, tx: int, ty: int, now: real)
    requires 0 <= tx < |g| && 0 <= ty < |g[tx]| && g[tx][ty] == tile && tile in Progression
    ensures CompleteDig(g, StartDig(tile, tx, ty, now).value)[tx][ty] == Progression[g[tx][ty]]
    ensures forall i, j :: 0 <= i < |g| && 0 <= j < |g[i]| && (i, j) != (tx, ty) ==>
      CompleteDig(g, StartDig(tile, tx, ty, now).value)[i][j] == g[i][j]
  {
  }

  /** If the cursor has left the dug cell when the dig completes (the button
      held and moved onto a cell that cannot be dug, so the click there starts
      nothing), the game changes the cell under the cursor instead: digging
      the grass at (0, 0) and moving onto the water at (1, 0), the grass stays
      grass and the water becomes mud. */
  lemma DigCompletesUnderCursor()
    ensures StartDig(Grass, 0, 0, 0.0).Some?
    ensures CompleteDigAsWritten([[Grass], [Water]], StartDig(Grass, 0, 0, 0.0).value, 1, 0) == [[Grass], [Mud]]
    ensures CompleteDig([[Grass], [Water]], StartDig(Grass, 0, 0, 0.0).value) == [[Mud], [Water]]
  {
    var d := StartDig(Grass, 0, 0, 0.0).value;
    assert d.after == Mud;
    var g: Grid := [[Grass], [Water]];
    assert g[1][0 := Mud] == [Mud] && g[0][0 := Mud] == [Mud];
    assert CompleteDigAsWritten(g, d, 1, 0) == g[1 := [Mud]];
    assert CompleteDig(g, d) == g[0 := [Mud]];
  }
}
