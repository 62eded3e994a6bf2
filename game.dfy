/** The game object: the per-frame relay of ticks, draws and events to the
    active scenes, the debug console's first refusal of events, its `give`
    command, and the frame timer that caps the step handed to the scenes.
    The scenes' answers enter as parameters (one per scene, in the game's
    scene order); the clock enters as the measured frame durations. */
module GameLoop {
  import opened Util
  import opened Kinds
  import opened Terrain
  import opened Entities
  import opened Hotbar
  import opened World
  import Con = Console

  /** The longest step, in seconds, handed to the scenes in one frame. */
  const MAX_DT: real := 0.05

  // ---------------------------------------------------------------------
  // Relaying to the scenes

  /** The scenes a relay visits from scene `i` on: the active ones in order,
      stopping after the first whose answer is falsy. */
  function Relayed(active: seq<bool>, answers: seq<bool>, i: nat): (r: seq<nat>)
    requires |active| == |answers|
    decreases |active| - i
  {
    if i >= |active| then []
    else if !active[i] then Relayed(active, answers, i + 1)
    else if !answers[i] then [i]
    else [i] + Relayed(active, answers, i + 1)
  }

  /** `r` lists active scenes from `i` on, in increasing order, each but
      the last answering truthily. */
  ghost predicate VisitsInOrder(active: seq<bool>, answers: seq<bool>, i: nat, r: seq<nat>)
    requires |active| == |answers|
  {
    forall m :: 0 <= m < |r| ==>
      i <= r[m] < |active| && active[r[m]] && (m + 1 < |r| ==> answers[r[m]] && r[m] < r[m + 1])
  }

  /** A relay visits only active scenes, in increasing order, every one of
      them but the last answering truthily. */
  lemma {:induction false} RelayedVisits(active: seq<bool>, answers: seq<bool>, i: nat)
    requires |active| == |answers|
    ensures VisitsInOrder(active, answers, i, Relayed(active, answers, i))
    decreases |active| - i
  {
    if i < |active| {
      RelayedVisits(active, answers, i + 1);
      var t := Relayed(active, answers, i + 1);
      var r := Relayed(active, answers, i);
      if !active[i] {
        assert r == t;
      } else if !answers[i] {
        assert r == [i];
      } else {
        assert r == [i] + t && r[0] == i;
        forall m | 0 <= m < |r|
          ensures i <= r[m] < |active| && active[r[m]] && (m + 1 < |r| ==> answers[r[m]] && r[m] < r[m + 1])
        {
          if m > 0 {
            assert r[m] == t[m - 1];
            if m + 1 < |r| {
              assert r[m + 1] == t[m];
            }
          } else if m + 1 < |r| {
            assert r[1] == t[0];
          }
        }
      }
    }
  }

  /** A relay skips an active scene only when it lies behind the last scene
      visited and that scene answered falsily. */
  lemma {:induction false} RelayedSkips(active: seq<bool>, answers: seq<bool>, i: nat, j: nat)
    requires |active| == |answers|
    requires i <= j < |active| && active[j] && j !in Relayed(active, answers, i)
    ensures var r := Relayed(active, answers, i);
      |r| > 0 && r[|r| - 1] < j && !answers[r[|r| - 1]]
    decreases |active| - i
  {
    var t := Relayed(active, answers, i + 1);
    var r := Relayed(active, answers, i);
    if !active[i] {
      assert r == t;
      RelayedSkips(active, answers, i + 1, j);
    } else if !answers[i] {
      assert r == [i];
    } else {
      assert r == [i] + t;
      RelayedSkips(active, answers, i + 1, j);
      assert r[|r| - 1] == t[|t| - 1];
    }
  }

  /** One relay pass (the tick, the draw or one event): the scenes are
      offered the call in order, and a falsy answer ends the pass. */
  method Dispatch(active: seq<bool>, answers: seq<bool>) returns (visited: seq<nat>)
    requires |active| == |answers|
    ensures visited == Relayed(active, answers, 0)
  {
    visited := [];
    var i := 0;
    while i < |active|
      invariant 0 <= i <= |active|
      invariant visited + Relayed(active, answers, i) == Relayed(active, answers, 0)
    {
      if active[i] {
        visited := visited + [i];
        if !answers[i] {
          break;
        }
      }
      i := i + 1;
    }
  }

  // ---------------------------------------------------------------------
  // The frame timer

  function RMin(a: real, b: real): real
  {
    if a <= b then a else b
  }

  /** The steps handed to the scenes' ticks, frame by frame, given how long
      each frame took: nothing on the first frame, afterwards the previous
      frame's duration capped at MAX_DT. */
  method FrameTimes(elapsed: seq<real>) returns (dts: seq<real>)
    ensures |dts| == |elapsed|
    ensures |dts| > 0 ==> dts[0] == 0.0
    ensures forall i :: 0 <= i < |dts| ==> dts[i] <= MAX_DT
    ensures forall i :: 0 < i < |dts| ==> dts[i] <= elapsed[i - 1]
    ensures forall i :: 0 < i < |dts| && elapsed[i - 1] <= MAX_DT ==> dts[i] == elapsed[i - 1]
    ensures forall i :: 0 < i < |dts| ==> dts[i] == RMin(elapsed[i - 1], MAX_DT)
    ensures (forall i :: 0 <= i < |elapsed| ==> 0.0 <= elapsed[i]) ==> forall i :: 0 <= i < |dts| ==> 0.0 <= dts[i]
  {
    dts := [];
    var dt := 0.0;
    var n := 0;
    while n < |elapsed|
      invariant 0 <= n <= |elapsed| && |dts| == n
      invariant n == 0 ==> dt == 0.0
      invariant n > 0 ==> dt == RMin(elapsed[n - 1], MAX_DT)
      invariant |dts| > 0 ==> dts[0] == 0.0
      invariant forall i :: 0 < i < n ==> dts[i] == RMin(elapsed[i - 1], MAX_DT)
    {
      dts := dts + [dt];
      dt := RMin(elapsed[n], MAX_DT);
      n := n + 1;
    }
  }

  // ---------------------------------------------------------------------
  // The console's give command

  /** `n` items of kind `k` (none for a negative `n`). */
  function Copies(k: Kind, n: int): (r: seq<Kind>)
    ensures |r| == (if n < 0 then 0 else n)
  {
    seq(if n < 0 then 0 else n, _ => k)
  }

  lemma CopiesSnoc(k: Kind, n: nat)
    ensures Copies(k, n + 1) == Copies(k, n) + [k]
  {
    assert forall i :: 0 <= i < n + 1 ==> Copies(k, n + 1)[i] == (Copies(k, n) + [k])[i];
  }

  /** Where `give` drops what does not fit in the hotbar, as written: the
      player's position in pixels handed on as a position in tiles. */
  function GiveSpotAsWritten(px: real, py: real): (r: (real, real))
    ensures r.0 == px && r.1 == py
  {
    (px, py)
  }

  /** Where the items should land: the tile under the player's position,
      on the map whenever the player is. */
  function GiveSpot(px: real, py: real): (r: (real, real))
    ensures r.0 * TW == px && r.1 * TH == py
    ensures 0.0 <= px < WIDTH as real * TW ==> 0.0 <= r.0 < WIDTH as real
    ensures 0.0 <= py < HEIGHT as real * TH ==> 0.0 <= r.1 < HEIGHT as real
  {
    (px / TW, py / TH)
  }

  /** From the starting position in the middle of the map, the written drop
      spot lies far outside the map, while the tile under the player is the
      middle of the map. */
  lemma GiveDropsOffMap()
    ensures var s := GiveSpotAsWritten(48.0 * 64.0, 48.0 * 64.0);
      s.0 >= 32.0 * WIDTH as real && s.1 >= 32.0 * HEIGHT as real
    ensures GiveSpot(48.0 * 64.0, 48.0 * 64.0) == ((WIDTH / 2) as real, (HEIGHT / 2) as real)
  {
  }

  class Game {
    const console: Con.Console
    const scene: GameScene
    var running: bool

    constructor (console: Con.Console, scene: GameScene)
      ensures this.console == console && this.scene == scene && running
    {
      this.console := console;
      this.scene := scene;
      running := true;
    }

    /** `give(item, amount)`: an item that names no kind is refused and
        nothing changes. Otherwise the first hotbar slot that is empty or
        holds that kind receives `amount` more; with no such slot, `amount`
        items are dropped one by one under the player. */
    method ConGive(item: (int, int), amount: int) returns (known: bool)
      requires scene.HotbarOk()
      modifies scene`hotbar, scene`entities
      ensures scene.HotbarOk()
      ensures known <==> KindAt(item).Some?
      ensures !known ==> scene.hotbar == old(scene.hotbar) && scene.entities == old(scene.entities)
      ensures known && Given(old(scene.hotbar), KindAt(item).value, amount).Some? ==>
        scene.hotbar == Given(old(scene.hotbar), KindAt(item).value, amount).value
        && scene.entities == old(scene.entities)
      ensures known && Given(old(scene.hotbar), KindAt(item).value, amount).None? ==>
        scene.hotbar == old(scene.hotbar)
        && scene.entities == DroppedAll(old(scene.entities), GiveSpot(scene.px, scene.py).0,
                                        GiveSpot(scene.px, scene.py).1, Copies(KindAt(item).value, amount))
    {
      known := KindAt(item).Some?;
      if known {
        var k := KindAt(item).value;
        var placed := false;
        var n := 0;
        while n < |scene.hotbar|
          invariant 0 <= n <= |scene.hotbar| && !placed
          invariant scene.hotbar == old(scene.hotbar) && scene.entities == old(scene.entities)
          invariant forall j :: 0 <= j < n ==> scene.hotbar[j].Some? && scene.hotbar[j].value.kind != k
        {
          var s := scene.hotbar[n];
          if s.None? || s.value.kind == k {
            assert GiveSlot(old(scene.hotbar), k) == Some(n);
            if s.None? {
              scene.hotbar := scene.hotbar[n := Some(Stack(k, amount))];
            } else {
              scene.hotbar := scene.hotbar[n := Some(Stack(k, s.value.count + amount))];
            }
            placed := true;
            break;
          }
          n := n + 1;
        }
        if !placed {
          var spot := GiveSpot(scene.px, scene.py);
          var m: nat := 0;
          while m < amount
            invariant m <= (if amount < 0 then 0 else amount)
            invariant scene.hotbar == old(scene.hotbar)
            invariant scene.entities == DroppedAll(old(scene.entities), spot.0, spot.1, Copies(k, m))
          {
            CopiesSnoc(k, m);
            DroppedAllSnoc(old(scene.entities), spot.0, spot.1, Copies(k, m), k);
            scene.DropItem(spot.0, spot.1, k);
            m := m + 1;
          }
        }
      }
    }

    /** One event: unless it is the backquote key, the console is offered it
        first, and an open console keeps every key press to itself. Otherwise
        a quit request stops the game, the backquote key opens or closes the
        console, and the event is relayed to the scenes. */
    method HandleEvent(ev: Con.Event, outcome: Con.Outcome, active: seq<bool>, answers: seq<bool>)
      returns (visited: seq<nat>)
      requires console.Valid() && |active| == |answers|
      modifies console, this`running
      ensures console.Valid()
      ensures var grabbed := old(console.active) && ev.KeyDown? && ev.key != Con.Backquote;
        (grabbed ==> visited == [] && running == old(running) && console.active)
        && (!grabbed ==> visited == Relayed(active, answers, 0) && running == (old(running) && !ev.Quit?))
      ensures ev.KeyDown? && ev.key == Con.Backquote ==>
        console.active == !old(console.active) && console.lines == old(console.lines)
        && console.current == old(console.current) && console.inp == old(console.inp)
      ensures !ev.KeyDown? ==> unchanged(console)
      ensures ev.KeyDown? && ev.key != Con.Backquote ==>
        console.State() == (if old(console.active)
                            then Con.Keyed(old(console.State()), ev.key, ev.ctrl, ev.text, outcome)
                            else old(console.State()))
      ensures ev.KeyDown? && ev.key == Con.Backquote ==> console.State() == old(console.State())
    {
      var grabbed := false;
      if !(ev.KeyDown? && ev.key == Con.Backquote) {
        var r := console.Tick(ev, outcome);
        grabbed := r == Con.Grabbed;
      }
      if grabbed {
        visited := [];
      } else {
        if ev.Quit? {
          running := false;
        } else if ev.KeyDown? && ev.key == Con.Backquote {
          console.Toggle();
        }
        visited := Dispatch(active, answers);
      }
    }
  }
}
