/** Scenes: the activation switch every scene has, with the hook that runs when
    a scene becomes active, and the slide shows (the splash screen and the
    game-over screen) that fade each slide in, hold it, fade it out, pause, and
    hand over to the next scene when the slides run out. */
module Scenes {

  /** The activation hook runs on a change from inactive to active only. */
  predicate WakesUp(was: bool, v: bool)
  {
    !was && v
  }

  /** A plain scene. `wakes` counts the runs of its activation hook. */
  class Scene {
    var active: bool
    ghost var wakes: nat

    /** A scene starts inactive and is then switched to `startActive`, so the
        hook runs once when it starts active. */
    constructor (startActive: bool)
      ensures active == startActive && wakes == (if startActive then 1 else 0)
    {
      active := false;
      wakes := 0;
      new;
      SetActive(startActive);
    }

    /** The `active` setter: reads back what was set, and runs the hook
        exactly when the scene was inactive and is set active. */
    method SetActive(v: bool)
      modifies this`active, this`wakes
      ensures active == v
      ensures wakes == old(wakes) + (if WakesUp(old(active), v) then 1 else 0)
    {
      if WakesUp(active, v) {
        wakes := wakes + 1;
      }
      active := v;
    }

    /** Makes the scene active and hands back the same scene. */
    method Start() returns (s: Scene)
      modifies this`active, this`wakes
      ensures s == this && active
      ensures wakes == old(wakes) + (if old(active) then 0 else 1)
    {
      SetActive(true);
      s := this;
    }
  }

  // ---------------------------------------------------------------------
  // Slide shows

  /** A slide: a caption in the middle-sized font, a title with a size, or a
      note in the small font. */
  datatype Slide = Caption(text: string) | Title(text: string, size: int) | Note(text: string)

  /** The show state, which doubles as its duration in seconds. */
  const SHOW: int := 4
  const HIDE: int := 1
  /** Seconds of fading in and out. */
  const FADE: real := 0.5

  const SplashSlides: seq<Slide> := [
    Caption("A Game by Bottersnike"),
    Caption("With art by 8th Kingdom"),
    Title("BRINK", 2),
    Note("Be careful. You bleed out from walking too much and crafting."),
    Note("Stand on top of items when combing them into new things."),
    Note("Hold H to list the full controls.")
  ]

  const GameOverSlides: seq<Slide> := [Caption("You died."), Caption("That sucks."), Caption("Sacrifice too much?")]

  /** Python's round to an integer: to the nearest, ties to even. */
  function Round(x: real): (r: int)
    ensures x - 0.5 <= r as real <= x + 0.5
    ensures (r as real - x == 0.5 || x - r as real == 0.5) ==> r % 2 == 0
  {
    var f := x.Floor;
    var d := x - f as real;
    if d < 0.5 then f else if d > 0.5 then f + 1 else if f % 2 == 0 then f else f + 1
  }

  /** Rounding never reverses the order of two numbers. */
  lemma RoundMonotone(x: real, y: real)
    requires x <= y
    ensures Round(x) <= Round(y)
  {
    if x < y {
      assert Round(x) as real <= x + 0.5 < y + 0.5;
    }
  }

  function Min(a: int, b: int): int
  {
    if a <= b then a else b
  }

  /** The opacity of a slide `stage` seconds into its showing: rising over
      the first FADE seconds, falling over the last FADE seconds before SHOW,
      opaque (255) in between. */
  function Fade(stage: real): (f: int)
    ensures f <= 255
  {
    if stage < FADE then Min(255, Round(stage / FADE * 255.0))
    else if stage > SHOW as real - FADE then Min(255, Round((SHOW as real - stage) / FADE * 255.0))
    else 255
  }

  /** Within the showing the opacity is never negative, it is full between
      the fades, it only rises while fading in and only falls while fading
      out. */
  lemma FadeShape(s1: real, s2: real)
    requires 0.0 <= s1 <= s2
    ensures s2 <= SHOW as real ==> 0 <= Fade(s1) && 0 <= Fade(s2)
    ensures FADE <= s1 && s2 <= SHOW as real - FADE ==> Fade(s1) == 255 && Fade(s2) == 255
    ensures s2 < FADE ==> Fade(s1) <= Fade(s2)
    ensures SHOW as real - FADE < s1 ==> Fade(s2) <= Fade(s1)
  {
    if s2 < FADE {
      RoundMonotone(s1 / FADE * 255.0, s2 / FADE * 255.0);
    }
    if SHOW as real - FADE < s1 {
      RoundMonotone((SHOW as real - s2) / FADE * 255.0, (SHOW as real - s1) / FADE * 255.0);
    }
  }

  /** A slide show: which slide is up, whether it is being shown or hidden,
      for how long (`stage`, in seconds), and what is drawn (`message`, at
      opacity `fade`). */
  class SlidesScene {
    const slides: seq<Slide>
    var active: bool
    var fade: int
    var message: Slide
    var stage: real
    var state: int
    var slide: int

    /** The state is SHOW or HIDE, the slide never runs past the end, and a
        hidden slide is a real one. */
    ghost predicate Valid()
      reads this`state, this`slide
    {
      (state == SHOW || state == HIDE) && 0 <= slide <= |slides| && (state == HIDE ==> slide < |slides|)
    }

    constructor (slides: seq<Slide>, startActive: bool)
      ensures Valid() && this.slides == slides && active == startActive
      ensures fade == 0 && message == Caption("") && stage == 0.0 && state == SHOW && slide == 0
    {
      this.slides := slides;
      active := startActive;
      fade, message, stage, state, slide := 0, Caption(""), 0.0, SHOW, 0;
    }

    /** The `active` setter with the show's hook: becoming active starts the
        show over from the first slide, shown, with nothing drawn yet. */
    method SetActive(v: bool)
      requires Valid()
      modifies this`active, this`slide, this`state, this`message
      ensures Valid() && active == v
      ensures WakesUp(old(active), v) ==> slide == 0 && state == SHOW && message == Caption("")
      ensures !WakesUp(old(active), v) ==> slide == old(slide) && state == old(state) && message == old(message)
    {
      if WakesUp(active, v) {
        slide := 0;
        state := SHOW;
        message := Caption("");
      }
      active := v;
    }

    /** One frame, `dt` seconds after the last. A shown slide is drawn with
        the fade for its time on screen and, after SHOW seconds, is hidden;
        a hidden one, after HIDE seconds, gives way to the next slide. Once
        the slides have run out the show switches itself off and asks for the
        next scene (`next`). */
    method Tick(dt: real) returns (next: bool)
      requires Valid()
      modifies this`stage, this`active, this`slide, this`state, this`message, this`fade
      ensures Valid()
      ensures next <==> old(state) == SHOW && old(slide) == |slides|
      ensures next ==> !active && stage == old(stage) + dt && slide == old(slide) && state == old(state)
                       && message == old(message) && fade == old(fade)
      ensures !next ==> active == old(active)
      ensures old(state) == SHOW && old(slide) < |slides| ==>
        message == slides[old(slide)] && fade == Fade(old(stage) + dt) && fade <= 255 && slide == old(slide)
        && (if old(stage) + dt >= SHOW as real then stage == 0.0 && state == HIDE
            else stage == old(stage) + dt && state == SHOW)
      ensures old(state) == HIDE ==>
        message == old(message) && fade == old(fade)
        && (if old(stage) + dt >= HIDE as real then stage == 0.0 && state == SHOW && slide == old(slide) + 1
            else stage == old(stage) + dt && state == HIDE && slide == old(slide))
    {
      stage := stage + dt;
      next := false;
      if state == SHOW {
        if slide >= |slides| {
          SetActive(false);
          next := true;
        } else {
          message := slides[slide];
          fade := Fade(stage);
          if stage >= SHOW as real {
            stage := 0.0;
            state := HIDE;
          }
        }
      } else {
        if stage >= HIDE as real {
          stage := 0.0;
          state := SHOW;
          slide := slide + 1;
        }
      }
    }
  }
}
