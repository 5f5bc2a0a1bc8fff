/** The game container's rule layer (`GameContainer`, main.py:391-975): the
    display-mode machine, the physics pause, level loading and reset, the
    per-frame loop and the menu button layout. Widgets, fog, cursor and the
    engine clock are replaced by plain fields. */
module Game {
  import opened Wrappers
  import opened Modes
  import opened AvatarModel
  import Camera

  /** The level the game starts on. */
  const StartLevel: real := 1.5

  /** `paused` holds the frame time saved by `togglePhysicsPause` while the
      global clock is held in slave mode (`_GCLK`/`_FT`); `frameTime` is the
      clock's frame time; `particles` is whether the particle and physics
      managers run; `fogged` is whether the in-game-menu fog is on. */
  datatype Game = Game(
    display: Display,
    play: PlayMode,
    modeInitialized: bool,
    paused: Option<real>,
    frameTime: real,
    particles: bool,
    fogged: bool,
    keys: Keys,
    level: real,
    avatar: Avatar,
    pitch: real)

  /** The state after construction: PLAY display, level 1.5 loaded, no key
      held, clock running, camera level. */
  function Initial(frameTime: real): (g: Game)
    ensures g.display == Play && g.play == Space && !g.modeInitialized
    ensures g.paused.None? && !g.fogged && g.keys == NoKeys
    ensures g.avatar.alive && Valid(g.avatar)
  {
    LoadLevel(Game(Play, Terrain, false, None, frameTime, false, false, NoKeys, StartLevel, NewAvatar(), 0.0), false)
  }

  /** `togglePhysicsPause`: the first call saves the frame time, stops the
      particles and freezes the clock; the next puts the clock back to the
      saved time and starts the particles again. */
  function TogglePhysicsPause(g: Game): (r: Game)
    ensures g.paused.None? ==> r.paused == Some(g.frameTime) && !r.particles && r.frameTime == g.frameTime
    ensures g.paused.Some? ==> r.paused.None? && r.particles && r.frameTime == g.paused.value
    ensures r.(paused := g.paused, particles := g.particles, frameTime := g.frameTime) == g
  {
    match g.paused
    case None => g.(paused := Some(g.frameTime), particles := false)
    case Some(saved) => g.(paused := None, particles := true, frameTime := saved)
  }

  /** The engine's clock advancing by `dt` between frames: a clock frozen by
      the pause does not move. */
  function Tick(g: Game, dt: real): (r: Game)
    ensures g.paused.Some? ==> r == g
    ensures g.paused.None? && dt >= 0.0 ==> r.frameTime == g.frameTime + dt
    ensures r.frameTime >= g.frameTime
    ensures r.(frameTime := g.frameTime) == g
  {
    if g.paused.None? && dt >= 0.0 then g.(frameTime := g.frameTime + dt) else g
  }

  function TickAll(g: Game, dts: seq<real>): Game
    decreases |dts|
  {
    if |dts| == 0 then g else TickAll(Tick(g, dts[0]), dts[1..])
  }

  /** Ticks while the clock is frozen leave the game as it is. */
  lemma {:induction false} TicksWhilePaused(g: Game, dts: seq<real>)
    requires g.paused.Some?
    ensures TickAll(g, dts) == g
    decreases |dts|
  {
    if |dts| > 0 {
      TicksWhilePaused(Tick(g, dts[0]), dts[1..]);
    }
  }

  /** Pausing, letting any time pass, and resuming puts the clock back to the
      frame time it had when the pause began. */
  lemma PauseRoundTrip(g: Game, dts: seq<real>)
    requires g.paused.None?
    ensures var r := TogglePhysicsPause(TickAll(TogglePhysicsPause(g), dts));
      r.paused.None? && r.frameTime == g.frameTime && r == g.(particles := true)
  {
    TicksWhilePaused(TogglePhysicsPause(g), dts);
  }

  /** `switchDisplayMode`: leaving the in-game menu for play lifts the fog
      and resumes the clock, entering it from play pauses the clock; every
      switch lands on the new display and leaves it to be initialised. */
  function SwitchDisplayMode(g: Game, newMode: Display): (r: Game)
    ensures r.display == newMode && !r.modeInitialized
    ensures var toggles := (g.display == InGameMenu && newMode == Play) || (g.display == Play && newMode == InGameMenu);
      && (toggles ==> r.paused.Some? != g.paused.Some?)
      && (!toggles ==> r.paused == g.paused && r.particles == g.particles && r.frameTime == g.frameTime)
    ensures r.fogged == (g.fogged && !(g.display == InGameMenu && newMode == Play))
    ensures r.play == g.play && r.keys == g.keys && r.level == g.level && r.avatar == g.avatar && r.pitch == g.pitch
  {
    var toggled :=
      match g.display
      case MainMenu => g
      case InGameMenu =>
        if newMode == Play then TogglePhysicsPause(g.(fogged := false))
        else g
      case Play =>
        if newMode == InGameMenu then TogglePhysicsPause(g) else g
      case Dead => g;
    toggled.(display := newMode, modeInitialized := false)
  }

  /** `processKeys`: a held escape toggles between play and the in-game menu,
      does nothing in the other displays, and is released either way. */
  function ProcessKeys(g: Game): (r: Game)
    ensures !r.keys.escape
    ensures g.keys.escape && g.display == Play ==> r == SwitchDisplayMode(g, InGameMenu).(keys := r.keys)
    ensures g.keys.escape && g.display == InGameMenu ==> r == SwitchDisplayMode(g, Play).(keys := r.keys)
    ensures !(g.keys.escape && (g.display == Play || g.display == InGameMenu)) ==> r == g.(keys := r.keys)
    ensures r.keys == g.keys.(escape := false)
  {
    if g.keys.escape then
      var switched :=
        if g.display == Play then SwitchDisplayMode(g, InGameMenu)
        else if g.display == InGameMenu then SwitchDisplayMode(g, Play)
        else g;
      switched.(keys := switched.keys.(escape := false))
    else g
  }

  /** `loadLevel`: the level's play mode is taken from its number; a reset
      space level resets the avatar in place, every other load makes a new
      one; a terrain level starts the physics managers. The asteroid field a
      space level builds is `Asteroids.Initialize`. */
  function LoadLevel(g: Game, reset: bool): (r: Game)
    ensures r.play == PlayModeOf(g.level)
    ensures r.avatar.alive && Valid(r.avatar)
    ensures r.play == Space && reset ==> r.avatar == Reset(g.avatar)
    ensures !(r.play == Space && reset) ==> r.avatar == NewAvatar()
    ensures r.particles == (g.particles || r.play == Terrain)
    ensures r.(play := g.play, avatar := g.avatar, particles := g.particles) == g
  {
    var play := PlayModeOf(g.level);
    var avatar := if play == Space && reset then Reset(g.avatar) else NewAvatar();
    g.(play := play, avatar := avatar, particles := g.particles || play == Terrain)
  }

  /** `resetLevel`: back to play and reload the current level in reset mode. */
  function ResetLevel(g: Game): (r: Game)
    ensures r.display == Play && !r.modeInitialized
    ensures r.level == g.level && r.play == PlayModeOf(g.level)
    ensures r.avatar.alive && Valid(r.avatar)
    ensures g.display == Dead ==> r.paused == g.paused && r.fogged == g.fogged
  {
    LoadLevel(SwitchDisplayMode(g, Play), true)
  }

  /** `advanceLevel`: half a level on, then load it afresh. */
  function AdvanceLevel(g: Game): (r: Game)
    ensures r.level == g.level + 0.5
    ensures r.play == PlayModeOf(g.level + 0.5)
    ensures r.play == Terrain <==> Integral(g.level + 0.5)
    ensures r.avatar == NewAvatar()
    ensures r.display == g.display && r.paused == g.paused
  {
    LoadLevel(g.(level := g.level + 0.5), false)
  }

  /** Starting from 1.5 (a space level), the n-th advance loads a terrain
      level when n is odd and a space level when n is even: every advance
      switches between the two. */
  lemma AdvanceAlternates(g: Game, n: nat)
    requires g.level == StartLevel + (n as real) * 0.5
    ensures AdvanceLevel(g).play == (if n % 2 == 0 then Terrain else Space)
  {
    var r := AdvanceLevel(g);
    assert r.play == PlayModeOf(g.level + 0.5);
    NextLevelMode(n);
  }

  /** The PLAY branch of `gameLoop` once its display is initialised: a dead
      avatar sends the game to the death screen; a live one moves (terrain
      only), steers by the held keys, and turns the view by the mouse shift
      (yaw on terrain only, pitch always). */
  function PlayFrame(g: Game, shiftX: real, shiftY: real): (r: Game)
    ensures !g.avatar.alive ==> r == SwitchDisplayMode(g, Dead)
    ensures g.avatar.alive ==> r.display == g.display && r.paused == g.paused && r.fogged == g.fogged
    ensures g.avatar.alive && g.play == Terrain ==>
      r.avatar == HandleKeys(Move(g.avatar), g.keys, g.play).(yawRot := Camera.YawStep(g.avatar.yawRot, shiftX))
    ensures g.avatar.alive && g.play == Space ==> r.avatar == HandleKeys(g.avatar, g.keys, g.play)
    ensures g.avatar.alive ==> r.pitch == Camera.PitchStep(g.pitch, shiftY)
    ensures r.avatar.alive == g.avatar.alive
    ensures Valid(g.avatar) ==> Valid(r.avatar)
  {
    if !g.avatar.alive then SwitchDisplayMode(g, Dead)
    else
      var moved := if g.play == Terrain then Move(g.avatar) else g.avatar;
      var steered := HandleKeys(moved, g.keys, g.play);
      var turned := if g.play == Terrain then steered.(yawRot := Camera.YawStep(steered.yawRot, shiftX)) else steered;
      g.(avatar := turned, pitch := Camera.PitchStep(g.pitch, shiftY))
  }

  /** One pass of `gameLoop` with the mouse shifted by (`shiftX`, `shiftY`):
      keys first, then the branch of the display that results; a display
      seen for the first time is initialised (the in-game menu fogs the
      scene). */
  function Frame(g: Game, shiftX: real, shiftY: real): (r: Game)
    ensures !r.keys.escape && r.level == g.level && r.play == g.play
    ensures r.avatar.alive == g.avatar.alive
    ensures g.display == InGameMenu && !g.keys.escape ==>
      && r.paused == g.paused && r.avatar == g.avatar && r.display == InGameMenu && r.modeInitialized
      && (g.modeInitialized ==> r == g)
      && (!g.modeInitialized ==> r.fogged)
    ensures g.display == Play && g.keys.escape ==>
      r.display == InGameMenu && r.fogged && r.modeInitialized && r.avatar == g.avatar
    ensures g.display == Play && !g.keys.escape ==> (r.display == Dead <==> !g.avatar.alive)
    ensures g.display == Dead ==> r.display == Dead && r.avatar == g.avatar && r.modeInitialized
    ensures Valid(g.avatar) ==> Valid(r.avatar)
  {
    var k := ProcessKeys(g);
    match k.display
    case MainMenu => k.(modeInitialized := true)
    case InGameMenu =>
      if k.modeInitialized then k else k.(fogged := true, modeInitialized := true)
    case Dead => k.(modeInitialized := true)
    case Play => PlayFrame(k.(modeInitialized := true), shiftX, shiftY)
  }

  /** What can reach the game: a key going down or up, the engine clock
      moving on, a frame, the Resume button of the in-game menu, the Restart
      button of the death screen, and a collision the avatar's sensors
      report. */
  datatype Event =
    | KeysChanged(keys: Keys)
    | ClockAdvanced(dt: real)
    | FrameRan(shiftX: real, shiftY: real)
    | ResumePressed
    | RestartPressed
    | AvatarCollided(kind: CollisionKind, name: string)

  /** The effect of one event. The buttons exist only once their display is
      initialised, and only until the next switch removes them. */
  function Step(g: Game, e: Event): Game {
    match e
    case KeysChanged(keys) => g.(keys := keys)
    case ClockAdvanced(dt) => Tick(g, dt)
    case FrameRan(shiftX, shiftY) => Frame(g, shiftX, shiftY)
    case ResumePressed =>
      if g.display == InGameMenu && g.modeInitialized then SwitchDisplayMode(g, Play) else g
    case RestartPressed =>
      if g.display == Dead && g.modeInitialized then ResetLevel(g) else g
    case AvatarCollided(kind, name) => g.(avatar := HandleCollisionEvent(g.avatar, kind, name))
  }

  function Run(g: Game, es: seq<Event>): Game
    decreases |es|
  {
    if |es| == 0 then g else Run(Step(g, es[0]), es[1..])
  }

  /** What every reachable state keeps: the clock is frozen exactly in the
      in-game menu, with the particles stopped; the fog shows only there;
      the main menu is never entered; the death screen shows a dead avatar;
      the avatar's counters are in range and the pitch within the flex
      bound. */
  predicate Coherent(g: Game) {
    && (g.paused.Some? <==> g.display == InGameMenu)
    && (g.paused.Some? ==> !g.particles)
    && (g.fogged ==> g.display == InGameMenu)
    && (g.display == InGameMenu && g.modeInitialized ==> g.fogged)
    && g.display != MainMenu
    && (g.display == Dead ==> !g.avatar.alive)
    && Valid(g.avatar)
    && -Camera.FlexRotBound <= g.pitch <= Camera.FlexRotBound
  }

  lemma InitialCoherent(frameTime: real)
    ensures Coherent(Initial(frameTime))
  {
  }

  /** Every event keeps a coherent state coherent. */
  lemma StepCoherent(g: Game, e: Event)
    requires Coherent(g)
    ensures Coherent(Step(g, e))
  {
    match e
    case FrameRan(shiftX, shiftY) =>
      var k := ProcessKeys(g);
      assert Coherent(k);
      if k.display == Play {
        var p := PlayFrame(k.(modeInitialized := true), shiftX, shiftY);
        assert Coherent(p);
      }
    case _ =>
  }

  /** So is every run of events, and in particular every run from the start. */
  lemma {:induction false} RunCoherent(g: Game, es: seq<Event>)
    requires Coherent(g)
    ensures Coherent(Run(g, es))
    decreases |es|
  {
    if |es| > 0 {
      StepCoherent(g, es[0]);
      RunCoherent(Step(g, es[0]), es[1..]);
    }
  }

  /** A dead avatar stays dead through any run without the Restart button. */
  lemma {:induction false} DeathIsTerminalUntilRestart(g: Game, es: seq<Event>)
    requires !g.avatar.alive
    requires forall k | 0 <= k < |es| :: es[k] != RestartPressed
    ensures !Run(g, es).avatar.alive
    decreases |es|
  {
    if |es| > 0 {
      RunDeadStep(g, es[0]);
      DeathIsTerminalUntilRestart(Step(g, es[0]), es[1..]);
    }
  }

  lemma RunDeadStep(g: Game, e: Event)
    requires !g.avatar.alive && e != RestartPressed
    ensures !Step(g, e).avatar.alive
  {
  }

  /** Pressing escape in play and again in the menu, with frames in between,
      comes back to play with the clock where it stood and the fog gone. */
  lemma EscapeTwice(g: Game, shiftX: real, shiftY: real)
    requires Coherent(g) && g.display == Play && g.keys.escape
    ensures var menu := Frame(g, shiftX, shiftY);
      var back := Frame(menu.(keys := menu.keys.(escape := true)), shiftX, shiftY);
      && menu.display == InGameMenu && menu.paused == Some(g.frameTime)
      && back.paused.None? && back.frameTime == g.frameTime && !back.fogged
      && (back.display == Play || back.display == Dead)
  {
  }

  /** The top button sits as far above `height / 2` as the bottom one sits below it. */
  lemma CenteredStart(spacing: real, height: real, n: int)
    requires n > 0
    ensures var centerOffset := if n % 2 == 0 then spacing / 2.0 else 0.0;
      2.0 * (centerOffset + (((n - 1) / 2) as real) * spacing + height / 2.0) == ((n - 1) as real) * spacing + height
  {
    var half := (n - 1) / 2;
    assert 2.0 * ((half as real) * spacing) == ((2 * half) as real) * spacing;
    if n % 2 == 0 {
      assert 2 * half == n - 2;
      assert ((n - 2) as real) * spacing + spacing == ((n - 1) as real) * spacing;
    } else {
      assert 2 * half == n - 1;
    }
  }

  /** Evenly stepped values whose first and last sum to `height` pair up to
      `height` from both ends. */
  lemma Symmetric(r: seq<real>, first: real, spacing: real, height: real)
    requires |r| > 0
    requires forall j | 0 <= j < |r| :: r[j] == first - (j as real) * spacing
    requires 2.0 * first == ((|r| - 1) as real) * spacing + height
    ensures forall i | 0 <= i < |r| :: r[i] + r[|r| - 1 - i] == height
  {
    forall i | 0 <= i < |r| ensures r[i] + r[|r| - 1 - i] == height {
      var k := |r| - 1 - i;
      assert (i as real) * spacing + (k as real) * spacing == ((i + k) as real) * spacing;
    }
  }

  /** The vertical positions of `n` evenly spaced buttons of height `height`,
      `spacing` apart from top to bottom, centred on `height / 2`. The middle
      index uses integer division, which floors as Python 2's does. */
  method EvenButtonPositions(spacing: real, height: real, n: int) returns (r: seq<real>)
    ensures |r| == if n > 0 then n else 0
    ensures forall i | 0 <= i < |r| :: r[i] == r[0] - (i as real) * spacing
    ensures forall i | 0 <= i < |r| :: r[i] + r[|r| - 1 - i] == height
  {
    var centerOffset := if n % 2 == 0 then spacing / 2.0 else 0.0;
    var half := (n - 1) / 2;
    var current := centerOffset + (half as real) * spacing;
    var first := current + height / 2.0;
    r := [];
    var i := 0;
    while i < n
      invariant 0 <= i <= (if n > 0 then n else 0)
      invariant |r| == i
      invariant current == first - height / 2.0 - (i as real) * spacing
      invariant forall j | 0 <= j < i :: r[j] == first - (j as real) * spacing
    {
      r := r + [current + height / 2.0];
      current := current - spacing;
      i := i + 1;
    }
    if n > 0 {
      CenteredStart(spacing, height, n);
      Symmetric(r, first, spacing, height);
    }
  }
}
