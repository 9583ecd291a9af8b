/** The scene rules of robot/client/js/game.js: the walking figure's random step,
    its animation frame table, and the page's single game instance. */
module Game {
  import opened Wrappers

  datatype Direction = Up | Down | Left | Right

  /** The name used in animation keys. */
  function DirectionName(d: Direction): string {
    match d
    case Up => "up"
    case Down => "down"
    case Left => "left"
    case Right => "right"
  }

  const MOVE_DISTANCE: int := 100
  const MIN_X: int := 50
  const MAX_X: int := 750
  const MIN_Y: int := 50
  const MAX_Y: int := 550

  /** Where the figure is placed when the scene is created. */
  const START_X: int := 400
  const START_Y: int := 300

  /** Phaser.Math.Clamp(v, lo, hi), that is max(lo, min(hi, v)). */
  function Clamp(v: int, lo: int, hi: int): (r: int)
    requires lo <= hi
    ensures lo <= r <= hi
    ensures lo <= v <= hi ==> r == v
    ensures r != v ==> (v < lo && r == lo) || (v > hi && r == hi)
  {
    if v < lo then lo else if v > hi then hi else v
  }

  /** The point one move along d, before clamping: up is towards smaller y. */
  function Step(x: int, y: int, d: Direction): (int, int) {
    match d
    case Up => (x, y - MOVE_DISTANCE)
    case Down => (x, y + MOVE_DISTANCE)
    case Left => (x - MOVE_DISTANCE, y)
    case Right => (x + MOVE_DISTANCE, y)
  }

  /** The point changeDirection moves the figure to: the step, clamped to the box. */
  function Target(x: int, y: int, d: Direction): (int, int) {
    var (sx, sy) := Step(x, y, d);
    (Clamp(sx, MIN_X, MAX_X), Clamp(sy, MIN_Y, MAX_Y))
  }

  predicate InBox(x: int, y: int) {
    MIN_X <= x <= MAX_X && MIN_Y <= y <= MAX_Y
  }

  /** Wherever the figure starts, its target lies in [50, 750] x [50, 550]. */
  lemma TargetInBox(x: int, y: int, d: Direction)
    ensures InBox(Target(x, y, d).0, Target(x, y, d).1)
  {
  }

  /** Before clamping exactly one coordinate changes, by exactly 100, with the sign
      the direction gives. */
  lemma StepMovesOneCoordinate(x: int, y: int, d: Direction)
    ensures (Step(x, y, d).0 == x) != (Step(x, y, d).1 == y)
    ensures Step(x, y, d).0 - x == match d case Left => -100 case Right => 100 case _ => 0
    ensures Step(x, y, d).1 - y == match d case Up => -100 case Down => 100 case _ => 0
  {
  }

  /** From a point inside the box the coordinate across the move is left alone,
      and the one along it moves by at most 100 the right way. */
  lemma TargetFromInside(x: int, y: int, d: Direction)
    requires InBox(x, y)
    ensures d in {Up, Down} ==> Target(x, y, d).0 == x
    ensures d in {Left, Right} ==> Target(x, y, d).1 == y
    ensures d == Up ==> y - 100 <= Target(x, y, d).1 <= y
    ensures d == Down ==> y <= Target(x, y, d).1 <= y + 100
    ensures d == Left ==> x - 100 <= Target(x, y, d).0 <= x
    ensures d == Right ==> x <= Target(x, y, d).0 <= x + 100
  {
  }

  /** The target is the plain step exactly when the step stays in the box. */
  lemma TargetIsStepInside(x: int, y: int, d: Direction)
    ensures Target(x, y, d) == Step(x, y, d) <==> InBox(Step(x, y, d).0, Step(x, y, d).1)
  {
  }

  // ---------------------------------------------------------------------------
  // The animation table of createAnimations.

  /** The animation key changeDirection plays: `walk_${direction}`. */
  function WalkKey(d: Direction): string {
    "walk_" + DirectionName(d)
  }

  /** The first and last sprite-sheet frame of each walking animation. */
  function WalkFrames(d: Direction): (nat, nat) {
    match d
    case Down => (0, 2)
    case Left => (3, 5)
    case Right => (6, 8)
    case Up => (9, 11)
  }

  const FRAME_RATE: int := 8
  /** Phaser's `repeat: -1`: the animation loops until another one is played. */
  const REPEAT_FOREVER: int := -1

  /** One `anims.create` configuration: the frame range of the sprite sheet, the
      frame rate and the repeat count. */
  datatype Animation = Animation(first: nat, last: nat, frameRate: int, repeat: int)

  /** The configuration createAnimations gives the walk towards d. */
  function WalkAnimation(d: Direction): Animation {
    Animation(WalkFrames(d).0, WalkFrames(d).1, FRAME_RATE, REPEAT_FOREVER)
  }

  /** The animations createAnimations registers, by key. */
  function Animations(): map<string, Animation> {
    map[WalkKey(Down) := WalkAnimation(Down), WalkKey(Left) := WalkAnimation(Left),
        WalkKey(Right) := WalkAnimation(Right), WalkKey(Up) := WalkAnimation(Up)]
  }

  predicate HasFrame(d: Direction, f: int) {
    WalkFrames(d).0 <= f <= WalkFrames(d).1
  }

  /** Which direction's animation a frame belongs to. */
  function FrameOwner(f: nat): Direction
    requires f < 12
  {
    if f < 3 then Down else if f < 6 then Left else if f < 9 then Right else Up
  }

  /** Each animation has three frames, and the four ranges split frames 0 to 11
      between them: every frame of the sheet belongs to exactly one direction. */
  lemma FramesPartitionSheet()
    ensures forall d: Direction :: WalkFrames(d).1 - WalkFrames(d).0 + 1 == 3
    ensures forall d: Direction, f: int :: HasFrame(d, f) <==> 0 <= f < 12 && FrameOwner(f) == d
  {
  }

  /** The four keys are distinct and every key changeDirection can play is one
      createAnimations registered, with that direction's frames, 8 frames per
      second, looping forever. */
  lemma WalkKeysRegistered(d: Direction, e: Direction)
    ensures WalkKey(d) in Animations()
    ensures Animations()[WalkKey(d)] == Animation(WalkFrames(d).0, WalkFrames(d).1, 8, -1)
    ensures |Animations()| == 4
    ensures WalkKey(d) == WalkKey(e) ==> d == e
  {
    assert WalkKey(d)[5] == DirectionName(d)[0];
    assert WalkKey(e)[5] == DirectionName(e)[0];
    assert WalkKey(Down)[5] == 'd' && WalkKey(Left)[5] == 'l';
    assert WalkKey(Right)[5] == 'r' && WalkKey(Up)[5] == 'u';
    assert Animations().Keys == {WalkKey(Down), WalkKey(Left), WalkKey(Right), WalkKey(Up)};
  }

  /** The mutable part of GameScene: the facing direction, the figure's position
      and the animations started on it. */
  class Scene {
    var currentDirection: Direction
    var x: int
    var y: int
    /** The keys passed to people.play, oldest first. */
    var played: seq<string>

    constructor ()
      ensures currentDirection == Down && x == START_X && y == START_Y && played == []
    {
      currentDirection := Down;
      x, y := START_X, START_Y;
      played := [];
    }

    /** changeDirection with `newDirection` the direction Math.random picked. The
        direction and the animation are updated first; the position then moves to
        the clamped step (the 2000 ms tween ends before the 3000 ms timer fires
        again, so the next call starts from the tween's end point). */
    method ChangeDirection(newDirection: Direction)
      modifies this
      ensures currentDirection == newDirection
      ensures played == if newDirection != old(currentDirection) then old(played) + [WalkKey(newDirection)]
                        else old(played)
      ensures (x, y) == Target(old(x), old(y), newDirection)
    {
      if newDirection != currentDirection {
        currentDirection := newDirection;
        played := played + [WalkKey(newDirection)];
      }
      var newX, newY := x, y;
      match newDirection {
        case Up => newY := newY - MOVE_DISTANCE;
        case Down => newY := newY + MOVE_DISTANCE;
        case Left => newX := newX - MOVE_DISTANCE;
        case Right => newX := newX + MOVE_DISTANCE;
      }
      newX := Clamp(newX, MIN_X, MAX_X);
      newY := Clamp(newY, MIN_Y, MAX_Y);
      x, y := newX, newY;
    }
  }

  /** The global `game` of showGame and hideGame: null or one Phaser.Game. Instances
      are numbered in order of creation. */
  class GamePanel {
    var game: Option<nat>
    /** How many times `new Phaser.Game(config)` ran. */
    var created: nat
    /** The instances game.destroy(true) was called on, oldest first. */
    var destroyed: seq<nat>

    ghost predicate Valid()
      reads this
    {
      (game.Some? ==> game.value < created) &&
      (forall i :: 0 <= i < |destroyed| ==> destroyed[i] < created)
    }

    constructor ()
      ensures Valid() && game == None && created == 0 && destroyed == []
    {
      game, created, destroyed := None, 0, [];
    }

    /** showGame: a game is created only when none exists. */
    method ShowGame()
      requires Valid()
      modifies this
      ensures Valid() && game.Some? && destroyed == old(destroyed)
      ensures old(game).Some? ==> game == old(game) && created == old(created)
      ensures old(game).None? ==> game == Some(old(created)) && created == old(created) + 1
    {
      if game.None? {
        game := Some(created);
        created := created + 1;
      }
    }

    /** hideGame: the game, if any, is destroyed, and `game` is null afterwards. */
    method HideGame()
      requires Valid()
      modifies this
      ensures Valid() && game == None && created == old(created)
      ensures destroyed == old(destroyed) + if old(game).Some? then [old(game).value] else []
    {
      if game.Some? {
        destroyed := destroyed + [game.value];
        game := None;
      }
    }
  }

  /** Repeated showGame calls keep one instance: the second creates nothing. */
  method ShowGameTwice(panel: GamePanel)
    requires panel.Valid()
    modifies panel
    ensures panel.game.Some? && panel.created <= old(panel.created) + 1
  {
    panel.ShowGame();
    var first := panel.game;
    panel.ShowGame();
    assert panel.game == first;
  }
}
