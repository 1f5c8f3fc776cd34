/** The game's module-level state and its two objects, updated in place by the
    frame update, the jump key and the restart button. */
module Runner {
  import opened Geometry
  import opened Rules

  /** The player's character; only its vertical state changes. */
  class Dino {
    const x: real := DinoX
    const width: real := DinoWidth
    const height: real := DinoHeight
    var y: real
    var vy: real
    var isJumping: bool

    constructor (ground: real)
      ensures y == ground && vy == 0.0 && !isJumping
    {
      y := ground;
      vy := 0.0;
      isJumping := false;
    }

    function MotionState(): Motion
      reads this
    {
      Motion(y, vy, isJumping)
    }

    function Bounds(): Rect
      reads this
    {
      Rect(x, y, width, height)
    }

    /** The jump physics of one frame, landing on `ground`. */
    method Fall(ground: real)
      modifies this
      ensures MotionState() == Rules.Fall(ground, old(MotionState()))
    {
      if isJumping {
        vy := vy + Gravity;
        y := y + vy;
        if y >= ground {
          y := ground;
          isJumping := false;
          vy := 0.0;
        }
      }
    }
  }

  /** The cactus; only its horizontal position changes. */
  class Obstacle {
    var x: real
    const y: real
    const width: real := ObstacleWidth
    const height: real := ObstacleHeight

    constructor (canvasWidth: nat, canvasHeight: nat)
      ensures x == canvasWidth as real && y == canvasHeight as real - ObstacleHeight
    {
      x := canvasWidth as real;
      y := canvasHeight as real - ObstacleHeight;
    }

    function Bounds(): Rect
      reads this
    {
      Rect(x, y, width, height)
    }

    /** The obstacle's movement of one frame, recycled to `canvasWidth + r`. */
    method Advance(speed: int, canvasWidth: nat, r: real)
      modifies this
      ensures x == Rules.Advance(canvasWidth, old(x), speed, r)
    {
      x := x - speed as real;
      if x + width < 0.0 {
        x := canvasWidth as real + r;
      }
    }
  }

  class Game {
    const canvasWidth: nat
    const canvasHeight: nat
    var gameSpeed: int
    var gameOver: bool
    var score: int
    var lastMilestone: int
    var highScore: int
    const dino: Dino
    const obstacle: Obstacle

    function Surface(): Canvas {
      Canvas(canvasWidth, canvasHeight)
    }

    /** The abstract value of the game: what the rules speak about. */
    function State(): Snapshot
      reads this, dino, obstacle
    {
      Snapshot(score, highScore, gameSpeed, lastMilestone, gameOver,
               dino.MotionState(), obstacle.x)
    }

    ghost predicate Valid()
      reads this, dino, obstacle
    {
      && obstacle.y == canvasHeight as real - ObstacleHeight
      && Inv(Surface(), State())
    }

    /** Page load; `storedBest` is the number read from the browser's storage. */
    constructor (canvasWidth: nat, canvasHeight: nat, storedBest: int)
      ensures Valid() && fresh(dino) && fresh(obstacle)
      ensures this.canvasWidth == canvasWidth && this.canvasHeight == canvasHeight
      ensures State() == Initial(Surface(), storedBest)
    {
      this.canvasWidth := canvasWidth;
      this.canvasHeight := canvasHeight;
      gameSpeed := InitialGameSpeed;
      gameOver := false;
      score := 0;
      lastMilestone := 0;
      highScore := storedBest;
      dino := new Dino(canvasHeight as real - DinoHeight);
      obstacle := new Obstacle(canvasWidth, canvasHeight);
    }

    /** One frame; `r` stands for `Math.random() * 200`. */
    method Update(r: real)
      requires Valid() && 0.0 <= r < RespawnRange
      modifies this, dino, obstacle
      ensures Valid()
      ensures State() == Tick(Surface(), old(State()), r)
      ensures old(gameOver) ==> State() == old(State())
      ensures !old(gameOver) ==> score == old(score) + 1 && highScore >= score
    {
      ghost var s := State();
      ghost var t := Tick(Surface(), s, r);
      TickPreservesInv(Surface(), s, r);
      if gameOver {
        return;
      }
      score := score + 1;

      if score > highScore {
        highScore := score;
      }

      if score > 0 && score % MilestoneInterval == 0 && score != lastMilestone {
        gameSpeed := gameSpeed + 1;
        lastMilestone := score;
      }

      dino.Fall(canvasHeight as real - dino.height);
      obstacle.Advance(gameSpeed, canvasWidth, r);

      if Collides(dino.Bounds(), obstacle.Bounds()) {
        gameOver := true;
      }
      assert State() == t;
    }

    /** The keydown handler: `code` is the key's code. */
    method KeyDown(code: string)
      requires Valid()
      modifies dino
      ensures Valid()
      ensures State() == if code == "Space" then Jump(old(State())) else old(State())
    {
      JumpPreservesInv(Surface(), State());
      if code == "Space" && !dino.isJumping && !gameOver {
        dino.isJumping := true;
        dino.vy := JumpImpulse;
      }
    }

    /** The restart button's click handler. */
    method Restart()
      requires Valid()
      modifies this, dino, obstacle
      ensures Valid()
      ensures State() == Reset(Surface(), old(State()))
      ensures State() == Initial(Surface(), old(highScore))
    {
      gameOver := false;
      score := 0;
      lastMilestone := 0;
      gameSpeed := InitialGameSpeed;
      dino.y := canvasHeight as real - dino.height;
      dino.isJumping := false;
      dino.vy := 0.0;
      obstacle.x := canvasWidth as real;
    }
  }
}
