/** The per-frame rules of the runner, as functions on a snapshot of the game's
    mutable state. The `Runner` module's classes are proved to follow them. */
module Rules {
  import opened Geometry

  const InitialGameSpeed: int := 5
  const Gravity: real := 0.5
  /** Vertical velocity given by a jump (negative is upwards on the canvas). */
  const JumpImpulse: real := -10.0
  /** The speed rises once every this many points. */
  const MilestoneInterval: int := 100
  /** A recycled obstacle reappears up to this far past the right edge. */
  const RespawnRange: real := 200.0

  const DinoX: real := 50.0
  const DinoWidth: real := 44.0
  const DinoHeight: real := 47.0
  const ObstacleWidth: real := 25.0
  const ObstacleHeight: real := 40.0

  /** The drawing surface; its size comes from the page and is fixed for the session. */
  datatype Canvas = Canvas(width: nat, height: nat)

  /** The dino's vertical state: position of its top edge, velocity, airborne flag. */
  datatype Motion = Motion(y: real, vy: real, isJumping: bool)

  /** Everything `update`, the jump key and the restart button change. */
  datatype Snapshot = Snapshot(
    score: int,
    highScore: int,
    gameSpeed: int,
    lastMilestone: int,
    gameOver: bool,
    dino: Motion,
    obstacleX: real)

  /** The y coordinate of a dino standing on the bottom edge of the canvas. */
  function Ground(c: Canvas): real {
    c.height as real - DinoHeight
  }

  function DinoRect(m: Motion): Rect {
    Rect(DinoX, m.y, DinoWidth, DinoHeight)
  }

  function ObstacleRect(c: Canvas, x: real): Rect {
    Rect(x, c.height as real - ObstacleHeight, ObstacleWidth, ObstacleHeight)
  }

  /** State at page load: `storedBest` is what the browser's storage held. */
  function Initial(c: Canvas, storedBest: int): (s: Snapshot)
    ensures Inv(c, s)
  {
    Snapshot(0, storedBest, InitialGameSpeed, 0, false, Motion(Ground(c), 0.0, false), c.width as real)
  }

  // ---------- one tick ----------

  /** The best score after a tick that reached `score`. */
  function NextBest(best: int, score: int): (b: int)
    ensures b >= best && b >= score
    ensures b == best || b == score
  {
    if score > best then score else best
  }

  /** The speed-up fires for a positive multiple of the interval not already rewarded. */
  function MilestoneDue(score: int, lastMilestone: int): (due: bool)
    ensures due ==> score >= MilestoneInterval && score != lastMilestone
  {
    score > 0 && score % MilestoneInterval == 0 && score != lastMilestone
  }

  /** One step of the jump integrator, with landing on `ground`. */
  function Fall(ground: real, m: Motion): (n: Motion)
    ensures n.y <= ground || n == m
    ensures !m.isJumping ==> n == m
    ensures m.isJumping ==> (n.isJumping <==> m.y + m.vy + Gravity < ground)
    ensures m.isJumping && !n.isJumping ==> n.y == ground && n.vy == 0.0
    ensures n.isJumping ==> n.y < ground && n.vy == m.vy + Gravity && n.y == m.y + n.vy
  {
    if !m.isJumping then m
    else
      var vy := m.vy + Gravity;
      var y := m.y + vy;
      if y >= ground then Motion(ground, 0.0, false) else Motion(y, vy, true)
  }

  /** The obstacle's next x: moved left by `speed`, recycled to `width + r` once
      its right edge has passed the left edge of the canvas. */
  function Advance(width: nat, x: real, speed: int, r: real): (nx: real)
    ensures x - speed as real + ObstacleWidth >= 0.0 ==> nx == x - speed as real
    ensures x - speed as real + ObstacleWidth < 0.0 ==> nx == width as real + r
  {
    var moved := x - speed as real;
    if moved + ObstacleWidth < 0.0 then width as real + r else moved
  }

  /** One call of `update`. */
  function Tick(c: Canvas, s: Snapshot, r: real): (t: Snapshot)
    ensures s.gameOver ==> t == s
    ensures !s.gameOver ==> t.score == s.score + 1 && t.highScore >= t.score
    ensures t.highScore >= s.highScore
    ensures !s.gameOver ==> t.gameOver == Collides(DinoRect(t.dino), ObstacleRect(c, t.obstacleX))
  {
    if s.gameOver then s
    else
      var score := s.score + 1;
      var due := MilestoneDue(score, s.lastMilestone);
      var speed := if due then s.gameSpeed + 1 else s.gameSpeed;
      var dino := Fall(Ground(c), s.dino);
      var ox := Advance(c.width, s.obstacleX, speed, r);
      Snapshot(
        score,
        NextBest(s.highScore, score),
        speed,
        if due then score else s.lastMilestone,
        Collides(DinoRect(dino), ObstacleRect(c, ox)),
        dino,
        ox)
  }

  // ---------- input ----------

  /** The jump key: accepted only on the ground and while the run is live. */
  function Jump(s: Snapshot): (t: Snapshot)
    ensures !s.dino.isJumping && !s.gameOver ==> t.dino == Motion(s.dino.y, JumpImpulse, true)
    ensures s.dino.isJumping || s.gameOver ==> t == s
    ensures t.(dino := s.dino) == s
  {
    if !s.dino.isJumping && !s.gameOver then s.(dino := Motion(s.dino.y, JumpImpulse, true)) else s
  }

  /** The restart button: a new run, keeping the best score. */
  function Reset(c: Canvas, s: Snapshot): (t: Snapshot)
    ensures t == Initial(c, s.highScore)
  {
    s.(gameOver := false, score := 0, lastMilestone := 0, gameSpeed := InitialGameSpeed,
       dino := Motion(Ground(c), 0.0, false), obstacleX := c.width as real)
  }

  // ---------- invariant ----------

  /** `v` is a multiple of one half. */
  predicate OnHalfGrid(v: real) {
    (2.0 * v).Floor as real == 2.0 * v
  }

  /** Height above the ground (negative is up) of a dino that took off with
      `JumpImpulse` and now moves at `v`: the discrete form of energy conservation. */
  function Rise(v: real): real {
    (v * v - JumpImpulse * JumpImpulse) / (2.0 * Gravity) + (v - JumpImpulse) / 2.0
  }

  predicate MotionInv(ground: real, m: Motion) {
    && m.y <= ground
    && if m.isJumping then OnHalfGrid(m.vy) && m.y == ground + Rise(m.vy)
       else m.y == ground && m.vy == 0.0
  }

  /** What holds of every snapshot the game can reach. */
  predicate Inv(c: Canvas, s: Snapshot) {
    && s.score >= 0
    && (s.score == 0 || s.score <= s.highScore)
    && s.lastMilestone == s.score / MilestoneInterval * MilestoneInterval
    && s.gameSpeed == InitialGameSpeed + s.score / MilestoneInterval
    && MotionInv(Ground(c), s.dino)
    && -ObstacleWidth <= s.obstacleX < c.width as real + RespawnRange
    && (s.gameOver ==> Collides(DinoRect(s.dino), ObstacleRect(c, s.obstacleX)))
  }

  /** A sequence of draws of `Math.random() * 200`. */
  predicate Draws(rs: seq<real>) {
    forall i :: 0 <= i < |rs| ==> 0.0 <= rs[i] < RespawnRange
  }

  // ---------- lemmas about one tick ----------

  /** The speed-up fires at a tick exactly when the new score is a multiple of the interval. */
  lemma MilestoneStep(score: int, lastMilestone: int)
    requires score >= 0 && lastMilestone == score / MilestoneInterval * MilestoneInterval
    ensures MilestoneDue(score + 1, lastMilestone) <==> (score + 1) % MilestoneInterval == 0
    ensures (score + 1) / MilestoneInterval ==
            score / MilestoneInterval + (if (score + 1) % MilestoneInterval == 0 then 1 else 0)
  {
  }

  lemma RiseStep(v: real)
    ensures Rise(v + Gravity) == Rise(v) + v + Gravity
  {
  }

  /** The jump integrator keeps the dino on or above the ground, on its arc. */
  lemma FallKeepsMotionInv(ground: real, m: Motion)
    requires MotionInv(ground, m)
    ensures MotionInv(ground, Fall(ground, m))
  {
    if m.isJumping {
      var n := Fall(ground, m);
      if n.isJumping {
        RiseStep(m.vy);
        assert n.y == ground + Rise(n.vy);
        var k := (2.0 * m.vy).Floor;
        assert 2.0 * n.vy == k as real + 1.0;
        assert (2.0 * n.vy).Floor == k + 1;
      }
    }
  }

  /** Moving and recycling keeps the obstacle between its left limit and the respawn band. */
  lemma AdvanceBounds(width: nat, x: real, speed: int, r: real)
    requires -ObstacleWidth <= x < width as real + RespawnRange
    requires speed > 0 && 0.0 <= r < RespawnRange
    ensures -ObstacleWidth <= Advance(width, x, speed, r) < width as real + RespawnRange
    ensures Advance(width, x, speed, r) == x - speed as real || width as real <= Advance(width, x, speed, r)
  {
  }

  /** At speed 5 an obstacle one unit past the left edge reappears at or beyond
      the right edge. */
  lemma RecycleExample(width: nat, r: real)
    requires 0.0 <= r < RespawnRange
    ensures Advance(width, -ObstacleWidth - 1.0, 5, r) >= width as real
  {
  }

  /** Every tick keeps the invariant; in particular the speed stays
      `InitialGameSpeed + score / 100`, so it rises once per hundred points. */
  lemma TickPreservesInv(c: Canvas, s: Snapshot, r: real)
    requires Inv(c, s) && 0.0 <= r < RespawnRange
    ensures Inv(c, Tick(c, s, r))
  {
    if !s.gameOver {
      MilestoneStep(s.score, s.lastMilestone);
      FallKeepsMotionInv(Ground(c), s.dino);
      var t := Tick(c, s, r);
      AdvanceBounds(c.width, s.obstacleX, t.gameSpeed, r);
    }
  }

  /** The speed rises by one exactly when the milestone is due, and never falls. */
  lemma TickSpeed(c: Canvas, s: Snapshot, r: real)
    requires !s.gameOver
    ensures Tick(c, s, r).gameSpeed ==
            s.gameSpeed + (if MilestoneDue(s.score + 1, s.lastMilestone) then 1 else 0)
    ensures MilestoneDue(s.score + 1, s.lastMilestone) ==> Tick(c, s, r).lastMilestone == s.score + 1
  {
  }

  /** The dino never rises more than 95 units above the ground. */
  lemma ApexBound(c: Canvas, s: Snapshot)
    requires Inv(c, s)
    ensures Ground(c) - 95.0 <= s.dino.y <= Ground(c)
  {
    if s.dino.isJumping {
      var v := s.dino.vy;
      var k := (2.0 * v).Floor;
      var kr := k as real;
      assert v == kr / 2.0;
      assert Rise(v) == kr * (kr + 1.0) / 4.0 - 95.0;
      assert k * (k + 1) >= 0 by {
        if k < 0 { assert k + 1 <= 0; }
      }
      assert kr * (kr + 1.0) == (k * (k + 1)) as real;
    }
  }

  // ---------- jump and restart ----------

  /** A second jump request in mid-air, or any request once the game is over, does nothing. */
  lemma JumpTwice(s: Snapshot)
    ensures Jump(Jump(s)) == Jump(s)
  {
  }

  lemma JumpPreservesInv(c: Canvas, s: Snapshot)
    requires Inv(c, s)
    ensures Inv(c, Jump(s))
  {
  }

  lemma ResetPreservesInv(c: Canvas, s: Snapshot)
    ensures Inv(c, Reset(c, s))
  {
  }

  // ---------- runs of several ticks ----------

  /** The game after one tick per element of `rs`, with no input in between. */
  function Run(c: Canvas, s: Snapshot, rs: seq<real>): (t: Snapshot)
    ensures s.score <= t.score && s.highScore <= t.highScore
    decreases |rs|
  {
    if rs == [] then s else Run(c, Tick(c, s, rs[0]), rs[1..])
  }

  /** Game over is absorbing: no number of ticks changes a finished game. */
  lemma {:induction false} RunFrozen(c: Canvas, s: Snapshot, rs: seq<real>)
    requires s.gameOver
    ensures Run(c, s, rs) == s
    decreases |rs|
  {
    if rs != [] {
      RunFrozen(c, Tick(c, s, rs[0]), rs[1..]);
    }
  }

  /** One point per tick played: the score gains exactly `|rs|` if the run is still
      live at the end, at most that otherwise, and the best score never falls. */
  lemma {:induction false} RunScore(c: Canvas, s: Snapshot, rs: seq<real>)
    ensures Run(c, s, rs).score <= s.score + |rs|
    ensures !Run(c, s, rs).gameOver ==> Run(c, s, rs).score == s.score + |rs|
    ensures Run(c, s, rs).highScore >= s.highScore
    decreases |rs|
  {
    if rs != [] {
      if s.gameOver {
        RunFrozen(c, s, rs);
      } else {
        RunScore(c, Tick(c, s, rs[0]), rs[1..]);
      }
    }
  }

  /** Any run keeps the invariant. */
  lemma {:induction false} RunPreservesInv(c: Canvas, s: Snapshot, rs: seq<real>)
    requires Inv(c, s) && Draws(rs)
    ensures Inv(c, Run(c, s, rs))
    decreases |rs|
  {
    if rs != [] {
      TickPreservesInv(c, s, rs[0]);
      RunPreservesInv(c, Tick(c, s, rs[0]), rs[1..]);
    }
  }

  /** A run from a fresh start raises the speed once per hundred points scored. */
  lemma RunSpeedUps(c: Canvas, best: int, rs: seq<real>)
    requires Draws(rs)
    ensures Run(c, Initial(c, best), rs).gameSpeed ==
            InitialGameSpeed + Run(c, Initial(c, best), rs).score / MilestoneInterval
  {
    RunPreservesInv(c, Initial(c, best), rs);
  }
}
