// The ball's per-frame update of src/App.js as a pure reference definition.
//
// One frame runs, in this order: the left-paddle check, the right-paddle check,
// the top/bottom wall check and the integration of the position. The velocity
// is a React state value captured by the frame callback: every check and the
// integration read the velocity as it was when the frame began, and each
// `setVelocity` call only queues a new value, the last queued one winning.

module BallPhysics {
  import opened Geometry
  import MatchStore

  /** The ball's radius (a constant of the Ball component). */
  const Radius: real := 0.25

  /** The velocity a new ball starts with. */
  const InitialVelocity: Vec3 := Vec3(0.05, 0.03, 0.0)

  datatype Side = Left | Right

  /** What the ball carries from frame to frame. */
  datatype BallState = BallState(pos: Vec3, vel: Vec3)

  /** What the ball reads from outside in one frame: the field size and the
      paddle offsets and dimensions from the shared store. */
  datatype Arena = Arena(fieldWidth: real, fieldHeight: real,
                         leftPaddleY: real, rightPaddleY: real,
                         paddleWidth: real, paddleHeight: real)

  /** Within a frame: the position as the checks have left it so far and the
      velocity last passed to `setVelocity` (the velocity itself when none was). */
  datatype Frame = Frame(pos: Vec3, queued: Vec3)

  function Offset(side: Side, a: Arena): real {
    match side
    case Left => a.leftPaddleY
    case Right => a.rightPaddleY
  }

  /** The ball's leading edge is past this side's collision plane and the
      captured velocity points toward that side. */
  predicate Crossed(side: Side, x: real, vx: real, a: Arena): (b: bool)
    ensures b && side == Left ==> vx < 0.0
    ensures b && side == Right ==> vx > 0.0
  {
    match side
    case Left => x - Radius < -0.5 * a.fieldWidth + 0.5 * a.paddleWidth && vx < 0.0
    case Right => x + Radius > 0.5 * a.fieldWidth - 0.5 * a.paddleWidth && vx > 0.0
  }

  /** The ball's vertical span overlaps the paddle's band, strictly: a ball
      whose edge only touches the band's edge is a miss. Equivalently the
      ball's centre is strictly closer to the paddle's centre than half the
      band plus the radius. */
  function BandOverlap(y: real, offset: real, height: real): (b: bool)
    ensures b <==> Abs(y - offset) < 0.5 * height + Radius
  {
    y - Radius < offset + 0.5 * height && y + Radius > offset - 0.5 * height
  }

  /** The ball is beyond the top or bottom edge and still moving outward. */
  predicate WallHit(y: real, vy: real, a: Arena): (b: bool)
    ensures b ==> Abs(y) > 0.5 * a.fieldHeight
    ensures b && a.fieldHeight >= 0.0 ==> (y < 0.0 && vy < 0.0) || (y > 0.0 && vy > 0.0)
  {
    (y < -0.5 * a.fieldHeight && vy < 0.0) || (y > 0.5 * a.fieldHeight && vy > 0.0)
  }

  /** One paddle check. A return clamps x into the field; a miss puts x and y
      back to 0. Either way the queued velocity is the captured one with x reflected. */
  function PaddleCheck(side: Side, f: Frame, v: Vec3, a: Arena): (r: Frame)
    ensures !Crossed(side, f.pos.x, v.x, a) ==> r == f
    ensures Crossed(side, f.pos.x, v.x, a) ==> r.queued == ReflectX(v)
    ensures Crossed(side, f.pos.x, v.x, a) && a.fieldWidth >= 0.0 ==>
      -0.5 * a.fieldWidth <= r.pos.x <= 0.5 * a.fieldWidth
    ensures r.pos.z == f.pos.z
  {
    if Crossed(side, f.pos.x, v.x, a) then
      if BandOverlap(f.pos.y, Offset(side, a), a.paddleHeight) then
        Frame(Vec3(Clamp(f.pos.x, -0.5 * a.fieldWidth, 0.5 * a.fieldWidth), f.pos.y, f.pos.z), ReflectX(v))
      else
        Frame(Vec3(0.0, 0.0, f.pos.z), ReflectX(v))
    else
      f
  }

  /** The wall check: clamps y into the field and queues the captured
      velocity with y reflected. */
  function WallCheck(f: Frame, v: Vec3, a: Arena): (r: Frame)
    ensures !WallHit(f.pos.y, v.y, a) ==> r == f
    ensures WallHit(f.pos.y, v.y, a) ==> r.queued == ReflectY(v)
    ensures WallHit(f.pos.y, v.y, a) && a.fieldHeight >= 0.0 ==>
      -0.5 * a.fieldHeight <= r.pos.y <= 0.5 * a.fieldHeight
    ensures r.pos.x == f.pos.x && r.pos.z == f.pos.z
  {
    if WallHit(f.pos.y, v.y, a) then
      Frame(Vec3(f.pos.x, Clamp(f.pos.y, -0.5 * a.fieldHeight, 0.5 * a.fieldHeight), f.pos.z), ReflectY(v))
    else
      f
  }

  /** One frame of the ball. Each new velocity component is plus or minus the
      old one, the depth component never changes, the depth advances by the old
      depth velocity, and a ball at rest stays where it is. */
  function Step(s: BallState, a: Arena): (r: BallState)
    ensures r.vel.x == s.vel.x || r.vel.x == -s.vel.x
    ensures r.vel.y == s.vel.y || r.vel.y == -s.vel.y
    ensures r.vel.z == s.vel.z
    ensures r.pos.z == s.pos.z + s.vel.z
    ensures s.vel == Zero ==> r == s
  {
    var v := s.vel;
    var f := WallCheck(PaddleCheck(Right, PaddleCheck(Left, Frame(s.pos, v), v, a), v, a), v, a);
    BallState(Add(f.pos, v), f.queued)
  }

  /** `n` consecutive frames with the arena held fixed. */
  function Run(s: BallState, a: Arena, n: nat): BallState
    decreases n
  {
    if n == 0 then s else Run(Step(s, a), a, n - 1)
  }

  // ---------------------------------------------------------------------------
  // One frame

  /** The two paddle checks exclude each other: only the side the captured
      velocity points to can fire, and without horizontal motion neither does. */
  lemma PaddleChecksExclusive(x: real, x': real, vx: real, a: Arena)
    ensures !(Crossed(Left, x, vx, a) && Crossed(Right, x', vx, a))
    ensures vx == 0.0 ==> !Crossed(Left, x, vx, a) && !Crossed(Right, x', vx, a)
  {
  }

  /** A return off either paddle: x is clamped into the field before the old
      x velocity is added, and the queued velocity is x-reflected unless the
      wall check fires in the same frame, which overwrites it with the
      y-reflection of the old velocity and so loses the return. */
  lemma PaddleReturn(side: Side, s: BallState, a: Arena)
    requires Crossed(side, s.pos.x, s.vel.x, a)
    requires BandOverlap(s.pos.y, Offset(side, a), a.paddleHeight)
    ensures Step(s, a).pos.x == Clamp(s.pos.x, -0.5 * a.fieldWidth, 0.5 * a.fieldWidth) + s.vel.x
    ensures a.fieldWidth >= 0.0 ==>
      -0.5 * a.fieldWidth <= Step(s, a).pos.x - s.vel.x <= 0.5 * a.fieldWidth
    ensures !WallHit(s.pos.y, s.vel.y, a) ==>
      Step(s, a) == BallState(Add(Vec3(Step(s, a).pos.x - s.vel.x, s.pos.y, s.pos.z), s.vel), ReflectX(s.vel))
    ensures WallHit(s.pos.y, s.vel.y, a) ==>
      Step(s, a).pos.y == Clamp(s.pos.y, -0.5 * a.fieldHeight, 0.5 * a.fieldHeight) + s.vel.y
    ensures WallHit(s.pos.y, s.vel.y, a) ==> Step(s, a).vel == ReflectY(s.vel)
  {
  }

  /** A miss on either side: the ball restarts from x = y = 0 in the same frame,
      so after the frame it sits at the old velocity's x and y, and the queued
      velocity is x-reflected. */
  lemma PaddleMiss(side: Side, s: BallState, a: Arena)
    requires Crossed(side, s.pos.x, s.vel.x, a)
    requires !BandOverlap(s.pos.y, Offset(side, a), a.paddleHeight)
    requires a.fieldHeight >= 0.0
    ensures Step(s, a) == BallState(Vec3(s.vel.x, s.vel.y, s.pos.z + s.vel.z), ReflectX(s.vel))
  {
  }

  /** A wall bounce with no paddle check firing: y is clamped into the field
      before the old y velocity is added, x moves on unchanged, and only the
      y velocity is reflected. */
  lemma WallBounce(s: BallState, a: Arena)
    requires WallHit(s.pos.y, s.vel.y, a)
    requires !Crossed(Left, s.pos.x, s.vel.x, a) && !Crossed(Right, s.pos.x, s.vel.x, a)
    ensures Step(s, a).pos == Vec3(s.pos.x + s.vel.x,
                                   Clamp(s.pos.y, -0.5 * a.fieldHeight, 0.5 * a.fieldHeight) + s.vel.y,
                                   s.pos.z + s.vel.z)
    ensures Step(s, a).vel == ReflectY(s.vel)
  {
  }

  /** When nothing fires the ball just moves on by its velocity. */
  lemma FreeFlight(s: BallState, a: Arena)
    requires !Crossed(Left, s.pos.x, s.vel.x, a) && !Crossed(Right, s.pos.x, s.vel.x, a)
    requires !WallHit(s.pos.y, s.vel.y, a)
    ensures Step(s, a) == BallState(Add(s.pos, s.vel), s.vel)
  {
  }

  /** Without horizontal motion no paddle check fires: x and the x velocity
      stay as they are. */
  lemma NoHorizontalMotion(s: BallState, a: Arena)
    requires s.vel.x == 0.0
    ensures Step(s, a).pos.x == s.pos.x && Step(s, a).vel.x == 0.0
  {
  }

  // ---------------------------------------------------------------------------
  // Many frames

  /** A ball at rest stays at rest, in place, however many frames pass. */
  lemma {:induction false} RestingBallStaysPut(s: BallState, a: Arena, n: nat)
    requires s.vel == Zero
    ensures Run(s, a, n) == s
    decreases n
  {
    if n > 0 {
      RestingBallStaysPut(Step(s, a), a, n - 1);
    }
  }

  /** The depth velocity never changes and the depth advances by it every frame. */
  lemma {:induction false} DepthAdvancesLinearly(s: BallState, a: Arena, n: nat)
    ensures Run(s, a, n).vel.z == s.vel.z
    ensures Run(s, a, n).pos.z == s.pos.z + (n as real) * s.vel.z
    decreases n
  {
    if n > 0 {
      DepthAdvancesLinearly(Step(s, a), a, n - 1);
    }
  }

  /** Reflections only flip signs: the horizontal and vertical speeds are the
      ones the ball started with, after any number of frames. */
  lemma {:induction false} SpeedIsKept(s: BallState, a: Arena, n: nat)
    ensures Abs(Run(s, a, n).vel.x) == Abs(s.vel.x)
    ensures Abs(Run(s, a, n).vel.y) == Abs(s.vel.y)
    decreases n
  {
    if n > 0 {
      SpeedIsKept(Step(s, a), a, n - 1);
    }
  }

  // ---------------------------------------------------------------------------
  // Concrete frames on the game's own 12 x 6 field with 0.25 x 2 paddles

  function GameArena(leftPaddleY: real, rightPaddleY: real): Arena {
    Arena(12.0, 6.0, leftPaddleY, rightPaddleY, 0.25, 2.0)
  }

  /** A ball at x = 5.9 moving right meets the right paddle at offset 0: the
      clamp to [-6, 6] leaves x at 5.9, the old velocity still carries it to
      5.95, and the queued velocity is reflected. */
  lemma RightReturnExample()
    ensures Step(BallState(Vec3(5.9, 0.0, 0.0), Vec3(0.05, 0.0, 0.0)), GameArena(0.0, 0.0))
         == BallState(Vec3(5.95, 0.0, 0.0), Vec3(-0.05, 0.0, 0.0))
  {
    var s, a := BallState(Vec3(5.9, 0.0, 0.0), Vec3(0.05, 0.0, 0.0)), GameArena(0.0, 0.0);
    PaddleReturn(Right, s, a);
  }

  /** The same ball with the right paddle at offset 4 (band [3, 5]) misses:
      it restarts from the origin and ends the frame at (0.05, 0, 0). */
  lemma RightMissExample()
    ensures Step(BallState(Vec3(5.9, 0.0, 0.0), Vec3(0.05, 0.0, 0.0)), GameArena(0.0, 4.0))
         == BallState(Vec3(0.05, 0.0, 0.0), Vec3(-0.05, 0.0, 0.0))
  {
    var s, a := BallState(Vec3(5.9, 0.0, 0.0), Vec3(0.05, 0.0, 0.0)), GameArena(0.0, 4.0);
    PaddleMiss(Right, s, a);
  }

  /** A ball at y = 2.95 rising at 0.03 is not yet beyond the top edge at 3:
      the wall check compares the position before integration, so the bounce
      comes on the third frame, and that frame still moves the ball up to 3.03. */
  lemma TopWallExample()
    ensures Step(BallState(Vec3(0.0, 2.95, 0.0), Vec3(0.0, 0.03, 0.0)), GameArena(0.0, 0.0))
         == BallState(Vec3(0.0, 2.98, 0.0), Vec3(0.0, 0.03, 0.0))
    ensures Run(BallState(Vec3(0.0, 2.95, 0.0), Vec3(0.0, 0.03, 0.0)), GameArena(0.0, 0.0), 3)
         == BallState(Vec3(0.0, 3.03, 0.0), Vec3(0.0, -0.03, 0.0))
  {
  }

  /** A return off the left paddle in the bottom corner: the wall check fires
      in the same frame and its `setVelocity` wins, so the ball keeps heading
      left with its y velocity reflected. */
  lemma CornerReturnExample()
    ensures Step(BallState(Vec3(-5.9, -3.1, 0.0), Vec3(-0.05, -0.03, 0.0)), GameArena(-3.0, 0.0))
         == BallState(Vec3(-5.95, -3.03, 0.0), Vec3(-0.05, 0.03, 0.0))
  {
  }

  /** With the pointer at the top of its normalised range the right paddle's
      band is [4, 6], wholly above the 6-high field, so a ball inside the
      field (|y| <= 3.5) that reaches the right side always misses. */
  lemma TopPointerBandMisses(s: BallState, leftPaddleY: real)
    requires Crossed(Right, s.pos.x, s.vel.x, GameArena(leftPaddleY, MatchStore.PointerOffset(1.0)))
    requires Abs(s.pos.y) <= 3.5
    ensures Step(s, GameArena(leftPaddleY, MatchStore.PointerOffset(1.0)))
         == BallState(Vec3(s.vel.x, s.vel.y, s.pos.z + s.vel.z), ReflectX(s.vel))
  {
  }
}
