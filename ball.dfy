// The Ball component of src/App.js: its position is mutated in place by the
// frame callback, its velocity is React state that the callback replaces.

module BallComponent {
  import opened Geometry
  import opened BallPhysics
  import MatchStore

  class Ball {
    /** `group.current.position`. */
    var x: real
    var y: real
    var z: real
    /** The `velocity` state. */
    var vx: real
    var vy: real
    var vz: real
    /** `props.fieldSize`. */
    const fieldWidth: real
    const fieldHeight: real

    function State(): BallState
      reads this
    {
      BallState(Vec3(x, y, z), Vec3(vx, vy, vz))
    }

    /** What the ball reads in a frame: its field and the store's paddles. */
    function ArenaIn(store: MatchStore.Store): Arena
      reads store
    {
      Arena(fieldWidth, fieldHeight, store.leftPaddleY, store.rightPaddleY,
            store.paddleWidth, store.paddleHeight)
    }

    constructor (fieldWidth: real, fieldHeight: real)
      ensures this.fieldWidth == fieldWidth && this.fieldHeight == fieldHeight
      ensures State() == BallState(Zero, InitialVelocity)
    {
      this.fieldWidth := fieldWidth;
      this.fieldHeight := fieldHeight;
      x, y, z := 0.0, 0.0, 0.0;
      vx, vy, vz := InitialVelocity.x, InitialVelocity.y, InitialVelocity.z;
    }

    /** One frame: the paddle checks, the wall check and the integration,
        in place. The store is only read. */
    method Tick(store: MatchStore.Store)
      modifies this
      ensures State() == Step(old(State()), old(ArenaIn(store)))
    {
      var a := ArenaIn(store);
      // the velocity the callback captured, and the last value passed to setVelocity
      var v := Vec3(vx, vy, vz);
      var queued := v;

      if Crossed(Left, x, v.x, a) {
        if BandOverlap(y, a.leftPaddleY, a.paddleHeight) {
          queued := ReflectX(v);
          x := Clamp(x, -0.5 * a.fieldWidth, 0.5 * a.fieldWidth);
        } else {
          x, y := 0.0, 0.0;
          queued := ReflectX(v);
        }
      }

      if Crossed(Right, x, v.x, a) {
        if BandOverlap(y, a.rightPaddleY, a.paddleHeight) {
          queued := ReflectX(v);
          x := Clamp(x, -0.5 * a.fieldWidth, 0.5 * a.fieldWidth);
        } else {
          x, y := 0.0, 0.0;
          queued := ReflectX(v);
        }
      }

      if WallHit(y, v.y, a) {
        queued := ReflectY(v);
        y := Clamp(y, -0.5 * a.fieldHeight, 0.5 * a.fieldHeight);
      }

      x := x + v.x;
      y := y + v.y;
      z := z + v.z;

      vx, vy, vz := queued.x, queued.y, queued.z;
    }
  }
}
