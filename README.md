# Pong ball physics, verified

This project models the game logic of a small two-paddle "Pong" game played in a 3D/VR scene. That logic is the ball's per-frame update and the shared store that couples the ball to the two paddles. The proofs are written in Dafny.

Each frame the ball runs four steps in a fixed order:

1. A left-paddle check. When the ball's leading edge is past the left collision plane and it moves left, a ball inside the paddle's band is returned. Its x is clamped into the field. A ball outside the band is a miss: x and y go back to 0. Either way, the velocity with x reflected is queued.
2. The same check for the right paddle.
3. A wall check. A ball beyond the top or bottom edge that is still moving outward has its y clamped into the field, and the velocity with y reflected is queued.
4. Integration. The position advances by the velocity.

The velocity is React state that the frame callback has captured, so every step reads the velocity the frame started with. That includes the integration. `setVelocity` only queues a value, and the last value queued wins. The model keeps this exactly:

- `BallComponent.Ball.Tick` mutates the ball's fields in place.
- It keeps a local `queued` velocity.
- It integrates with the captured velocity and commits `queued` only at the end.
- It is proved equal to the pure reference definition `BallPhysics.Step`.

The properties below are proved about `Step` and about `Run`, which is `n` frames in a row.

Modules:

- `Geometry` (`geometry.dfy`): vectors over the reals, reflections, and the clamp `Math.max(Math.min(v, hi), lo)`.
- `MatchStore` (`store.dfy`): the shared store, holding the two paddle offsets and the fixed paddle width and height. It also holds the pointer-to-offset scaling `mouse.y * 5`.
- `BallPhysics` (`physics.dfy`): the reference frame function, the collision predicates and the lemmas.
- `BallComponent` (`ball.dfy`): the `Ball` class and its imperative `Tick`.
- `PaddleComponent` (`paddle.dfy`): the `Paddle` class and its pointer-driven `Frame`, which publishes the paddle's offset to its side of the store.

Some frames behave differently from what a quick reading of the game suggests. The code is followed here:

- A return clamps x into `[-W/2, W/2]`, not onto the field edge. After that, the old velocity still moves the ball in the same frame. A ball at x = 5.9 moving at 0.05 toward the right paddle ends the frame at 5.95 with velocity -0.05 (`RightReturnExample`).
- A miss resets x and y to 0 before the integration. The ball therefore ends that frame at the old velocity's (x, y), not at the origin (`RightMissExample`).
- The wall test is a strict comparison on the position before integration. A ball at y = 2.95 rising at 0.03 in a field of height 6 does not bounce on that frame. It bounces on the third frame, and that frame still takes it up to 3.03 (`TopWallExample`).
- The two paddle checks can never both fire in one frame, because they need the captured x velocity to be negative and positive respectively (`PaddleChecksExclusive`).
- A return and a wall bounce can fire in the same frame. The wall's `setVelocity` is built from the old velocity and comes last, so the x reflection of that frame is lost (`PaddleReturn`, `CornerReturnExample`).

## Model

| member | source | states |
|---|---|---|
| `Geometry.Clamp` | src/App.js:37-40 | The result is never below the lower bound. When the interval is non-empty, it lies in the interval, equals the input inside it and equals the nearer bound outside it. |
| `BallPhysics.BandOverlap` | src/App.js:32-35 | A hit means the ball's centre is strictly closer to the paddle's centre than half the band height plus the radius. A ball that only touches the band edge is a miss. |
| `BallPhysics.Crossed` | src/App.js:27-30 | The left check can fire only for a ball moving left and the right check (lines 47-50) only for one moving right. |
| `BallPhysics.WallHit` | src/App.js:67-70 | A wall hit means the ball's centre is beyond half the field height. In a field of non-negative height, the ball is also still moving outward: y and the y velocity have the same sign. |
| `BallPhysics.PaddleCheck` | src/App.js:27-65 | If the side's plane is not crossed, the frame is unchanged. If it is crossed, the queued velocity is the captured one with x reflected, and x ends inside the field whether the ball was returned (clamp) or missed (reset to 0). z is never touched. |
| `BallPhysics.WallCheck` | src/App.js:67-77 | Without a wall hit the frame is unchanged. With one, the queued velocity is the captured one with y reflected and y ends inside the field. x and z are never touched. |
| `BallPhysics.Step` | src/App.js:26-81 | After one frame, each velocity component is plus or minus the old one. The z velocity is unchanged and z advances by the old z velocity. A ball with zero velocity is left exactly as it was. |
| `BallPhysics.PaddleChecksExclusive` | src/App.js:27-50 | The left and right checks never both fire in one frame. With zero x velocity, neither fires. |
| `BallPhysics.PaddleReturn` | src/App.js:27-60 | On a return off either paddle, x is clamped into the field and then advanced by the old x velocity. Without a wall hit, the new velocity is the old one with x reflected and y and z move on unchanged. With a wall hit, y is clamped into the field and then advanced by the old y velocity, and the new velocity is the old one with only y reflected, so the return is lost. |
| `BallPhysics.PaddleMiss` | src/App.js:41-44 | On a miss by either paddle, the ball ends the frame at (vx, vy, z + vz) with the x velocity reflected. |
| `BallPhysics.WallBounce` | src/App.js:67-81 | When no paddle check fires, a wall bounce clamps y into the field before adding the old y velocity. x and z advance unchanged, and only the y velocity is reflected. |
| `BallPhysics.FreeFlight` | src/App.js:79-81 | When no check fires, the position advances by the velocity and the velocity is kept. |
| `BallPhysics.NoHorizontalMotion` | src/App.js:30-50 | With zero x velocity, x and the x velocity are unchanged by a frame. |
| `BallPhysics.RestingBallStaysPut` | src/App.js:79-81 | A ball with zero velocity keeps the same position and velocity after any number of frames. |
| `BallPhysics.DepthAdvancesLinearly` | src/App.js:81 | After n frames, the z velocity is unchanged and z has advanced by n times it. |
| `BallPhysics.SpeedIsKept` | src/App.js:36-72 | After any number of frames, the absolute x and y velocities are the starting ones, because every `setVelocity` only flips signs. |
| `BallPhysics.RightReturnExample` | src/App.js:47-60 | A ball at (5.9, 0, 0) with velocity (0.05, 0, 0) and the right paddle at 0 ends the frame at (5.95, 0, 0) with velocity (-0.05, 0, 0). |
| `BallPhysics.RightMissExample` | src/App.js:61-64 | The same ball with the right paddle at 4 misses and ends the frame at (0.05, 0, 0) with velocity (-0.05, 0, 0). |
| `BallPhysics.TopWallExample` | src/App.js:67-77 | A ball at y = 2.95 rising at 0.03 does not bounce on the first frame. After three frames it is at y = 3.03 with y velocity -0.03. |
| `BallPhysics.CornerReturnExample` | src/App.js:36-77 | A left return in the bottom corner keeps the x velocity at -0.05 and reflects only the y velocity, because the wall's `setVelocity` comes last. |
| `BallComponent.Ball.constructor` | src/App.js:19-20 | A new ball starts at the origin with velocity (0.05, 0.03, 0). |
| `BallComponent.Ball.Tick` | src/App.js:26-81 | Updating the fields in place, with a local queued velocity and integration by the captured velocity, produces exactly `Step` of the old state. The arena is read from the store and the store is not written. |
| `MatchStore.Store.constructor` | src/App.js:9-16 | Both offsets start at 0. The paddle width is 0.25 and the height is 2. These dimensions are `const`, so they are never written. |
| `MatchStore.Store.SetLeftPaddleY` | src/App.js:12 | It overwrites the left offset and leaves the right offset unchanged. |
| `MatchStore.Store.SetRightPaddleY` | src/App.js:13 | It overwrites the right offset and leaves the left offset unchanged. |
| `MatchStore.PointerOffset` | src/App.js:120 | The published offset is the pointer's height times 5, with no clamping. The pointer height can be recovered from it, and the sign is kept. |
| `MatchStore.EveryOffsetIsReachable` | src/App.js:120 | The scaling applies no clamp: every offset is the image of some pointer height. Within the pointer's normalised range of about [-1, 1], the published offsets cover about [-5, 5]. |
| `BallPhysics.TopPointerBandMisses` | src/App.js:120 | With the pointer at the top of its range, the right paddle publishes offset 5 and its band is [4, 6], wholly above the 6-high field. Every right-side crossing by a ball whose y lies in [-3.5, 3.5] is then a miss. |
| `PaddleComponent.Paddle.constructor` | src/App.js:106 | A paddle starts at the position it is given. |
| `PaddleComponent.Paddle.Frame` | src/App.js:107-120 | The paddle's y becomes `PointerOffset(mouse.y)` and its x and z are kept. Player index 0 writes that offset to the left field of the store and any other index writes it to the right field. The other side's offset is unchanged. |

## Left out

- The rotation update `rotation.x/y += velocity` (src/App.js:83-84) is rendering only.
- The VR controller branch and the paddle's own velocity (src/App.js:110, 115-116, 122) are left out. They depend on gamepad state. The call at line 116 passes three arguments to `setVelocity`, so the state becomes the number 0 and `velocity[1]` is undefined. That is JavaScript coercion, not game logic.
- The scene, lights, sky, fog, shadows, the `Plane` and `App` components, and the VR canvas (src/App.js:7, 87-100, 125-194) are declarative rendering.
- How React and zustand schedule re-renders and subscriptions is left out. One call of `Tick` or `Frame` is one frame. `Tick` reads the store's current offsets, while the real callback sees the offsets from the Ball's last render. The order of the paddles' and the ball's updates within one frame is left to the caller, as in the game.
- `Run` holds the arena fixed over its `n` frames. Moving paddles are modelled one `Tick` at a time.
- Numbers are exact reals. IEEE-754 rounding is not modelled.
