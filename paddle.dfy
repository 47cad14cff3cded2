// The pointer-driven part of the Paddle component of src/App.js: each frame it
// moves to the pointer's height and publishes that height to the shared store.

module PaddleComponent {
  import opened Geometry
  import opened MatchStore

  class Paddle {
    /** 0 for the left player; any other index drives the right paddle. */
    const playerIndex: int
    const store: Store
    /** The `position` state. */
    var position: Vec3

    constructor (position: Vec3, playerIndex: int, store: Store)
      ensures this.position == position && this.playerIndex == playerIndex && this.store == store
    {
      this.position := position;
      this.playerIndex := playerIndex;
      this.store := store;
    }

    /** Whether this paddle publishes to the left offset (otherwise to the right one). */
    predicate PublishesLeft() {
      playerIndex == 0
    }

    /** One frame: the paddle's height becomes the pointer's, and that height is
        written to this paddle's side of the store and to no other field. */
    method Frame(mouseY: real)
      modifies this`position, store
      ensures position == Vec3(old(position).x, PointerOffset(mouseY), old(position).z)
      ensures PublishesLeft() ==>
        store.leftPaddleY == PointerOffset(mouseY) && store.rightPaddleY == old(store.rightPaddleY)
      ensures !PublishesLeft() ==>
        store.rightPaddleY == PointerOffset(mouseY) && store.leftPaddleY == old(store.leftPaddleY)
    {
      var offset := PointerOffset(mouseY);
      position := Vec3(position.x, offset, position.z);
      if PublishesLeft() {
        store.SetLeftPaddleY(offset);
      } else {
        store.SetRightPaddleY(offset);
      }
    }
  }
}
