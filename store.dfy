// The shared match state (the zustand store of src/App.js): the vertical offset
// each paddle last published and the paddles' fixed dimensions.

module MatchStore {

  /** Scale from the pointer's normalised vertical position to world units. */
  const PointerScale: real := 5.0

  /** The offset a paddle publishes for the pointer at `mouseY`: `mouse.y * 5`,
      with no clamping, so every offset is reachable and the pointer position
      can be read back from it. */
  function PointerOffset(mouseY: real): (offset: real)
    ensures offset / PointerScale == mouseY
    ensures mouseY < 0.0 <==> offset < 0.0
  {
    mouseY * PointerScale
  }

  lemma {:induction false} EveryOffsetIsReachable(offset: real)
    ensures PointerOffset(offset / PointerScale) == offset
  {
  }

  class Store {
    var leftPaddleY: real
    var rightPaddleY: real
    /** Never written after creation. */
    const paddleWidth: real
    const paddleHeight: real

    constructor ()
      ensures leftPaddleY == 0.0 && rightPaddleY == 0.0
      ensures paddleWidth == 0.25 && paddleHeight == 2.0
    {
      leftPaddleY := 0.0;
      rightPaddleY := 0.0;
      paddleWidth := 0.25;
      paddleHeight := 2.0;
    }

    /** `set({ leftPaddleY })`: overwrites the left offset and nothing else. */
    method SetLeftPaddleY(offset: real)
      modifies this`leftPaddleY
      ensures leftPaddleY == offset
      ensures rightPaddleY == old(rightPaddleY)
    {
      leftPaddleY := offset;
    }

    /** `set({ rightPaddleY })`: overwrites the right offset and nothing else. */
    method SetRightPaddleY(offset: real)
      modifies this`rightPaddleY
      ensures rightPaddleY == offset
      ensures leftPaddleY == old(leftPaddleY)
    {
      rightPaddleY := offset;
    }
  }
}
