/** Keyboard and mouse state, updated by the browser's event handlers and
  * read once per frame.  The handlers are methods; the event objects are
  * reduced to the fields the handlers read. */
module Inputs {

  class Input {
    var keys: map<string, bool>
    var mouseDown: bool
    var mousePressed: bool   // true only until the next frame's `Update`
    var movementX: real
    var movementY: real
    var mouseX: real
    var mouseY: real
    var isLocked: bool

    constructor ()
      ensures keys == map[] && !mouseDown && !mousePressed && !isLocked
      ensures movementX == 0.0 && movementY == 0.0 && mouseX == 0.0 && mouseY == 0.0
      ensures forall code :: !IsDown(code)
    {
      keys := map[];
      mouseDown, mousePressed := false, false;
      movementX, movementY := 0.0, 0.0;
      mouseX, mouseY := 0.0, 0.0;
      isLocked := false;
    }

    /** A key counts as down only when it has been pressed and not released;
      * a code never seen reads as up. */
    function IsDown(code: string): (down: bool)
      reads this
      ensures down <==> code in keys && keys[code]
      ensures code !in keys ==> !down
    {
      code in keys && keys[code]
    }

    method OnKeyDown(code: string)
      modifies this
      ensures keys == old(keys)[code := true]
      ensures IsDown(code)
      ensures forall c :: c != code ==> IsDown(c) == old(IsDown(c))
      ensures mouseDown == old(mouseDown) && mousePressed == old(mousePressed) && isLocked == old(isLocked)
      ensures movementX == old(movementX) && movementY == old(movementY)
      ensures mouseX == old(mouseX) && mouseY == old(mouseY)
    {
      keys := keys[code := true];
    }

    method OnKeyUp(code: string)
      modifies this
      ensures keys == old(keys)[code := false]
      ensures !IsDown(code)
      ensures forall c :: c != code ==> IsDown(c) == old(IsDown(c))
      ensures mouseDown == old(mouseDown) && mousePressed == old(mousePressed) && isLocked == old(isLocked)
      ensures movementX == old(movementX) && movementY == old(movementY)
      ensures mouseX == old(mouseX) && mouseY == old(mouseY)
    {
      keys := keys[code := false];
    }

    method OnMouseDown()
      modifies this
      ensures mouseDown && mousePressed
      ensures keys == old(keys) && isLocked == old(isLocked)
      ensures movementX == old(movementX) && movementY == old(movementY)
      ensures mouseX == old(mouseX) && mouseY == old(mouseY)
    {
      mouseDown := true;
      mousePressed := true;
    }

    /** Releasing the button clears `mouseDown` only: a press within the
      * frame is still reported. */
    method OnMouseUp()
      modifies this
      ensures !mouseDown && mousePressed == old(mousePressed)
      ensures keys == old(keys) && isLocked == old(isLocked)
      ensures movementX == old(movementX) && movementY == old(movementY)
      ensures mouseX == old(mouseX) && mouseY == old(mouseY)
    {
      mouseDown := false;
    }

    /** While the pointer is locked the relative movement is recorded;
      * otherwise the pointer position in normalised device coordinates. */
    method OnMouseMove(dx: real, dy: real, clientX: real, clientY: real, innerWidth: real, innerHeight: real)
      requires innerWidth != 0.0 && innerHeight != 0.0
      modifies this
      ensures old(isLocked) ==> movementX == dx && movementY == dy && mouseX == old(mouseX) && mouseY == old(mouseY)
      ensures !old(isLocked) ==> movementX == old(movementX) && movementY == old(movementY)
      ensures !old(isLocked) ==> mouseX == clientX / innerWidth * 2.0 - 1.0 && mouseY == -(clientY / innerHeight) * 2.0 + 1.0
      ensures keys == old(keys) && mouseDown == old(mouseDown) && mousePressed == old(mousePressed) && isLocked == old(isLocked)
    {
      if isLocked {
        movementX := dx;
        movementY := dy;
      } else {
        mouseX := clientX / innerWidth * 2.0 - 1.0;
        mouseY := -(clientY / innerHeight) * 2.0 + 1.0;
      }
    }

    /** The pointer-lock change handler: `locked` says whether the page body
      * now holds the lock. */
    method OnPointerLockChange(locked: bool)
      modifies this
      ensures isLocked == locked
      ensures keys == old(keys) && mouseDown == old(mouseDown) && mousePressed == old(mousePressed)
      ensures movementX == old(movementX) && movementY == old(movementY)
      ensures mouseX == old(mouseX) && mouseY == old(mouseY)
    {
      isLocked := locked;
    }

    /** End-of-frame reset of the one-frame values. */
    method Update()
      modifies this
      ensures !mousePressed && movementX == 0.0 && movementY == 0.0
      ensures keys == old(keys) && mouseDown == old(mouseDown) && isLocked == old(isLocked)
      ensures mouseX == old(mouseX) && mouseY == old(mouseY)
    {
      mousePressed := false;
      movementX := 0.0;
      movementY := 0.0;
    }
  }
}
