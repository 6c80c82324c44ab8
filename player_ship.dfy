/** The player's ship: a latched movement state, a speed scaled by the frame
    rate, and a hit rectangle recomputed from the position on every update. */
module Ship {
  import opened Geometry

  /** The movement states, as the ship's int constants STOPPED, LEFT and RIGHT. */
  const STOPPED: int := 0
  const LEFT: int := 1
  const RIGHT: int := 2

  /** Pixels per second. */
  const ShipSpeed: real := 350.0

  /** The ship's state as a value: position, fixed size and speed, movement
      state (any int, as setMovementsState stores it unchecked) and rectangle. */
  datatype ShipState = ShipState(x: real, y: real, length: real, height: real,
                                 speed: real, moving: int, rect: Rect)

  /** What the constructor builds for a screen of `screenX` by `screenY` pixels. */
  function NewShip(screenX: int, screenY: int): (s: ShipState)
    ensures s.length == JavaDiv(screenX, 10) as real && s.height == JavaDiv(screenY, 10) as real
    ensures s.x == JavaDiv(screenX, 2) as real && s.y == (screenY - 20) as real
    ensures s.speed == ShipSpeed && s.moving == STOPPED && s.rect == EmptyRect
  {
    ShipState(JavaDiv(screenX, 2) as real, (screenY - 20) as real,
              JavaDiv(screenX, 10) as real, JavaDiv(screenY, 10) as real,
              ShipSpeed, STOPPED, EmptyRect)
  }

  /** The rectangle a ship at `s` occupies. */
  function RectAt(s: ShipState): (r: Rect)
    ensures r.left == s.x && r.top == s.y && r.right - r.left == s.length && r.bottom - r.top == s.height
  {
    Rect(s.x, s.y, s.x + s.length, s.y + s.height)
  }

  /** update(fps): LEFT moves `speed / fps` toward 0, RIGHT as far the other way,
      every other state stays put; the rectangle then follows the position. */
  function ShipUpdate(s: ShipState, fps: int): (r: ShipState)
    requires fps > 0
    ensures s.moving == LEFT ==> r.x == s.x - s.speed / fps as real
    ensures s.moving == RIGHT ==> r.x == s.x + s.speed / fps as real
    ensures s.moving != LEFT && s.moving != RIGHT ==> r.x == s.x
    ensures r.y == s.y && r.length == s.length && r.height == s.height
    ensures r.speed == s.speed && r.moving == s.moving
    ensures r.rect == Rect(r.x, s.y, r.x + s.length, s.y + s.height)
  {
    var step := s.speed / fps as real;
    var x := if s.moving == LEFT then s.x - step
             else if s.moving == RIGHT then s.x + step
             else s.x;
    var moved := s.(x := x);
    moved.(rect := RectAt(moved))
  }

  /** `n` updates in a row with the same frame rate. */
  function ShipUpdates(s: ShipState, fps: int, n: nat): (r: ShipState)
    requires fps > 0
    decreases n
  {
    if n == 0 then s else ShipUpdate(ShipUpdates(s, fps, n - 1), fps)
  }

  /** Nothing keeps the ship on the screen: holding LEFT for `n` frames moves it
      exactly `n` steps, whatever the screen width. */
  lemma {:induction false} NoClamping(s: ShipState, fps: int, n: nat)
    requires fps > 0 && s.moving == LEFT
    ensures ShipUpdates(s, fps, n).x == s.x - (n as real) * (s.speed / fps as real)
    ensures ShipUpdates(s, fps, n).moving == LEFT && ShipUpdates(s, fps, n).speed == s.speed
  {
    if n > 0 {
      NoClamping(s, fps, n - 1);
    }
  }

  /** So a ship held on LEFT for more frames than its distance to the left edge
      allows ends up off the screen, with x below 0. */
  lemma LeavesScreen(s: ShipState, fps: int, n: nat)
    requires fps > 0 && s.moving == LEFT
    requires (n as real) * (s.speed / fps as real) > s.x
    ensures ShipUpdates(s, fps, n).x < 0.0
  {
    NoClamping(s, fps, n);
  }

  /** The player's ship as the game holds it: `y`, the size and the speed are set
      once by the constructor and never written again. */
  class PlayerShip {
    var rect: Rect
    const length: real
    const height: real
    var x: real
    const y: real
    const shipSpeed: real
    var shipMoving: int

    /** The ship as a value. */
    function State(): ShipState
      reads this
    {
      ShipState(x, y, length, height, shipSpeed, shipMoving, rect)
    }

    /** PlayerShip(context, screenX, screenY), without the bitmap. */
    constructor (screenX: int, screenY: int)
      ensures State() == NewShip(screenX, screenY)
    {
      rect := EmptyRect;
      length := JavaDiv(screenX, 10) as real;
      height := JavaDiv(screenY, 10) as real;
      x := JavaDiv(screenX, 2) as real;
      y := (screenY - 20) as real;
      shipSpeed := ShipSpeed;
      shipMoving := STOPPED;
    }

    function GetRect(): Rect
      reads this
    {
      rect
    }

    function GetX(): real
      reads this
    {
      x
    }

    function GetLength(): real
      reads this
    {
      length
    }

    /** setMovementsState(state): latched as given, with no check of its value. */
    method SetMovementsState(state: int)
      modifies this
      ensures State() == old(State()).(moving := state)
    {
      shipMoving := state;
    }

    /** update(fps). */
    method Update(fps: int)
      requires fps > 0
      modifies this
      ensures State() == ShipUpdate(old(State()), fps)
    {
      if shipMoving == LEFT {
        x := x - shipSpeed / fps as real;
      }
      if shipMoving == RIGHT {
        x := x + shipSpeed / fps as real;
      }
      rect := Rect(x, y, x + length, y + height);
    }
  }
}
