/** The three entity kinds the view keeps in its arrays: bullets, invaders and
    shelter bricks. Their own classes are not part of this model; each record
    keeps only what the view reads or changes through their methods, and the
    sizes, speeds and start positions their constructors choose are stand-ins
    that no property of the view depends on. */
module Sprites {
  import opened Geometry

  /** Which way a bullet travels: Bullet.UP (toward y = 0) or Bullet.DOWN. */
  datatype Heading = Up | Down

  /** A reusable bullet slot. `rect` is what getRect() returns; it is
      recomputed by Update() only, as for every sprite of the game. */
  datatype Bullet = Bullet(x: real, y: real, width: real, height: real,
                           speed: real, heading: Heading, active: bool, rect: Rect)
  {
    /** getImpactPointY(): the leading edge, the bottom when falling, the top when rising. */
    function ImpactPointY(): (p: real)
      ensures heading == Down ==> p == y + height
      ensures heading == Up ==> p == y
    {
      if heading == Down then y + height else y
    }

    /** shoot(x, y, direction): a slot already in flight refuses the shot and is left
        as it was; an idle slot takes the origin and heading and becomes active. */
    function Shoot(startX: real, startY: real, direction: Heading): (r: (Bullet, bool))
      ensures r.1 <==> !active
      ensures !r.1 ==> r.0 == this
      ensures r.1 ==> r.0 == this.(x := startX, y := startY, heading := direction, active := true)
    {
      if active then (this, false)
      else (this.(x := startX, y := startY, heading := direction, active := true), true)
    }

    /** setInactive(): the slot goes idle where it is. */
    function SetInactive(): (r: Bullet)
      ensures !r.active && r.rect == rect && r.ImpactPointY() == ImpactPointY()
    {
      this.(active := false)
    }

    /** update(fps): one frame of travel, `speed / fps` pixels, then the rectangle follows. */
    function Update(fps: int): (r: Bullet)
      requires fps > 0
      ensures r.active == active && r.x == x && r.heading == heading
      ensures r.rect == Rect(x, r.y, x + width, r.y + height)
    {
      var step := speed / (fps as real);
      var y' := if heading == Up then y - step else y + step;
      this.(y := y', rect := Rect(x, y', x + width, y' + height))
    }
  }

  /** `new Bullet(screenY)`: an idle slot with an empty rectangle. */
  function NewBullet(screenY: int): (b: Bullet)
    ensures !b.active && b.rect == EmptyRect
  {
    Bullet(0.0, 0.0, 1.0, JavaDiv(screenY, 20) as real, 350.0, Up, false, EmptyRect)
  }

  /** One invader of the wave; `row` and `column` are its place in the grid. */
  datatype Invader = Invader(row: int, column: int, x: real, y: real,
                             length: real, height: real, speed: real,
                             movingRight: bool, visible: bool, rect: Rect)
  {
    /** update(fps): one frame of sideways travel, then the rectangle follows. */
    function Update(fps: int): (r: Invader)
      requires fps > 0
      ensures r.visible == visible && r.y == y && r.length == length
      ensures r.rect == Rect(r.x, y, r.x + length, y + height)
    {
      var step := speed / (fps as real);
      var x' := if movingRight then x + step else x - step;
      this.(x := x', rect := Rect(x', y, x' + length, y + height))
    }

    /** dropDownAndReverse(): one row lower, travelling the other way. */
    function DropDownAndReverse(): (r: Invader)
      ensures r.visible == visible && r.movingRight == !movingRight && r.y == y + height
    {
      this.(movingRight := !movingRight, y := y + height)
    }

    /** setInvisible(): destroyed, but the slot stays where it is. */
    function SetInvisible(): (r: Invader)
      ensures !r.visible && r.rect == rect
    {
      this.(visible := false)
    }
  }

  /** `new Invader(context, row, column, screenX, screenY)`: visible, at its grid place. */
  function NewInvader(row: int, column: int, screenX: int, screenY: int): (v: Invader)
    ensures v.visible && v.row == row && v.column == column && v.rect == EmptyRect
  {
    var length := JavaDiv(screenX, 20);
    var padding := JavaDiv(screenX, 25);
    Invader(row, column, (column * (length + padding)) as real,
            (row * (length + JavaDiv(padding, 4))) as real,
            length as real, JavaDiv(screenY, 20) as real, 40.0, true, true, EmptyRect)
  }

  /** One cell of a shelter; it never moves, it can only be knocked out. */
  datatype DefenceBrick = DefenceBrick(row: int, column: int, shelterNumber: int,
                                       visible: bool, rect: Rect)
  {
    /** setInvisible(): knocked out. */
    function SetInvisible(): (r: DefenceBrick)
      ensures !r.visible && r.rect == rect && r.shelterNumber == shelterNumber
    {
      this.(visible := false)
    }
  }

  /** `new DefenceBrick(row, column, shelterNumber, screenX, screenY)`: visible, with
      its rectangle placed inside shelter `shelterNumber`. */
  function NewDefenceBrick(row: int, column: int, shelterNumber: int,
                           screenX: int, screenY: int): (b: DefenceBrick)
    ensures b.visible && b.row == row && b.column == column && b.shelterNumber == shelterNumber
  {
    var width := JavaDiv(screenX, 90);
    var height := JavaDiv(screenY, 40);
    var shelterPadding := JavaDiv(screenX, 9);
    var startHeight := screenY - JavaDiv(screenY, 8) * 2;
    var left := column * width + 1 + shelterPadding * shelterNumber * 2 + shelterPadding;
    var top := row * height + 1 + startHeight;
    DefenceBrick(row, column, shelterNumber, true,
                 Rect(left as real, top as real, (left + width - 2) as real, (top + height - 2) as real))
  }
}
