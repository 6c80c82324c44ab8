/** Where prepareLevel() puts each invader and each brick. */
module Layout {
  import opened Sprites
  import opened Engine

  /** Slot column * 5 + row of the invader grid holds the invader of that column and row. */
  lemma InvaderGridAt(screenX: int, screenY: int, column: int, row: int)
    requires 0 <= column < InvaderColumns && 0 <= row < InvaderRows
    ensures InvaderGrid(screenX, screenY)[column * InvaderRows + row] == NewInvader(row, column, screenX, screenY)
  {
    var k := column * InvaderRows + row;
    assert k % InvaderRows == row && k / InvaderRows == column;
  }

  /** Slot shelter * 50 + column * 5 + row of the brick grid holds that brick. */
  lemma BrickGridAt(screenX: int, screenY: int, shelter: int, column: int, row: int)
    requires 0 <= shelter < Shelters && 0 <= column < ShelterColumns && 0 <= row < ShelterRows
    ensures BrickGrid(screenX, screenY)[(shelter * ShelterColumns + column) * ShelterRows + row]
            == NewDefenceBrick(row, column, shelter, screenX, screenY)
  {
    var k := (shelter * ShelterColumns + column) * ShelterRows + row;
    assert k % ShelterRows == row && k / ShelterRows == shelter * ShelterColumns + column;
    assert k / ShelterRows % ShelterColumns == column;
    assert k / (ShelterRows * ShelterColumns) == shelter;
  }

  /** prepareLevel() puts invader (column, row) in slot column * 5 + row of the first
      30, and brick (shelter, column, row) in slot shelter * 50 + column * 5 + row of
      the first 200, each built for the view's screen. */
  lemma LevelLayout(w: World, column: int, row: int)
    requires Capacities(w)
    requires 0 <= column < InvaderColumns && 0 <= row < InvaderRows
    ensures column * InvaderRows + row < NumInvaders
    ensures PrepareLevel(w).invaders[column * InvaderRows + row] == NewInvader(row, column, w.screenX, w.screenY)
  {
    InvaderGridAt(w.screenX, w.screenY, column, row);
  }

  lemma LevelBricks(w: World, shelter: int, column: int, row: int)
    requires Capacities(w)
    requires 0 <= shelter < Shelters && 0 <= column < ShelterColumns && 0 <= row < ShelterRows
    ensures (shelter * ShelterColumns + column) * ShelterRows + row < NumBricks
    ensures PrepareLevel(w).bricks[(shelter * ShelterColumns + column) * ShelterRows + row]
            == NewDefenceBrick(row, column, shelter, w.screenX, w.screenY)
  {
    BrickGridAt(w.screenX, w.screenY, shelter, column, row);
  }

  /** And those slots are all of them: every slot of the first 30 holds the invader
      of some column and row of the grid, every slot of the first 200 some brick. */
  lemma LevelCovers(w: World, k: int)
    requires Capacities(w)
    ensures 0 <= k < NumInvaders ==>
              exists column, row :: 0 <= column < InvaderColumns && 0 <= row < InvaderRows &&
                k == column * InvaderRows + row &&
                PrepareLevel(w).invaders[k] == NewInvader(row, column, w.screenX, w.screenY)
    ensures 0 <= k < NumBricks ==>
              exists shelter, column, row ::
                0 <= shelter < Shelters && 0 <= column < ShelterColumns && 0 <= row < ShelterRows &&
                k == (shelter * ShelterColumns + column) * ShelterRows + row &&
                PrepareLevel(w).bricks[k] == NewDefenceBrick(row, column, shelter, w.screenX, w.screenY)
  {
    if 0 <= k < NumInvaders {
      var column, row := InvaderSlotSplit(k);
      LevelLayout(w, column, row);
    }
    if 0 <= k < NumBricks {
      var shelter, column, row := BrickSlotSplit(k);
      LevelBricks(w, shelter, column, row);
    }
  }

  /** Slot k of the first 30 is column k / 5, row k % 5. */
  lemma InvaderSlotSplit(k: int) returns (column: int, row: int)
    requires 0 <= k < NumInvaders
    ensures 0 <= column < InvaderColumns && 0 <= row < InvaderRows && k == column * InvaderRows + row
  {
    column, row := k / InvaderRows, k % InvaderRows;
  }

  /** Slot k of the first 200 is shelter k / 50, column k / 5 % 10, row k % 5. */
  lemma BrickSlotSplit(k: int) returns (shelter: int, column: int, row: int)
    requires 0 <= k < NumBricks
    ensures 0 <= shelter < Shelters && 0 <= column < ShelterColumns && 0 <= row < ShelterRows
    ensures k == (shelter * ShelterColumns + column) * ShelterRows + row
  {
    var c := k / ShelterRows;
    row := k % ShelterRows;
    assert k == c * ShelterRows + row;
    shelter, column := c / ShelterColumns, c % ShelterColumns;
    assert c == shelter * ShelterColumns + column;
  }
}
