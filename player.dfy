/** The player: a 32 x 32 body with a velocity, driven once per frame by
    the held keys (`Move`) and then moved against the solid tiles
    (`Update`). */
module Players {
  import opened Geometry
  import opened Kinematics

  /** Added to the vertical velocity once per frame. */
  const GRAVITY: real := 0.5
  /** The vertical velocity a jump sets (negative is upward). */
  const JUMP_STRENGTH: real := -10.0
  /** The horizontal speed while a direction key is held. */
  const RUN_SPEED := 5

  /** The keys the player reads from the frame's key snapshot. */
  datatype Keys = Keys(left: bool, right: bool, space: bool)

  class Player {
    var x: int
    var y: int
    var velX: int
    var velY: real
    var onGround: bool

    /** The body at the player's position. */
    function Bounds(): Rect
      reads this
    {
      Body(x, y)
    }

    constructor (x0: int, y0: int)
      ensures x == x0 && y == y0
      ensures velX == 0 && velY == 0.0 && !onGround
    {
      x, y := x0, y0;
      velX, velY := 0, 0.0;
      onGround := false;
    }

    /** Turns the held keys into movement intent. Right overrides left, and a
        jump starts only from the ground. */
    method Move(keys: Keys)
      modifies this
      ensures velX == 0 <==> !keys.left && !keys.right
      ensures velX == RUN_SPEED <==> keys.right
      ensures velX == -RUN_SPEED <==> keys.left && !keys.right
      ensures velY == if keys.space && old(onGround) then JUMP_STRENGTH else old(velY)
      ensures x == old(x) && y == old(y) && onGround == old(onGround)
    {
      velX := 0;
      if keys.left {
        velX := -RUN_SPEED;
      }
      if keys.right {
        velX := RUN_SPEED;
      }
      if keys.space && onGround {
        velY := JUMP_STRENGTH;
      }
    }

    /** One frame of motion: gravity, then the horizontal move and its clamps,
        then the vertical move and its clamps. `toPixel` is the conversion
        of the fractional vertical target coordinate into the integer
        coordinate the rectangle stores; nothing is assumed about it. */
    method Update(tiles: seq<Rect>, toPixel: real -> int)
      modifies this
      ensures velX == old(velX)
      ensures x == SweepX(old(x) + old(velX), old(y), old(velX), tiles)
      ensures Vertical(y, velY, onGround) ==
        SweepY(Vertical(toPixel(old(y) as real + old(velY) + GRAVITY), old(velY) + GRAVITY, false), x, tiles)
      // what the horizontal pass promises
      ensures old(velX) == 0 ==> x == old(x)
      ensures old(velX) > 0 ==> x <= old(x) + old(velX)
      ensures old(velX) < 0 ==> x >= old(x) + old(velX)
      ensures WithinOneWidth(old(velX)) && PositiveWidths(tiles) && ClearOfTiles(old(x), old(y), tiles) ==>
        ClearOfTiles(x, old(y), tiles)
      // what the vertical pass promises
      ensures onGround <==> (old(velY) + GRAVITY > 0.0 &&
        exists j :: 0 <= j < |tiles| &&
          Collides(Body(x, toPixel(old(y) as real + old(velY) + GRAVITY)), tiles[j]))
      ensures velY == 0.0 || velY == old(velY) + GRAVITY
      // the whole frame, from a clear start on grid tiles with bounded shifts
      ensures (-PLAYER_SIZE <= old(velX) <= PLAYER_SIZE && PositiveWidths(tiles) && GridAligned(tiles) &&
               ClearOfTiles(old(x), old(y), tiles) &&
               ShiftWithinOneHeight(old(y), toPixel(old(y) as real + old(velY) + GRAVITY), old(velY) + GRAVITY))
        ==> ClearOfTiles(x, y, tiles)
    {
      // Apply gravity
      velY := velY + GRAVITY;
      MoveHorizontally(tiles);
      MoveVertically(tiles, toPixel);
    }

    /** The horizontal half of `Update`: shift by velX, then clamp against
        every overlapping tile in list order. Only x changes. */
    method MoveHorizontally(tiles: seq<Rect>)
      modifies this`x
      ensures x == SweepX(old(x) + velX, y, velX, tiles)
      ensures velX == 0 ==> x == old(x)
      ensures velX > 0 ==> x <= old(x) + velX
      ensures velX < 0 ==> x >= old(x) + velX
      ensures WithinOneWidth(velX) && PositiveWidths(tiles) && ClearOfTiles(old(x), y, tiles) ==>
        ClearOfTiles(x, y, tiles)
    {
      x := x + velX;
      ghost var x1 := x;
      for i := 0 to |tiles|
        invariant SweepX(x, y, velX, tiles[i..]) == SweepX(x1, y, velX, tiles)
      {
        var tile := tiles[i];
        if Collides(Bounds(), tile) {
          if velX > 0 {
            x := tile.left - PLAYER_SIZE;
          }
          if velX < 0 {
            x := tile.Right();
          }
        }
        assert tiles[i..][1..] == tiles[i + 1..];
      }
      assert tiles[|tiles|..] == [];
      SweepXBacksOff(x1, y, velX, tiles);
      if velX == 0 {
        SweepXStationary(x1, y, tiles);
      }
      if WithinOneWidth(velX) && PositiveWidths(tiles) && ClearOfTiles(old(x), y, tiles) {
        SweepXNoPenetration(old(x), y, velX, tiles);
      }
    }

    /** The vertical half of `Update`: shift by velY through `toPixel`, reset
        onGround, then clamp against the first overlapping tile. x and velX
        do not change. */
    method MoveVertically(tiles: seq<Rect>, toPixel: real -> int)
      modifies this`y, this`velY, this`onGround
      ensures Vertical(y, velY, onGround) ==
        SweepY(Vertical(toPixel(old(y) as real + old(velY)), old(velY), false), x, tiles)
      ensures onGround <==> (old(velY) > 0.0 &&
        exists j :: 0 <= j < |tiles| && Collides(Body(x, toPixel(old(y) as real + old(velY))), tiles[j]))
      ensures velY == 0.0 || velY == old(velY)
      ensures (ShiftWithinOneHeight(old(y), toPixel(old(y) as real + old(velY)), old(velY)) &&
               GridAligned(tiles) && ClearOfTiles(x, old(y), tiles))
        ==> ClearOfTiles(x, y, tiles)
    {
      y := toPixel(y as real + velY);
      onGround := false;
      ghost var s1 := Vertical(y, velY, onGround);
      for i := 0 to |tiles|
        invariant SweepY(Vertical(y, velY, onGround), x, tiles[i..]) == SweepY(s1, x, tiles)
      {
        var tile := tiles[i];
        if Collides(Bounds(), tile) {
          if velY > 0.0 {
            y := tile.top - PLAYER_SIZE;
            velY := 0.0;
            onGround := true;
          }
          if velY < 0.0 {
            y := tile.Bottom();
            velY := 0.0;
          }
        }
        assert tiles[i..][1..] == tiles[i + 1..];
      }
      assert tiles[|tiles|..] == [];
      LandedIffDownwardContact(s1.y, s1.velY, x, tiles);
      SweepYFirstContact(s1, x, tiles);
      if ShiftWithinOneHeight(old(y), s1.y, s1.velY) && GridAligned(tiles) && ClearOfTiles(x, old(y), tiles) {
        SweepYNoPenetration(old(y), s1.y, s1.velY, x, tiles);
      }
    }
  }
}
