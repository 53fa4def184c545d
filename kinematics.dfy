/** The axis-separated move-and-slide of the player's 32 x 32 body against
    the list of solid tiles, one axis at a time. Each pass is a left fold
    over the tile list; one step of the fold is one iteration of the
    corresponding `for tile in tiles` loop. */
module Kinematics {
  import opened Geometry

  const PLAYER_SIZE := 32

  /** The player's rectangle with its top-left corner at (x, y). */
  function Body(x: int, y: int): Rect {
    Rect(x, y, PLAYER_SIZE, PLAYER_SIZE)
  }

  // ---------------------------------------------------------------------
  // Horizontal pass

  /** One iteration of the horizontal loop: on contact, moving right puts the
      body's right edge on the tile's left edge, moving left puts the body's
      left edge on the tile's right edge. */
  function ClampX(x: int, y: int, velX: int, tile: Rect): (nx: int)
    ensures nx != x ==> Collides(Body(x, y), tile) && velX != 0
    ensures velX > 0 ==> nx <= x
    ensures velX < 0 ==> nx >= x
    ensures Collides(Body(x, y), tile) && velX != 0 ==> !Collides(Body(nx, y), tile)
    ensures Collides(Body(x, y), tile) && velX > 0 ==> Body(nx, y).Right() == tile.left
    ensures Collides(Body(x, y), tile) && velX < 0 ==> nx == tile.Right()
  {
    if Collides(Body(x, y), tile) then
      (if velX > 0 then tile.left - PLAYER_SIZE else if velX < 0 then tile.Right() else x)
    else x
  }

  /** The x coordinate after the horizontal loop has visited every tile,
      starting from the already shifted coordinate `x`. */
  function SweepX(x: int, y: int, velX: int, tiles: seq<Rect>): int
    decreases |tiles|
  {
    if tiles == [] then x else SweepX(ClampX(x, y, velX, tiles[0]), y, velX, tiles[1..])
  }

  /** With no horizontal velocity no clamp fires: x stays at its shifted value. */
  lemma {:induction false} SweepXStationary(x: int, y: int, tiles: seq<Rect>)
    ensures SweepX(x, y, 0, tiles) == x
  {
    if tiles != [] {
      SweepXStationary(x, y, tiles[1..]);
    }
  }

  /** Clamps only push back against the direction of motion. */
  lemma {:induction false} SweepXBacksOff(x: int, y: int, velX: int, tiles: seq<Rect>)
    ensures velX > 0 ==> SweepX(x, y, velX, tiles) <= x
    ensures velX < 0 ==> SweepX(x, y, velX, tiles) >= x
    decreases |tiles|
  {
    if tiles != [] {
      SweepXBacksOff(ClampX(x, y, velX, tiles[0]), y, velX, tiles[1..]);
    }
  }

  /** If the shifted body touches no tile, the pass leaves it where it is. */
  lemma {:induction false} SweepXNoContact(x: int, y: int, velX: int, tiles: seq<Rect>)
    requires forall i :: 0 <= i < |tiles| ==> !Collides(Body(x, y), tiles[i])
    ensures SweepX(x, y, velX, tiles) == x
  {
    if tiles != [] {
      assert !Collides(Body(x, y), tiles[0]);
      SweepXNoContact(x, y, velX, tiles[1..]);
    }
  }

  /** A tile the body was clamped against at step `k` of the pass is not
      re-entered by any later clamp of the same pass. */
  lemma {:induction false} SweepXClearOfClampedTile(x: int, y: int, velX: int, tiles: seq<Rect>, k: nat)
    requires velX != 0 && k < |tiles|
    requires Collides(Body(SweepX(x, y, velX, tiles[..k]), y), tiles[k])
    ensures !Collides(Body(SweepX(x, y, velX, tiles), y), tiles[k])
    decreases |tiles|
  {
    if k == 0 {
      assert tiles[..0] == [];
      var nx := ClampX(x, y, velX, tiles[0]);
      SweepXBacksOff(nx, y, velX, tiles[1..]);
    } else {
      assert tiles[..k][0] == tiles[0];
      assert tiles[..k][1..] == tiles[1..][..k - 1];
      SweepXClearOfClampedTile(ClampX(x, y, velX, tiles[0]), y, velX, tiles[1..], k - 1);
    }
  }

  /** Moving right by at most one body width from `x0`, where the body was
      clear of every tile, the pass keeps x in [x0, x] and leaves the body
      clear of every tile it visits. */
  lemma {:induction false} SweepXClearRight(x0: int, x: int, y: int, velX: int, tiles: seq<Rect>)
    requires 0 < velX <= PLAYER_SIZE && x0 <= x <= x0 + velX
    requires forall i :: 0 <= i < |tiles| ==> tiles[i].width > 0 && !Collides(Body(x0, y), tiles[i])
    ensures x0 <= SweepX(x, y, velX, tiles) <= x
    ensures forall i :: 0 <= i < |tiles| ==> !Collides(Body(SweepX(x, y, velX, tiles), y), tiles[i])
    decreases |tiles|
  {
    if tiles != [] {
      var t := tiles[0];
      assert t.width > 0 && !Collides(Body(x0, y), t);
      var x1 := ClampX(x, y, velX, t);
      SweepXClearRight(x0, x1, y, velX, tiles[1..]);
      var nx := SweepX(x, y, velX, tiles);
      assert nx == SweepX(x1, y, velX, tiles[1..]);
      forall i | 0 <= i < |tiles|
        ensures !Collides(Body(nx, y), tiles[i])
      {
        if i > 0 {
          assert tiles[i] == tiles[1..][i - 1];
        }
      }
    }
  }

  /** The mirror image of SweepXClearRight for a body moving left. */
  lemma {:induction false} SweepXClearLeft(x0: int, x: int, y: int, velX: int, tiles: seq<Rect>)
    requires -PLAYER_SIZE <= velX < 0 && x0 + velX <= x <= x0
    requires forall i :: 0 <= i < |tiles| ==> tiles[i].width > 0 && !Collides(Body(x0, y), tiles[i])
    ensures x <= SweepX(x, y, velX, tiles) <= x0
    ensures forall i :: 0 <= i < |tiles| ==> !Collides(Body(SweepX(x, y, velX, tiles), y), tiles[i])
    decreases |tiles|
  {
    if tiles != [] {
      var t := tiles[0];
      assert t.width > 0 && !Collides(Body(x0, y), t);
      var x1 := ClampX(x, y, velX, t);
      SweepXClearLeft(x0, x1, y, velX, tiles[1..]);
      var nx := SweepX(x, y, velX, tiles);
      assert nx == SweepX(x1, y, velX, tiles[1..]);
      forall i | 0 <= i < |tiles|
        ensures !Collides(Body(nx, y), tiles[i])
      {
        if i > 0 {
          assert tiles[i] == tiles[1..][i - 1];
        }
      }
    }
  }

  /** No penetration after the horizontal pass: a body that was clear of
      every tile and moves by at most its own width in either direction
      (the run speed is 5) ends clear of every tile. */
  lemma SweepXNoPenetration(x0: int, y: int, velX: int, tiles: seq<Rect>)
    requires WithinOneWidth(velX) && PositiveWidths(tiles) && ClearOfTiles(x0, y, tiles)
    ensures ClearOfTiles(SweepX(x0 + velX, y, velX, tiles), y, tiles)
  {
    if velX > 0 {
      SweepXClearRight(x0, x0 + velX, y, velX, tiles);
    } else {
      SweepXClearLeft(x0, x0 + velX, y, velX, tiles);
    }
  }

  /** The body at (x, y) overlaps none of `tiles`. */
  predicate ClearOfTiles(x: int, y: int, tiles: seq<Rect>) {
    forall i :: 0 <= i < |tiles| ==> !Collides(Body(x, y), tiles[i])
  }

  predicate PositiveWidths(tiles: seq<Rect>) {
    forall i :: 0 <= i < |tiles| ==> tiles[i].width > 0
  }

  /** A nonzero horizontal speed of at most one body width. */
  predicate WithinOneWidth(velX: int) {
    0 < velX <= PLAYER_SIZE || -PLAYER_SIZE <= velX < 0
  }

  /** The bound on the speed is needed: a body clear of both tiles, moving
      right by more than its width, passes the first tile and is then clamped
      by the second back into it. */
  lemma SweepXFastMovePenetrates()
    ensures !Collides(Body(0, 0), Rect(32, 0, 32, 32)) && !Collides(Body(0, 0), Rect(72, 0, 32, 32)) &&
      Collides(Body(SweepX(70, 0, 70, [Rect(32, 0, 32, 32), Rect(72, 0, 32, 32)]), 0), Rect(32, 0, 32, 32))
  {
  }

  /** If the pass moved the body at all, the body ends flush against the
      edge of some tile: its right edge on a tile's left edge when moving
      right, its left edge on a tile's right edge when moving left. */
  lemma {:induction false} SweepXRestsOnTileEdge(x: int, y: int, velX: int, tiles: seq<Rect>)
    ensures var nx := SweepX(x, y, velX, tiles);
      nx == x || exists k :: 0 <= k < |tiles| && FlushAgainst(nx, velX, tiles[k])
    decreases |tiles|
  {
    if tiles != [] {
      var x1 := ClampX(x, y, velX, tiles[0]);
      var nx := SweepX(x, y, velX, tiles);
      SweepXRestsOnTileEdge(x1, y, velX, tiles[1..]);
      if nx == x1 {
        if x1 != x {
          assert FlushAgainst(nx, velX, tiles[0]);
        }
      } else {
        var k :| 0 <= k < |tiles[1..]| && FlushAgainst(nx, velX, tiles[1..][k]);
        assert FlushAgainst(nx, velX, tiles[k + 1]);
      }
    }
  }

  /** The pass does not keep the body clear of every tile. A body at x = 125
      overlaps the first tile; shifted right by 5 it is clear of it, so the
      loop passes it, and the second tile then clamps the body back into it. */
  lemma SweepXReentersPassedTile()
    ensures var ts := [Rect(96, 96, 32, 32), Rect(128, 96, 32, 32)];
      Collides(Body(125, 96), ts[0]) && Collides(Body(125, 96), ts[1]) &&
      SweepX(130, 96, 5, ts) == 96 &&
      !Collides(Body(130, 96), ts[0]) && Collides(Body(96, 96), ts[0])
  {
  }

  /** The body at `x` touches `tile` with its leading edge for the direction `velX`. */
  predicate FlushAgainst(x: int, velX: int, tile: Rect) {
    if velX > 0 then x + PLAYER_SIZE == tile.left else x == tile.Right()
  }

  // ---------------------------------------------------------------------
  // Vertical pass

  /** The state the vertical loop updates. */
  datatype Vertical = Vertical(y: int, velY: real, onGround: bool)

  /** One iteration of the vertical loop: a downward contact lands the body
      on the tile and stops it, an upward contact bumps its head on the
      tile's underside and stops it. */
  function ClampY(s: Vertical, x: int, tile: Rect): (r: Vertical)
    ensures r != s ==> Collides(Body(x, s.y), tile) && s.velY != 0.0
    ensures r != s ==> r.velY == 0.0 && !Collides(Body(x, r.y), tile)
    ensures r.onGround <==> s.onGround || (s.velY > 0.0 && Collides(Body(x, s.y), tile))
    ensures s.velY > 0.0 && Collides(Body(x, s.y), tile) ==> Body(x, r.y).Bottom() == tile.top
    ensures s.velY < 0.0 && Collides(Body(x, s.y), tile) ==> r.y == tile.Bottom()
  {
    var s1 := if Collides(Body(x, s.y), tile) && s.velY > 0.0
              then Vertical(tile.top - PLAYER_SIZE, 0.0, true) else s;
    if Collides(Body(x, s1.y), tile) && s1.velY < 0.0
    then Vertical(tile.Bottom(), 0.0, s1.onGround) else s1
  }

  /** The vertical state after the loop has visited every tile. */
  function SweepY(s: Vertical, x: int, tiles: seq<Rect>): Vertical
    decreases |tiles|
  {
    if tiles == [] then s else SweepY(ClampY(s, x, tiles[0]), x, tiles[1..])
  }

  /** The index of the first tile, in list order, that overlaps `body`;
      `|tiles|` when there is none. */
  function FirstContact(body: Rect, tiles: seq<Rect>): (k: nat)
    ensures k <= |tiles|
    ensures forall j :: 0 <= j < k ==> !Collides(body, tiles[j])
    ensures k < |tiles| ==> Collides(body, tiles[k])
  {
    if tiles == [] then 0
    else if Collides(body, tiles[0]) then 0
    else 1 + FirstContact(body, tiles[1..])
  }

  /** Once the body has stopped, the rest of the pass clamps nothing. */
  lemma {:induction false} SweepYSettled(s: Vertical, x: int, tiles: seq<Rect>)
    requires s.velY == 0.0
    ensures SweepY(s, x, tiles) == s
  {
    if tiles != [] {
      SweepYSettled(s, x, tiles[1..]);
    }
  }

  /** The vertical pass clamps against at most one tile: the first one, in
      list order, that the shifted body overlaps. */
  lemma {:induction false} SweepYFirstContact(s: Vertical, x: int, tiles: seq<Rect>)
    ensures var k := FirstContact(Body(x, s.y), tiles);
      SweepY(s, x, tiles) ==
        if k == |tiles| || s.velY == 0.0 then s
        else if s.velY > 0.0 then Vertical(tiles[k].top - PLAYER_SIZE, 0.0, true)
        else Vertical(tiles[k].Bottom(), 0.0, s.onGround)
  {
    if tiles != [] {
      if Collides(Body(x, s.y), tiles[0]) {
        var s1 := ClampY(s, x, tiles[0]);
        if s.velY != 0.0 {
          SweepYSettled(s1, x, tiles[1..]);
        } else {
          SweepYSettled(s, x, tiles[1..]);
        }
      } else {
        SweepYFirstContact(s, x, tiles[1..]);
      }
    }
  }

  /** Starting the pass with `onGround` false, it ends true exactly when the
      body was moving down and the shifted body overlaps some tile. */
  lemma LandedIffDownwardContact(y: int, velY: real, x: int, tiles: seq<Rect>)
    ensures SweepY(Vertical(y, velY, false), x, tiles).onGround <==>
      velY > 0.0 && exists j :: 0 <= j < |tiles| && Collides(Body(x, y), tiles[j])
  {
    SweepYFirstContact(Vertical(y, velY, false), x, tiles);
  }

  /** After the pass the vertical velocity is either untouched or zero, and
      it is zero whenever the moving body met a tile. */
  lemma StoppedIffContact(s: Vertical, x: int, tiles: seq<Rect>)
    requires s.velY != 0.0
    ensures var r := SweepY(s, x, tiles);
      (r.velY == 0.0 <==> exists j :: 0 <= j < |tiles| && Collides(Body(x, s.y), tiles[j])) &&
      (r.velY != 0.0 ==> r == s)
  {
    SweepYFirstContact(s, x, tiles);
  }

  /** Tiles laid on the 32-pixel grid vertically: height 32, top a multiple of 32. */
  predicate GridAligned(tiles: seq<Rect>) {
    forall i :: 0 <= i < |tiles| ==> tiles[i].height == PLAYER_SIZE && tiles[i].top % PLAYER_SIZE == 0
  }

  /** The vertical shift from y0 to y1 goes in the direction of velY, by at
      most one body height (none at all when velY is 0). */
  predicate ShiftWithinOneHeight(y0: int, y1: int, velY: real) {
    (velY > 0.0 && y0 <= y1 <= y0 + PLAYER_SIZE) ||
    (velY < 0.0 && y0 - PLAYER_SIZE <= y1 <= y0) ||
    (velY == 0.0 && y1 == y0)
  }

  /** No penetration after a falling pass: a body clear of every grid tile at
      y0, shifted down by at most its height, ends the pass clear of every tile. */
  lemma SweepYClearFalling(y0: int, y1: int, velY: real, x: int, tiles: seq<Rect>)
    requires velY > 0.0 && y0 <= y1 <= y0 + PLAYER_SIZE
    requires GridAligned(tiles) && ClearOfTiles(x, y0, tiles)
    ensures ClearOfTiles(x, SweepY(Vertical(y1, velY, false), x, tiles).y, tiles)
  {
    var s := Vertical(y1, velY, false);
    SweepYFirstContact(s, x, tiles);
    var k := FirstContact(Body(x, y1), tiles);
    if k < |tiles| {
      var ry := tiles[k].top - PLAYER_SIZE;
      assert !Collides(Body(x, y0), tiles[k]);
      forall i | 0 <= i < |tiles|
        ensures !Collides(Body(x, ry), tiles[i])
      {
        assert !Collides(Body(x, y0), tiles[i]);
      }
    }
  }

  /** The mirror image of SweepYClearFalling for a rising body. */
  lemma SweepYClearRising(y0: int, y1: int, velY: real, x: int, tiles: seq<Rect>)
    requires velY < 0.0 && y0 - PLAYER_SIZE <= y1 <= y0
    requires GridAligned(tiles) && ClearOfTiles(x, y0, tiles)
    ensures ClearOfTiles(x, SweepY(Vertical(y1, velY, false), x, tiles).y, tiles)
  {
    var s := Vertical(y1, velY, false);
    SweepYFirstContact(s, x, tiles);
    var k := FirstContact(Body(x, y1), tiles);
    if k < |tiles| {
      var ry := tiles[k].Bottom();
      assert !Collides(Body(x, y0), tiles[k]);
      forall i | 0 <= i < |tiles|
        ensures !Collides(Body(x, ry), tiles[i])
      {
        assert !Collides(Body(x, y0), tiles[i]);
      }
    }
  }

  /** No penetration after the vertical pass, in all three directions of velY. */
  lemma SweepYNoPenetration(y0: int, y1: int, velY: real, x: int, tiles: seq<Rect>)
    requires ShiftWithinOneHeight(y0, y1, velY)
    requires GridAligned(tiles) && ClearOfTiles(x, y0, tiles)
    ensures ClearOfTiles(x, SweepY(Vertical(y1, velY, false), x, tiles).y, tiles)
  {
    if velY > 0.0 {
      SweepYClearFalling(y0, y1, velY, x, tiles);
    } else if velY < 0.0 {
      SweepYClearRising(y0, y1, velY, x, tiles);
    } else {
      SweepYSettled(Vertical(y1, velY, false), x, tiles);
    }
  }

  /** Grid alignment is needed: with tiles off the grid, a falling body clear
      of both tiles lands on the first and ends inside the second. */
  lemma SweepYMisalignedPenetrates()
    ensures !Collides(Body(0, 0), Rect(0, 40, 32, 32)) && !Collides(Body(0, 0), Rect(0, 35, 32, 32)) &&
      Collides(Body(0, SweepY(Vertical(10, 1.0, false), 0, [Rect(0, 40, 32, 32), Rect(0, 35, 32, 32)]).y),
               Rect(0, 35, 32, 32))
  {
  }
}
