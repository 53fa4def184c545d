/** The tile list the grid builds meets the hypotheses the clamping lemmas
    ask of the tiles: positive width and vertical grid alignment. */
module Level {
  import opened Geometry
  import TileGrid
  import opened Kinematics

  lemma SolidTilesFitSweeps(m: seq<seq<int>>)
    ensures PositiveWidths(TileGrid.SolidTiles(m)) && GridAligned(TileGrid.SolidTiles(m))
  {
    var ts := TileGrid.SolidTiles(m);
    TileGrid.SolidTilesAreSolidCells(m);
    forall i | 0 <= i < |ts|
      ensures ts[i].width > 0 && ts[i].height == PLAYER_SIZE && ts[i].top % PLAYER_SIZE == 0
    {
      assert TileGrid.IsTileOfSolidCell(m, ts[i], |m|);
      var r, c :| 0 <= r < |m| && TileGrid.IsSolidCell(m, r, c) && ts[i] == TileGrid.TileAt(r, c);
    }
  }
}
