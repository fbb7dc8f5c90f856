/** Coordinates of the slab map.  A slab is a square of 3x3 subtiles; subtile
    numbers are coded row by row with a stride of one more than the number of
    subtile columns, slab numbers row by row with a stride of the number of
    slab columns.  These are the game's map macros. */
module MapGeometry {
  import opened Common

  const STL_PER_SLB: nat := 3

  /** map_subtiles_x for a map that is `tilesX` slabs wide. */
  function SubtilesX(tilesX: nat): nat { tilesX * STL_PER_SLB }

  function StlNumDecodeX(stlNum: nat, tilesX: nat): nat { stlNum % (SubtilesX(tilesX) + 1) }
  function StlNumDecodeY(stlNum: nat, tilesX: nat): nat { stlNum / (SubtilesX(tilesX) + 1) }

  /** get_subtile_number */
  function SubtileNumber(stlX: nat, stlY: nat, tilesX: nat): nat { stlY * (SubtilesX(tilesX) + 1) + stlX }

  /** Decoding a subtile number gives back its coordinates, for every column
      on the map (and the one past it that the stride leaves room for). */
  lemma SubtileNumberRoundTrip(stlX: nat, stlY: nat, tilesX: nat)
    requires stlX <= SubtilesX(tilesX)
    ensures StlNumDecodeX(SubtileNumber(stlX, stlY, tilesX), tilesX) == stlX
    ensures StlNumDecodeY(SubtileNumber(stlX, stlY, tilesX), tilesX) == stlY
  {
    var w := SubtilesX(tilesX) + 1;
    var n := stlY * w + stlX;
    DivAtLeast(n, w, stlY);
    var q := n / w;
    assert q * w <= n;
    assert (stlY + 1) * w == stlY * w + w;
    MulLe(stlY + 1, q, w);
  }

  /** The subtile at the centre of a slab of the map. */
  function SlabCentreSubtile(slbNum: nat, tilesX: nat): nat
    requires tilesX > 0
  {
    SubtileNumber(SlabSubtileCenter(SlbNumDecodeX(slbNum, tilesX)), SlabSubtileCenter(SlbNumDecodeY(slbNum, tilesX)), tilesX)
  }

  /** The centre subtile of a slab on the map decodes to the centre of that
      slab, and lies inside it. */
  lemma SlabCentreRoundTrip(slbNum: nat, tilesX: nat, tilesY: nat)
    requires slbNum < tilesX * tilesY
    ensures tilesX > 0
    ensures StlNumDecodeX(SlabCentreSubtile(slbNum, tilesX), tilesX) == SlabSubtileCenter(SlbNumDecodeX(slbNum, tilesX))
    ensures StlNumDecodeY(SlabCentreSubtile(slbNum, tilesX), tilesX) == SlabSubtileCenter(SlbNumDecodeY(slbNum, tilesX))
    ensures SubtileSlab(StlNumDecodeX(SlabCentreSubtile(slbNum, tilesX), tilesX)) == SlbNumDecodeX(slbNum, tilesX)
    ensures SubtileSlab(StlNumDecodeY(SlabCentreSubtile(slbNum, tilesX), tilesX)) == SlbNumDecodeY(slbNum, tilesX)
  {
    WidthPositive(slbNum, tilesX, tilesY);
    var x, y := SlbNumDecodeX(slbNum, tilesX), SlbNumDecodeY(slbNum, tilesX);
    assert SlabSubtileCenter(x) <= SubtilesX(tilesX);
    SubtileNumberRoundTrip(SlabSubtileCenter(x), SlabSubtileCenter(y), tilesX);
  }

  /** subtile_slab_fast */
  function SubtileSlab(stl: nat): nat { stl / STL_PER_SLB }

  /** slab_subtile_center */
  function SlabSubtileCenter(slb: nat): nat { slb * STL_PER_SLB + 1 }

  /** get_slab_number */
  function SlabNumber(slbX: nat, slbY: nat, tilesX: nat): nat { slbY * tilesX + slbX }

  /** slb_num_decode_x / slb_num_decode_y: the column and row of a slab
      number. */
  function SlbNumDecodeX(slbNum: nat, tilesX: nat): nat requires tilesX > 0 { slbNum % tilesX }
  function SlbNumDecodeY(slbNum: nat, tilesX: nat): nat requires tilesX > 0 { slbNum / tilesX }

  /** A map holding some slab has at least one slab column. */
  lemma WidthPositive(slbNum: nat, tilesX: nat, tilesY: nat)
    requires slbNum < tilesX * tilesY
    ensures tilesX > 0
  {
  }

  /** The slab holding subtile (stlX, stlY), or None where the map's slab
      lookup would hand out its invalid-slab sentinel. */
  function SlabAtSubtile(stlX: nat, stlY: nat, tilesX: nat, tilesY: nat): (r: Option<nat>)
    ensures r.Some? <==> SubtileSlab(stlX) < tilesX && SubtileSlab(stlY) < tilesY
    ensures r.Some? ==> r.value < tilesX * tilesY
    ensures r.Some? ==> r.value == SlabNumber(SubtileSlab(stlX), SubtileSlab(stlY), tilesX)
    // the slab found decodes back to the subtile's slab column and row
    ensures r.Some? ==> tilesX > 0 && SlbNumDecodeX(r.value, tilesX) == SubtileSlab(stlX)
                                   && SlbNumDecodeY(r.value, tilesX) == SubtileSlab(stlY)
  {
    var x, y := SubtileSlab(stlX), SubtileSlab(stlY);
    if x < tilesX && y < tilesY then
      SlabNumberInRange(x, y, tilesX, tilesY);
      SlabNumberRoundTrip(x, y, tilesX);
      Some(SlabNumber(x, y, tilesX))
    else None
  }

  /** Decoding a slab number gives back its column and row. */
  lemma SlabNumberRoundTrip(slbX: nat, slbY: nat, tilesX: nat)
    requires slbX < tilesX
    ensures SlbNumDecodeX(SlabNumber(slbX, slbY, tilesX), tilesX) == slbX
    ensures SlbNumDecodeY(SlabNumber(slbX, slbY, tilesX), tilesX) == slbY
  {
    var n := SlabNumber(slbX, slbY, tilesX);
    DivAtLeast(n, tilesX, slbY);
    var q := n / tilesX;
    assert q * tilesX <= n;
    assert (slbY + 1) * tilesX == slbY * tilesX + tilesX;
    MulLe(slbY + 1, q, tilesX);
  }

  lemma SlabNumberInRange(x: nat, y: nat, tilesX: nat, tilesY: nat)
    requires x < tilesX && y < tilesY
    ensures SlabNumber(x, y, tilesX) < tilesX * tilesY
  {
    assert y * tilesX + x < (y + 1) * tilesX;
    assert (y + 1) * tilesX <= tilesY * tilesX;
  }
}
