/** The driver: two seed tiles sharing the image centre, each expanded to
    depth 5 and the results concatenated into the tiles that are drawn. */
module Tiling {
  import opened Geometry
  import opened Tiles
  import opened Expansion

  const ImgWidth: real := 800.0
  const ImgHeight: real := 800.0
  const BaseCenter: Point := Point(ImgWidth / 2.0, ImgHeight / 2.0)
  const InitialSize: real := ImgWidth / 4.0
  const Depth: nat := 5

  /** The seeds: a Rhombus at angle 0 and a Square turned by 45 degrees,
      both at the image centre and both with the empty colour. */
  function InitialTiles(): (r: seq<Tile>)
    ensures |r| == 2 && r[0].Rhombus? && r[1].Square?
    ensures forall i | 0 <= i < |r| :: r[i].center == BaseCenter && r[i].color == Blank && 0.0 < r[i].size
    ensures r[0].size == InitialSize && r[1].size * Sqrt2 == InitialSize
    ensures r[0].angle == 0.0 && r[1].angle == RhombusAngle
  {
    [ Rhombus(BaseCenter, InitialSize, 0.0, Blank),
      Square(BaseCenter, InitialSize * SquareSizeRatio, RhombusAngle, Blank) ]
  }

  /** What is drawn: the Rhombus seed's expansion followed by the Square
      seed's. */
  function DrawnTiles(trig: Trig): (r: seq<Tile>)
    ensures r == Expand(trig, InitialTiles()[0], Depth, BaseCenter, ImgWidth)
               + Expand(trig, InitialTiles()[1], Depth, BaseCenter, ImgWidth)
  {
    ExpandAll(trig, InitialTiles(), Depth, BaseCenter, ImgWidth)
  }

  /** The loop of `main` that appends each seed's expansion to `tiles`. */
  method GenerateTiles(trig: Trig) returns (tiles: seq<Tile>)
    ensures tiles == DrawnTiles(trig)
    ensures |tiles| == 752
    ensures CountRhombi(tiles) == 576 && CountSquares(tiles) == 176
  {
    var initialTiles := InitialTiles();
    tiles := [];
    for i := 0 to |initialTiles|
      invariant tiles == ExpandAll(trig, initialTiles[..i], Depth, BaseCenter, ImgWidth)
    {
      var expanded := SubdivideRecursively(trig, initialTiles[i], Depth, BaseCenter, ImgWidth);
      ExpandAllSnoc(trig, initialTiles, i, Depth, BaseCenter, ImgWidth);
      tiles := tiles + expanded;
    }
    ExpandAllWhole(trig, initialTiles, Depth, BaseCenter, ImgWidth);
    TilingCensus(trig);
  }

  /** 336 tiles from the Rhombus seed and 416 from the Square seed: 576 Rhombi
      and 176 Squares in all. */
  lemma TilingCensus(trig: Trig)
    ensures var a := Expand(trig, InitialTiles()[0], Depth, BaseCenter, ImgWidth);
      |a| == 336 && CountRhombi(a) == 256 && CountSquares(a) == 80
    ensures var b := Expand(trig, InitialTiles()[1], Depth, BaseCenter, ImgWidth);
      |b| == 416 && CountRhombi(b) == 320 && CountSquares(b) == 96
    ensures |DrawnTiles(trig)| == 752
    ensures CountRhombi(DrawnTiles(trig)) == 576 && CountSquares(DrawnTiles(trig)) == 176
  {
    var seeds := InitialTiles();
    var a := Expand(trig, seeds[0], Depth, BaseCenter, ImgWidth);
    var b := Expand(trig, seeds[1], Depth, BaseCenter, ImgWidth);
    ExpandLength(trig, seeds[0], Depth, BaseCenter, ImgWidth);
    ExpandLength(trig, seeds[1], Depth, BaseCenter, ImgWidth);
    assert RhombusYield(5) == 336 && SquareYield(5) == 416 by {
      assert RhombusYield(1) == 3 && SquareYield(1) == 4;
      assert RhombusYield(2) == 10 && SquareYield(2) == 12;
      assert RhombusYield(3) == 32 && SquareYield(3) == 40;
      assert RhombusYield(4) == 104 && SquareYield(4) == 128;
    }
    ExpandCensus(trig, seeds[0], Depth, BaseCenter, ImgWidth);
    ExpandCensus(trig, seeds[1], Depth, BaseCenter, ImgWidth);
    assert RhombiAt(seeds[0], 5) == 256 && SquaresAt(seeds[0], 5) == 80 by {
      assert RhombiAt(seeds[0], 1) == 2 && SquaresAt(seeds[0], 1) == 1;
      assert RhombiAt(seeds[0], 2) == 8 && SquaresAt(seeds[0], 2) == 2;
      assert RhombiAt(seeds[0], 3) == 24 && SquaresAt(seeds[0], 3) == 8;
      assert RhombiAt(seeds[0], 4) == 80 && SquaresAt(seeds[0], 4) == 24;
    }
    assert RhombiAt(seeds[1], 5) == 320 && SquaresAt(seeds[1], 5) == 96 by {
      assert RhombiAt(seeds[1], 1) == 4 && SquaresAt(seeds[1], 1) == 0;
      assert RhombiAt(seeds[1], 2) == 8 && SquaresAt(seeds[1], 2) == 4;
      assert RhombiAt(seeds[1], 3) == 32 && SquaresAt(seeds[1], 3) == 8;
      assert RhombiAt(seeds[1], 4) == 96 && SquaresAt(seeds[1], 4) == 32;
    }
    CountAppend(a, b);
  }

  /** Every drawn tile has a positive size, an angle that is a multiple of
      pi/4, and the colour of its own centre. */
  lemma TilingInvariants(trig: Trig)
    ensures AllPositive(DrawnTiles(trig))
    ensures AllOnAngleGrid(DrawnTiles(trig), 0.0)
    ensures AllGradient(DrawnTiles(trig), BaseCenter, ImgWidth)
  {
    var seeds := InitialTiles();
    assert AllPositive(seeds);
    assert OnAngleGrid(seeds[0].angle, 0.0) by {
      assert seeds[0].angle == 0.0 + Turn(0);
    }
    assert OnAngleGrid(seeds[1].angle, 0.0) by {
      assert seeds[1].angle == 0.0 + Turn(1);
    }
    ExpandAllPositive(trig, seeds, Depth, BaseCenter, ImgWidth);
    ExpandAllAngles(trig, seeds, 0.0, Depth, BaseCenter, ImgWidth);
    var a := Expand(trig, seeds[0], Depth, BaseCenter, ImgWidth);
    var b := Expand(trig, seeds[1], Depth, BaseCenter, ImgWidth);
    ExpandColors(trig, seeds[0], Depth, BaseCenter, ImgWidth);
    ExpandColors(trig, seeds[1], Depth, BaseCenter, ImgWidth);
    assert forall i | 0 <= i < |a + b| :: (a + b)[i] == if i < |a| then a[i] else b[i - |a|];
  }
}
