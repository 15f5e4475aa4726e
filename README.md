# Ammann–Beenker substitution tiling

A model of the substitution engine of the tiling generator in `src/main.rs`.
The program builds a tiling from two prototiles, a "Rhombus" and a "Square".
Each tile has a centre, a size, an angle and a colour.

- One inflation step (`Tile::subdivide`) replaces a Rhombus by two Rhombi and one Square.
- It replaces a Square by four Rhombi.
- Every child is placed, turned and scaled by fixed amounts relative to its parent.
- Every child is coloured from its own centre.
- `subdivide_recursively` applies the step `depth` times and flattens the tree of tiles, in pre-order, into one list.
- `main` expands two seeds to depth 5 and concatenates the results.
- `Tile::vertices` gives the four outline points that are drawn.

Files and modules:

- `geometry.dfy`, module `Geometry`: points, the constants `Pi` (`PI`), `Sqrt2` (`SQRT_2`), `RhombusAngle` (`RHOMBUS_ANGLE`) and `SquareSizeRatio` (`SQUARE_SIZE_RATIO`), and `point_at_angle_and_distance`.
- `tiles.dfy`, module `Tiles`: the `Tile` datatype, colours, `vertices` and `subdivide`, with lemmas about the children of one tile.
- `expansion.dfy`, module `Expansion`: the expansion as the pure functions `Expand`/`ExpandAll`, the imperative accumulator loop `SubdivideRecursively` proved equal to them, and lemmas about every depth.
- `tiling.dfy`, module `Tiling`: the seeds `main` builds (`InitialTiles`), the tiles it draws (`DrawnTiles`), and its append loop (`GenerateTiles`).

Modelling decisions:

- Coordinates, sizes and angles are exact `real`s.
- `cos` and `sin` are library calls. They are a parameter `trig: Trig`, so every result holds for any pair of functions.
- The distance lemmas assume only `Pythagorean(trig)`, i.e. cos² + sin² = 1.
- `SQRT_2` is the program's own literal, 1.4142135623730950, not the exact square root of 2.
- So the Square child of a Rhombus has size `size / (SQRT_2 · SQRT_2)`. `SquareChildIsHalf` bounds this size: it is above `size/2` and below `size/2 + size·10⁻¹⁵`. With the exact root the size would be exactly `size/2`.
- A colour is the value `Gradient(center, imgCenter, imgSize)`: the three arguments `gradient_color` was called with. A seed's empty colour string is `Blank`.
- No lemma uses the fact that distinct arguments give distinct colours. So every colour result holds for any colour function of those three arguments that never returns the seeds' empty colour (`GradientColor` ensures only that).

Two facts about the code:

- The Rhombus outline is not a square: its four points lie 45 degrees apart on one circle of radius `size` and span 135 degrees (src/main.rs:39-47).
- Nothing in the code checks that size is positive. The model accepts any size and proves that positive seeds give positive tiles at every depth (`ExpandAllPositive`, `TilingInvariants`).

## Model

| member | source | states |
|---|---|---|
| `Geometry.PointAtAngleAndDistance` | src/main.rs:161-166 | walking a zero distance stays at the origin; a zero cosine keeps x, a zero sine keeps y |
| `Geometry.PointAtDistance` | src/main.rs:161-166 | if cos² + sin² = 1, the new point is exactly `distance` from the origin, whatever the angle |
| `Geometry.Sqrt2Approximates` | src/main.rs:5 | the `SQRT_2` literal is positive and its square lies within 10⁻¹⁵ below 2 |
| `Tiles.GradientColor` | src/main.rs:9-14 | a gradient colour is never the empty colour string of the seeds; it depends only on the tile's centre and the image centre and size |
| `Tiles.Vertices` | src/main.rs:36-65 | exactly 4 points; point k is at angle + k·π/4 and radius size for a Rhombus, and at angle + k·π/2 and radius size/SQRT_2 for a Square |
| `Tiles.VerticesOnCircle` | src/main.rs:36-65 | if cos² + sin² = 1, every vertex is at distance size (Rhombus) or size/SQRT_2 (Square) from the centre |
| `Tiles.Subdivide` | src/main.rs:67-142 | a Rhombus gives exactly 3 children in the order Rhombus, Rhombus, Square; a Square gives exactly 4 Rhombi; each child's colour is `gradient_color` of its own centre and the image parameters |
| `Tiles.ChildAngles` | src/main.rs:76-112 | Rhombus children turn by +π/4, +π/4+π and 0; Square children turn by 0, π/2, π and 3π/2, in that order |
| `Tiles.ChildCentres` | src/main.rs:72-107 | each child centre is `point_at_angle_and_distance` from the parent centre; for a Rhombus the headings are angle, angle+π and angle+π/4 at distance size/2; for a Square they are angle + k·π/2 at distance size/SQRT_2 |
| `Tiles.ChildSizes` | src/main.rs:70-102 | Rhombus children are SQRT_2 times smaller; the Square child is SQRT_2·SQRT_2 times smaller; Square children are SQRT_2 times larger; a positive parent size gives positive child sizes |
| `Tiles.SquareChildIsHalf` | src/main.rs:93-97 | the Square child of a positive Rhombus has size above size/2 and below size/2 + size·10⁻¹⁵ |
| `Tiles.ChildCentresAtDistance` | src/main.rs:72-107 | if cos² + sin² = 1, every child centre is at distance size/2 (Rhombus parent) or size/SQRT_2 (Square parent) from the parent centre |
| `Tiles.SubdivideIgnoresColor` | src/main.rs:67-142 | the parent's colour does not affect its children |
| `Tiles.ChildrenOnAngleGrid` | src/main.rs:76-112 | if the parent's angle differs from a base angle by a multiple of π/4, so does every child's angle |
| `Tiles.ChildrenCensus` | src/main.rs:80-139 | a Rhombus gives 2 Rhombi and 1 Square; a Square gives 4 Rhombi and no Square |
| `Tiles.SubdivideOutlines` | src/main.rs:67-142 | the children's shapes, centres, sizes and angles depend only on the parent's; the parent's colour and the image centre and size do not affect them |
| `Expansion.Expand` | src/main.rs:180-190 | the expansion of one tile always has at least one tile; at depth 0 it is exactly `[tile]` |
| `Expansion.ExpandAll` | src/main.rs:184-187 | concatenating the expansions of a sequence gives at least as many tiles as the sequence has; an empty sequence gives none |
| `Expansion.SubdivideRecursively` | src/main.rs:180-190 | the loop that appends each child's depth−1 expansion returns exactly `Expand(tile, depth)`; its loop invariant says the result so far is the concatenated expansions of the first i children |
| `Expansion.ExpandAllSnoc` | src/main.rs:184-187 | one loop step: the first i+1 children expand to the first i children's expansion followed by child i's |
| `Expansion.ExpandAllAppend` | src/main.rs:184-187 | expanding a concatenation gives the concatenation of the expansions |
| `Expansion.ExpandAllLeaves` | src/main.rs:181-182 | a sequence expanded to depth 0 is unchanged |
| `Expansion.ExpandCompose` | src/main.rs:180-190 | expanding every tile of a depth-d expansion by e more levels gives the depth d+e expansion |
| `Expansion.ExpandAllCompose` | src/main.rs:180-190 | the same composition law for a sequence of tiles |
| `Expansion.ExpandNext` | src/main.rs:180-190 | the depth d+1 expansion is the depth-d expansion with each tile substituted once, in place |
| `Expansion.ExpandLength` | src/main.rs:180-190 | the output length is R(d) for a Rhombus and S(d) for a Square, where R(0) = S(0) = 1, R(d+1) = 2R(d) + S(d) and S(d+1) = 4R(d) |
| `Expansion.ExpandAllLength` | src/main.rs:184-187 | a sequence's expansion has as many tiles as the sum of its members' R(d) or S(d) |
| `Expansion.SubstitutionCensus` | src/main.rs:180-190 | one level of expansion turns r Rhombi and s Squares into 2r + 4s Rhombi and r Squares |
| `Expansion.ExpandCensusNext` | src/main.rs:180-190 | the same census step, from the depth-d expansion of one tile to its depth d+1 expansion |
| `Expansion.ExpandCensus` | src/main.rs:180-190 | the Rhombus and Square counts at depth d follow that substitution matrix, starting from the seed alone |
| `Expansion.ExpandCensusTotal` | src/main.rs:180-190 | the Rhombus and Square counts of the substitution matrix add up to the length recurrence R(d) or S(d) |
| `Expansion.ExpandAllPositive` | src/main.rs:180-190 | positive sizes stay positive at every depth |
| `Expansion.ExpandAllAngles` | src/main.rs:180-190 | angles that differ from a base angle by multiples of π/4 still do after any number of levels |
| `Expansion.ExpandAngles` | src/main.rs:180-190 | every angle in a tile's expansion is that tile's angle plus a multiple of π/4 |
| `Expansion.ExpandColors` | src/main.rs:180-190 | from depth 1 on, every output tile has the `gradient_color` of its own centre, so tiles with equal centres have equal colours |
| `Expansion.ExpandAllColors` | src/main.rs:180-190 | tiles already coloured from their own centres keep that property at every depth |
| `Expansion.ExpandIgnoresSeedColor` | src/main.rs:180-190 | from depth 1 on, the seed's colour does not affect the expansion |
| `Expansion.ExpandAllGeometry` | src/main.rs:180-190 | the shapes, centres, sizes and angles of an expansion depend only on those of its input; the colours, the image centre and the image size do not affect them |
| `Tiling.GenerateTiles` | src/main.rs:193-219 | the append loop of `main`: it returns the two seeds' depth-5 expansions, concatenated; 752 tiles, 576 Rhombi and 176 Squares |
| `Tiling.InitialTiles` | src/main.rs:194-213 | two seeds at the image centre (400, 400) with the empty colour: a Rhombus of size 200 at angle 0, then a Square of size 200·SQUARE_SIZE_RATIO at angle π/4 |
| `Tiling.DrawnTiles` | src/main.rs:215-219 | the drawn tiles are the Rhombus seed's depth-5 expansion followed by the Square seed's |
| `Tiling.TilingCensus` | src/main.rs:200-219 | the Rhombus seed gives 336 tiles (256 Rhombi, 80 Squares), the Square seed 416 (320 Rhombi, 96 Squares): 752 in all, 576 Rhombi and 176 Squares |
| `Tiling.TilingInvariants` | src/main.rs:200-219 | every drawn tile has a positive size, an angle that is a multiple of π/4, and the colour of its own centre |

## Left out

- Floating-point arithmetic: `f64` rounding in `cos`, `sin`, the divisions and the sums is not modelled. Every quantity is an exact real.
- `cos` and `sin` (src/main.rs:163-164) are library calls: they are the `trig` parameter. No numeric vertex position is proved.
- `gradient_color`'s hue arithmetic (`powi`, `sqrt`, the ratio to half the image size) and its `format!` string (src/main.rs:9-14) are not modelled. Each colour is kept as the arguments the function was called with.
- `to_svg_polygon` and the SVG document assembly (src/main.rs:144-156, 221-226) are not modelled. They only turn floats into text.
- The `std::fs::write` call (src/main.rs:228) is file output and is not modelled.
- `rotate_point_about_center` (src/main.rs:168-177) is never called and is not modelled.
- The unused `rand::Rng` import (src/main.rs:2) is not modelled.
- `Vec::append` moves the elements out of its argument. The model only concatenates values, so ownership and in-place reuse of the vector's storage are not modelled.
- `Tiles.SquareChildIsHalf`: states "half the parent's size" only within 10⁻¹⁵ of the parent's size, because `SQRT_2` is a decimal literal and not the exact root.
