# Renderer algorithms: a verified model

This project models the algorithms of the GPU renderer whose correctness rests on loop invariants and
on the order of updates, and proves what they are for:

- **Patches.** A bezier patch becomes a grid: a cyclic subdivision loop without a bound in its header,
  points moved onto the surface, in-place culling, an in-place quarter turn, and a triangle list
  (`Subdivision`, `SplitRuns`, `LineDistance`, `PatchSurface`, `Culling`, `GridShape`, `PatchBuild`). The main
  result is `PatchBuild.SubdividePatchToGrid`: whatever the patch, the finished grid samples its surface, on
  just the lines that subdivision to within the tolerance has left unmarked; `SplitRuns.OneSubdivision` adds that
  the spans it is cut into do not depend on the order of the splits.
- **Stitching and levels of detail.** Missing border vertices are inserted into neighbouring grids
  until nothing is pending, and level-of-detail errors spread over touching grids by a depth-first
  search, of which every error's origin is known (`GridInsert`, `Stitching`, `StitchGrowth`, `StitchRuns`,
  `StitchWorld`, `LodErrors`, `LodFix`). What their comparisons mean on the vertex lists is in `EdgeReference`.
- **Texture kernels.** RGTC2 compression against the decoder of Appendix C.1 of the OpenGL 3.3
  specification, the two sliding-window interpolators against direct sampling, and the in-place
  spreading of a half-size texture (`Rgtc`, `RgtcImage`, `Raster`, `Fcbi`,
  `FcbiQuick`, `FcbiReference`, `ExpandTexture`).
- **The command list.** A writer with a reserve and a reader with alignment, over one byte buffer
  (`RenderCommands`).
- **The flare pool.** Two intrusive lists over 128 structs (`Flares`).
- **GL caches.** The state vector, culling, texture, program and framebuffer bindings against a device
  that does whatever it is told (`GlState`, `GlBindings`).
- **Glyph pages, the lightmap atlas and the shader source scan** (`GlyphPages`, `LightmapAtlas`, `GlslBlocks`).

Objects that the original updates in place are classes or arrays here, and each loop is proved against
a specification on values; the lemmas about those specifications carry the main results. `dafny verify
dfyconfig.toml` checks everything.

## Conventions

- Floating-point numbers are reals. Integers are unbounded except for bytes and the GL state bits,
  which are 64-bit vectors. `MAX_GRID_SIZE` is a parameter, and so are the square root, the distance
  test of the subdivision loop, the depth read-back of flares and the sizes of command structs (of
  which only that of the swap command is fixed). `Subdivision.RendererTuning` is the original's distance test.
- The error table's two rows are two arrays. A pointer to a pointer in the flare list is the flare
  before, or null for the list's head; a flare's fields other than its link are one record.
- Patches have odd dimensions of at least 3 and at most `MAX_GRID_SIZE`, as the patches
  of a map have. Images given to the interpolators have the border of two pixels that their comment asks
  for, so each side is at least 5.
- The command buffer starts at an address that is a multiple of 8: the struct members before it have
  sizes that are multiples of 8.

## Where the code falls short of its promise

Each of these is proved to happen exactly under the condition named, and shown to happen:

- Culling skips the line that slides into the freed slot, so of two neighbouring marks one survives
  (`Culling.CullIsFilter`, `Culling.AdjacentMarkSurvives`). The marks of the subdivision never are neighbours.
- The quick interpolator copies back one row or column more than it has worked out when a side is odd
  (`FcbiQuick.DirectIfRangesAgree`, `FcbiQuick.StaleOtherwise`). Its caller uses even sides.
- At the start of a left-eye anaglyph frame the space for one command can be taken and never written; the
  back end then goes by the bytes that were there (`RenderCommands.RenderCommandList.BeginFrameLeft`,
  `RenderCommands.RenderCommandList.EndFrame`, `RenderCommands.LoseSwap`).
- A request for blend factors that do not exist is stored before it fails, and leaves the record wrong
  (`GlState.StateVector.GL_State`, `GlState.HalfABlend`).
- The texture cache knows one texture for each unit, not for each target
  (`GlBindings.TextureCache.GL_BindMultiTexture`, `GlBindings.UnbindTwice`).
- Editing a framebuffer by name without direct state access does not tell the current FBO
  (`GlBindings.BindingCache.GLDSA_NamedFramebufferEdit`, `GlBindings.EditThenBind`).
- A glyph that an empty page refuses makes the page loop run for ever (`GlyphPages.EndsIff`,
  `GlyphPages.HighGlyphHangs`).
- A glyph that is placed sticks out of its page if it is wider than the page
  (`GlyphPages.PlacedInPageIff`, `GlyphPages.WideGlyphSticksOut`).
- The last of an odd number of lightmaps is not uploaded with deluxe mapping, though a surface may use it
  (`LightmapAtlas.LoadLightmaps`, `LightmapAtlas.ThirdOfThree`).
- The first line of a shader block is one too many for each header so far that does not end its line
  (`GlslBlocks.LinesRightIff`, `GlslBlocks.HeaderInLine`).
- The scan of a shader source reads on behind the end of the text exactly if it comes to a header that the end of
  the text closes (`GlslBlocks.ScanBlocks`, `GlslBlocks.HeaderEndsText`).
- An atlas page outgrows the largest texture size unless that is reached by doubling,
  or four rows are enough (`LightmapAtlas.PageWithinLimitIff`, `LightmapAtlas.PagesWithinLimitIff`,
  `LightmapAtlas.SixIsPassed`).

## Model

| member | source | states |
|---|---|---|
| Bezier.Halve | src/engine/GPURenderer/r_curve.cpp:53-89 | De Casteljau's step as the loop takes it: from the control points of a sub-curve it makes exactly those of the sub-curve's two halves |
| Bezier.SettleIsMidCurve | src/engine/GPURenderer/r_curve.cpp:426-428 | the value given to an odd point is the point of its curve half way along its span |
| Bezier.SettleCurves | src/engine/GPURenderer/r_curve.cpp:416-442 | settling along one direction commutes with evaluating curves along the other; this is why the two passes of the grid commute with the tensor product |
| Subdivision.SplitSpanTiles | src/engine/GPURenderer/r_curve.cpp:625-653 | splitting one span keeps the spans a tiling of the original segments, in order, without gap or overlap |
| Subdivision.SplitRefines | src/engine/GPURenderer/r_curve.cpp:638-653 | after an insertion, every segment of the row still is the original curve restricted to its span |
| Subdivision.MaxDistanceIsMaximum | src/engine/GPURenderer/r_curve.cpp:571-609 | the running maximum is an upper bound of all rows' deviations, and is zero or attained |
| LineDistance.LineDistanceIsLeast | src/engine/GPURenderer/r_curve.cpp:581-602 | for a square root that is one, the distance test measures the squared distance from the middle of the curve to the nearest point of the line through its ends |
| Subdivision.MeasuredIsLargest | src/engine/GPURenderer/r_curve.cpp:571-609 | what the loop measures at a column triple is the largest of the squared distances of all the original curves over the triple's span |
| Subdivision.TooCurvedIff | src/engine/GPURenderer/r_curve.cpp:606-632 | a triple is split just when that largest squared distance is at least 0.01 and more than the square of r_subdivisions, if that is not negative |
| Subdivision.VisitKeepsInvariant | src/engine/GPURenderer/r_curve.cpp:554-663 | one pass keeps the whole invariant (tiling, same curve, marks at odd columns only, the window of columns re-measured since the last insertion), moves the termination measure on, and splits nothing but a span that bends too much |
| Subdivision.InsertKeepsInvariant | src/engine/GPURenderer/r_curve.cpp:625-661 | the inserting branch keeps the invariant with exactly one span split in two |
| Subdivision.VisitColumn | src/engine/GPURenderer/r_curve.cpp:568-661 | the loop body, in place, does what the pass does whose properties Subdivision.VisitKeepsInvariant states |
| Subdivision.SubdivideDirection | src/engine/GPURenderer/r_curve.cpp:554-663 | the cyclic loop ends for every odd grid and every distance test; every row is the same curve cut into the same spans, by a run of splits each of which halves a span over which some curve then bent by a tenth or more and by more than r_subdivisions; unless the grid is full, and a triple still bends, no span bends too much and each error entry is the reciprocal distance over its span, or the mark of a flat one |
| SplitRuns.OneSubdivision | src/engine/GPURenderer/r_curve.cpp:554-663 | unless the grid is full, any two such runs end with the same spans and error entries: the curves and r_subdivisions alone decide, not the order in which columns are visited |
| SplitRuns.NothingToSplit | src/engine/GPURenderer/r_curve.cpp:625-632 | there is one span more for each split, and a direction over whose segments no curve bends too much keeps its width |
| GridShape.Transpose | src/engine/GPURenderer/r_curve.cpp:98-146 | the block becomes its transpose in place, whether it is wide or tall |
| GridShape.InvertErrorTable | src/engine/GPURenderer/r_curve.cpp:392-409 | the two error rows change places, the new width row reversed |
| GridShape.InvertCtrl | src/engine/GPURenderer/r_curve.cpp:370-384 | every row of the block is mirrored, and everything outside the block stays |
| GridShape.Flip | src/engine/GPURenderer/r_curve.cpp:708-717 | the flip is a quarter turn of vertices and error entries together, so each line keeps its own error |
| GridShape.MakeMeshIndexes | src/engine/GPURenderer/r_curve.cpp:330-362 | the index list is the cells' triangles in order, and its length is returned |
| GridShape.MeshTrianglesLength | src/engine/GPURenderer/r_curve.cpp:330-362 | there are 6 * (width - 1) * (height - 1) indexes |
| GridShape.MeshCell | src/engine/GPURenderer/r_curve.cpp:330-362 | the six indexes of each cell stand at the cell's own place in the list |
| GridShape.CellIsTwoTriangles | src/engine/GPURenderer/r_curve.cpp:330-362 | a cell's triangles use its four corners, are in range, share the cell's diagonal, and are wound alike with equal area |
| GridShape.TurnKeepsWinding | src/engine/GPURenderer/r_curve.cpp:708-717 | the quarter turn changes no triangle's winding |
| Culling.CullIsFilter | src/engine/GPURenderer/r_curve.cpp:669-702 | the shifting loop, which skips the line that slides into slot i, equals the filter if and only if no two interior neighbours are marked |
| Culling.AdjacentMarkSurvives | src/engine/GPURenderer/r_curve.cpp:669-702 | a table with two neighbouring marks of which one survives |
| Culling.OddMarksCull | src/engine/GPURenderer/r_curve.cpp:611-702 | the marks the subdivision leaves meet that condition, so the loop is the filter |
| Culling.KeptLinesShape | src/engine/GPURenderer/r_curve.cpp:669-702 | both end lines stay, the order stays, and no interior line that stays is marked |
| Culling.UnmarkedLinesAre | src/engine/GPURenderer/r_curve.cpp:669-702 | what the filter keeps is just the two end lines and the lines whose error entry is not 999 |
| Culling.CullColumns | src/engine/GPURenderer/r_curve.cpp:669-684 | each slot ends with the vertices and the error entry of one and the same old column |
| Culling.CullRows | src/engine/GPURenderer/r_curve.cpp:687-702 | the same for rows |
| PatchSurface.LineParamsIncrease | src/engine/GPURenderer/r_curve.cpp:554-663 | the lines of a refined grid meet the curve at strictly increasing parameters, from its start to its end |
| PatchSurface.SettledOnCurve | src/engine/GPURenderer/r_curve.cpp:416-442 | a refined and settled row passes through the original curve at the parameter of every line |
| PatchSurface.PutPointsOnCurve | src/engine/GPURenderer/r_curve.cpp:416-442 | the two in-place passes settle columns, then rows; even points stay |
| PatchSurface.VertexOnSurface | src/engine/GPURenderer/r_curve.cpp:416-442 | refining rows, then columns, then settling both ways puts every vertex on the tensor-product surface of the original control points |
| PatchBuild.RefinePatch | src/engine/GPURenderer/r_curve.cpp:546-666 | subdivision in both directions and the settling passes: every vertex is the surface's point at its own line parameters |
| PatchBuild.SubdivideBoth | src/engine/GPURenderer/r_curve.cpp:554-663 | the two directions, with the transposes between them: rows subdivided first, then the columns of the result, each with its own error table |
| PatchBuild.KeptSpan | src/engine/GPURenderer/r_curve.cpp:669-702 | the lines kept of an axis are the unmarked ones and both ends; their parameters increase from the curve's start to its end, and none of their error entries is the mark |
| PatchBuild.CullColumnsOnSurface | src/engine/GPURenderer/r_curve.cpp:669-684 | culling leaves just the unmarked columns, each with its error entry, and their vertices on the surface at their own parameters |
| PatchBuild.SubdividePatchToGrid | src/engine/GPURenderer/r_curve.cpp:530-727 | the whole of patch building: the grid comes from subdividing the patch's rows and then the columns of the result, splitting just what bends too much, each to within tolerance or until the grid is full; it has just the lines not marked colinear, each with its own error entry, turned if it is tall; every vertex is a point of the patch surface at strictly increasing parameters reaching from border to border; and its triangle list fits its final dimensions |
| BspSurface.CreateSurfaceGridMesh | src/engine/GPURenderer/r_curve.cpp:449-510 | the grid gets the working block's vertices, error entries and indexes, unmarked for fixing and stitching; its cull sphere is that of the box around the vertices, and becomes the level-of-detail sphere |
| BspSurface.SphereHoldsBox | src/engine/GPURenderer/r_curve.cpp:489-508 | no point of the box, hence no vertex, is farther from its middle, the sphere's centre, than the corner that gives the sphere its radius |
| GridInsert.GridInsertColumn | src/engine/GPURenderer/r_curve.cpp:734-793 | a full grid is left alone; otherwise exactly one column and one error entry are added; every coordinate of its vertices is halfway between the neighbours', but for the position of the one in the given row, which is the given point; the level-of-detail sphere stays, and the grid is pending again |
| GridInsert.GridInsertRow | src/engine/GPURenderer/r_curve.cpp:800-859 | the same for rows |
| Stitching.MergedPoints | src/engine/GPURenderer/r_bsp.cpp:1108-1147 | the test is true exactly if two interior vertices of the edge coincide |
| Stitching.StitchPatches | src/engine/GPURenderer/r_bsp.cpp:1313-1737 | it succeeds exactly if there is a crack it can mend, under the room, unmerged-edge, sameness and distance conditions of its eight searches; then grid2 has really grown by the one vertex that mends the first of them in the order of the searches, and otherwise nothing changes |
| Stitching.VertexAddedBetween | src/engine/GPURenderer/r_bsp.cpp:1368-1374 | the new edge vertex has the given position and stands strictly between the two old neighbours, which have not moved |
| EdgeReference.MendableIff | src/engine/GPURenderer/r_bsp.cpp:1313-1737 | on the vertex lists: some vertices two apart on a border line of one grid are within a tenth, in each coordinate, of neighbours on a border line of the other which are a hundredth apart or more, the first line has no two such close inner vertices, and the other grid has room |
| EdgeReference.MendingLine | src/engine/GPURenderer/r_bsp.cpp:1345-1374 | every vertex of the line that mends a crack is halfway between the old ones on either side of it, in every coordinate, but for the one on the border, which stands where the other grid has the missing vertex |
| StitchRuns.StitchedGrows | src/engine/GPURenderer/r_bsp.cpp:1345-1374 | a successful stitch uses up exactly one line of the room left, and the grid is what it was with a line added |
| StitchGrowth.ExtendedGrows | src/engine/GPURenderer/r_bsp.cpp:1368-1374 | after one insertion the old grid, vertices and both error lists, is read back by skipping the new line |
| StitchGrowth.GrownTransitive | src/engine/GPURenderer/r_bsp.cpp:1752-1813 | and so it is after any number of insertions in columns and rows |
| StitchRuns.TraceGrows | src/engine/GPURenderer/r_bsp.cpp:1752-1813 | however many stitches follow one another, whichever grids they are between, every grid at the start of the run can be read back off the same grid at any later point of it |
| StitchWorld.TryStitchingPatch | src/engine/GPURenderer/r_bsp.cpp:1752-1778 | the repetition ends; as many lines were gained as reported, and afterwards the grid can mend nothing in any grid of its group from itself on, nor in any at all unless it was stitched to itself on the way |
| StitchWorld.StitchAllPatches | src/engine/GPURenderer/r_bsp.cpp:1785-1813 | the fixpoint ends although insertions un-mark finished grids; every grid is marked stitched, groups are unchanged, and the number returned is the number of lines gained; the final grids are reached from the first by a run of as many single stitches, each of which mends a crack between two grids of one group as they are at that point; and every grid gives its old vertices and error entries back by leaving out lines that are not on its border |
| LodErrors.TouchingSymmetric | src/engine/GPURenderer/r_bsp.cpp:1175-1266 | sharing an interior point of unmerged edges is a symmetric relation |
| EdgeReference.TouchingIff | src/engine/GPURenderer/r_bsp.cpp:1180-1266 | on the vertex lists: grids touch if and only if inner vertices of border lines of theirs, first or last row, first or last column, are within a tenth of each other in every coordinate, and neither line has two inner vertices that close |
| LodErrors.ShareErrors | src/engine/GPURenderer/r_bsp.cpp:1175-1266 | the nested loops report exactly whether the grids touch; every entry of a matched vertex ends as the error of the matching vertex visited last, and all others stay |
| EdgeReference.SharedErrors | src/engine/GPURenderer/r_bsp.cpp:1175-1266 | which match wins: that of the vertex of the first grid compared last, rows before columns, the first line before the last, and along each line in order |
| LodFix.FixSharedVertexLodErrorFrom | src/engine/GPURenderer/r_bsp.cpp:1158-1272 | the recursion ends; the grids it fixes are just the targets of the copies it makes, each one copy, from the root or from the target of an earlier copy, to a touching grid; they are connected to the root and leave no unfixed neighbour in their range; fixed grids never change again |
| LodFix.ComponentExact | src/engine/GPURenderer/r_bsp.cpp:1285-1305 | a top-level search fixes a grid if and only if it is connected to the root |
| LodFix.FixComponent | src/engine/GPURenderer/r_bsp.cpp:1291-1304 | one turn of the outer loop: nothing if the grid is fixed, else its whole component and nothing more |
| LodFix.FixSharedVertexLodError | src/engine/GPURenderer/r_bsp.cpp:1285-1305 | every grid ends fixed; there is exactly one root for each connected component, the grid of lowest index in it, which keeps its errors, and every other grid is the target of exactly one copy, from a root or from the target of an earlier copy, and ends with the final errors of that grid at the vertices they share |
| LodFix.SourceIsFinal | src/engine/GPURenderer/r_bsp.cpp:1268-1270 | the source of a copy is another grid than its target, and is not written again |
| LodFix.ErrorHasOrigin | src/engine/GPURenderer/r_bsp.cpp:1158-1305 | every error in the fixed world is the original error of the entry at the end of a line of copies from touching grid to touching grid; there the entry is its grid's own: the grid is a root, or the grid it was reached from has no vertex at that entry |
| Rgtc.DigitAt | src/engine/GPURenderer/r_image.cpp:1878-1893 | numbers packed digit by digit are read back digit by digit, whatever the base |
| Rgtc.OrIsAdd | src/engine/GPURenderer/r_image.cpp:1884 | or-ing an index, shifted, onto fewer pending bits than the shift is adding it, bit by bit and for any shift; the packing loop ors |
| Rgtc.CodeForIsClose | src/engine/GPURenderer/r_image.cpp:1876-1882 | the chosen code decodes to within a fourteenth of the block's range |
| Rgtc.DecoderTable | src/engine/GPURenderer/r_image.cpp:1876-1882 | the decoder's eight values, for red0 above red1 and not, as Appendix C.1 of the OpenGL 3.3 specification gives them |
| Rgtc.CodeBits | src/engine/GPURenderer/r_image.cpp:1878-1893 | the decoder's codes are three bits each of the little-endian number in bytes two to seven |
| Rgtc.PackRunIsNumber | src/engine/GPURenderer/r_image.cpp:1878-1893 | sixteen 3-bit codes fill exactly six bytes, with no bit left over, and spell the same number |
| Rgtc.CompressMonoBlock | src/engine/GPURenderer/r_image.cpp:1851-1894 | it writes eight bytes and nothing else; decoded by the RGTC decoder of Appendix C.1 of the OpenGL 3.3 specification, all sixteen values come back to within a fourteenth of the block's range, constant blocks exactly |
| RgtcImage.TileCovers | src/engine/GPURenderer/r_image.cpp:1911-1924 | every texel of the image, by the index of its byte, has its own slot in the tile that covers it |
| RgtcImage.TileSlot | src/engine/GPURenderer/r_image.cpp:1920-1929 | every slot of a tile, those past the image's border too, holds the byte of the image whose column and row in the tile are the slot's modulo what lies in the image |
| RgtcImage.DupeTile | src/engine/GPURenderer/r_image.cpp:1926-1929 | the padding loop, in place, fills each slot from the slot with its row and column taken modulo the part inside the image |
| RgtcImage.CompressImage | src/engine/GPURenderer/r_image.cpp:1896-1934 | exactly the announced number of bytes is written, and they are the blocks of the tiles, red before green, in order |
| RgtcImage.RoundTrip | src/engine/GPURenderer/r_image.cpp:1896-1934 | for every texel of an image of any size, decoding the block of its tile at its slot gives the byte (y * width + x) * 4 + component back to within a fourteenth of the range of the image's bytes under the tile |
| Raster.PaintPixel | src/engine/GPURenderer/r_image.cpp:675-708 | painting one pixel in row order extends what has been painted by just that pixel |
| Fcbi.DiagonalSlide | src/engine/GPURenderer/r_image.cpp:613-727 | the registers and pointers of the first pass, slid by one pixel, are again the samples around the next one, and the value is that of direct sampling |
| Fcbi.CrossSlide | src/engine/GPURenderer/r_image.cpp:745-892 | the same for the second pass |
| Fcbi.DoFCBI | src/engine/GPURenderer/r_image.cpp:551-894 | every output pixel is its direct-sampling value, the second pass from the input as completed by the first, and nothing else changes |
| FcbiReference.AtIsByte | src/engine/GPURenderer/r_image.cpp:574-600 | a sample is the byte at (y * width + x) * 4 + component |
| FcbiReference.DiagonalPixel | src/engine/GPURenderer/r_image.cpp:681-706 | in odd rows and columns, three from the border: where the two of a diagonal pair differ by more than 100, or the pairs' sums by more than 200, the pixel is the average, rounded down, of the pair that differs less, of the second if they differ alike; elsewhere of the pair along which the brightness bends more, over the twelve samples named |
| FcbiReference.CrossPixel | src/engine/GPURenderer/r_image.cpp:850-876 | the same for the pixels between those, with the pairs and the samples beyond them in the rows and columns of the completed input |
| FcbiReference.InputPixel | src/engine/GPURenderer/r_image.cpp:726-737 | the input afterwards has the first pass's pixels, and all its others as they were |
| FcbiQuick.DoFCBIQuick | src/engine/GPURenderer/r_image.cpp:897-1015 | the same for the quick variant, with what it copies back beyond its first pass stated as it is: the output's old contents |
| FcbiReference.QuickDiagonalPixel | src/engine/GPURenderer/r_image.cpp:942-951 | each pixel of the first pass is the average, rounded down, of the diagonal pair that differs less, of the second if they differ alike |
| FcbiReference.QuickCrossPixel | src/engine/GPURenderer/r_image.cpp:1000-1009 | the same for the second pass, in rows and columns of the completed input |
| FcbiQuick.DirectIfRangesAgree | src/engine/GPURenderer/r_image.cpp:913-1015 | if both sides are even, or one is shorter than 7, every worked-out pixel is that of direct sampling, whatever the images: the pixels between the known ones sample the input, just those complete it, and the pixels of the second pass sample the input so completed |
| FcbiQuick.StaleOtherwise | src/engine/GPURenderer/r_image.cpp:913-965 | for every other size, running it on a black image over a white output leaves an output pixel that is not |
| ExpandTexture.SpreadIncreases | src/engine/GPURenderer/r_image.cpp:1130-1145 | the order of the pixels is kept and none moves down, which makes the in-place loop safe |
| ExpandTexture.ExpandHalfTextureToGrid | src/engine/GPURenderer/r_image.cpp:1130-1145 | in place, for every width and height, every packed pixel ends at its target, and nothing else changes |
| ExpandTexture.ExpandedAt | src/engine/GPURenderer/r_image.cpp:1130-1145 | in coordinates: the old packed pixel (x, y) ends at (2x, 2y) if and only if the width is even, and one pixel to the right of it otherwise |
| Flares.FlarePool.ClearFlares | src/engine/GPURenderer/r_flares.cpp:116-131 | from any state all structs are cleared and inactive |
| Flares.FlarePool.AddFlare | src/engine/GPURenderer/r_flares.cpp:141-237 | each case of a sighting: nothing, a known flare refreshed, or the first inactive struct made the first active one; the lists stay acyclic, disjoint and complete, and the keys of active flares unique |
| Flares.FlarePool.RenderFlares | src/engine/GPURenderer/r_flares.cpp:523-560 | the loop ends; the active flares that stay keep their order, the others go to the front of the inactive list, every active flare is tested once, and the result says whether any is to be drawn |
| Flares.StayOrLeave | src/engine/GPURenderer/r_flares.cpp:526-560 | a flare stays or leaves by its own state alone, and none is lost |
| Flares.StayingKeepsOrder | src/engine/GPURenderer/r_flares.cpp:526-560 | of two flares that stay, the one that was first is still first |
| Flares.StayingKeepsKeys | src/engine/GPURenderer/r_flares.cpp:526-560 | removal keeps the keys unique |
| Flares.FadesInWhileSeen | src/engine/GPURenderer/r_flares.cpp:205-211 | over any run of frames in each of which a visible flare is sighted and seen, it is never restarted, stays in the pool, and is as bright as the time since it became visible says |
| Flares.FadesOutWhileHidden | src/engine/GPURenderer/r_flares.cpp:328-356 | over any run of frames in each of which a hidden flare is sighted and not seen, it fades out by the time since it became hidden, and leaves the pool in just the frames in which it has faded out |
| Flares.StaysIff | src/engine/GPURenderer/r_flares.cpp:526-560 | a flare stays exactly if it was sighted in this frame or the one before and, when it is of this view, has not faded out; flares of other views keep everything but their brightness |
| Flares.SightedAfresh | src/engine/GPURenderer/r_flares.cpp:213-233 | a flare not sighted in the frame before starts hidden, as two seconds after it was last seen, with all it is tested by |
| Flares.TurnsAround | src/engine/GPURenderer/r_flares.cpp:328-356 | a flare whose visibility changes starts fading the other way from a millisecond before |
| RenderCommands.PadFromBase | src/engine/GPURenderer/r_backend.cpp:2020 | from an aligned base, aligning the cursor's address is aligning its offset |
| RenderCommands.PadClearsLowBits | src/engine/GPURenderer/r_cmds.cpp:158 | padding adds a pointer's size less one and clears the low bits, as the PAD macro does |
| RenderCommands.HoldsNext | src/engine/GPURenderer/r_backend.cpp:2018-2072 | a reader at a command's place finds its id and its bytes, and the next place after alignment |
| RenderCommands.HoldsWalk | src/engine/GPURenderer/r_backend.cpp:2018-2072 | a walk through any buffer meets the commands held at its start in order, and then whatever lies behind them |
| RenderCommands.EndedWalk | src/engine/GPURenderer/r_cmds.cpp:104-127 | behind a list that has been ended nothing is met, and the walk stays inside the buffer |
| RenderCommands.AlwaysRoomToSwap | src/engine/GPURenderer/r_cmds.cpp:153-186 | no run of requests eats into the room for the swap of buffers and the terminator |
| RenderCommands.RoomInBytes | src/engine/GPURenderer/r_cmds.cpp:153-186 | a request gets room if and only if it, in units of eight bytes, and twelve more fit into 262144 |
| RenderCommands.AllAcceptedIffFit | src/engine/GPURenderer/r_cmds.cpp:153-186 | all requests of a run are accepted if and only if they fit together |
| RenderCommands.RenderCommandList.GetCommandBufferReserved | src/engine/GPURenderer/r_cmds.cpp:153-174 | space, no room, or an impossible size: exactly when, and where the space is |
| RenderCommands.RenderCommandList.AddCommand | src/engine/GPURenderer/r_cmds.cpp:195-243 | the list in the buffer is what got room of all that was requested since it was last issued |
| RenderCommands.RenderCommandList.ExecuteRenderCommands | src/engine/GPURenderer/r_backend.cpp:2002-2072 | it executes what a walk through the buffer's bytes meets, whatever they are, in order, and stops at the first id of no command |
| RenderCommands.RenderCommandList.IssuePendingRenderCommands | src/engine/GPURenderer/r_cmds.cpp:104-143 | what was accepted is executed, in order, and the list is empty |
| RenderCommands.RenderCommandList.EndFrame | src/engine/GPURenderer/r_cmds.cpp:665-689 | the reservation for the swap of buffers always succeeds, even when space was taken and not written; the swap is executed last, behind all that was accepted, but in that one case the back end goes by the bytes left from before, and never gets to the swap if they are no command |
| RenderCommands.RenderCommandList.BeginFrameLeft | src/engine/GPURenderer/r_cmds.cpp:607-640 | the list stays what was accepted unless the first of the two commands fits and the second does not: exactly then taken space is left unwritten |
| RenderCommands.LoseSwap | src/engine/GPURenderer/r_cmds.cpp:607-614 | a whole run from an empty list to that state and to the end of the frame: everything accepted is executed but the swap of buffers |
| GlState.StateVector.GL_State | src/engine/GPURenderer/r_backend.cpp:108-276 | from a record that tells the device's settings, the device ends showing the requested bits, and the record stays right, if and only if the bits ask for existing blend factors; otherwise the call fails |
| GlState.SrcFactorBits | src/engine/GPURenderer/r_backend.cpp:161-193 | the source factor is the entry of the list that the lowest four bits number, from one up |
| GlState.DstFactorBits | src/engine/GPURenderer/r_backend.cpp:195-224 | the destination factor is the one that the next four bits number |
| GlState.DepthFuncBits | src/engine/GPURenderer/r_backend.cpp:117-134 | which bits ask for which depth function |
| GlState.SwitchBits | src/engine/GPURenderer/r_local.h:2429-2433 | which bit asks for writing depth, for lines, and for no depth test |
| GlState.StateVector.SetFactors | src/engine/GPURenderer/r_backend.cpp:152-228 | the bits are stored first; the factors are set only if both exist |
| GlState.HalfABlend | src/engine/GPURenderer/r_backend.cpp:149-224 | a call that fails and leaves blending on while the record says it is off |
| GlState.FaceCulling.GL_Cull | src/engine/GPURenderer/r_backend.cpp:75-100 | after every call the device culls just the faces asked for, although redundant calls are left out |
| GlBindings.TextureCache.GL_BindMultiTexture | src/engine/GPURenderer/r_dsa.cpp:71-95 | with targets that belong to their textures the bindings end as without a cache; in general exactly if the cache held another texture or the binding was there before |
| GlBindings.TextureCache.GLDSA_TextureEdit | src/engine/GPURenderer/r_dsa.cpp:97-143 | an edit by name reaches the named texture through the active unit |
| GlBindings.UnbindTwice | src/engine/GPURenderer/r_dsa.cpp:71-84 | three calls after which a texture stays bound that the cache says is unbound |
| GlBindings.BindingCache.GL_UseProgram | src/engine/GPURenderer/r_dsa.cpp:151-159 | the named program is in use, and the result says whether that is a change |
| GlBindings.BindingCache.GLDSA_ProgramUniform | src/engine/GPURenderer/r_dsa.cpp:161-216 | a uniform set by program is set in that program |
| GlBindings.BindingCache.GL_BindFramebuffer | src/engine/GPURenderer/r_dsa.cpp:226-254 | both framebuffer bindings end as without a cache, and the cache equals them |
| GlBindings.BindingCache.GL_BindRenderbuffer | src/engine/GPURenderer/r_dsa.cpp:256-263 | the same for the renderbuffer |
| GlBindings.BindingCache.FBO_Bind | src/engine/GPURenderer/r_fbo.cpp:221-240 | the FBO is current, and really bound exactly if it was not the current one before or the state was in step |
| GlBindings.BindingCache.FBO_FastBlit | src/engine/GPURenderer/r_fbo.cpp:709-755 | the pixels go from src into dst, and the state ends in step with no FBO current, whatever it was; a driver that cannot copy draws src's image into dst instead, and the current FBO stays bound and current |
| GlBindings.BindingCache.GLDSA_NamedFramebufferEdit | src/engine/GPURenderer/r_dsa.cpp:282-298 | editing a framebuffer by name keeps the state in step if and only if it is the current one |
| GlBindings.EditThenBind | src/engine/GPURenderer/r_dsa.cpp:288-292 | a run that leaves another framebuffer bound than the current FBO's |
| GlyphPages.ConstructGlyphInfo | src/engine/GPURenderer/r_font.cpp:243-319 | where a glyph is put, whether it is refused, and where the next one may go |
| GlyphPages.PlaceInPixels | src/engine/GPURenderer/r_font.cpp:247-262 | in pixels: a bitmap that would reach column 255 goes to the start of the next shelf, one that would then reach row 255 is refused, and the next one goes a pixel to its right |
| GlyphPages.PlaceKeepsFilling | src/engine/GPURenderer/r_font.cpp:247-319 | a placed glyph lies apart from all glyphs on its page |
| GlyphPages.PlacedInPageIff | src/engine/GPURenderer/r_font.cpp:247-319 | from every cursor, a glyph that is placed lies inside the page if and only if it is no wider than the page |
| GlyphPages.PackFont | src/engine/GPURenderer/r_font.cpp:490-576 | if an empty page refuses no glyph the loop ends; each glyph is placed where a turn of the loop found the cursor, and names the page that turn was filling; pages hold unbroken ranges, no two glyphs of a page overlap, and just those wider than the page leave it |
| GlyphPages.EndsIff | src/engine/GPURenderer/r_font.cpp:499-576 | the page loop ends if and only if an empty page refuses no glyph |
| GlyphPages.NeverPasses | src/engine/GPURenderer/r_font.cpp:499-576 | however many turns it takes, the loop never gets past a glyph that an empty page refuses |
| GlyphPages.HighGlyphHangs | src/engine/GPURenderer/r_font.cpp:499-576 | a font of one glyph on which it does not end |
| GlyphPages.RefusedByEmptyPageIff | src/engine/GPURenderer/r_font.cpp:247-260 | which glyphs an empty page refuses, by their width and the height of the shelves |
| GlyphPages.WideGlyphSticksOut | src/engine/GPURenderer/r_font.cpp:247-260 | a glyph that is placed, beyond the page's side |
| LightmapAtlas.PageSize | src/engine/GPURenderer/r_bsp.cpp:252-267 | both sizing loops end, with the columns and rows of their specification |
| LightmapAtlas.PageWithinLimitIff | src/engine/GPURenderer/r_bsp.cpp:252-267 | for a given number of lightmaps and limit, the page keeps within the limit if and only if doubling from 4 meets the limit, or four rows of some doubled width within it hold all the lightmaps |
| LightmapAtlas.PagesWithinLimitIff | src/engine/GPURenderer/r_bsp.cpp:254-262 | pages keep within the largest texture size for every number of lightmaps if and only if it is 4 times a power of two lightmaps wide |
| LightmapAtlas.SixIsPassed | src/engine/GPURenderer/r_bsp.cpp:254-262 | a limit that the doubling jumps over |
| LightmapAtlas.SquaresDisjoint | src/engine/GPURenderer/r_bsp.cpp:312-318 | different lightmaps on a page share no texel |
| LightmapAtlas.SquareInPage | src/engine/GPURenderer/r_bsp.cpp:312-318 | every lightmap lies inside its page |
| LightmapAtlas.LoadLightmaps | src/engine/GPURenderer/r_bsp.cpp:209-502 | each lightmap is uploaded once, to an existing page, from its own place in the file; deluxe mapping is on exactly if no surface asks for an odd lightmap and there are two or more; a surface's lightmap is where the surface looks for it unless it is the last of an odd number with deluxe mapping, and exactly then it is not |
| LightmapAtlas.UploadsInOrder | src/engine/GPURenderer/r_bsp.cpp:311-318 | lightmaps fill each page row by row and the pages one after the other, every second one being taken with deluxe mapping |
| LightmapAtlas.PagesNeeded | src/engine/GPURenderer/r_bsp.cpp:266-268 | there are just as many pages as the lightmaps need |
| LightmapAtlas.NothingPacked | src/engine/GPURenderer/r_bsp.cpp:505-552 | surfaces without a lightmap keep their number, and coordinates stay where nothing is merged |
| LightmapAtlas.ThirdOfThree | src/engine/GPURenderer/r_bsp.cpp:226-250 | three lightmaps, of which the third is used by a surface and not uploaded |
| LightmapAtlas.SurfaceFindsItsLightmap | src/engine/GPURenderer/r_bsp.cpp:505-552 | the page named for a surface is the one its own lightmap was uploaded to, and its packed coordinates are the upload's corner plus its own, scaled to texels |
| LightmapAtlas.JustTheSquare | src/engine/GPURenderer/r_bsp.cpp:505-538 | the points of the page that a lightmap's unit square is drawn from are those of the upload's square, in both coordinates, and no others |
| GlslBlocks.ScanHeader | src/engine/GPURenderer/r_glsl_parse.cpp:80-117 | it finds the header's first closing sign and last bracket, or there is no such pair |
| GlslBlocks.HeaderAtIff | src/engine/GPURenderer/r_glsl_parse.cpp:77-100 | headers open with a slash, a star and a bracket, and close with a star and a slash |
| GlslBlocks.NewlinesAre | src/engine/GPURenderer/r_glsl_parse.cpp:93-148 | line ends are counted as the set of their places |
| GlslBlocks.ScanBlocks | src/engine/GPURenderer/r_glsl_parse.cpp:73-148 | the blocks tile the text from its first header to where the scan stops, each text holds no header, and each first line is one plus the line ends before it plus one for each header so far that does not end its line; it stops early only at the first header it comes to that is not closed, holds no title, or is closed by the end of the text, where the original reads on; the outcome is each of the three if and only if the scan can get to such a place |
| GlslBlocks.OneStop | src/engine/GPURenderer/r_glsl_parse.cpp:73-148 | however the text before it is cut into blocks that follow these rules, there is one place only where the scan stops, and one way |
| GlslBlocks.HeaderEndsText | src/engine/GPURenderer/r_glsl_parse.cpp:93-128 | a text on which it reads past the end |
| GlslBlocks.LinesRightIff | src/engine/GPURenderer/r_glsl_parse.cpp:93-130 | of a text scanned to its end, all first lines are right if and only if every closed header ends its line |
| GlslBlocks.HeaderInLine | src/engine/GPURenderer/r_glsl_parse.cpp:93-98 | a text for which the scan counts a line too many |
| GlslBlocks.TextHoldsNoHeader | src/engine/GPURenderer/r_glsl_parse.cpp:128-148 | no block's text, taken by itself, contains a header |
| GlslBlocks.EveryHeaderFound | src/engine/GPURenderer/r_glsl_parse.cpp:73-148 | for every header in the scanned text there is a block that it starts, or in whose own header it lies |

## Left out

- SubdividePatchToGrid: normals, tangents, packed colours and light directions are not modelled.
- GridInsertColumn, GridInsertRow: the cull sphere of the new grid is computed, but not part of their contracts.
- SubdivideDirection: after the exit for a full grid only the entry of the triple that still bends is claimed, since the entries are not shifted with the columns.
- StitchPatches: the error entry it reads for the new line is one past the end for the first vertex of a backward pass; what it reads there is left arbitrary.
- StitchAllPatches: no claim that no crack is left in the world; the code looks again only at grids that changed.
- AddFlare: the projection to the window is an input, and so is whether the point is on the screen.
- RenderFlares: drawing, and the early return when flares are switched off, are not modelled.
- ExecuteRenderCommands: what the handlers do is not modelled; they are taken to advance by the size of their struct. Where the original would read on behind the end of the buffer, the walk ends and says so.
- AddCommand: the writers are one operation on the bytes of a struct; which fields each writer fills is not modelled.
- BeginFrameLeft: the rest of the start of a frame is not modelled, and neither are further commands after space was lost.
- GL_State: the alpha-test bits are ignored, as the original ignores them; the calls made besides those that set the modelled settings are left out.
- GL_BindMultiTexture: modelled without direct state access, where the wrappers are used; with it the driver does this work.
- FBO_FastBlit: the rectangles, filters and shaders are left out.
- PackFont: rendering glyphs, copying their pixels into the page, and scaling the page's brightness are left out; the characters are any sequence, of which the original's 256 are one case.
- LoadLightmaps: reading and converting texels, high dynamic range files and the layout without merging are left out; 32-bit overflow in the sizing loops is not modelled.
- ScanBlocks: the limit of 32 blocks and the matching of titles to shader types are left out; so is what the original finds behind the end of a text that its last scanned header is closed by.
- CompressImage: the upload and the temporary memory are left out.
- DoFCBI: DoLinear, which runs before it on the same buffers, and the cutting of an image into blocks are left out.
- Shader compilation, post-processing, sky, fog, model formats, world traversal, image loading, cubemaps and the memory allocators are left out.
