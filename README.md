# WFC++ in Dafny

This project is a Dafny model of the core of WFC++, a C++ implementation of the
Wave-Function-Collapse procedural generation algorithm, together with proofs
about that model. It also covers WFCtile, the command-line tool that drives the
tiled 2D solver from text files.

The model covers:

- **Math and containers.** The helpers of `Helpers.h` and `Vector*.h`: positive
  modulo, vectors and regions with their iteration order. The `Array2D`,
  `Array3D` and `Array4D` classes are modelled over Dafny arrays, including
  `RotateInto`. `EnumFlags` is modelled as a bit mask.
- **2D transformations.** `Transformations`, modelled as the dihedral group of
  the square.
- **3D transformations** (`Tiled3D/Transform3D`):
  - the 24 rotations of the cube and the 48 transforms with their inverses;
  - the corner, face and point tables, and the geometric meaning of those
    tables;
  - `Then` and its cache, proved to be a group (identity, inverses,
    associativity);
  - the face and cube permutations;
  - the 64-bit `TransformSet`.
- **The Tiled3D grid** (`Tiled3D/Grid`):
  - the cell state and the possible-permutation sets;
  - placing a tile and spreading its constraints to the six neighbours;
  - the action history that records a snapshot before each placement, and
    unwinding it (placing then unwinding restores the grid);
  - clearing regions and re-filtering them from what is left;
  - the tile permutator, which builds every transformed permutation of each
    input tile.
- **The tiled 2D solver** (`Tiled/`): the input tiles and their edge
  symmetries, the tile permutator with its edge-reflection map, and the `State`
  class. `State` is a board of tiles with its chance recalculation, its search
  for the lowest-entropy cells, its iteration, and its clearing of a
  contradiction's surroundings.
- **The simple (overlapping model) 2D solver** (`Simple/`): pattern extraction
  from input images with rotations and reflections, pattern frequencies, and
  the `State` class with its colour chances, pixel setting, clearing and
  iteration.
- **The xoshiro random generators.** The four-word and eight-word engines
  (`xoshiro_x4`, `xoshiro_x8`) over 64-bit words, with their `plus`, `star` and
  `starstar` scramblers. The 64-bit word arithmetic is written out explicitly.
- **The WFCtile parsers**:
  - string trimming and splitting and the `TryParse` helpers;
  - the key/value settings files (`InputFile`, `OutputFile`), the command line
    (`CmdArgs`), the per-tile files (`TileFile`) and the edge-pair file
    (`EdgeData`);
  - the older tileset and tile readers, the argument parser and the error-code
    table kept in `WFCtile/main.cpp`.

Each class whose fields the C++ code updates in place is a Dafny `class` with
those fields. Each of its methods states its whole new state as a function of
the old state. The pure logic is datatypes and functions, and the lemmas state
what the code promises about them. Where the code and what it evidently means
disagree, both readings are modelled. The code as written is stated with a
lemma that exhibits the difference. The corrected reading is the one the rest
of the model uses (see "## Findings").

## Model

| member | source | states |
|---|---|---|
| `WfcMath.CRem` | WFC++/include/Helpers/WFCMath.h:18 | C++'s `%` on signed integers truncates: the remainder has the numerator's sign and lies strictly inside (-abs(d), abs(d)) |
| `WfcMath.CNonNegative` | WFC++/include/Helpers/WFCMath.h:18 | for a non-negative numerator and a positive denominator, the truncating `/` and `%` agree with Dafny's Euclidean ones |
| `WfcMath.CRemResidue` | WFC++/include/Helpers/WFCMath.h:18-20 | for d > 0 a negative C remainder plus d is the mathematical residue; a non-negative one already is |
| `WfcMath.PositiveModulo` | WFC++/include/Helpers/WFCMath.h:16-22 | for d > 0 the result lies in [0, d) and is congruent to n modulo d; a numerator already in [0, d) is returned unchanged |
| `WfcMath.Min` | WFC++/include/Helpers/WFCMath.h:24-25 | the result is one of the two arguments and is no larger than either |
| `WfcMath.Max` | WFC++/include/Helpers/WFCMath.h:27-28 | the result is one of the two arguments and is no smaller than either |
| `WfcMath.Clamp` | WFC++/include/Helpers/WFCMath.h:30-31 | with min <= max the result lies in [min, max], is x when x is inside, min below and max above; with min > max it is max, as Min(max, Max(min, x)) gives |
| `WfcMath.NibbleIsPopcount` | WFC++/include/Helpers/WFCMath.h:105-109 | every entry of NIBBLE_LOOKUP is the number of one bits of its index |
| `WfcMath.PopcountSplit` | WFC++/include/Helpers/WFCMath.h:112-126 | the one bits of a number are those of its low k bits plus those of the rest, which is why adding the counts of the two halves is correct |
| `WfcMath.CountBits8IsPopcount` | WFC++/include/Helpers/WFCMath.h:102-111 | CountBits(uint8_t), the sum of the two nibble lookups, is the number of one bits, for every byte |
| `WfcMath.CountBits16IsPopcount` | WFC++/include/Helpers/WFCMath.h:112-116 | CountBits(uint16_t), the counts of the two bytes added, is the number of one bits |
| `WfcMath.CountBits32IsPopcount` | WFC++/include/Helpers/WFCMath.h:117-121 | CountBits(uint32_t), the counts of the two 16-bit halves added, is the number of one bits |
| `WfcMath.CountBits64IsPopcount` | WFC++/include/Helpers/WFCMath.h:122-126 | CountBits(uint64_t), the counts of the two 32-bit halves added, is the number of one bits |
| `Vectors.With` | WFC++/include/Helpers/Vector3i.h:32-34 | writing component `axis` through operator[] sets that component and leaves the other two alone |
| `Vectors.Max2` | WFC++/include/Helpers/Vector2i.h:220-227 | Math::Max on Vector2i is componentwise: each component is the larger of the two |
| `Vectors.Min2` | WFC++/include/Helpers/Vector2i.h:228-235 | Math::Min on Vector2i is componentwise: each component is the smaller of the two |
| `Vectors.Max3` | WFC++/include/Helpers/Vector3i.h:71 | Vector3i::Max, and Math::Max on Vector3i (lines 177-184), are componentwise maxima |
| `Vectors.Min3` | WFC++/include/Helpers/Vector3i.h:70 | Vector3i::Min, and Math::Min on Vector3i (lines 185-192), are componentwise minima |
| `Vectors.RowMajorIndex2` | WFC++/include/Helpers/Vector2i.h:197-216 | every point the region contains sits in the row-major enumeration at its row-major index |
| `Vectors.RowMajorInside2` | WFC++/include/Helpers/Vector2i.h:197-216 | every entry of the enumeration is contained in the region and sits at its own row-major index |
| `Vectors.Points2Exactly` | WFC++/include/Helpers/Vector2i.h:163-167 | the enumeration holds exactly the points Contains accepts (min <= p < max on both axes), each once |
| `Vectors.ZeroWidthIterationLeavesRegion` | WFC++/include/Helpers/Vector2i.h:197-216 | a region with no width but positive height contains nothing, yet the iterator stops once per row, at points outside the region |
| `Vectors.ZeroWidthIterationExample` | WFC++/include/Helpers/Vector2i.h:197-216 | the 0 x 1 region's iteration yields (0, 0), which the region does not contain |
| `Vectors.VisitStep2` | WFC++/include/Helpers/Vector2i.h:197-205 | AdvancePos takes the i-th visited position to the (i+1)-th: x + 1, or back to min.x on the next row |
| `Vectors.VisitEnd2` | WFC++/include/Helpers/Vector2i.h:209-216 | the i-th position equals end() = (min.x, max.y) exactly when i is the number of visits |
| `Vectors.Iterate2` | WFC++/include/Helpers/Vector2i.h:197-216 | the range-based loop over a Region2i visits the positions of the reference enumeration; with positive width these are the row-major contained points |
| `Vectors.RowMajorIndex3` | WFC++/include/Helpers/Vector3i.h:148-173 | every contained point sits in the 3D enumeration at its index x + sx(y + sy z), relative to min |
| `Vectors.RowMajorInside3` | WFC++/include/Helpers/Vector3i.h:148-173 | every entry of the 3D enumeration is contained and sits at its own index |
| `Vectors.SplitIndex3` | WFC++/include/Helpers/Vector3i.h:148-162 | an index below sx*sy*sz splits into three in-range coordinates that rebuild it |
| `Vectors.Points3Exactly` | WFC++/include/Helpers/Vector3i.h:108-119 | the enumeration holds exactly the contained points, each once, and GetNumbElements of them when every size is positive |
| `Vectors.VisitStep3` | WFC++/include/Helpers/Vector3i.h:148-162 | AdvancePos takes the i-th position to the (i+1)-th: x fastest, then y, then z |
| `Vectors.VisitEnd3` | WFC++/include/Helpers/Vector3i.h:166-173 | the i-th position equals end() = (min.x, min.y, max.z) exactly when i = sx*sy*sz |
| `Vectors.Iterate3` | WFC++/include/Helpers/Vector3i.h:148-173 | the range-based loop over a Region3i with positive x and y sizes visits exactly the contained points, x fastest, then y, then z |
| `EnumFlags.ToMaskIsShift` | WFC++/include/Helpers/EnumFlags.h:14 | ToMask(v) is 1 << v |
| `EnumFlags.MembersInjective` | WFC++/include/Helpers/EnumFlags.h:20-25 | two masks that contain the same values are the same mask |
| `EnumFlags.ToMaskSingle` | WFC++/include/Helpers/EnumFlags.h:25 | Contains(v) holds of ToMask(w) exactly when v == w |
| `EnumFlags.AllContainsEverything` | WFC++/include/Helpers/EnumFlags.h:17 | All(), the all-ones mask, contains every value |
| `EnumFlags.AddMembers` | WFC++/include/Helpers/EnumFlags.h:37 | the members of mask OR ToMask(v) are the old members plus v |
| `EnumFlags.RemoveMembers` | WFC++/include/Helpers/EnumFlags.h:38 | the members of mask AND NOT ToMask(v) are the old members minus v, so no other member is lost |
| `EnumFlags.UnionMembers` | WFC++/include/Helpers/EnumFlags.h:43 | the members of a OR b are the union of the members |
| `EnumFlags.IntersectMembers` | WFC++/include/Helpers/EnumFlags.h:47 | the members of a AND b are the intersection of the members |
| `EnumFlags.Flags.constructor` | WFC++/include/Helpers/EnumFlags.h:21 | the constructor stores the given mask |
| `EnumFlags.Flags.Single` | WFC++/include/Helpers/EnumFlags.h:22 | the one-value constructor holds exactly that value |
| `EnumFlags.Flags.Enumerate` | WFC++/include/Helpers/EnumFlags.h:28-34 | the list keeps its old entries, then gets exactly the contained values below EnumValEnd, in ascending order |
| `EnumFlags.Flags.Add` | WFC++/include/Helpers/EnumFlags.h:37 | `+=` ORs in ToMask(v); the members become the old ones plus v |
| `EnumFlags.Flags.Remove` | WFC++/include/Helpers/EnumFlags.h:38 | `-=` ANDs with NOT ToMask(v); the members become the old ones minus v |
| `EnumFlags.Flags.UnionWith` | WFC++/include/Helpers/EnumFlags.h:43 | `\|=` ORs the masks; the members become the union |
| `EnumFlags.Flags.IntersectWith` | WFC++/include/Helpers/EnumFlags.h:47 | `&=` ANDs the masks; the members become the intersection |
| `Arrays.LocationOfIndex2` | WFC++/Array2D.hpp:136-145 | for an in-range (x, y) the index x + y*w lies inside the buffer and GetLocation maps it back to (x, y) |
| `Arrays.IndexOfLocation2` | WFC++/Array2D.hpp:136-145 | every buffer index maps under GetLocation to an in-range position whose index is the one started from |
| `Arrays.LocationOfIndex3` | WFC++/include/Helpers/Array3D.hpp:157-168 | for an in-range (x, y, z) the index x + w(y + h z) lies inside the buffer and GetLocation maps it back |
| `Arrays.IndexOfLocation3` | WFC++/include/Helpers/Array3D.hpp:157-168 | every buffer index maps to an in-range position whose index is the one started from |
| `Arrays.LocationOfIndex4` | WFC++/Array4D.hpp:118-130 | for an in-range 4D position the index lies inside the buffer and GetLocation, with C's truncating division, maps it back |
| `Arrays.Wrap2` | WFC++/Array2D.hpp:148-154 | with positive sizes every result is inside the array and PositiveModulo of each coordinate; an in-range position is returned unchanged |
| `Arrays.Wrap3` | WFC++/include/Helpers/Array3D.hpp:171-178 | with positive sizes every result is inside the array, each coordinate PositiveModulo its size; an in-range position is unchanged |
| `Arrays.Wrap4` | WFC++/Array4D.hpp:133-141 | the same for the four components of an Array4D |
| `Arrays.NormalizeRotations` | WFC++/Array2D.hpp:199-201 | adding 1024 while negative and then taking % 4 gives the count's residue modulo 4, in 0..3 |
| `Arrays.SourcePosInBounds` | WFC++/Array2D.hpp:212-236 | in the corrected rotation every output position reads a position inside the source array |
| `Arrays.AsWrittenAgreesOnSquares` | WFC++/Array2D.hpp:212-236 | on square arrays the rotation as written and the corrected one agree in size and in every position read |
| `Arrays.AsWrittenReadsOutside` | WFC++/Array2D.hpp:212-236 | on a 2 x 1 array each non-zero rotation as written reads a position outside the source array |
| `Arrays.RotationMatchesTransform` | WFC++/Array2D.hpp:196-241 | the corrected rotation by n steps is Vector2i::Transform by Rotate270CW, Rotate180 or Rotate90CW: it has that transform's output size and puts the element at p at p's transformed position |
| `Arrays.RotateOneThenThree` | WFC++/Array2D.hpp:212-236 | rotating by one and then by three (or the other way) gives back the original size and reads every element from where it started, on arrays of any shape |
| `Arrays.Array2D.ElementIndex` | WFC++/Array2D.hpp:90-98 | operator[] on a position inside the array reads buffer entry x + y*width |
| `Arrays.Array2D.constructor` | WFC++/Array2D.hpp:24-31 | the new array has the given sizes and a fresh buffer of width*height elements |
| `Arrays.Array2D.WithValue` | WFC++/Array2D.hpp:34-42 | the new array has the given sizes and every element is the default value |
| `Arrays.Array2D.Set` | WFC++/Array2D.hpp:90-93 | writing through operator[] changes that position and no other |
| `Arrays.Array2D.GetIndex` | WFC++/Array2D.hpp:136-139 | an in-range position's index lies in the buffer and GetLocation maps it back |
| `Arrays.Array2D.GetLocation` | WFC++/Array2D.hpp:141-145 | a buffer index maps to an in-range position whose index is the one given |
| `Arrays.Array2D.Wrap` | WFC++/Array2D.hpp:148-154 | the result is inside the array, and an in-range position is unchanged |
| `Arrays.Array2D.Reset` | WFC++/Array2D.hpp:113-125 | the array gets the new sizes; the buffer and its contents are kept when the element count is unchanged, otherwise a fresh buffer is made |
| `Arrays.Array2D.Fill` | WFC++/Array2D.hpp:161-166 | every element becomes the value |
| `Arrays.Array2D.FillFrom` | WFC++/Array2D.hpp:171-178 | the buffer becomes the first GetNumbElements values given |
| `Arrays.Array2D.FillFunc` | WFC++/Array2D.hpp:183-189 | every element becomes getValue of its position |
| `Arrays.Array2D.RotateInto` | WFC++/Array2D.hpp:196-241 | the source is unchanged; the output gets the corrected rotated size and each of its elements is the source element at the corrected source position |
| `Arrays.Array3D.constructor` | WFC++/include/Helpers/Array3D.hpp:27-34 | the new array has the given sizes and a fresh buffer |
| `Arrays.Array3D.Set` | WFC++/include/Helpers/Array3D.hpp:107-110 | writing through operator[] changes that position and no other |
| `Arrays.Array3D.GetIndex` | WFC++/include/Helpers/Array3D.hpp:157-160 | a valid position's index lies in the buffer and GetLocation maps it back |
| `Arrays.Array3D.GetLocation` | WFC++/include/Helpers/Array3D.hpp:162-168 | a buffer index maps to a valid position whose index is the one given |
| `Arrays.Array3D.Wrap` | WFC++/include/Helpers/Array3D.hpp:171-178 | the result is a valid position, and a valid position is unchanged |
| `Arrays.Array3D.Reset` | WFC++/include/Helpers/Array3D.hpp:133-147 | the array gets the new sizes; buffer and contents are kept when the element count is unchanged, otherwise a fresh buffer is made |
| `Arrays.Array3D.Fill` | WFC++/include/Helpers/Array3D.hpp:185-189 | every element, at every valid position, becomes the value |
| `Arrays.Array3D.FillFrom` | WFC++/include/Helpers/Array3D.hpp:194-201 | the buffer becomes the first GetNumbElements values given |
| `Arrays.Array4D.GetNumbElements` | WFC++/Array4D.hpp:144 | the product of the four sizes is the length of the buffer |
| `Arrays.Array4D.constructor` | WFC++/Array4D.hpp:27 | the new array has the given size and a fresh buffer |
| `Arrays.Array4D.GetIndex` | WFC++/Array4D.hpp:118-121 | an in-range position's index lies in the buffer and GetLocation maps it back |
| `Arrays.Array4D.Wrap` | WFC++/Array4D.hpp:133-141 | the result is in range, and an in-range position is unchanged |
| `Arrays.Array4D.Reset` | WFC++/Array4D.hpp:96-108 | the array gets the new size; buffer and contents are kept when the element count is unchanged |
| `Arrays.Array4D.Fill` | WFC++/Array4D.hpp:148-152 | every element, at every in-range position, becomes the value |
| `Common.SumAppend` | WFC++/src/Tiled3D/Grid.cpp:477-499 | the total of a concatenation is the sum of the totals, which is what the per-face counts in NPossibilities rely on |
| `Transform2D.Ordinal` | WFC++/include/Helpers/Vector2i.h:21-45 | each of the eight Transformations has its enum value, below Count = 8 |
| `Transform2D.FromOrdinal` | WFC++/include/Helpers/Vector2i.h:21-45 | the enum value below 8 names the transformation with that value |
| `Transform2D.OrdinalRoundTrip` | WFC++/include/Helpers/Vector2i.h:21-45 | converting a transformation to its value and back gives it again, so the eight are distinct |
| `Transform2D.TransformInBounds` | WFC++/src/Vector2i.cpp:82-119 | a position inside size lands inside size, or inside the swapped size when WillSwapAxes holds |
| `Transform2D.InvertUndoes` | WFC++/src/Vector2i.cpp:6-25 | Invert(t) applied with t's output size takes every transformed position back, and restores the size; so Rotate90CW then Rotate270CW with the swapped size gives p back, and FlipX, FlipY and Rotate180 undo themselves |
| `Transform2D.InvertIsInvolution` | WFC++/src/Vector2i.cpp:6-25 | Invert is an involution and keeps IsReflection and WillSwapAxes |
| `Transform2D.TransformIsAffine` | WFC++/src/Vector2i.cpp:82-119 | every transformation is an offset plus a linear map whose columns are unit axis vectors |
| `Transform2D.StepsAreLinearPart` | WFC++/src/Vector2i.cpp:82-119 | moving the input one step along x or y moves the output by the first or second column of that linear map |
| `Transform2D.PredicatesFromGeometry` | WFC++/src/Vector2i.cpp:26-79 | IsReflection holds exactly when the linear map turns the wrong way (a reflection), and WillSwapAxes exactly when it sends the x axis onto y, matching the case lists of the two functions |
| `TransformSets.IndexSetMembers` | WFC++/include/Tiled3D/Transform3D.h:498-519 | the bit indices of a list of transforms are below 48, and a transform's bit is among them exactly when the transform is in the list |
| `TransformSets.Below` | WFC++/include/Tiled3D/Transform3D.h:521 | All()'s USED_BITS are exactly the indices below 48 |
| `TransformSets.InvertedCopies` | WFC++/include/Tiled3D/Transform3D.h:634-638 | shifting the un-inverted bits up by 24 gives exactly the indices 24 + b for the un-inverted bits b |
| `TransformSets.EnumeratedOrdered` | WFC++/include/Tiled3D/Transform3D.h:671-694 | the iterator started at bit i yields an ascending list holding exactly the set bits from i up to 48 |
| `TransformSets.EnumeratedLength` | WFC++/include/Tiled3D/Transform3D.h:671-694 | that list has one entry per set bit from i on, so nothing is yielded twice |
| `TransformSets.EnumerationMeetsOrder` | WFC++/include/Tiled3D/Transform3D.h:659-709 | iterating the whole set yields every element once, in ascending bit order, whatever order the elements were added in |
| `TransformSets.EnumerationIsUnique` | WFC++/include/Tiled3D/Transform3D.h:659-709 | any ascending list holding exactly the set bits from i on is the iterator's list, so the order is fixed by the bits alone |
| `TransformSets.HeadIsLowest` | WFC++/include/Tiled3D/Transform3D.h:671-694 | an ascending list of exactly the set bits from a set bit i starts with i, and its tail is the list from i + 1 |
| `TransformSets.TransformSet.constructor` | WFC++/include/Tiled3D/Transform3D.h:711-712 | a new set is empty with size 0 |
| `TransformSets.TransformSet.All` | WFC++/include/Tiled3D/Transform3D.h:521 | All() holds every one of the 48 transforms |
| `TransformSets.TransformSet.Size` | WFC++/include/Tiled3D/Transform3D.h:556 | Size() is the number of transforms in the set, at most 48 |
| `TransformSets.TransformSet.Add` | WFC++/include/Tiled3D/Transform3D.h:560-569 | Add(t) adds t, returns whether t was already present, and grows the size only for a new element |
| `TransformSets.TransformSet.Remove` | WFC++/include/Tiled3D/Transform3D.h:570-579 | Remove(t) removes t, returns whether t was present, and shrinks the size only when it was |
| `TransformSets.TransformSet.AddSet` | WFC++/include/Tiled3D/Transform3D.h:587-596 | adding a set gives the union and returns the number of elements gained, keeping the size equal to the popcount |
| `TransformSets.TransformSet.RemoveSet` | WFC++/include/Tiled3D/Transform3D.h:599-608 | removing a set gives the difference and returns the number of elements lost |
| `TransformSets.TransformSet.Intersect` | WFC++/include/Tiled3D/Transform3D.h:611-620 | Intersect gives the intersection and returns the number of elements lost |
| `TransformSets.TransformSet.AddInvertedVersions` | WFC++/include/Tiled3D/Transform3D.h:634-638 | (true, r) is added for every (false, r) in the set and nothing else changes; the size is recounted |
| `TransformSets.TransformSet.Clear` | WFC++/include/Tiled3D/Transform3D.h:640 | the set becomes empty with size 0 |
| `TransformSets.TransformSet.AddAllAsWritten` | WFC++/include/Tiled3D/Transform3D.h:625-631 | adding a list as written gives the union but returns the number of transforms that were already present, since each Add(t) answers "already contained" |
| `TransformSets.AddAllAsWrittenUndercounts` | WFC++/include/Tiled3D/Transform3D.h:625-631 | adding a one-element list to an empty set gains one element, yet the count as written is 0 |
| `TransformSets.TransformSet.AddAll` | WFC++/include/Tiled3D/Transform3D.h:622-631 | adding a list gives the union and returns the number of elements actually gained, as the comment promises |
| `TransformSets.TransformSet.FirstFrom` | WFC++/include/Tiled3D/Transform3D.h:673-679 | the iterator constructor moves to the first set bit at or after the start (or to 48), skipping nothing the enumeration holds |
| `TransformSets.TransformSet.Next` | WFC++/include/Tiled3D/Transform3D.h:684-694 | operator++ moves to the next set bit after the current one (or to 48) |
| `TransformSets.TransformSet.ElementsFrom` | WFC++/include/Tiled3D/Transform3D.h:671-709 | a range-based loop from a start bit yields FromBit of each enumerated bit, in order |
| `TransformSets.TransformSet.Elements` | WFC++/include/Tiled3D/Transform3D.h:659-709 | iterating a set yields exactly its elements, each once, in ascending bit order, Size() of them |
| `TransformSets.CombineAsWritten` | WFC++/include/Tiled3D/Transform3D.h:526-535 | Combine over a list as written holds the list's transforms but counts one per list entry, repeats included |
| `TransformSets.CombineAsWrittenMiscounts` | WFC++/include/Tiled3D/Transform3D.h:526-535 | a list with the identity twice gives a set of one element whose size as written is 2 |
| `TransformSets.Combine` | WFC++/include/Tiled3D/Transform3D.h:524-535 | the corrected Combine holds exactly the list's transforms and keeps the size equal to the popcount |
| `TransformSets.IterationOrderExample` | WFCtests/main.cpp:329-416 | the set with bits 0, 24, 32 and 44 iterates in that order, as the ordering test expects |
| `TransformSets.IterationOrderExampleDecodes` | WFC++/include/Tiled3D/Transform3D.h:498-519 | bits 0, 24, 32 and 44 are None, inverted None, inverted AxisZ_180 and inverted CornerBAA_120 |
| `CubeTransforms.RotOrdinal` | WFC++/include/Tiled3D/Transform3D.h:297-327 | each of the 24 Rotations3D has its enum value, below N_ROTATIONS_3D |
| `CubeTransforms.RotFromOrdinal` | WFC++/include/Tiled3D/Transform3D.h:297-327 | a value below 24 names the rotation with that enum value |
| `CubeTransforms.RotOrdinalRoundTrip` | WFC++/include/Tiled3D/Transform3D.h:297-327 | value and rotation convert back and forth, so the 24 rotations are distinct |
| `CubeTransforms.Inverse` | WFC++/include/Tiled3D/Transform3D.h:391-424 | Inverse keeps the Invert flag |
| `CubeTransforms.InverseRotFacts` | WFC++/include/Tiled3D/Transform3D.h:396-421 | the rotation lookup is an involution; it fixes exactly None, the 180-degree turns and the Edges* turns, swaps each axis 90 with 270 and each corner 120 with 240 |
| `CubeTransforms.InverseIsInvolution` | WFC++/include/Tiled3D/Transform3D.h:391-424 | the inverse of the inverse is the transform, and only the identity's inverse is the identity |
| `CubeTransforms.RotBits` | WFC++/include/Tiled3D/Transform3D.h:433 | the byte cast of a rotation is its enum value |
| `CubeTransforms.GetIDValue` | WFC++/include/Tiled3D/Transform3D.h:430-436 | GetID is the rotation's value (below 32) with bit 5 set for an inverted transform |
| `CubeTransforms.GetIDInjective` | WFC++/include/Tiled3D/Transform3D.h:428-436 | two transforms have the same ID exactly when they are equal: the hash is perfect, as its comment says |
| `CubeTransforms.ToBitIdx` | WFC++/include/Tiled3D/Transform3D.h:498-502 | a transform's bit index is below 48, and below 24 exactly for the non-inverted ones |
| `CubeTransforms.FromBit` | WFC++/include/Tiled3D/Transform3D.h:514-519 | FromBit of an index below 48 has that bit index |
| `CubeTransforms.BitIdxRoundTrip` | WFC++/include/Tiled3D/Transform3D.h:498-519 | FromBit(ToBitIdx(t)) == t for every transform |
| `CubeTransforms.ToBitIdxInjective` | WFC++/include/Tiled3D/Transform3D.h:498-502 | distinct transforms have distinct bit indices |
| `CubeTransforms.ApplySigned` | WFC++/src/Tiled3D/Transform3D.cpp:212-313 | a signed axis permutation moves each output coordinate from one input axis, mirrored against max where that axis is flipped |
| `CubeTransforms.RotationsAreProper` | WFC++/src/Tiled3D/Transform3D.cpp:212-313 | as signed permutations the 24 rotations all have orientation +1 and their inverted versions -1: they are rotations and mirror images |
| `CubeTransforms.ApplyToPosIsSigned` | WFC++/src/Tiled3D/Transform3D.cpp:212-313 | ApplyToPos of every transform is its signed permutation applied in the box from the origin to max |
| `CubeTransforms.SignedInjective` | WFC++/src/Tiled3D/Transform3D.cpp:212-313 | a signed permutation sends distinct positions to distinct positions |
| `CubeTransforms.SignedCommutesWithMirror` | WFC++/src/Tiled3D/Transform3D.cpp:212-313 | mirroring the input against max mirrors the output against the permuted max |
| `CubeTransforms.PermutedMax` | WFC++/src/Tiled3D/Transform3D.cpp:212-313 | the output box's extent on each axis is the extent of the input axis it reads |
| `CubeTransforms.ApplyToPosInBox` | WFC++/src/Tiled3D/Transform3D.cpp:212-313 | a position inside the box lands inside the permuted box |
| `CubeTransforms.CubeIsFixed` | WFC++/src/Tiled3D/Transform3D.cpp:212-313 | a box with equal extents on all three axes permutes to itself |
| `CubeTransforms.InverseUndoes` | WFC++/src/Tiled3D/Transform3D.cpp:212-313 | with a uniform max, ApplyToPos by Inverse(t) takes every transformed position back |
| `CubeTransforms.QuarterTurns` | WFC++/src/Tiled3D/Transform3D.cpp:212-313 | with a uniform max, each 90-degree axis turn applied twice is the 180-degree turn, and applied four times is the identity |
| `CubeTransforms.CornerTurnsCycle` | WFC++/src/Tiled3D/Transform3D.cpp:212-313 | each Corner*_120 turn applied three times is the identity |
| `CubeTransforms.CornerTurnsDoubleA` | WFC++/src/Tiled3D/Transform3D.cpp:212-313 | CornerAAA_120 and CornerABA_120 applied twice are the matching _240 turns |
| `CubeTransforms.CornerTurnsDoubleB` | WFC++/src/Tiled3D/Transform3D.cpp:212-313 | CornerBAA_120 and CornerBBA_120 applied twice are the matching _240 turns |
| `CubeTransforms.EdgeTurns` | WFC++/src/Tiled3D/Transform3D.cpp:212-313 | each Edges* half-turn applied twice is the identity |
| `CubeTransforms.FaceCentreSide` | WFC++/include/Tiled3D/Transform3D.h:109-121 | each face's centre in the 3x3x3 cube lies on that face |
| `CubeTransforms.FaceCentreOpposite` | WFC++/include/Tiled3D/Transform3D.h:117-120 | the opposite face's centre is the mirror image of the face's centre through the middle of the cube |
| `CubeTransforms.IdentitySidesAreGeometric` | WFC++/src/Tiled3D/Transform3D.cpp:21-191 | the None column of Lookup_DirTransforms leaves every side in place, as the identity leaves every face centre |
| `CubeTransforms.AxisXSidesAreGeometric` | WFC++/src/Tiled3D/Transform3D.cpp:21-191 | for the three X-axis turns each table entry is the face to which ApplyToPos moves the face's centre |
| `CubeTransforms.AxisYSidesAreGeometric` | WFC++/src/Tiled3D/Transform3D.cpp:21-191 | the same for the three Y-axis turns |
| `CubeTransforms.AxisZSidesAreGeometric` | WFC++/src/Tiled3D/Transform3D.cpp:21-191 | the same for the three Z-axis turns |
| `CubeTransforms.EdgesSidesAreGeometric` | WFC++/src/Tiled3D/Transform3D.cpp:21-191 | the same for the six Edges* half-turns |
| `CubeTransforms.CornersASidesAreGeometric` | WFC++/src/Tiled3D/Transform3D.cpp:21-191 | the same for the CornerAAA and CornerABA turns |
| `CubeTransforms.CornersBSidesAreGeometric` | WFC++/src/Tiled3D/Transform3D.cpp:21-191 | the same for the CornerBAA and CornerBBA turns |
| `CubeTransforms.ApplyToSideIsGeometric` | WFC++/src/Tiled3D/Transform3D.cpp:315-321 | ApplyToSide (GetOpposite first when inverted, then the table) moves each side to where ApplyToPos moves its centre, for all 48 transforms: the table agrees with the position mapping |
| `CubeTransforms.ApplyToSideInjective` | WFC++/src/Tiled3D/Transform3D.cpp:315-321 | every transform permutes the six sides, so each column of the table is a permutation |
| `CubeTransforms.ApplyToSideOpposite` | WFC++/src/Tiled3D/Transform3D.cpp:315-321 | opposite sides go to opposite sides |
| `CubeTransforms.ApplyToSideBasics` | WFC++/src/Tiled3D/Transform3D.cpp:315-321 | the identity keeps every side and the bare inversion sends each side to its opposite |
| `Faces3D.PointOrdinal` | WFC++/include/Tiled3D/Transform3D.h:57-61 | each FacePoints value AA, AB, BA, BB has its enum value below N_FACE_POINTS |
| `Faces3D.PointFromOrdinal` | WFC++/include/Tiled3D/Transform3D.h:57-61 | a value below 4 names the point with that value |
| `Faces3D.MakeCornerFaceVector` | WFC++/include/Tiled3D/Transform3D.h:75 | a corner's face vector has components -1 or 1 |
| `Faces3D.CornerFlagsRoundTrip` | WFC++/include/Tiled3D/Transform3D.h:66-73 | MakeCornerFacePoint and the two IsCorner*Min tests are inverse to each other |
| `Faces3D.CornerVectorRoundTrip` | WFC++/include/Tiled3D/Transform3D.h:75-80 | MakeCornerFacePoint(MakeCornerFaceVector(p)) == p for all four corners, and every vector of -1/1 components comes back from its corner |
| `Faces3D.EdgeFlagsRoundTrip` | WFC++/include/Tiled3D/Transform3D.h:82-90 | MakeEdgeFacePoint and IsEdgeParallelToFirstAxis/IsEdgeOnMinSide are inverse to each other |
| `Faces3D.EdgeVectorRoundTrip` | WFC++/include/Tiled3D/Transform3D.h:92-105 | MakeEdgeFacePoint(MakeEdgeFaceVector(p)) == p for all four edges; an edge vector (one component 0, the other -1 or 1) comes back from its edge |
| `Faces3D.DirOrdinal` | WFC++/include/Tiled3D/Transform3D.h:109-116 | each of the six Directions3D has its enum value below N_DIRECTIONS_3D |
| `Faces3D.DirFromOrdinal` | WFC++/include/Tiled3D/Transform3D.h:109-116 | a value below 6 names the direction with that value |
| `Faces3D.DirOrdinalRoundTrip` | WFC++/include/Tiled3D/Transform3D.h:109-116 | value and direction convert back and forth |
| `Faces3D.GetAxisIndex` | WFC++/include/Tiled3D/Transform3D.h:119 | the axis index is below 3 |
| `Faces3D.OppositeFacts` | WFC++/include/Tiled3D/Transform3D.h:117-120 | GetOpposite is an involution without fixed points that keeps the axis and flips IsMin; IsMax is the negation of IsMin |
| `Faces3D.DirectionRoundTrip` | WFC++/include/Tiled3D/Transform3D.h:117-121 | MakeDirection3D(IsMin(d), GetAxisIndex(d)) == d, and IsMin and GetAxisIndex read back what MakeDirection3D was given |
| `Faces3D.GetFaceDirection` | WFC++/include/Tiled3D/Transform3D.h:122-137 | the face direction is the unit vector along the face's axis, negative on a Min face |
| `Faces3D.GetAxes` | WFC++/include/Tiled3D/Transform3D.h:140-150 | GetAxes returns the face's own axis and the two other axes in ascending order |
| `Faces3D.LeftHandedIsOrientation` | WFC++/include/Tiled3D/Transform3D.h:151-167 | IsFaceLeftHanded holds exactly for the faces whose outward normal and two plane axes, in GetAxes order, form a left-handed frame |
| `Faces3D.FlippedFacts` | WFC++/include/Tiled3D/Transform3D.h:253-262 | Flipped changes only Side, to the opposite one, keeps Points, and undoes itself |
| `Faces3D.DefaultCube` | WFC++/include/Tiled3D/Transform3D.h:341-347 | the default cube has six faces, face d on side d |
| `Faces3D.FindFace` | WFC++/src/Tiled3D/Transform3D.cpp:201-210 | the search returns the first face at or after the start on the given side, or the end |
| `Faces3D.GetFace` | WFC++/src/Tiled3D/Transform3D.cpp:201-210 | GetFace returns the index of the first face on dir, or 255 (the uint_fast8_t -1) exactly when no face is on dir |
| `FaceTransforms.FaceCornerIsGridTransform` | WFC++/src/Tiled3D/Transform3D.cpp:536-575 | TransformFaceCorner moves corner p to the cell of the 2 x 2 grid where a 2D transformation moves p's cell: Invert(tr) on the left-handed faces and the same row through the opposite face on the right-handed ones |
| `FaceTransforms.CornerRowIsGridTransform` | WFC++/src/Tiled3D/Transform3D.cpp:563-573 | each row of the corner table is Vector2i::Transform by Invert(tr) on the 2 x 2 grid of corners |
| `FaceTransforms.FaceEdgeIsGridTransform` | WFC++/src/Tiled3D/Transform3D.cpp:576-615 | TransformFaceEdge moves edge p to where the same 2D transformation moves its middle in the 3 x 3 grid of the face |
| `FaceTransforms.EdgeRowIsGridTransform` | WFC++/src/Tiled3D/Transform3D.cpp:603-613 | each row of the edge table is Vector2i::Transform by Invert(tr) on the edge middles of the 3 x 3 grid |
| `FaceTransforms.FaceCornerInverse` | WFC++/src/Tiled3D/Transform3D.cpp:536-575 | transforming a corner by tr and then by Invert(tr) gives it back, so every row of the corner table is a permutation |
| `FaceTransforms.FaceEdgeInverse` | WFC++/src/Tiled3D/Transform3D.cpp:576-615 | the same for edges |
| `FaceTransforms.FaceIdentity` | WFC++/src/Tiled3D/Transform3D.cpp:536-615 | None keeps every corner and edge on every face; right-handed faces reduce to the opposite face with Invert(tr) |
| `FaceTransforms.MainAxisLands` | WFC++/src/Tiled3D/Transform3D.cpp:327-333 | a transform maps the old side's axis onto the new side's axis, mirrored exactly when min and max swap |
| `FaceTransforms.CornerLandsOnStart` | WFC++/src/Tiled3D/Transform3D.cpp:335-400 | a corner's start position, transformed in the unit cube, is exactly the start position of the corner of the new face where ApplyToFace puts its ID |
| `FaceTransforms.EdgeLandsOnStart` | WFC++/src/Tiled3D/Transform3D.cpp:335-411 | a transformed edge position agrees along the new face's two axes with the start position of the edge where ApplyToFace puts its ID |
| `FaceTransforms.StartPlaceRoundTrip` | WFC++/src/Tiled3D/Transform3D.cpp:339-371 | reading a corner or an edge back from its start position gives it again |
| `FaceTransforms.CornerPlaceInjective` | WFC++/src/Tiled3D/Transform3D.cpp:391-401 | no two corners of a face are moved to the same corner of the new face |
| `FaceTransforms.EdgePlaceInjective` | WFC++/src/Tiled3D/Transform3D.cpp:402-412 | no two edges of a face are moved to the same edge |
| `FaceTransforms.SideRoundTrip` | WFC++/src/Tiled3D/Transform3D.cpp:315-321 | ApplyToSide by the inverse takes the new side back to the old one |
| `FaceTransforms.CornerPlaceRoundTrip` | WFC++/src/Tiled3D/Transform3D.cpp:391-401 | the inverse transform moves every corner back where it came from |
| `FaceTransforms.EdgePlaceRoundTrip` | WFC++/src/Tiled3D/Transform3D.cpp:402-412 | the inverse transform moves every edge back where it came from |
| `FaceTransforms.PlaceInjective` | WFC++/src/Tiled3D/Transform3D.cpp:391-418 | the place map of corners or of edges is one-to-one, the uniqueness the source double-checks |
| `FaceTransforms.PlaceRoundTrip` | WFC++/src/Tiled3D/Transform3D.cpp:391-418 | placing by t and then by its inverse from the new side returns every point |
| `FaceTransforms.PlaceOnto` | WFC++/src/Tiled3D/Transform3D.cpp:391-418 | every place of the new face receives a point of the old one |
| `FaceTransforms.ScatterPlaces` | WFC++/src/Tiled3D/Transform3D.cpp:391-412 | after the first n IDs are copied, each sits at the place its point was moved to |
| `FaceTransforms.ApplyToFacePermutes` | WFC++/src/Tiled3D/Transform3D.cpp:322-425 | ApplyToFace sets Side to ApplyToSide of the old side and moves each corner ID and edge ID to the place its point was moved to: the IDs are permuted |
| `FaceTransforms.ApplyToFaceSlots` | WFC++/src/Tiled3D/Transform3D.cpp:384-418 | every slot of the new face holds the ID of the point the inverse moves it back to, never the -1 the slots start with |
| `FaceTransforms.ApplyToFaceIdentity` | WFC++/src/Tiled3D/Transform3D.cpp:322-425 | the identity leaves every face unchanged |
| `FaceTransforms.ApplyToFaceRoundTrip` | WFC++/src/Tiled3D/Transform3D.cpp:322-425 | ApplyToFace by Inverse(t) undoes ApplyToFace by t |
| `FaceTransforms.TransformedStarts` | WFC++/src/Tiled3D/Transform3D.cpp:335-379 | the first half of ApplyToFace computes the corner and edge start positions of the face and transforms them, in the unit cube and in the doubled cube |
| `FaceTransforms.PlaceCornerIDs` | WFC++/src/Tiled3D/Transform3D.cpp:391-401 | the corner loop puts each old corner ID at the corner its transformed position marks as min or max along the new face's axes, which is the reference placement |
| `FaceTransforms.PlaceEdgeIDs` | WFC++/src/Tiled3D/Transform3D.cpp:402-412 | the edge loop puts each old edge ID at the edge found from its transformed middle, which is the reference placement |
| `FaceTransforms.ComputeApplyToFace` | WFC++/src/Tiled3D/Transform3D.cpp:322-425 | the computation as written gives the reference ApplyToFace |
| `FaceTransforms.ComputeApplyToCube` | WFC++/src/Tiled3D/Transform3D.cpp:426-431 | the loop over the faces of a copy gives the reference ApplyToCube, each face transformed in place |
| `FaceTransforms.ApplyToCubeRoundTrip` | WFC++/src/Tiled3D/Transform3D.cpp:426-431 | ApplyToCube keeps six faces and the inverse undoes it |
| `FaceTransforms.ApplyToCubeKeepsFaceIndex` | WFC++/src/Tiled3D/Transform3D.cpp:201-210 | in the transformed cube GetFace of the transformed side finds the index of the face that was on the original side |
| `TransformCompose.ComposeApplies` | WFC++/src/Tiled3D/Transform3D.cpp:212-313 | applying two signed permutations one after the other is applying their composition |
| `TransformCompose.FromSignedOfTransform` | WFC++/src/Tiled3D/Transform3D.cpp:212-313 | every transform is recovered from its signed permutation |
| `TransformCompose.TransformSignedInjective` | WFC++/src/Tiled3D/Transform3D.cpp:212-313 | distinct transforms have distinct signed permutations |
| `TransformCompose.FromSignedIsOnto` | WFC++/src/Tiled3D/Transform3D.cpp:212-313 | every signed axis permutation is that of one of the 48 transforms |
| `TransformCompose.ThenApplies` | WFC++/src/Tiled3D/Transform3D.cpp:530-534 | with a uniform max, ApplyToPos by a.Then(b) is ApplyToPos by a followed by ApplyToPos by b |
| `TransformCompose.TransformByCorners` | WFC++/src/Tiled3D/Transform3D.cpp:446-489 | two transforms that move the unit cube's origin and three unit corners alike are equal, so the corner arrangement determines the transform |
| `TransformCompose.ThenIsUnique` | WFC++/src/Tiled3D/Transform3D.cpp:507-528 | Then(a, b) is the only transform whose corner arrangement is that of a followed by b, so the cache's answer is well defined |
| `TransformCompose.ThenIdentity` | WFC++/src/Tiled3D/Transform3D.cpp:530-534 | the identity is a unit for Then on both sides |
| `TransformCompose.ThenInverse` | WFC++/src/Tiled3D/Transform3D.cpp:530-534 | t.Then(t.Inverse()) and t.Inverse().Then(t) are the identity, for all 48 t |
| `TransformCompose.ThenAssociative` | WFC++/src/Tiled3D/Transform3D.cpp:530-534 | Then is associative |
| `TransformCompose.ThenInvert` | WFC++/src/Tiled3D/Transform3D.cpp:530-534 | a composition is inverted exactly when one of its two parts is |
| `TransformCompose.CombineRotationsApplies` | WFC++/src/Tiled3D/Transform3D.cpp:194-199 | CombineRotations(a, b) is the rotation of Then on the two non-inverted transforms, and applies as a followed by b |
| `TransformCompose.PointBitsInjective` | WFC++/src/Tiled3D/Transform3D.cpp:453-467 | packing a corner of the unit cube gives a 3-bit number, and distinct corners get distinct numbers |
| `TransformCompose.PackInjective` | WFC++/src/Tiled3D/Transform3D.cpp:453-467 | two corner lists with the same packed 24-bit ID are equal |
| `TransformCompose.ArrangementCorners` | WFC++/src/Tiled3D/Transform3D.cpp:470-489 | a transform's arrangement lists where it moves each of the eight corners, in the initial order |
| `TransformCompose.CornersIDInjective` | WFC++/src/Tiled3D/Transform3D.cpp:491-505 | the 48 transforms produce distinct corner arrangement IDs, so the arrangement-to-transform map has no collisions |
| `TransformCompose.ArrangementOfThen` | WFC++/src/Tiled3D/Transform3D.cpp:507-528 | transforming a's arrangement by b gives the arrangement of Then(a, b) |
| `TransformCompose.AnswerSlotInjective` | WFC++/src/Tiled3D/Transform3D.cpp:441 | the slot aID + bID * 48 is different for every pair of IDs |
| `TransformCompose.TransformKeyInjective` | WFC++/src/Tiled3D/Transform3D.cpp:491-505 | each transform's key, the ID of its arrangement, is different |
| `TransformCompose.ThenKey` | WFC++/src/Tiled3D/Transform3D.cpp:507-528 | the ID of the initial corners moved by a and then by b is the key of Then(a, b) |
| `TransformCompose.ArrangementMap` | WFC++/src/Tiled3D/Transform3D.cpp:491-505 | filling a map over the 48 transforms keyed by an injective key sends each key back to its transform |
| `TransformCompose.TransformApplicationCache.GetAnswer` | WFC++/src/Tiled3D/Transform3D.cpp:439-442 | the cached answer for a and b is Then(a, b) |
| `TransformCompose.TransformApplicationCache.constructor` | WFC++/src/Tiled3D/Transform3D.cpp:444-528 | the constructor fills the 2304 slots, each with the composition of its pair |
| `TransformCompose.FillAnswers` | WFC++/src/Tiled3D/Transform3D.cpp:507-528 | the nested loops store at every pair's slot the transform found from the pair's arrangement |
| `TransformCompose.ThenByCache` | WFC++/src/Tiled3D/Transform3D.cpp:530-534 | Then as the source computes it, through the cache, equals the reference composition |
| `GridTables.PermutedFace` | WFC++/src/Tiled3D/Grid.cpp:23-25 | the face a permutation bit shows is ApplyToFace by that transform, on the side ApplyToSide gives |
| `GridTables.BuildFaceIndices` | WFC++/src/Tiled3D/Grid.cpp:20-26 | every permuted face of every tile gets an index in FaceIndices, and every index is below the count of face permutations and belongs to some tile's permuted face |
| `GridTables.BuildMatchingFaces` | WFC++/src/Tiled3D/Grid.cpp:28-39 | MatchingFaces has a row per tile and a column per face index, and permutation tr is in cell (tile, idx) exactly when tr.ApplyToFace of some face of the tile has index idx |
| `GridTables.MatchingRow` | WFC++/src/Tiled3D/Grid.cpp:31-39 | one tile's row: tr is in column idx exactly when tr is one of the tile's permutations and shows a face with that index |
| `GridTables.TileSets` | WFC++/src/Tiled3D/Grid.cpp:41-44 | each cell's initial possible set for tile t is that tile's Permutations |
| `GridTables.TileSetsCount` | WFC++/src/Tiled3D/Grid.cpp:12-13 | the sizes of those initial sets add up to NPermutedTiles, the accumulated Permutations sizes |
| `GridCells.WrapComponents` | WFC++/include/Tiled3D/Grid.h:144-160 | FilterPos wraps each periodic axis into [0, size) with PositiveModulo and leaves the other axes as they are |
| `GridCells.WrapLandsInBounds` | WFC++/include/Tiled3D/Grid.h:144-160 | FilterPos lands inside the grid exactly when every non-periodic coordinate already is, and it is idempotent |
| `GridCells.WrapStepBack` | WFC++/include/Tiled3D/Grid.h:144-160 | stepping out by e, filtering, and stepping back by e, filtered, reaches the filtered start again |
| `GridCells.Neighbors` | WFC++/include/Tiled3D/Grid.h:212-223 | GetNeighbors returns six entries |
| `GridCells.NeighborsAt` | WFC++/include/Tiled3D/Grid.h:212-223 | entry i is the filtered position one step along direction i, tagged with that direction, in MinX..MaxZ order |
| `GridCells.NeighborsAreMutual` | WFC++/include/Tiled3D/Grid.h:212-223 | for a cell inside the grid, the cell is its neighbour's neighbour in the opposite direction, with wrap-around |
| `GridCells.HistoryOffset` | WFC++/src/Tiled3D/Grid.cpp:140-146 | the history visits the cell itself first, then its six neighbours in Direction3D order (ActionHistoryNeighborsData is not part of this model; this order is assumed) |
| `GridState.SumSizesStrict` | WFC++/src/Tiled3D/Grid.cpp:385-416 | when every set of one list is inside the matching set of another, the totals are equal exactly when the lists are, so a filter that drops nothing leaves NPossibilities unchanged |
| `GridState.HistoryPositions` | WFC++/src/Tiled3D/Grid.cpp:140-146 | a history entry covers seven positions |
| `GridState.HistoryPositionsAreNeighbors` | WFC++/src/Tiled3D/Grid.cpp:140-146 | the first recorded position is the cell itself and the others are its GetNeighbors positions, filtered |
| `GridState.HistoryPositionsAsWritten` | WFC++/src/Tiled3D/Grid.cpp:75-77 | ActionHistoryNeighborInfo as written steps from the cell without FilterPos: seven positions, unwrapped |
| `GridState.HistoryPositionsAsWrittenMissSeam` | WFC++/src/Tiled3D/Grid.cpp:75-77 | on a grid periodic in x, for a cell in the first column the recorded MinX neighbour is the last column, but the position as written is x = -1, off the grid, so its sets are never restored |
| `GridState.Unplaced` | WFC++/src/Tiled3D/Grid.cpp:559-560 | the undone cell loses its tile and keeps its changeability and count |
| `GridState.RestoredCellAsWrittenBreaksCount` | WFC++/src/Tiled3D/Grid.cpp:536-541 | as written, undoing a placement next to a placed cell with one tile of two permutations sets that cell's count to 2 although it stays placed, breaking the rule that a placed cell counts one possibility; the corrected restore keeps it |
| `GridState.RestoreFoldAgrees` | WFC++/src/Tiled3D/Grid.cpp:527-541 | restoring an entry keeps every cell's count equal to the total size of its sets, and the maps covering the grid |
| `GridState.RestoreFoldUntouched` | WFC++/src/Tiled3D/Grid.cpp:527-541 | a cell at none of the entry's positions keeps its state and its sets |
| `GridState.RestoreFoldRestores` | WFC++/src/Tiled3D/Grid.cpp:532-541 | an in-grid position of the entry gets back the snapshot block of its last occurrence |
| `GridState.RestoreFoldKeepsPlaced` | WFC++/src/Tiled3D/Grid.cpp:527-541 | restoring places no cell, and keeps the tile and permutation of every placed cell |
| `GridState.SnapshotMatches` | WFC++/src/Tiled3D/Grid.cpp:140-154 | the snapshot SetCell pushes holds, in block i, the sets of the i-th history position when it is inside the grid |
| `GridState.UnwoundState` | WFC++/src/Tiled3D/Grid.cpp:515-567 | after undoing a placement the maps still cover the grid and agree with the counts, the cell is unset, and no other choice or changeability has changed |
| `GridClear.ClearedStep` | WFC++/src/Tiled3D/Grid.cpp:202-220 | visiting one more point of the region adds its filtered cell to the cleared ones exactly when that cell is changeable or immutable cells are included |
| `GridClear.ClearedFromStep` | WFC++/src/Tiled3D/Grid.cpp:213-220 | clearing one eligible cell keeps the relation to the old grid: its changeability is raised when asked, nothing else moves, and it stays placed only when every permutation it had is its reset count |
| `GridClear.LeftoversStep` | WFC++/src/Tiled3D/Grid.cpp:207-212 | a placed ineligible cell joins the leftovers once; nothing else does |
| `GridClear.ResetFromStep` | WFC++/src/Tiled3D/Grid.cpp:477-499 | resetting one more cell (left alone when counting every permutation, otherwise given its initial sets and their total) extends the reset relation |
| `GridClear.ResetThenNarrowed` | WFC++/src/Tiled3D/Grid.cpp:194-290 | the region reset, then the border pass and the leftovers' pass together leave every set within its old set or its initial set |
| `GridClear.NarrowsOrRebuildsTrans` | WFC++/src/Tiled3D/Grid.cpp:225-270 | two passes that each narrow or rebuild from the initial sets compose to one that does |
| `GridClear.OnlyCountsStep` | WFC++/src/Tiled3D/Grid.cpp:260-266 | filtering or recalculating one unset cell changes only its count, and never a placed cell |
| `GridClear.ContainsByAxes` | WFC++/include/Helpers/Vector3i.h:108-113 | a point within the region's range on each of the three axes is contained in it |
| `GridClear.BorderInnerInRegion` | WFC++/src/Tiled3D/Grid.cpp:237-256 | the cell one step inward from a position on a face just outside the region lies in the region |
| `GridClear.ClearedPosStepBack` | WFC++/src/Tiled3D/Grid.cpp:244-256 | stepping inward from the wrapped border position and wrapping again reaches the cell that stepping inward from the raw position and wrapping reaches |
| `GridClear.ClearedPosAsWrittenLeavesGrid` | WFC++/src/Tiled3D/Grid.cpp:254-256 | on a grid periodic in x, a region at x = 0 has its outside border cell wrapped to the last column, and the unwrapped inward step from it leaves the grid while the wrapped one is the region's cell |
| `GridClear.WrappedPoints` | WFC++/src/Tiled3D/Grid.cpp:204 | each of the region's points is wrapped as FilterPos wraps it |
| `Grid3D.GridPoints` | WFC++/src/Tiled3D/Grid.cpp:42-44 | the points `Region3i(Cells.GetDimensions())` visits are exactly the in-bounds cells |
| `Grid3D.RegionCount` | WFC++/include/Helpers/Vector3i.h:115-119 | a well-formed region counts no elements below zero, and it has elements exactly when all three sides are positive |
| `Grid3D.UnitRegion` | WFC++/src/Tiled3D/Grid.cpp:292-296 | the region `(cellPos, cellPos + 1)` ClearCell builds has one element, contains only cellPos and visits only cellPos |
| `Grid3D.CopySets` | WFC++/src/Tiled3D/Grid.cpp:488-496 | the loop copies every initial set of the cell and the count ends as the sum of their sizes |
| `Grid3D.RestoreCell` | WFC++/src/Tiled3D/Grid.cpp:531-545 | one in-grid cell of an entry: only that cell's sets change, to the snapshot, and its state becomes the restored state for the snapshot's total size |
| `Grid3D.RestoreLoop` | WFC++/src/Tiled3D/Grid.cpp:521-558 | the loop over the seven recorded positions equals the fold that restores each in-grid one in turn |
| `Grid3D.Grid.constructor` | WFC++/src/Tiled3D/Grid.cpp:10-48 | the grid keeps the tiles and size, has no periodic axis, every permuted face has an index, MatchingFaces holds exactly the permutations showing each face index, every initial set is its tile's permutations, and the grid is reset |
| `Grid3D.Grid.Reset` | WFC++/src/Tiled3D/Grid.cpp:50-67 | every cell becomes unset, changeable and counting NPermutedTiles; the possible sets become the initial ones; both histories are empty; tables and settings are unchanged |
| `Grid3D.Grid.FilteredMeaning` | WFC++/src/Tiled3D/Grid.cpp:385-433 | a permutation survives the filter iff it was possible and is (or, when forbidding, is not) in MatchingFaces for the face's index; an unknown face keeps nothing unless forbidding |
| `Grid3D.Grid.FilteredShrinks` | WFC++/src/Tiled3D/Grid.cpp:385-433 | filtering yields subsets only, the total size never grows, and it stays equal exactly when no set changed |
| `Grid3D.Grid.NarrowSets` | WFC++/src/Tiled3D/Grid.cpp:400-431 | the loop over tiles yields the filtered sets and a count equal to their total size |
| `Grid3D.Grid.ApplyFilter` | WFC++/src/Tiled3D/Grid.cpp:385-433 | only cellPos can change; a set cell is left alone; otherwise its sets become the filtered ones, its count becomes their total and its choice is kept |
| `Grid3D.Grid.ApplyNeighborFilter` | WFC++/src/Tiled3D/Grid.cpp:434-447 | only the neighbour can change; nothing happens when cellPos is unset; otherwise the neighbour is filtered by the flipped face cellPos shows on that side |
| `Grid3D.Grid.ResetCellPossibilities` | WFC++/src/Tiled3D/Grid.cpp:477-499 | a cell counting NPermutedTiles is left alone; any other cell becomes unset with its initial sets and a count equal to their total; no other cell changes |
| `Grid3D.Grid.NeighborsFoldMeaning` | WFC++/src/Tiled3D/Grid.cpp:504-512 | after the neighbours filter a cell, a permutation remains iff it was possible and every placed neighbour's face has an index whose matching set holds it |
| `Grid3D.Grid.NeighborsFoldWithin` | WFC++/src/Tiled3D/Grid.cpp:504-512 | filtering by neighbours only removes possibilities |
| `Grid3D.Grid.NeighborsFoldFrame` | WFC++/src/Tiled3D/Grid.cpp:504-512 | the neighbour filtering of a cell does not depend on that cell's own state |
| `Grid3D.Grid.PlacedFaceFrame` | WFC++/src/Tiled3D/Grid.cpp:510-511 | the face a neighbour shows towards cellPos does not depend on cellPos's own state |
| `Grid3D.Grid.RecalculateCellPossibilities` | WFC++/src/Tiled3D/Grid.cpp:500-513 | a placed cell the reset skips keeps everything; otherwise the cell's sets are its reset sets filtered by every placed in-grid neighbour, its count their total, and no other cell changes |
| `Grid3D.Grid.FilterByNeighbors` | WFC++/src/Tiled3D/Grid.cpp:504-512 | the loop leaves a set cell alone and gives an unset one the neighbour-fold of its sets, with a matching count |
| `Grid3D.Grid.FilterByNeighbor` | WFC++/src/Tiled3D/Grid.cpp:510-511 | one in-grid placed neighbour filters the unset cell by its face; an unplaced neighbour changes nothing |
| `Grid3D.Grid.RestoreEntry` | WFC++/src/Tiled3D/Grid.cpp:521-558 | the loop on the grid's maps equals the restore fold over the placed cell's history neighbours |
| `Grid3D.Grid.UnwindActionHistory` | WFC++/src/Tiled3D/Grid.cpp:515-567 | the top entry's snapshot sets come back to its in-grid cells, the placed cell becomes unset, and exactly one entry and its EntrySize snapshot sets leave the histories |
| `Grid3D.Grid.UnwindLands` | WFC++/src/Tiled3D/Grid.cpp:560-562 | undoing an entry is restoring its cells then unplacing the placed cell, and it keeps every cell's count equal to the size of its sets |
| `Grid3D.Grid.CommitUnwind` | WFC++/src/Tiled3D/Grid.cpp:566-567 | the restored maps are written back and the top entry with its snapshot leaves both histories |
| `Grid3D.Grid.UnwindActionHistories` | WFC++/src/Tiled3D/Grid.cpp:569-576 | the top n entries and their snapshots leave the histories, every cell they placed ends unset, and no cell's choice or changeability otherwise changes |
| `Grid3D.Grid.RegionCellsInGrid` | WFC++/src/Tiled3D/Grid.cpp:202-205 | every filtered position of a region inside the grid is a grid cell |
| `Grid3D.Grid.CheckUnwindable` | WFC++/src/Tiled3D/Grid.cpp:174-186 | the loop answers true iff the history holds at least nCells entries and the top nCells are all in the region and clearable |
| `Grid3D.Grid.ClearCells` | WFC++/src/Tiled3D/Grid.cpp:168-291 | when the top history entries are exactly the region's clearable cells they are unwound (placed ones end unset, choices otherwise kept); otherwise both histories are emptied, every eligible cell is cleared and reset, and every set stays within its old or initial set |
| `Grid3D.Grid.ClearAndRefilter` | WFC++/src/Tiled3D/Grid.cpp:194-290 | the histories are empty, exactly the eligible region cells are cleared (made mutable when asked), and the possible sets are refiltered from the old or initial ones |
| `Grid3D.Grid.ClearRegion` | WFC++/src/Tiled3D/Grid.cpp:202-221 | the eligible cells are cleared and reset, every other cell is kept, and the leftovers are exactly the placed ineligible cells |
| `Grid3D.Grid.ClearVisit` | WFC++/src/Tiled3D/Grid.cpp:204-220 | one cell of the region loop keeps the loop's invariant: cleared prefix, untouched rest, leftovers so far |
| `Grid3D.Grid.ResetForClear` | WFC++/src/Tiled3D/Grid.cpp:215-219 | the cell's changeability is or-ed with becomeMutable and then it is reset as ResetCellPossibilities does |
| `Grid3D.Grid.FilterBorders` | WFC++/src/Tiled3D/Grid.cpp:225-270 | the pass over the six outside faces changes only counts and sets, and every set either shrinks or is rebuilt from the initial sets |
| `Grid3D.Grid.FilterBorderFace` | WFC++/src/Tiled3D/Grid.cpp:236-269 | the cells of one outside face change only counts and sets, narrowing or rebuilding them |
| `Grid3D.Grid.FilterBorderCell` | WFC++/src/Tiled3D/Grid.cpp:240-268 | a placed outside cell filters the inward cell; an unset one is recalculated; only counts and sets change |
| `Grid3D.Grid.FilterFromLeftovers` | WFC++/src/Tiled3D/Grid.cpp:275-288 | each leftover placed cell filters its neighbours in the region; sets only shrink and only counts change |
| `Grid3D.Grid.ClearCell` | WFC++/src/Tiled3D/Grid.cpp:292-296 | when the top history entry is cellPos it is unwound and the cell ends unset; otherwise both histories are emptied and the cell is cleared (made mutable when asked) |
| `Grid3D.Grid.SetCellNot` | WFC++/src/Tiled3D/Grid.cpp:298-323 | both histories are emptied and the permutations leave the tile's initial set at pos; a placed cell is then cleared, an unset one loses them from its possible set and its count drops by the number removed |
| `Grid3D.Grid.SpreadFoldKeeps` | WFC++/src/Tiled3D/Grid.cpp:161-163 | spreading a placement changes only counts and unset neighbours' sets; a placed cell or a non-neighbour keeps its state and sets |
| `Grid3D.Grid.SpreadFoldKeys` | WFC++/src/Tiled3D/Grid.cpp:161-163 | spreading a placement never adds or removes a cell |
| `Grid3D.Grid.PlaceThenUnwind` | WFC++/src/Tiled3D/Grid.cpp:123-166 | placing an unset cell and then unwinding it gives back every possible set and every cell, except that the undone cell keeps the permutation and changeability the placement gave it |
| `Grid3D.Grid.PlaceThenUnwindAt` | WFC++/src/Tiled3D/Grid.cpp:123-166 | the same round trip stated for one cell p |
| `Grid3D.Grid.HistoryCoversNeighbors` | WFC++/src/Tiled3D/Grid.cpp:142-157 | the recorded positions start with the cell itself and include every neighbour GetNeighbors gives |
| `Grid3D.Grid.RecordSnapshot` | WFC++/src/Tiled3D/Grid.cpp:143-157 | the snapshot loop pushes each in-grid history neighbour's sets, and n empty sets for one off the grid |
| `Grid3D.Grid.SpreadToNeighbors` | WFC++/src/Tiled3D/Grid.cpp:161-163 | the placed cell filters each in-grid neighbour by its face on that side and stays as it was |
| `Grid3D.Grid.PlaceCell` | WFC++/src/Tiled3D/Grid.cpp:142-163 | the cell joins the history, the snapshot grows by its neighbourhood's sets, the cell holds the tile and permutation with one possibility, and its neighbours are filtered |
| `Grid3D.Grid.SetCell` | WFC++/src/Tiled3D/Grid.cpp:123-166 | the position is wrapped; the cell ends placed with one possibility; the history ends with it above a prefix of the old history, and the snapshot grows accordingly |
| `Grid3D.Grid.ClearForPlacement` | WFC++/src/Tiled3D/Grid.cpp:136-138 | a placed cell is cleared, leaving a prefix of both histories; an unset cell changes nothing |
| `Grid3D.Grid.IsLegalPlacement` | WFC++/src/Tiled3D/Grid.cpp:90-121 | Some(true) iff every placed in-grid neighbour's flipped face is shown by the permutation; Some(false) names the first refusing neighbour; None stands for a face missing from FaceIndices |
| `PermutatorCommon.Originals` | WFC++/src/Tiled3D/TilePermutator.cpp:37-41 | there is one parent record per original tile, each naming itself as parent under the identity transform |
| `PermutatorCommon.ChildIDsMembers` | WFC++/src/Tiled3D/TilePermutator.cpp:58-61 | an ID is listed under p exactly when it names a child entry whose parent is p, and the listed IDs are strictly increasing |
| `PermutatorCommon.ChildIDsAppend` | WFC++/src/Tiled3D/TilePermutator.cpp:58-61 | registering one more child adds its ID under its own parent and under no other |
| `PermutatorCommon.ChildIDOf` | WFC++/src/Tiled3D/TilePermutator.cpp:58-61 | the child entry j of parent p is listed under p with ID n + j |
| `PermutatorCommon.ChildIDIs` | WFC++/src/Tiled3D/TilePermutator.cpp:58-61 | every ID listed under p names a child entry whose parent is p |
| `PermutatorCommon.IDsInRange` | WFC++/src/Tiled3D/TilePermutator.cpp:37-62 | every ID listed under an original, the original itself first, names a built tile |
| `PermutatorCommon.FirstMatchMeaning` | WFC++/src/Tiled3D/TilePermutator.cpp:66-73 | the scan returns a listed tile made by the transform when one exists, and TileID_INVALID when none does |
| `PermutatorCommon.FirstMatchFinds` | WFC++/src/Tiled3D/TilePermutator.cpp:68-70 | once some listed tile is made by the transform, the scan returns a listed tile made by it |
| `PermutatorCommon.FirstMatchNone` | WFC++/src/Tiled3D/TilePermutator.cpp:72 | when no listed tile is made by the transform, the scan returns TileID_INVALID |
| `TilePermutator3D.ChildrenForMembers` | WFC++/src/Tiled3D/TilePermutator.cpp:47-62 | one permutation makes a child of parent p exactly when p is among the originals so far and is not symmetric under it |
| `TilePermutator3D.AllChildrenMembers` | WFC++/src/Tiled3D/TilePermutator.cpp:45-63 | a (parent, transform) pair gets a child exactly when the parent is original, the transform was requested and the parent is not symmetric under it |
| `TilePermutator3D.AllChildrenHas` | WFC++/src/Tiled3D/TilePermutator.cpp:45-63 | the same membership test for one given pair |
| `TilePermutator3D.ChildTiles` | WFC++/src/Tiled3D/TilePermutator.cpp:54-55 | the child tiles follow their entries in order, each being its parent with the cube permuted by ApplyToCube |
| `TilePermutator3D.ContainsTransform` | WFC++/src/Tiled3D/TilePermutator.cpp:11-18 | the linear scan answers true exactly when the transform is in the list |
| `TilePermutator3D.TilePermutator.constructor` | WFC++/src/Tiled3D/TilePermutator.cpp:27-64 | the tiles are the originals followed by the child tiles; the parent records are the originals' then the children's; every original is (only) a key of permutationsPerParent, itself listed first and then its children's IDs |
| `TilePermutator3D.TilePermutator.FindPermutation` | WFC++/src/Tiled3D/TilePermutator.cpp:66-73 | the result is the first ID listed under the original whose parent record carries the transform, or TileID_INVALID |
| `TilePermutator3D.RegisterOriginals` | WFC++/src/Tiled3D/TilePermutator.cpp:37-41 | the first loop builds the builder's invariant with no children yet |
| `TilePermutator3D.PermuteEach` | WFC++/src/Tiled3D/TilePermutator.cpp:45-63 | the outer loop registers exactly the children of every requested permutation, in order |
| `TilePermutator3D.BuiltValid` | WFC++/src/Tiled3D/TilePermutator.cpp:58-61 | a built permutator has one parent record per tile and lists only built tile IDs |
| `TilePermutator3D.PermuteAll` | WFC++/src/Tiled3D/TilePermutator.cpp:47-62 | the inner loop registers exactly one permutation's children, parent by parent |
| `TilePermutator3D.RegisterChild` | WFC++/src/Tiled3D/TilePermutator.cpp:54-61 | registering one child appends its tile, its parent record and its ID under the parent |
| `TilePermutator3D.AppendChild` | WFC++/src/Tiled3D/TilePermutator.cpp:54-61 | appending a child's tile, record and ID keeps the builder's invariant |
| `TilePermutator3D.BuiltParentsBelow` | WFC++/src/Tiled3D/TilePermutator.cpp:47 | every child's parent is an original tile |
| `TilePermutator3D.FindInBuilt` | WFC++/src/Tiled3D/TilePermutator.cpp:66-73 | on a built permutator, the identity finds the original itself; any other transform finds a child exactly when it was requested and the original is not symmetric under it, and that child's cube is the permuted original cube |
| `TilePermutator3D.ChildRecord` | WFC++/src/Tiled3D/TilePermutator.cpp:58-61 | a tile listed under p is a child of p made by a requested transform under which p is not symmetric |
| `TilePermutator3D.FindChild` | WFC++/src/Tiled3D/TilePermutator.cpp:68-70 | the scan over p's children stops at a child made by the transform |
| `TilePermutator3D.ChildTileAt` | WFC++/src/Tiled3D/TilePermutator.cpp:54-59 | tile n + j is child j's permuted cube |
| `TiledPermutator.ChildEdgesFollowGeometry` | WFC++/src/Tiled/TilePermutator.cpp:104-117 | the EDGES table agrees with the geometry: the parent's edge on side d lands on the side whose direction is d's direction turned by the transformation |
| `TiledPermutator.ChildEdgesInvert` | WFC++/src/Tiled/TilePermutator.cpp:104-117 | the table of the inverse transformation undoes the table of the transformation |
| `TiledPermutator.OrdinalsFromMembers` | WFC++/src/Tiled/TilePermutator.cpp:31-32 | the enumerated ordinals from a start are exactly the mask's members from there below EnumValEnd |
| `TiledPermutator.OrdinalsFromAscending` | WFC++/src/Tiled/TilePermutator.cpp:31-32 | the enumerated ordinals ascend strictly |
| `TiledPermutator.AscendingUnique` | WFC++/src/Tiled/TilePermutator.cpp:31-32 | two strictly ascending lists with the same members are equal, so the enumeration is determined by the mask |
| `TiledPermutator.EnumeratedIsRequested` | WFC++/src/Tiled/TilePermutator.cpp:31-32 | any ascending list of exactly the mask's members is the list of requested transformations |
| `TiledPermutator.RequestedMembers` | WFC++/src/Tiled/TilePermutator.cpp:31-32 | a transformation is requested exactly when its bit is in the mask |
| `TiledPermutator.AnyReflection` | WFC++/src/Tiled/TilePermutator.cpp:35-36 | the scan answers true exactly when some requested transformation is a reflection |
| `TiledPermutator.RequestsReflection` | WFC++/src/Tiled/TilePermutator.cpp:35-36 | a reflection is requested exactly when one of the FlipX, FlipY, FlipDiag1 or FlipDiag2 bits is set |
| `TiledPermutator.Max3` | WFC++/src/Tiled/TilePermutator.cpp:43 | the result is at least each of the three IDs and is one of them |
| `TiledPermutator.CheckSuppliedPairs` | WFC++/src/Tiled/TilePermutator.cpp:40-59 | the first loop over the supplied pairs computes the pair check: its success flag, the completed map and the largest ID |
| `TiledPermutator.CheckPairsMeaning` | WFC++/src/Tiled/TilePermutator.cpp:40-59 | the check succeeds exactly when the supplied map is consistent; then the map is symmetric, keeps every supplied pair and adds only reverses of them, and the largest ID bounds every supplied ID |
| `TiledPermutator.KeptSupplied` | WFC++/src/Tiled/TilePermutator.cpp:45-58 | the first loop never changes a supplied pair, whether or not it fails |
| `TiledPermutator.CheckedMeaning` | WFC++/src/Tiled/TilePermutator.cpp:40-59 | a loop that got through every pair saw a consistent map, left it symmetric over the supplied keys and their reflections, and ended with the largest of their IDs |
| `TiledPermutator.AddMissingReflections` | WFC++/src/Tiled/TilePermutator.cpp:63-76 | the second loop adds, in tile and side order, a fresh pair for every tile edge that has no reflection yet |
| `TiledPermutator.FreshStartIsFresh` | WFC++/src/Tiled/TilePermutator.cpp:62 | the corrected first fresh ID is one past the largest supplied ID and the largest tile edge, so it is above all of them |
| `TiledPermutator.CompletedMeaning` | WFC++/src/Tiled/TilePermutator.cpp:40-76 | with the corrected first fresh ID the completed map is symmetric, keeps every supplied pair, gives every tile edge a reflection, and pairs each edge that had none with a new ID no tile or supplied pair uses |
| `TiledPermutator.FreshStartAsWrittenCollides` | WFC++/src/Tiled/TilePermutator.cpp:40-76 | one tile with edges 0, 1, 0, 1, no supplied map and FlipX requested: the source's first fresh ID gives edge 0 the reflection 1, an edge the tile already has |
| `TiledPermutator.FreshStartAvoidsTileEdges` | WFC++/src/Tiled/TilePermutator.cpp:40-76 | on the same tile, the corrected first fresh ID pairs 0 with 2 and 1 with 3 |
| `TiledPermutator.ReflectTwice` | WFC++/src/Tiled/TilePermutator.cpp:93-98 | reflecting four edges twice through a symmetric map that holds them gives them back |
| `TiledPermutator.ChildTileEdges` | WFC++/src/Tiled/TilePermutator.cpp:91-117 | a child keeps its parent's symmetries and weight, and the parent's edge on side d (reflected under a reflection) is the child's edge on the side d moves to |
| `TiledPermutator.ChildrenForMembers` | WFC++/src/Tiled/TilePermutator.cpp:83-89 | one transformation makes a child of parent p exactly when p is among the originals so far and not symmetric under it |
| `TiledPermutator.AllChildrenMembers` | WFC++/src/Tiled/TilePermutator.cpp:81-130 | a (parent, transformation) pair gets a child exactly when the parent is original, the transformation requested and the parent not symmetric under it |
| `TiledPermutator.BuiltParentsBelow` | WFC++/src/Tiled/TilePermutator.cpp:83 | every child's parent is an original tile |
| `TiledPermutator.CheckPairsInvariant` | WFC++/src/Tiled/TilePermutator.cpp:41-59 | the first loop keeps its invariant while it succeeds and fails only on an inconsistent supplied map |
| `TiledPermutator.RegisterOriginals` | WFC++/src/Tiled/TilePermutator.cpp:20-24 | the first loop makes each original its own parent under None and the first tile listed under itself |
| `TiledPermutator.PermuteEach` | WFC++/src/Tiled/TilePermutator.cpp:81-130 | the outer loop registers exactly the children of every requested transformation, in order |
| `TiledPermutator.PermuteAll` | WFC++/src/Tiled/TilePermutator.cpp:83-129 | the inner loop registers exactly one transformation's children, parent by parent |
| `TiledPermutator.ParentEdges` | WFC++/src/Tiled/TilePermutator.cpp:93-98 | the loop fills each of the four edges, reflected through the map exactly when the transformation is a reflection |
| `TiledPermutator.RegisterChild` | WFC++/src/Tiled/TilePermutator.cpp:101-128 | one non-symmetric parent appends its child tile, its parent record and its ID under the parent |
| `TiledPermutator.BuildKeepsOriginals` | WFC++/src/Tiled/TilePermutator.cpp:15-24 | the originals come first in every result, each its own parent under None and first in its own list, with one list per original and no other |
| `TiledPermutator.BuildError` | WFC++/src/Tiled/TilePermutator.cpp:49-53 | the constructor reports InvalidReflectionMap exactly when a reflection was requested and the supplied map is inconsistent, and it then holds the originals only |
| `TiledPermutator.BuildReflections` | WFC++/src/Tiled/TilePermutator.cpp:26-77 | without a requested reflection the map is the supplied one; with one, a consistent map with room for fresh IDs becomes symmetric, keeps the supplied pairs and reflects every tile edge |
| `TiledPermutator.PermutedFindChild` | WFC++/src/Tiled/TilePermutator.cpp:133-140 | on a built permutator, a requested transformation the original is not symmetric under finds the original's child tile under it |
| `TiledPermutator.PermutedFindNone` | WFC++/src/Tiled/TilePermutator.cpp:133-140 | a transformation that was not requested, or under which the original is symmetric, finds TileID_INVALID |
| `TiledPermutator.PermutedFindSelf` | WFC++/src/Tiled/TilePermutator.cpp:133-140 | under None, an original finds itself |
| `TiledPermutator.BuildFind` | WFC++/src/Tiled/TilePermutator.cpp:133-140 | GetTileChild on the constructor's result, stated by the requested bits and the tiles' symmetries: itself under None, its child under a requested non-symmetric transformation, TileID_INVALID otherwise |
| `TiledPermutator.TilePermutator.constructor` | WFC++/src/Tiled/TilePermutator.cpp:11-131 | the object's error code, tiles, parent records, per-original lists and reflection map are those of the constructor's specification function |
| `TiledPermutator.TilePermutator.GetTileChild` | WFC++/src/Tiled/TilePermutator.cpp:133-140 | the result is the first ID listed under the original whose parent record carries the transformation, or TileID_INVALID |
| `TiledInput.AddEdgesHas` | WFC++/src/Tiled/InputData.cpp:26-30 | after d sides of a tile, every old key is kept and the tile's ID is added exactly under the keys of its first d sides |
| `TiledInput.IndexUpToHas` | WFC++/src/Tiled/InputData.cpp:23-31 | after n tiles, a tile is listed under a key exactly when it is one of the first n and has that edge type on that side |
| `TiledInput.IndexUpToKeys` | WFC++/src/Tiled/InputData.cpp:29 | every key of the index lists at least one tile |
| `TiledInput.IndexMeaning` | WFC++/src/Tiled/InputData.cpp:18-32 | the index lists under each key exactly the tiles with that edge on that side, and has a key for every tile edge and for nothing else |
| `TiledInput.IndexIDsInRange` | WFC++/src/Tiled/InputData.cpp:23-31 | every listed ID names a tile |
| `TiledInput.TotalInsert` | WFC++/src/Tiled/InputData.cpp:29 | inserting an ID not yet under its key adds one entry to the index |
| `TiledInput.AddEdgesTotal` | WFC++/src/Tiled/InputData.cpp:26-30 | the first d sides of a tile whose ID is new add exactly d entries |
| `TiledInput.IndexUpToTotal` | WFC++/src/Tiled/InputData.cpp:23-31 | after n tiles the index holds 4·n entries |
| `TiledInput.IndexTotal` | WFC++/src/Tiled/InputData.cpp:18-32 | the index holds four entries per tile: each tile is listed once per side |
| `TiledInput.IndexTile` | WFC++/src/Tiled/InputData.cpp:26-30 | the inner loop adds the tile's four edges to the index |
| `TiledInput.InputData.constructor` | WFC++/src/Tiled/InputData.cpp:18-32 | the object keeps the tiles and its index is that of the tiles |
| `TiledInput.InputData.GetTilesWithEdge` | WFC++/include/Tiled/InputData.h:59-66 | the result is the set of tiles having that edge type on that side |
| `TiledInput.GetTilesWithEdgeMeaning` | WFC++/include/Tiled/InputData.h:59-66 | looking a key up in the index, with an absent key read as the empty set, gives exactly the tiles having that edge on that side |
| `TiledState.GridPoints` | WFC++/src/Tiled/State.cpp:19 | the positions of a w x h output are exactly those with 0 <= x < w and 0 <= y < h |
| `TiledState.FilterMeaning` | WFC++/Tiled/State.h:58-62 | on a wrapping axis Filter lands in range and keeps the coordinate's residue; on any other axis it keeps the coordinate; a position in the grid is kept |
| `TiledState.IsValidPosMeaning` | WFC++/Tiled/State.h:63-70 | the corrected IsValidPos holds exactly for positions that Filter brings into the grid |
| `TiledState.IsValidPosAsWrittenAgrees` | WFC++/Tiled/State.h:65-70 | with both axes wrapping or neither, the source's IsValidPos agrees with the corrected one |
| `TiledState.IsValidPosAsWrittenAdmitsOutside` | WFC++/Tiled/State.h:65-70 | on a 2 x 2 grid wrapping only in x, the source's IsValidPos accepts (0, -1), which Filter leaves outside the grid |
| `TiledState.IsValidPosAsWrittenDropsWrapped` | WFC++/Tiled/State.h:65-70 | on a 2 x 1 grid wrapping only in x, the source's IsValidPos refuses (2, 0), which wraps to (0, 0) and which the corrected one accepts |
| `TiledState.OppositeEdgeFaces` | WFC++/Tiled/Tile.hpp:27-55 | the opposite edge points the opposite way |
| `TiledState.OppositeEdgeInvolution` | WFC++/Tiled/Tile.hpp:41-55 | GetOppositeEdge is an involution with no fixed point |
| `TiledState.ChancesMeaning` | WFC++/src/Tiled/State.cpp:237-264 | a tile ID stays possible exactly when it is among all the IDs and its edge matches the facing edge of every set neighbour |
| `TiledState.ChancesUpToWithin` | WFC++/src/Tiled/State.cpp:242-264 | the possible tiles after the edge loop are among all the IDs |
| `TiledState.KeepMatching` | WFC++/src/Tiled/State.cpp:260-263 | the erase loop leaves exactly the possible IDs that the neighbour's matches contain |
| `TiledState.Narrow` | WFC++/src/Tiled/State.cpp:242-264 | the edge loop computes exactly the chances of the cell |
| `TiledState.RecalcCell` | WFC++/src/Tiled/State.cpp:225-265 | RecalculateTileChances' body on a board: a set cell is left alone, an unset one gets its chances |
| `TiledState.Recalc` | WFC++/src/Tiled/State.cpp:234-235 | recalculating keeps every value and every cell of the grid |
| `TiledState.ClearRegionMeaning` | WFC++/src/Tiled/State.cpp:131-146 | around a grid cell the region spans ClearSize on each wrapping axis and is cut to the grid on the others, so it holds the center |
| `TiledState.ClearRegionInGrid` | WFC++/src/Tiled/State.cpp:149-151 | every position of the region, filtered, is a cell of the grid |
| `TiledState.ClearRegionFilters` | WFC++/src/Tiled/State.cpp:131-151 | the region is never empty and every one of its positions filters into the grid |
| `TiledState.ClearAllHas` | WFC++/src/Tiled/State.cpp:149-165 | a cell some position filters to, not affected before and deletable, is cleared to all IDs and becomes affected; every other cell and affected mark stays |
| `TiledState.ClearLoop` | WFC++/src/Tiled/State.cpp:149-165 | the clearing loop over the region computes the clearing of its points in row-major order |
| `TiledState.BorderInGrid` | WFC++/src/Tiled/State.cpp:168-189 | every neighbour ClearArea adds is a cell of the grid |
| `TiledState.AddBorder` | WFC++/src/Tiled/State.cpp:168-189 | the two border loops add exactly the region's allowed border positions to the affected ones |
| `TiledState.ClearAreaInGrid` | WFC++/src/Tiled/State.cpp:128-190 | ClearArea keeps every affected position in the grid |
| `TiledState.ClearAreaValid` | WFC++/src/Tiled/State.cpp:128-190 | ClearArea keeps every value below the tile count and every cell's possible tiles among all |
| `TiledState.ClearManyValid` | WFC++/src/Tiled/State.cpp:50-51 | clearing around several centers keeps every value below the tile count and every cell's possible tiles among all |
| `TiledState.ClearAround` | WFC++/src/Tiled/State.cpp:128-190 | ClearArea's body on a board and an affected set computes the specification's ClearArea |
| `TiledState.MinEntropyBound` | WFC++/src/Tiled/State.cpp:200-222 | every unset cell scanned has at least the minimum number of possible tiles |
| `TiledState.MinEntropyAttained` | WFC++/src/Tiled/State.cpp:200-222 | when there is a minimum, some unset scanned cell has exactly that many possible tiles |
| `TiledState.WithEntropyHas` | WFC++/src/Tiled/State.cpp:210-220 | the cells listed for a size are exactly the unset scanned cells with that many possible tiles |
| `TiledState.BestMeaning` | WFC++/src/Tiled/State.cpp:192-223 | GetBestTiles lists exactly the unset scanned cells with the fewest possible tiles |
| `TiledState.BestEmpty` | WFC++/src/Tiled/State.cpp:192-223 | the list is empty exactly when every scanned cell is set |
| `TiledState.BestListed` | WFC++/src/Tiled/State.cpp:192-223 | every listed cell was scanned and is unset |
| `TiledState.BestShareEntropy` | WFC++/src/Tiled/State.cpp:192-223 | every listed cell has the minimum number of possible tiles |
| `TiledState.ScanBest` | WFC++/src/Tiled/State.cpp:200-222 | the scan loop computes Best over the scanned positions |
| `TiledState.GridVisits` | WFC++/src/Tiled/State.cpp:201 | the range-for over the output's region visits the grid in row-major order |
| `TiledState.ScanGrid` | WFC++/src/Tiled/State.cpp:192-223 | the scan over the output computes BestIn |
| `TiledState.AllIDs` | WFC++/src/Tiled/State.cpp:13-15 | the loop leaves allTileIDs with the IDs 0 to n - 1 |
| `TiledState.ClearCells` | WFC++/src/Tiled/State.cpp:19-24 | the loop unsets every cell and gives it all IDs, keeping whether it is deletable |
| `TiledState.UnsetValid` | WFC++/src/Tiled/State.cpp:19-24 | an unset board has no values and every cell may become only the given IDs |
| `TiledState.RebufferedDefault` | WFC++/Array2D.hpp:113-125 | resetting a default board to its own size leaves default tiles |
| `TiledState.RecalcSide` | WFC++/src/Tiled/State.cpp:118-125 | one neighbour update of SetTile adds its cell, where the side wraps or is inside the grid, to the recalculated cells |
| `TiledState.SetTileOn` | WFC++/src/Tiled/State.cpp:108-126 | the cell holds the value alone and is deletable unless permanent, and its touched neighbours are recalculated; possible tiles stay among all |
| `TiledState.SetWithin` | WFC++/src/Tiled/State.cpp:108-126 | SetTile keeps every cell's possible tiles among all |
| `TiledState.RecalculatedWithin` | WFC++/src/Tiled/State.cpp:242-264 | recalculating keeps every cell's possible tiles among all |
| `TiledState.ClearAreasOn` | WFC++/src/Tiled/State.cpp:49-51 | the recovery's first loop is ClearArea around each found cell in turn, and keeps the affected positions in the grid |
| `TiledState.RecalculateAllOn` | WFC++/src/Tiled/State.cpp:54-55 | the recovery's second loop recalculates exactly the affected positions |
| `TiledState.RecoverOn` | WFC++/src/Tiled/State.cpp:46-58 | the recovery clears around every found cell, then recalculates every affected one, keeping values below the tile count |
| `TiledState.Options` | WFC++/src/Tiled/State.cpp:87-94 | the option list has one entry per possible tile and lists only possible tiles |
| `TiledState.State.constructor` | WFC++/Tiled/State.h:48-54 | the state keeps the input, the size, the periodicity and the clear size, and every cell starts unset, deletable and free to become any tile |
| `TiledState.State.Reset` | WFC++/src/Tiled/State.cpp:10-25 | allTileIDs becomes every tile ID and every cell of the reset buffer is unset with all IDs; the settings are kept |
| `TiledState.State.RecalculateTileChances` | WFC++/src/Tiled/State.cpp:225-265 | the cell at Filter(tilePos), when unset, may become exactly the tiles that fit every set neighbour; nothing else changes |
| `TiledState.State.SetTile` | WFC++/src/Tiled/State.cpp:108-126 | the cell holds the value alone and is deletable unless permanent, then each neighbour across a side that wraps or lies inside the grid is recalculated |
| `TiledState.State.ClearArea` | WFC++/src/Tiled/State.cpp:128-190 | the output and affected positions become ClearArea's: the region's deletable cells are cleared and they and the region's neighbours become affected |
| `TiledState.State.GetBestTiles` | WFC++/src/Tiled/State.cpp:192-223 | the result is the unset cells with the fewest possible tiles, in row-major order |
| `TiledState.State.Iterate` | WFC++/src/Tiled/State.cpp:27-106 | Some(true) iff no cell is unset; Some(false) with the found cells iff one has no possible tile and ClearSize is 0; otherwise the contradiction is cleared and recalculated, or the roll-th found cell is set to one of its possible tiles |
| `TiledState.State.ChooseAndSet` | WFC++/src/Tiled/State.cpp:71-105 | the roll-th found cell (modulo the count) gets one of its possible tiles and SetTile's outcome follows |
| `TiledState.State.RecoverFrom` | WFC++/src/Tiled/State.cpp:46-58 | the changed position becomes (-1, -1) and the output is the recovery of the found cells |
| `SimplePattern.Pixels` | WFC++/src/Simple/Pattern.cpp:9-13 | a pattern reads one pixel per position of its region's size |
| `SimplePattern.Hash` | WFC++/src/Simple/Pattern.cpp:15-26 | the hash of any pixel sequence fits in an unsigned int |
| `SimplePattern.PointsShift` | WFC++/src/Simple/Pattern.cpp:9-13 | the k-th point of a region is its minimum corner plus the k-th point of the region of its size |
| `SimplePattern.PixelsIndex` | WFC++/src/Simple/Pattern.cpp:9-13 | the k-th pixel is operator[] at the k-th pattern position |
| `SimplePattern.PixelsOfRegion` | WFC++/src/Simple/Pattern.cpp:19-23 | the k-th pixel is the one the input holds, in the pattern's transformed copy, at the k-th point of its region |
| `SimplePattern.HashStep` | WFC++/src/Simple/Pattern.cpp:19-23 | one more pixel takes the hash h to (h * 59 + pixel) modulo 2^32 |
| `SimplePattern.GetHashcode` | WFC++/src/Simple/Pattern.cpp:15-26 | the loop computes the hash of the pattern's pixels, starting from 1 |
| `SimplePattern.SameDataPixels` | WFC++/src/Simple/Pattern.cpp:28-42 | two patterns have the same data exactly when their sizes are equal and they read the same pixels |
| `SimplePattern.SameDataSameHash` | WFC++/src/Simple/Pattern.cpp:15-42 | patterns with the same data have the same hash, so comparing hashes first loses no duplicate |
| `SimplePattern.SameDataEquivalence` | WFC++/src/Simple/Pattern.cpp:28-42 | having the same data is reflexive, symmetric and transitive |
| `SimplePattern.HasSameData` | WFC++/src/Simple/Pattern.cpp:28-42 | the loop answers true exactly when the patterns have the same data |
| `SimpleInput.MaxPatternSizeIsLargest` | WFC++/Simple/InputData.cpp:17-20 | the corrected MaxPatternSize bounds the window size of every transformation in use on each axis, and is reached on each axis |
| `SimpleInput.MaxPatternSizeAsWrittenAgrees` | WFC++/Simple/InputData.cpp:17-20 | the source's MaxPatternSize is the corrected one when rotations and reflections are both on or both off |
| `SimpleInput.MaxPatternSizeAsWrittenTooSmall` | WFC++/Simple/InputData.cpp:17-20 | with rotations but no reflections a 1 x 2 pattern keeps MaxPatternSize at 1 x 2 while its quarter-turned window is 2 wide |
| `SimpleInput.BorderedCopyMeaning` | WFC++/Simple/InputData.cpp:29-40 | the bordered copy holds the image at its own positions and repeats it one image width to the right and one height down |
| `SimpleInput.CopyWithBorder` | WFC++/Simple/InputData.cpp:35-40 | the loop gives every position of the grown copy the pixel at its wrapped position |
| `SimpleInput.BackUndoes` | WFC++/Simple/InputData.cpp:60-97 | Transform by t and its inverse map undo each other |
| `SimpleInput.PlacedDomain` | WFC++/Simple/InputData.cpp:60-97 | a point of the transformed grid is written exactly when its preimage is a point of the original grid |
| `SimpleInput.PlacedComplete` | WFC++/Simple/InputData.cpp:60-97 | once every point is visited the transformed copy is exactly the image moved by t |
| `SimpleInput.RotatedCopies` | WFC++/Simple/InputData.cpp:53-76 | the loop makes the 90°, 180° and 270° copies of the bordered original |
| `SimpleInput.MirroredCopies` | WFC++/Simple/InputData.cpp:83-100 | the loop makes the FlipX and FlipY copies of the bordered original |
| `SimpleInput.UsedMembers` | WFC++/Simple/InputData.cpp:27-81 | the transformations in use are None, the three rotations when rotations are on, and the two flips when reflections are on |
| `SimpleInput.CombineKeys` | WFC++/Simple/InputData.cpp:42-100 | pixelDataByTransform has a copy for exactly the transformations in use, None being the bordered original |
| `SimpleInput.CombineContents` | WFC++/Simple/InputData.cpp:42-100 | every copy other than None's is the bordered original moved by its transformation |
| `SimpleInput.MakeCopies` | WFC++/Simple/InputData.cpp:22-101 | the copying part of the constructor builds the bordered copy and each transformed copy in use |
| `SimpleInput.WindowsExactly` | WFC++/Simple/InputData.cpp:113-118 | the windows cut from one copy are exactly the pattern-sized regions that fit inside it |
| `SimpleInput.WindowsDistinct` | WFC++/Simple/InputData.cpp:113-118 | each window is listed once |
| `SimpleInput.WindowsReadable` | WFC++/Simple/InputData.cpp:113-118 | every window has Frequency 1 and reads inside its copy |
| `SimpleInput.WindowsOf` | WFC++/Simple/InputData.cpp:113-118 | the inner loop makes one window per corner |
| `SimpleInput.ExtractWindows` | WFC++/Simple/InputData.cpp:104-119 | the loop over the transformations in use appends each one's windows, with the pattern size turned for the quarter turns |
| `SimpleInput.AllWindowsReadable` | WFC++/Simple/InputData.cpp:104-119 | every window of every transformation reads inside its copy and has Frequency 1 |
| `SimpleInput.Remove` | WFC++/Simple/InputData.cpp:129-139 | removing a pattern's duplicates keeps, in order, only the patterns without its data |
| `SimpleInput.RemoveKeepsOthers` | WFC++/Simple/InputData.cpp:129-139 | a pattern without the removed one's data is kept |
| `SimpleInput.DedupFrom` | WFC++/Simple/InputData.cpp:123-140 | every pattern of the result is, up to its Frequency, one of the windows |
| `SimpleInput.DedupDistinct` | WFC++/Simple/InputData.cpp:123-140 | after the removal no two patterns have the same data |
| `SimpleInput.DedupCovers` | WFC++/Simple/InputData.cpp:123-140 | every window has the same data as some pattern of the result |
| `SimpleInput.DedupTotal` | WFC++/Simple/InputData.cpp:123-140 | the frequencies after the removal add up to the number of windows |
| `SimpleInput.DedupPositive` | WFC++/Simple/InputData.cpp:123-140 | every pattern of the result has a Frequency of at least one |
| `SimpleInput.FrequencyIrrelevant` | WFC++/src/Simple/Pattern.cpp:28-42 | a pattern's Frequency plays no part in what it reads or in the same-data test |
| `SimpleInput.HashAll` | WFC++/Simple/InputData.cpp:123-126 | the first loop stores each pattern's GetHashcode |
| `SimpleInput.MergeStep` | WFC++/Simple/InputData.cpp:131-138 | the pattern at j is merged exactly when it has pattern i's data: it is erased with its hash and pattern i's Frequency grows by one; otherwise nothing changes |
| `SimpleInput.MergeDuplicates` | WFC++/Simple/InputData.cpp:129-139 | the inner loop leaves the earlier patterns, lets pattern i absorb every later duplicate one Frequency each, and keeps the rest in order |
| `SimpleInput.DedupRound` | WFC++/Simple/InputData.cpp:127-140 | one round of the outer loop keeps the finished prefix plus the removal over the rest equal to the removal over all windows |
| `SimpleInput.Deduplicate` | WFC++/Simple/InputData.cpp:123-140 | the two loops compute exactly the duplicate removal of the windows |
| `SimpleInput.DedupProperties` | WFC++/Simple/InputData.cpp:123-140 | the removal leaves distinct patterns covering every window, with positive frequencies adding up to the number of windows |
| `SimpleInput.OccurrencesPositive` | WFC++/Simple/InputData.cpp:143-151 | a colour occurs in a pixel list exactly when it is one of its pixels |
| `SimpleInput.TallyIsProduct` | WFC++/Simple/InputData.cpp:146-150 | each pixel counting f, a colour weighs f times its number of occurrences |
| `SimpleInput.AddPatternPixels` | WFC++/Simple/InputData.cpp:146-150 | the loop over one pattern adds its Frequency to the count of each of its pixels |
| `SimpleInput.CountPixelFrequencies` | WFC++/Simple/InputData.cpp:143-151 | pixelFrequencies[c] ends as the Frequency-weighted number of occurrences of c, and holds exactly the colours that occur |
| `SimpleInput.WeightedPositive` | WFC++/Simple/InputData.cpp:143-151 | with positive frequencies, a colour's weight is positive exactly when it appears |
| `SimpleInput.FrequenciesPositive` | WFC++/Simple/InputData.cpp:143-151 | every counted colour has a positive count |
| `SimpleInput.CopiesExtractable` | WFC++/Simple/InputData.cpp:104-114 | every copy in use is valid and large enough for its window size to be iterated |
| `SimpleInput.BuildInputData` | WFC++/Simple/InputData.cpp:13-151 | the constructor keeps its settings and the corrected MaxPatternSize, builds the copies, and its patterns and pixel frequencies are the removal and tally of all windows |
| `SimpleState.FilterMeaning` | WFC++/Simple/State.h:65-69 | Filter wraps each periodic axis into the output and leaves a non-periodic axis alone; a position already in the output is unchanged |
| `SimpleState.DoesFit` | WFC++/src/Simple/Pattern.cpp:44-58 | the scan answers true exactly when no set output pixel under the pattern, placed at the corner, holds a colour other than the pattern's |
| `SimpleState.AnyFits` | WFC++/src/Simple/State.cpp:197-205 | the pattern loop passes exactly when some pattern fits at the corner |
| `SimpleState.IsBad` | WFC++/src/Simple/State.cpp:188-214 | a colour is bad exactly when, with it placed at pos, some corner around pos has no fitting pattern |
| `SimpleState.FindBadColors` | WFC++/src/Simple/State.cpp:182-215 | the colour loop collects exactly the bad colours among the input's colours |
| `SimpleState.BadAmongAll` | WFC++/src/Simple/State.cpp:184-215 | once every input colour is tested, the colours collected are exactly the bad ones |
| `SimpleState.PlacementsOf` | WFC++/src/Simple/State.cpp:225-232 | a pattern has one placement for every corner of the window region around pos |
| `SimpleState.PlacementsMeaning` | WFC++/src/Simple/State.cpp:225-236 | a fitting placement of colour c is listed exactly when the pattern fits at some corner around pos and puts c on pos |
| `SimpleState.ListedPlaces` | WFC++/src/Simple/State.cpp:225-236 | a listed fitting placement comes from a corner where the pattern fits and puts its colour on pos |
| `SimpleState.PlacesListed` | WFC++/src/Simple/State.cpp:225-236 | a corner where the pattern fits and puts c on pos gives a listed fitting placement of c |
| `SimpleState.ListedMeaning` | WFC++/src/Simple/State.cpp:219-238 | some pattern's list holds a fitting placement of c exactly when some pattern fits around pos and puts c on pos |
| `SimpleState.TalliesHas` | WFC++/src/Simple/State.cpp:228-237 | after the corner loop a colour has a count exactly when it had one or is counted and placed by a fitting placement |
| `SimpleState.TalliesPositive` | WFC++/src/Simple/State.cpp:228-237 | the corner loop keeps every count at least one when the pattern's Frequency is |
| `SimpleState.TalliesAllHas` | WFC++/src/Simple/State.cpp:219-238 | after the pattern loop a colour has a count exactly when it had one or is counted and has a fitting placement in some list |
| `SimpleState.TalliesAllPositive` | WFC++/src/Simple/State.cpp:219-238 | the pattern loop keeps every count at least one when every Frequency is |
| `SimpleState.GainsHas` | WFC++/src/Simple/State.cpp:218-238 | a colour has a count exactly when it is counted and some fitting pattern puts it on pos |
| `SimpleState.GainsPositive` | WFC++/src/Simple/State.cpp:218-238 | every count the recalculation leaves is positive |
| `SimpleState.ChancesMeaning` | WFC++/src/Simple/State.cpp:182-238 | as intended, a colour keeps a count exactly when it is not bad at pos and some pattern fitting around pos puts it there; every count is positive |
| `SimpleState.ChancesAsWrittenMeaning` | WFC++/src/Simple/State.cpp:233-236 | as written, the colours counted are exactly the bad ones that some fitting pattern puts on pos |
| `SimpleState.ChancesAsWrittenLoses` | WFC++/src/Simple/State.cpp:233-236 | a colour that is not bad and that a fitting pattern puts on pos is counted by the intended step and dropped by the step as written |
| `SimpleState.TallyCorner` | WFC++/src/Simple/State.cpp:230-236 | the corner step adds the pattern's Frequency to its colour on pos when that colour is not bad and the pattern fits at the corner |
| `SimpleState.AddPatternChances` | WFC++/src/Simple/State.cpp:224-237 | the corner loop of one pattern tallies its placements around pos |
| `SimpleState.CountChances` | WFC++/src/Simple/State.cpp:218-238 | the pattern loop, from cleared counts, computes the gains of every pattern |
| `SimpleState.RecalcPixel` | WFC++/src/Simple/State.cpp:167-239 | RecalculatePixelChances gives the pixel Filter(pos), when it is inside and unset, the chances of the current values, and changes nothing else |
| `SimpleState.RecalculatedValues` | WFC++/src/Simple/State.cpp:167-239 | recalculating never changes a pixel's value |
| `SimpleState.RecalcStep` | WFC++/src/Simple/State.cpp:167-239 | recalculating one more position extends the recalculated set by the output pixel it filters to |
| `SimpleState.RecalcSkipped` | WFC++/src/Simple/State.cpp:175-178 | a position outside the output, or a set pixel, needs no recalculation |
| `SimpleState.RecalcDone` | WFC++/src/Simple/State.cpp:180-238 | an unset pixel, once recalculated, holds the chances of the values around it |
| `SimpleState.RecalcAlong` | WFC++/src/Simple/State.cpp:106-110 | recalculating along a sequence of positions recalculates every output pixel they filter to |
| `SimpleState.RecalcTouching` | WFC++/src/Simple/State.cpp:106-110 | one more loop step of SetPixel recalculates the pixel that position filters to |
| `SimpleState.SetPixelOn` | WFC++/src/Simple/State.cpp:101-111 | SetPixel sets the pixel's value and recalculates every pixel in the region of MaxPatternSize around it |
| `SimpleState.SetHolds` | WFC++/src/Simple/State.cpp:101-111 | after SetPixel the pixel holds the value it was set to |
| `SimpleState.Cleared` | WFC++/src/Simple/State.cpp:121-126 | clearing keeps the output's positions |
| `SimpleState.ClearedNone` | WFC++/src/Simple/State.cpp:121-126 | clearing no position changes nothing |
| `SimpleState.ClearedStep` | WFC++/src/Simple/State.cpp:121-126 | clearing one more position unsets the pixel it filters to, when that is inside the output |
| `SimpleState.ClearedUnion` | WFC++/src/Simple/State.cpp:44-47 | clearing two sets in turn is clearing their union |
| `SimpleState.ClearAreaOn` | WFC++/src/Simple/State.cpp:113-130 | ClearArea unsets every pixel its region filters to and returns that region grown by MaxPatternSize - 1 on each side |
| `SimpleState.ClearAreasOn` | WFC++/src/Simple/State.cpp:44-47 | the first recovery loop clears around every pixel found and gathers every affected position |
| `SimpleState.RecalcAll` | WFC++/src/Simple/State.cpp:49-51 | the second recovery loop recalculates every output pixel an affected position filters to |
| `SimpleState.RecoverOn` | WFC++/src/Simple/State.cpp:41-54 | the recovery clears around every pixel found and then recalculates every affected pixel |
| `SimpleState.TotalZero` | WFC++/src/Simple/State.cpp:145-149 | with every count positive, a pixel's entropy is zero exactly when it has no colour left |
| `SimpleState.EntropyOf` | WFC++/src/Simple/State.cpp:145-149 | the accumulation is the sum of the pixel's colour counts |
| `SimpleState.MinEntropyBound` | WFC++/src/Simple/State.cpp:138-164 | every unset pixel scanned has at least the smallest entropy |
| `SimpleState.MinEntropyAttained` | WFC++/src/Simple/State.cpp:138-164 | the smallest entropy is that of some unset pixel scanned |
| `SimpleState.WithEntropyHas` | WFC++/src/Simple/State.cpp:152-162 | the pixels kept for an entropy are exactly the unset ones scanned that have it |
| `SimpleState.WithEntropyBelow` | WFC++/src/Simple/State.cpp:152-162 | no unset pixel scanned has less than the smallest entropy |
| `SimpleState.BestMeaning` | WFC++/src/Simple/State.cpp:132-165 | GetBestPixels lists exactly the unset pixels with the smallest entropy among the unset pixels scanned |
| `SimpleState.BestEmpty` | WFC++/src/Simple/State.cpp:132-165 | GetBestPixels returns nothing exactly when every pixel scanned is set |
| `SimpleState.BestListed` | WFC++/src/Simple/State.cpp:132-165 | every pixel it lists is one of those scanned and unset |
| `SimpleState.ScanBest` | WFC++/src/Simple/State.cpp:138-164 | the scan computes the best pixels of the positions it visits |
| `SimpleState.GridVisits` | WFC++/src/Simple/State.cpp:140 | the range-for over the output's region visits the output in row-major order |
| `SimpleState.ScanGrid` | WFC++/src/Simple/State.cpp:140-164 | the scan over the output's region computes the best pixels of the output |
| `SimpleState.BestIn` | WFC++/src/Simple/State.cpp:132-165 | every pixel returned is inside the output and unset |
| `SimpleState.BestInShareEntropy` | WFC++/src/Simple/State.cpp:152-162 | every pixel returned has the entropy of the first |
| `SimpleState.RecalculatedPositive` | WFC++/src/Simple/State.cpp:167-239 | recalculations keep every count positive |
| `SimpleState.RecalcPositive` | WFC++/src/Simple/State.cpp:167-239 | RecalculatePixelChances keeps the output's positions and every count positive |
| `SimpleState.SetPositive` | WFC++/src/Simple/State.cpp:101-111 | SetPixel keeps the output's positions and every count positive |
| `SimpleState.RecoveredPositive` | WFC++/src/Simple/State.cpp:41-54 | the recovery keeps the output's positions and every count positive |
| `SimpleState.StuckMeaning` | WFC++/src/Simple/State.cpp:36-38 | with every count positive, Iterate meets a contradiction exactly when some unset output pixel has no colour left |
| `SimpleState.BestHaveColors` | WFC++/src/Simple/State.cpp:36-38 | when the first pixel found has a colour left, every pixel found has one |
| `SimpleState.Colors` | WFC++/src/Simple/State.cpp:80-88 | the colour list has one entry per colour of the pixel, each one of its colours |
| `SimpleState.ChooseColor` | WFC++/src/Simple/State.cpp:68-93 | the colour chosen is one of the pixel's colours |
| `SimpleState.FreshBoard` | WFC++/src/Simple/State.cpp:9-24 | a fresh output covers the grid with unset pixels holding the input's colour counts |
| `SimpleState.State.constructor` | WFC++/Simple/State.h:41-48 | the state keeps its input and settings and starts from a fresh output of the given size |
| `SimpleState.State.Reset` | WFC++/src/Simple/State.cpp:9-24 | Reset makes an output of the new size whose every pixel is unset with the input's colour counts, the settings unchanged |
| `SimpleState.State.RecalculatePixelChances` | WFC++/src/Simple/State.cpp:167-239 | the output becomes the recalculation at pixelPos, the settings unchanged |
| `SimpleState.State.SetPixel` | WFC++/src/Simple/State.cpp:101-111 | the output becomes the pixel set and its neighbourhood recalculated, the settings unchanged |
| `SimpleState.State.ClearArea` | WFC++/src/Simple/State.cpp:113-130 | the output becomes the cleared one and the affected region is returned, the settings unchanged |
| `SimpleState.State.GetBestPixels` | WFC++/src/Simple/State.cpp:132-165 | the pixels returned are the unset ones of smallest entropy, in row-major order |
| `SimpleState.State.Iterate` | WFC++/src/Simple/State.cpp:26-99 | true exactly when every pixel is set; false exactly on a contradiction with clearing off, the pixels found reported; otherwise the contradiction is cleared or a pixel found is set to one of its colours |
| `SimpleState.State.ChooseAndSet` | WFC++/src/Simple/State.cpp:63-98 | the pixel chosen is one of those found and it is set to one of its colours |
| `SimpleState.State.RecoverFrom` | WFC++/src/Simple/State.cpp:41-54 | the recovery clears around every pixel found and recalculates every affected pixel, reporting (-1, -1) |
| `Xoshiro.Max` | WFC++/xoshiro.hpp:72-73 | max() is the largest 64-bit word, ~0 |
| `Xoshiro.OutputBounds` | WFC++/xoshiro.hpp:72-73 | every output lies between min() and max() |
| `Xoshiro.Retreat4Advance4` | WFC++/xoshiro.hpp:95-107 | the four-word advance is undone by the retreat step, so no two states advance to the same state |
| `Xoshiro.Advance4Retreat4` | WFC++/xoshiro.hpp:95-107 | every four-word state is the advance of some state |
| `Xoshiro.ZeroFixed4` | WFC++/xoshiro.hpp:95-107 | the all-zero state advances to itself |
| `Xoshiro.Advance4Nonzero` | WFC++/xoshiro.hpp:95-107 | advance gives the all-zero state exactly from the all-zero state |
| `Xoshiro.Advance4TimesNext` | WFC++/xoshiro.hpp:91-92 | one more advance extends n advances to n + 1 |
| `Xoshiro.Advance4TimesNonzero` | WFC++/xoshiro.hpp:91-92 | a non-zero state never becomes zero however often it advances |
| `Xoshiro.Seed4Meaning` | WFC++/xoshiro.hpp:75-77 | the word constructor keeps the words unless all are zero, when the last becomes 1; the result is never all zero |
| `Xoshiro.Engine4.FromWords` | WFC++/xoshiro.hpp:75-79 | the engine holds the seeded words and its shift and rotation amounts |
| `Xoshiro.Engine4.constructor` | WFC++/xoshiro.hpp:84-93 | the seed constructor derives four words from the seed, seeds them and advances 16 times |
| `Xoshiro.Engine4.Advance` | WFC++/xoshiro.hpp:95-107 | advance replaces the state with its xor-shift-rotate successor |
| `Xoshiro.Engine4.Equals` | WFC++/xoshiro.hpp:109-113 | two engines are equal exactly when their states are |
| `Xoshiro.Engine4.NotEquals` | WFC++/xoshiro.hpp:115-118 | two engines differ exactly when their states do |
| `Xoshiro.Engine4.NextPlus` | WFC++/xoshiro.hpp:215-222 | the plus output is s0 + s3 modulo 2^64 before the advance, which then happens |
| `Xoshiro.Engine4.NextStar` | WFC++/xoshiro.hpp:232-239 | the star output is s1 times the multiplier modulo 2^64 before the advance |
| `Xoshiro.Engine4.NextStarStar` | WFC++/xoshiro.hpp:252-260 | the starstar output is rotl(s1 * mult1, orot) * mult2 modulo 2^64 before the advance |
| `Xoshiro.Retreat8Advance8` | WFC++/xoshiro.hpp:170-186 | the eight-word advance is undone by the retreat step |
| `Xoshiro.Advance8Retreat8` | WFC++/xoshiro.hpp:170-186 | every eight-word state is the advance of some state |
| `Xoshiro.ZeroFixed8` | WFC++/xoshiro.hpp:170-186 | the all-zero state advances to itself |
| `Xoshiro.Advance8Nonzero` | WFC++/xoshiro.hpp:170-186 | advance gives the all-zero state exactly from the all-zero state |
| `Xoshiro.Advance8TimesNext` | WFC++/xoshiro.hpp:166-167 | one more advance extends n advances to n + 1 |
| `Xoshiro.Advance8TimesNonzero` | WFC++/xoshiro.hpp:166-167 | a non-zero state never becomes zero however often it advances |
| `Xoshiro.Seed8Meaning` | WFC++/xoshiro.hpp:146-152 | the word constructor keeps the words unless all are zero, when the last becomes 1 |
| `Xoshiro.Engine8.FromWords` | WFC++/xoshiro.hpp:146-152 | the engine holds the seeded words and its amounts |
| `Xoshiro.Engine8.constructor` | WFC++/xoshiro.hpp:157-168 | the seed constructor derives eight words from the seed, seeds them and advances 16 times |
| `Xoshiro.Engine8.Advance` | WFC++/xoshiro.hpp:170-186 | advance replaces the state with its successor |
| `Xoshiro.Engine8.Equals` | WFC++/xoshiro.hpp:188-194 | two engines are equal exactly when their states are |
| `Xoshiro.Engine8.NotEquals` | WFC++/xoshiro.hpp:196-199 | two engines differ exactly when their states do |
| `Xoshiro.Engine8.NextPlus` | WFC++/xoshiro.hpp:215-222 | the plus output is s0 + s3 modulo 2^64 before the advance |
| `Xoshiro.Engine8.NextStar` | WFC++/xoshiro.hpp:232-239 | the star output is s1 times the multiplier modulo 2^64 before the advance |
| `Xoshiro.Engine8.NextStarStar` | WFC++/xoshiro.hpp:252-260 | the starstar output is rotl(s1 * mult1, orot) * mult2 modulo 2^64 before the advance |
| `Words64.XorBit` | WFC++/xoshiro.hpp:99-104 | bit i of a ^ b is set exactly when the bits of a and b differ |
| `Words64.OrBit` | WFC++/xoshiro.hpp:64-66 | bit i of a \| b is set exactly when either bit is |
| `Words64.NotBit` | WFC++/xoshiro.hpp:73 | bit i of ~x is the opposite of bit i of x |
| `Words64.ShlBit` | WFC++/xoshiro.hpp:97 | bit i of x << k is bit i - k of x, and clear below k |
| `Words64.ShrBit` | WFC++/xoshiro.hpp:65 | bit i of x >> k is bit i + k of x, and clear from 64 - k up |
| `Words64.RotlBit` | WFC++/xoshiro.hpp:64-66 | rotl moves bit i - k to bit i and the top k bits to the bottom |
| `Words64.NotZero` | WFC++/xoshiro.hpp:73 | ~0 is 2^64 - 1 |
| `Words64.XorLaws` | WFC++/xoshiro.hpp:99-104 | ^ is commutative and associative, x ^ x is 0 and x ^ 0 is x |
| `Words64.XorCancel` | WFC++/xoshiro.hpp:99-104 | xoring twice with the same word gives the word back |
| `Words64.ShlXor` | WFC++/xoshiro.hpp:97-104 | a left shift distributes over ^ |
| `Words64.RotlRoundTrip` | WFC++/xoshiro.hpp:64-66 | rotating by k and then by 64 - k gives the word back |
| `Words64.RotlZero` | WFC++/xoshiro.hpp:64-66 | a rotation is zero exactly when the word is |
| `Words64.UnshiftInverts` | WFC++/xoshiro.hpp:97-104 | y = x ^ (x << a) is undone by the unshift, and the unshift's result recomposes to y |
| `WfcTileUtils.ToLowerChar` | WFCtile/Utils.cpp:100-102 | the lowered character is never upper-case, and a character that is not upper-case is unchanged |
| `WfcTileUtils.LeadingSpace` | WFCtile/Utils.cpp:14-16 | the count covers exactly the whitespace run the text starts with |
| `WfcTileUtils.TrailingSpace` | WFCtile/Utils.cpp:22-24 | the count covers exactly the whitespace run the text ends with |
| `WfcTileUtils.TrimStringStart` | WFCtile/Utils.cpp:12-19 | the result is a suffix of the text, only whitespace was dropped, and it does not start with whitespace |
| `WfcTileUtils.TrimStringEnd` | WFCtile/Utils.cpp:20-27 | the result is a prefix of the text, only whitespace was dropped, and it does not end with whitespace |
| `WfcTileUtils.TrimString` | WFCtile/Utils.cpp:28-32 | the result is the trimmed text, with no whitespace at either end |
| `WfcTileUtils.TrimmedIsCore` | WFCtile/Utils.cpp:12-32 | the trimmed text is the middle of the text with only whitespace around it |
| `WfcTileUtils.TrimmedKeepsTrimmed` | WFCtile/Utils.cpp:12-32 | text with no whitespace at either end is left alone |
| `WfcTileUtils.TrimIdempotent` | WFCtile/Utils.cpp:12-32 | trimming twice is trimming once |
| `WfcTileUtils.FindFrom` | WFCtile/Utils.cpp:36 | find gives the first occurrence of the marker, or none when it does not occur |
| `WfcTileUtils.TrimSpaceAndComments` | WFCtile/Utils.cpp:34-41 | the line is cut at the first comment marker and trimmed |
| `WfcTileUtils.BeforeCommentHasNoMarker` | WFCtile/Utils.cpp:36-38 | the text kept before the comment holds no comment marker |
| `WfcTileUtils.CleanLineHasNoMarker` | WFCtile/Utils.cpp:34-41 | a cleaned line is trimmed and holds no comment marker |
| `WfcTileUtils.CleanLineIdempotent` | WFCtile/Utils.cpp:34-41 | cleaning a cleaned line changes nothing |
| `WfcTileUtils.DigitChar` | WFCtile/Utils.cpp:48-55 | every digit value has a digit character reading back as it |
| `WfcTileUtils.Decimal` | WFCtile/Utils.cpp:43-57 | the decimal form of a number is a non-empty run of digits with no leading zero |
| `WfcTileUtils.DecimalRoundTrip` | WFCtile/Utils.cpp:55 | reading a number's decimal form gives the number back |
| `WfcTileUtils.DecimalInjective` | WFCtile/Utils.cpp:55 | different numbers have different decimal forms |
| `WfcTileUtils.SignedDecimalSign` | WFCtile/Utils.cpp:58-74 | a signed decimal starts with '-' exactly when the number is negative |
| `WfcTileUtils.SignedDecimalInjective` | WFCtile/Utils.cpp:58-74 | different integers have different signed decimal forms |
| `WfcTileUtils.ParseSize` | WFCtile/Utils.cpp:43-57 | TryParse(size_t) succeeds exactly on a non-empty run of digits, with a value that fits in a size_t |
| `WfcTileUtils.ParseInt64` | WFCtile/Utils.cpp:58-74 | TryParse(int64_t) succeeds exactly when the first character is '-' or a digit and all the others are digits, with a value within the int64 limits |
| `WfcTileUtils.ParseSizeOfDecimal` | WFCtile/Utils.cpp:43-57 | a size in decimal reads back as itself |
| `WfcTileUtils.ParseInt64OfDecimal` | WFCtile/Utils.cpp:58-74 | an int64 in decimal reads back as itself |
| `WfcTileUtils.ParseInt64LoneMinus` | WFCtile/Utils.cpp:64-72 | a lone minus sign passes the checks and reads as zero |
| `WfcTileUtils.LowerCase` | WFCtile/Utils.cpp:99-102 | lowering keeps the length and lowers each character |
| `WfcTileUtils.TryParseBool` | WFCtile/Utils.cpp:96-112 | the corrected reading succeeds only on a lower-cased spelling of true/1/yes/y or false/0/no/n |
| `WfcTileUtils.ParseBoolIgnoresCase` | WFCtile/Utils.cpp:98-102 | the corrected reading depends only on the lower-cased text |
| `WfcTileUtils.ParseBoolAgreesOnLowerCase` | WFCtile/Utils.cpp:104-109 | on text with no capitals the reading as written and the corrected one agree |
| `WfcTileUtils.ParseBoolAsWrittenRejectsCapitals` | WFCtile/Utils.cpp:104-109 | as written, "True" is rejected, since the original text and not the lowered copy is compared; the corrected reading gives true |
| `WfcTileUtils.ParseBoolRoundTrip` | WFCtile/Utils.cpp:104-109 | any spelling of true or false in any case reads as that value |
| `WfcTileUtils.IndexOf` | WFCtile/Utils.cpp:135 | std::find gives the first position of the delimiter, or the end |
| `WfcTileUtils.NextLine` | WFCtile/Utils.cpp:120-123 | getline takes the text up to the first delimiter and leaves the text after it |
| `WfcTileUtils.PiecesJoin` | WFCtile/Utils.cpp:120-123 | the lines getline reads, each ended by the delimiter, give the text back, with a final delimiter added if missing |
| `WfcTileUtils.PiecesHaveNoDelimiter` | WFCtile/Utils.cpp:120-123 | no line read holds the delimiter |
| `WfcTileUtils.KeptAppend` | WFCtile/Utils.cpp:123-128 | filtering two runs of lines is filtering each in turn |
| `WfcTileUtils.KeptMeaning` | WFCtile/Utils.cpp:125-127 | every kept line passes the predicate and is the filtered form of some line, and no more lines are kept than read |
| `WfcTileUtils.GetPartLines` | WFCtile/Utils.cpp:122-128 | the inner loop appends the filtered, kept lines of one \r-piece |
| `WfcTileUtils.GetLines` | WFCtile/Utils.cpp:114-130 | GetLines appends the filtered, kept lines of every \r-piece split at \n |
| `WfcTileUtils.SplitFirst` | WFCtile/Utils.cpp:132-138 | with the delimiter present, the text is the first part, the delimiter and the second part, and the first part holds no delimiter |
| `WfcTileUtils.SplitFirstJoin` | WFCtile/Utils.cpp:132-138 | splitting a joined pair at the delimiter gives the pair back when the first part has no delimiter |
| `WfcTileUtils.Words` | WFCtile/Utils.cpp:139-166 | every word is non-empty and holds no split character |
| `WfcTileUtils.WordsCover` | WFCtile/Utils.cpp:139-166 | the words, put together, are the text with every split character removed |
| `WfcTileUtils.WordsOfWord` | WFCtile/Utils.cpp:139-166 | a single word splits into itself |
| `WfcTileUtils.WordsJoin` | WFCtile/Utils.cpp:147-149 | a split character separates the words before it from the words after it |
| `WfcTileUtils.Split` | WFCtile/Utils.cpp:139-166 | Split appends the maximal runs of the text that hold no split character |
| `WfcTileKeyValues.SettingsEntry` | WFCtile/InputFile.cpp:17-24 | a line is skipped exactly when it is blank once trimmed and cut at "//"; otherwise its key holds no ':' |
| `WfcTileKeyValues.SettingsEntries` | WFCtile/InputFile.cpp:15-24 | every line read gives its own entry, in order |
| `WfcTileKeyValues.FoldAppend` | WFCtile/InputFile.cpp:15-50 | reading two runs of lines is reading the first and, unless it failed, the second from where it left off |
| `WfcTileKeyValues.FoldSkipsBlank` | WFCtile/InputFile.cpp:19-20 | a blank line changes nothing |
| `WfcTileKeyValues.FoldKeeps` | WFCtile/InputFile.cpp:15-50 | a property every line keeps holds after all lines |
| `WfcTileKeyValues.FoldFailure` | WFCtile/InputFile.cpp:28-48 | a failed reading has one of the codes a single line can fail with |
| `WfcTileKeyValues.SettingsStep` | WFCtile/InputFile.cpp:15 | getline takes one line off the front of the unread text |
| `WfcTileKeyValues.LastValue` | WFCtile/InputFile.cpp:39-42 | a key has a last value exactly when some line gives it |
| `WfcTileKeyValues.FoldAllBlank` | WFCtile/InputFile.cpp:19-20 | text of blank lines leaves the defaults |
| `WfcTileKeyValues.FoldLastField` | WFCtile/InputFile.cpp:28-42 | after a successful reading a field holds the value of the last line naming its key, or its default when none does |
| `WfcTileInputFile.ReadInputFile` | WFCtile/InputFile.cpp:7-65 | the constructor's loop and its checks compute the reading of the text |
| `WfcTileInputFile.InputOutcome` | WFCtile/InputFile.cpp:28-64 | every failure is 16 or 17, and a success has Width and Height of at least 1 |
| `WfcTileInputFile.InputOfBlankText` | WFCtile/InputFile.cpp:53-64 | text with only blank or comment lines leaves Width at the largest size_t, which the check accepts |
| `WfcTileInputFile.InputWidthIsLastWidth` | WFCtile/InputFile.cpp:39 | the width is the number on the last Width line, or the default when there is none |
| `WfcTileInputFile.ApplyInputErrors` | WFCtile/InputFile.cpp:28-48 | an unknown key fails with 16 and a bad value for a known key with 17 |
| `WfcTileOutputFile.ReadOutputFile` | WFCtile/OutputFile.cpp:17-85 | the constructor's loop and its checks compute the reading of the text, the default seed given |
| `WfcTileOutputFile.OutputOutcome` | WFCtile/OutputFile.cpp:39-84 | every failure is 13 or 14, and a success has Width, Height and ClearSize below the largest size_t |
| `WfcTileOutputFile.ApplyOutputWidth` | WFCtile/OutputFile.cpp:50 | only a Width line changes the width, to the number it reads |
| `WfcTileOutputFile.ApplyOutputSeed` | WFCtile/OutputFile.cpp:55 | only a Seed line changes the seed, to the number it reads |
| `WfcTileOutputFile.OutputNeedsWidth` | WFCtile/OutputFile.cpp:67-72 | without a Width line the reading fails, with 13 unless an earlier line failed |
| `WfcTileOutputFile.OutputHugeWidthIsMissing` | WFCtile/OutputFile.cpp:67-72 | a Width of the largest size_t or more reads as a missing width |
| `WfcTileOutputFile.OutputSeed` | WFCtile/OutputFile.cpp:10-15 | the drawn seed stays unless a Seed line replaces it with the number it reads |
| `WfcTileOutputFile.ApplyOutputErrors` | WFCtile/OutputFile.cpp:39-62 | an unknown key fails with 13 and a bad value for a known key with 14 |
| `WfcTileCmdArgs.ReadCmdArgs` | WFCtile/CmdArgs.cpp:6-58 | the constructor's loop over the arguments computes their parse |
| `WfcTileCmdArgs.ArgsOutcome` | WFCtile/CmdArgs.cpp:14-56 | every failure is 7, and a progress interval read fits in a size_t |
| `WfcTileCmdArgs.ArgsDataDir` | WFCtile/CmdArgs.cpp:8-25 | the data directory is argData[0] or the argument after some -dir |
| `WfcTileCmdArgs.ArgsPgmMode` | WFCtile/CmdArgs.cpp:47-50 | PGM mode is on only when -pgm is among the arguments |
| `WfcTileCmdArgs.ParseRender` | WFCtile/CmdArgs.cpp:6-58 | reading the command line that asks for given settings gives them back |
| `WfcTileTileFile.FirstNonEmpty` | WFCtile/TileFIle.cpp:27-28 | the search stops at the first non-empty line from i, or the end |
| `WfcTileTileFile.FirstEmpty` | WFCtile/TileFIle.cpp:34-35 | the search stops at the first empty line from i, or the end |
| `WfcTileTileFile.TileEnd` | WFCtile/TileFIle.cpp:27-35 | the pixel block ends after it begins, and holds at least one line when there is a non-empty line |
| `WfcTileTileFile.RowWords` | WFCtile/TileFIle.cpp:38-45 | each line of the block is split into its words at whitespace |
| `WfcTileTileFile.PixelValue` | WFCtile/TileFIle.cpp:69-80 | a pixel reads exactly when the word is a size of at most 255, and then reads as that size |
| `WfcTileTileFile.ParseRow` | WFCtile/TileFIle.cpp:66-81 | a row fails with 12 exactly when some word is not a pixel value; otherwise it reads each word's value |
| `WfcTileTileFile.ParsePixels` | WFCtile/TileFIle.cpp:56-82 | the rows fail with 2 or 12; on success every row had the width and each pixel is its word's value |
| `WfcTileTileFile.ParsePixelsFailedPrefix` | WFCtile/TileFIle.cpp:56-82 | once a row fails, the rest of the rows are not read |
| `WfcTileTileFile.TileEntries` | WFCtile/TileFIle.cpp:86-90 | every line after the block gives its own key/value entry |
| `WfcTileTileFile.TileFoldStep` | WFCtile/TileFIle.cpp:86-131 | an empty line is skipped, and any other is split at ':' and applied |
| `WfcTileTileFile.WeightOf` | WFCtile/TileFIle.cpp:100-111 | a Weight reads exactly when its value is a size, and is cast to 32 bits |
| `WfcTileTileFile.SplitRows` | WFCtile/TileFIle.cpp:38-45 | the splitting loop computes the words of each row of the block |
| `WfcTileTileFile.ReadRow` | WFCtile/TileFIle.cpp:66-81 | the element loop computes the row's reading |
| `WfcTileTileFile.ReadPixels` | WFCtile/TileFIle.cpp:55-82 | the row loop computes the block's reading |
| `WfcTileTileFile.ReadKeyValues` | WFCtile/TileFIle.cpp:86-131 | the key/value loop computes the reading of the lines after the block |
| `WfcTileTileFile.FindTileBlock` | WFCtile/TileFIle.cpp:27-35 | the two find_if calls give the start and end of the pixel block |
| `WfcTileTileFile.ReadTileFile` | WFCtile/TileFIle.cpp:14-140 | the constructor computes the reading of the tile file |
| `WfcTileTileFile.ApplyTileCodes` | WFCtile/TileFIle.cpp:92-130 | a key/value line fails only with 5 or 6 |
| `WfcTileTileFile.TileInvariantKept` | WFCtile/TileFIle.cpp:86-131 | the key/value lines keep the pixels and a weight that fits in 32 bits |
| `WfcTileTileFile.TileOutcome` | WFCtile/TileFIle.cpp:14-140 | every failure has one of the codes 1 to 6 or 12, and a success has the input's size, 8-bit pixels, a 32-bit weight and four named edges |
| `WfcTileTileFile.TileNoPixels` | WFCtile/TileFIle.cpp:27-33 | error 1 comes exactly when no line is non-empty |
| `WfcTileTileFile.TileOutcomeNotOne` | WFCtile/TileFIle.cpp:48-54 | with a pixel block, error 4 comes exactly when the first row's width or the number of rows differs from the input's size |
| `WfcTileTileFile.TilePixelsFromText` | WFCtile/TileFIle.cpp:55-82 | every pixel of a tile read is the value of its word in the text |
| `WfcTileTileFile.ApplyTileWeight` | WFCtile/TileFIle.cpp:100-111 | only a Weight line changes the weight, to the value it reads |
| `WfcTileTileFile.TileWeight` | WFCtile/TileFIle.cpp:16-111 | the weight is 100 unless a Weight line gives it, in which case it is the last one's value |
| `WfcTileTileFile.ApplyTileEdge` | WFCtile/TileFIle.cpp:92-99 | only the line of an edge's key changes that edge, to its value |
| `WfcTileTileFile.TileEdgeFromKey` | WFCtile/TileFIle.cpp:92-139 | each edge of a tile read is the value of the last line with its key |
| `WfcTileTileFile.ApplySymmetry` | WFCtile/TileFIle.cpp:113-125 | a Symmetry line adds the transformation it names to the tile's symmetries |
| `WfcTileTileFile.FoldSymmetries` | WFCtile/TileFIle.cpp:86-131 | the symmetries after the lines are those before plus every one the Symmetry lines name |
| `WfcTileTileFile.TileSymmetries` | WFCtile/TileFIle.cpp:113-125 | a tile read has exactly the symmetries its Symmetry lines name |
| `WfcTileEdges.AllEdges` | WFCtile/EdgeData.cpp:15-18 | the edges visited are the four of every tile, in tile order |
| `WfcTileEdges.Distinct` | WFCtile/EdgeData.cpp:19-21 | the distinct edges are exactly the edges seen, each once |
| `WfcTileEdges.DistinctSnoc` | WFCtile/EdgeData.cpp:19-27 | a new edge is added at the end, a seen one changes nothing |
| `WfcTileEdges.LookupsOfDistinct` | WFCtile/EdgeData.cpp:23-24 | the i-th distinct edge has ID i, and the IDs are exactly 0 up to the number of distinct edges |
| `WfcTileEdges.LookupsInverse` | WFCtile/EdgeData.cpp:23-24 | EdgeIDsByName and EdgeNamesByID are inverse to each other |
| `WfcTileEdges.DistinctPrefix` | WFCtile/EdgeData.cpp:15-29 | the distinct edges of a prefix are a prefix of the distinct edges |
| `WfcTileEdges.FirstAppearance` | WFCtile/EdgeData.cpp:19-26 | an edge's ID is the number of distinct edges before its first appearance |
| `WfcTileEdges.SeeEdge` | WFCtile/EdgeData.cpp:19-27 | seeing a new edge gives it the next ID in both lookups |
| `WfcTileEdges.AddTileEdges` | WFCtile/EdgeData.cpp:17-28 | the inner loop extends the lookups by one tile's edges |
| `WfcTileEdges.BuildEdgeIDs` | WFCtile/EdgeData.cpp:13-29 | the lookups number the edges 0, 1, 2 in order of first appearance across the tiles |
| `WfcTileEdges.EdgeIDsMeaning` | WFCtile/EdgeData.cpp:13-29 | every tile edge has an ID, the IDs are 0 up to the count, and the two lookups are inverse |
| `WfcTileEdges.ApplyPairAsWrittenMeaning` | WFCtile/EdgeData.cpp:46-61 | as written, a line fails exactly when its names differ and either is paired; a name paired with itself is always accepted and overwrites its pair |
| `WfcTileEdges.ApplyPair` | WFCtile/EdgeData.cpp:46-61 | the corrected line fails with 8 exactly when either name is already paired; otherwise each name is paired with the other and the other pairs are kept |
| `WfcTileEdges.PairKeepsSymmetric` | WFCtile/EdgeData.cpp:60 | the corrected line keeps Pairs symmetric |
| `WfcTileEdges.PairAsWrittenBreaksSymmetry` | WFCtile/EdgeData.cpp:51-52 | the lines "a:b" then "a:a" are accepted as written and leave b paired with a but a with itself, where the corrected reading fails with 8 |
| `WfcTileEdges.PairLine` | WFCtile/EdgeData.cpp:46-61 | the two-step loop over a line applies its pair |
| `WfcTileEdges.ReadEdgeData` | WFCtile/EdgeData.cpp:6-63 | the constructor builds the lookups and reads the pairs |
| `WfcTileEdges.PairEntryKeeps` | WFCtile/EdgeData.cpp:34-62 | every line keeps Pairs symmetric |
| `WfcTileEdges.EdgeDataOutcome` | WFCtile/EdgeData.cpp:31-62 | every failure is 8, and Pairs read is symmetric |
| `WfcTileLegacy.KnownSignatures` | WFCtile/main.cpp:158-176 | each of the thirteen known messages has its own signature, so no two known codes share a message |
| `WfcTileLegacy.KnownNotUnknown` | WFCtile/main.cpp:162-174 | no known message starts like the unknown-code message |
| `WfcTileLegacy.ErrCodeUnknown` | WFCtile/main.cpp:158-176 | the message is the unknown-code one exactly for codes below 0 or above 12 |
| `WfcTileLegacy.ErrCodeToMsgInjective` | WFCtile/main.cpp:158-176 | different codes give different messages |
| `WfcTileLegacy.ReadLegacyCmdArgs` | WFCtile/main.cpp:186-213 | the older constructor's loop computes the parse of its arguments |
| `WfcTileLegacy.LegacyArgsAgree` | WFCtile/main.cpp:186-213 | the older command line fails only with 7, and what it accepts the newer reader accepts with the same directory |
| `WfcTileLegacy.ReadLinesStep` | WFCtile/main.cpp:236-241 | each line is trimmed; a line starting with "//" is skipped and any other is applied, stopping at the first failure |
| `WfcTileLegacy.ReadSymmetricLine` | WFCtile/main.cpp:238-258 | one line of SYMMETRIC.txt takes the next ID, failing with 8 when the name is used; the used set stays the lookup's keys |
| `WfcTileLegacy.ReadSymmetricFile` | WFCtile/main.cpp:234-259 | the first loop reads SYMMETRIC.txt line by line |
| `WfcTileLegacy.ReadAsymmetricLine` | WFCtile/main.cpp:263-291 | one line of ASYMMETRIC.txt gives both names the next two IDs and pairs them, failing with 8 on a used name |
| `WfcTileLegacy.ReadAsymmetricFile` | WFCtile/main.cpp:260-292 | the second loop reads ASYMMETRIC.txt line by line |
| `WfcTileLegacy.ReadTileset` | WFCtile/main.cpp:223-293 | the TilesetData constructor reads both files in turn |
| `WfcTileLegacy.MutualAddPair` | WFCtile/main.cpp:290 | pairing two new, different names keeps the asymmetric pairs mutual |
| `WfcTileLegacy.DistinctIDsAdd` | WFCtile/main.cpp:252-253 | giving a new name the next ID keeps the IDs distinct and below the next one |
| `WfcTileLegacy.SymmetricLineKeeps` | WFCtile/main.cpp:238-258 | a SYMMETRIC.txt line keeps the tileset well formed |
| `WfcTileLegacy.AddPairKeeps` | WFCtile/main.cpp:273-291 | adding a new pair of different names keeps the tileset well formed |
| `WfcTileLegacy.AsymmetricLineKeeps` | WFCtile/main.cpp:263-291 | an ASYMMETRIC.txt line keeps the tileset well formed |
| `WfcTileLegacy.ReadLinesKeep` | WFCtile/main.cpp:234-292 | a reading whose every line keeps the tileset well formed fails only with 8 and ends well formed |
| `WfcTileLegacy.StepCodes` | WFCtile/main.cpp:244-280 | every line of either file fails only with 8 |
| `WfcTileLegacy.TilesetOutcome` | WFCtile/main.cpp:223-293 | the tileset fails only with 8, and a tileset read has distinct IDs, a mutual asymmetric pairing and no name both symmetric and asymmetric |
| `WfcTileLegacy.TilesetRejectsTwoBlankLines` | WFCtile/main.cpp:238-249 | blank lines are not skipped: two of them in SYMMETRIC.txt name the empty edge twice and fail with 8 |
| `WfcTileLegacy.TilesetRejectsSelfPair` | WFCtile/main.cpp:273-284 | a line "a:a" in ASYMMETRIC.txt fails with 8, since its second name is then used |
| `WfcTileLegacy.ReadLegacyTile` | WFCtile/main.cpp:307-429 | the older tile constructor computes the reading of the tile file |
| `WfcTileLegacy.LegacyEdgeStep` | WFCtile/main.cpp:381-403 | only an edge's key line changes that edge, to the ID of its name, and fails with 4 on an unknown name |
| `WfcTileLegacy.LegacyEdgeFromKey` | WFCtile/main.cpp:390-428 | each edge of a tile read is the ID of the name on the last line with its key |
| `WfcTileLegacy.LegacyFieldsEdge` | WFCtile/main.cpp:390-428 | the key/value part sets each edge to the ID of the last name given for it |
| `WfcTileLegacy.LegacyStepCodes` | WFCtile/main.cpp:396-420 | a key/value line fails only with 4, 5 or 6 |
| `WfcTileLegacy.LegacyTileCodes` | WFCtile/main.cpp:307-429 | the older tile reader fails only with codes 1 to 6 or 12 |
| `WfcTileLegacy.LegacyFieldsCodes` | WFCtile/main.cpp:390-428 | the key/value part fails only with 3, 4, 5 or 6 |
| `WfcTileLegacy.LegacyTileShape` | WFCtile/main.cpp:342-375 | a tile read has at least one row, rows of equal length and 8-bit pixels |
| `WfcTileLegacy.LegacyFieldsPixels` | WFCtile/main.cpp:390-428 | the key/value part keeps the pixels |
| `WfcTileLegacy.LegacyPixelsKept` | WFCtile/main.cpp:390-421 | every key/value line keeps the pixels |
| `TiledPermutator.ToTransforms` | WFC++/src/Tiled/TilePermutator.cpp:31-32 | each enumerated ordinal becomes its transformation, in order |
| `TiledPermutator.RequestedTransforms` | WFC++/src/Tiled/TilePermutator.cpp:31-32 | Enumerate lists exactly the requested transformations |
| `TiledPermutator.ConflictIsInconsistent` | WFC++/src/Tiled/TilePermutator.cpp:45-53 | a pair whose partner maps to a third edge shows that the supplied map is not consistent |
| `TiledPermutator.FailureSticks` | WFC++/src/Tiled/TilePermutator.cpp:49-53 | once the check fails, the pairs after it are not looked at |
| `TiledPermutator.TileEdges` | WFC++/src/Tiled/TilePermutator.cpp:63-65 | the loop visits four edges for every original tile |
| `TiledPermutator.EdgeOfTile` | WFC++/src/Tiled/TilePermutator.cpp:63-65 | every edge visited is an edge of some tile |
| `TiledPermutator.MaxEdge` | WFC++/src/Tiled/TilePermutator.cpp:40-43 | the largest ID is at least every ID listed |
| `TiledPermutator.MaxEdgeIsAnEdge` | WFC++/src/Tiled/TilePermutator.cpp:40-43 | the largest ID is one of the IDs listed |
| `TiledPermutator.AddTileReflections` | WFC++/src/Tiled/TilePermutator.cpp:65-75 | the loop over one tile's edges extends the completed map by them |
| `TiledPermutator.ReflectionSetup` | WFC++/src/Tiled/TilePermutator.cpp:26-77 | the reflection part of the constructor computes the specified check and completion |
| `TiledPermutator.AllChildrenHas` | WFC++/src/Tiled/TilePermutator.cpp:81-89 | a child is made exactly for an original tile and a requested transformation it is not symmetric under |
| `TiledPermutator.ChildTiles` | WFC++/src/Tiled/TilePermutator.cpp:93-122 | each child tile is its parent under its transformation |
| `TiledPermutator.Permute` | WFC++/src/Tiled/TilePermutator.cpp:79-130 | the permutation loops build the specified tiles, parents and permutation lists, and every listed ID names a tile |
| `TiledPermutator.ChildAt` | WFC++/src/Tiled/TilePermutator.cpp:124-128 | the tile after the originals at index j is the j-th child, built from its original parent |
| `TiledPermutator.PermutedList` | WFC++/src/Tiled/TilePermutator.cpp:20-128 | an original's permutation list is itself followed by its children, in order |
| `TiledPermutator.ListedChild` | WFC++/src/Tiled/TilePermutator.cpp:124-128 | every child listed for p lies after the originals, has parent p and a requested transformation p is not symmetric under |
| `TiledPermutator.FindChild` | WFC++/src/Tiled/TilePermutator.cpp:133-137 | for a requested transformation p is not symmetric under, the search finds a child of p with that transformation |
| `TiledPermutator.NoChild` | WFC++/src/Tiled/TilePermutator.cpp:133-139 | for a transformation not requested, or one p is symmetric under, the search gives TileID_INVALID |
| `TiledState.OppositeEdge` | WFC++/Tiled/Tile.hpp:41-55 | the opposite of one of the four edges is one of the four |
| `TiledState.ChancesAgree` | WFC++/src/Tiled/State.cpp:225-265 | two boards with the same values give every cell the same chances |
| `TiledState.HitsMeaning` | WFC++/src/Tiled/State.cpp:128-190 | a position is hit exactly when some listed position filters to it |
| `TiledState.WithEntropyBelow` | WFC++/src/Tiled/State.cpp:192-223 | asking for fewer possibilities than the smallest count among the unset cells selects no cell |
| `TiledState.BestIn` | WFC++/src/Tiled/State.cpp:192-223 | every cell returned is inside the output and unset |
| `TiledState.BestInShareEntropy` | WFC++/src/Tiled/State.cpp:192-223 | every cell returned has as many possibilities as the first |
| `TiledState.DefaultBoard` | WFC++/Tiled/State.h:48-54 | the constructor's output has a cell at exactly every position of its size |
| `TiledState.Rebuffered` | WFC++/Array2D.hpp:113-125 | after Array2D::Reset the output has a cell at exactly every position of the new size |
| `TiledState.Unset` | WFC++/src/Tiled/State.cpp:10-25 | unsetting keeps the output's positions |
| `TransformCompose.IdentityComposes` | WFC++/src/Tiled3D/Transform3D.cpp:212-313 | the identity's signed permutation is a unit for composition |
| `TransformCompose.SameIDSameArrangement` | WFC++/src/Tiled3D/Transform3D.cpp:491-505 | two corner arrangements with the same packed corner ID are the same arrangement |

## Left out

- Vectors.Iterate3: requires positive x and y sizes. The degenerate iteration is modelled only in 2D, by Vectors.Iterate2.
- Integer widths are not modelled. Vectors are unbounded integers rather than `int32`. `TileID`, `EdgeID` and `NPossibilities` are unbounded rather than `uint16`. Counts and entropies are unbounded rather than `size_t`. The `(int)ClearSize` casts are not modelled. Loop bounds written as `(TileID)size()`, which wrap past 65535, are treated as the true size. Tile counts in real inputs stay far below these widths. The xoshiro words and the WFCtile number parsers are the exceptions: they model their widths explicitly.
- The weighted draw with `std::discrete_distribution` in both solvers is modelled as `pick % |options|` over a caller-supplied `pick`. The model therefore allows every option, including a zero-weight one, and does not model the weights' probabilities. Probability is outside what the model states.
- Random draws (`roll`, `pick`) are parameters of the operations that make them. How the solvers seed and call their engine is not modelled. Only the 64-bit instantiations of the xoshiro templates are modelled. The library's generator, `xoshiro256starstar64`, is one of them.
- `Tiled3D::GetFace(cube, transform, side)` is declared but never defined in the code, so it is a parameter of the tables that use it. The order of `ActionHistoryNeighborsData` (the cell itself, then its six neighbours) is assumed, because that helper's body is not part of this model. The debug-only `memset` of new face identifiers is dropped.
- The grid's `Report`/`GotBoring`-style progress callbacks and the standard runner's logging are not modelled: they only report.
- TiledPermutator.TilePermutator.constructor: requires that None is not among the requested permutations. The code only asserts this (the WFCPP_ASSERT at `WFC++/src/Tiled/TilePermutator.cpp:80`).
- TiledPermutator.TilePermutator.constructor: it inserts into the `unordered_map` of edge reflections while iterating over it (`TilePermutator.cpp:45-56`). The model iterates over the original keys in a caller-supplied order. The inserted keys are reflections that already check out, and rehashing during iteration is undefined behaviour in C++.
- TilePermutator3D.TilePermutator.FindPermutation: requires `original in permutationsPerParent`, because the code's `.at` throws when the key is missing.
- TiledPermutator.TilePermutator.GetTileChild: requires `original in tilePermutations`, because the code's `.at` throws when the key is missing.
- TilePermutator3D.TilePermutator.constructor: requires `Identity !in permutationsToUse`, which the code only checks with an `assert`.
- TiledState.State.constructor: requires `outputSize.x == 0 ==> outputSize.y == 0`. A region of zero width and non-zero height iterates over points outside itself (see `Vectors`), and the code then writes outside the board.
- TiledState.State.Reset: has the same zero-width requirement as the constructor.
- TiledState.GridVisits and TiledState.ScanGrid: have the same zero-width requirement as the constructor.
- TiledState.ClearCells: has the same zero-width requirement as the constructor.
- SimpleState.State.constructor and SimpleState.State.Reset: require that a zero-width output also has zero height, for the same reason as the tiled state.
- SimpleState.GridVisits and SimpleState.ScanGrid: have the same zero-width requirement.
- SimpleInput.BuildInputData: requires `Extractable`. The input must be non-empty, patterns must be at least 1x1, and every bordered copy must leave a non-empty range of window corners. Otherwise the code's corner loops iterate a zero-width region and read outside the copy.
- SimpleInput.CopiesExtractable: carries the same `Extractable` requirement as `BuildInputData`.
- The `FindBitIndex` helper, the `GetHashcode` mixing functions of the 3D transforms and faces, `Reinterpret` and `IsPlatformLittleEndian` are not modelled. None of them affects results: hashes only place entries in hash maps, and the little-endian check only selects a bit layout.
- Grid3D.Grid.ClearCells and Grid3D.Grid.ClearAndRefilter: on the clearing path, a re-filtered cell's possible sets are stated only as lying within its initial sets, or within its sets before the call. They are not stated as exactly the initial sets narrowed by the placed neighbours that remain. Each cell's `NPossibilities` is tied to its sets by `Valid()`. Both passes only intersect a cell's sets with the faces of placed neighbours, so the order of the passes does not change the result; the model does not prove this.
- SimpleState.EntropyOf: the `size_t` wrap-around of the frequency sum is not modelled.
- SimpleState.ChooseColor: the weighted draw is the `pick` parameter, as above.
- SimpleState: the bad colours (a list in the code) and the affected positions of a clear (an `unordered_set`) are Dafny sets. The code only tests membership in the former. Recalculating the latter in any order gives the same board, which `RecalcAll` states.
- WfcTileUtils.SplitFirst: when the delimiter is missing, the code reads past the end of the string, which is undefined behaviour. The model returns an empty rest.
- WFCtile readers: on an error, the model reports only the error code. The partly filled fields and the text of `outErrMsg` are not modelled.
- WfcTileEdges: edge IDs are numbered with unbounded naturals. The `uint16` EdgeID would wrap after 65536 distinct edge names, and that is not modelled.
- WfcTileUtils: `TryParse(float)` is not modelled. None of the modelled readers uses it, and its `count_if` test is written `c = '.'`, an assignment, so it rejects every string of two or more characters.
- WfcTileLegacy: the `stof` reading of a tile weight is a parameter, and weights are reals.
- WfcTileTileFile: the `TryParse` overload for a set of `Transformations` is declared in `WFCtile/Utils.h` but its body is not part of this model, so it is a parameter of the TileFile reader.
- WfcTileOutputFile.DefaultOutput: the default seed, drawn uniformly from 0 to 999999999 through `std::random_device`, is a parameter. Its range is not enforced.
- File and console I/O are not modelled. This covers `ReadWholeFile`, reading the data directory and tile files, `main` and image writing. The readers take the files' contents as strings. The data directory is kept as the argument's text, not as a `std::filesystem::path`.
- Image pixels are modelled as sequences of rows rather than an `Array2D` of colours.
- WfcTileTileFile: the tile's `Name` comes from its file name, so the caller sets it.
- The duplicates of the `Utils` helpers inside `WFCtile/main.cpp` share one definition with `WFCtile/Utils.cpp`.
- WfcTileLegacy: the legacy reader does not check the sizes of the data it reads. Its `EDGE_ID_INVALID` is the sentinel 65535. Its argument parser accepts only `-dir`.
- TiledState.State.Reset: when the new size has as many cells as the old one, `Array2D::Reset` keeps the buffer. The model keeps each cell's `IsDeletable` by buffer index, as the code does.
- SimplePattern: `Pattern::DoesFit` reads the state's pixels, so it is modelled in `SimpleState`, next to the state it reads.

## Findings

| source | as written | input that shows it | evidently intended | confidence | as-written member | corrected member |
|---|---|---|---|---|---|---|
| WFC++/Array2D.hpp:212-236 | `RotateInto` resets the output to (height, width) in every non-zero case, including the 180° turn; cases 1 and 3 use the height where the width is meant in the position they read; so on a non-square array all three non-zero cases read outside the source | a 2x1 array: for 1 and 2 quarter turns, output (0,1) reads (-1,0) and (1,-1); for 3 quarter turns, output (0,0) reads (0,1), outside a source of height 1 | the 90° and 270° turns swap the sizes and the 180° turn keeps them; every read is inside the source | not executed | `Arrays.AsWrittenReadsOutside` (over `Arrays.OutSizeAsWritten`, `Arrays.SourcePosAsWritten`) | `Arrays.Array2D.RotateInto` (over `Arrays.OutSize`, `Arrays.SourcePos`) |
| WFC++/src/Tiled3D/Grid.cpp:72-78 | the action history's neighbour position is the cell's position plus the offset, never wrapped on a periodic axis | a cell at x = 0 on a grid periodic in x: its MinX neighbour is recorded as x = -1, outside the grid, so the snapshot misses the wrapped neighbour | wrap the neighbour as the placement does, so the wrapped cell (size.x - 1, y, z) is snapshotted and restored | not executed | `GridState.HistoryPositionsAsWrittenMissSeam` (over `GridState.HistoryPositionsAsWritten`) | `Grid3D.Grid.RestoreEntry` (over `GridState.HistoryPositions`) |
| WFC++/src/Tiled3D/Grid.cpp:534-541 | unwinding overwrites `NPossibilities` of every restored neighbour, placed or not, with the size of its snapshot | a placed neighbour with count 1 whose snapshot lists tiles {0, 1}: after unwinding it is still placed but has count 2 | keep a placed neighbour's count; only recount the cells that are not placed | not executed | `GridState.RestoredCellAsWrittenBreaksCount` | `Grid3D.Grid.UnwindActionHistory` |
| WFC++/src/Tiled3D/Grid.cpp:250-256 | the inward cleared position is the unwrapped outside position plus the inward delta | a cell at x = 0 on a grid periodic in x: its wrapped outside neighbour is x = size.x - 1, whose inward step gives x = size.x outside the grid | wrap the inward step, which leads back to the cleared cell | not executed | `GridClear.ClearedPosAsWrittenLeavesGrid` | `Grid3D.Grid.FilterBorderCell` |
| WFC++/Simple/InputData.cpp:15-20 | `MaxPatternSize` is squared when `useReflections` is set | a 1x2 pattern with rotations on and reflections off: `MaxPatternSize` stays 1x2, but the rotated window is 2 wide | square the size when rotations are used, since rotations are what swap width and height | not executed | `SimpleInput.MaxPatternSizeAsWrittenTooSmall` | `SimpleInput.MaxPatternSizeIsLargest` |
| WFC++/src/Simple/State.cpp:228-236 | a pattern colour counts only when it is one of the bad colours | any colour that is not bad and that some pattern places at the pixel: it is dropped from the pixel's chances | count only the colours that are not bad | not executed | `SimpleState.ChancesAsWrittenLoses` | `SimpleState.ChancesMeaning` (through `SimpleState.TallyCorner`) |
| WFC++/src/Tiled/TilePermutator.cpp:60-76 | fresh reflection IDs start at the largest ID in the supplied reflection map plus 1 | one tile with edges 0, 1, 0, 1, an empty reflection map and a reflection requested: edges 0 and 1 become each other's reflection, so the tile's own edge 1 is taken as a fresh ID | start fresh IDs above every supplied and every tile edge ID | not executed | `TiledPermutator.FreshStartAsWrittenCollides` | `TiledPermutator.FreshStartIsFresh` and `TiledPermutator.CompletedMeaning` |
| WFC++/Tiled/State.h:63-70 | `IsValidPos` waives the lower bounds of both axes on `PeriodicX` and the upper bounds of both on `PeriodicY` | a 2x1 grid wrapping only in x: the neighbour (2,0) is refused although it wraps to (0,0); a 2x2 grid wrapping only in x accepts (0,-1) | each axis is in range unless it wraps | not executed | `TiledState.IsValidPosAsWrittenDropsWrapped` and `TiledState.IsValidPosAsWrittenAdmitsOutside` | `TiledState.IsValidPosMeaning` |
| WFC++/include/Tiled3D/Transform3D.h:622-631 | adding a list sums `Add`'s results, which say whether each element was already present | adding a one-element list to an empty set: one element is gained, yet the result is 0 | return the number of elements actually gained, as the comment promises | not executed | `TransformSets.AddAllAsWrittenUndercounts` (over `TransformSets.TransformSet.AddAllAsWritten`) | `TransformSets.TransformSet.AddAll` |
| WFC++/include/Tiled3D/Transform3D.h:524-535 | `Combine` over a list adds 1 to the size for every list entry, repeats included | the list [identity, identity]: a set of one element whose size is 2 | a size equal to the number of distinct elements | not executed | `TransformSets.CombineAsWrittenMiscounts` (over `TransformSets.CombineAsWritten`) | `TransformSets.Combine` |
| WFCtile/Utils.cpp:96-112 | the bool parser lower-cases a copy of the string but compares the original | "True" is rejected | compare the lower-cased copy, so that "True" reads as true | not executed | `WfcTileUtils.ParseBoolAsWrittenRejectsCapitals` | `WfcTileUtils.TryParseBool` |
| WFCtile/EdgeData.cpp:49-59 | the repeated-edge check is skipped whenever the two names of a line are equal | the lines "a:b" then "a:a" give Pairs a -> a, b -> a, which is not symmetric, with no error | report a name that is already paired, whatever the other name is | not executed | `WfcTileEdges.PairAsWrittenBreaksSymmetry` | `WfcTileEdges.PairKeepsSymmetric` and `WfcTileEdges.EdgeDataOutcome` |
