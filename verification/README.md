# A model of SparseX

SparseX tunes sparse matrices for multiplication with a vector. It looks for substructures in a
matrix (horizontal, vertical, diagonal and anti-diagonal runs, and blocks), writes them down as a
byte program `ctl` and an array of values, the CSX format, generates a routine that interprets
these bytes, and runs it in parallel, for symmetric matrices with private buffers that are added
up in the end. This project models that path and proves that it computes the product.

The main results, and the modules that hold them:

- **The compiler preserves the matrix.** `SparsePartition` re-sorts elements in the coordinates of
  another type (`Encodings`), group by group where that is enough. `EncodingManager` rewrites the
  lines in place as runs and blocks (`RunLength`, `RowEncoder`, `Rewriting`), round by round with
  the best type until none is worth it; `Thorough` is the rule of what must be written over every
  run, stated on the positions, and `LineShape` what it means for a line. `CsxManager` lowers
  rows to units (`Units`) and bytes (`CtlCodec`). `Kernels` is the routine that interprets them.
  Cells are the meaning of every layer, and each layer keeps them: `CsxSpmv.TuneAndMultiply` runs
  one partition from loaded elements to the product, `MatVec.TuneAndMatVec` the whole matrix, and
  `MatVec.MatVecKernel` shows that no interleaving of its threads changes the result. Two things
  can keep a partition from being built, and for each there is a condition on the input that
  excludes it: a sampled window that is missed (`Sampling`) and too many pattern ids
  (`PatternIds`).
- **The symmetric product is right under every interleaving.** `SparsePartitionSym`,
  `CsxBuildSym` and `Sides` mine the halves of the lower triangle apart, `SymKernels` interprets
  them and logs its stores (`StoreLog`), `ReductionMap` divides the marked buffer entries between
  the threads, `Interleaving` says what disjoint threads may rely on, `ThreadSteps` what the steps
  of a thread are, and `SymPhases.SymmetricProduct` and `MatVecSym.SymmetricMatrixProduct` put
  this together for all schedules of the three parts. `TuneSym.TuneAndMatVecSym` runs the whole
  way from the triplets to the product.
- **The runtime protocols.** `Barrier` is the sense-reversing barrier on a futex as a step system
  of N threads; `ThreadPool` is the pool with its launches, symmetric jobs and shutdown, on top of
  the calls and returns that `Barrier.Refines` shows the barrier to implement.
- **Partitioning and memory.** `Partitions` and `PartitionsSym` cut the input into partitions,
  `NumaUtil` fits an interleaving of memory to whole pages.
- **The second interpreter.** `CsxGetSet` finds entries by walking the rows of the byte program
  backwards with the help of a row table (`RowsInfo`), and `CsxAccess` does so over all partitions;
  `CsxAccess.TuneAndGet` looks up an entry of a matrix that has just been tuned.

Values are real numbers. Objects the library updates in place are classes or arrays with methods,
the rest are datatypes and functions. `Acc` (in `Kernels`) is the invariant of all kernels: what is
in y, plus what the row register holds, plus the product with the cells still to come, is the
result. A ghost parameter of a method (units, cells, cuts, logs) names what the bytes stand for or
what has been stored; it is not available to the code. Lemmas are proved without automatic
induction: every induction is written out.

## What does not hold

Some properties the library relies on hold only under a condition. The code is modelled as it is,
and the members named here state the condition and a failing input.

- Pattern ids carry the dimension modulo 10000: they are read back if and only if it is below
  (`Encodings.PatternIdDecodes`, `Encodings.LargeStepMisdecodes`). Nothing in the code keeps
  mining from picking such a dimension; the filter of the statistics looks at coverage only
  (`include/sparsex/internals/Statistics.hpp:729-742`).
- Mining with sampled windows reads the line table behind its end when a window starts behind the
  last line that has elements, which happens when substructures have swallowed all elements below.
  A round fails if and only if a window is missed (`EncodingManager.EncodingManager.Round`,
  `EncodingManager.EncodingManager.GenAllStats`); anchored windows never are
  (`Sampling.AnchoredNotMissed`, `EncodingManager.EncodingManager.EncodeAll`); a diagonal matrix
  fails in the second round (`SamplingGap.DiagonalIsMissed`, `SamplingGap.IdentityIsMissed`).
- A partition with more than 62 pattern ids overflows the table of ids. Compiling succeeds if and
  only if the ids its rows need are at most 62 (`CsxManager.CsxManager.MakeCsx`), which the number
  of instantiations decides up to the four delta units (`CsxBuild.InstsDecide`), and which a
  caller can exclude by what may be picked (`CsxBuild.PreprocessThread`). A matrix of n rows with
  n different steps compiles if and only if n is at most 62 (`PatternTableGap.RowsOfSteps`).
- Reading and writing entries works if and only if the first row of a partition is not empty
  (`CsxGetSet.SeenIsTrueIff`, `CsxAccess.FirstRowIff`); otherwise the cells of the first row with
  units are seen too high, and only those (`CsxGetSet.SeenExactly`). In a symmetric matrix the
  first row of the first partition never has anything below the diagonal
  (`CsxAccess.FirstPartitionMisread`). Dimensions are read in eight bits: right if and only if
  they are below 256, and then only are all values looked for where they are
  (`CsxGetSet.DimReadIff`, `CsxGetSet.SearchedRightIff`, `CsxGetSet.WideSecondMissed`,
  `CsxGetSet.WideRunMissed`).
- Reading a diagonal entry of a symmetric matrix returns it as the truth value of the call and
  leaves the value alone (`CsxAccess.GetValueCsxSym`).
- A partition of a symmetric matrix has as many diagonal entries as rows if and only if its last
  row has an element below the diagonal (`PartitionsSym.DiagonalMatches`,
  `PartitionsSym.TrailingDiagonal`).
- The parts of a symmetric matrix are balanced when every row but the first has an element below the
  diagonal (`PartitionsSym.LargestPartSym`). A row without one does not open a row, so a matrix
  without any goes to the first partition whole (`PartitionsSym.NothingLowTakesAll`).
- An input with more elements than it claims is cut short and accepted if a row ends at that
  number (`Partitions.TooFewClaimed`): accepted and complete if and only if the claim is right
  (`Partitions.AcceptedWholeIff`), and accepted if and only if it is right or, elements being left,
  a row ends there and the last partition starts before it (`Partitions.AcceptedIff`,
  `Partitions.LastStartsBefore`, `Partitions.OneCutIff`).
- A partition without elements is possible, if and only if those before it have taken everything
  (`Partitions.EmptyPartition`, `Partitions.SecondIsEmpty`), but the routine reads a unit before it
  looks for the end, so it must not be run on one.
- Memory that already is whole pages grows by a whole page, for any number of parts, if and only
  if its total is whole pages (`NumaUtil.WholePageMore`, `NumaUtil.WholePagesGrow`).
- A thread pool that is destroyed before it was given threads waits forever, and only then
  (`ThreadPool.DestructionEndsIff`, `Barrier.UninitializedPoolHangs`). The public calls do not get
  there: they make the pool by `CreatePool` (`src/internals/Facade.cpp:207-212`, called from
  `src/api/matvec.c:320` and `src/api/matvec.c:451`), which gives it threads at once. It takes a
  program that asks for the pool itself and ends without.

## Model

| member | source | states |
|---|---|---|
| Encodings.XformInverse | include/sparsex/internals/Xform.hpp:37-248 | for each of the twenty types, the transformation to its coordinates and the one back undo each other, both ways, on the whole plane |
| Encodings.XformSameCell | include/sparsex/internals/Xform.hpp:420-443 | a transformation composed from two tables names the same matrix cell in both systems, and composing two of them is the direct one |
| Encodings.RunGeometry | include/sparsex/internals/Xform.hpp:106-248 | successive positions of a substructure on its line are the cells its kernel visits from the start cell, in the order of its values: linear runs, and column-major and row-major blocks that start on their grid |
| Encodings.PatternIdDecodes | include/sparsex/internals/CsxUtil.hpp:58-80 | an id is read back as the type and dimension it was made from if and only if the dimension is below 10000 |
| Encodings.LargeStepMisdecodes | src/internals/CsxUtil.cpp:28-33 | concrete failing input: a horizontal run with step 10000 is read back as a vertical one with step 0 |
| Utility.Gcd | include/sparsex/internals/Utility.hpp:70-80 | the loop computes the greatest common divisor as defined by recursion |
| Utility.GcdGreatest | include/sparsex/internals/Utility.hpp:70-80 | every common divisor divides it, so it is the greatest |
| Utility.Lcm | include/sparsex/internals/Utility.hpp:61-65 | the result is a common multiple of both arguments and divides every other common multiple |
| CtlCodec.FixedRoundTrip | include/sparsex/internals/Delta.hpp:35-48 | reading n little-endian bytes gives the number back if and only if it fits n bytes |
| CtlCodec.FitsWider | include/sparsex/internals/Delta.hpp:35-48 | below 2^64, a number fits a width if and only if the chosen delta size is at most that width: the choice is the narrowest |
| CtlCodec.FixedGetBack | include/sparsex/internals/CtlUtil.hpp:69-108 | a fixed-width read at any place of the program gives back what was written there |
| CtlCodec.FlagRoundTrip | include/sparsex/internals/CtlUtil.hpp:32-66 | the new-row bit, the row-jump bit and the six pattern bits are read back independently |
| CtlCodec.UlGet | include/sparsex/internals/CtlUtil.hpp:110-133 | decodes a variable-length integer of any size and stops exactly behind it, whatever follows |
| CtlCodec.CtlBuilder.AppendVariableInt | src/internals/CtlBuilder.cpp:32-48 | appends exactly the bytes UlGet is proved to decode |
| CtlCodec.CtlBuilder.AppendFixedInt | src/internals/CtlBuilder.cpp:50-60 | appends exactly the bytes FixedGetBack is about |
| CtlCodec.CtlBuilder.AppendCtlHead | src/internals/CtlBuilder.cpp:62-81 | appends flag byte, size, optional row jump and column, as DecodeHead reads them |
| Units.RunConcat | src/templates/csx_spmv_tmpl.c:83-98 | the cells of two unit lists one behind the other are the cells of both, the second starting where the first has left row and column |
| Units.BytesConcat | include/sparsex/internals/CsxManager.hpp:636-706 | the bytes of units are those of the parts, so no unit reads into the next |
| Elements.AllCellsPermuted | include/sparsex/internals/SparsePartition.hpp:681-744 | re-ordering elements only re-orders the cells they stand for |
| Elements.MoveKeepsCells | include/sparsex/internals/Element.hpp:435-442 | giving elements the coordinates of another type leaves every one of their cells where it is |
| RunLength.DeltaEncode | include/sparsex/internals/EncodingManager.hpp:457-473 | in-place encoding from the back computes first differences |
| RunLength.RLEncode | include/sparsex/internals/EncodingManager.hpp:475-502 | runs expand to the input, none is empty, and neighbouring ones differ |
| RunLength.RunOf | include/sparsex/internals/EncodingManager.hpp:1004-1082 | the entries a run covers are a walk of its step from the entry before it |
| EncodingManager.EncodingManager.DoEncode | include/sparsex/internals/EncodingManager.hpp:1003-1082 | what is appended covers exactly the input positions with their values in order, what was there before is untouched, every substructure is well shaped, at most 255 long and aligned; and every longest run of equal differences in the positions is written by the rule: which entries single elements may hold and how long the substructures over the others are, for linear types, DoEncodeBlock and DoEncodeBlockAlt |
| EncodingManager.EncodingManager.EncodeRun | include/sparsex/internals/EncodingManager.hpp:1027-1077 | one run of a linear type, which may take back the element before it; what it is to write is written |
| EncodingManager.EncodingManager.CutRun | include/sparsex/internals/EncodingManager.hpp:1056-1069 | cutting a long run leaves less than min_limit entries, and those are the ones behind the last cut |
| EncodingManager.EncodingManager.JoinRun | include/sparsex/internals/EncodingManager.hpp:1034-1055 | a single element that continues a run is taken back and counted with it, and never one of an earlier call |
| EncodingManager.EncodingManager.EncodeBlockRun | include/sparsex/internals/EncodingManager.hpp:1085-1192 | one run of a block type without splitting: when the width of its grid part is selected, blocks are written there and nowhere else; a run of another step always ends in a single element, the one the next run takes back |
| EncodingManager.EncodingManager.EncodeBlockAltRun | include/sparsex/internals/EncodingManager.hpp:1194-1290 | one run of a block type with splitting: on the grid the widest selected blocks that fit, and single elements only when none fits |
| EncodingManager.EncodingManager.JoinPrevious | include/sparsex/internals/EncodingManager.hpp:1137-1144 | the unconditional removal always removes a single element of the same call |
| EncodingManager.EncodingManager.BlockPlan | include/sparsex/internals/EncodingManager.hpp:1151-1160 | blocks have a positive size that is a multiple of the alignment and within max_limit, and do not exceed the run |
| EncodingManager.EncodingManager.AddWidth | include/sparsex/internals/EncodingManager.hpp:1252-1271 | as many blocks of one width as fit; what is left is narrower |
| LineShape.ElementStands | include/sparsex/internals/EncodingManager.hpp:1003-1082 | in the places of a line, every element stands behind those before it, over as many entries as it covers |
| LineShape.FewSingles | include/sparsex/internals/EncodingManager.hpp:1027-1077 | a single element in a run of a selected step has fewer entries of the run from it on than the minimum, or is the last one, whatever comes before the run |
| LineShape.OffGrid | include/sparsex/internals/EncodingManager.hpp:1085-1290 | in a run of consecutive positions only single elements stand before the grid and behind its last whole column |
| LineShape.BlockStands | include/sparsex/internals/EncodingManager.hpp:1085-1192 | when the width of its grid part is selected, the blocks of a maximal run of consecutive positions stand side by side from the first column of the grid, all of the same width: the whole grid part, or the greatest size if that is less, and as many as fit |
| LineShape.AfterBlocks | include/sparsex/internals/EncodingManager.hpp:1085-1192 | behind the blocks of an unsplit run there are single elements, short of one more block and a column |
| LineShape.NothingFits | include/sparsex/internals/EncodingManager.hpp:1194-1290 | where a single element stands on the block grid although blocks are split, what is left of the grid part is narrower than every selected width |
| EncodingManager.EncodingManager.EncodeRow | include/sparsex/internals/EncodingManager.hpp:1292-1319 | the new row stands for the same cells in the same order, in no more elements, sorted, and still readable if it was; substructures stay, and every stretch of single elements between them is written by the rule |
| Rewriting.RewritesConcat | include/sparsex/internals/EncodingManager.hpp:863-903 | rewriting line by line is a rewriting of the whole partition |
| Rewriting.CoversRewrites | include/sparsex/internals/EncodingManager.hpp:1003-1082 | covering the positions of a stretch of single elements is a rewriting of them |
| Rewriting.RewritesReadable | include/sparsex/internals/EncodingManager.hpp:863-903 | if elements followed one another by row and column including the columns they reach, their rewriting does, in every coordinate system |
| Rewriting.MovedKeeps | include/sparsex/internals/SparsePartition.hpp:680-744 | re-ordering keeps every element well shaped and in readable order |
| EncodingManager.EncodingManager.Encode | include/sparsex/internals/EncodingManager.hpp:863-903 | one round keeps the multiset of cells, leaves the partition in the order of the type, and makes the type ignored; every line, in that order, has been written by the rule, and substructures it adds are of picked instantiations; where every line is a single run of a picked step, exactly one substructure takes the place of each line |
| EncodingManager.EncodingManager.RewriteRow | include/sparsex/internals/EncodingManager.hpp:877-895 | in place: the write index stays at or before the first unread element, the unread elements are untouched, and the slots written hold the rewriting of the lines read |
| EncodingManager.EncodingManager.GenAllStats | include/sparsex/internals/EncodingManager.hpp:707-813 | collecting statistics, over the whole partition or over windows moved out and back, keeps the cells; it fails if and only if sampling is on, there are more lines than windows, and a window of more than one line starts behind the last line before one of at most one line, or without elements, ends the sampling |
| EncodingManager.EncodingManager.SampleWindow | include/sparsex/internals/EncodingManager.hpp:715-748 | a window is read inside the line table if and only if it does not start behind the last line; it is empty if and only if no element starts on its lines; surveying it restores the element array exactly |
| EncodingManager.EncodingManager.ChooseType | include/sparsex/internals/EncodingManager.hpp:815-834 | returns the first type with the best positive score, none if and only if all scores are zero, and newly ignores exactly the types without score |
| EncodingManager.EncodingManager.Round | include/sparsex/internals/EncodingManager.hpp:905-960 | one round fails if and only if its sampling misses a window; otherwise it encodes the open type with the best score, the first of equals, or none if and only if no open type has a score; the types still open are exactly the others with a score, and in the order of the type everything is written that the rule asks for, given all instantiations picked for the open types |
| EncodingManager.EncodingManager.EncodeAll | include/sparsex/internals/EncodingManager.hpp:905-960 | terminates after at most as many rounds as there are types. Round i encodes the type with the best positive score in survey i among those open: not ignored at the start, not encoded before, and with a score in every survey so far; and in that round everything is written that the rule asks for. If mining succeeds, no open type has a score in the last survey, and every type that was not ignored at the start has been encoded or has had no score in some survey. It ends in row order with the cells of the input and only instantiations that were there or that a survey picked. It cannot fail when every window is anchored: in or below its first line there is a cell that no substructure of a type in use, starting above that line, can cover. It fails if the first round misses a window |
| EncodingManager.EncodingManager.OpenOrLost | include/sparsex/internals/EncodingManager.hpp:905-960 | a type that was not ignored at the start and has not been encoded is still open or has had no score in one of the surveys |
| Sampling.WindowHasLine | include/sparsex/internals/SparsePartition.hpp:775-816 | the pointers of a window differ if and only if an element starts on one of its lines |
| Sampling.AnchoredStays | include/sparsex/internals/EncodingManager.hpp:715-748 | with an anchored cell below a line, some element starts below it, however the cells have been encoded |
| Sampling.AnchoredNotMissed | include/sparsex/internals/EncodingManager.hpp:707-748 | with all windows anchored, none is missed in any encoding of the cells |
| SamplingGap.DiagonalIsMissed | include/sparsex/internals/EncodingManager.hpp:905-960 | a whole family of failing inputs: a diagonal matrix and one window inside it; the first round works and makes the diagonal one substructure, and then the rest of mining fails whatever the surveys say |
| SamplingGap.IdentityIsMissed | include/sparsex/internals/EncodingManager.hpp:905-960 | concrete failing input, loaded and mined: the identity of twelve rows with a window of four rows behind the first eight |
| EncodingManager.EncodingManager.EncodeSerial | include/sparsex/internals/EncodingManager.hpp:962-986 | the same for a given sequence of types and instantiations: it always succeeds, and every step writes in the order of its type all that the rule asks for, of the instantiations asked for so far and no others |
| SparsePartition.SparsePartition.Transform | include/sparsex/internals/SparsePartition.hpp:680-744 | whether it sorts everything or group by group, the result is the full sort of the moved elements, with the one tight line table, and the same cells |
| SparsePartition.SparsePartition.SortGroups | include/sparsex/internals/SparsePartition.hpp:702-734 | between types of one family, sorting the groups of lcm(old, new) lines one by one leaves the whole array ordered |
| SparsePartition.SameGroup | include/sparsex/internals/SparsePartition.hpp:702-721 | two types of one family cut the matrix at the common multiples of their bundles |
| SparsePartition.SortedUnique | include/sparsex/internals/SparsePartition.hpp:680-744 | elements with distinct coordinates have one sorted order only |
| SparsePartition.TransformPath | include/sparsex/internals/SparsePartition.hpp:680-744 | the order of a partition does not depend on the orders it has been in before |
| SparsePartition.RowptrUnique | include/sparsex/internals/SparsePartition.hpp:543-563 | a list of elements has at most one tight line table |
| SparsePartition.SetRowptr | include/sparsex/internals/SparsePartition.hpp:543-563 | rebuilds the table that delimits exactly the lines of the elements |
| SparsePartition.Builder.NewRow | include/sparsex/internals/SparsePartition.hpp:866-872 | appends the pointer once per row opened |
| SparsePartition.Builder.Finalize | include/sparsex/internals/SparsePartition.hpp:874-891 | appends the end unless the last pointer already is the end |
| SparsePartition.SparsePartition.GetWindow | include/sparsex/internals/SparsePartition.hpp:775-816 | the window holds the elements of its lines, renumbered; the others stay |
| SparsePartition.SparsePartition.PutWindow | include/sparsex/internals/SparsePartition.hpp:818-839 | moves a window back to its slots and changes no other |
| CsxManager.DeltaEncode | include/sparsex/internals/CsxManager.hpp:212-224 | in-place differences against the last column |
| CsxManager.StepsAreDeltas | include/sparsex/internals/CsxManager.hpp:636-680 | the encoded columns are the distance to the first and then the steps |
| CsxManager.CsxManager.GetFlag | include/sparsex/internals/CsxManager.hpp:237-258 | a known id keeps its flag, a new one gets a flag of its own; fails exactly when 62 other ids are known |
| CsxManager.NeededIdsBounds | include/sparsex/internals/CsxManager.hpp:237-258 | the ids a partition needs are those of its substructures and at most the four of delta units: with at most 58 of the former they fit into the table, with more than 62 they do not |
| PatternIds.IdsAre | include/sparsex/internals/CsxManager.hpp:504-541 | the ids of a row are those of its substructures and, for each stretch of single elements between them, one for every full unit of 255 and one for the rest, by the largest step in it |
| CsxManager.CsxManager.AddMappings | include/sparsex/internals/CsxManager.hpp:439-450 | the table maps every flag back to its id and ends in a sentinel |
| CsxManager.CsxManager.UpdateNewRow | include/sparsex/internals/CsxManager.hpp:615-633 | the first unit of a row carries the mark and the empty rows before it, once |
| CsxManager.CsxManager.UpdateRowSpan | include/sparsex/internals/CsxManager.hpp:452-496 | keeps the greatest number of rows a substructure of the row reaches down |
| CsxManager.LineSpanReached | include/sparsex/internals/CsxManager.hpp:452-496 | some cell of the elements of the row lies exactly that many rows down, so the span is no greater than needed |
| CsxManager.CsxManager.AddCols | include/sparsex/internals/CsxManager.hpp:635-682 | the buffered columns become one more delta unit whose cells are exactly those columns with their values, at the narrowest width that holds all steps |
| CsxManager.CsxManager.AddPattern | include/sparsex/internals/CsxManager.hpp:684-706 | one more unit, that of the element, starting at the element |
| CsxManager.PatternUnitOk | include/sparsex/internals/CsxManager.hpp:684-706 | the unit of an element stands for the cells of the element and leaves the column where the manager assumes it |
| CsxManager.CsxManager.PreparePat | include/sparsex/internals/CsxManager.hpp:708-714 | a non-empty buffer is written and an empty one is not |
| CsxManager.CsxManager.DoElems | include/sparsex/internals/CsxManager.hpp:506-541 | one after the other, the cells of the elements are appended to those compiled so far; the ids looked up are exactly those the elements and the buffers flushed between them need, and it succeeds exactly if they fit |
| CsxManager.CsxManager.DoRow | include/sparsex/internals/CsxManager.hpp:504-541 | compiling a row appends its cells and consumes its values; the row span covers them |
| CsxManager.CsxManager.DoSymRow | include/sparsex/internals/CsxManager.hpp:549-613 | the same, and no unit has cells on both sides of the boundary column |
| CsxManager.CsxManager.MakeCsx | include/sparsex/internals/CsxManager.hpp:300-437 | succeeds if and only if the partition needs at most 62 ids. Then running the emitted units over the emitted values gives the cells of the partition, in order; bytes and values are those of the units and no more; the row table describes the rows; with `symmetric`, no unit crosses the boundary (MakeCsxSym) |
| CsxBuild.InstsDecide | include/sparsex/internals/CsxManager.hpp:237-258 | different instantiations have different ids, so their number decides: at most 58 fit and more than 62 do not |
| PatternTableGap.RowsOfSteps | include/sparsex/internals/CsxManager.hpp:237-258 | exact limit on a family of inputs, loaded, mined and compiled: a matrix in which row k has ones at k, 2k, 3k and 4k, encoded with all these steps, compiles if and only if it has at most 62 rows |
| RowsInfo.TableSnoc | include/sparsex/internals/CsxManager.hpp:330-395 | a row with units is entered with its byte and value position and span, an empty one with the position before it, and the table stays true |
| RowsInfo.BlockWritten | include/sparsex/internals/CsxManager.hpp:330-395 | the units written for a row are marked as its own and reach no further than its span |
| RowsInfo.SpanFromCells | include/sparsex/internals/CsxManager.hpp:452-496 | if no cell is below row + span, no value of the units is |
| CsxBuild.MinableCompilable | include/sparsex/internals/CsxBuild.hpp:134-174 | a mined partition in row order is one the compiler accepts |
| CsxBuild.Mining | include/sparsex/internals/CsxBuild.hpp:149-166 | mining by selection or by a given sequence keeps the cells and ends in row order; a given sequence always succeeds, selection does when no window can be missed; the instantiations it leaves are those the plan and the surveys allow |
| CsxBuild.PreprocessThread | include/sparsex/internals/CsxBuild.hpp:134-202 | from loaded elements to bytes: the compiled units run to a permutation of the loaded cells. It is built if and only if mining misses no window and the ids of what mining leaves are at most 62; by conditions on the input, it is built when all windows are anchored and all instantiations that may be picked number at most 58 |
| Kernels.HorizCase | src/templates/horiz_tmpl.c:20-37 | horizontal: stores and pending row sum together add the product of exactly the cells of the unit |
| Kernels.VertCase | src/templates/vert_tmpl.c:20-35 | vertical: stores and pending row sum together add the product of exactly the cells of the unit |
| Kernels.DiagCase | src/templates/diag_tmpl.c:20-35 | diagonal: stores and pending row sum together add the product of exactly the cells of the unit |
| Kernels.RDiagCase | src/templates/rdiag_tmpl.c:20-36 | anti-diagonal: stores and pending row sum together add the product of exactly the cells of the unit |
| Kernels.BlockRowOneCase | src/templates/block_row_one_tmpl.c:20-34 | one-row block: stores and pending row sum together add the product of exactly the cells of the unit |
| Kernels.BlockColOneCase | src/templates/block_col_one_tmpl.c:20-34 | one-column block: stores and pending row sum together add the product of exactly the cells of the unit |
| Kernels.BlockRowCase | src/templates/block_row_tmpl.c:20-37 | column-major block: stores and pending row sum together add the product of exactly the cells of the unit |
| Kernels.BlockColCase | src/templates/block_col_tmpl.c:20-40 | row-major block: stores and pending row sum together add the product of exactly the cells of the unit |
| Kernels.DeltaCase | src/templates/delta_tmpl.c:20-37 | delta unit, reading its bytes: stores and pending row sum together add the product of exactly the cells of the unit |
| Kernels.NewRowHook | include/sparsex/internals/CsxJit.hpp:359-415 | moves down by one row or by the jump, and consumes the bytes of the jump only if there is one |
| Kernels.BodyHook | include/sparsex/internals/CsxJit.hpp:417-560 | the flag selects the kernel of the unit that was written; its bytes and values are consumed exactly |
| Kernels.DecodeHead | src/templates/csx_spmv_tmpl.c:83-95 | reads back size, flag, row and column of the unit and flushes the row sum on a new row |
| Kernels.SpmCsxMultiply | src/templates/csx_spmv_tmpl.c:66-101 | for every list of units, the routine adds scale times the product of their cells to y, changes nothing else, and stops exactly at the end of the bytes and at the end of the values; every store, in order, goes to a row of the thread |
| CsxSpmv.RunShift | src/templates/csx_spmv_tmpl.c:74 | starting the routine at row_start moves all cells down by row_start |
| CsxSpmv.VecScalePart | src/internals/Vector.cpp:351-358 | scales a range and no other entry |
| CsxSpmv.DoMvThread | src/internals/CsxSpmv.cpp:28-35 | y + alpha A x for the part of the thread |
| CsxSpmv.DoKernelThread | src/internals/CsxSpmv.cpp:52-65 | beta y + alpha A x on the rows of the thread, other rows unchanged, by steps that touch no other row |
| CsxSpmv.TuneAndMultiply | include/sparsex/internals/CsxBuild.hpp:134-202 | mining, compiling and running one partition multiplies with the matrix that was loaded; it cannot fail when no window can be missed and the table has room |
| Partitions.SetElems | include/sparsex/internals/SparsePartition.hpp:508-541 | takes the input up to the first row end at which the limit is reached, rows relative to the start |
| Partitions.BuildPartitions | include/sparsex/internals/SparseInternal.hpp:118-152 | every partition holds the input between two consecutive cuts and is a fair share of what is left there; with a right claim, none holds more elements than the average, rounded up, and all but one of the longest row, or than there are partitions; the total is accepted if and only if the last cut is the claimed number, and it is accepted with nothing dropped if and only if the claim is the number of elements |
| Partitions.PartitionConserves | include/sparsex/internals/SparseInternal.hpp:118-152 | moved back by its row start, a partition is its part of the input |
| Partitions.AllConserved | include/sparsex/internals/SparseInternal.hpp:118-152 | the partitions, moved back and joined, are the input up to the last cut |
| Partitions.CutBetweenRows | include/sparsex/internals/SparseInternal.hpp:118-152 | no cut splits a row, so row ranges are disjoint and contiguous |
| Partitions.AllTaken | include/sparsex/internals/SparseInternal.hpp:118-152 | an input with the number of elements it claims is taken completely |
| Partitions.TooFewClaimed | include/sparsex/internals/SparseInternal.hpp:118-152 | concrete failing input: an input that claims too few elements is cut short at a row end and accepted |
| Partitions.AcceptedWholeIff | include/sparsex/internals/SparseInternal.hpp:118-152 | a claim is accepted and everything taken if and only if it is the number of elements |
| Partitions.WrongClaim | include/sparsex/internals/SparseInternal.hpp:118-152 | a claim of more elements than there are is refused, and an accepted one is the position of a row end |
| Partitions.OneCutIff | include/sparsex/internals/SparseInternal.hpp:118-152 | with one partition, a claim is accepted if and only if it is right or elements are left and a row ends there |
| Partitions.AcceptedIff | include/sparsex/internals/SparseInternal.hpp:118-152 | for any number of partitions, a claim is accepted if and only if it is right, or elements are left, a row ends there, and the last partition starts before it |
| Partitions.LastStartsBefore | include/sparsex/internals/SparseInternal.hpp:127-147 | for too small a claim, the last partition starts before it if and only if at every cut at least as many elements of the claim are left as partitions; a cut that finds fewer takes everything |
| Partitions.Balance | include/sparsex/internals/SparseInternal.hpp:127-147 | a partition that is not the end of the input holds at least the elements left of the claim divided by the partitions left, and one for which that quotient is positive holds at most the quotient less one plus its last row |
| Partitions.LargestPart | include/sparsex/internals/SparseInternal.hpp:127-147 | with a right claim, no partition holds more than the average number of elements, rounded up, and all but one of the longest row, or it holds fewer than there are partitions |
| Partitions.EmptyPartition | include/sparsex/internals/SparseInternal.hpp:127-147 | a partition is empty if and only if those before it have taken everything |
| Partitions.SecondIsEmpty | include/sparsex/internals/SparseInternal.hpp:127-147 | concrete input: of two partitions for one element, the first takes it and the second is empty |
| MatVec.BuildCsx | include/sparsex/internals/CsxBuild.hpp:328-341 | every partition is compiled to its part of the input; all are built when no window can be missed and the tables have room |
| MatVec.CutsReady | include/sparsex/internals/SparseInternal.hpp:118-152 | the cuts are ends of rows and reach the end of the input; a partition has a unit if and only if elements are left for it |
| MatVec.MatVecKernel | src/internals/CsxKernels.cpp:35-55 | beta y + alpha A x for the whole input matrix on all rows that belong to a partition, and every interleaving of the steps of the threads leaves the same vector |
| MatVec.TuneAndMatVec | src/internals/CsxKernels.cpp:35-55 | the whole way in one: triplets are cut, every part is mined and compiled, and the product is beta y + alpha A x up to the last row with an element; y is untouched otherwise, and it cannot fail when the parts are buildable |
| MatVec.ShortRowsDivisible | include/sparsex/internals/SparseInternal.hpp:127-147 | with rows of at most m elements, nr (1 + (nr - 1) (m - 1)) elements suffice for nr partitions none of which is empty |
| MatVec.TuneMatrix | include/sparsex/internals/CsxBuild.hpp:328-341 | from the triplets to the compiled partitions with their row tables: each runs to its part of the input; it cannot fail when the parts are buildable |
| SparsePartitionSym.SparsePartitionSym.DivideMatrix | include/sparsex/internals/SparsePartition.hpp:965-1024 | the halves hold the elements up to the boundary column and those behind it, each in order with its own line table |
| SparsePartitionSym.HalvesWhole | include/sparsex/internals/SparsePartition.hpp:965-1024 | the two halves together are the whole |
| SparsePartitionSym.SparsePartitionSym.MergeMatrix | include/sparsex/internals/SparsePartition.hpp:1026-1074 | puts the halves together line by line, with the line table of the result |
| SparsePartitionSym.MergeWhole | include/sparsex/internals/SparsePartition.hpp:1026-1074 | merging loses and adds no element |
| SparsePartitionSym.MergeSorted | include/sparsex/internals/SparsePartition.hpp:1026-1074 | if the halves are sorted and lie on their sides of the boundary, the merged list is sorted |
| SparsePartitionSym.MergeRowptr | include/sparsex/internals/SparsePartition.hpp:1026-1074 | the pointers built on the way delimit the lines of the merged list |
| SparsePartitionSym.MergeHalves | include/sparsex/internals/SparsePartition.hpp:965-1074 | dividing and then merging is the identity |
| CsxBuildSym.ElementsSided | include/sparsex/internals/CsxBuild.hpp:204-288 | if the cells of a half lie on one side of the boundary, so do those of every element, whatever substructures were mined |
| CsxBuildSym.MineHalves | include/sparsex/internals/CsxBuild.hpp:204-288 | dividing, mining both halves and merging keeps the cells, and no element crosses the boundary; it succeeds when no window of either half can be missed |
| CsxBuildSym.PreprocessThreadSym | include/sparsex/internals/CsxBuild.hpp:204-288 | the compiled lower triangle runs to the loaded cells, no unit crosses the boundary, and the diagonal is handed over; built if and only if mining succeeds and the merged half needs at most 62 ids, which holds when all that may be picked in either half number at most 58 |
| PartitionsSym.SetElemsSym | include/sparsex/internals/SparsePartition.hpp:1087-1129 | splits the input into lower triangle and diagonal and skips the rest |
| PartitionsSym.BuildPartitionsSym | include/sparsex/internals/SparseInternal.hpp:118-152 | every partition holds lower triangle and diagonal of the input between two cuts, which are fair shares of what is left of the claim, and none is too large, as for general matrices; the total is accepted if and only if it is half of the elements and diagonal claimed |
| PartitionsSym.BalanceSym | include/sparsex/internals/SparseInternal.hpp:127-147 | unless the input ends there, the elements counted between two cuts are at least those left of the claim divided by the partitions left, and fewer than that up to every earlier place where a row is opened right behind the last |
| PartitionsSym.LargestPartSym | include/sparsex/internals/SparseInternal.hpp:127-147 | if every row has an element below the diagonal or is the first, no partition holds more counted elements than the average, rounded up, and all but one of the longest row, or it holds fewer than there are partitions |
| PartitionsSym.NothingLowTakesAll | include/sparsex/internals/SparsePartition.hpp:1087-1129 | failing family: rows without elements below the diagonal open no new row, so with a diagonal input the first partition takes everything, whatever its limit |
| PartitionsSym.LastTakesAll | include/sparsex/internals/SparseInternal.hpp:127-147 | with the right total, the last partition takes all that is left |
| PartitionsSym.DiagonalMatches | include/sparsex/internals/SparsePartition.hpp:1087-1129 | a partition of a full-diagonal matrix has as many diagonal entries as rows if and only if its last row has an element below the diagonal |
| PartitionsSym.TrailingDiagonal | include/sparsex/internals/SparsePartition.hpp:1087-1129 | concrete failing input: three diagonal entries for two rows |
| PartitionsSym.FitsIff | include/sparsex/internals/SparsePartition.hpp:1087-1129 | a partition is ready to be mined if and only if it is empty or its last row has an element below the diagonal, and then the next one starts at the right row |
| PartitionsSym.StartsRight | include/sparsex/internals/SparseInternal.hpp:118-152 | as long as the partitions fit, all of them start at the right row |
| ReductionMap.FillInitialMap | include/sparsex/internals/CsxBuild.hpp:418-455 | marks exactly the columns before its own rows in which a partition has an element, and counts them per column |
| ReductionMap.TakeColumns | include/sparsex/internals/CsxBuild.hpp:480-485 | stops inside the matrix with at least the limit and, if that is positive, less than the limit plus the number of threads |
| ReductionMap.FillMap | include/sparsex/internals/CsxBuild.hpp:494-502 | writes the marked entries of the columns, in order |
| ReductionMap.MakeMap | include/sparsex/internals/CsxBuild.hpp:400-581 | the maps are the marked entries of consecutive ranges of columns that end with the matrix; every thread but the last gets at least the entries left divided by the threads left, and less than that and the number of partitions |
| ReductionMap.EachEntryOnce | include/sparsex/internals/CsxBuild.hpp:400-581 | every marked entry is in the map of exactly one thread, once, and in no other; the columns of two threads are apart |
| SymKernels.HorizSymCase | src/templates/horiz_sym_tmpl.c:20-45 | horizontal: adds the product of the cells and of their mirror images, the latter to the vector or the local buffer, storing only where the thread may |
| SymKernels.VertSymCase | src/templates/vert_sym_tmpl.c:20-44 | vertical: adds the product of the cells and of their mirror images, the latter to the vector or the local buffer, storing only where the thread may |
| SymKernels.DiagSymCase | src/templates/diag_sym_tmpl.c:20-43 | diagonal: adds the product of the cells and of their mirror images, the latter to the vector or the local buffer, storing only where the thread may |
| SymKernels.RDiagSymCase | src/templates/rdiag_sym_tmpl.c:20-44 | anti-diagonal: adds the product of the cells and of their mirror images, the latter to the vector or the local buffer, storing only where the thread may |
| SymKernels.BlockRowSymCase | src/templates/block_row_sym_tmpl.c:20-52 | column-major block: adds the product of the cells and of their mirror images, the latter to the vector or the local buffer, storing only where the thread may |
| SymKernels.BlockColSymCase | src/templates/block_col_sym_tmpl.c:20-53 | row-major block: adds the product of the cells and of their mirror images, the latter to the vector or the local buffer, storing only where the thread may |
| SymKernels.DeltaSymCase | src/templates/delta_sym_tmpl.c:20-51 | delta unit: adds the product of the cells and of their mirror images, the latter to the vector or the local buffer, storing only where the thread may |
| SymKernels.SymNewRowHook | include/sparsex/internals/CsxJit.hpp:359-415 | on the way to the next row, the diagonal of the rows passed is added, and each value of it used once |
| SymKernels.SpmCsxSymMultiply | src/templates/csx_sym_spmv_tmpl.c:60-106 | adds the product with the lower triangle, its mirror image and the diagonal over vector and local buffer together; every store, in order, is in the thread's own rows of the vector or in its buffer before them |
| Interleaving.SeesItself | src/internals/CsxSpmv.cpp:67-86 | if threads touch nothing another one writes, each sees at every point of every schedule what it would see on its own |
| Interleaving.OwnerDecides | src/internals/CsxSpmv.cpp:67-86 | after every complete schedule, an address holds what the only thread writing it would have left there alone |
| Interleaving.SameOutcome | src/internals/CsxSpmv.cpp:67-86 | threads that are apart leave the same memory under any two complete schedules |
| Interleaving.NobodyWrites | src/internals/CsxSpmv.cpp:67-86 | an address nobody writes keeps its value |
| Interleaving.ThreadAfterThread | src/internals/CsxSpmv.cpp:67-86 | one thread after the other is one of the schedules |
| SymPhases.Cleared | src/internals/Vector.cpp:219-226 | after the first part, under every schedule, the marked entries are zero and all others as before |
| SymPhases.KernelApart | src/internals/CsxSpmv.cpp:79-82 | in the second part no thread touches what another writes |
| MatVec.ThreadsApart | src/internals/CsxSpmv.cpp:52-65 | without symmetry, no thread touches what another writes |
| SymPhases.MultipliedRow | src/internals/CsxSpmv.cpp:79-82 | after the second part, a row holds beta y plus what its thread adds there |
| SymPhases.MultipliedLocal | src/internals/CsxSpmv.cpp:79-82 | after the second part, a local buffer holds what it held plus what its thread adds there |
| SymPhases.GatherApart | src/internals/CsxSpmv.cpp:85 | in the third part no thread touches what another writes |
| SymPhases.Gathered | src/internals/Vector.cpp:291-299 | after the third part, a row has gained the entries of all local buffers |
| SymPhases.WholeDot | src/templates/csx_sym_spmv_tmpl.c:60-106 | what a row gets from its own thread and from all buffers is its part of the product with lower triangle, mirror image and diagonal |
| SymPhases.SymmetricProduct | src/internals/CsxSpmv.cpp:67-86 | under every interleaving of each of the three parts, a row ends as beta y + alpha (L + L^T + D) x, unscaled if no thread owns it |
| SymSpmv.VecInitFromMap | src/internals/Vector.cpp:219-226 | performs the stores of the first part |
| SymSpmv.VecAddFromMap | src/internals/Vector.cpp:291-299 | performs the steps of the third part, with the vector as both sum and summand |
| SymSpmv.MultiplyPart | src/internals/CsxSpmv.cpp:79-82 | performs the steps of the second part: its stores are of the kind SymmetricProduct asks for |
| SymSpmv.BuiltThread | include/sparsex/internals/CsxBuild.hpp:204-288 | what PreprocessThreadSym emits is a thread as the phases ask for |
| SymSpmv.MatVecKernelSym | src/internals/CsxKernels.cpp:57-80 | beta y + alpha (L + L^T + D) x in the vector, and every interleaving of each of the three parts leaves the same |
| SymSpmv.MatVecMultSym | src/internals/CsxKernels.cpp:105-129 | alpha (L + L^T + D) x, whatever the vector held, and the same in every interleaving |
| SymSpmv.VecInit | src/internals/Vector.cpp:206-210 | sets every entry |
| MatVecSym.PartitionThread | include/sparsex/internals/CsxBuild.hpp:204-288 | a partition that fits is the share of its thread between the two cuts |
| MatVecSym.PartitionColumns | include/sparsex/internals/CsxBuild.hpp:418-455 | the map is made from the columns of the elements as loaded |
| MatVecSym.WholeIsInput | include/sparsex/internals/SparsePartition.hpp:1087-1129 | lower triangles, mirror images and diagonals of all threads together are the input matrix, if that is symmetric |
| MatVecSym.ThreadsMeet | src/internals/CsxKernels.cpp:57-80 | the shares between the cuts have disjoint rows and columns before them: what SymmetricProduct asks for |
| MatVecSym.AllRowsOwned | include/sparsex/internals/SparseInternal.hpp:118-152 | every row of a matrix with full diagonal belongs to a thread |
| MatVecSym.SymmetricMatrixProduct | src/internals/CsxSpmv.cpp:67-86 | for the input matrix and under every interleaving: every row ends as beta y + alpha A x |
| TuneSym.CutsDetermined | include/sparsex/internals/SparseInternal.hpp:118-152 | the cuts of a symmetric matrix are the only ones that follow from its elements one by one: what is asked of them is a condition on the input |
| TuneSym.HalfCount | include/sparsex/internals/SparseInternal.hpp:118-152 | with symmetric input and full diagonal, half of elements and diagonal is the number of those on and below the diagonal: the total the partitioning is checked against |
| TuneSym.TuneSymMatrix | include/sparsex/internals/CsxBuild.hpp:343-398 | from the triplets to the reduction map, made before mining from the loaded columns, and the compiled lower triangles, each that of its share of the input; it cannot fail when the parts are buildable |
| TuneSym.TuneAndMatVecSym | src/internals/CsxKernels.cpp:57-80 | the whole symmetric way in one: triplets are cut, the map is made, both halves of every part are mined and compiled, local buffers with anything in them are added, and every row of y becomes beta y + alpha A x for the whole matrix, of which only half has been stored; y is untouched otherwise |
| CsxGetSet.SearchDelta | include/sparsex/internals/CsxGetSet.hpp:324-397 | finds the value of the column, or passes over all of the unit |
| CsxGetSet.SearchHorizontal | include/sparsex/internals/CsxGetSet.hpp:399-419 | found if and only if the run has the cell; with step 0 never |
| CsxGetSet.DimReadIff | include/sparsex/internals/CsxGetSet.hpp:245-247 | the dimension the search reads, in eight bits, is that of the substructure if and only if it is below 256 |
| CsxGetSet.SearchedRightIff | include/sparsex/internals/CsxGetSet.hpp:245-247 | a substructure of at least two values is searched with all of them where they are if and only if its dimension is below 256: for every wider one some value is looked for at another place, and a block never is wider |
| CsxGetSet.WideSecondMissed | include/sparsex/internals/CsxGetSet.hpp:399-419 | failing inputs for every dimension from 256 on: the second value of a horizontal run is at its place in the matrix and never found as what it is |
| CsxGetSet.WideRunMissed | include/sparsex/internals/CsxGetSet.hpp:399-419 | concrete failing input: a horizontal run with step 256 is searched with step 0, and not even its first value is found |
| CsxGetSet.SearchVertical | include/sparsex/internals/CsxGetSet.hpp:421-451 | found if and only if the run has the cell |
| CsxGetSet.SearchDiagonal | include/sparsex/internals/CsxGetSet.hpp:453-490 | found if and only if the run has the cell, in both directions |
| CsxGetSet.SearchBlock | include/sparsex/internals/CsxGetSet.hpp:492-537 | found if and only if the block has the cell, and then at the index of its value |
| CsxGetSet.SearchRow | include/sparsex/internals/CsxGetSet.hpp:230-304 | decodes the units up to the next marked one and finds the cell if one of them has it |
| CsxGetSet.GetSet | include/sparsex/internals/CsxGetSet.hpp:315-322 | reads the value or replaces it, and no other |
| CsxGetSet.SkippedIff | include/sparsex/internals/CsxGetSet.hpp:211-228 | equal neighbouring pointers mean that the row is empty or that all rows before it are |
| CsxGetSet.SkippedRow | include/sparsex/internals/CsxGetSet.hpp:211-222 | a row that is skipped for its span or its pointer cannot have the cell |
| CsxGetSet.SearchValue | include/sparsex/internals/CsxGetSet.hpp:194-313 | walking rows backwards, finds a cell if and only if one of the cells as the search decodes them is there; reads or writes its value and no other |
| CsxGetSet.SetChangesOne | include/sparsex/internals/CsxGetSet.hpp:315-322 | writing one value changes the value of one cell |
| CsxGetSet.SeenIsTrueIff | include/sparsex/internals/CsxGetSet.hpp:211-228 | the search decodes the cells of the matrix if and only if the first row of the partition has units |
| CsxGetSet.SeenExactly | include/sparsex/internals/CsxGetSet.hpp:211-228 | what the search sees in general: with b empty rows at the start, the cells of the units of the next row are seen b rows too high, and all others where they are |
| CsxGetSet.Misplaced | include/sparsex/internals/CsxGetSet.hpp:211-228 | if it has none, the first cell of the matrix is seen in the first row, where it is not |
| CsxAccess.GetValueCsx | include/sparsex/internals/CsxGetSet.hpp:83-100 | for any partitions: returns the value of a cell seen at that place, or says that none is seen there; changes nothing. In every partition whose first row has units, the cells seen are those of the matrix |
| CsxAccess.SetValueCsx | include/sparsex/internals/CsxGetSet.hpp:134-151 | for any partitions: replaces one cell seen at that place by one with the new value, or says that there is none; all other cells of all partitions stay. In every partition whose first row has units, the cells seen are those of the matrix |
| CsxAccess.GetValueCsxSym | include/sparsex/internals/CsxGetSet.hpp:102-132 | an entry is looked up below the diagonal among the cells as the search sees them, which are those of the matrix where the first row of a partition has units; on the diagonal the call never delivers the value and succeeds exactly if it is not zero |
| CsxAccess.SetValueCsxSym | include/sparsex/internals/CsxGetSet.hpp:153-183 | sets the one stored value of an entry and its mirror image, found as in GetValueCsxSym, also on the diagonal |
| CsxAccess.FirstRowIff | include/sparsex/internals/CsxGetSet.hpp:211-228 | the first row has units if and only if the partition has a cell there |
| CsxAccess.FirstPartitionMisread | include/sparsex/internals/CsxGetSet.hpp:102-132 | in the first partition of a symmetric matrix, the search never decodes the cells of the matrix |
| CsxAccess.BuildAndGet | include/sparsex/internals/CsxGetSet.hpp:83-100 | building a partition and looking up an entry: with a cell in its first row and only dimensions below 256 to be picked, the entry is found if and only if it was loaded, with its value |
| CsxAccess.TuneAndGet | include/sparsex/internals/CsxGetSet.hpp:83-100 | the whole matrix: triplets are cut, mined and compiled, and an entry is looked up over all partitions: when no partition starts with an empty row and only dimensions below 256 may be picked, it is found if and only if the input has it, with its value |
| Barrier.ActOk | src/internals/Barrier.cpp:29-60 | every step of every thread, also a futex_wait that returns for no reason, keeps the invariant of senses, counter and last thread |
| Barrier.NobodyLeavesEarly | src/internals/Barrier.cpp:44-60 | in every run, no thread returns from its k-th call before all threads have made theirs |
| Barrier.ResetIsUndisturbed | src/internals/Barrier.cpp:48-51 | while the last thread resets the counter and flips the sense, all others wait; the counter never leaves 1..N when it is decremented |
| Barrier.NoLostWakeup | src/internals/Barrier.cpp:51-58 | a sleeping thread waits for a sense that has not been flipped, or a wake is still to come |
| Barrier.NoDeadlock | src/internals/Barrier.cpp:29-60 | in every reachable state some thread is awake and not waiting for the others |
| Barrier.OutsideSeesOwnSense | src/internals/Barrier.cpp:44-60 | a thread outside reads in the shared variable the sense it would pass |
| Barrier.Refines | src/internals/Barrier.cpp:44-60 | every step is a call, a return that the episode permits, or invisible: the barrier implements that two-step specification |
| Barrier.ReleasedReturns | src/internals/Barrier.cpp:51-58 | once the episode is released, every step of a thread brings its return closer and no other thread sets it back |
| Barrier.CalledIsReleased | src/internals/Barrier.cpp:44-60 | once all threads have called, every step of a thread that is not waiting brings the release closer, and there is such a thread |
| Barrier.UninitializedPoolHangs | src/internals/ThreadPool.cpp:28-45 | concrete failing run: destroying a pool that was never given threads returns from its first call of the barrier and never from the second |
| Barrier.SecondCallNeverReturns | src/internals/Barrier.cpp:44-60 | in no run of a pool without threads, however long, does the second call of the barrier return |
| ThreadPool.StepOk | src/internals/ThreadPool.cpp:79-123 | every step of every thread keeps the invariant of the pool |
| ThreadPool.RunOk | src/internals/ThreadPool.cpp:28-123 | the invariant holds in every state of every run: any number of workers, launches and kinds of jobs |
| ThreadPool.WrittenWhileParked | src/internals/ThreadPool.cpp:112-123 | job, data and sense of a worker are written only while every worker is parked at the barrier |
| ThreadPool.EachLaunchOnce | src/internals/ThreadPool.cpp:79-110 | what a thread, the calling one included, has done is recorded where it works: whenever the client is idle, or the thread calls the outer barrier, it has done every part of every launch exactly once and in order, one part or the three of a symmetric job; before the second inner barrier it has done two parts of the last launch, before the first one |
| ThreadPool.WorkOnce | src/internals/ThreadPool.cpp:79-110 | that record holds each part of each launch once and nothing else |
| ThreadPool.SensesAgree | src/internals/CsxKernels.cpp:57-80 | whenever a thread is about to call the barrier, the sense it passes, be it that of the pool, the worker or the matrix, is the shared one |
| ThreadPool.SamePlace | src/internals/ThreadPool.cpp:79-110 | two threads in the same call of the barrier are at the same place of the protocol |
| ThreadPool.PartsApart | src/internals/CsxSpmv.cpp:67-86 | two threads that work at the same time work on the same part of the same launch, and every thread has then done all parts before it |
| ThreadPool.NoDeadlock | src/internals/ThreadPool.cpp:28-123 | unless the client is idle, some thread can go on, until all have exited |
| ThreadPool.StopReleasesAll | src/internals/ThreadPool.cpp:28-45 | once the pool is being destroyed, every step brings the end closer, and where no step is left all threads have exited |
| ThreadPool.DestructionEndsIff | src/internals/ThreadPool.cpp:28-77 | the destructor returns if and only if InitThreads has run: then every run of the shutdown, however far it has come, goes on to where all threads have exited, and otherwise no run at all returns |
| NumaUtil.GetBestNode | src/internals/numa_util.c:31-43 | the first node with the highest score |
| NumaUtil.MergeSmallParts | src/internals/numa_util.c:75-97 | parts are merged from left to right into groups of at least a page (but the last), no longer than needed; each holds the bytes of its members and goes to the node with most of them |
| NumaUtil.AdjustBoundaries | src/internals/numa_util.c:99-129 | every part that holds anything becomes a positive number of whole pages; the first starts where it did; every other starts at the nearer page boundary, up if at least half a page would be cut off and the part still has a whole page then, down otherwise; no size goes negative on the way, and the total grows by more than nothing and at most a page |
| NumaUtil.NearerPage | src/internals/numa_util.c:120-128 | how far the start of a part moves, by where it was within its page and the size of the part |
| NumaUtil.AdjustedOnce | src/internals/numa_util.c:99-129 | sizes, page and that description determine the result |
| NumaUtil.MergedPages | src/internals/numa_util.c:75-129 | what merging leaves is what fixing the boundaries needs |
| NumaUtil.MergedTotal | src/internals/numa_util.c:75-97 | merging keeps the number of bytes up to every group boundary |
| NumaUtil.FixInterleaving | src/internals/numa_util.c:64-132 | both phases together, in place: the merged parts end up at the nearer page boundaries as AdjustBoundaries says, with the bound on the total; the total grows by a whole page if and only if it was whole pages before and some part holds anything |
| NumaUtil.WholePageMore | src/internals/numa_util.c:99-129 | for any number of parts: the total becomes whole pages, and grows by a full page if and only if it already was |
| NumaUtil.WholePagesGrow | src/internals/numa_util.c:120-128 | a single part that already is whole pages still grows by a page |

## Left out

- SparsePartition.SparsePartition.SortRange: the library sort is an insertion sort on values; any sort gives the same array, as SortedUnique says.
- EncodingManager.EncodingManager.GenAllStats: scores and instantiations come from an arbitrary function; how the library counts and scores is not modelled. The function is asked to pick instantiations of the type it is asked about, with dimensions 1 to 9999 and, for split blocks, at most 255 values. The code does not establish the bound 9999: beyond it Encodings.LargeStepMisdecodes applies.
- EncodingManager.EncodingManager.EncodeAll: which windows a later round misses depends on what the surveys of the rounds before pick; in terms of the input there is a condition that suffices for success and one that suffices for failure, and the exact one is stated for each round.
- CsxBuild.PreprocessThread: asks for the dimensions below 10000 described for GenAllStats.
- EncodingManager.EncodingManager.DoEncode: for a block type without block splitting, max_limit must be at least the alignment, because the code divides by zero otherwise; block instantiations have a dimension of at least 1, because splitting would not end otherwise.
- CsxManager.CsxManager.MakeCsx: stops at the 63rd pattern id, where the code writes the sentinel behind its table; for a row table without any element before it, the entry is 0, where the code reads in front of the table.
- Kernels.SpmCsxMultiply: needs at least one unit, because the loop tests at its end; generated text is modelled as the code it stands for, with one branch for every hook.
- SymKernels.SpmCsxSymMultiply: the read of one value behind the last one of a unit, whose result is not used, is dropped.
- MatVec.MatVecKernel: runs the threads one after the other and shows that their steps, a scaling or an addition each, leave the same vector in every interleaving; reads of x, which no thread writes, are no steps.
- MatVec.TuneAndMatVec: asks that the last partition is not empty, and then none is (EmptyPartition says when one is, ShortRowsDivisible gives a bound on the rows that suffices); rows behind the last element are not scaled, because no partition has them.
- SymSpmv.MatVecKernelSym: runs the parts thread after thread and shows that every interleaving of each part leaves the same; a store, scaling or addition is one atomic step there, and the parts are separated as ThreadPool.PartsApart says.
- PartitionsSym.StartsRight: asks that the partitions before have an element below the diagonal in their last row, as FitsIff requires.
- MatVecSym.SymmetricMatrixProduct: asks for a full diagonal and symmetric input, as the library does without checking it.
- TuneSym.TuneAndMatVecSym: asks that no partition is empty and each has an element below the diagonal in its last row, as FitsIff requires, of the cuts that CutsDetermined says are the only ones.
- CsxAccess.TuneAndGet: asks for dimensions below 256 and an element in the first row of every partition; SearchedRightIff and SeenIsTrueIff say why.
- CsxGetSet.SearchValue: dimensions are at most 255, because the code reads them into a byte (DimReadIff), and the row lies in the partition, which the callers have checked only from one side.
- ThreadPool.EachLaunchOnce: the number of threads of a job is that of the pool plus one; a matrix tuned for another number is not modelled.
- Barrier.CalledIsReleased: termination is stated as a measure that decreases; fair scheduling, under which it ends, is not part of the model.
- SparsePartitionSym.SparsePartitionSym.MergeMatrix: sets the number of elements of the merged partition, which the code leaves as it was.
- Floating-point rounding, vector comparison, random initialisation.
- Compiling the generated source (LLVM and Clang), text templates, ctl padding for aligned reads (PTR_ALIGN).
- Reading and writing files (Matrix Market, saved matrices), CSR input, reordering (Cuthill-McKee), the public C interface and its index shifting.
- System calls: mmap and mbind, CPU affinity, allocation, timing, logging; futex_wait and futex_wake are steps of the barrier model.
- The iterators and print functions of partitions, the coverage statistics and their output.
