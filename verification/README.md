# Verification of the GLSL debugger's algorithms

This project models the algorithms inside the shader debugger `glsldb` and its debug library, and
proves what they promise. It has five parts.

**Geometry-shader streams.** A debug run writes two flat float maps: one record per primitive sent
into the geometry shader, and one slot per emitted vertex. `GeoDecoder.dfy` is the decoder that
rebuilds the tree of input primitives, sub-primitives, output primitives and vertices, with its
three nested loops over one cursor. `GeoRoundTrip.dfy` defines the encoding and proves that decoding
undoes it, down to the floats that the constructor gets (`DecodeScene`); `GeoExactness.dfy` proves the converse, so it is known exactly which maps are read without
leaving them, and what the leaves and counters are on every input.

**Watched values.** `PixelBoxes.dfy` holds the buffers of a watched variable as arrays.
`WatchCache.dfy` is the decision after every step to read values again, keep or drop them, over a list
of items with boxes, and the step that reads, counts and installs the coverage. `WatchRuns.dfy` states
over whole runs when the cache may be believed. What the graphics card delivers and how the shader changes values are inputs under two named assumptions
(`Faithful`, `Announced`).

**The variable tree.** `VarExpand.dfy` expands arrays, structs, matrices and vectors and is about full
names and leaf counts. `VarTree.dfy` is the tree order by node number; `WatchTree.dfy` is watching and
unwatching, `VarFlags.dfy` and `VarScope.dfy` are changed flags, access paths and scopes. `VarForest.dfy`
grows the tree of a whole shader from the expansions and shows that it is as those modules assume.
`UniformStream.dfy` and `UniformValues.dfy` are the packed stream of uniform values, byte by byte from
the writer to the items that show the values.

**The session.** `RemoteMemory.dfy` and `ShaderStepMemory.dfy` are both ends of allocating, copying,
stepping and freeing memory in the debugged process. `DebugSession.dfy` is the main window's run
levels: what is saved, redirected, recorded and restored. It refines `CallFlow.dfy`, a state machine of what
becomes of every call of the program.

**Smaller algorithms.** `CommentScan.dfy` (comments in the editor), `TraceRing.dfy` (the call trace),
`Selections.dfy` (selection lists of the vertex table), `LoopStatistics.dfy` (loop debugging) and
`Quaternions.dfy` (rotations over real numbers).

Methods are proved against specification functions. What such a function means is stated beside it on the
data themselves, with literal names, numbers and index arithmetic (`VectorParts`, `SwizzleRoundTrip`,
`AfterClick`, `CurrentRow`, `CodesOfShapes` and others), so that nothing rests on a name alone.

Where a promise does not hold for the code as it is, the code is modelled as it is and the exact
condition is proved:

- Full names are unique exactly if no vector with more than five components is expanded
  (`NamesDistinctIff`). The cells of a matrix keep the size of the matrix and are expanded as vectors
  (`WideIff`), so it depends on the compiler whether a matrix has items with equal names (`MatrixNames`).
  The native compiler, which the default build uses, gives a matrix the size 1
  (GLSLCompiler/glslang/Include/Types.h:109-116), and all names differ. The Mesa compiler, which
  the option `USE_MESA` selects (CMakeLists.txt:4), gives it the number of its cells
  (mesa-glsl/interface/Variable.cpp:526), and every matrix with more than five cells repeats names;
  there a matrix also has more leaves than cells (`MatrixLeaves`).
- Counting covered pixels misses coverage that moves (`CompleteIff`, `MovedCoverage`).
- A variable may be watched exactly if it is live, or its scope never changes, or no pixel is covered;
  otherwise the cache can show a wrong value later (`WatchSafeIff`, `WatchedTooEarly`). Only uniforms
  that the user declared can reach the failing case. The list of all variables does not offer watching
  (glsldb/shVarModel.cpp:1568-1571), the list of the scope shows live variables only
  (glsldb/shVarModel.cpp:1676-1696), and the scope of built-in variables never changes; but the list of uniforms
  shows them whatever their scope is (glsldb/shVarModel.cpp:1713-1731).
- A program that ends while calls are recorded takes them with it; they are finished and never executed. This
  happens exactly if it is killed in a debug run or while one begins, or if the draw call is its last call
  (`LostInSession`). Otherwise calls are executed once and in order, over every run (`AlwaysInOrder`).
- A refused debug target leads to the restart level without a save, and nothing else spoils the pairing of
  saves and restores (`Handle`).
- These results take events one at a time. A step handles events in its own loop, and when it returns it sets
  the step mode (glsldb/mainWindow.cpp:856-869). After a pause and a click on the shader button in one batch it
  leaves the debug run with everything saved and the draw call recorded (`OnStepReturns`, `ReturnedIff`). A
  recording that is left over in this way is lost with the program or with the next recording
  (`LeftoverIsLost`), or executed behind later calls if the next target is refused (`LateBegin`, `TooLate`).
- A reset of the watched values reads back variables in scope only, and a variable on the stack loses its
  data (`CompleteLiveIff`).
- A refused image leaves its readback buffer in the debuggee, and an unknown primitive mode leaves the
  shader texts there (`ShaderStepFragment`, `ShaderStepVertex`).
- The comment in `unsetItemWatched` says that the last item is the one to unwatch; it is a leaf below
  it, and the climb is right all the same (`UnsetItemWatched`).

The code that handles a recording interrupted between `glBegin` and `glEnd` is modelled and cannot be
reached. The shader button is enabled on debuggable calls only (glsldb/mainWindow.cpp:3296-3305), and `glBegin`
is commented out of the table of these calls (glsldb/DebugLib/generator/FunctionList.pl:42-43), so a recording
takes one call and no pause interrupts it (`TableMarks`, `OneCall`). `LeftoverIff` and `PausedBlockIsLost` say
what would happen if `glBegin` were put back.

The built-in flag reaches all items of a built-in variable exactly if no member of its struct is an array
or a struct (`BuiltInIff`). The built-in structs of both compilers have only scalar and vector members
(GLSLCompiler/glslang/MachineIndependent/Initialize.cpp:1949-2041,
mesa-glsl/mesa/glsl/builtin_types.cpp:56-115), so their flag is kept everywhere (`PlainBuiltIns`).

Verify with `dafny verify dfyconfig.toml`.

## Model

| member | source | states |
|---|---|---|
| `GeoStream.GeoShaderDataModel.constructor` | glsldb/geoShaderDataModel.cpp:74-185 | the nested loops over the two float maps build the model that the specification `Read` gives, and need a slot behind the map exactly when `Read` has no result |
| `GeoStream.GeoShaderDataModel.ReadInPrim` | glsldb/geoShaderDataModel.cpp:100-184 | one turn of the outer loop takes all records with the id of the open input primitive and stops in front of the first other id |
| `GeoStream.GeoShaderDataModel.HangBlock` | glsldb/geoShaderDataModel.cpp:118-180 | one record adds its block below the open primitive, as a sub-primitive for non-basic types, and advances the shared cursor |
| `GeoStream.WalkBlock` | glsldb/geoShaderDataModel.cpp:134-180 | the inner loops give the output primitives, the vertex count and the next slot of the block, or report the read past the end; with a condition the items are counted and not shown |
| `GeoRoundTrip.RoundTrip` | glsldb/geoShaderDataModel.cpp:74-185 | decoding undoes encoding: for every valid scene the decoder rebuilds exactly the tree of the scene with its counters, for both kinds of types and with or without a condition, and stops right behind the last slot |
| `GeoRoundTrip.DecodeScene` | glsldb/geoShaderDataModel.cpp:74-185 | the constructor on the floats themselves: strip and vertex index are the first two components of a slot, vertex count and input id the first and third of a record, fractions drop towards zero, and the twelve whole primitive types are given by number; the model is that of the scene, whatever follows behind it |
| `GeoStream.Truncate` | glsldb/geoShaderDataModel.cpp:134-137 | the cast gives the whole part of a number, towards zero |
| `GeoRoundTrip.BlockDecodes` | glsldb/geoShaderDataModel.cpp:134-180 | a block that ends on a new vertex decodes to its strips and to nothing else |
| `GeoRoundTrip.NotYetAll` | glsldb/geoShaderDataModel.cpp:147-179 | the vertex count of the record is reached at the last slot of the block and not earlier |
| `GeoRoundTrip.RunningMaximum` | glsldb/geoShaderDataModel.cpp:138-161 | the running maximum lets a slot through if and only if its index exceeds all earlier ones of the strip |
| `GeoExactness.ReadsInsideIffEncoded` | glsldb/geoShaderDataModel.cpp:100-184 | the decoder stays inside the primitive map if and only if the maps are an encoding of valid blocks; a negative count works like 1 |
| `GeoExactness.ParseFrom` | glsldb/geoShaderDataModel.cpp:147-179 | what a successful walk has consumed is the encoding of a block with exactly the demanded number of vertices |
| `GeoExactness.OneLeafPerVertex` | glsldb/geoShaderDataModel.cpp:148-162 | where vertices first appear in increasing order, a strip gets one leaf per vertex |
| `GeoExactness.LeafIsFirstOccurrence` | glsldb/geoShaderDataModel.cpp:151-161 | a leaf holds the flat position of the first occurrence of its vertex and its number in the block |
| `GeoExactness.Bookkeeping` | glsldb/geoShaderDataModel.cpp:82-184 | on every input read to the end: input primitives number the maximal runs of equal ids, sub-primitives the records of non-basic types, output primitives those of the tree, vertices the leaves and the sum of what the records announce, and leaf positions strictly increase in tree order |
| `GeoExactness.ConditionOnlyHides` | glsldb/geoShaderDataModel.cpp:142-176 | with a condition the cursor and all counters are those of the full tree, which has no leaves |
| `PixelBoxes.PixelBox.constructor` | glsldb/pixelBox.inl.h:48-90 | image and coverage are copied; without an image the data is zero, without a coverage all of it is used |
| `PixelBoxes.PixelBox.AddPixelBox` | glsldb/pixelBox.inl.h:356-394 | a box of the same shape is merged pixel by pixel: every channel comes from the other box where that knows the pixel, and what either knew is known; another shape changes nothing |
| `PixelBoxes.PixelBox.CopyKnown` | glsldb/pixelBox.inl.h:373-389 | the pointer walk over all channels puts every entry where the merge demands it |
| `PixelBoxes.MergedTexels` | glsldb/pixelBox.inl.h:373-389 | the flat merge is the merge of the boxes, texel by texel |
| `PixelBoxes.PixelBox.GetCoverageFromData` | glsldb/pixelBox.inl.h:396-427 | a fresh map of the pixels whose first channel is above one half, and the cardinality of their set |
| `PixelBoxes.PixelBox.InvalidateData` | glsldb/pixelBox.inl.h:606-618 | nothing is known afterwards, and the texels stay |
| `PixelBoxes.PixelBox.GetDataValue` | glsldb/pixelBox.inl.h:631-644 | for pixel (x, y) it succeeds exactly if entry y * width + x of the coverage and of the data map is set, and then gives the channels that stand from there on in the data |
| `PixelBoxes.PixelBox.IsAllDataAvailable` | glsldb/pixelBox.cpp:55-80 | true exactly when every covered pixel is known |
| `WatchCache.UpdateWatchItemData` | glsldb/mainWindow.cpp:1646-1669 | the first readback gives the item a box of its own under the current coverage, a later one is merged into it |
| `WatchCache.UpdateItem` | glsldb/mainWindow.cpp:1769-1800 | the box of an item becomes what the order of the conditions (forced, changed, entered, left, grown) demands |
| `WatchCache.UpdateWatchListData` | glsldb/mainWindow.cpp:1753-1807 | every item of the list gets the box it should hold, whatever the other items do |
| `WatchCache.UpdateWatchItemsCoverage` | glsldb/mainWindow.cpp:1819-1846 | every box gets the new coverage map and keeps its values |
| `WatchCache.ShaderStep` | glsldb/mainWindow.cpp:1915-2011 | the fragment part of a step: the coverage is read from its image and counted, and every item of the list gets the box that a step of `WatchRuns` gives it |
| `WatchRuns.HonestStep` | glsldb/mainWindow.cpp:1769-1800 | a full step keeps every known value of a live variable true, and forgets the values of a variable that leaves scope |
| `WatchRuns.NeverLies` | glsldb/mainWindow.cpp:1753-1876 | over every run of steps, watches, unwatches and resets: a value shown at a pixel is the value the variable has there now |
| `WatchRuns.CompleteIff` | glsldb/mainWindow.cpp:1784-1798 | after a step a variable in scope or on the stack has data for all covered pixels if and only if the step triggered a readback, the count grew, or the new coverage lies within what was known |
| `WatchRuns.AlwaysComplete` | glsldb/mainWindow.cpp:1929-1936 | if successive coverage maps are comparable, counting covered pixels is enough: the data of variables in scope is complete after every event of every run |
| `WatchRuns.CompleteLiveIff` | glsldb/mainWindow.cpp:1848-1876 | for variables on the stack, too, completeness is kept by exactly the events that are no reset of a variable on the stack and no unannounced step onto the stack without more coverage |
| `WatchRuns.AlwaysCompleteLive` | glsldb/mainWindow.cpp:1848-1936 | over runs without such events live variables are complete |
| `WatchRuns.MovedCoverage` | glsldb/mainWindow.cpp:1929-1936 | a run in which coverage moves to another pixel with equal counts leaves a variable in scope without data |
| `WatchRuns.WatchedTooEarly` | glsldb/mainWindow.cpp:1646-1669 | for every variable that is not live, can become live and has a covered pixel: a first readback and two legal steps after which that pixel shows a wrong value |
| `WatchRuns.WatchSafeIff` | glsldb/mainWindow.cpp:1753-1807 | no first readback and no legal continuation makes the cache lie if and only if the variable is live, or its scope never changes, or no pixel is covered |
| `VarScope.ScopeHistory` | glsldb/shVarModel.cpp:605-646 | the scope after any history in closed form: first listed step, later listed steps, stack, and the parity of the absent run |
| `VarScope.OutOnlyAfterLeft` | glsldb/shVarModel.cpp:638-643 | out of scope is entered only from left scope |
| `VarFlags.ScopeOverRun` | glsldb/shVarModel.cpp:605-646 | over any run every part of a variable that is not built in has the scope of the closed form for its variable |
| `VarFlags.ShVarFlags.SetScope` | glsldb/shVarModel.cpp:605-646 | every variable takes its next scope with everything below it, built-in ones keep theirs, and one scope per variable is kept |
| `VarFlags.ShVarFlags.StepScope` | glsldb/shVarModel.cpp:606-645 | the branches for one variable change its subtree and nothing else |
| `VarFlags.ShVarFlags.SetChanged` | glsldb/shVarModel.cpp:544-603 | the flags are exactly the union over the entries of the change list |
| `VarFlags.ShVarFlags.FlagPath` | glsldb/shVarModel.cpp:560-601 | following a path flags the nodes on it and the subtree it ends on; index -1 ends early, a swizzle flags components |
| `VarFlags.ShVarFlags.SetRecursiveChanged` | glsldb/shVarModel.cpp:530-542 | the flags of the subtree are set, the others stay |
| `VarFlags.PathRoundTrip` | glsldb/shVarModel.cpp:126-149 | the access path of a node, sent back as a change, flags exactly the node, its ancestors and its descendants |
| `VarFlags.SwizzleRoundTrip` | glsldb/shVarModel.cpp:588-596 | a swizzle behind the path of a vector flags its ancestors, the vector and exactly the components whose bits are set, bit 0 being the first component |
| `VarFlags.AnyPart` | glsldb/shVarModel.cpp:566-570 | index -1 behind the path of a node flags what the path alone flags, whatever follows |
| `VarFlags.ChangedTogether` | glsldb/shVarModel.cpp:553-603 | a node is flagged if and only if some entry of the change list flags it |
| `VarFlags.ParentsAreFlagged` | glsldb/shVarModel.cpp:553-603 | for any well-formed change list the flags are closed under parents |
| `WatchTree.ShVarWatchList.SetItemWatched` | glsldb/shVarModel.cpp:1333-1367 | the list grows by the open, selectable, unlisted leaves below the node in tree order, they get the boxes that were read, and the marks stay closed |
| `WatchTree.ShVarWatchList.SetRecursiveWatched` | glsldb/shVarModel.cpp:1297-1309 | the node and its ancestors below the root are marked |
| `WatchTree.ShVarWatchList.UnsetItemWatched` | glsldb/shVarModel.cpp:1391-1454 | exactly the subtree leaves the list, in order, and loses its boxes, and the marks stay closed, although the climb starts at the leaf popped last |
| `WatchTree.WithoutConcat` | glsldb/shVarModel.cpp:1415-1432 | leaving the list goes entry by entry, and the other entries keep their order |
| `WatchTree.ShVarWatchList.UnsetRecursiveWatched` | glsldb/shVarModel.cpp:1369-1389 | the climb removes exactly the marks that have lost their last watched child |
| `WatchTree.PopAndPush` | glsldb/shVarModel.cpp:1399-1434 | one turn of the loop keeps the subtree split into processed nodes and nodes below the stack, and makes the stack lighter |
| `WatchTree.ClimbOn` | glsldb/shVarModel.cpp:1375-1388 | unmarking a node without watched children moves the gap to its parent |
| `WatchTree.MarkedIffListedBelow` | glsldb/shVarModel.cpp:1297-1454 | a node is marked if and only if a listed leaf lies below it |
| `WatchTree.WatchAllHolds` | glsldb/shVarModel.cpp:1333-1360 | watching appends without duplicates and adds exactly the leaves that are reached through selectable nodes |
| `WatchTree.WatchAllInOrder` | glsldb/shVarModel.cpp:1333-1360 | the entries that watching appends stand in tree order: of two, the first lies below an earlier child of a common ancestor |
| `WatchTree.ListedIffLastIsWatch` | glsldb/shVarModel.cpp:1333-1454 | over every run a leaf is listed, once, if and only if the last event that touches it is a watch |
| `VarExpand.AddShVariable` | glsldb/shVarModel.cpp:1104-1295 | the recursive insertion ends and builds the expansion, whose items are described by the rows `WholeVariable` to `MatrixParts` |
| `VarExpand.WholeVariable` | glsldb/shVarModel.cpp:1115-1225 | an item can be watched unless the variable is a sampler, and carries the flag of the variable or the forced one; the variable itself has its own name as short and full name and its id |
| `VarExpand.VectorParts` | glsldb/shVarModel.cpp:1142-1160 | the components of a vector are x, y, z and w behind a dot, later ones have no name; they are direct parts with their number |
| `VarExpand.ArrayParts` | glsldb/shVarModel.cpp:1119-1125 | element i of an array has the numeral of i in brackets behind the full name of the array, and is indirect part i |
| `VarExpand.GridParts` | glsldb/shVarModel.cpp:1226-1250 | element j of element i of an array of arrays has both numerals behind the full name |
| `VarExpand.MemberParts` | glsldb/shVarModel.cpp:1126-1130 | member k of a struct has the name of field k behind a dot, and is member part k |
| `VarExpand.ElementMembers` | glsldb/shVarModel.cpp:1226-1262 | a member of an element of an array of structs has the numeral and then the field name behind the full name |
| `VarExpand.MatrixParts` | glsldb/shVarModel.cpp:1131-1138 | cell (i, j) of a matrix stands at position i * columns + j, and carries both numerals and both indices in this order |
| `VarExpand.DecimalReads` | glsldb/shVarModel.cpp:1119-1138 | an index is written as its decimal numeral without leading zeros |
| `VarExpand.AddCells` | glsldb/shVarModel.cpp:1265-1279 | the double loop adds one item per matrix cell, row by row |
| `VarExpand.NamesDistinctIff` | glsldb/shVarModel.cpp:1115-1160 | with identifiers as field names, all items of a variable have different full names if and only if no vector with more than five components is expanded |
| `VarExpand.WideVectorRepeats` | glsldb/shVarModel.cpp:1142-1160 | components behind the fourth have no name of their own, so a wide vector repeats a full name |
| `VarExpand.WideIff` | glsldb/shVarModel.cpp:1226-1293 | below a variable that is no struct a wide vector is expanded if and only if the variable has a size above five and no empty dimension, since elements and cells keep its size |
| `VarExpand.MatrixNames` | glsldb/shVarModel.cpp:1265-1293 | the items of a matrix have different full names if and only if the compiler gives it a size of at most five |
| `VarExpand.NamesExtend` | glsldb/shVarModel.cpp:1115-1160 | every full name below an item extends the full name of the item by a segment |
| `VarExpand.LeafPerValue` | glsldb/shVarModel.cpp:1226-1293 | the number of leaves is the product of dimensions and vector sizes and the sum over the fields |
| `VarExpand.MatrixLeaves` | glsldb/shVarModel.cpp:1265-1293 | a matrix has one leaf per cell if and only if the compiler gives it a size of at most one |
| `VarExpand.BuiltInIff` | glsldb/shVarModel.cpp:1240-1292 | all items of a built-in variable carry the built-in flag if and only if no member of its struct is expanded as an array or a struct |
| `VarExpand.PlainBuiltIns` | glsldb/shVarModel.cpp:1240-1292 | all items of a built-in variable carry the flag when the members of its struct are scalars, vectors and matrices |
| `VarExpand.PartsArePlaced` | glsldb/shVarModel.cpp:1170-1191 | a part of a variable that is no matrix stands at the position its label says |
| `VarForest.GrownSound` | glsldb/shVarModel.cpp:1535-1545 | appending the items of all variables keeps a tree in which names grow downwards, parts stand where they say, and the variables have their own ids in order |
| `VarForest.TreeMirrors` | glsldb/shVarModel.cpp:1104-1295 | the tree shows the expansions of all variables, in order: every node has the full name, id, label and flags of its item and as many children |
| `VarForest.TreeIsLabelled` | glsldb/shVarModel.cpp:1104-1295 | the tree of any shader without matrices meets what the change flags and access paths assume |
| `VarForest.TreeNamesAreProper` | glsldb/shVarModel.cpp:1104-1295 | in the tree of any shader no item has the full name of an item above it, as storing uniform values assumes |
| `UniformStream.RoundTrip` | glsldb/shVarModel.cpp:770-788 | for any list of uniforms, parsing the serialized stream reads every record at its own offset, recovers name, shape and first-element values, and stops right behind the last record |
| `UniformStream.ParseRecord` | glsldb/shVarModel.cpp:770-1012 | one record anywhere in a stream parses to its uniform and advances by the length of the record |
| `UniformStream.RecordLayout` | glsldb/DebugLib/shader.c:1169-1188 | the fields of a record stand in this order: length of the name, name, type, array size, size of the value, value |
| `UniformStream.CodesOfShapes` | glsldb/shVarModel.cpp:798-1000 | a matrix type with r rows and c columns has these rows and columns, and vectors their size, for all twenty-five types by the order of their OpenGL codes |
| `UniformStream.SamplersAndSizes` | glsldb/shVarModel.cpp:798-1000 | exactly the codes of three ranges are known types; samplers are integers, and booleans take one byte |
| `UniformStream.SentIsHeld` | glsldb/DebugLib/shader.c:1169-1188 | what was serialized is what the stream holds, record behind record |
| `UniformStream.SerializeUniforms` | glsldb/DebugLib/shader.c:1145-1190 | the buffer is exactly the serialized stream: measuring and writing agree |
| `UniformStream.IntRoundTrip` | glsldb/shVarModel.cpp:776-786 | a 32-bit integer is read back as it was written, negative ones too |
| `UniformStream.IntWeights` | glsldb/DebugLib/shader.c:1169-1188 | the first byte of an integer weighs 1 and each further one 256 times the one before; negative numbers count from 2 to the 32 |
| `UniformStream.SizesAgree` | glsldb/DebugLib/shader.c:192-280 | the size table of the writer and the shapes of the reader agree on every type |
| `UniformStream.ToString` | glsldb/shVarModel.cpp:1014-1058 | the printing loops give the specified text, whose words are the values in the order in which they are stored |
| `UniformStream.WordsOfText` | glsldb/shVarModel.cpp:1014-1058 | taking brackets, commas and blanks off the text gives back every value, once and in order, for all shapes and array sizes |
| `UniformStream.VectorLayout` | glsldb/shVarModel.cpp:1014-1058 | a vector is printed as a list in brackets, separated by commas |
| `UniformStream.MatrixLayout` | glsldb/shVarModel.cpp:1014-1058 | a matrix is printed as a list in brackets of its rows, each of them a list in brackets |
| `UniformStream.TextJoined` | glsldb/shVarModel.cpp:1014-1058 | the elements of an array are separated by commas |
| `UniformStream.OnlyFirstElementKnown` | glsldb/shVarModel.cpp:1043-1051 | values of the first array element are printed from the stream, those of later elements as unknown |
| `UniformValues.UniformModel.SetUniformValues` | glsldb/shVarModel.cpp:1061-1077 | after the stream every item of an eligible variable holds the text of the last record with its full name, and other items keep theirs |
| `UniformValues.UniformModel.SetRecursiveUniformValues` | glsldb/shVarModel.cpp:1079-1094 | below a node exactly the items with the full name of the record get the text, although the search does not go below a match |
| `UniformValues.LastRecordCounts` | glsldb/shVarModel.cpp:1061-1077 | of several records with the name of an item the last one counts, and without any the item keeps its value |
| `RemoteMemory.Debuggee.AllocMem` | glsldb/DebugLib/memory.c:46-70 | either every block is allocated, fresh and of its size, or the heap is as before and the record holds the error |
| `RemoteMemory.Debuggee.RollBack` | glsldb/DebugLib/memory.c:57-65 | blocks allocated before the failure are freed, each once |
| `RemoteMemory.Debuggee.FreeMem` | glsldb/DebugLib/memory.c:72-87 | exactly the named blocks are freed, none twice, and null is ignored |
| `RemoteMemory.GrowOne` | glsldb/DebugLib/memory.c:57-69 | a further block at an unused address extends a growth of the heap that freeing the addresses undoes |
| `ShaderStepMemory.ProgramControl.SendShaders` | glsldb/progControl.cpp:1872-1886 | after success each given shader text stands in the debuggee with its terminating zero; after a failure the heap is as before |
| `ShaderStepMemory.ProgramControl.DbgCommandAllocMem` | glsldb/progControl.cpp:1209-1243 | fresh blocks of all the sizes asked for, or an error and an unchanged heap |
| `ShaderStepMemory.ProgramControl.DbgCommandFreeMem` | glsldb/progControl.cpp:1171-1207 | the addresses go through the record, and the heap returns to what it was |
| `ShaderStepMemory.ProgramControl.DbgCommandShaderStepFragment` | glsldb/progControl.cpp:1295-1348 | the readback buffer is freed unless the image is refused for its size or format; the step succeeds exactly otherwise |
| `ShaderStepMemory.ProgramControl.ShaderStepFragment` | glsldb/progControl.cpp:1859-1901 | for any shaders, allocation failures and step outcome the live blocks at return are those at entry, plus the buffer of a refused image; at the step the record names the blocks, each holding its text, and the parameters; nothing is freed twice |
| `ShaderStepMemory.ProgramControl.ShaderStepVertex` | glsldb/progControl.cpp:1903-1975 | as for fragment shaders; the shader texts stay behind exactly when they were sent and the primitive mode is unknown |
| `ShaderStepMemory.BaseModes` | glsldb/progControl.cpp:1924-1957 | points are points, five line modes are lines and ten modes of triangles, quads and polygons triangles, by number; no other mode is known |
| `ShaderStepMemory.RefusedIff` | glsldb/progControl.cpp:1316-1334 | an image is accepted exactly if it has a positive width and height and holds floats, integers or unsigned integers |
| `ShaderStepMemory.BesideBuffer` | glsldb/progControl.cpp:1319-1334 | a buffer that is not freed does not disturb freeing the shader texts |
| `CallFlow.AlwaysInOrder` | glsldb/mainWindow.cpp:844-942 | over every run of events, with no further hypothesis: calls are executed once and in the order of the program, with nothing inserted; none is lost while the program runs, and in the step mode none is waiting |
| `CallFlow.RegularAfter` | glsldb/mainWindow.cpp:2425-2500 | every event keeps the step mode free of recordings and the shader button on debuggable calls, overtakes nothing and interrupts no recording |
| `CallFlow.LostInSession` | glsldb/mainWindow.cpp:2331-2619 | in a session calls are lost by exactly the events that end the program while it is recorded: killed in a debug run or while one begins, or the draw call is its last call |
| `CallFlow.OneCall` | glsldb/mainWindow.cpp:2363-2423 | a recording begins at a debuggable call, so it takes that call alone and no pause interrupts it |
| `CallFlow.AfterClick` | glsldb/mainWindow.cpp:2457-2619 | what a click that sets the target makes of the level and of every call, by the compiler and the first step |
| `CallFlow.AfterNoTarget` | glsldb/mainWindow.cpp:2434-2479 | leaving a debug run and a refused target lead to the restart level, a critical error ends the program and loses what is recorded |
| `CallFlow.AfterShaderStep` | glsldb/mainWindow.cpp:1940-2075 | a step of the shader that fails leads to the restart level, one that ends the program loses what is recorded |
| `CallFlow.AfterSteps` | glsldb/mainWindow.cpp:844-910 | a step over several calls executes what is recorded and then the next calls one by one, at least one and at most those that are left |
| `CallFlow.AfterSkip` | glsldb/mainWindow.cpp:912-942 | skipping executes what is recorded, and finishes the current call without executing it |
| `CallFlow.AfterKill` | glsldb/mainWindow.cpp:584-650 | killing the program behind a debug run executes what is recorded first, in a debug run it is lost |
| `CallFlow.TableMarks` | glsldb/DebugLib/generator/FunctionList.pl:42-66 | the table of debuggable draw calls does not mark `glBegin` |
| `CallFlow.ReturnedIff` | glsldb/mainWindow.cpp:856-869 | a step that handled events in its loop and returns leaves a recording over in the step mode exactly when calls are recorded |
| `CallFlow.LeftoverIsLost` | glsldb/DebugLib/libglsldebug.c:789-794 | a recording that is left over is lost when the program is killed or another recording begins |
| `CallFlow.LateBegin` | glsldb/mainWindow.cpp:844-869 | from the start of a program, a step whose loop handles a pause and a click leaves draw call 2 recorded in the step mode |
| `CallFlow.TooLate` | glsldb/mainWindow.cpp:2458-2500 | from there, the draw call that was left over is executed behind a later call: the order is 0, 1, 3, 2, 4 |
| `CallFlow.AlwaysAccounted` | glsldb/mainWindow.cpp:3193-3707 | over any run of enabled events, from any state, every finished call is executed, recorded, lost or skipped, and has exactly one of these fates |
| `CallFlow.AccountedAfter` | glsldb/mainWindow.cpp:844-942 | no event from any state forgets a call or gives it two fates |
| `CallFlow.LostIff` | glsldb/mainWindow.cpp:2363-2619 | from every state, also one with a recording left over, exactly these events lose calls |
| `CallFlow.LeftoverIff` | glsldb/mainWindow.cpp:2366-2418 | for any marks of the calls, a pause on the `glEnd` of a block is the only event that would leave a recording over in the step mode; `RegularAfter` shows that it does not happen |
| `CallFlow.ConservedAfterIff` | glsldb/mainWindow.cpp:844-942 | from every state with all calls in order and none lost, also one with a recording left over, order and completeness are kept by exactly the events that do not execute or record calls in front of it |
| `CallFlow.ConservedIff` | glsldb/mainWindow.cpp:784-942 | being complete and in order is being accounted for and ordered |
| `CallFlow.AlwaysWhole` | glsldb/mainWindow.cpp:844-942 | from every such state, over any run that overtakes no left-over recording, calls are executed once and in order; `AlwaysInOrder` has no such hypothesis |
| `CallFlow.RanToEnd` | glsldb/mainWindow.cpp:844-942 | a program that steps or skips to its end has executed every call that was not skipped, in order |
| `CallFlow.OrderIff` | glsldb/mainWindow.cpp:3029-3065 | from every state, calls are executed in program order unless leaving the debug state executes recorded calls behind later ones |
| `CallFlow.LateIff` | glsldb/mainWindow.cpp:844-880 | from every state, recorded calls come to be late exactly when the program steps past a recording that a step has left over |
| `CallFlow.BlockEndsOnFirstEnd` | glsldb/mainWindow.cpp:2366-2378 | a recorded block ends on the first end behind its begin |
| `CallFlow.KeptInOrder` | glsldb/mainWindow.cpp:784-942 | the kept calls are the finished ones without the skipped ones, each once and in order |
| `DebugSession.MainWindow.Handle` | glsldb/mainWindow.cpp:3193-3707 | from every state: level and calls go on exactly as the state machine of `CallFlow` says, and calls that are complete and in order stay so; saves and restores that are paired stay paired if and only if no target is refused in the step mode; a start pairs again |
| `DebugSession.MainWindow.Session` | glsldb/mainWindow.cpp:3193-3707 | any events, each taken when its button is enabled, make a run of the state machine, at whose end every call is accounted for; calls stay in order, and pairing holds unless a target was refused |
| `DebugSession.MainWindow.OnShaderButton` | glsldb/mainWindow.cpp:2425-2619 | from every state the calls and the level go on as specified; when the target is set and the draw call is recorded, a missing compiler kills the program, a shader that does not compile leads to the restart level with the recording kept, and otherwise the first step decides among debug run, restart level and end; from a paired step mode pairing is kept if and only if the target is not refused, from other paired levels always |
| `DebugSession.MainWindow.RecordDrawCall` | glsldb/mainWindow.cpp:2363-2423 | an earlier recording is forgotten; then a whole draw call is recorded, or the program ends and its recorded calls are lost; for a `glBegin` also what a pause would do, each under its exact condition and with what is held afterwards |
| `DebugSession.MainWindow.RecordToEnd` | glsldb/mainWindow.cpp:2366-2376 | the loop records exactly the calls in front of the first end, unless the user pauses; without an end it records up to the end of the program, and those calls are lost |
| `DebugSession.MainWindow.BreakOff` | glsldb/mainWindow.cpp:2384-2413 | what the code does for a pause in front of a `glEnd`: one is inserted, the target of the shader shown then and the saved shader are given back, the recorded calls are executed, and the queries stay interrupted |
| `DebugSession.MainWindow.RecordCall` | glsldb/mainWindow.cpp:2331-2361 | the current call is recorded and finished and the next one becomes current, or the program ends and loses what was recorded |
| `DebugSession.MainWindow.LeaveDBGState` | glsldb/mainWindow.cpp:3029-3065 | from the restart level shader, queries and recording are given back, and the recorded calls are executed; from the step mode nothing happens |
| `DebugSession.MainWindow.CleanupDBGShader` | glsldb/mainWindow.cpp:3160-3174 | the render target is taken back from the stage that was debugged |
| `DebugSession.MainWindow.OnStep` | glsldb/mainWindow.cpp:844-910 | one or more calls are executed and finished in order, recorded ones first from the restart level, up to the end of the program at most |
| `DebugSession.MainWindow.OnStepReturns` | glsldb/mainWindow.cpp:856-869 | a step that handled events in its loop sets the step mode: pairing survives exactly if the events ended in the step mode, order exactly if nothing is recorded |
| `DebugSession.MainWindow.OnSkip` | glsldb/mainWindow.cpp:912-942 | exactly the current call is finished without being executed |
| `DebugSession.MainWindow.OnKill` | glsldb/mainWindow.cpp:584-650 | between debug runs the saved state is given back and the recorded calls are executed before the program is killed; from other levels what is recorded is lost with it |
| `CommentScan.HighlightBlock` | glsldb/glslSyntaxHighlighter.cpp:338-358 | the loop ends on every line and marks exactly the characters of comments; the state says whether a comment is open behind the line |
| `CommentScan.LineByLine` | glsldb/glslSyntaxHighlighter.cpp:336-358 | line by line with one carried bit marks exactly what one pass over the newline-joined document marks |
| `CommentScan.CarriedIsScanned` | glsldb/glslSyntaxHighlighter.cpp:338-347 | the carried bit is the state of the one pass at the beginning of the line |
| `CommentScan.Ending` | glsldb/glslSyntaxHighlighter.cpp:345-354 | a comment reaches up to its first end behind its start, which may overlap the start |
| `CommentScan.OneComment` | glsldb/glslSyntaxHighlighter.cpp:338-358 | in a text with one comment exactly the comment with its delimiters is marked, and none is open behind it |
| `CommentScan.OpenComment` | glsldb/glslSyntaxHighlighter.cpp:338-358 | a comment that does not end is marked to the end of the line and stays open |
| `TraceRing.GlTraceListModel.AddGlTraceItem` | glsldb/glTraceListModel.cpp:160-168 | the ring shows the end of the history with the new item |
| `TraceRing.GlTraceListModel.GetNextIndex` | glsldb/glTraceListModel.cpp:135-158 | room is made at the end, and the oldest item gives way in a full ring |
| `TraceRing.GlTraceListModel.SetCurrentGlTraceIconType` | glsldb/glTraceListModel.cpp:186-201 | with offset -1 only the newest item changes, and nothing in an empty trace |
| `TraceRing.GlTraceListModel.SetCurrentGlTraceText` | glsldb/glTraceListModel.cpp:203-218 | with offset -1 only the newest item changes, and nothing in an empty trace |
| `TraceRing.GlTraceListModel.IsCurrentCall` | glsldb/glTraceListModel.cpp:265-273 | holds for the last row only |
| `TraceRing.GlTraceListModel.Traverse` | glsldb/glTraceListModel.cpp:305-318 | writes the last items of the history, as many as the ring holds, oldest first |
| `TraceRing.LastItems` | glsldb/glTraceListModel.cpp:305-318 | the items that are shown are the newest ones, as many as the ring holds, counted from the end |
| `Selections.PackingRoundTrip` | glsldb/mappings.cpp:40-58 | packing and unpacking a mapping undo each other, both ways |
| `Selections.PackedAs` | glsldb/mappings.cpp:40-58 | the packed number is four times the column plus the code of the type |
| `Selections.OptionAt` | glsldb/watchTable.cpp:411-424 | entry 0 is off, and entry k stands for column k - 1 |
| `Selections.ComboBox.DelMappingOption` | glsldb/watchTable.cpp:426-475 | the list offers the remaining columns in order, and the selection moves with its column or goes to off |
| `Selections.WatchTable.AttachVpData` | glsldb/watchTable.cpp:333-367 | a new box gets a column and an entry in every list, an old one nothing; what channels show stays |
| `Selections.WatchTable.DetachData` | glsldb/vertexTableModel.cpp:243-257 | the column goes away; each channel shows the box it showed, or is off if that box is gone |
| `LoopStatistics.LoopData.UpdateStatistic` | glsldb/loopData.cpp:102-167 | a row with the exact class counts is appended |
| `LoopStatistics.LoopData.AddLoopIteration` | glsldb/loopData.cpp:87-93 | every row of the table adds up to the pixels covered when the loop began |
| `LoopStatistics.LoopData.CurrentRow` | glsldb/loopData.cpp:134-156 | a row holds three cardinalities: active are the initially covered pixels that are covered with a condition above 0.75, done the other covered ones, out the rest of the initially covered |
| `LoopStatistics.ClassesAddUp` | glsldb/loopData.cpp:134-156 | active, done and out pixels are together the initially covered pixels |
| `LoopStatistics.LoopData.GetImage` | glsldb/loopData.cpp:220-264 | every pixel has the colour of its class |
| `LoopStatistics.PixelPainted` | glsldb/loopData.cpp:220-264 | pixel (x, y) is green, red or orange by the same conditions, and shows a checkerboard of 8 by 8 squares elsewhere |
| `LoopStatistics.ColoursCount` | glsldb/loopData.cpp:234-257 | green, red and orange pixels number exactly active, done and out |
| `Quaternions.RotatesByConjugation` | glsldb/mmath.c:229-247 | the rotation formula is the product with the quaternion on one side and its conjugate on the other |
| `Quaternions.ProductRotatesTwice` | glsldb/mmath.c:162-172 | rotating by a product is rotating twice, for all quaternions |
| `Quaternions.NormScales` | glsldb/mmath.c:229-247 | the squared length of a rotated vector is scaled by the squared norm, so unit quaternions keep lengths |
| `Quaternions.Units` | glsldb/mmath.c:162-172 | the units multiply as i j = k, j k = i and k i = j, on every quaternion |

## Left out

- Widgets, painting, icons, dialogs, settings and file saving; the enabled buttons are kept as guards of events.
- Process control, shared memory, signals and the Windows port; a debug command is one atomic step of a debuggee that is alive, so commands that fail because the process is gone are not modelled.
- The shader compiler, the OpenGL driver and the generated hooks; their answers are inputs.
- Floating-point rounding and the conversion of huge floats to integers; floats are real numbers, and a conversion drops the fraction.
- GeoStream.GeoShaderDataModel.constructor: the tree items are values, not objects with parent links, and reading behind the map stops the model where the program would go on with whatever lies there.
- WatchCache.UpdateWatchItemData: the branches for vertex and geometry shaders, which merge vertex boxes, and a readback that fails.
- WatchCache.ShaderStep: the compiler's part of the step, which sets scopes and change flags beforehand, steps that leave out the coverage or the watch list, and the branches for vertex and geometry shaders.
- WatchCache.UpdateWatchListData: readbacks succeed and keep their dimensions, and an error that ends debugging in the middle of the list is not modelled.
- WatchRuns.NeverLies: fast loop steps that skip the watch or coverage update are not events of a run, and vertex boxes, whose getter ignores the data map, are not covered.
- VarFlags.PathRoundTrip: parts of matrices are not covered; the code looks for the second index on the parent item instead of the matrix cell.
- VarFlags.ShVarFlags.SetScope: variables with built-in parts below a variable that is not built in are excluded, because then one variable has no single scope to begin with.
- VarTree, WatchTree and VarFlags keep the items by node number in sequences instead of as linked objects; the signals to views and the proxy filter are not modelled.
- VarForest.GrownSound: the source appends an item to its parent before it expands it; the model expands a variable first and then appends its items in that order.
- VarExpand.AddShVariable: an item carries names, labels and flags; type strings, qualifiers and sampler types beyond selectability are not modelled.
- UniformStream.RoundTrip: uniforms have at least one array element, as drivers report; with none the reader would read into the next record.
- UniformStream.ToString: how a single number is printed is a parameter; that words can be told apart assumes that numbers are printed without brackets, commas and blanks.
- ShaderStepMemory.ProgramControl.DbgCommandAllocMem: more sizes than a record has items, on which the debugger exits; the same for freeing.
- ShaderStepMemory.ProgramControl.ShaderStepFragment: the copy of the image into the debugger is not modelled, only the memory of the debuggee.
- DebugSession.MainWindow.Handle: commands other than setting the target succeed, other buttons pressed while a `glBegin` block is recorded are not modelled except pause, and jumps and runs are steps over several calls.
- DebugSession.MainWindow.OnStepReturns: that such a return comes only behind a step, a pause and the events handled in its loop is not tracked; the loops of jumps and runs return in the same way.
- Minimum and maximum of pixel boxes, colour mapping of values, scatter buffers and statistics of calls.
- TraceRing.GlTraceListModel.SetCurrentGlTraceIconType: only the offset -1 that the program uses.
- Selections.WatchTable.DetachData: range mappings and the redraw of a channel are not modelled.
- LoopStatistics.LoopData.AddLoopIteration: iterations with changed dimensions and the vertex variant.
- Quaternion normalisation, angles and the 4 by 4 matrix routines.
- Other formats of the syntax highlighter; comments overwrite them.
