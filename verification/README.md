# Verified models of the syntax tree, drawing, network and runtime-state code

This project models parts of nine C files and proves what their comments, documentation and callers rely on.
`dafny verify dfyconfig.toml` checks all of it.

**Syntax trees** (`src/ast/ast.c`). `AstGraph` holds the heap node and snapshots of sets of nodes, so that lemmas need
no heap. `AstCopy` is the memoised copy of a shared, possibly cyclic graph and `AstVisit` the order in which it goes
through the graph; `AstLinks` is the parent-link check and the exact condition under which a copy passes it; `AstFree`
is the walk that frees a tree and the teardown of the type table, as a list of released objects in order; `AstOwner`
says by the owners of the nodes which graphs that is safe for, `AstTearDown` applies it to the walk, the teardown and a
whole shutdown (with the loop of `src/core/utils.c` that frees definitions first), and `AstLinkedFree` to trees whose
parent links are in order; `AstCopyFree` compares freeing a copy with freeing its original. `Json`, `AstJson` and
`AstJsonPrinter` are the JSON dump, read back by a parser of RFC 8259, and `AstJsonFields` looks its fields up by name.

**Drawing** (`src/backend_ast/graphics_3d_backend_ios.c`, `src/backend_ast/sdl.c`). `MetalQueue` is the per-frame batch
queue, `PrimitiveAssembly` and `LineAssembly` are the back ends that cut triangles and lines out of vertices,
`PrimitiveShapes` compares quad strips and polygons with what is drawn for them, `IndexCompaction` is the remap behind the indexed path, `DisplayList` is recording and replay, `LineRaster` and
`CircleRaster` are the two integer rasterisers.

**Network and host** (`src/backend_ast/builtin_network_api.c`, `src/backend_ast/pscal_ext_api.c`,
`plugins/sqlite/sqlite_ext_plugin.c`, `src/common/env_snapshot.c`, `src/common/net_snapshot.c`). `HttpSession` is the
session table and `HttpRuns` every interleaving of its steps; `PercentCoding`, `Base64` and `DataUrl` are the decoders;
`HandleTable` and `SqlitePlugin` are the handle allocator and the owner cascade on top of it; `EnvSnapshot` is saving
and restoring the environment; `NetPrefix`, `NetNumber`, `NetRoutes` and `AddressOrder` build the route table, and
`NetMessages` is the layout of the messages it is read from; `KeyQueue` is the key ring with its UTF-8 decoder.

Conventions. Code that works step by step is a method, over a class or an array where the source has one, and is proved
against a specification function; the lemmas are about that function, and say what it means by fields, bytes and numbers. Bytes are integers from 0 to 255; shifts and masks
are written as multiplication, division and remainder. A C string is the sequence of its bytes before the terminator;
the lemmas about texts that an encoder writes say when these hold no zero byte, and others admit sequences that do.
Allocation is assumed to succeed and integers are unbounded, except that the session generation wraps at 2^32.

Five places where the code does not do what is said of it, each stated with the exact condition or a concrete case:

- The comment at `src/ast/ast.c:551-565` says that a subtree reachable by two paths within one tree reads a live flag.
  It does so only for a node that is still being walked. A node that is both the left and the right operand is used
  after its release (`AstFree.SharedOperandFails`). The walk is safe exactly when every node it reaches has one owner,
  which calls it once, and all other calls go to ancestors or to nodes the type table names, with no unit list shared
  (`AstTearDown.WalkSafeIffOwned`, for the teardown `AstTearDown.TearDownSafeIffOwned`); in a tree whose parent links
  are in order, exactly when no node calls another twice and no unit list is shared (`AstLinkedFree.LinkedWalkSafeIff`).
- A copy of a tree that passes the link check fails it if a type reference has a right edge, because the copy keeps that
  edge (`AstLinks.CopyPassesIff`, run as one in `AstLinks.VerifyThenCopy`, with a case in
  `AstLinks.SharedRightCopyFails`).
- `src/backend_ast/builtin_network_api.c:812-813` says that a result never lands on a reused slot. It can once the
  32-bit counter has wrapped (`HttpRuns.WrappedGenerationAccepts`); `HttpRuns.AcceptedIffCongruent` is exact for every
  run, `HttpRuns.AcceptedIffStillHeld` for those before the wrap.
- A display list replays a block that immediate mode abandoned, and does not replay vertices that immediate mode took in
  after an empty block (`DisplayList.AbandonedBlockReplays`, `DisplayList.StrayVerticesAreNotReplayed`);
  `DisplayList.FaithfulIff` says exactly when the two agree for vertices that can be told apart. For others these
  conditions suffice (`DisplayList.CleanRunIsFaithful`) but are not necessary: the two causes can make up for each other
  (`DisplayList.CausesCancel`); with one cause absent, absence of the other is again necessary.
- The comment at `src/backend_ast/graphics_3d_backend_ios.c:1823` says that quad strips and polygons make the same shape
  as strips and fans. A quad strip does exactly for an even number of vertices, or a single one; with an odd number a
  triangle is drawn that belongs to no quad (`PrimitiveShapes.QuadStripIff`).

## Model

| member | source | states |
|---|---|---|
| AstCopy.CopyAST | src/ast/ast.c:2041-2196 | for every finite graph, shared or cyclic, the copy ends; the memo maps everything reachable onto fresh nodes, the originals are unchanged, and the graph of the copies satisfies `CopiedGraph`: one-to-one, scalar fields equal except `is_exported`, every followed edge and child mapped, a type reference keeping its right edge, parents taken from a copied edge; where several edges lead to one node its copy has the parent that was linked last; and the order in which the graph is gone through decides which type definitions are translated |
| AstCopy.CopyContext.Lookup | src/ast/ast.c:2041-2049 | the linear search over the memo answers the recorded copy, or null if there is none |
| AstCopy.CopyContext.Register | src/ast/ast.c:2051-2066 | one more pair is recorded, the other pairs stay |
| AstCopy.CopyRecursive | src/ast/ast.c:2074-2188 | from any state of the memo the recursion extends it to everything the node leads to, completes every copy it starts and leaves finished copies as they were |
| AstCopy.FillCopy | src/ast/ast.c:2104-2183 | single edges, type definition and children of one copy are filled while other copies are in progress |
| AstCopy.ResolveTypeDef | src/ast/ast.c:2142-2149 | the copied type definition is the copied right edge if it is the right edge, else the copy if that has been started and the original if it has not |
| AstCopy.TypeDefStays | src/ast/ast.c:2104-2149 | in the finished copy a type definition points into the original exactly if it is the right edge of a type reference, or no right edge and not among the nodes that the copy, in its own order, came to before the single edges were stored; otherwise it is translated |
| AstCopy.CopyChildren | src/ast/ast.c:2151-2183 | child i of the copy is the copy of child i, with its parent link set |
| AstCopy.CopyFinished | src/ast/ast.c:2190-2196 | when the recursion returns to the top nothing is left in progress: the whole memo is a copied graph |
| AstVisit.LinksAreEdges | src/ast/ast.c:2126-2180 | the parent links that a copy makes are the edges it follows out of the nodes it comes to, all of them and no other |
| AstLinks.VerifyASTLinks | src/ast/ast.c:2198-2229 | on an acyclic graph the check answers whether every node below has the node that leads to it as its parent, and the root the expected one |
| AstLinks.LinksOkStep | src/ast/ast.c:2206-2228 | the recursion of the check agrees with the statement about all nodes below |
| AstLinks.CopyPassesIff | src/ast/ast.c:2131-2229 | if the original passes, the copy passes with parent NULL if and only if no type reference has a right edge |
| AstLinks.CopiesRanked | src/ast/ast.c:2074-2229 | originals and copies together are acyclic if the original is, so the check of the copy ends |
| AstLinks.VerifyCopy | src/ast/ast.c:2131-2229 | the check run on the copy answers exactly that |
| AstLinks.VerifyThenCopy | src/ast/ast.c:2041-2229 | one run on an acyclic tree: check, copy, check of the copy; if the tree passes, its copy does if and only if no type reference has a right edge |
| AstLinks.SharedRightCopyFails | src/ast/ast.c:2131-2138 | a type reference with a right edge of its own, linked both ways, passes and its copy fails: both occur together |
| AstFree.FreeAST | src/ast/ast.c:551-649 | whenever the walk is defined, that is, touches nothing released, it releases the nodes reached over left edges except of type declarations, right edges except of type references, extra edges and children, around ancestors and the nodes the table names, with the unit lists of the uses clauses among them, and nothing else; a node comes behind all it leads to, its unit list just before it |
| AstFree.CallsIff | src/ast/ast.c:612-633 | the walk calls itself on exactly those targets, also where a skipped edge and a child name one node |
| AstFree.CallsInOrder | src/ast/ast.c:612-633 | in order: left, right, extra, then the children |
| AstFree.FreeChildren | src/ast/ast.c:617-633 | children are walked in order unless a walked single edge already led to them |
| AstFree.TypeTable.IsNodeInTypeTable | src/ast/ast.c:11-25 | the guard answers whether a live entry names the node |
| AstFree.SharedOperandFails | src/ast/ast.c:551-565 | a node that is both operands of its parent is used after its release |
| AstFree.WalkedChildSkipped | src/ast/ast.c:617-628 | a child is called exactly if no walked single edge leads to it |
| AstFree.RootsReleased | src/ast/ast.c:2236-2257 | every root that an entry names is released |
| AstFree.TraceClosed | src/ast/ast.c:584-649 | with a released node everything it owns is released, up to ancestors and roots still in the table |
| AstFree.TearDownLeaksNothing | src/ast/ast.c:2231-2262 | over the whole teardown nothing owned by a released node is left |
| AstFree.FreeDefinitions | src/core/utils.c:3699-3739 | roots freed one after the other while the table stands release what the specification of their walks lists |
| AstFree.FreeTypeTableASTNodes | src/ast/ast.c:2231-2262 | whatever was released before, as long as no entry names it: if nothing would be released twice the loop over the entries adds exactly the list of the teardown and leaves no entry |
| AstOwner.SafeIffOwned | src/ast/ast.c:551-649 | any sequence of calls from outside, under any tables and after any releases, releases nothing twice if and only if each node reached has one owner that calls it once or is a root, every other call goes to an ancestor or to a node the table names, no unit list is shared, and nothing owned was released before |
| AstOwner.OwnedIsReleased | src/ast/ast.c:584-649 | then the nodes released are all that have an owner, with their unit lists, and no others |
| AstTearDown.WalkSafeIffOwned | src/ast/ast.c:551-565 | the walk from a node touches nothing released if and only if such owners exist, which is less than the comment says |
| AstTearDown.TearDownSafeIffOwned | src/ast/ast.c:2231-2262 | so does the teardown, each entry protecting what it names until its turn, although several may name one root and an earlier tree may reach a later root |
| AstTearDown.ShutdownSafeIffOwned | src/core/utils.c:3699-3755 | so do definitions freed one by one followed by the teardown |
| AstTearDown.NoCallIntoReleasedRoot | src/ast/ast.c:2245-2256 | then no tree reaches a root whose last naming entry has been processed, except below that root itself |
| AstTearDown.ShutDown | src/core/utils.c:3699-3755 | the two loops together, after any earlier releases: given owners, every owned node and its unit list is released, each once and in order, and nothing else; every definition and every node the table named is among them, and with a node all that its edges lead to |
| AstTearDown.ShutdownIsWhole | src/core/utils.c:3699-3755 | no leak over definitions and teardown together: the roots are released, and with a released node all that its edges lead to |
| AstLinkedFree.LinkedWalkSafeIff | src/ast/ast.c:551-649 | where the parent links are in order a walk is safe if and only if no node it comes to calls an unprotected node twice and no two of them share a unit list |
| AstLinkedFree.LoweredCallOnce | src/ast/ast.c:589-599 | a lowered method call, its receiver being the left edge and the first child, calls the receiver once and then each argument |
| AstCopyFree.CallsOfCopy | src/ast/ast.c:2074-2188 | freeing a copy calls itself on the copies of what freeing the original calls itself on, in the same order |
| AstCopyFree.CopyTrace | src/ast/ast.c:584-649 | what freeing the copy releases is, object by object, the image of what walking the original would release |
| AstCopyFree.CopyFreeableIff | src/ast/ast.c:551-649 | freeing the copy is safe if and only if walking the original is |
| AstCopyFree.CopyReleasesNoOriginal | src/ast/ast.c:2104-2111 | freeing the copy releases no original node, although type references of the copy point at originals |
| AstCopyFree.CopyThenFree | src/ast/ast.c:551-649 | a tree copied and its copy freed: the originals are unchanged, and what is released are the images of what walking the original would release |
| AstCopyFree.BothFreeableIff | src/ast/ast.c:2095 | copy and original can both be freed if and only if the original can and no unit list hangs below it |
| Json.ObjectDenotes | src/ast/ast.c:2314-2483 | members with whitespace anywhere between the tokens parse as one object (sections 2 and 4 of RFC 8259) |
| Json.ArrayDenotes | src/ast/ast.c:2462-2471 | items likewise as one array (section 5) |
| Json.IntDenotes | src/ast/ast.c:2363-2367 | `%d` of any integer parses as that integer (section 6) |
| AstJson.EscapedReads | src/ast/ast.c:2267-2293 | reading an escaped string gives back the string, for every string (section 7) |
| AstJson.NodeDenotes | src/ast/ast.c:2314-2483 | the text of any node at any depth, whatever follows it, parses as the object of its fields |
| AstJson.DumpParses | src/ast/ast.c:2305-2312 | the whole dump of any tree parses as one value, and its fields are those of the tree |
| AstJsonFields.NodeShown | src/ast/ast.c:2314-2483 | looking the fields of the object up by their names finds, down to the leaves, the types, the token, the attributes and the edges of each kind of node, in the order of the dump, each once, and no other field |
| AstJsonFields.DumpShows | src/ast/ast.c:2305-2312 | so does parsing the dump of any tree |
| AstJsonPrinter.EscapeJSONString | src/ast/ast.c:2267-2293 | the loop writes the escaped string in quotes, or null |
| AstJsonPrinter.PrintCommon | src/ast/ast.c:2326-2372 | with the comma flag, the common fields are written in order |
| AstJsonPrinter.PrintStructure | src/ast/ast.c:2376-2472 | the fields of each kind of node are written in order |
| AstJsonPrinter.PrintItems | src/ast/ast.c:2390-2399 | in a list a comma stands behind every item but the last |
| AstJsonPrinter.PrintUnitItems | src/ast/ast.c:2429-2437 | in the list of units it stands in front of every item but the first |
| AstJsonPrinter.DumpNode | src/ast/ast.c:2314-2483 | what is written is the text the lemmas are about |
| AstJsonPrinter.DumpASTJSON | src/ast/ast.c:2305-2312 | what is written parses as an object whose fields, looked up by name at every depth, are those of the tree |
| LineRaster.DrawLineSegment | src/backend_ast/graphics_3d_backend_ios.c:1078-1108 | in every octant the loop draws max(dx, abs dy) + 1 pixels, the i-th being the point nearest to the ideal line at step i |
| LineRaster.ReachedStep | src/backend_ast/graphics_3d_backend_ios.c:1098-1107 | each round advances the longer axis by one and keeps err = dx (y + 1) - abs dy (x + 1) |
| LineRaster.LineEnds | src/backend_ast/graphics_3d_backend_ios.c:1078-1108 | the first pixel is one end and the last the other |
| LineRaster.LineNeighbours | src/backend_ast/graphics_3d_backend_ios.c:1098-1107 | consecutive pixels are neighbours |
| LineRaster.LineWithinHalf | src/backend_ast/graphics_3d_backend_ios.c:1098-1107 | each pixel is within half a pixel of the ideal line on the shorter axis, the further one if the line runs half-way between two; no other pixel is |
| MetalQueue.MetalQueue.QueueDraw | src/backend_ast/graphics_3d_backend_ios.c:354-401 | the frame to be drawn becomes the old one with the draw coalesced into it, also when the vertices were built in place behind the queue |
| MetalQueue.MetalQueue.EnsureVertexCapacity | src/backend_ast/graphics_3d_backend_ios.c:300-316 | growing keeps what is queued |
| MetalQueue.MetalQueue.Flush | src/backend_ast/graphics_3d_backend_ios.c:403-428 | the commands are drawn in order until one is refused; afterwards the queue is empty |
| MetalQueue.CoalesceDrawsTheSame | src/backend_ast/graphics_3d_backend_ios.c:378-387 | merging a draw into an aligned batch changes no primitive and no state |
| MetalQueue.BatchingDrawsTheSame | src/backend_ast/graphics_3d_backend_ios.c:336-428 | over any sequence of aligned draws the batches draw what drawing one by one would |
| MetalQueue.BatchesAreMaximal | src/backend_ast/graphics_3d_backend_ios.c:378-387 | no two neighbouring batches could have been merged |
| MetalQueue.UnalignedBatchDiffers | src/backend_ast/graphics_3d_backend_ios.c:378-387 | without alignment merging can change the primitives |
| MetalQueue.QueuedTiles | src/backend_ast/graphics_3d_backend_ios.c:378-400 | in every reachable queue the commands tile the vertices in order with no gap or overlap |
| PrimitiveAssembly.AssembleIndexed | src/backend_ast/graphics_3d_backend_ios.c:1399-1480 | the indexed path collects the assembled triangles, for every kind and every pattern of invalid vertices |
| PrimitiveAssembly.RasterizeAll | src/backend_ast/graphics_3d_backend_ios.c:1538-1572 | the software path hands the rasteriser the same triangles in the same order |
| PrimitiveAssembly.BuildCorners | src/backend_ast/graphics_3d_backend_ios.c:1326-1380 | the Metal path writes the corners of the same triangles behind the queue and changes nothing in front |
| PrimitiveAssembly.FanNeedsCenter | src/backend_ast/graphics_3d_backend_ios.c:1351-1362 | leaving early when the centre of a fan is invalid loses no triangle |
| PrimitiveAssembly.AssembledAre | src/backend_ast/graphics_3d_backend_ios.c:1308-1573 | the assembled triangles are, by their vertex numbers, all triangles of the kind with three valid corners, each once, in the order of their last corners |
| PrimitiveAssembly.StripWindsAlike | src/backend_ast/graphics_3d_backend_ios.c:1339-1350 | neighbours in a strip pass their common edge in opposite directions, so all face the same way |
| PrimitiveShapes.QuadOfStrip | src/backend_ast/graphics_3d_backend_ios.c:1822-1828 | a quad strip drawn as a triangle strip: the outline of triangles 2i and 2i + 1 is that of quad i, in the same direction |
| PrimitiveShapes.QuadStripIff | src/backend_ast/graphics_3d_backend_ios.c:1822-1828 | no other triangle is drawn if and only if no vertex is left over; with three or more vertices, one of them left over, exactly one is |
| PrimitiveShapes.PolygonOutline | src/backend_ast/graphics_3d_backend_ios.c:1822-1828 | a polygon drawn as a fan: the edges not passed in both directions are those of the polygon, in order |
| PrimitiveShapes.OthersStay | src/backend_ast/graphics_3d_backend_ios.c:1822-1828 | all other primitives are drawn as what they are |
| PrimitiveAssembly.CornersDrawTheTriangles | src/backend_ast/graphics_3d_backend_ios.c:1326-1380 | the corners, cut in threes, are the triangles again |
| PrimitiveAssembly.RenderTrianglesMetal | src/backend_ast/graphics_3d_backend_ios.c:1308-1398 | one call queues exactly the assembled triangles as one draw |
| PrimitiveAssembly.MetalDrawsTheAssembled | src/backend_ast/graphics_3d_backend_ios.c:1308-1398 | the frame gains exactly the assembled triangles and stays aligned in threes |
| LineAssembly.DrawLines | src/backend_ast/graphics_3d_backend_ios.c:1185-1255 | the direct paths draw the segments of strips, loops and separate lines with both ends valid, in order |
| LineAssembly.BuildEnds | src/backend_ast/graphics_3d_backend_ios.c:1130-1157 | the Metal path writes the ends of the same segments |
| LineAssembly.SegmentsAre | src/backend_ast/graphics_3d_backend_ios.c:1110-1256 | the segments are, by their vertex numbers, all of the kind with both ends valid, a loop being closed, each once, in order |
| LineAssembly.RenderLinesMetal | src/backend_ast/graphics_3d_backend_ios.c:1110-1170 | one call queues exactly those segments as one draw |
| LineAssembly.MetalDrawsTheSegments | src/backend_ast/graphics_3d_backend_ios.c:1110-1170 | the frame gains exactly the segments and stays aligned in twos |
| IndexCompaction.Compact | src/backend_ast/graphics_3d_backend_ios.c:1504-1529 | the loops leave every used vertex once, the remap table inverse to their order, and indices that find their sources; the two regions of the index buffer do not disturb each other |
| IndexCompaction.EmitIndex | src/backend_ast/graphics_3d_backend_ios.c:1511-1528 | one corner: known vertices are looked up, a new one gets the next place, for which there is room |
| IndexCompaction.FirstUseOnce | src/backend_ast/graphics_3d_backend_ios.c:1507-1529 | every used vertex is stored, no other, and none twice |
| IndexCompaction.FirstUseOrder | src/backend_ast/graphics_3d_backend_ios.c:1507-1529 | of two stored vertices the one in front is used first |
| IndexCompaction.CompactedTriangle | src/backend_ast/graphics_3d_backend_ios.c:1504-1531 | what the renderer draws from the compacted buffers is what the triangles name in the source vertices |
| IndexCompaction.RenderTrianglesIndexed | src/backend_ast/graphics_3d_backend_ios.c:1399-1533 | the whole indexed branch: for every kind and every pattern of invalid vertices, the primitives drawn from the index buffer are the assembled triangles |
| DisplayList.Graphics.Begin | src/backend_ast/graphics_3d_backend_ios.c:1822-1842 | quad strips and polygons become strips and fans; a new block is opened, whatever immediate mode held is dropped |
| DisplayList.Graphics.End | src/backend_ast/graphics_3d_backend_ios.c:1844-1851 | immediate mode emits what it holds, if anything, and the block is closed |
| DisplayList.Graphics.Vertex3f | src/backend_ast/graphics_3d_backend_ios.c:1869-1887 | an accepted vertex goes to immediate mode and to the open block; others go nowhere |
| DisplayList.Graphics.NewList | src/backend_ast/graphics_3d_backend_ios.c:2094-2102 | recording starts afresh unless it is going on |
| DisplayList.Graphics.EndList | src/backend_ast/graphics_3d_backend_ios.c:2104-2127 | the list replays the recorded blocks that have vertices; other lists are not touched |
| DisplayList.Graphics.CallList | src/backend_ast/graphics_3d_backend_ios.c:2129-2148 | calling a list emits its replay in order and ends what immediate mode was doing |
| DisplayList.Graphics.FlushImmediate | src/backend_ast/graphics_3d_backend_ios.c:1627-1655 | what is held is emitted once |
| DisplayList.BlockAt | src/backend_ast/graphics_3d_backend_ios.c:2131-2146 | every command of a list stays inside the recorded vertices |
| DisplayList.Balance | src/backend_ast/graphics_3d_backend_ios.c:1822-1887 | in every run: blocks recorded plus batches emitted astray are batches emitted plus blocks lost plus the open one |
| DisplayList.CleanRunIsFaithful | src/backend_ast/graphics_3d_backend_ios.c:1822-2148 | in every run, calls of other lists included, with no block abandoned or left open and nothing emitted astray the recorded blocks are what was emitted |
| DisplayList.FaithfulIff | src/backend_ast/graphics_3d_backend_ios.c:1822-2148 | in every run whose vertices can be told apart, exactly then |
| DisplayList.CausesCancel | src/backend_ast/graphics_3d_backend_ios.c:1822-1887 | where they cannot, an abandoned block and vertices behind an empty one can make up for each other |
| DisplayList.FaithfulIffNoneLost | src/backend_ast/graphics_3d_backend_ios.c:1822-1887 | whatever the vertices, with nothing emitted astray: exactly if no block was abandoned or left open |
| DisplayList.FaithfulIffNoneStray | src/backend_ast/graphics_3d_backend_ios.c:1844-1887 | whatever the vertices, with no block abandoned or left open: exactly if nothing was emitted astray |
| DisplayList.RecordingEmits | src/backend_ast/graphics_3d_backend_ios.c:1822-1887 | any list of well-bracketed blocks is recorded in order, and its non-empty blocks are emitted in order |
| DisplayList.ReplayDrawsTheSame | src/backend_ast/graphics_3d_backend_ios.c:1822-2148 | such a list replays what immediate mode emitted while it was recorded |
| DisplayList.AbandonedBlockReplays | src/backend_ast/graphics_3d_backend_ios.c:1829-1841 | a block cut short by the next one is replayed but was never drawn |
| DisplayList.StrayVerticesAreNotReplayed | src/backend_ast/graphics_3d_backend_ios.c:1844-1851 | vertices behind an empty block are drawn but not recorded |
| HttpSession.Sessions.AllocSession | src/backend_ast/builtin_network_api.c:865-890 | the lowest free slot is claimed, with no result in it, under the next generation modulo 2^32, or none if all are held; the other slots stay |
| HttpSession.Sessions.FreeSession | src/backend_ast/builtin_network_api.c:892-917 | only a held slot changes: it is given up and its last headers and message go, the rest of it stays |
| HttpSession.Sessions.Submit | src/backend_ast/builtin_network_api.c:3434-3437 | the job takes the session's generation, or 0 if the id names none |
| HttpSession.Sessions.Await | src/backend_ast/builtin_network_api.c:3596-3631 | status, headers, error code and message of a session become those of the record exactly if it is held and its generation is the one in the record; otherwise, and everywhere else, nothing changes |
| HttpSession.GenerationSurvivesTheRecord | src/backend_ast/builtin_network_api.c:2907 | a generation comes back unchanged from the signed integer of the record |
| HttpRuns.EveryRun | src/backend_ast/builtin_network_api.c:865-917 | in every interleaving of the steps each live slot carries the generation of its session and each job that of the session it named |
| HttpRuns.AcceptedIffCongruent | src/backend_ast/builtin_network_api.c:3611-3614 | in every run a result is accepted exactly if the slot is held by a session with the same number modulo 2^32 |
| HttpRuns.AcceptedIffStillHeld | src/backend_ast/builtin_network_api.c:3611-3614 | before the counter wraps, exactly if the session that submitted it still holds the slot |
| HttpRuns.ResultReachesItsSession | src/backend_ast/builtin_network_api.c:3596-3631 | status, headers, error code and message of the session that asked become those of the result if it is still there, and no session changes otherwise |
| HttpRuns.OutcomeTravels | src/backend_ast/builtin_network_api.c:2880-2910 | what a worker ends with is what the awaiting thread takes, with the slot it was submitted on |
| HttpRuns.InvalidSubmissionIsHarmless | src/backend_ast/builtin_network_api.c:3434-3437 | a request submitted on an invalid id changes no session |
| HttpRuns.LiveGenerationsDistinct | src/backend_ast/builtin_network_api.c:883 | before the wrap, live generations differ and none is 0 |
| HttpRuns.WrappedGenerationAccepts | src/backend_ast/builtin_network_api.c:812-813 | after 2^32 sessions a request made on a closed session reaches a stranger |
| PercentCoding.DecodePercentEncoded | src/backend_ast/builtin_network_api.c:401-430 | the loop answers the decoded bytes or -2 and stays inside its buffer on every input |
| PercentCoding.DecodesIffEncodes | src/backend_ast/builtin_network_api.c:401-430 | the decoder accepts exactly the percent-encodings (section 2.1 of RFC 3986) and gives back what was encoded |
| PercentCoding.PercentRoundTrip | src/backend_ast/builtin_network_api.c:401-430 | whichever bytes are escaped, in either case of the digits, the bytes come back |
| PercentCoding.EscapeDecodes | src/backend_ast/builtin_network_api.c:394-430 | a percent sign and two hex digits, the higher first, is one byte, any other byte is itself |
| PercentCoding.HexValueIs | src/backend_ast/builtin_network_api.c:394-399 | the digits are 0123456789ABCDEF in either case, with the values 0 to 15 |
| PercentCoding.MalformedEscape | src/backend_ast/builtin_network_api.c:413-421 | a percent sign without two of them is refused |
| Base64.Base64DecodeBuffer | src/backend_ast/builtin_network_api.c:444-524 | the loop answers the decoded bytes, -2 or -3 and stays inside its buffer on every input |
| Base64.DecodeGroup | src/backend_ast/builtin_network_api.c:482-515 | one group of four, with padding only where it ends the text |
| Base64.Base64RoundTrip | src/backend_ast/builtin_network_api.c:444-524 | with whitespace anywhere in the encoding, in either alphabet (sections 4 and 5 of RFC 4648), the bytes come back |
| Base64.EncodingDecodes | src/backend_ast/builtin_network_api.c:444-524 | the encoding itself decodes to the bytes |
| Base64.DigitIs | src/backend_ast/builtin_network_api.c:432-442 | the digits of the encoding are those of tables 1 and 2 of RFC 4648 |
| Base64.NumberOfGroup | src/backend_ast/builtin_network_api.c:497-514 | four digits in base 64 are the number whose digits in base 256 are the three bytes; fewer bytes are continued with zero bits and equals signs |
| Base64.BlankIsStripped | src/backend_ast/builtin_network_api.c:452-456 | a blank, tab or line break anywhere changes nothing |
| Base64.DecodesIffRepresents | src/backend_ast/builtin_network_api.c:444-524 | the decoder answers `bs` for exactly the texts that are an encoding of it with whitespace anywhere, each digit from either alphabet and any bits behind the last byte |
| Base64.FourBitsAreIgnored | src/backend_ast/builtin_network_api.c:497-505 | so texts that no encoder writes are accepted: the four bits behind a single last byte are not looked at |
| Base64.TwoBitsAreIgnored | src/backend_ast/builtin_network_api.c:506-513 | nor the two bits behind the second of two |
| Base64.DecodeGroups | src/backend_ast/builtin_network_api.c:480-516 | the loop over the groups |
| DataUrl.ParseMetadata | src/backend_ast/builtin_network_api.c:558-618 | the loop over the tokens finds the base64 mark anywhere and joins the others, with the defaults of section 3 of RFC 2397 |
| DataUrl.ParseDataUrl | src/backend_ast/builtin_network_api.c:526-660 | every URL gets its meaning: bytes and media type, or the reason why not |
| DataUrl.MediaTypeKept | src/backend_ast/builtin_network_api.c:570-604 | a media type with parameters is handed on unchanged |
| DataUrl.MarkedBase64 | src/backend_ast/builtin_network_api.c:567-569 | the base64 mark is seen and does not change the media type |
| DataUrl.MarkAnywhere | src/backend_ast/builtin_network_api.c:561-569 | the mark, in any case of its letters, is seen wherever it stands, and like an empty token it leaves the media type alone |
| DataUrl.ParametersOnly | src/backend_ast/builtin_network_api.c:583-604 | parameters without a media type follow text/plain |
| DataUrl.NothingSaid | src/backend_ast/builtin_network_api.c:611-618 | without either the type is text/plain;charset=US-ASCII |
| DataUrl.SplitIs | src/backend_ast/builtin_network_api.c:560-610 | the tokens, put together with semicolons, are the metadata, and none holds a semicolon |
| DataUrl.Refused | src/backend_ast/builtin_network_api.c:538-547 | a URL is refused exactly if it does not start with data: in any case, or holds no comma behind that |
| DataUrl.RefusedData | src/backend_ast/builtin_network_api.c:624-660 | behind the first comma: malformed escapes are refused, and malformed base64 if the mark is there; anything else is handed on decoded |
| DataUrl.Base64UrlRoundTrip | src/backend_ast/builtin_network_api.c:526-660 | bytes encoded in either alphabet, whitespace inserted, any bytes escaped, in a data URL with any media type: parsing gives back the bytes and the media type, and the URL holds no zero byte if the media type does not |
| DataUrl.PlainUrlRoundTrip | src/backend_ast/builtin_network_api.c:526-660 | likewise for bytes that are only percent-encoded, zero bytes being escaped |
| HandleTable.HandleTable.Alloc | src/backend_ast/pscal_ext_api.c:110-142 | the lowest free handle gets the payload, nothing else changes, also when the table grows; kind 0 is refused |
| HandleTable.HandleTable.Lookup | src/backend_ast/pscal_ext_api.c:143-158 | a payload is found exactly if the handle is in use with that kind |
| HandleTable.HandleTable.Free | src/backend_ast/pscal_ext_api.c:160-174 | the handle is gone and its payload answered, NULL if it was not in use |
| SqlitePlugin.Plugin.Open | plugins/sqlite/sqlite_ext_plugin.c:107-137 | a database gets the lowest free handle |
| SqlitePlugin.Plugin.Prepare | plugins/sqlite/sqlite_ext_plugin.c:194-229 | a statement gets the lowest free handle if the database is open, and is entered as its database's |
| SqlitePlugin.Plugin.Finalize | plugins/sqlite/sqlite_ext_plugin.c:231-253 | the statement is finalised while it is live, and handle and owner entry go |
| SqlitePlugin.Plugin.FinalizeOrphanedStatements | plugins/sqlite/sqlite_ext_plugin.c:83-94 | all statements of the database go, each finalised while live, and nothing else |
| SqlitePlugin.Plugin.Close | plugins/sqlite/sqlite_ext_plugin.c:139-161 | the database is closed when no statement of it is live; exactly its statements go with it |
| SqlitePlugin.Plugin.FetchStatement | plugins/sqlite/sqlite_ext_plugin.c:255-274 | what a caller steps or reads is a live statement of an open database |
| SqlitePlugin.PrepareKeeps | plugins/sqlite/sqlite_ext_plugin.c:56-71 | preparing keeps owner entries and statement handles in bijection and the ledger equal to the handles |
| SqlitePlugin.DropKeeps | plugins/sqlite/sqlite_ext_plugin.c:72-94 | so does giving up one statement with its entry |
| SqlitePlugin.CloseKeeps | plugins/sqlite/sqlite_ext_plugin.c:154-156 | so does closing a database, which is then allowed |
| SqlitePlugin.NoEntryNoStatement | plugins/sqlite/sqlite_ext_plugin.c:83-94 | when no active entry names a database no statement of it is left, since every statement has an entry |
| EnvSnapshot.EntryFind | src/common/env_snapshot.c:53-64 | where names are unique the hint never changes which entry is found |
| EnvSnapshot.Snapshot.Take | src/common/env_snapshot.c:80-116 | the snapshot is the environment |
| EnvSnapshot.Snapshot.RemoveUnsaved | src/common/env_snapshot.c:133-145 | exactly the variables that are not saved are removed |
| EnvSnapshot.Snapshot.PutBack | src/common/env_snapshot.c:147-164 | exactly the variables whose saved value differs are set; the flag tells whether a saved entry was malformed |
| EnvSnapshot.Snapshot.Restore | src/common/env_snapshot.c:122-170 | with unique names the saved variables are back, and in every environment on the way each variable had its old or its saved value |
| EnvSnapshot.GentleMeans | src/common/env_snapshot.c:118-119 | so none that both have is missing at any moment, and none that is unchanged is altered |
| EnvSnapshot.GetSet | src/common/env_snapshot.c:161 | setting one variable changes no other, wherever its entry stands |
| EnvSnapshot.UnsetKeepsUnique | src/common/env_snapshot.c:143 | removing keeps names unique |
| EnvSnapshot.SetKeepsUnique | src/common/env_snapshot.c:161 | so does setting |
| EnvSnapshot.SaveChangeRestore | src/common/env_snapshot.c:80-170 | saved, changed in any way and restored, the variables are the same, and no environment on the way back lacks or alters a variable that did not change |
| NetPrefix.PrefixFromMask | src/common/net_snapshot.c:65-90 | the loops count the leading ones of the mask |
| NetPrefix.LeadingOnesAre | src/common/net_snapshot.c:78-88 | all bits before that count are ones and the next is not, also in masks that are not contiguous |
| NetPrefix.MaskPrefix | src/common/net_snapshot.c:164-173 | the bits of the prefix stay and all others are cleared |
| NetPrefix.KeptBits | src/common/net_snapshot.c:171 | bit by bit, what the mask of one byte keeps |
| NetNumber.MaskingRounds | src/common/net_snapshot.c:164-173 | the masked address is, as a number in network order, the address less its remainder by the value of the last bit kept |
| NetNumber.LeadingOnesIff | src/common/net_snapshot.c:65-90 | at least p leading ones are counted exactly if the mask is, as a number, at least p ones followed by zeros |
| NetRoutes.RouteTable.AddRoute | src/common/net_snapshot.c:142-162 | a route is added unless one with the same key is there |
| NetRoutes.AddingKeeps | src/common/net_snapshot.c:142-162 | whatever is added, no two routes agree in all but origin and source, each added route is represented, and nothing else is new |
| NetRoutes.RouteTable.AddKernelRoutes | src/common/net_snapshot.c:178-210 | the table holds the route of each address of a link that is not loopback, to its peer alone or to its network, and no other, none twice, masked |
| NetRoutes.KernelRouteConnects | src/common/net_snapshot.c:186-207 | the route of an address: its peer at full length, or the address rounded down to its prefix if that is neither empty nor full; the source is said for IPv4 only |
| NetRoutes.RouteTable.AddKernelTable | src/common/net_snapshot.c:221-326 | for arbitrary bytes the walk ends inside the buffer; the table gains the routes of the whole messages; no key is there twice, every destination is masked to its length, and the link that the index of a dumped route stands for is not loopback |
| NetMessages.DumpIsSaid | src/common/net_snapshot.c:221-326 | for any list of messages laid out as the kernel does, IPv4 and IPv6, with or without gateway and mask, masks shortened, any padding, and a cut-off one behind them: the dump yields exactly the routes the messages tell of, in order |
| NetMessages.MessageIsSaid | src/common/net_snapshot.c:226-301 | for one message anywhere in a buffer: version, flags, link, destination without its scope and rounded to the leading ones of the mask, gateway, and every reason to skip it |
| NetMessages.DumpAdds | src/common/net_snapshot.c:221-326 | the table gains exactly those routes |
| NetRoutes.ReadAddresses | src/common/net_snapshot.c:236-250 | the addresses of a message are cut out without reading behind it |
| NetRoutes.ReadRoute | src/common/net_snapshot.c:233-300 | what one message says, with every reason to skip it |
| NetRoutes.DescribedSound | src/common/net_snapshot.c:251-299 | a described route is masked, on a link found by its index that is not loopback, and not multicast |
| NetRoutes.KnownIsDuplicate | src/common/net_snapshot.c:305-321 | the look-up for a known kernel route changes nothing: the duplicate check would leave the route out too |
| AddressOrder.SortAddresses | src/common/net_snapshot.c:477-488 | the addresses are the same ones; no IPv4 address stands behind another kind, behind a link-local one stand only such, and each of the three classes keeps its order |
| AddressOrder.Inserted | src/common/net_snapshot.c:480-487 | one insertion orders one address more and moves none past another of its rank |
| KeyQueue.Ring.Enqueue | src/backend_ast/sdl.c:392-402 | the ring holds the last 128 entries at most of what it held and the new one |
| KeyQueue.Ring.Dequeue | src/backend_ast/sdl.c:520-533 | the oldest entry leaves |
| KeyQueue.RecentTwice | src/backend_ast/sdl.c:392-402 | dropping the oldest at each step leaves what dropping all at once would |
| KeyQueue.RecentAre | src/backend_ast/sdl.c:392-402 | nothing is dropped up to 128 entries, then the first ones |
| KeyQueue.EnqueueUtf8Text | src/backend_ast/sdl.c:403-464 | on arbitrary bytes the loop ends, and the ring gains the decoded code points in order |
| KeyQueue.Utf8RoundTrip | src/backend_ast/sdl.c:403-464 | decoding the encoding (section 3 of RFC 3629) of any code points gives exactly these, in order; the encoding holds the byte that ends a C string only for U+0000 |
| KeyQueue.OrderKept | src/backend_ast/sdl.c:403-464 | the encodings that are read stand in the order of their code points (section 1 of RFC 3629) |
| KeyQueue.Examples | src/backend_ast/sdl.c:403-464 | among them are the examples of section 7 |
| KeyQueue.OverlongAccepted | src/backend_ast/sdl.c:403-464 | every code point is accepted in any number of bytes that has room for it, also in more than it needs |
| KeyQueue.FirstIff | src/backend_ast/sdl.c:403-464 | at any place a code point is read exactly if its form in one to four bytes stands there, shortest or not |
| KeyQueue.OthersAreSkipped | src/backend_ast/sdl.c:403-464 | where no such form stands nothing is queued and one byte is skipped, or four if they hold more than U+10FFFF |
| CircleRaster.DrawCircle | src/backend_ast/sdl.c:1947-1968 | for every radius the loop ends; what is drawn lies symmetric to both axes and both diagonals through the centre, is the arc and its images and nothing else, eight for each step, and satisfies -2 (x + y) <= x^2 + y^2 - r^2 <= 4 - 2 y for the larger and smaller distance x, y from the axes; the arc starts on the axis, each step is the next one that the error decides and a neighbour of the one before, and it goes on exactly until x falls below y |
| CircleRaster.StepRule | src/backend_ast/sdl.c:1960-1967 | y goes up exactly if x^2 + (y + 1)^2 is at most r^2 + 1, and then x comes in exactly if with the new y it is more |
| CircleRaster.Advance | src/backend_ast/sdl.c:1960-1967 | one step keeps err = x^2 + (y + 1)^2 - r^2 - 1 between -2 x and 4 and brings x and y closer |

## Left out

- Allocation failure and the paths that only it can reach, such as `popCopiedNode`; growth is modelled as a larger buffer with the same front.
- What libcurl, sqlite, SDL, OpenGL and Metal do. A draw, a closed database or a finalised statement is an entry in a trace or a ledger; the library's rules are preconditions of the ledger's methods, and its answers are parameters.
- Machine-integer wrap of coordinates, counts and handles; only the session generation wraps.
- Lighting, matrices, depth and colour. A vertex is an opaque value with a validity flag; in display lists it is what the caller passed, so replay under another matrix sends the same vertices to another place. Depth sorting of the indexed path is not reached, as that path runs only with the depth test off.
- The native OpenGL path of `flushImmediateNative`, which expands quads without looking at validity, and what `rasterizeTriangle` fills in.
- `gfx3dGenLists` and `gfx3dDeleteLists`: a list table is a map from numbers to recorded lists.
- Tokens, type names and symbol tables of syntax nodes beyond what copying and freeing branch on; freeing a token belongs to releasing its node.
- AstLinks.VerifyASTLinks: does not model graphs with a cycle, on which the code recurses without end.
- The debug output of the tree code, and `annotateTypes`.
- Names, values and hash tables in `src/core/utils.c:3699-3755`: the shutdown keeps the definitions that symbols own, in order, and the type table.
- The JSON dump works on a tree in which shared nodes appear once per occurrence; the name tables for node, token and variable types are arbitrary names without quotes, backslashes or control characters. The parser knows integers only and escapes below U+0080, which is all the dump writes.
- Session options (timeouts, headers, proxies and so on), the response body, the retry loop of the worker and the pool that hands a finished task to one awaiting thread: the model keeps what decides whether a result is applied and what it then changes.
- `pthread` locks: each step of `HttpRuns` is a critical section of the code, so a claim of a slot is one step although the scan that leads to it visits other slots before.
- The text of error messages of the data URL parser; the answers tell the same cases apart.
- EnvSnapshot.Snapshot.Restore: on environments in which a name appears twice only the flag it returns is characterised, because what is restored then depends on the position of the entries.
- Linux's interface names, link properties, the sorting of links and routes by `qsort`, the `/proc` writers, and how `sysctl` is asked for the dump. Addresses are kept at their own length instead of zero-filled arrays of 16 bytes.
- The library is taken to close a database that has no live statement. The scan of the plugin's owner table is kept, its growth is not; column access, stepping and SQL execution only look a live handle up.
- Socket addresses of length 1 in the layout of `NetMessages`; `NetRoutes.RouteTable.AddKernelTable` covers arbitrary bytes.
- `src/backend_ast/sdl.c` beyond the key ring and the circle loop.
- `src/ast/closure_registry.c`, `src/common/pascal_state.c`, `src/common/frontend_kind.c`, `lib/noise/noise.c`: they would add only easy members.
