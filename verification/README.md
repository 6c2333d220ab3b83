# Proofs about ubiq's layout, install, profile and tooling algorithms

A Dafny model of the parts of the repository that compute something hard to check by reading, with proofs over all
inputs, all runs or all interleavings. `dafny verify dfyconfig.toml` checks everything.

## What is modelled

- **The teams graph** (`_tools/teamsim`). `Skyline`, `Shelf` and `Tree` are the three packers; `Parents` cuts looping
  parent relations; `Families` is the union-find, `Islands` the packer on top of it, `Packers` the packers by name.
  `Rings` is the room of one card with its delegates, `Rows` the cards of one container, `Build` places everything
  and `Finish` draws it.
  `Push` and `Arrivals` are the incremental arrangement, `Wedges` the family and sectors of the spider shape, `Balance`
  the ink per viewport tile. The proofs compose from one card up to `Finish.LayoutAuto`.
- **Installing a version** (`acp_registry.rs`). `Install` is a state machine: any number of installers, each step one
  atomic rename or one half of a removal, in any interleaving, with the system free to refuse a rename or a removal.
- **Dates** (`quota.rs`). `Calendar` has the closed-form day count against counting days; `Timestamps` the parser against
  printing.
- **Profiles** (`profile.rs`, `resolve.rs`, `overlay.rs`). `Profiles` is the chain walk and the fold; `Layers` which layer
  wins, for ids and for files.
- **Tools**. `Sweep` is the concurrency curve of `tape-subagents.py`; `Markers`, `DocLines`, `DocTree`, `DocFixpoint` and
  `DocRedraw` are the generated blocks and the file tree of `docs.py`; `Worklists` the two closures of `licenses.py` and
  `webassets.py`.

Code that changes things step by step is a method with its loops, proved against a function or a predicate; an array that
is rewritten in place (`Families`) stays an array, and the canvas whose containers are pushed about (`Push.Canvas`) is a
class. Code made of expressions is functions and lemmas.

## How to read the proofs

Coordinates are exact reals and every tolerance of a hundredth is read as an exact comparison. `Geometry.EpsilonIsExact`
shows that this changes no outcome on whole numbers, which is what card sizes, gaps and the rings of rows and grids are
made of. Square roots, logarithms and scores only choose between candidates, so they are function parameters and the
theorems hold for any of them. A ring of delegates is a parameter too. Rows of a container are folded by any rule that
takes at least one card of a row to a line; a rule need not answer for an empty row, and where it does not, the parent
chains are asked not to loop.

## Where the code falls short of what it says

Each of these is stated as it is in the code, with an input that shows it, and with the condition under which the
promise holds: the exact one wherever it says `if and only if`.

- `time_at` pairs the entries of a curve that has none for the last boundary, so the final interval is not counted
  (`Sweep.LoneWindowUncounted`). Busy and parallel time are right if and only if fewer than one, or two, subagents run
  over that interval (`Sweep.CountedIsAll`), the weighted total if and only if none does (`Sweep.TimesFallShort`).
- A root line of the file tree with a note that does not end in a slash is not parsed again: a note typed there is lost,
  and the notes under it with it (`DocRedraw.RootNoteIsLost`, `DocRedraw.OlderTreeIsNotStable`). Regenerating is stable if
  and only if every root's note is empty or ends in a slash (`DocRedraw.RegeneratingIsStable`).
- `replace_marker` is stable if and only if the body does not hold its own end marker (`Markers.ReplacingTwice`,
  `Markers.QuotedMarkerGrows`).
- An installer that reports success can have its copy replaced by an older one, when another one puts that back
  (`Install.SuccessMayBeUndone`). The copy from before stays replaced if and only if there was none or there are at most
  two installers (`Install.BeforeStaysReplaced`); no older copy at all comes back if and only if there are at most three
  copies, counting the one from before (`Install.LatestKeptUpToThree`).
- A put-back that the system refuses loses the copy, and nothing else does (`Install.RefusedPutBackLosesCopy`,
  `Install.KeptUnlessDropped`); a removal that it refuses leaves a directory behind, and nothing else does
  (`Install.RunEnds`).
- Sessions are a task gap apart, and their frames are padded by more than that: the frames of two in a row overlap
  whenever both have a loose card, looping parent chains aside (`Finish.FramesOverlap`, `Finish.TwoLooseCards`).
- `_push` is to push clear of `rect` whatever it overlaps. The first wave does; a later one can push a container back on
  top of it (`Push.ArrivalIsCovered`). The promise holds when nothing clashes after the first wave
  (`Push.SettledAtOnce`, `Push.Canvas.Wave`), and for a container's own rectangle that has not moved
  (`Push.OthersAreClear`).
- `stack_aspect` reads the largest card of every depth row, and an empty row has none: there is one if and only if some
  parent chain loops (`Rows.EmptyRowMeansLoop`, `Rows.OwnParentLeavesGaps`). `pack_tree`, `family` and `depth_of` do
  survive loops.
- A project's profile is to extend the global one it shadows, and that never holds: in every store its name leads back
  to itself, so it resolves through nothing (`Profiles.OwnNameNeverResolves`).

## Model

| member | source | states |
|---|---|---|
| Skyline.HeightAt | _tools/teamsim/algos.py:678-682 | the fence read at a point is the top of the last node at or left of it |
| Skyline.Ledge | _tools/teamsim/algos.py:667-675 | the answer is the least height that clears the fence over the whole stretch, and the fence really is that high somewhere under it |
| Skyline.RaiseFence | _tools/teamsim/algos.py:685-698 | the fence is `top` over exactly `[x, x + w)` and unchanged at every other point, and is a proper skyline again |
| Skyline.DropRepeats | _tools/teamsim/algos.py:693-698 | leaving out nodes that change nothing leaves every height as it was |
| Skyline.PickSlot | _tools/teamsim/algos.py:720-735 | a slot is found exactly when some node leaves room up to the wall, and no node's slot is better than the one picked |
| Skyline.Seat | _tools/teamsim/algos.py:719-739 | the place never cuts into the fence; a box that fits the container is seated on its ledge, inside the wall, at the best slot |
| Skyline.NewBoxIsClear | _tools/teamsim/algos.py:725-741 | a box seated on the outline of the earlier ones is a gap away from every one of them |
| Skyline.OutlineKept | _tools/teamsim/algos.py:740-741 | raising the fence over the new box keeps it the exact upper outline of all boxes placed |
| Skyline.LongestAreFirst | _tools/teamsim/algos.py:711-711 | the order of seating is every box once, by longer side descending and then by index |
| Skyline.NextInTurn | _tools/teamsim/algos.py:718-743 | a box seated at the best slot of the outline so far stays so while later boxes are placed |
| Skyline.PackedStep | _tools/teamsim/algos.py:740-743 | one more box keeps boxes apart, the extent exact, and everything inside the wall and supported |
| Skyline.PackSkyline | _tools/teamsim/algos.py:701-744 | the boxes go in by their longer side, the longest first and equal ones as listed, each onto the outline of those before it at a slot that no other of that outline beats; any two are at least the gap apart; the extent is the exact bounding box; when all boxes fit the width none passes it and none floats |
| Skyline.PackBest | _tools/teamsim/algos.py:766-785 | the answer is the first that scores least of the four best-fit packings for the widths 0.7, 1.0, 1.4 and 1.9 times the side, none less than the widest box; it is a good packing, and the fall-back place is never taken |
| Shelf.PackShelf | _tools/teamsim/algos.py:642-660 | the first drawn box is in the corner; each next one is right beside the last if that stays within the width, else at the left of a new shelf a gap under the deepest box so far; drawn boxes keep the gap and the exact extent |
| Shelf.ShelvesStayWithin | _tools/teamsim/algos.py:642-660 | no box reaches past the width unless it stands at the left wall |
| Parents.WalkEnds | _tools/teamsim/algos.py:812-820 | the walk up ends exactly when some number of steps up comes to a node without a parent |
| Parents.CutLoops | _tools/teamsim/algos.py:811-822 | a node loses its edge if and only if no root is reached from it and it is the least node on its own way up, in the relation as given; what is left is a forest, and a forest is left alone |
| Parents.NextIsCut | _tools/teamsim/algos.py:812-820 | a walk up the relation already cut ends, for the next node, exactly when its edge is one that stays |
| Parents.ThreeInALoop | _tools/teamsim/algos.py:811-822 | three nodes in one loop: only the first is cut loose and the others hang under it in a row |
| Tree.ChildrenOf | _tools/teamsim/algos.py:824-827 | each node's children are exactly those whose parent it is, in order |
| Tree.DepthsOf | _tools/teamsim/algos.py:829-834 | each depth is the number of steps up to the root |
| Tree.RowsOf | _tools/teamsim/algos.py:836-842 | each row starts a gap under the tallest box of the row above |
| Tree.RowsDescend | _tools/teamsim/algos.py:840-842 | a lower row starts at least a gap below every box of a higher one |
| Tree.SpansOf | _tools/teamsim/algos.py:844-847 | each strip is the wider of the node's box and the row of its children's strips |
| Tree.PlaceForest | _tools/teamsim/algos.py:849-871 | every node of the forest is drawn, in the middle of its strip and on its row, with its children's strips side by side in the middle of its own |
| Tree.StripsApart | _tools/teamsim/algos.py:849-871 | strips of two nodes of one depth, cousins however distant, are a gap apart |
| Tree.RowInStrip | _tools/teamsim/algos.py:867-870 | children's strips lie within their parent's strip, the row in its middle |
| Tree.ParentIsCentred | _tools/teamsim/algos.py:857-870 | each parent's centre is the centre of its children's row, which is on a lower row |
| Tree.PackTree | _tools/teamsim/algos.py:806-871 | for every parent relation, loops and self-parents included: the forest drawn is the relation less exactly the edges of loops' first nodes; all boxes placed, any two a gap apart in x or y, exact extent, each node in the middle of its strip and each parent centred over its children |
| Families.HalvingKeepsRoots | _tools/teamsim/shapes.py:633-637 | pointing a node at its grandparent changes no node's root |
| Families.Find | _tools/teamsim/shapes.py:633-637 | the search ends, answers the root, and path halving along the way changes no root |
| Families.UnionMovesRoots | _tools/teamsim/shapes.py:642-644 | hanging one root under another moves exactly the first root's nodes |
| Families.JoinAll | _tools/teamsim/shapes.py:639-644 | after all edges two nodes have one root only if they are linked, and the ends of every edge do |
| Families.RootsAreFamilies | _tools/teamsim/shapes.py:629-649 | two nodes have the same root if and only if a chain of edges, read either way, joins them |
| Families.FamiliesOf | _tools/teamsim/shapes.py:629-649 | the groups are exactly the connected components, every node in one group once, each group in index order and the groups by their first members |
| Islands.PackIslands | _tools/teamsim/shapes.py:652-683 | each family stands as the best of four best-fit packings of it, and the families as the best of those of their extents; boxes of one family end up a task gap apart, boxes of different families an island gap, with the exact extent |
| Islands.AreaAdds | _tools/teamsim/algos.py:773-773 | the area of boxes is the sum of theirs |
| Islands.SideHolds | _tools/teamsim/algos.py:775-775 | a rectangle as wide as the side that is tried, and of the shape that is wanted, has just that area, for any true square root |
| Packers.WithoutEmpties | _tools/teamsim/algos.py:874-883 | each drawn box is set back at its own index and a box that is not drawn stays at the origin |
| Packers.Remap | _tools/teamsim/algos.py:886-900 | an edge of the renumbered relation stands for an edge between the same two drawn containers, and none is lost |
| Packers.DensePlacement | _tools/teamsim/algos.py:874-883 | a good packing of the drawn boxes, set back, is a good placement of all |
| Packers.PackViewShelf | _tools/teamsim/algos.py:944-972 | the shelves tried are one for each width worth it, narrowest first: the widest box, the guess from the area, and every width at which one more box fits beside the others; the answer is the first that scores least, and a good placement |
| Packers.EdgesAreCut | _tools/teamsim/algos.py:886-900 | set back, the forest is the parent relation among the drawn containers less exactly the edges of loops' first nodes |
| Packers.SetBackCentred | _tools/teamsim/algos.py:874-883 | set back, every container is centred over those that hang under it, a gap above them |
| Packers.PackForest | _tools/teamsim/algos.py:937-941 | the drawn containers stand as a tidy tree of the parent relation among them, loops cut at their first nodes: a good placement with each centred over those that hang under it |
| Packers.PackKept | _tools/teamsim/algos.py:931-934 | the drawn containers stand as the best of four best-fit packings of them, a good placement, for any judge |
| Packers.RemapLinks | _tools/teamsim/shapes.py:664-668 | containers linked after renumbering are linked by their own parent relation |
| Packers.PackIslandWise | _tools/teamsim/shapes.py:652-683 | the drawn containers stand as their families were packed, a good placement, with those that nothing links an island gap apart |
| Packers.Pack | _tools/teamsim/algos.py:925-979 | each packer answers what is its own: shelves of the canvas width, the best fit for a square, the tidy tree, the best shelf, the best fit for the screen, or the islands; all keep drawn containers a task gap apart with the exact extent, whatever square root and score choose |
| Rings.Fence | _tools/teamsim/algos.py:248-259 | the fence is the padded union of card and delegates, and there is none without delegates |
| Rings.UnionHolds | _tools/teamsim/algos.py:1038-1050 | the union holds every rectangle |
| Rings.UnionIsLeast | _tools/teamsim/algos.py:1038-1050 | and is inside anything that does |
| Rings.RingBoxHolds | _tools/teamsim/algos.py:410-421 | what is reserved for a card holds it and every delegate of its ring |
| Rings.ReservedIsDrawn | _tools/teamsim/algos.py:396-437 | the rectangle a card is drawn to take up is exactly the one reserved for it, moved to the card, for any ring |
| Rings.RoomMeetsFence | _tools/teamsim/algos.py:248-259 | on each side where a delegate passes the card what is drawn ends where the fence does, and on every other side where the card does |
| Rings.ReservedMeetsFence | _tools/teamsim/algos.py:396-421 | and so does what is reserved, moved to the card |
| Rings.GridCols | _tools/teamsim/algos.py:267-276 | the fewest columns that leave at most `GRID_ROWS` rows |
| Rings.RingGrid | _tools/teamsim/algos.py:279-304 | one slot for each delegate, row by row |
| Rings.GridRow | _tools/teamsim/algos.py:279-304 | every slot is under the card and within `GRID_ROWS` rows |
| Rings.GridApart | _tools/teamsim/algos.py:279-304 | no two delegates are closer than their gap |
| Rings.GridMirror | _tools/teamsim/algos.py:298-304 | every row is symmetric about the card's middle, a short last row too |
| Rings.GridSteps | _tools/teamsim/algos.py:291-303 | each slot is one gap right of the one before it, or starts the next row a gap down; the first row is a drop under the card |
| Rows.HandOffs | _tools/teamsim/algos.py:497-501 | the parents known are exactly those that are members too |
| Rows.DepthOf | _tools/teamsim/algos.py:512-521 | the depth is the number of hand-offs up, or one past every real depth when the chain loops |
| Rows.HandOffGoesDown | _tools/teamsim/algos.py:512-521 | a card whose chain ends is one row under its parent |
| Rows.RowsByDepth | _tools/teamsim/algos.py:493-509 | row `d` lists the cards of depth `d` in member order, every member is in one row, and the last row is not empty |
| Rows.FoldRow | _tools/teamsim/algos.py:563-567 | a row is cut into runs of exactly `per` cards, but for the last, with none lost and in order |
| Rows.Chunks | _tools/teamsim/algos.py:563-567 | the lines are the rows' runs, one row after the other, each row cut by what the rule says for it |
| Rows.EmptyRowMeansLoop | _tools/teamsim/algos.py:493-521 | some row is empty if and only if some parent chain loops, which is when folding to the screen has no largest card to read |
| Rows.OwnParentLeavesGaps | _tools/teamsim/algos.py:493-521 | an agent that names itself as its parent stands on the third row, under two empty ones |
| Rows.LayRow | _tools/teamsim/algos.py:542-545 | one row's cards stand side by side, each where its own ring begins |
| Rows.RowRuns | _tools/teamsim/algos.py:452-456 | a row runs to exactly its span with its cards in order |
| Rows.RowIsCentred | _tools/teamsim/algos.py:542-545 | a row's two ends are as far from the two sides of the block |
| Rows.LaidOutLists | _tools/teamsim/algos.py:532-550 | however the rows are folded, the block seats every card once and in order |
| Rows.LaidOutIsBlock | _tools/teamsim/algos.py:532-550 | cards with their rings keep a card gap and lie within the block |
| Rows.Lay | _tools/teamsim/algos.py:532-550 | the loop computes that block |
| Rows.LaidOutIsSnug | _tools/teamsim/algos.py:532-550 | laid out as wide as the broadest row, some card touches each side of the block and its bottom, and its top when the first row has cards |
| Rows.InsideOf | _tools/teamsim/algos.py:553-608 | in each of the four ways to lay out a container the contents are the depth rows of its members, folded by the rule and laid out as wide as the broadest line; every member has exactly one seat, no two cards with their delegates are close, and all are inside; a rule that cannot read an empty row is asked for members no parent chain of which loops, and then never meets one; the block is no larger than its cards need |
| Build.ContainerAbove | _tools/teamsim/algos.py:906-921 | a container hangs under the other container its first such member was spawned from, and under none exactly when it has no such member |
| Build.TaskForest | _tools/teamsim/algos.py:903-922 | so for every container of the session |
| Build.CountBlocks | _tools/teamsim/algos.py:1175-1191 | with no block listed twice an agent of a listed block is counted once and any other never |
| Build.OfKeepsOrder | _tools/teamsim/algos.py:1175-1191 | the agents of a block keep the order they are recorded in |
| Build.IdsOfKeepsOrder | _tools/teamsim/algos.py:1190-1190 | and the containers of a session theirs |
| Build.BlockFills | _tools/teamsim/algos.py:1175-1215 | a block set down reaches all sides of the room it was given |
| Build.LoosePart | _tools/teamsim/algos.py:1175-1188 | the loose cards of a session, folded and laid out from the corner at the top: clear of each other, in their own band, each once |
| Build.ContainerPart | _tools/teamsim/algos.py:1190-1215 | the containers of a session, each as large as its folded contents and where the named packer puts it, by the relation of who was spawned from whom when a forest is asked for: each card once, clear of all others, inside its container's frame and band |
| Build.PartsJoin | _tools/teamsim/algos.py:1142-1158 | two parts one above the other make one part |
| Build.Arrange | _tools/teamsim/algos.py:1161-1215 | one session: its loose cards and under them its containers, all of that kept |
| Build.SessionsOf | _tools/teamsim/algos.py:1148-1151 | every session that an agent or a task names, once, in the order of their first mention, agents before tasks |
| Build.SessionsShareNothing | _tools/teamsim/algos.py:1142-1158 | no block belongs to two sessions |
| Build.KeysDistinct | _tools/teamsim/algos.py:1142-1158 | over all sessions no block is listed twice |
| Build.Build | _tools/teamsim/algos.py:1142-1158 | session after session from the margin down, each arranged where the one before it ends; across all sessions each drawn card is placed exactly once, any other never, no two footprints are close, and reserved rooms keep a task gap |
| Finish.DrawCards | _tools/teamsim/algos.py:1222-1231 | every card is drawn on exactly the footprint it was placed by, its delegates where the ring says and its fence round them |
| Finish.DrawnInReserved | _tools/teamsim/algos.py:1233-1250 | a container's drawn rectangle lies inside what the packer reserved for it |
| Finish.DrawnContainersApart | _tools/teamsim/algos.py:1233-1250 | drawn containers, of one session or of two, are a task gap apart |
| Finish.ByContainer | _tools/teamsim/algos.py:1233-1236 | each container's rectangles are those of its cards, in order, and a container without cards has no entry |
| Finish.DrawBoxes | _tools/teamsim/algos.py:1238-1250 | each container with cards is drawn as the padded union of what its cards are drawn to take up, any other not at all |
| Finish.BoxesAreDrawn | _tools/teamsim/algos.py:1233-1250 | every container that has cards is drawn round all of them, inside its reserved room and a task gap from every other |
| Finish.DrawnIsReserved | _tools/teamsim/algos.py:1233-1250 | a container none of whose parent chains loops is drawn exactly on the room reserved for it |
| Finish.LooseIsApart | _tools/teamsim/algos.py:1175-1215 | loose cards with their delegates keep a task gap from every drawn container |
| Finish.DrawSessions | _tools/teamsim/algos.py:1252-1272 | each session is framed by the padded union of its agents' cards and its containers, one without any not at all |
| Finish.SessionsAreDrawn | _tools/teamsim/algos.py:1252-1272 | every card of a session and every container of it lies inside its frame |
| Finish.FramesOverlap | _tools/teamsim/algos.py:1183-1272 | the frames of two sessions in a row overlap when both have a loose card and no parent chain of the second one's loose cards loops |
| Finish.TwoLooseCards | _tools/teamsim/algos.py:1096-1272 | one loose card in each of two sessions: their frames overlap |
| Finish.LayoutAuto | _tools/teamsim/algos.py:1096-1116 | end to end, for any ring, folding and packer: sessions in order of first mention, arranged one under the other as the named packer and fold say; each drawn card once, at its offset in its container and with its delegates where the ring says, no two cards with their delegates closer than a card gap, within or across containers and sessions; containers drawn round their cards where they were reserved, a task gap from each other and from the loose cards; sessions framed round all of theirs |
| Push.AwayIsLeast | _tools/teamsim/algos.py:1366-1374 | the push clears the two rectangles along one axis, and no move smaller than it in both axes would have |
| Push.AwayGoesItsWay | _tools/teamsim/algos.py:1366-1374 | it goes the way the other already lies, and sideways only where every clear way up or down is longer |
| Push.Canvas.Wave | _tools/teamsim/algos.py:1384-1403 | the ripple ends; it moves exactly what it adds to `skip`, each once, from less than a task gap off what pushed it to a task gap clear, and nothing pinned; whatever may still move is a task gap from the arrival and from all that moved; nothing moves when nothing is in the way |
| Push.OneMoved | _tools/teamsim/algos.py:1395-1403 | one push keeps everything the wave has established so far |
| Push.ReadingOrderReads | _tools/teamsim/algos.py:1408-1408 | reading order lists every container once, by rounded top, then rounded left edge, then record order |
| Push.Clashing | _tools/teamsim/algos.py:1406-1413 | None exactly when all containers are a task gap apart, else the first in reading order that a later one sits on |
| Push.OthersAreClear | _tools/teamsim/algos.py:1416-1430 | where nothing clashes, a container that was pushed for and has not moved is clear of every other |
| Push.SettledAtOnce | _tools/teamsim/algos.py:1416-1430 | when nothing clashes after the first wave, that is how everything stays |
| Push.ArrivalIsCovered | _tools/teamsim/algos.py:1416-1430 | three containers and an arrival after which nothing clashes and one of them is back on top of the arrival |
| Push.Canvas.Push | _tools/teamsim/algos.py:1416-1430 | exactly the waves of the source, the one from the arrival and up to four more; what a human placed never moves, sizes never change, stopping early means that all containers are a task gap apart, and nothing moves when nothing was in the way |
| Arrivals.FirstFit | _tools/teamsim/algos.py:1622-1662 | the new container is a task gap from everything there, in the free place of the grid nearest the anchor, rows before columns and reading order between equals, or below everything when the grid has none |
| Arrivals.SomePlace | _tools/teamsim/algos.py:1644-1661 | with the end of what is there below the band's top the grid always has a place |
| Arrivals.FirstIsDrawnAround | _tools/teamsim/algos.py:1631-1662 | the rectangle found is the one the container is drawn on once its first card is in it |
| Arrivals.LoosePlace | _tools/teamsim/algos.py:1584-1588 | the search along the row ends at the first card place that is a card gap across, or a row gap down, from every mate |
| Wedges.HasRoot | _tools/teamsim/shapes.py:169-175 | the walk up ends exactly when the card has a root |
| Wedges.Family | _tools/teamsim/shapes.py:155-181 | any parent map becomes a forest that lists every card once, among the roots or under one parent; a card loses its parent if and only if no root is reached from it and it is the first member on its own way up |
| Wedges.SiblingsTile | _tools/teamsim/shapes.py:489-506 | the wedges of a row lie side by side and fill the wedge they share |
| Wedges.WidthByLeaves | _tools/teamsim/shapes.py:492-506 | every wedge is the card's leaves out of all leaves of the whole sector, however deep it hangs |
| Wedges.LeavesAreCounted | _tools/teamsim/shapes.py:184-187 | the leaves of a node are the cards at or under it that have none under them, each counted once |
| Wedges.WidthCountsLeaves | _tools/teamsim/shapes.py:477-507 | so every wedge has as many parts of the sector as its card has leaves, out of all leaves there are |
| Wedges.WedgeInside | _tools/teamsim/shapes.py:496-506 | a wedge lies inside its parent's and has width when the sector does |
| Wedges.SubtreeInWedge | _tools/teamsim/shapes.py:477-507 | whatever hangs under a card, at any depth, stays in its wedge |
| Wedges.UnrelatedClear | _tools/teamsim/shapes.py:477-507 | wedges of two cards of which neither stands above the other never overlap |
| Wedges.UnrelatedAnglesDiffer | _tools/teamsim/shapes.py:497-497 | such cards are drawn at different angles, and all under one on the same side of the other |
| Wedges.HandOut | _tools/teamsim/shapes.py:477-507 | every card gets exactly the middle of its own wedge, and its depth |
| Balance.CountCovers | _tools/teamsim/metrics.py:41-42 | the tiles cover the side with none to spare, and the hundredth taken off changes nothing on whole numbers |
| Balance.TilesAddUp | _tools/teamsim/metrics.py:26-50 | over any rectangle the tiles' overlaps add up to its overlap with all they cover |
| Balance.InkIsKept | _tools/teamsim/metrics.py:46-50 | a rectangle loses no ink to the tiles if and only if they cover it |
| Balance.Tiles | _tools/teamsim/metrics.py:45-50 | the nested loops list the ink of each tile, row by row |
| Balance.InkIsConserved | _tools/teamsim/metrics.py:39-50 | with everything inside the bounding box the tiles hold exactly the area drawn |
| Install.StepInv | crates/agent-manager/src/acp_registry.rs:1053-1076 | every step of every interleaving, refused renames included, keeps the state in order |
| Install.KeptUnlessDropped | crates/agent-manager/src/acp_registry.rs:1055-1066 | a step loses the copy if and only if it is a put-back that the system itself refuses |
| Install.RunInv | crates/agent-manager/src/acp_registry.rs:1014-1078 | in every state of every run the version directory is absent or one whole copy |
| Install.RunKeeps | crates/agent-manager/src/acp_registry.rs:1053-1076 | a copy once there stays in place or with an installer about to resolve it |
| Install.LeftByLittering | crates/agent-manager/src/acp_registry.rs:1061-1076 | a step leaves a directory behind if and only if it is a removal of something that the system refuses, which the code ignores |
| Install.LeftInRun | crates/agent-manager/src/acp_registry.rs:1053-1076 | so a directory is left behind if and only if some removal so far was refused |
| Install.RunEnds | crates/agent-manager/src/acp_registry.rs:1053-1078 | when all have finished nothing but the version directory is left if and only if no removal of something was refused, and a copy that was there is in place |
| Install.SuccessPlacesOwnCopy | crates/agent-manager/src/acp_registry.rs:1061-1067 | an installer that reports success moved its own copy into place at some step |
| Install.EveryInstallerStops | crates/agent-manager/src/acp_registry.rs:1053-1075 | no installer waits for another, and each stops within eight attempts and fifty steps |
| Install.SomebodySucceeds | crates/agent-manager/src/acp_registry.rs:1067-1074 | with no move refused, an installer gives up only if another succeeded |
| Install.HowItEnds | crates/agent-manager/src/acp_registry.rs:1053-1075 | an installer fails to unpack, is refused, or gives up if and only if its archive was bad, what is in place could not be moved aside, or its copy failed to get into place exactly eight times |
| Install.UnrefusedTriesAgain | crates/agent-manager/src/acp_registry.rs:1055-1075 | one whom the system refuses nothing tries until its copy is in place, and gives up only after eight failures |
| Install.RefusedPutBackLosesCopy | crates/agent-manager/src/acp_registry.rs:1063-1066 | a run in which refusals lose the copy that was there |
| Install.SuccessMayBeUndone | crates/agent-manager/src/acp_registry.rs:1053-1076 | with three installers or more and a copy from before, a run without any refusal in which a reported success is undone by another installer's put-back |
| Install.BeforeStaysReplaced | crates/agent-manager/src/acp_registry.rs:1053-1076 | once some installer has succeeded the copy from before is never in place again, in any run, if and only if there was none or there are at most two installers |
| Install.LatestStays | crates/agent-manager/src/acp_registry.rs:1053-1076 | with three copies at most, between the installers and what was there, every step keeps the latest copy in place |
| Install.LatestKeptUpToThree | crates/agent-manager/src/acp_registry.rs:1053-1076 | in every run what is in place is the copy that was moved in last if and only if there are at most three copies, so only then is no success ever undone by an older copy |
| Install.RunHappens | crates/agent-manager/src/acp_registry.rs:1053-1076 | a run listed with all its states is its events happening one after the other |
| Calendar.ClosedFormCounts | crates/agent-manager/src/quota.rs:410-417 | the closed form equals counting days by the leap-year rule, for every valid date of every year, negative years and truncating division included |
| Calendar.NextDayIsOneMore | crates/agent-manager/src/quota.rs:410-417 | it goes up by one from each calendar day to the next |
| Calendar.CountRises | crates/agent-manager/src/quota.rs:410-417 | it is strictly increasing |
| Calendar.CountIsInjective | crates/agent-manager/src/quota.rs:410-417 | two dates have one count only when they are the same |
| Calendar.EpochIsZero | crates/agent-manager/src/quota.rs:409-417 | it is 0 on 1970-01-01 |
| Timestamps.PrintedParses | crates/agent-manager/src/quota.rs:379-407 | any printed date-time of section 5.6 of RFC 3339, with any fraction and offset, reads back as exactly its unix second |
| Timestamps.OffsetsAgree | crates/agent-manager/src/quota.rs:379-407 | two printed date-times read as the same number if and only if they name the same instant |
| Timestamps.ShortParses | crates/agent-manager/src/quota.rs:391-402 | seconds that are left out, and minutes of an offset, read as none |
| Timestamps.NoTimeNoZone | crates/agent-manager/src/quota.rs:380-389 | without a `T`, or without a zone after it, nothing is read |
| Timestamps.NumbersRead | crates/agent-manager/src/quota.rs:381-402 | an optional sign and digits read as their number, refused exactly when it leaves 64 bits |
| Timestamps.OnlyNumbersRead | crates/agent-manager/src/quota.rs:381-402 | and nothing else reads as a number |
| Sweep.Spans | _tools/tape-subagents.py:627-633 | each window is that of one run, the runs keep their order, and no run with both ends in order is missed |
| Sweep.Deltas | _tools/tape-subagents.py:642-645 | the deltas are kept for exactly the boundaries and sum what starts and ends there |
| Sweep.CoverSteps | _tools/tape-subagents.py:649-651 | between two neighbouring boundaries the cover changes by the delta of the second |
| Sweep.Levels | _tools/tape-subagents.py:635-652 | the curve has one entry for each interval between boundaries, whose number is how many windows cover every instant of it; outside nothing is covered |
| Sweep.PeakConcurrent | _tools/tape-subagents.py:654-655 | the peak is the greatest cover of any instant |
| Sweep.TimeAt | _tools/tape-subagents.py:657-663 | each level's time is the exact number of instants it held, from the first boundary to the last but one |
| Sweep.BusyMs | _tools/tape-subagents.py:665-667 | the instants with at least one subagent running, over the same stretch |
| Sweep.ParallelMs | _tools/tape-subagents.py:669-671 | those with two or more |
| Sweep.CountedIsAll | _tools/tape-subagents.py:657-671 | what is counted as busy (one or more) or parallel (two or more) is all such time if and only if fewer than that many run over the final interval |
| Sweep.AreaIsTotal | _tools/tape-subagents.py:627-633 | the cover summed over time is the total length of the windows |
| Sweep.TimesAddUp | _tools/tape-subagents.py:657-663 | levels weighted by their times, plus the last level over the final interval, are exactly the total length of the windows |
| Sweep.TimesFallShort | _tools/tape-subagents.py:657-663 | without that final term they are so if and only if nothing covers the final interval |
| Sweep.LoneWindowUncounted | _tools/tape-subagents.py:657-667 | a subagent that worked alone counts as not busy at all |
| Markers.ReadsBetween | _tools/docs.py:758-764 | a block is what stands between the first begin marker and the first end marker of its name, and there is none when either is missing or they are the wrong way round |
| Markers.ReadReplaced | _tools/docs.py:758-772 | a replaced text reads back as the new block, up to the first end marker in it |
| Markers.ReplacingTwice | _tools/docs.py:767-772 | replacing by the same body twice changes nothing the second time if and only if the stripped body does not hold the end marker |
| Markers.QuotedMarkerGrows | _tools/docs.py:767-772 | a body that quotes the block's own end marker: the text grows with every run |
| Markers.WhatIsPutIsRead | _tools/docs.py:758-772 | what is put between the markers is what is read from there, and the rest of the text is untouched |
| DocLines.EntryReadsBack | _tools/docs.py:851-861 | an entry's drawn line parses to its own level, name and note |
| DocLines.RootReadsBack | _tools/docs.py:855-861 | a root's drawn line parses if and only if its note is empty or ends in a slash |
| DocLines.PathIsRoot | _tools/docs.py:855-862 | a path alone on a line is a root, with or without a slash behind it |
| DocLines.ProseIsNoRoot | _tools/docs.py:855-858 | any other line without a glyph or a slash at its end is passed over |
| DocTree.ParseTree | _tools/docs.py:837-870 | the loop yields the last note and the first place of every path the lines name |
| DocTree.ArrangedIsSorted | _tools/docs.py:879-882 | children are sorted by place, then directories first, then path |
| DocTree.ArrangedReads | _tools/docs.py:879-882 | so what has a lower place comes first, and of one place directories before files and each by path |
| DocTree.PlacedComesFirst | _tools/docs.py:879-882 | what has a place comes before what has none |
| DocTree.TextSorts | _tools/docs.py:879-882 | text sorts by the first character that differs, a prefix before what extends it |
| DocTree.LinesLead | _tools/docs.py:878-889 | the lines left of the names lead from each directory down to every entry in it and end there: from row to row none breaks off and none begins but under a name |
| DocTree.NotesAlign | _tools/docs.py:899-902 | all notes stand in one column, two beyond the widest label that has one |
| DocTree.WalkRows | _tools/docs.py:878-889 | the recursive walk appends the rows of the directory in that order |
| DocTree.RenderTree | _tools/docs.py:873-904 | the loops draw exactly the block specified |
| DocFixpoint.WholeWalkDistinct | _tools/docs.py:878-889 | no path is drawn twice below a directory |
| DocFixpoint.StopsReadBack | _tools/docs.py:837-870 | with readable root notes the drawn lines parse to exactly the paths and notes drawn, in order |
| DocFixpoint.StopsDistinct | _tools/docs.py:891-897 | nor in the whole tree |
| DocRedraw.OnlyArrangement | _tools/docs.py:879-882 | children whose places strictly ascend can be arranged in no other way |
| DocRedraw.SameWalk | _tools/docs.py:878-889 | the order read from a drawing arranges every directory as it was drawn |
| DocRedraw.RedrawnWithFewerNotes | _tools/docs.py:855-869 | with a root note that cannot be read strictly fewer notes are drawn the second time |
| DocRedraw.RegeneratingIsStable | _tools/docs.py:837-904 | drawing over a drawing changes nothing if and only if every root's note, as read, is empty or ends in a slash |
| DocRedraw.RootNoteIsLost | _tools/docs.py:837-904 | a note typed beside a root of the code map is lost on the next run, and so are the notes of all that stands under it |
| DocRedraw.OlderTreeIsNotStable | _tools/docs.py:837-904 | a tree drawn from a root further up gives a root its note: it is drawn once and then lost |
| Profiles.ResolveChain | crates/agent-manager/src/profile.rs:601-650 | the chain is resolved if and only if the walk reaches a profile that extends nothing within sixteen existing profiles, no global one extending a project's; each refusal says how far the walk gets and why no further |
| Profiles.OneRefusal | crates/agent-manager/src/profile.rs:601-650 | a name that does not resolve is refused for one reason only |
| Profiles.WalkIsPrefix | crates/agent-manager/src/profile.rs:606-646 | any walk from a name is the beginning of the one that goes all the way |
| Profiles.WalksNeverReturn | crates/agent-manager/src/profile.rs:617-621 | a walk that ends meets no profile twice |
| Profiles.OneChain | crates/agent-manager/src/profile.rs:601-650 | a name has at most one chain |
| Profiles.GlobalsFirst | crates/agent-manager/src/profile.rs:633-642 | from root to leaf all global profiles come before all of the project's |
| Profiles.ChainIsOwnFirst | crates/agent-manager/src/profile.rs:542-548 | each profile on a chain is the project's own wherever the project has one of that name |
| Profiles.HiddenIsUnseen | crates/agent-manager/src/profile.rs:501-503 | a global profile that the project shadows makes no difference to any chain |
| Profiles.ChildsChain | crates/agent-manager/src/profile.rs:601-650 | a child resolves if and only if it may extend its parent and that resolves, one short of too deep at most; its chain is its parent's and then the child |
| Profiles.OwnNameNeverResolves | crates/agent-manager/src/profile.rs:540-547 | a profile that extends its own name never resolves, a project's over the global one of that name included |
| Profiles.Overlay | crates/agent-manager/src/profile.rs:191-213 | each default the higher layer sets replaces the lower one's |
| Profiles.Flatten | crates/agent-manager/src/profile.rs:657-700 | the loop folds the chain |
| Profiles.FlattenApart | crates/agent-manager/src/profile.rs:657-700 | folding two stretches in a row is merging what each folds to |
| Profiles.LeafWins | crates/agent-manager/src/profile.rs:652-700 | field by field the effective profile says what the most specific profile that mentions it says |
| Layers.FlattenedMention | crates/agent-manager/src/profile.rs:657-700 | a field of the folded profile is the first mention from leaf to root |
| Layers.PickedFromLayers | crates/agent-manager/src/resolve.rs:131-141 | the value picked is that of the first layer that mentions it in flags, leaf up to root profile, harness settings, defaults |
| Layers.IdListsReplace | crates/agent-manager/src/resolve.rs:242-270 | which holds of the ids of mcps, skills and hooks |
| Layers.LookUp | crates/agent-manager/src/resolve.rs:276-336 | the entries are the requested list filtered in order, with exactly one problem for each id dropped |
| Layers.Place | crates/agent-manager/src/overlay.rs:35-42 | a base puts its files only where there are none |
| Layers.Materialize | crates/agent-manager/src/overlay.rs:35-42 | paths already there are unchanged, every other holds what the last base that has it says, so leaf first without overwriting is root first with overwriting on the rest |
| Worklists.ClosedHoldsReachable | _tools/licenses.py:75-89 | a closed set that holds the seeds holds everything reachable |
| Worklists.TakenUp | _tools/licenses.py:79-88 | taking one package up keeps the worklist's promise |
| Worklists.ReachablePackages | _tools/licenses.py:75-89 | exactly the packages that normal and build edges lead to from a workspace member |
| Worklists.FetchBatch | _tools/webassets.py:338-343 | the batch's bodies are stored and every link that is not seen is queued |
| Worklists.CloseDependencies | _tools/webassets.py:321-345 | exactly what the seeds lead to by links is fetched, each url once |
| Geometry.EpsilonIsExact | _tools/teamsim/algos.py:50-50 | on whole numbers comparing with the tolerance of a hundredth is comparing exactly |

## Left out

- Finish.LayoutAuto: does not give connections or the bounding box, which are read off the cards and sessions that it
  does place; it is the from-scratch arrangement, so the one that grows block by block and positions set by hand are not
  in it.
- Rows.InsideOf: folds rows by any rule, so it does not model which rule `break_at` and `break_to` are.
- Skyline.PackBest: takes the side and the score as parameters and does not model `sqrt` and `score`.
- Arrivals.FirstFit: rounds bands by any function; duplicates among bands and columns are kept, since equal candidates cost the same.
- Push.Canvas.Push: does not say that the waves settle, because nothing bounds how far containers are pushed; it says
  what holds when they do. The wave over the cards inside one container, and the moves of a whole history, are the same
  wave repeated and are not modelled.
- Push.Canvas.Wave: a container's rectangle is moved as a whole; that its cards move with it is the arrangement's reading
  of offsets, modelled in `Build`.
- Sweep.Levels: takes timestamps as they are; how the tape yields them is not part of this model.
- Timestamps.PrintedParses: covers what section 5.6 of RFC 3339 prints with an upper-case `T` and `Z`; numbers out of range,
  such as a month 13, are read by the parser as they stand, and 64-bit overflow of the final sum is not modelled.
- Calendar.ClosedFormCounts: is over unbounded integers, so a year near the end of the 64-bit range is outside it.
- Install.RunInv: reads and writes whole directories; what unpacking does, checksums, and a process that is killed between
  two steps are not part of this model.
- DocTree.RenderTree: takes the block as lines and the file tree as a tree; splitting text at line ends, listing
  directories and ignored names are left out.
- DocRedraw.RegeneratingIsStable: is for names without slashes, edge whitespace or double spaces, and for roots none of
  which lies in another, as a file system and the list of roots give them.
- Profiles.ResolveChain: does not model a store that fails to read.
- Layers.LookUp: a problem names the id only, without its near matches.
- Layers.Materialize: paths are flat keys; a file where another base has a directory is not modelled.
- Worklists.CloseDependencies: fetching is a function of the url, and links stay in some finite set.
- Balance.Tiles: works on whole numbers and stops at the tile sums; the mean and the deviation made of them are left out.
- Trigonometric rings, spread and jitter, which promise no exact result, are parameters or left out.
- `version_cmp` and `find_installed`, which only order what is installed, and `unique`, whose tags are taken as different.
- Accounts, configuration, sandboxing, network access, rendering and reports.
