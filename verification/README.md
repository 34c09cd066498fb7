# Proofs about the fast marching solver, Expat and udns

SimGear keeps three libraries under `3rdparty`: a header that computes arrival times on a grid by
fast marching, the Expat XML parser and the udns resolver. This project models the algorithms at
their centre and proves what they are for:

- **Fast marching.** Entries leave the band in order, every reachable cell is frozen once, and the
  finished grid solves the discrete equation on both sides of the boundary. The seeds, which come
  from connected components and dilation bands, are exactly the non-boundary cells beside the boundary.
- **Expat content models and values.** The role machine accepts exactly the content models, the block
  handed to the application shows the model that was read, an attribute value says what the characters and
  references in its text stand for, entity expansion ends and reports recursion exactly when it would otherwise
  never end, and the fast path of the attribute scanner is taken exactly where normalization changes nothing.
- **Expat stores.** The hash table is a finite map for every hash function, the table of expanded
  names never confuses elements, prefix bindings nest, the context string restores the scope it was
  made from, and the string pool stores what it is given.
- **Incremental CDATA sections.** The outcome does not depend on how the bytes were cut into buffers, and is what
  the characters and line ends of the text before the first "]]>" say.
- **udns names.** Printing and parsing are inverse to each other, and decompression reads exactly the
  names with at most 100 jumps.

Times are exact reals. A cell that is not frozen has time `None` instead of the largest float. The square
root is a parameter, assumed to be exact where a result needs it; a solver is a function of a cell and the
grid that may throw. Memory is a parameter too: a boolean for each allocation. Hash functions are arbitrary
functions, and the characters that may occur in names are arbitrary sets.

Objects the C and C++ code updates in place are classes here, loops are loops, and each such method is tied
by its `ensures` to a function or predicate whose own properties are lemmas. What such a function gives is also told
without it: from the cells of a box, the parts of a text, or the names that a sender writes.

## Reading order

| area | modules |
|---|---|
| shared | `Wrappers`, `Arithmetic`, `Bytes`, `ByteTexts`, `Pieces` |
| grid and heap | `Grids`, `NarrowBands` |
| the march, for any solver | `Marching`, `MarchReach`, `MarchOutcome` |
| distances | `Upwind`, `Distance`, `DistanceMarch` |
| travel times | `Eikonal`, `EikonalCode`, `EikonalCausal`, `EikonalThrows`, `EikonalUpwind`, `EikonalMarch`, `EikonalThree` |
| seeds | `Neighborhoods`, `Components`, `Seeds`, `NarrowBandSeeds`, `BandPlans`, `Boxes` |
| whole computation | `ArrivalTimes`, `InputChecks`, `ArrivalOutcome`, `SolverTheorems`, `SafeMarches`, `ContainedExample` |
| hash tables | `Probing`, `HashTables`, `NamespaceTables`, `ExpandedNames` |
| namespaces and contexts | `Bindings`, `ReservedNames`, `ContextString`, `ExternalContext`, `InheritedContext` |
| attribute values | `XmlBytes`, `AttributeTokens`, `XmlChars`, `EntityExpansion`, `AttributeValues`, `AttributeTexts`, `StoredValues` |
| start tags | `AttributeScan`, `StartTags`, `FastPaths` |
| content models | `ContentGrammar`, `ContentForm`, `ContentMachine`, `ContentScaffold`, `ContentBuilder`, `ContentBlock`, `ContentReader` |
| CDATA sections | `CdataSection`, `CdataTexts`, `CdataFeeder` |
| string pools | `Utf8Copy`, `TrimmedTexts`, `StringPools` |
| domain names | `DomainNames`, `DomainNameParser`, `DomainTexts`, `DnsPacket`, `CompressedNames` |

## Model

| member | source | states |
|---|---|---|
| `SolverTheorems.DistancesSolveEquation` | 3rdparty/thinks_fmm/fast_marching_method.hpp:1343-1422 | at every cell off the boundary the delivered grid solves the upwind equation with the final times of the neighbours: as it stands, and negated at the cells to which a walk off the boundary leads from a seed in a band that is not the largest around its component |
| `SolverTheorems.InnerIffEnclosed` | 3rdparty/thinks_fmm/fast_marching_method.hpp:1382-1401 | the cells that are negated are exactly those to which such a walk leads |
| `SolverTheorems.DistancesInOrder` | 3rdparty/thinks_fmm/fast_marching_method.hpp:1300-1331 | with the distance solver, in up to three dimensions, both marches freeze cells in non-decreasing order of time |
| `SolverTheorems.EikonalTimesBounded` | 3rdparty/thinks_fmm/fast_marching_method.hpp:1343-1422 | in any dimension, for any speeds: each march freezes in order exactly when the stencils around every frozen cell allow it, which they do with at most two dimensions, without the fallback, and with it whenever it is not taken for three or more axes; and a march in order gives no time above the weighted length of a grid path |
| `SolverTheorems.InnerIsSeeded` | 3rdparty/thinks_fmm/fast_marching_method.hpp:1382-1393 | a computation that succeeds started the inside march with every reached cell beside a frozen one in the band |
| `SolverTheorems.OuterIsSeeded` | 3rdparty/thinks_fmm/fast_marching_method.hpp:1403-1416 | a computation that succeeds started the outside march, on the grid the inside march has changed, with every reached cell beside a frozen one in the band |
| `SolverTheorems.DistanceSolvesUpwind` | 3rdparty/thinks_fmm/fast_marching_method.hpp:1989-2010 | the distance solver demands no more than a frozen face neighbour and solves the upwind equation whenever it returns |
| `Marching.MarchNarrowBand` | 3rdparty/thinks_fmm/fast_marching_method.hpp:1300-1331 | ends for any solver; the pops are a run of the specification from the given state, and the grid is where that run ends |
| `Marching.UpdateNeighbors` | 3rdparty/thinks_fmm/fast_marching_method.hpp:1258-1290 | pushes one entry for each unfrozen face neighbour in the grid, or throws when a solve does |
| `Marching.RunsAgree` | 3rdparty/thinks_fmm/fast_marching_method.hpp:1308-1330 | the march is deterministic: two runs of one length pop the same entries |
| `Marching.PushedSound` | 3rdparty/thinks_fmm/fast_marching_method.hpp:1270-1289 | every pushed entry is the solve value of an unfrozen neighbour in the grid that has a frozen neighbour |
| `Marching.PushedComplete` | 3rdparty/thinks_fmm/fast_marching_method.hpp:1270-1289 | every unfrozen neighbour in the grid gets an entry |
| `NarrowBands.NarrowBandStore.Pop` | 3rdparty/thinks_fmm/fast_marching_method.hpp:535-546 | takes a least entry by time and then coordinates, and removes one copy of it |
| `NarrowBands.LeastUnique` | 3rdparty/thinks_fmm/fast_marching_method.hpp:554-560 | the least entry is unique |
| `NarrowBands.IndexLeqIff` | 3rdparty/thinks_fmm/fast_marching_method.hpp:554-560 | of two entries with one time the one goes first whose coordinate is smaller on the first axis on which they differ |
| `MarchReach.FreezesExactlyReached` | 3rdparty/thinks_fmm/fast_marching_method.hpp:1293-1331 | a finished march froze exactly the cells with a path of face steps over initially unfrozen cells from the band, and changed no frozen cell |
| `MarchReach.FrozenOnce` | 3rdparty/thinks_fmm/fast_marching_method.hpp:1318-1329 | once a cell is frozen its time never changes for the rest of the run |
| `MarchReach.OrderedIffKept` | 3rdparty/thinks_fmm/fast_marching_method.hpp:1300-1331 | for any solver entries are popped in order exactly when no turn puts an entry in the band that lies below the one just popped |
| `MarchReach.TurnFreezes` | 3rdparty/thinks_fmm/fast_marching_method.hpp:1308-1330 | a turn freezes the popped cell with the popped time if it was not frozen, and leaves every other cell as it was |
| `MarchOutcome.SameTimes` | 3rdparty/thinks_fmm/fast_marching_method.hpp:1270-1289 | marches from bands with the same entries leave the same grid, however often an entry is in a band: repeated and stale entries are ignored |
| `MarchOutcome.NoThrow` | 3rdparty/thinks_fmm/fast_marching_method.hpp:1300-1331 | where one of them finishes the solver stops none of them |
| `MarchOutcome.OneGoesOn` | 3rdparty/thinks_fmm/fast_marching_method.hpp:1300-1331 | of two runs from such bands one has frozen what the other has, with the same times and in the same order, and perhaps more |
| `Upwind.RootUnique` | 3rdparty/thinks_fmm/fast_marching_method.hpp:1778-1793 | the upwind equation has at most one root |
| `Upwind.MinimaLowered` | 3rdparty/thinks_fmm/fast_marching_method.hpp:1737-1764 | freezing a neighbour lowers the smallest neighbour on its axis and no other |
| `Distance.DistanceSolveExact` | 3rdparty/thinks_fmm/fast_marching_method.hpp:1723-1798 | the solver returns the unique time whose squared rises over the contributing axes sum to the squared spacing, and throws exactly when that time is negative |
| `Distance.NetworkSorts` | 3rdparty/thinks_fmm/fast_marching_method.hpp:1767-1776 | the swap network puts up to three values in ascending order, each as often as before, and absent ones last |
| `Distance.BothIsRoot` | 3rdparty/thinks_fmm/fast_marching_method.hpp:1778-1782 | the two-axis radicand is positive where it is used, and the root lies above both values |
| `Distance.AllThreeIsRoot` | 3rdparty/thinks_fmm/fast_marching_method.hpp:1783-1792 | where three axes are used the radicand is positive, so the clamp at zero changes nothing, and the value is the root |
| `Distance.SolveDistance` | 3rdparty/thinks_fmm/fast_marching_method.hpp:1723-1798 | the code computes the specified value for every solvable cell in one to three dimensions |
| `Distance.SmallestNeighbor` | 3rdparty/thinks_fmm/fast_marching_method.hpp:1738-1759 | the smaller frozen time of the two neighbours on an axis |
| `DistanceMarch.MarchSolvesEquation` | 3rdparty/thinks_fmm/fast_marching_method.hpp:1300-1331 | for any solver of the upwind equation, every cell a finished march froze satisfies it with the final times |
| `DistanceMarch.PopsOrdered` | 3rdparty/thinks_fmm/fast_marching_method.hpp:1300-1331 | for any such solver entries are popped in non-decreasing order of time |
| `DistanceMarch.OrderedStep` | 3rdparty/thinks_fmm/fast_marching_method.hpp:1308-1330 | one turn keeps the invariants of the run, with the popped time as the new floor |
| `Eikonal.EstimateMeans` | 3rdparty/thinks_fmm/fast_marching_method.hpp:1512-1553 | what the solver finds solves the eikonal equation or is the smallest one-axis estimate |
| `EikonalCausal.SolvesIff` | 3rdparty/thinks_fmm/fast_marching_method.hpp:1457-1559 | a returned time solves the eikonal equation exactly when one axis is frozen or, of several, the discriminant is not negative and, with the fallback on, the root is not negative |
| `EikonalCausal.UsesRootIff` | 3rdparty/thinks_fmm/fast_marching_method.hpp:1424-1440 | when the branch with the root is taken, told from the neighbours, the spacing and the speed without the square root |
| `EikonalThree.FallbackIsNoSolution` | 3rdparty/thinks_fmm/fast_marching_method.hpp:1537-1552 | unit spacing and speed, neighbours at 0, 4/3 and 100: the fallback gives 1, where the slopes add up to more than the right side |
| `EikonalUpwind.SolvesUpwindIff` | 3rdparty/thinks_fmm/fast_marching_method.hpp:1457-1559 | a returned time solves the upwind form, which counts only lower neighbours, exactly when the root is used and not below a neighbour, or one axis has an estimate that no other neighbour lies below |
| `EikonalThree.RootIsNotUpwind` | 3rdparty/thinks_fmm/fast_marching_method.hpp:1512-1536 | unit spacing and speed, neighbours at 0, 4/3 and 1: the root 8/9 does not solve the upwind form |
| `Eikonal.RootExact` | 3rdparty/thinks_fmm/fast_marching_method.hpp:1424-1440 | the largest root of the quadratic solves the eikonal equation, and is at least l exactly when l is left of the vertex or the slopes at l do not exceed the right side |
| `Eikonal.EstimateAtMostStep` | 3rdparty/thinks_fmm/fast_marching_method.hpp:1512-1553 | in any dimension a solve value is at most one step beyond each frozen neighbour |
| `EikonalCausal.EstimateAtLeastIff` | 3rdparty/thinks_fmm/fast_marching_method.hpp:1512-1553 | in any dimension, exactly when a solve value is not below a bound |
| `EikonalCausal.Causal` | 3rdparty/thinks_fmm/fast_marching_method.hpp:1457-1559 | in any dimension, an estimate at least l that is not the fallback for three or more axes stays at least l when an axis is lowered to l |
| `EikonalCode.SolveEikonal` | 3rdparty/thinks_fmm/fast_marching_method.hpp:1457-1559 | the code computes the specified estimate, with or without the fallback, or throws where `EikonalThrows.ThrownIff` says |
| `EikonalThrows.ThrownIff` | 3rdparty/thinks_fmm/fast_marching_method.hpp:1512-1559 | the solver throws exactly when there is no root at or after zero and, with several frozen axes, the fallback is off or, otherwise, a step along some frozen axis ends before zero |
| `EikonalThrows.NeverBeforeZero` | 3rdparty/thinks_fmm/fast_marching_method.hpp:1512-1559 | with the fallback on it returns a time whenever a neighbour is frozen and none before zero |
| `EikonalThrows.ReturnsIff` | 3rdparty/thinks_fmm/fast_marching_method.hpp:1512-1559 | the time it returns is not negative, and the neighbours, the spacing and the speed say exactly which bounds it reaches |
| `EikonalCode.FindFrozenAxes` | 3rdparty/thinks_fmm/fast_marching_method.hpp:1469-1509 | lists the axes with a frozen neighbour and the smaller time on each |
| `EikonalCode.SumsOverAxes` | 3rdparty/thinks_fmm/fast_marching_method.hpp:1512-1552 | the coefficients and the fallback over the list are those over all axes |
| `EikonalMarch.PopsOrdered` | 3rdparty/thinks_fmm/fast_marching_method.hpp:1300-1331 | in any dimension, for any speeds, entries are popped in non-decreasing order of time unless a solve takes the fallback for three or more axes |
| `EikonalMarch.AlwaysSteady` | 3rdparty/thinks_fmm/fast_marching_method.hpp:1457-1559 | no solve takes the fallback for three or more axes in a grid of at most two dimensions or with the fallback off |
| `EikonalMarch.TurnKeepsIff` | 3rdparty/thinks_fmm/fast_marching_method.hpp:1258-1290 | a turn pushes nothing below the time just frozen exactly when the stencil of every unfrozen neighbour, with that time in it, does not fall below it |
| `EikonalMarch.OrderedIff` | 3rdparty/thinks_fmm/fast_marching_method.hpp:1300-1331 | in any dimension, fallback or not, a run is in order exactly when every turn but the last meets the condition of the stencils around its cell |
| `EikonalMarch.TimeAtMostPath` | 3rdparty/thinks_fmm/fast_marching_method.hpp:1300-1331 | in the finished grid of a run in order, in any dimension, no time exceeds the weighted length of a grid path |
| `EikonalThree.OrderBreaks` | 3rdparty/thinks_fmm/fast_marching_method.hpp:1537-1552 | a complete run in three dimensions, with the fallback on, that freezes one cell at 1 and then another at 8/9 |
| `Neighborhoods.VertexNeighborOffsets` | 3rdparty/thinks_fmm/fast_marching_method.hpp:672-707 | lists every offset with components -1, 0 and 1 except zero, each once |
| `Neighborhoods.FaceNeighborOffsets` | 3rdparty/thinks_fmm/fast_marching_method.hpp:650-670 | lists the unit steps in both directions along every axis |
| `Components.ConnectedComponents` | 3rdparty/thinks_fmm/fast_marching_method.hpp:719-794 | splits the listed cells: none is missed, none is in two components, and each component grows from its first cell |
| `Components.SameComponentIffConnected` | 3rdparty/thinks_fmm/fast_marching_method.hpp:709-717 | two cells are in one component exactly when a walk over neighbours inside the foreground joins them |
| `Components.FloodFill` | 3rdparty/thinks_fmm/fast_marching_method.hpp:754-786 | fills one component and ends, leaving every cell it visited settled |
| `Seeds.DilationBands` | 3rdparty/thinks_fmm/fast_marching_method.hpp:837-916 | the bands are the connected components of the cells beside the given ones, in a grid padded by one cell |
| `NarrowBandSeeds.NarrowBandDilationBandCells` | 3rdparty/thinks_fmm/fast_marching_method.hpp:936-984 | keeps exactly the cells of a dilation band that are in the grid and beside a cell marked in the mask |
| `NarrowBandSeeds.OutsideInsideNarrowBandIndices` | 3rdparty/thinks_fmm/fast_marching_method.hpp:1003-1174 | the two lists together are exactly the non-boundary cells of the grid with a boundary cell beside them; for each component of the boundary over shared vertices, and the bands around it connected over faces, the outside list takes such cells of the band with the largest box, and the inside list those of the other bands |
| `BandPlans.SidesFixed` | 3rdparty/thinks_fmm/fast_marching_method.hpp:1106-1132 | the boundary alone fixes which cells are in which list, unless two bands around a component tie for the largest box |
| `Boxes.VolumeCounts` | 3rdparty/thinks_fmm/fast_marching_method.hpp:594-611 | in any dimension, the volume of a box is the number of cells in it |
| `Boxes.InsideIsSmaller` | 3rdparty/thinks_fmm/fast_marching_method.hpp:1106-1128 | a box inside another one has the smaller volume, unless they are the same |
| `Boxes.InnerNotChosen` | 3rdparty/thinks_fmm/fast_marching_method.hpp:1106-1132 | so a band whose box lies inside the box of another band is never the one chosen for the outside list |
| `NarrowBandSeeds.BandsByVolume` | 3rdparty/thinks_fmm/fast_marching_method.hpp:1112-1128 | the order by size of bounding box is a permutation of the bands, largest first |
| `NarrowBandSeeds.BoundingBox` | 3rdparty/thinks_fmm/fast_marching_method.hpp:569-592 | the least and greatest coordinate of the cells on every axis |
| `Grids.Grid.SetCell` | 3rdparty/thinks_fmm/fast_marching_method.hpp:487-509 | writing a cell changes what the grid shows at that coordinate only |
| `Grids.LinearIndexInjective` | 3rdparty/thinks_fmm/fast_marching_method.hpp:385-413 | distinct coordinates in the grid never share a place in the buffer |
| `Grids.FirstAxisFastest` | 3rdparty/thinks_fmm/fast_marching_method.hpp:385-413 | the origin is first in the buffer, and a step along an axis moves by the number of cells of the axes before it |
| `Boxes.CellsCount` | 3rdparty/thinks_fmm/fast_marching_method.hpp:34-47 | the linear size of a grid is the number of its cells |
| `ArrivalTimes.SignedArrivalTime` | 3rdparty/thinks_fmm/fast_marching_method.hpp:2026-2040 | the first failing input check is reported (`InputChecks.FirstDefect` says which); otherwise the seeds are those of the bands around the boundary, and a success freezes every cell, keeps the boundary times, and is made of one complete march from each seed list that is not empty; a later failure is a duplicate boundary cell, a solve that threw for a seed or beside the cell just frozen, or a contained component |
| `InputChecks.PassesIff` | 3rdparty/thinks_fmm/fast_marching_method.hpp:1356-1364 | different cells inside the grid, with as many times, pass the checks exactly when some cell of the grid is boundary and some is not |
| `InputChecks.FirstDefect` | 3rdparty/thinks_fmm/fast_marching_method.hpp:1356-1364 | any input is reported for the first of its defects, and passes exactly when it has none |
| `ArrivalOutcome.OneResult` | 3rdparty/thinks_fmm/fast_marching_method.hpp:1343-1422 | the input alone fixes the delivered grid or the failure, unless two bands around a component tie for the largest box |
| `ArrivalOutcome.OneOutcome` | 3rdparty/thinks_fmm/fast_marching_method.hpp:1343-1422 | so do the sides of the seeds, whatever their order and repetitions in the lists |
| `ArrivalOutcome.DeliversIff` | 3rdparty/thinks_fmm/fast_marching_method.hpp:1343-1422 | with a solver that never throws a computation with a seed delivers a grid exactly when the boundary has no duplicate and no component is contained |
| `SafeMarches.SolverNeverStops` | 3rdparty/thinks_fmm/fast_marching_method.hpp:1343-1422 | a solver that throws for negative times only, and gives none where no neighbour has one, stops no computation whose boundary times are at most zero if there is an inside seed and at least zero if there is an outside one |
| `SafeMarches.DistancesDelivered` | 3rdparty/thinks_fmm/fast_marching_method.hpp:1343-1422 | with such boundary times distances are delivered exactly for a boundary without duplicates and contained components |
| `SafeMarches.EikonalTimesDelivered` | 3rdparty/thinks_fmm/fast_marching_method.hpp:1343-1422 | so are eikonal times with the fallback on, in any dimension and for any speeds |
| `ArrivalOutcome.CoveredStaysBlank` | 3rdparty/thinks_fmm/fast_marching_method.hpp:1356-1422 | there is no seed exactly when the boundary covers the grid, and then the result has no frozen cell |
| `ArrivalOutcome.DoubledCell` | 3rdparty/thinks_fmm/fast_marching_method.hpp:1356-1364 | a boundary that names the one cell of a grid twice passes every check |
| `ArrivalTimes.MarchFrom` | 3rdparty/thinks_fmm/fast_marching_method.hpp:1382-1416 | writes the boundary times with their sign, fills the band and marches to the end, or to the first solve that throws; duplicates are found exactly when asked for |
| `ArrivalTimes.EverythingFrozen` | 3rdparty/thinks_fmm/fast_marching_method.hpp:1418-1419 | after both marches no cell is left unfrozen, as the closing assertion of the source demands |
| `ArrivalTimes.SetBoundaryCondition` | 3rdparty/thinks_fmm/fast_marching_method.hpp:1203-1222 | writes the times in order, and refuses a duplicate exactly when the check is on |
| `ArrivalTimes.InitializedNarrowBand` | 3rdparty/thinks_fmm/fast_marching_method.hpp:1235-1252 | the band holds the solve value of every seed and nothing else, or a seed has a solve that throws |
| `ArrivalTimes.ContainedIff` | 3rdparty/thinks_fmm/fast_marching_method.hpp:1034-1064 | for the seed lists of a plan of the bands: the outside march would start from a cell that is frozen already exactly when a walk over non-boundary cells leads from an inside seed to an outside one |
| `ContainedExample.AlwaysContained` | 3rdparty/thinks_fmm/fast_marching_method.hpp:1032-1057 | a ring of twelve cells around a block of nine, with the middle of the block on the boundary too: under every plan the cells beside the middle one are seeds of both lists |
| `ContainedExample.NeverDelivered` | 3rdparty/thinks_fmm/fast_marching_method.hpp:1403-1416 | this input passes every check, and with a solver that never throws the outside march is always to start from a frozen cell |
| `Probing.EverySlotProbed` | 3rdparty/expat/xmlparse.c:219-230 | a round of odd steps over a table of a power of two visits every slot |
| `Probing.ProbeStep` | 3rdparty/expat/xmlparse.c:224-230 | the step is odd and shorter than the table |
| `HashTables.HashTable.Lookup` | 3rdparty/expat/xmlparse.c:6876-6963 | the table is a finite map: a name that is present is found, a new one is entered, and a failed growth or allocation leaves the map unchanged |
| `HashTables.HashTable.Grow` | 3rdparty/expat/xmlparse.c:6909-6946 | doubles the table exactly when the size fits and memory allows, with the same map |
| `HashTables.RehashSound` | 3rdparty/expat/xmlparse.c:6930-6946 | moving the entries to a larger table keeps every one of them findable |
| `HashTables.ProbingEnds` | 3rdparty/expat/xmlparse.c:6898-6905 | with a free slot in the table probing meets it within a round |
| `HashTables.StopsRight` | 3rdparty/expat/xmlparse.c:6895-6907 | where probing stops tells whether the name is present |
| `HashTables.HashTable.Clear` | 3rdparty/expat/xmlparse.c:6965-6973 | drops every entry and keeps the slots |
| `NamespaceTables.NamespaceTable.Expand` | 3rdparty/expat/xmlparse.c:3453-3621 | whatever earlier elements left in the table, the verdict depends on this element alone; no version is ever stale |
| `NamespaceTables.AcceptedIff` | 3rdparty/expat/xmlparse.c:3517-3593 | an element is accepted exactly when all prefixes are bound and no name matches an earlier one under the comparison made |
| `ExpandedNames.VerdictIff` | 3rdparty/expat/xmlparse.c:3517-3621 | a verdict is the one given exactly when it is right: it names the first attribute with an unbound prefix or a collision, and which of the two, or hands over all names, with triplets with separator and prefix |
| `ExpandedNames.CollidesIff` | 3rdparty/expat/xmlparse.c:3579-3588 | under equal hashes a name collides with an earlier one when it starts that name, or goes on behind it with the separator and the start of its prefix |
| `NamespaceTables.EqualNamesReported` | 3rdparty/expat/xmlparse.c:3572-3593 | two equal expanded names are always reported, for any hash function |
| `NamespaceTables.PrefixReported` | 3rdparty/expat/xmlparse.c:3579-3588 | under colliding hashes a proper prefix of an earlier name is reported as well |
| `NamespaceTables.DistinctNamesAccepted` | 3rdparty/expat/xmlparse.c:3572-3593 | names with distinct hashes are accepted |
| `NamespaceTables.NamespaceTable.Prepare` | 3rdparty/expat/xmlparse.c:3456-3514 | before an element no slot carries the new version, and the table is more than twice as large as the number of attributes |
| `NamespaceTables.WalkEnds` | 3rdparty/expat/xmlparse.c:3575-3592 | no walk meets more current slots than attributes are done |
| `NamespaceTables.FileStep` | 3rdparty/expat/xmlparse.c:3604-3612 | filing a name keeps every earlier one on its path |
| `Bindings.Namespaces.PrefixShowsNamespace` | 3rdparty/expat/xmlparse.c:3707-3844 | a prefix points to its innermost declaration, or to nothing when that undeclares the default namespace |
| `Bindings.CompleteElementsRestore` | 3rdparty/expat/xmlparse.c:3002-3063 | over any run of nested elements, complete ones leave the environment that held before them; start tags, end tags and empty elements each make one step of such a run |
| `Bindings.RunChecked` | 3rdparty/expat/xmlparse.c:3707-3844 | every declaration in force during a run has passed the checks of reserved names |
| `ReservedNames.DeclarationErrorIff` | 3rdparty/expat/xmlparse.c:3707-3790 | a declaration is let through exactly when section 3 of Namespaces in XML allows it, and each error is reported for just the declarations that have it first |
| `ReservedNames.CheckedIsLegal` | 3rdparty/expat/xmlparse.c:3707-3790 | so the declarations in force during a run are legal |
| `ReservedNames.FirstErrorIs` | 3rdparty/expat/xmlparse.c:2889-2957 | a start tag reports nothing exactly when all its declarations are legal and there is memory for them, and else what is wrong with the first other one |
| `Bindings.Namespaces.StartTag` | 3rdparty/expat/xmlparse.c:2889-2957 | declares in order up to the first error, whose kind is fixed by the declarations and the memory; without one the element is opened |
| `Bindings.Namespaces.EndTag` | 3rdparty/expat/xmlparse.c:3002-3063 | checks level and name, and restores the environment of before the start tag |
| `Bindings.Namespaces.EmptyElement` | 3rdparty/expat/xmlparse.c:2958-3001 | undoes its declarations at once, also after an error |
| `Bindings.Namespaces.AddBinding` | 3rdparty/expat/xmlparse.c:3707-3844 | checks the reserved names in order and makes the declaration the innermost of its prefix |
| `Bindings.Namespaces.FreeBindings` | 3rdparty/expat/xmlparse.c:3207-3223 | undoes the declarations of one element, latest first, and no others |
| `AttributeTokens.ScanValue` | 3rdparty/expat/xmltok_impl.c:1254-1321 | the scanner returns the specified token and position at every place of a value |
| `AttributeTokens.CharRefSpells` | 3rdparty/expat/xmltok_impl.c:1595-1651 | the digits up to the semicolon, read as a decimal or hexadecimal number, decide: too large a number and a forbidden one give none, however many digits there are |
| `XmlChars.Utf8Holds` | 3rdparty/expat/xmltok.c:1265-1299 | the bytes of a number hold that number behind the marks of UTF-8 |
| `XmlChars.Utf8WellFormed` | 3rdparty/expat/xmltok.c:1241-1263 | they are well formed for the tokenizer exactly when XML has a character of that number |
| `XmlChars.WellFormedHolds` | 3rdparty/expat/xmltok.c:116-134 | all bytes that the tokenizer takes for one character are those of a character of XML |
| `AttributeTexts.ReferenceIff` | 3rdparty/expat/xmltok_impl.c:476-589 | an ampersand in a value is taken for a reference up to a place exactly when a decimal or hexadecimal one, one of the five names or the name of an entity stands there; else the value is refused |
| `AttributeTexts.MalformedSays` | 3rdparty/expat/xmlparse.c:5737-5912 | the error for such an ampersand: an invalid token, or an unexpected state where a name ends in a character that is cut off |
| `AttributeTexts.ValueSays` | 3rdparty/expat/xmlparse.c:5719-5917 | a value written as characters, white space, line ends and references says what these stand for one after the other, up to the first error: which character each reference by number and each of the five names is, and what a reference to an entity gives |
| `EntityExpansion.ChecksDeclaredIff` | 3rdparty/expat/xmlparse.c:5816-5834 | where an undeclared entity is an error: in the content as section 4.1 of XML 1.0 has it, in the prolog by the same rule, but only in the document entity and not inside an internal entity of a standalone document |
| `EntityExpansion.RecursiveIff` | 3rdparty/expat/xmlparse.c:5846-5895 | a recursive reference is reported exactly when expansion without open flags would go deeper than any bound |
| `EntityExpansion.GuardsUnneeded` | 3rdparty/expat/xmlparse.c:5846-5895 | when none is reported the flags change nothing, and as many levels as there are entities are enough |
| `EntityExpansion.Expand` | 3rdparty/expat/xmlparse.c:5719-5917 | expansion ends for every entity table: fewer closed entities, or less text |
| `AttributeValues.RecursiveValueIff` | 3rdparty/expat/xmlparse.c:5719-5917 | for the text of a value with no entity open: a recursive reference is reported exactly when expansion without flags would go deeper than any bound, and otherwise the flags change nothing |
| `AttributeValues.ValueStore.StoreValue` | 3rdparty/expat/xmlparse.c:5704-5717 | stores the value of the expansion, which is what `AttributeTexts.ValueSays` tells of its text, and leaves every open flag as it was, on success and on error |
| `AttributeValues.ValueStore.Append` | 3rdparty/expat/xmlparse.c:5719-5917 | appends the pieces of the expansion up to the first error and leaves every open flag as it was |
| `AttributeValues.TokenizedIsTidy` | 3rdparty/expat/xmlparse.c:5704-5789 | a tokenized value has no leading, trailing or doubled spaces |
| `AttributeValues.PlainIsStoredAsIs` | 3rdparty/expat/xmlparse.c:5704-5789 | a value that needs no normalization is stored byte for byte, tokenized or not |
| `StoredValues.EscapeRoundTrip` | 3rdparty/expat/xmlparse.c:5704-5789 | every string of characters of XML, with references where it has markup characters, tabs or line ends, is stored as it is |
| `StoredValues.TokenizedDrops` | 3rdparty/expat/xmlparse.c:5704-5789 | tokenizing drops a space at the start, one at the end and one of two in a row |
| `StoredValues.TidyKept` | 3rdparty/expat/xmlparse.c:5704-5789 | and changes nothing where there is none of these |
| `AttributeScan.GetAtts` | 3rdparty/expat/xmltok_impl.c:1502-1593 | the scanner returns the specified list, with every attribute counted and those that fit recorded |
| `StartTags.AttributesFound` | 3rdparty/expat/xmltok_impl.c:1502-1593 | on the text of a tag the scanner finds every attribute, where it stands and whether it is normalized |
| `StartTags.SomeTag` | 3rdparty/expat/xmltok_impl.c:1502-1593 | there are such tags: one with an attribute between white space of every kind |
| `StartTags.FastPathExact` | 3rdparty/expat/xmlparse.c:3366-3397 | whenever the scanner leaves the mark, storing the value gives the raw bytes, so skipping normalization is exact |
| `FastPaths.MarkExact` | 3rdparty/expat/xmltok_impl.c:1502-1593 | the scanner leaves the mark exactly on the values without references that tokenizing does not change |
| `ContentMachine.AcceptsIff` | 3rdparty/expat/xmlrole.c:922-1117 | the machine with the connector check accepts exactly the tokens of content models, white space anywhere, and remembers the model |
| `ContentMachine.RunSound` | 3rdparty/expat/xmlrole.c:922-1117 | a state reached without an error remembers exactly the tokens read |
| `ContentMachine.ModelRuns` | 3rdparty/expat/xmlrole.c:922-1117 | every model, printed as tokens, is accepted |
| `ContentForm.PrintIs` | 3rdparty/expat/xmlrole.c:922-1117 | the tokens of a model are those of sections 3.2.1 and 3.2.2 of XML 1.0: particles between commas or bars in parentheses, or #PCDATA and names between bars |
| `ContentMachine.PrintInjective` | 3rdparty/expat/xmlrole.c:922-1117 | different models have different tokens |
| `ContentMachine.WhiteIgnored` | 3rdparty/expat/xmlrole.c:922-1117 | white space between tokens changes nothing |
| `ContentReader.ModelReader.ReadModel` | 3rdparty/expat/xmlparse.c:5317-5434 | a declaration succeeds exactly on the tokens of a model, and the block handed over has exactly its size and shows it |
| `ContentReader.ModelReader.Read` | 3rdparty/expat/xmlparse.c:5139-5216 | each token makes the step of the machine; the last one yields the block |
| `ContentReader.ModelReader.NextScaffoldPart` | 3rdparty/expat/xmlparse.c:7259-7317 | links a new node as the last child of the innermost group |
| `ContentReader.BuildModel` | 3rdparty/expat/xmlparse.c:7352-7388 | fills exactly the cells and characters counted, and shows the tree of the scaffold |
| `ContentBlock.BuildNode` | 3rdparty/expat/xmlparse.c:7320-7350 | writes a node, its children side by side and their names, and nothing else |
| `ContentBlock.PlacedShows` | 3rdparty/expat/xmlparse.c:7320-7350 | an application that follows the pointers of the block sees the tree |
| `ContentBlock.ShowsOne` | 3rdparty/expat/xmlparse.c:7320-7350 | a block shows no more than one model |
| `ContentScaffold.ModelEnded` | 3rdparty/expat/xmlparse.c:5415-5432 | when the outermost group ends the scaffold is the flat form of the model |
| `ContentBuilder.TracksName` | 3rdparty/expat/xmlparse.c:5372-5402 | adding a name keeps the scaffold the flat form of the open groups |
| `ContentBuilder.TracksClose` | 3rdparty/expat/xmlparse.c:5415-5420 | closing a group keeps the scaffold the flat form of the open groups |
| `ContentBuilder.TracksOpen` | 3rdparty/expat/xmlparse.c:5139-5194 | opening a group keeps the scaffold the flat form of the open groups |
| `CdataFeeder.ParseAll` | 3rdparty/expat/xmlparse.c:3849-3989 | however the bytes are cut into buffers, characters, outcome and position are those of the bytes taken together, which `CdataTexts.ClosedIff` tells of their text |
| `CdataTexts.ClosedIff` | 3rdparty/expat/xmltok_impl.c:352-424 | a section is closed with some characters at some place exactly when they are what a text of well-formed characters and line ends says that stands before the first "]]>" there |
| `CdataTexts.TextSays` | 3rdparty/expat/xmlparse.c:3849-3989 | a text says its characters as they are and a line feed for each carriage return, line feed or pair of them |
| `CdataTexts.SectionSays` | 3rdparty/expat/xmltok_impl.c:352-424 | an error too comes behind what such a text says, at a place where no character stands, one is cut off or the bytes end |
| `CdataFeeder.CdataParser.Parse` | 3rdparty/expat/xmlparse.c:3849-3871 | an outcome reached early does not depend on the bytes still to come |
| `CdataFeeder.DoCdataSection` | 3rdparty/expat/xmlparse.c:3872-3989 | delivers the tokens of a buffer and stops where the rest cannot be told yet |
| `CdataSection.ScanCdata` | 3rdparty/expat/xmltok_impl.c:352-424 | the scanner returns the specified token at every place |
| `CdataSection.TokenMeans` | 3rdparty/expat/xmltok_impl.c:352-424 | a token takes from the section what it delivers |
| `CdataSection.NoCarriageReturn` | 3rdparty/expat/xmlparse.c:3920-3926 | no carriage return is ever delivered |
| `ExternalContext.ContextRoundTrip` | 3rdparty/expat/xmlparse.c:6372-6526 | applying the printed context to the copied tables restores every binding, the default namespace and the open entities |
| `ExternalContext.ApplyValid` | 3rdparty/expat/xmlparse.c:6468-6526 | applying items keeps the form of bindings that the round trip needs: what a context reader has accepted can be printed and read again |
| `InheritedContext.GivenValid` | 3rdparty/expat/xmlparse.c:3707-3844 | the namespaces that the prefixes of a document stand for have that form, since each declaration passed the checks of addBinding |
| `InheritedContext.InheritContext` | 3rdparty/expat/xmlparse.c:6468-6526 | a parser without declarations that reads the context of its parent declares the items one by one, and unless memory runs out its prefixes then stand for what they stand for in the parent |
| `InheritedContext.PointAlike` | 3rdparty/expat/xmlparse.c:6372-6526 | where two parsers give one environment, their prefixes point to namespaces with the same text, or to none |
| `ExternalContext.Dtd.SetOpen` | 3rdparty/expat/xmlparse.c:5881-5892 | opening or closing an entity keeps the context one that can be printed and read again |
| `ExternalContext.Dtd.GetContext` | 3rdparty/expat/xmlparse.c:6372-6466 | prints the default namespace, the bound prefixes and the open entities, in the order of the tables |
| `ExternalContext.Dtd.SetContext` | 3rdparty/expat/xmlparse.c:6468-6526 | applies the items read from the string, up to the first declaration that is refused |
| `ContextString.ReadBack` | 3rdparty/expat/xmlparse.c:6468-6526 | the items of a printed context are read back, also when a URI contains an equals sign |
| `StringPools.StringPool.Append` | 3rdparty/expat/xmlparse.c:7053-7068 | stores exactly the given bytes whatever the sizes of blocks, ends, and fails only for want of memory or beyond the largest block |
| `StringPools.StringPool.Grow` | 3rdparty/expat/xmlparse.c:7155-7257 | makes strictly more room without changing the string being built or any finished one |
| `StringPools.StringPool.Finish` | 3rdparty/expat/xmlparse.c:597-597 | a finished string stays where it is, unchanged |
| `StringPools.StringPool.AppendChar` | 3rdparty/expat/xmlparse.c:598-601 | one byte more in the string being built, or a failed growth and no change |
| `StringPools.StringPool.Discard` | 3rdparty/expat/xmlparse.c:596-596 | drops the string being built and keeps the finished ones |
| `StringPools.StringPool.Clear` | 3rdparty/expat/xmlparse.c:7018-7035 | all blocks become free blocks |
| `Utf8Copy.Trim` | 3rdparty/expat/xmltok.c:329-366 | cuts at the greatest character boundary not behind the limit |
| `TrimmedTexts.TrimKeepsWhole` | 3rdparty/expat/xmltok.c:329-366 | in any text of characters this leaves as many whole ones as there is room for |
| `DomainNames.NameToText` | 3rdparty/udns/udns_dn.c:287-334 | succeeds exactly when the text and its terminator fit, returns its size, and writes nothing behind the limit |
| `DomainNames.NameTextSize` | 3rdparty/udns/udns_dn.c:247-282 | the size of the printed form, or 0 for one that is too long |
| `DomainNames.TextAtMost1004` | 3rdparty/udns/udns_dn.c:247-282 | a name of at most 255 bytes never prints to more than 1004, so the sentinel is never hit |
| `DomainNames.NameLength` | 3rdparty/udns/udns_dn.c:27-32 | the length of the wire form |
| `DomainNameParser.TextToName` | 3rdparty/udns/udns_dn.c:66-145 | gives the code and the bytes that the grammar of names calls for |
| `DomainNameParser.ParsePrinted` | 3rdparty/udns/udns_dn.c:66-145 | reading a printed name gives its bytes back |
| `DomainTexts.NameReads` | 3rdparty/udns/udns_dn.c:66-145 | a name written with bytes as they are, quoted or by number, and dots between its labels is read as these labels when it fits, and is absolute exactly when a dot ends it |
| `DomainTexts.RootReads` | 3rdparty/udns/udns_dn.c:66-145 | the empty text and a single dot are read as the absolute root |
| `DomainTexts.EmptyLabel` | 3rdparty/udns/udns_dn.c:92-102 | a dot where a label should start is refused |
| `DomainTexts.LongLabel` | 3rdparty/udns/udns_dn.c:92-102 | so is a label of 64 bytes or more |
| `DomainTexts.NameTooLong` | 3rdparty/udns/udns_dn.c:66-145 | when it does not fit it is refused for that |
| `DomainTexts.PrintedIsText` | 3rdparty/udns/udns_dn.c:295-322 | each byte is printed as itself, quoted or by three digits, in printable characters only |
| `DomainNameParser.RoundTrip` | 3rdparty/udns/udns_dn.c:66-334 | a name printed into a buffer and read back from it is restored byte for byte |
| `DnsPacket.GetName` | 3rdparty/udns/udns_parse.c:42-89 | ends on every packet, returns what the specification of decompression gives, error codes included, and changes no byte behind the size given, except one for a terminator that does not fit |
| `DnsPacket.OverrunIff` | 3rdparty/udns/udns_parse.c:42-89 | a name is written past the size given, by its terminator alone, exactly when its labels fill that size |
| `DnsPacket.OverrunExample` | 3rdparty/udns/udns_parse.c:42-89 | the packet 1, 97, 0 read into two bytes writes three |
| `DnsPacket.ReadsLikeRfc` | 3rdparty/udns/udns_parse.c:42-89 | at every stage the reading by the RFC is malformed when a reserved length byte is met and that of the code otherwise |
| `DnsPacket.SameAsRfcIff` | 3rdparty/udns/udns_parse.c:42-89 | a consequence: the two readings are equal exactly when no reserved length byte is met on the way, or the code finds the name malformed too |
| `DnsPacket.ReservedExample` | 3rdparty/udns/udns_parse.c:42-89 | a packet with a length byte of 64 that the code takes for a pointer and the RFC for an error |
| `DnsPacket.SuccessIff` | 3rdparty/udns/udns_parse.c:42-89 | exactly the names reached over at most 100 jumps whose labels fit are read |
| `CompressedNames.WrittenIsRead` | 3rdparty/udns/udns_parse.c:42-89 | labels followed by the end or by a pointer of 14 bits to a name that is read are themselves read when they fit, and the cursor stops behind them |
| `CompressedNames.NameNoRoom` | 3rdparty/udns/udns_parse.c:42-89 | a name in reach that does not fit is reported as that and not as malformed |
| `DnsPacket.ReadAdvancesLikeSkip` | 3rdparty/udns/udns_parse.c:28-40 | the cursor after a read is the one after a skip, except exactly when a pointer ends the packet |
| `DnsPacket.SkipExample` | 3rdparty/udns/udns_parse.c:28-40 | a packet that ends with a pointer, whose name is read and cannot be skipped |
| `DnsPacket.NamesUnique` | 3rdparty/udns/udns_parse.c:42-89 | a position of a packet names at most one sequence of labels |
| `DnsPacket.SkipName` | 3rdparty/udns/udns_parse.c:28-40 | skips to behind the first pointer or the terminator, or fails at the end of the packet |

## Where the code and its description differ

- The table of expanded names compares a new name with a stored one up to the end of the new name only. Two
  names of one hash, the later a proper prefix of the earlier, are reported as duplicates
  (`NamespaceTables.PrefixReported`). `NamespaceTables.AcceptedIff` gives the exact condition.
- The march is meant to freeze cells in order of time. With `SolveEikonal` it does so exactly when every stencil
  around a cell just frozen meets the condition of `EikonalMarch.OrderedIff`. That always holds in two dimensions
  and in any dimension without the fallback (`EikonalMarch.AlwaysSteady`, `EikonalMarch.PopsOrdered`). In three
  dimensions the fallback can break it: when a late frozen neighbour no longer hides an axis, the new value can lie
  below the time just frozen (`EikonalThree.OrderBreaks`).
- `SolveEikonal` is described as solving the eikonal equation. It does so exactly under the condition of
  `EikonalCausal.SolvesIff`; for the neighbours 0, 4/3 and 100 the fallback returns 1, which is no solution
  (`EikonalThree.FallbackIsNoSolution`).
- The neighbours counted by `SolveEikonal` may lie above the value it returns, so it need not solve the upwind form of
  the equation either (`EikonalThree.RootIsNotUpwind`); `EikonalUpwind.SolvesUpwindIff` says when it does.
- When one boundary component lies in the inside of another, the inside march can freeze a cell that the outside march
  is to start from. The source finds such components and goes on, and then asserts that no seed is frozen.
  `ArrivalTimes.ContainedIff` gives the exact condition, `ContainedExample.NeverDelivered` an input, and the model
  fails there.
- Duplicate boundary cells are said to be refused. They are refused exactly when some cell of the grid is not boundary
  (`ArrivalOutcome.DeliversIff`, `ArrivalOutcome.CoveredStaysBlank`); otherwise the result has no frozen cell at all,
  and the check for a full grid lets such an input through (`ArrivalOutcome.DoubledCell`).
- `dns_skipdn` gives NULL for a name whose pointer is the last thing in the packet, although `dns_getdn` reads it
  (`DnsPacket.SkipExample`); `DnsPacket.ReadAdvancesLikeSkip` says that this is the only case.
- The terminator check of `dns_getdn` looks at the start of the destination. A name whose labels fill the size
  given is written with its terminator one byte behind it (`DnsPacket.OverrunExample`), and no other one is
  (`DnsPacket.OverrunIff`). `DnsPacket.GetName` asks for as many bytes of memory as are written: one more than
  the size in that case only.
- A label length with the top bits 01 or 10 is taken for a pointer, where section 4.1.4 of RFC 1035 reserves it
  (`DnsPacket.ReservedExample`). `DnsPacket.ReadsLikeRfc` says what each of the two readings gives.

## Left out

- Floating point: rounding, infinities and NaN; the checks of boundary times for NaN; the texts of exceptions.
- Overflow of `int32_t` coordinates and of `size_t` sizes in the fast marching code.
- HighAccuracySolveEikonal and the solvers that use it.
- The order inside `std::priority_queue`: the band is a multiset from which a least entry is taken.
- The search for contained components by bounding boxes, which finds them and then does nothing.
- `negative_inside` as a parameter: its one caller sets it.
- ArrivalTimes.MarchFrom: a seed that is already frozen, which the source asserts against and a release build
  marches from, is a failure of its own.
- SolverTheorems.InnerIsSeeded: says nothing of a computation that a frozen seed ended.
- SolverTheorems.OuterIsSeeded: says nothing of a computation that a frozen seed ended.
- The speed grid and its bounds check: a speed is a positive number for every cell of the grid.
- Which of the dilation bands is the outer one in the topological sense: the code takes the one with the largest box,
  and asserts that no other box is as large, which `BandPlans.SidesFixed` asks for (`BandPlans.Untied`).
- Encodings other than UTF-8 and the tables of byte classes; the characters of names are parameters.
- Handlers, event pointers, positions, amplification accounting, and stopping or suspending the parser.
- Failed allocations, other than where a boolean stands for one.
- HashTables.HashTable.Lookup: the payload of an entry behind its name, and the order in which a table is walked, which
  the context printer takes as a parameter.
- Content models that begin with a parameter entity reference, and the blocks made for EMPTY and ANY.
- ContentReader.ModelReader.NextScaffoldPart: the capacity of the scaffold; new nodes have default quantifiers and names
  where the source leaves them unset until it fills them in.
- AttributeTokens.ScanValue: a text that ends inside a character, which the source reads past.
- Bindings.Namespaces.StartTag: the buffers of URIs and tag names, and the recycling of tags.
- InheritedContext.InheritContext: that no URI contains a form feed is assumed, as it is no character of XML.
- StringPools.StringPool.Grow: a reallocated block is a new one, so strings before it are never there.
- ignoreSectionTok, the old hashtable.c, and the conversion of addresses in udns.
- Queries, sockets and resource records of udns; the SimGear sources outside 3rdparty.
