# Verified core of the delay calculators

OpenSTA times a circuit by computing delays and slews over a graph of timing arcs. This
project models the parts of it with the most state and the most arithmetic, and proves what
they are for:

- **Arnoldi reduction** (`edge_loading`, `net_points`, `resistor_walk`, `dfs_walk`, `rc_tree`,
  `lanczos`, `arnoldi_reduce`, `arnoldi_model`, `tridiagonal`, `tridiag_sweeps`, `tridiag_ev`,
  `residues`, `poles_residues`, `net_reduction`). A resistor network with loops, parallel edges and self
  loops is walked depth first from its driver, turning edges around in place; the tree of the
  walk is reduced to at most five basis vectors by a Lanczos iteration whose matrix-vector
  product is one pass up and one pass down the tree; the small tridiagonal matrix is
  diagonalised by rotations and turned into poles and residues. The chain is proved end to end,
  from the parasitic nodes and resistors to the Elmore delay and the residues.
- **PRIMA network** (`prima_network`, `conductance_stamps`, `prima_stamping`, `prima_power`,
  `prima_capacitors`). The walk that numbers the simulated nodes, merging a node into the one
  it is first reached from when that is through a zero resistor, which zero resistors this
  merges and which it loses, and the matrices that are stamped in place: what power and energy
  they stand for, and why they are not singular.
- **Incremental delay calculation** (`delay_graph`, `incremental_delays`, `graph_delay_calc`,
  `slew_merging`, `driver_outcomes`). The levelized worklist, why its result does not depend on
  the history of invalidations, and how the arcs of one driver are merged into what it stores.
- **Timing graph** (`edge_lists`, `graph_tables`, `vertex_deletion`, `graph_edges`). Edge lists
  threaded through an id table, over every sequence of insertions and deletions.
- **Cell functions** (`func_expr`, `combinational_arcs`, `liberty_cells`, `cell_hash`,
  `equiv_cells`). Unateness, the arcs it leads to, printed forms, and groups of interchangeable
  cells.
- **Numerics** (`root_finding`, `fast_exp`). Bracketed Newton steps and the fast exponential.

Code that works in place is a class or a method over arrays here; its contract ties the new
state to a function or a predicate of the old one, and the lemmas say what that function means.
`real_sums` and `finite_sets` hold the sums and set sizes that the others share.

## Conventions

- Floating point is modelled by real numbers. The cut-offs of the code (1e-13, 1e-14, 1e-18,
  1e-22, 1e-30, 1e-6) are constants. The square root of the C library is a parameter `root`
  with `IsSquareRoot(root)`: for `x >= 0` it returns the non-negative number whose square is `x`.
- A reducer keeps two buffers and swaps them. The basis vectors that the buffers have held are
  returned as a ghost witness, `basis`.
- The id tables and the parasitic database are maps and sequences. A fresh id is an argument,
  required to be unused.
- Products of reals go through `Mul`, `Square`, `Scaled` and `Twice`, which are plain
  multiplication.

## What turned out differently from what one might expect

- *Incremental delays.* A visit to a driver looks up the place of a fanout among the driver's
  loads with `operator[]` (dcalc/GraphDelayCalc.cc:746-761), so a fanout that is not a load of
  the driver, which a gate edge out of the driver makes possible, is compared with the first
  load. `IncrementalExactly` shows that incremental runs are right for every delay calculator
  exactly when no gate edge starts at a driver that also has wires.
- *Non-singularity.* With a negative resistor the walk numbers a node for which nothing is
  stamped. `NotSingular` is proved for resistor values of at least zero, `SingularExactly` gives
  the exact condition for all values and `NegativeSingular` a circuit that fails it.
- *Shorted nodes.* A zero resistor is used only where the walk first reaches a node through it;
  otherwise it is neither merged nor stamped (dcalc/PrimaDelayCalc.cc:513-522, 655-658).
  `GroupMerged` and `ShortsMerged` say exactly when the nodes that zero resistors join share an
  index, in terms of the nodes that the walk entered other than through a zero resistor.
  `DoorsMerge` is a condition on the circuit alone that is enough in every order; whether a
  circuit without it keeps its shorts depends on the order in which the stack is emptied.
  `TriangleLost` is a circuit whose short is lost in every order. Shorted drivers lose theirs too
  (`DriversDiffer`).
- *Equivalent cells.* The hash of a sequential reads its kind and its clear and preset outputs,
  which the comparison of cells leaves out (`KindSplitsHash`). Cells without functions are
  compared by counting arc sets and looking the first cell's up among the second's, which is
  not symmetric when an arc set is repeated (`RepeatedArcs`). `SymmetricIs` gives the exact
  condition for the comparison to be an equivalence, which libraries without repeated arc sets
  meet (`RegularSymmetric`), `OrderMatters` shows that without it groups
  depend on the order of the cells, and with it they are exactly the classes of cells that
  compare equal and whose sequentials' kinds add up to the same (`GroupsAreClasses`).
- *Unateness.* The analysis is sound but not complete: `b + !b * a` never falls with b, yet gets
  an arc from the fall of b to its own rise (`RedundantArc`). `WrongPolarityExactly` says when a
  unate function gets a wrong arc, which nothing then causes, and for functions in which no port occurs twice the arcs are
  exactly those that can be caused (`ReadOnceArcs`).
- *The driver waveform* never gets ahead of the ramp that drives it, but it dips below zero for
  ramps that are short against the time constant, where the cut-off of the exponential falls
  inside the ramp (`ResponseDips`); `ResponseNonNegative` gives the exact bound on the ramp.
- *A coupling capacitor* between two driven nets is stamped half by each and comes out whole
  exactly when both its nodes are numbered and the nets differ (`CouplingWhole`). One inside a
  single driven net is listed once and adds half its value (`CouplingInsideHalved`), and one
  whose far node is not numbered is dropped (`CouplingDropped`).
- *The early end of a rotation sweep.* When a rotation has radius zero, a link strictly inside
  the block is zero from then on and no number of further sweeps clears the block (`StuckFails`).
  That happens exactly when a zero link comes before one that is not negligible
  (`CompleteExactly`); so the eigenvalue routine fails on a matrix made of a row and a separate
  pair of rows (`ApartFails`). Its only other way to fail is a link that outlasts twenty complete
  sweeps (`FailsExactly`, `DecomposesExactly`), and models that the reduction hands over never
  meet the early end (`ModelCompletes`). On success every sweep was complete, which is why the
  eigenvalues and eigenvectors reproduce the matrix.

## Model

| member | source | states |
|---|---|---|
| `EdgeLoading.IncidentAll` | dcalc/ArnoldiReduce.cc:252-256 | no edge of a point is missing from its list |
| `EdgeLoading.EntriesFit` | dcalc/ArnoldiReduce.cc:285-293 | the lists of all points together need at most two entries per resistor, the size of the flat array |
| `EdgeLoading.LayOne` | dcalc/ArnoldiReduce.cc:245-256 | adding an entry to one point's slice of the flat array disturbs no other slice |
| `EdgeLoading.Loader.Load` | dcalc/ArnoldiReduce.cc:232-257 | after counting, allotting and filling, every point's slice holds exactly the edges that touch it, each once and in order, a self loop once |
| `NetPoints.PointInRange` | dcalc/ArnoldiReduce.cc:172-229 | points are in range, terminals are exactly those from the first terminal on, and the point before them stays unused |
| `NetPoints.PointsDiffer` | dcalc/ArnoldiReduce.cc:209-229 | different internal nodes have different points, and those of either kind are in the order of the nodes |
| `NetPoints.PlaceNodes` | dcalc/ArnoldiReduce.cc:172-229 | the map from nodes to points and the node of every point are inverse to each other |
| `NetPoints.GroundOfPoints` | dcalc/ArnoldiReduce.cc:430-445 | added up point by point, the capacitance to ground is that of the nodes of the net |
| `NetPoints.PointValues.GetRC` | dcalc/ArnoldiReduce.cc:425-463 | every point carries its node's positive capacitance to ground plus its share of every coupling capacitor, and the resistance of its incoming edge; the total is the capacitance to ground of all nodes of the net, and the capacitances of all points add up to it plus the value of every coupling capacitor for each of its ends inside the net |
| `NetPoints.PointCarries` | dcalc/ArnoldiReduce.cc:425-463 | a point carries the capacitance to ground and of the pin of its node if that is positive, value times factor of every coupling capacitor once for each of its ends there, and the value of the resistor it is reached by |
| `NetPoints.EndsExchange` | dcalc/ArnoldiReduce.cc:450-462 | exchanging the ends of a coupling capacitor changes the capacitance of no point |
| `NetPoints.GroundCapacitanceIs` | dcalc/ArnoldiReduce.cc:430-445 | the total is the sum of the positive capacitances of the nodes that are not external |
| `ResistorWalk.PathGrows` | dcalc/ArnoldiReduce.cc:361-416 | numbers strictly grow along the stack of the walk |
| `ResistorWalk.NotOnStack` | dcalc/ArnoldiReduce.cc:382-411 | an edge of the point reached, other than the one it was reached by, is never already on the stack |
| `ResistorWalk.OrientKeepsTrees` | dcalc/ArnoldiReduce.cc:337-341 | turning such an edge around never turns a tree edge |
| `ResistorWalk.StackFits` | dcalc/ArnoldiReduce.cc:355-416 | the stack never holds more edges than the net has |
| `ResistorWalk.NeighbourOnPath` | dcalc/ArnoldiReduce.cc:364-416 | a visited neighbour of a point not yet visited is on the stack's path |
| `ResistorWalk.VisitNested` | dcalc/ArnoldiReduce.cc:371-378 | a newly numbered point has its visited neighbours among its ancestors, and no edge ever leads across branches of the tree |
| `ResistorWalk.UpKeeps` | dcalc/ArnoldiReduce.cc:389-414 | going back up, which skips the incoming edge and pops finished points, keeps the invariant of the walk and deals with at least one edge |
| `ResistorWalk.MoveKeeps` | dcalc/ArnoldiReduce.cc:364-416 | every turn of the loop keeps the invariant and either numbers a point or deals with an edge |
| `ResistorWalk.ReachableVisited` | dcalc/ArnoldiReduce.cc:364-416 | when the stack is empty, every point that resistors join to the driver has been visited |
| `ResistorWalk.VisitedReachable` | dcalc/ArnoldiReduce.cc:372-378 | a visited point is joined to the driver along its incoming edges |
| `ResistorWalk.WalkEnds` | dcalc/ArnoldiReduce.cc:364-416 | from any state of the walk, finitely many moves that fit the buffers lead to an empty stack and a spanning tree of what the driver reaches |
| `DfsWalk.Walker.Ascend` | dcalc/ArnoldiReduce.cc:389-414 | the inner loop, with its search for the edge and its skipped incoming edge, computes the way back up |
| `DfsWalk.Walker.Advance` | dcalc/ArnoldiReduce.cc:364-414 | one turn of the loop, in place, is one move of the walk |
| `DfsWalk.Walker.MakeRcmodelDfs` | dcalc/ArnoldiReduce.cc:344-421 | the walk ends; the visited points are exactly those reachable from the driver and are numbered 0, 1, ... once each; every edge still has its two ends; the incoming edge of every visited point but the driver comes from a point with a smaller number; every edge joins a point and one of its ancestors in the tree |
| `RcTree.SolveByCurrents` | dcalc/ArnoldiReduce.cc:558-570 | the response defined by resistances shared between root paths equals the voltage drops that the collected currents cause along the path |
| `RcTree.SolveStep` | dcalc/ArnoldiReduce.cc:568-570 | a node's response is its parent's plus its resistance times its current |
| `RcTree.PassStep` | dcalc/ArnoldiReduce.cc:562-566 | handing the current of one node over to its parent keeps what the upward pass has collected right, whatever the branching |
| `RcTree.Energy` | dcalc/ArnoldiReduce.cc:558-577 | for any u and w, the capacitance-weighted product of w with the response to u is the sum over resistors of r times both currents |
| `RcTree.SelfAdjoint` | dcalc/ArnoldiReduce.cc:558-577 | the tree operator is symmetric in the capacitance-weighted product |
| `RcTree.EnergyNonNegative` | dcalc/ArnoldiReduce.cc:572-577 | every diagonal entry is at least zero when no resistance is negative |
| `RcTree.ElmoreIsSolve` | dcalc/ArnoldiReduce.cc:558-570 | the response to the constant one is the Elmore delay, the sum of shared resistance times capacitance |
| `ArnoldiReduction.ArnoldiReduce.ApplyRC` | dcalc/ArnoldiReduce.cc:558-570 | the two linear passes compute the quadratic definition of the response at every node |
| `Lanczos.AgainstFinished` | dcalc/ArnoldiReduce.cc:587-594 | the image of the newest vector meets the finished vectors only in its predecessor, and there in the recorded link |
| `Lanczos.ResidualOrthogonal` | dcalc/ArnoldiReduce.cc:586-594 | subtracting two terms of the image leaves it orthogonal to all vectors so far |
| `Lanczos.ExtendOrthonormal` | dcalc/ArnoldiReduce.cc:586-609 | with the scaled residual appended the basis is orthonormal again, from the three-term recurrence and symmetry alone |
| `Lanczos.FirstVector` | dcalc/ArnoldiReduce.cc:542-550 | the constant start vector has unit length |
| `Lanczos.Projection` | dcalc/ArnoldiReduce.cc:551-620 | the recorded diagonal and links are the network operator seen through the basis, entry by entry |
| `Lanczos.MomentsMatched` | dcalc/ArnoldiReduce.cc:551-620 | at every node the reduced model has the first q voltage moments of the network, q being the order |
| `Lanczos.ChargeMomentsMatched` | dcalc/ArnoldiReduce.cc:551-620 | seen from the driver the reduced model has the first 2q moments of the network |
| `ArnoldiReduction.ArnoldiReduce.Step` | dcalc/ArnoldiReduce.cc:551-619 | one turn either ends the reduction for one of the four reasons of the code or yields the next orthonormal vector in the other buffer |
| `ArnoldiReduction.ArnoldiReduce.MakeRcmodelFromTs` | dcalc/ArnoldiReduce.cc:504-620 | the result is an orthonormal reduction of the tree of order at most five, ended for a reason of the code, with positive links, the values of every basis vector at the terminals, and the root of the total capacitance |
| `ArnoldiReduction.ReductionEnds` | dcalc/ArnoldiReduce.cc:551-620 | a reduction has at most five vectors; it has fewer than that and than the tree has nodes only if the last diagonal entry is below 1e-13 or the squared residual below 1e-30, and every link before that is positive |
| `ArnoldiModel.MakeRcmodelFromW` | dcalc/ArnoldiReduce.cc:643-679 | the model that is handed over is the reduction of that tree at those terminals, with the pins in the order of the terminals |
| `ArnoldiModel.ElmoreByFirstRow` | dcalc/ArnoldiDelayCalc.cc:511-519 | the first row of the reduction gives the exact Elmore delay of every node |
| `ArnoldiModel.ElmoreMean` | dcalc/ArnoldiDelayCalc.cc:515-516 | with order one the diagonal entry is the mean of the Elmore delays weighted by capacitance |
| `ArnoldiModel.RcModel.Elmore` | dcalc/ArnoldiDelayCalc.cc:511-519 | the value returned is the true Elmore delay of the terminal's node when the order is at least two, the weighted mean when it is one and zero when it is zero |
| `NetReduction.SetTerms` | dcalc/ArnoldiReduce.cc:483-500 | the driver's terminal changes places with the first one, and every column gets the number of its terminal's point |
| `NetReduction.DriverFirstTwice` | dcalc/ArnoldiReduce.cc:483-500 | the exchange of terminals undoes itself, so every terminal has exactly one column |
| `NetReduction.WalkIsTree` | dcalc/ArnoldiReduce.cc:526-535 | taking the number of the point behind the incoming edge as parent gives every node but the driver a parent with a smaller number |
| `NetReduction.TreeLoaded` | dcalc/ArnoldiReduce.cc:331-335 | the tree has positive capacitance, so that the scale of the start vector is defined, exactly when some node of the walk has capacitance of its own or through a coupling capacitor |
| `NetReduction.TreeCarries` | dcalc/ArnoldiReduce.cc:425-463 | a node of the tree has the capacitance of its node of the net, coupling capacitors included once for each end there |
| `NetReduction.MakeRcmodelDrv` | dcalc/ArnoldiReduce.cc:323-335 | from nodes, resistors and capacitors: no model exactly when the nodes' capacitances to ground add up to less than 1e-22; otherwise a model of the tree that the walk from the driver spans, with the nodes' capacitances and the edges' resistances, the driver's pin first and every pin at the node of the tree that stands for its node |
| `Tridiagonal.TurnKeepsForm` | dcalc/ArnoldiDelayCalc.cc:723-741 | one rotation leaves the matrix it stands for unchanged, bulge included |
| `Tridiagonal.TurnKeepsRows` | dcalc/ArnoldiDelayCalc.cc:737-741 | one rotation keeps the rows of v orthonormal |
| `Tridiagonal.TurnKeepsCols` | dcalc/ArnoldiDelayCalc.cc:737-741 | one rotation keeps the columns of v orthonormal |
| `Tridiagonal.DropLink` | dcalc/ArnoldiDelayCalc.cc:712 | a link below the cut-off changes no entry by more than twice the cut-off |
| `Tridiagonal.ExchangeKeeps` | dcalc/ArnoldiDelayCalc.cc:751-765 | exchanging two values with their rows changes neither the matrix nor the trace nor orthonormality |
| `TridiagSweeps.StoppedIsStuck` | dcalc/ArnoldiDelayCalc.cc:725-730 | a sweep that stops at radius zero leaves a zero link strictly inside the block |
| `TridiagSweeps.StuckStays` | dcalc/ArnoldiDelayCalc.cc:713-746 | over a block with such a link every sweep stops again and leaves another |
| `TridiagSweeps.StuckFails` | dcalc/ArnoldiDelayCalc.cc:707-746 | over a block with a zero link strictly inside, no number of sweeps clears the link at its end |
| `TridiagSweeps.LinkedCompletes` | dcalc/ArnoldiDelayCalc.cc:713-746 | every sweep on a block without a zero link strictly inside completes and leaves no such link |
| `TridiagSweeps.CompleteExactly` | dcalc/ArnoldiDelayCalc.cc:707-746 | no sweep is given up exactly when no zero link comes before one that is not negligible; where one does, the links are never all cleared |
| `TridiagSweeps.FailsExactly` | dcalc/ArnoldiDelayCalc.cc:707-746 | the links are not cleared in two cases only, which exclude each other: a zero link before one that is not negligible, or a link still not negligible after twenty complete sweeps |
| `TridiagSweeps.ShiftIsEigenvalue` | dcalc/ArnoldiDelayCalc.cc:717-719 | whatever the first value, the shift makes it its distance from an eigenvalue of the trailing two rows, one at most the size of the link away from the last value |
| `TridiagSweeps.SweepShift` | dcalc/ArnoldiDelayCalc.cc:717-719 | every sweep starts from the shift by such an eigenvalue of its own last two rows |
| `TridiagSweeps.ShiftIsNearest` | dcalc/ArnoldiDelayCalc.cc:717-719 | no other eigenvalue of the two rows is nearer to the last value |
| `TridiagSweeps.LastLink` | dcalc/ArnoldiDelayCalc.cc:713-746 | the shift is exact for two rows: one sweep makes their link zero |
| `TridiagSweeps.PairSucceeds` | dcalc/ArnoldiDelayCalc.cc:689-768 | a matrix of one or two rows is always decomposed |
| `TridiagEV.Turn` | dcalc/ArnoldiDelayCalc.cc:721-742 | one rotation in place, or the early end, leaves the values and links of the rotation as a function, and v with the two rows turned |
| `TridiagEV.SweepRows` | dcalc/ArnoldiDelayCalc.cc:713-746 | a sweep in place leaves the values and links of the sweep as a function; it keeps orthonormality and the trace; a complete one keeps the matrix, and another one leaves the block stuck; it completes exactly when no rotation has radius zero |
| `TridiagEV.SortDescending` | dcalc/ArnoldiDelayCalc.cc:751-765 | the same values end in descending order, each still with its own row |
| `TridiagEV.TridiagEV` | dcalc/ArnoldiDelayCalc.cc:689-768 | it succeeds exactly when there are at most 32 rows, no link of the input that is zero comes before one that is not negligible, and no link outlasts twenty complete sweeps; then the values are those left by the sweeps, descending, and with the orthonormal rows reproduce the input within 2e-18 per dropped link; whether or not it succeeds, up to 32 rows the rows and columns are orthonormal and the trace is the input's |
| `TridiagEV.DecomposesExactly` | dcalc/ArnoldiDelayCalc.cc:689-746 | read off the input: every sweep completes exactly when no zero link comes before one that is not negligible, and the matrix is decomposed exactly when moreover no link outlasts twenty sweeps |
| `TridiagEV.ApartFails` | dcalc/ArnoldiDelayCalc.cc:713-746 | three rows of zeros whose first link is zero and whose second is one are not decomposed |
| `Residues.EigenPair` | dcalc/ArnoldiDelayCalc.cc:751-765 | every value is paired with its own eigenvector row |
| `Residues.ResiduesSumToOne` | dcalc/ArnoldiDelayCalc.cc:652-665 | orthonormal columns make the residues of a terminal sum to one |
| `Residues.FirstMoment` | dcalc/ArnoldiDelayCalc.cc:652-665 | the residues weighted by their time constants carry the first row of the matrix |
| `PolesResidues.CalculatePolesRes` | dcalc/ArnoldiDelayCalc.cc:629-666 | it succeeds exactly when the matrix with the driver resistance in series is decomposed; then the diagonal is as before the call, poles are the floored reciprocals of the eigenvalues, and every residue belongs to its eigenvector |
| `PolesResidues.ModelCompletes` | dcalc/ArnoldiDelayCalc.cc:629-649 | on a model that the reduction hands over, whatever the driver resistance, every sweep completes; decomposing it fails only if a link outlasts twenty sweeps, and never with one or two rows |
| `PolesResidues.UnitResidues` | dcalc/ArnoldiDelayCalc.cc:652-665 | for every terminal the residues sum to exactly one |
| `PolesResidues.KnownDelayIsElmore` | dcalc/ArnoldiDelayCalc.cc:511-519 | the delay that the model knows is the Elmore delay of the terminal |
| `PolesResidues.DelayCarried` | dcalc/ArnoldiDelayCalc.cc:629-666 | the residues give back that delay plus the driver resistance times the total capacitance, up to the dropped links |
| `PrimaNetwork.PlaceKeeps` | dcalc/PrimaDelayCalc.cc:532-543 | numbering one more node keeps every index below the count and every index with a reason: a driver, or a non-zero resistor to a smaller index |
| `PrimaNetwork.PlacePins` | dcalc/PrimaDelayCalc.cc:537-539 | every pin of a numbered node has its node's index |
| `PrimaNetwork.PrimaNodes.Follow` | dcalc/PrimaDelayCalc.cc:513-522 | following a resistor numbers its other end, if that is an internal node without an index: with the near node's index if the resistor is zero and the next new one otherwise; nothing else changes |
| `PrimaNetwork.PrimaNodes.Walk` | dcalc/PrimaDelayCalc.cc:507-526 | the work list empties with every resistor of every numbered node followed |
| `PrimaNetwork.WalkedReached` | dcalc/PrimaDelayCalc.cc:487-530 | whatever a chain of resistors joins to a driver is numbered |
| `PrimaNetwork.PrimaNodes.FindNodeCount` | dcalc/PrimaDelayCalc.cc:479-530 | exactly the internal nodes that resistors join to a driver are numbered, under indices 0 .. count-1 that all have a reason, and pins agree; nodes that share an index are joined by zero resistors; every node but the drivers was numbered from the first node taken off the queue that has a resistor to it, by the first such resistor, and merged exactly if that is zero |
| `PrimaNetwork.MergedNext` | dcalc/PrimaDelayCalc.cc:518-521 | nodes that share an index stay joined by chains of zero resistors |
| `PrimaNetwork.StoryNext` | dcalc/PrimaDelayCalc.cc:513-522 | numbering one more node keeps one node of its own for every index and the account of all others |
| `PrimaNetwork.GroupMerged` | dcalc/PrimaDelayCalc.cc:513-522 | the nodes that zero resistors join to a node all have its index exactly when only one of them was numbered as a driver or through a resistor that is not zero |
| `PrimaNetwork.ShortsMerged` | dcalc/PrimaDelayCalc.cc:513-522 | the ends of every zero resistor share an index exactly when no two nodes numbered on their own are joined by zero resistors |
| `PrimaNetwork.DoorsMerge` | dcalc/PrimaDelayCalc.cc:513-522 | they all do, in whatever order resistors are listed, if every group that zero resistors join can be entered at one node only |
| `PrimaNetwork.DriversDiffer` | dcalc/PrimaDelayCalc.cc:496-505 | two drivers never share an index |
| `PrimaNetwork.TriangleLost` | dcalc/PrimaDelayCalc.cc:513-522 | a driver with a resistor to each of two nodes that a zero resistor joins: they get different indices whatever the order |
| `ConductanceStamps.StampedSymmetric` | dcalc/PrimaDelayCalc.cc:739-747 | a stamped matrix is symmetric |
| `ConductanceStamps.PowerIsEnergy` | dcalc/PrimaDelayCalc.cc:730-747 | v'Gv is the sum over the stamps of conductance times squared voltage |
| `ConductanceStamps.DefiniteWhenGrounded` | dcalc/PrimaDelayCalc.cc:730-747 | the matrix is positive definite exactly when floating stamps join every node to a grounded one |
| `PrimaStamping.PrimaMatrices.StampConductance` | dcalc/PrimaDelayCalc.cc:738-747 | the four in-place additions turn the matrix of some stamps into that of one more |
| `PrimaStamping.PrimaMatrices.StampDriver` | dcalc/PrimaDelayCalc.cc:634-644 | adds the driver's tie to ground, its port row and its entry in B, and changes nothing else |
| `PrimaStamping.PrimaMatrices.StampEqns` | dcalc/PrimaDelayCalc.cc:594-663 | the whole matrix is one tie and one port row per driver and one conductance for every positive resistor between different indices of every parasitic, each once; B has one entry per driver, and the resistance sum is over the resistors that are stamped |
| `PrimaStamping.IndexGrounded` | dcalc/PrimaDelayCalc.cc:478-543 | with no negative resistor every index is joined to a driver's by stamped resistors |
| `PrimaStamping.KernelTrivial` | dcalc/PrimaDelayCalc.cc:634-644 | if stamped resistors join every index to a driver's, only zero solves the system with its port rows |
| `PrimaStamping.KernelAdrift` | dcalc/PrimaDelayCalc.cc:634-663 | if they leave some index apart from every driver, something other than zero solves the system |
| `PrimaStamping.NotSingular` | dcalc/PrimaDelayCalc.cc:487-489 | with no negative resistor the node block is positive definite and the system has only the zero solution |
| `PrimaStamping.SingularExactly` | dcalc/PrimaDelayCalc.cc:487-489 | for any resistor values the system is singular exactly when positive resistors leave some index apart from every driver |
| `PrimaStamping.NegativeSingular` | dcalc/PrimaDelayCalc.cc:513-522 | a circuit with a negative resistor whose system is singular |
| `PrimaStamping.Assemble` | dcalc/PrimaDelayCalc.cc:461-468 | numbering and stamping together give that system for every circuit whose drivers have nodes |
| `PrimaPower.DissipatesResistors` | dcalc/PrimaDelayCalc.cc:613-663 | for all node voltages v'Gv is (va - vb)^2 / R over the positive resistors between different indices of the parasitics in use, each once, plus 1e-6 v^2 over the drivers; G is symmetric, so this fixes it |
| `PrimaPower.ResistanceIs` | dcalc/PrimaDelayCalc.cc:612-660 | the resistance sum is the sum of those resistors' values |
| `PrimaPower.PortOfDriver` | dcalc/PrimaDelayCalc.cc:634-644 | entry by entry, a driver's row says that its port has the voltage of its node, and its column of B is one at that node |
| `PrimaCapacitors.CapMatrix.StampCapacitors` | dcalc/PrimaDelayCalc.cc:665-710 | grounded capacitors go to ground; a coupling capacitor counts half towards another driven net and goes to ground otherwise, its ends exchanged if the second is on the driven net |
| `PrimaCapacitors.CapacitanceStores` | dcalc/PrimaDelayCalc.cc:750-768 | v'Cv is the stored energy and is never negative when no capacitance is |
| `PrimaCapacitors.StoresCapacitances` | dcalc/PrimaDelayCalc.cc:665-710 | stamping a net adds to v'Cv the capacitance of every numbered node times its voltage squared, for a coupling capacitor to another driven net half its value times the voltage across it squared, and for one to any other net its value times the voltage of its end squared |
| `PrimaCapacitors.EntriesAddUp` | dcalc/PrimaDelayCalc.cc:665-710 | all entries of C add up to the capacitance to ground of the numbered nodes and of the coupling capacitors to nets that are not driven |
| `PrimaCapacitors.ContributionInLists` | dcalc/PrimaDelayCalc.cc:687-709 | what the lists of the nets of a capacitor add to the matrix is what they add without it plus its own contribution |
| `PrimaCapacitors.CouplingWhole` | dcalc/PrimaDelayCalc.cc:699-706 | over the lists of both its driven nets a coupling capacitor adds exactly its value between its nodes if and only if both nodes are numbered and the nets differ, or it is zero or between merged nodes |
| `PrimaCapacitors.CouplingDropped` | dcalc/PrimaDelayCalc.cc:699-704 | it adds nothing exactly when one of its nodes is not numbered, or it is zero or between merged nodes |
| `PrimaCapacitors.CouplingInsideHalved` | dcalc/PrimaDelayCalc.cc:695-706 | one inside a single driven net adds half its value to the matrix |
| `PrimaCapacitors.CouplingGrounded` | dcalc/PrimaDelayCalc.cc:706-707 | one to a net that is not driven adds its whole value to ground at the driven net's node |
| `DelayGraph.SettledUnique` | dcalc/GraphDelayCalc.cc:340-374 | slews and delays that agree everywhere with what the calculator finds from them are unique |
| `DelayGraph.VisitSettles` | dcalc/GraphDelayCalc.cc:682-728 | a visit leaves its vertex in agreement with its fanin |
| `DelayGraph.VisitKeepsOther` | dcalc/GraphDelayCalc.cc:682-728 | a visit leaves any other vertex in agreement too, unless it changes a slew that vertex starts from |
| `IncrementalDelays.VisitKeeps` | dcalc/GraphDelayCalc.cc:682-728 | every visit keeps the invariant: whatever is up to date is in agreement, or it or one of its fanins is queued |
| `IncrementalDelays.NothingStale` | dcalc/GraphDelayCalc.cc:384-399 | after a run from the roots nothing has been left out |
| `IncrementalDelays.BelowNext` | dcalc/GraphDelayCalc.cc:362-365 | visits go up by level, so no vertex is visited twice in a run |
| `IncrementalDelays.RunSettles` | dcalc/GraphDelayCalc.cc:340-374 | an incremental run in any order ends in agreement |
| `IncrementalDelays.StopsShort` | dcalc/GraphDelayCalc.cc:745-761 | with a gate edge beside wires there is a calculator and a change after which the run stops short |
| `IncrementalDelays.IncrementalExactly` | dcalc/GraphDelayCalc.cc:745-761 | incremental runs are right for every calculator exactly when no gate edge starts at a driver that also has wires to loads |
| `GraphDelayCalculation.GraphDelayCalc.LoadSlewChanged` | dcalc/GraphDelayCalc.cc:745-761 | what counts as changed, with the lookup of a fanout that is not a load |
| `GraphDelayCalculation.GraphDelayCalc.FindVertexDelay` | dcalc/GraphDelayCalc.cc:682-728 | a visit stores the calculator's outcome at its vertex and loads and queues exactly the fanouts that count as changed, or all of them |
| `GraphDelayCalculation.GraphDelayCalc.DelayInvalid` | dcalc/GraphDelayCalc.cc:248-260 | once delays exist, exactly the vertex is marked in addition, and the invariant between calls is kept |
| `GraphDelayCalculation.GraphDelayCalc.DesignChanged` | dcalc/GraphDelayCalc.cc:248-260 | changing the design around a vertex that is then marked keeps the invariant between calls |
| `GraphDelayCalculation.GraphDelayCalc.DelaysInvalid` | dcalc/GraphDelayCalc.cc:213-224 | forgetting all delays keeps the invariant between calls |
| `GraphDelayCalculation.GraphDelayCalc.FindDelays` | dcalc/GraphDelayCalc.cc:340-374 | the call ends, with every vertex in agreement with its fanin and nothing queued or marked, whatever happened before |
| `GraphDelayCalculation.FindDelaysAfresh` | dcalc/GraphDelayCalc.cc:340-374 | after a call the stored slews and delays equal those of a new calculation from scratch |
| `SlewMerging.BestIsExtreme` | dcalc/GraphDelayCalc.cc:1230-1234 | merging values one by one yields the most extreme of them and the start |
| `SlewMerging.DriverNet.FindDriverDelays` | dcalc/GraphDelayCalc.cc:939-964 | after all arcs, annotated values are as they were; slews and wire delays of an edge with arcs are merged over its arcs, loads of an annotated driver have its slew, and an edge without arcs has the initial slew and zeros |
| `SlewMerging.FinalIsExtreme` | dcalc/GraphDelayCalc.cc:1201-1302 | no arc has a more extreme slew or wire delay than the values stored |
| `SlewMerging.FinalIsAttained` | dcalc/GraphDelayCalc.cc:1201-1302 | values that are stored and not annotated are the initial value or that of an arc to the same edge |
| `SlewMerging.FinalOtherwise` | dcalc/GraphDelayCalc.cc:939-964 | annotated values stay as they were, and an edge without arcs has the initial slew at the driver and zeros at the loads |
| `SlewMerging.OrderIndependent` | dcalc/GraphDelayCalc.cc:939-964 | the order of the arcs makes no difference |
| `DriverOutcomes.FinalNetOnly` | dcalc/GraphDelayCalc.cc:939-964 | the merged values are given by one formula, and no other values are the result of merging |
| `DriverOutcomes.AnnotatedOnly` | dcalc/GraphDelayCalc.cc:939-964 | of the values before, only annotated ones make a difference |
| `DriverOutcomes.FindOutcome` | dcalc/GraphDelayCalc.cc:939-964 | merging in place, from whatever was stored before, finds the outcome of the driver's case: its slews, those of its loads, and the delays |
| `DriverOutcomes.SameCaseOutcome` | dcalc/GraphDelayCalc.cc:939-964 | that outcome depends only on the multiset of arc results |
| `DriverOutcomes.MergingValid` | dcalc/GraphDelayCalc.cc:681-701 | merging the arcs of each driver that is not a root is a delay calculator that the worklist can call |
| `DriverOutcomes.MergingUnordered` | dcalc/GraphDelayCalc.cc:681-701 | with it the slews and delays that are up to date over the whole graph do not depend on the order of any driver's arcs |
| `EdgeLists.AddFront` | graph/Graph.cc:707-729 | putting an edge at the front keeps every list a chain of exactly the edges of its vertex |
| `EdgeLists.TakeOut` | graph/Graph.cc:515-543 | bypassing an edge keeps every list a chain of exactly the edges of its vertex that are left |
| `GraphTables.FrontBacked` | graph/Graph.cc:716-722 | after an insertion the previous ids still undo the next ids |
| `GraphTables.OutUnlinkedBacked` | graph/Graph.cc:531-543 | after an edge is unlinked the previous ids still undo the next ids |
| `GraphEdges.Graph.MakeEdge` | graph/Graph.cc:707-729 | the edge comes first in both its lists, all lists stay right, every other edge keeps its ends and arcs, and every other list is as it was |
| `GraphEdges.Graph.DeleteInEdge` | graph/Graph.cc:515-529 | the search finds the edge before the given one, and unlinks it |
| `GraphEdges.Graph.DeleteOutEdge` | graph/Graph.cc:531-543 | unlinks the edge from the list of the vertex it leaves, through its own ids |
| `GraphEdges.Graph.DeleteEdge` | graph/Graph.cc:731-740 | exactly that edge is gone from both its lists, self loops included, and all lists stay right |
| `GraphEdges.Graph.TakeInEdges` | graph/Graph.cc:487-494 | the first loop deletes the edges into the vertex, self loops from both sides |
| `GraphEdges.Graph.TakeOutEdges` | graph/Graph.cc:495-501 | the second loop deletes the edges that are left, none of which leads back |
| `GraphEdges.Graph.DeleteVertex` | graph/Graph.cc:477-504 | exactly the vertex and the edges that touch it are gone, and every other list keeps its order |
| `VertexDeletion.PrunedNext` | graph/Graph.cc:487-501 | losing edges one by one is filtering the list |
| `GraphEdges.ListsAreEdges` | graph/Graph.cc:477-543 | a vertex's lists hold exactly its edges, each once |
| `GraphEdges.Graph.OutEdges` | graph/Graph.cc:1586-1600 | the iterator yields exactly the edges that leave the vertex, each once |
| `GraphEdges.Graph.InEdges` | graph/Graph.cc:1563-1584 | the iterator yields exactly the edges that enter the vertex, each once |
| `GraphEdges.Graph.HasFaninOne` | graph/Graph.cc:508-513 | true exactly when one edge enters the vertex |
| `FuncExpr.SenseSound` | liberty/FuncExpr.cc:124-200 | a positive unate function never falls when the port rises, a negative unate one never rises, one without a sense does not change, whatever the missing operands are |
| `FuncExpr.SenseOfOccurring` | liberty/FuncExpr.cc:124-200 | there is no sense, or an unknown one, exactly when the port does not occur |
| `FuncExpr.SenseByInversions` | liberty/FuncExpr.cc:124-200 | for every function: positive unate exactly if the port stands under an even number of inversions wherever it occurs, negative unate if always under an odd number, non-unate if both or inside an exclusive or |
| `FuncExpr.SenseReached` | liberty/FuncExpr.cc:124-200 | a function in which no port occurs twice, and without constants or missing operands, does move in every direction that its sense leaves open |
| `FuncExpr.ReadOnceExact` | liberty/FuncExpr.cc:124-200 | for such functions the sense is positive unate, or negative unate, exactly when the function never falls, or never rises, with the port |
| `FuncExpr.ReadBack` | liberty/FuncExpr.cc:202-247 | a printed function can be read back |
| `FuncExpr.BracketsOfOperands` | liberty/FuncExpr.cc:202-247 | a printed function has one pair of brackets for every operation of two operands but the outermost |
| `FuncExpr.PrintInjective` | liberty/FuncExpr.cc:202-247 | functions over plain names that print the same are the same |
| `FuncExpr.PrintAmbiguous` | liberty/FuncExpr.cc:202-247 | two different functions over names with operators in them that print the same |
| `CombinationalArcs.MakeCombinationalArcs` | liberty/LibertyBuilder.cc:303-386 | exactly the arcs whose edge is requested and has a model, each once, between equal edges only under a positive unate sense and between opposite ones only under a negative unate one; the sense is the given one, else that of the function if the input occurs in it, else any |
| `CombinationalArcs.GivenSense` | liberty/LibertyBuilder.cc:315-366 | a sense that the library gives is followed as it stands; without one, and with the input not in the function, all pairs of edges get their arcs, tristate enables included |
| `CombinationalArcs.EveryCauseHasArc` | liberty/LibertyBuilder.cc:315-321 | with no sense given, every edge of the output that some edge of the input can cause has its arc |
| `CombinationalArcs.NoWrongPolarity` | liberty/LibertyBuilder.cc:335-366 | with no sense given, a function found unate has no arc of the other polarity, which nothing can cause |
| `CombinationalArcs.WrongPolarityExactly` | liberty/LibertyBuilder.cc:315-366 | with no sense given, a function that never falls, or never rises, with a port that occurs in it gets no arc of the wrong polarity exactly when the analysis finds that sense or no edge that is requested has a model; what wrong arcs it gets nothing causes |
| `CombinationalArcs.ReadOnceArcs` | liberty/LibertyBuilder.cc:315-386 | with no sense given, and a function in which no port occurs twice, the arcs are exactly those that are requested, have a model and can be caused |
| `CombinationalArcs.RedundantArc` | liberty/LibertyBuilder.cc:315-386 | a function that never falls with a port and still gets an arc from its fall to a rise |
| `LibertyCells.EquivFuncIsEqual` | liberty/FuncExpr.cc:378-398 | functions are compared by structure |
| `LibertyCells.EquivCellsIs` | liberty/EquivCells.cc:296-501 | the comparison holds exactly for cells with the same ports and functions in any order, the same sequentials up to kind, the same table, and, without functions, as many arc sets, the first cell having none that the second has not |
| `LibertyCells.EquivCellsPreorder` | liberty/EquivCells.cc:296-307 | the comparison of cells is reflexive and transitive |
| `LibertyCells.EquivCellsBack` | liberty/EquivCells.cc:487-501 | where it holds, it holds the other way round exactly if there are functions or the arc sets are the same but for repetitions |
| `LibertyCells.EquivCellsRelation` | liberty/EquivCells.cc:296-307 | it is an equivalence for cells that have a function or do not repeat an arc set |
| `LibertyCells.RepeatedArcs` | liberty/EquivCells.cc:487-501 | two cells that compare equal one way only |
| `CellHash.HashCell` | liberty/EquivCells.cc:186-294 | the loops with 32-bit wrap-around compute the wrapped sum |
| `CellHash.PortOrder` | liberty/EquivCells.cc:193-205 | the sum over the ports does not depend on their order |
| `CellHash.EquivalentHash` | liberty/EquivCells.cc:186-294 | whatever the hash of names, cells that compare equal have the same hash exactly when their sequentials' kinds add up to the same |
| `CellHash.LoneKinds` | liberty/EquivCells.cc:226-240 | for cells with one sequential, that is 3 for a register plus 19 and 23 times the outputs under clear and preset, modulo 2^32 |
| `CellHash.HashWeights` | liberty/EquivCells.cc:186-294 | every part of a cell counts in its hash with its own weight |
| `CellHash.FuncHashWeights` | liberty/EquivCells.cc:275-293 | the hash of a function is that of its operands times a weight of its operator, with 32-bit wrap-around |
| `CellHash.KindSplitsHash` | liberty/EquivCells.cc:226-240 | a flip-flop and a latch that compare equal have different hashes |
| `EquivCellGroups.EquivCellTable.AddCell` | liberty/EquivCells.cc:131-157 | a cell joins the group of the first match in its bucket, or starts one with it; the lists of groups stay right, and they are the classes if the comparison is symmetric |
| `EquivCellGroups.EquivCellTable.FindEquivCells` | liberty/EquivCells.cc:125-159 | after a library, every used cell is in the tables, added one after the other |
| `EquivCellGroups.EquivCellTable.MapEquivCells` | liberty/EquivCells.cc:162-184 | a mapped cell gets the group of its first match; if the comparison is symmetric, that is the group of every cell that matches it, or none if they have none |
| `EquivCellGroups.MappingKeeps` | liberty/EquivCells.cc:162-184 | mapping a cell that is in the tables already leaves its group as it is |
| `EquivCellGroups.SymmetricIs` | liberty/EquivCells.cc:296-307 | among the cells of the libraries the comparison is symmetric exactly when cells without functions that compare equal, with equal hashes, have the same arc sets but for repetitions |
| `EquivCellGroups.RegularSymmetric` | liberty/EquivCells.cc:487-501 | it is symmetric if no cell without functions repeats an arc set |
| `EquivCellGroups.TwoCells` | liberty/EquivCells.cc:131-157 | two cells form a group exactly when the first compares equal to the second, with the same hash |
| `EquivCellGroups.OrderMatters` | liberty/EquivCells.cc:125-159 | the order of any two cells makes no difference to that exactly when the comparison is symmetric |
| `EquivCellGroups.GroupsAreClasses` | liberty/EquivCells.cc:125-159 | if it is, two cells share a group exactly when they compare equal with kinds that agree, and every group has two cells or more |
| `RootFinding.NewtonInside` | dcalc/FindRoot.cc:74-87 | a Newton step that passes the range test stays in the bracket, and its divisor is not zero |
| `RootFinding.StepTaken` | dcalc/FindRoot.cc:73-87 | a Newton step is taken exactly if it ends in the bracket and is at most half as long as the step before the last one; otherwise the bracket is halved |
| `RootFinding.SearchGoesOn` | dcalc/FindRoot.cc:64-97 | the search starts in the middle, and each new root replaces the end on its own side of zero |
| `RootFinding.AfterInside` | dcalc/FindRoot.cc:64-98 | every step keeps a sign change between the two ends, and both ends and the root inside the starting bracket |
| `RootFinding.WidthShrinks` | dcalc/FindRoot.cc:74-97 | no step widens the bracket and a bisection halves it |
| `RootFinding.ConvergedRoot` | dcalc/FindRoot.cc:88-91 | a converged root lies between two points of opposite sign; after a bisection both are within the tolerance of it, after a Newton step the step from a point of the starting bracket is |
| `RootFinding.BisectionEnds` | dcalc/FindRoot.cc:74-91 | while Newton steps are refused the search converges as soon as enough halvings bring the bracket within the tolerance |
| `RootFinding.SearchEnds` | dcalc/FindRoot.cc:71-98 | for every function: if the bracket, halved m times, is within the tolerance of its end nearest to zero, one of the first m (2m - 1) steps converges |
| `RootFinding.NeverFails` | dcalc/FindRoot.cc:71-98 | with a positive tolerance and a bracket away from zero the search succeeds within a number of steps that depends on the bracket and the tolerance alone |
| `RootFinding.Refine` | dcalc/FindRoot.cc:64-98 | the loop returns the root of the first step that converges, and fails exactly when none of maxIter steps does |
| `RootFinding.FindRoot` | dcalc/FindRoot.cc:44-99 | fails on ends of the same sign, returns an end that is a zero, and otherwise runs that loop from the end where the function is negative, to a root between the ends |
| `RootFinding.FindRootIn` | dcalc/FindRoot.cc:31-42 | from the values at the ends: fails with zero if they have the same sign, returns a zero of the function if one of them is zero, and otherwise runs the loop of steps on the bracket |
| `FastExp.Exp2` | dcalc/DmpCeff.cc:1206-1228 | twelve squarings compute the 4096th power, zero below the cut-off |
| `FastExp.ExpBounds` | dcalc/DmpCeff.cc:1206-1228 | for z of at least zero the value at -z lies between max(0, 1 - z) and 1 |
| `FastExp.ExpBelow` | dcalc/DmpCeff.cc:1206-1228 | for z of at least zero the value at -z is at most 1 / (1 + z), and down to the cut-off at most 1 - z + z^2 / 2 |
| `FastExp.ExpReciprocal` | dcalc/DmpCeff.cc:1206-1228 | down to the cut-off the values at z and -z multiply to one, but for at most z^2 / 4096 |
| `FastExp.ExpCutOff` | dcalc/DmpCeff.cc:1211-1213 | the value is zero exactly below -12 |
| `FastExp.ExpDecreases` | dcalc/DmpCeff.cc:1206-1228 | the value at -z never increases with z, even across the cut-off |
| `FastExp.ExpGentle` | dcalc/DmpCeff.cc:1206-1228 | on one side of the cut-off the value at -z falls by no more than z grows |
| `FastExp.RampBounds` | dcalc/DmpCeff.cc:201-206 | the response to a unit ramp lies between zero and the ramp |
| `FastExp.RampLags` | dcalc/DmpCeff.cc:201-206 | the response to a unit ramp lags it by at least rc t / (rc + t) and at most rc |
| `FastExp.NeverFarBehind` | dcalc/DmpCeff.cc:181-199 | the response is never behind its ramp by more than rc / dt, and twelve time constants after the ramp it is one |
| `FastExp.Y` | dcalc/DmpCeff.cc:181-206 | whatever branch is taken, the result is the superposition of a ramp through the time constant and, the length of the ramp later, its reverse; it never gets ahead of the ramp that drives it |
| `FastExp.NeverLeads` | dcalc/DmpCeff.cc:181-199 | the response to a ramp of finite length never gets ahead of the ramp, so it never exceeds one |
| `FastExp.ResponseNegativeAt` | dcalc/DmpCeff.cc:181-199 | at a given time it is negative exactly when the cut-off falls inside the ramp and the exponential at its end outweighs the ramp |
| `FastExp.ResponseNonNegative` | dcalc/DmpCeff.cc:181-199 | with q the length of the ramp in time constants, it is never negative at any time exactly when q is at least 12 or at least the value of the exponential at q - 12 |
| `FastExp.ResponseDips` | dcalc/DmpCeff.cc:181-199 | a ramp whose response dips below zero |

## Left out

- Floating-point rounding, NaN and overflow: arithmetic is over the reals.
- Growth of the work buffers: they are allocated for the net at hand.
- `DfsWalk.Walker.MakeRcmodelDfs`: does not model the loop flag, which is only reported. The driver is required to have a resistor, since the code reads its first edge unconditionally.
- `NetReduction.MakeRcmodelDrv`: unless the net is dismissed, terminals and some node with capacitance must be joined to the driver, and coupling capacitances must not be negative; for other nets the code reads numbers that were never set, or divides by a capacitance that may be zero.
- `ArnoldiReduction.ArnoldiReduce.MakeRcmodelFromTs`: requires positive total capacitance, by which the code divides.
- `TridiagEV.TridiagEV`: whether a link of three or more rows can outlast twenty complete sweeps is not stated; the code reports failure when one does.
- `PolesResidues.CalculatePolesRes`: after a failed decomposition the diagonal keeps the driver resistance, as in the code, which then reports a fatal error.
- The waveforms, thresholds and effective capacitances computed from poles and residues, and Newton-Raphson of the effective capacitance model.
- PRIMA projection, LU decomposition and the time loop: matrix library code and table lookups that are not part of this model.
- `PrimaStamping.PrimaMatrices.StampEqns`: a driver pin without a node reads index 0, as in the code, but is not added to the pin map.
- `PrimaCapacitors.CapMatrix.StampCapacitors`: the capacitance of a pin and the net of a node are given, not looked up in constraints and network.
- `GraphDelayCalculation.GraphDelayCalc.FindDelays`: runs to the top level; slews are compared exactly, where the code allows a tolerance; the delay calculator, arc enabling and annotations included, is a function of the driver, the design around it and the slews its gate edges start with, so arcs that become disabled are not modelled as keeping their old delay.
- `GraphDelayCalculation.GraphDelayCalc.FindVertexDelay`: check edges and bidirectional drivers are left out.
- `GraphDelayCalculation.GraphDelayCalc.DelayInvalid`: on a net with several drivers the code marks them all; nets have one driver here.
- Nets with several drivers, latch data-to-output edges, check edges, bidirectional ports, observers and locks.
- `SlewMerging.DriverNet.FindDriverDelays`: one scene and one of minimum and maximum at a time, without the flags for existing arcs that scenes share; results of the arcs are given, those of disabled arcs are not in the list; gate delays are not merged, every arc has its own.
- `LibertyCells.EquivArcSets`: arc sets are known by the fields that their lookup compares; the second comparison of an arc set that was found adds nothing to that, and names of a cell's ports are distinct.
- `RootFinding.Refine`: while it is searching, the search must not meet a point where the function and its derivative both vanish; the code divides zero by zero there.
- Vertex and edge annotation bits, slews and delays stored in the graph tables, and the network's own maps of pins to vertices.
- `EquivCellGroups.EquivCellTable.FindEquivCells`: the final sort of every group by drive resistance, which changes no membership.
- Liberty reading, parasitic file reading, reports and user commands.
