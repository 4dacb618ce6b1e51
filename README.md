# Pathfinding visualiser: a Dafny model

The repository is a grid pathfinding visualiser. A user picks a start cell and then waypoints on a
rectangular board. The program finds a route through them, one segment at a time, with one of four
searches: breadth-first search, depth-first search, Dijkstra's algorithm or A*.

This project models three parts of it:

- the pathfinding engine (`src/logic/pathfinding.ts`): the grid, the four searches and the route
  stitching of `computePaths`;
- the plain-script copy of the same engine (`app.js`), which keeps one global board and updates it in
  place;
- the React front end's panel updaters (`src/App.tsx`), which map a list of panels to a new list.

How each part is modelled:

- **Grid.** A grid the program passes around is a value, `Cells` (columns of `Node`s, indexed
  `[col][row]`). A grid that the program changes in place is an `array2<Node>`, read back as a value
  with `GridModel.View`.
- **In-place operations.** Every in-place operation is a method: the resets, the markers, the four
  searches, `reconstructPath`, the route loop and the plain script's handlers. Each is proved to leave
  exactly the grid that a specification function of the old grid describes.
- **Properties.** What the program promises is proved about those functions as lemmas. A path found
  is a route of adjacent, non-wall cells. A path is found exactly when the goal is reachable.
  Breadth-first search, Dijkstra and A* return shortest paths. The route stitching leaves roles and
  labels as stated. Undo takes back a click.
- **Node identity.** Nodes are told apart by their coordinates, so the program's `===` on nodes and
  its `Set`s of nodes are equality and sets of `Coord`.
- **Costs.** `Infinity` is `Cost.Inf`.

Three behaviours of the code are worth knowing before reading the model:

- **Walls.** `resetGrid` (src/logic/pathfinding.ts:86) and `clearAllNodes` (app.js:155) set
  `solid = false`. So every run of `computePaths` works on a board without walls
  (`Tour.ComputedPathsOpen`, `PlainApp.PlainComputedOpen`). The searches are still modelled and proved
  for grids with walls.
- **Role flags.** `markGoal` clears only `start` (src/logic/pathfinding.ts:132-136). So in the engine
  the final selection ends as the goal *and* still flagged as a waypoint (`Tour.ComputedPathsOneLeg`).
  The plain script never marks waypoints before a run, so there it ends as goal only
  (`PlainApp.PlainComputedGoal`).
- **Clearing search state.** Besides the search fields, `clearTransientSearchState` empties the label
  of every cell without a role and without a wall (src/logic/pathfinding.ts:117-119;
  `GridModel.ClearedState`).

## Model

| member | source | states |
|---|---|---|
| Types.PlusMonotone | src/logic/pathfinding.ts:244-245 | Adding one step to two costs keeps their order in both directions, and never makes a cost cheaper; `Infinity` stays infinite. |
| Labels.NatToString | src/logic/pathfinding.ts:143 | A decimal numeral is a non-empty string of digits with no leading zero. |
| Labels.ParseNatToString | src/logic/pathfinding.ts:143 | Reading a numeral back gives the number it was written from. |
| Labels.NatToStringInjective | src/logic/pathfinding.ts:143 | Different numbers have different numerals. |
| Labels.IntToStringInjective | src/logic/pathfinding.ts:308 | Two integers with the same printed form are equal, negative ones included. |
| Labels.WaypointLabelDistinct | src/logic/pathfinding.ts:138-152 | Waypoint labels are equal exactly when their indices are, and none equals `""`, `G` or `P`. |
| GridModel.ShownCoordsIdentify | src/logic/pathfinding.ts:307-310 | With coordinates shown, two cells of a grid show the same label only if they are the same cell. |
| Tour.ComputedPathsLabels | src/logic/pathfinding.ts:307-310 | With coordinates hidden, every cell of a `computePaths` result shows nothing, `G`, `P` or a waypoint's `W<k>`. |
| Labels.CoordLabelInjective | src/logic/pathfinding.ts:308 | The label `col,row` determines both coordinates, for any integers. |
| Labels.AlgorithmOptions | src/logic/pathfinding.ts:312-315 | The menu has four entries, one per algorithm, each labelled with that algorithm's name. |
| GridModel.CreateGrid | src/logic/pathfinding.ts:4-8 | A new grid has the requested size, and every cell is a freshly created node at its own position. |
| GridModel.DefaultGrid | src/logic/pathfinding.ts:4-8 | Without arguments the grid is 16 by 12. |
| GridModel.ResetIsCreate | src/logic/pathfinding.ts:51-93 | Resetting a grid, cloned or not, gives exactly a freshly created grid of the same size. |
| GridModel.ResetGrid | src/logic/pathfinding.ts:75-93 | The in-place reset leaves every node reset and nothing else changed. |
| GridModel.ClearedState | src/logic/pathfinding.ts:107-122 | Clearing search state keeps every role flag and wall, clears parent, costs, open and checked, and empties the label only of cells without a role or wall. |
| GridModel.ClearTransientSearchState | src/logic/pathfinding.ts:107-122 | The in-place clear leaves exactly the cleared grid. |
| GridModel.MarkersSetRoles | src/logic/pathfinding.ts:124-152 | Start, waypoint and path markers each set their role, clear the other roles and set label `""`, `W<k>` or `P`. The goal marker clears only `start` and sets `G`. No marker touches search state or walls. |
| GridModel.MarkStart | src/logic/pathfinding.ts:124-130 | Only the marked cell changes, and it becomes the start-marked node. |
| GridModel.MarkGoal | src/logic/pathfinding.ts:132-136 | Only the marked cell changes, and it becomes the goal-marked node. |
| GridModel.MarkWaypoint | src/logic/pathfinding.ts:138-144 | Only the marked cell changes, and it becomes waypoint `W<idx>`. |
| GridModel.MarkPath | src/logic/pathfinding.ts:146-152 | Only the marked cell changes, and it becomes a path cell. |
| GridModel.ApplyFromRoles | src/logic/pathfinding.ts:95-105 | Applying selections changes only cells on the grid that are selected. Each ends with the role of its last selection. Selections off the grid are skipped. |
| GridModel.ApplySelections | src/logic/pathfinding.ts:95-105 | The in-place loop leaves the grid that applying the selections in order describes. |
| GridModel.PreparedRoles | src/logic/pathfinding.ts:10-15 | The prepared grid is a fresh grid of the same size. A selected cell is the start (selection 0) or waypoint `W<k>` (last selected at k); every other cell is as created. |
| GridModel.PreparedEmpty | src/logic/pathfinding.ts:10-15 | Preparing for no selections gives a freshly created grid. |
| GridModel.PrepareGridForSelections | src/logic/pathfinding.ts:10-15 | Returns a new grid equal to the prepared grid, and leaves the grid passed in as it was. |
| Adjacency.GetNode | src/logic/pathfinding.ts:158-162 | Gives no node exactly when the coordinate is off the grid, and otherwise the node at it. |
| Adjacency.OpenIsWalkable | src/logic/pathfinding.ts:154-156 | A cell is walkable exactly when it is on the grid and not a wall. |
| Adjacency.Neighbors | src/logic/pathfinding.ts:164-171 | The neighbours are exactly the on-grid cells one step away, in the order up, down, left, right. |
| Adjacency.NeighborsDistinct | src/logic/pathfinding.ts:164-171 | No neighbour is listed twice. |
| Adjacency.ManhattanMetric | src/logic/pathfinding.ts:303-305 | The Manhattan distance is zero only between equal cells, symmetric, and obeys the triangle inequality. |
| Adjacency.ManhattanConsistent | src/logic/pathfinding.ts:303-305 | One step changes the Manhattan distance to the goal by at most one, so the heuristic is consistent. |
| Walks.OpenGridDistance | src/logic/pathfinding.ts:303-305 | On a grid without walls, a shortest route is as long as the Manhattan distance. |
| PathReconstruction.ChainIsRoute | src/logic/pathfinding.ts:293-301 | Following ranked parent links back from the goal gives a route from the start to the goal. Its length is the goal's rank. |
| PathReconstruction.ReconstructPath | src/logic/pathfinding.ts:293-301 | The in-place loop returns exactly the chain of parent links from `end` back to `start`, in walking order. |
| StableSort.SortQueueSorted | src/logic/pathfinding.ts:234 | The sorted queue is ordered by the comparator and is a permutation of the queue. |
| StableSort.SortQueueHead | src/logic/pathfinding.ts:234-235 | No queued cell sorts before the head. |
| StableSort.SortQueueStable | src/logic/pathfinding.ts:265 | The sort keeps cells that the comparator ties in their original order. |
| StableSort.SortQueueSortedUnchanged | src/logic/pathfinding.ts:265 | Sorting a queue that is already in order leaves it unchanged. |
| FrontierSearch.Scan | src/logic/pathfinding.ts:196-202 | Scanning the neighbours leaves the frontier, visited set and grid that discovering them in order describes. |
| FrontierSearch.Step | src/logic/pathfinding.ts:190-203 | One turn either returns the search's result or keeps the loop invariant and the search's result, while the search makes progress. |
| FrontierSearch.Search | src/logic/pathfinding.ts:186-226 | Breadth-first (queue) or depth-first (stack) search on the in-place grid returns the path and leaves the grid that the specification of the search gives. |
| FrontierCorrectness.BfsCorrect | src/logic/pathfinding.ts:186-205 | Breadth-first search keeps roles and walls. It finds a path exactly when the goal is reachable, and the path is a shortest route. |
| FrontierCorrectness.DfsCorrect | src/logic/pathfinding.ts:207-226 | Depth-first search keeps roles and walls. It finds a path exactly when the goal is reachable, and the path is a route. |
| FrontierCorrectness.FrontierCorrect | src/logic/pathfinding.ts:186-226 | Both frontier searches keep roles and walls and find a path exactly when the goal is reachable; the path is a route, and a shortest one when the frontier is a queue. |
| DijkstraSearch.RelaxNeighbors | src/logic/pathfinding.ts:242-251 | The relaxation loop leaves the queue and grid that relaxing the neighbours in order describes. |
| DijkstraSearch.SettleStep | src/logic/pathfinding.ts:233-252 | One turn either returns the search's result or keeps the loop invariant and the result, while the search makes progress. |
| DijkstraSearch.Search | src/logic/pathfinding.ts:228-254 | Dijkstra's search on the in-place grid returns the path and leaves the grid that its specification gives. |
| DijkstraCorrectness.HeadNearest | src/logic/pathfinding.ts:234-235 | The cell popped has the least distance of the queue. |
| DijkstraCorrectness.DijkstraValid | src/logic/pathfinding.ts:228-254 | On any grid, Dijkstra keeps roles and walls, and a path it returns is a route. |
| DijkstraCorrectness.DijkstraCorrect | src/logic/pathfinding.ts:228-254 | When every distance but the start's is `Infinity`, Dijkstra finds a path exactly when the goal is reachable, and the path is a shortest route. |
| AStarSearch.Primed | src/logic/pathfinding.ts:257-262 | The seeded grid satisfies the loop invariant, with the start as the only open cell. |
| AStarSearch.Pop | src/logic/pathfinding.ts:265-269 | The popped cell is the head of the sorted open list. It leaves the open set, joins the closed set and is marked checked. |
| AStarSearch.ExpandNeighbors | src/logic/pathfinding.ts:273-288 | The expansion loop leaves the open list, open set and grid that expanding the neighbours in order describes. |
| AStarSearch.SeekStep | src/logic/pathfinding.ts:264-289 | One turn either returns the search's result or keeps the loop invariant and the result, with the closed set growing. |
| AStarSearch.Search | src/logic/pathfinding.ts:256-291 | A* on the in-place grid returns the path and leaves the grid that its specification gives. |
| AStarCorrectness.HeadCheapest | src/logic/pathfinding.ts:265-266 | The cell popped has the least total cost of the open set. |
| AStarCorrectness.AStarValid | src/logic/pathfinding.ts:256-291 | On any grid, A* keeps roles and walls, and a path it returns is a route. |
| AStarCorrectness.AStarCorrect | src/logic/pathfinding.ts:256-291 | On any grid, A* finds a path exactly when the goal is reachable, and the path is a shortest route. |
| Dispatch.FindPathOutcome | src/logic/pathfinding.ts:173-184 | Whatever the algorithm, the search keeps roles, walls and layout, and a path it returns is a route. |
| Dispatch.FindPathComplete | src/logic/pathfinding.ts:173-184 | On a grid with cleared search state, a path is found exactly when the goal is reachable. Every algorithm but depth-first search returns a shortest route. |
| Dispatch.FindPathToItself | src/logic/pathfinding.ts:190-195 | A search from a cell to itself returns the empty path. |
| Dispatch.FindPathOpenGrid | src/logic/pathfinding.ts:173-184 | On a grid without walls, every algorithm but depth-first search finds a path as long as the Manhattan distance. |
| Dispatch.FindPath | src/logic/pathfinding.ts:173-184 | The in-place dispatch runs the named search and leaves its outcome. |
| Tour.MarkedAlongCells | src/logic/pathfinding.ts:33-39 | Marking a path changes exactly the path's cells other than the segment's start and target, and makes each a path cell. |
| Tour.MarkAlong | src/logic/pathfinding.ts:33-39 | The in-place loop over the path leaves the grid that marking the path describes. |
| Tour.Aimed | src/logic/pathfinding.ts:29-30 | Marking the target as goal and clearing search state gives a laid-out grid of the same size with cleared search state. |
| Tour.AimedCell | src/logic/pathfinding.ts:29-30 | After aiming, the target has the goal role and every other cell keeps its role. Labels are kept only on cells with a role or wall. |
| Tour.LegSearch | src/logic/pathfinding.ts:29-32 | A segment's search keeps the roles of the aimed grid and its size, and a path it returns is a route on the grid. |
| Tour.SearchWith | src/logic/pathfinding.ts:32 | The search a segment runs for an algorithm meets the segment search contract on every grid. |
| Tour.LegFinds | src/logic/pathfinding.ts:29-32 | A segment finds a path exactly when its target is reachable. The path is a route, and a shortest one unless the algorithm is depth-first search. |
| Tour.LegOpen | src/logic/pathfinding.ts:29-32 | On a grid without walls a segment always finds a path. Unless the algorithm is depth-first search, the path is as long as the Manhattan distance. |
| Tour.LegTarget | src/logic/pathfinding.ts:29-45 | The last target ends as goal `G`, keeping its waypoint and path flags. Any other target ends as the next start, with no other role and an empty label. Its wall flag is kept. |
| Tour.LegOthers | src/logic/pathfinding.ts:29-39 | A cell other than the target becomes a path cell `P` when it lies on the path found and is not the segment's start. Otherwise it keeps its role, and its label only if it has a role or wall. |
| Tour.LegWalls | src/logic/pathfinding.ts:29-45 | A segment keeps every wall flag. |
| Tour.RunLeg | src/logic/pathfinding.ts:26-45 | One iteration of the loop on the in-place grid leaves the grid the segment describes. |
| Tour.FinishLeg | src/logic/pathfinding.ts:33-45 | Marking the path and promoting the target leaves the grid the segment's marking describes. |
| Tour.MarkLegs | src/logic/pathfinding.ts:25-46 | The in-place loop over the selections leaves the grid that the segments, one after the other, describe. Selections off the grid are skipped. |
| Tour.MarkTour | src/logic/pathfinding.ts:19-46 | Nothing happens without selections or when the first selection is off the grid. Otherwise the first selection is marked as start and the segments run. |
| Tour.ComputePaths | src/logic/pathfinding.ts:17-49 | Returns a new grid equal to the specification of `computePaths`, leaving the grid passed in unchanged. |
| Tour.ComputedPathsEmpty | src/logic/pathfinding.ts:17-19 | Without selections the result is a freshly created grid. |
| Tour.PreparedOpen | src/logic/pathfinding.ts:75-93 | The prepared grid has no walls. |
| Tour.LegsWalls | src/logic/pathfinding.ts:25-46 | The segments keep every wall flag. |
| Tour.LegsEndAtGoal | src/logic/pathfinding.ts:25-46 | When the last selection is on the grid, it ends as the goal labelled `G`, not the start. |
| Tour.ComputedPathsGoal | src/logic/pathfinding.ts:17-49 | With two selections or more, first and last on the grid, the last ends as the goal labelled `G`. |
| Tour.ComputedPathsOpen | src/logic/pathfinding.ts:17-49 | The result never has walls, whatever the grid passed in. |
| Tour.LegsNoWaypoints | src/logic/pathfinding.ts:25-46 | The segments never flag a waypoint. |
| Tour.ComputedPathsOneLeg | src/logic/pathfinding.ts:17-49 | For two distinct selections on the grid: the first is the start, not on the path. The second is goal `G` and still a waypoint. Exactly the cells of the path found, other than its ends, are path cells. A path is always found. |
| Tour.ComputedPathsOneLegShortest | src/logic/pathfinding.ts:17-49 | For that single segment, every algorithm but depth-first search finds a path as long as the Manhattan distance. |
| PlainApp.Clicked | app.js:107-113 | A click on the last selection is ignored. Any other cell is appended, even one selected earlier. No selection ever repeats the one before it. |
| PlainApp.Undone | app.js:133-137 | Undo removes exactly the last selection, and does nothing without selections. |
| PlainApp.UndoClick | app.js:107-137 | Undo takes back a click that was not ignored. |
| PlainApp.ClickTwice | app.js:107-113 | Clicking the same cell twice in a row is clicking it once. |
| PlainApp.AlgorithmFor | app.js:294-305 | `dfs`, `dijkstra` and `astar` select their search; every other name selects breadth-first search. |
| PlainApp.AlgorithmKeyRoundTrip | app.js:294-305 | Each algorithm's stored name selects that algorithm, and the names are distinct. |
| PlainApp.PlainStarted | app.js:144-162 | After the clear and the start marker, the board has no walls and no waypoints. The start is the only start, and no cell is a path cell. |
| PlainApp.PlainComputedNoWaypoints | app.js:261-292 | A run leaves no cell flagged as a waypoint. |
| PlainApp.PlainComputedGoal | app.js:261-292 | With two selections or more, the last ends as goal `G` and, unlike the engine, not as a waypoint. |
| PlainApp.PlainComputedOpen | app.js:144-162 | A run leaves a board without walls. |
| PlainApp.PlainComputedOneLeg | app.js:261-292 | For two distinct cells: the first is the start and the second goal `G`, neither on the path. Exactly the cells of the path found, other than its ends, are path cells, and a path is always found. |
| PlainApp.PlainComputedOneLegShortest | app.js:261-292 | For that single segment, every algorithm but depth-first search finds a path as long as the Manhattan distance. |
| PlainApp.AppState.constructor | app.js:1-8 | The initial state is a fresh 16 by 12 board, no selections, `bfs`, and the state invariant. |
| PlainApp.AppState.GetNode | app.js:233-236 | Gives no node exactly when the coordinate is outside the board's columns and rows, and otherwise the node at it. |
| PlainApp.AppState.RenderSelections | app.js:115-125 | The board after re-rendering is the engine's prepared grid for the same selections. |
| PlainApp.AppState.HandleCellClick | app.js:107-113 | Selections become the clicked list for a cell on the board, and are kept otherwise. The board is re-rendered only when they change. The state invariant is kept. |
| PlainApp.AppState.ResetBoard | app.js:127-131 | No selections, and a freshly created board of the same size, walls included. |
| PlainApp.AppState.UndoLastSelection | app.js:133-137 | Selections become the undone list. The board is re-rendered unless there was nothing to undo. |
| PlainApp.AppState.SetAlgorithm | app.js:55-65 | Only the stored algorithm name changes. |
| PlainApp.AppState.FindPath | app.js:294-305 | Runs the search the stored name selects, and leaves its outcome. |
| PlainApp.AppState.ComputePaths | app.js:261-292 | The board after a run is the run's specification, and the state invariant is kept. |
| Panels.CreatePanel | src/App.tsx:18-27 | A new panel is well formed and shows its (empty) selections: 16 by 12, breadth-first search, never run. |
| Panels.PreparedShapeOnly | src/logic/pathfinding.ts:10-15 | The prepared grid depends only on the size of the grid passed in. |
| Panels.PreparedIdempotent | src/logic/pathfinding.ts:10-15 | Preparing a prepared grid again for the same selections changes nothing. |
| Panels.ComputedShapeOnly | src/logic/pathfinding.ts:17-18 | `computePaths` depends only on the size of the grid passed in. |
| Panels.Clicked | src/App.tsx:33-46 | A click on a selected cell leaves the panel as it was. Otherwise the cell is appended and the grid shows the selections. Selections never repeat. |
| Panels.Undone | src/App.tsx:48-61 | Undo does nothing without selections. Otherwise it drops exactly the last one and the grid shows the rest. |
| Panels.Restarted | src/App.tsx:63-75 | Reset leaves no selections, a freshly created grid of the panel's size and no run time. |
| Panels.Ran | src/App.tsx:77-91 | A run replaces the grid with `computePaths` of the panel and records the time. Selections and algorithm are kept. |
| Panels.CoordsToggled | src/App.tsx:93-97 | Only the coordinate display flips. |
| Panels.AlgorithmChanged | src/App.tsx:99-110 | Only the algorithm changes, and the grid shows the same selections again. |
| Panels.Resized | src/App.tsx:112-126 | The panel takes the new size, with no selections, a fresh grid of that size and no run time. |
| Panels.UndoAfterClick | src/App.tsx:33-61 | When the grid shows the selections, a click on a new cell followed by undo gives back the panel. |
| Panels.ClickedRoles | src/App.tsx:33-46 | After a click on a new cell, that cell is the start (first selection) or waypoint `W<k>` (selection k). Cells not selected are as created. |
| Panels.UndoneClears | src/App.tsx:48-61 | After undo, the dropped cell is as created again. |
| Panels.RunAfterAlgorithmChange | src/App.tsx:77-110 | Changing the algorithm and running gives what a run with that algorithm on the old grid gives. |
| Panels.RanGoal | src/App.tsx:77-91 | After a run with two selections or more, first and last on the grid, the last is the goal labelled `G`. |
| Panels.Apply | src/App.tsx:33-126 | Every handler keeps a panel well formed and keeps its id. |
| Panels.Update | src/App.tsx:33-126 | Only the panels with the given id change, each as the handler says. The list keeps its length and ids. |
| Panels.InitialBoard | src/App.tsx:30-31 | The front end starts with one well-formed panel, id 1. |
| Panels.AddCanvas | src/App.tsx:128-131 | A new panel with the next id is appended, the next id grows, and ids stay increasing. |
| Panels.Handle | src/App.tsx:33-126 | A handler keeps the front end well formed: ids increasing and below the next id. |
| Panels.HandleChangesOne | src/App.tsx:33-126 | Since ids do not repeat, a handler changes at most one panel. |

## Left out

- Drawing: app.js `buildGrid` button creation, `wireEvents`, `showPanel`, `refreshCells`, `toggleCoords` and the label text `setAlgorithm` writes. These only touch the page, so `PlainApp.AppState` keeps no `showCoords` field.
- The React components (`GridPanel`, `Home`, `AlgorithmCards`) and the markup of `App` are presentation only and are not part of this model.
- Timing: `performance.now()` is replaced by the elapsed time as a parameter of `Panels.Ran`. The `fastestPanel` reduction (src/App.tsx:133-139) compares floating-point measurements and is not modelled.
- Panels.Resized: `clampSize` in `GridPanel` lets through any finite number from 1 to 50, fractions included. The model takes positive naturals only, so a fractional size is not modelled; for such a size the program records the fraction while `createGrid` builds a grid of its integer part.
- JavaScript numbers are modelled as unbounded integers. Coordinates and costs on a board of at most 50 by 50 cells stay far below the range where doubles lose precision.
- Every operation on a grid assumes what `createGrid` builds: rectangular, with each node at its own position (`GridModel.Layout`). The front end never builds a grid any other way.
- Dispatch.FindPathComplete: completeness and optimality of Dijkstra's algorithm are proved only for a grid whose search state is cleared. That is the grid every segment of `computePaths` searches. On a grid with stale distances, the proved promise is only that a path found is a route (`DijkstraCorrectness.DijkstraValid`).
- PlainApp.AppState.HandleCellClick: the script receives node objects from its buttons. The model receives a coordinate and looks it up with `getNode`, so the script's null check becomes "off the board".
- PlainApp.AppState.ComputePaths: the plain script's search functions are textual copies of the engine's, so the engine's model is used. Its selections are always on the board (an invariant of `AppState`), so the engine loop's skipping of off-grid cells never applies.
- Depth-first search is proved to find a route exactly when one exists, but not which route. Its exploration order is modelled exactly, and the model has no separate characterisation of the route it returns.
