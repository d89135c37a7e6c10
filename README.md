# Task planner model

A Dafny model of the task planner of a household-robot pipeline. The planner
takes a structured task goal (a verb such as `place`, a target object, a
destination and an optional angle) and a scene (a list of observed objects
with a name, an optional type, an optional location and attributes). It
produces an ordered list of atomic actions (navigate, grasp, place, move,
rotate), or fails with an error.

Planning runs in four stages, all modelled here:

1. **Validation.** A non-empty target must be contained in some object's
   name. A non-empty destination must be contained in some object's name,
   or some object must be a cabinet while the destination contains "柜".
2. **Decomposition.** The verb decides the sub-task list. The target's
   location and the destination's object name are looked up first, and each
   falls back to the literal goal text.
3. **Synthesis.** Each sub-task becomes zero or one atomic action. Grasp
   and place look their object up by exact name; navigation looks up by
   exact name, then by substring; move and rotate look nothing up. A
   failed lookup drops the sub-task silently.
4. **Conflict resolution.** Resource conflicts (two grasp/move actions on one
   target) are reordered by the priority table. Spatial conflicts (two
   placements at the same destination) get a `safe_position` navigation
   inserted after the first placement.

An empty final list is an error.

The source is a single planner class. Its methods fall into groups, and
each group is one module here, plus modules for the Python built-ins and
idioms those methods rely on (`Text`, `Results`, `ListOps`):

- `Text`: Python substring membership and ASCII `lower()`.
- `Results`: Option and Result.
- `PlanTypes`: the records and the priority table.
- `GoalResolver`: the first-match scene scans.
- `Decomposer`.
- `Synthesizer`.
- `ListOps`: Python's `list.index`, `list.remove` and `list.insert`, and order-preserving embedding.
- `ConflictResolver`.
- `Planner`: the planning entry point.

Loops of the source are methods with `ensures r == F(...)` against a
specification function `F`. The properties are proved about `F`.

The planner keeps no mutable state: its two tables are fixed at
construction. So it is a module of functions and methods, not a class.

Behaviours of the code worth knowing:

- Navigating to an object takes the first object whose name equals the
  target. When no name equals it, the first name containing it is taken
  (src/planning/task_planner.py:355-366).
- Where navigation heads depends only on the object's `location` entry,
  falling back to its name; its type plays no part (lines 372-380).
- In validation, a cabinet-typed object accepts the destination only if the
  destination text contains "柜" (lines 57-59).
- Grasping asks only whether a `fragile` key exists, not what it holds (line 436).
- Both actions of every resource conflict have priority 2, so the reordering
  branch never runs (`ConflictResolver.ResourcePassIsIdentity`).
- Each pair of positions holding placements with equal destinations gets a
  stop (`ConflictResolver.StopsPerPositionPair`). So running the resolver
  over its own output adds stops again whenever there were such pairs
  (`ConflictResolver.ResolveAgainGrows`).
- The first navigation step goes to the target's location text (for example
  "table"), and synthesis looks that text up as an object name. If no name
  contains it, the step yields nothing and is dropped
  (`Planner.ReachObjectNeedsNamedLocation`).

## Model

| member | source | states |
|---|---|---|
| PlanTypes.Priority | src/planning/task_planner.py:23-30 | priorities lie in 1..3; navigation alone has priority 1 and placement alone has priority 3 |
| Text.ContainsIff | src/planning/task_planner.py:47 | the substring test holds exactly when some slice of the name equals the needle |
| Text.Lower | src/planning/task_planner.py:475-477 | lower-casing keeps the length, leaves no ASCII capital, keeps every other character, and turns each capital into the small letter at the same alphabet position |
| Text.LowerIdempotent | src/planning/task_planner.py:475-477 | lower-casing already lower-cased text changes nothing |
| GoalResolver.FirstMatch | src/planning/task_planner.py:46-49 | the scan result is the index of an accepted object with no accepted object before it; none is found exactly when no object is accepted |
| GoalResolver.FindFirst | src/planning/task_planner.py:109-112 | the early-exit scan loop returns exactly the first-match index |
| GoalResolver.OrElse | src/planning/task_planner.py:145 | `a or b` on strings is `a` when `a` is non-empty and otherwise `b` |
| GoalResolver.LocateObject | src/planning/task_planner.py:106-112 | the location scan computes the decomposer's object location |
| GoalResolver.ObjectLocationIsFirstMatch | src/planning/task_planner.py:107-112 | the location is taken from the first object whose name contains the target, whatever later objects hold |
| GoalResolver.ObjectLocationMissing | src/planning/task_planner.py:107-112 | when no name contains the target, there is no location |
| GoalResolver.ResolveDestination | src/planning/task_planner.py:114-127 | the two destination scans compute the decomposer's destination name |
| GoalResolver.CabinetWins | src/planning/task_planner.py:117-121 | the first cabinet-typed object with a name decides the destination name, for every destination text |
| GoalResolver.KeywordFallback | src/planning/task_planner.py:117-127 | when no cabinet-typed object offers a name (there is none, or the first has an empty name), the first name containing the destination or a cabinet keyword decides, and that name is non-empty |
| GoalResolver.DestinationUnresolved | src/planning/task_planner.py:114-127 | when no cabinet-typed object offers a name and no name contains the destination or a keyword, the destination name is empty, so the literal destination is used |
| Decomposer.DecomposeTask | src/planning/task_planner.py:91-231 | the lookups plus the verb dispatch compute the decomposition |
| Decomposer.DecompositionOutcome | src/planning/task_planner.py:135-230 | decomposition succeeds iff the verb's required fields are present. An error names the target exactly when the target is empty. A success has the verb's step kinds, starts by reaching the object's location (else the target), and its object steps act on the target |
| Decomposer.DecompositionErrors | src/planning/task_planner.py:135-230 | a decomposition fails iff a field the verb requires is empty, and the error names the target iff the target is empty |
| Decomposer.DecompositionSteps | src/planning/task_planner.py:135-230 | with the required fields present, the steps have the verb's kinds, the first reaches the object's location (else the target) and every object step acts on the target |
| Decomposer.PlaceAndMoveSteps | src/planning/task_planner.py:136-189 | place and move give four steps: reach, grasp the target, reach the resolved or literal destination, then place or move the target there |
| Decomposer.RotateStep | src/planning/task_planner.py:205-220 | a rotate goal rotates the target by its own angle, or by 90 when it has none |
| Synthesizer.Waypoints | src/planning/task_planner.py:396-406 | a path has at least one waypoint and ends at the location |
| Synthesizer.NavigateAlong | src/planning/task_planner.py:386-392 | one navigation per waypoint, in path order, with the sub-task's purpose |
| Synthesizer.PlanNavigation | src/planning/task_planner.py:341-394 | the two scans and the waypoint loop compute the navigation actions |
| Synthesizer.NavigationOutcome | src/planning/task_planner.py:351-394 | navigation yields nothing iff no name contains the target. Otherwise it yields one action towards the location of the first object named exactly the target, or, when no name is equal, of the first object whose name contains it |
| Synthesizer.NavigationKind | src/planning/task_planner.py:351-394 | navigation yields at most one action, and it is a navigation |
| Synthesizer.PlanGrasp | src/planning/task_planner.py:408-443 | the scan and parameter choice compute the grasp actions |
| Synthesizer.GraspOutcome | src/planning/task_planner.py:418-443 | given an exact name match, one grasp of the target whose parameters are exactly force and orientation. Force is gentle iff the first such object has a `fragile` attribute and normal otherwise; orientation is default |
| Synthesizer.GraspNeedsExactName | src/planning/task_planner.py:420-428 | grasping yields nothing iff no object's name equals the target |
| Synthesizer.PlanPlace | src/planning/task_planner.py:445-485 | the scan and height choice compute the place actions |
| Synthesizer.PlaceOutcome | src/planning/task_planner.py:455-485 | placing yields nothing iff no name equals the destination, and otherwise one placement whose parameters are exactly height, orientation "default" and stability "normal". Height is shelf iff the lowered destination contains "shelf", table iff it contains "table" but not "shelf", and default iff it contains neither |
| Synthesizer.TopShelfHeight | src/planning/task_planner.py:475-478 | the height test ignores ASCII case: "Top Shelf" asks for shelf height |
| Synthesizer.MoveAlong | src/planning/task_planner.py:504-510 | one move per waypoint, each carrying that waypoint as its destination |
| Synthesizer.PlanMove | src/planning/task_planner.py:487-512 | the waypoint loop computes the move actions |
| Synthesizer.MoveOutcome | src/planning/task_planner.py:497-512 | a move consults no scene object and always yields exactly one move of the target to the destination |
| Synthesizer.Direction | src/planning/task_planner.py:532 | clockwise iff the angle is positive, counterclockwise iff it is not |
| Synthesizer.RotateActions | src/planning/task_planner.py:514-533 | exactly one rotation, keeping target and angle; clockwise iff the angle is positive, counterclockwise iff it is zero or negative |
| Synthesizer.GenerateActions | src/planning/task_planner.py:233-246 | dispatch on the sub-task kind computes that kind's actions |
| Synthesizer.SubTaskActionsKind | src/planning/task_planner.py:233-246 | a sub-task yields at most one action, and every action has the sub-task's kind |
| ConflictResolver.SpatialConflictIff | src/planning/task_planner.py:321-339 | two actions conflict spatially iff both are placements with the same destination text; the relation is symmetric |
| ConflictResolver.FindConflicts | src/planning/task_planner.py:297-305 | the nested pair loop (shared by both detectors) computes the ordered conflict list |
| ConflictResolver.ConflictPairsIff | src/planning/task_planner.py:318-324 | a pair is reported iff its actions stand at positions i before k and the detector's rule holds |
| ConflictResolver.ConflictPairsSound | src/planning/task_planner.py:298-304 | reported pairs are conflicting actions of the sequence; the list is empty iff no pair i before k conflicts |
| ConflictResolver.ConflictPairsIndexed | src/planning/task_planner.py:297-324 | the detector reports one entry per position pair i < k whose actions conflict, each entry being the actions at those positions, in row-major order of (i, k) |
| ConflictResolver.ConflictCount | src/planning/task_planner.py:297-324 | the number of reported conflicts is the number of conflicting position pairs |
| ListOps.IndexOf | src/planning/task_planner.py:273 | `index` returns the first position holding the element, and fails iff it is absent |
| ListOps.RemoveFirst | src/planning/task_planner.py:272 | `remove` succeeds iff the element is present and drops exactly its first copy: earlier elements keep their positions, later ones move up by one |
| ListOps.Insert | src/planning/task_planner.py:284 | `insert` puts the element at the position, shifts the rest by one, and adds one copy |
| ListOps.MoveAfterFirst | src/planning/task_planner.py:272-273 | `remove` then `insert` after the first occurrence of a different, present element succeeds, permutes the list and leaves the moved element directly behind that occurrence |
| ConflictResolver.ReorderByPriority | src/planning/task_planner.py:267-273 | the reorder loop computes the fold of the reorder steps, with failure for a failed remove or index |
| ConflictResolver.NoReorderWithoutPriorityGap | src/planning/task_planner.py:268-273 | when no conflict's first action outranks its second, the pass leaves the sequence unchanged |
| ConflictResolver.ResourcePassIsIdentity | src/planning/task_planner.py:24-30 | every resource conflict pairs two priority-2 actions, so the resource pass is the identity |
| ConflictResolver.ReorderStepPlacesAfter | src/planning/task_planner.py:270-273 | a reorder that fires yields a permutation in which the second action directly follows the first occurrence of the first |
| ConflictResolver.InsertSafeStops | src/planning/task_planner.py:275-284 | the spatial loop computes the fold of the safe-stop insertions |
| ConflictResolver.StopFollowsFirstOccurrence | src/planning/task_planner.py:279-284 | a safe stop lands directly after the first occurrence of the conflict's first action |
| ConflictResolver.SafeStopsCount | src/planning/task_planner.py:276-284 | when every first action occurs, the spatial pass succeeds and adds exactly one safe stop per conflict, as a multiset |
| ConflictResolver.SafeStopsOrder | src/planning/task_planner.py:276-284 | when every first action occurs, the spatial pass keeps its input in order inside its output |
| ConflictResolver.SafeStopsShape | src/planning/task_planner.py:276-284 | when every first action occurs, the spatial pass cannot fail. It adds exactly one safe stop per conflict and nothing else, keeping the input in order |
| ConflictResolver.ResolveConflicts | src/planning/task_planner.py:248-286 | both detectors on the input, then both passes, compute the resolution |
| ConflictResolver.ResolutionShape | src/planning/task_planner.py:248-286 | resolution never fails. Its output is the input, kept in order, plus one safe stop per spatial pair; it is the input itself when no placements share a destination |
| ConflictResolver.StopsPerPositionPair | src/planning/task_planner.py:248-286 | the resolved sequence has one more element per position pair i < k of placements sharing a destination |
| ConflictResolver.ResolveAgainGrows | src/planning/task_planner.py:248-286 | when placements share a destination, resolving the resolved sequence again makes it longer still |
| ConflictResolver.TwoPlacementsOnShelf | src/planning/task_planner.py:276-284 | two placements on one shelf come out as first placement, safe stop, second placement |
| Planner.Plan | src/planning/task_planner.py:32-89 | validation, decomposition, synthesis and resolution compute the planning outcome |
| Planner.ValidationIsFirstMatch | src/planning/task_planner.py:42-63 | each validation scan finds a match exactly when the target or destination is found in the scene |
| Planner.ActionsForEmpty | src/planning/task_planner.py:69-78 | the flattened actions are empty iff every sub-task yields none |
| Planner.ActionsForFour | src/planning/task_planner.py:69-78 | four sub-tasks flatten to their actions concatenated in order |
| Planner.OutcomeErrors | src/planning/task_planner.py:42-89 | each kind of error arises exactly under its condition, checked in the order target, destination, required field, empty plan; a target error names the goal's target; a success is non-empty |
| Planner.OutcomeSucceeds | src/planning/task_planner.py:42-89 | planning succeeds exactly when validation passes, the required fields are present and some sub-task yields an action |
| Planner.EmptyTargetFails | src/planning/task_planner.py:43-63 | an empty target always fails, on the destination check or on the missing target field |
| Planner.PlanIsResolvedSynthesis | src/planning/task_planner.py:80-89 | a successful plan is the synthesized actions, kept in order, plus one safe stop per spatial pair, counted as a multiset |
| Planner.ReachObjectNeedsNamedLocation | src/planning/task_planner.py:144-147 | when the target has a location, the reach-object step yields an action iff some object's name contains that location text |
| Planner.CupIntoCabinet | src/planning/task_planner.py:32-89 | a cup put into "柜子", in a scene holding a cabinet-typed "橱柜", plans reach, grasp, reach "橱柜", place with default parameters |

## Left out

- Console warnings (`print`) are not modelled; they do not affect the result.
- Errors are `PlanError` values instead of raised `ValueError`s; messages are not modelled.
- The try/except around each sub-task is not modelled. Synthesis is total on the modelled records: a key error cannot arise, because sub-tasks and actions are per-kind variants with fixed fields.
- A failure inside conflict resolution maps to `None`, and the planner keeps the unresolved actions, as the source's except branch does. `ConflictResolver.ResolutionShape` proves this never happens.
- The scene is a sequence of objects. A missing `objects` key, or an object without a `name`, is not modelled, so an empty or absent scene shows up as an empty sequence.
- The "type" and "location" entries are optional fields. The decomposer treats a missing or empty location alike, as the source's `get(..., "")` does.
- Angles are integers. Float angles and an explicit `None` angle (a type error the source catches and skips) are not modelled.
- `Text.Lower` lower-cases ASCII letters only; Unicode case mapping is not modelled.
- The goal's `constraints` field is carried but unused, as in the source.
- The `scene_info` passed to the conflict detectors and to `_is_nearby` is unused in the source and is not a parameter here.
- src/environment/environment_understanding.py, src/main.py and test.py (goal parsing, the command-line driver, the demo script) are not part of this model.
- Synthesizer.Waypoints: states that the path is non-empty and ends at the location, not that it is exactly one element, leaving room for the path planning the source marks as future work.
- ListOps.Insert: requires an in-range position; Python's clamping of out-of-range and negative positions is not modelled. The resolver only inserts at a found index plus one, which is always in range.
