/** Expands a task goal into its ordered sub-tasks, dispatched on the goal's
    verb. The target's location and the destination's object name are looked
    up first; a failed lookup falls back to the literal goal text. */
module Decomposer {
  import opened Results
  import opened PlanTypes
  import opened GoalResolver

  /** The rotation angle of a goal: its own angle, else 90. */
  function AngleOf(goal: TaskGoal): int {
    match goal.angle
    case Some(a) => a
    case None => DEFAULT_ANGLE
  }

  /** The sub-task list of a goal, or the missing-field error its verb's rule raises. */
  function Decomposition(goal: TaskGoal, scene: seq<SceneObject>): Result<seq<SubTask>, PlanError> {
    var target := goal.targetObject;
    var destination := goal.destination;
    var reachObject := NavigateTo(OrElse(ObjectLocation(scene, target), target), REACH_OBJECT);
    var destinationText := OrElse(DestinationName(scene, destination), destination);
    var reachDestination := NavigateTo(destinationText, REACH_DESTINATION);
    if goal.action == "place" then
      if target == "" then Err(MissingField(Place, TargetObject))
      else if destination == "" then Err(MissingField(Place, Destination))
      else Ok([reachObject, GraspObject(target), reachDestination, PlaceObject(target, destinationText)])
    else if goal.action == "move" then
      if target == "" then Err(MissingField(Move, TargetObject))
      else if destination == "" then Err(MissingField(Move, Destination))
      else Ok([reachObject, GraspObject(target), reachDestination, MoveObject(target, destinationText)])
    else if goal.action == "grasp" then
      if target == "" then Err(MissingField(Grasp, TargetObject))
      else Ok([reachObject, GraspObject(target)])
    else if goal.action == "rotate" then
      if target == "" then Err(MissingField(Rotate, TargetObject))
      else Ok([reachObject, RotateObject(target, AngleOf(goal))])
    else
      if target == "" then Err(MissingField(Navigate, TargetObject))
      else Ok([reachObject])
  }

  /** The decomposer as the source runs it: both lookups, then the verb
      dispatch that extends the sub-task list or raises. */
  method DecomposeTask(goal: TaskGoal, scene: seq<SceneObject>) returns (r: Result<seq<SubTask>, PlanError>)
    ensures r == Decomposition(goal, scene)
  {
    var target := goal.targetObject;
    var destination := goal.destination;
    var location := LocateObject(scene, target);
    var destinationName := ResolveDestination(scene, destination);
    var reachObject := NavigateTo(OrElse(location, target), REACH_OBJECT);
    var destinationText := OrElse(destinationName, destination);
    // The list starts empty, so each branch's extension is the whole list.
    var subTasks: seq<SubTask>;
    if goal.action == "place" {
      if target == "" { return Err(MissingField(Place, TargetObject)); }
      if destination == "" { return Err(MissingField(Place, Destination)); }
      subTasks := [reachObject, GraspObject(target), NavigateTo(destinationText, REACH_DESTINATION),
                   PlaceObject(target, destinationText)];
    } else if goal.action == "move" {
      if target == "" { return Err(MissingField(Move, TargetObject)); }
      if destination == "" { return Err(MissingField(Move, Destination)); }
      subTasks := [reachObject, GraspObject(target), NavigateTo(destinationText, REACH_DESTINATION),
                   MoveObject(target, destinationText)];
    } else if goal.action == "grasp" {
      if target == "" { return Err(MissingField(Grasp, TargetObject)); }
      subTasks := [reachObject, GraspObject(target)];
    } else if goal.action == "rotate" {
      if target == "" { return Err(MissingField(Rotate, TargetObject)); }
      subTasks := [reachObject, RotateObject(target, AngleOf(goal))];
    } else {
      if target == "" { return Err(MissingField(Navigate, TargetObject)); }
      subTasks := [reachObject];
    }
    return Ok(subTasks);
  }

  /** The kinds of a sub-task list, in order. */
  function Kinds(subTasks: seq<SubTask>): (ks: seq<ActionType>)
    ensures |ks| == |subTasks|
    ensures forall i :: 0 <= i < |subTasks| ==> ks[i] == subTasks[i].Kind()
  {
    seq(|subTasks|, i requires 0 <= i < |subTasks| => subTasks[i].Kind())
  }

  /** The step kinds each verb expands into. */
  function ExpectedKinds(verb: string): seq<ActionType> {
    if verb == "place" then [Navigate, Grasp, Navigate, Place]
    else if verb == "move" then [Navigate, Grasp, Navigate, Move]
    else if verb == "grasp" then [Navigate, Grasp]
    else if verb == "rotate" then [Navigate, Rotate]
    else [Navigate]
  }

  /** The rule that decides the error: place and move need both fields,
      every other verb needs the target object. */
  predicate RequiredFieldsPresent(goal: TaskGoal) {
    goal.targetObject != ""
    && (goal.action == "place" || goal.action == "move" ==> goal.destination != "")
  }

  /** Decomposition fails exactly when a required field is empty, and then
      names the target before the destination; otherwise it yields the verb's
      step kinds, whose first step navigates towards the target for reaching
      the object and whose object steps act on the target itself. */
  lemma DecompositionOutcome(goal: TaskGoal, scene: seq<SceneObject>)
    ensures Decomposition(goal, scene).Ok? <==> RequiredFieldsPresent(goal)
    ensures Decomposition(goal, scene).Err? ==>
      var e := Decomposition(goal, scene).error;
      e.MissingField? && (e.field == TargetObject <==> goal.targetObject == "")
    ensures Decomposition(goal, scene).Ok? ==>
      var subs := Decomposition(goal, scene).value;
      Kinds(subs) == ExpectedKinds(goal.action)
      && subs[0] == NavigateTo(OrElse(ObjectLocation(scene, goal.targetObject), goal.targetObject), REACH_OBJECT)
      && forall i :: 1 <= i < |subs| && !subs[i].NavigateTo? ==> subs[i].target == goal.targetObject
  {
    DecompositionErrors(goal, scene);
    if RequiredFieldsPresent(goal) {
      DecompositionSteps(goal, scene);
    }
  }

  /** The error half: failure exactly on a missing required field. */
  lemma DecompositionErrors(goal: TaskGoal, scene: seq<SceneObject>)
    ensures Decomposition(goal, scene).Ok? <==> RequiredFieldsPresent(goal)
    ensures Decomposition(goal, scene).Err? ==>
      var e := Decomposition(goal, scene).error;
      e.MissingField? && (e.field == TargetObject <==> goal.targetObject == "")
  {
  }

  /** The success half: the verb's step kinds, reach first, object steps on the target. */
  lemma DecompositionSteps(goal: TaskGoal, scene: seq<SceneObject>)
    requires RequiredFieldsPresent(goal)
    ensures Decomposition(goal, scene).Ok?
    ensures var subs := Decomposition(goal, scene).value;
      Kinds(subs) == ExpectedKinds(goal.action)
      && subs[0] == NavigateTo(OrElse(ObjectLocation(scene, goal.targetObject), goal.targetObject), REACH_OBJECT)
      && forall i :: 1 <= i < |subs| && !subs[i].NavigateTo? ==> subs[i].target == goal.targetObject
  {
    var subs := Decomposition(goal, scene).value;
    var ks := Kinds(subs);
    if goal.action == "place" {
      assert ks == [Navigate, Grasp, Navigate, Place];
    } else if goal.action == "move" {
      assert ks == [Navigate, Grasp, Navigate, Move];
    } else if goal.action == "grasp" {
      assert ks == [Navigate, Grasp];
    } else if goal.action == "rotate" {
      assert ks == [Navigate, Rotate];
    } else {
      assert ks == [Navigate];
    }
  }

  /** A place or move goal yields exactly four steps: reach the object, grasp
      it, reach the resolved (or literal) destination, and place or move the
      object there. */
  lemma PlaceAndMoveSteps(goal: TaskGoal, scene: seq<SceneObject>)
    requires goal.action == "place" || goal.action == "move"
    requires goal.targetObject != "" && goal.destination != ""
    ensures var d := OrElse(DestinationName(scene, goal.destination), goal.destination);
      Decomposition(goal, scene).Ok?
      && |Decomposition(goal, scene).value| == 4
      && Decomposition(goal, scene).value[1] == GraspObject(goal.targetObject)
      && Decomposition(goal, scene).value[2] == NavigateTo(d, REACH_DESTINATION)
      && Decomposition(goal, scene).value[3] ==
           (if goal.action == "place" then PlaceObject(goal.targetObject, d)
            else MoveObject(goal.targetObject, d))
  {
  }

  /** A rotate goal rotates the target by its own angle, or by 90 degrees
      when it has none. */
  lemma RotateStep(goal: TaskGoal, scene: seq<SceneObject>)
    requires goal.action == "rotate" && goal.targetObject != ""
    ensures Decomposition(goal, scene).Ok?
    ensures Decomposition(goal, scene).value[1] ==
      RotateObject(goal.targetObject, if goal.angle.Some? then goal.angle.value else 90)
  {
  }
}
