/** Option and Result, used for lookups that may find nothing and for the
    planner's terminal errors. */
module Results {

  datatype Option<T> = None | Some(value: T)

  datatype Result<T, E> = Ok(value: T) | Err(error: E)
}

/** The records the planner works on: scene objects and task goals (inputs),
    sub-tasks (intermediate) and atomic actions (output), plus the closed set
    of action types and their static priority table. */
module PlanTypes {
  import opened Results

  /** The five atomic action kinds; a closed variant set. */
  datatype ActionType = Navigate | Grasp | Place | Move | Rotate

  /** The static priority table the conflict resolver consults. */
  function Priority(t: ActionType): (p: nat)
    ensures 1 <= p <= 3
    ensures p == 1 <==> t == Navigate
    ensures p == 3 <==> t == Place
  {
    match t
    case Navigate => 1
    case Grasp => 2
    case Place => 3
    case Move => 2
    case Rotate => 2
  }

  /** One object of the observed scene. `category` is the optional `type`
      entry, `location` the optional `location` entry; `attributes` is empty
      when the object has none. */
  datatype SceneObject = SceneObject(
    name: string,
    category: Option<string>,
    location: Option<string>,
    attributes: map<string, string>)

  /** A structured goal: the verb, the target object and the destination
      ("" when absent), an optional rotation angle and the constraint list
      (which no stage reads). */
  datatype TaskGoal = TaskGoal(
    action: string,
    targetObject: string,
    destination: string,
    angle: Option<int>,
    constraints: seq<string>)

  /** A sub-task produced by decomposition; each kind carries exactly the
      entries that kind's synthesis rule reads. */
  datatype SubTask =
    | NavigateTo(target: string, purpose: string)
    | GraspObject(target: string)
    | PlaceObject(target: string, destination: string)
    | MoveObject(target: string, destination: string)
    | RotateObject(target: string, angle: int)
  {
    function Kind(): ActionType {
      match this
      case NavigateTo(_, _) => Navigate
      case GraspObject(_) => Grasp
      case PlaceObject(_, _) => Place
      case MoveObject(_, _) => Move
      case RotateObject(_, _) => Rotate
    }
  }

  /** An atomic action. Two actions are equal exactly when the records the
      planner builds for them are equal key by key, which is the equality that
      list removal and lookup use. */
  datatype Action =
    | NavigateAction(target: string, purpose: string)
    | GraspAction(target: string, parameters: map<string, string>)
    | PlaceAction(target: string, destination: string, parameters: map<string, string>)
    | MoveAction(target: string, destination: string)
    | RotateAction(target: string, angle: int, direction: string)
  {
    function Kind(): ActionType {
      match this
      case NavigateAction(_, _) => Navigate
      case GraspAction(_, _) => Grasp
      case PlaceAction(_, _, _) => Place
      case MoveAction(_, _) => Move
      case RotateAction(_, _, _) => Rotate
    }
  }

  /** The goal entry a decomposition rule found empty. */
  datatype GoalField = TargetObject | Destination

  /** The planner's terminal failures. `MissingField` names the step whose
      rule demanded the field (the default rule is the navigation rule). */
  datatype PlanError =
    | TargetNotFound(target: string)
    | DestinationNotFound(destination: string)
    | MissingField(step: ActionType, field: GoalField)
    | NoPlan

  const REACH_OBJECT := "reach_object"
  const REACH_DESTINATION := "reach_destination"
  const AVOID_CONFLICT := "avoid_conflict"
  const SAFE_POSITION := "safe_position"
  const DEFAULT_ANGLE := 90
}
