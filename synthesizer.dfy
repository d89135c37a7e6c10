/** Turns one sub-task into atomic actions. Object lookups here are by exact
    name (navigation alone falls back to a substring match); a failed lookup
    yields no action at all, which the planner then skips. */
module Synthesizer {
  import opened Text
  import opened Results
  import opened PlanTypes
  import opened GoalResolver

  /** The path to a location: the extension point for path planning; today
      the location itself is the only waypoint. */
  function Waypoints(location: string): (path: seq<string>)
    ensures |path| >= 1 && path[|path| - 1] == location
  {
    [location]
  }

  // Navigation

  /** The object a navigation sub-task heads for: the first exact name match,
      else the first object whose name contains the target. */
  function NavigationObject(scene: seq<SceneObject>, target: string): Option<SceneObject> {
    match FirstMatch(scene, NameEquals(target))
    case Some(k) => Some(scene[k])
    case None =>
      match FirstMatch(scene, NameContains(target))
      case Some(k) => Some(scene[k])
      case None => None
  }

  /** Where to navigate for an object: its `location` entry when it has one,
      else its name (whether or not it has a type). */
  function NavigationLocation(o: SceneObject): string {
    match o.location
    case Some(l) => l
    case None => o.name
  }

  /** One navigation action per waypoint, in path order. */
  function NavigateAlong(path: seq<string>, purpose: string): (acts: seq<Action>)
    ensures |acts| == |path|
    ensures forall i :: 0 <= i < |path| ==> acts[i] == NavigateAction(path[i], purpose)
  {
    if path == [] then []
    else NavigateAlong(path[..|path| - 1], purpose) + [NavigateAction(path[|path| - 1], purpose)]
  }

  function NavigationActions(target: string, purpose: string, scene: seq<SceneObject>): seq<Action> {
    match NavigationObject(scene, target)
    case None => []
    case Some(o) => NavigateAlong(Waypoints(NavigationLocation(o)), purpose)
  }

  method PlanNavigation(target: string, purpose: string, scene: seq<SceneObject>) returns (acts: seq<Action>)
    ensures acts == NavigationActions(target, purpose, scene)
  {
    var found := FindFirst(scene, NameEquals(target));
    if found.None? {
      found := FindFirst(scene, NameContains(target));
    }
    if found.None? {
      return [];
    }
    var o := scene[found.value];
    var location := if o.location.Some? then o.location.value else o.name;
    var path := Waypoints(location);
    acts := [];
    var i := 0;
    while i < |path|
      invariant 0 <= i <= |path|
      invariant acts == NavigateAlong(path[..i], purpose)
    {
      assert path[..i + 1][..i] == path[..i];
      acts := acts + [NavigateAction(path[i], purpose)];
      i := i + 1;
    }
    assert path[..|path|] == path;
  }

  /** Navigation yields nothing exactly when no object name contains the
      target. Otherwise it yields one action, towards the location of the
      first object whose name is the target, or, when no name is, of the
      first object whose name contains the target. */
  lemma {:induction false} NavigationOutcome(target: string, purpose: string, scene: seq<SceneObject>)
    ensures NavigationActions(target, purpose, scene) == [] <==>
      forall j :: 0 <= j < |scene| ==> !Contains(scene[j].name, target)
    ensures forall k ::
      (0 <= k < |scene| && scene[k].name == target && forall j :: 0 <= j < k ==> scene[j].name != target) ==>
      NavigationActions(target, purpose, scene) == [NavigateAction(NavigationLocation(scene[k]), purpose)]
    ensures forall k ::
      (0 <= k < |scene| && Contains(scene[k].name, target)
       && (forall j :: 0 <= j < k ==> !Contains(scene[j].name, target))
       && forall j :: 0 <= j < |scene| ==> scene[j].name != target) ==>
      NavigationActions(target, purpose, scene) == [NavigateAction(NavigationLocation(scene[k]), purpose)]
  {
    var exact := FirstMatch(scene, NameEquals(target));
    if exact.Some? {
      ContainsSelf(scene[exact.value].name);
      assert NavigateAlong([NavigationLocation(scene[exact.value])], purpose)
        == [NavigateAction(NavigationLocation(scene[exact.value]), purpose)];
      forall k | 0 <= k < |scene| && scene[k].name == target
          && (forall j :: 0 <= j < k ==> scene[j].name != target)
        ensures k == exact.value
      {
        FirstMatchAt(scene, NameEquals(target), k);
      }
    } else {
      var near := FirstMatch(scene, NameContains(target));
      if near.Some? {
        assert NavigateAlong([NavigationLocation(scene[near.value])], purpose)
          == [NavigateAction(NavigationLocation(scene[near.value]), purpose)];
        forall k | 0 <= k < |scene| && Contains(scene[k].name, target)
            && (forall j :: 0 <= j < k ==> !Contains(scene[j].name, target))
          ensures k == near.value
        {
          FirstMatchAt(scene, NameContains(target), k);
        }
      } else {
        assert forall j :: 0 <= j < |scene| ==> !Matches(NameContains(target), scene[j]);
      }
    }
  }

  // Grasp

  /** Grasp parameters: gentle force when the object has a `fragile`
      attribute at all (its value is not consulted), normal force otherwise. */
  function GraspParameters(o: SceneObject): map<string, string> {
    map["force" := if "fragile" in o.attributes then "gentle" else "normal",
        "orientation" := "default"]
  }

  function GraspActions(target: string, scene: seq<SceneObject>): seq<Action> {
    match FirstMatch(scene, NameEquals(target))
    case None => []
    case Some(k) => [GraspAction(target, GraspParameters(scene[k]))]
  }

  method PlanGrasp(target: string, scene: seq<SceneObject>) returns (acts: seq<Action>)
    ensures acts == GraspActions(target, scene)
  {
    var found := FindFirst(scene, NameEquals(target));
    if found.None? {
      return [];
    }
    var o := scene[found.value];
    var force := "normal";
    if "fragile" in o.attributes {
      force := "gentle";
    }
    acts := [GraspAction(target, map["force" := force, "orientation" := "default"])];
  }

  /** Grasping yields nothing without an exact name match; otherwise one
      grasp of the target whose force is gentle exactly when the first object
      of that name has a `fragile` attribute, and normal otherwise. */
  lemma GraspOutcome(target: string, scene: seq<SceneObject>, k: nat)
    requires k < |scene| && scene[k].name == target
    requires forall j :: 0 <= j < k ==> scene[j].name != target
    ensures |GraspActions(target, scene)| == 1
    ensures GraspActions(target, scene)[0].GraspAction?
    ensures GraspActions(target, scene)[0].target == target
    ensures var p := GraspActions(target, scene)[0].parameters;
      p.Keys == {"force", "orientation"} && p["orientation"] == "default"
      && (p["force"] == "gentle" <==> "fragile" in scene[k].attributes)
      && (p["force"] == "normal" <==> "fragile" !in scene[k].attributes)
  {
    FirstMatchAt(scene, NameEquals(target), k);
  }

  lemma GraspNeedsExactName(target: string, scene: seq<SceneObject>)
    ensures GraspActions(target, scene) == [] <==> forall j :: 0 <= j < |scene| ==> scene[j].name != target
  {
    assert (forall j :: 0 <= j < |scene| ==> scene[j].name != target)
      <==> (forall j :: 0 <= j < |scene| ==> !Matches(NameEquals(target), scene[j]));
  }

  // Place

  /** The placing height the destination's name asks for; "shelf" is checked
      before "table". */
  function PlaceHeight(destination: string): string {
    if Contains(Lower(destination), "shelf") then "shelf_height"
    else if Contains(Lower(destination), "table") then "table_height"
    else "default"
  }

  function PlaceParameters(destination: string): map<string, string> {
    map["height" := PlaceHeight(destination), "orientation" := "default", "stability" := "normal"]
  }

  function PlaceActions(target: string, destination: string, scene: seq<SceneObject>): seq<Action> {
    match FirstMatch(scene, NameEquals(destination))
    case None => []
    case Some(_) => [PlaceAction(target, destination, PlaceParameters(destination))]
  }

  method PlanPlace(target: string, destination: string, scene: seq<SceneObject>) returns (acts: seq<Action>)
    ensures acts == PlaceActions(target, destination, scene)
  {
    var found := FindFirst(scene, NameEquals(destination));
    if found.None? {
      return [];
    }
    var height := "default";
    var lowered := Lower(destination);
    if Contains(lowered, "shelf") {
      height := "shelf_height";
    } else if Contains(lowered, "table") {
      height := "table_height";
    }
    acts := [PlaceAction(target, destination,
                         map["height" := height, "orientation" := "default", "stability" := "normal"])];
  }

  /** Placing yields nothing exactly when no object is named like the
      destination; otherwise one placement of the target at the destination,
      whose height is shelf height when the lowered destination contains
      "shelf", else table height when it contains "table", else default. */
  lemma PlaceOutcome(target: string, destination: string, scene: seq<SceneObject>)
    ensures PlaceActions(target, destination, scene) == [] <==>
      forall j :: 0 <= j < |scene| ==> scene[j].name != destination
    ensures PlaceActions(target, destination, scene) != [] ==>
      |PlaceActions(target, destination, scene)| == 1
      && var a := PlaceActions(target, destination, scene)[0];
      a.PlaceAction? && a.target == target && a.destination == destination
      && a.parameters.Keys == {"height", "orientation", "stability"}
      && a.parameters["orientation"] == "default" && a.parameters["stability"] == "normal"
      && (a.parameters["height"] == "shelf_height" <==> Contains(Lower(destination), "shelf"))
      && (a.parameters["height"] == "table_height" <==>
            !Contains(Lower(destination), "shelf") && Contains(Lower(destination), "table"))
      && (a.parameters["height"] == "default" <==>
            !Contains(Lower(destination), "shelf") && !Contains(Lower(destination), "table"))
  {
    assert (forall j :: 0 <= j < |scene| ==> scene[j].name != destination)
      <==> (forall j :: 0 <= j < |scene| ==> !Matches(NameEquals(destination), scene[j]));
  }

  /** The height test ignores ASCII case: a destination "Top Shelf" asks
      for shelf height. */
  lemma TopShelfHeight()
    ensures PlaceHeight("Top Shelf") == "shelf_height"
  {
    var lowered := Lower("Top Shelf");
    assert lowered == "top shelf";
    assert lowered[4..][..5] == "shelf";
    assert Contains(lowered[4..], "shelf");
    assert Contains(lowered[3..], "shelf");
    assert Contains(lowered[2..], "shelf");
    assert Contains(lowered[1..], "shelf");
  }

  // Move

  /** One move action per waypoint; each carries the waypoint as its destination. */
  function MoveAlong(target: string, path: seq<string>): (acts: seq<Action>)
    ensures |acts| == |path|
    ensures forall i :: 0 <= i < |path| ==> acts[i] == MoveAction(target, path[i])
  {
    if path == [] then []
    else MoveAlong(target, path[..|path| - 1]) + [MoveAction(target, path[|path| - 1])]
  }

  function MoveActions(target: string, destination: string): seq<Action> {
    MoveAlong(target, Waypoints(destination))
  }

  method PlanMove(target: string, destination: string) returns (acts: seq<Action>)
    ensures acts == MoveActions(target, destination)
  {
    var path := Waypoints(destination);
    acts := [];
    var i := 0;
    while i < |path|
      invariant 0 <= i <= |path|
      invariant acts == MoveAlong(target, path[..i])
    {
      assert path[..i + 1][..i] == path[..i];
      acts := acts + [MoveAction(target, path[i])];
      i := i + 1;
    }
    assert path[..|path|] == path;
  }

  /** A move consults no scene object: it always yields one move of the
      target, ending at the destination. */
  lemma MoveOutcome(target: string, destination: string)
    ensures MoveActions(target, destination) == [MoveAction(target, destination)]
  {
    assert MoveAlong(target, [destination]) == MoveAlong(target, []) + [MoveAction(target, destination)];
  }

  // Rotate

  /** The direction of a rotation: clockwise exactly for positive angles, so
      an angle of zero rotates counterclockwise. */
  function Direction(angle: int): (d: string)
    ensures d == "clockwise" <==> angle > 0
    ensures d == "counterclockwise" <==> angle <= 0
  {
    if angle > 0 then "clockwise" else "counterclockwise"
  }

  /** A rotation always yields exactly one action, keeping the angle. */
  function RotateActions(target: string, angle: int): (acts: seq<Action>)
    ensures |acts| == 1 && acts[0].RotateAction?
    ensures acts[0].target == target && acts[0].angle == angle
    ensures acts[0].direction == "clockwise" <==> angle > 0
    ensures acts[0].direction == "counterclockwise" <==> angle <= 0
  {
    [RotateAction(target, angle, Direction(angle))]
  }

  // Dispatch

  /** The actions of one sub-task, chosen by its kind. */
  function SubTaskActions(sub: SubTask, scene: seq<SceneObject>): seq<Action> {
    match sub
    case NavigateTo(t, purpose) => NavigationActions(t, purpose, scene)
    case GraspObject(t) => GraspActions(t, scene)
    case PlaceObject(t, d) => PlaceActions(t, d, scene)
    case MoveObject(t, d) => MoveActions(t, d)
    case RotateObject(t, a) => RotateActions(t, a)
  }

  method GenerateActions(sub: SubTask, scene: seq<SceneObject>) returns (acts: seq<Action>)
    ensures acts == SubTaskActions(sub, scene)
  {
    match sub
    case NavigateTo(t, purpose) => acts := PlanNavigation(t, purpose, scene);
    case GraspObject(t) => acts := PlanGrasp(t, scene);
    case PlaceObject(t, d) => acts := PlanPlace(t, d, scene);
    case MoveObject(t, d) => acts := PlanMove(t, d);
    case RotateObject(t, a) => acts := RotateActions(t, a);
  }

  /** Navigation yields at most one action, a navigation. */
  lemma NavigationKind(target: string, purpose: string, scene: seq<SceneObject>)
    ensures var acts := NavigationActions(target, purpose, scene);
      |acts| <= 1 && (acts != [] ==> acts[0].NavigateAction?)
  {
    var o := NavigationObject(scene, target);
    if o.Some? {
      assert |Waypoints(NavigationLocation(o.value))| == 1;
    }
  }

  /** Every action a sub-task yields has that sub-task's kind, and there is
      at most one (the single-waypoint path). */
  lemma {:induction false} SubTaskActionsKind(sub: SubTask, scene: seq<SceneObject>)
    ensures |SubTaskActions(sub, scene)| <= 1
    ensures SubTaskActions(sub, scene) != [] ==> SubTaskActions(sub, scene)[0].Kind() == sub.Kind()
  {
    match sub
    case NavigateTo(t, purpose) =>
      assert SubTaskActions(sub, scene) == NavigationActions(t, purpose, scene);
      NavigationKind(t, purpose, scene);
    case GraspObject(t) =>
      assert SubTaskActions(sub, scene) == GraspActions(t, scene);
    case PlaceObject(t, d) =>
      assert SubTaskActions(sub, scene) == PlaceActions(t, d, scene);
    case MoveObject(t, d) =>
      assert SubTaskActions(sub, scene) == MoveActions(t, d);
      MoveOutcome(t, d);
    case RotateObject(t, a) =>
  }
}
