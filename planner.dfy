/** The planner: validate the goal against the scene, decompose it,
    synthesize and flatten the actions of every sub-task, resolve conflicts
    once, and refuse an empty plan. The planner keeps no state between calls
    (its tables are constants), so it is a module of functions and methods,
    not an object. */
module Planner {
  import opened Text
  import opened Results
  import opened PlanTypes
  import opened GoalResolver
  import opened Decomposer
  import opened Synthesizer
  import opened ListOps
  import opened ConflictResolver

  /** The actions of a sub-task list, flattened in order. A sub-task that
      yields no action simply contributes nothing. */
  function ActionsFor(subTasks: seq<SubTask>, scene: seq<SceneObject>): seq<Action> {
    FlatMap(subTasks, t => SubTaskActions(t, scene))
  }

  /** The result of planning: a failed resolution keeps the unresolved
      actions; an empty final sequence is an error. */
  function Outcome(goal: TaskGoal, scene: seq<SceneObject>): Result<seq<Action>, PlanError> {
    var target := goal.targetObject;
    var destination := goal.destination;
    if target != "" && FirstMatch(scene, NameContains(target)).None? then
      Err(TargetNotFound(target))
    else if destination != "" && FirstMatch(scene, DestinationMatch(destination)).None? then
      Err(DestinationNotFound(destination))
    else match Decomposition(goal, scene)
      case Err(e) => Err(e)
      case Ok(subTasks) =>
        var actions := ActionsFor(subTasks, scene);
        var resolved := match Resolution(actions)
          case Some(r) => r
          case None => actions;
        if resolved == [] then Err(NoPlan) else Ok(resolved)
  }

  method Plan(goal: TaskGoal, scene: seq<SceneObject>) returns (r: Result<seq<Action>, PlanError>)
    ensures r == Outcome(goal, scene)
  {
    var target := goal.targetObject;
    if target != "" {
      var found := FindFirst(scene, NameContains(target));
      if found.None? {
        return Err(TargetNotFound(target));
      }
    }
    var destination := goal.destination;
    if destination != "" {
      var found := FindFirst(scene, DestinationMatch(destination));
      if found.None? {
        return Err(DestinationNotFound(destination));
      }
    }
    var decomposed := DecomposeTask(goal, scene);
    if decomposed.Err? {
      return Err(decomposed.error);
    }
    var subTasks := decomposed.value;
    var actions: seq<Action> := [];
    var i := 0;
    while i < |subTasks|
      invariant 0 <= i <= |subTasks|
      invariant actions == ActionsFor(subTasks[..i], scene)
    {
      assert subTasks[..i + 1][..i] == subTasks[..i];
      var produced := GenerateActions(subTasks[i], scene);
      actions := actions + produced;
      i := i + 1;
    }
    assert subTasks[..|subTasks|] == subTasks;
    var resolved := ResolveConflicts(actions);
    if resolved.Some? {
      actions := resolved.value;
    }
    if actions == [] {
      return Err(NoPlan);
    }
    return Ok(actions);
  }

  /** Some object's name contains the target. */
  predicate TargetFound(scene: seq<SceneObject>, target: string) {
    exists k :: 0 <= k < |scene| && Contains(scene[k].name, target)
  }

  /** Some object's name contains the destination, or some object is a
      cabinet while the destination contains the cabinet character. */
  predicate DestinationFound(scene: seq<SceneObject>, destination: string) {
    exists k :: 0 <= k < |scene| &&
      (Contains(scene[k].name, destination)
       || (scene[k].category == Some(CABINET_TYPE) && Contains(destination, CABINET_CHAR)))
  }

  /** Validation passes: each non-empty field is found in the scene. */
  predicate Validated(goal: TaskGoal, scene: seq<SceneObject>) {
    (goal.targetObject == "" || TargetFound(scene, goal.targetObject))
    && (goal.destination == "" || DestinationFound(scene, goal.destination))
  }

  lemma ValidationIsFirstMatch(goal: TaskGoal, scene: seq<SceneObject>)
    ensures TargetFound(scene, goal.targetObject) <==>
      FirstMatch(scene, NameContains(goal.targetObject)).Some?
    ensures DestinationFound(scene, goal.destination) <==>
      FirstMatch(scene, DestinationMatch(goal.destination)).Some?
  {
    var t := FirstMatch(scene, NameContains(goal.targetObject));
    if t.Some? {
      assert Contains(scene[t.value].name, goal.targetObject);
    }
    var d := FirstMatch(scene, DestinationMatch(goal.destination));
    if d.Some? {
      assert Matches(DestinationMatch(goal.destination), scene[d.value]);
    }
  }

  /** The flattened actions are empty exactly when every sub-task yields none. */
  lemma {:induction false} ActionsForEmpty(subTasks: seq<SubTask>, scene: seq<SceneObject>)
    ensures ActionsFor(subTasks, scene) == [] <==>
      forall i :: 0 <= i < |subTasks| ==> SubTaskActions(subTasks[i], scene) == []
    decreases |subTasks|
  {
    if subTasks != [] {
      var n := |subTasks|;
      var init := subTasks[..n - 1];
      var last := SubTaskActions(subTasks[n - 1], scene);
      ActionsForEmpty(init, scene);
      assert ActionsFor(subTasks, scene) == ActionsFor(init, scene) + last;
      if ActionsFor(subTasks, scene) == [] {
        assert ActionsFor(init, scene) == [] && last == [];
        forall i | 0 <= i < n
          ensures SubTaskActions(subTasks[i], scene) == []
        {
          if i < n - 1 {
            assert init[i] == subTasks[i];
          }
        }
      } else if ActionsFor(init, scene) != [] {
        var i :| 0 <= i < |init| && SubTaskActions(init[i], scene) != [];
        assert init[i] == subTasks[i];
      } else {
        assert SubTaskActions(subTasks[n - 1], scene) != [];
      }
    }
  }

  /** Each terminal error arises exactly under its condition, checked in
      the order target, destination, required fields, empty plan; a success
      is never empty. */
  lemma {:induction false} OutcomeErrors(goal: TaskGoal, scene: seq<SceneObject>)
    ensures (Outcome(goal, scene).Err? && Outcome(goal, scene).error.TargetNotFound?) <==>
      goal.targetObject != "" && !TargetFound(scene, goal.targetObject)
    ensures Outcome(goal, scene).Err? && Outcome(goal, scene).error.TargetNotFound? ==>
      Outcome(goal, scene).error.target == goal.targetObject
    ensures (Outcome(goal, scene).Err? && Outcome(goal, scene).error.DestinationNotFound?) <==>
      (goal.targetObject == "" || TargetFound(scene, goal.targetObject))
      && goal.destination != "" && !DestinationFound(scene, goal.destination)
    ensures (Outcome(goal, scene).Err? && Outcome(goal, scene).error.MissingField?) <==>
      Validated(goal, scene) && !RequiredFieldsPresent(goal)
    ensures Outcome(goal, scene) == Err(NoPlan) <==>
      Validated(goal, scene) && Decomposition(goal, scene).Ok?
      && forall i :: 0 <= i < |Decomposition(goal, scene).value| ==>
           SubTaskActions(Decomposition(goal, scene).value[i], scene) == []
    ensures Outcome(goal, scene).Ok? ==> Outcome(goal, scene).value != []
  {
    ValidationIsFirstMatch(goal, scene);
    DecompositionOutcome(goal, scene);
    if Validated(goal, scene) && RequiredFieldsPresent(goal) {
      var subTasks := Decomposition(goal, scene).value;
      var actions := ActionsFor(subTasks, scene);
      ActionsForEmpty(subTasks, scene);
      ResolutionShape(actions);
    }
  }

  /** Planning succeeds exactly when validation passes, the verb's required
      fields are present and some sub-task yields an action. */
  lemma OutcomeSucceeds(goal: TaskGoal, scene: seq<SceneObject>)
    ensures Outcome(goal, scene).Ok? <==>
      Validated(goal, scene) && RequiredFieldsPresent(goal)
      && exists i :: 0 <= i < |Decomposition(goal, scene).value|
           && SubTaskActions(Decomposition(goal, scene).value[i], scene) != []
  {
    OutcomeErrors(goal, scene);
  }

  /** An empty target object can never be planned for: every verb's rule
      needs it, so the goal fails (on the destination check or on the
      missing field) before any action is produced. */
  lemma EmptyTargetFails(goal: TaskGoal, scene: seq<SceneObject>)
    requires goal.targetObject == ""
    ensures Outcome(goal, scene).Err?
    ensures (Outcome(goal, scene).error.MissingField? && Outcome(goal, scene).error.field == TargetObject)
      || Outcome(goal, scene).error.DestinationNotFound?
  {
    DecompositionOutcome(goal, scene);
  }

  /** A successful plan is the flattened synthesized actions with one safe
      stop added per pair of placements at the same destination, the
      synthesized actions kept in order. */
  lemma PlanIsResolvedSynthesis(goal: TaskGoal, scene: seq<SceneObject>)
    requires Outcome(goal, scene).Ok?
    ensures Decomposition(goal, scene).Ok?
    ensures var actions := ActionsFor(Decomposition(goal, scene).value, scene);
      var plan := Outcome(goal, scene).value;
      |plan| == |actions| + |ConflictPairs(actions, Spatial)|
      && IsSubsequence(actions, plan)
      && multiset(plan) == multiset(actions) + multiset{}[SAFE_STOP := |ConflictPairs(actions, Spatial)|]
  {
    ResolutionShape(ActionsFor(Decomposition(goal, scene).value, scene));
  }

  /** The reach-object step navigates to the target's location TEXT, which
      synthesis then looks up as an object name: when the target has a
      location, that step yields an action only if some object's name
      contains the location text, and is silently dropped otherwise. */
  lemma ReachObjectNeedsNamedLocation(goal: TaskGoal, scene: seq<SceneObject>)
    requires RequiredFieldsPresent(goal)
    requires ObjectLocation(scene, goal.targetObject) != ""
    ensures var location := ObjectLocation(scene, goal.targetObject);
      Decomposition(goal, scene).Ok?
      && (SubTaskActions(Decomposition(goal, scene).value[0], scene) == [] <==>
          forall j :: 0 <= j < |scene| ==> !Contains(scene[j].name, location))
  {
    DecompositionOutcome(goal, scene);
    NavigationOutcome(ObjectLocation(scene, goal.targetObject), REACH_OBJECT, scene);
  }

  /** The scene and goal of the example below. */
  function CupScene(): seq<SceneObject> {
    [SceneObject("cup", None, None, map[]), SceneObject("橱柜", Some("cabinet"), None, map[])]
  }

  function CupGoal(): TaskGoal {
    TaskGoal("place", "cup", "柜子", None, [])
  }

  /** The four actions the example plans. */
  function CupPlan(): seq<Action> {
    [NavigateAction("cup", REACH_OBJECT),
     GraspAction("cup", map["force" := "normal", "orientation" := "default"]),
     NavigateAction("橱柜", REACH_DESTINATION),
     PlaceAction("cup", "橱柜", map["height" := "default", "orientation" := "default", "stability" := "normal"])]
  }

  lemma CupIntoCabinetSteps()
    ensures Validated(CupGoal(), CupScene())
    ensures Decomposition(CupGoal(), CupScene()) == Ok([
      NavigateTo("cup", REACH_OBJECT), GraspObject("cup"),
      NavigateTo("橱柜", REACH_DESTINATION), PlaceObject("cup", "橱柜")])
  {
    var scene := CupScene();
    ContainsSelf("cup");
    assert IsPrefix(CABINET_CHAR, "柜子");
    assert Matches(DestinationMatch("柜子"), scene[1]);
    FirstMatchAt(scene, NameContains("cup"), 0);
    FirstMatchAt(scene, HasCabinetType, 1);
  }

  lemma CupReachActions()
    ensures SubTaskActions(NavigateTo("cup", REACH_OBJECT), CupScene()) == [CupPlan()[0]]
    ensures SubTaskActions(NavigateTo("橱柜", REACH_DESTINATION), CupScene()) == [CupPlan()[2]]
  {
    FirstMatchAt(CupScene(), NameEquals("cup"), 0);
    FirstMatchAt(CupScene(), NameEquals("橱柜"), 1);
  }

  lemma CupHandActions()
    ensures SubTaskActions(GraspObject("cup"), CupScene()) == [CupPlan()[1]]
    ensures SubTaskActions(PlaceObject("cup", "橱柜"), CupScene()) == [CupPlan()[3]]
  {
    FirstMatchAt(CupScene(), NameEquals("cup"), 0);
    FirstMatchAt(CupScene(), NameEquals("橱柜"), 1);
    assert Lower("橱柜") == "橱柜";
    ContainsIff("橱柜", "shelf");
    ContainsIff("橱柜", "table");
  }

  /** Four sub-tasks flatten to their own actions, concatenated in order. */
  lemma ActionsForFour(a: SubTask, b: SubTask, c: SubTask, d: SubTask, scene: seq<SceneObject>)
    ensures ActionsFor([a, b, c, d], scene)
      == SubTaskActions(a, scene) + SubTaskActions(b, scene) + SubTaskActions(c, scene) + SubTaskActions(d, scene)
  {
    FlatMapFour(a, b, c, d, t => SubTaskActions(t, scene));
  }

  lemma FourSingletons<T>(p: seq<T>)
    requires |p| == 4
    ensures [p[0]] + [p[1]] + [p[2]] + [p[3]] == p
  {
  }

  lemma CupStepActions()
    ensures SubTaskActions(NavigateTo("cup", REACH_OBJECT), CupScene())
      + SubTaskActions(GraspObject("cup"), CupScene())
      + SubTaskActions(NavigateTo("橱柜", REACH_DESTINATION), CupScene())
      + SubTaskActions(PlaceObject("cup", "橱柜"), CupScene()) == CupPlan()
  {
    var plan := CupPlan();
    assert [plan[0]] + [plan[1]] + [plan[2]] + [plan[3]] == plan by {
      FourSingletons(plan);
    }
    CupReachActions();
    CupHandActions();
  }

  lemma CupIntoCabinetActions()
    ensures ActionsFor([NavigateTo("cup", REACH_OBJECT), GraspObject("cup"),
                        NavigateTo("橱柜", REACH_DESTINATION), PlaceObject("cup", "橱柜")], CupScene())
      == CupPlan()
  {
    CupStepActions();
    ActionsForFour(NavigateTo("cup", REACH_OBJECT), GraspObject("cup"),
                   NavigateTo("橱柜", REACH_DESTINATION), PlaceObject("cup", "橱柜"), CupScene());
  }

  /** Putting a cup into a scene with a cabinet-typed "橱柜": the destination
      "柜子" is accepted through the cabinet rule and resolves to the
      cabinet's name, and the plan is reach, grasp, reach, place with default
      parameters (the cup is not fragile, "橱柜" names no shelf or table). */
  lemma CupIntoCabinet()
    ensures Outcome(CupGoal(), CupScene()) == Ok(CupPlan())
  {
    var plan := CupPlan();
    assert Resolution(plan) == Some(plan) by {
      assert forall i, k :: 0 <= i < k < |plan| ==> !Conflicting(Spatial, plan[i], plan[k]) by {
        assert forall i :: 0 <= i < 3 ==> !plan[i].PlaceAction?;
      }
      ResolutionShape(plan);
    }
    CupIntoCabinetSteps();
    CupIntoCabinetActions();
    ValidationIsFirstMatch(CupGoal(), CupScene());
  }
}
