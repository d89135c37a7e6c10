/** Maps the goal's target and destination texts to scene objects. Every
    lookup is a scan in scene order that stops at the first object a matching
    rule accepts; there is no scoring. */
module GoalResolver {
  import opened Text
  import opened Results
  import opened PlanTypes

  const CABINET_TYPE := "cabinet"

  /** The character whose presence in the destination lets any cabinet-typed
      object satisfy destination validation. */
  const CABINET_CHAR := "柜"

  /** The matching rules the scans use. */
  datatype Matcher =
    | NameContains(text: string)          // the object's name contains `text`
    | NameEquals(text: string)            // the object's name is `text`
    | HasCabinetType                      // the object's type is "cabinet"
    | DestinationMatch(destination: string)
      // validation: the name contains the destination, or the object is a
      // cabinet and the destination contains the cabinet character
    | CabinetLikeName(destination: string)
      // the name contains the destination or one of the cabinet keywords

  predicate Matches(m: Matcher, o: SceneObject) {
    match m
    case NameContains(t) => Contains(o.name, t)
    case NameEquals(t) => o.name == t
    case HasCabinetType => o.category == Some(CABINET_TYPE)
    case DestinationMatch(d) =>
      Contains(o.name, d) || (o.category == Some(CABINET_TYPE) && Contains(d, CABINET_CHAR))
    case CabinetLikeName(d) =>
      Contains(o.name, d) || Contains(o.name, "柜") || Contains(o.name, "橱柜")
      || Contains(o.name, "cabinet")
  }

  /** The index of the first object `m` accepts, or None when it accepts none. */
  function FirstMatch(scene: seq<SceneObject>, m: Matcher): (r: Option<nat>)
    ensures r.Some? ==> r.value < |scene| && Matches(m, scene[r.value])
    ensures r.Some? ==> forall j :: 0 <= j < r.value ==> !Matches(m, scene[j])
    ensures r.None? <==> forall j :: 0 <= j < |scene| ==> !Matches(m, scene[j])
  {
    if scene == [] then None
    else if Matches(m, scene[0]) then Some(0)
    else match FirstMatch(scene[1..], m)
      case None => None
      case Some(k) => Some(k + 1)
  }

  /** The first-match index is determined by those two facts alone. */
  lemma FirstMatchAt(scene: seq<SceneObject>, m: Matcher, k: nat)
    requires k < |scene| && Matches(m, scene[k])
    requires forall j :: 0 <= j < k ==> !Matches(m, scene[j])
    ensures FirstMatch(scene, m) == Some(k)
  {
  }

  /** The scan loop shared by validation, decomposition and synthesis: walk
      the scene in order and stop at the first accepted object. */
  method FindFirst(scene: seq<SceneObject>, m: Matcher) returns (r: Option<nat>)
    ensures r == FirstMatch(scene, m)
  {
    var i := 0;
    while i < |scene|
      invariant 0 <= i <= |scene|
      invariant forall j :: 0 <= j < i ==> !Matches(m, scene[j])
    {
      if Matches(m, scene[i]) {
        FirstMatchAt(scene, m, i);
        return Some(i);
      }
      i := i + 1;
    }
    return None;
  }

  /** Python's `a or b` on strings: `a` unless it is empty. */
  function OrElse(primary: string, fallback: string): (r: string)
    ensures r == primary || r == fallback
    ensures r == "" ==> primary == "" && fallback == ""
    ensures primary != "" ==> r == primary
  {
    if primary != "" then primary else fallback
  }

  /** The object's `location` entry, "" when it has none. */
  function LocationText(o: SceneObject): string {
    match o.location
    case Some(l) => l
    case None => ""
  }

  /** The decomposer's object location: the location of the first object
      whose name contains `target`. "" stands for every falsy value the
      source can hold here (no target, no such object, no or empty location). */
  function ObjectLocation(scene: seq<SceneObject>, target: string): string {
    if target == "" then ""
    else match FirstMatch(scene, NameContains(target))
      case None => ""
      case Some(k) => LocationText(scene[k])
  }

  /** The decomposer's destination name: the name of the first cabinet-typed
      object, whatever the destination says; when there is none (or its name
      is empty), the name of the first object whose name contains the
      destination or a cabinet keyword; "" when nothing is found. */
  function DestinationName(scene: seq<SceneObject>, destination: string): string {
    if destination == "" then ""
    else
      var cabinet := match FirstMatch(scene, HasCabinetType)
        case Some(k) => scene[k].name
        case None => "";
      if cabinet != "" then cabinet
      else match FirstMatch(scene, CabinetLikeName(destination))
        case Some(k) => scene[k].name
        case None => ""
  }

  /** The location scan of the decomposer. */
  method LocateObject(scene: seq<SceneObject>, target: string) returns (location: string)
    ensures location == ObjectLocation(scene, target)
  {
    location := "";
    if target != "" {
      var found := FindFirst(scene, NameContains(target));
      if found.Some? {
        location := LocationText(scene[found.value]);
      }
    }
  }

  /** The destination scans of the decomposer: cabinet type first, then names. */
  method ResolveDestination(scene: seq<SceneObject>, destination: string) returns (name: string)
    ensures name == DestinationName(scene, destination)
  {
    name := "";
    if destination != "" {
      var cabinet := FindFirst(scene, HasCabinetType);
      if cabinet.Some? {
        name := scene[cabinet.value].name;
      }
      if name == "" {
        var named := FindFirst(scene, CabinetLikeName(destination));
        if named.Some? {
          name := scene[named.value].name;
        }
      }
    }
  }

  /** The object location comes from the first object whose name contains
      the target, whether or not later objects also match. */
  lemma ObjectLocationIsFirstMatch(scene: seq<SceneObject>, target: string, k: nat)
    requires target != ""
    requires k < |scene| && Contains(scene[k].name, target)
    requires forall j :: 0 <= j < k ==> !Contains(scene[j].name, target)
    ensures ObjectLocation(scene, target) == LocationText(scene[k])
  {
    FirstMatchAt(scene, NameContains(target), k);
  }

  /** No object name contains the target: there is no object location. */
  lemma ObjectLocationMissing(scene: seq<SceneObject>, target: string)
    requires forall j :: 0 <= j < |scene| ==> !Contains(scene[j].name, target)
    ensures ObjectLocation(scene, target) == ""
  {
    if target != "" {
      assert forall j :: 0 <= j < |scene| ==> !Matches(NameContains(target), scene[j]);
    }
  }

  /** A cabinet-typed object with a name decides the destination name, for
      every non-empty destination text (the text plays no part). */
  lemma CabinetWins(scene: seq<SceneObject>, destination: string, k: nat)
    requires destination != ""
    requires k < |scene| && scene[k].category == Some(CABINET_TYPE) && scene[k].name != ""
    requires forall j :: 0 <= j < k ==> scene[j].category != Some(CABINET_TYPE)
    ensures DestinationName(scene, destination) == scene[k].name
  {
    FirstMatchAt(scene, HasCabinetType, k);
  }

  /** No cabinet-typed object has a name to offer: there is none, or the
      first one has an empty name (the source's `if not dest_name`). */
  predicate NoNamedCabinet(scene: seq<SceneObject>) {
    forall c ::
      (0 <= c < |scene| && scene[c].category == Some(CABINET_TYPE)
       && forall j :: 0 <= j < c ==> scene[j].category != Some(CABINET_TYPE)) ==>
      scene[c].name == ""
  }

  /** The cabinet scan then leaves the name empty. */
  lemma NoNamedCabinetScan(scene: seq<SceneObject>)
    requires NoNamedCabinet(scene)
    ensures FirstMatch(scene, HasCabinetType).Some? ==>
      scene[FirstMatch(scene, HasCabinetType).value].name == ""
  {
    var c := FirstMatch(scene, HasCabinetType);
    if c.Some? {
      assert forall j :: 0 <= j < c.value ==> !Matches(HasCabinetType, scene[j]);
    }
  }

  /** When no cabinet-typed object offers a name, the first object whose name
      contains the destination or a cabinet keyword decides the destination
      name. */
  lemma KeywordFallback(scene: seq<SceneObject>, destination: string, k: nat)
    requires destination != ""
    requires NoNamedCabinet(scene)
    requires k < |scene| && Matches(CabinetLikeName(destination), scene[k])
    requires forall j :: 0 <= j < k ==> !Matches(CabinetLikeName(destination), scene[j])
    ensures DestinationName(scene, destination) == scene[k].name
    ensures scene[k].name != ""
  {
    NoNamedCabinetScan(scene);
    FirstMatchAt(scene, CabinetLikeName(destination), k);
  }

  /** When neither scan finds a name the destination name is empty, so the
      decomposer falls back to the literal destination text. */
  lemma DestinationUnresolved(scene: seq<SceneObject>, destination: string)
    requires NoNamedCabinet(scene)
    requires forall j :: 0 <= j < |scene| ==> !Matches(CabinetLikeName(destination), scene[j])
    ensures DestinationName(scene, destination) == ""
  {
    NoNamedCabinetScan(scene);
  }
}
