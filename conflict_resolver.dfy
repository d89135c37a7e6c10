/** Detects and mitigates conflicts in the flattened action sequence. Both
    detectors scan every pair i < j of the sequence they are given; resource
    conflicts are then reordered by priority, and each spatial conflict gets
    a safe-position navigation right after the first action of its pair.
    Conflicts are pairs of action VALUES and are located again by first
    equal element, as the source's list operations do. */
module ConflictResolver {
  import opened Results
  import opened PlanTypes
  import opened ListOps

  /** Whether two positions are near: textual equality, a placeholder for a
      real proximity test. */
  predicate IsNearby(p1: string, p2: string) {
    p1 == p2
  }

  datatype ConflictKind = Resource | Spatial

  /** The action takes hold of its target object. */
  predicate HandlesObject(a: Action) {
    a.GraspAction? || a.MoveAction?
  }

  /** The pair rule of each detector, for a first action `a` and later `b`. */
  predicate Conflicting(kind: ConflictKind, a: Action, b: Action) {
    match kind
    case Resource => HandlesObject(a) && HandlesObject(b) && a.target == b.target
    case Spatial => a.PlaceAction? && b.PlaceAction? && IsNearby(a.destination, b.destination)
  }

  /** Two actions are in spatial conflict exactly when both are placements
      at the very same destination text; any other pair, or two placements
      at different destinations, never conflicts. */
  lemma SpatialConflictIff(a: Action, b: Action)
    ensures Conflicting(Spatial, a, b) <==>
      a.PlaceAction? && b.PlaceAction? && a.destination == b.destination
    ensures Conflicting(Spatial, a, b) ==> Conflicting(Spatial, b, a)
  {
  }

  type Conflict = (Action, Action)

  /** The conflicts (s[i], s[k]) for i < k < n, in order of k. */
  function RowPairs(s: seq<Action>, kind: ConflictKind, i: nat, n: nat): seq<Conflict>
    requires i < n <= |s|
    decreases n
  {
    if n == i + 1 then []
    else RowPairs(s, kind, i, n - 1)
         + (if Conflicting(kind, s[i], s[n - 1]) then [(s[i], s[n - 1])] else [])
  }

  /** The conflicts whose first action sits before position m, row by row. */
  function PairsBefore(s: seq<Action>, kind: ConflictKind, m: nat): seq<Conflict>
    requires m <= |s|
  {
    if m == 0 then [] else PairsBefore(s, kind, m - 1) + RowPairs(s, kind, m - 1, |s|)
  }

  /** The detector's output: all conflicting pairs, ordered by first then second position. */
  function ConflictPairs(s: seq<Action>, kind: ConflictKind): seq<Conflict> {
    PairsBefore(s, kind, |s|)
  }

  /** The nested detection loop (the same for both kinds). */
  method FindConflicts(s: seq<Action>, kind: ConflictKind) returns (conflicts: seq<Conflict>)
    ensures conflicts == ConflictPairs(s, kind)
  {
    conflicts := [];
    var i := 0;
    while i < |s|
      invariant 0 <= i <= |s|
      invariant conflicts == PairsBefore(s, kind, i)
    {
      var j := i + 1;
      while j < |s|
        invariant i + 1 <= j <= |s|
        invariant conflicts == PairsBefore(s, kind, i) + RowPairs(s, kind, i, j)
      {
        if Conflicting(kind, s[i], s[j]) {
          conflicts := conflicts + [(s[i], s[j])];
        }
        j := j + 1;
      }
      i := i + 1;
    }
  }

  lemma {:induction false} RowPairsMembers(s: seq<Action>, kind: ConflictKind, i: nat, n: nat)
    requires i < n <= |s|
    ensures forall p :: p in RowPairs(s, kind, i, n) <==>
      exists k :: i < k < n && p == (s[i], s[k]) && Conflicting(kind, s[i], s[k])
    decreases n
  {
    if n > i + 1 {
      RowPairsMembers(s, kind, i, n - 1);
    }
  }

  lemma {:induction false} PairsBeforeMembers(s: seq<Action>, kind: ConflictKind, m: nat)
    requires m <= |s|
    ensures forall p :: p in PairsBefore(s, kind, m) <==>
      exists i, k :: 0 <= i < m && i < k < |s| && p == (s[i], s[k]) && Conflicting(kind, s[i], s[k])
  {
    if m > 0 {
      PairsBeforeMembers(s, kind, m - 1);
      RowPairsMembers(s, kind, m - 1, |s|);
    }
  }

  /** A pair is reported exactly when its actions stand at positions i < k
      and the kind's rule holds for them. */
  lemma ConflictPairsIff(s: seq<Action>, kind: ConflictKind, a: Action, b: Action)
    ensures (a, b) in ConflictPairs(s, kind) <==>
      exists i, k :: 0 <= i < k < |s| && s[i] == a && s[k] == b && Conflicting(kind, a, b)
  {
    PairsBeforeMembers(s, kind, |s|);
  }

  /** Every reported pair is two actions of the sequence that conflict. */
  lemma ConflictPairsSound(s: seq<Action>, kind: ConflictKind)
    ensures forall p :: p in ConflictPairs(s, kind) ==> p.0 in s && p.1 in s && Conflicting(kind, p.0, p.1)
    ensures ConflictPairs(s, kind) == [] <==>
      forall i, k :: 0 <= i < k < |s| ==> !Conflicting(kind, s[i], s[k])
  {
    PairsBeforeMembers(s, kind, |s|);
    if ConflictPairs(s, kind) != [] {
      assert ConflictPairs(s, kind)[0] in ConflictPairs(s, kind);
    } else {
      forall i, k | 0 <= i < k < |s|
        ensures !Conflicting(kind, s[i], s[k])
      {
        assert (s[i], s[k]) !in ConflictPairs(s, kind);
      }
    }
  }

  /** The positions (i, k) of the conflicting pairs, in the detector's order. */
  function RowIndices(s: seq<Action>, kind: ConflictKind, i: nat, n: nat): seq<(nat, nat)>
    requires i < n <= |s|
    decreases n
  {
    if n == i + 1 then []
    else RowIndices(s, kind, i, n - 1)
         + (if Conflicting(kind, s[i], s[n - 1]) then [(i, n - 1)] else [])
  }

  /** The position pairs whose first position is below m, row by row. */
  function IndicesBefore(s: seq<Action>, kind: ConflictKind, m: nat): seq<(nat, nat)>
    requires m <= |s|
  {
    if m == 0 then [] else IndicesBefore(s, kind, m - 1) + RowIndices(s, kind, m - 1, |s|)
  }

  /** The position pair of every reported conflict, entry by entry. */
  function ConflictIndices(s: seq<Action>, kind: ConflictKind): seq<(nat, nat)> {
    IndicesBefore(s, kind, |s|)
  }

  /** Row-major order on position pairs. */
  predicate PairBefore(p: (nat, nat), q: (nat, nat)) {
    p.0 < q.0 || (p.0 == q.0 && p.1 < q.1)
  }

  /** `ix` lists the conflicting position pairs of `s` below `m` that `cs`
      reports, entry by entry and strictly in row-major order. */
  ghost predicate IndexedBy(s: seq<Action>, kind: ConflictKind, cs: seq<Conflict>, ix: seq<(nat, nat)>, m: nat) {
    |ix| == |cs|
    && (forall t :: 0 <= t < |ix| ==>
          ix[t].0 < m && ix[t].0 < ix[t].1 < |s| && Conflicting(kind, s[ix[t].0], s[ix[t].1])
          && cs[t] == (s[ix[t].0], s[ix[t].1]))
    && (forall t, u :: 0 <= t < u < |ix| ==> PairBefore(ix[t], ix[u]))
  }

  lemma {:induction false} RowIndexed(s: seq<Action>, kind: ConflictKind, i: nat, n: nat)
    requires i < n <= |s|
    ensures var ix := RowIndices(s, kind, i, n);
      IndexedBy(s, kind, RowPairs(s, kind, i, n), ix, i + 1)
      && forall t :: 0 <= t < |ix| ==> ix[t].0 == i && ix[t].1 < n
    decreases n
  {
    if n > i + 1 {
      RowIndexed(s, kind, i, n - 1);
      var ix0 := RowIndices(s, kind, i, n - 1);
      var cs0 := RowPairs(s, kind, i, n - 1);
      if Conflicting(kind, s[i], s[n - 1]) {
        assert RowIndices(s, kind, i, n) == ix0 + [(i, n - 1)];
        assert RowPairs(s, kind, i, n) == cs0 + [(s[i], s[n - 1])];
        IndexedSnoc(s, kind, cs0, ix0, i, n - 1);
      } else {
        assert RowIndices(s, kind, i, n) == ix0;
        assert RowPairs(s, kind, i, n) == cs0;
      }
    }
  }

  /** Every conflicting pair of row i below n is listed. */
  lemma {:induction false} RowComplete(s: seq<Action>, kind: ConflictKind, i: nat, n: nat)
    requires i < n <= |s|
    ensures forall k :: i < k < n && Conflicting(kind, s[i], s[k]) ==> (i, k) in RowIndices(s, kind, i, n)
    decreases n
  {
    if n > i + 1 {
      RowComplete(s, kind, i, n - 1);
      var ix0 := RowIndices(s, kind, i, n - 1);
      assert RowIndices(s, kind, i, n)
        == ix0 + (if Conflicting(kind, s[i], s[n - 1]) then [(i, n - 1)] else []);
    }
  }

  /** A row grows by the pair (i, k) past all its earlier entries. */
  lemma IndexedSnoc(s: seq<Action>, kind: ConflictKind, cs: seq<Conflict>, ix: seq<(nat, nat)>, i: nat, k: nat)
    requires i < k < |s| && Conflicting(kind, s[i], s[k])
    requires IndexedBy(s, kind, cs, ix, i + 1)
    requires forall t :: 0 <= t < |ix| ==> ix[t].0 == i && ix[t].1 < k
    ensures var ix' := ix + [(i, k)];
      IndexedBy(s, kind, cs + [(s[i], s[k])], ix', i + 1)
      && (forall t :: 0 <= t < |ix'| ==> ix'[t].0 == i && ix'[t].1 < k + 1)
  {
    var ix' := ix + [(i, k)];
    forall t, u | 0 <= t < u < |ix'|
      ensures PairBefore(ix'[t], ix'[u])
    {
      if u < |ix| {
        assert PairBefore(ix[t], ix[u]);
      }
    }
  }

  lemma {:induction false} IndicesBeforeIndexed(s: seq<Action>, kind: ConflictKind, m: nat)
    requires m <= |s|
    ensures IndexedBy(s, kind, PairsBefore(s, kind, m), IndicesBefore(s, kind, m), m)
  {
    if m > 0 {
      IndicesBeforeIndexed(s, kind, m - 1);
      RowIndexed(s, kind, m - 1, |s|);
      IndexedAppend(s, kind, PairsBefore(s, kind, m - 1), IndicesBefore(s, kind, m - 1),
                    RowPairs(s, kind, m - 1, |s|), RowIndices(s, kind, m - 1, |s|), m);
    }
  }

  /** Every conflicting pair whose first position is below m is listed. */
  lemma {:induction false} IndicesBeforeComplete(s: seq<Action>, kind: ConflictKind, m: nat)
    requires m <= |s|
    ensures forall i, k :: 0 <= i < m && i < k < |s| && Conflicting(kind, s[i], s[k]) ==>
      (i, k) in IndicesBefore(s, kind, m)
  {
    if m > 0 {
      IndicesBeforeComplete(s, kind, m - 1);
      RowComplete(s, kind, m - 1, |s|);
      var head := IndicesBefore(s, kind, m - 1);
      var row := RowIndices(s, kind, m - 1, |s|);
      forall i, k | 0 <= i < m && i < k < |s| && Conflicting(kind, s[i], s[k])
        ensures (i, k) in head + row
      {
        if i < m - 1 {
          assert (i, k) in head;
        } else {
          assert (i, k) in row;
        }
      }
    }
  }

  /** The earlier rows followed by row m - 1 keep the indexing. */
  lemma IndexedAppend(s: seq<Action>, kind: ConflictKind, cs1: seq<Conflict>, ix1: seq<(nat, nat)>,
                      cs2: seq<Conflict>, ix2: seq<(nat, nat)>, m: nat)
    requires 0 < m
    requires IndexedBy(s, kind, cs1, ix1, m - 1)
    requires IndexedBy(s, kind, cs2, ix2, m) && forall t :: 0 <= t < |ix2| ==> ix2[t].0 == m - 1
    ensures IndexedBy(s, kind, cs1 + cs2, ix1 + ix2, m)
  {
    var ix := ix1 + ix2;
    forall t, u | 0 <= t < u < |ix|
      ensures PairBefore(ix[t], ix[u])
    {
      if u < |ix1| {
        assert PairBefore(ix1[t], ix1[u]);
      } else if t >= |ix1| {
        assert PairBefore(ix2[t - |ix1|], ix2[u - |ix1|]);
      } else {
        assert ix[t].0 < m - 1 && ix[u].0 == m - 1;
      }
    }
  }

  /** The detector reports one entry per position pair i < k whose actions
      conflict, in row-major order of (i, k): duplicated actions give one
      entry per pair of positions, not per pair of values. */
  lemma ConflictPairsIndexed(s: seq<Action>, kind: ConflictKind)
    ensures var ix := ConflictIndices(s, kind);
      IndexedBy(s, kind, ConflictPairs(s, kind), ix, |s|)
      && (forall i, k :: 0 <= i < k < |s| && Conflicting(kind, s[i], s[k]) ==> (i, k) in ix)
  {
    IndicesBeforeIndexed(s, kind, |s|);
    IndicesBeforeComplete(s, kind, |s|);
  }

  /** Hence the number of reported conflicts is the number of conflicting
      position pairs. */
  lemma ConflictCount(s: seq<Action>, kind: ConflictKind)
    ensures |ConflictPairs(s, kind)|
      == |set i, k | 0 <= i < k < |s| && Conflicting(kind, s[i], s[k]) :: (i, k)|
  {
    ConflictPairsIndexed(s, kind);
    var ix := ConflictIndices(s, kind);
    var pairs := set i, k | 0 <= i < k < |s| && Conflicting(kind, s[i], s[k]) :: (i, k);
    assert pairs == set t | t in ix by {
      forall p | p in ix
        ensures p in pairs
      {
        var t :| 0 <= t < |ix| && ix[t] == p;
        assert ix[t].0 < ix[t].1 < |s| && Conflicting(kind, s[ix[t].0], s[ix[t].1]);
      }
    }
    DistinctCard(ix);
  }

  /** A sequence strictly ordered row-major has as many elements as its set. */
  lemma {:induction false} DistinctCard(ix: seq<(nat, nat)>)
    requires forall t, u :: 0 <= t < u < |ix| ==> PairBefore(ix[t], ix[u])
    ensures |set t | t in ix| == |ix|
  {
    if ix != [] {
      var init := ix[..|ix| - 1];
      var last := ix[|ix| - 1];
      DistinctCard(init);
      assert (set t | t in ix) == (set t | t in init) + {last};
      assert last !in init by {
        forall t | 0 <= t < |init|
          ensures init[t] != last
        {
          assert PairBefore(ix[t], ix[|ix| - 1]);
        }
      }
    }
  }

  // Resource conflicts: reorder by priority

  /** One reorder: when the first action outranks the second, remove the
      second and reinsert it right after the first; otherwise nothing. */
  function ReorderStep(s: seq<Action>, c: Conflict): Option<seq<Action>> {
    if Priority(c.0.Kind()) > Priority(c.1.Kind()) then MoveAfter(s, c.0, c.1)
    else Some(s)
  }

  /** The reorders of all conflicts, one pass in list order. */
  function Reordered(s: seq<Action>, cs: seq<Conflict>): Option<seq<Action>>
    decreases |cs|
  {
    if cs == [] then Some(s)
    else match ReorderStep(s, cs[0])
      case None => None
      case Some(next) => Reordered(next, cs[1..])
  }

  method ReorderByPriority(s: seq<Action>, cs: seq<Conflict>) returns (r: Option<seq<Action>>)
    ensures r == Reordered(s, cs)
  {
    var resolved := s;
    var i := 0;
    while i < |cs|
      invariant 0 <= i <= |cs|
      invariant Reordered(resolved, cs[i..]) == Reordered(s, cs)
    {
      var first, second := cs[i].0, cs[i].1;
      assert cs[i..][1..] == cs[i + 1..];
      if Priority(first.Kind()) > Priority(second.Kind()) {
        var rest := RemoveFirst(resolved, second);
        if rest.None? {
          return None;
        }
        var at := IndexOf(rest.value, first);
        if at.None? {
          return None;
        }
        resolved := Insert(rest.value, at.value + 1, second);
      }
      i := i + 1;
    }
    return Some(resolved);
  }

  /** When no conflict's first action outranks its second, the pass changes nothing. */
  lemma {:induction false} NoReorderWithoutPriorityGap(s: seq<Action>, cs: seq<Conflict>)
    requires forall k :: 0 <= k < |cs| ==> Priority(cs[k].0.Kind()) <= Priority(cs[k].1.Kind())
    ensures Reordered(s, cs) == Some(s)
    decreases |cs|
  {
    if cs != [] {
      NoReorderWithoutPriorityGap(s, cs[1..]);
    }
  }

  /** Every resource conflict pairs two priority-2 actions, so the priority
      test never fires and the resource pass leaves the sequence unchanged. */
  lemma ResourcePassIsIdentity(s: seq<Action>)
    ensures forall p :: p in ConflictPairs(s, Resource) ==>
      Priority(p.0.Kind()) == 2 && Priority(p.1.Kind()) == 2
    ensures Reordered(s, ConflictPairs(s, Resource)) == Some(s)
  {
    ConflictPairsSound(s, Resource);
    var cs := ConflictPairs(s, Resource);
    assert forall k :: 0 <= k < |cs| ==> cs[k] in cs;
    NoReorderWithoutPriorityGap(s, cs);
  }

  /** What a reorder does when it does fire (for a priority table under which
      it could): the result is a permutation, and the second action directly
      follows the first occurrence of the first. */
  lemma ReorderStepPlacesAfter(s: seq<Action>, a1: Action, a2: Action)
    requires Priority(a1.Kind()) > Priority(a2.Kind())
    requires a1 in s && a2 in s
    ensures ReorderStep(s, (a1, a2)).Some?
    ensures var r := ReorderStep(s, (a1, a2)).value;
      multiset(r) == multiset(s)
      && IndexOf(r, a1).Some? && IndexOf(r, a1).value + 1 < |r|
      && r[IndexOf(r, a1).value + 1] == a2
  {
    assert a1 != a2 by {
      assert a1.Kind() != a2.Kind();
    }
    MoveAfterFirst(s, a1, a2);
  }

  // Spatial conflicts: insert safe-position stops

  /** The synthetic navigation inserted for each spatial conflict. */
  const SAFE_STOP := NavigateAction(SAFE_POSITION, AVOID_CONFLICT)

  /** One insertion: a safe stop right after the first occurrence of the
      conflict's first action; the conflicting pair itself stays. */
  function StopStep(s: seq<Action>, c: Conflict): Option<seq<Action>> {
    match IndexOf(s, c.0)
    case None => None
    case Some(k) => Some(Insert(s, k + 1, SAFE_STOP))
  }

  function WithSafeStops(s: seq<Action>, cs: seq<Conflict>): Option<seq<Action>>
    decreases |cs|
  {
    if cs == [] then Some(s)
    else match StopStep(s, cs[0])
      case None => None
      case Some(next) => WithSafeStops(next, cs[1..])
  }

  method InsertSafeStops(s: seq<Action>, cs: seq<Conflict>) returns (r: Option<seq<Action>>)
    ensures r == WithSafeStops(s, cs)
  {
    var resolved := s;
    var i := 0;
    while i < |cs|
      invariant 0 <= i <= |cs|
      invariant WithSafeStops(resolved, cs[i..]) == WithSafeStops(s, cs)
    {
      assert cs[i..][1..] == cs[i + 1..];
      var at := IndexOf(resolved, cs[i].0);
      if at.None? {
        return None;
      }
      resolved := Insert(resolved, at.value + 1, SAFE_STOP);
      i := i + 1;
    }
    return Some(resolved);
  }

  /** A safe stop lands directly after the first occurrence of the first action. */
  lemma StopFollowsFirstOccurrence(s: seq<Action>, c: Conflict)
    requires c.0 in s
    ensures StopStep(s, c).Some?
    ensures var k := IndexOf(s, c.0).value;
      var r := StopStep(s, c).value;
      k + 1 < |r| && r[k] == c.0 && r[k + 1] == SAFE_STOP
  {
  }

  /** When every conflict's first action occurs in the sequence, each
      conflict adds exactly one safe stop and nothing else changes: the
      input stays in the output in order. */
  lemma SafeStopsShape(s: seq<Action>, cs: seq<Conflict>)
    requires forall k :: 0 <= k < |cs| ==> cs[k].0 in s
    ensures WithSafeStops(s, cs).Some?
    ensures |WithSafeStops(s, cs).value| == |s| + |cs|
    ensures multiset(WithSafeStops(s, cs).value) == multiset(s) + multiset{}[SAFE_STOP := |cs|]
    ensures IsSubsequence(s, WithSafeStops(s, cs).value)
  {
    SafeStopsCount(s, cs);
    SafeStopsOrder(s, cs);
  }

  /** The later conflicts' first actions survive one insertion. */
  lemma RestStillPresent(s: seq<Action>, cs: seq<Conflict>)
    requires cs != [] && forall k :: 0 <= k < |cs| ==> cs[k].0 in s
    ensures StopStep(s, cs[0]).Some?
    ensures forall j :: 0 <= j < |cs[1..]| ==> cs[1..][j].0 in StopStep(s, cs[0]).value
  {
    StopStepShape(s, cs[0]);
    var next := StopStep(s, cs[0]).value;
    forall j | 0 <= j < |cs[1..]|
      ensures cs[1..][j].0 in next
    {
      assert cs[1..][j] == cs[j + 1];
    }
  }

  /** The spatial pass adds exactly one safe stop per conflict. */
  lemma {:induction false} SafeStopsCount(s: seq<Action>, cs: seq<Conflict>)
    requires forall k :: 0 <= k < |cs| ==> cs[k].0 in s
    ensures WithSafeStops(s, cs).Some?
    ensures |WithSafeStops(s, cs).value| == |s| + |cs|
    ensures multiset(WithSafeStops(s, cs).value) == multiset(s) + multiset{}[SAFE_STOP := |cs|]
    decreases |cs|
  {
    if cs == [] {
      assert multiset{}[SAFE_STOP := 0] == multiset{};
    } else {
      RestStillPresent(s, cs);
      StopStepShape(s, cs[0]);
      var next := StopStep(s, cs[0]).value;
      SafeStopsCount(next, cs[1..]);
      AddOneStop(|cs| - 1);
    }
  }

  /** The spatial pass keeps its input in order. */
  lemma {:induction false} SafeStopsOrder(s: seq<Action>, cs: seq<Conflict>)
    requires forall k :: 0 <= k < |cs| ==> cs[k].0 in s
    ensures WithSafeStops(s, cs).Some?
    ensures IsSubsequence(s, WithSafeStops(s, cs).value)
    decreases |cs|
  {
    if cs == [] {
      SubsequenceRefl(s);
    } else {
      RestStillPresent(s, cs);
      StopStepShape(s, cs[0]);
      var next := StopStep(s, cs[0]).value;
      SafeStopsOrder(next, cs[1..]);
      SubsequenceTrans(s, next, WithSafeStops(next, cs[1..]).value);
    }
  }

  /** One safe-stop insertion succeeds when the first action occurs, keeps
      every element, adds one stop and keeps the input in order. */
  lemma StopStepShape(s: seq<Action>, c: Conflict)
    requires c.0 in s
    ensures StopStep(s, c).Some?
    ensures var next := StopStep(s, c).value;
      |next| == |s| + 1
      && (forall y :: y in s ==> y in next)
      && multiset(next) == multiset(s) + multiset{SAFE_STOP}
      && IsSubsequence(s, next)
  {
    var k := IndexOf(s, c.0).value;
    var next := Insert(s, k + 1, SAFE_STOP);
    forall y | y in s
      ensures y in next
    {
      InsertKeepsMembers(s, k + 1, SAFE_STOP, y);
    }
    InsertKeepsOrder(s, k + 1, SAFE_STOP);
  }

  /** One more safe stop on top of n of them. */
  lemma AddOneStop(n: nat)
    ensures multiset{SAFE_STOP} + multiset{}[SAFE_STOP := n] == multiset{}[SAFE_STOP := n + 1]
  {
  }

  // The whole resolver

  /** Resource reordering, then safe stops; both detectors read the input
      sequence. None stands for a failed remove or index. */
  function Resolution(s: seq<Action>): Option<seq<Action>> {
    match Reordered(s, ConflictPairs(s, Resource))
    case None => None
    case Some(reordered) => WithSafeStops(reordered, ConflictPairs(s, Spatial))
  }

  method ResolveConflicts(s: seq<Action>) returns (r: Option<seq<Action>>)
    ensures r == Resolution(s)
  {
    var resourceConflicts := FindConflicts(s, Resource);
    var spaceConflicts := FindConflicts(s, Spatial);
    var reordered := ReorderByPriority(s, resourceConflicts);
    if reordered.None? {
      return None;
    }
    r := InsertSafeStops(reordered.value, spaceConflicts);
  }

  /** The resolver never fails; its output is the input with one safe stop
      per pair of placements at the same destination, the input kept in
      order; without such pairs (in particular, on conflict-free input) it is
      the input itself. */
  lemma ResolutionShape(s: seq<Action>)
    ensures Resolution(s).Some?
    ensures |Resolution(s).value| == |s| + |ConflictPairs(s, Spatial)|
    ensures multiset(Resolution(s).value)
      == multiset(s) + multiset{}[SAFE_STOP := |ConflictPairs(s, Spatial)|]
    ensures IsSubsequence(s, Resolution(s).value)
    ensures (forall i, k :: 0 <= i < k < |s| ==> !Conflicting(Spatial, s[i], s[k])) ==>
      Resolution(s).value == s
  {
    ResourcePassIsIdentity(s);
    ConflictPairsSound(s, Spatial);
    var cs := ConflictPairs(s, Spatial);
    assert forall k :: 0 <= k < |cs| ==> cs[k] in cs;
    SafeStopsShape(s, cs);
  }

  /** Resolution adds one safe stop per pair of positions i < k holding
      placements at the same destination, so repeated placements of one
      action count once per pair of their positions. */
  lemma StopsPerPositionPair(s: seq<Action>)
    ensures Resolution(s).Some?
    ensures |Resolution(s).value|
      == |s| + |set i, k | 0 <= i < k < |s| && Conflicting(Spatial, s[i], s[k]) :: (i, k)|
  {
    ResolutionShape(s);
    ConflictCount(s, Spatial);
  }

  /** Resolution is not idempotent: when placements share a destination,
      resolving the resolved sequence again adds stops once more. */
  lemma ResolveAgainGrows(s: seq<Action>)
    requires ConflictPairs(s, Spatial) != []
    ensures Resolution(s).Some?
    ensures Resolution(Resolution(s).value).Some?
    ensures |Resolution(Resolution(s).value).value| > |Resolution(s).value|
  {
    ResolutionShape(s);
    var r := Resolution(s).value;
    ConflictPairsSound(s, Spatial);
    var i, k :| 0 <= i < k < |s| && Conflicting(Spatial, s[i], s[k]);
    var e :| Embeds(s, r, e);
    assert r[e[i]] == s[i] && r[e[k]] == s[k] && e[i] < e[k];
    ConflictPairsSound(r, Spatial);
    ResolutionShape(r);
  }

  /** Two placements on the same shelf: exactly one safe stop, directly
      after the first placement. */
  lemma TwoPlacementsOnShelf(p: map<string, string>)
    ensures var first := PlaceAction("cup", "shelf", p);
      var second := PlaceAction("bowl", "shelf", p);
      Resolution([first, second]) == Some([first, SAFE_STOP, second])
  {
    var first := PlaceAction("cup", "shelf", p);
    var second := PlaceAction("bowl", "shelf", p);
    var s := [first, second];
    ResourcePassIsIdentity(s);
    assert Conflicting(Spatial, first, second);
    assert RowPairs(s, Spatial, 0, 2) == [(first, second)];
    assert RowPairs(s, Spatial, 1, 2) == [];
    assert PairsBefore(s, Spatial, 1) == [(first, second)];
    assert ConflictPairs(s, Spatial) == PairsBefore(s, Spatial, 1) + RowPairs(s, Spatial, 1, 2);
    assert IndexOf(s, first) == Some(0);
    var r := [first, SAFE_STOP, second];
    assert Insert(s, 1, SAFE_STOP) == r;
    assert StopStep(s, (first, second)) == Some(r);
    assert [(first, second)][1..] == [];
    assert WithSafeStops(s, [(first, second)]) == Some(r);
  }
}
