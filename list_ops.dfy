/** The Python list operations the conflict resolver uses, on values:
    `index` and `remove` act on the first element equal to the argument and
    fail (None) when there is none; `insert` puts an element before a
    position. Also: one sequence embedded in order in another, and the
    in-order concatenation of per-element lists. */
module ListOps {
  import opened Results

  /** `s.index(x)`: the first position holding `x`. */
  function IndexOf<T(==)>(s: seq<T>, x: T): (r: Option<nat>)
    ensures r.Some? ==> r.value < |s| && s[r.value] == x
    ensures r.Some? ==> forall j :: 0 <= j < r.value ==> s[j] != x
    ensures r.None? <==> x !in s
  {
    if s == [] then None
    else if s[0] == x then Some(0)
    else match IndexOf(s[1..], x)
      case None => None
      case Some(k) => Some(k + 1)
  }

  /** The first position of `x` is determined by those two facts alone. */
  lemma IndexOfAt<T>(s: seq<T>, x: T, k: nat)
    requires k < |s| && s[k] == x
    requires forall j :: 0 <= j < k ==> s[j] != x
    ensures IndexOf(s, x) == Some(k)
  {
  }

  /** `s.remove(x)`: drop the first element equal to `x`; the elements before
      it keep their positions and those after it move up by one. */
  function RemoveFirst<T(==)>(s: seq<T>, x: T): (r: Option<seq<T>>)
    ensures r.Some? <==> x in s
    ensures r.Some? ==> |r.value| == |s| - 1 && multiset(r.value) + multiset{x} == multiset(s)
    ensures r.Some? ==> var k := IndexOf(s, x).value;
      (forall j :: 0 <= j < k ==> r.value[j] == s[j])
      && (forall j :: k <= j < |r.value| ==> r.value[j] == s[j + 1])
  {
    match IndexOf(s, x)
    case None => None
    case Some(k) =>
      assert s == s[..k] + [x] + s[k + 1..];
      Some(s[..k] + s[k + 1..])
  }

  /** Removing `x` keeps every other element. */
  lemma RemoveKeepsOthers<T>(s: seq<T>, x: T, y: T)
    requires x in s && y in s && x != y
    ensures y in RemoveFirst(s, x).value
  {
    assert y in multiset(s);
    assert y in multiset(RemoveFirst(s, x).value);
  }

  /** `s.remove(y)` followed by `s.insert(s.index(x) + 1, y)`: move `y`
      right behind the first `x`; None when either list operation fails. */
  function MoveAfter<T(==)>(s: seq<T>, x: T, y: T): Option<seq<T>> {
    match RemoveFirst(s, y)
    case None => None
    case Some(rest) =>
      match IndexOf(rest, x)
      case None => None
      case Some(k) => Some(Insert(rest, k + 1, y))
  }

  /** Moving `y` behind a different element `x`, both present, succeeds,
      permutes the list and leaves `y` directly behind the first `x`. */
  lemma MoveAfterFirst<T>(s: seq<T>, x: T, y: T)
    requires x in s && y in s && x != y
    ensures MoveAfter(s, x, y).Some?
    ensures var r := MoveAfter(s, x, y).value;
      multiset(r) == multiset(s)
      && IndexOf(r, x).Some? && IndexOf(r, x).value + 1 < |r| && r[IndexOf(r, x).value + 1] == y
  {
    ReinsertAfterFirst(s, x, y);
    var rest := RemoveFirst(s, y).value;
    var k := IndexOf(rest, x).value;
    assert MoveAfter(s, x, y) == Some(Insert(rest, k + 1, y));
  }

  /** The same facts, stated on the list operations themselves. */
  lemma ReinsertAfterFirst<T>(s: seq<T>, x: T, y: T)
    requires x in s && y in s && x != y
    ensures x in RemoveFirst(s, y).value
    ensures var rest := RemoveFirst(s, y).value;
      var k := IndexOf(rest, x).value;
      var r := Insert(rest, k + 1, y);
      multiset(r) == multiset(s) && IndexOf(r, x) == Some(k) && r[k + 1] == y
  {
    var rest := RemoveFirst(s, y).value;
    RemoveKeepsOthers(s, y, x);
    InsertAfterFirst(rest, x, y);
    var r := Insert(rest, IndexOf(rest, x).value + 1, y);
    assert multiset(r) == multiset(rest) + multiset{y};
    assert multiset(rest) + multiset{y} == multiset(s);
  }

  /** `s.insert(i, x)` for a position within the list. */
  function Insert<T>(s: seq<T>, i: nat, x: T): (r: seq<T>)
    requires i <= |s|
    ensures |r| == |s| + 1 && r[i] == x
    ensures forall j :: 0 <= j < i ==> r[j] == s[j]
    ensures forall j :: i <= j < |s| ==> r[j + 1] == s[j]
    ensures multiset(r) == multiset(s) + multiset{x}
  {
    assert s == s[..i] + s[i..];
    s[..i] + [x] + s[i..]
  }

  /** Inserting `y` right after the first `x` leaves that `x` the first one
      and puts `y` directly behind it. */
  lemma InsertAfterFirst<T>(s: seq<T>, x: T, y: T)
    requires x in s
    ensures var k := IndexOf(s, x).value;
      var r := Insert(s, k + 1, y);
      IndexOf(r, x) == Some(k) && r[k + 1] == y
  {
    var k := IndexOf(s, x).value;
    var r := Insert(s, k + 1, y);
    assert r[k] == x;
    assert forall j :: 0 <= j < k ==> r[j] != x by {
      assert forall j :: 0 <= j < k ==> r[j] == s[j];
    }
    IndexOfAt(r, x, k);
  }

  /** Inserting keeps every element already present. */
  lemma InsertKeepsMembers<T>(s: seq<T>, i: nat, x: T, y: T)
    requires i <= |s| && y in s
    ensures y in Insert(s, i, x)
  {
    assert y in multiset(s);
    assert y in multiset(Insert(s, i, x));
  }

  /** `e` maps each position of `s` to a position of `r` holding the same
      element, strictly increasingly: `s` occurs in `r` in order. */
  ghost predicate Embeds<T>(s: seq<T>, r: seq<T>, e: seq<nat>) {
    |e| == |s|
    && (forall i :: 0 <= i < |e| ==> e[i] < |r| && r[e[i]] == s[i])
    && (forall i, j :: 0 <= i < j < |e| ==> e[i] < e[j])
  }

  /** `s` is an order-preserving subsequence of `r`. */
  ghost predicate IsSubsequence<T>(s: seq<T>, r: seq<T>) {
    exists e :: Embeds(s, r, e)
  }

  lemma SubsequenceRefl<T>(s: seq<T>)
    ensures IsSubsequence(s, s)
  {
    var e := seq(|s|, i requires 0 <= i < |s| => i);
    assert Embeds(s, s, e);
  }

  /** Inserting an element keeps the old sequence in order inside the new one. */
  lemma InsertKeepsOrder<T>(s: seq<T>, i: nat, x: T)
    requires i <= |s|
    ensures IsSubsequence(s, Insert(s, i, x))
  {
    var e := seq(|s|, j requires 0 <= j < |s| => if j < i then j else j + 1);
    assert Embeds(s, Insert(s, i, x), e);
  }

  /** Order-preserving embedding is transitive. */
  lemma SubsequenceTrans<T>(a: seq<T>, b: seq<T>, c: seq<T>)
    requires IsSubsequence(a, b) && IsSubsequence(b, c)
    ensures IsSubsequence(a, c)
  {
    var e1 :| Embeds(a, b, e1);
    var e2 :| Embeds(b, c, e2);
    var e := seq(|a|, i requires 0 <= i < |a| => e2[e1[i]]);
    assert Embeds(a, c, e);
  }

  /** The concatenation, in order, of what `f` gives for each element. */
  function FlatMap<A, B>(s: seq<A>, f: A -> seq<B>): seq<B> {
    if s == [] then [] else FlatMap(s[..|s| - 1], f) + f(s[|s| - 1])
  }

  /** A four-element list maps to the four images, concatenated in order. */
  lemma FlatMapFour<A, B>(a: A, b: A, c: A, d: A, f: A -> seq<B>)
    ensures FlatMap([a, b, c, d], f) == f(a) + f(b) + f(c) + f(d)
  {
    assert FlatMap([a], f) == f(a) by {
      assert [a][..0] == [];
    }
    assert FlatMap([a, b], f) == FlatMap([a], f) + f(b) by {
      assert [a, b][..1] == [a];
    }
    assert FlatMap([a, b, c], f) == FlatMap([a, b], f) + f(c) by {
      assert [a, b, c][..2] == [a, b];
    }
    assert FlatMap([a, b, c, d], f) == FlatMap([a, b, c], f) + f(d) by {
      assert [a, b, c, d][..3] == [a, b, c];
    }
  }
}
