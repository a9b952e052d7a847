/**
 * The layout delegate, reduced to the ordered sequence of parts it holds, and the
 * searches the container runs over that sequence.
 */
module Layout {

  import opened Parts

  /** Which identifier a search compares: the part id, the persistent partId, or the wrapped widget's id. */
  datatype Key = ById | ByPartId | ByWrappedId

  function KeyOf(p: ViewContainerPart, key: Key): string
  {
    match key
    case ById => p.id
    case ByPartId => p.partId
    case ByWrappedId => p.wrapped.id
  }

  /** No two parts share the identifier `key` selects. */
  predicate DistinctKeys(ps: seq<ViewContainerPart>, key: Key)
  {
    forall i, j :: 0 <= i < j < |ps| ==> KeyOf(ps[i], key) != KeyOf(ps[j], key)
  }

  /** `indexOf`: the first position holding the object `p` itself, or -1 when it is absent. */
  function IndexOfPart(ps: seq<ViewContainerPart>, p: ViewContainerPart): (r: int)
    ensures -1 <= r < |ps|
    ensures 0 <= r ==> ps[r] == p && p !in ps[..r]
    ensures r == -1 <==> p !in ps
  {
    if ps == [] then -1
    else if ps[0] == p then 0
    else
      var r := IndexOfPart(ps[1..], p);
      assert 0 <= r ==> ps[..r + 1] == [ps[0]] + ps[1..][..r];
      if r < 0 then -1 else r + 1
  }

  /** `findIndex`: the first position whose `key` equals `value`, or -1 when there is none. */
  function IndexOf(ps: seq<ViewContainerPart>, key: Key, value: string): (r: int)
    ensures -1 <= r < |ps|
    ensures 0 <= r ==> KeyOf(ps[r], key) == value && forall j :: 0 <= j < r ==> KeyOf(ps[j], key) != value
    ensures r == -1 <==> forall j :: 0 <= j < |ps| ==> KeyOf(ps[j], key) != value
  {
    if ps == [] then -1
    else if KeyOf(ps[0], key) == value then 0
    else
      var r := IndexOf(ps[1..], key, value);
      if r < 0 then -1 else r + 1
  }

  /** `s` without its element at `i`. */
  function RemoveAt<T>(s: seq<T>, i: nat): (r: seq<T>)
    requires i < |s|
    ensures |r| == |s| - 1
    ensures forall j :: 0 <= j < i ==> r[j] == s[j]
    ensures forall j :: i <= j < |r| ==> r[j] == s[j + 1]
  {
    s[..i] + s[i + 1..]
  }

  /** `s` with `x` inserted so that it sits at position `i`. */
  function InsertAt<T>(s: seq<T>, i: nat, x: T): (r: seq<T>)
    requires i <= |s|
    ensures |r| == |s| + 1 && r[i] == x
    ensures forall j :: 0 <= j < i ==> r[j] == s[j]
    ensures forall j :: i < j < |r| ==> r[j] == s[j - 1]
  {
    s[..i] + [x] + s[i..]
  }

  /**
   * The layout's `moveWidget(from, to)`: the element at `from` ends up at `to`, and the others
   * keep their relative order. Assumed to be "remove at `from`, then insert at `to`".
   */
  function Move<T>(s: seq<T>, from: nat, to: nat): (r: seq<T>)
    requires from < |s| && to < |s|
    ensures |r| == |s| && r[to] == s[from]
    ensures RemoveAt(r, to) == RemoveAt(s, from)
  {
    var rest := RemoveAt(s, from);
    var r := InsertAt(rest, to, s[from]);
    assert RemoveAt(r, to) == rest;
    r
  }

  /** Taking out the element at `i` takes exactly one copy of it out of the multiset. */
  lemma RemoveAtMultiset<T>(s: seq<T>, i: nat)
    requires i < |s|
    ensures multiset(s) == multiset(RemoveAt(s, i)) + multiset{s[i]}
  {
    assert s == s[..i] + [s[i]] + s[i + 1..];
    assert s[..i] + [s[i]] + s[i + 1..] == s[..i] + ([s[i]] + s[i + 1..]);
  }

  /** Moving an element neither adds nor loses anything. */
  lemma MovePermutes<T>(s: seq<T>, from: nat, to: nat)
    requires from < |s| && to < |s|
    ensures multiset(Move(s, from, to)) == multiset(s)
  {
    RemoveAtMultiset(Move(s, from, to), to);
    RemoveAtMultiset(s, from);
  }

  /** Moving an element keeps the same elements, and keeps keys distinct. */
  lemma MoveKeepsElements(s: seq<ViewContainerPart>, from: nat, to: nat, key: Key)
    requires from < |s| && to < |s|
    ensures forall x :: x in Move(s, from, to) <==> x in s
    ensures DistinctKeys(s, key) ==> DistinctKeys(Move(s, from, to), key)
  {
    assert forall x :: x in Move(s, from, to) <==> x in s by {
      MovePermutes(s, from, to);
      assert forall x :: x in Move(s, from, to) <==> x in multiset(Move(s, from, to));
    }
    if DistinctKeys(s, key) {
      RemoveAtDistinct(s, from, key);
      InsertAtDistinct(RemoveAt(s, from), to, s[from], key);
    }
  }

  /** Removing an element keeps keys distinct, and no remaining key is the removed one's. */
  lemma RemoveAtDistinct(s: seq<ViewContainerPart>, i: nat, key: Key)
    requires i < |s| && DistinctKeys(s, key)
    ensures DistinctKeys(RemoveAt(s, i), key)
    ensures forall k :: 0 <= k < |RemoveAt(s, i)| ==> KeyOf(RemoveAt(s, i)[k], key) != KeyOf(s[i], key)
  {
    var rest := RemoveAt(s, i);
    forall a, b | 0 <= a < b < |rest| ensures KeyOf(rest[a], key) != KeyOf(rest[b], key) {
      var a' := if a < i then a else a + 1;
      var b' := if b < i then b else b + 1;
      assert rest[a] == s[a'] && rest[b] == s[b'] && a' < b';
    }
    forall k | 0 <= k < |rest| ensures KeyOf(rest[k], key) != KeyOf(s[i], key) {
      var k' := if k < i then k else k + 1;
      assert rest[k] == s[k'] && k' != i;
    }
  }

  /** Inserting an element whose key no other element has keeps keys distinct. */
  lemma InsertAtDistinct(s: seq<ViewContainerPart>, i: nat, x: ViewContainerPart, key: Key)
    requires i <= |s| && DistinctKeys(s, key)
    requires forall k :: 0 <= k < |s| ==> KeyOf(s[k], key) != KeyOf(x, key)
    ensures DistinctKeys(InsertAt(s, i, x), key)
  {
    var r := InsertAt(s, i, x);
    forall a, b | 0 <= a < b < |r| ensures KeyOf(r[a], key) != KeyOf(r[b], key) {
      var a' := if a < i then a else a - 1;
      var b' := if b < i then b else b - 1;
      if a == i {
        assert r[b] == s[b'];
      } else if b == i {
        assert r[a] == s[a'];
      } else {
        assert r[a] == s[a'] && r[b] == s[b'] && a' < b';
      }
    }
  }

  /** Moving an element to a position before it shifts the elements in between one place down. */
  lemma {:induction false} MoveForward<T>(s: seq<T>, from: nat, to: nat)
    requires to < from < |s|
    ensures Move(s, from, to) == s[..to] + [s[from]] + s[to..from] + s[from + 1..]
  {
    var r := Move(s, from, to);
    var t := s[..to] + [s[from]] + s[to..from] + s[from + 1..];
    assert |r| == |t|;
    forall j | 0 <= j < |r|
      ensures r[j] == t[j]
    {
      if j < to {
        assert r[j] == RemoveAt(s, from)[j];
      } else if j == to {
      } else if j <= from {
        assert r[j] == RemoveAt(s, from)[j - 1];
      } else {
        assert r[j] == RemoveAt(s, from)[j - 1];
      }
    }
  }

  /**
   * Moving an element to a position after it shifts the elements in between one place up: the
   * element lands just after the one that was at `to`.
   */
  lemma {:induction false} MoveBackward<T>(s: seq<T>, from: nat, to: nat)
    requires from < to < |s|
    ensures Move(s, from, to) == s[..from] + s[from + 1..to + 1] + [s[from]] + s[to + 1..]
  {
    var r := Move(s, from, to);
    var t := s[..from] + s[from + 1..to + 1] + [s[from]] + s[to + 1..];
    assert |r| == |t|;
    forall j | 0 <= j < |r|
      ensures r[j] == t[j]
    {
      if j < from {
        assert r[j] == RemoveAt(s, from)[j];
      } else if j < to {
        assert r[j] == RemoveAt(s, from)[j];
      } else if j == to {
      } else {
        assert r[j] == RemoveAt(s, from)[j - 1];
      }
    }
  }

  /** Moving an element onto its own position changes nothing. */
  lemma MoveInPlace<T>(s: seq<T>, i: nat)
    requires i < |s|
    ensures Move(s, i, i) == s
  {
    var r := Move(s, i, i);
    forall j | 0 <= j < |s|
      ensures r[j] == s[j]
    {
      if j < i {
        assert r[j] == RemoveAt(s, i)[j];
      } else if j > i {
        assert r[j] == RemoveAt(s, i)[j - 1];
      }
    }
  }

  /**
   * The order `moveBefore(toMovedId, moveBeforeThisId)` leaves: the part with id `toMovedId` is
   * moved to the position of the part with id `moveBeforeThisId` when both exist.
   */
  function MoveBeforeOrder(ps: seq<ViewContainerPart>, toMovedId: string, moveBeforeThisId: string): (r: seq<ViewContainerPart>)
    ensures |r| == |ps|
  {
    var from := IndexOf(ps, ById, toMovedId);
    var to := IndexOf(ps, ById, moveBeforeThisId);
    if from >= 0 && to >= 0 then Move(ps, from, to) else ps
  }

  /** `moveBefore` only permutes the parts. */
  lemma MoveBeforePermutes(ps: seq<ViewContainerPart>, toMovedId: string, moveBeforeThisId: string)
    ensures multiset(MoveBeforeOrder(ps, toMovedId, moveBeforeThisId)) == multiset(ps)
  {
    var from := IndexOf(ps, ById, toMovedId);
    var to := IndexOf(ps, ById, moveBeforeThisId);
    if from >= 0 && to >= 0 {
      MovePermutes(ps, from, to);
    }
  }

  /**
   * When both ids resolve, the moved part takes the target's position and the others keep their
   * relative order; when either does not, nothing changes.
   */
  lemma MoveBeforeMoves(ps: seq<ViewContainerPart>, toMovedId: string, moveBeforeThisId: string, from: int, to: int)
    requires from == IndexOf(ps, ById, toMovedId) && to == IndexOf(ps, ById, moveBeforeThisId)
    ensures from >= 0 && to >= 0 ==>
              var r := MoveBeforeOrder(ps, toMovedId, moveBeforeThisId);
              r[to] == ps[from] && RemoveAt(r, to) == RemoveAt(ps, from)
    ensures from < 0 || to < 0 ==> MoveBeforeOrder(ps, toMovedId, moveBeforeThisId) == ps
  {
  }

  /**
   * The steps of `moveBefore` on the layout: look both ids up, and ask the layout to move the
   * first part to the position of the second only when both are found.
   */
  method MovePartBefore(ps: seq<ViewContainerPart>, toMovedId: string, moveBeforeThisId: string) returns (r: seq<ViewContainerPart>)
    ensures var from, to := IndexOf(ps, ById, toMovedId), IndexOf(ps, ById, moveBeforeThisId);
            if from >= 0 && to >= 0 then |r| == |ps| && r[to] == ps[from] && RemoveAt(r, to) == RemoveAt(ps, from)
            else r == ps
    ensures multiset(r) == multiset(ps)
    ensures r == MoveBeforeOrder(ps, toMovedId, moveBeforeThisId)
  {
    r := ps;
    var toMoveIndex := IndexOf(ps, ById, toMovedId);
    var moveBeforeThisIndex := IndexOf(ps, ById, moveBeforeThisId);
    if toMoveIndex >= 0 && moveBeforeThisIndex >= 0 {
      r := Move(ps, toMoveIndex, moveBeforeThisIndex);
      MovePermutes(ps, toMoveIndex, moveBeforeThisIndex);
    }
  }

  /** Moving a part before itself changes nothing. */
  lemma MoveBeforeSelf(ps: seq<ViewContainerPart>, partId: string)
    ensures MoveBeforeOrder(ps, partId, partId) == ps
  {
    var i := IndexOf(ps, ById, partId);
    if i >= 0 {
      MoveInPlace(ps, i);
    }
  }
}
