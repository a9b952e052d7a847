/**
 * The two passes of `restoreState`, as functions of the part order and the stored records,
 * and what they achieve.
 *
 * Pass 1 walks the stored records with a running `index`: a record whose partId names a current
 * part moves that part to `index` when it sits further back, and only a match advances `index`.
 * Pass 2 walks the stored records again and sets the hidden flag of the first part carrying
 * each record's partId.
 */
module Restore {

  import opened Wrappers
  import opened Parts
  import opened Layout

  predicate DistinctStoredIds(stored: seq<PartState>)
  {
    forall i, j :: 0 <= i < j < |stored| ==> stored[i].partId != stored[j].partId
  }

  function StoredIds(stored: seq<PartState>): set<string>
  {
    set r | r in stored :: r.partId
  }

  /** One iteration of the reorder loop, for the record with partId `pid`. */
  function ReorderStep(order: seq<ViewContainerPart>, index: nat, pid: string): (seq<ViewContainerPart>, nat)
  {
    var currentIndex := IndexOf(order, ByPartId, pid);
    if currentIndex < 0 then (order, index)
    else if currentIndex > index then (Move(order, currentIndex, index), index + 1)
    else (order, index + 1)
  }

  /** The order and the running index after the reorder loop has consumed `stored`. */
  function Reorder(order: seq<ViewContainerPart>, stored: seq<PartState>): (r: (seq<ViewContainerPart>, nat))
    ensures r.1 <= |stored|
  {
    if stored == [] then (order, 0)
    else
      var (o, index) := Reorder(order, stored[..|stored| - 1]);
      ReorderStep(o, index, stored[|stored| - 1].partId)
  }

  /** One more record costs the reorder pass exactly one more step. */
  lemma ReorderUnfold(order: seq<ViewContainerPart>, stored: seq<PartState>, k: nat)
    requires k < |stored|
    ensures var t := Reorder(order, stored[..k]);
            Reorder(order, stored[..k + 1]) == ReorderStep(t.0, t.1, stored[k].partId)
  {
    assert stored[..k + 1][..k] == stored[..k];
  }

  /** The reorder pass only permutes the parts. */
  lemma {:induction false} ReorderPermutes(order: seq<ViewContainerPart>, stored: seq<PartState>)
    ensures multiset(Reorder(order, stored).0) == multiset(order)
  {
    if stored != [] {
      var s := stored[..|stored| - 1];
      ReorderPermutes(order, s);
      var (o, index) := Reorder(order, s);
      var c := IndexOf(o, ByPartId, stored[|stored| - 1].partId);
      if c > index {
        MovePermutes(o, c, index);
      }
    }
  }

  /**
   * What the visibility loop writes into the hidden flag of `order[i]` after consuming `stored`:
   * the value of the last record whose partId is first found at `i`, or `None` when no record is.
   */
  function VisibilityWrite(order: seq<ViewContainerPart>, stored: seq<PartState>, i: nat): Option<bool>
  {
    if stored == [] then None
    else
      var last := stored[|stored| - 1];
      if IndexOf(order, ByPartId, last.partId) == i then Some(last.hidden)
      else VisibilityWrite(order, stored[..|stored| - 1], i)
  }

  /** The hidden flag of `order[i]` after the visibility loop, when it was `before` ahead of it. */
  function HiddenAfter(order: seq<ViewContainerPart>, stored: seq<PartState>, i: nat, before: bool): bool
  {
    match VisibilityWrite(order, stored, i)
    case Some(h) => h
    case None => before
  }

  /** One more record changes the visibility loop's outcome only at the position it names. */
  lemma VisibilityUnfold(order: seq<ViewContainerPart>, stored: seq<PartState>, k: nat)
    requires k < |stored|
    ensures forall i: nat, before: bool :: HiddenAfter(order, stored[..k + 1], i, before)
              == if IndexOf(order, ByPartId, stored[k].partId) == i then stored[k].hidden
                 else HiddenAfter(order, stored[..k], i, before)
  {
    var s := stored[..k + 1];
    assert s[..|s| - 1] == stored[..k] && s[|s| - 1] == stored[k];
    forall i: nat, before: bool
      ensures HiddenAfter(order, s, i, before)
              == if IndexOf(order, ByPartId, stored[k].partId) == i then stored[k].hidden
                 else HiddenAfter(order, stored[..k], i, before)
    {
      assert VisibilityWrite(order, s, i)
             == if IndexOf(order, ByPartId, stored[k].partId) == i then Some(stored[k].hidden)
                else VisibilityWrite(order, stored[..k], i);
    }
  }

  /** The hidden value the last record for `pid` carries, if any record does. */
  function LastHidden(stored: seq<PartState>, pid: string): (r: Option<bool>)
    ensures r.None? <==> pid !in StoredIds(stored)
    ensures r.Some? ==> PartState(pid, r.value) in stored
  {
    if stored == [] then None
    else
      var last := stored[|stored| - 1];
      assert stored == stored[..|stored| - 1] + [last];
      if last.partId == pid then Some(last.hidden) else LastHidden(stored[..|stored| - 1], pid)
  }

  /** The current parts named by `stored`, in the order the records name them. */
  function Matched(order: seq<ViewContainerPart>, stored: seq<PartState>): (r: seq<ViewContainerPart>)
    ensures forall k :: 0 <= k < |r| ==> r[k].partId in StoredIds(stored)
  {
    if stored == [] then []
    else
      var prefix := stored[..|stored| - 1];
      assert stored == prefix + [stored[|stored| - 1]];
      var j := IndexOf(order, ByPartId, stored[|stored| - 1].partId);
      Matched(order, prefix) + if j < 0 then [] else [order[j]]
  }

  /** The parts whose partId is not in `ids`, in their current relative order. */
  function Unmatched(order: seq<ViewContainerPart>, ids: set<string>): (r: seq<ViewContainerPart>)
    ensures |r| <= |order|
    ensures forall k :: 0 <= k < |r| ==> r[k].partId !in ids
  {
    if order == [] then []
    else (if order[0].partId in ids then [] else [order[0]]) + Unmatched(order[1..], ids)
  }

  lemma {:induction false} UnmatchedNothing(order: seq<ViewContainerPart>)
    ensures Unmatched(order, {}) == order
  {
    if order != [] {
      UnmatchedNothing(order[1..]);
    }
  }

  lemma {:induction false} UnmatchedAppend(a: seq<ViewContainerPart>, b: seq<ViewContainerPart>, ids: set<string>)
    ensures Unmatched(a + b, ids) == Unmatched(a, ids) + Unmatched(b, ids)
  {
    if a != [] {
      var head := if a[0].partId in ids then [] else [a[0]];
      assert (a + b)[0] == a[0] && (a + b)[1..] == a[1..] + b;
      UnmatchedAppend(a[1..], b, ids);
      calc {
        Unmatched(a + b, ids);
        head + Unmatched(a[1..] + b, ids);
        head + (Unmatched(a[1..], ids) + Unmatched(b, ids));
        (head + Unmatched(a[1..], ids)) + Unmatched(b, ids);
      }
    } else {
      assert a + b == b;
    }
  }

  /** Excluding a partId that no part carries changes nothing. */
  lemma {:induction false} UnmatchedExcludeAbsent(order: seq<ViewContainerPart>, ids: set<string>, pid: string)
    requires forall t :: 0 <= t < |order| ==> order[t].partId != pid
    ensures Unmatched(order, ids + {pid}) == Unmatched(order, ids)
  {
    if order != [] {
      UnmatchedExcludeAbsent(order[1..], ids, pid);
    }
  }

  /**
   * With distinct partIds, the unmatched parts around the one part `order[j]` carrying a not yet
   * excluded partId: it sits between those before and those after it, and excluding its partId
   * removes it and nothing else.
   */
  lemma {:induction false} UnmatchedExcludeOne(order: seq<ViewContainerPart>, ids: set<string>, j: nat)
    requires DistinctKeys(order, ByPartId) && j < |order| && order[j].partId !in ids
    ensures Unmatched(order, ids)
         == Unmatched(order[..j], ids) + [order[j]] + Unmatched(order[j + 1..], ids)
    ensures Unmatched(order, ids + {order[j].partId})
         == Unmatched(order[..j], ids) + Unmatched(order[j + 1..], ids)
  {
    var x := order[j];
    var before, after := order[..j], order[j + 1..];
    assert order == before + ([x] + after);
    UnmatchedSplice(before, x, after, ids);
    UnmatchedSplice(before, x, after, ids + {x.partId});
    OthersAround(order, j, before, after);
    UnmatchedExcludeAbsent(before, ids, x.partId);
    UnmatchedExcludeAbsent(after, ids, x.partId);
  }

  /** The unmatched parts of a sequence split around `x`. */
  lemma UnmatchedSplice(before: seq<ViewContainerPart>, x: ViewContainerPart, after: seq<ViewContainerPart>, ids: set<string>)
    ensures Unmatched(before + ([x] + after), ids)
         == Unmatched(before, ids) + (if x.partId in ids then [] else [x]) + Unmatched(after, ids)
  {
    UnmatchedAppend(before, [x] + after, ids);
    assert ([x] + after)[1..] == after;
  }

  /** With distinct partIds, the parts before and after position `j` all carry other partIds. */
  lemma OthersAround(order: seq<ViewContainerPart>, j: nat, before: seq<ViewContainerPart>, after: seq<ViewContainerPart>)
    requires DistinctKeys(order, ByPartId) && j < |order|
    requires before == order[..j] && after == order[j + 1..]
    ensures forall t :: 0 <= t < |before| ==> before[t].partId != order[j].partId
    ensures forall t :: 0 <= t < |after| ==> after[t].partId != order[j].partId
  {
    forall t | 0 <= t < |before| ensures before[t].partId != order[j].partId {
      assert before[t] == order[t];
    }
    forall t | 0 <= t < |after| ensures after[t].partId != order[j].partId {
      assert after[t] == order[j + 1 + t];
    }
  }

  /** A position holding `value` with no earlier one is what `IndexOf` finds. */
  lemma IndexOfFirst(ps: seq<ViewContainerPart>, key: Key, value: string, c: nat)
    requires c < |ps| && KeyOf(ps[c], key) == value
    requires forall t :: 0 <= t < c ==> KeyOf(ps[t], key) != value
    ensures IndexOf(ps, key, value) == c
  {
  }

  lemma Slices(m: seq<ViewContainerPart>, u1: seq<ViewContainerPart>, x: ViewContainerPart, u2: seq<ViewContainerPart>)
    ensures var mu := m + u1 + [x] + u2;
            mu[..|m|] == m && mu[|m|..|m| + |u1|] == u1 && mu[|m| + |u1|] == x && mu[|m| + |u1| + 1..] == u2
  {
  }

  /** A part preceded only by parts with other partIds is the one `IndexOf` finds. */
  lemma FoundAfterOthers(
    m: seq<ViewContainerPart>, u1: seq<ViewContainerPart>, x: ViewContainerPart, u2: seq<ViewContainerPart>)
    requires forall t :: 0 <= t < |m| ==> m[t].partId != x.partId
    requires forall t :: 0 <= t < |u1| ==> u1[t].partId != x.partId
    ensures IndexOf(m + u1 + [x] + u2, ByPartId, x.partId) == |m| + |u1|
  {
    var mu := m + u1 + [x] + u2;
    var c := |m| + |u1|;
    Slices(m, u1, x, u2);
    forall t | 0 <= t < c ensures mu[t].partId != x.partId {
      if t < |m| { assert mu[t] == mu[..|m|][t]; } else { assert mu[t] == mu[|m|..c][t - |m|]; }
    }
    IndexOfFirst(mu, ByPartId, x.partId, c);
  }

  /** With distinct records, the last one names a partId none of the earlier ones does. */
  lemma LastRecordIsNew(stored: seq<PartState>)
    requires DistinctStoredIds(stored) && stored != []
    ensures var s := stored[..|stored| - 1];
            var pid := stored[|stored| - 1].partId;
            DistinctStoredIds(s) && pid !in StoredIds(s) && StoredIds(stored) == StoredIds(s) + {pid}
  {
    var s, last := stored[..|stored| - 1], stored[|stored| - 1];
    assert stored == s + [last];
    forall r | r in s ensures r.partId != last.partId {
      var t :| 0 <= t < |s| && s[t] == r;
      assert stored[t] == r;
    }
  }

  /** The matched parts carry only partIds the records name. */
  lemma MatchedExcludes(order: seq<ViewContainerPart>, stored: seq<PartState>, pid: string)
    requires pid !in StoredIds(stored)
    ensures forall t :: 0 <= t < |Matched(order, stored)| ==> Matched(order, stored)[t].partId != pid
  {
  }

  /** A reorder step for a partId no part carries changes nothing. */
  lemma ReorderStepAbsent(m: seq<ViewContainerPart>, u: seq<ViewContainerPart>, pid: string)
    requires forall t :: 0 <= t < |m| ==> m[t].partId != pid
    requires forall t :: 0 <= t < |u| ==> u[t].partId != pid
    ensures ReorderStep(m + u, |m|, pid) == (m + u, |m|)
  {
    forall t | 0 <= t < |m + u| ensures (m + u)[t].partId != pid {
      if t < |m| { assert (m + u)[t] == m[t]; } else { assert (m + u)[t] == u[t - |m|]; }
    }
  }

  /** A reorder step whose part is found at or after the running index brings it to the index. */
  lemma ReorderStepFound(order: seq<ViewContainerPart>, index: nat, pid: string, c: nat)
    requires index <= c < |order| && IndexOf(order, ByPartId, pid) == c
    ensures ReorderStep(order, index, pid) == (order[..index] + [order[c]] + order[index..c] + order[c + 1..], index + 1)
  {
    if c > index {
      MoveForward(order, c, index);
    } else {
      assert order == order[..index] + [order[c]] + order[index..c] + order[c + 1..];
    }
  }

  /**
   * One reorder step for a record that names the part `x`, when the parts before the running
   * index and the ones between it and `x` carry other partIds: `x` moves to the index.
   */
  lemma {:induction false} ReorderStepMoves(
    m: seq<ViewContainerPart>, u1: seq<ViewContainerPart>, x: ViewContainerPart, u2: seq<ViewContainerPart>)
    requires forall t :: 0 <= t < |m| ==> m[t].partId != x.partId
    requires forall t :: 0 <= t < |u1| ==> u1[t].partId != x.partId
    ensures ReorderStep(m + u1 + [x] + u2, |m|, x.partId) == (m + [x] + u1 + u2, |m| + 1)
  {
    var mu := m + u1 + [x] + u2;
    var c := |m| + |u1|;
    Slices(m, u1, x, u2);
    FoundAfterOthers(m, u1, x, u2);
    ReorderStepFound(mu, |m|, x.partId, c);
    var before, between, after := mu[..|m|], mu[|m|..c], mu[c + 1..];
    assert before == m && between == u1 && after == u2 && mu[c] == x;
    assert ReorderStep(mu, |m|, x.partId) == (before + [x] + between + after, |m| + 1);
  }

  /**
   * The reorder pass, for distinct partIds on both sides: the parts the records name come first,
   * in record order, followed by every other part in its previous relative order; the running
   * index ends at the number of matched parts.
   */
  lemma {:induction false} ReorderPutsMatchedFirst(order: seq<ViewContainerPart>, stored: seq<PartState>)
    requires DistinctKeys(order, ByPartId) && DistinctStoredIds(stored)
    ensures Reorder(order, stored)
         == (Matched(order, stored) + Unmatched(order, StoredIds(stored)), |Matched(order, stored)|)
  {
    if stored == [] {
      ReorderNoRecords(order);
    } else {
      var s := stored[..|stored| - 1];
      LastRecordIsNew(stored);
      ReorderPutsMatchedFirst(order, s);
      var pid := stored[|stored| - 1].partId;
      var m, ids := Matched(order, s), StoredIds(s);
      MatchedExcludes(order, s, pid);
      if IndexOf(order, ByPartId, pid) < 0 {
        ReorderAbsentRecord(order, stored, m, ids);
      } else {
        ReorderMatchedRecord(order, stored, m, ids);
      }
    }
  }

  /** Base case of the theorem above: with no records nothing is matched and nothing moves. */
  lemma ReorderNoRecords(order: seq<ViewContainerPart>)
    ensures Reorder(order, []) == (Matched(order, []) + Unmatched(order, StoredIds([])), |Matched(order, [])|)
  {
    var none: seq<PartState> := [];
    assert StoredIds(none) == {};
    UnmatchedNothing(order);
    assert Matched(order, none) == [];
    assert [] + order == order;
  }

  lemma Regroup(m: seq<ViewContainerPart>, u1: seq<ViewContainerPart>, x: ViewContainerPart, u2: seq<ViewContainerPart>)
    ensures m + (u1 + [x] + u2) == m + u1 + [x] + u2
    ensures (m + [x]) + (u1 + u2) == m + [x] + u1 + u2
  {
  }

  /** Inductive step of the theorem above for a record that names no current part. */
  lemma ReorderAbsentRecord(order: seq<ViewContainerPart>, stored: seq<PartState>, m: seq<ViewContainerPart>, ids: set<string>)
    requires stored != []
    requires var s := stored[..|stored| - 1];
             m == Matched(order, s) && ids == StoredIds(s)
             && Reorder(order, s) == (m + Unmatched(order, ids), |m|)
    requires var pid := stored[|stored| - 1].partId;
             StoredIds(stored) == ids + {pid} && IndexOf(order, ByPartId, pid) < 0
             && forall t :: 0 <= t < |m| ==> m[t].partId != pid
    ensures Reorder(order, stored)
         == (Matched(order, stored) + Unmatched(order, StoredIds(stored)), |Matched(order, stored)|)
  {
    var pid := stored[|stored| - 1].partId;
    var u := Unmatched(order, ids);
    UnmatchedExcludeAbsent(order, ids, pid);
    assert forall t :: 0 <= t < |u| ==> u[t].partId !in ids + {pid};
    ReorderStepAbsent(m, u, pid);
    assert Matched(order, stored) == m + [] == m;
  }

  /** Inductive step of the theorem above for a record that names a current part. */
  lemma ReorderMatchedRecord(order: seq<ViewContainerPart>, stored: seq<PartState>, m: seq<ViewContainerPart>, ids: set<string>)
    requires stored != [] && DistinctKeys(order, ByPartId)
    requires var s := stored[..|stored| - 1];
             m == Matched(order, s) && ids == StoredIds(s)
             && Reorder(order, s) == (m + Unmatched(order, ids), |m|)
    requires var pid := stored[|stored| - 1].partId;
             pid !in ids && StoredIds(stored) == ids + {pid} && IndexOf(order, ByPartId, pid) >= 0
             && forall t :: 0 <= t < |m| ==> m[t].partId != pid
    ensures Reorder(order, stored)
         == (Matched(order, stored) + Unmatched(order, StoredIds(stored)), |Matched(order, stored)|)
  {
    var pid := stored[|stored| - 1].partId;
    var j := IndexOf(order, ByPartId, pid);
    var x := order[j];
    var u1, u2 := Unmatched(order[..j], ids), Unmatched(order[j + 1..], ids);
    assert Reorder(order, stored) == (m + [x] + u1 + u2, |m| + 1) by {
      UnmatchedExcludeOne(order, ids, j);
      UnmatchedKeepsOthers(order[..j], ids, pid);
      ReorderMatchedStep(order, stored, m, u1, x, u2);
    }
    assert Unmatched(order, StoredIds(stored)) == u1 + u2 by {
      UnmatchedExcludeOne(order, ids, j);
    }
    assert Matched(order, stored) == m + [x];
    Regroup(m, u1, x, u2);
  }

  /** The unmatched parts of `a` are parts of `a`, so none carries a partId no part of `a` carries. */
  lemma UnmatchedKeepsOthers(a: seq<ViewContainerPart>, ids: set<string>, pid: string)
    requires forall t :: 0 <= t < |a| ==> a[t].partId != pid
    ensures forall t :: 0 <= t < |Unmatched(a, ids)| ==> Unmatched(a, ids)[t].partId != pid
  {
    UnmatchedExcludeAbsent(a, ids, pid);
    assert forall t :: 0 <= t < |Unmatched(a, ids + {pid})| ==> Unmatched(a, ids + {pid})[t].partId !in ids + {pid};
  }

  /** The reorder step for a record naming `x`, which sits after the matched prefix `m` and the parts `u1`. */
  lemma ReorderMatchedStep(
    order: seq<ViewContainerPart>, stored: seq<PartState>,
    m: seq<ViewContainerPart>, u1: seq<ViewContainerPart>, x: ViewContainerPart, u2: seq<ViewContainerPart>)
    requires stored != [] && x.partId == stored[|stored| - 1].partId
    requires Reorder(order, stored[..|stored| - 1]) == (m + (u1 + [x] + u2), |m|)
    requires forall t :: 0 <= t < |m| ==> m[t].partId != x.partId
    requires forall t :: 0 <= t < |u1| ==> u1[t].partId != x.partId
    ensures Reorder(order, stored) == (m + [x] + u1 + u2, |m| + 1)
  {
    ReorderStepMoves(m, u1, x, u2);
    Regroup(m, u1, x, u2);
  }

  /**
   * The visibility pass, for distinct current partIds: a part named by some record gets the
   * hidden value of the last such record, and a part named by none is left alone.
   */
  lemma {:induction false} VisibilityFollowsRecords(order: seq<ViewContainerPart>, stored: seq<PartState>, i: nat)
    requires DistinctKeys(order, ByPartId) && i < |order|
    ensures VisibilityWrite(order, stored, i) == LastHidden(stored, order[i].partId)
  {
    if stored != [] {
      VisibilityFollowsRecords(order, stored[..|stored| - 1], i);
      var pid := stored[|stored| - 1].partId;
      var j := IndexOf(order, ByPartId, pid);
      assert j == i <==> order[i].partId == pid;
    }
  }

  /** Restoring the records just taken from `order` (same partIds, same positions) reorders nothing. */
  lemma {:induction false} ReorderOfSnapshotKeepsOrder(order: seq<ViewContainerPart>, stored: seq<PartState>)
    requires |stored| <= |order|
    requires forall t :: 0 <= t < |stored| ==> stored[t].partId == order[t].partId
    ensures Reorder(order, stored) == (order, |stored|)
  {
    if stored != [] {
      var s := stored[..|stored| - 1];
      ReorderOfSnapshotKeepsOrder(order, s);
      var n := |stored| - 1;
      assert IndexOf(order, ByPartId, stored[n].partId) <= n;
    }
  }

  /**
   * Restoring the records just taken from `order`, with distinct partIds, writes back into each
   * part exactly the hidden value that was recorded for it.
   */
  lemma {:induction false} VisibilityOfSnapshot(order: seq<ViewContainerPart>, stored: seq<PartState>, i: nat)
    requires DistinctKeys(order, ByPartId) && i < |order| && |stored| <= |order|
    requires forall t :: 0 <= t < |stored| ==> stored[t].partId == order[t].partId
    ensures VisibilityWrite(order, stored, i) == if i < |stored| then Some(stored[i].hidden) else None
  {
    if stored != [] {
      var n := |stored| - 1;
      var prefix := stored[..n];
      assert forall t :: 0 <= t < |prefix| ==> prefix[t] == stored[t];
      VisibilityOfSnapshot(order, prefix, i);
      assert forall t :: 0 <= t < n ==> KeyOf(order[t], ByPartId) != KeyOf(order[n], ByPartId);
      IndexOfFirst(order, ByPartId, stored[n].partId, n);
      if i != n {
        assert VisibilityWrite(order, stored, i) == VisibilityWrite(order, prefix, i);
        if i < n { assert prefix[i] == stored[i]; }
      }
    }
  }

  /**
   * When two current parts share a partId, restoring a snapshot does not preserve visibility:
   * both records land on the first part, which ends up with the second part's flag.
   */
  lemma SharedPartIdBreaksSnapshot(a: ViewContainerPart, b: ViewContainerPart, ha: bool, hb: bool)
    requires a.partId == b.partId
    ensures var stored := [PartState(a.partId, ha), PartState(b.partId, hb)];
            Reorder([a, b], stored) == ([a, b], 2)
            && VisibilityWrite([a, b], stored, 0) == Some(hb)
            && VisibilityWrite([a, b], stored, 1) == None
  {
    var order := [a, b];
    var stored := [PartState(a.partId, ha), PartState(b.partId, hb)];
    assert IndexOf(order, ByPartId, a.partId) == 0;
    assert stored[..1] == [stored[0]] && stored[..1][..0] == [];
    assert Reorder(order, stored[..1]) == (order, 1);
    assert VisibilityWrite(order, stored[..1], 1) == None;
  }

  /** Parts [C, A, B] restored from the records [C visible, A hidden, B visible] end up with A hidden and B and C visible. */
  lemma RestoreExampleVisibility(a: ViewContainerPart, b: ViewContainerPart, c: ViewContainerPart, before: bool)
    requires a.partId != b.partId && b.partId != c.partId && a.partId != c.partId
    ensures var stored := [PartState(c.partId, false), PartState(a.partId, true), PartState(b.partId, false)];
            HiddenAfter([c, a, b], stored, 0, before) == false
            && HiddenAfter([c, a, b], stored, 1, before) == true
            && HiddenAfter([c, a, b], stored, 2, before) == false
  {
    var stored := [PartState(c.partId, false), PartState(a.partId, true), PartState(b.partId, false)];
    assert stored[..1] == [stored[0]] && stored[..1][..0] == [];
    assert stored[..2][..1] == stored[..1] && stored[..3][..2] == stored[..2] && stored[..3] == stored;
    var restored := [c, a, b];
    assert KeyOf(restored[0], ByPartId) == c.partId && KeyOf(restored[1], ByPartId) == a.partId;
    assert KeyOf(restored[2], ByPartId) == b.partId;
    assert IndexOf(restored, ByPartId, c.partId) == 0;
    assert IndexOf(restored, ByPartId, a.partId) == 1;
    assert IndexOf(restored, ByPartId, b.partId) == 2;
    assert VisibilityWrite(restored, stored, 0) == VisibilityWrite(restored, stored[..1], 0) == Some(false);
    assert VisibilityWrite(restored, stored, 1) == VisibilityWrite(restored, stored[..2], 1) == Some(true);
    assert VisibilityWrite(restored, stored, 2) == Some(false);
  }

  /** One more record naming a current part adds that part to the matched ones. */
  lemma MatchedNext(order: seq<ViewContainerPart>, stored: seq<PartState>, k: nat, m: seq<ViewContainerPart>, j: nat)
    requires k < |stored| && Matched(order, stored[..k]) == m
    requires j < |order| && IndexOf(order, ByPartId, stored[k].partId) == j
    ensures Matched(order, stored[..k + 1]) == m + [order[j]]
  {
    var s := stored[..k + 1];
    assert s != [] && s[..|s| - 1] == stored[..k] && s[|s| - 1] == stored[k];
    assert Matched(order, s) == Matched(order, s[..|s| - 1]) + [order[j]];
  }

  /** The records of the worked example match C, A and B, in that order. */
  lemma ExampleMatched(a: ViewContainerPart, b: ViewContainerPart, c: ViewContainerPart, stored: seq<PartState>)
    requires a.partId != b.partId && b.partId != c.partId && a.partId != c.partId
    requires |stored| == 3 && stored[0].partId == c.partId && stored[1].partId == a.partId && stored[2].partId == b.partId
    ensures Matched([a, b, c], stored) == [c, a, b]
  {
    var order := [a, b, c];
    IndexOfFirst(order, ByPartId, c.partId, 2);
    IndexOfFirst(order, ByPartId, a.partId, 0);
    IndexOfFirst(order, ByPartId, b.partId, 1);
    assert stored[..0] == [] && stored[..3] == stored;
    MatchedNext(order, stored, 0, [], 2);
    MatchedNext(order, stored, 1, [c], 0);
    MatchedNext(order, stored, 2, [c, a], 1);
  }

  /** The records of the worked example leave no part of [A, B, C] unmatched. */
  lemma ExampleAllMatched(a: ViewContainerPart, b: ViewContainerPart, c: ViewContainerPart, stored: seq<PartState>)
    requires |stored| == 3 && stored[0].partId == c.partId && stored[1].partId == a.partId && stored[2].partId == b.partId
    ensures Unmatched([a, b, c], StoredIds(stored)) == []
  {
    var ids := StoredIds(stored);
    assert stored[0] in stored && stored[1] in stored && stored[2] in stored;
    assert a.partId in ids && b.partId in ids && c.partId in ids;
    assert [c][1..] == [] && [b, c][1..] == [c] && [a, b, c][1..] == [b, c];
    assert Unmatched([c], ids) == [];
    assert Unmatched([b, c], ids) == [];
  }

  /** The reorder pass of the worked example, for any records naming C, A and B in that order. */
  lemma ExampleReorder(a: ViewContainerPart, b: ViewContainerPart, c: ViewContainerPart, stored: seq<PartState>)
    requires a.partId != b.partId && b.partId != c.partId && a.partId != c.partId
    requires |stored| == 3 && stored[0].partId == c.partId && stored[1].partId == a.partId && stored[2].partId == b.partId
    ensures Reorder([a, b, c], stored) == ([c, a, b], 3)
  {
    var order := [a, b, c];
    var m, u := Matched(order, stored), Unmatched(order, StoredIds(stored));
    ExampleMatched(a, b, c, stored);
    ExampleAllMatched(a, b, c, stored);
    assert Reorder(order, stored) == (m + u, |m|) by {
      assert DistinctKeys(order, ByPartId) by {
        assert order[0].partId == a.partId && order[1].partId == b.partId && order[2].partId == c.partId;
      }
      assert DistinctStoredIds(stored);
      ReorderPutsMatchedFirst(order, stored);
    }
    assert m + u == [c, a, b];
  }

  /**
   * The worked example of `restoreState`: parts [A, B, C] restored from the records
   * [C visible, A hidden, B visible] are reordered to [C, A, B], the running index ends at 3,
   * and A ends hidden while B and C end visible, whatever their flags were before.
   */
  lemma RestoreExample(a: ViewContainerPart, b: ViewContainerPart, c: ViewContainerPart, before: bool)
    requires a.partId != b.partId && b.partId != c.partId && a.partId != c.partId
    ensures var stored := [PartState(c.partId, false), PartState(a.partId, true), PartState(b.partId, false)];
            var (restored, index) := Reorder([a, b, c], stored);
            restored == [c, a, b] && index == 3
            && !HiddenAfter(restored, stored, 0, before)
            && HiddenAfter(restored, stored, 1, before)
            && !HiddenAfter(restored, stored, 2, before)
  {
    var stored := [PartState(c.partId, false), PartState(a.partId, true), PartState(b.partId, false)];
    ExampleReorder(a, b, c, stored);
    RestoreExampleVisibility(a, b, c, before);
  }
}
