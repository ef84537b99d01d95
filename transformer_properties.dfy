/** What the rebasing, composing and inverting of src/transformer.rs
    promise, stated over the model of src/json.rs: the case table's
    per-case rules, the index bookkeeping checked against what applying the
    base does to a list, the round trip of `invert`, the soundness of
    `merge`, and the inputs on which the code as written goes wrong. */
module TransformerProperties {
  import opened Values
  import opened Paths
  import opened Operation
  import opened JsonDocument
  import opened OperationConsume
  import opened Transformer

  // ---------------------------------------------------------------------
  // Noop-equivalent components
  // ---------------------------------------------------------------------

  /** What makes `is_equivalent_to_noop` safe to skip: a component it
      accepts never changes a value. A Noop always fails to apply, and a
      Replace whose new and old values agree either fails or leaves the
      value exactly as it was, at any depth. */
  lemma NoopEquivalentChangesNothing(v: Json, p: Path, op: Operator)
    requires IsEquivalentToNoop(op)
    ensures op.Noop? ==> ApplyValue(v, p, op).Err?
    ensures ApplyValue(v, p, op).Ok? ==> ApplyValue(v, p, op).value == v
  {
    if |p| > 1 {
      ApplyAtParent(v, p, op);
      var parent := RouteGetMut(v, p[..|p| - 1]);
      if parent.Ok? && parent.value.Some? {
        var t := parent.value.value;
        LocalNoopEquivalent(t, p[|p| - 1], op);
        PutBack(v, p[..|p| - 1]);
      }
    } else if |p| == 1 {
      LocalNoopEquivalent(v, p[0], op);
    }
  }

  lemma LocalNoopEquivalent(t: Json, e: PathElement, op: Operator)
    requires IsEquivalentToNoop(op)
    ensures op.Noop? ==> ApplyValue(t, [e], op).Err?
    ensures ApplyValue(t, [e], op).Ok? ==> ApplyValue(t, [e], op).value == t
  {
    match t
    case Obj(m) =>
      if e.Key? && e.k in m && op.ObjectReplace? && m[e.k] == op.oldValue {
        assert m[e.k := op.newValue] == m;
      }
    case _ =>
  }

  // ---------------------------------------------------------------------
  // transform_component: the cases that leave the component alone
  // ---------------------------------------------------------------------

  /** The three early exits: paths with no common prefix, a noop-equivalent
      side, and paths that part below both operate paths (the paths without
      their last elements) all leave the new component as it is. */
  lemma TransformUnrelated(c: Component, base: Component, side: Side, reading: Reading)
    ensures MaxCommonPath(base.path, c.path) == [] && (reading == AsWritten || !TopLevelSiblings(c, base)) ==>
      TransformComponentIn(c, base, side, reading) == Ok([c])
    ensures IsEquivalentToNoop(c.operator) || IsEquivalentToNoop(base.operator) ==>
      TransformComponentIn(c, base, side, reading) == Ok([c])
    ensures var common := MaxCommonPath(base.path, c.path);
      |common| + 1 < |c.path| && |common| + 1 < |base.path| ==> TransformComponentIn(c, base, side, reading) == Ok([c])
  {
  }

  /** A base deeper than the new component. As written it never changes the
      component: where the new path is a prefix of the base's, `consume` is
      called but has nothing to do, so a Delete or Replace keeps an old value
      the base has since edited. Corrected, exactly such a Delete or Replace
      (not equivalent to a no-op, against a base that is not either) is
      folded: it comes back as `FoldBelow` of it, and fails where that
      does; every other component is returned unchanged. */
  lemma TransformDeeperBase(c: Component, base: Component, side: Side, reading: Reading)
    requires |base.path| > |c.path|
    ensures reading == AsWritten ==> TransformComponentIn(c, base, side, reading) == Ok([c])
    ensures var folds := c.path != [] && IsPrefixOf(c.path, base.path) && HasOldValue(c.operator)
                         && !IsEquivalentToNoop(c.operator) && !IsEquivalentToNoop(base.operator);
      && (reading == Corrected && !folds ==> TransformComponentIn(c, base, side, reading) == Ok([c]))
      && (reading == Corrected && folds ==>
            && (TransformComponentIn(c, base, side, reading).Ok? <==> FoldBelow(c, base).Ok?)
            && (FoldBelow(c, base).Ok? ==> TransformComponentIn(c, base, side, reading) == Ok([FoldBelow(c, base).value]))
            && (FoldBelow(c, base).Err? ==> TransformComponentIn(c, base, side, reading) == Err(FoldBelow(c, base).error)))
  {
    var common := MaxCommonPath(base.path, c.path);
    if IsPrefixOf(c.path, base.path) {
      assert base.path[..|c.path|] == c.path;
      CommonPathCovers(base.path, c.path, |c.path|);
      assert common == c.path;
      if reading == AsWritten {
        ConsumeInertInTransform(c, base);
      }
    }
  }

  // ---------------------------------------------------------------------
  // transform_component against list bases
  // ---------------------------------------------------------------------

  lemma CommonPathOfSame(p: Path)
    ensures MaxCommonPath(p, p) == p
  {
  }

  /** Two ListInserts at the same place: LEFT keeps its index and RIGHT
      moves one up, so LEFT's value ends up first. */
  lemma InsertAgainstInsert(c: Component, base: Component, side: Side, reading: Reading)
    requires c.path == base.path && c.path != []
    requires c.operator.ListInsert? && base.operator.ListInsert?
    ensures side == Left ==> TransformComponentIn(c, base, side, reading) == Ok([c])
    ensures side == Right ==>
      TransformComponentIn(c, base, side, reading) == Ok([Component(IncreaseIndexAt(c.path, |c.path| - 1), c.operator)])
  {
    CommonPathOfSame(c.path);
  }

  /** Paths that agree on their first `n` elements have a common prefix at
      least that long. */
  lemma CommonPathCovers(a: Path, b: Path, n: nat)
    requires n <= |a| && n <= |b| && a[..n] == b[..n]
    ensures |MaxCommonPath(a, b)| >= n
  {
    forall j | 0 <= j < n
      ensures a[j] == b[j]
    {
      assert a[j] == a[..n][j] && b[j] == b[..n][j];
    }
  }

  /** Shifting, lowering or replacing the element right after `q`. */
  lemma EditAfter(q: Path, p: nat, rest: Path, e: PathElement)
    ensures IncreaseIndexAt(q + [Index(p)] + rest, |q|) == q + [Index(p + 1)] + rest
    ensures p > 0 ==> DecreaseIndexAt(q + [Index(p)] + rest, |q|) == q + [Index(p - 1)] + rest
    ensures ReplaceAt(q + [Index(p)] + rest, |q|, e).0 == q + [e] + rest
  {
    var path := q + [Index(p)] + rest;
    assert path[|q|] == Index(p);
    var up := IncreaseIndexAt(path, |q|);
    assert forall j :: 0 <= j < |path| ==> up[j] == (q + [Index(p + 1)] + rest)[j];
    if p > 0 {
      var down := DecreaseIndexAt(path, |q|);
      assert forall j :: 0 <= j < |path| ==> down[j] == (q + [Index(p - 1)] + rest)[j];
    }
    var put := ReplaceAt(path, |q|, e).0;
    assert forall j :: 0 <= j < |path| ==> put[j] == (q + [e] + rest)[j];
  }

  /** Where the element at index `p` of a list is after a ListInsert at
      index `i`. */
  function ShiftForInsert(i: nat, p: nat): nat {
    if i <= p then p + 1 else p
  }

  /** Where the element at index `p` of a list is after the element at
      index `i` (another one) is deleted. */
  function ShiftForDelete(i: nat, p: nat): nat
    requires p != i
  {
    if i < p then p - 1 else p
  }

  /** Where the element at index `p` of a list is after the element at
      `from` is moved to `to`. */
  function MoveIndex(from: nat, to: nat, p: nat): nat {
    if p == from then to
    else
      var q := if from < p then p - 1 else p;
      if to <= q then q + 1 else q
  }

  /** A ListInsert leaves every old element in place, one up from the
      insertion point on. */
  lemma InsertTracksElements(a: seq<Json>, i: nat, x: Json, p: nat)
    requires p < |a|
    ensures var r := ApplyList(a, [Index(i)], ListInsert(x));
      r.Ok? && ShiftForInsert(i, p) < |r.value| && r.value[ShiftForInsert(i, p)] == a[p]
  {
  }

  /** A ListDelete that matches leaves every other element in place, one
      down after the deleted one. */
  lemma DeleteTracksElements(a: seq<Json>, i: nat, p: nat)
    requires i < |a| && p < |a| && p != i
    ensures var r := ApplyList(a, [Index(i)], ListDelete(a[i]));
      r.Ok? && ShiftForDelete(i, p) < |r.value| && r.value[ShiftForDelete(i, p)] == a[p]
  {
  }

  /** A ListMove carries every element to `MoveIndex`: the moved one to the
      target, the others past the gap it leaves and the place it takes. */
  lemma MoveTracksElements(a: seq<Json>, from: nat, to: nat, p: nat)
    requires from < |a| && to < |a| && p < |a|
    ensures var r := ApplyList(a, [Index(from)], ListMove(to));
      r.Ok? && MoveIndex(from, to, p) < |r.value| && r.value[MoveIndex(from, to, p)] == a[p]
  {
    if from != to {
      var removed := RemoveAt(a, from);
      var r := InsertAt(removed, to, a[from]);
      if p != from {
        var q := if from < p then p - 1 else p;
        assert removed[q] == a[p];
      }
    }
  }

  /** A component at or below an element of the list a ListInsert,
      ListDelete or ListMove base acts on reaches that base's case of the
      table. */
  lemma ReachesListCase(c: Component, base: Component, side: Side, q: Path, i: nat, p: nat, rest: Path)
    requires base.path == q + [Index(i)] && c.path == q + [Index(p)] + rest
    requires !IsEquivalentToNoop(c.operator)
    requires base.operator.ListInsert? || base.operator.ListDelete? || base.operator.ListMove?
    ensures Rebasable(c, base)
    ensures base.operator.ListInsert? ==> TransformComponent(c, base, side) == AgainstListInsert(c, base, side, Corrected)
    ensures base.operator.ListDelete? ==> TransformComponent(c, base, side) == AgainstListDelete(c, base, Corrected)
    ensures base.operator.ListMove? ==> TransformComponent(c, base, side) == AgainstListMove(c, base, side, base.operator.to, Corrected)
  {
    SiblingPaths(c, base, q, i, p, rest);
    if base.operator.ListInsert? {
    } else if base.operator.ListDelete? {
    } else {
    }
  }

  /** Paths into the same list share at least the list's own path. */
  lemma SiblingPaths(c: Component, base: Component, q: Path, i: nat, p: nat, rest: Path)
    requires base.path == q + [Index(i)] && c.path == q + [Index(p)] + rest
    ensures Rebasable(c, base)
    ensures |MaxCommonPath(base.path, c.path)| >= |q|
    ensures MaxCommonPath(base.path, c.path) != [] || TopLevelSiblings(c, base)
  {
    assert base.path[..|q|] == q && c.path[..|q|] == q;
    CommonPathCovers(base.path, c.path, |q|);
  }

  /** Against a ListInsert in the same list, a component at or below an
      index at or after the insertion point moves one up, so that it still
      addresses the element it did (`InsertTracksElements`); a ListMove in
      that list whose target is at or after the insertion point aims one
      further. */
  lemma InsertShiftsLaterPositions(c: Component, base: Component, side: Side, q: Path, i: nat, p: nat, rest: Path)
    requires base.path == q + [Index(i)] && c.path == q + [Index(p)] + rest
    requires base.operator.ListInsert? && !IsEquivalentToNoop(c.operator)
    requires !(c.operator.ListInsert? && rest == [] && i == p)
    ensures TransformComponent(c, base, side) ==
      Ok([Component(q + [Index(ShiftForInsert(i, p))] + rest,
                    if c.operator.ListMove? && rest == [] && i <= c.operator.to then ListMove(c.operator.to + 1) else c.operator)])
  {
    ReachesListCase(c, base, side, q, i, p, rest);
    InsertShiftsLaterPositionsLocal(c, base, side, q, i, p, rest);
  }

  lemma InsertShiftsLaterPositionsLocal(c: Component, base: Component, side: Side, q: Path, i: nat, p: nat, rest: Path)
    requires base.path == q + [Index(i)] && c.path == q + [Index(p)] + rest
    requires !(c.operator.ListInsert? && rest == [] && i == p)
    ensures Rebasable(c, base)
    ensures AgainstListInsert(c, base, side, Corrected) ==
      Ok([Component(q + [Index(ShiftForInsert(i, p))] + rest,
                    if c.operator.ListMove? && rest == [] && i <= c.operator.to then ListMove(c.operator.to + 1) else c.operator)])
  {
    EditAfter(q, p, rest, Index(0));
    assert Last(base.path) == Index(i) && c.path[|q|] == Index(p);
    if c.operator.ListInsert? && rest == [] {
      assert !IsPrefixOf(base.path, c.path) by {
        assert c.path[|q|] != base.path[|q|];
      }
    }
  }

  /** Against a ListDelete in the same list, a component at or below another
      index moves one down when it was after the deleted element, so that it
      still addresses the element it did (`DeleteTracksElements`). */
  lemma DeleteShiftsLaterPositions(c: Component, base: Component, side: Side, q: Path, i: nat, p: nat, rest: Path)
    requires base.path == q + [Index(i)] && c.path == q + [Index(p)] + rest && p != i
    requires base.operator.ListDelete? && !IsEquivalentToNoop(c.operator)
    requires !(c.operator.ListMove? && rest == [])
    ensures TransformComponent(c, base, side) == Ok([Component(q + [Index(ShiftForDelete(i, p))] + rest, c.operator)])
  {
    ReachesListCase(c, base, side, q, i, p, rest);
    DeleteShiftsLaterPositionsLocal(c, base, q, i, p, rest);
  }

  lemma DeleteShiftsLaterPositionsLocal(c: Component, base: Component, q: Path, i: nat, p: nat, rest: Path)
    requires base.path == q + [Index(i)] && c.path == q + [Index(p)] + rest && p != i
    requires !(c.operator.ListMove? && rest == [])
    ensures Rebasable(c, base)
    ensures AgainstListDelete(c, base, Corrected) == Ok([Component(q + [Index(ShiftForDelete(i, p))] + rest, c.operator)])
  {
    EditAfter(q, p, rest, Index(0));
    assert base.path[|q|] == Index(i) && c.path[|q|] == Index(p);
    assert Get(base.path, |q|) == Some(Index(i));
    assert !IsPrefixOf(base.path, c.path) by {
      assert c.path[|q|] != base.path[|q|];
    }
  }

  /** A component on the very element a concurrent ListDelete removed: a
      ListDelete or ListMove of it is dropped, and a ListReplace of it
      becomes a ListInsert of its new value. */
  lemma DeleteOfSameElement(c: Component, base: Component, side: Side, reading: Reading)
    requires c.path == base.path && c.path != []
    requires base.operator.ListDelete? && !IsEquivalentToNoop(c.operator)
    ensures c.operator.ListDelete? || c.operator.ListMove? ==> TransformComponentIn(c, base, side, reading) == Ok([])
    ensures c.operator.ListReplace? ==>
      TransformComponentIn(c, base, side, reading) == Ok([Component(c.path, ListInsert(c.operator.newValue))])
  {
    CommonPathOfSame(c.path);
    assert IsPrefixOf(base.path, c.path);
    var e := c.path[|c.path| - 1];
    ElemLtStrictTotalOrder(e, e, e);
  }

  /** A component strictly below the element a concurrent ListDelete removed
      is dropped. */
  lemma DeleteBelowDeletedElement(c: Component, base: Component, side: Side, q: Path, i: nat, rest: Path)
    requires base.path == q + [Index(i)] && c.path == q + [Index(i)] + rest && rest != []
    requires base.operator.ListDelete? && !IsEquivalentToNoop(c.operator)
    ensures TransformComponent(c, base, side) == Ok([])
  {
    ReachesListCase(c, base, side, q, i, i, rest);
    DeleteBelowDeletedElementLocal(c, base, q, i, rest);
  }

  lemma DeleteBelowDeletedElementLocal(c: Component, base: Component, q: Path, i: nat, rest: Path)
    requires base.path == q + [Index(i)] && c.path == q + [Index(i)] + rest && rest != []
    ensures Rebasable(c, base)
    ensures AgainstListDelete(c, base, Corrected) == Ok([])
  {
    assert c.path[..|base.path|] == base.path;
    assert base.path[|q|] == Index(i) && c.path[|q|] == Index(i);
    assert Get(base.path, |q|) == Some(Index(i));
  }

  /** The same inputs in the code as written: the base is read at the new
      component's last position, where a shorter base path has no element,
      and the `unwrap` panics. */
  lemma DeleteBelowDeletedElementAsWritten(c: Component, base: Component, side: Side, q: Path, i: nat, rest: Path)
    requires base.path == q + [Index(i)] && c.path == q + [Index(i)] + rest && rest != []
    requires base.operator.ListDelete? && !IsEquivalentToNoop(c.operator)
    ensures TransformComponentAsWritten(c, base, side) == Err(Panic)
  {
    assert c.path[..|base.path|] == base.path;
    CommonPathCovers(base.path, c.path, |base.path|);
  }

  /** Against a ListMove in the same list, a component at or below an index
      follows its element to `MoveIndex` (`MoveTracksElements`), except for
      a ListMove or ListInsert in that list itself, which have rules of
      their own. */
  lemma MoveCarriesPositions(c: Component, base: Component, side: Side, q: Path, from: nat, lm: nat, p: nat, rest: Path)
    requires base.path == q + [Index(from)] && c.path == q + [Index(p)] + rest
    requires base.operator == ListMove(lm) && !IsEquivalentToNoop(c.operator)
    requires !(rest == [] && (c.operator.ListMove? || c.operator.ListInsert?))
    ensures TransformComponent(c, base, side) == Ok([Component(q + [Index(MoveIndex(from, lm, p))] + rest, c.operator)])
  {
    ReachesListCase(c, base, side, q, from, p, rest);
    MoveCarriesPositionsLocal(c, base, side, q, from, lm, p, rest);
  }

  lemma MoveCarriesPositionsLocal(c: Component, base: Component, side: Side, q: Path, from: nat, lm: nat, p: nat, rest: Path)
    requires base.path == q + [Index(from)] && c.path == q + [Index(p)] + rest
    requires !(rest == [] && (c.operator.ListMove? || c.operator.ListInsert?))
    ensures Rebasable(c, base)
    ensures AgainstListMove(c, base, side, lm, Corrected) == Ok([Component(q + [Index(MoveIndex(from, lm, p))] + rest, c.operator)])
  {
    assert base.path[|q|] == Index(from) && c.path[|q|] == Index(p);
    assert Get(base.path, |q|) == Some(Index(from));
    if p == from {
      EditAfter(q, p, rest, Index(lm));
    } else {
      var p1 := if from < p then p - 1 else p;
      EditAfter(q, p, rest, Index(lm));
      EditAfter(q, p1, rest, Index(lm));
    }
  }

  /** The same inputs in the code as written, for a component strictly
      below an element of the moved list: the base is read at the new
      component's last position, past the base's end, and the `unwrap`
      panics. */
  lemma MoveBelowAsWrittenPanics(c: Component, base: Component, side: Side, q: Path, from: nat, lm: nat, p: nat, rest: Path)
    requires base.path == q + [Index(from)] && c.path == q + [Index(p)] + rest && rest != []
    requires q != [] || p == from
    requires base.operator == ListMove(lm) && !IsEquivalentToNoop(c.operator)
    ensures TransformComponentAsWritten(c, base, side) == Err(Panic)
  {
    if p == from {
      assert c.path[..|base.path|] == base.path;
      CommonPathCovers(base.path, c.path, |base.path|);
    } else {
      SiblingPaths(c, base, q, from, p, rest);
    }
  }

  /** Against a ListMove in the same list, a ListInsert at a point that is
      neither the moved element's old index nor its target goes in front of
      the element it went in front of, wherever the move carried that
      element (`MoveTracksElements`); an insert at the list's end stays at
      the end. */
  lemma InsertFollowsMove(c: Component, base: Component, side: Side, q: Path, from: nat, lm: nat, p: nat)
    requires base.path == q + [Index(from)] && c.path == q + [Index(p)]
    requires base.operator == ListMove(lm) && c.operator.ListInsert?
    requires p != from && p != lm
    ensures TransformComponent(c, base, side) == Ok([Component(q + [Index(MoveIndex(from, lm, p))], c.operator)])
  {
    assert c.path == q + [Index(p)] + [];
    ReachesListCase(c, base, side, q, from, p, []);
    InsertFollowsMoveLocal(c, base, side, q, from, lm, p);
  }

  lemma InsertFollowsMoveLocal(c: Component, base: Component, side: Side, q: Path, from: nat, lm: nat, p: nat)
    requires base.path == q + [Index(from)] && c.path == q + [Index(p)]
    requires c.operator.ListInsert? && p != from && p != lm
    ensures Rebasable(c, base)
    ensures AgainstListMove(c, base, side, lm, Corrected) == Ok([Component(q + [Index(MoveIndex(from, lm, p))], c.operator)])
  {
    assert c.path == q + [Index(p)] + [];
    assert base.path[|q|] == Index(from) && c.path[|q|] == Index(p);
    assert MoveTarget(base.path, lm, Corrected) == Ok(Index(lm));
    EditAfter(q, p, [], Index(lm));
    var path1 := if from < p then q + [Index(p - 1)] else c.path;
    if from < p {
      EditAfter(q, p - 1, [], Index(lm));
      assert q + [Index(p - 1)] + [] == q + [Index(p - 1)];
      assert DecreaseIndexAt(c.path, |q|) == path1;
      assert IncreaseIndexAt(path1, |q|) == q + [Index(p)];
    } else {
      assert IncreaseIndexAt(path1, |q|) == q + [Index(p + 1)] + [];
      assert q + [Index(p + 1)] + [] == q + [Index(p + 1)];
    }
  }

  /** The two orders of a ListInsert and a ListMove of the same list agree
      when the insertion point is neither the moved element's old index nor
      its target: moving first and then inserting as `InsertFollowsMove`
      rewrites the insert gives the list that inserting first and then
      moving as `InsertShiftsLaterPositions` rewrites the move gives. */
  lemma InsertAndMoveConverge(a: seq<Json>, from: nat, lm: nat, p: nat, x: Json)
    requires from < |a| && lm < |a| && p <= |a| && p != from && p != lm
    ensures var moved := ApplyList(a, [Index(from)], ListMove(lm));
      var inserted := ApplyList(a, [Index(p)], ListInsert(x));
      && moved.Ok? && inserted.Ok?
      && ApplyList(moved.value, [Index(MoveIndex(from, lm, p))], ListInsert(x))
         == ApplyList(inserted.value, [Index(ShiftForInsert(p, from))], ListMove(if p <= lm then lm + 1 else lm))
  {
    var r := RemoveAt(a, from);
    var p' := if from < p then p - 1 else p;
    var ins := InsertAt(a, p, x);
    var moved := InsertAt(r, lm, a[from]);
    MoveValue(a, from, lm);
    InsertIntoList(a, p, x);
    assert ins[ShiftForInsert(p, from)] == a[from];
    MoveValue(ins, ShiftForInsert(p, from), if p <= lm then lm + 1 else lm);
    InsertIntoList(moved, MoveIndex(from, lm, p), x);
    RemoveAfterInsertOf(a, p, x, from);
    if p' < lm {
      InsertAtSwap(r, p', lm, a[from], x);
    } else {
      InsertAtSwap(r, lm, p', x, a[from]);
    }
  }

  /** Removing an element after an insertion elsewhere is inserting after
      the removal. */
  lemma RemoveAfterInsertOf(a: seq<Json>, p: nat, x: Json, from: nat)
    requires from < |a| && p <= |a| && p != from
    ensures RemoveAt(InsertAt(a, p, x), ShiftForInsert(p, from)) == InsertAt(RemoveAt(a, from), if from < p then p - 1 else p, x)
  {
    var l := RemoveAt(InsertAt(a, p, x), ShiftForInsert(p, from));
    var m := InsertAt(RemoveAt(a, from), if from < p then p - 1 else p, x);
    assert forall k :: 0 <= k < |l| ==> l[k] == m[k];
  }

  /** Where the target `to` of a ListMove of the element at `p` is once the
      element at `i` (another one) is deleted: one down when the deleted
      element came before the target, counting the target itself when the
      move was forward. */
  function TargetAfterDelete(i: nat, p: nat, to: nat): nat {
    if i < to || (i == to && p < to) then to - 1 else to
  }

  /** Against a ListDelete of another element of the same list, a ListMove
      follows its element (`ShiftForDelete`) and aims at `TargetAfterDelete`. */
  lemma DeleteRetargetsMove(c: Component, base: Component, side: Side, q: Path, i: nat, p: nat, to: nat)
    requires base.path == q + [Index(i)] && c.path == q + [Index(p)] && p != i
    requires base.operator.ListDelete? && c.operator == ListMove(to)
    ensures TransformComponent(c, base, side) ==
      Ok([Component(q + [Index(ShiftForDelete(i, p))], ListMove(TargetAfterDelete(i, p, to)))])
  {
    assert c.path == q + [Index(p)] + [];
    ReachesListCase(c, base, side, q, i, p, []);
    DeleteRetargetsMoveLocal(c, base, q, i, p, to);
  }

  lemma DeleteRetargetsMoveLocal(c: Component, base: Component, q: Path, i: nat, p: nat, to: nat)
    requires base.path == q + [Index(i)] && c.path == q + [Index(p)] && p != i && c.operator == ListMove(to)
    ensures Rebasable(c, base)
    ensures AgainstListDelete(c, base, Corrected) ==
      Ok([Component(q + [Index(ShiftForDelete(i, p))], ListMove(TargetAfterDelete(i, p, to)))])
  {
    assert c.path == q + [Index(p)] + [];
    EditAfter(q, p, [], Index(0));
    assert base.path[|q|] == Index(i) && c.path[|q|] == Index(p);
    assert Get(base.path, |q|) == Some(Index(i));
    assert !IsPrefixOf(base.path, c.path) by {
      assert c.path[|q|] != base.path[|q|];
    }
    if i < p {
      assert q + [Index(p - 1)] + [] == q + [Index(p - 1)];
    }
  }

  /** The two orders of a ListMove and a ListDelete of another element of the
      same list agree: deleting first and then making the move as
      `DeleteRetargetsMove` rewrites it gives the list that moving first and
      then deleting the element where the move carried it
      (`MoveTracksElements`) gives. */
  lemma MoveAndDeleteConverge(a: seq<Json>, i: nat, p: nat, to: nat)
    requires i < |a| && p < |a| && to < |a| && p != i
    ensures var moved := ApplyList(a, [Index(p)], ListMove(to));
      var deleted := ApplyList(a, [Index(i)], ListDelete(a[i]));
      && moved.Ok? && deleted.Ok? && MoveIndex(p, to, i) < |moved.value|
      && ApplyList(deleted.value, [Index(ShiftForDelete(i, p))], ListMove(TargetAfterDelete(i, p, to)))
         == ApplyList(moved.value, [Index(MoveIndex(p, to, i))], ListDelete(a[i]))
  {
    MoveTracksElements(a, p, to, i);
    var d := RemoveAt(a, i);
    var i' := if p < i then i - 1 else i;
    var r := RemoveAt(a, p);
    var moved := InsertAt(r, to, a[p]);
    DeleteFromList(a, i);
    assert d[ShiftForDelete(i, p)] == a[p];
    assert TargetAfterDelete(i, p, to) < |d|;
    MoveValue(a, p, to);
    MoveValue(d, ShiftForDelete(i, p), TargetAfterDelete(i, p, to));
    RemoveBothOrders(a, i, p);
    RemoveAfterInsert(r, to, a[p], i');
    assert r[i'] == a[i];
    DeleteFromList(moved, MoveIndex(p, to, i));
  }

  /** A ListInsert at an index within a list. */
  lemma InsertIntoList(a: seq<Json>, k: nat, x: Json)
    requires k <= |a|
    ensures ApplyList(a, [Index(k)], ListInsert(x)) == Ok(InsertAt(a, k, x))
  {
  }

  /** A ListDelete of the element that is there. */
  lemma DeleteFromList(a: seq<Json>, k: nat)
    requires k < |a|
    ensures ApplyList(a, [Index(k)], ListDelete(a[k])) == Ok(RemoveAt(a, k))
  {
  }

  /** A ListMove inside a list, the identity move included, is a removal
      followed by an insertion. */
  lemma MoveValue(a: seq<Json>, p: nat, to: nat)
    requires p < |a| && to < |a|
    ensures ApplyList(a, [Index(p)], ListMove(to)) == Ok(InsertAt(RemoveAt(a, p), to, a[p]))
  {
    if p == to {
      var l := InsertAt(RemoveAt(a, p), to, a[p]);
      assert forall k :: 0 <= k < |a| ==> l[k] == a[k];
      assert l == a;
    }
  }

  /** Removing two elements of a list in either order. */
  lemma RemoveBothOrders(a: seq<Json>, i: nat, p: nat)
    requires i < |a| && p < |a| && p != i
    ensures RemoveAt(RemoveAt(a, i), ShiftForDelete(i, p)) == RemoveAt(RemoveAt(a, p), if p < i then i - 1 else i)
  {
    var l := RemoveAt(RemoveAt(a, i), ShiftForDelete(i, p));
    var r := RemoveAt(RemoveAt(a, p), if p < i then i - 1 else i);
    assert forall k :: 0 <= k < |l| ==> l[k] == r[k];
  }

  /** Removing an element of a list after inserting one elsewhere is
      inserting it after the removal. */
  lemma RemoveAfterInsert(r: seq<Json>, to: nat, x: Json, i: nat)
    requires to <= |r| && i < |r|
    ensures RemoveAt(InsertAt(r, to, x), if to <= i then i + 1 else i) ==
      InsertAt(RemoveAt(r, i), if i < to then to - 1 else to, x)
  {
    var l := RemoveAt(InsertAt(r, to, x), if to <= i then i + 1 else i);
    var m := InsertAt(RemoveAt(r, i), if i < to then to - 1 else to, x);
    assert forall k :: 0 <= k < |l| ==> l[k] == m[k];
  }

  // ---------------------------------------------------------------------
  // transform_component against object bases
  // ---------------------------------------------------------------------

  /** Two concurrent writes (Insert or Replace) of the same key: against a
      base Replace or Insert the RIGHT write is dropped and the LEFT one
      becomes a Replace of the base's value, so LEFT wins; against a base
      ObjectDelete the LEFT write comes back as an Insert and the RIGHT one
      is dropped. */
  lemma WritesToSameKey(c: Component, base: Component, side: Side, reading: Reading)
    requires c.path == base.path && c.path != []
    requires c.operator.ObjectInsert? || c.operator.ObjectReplace?
    requires !IsEquivalentToNoop(c.operator) && !IsEquivalentToNoop(base.operator)
    ensures base.operator.ObjectReplace? ==> (TransformComponentIn(c, base, side, reading) ==
      if side == Right then Ok([]) else Ok([Component(c.path, ObjectReplace(WrittenValue(c.operator), base.operator.newValue))]))
    ensures base.operator.ObjectInsert? ==> (TransformComponentIn(c, base, side, reading) ==
      if side == Right then Ok([]) else Ok([Component(c.path, ObjectReplace(WrittenValue(c.operator), base.operator.value))]))
    ensures base.operator.ObjectDelete? ==> (TransformComponentIn(c, base, side, reading) ==
      if side == Right then Ok([]) else Ok([Component(c.path, ObjectInsert(WrittenValue(c.operator)))]))
  {
    CommonPathOfSame(c.path);
  }

  /** An ObjectDelete of a key that a concurrent component also edits: it is
      dropped against another delete and (in the code as written) against a
      Replace; in the corrected reading a LEFT delete against a Replace
      deletes the replacing value; against an Insert only the RIGHT one is
      dropped. */
  lemma DeleteOfSameKey(c: Component, base: Component, side: Side, reading: Reading)
    requires c.path == base.path && c.path != []
    requires c.operator.ObjectDelete? && !IsEquivalentToNoop(base.operator)
    ensures base.operator.ObjectDelete? ==> TransformComponentIn(c, base, side, reading) == Ok([])
    ensures base.operator.ObjectReplace? ==> (TransformComponentIn(c, base, side, reading) ==
      if side == Left && reading == Corrected then Ok([Component(c.path, ObjectDelete(base.operator.newValue))]) else Ok([]))
    ensures base.operator.ObjectInsert? ==> (TransformComponentIn(c, base, side, reading) ==
      if side == Right then Ok([]) else Ok([c]))
  {
    CommonPathOfSame(c.path);
  }

  /** Below a key that a concurrent component replaces or deletes, the new
      component is dropped. */
  lemma BelowReplacedOrDeletedKey(c: Component, base: Component, side: Side, reading: Reading, rest: Path)
    requires base.path != [] && rest != [] && c.path == base.path + rest
    requires base.operator.ObjectDelete? || (base.operator.ObjectReplace? && !IsEquivalentToNoop(base.operator))
    requires !IsEquivalentToNoop(c.operator)
    ensures TransformComponentIn(c, base, side, reading) == Ok([])
  {
    assert c.path[..|base.path|] == base.path;
    CommonPathCovers(base.path, c.path, |base.path|);
  }

  /** Below a key that a concurrent ObjectInsert fills: a LEFT write first
      deletes the inserted value and then writes, a RIGHT write or delete is
      dropped. */
  lemma BelowInsertedKey(c: Component, base: Component, side: Side, reading: Reading, rest: Path)
    requires base.path != [] && rest != [] && c.path == base.path + rest
    requires base.operator.ObjectInsert? && !IsEquivalentToNoop(c.operator)
    ensures c.operator.ObjectInsert? || c.operator.ObjectReplace? ==> (TransformComponentIn(c, base, side, reading) ==
      if side == Left then Ok([Component(base.path, ObjectDelete(base.operator.value)), c]) else Ok([]))
    ensures c.operator.ObjectDelete? ==> (TransformComponentIn(c, base, side, reading) ==
      if side == Left then Ok([c]) else Ok([]))
  {
    assert c.path[..|base.path|] == base.path;
    CommonPathCovers(base.path, c.path, |base.path|);
  }

  // ---------------------------------------------------------------------
  // Convergence of two concurrent components
  // ---------------------------------------------------------------------

  /** Two sites start from `v`. One applies `base` and then `c` rebased over
      it on the LEFT, the other applies `c` and then `base` rebased over it
      on the RIGHT; both succeed and reach the same value. */
  predicate ConvergeIn(v: Json, c: Component, base: Component, reading: Reading) {
    var c' := TransformComponentIn(c, base, Left, reading);
    var b' := TransformComponentIn(base, c, Right, reading);
    c'.Ok? && b'.Ok?
    && Run(v, [base] + c'.value).1.Ok? && Run(v, [c] + b'.value).1.Ok?
    && Run(v, [base] + c'.value).0 == Run(v, [c] + b'.value).0
  }

  /** Two writes of the same key of an object converge on the LEFT one's
      value. */
  lemma KeyWritesConverge(m: map<string, Json>, k: string, a: Operator, b: Operator)
    requires a.ObjectInsert? || (a.ObjectReplace? && k in m && a.oldValue == m[k] && a.newValue != m[k])
    requires b.ObjectInsert? || (b.ObjectReplace? && k in m && b.oldValue == m[k] && b.newValue != m[k])
    ensures ConvergeIn(Obj(m), Component([Key(k)], a), Component([Key(k)], b), Corrected)
    ensures Run(Obj(m), [Component([Key(k)], a)]).0 == Obj(m[k := WrittenValue(a)])
  {
    var c := Component([Key(k)], a);
    var base := Component([Key(k)], b);
    WritesToSameKey(c, base, Left, Corrected);
    WritesToSameKey(base, c, Right, Corrected);
    var x := WrittenValue(a);
    var y := WrittenValue(b);
    var c' := Component([Key(k)], ObjectReplace(x, y));
    assert ApplyValue(Obj(m), [Key(k)], b) == Ok(Obj(m[k := y]));
    assert ApplyValue(Obj(m[k := y]), [Key(k)], c'.operator) == Ok(Obj(m[k := y][k := x]));
    assert m[k := y][k := x] == m[k := x];
    assert ApplyValue(Obj(m), [Key(k)], a) == Ok(Obj(m[k := x]));
    RunTwo(Obj(m), base, c', Obj(m[k := y]), Obj(m[k := y][k := x]));
    RunOne(Obj(m), c, Obj(m[k := x]));
  }

  /** A write of a key against a delete of it: a LEFT write wins and the key
      holds its value; a LEFT delete wins and the key is gone (in the
      corrected reading). */
  lemma WriteAndDeleteConverge(m: map<string, Json>, k: string, x: Json)
    requires k in m && x != m[k]
    ensures var write := Component([Key(k)], ObjectReplace(x, m[k]));
      var delete := Component([Key(k)], ObjectDelete(m[k]));
      ConvergeIn(Obj(m), write, delete, Corrected) && Run(Obj(m), [write]).0 == Obj(m[k := x])
      && ConvergeIn(Obj(m), delete, write, Corrected) && Run(Obj(m), [delete]).0 == Obj(m - {k})
  {
    var write := Component([Key(k)], ObjectReplace(x, m[k]));
    var delete := Component([Key(k)], ObjectDelete(m[k]));
    WritesToSameKey(write, delete, Left, Corrected);
    DeleteOfSameKey(delete, write, Right, Corrected);
    DeleteOfSameKey(delete, write, Left, Corrected);
    WritesToSameKey(write, delete, Right, Corrected);
    assert ApplyValue(Obj(m), [Key(k)], write.operator) == Ok(Obj(m[k := x]));
    assert ApplyValue(Obj(m), [Key(k)], delete.operator) == Ok(Obj(m - {k}));
    assert ApplyValue(Obj(m - {k}), [Key(k)], ObjectInsert(x)) == Ok(Obj((m - {k})[k := x]));
    assert (m - {k})[k := x] == m[k := x];
    assert ApplyValue(Obj(m[k := x]), [Key(k)], ObjectDelete(x)) == Ok(Obj(m[k := x] - {k}));
    assert m[k := x] - {k} == m - {k};
    RunTwo(Obj(m), delete, Component([Key(k)], ObjectInsert(x)), Obj(m - {k}), Obj((m - {k})[k := x]));
    RunOne(Obj(m), write, Obj(m[k := x]));
    RunTwo(Obj(m), write, Component([Key(k)], ObjectDelete(x)), Obj(m[k := x]), Obj(m[k := x] - {k}));
    RunOne(Obj(m), delete, Obj(m - {k}));
  }

  /** The code as written on the same inputs: a LEFT delete against a
      RIGHT Replace is dropped on both sides, so one site keeps the
      replacing value and the other has no key. */
  lemma DeleteAgainstReplaceAsWrittenDiverges(m: map<string, Json>, k: string, x: Json)
    requires k in m && x != m[k]
    ensures !ConvergeIn(Obj(m), Component([Key(k)], ObjectDelete(m[k])), Component([Key(k)], ObjectReplace(x, m[k])), AsWritten)
  {
    var write := Component([Key(k)], ObjectReplace(x, m[k]));
    var delete := Component([Key(k)], ObjectDelete(m[k]));
    DeleteOfSameKey(delete, write, Left, AsWritten);
    WritesToSameKey(write, delete, Right, AsWritten);
    assert ApplyValue(Obj(m), [Key(k)], write.operator) == Ok(Obj(m[k := x]));
    assert ApplyValue(Obj(m), [Key(k)], delete.operator) == Ok(Obj(m - {k}));
    RunOne(Obj(m), write, Obj(m[k := x]));
    RunOne(Obj(m), delete, Obj(m - {k}));
    assert k in m[k := x] && k !in m - {k};
  }

  /** Running two components that both apply. */
  lemma RunTwo(v: Json, a: Component, b: Component, w1: Json, w2: Json)
    requires ApplyValue(v, a.path, a.operator) == Ok(w1) && ApplyValue(w1, b.path, b.operator) == Ok(w2)
    ensures Run(v, [a] + [b]) == (w2, Ok(()))
  {
    RunOne(v, a, w1);
    RunOne(w1, b, w2);
    RunSplit(v, [a], [b]);
  }

  /** Running one component that applies. */
  lemma RunOne(v: Json, a: Component, w1: Json)
    requires ApplyValue(v, a.path, a.operator) == Ok(w1)
    ensures Run(v, [a]) == (w1, Ok(())) && Run(v, [a] + []) == (w1, Ok(()))
  {
    assert [a][1..] == [];
    assert [a] + [] == [a];
  }

  /** Inserting at `j` after an insert at `i <= j` is inserting at `j` first
      and at `i` after. */
  lemma InsertAtSwap(a: seq<Json>, i: nat, j: nat, x: Json, y: Json)
    requires i <= j <= |a|
    ensures InsertAt(InsertAt(a, i, y), j + 1, x) == InsertAt(InsertAt(a, j, x), i, y)
  {
    var r := InsertAt(InsertAt(a, i, y), j + 1, x);
    var s := InsertAt(InsertAt(a, j, x), i, y);
    assert |r| == |s|;
    forall n | 0 <= n < |r|
      ensures r[n] == s[n]
    {
      if n < i {
      } else if n == i {
      } else if n <= j {
      } else if n == j + 1 {
      } else {
      }
    }
  }

  /** A ListInsert into a top-level list at an index within it. */
  lemma InsertApplies(l: seq<Json>, k: nat, x: Json)
    requires k <= |l|
    ensures ApplyValue(Arr(l), [Index(k)], ListInsert(x)) == Ok(Arr(InsertAt(l, k, x)))
  {
  }

  /** Two ListInserts into a top-level list converge, at any two
      positions. */
  lemma ListInsertsConverge(l: seq<Json>, i: nat, p: nat, x: Json, y: Json)
    requires i <= |l| && p <= |l|
    ensures ConvergeIn(Arr(l), Component([Index(p)], ListInsert(x)), Component([Index(i)], ListInsert(y)), Corrected)
  {
    if p == i {
      InsertsAtSamePlaceConverge(l, i, x, y);
    } else if p < i {
      InsertsBeforeConverge(l, i, p, x, y);
    } else {
      InsertsAfterConverge(l, i, p, x, y);
    }
  }

  lemma InsertsAtSamePlaceConverge(l: seq<Json>, i: nat, x: Json, y: Json)
    requires i <= |l|
    ensures ConvergeIn(Arr(l), Component([Index(i)], ListInsert(x)), Component([Index(i)], ListInsert(y)), Corrected)
  {
    var p := i;
    var c := Component([Index(p)], ListInsert(x));
    var base := Component([Index(i)], ListInsert(y));
    var site1 := InsertAt(l, i, y);
    var site2 := InsertAt(l, p, x);
    InsertApplies(l, i, y);
    InsertApplies(l, p, x);
    InsertAgainstInsert(c, base, Left, Corrected);
    InsertAgainstInsert(base, c, Right, Corrected);
    assert IncreaseIndexAt(base.path, 0) == [Index(i + 1)];
    InsertApplies(site1, p, x);
    InsertApplies(site2, i + 1, y);
    InsertAtSwap(l, p, i, y, x);
    RunTwo(Arr(l), base, c, Arr(site1), Arr(InsertAt(site1, p, x)));
    RunTwo(Arr(l), c, Component([Index(i + 1)], base.operator), Arr(site2), Arr(InsertAt(site2, i + 1, y)));
  }

  lemma InsertsBeforeConverge(l: seq<Json>, i: nat, p: nat, x: Json, y: Json)
    requires i <= |l| && p < i
    ensures ConvergeIn(Arr(l), Component([Index(p)], ListInsert(x)), Component([Index(i)], ListInsert(y)), Corrected)
  {
    var c := Component([Index(p)], ListInsert(x));
    var base := Component([Index(i)], ListInsert(y));
    var site1 := InsertAt(l, i, y);
    var site2 := InsertAt(l, p, x);
    InsertApplies(l, i, y);
    InsertApplies(l, p, x);
    InsertShiftsLaterPositions(c, base, Left, [], i, p, []);
    InsertShiftsLaterPositions(base, c, Right, [], p, i, []);
    assert [] + [Index(p)] + [] == [Index(p)] && [] + [Index(i + 1)] + [] == [Index(i + 1)];
    InsertApplies(site1, p, x);
    InsertApplies(site2, i + 1, y);
    InsertAtSwap(l, p, i, y, x);
    RunTwo(Arr(l), base, c, Arr(site1), Arr(InsertAt(site1, p, x)));
    RunTwo(Arr(l), c, Component([Index(i + 1)], base.operator), Arr(site2), Arr(InsertAt(site2, i + 1, y)));
  }

  lemma InsertsAfterConverge(l: seq<Json>, i: nat, p: nat, x: Json, y: Json)
    requires p <= |l| && i < p
    ensures ConvergeIn(Arr(l), Component([Index(p)], ListInsert(x)), Component([Index(i)], ListInsert(y)), Corrected)
  {
    var c := Component([Index(p)], ListInsert(x));
    var base := Component([Index(i)], ListInsert(y));
    var site1 := InsertAt(l, i, y);
    var site2 := InsertAt(l, p, x);
    InsertApplies(l, i, y);
    InsertApplies(l, p, x);
    InsertShiftsLaterPositions(c, base, Left, [], i, p, []);
    InsertShiftsLaterPositions(base, c, Right, [], p, i, []);
    assert [] + [Index(p + 1)] + [] == [Index(p + 1)] && [] + [Index(i)] + [] == [Index(i)];
    InsertApplies(site1, p + 1, x);
    InsertApplies(site2, i, y);
    InsertAtSwap(l, i, p, x, y);
    RunTwo(Arr(l), base, Component([Index(p + 1)], c.operator), Arr(site1), Arr(InsertAt(site1, p + 1, x)));
    RunTwo(Arr(l), c, base, Arr(site2), Arr(InsertAt(site2, i, y)));
  }

  /** The code as written on two inserts into a top-level list at different
      positions: neither is shifted, and the sites disagree. From ["X"], a
      LEFT insert of "B" at 1 against a RIGHT insert of "A" at 0 ends as
      ["A", "B", "X"] on one site and ["A", "X", "B"] on the other. */
  lemma TopLevelInsertsAsWrittenDiverge()
    ensures !ConvergeIn(Arr([Str("X")]), Component([Index(1)], ListInsert(Str("B"))), Component([Index(0)], ListInsert(Str("A"))), AsWritten)
  {
    var c := Component([Index(1)], ListInsert(Str("B")));
    var base := Component([Index(0)], ListInsert(Str("A")));
    assert MaxCommonPath(base.path, c.path) == [];
    assert MaxCommonPath(c.path, base.path) == [];
    assert TransformComponentIn(c, base, Left, AsWritten) == Ok([c]);
    assert TransformComponentIn(base, c, Right, AsWritten) == Ok([base]);
    TopLevelInsertRuns();
    var w1 := Arr([Str("A"), Str("B"), Str("X")]);
    var w2 := Arr([Str("A"), Str("X"), Str("B")]);
    ConvergeFrom(Arr([Str("X")]), c, base, AsWritten, [c], [base], w1, w2);
    assert w1.items[1] != w2.items[1];
  }

  /** The two sites of that example, each applying its own insert and then
      the other one unchanged. */
  lemma TopLevelInsertRuns()
    ensures var c := Component([Index(1)], ListInsert(Str("B")));
      var base := Component([Index(0)], ListInsert(Str("A")));
      && Run(Arr([Str("X")]), [base] + [c]) == (Arr([Str("A"), Str("B"), Str("X")]), Ok(()))
      && Run(Arr([Str("X")]), [c] + [base]) == (Arr([Str("A"), Str("X"), Str("B")]), Ok(()))
  {
    var c := Component([Index(1)], ListInsert(Str("B")));
    var base := Component([Index(0)], ListInsert(Str("A")));
    var l := [Str("X")];
    assert ApplyValue(Arr(l), base.path, base.operator) == Ok(Arr(InsertAt(l, 0, Str("A"))));
    assert InsertAt(l, 0, Str("A")) == [Str("A"), Str("X")];
    assert ApplyValue(Arr([Str("A"), Str("X")]), c.path, c.operator) == Ok(Arr(InsertAt([Str("A"), Str("X")], 1, Str("B"))));
    assert InsertAt([Str("A"), Str("X")], 1, Str("B")) == [Str("A"), Str("B"), Str("X")];
    assert ApplyValue(Arr(l), c.path, c.operator) == Ok(Arr(InsertAt(l, 1, Str("B"))));
    assert InsertAt(l, 1, Str("B")) == [Str("X"), Str("B")];
    assert ApplyValue(Arr([Str("X"), Str("B")]), base.path, base.operator) == Ok(Arr(InsertAt([Str("X"), Str("B")], 0, Str("A"))));
    assert InsertAt([Str("X"), Str("B")], 0, Str("A")) == [Str("A"), Str("X"), Str("B")];
    RunTwo(Arr(l), base, c, Arr([Str("A"), Str("X")]), Arr([Str("A"), Str("B"), Str("X")]));
    RunTwo(Arr(l), c, base, Arr([Str("X"), Str("B")]), Arr([Str("A"), Str("X"), Str("B")]));
  }

  // ---------------------------------------------------------------------
  // The findings in transform_component, on concrete documents
  // ---------------------------------------------------------------------

  /** Applying below an object key is applying to the key's value and
      storing the result under the key. */
  lemma ApplyUnderKey(m: map<string, Json>, k: string, rest: Path, op: Operator)
    requires k in m && rest != []
    ensures ApplyValue(Obj(m), [Key(k)] + rest, op) ==
      (var r := ApplyValue(m[k], rest, op); if r.Ok? then Ok(Obj(m[k := r.value])) else Err(r.error))
  {
    var p := [Key(k)] + rest;
    var n := |rest| - 1;
    assert p[..|rest|] == [Key(k)] + rest[..n] && p[|rest|..] == rest[n..];
    assert NextLevel([Key(k)] + rest[..n]) == rest[..n];
    if n > 0 {
      assert SplitAt(rest, n) == (rest[..n], rest[n..]);
    } else {
      assert rest == rest[n..];
    }
  }

  /** Applying below a list index is applying to that element and storing
      the result in its place. */
  lemma ApplyUnderIndex(s: seq<Json>, i: nat, rest: Path, op: Operator)
    requires i < |s| && rest != []
    ensures ApplyValue(Arr(s), [Index(i)] + rest, op) ==
      (var r := ApplyValue(s[i], rest, op); if r.Ok? then Ok(Arr(s[i := r.value])) else Err(r.error))
  {
    var p := [Index(i)] + rest;
    var n := |rest| - 1;
    assert p[..|rest|] == [Index(i)] + rest[..n] && p[|rest|..] == rest[n..];
    assert NextLevel([Index(i)] + rest[..n]) == rest[..n];
    if n > 0 {
      assert SplitAt(rest, n) == (rest[..n], rest[n..]);
    } else {
      assert rest == rest[n..];
    }
  }

  /** Convergence, given what the two rebasings give and where the two
      sites end. */
  lemma ConvergeFrom(v: Json, c: Component, base: Component, reading: Reading,
                     cs: seq<Component>, bs: seq<Component>, w1: Json, w2: Json)
    requires TransformComponentIn(c, base, Left, reading) == Ok(cs)
    requires TransformComponentIn(base, c, Right, reading) == Ok(bs)
    requires Run(v, [base] + cs) == (w1, Ok(())) && Run(v, [c] + bs) == (w2, Ok(()))
    ensures ConvergeIn(v, c, base, reading) <==> w1 == w2
  {
  }

  /** A document holding one list under the key "xs". */
  function Doc(l: seq<Json>): Json {
    Obj(map["xs" := Arr(l)])
  }

  lemma ApplyInDoc(l: seq<Json>, rest: Path, op: Operator, r: seq<Json>)
    requires rest != [] && ApplyValue(Arr(l), rest, op) == Ok(Arr(r))
    ensures ApplyValue(Doc(l), [Key("xs")] + rest, op) == Ok(Doc(r))
  {
    ApplyUnderKey(map["xs" := Arr(l)], "xs", rest, op);
    assert map["xs" := Arr(l)]["xs" := Arr(r)] == map["xs" := Arr(r)];
  }

  /** The move example: in ["A", "B"], "A" moves to index 1 and,
      concurrently, "B" is deleted at index 1. */
  lemma MoveExampleTransforms()
    ensures var c := Component([Key("xs"), Index(1)], ListDelete(Str("B")));
      var base := Component([Key("xs"), Index(0)], ListMove(1));
      && TransformComponentAsWritten(c, base, Left) == Ok([c])
      && TransformComponent(c, base, Left) == Ok([Component([Key("xs"), Index(0)], ListDelete(Str("B")))])
      && TransformComponentAsWritten(base, c, Right) == Ok([Component([Key("xs"), Index(0)], ListMove(0))])
      && TransformComponent(base, c, Right) == Ok([Component([Key("xs"), Index(0)], ListMove(0))])
  {
    var c := Component([Key("xs"), Index(1)], ListDelete(Str("B")));
    var base := Component([Key("xs"), Index(0)], ListMove(1));
    assert MaxCommonPath(base.path, c.path) == [Key("xs")];
    assert MaxCommonPath(c.path, base.path) == [Key("xs")];
    // as written: the target is read as the path element at position 1
    assert Get(base.path, 1) == Some(Index(0));
    assert DecreaseIndexAt(c.path, 1) == [Key("xs"), Index(0)];
    assert IncreaseIndexAt([Key("xs"), Index(0)], 1) == c.path;
    assert AgainstListMove(c, base, Left, 1, AsWritten) == Ok([c]);
    MoveCarriesPositions(c, base, Left, [Key("xs")], 0, 1, 1, []);
    assert [Key("xs")] + [Index(0)] + [] == [Key("xs"), Index(0)];
    // the move against the delete: its target drops to 0, in both readings
    assert Get(c.path, 1) == Some(Index(1));
    assert AgainstListDelete(base, c, AsWritten) == Ok([Component([Key("xs"), Index(0)], ListMove(0))]);
    assert AgainstListDelete(base, c, Corrected) == Ok([Component([Key("xs"), Index(0)], ListMove(0))]);
  }

  /** The runs of the move example, from both sites. */
  lemma MoveExampleRuns()
    ensures var v := Doc([Str("A"), Str("B")]);
      var del1 := Component([Key("xs"), Index(1)], ListDelete(Str("B")));
      var del0 := Component([Key("xs"), Index(0)], ListDelete(Str("B")));
      var move := Component([Key("xs"), Index(0)], ListMove(1));
      var stay := Component([Key("xs"), Index(0)], ListMove(0));
      && Run(v, [move] + [del1]) == (Doc([Str("B"), Str("A")]), Ok(()))
      && Run(v, [move] + [del0]) == (Doc([Str("A")]), Ok(()))
      && Run(v, [del1] + [stay]) == (Doc([Str("A")]), Ok(()))
  {
    MoveFirstRuns();
    DeleteFirstRuns();
  }

  /** The site that moved "A" first: the delete left at index 1 hits "A"'s
      new place and finds no "B" there; the delete lowered to index 0
      removes "B". */
  lemma MoveFirstRuns()
    ensures var v := Doc([Str("A"), Str("B")]);
      var del1 := Component([Key("xs"), Index(1)], ListDelete(Str("B")));
      var del0 := Component([Key("xs"), Index(0)], ListDelete(Str("B")));
      var move := Component([Key("xs"), Index(0)], ListMove(1));
      && Run(v, [move] + [del1]) == (Doc([Str("B"), Str("A")]), Ok(()))
      && Run(v, [move] + [del0]) == (Doc([Str("A")]), Ok(()))
  {
    var moved := [Str("B"), Str("A")];
    var left := [Str("A")];
    var v := Doc([Str("A"), Str("B")]);
    MoveInExample();
    ApplyInDoc(moved, [Index(1)], ListDelete(Str("B")), moved);
    assert RemoveAt(moved, 0) == left;
    ApplyInDoc(moved, [Index(0)], ListDelete(Str("B")), left);
    RunTwo(v, Component([Key("xs"), Index(0)], ListMove(1)), Component([Key("xs"), Index(1)], ListDelete(Str("B"))), Doc(moved), Doc(moved));
    RunTwo(v, Component([Key("xs"), Index(0)], ListMove(1)), Component([Key("xs"), Index(0)], ListDelete(Str("B"))), Doc(moved), Doc(left));
  }

  lemma MoveInExample()
    ensures ApplyValue(Doc([Str("A"), Str("B")]), [Key("xs"), Index(0)], ListMove(1)) == Ok(Doc([Str("B"), Str("A")]))
  {
    var l := [Str("A"), Str("B")];
    var moved := [Str("B"), Str("A")];
    assert RemoveAt(l, 0) == [Str("B")];
    assert InsertAt([Str("B")], 1, Str("A")) == moved;
    ApplyInDoc(l, [Index(0)], ListMove(1), moved);
    assert [Key("xs")] + [Index(0)] == [Key("xs"), Index(0)];
  }

  /** The site that deleted "B" first: the rebased move of "A" to its own
      index changes nothing. */
  lemma DeleteFirstRuns()
    ensures var v := Doc([Str("A"), Str("B")]);
      var del1 := Component([Key("xs"), Index(1)], ListDelete(Str("B")));
      var stay := Component([Key("xs"), Index(0)], ListMove(0));
      Run(v, [del1] + [stay]) == (Doc([Str("A")]), Ok(()))
  {
    var l := [Str("A"), Str("B")];
    var left := [Str("A")];
    assert RemoveAt(l, 1) == left;
    ApplyInDoc(l, [Index(1)], ListDelete(Str("B")), left);
    ApplyInDoc(left, [Index(0)], ListMove(0), left);
    RunTwo(Doc(l), Component([Key("xs"), Index(1)], ListDelete(Str("B"))), Component([Key("xs"), Index(0)], ListMove(0)), Doc(left), Doc(left));
  }

  /** The move example as the source reads it: the source takes the move's
      target from position 1 of the base's path, which holds the index 0,
      so the delete stays at index 1 and misses "B" (now at 0) on one site,
      while the other site has deleted it. */
  lemma MoveTargetAsWrittenDiverges()
    ensures !ConvergeIn(Doc([Str("A"), Str("B")]), Component([Key("xs"), Index(1)], ListDelete(Str("B"))),
                        Component([Key("xs"), Index(0)], ListMove(1)), AsWritten)
  {
    MoveExampleTransforms();
    MoveExampleRuns();
    var c := Component([Key("xs"), Index(1)], ListDelete(Str("B")));
    var base := Component([Key("xs"), Index(0)], ListMove(1));
    ConvergeFrom(Doc([Str("A"), Str("B")]), c, base, AsWritten, [c], [Component([Key("xs"), Index(0)], ListMove(0))],
                 Doc([Str("B"), Str("A")]), Doc([Str("A")]));
    assert Doc([Str("B"), Str("A")]).fields["xs"] != Doc([Str("A")]).fields["xs"];
  }

  /** The same inputs with the target read as the index: the delete
      follows "B" to index 0 and both sites reach {"xs": ["A"]}. */
  lemma MoveTargetCorrectedConverges()
    ensures ConvergeIn(Doc([Str("A"), Str("B")]), Component([Key("xs"), Index(1)], ListDelete(Str("B"))),
                       Component([Key("xs"), Index(0)], ListMove(1)), Corrected)
  {
    MoveExampleTransforms();
    MoveExampleRuns();
    var c := Component([Key("xs"), Index(1)], ListDelete(Str("B")));
    var base := Component([Key("xs"), Index(0)], ListMove(1));
    ConvergeFrom(Doc([Str("A"), Str("B")]), c, base, Corrected, [Component([Key("xs"), Index(0)], ListDelete(Str("B")))],
                 [Component([Key("xs"), Index(0)], ListMove(0))], Doc([Str("A")]), Doc([Str("A")]));
  }

  /** The insert example: in [{}], {} is inserted at index 0 and,
      concurrently, key "k" is written inside the element at index 0. */
  lemma InsertExampleTransforms()
    ensures var c := Component([Key("xs"), Index(0), Key("k")], ObjectInsert(Str("v")));
      var base := Component([Key("xs"), Index(0)], ListInsert(Obj(map[])));
      && TransformComponentAsWritten(c, base, Left) == Ok([c])
      && TransformComponent(c, base, Left) == Ok([Component([Key("xs"), Index(1), Key("k")], ObjectInsert(Str("v")))])
      && TransformComponentAsWritten(base, c, Right) == Ok([base])
      && TransformComponent(base, c, Right) == Ok([base])
  {
    var c := Component([Key("xs"), Index(0), Key("k")], ObjectInsert(Str("v")));
    var base := Component([Key("xs"), Index(0)], ListInsert(Obj(map[])));
    assert c.path[..2] == base.path;
    CommonPathCovers(base.path, c.path, 2);
    // as written: the insert's index is compared with the key "k"
    assert IncreaseIndexAt(c.path, 2) == c.path;
    assert AgainstListInsert(c, base, Left, AsWritten) == Ok([c]);
    assert [Key("xs")] + [Index(0)] + [Key("k")] == c.path;
    InsertShiftsLaterPositions(c, base, Left, [Key("xs")], 0, 0, [Key("k")]);
    assert [Key("xs")] + [Index(1)] + [Key("k")] == [Key("xs"), Index(1), Key("k")];
    TransformDeeperBase(base, c, Right, AsWritten);
    TransformDeeperBase(base, c, Right, Corrected);
  }

  lemma InsertExampleRuns()
    ensures var e := Obj(map[]);
      var w := Obj(map["k" := Str("v")]);
      var v := Doc([e]);
      var base := Component([Key("xs"), Index(0)], ListInsert(e));
      var c0 := Component([Key("xs"), Index(0), Key("k")], ObjectInsert(Str("v")));
      var c1 := Component([Key("xs"), Index(1), Key("k")], ObjectInsert(Str("v")));
      && Run(v, [base] + [c0]) == (Doc([w, e]), Ok(()))
      && Run(v, [base] + [c1]) == (Doc([e, w]), Ok(()))
      && Run(v, [c0] + [base]) == (Doc([e, w]), Ok(()))
  {
    var e := Obj(map[]);
    var w := Obj(map["k" := Str("v")]);
    var base := Component([Key("xs"), Index(0)], ListInsert(e));
    var c0 := Component([Key("xs"), Index(0), Key("k")], ObjectInsert(Str("v")));
    var c1 := Component([Key("xs"), Index(1), Key("k")], ObjectInsert(Str("v")));
    InsertThenWrite(0, [w, e]);
    InsertThenWrite(1, [e, w]);
    WriteThenInsert();
    RunTwo(Doc([e]), base, c0, Doc([e, e]), Doc([w, e]));
    RunTwo(Doc([e]), base, c1, Doc([e, e]), Doc([e, w]));
    RunTwo(Doc([e]), c0, base, Doc([w]), Doc([e, w]));
  }

  lemma InsertThenWrite(i: nat, r: seq<Json>)
    requires i < 2 && r == [Obj(map[]), Obj(map[])][i := Obj(map["k" := Str("v")])]
    ensures ApplyValue(Doc([Obj(map[])]), [Key("xs"), Index(0)], ListInsert(Obj(map[]))) == Ok(Doc([Obj(map[]), Obj(map[])]))
    ensures ApplyValue(Doc([Obj(map[]), Obj(map[])]), [Key("xs"), Index(i), Key("k")], ObjectInsert(Str("v"))) == Ok(Doc(r))
  {
    var e := Obj(map[]);
    var op := ObjectInsert(Str("v"));
    assert InsertAt([e], 0, e) == [e, e];
    ApplyInDoc([e], [Index(0)], ListInsert(e), [e, e]);
    assert ApplyValue(e, [Key("k")], op) == Ok(Obj(map["k" := Str("v")]));
    ApplyUnderIndex([e, e], i, [Key("k")], op);
    ApplyInDoc([e, e], [Index(i), Key("k")], op, r);
    assert [Key("xs")] + [Index(i), Key("k")] == [Key("xs"), Index(i), Key("k")];
  }

  lemma WriteThenInsert()
    ensures var e := Obj(map[]);
      var w := Obj(map["k" := Str("v")]);
      && ApplyValue(Doc([e]), [Key("xs"), Index(0), Key("k")], ObjectInsert(Str("v"))) == Ok(Doc([w]))
      && ApplyValue(Doc([w]), [Key("xs"), Index(0)], ListInsert(e)) == Ok(Doc([e, w]))
  {
    var e := Obj(map[]);
    var w := Obj(map["k" := Str("v")]);
    var op := ObjectInsert(Str("v"));
    assert ApplyValue(e, [Key("k")], op) == Ok(w);
    ApplyUnderIndex([e], 0, [Key("k")], op);
    assert [e][0 := w] == [w];
    ApplyInDoc([e], [Index(0), Key("k")], op, [w]);
    assert [Key("xs")] + [Index(0), Key("k")] == [Key("xs"), Index(0), Key("k")];
    assert InsertAt([w], 0, e) == [e, w];
    ApplyInDoc([w], [Index(0)], ListInsert(e), [e, w]);
  }

  /** The insert example as the source reads it: the source compares the
      insert's index with the key "k" (the new component's last element)
      rather than with the index 0, so the write stays at index 0 and lands
      in the inserted element on one site, in the original one on the
      other. */
  lemma InsertBelowAsWrittenDiverges()
    ensures !ConvergeIn(Doc([Obj(map[])]), Component([Key("xs"), Index(0), Key("k")], ObjectInsert(Str("v"))),
                        Component([Key("xs"), Index(0)], ListInsert(Obj(map[]))), AsWritten)
  {
    InsertExampleTransforms();
    InsertExampleRuns();
    var e := Obj(map[]);
    var w := Obj(map["k" := Str("v")]);
    var c := Component([Key("xs"), Index(0), Key("k")], ObjectInsert(Str("v")));
    var base := Component([Key("xs"), Index(0)], ListInsert(e));
    ConvergeFrom(Doc([e]), c, base, AsWritten, [c], [base], Doc([w, e]), Doc([e, w]));
    assert "k" in w.fields && "k" !in e.fields;
    assert Doc([w, e]).fields["xs"].items[0] != Doc([e, w]).fields["xs"].items[0];
  }

  /** The same inputs compared at the base's own position: the write moves
      to index 1 with its element, and both sites reach
      {"xs": [{}, {"k": "v"}]}. */
  lemma InsertBelowCorrectedConverges()
    ensures ConvergeIn(Doc([Obj(map[])]), Component([Key("xs"), Index(0), Key("k")], ObjectInsert(Str("v"))),
                       Component([Key("xs"), Index(0)], ListInsert(Obj(map[]))), Corrected)
  {
    InsertExampleTransforms();
    InsertExampleRuns();
    var e := Obj(map[]);
    var w := Obj(map["k" := Str("v")]);
    var c := Component([Key("xs"), Index(0), Key("k")], ObjectInsert(Str("v")));
    var base := Component([Key("xs"), Index(0)], ListInsert(e));
    ConvergeFrom(Doc([e]), c, base, Corrected, [Component([Key("xs"), Index(1), Key("k")], ObjectInsert(Str("v")))], [base],
                 Doc([e, w]), Doc([e, w]));
  }

  /** The consume example, for any keys and any two different values (the
      example is {"a": {"b": 1}}, with 2 replacing 1): the object at `a`
      is deleted and, concurrently, `b` inside it is replaced. As written
      the delete keeps its old value {b: x}, which no longer matches after
      the replace, so one site keeps {a: {b: y}} and the other has no key
      `a`. */
  lemma ConsumeAsWrittenDiverges(a: string, b: string, x: Json, y: Json)
    requires x != y
    ensures var u := Obj(map[b := x]);
      !ConvergeIn(Obj(map[a := u]), Component([Key(a)], ObjectDelete(u)),
                  Component([Key(a), Key(b)], ObjectReplace(y, x)), AsWritten)
  {
    var u := Obj(map[b := x]);
    var u' := Obj(map[b := x][b := y]);
    var m := map[a := u];
    var c := Component([Key(a)], ObjectDelete(u));
    var base := Component([Key(a), Key(b)], ObjectReplace(y, x));
    TransformDeeperBase(c, base, Left, AsWritten);
    BelowReplacedOrDeletedKey(base, c, Right, AsWritten, [Key(b)]);
    assert ApplyValue(u, [Key(b)], base.operator) == Ok(u');
    ApplyUnderKey(m, a, [Key(b)], base.operator);
    assert [Key(a)] + [Key(b)] == base.path;
    assert u' != u by { assert u'.fields[b] != u.fields[b]; }
    assert ApplyValue(Obj(m[a := u']), c.path, c.operator) == Ok(Obj(m[a := u']));
    assert ApplyValue(Obj(m), c.path, c.operator) == Ok(Obj(m - {a}));
    RunTwo(Obj(m), base, c, Obj(m[a := u']), Obj(m[a := u']));
    RunOne(Obj(m), c, Obj(m - {a}));
    ConvergeFrom(Obj(m), c, base, AsWritten, [c], [], Obj(m[a := u']), Obj(m - {a}));
    assert a in m[a := u'] && a !in m - {a};
  }

  /** The same shape of inputs in the corrected reading, for any keys and
      any two different values (the example is `a`, `b`, 1 and 2): both
      sites end as {}. */
  lemma ConsumeCorrectedConverges(a: string, b: string, x: Json, y: Json)
    requires x != y
    ensures var u := Obj(map[b := x]);
      var c := Component([Key(a)], ObjectDelete(u));
      var base := Component([Key(a), Key(b)], ObjectReplace(y, x));
      && ConvergeIn(Obj(map[a := u]), c, base, Corrected)
      && Run(Obj(map[a := u]), [c]).0 == Obj(map[])
  {
    var u := Obj(map[b := x]);
    var m := map[a := u];
    var c := Component([Key(a)], ObjectDelete(u));
    var base := Component([Key(a), Key(b)], ObjectReplace(y, x));
    assert ApplyValue(u, [Key(b)], base.operator) == Ok(Obj(map[b := x][b := y]));
    ApplyUnderKey(m, a, [Key(b)], base.operator);
    assert [Key(a)] + [Key(b)] == base.path;
    assert RouteGetMut(Obj(m), c.path) == RouteMap(m, c.path, true) == Ok(Some(u));
    KeyEditAboveEditConverges(Obj(m), c, base);
    assert m - {a} == map[];
    RunOne(Obj(m), c, Obj(m - {a}));
  }

  /** In the corrected reading the delete of that example comes back with
      its old value folded to {b: y}: the replace applied to {b: x}. */
  lemma ConsumeExampleTransforms(a: string, b: string, x: Json, y: Json)
    requires x != y
    ensures var c := Component([Key(a)], ObjectDelete(Obj(map[b := x])));
      var base := Component([Key(a), Key(b)], ObjectReplace(y, x));
      TransformComponent(c, base, Left) == Ok([Component([Key(a)], ObjectDelete(Obj(map[b := y])))])
  {
    var c := Component([Key(a)], ObjectDelete(Obj(map[b := x])));
    var base := Component([Key(a), Key(b)], ObjectReplace(y, x));
    assert map[b := x][b := y] == map[b := y];
    assert base.path[..|c.path|] == c.path && base.path[|c.path|..] == [Key(b)];
    assert ApplyValue(Obj(map[b := x]), [Key(b)], base.operator) == Ok(Obj(map[b := y]));
    assert FoldBelow(c, base) == Ok(Component([Key(a)], ObjectDelete(Obj(map[b := y]))));
    TransformDeeperBase(c, base, Left, Corrected);
  }

  /** The corrected reading on any document: an ObjectDelete or a real
      ObjectReplace of a key whose value it expects correctly, against a
      concurrent component strictly below that key that applies, converges;
      both sites end as the delete or replace alone leaves the document. */
  lemma KeyEditAboveEditConverges(v: Json, c: Component, base: Component)
    requires c.path != [] && Last(c.path).Key?
    requires c.operator.ObjectDelete? || (c.operator.ObjectReplace? && !IsEquivalentToNoop(c.operator))
    requires RouteGetMut(v, c.path) == Ok(Some(OldValue(c.operator)))
    requires IsPrefixOf(c.path, base.path) && |base.path| > |c.path| && !IsEquivalentToNoop(base.operator)
    requires ApplyValue(v, base.path, base.operator).Ok?
    ensures ConvergeIn(v, c, base, Corrected)
    ensures ApplyValue(v, c.path, c.operator).Ok?
    ensures Run(v, [base] + TransformComponent(c, base, Left).value).0 == ApplyValue(v, c.path, c.operator).value
  {
    var rest := base.path[|c.path|..];
    assert base.path == c.path + rest;
    BelowReplacedOrDeletedKey(base, c, Right, Corrected, rest);
    FoldTracksDocument(v, c, base);
    TransformDeeperBase(c, base, Left, Corrected);
    var f := FoldBelow(c, base).value;
    var u' := OldValue(f.operator);
    var w1 := Put(v, c.path, u');
    GuardedKeyEditAfterPut(v, c.path, u', c.operator);
    var w2 := ApplyValue(v, c.path, c.operator).value;
    RunTwo(v, base, f, w1, w2);
    RunOne(v, c, w2);
    ConvergeFrom(v, c, base, Corrected, [f], [], w2, w2);
  }

  /** A Delete or Replace of a key whose old value is rewritten to what the
      document now holds there acts as the original did on the original
      document. */
  lemma {:induction false} GuardedKeyEditAfterPut(v: Json, p: Path, x: Json, op: Operator)
    requires p != [] && Last(p).Key? && (op.ObjectDelete? || op.ObjectReplace?)
    requires RouteGetMut(v, p) == Ok(Some(OldValue(op)))
    ensures ApplyValue(v, p, op).Ok?
    ensures ApplyValue(Put(v, p, x), p, WithOldValue(op, x)) == ApplyValue(v, p, op)
    decreases |p|
  {
    var k := Last(p).k;
    var last := [Key(k)];
    if |p| == 1 {
      assert p == last;
      RouteGetMutAgrees(v, p);
      RouteGetOneLevel(v, p);
      var m := v.fields;
      assert k in m && m[k] == OldValue(op);
      if op.ObjectDelete? {
        assert m[k := x] - {k} == m - {k};
      } else {
        assert m[k := x][k := op.newValue] == m[k := op.newValue];
      }
    } else {
      var q := p[..|p| - 1];
      assert p == q + last;
      PutNested(v, q, last, x);
      var w := RouteGetMut(v, q).value.value;
      GuardedKeyEditAfterPut(w, last, x, op);
      var local := ApplyValue(w, last, op).value;
      ApplyAtParent(v, p, op);
      var inner := Put(w, last, x);
      PutFinds(v, q, inner);
      ApplyAtParent(Put(v, q, inner), p, WithOldValue(op, x));
      PutOverrides(v, q, inner, local);
    }
  }

  // ---------------------------------------------------------------------
  // transform_multi, transform_matrix, transform
  // ---------------------------------------------------------------------

  /** Once the base is used up, `transform_multi` passes the rest of the
      operation through unchanged. */
  lemma {:induction false} MultiNoBase(ops: seq<Component>, reading: Reading)
    ensures MultiIn(ops, None, reading) == Ok((ops, None))
    decreases |ops|
  {
    if ops != [] {
      MultiNoBase(ops[1..], reading);
      assert [ops[0]] + ops[1..] == ops;
    }
  }

  /** A base that the first component absorbs (rebasing it on the RIGHT
      leaves nothing): the source's `assert!` on the rebased base panics;
      in the corrected reading the base ends there and the rest of the
      operation passes through. */
  lemma MultiAbsorbedBase(ops: seq<Component>, b: Component, reading: Reading)
    requires ops != []
    requires TransformComponentIn(ops[0], b, Left, reading).Ok?
    requires TransformComponentIn(b, ops[0], Right, reading) == Ok([])
    ensures reading == AsWritten ==> MultiIn(ops, Some(b), reading) == Err(Panic)
    ensures reading == Corrected ==>
      MultiIn(ops, Some(b), reading) == Ok((TransformComponentIn(ops[0], b, Left, reading).value + ops[1..], None))
  {
    MultiNoBase(ops[1..], reading);
  }

  /** Rebasing on the RIGHT never yields more than one component, so the
      base that `transform_multi` walks along is either kept or absorbed. */
  lemma RightYieldsAtMostOne(c: Component, base: Component, reading: Reading)
    ensures TransformComponentIn(c, base, Right, reading).Ok? ==> |TransformComponentIn(c, base, Right, reading).value| <= 1
  {
    match base.operator {
      case ListReplace(_, _) =>
      case ListInsert(_) =>
      case ListDelete(_) =>
      case ObjectReplace(_, _) =>
      case ObjectInsert(_) =>
      case ObjectDelete(_) =>
      case ListMove(_) =>
      case _ =>
    }
  }

  /** Rebasing on the LEFT yields at most two components, and two only
      below a key a concurrent ObjectInsert fills: the delete of the
      inserted value and the component itself. */
  lemma LeftYieldsAtMostTwo(c: Component, base: Component, reading: Reading)
    ensures var r := TransformComponentIn(c, base, Left, reading);
      r.Ok? ==> (|r.value| <= 2
        && (|r.value| == 2 ==> base.operator.ObjectInsert? && r.value == [Component(base.path, ObjectDelete(base.operator.value)), c]))
  {
    match base.operator {
      case ListReplace(_, _) =>
      case ListInsert(_) =>
      case ListDelete(_) =>
      case ObjectReplace(_, _) =>
      case ObjectInsert(_) =>
      case ObjectDelete(_) =>
      case ListMove(_) =>
      case _ =>
    }
  }

  /** `transform`'s shortcut for one component on each side gives what
      `transform_matrix` would. */
  lemma SingletonShortcutAgrees(o: Component, b: Component)
    requires ValidComponent(o) && ValidComponent(b) && !b.operator.Noop?
    ensures TransformIn([o], [b], Corrected) == MatrixIn([o], [b], Corrected)
  {
    RightYieldsAtMostOne(b, o, Corrected);
    assert forall i :: 0 <= i < |[o]| ==> ValidComponent([o][i]);
    assert forall i :: 0 <= i < |[b]| ==> ValidComponent([b][i]);
    assert ValidateOperation([o]) == Ok(()) && ValidateOperation([b]) == Ok(());
    assert NotNoop(b) == Some(b);
    assert [o][1..] == [] && [b][1..] == [];
    var a := TransformComponentIn(o, b, Left, Corrected);
    var bb := TransformComponentIn(b, o, Right, Corrected);
    if a.Ok? && bb.Ok? {
      var next := NextBase(bb.value, Corrected).value;
      assert OptionSeq(next) == bb.value;
      assert MultiIn([], next, Corrected) == Ok(([], next));
      assert a.value + [] == a.value;
      assert MultiIn([o], Some(b), Corrected) == Ok((a.value, next));
      assert MatrixLoopIn(a.value, [], Corrected) == Ok((a.value, []));
      assert OptionSeq(next) + [] == bb.value;
    }
  }

  /** The absorbed base on a concrete operation: in {"xs": ["A"]}, an
      operation deleting "A" and inserting "C" at index 0, against a base
      that also deletes "A". The source panics; the corrected reading keeps
      only the insert and drops the base. */
  lemma AbsorbedBaseTransforms()
    ensures var del := Component([Key("xs"), Index(0)], ListDelete(Str("A")));
      var ins := Component([Key("xs"), Index(0)], ListInsert(Str("C")));
      && MultiIn([del, ins], Some(del), AsWritten) == Err(Panic)
      && TransformIn([del, ins], [del], AsWritten) == Err(Panic)
      && MultiIn([del, ins], Some(del), Corrected) == Ok(([ins], None))
      && TransformIn([del, ins], [del], Corrected) == Ok(([ins], []))
  {
    var del := Component([Key("xs"), Index(0)], ListDelete(Str("A")));
    var ins := Component([Key("xs"), Index(0)], ListInsert(Str("C")));
    var ops := [del, ins];
    assert ops[1..] == [ins];
    DeleteOfSameElement(del, del, Left, AsWritten);
    DeleteOfSameElement(del, del, Right, AsWritten);
    DeleteOfSameElement(del, del, Left, Corrected);
    DeleteOfSameElement(del, del, Right, Corrected);
    MultiAbsorbedBase(ops, del, AsWritten);
    MultiAbsorbedBase(ops, del, Corrected);
    assert [] + [ins] == [ins];
    assert [del][1..] == [];
    assert ValidComponent(del) && ValidComponent(ins);
    assert ValidateOperation([ins]) == Ok(());
    assert ValidateOperation(ops) == Ok(()) by {
      assert ValidateComponent(del) == Ok(());
    }
    assert ValidateOperation([del]) == Ok(());
    assert MatrixLoopIn([ins], [], Corrected) == Ok(([ins], []));
    assert NotNoop(del) == Some(del);
    assert OptionSeq(None) + [] == [];
    assert MatrixLoopIn(ops, [del], Corrected) == Ok(([ins], []));
  }

  /** ... and with that result both sites reach {"xs": ["C"]}: one applies
      the base and then the rebased operation, the other the operation and
      then nothing. */
  lemma AbsorbedBaseRuns()
    ensures var del := Component([Key("xs"), Index(0)], ListDelete(Str("A")));
      var ins := Component([Key("xs"), Index(0)], ListInsert(Str("C")));
      && Run(Doc([Str("A")]), [del] + [ins]) == (Doc([Str("C")]), Ok(()))
      && Run(Doc([Str("A")]), [del, ins] + []) == (Doc([Str("C")]), Ok(()))
  {
    var del := Component([Key("xs"), Index(0)], ListDelete(Str("A")));
    var ins := Component([Key("xs"), Index(0)], ListInsert(Str("C")));
    assert [Key("xs")] + [Index(0)] == del.path == ins.path;
    assert ApplyValue(Doc([Str("A")]), del.path, del.operator) == Ok(Doc([])) by {
      assert RemoveAt([Str("A")], 0) == [];
      ApplyInDoc([Str("A")], [Index(0)], del.operator, []);
    }
    assert ApplyValue(Doc([]), ins.path, ins.operator) == Ok(Doc([Str("C")])) by {
      assert InsertAt([], 0, Str("C")) == [Str("C")];
      ApplyInDoc([], [Index(0)], ins.operator, [Str("C")]);
    }
    RunTwo(Doc([Str("A")]), del, ins, Doc([]), Doc([Str("C")]));
    assert [del, ins] + [] == [del] + [ins];
  }

  // ---------------------------------------------------------------------
  // append and compose
  // ---------------------------------------------------------------------

  /** `append` onto a valid operation fails exactly when the component is
      invalid, and keeps the operation valid. */
  lemma AppendValid(operation: seq<Component>, c: Component)
    requires forall i :: 0 <= i < |operation| ==> ValidComponent(operation[i])
    ensures Append(operation, c).Ok? <==> ValidComponent(c)
    ensures Append(operation, c).Err? ==> Append(operation, c).error == InvalidOperation
    ensures Append(operation, c).Ok? ==>
      var r := Append(operation, c).value;
      forall i :: 0 <= i < |r| ==> ValidComponent(r[i])
  {
    if ValidComponent(c) && operation != [] {
      var last := operation[|operation| - 1];
      assert ValidComponent(last);
      assert MergeDefined(last.operator, c.operator);
      var r := Append(operation, c).value;
      forall i | 0 <= i < |r|
        ensures ValidComponent(r[i])
      {
        if i < |operation| - 1 {
          assert r[i] == operation[i];
        }
      }
    }
  }

  lemma {:induction false} AppendAllValid(operation: seq<Component>, cs: seq<Component>)
    requires forall i :: 0 <= i < |operation| ==> ValidComponent(operation[i])
    ensures AppendAll(operation, cs).Ok? <==> forall i :: 0 <= i < |cs| ==> ValidComponent(cs[i])
    ensures AppendAll(operation, cs).Err? ==> AppendAll(operation, cs).error == InvalidOperation
    ensures AppendAll(operation, cs).Ok? ==>
      var r := AppendAll(operation, cs).value;
      forall i :: 0 <= i < |r| ==> ValidComponent(r[i])
    decreases |cs|
  {
    if cs != [] {
      AppendValid(operation, cs[0]);
      if ValidComponent(cs[0]) {
        AppendAllValid(Append(operation, cs[0]).value, cs[1..]);
        assert forall i :: 1 <= i < |cs| ==> cs[i] == cs[1..][i - 1];
        if !forall i :: 1 <= i < |cs| ==> ValidComponent(cs[i]) {
          var i :| 1 <= i < |cs| && !ValidComponent(cs[i]);
          assert !ValidComponent(cs[1..][i - 1]);
        }
      }
    }
  }

  /** `compose` succeeds exactly when both operations are valid, and its
      result is valid. */
  lemma ComposeValid(a: seq<Component>, b: seq<Component>)
    ensures ComposeSpec(a, b).Ok? <==>
      (forall i :: 0 <= i < |a| ==> ValidComponent(a[i])) && (forall i :: 0 <= i < |b| ==> ValidComponent(b[i]))
    ensures ComposeSpec(a, b).Err? ==> ComposeSpec(a, b).error == InvalidOperation
    ensures ComposeSpec(a, b).Ok? ==>
      var r := ComposeSpec(a, b).value;
      forall i :: 0 <= i < |r| ==> ValidComponent(r[i])
  {
    if ValidateOperation(a).Ok? {
      AppendAllValid(a, b);
    }
  }
}
