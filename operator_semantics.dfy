/** What `merge` and `invert` (src/operation.rs, src/transformer.rs) promise
    about applying components (src/json.rs): a merged operator does what the
    two it replaces do one after the other, and an inverted component undoes
    the original. Both are stated where the operator acts (the value a
    path's last element is applied to) and lifted to any depth through the
    in-place write-back of `apply`. */
module OperatorSemantics {
  import opened Values
  import opened Paths
  import opened Operation
  import opened JsonDocument
  import opened Transformer

  // ---------------------------------------------------------------------
  // Where an operator acts
  // ---------------------------------------------------------------------

  /** The value a path's last element is applied to: the value itself for a
      one-element path, otherwise the one `route_get_mut` finds at the rest
      of the path. */
  function Parent(v: Json, p: Path): Option<Json>
    requires p != []
  {
    if |p| == 1 then Some(v)
    else
      match RouteGetMut(v, p[..|p| - 1])
      case Ok(Some(t)) => Some(t)
      case _ => None
  }

  /** `v` with the value at `p`'s parent replaced by `t`. */
  function WithParent(v: Json, p: Path, t: Json): Json
    requires p != [] && Parent(v, p).Some?
  {
    if |p| == 1 then t else Put(v, p[..|p| - 1], t)
  }

  /** Applying at `p` is applying the last element at the parent and
      writing the result back. */
  lemma ApplyThroughParent(v: Json, p: Path, op: Operator)
    requires p != [] && Parent(v, p).Some?
    ensures var local := ApplyValue(Parent(v, p).value, [Last(p)], op);
      ApplyValue(v, p, op) == if local.Ok? then Ok(WithParent(v, p, local.value)) else Err(local.error)
  {
    if |p| == 1 {
      assert p == [Last(p)];
    } else {
      ApplyAtParent(v, p, op);
    }
  }

  /** Replacing the parent of `p` leaves a parent at every path `q` that
      shares `p`'s parent, holding the new value; a second replacement
      overrides the first, and putting back what was there changes
      nothing. */
  lemma WithParentLaws(v: Json, p: Path, q: Path, t: Json, t2: Json)
    requires p != [] && Parent(v, p).Some?
    requires |q| == |p| && q[..|q| - 1] == p[..|p| - 1]
    ensures Parent(WithParent(v, p, t), q) == Some(t)
    ensures WithParent(WithParent(v, p, t), q, t2) == WithParent(v, p, t2)
    ensures WithParent(v, p, Parent(v, p).value) == v
  {
    if |p| > 1 {
      var left := p[..|p| - 1];
      PutFinds(v, left, t);
      PutOverrides(v, left, t, t2);
      PutBack(v, left);
    }
  }

  /** The json0 precondition of an operator at the place it acts: the
      number it adds to, the place it inserts at (a free key, an index at
      most the length), the value it deletes or replaces, the element it
      moves and a target inside the list. */
  predicate Expects(t: Json, e: PathElement, op: Operator) {
    match op
    case Noop => false
    case AddNumber(d) =>
      d.Num? &&
      (t.Num?
       || (t.Arr? && e.Index? && e.i < |t.items| && t.items[e.i].Num?)
       || (t.Obj? && e.Key? && e.k in t.fields && t.fields[e.k].Num?))
    case ListInsert(_) => t.Arr? && e.Index? && e.i <= |t.items|
    case ListDelete(x) => t.Arr? && e.Index? && e.i < |t.items| && t.items[e.i] == x
    case ListReplace(_, o) => t.Arr? && e.Index? && e.i < |t.items| && t.items[e.i] == o
    case ListMove(j) => t.Arr? && e.Index? && e.i < |t.items| && j < |t.items|
    case ObjectInsert(_) => t.Obj? && e.Key? && e.k !in t.fields
    case ObjectDelete(x) => t.Obj? && e.Key? && e.k in t.fields && t.fields[e.k] == x
    case ObjectReplace(_, o) => t.Obj? && e.Key? && e.k in t.fields && t.fields[e.k] == o
  }

  /** The json0 precondition of a component on a whole value. */
  predicate ExpectsAt(v: Json, p: Path, op: Operator) {
    p != [] && Parent(v, p).Some? && Expects(Parent(v, p).value, Last(p), op)
  }

  /** An operator applies wherever its precondition holds. */
  lemma ExpectedApplies(t: Json, e: PathElement, op: Operator)
    requires Expects(t, e, op)
    ensures ApplyValue(t, [e], op).Ok?
  {
    if op.ListMove? {
      ListMoveRelocates(t.items, e.i, op.to);
    } else if op.AddNumber? && t.Obj? {
      assert ApplyValue(t.fields[e.k], [e], op) == Ok(Num(t.fields[e.k].n + op.delta.n));
    }
  }

  // ---------------------------------------------------------------------
  // merge
  // ---------------------------------------------------------------------

  /** At the place `a` acts on `t`, `a` applies, and then `b` undoes it
      when the two merge to Noop, or does what the merged operator does
      otherwise. */
  predicate MergedActsAsPair(t: Json, e: PathElement, a: Operator, b: Operator) {
    MergeDefined(a, b) && MergeOperator(a, b).Some? &&
    var r := MergeOperator(a, b).value;
    var t1 := ApplyValue(t, [e], a);
    && t1.Ok?
    && (r.Noop? ==> ApplyValue(t1.value, [e], b) == Ok(t))
    && (!r.Noop? ==> ApplyValue(t1.value, [e], b) == ApplyValue(t, [e], r))
  }

  /** At the place it acts, a merged operator does what `a` and then `b` do;
      a merge to Noop (the pair is dropped by `append`) means `b` undoes
      `a`. */
  lemma MergeSoundLocal(t: Json, e: PathElement, a: Operator, b: Operator)
    requires MergeDefined(a, b) && MergeOperator(a, b).Some? && Expects(t, e, a)
    ensures MergedActsAsPair(t, e, a, b)
  {
    match t
    case Obj(m) => MergeSoundInObject(m, e, a, b);
    case Arr(s) => MergeSoundInList(s, e, a, b);
    case Num(n) =>
      assert ApplyValue(Num(n), [e], a) == Ok(Num(n + a.delta.n));
  }

  lemma MergeSoundInObject(m: map<string, Json>, e: PathElement, a: Operator, b: Operator)
    requires MergeDefined(a, b) && MergeOperator(a, b).Some? && Expects(Obj(m), e, a)
    ensures MergedActsAsPair(Obj(m), e, a, b)
  {
    var k := e.k;
    match a {
      case ObjectInsert(v1) =>
        if b.ObjectDelete? {
          assert m[k := v1] - {k} == m;
        } else {
          assert m[k := v1][k := b.newValue] == m[k := b.newValue];
        }
      case ObjectDelete(v1) =>
        assert (m - {k})[k := b.value] == m[k := b.value];
      case ObjectReplace(n1, o1) =>
        if b.ObjectDelete? {
          assert m[k := n1] - {k} == m - {k};
        } else {
          assert m[k := n1][k := b.newValue] == m[k := b.newValue];
        }
      case AddNumber(d1) =>
        var n := m[k].n;
        var d := d1.n + b.delta.n;
        assert ApplyValue(m[k], [e], a) == Ok(Num(n + d1.n));
        assert ApplyValue(Num(n + d1.n), [e], b) == Ok(Num(n + d));
        assert ApplyValue(m[k], [e], AddNumber(Num(d))) == Ok(Num(n + d));
        assert m[k := Num(n + d1.n)][k := Num(n + d)] == m[k := Num(n + d)];
    }
  }

  lemma MergeSoundInList(s: seq<Json>, e: PathElement, a: Operator, b: Operator)
    requires MergeDefined(a, b) && MergeOperator(a, b).Some? && Expects(Arr(s), e, a)
    ensures MergedActsAsPair(Arr(s), e, a, b)
  {
    var i := e.i;
    match a {
      case ListInsert(v1) =>
        if b.ListDelete? {
          assert RemoveAt(InsertAt(s, i, v1), i) == s;
        } else {
          assert InsertAt(s, i, v1)[i := b.newValue] == InsertAt(s, i, b.newValue);
        }
      case ListReplace(n1, o1) =>
        if b.ListDelete? {
          assert RemoveAt(s[i := n1], i) == RemoveAt(s, i);
        } else {
          assert s[i := n1][i := b.newValue] == s[i := b.newValue];
        }
      case AddNumber(d1) =>
        var n := s[i].n;
        var d := d1.n + b.delta.n;
        assert s[i := Num(n + d1.n)][i := Num(n + d)] == s[i := Num(n + d)];
      case ListMove(_) =>
      case ListDelete(_) =>
    }
  }

  /** The same, at any depth: applying the merged operator at `p` is
      applying `a` and then `b` there. */
  lemma MergeSound(v: Json, p: Path, a: Operator, b: Operator)
    requires MergeDefined(a, b) && MergeOperator(a, b).Some? && ExpectsAt(v, p, a)
    ensures var r := MergeOperator(a, b).value;
      var v1 := ApplyValue(v, p, a);
      && v1.Ok?
      && (r.Noop? ==> ApplyValue(v1.value, p, b) == Ok(v))
      && (!r.Noop? ==> ApplyValue(v1.value, p, b) == ApplyValue(v, p, r))
  {
    var t := Parent(v, p).value;
    var e := Last(p);
    MergeSoundLocal(t, e, a, b);
    var t1 := ApplyValue(t, [e], a).value;
    ApplyThroughParent(v, p, a);
    var v1 := WithParent(v, p, t1);
    WithParentLaws(v, p, p, t1, t);
    ApplyThroughParent(v1, p, b);
    var r := MergeOperator(a, b).value;
    var t2 := ApplyValue(t1, [e], b);
    if t2.Ok? {
      WithParentLaws(v, p, p, t1, t2.value);
    }
    if !r.Noop? {
      ApplyThroughParent(v, p, r);
    }
  }

  /** The table as written on a delete followed by an insert of the same
      key: from {"x": 1}, deleting 1 and inserting 2 gives {"x": 2}, but the
      merged Replace has new value 1 and old value 2, does not match and
      leaves {"x": 1}. */
  lemma MergeAsWrittenDisagrees()
    ensures var m := map["x" := Num(1)];
      var a := ObjectDelete(Num(1));
      var b := ObjectInsert(Num(2));
      && ApplyValue(Obj(m), [Key("x")], a) == Ok(Obj(map[]))
      && ApplyValue(Obj(map[]), [Key("x")], b) == Ok(Obj(map["x" := Num(2)]))
      && MergeOperatorAsWritten(a, b) == Some(ObjectReplace(Num(1), Num(2)))
      && ApplyValue(Obj(m), [Key("x")], MergeOperatorAsWritten(a, b).value) == Ok(Obj(m))
      && Obj(m) != Obj(map["x" := Num(2)])
  {
    var m := map["x" := Num(1)];
    assert m - {"x"} == map[];
    assert map[]["x" := Num(2)] == map["x" := Num(2)];
    assert m["x"] != Num(2);
    assert m["x"] == Num(1) && Num(1) != Num(2);
  }

  // ---------------------------------------------------------------------
  // invert
  // ---------------------------------------------------------------------

  /** `invert` succeeds exactly on valid components, except that a ListMove
      whose path does not end in an index is `BadPath`, and inverting twice
      gives the component back. */
  lemma InvertInvolutive(c: Component)
    ensures !ValidComponent(c) ==> Invert(c) == Err(InvalidOperation)
    ensures ValidComponent(c) && c.operator.ListMove? ==> (Invert(c).Ok? <==> Last(c.path).Index?)
    ensures ValidComponent(c) && !c.operator.ListMove? ==> Invert(c).Ok?
    ensures Invert(c).Ok? ==> ValidComponent(Invert(c).value) && Invert(Invert(c).value) == Ok(c)
  {
    if ValidComponent(c) && c.operator.ListMove? {
      var n := |c.path| - 1;
      var (path, replaced) := ReplaceAt(c.path, n, Index(c.operator.to));
      assert replaced == Some(c.path[n]);
      if replaced.value.Index? {
        var d := Component(path, ListMove(replaced.value.i));
        assert path[n] == Index(c.operator.to);
        var (path2, replaced2) := ReplaceAt(path, n, Index(replaced.value.i));
        assert replaced2 == Some(Index(c.operator.to));
        assert path2 == c.path;
      }
    }
  }

  /** At the place `c` acts on `t`, `c` applies and its inverse, acting at
      the same place, puts `t` back. */
  predicate InverseRestores(t: Json, c: Component) {
    c.path != [] && Invert(c).Ok? &&
    var inv := Invert(c).value;
    var t1 := ApplyValue(t, [Last(c.path)], c.operator);
    && t1.Ok? && |inv.path| == |c.path| && inv.path[..|inv.path| - 1] == c.path[..|c.path| - 1]
    && ApplyValue(t1.value, [Last(inv.path)], inv.operator) == Ok(t)
  }

  /** At the place it acts, the inverse of an operator that applied as
      json0 expects puts the value back. */
  lemma InvertUndoesLocal(t: Json, c: Component)
    requires ValidComponent(c) && Expects(t, Last(c.path), c.operator)
    ensures InverseRestores(t, c)
  {
    var e := Last(c.path);
    match c.operator {
      case ListMove(j) => InvertUndoesMove(t, c);
      case AddNumber(d) => InvertUndoesAdd(t, c);
      case ObjectInsert(x) => InvertUndoesInObject(t.fields, c);
      case ObjectDelete(x) => InvertUndoesInObject(t.fields, c);
      case ObjectReplace(nv, o) => InvertUndoesInObject(t.fields, c);
      case ListInsert(x) => InvertUndoesInList(t.items, c);
      case ListDelete(x) => InvertUndoesInList(t.items, c);
      case ListReplace(nv, o) => InvertUndoesInList(t.items, c);
    }
  }

  lemma InvertUndoesInObject(m: map<string, Json>, c: Component)
    requires ValidComponent(c) && Expects(Obj(m), Last(c.path), c.operator)
    requires c.operator.ObjectInsert? || c.operator.ObjectDelete? || c.operator.ObjectReplace?
    ensures InverseRestores(Obj(m), c)
  {
    var k := Last(c.path).k;
    match c.operator {
      case ObjectInsert(x) =>
        assert m[k := x] - {k} == m;
      case ObjectDelete(x) =>
        assert (m - {k})[k := x] == m;
      case ObjectReplace(nv, o) =>
        assert m[k := nv][k := o] == m;
    }
  }

  lemma InvertUndoesInList(s: seq<Json>, c: Component)
    requires ValidComponent(c) && Expects(Arr(s), Last(c.path), c.operator)
    requires c.operator.ListInsert? || c.operator.ListDelete? || c.operator.ListReplace?
    ensures InverseRestores(Arr(s), c)
  {
    var i := Last(c.path).i;
    match c.operator {
      case ListInsert(x) =>
        assert RemoveAt(InsertAt(s, i, x), i) == s;
      case ListDelete(x) =>
        assert InsertAt(RemoveAt(s, i), i, x) == s;
      case ListReplace(nv, o) =>
        assert s[i := nv][i := o] == s;
    }
  }

  lemma InvertUndoesMove(t: Json, c: Component)
    requires ValidComponent(c) && c.operator.ListMove? && Expects(t, Last(c.path), c.operator)
    ensures InverseRestores(t, c)
  {
    var n := |c.path| - 1;
    var e := Last(c.path);
    var j := c.operator.to;
    var (path, replaced) := ReplaceAt(c.path, n, Index(j));
    assert replaced == Some(e) && path[n] == Index(j);
    assert path[..n] == c.path[..n];
    assert Invert(c) == Ok(Component(path, ListMove(e.i)));
    MoveBackRestores(t.items, e.i, j);
  }

  /** Moving an element from `i` to `j` and then from `j` back to `i`
      restores the list. */
  lemma MoveBackRestores(s: seq<Json>, i: nat, j: nat)
    requires i < |s| && j < |s|
    ensures ApplyValue(Arr(s), [Index(i)], ListMove(j)).Ok?
    ensures ApplyValue(ApplyValue(Arr(s), [Index(i)], ListMove(j)).value, [Index(j)], ListMove(i)) == Ok(Arr(s))
  {
    ListMoveRelocates(s, i, j);
    if i != j {
      var d := RemoveAt(s, i);
      var r := InsertAt(d, j, s[i]);
      assert ApplyList(s, [Index(i)], ListMove(j)) == Ok(r);
      assert ApplyList(r, [Index(j)], ListMove(i)) == Ok(InsertAt(RemoveAt(r, j), i, s[i]));
      RemoveInserted(d, j, s[i]);
      InsertRemoved(s, i);
    }
  }

  /** Removing what was just inserted. */
  lemma RemoveInserted(d: seq<Json>, j: nat, x: Json)
    requires j <= |d|
    ensures RemoveAt(InsertAt(d, j, x), j) == d
  {
    assert forall k :: 0 <= k < |d| ==> RemoveAt(InsertAt(d, j, x), j)[k] == d[k];
  }

  /** Putting a removed element back where it was. */
  lemma InsertRemoved(s: seq<Json>, i: nat)
    requires i < |s|
    ensures InsertAt(RemoveAt(s, i), i, s[i]) == s
  {
    assert forall k :: 0 <= k < |s| ==> InsertAt(RemoveAt(s, i), i, s[i])[k] == s[k];
  }

  lemma InvertUndoesAdd(t: Json, c: Component)
    requires ValidComponent(c) && c.operator.AddNumber? && Expects(t, Last(c.path), c.operator)
    ensures InverseRestores(t, c)
  {
    var e := Last(c.path);
    var d := c.operator.delta;
    assert Invert(c) == Ok(Component(c.path, AddNumber(Num(-d.n))));
    if t.Arr? {
      var s := t.items;
      assert s[e.i := Num(s[e.i].n + d.n)][e.i := Num(s[e.i].n + d.n + -d.n)] == s;
    } else if t.Obj? {
      var m := t.fields;
      var x := m[e.k].n;
      assert ApplyValue(m[e.k], [e], AddNumber(d)) == Ok(Num(x + d.n));
      assert ApplyValue(Num(x + d.n), [e], AddNumber(Num(-d.n))) == Ok(Num(x));
      assert m[e.k := Num(x + d.n)][e.k := Num(x)] == m;
    }
  }

  /** The round trip of `invert` at any depth: applying a component as
      json0 expects and then its inverse gives the value back. */
  lemma InvertUndoes(v: Json, c: Component)
    requires ValidComponent(c) && ExpectsAt(v, c.path, c.operator)
    ensures Invert(c).Ok?
    ensures var v1 := ApplyValue(v, c.path, c.operator);
      v1.Ok? && ApplyValue(v1.value, Invert(c).value.path, Invert(c).value.operator) == Ok(v)
  {
    var p := c.path;
    var t := Parent(v, p).value;
    InvertUndoesLocal(t, c);
    var inv := Invert(c).value;
    var t1 := ApplyValue(t, [Last(p)], c.operator).value;
    ApplyThroughParent(v, p, c.operator);
    var v1 := WithParent(v, p, t1);
    WithParentLaws(v, p, inv.path, t1, t);
    ApplyThroughParent(v1, inv.path, inv.operator);
  }

  // ---------------------------------------------------------------------
  // append
  // ---------------------------------------------------------------------

  /** Moving an element to its own index changes nothing wherever it
      applies; this is why `append` drops such a move. */
  lemma IdentityMoveChangesNothing(v: Json, p: Path, j: nat)
    requires p != [] && Last(p) == Index(j)
    ensures ApplyValue(v, p, ListMove(j)).Ok? ==> ApplyValue(v, p, ListMove(j)) == Ok(v)
  {
    if |p| > 1 {
      ApplyAtParent(v, p, ListMove(j));
    }
    if Parent(v, p).Some? {
      var t := Parent(v, p).value;
      ApplyThroughParent(v, p, ListMove(j));
      WithParentLaws(v, p, p, t, t);
      var local := ApplyValue(t, [Index(j)], ListMove(j));
      assert local.Ok? ==> local == Ok(t);
    }
  }

  /** `append` keeps the meaning of the operation: wherever running the
      operation and then the component succeeds, running the appended
      operation ends in the same value. Only when the component merges into
      the last one (same path and an entry in the merge table) must that
      last component meet its json0 precondition (merging trusts, for
      instance, that a delete removes the value it names). */
  lemma AppendSound(v: Json, operation: seq<Component>, c: Component)
    requires Append(operation, c).Ok?
    requires Run(v, operation + [c]).1.Ok?
    requires (operation != [] && operation[|operation| - 1].path == c.path
      && !(c.operator.ListMove? && Last(c.path) == Index(c.operator.to))
      && MergeDefined(operation[|operation| - 1].operator, c.operator)
      && MergeOperator(operation[|operation| - 1].operator, c.operator).Some?) ==>
      ExpectsAt(Run(v, operation[..|operation| - 1]).0, c.path, operation[|operation| - 1].operator)
    ensures Run(v, Append(operation, c).value) == Run(v, operation + [c])
  {
    if c.operator.ListMove? && Last(c.path) == Index(c.operator.to) {
      AppendIdentityMoveSound(v, operation, c);
    } else if operation != [] {
      var last := operation[|operation| - 1];
      if last.path == c.path && MergeOperator(last.operator, c.operator).Some? {
        AppendMergeSound(v, operation, c);
      }
    }
  }

  lemma AppendIdentityMoveSound(v: Json, operation: seq<Component>, c: Component)
    requires Append(operation, c).Ok? && c.operator.ListMove? && Last(c.path) == Index(c.operator.to)
    requires Run(v, operation + [c]).1.Ok?
    ensures Run(v, Append(operation, c).value) == Run(v, operation + [c])
  {
    var p := c.path;
    RunSplit(v, operation, [c]);
    assert Append(operation, c) == Ok(operation);
    assert Run(v, operation).1.Ok?;
    var w := Run(v, operation).0;
    IdentityMoveChangesNothing(w, p, c.operator.to);
    assert [c][1..] == [];
    assert ApplyValue(w, p, c.operator) == Ok(w);
    assert Run(w, [c]) == Run(w, []) == (w, Ok(()));
    assert Run(v, operation + [c]) == Run(w, [c]);
    assert Run(v, operation).1.value == ();
    assert Run(v, operation) == (w, Ok(()));
  }

  lemma AppendMergeSound(v: Json, operation: seq<Component>, c: Component)
    requires Append(operation, c).Ok? && !(c.operator.ListMove? && Last(c.path) == Index(c.operator.to))
    requires operation != [] && operation[|operation| - 1].path == c.path
    requires MergeOperator(operation[|operation| - 1].operator, c.operator).Some?
    requires Run(v, operation + [c]).1.Ok?
    requires ExpectsAt(Run(v, operation[..|operation| - 1]).0, c.path, operation[|operation| - 1].operator)
    ensures Run(v, Append(operation, c).value) == Run(v, operation + [c])
  {
    var p := c.path;
    var n := |operation|;
    var last := operation[n - 1];
    var pre := operation[..n - 1];
    assert operation + [c] == pre + [last, c];
    RunSplit(v, pre, [last, c]);
    var w := Run(v, pre).0;
    MergeSound(w, p, last.operator, c.operator);
    var m := MergeOperator(last.operator, c.operator).value;
    assert [last, c][1..] == [c];
    assert [c][1..] == [];
    if m.Noop? {
      assert Append(operation, c) == Ok(pre);
      assert pre + [] == pre;
      RunSplit(v, pre, []);
    } else {
      assert Append(operation, c) == Ok(pre + [Component(p, m)]);
      RunSplit(v, pre, [Component(p, m)]);
      assert [Component(p, m)][1..] == [];
    }
  }

  /** What `AppendSound` asks of one appended component: when it merges
      into the operation's last component (same path, not an identity move,
      and an entry in the merge table), that last component's json0
      precondition held where it was applied. */
  predicate AppendExpected(v: Json, operation: seq<Component>, c: Component) {
    (operation != [] && operation[|operation| - 1].path == c.path && c.path != []
      && !(c.operator.ListMove? && Last(c.path) == Index(c.operator.to))
      && MergeDefined(operation[|operation| - 1].operator, c.operator)
      && MergeOperator(operation[|operation| - 1].operator, c.operator).Some?) ==>
      ExpectsAt(Run(v, operation[..|operation| - 1]).0, c.path, operation[|operation| - 1].operator)
  }

  /** `AppendExpected` at every step of appending `cs` one by one. */
  predicate AppendsExpected(v: Json, operation: seq<Component>, cs: seq<Component>)
    decreases |cs|
  {
    cs != [] ==>
      && AppendExpected(v, operation, cs[0])
      && match Append(operation, cs[0])
         case Ok(next) => AppendsExpected(v, next, cs[1..])
         case Err(_) => true
  }

  /** Appending components one by one, merging where `Append` merges, runs
      like running the operation and then the components, wherever that run
      succeeds and json0's preconditions hold at every merge. */
  lemma {:induction false} AppendAllSound(v: Json, operation: seq<Component>, cs: seq<Component>)
    requires AppendAll(operation, cs).Ok?
    requires Run(v, operation + cs).1.Ok?
    requires AppendsExpected(v, operation, cs)
    ensures Run(v, AppendAll(operation, cs).value) == Run(v, operation + cs)
    decreases |cs|
  {
    if cs == [] {
      assert operation + cs == operation;
    } else {
      var c := cs[0];
      var next := Append(operation, c).value;
      assert operation + cs == (operation + [c]) + cs[1..];
      RunSplit(v, operation + [c], cs[1..]);
      AppendSound(v, operation, c);
      RunSplit(v, next, cs[1..]);
      AppendAllSound(v, next, cs[1..]);
    }
  }

  /** `compose(a, b)` runs like `a` followed by `b`, under the conditions of
      `AppendAllSound`. */
  lemma ComposeSound(v: Json, a: seq<Component>, b: seq<Component>)
    requires ComposeSpec(a, b).Ok?
    requires Run(v, a + b).1.Ok?
    requires AppendsExpected(v, a, b)
    ensures Run(v, ComposeSpec(a, b).value) == Run(v, a + b)
  {
    AppendAllSound(v, a, b);
  }

  /** Why the json0 precondition is needed: an ObjectInsert of a key that is
      already there, followed by the delete of the inserted value, composes
      to nothing, while the pair removes the key. */
  lemma ComposeInsertOverExistingKey()
    ensures var a := [Component([Key("k")], ObjectInsert(Num(2)))];
      var b := [Component([Key("k")], ObjectDelete(Num(2)))];
      var v := Obj(map["k" := Num(1)]);
      && ComposeSpec(a, b) == Ok([])
      && Run(v, ComposeSpec(a, b).value) == (v, Ok(()))
      && Run(v, a + b) == (Obj(map[]), Ok(()))
      && v != Obj(map[])
  {
    var a := [Component([Key("k")], ObjectInsert(Num(2)))];
    var b := [Component([Key("k")], ObjectDelete(Num(2)))];
    var m := map["k" := Num(1)];
    assert MergeOperator(ObjectInsert(Num(2)), ObjectDelete(Num(2))) == Some(Noop);
    assert b[1..] == [];
    assert Append(a, b[0]) == Ok([]);
    assert m["k" := Num(2)] - {"k"} == map[];
    RunStep(Obj(m), a[0], b);
    RunStep(Obj(map["k" := Num(2)]), b[0], []);
    assert a + b == [a[0]] + b;
  }
}
