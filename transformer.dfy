/** Rebasing, composing and inverting operations (src/transformer.rs).

    `transform_component` rebases one component against a concurrent base
    component; `transform_multi` and `transform_matrix` lift it to
    operations; `append` and `compose` concatenate operations, collapsing
    adjacent components with `merge`; `invert` builds the component that
    undoes one.

    The case table is defined once, `TransformComponentIn`, for two readings
    of the source. `AsWritten` is the code as it stands. `Corrected` differs
    in five places only: a base on an element of a top-level list still
    shifts sibling components although their paths share no prefix; where
    the new component is deeper than the base it reads and shifts the new
    path at the base's last position rather than at its own last one; a
    ListMove target is the index `Index(lm)` rather than the path element at
    position `lm`; a LEFT ObjectDelete against a Replace of the same key
    deletes the replacing value rather than vanishing; and a Delete or
    Replace above a deeper base folds the base's effect into its old value
    (`FoldBelow`) where `consume` never acts. `transform_multi` has one
    correction of its own (see `NextBase`). The rest of the model uses the
    corrected reading. */
module Transformer {
  import opened Values
  import opened Paths
  import opened Operation
  import opened JsonDocument
  import opened OperationConsume

  /** Which of two concurrent components wins a tie. */
  datatype Side = Left | Right

  datatype Reading = AsWritten | Corrected

  // ---------------------------------------------------------------------
  // Helpers
  // ---------------------------------------------------------------------

  /** `Option::unwrap`: a missing value panics. */
  function Unwrap<T>(o: Option<T>): Result<T> {
    match o
    case Some(x) => Ok(x)
    case None => Err(Panic)
  }

  /** `n - 1` on a `usize`: zero underflows, which panics in a debug build
      (a release build would wrap to `usize::MAX`). */
  function MoveDown(n: nat): Result<Operator> {
    if n == 0 then Err(Panic) else Ok(ListMove(n - 1))
  }

  /** The new value an Insert or Replace writes. */
  function WrittenValue(op: Operator): Json
    requires op.ObjectInsert? || op.ObjectReplace? || op.ListInsert? || op.ListReplace?
  {
    match op
    case ObjectInsert(v) => v
    case ListInsert(v) => v
    case ObjectReplace(n, _) => n
    case ListReplace(n, _) => n
  }

  /** `is_equivalent_to_noop`: a Noop, or a Replace whose new and old values
      are equal. */
  predicate IsEquivalentToNoop(op: Operator) {
    match op
    case Noop => true
    case ListReplace(n, o) => n == o
    case ObjectReplace(n, o) => n == o
    case _ => false
  }

  /** The position of the new path at which a list base component's last
      element is compared and shifted. */
  function ShiftPosition(c: Component, base: Component, reading: Reading): (pos: nat)
    requires c.path != [] && base.path != [] && |base.path| <= |c.path|
    ensures pos < |c.path|
  {
    if reading == AsWritten then |c.path| - 1 else |base.path| - 1
  }

  /** Where a ListMove `lm` sends its element, as read from `path`: the
      source reads the path element at position `lm`; the intended target is
      the index `lm` itself. */
  function MoveTarget(path: Path, lm: nat, reading: Reading): Result<PathElement> {
    if reading == AsWritten then Unwrap(Get(path, lm)) else Ok(Index(lm))
  }

  /** A base on an element of the top-level value and a new component on a
      sibling of it (or below one): their paths share no prefix, yet a list
      base still shifts the new component's index. */
  predicate TopLevelSiblings(c: Component, base: Component) {
    |base.path| == 1 && c.path != []
  }

  /** The shape of the inputs once `transform_component` has passed its
      three early exits and its deeper-base case: both paths non-empty and
      the base no deeper than the new component. */
  predicate Rebasable(c: Component, base: Component) {
    c.path != [] && base.path != [] && |base.path| <= |c.path|
  }

  // ---------------------------------------------------------------------
  // transform_component
  // ---------------------------------------------------------------------

  /** `transform_component(c, base, side)`: `c` rewritten to apply after
      `base`, as zero, one or two components. */
  function TransformComponentIn(c: Component, base: Component, side: Side, reading: Reading): Result<seq<Component>> {
    var common := MaxCommonPath(base.path, c.path);
    if common == [] && !(reading == Corrected && TopLevelSiblings(c, base)) then Ok([c])
    else if IsEquivalentToNoop(c.operator) || IsEquivalentToNoop(base.operator) then Ok([c])
    else
      var newOperate := OperatePath(c.path);
      var baseOperate := OperatePath(base.path);
      if |common| < |newOperate| && |common| < |baseOperate| then Ok([c])
      else if |baseOperate| > |newOperate| then
        if IsPrefixOf(c.path, base.path) then
          var consumed :- if reading == AsWritten then Consume(c, common, base) else FoldBelow(c, base);
          Ok([consumed])
        else Ok([c])
      else
        match base.operator
        case ListReplace(v, _) => AgainstListReplace(c, base, side, v)
        case ListInsert(_) => AgainstListInsert(c, base, side, reading)
        case ListDelete(_) => AgainstListDelete(c, base, reading)
        case ObjectReplace(v, _) => AgainstObjectReplace(c, base, side, v, reading)
        case ObjectInsert(v) => AgainstObjectInsert(c, base, side, v)
        case ObjectDelete(_) => AgainstObjectDelete(c, base, side)
        case ListMove(lm) => AgainstListMove(c, base, side, lm, reading)
        case _ => Ok([c])
  }

  /** The table as the source writes it. */
  function TransformComponentAsWritten(c: Component, base: Component, side: Side): Result<seq<Component>> {
    TransformComponentIn(c, base, side, AsWritten)
  }

  /** The table with the two position corrections. */
  function TransformComponent(c: Component, base: Component, side: Side): Result<seq<Component>> {
    TransformComponentIn(c, base, side, Corrected)
  }

  /** Against a base ListReplace: at or below the replaced element the new
      component is dropped, except that a LEFT ListReplace of the same
      element takes the base's new value as its old one. */
  function AgainstListReplace(c: Component, base: Component, side: Side, baseNew: Json): Result<seq<Component>> {
    if IsPrefixOf(base.path, c.path) then
      if |base.path| == |c.path| && side == Left && c.operator.ListReplace? then
        Ok([Component(c.path, ListReplace(c.operator.newValue, baseNew))])
      else Ok([])
    else Ok([c])
  }

  /** Against a base ListInsert: two inserts at the same place keep LEFT in
      front; otherwise an insert at or before the new component's position
      shifts it up by one, and a ListMove target at or after it moves up. */
  function AgainstListInsert(c: Component, base: Component, side: Side, reading: Reading): Result<seq<Component>>
    requires Rebasable(c, base)
  {
    var same := |base.path| == |c.path|;
    if c.operator.ListInsert? && same && IsPrefixOf(base.path, c.path) then
      Ok([if side == Right then c.(path := IncreaseIndexAt(c.path, |c.path| - 1)) else c])
    else
      var pos := ShiftPosition(c, base, reading);
      var path := if ElemLe(Last(base.path), c.path[pos]) then IncreaseIndexAt(c.path, pos) else c.path;
      var op :=
        if c.operator.ListMove? && same && ElemLe(Last(base.path), Index(c.operator.to))
        then ListMove(c.operator.to + 1) else c.operator;
      Ok([Component(path, op)])
  }

  /** Against a base ListDelete: a later element shifts down; the deleted
      element's own ListDelete is dropped, its ListReplace becomes a
      ListInsert of the new value, and anything below it is dropped; a
      ListMove of it is dropped and one past it lowers its target. */
  function AgainstListDelete(c: Component, base: Component, reading: Reading): Result<seq<Component>>
    requires Rebasable(c, base)
  {
    var pos := ShiftPosition(c, base, reading);
    var same := |base.path| == |c.path|;
    var basePrefix := IsPrefixOf(base.path, c.path);
    var deleted :- Unwrap(Get(base.path, pos));
    var mine := c.path[pos];
    if c.operator.ListMove? && same && basePrefix then Ok([])
    else
      var op :=
        if c.operator.ListMove? && same
           && (ElemLt(deleted, Index(c.operator.to)) || (deleted == Index(c.operator.to) && ElemLt(mine, Index(c.operator.to))))
        then ListMove(c.operator.to - 1) else c.operator;
      if ElemLt(deleted, mine) then Ok([Component(DecreaseIndexAt(c.path, pos), op)])
      else if basePrefix then
        if !same then Ok([])
        else if c.operator.ListDelete? then Ok([])
        else if c.operator.ListReplace? then Ok([Component(c.path, ListInsert(c.operator.newValue))])
        else Ok([Component(c.path, op)])
      else Ok([Component(c.path, op)])
  }

  /** Against a base ObjectReplace: below the replaced key the new component
      is dropped; at the key an Insert or Replace survives only on the LEFT,
      as a Replace of the base's new value. The source drops a LEFT
      ObjectDelete of the key too; in the corrected reading it deletes the
      base's new value instead, as the RIGHT side's outcome does. */
  function AgainstObjectReplace(c: Component, base: Component, side: Side, baseNew: Json, reading: Reading): Result<seq<Component>> {
    if IsPrefixOf(base.path, c.path) then
      if |base.path| != |c.path| then Ok([])
      else if c.operator.ObjectReplace? || c.operator.ObjectInsert? then
        if side == Right then Ok([])
        else Ok([Component(c.path, ObjectReplace(WrittenValue(c.operator), baseNew))])
      else if c.operator.ObjectDelete? && side == Left && reading == Corrected then
        Ok([Component(c.path, ObjectDelete(baseNew))])
      else Ok([])
    else Ok([c])
  }

  /** Against a base ObjectInsert at or above the new component: a LEFT
      Insert or Replace at the same key replaces the base's value, a deeper
      one first deletes the base's value and then applies; on the RIGHT both
      are dropped, as is a RIGHT ObjectDelete. */
  function AgainstObjectInsert(c: Component, base: Component, side: Side, baseValue: Json): Result<seq<Component>> {
    if IsPrefixOf(base.path, c.path) then
      if c.operator.ObjectReplace? || c.operator.ObjectInsert? then
        if side == Left then
          if |base.path| == |c.path| then Ok([Component(base.path, ObjectReplace(WrittenValue(c.operator), baseValue))])
          else Ok([Component(base.path, ObjectDelete(baseValue)), c])
        else Ok([])
      else if c.operator.ObjectDelete? && side == Right then Ok([])
      else Ok([c])
    else Ok([c])
  }

  /** Against a base ObjectDelete: below the deleted key everything is
      dropped; at the key a LEFT Insert or Replace becomes an ObjectInsert of
      its value and anything else is dropped. */
  function AgainstObjectDelete(c: Component, base: Component, side: Side): Result<seq<Component>> {
    if IsPrefixOf(base.path, c.path) then
      if |base.path| != |c.path| then Ok([])
      else if (c.operator.ObjectReplace? || c.operator.ObjectInsert?) && side == Left then
        Ok([Component(c.path, ObjectInsert(WrittenValue(c.operator)))])
      else Ok([])
    else Ok([c])
  }

  /** Against a base ListMove: a concurrent move of the same list goes to
      `MoveAgainstMove`; an insert into the list is shifted by the removal
      and the re-insertion; anything else follows its element. */
  function AgainstListMove(c: Component, base: Component, side: Side, lm: nat, reading: Reading): Result<seq<Component>>
    requires Rebasable(c, base)
  {
    var same := |base.path| == |c.path|;
    if same && c.operator.ListMove? then MoveAgainstMove(c, base, side, lm, c.operator.to, reading)
    else if same && c.operator.ListInsert? then
      var pos := |c.path| - 1;
      var from := base.path[pos];
      var to :- MoveTarget(base.path, lm, reading);
      var p := c.path[pos];
      var path1 := if ElemLt(from, p) then DecreaseIndexAt(c.path, pos) else c.path;
      var path2 := if ElemLt(to, p) then IncreaseIndexAt(path1, pos) else path1;
      Ok([Component(path2, c.operator)])
    else
      var pos := ShiftPosition(c, base, reading);
      var from :- Unwrap(Get(base.path, pos));
      var to :- MoveTarget(base.path, lm, reading);
      var p := c.path[pos];
      if p == from then Ok([Component(ReplaceAt(c.path, pos, to).0, c.operator)])
      else
        var path1 := if ElemLt(from, p) then DecreaseIndexAt(c.path, pos) else c.path;
        var path2 := if ElemLt(to, p) || (p == to && ElemLt(to, from)) then IncreaseIndexAt(path1, pos) else path1;
        Ok([Component(path2, c.operator)])
  }

  /** A ListMove against a concurrent ListMove of the same list. The
      operator updates overwrite one another rather than accumulate, as in
      the source. */
  function MoveAgainstMove(c: Component, base: Component, side: Side, lm: nat, newLm: nat, reading: Reading): Result<seq<Component>>
    requires Rebasable(c, base) && |base.path| == |c.path| && c.operator == ListMove(newLm)
  {
    var pos := |c.path| - 1;
    var from := c.path[pos];
    var to :- if reading == AsWritten then Unwrap(Get(c.path, lm)) else Ok(Index(newLm));
    var otherFrom := base.path[pos];
    var otherTo :- MoveTarget(base.path, lm, reading);
    if otherFrom == otherTo then Ok([c])
    else if from == otherFrom then
      if side == Left then Ok([Component(ReplaceAt(c.path, pos, otherTo).0, c.operator)]) else Ok([])
    else
      // where the moved element now is
      var path1 := if ElemLt(otherFrom, from) then DecreaseIndexAt(c.path, pos) else c.path;
      var path2 :=
        if ElemLt(otherTo, from) || (from == otherTo && ElemLt(otherTo, otherFrom))
        then IncreaseIndexAt(path1, pos) else path1;
      var op1 := if from == otherTo && from == to then ListMove(newLm + 1) else c.operator;
      // where it goes
      var op2 :-
        if ElemLt(otherFrom, to) || (to == otherFrom && ElemLt(from, to)) then MoveDown(newLm) else Ok(op1);
      var op3 :-
        if ElemLt(otherTo, to) then Ok(ListMove(newLm + 1))
        else if to == otherTo then
          if (ElemLt(otherFrom, otherTo) && ElemLt(from, to)) || (ElemLt(otherTo, otherFrom) && ElemLt(to, from)) then
            Ok(if side == Right then ListMove(newLm + 1) else op2)
          else if ElemLt(from, to) then Ok(ListMove(newLm + 1))
          else if to == otherFrom then MoveDown(newLm)
          else Ok(op2)
        else Ok(op2);
      Ok([Component(path2, op3)])
  }

  // ---------------------------------------------------------------------
  // transform_multi, transform_matrix, transform
  // ---------------------------------------------------------------------

  /** `not_noop` (assumed): no base at all for a Noop component. */
  function NotNoop(c: Component): Option<Component> {
    if c.operator.Noop? then None else Some(c)
  }

  /** The base after it has been rebased over one component: the source
      asserts that exactly one component is left. A base absorbed by the
      component (an empty result) ends the base in the corrected reading. */
  function NextBase(rebased: seq<Component>, reading: Reading): Result<Option<Component>> {
    if |rebased| == 1 then Ok(Some(rebased[0]))
    else if rebased == [] && reading == Corrected then Ok(None)
    else Err(Panic)
  }

  /** `transform_multi(ops, base)`: each component is rebased against the
      current base (LEFT), and the base against that component (RIGHT), so
      the base walks along the operation; once there is no base the
      remaining components pass unchanged. */
  function MultiIn(ops: seq<Component>, base: Option<Component>, reading: Reading): Result<(seq<Component>, Option<Component>)>
    decreases |ops|
  {
    if ops == [] then Ok(([], base))
    else
      match base
      case None =>
        var rest :- MultiIn(ops[1..], None, reading);
        Ok(([ops[0]] + rest.0, rest.1))
      case Some(b) =>
        var a :- TransformComponentIn(ops[0], b, Left, reading);
        var bb :- TransformComponentIn(b, ops[0], Right, reading);
        var next :- NextBase(bb, reading);
        var rest :- MultiIn(ops[1..], next, reading);
        Ok((a + rest.0, rest.1))
  }

  function OptionSeq(o: Option<Component>): seq<Component> {
    if o.Some? then [o.value] else []
  }

  /** The loop of `transform_matrix`: the operation is rebased against each
      base component in turn, and what is left of each base component is
      collected. */
  function MatrixLoopIn(ops: seq<Component>, bases: seq<Component>, reading: Reading): Result<(seq<Component>, seq<Component>)>
    decreases |bases|
  {
    if bases == [] then Ok((ops, []))
    else
      var step :- MultiIn(ops, NotNoop(bases[0]), reading);
      var rest :- MatrixLoopIn(step.0, bases[1..], reading);
      Ok((rest.0, OptionSeq(step.1) + rest.1))
  }

  /** `transform_matrix`: an empty side leaves both sides as they are. */
  function MatrixIn(ops: seq<Component>, bases: seq<Component>, reading: Reading): Result<(seq<Component>, seq<Component>)> {
    if ops == [] || bases == [] then Ok((ops, bases)) else MatrixLoopIn(ops, bases, reading)
  }

  /** `transform(operation, base)`: the operation rebased to apply after
      `base`, and `base` rebased to apply after the operation. */
  function TransformIn(ops: seq<Component>, bases: seq<Component>, reading: Reading): Result<(seq<Component>, seq<Component>)> {
    if bases == [] then Ok((ops, []))
    else
      var _ :- ValidateOperation(ops);
      var _ :- ValidateOperation(bases);
      if |ops| == 1 && |bases| == 1 then
        var a :- TransformComponentIn(ops[0], bases[0], Left, reading);
        var b :- TransformComponentIn(bases[0], ops[0], Right, reading);
        Ok((a, b))
      else MatrixIn(ops, bases, reading)
  }

  function Prefixed(out: seq<Component>, r: Result<(seq<Component>, Option<Component>)>): Result<(seq<Component>, Option<Component>)> {
    match r
    case Ok(x) => Ok((out + x.0, x.1))
    case Err(e) => Err(e)
  }

  function BasePrefixed(outB: seq<Component>, r: Result<(seq<Component>, seq<Component>)>): Result<(seq<Component>, seq<Component>)> {
    match r
    case Ok(x) => Ok((x.0, outB + x.1))
    case Err(e) => Err(e)
  }

  lemma PrefixedAppend(out: seq<Component>, a: seq<Component>, r: Result<(seq<Component>, Option<Component>)>)
    ensures Prefixed(out, Prefixed(a, r)) == Prefixed(out + a, r)
    ensures Prefixed([], r) == r
  {
    if r.Ok? {
      assert out + (a + r.value.0) == (out + a) + r.value.0;
      assert [] + r.value.0 == r.value.0;
    }
  }

  lemma BasePrefixedAppend(outB: seq<Component>, b: seq<Component>, r: Result<(seq<Component>, seq<Component>)>)
    ensures BasePrefixed(outB, BasePrefixed(b, r)) == BasePrefixed(outB + b, r)
    ensures BasePrefixed([], r) == r
  {
    if r.Ok? {
      assert outB + (b + r.value.1) == (outB + b) + r.value.1;
      assert [] + r.value.1 == r.value.1;
    }
  }

  method TransformMulti(operation: seq<Component>, baseOp: Component) returns (r: Result<(seq<Component>, Option<Component>)>)
    ensures r == MultiIn(operation, NotNoop(baseOp), Corrected)
  {
    var out: seq<Component> := [];
    var base := NotNoop(baseOp);
    var i := 0;
    PrefixedAppend([], [], MultiIn(operation, base, Corrected));
    while i < |operation|
      invariant 0 <= i <= |operation|
      invariant MultiIn(operation, NotNoop(baseOp), Corrected) == Prefixed(out, MultiIn(operation[i..], base, Corrected))
    {
      var op := operation[i];
      assert operation[i..][0] == op && operation[i..][1..] == operation[i + 1..];
      match base {
        case Some(b) =>
          var a := TransformComponent(op, b, Left);
          if a.Err? {
            return Err(a.error);
          }
          var bb := TransformComponent(b, op, Right);
          if bb.Err? {
            return Err(bb.error);
          }
          var next := NextBase(bb.value, Corrected);
          if next.Err? {
            return Err(next.error);
          }
          ghost var rest := MultiIn(operation[i + 1..], next.value, Corrected);
          PrefixedAppend(out, a.value, rest);
          base := next.value;
          out := out + a.value;
        case None =>
          ghost var rest := MultiIn(operation[i + 1..], None, Corrected);
          PrefixedAppend(out, [op], rest);
          out := out + [op];
      }
      i := i + 1;
    }
    assert operation[i..] == [];
    assert out + [] == out;
    return Ok((out, base));
  }

  method TransformMatrix(operation: seq<Component>, baseOperation: seq<Component>) returns (r: Result<(seq<Component>, seq<Component>)>)
    ensures r == MatrixIn(operation, baseOperation, Corrected)
  {
    if operation == [] || baseOperation == [] {
      return Ok((operation, baseOperation));
    }
    var outB: seq<Component> := [];
    var ops := operation;
    BasePrefixedAppend([], [], MatrixLoopIn(ops, baseOperation, Corrected));
    for i := 0 to |baseOperation|
      invariant MatrixLoopIn(operation, baseOperation, Corrected) == BasePrefixed(outB, MatrixLoopIn(ops, baseOperation[i..], Corrected))
    {
      assert baseOperation[i..][0] == baseOperation[i] && baseOperation[i..][1..] == baseOperation[i + 1..];
      var step := TransformMulti(ops, baseOperation[i]);
      if step.Err? {
        return Err(step.error);
      }
      ghost var rest := MatrixLoopIn(step.value.0, baseOperation[i + 1..], Corrected);
      BasePrefixedAppend(outB, OptionSeq(step.value.1), rest);
      ops := step.value.0;
      if step.value.1.Some? {
        outB := outB + [step.value.1.value];
      }
    }
    assert baseOperation[|baseOperation|..] == [];
    assert outB + [] == outB;
    return Ok((ops, outB));
  }

  method Transform(operation: seq<Component>, baseOperation: seq<Component>) returns (r: Result<(seq<Component>, seq<Component>)>)
    ensures r == TransformIn(operation, baseOperation, Corrected)
  {
    if baseOperation == [] {
      return Ok((operation, []));
    }
    var valid := ValidateOperation(operation);
    if valid.Err? {
      return Err(valid.error);
    }
    valid := ValidateOperation(baseOperation);
    if valid.Err? {
      return Err(valid.error);
    }
    if |operation| == 1 && |baseOperation| == 1 {
      var a := TransformComponent(operation[0], baseOperation[0], Left);
      if a.Err? {
        return Err(a.error);
      }
      var b := TransformComponent(baseOperation[0], operation[0], Right);
      if b.Err? {
        return Err(b.error);
      }
      return Ok((a.value, b.value));
    }
    r := TransformMatrix(operation, baseOperation);
  }

  // ---------------------------------------------------------------------
  // append, compose, invert
  // ---------------------------------------------------------------------

  /** `append(operation, c)`: after validating `c`, a ListMove onto its own
      position is dropped; otherwise `c` is merged into the last component
      when both act on the same path (and the pair is popped when the merge
      gives a Noop), or pushed. Merging two AddNumbers reads the last
      component's operand with `as_i64().unwrap()`, which panics on a
      non-number. */
  function Append(operation: seq<Component>, c: Component): Result<seq<Component>> {
    var _ :- ValidateComponent(c);
    if c.operator.ListMove? && Last(c.path) == Index(c.operator.to) then Ok(operation)
    else if operation == [] then Ok([c])
    else
      var last := operation[|operation| - 1];
      if last.path == c.path then
        if !MergeDefined(last.operator, c.operator) then Err(Panic)
        else
          var (merged, m) := Merge(last, c);
          if merged then
            Ok(if m.operator.Noop? then operation[..|operation| - 1] else operation[..|operation| - 1] + [m])
          else Ok(operation + [c])
      else Ok(operation + [c])
  }

  /** Appends the components of `cs` one by one, stopping at the first
      failure. */
  function AppendAll(operation: seq<Component>, cs: seq<Component>): Result<seq<Component>>
    decreases |cs|
  {
    if cs == [] then Ok(operation)
    else
      var next :- Append(operation, cs[0]);
      AppendAll(next, cs[1..])
  }

  /** `compose(a, b)`: `a` is validated, then `b`'s components are appended
      to it in order. */
  function ComposeSpec(a: seq<Component>, b: seq<Component>): Result<seq<Component>> {
    var _ :- ValidateOperation(a);
    AppendAll(a, b)
  }

  method Compose(a: seq<Component>, b: seq<Component>) returns (r: Result<seq<Component>>)
    ensures r == ComposeSpec(a, b)
  {
    var valid := ValidateOperation(a);
    if valid.Err? {
      return Err(valid.error);
    }
    var ret := a;
    for i := 0 to |b|
      invariant AppendAll(a, b) == AppendAll(ret, b[i..])
    {
      assert b[i..][0] == b[i] && b[i..][1..] == b[i + 1..];
      var next := Append(ret, b[i]);
      if next.Err? {
        return Err(next.error);
      }
      ret := next.value;
    }
    assert b[|b|..] == [];
    return Ok(ret);
  }

  /** `invert(c)`: the component that undoes `c`. Inserts and deletes swap,
      a Replace swaps its values, an AddNumber negates its delta, and a
      ListMove from `i` to `j` becomes one from `j` back to `i`; a ListMove
      whose last path element is not an index is `BadPath`. */
  function Invert(c: Component): Result<Component> {
    var _ :- ValidateComponent(c);
    match c.operator
    case Noop => Ok(c)
    case AddNumber(n) => Ok(Component(c.path, AddNumber(Num(-n.n))))
    case ListInsert(v) => Ok(Component(c.path, ListDelete(v)))
    case ListDelete(v) => Ok(Component(c.path, ListInsert(v)))
    case ListReplace(n, o) => Ok(Component(c.path, ListReplace(o, n)))
    case ObjectInsert(v) => Ok(Component(c.path, ObjectDelete(v)))
    case ObjectDelete(v) => Ok(Component(c.path, ObjectInsert(v)))
    case ObjectReplace(n, o) => Ok(Component(c.path, ObjectReplace(o, n)))
    case ListMove(to) =>
      var (path, replaced) := ReplaceAt(c.path, |c.path| - 1, Index(to));
      if replaced.Some? && replaced.value.Index? then Ok(Component(path, ListMove(replaced.value.i))) else Err(BadPath)
  }
}
