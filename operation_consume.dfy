/** `OperationComponent::consume` (src/operation.rs). It lives in its own
    module because it applies an operator to a stored old value, which needs
    the apply engine of `JsonDocument`. */
module OperationConsume {
  import opened Values
  import opened Paths
  import opened Operation
  import opened JsonDocument

  /** Whether the operator carries an expected old value that `consume`
      rewrites: the Delete and Replace variants. */
  predicate HasOldValue(op: Operator) {
    op.ListDelete? || op.ListReplace? || op.ObjectDelete? || op.ObjectReplace?
  }

  function OldValue(op: Operator): Json
    requires HasOldValue(op)
  {
    match op
    case ListDelete(v) => v
    case ObjectDelete(v) => v
    case ListReplace(_, v) => v
    case ObjectReplace(_, v) => v
  }

  function WithOldValue(op: Operator, v: Json): (r: Operator)
    requires HasOldValue(op)
    ensures HasOldValue(r) && OldValue(r) == v
  {
    match op
    case ListDelete(_) => ListDelete(v)
    case ObjectDelete(_) => ObjectDelete(v)
    case ListReplace(n, _) => ListReplace(n, v)
    case ObjectReplace(n, _) => ObjectReplace(n, v)
  }

  /** `consume(self, common, op)`: unless `op` is deeper than `self` or
      `common` is longer than either path, a Delete or Replace `self` has
      `op`'s operator applied to its old value at the rest of its own path
      below `common`, and its path is cut back to `common`'s length. */
  function Consume(self: Component, common: Path, op: Component): Result<Component> {
    if |op.path| > |self.path| || |common| > |self.path| || |common| > |op.path| then Ok(self)
    else if HasOldValue(self.operator) then
      var (p1, p2) := SplitAt(self.path, |common|);
      var v :- ApplyValue(OldValue(self.operator), p2, op.operator);
      Ok(Component(p1, WithOldValue(self.operator, v)))
    else Ok(self)
  }

  /** What `consume` is meant to do at its call site in
      `transform_component`: a Delete or Replace `self` whose path is a proper
      prefix of `op`'s has `op`'s operator applied to its old value, at the
      rest of `op`'s path below `self`'s, so that its guard still matches the
      value `op` has edited. A failure of that apply is returned unchanged;
      any other `self` is returned as it is. */
  function FoldBelow(self: Component, op: Component): Result<Component> {
    if IsPrefixOf(self.path, op.path) && |op.path| > |self.path| && HasOldValue(self.operator) then
      var v :- ApplyValue(OldValue(self.operator), op.path[|self.path|..], op.operator);
      Ok(Component(self.path, WithOldValue(self.operator, v)))
    else Ok(self)
  }

  /** The fold tracks the document: when `self`'s old value is what the
      document holds at `self`'s path, applying `op` to the document
      succeeds exactly when the fold does, and afterwards the document holds
      the folded old value at that path, with the rest of the document as
      `op` left it. So the folded `self` still finds the value it expects. */
  lemma FoldTracksDocument(v: Json, self: Component, op: Component)
    requires self.path != [] && IsPrefixOf(self.path, op.path) && |op.path| > |self.path|
    requires HasOldValue(self.operator)
    requires RouteGetMut(v, self.path) == Ok(Some(OldValue(self.operator)))
    ensures FoldBelow(self, op).Ok? <==> ApplyValue(v, op.path, op.operator).Ok?
    ensures FoldBelow(self, op).Ok? ==>
      var f := FoldBelow(self, op).value;
      && f.path == self.path
      && HasOldValue(f.operator)
      && f.operator == WithOldValue(self.operator, OldValue(f.operator))
      && ApplyValue(v, op.path, op.operator) == Ok(Put(v, self.path, OldValue(f.operator)))
      && RouteGetMut(ApplyValue(v, op.path, op.operator).value, self.path) == Ok(Some(OldValue(f.operator)))
  {
    var r := op.path[|self.path|..];
    assert op.path == self.path + r;
    ApplyBeneath(v, self.path, r, op.operator);
    var inner := ApplyValue(OldValue(self.operator), r, op.operator);
    if inner.Ok? {
      PutFinds(v, self.path, inner.value);
    }
  }

  /** At its one call site in `transform_component` the new component's path
      is a proper prefix of the base's, so `op` is always the deeper one and
      `consume` changes nothing. */
  lemma ConsumeInertInTransform(newOp: Component, base: Component)
    requires IsPrefixOf(newOp.path, base.path) && |base.path| > |newOp.path|
    ensures Consume(newOp, MaxCommonPath(base.path, newOp.path), base) == Ok(newOp)
  {
  }
}
