/** Operators and operation components (src/operation.rs): decoding from a
    JSON object, validation, and `merge`, the step that collapses two
    adjacent components on the same path. */
module Operation {
  import opened Values
  import opened Paths

  /** The closed set of json0 operators. In the two Replace variants the
      first value is the new one and the second the old one. */
  datatype Operator =
    | Noop
    | AddNumber(delta: Json)
    | ListInsert(value: Json)
    | ListDelete(value: Json)
    | ListReplace(newValue: Json, oldValue: Json)
    | ListMove(to: nat)
    | ObjectInsert(value: Json)
    | ObjectDelete(value: Json)
    | ObjectReplace(newValue: Json, oldValue: Json)

  /** One edit: an operator acting at the last element of `path`. */
  datatype Component = Component(path: Path, operator: Operator)

  // ---------------------------------------------------------------------
  // Decoding
  // ---------------------------------------------------------------------

  /** `value_to_index`: only a non-negative integer is a list index. */
  function ValueToIndex(v: Json): (r: Result<nat>)
    ensures r.Ok? <==> v.Num? && v.n >= 0
    ensures r.Ok? ==> r.value == v.n
    ensures r.Err? ==> r.error == InvalidOperation
  {
    if v.Num? && v.n >= 0 then Ok(v.n) else Err(InvalidOperation)
  }

  /** `map_to_operator`: the first of `na`, `lm`, `li`, `ld`, `oi`, `od`
      present decides the operator; `li` with `ld` and `oi` with `od` are
      the Replace variants. */
  function MapToOperator(obj: map<string, Json>): Result<Operator> {
    if "na" in obj then Ok(AddNumber(obj["na"]))
    else if "lm" in obj then
      var i :- ValueToIndex(obj["lm"]);
      Ok(ListMove(i))
    else if "li" in obj then
      if "ld" in obj then Ok(ListReplace(obj["li"], obj["ld"])) else Ok(ListInsert(obj["li"]))
    else if "ld" in obj then Ok(ListDelete(obj["ld"]))
    else if "oi" in obj then
      if "od" in obj then Ok(ObjectReplace(obj["oi"], obj["od"])) else Ok(ObjectInsert(obj["oi"]))
    else if "od" in obj then Ok(ObjectDelete(obj["od"]))
    else Err(InvalidOperation)
  }

  /** The number of keys (the path `p` included) the encoding of each
      operator has. */
  function EncodedSize(op: Operator): nat {
    match op
    case Noop => 1
    case ListReplace(_, _) => 3
    case ObjectReplace(_, _) => 3
    case _ => 2
  }

  /** `validate_json_object_size`. */
  function ValidateJsonObjectSize(op: Operator, obj: map<string, Json>): Result<()> {
    if |obj| != EncodedSize(op) then Err(InvalidOperation) else Ok(())
  }

  /** `Operator::from_json_value`. */
  function OperatorFromJson(v: Json): Result<Operator> {
    match v
    case Obj(obj) =>
      var op :- MapToOperator(obj);
      var _ :- ValidateJsonObjectSize(op, obj);
      Ok(op)
    case _ => Err(InvalidOperation)
  }

  /** `OperationComponent::from_str` once the text has been parsed: the path
      under `p`, then the operator. */
  function ComponentFromJson(v: Json): Result<Component> {
    if !(v.Obj? && "p" in v.fields) then Err(InvalidOperation)
    else
      var path :- FromJsonValue(v.fields["p"]);
      var op :- OperatorFromJson(v);
      Ok(Component(path, op))
  }

  /** The json0 wire form of a path: indices as numbers, keys as strings. */
  function PathToJson(p: Path): (r: Json)
    ensures r.Arr? && |r.items| == |p|
    ensures forall i :: 0 <= i < |p| ==> r.items[i] == (if p[i].Index? then Num(p[i].i) else Str(p[i].k))
  {
    Arr(seq(|p|, i requires 0 <= i < |p| => if p[i].Index? then Num(p[i].i) else Str(p[i].k)))
  }

  /** The json0 wire form of a component: `p` and the operator's keys. A
      Noop has no keys of its own. */
  function ComponentToJson(c: Component): Json {
    var p := map["p" := PathToJson(c.path)];
    match c.operator
    case Noop => Obj(p)
    case AddNumber(d) => Obj(p["na" := d])
    case ListInsert(v) => Obj(p["li" := v])
    case ListDelete(v) => Obj(p["ld" := v])
    case ListReplace(n, o) => Obj(p["li" := n]["ld" := o])
    case ListMove(to) => Obj(p["lm" := Num(to)])
    case ObjectInsert(v) => Obj(p["oi" := v])
    case ObjectDelete(v) => Obj(p["od" := v])
    case ObjectReplace(n, o) => Obj(p["oi" := n]["od" := o])
  }

  /** Decoding undoes encoding for every component with a path and an
      operator other than Noop; a Noop has no encoding that decodes. */
  lemma ComponentRoundTrip(c: Component)
    ensures c.path != [] && !c.operator.Noop? ==> ComponentFromJson(ComponentToJson(c)) == Ok(c)
    ensures c.operator.Noop? ==> ComponentFromJson(ComponentToJson(c)).Err?
  {
    var v := ComponentToJson(c);
    assert "p" in v.fields && v.fields["p"] == PathToJson(c.path);
    OperatorRoundTrip(c);
    if c.path != [] {
      PathRoundTrip(c.path);
    }
  }

  lemma PathRoundTrip(p: Path)
    requires p != []
    ensures FromJsonValue(PathToJson(p)) == Ok(p)
  {
    var j := PathToJson(p);
    FromJsonValueSpec(j);
    assert forall i :: 0 <= i < |j.items| ==> IsPathElementJson(j.items[i]);
    var q := FromJsonValue(j).value;
    forall i | 0 <= i < |q|
      ensures q[i] == p[i]
    {
      if p[i].Index? {
        assert j.items[i] == Num(p[i].i);
      } else {
        assert j.items[i] == Str(p[i].k);
      }
    }
    assert q == p;
  }

  lemma OperatorRoundTrip(c: Component)
    ensures !c.operator.Noop? ==> OperatorFromJson(ComponentToJson(c)) == Ok(c.operator)
    ensures c.operator.Noop? ==> OperatorFromJson(ComponentToJson(c)).Err?
  {
    if c.operator.ObjectInsert? || c.operator.ObjectDelete? || c.operator.ObjectReplace? {
      ObjectOperatorRoundTrip(c);
    } else {
      ListOperatorRoundTrip(c);
    }
  }

  lemma ListOperatorRoundTrip(c: Component)
    requires !(c.operator.ObjectInsert? || c.operator.ObjectDelete? || c.operator.ObjectReplace?)
    ensures !c.operator.Noop? ==> OperatorFromJson(ComponentToJson(c)) == Ok(c.operator)
    ensures c.operator.Noop? ==> OperatorFromJson(ComponentToJson(c)).Err?
  {
    var pj := map["p" := PathToJson(c.path)];
    match c.operator {
      case Noop =>
      case AddNumber(d) => KeyCount2(pj, "na", d);
      case ListInsert(x) => KeyCount2(pj, "li", x);
      case ListDelete(x) => KeyCount2(pj, "ld", x);
      case ListMove(to) => KeyCount2(pj, "lm", Num(to));
      case ListReplace(n, o) => KeyCount3(pj, "li", "ld", n, o);
    }
  }

  lemma ObjectOperatorRoundTrip(c: Component)
    requires c.operator.ObjectInsert? || c.operator.ObjectDelete? || c.operator.ObjectReplace?
    ensures OperatorFromJson(ComponentToJson(c)) == Ok(c.operator)
  {
    var pj := map["p" := PathToJson(c.path)];
    match c.operator {
      case ObjectInsert(x) => KeyCount2(pj, "oi", x);
      case ObjectDelete(x) => KeyCount2(pj, "od", x);
      case ObjectReplace(n, o) => KeyCount3(pj, "oi", "od", n, o);
    }
  }

  lemma KeyCount2(pj: map<string, Json>, k: string, x: Json)
    requires pj.Keys == {"p"} && k != "p"
    ensures |pj[k := x]| == 2
  {
    assert pj[k := x].Keys == {"p", k};
  }

  lemma KeyCount3(pj: map<string, Json>, k1: string, k2: string, x: Json, y: Json)
    requires pj.Keys == {"p"} && k1 != "p" && k2 != "p" && k1 != k2
    ensures |pj[k1 := x][k2 := y]| == 3
  {
    assert pj[k1 := x][k2 := y].Keys == {"p", k1} + {k2};
  }

  /** The operator decoding: priority order, Replace pairing, the exact key
      count and the `lm` index check. */
  lemma OperatorFromJsonSpec(obj: map<string, Json>)
    ensures var r := OperatorFromJson(Obj(obj));
      && ("na" in obj ==> r == (if |obj| == 2 then Ok(AddNumber(obj["na"])) else Err(InvalidOperation)))
      && ("na" !in obj && "lm" in obj ==>
            r == (if obj["lm"].Num? && obj["lm"].n >= 0 && |obj| == 2 then Ok(ListMove(obj["lm"].n)) else Err(InvalidOperation)))
      && ("na" !in obj && "lm" !in obj && "li" in obj && "ld" in obj ==>
            r == (if |obj| == 3 then Ok(ListReplace(obj["li"], obj["ld"])) else Err(InvalidOperation)))
      && ("na" !in obj && "lm" !in obj && "li" in obj && "ld" !in obj ==>
            r == (if |obj| == 2 then Ok(ListInsert(obj["li"])) else Err(InvalidOperation)))
      && ("na" !in obj && "lm" !in obj && "li" !in obj && "ld" in obj ==>
            r == (if |obj| == 2 then Ok(ListDelete(obj["ld"])) else Err(InvalidOperation)))
      && ((forall key :: key in ["na", "lm", "li", "ld", "od"] ==> key !in obj) && "oi" in obj ==>
            r == (if |obj| == 2 then Ok(ObjectInsert(obj["oi"])) else Err(InvalidOperation)))
      && ((forall key :: key in ["na", "lm", "li", "ld", "oi"] ==> key !in obj) && "od" in obj ==>
            r == (if |obj| == 2 then Ok(ObjectDelete(obj["od"])) else Err(InvalidOperation)))
      && (forall key :: key in ["na", "lm", "li", "ld"] ==> key !in obj) && "oi" in obj && "od" in obj ==>
            r == (if |obj| == 3 then Ok(ObjectReplace(obj["oi"], obj["od"])) else Err(InvalidOperation))
    ensures var r := OperatorFromJson(Obj(obj));
      (forall key :: key in ["na", "lm", "li", "ld", "oi", "od"] ==> key !in obj) ==> r == Err(InvalidOperation)
    ensures OperatorFromJson(Obj(obj)).Ok? ==>
      var op := OperatorFromJson(Obj(obj)).value;
      !op.Noop? && |obj| == EncodedSize(op)
  {
  }

  // ---------------------------------------------------------------------
  // Validation
  // ---------------------------------------------------------------------

  /** `Validation for Operator`: an AddNumber operand must be a number. */
  function ValidateOperator(op: Operator): Result<()> {
    if op.AddNumber? && !op.delta.Num? then Err(InvalidOperation) else Ok(())
  }

  /** `Validation for OperationComponent`: a non-empty path and a valid
      operator. */
  function ValidateComponent(c: Component): (r: Result<()>)
    ensures r.Ok? <==> ValidComponent(c)
    ensures r.Err? ==> r.error == InvalidOperation
  {
    if IsEmpty(c.path) then Err(InvalidOperation) else ValidateOperator(c.operator)
  }

  predicate ValidComponent(c: Component) {
    c.path != [] && (c.operator.AddNumber? ==> c.operator.delta.Num?)
  }

  /** `Validation for Vec<OperationComponent>`: the first invalid component
      decides. */
  function ValidateOperation(ops: seq<Component>): (r: Result<()>)
    ensures r.Ok? <==> forall i :: 0 <= i < |ops| ==> ValidComponent(ops[i])
    ensures r.Err? ==> r.error == InvalidOperation
  {
    if ops == [] then Ok(())
    else
      var _ :- ValidateComponent(ops[0]);
      assert forall i :: 1 <= i < |ops| ==> ops[i] == ops[1..][i - 1];
      ValidateOperation(ops[1..])
  }

  // ---------------------------------------------------------------------
  // Merge
  // ---------------------------------------------------------------------

  /** `merge` reads both AddNumber operands with `as_i64().unwrap()`; callers
      validate components first. */
  predicate MergeDefined(a: Operator, b: Operator) {
    a.AddNumber? && b.AddNumber? ==> a.delta.Num? && b.delta.Num?
  }

  /** The table of `merge`: the single operator equivalent to `a` followed
      by `b` on the same path, if there is one. Delete-then-insert on an
      object key gives the Replace whose new value is the inserted one (see
      `MergeOperatorAsWritten`). */
  function MergeOperator(a: Operator, b: Operator): Option<Operator>
    requires MergeDefined(a, b)
  {
    match a
    case Noop => Some(b)
    case AddNumber(d1) =>
      (match b
       case AddNumber(d2) => Some(AddNumber(Num(d1.n + d2.n)))
       case _ => None)
    case ListInsert(v1) =>
      (match b
       case ListDelete(v2) => if v1 == v2 then Some(Noop) else None
       case ListReplace(n2, o2) => if o2 == v1 then Some(ListInsert(n2)) else None
       case _ => None)
    case ListReplace(n1, o1) =>
      (match b
       case ListDelete(v2) => if n1 == v2 then Some(ListDelete(o1)) else None
       case ListReplace(n2, o2) => if n1 == o2 then Some(ListReplace(n2, o1)) else None
       case _ => None)
    case ObjectInsert(v1) =>
      (match b
       case ObjectDelete(v2) => if v1 == v2 then Some(Noop) else None
       case ObjectReplace(n2, o2) => if v1 == o2 then Some(ObjectInsert(n2)) else None
       case _ => None)
    case ObjectDelete(v1) =>
      (match b
       case ObjectInsert(v2) => Some(ObjectReplace(v2, v1))
       case _ => None)
    case ObjectReplace(n1, o1) =>
      (match b
       case ObjectDelete(v2) => if n1 == v2 then Some(ObjectDelete(o1)) else None
       case ObjectReplace(n2, o2) => if n1 == o2 then Some(ObjectReplace(n2, o1)) else None
       case _ => None)
    case _ => None
  }

  /** The table as the source writes it: identical except that
      ObjectDelete(v1) then ObjectInsert(v2) becomes ObjectReplace(v1, v2),
      whose new value is the DELETED one. */
  function MergeOperatorAsWritten(a: Operator, b: Operator): Option<Operator>
    requires MergeDefined(a, b)
  {
    match (a, b)
    case (ObjectDelete(v1), ObjectInsert(v2)) => Some(ObjectReplace(v1, v2))
    case _ => MergeOperator(a, b)
  }

  /** `OperationComponent::merge`: `self` takes the merged operator when the
      table has one; the flag says whether it did. */
  function Merge(self: Component, op: Component): (r: (bool, Component))
    requires MergeDefined(self.operator, op.operator)
    ensures r.0 <==> MergeOperator(self.operator, op.operator).Some?
    ensures r.0 ==> r.1 == Component(self.path, MergeOperator(self.operator, op.operator).value)
    ensures !r.0 ==> r.1 == self
  {
    match MergeOperator(self.operator, op.operator)
    case Some(m) => (true, self.(operator := m))
    case None => (false, self)
  }
}
