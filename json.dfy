/** Navigation and the apply engine (src/json.rs): `route_get`,
    `route_get_mut`, `Appliable::apply` for a value, an array and an object,
    and the `JSON` document that runs operations left to right.

    The Rust code edits the parent `Vec` or `Map` in place through the
    `&mut` handle `route_get_mut` returns; here a JSON value is a tree value,
    so the edited parent is written back along the route. */
module JsonDocument {
  import opened Values
  import opened Paths
  import opened Operation

  // ---------------------------------------------------------------------
  // Routing
  // ---------------------------------------------------------------------

  /** `Routable::route_get` (`forMut == false`) and `route_get_mut`
      (`forMut == true`) for a value. They differ only on `Null`: `route_get`
      finds nothing below it, `route_get_mut` treats it as any other scalar. */
  function Route(v: Json, p: Path, forMut: bool): Result<Option<Json>>
    decreases v, 1
  {
    match v
    case Arr(a) => RouteList(a, p, forMut)
    case Obj(m) => RouteMap(m, p, forMut)
    case Null => if forMut then (if IsEmpty(p) then Ok(Some(v)) else Err(BadPath)) else Ok(None)
    case _ => if IsEmpty(p) then Ok(Some(v)) else Err(BadPath)
  }

  /** Routing through an array: the first element must be an index; an
      index past the end finds nothing. */
  function RouteList(a: seq<Json>, p: Path, forMut: bool): Result<Option<Json>>
    decreases Arr(a), 0
  {
    match FirstIndexPath(p)
    case None => Err(BadPath)
    case Some(i) =>
      if i < |a| then
        var rest := NextLevel(p);
        if IsEmpty(rest) then Ok(Some(a[i])) else Route(a[i], rest, forMut)
      else Ok(None)
  }

  /** Routing through an object: the first element must be a key; a missing
      key finds nothing. */
  function RouteMap(m: map<string, Json>, p: Path, forMut: bool): Result<Option<Json>>
    decreases Obj(m), 0
  {
    match FirstKeyPath(p)
    case None => Err(BadPath)
    case Some(k) =>
      if k in m then
        var rest := NextLevel(p);
        if IsEmpty(rest) then Ok(Some(m[k])) else Route(m[k], rest, forMut)
      else Ok(None)
  }

  function RouteGet(v: Json, p: Path): Result<Option<Json>> {
    Route(v, p, false)
  }

  function RouteGetMut(v: Json, p: Path): Result<Option<Json>> {
    Route(v, p, true)
  }

  /** What `route_get` answers at one level: a scalar with an empty path is
      itself and with any other path `BadPath`, `Null` is nothing, a key
      against an array or an index against an object is `BadPath`, and a
      missing key or an index past the end is nothing rather than an error. */
  lemma RouteGetOneLevel(v: Json, p: Path)
    ensures (v.Bool? || v.Num? || v.Str?) ==> RouteGet(v, p) == if p == [] then Ok(Some(v)) else Err(BadPath)
    ensures v.Null? ==> RouteGet(v, p) == Ok(None)
    ensures v.Arr? && (p == [] || p[0].Key?) ==> RouteGet(v, p) == Err(BadPath)
    ensures v.Obj? && (p == [] || p[0].Index?) ==> RouteGet(v, p) == Err(BadPath)
    ensures v.Arr? && p != [] && p[0].Index? && p[0].i >= |v.items| ==> RouteGet(v, p) == Ok(None)
    ensures v.Obj? && p != [] && p[0].Key? && p[0].k !in v.fields ==> RouteGet(v, p) == Ok(None)
    ensures v.Arr? && |p| == 1 && p[0].Index? && p[0].i < |v.items| ==> RouteGet(v, p) == Ok(Some(v.items[p[0].i]))
    ensures v.Obj? && |p| == 1 && p[0].Key? && p[0].k in v.fields ==> RouteGet(v, p) == Ok(Some(v.fields[p[0].k]))
  {
    match v
    case Arr(a) => assert RouteGet(v, p) == RouteList(a, p, false);
    case Obj(m) => assert RouteGet(v, p) == RouteMap(m, p, false);
    case _ =>
  }

  /** Routing composes: once a non-empty path `p` has found `w`, routing
      further along `q` is routing from `w`. */
  lemma {:induction false} RouteCompose(v: Json, p: Path, q: Path, forMut: bool)
    requires p != [] && q != []
    requires Route(v, p, forMut).Ok? && Route(v, p, forMut).value.Some?
    ensures Route(v, p + q, forMut) == Route(Route(v, p, forMut).value.value, q, forMut)
    decreases |p|
  {
    assert (p + q)[0] == p[0];
    assert NextLevel(p + q) == NextLevel(p) + q;
    match v
    case Arr(a) =>
      assert Route(v, p + q, forMut) == RouteList(a, p + q, forMut);
      var i := p[0].i;
      if |p| > 1 { RouteCompose(a[i], NextLevel(p), q, forMut); }
    case Obj(m) =>
      assert Route(v, p + q, forMut) == RouteMap(m, p + q, forMut);
      var k := p[0].k;
      if |p| > 1 { RouteCompose(m[k], NextLevel(p), q, forMut); }
    case _ =>
  }

  /** Whenever `route_get_mut` finds a value along a non-empty path,
      `route_get` finds the same one (the two part only at a `Null` reached
      with an empty path). */
  lemma {:induction false} RouteGetMutAgrees(v: Json, p: Path)
    requires p != []
    requires RouteGetMut(v, p).Ok? && RouteGetMut(v, p).value.Some?
    ensures RouteGet(v, p) == RouteGetMut(v, p)
    decreases |p|
  {
    match v
    case Arr(a) =>
      assert RouteGetMut(v, p) == RouteList(a, p, true);
      assert RouteGet(v, p) == RouteList(a, p, false);
      var i := p[0].i;
      if |p| > 1 { RouteGetMutAgrees(a[i], NextLevel(p)); }
    case Obj(m) =>
      assert RouteGetMut(v, p) == RouteMap(m, p, true);
      assert RouteGet(v, p) == RouteMap(m, p, false);
      var k := p[0].k;
      if |p| > 1 { RouteGetMutAgrees(m[k], NextLevel(p)); }
    case _ =>
  }

  // ---------------------------------------------------------------------
  // Apply
  // ---------------------------------------------------------------------

  function InsertAt(a: seq<Json>, j: nat, x: Json): (r: seq<Json>)
    requires j <= |a|
    ensures |r| == |a| + 1 && r[j] == x
    ensures forall k :: 0 <= k < j ==> r[k] == a[k]
    ensures forall k :: j < k < |r| ==> r[k] == a[k - 1]
  {
    a[..j] + [x] + a[j..]
  }

  function RemoveAt(a: seq<Json>, i: nat): (r: seq<Json>)
    requires i < |a|
    ensures |r| == |a| - 1
    ensures forall k :: 0 <= k < i ==> r[k] == a[k]
    ensures forall k :: i <= k < |r| ==> r[k] == a[k + 1]
  {
    a[..i] + a[i + 1..]
  }

  /** `Appliable::apply` for a value. A path longer than one is routed to the
      parent with `route_get_mut` and applied there (`ApplyBelow`); otherwise
      arrays and objects apply the operator to themselves, a number takes
      only AddNumber, and any other value refuses. */
  function ApplyValue(v: Json, p: Path, op: Operator): Result<Json>
    decreases v, |p|, 1
  {
    if Len(p) > 1 then
      var (left, right) := SplitAt(p, |p| - 1);
      ApplyBelow(v, left, right, op)
    else
      match v
      case Arr(a) =>
        var a' :- ApplyList(a, p, op);
        Ok(Arr(a'))
      case Obj(m) =>
        var m' :- ApplyMap(m, p, op);
        Ok(Obj(m'))
      case Num(n) =>
        (match op
         case AddNumber(d) => if d.Num? then Ok(Num(n + d.n)) else Err(Panic)
         case _ => Err(InvalidOperation))
      case _ => Err(InvalidOperation)
  }

  /** `self.route_get_mut(&left)?.ok_or(BadPath)?.apply(right, operator)`:
      descends `left` as `route_get_mut` does, applies at the value found,
      and writes the edited value back along the route. */
  function ApplyBelow(v: Json, left: Path, right: Path, op: Operator): Result<Json>
    requires left != []
    decreases v, |left| + |right|, 0
  {
    match v
    case Arr(a) =>
      (match FirstIndexPath(left)
       case None => Err(BadPath)
       case Some(i) =>
         if i < |a| then
           var rest := NextLevel(left);
           var c :- if IsEmpty(rest) then ApplyValue(a[i], right, op) else ApplyBelow(a[i], rest, right, op);
           Ok(Arr(a[i := c]))
         else Err(BadPath))
    case Obj(m) =>
      (match FirstKeyPath(left)
       case None => Err(BadPath)
       case Some(k) =>
         if k in m then
           var rest := NextLevel(left);
           var c :- if IsEmpty(rest) then ApplyValue(m[k], right, op) else ApplyBelow(m[k], rest, right, op);
           Ok(Obj(m[k := c]))
         else Err(BadPath))
    case _ => Err(BadPath)
  }

  /** `Appliable::apply` for an array, at the index the one-element path
      names (`assert!(paths.len() == 1)`). */
  function ApplyList(a: seq<Json>, p: Path, op: Operator): Result<seq<Json>> {
    if Len(p) != 1 then Err(Panic)
    else
      match FirstIndexPath(p)
      case None => Err(BadPath)
      case Some(i) =>
        match op
        case AddNumber(d) =>
          if i < |a| then
            if a[i].Num? then (if d.Num? then Ok(a[i := Num(a[i].n + d.n)]) else Err(Panic))
            else Err(BadPath)
          else Err(Panic)   // `self[*index] = v` past the end
        case ListInsert(x) =>
          if i > |a| then Ok(a + [x]) else Ok(InsertAt(a, i, x))
        case ListDelete(x) =>
          if i < |a| && a[i] == x then Ok(RemoveAt(a, i)) else Ok(a)
        case ListReplace(n, o) =>
          if i < |a| && a[i] == o then Ok(a[i := n]) else Ok(a)
        case ListMove(j) =>
          if i < |a| && i != j then
            // `Vec::insert` after the removal panics past the new end
            if j <= |a| - 1 then Ok(InsertAt(RemoveAt(a, i), j, a[i])) else Err(Panic)
          else Ok(a)
        case _ => Err(BadPath)
  }

  /** `Appliable::apply` for an object, at the key the one-element path
      names. AddNumber on an existing entry re-applies the same path to that
      entry; on a missing key it stores the operand. */
  function ApplyMap(m: map<string, Json>, p: Path, op: Operator): Result<map<string, Json>>
    decreases Obj(m), |p|, 0
  {
    if Len(p) != 1 then Err(Panic)
    else
      match FirstKeyPath(p)
      case None => Err(BadPath)
      case Some(k) =>
        match op
        case AddNumber(d) =>
          if k in m then
            var c :- ApplyValue(m[k], p, op);
            Ok(m[k := c])
          else Ok(m[k := d])
        case ObjectInsert(x) => Ok(m[k := x])
        case ObjectDelete(x) =>
          if k in m && m[k] == x then Ok(m - {k}) else Ok(m)
        case ObjectReplace(n, o) =>
          if k in m && m[k] == o then Ok(m[k := n]) else Ok(m)
        case _ => Err(BadPath)
  }

  // ---------------------------------------------------------------------
  // Properties of apply
  // ---------------------------------------------------------------------

  /** `v` with the value that `route_get_mut` finds at `left` replaced by
      `child`: the effect of editing that value in place. */
  function Put(v: Json, left: Path, child: Json): Json
    requires left != [] && RouteGetMut(v, left).Ok? && RouteGetMut(v, left).value.Some?
    decreases |left|
  {
    match v
    case Arr(a) =>
      assert RouteGetMut(v, left) == RouteList(a, left, true);
      var i := left[0].i;
      if |left| == 1 then Arr(a[i := child]) else Arr(a[i := Put(a[i], NextLevel(left), child)])
    case Obj(m) =>
      assert RouteGetMut(v, left) == RouteMap(m, left, true);
      var k := left[0].k;
      if |left| == 1 then Obj(m[k := child]) else Obj(m[k := Put(m[k], NextLevel(left), child)])
  }

  /** After `Put`, routing to `left` finds the new child. */
  lemma {:induction false} PutFinds(v: Json, left: Path, child: Json)
    requires left != [] && RouteGetMut(v, left).Ok? && RouteGetMut(v, left).value.Some?
    ensures RouteGetMut(Put(v, left, child), left) == Ok(Some(child))
    decreases |left|
  {
    match v
    case Arr(a) =>
      assert RouteGetMut(v, left) == RouteList(a, left, true);
      var i := left[0].i;
      if |left| > 1 { PutFinds(a[i], NextLevel(left), child); }
      var w := Put(v, left, child);
      assert RouteGetMut(w, left) == RouteList(w.items, left, true);
    case Obj(m) =>
      assert RouteGetMut(v, left) == RouteMap(m, left, true);
      var k := left[0].k;
      if |left| > 1 { PutFinds(m[k], NextLevel(left), child); }
      var w := Put(v, left, child);
      assert RouteGetMut(w, left) == RouteMap(w.fields, left, true);
  }

  /** A second `Put` at the same place overrides the first. */
  lemma {:induction false} PutOverrides(v: Json, left: Path, c1: Json, c2: Json)
    requires left != [] && RouteGetMut(v, left).Ok? && RouteGetMut(v, left).value.Some?
    ensures RouteGetMut(Put(v, left, c1), left).Ok? && RouteGetMut(Put(v, left, c1), left).value.Some?
    ensures Put(Put(v, left, c1), left, c2) == Put(v, left, c2)
    decreases |left|, 1
  {
    PutFinds(v, left, c1);
    if v.Arr? {
      PutOverridesInList(v.items, left, c1, c2);
    } else {
      PutOverridesInObject(v.fields, left, c1, c2);
    }
  }

  lemma {:induction false} PutOverridesInList(a: seq<Json>, left: Path, c1: Json, c2: Json)
    requires left != [] && RouteGetMut(Arr(a), left).Ok? && RouteGetMut(Arr(a), left).value.Some?
    requires RouteGetMut(Put(Arr(a), left, c1), left).Ok? && RouteGetMut(Put(Arr(a), left, c1), left).value.Some?
    ensures Put(Put(Arr(a), left, c1), left, c2) == Put(Arr(a), left, c2)
    decreases |left|, 0
  {
    assert RouteGetMut(Arr(a), left) == RouteList(a, left, true);
    var i := left[0].i;
    if |left| == 1 {
      assert a[i := c1][i := c2] == a[i := c2];
    } else {
      var rest := NextLevel(left);
      var inner := Put(a[i], rest, c1);
      var w := Arr(a[i := inner]);
      assert Put(Arr(a), left, c1) == w;
      assert RouteGetMut(w, left) == RouteList(w.items, left, true);
      PutOverrides(a[i], rest, c1, c2);
      assert Put(w, left, c2) == Arr(a[i := inner][i := Put(inner, rest, c2)]);
      assert a[i := inner][i := Put(a[i], rest, c2)] == a[i := Put(a[i], rest, c2)];
    }
  }

  lemma {:induction false} PutOverridesInObject(m: map<string, Json>, left: Path, c1: Json, c2: Json)
    requires left != [] && RouteGetMut(Obj(m), left).Ok? && RouteGetMut(Obj(m), left).value.Some?
    requires RouteGetMut(Put(Obj(m), left, c1), left).Ok? && RouteGetMut(Put(Obj(m), left, c1), left).value.Some?
    ensures Put(Put(Obj(m), left, c1), left, c2) == Put(Obj(m), left, c2)
    decreases |left|, 0
  {
    assert RouteGetMut(Obj(m), left) == RouteMap(m, left, true);
    var k := left[0].k;
    if |left| == 1 {
      assert m[k := c1][k := c2] == m[k := c2];
    } else {
      var rest := NextLevel(left);
      var inner := Put(m[k], rest, c1);
      var w := Obj(m[k := inner]);
      assert Put(Obj(m), left, c1) == w;
      assert RouteGetMut(w, left) == RouteMap(w.fields, left, true);
      PutOverrides(m[k], rest, c1, c2);
      assert Put(w, left, c2) == Obj(m[k := inner][k := Put(inner, rest, c2)]);
      assert m[k := inner][k := Put(m[k], rest, c2)] == m[k := Put(m[k], rest, c2)];
    }
  }

  /** Putting back the child that is there already changes nothing. */
  lemma {:induction false} PutBack(v: Json, left: Path)
    requires left != [] && RouteGetMut(v, left).Ok? && RouteGetMut(v, left).value.Some?
    ensures Put(v, left, RouteGetMut(v, left).value.value) == v
    decreases |left|
  {
    match v
    case Arr(a) =>
      assert RouteGetMut(v, left) == RouteList(a, left, true);
      var i := left[0].i;
      if |left| > 1 {
        PutBack(a[i], NextLevel(left));
        assert RouteGetMut(v, left) == RouteGetMut(a[i], NextLevel(left));
      }
    case Obj(m) =>
      assert RouteGetMut(v, left) == RouteMap(m, left, true);
      var k := left[0].k;
      if |left| > 1 {
        PutBack(m[k], NextLevel(left));
        assert RouteGetMut(v, left) == RouteGetMut(m[k], NextLevel(left));
      }
  }

  /** `Put` leaves everything off its route alone: along any path that
      parts from `left` (neither is a prefix of the other) both routings
      answer the same before and after. */
  lemma {:induction false} PutFrame(v: Json, left: Path, child: Json, r: Path, forMut: bool)
    requires left != [] && RouteGetMut(v, left).Ok? && RouteGetMut(v, left).value.Some?
    requires r != [] && !IsPrefixOf(left, r) && !IsPrefixOf(r, left)
    ensures Route(Put(v, left, child), r, forMut) == Route(v, r, forMut)
    decreases |left|
  {
    var w := Put(v, left, child);
    match v
    case Arr(a) =>
      assert RouteGetMut(v, left) == RouteList(a, left, true);
      assert Route(v, r, forMut) == RouteList(a, r, forMut);
      assert Route(w, r, forMut) == RouteList(w.items, r, forMut);
      var i := left[0].i;
      if r[0] == left[0] {
        PrefixStep(left, r);
        PrefixStep(r, left);
        if |left| > 1 && |r| > 1 {
          PutFrame(a[i], NextLevel(left), child, NextLevel(r), forMut);
        }
      }
    case Obj(m) =>
      assert RouteGetMut(v, left) == RouteMap(m, left, true);
      assert Route(v, r, forMut) == RouteMap(m, r, forMut);
      assert Route(w, r, forMut) == RouteMap(w.fields, r, forMut);
      var k := left[0].k;
      if r[0] == left[0] {
        PrefixStep(left, r);
        PrefixStep(r, left);
        if |left| > 1 && |r| > 1 {
          PutFrame(m[k], NextLevel(left), child, NextLevel(r), forMut);
        }
      }
  }

  /** Whatever `route_get_mut` finds along `p + q` it reaches through a
      value found along `p`, and putting a child at `p + q` is putting, at
      `p`, that value with the child put at `q`. */
  lemma {:induction false} PutNested(v: Json, p: Path, q: Path, x: Json)
    requires p != [] && q != []
    requires RouteGetMut(v, p + q).Ok? && RouteGetMut(v, p + q).value.Some?
    ensures RouteGetMut(v, p).Ok? && RouteGetMut(v, p).value.Some?
    ensures var u := RouteGetMut(v, p).value.value;
      && RouteGetMut(u, q) == RouteGetMut(v, p + q)
      && Put(v, p + q, x) == Put(v, p, Put(u, q, x))
    decreases |p|
  {
    assert (p + q)[0] == p[0];
    assert NextLevel(p + q) == NextLevel(p) + q;
    match v
    case Arr(a) =>
      assert RouteGetMut(v, p + q) == RouteList(a, p + q, true);
      assert RouteGetMut(v, p) == RouteList(a, p, true);
      if |p| > 1 { PutNested(a[p[0].i], NextLevel(p), q, x); }
    case Obj(m) =>
      assert RouteGetMut(v, p + q) == RouteMap(m, p + q, true);
      assert RouteGetMut(v, p) == RouteMap(m, p, true);
      if |p| > 1 { PutNested(m[p[0].k], NextLevel(p), q, x); }
  }

  /** A path longer than one acts on the parent that `route_get_mut` finds
      (the whole path but its last element): a routing error is returned as
      is, a missing parent is `BadPath`, and otherwise the outcome is that of
      applying the last element to the parent, written back in place with
      the rest of the value untouched. */
  lemma {:induction false} ApplyAtParent(v: Json, p: Path, op: Operator)
    requires |p| > 1
    ensures var parent := RouteGetMut(v, p[..|p| - 1]);
      && (parent.Err? ==> ApplyValue(v, p, op) == Err(parent.error))
      && (parent == Ok(None) ==> ApplyValue(v, p, op) == Err(BadPath))
      && (parent.Ok? && parent.value.Some? ==>
            var local := ApplyValue(parent.value.value, [p[|p| - 1]], op);
            && (local.Err? ==> ApplyValue(v, p, op) == Err(local.error))
            && (local.Ok? ==> ApplyValue(v, p, op) == Ok(Put(v, p[..|p| - 1], local.value))))
  {
    assert p[|p| - 1..] == [p[|p| - 1]];
    ApplyBelowRoutes(v, p[..|p| - 1], [p[|p| - 1]], op);
  }

  lemma {:induction false} ApplyBelowRoutes(v: Json, left: Path, right: Path, op: Operator)
    requires left != []
    ensures var parent := RouteGetMut(v, left);
      && (parent.Err? ==> ApplyBelow(v, left, right, op) == Err(parent.error))
      && (parent == Ok(None) ==> ApplyBelow(v, left, right, op) == Err(BadPath))
      && (parent.Ok? && parent.value.Some? ==>
            var local := ApplyValue(parent.value.value, right, op);
            && (local.Err? ==> ApplyBelow(v, left, right, op) == Err(local.error))
            && (local.Ok? ==> ApplyBelow(v, left, right, op) == Ok(Put(v, left, local.value))))
    decreases |left|
  {
    match v
    case Arr(a) =>
      assert RouteGetMut(v, left) == RouteList(a, left, true);
      if left[0].Index? && left[0].i < |a| && |left| > 1 {
        ApplyBelowRoutes(a[left[0].i], NextLevel(left), right, op);
      }
    case Obj(m) =>
      assert RouteGetMut(v, left) == RouteMap(m, left, true);
      if left[0].Key? && left[0].k in m && |left| > 1 {
        ApplyBelowRoutes(m[left[0].k], NextLevel(left), right, op);
      }
    case _ =>
  }

  /** Applying along `p + r` where `p` finds a value `u` is applying along
      `r` inside `u` and writing the result back at `p`; a failure inside
      `u` is the failure of the whole. */
  lemma {:induction false} ApplyBeneath(v: Json, p: Path, r: Path, op: Operator)
    requires p != [] && r != []
    requires RouteGetMut(v, p).Ok? && RouteGetMut(v, p).value.Some?
    ensures var inner := ApplyValue(RouteGetMut(v, p).value.value, r, op);
      ApplyValue(v, p + r, op) == if inner.Ok? then Ok(Put(v, p, inner.value)) else Err(inner.error)
  {
    var q := r[..|r| - 1];
    var last := r[|r| - 1..];
    assert r == q + last;
    assert p + r == (p + q) + last;
    assert SplitAt(p + r, |p + r| - 1) == (p + q, last);
    if q != [] {
      assert SplitAt(r, |r| - 1) == (q, last);
    }
    ApplyBelowBeneath(v, p, q, last, op);
  }

  lemma {:induction false} ApplyBelowBeneath(v: Json, p: Path, q: Path, right: Path, op: Operator)
    requires p != []
    requires RouteGetMut(v, p).Ok? && RouteGetMut(v, p).value.Some?
    ensures var u := RouteGetMut(v, p).value.value;
      var inner := if q == [] then ApplyValue(u, right, op) else ApplyBelow(u, q, right, op);
      ApplyBelow(v, p + q, right, op) == if inner.Ok? then Ok(Put(v, p, inner.value)) else Err(inner.error)
    decreases |p|
  {
    assert (p + q)[0] == p[0];
    assert NextLevel(p + q) == NextLevel(p) + q;
    match v
    case Arr(a) =>
      assert RouteGetMut(v, p) == RouteList(a, p, true);
      if |p| > 1 { ApplyBelowBeneath(a[p[0].i], NextLevel(p), q, right, op); }
    case Obj(m) =>
      assert RouteGetMut(v, p) == RouteMap(m, p, true);
      if |p| > 1 { ApplyBelowBeneath(m[p[0].k], NextLevel(p), q, right, op); }
  }

  /** ListInsert puts the value at the index, or at the end when the index is
      past it; the list grows by exactly one and keeps its other elements in
      order. */
  lemma ListInsertPlaces(a: seq<Json>, i: nat, x: Json)
    ensures var r := ApplyList(a, [Index(i)], ListInsert(x));
      var at := if i <= |a| then i else |a|;
      && r.Ok? && |r.value| == |a| + 1
      && r.value[at] == x && r.value[..at] == a[..at] && r.value[at + 1..] == a[at..]
  {
  }

  /** ListDelete and ListReplace act only when the element holds the
      expected old value; otherwise the list is left as it was, without an
      error. */
  lemma ListGuardedEdits(a: seq<Json>, i: nat, x: Json, n: Json)
    ensures var matches := i < |a| && a[i] == x;
      && ApplyList(a, [Index(i)], ListDelete(x)) == Ok(if matches then a[..i] + a[i + 1..] else a)
      && ApplyList(a, [Index(i)], ListReplace(n, x)) == Ok(if matches then a[i := n] else a)
  {
  }

  /** ListMove: a move onto itself, or of a missing element, changes nothing;
      otherwise the moved element ends up at the target and the others keep
      their relative order. A target past the last position panics. */
  lemma ListMoveRelocates(a: seq<Json>, i: nat, j: nat)
    ensures i == j || i >= |a| ==> ApplyList(a, [Index(i)], ListMove(j)) == Ok(a)
    ensures i != j && i < |a| && j >= |a| ==> ApplyList(a, [Index(i)], ListMove(j)) == Err(Panic)
    ensures i != j && i < |a| && j < |a| ==>
      var r := ApplyList(a, [Index(i)], ListMove(j));
      && r.Ok? && |r.value| == |a| && r.value[j] == a[i]
      && RemoveAt(r.value, j) == RemoveAt(a, i)
  {
    if i != j && i < |a| && j < |a| {
      var r := ApplyList(a, [Index(i)], ListMove(j)).value;
      assert r == InsertAt(RemoveAt(a, i), j, a[i]);
      assert RemoveAt(r, j) == RemoveAt(a, i);
    }
  }

  /** ObjectInsert sets the key whether or not it was there; ObjectDelete and
      ObjectReplace act only when the key holds the expected old value. */
  lemma ObjectEdits(m: map<string, Json>, k: string, x: Json, n: Json)
    ensures ApplyMap(m, [Key(k)], ObjectInsert(x)) == Ok(m[k := x])
    ensures var matches := k in m && m[k] == x;
      && ApplyMap(m, [Key(k)], ObjectDelete(x)) == Ok(if matches then m - {k} else m)
      && ApplyMap(m, [Key(k)], ObjectReplace(n, x)) == Ok(if matches then m[k := n] else m)
  {
  }

  /** AddNumber replaces a number with the sum; a number takes no other
      operator; list operators on an object and object operators on a list
      are `BadPath`. */
  lemma OperatorKinds(v: Json, e: PathElement, op: Operator)
    ensures v.Num? && op.AddNumber? && op.delta.Num? ==> ApplyValue(v, [e], op) == Ok(Num(v.n + op.delta.n))
    ensures v.Num? && !op.AddNumber? ==> ApplyValue(v, [e], op) == Err(InvalidOperation)
    ensures v.Arr? && e.Index? && e.i < |v.items| && v.items[e.i].Num? && op.AddNumber? && op.delta.Num? ==>
      ApplyValue(v, [e], op) == Ok(Arr(v.items[e.i := Num(v.items[e.i].n + op.delta.n)]))
    ensures v.Obj? && e.Key? && e.k in v.fields && v.fields[e.k].Num? && op.AddNumber? && op.delta.Num? ==>
      ApplyValue(v, [e], op) == Ok(Obj(v.fields[e.k := Num(v.fields[e.k].n + op.delta.n)]))
    ensures v.Obj? && (op.ListInsert? || op.ListDelete? || op.ListReplace? || op.ListMove?) ==>
      ApplyValue(v, [e], op) == Err(BadPath)
    ensures v.Arr? && (op.ObjectInsert? || op.ObjectDelete? || op.ObjectReplace?) ==>
      ApplyValue(v, [e], op) == Err(BadPath)
  {
    if v.Obj? && e.Key? && e.k in v.fields && v.fields[e.k].Num? && op.AddNumber? && op.delta.Num? {
      assert ApplyValue(v.fields[e.k], [e], op) == Ok(Num(v.fields[e.k].n + op.delta.n));
    }
  }

  // ---------------------------------------------------------------------
  // The document
  // ---------------------------------------------------------------------

  /** The components of a list of operations, in order. */
  function Flatten(operations: seq<seq<Component>>): seq<Component> {
    if operations == [] then [] else operations[0] + Flatten(operations[1..])
  }

  /** Applies components left to right, stopping at the first failure: the
      result is the value reached and the outcome. Components applied before
      the failure stay applied. */
  function Run(v: Json, ops: seq<Component>): (Json, Result<()>)
    decreases |ops|
  {
    if ops == [] then (v, Ok(()))
    else
      match ApplyValue(v, ops[0].path, ops[0].operator)
      case Err(e) => (v, Err(e))
      case Ok(v') => Run(v', ops[1..])
  }

  /** Running `s + t` is running `s`, then, only if that succeeded, `t` from
      where `s` left the value; a failure in `s` is final and is not undone. */
  lemma {:induction false} RunSplit(v: Json, s: seq<Component>, t: seq<Component>)
    ensures Run(v, s + t) == if Run(v, s).1.Ok? then Run(Run(v, s).0, t) else Run(v, s)
    decreases |s|
  {
    if s == [] {
      assert s + t == t;
    } else {
      assert (s + t)[0] == s[0] && (s + t)[1..] == s[1..] + t;
      match ApplyValue(v, s[0].path, s[0].operator)
      case Err(e) =>
      case Ok(v') => RunSplit(v', s[1..], t);
    }
  }

  /** One step of `Run`: the first component either fails, leaving the
      value as it was, or gives the value the rest starts from. */
  lemma RunStep(v: Json, c: Component, rest: seq<Component>)
    ensures var step := ApplyValue(v, c.path, c.operator);
      Run(v, [c] + rest) == if step.Err? then (v, Err(step.error)) else Run(step.value, rest)
  {
    assert ([c] + rest)[0] == c && ([c] + rest)[1..] == rest;
  }

  /** The `JSON` document: a value edited in place. */
  class Document {
    var value: Json

    constructor (v: Json)
      ensures value == v
    {
      value := v;
    }

    /** `JSON::get`. */
    function Get(p: Path): (r: Result<Option<Json>>)
      reads this
      ensures r == RouteGet(value, p)
    {
      RouteGet(value, p)
    }

    /** `JSON::apply`: every component of every operation in order, stopping
      at the first error with the earlier components already applied. */
    method Apply(operations: seq<seq<Component>>) returns (r: Result<()>)
      modifies this
      ensures (value, r) == Run(old(value), Flatten(operations))
    {
      var i := 0;
      while i < |operations|
        invariant 0 <= i <= |operations|
        invariant Run(old(value), Flatten(operations)) == Run(value, Flatten(operations[i..]))
      {
        var operation := operations[i];
        assert Flatten(operations[i..]) == operation + Flatten(operations[i + 1..]);
        var j := 0;
        while j < |operation|
          invariant 0 <= j <= |operation|
          invariant Run(old(value), Flatten(operations)) == Run(value, operation[j..] + Flatten(operations[i + 1..]))
        {
          var c := operation[j];
          ghost var rest := operation[j + 1..] + Flatten(operations[i + 1..]);
          assert operation[j..] + Flatten(operations[i + 1..]) == [c] + rest;
          RunStep(value, c, rest);
          var step := ApplyValue(value, c.path, c.operator);
          if step.Err? {
            r := Err(step.error);
            return;
          }
          value := step.value;
          j := j + 1;
        }
        assert operation[j..] + Flatten(operations[i + 1..]) == Flatten(operations[i + 1..]);
        i := i + 1;
      }
      r := Ok(());
    }
  }
}
