/** Paths into a JSON document (src/path.rs), together with the path
    helpers that src/json.rs and src/transformer.rs call but whose source is
    not part of this model (their meaning is the evident one and is stated
    by their contracts). */
module Paths {
  import opened Values

  /** One step of a path: a list index or an object key. */
  datatype PathElement = Index(i: nat) | Key(k: string)

  type Path = seq<PathElement>

  /** The JSON values that can stand for a path element. */
  predicate IsPathElementJson(v: Json) {
    (v.Num? && v.n >= 0) || v.Str?
  }

  function ElementFromJson(v: Json): Result<PathElement> {
    match v
    case Num(n) => if n >= 0 then Ok(Index(n)) else Err(InvalidPathElement)
    case Str(s) => Ok(Key(s))
    case _ => Err(InvalidPathElement)
  }

  /** The `map(..).collect::<Result<Vec<_>>>()` of `from_json_value`: the
      first element that is not a path element stops the conversion. */
  function ElementsFromJson(items: seq<Json>): Result<Path> {
    if items == [] then Ok([])
    else
      var head :- ElementFromJson(items[0]);
      var rest :- ElementsFromJson(items[1..]);
      Ok([head] + rest)
  }

  /** `Paths::from_json_value`: only a non-empty array is a path. */
  function FromJsonValue(v: Json): Result<Path> {
    match v
    case Arr(items) => if items == [] then Err(InvalidPathFormat) else ElementsFromJson(items)
    case _ => Err(InvalidPathFormat)
  }

  lemma {:induction false} ElementsFromJsonSpec(items: seq<Json>)
    ensures ElementsFromJson(items).Ok? <==> forall i :: 0 <= i < |items| ==> IsPathElementJson(items[i])
    ensures ElementsFromJson(items).Err? ==> ElementsFromJson(items).error == InvalidPathElement
    ensures ElementsFromJson(items).Ok? ==>
      var p := ElementsFromJson(items).value;
      && |p| == |items|
      && (forall i :: 0 <= i < |items| && items[i].Num? ==> p[i] == Index(items[i].n))
      && (forall i :: 0 <= i < |items| && items[i].Str? ==> p[i] == Key(items[i].s))
  {
    if items != [] {
      ElementsFromJsonSpec(items[1..]);
      var r := ElementsFromJson(items);
      if r.Ok? {
        var p := r.value;
        assert p == [ElementFromJson(items[0]).value] + ElementsFromJson(items[1..]).value;
        forall i | 0 <= i < |items| ensures IsPathElementJson(items[i]) {
          if i > 0 { assert items[1..][i - 1] == items[i]; }
        }
      } else if IsPathElementJson(items[0]) {
        var j :| 0 <= j < |items[1..]| && !IsPathElementJson(items[1..][j]);
        assert !IsPathElementJson(items[j + 1]);
      }
    }
  }

  /** What `from_json_value` accepts and what it builds: a non-array or an
      empty array is `InvalidPathFormat`, a bad element is
      `InvalidPathElement`, and a path keeps the array's length and order. */
  lemma FromJsonValueSpec(v: Json)
    ensures FromJsonValue(v).Ok? <==>
      v.Arr? && v.items != [] && forall i :: 0 <= i < |v.items| ==> IsPathElementJson(v.items[i])
    ensures !v.Arr? || v.items == [] ==> FromJsonValue(v) == Err(InvalidPathFormat)
    ensures v.Arr? && v.items != [] && FromJsonValue(v).Err? ==> FromJsonValue(v).error == InvalidPathElement
    ensures FromJsonValue(v).Ok? ==>
      var p := FromJsonValue(v).value;
      && |p| == |v.items|
      && (forall i :: 0 <= i < |p| && v.items[i].Num? ==> p[i] == Index(v.items[i].n))
      && (forall i :: 0 <= i < |p| && v.items[i].Str? ==> p[i] == Key(v.items[i].s))
  {
    if v.Arr? { ElementsFromJsonSpec(v.items); }
  }

  function FirstKeyPath(p: Path): (r: Option<string>)
    ensures r.Some? <==> |p| > 0 && p[0].Key?
    ensures r.Some? ==> p[0] == Key(r.value)
  {
    if |p| == 0 then None
    else match p[0]
      case Index(_) => None
      case Key(k) => Some(k)
  }

  function FirstIndexPath(p: Path): (r: Option<nat>)
    ensures r.Some? <==> |p| > 0 && p[0].Index?
    ensures r.Some? ==> p[0] == Index(r.value)
  {
    if |p| == 0 then None
    else match p[0]
      case Index(i) => Some(i)
      case Key(_) => None
  }

  function Len(p: Path): nat {
    |p|
  }

  predicate IsEmpty(p: Path)
    ensures IsEmpty(p) <==> Len(p) == 0
  {
    p == []
  }

  /** `next_level`: the path one level down. The slice `[1..]` panics on an
      empty path; every caller has just read the first element. */
  function NextLevel(p: Path): (r: Path)
    requires !IsEmpty(p)
    ensures Len(r) == Len(p) - 1
    ensures forall i :: 0 <= i < |r| ==> r[i] == p[i + 1]
  {
    p[1..]
  }

  /** `next_level` applied `n` times. */
  function NextLevels(p: Path, n: nat): Path
    requires n <= Len(p)
  {
    if n == 0 then p else NextLevels(NextLevel(p), n - 1)
  }

  /** Descending one level at a time keeps the tail in order and reaches the
      empty path after exactly `len` steps. */
  lemma {:induction false} NextLevelsDrop(p: Path, n: nat)
    requires n <= Len(p)
    ensures NextLevels(p, n) == p[n..]
    ensures IsEmpty(NextLevels(p, n)) <==> n == Len(p)
  {
    if n > 0 {
      NextLevelsDrop(NextLevel(p), n - 1);
      assert NextLevel(p)[n - 1..] == p[n..];
    }
  }

  // ---------------------------------------------------------------------
  // Path helpers used by src/json.rs and src/transformer.rs. Their source is
  // not part of this model; each is given its evident meaning.
  // ---------------------------------------------------------------------

  /** `is_prefix_of` (assumed): `a` is an initial segment of `b`. */
  predicate IsPrefixOf(a: Path, b: Path) {
    |a| <= |b| && b[..|a|] == a
  }

  /** Two paths that start alike: one is a prefix of the other exactly when
      it has no more elements, or their tails are in the same relation. */
  lemma PrefixStep(a: Path, b: Path)
    requires a != [] && b != [] && a[0] == b[0]
    ensures IsPrefixOf(a, b) <==> |a| == 1 || (|b| > 1 && IsPrefixOf(a[1..], b[1..]))
  {
    if |a| > 1 && |b| > 1 && IsPrefixOf(a[1..], b[1..]) {
      assert b[..|a|] == [b[0]] + b[1..][..|a| - 1];
      assert a == [a[0]] + a[1..];
    }
    if |a| == 1 {
      assert b[..1] == [b[0]];
    }
    if IsPrefixOf(a, b) && |a| > 1 {
      assert b[1..][..|a| - 1] == b[..|a|][1..];
    }
  }

  /** `max_common_path` (assumed): the longest common initial segment. */
  function MaxCommonPath(a: Path, b: Path): (r: Path)
    ensures IsPrefixOf(r, a) && IsPrefixOf(r, b)
    ensures |r| == |a| || |r| == |b| || a[|r|] != b[|r|]
  {
    if a == [] || b == [] || a[0] != b[0] then []
    else [a[0]] + MaxCommonPath(a[1..], b[1..])
  }

  /** `operate_path` (assumed): the path of the container an operator acts
      on, i.e. every element but the last. */
  function OperatePath(p: Path): (r: Path)
    requires p != []
    ensures |r| == |p| - 1 && IsPrefixOf(r, p)
  {
    p[..|p| - 1]
  }

  /** `last` (assumed). */
  function Last(p: Path): PathElement
    requires p != []
  {
    p[|p| - 1]
  }

  /** `get` (assumed): the element at position `i`, if any. */
  function Get(p: Path, i: nat): (r: Option<PathElement>)
    ensures r.Some? <==> i < |p|
    ensures r.Some? ==> r.value == p[i]
  {
    if i < |p| then Some(p[i]) else None
  }

  /** `replace` (assumed): puts `e` at position `i` and hands back what was
      there. */
  function ReplaceAt(p: Path, i: nat, e: PathElement): (r: (Path, Option<PathElement>))
    ensures r.1 == Get(p, i)
    ensures |r.0| == |p|
    ensures forall j :: 0 <= j < |p| ==> r.0[j] == if j == i then e else p[j]
  {
    if i < |p| then (p[i := e], Some(p[i])) else (p, None)
  }

  /** `split_at` (assumed). */
  function SplitAt(p: Path, n: nat): (r: (Path, Path))
    requires n <= |p|
    ensures r.0 + r.1 == p && |r.0| == n
  {
    (p[..n], p[n..])
  }

  /** Adds one to the index at position `at`; a key, or a position past the
      end, is left alone. */
  function IncreaseIndexAt(p: Path, at: nat): (r: Path)
    ensures |r| == |p|
    ensures forall j :: 0 <= j < |p| && j != at ==> r[j] == p[j]
    ensures at < |p| && p[at].Index? ==> r[at] == Index(p[at].i + 1)
    ensures at < |p| && p[at].Key? ==> r[at] == p[at]
  {
    if at < |p| && p[at].Index? then p[at := Index(p[at].i + 1)] else p
  }

  /** Subtracts one from the index at position `at`; a key, an index 0 or a
      position past the end is left alone. */
  function DecreaseIndexAt(p: Path, at: nat): (r: Path)
    ensures |r| == |p|
    ensures forall j :: 0 <= j < |p| && j != at ==> r[j] == p[j]
    ensures at < |p| && p[at].Index? && p[at].i > 0 ==> r[at] == Index(p[at].i - 1)
  {
    if at < |p| && p[at].Index? && p[at].i > 0 then p[at := Index(p[at].i - 1)] else p
  }

  // ---------------------------------------------------------------------
  // The order of path elements used by the transform's `<`, `<=` and `>`
  // (assumed to be the derived order: every index before every key,
  // indices by number, keys lexicographically).
  // ---------------------------------------------------------------------

  predicate StrLt(s: string, t: string) {
    if s == [] then t != []
    else if t == [] then false
    else if s[0] != t[0] then s[0] < t[0]
    else StrLt(s[1..], t[1..])
  }

  predicate ElemLt(a: PathElement, b: PathElement) {
    match (a, b)
    case (Index(i), Index(j)) => i < j
    case (Index(_), Key(_)) => true
    case (Key(_), Index(_)) => false
    case (Key(s), Key(t)) => StrLt(s, t)
  }

  predicate ElemLe(a: PathElement, b: PathElement) {
    ElemLt(a, b) || a == b
  }

  lemma {:induction false} StrLtIrreflexive(s: string)
    ensures !StrLt(s, s)
  {
    if s != [] { StrLtIrreflexive(s[1..]); }
  }

  lemma {:induction false} StrLtTransitive(s: string, t: string, u: string)
    requires StrLt(s, t) && StrLt(t, u)
    ensures StrLt(s, u)
  {
    if s != [] && t != [] && u != [] && s[0] == t[0] && t[0] == u[0] {
      StrLtTransitive(s[1..], t[1..], u[1..]);
    }
  }

  lemma {:induction false} StrLtTrichotomy(s: string, t: string)
    ensures StrLt(s, t) || s == t || StrLt(t, s)
  {
    if s != [] && t != [] && s[0] == t[0] {
      StrLtTrichotomy(s[1..], t[1..]);
      if s[1..] == t[1..] {
        assert s == [s[0]] + s[1..] && t == [t[0]] + t[1..];
      }
    }
  }

  /** The element order is a strict total order. */
  lemma ElemLtStrictTotalOrder(a: PathElement, b: PathElement, c: PathElement)
    ensures !ElemLt(a, a)
    ensures ElemLt(a, b) && ElemLt(b, c) ==> ElemLt(a, c)
    ensures ElemLt(a, b) || a == b || ElemLt(b, a)
  {
    if a.Key? { StrLtIrreflexive(a.k); }
    if a.Key? && b.Key? && c.Key? && StrLt(a.k, b.k) && StrLt(b.k, c.k) { StrLtTransitive(a.k, b.k, c.k); }
    if a.Key? && b.Key? { StrLtTrichotomy(a.k, b.k); }
  }
}
