# json0-rs in Dafny

A model of the core of json0-rs, a Rust implementation of json0. json0 is the
operational-transformation type for JSON documents that ShareJS and ShareDB
use. An *operation* is a list of *components*. Each component is a path into
the document and an *operator* acting at the path's last element:

- list insert, delete, replace and move;
- object insert, delete and replace;
- number add.

The model covers four parts:

- **Paths** (`src/path.rs`): decoding a path from a JSON array, and the
  head/tail accessors.
- **Navigation and apply** (`src/json.rs`):
  - `route_get` and `route_get_mut`;
  - `apply` for a value, an array and an object;
  - the `JSON` document, which runs operations left to right.
- **Operators** (`src/operation.rs`):
  - decoding from the `na`/`lm`/`li`/`ld`/`oi`/`od` keys;
  - validation;
  - `merge`, which collapses two adjacent components on one path;
  - `consume`, which never acts at its one call site (a finding; the
    corrected reading folds the deeper base's effect instead).
- **Transformer** (`src/transformer.rs`):
  - `transform_component`, the case table that rebases one component against
    a concurrent one;
  - its lifting to operations (`transform_multi`, `transform_matrix`,
    `transform`);
  - `append`, `compose` and `invert`.

The files are:

| file | module | models |
|---|---|---|
| `values.dfy` | `Values` | JSON values, the error type, `Result`/`Option` |
| `path.dfy` | `Paths` | `src/path.rs` and the path helpers the other files call |
| `operation.dfy` | `Operation` | `src/operation.rs` except `consume` |
| `json.dfy` | `JsonDocument` | `src/json.rs`: routing, apply, the `Document` class |
| `operation_consume.dfy` | `OperationConsume` | `consume`, which needs the apply engine |
| `transformer.dfy` | `Transformer` | `src/transformer.rs` |
| `transformer_properties.dfy` | `TransformerProperties` | what the case table does to positions and documents |
| `operator_semantics.dfy` | `OperatorSemantics` | soundness of `merge`, `invert`, `append` and `compose` against apply |

Design choices:

- **Values and in-place edits.** A JSON value is a tree datatype and numbers
  are mathematical integers. The Rust code edits the parent `Vec` or `Map`
  in place through the handle `route_get_mut` returns. Here the edited
  parent is written back along the route (`Put`). The `JSON` document is a
  class whose `Apply` method is the source's nested loop over `self.value`.
- **Panics.** Where the Rust code panics, the model returns `Err(Panic)`.
  This covers an `unwrap` of `None`, `assert!`, an out-of-range `Vec` index
  or insert, and `usize` underflow. Underflow (`Transformer.MoveDown`)
  follows the debug profile, which panics; a release build wraps it to
  `usize::MAX` instead.
- **Two readings.** `transform_component` is defined once, as
  `Transformer.TransformComponentIn`, for two readings:
  - `AsWritten` is the code as it stands.
  - `Corrected` fixes the `src/transformer.rs` defects listed under Findings.

  `transform_multi` has one correction of its own, `Transformer.NextBase`.
  The methods `Transform`, `TransformMatrix` and `TransformMulti` implement
  the corrected reading. The as-written reading exists to exhibit the
  findings.
- **The merge table.** `merge` is modelled in its corrected form,
  `Operation.MergeOperator`. Its `od v1` then `oi v2` entry is
  `ObjectReplace(v2, v1)`. `Operation.MergeOperatorAsWritten` keeps the entry
  written at `src/operation.rs:222`, `ObjectReplace(v1, v2)`, and is the same
  table everywhere else. `Operation.Merge`, `Transformer.Append`,
  `Transformer.AppendAll`, `Transformer.ComposeSpec` and the
  `Transformer.Compose` method all use the corrected entry.

## Model

| member | source | states |
|---|---|---|
| Paths.FromJsonValueSpec | src/path.rs:24-49 | A non-array or empty array is `InvalidPathFormat`. A bad element is `InvalidPathElement`. Otherwise the path keeps the array's length and order, with `Index(n)` for a non-negative integer and `Key(s)` for a string. |
| Paths.ElementsFromJsonSpec | src/path.rs:30-43 | The element-wise conversion succeeds iff every element is a non-negative integer or a string. It fails with `InvalidPathElement`, and on success maps each element in place. |
| Paths.FirstKeyPath | src/path.rs:51-61 | `Some(k)` exactly when the path is non-empty and its head is `Key(k)`. |
| Paths.FirstIndexPath | src/path.rs:63-73 | `Some(i)` exactly when the path is non-empty and its head is `Index(i)`. |
| Paths.IsEmpty | src/path.rs:75-81 | `is_empty` holds iff `len` is 0. |
| Paths.NextLevel | src/path.rs:83-87 | Drops exactly the first element: the length falls by one and the rest keeps its order. |
| Paths.NextLevelsDrop | src/path.rs:83-87 | `n` calls of `next_level` leave the suffix from `n`, and reach the empty path exactly after `len` calls. |
| Paths.MaxCommonPath | src/transformer.rs:197 | The helper's result is a common prefix of both paths and is maximal: the paths differ right after it, or one of them ends there. |
| Paths.OperatePath | src/transformer.rs:207-208 | The container path: one element shorter than the path and a prefix of it. |
| Paths.Get | src/transformer.rs:278-279 | `Some(p[i])` exactly when `i` is in range, else `None`. |
| Paths.ReplaceAt | src/transformer.rs:110 | Puts `e` at position `i`, keeps every other element and the length, and returns what `get(i)` returned. |
| Paths.SplitAt | src/json.rs:296 | The two halves concatenate to the path, and the first has length `n`. |
| Paths.IncreaseIndexAt | src/transformer.rs:267-269 | Adds one to the index at the position; keys and all other positions are unchanged. |
| Paths.DecreaseIndexAt | src/transformer.rs:295-296 | Subtracts one from a positive index at the position; all other positions are unchanged. |
| Paths.ElemLtStrictTotalOrder | src/transformer.rs:267 | The order of path elements that the case table compares with is irreflexive, transitive and total. |
| Operation.ValueToIndex | src/operation.rs:99-107 | Succeeds exactly on non-negative integers, returning that integer; anything else is `InvalidOperation`. |
| Operation.OperatorFromJsonSpec | src/operation.rs:31-97 | The first of `na`, `lm`, `li`, `ld`, `oi`, `od` decides the operator: `li`+`ld` is `ListReplace` and `oi`+`od` is `ObjectReplace`. The object must have exactly 2 keys, or 3 for a Replace. `lm` must be a non-negative integer. No known key is `InvalidOperation`. A decoded operator is never `Noop`. |
| Operation.OperatorRoundTrip | src/operation.rs:31-42 | Decoding an operator's json0 encoding gives the operator back, for every operator except `Noop`, which has no decodable encoding. |
| Operation.ListOperatorRoundTrip | src/operation.rs:44-63 | The round trip for the number and list operators. |
| Operation.ObjectOperatorRoundTrip | src/operation.rs:65-76 | The round trip for the object operators. |
| Operation.PathRoundTrip | src/path.rs:24-49 | Decoding a non-empty path's array encoding gives the path back. |
| Operation.ComponentRoundTrip | src/operation.rs:135-150 | Decoding a component's encoding (path under `p`, then the operator) gives the component back when its path is non-empty and its operator is not `Noop`. |
| Operation.ValidateComponent | src/operation.rs:282-289 | Succeeds iff the path is non-empty and an `AddNumber` operand is a number; otherwise `InvalidOperation`. |
| Operation.ValidateOperation | src/json.rs:431-438 | An operation validates iff every component does; the error is `InvalidOperation`. |
| Operation.Merge | src/operation.rs:160-249 | Returns true exactly when the merge table has an entry; then `self` takes the merged operator on its own path, and otherwise `self` is unchanged. |
| JsonDocument.RouteGetOneLevel | src/json.rs:23-110 | At one level, `route_get` behaves as follows. A scalar with an empty path is itself; with any other path it is `BadPath`. `Null` is `None`. A key against an array, or an index against an object, is `BadPath`. A missing key or an index past the end is `Ok(None)`. Otherwise the element is found. |
| JsonDocument.RouteCompose | src/json.rs:54-110 | Routing along `p + q` is routing along `p`, then along `q` from what was found. |
| JsonDocument.RouteGetMutAgrees | src/json.rs:23-50 | When `route_get_mut` finds a value along a non-empty path, `route_get` finds the same one. |
| JsonDocument.PutFinds | src/json.rs:295-301 | After the in-place write at a route, routing there finds the new child. |
| JsonDocument.PutOverrides | src/json.rs:295-301 | A second write at the same route overrides the first. |
| JsonDocument.PutBack | src/json.rs:295-301 | Writing back the child already there changes nothing. |
| JsonDocument.PutFrame | src/json.rs:295-301 | The write leaves alone every path that parts from its route. |
| JsonDocument.ApplyAtParent | src/json.rs:295-301 | A path longer than one acts on the parent `route_get_mut` finds. A routing error is returned, and a missing parent is `BadPath`. Otherwise the outcome is the parent-level apply, written back in place. |
| JsonDocument.ListInsertPlaces | src/json.rs:390-397 | Inserts at the index, or at the end when the index is past it. The list grows by exactly one and keeps its other elements in order. |
| JsonDocument.ListGuardedEdits | src/json.rs:398-413 | Delete and Replace act only when the element equals the expected old value; otherwise the list is unchanged and the result is `Ok`. |
| JsonDocument.ListMoveRelocates | src/json.rs:414-423 | A move onto itself, or of a missing element, changes nothing. A target past the end panics. Otherwise the element ends at the target and the others keep their relative order. |
| JsonDocument.ObjectEdits | src/json.rs:342-361 | Insert sets the key unconditionally. Delete and Replace act only when the key holds the expected old value. |
| JsonDocument.OperatorKinds | src/json.rs:302-324 | `AddNumber` on a number leaf gives the sum, and any other operator on a number is `InvalidOperation`. List operators on an object, and object operators on a list, are `BadPath`. |
| JsonDocument.RunSplit | src/json.rs:523-530 | Running `s + t` runs `s` and, only if it succeeded, `t` from where `s` stopped; a failure is final and is not undone. |
| JsonDocument.RunStep | src/json.rs:524-527 | One step: the first component's failure stops the run with the value unchanged, and its success continues from the new value. |
| JsonDocument.Document.Get | src/json.rs:532-534 | The document's `get` is `route_get` on its value. `JsonDocument.RouteGetOneLevel` and `JsonDocument.RouteCompose` state what that finds. |
| JsonDocument.Document.Apply | src/json.rs:523-530 | The document's new value and the result are those of running every component of every operation in order. |
| OperationConsume.ConsumeInertInTransform | src/operation.rs:252-257 | The defect at the call site: `transform_component` calls `consume` only when the base is strictly deeper than the new component, which is exactly when `consume`'s guard returns early. So the base's effect is never folded in, whatever the operators. |
| OperationConsume.FoldTracksDocument | src/transformer.rs:222-226 | What the call site intends ("new_op should include base_op's effect"), for the corrected fold `FoldBelow`. When a Delete or Replace expects the value the document holds at its path, the fold succeeds exactly when the deeper base applies. The folded component keeps its path, kind and new value. Its old value is what the document holds at that path after the base, and the rest of the document is as the base left it. |
| JsonDocument.ApplyBeneath | src/json.rs:295-301 | Applying along `p + r` where `p` finds `u` is applying along `r` inside `u` and writing the result back at `p`; a failure inside `u` is the failure of the whole. |
| JsonDocument.PutNested | src/json.rs:295-301 | A route along `p + q` passes through the value found along `p`, and writing back at `p + q` is writing back at `p` the value with the write at `q` done. |
| Transformer.TransformMulti | src/transformer.rs:160-187 | The loop returns the value of `MultiIn`. Each component is rebased LEFT against the current base, the base is rebased RIGHT against the component, and a missing base passes components through. |
| Transformer.TransformMatrix | src/transformer.rs:137-158 | The loop returns the value of `MatrixLoopIn`, or both sides unchanged when either is empty. |
| Transformer.Transform | src/transformer.rs:35-63 | An empty base gives `(operation, [])`. Otherwise both sides are validated. Two single components are rebased LEFT and RIGHT against each other; anything else goes through the matrix. |
| Transformer.Compose | src/transformer.rs:126-135 | The loop returns `a` validated, with `b`'s components appended one by one. |
| TransformerProperties.NoopEquivalentChangesNothing | src/transformer.rs:8-21 | A component `is_equivalent_to_noop` accepts never changes a document at any depth: a `Noop` fails, and an identity Replace fails or leaves the value as it was. |
| TransformerProperties.LocalNoopEquivalent | src/transformer.rs:8-21 | The same at the level where the operator acts. |
| TransformerProperties.TransformUnrelated | src/transformer.rs:197-216 | The component is returned unchanged when the paths share no prefix (as written, or outside a top-level list in the corrected reading), when either side is noop-equivalent, or when the paths part below both container paths. |
| TransformerProperties.TransformDeeperBase | src/transformer.rs:222-233 | As written, a deeper base never changes the component, because `consume` is inert there (the defect). In the corrected reading, a Delete or Replace whose path is a prefix of the base's (neither side noop-equivalent) comes back folded by `FoldBelow`, and fails exactly where the fold fails; every other component comes back unchanged. |
| TransformerProperties.InsertAgainstInsert | src/transformer.rs:258-264 | Two inserts at the same place: LEFT keeps its index and RIGHT moves up by one. |
| TransformerProperties.InsertShiftsLaterPositions | src/transformer.rs:257-276 | A list insert moves any component on or below an element of that list to where that element ends up after the insert, and moves a same-list move target at or after it up by one. |
| TransformerProperties.InsertTracksElements | src/json.rs:390-397 | The index arithmetic the insert rule uses is where applying the insert puts each old element. |
| TransformerProperties.DeleteShiftsLaterPositions | src/transformer.rs:277-314 | A list delete moves any component on or below another element of that list to where that element ends up after the delete. |
| TransformerProperties.DeleteTracksElements | src/json.rs:398-405 | The index arithmetic the delete rule uses is where applying the delete puts each other element. |
| TransformerProperties.DeleteOfSameElement | src/transformer.rs:280-312 | Against a delete of the same element, a delete or a move vanishes, and a replace becomes an insert of its new value. |
| TransformerProperties.DeleteBelowDeletedElement | src/transformer.rs:297-301 | A component below the deleted element vanishes. |
| TransformerProperties.DeleteBelowDeletedElementAsWritten | src/transformer.rs:278-279 | As written, the same inputs panic. |
| TransformerProperties.MoveCarriesPositions | src/transformer.rs:470-484 | A list move carries any component on or below an element of that list to where applying the move takes that element. |
| TransformerProperties.MoveTracksElements | src/json.rs:414-423 | The index arithmetic the move rule uses is where applying the move takes each element. |
| TransformerProperties.MoveBelowAsWrittenPanics | src/transformer.rs:470 | As written, a component strictly below an element of a moved list panics: the base is read at the component's last position, past the base's end. |
| TransformerProperties.InsertFollowsMove | src/transformer.rs:455-466 | A list insert against a move in the same list goes in front of the element it went in front of, wherever the move took that element. This holds when the insertion point is neither the moved element's old index nor its target. |
| TransformerProperties.InsertAndMoveConverge | src/transformer.rs:455-466 | In that case the two orders agree: the move then the rebased insert gives the same list as the insert then the rebased move. |
| TransformerProperties.MoveValue | src/json.rs:414-423 | A move within a list, the identity move included, is a removal followed by an insertion at the target. |
| TransformerProperties.DeleteRetargetsMove | src/transformer.rs:280-292 | A list move against a delete of another element of its list follows its element. Its target drops by one when the deleted element was before it, or at it while the move was forward. |
| TransformerProperties.MoveAndDeleteConverge | src/transformer.rs:280-296 | The two orders agree. Deleting first and then making the rebased move gives the list that moving first and then deleting the element where it went gives. |
| TransformerProperties.WritesToSameKey | src/transformer.rs:315-394 | At the same key, an insert or replace handled against a base Replace, Insert or Delete is dropped on the RIGHT. On the LEFT it becomes a Replace of the base's value, or an Insert after a Delete. |
| TransformerProperties.DeleteOfSameKey | src/transformer.rs:315-394 | At the same key, a delete vanishes against a delete. Against a Replace it vanishes as written, and in the corrected reading the LEFT deletes the replacing value. Against an Insert it is kept on the LEFT and dropped on the RIGHT. |
| TransformerProperties.BelowReplacedOrDeletedKey | src/transformer.rs:315-394 | Anything below a replaced or deleted key vanishes. |
| TransformerProperties.BelowInsertedKey | src/transformer.rs:337-373 | Below an inserted key, a LEFT insert or replace first deletes the base's value and then applies; a RIGHT one is dropped. A delete is kept on the LEFT and dropped on the RIGHT. |
| TransformerProperties.KeyWritesConverge | src/transformer.rs:315-350 | Two writes of one key give the same document in either order once rebased, and the LEFT value wins. |
| TransformerProperties.WriteAndDeleteConverge | src/transformer.rs:315-394 | A write and a delete of one key converge whichever side each is on (corrected reading). |
| TransformerProperties.DeleteAgainstReplaceAsWrittenDiverges | src/transformer.rs:331-333 | As written, a LEFT delete against a replace of the same key does not converge. |
| TransformerProperties.ConsumeAsWrittenDiverges | src/transformer.rs:222-233 | As written, `od {b:x}` at `[a]` against `oi y, od x` at `[a,b]` on `{a:{b:x}}`, with `x != y`, does not converge (the example is `a`, `b`, 1, 2). The delete keeps the stale old value, so one order ends with `{a:{b:y}}` and the other with `{}`. |
| TransformerProperties.ConsumeExampleTransforms | src/transformer.rs:222-233 | In the corrected reading that delete comes back with its old value folded to `{b:y}`. |
| TransformerProperties.ConsumeCorrectedConverges | src/transformer.rs:222-233 | In the corrected reading the same inputs converge, and both orders end with `{}`. |
| TransformerProperties.KeyEditAboveEditConverges | src/transformer.rs:222-233 | In the corrected reading, on any document: an ObjectDelete, or an ObjectReplace that is not noop-equivalent, whose old value matches the document converges with any non-noop-equivalent component strictly below its key that applies. Both orders end as the delete or replace alone leaves the document. |
| TransformerProperties.GuardedKeyEditAfterPut | src/json.rs:342-361 | A key Delete or Replace whose expected old value is rewritten to what the document now holds at the key acts as the original did on the original document. |
| TransformerProperties.ListInsertsConverge | src/transformer.rs:257-276 | Two inserts into the same top-level list converge, whatever their indices. |
| TransformerProperties.InsertsAtSamePlaceConverge | src/transformer.rs:258-264 | The case of two inserts at one index. |
| TransformerProperties.InsertsBeforeConverge | src/transformer.rs:267-269 | The case of an insert before the base's. |
| TransformerProperties.InsertsAfterConverge | src/transformer.rs:267-269 | The case of an insert after the base's. |
| TransformerProperties.TopLevelInsertsAsWrittenDiverge | src/transformer.rs:197-201 | As written, inserts at `[1]` and `[0]` of a top-level list do not converge. |
| TransformerProperties.TopLevelInsertRuns | src/json.rs:390-397 | The two orders of that example reach different lists. |
| TransformerProperties.MoveExampleTransforms | src/transformer.rs:470-484 | As written, a delete at `xs[1]` is left alone by a move of `xs[0]` to 1; in the corrected reading it follows the element to `xs[0]`. |
| TransformerProperties.MoveExampleRuns | src/json.rs:414-423 | The documents that example reaches in each order. |
| TransformerProperties.MoveFirstRuns | src/json.rs:414-423 | Moving first, then deleting at either index. |
| TransformerProperties.DeleteFirstRuns | src/json.rs:398-405 | Deleting first, then the rebased move. |
| TransformerProperties.MoveInExample | src/json.rs:414-423 | The move of that example, applied. |
| TransformerProperties.MoveTargetAsWrittenDiverges | src/transformer.rs:470-471 | As written, that example does not converge. |
| TransformerProperties.MoveTargetCorrectedConverges | src/transformer.rs:470-484 | In the corrected reading it converges. |
| TransformerProperties.InsertExampleTransforms | src/transformer.rs:257-276 | As written, a write below `xs[0]` is not shifted by an insert at `xs[0]`; in the corrected reading it moves to `xs[1]`. |
| TransformerProperties.InsertExampleRuns | src/json.rs:390-397 | The documents that example reaches in each order. |
| TransformerProperties.InsertThenWrite | src/json.rs:342-345 | The insert, then the write at either index. |
| TransformerProperties.WriteThenInsert | src/json.rs:342-345 | The write, then the insert. |
| TransformerProperties.InsertBelowAsWrittenDiverges | src/transformer.rs:267-269 | As written, that example does not converge. |
| TransformerProperties.InsertBelowCorrectedConverges | src/transformer.rs:267-269 | In the corrected reading it converges. |
| TransformerProperties.MultiNoBase | src/transformer.rs:179-182 | With no base left, `transform_multi` passes every component through and returns no base. |
| TransformerProperties.MultiAbsorbedBase | src/transformer.rs:170-176 | When the base is absorbed by the first component, the code as written panics at its `assert!`. The corrected loop returns the first component's rebasing, the rest unchanged, and no base. |
| TransformerProperties.RightYieldsAtMostOne | src/transformer.rs:189-490 | A RIGHT rebasing gives at most one component, so the `assert!` can fail only on an empty result. |
| TransformerProperties.LeftYieldsAtMostTwo | src/transformer.rs:337-363 | A LEFT rebasing gives at most two components, and two only as the delete-then-insert below an inserted key. |
| TransformerProperties.SingletonShortcutAgrees | src/transformer.rs:47-62 | For one valid component against one non-Noop base, the shortcut in `transform` agrees with `transform_matrix`. |
| TransformerProperties.AbsorbedBaseTransforms | src/transformer.rs:170-176 | As written, transforming `[ld A, li C]` against `[ld A]` at `xs[0]` panics. Corrected, it gives `[li C]` and an empty base. |
| TransformerProperties.AbsorbedBaseRuns | src/json.rs:390-405 | Both orders of that example reach `["C"]`. |
| TransformerProperties.AppendValid | src/transformer.rs:65-93 | Over a valid operation, `append` succeeds iff the component is valid (else `InvalidOperation`), and the result is valid. |
| TransformerProperties.AppendAllValid | src/transformer.rs:130-132 | The same for appending a list of components in order. |
| TransformerProperties.ComposeValid | src/transformer.rs:126-135 | `compose` succeeds iff both operations are valid, and the result is valid. |
| OperatorSemantics.ApplyThroughParent | src/json.rs:295-301 | Applying at any depth is applying at the parent and writing the parent back. |
| OperatorSemantics.WithParentLaws | src/json.rs:295-301 | Writing back a parent: it is found afterwards, a second write overrides it, and writing back the same parent changes nothing. |
| OperatorSemantics.ExpectedApplies | src/json.rs:327-426 | Where an operator's json0 precondition holds, applying it succeeds. |
| OperatorSemantics.MergeSoundLocal | src/operation.rs:160-249 | Where it acts, a merged operator does what the two merged ones do in turn, and a merge to `Noop` means the second undoes the first. |
| OperatorSemantics.MergeSound | src/operation.rs:160-249 | The same at any depth. |
| OperatorSemantics.MergeAsWrittenDisagrees | src/operation.rs:221-224 | As written, the merge of `od 1` then `oi 2` restores the old value 1 where the pair writes 2. |
| OperatorSemantics.InvertInvolutive | src/transformer.rs:95-124 | An invalid component is `InvalidOperation`. A move inverts iff its last path element is an index; every other valid component inverts. The inverse is valid, and inverting twice gives the component back. |
| OperatorSemantics.InvertUndoesLocal | src/transformer.rs:95-124 | Where it acts, the inverse of an applied component restores the value, on the same container path. |
| OperatorSemantics.InvertUndoesMove | src/transformer.rs:109-116 | The inverse of a move (its target and source swapped) moves the element back. |
| OperatorSemantics.MoveBackRestores | src/json.rs:414-423 | A move from `i` to `j`, then from `j` to `i`, restores the list. |
| OperatorSemantics.InvertUndoesAdd | src/transformer.rs:101-103 | The negated delta undoes an add. |
| OperatorSemantics.InvertUndoes | src/transformer.rs:95-124 | At any depth, applying a component and then its inverse restores the document. |
| OperatorSemantics.IdentityMoveChangesNothing | src/transformer.rs:68-77 | A move onto its own index changes nothing when it applies, which is why `append` may drop it. |
| OperatorSemantics.AppendSound | src/transformer.rs:65-93 | Running the result of `append` gives the same document and outcome as running the operation and then the component. |
| OperatorSemantics.AppendIdentityMoveSound | src/transformer.rs:68-77 | The case of the dropped identity move. |
| OperatorSemantics.AppendMergeSound | src/transformer.rs:84-90 | The case of a merge, including the pop of a pair merged to `Noop`. |
| OperatorSemantics.AppendAllSound | src/transformer.rs:130-132 | Appending components one by one runs like the operation followed by the components. This holds wherever that run succeeds and each merge meets `AppendSound`'s precondition. |
| OperatorSemantics.ComposeSound | src/transformer.rs:126-135 | `compose(a, b)` runs like `a` then `b` under the same conditions. |
| OperatorSemantics.ComposeInsertOverExistingKey | src/operation.rs:204-211 | Without the precondition the merge is unsound. `oi 2` on a key holding 1, then `od 2`, composes to nothing, yet the pair removes the key. |

## Left out

- Text input and output are not modelled:
  - `from_str` for paths, components and the document (serde parsing);
  - `Display`;
  - the `info!` logging in `transform_component`.

  Decoding starts from an already-parsed JSON value. The json0 encoder
  (`Operation.ComponentToJson`, `Operation.PathToJson`) is written only to
  state the round trips; the crate has no encoder in these files.
- The test harness in `tests/integration.rs` reads test vectors from files;
  it is not modelled.
- `src/error.rs`, `src/sub_type.rs`, `src/lib.rs` and `src/common.rs` hold
  only declarations.
  - Errors keep their variant and drop their message strings.
  - Serde conversion errors cannot arise on integers and are not modelled.
- `src/json.rs:113-504` holds an older `Operator`, `OperationComponent` and
  `Transformer`. It is superseded by `src/operation.rs` and
  `src/transformer.rs`, and only its `Validation` impls (`src/json.rs:431-447`)
  are used.
- The path helpers that `src/json.rs` and `src/transformer.rs` call are not
  part of this model's sources. They are given their evident meaning, stated
  by their contracts. The helpers are `max_common_path`, `is_prefix_of`,
  `operate_path`, `increase_last_index_path`, `decrease_last_index_path`,
  `replace`, `split_at`, `get`, `last` and `not_noop`.
- The order `<`/`<=` on path elements is taken to be the derived one:
  indices before keys, indices by number, keys lexicographically by
  character.
- Numbers are mathematical integers. The source reads operands with
  `as_u64().unwrap()` in apply and `as_i64().unwrap()` in `merge` and
  `invert`, so it panics on negative or fractional numbers, and it can
  overflow. Floats and `u64`/`i64` bounds are not modelled.
- `OperatorSemantics.ExpectedApplies` and `JsonDocument.Document.Apply`
  apply an `AddNumber` with a negative operand as integer addition, where
  the source would panic on `as_u64`.
- OperatorSemantics.InvertUndoesAdd and the `AddNumber` case of
  `OperatorSemantics.InvertUndoes` hold over the integers only. In the
  source the inverse of an add has a negative operand. Applying it reaches
  `v.as_u64().unwrap()` (`src/json.rs:307`, `src/json.rs:378`) and panics.
  So in the source an add is never undone by its inverse unless its delta
  is 0.
- Operation.Merge: uses the corrected `od`+`oi` entry, `ObjectReplace(v2, v1)`.
  The entry as written at `src/operation.rs:222` is
  `Operation.MergeOperatorAsWritten`, listed under Findings.
- Transformer.Compose: like `Transformer.Append`, `Transformer.AppendAll` and
  `Transformer.ComposeSpec`, it merges with the corrected `od`+`oi` entry and
  not the one written at `src/operation.rs:222`. Its soundness
  (`OperatorSemantics.ComposeSound`) is stated where json0's preconditions
  hold at every merge (`OperatorSemantics.AppendsExpected`).
  `OperatorSemantics.ComposeInsertOverExistingKey` shows that this
  condition cannot be dropped.
- Aliasing is not modelled. `merge`, `consume` and `append` update
  `self.operator`, `self.path` or the operation vector in place. Here they
  are functions that return the new component or operation, because no
  caller shares those values.
- `JSON::apply` stops at the first error without undoing earlier
  components. The model keeps that behaviour (`JsonDocument.Run`) and adds
  no rollback.
- No general convergence theorem over the whole case table is stated. The
  branch for a ListMove against a ListMove (`Transformer.MoveAgainstMove`)
  is modelled as written, with the move-target correction, but no property
  is proved about it. The same holds for:
  - a ListReplace base against an insert or move of the same element;
  - an ObjectInsert base on a key that already exists;
  - a ListInsert against a ListMove base in the same list whose insertion
    point is the moved element's old index or its target
    (`src/transformer.rs:459-464`). These ties are placed by the source's
    comparisons, and no element-tracking law picks one placement;
  - a ListMove against a ListDelete base at the moved element itself, which
    is dropped (`src/transformer.rs:282-285`).
- TransformerProperties.SingletonShortcutAgrees: requires a base that is not
  `Noop`. With a `Noop` base the shortcut in `transform` returns the `Noop`
  base back, while `transform_matrix` drops it.
- OperatorSemantics.MergeSound: stated only where the first operator's json0
  precondition holds (`OperatorSemantics.ExpectsAt`: the element or key
  holds the expected old value, an index is in range, an inserted key is
  absent). Outside it, the guarded operators silently do nothing and no
  merge law holds.
- OperatorSemantics.InvertUndoes: stated only where the component's json0
  precondition holds, for the same reason.
- OperatorSemantics.AppendSound: when `append` merges (same path and an
  entry in the merge table), it is stated only where the precondition of
  the last component holds, for the same reason.
- TransformerProperties.KeyEditAboveEditConverges: proved for an ObjectDelete
  or ObjectReplace above the deeper component. For a ListDelete or
  ListReplace above it, only the fold itself
  (`OperationConsume.FoldTracksDocument`) is proved, not convergence.
- TransformerProperties.ListInsertsConverge: stated for the top level
  list of a document; the lemmas about positions
  (`InsertShiftsLaterPositions`, `DeleteShiftsLaterPositions`,
  `MoveCarriesPositions`) cover lists at any depth.

## Findings

| source | as written | input that shows it | evidently intended | confidence | as-written member | corrected member |
|---|---|---|---|---|---|---|
| src/operation.rs:221-224 | `od v1` then `oi v2` on one key merges to `ObjectReplace(v1, v2)`, whose new value is the deleted `v1` | `{"x":1}`, merge of `od 1` then `oi 2`: the merged Replace leaves `{"x":1}` where the pair gives `{"x":2}` | `ObjectReplace(v2, v1)`: new value `v2`, old value `v1` | not executed | OperatorSemantics.MergeAsWrittenDisagrees | OperatorSemantics.MergeSound |
| src/transformer.rs:267-269 | a list-insert base is compared with, and shifts, the new component's LAST path element even when that component is deeper than the base | `{"xs":[{}]}`, `oi "v"` at `[xs,0,k]` against `li {}` at `[xs,0]`: the write stays on `xs[0]`, which is the inserted object, and the two orders diverge | compare and shift the element at the base's last position | not executed | TransformerProperties.InsertBelowAsWrittenDiverges | TransformerProperties.InsertShiftsLaterPositions |
| src/transformer.rs:278-279 | a list-delete base reads `base.path.get(new_operate_path.len()).unwrap()`, which is past the base's end when the new component is deeper | `ld` at `[xs,0]` against any component below it, such as `oi` at `[xs,0,k]`, that is not noop-equivalent: panics | read the base's last element, and drop the component below the deleted element | not executed | TransformerProperties.DeleteBelowDeletedElementAsWritten | TransformerProperties.DeleteBelowDeletedElement |
| src/transformer.rs:400-402, 457, 471 | a list-move target is read as `path.get(lm)`, the path element at POSITION `lm`, not the index `lm` | `{"xs":["A","B"]}`, `ld "B"` at `[xs,1]` against `lm 1` at `[xs,0]`: the delete is not shifted, and the two orders end as `["A"]` and `["B","A"]` | the target is `Index(lm)` | not executed | TransformerProperties.MoveTargetAsWrittenDiverges | TransformerProperties.MoveCarriesPositions |
| src/transformer.rs:470 | a list-move base reads `base.path.get(new_operate_path.len()).unwrap()`, which is past the base's end when the new component is deeper than the base | `oi "v"` at `[xs,0,k]` against `lm 1` at `[xs,0]`: panics | read the base's last element, and carry the component with its element | not executed | TransformerProperties.MoveBelowAsWrittenPanics | TransformerProperties.MoveCarriesPositions |
| src/transformer.rs:174 | `assert!(b.len() == 1)` after rebasing the base, though a base can be absorbed (an empty result) | `transform([ld "A" @ [xs,0], li "C" @ [xs,0]], [ld "A" @ [xs,0]])`: panics | an absorbed base ends; the rest of the operation passes unchanged | not executed | TransformerProperties.AbsorbedBaseTransforms | TransformerProperties.MultiAbsorbedBase |
| src/transformer.rs:197-201 | components whose paths share no prefix are returned unchanged, including siblings in a top-level list | `["X"]`, `li "B"` at `[1]` against `li "A"` at `[0]`: the orders end as `["A","B","X"]` and `["A","X","B"]` | a top-level list base still shifts its siblings | not executed | TransformerProperties.TopLevelInsertsAsWrittenDiverge | TransformerProperties.ListInsertsConverge |
| src/operation.rs:252-257 | `transform_component` calls `consume` only when the base is strictly deeper than the new component (`src/transformer.rs:222-226`), and that is exactly when `consume`'s guard returns early, so a Delete or Replace above the base keeps a stale old value | `{"a":{"b":1}}`, `od {"b":1}` at `[a]` against `oi 2, od 1` at `[a,b]`: the orders end as `{"a":{"b":2}}` and `{}` | fold the base's operator into the old value at the base's path below the component's (`OperationConsume.FoldBelow`) | not executed | TransformerProperties.ConsumeAsWrittenDiverges | TransformerProperties.KeyEditAboveEditConverges |
| src/transformer.rs:331-333 | a LEFT `od` against an `ObjectReplace` of the same key is dropped, while the RIGHT outcome deletes the key | `{"k":1}`, `od 1` at `[k]` against `oi 2, od 1` at `[k]`: the orders end as `{"k":2}` and `{}` | the LEFT delete removes the replacing value | not executed | TransformerProperties.DeleteAgainstReplaceAsWrittenDiverges | TransformerProperties.WriteAndDeleteConverge |
