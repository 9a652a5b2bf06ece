# secure-convex schema converter, modelled in Dafny

secure-convex derives Convex database validators from valibot schemas. The
core of it is `valibotToConvex` in `src/schemaValidation.ts`. It takes a
valibot schema (or a bare `{type, expects}` descriptor) and builds the
matching Convex field validator, or throws. It works in three steps:

- It first checks the schema's metadata. A `_CV_T_` tag returns the tagged
  validator. A `_CV_ID_` tag from `convexId` returns `v.id(table)`.
- Otherwise it dispatches on the schema's `type`, recursing into array
  items, object entries, record values, union, variant and wrapper children.
- Union options go through `uniqueUnions`, which collapses members of the
  same Convex `kind`.

The code is pure: it mutates nothing and recurses on the input tree. So the
model is pure too, made of datatypes, recursive functions and lemmas. The
one loop in the core, the `for … of` in `uniqueUnions`, is also a method
with a loop invariant, proved equal to the functional reducer.

Modules:

- `Outcomes` (outcomes.dfy): the result of a call that may throw or never
  return. `AllOk` is a JavaScript `map` whose callback may throw, where the
  first failure wins.
- `ConvexValidators` (validators.dfy): Convex validators, each a shape
  plus an `isOptional` flag.
- `ValibotSchemas` (schemas.dfy): the schema tree that `valibotToConvex`
  reads, with the metadata it inspects on each node. Also `convexId` as a
  tagged-node constructor.
- `Unions` (unions.dfy): `uniqueUnions`. It has a fold over an
  insertion-ordered map keyed by kind, the loop written as the source
  writes it, and a property specification (`ReducedFrom`). The lemmas prove
  that the reducer meets that specification and that the specification has
  exactly one solution.
- `SchemaValidation` (convert.dfy): `valibotToConvex` as the function
  `Convert`, and `ensureRequired`. `Convert` does the metadata check and
  hands each `type` to one of four functions that hold the switch's cases in
  source order: scalars, composites, modifier wrappers, and the rest with
  the fallback to `any`.
- `ConversionProperties` (properties.dfy): what the converter promises, for
  every input.
- `SchemaDetection` (detection.dfy): `isValibotSchema` over JavaScript
  values.
- `Scenarios` (scenarios.dfy): particular conversions from the source's test
  suite, proved from the general lemmas.

Where the code does something other than its comments, types or an informal
reading suggest, the model follows the code:

- `ensureRequired` is a type cast that returns its argument. An "optional"
  validator put in an array, a record, a union or a nullable union stays
  optional.
- The modifier flags are not passed on. A `non_*` wrapper passes a fresh
  options record holding only its own flag, and every other recursive call
  passes none. So `non_optional` undoes only the `optional` it directly
  wraps.
- `exact_optional` calls the converter again on `{type: "exact_optional"}`.
  That call reaches the same case and recurses without end, so the model
  yields `Fail(NonTermination)`. It does not fall back to a primitive
  validator.
- When a union's members share one kind, the result is the FIRST member,
  even though the map's slot holds the last one. With several kinds, each
  slot holds the LAST member of its kind.

## Model

| member | source | states |
|---|---|---|
| SchemaValidation.EnsureRequired | src/schemaValidation.ts:11-15 | the result has the same shape and the same optionality as the argument: nothing is forced to "required" |
| SchemaValidation.Convert | src/schemaValidation.ts:92-305 | its own contract: a node carrying `_CV_T_` or a non-empty `_CV_ID_` always converts, whatever its schema (`MetadataShortCircuit` says to what). Its cases live in the four dispatch helpers `ConvertScalar`, `ConvertComposite`, `ConvertModifier` and `ConvertRest`. The rest of what it promises is stated by the lemmas in the rows below: `MetadataShortCircuit`, `ScalarMapping`, `UnsupportedFail`, `CompositeStructure`, `FieldFailurePropagates`, `UnionReduces`, `OptionFailurePropagates`, `NoDedupOutsideUnion`, `ModifierWrappers`, `ModifierFailurePropagates`, `FlagScope`, `ExactOptionalNeverReturns` and `OptionalOnlyFromOptionalSchemas` |
| ValibotSchemas.TypeNameSelectsVariant | src/schemaValidation.ts:114-304 | a schema's `type` string is one of the dispatched case names exactly when the schema is not an unknown type, so an unknown type never names a case the dispatch handles |
| ValibotSchemas.ConvexId | src/schemaValidation.ts:20-29 | `convexId(t)` is a full schema (it has `kind`) of type "custom", with no `_CV_T_` tag and `_CV_ID_` set to `t` |
| ConversionProperties.ConvexIdConverts | src/schemaValidation.ts:20-29 | `convexId(t)` converts to a required `id(t)`, and `optional(convexId(t))` to the same `id` marked optional, for any non-empty `t`; an empty table name falls through to `any` |
| ConversionProperties.MetadataShortCircuit | src/schemaValidation.ts:101-112 | a `_CV_T_` tag wins and is returned as it is; otherwise a non-empty `_CV_ID_` gives a required `id`; a node with neither converts as if it had no metadata |
| Scenarios.TaggedDateIsId | src/schemaValidation.ts:101-112 | the metadata check comes before dispatch: a `date` schema tagged with a table converts to `id` instead of failing |
| ConversionProperties.ScalarMapping | src/schemaValidation.ts:114-304 | string, number, nan, boolean, bigint, null, ArrayBuffer instance, non-symbol literal and unknown types (any `type` string outside the dispatched cases) map to their required Convex validator; the literal keeps its exact value; `undefined` gives `any` marked optional |
| ConversionProperties.UnsupportedFail | src/schemaValidation.ts:128-301 | a symbol literal throws a plain `Error`; a non-ArrayBuffer instance and blob, file, date, function, intersect, lazy, never, promise and void throw `ConvexError` with their fixed messages; none gives a validator |
| ConversionProperties.ExactOptionalNeverReturns | src/schemaValidation.ts:263-267 | `exact_optional` gives no validator; its result equals that of converting, with no options, the bare descriptor of its own type, which has no metadata, reaches the same case and re-dispatches to itself |
| ConversionProperties.CompositeStructure | src/schemaValidation.ts:145-168 | an array's element and a record's value are the converted child (key: required string), and a child failure propagates; an object is required, converts iff every field does, and keeps each field's name and converted validator in order; which failure an object gives is stated by `FieldFailurePropagates` |
| Scenarios.ArrayKeepsOptionalItem | src/schemaValidation.ts:145-148 | an array of an optional item has an optional element |
| Scenarios.ObjectFieldsIndependent | src/schemaValidation.ts:150-160 | an illustrative instance: an object with an optional and a required field is a required object whose fields keep their own optionality |
| ConversionProperties.UnionReduces | src/schemaValidation.ts:170-175 | a union whose options convert gives `uniqueUnions` of the converted options: the first option when all share one kind, otherwise a required union with one slot per kind, each slot the last option of its kind, ordered by first occurrence |
| ConversionProperties.FieldFailurePropagates | src/schemaValidation.ts:150-160 | an object or strict object fails exactly with the failure of its first failing field, in entry order |
| ConversionProperties.OptionFailurePropagates | src/schemaValidation.ts:170-298 | a union or variant fails exactly with the failure of its first failing option |
| ConversionProperties.NoDedupOutsideUnion | src/schemaValidation.ts:246-298 | enum and picklist give a required union of one literal per option, in order; variant gives a required union of the converted options; neither collapses repeated kinds |
| ConversionProperties.ModifierWrappers | src/schemaValidation.ts:177-227 | optional/undefinedable give the wrapped validator marked optional, or unchanged under `inNonOptional`; nullable gives the required union `[null, wrapped]`, nullish the same union marked optional, each unchanged wrapped under its own flag |
| ConversionProperties.ModifierFailurePropagates | src/schemaValidation.ts:177-222 | when the wrapped schema fails, optional, undefinedable, nullable and nullish fail with the same failure, whatever the flags |
| ConversionProperties.FlagScope | src/schemaValidation.ts:189-226 | a `non_*` wrapper's result does not depend on the options it received; a node that is not optional, undefinedable, nullable or nullish ignores its options; each of those reads only its own flag |
| ConversionProperties.OptionalOnlyFromOptionalSchemas | src/schemaValidation.ts:92-305 | an optional result comes only from an optional `_CV_T_` tag, from optional, undefinedable, nullish or undefined, or is passed up unchanged by nullable (under its flag), the `non_*` wrappers, or a one-kind union's first option |
| Scenarios.NonOptionalReachesOneLevel | src/schemaValidation.test.ts:710-717 | `non_optional(optional(string))` is a required string, while `non_optional(optional(optional(string)))` stays optional because the flag is not passed on |
| Scenarios.UnionOfOneOptionalIsOptional | src/schemaValidation.ts:170-175 | a union of a single optional option converts to that optional validator |
| Outcomes.AllOk | src/schemaValidation.ts:170-175 | evaluating the options left to right succeeds iff every option succeeds, and then gives their values in order; otherwise it gives a failure of some option before which all succeeded |
| Outcomes.AllOkFirstFailure | src/schemaValidation.ts:294-296 | the failure returned is that of the first failing option |
| Unions.SetByKind | src/schemaValidation.ts:66 | `Map.set` by kind keeps the kinds distinct and adds the member's kind; a new kind is appended; an existing kind keeps its position and now holds the member |
| Unions.UniqueUnions | src/schemaValidation.ts:60-74 | members of a single kind give the first member itself; otherwise a required union of the slots, one per distinct kind. `UniqueUnionsSpec` and `ReducedFromUnique` state the rest: which member fills each slot, in what order, and that this fixes the result |
| Unions.Slots | src/schemaValidation.ts:63-67 | the map's values never hold two members of the same kind, and there are no more of them than members; `SlotsReduced` states which member each slot holds and in what order |
| Unions.UniqueUnionsLoop | src/schemaValidation.ts:60-74 | the loop over the members followed by the size test computes the functional reducer `UniqueUnions` |
| Unions.SlotsReduced | src/schemaValidation.ts:63-67 | the map's values have one slot per distinct kind of the members, each the last member of its kind, ordered by the first occurrence of the kind |
| Unions.SlotsShape | src/schemaValidation.ts:69 | the map holds as many entries as there are kinds, and holds one entry iff the members are non-empty and share one kind |
| Unions.UniqueUnionsSpec | src/schemaValidation.ts:60-74 | one kind gives the first member itself; otherwise a required union whose members meet `ReducedFrom` and number the distinct kinds |
| Unions.ReducedFromUnique | src/schemaValidation.ts:60-74 | any two slot lists meeting `ReducedFrom` for the same members are equal, so that predicate determines the reducer's result |
| Unions.FirstIndexOfKind | src/schemaValidation.ts:66 | the index where a kind first occurs: a member of that kind with none before it |
| Unions.LastOfKind | src/schemaValidation.ts:66 | a member of the kind with no member of that kind after it |
| Scenarios.SlotsKeepLastLiteral | src/schemaValidation.ts:60-74 | on string, "admin", 404, true the literal slot is overwritten twice and the result is the union of string and the literal `true` |
| Scenarios.UnionDeduplicates | src/schemaValidation.test.ts:583-587 | two strings give a plain string; string, number, string give the union of string and number |
| Scenarios.UnionKeepsLastLiteral | src/schemaValidation.test.ts:640-654 | the union of string, "admin", 404 and true converts to the union of string and the literal `true` |
| Scenarios.UnionOfLiteralsIsFirst | src/schemaValidation.test.ts:629-638 | three string literals share one kind, so the union is the first literal, "active" |
| Scenarios.PicklistKeepsEveryOption | src/schemaValidation.test.ts:864-878 | a picklist of three strings gives a union of all three literals in order |
| SchemaDetection.IsValibotSchema | src/schemaValidation.ts:341-348 | true exactly for an object whose `kind` is the string "schema" and whose `~run` is a function |
| SchemaDetection.OtherPropertiesIrrelevant | src/schemaValidation.ts:341-348 | changing any property other than `kind` and `~run` never changes the verdict |

## Left out

- src/functions.ts: async mutation wrappers over valibot parsing and Convex `ctx.db`. This is I/O glue over foreign libraries.
- src/schema.ts: a map over the table's entries that calls the converter, then Convex `defineTable`/`defineSchema`, which are foreign calls.
- src/permix.ts, the `.d.ts` files, example.ts and test-types.ts: type declarations only, with no runtime behaviour.
- dist/schemaValidation.js and the other dist files: compiled copies of the same source, modelled once.
- valibot's `getMetadata`, `pipe` and `custom`: the metadata is a pair of fields on each node (`cvType`, `cvId`). The string check inside `convexId` runs at parse time, not during conversion.
- A `_CV_T_` tag is a validator or absent. Truthy non-validator tags are not modelled.
- A `_CV_ID_` tag that is not a string is modelled as absent, which is what the `typeof` test makes of it.
- Number literals are kept as their source text. Floating-point values and their equality are not modelled.
- Bare descriptors that lack the payload their type needs (an `{type: "array"}` with no item, say) crash in the source with a JavaScript `TypeError`. In the model every node carries its payload, so these inputs cannot be written.
- Object entries are a sequence of (name, schema) pairs standing for the entries in `Object.entries` order: array-index keys first in ascending order, then the other keys in insertion order. The model keeps that sequence's order but does not derive it from the keys, and does not enforce that keys are unique.
- `isValibotSchema` reads own properties only. Prototype lookup and property access on primitives are not modelled.
- ConversionProperties.ExactOptionalNeverReturns: the unbounded recursion is modelled as the outcome `NonTermination`, not as a stack overflow.
- Validator shapes carry only the fields the converter sets. Convex's `fieldPaths` and the type-level generics are not modelled.
