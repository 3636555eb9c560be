# cdk-patched-schema-generator, modelled in Dafny

The generator reads the AWS service specification and writes two JSON
schemas:
- the **resource schema** is keyed by CloudFormation resource type (`AWS::S3::Bucket`);
- the **property-type schema** is keyed by `<resource type>.<TypeName>Property`,
  plus a fixed `CfnTag` entry.

Each entry records the names of the generated construct or struct in the
five CDK languages (its *bindings*). It also records the normalised value type
of every attribute and property.

This project models:
- the **type decider**, which turns the specification's raw value-type
  descriptors into normalised value types;
- the shared helpers: key sorting, attribute and property mapping, and the
  per-language binding generator;
- the two schema assemblers;
- the union helpers of the `Type` class.

Modules and files:

| file | module | models |
|---|---|---|
| wrappers.dfy | `Wrappers` | `Option`, `Result` (a thrown error becomes `Failure`) |
| strings.dfy | `Strings` | JavaScript string operations used by the source: first-occurrence `replace`, `split(..)[0]`, ASCII `toLowerCase`, code-unit order |
| sorting.dfy | `Sorting` | `Array.prototype.sort` with a comparator, as a stable insertion sort |
| records.dfy | `Records` | plain objects as string-keyed maps with an enumeration order; a loop of `obj[key] = value` assignments |
| constants.dfy | `Constants` | `CFN`, `CFN_TAG`, the CDK base locations |
| schema_types.dfy | `SchemaTypes` | the output shapes of `src/schema-types.ts` |
| database.dfy | `Database` | the entities read from the specification and the three lookups of `src/database.ts` |
| type_decider.dfy | `TypeDecider` | `src/type-decider.ts` |
| common.dfy | `Common` | `src/common.ts` |
| resources.dfy | `Resources` | `src/resources.ts` |
| property_types.dfy | `PropertyTypes` | `src/property-types.ts` |
| types.dfy | `Types` | `src/types.ts` |

The store is a value `Db`:
- its resource and type-definition lists;
- `serviceOf` and `parentOf`, which yield `None` when the relation has no single entity;
- `refName`, the name of a referenced type definition.

Every operation that can throw returns a `Result` with one `Error`
constructor per `throw`. A missing service or parent carries the resource or
type name, as those messages do. The other errors carry nothing, except that
`ReferenceNotFound` also carries the `$ref` it failed on.

Two behaviours of the code are easy to misread; the model follows the code:
- A union descriptor whose `types` array is empty is accepted and resolves
  to an empty union. The guard tests `!types`, and an empty array is truthy.
  Only an absent `types` fails.
- A reference resolves to `<cfnType>.<name>` with no suffix removed. The
  suffix-stripping line is commented out.

## Model

| member | source | states |
|---|---|---|
| TypeDecider.Resolve | src/type-decider.ts:22-121 | resolution succeeds exactly when every reference has a non-empty name, every array and map has an element and every union has `types`; a failure names a defect that really occurs in the descriptor; every named type produced is `CfnTag` or qualified by the resource type |
| TypeDecider.ResolveAll | src/type-decider.ts:105-113 | union members are resolved one for one, in order, with nothing dropped or merged; it succeeds exactly when every member is resolvable, and otherwise fails with the error of the first member that does not resolve |
| TypeDecider.GetType | src/type-decider.ts:7-20 | without earlier versions the current descriptor is resolved directly; with them the result is a union of length n+1, current type first, then each earlier version in order, and it succeeds exactly when all of them resolve; otherwise it fails with the error of the first of them, current type first, that does not resolve |
| TypeDecider.LeafKinds | src/type-decider.ts:23-66 | string, boolean, number/integer, date-time, json, tag, null and unknown kinds map to their fixed normalised types without failing |
| TypeDecider.ReferenceKind | src/type-decider.ts:68-79 | a reference becomes the named type `<cfnType>.<name>`, or fails naming the reference when the lookup gives no name |
| TypeDecider.ContainerKinds | src/type-decider.ts:81-99 | arrays and maps wrap their resolved element or fail without one; an inner failure propagates unchanged |
| TypeDecider.UnionKinds | src/type-decider.ts:105-113 | a union that resolves has one member per descriptor, each the resolved descriptor in order; an empty union is accepted; a bare union fails |
| TypeDecider.NestedShape | src/type-decider.ts:81-99 | the shape survives three levels of list/map nesting, and an inner failure comes out unchanged |
| TypeDecider.UnionOrderScenario | src/type-decider.ts:105-113 | the union (string, number) keeps its member order |
| TypeDecider.UnionNestedScenario | src/type-decider.ts:105-113 | a union nested in a union stays one member and is not flattened |
| TypeDecider.UnionRepeatsScenario | src/type-decider.ts:105-113 | a union naming `string` twice keeps both members |
| TypeDecider.PreviousTypesScenario | src/type-decider.ts:12-19 | a `string` property that used to be `number` becomes the union (string, number) |
| Common.SortSchema | src/common.ts:18-21 | the result has the same keys (as a multiset) and the same values, keys in ascending code-unit order without repeats |
| Common.BaseItem | src/common.ts:32-36 | `required` is present exactly when the source flag is truthy, and is then `true` |
| Common.MapEntries | src/common.ts:29-41 | the fold over the first n entries succeeds exactly when each resolves, and otherwise fails with the error of the first entry that does not; it keeps the source key order and maps each key to its own item |
| Common.MapToSchema | src/common.ts:24-44 | succeeds exactly when every item resolves, and otherwise fails with the error of the first item, in enumeration order, that does not; the output has exactly the input's keys, sorted, each mapped from its own item's resolved type |
| Common.MapAttributesToSchema | src/common.ts:46-50 | attribute entries carry exactly the key as name and the resolved type; a failure is the first failing item's error |
| Common.MapPropertiesToSchema | src/common.ts:52-55 | property entries carry the key, the resolved type and `required` only when truthy; a failure is the first failing item's error |
| Common.InsertUnderscoresRemove | src/common.ts:73-74 | a Go pass only inserts underscores: removing '_' from its output gives the input with '_' removed |
| Common.InsertUnderscoresPlaces | src/common.ts:73-74 | the output is one '_' per boundary longer than the input; each input character keeps its order, shifted by the boundaries up to it, and a boundary puts '_' right in front of its character |
| Common.InsertUnderscoresCopy | src/common.ts:73-74 | a stretch with no boundary is copied unchanged |
| Common.InsertUnderscoresSplitOnce | src/common.ts:73-74 | a string whose only boundary is at `k` gets exactly one '_', in front of its character `k` |
| Common.GoPackageName | src/common.ts:71-76 | the Go package name has no upper-case letter and, underscores aside, is the lower-cased capitalized service name |
| Common.GenerateCoreBindings | src/common.ts:78-84 | all five names are the given name, located at the CDK bases, with Go package "awscdk" |
| Common.GenerateBindings | src/common.ts:86-108 | the TypeScript, C#, Java and Python names are the given name; the Go package is the service's Go package name |
| Common.PythonServiceNameOfHyphenated | src/common.ts:59 | for `<prefix>-<rest>`, Python turns only the first '-' into '_' |
| Common.GolangServiceNameOfHyphenated | src/common.ts:60 | for `<prefix>-<rest>`, Go drops only the first '-' |
| Common.JavaServiceNameOfAws | src/common.ts:61 | for `aws-<rest>`, Java gives `services.` followed by `rest` with its first '-' turned into '.' |
| Common.JavaServiceNameOfOther | src/common.ts:61 | a service name without `aws-` only has its first '-' turned into '.' |
| Common.CsharpNamespaceSegment | src/common.ts:62-63 | the C# namespace segment is the text before the first "::" |
| Common.CsharpServiceNameOf | src/common.ts:62-66 | a namespace `<ns>::<rest>` and a capitalized name without "ApiGatewayV2" give `<ns>.<capitalized>` |
| Common.CsharpServiceNameOfApiGatewayV2 | src/common.ts:62-66 | a namespace `<ns>::<rest>` and the capitalized name "ApiGatewayV2" give `<ns>.APIGatewayV2` |
| Common.GolangNameOfPropertyType | src/common.ts:98 | the Go name of `Cfn<Parent>.<Type>Property` is `Cfn<Parent>_<Type>Property` |
| Common.ServiceLocationsExtendCore | src/common.ts:78-108 | each service location is the core location plus a separator and the language's service-name transform; names without '.' equal the core names |
| Common.S3ServiceNames | src/common.ts:59-60 | "aws-s3" gives Python "aws_s3" and Go "awss3" |
| Common.S3JavaServiceName | src/common.ts:61 | "aws-s3" gives Java "services.s3" |
| Common.S3CsharpServiceName | src/common.ts:62-66 | namespace "AWS::S3" and capitalized name "S3" give C# "AWS.S3" |
| Common.S3GoPackageName | src/common.ts:71-76 | capitalized name "S3" gives Go package "s3" |
| Common.IoTAnalyticsGoPackageName | src/common.ts:71-76 | capitalized name "IoTAnalytics" is split before the 'A' by the acronym pass and before the 'T' by the camel pass, giving "io_t_analytics" |
| Strings.ReplaceFirst | src/common.ts:59-61 | only the first occurrence of the pattern is replaced; without one the string is unchanged |
| Strings.FirstSegment | src/common.ts:63 | the text before the first separator, or the whole string when there is none |
| Strings.ToLower | src/common.ts:75 | same length, each character lower-cased |
| Strings.RemoveUnderscoreToLower | src/common.ts:72-75 | removing '_' commutes with lower-casing |
| Strings.StringLeTotal | src/common.ts:20 | any two keys are ordered one way or the other by the default sort |
| Strings.StringLeTransitive | src/common.ts:20 | the default sort order is transitive |
| Sorting.SortBy | src/types.ts:70 | the result is a permutation of the input whose keys are in comparator order |
| Records.Put | src/resources.ts:20 | a new key is enumerated last; an existing key keeps its place and only its value changes |
| Records.AssignAll | src/resources.ts:15-25 | the assignment loop succeeds exactly when every entry was computed; it otherwise fails with the first failing entry's error |
| Records.AssignAllKeys | src/resources.ts:16-20 | the object holds exactly the keys of the entries |
| Records.AssignAllLastWins | src/property-types.ts:24-28 | the value under each key is the one from the last entry with that key |
| Records.AssignAllDistinctSize | src/resources.ts:16-20 | entries with pairwise different keys give one object key each |
| Records.PermutationKeepsDistinct | src/common.ts:19-20 | sorting keys that have no repeats yields keys that have no repeats |
| Database.GetService | src/database.ts:38-44 | the owning service, or a failure naming the resource |
| Database.GetParentResource | src/database.ts:51-57 | the owning resource, or a failure naming the type definition |
| Resources.ResourceEntry | src/resources.ts:16-24 | the entry exists exactly when the service is found and all attributes and properties resolve; the service error comes first, then the attribute error, then the property error; the construct is named `Cfn<name>` under the service |
| Resources.GenerateResourceSchema | src/resources.ts:14-28 | succeeds exactly when every resource has an entry, or fails with the first failing resource's error; the result is sorted |
| Resources.ResourceSchemaKeys | src/resources.ts:16-20 | the schema's keys are exactly the resources' CloudFormation types |
| Resources.ResourceSchemaLastWins | src/resources.ts:20-24 | under each type is the entry of the last resource with that type |
| Resources.ResourceSchemaSize | src/resources.ts:14-28 | resources with pairwise different types give one entry each |
| PropertyTypes.CreateStringProperty | src/property-types.ts:12-16 | a required string property with the given name |
| PropertyTypes.CfnTagEntry | src/property-types.ts:34-40 | core bindings named `CfnTag`; `Key` then `Value`, both required strings named after their keys |
| PropertyTypes.PropertyTypeEntry | src/property-types.ts:24-31 | the entry exists exactly when the parent and its service are found and the properties resolve against the parent's type; the errors come in that order; the key is `<parent type>.<name>Property` |
| PropertyTypes.GeneratePropertyTypesSchema | src/property-types.ts:21-43 | succeeds exactly when every type definition has an entry; the result is sorted and always holds the fixed `CfnTag` entry |
| PropertyTypes.PropertyTypeKeyIsNotCfnTag | src/property-types.ts:28 | a type-definition key always contains '.', so it never collides with `CfnTag` |
| PropertyTypes.PropertyTypesSchemaKeys | src/property-types.ts:24-40 | the keys are `CfnTag` and exactly the type definitions' keys |
| PropertyTypes.PropertyTypesSchemaLastWins | src/property-types.ts:28-31 | under each key is the entry of the last type definition with that key |
| PropertyTypes.PropertyTypesSchemaSize | src/property-types.ts:24-40 | distinct type-definition keys give their count plus one entries |
| PropertyTypes.CfnTagEnumeratedLast | src/property-types.ts:34-42 | when every parent type starts with 'A' (AWS::, Alexa::), `CfnTag` is enumerated last |
| Types.UnionOfTypes | src/types.ts:98-107 | members are returned exactly for union types, and they are that union's members |
| Types.UnionOf | src/types.ts:68-71 | a union whose members are a permutation of the arguments, ordered by key under the comparator |
| Types.FlattenMembers | src/types.ts:91 | an element is in the flattening exactly when some argument contributes it: a union contributes its members, and any other argument contributes itself |
| Types.FlattenWithoutUnions | src/types.ts:91 | without union arguments the flattening is the identity |
| Types.Unique | src/types.ts:83-89 | kept elements come from the input and have pairwise different keys; the kept keys are exactly the input's keys minus those already seen |
| Types.UniqueKeepsFirst | src/types.ts:83-89 | an element is kept exactly when it is the first with its key and that key was not seen before |
| Types.DistinctUnionOf | src/types.ts:82-92 | a sorted union of flattened arguments, with pairwise different keys, covering every key of the flattening except those a fresh object already has; its members are exactly the first element of the flattening for each such key |
| Types.ContainerTypes | src/types.ts:60-66 | list and map types keep their element type, are injective and distinct from each other, and are not unions |
| Types.DistinctUnionOfCollapses | src/types.ts:82-92 | with the inherited key every type has the same key, so any non-empty flattening leaves exactly one member |
| Types.DistinctUnionOfDropsDifferentTypes | src/types.ts:82-92 | `string` and `number` differ, yet the union keeps only `string` |
| Types.StructurallyDistinctUnionOf | src/types.ts:73-92 | the intended union: members pairwise different, and exactly the elements of the flattening |
| Types.StructurallyDistinctUnionOfKeepsDifferentTypes | src/types.ts:73-92 | the intended union keeps both `string` and `number` |

## Left out

- `src/index.ts`: writing the schemas to disk, and the loading of the specification database. Both are I/O.
- The store's relation queries: `serviceOf`, `parentOf` and `refName` are given functions. A failed `db.get` of a reference and an empty name both lead to the same `ReferenceNotFound`.
- Error message texts: each thrown error is a constructor of `Error`. `ServiceNotFound` and `ParentNotFound` carry the name the message shows, but not the lookup's own error text. `ReferenceNotFound` carries the `$ref`, which the message "Reference type name not found" does not show.
- The `{type: …}` wrapper that `getType` returns: the model returns the value type that `mapToSchema` reads out of it.
- The "Expected ref type" guard: it cannot fire, because it is reached only for `ref` descriptors.
- Characters beyond ASCII:
  - `toLowerCase` and the `[A-Z]`/`[a-z]` classes are modelled for ASCII letters only;
  - the default sort compares characters, which agrees with UTF-16 code units on the specification's ASCII names;
  - `localeCompare` is an abstract total order `before`.
- Object key enumeration: JavaScript lists integer-like keys first in numeric order. The model uses insertion order, which is exact for CloudFormation names, since none is integer-like. Assigning the key `__proto__` is not modelled.
- Common.InsertUnderscoresPlaces: each global `replace` is modelled by the local boundary rule it has on letters. The acronym pass splits an upper-case run before its last letter when a lower-case letter follows; the camel pass splits every lower-then-upper pair. The equivalence with the regex engine's leftmost, non-overlapping matching is argued here, not proved.
- Common.GenerateBindings: its own contract does not describe the Go name. The first-'.'-to-'_' rule is stated for property-type names by Common.GolangNameOfPropertyType, and for names without '.' by Common.ServiceLocationsExtendCore.
- Sorting.SortBy: the sort is stable, but the contract states only permutation and order.
- The unused interfaces `Construct`, `Property`, `ResourceType` and `TypeMap` of `src/types.ts` (lines 6-39): no operation reads or builds them.

## Findings

| source | as written | input that shows it | evidently intended | confidence | as-written member | corrected member |
|---|---|---|---|---|---|---|
| src/types.ts:82-92 | deduplicates by `toString()`, which `Type` does not override, so every key is "[object Object]" | `distinctUnionOf(Type.STRING, Type.NUMBER)` keeps only `Type.STRING` | keep each different type once | not executed; the source's own comment notes that it misbehaves | Types.DistinctUnionOfDropsDifferentTypes | Types.StructurallyDistinctUnionOf |
