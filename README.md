# sequelize-derived-fields, modelled in Dafny

This project models the two plug-ins of the repository. Both work on the
query descriptors of the host ORM before it compiles them.

- **derived-fields** (lib/derived-fields.js) lets a model declare VIRTUAL
  attributes with an `sqlExpr` builder.
  - The `beforeDefine` hook records each such builder in the model's
    `derived` map.
  - From then on, a key naming the field is swapped for the SQL expression
    the builder makes for the current alias. This happens in `where`
    (`processWhere`), in `attributes` (`processAttributes`) and in every
    nested `include` (`processInclude`).
  - A key may also reach a derived field of an associated model through a
    `$assoc.….field$` reference. This is resolved by `getDerivedExpr` and
    `getSubmodel`.
  - `count` is wrapped so that it applies the same `where` rewrite.
- **derived-orderby** (lib/derived-orderby.js) rewrites `order` entries.
  - An entry that starts with `$` becomes `[literal, direction]`.
  - The literal is one double-quoted identifier, and direction defaults to
    `ASC`.
  - A leading path segment that only repeats the model's own name is
    dropped.

## How the model is built

- **Modules and their files:**

  | module | file | what it holds |
  |---|---|---|
  | `JsStrings` | js_strings.dfy | `split('.')`, `join('.')`, `substr(1, length-2)`, `Utils.isColString` |
  | `Sql` | sql.dfy | expression builders (`col`, `fn`, `literal`, `where`); plain objects with their key order, `o[k] = v`, `delete o[k]` |
  | `Resolver` | resolver.dfy | `derivedExpr`, `getSubmodel`, `getDerivedExpr`; the models form a registry keyed by model name |
  | `Rewrites` | rewrites.dfy | what `processWhere`, `processAttributes` and `processInclude` compute, as functions on descriptor values |
  | `RewriteProperties` | rewrite_properties.dfy | the properties proved about those functions |
  | `Inclusions` | find_options.dfy | the imperative form of those three functions, plus the `beforeFindAfterExpandIncludeAll` root set-up and `patchModelCount` |
  | `DefineScan` | define_scan.dfy | the `beforeDefine` scan |
  | `ModelMethods` | model_methods.dfy | `Model.prototype.getWhereConditions` and `getDerivedExpr` |
  | `OrderBy` | orderby.dfy | `processOrderItem` and the `beforeFindAfterOptions` hook |

- **State changed in place is modelled as classes.**
  - A find-options object is class `Inclusions.FindOptions`. Its
    `where`/`attributes`/`model`/`as` fields are reassigned.
  - An order item array is class `OrderBy.JsArray`. It gets `push` and
    `item[0] = …`.
  - Every method is proved against a function of the state before the call.
    For example, `(View(), err) == WhereOnNode(reg, m, old(View()), alias)`.
- **A thrown `Error`** becomes a returned `Option<Error>`, or a `Result`. The
  work done before the throw is kept, as in the code.
- **`for…in`** over `where` visits the keys the object had when the loop
  began, in insertion order.
- **`Utils.singularize`** is a parameter.
- **The `sqlExpr` builder** is a Dafny function from alias to expression.

## Where the code and its design documentation differ (the model follows the code)

- **Order literal.**
  - The literal is one quoted identifier, `"A.B.F"`. The design documentation
    describes `"A"."B"."F"` (lib/derived-orderby.js:41).
  - Only a two-segment path loses a leading own-name segment
    (lib/derived-orderby.js:37-39).
- **Error handling.**
  - A bad association path throws `Invalid association: <alias>`
    (lib/derived-fields.js:38-40). It is not treated as "not derived".
  - When a later key throws, the `where` keys rewritten before it stay
    rewritten (lib/derived-fields.js:105-122).
- **Attribute definitions.** `beforeDefine` keeps the VIRTUAL attribute and
  deletes only its `sqlExpr` (lib/derived-fields.js:167).
- **Root hook.** The `beforeFindAfterExpandIncludeAll` hook is attached to
  every model, because the guard is `true || …` (lib/derived-fields.js:173).
- **Include alias.** An inclusion's alias is `as`, or else the singularised
  model name (lib/derived-fields.js:132). An empty `as` counts as missing.

## Model

| member | source | states |
|---|---|---|
| JsStrings.Inner | lib/derived-fields.js:18 | `substr(1, length - 2)` is the text strictly between the first and last characters, and is empty for a one-character key |
| JsStrings.Split | lib/derived-fields.js:18 | `split('.')` yields at least one segment, and no segment contains a dot |
| JsStrings.JoinSplit | lib/derived-fields.js:24 | joining with `.` what `split('.')` produced gives the original text back |
| JsStrings.SplitJoin | lib/derived-fields.js:24 | splitting a join of dot-free segments gives back the segments |
| Sql.Set | lib/derived-fields.js:109-117 | `o[k] = v` makes `k` read `v` and leaves every other key's value and presence alone |
| Sql.Delete | lib/derived-fields.js:120 | `delete o[k]` removes `k` only, and keeps the object's keys distinct |
| Resolver.Walk | lib/derived-fields.js:37-42 | the reduce ends on a registered model, or throws naming an alias of the path |
| Resolver.GetSubmodel | lib/derived-fields.js:32-43 | yields a registered model, or an error naming an alias of the path |
| Resolver.PlainKey | lib/derived-fields.js:11-16 | a key in `derived` resolves to its builder applied to the alias; any other key without `$…$` resolves to nothing |
| Resolver.WalkConcat | lib/derived-fields.js:37-42 | walking `p + q` is walking `p` and then `q` from where `p` ended, and an error in `p` stops the walk |
| Resolver.WalkFailsAtFirstMissing | lib/derived-fields.js:38-40 | the throw names the first alias missing on the model reached so far |
| Resolver.WalkErrorAt | lib/derived-fields.js:38-40 | conversely, every throw comes from such a first missing alias |
| Resolver.SubmodelOfOwnName | lib/derived-fields.js:33-35 | `[]` names the model itself; `[own name]` names the model itself unless an association of that name exists, in which case it is followed |
| Resolver.DottedReference | lib/derived-fields.js:18-24 | `$a1.….an.f$` resolves `f` on the model the walk over `a1…an` reaches, with alias `"a1.….an"`; the caller's alias plays no part |
| Resolver.SelfQualified | lib/derived-fields.js:18-35 | `$Self.f$` on model Self resolves like `f` under alias `Self` when Self has no association named Self |
| Rewrites.InWrapped | lib/derived-fields.js:108-110 | an array value becomes `{ $in: array }`; any other value is kept |
| Rewrites.AllAttributes | lib/derived-fields.js:98-100 | the default attribute list is every attribute name, in order |
| Rewrites.WhereOnNode | lib/derived-fields.js:95-123 | `processWhere` always leaves `attributes` set, keeps model, `as` and includes, and keeps `where` well-formed |
| Rewrites.LocalRewrite | lib/derived-fields.js:132-135 | the node's own where and attribute rewrite keeps its model, `as` and include list |
| Rewrites.RewriteNode | lib/derived-fields.js:131-139 | the rewrite of one inclusion keeps its model, its `as` and its number of children |
| Rewrites.RewriteNodes | lib/derived-fields.js:130-140 | `processInclude` keeps the length of the list and the model and `as` of every node |
| RewriteProperties.StepKeyEffect | lib/derived-fields.js:106-121 | one turn for a key that resolves: a key naming no derived field changes nothing; a derived key is deleted, every key other than it and `$and` keeps its presence and value, and `$and` gains `derived = value` |
| RewriteProperties.RewriteKeysEffect | lib/derived-fields.js:105-122 | after keys that all resolve: the derived keys visited are gone, other keys keep their values, and `$and` is the left-nested chain of one term per derived key |
| RewriteProperties.RewriteWhereEffect | lib/derived-fields.js:105-122 | the same over all keys of `where`: derived keys are removed, the rest are unchanged, and `$and` chains `derived = value` (`{ $in }` for arrays) onto the old `$and` |
| RewriteProperties.RewriteKeysThrows | lib/derived-fields.js:105-106 | the loop throws if and only if some key fails to resolve |
| RewriteProperties.RewriteKeysFirstError | lib/derived-fields.js:105-106 | the thrown error is that of the first failing key, and the object is left as the keys before it made it |
| RewriteProperties.RewriteKeysAbort | lib/derived-fields.js:105-106 | after a throw, the later keys change nothing |
| RewriteProperties.WhereDefaults | lib/derived-fields.js:98-103 | `attributes` defaults to all attribute names, and a missing `where` stops the rewrite with nothing else changed |
| RewriteProperties.MapAttributesEffect | lib/derived-fields.js:79-88 | `attributes.map` keeps length and order, turns exactly the resolving names into `[expr, name]`, and throws if and only if some entry fails to resolve |
| RewriteProperties.AttributeAliasShape | lib/derived-fields.js:81 | the alias is `alias` at the root and one level below, and `path[1..].alias` deeper down |
| RewriteProperties.RewriteNodesEach | lib/derived-fields.js:131-139 | a completed `forEach` gives each node exactly its own rewrite |
| RewriteProperties.RewriteNodesAbort | lib/derived-fields.js:131 | after a throw, the remaining inclusions are untouched |
| RewriteProperties.RewriteNodeParts | lib/derived-fields.js:134-138 | a completed node rewrite is its own rewrite followed by the rewrite of its children, with its alias appended to the path |
| RewriteProperties.RewriteNodesAtEveryPosition | lib/derived-fields.js:130-140 | when `processInclude` completes, the node at every depth was rewritten with `path` followed by its ancestors' aliases (`PathAt`), and the tree keeps its shape |
| RewriteProperties.RootSetup | lib/derived-fields.js:175-179 | the root gets `model` = and `as` = the model's name, so its where and attributes are rewritten under the model's own name |
| Inclusions.FindOptions.ProcessWhere | lib/derived-fields.js:95-123 | the object in place: the new state and the thrown error are those of `WhereOnNode` on the old state |
| Inclusions.FindOptions.RewriteKeysInPlace | lib/derived-fields.js:105-122 | the `for…in` loop in place: the new `where` and the thrown error are those of `RewriteWhere` on the old `where`, and no other field changes |
| Inclusions.FindOptions.RewriteKey | lib/derived-fields.js:106-121 | one turn of the loop in place: the new `where` and the error are those of `StepKey` on the old `where` |
| Inclusions.FindOptions.ProcessAttributes | lib/derived-fields.js:79-88 | the new attribute list is that of `AttributesOnNode` on the old state, and is replaced only when the map completes |
| Inclusions.ProcessNode | lib/derived-fields.js:131-139 | one inclusion and its subtree end as `RewriteNode` of their old value states |
| Inclusions.Visit | lib/derived-fields.js:131-139 | rewriting the k-th inclusion changes only that inclusion's subtree |
| Inclusions.ProcessInclude | lib/derived-fields.js:130-140 | the list of inclusions ends as `RewriteNodes` of its old value, with the same error |
| Inclusions.BeforeFindAfterExpandIncludeAll | lib/derived-fields.js:175-179 | the options become `RewriteNodes([options with model and as set to m], [])` |
| Inclusions.ModelClass.InstallCount | lib/derived-fields.js:184-188 | `count` is wrapped exactly when the model has a derived field |
| Inclusions.ModelClass.Count | lib/derived-fields.js:142-149 | the wrapped `count` rewrites `where` under the model's name and calls the original once with the same options, or not at all when the rewrite throws; the unwrapped `count` passes the options through |
| DefineScan.Cleaned | lib/derived-fields.js:159-168 | an eligible attribute loses `sqlExpr` and gets the default getter only if it had none; other attributes are unchanged |
| DefineScan.DerivedAfter | lib/derived-fields.js:152-160 | the derived map holds the old entries plus, overriding them, the `sqlExpr` of every VIRTUAL attribute that has one |
| DefineScan.AttrsAfter | lib/derived-fields.js:156-168 | no attribute is added or removed; each is cleaned |
| DefineScan.ScanIdempotent | lib/derived-fields.js:151-170 | scanning the scanned attributes again changes neither them nor the derived map |
| DefineScan.ScannedAttributeResolves | lib/derived-fields.js:160 | every attribute taken up resolves, under any alias, to its `sqlExpr` applied to that alias |
| DefineScan.Definition.BeforeDefine | lib/derived-fields.js:151-170 | the loop leaves `derived` = `DerivedAfter` of the old map (or `{}`) and the attributes = `AttrsAfter` of the old ones |
| ModelMethods.SingleDerivedKey | lib/derived-fields.js:105-121 | `{ k: v }` with derived `k` becomes `{ $and: expr = v }`, with `{ $in: v }` for an array |
| ModelMethods.WhereConditions | lib/derived-fields.js:57-63 | `getWhereConditions` with the model's name as alias gives the `where` the wrapped `count` would build |
| ModelMethods.WhereConditionsPlainKey | lib/derived-fields.js:57-63 | a plain derived key is built for the model's name after the correction, and for `undefined` in the code as written |
| ModelMethods.UndefinedAliasCounterexample | lib/derived-fields.js:60 | the code as written turns `Detail.getWhereConditions({ lcName: … })` into a condition on `LOWER(undefined.name)` |
| ModelMethods.ModelDerivedExpr | lib/derived-fields.js:65-71 | a derived field is built for the model's own name, and a name without `$…$` has no expression |
| ModelMethods.ModelDerivedExprThroughAssociation | lib/derived-fields.js:65-66 | `$assoc.f$` is built for the alias `assoc`, as in `Master.getDerivedExpr('$detailcheta.lcName$')` |
| OrderBy.Unqualified | lib/derived-orderby.js:37-39 | a leading segment equal to the model name is dropped exactly when the path has two segments |
| OrderBy.RewriteElems | lib/derived-orderby.js:25-41 | an item array is rewritten only if it starts with a `$…$` string and has at most two elements; it then holds the literal and the given direction, or `ASC` |
| OrderBy.RewriteIdempotent | lib/derived-orderby.js:25-26 | rewriting a rewritten item changes nothing |
| OrderBy.SelfQualifiedColumn | lib/derived-orderby.js:35-41 | `$Own.f$` is quoted as `"f"` |
| OrderBy.OtherQualifiedColumn | lib/derived-orderby.js:35-41 | `$q.f$` with `q` not the model's name keeps its qualifier: `"q.f"` |
| OrderBy.QuotedWhole | lib/derived-orderby.js:35-41 | outside the own-name case the literal is the text between the `$`s, quoted whole |
| OrderBy.QuotedWithoutSelf | lib/derived-orderby.js:37-41 | in the own-name case the literal is exactly what follows `Own.` |
| OrderBy.QualifiedOrderEntry | lib/derived-orderby.js:17-44 | `'$q.f$'` or `['$q.f$', dir]` becomes `[quoted path, dir or ASC]`, without `q` when it is the model's name |
| OrderBy.PlainOrderEntry | lib/derived-orderby.js:17-44 | `'$f$'` or `['$f$', dir]` becomes `["f", dir or ASC]` |
| OrderBy.ProcessOrderItem | lib/derived-orderby.js:17-44 | a `$` string becomes a new rewritten `[item, 'ASC']`, an array is rewritten in place and returned itself, and anything else comes back unchanged |
| OrderBy.MapItems | lib/derived-orderby.js:56 | `map` gives each item the outcome of `processOrderItem`, and an array listed twice is rewritten only once |
| OrderBy.FindOrder.BeforeFindAfterOptions | lib/derived-orderby.js:47-57 | a null `order` stays null; any other becomes a new list of the same length as the items (a non-array wrapped as one item), each the outcome of `processOrderItem` |

## Findings

| source | as written | input that shows it | evidently intended | confidence | as-written member | corrected member |
|---|---|---|---|---|---|---|
| lib/derived-fields.js:60 | `getWhereConditions` calls `processWhere` without an alias, so a builder receives `undefined` and its template string writes `undefined.name` | `Detail.getWhereConditions({ lcName: 'detail 1' })` with `lcName` built as `LOWER(alias.name)` | the model's own name as alias, as `count` (line 146) and `getDerivedExpr` (line 66) pass it | not executed; medium | ModelMethods.WhereConditionsAsWritten, shown by ModelMethods.UndefinedAliasCounterexample | ModelMethods.WhereConditions, with ModelMethods.WhereConditionsPlainKey |

## Left out

- Attaching the plug-ins (the `afterInit` hook and the check against
  attaching twice) and the host's hook registry. These are host wiring, not
  rewriting.
- The SQL text the host's query generator prints for the rewritten `where`:
  `QueryGenerator.getWhereConditions` and `whereItemQuery`. These belong to
  the host library.
- `Utils.singularize`. It is a parameter, because it is the host's inflection
  table.
- The getter the hook installs, and a getter the author wrote. The default
  getter is `DefaultGetter(name)` and an author's getter is an opaque tag.
  Their bodies read instance data at run time.
- The attribute definition objects and the `where` objects are values, not
  shared objects. If two descriptors share one `where` object, the model
  does not see the rewrite of the first descriptor through the second.
- `include` lists are constant in `FindOptions`. None of the rewrites
  replaces them, and a missing list is an empty one.
- The host normalises `include` entries to `{ model, as, … }` objects before
  the hook runs. That normalisation is not modelled.
- `attributes` given as an object (`{ include, exclude }`) is not modelled.
  The list form is the only one the code maps over.
- JavaScript's ordering of integer-like object keys before the other keys
  is not modelled. Keys keep insertion order.
- `OrderBy.FindOrder.BeforeFindAfterOptions`: requires that the `order` array
  does not contain itself. `Array.prototype.map` reads elements live, so an
  array that is its own item would see its own rewrite.
- `OrderBy.ItemOutcome`: a value that is neither a string nor an array (a
  model, a `literal`, an `{ model, as }` object) is modelled as an opaque
  tag. `item[0]` on such a value is taken not to be a `$…$` string.
- Inherited keys of `options.derived` (`Object.prototype` members) are not
  modelled. The derived map holds own keys only.
- `RewriteProperties.RootSetup`: requires a non-empty model name. A model
  named `""` would be aliased by `singularize`.
