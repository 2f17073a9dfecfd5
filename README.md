# punchcard: Shape dispatch and the DynamoDB filter compiler

This project models two pieces of punchcard.

**The root of the Shape type system.**
- Every shape has a `Kind`.
- `visit` calls the one visitor handler keyed by that kind and passes it the shape and the caller's context.
- `apply` hands the shape and a trait's data to the metadata layer.

**The compiler of the DynamoDB DSL.**
- `Filter.compile` turns a condition built through the schema-mirroring DSL into three outputs:
  - a `FilterExpression` string using `#N` name placeholders and `:N` value placeholders;
  - `ExpressionAttributeNames`, which maps each `#N` to an attribute name;
  - `ExpressionAttributeValues`, which maps each `:N` to a tagged attribute value (`{S: text}`, `{N: decimal text}`, `{BOOL: b}`).
- Paths are written `#A.#B` for a field access and `#A[:V]` for an index access. The index travels as the number value `{N: '0'}`.
- Name numbers and value numbers each start at 1 and are counted independently, in left-to-right order across both operands.

Modules:
- `Shapes` (`shapes.dfy`):
  - shapes as a closed datatype, with `Kind`, `NodeType`, `Visit` and `Apply`;
  - visitors as records of one handler per kind.
- `Expressions` and `Dsl` (`expressions.dfy`):
  - paths, literals, operands and conditions;
  - the DSL's `of`, `.fields.name`, `.get(i)` and `.equals(...)` as constructors that type-check each step against the schema.
- `AttributeValues` (`attribute_values.dfy`): the DynamoDB tagged value, and literal encoding written as a `Shape.Visit` with an encoding visitor.
- `Decimal` and `Tokens` (`decimal.dfy`, `tokens.dfy`):
  - decimal text for numbers;
  - the expression's tokens, their rendering, and a scanner that reads a rendered expression back.
- `FilterModel` (`filter_model.dfy`):
  - the compiler as a pure reference function;
  - a placeholder-free meaning of a condition (`Inline`);
  - the theorems connecting the two.
- `Filter` (`filter.dfy`):
  - a writer-based reconstruction of `Filter.compile` that matches the four tests in test/query.test.ts: a `Writer` object that appends to the expression string, grows the name and value maps and bumps two counters while walking the condition;
  - each method is proved to take the reference compiler's step, and `Filter.Compile` returns exactly `FilterModel.Compile`.
- `Scenarios` (`scenarios.dfy`): the four test cases, each proved to produce the expected triple.

`MyType` (test/mock) is rebuilt from how the tests in test/query.test.ts use it:
- `id` is a string;
- `nested` is a struct with a string field `a`;
- `array` is a list of strings, since its element is compared with a string literal (query.test.ts:24) and with a string field (query.test.ts:56).

## Model

| member | source | states |
|---|---|---|
| Shapes.VisitCallsOnlyKindHandler | packages/@punchcard/shape/lib/shape.ts:14-17 | Changing the handler for kind k changes what `visit` returns exactly when k is the shape's `Kind`. So only the handler keyed by `Kind` is called, and its result is returned unchanged. |
| Shapes.VisitPassesShapeAndContext | packages/@punchcard/shape/lib/shape.ts:16-17 | The selected handler receives the shape itself and the caller's context, unchanged. |
| Shapes.ApplyPassesShapeAndData | packages/@punchcard/shape/lib/shape.ts:20-22 | `apply` passes the shape and the trait's data to `Meta.apply` and returns its result. |
| Shapes.NodeTypeIsShape | packages/@punchcard/shape/lib/shape.ts:12 | Every shape has `NodeType == "shape"`. |
| Dsl.MemberShape | packages/@punchcard/shape-dynamodb/test/query.test.ts:41 | A member lookup succeeds exactly when the struct has a member of that name, and then returns that member's shape. |
| Dsl.OfConforms | packages/@punchcard/shape-dynamodb/test/query.test.ts:6-9 | `_.name` on a struct schema succeeds exactly when the schema has that member. The node it builds has a path that type-checks against the schema and reaches the node's shape. |
| Dsl.MemberConforms | packages/@punchcard/shape-dynamodb/test/query.test.ts:41 | `.fields.name` succeeds exactly on a struct node that has the member. It adds one field segment (`fields` adds none), and the result still type-checks. |
| Dsl.GetConforms | packages/@punchcard/shape-dynamodb/test/query.test.ts:24 | `.get(i)` succeeds exactly on an array node. It adds one index segment, and the result reaches the element shape. |
| AttributeValues.EncodeByKind | packages/@punchcard/shape-dynamodb/test/query.test.ts:14-17 | A literal encodes exactly when its value fits the compared node's kind. A string becomes `{S: exact text}`, a number becomes `{N: decimal text}` and a boolean becomes `{BOOL: b}`; the tag follows the node's shape. |
| AttributeValues.DecodeEncode | packages/@punchcard/shape-dynamodb/test/query.test.ts:29-35 | Decoding an encoded literal gives back the original value, so nothing is lost by the tagging. |
| Decimal.ParseIntToString | packages/@punchcard/shape-dynamodb/test/query.test.ts:30-32 | The decimal text put in an `N` value reads back as the same integer. |
| Decimal.NatToStringInjective | packages/@punchcard/shape-dynamodb/test/query.test.ts:30-32 | Different numbers have different decimal texts. |
| Tokens.PlaceholderInjective | packages/@punchcard/shape-dynamodb/test/query.test.ts:57-61 | Different placeholders (prefix and number) are different strings, so `#1`, `#2` and `#3` never collide. |
| Tokens.ScanRender | packages/@punchcard/shape-dynamodb/test/query.test.ts:57 | Scanning a rendered expression gives back its token sequence. So the `#N`/`:N`/`.`/`[`/`]`/`=` syntax is unambiguous. |
| FilterModel.IndexOf | packages/@punchcard/shape-dynamodb/test/query.test.ts:58-62 | The position returned is the first one at which the name occurs in the name table; `PutName` numbers a known name by that position plus one. |
| FilterModel.CompileOutTracks | packages/@punchcard/shape-dynamodb/test/query.test.ts:55-68 | Compiling succeeds exactly when the meaning exists. The final state resolves to that meaning and numbers names by first use and values by occurrence. |
| FilterModel.CompileMeaning | packages/@punchcard/shape-dynamodb/test/query.test.ts:8-69 | Compilation succeeds exactly when every literal can be encoded. Reading the triple back then gives the condition with names and encoded values in place (`#A.#B`, `#A[{N: i}]`, `=`). |
| FilterModel.CompileFailure | packages/@punchcard/shape-dynamodb/test/query.test.ts:9 | A failed compilation names an operand literal that cannot be encoded, the left one first; an unencodable left literal always fails. |
| FilterModel.EqualsValueCompiles | packages/@punchcard/shape-dynamodb/test/query.test.ts:9 | `node.equals(value)` compiles exactly when the value fits the node's kind (string, number or boolean). Otherwise the result is the error naming the literal `equals` built from the node's shape and the value. |
| FilterModel.EqualsNodeCompiles | packages/@punchcard/shape-dynamodb/test/query.test.ts:56 | `node.equals(other)` between two paths always compiles: a comparison with no literal operand cannot fail. |
| FilterModel.CompileNumbering | packages/@punchcard/shape-dynamodb/test/query.test.ts:10-18 | The expression scans. Name placeholders are numbered 1, 2, … in order of first use and value placeholders 1, 2, … in order of occurrence, with independent counters. Each map's keys are exactly the placeholders the expression uses. |
| FilterModel.CompileTables | packages/@punchcard/shape-dynamodb/test/query.test.ts:58-66 | The name map holds each distinct name once and exactly the names the condition mentions. The value map has one entry per literal occurrence, index literals included. |
| Filter.Writer.constructor | packages/@punchcard/shape-dynamodb/test/query.test.ts:10-12 | A fresh writer is the reference compiler's start: empty expression, empty maps, both counters at zero. |
| Filter.Writer.Emit | packages/@punchcard/shape-dynamodb/test/query.test.ts:10 | Appending punctuation or a placeholder extends the expression and keeps the maps in step with the reference state. |
| Filter.Writer.WriteName | packages/@punchcard/shape-dynamodb/test/query.test.ts:42-46 | A name gets the next `#N` and a map entry the first time it is met; a known name reuses its placeholder. |
| Filter.Writer.WriteValue | packages/@punchcard/shape-dynamodb/test/query.test.ts:29-35 | Each value gets the next `:N` and a map entry. |
| Filter.Writer.WriteSegment | packages/@punchcard/shape-dynamodb/test/query.test.ts:25-32 | A field access writes `.#N`. An index access writes `[:V]` with the index as an `N` value. |
| Filter.Writer.WritePath | packages/@punchcard/shape-dynamodb/test/query.test.ts:42-46 | A path writes its root's placeholder, then each access in order (loop invariant: the writer equals the reference after the first i accesses). |
| Filter.Writer.WriteOperand | packages/@punchcard/shape-dynamodb/test/query.test.ts:56-57 | An operand is written as its path or its encoded value. It reports failure exactly when its literal cannot be encoded. |
| Filter.Compile | packages/@punchcard/shape-dynamodb/test/query.test.ts:9-19 | The imperative compiler returns exactly the reference compiler's triple or error. |
| Scenarios.StringPropertyEqualsStringLiteral | packages/@punchcard/shape-dynamodb/test/query.test.ts:8-19 | `_.id.equals('value')` compiles to `#1=:1`, `{#1: id}`, `{:1: {S: value}}`. |
| Scenarios.ArrayElementEqualsStringLiteral | packages/@punchcard/shape-dynamodb/test/query.test.ts:23-37 | `_.array.get(0).equals('string')` compiles to `#1[:1]=:2`, `{#1: array}`, `{:1: {N: 0}, :2: {S: string}}`. |
| Scenarios.NestedFieldEqualsStringLiteral | packages/@punchcard/shape-dynamodb/test/query.test.ts:40-52 | `_.nested.fields.a.equals('string')` compiles to `#1.#2=:1`, `{#1: nested, #2: a}`, `{:1: {S: string}}`. |
| Scenarios.NestedFieldEqualsArrayElement | packages/@punchcard/shape-dynamodb/test/query.test.ts:55-68 | `_.nested.fields.a.equals(_.array.get(0))` compiles to `#1.#2=#3[:1]`, `{#1: nested, #2: a, #3: array}`, `{:1: {N: 0}}`. |

## Left out

- packages/punchcard/lib/enumerable/topic.ts is not part of this model. It provisions SNS topics and wires Lambda events; that is cloud I/O with no stateable core.
- `Meta.apply` and trait metadata merging are not part of this model. `Shape.Apply` takes `Meta.apply` as a function parameter, so only the delegation is modelled.
- TypeScript type-level machinery is not modelled: `Shape.Of`, `ClassShape`, `Visitor.ContextType`, and the `ReturnType` typing of `visit`. It exists only at compile time.
- "`Kind` is readonly, so repeated visits reach the same handler" has no lemma of its own. `Visit` and `Kind` are functions of an immutable value, so equal arguments give equal results by construction.
- The DSL's proxy mechanics are modelled only as the constructors `Of`, `Member`, `Get`, `EqualsValue` and `EqualsNode`. `MyType` (test/mock) is rebuilt from how test/query.test.ts uses it.
- `Filter.compile` is reconstructed from the four tests in test/query.test.ts, and only the equality comparison they exercise is modelled: no other comparison operators, no AND/OR/NOT, and no check that two compared paths have the same kind.
- Literal encoding covers string, number and boolean values. Timestamp, binary, struct, array and map literals are treated as unencodable and make `Compile` fail, because the attribute-value mapper that would handle them is not part of this model.
- Numbers are modelled as unbounded integers written in plain decimal (`IntToString`). JavaScript numbers are doubles: non-integers, the loss of precision above 2^53, and the exponent form `Number.prototype.toString` uses from 1e21 on ("1e+21") are not modelled.
- FilterModel.PutName: reusing a name's placeholder when the name appears again is a modelling choice. No test in query.test.ts repeats an attribute name, so the tests do not settle it either way. Values are never shared: each literal occurrence gets its own `:N`, which is also unevidenced beyond distinct literals.
- No test in query.test.ts compiles a literal that cannot be encoded. The model makes it an explicit `Failure` that names the literal, with no partial output.
