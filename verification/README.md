# CosmosDbQueryConverter core, modelled in Dafny

DBaker.CosmosDbQueryConverter turns SQL-like query templates into parameterized Cosmos DB
queries. This project models its core:

- the **placeholder compiler** `QueryBuilderHelper.BuildQuery`. It replaces every `{i}` of a
  template with generated parameter names (`@p0`, `@p1`, ...) drawn from one counter. A slot seen
  before reuses its earlier text. A collection (any `IEnumerable` other than `string` and
  `byte[]`) gets one parameter per element and the text `(@pa, @pb, ...)`, which is `()` when
  the collection is empty. A placeholder without a value fails with
  `No parameter provided for index {i}.`;
- the **expression extractor** `QueryBuilderHelper.ParameterizeExpression`. The body of a lambda
  must be a call to a method named `Create`, as the compiler emits for an interpolated string
  (`FormattableStringFactory.Create(format, new[] { args })`). Each argument the field-name
  resolver recognises is inlined as its JSON path. Each other argument is evaluated, collected
  as the next value and replaced by `{n}`. The format string is then formatted and compiled;
- the **default field-name resolver** `DefaultFieldNameResolver`: `TryResolve`,
  `GetJsonPropertyName` and `ToCamelCase`;
- the **entry points** of `CosmosDbQuery`: `Convert(string, values)`, `Convert(FormattableString)`
  and `ConvertLambdaExpression`, which fills in the default resolver.

## How it is modelled

- **Templates are token sequences.** A template is a sequence of literal text and placeholders
  (`Templates.Token`). A composite format string is a sequence of chunks and holes
  (`Templates.FormatItem`).
- **Results and errors.** The query text and the ordered parameter table form
  `Templates.Query`. Each exception that escapes becomes an `Error` value of a `Result`.
- **`BuildQuery` is imperative.** Its `while` loop keeps the source's `paramIndex`,
  `usedParamIndexes`, `parameters` and `updatedQuery`. It is proved to return exactly the
  declarative reference `Compiled`, which is defined from four things:
  - the slots in order of first use (`FirstUses`);
  - the values they bind, flattened slot after slot (`Bindings`);
  - each slot's first counter value (`Offset`);
  - the text each placeholder becomes (`Reps`, `Render`).
- **An independent description of the same behaviour.** Four lemmas say what compiling one more
  token does: `EmptyTemplate`, `LiteralAppended`, `RepeatedPlaceholder` and `NewPlaceholder`.
- **`ParameterizeExpression` is imperative too.** Its loop is proved against the reference
  `Parameterized`.
- **Evaluation and the resolver are parameters.** Evaluating an argument
  (`Expression.Lambda(expr).Compile().DynamicInvoke()`) is the function parameter `evaluate`.
  The pluggable `IFieldNameResolver` is `resolve: Node -> Option<string>`.
- **The default resolver is a pure function.** It is `DefaultFieldNameResolver.TryResolve`,
  with its constructor flag `useCamelCase` as a parameter.
- **A unary node over a member.** `TryResolve` resolves a unary node of any kind (not only
  `Convert`) that sits directly over a member access, as that access. So in a lambda with
  parameter `x`, `!x.Flag` and `-x.Age` are inlined as `x.flag` and `x.age`. The model keeps
  this behaviour, and `UnaryOverMember` states it.
- **Which naming attribute wins.** The code takes the first naming attribute it meets, of either
  kind, in the order reflection reports the member's attributes. The model reads them in
  declaration order (`GetJsonPropertyName`, `AttributeOrderExample`).

## Model

| member | source | states |
|---|---|---|
| QueryBuilderHelper.BuildQuery | DBaker.CosmosDbQueryConverter/QueryBuilderHelper.cs:36-78 | the loop's result is exactly the reference `Compiled` of the template and values |
| QueryBuilderHelper.BindSlot | DBaker.CosmosDbQueryConverter/QueryBuilderHelper.cs:55-74 | a new slot appends one parameter per collection element (or one for any other value), numbered on from the counter; it returns the text naming them and the advanced counter |
| QueryBuilderHelper.Expand | DBaker.CosmosDbQueryConverter/QueryBuilderHelper.cs:55-73 | a collection binds its elements in order; null, a scalar, a string and a byte array each bind themselves as one value |
| QueryBuilderHelper.Replacement | DBaker.CosmosDbQueryConverter/QueryBuilderHelper.cs:66-74 | a non-collection slot becomes its single parameter name; a collection becomes its names joined by `, ` inside parentheses, and `()` when it is empty |
| QueryBuilderHelper.Compiled | DBaker.CosmosDbQueryConverter/QueryBuilderHelper.cs:43-77 | compilation succeeds exactly when every placeholder has a value; otherwise it fails with the first out-of-range index from the left; on success parameter k is named `@pk` |
| QueryBuilderHelper.FirstMissing | DBaker.CosmosDbQueryConverter/QueryBuilderHelper.cs:45-48 | no index is returned exactly when all placeholders are in range; a returned index is out of range, and it is the leftmost such placeholder |
| QueryBuilderHelper.FirstUses | DBaker.CosmosDbQueryConverter/QueryBuilderHelper.cs:50-53 | lists exactly the slots the template refers to, each once |
| QueryBuilderHelper.FirstUsesInRange | DBaker.CosmosDbQueryConverter/QueryBuilderHelper.cs:47-50 | when every placeholder is in range, every used slot has a value |
| QueryBuilderHelper.FirstMissingPersists | DBaker.CosmosDbQueryConverter/QueryBuilderHelper.cs:47-48 | an out-of-range placeholder in a prefix fails the whole template with that index, whatever follows |
| QueryBuilderHelper.EmptyTemplate | DBaker.CosmosDbQueryConverter/QueryBuilderHelper.cs:36-43 | the empty template gives the empty text and no parameters |
| QueryBuilderHelper.LiteralAppended | DBaker.CosmosDbQueryConverter/QueryBuilderHelper.cs:41-43 | text outside placeholders is copied unchanged and binds nothing |
| QueryBuilderHelper.RepeatedPlaceholder | DBaker.CosmosDbQueryConverter/QueryBuilderHelper.cs:52-53 | a placeholder of an already used slot repeats that slot's text and adds no parameter |
| QueryBuilderHelper.NewPlaceholder | DBaker.CosmosDbQueryConverter/QueryBuilderHelper.cs:45-74 | a placeholder of an unused slot fails when the slot has no value; otherwise it appends the slot's values as fresh parameters after the existing ones, and appends the text naming them |
| QueryBuilderHelper.SlotTextNamesItsParameters | DBaker.CosmosDbQueryConverter/QueryBuilderHelper.cs:55-74 | every used slot owns a block of consecutive parameters that holds its values in order; its placeholder text names exactly that block |
| QueryBuilderHelper.ParametersComeFromUsedSlots | DBaker.CosmosDbQueryConverter/QueryBuilderHelper.cs:59-73 | every parameter holds a value of some slot the template uses |
| QueryBuilderHelper.ParameterNamesDistinct | DBaker.CosmosDbQueryConverter/QueryBuilderHelper.cs:61-73 | no two parameters share a name, so `parameters.Add` never meets a duplicate key |
| QueryBuilderHelper.UnreferencedValuesIgnored | DBaker.CosmosDbQueryConverter/QueryBuilderHelper.cs:47-50 | the result depends only on the number of values and on the values of referenced slots |
| QueryBuilderHelper.ExtraValuesIgnored | DBaker.CosmosDbQueryConverter.Tests/QueryBuilderHelperBuildQueryTests.cs:118-134 | values beyond those the template refers to change nothing |
| QueryBuilderHelper.SlotsInIndexOrder | DBaker.CosmosDbQueryConverter/QueryBuilderHelper.cs:52-74 | a template that refers to each value once, in index order, binds all values in order, collections element by element |
| QueryBuilderHelper.FirstUsesDistinct | DBaker.CosmosDbQueryConverter/QueryBuilderHelper.cs:52-53 | without repeated placeholders, slots are used in the order they appear |
| QueryBuilderHelper.SlotValues | DBaker.CosmosDbQueryConverter/QueryBuilderHelper.cs:122-129 | one value is collected per argument the resolver does not recognise |
| QueryBuilderHelper.Rewritten | DBaker.CosmosDbQueryConverter/QueryBuilderHelper.cs:123-130 | every interpolation argument is rewritten to exactly one template token |
| QueryBuilderHelper.RewrittenArguments | DBaker.CosmosDbQueryConverter/QueryBuilderHelper.cs:125-129 | a recognised argument becomes its path as literal text; any other argument becomes a placeholder whose slot holds exactly its evaluated value |
| QueryBuilderHelper.RewrittenPlaceholders | DBaker.CosmosDbQueryConverter/QueryBuilderHelper.cs:128-129 | the rewritten arguments carry the placeholders `0..n-1`, each once and in order |
| QueryBuilderHelper.Parameterized | DBaker.CosmosDbQueryConverter/QueryBuilderHelper.cs:112-117 | a body that is not a `Create` call, or whose format argument is not a constant, fails with the source's InvalidOperation messages |
| QueryBuilderHelper.ParameterizeExpression | DBaker.CosmosDbQueryConverter/QueryBuilderHelper.cs:106-134 | the method's result is exactly the reference `Parameterized` |
| QueryBuilderHelper.ParameterizedInOrder | DBaker.CosmosDbQueryConverter/QueryBuilderHelper.cs:110-133 | for an interpolated string the extraction succeeds; its table binds the unrecognised arguments' values in argument order as `@p0`, `@p1`, ... |
| Templates.NoParameterMessageNamesIndex | DBaker.CosmosDbQueryConverter/QueryBuilderHelper.cs:48 | the out-of-range message names its index: different indices give different messages |
| Templates.ParamName | DBaker.CosmosDbQueryConverter/QueryBuilderHelper.cs:61 | defined as `@p` followed by `NatToString(k)`; it has no contract of its own, and its shape is proved in `ParamNameDigits` |
| Templates.ParamNameDigits | DBaker.CosmosDbQueryConverter/QueryBuilderHelper.cs:61 | every generated name starts with `@p`, and the rest is exactly the decimal text of the counter, all digits |
| Templates.NoParameterMessage | DBaker.CosmosDbQueryConverter/QueryBuilderHelper.cs:48 | the message is `No parameter provided for index {`, the decimal index, then `}.` |
| Templates.ParamNamesDistinct | DBaker.CosmosDbQueryConverter/QueryBuilderHelper.cs:61-71 | different counter values give different `@p` names |
| Templates.Format | DBaker.CosmosDbQueryConverter/QueryBuilderHelper.cs:132 | formatting succeeds exactly when every hole names an argument; on success chunk j becomes its literal text and hole j becomes its argument; on failure it reports the leftmost bad hole |
| Templates.FormatPlaceholders | DBaker.CosmosDbQueryConverter/QueryBuilderHelper.cs:132 | formatting copies the placeholders of the arguments that the holes name, hole by hole |
| Templates.FormatInOrder | DBaker.CosmosDbQueryConverter/CosmosDbQuery.cs:57-60 | a format whose holes name each argument once, in order, succeeds and keeps the arguments' placeholders in order |
| Strings.NatToString | DBaker.CosmosDbQueryConverter/QueryBuilderHelper.cs:61 | the counter's decimal text is all digits, one digit exactly below ten |
| Strings.NatToStringInjective | DBaker.CosmosDbQueryConverter/QueryBuilderHelper.cs:61 | different counter values have different decimal texts |
| Strings.Join | DBaker.CosmosDbQueryConverter/QueryBuilderHelper.cs:66 | no parts join to the empty string and one part joins to itself |
| Strings.JoinLength | DBaker.CosmosDbQueryConverter/QueryBuilderHelper.cs:66 | a join of at least one part starts with its first part, and its length is the parts' total length plus one separator between each two neighbours |
| Strings.JoinSnoc | DBaker.CosmosDbQueryConverter/QueryBuilderHelper.cs:66 | joining one more part appends the separator and that part |
| DefaultFieldNameResolver.ToLowerInvariant | DBaker.CosmosDbQueryConverter/DefaultFieldNameResolver.cs:91 | ASCII upper-case letters become their lower-case letter; other characters are unchanged |
| DefaultFieldNameResolver.ToCamelCase | DBaker.CosmosDbQueryConverter/DefaultFieldNameResolver.cs:90-91 | the length is kept, only the first character is lowered, the empty string stays empty, and a name that does not start with an upper-case letter is unchanged |
| DefaultFieldNameResolver.ToCamelCaseIdempotent | DBaker.CosmosDbQueryConverter/DefaultFieldNameResolver.cs:90-91 | camel-casing twice is camel-casing once |
| DefaultFieldNameResolver.AttributeName | DBaker.CosmosDbQueryConverter/DefaultFieldNameResolver.cs:62-76 | an attribute names its member exactly when it is a Newtonsoft `JsonPropertyAttribute` with a non-empty `PropertyName`, or a System.Text.Json `JsonPropertyNameAttribute` with a non-empty `Name` |
| DefaultFieldNameResolver.ExplicitName | DBaker.CosmosDbQueryConverter/DefaultFieldNameResolver.cs:60-77 | no name exactly when no attribute gives one; otherwise it is the name given by the first attribute, in declaration order, that gives one |
| DefaultFieldNameResolver.GetJsonPropertyName | DBaker.CosmosDbQueryConverter/DefaultFieldNameResolver.cs:58-83 | the name given by the first naming attribute, whatever the camel-case setting; with no naming attribute, the declared name, camel-cased when configured, which keeps its length and leaves a name not starting with an upper-case letter as declared |
| DefaultFieldNameResolver.DefaultResolve | DBaker.CosmosDbQueryConverter/CosmosDbQuery.LambdaExpressions.cs:76 | the default resolver (camel case on) resolves exactly the field references, each to its camel-cased dotted path |
| DefaultFieldNameResolver.TryResolve | DBaker.CosmosDbQueryConverter/DefaultFieldNameResolver.cs:29-48 | a resolved path is never empty, and only parameter, member and unary nodes resolve |
| DefaultFieldNameResolver.AccessResolves | DBaker.CosmosDbQueryConverter/DefaultFieldNameResolver.cs:33-38 | `root.m0.m1...` resolves to the root name followed by the members' JSON names, joined by dots |
| DefaultFieldNameResolver.ResolvedPathShape | DBaker.CosmosDbQueryConverter/DefaultFieldNameResolver.cs:29-47 | an expression resolves exactly when it is a member chain over a named parameter, looking through unary nodes over members and `Convert` nodes; its path is the parameter's name and the members' JSON names, joined by dots |
| DefaultFieldNameResolver.ConvertTransparent | DBaker.CosmosDbQueryConverter/DefaultFieldNameResolver.cs:39-43 | a `Convert` node resolves exactly as its operand |
| DefaultFieldNameResolver.UnaryOverMember | DBaker.CosmosDbQueryConverter/DefaultFieldNameResolver.cs:39-46 | a unary node of any kind over a member access resolves as that access; a non-`Convert` unary node over anything else does not resolve |
| DefaultFieldNameResolver.NestedPropertyCamelCase | DBaker.CosmosDbQueryConverter.Tests/DefaultFieldNameResolverTests.cs:42-55 | `c.SubDoc.Prop` resolves to `c.subDoc.prop` |
| DefaultFieldNameResolver.NestedPropertyAsDeclared | DBaker.CosmosDbQueryConverter/DefaultFieldNameResolver.cs:79-82 | without camel case, `c.SubDoc.Prop` resolves to `c.SubDoc.Prop` |
| DefaultFieldNameResolver.AttributeOrderExample | DBaker.CosmosDbQueryConverter/DefaultFieldNameResolver.cs:60-77 | with both naming attributes present, the one declared first gives the name |
| CosmosDbQuery.Convert | DBaker.CosmosDbQueryConverter/CosmosDbQuery.cs:29-38 | the query definition's text and parameters are the compiled template |
| CosmosDbQuery.NumberedPlaceholders | DBaker.CosmosDbQueryConverter/CosmosDbQuery.cs:60 | argument i becomes the placeholder `{i}` |
| CosmosDbQuery.FormatNumbered | DBaker.CosmosDbQueryConverter/CosmosDbQuery.cs:57-60 | formatting with `{0}`, `{1}`, ... as arguments turns each hole `{i}` back into the placeholder `{i}` |
| CosmosDbQuery.ConvertFormattable | DBaker.CosmosDbQueryConverter/CosmosDbQuery.cs:54-62 | a hole beyond the arguments fails with the format error at the leftmost such hole; otherwise the format, read as a template, is compiled against the arguments; an interpolated string never fails and binds its arguments in order, collections element by element |
| CosmosDbQuery.NumberedPlaceholdersInOrder | DBaker.CosmosDbQueryConverter/CosmosDbQuery.cs:60 | the renumbered arguments carry the placeholders `0..n-1` in order |
| CosmosDbQuery.InterpolatedArgumentsBindInOrder | DBaker.CosmosDbQueryConverter/CosmosDbQuery.cs:54-62 | an interpolated string never fails; it binds its arguments in order, collections element by element, with no reuse even for equal values |
| CosmosDbQuery.ConvertLambdaExpression | DBaker.CosmosDbQueryConverter/CosmosDbQuery.LambdaExpressions.cs:72-83 | the given resolver is used, or the camel-casing default resolver when none is given |
| CosmosDbQuery.FieldReferenceInlined | DBaker.CosmosDbQueryConverter/CosmosDbQuery.LambdaExpressions.cs:74-76 | with the default resolver, a member chain over a lambda parameter is inlined as its camel-cased JSON path |

## Left out

- **Scanning.** The regular expression `\{(\d+)\}` that finds placeholders is not modelled, and
  neither is `string.Format`'s brace escaping. Templates and format strings are given already
  split into tokens. A hole is its index only: the alignment and format-specifier parts of a
  format item (`{x,10}`, `{x:N2}`) are left out, so the padding `string.Format` applies to the
  inserted `{n}` or path text is not modelled.
- **Rescanning of extracted templates.** After `string.Format`, `BuildQuery` scans the whole
  rewritten query again. The model keeps literal text and inlined paths as literal tokens. So an
  escaped `{{0}}` in a format string, or a JSON name containing `{0}`, is not picked up as a
  placeholder the way the source would pick it up.
- **Integer parsing.** `int.Parse` overflows on placeholder digits beyond `int.MaxValue`; indices
  here are unbounded naturals. The 32-bit counter `paramIndex` is also unbounded here.
- **`QueryDefinition`.** It is represented by its text and its ordered parameter table; the
  Cosmos SDK's `QueryDefinition`/`WithParameter` are not modelled.
- **Dictionary order.** The source's `Dictionary` of parameters is modelled as a sequence in
  insertion order. It is enumerated in that order when no key is removed.
- **Runtime evaluation and reflection.**
  - Evaluating an argument is the parameter `evaluate`. Exceptions thrown while evaluating are
    not modelled.
  - Reading a member's custom attributes by reflection is replaced by attribute records that
    carry their type's simple name and their string-valued properties.
- **Exception types.** Index, cast and null exceptions on an unexpected `Create(...)` call are
  all the one error `MalformedCall`.
- **Values.** Runtime values are a small datatype. Scalars stand for every non-enumerable
  object, and nested collections are expanded one level only, as in the source.
- **Null names.** A null parameter name and an empty one are both the empty string.
- **Lower-casing.** `char.ToLowerInvariant` is modelled on ASCII letters only; other Unicode
  case mappings are left out.
- **Generic overloads.** The generic `Convert<T1, ..., T10>` overloads only forward to
  `ConvertLambdaExpression` and are not modelled separately. The lambda is represented by its
  body.
- **Message text.** The out-of-range message text is `Templates.NoParameterMessage`. The error
  value itself carries only the index.
- **Null value arrays.** `Convert(query, null)` throws a `NullReferenceException` at the range
  check once the template has a placeholder. A sequence of values cannot be null, so this case
  is not modelled.
- **Attribute order.** `GetCustomAttributes` does not promise any order. The model fixes it to
  declaration order, so with two naming attributes the model's choice may differ from a run.
