# UseNamedArguments, modelled in Dafny

UseNamedArguments is a C# analyser with a matching code fix. It looks at a
call to an ordinary method, a constructor or a local function. It binds each
argument to the parameter it supplies, groups the arguments by parameter
type, and reports the call when some type group holds two or more positional
arguments and not every argument of that group, named ones included, is
"self-named". An argument is self-named when it is a bare identifier spelled
like its parameter. The diagnostic names the groups as
`'a', 'b' and 'c', 'd'`. The code fix may not leave a positional argument
after a named one, because every argument to the right of the first named
argument must be named too. So it finds the smallest parameter ordinal among
the reported arguments and names every argument whose parameter ordinal is at
least that.
It keeps each argument's expression, trivia and the list's separators.

The model has one module per source file:

| file | module | source |
|---|---|---|
| `wrappers.dfy` | `Wrappers` | Option and Result, used to model null and exceptions |
| `syntax.dfy` | `Syntax` | the syntax nodes and symbols the analyser reads; the host compiler's own objects are opaque types |
| `argument_info.dfy` | `ArgumentInfos` | `Support/ArgumentInfo.cs` |
| `generic_extensions.dfy` | `GenericExtensions` | `Support/GenericExtensions.cs` |
| `semantic_model_extensions.dfy` | `SemanticModelExtensions` | `Support/SemanticModelExtensions.cs` |
| `invocation_expression_syntax_info.dfy` | `InvocationExpressionSyntaxInfo` | `Support/InvocationExpressionSyntaxInfo.cs`, `Support/ArgumentSyntaxAndParameterSymbol.cs` |
| `analyzer.dfy` | `UseNamedArgsAnalyzer` | `UseNamedArgsForParamsOfSameTypeAnalyzer.cs` |
| `code_fix_provider.dfy` | `UseNamedArgsCodeFixProvider` | `UseNamedArgsForParamsOfSameTypeCodeFixProvider.cs` |
| `scenarios.dfy` | `Scenarios` | the unit tests' calls, stated as lemmas |

The source works by binding and grouping pure values, but the grouping, the
flagging, the description builder and the argument rewrite are loops. Each
loop is a `method` with a `while` loop, and each method's `ensures` ties its
result to a specification function: `Grouped`, `Flagged`, `Describe` and
`RewriteArguments`. The lemmas then prove what the source promises about those
functions. A thrown exception becomes a `Failure` of `SemanticModelExtensions.Error`.
A Roslyn `Dictionary` is modelled as a list of `(type, arguments)` groups in
insertion order.

## Model

| member | source | states |
|---|---|---|
| ArgumentInfos.Default | UseNamedArguments/Support/ArgumentInfo.cs:20 | `default(ArgumentInfo)` has both parts null and is empty |
| ArgumentInfos.Make | UseNamedArguments/Support/ArgumentInfo.cs:14-18 | the constructor stores the given symbol and parameter; the result is not empty |
| ArgumentInfos.IsEmptyIffDefault | UseNamedArguments/Support/ArgumentInfo.cs:11-20 | `IsEmpty` holds exactly of the default value |
| GenericExtensions.In | UseNamedArguments/Support/GenericExtensions.cs:7-11 | `In` is true exactly when some element of the collection equals the value |
| GenericExtensions.InEmpty | UseNamedArguments/Support/GenericExtensions.cs:7-11 | nothing is in an empty collection |
| GenericExtensions.InIgnoresOrderAndRepetition | UseNamedArguments/Support/GenericExtensions.cs:7-11 | `In` depends only on which values are listed, not their order or repetition |
| GenericExtensions.InSupportedMethodKinds | UseNamedArguments/UseNamedArgsForParamsOfSameTypeAnalyzer.cs:66-72 | the kind check accepts exactly Ordinary, Constructor and LocalFunction |
| SemanticModelExtensions.GetParameters | UseNamedArguments/Support/SemanticModelExtensions.cs:90-101 | methods and properties give their declared parameters; every other symbol gives none |
| SemanticModelExtensions.FindParameterNamedMeaning | UseNamedArguments/Support/SemanticModelExtensions.cs:64-68 | the first parameter whose name equals the `name:` text; none exactly when no parameter has that name |
| SemanticModelExtensions.GetArgumentInfo | UseNamedArguments/Support/SemanticModelExtensions.cs:33-88 | the result is empty, or it holds the call's symbol and one of that symbol's declared parameters |
| SemanticModelExtensions.GetArgumentInfoOrThrow | UseNamedArguments/Support/SemanticModelExtensions.cs:15-27 | fails exactly when the binder's result is empty, with that argument's error; otherwise returns that non-empty result |
| SemanticModelExtensions.UnresolvedBindsNothing | UseNamedArguments/Support/SemanticModelExtensions.cs:46-48 | a call that resolves to no symbol binds nothing |
| SemanticModelExtensions.OtherSymbolBindsNothing | UseNamedArguments/Support/SemanticModelExtensions.cs:90-101 | a symbol that is neither a method nor a property binds nothing |
| SemanticModelExtensions.ZeroParametersBindNothing | UseNamedArguments/Support/SemanticModelExtensions.cs:50-52 | a callee with no parameters binds nothing |
| SemanticModelExtensions.NamedArgumentBinding | UseNamedArguments/Support/SemanticModelExtensions.cs:54-69 | a named argument binds to the first parameter with exactly that name, and to nothing when there is none |
| SemanticModelExtensions.PositionalArgumentInRange | UseNamedArguments/Support/SemanticModelExtensions.cs:71-78 | a positional argument at position i < the parameter count binds to parameter i |
| SemanticModelExtensions.PositionalArgumentPastEnd | UseNamedArguments/Support/SemanticModelExtensions.cs:80-87 | past the last parameter, a positional argument binds to that parameter when it is `params`, and to nothing otherwise |
| SemanticModelExtensions.FindOwnName | UseNamedArguments/Support/SemanticModelExtensions.cs:64-68 | with unique parameter names, looking up a parameter's own name finds that parameter |
| SemanticModelExtensions.BindingDependsOnNameColon | UseNamedArguments/Support/SemanticModelExtensions.cs:54-85 | the binder reads an argument only through its `name:` qualifier and its position |
| InvocationExpressionSyntaxInfo.BindPrefixMeaning | UseNamedArguments/Support/InvocationExpressionSyntaxInfo.cs:119-121 | binding the first n arguments succeeds exactly when none of them binds to nothing; it then gives each argument with its parameter; otherwise it fails with the first unbound argument's error |
| InvocationExpressionSyntaxInfo.BoundAt | UseNamedArguments/Support/InvocationExpressionSyntaxInfo.cs:119-121 | when binding succeeds, the i-th bound argument is the i-th call argument, and the binder and its throwing wrapper both give that argument's recorded parameter |
| InvocationExpressionSyntaxInfo.BindPrefixStep | UseNamedArguments/Support/InvocationExpressionSyntaxInfo.cs:119-121 | binding one more argument extends the bound prefix, or fails with that argument's error |
| InvocationExpressionSyntaxInfo.BindFailurePersists | UseNamedArguments/Support/InvocationExpressionSyntaxInfo.cs:119-121 | once an argument throws, every longer prefix throws the same exception |
| InvocationExpressionSyntaxInfo.BindPrefixOf | UseNamedArguments/Support/InvocationExpressionSyntaxInfo.cs:119-121 | binding succeeds with the recorded parameters when each argument binds to its recorded parameter |
| InvocationExpressionSyntaxInfo.FindGroup | UseNamedArguments/Support/InvocationExpressionSyntaxInfo.cs:123-125 | `TryGetValue` finds a group keyed by the type, and finds none exactly when no group has that key |
| InvocationExpressionSyntaxInfo.FirstOf | UseNamedArguments/Support/InvocationExpressionSyntaxInfo.cs:119-129 | the position of the first argument of a type: every earlier argument has another type |
| InvocationExpressionSyntaxInfo.OfTypeMembers | UseNamedArguments/Support/InvocationExpressionSyntaxInfo.cs:131-135 | a type's group holds only call arguments of that type |
| InvocationExpressionSyntaxInfo.AddToExistingGroup | UseNamedArguments/Support/InvocationExpressionSyntaxInfo.cs:123-135 | appending to a type's existing group keeps the partition invariant |
| InvocationExpressionSyntaxInfo.AddToNewGroup | UseNamedArguments/Support/InvocationExpressionSyntaxInfo.cs:123-135 | a new type gets a new group at the end, and the partition invariant is kept |
| InvocationExpressionSyntaxInfo.GroupedIsPartition | UseNamedArguments/Support/InvocationExpressionSyntaxInfo.cs:109-139 | the grouping partitions the bound arguments by parameter type. Keys are distinct. Each group holds exactly its type's arguments in call order. Every argument has a group. Groups come in the order their type first occurs |
| InvocationExpressionSyntaxInfo.AddToDictionary | UseNamedArguments/Support/InvocationExpressionSyntaxInfo.cs:123-135 | one pass of the grouping loop's body, the dictionary lookup-or-create on the group list, gives the same groups as one grouping step |
| InvocationExpressionSyntaxInfo.GroupingFails | UseNamedArguments/Support/InvocationExpressionSyntaxInfo.cs:119-121 | when the next argument binds to nothing, the whole grouping throws that argument's error |
| InvocationExpressionSyntaxInfo.GroupingStep | UseNamedArguments/Support/InvocationExpressionSyntaxInfo.cs:119-135 | a bound argument extends the bound prefix by one, and grouping that prefix is one more grouping step |
| InvocationExpressionSyntaxInfo.GetArgumentsGroupedByType | UseNamedArguments/Support/InvocationExpressionSyntaxInfo.cs:109-139 | the loop's result is the grouping of the bound arguments, or the first binding failure |
| InvocationExpressionSyntaxInfo.CountPositional | UseNamedArguments/Support/InvocationExpressionSyntaxInfo.cs:87 | the count of arguments without `name:` is at most the group size |
| InvocationExpressionSyntaxInfo.CountSelfNamed | UseNamedArguments/Support/InvocationExpressionSyntaxInfo.cs:90-98 | the self-named count is at most the group size |
| InvocationExpressionSyntaxInfo.TwoPositional | UseNamedArguments/Support/InvocationExpressionSyntaxInfo.cs:87-88 | "more than one positional argument" holds exactly when two distinct positions hold positional arguments |
| InvocationExpressionSyntaxInfo.OnePositional | UseNamedArguments/Support/InvocationExpressionSyntaxInfo.cs:87 | at least one positional argument exactly when some position holds one |
| InvocationExpressionSyntaxInfo.AllSelfNamed | UseNamedArguments/Support/InvocationExpressionSyntaxInfo.cs:90-101 | the self-named count equals the group size exactly when every argument is a bare identifier spelled like its parameter |
| InvocationExpressionSyntaxInfo.ShouldBeNamedMeaning | UseNamedArguments/Support/InvocationExpressionSyntaxInfo.cs:85-103 | a group is flagged exactly when two of its arguments are positional and some argument is not self-named |
| InvocationExpressionSyntaxInfo.FlaggedSelects | UseNamedArguments/Support/InvocationExpressionSyntaxInfo.cs:75-107 | the result is a subsequence of the groups in their order, and holds exactly the groups that should be named |
| InvocationExpressionSyntaxInfo.GetArgumentsWhichShouldBeNamed | UseNamedArguments/Support/InvocationExpressionSyntaxInfo.cs:75-107 | the filtering loop, including its counting loop, returns exactly the flagged groups |
| InvocationExpressionSyntaxInfo.From | UseNamedArguments/Support/InvocationExpressionSyntaxInfo.cs:56-73 | the method returns the classification of the call: no groups, the groups that should be named, or the binder's exception |
| InvocationExpressionSyntaxInfo.NoArgumentsNoGroups | UseNamedArguments/Support/InvocationExpressionSyntaxInfo.cs:60-62 | a call without arguments has nothing to name |
| InvocationExpressionSyntaxInfo.ParamsLastNoGroups | UseNamedArguments/Support/InvocationExpressionSyntaxInfo.cs:64-66 | when the last argument binds to a `params` parameter, nothing is reported |
| InvocationExpressionSyntaxInfo.ClassifyFailure | UseNamedArguments/Support/InvocationExpressionSyntaxInfo.cs:64-68 | when the last argument binds to nothing, the call throws with that argument's error. Otherwise, unless the last argument is `params`, it throws exactly when some argument binds to nothing |
| InvocationExpressionSyntaxInfo.ClassifyWhenBound | UseNamedArguments/Support/InvocationExpressionSyntaxInfo.cs:64-69 | with every argument bound, the result is nothing when the last is `params`, and otherwise the flagged groups of the grouping |
| InvocationExpressionSyntaxInfo.ReportedImpliesBound | UseNamedArguments/Support/InvocationExpressionSyntaxInfo.cs:64-69 | a non-empty result means every argument was bound and the groups are the flagged grouping |
| InvocationExpressionSyntaxInfo.ReportedGroups | UseNamedArguments/Support/InvocationExpressionSyntaxInfo.cs:68-69 | the reported groups are a subsequence of the call's type partition, in order. Each holds exactly its type's call arguments in call order: at least two, two positional and one not self-named |
| InvocationExpressionSyntaxInfo.NothingFlagged | UseNamedArguments/Support/InvocationExpressionSyntaxInfo.cs:75-107 | when no group should be named, the filter returns no groups |
| InvocationExpressionSyntaxInfo.OfTypeAtMostOne | UseNamedArguments/Support/InvocationExpressionSyntaxInfo.cs:119-135 | when parameter types are pairwise distinct, each type group holds at most one argument |
| InvocationExpressionSyntaxInfo.DistinctTypesReportNothing | UseNamedArguments/Support/InvocationExpressionSyntaxInfo.cs:56-107 | a call whose arguments bind to pairwise distinct types reports nothing |
| UseNamedArgsAnalyzer.Quote | UseNamedArguments/UseNamedArgsForParamsOfSameTypeAnalyzer.cs:95 | a quoted name is two characters longer and starts and ends with a single quote |
| UseNamedArgsAnalyzer.Join | UseNamedArguments/UseNamedArgsForParamsOfSameTypeAnalyzer.cs:93-95 | `string.Join` of nothing is empty, and of one item is that item |
| UseNamedArgsAnalyzer.JoinEnds | UseNamedArguments/UseNamedArgsForParamsOfSameTypeAnalyzer.cs:93-95 | a join of one or more items starts with the first item and ends with the last |
| UseNamedArgsAnalyzer.JoinSnoc | UseNamedArguments/UseNamedArgsForParamsOfSameTypeAnalyzer.cs:93-95 | joining one more item appends the separator and that item |
| UseNamedArgsAnalyzer.QuotedNames | UseNamedArguments/UseNamedArgsForParamsOfSameTypeAnalyzer.cs:95 | one quoted parameter name per argument, in group order |
| UseNamedArgsAnalyzer.DescribeFirstStartsWith | UseNamedArguments/UseNamedArgsForParamsOfSameTypeAnalyzer.cs:88-102 | a description of one or more groups starts with the first group's description |
| UseNamedArgsAnalyzer.DescribeFirstStep | UseNamedArguments/UseNamedArgsForParamsOfSameTypeAnalyzer.cs:90-101 | one more group appends the current separator (empty before the first group, " and " after) and that group's quoted names joined by ", " |
| UseNamedArgsAnalyzer.DescribeGroups | UseNamedArguments/UseNamedArgsForParamsOfSameTypeAnalyzer.cs:88-102 | the StringBuilder loop, with a separator that becomes " and " after the first group, builds exactly the description of all groups |
| UseNamedArgsAnalyzer.AnalyzeInvocationExpressionNode | UseNamedArguments/UseNamedArgsForParamsOfSameTypeAnalyzer.cs:56-114 | the analyser's steps give the analysis of the call: nothing for non-methods, unsupported kinds and empty results, an exception when binding throws, otherwise one diagnostic |
| UseNamedArgsAnalyzer.NonMethodReportsNothing | UseNamedArguments/UseNamedArgsForParamsOfSameTypeAnalyzer.cs:61-63 | a call that does not resolve to a method reports nothing |
| UseNamedArgsAnalyzer.UnsupportedKindReportsNothing | UseNamedArguments/UseNamedArgsForParamsOfSameTypeAnalyzer.cs:66-72 | a method of any other kind reports nothing |
| UseNamedArgsAnalyzer.ReportExactlyWhenGroups | UseNamedArguments/UseNamedArgsForParamsOfSameTypeAnalyzer.cs:76-113 | for a supported method, the analyser throws exactly when classification throws, with the same error. It reports nothing exactly when no group should be named. Otherwise it reports one diagnostic at the call's location, with the method's name and the groups' description |
| UseNamedArgsAnalyzer.DescribeOneGroup | UseNamedArguments/UseNamedArgsForParamsOfSameTypeAnalyzer.cs:93-99 | one group's description is its quoted names joined by ", " |
| UseNamedArgsAnalyzer.DescribeTwoGroups | UseNamedArguments/UseNamedArgsForParamsOfSameTypeAnalyzer.cs:97-101 | two groups are joined by " and " |
| UseNamedArgsAnalyzer.DescribeFirstAgrees | UseNamedArguments/UseNamedArgsForParamsOfSameTypeAnalyzer.cs:88-102 | the description of the first n groups depends only on those n groups |
| UseNamedArgsAnalyzer.DescribeLastGroup | UseNamedArguments/UseNamedArgsForParamsOfSameTypeAnalyzer.cs:97-101 | with two or more groups, the last group's description follows " and " after the description of the others |
| UseNamedArgsAnalyzer.DescribeShape | UseNamedArguments/UseNamedArgsForParamsOfSameTypeAnalyzer.cs:88-102 | the description starts with the first group's first quoted name, so with a quote and never with " and " |
| UseNamedArgsAnalyzer.DescriptionShape | UseNamedArguments/UseNamedArgsForParamsOfSameTypeAnalyzer.cs:83-112 | a reported diagnostic's description starts with the first reported argument's quoted parameter name |
| UseNamedArgsCodeFixProvider.Flatten | UseNamedArguments/UseNamedArgsForParamsOfSameTypeCodeFixProvider.cs:79-81 | `SelectMany` holds exactly the arguments of the reported groups |
| UseNamedArgsCodeFixProvider.MinOrdinal | UseNamedArguments/UseNamedArgsForParamsOfSameTypeCodeFixProvider.cs:82 | `Min` is some argument's ordinal and is no larger than any of them |
| UseNamedArgsCodeFixProvider.RewriteArgumentList | UseNamedArguments/UseNamedArgsForParamsOfSameTypeCodeFixProvider.cs:84-106 | the rebuild loop names each argument whose parameter ordinal is at least the start ordinal and keeps the others |
| UseNamedArgsCodeFixProvider.UseNamedArguments | UseNamedArguments/UseNamedArgsForParamsOfSameTypeCodeFixProvider.cs:61-112 | the fix's steps produce the planned argument list, or the exception that `From`, `Min` or the binder throws |
| UseNamedArgsCodeFixProvider.PlanFixOutcome | UseNamedArguments/UseNamedArgsForParamsOfSameTypeCodeFixProvider.cs:70-82 | a classification exception propagates. With no reported groups, `Min` throws. Otherwise the fix succeeds |
| UseNamedArgsCodeFixProvider.PlanFixWhenBound | UseNamedArguments/UseNamedArgsForParamsOfSameTypeCodeFixProvider.cs:70-106 | with reported groups and every argument bound, the fix rebuilds the argument list from the bound arguments, starting at the smallest reported ordinal |
| UseNamedArgsCodeFixProvider.StartOrdinalIsLeftmost | UseNamedArguments/UseNamedArgsForParamsOfSameTypeCodeFixProvider.cs:74-82 | the start ordinal belongs to a reported argument and is no larger than any reported argument's ordinal |
| UseNamedArgsCodeFixProvider.PlanFixRewritesFromStart | UseNamedArguments/UseNamedArgsForParamsOfSameTypeCodeFixProvider.cs:84-112 | the fixed list keeps its parentheses, separators and argument count. Each argument keeps its expression and trivia. An argument below the start ordinal is unchanged; the others are named after their parameter |
| UseNamedArgsCodeFixProvider.ReportedArgumentsAreNamed | UseNamedArguments/UseNamedArgsForParamsOfSameTypeCodeFixProvider.cs:91-103 | every argument of every reported group ends up named after its parameter |
| UseNamedArgsCodeFixProvider.SelectedAreNamed | UseNamedArguments/UseNamedArgsForParamsOfSameTypeCodeFixProvider.cs:91-103 | every bound argument among those whose minimum ordinal starts the rewrite is named after its parameter |
| UseNamedArgsCodeFixProvider.NamedArgumentsKeepTheirNames | UseNamedArguments/UseNamedArgsForParamsOfSameTypeCodeFixProvider.cs:93-102 | an argument already written as `name:` keeps exactly that name |
| UseNamedArgsCodeFixProvider.PositionalCallNamedSuffix | UseNamedArguments/UseNamedArgsForParamsOfSameTypeCodeFixProvider.cs:91-103 | when ordinals are positions, the arguments from the start position on are all named, so no positional argument follows a named one |
| UseNamedArgsCodeFixProvider.RewrittenBindsAlike | UseNamedArguments/UseNamedArgsForParamsOfSameTypeCodeFixProvider.cs:93-102 | with unique parameter names, each argument of the fixed call binds to the same parameter as before |
| UseNamedArgsCodeFixProvider.OfTypeRenamed | UseNamedArguments/Support/InvocationExpressionSyntaxInfo.cs:119-135 | renaming does not change which arguments fall into a type's group |
| UseNamedArgsCodeFixProvider.CountPositionalRenamed | UseNamedArguments/Support/InvocationExpressionSyntaxInfo.cs:87 | renaming never adds positional arguments, and leaves none among arguments at or past the start ordinal |
| UseNamedArgsCodeFixProvider.CountSelfNamedRenamed | UseNamedArguments/Support/InvocationExpressionSyntaxInfo.cs:90-98 | renaming keeps every expression, so the self-named count is unchanged |
| UseNamedArgsCodeFixProvider.RenamedGroupNotReported | UseNamedArguments/Support/InvocationExpressionSyntaxInfo.cs:85-103 | after the fix, no type group should be named |
| UseNamedArgsCodeFixProvider.RenamedGroupsNotReported | UseNamedArguments/Support/InvocationExpressionSyntaxInfo.cs:75-107 | after the fix, the flagged groups of the renamed arguments are empty |
| UseNamedArgsCodeFixProvider.FixIsIdempotent | UseNamedArguments/UseNamedArgsForParamsOfSameTypeCodeFixProvider.cs:84-112 | classifying the fixed call, with the same symbol and unique parameter names, reports no groups |
| Scenarios.PositionalCallBinds | UseNamedArguments/Support/SemanticModelExtensions.cs:71-78 | all-positional arguments within the parameter count bind to the parameters at their positions |
| Scenarios.GroupedTwo | UseNamedArguments/Support/InvocationExpressionSyntaxInfo.cs:119-135 | two arguments form one group when their types match, and two groups otherwise |
| Scenarios.GroupedTUT | UseNamedArguments/Support/InvocationExpressionSyntaxInfo.cs:119-135 | types T, U, T give the groups [first, third] and [second] |
| Scenarios.GroupedUTT | UseNamedArguments/Support/InvocationExpressionSyntaxInfo.cs:119-135 | types U, T, T give the groups [first] and [second, third] |
| Scenarios.GroupedTTT | UseNamedArguments/Support/InvocationExpressionSyntaxInfo.cs:119-135 | three arguments of one type form one group |
| Scenarios.SingleNotFlagged | UseNamedArguments/Support/InvocationExpressionSyntaxInfo.cs:87-88 | a one-argument group is never flagged |
| Scenarios.TwoLiteralsFlagged | UseNamedArguments/Support/InvocationExpressionSyntaxInfo.cs:87-103 | two positional non-identifier arguments of one type are flagged |
| Scenarios.FlaggedTwo | UseNamedArguments/Support/InvocationExpressionSyntaxInfo.cs:85-106 | filtering two groups keeps each one that should be named, in order |
| Scenarios.FlaggedOne | UseNamedArguments/Support/InvocationExpressionSyntaxInfo.cs:85-106 | filtering one group keeps it exactly when it should be named |
| Scenarios.DescribeLineColumn | UseNamedArguments/UseNamedArgsForParamsOfSameTypeAnalyzer.cs:88-102 | the group [line, column] is described as `'line', 'column'` |
| Scenarios.GorkFileNameLineColumn | UseNamedArguments.Tests/UseNamedArgumentsAnalyzerTests.cs:177-200 | `Gork("Gizmo.cs", 9000, 1)` reports `'line', 'column'` and is fixed to `Gork("Gizmo.cs", line: 9000, column: 1)`, as in UseNamedArguments.Tests/UseNamedArgumentsCodeFixTests.cs:14-34 |
| Scenarios.GorkLineFileNameColumn | UseNamedArguments.Tests/UseNamedArgumentsCodeFixTests.cs:90-110 | `Gork(9000, "Gizmo.cs", 1)` is fixed to `Gork(line: 9000, fileName: "Gizmo.cs", column: 1)` |
| Scenarios.GorkFooBarBaz | UseNamedArguments.Tests/UseNamedArgumentsCodeFixTests.cs:134-154 | `Gork("pupper", bar: "doggo", "woofer")` is fixed to `Gork(foo: "pupper", bar: "doggo", baz: "woofer")` |
| Scenarios.GorkWithParams | UseNamedArguments.Tests/UseNamedArgumentsAnalyzerTests.cs:69-89 | a call whose last argument goes to a `params` parameter reports nothing |
| Scenarios.GorkDifferentTypes | UseNamedArguments.Tests/UseNamedArgumentsAnalyzerTests.cs:91-110 | `Gork("Goku", 9001)` with differently typed parameters reports nothing |
| Scenarios.GorkSelfNamedVariables | UseNamedArguments.Tests/UseNamedArgumentsAnalyzerTests.cs:112-133 | `Gork(fileName: "Gizmo.cs", line, column)` with self-named variables reports nothing |
| Scenarios.FixedCallReportsNothing | UseNamedArguments/UseNamedArgsForParamsOfSameTypeAnalyzer.cs:76-84 | re-analysing a fixed call reports nothing, with the same symbol and unique parameter names |

## Left out

- Roslyn plumbing is not modelled: `Initialize`, `SupportedDiagnostics`, the `DiagnosticDescriptor` and its resource strings, `RegisterCodeFixesAsync`, `FixAllProvider`, the document and root replacement, and `async`/cancellation. The model starts from an invocation whose symbol is already resolved.
- Object creation expressions are not modelled. The analyser registers for `ObjectCreationExpression` but then casts every node unconditionally to `InvocationExpressionSyntax` (UseNamedArgsForParamsOfSameTypeAnalyzer.cs:50-59). The host's behaviour on that cast is outside this model.
- The semantic model is a parameter. An invocation carries the symbol the compiler resolves it to, or `None`. The fixed call is assumed to resolve to the same symbol as the original.
- Parts of `GetArgumentInfo` that cannot happen for an argument inside a call's argument list are not represented: a null semantic model or argument, a parent that is not an expression, a null `NameColon.Name` or identifier text, and `IndexOf` returning -1. `IndexOf` is modelled as the argument's position in the list.
- `Dictionary` enumeration order is modelled as insertion order. The .NET dictionary does not promise this, though it holds when nothing is removed.
- Exceptions are modelled as `Failure` values: the binder's `InvalidOperationException` and `Min` on an empty sequence. How the host reacts to an analyser or code fix that throws is not modelled.
- A parameter's `Ordinal` is a field of `Parameter`. That ordinals equal declaration positions is stated separately (`OrdinalsArePositions`) and is assumed only where a lemma needs it.
- Trivia are opaque values carried in each argument. `WithTriviaFrom` is modelled as keeping the argument's leading and trailing trivia. `ToIdentifierName` is modelled as using the parameter name unchanged, so escaping a keyword with `@` is not modelled.
- String comparison is exact sequence equality of `char`s, matching `StringComparison.Ordinal` and `==` on strings. A `ValueText` that differs from the written identifier text (escapes) is not modelled.
- The test harness projects (runners, verifiers, diagnostic results) are not part of this model. Their scenarios appear as the `Scenarios` lemmas.
- Quote: states the length and the surrounding quotes, not that the inner characters are the name, which the body itself makes plain.
- FixIsIdempotent: proved only for callees whose parameter names are unique and for a fixed call that resolves to the same symbol. The host language guarantees the first, and re-resolution is outside this model.
