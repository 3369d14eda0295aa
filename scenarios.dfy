/**
 * The repository's own analyser and code-fix cases, stated over the model.
 * Literal argument expressions and the types `string` and `int` are opaque
 * values; only their distinctness matters.
 */
module Scenarios {
  import opened Wrappers
  import opened Syntax
  import opened ArgumentInfos
  import opened SemanticModelExtensions
  import opened GenericExtensions
  import opened InvocationExpressionSyntaxInfo
  import opened UseNamedArgsCodeFixProvider
  import opened UseNamedArgsAnalyzer

  /** A non-params parameter. */
  function Param(name: string, t: TypeId, ordinal: nat): Parameter
  {
    Parameter(name, t, ordinal, false)
  }

  /** A positional argument whose expression is not a bare identifier (a literal, say). */
  predicate IsLiteral(a: Argument)
  {
    a.nameColon.None? && a.expression.OtherExpression?
  }

  function Call(symbol: Symbol, arguments: seq<Argument>, list: ArgumentList, location: Location): Invocation
  {
    Invocation(Some(symbol), list.(arguments := arguments), location)
  }

  /** An all-positional call with no more arguments than parameters binds each argument to the parameter at its position. */
  lemma PositionalCallBinds(symbol: Symbol, arguments: seq<Argument>, bs: seq<BoundArgument>)
    requires |arguments| <= |GetParameters(symbol)|
    requires forall i :: 0 <= i < |arguments| ==> arguments[i].nameColon.None?
    requires |bs| == |arguments|
    requires forall i :: 0 <= i < |bs| ==> bs[i] == BoundArgument(arguments[i], GetParameters(symbol)[i])
    ensures BindArguments(Some(symbol), arguments) == Success(bs)
  {
    forall i | 0 <= i < |arguments|
      ensures GetArgumentInfo(Some(symbol), arguments, i) == ArgumentInfo(Some(symbol), Some(bs[i].parameter))
    {
      PositionalArgumentInRange(symbol, arguments, i);
    }
    BindPrefixOf(Some(symbol), arguments, |arguments|, bs);
  }

  /** The first two grouping steps: two groups when the types differ, one otherwise. */
  lemma GroupedTwo(b0: BoundArgument, b1: BoundArgument)
    ensures TypeOf(b0) != TypeOf(b1) ==> Grouped([b0, b1]) == [Group(TypeOf(b0), [b0]), Group(TypeOf(b1), [b1])]
    ensures TypeOf(b0) == TypeOf(b1) ==> Grouped([b0, b1]) == [Group(TypeOf(b0), [b0, b1])]
  {
    GroupedSnoc([], b0);
    assert [] + [b0] == [b0];
    assert Grouped([b0]) == [Group(TypeOf(b0), [b0])];
    GroupedSnoc([b0], b1);
    assert [b0] + [b1] == [b0, b1];
  }

  /** Grouping three bound arguments whose types are t, u, t, with t != u. */
  lemma GroupedTUT(b0: BoundArgument, b1: BoundArgument, b2: BoundArgument)
    requires TypeOf(b0) == TypeOf(b2) != TypeOf(b1)
    ensures Grouped([b0, b1, b2]) == [Group(TypeOf(b0), [b0, b2]), Group(TypeOf(b1), [b1])]
  {
    GroupedTwo(b0, b1);
    GroupedSnoc([b0, b1], b2);
    assert [b0, b1] + [b2] == [b0, b1, b2];
    var gs := [Group(TypeOf(b0), [b0]), Group(TypeOf(b1), [b1])];
    assert FindGroup(gs[..1], TypeOf(b2)) == Some(0);
    assert FindGroup(gs, TypeOf(b2)) == Some(0);
    assert [b0] + [b2] == [b0, b2];
    assert AddToGroup(gs, b2) == gs[0 := Group(TypeOf(b0), [b0, b2])];
  }

  /** Grouping three bound arguments whose types are u, t, t, with t != u. */
  lemma GroupedUTT(b0: BoundArgument, b1: BoundArgument, b2: BoundArgument)
    requires TypeOf(b1) == TypeOf(b2) != TypeOf(b0)
    ensures Grouped([b0, b1, b2]) == [Group(TypeOf(b0), [b0]), Group(TypeOf(b1), [b1, b2])]
  {
    GroupedTwo(b0, b1);
    GroupedSnoc([b0, b1], b2);
    assert [b0, b1] + [b2] == [b0, b1, b2];
    var gs := [Group(TypeOf(b0), [b0]), Group(TypeOf(b1), [b1])];
    assert FindGroup(gs, TypeOf(b2)) == Some(1);
    assert [b1] + [b2] == [b1, b2];
    assert AddToGroup(gs, b2) == gs[1 := Group(TypeOf(b1), [b1, b2])];
  }

  /** Grouping three bound arguments of one type. */
  lemma GroupedTTT(b0: BoundArgument, b1: BoundArgument, b2: BoundArgument)
    requires TypeOf(b0) == TypeOf(b1) == TypeOf(b2)
    ensures Grouped([b0, b1, b2]) == [Group(TypeOf(b0), [b0, b1, b2])]
  {
    GroupedTwo(b0, b1);
    GroupedSnoc([b0, b1], b2);
    assert [b0, b1] + [b2] == [b0, b1, b2];
    assert FindGroup([Group(TypeOf(b0), [b0, b1])], TypeOf(b2)) == Some(0);
  }

  /** A group of one is never reported. */
  lemma SingleNotFlagged(t: TypeId, b: BoundArgument)
    ensures !ShouldBeNamed(Group(t, [b]))
  {
  }

  /** Two positional literals of one type are reported. */
  lemma TwoLiteralsFlagged(t: TypeId, b0: BoundArgument, b1: BoundArgument)
    requires IsLiteral(b0.argument) && IsLiteral(b1.argument)
    ensures ShouldBeNamed(Group(t, [b0, b1]))
  {
    var g := Group(t, [b0, b1]);
    ShouldBeNamedMeaning(g);
    assert IsPositional(g.arguments[0]) && IsPositional(g.arguments[1]) && !IsSelfNamed(g.arguments[0]);
  }

  /** The flagged groups of a two-group result. */
  lemma FlaggedTwo(g0: Group, g1: Group)
    ensures Flagged([g0, g1]) == (if ShouldBeNamed(g0) then [g0] else []) + (if ShouldBeNamed(g1) then [g1] else [])
  {
    assert [g0, g1][..1] == [g0];
    FlaggedOne(g0);
  }

  /** The description of a group bound to parameters named `line` and `column`. */
  lemma DescribeLineColumn(g: Group)
    requires |g.arguments| == 2
    requires g.arguments[0].parameter.name == "line" && g.arguments[1].parameter.name == "column"
    ensures Describe([g]) == "'line', 'column'"
  {
    DescribeOneGroup(g);
    var names := QuotedNames(g.arguments);
    assert names[..1] == [names[0]];
    assert Join(", ", names) == names[0] + ", " + names[1];
    assert names[0] == Quote("line") && names[1] == Quote("column");
    QuotedLineColumn();
  }

  /** The literal text of the two quoted names joined by ", ". */
  lemma QuotedLineColumn()
    ensures Quote("line") + ", " + Quote("column") == "'line', 'column'"
  {
  }

  /** Proof helper for the scenario lemmas: the rebuild of a three-argument call, unfolded. */
  lemma RewriteThree(b0: BoundArgument, b1: BoundArgument, b2: BoundArgument, m: nat)
    ensures RewriteArguments([b0, b1, b2], m) == [RewriteArgument(b0, m), RewriteArgument(b1, m), RewriteArgument(b2, m)]
  {
  }

  /** The flagged groups of a one-group result. */
  lemma FlaggedOne(g: Group)
    ensures Flagged([g]) == if ShouldBeNamed(g) then [g] else []
  {
    assert [g][..0] == [];
  }

  /** Proof helper for the scenario lemmas: flattening one group, and its start ordinal when its first argument has ordinal 0. */
  lemma SingleGroupStart(g: Group)
    requires g.arguments != []
    ensures Flatten([g]) == g.arguments
    ensures g.arguments[0].parameter.ordinal == 0 ==> MinOrdinal(Flatten([g])) == 0
  {
    assert [g][..0] == [];
  }

  /** Proof helper for the scenario lemmas: rewriting three arguments from ordinal 0 when the middle one already carries its own name. */
  lemma RewriteNamedMiddle(b0: BoundArgument, b1: BoundArgument, b2: BoundArgument)
    requires b1.argument.nameColon == Some(b1.parameter.name)
    ensures RewriteArguments([b0, b1, b2], 0) == [WithNameColon(b0), b1.argument, WithNameColon(b2)]
  {
    assert WithNameColon(b1) == b1.argument;
  }

  /** The binding and the classification of `Gork("Gizmo.cs", 9000, 1)` against `Gork(string fileName, int line, int column)`. */
  lemma GorkFileNameLineColumnGroups(stringType: TypeId, intType: TypeId, a0: Argument, a1: Argument, a2: Argument,
                                     list: ArgumentList, location: Location)
    requires stringType != intType
    requires IsLiteral(a0) && IsLiteral(a1) && IsLiteral(a2)
    ensures var fileName, line, column := Param("fileName", stringType, 0), Param("line", intType, 1), Param("column", intType, 2);
            var gork := MethodSymbol("Gork", Ordinary, [fileName, line, column]);
            var bs := [BoundArgument(a0, fileName), BoundArgument(a1, line), BoundArgument(a2, column)];
            && BindArguments(Some(gork), [a0, a1, a2]) == Success(bs)
            && Classify(Call(gork, [a0, a1, a2], list, location)) == Success([Group(intType, bs[1..])])
  {
    var fileName, line, column := Param("fileName", stringType, 0), Param("line", intType, 1), Param("column", intType, 2);
    var gork := MethodSymbol("Gork", Ordinary, [fileName, line, column]);
    var invocation := Call(gork, [a0, a1, a2], list, location);
    var b0, b1, b2 := BoundArgument(a0, fileName), BoundArgument(a1, line), BoundArgument(a2, column);
    var bs := [b0, b1, b2];
    PositionalCallBinds(gork, [a0, a1, a2], bs);
    ClassifyWhenBound(invocation, bs);
    GroupedUTT(b0, b1, b2);
    var g := Group(intType, [b1, b2]);
    SingleNotFlagged(stringType, b0);
    TwoLiteralsFlagged(intType, b1, b2);
    FlaggedTwo(Group(stringType, [b0]), g);
    assert Grouped(bs) == [Group(stringType, [b0]), g];
    assert Flagged(Grouped(bs)) == [g];
    assert Classify(invocation) == Success([g]);
    assert bs[1..] == [b1, b2];
  }

  /**
   * `void Gork(string fileName, int line, int column)` called as
   * `Gork("Gizmo.cs", 9000, 1)`: one group [line, column]; the diagnostic
   * reads `'line', 'column'`; the fix gives `Gork("Gizmo.cs", line: 9000, column: 1)`.
   */
  lemma GorkFileNameLineColumn(stringType: TypeId, intType: TypeId, a0: Argument, a1: Argument, a2: Argument,
                               list: ArgumentList, location: Location)
    requires stringType != intType
    requires IsLiteral(a0) && IsLiteral(a1) && IsLiteral(a2)
    ensures var line := Param("line", intType, 1);
            var column := Param("column", intType, 2);
            var gork := MethodSymbol("Gork", Ordinary, [Param("fileName", stringType, 0), line, column]);
            var invocation := Call(gork, [a0, a1, a2], list, location);
            && Classify(invocation) == Success([Group(intType, [BoundArgument(a1, line), BoundArgument(a2, column)])])
            && Analysis(invocation) == Success(Some(Diagnostic(location, "Gork", "'line', 'column'")))
            && PlanFix(invocation) ==
                 Success(list.(arguments := [a0, a1.(nameColon := Some("line")), a2.(nameColon := Some("column"))]))
  {
    GorkFileNameLineColumnGroups(stringType, intType, a0, a1, a2, list, location);
    GorkFileNameLineColumnReport(stringType, intType, a0, a1, a2, list, location);
    GorkFileNameLineColumnFix(stringType, intType, a0, a1, a2, list, location);
  }

  /** The diagnostic for `Gork("Gizmo.cs", 9000, 1)`. */
  lemma GorkFileNameLineColumnReport(stringType: TypeId, intType: TypeId, a0: Argument, a1: Argument, a2: Argument,
                                     list: ArgumentList, location: Location)
    requires stringType != intType
    requires IsLiteral(a0) && IsLiteral(a1) && IsLiteral(a2)
    ensures var gork := MethodSymbol("Gork", Ordinary, [Param("fileName", stringType, 0), Param("line", intType, 1),
                                                        Param("column", intType, 2)]);
            Analysis(Call(gork, [a0, a1, a2], list, location)) == Success(Some(Diagnostic(location, "Gork", "'line', 'column'")))
  {
    var fileName, line, column := Param("fileName", stringType, 0), Param("line", intType, 1), Param("column", intType, 2);
    var gork := MethodSymbol("Gork", Ordinary, [fileName, line, column]);
    var invocation := Call(gork, [a0, a1, a2], list, location);
    var bs := [BoundArgument(a0, fileName), BoundArgument(a1, line), BoundArgument(a2, column)];
    GorkFileNameLineColumnGroups(stringType, intType, a0, a1, a2, list, location);
    var g := Group(intType, bs[1..]);
    ReportExactlyWhenGroups(invocation);
    DescribeLineColumn(g);
  }

  /** The fix for `Gork("Gizmo.cs", 9000, 1)`. */
  lemma GorkFileNameLineColumnFix(stringType: TypeId, intType: TypeId, a0: Argument, a1: Argument, a2: Argument,
                                  list: ArgumentList, location: Location)
    requires stringType != intType
    requires IsLiteral(a0) && IsLiteral(a1) && IsLiteral(a2)
    ensures var gork := MethodSymbol("Gork", Ordinary, [Param("fileName", stringType, 0), Param("line", intType, 1),
                                                        Param("column", intType, 2)]);
            PlanFix(Call(gork, [a0, a1, a2], list, location)) ==
              Success(list.(arguments := [a0, a1.(nameColon := Some("line")), a2.(nameColon := Some("column"))]))
  {
    var fileName, line, column := Param("fileName", stringType, 0), Param("line", intType, 1), Param("column", intType, 2);
    var gork := MethodSymbol("Gork", Ordinary, [fileName, line, column]);
    var invocation := Call(gork, [a0, a1, a2], list, location);
    var b0, b1, b2 := BoundArgument(a0, fileName), BoundArgument(a1, line), BoundArgument(a2, column);
    var bs := [b0, b1, b2];
    GorkFileNameLineColumnGroups(stringType, intType, a0, a1, a2, list, location);
    assert bs[1..] == [b1, b2];
    var g := Group(intType, [b1, b2]);
    assert Flatten([g]) == [b1, b2] by {
      assert [g][..0] == [];
    }
    assert MinOrdinal([b1, b2]) == 1;
    PlanFixWhenBound(invocation, [g], bs);
    RewriteThree(b0, b1, b2, 1);
  }

  /** The binding and the classification of `Gork(9000, "Gizmo.cs", 1)` against `Gork(int line, string fileName, int column)`. */
  lemma GorkLineFileNameColumnGroups(stringType: TypeId, intType: TypeId, a0: Argument, a1: Argument, a2: Argument,
                                     list: ArgumentList, location: Location)
    requires stringType != intType
    requires IsLiteral(a0) && IsLiteral(a1) && IsLiteral(a2)
    ensures var line, fileName, column := Param("line", intType, 0), Param("fileName", stringType, 1), Param("column", intType, 2);
            var gork := MethodSymbol("Gork", Ordinary, [line, fileName, column]);
            var b0, b2 := BoundArgument(a0, line), BoundArgument(a2, column);
            && BindArguments(Some(gork), [a0, a1, a2]) == Success([b0, BoundArgument(a1, fileName), b2])
            && Classify(Call(gork, [a0, a1, a2], list, location)) == Success([Group(intType, [b0, b2])])
  {
    var line, fileName, column := Param("line", intType, 0), Param("fileName", stringType, 1), Param("column", intType, 2);
    var gork := MethodSymbol("Gork", Ordinary, [line, fileName, column]);
    var invocation := Call(gork, [a0, a1, a2], list, location);
    var b0, b1, b2 := BoundArgument(a0, line), BoundArgument(a1, fileName), BoundArgument(a2, column);
    var bs := [b0, b1, b2];
    PositionalCallBinds(gork, [a0, a1, a2], bs);
    ClassifyWhenBound(invocation, bs);
    GroupedTUT(b0, b1, b2);
    var g := Group(intType, [b0, b2]);
    SingleNotFlagged(stringType, b1);
    TwoLiteralsFlagged(intType, b0, b2);
    FlaggedTwo(g, Group(stringType, [b1]));
    assert Grouped(bs) == [g, Group(stringType, [b1])];
    assert Flagged(Grouped(bs)) == [g];
  }

  /**
   * `void Gork(int line, string fileName, int column)` called as
   * `Gork(9000, "Gizmo.cs", 1)`: the fix names the distinct-typed middle
   * argument too, giving `Gork(line: 9000, fileName: "Gizmo.cs", column: 1)`.
   */
  lemma GorkLineFileNameColumn(stringType: TypeId, intType: TypeId, a0: Argument, a1: Argument, a2: Argument,
                               list: ArgumentList, location: Location)
    requires stringType != intType
    requires IsLiteral(a0) && IsLiteral(a1) && IsLiteral(a2)
    ensures var line := Param("line", intType, 0);
            var column := Param("column", intType, 2);
            var gork := MethodSymbol("Gork", Ordinary, [line, Param("fileName", stringType, 1), column]);
            var invocation := Call(gork, [a0, a1, a2], list, location);
            && Classify(invocation) == Success([Group(intType, [BoundArgument(a0, line), BoundArgument(a2, column)])])
            && PlanFix(invocation) ==
                 Success(list.(arguments := [a0.(nameColon := Some("line")), a1.(nameColon := Some("fileName")),
                                             a2.(nameColon := Some("column"))]))
  {
    var line, fileName, column := Param("line", intType, 0), Param("fileName", stringType, 1), Param("column", intType, 2);
    var gork := MethodSymbol("Gork", Ordinary, [line, fileName, column]);
    var invocation := Call(gork, [a0, a1, a2], list, location);
    var b0, b1, b2 := BoundArgument(a0, line), BoundArgument(a1, fileName), BoundArgument(a2, column);
    var bs := [b0, b1, b2];
    GorkLineFileNameColumnGroups(stringType, intType, a0, a1, a2, list, location);
    var g := Group(intType, [b0, b2]);
    SingleGroupStart(g);
    PlanFixWhenBound(invocation, [g], bs);
    RewriteThree(b0, b1, b2, 0);
  }

  /** The binding and the classification of `Gork("pupper", bar: "doggo", "woofer")` against `Gork(string foo, string bar, string baz)`. */
  lemma GorkFooBarBazGroups(stringType: TypeId, a0: Argument, a1: Argument, a2: Argument, list: ArgumentList, location: Location)
    requires IsLiteral(a0) && IsLiteral(a2)
    requires a1.nameColon == Some("bar") && a1.expression.OtherExpression?
    ensures var foo, bar, baz := Param("foo", stringType, 0), Param("bar", stringType, 1), Param("baz", stringType, 2);
            var gork := MethodSymbol("Gork", Ordinary, [foo, bar, baz]);
            var bs := [BoundArgument(a0, foo), BoundArgument(a1, bar), BoundArgument(a2, baz)];
            && BindArguments(Some(gork), [a0, a1, a2]) == Success(bs)
            && Classify(Call(gork, [a0, a1, a2], list, location)) == Success([Group(stringType, bs)])
  {
    var foo, bar, baz := Param("foo", stringType, 0), Param("bar", stringType, 1), Param("baz", stringType, 2);
    var gork := MethodSymbol("Gork", Ordinary, [foo, bar, baz]);
    var arguments := [a0, a1, a2];
    var invocation := Call(gork, arguments, list, location);
    var b0, b1, b2 := BoundArgument(a0, foo), BoundArgument(a1, bar), BoundArgument(a2, baz);
    var bs := [b0, b1, b2];
    PositionalArgumentInRange(gork, arguments, 0);
    PositionalArgumentInRange(gork, arguments, 2);
    assert FindParameterNamed([foo, bar, baz], "bar") == Some(bar) by {
      assert [foo, bar, baz][1..] == [bar, baz];
    }
    BindPrefixOf(Some(gork), arguments, 3, bs);
    ClassifyWhenBound(invocation, bs);
    GroupedTTT(b0, b1, b2);
    var g := Group(stringType, bs);
    assert ShouldBeNamed(g) by {
      ShouldBeNamedMeaning(g);
      assert IsPositional(g.arguments[0]) && IsPositional(g.arguments[2]) && !IsSelfNamed(g.arguments[0]);
    }
    FlaggedOne(g);
  }

  /**
   * `void Gork(string foo, string bar, string baz)` called as
   * `Gork("pupper", bar: "doggo", "woofer")`: the fix gives
   * `Gork(foo: "pupper", bar: "doggo", baz: "woofer")`.
   */
  lemma GorkFooBarBaz(stringType: TypeId, a0: Argument, a1: Argument, a2: Argument, list: ArgumentList, location: Location)
    requires IsLiteral(a0) && IsLiteral(a2)
    requires a1.nameColon == Some("bar") && a1.expression.OtherExpression?
    ensures var gork := MethodSymbol("Gork", Ordinary, [Param("foo", stringType, 0), Param("bar", stringType, 1),
                                                        Param("baz", stringType, 2)]);
            PlanFix(Call(gork, [a0, a1, a2], list, location)) ==
              Success(list.(arguments := [a0.(nameColon := Some("foo")), a1, a2.(nameColon := Some("baz"))]))
  {
    var foo, bar, baz := Param("foo", stringType, 0), Param("bar", stringType, 1), Param("baz", stringType, 2);
    var gork := MethodSymbol("Gork", Ordinary, [foo, bar, baz]);
    var invocation := Call(gork, [a0, a1, a2], list, location);
    var b0, b1, b2 := BoundArgument(a0, foo), BoundArgument(a1, bar), BoundArgument(a2, baz);
    var bs := [b0, b1, b2];
    GorkFooBarBazGroups(stringType, a0, a1, a2, list, location);
    var g := Group(stringType, bs);
    SingleGroupStart(g);
    PlanFixWhenBound(invocation, [g], bs);
    RewriteNamedMiddle(b0, b1, b2);
  }

  /**
   * `void Gork(int line, int column, params string[] diagnosticMessages)`
   * called as `Gork(9000, 1, "Goku")`: the last argument goes to the
   * params parameter, so nothing is reported.
   */
  lemma GorkWithParams(stringsType: TypeId, intType: TypeId, a0: Argument, a1: Argument, a2: Argument,
                       list: ArgumentList, location: Location)
    requires IsLiteral(a0) && IsLiteral(a1) && IsLiteral(a2)
    ensures var gork := MethodSymbol("Gork", Ordinary, [Param("line", intType, 0), Param("column", intType, 1),
                                                        Parameter("diagnosticMessages", stringsType, 2, true)]);
            Analysis(Call(gork, [a0, a1, a2], list, location)) == Success(None)
  {
    var gork := MethodSymbol("Gork", Ordinary, [Param("line", intType, 0), Param("column", intType, 1),
                                                Parameter("diagnosticMessages", stringsType, 2, true)]);
    var invocation := Call(gork, [a0, a1, a2], list, location);
    PositionalArgumentInRange(gork, [a0, a1, a2], 2);
    InSupportedMethodKinds(Ordinary);
    assert Classify(invocation) == Success([]);
  }

  /**
   * `void Gork(string name, int powerLevel)` called as `Gork("Goku", 9001)`:
   * arguments of different types report nothing.
   */
  lemma GorkDifferentTypes(stringType: TypeId, intType: TypeId, a0: Argument, a1: Argument,
                           list: ArgumentList, location: Location)
    requires stringType != intType
    requires IsLiteral(a0) && IsLiteral(a1)
    ensures var gork := MethodSymbol("Gork", Ordinary, [Param("name", stringType, 0), Param("powerLevel", intType, 1)]);
            Analysis(Call(gork, [a0, a1], list, location)) == Success(None)
  {
    var name, powerLevel := Param("name", stringType, 0), Param("powerLevel", intType, 1);
    var gork := MethodSymbol("Gork", Ordinary, [name, powerLevel]);
    var invocation := Call(gork, [a0, a1], list, location);
    var bs := [BoundArgument(a0, name), BoundArgument(a1, powerLevel)];
    PositionalCallBinds(gork, [a0, a1], bs);
    DistinctTypesReportNothing(invocation, bs);
    InSupportedMethodKinds(Ordinary);
  }

  /**
   * `void Gork(string fileName, int line, int column)` called as
   * `Gork(fileName: "Gizmo.cs", line, column)` with local variables named
   * like the parameters: nothing is reported.
   */
  lemma GorkSelfNamedVariables(stringType: TypeId, intType: TypeId, a0: Argument, a1: Argument, a2: Argument,
                               list: ArgumentList, location: Location)
    requires stringType != intType
    requires a0.nameColon == Some("fileName")
    requires a1.nameColon.None? && a1.expression == IdentifierName("line")
    requires a2.nameColon.None? && a2.expression == IdentifierName("column")
    ensures var gork := MethodSymbol("Gork", Ordinary, [Param("fileName", stringType, 0), Param("line", intType, 1),
                                                        Param("column", intType, 2)]);
            Analysis(Call(gork, [a0, a1, a2], list, location)) == Success(None)
  {
    var fileName, line, column := Param("fileName", stringType, 0), Param("line", intType, 1), Param("column", intType, 2);
    var gork := MethodSymbol("Gork", Ordinary, [fileName, line, column]);
    var arguments := [a0, a1, a2];
    var invocation := Call(gork, arguments, list, location);
    var b0, b1, b2 := BoundArgument(a0, fileName), BoundArgument(a1, line), BoundArgument(a2, column);
    var bs := [b0, b1, b2];
    assert FindParameterNamed([fileName, line, column], "fileName") == Some(fileName);
    PositionalArgumentInRange(gork, arguments, 1);
    PositionalArgumentInRange(gork, arguments, 2);
    BindPrefixOf(Some(gork), arguments, 3, bs);
    ClassifyWhenBound(invocation, bs);
    GroupedUTT(b0, b1, b2);
    var g := Group(intType, [b1, b2]);
    assert !ShouldBeNamed(g) by {
      AllSelfNamed(g.arguments);
      assert IsSelfNamed(b1) && IsSelfNamed(b2);
    }
    SingleNotFlagged(stringType, b0);
    FlaggedTwo(Group(stringType, [b0]), g);
    InSupportedMethodKinds(Ordinary);
  }

  /**
   * Re-analysing a fixed call reports nothing, provided the callee's
   * parameter names are unique and the fixed call resolves to the same symbol.
   */
  lemma FixedCallReportsNothing(invocation: Invocation)
    requires PlanFix(invocation).Success?
    requires invocation.symbol.Some? && UniqueNames(GetParameters(invocation.symbol.value))
    ensures Analysis(invocation.(argumentList := PlanFix(invocation).value)) == Success(None)
  {
    FixIsIdempotent(invocation);
  }
}
