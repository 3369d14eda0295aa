/**
 * The analyser: for a call to an ordinary method, a constructor or a local
 * function, report one diagnostic naming the groups of same-typed arguments
 * that should be named, as "'a', 'b' and 'c', 'd'".
 */
module UseNamedArgsAnalyzer {
  import opened Wrappers
  import opened Syntax
  import opened GenericExtensions
  import opened SemanticModelExtensions
  import opened InvocationExpressionSyntaxInfo

  /** The reported diagnostic: the call's location and the two message arguments. */
  datatype Diagnostic = Diagnostic(location: Location, methodName: string, description: string)

  /** `$"'{name}'"`. */
  function Quote(name: string): (r: string)
    ensures |r| == |name| + 2 && r[0] == '\'' && r[|r| - 1] == '\''
  {
    "'" + name + "'"
  }

  /** string.Join: the items with `separator` between each adjacent pair. */
  function Join(separator: string, items: seq<string>): (r: string)
    ensures |items| == 0 ==> r == ""
    ensures |items| == 1 ==> r == items[0]
  {
    if |items| == 0 then ""
    else if |items| == 1 then items[0]
    else Join(separator, items[..|items| - 1]) + separator + items[|items| - 1]
  }

  /** A join of one or more items starts with the first item and ends with the last. */
  lemma {:induction false} JoinEnds(separator: string, items: seq<string>)
    requires |items| > 0
    ensures items[0] <= Join(separator, items)
    ensures var r, last := Join(separator, items), items[|items| - 1];
            |last| <= |r| && r[|r| - |last|..] == last
  {
    if |items| > 1 {
      var init := items[..|items| - 1];
      JoinEnds(separator, init);
      assert init[0] == items[0];
      var r, last := Join(separator, items), items[|items| - 1];
      assert r == Join(separator, init) + separator + last;
      assert r[|r| - |last|..] == last;
    }
  }

  /** Appending one item appends the separator and that item. */
  lemma JoinSnoc(separator: string, items: seq<string>, item: string)
    requires |items| > 0
    ensures Join(separator, items + [item]) == Join(separator, items) + separator + item
  {
    assert (items + [item])[..|items|] == items;
  }

  /** The quoted parameter names of one group, in call order. */
  function QuotedNames(arguments: seq<BoundArgument>): (r: seq<string>)
    ensures |r| == |arguments|
    ensures forall k :: 0 <= k < |r| ==> r[k] == Quote(arguments[k].parameter.name)
  {
    seq(|arguments|, k requires 0 <= k < |arguments| => Quote(arguments[k].parameter.name))
  }

  /** One group's description: its quoted parameter names joined by ", ". */
  function GroupDescription(g: Group): string
  {
    Join(", ", QuotedNames(g.arguments))
  }

  /** The description of the first `n` groups: their descriptions joined by " and ", in result order. */
  function DescribeFirst(groups: seq<Group>, n: nat): (r: string)
    requires n <= |groups|
    ensures n == 0 ==> r == ""
  {
    if n == 0 then ""
    else if n == 1 then GroupDescription(groups[0])
    else DescribeFirst(groups, n - 1) + " and " + GroupDescription(groups[n - 1])
  }

  /** The whole description. */
  function Describe(groups: seq<Group>): string
  {
    DescribeFirst(groups, |groups|)
  }

  /** What AnalyzeInvocationOrObjectCreationExpressionNode reports for a call, or the exception it throws. */
  function Analysis(invocation: Invocation): Result<Option<Diagnostic>, Error>
  {
    match invocation.symbol
    case Some(MethodSymbol(name, methodKind, _)) =>
      if !In(methodKind, SupportedMethodKinds()) then Success(None)
      else
        (match Classify(invocation)
         case Failure(e) => Failure(e)
         case Success(groups) =>
           if |groups| == 0 then Success(None)
           else Success(Some(Diagnostic(invocation.location, name, Describe(groups)))))
    case _ => Success(None)
  }

  /** One more group appends the separator (none before the first group) and that group's description. */
  lemma DescribeFirstStep(groups: seq<Group>, i: nat, separator: string)
    requires i < |groups|
    requires separator == if i == 0 then "" else " and "
    ensures DescribeFirst(groups, i + 1) == DescribeFirst(groups, i) + separator + Join(", ", QuotedNames(groups[i].arguments))
  {
    if i == 0 {
      assert "" + "" + GroupDescription(groups[0]) == GroupDescription(groups[0]);
    }
  }

  /** The description builder: a StringBuilder and a separator that turns into " and " after the first group. */
  method DescribeGroups(argumentsWhichShouldBeNamed: seq<Group>) returns (description: string)
    ensures description == Describe(argumentsWhichShouldBeNamed)
  {
    var sbArgumentsOfSameTypeDescriptions := "";
    var argumentsOfSameTypeSeparator := "";
    var i := 0;
    while i < |argumentsWhichShouldBeNamed|
      invariant 0 <= i <= |argumentsWhichShouldBeNamed|
      invariant sbArgumentsOfSameTypeDescriptions == DescribeFirst(argumentsWhichShouldBeNamed, i)
      invariant i == 0 ==> argumentsOfSameTypeSeparator == ""
      invariant i > 0 ==> argumentsOfSameTypeSeparator == " and "
    {
      var argumentsOfSameType := argumentsWhichShouldBeNamed[i];
      var argumentsOfSameTypeDescription := Join(", ", QuotedNames(argumentsOfSameType.arguments));
      DescribeFirstStep(argumentsWhichShouldBeNamed, i, argumentsOfSameTypeSeparator);
      sbArgumentsOfSameTypeDescriptions := sbArgumentsOfSameTypeDescriptions + argumentsOfSameTypeSeparator + argumentsOfSameTypeDescription;
      argumentsOfSameTypeSeparator := " and ";
      i := i + 1;
    }
    description := sbArgumentsOfSameTypeDescriptions;
  }

  /** AnalyzeInvocationOrObjectCreationExpressionNode, on an invocation. */
  method AnalyzeInvocationExpressionNode(invocation: Invocation) returns (r: Result<Option<Diagnostic>, Error>)
    ensures r == Analysis(invocation)
  {
    if !(invocation.symbol.Some? && invocation.symbol.value.MethodSymbol?) {
      return Success(None);
    }
    var methodSymbol := invocation.symbol.value;
    if !In(methodSymbol.methodKind, [Ordinary, Constructor, LocalFunction]) {
      return Success(None);
    }
    var invocationExpressionSyntaxInfo := From(invocation);
    if invocationExpressionSyntaxInfo.Failure? {
      return Failure(invocationExpressionSyntaxInfo.error);
    }
    var argumentsWhichShouldBeNamed := invocationExpressionSyntaxInfo.value;
    if |argumentsWhichShouldBeNamed| == 0 {
      return Success(None);
    }
    var description := DescribeGroups(argumentsWhichShouldBeNamed);
    return Success(Some(Diagnostic(invocation.location, methodSymbol.name, description)));
  }

  // ---------------------------------------------------------------------------
  // Properties of the analyser

  /** A call that does not resolve to a method reports nothing. */
  lemma NonMethodReportsNothing(invocation: Invocation)
    requires invocation.symbol.None? || !invocation.symbol.value.MethodSymbol?
    ensures Analysis(invocation) == Success(None)
  {
  }

  /** A method of any kind other than Ordinary, Constructor and LocalFunction reports nothing. */
  lemma UnsupportedKindReportsNothing(invocation: Invocation)
    requires invocation.symbol.Some? && invocation.symbol.value.MethodSymbol?
    requires invocation.symbol.value.methodKind !in {Ordinary, Constructor, LocalFunction}
    ensures Analysis(invocation) == Success(None)
  {
    InSupportedMethodKinds(invocation.symbol.value.methodKind);
  }

  /**
   * For a supported method: the classifier's exception propagates, an empty
   * result reports nothing, and a non-empty one reports exactly one
   * diagnostic at the call, with the method's simple name and the groups'
   * description.
   */
  lemma ReportExactlyWhenGroups(invocation: Invocation)
    requires invocation.symbol.Some? && invocation.symbol.value.MethodSymbol?
    requires invocation.symbol.value.methodKind in {Ordinary, Constructor, LocalFunction}
    ensures Classify(invocation).Failure? <==> Analysis(invocation).Failure?
    ensures Classify(invocation).Failure? ==> Analysis(invocation).error == Classify(invocation).error
    ensures Classify(invocation) == Success([]) <==> Analysis(invocation) == Success(None)
    ensures Classify(invocation).Success? && Classify(invocation).value != [] <==>
            Analysis(invocation).Success? && Analysis(invocation).value.Some?
    ensures Analysis(invocation).Success? && Analysis(invocation).value.Some? ==>
              Analysis(invocation).value.value ==
                Diagnostic(invocation.location, invocation.symbol.value.name, Describe(Classify(invocation).value))
  {
    InSupportedMethodKinds(invocation.symbol.value.methodKind);
  }

  /** A single group's description is that group's quoted names joined by ", ". */
  lemma DescribeOneGroup(g: Group)
    ensures Describe([g]) == Join(", ", QuotedNames(g.arguments))
  {
  }

  /** Groups are joined by " and ": the description of two groups. */
  lemma DescribeTwoGroups(g1: Group, g2: Group)
    ensures Describe([g1, g2]) == GroupDescription(g1) + " and " + GroupDescription(g2)
  {
    assert DescribeFirst([g1, g2], 1) == GroupDescription(g1);
  }

  /** Only the first `n` groups matter to their description. */
  lemma {:induction false} DescribeFirstAgrees(groups: seq<Group>, others: seq<Group>, n: nat)
    requires n <= |groups| && n <= |others|
    requires forall i :: 0 <= i < n ==> groups[i] == others[i]
    ensures DescribeFirst(groups, n) == DescribeFirst(others, n)
  {
    if n > 1 {
      DescribeFirstAgrees(groups, others, n - 1);
    }
  }

  /** Groups are joined by " and " in result order: the last group follows the description of the others. */
  lemma DescribeLastGroup(groups: seq<Group>)
    requires |groups| >= 2
    ensures Describe(groups) == Describe(groups[..|groups| - 1]) + " and " + GroupDescription(groups[|groups| - 1])
  {
    var n := |groups|;
    var init := groups[..n - 1];
    assert forall i :: 0 <= i < n - 1 ==> groups[i] == init[i];
    DescribeFirstAgrees(groups, init, n - 1);
    assert Describe(init) == DescribeFirst(groups, n - 1);
    assert Describe(groups) == DescribeFirst(groups, n - 1) + " and " + GroupDescription(groups[n - 1]);
  }

  /** The description of one or more groups starts with the first group's description. */
  lemma {:induction false} DescribeFirstStartsWith(groups: seq<Group>, n: nat)
    requires 0 < n <= |groups|
    ensures GroupDescription(groups[0]) <= DescribeFirst(groups, n)
  {
    if n > 1 {
      DescribeFirstStartsWith(groups, n - 1);
    }
  }

  /** A description of non-empty groups opens with the first group's first quoted name. */
  lemma DescribeShape(groups: seq<Group>)
    requires groups != [] && groups[0].arguments != []
    ensures Quote(groups[0].arguments[0].parameter.name) <= Describe(groups)
    ensures Describe(groups)[0] == '\''
  {
    var names := QuotedNames(groups[0].arguments);
    var q := Quote(groups[0].arguments[0].parameter.name);
    assert q == names[0];
    JoinEnds(", ", names);
    DescribeFirstStartsWith(groups, |groups|);
  }

  /**
   * A reported description opens with the first reported argument's quoted
   * name, so " and " never leads.
   */
  lemma DescriptionShape(invocation: Invocation)
    requires Analysis(invocation).Success? && Analysis(invocation).value.Some?
    ensures Classify(invocation).Success? && Classify(invocation).value != []
    ensures var groups := Classify(invocation).value;
            var description := Analysis(invocation).value.value.description;
            && groups[0].arguments != []
            && Quote(groups[0].arguments[0].parameter.name) <= description
            && description[0] == '\''
  {
    var groups := Classify(invocation).value;
    ReportedGroups(invocation, groups);
    assert groups[0].arguments != [];
    DescribeShape(groups);
  }
}
