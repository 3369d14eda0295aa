/**
 * The code fix: find the smallest parameter ordinal among the arguments that
 * should be named, then give a `name:` qualifier to every argument bound to
 * that ordinal or a later one. Everything else (the other arguments, the
 * separators, the parentheses, each argument's expression and trivia) is
 * copied through.
 */
module UseNamedArgsCodeFixProvider {
  import opened Wrappers
  import opened Syntax
  import opened ArgumentInfos
  import opened SemanticModelExtensions
  import opened InvocationExpressionSyntaxInfo

  /** SelectMany over the reported groups: all their arguments, group after group. */
  function Flatten(groups: seq<Group>): (r: seq<BoundArgument>)
    ensures forall x :: x in r <==> exists k :: 0 <= k < |groups| && x in groups[k].arguments
  {
    if |groups| == 0 then []
    else
      var init := groups[..|groups| - 1];
      var r := Flatten(init) + groups[|groups| - 1].arguments;
      assert forall k :: 0 <= k < |init| ==> init[k] == groups[k];
      r
  }

  /** Min over the parameter ordinals of a non-empty sequence of bound arguments. */
  function MinOrdinal(bs: seq<BoundArgument>): (m: nat)
    requires |bs| > 0
    ensures exists i :: 0 <= i < |bs| && bs[i].parameter.ordinal == m
    ensures forall i :: 0 <= i < |bs| ==> m <= bs[i].parameter.ordinal
  {
    if |bs| == 1 then bs[0].parameter.ordinal
    else
      var init := bs[..|bs| - 1];
      var m := MinOrdinal(init);
      assert forall i :: 0 <= i < |init| ==> init[i] == bs[i];
      var o := bs[|bs| - 1].parameter.ordinal;
      if o < m then o else m
  }

  /** The ordinal naming starts from, or the exception Min throws on an empty sequence. */
  function OrdinalOfFirstNamedArgument(groups: seq<Group>): Result<nat, Error>
  {
    var arguments := Flatten(groups);
    if |arguments| == 0 then Failure(SequenceContainsNoElements) else Success(MinOrdinal(arguments))
  }

  /** `WithNameColon(NameColon(parameter name)).WithTriviaFrom(original)`. */
  function WithNameColon(b: BoundArgument): Argument
  {
    b.argument.(nameColon := Some(b.parameter.name))
  }

  /** One step of the rebuild loop. */
  function RewriteArgument(b: BoundArgument, ordinalOfFirstNamedArgument: nat): Argument
  {
    if b.parameter.ordinal >= ordinalOfFirstNamedArgument then WithNameColon(b) else b.argument
  }

  function RewriteArguments(bs: seq<BoundArgument>, ordinalOfFirstNamedArgument: nat): seq<Argument>
  {
    seq(|bs|, k requires 0 <= k < |bs| => RewriteArgument(bs[k], ordinalOfFirstNamedArgument))
  }

  /** The new argument list the fix produces for `invocation`, or the exception it throws. */
  function PlanFix(invocation: Invocation): Result<ArgumentList, Error>
  {
    match Classify(invocation)
    case Failure(e) => Failure(e)
    case Success(groups) =>
      match OrdinalOfFirstNamedArgument(groups)
      case Failure(e) => Failure(e)
      case Success(m) =>
        match BindArguments(invocation.symbol, invocation.argumentList.arguments)
        case Failure(e) => Failure(e)
        case Success(bs) => Success(invocation.argumentList.(arguments := RewriteArguments(bs, m)))
  }

  /**
   * The rebuild loop of UseNamedArgumentsAsync: each argument bound at or
   * after the start ordinal gets its parameter's name, the rest are copied.
   * `bs` is the binding of every argument, which the classifier has
   * already established.
   */
  method RewriteArgumentList(symbol: Option<Symbol>, originalArguments: seq<Argument>, ghost bs: seq<BoundArgument>,
                             ordinalOfFirstNamedArgument: nat)
    returns (newArgumentSyntaxes: seq<Argument>)
    requires BindArguments(symbol, originalArguments) == Success(bs)
    ensures newArgumentSyntaxes == RewriteArguments(bs, ordinalOfFirstNamedArgument)
  {
    newArgumentSyntaxes := [];
    var i := 0;
    while i < |originalArguments|
      invariant 0 <= i <= |originalArguments|
      invariant |newArgumentSyntaxes| == i
      invariant forall k :: 0 <= k < i ==> newArgumentSyntaxes[k] == RewriteArgument(bs[k], ordinalOfFirstNamedArgument)
    {
      var originalArgument := originalArguments[i];
      var newArgument := originalArgument;
      var argumentInfo := GetArgumentInfoOrThrow(symbol, originalArguments, i);
      BoundAt(symbol, originalArguments, bs, i);
      var parameter := argumentInfo.value.parameter.value;
      if parameter.ordinal >= ordinalOfFirstNamedArgument {
        newArgument := originalArgument.(nameColon := Some(parameter.name));
      }
      assert newArgument == RewriteArgument(bs[i], ordinalOfFirstNamedArgument);
      newArgumentSyntaxes := newArgumentSyntaxes + [newArgument];
      i := i + 1;
    }
  }

  /**
   * UseNamedArgumentsAsync, from classifying the call to building the new
   * argument list with the original separators.
   */
  method UseNamedArguments(invocation: Invocation) returns (r: Result<ArgumentList, Error>)
    ensures r == PlanFix(invocation)
  {
    var invocationExpressionSyntaxInfo := From(invocation);
    if invocationExpressionSyntaxInfo.Failure? {
      return Failure(invocationExpressionSyntaxInfo.error);
    }
    var groups := invocationExpressionSyntaxInfo.value;
    var selected := Flatten(groups);
    if |selected| == 0 {
      return Failure(SequenceContainsNoElements);
    }
    var ordinalOfFirstNamedArgument := MinOrdinal(selected);
    ReportedImpliesBound(invocation, groups);
    ghost var bs := BindArguments(invocation.symbol, invocation.argumentList.arguments).value;

    var originalArgumentList := invocation.argumentList;
    var newArgumentSyntaxes := RewriteArgumentList(invocation.symbol, originalArgumentList.arguments, bs, ordinalOfFirstNamedArgument);
    return Success(originalArgumentList.(arguments := newArgumentSyntaxes));
  }

  // ---------------------------------------------------------------------------
  // Properties of the fix

  /**
   * The fix fails with the classifier's exception, fails with Min's exception
   * when nothing is reported, and otherwise produces a new argument list.
   */
  lemma PlanFixOutcome(invocation: Invocation)
    ensures Classify(invocation).Failure? ==> PlanFix(invocation) == Failure(Classify(invocation).error)
    ensures Classify(invocation) == Success([]) ==> PlanFix(invocation) == Failure(SequenceContainsNoElements)
    ensures Classify(invocation).Success? && Classify(invocation).value != [] ==> PlanFix(invocation).Success?
  {
    var c := Classify(invocation);
    if c.Success? && c.value != [] {
      ReportedImpliesBound(invocation, c.value);
      var g := c.value[0];
      ReportedGroups(invocation, c.value);
      assert g.arguments[0] in Flatten(c.value);
    }
  }

  /** With the call's groups and bindings known, the fix is the rewrite of the bindings from the smallest reported ordinal. */
  lemma PlanFixWhenBound(invocation: Invocation, groups: seq<Group>, bs: seq<BoundArgument>)
    requires Classify(invocation) == Success(groups) && Flatten(groups) != []
    requires BindArguments(invocation.symbol, invocation.argumentList.arguments) == Success(bs)
    ensures PlanFix(invocation) == Success(invocation.argumentList.(arguments := RewriteArguments(bs, MinOrdinal(Flatten(groups)))))
  {
    assert OrdinalOfFirstNamedArgument(groups) == Success(MinOrdinal(Flatten(groups)));
  }

  /** Naming starts at the smallest ordinal of any argument in any reported group. */
  lemma StartOrdinalIsLeftmost(groups: seq<Group>)
    requires Flatten(groups) != []
    ensures OrdinalOfFirstNamedArgument(groups).Success?
    ensures var m := OrdinalOfFirstNamedArgument(groups).value;
            && (exists k, x :: 0 <= k < |groups| && x in groups[k].arguments && x.parameter.ordinal == m)
            && (forall k, x :: 0 <= k < |groups| && x in groups[k].arguments ==> m <= x.parameter.ordinal)
  {
    var f := Flatten(groups);
    assert forall i :: 0 <= i < |f| ==> f[i] in f;
    forall k, x | 0 <= k < |groups| && x in groups[k].arguments
      ensures MinOrdinal(f) <= x.parameter.ordinal
    {
      assert x in f;
    }
  }

  /**
   * The new argument list keeps the parentheses, the separators, the number
   * of arguments and each argument's expression and trivia. An argument bound
   * to an ordinal below the start is returned unchanged; one bound at or
   * after it carries its parameter's name.
   */
  lemma PlanFixRewritesFromStart(invocation: Invocation, groups: seq<Group>)
    requires Classify(invocation) == Success(groups) && groups != []
    ensures PlanFix(invocation).Success? && OrdinalOfFirstNamedArgument(groups).Success?
    ensures var original := invocation.argumentList;
            var fixed := PlanFix(invocation).value;
            var m := OrdinalOfFirstNamedArgument(groups).value;
            && fixed.openParen == original.openParen
            && fixed.closeParen == original.closeParen
            && fixed.separators == original.separators
            && |fixed.arguments| == |original.arguments|
            && forall k :: 0 <= k < |original.arguments| ==>
                 var p := GetArgumentInfo(invocation.symbol, original.arguments, k).parameter;
                 && p.Some?
                 && fixed.arguments[k].expression == original.arguments[k].expression
                 && fixed.arguments[k].leadingTrivia == original.arguments[k].leadingTrivia
                 && fixed.arguments[k].trailingTrivia == original.arguments[k].trailingTrivia
                 && (p.value.ordinal < m ==> fixed.arguments[k] == original.arguments[k])
                 && (p.value.ordinal >= m ==> fixed.arguments[k].nameColon == Some(p.value.name))
  {
    PlanFixOutcome(invocation);
    ReportedImpliesBound(invocation, groups);
    var arguments := invocation.argumentList.arguments;
    BindPrefixMeaning(invocation.symbol, arguments, |arguments|);
  }

  /** Every argument of every reported group ends up named after its parameter. */
  lemma ReportedArgumentsAreNamed(invocation: Invocation, groups: seq<Group>)
    requires Classify(invocation) == Success(groups) && groups != []
    ensures PlanFix(invocation).Success? && BindArguments(invocation.symbol, invocation.argumentList.arguments).Success?
    ensures var bs := BindArguments(invocation.symbol, invocation.argumentList.arguments).value;
            var fixed := PlanFix(invocation).value;
            forall k :: 0 <= k < |bs| && bs[k] in Flatten(groups) ==>
              fixed.arguments[k].nameColon == Some(bs[k].parameter.name)
  {
    PlanFixOutcome(invocation);
    ReportedImpliesBound(invocation, groups);
    var f := Flatten(groups);
    assert f != [] by {
      ReportedGroups(invocation, groups);
      assert groups[0].arguments[0] in f;
    }
    var bs := BindArguments(invocation.symbol, invocation.argumentList.arguments).value;
    var m := MinOrdinal(f);
    assert PlanFix(invocation).value.arguments == RewriteArguments(bs, m);
    SelectedAreNamed(bs, f);
  }

  /** The rewrite from the smallest ordinal of `f` names every argument of `f`. */
  lemma SelectedAreNamed(bs: seq<BoundArgument>, f: seq<BoundArgument>)
    requires f != []
    ensures var rewritten := RewriteArguments(bs, MinOrdinal(f));
            forall k :: 0 <= k < |bs| && bs[k] in f ==> rewritten[k].nameColon == Some(bs[k].parameter.name)
  {
    forall k | 0 <= k < |bs| && bs[k] in f
      ensures MinOrdinal(f) <= bs[k].parameter.ordinal
    {
      var i :| 0 <= i < |f| && f[i] == bs[k];
    }
  }

  /** An argument that already has a `name:` keeps exactly that name. */
  lemma NamedArgumentsKeepTheirNames(invocation: Invocation, groups: seq<Group>)
    requires Classify(invocation) == Success(groups) && groups != []
    ensures PlanFix(invocation).Success?
    ensures var original := invocation.argumentList.arguments;
            var fixed := PlanFix(invocation).value;
            forall k :: 0 <= k < |original| && original[k].nameColon.Some? ==>
              k < |fixed.arguments| && fixed.arguments[k].nameColon == original[k].nameColon
  {
    PlanFixRewritesFromStart(invocation, groups);
    var original := invocation.argumentList.arguments;
    forall k | 0 <= k < |original| && original[k].nameColon.Some?
      ensures GetArgumentInfo(invocation.symbol, original, k).parameter.value.name == original[k].nameColon.value
    {
      NamedArgumentBinding(invocation.symbol.value, original, k);
    }
  }

  /** Parameters whose ordinals are their positions in the declaration. */
  ghost predicate OrdinalsArePositions(parameters: seq<Parameter>)
  {
    forall i :: 0 <= i < |parameters| ==> parameters[i].ordinal == i
  }

  /**
   * In an all-positional call that supplies no more arguments than the callee
   * declares, the fix names exactly the arguments from the start ordinal on:
   * a positional prefix followed by a named suffix.
   */
  lemma PositionalCallNamedSuffix(invocation: Invocation, groups: seq<Group>, k: nat)
    requires Classify(invocation) == Success(groups) && groups != []
    requires invocation.symbol.Some?
    requires var ps := GetParameters(invocation.symbol.value);
             var args := invocation.argumentList.arguments;
             OrdinalsArePositions(ps) && |args| <= |ps| &&
             forall i :: 0 <= i < |args| ==> args[i].nameColon.None?
    requires k < |invocation.argumentList.arguments|
    ensures PlanFix(invocation).Success? && OrdinalOfFirstNamedArgument(groups).Success?
    ensures var fixed := PlanFix(invocation).value;
            var m := OrdinalOfFirstNamedArgument(groups).value;
            fixed.arguments[k].nameColon.Some? <==> k >= m
  {
    PlanFixRewritesFromStart(invocation, groups);
    PositionalArgumentInRange(invocation.symbol.value, invocation.argumentList.arguments, k);
  }

  // ---------------------------------------------------------------------------
  // Idempotence: the fixed call reports nothing

  /** A bound argument after the rewrite: its new syntax, the same parameter. */
  function Renamed(b: BoundArgument, m: nat): BoundArgument
  {
    BoundArgument(RewriteArgument(b, m), b.parameter)
  }

  function RenamedAll(bs: seq<BoundArgument>, m: nat): seq<BoundArgument>
  {
    seq(|bs|, k requires 0 <= k < |bs| => Renamed(bs[k], m))
  }

  /** With unique parameter names, every argument of the fixed call binds to the same parameter as before. */
  lemma RewrittenBindsAlike(symbol: Option<Symbol>, arguments: seq<Argument>, bs: seq<BoundArgument>, m: nat)
    requires BindArguments(symbol, arguments) == Success(bs)
    requires symbol.Some? && UniqueNames(GetParameters(symbol.value))
    ensures BindArguments(symbol, RewriteArguments(bs, m)) == Success(RenamedAll(bs, m))
  {
    var rewritten := RewriteArguments(bs, m);
    var renamed := RenamedAll(bs, m);
    assert |bs| == |arguments| by {
      BindPrefixMeaning(symbol, arguments, |arguments|);
    }
    forall i | 0 <= i < |bs|
      ensures renamed[i].argument == rewritten[i]
      ensures GetArgumentInfo(symbol, rewritten, i) == ArgumentInfo(symbol, Some(renamed[i].parameter))
    {
      var p := bs[i].parameter;
      BoundAt(symbol, arguments, bs, i);
      if p.ordinal >= m {
        FindOwnName(GetParameters(symbol.value), p);
      } else {
        BindingDependsOnNameColon(symbol, arguments, rewritten, i);
      }
    }
    BindPrefixOf(symbol, rewritten, |bs|, renamed);
  }

  lemma {:induction false} OfTypeRenamed(bs: seq<BoundArgument>, m: nat, t: TypeId)
    ensures OfType(RenamedAll(bs, m), t) == RenamedAll(OfType(bs, t), m)
  {
    if |bs| > 0 {
      var init := bs[..|bs| - 1];
      OfTypeRenamed(init, m, t);
      var rs := RenamedAll(bs, m);
      assert rs[..|rs| - 1] == RenamedAll(init, m);
      var ot := OfType(init, t);
      if TypeOf(bs[|bs| - 1]) == t {
        assert RenamedAll(ot + [bs[|bs| - 1]], m) == RenamedAll(ot, m) + [Renamed(bs[|bs| - 1], m)];
      }
    }
  }

  lemma {:induction false} CountPositionalRenamed(xs: seq<BoundArgument>, m: nat)
    ensures CountPositional(RenamedAll(xs, m)) <= CountPositional(xs)
    ensures (forall x :: x in xs ==> x.parameter.ordinal >= m) ==> CountPositional(RenamedAll(xs, m)) == 0
  {
    if |xs| > 0 {
      var init := xs[..|xs| - 1];
      CountPositionalRenamed(init, m);
      var rs := RenamedAll(xs, m);
      assert rs[..|rs| - 1] == RenamedAll(init, m);
    }
  }

  lemma {:induction false} CountSelfNamedRenamed(xs: seq<BoundArgument>, m: nat)
    ensures CountSelfNamed(RenamedAll(xs, m)) == CountSelfNamed(xs)
  {
    if |xs| > 0 {
      var init := xs[..|xs| - 1];
      CountSelfNamedRenamed(init, m);
      var rs := RenamedAll(xs, m);
      assert rs[..|rs| - 1] == RenamedAll(init, m);
    }
  }

  /** A type group of the fixed call is never reported. */
  lemma RenamedGroupNotReported(bs: seq<BoundArgument>, m: nat, t: TypeId)
    requires FindGroup(Grouped(bs), t).Some?
    requires var g := Grouped(bs)[FindGroup(Grouped(bs), t).value];
             ShouldBeNamed(g) ==> forall x :: x in g.arguments ==> x.parameter.ordinal >= m
    ensures !ShouldBeNamed(Group(t, OfType(RenamedAll(bs, m), t)))
  {
    GroupedIsPartition(bs);
    var xs := OfType(bs, t);
    OfTypeRenamed(bs, m, t);
    CountPositionalRenamed(xs, m);
    CountSelfNamedRenamed(xs, m);
  }

  /** No type group of the renamed arguments is reported when every reported argument was named. */
  lemma RenamedGroupsNotReported(bs: seq<BoundArgument>, m: nat)
    requires forall k, x :: 0 <= k < |Flagged(Grouped(bs))| && x in Flagged(Grouped(bs))[k].arguments ==> m <= x.parameter.ordinal
    ensures Flagged(Grouped(RenamedAll(bs, m))) == []
  {
    var gs := Grouped(RenamedAll(bs, m));
    forall k | 0 <= k < |gs|
      ensures !ShouldBeNamed(gs[k])
    {
      RenamedGroupAt(bs, m, k);
    }
    NothingFlagged(gs);
  }

  /** The k-th type group of the renamed arguments is not reported. */
  lemma RenamedGroupAt(bs: seq<BoundArgument>, m: nat, k: nat)
    requires forall k, x :: 0 <= k < |Flagged(Grouped(bs))| && x in Flagged(Grouped(bs))[k].arguments ==> m <= x.parameter.ordinal
    requires k < |Grouped(RenamedAll(bs, m))|
    ensures !ShouldBeNamed(Grouped(RenamedAll(bs, m))[k])
  {
    var rs := RenamedAll(bs, m);
    var t := Grouped(rs)[k].typeSymbol;
    GroupedIsPartition(rs);
    assert Grouped(rs)[k] == Group(t, OfType(rs, t));
    RenamedTypeHasGroup(bs, m, t);
    RenamedTypeGroupNotReported(bs, m, t);
  }

  /** A type that occurs among the renamed arguments has a group among the original ones. */
  lemma RenamedTypeHasGroup(bs: seq<BoundArgument>, m: nat, t: TypeId)
    requires FirstOf(RenamedAll(bs, m), t) < |bs|
    ensures FindGroup(Grouped(bs), t).Some?
  {
    GroupedIsPartition(bs);
    var first := FirstOf(RenamedAll(bs, m), t);
    assert TypeOf(bs[first]) == t;
  }

  /** The renamed arguments of a type whose group was reported, or was not, are no longer reported. */
  lemma RenamedTypeGroupNotReported(bs: seq<BoundArgument>, m: nat, t: TypeId)
    requires forall k, x :: 0 <= k < |Flagged(Grouped(bs))| && x in Flagged(Grouped(bs))[k].arguments ==> m <= x.parameter.ordinal
    requires FindGroup(Grouped(bs), t).Some?
    ensures !ShouldBeNamed(Group(t, OfType(RenamedAll(bs, m), t)))
  {
    var groups := Flagged(Grouped(bs));
    var g := Grouped(bs)[FindGroup(Grouped(bs), t).value];
    if ShouldBeNamed(g) {
      FlaggedSelects(Grouped(bs));
      assert g in groups;
      var kr :| 0 <= kr < |groups| && groups[kr] == g;
    }
    RenamedGroupNotReported(bs, m, t);
  }

  /**
   * Re-classifying the fixed call reports nothing, provided the callee's
   * parameter names are unique and the fixed call resolves to the same symbol.
   */
  lemma FixIsIdempotent(invocation: Invocation)
    requires PlanFix(invocation).Success?
    requires invocation.symbol.Some? && UniqueNames(GetParameters(invocation.symbol.value))
    ensures Classify(invocation.(argumentList := PlanFix(invocation).value)) == Success([])
  {
    var groups := Classify(invocation).value;
    var m := OrdinalOfFirstNamedArgument(groups).value;
    var arguments := invocation.argumentList.arguments;
    var bs := BindArguments(invocation.symbol, arguments).value;
    assert groups != [];
    ReportedImpliesBound(invocation, groups);
    var fixedInvocation := invocation.(argumentList := PlanFix(invocation).value);
    RewrittenBindsAlike(invocation.symbol, arguments, bs, m);
    var rs := RenamedAll(bs, m);
    ClassifyWhenBound(fixedInvocation, rs);
    StartOrdinalIsLeftmost(groups);
    RenamedGroupsNotReported(bs, m);
  }
}
