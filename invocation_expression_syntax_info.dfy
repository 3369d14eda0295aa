/**
 * Deciding which arguments of a call should be named: bind every argument,
 * group the bound arguments by their parameter's type (groups in order of the
 * type's first occurrence, arguments in call order inside a group), and keep
 * the groups with at least two positional arguments that are not all bare
 * identifiers spelled like their parameters.
 */
module InvocationExpressionSyntaxInfo {
  import opened Wrappers
  import opened Syntax
  import opened ArgumentInfos
  import opened SemanticModelExtensions

  /** An argument together with the parameter it binds to (ArgumentSyntaxAndParameterSymbol). */
  datatype BoundArgument = BoundArgument(argument: Argument, parameter: Parameter)

  /** The bound arguments whose parameters have the type `typeSymbol`. */
  datatype Group = Group(typeSymbol: TypeId, arguments: seq<BoundArgument>)

  function TypeOf(b: BoundArgument): TypeId
  {
    b.parameter.paramType
  }

  // ---------------------------------------------------------------------------
  // Binding every argument of the call, first to last

  /** Binding the first `n` arguments; the first one that binds to nothing is an exception. */
  function BindPrefix(symbol: Option<Symbol>, arguments: seq<Argument>, n: nat): (r: Result<seq<BoundArgument>, Error>)
    requires n <= |arguments|
    ensures r.Success? ==> |r.value| == n
  {
    if n == 0 then Success([])
    else match BindPrefix(symbol, arguments, n - 1)
      case Failure(e) => Failure(e)
      case Success(bs) =>
        match GetArgumentInfoOrThrow(symbol, arguments, n - 1)
        case Failure(e) => Failure(e)
        case Success(info) => Success(bs + [BoundArgument(arguments[n - 1], info.parameter.value)])
  }

  function BindArguments(symbol: Option<Symbol>, arguments: seq<Argument>): Result<seq<BoundArgument>, Error>
  {
    BindPrefix(symbol, arguments, |arguments|)
  }

  /**
   * Binding the first `n` arguments succeeds exactly when none of them binds
   * to nothing; it then pairs each argument with the parameter it binds to,
   * and otherwise fails with the error of the first argument that binds to
   * nothing.
   */
  lemma {:induction false} BindPrefixMeaning(symbol: Option<Symbol>, arguments: seq<Argument>, n: nat)
    requires n <= |arguments|
    ensures var r := BindPrefix(symbol, arguments, n);
            && (r.Success? <==> forall i :: 0 <= i < n ==> !GetArgumentInfo(symbol, arguments, i).IsEmpty())
            && (r.Success? ==> forall i :: 0 <= i < n ==>
                  (r.value[i].argument == arguments[i] &&
                   GetArgumentInfo(symbol, arguments, i) == ArgumentInfo(symbol, Some(r.value[i].parameter))))
            && (r.Failure? ==> exists i :: (0 <= i < n && r.error == ParameterNotFound(i) &&
                  GetArgumentInfo(symbol, arguments, i).IsEmpty() &&
                  forall j :: 0 <= j < i ==> !GetArgumentInfo(symbol, arguments, j).IsEmpty()))
  {
    if n > 0 {
      BindPrefixMeaning(symbol, arguments, n - 1);
    }
  }

  /** In a call whose arguments all bind, argument `i` binds to the parameter recorded for it. */
  lemma BoundAt(symbol: Option<Symbol>, arguments: seq<Argument>, bs: seq<BoundArgument>, i: nat)
    requires BindArguments(symbol, arguments) == Success(bs)
    requires i < |arguments|
    ensures |bs| == |arguments| && bs[i].argument == arguments[i]
    ensures GetArgumentInfo(symbol, arguments, i) == ArgumentInfo(symbol, Some(bs[i].parameter))
    ensures GetArgumentInfoOrThrow(symbol, arguments, i) == Success(ArgumentInfo(symbol, Some(bs[i].parameter)))
  {
    BindPrefixMeaning(symbol, arguments, |arguments|);
  }

  /** Binding one more argument extends the bound prefix, or fails with that argument's exception. */
  lemma BindPrefixStep(symbol: Option<Symbol>, arguments: seq<Argument>, n: nat, bs: seq<BoundArgument>)
    requires n < |arguments| && BindPrefix(symbol, arguments, n) == Success(bs)
    ensures var info := GetArgumentInfoOrThrow(symbol, arguments, n);
            BindPrefix(symbol, arguments, n + 1) ==
              if info.Failure? then Failure(info.error)
              else Success(bs + [BoundArgument(arguments[n], info.value.parameter.value)])
  {
  }

  /** Once an argument fails to bind, binding any longer prefix fails with the same exception. */
  lemma {:induction false} BindFailurePersists(symbol: Option<Symbol>, arguments: seq<Argument>, n: nat, m: nat)
    requires n <= m <= |arguments|
    requires BindPrefix(symbol, arguments, n).Failure?
    ensures BindPrefix(symbol, arguments, m) == BindPrefix(symbol, arguments, n)
    decreases m - n
  {
    if n < m {
      BindFailurePersists(symbol, arguments, n, m - 1);
    }
  }

  /** Binding succeeds with `bs` when every argument binds to the parameter `bs` records for it. */
  lemma {:induction false} BindPrefixOf(symbol: Option<Symbol>, arguments: seq<Argument>, n: nat, bs: seq<BoundArgument>)
    requires n <= |arguments| && |bs| == n
    requires forall i :: 0 <= i < n ==> (bs[i].argument == arguments[i] &&
               GetArgumentInfo(symbol, arguments, i) == ArgumentInfo(symbol, Some(bs[i].parameter)))
    ensures BindPrefix(symbol, arguments, n) == Success(bs)
  {
    if n > 0 {
      var init := bs[..n - 1];
      assert forall i :: 0 <= i < n - 1 ==> init[i] == bs[i];
      BindPrefixOf(symbol, arguments, n - 1, init);
      var info := GetArgumentInfoOrThrow(symbol, arguments, n - 1);
      assert info == Success(ArgumentInfo(symbol, Some(bs[n - 1].parameter)));
      var b := BoundArgument(arguments[n - 1], info.value.parameter.value);
      assert b == bs[n - 1];
      assert BindPrefix(symbol, arguments, n) == Success(init + [b]);
      assert init + [b] == bs;
    }
  }

  // ---------------------------------------------------------------------------
  // Grouping by parameter type (GetArgumentsGroupedByType)

  /** The group keyed by `t` (Dictionary.TryGetValue), if there is one. */
  function FindGroup(groups: seq<Group>, t: TypeId): (r: Option<nat>)
    ensures r.Some? ==> r.value < |groups| && groups[r.value].typeSymbol == t
    ensures r.None? <==> forall k :: 0 <= k < |groups| ==> groups[k].typeSymbol != t
  {
    if |groups| == 0 then None
    else if groups[|groups| - 1].typeSymbol == t then Some(|groups| - 1)
    else FindGroup(groups[..|groups| - 1], t)
  }

  /** One step of the grouping loop: append `b` to its type's group, creating the group at the end when new. */
  function AddToGroup(groups: seq<Group>, b: BoundArgument): seq<Group>
  {
    match FindGroup(groups, TypeOf(b))
    case Some(k) => groups[k := Group(groups[k].typeSymbol, groups[k].arguments + [b])]
    case None => groups + [Group(TypeOf(b), [b])]
  }

  /** The grouping of `bs`, as an association list in insertion order. */
  function Grouped(bs: seq<BoundArgument>): seq<Group>
  {
    if |bs| == 0 then [] else AddToGroup(Grouped(bs[..|bs| - 1]), bs[|bs| - 1])
  }

  /** The arguments of `bs` whose parameter has type `t`, in call order. */
  function OfType(bs: seq<BoundArgument>, t: TypeId): seq<BoundArgument>
  {
    if |bs| == 0 then []
    else OfType(bs[..|bs| - 1], t) + (if TypeOf(bs[|bs| - 1]) == t then [bs[|bs| - 1]] else [])
  }

  /** The position of the first argument of type `t`, or |bs| when there is none. */
  function FirstOf(bs: seq<BoundArgument>, t: TypeId): (r: nat)
    ensures r <= |bs|
    ensures r < |bs| ==> TypeOf(bs[r]) == t
    ensures forall i :: 0 <= i < r ==> TypeOf(bs[i]) != t
  {
    if |bs| == 0 then 0
    else
      var p := FirstOf(bs[..|bs| - 1], t);
      if p < |bs| - 1 then p
      else if TypeOf(bs[|bs| - 1]) == t then |bs| - 1
      else |bs|
  }

  ghost predicate DistinctKeys(groups: seq<Group>)
  {
    forall k1, k2 :: 0 <= k1 < k2 < |groups| ==> groups[k1].typeSymbol != groups[k2].typeSymbol
  }

  lemma {:induction false} OfTypeAbsent(bs: seq<BoundArgument>, t: TypeId)
    requires forall i :: 0 <= i < |bs| ==> TypeOf(bs[i]) != t
    ensures OfType(bs, t) == []
  {
    if |bs| > 0 {
      OfTypeAbsent(bs[..|bs| - 1], t);
    }
  }

  /** Every element of OfType(bs, t) is an argument of `bs` of type `t`. */
  lemma {:induction false} OfTypeMembers(bs: seq<BoundArgument>, t: TypeId)
    ensures forall x :: x in OfType(bs, t) ==> x in bs && TypeOf(x) == t
  {
    if |bs| > 0 {
      OfTypeMembers(bs[..|bs| - 1], t);
    }
  }

  /**
   * `groups` partitions `bs` by parameter type: keys are distinct, each group
   * holds exactly the arguments of its type in call order, every argument has
   * a group, and groups appear in the order in which their type first occurs.
   */
  ghost predicate PartitionOf(groups: seq<Group>, bs: seq<BoundArgument>)
  {
    && DistinctKeys(groups)
    && (forall k :: 0 <= k < |groups| ==> groups[k].arguments == OfType(bs, groups[k].typeSymbol))
    && (forall k :: 0 <= k < |groups| ==> FirstOf(bs, groups[k].typeSymbol) < |bs|)
    && (forall i :: 0 <= i < |bs| ==> FindGroup(groups, TypeOf(bs[i])).Some?)
    && (forall k1, k2 :: 0 <= k1 < k2 < |groups| ==> FirstOf(bs, groups[k1].typeSymbol) < FirstOf(bs, groups[k2].typeSymbol))
  }

  lemma OfTypeSnoc(bs: seq<BoundArgument>, b: BoundArgument, t: TypeId)
    ensures OfType(bs + [b], t) == OfType(bs, t) + (if TypeOf(b) == t then [b] else [])
  {
    assert (bs + [b])[..|bs|] == bs;
  }

  lemma FirstOfSnoc(bs: seq<BoundArgument>, b: BoundArgument, t: TypeId)
    ensures FirstOf(bs, t) < |bs| ==> FirstOf(bs + [b], t) == FirstOf(bs, t)
    ensures FirstOf(bs, t) == |bs| && TypeOf(b) == t ==> FirstOf(bs + [b], t) == |bs|
  {
    assert (bs + [b])[..|bs|] == bs;
  }

  lemma GroupedSnoc(bs: seq<BoundArgument>, b: BoundArgument)
    ensures Grouped(bs + [b]) == AddToGroup(Grouped(bs), b)
  {
    assert (bs + [b])[..|bs|] == bs;
  }

  /** Adding an argument whose type already has a group keeps the partition. */
  lemma AddToExistingGroup(groups: seq<Group>, bs: seq<BoundArgument>, b: BoundArgument, k0: nat)
    requires PartitionOf(groups, bs)
    requires FindGroup(groups, TypeOf(b)) == Some(k0)
    ensures PartitionOf(AddToGroup(groups, b), bs + [b])
  {
    var gs := groups[k0 := Group(groups[k0].typeSymbol, groups[k0].arguments + [b])];
    assert AddToGroup(groups, b) == gs;
    SameKeysSameFirst(groups, gs, bs, b);
    ExistingGroupContents(groups, gs, bs, b, k0);
    ExistingGroupCovers(groups, gs, bs, b, k0);
    PartitionIntro(gs, bs + [b]);
  }

  /** The five conjuncts of PartitionOf, as separate facts. */
  lemma PartitionIntro(groups: seq<Group>, bs: seq<BoundArgument>)
    requires DistinctKeys(groups)
    requires forall k :: 0 <= k < |groups| ==> groups[k].arguments == OfType(bs, groups[k].typeSymbol)
    requires forall k :: 0 <= k < |groups| ==> FirstOf(bs, groups[k].typeSymbol) < |bs|
    requires forall i :: 0 <= i < |bs| ==> FindGroup(groups, TypeOf(bs[i])).Some?
    requires forall k1, k2 :: 0 <= k1 < k2 < |groups| ==> FirstOf(bs, groups[k1].typeSymbol) < FirstOf(bs, groups[k2].typeSymbol)
    ensures PartitionOf(groups, bs)
  {
  }

  lemma SameKeysSameFirst(groups: seq<Group>, gs: seq<Group>, bs: seq<BoundArgument>, b: BoundArgument)
    requires PartitionOf(groups, bs)
    requires |gs| == |groups| && forall k :: 0 <= k < |gs| ==> gs[k].typeSymbol == groups[k].typeSymbol
    ensures DistinctKeys(gs)
    ensures forall k :: 0 <= k < |gs| ==> FirstOf(bs + [b], gs[k].typeSymbol) < |bs + [b]|
    ensures forall k1, k2 :: 0 <= k1 < k2 < |gs| ==> FirstOf(bs + [b], gs[k1].typeSymbol) < FirstOf(bs + [b], gs[k2].typeSymbol)
  {
    forall k | 0 <= k < |gs|
      ensures FirstOf(bs + [b], gs[k].typeSymbol) == FirstOf(bs, groups[k].typeSymbol) < |bs|
    {
      FirstOfSnoc(bs, b, gs[k].typeSymbol);
    }
  }

  lemma ExistingGroupContents(groups: seq<Group>, gs: seq<Group>, bs: seq<BoundArgument>, b: BoundArgument, k0: nat)
    requires PartitionOf(groups, bs)
    requires FindGroup(groups, TypeOf(b)) == Some(k0)
    requires gs == groups[k0 := Group(groups[k0].typeSymbol, groups[k0].arguments + [b])]
    ensures forall k :: 0 <= k < |gs| ==> gs[k].arguments == OfType(bs + [b], gs[k].typeSymbol)
  {
    forall k | 0 <= k < |gs|
      ensures gs[k].arguments == OfType(bs + [b], gs[k].typeSymbol)
    {
      OfTypeSnoc(bs, b, gs[k].typeSymbol);
    }
  }

  lemma ExistingGroupCovers(groups: seq<Group>, gs: seq<Group>, bs: seq<BoundArgument>, b: BoundArgument, k0: nat)
    requires PartitionOf(groups, bs)
    requires FindGroup(groups, TypeOf(b)) == Some(k0)
    requires gs == groups[k0 := Group(groups[k0].typeSymbol, groups[k0].arguments + [b])]
    ensures forall i :: 0 <= i < |bs + [b]| ==> FindGroup(gs, TypeOf((bs + [b])[i])).Some?
  {
    var bs' := bs + [b];
    forall i | 0 <= i < |bs'|
      ensures FindGroup(gs, TypeOf(bs'[i])).Some?
    {
      if i < |bs| {
        assert bs'[i] == bs[i];
        var k := FindGroup(groups, TypeOf(bs[i])).value;
        assert gs[k].typeSymbol == TypeOf(bs'[i]);
      } else {
        assert gs[k0].typeSymbol == TypeOf(bs'[i]);
      }
    }
  }

  /** Adding an argument of a new type appends its group at the end and keeps the partition. */
  lemma AddToNewGroup(groups: seq<Group>, bs: seq<BoundArgument>, b: BoundArgument)
    requires PartitionOf(groups, bs)
    requires FindGroup(groups, TypeOf(b)).None?
    ensures PartitionOf(AddToGroup(groups, b), bs + [b])
  {
    var gs := AddToGroup(groups, b);
    assert gs == groups + [Group(TypeOf(b), [b])];
    NewTypeAbsent(groups, bs, b);
    NewGroupContents(groups, gs, bs, b);
    NewGroupCovers(groups, gs, bs, b);
    NewGroupOrder(groups, gs, bs, b);
    PartitionIntro(gs, bs + [b]);
  }

  lemma NewGroupOrder(groups: seq<Group>, gs: seq<Group>, bs: seq<BoundArgument>, b: BoundArgument)
    requires PartitionOf(groups, bs)
    requires FindGroup(groups, TypeOf(b)).None?
    requires gs == groups + [Group(TypeOf(b), [b])]
    requires forall k :: 0 <= k < |groups| ==> FirstOf(bs + [b], gs[k].typeSymbol) == FirstOf(bs, gs[k].typeSymbol) < |bs|
    requires FirstOf(bs + [b], gs[|groups|].typeSymbol) == |bs|
    ensures DistinctKeys(gs)
    ensures forall k :: 0 <= k < |gs| ==> FirstOf(bs + [b], gs[k].typeSymbol) < |bs + [b]|
    ensures forall k1, k2 :: 0 <= k1 < k2 < |gs| ==> FirstOf(bs + [b], gs[k1].typeSymbol) < FirstOf(bs + [b], gs[k2].typeSymbol)
  {
    var n := |groups|;
    forall k1, k2 | 0 <= k1 < k2 < n
      ensures gs[k1].typeSymbol != gs[k2].typeSymbol
      ensures FirstOf(bs + [b], gs[k1].typeSymbol) < FirstOf(bs + [b], gs[k2].typeSymbol)
    {
      assert gs[k1] == groups[k1] && gs[k2] == groups[k2];
    }
    forall k1 | 0 <= k1 < n
      ensures gs[k1].typeSymbol != gs[n].typeSymbol
      ensures FirstOf(bs + [b], gs[k1].typeSymbol) < FirstOf(bs + [b], gs[n].typeSymbol)
    {
      assert gs[k1] == groups[k1];
    }
  }

  /** A type without a group occurs nowhere among the partitioned arguments. */
  lemma NewTypeAbsent(groups: seq<Group>, bs: seq<BoundArgument>, b: BoundArgument)
    requires PartitionOf(groups, bs)
    requires FindGroup(groups, TypeOf(b)).None?
    ensures OfType(bs, TypeOf(b)) == [] && FirstOf(bs, TypeOf(b)) == |bs|
  {
    forall i | 0 <= i < |bs|
      ensures TypeOf(bs[i]) != TypeOf(b)
    {
      var k := FindGroup(groups, TypeOf(bs[i])).value;
      assert groups[k].typeSymbol == TypeOf(bs[i]);
    }
    OfTypeAbsent(bs, TypeOf(b));
  }

  lemma NewGroupContents(groups: seq<Group>, gs: seq<Group>, bs: seq<BoundArgument>, b: BoundArgument)
    requires PartitionOf(groups, bs)
    requires FindGroup(groups, TypeOf(b)).None?
    requires OfType(bs, TypeOf(b)) == [] && FirstOf(bs, TypeOf(b)) == |bs|
    requires gs == groups + [Group(TypeOf(b), [b])]
    ensures forall k :: 0 <= k < |gs| ==> gs[k].arguments == OfType(bs + [b], gs[k].typeSymbol)
    ensures forall k :: 0 <= k < |groups| ==> FirstOf(bs + [b], gs[k].typeSymbol) == FirstOf(bs, gs[k].typeSymbol) < |bs|
    ensures FirstOf(bs + [b], gs[|groups|].typeSymbol) == |bs|
  {
    forall k | 0 <= k < |gs|
      ensures gs[k].arguments == OfType(bs + [b], gs[k].typeSymbol)
      ensures k < |groups| ==> FirstOf(bs + [b], gs[k].typeSymbol) == FirstOf(bs, gs[k].typeSymbol) < |bs|
      ensures k == |groups| ==> FirstOf(bs + [b], gs[k].typeSymbol) == |bs|
    {
      OfTypeSnoc(bs, b, gs[k].typeSymbol);
      FirstOfSnoc(bs, b, gs[k].typeSymbol);
    }
  }

  lemma NewGroupCovers(groups: seq<Group>, gs: seq<Group>, bs: seq<BoundArgument>, b: BoundArgument)
    requires PartitionOf(groups, bs)
    requires gs == groups + [Group(TypeOf(b), [b])]
    ensures forall i :: 0 <= i < |bs + [b]| ==> FindGroup(gs, TypeOf((bs + [b])[i])).Some?
  {
    var bs' := bs + [b];
    forall i | 0 <= i < |bs'|
      ensures FindGroup(gs, TypeOf(bs'[i])).Some?
    {
      if i < |bs| {
        assert bs'[i] == bs[i];
        var k := FindGroup(groups, TypeOf(bs[i])).value;
        assert gs[k].typeSymbol == TypeOf(bs'[i]);
      } else {
        assert gs[|groups|].typeSymbol == TypeOf(bs'[i]);
      }
    }
  }

  /** The grouping loop keeps the partition invariant, so its result partitions the call's arguments. */
  lemma {:induction false} GroupedIsPartition(bs: seq<BoundArgument>)
    ensures PartitionOf(Grouped(bs), bs)
  {
    if |bs| > 0 {
      var init, b := bs[..|bs| - 1], bs[|bs| - 1];
      GroupedIsPartition(init);
      assert bs == init + [b];
      GroupedSnoc(init, b);
      match FindGroup(Grouped(init), TypeOf(b))
      case Some(k0) => AddToExistingGroup(Grouped(init), init, b, k0);
      case None => AddToNewGroup(Grouped(init), init, b);
    }
  }

  /** The insertion loop of GetArgumentsGroupedByType, with the binding that precedes each insertion. */
  function GroupedByType(symbol: Option<Symbol>, arguments: seq<Argument>): Result<seq<Group>, Error>
  {
    match BindArguments(symbol, arguments)
    case Failure(e) => Failure(e)
    case Success(bs) => Success(Grouped(bs))
  }

  /**
   * The body of the grouping loop: TryGetValue on the argument's parameter
   * type, a new empty list added under that type when there is none, then the
   * argument appended to the list.
   */
  method AddToDictionary(argumentsByTypes: seq<Group>, b: BoundArgument) returns (r: seq<Group>)
    ensures r == AddToGroup(argumentsByTypes, b)
  {
    var found := FindGroup(argumentsByTypes, b.parameter.paramType);
    var k: nat;
    r := argumentsByTypes;
    if found.None? {
      r := r + [Group(b.parameter.paramType, [])];
      k := |r| - 1;
    } else {
      k := found.value;
    }
    ghost var withList := r;
    r := r[k := Group(r[k].typeSymbol, r[k].arguments + [b])];
    if found.None? {
      assert withList[k].arguments + [b] == [b];
      assert |r| == |argumentsByTypes| + 1;
      assert forall j :: 0 <= j < |argumentsByTypes| ==> r[j] == argumentsByTypes[j];
      assert r[|argumentsByTypes|] == Group(TypeOf(b), [b]);
      assert r == argumentsByTypes + [Group(TypeOf(b), [b])];
    }
  }

  /** An argument that binds to nothing makes the whole grouping throw its exception. */
  lemma GroupingFails(symbol: Option<Symbol>, arguments: seq<Argument>, i: nat, bound: seq<BoundArgument>)
    requires i < |arguments| && BindPrefix(symbol, arguments, i) == Success(bound)
    requires GetArgumentInfoOrThrow(symbol, arguments, i).Failure?
    ensures GroupedByType(symbol, arguments) == Failure(GetArgumentInfoOrThrow(symbol, arguments, i).error)
  {
    BindPrefixStep(symbol, arguments, i, bound);
    BindFailurePersists(symbol, arguments, i + 1, |arguments|);
  }

  /** Binding the next argument extends the bound prefix and adds that argument to the grouping. */
  lemma GroupingStep(symbol: Option<Symbol>, arguments: seq<Argument>, i: nat, bound: seq<BoundArgument>, b: BoundArgument)
    requires i < |arguments| && BindPrefix(symbol, arguments, i) == Success(bound)
    requires GetArgumentInfoOrThrow(symbol, arguments, i).Success?
    requires b == BoundArgument(arguments[i], GetArgumentInfoOrThrow(symbol, arguments, i).value.parameter.value)
    ensures BindPrefix(symbol, arguments, i + 1) == Success(bound + [b])
    ensures Grouped(bound + [b]) == AddToGroup(Grouped(bound), b)
  {
    BindPrefixStep(symbol, arguments, i, bound);
    GroupedSnoc(bound, b);
  }

  /**
   * GetArgumentsGroupedByType: binds each argument in turn (throwing on the
   * first that binds to nothing) and adds it to its type's group, creating the
   * group when the type is new.
   */
  method GetArgumentsGroupedByType(symbol: Option<Symbol>, arguments: seq<Argument>) returns (r: Result<seq<Group>, Error>)
    ensures r == GroupedByType(symbol, arguments)
  {
    var argumentsByTypes: seq<Group> := [];
    ghost var bound: seq<BoundArgument> := [];
    var i := 0;
    while i < |arguments|
      invariant 0 <= i <= |arguments|
      invariant BindPrefix(symbol, arguments, i) == Success(bound)
      invariant argumentsByTypes == Grouped(bound)
    {
      var argumentInfo := GetArgumentInfoOrThrow(symbol, arguments, i);
      if argumentInfo.Failure? {
        GroupingFails(symbol, arguments, i, bound);
        return Failure(argumentInfo.error);
      }
      var parameter := argumentInfo.value.parameter.value;
      var b := BoundArgument(arguments[i], parameter);
      argumentsByTypes := AddToDictionary(argumentsByTypes, b);
      GroupingStep(symbol, arguments, i, bound, b);
      bound := bound + [b];
      i := i + 1;
    }
    assert i == |arguments|;
    return Success(argumentsByTypes);
  }

  // ---------------------------------------------------------------------------
  // Choosing the groups to report (GetArgumentsWhichShouldBeNamed)

  predicate IsPositional(b: BoundArgument)
  {
    b.argument.nameColon.None?
  }

  /** A bare identifier spelled exactly like the parameter it is passed to. */
  predicate IsSelfNamed(b: BoundArgument)
  {
    b.argument.expression.IdentifierName? && b.parameter.name == b.argument.expression.valueText
  }

  /** The number of arguments without a `name:` qualifier. */
  function CountPositional(args: seq<BoundArgument>): (r: nat)
    ensures r <= |args|
  {
    if |args| == 0 then 0
    else CountPositional(args[..|args| - 1]) + (if IsPositional(args[|args| - 1]) then 1 else 0)
  }

  /** The number of self-named arguments. */
  function CountSelfNamed(args: seq<BoundArgument>): (r: nat)
    ensures r <= |args|
  {
    if |args| == 0 then 0
    else CountSelfNamed(args[..|args| - 1]) + (if IsSelfNamed(args[|args| - 1]) then 1 else 0)
  }

  /** A group is reported unless it has at most one positional argument or all its arguments are self-named. */
  predicate ShouldBeNamed(g: Group)
  {
    !(CountPositional(g.arguments) <= 1) && CountSelfNamed(g.arguments) != |g.arguments|
  }

  /** The groups that should be named, in the order of `groups`. */
  function Flagged(groups: seq<Group>): seq<Group>
  {
    if |groups| == 0 then []
    else Flagged(groups[..|groups| - 1]) + (if ShouldBeNamed(groups[|groups| - 1]) then [groups[|groups| - 1]] else [])
  }

  /** At least two positional arguments exactly when two distinct positions hold positional arguments. */
  lemma {:induction false} TwoPositional(args: seq<BoundArgument>)
    ensures CountPositional(args) >= 2 <==>
            exists i, j :: 0 <= i < j < |args| && IsPositional(args[i]) && IsPositional(args[j])
  {
    if |args| > 0 {
      var init := args[..|args| - 1];
      TwoPositional(init);
      OnePositional(init);
      if CountPositional(args) >= 2 {
        if CountPositional(init) >= 2 {
          var i, j :| 0 <= i < j < |init| && IsPositional(init[i]) && IsPositional(init[j]);
          assert args[i] == init[i] && args[j] == init[j];
        } else {
          var i :| 0 <= i < |init| && IsPositional(init[i]);
          assert args[i] == init[i];
          assert IsPositional(args[|args| - 1]);
        }
      }
      if exists i, j :: 0 <= i < j < |args| && IsPositional(args[i]) && IsPositional(args[j]) {
        var i, j :| 0 <= i < j < |args| && IsPositional(args[i]) && IsPositional(args[j]);
        assert args[i] == init[i];
        if j < |args| - 1 {
          assert args[j] == init[j];
        }
      }
    }
  }

  /** At least one positional argument exactly when some position holds one. */
  lemma {:induction false} OnePositional(args: seq<BoundArgument>)
    ensures CountPositional(args) >= 1 <==> exists i :: 0 <= i < |args| && IsPositional(args[i])
  {
    if |args| > 0 {
      var init := args[..|args| - 1];
      OnePositional(init);
      if CountPositional(init) >= 1 {
        var i :| 0 <= i < |init| && IsPositional(init[i]);
        assert args[i] == init[i];
      }
      if exists i :: 0 <= i < |args| && IsPositional(args[i]) {
        var i :| 0 <= i < |args| && IsPositional(args[i]);
        if i < |init| {
          assert args[i] == init[i];
        }
      }
    }
  }

  /** The self-named count equals the group's size exactly when every argument is self-named. */
  lemma {:induction false} AllSelfNamed(args: seq<BoundArgument>)
    ensures CountSelfNamed(args) == |args| <==> forall i :: 0 <= i < |args| ==> IsSelfNamed(args[i])
  {
    if |args| > 0 {
      var init := args[..|args| - 1];
      AllSelfNamed(init);
      if CountSelfNamed(args) == |args| {
        forall i | 0 <= i < |args| ensures IsSelfNamed(args[i]) {
          if i < |init| {
            assert args[i] == init[i];
          }
        }
      }
      if forall i :: 0 <= i < |args| ==> IsSelfNamed(args[i]) {
        forall i | 0 <= i < |init| ensures IsSelfNamed(init[i]) {
          assert args[i] == init[i];
        }
      }
    }
  }

  /** A group is reported exactly when two of its positions are positional and one is not self-named. */
  lemma ShouldBeNamedMeaning(g: Group)
    ensures ShouldBeNamed(g) <==>
      && (exists i, j :: 0 <= i < j < |g.arguments| && IsPositional(g.arguments[i]) && IsPositional(g.arguments[j]))
      && (exists i :: 0 <= i < |g.arguments| && !IsSelfNamed(g.arguments[i]))
  {
    TwoPositional(g.arguments);
    AllSelfNamed(g.arguments);
  }

  /** `xs` is `ys` with some elements left out, the rest in their original order. */
  ghost predicate IsSubsequence(xs: seq<Group>, ys: seq<Group>)
    decreases |ys|
  {
    if |xs| == 0 then true
    else if |ys| == 0 then false
    else if xs[|xs| - 1] == ys[|ys| - 1] then IsSubsequence(xs[..|xs| - 1], ys[..|ys| - 1])
    else IsSubsequence(xs, ys[..|ys| - 1])
  }

  lemma {:induction false} SubsequenceOfSnoc(xs: seq<Group>, ys: seq<Group>, y: Group)
    requires IsSubsequence(xs, ys)
    ensures IsSubsequence(xs, ys + [y])
    decreases |ys|, 1
  {
    var zs := ys + [y];
    assert zs[..|zs| - 1] == ys;
    if |xs| > 0 && xs[|xs| - 1] == y {
      SubsequenceShrink(xs, ys);
    }
  }

  lemma {:induction false} SubsequenceShrink(xs: seq<Group>, ys: seq<Group>)
    requires |xs| > 0 && IsSubsequence(xs, ys)
    ensures IsSubsequence(xs[..|xs| - 1], ys)
    decreases |ys|, 0
  {
    var ys', y := ys[..|ys| - 1], ys[|ys| - 1];
    assert ys' + [y] == ys;
    if xs[|xs| - 1] != y {
      SubsequenceShrink(xs, ys');
    }
    SubsequenceOfSnoc(xs[..|xs| - 1], ys', y);
  }

  /** The reported groups are exactly the groups that should be named, as a subsequence in their original order. */
  lemma {:induction false} FlaggedSelects(groups: seq<Group>)
    ensures IsSubsequence(Flagged(groups), groups)
    ensures forall g :: g in Flagged(groups) <==> g in groups && ShouldBeNamed(g)
  {
    if |groups| > 0 {
      var init, last := groups[..|groups| - 1], groups[|groups| - 1];
      FlaggedSelects(init);
      assert groups == init + [last];
      if ShouldBeNamed(last) {
        var f := Flagged(init) + [last];
        assert Flagged(groups) == f;
        assert f[..|f| - 1] == Flagged(init);
      } else {
        assert Flagged(groups) == Flagged(init);
        SubsequenceOfSnoc(Flagged(init), init, last);
      }
    }
  }

  /**
   * GetArgumentsWhichShouldBeNamed: skips a group with at most one positional
   * argument, counts its self-named arguments, skips it when all are, and
   * otherwise appends it to the result.
   */
  method GetArgumentsWhichShouldBeNamed(argumentsByTypes: seq<Group>) returns (r: seq<Group>)
    ensures r == Flagged(argumentsByTypes)
  {
    r := [];
    var i := 0;
    while i < |argumentsByTypes|
      invariant 0 <= i <= |argumentsByTypes|
      invariant r == Flagged(argumentsByTypes[..i])
    {
      var argumentsOfSameType := argumentsByTypes[i];
      assert argumentsByTypes[..i + 1][..i] == argumentsByTypes[..i];
      if CountPositional(argumentsOfSameType.arguments) <= 1 {
        i := i + 1;
        continue;
      }
      var argumentNamesSameAsParameterNamesCount := 0;
      var j := 0;
      while j < |argumentsOfSameType.arguments|
        invariant 0 <= j <= |argumentsOfSameType.arguments|
        invariant argumentNamesSameAsParameterNamesCount == CountSelfNamed(argumentsOfSameType.arguments[..j])
      {
        var argument := argumentsOfSameType.arguments[j];
        assert argumentsOfSameType.arguments[..j + 1][..j] == argumentsOfSameType.arguments[..j];
        if argument.argument.expression.IdentifierName? &&
           argument.parameter.name == argument.argument.expression.valueText
        {
          argumentNamesSameAsParameterNamesCount := argumentNamesSameAsParameterNamesCount + 1;
        }
        j := j + 1;
      }
      assert argumentsOfSameType.arguments[..j] == argumentsOfSameType.arguments;
      if argumentNamesSameAsParameterNamesCount == |argumentsOfSameType.arguments| {
        i := i + 1;
        continue;
      }
      r := r + [argumentsOfSameType];
      i := i + 1;
    }
    assert argumentsByTypes[..i] == argumentsByTypes;
  }

  // ---------------------------------------------------------------------------
  // The whole classification (From)

  /** The groups of arguments that should be named, or the exception binding throws. */
  function Classify(invocation: Invocation): Result<seq<Group>, Error>
  {
    var arguments := invocation.argumentList.arguments;
    if |arguments| == 0 then Success([])
    else match GetArgumentInfoOrThrow(invocation.symbol, arguments, |arguments| - 1)
      case Failure(e) => Failure(e)
      case Success(lastArgumentInfo) =>
        if lastArgumentInfo.parameter.value.isParams then Success([])
        else match GroupedByType(invocation.symbol, arguments)
          case Failure(e) => Failure(e)
          case Success(argumentsByTypes) => Success(Flagged(argumentsByTypes))
  }

  /**
   * InvocationExpressionSyntaxInfo.From: no groups for a call without
   * arguments or whose last argument goes to a `params` parameter; otherwise
   * the groups that should be named.
   */
  method From(invocation: Invocation) returns (r: Result<seq<Group>, Error>)
    ensures r == Classify(invocation)
  {
    var argumentSyntaxes := invocation.argumentList.arguments;
    if |argumentSyntaxes| == 0 {
      return Success([]);
    }
    var lastArgumentInfo := GetArgumentInfoOrThrow(invocation.symbol, argumentSyntaxes, |argumentSyntaxes| - 1);
    if lastArgumentInfo.Failure? {
      return Failure(lastArgumentInfo.error);
    }
    if lastArgumentInfo.value.parameter.value.isParams {
      return Success([]);
    }
    var argumentSyntaxesByTypes := GetArgumentsGroupedByType(invocation.symbol, argumentSyntaxes);
    if argumentSyntaxesByTypes.Failure? {
      return Failure(argumentSyntaxesByTypes.error);
    }
    var argumentsWhichShouldBeNamed := GetArgumentsWhichShouldBeNamed(argumentSyntaxesByTypes.value);
    return Success(argumentsWhichShouldBeNamed);
  }

  // ---------------------------------------------------------------------------
  // Properties of the classification

  /** A call without arguments has no groups to report. */
  lemma NoArgumentsNoGroups(invocation: Invocation)
    requires invocation.argumentList.arguments == []
    ensures Classify(invocation) == Success([])
  {
  }

  /** When the last argument goes to a `params` parameter nothing is reported, whatever the other groups are. */
  lemma ParamsLastNoGroups(invocation: Invocation)
    requires var args := invocation.argumentList.arguments;
             |args| > 0 && !GetArgumentInfo(invocation.symbol, args, |args| - 1).IsEmpty() &&
             GetArgumentInfo(invocation.symbol, args, |args| - 1).parameter.value.isParams
    ensures Classify(invocation) == Success([])
  {
  }

  /**
   * Classification throws when the last argument binds to nothing; otherwise,
   * unless that argument goes to a `params` parameter, it throws exactly when
   * some argument binds to nothing.
   */
  lemma ClassifyFailure(invocation: Invocation)
    requires invocation.argumentList.arguments != []
    ensures var args := invocation.argumentList.arguments;
            var n := |args|;
            var last := GetArgumentInfo(invocation.symbol, args, n - 1);
            && (last.IsEmpty() ==> Classify(invocation) == Failure(ParameterNotFound(n - 1)))
            && (!last.IsEmpty() && !last.parameter.value.isParams ==>
                 (Classify(invocation).Failure? <==> exists i :: 0 <= i < n && GetArgumentInfo(invocation.symbol, args, i).IsEmpty()))
  {
    var args := invocation.argumentList.arguments;
    BindPrefixMeaning(invocation.symbol, args, |args|);
  }

  /** Once every argument is bound, classification depends only on the last binding and the grouping. */
  lemma ClassifyWhenBound(invocation: Invocation, bs: seq<BoundArgument>)
    requires BindArguments(invocation.symbol, invocation.argumentList.arguments) == Success(bs)
    ensures Classify(invocation) ==
              if |bs| == 0 || bs[|bs| - 1].parameter.isParams then Success([]) else Success(Flagged(Grouped(bs)))
  {
    var args := invocation.argumentList.arguments;
    if |args| > 0 {
      assert GetArgumentInfo(invocation.symbol, args, |args| - 1) == ArgumentInfo(invocation.symbol, Some(bs[|bs| - 1].parameter));
    }
  }

  /** A call whose classification reports something had every argument bound. */
  lemma ReportedImpliesBound(invocation: Invocation, reported: seq<Group>)
    requires Classify(invocation) == Success(reported) && reported != []
    ensures BindArguments(invocation.symbol, invocation.argumentList.arguments).Success?
    ensures var bs := BindArguments(invocation.symbol, invocation.argumentList.arguments).value;
            |bs| > 0 && !bs[|bs| - 1].parameter.isParams && reported == Flagged(Grouped(bs))
  {
    var bound := BindArguments(invocation.symbol, invocation.argumentList.arguments);
    assert bound.Success?;
    ClassifyWhenBound(invocation, bound.value);
  }

  /**
   * Every reported group is one of the call's type groups, kept in order; it
   * holds exactly the call's arguments of its type (so at least two, all of
   * one type), two of them positional and one not self-named.
   */
  lemma ReportedGroups(invocation: Invocation, reported: seq<Group>)
    requires Classify(invocation) == Success(reported) && reported != []
    ensures BindArguments(invocation.symbol, invocation.argumentList.arguments).Success?
    ensures var bs := BindArguments(invocation.symbol, invocation.argumentList.arguments).value;
      && IsSubsequence(reported, Grouped(bs))
      && PartitionOf(Grouped(bs), bs)
      && forall k :: 0 <= k < |reported| ==> ReportedGroupShape(reported[k], bs)
  {
    ReportedImpliesBound(invocation, reported);
    var bs := BindArguments(invocation.symbol, invocation.argumentList.arguments).value;
    var gs := Grouped(bs);
    GroupedIsPartition(bs);
    FlaggedSelects(gs);
    forall k | 0 <= k < |reported|
      ensures ReportedGroupShape(reported[k], bs)
    {
      assert reported[k] in gs && ShouldBeNamed(reported[k]);
      ReportedGroupShapeOf(gs, bs, reported[k]);
    }
  }

  /** A group of the partition that should be named has the reported shape. */
  lemma ReportedGroupShapeOf(gs: seq<Group>, bs: seq<BoundArgument>, g: Group)
    requires PartitionOf(gs, bs)
    requires g in gs && ShouldBeNamed(g)
    ensures ReportedGroupShape(g, bs)
  {
    var kk :| 0 <= kk < |gs| && gs[kk] == g;
    OfTypeMembers(bs, g.typeSymbol);
    ShouldBeNamedMeaning(g);
  }

  /** What a reported group looks like, relative to the call's bound arguments `bs`. */
  ghost predicate ReportedGroupShape(g: Group, bs: seq<BoundArgument>)
  {
    && g.arguments == OfType(bs, g.typeSymbol)
    && |g.arguments| >= 2
    && (forall x :: x in g.arguments ==> x in bs && TypeOf(x) == g.typeSymbol)
    && (exists i, j :: 0 <= i < j < |g.arguments| && IsPositional(g.arguments[i]) && IsPositional(g.arguments[j]))
    && (exists i :: 0 <= i < |g.arguments| && !IsSelfNamed(g.arguments[i]))
  }

  lemma {:induction false} NothingFlagged(groups: seq<Group>)
    requires forall k :: 0 <= k < |groups| ==> !ShouldBeNamed(groups[k])
    ensures Flagged(groups) == []
  {
    if |groups| > 0 {
      NothingFlagged(groups[..|groups| - 1]);
    }
  }

  lemma {:induction false} OfTypeAtMostOne(bs: seq<BoundArgument>, t: TypeId)
    requires forall i, j :: 0 <= i < j < |bs| ==> TypeOf(bs[i]) != TypeOf(bs[j])
    ensures |OfType(bs, t)| <= 1
  {
    if |bs| > 0 {
      var init, b := bs[..|bs| - 1], bs[|bs| - 1];
      OfTypeAtMostOne(init, t);
      if TypeOf(b) == t {
        forall i | 0 <= i < |init| ensures TypeOf(init[i]) != t {
          assert init[i] == bs[i];
        }
        OfTypeAbsent(init, t);
      }
    }
  }

  /** If the arguments bind to pairwise distinct parameter types, no group is reported. */
  lemma DistinctTypesReportNothing(invocation: Invocation, bs: seq<BoundArgument>)
    requires BindArguments(invocation.symbol, invocation.argumentList.arguments) == Success(bs)
    requires forall i, j :: 0 <= i < j < |bs| ==> TypeOf(bs[i]) != TypeOf(bs[j])
    ensures Classify(invocation) == Success([])
  {
    ClassifyWhenBound(invocation, bs);
    var gs := Grouped(bs);
    GroupedIsPartition(bs);
    forall k | 0 <= k < |gs| ensures !ShouldBeNamed(gs[k]) {
      OfTypeAtMostOne(bs, gs[k].typeSymbol);
    }
    NothingFlagged(gs);
  }
}
