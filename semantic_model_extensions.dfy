/**
 * Binding one argument of a call to the parameter it supplies: by its
 * `name:` qualifier when it has one, otherwise by its position, falling back
 * to a trailing `params` parameter for positions past the end.
 */
module SemanticModelExtensions {
  import opened Wrappers
  import opened Syntax
  import opened ArgumentInfos

  /** The exceptions the analyser and the code fix can throw: GetArgumentInfoOrThrow finding no parameter, and Min over an empty sequence. */
  datatype Error =
    | ParameterNotFound(argumentIndex: nat)
    | SequenceContainsNoElements

  /** Only method and property symbols have parameters; every other kind has none. */
  function GetParameters(symbol: Symbol): (r: seq<Parameter>)
    ensures symbol.MethodSymbol? || symbol.PropertySymbol? ==> r == symbol.parameters
    ensures symbol.OtherSymbol? ==> r == []
  {
    match symbol
    case MethodSymbol(_, _, ps) => ps
    case PropertySymbol(_, ps) => ps
    case OtherSymbol(_) => []
  }

  /** The first parameter whose name is exactly `name` (ordinal string comparison), if any. */
  function FindParameterNamed(parameters: seq<Parameter>, name: string): (r: Option<Parameter>)
    ensures r.Some? ==> r.value in parameters && r.value.name == name
  {
    if |parameters| == 0 then None
    else if parameters[0].name == name then Some(parameters[0])
    else FindParameterNamed(parameters[1..], name)
  }

  /** The lookup finds nothing exactly when no parameter has the name, and otherwise the first one that does. */
  lemma {:induction false} FindParameterNamedMeaning(parameters: seq<Parameter>, name: string)
    ensures var r := FindParameterNamed(parameters, name);
            && (r.None? <==> forall i :: 0 <= i < |parameters| ==> parameters[i].name != name)
            && (r.Some? ==> exists i :: 0 <= i < |parameters| && parameters[i] == r.value &&
                              parameters[i].name == name &&
                              forall j :: 0 <= j < i ==> parameters[j].name != name)
  {
    if |parameters| > 0 && parameters[0].name != name {
      var tail := parameters[1..];
      FindParameterNamedMeaning(tail, name);
      var r := FindParameterNamed(tail, name);
      assert forall i :: 0 <= i < |tail| ==> tail[i] == parameters[i + 1];
      if r.Some? {
        var i :| 0 <= i < |tail| && tail[i] == r.value && tail[i].name == name &&
                 forall j :: 0 <= j < i ==> tail[j].name != name;
        assert parameters[i + 1] == r.value;
      }
    }
  }

  /**
   * GetArgumentInfo for the argument at position `index` of `arguments`, in a
   * call that resolves to `symbol`. A result that is not empty always carries
   * the call's symbol and one of that symbol's declared parameters.
   */
  function GetArgumentInfo(symbol: Option<Symbol>, arguments: seq<Argument>, index: nat): (r: ArgumentInfo)
    requires index < |arguments|
    ensures r.IsEmpty() || (symbol.Some? && r.methodOrProperty == symbol &&
                            r.parameter.Some? && r.parameter.value in GetParameters(symbol.value))
  {
    if symbol.None? then Default()
    else
      var parameters := GetParameters(symbol.value);
      if |parameters| == 0 then Default()
      else match arguments[index].nameColon
        case Some(nameText) =>
          (match FindParameterNamed(parameters, nameText)
           case Some(p) => Make(symbol.value, p)
           case None => Default())
        case None =>
          if index < |parameters| then Make(symbol.value, parameters[index])
          else if parameters[|parameters| - 1].isParams then Make(symbol.value, parameters[|parameters| - 1])
          else Default()
  }

  /** GetArgumentInfoOrThrow: the binder's result, or a failure where it would be empty. */
  function GetArgumentInfoOrThrow(symbol: Option<Symbol>, arguments: seq<Argument>, index: nat): (r: Result<ArgumentInfo, Error>)
    requires index < |arguments|
    ensures r.Failure? <==> GetArgumentInfo(symbol, arguments, index).IsEmpty()
    ensures r.Failure? ==> r.error == ParameterNotFound(index)
    ensures r.Success? ==> !r.value.IsEmpty() && r.value.methodOrProperty == symbol &&
                           r.value.parameter.Some? && r.value.parameter.value in GetParameters(symbol.value)
  {
    var info := GetArgumentInfo(symbol, arguments, index);
    if info.IsEmpty() then Failure(ParameterNotFound(index)) else Success(info)
  }

  /** A call that resolves to nothing binds nothing. */
  lemma UnresolvedBindsNothing(arguments: seq<Argument>, index: nat)
    requires index < |arguments|
    ensures GetArgumentInfo(None, arguments, index).IsEmpty()
  {
  }

  /** Symbols other than methods and properties have no parameters, so they bind nothing. */
  lemma OtherSymbolBindsNothing(symbol: Symbol, arguments: seq<Argument>, index: nat)
    requires symbol.OtherSymbol?
    requires index < |arguments|
    ensures GetArgumentInfo(Some(symbol), arguments, index).IsEmpty()
  {
  }

  /** A callee with no parameters gives the empty result for every argument. */
  lemma ZeroParametersBindNothing(symbol: Symbol, arguments: seq<Argument>, index: nat)
    requires GetParameters(symbol) == []
    requires index < |arguments|
    ensures GetArgumentInfo(Some(symbol), arguments, index).IsEmpty()
  {
  }

  /**
   * A named argument binds to the first parameter with exactly that name, and
   * to nothing when no parameter has it.
   */
  lemma NamedArgumentBinding(symbol: Symbol, arguments: seq<Argument>, index: nat)
    requires index < |arguments| && arguments[index].nameColon.Some?
    ensures var ps := GetParameters(symbol);
            var info := GetArgumentInfo(Some(symbol), arguments, index);
            var name := arguments[index].nameColon.value;
            && (info.IsEmpty() <==> forall i :: 0 <= i < |ps| ==> ps[i].name != name)
            && (!info.IsEmpty() ==> exists i :: 0 <= i < |ps| && info.parameter == Some(ps[i]) &&
                                      ps[i].name == name && forall j :: 0 <= j < i ==> ps[j].name != name)
  {
    FindParameterNamedMeaning(GetParameters(symbol), arguments[index].nameColon.value);
  }

  /** A positional argument at a position the callee declares binds to the parameter at that position. */
  lemma PositionalArgumentInRange(symbol: Symbol, arguments: seq<Argument>, index: nat)
    requires index < |arguments| && arguments[index].nameColon.None?
    requires index < |GetParameters(symbol)|
    ensures GetArgumentInfo(Some(symbol), arguments, index) == ArgumentInfo(Some(symbol), Some(GetParameters(symbol)[index]))
  {
  }

  /**
   * A positional argument past the declared parameters binds to the last
   * parameter when it is `params`, and to nothing otherwise.
   */
  lemma PositionalArgumentPastEnd(symbol: Symbol, arguments: seq<Argument>, index: nat)
    requires index < |arguments| && arguments[index].nameColon.None?
    requires 0 < |GetParameters(symbol)| <= index
    ensures var ps := GetParameters(symbol);
            var info := GetArgumentInfo(Some(symbol), arguments, index);
            && (ps[|ps| - 1].isParams ==> info == ArgumentInfo(Some(symbol), Some(ps[|ps| - 1])))
            && (!ps[|ps| - 1].isParams ==> info.IsEmpty())
  {
  }

  /** The binder looks at an argument only through its `name:` qualifier and its position. */
  lemma BindingDependsOnNameColon(symbol: Option<Symbol>, a1: seq<Argument>, a2: seq<Argument>, i: nat)
    requires i < |a1| && i < |a2| && a1[i].nameColon == a2[i].nameColon
    ensures GetArgumentInfo(symbol, a1, i) == GetArgumentInfo(symbol, a2, i)
  {
  }

  /** Parameter names are pairwise distinct, as the host language requires of a declaration. */
  ghost predicate UniqueNames(parameters: seq<Parameter>)
  {
    forall i, j :: 0 <= i < |parameters| && 0 <= j < |parameters| && parameters[i].name == parameters[j].name ==> i == j
  }

  /** With unique names, looking up a declared parameter's own name finds that parameter. */
  lemma FindOwnName(parameters: seq<Parameter>, p: Parameter)
    requires UniqueNames(parameters) && p in parameters
    ensures FindParameterNamed(parameters, p.name) == Some(p)
  {
    FindParameterNamedMeaning(parameters, p.name);
    var r := FindParameterNamed(parameters, p.name);
    var k :| 0 <= k < |parameters| && parameters[k] == p;
    assert r.Some?;
    var i :| 0 <= i < |parameters| && parameters[i] == r.value && parameters[i].name == p.name;
    assert i == k;
  }
}
