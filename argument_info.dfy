/**
 * The binder's result: the called method-or-property and the parameter an
 * argument binds to. The default value, with both parts null, means "not found".
 */
module ArgumentInfos {
  import opened Wrappers
  import opened Syntax

  datatype ArgumentInfo = ArgumentInfo(methodOrProperty: Option<Symbol>, parameter: Option<Parameter>)
  {
    /** Empty exactly when both the symbol and the parameter are null. */
    predicate IsEmpty() {
      methodOrProperty.None? && parameter.None?
    }
  }

  /** `default(ArgumentInfo)`: both fields null. */
  function Default(): (r: ArgumentInfo)
    ensures r.IsEmpty()
    ensures r.methodOrProperty.None? && r.parameter.None?
  {
    ArgumentInfo(None, None)
  }

  /** The constructor as the binder calls it: it stores exactly the given symbol and parameter. */
  function Make(methodOrProperty: Symbol, parameter: Parameter): (r: ArgumentInfo)
    ensures r.methodOrProperty == Some(methodOrProperty) && r.parameter == Some(parameter)
    ensures !r.IsEmpty()
  {
    ArgumentInfo(Some(methodOrProperty), Some(parameter))
  }

  /** `IsEmpty` holds of the default value and of nothing else the struct can hold with a non-null part. */
  lemma IsEmptyIffDefault(info: ArgumentInfo)
    ensures info.IsEmpty() <==> info == Default()
  {
  }
}
