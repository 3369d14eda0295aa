/** `value.In(a, b, c)`: membership of a value in the listed values. */
module GenericExtensions {
  import opened Syntax

  /** True exactly when some element of `collection` equals `value`. */
  function In<T(==)>(value: T, collection: seq<T>): (r: bool)
    ensures r <==> exists i :: 0 <= i < |collection| && collection[i] == value
  {
    if |collection| == 0 then false
    else collection[0] == value || In(value, collection[1..])
  }

  /** Nothing is in the empty collection. */
  lemma InEmpty<T>(value: T)
    ensures !In(value, [])
  {
  }

  /** Only the elements present matter, not their order or how often they repeat. */
  lemma InIgnoresOrderAndRepetition<T>(value: T, xs: seq<T>, ys: seq<T>)
    requires forall x :: x in xs <==> x in ys
    ensures In(value, xs) == In(value, ys)
  {
    assert In(value, xs) <==> value in xs;
    assert In(value, ys) <==> value in ys;
  }

  /** The method kinds the analyser accepts. */
  function SupportedMethodKinds(): seq<MethodKind>
  {
    [Ordinary, Constructor, LocalFunction]
  }

  /** Membership in the supported kinds accepts exactly the three listed kinds. */
  lemma InSupportedMethodKinds(kind: MethodKind)
    ensures In(kind, SupportedMethodKinds()) <==> kind == Ordinary || kind == Constructor || kind == LocalFunction
  {
    var ks := SupportedMethodKinds();
    if kind == Ordinary { assert ks[0] == kind; }
    if kind == Constructor { assert ks[1] == kind; }
    if kind == LocalFunction { assert ks[2] == kind; }
  }
}
