/**
 * The parts of the host compiler's syntax tree and symbol table that the
 * analyser reads. Everything the host owns and this model only copies is an
 * opaque type compared with `==`.
 */
module Syntax {
  import opened Wrappers

  /** Identity of a parameter's declared type (ITypeSymbol). */
  type TypeId(==, !new)
  /** Whitespace, line breaks and comments attached to a node. */
  type Trivia(==, !new)
  /** A punctuation token: a comma separator or a parenthesis. */
  type Token(==, !new)
  /** A source location. */
  type Location(==, !new)
  /** Any expression other than a bare identifier. */
  type ExpressionNode(==, !new)

  /** A declared formal parameter (IParameterSymbol). */
  datatype Parameter = Parameter(name: string, paramType: TypeId, ordinal: nat, isParams: bool)

  /** An argument's expression: a bare identifier (IdentifierNameSyntax) or anything else. */
  datatype Expression =
    | IdentifierName(valueText: string)
    | OtherExpression(node: ExpressionNode)

  /** One argument of a call (ArgumentSyntax); `nameColon` is the explicit `name:` qualifier. */
  datatype Argument = Argument(
    nameColon: Option<string>,
    expression: Expression,
    leadingTrivia: Trivia,
    trailingTrivia: Trivia)

  /** The parenthesised, comma-separated argument list of a call (ArgumentListSyntax). */
  datatype ArgumentList = ArgumentList(
    openParen: Token,
    arguments: seq<Argument>,
    separators: seq<Token>,
    closeParen: Token)

  /** The kinds a method symbol can have (MethodKind). */
  datatype MethodKind =
    | AnonymousFunction | Constructor | Conversion | DelegateInvoke | Destructor
    | EventAdd | EventRaise | EventRemove | ExplicitInterfaceImplementation
    | UserDefinedOperator | Ordinary | PropertyGet | PropertySet | ReducedExtension
    | StaticConstructor | BuiltinOperator | DeclareMethod | LocalFunction
    | FunctionPointerSignature

  /** The symbol a call resolves to; only methods and properties carry parameters. */
  datatype Symbol =
    | MethodSymbol(name: string, methodKind: MethodKind, parameters: seq<Parameter>)
    | PropertySymbol(name: string, parameters: seq<Parameter>)
    | OtherSymbol(name: string)

  /**
   * An invocation expression. `symbol` is what the semantic model resolves the
   * invocation to (None when resolution fails).
   */
  datatype Invocation = Invocation(symbol: Option<Symbol>, argumentList: ArgumentList, location: Location)
}
