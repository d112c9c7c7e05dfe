/// The abstract syntax tree that KCL source is parsed into.
module Ast {

  const U64_MAX: nat := 0xFFFF_FFFF_FFFF_FFFF

  /// Rust's `u64`
  type U64 = n: nat | n <= U64_MAX

  datatype Option<+T> = None | Some(value: T)

  /// Where an identifier starts in the source, as the located input that the
  /// listing pass reads it from reports it: a 1-based line and a 1-based
  /// column counted in characters.
  datatype Span = Span(line: nat, column: nat)

  /// A name: of a function, parameter, binding or type. The text is the
  /// slice of the source the identifier was parsed from; the parser's plain
  /// string input carries no position, so the span is only present when the
  /// input was located.
  datatype Identifier = Identifier(text: string, span: Option<Span>) {
    /// `Display` forwards to the wrapped text.
    function ToString(): string {
      text
    }
  }

  /// A KCL program is a series of function definitions.
  type AbstractSyntaxTree = seq<FnDef>

  datatype FnDef = FnDef(fnName: Identifier, params: seq<Parameter>, returnType: Identifier, body: Expression)

  datatype Parameter = Parameter(name: Identifier, kclType: Identifier)

  datatype FnInvocation = FnInvocation(fnName: Identifier, args: seq<Expression>)

  /// `Expression::FnInvocation` is called `Invocation` here, since its
  /// payload type is already named `FnInvocation`.
  datatype Expression =
    | Number(n: U64)
    | Invocation(call: FnInvocation)
    | Name(id: Identifier)
    | LetIn(bindings: seq<Assignment>, body: Expression)
    | Arithmetic(lhs: Expression, op: Operator, rhs: Expression)

  datatype Operator = Add | Sub | Mul | Div

  datatype Assignment = Assignment(identifier: Identifier, value: Expression)
}
