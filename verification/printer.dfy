/// The concrete syntax the grammar accepts, written out: the text a
/// well-formed AST node is parsed from. The grammar fixes every separator
/// except the whitespace that `multispace0` skips, so a `Layout` chooses that
/// whitespace.
module Printer {
  import opened Chars
  import opened Ast
  import opened Grammar

  /// The optional whitespace of the concrete syntax: after `=>` in a
  /// function definition, before each binding of a let-in block, before its
  /// `in` and between `in` and the body.
  datatype Layout = Layout(afterArrow: string, indent: string, beforeIn: string, afterIn: string)

  predicate AllSpace(ws: string) {
    forall k :: 0 <= k < |ws| ==> IsMultispace(ws[k])
  }

  /// Whitespace the grammar skips. Something must separate `in` from the
  /// body: the grammar accepts `inx`, but when `x = 1` and a newline follow
  /// it, the line `inx = 1` reads as one more binding instead.
  predicate ValidLayout(lay: Layout) {
    && AllSpace(lay.afterArrow)
    && AllSpace(lay.indent)
    && AllSpace(lay.beforeIn)
    && AllSpace(lay.afterIn)
    && |lay.afterIn| > 0
  }

  /// A name the grammar can produce: a letter, then letters and digits, not
  /// a reserved keyword, and with no span (the parser's input is a plain
  /// string).
  predicate ValidName(id: Identifier) {
    && |id.text| > 0
    && IsAlpha(id.text[0])
    && (forall k :: 0 <= k < |id.text| ==> IsAlnum(id.text[k]))
    && !IsReservedKeyword(id.text)
    && id.span == None
  }

  /// The nodes the grammar can produce: valid names everywhere and at least
  /// one binding in every let-in block.
  predicate WellFormed(e: Expression) {
    match e
    case Number(_) => true
    case Invocation(call) => WellFormedCall(call)
    case Name(id) => ValidName(id)
    case LetIn(bindings, body) =>
      && |bindings| > 0
      && (forall b | b in bindings :: WellFormedAssignment(b))
      && WellFormed(body)
    case Arithmetic(lhs, _, rhs) => WellFormed(lhs) && WellFormed(rhs)
  }

  predicate WellFormedCall(call: FnInvocation) {
    ValidName(call.fnName) && forall a | a in call.args :: WellFormed(a)
  }

  predicate WellFormedAssignment(a: Assignment) {
    ValidName(a.identifier) && WellFormed(a.value)
  }

  predicate WellFormedParameter(p: Parameter) {
    ValidName(p.name) && ValidName(p.kclType)
  }

  predicate WellFormedFnDef(f: FnDef) {
    && ValidName(f.fnName)
    && (forall p | p in f.params :: WellFormedParameter(p))
    && ValidName(f.returnType)
    && WellFormed(f.body)
  }

  function DigitChar(d: nat): (c: char)
    requires d < 10
    ensures IsAsciiDigit(c) && DigitValue(c) == d
  {
    ('0' as int + d) as char
  }

  /// The decimal digits of `n`, most significant first, with no leading
  /// zero and no underscore.
  function Digits(n: nat): (ds: string)
    ensures |ds| > 0
    ensures forall k :: 0 <= k < |ds| ==> IsAsciiDigit(ds[k])
  {
    (if n < 10 then [] else Digits(n / 10)) + [DigitChar(n % 10)]
  }

  function OperatorChar(op: Operator): char {
    match op
    case Add => '+'
    case Sub => '-'
    case Mul => '*'
    case Div => '/'
  }

  function PrintExpression(e: Expression, lay: Layout): string {
    match e
    case Number(n) => Digits(n)
    case Invocation(call) => PrintCall(call, lay)
    case Name(id) => id.ToString()
    case LetIn(bindings, body) =>
      "let" + "\n" + PrintBindings(bindings, lay) + lay.beforeIn + "in" + lay.afterIn + PrintExpression(body, lay)
    case Arithmetic(lhs, op, rhs) =>
      "(" + PrintExpression(lhs, lay) + " " + [OperatorChar(op)] + " " + PrintExpression(rhs, lay) + ")"
  }

  function PrintCall(call: FnInvocation, lay: Layout): string {
    call.fnName.ToString() + "(" + PrintArgs(call.args, lay) + ")"
  }

  /// The arguments separated by `", "`.
  function PrintArgs(args: seq<Expression>, lay: Layout): string {
    if args == [] then "" else PrintExpression(args[0], lay) + PrintMoreArgs(args[1..], lay)
  }

  /// Each argument preceded by its `", "`.
  function PrintMoreArgs(args: seq<Expression>, lay: Layout): string {
    if args == [] then "" else ", " + PrintExpression(args[0], lay) + PrintMoreArgs(args[1..], lay)
  }

  /// Each binding on a line of its own.
  function PrintBindings(bindings: seq<Assignment>, lay: Layout): string {
    if bindings == [] then ""
    else lay.indent + PrintAssignment(bindings[0], lay) + "\n" + PrintBindings(bindings[1..], lay)
  }

  function PrintAssignment(a: Assignment, lay: Layout): string {
    a.identifier.ToString() + " = " + PrintExpression(a.value, lay)
  }

  function PrintParameter(p: Parameter): string {
    p.name.ToString() + ": " + p.kclType.ToString()
  }

  function PrintParams(params: seq<Parameter>): string {
    if params == [] then "" else PrintParameter(params[0]) + PrintMoreParams(params[1..])
  }

  function PrintMoreParams(params: seq<Parameter>): string {
    if params == [] then "" else ", " + PrintParameter(params[0]) + PrintMoreParams(params[1..])
  }

  function PrintFnDef(f: FnDef, lay: Layout): string {
    f.fnName.ToString() + " = " + "(" + PrintParams(f.params) + " -> " + f.returnType.ToString() + ")" + " =>"
    + lay.afterArrow + PrintExpression(f.body, lay)
  }
}
