/// The current grammar: one production per AST node, each a composition of
/// nom combinators that maps the input to the node and the input left over,
/// or to a deepest-first error trail.
module Grammar {
  import opened Chars
  import opened Combinators
  import opened Ast

  /// These can't be used as names in KCL programs.
  const ReservedKeywords: seq<string> := ["let", "in"]

  predicate IsReservedKeyword(text: string) {
    text in ReservedKeywords
  }

  /// `Identifier::parse_maybe_reserved`: `recognize(preceded(alpha1,
  /// alphanumeric0))`, i.e. a letter-led run of letters and digits, returned
  /// as the slice of the input it covers.
  function ParseMaybeReserved(s: seq<char>): (r: Res<Identifier>)
    ensures WellBehaved(s, r)
    ensures r.Ok? ==> |r.rest| < |s|
  {
    var (_, afterAlpha) :- Alpha1(s);
    var rest := Alphanumeric0(afterAlpha).rest;  // alphanumeric0 never fails
    SuffixTransitive(rest, afterAlpha, s);
    Ok(Identifier(s[..|s| - |rest|], None), rest)
  }

  /// `Identifier::parse`: `parse_maybe_reserved`, rejecting the reserved
  /// keywords through `map_res` (whose message `VerboseError` does not keep),
  /// in the context "identifier".
  function ParseIdentifier(s: seq<char>): (r: Res<Identifier>)
    ensures WellBehaved(s, r)
    ensures r.Err? ==> r.trail[|r.trail| - 1] == Entry(|s|, Context("identifier"))
    ensures r.Ok? ==> |r.rest| < |s|
  {
    var checked :=
      match ParseMaybeReserved(s)
      case Err(trail) => Err(trail)
      case Ok(id, rest) =>
        if IsReservedKeyword(id.text) then Fail(s, Nom(MapResKind)) else Ok(id, rest);
    WithContext("identifier", s, checked)
  }

  /// `Parameter::parse`: `name: Type`.
  function ParseParameter(s: seq<char>): (r: Res<Parameter>)
    ensures WellBehaved(s, r)
    ensures r.Err? ==> r.trail[|r.trail| - 1] == Entry(|s|, Context("parameter"))
    ensures r.Ok? ==> |r.rest| < |s|
  {
    WithContext("parameter", s, ParameterParts(s))
  }

  function ParameterParts(s: seq<char>): (r: Res<Parameter>)
    ensures WellBehaved(s, r)
    ensures r.Ok? ==> |r.rest| < |s|
  {
    var (name, r1) :- ParseIdentifier(s);
    var (_, r2) :- Tag(": ", r1);
    SuffixTransitive(r2, r1, s);
    var (kclType, r3) :- ParseIdentifier(r2);
    SuffixTransitive(r3, r2, s);
    Ok(Parameter(name, kclType), r3)
  }

  /// `Operator::parse`: one of `+ - * /`.
  function ParseOperator(s: seq<char>): (r: Res<Operator>)
    ensures WellBehaved(s, r)
    ensures r.Err? ==> r.trail[|r.trail| - 1] == Entry(|s|, Context("operator"))
  {
    var symbol := Alt(s, Or(OneChar('+', s), Or(OneChar('-', s), Or(OneChar('*', s), OneChar('/', s)))));
    var mapped :=
      match symbol
      case Err(trail) => Err(trail)
      case Ok(c, rest) =>
        if c == '+' then Ok(Add, rest)
        else if c == '-' then Ok(Sub, rest)
        else if c == '*' then Ok(Mul, rest)
        else if c == '/' then Ok(Div, rest)
        else Fail(s, Nom(MapResKind));
    WithContext("operator", s, mapped)
  }

  /// The characters `parse_num` accepts.
  function NumberChar(s: seq<char>): (r: Res<char>)
    ensures WellBehaved(s, r)
  {
    OneOf("0123456789_", s)
  }

  /// The ASCII digits of `cs`, in order (the `filter(is_ascii_digit)` of
  /// `parse_num`).
  function AsciiDigits(cs: seq<char>): (ds: seq<char>)
    ensures forall k :: 0 <= k < |ds| ==> IsAsciiDigit(ds[k])
  {
    if cs == [] then []
    else if IsAsciiDigit(cs[|cs| - 1]) then AsciiDigits(cs[..|cs| - 1]) + [cs[|cs| - 1]]
    else AsciiDigits(cs[..|cs| - 1])
  }

  function DigitValue(c: char): (d: nat)
    requires IsAsciiDigit(c)
    ensures d < 10
  {
    c as int - '0' as int
  }

  /// The value of a string of decimal digits, most significant first.
  function DecimalValue(ds: seq<char>): nat
    requires forall k :: 0 <= k < |ds| ==> IsAsciiDigit(ds[k])
  {
    if ds == [] then 0
    else DecimalValue(ds[..|ds| - 1]) * 10 + DigitValue(ds[|ds| - 1])
  }

  /// The number both grammars read: one or more of `0-9` and `_`, whose
  /// digits, underscores dropped, are read as a `u64` through `map_res`
  /// (`str::parse`, which fails on an empty string and on overflow).
  function NumberValue(s: seq<char>): (r: Res<U64>)
    ensures WellBehaved(s, r)
    ensures r.Ok? ==> |r.rest| < |s|
  {
    match Many1(NumberChar, s)
    case Err(trail) => Err(trail)
    case Ok(chars, rest) =>
      var digits := AsciiDigits(chars);
      if digits == [] || DecimalValue(digits) > U64_MAX then Fail(s, Nom(MapResKind))
      else Ok(DecimalValue(digits), rest)
  }

  /// `Expression::parse_num`: the number, in the context "number".
  function ParseNum(s: seq<char>): (r: Res<Expression>)
    ensures WellBehaved(s, r)
    ensures r.Err? ==> r.trail[|r.trail| - 1] == Entry(|s|, Context("number"))
    ensures r.Ok? ==> |r.rest| < |s|
  {
    WithContext("number", s, NumberValue(s).Map(NumberOf))
  }

  /// `Expression::parse`: the first of arithmetic, number, let-in, function
  /// invocation and name that succeeds, each tried on the same input.
  function ParseExpression(s: seq<char>): (r: Res<Expression>)
    ensures WellBehaved(s, r)
    ensures r.Err? ==> r.trail[|r.trail| - 1] == Entry(|s|, Context("expression"))
    ensures r.Ok? ==> |r.rest| < |s|
    decreases |s|, 2
  {
    var alternatives :=
      Or(ParseArithmetic(s),
      Or(ParseNum(s),
      Or(ParseLetIn(s),
      Or(ParseInvocation(s).Map(InvocationOf),
         ParseIdentifier(s).Map(NameOf)))));
    WithContext("expression", s, Alt(s, alternatives))
  }

  /// The constructors `map` and `map_res` apply, as functions.
  function NumberOf(n: U64): Expression {
    Number(n)
  }

  function InvocationOf(call: FnInvocation): Expression {
    Invocation(call)
  }

  function NameOf(id: Identifier): Expression {
    Name(id)
  }

  function ArithmeticOf(parts: (Expression, Operator, Expression)): Expression {
    Arithmetic(parts.0, parts.1, parts.2)
  }

  /// `Expression::parse` handed to a combinator, callable on input of length
  /// at most `bound`.
  function ExpressionParser(bound: nat): (p: Parser<Expression>)
    ensures Sound(p, bound)
    decreases bound, 3
  {
    var p := (t: seq<char>) requires |t| <= bound => ParseExpression(t);
    p
  }

  /// The child of `bracketed` in `parse_arithmetic`: an expression, an
  /// operator between single spaces, an expression.
  function ArithmeticParts(s: seq<char>): (r: Res<(Expression, Operator, Expression)>)
    ensures WellBehaved(s, r)
    ensures r.Ok? ==> |r.rest| < |s|
    decreases |s|, 3
  {
    var (lhs, r1) :- ParseExpression(s);
    var (_, r2) :- OneChar(' ', r1);
    SuffixTransitive(r2, r1, s);
    var (op, r3) :- ParseOperator(r2);
    SuffixTransitive(r3, r2, s);
    var (_, r4) :- OneChar(' ', r3);
    SuffixTransitive(r4, r3, s);
    var (rhs, r5) :- ParseExpression(r4);
    SuffixTransitive(r5, r4, s);
    Ok((lhs, op, rhs), r5)
  }

  function ArithmeticPartsParser(bound: nat): (p: Parser<(Expression, Operator, Expression)>)
    ensures Sound(p, bound)
    decreases bound, 4
  {
    (t: seq<char>) requires |t| <= bound => ArithmeticParts(t)
  }

  /// `Expression::parse_arithmetic`: `( lhs op rhs )`.
  function ParseArithmetic(s: seq<char>): (r: Res<Expression>)
    ensures WellBehaved(s, r)
    ensures r.Err? ==> r.trail[|r.trail| - 1] == Entry(|s|, Context("arithmetic"))
    ensures r.Ok? ==> |r.rest| < |s|
    decreases |s|, 1
  {
    // on empty input `bracketed` fails at its `(`
    var parts: Res<(Expression, Operator, Expression)> :=
      if |s| == 0 then Fail(s, Char('(')) else Bracketed(ArithmeticPartsParser(|s| - 1), s);
    WithContext("arithmetic", s, parts.Map(ArithmeticOf))
  }

  /// One binding line of a let-in block: optional whitespace, an
  /// assignment, a newline.
  function BindingLine(s: seq<char>): (r: Res<Assignment>)
    ensures WellBehaved(s, r)
    ensures r.Ok? ==> |r.rest| < |s|
    decreases |s|, 5
  {
    var r1 := MultiSpace0(s).rest;  // multispace0 never fails
    var (assignment, r2) :- ParseAssignment(r1);
    SuffixTransitive(r2, r1, s);
    var (_, r3) :- Newline(r2);
    SuffixTransitive(r3, r2, s);
    Ok(assignment, r3)
  }

  function BindingLineParser(bound: nat): (p: Parser<Assignment>)
    ensures Sound(p, bound)
    decreases bound, 6
  {
    (t: seq<char>) requires |t| <= bound => BindingLine(t)
  }

  /// `Expression::parse_let_in`: `let`, a newline, one or more binding
  /// lines, `in` between optional whitespace, and the body.
  function ParseLetIn(s: seq<char>): (r: Res<Expression>)
    ensures WellBehaved(s, r)
    ensures r.Err? ==> r.trail[|r.trail| - 1] == Entry(|s|, Context("let-in"))
    ensures r.Ok? ==> |r.rest| < |s|
    decreases |s|, 1
  {
    WithContext("let-in", s, LetInParts(s))
  }

  function LetInParts(s: seq<char>): (r: Res<Expression>)
    ensures WellBehaved(s, r)
    ensures r.Ok? ==> |r.rest| < |s|
    decreases |s|, 0
  {
    var (_, r1) :- Tag("let", s);
    var (_, r2) :- Newline(r1);
    SuffixTransitive(r2, r1, s);
    var (bindings, r3) :- Many1(BindingLineParser(|r2|), r2);
    SuffixTransitive(r3, r2, s);
    var (body, r4) :- InThenBody(r3);
    SuffixTransitive(r4, r3, s);
    Ok(LetIn(bindings, body), r4)
  }

  /// The end of a let-in block: `in` between optional whitespace, then the
  /// body.
  function InThenBody(s: seq<char>): (r: Res<Expression>)
    ensures WellBehaved(s, r)
    ensures r.Ok? ==> |r.rest| < |s|
    decreases |s|, 0
  {
    var r1 := MultiSpace0(s).rest;  // multispace0 never fails
    var (_, r2) :- Tag("in", r1);
    SuffixTransitive(r2, r1, s);
    var r3 := MultiSpace0(r2).rest;
    SuffixTransitive(r3, r2, s);
    var (body, r4) :- ParseExpression(r3);
    SuffixTransitive(r4, r3, s);
    Ok(body, r4)
  }

  /// `FnInvocation::parse`: a name, `(`, arguments separated by `", "`, `)`.
  function ParseInvocation(s: seq<char>): (r: Res<FnInvocation>)
    ensures WellBehaved(s, r)
    ensures r.Err? ==> r.trail[|r.trail| - 1] == Entry(|s|, Context("function invocation"))
    ensures r.Ok? ==> |r.rest| < |s|
    decreases |s|, 1
  {
    WithContext("function invocation", s, InvocationParts(s))
  }

  function InvocationParts(s: seq<char>): (r: Res<FnInvocation>)
    ensures WellBehaved(s, r)
    ensures r.Ok? ==> |r.rest| < |s|
    decreases |s|, 0
  {
    var (fnName, r1) :- ParseIdentifier(s);
    var (_, r2) :- OneChar('(', r1);
    SuffixTransitive(r2, r1, s);
    var (args, r3) :- SeparatedList0(", ", ExpressionParser(|r2|), r2);
    SuffixTransitive(r3, r2, s);
    var (_, r4) :- OneChar(')', r3);
    SuffixTransitive(r4, r3, s);
    Ok(FnInvocation(fnName, args), r4)
  }

  /// `Assignment::parse`: `name = value`.
  function ParseAssignment(s: seq<char>): (r: Res<Assignment>)
    ensures WellBehaved(s, r)
    ensures r.Err? ==> r.trail[|r.trail| - 1] == Entry(|s|, Context("assignment"))
    ensures r.Ok? ==> |r.rest| < |s|
    decreases |s|, 4
  {
    WithContext("assignment", s, AssignmentParts(s))
  }

  function AssignmentParts(s: seq<char>): (r: Res<Assignment>)
    ensures WellBehaved(s, r)
    ensures r.Ok? ==> |r.rest| < |s|
    decreases |s|, 3
  {
    var (identifier, r1) :- ParseIdentifier(s);
    var (_, r2) :- Tag(" = ", r1);
    SuffixTransitive(r2, r1, s);
    var (value, r3) :- ParseExpression(r2);
    SuffixTransitive(r3, r2, s);
    Ok(Assignment(identifier, value), r3)
  }

  /// `bracketed(child)`: `(`, the child, `)`; the child's value.
  function Bracketed<T>(child: Parser<T>, s: seq<char>): (r: Res<T>)
    requires |s| > 0 ==> Sound(child, |s| - 1)
    ensures WellBehaved(s, r)
    ensures r.Ok? ==> |r.rest| + 2 <= |s|
  {
    var (_, r1) :- OneChar('(', s);
    var (value, r2) :- child(r1);
    SuffixTransitive(r2, r1, s);
    var (_, r3) :- OneChar(')', r2);
    SuffixTransitive(r3, r2, s);
    Ok(value, r3)
  }

  /// The bracketed type signature of a function definition: the parameter
  /// list, ` -> ` and the return type.
  function SignatureParts(s: seq<char>): (r: Res<(seq<Parameter>, Identifier)>)
    ensures WellBehaved(s, r)
  {
    var (params, r1) :- WithContext("parameter list", s, SeparatedList0(", ", ParseParameter, s));
    var (_, r2) :- WithContext("return type arrow ->", r1, Tag(" -> ", r1));
    SuffixTransitive(r2, r1, s);
    var (returnType, r3) :- ParseIdentifier(r2);
    SuffixTransitive(r3, r2, s);
    Ok((params, returnType), r3)
  }

  /// `terminated(tag(" =>"), multispace0)`
  function ArrowThenSpace(s: seq<char>): (r: Res<string>)
    ensures WellBehaved(s, r)
  {
    var (arrow, r1) :- Tag(" =>", s);
    var r2 := MultiSpace0(r1).rest;
    SuffixTransitive(r2, r1, s);
    Ok(arrow, r2)
  }

  /// `FnDef::parse`: `name = (params -> ReturnType) =>` and the body.
  function ParseFnDef(s: seq<char>): (r: Res<FnDef>)
    ensures WellBehaved(s, r)
    ensures r.Err? ==> r.trail[|r.trail| - 1] == Entry(|s|, Context("function definition"))
    ensures r.Ok? ==> |r.rest| < |s|
  {
    WithContext("function definition", s, FnDefParts(s))
  }

  function FnDefParts(s: seq<char>): (r: Res<FnDef>)
    ensures WellBehaved(s, r)
    ensures r.Ok? ==> |r.rest| < |s|
  {
    var (fnName, r1) :- WithContext("function name", s, ParseIdentifier(s));
    var (_, r2) :- WithContext("= between function name and definition", r1, Tag(" = ", r1));
    SuffixTransitive(r2, r1, s);
    var ((params, returnType), r3) :- WithContext("type signature", r2, Bracketed(SignatureParts, r2));
    SuffixTransitive(r3, r2, s);
    var (_, r4) :- WithContext("=> between function header and body", r3, ArrowThenSpace(r3));
    SuffixTransitive(r4, r3, s);
    var (body, r5) :- WithContext("function body", r4, ParseExpression(r4));
    SuffixTransitive(r5, r4, s);
    Ok(FnDef(fnName, params, returnType, body), r5)
  }
}
