/// The earlier, self-contained grammar: expressions are numbers and function
/// invocations only, names are owned strings, and `parse_identifier` builds
/// its string by hand. It raises nom's simple `Error`, whose `append`, `or`
/// and `add_context` all keep the error they are given: that error is the
/// deepest entry of the trail modelled here (`Innermost`).
module Legacy {
  import opened Chars
  import opened Combinators
  import opened Seqs
  import Ast
  import Grammar
  import GrammarFacts

  datatype FnInvocation = FnInvocation(fnName: string, args: seq<Expression>)

  datatype Expression = Number(n: Ast.U64) | Invocation(call: FnInvocation)

  datatype Assignment = Assignment(identifier: string, value: Expression)

  /// The error nom's simple `Error` type reports for a failure with this
  /// trail.
  function Innermost(trail: Trail): (e: Entry)
    ensures e in trail
  {
    trail[0]
  }

  /// What `parse_identifier` returns, stated on the input alone: the word of
  /// letters and digits at the front, provided it starts with a letter, and
  /// the input after it. `alpha1` fails at the start otherwise.
  function IdentifierSpec(s: seq<char>): (r: Res<string>)
    ensures WellBehaved(s, r)
    ensures r.Ok? ==> |r.rest| < |s|
  {
    if |s| > 0 && IsAlpha(s[0]) then
      var n := RunLength(IsAlnum, s);
      AsciiClasses(s[0]);
      DropIsSlice(s, n);
      Ok(s[..n], s[n..])
    else Fail(s, Nom(AlphaKind))
  }

  /// `parse_identifier`: `alpha1`, then `alphanumeric0`, then the two
  /// slices pushed onto an empty string one after the other.
  method ParseIdentifier(s: seq<char>) returns (r: Res<string>)
    ensures r == IdentifierSpec(s)
  {
    var alpha := Alpha1(s);
    if alpha.Err? {
      return Err(alpha.trail);
    }
    var start, afterAlpha := alpha.value, alpha.rest;
    var alnum := Alphanumeric0(afterAlpha);
    var end, rest := alnum.value, alnum.rest;
    var identifier: string := [];
    identifier := identifier + start;
    identifier := identifier + end;
    // the two slices are contiguous: together they are the leading word
    GrammarFacts.MaybeReservedShape(s);
    var n1, n2 := RunLength(IsAlpha, s), RunLength(IsAlnum, afterAlpha);
    SliceSlice(s, n1, n2);
    assert identifier == s[..n1 + n2];
    assert Grammar.ParseMaybeReserved(s).rest == rest;
    return Ok(identifier, rest);
  }

  /// The identifier is the whole leading word: it starts with a letter, is
  /// made of letters and digits, and is followed by neither; together with
  /// what is left it is the input.
  lemma IdentifierSplits(s: seq<char>)
    ensures IdentifierSpec(s).Ok? <==> |s| > 0 && IsAlpha(s[0])
    ensures IdentifierSpec(s).Ok? ==>
      var r := IdentifierSpec(s);
      && r.value + r.rest == s
      && |r.value| > 0 && IsAlpha(r.value[0])
      && (forall k :: 0 <= k < |r.value| ==> IsAlnum(r.value[k]))
      && (r.rest == [] || !IsAlnum(r.rest[0]))
    ensures IdentifierSpec(s).Err? ==> IdentifierSpec(s).trail == [Entry(|s|, Nom(AlphaKind))]
  {
    if |s| > 0 && IsAlpha(s[0]) {
      RunLengthClass(IsAlnum, s);
      TakeDrop(s, RunLength(IsAlnum, s));
    }
  }

  /// The earlier grammar reads the same names as the current one's
  /// `parse_maybe_reserved`, keywords included; the current `Identifier::parse`
  /// accepts a subset of them, with the same text.
  lemma IdentifierAgreesWithCurrent(s: seq<char>)
    ensures IdentifierSpec(s).Ok? <==> Grammar.ParseMaybeReserved(s).Ok?
    ensures IdentifierSpec(s).Ok? ==>
      && IdentifierSpec(s).value == Grammar.ParseMaybeReserved(s).value.ToString()
      && IdentifierSpec(s).rest == Grammar.ParseMaybeReserved(s).rest
    ensures Grammar.ParseIdentifier(s).Ok? ==>
      && IdentifierSpec(s).Ok?
      && IdentifierSpec(s).value == Grammar.ParseIdentifier(s).value.ToString()
      && IdentifierSpec(s).rest == Grammar.ParseIdentifier(s).rest
  {
    GrammarFacts.MaybeReservedShape(s);
    GrammarFacts.IdentifierShape(s);
  }

  function NumberOf(n: Ast.U64): Expression {
    Number(n)
  }

  /// `Expression::parse_num`: the number of the current grammar, with no
  /// context.
  function ParseNum(s: seq<char>): (r: Res<Expression>)
    ensures WellBehaved(s, r)
    ensures r.Ok? ==> |r.rest| < |s|
  {
    Grammar.NumberValue(s).Map(NumberOf)
  }

  /// `Expression::parse`: a number, and failing that a function invocation.
  function ParseExpression(s: seq<char>): (r: Res<Expression>)
    ensures WellBehaved(s, r)
    ensures r.Ok? ==> |r.rest| < |s|
    decreases |s|, 2
  {
    Alt(s, Or(ParseNum(s), ParseFnInvocation(s)))
  }

  /// `Expression::parse` handed to `separated_list0`, callable on input of
  /// length at most `bound`.
  function ExpressionParser(bound: nat): (p: Parser<Expression>)
    ensures Sound(p, bound)
    decreases bound, 3
  {
    var p := (t: seq<char>) requires |t| <= bound => ParseExpression(t);
    p
  }

  lemma ExpressionParserIs(bound: nat, t: seq<char>)
    requires |t| <= bound
    ensures ExpressionParser(bound)(t) == ParseExpression(t)
  {
  }

  /// `Expression::parse_fn_invocation`: a name, `(`, arguments separated by
  /// `", "`, `)`.
  function ParseFnInvocation(s: seq<char>): (r: Res<Expression>)
    ensures WellBehaved(s, r)
    ensures r.Ok? ==> |r.rest| < |s|
    decreases |s|, 1
  {
    var (fnName, r1) :- IdentifierSpec(s);
    var (_, r2) :- OneChar('(', r1);
    SuffixTransitive(r2, r1, s);
    var (args, r3) :- SeparatedList0(", ", ExpressionParser(|r2|), r2);
    SuffixTransitive(r3, r2, s);
    var (_, r4) :- OneChar(')', r3);
    SuffixTransitive(r4, r3, s);
    Ok(Invocation(FnInvocation(fnName, args)), r4)
  }

  /// `Assignment::parse`: `name = value`.
  function ParseAssignment(s: seq<char>): (r: Res<Assignment>)
    ensures WellBehaved(s, r)
    ensures r.Ok? ==> |r.rest| < |s|
  {
    var (identifier, r1) :- IdentifierSpec(s);
    var (_, r2) :- Tag(" = ", r1);
    SuffixTransitive(r2, r1, s);
    var (value, r3) :- ParseExpression(r2);
    SuffixTransitive(r3, r2, s);
    Ok(Assignment(identifier, value), r3)
  }

  /// Numbers are read exactly as the current grammar reads them.
  lemma NumberAgreesWithCurrent(s: seq<char>)
    ensures ParseNum(s).Ok? <==> Grammar.ParseNum(s).Ok?
    ensures ParseNum(s).Ok? ==>
      && Grammar.ParseNum(s).value == Ast.Number(ParseNum(s).value.n)
      && ParseNum(s).rest == Grammar.ParseNum(s).rest
  {
  }

  /// `parse_num` takes the whole run of digits and underscores; it fails
  /// when the run holds no digit or its digits exceed `u64::MAX`, and
  /// otherwise its value is the digits read in decimal, underscores dropped.
  lemma NumberShape(s: seq<char>)
    ensures
      var run := s[..GrammarFacts.NumberLength(s)];
      ParseNum(s).Ok? <==> Grammar.AsciiDigits(run) != [] && Grammar.DecimalValue(Grammar.AsciiDigits(run)) <= Ast.U64_MAX
    ensures
      var run := s[..GrammarFacts.NumberLength(s)];
      ParseNum(s).Ok? ==>
        && ParseNum(s).value == Number(Grammar.DecimalValue(Grammar.AsciiDigits(run)))
        && ParseNum(s).rest == s[GrammarFacts.NumberLength(s)..]
  {
    GrammarFacts.NumberValueShape(s);
  }

  /// The number is tried first, and an invocation only when it fails; when
  /// both fail, the invocation's error is the one kept.
  lemma ExpressionOrder(s: seq<char>)
    ensures ParseNum(s).Ok? ==> ParseExpression(s) == ParseNum(s)
    ensures ParseNum(s).Err? && ParseFnInvocation(s).Ok? ==> ParseExpression(s) == ParseFnInvocation(s)
    ensures ParseExpression(s).Err? <==> ParseNum(s).Err? && ParseFnInvocation(s).Err?
    ensures ParseExpression(s).Err? ==>
      ParseExpression(s).trail == ParseFnInvocation(s).trail + [Entry(|s|, Nom(AltKind))]
  {
  }
}
