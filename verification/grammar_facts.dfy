/// What the current grammar's productions accept and produce, stated in
/// terms of the input alone.
module GrammarFacts {
  import opened Chars
  import opened Combinators
  import opened Seqs
  import opened Ast
  import opened Grammar

  /// The longest run of letters and digits at the start of `s`.
  function Word(s: seq<char>): string {
    s[..RunLength(IsAlnum, s)]
  }

  /// What follows `Word(s)`.
  function AfterWord(s: seq<char>): seq<char> {
    s[RunLength(IsAlnum, s)..]
  }

  /// The parsers handed to combinators run the productions they stand for.
  lemma ExpressionParserIs(bound: nat, t: seq<char>)
    requires |t| <= bound
    ensures ExpressionParser(bound)(t) == ParseExpression(t)
  {
  }

  lemma ArithmeticPartsParserIs(bound: nat, t: seq<char>)
    requires |t| <= bound
    ensures ArithmeticPartsParser(bound)(t) == ArithmeticParts(t)
  {
  }

  lemma BindingLineParserIs(bound: nat, t: seq<char>)
    requires |t| <= bound
    ensures BindingLineParser(bound)(t) == BindingLine(t)
  {
  }

  /// `recognize(preceded(alpha1, alphanumeric0))` covers exactly the word at
  /// the front of the input, provided the input starts with a letter.
  lemma MaybeReservedShape(s: seq<char>)
    ensures ParseMaybeReserved(s).Ok? <==> |s| > 0 && IsAlpha(s[0])
    ensures ParseMaybeReserved(s).Ok? ==> ParseMaybeReserved(s).value == Identifier(Word(s), None)
    ensures ParseMaybeReserved(s).Ok? ==> ParseMaybeReserved(s).rest == AfterWord(s)
  {
    if |s| > 0 && IsAlpha(s[0]) {
      var n1 := RunLength(IsAlpha, s);
      var a := s[n1..];
      var n2 := RunLength(IsAlnum, a);
      RunLengthClass(IsAlpha, s);
      RunLengthClass(IsAlnum, a);
      SliceSlice(s, n1, n2);
      forall k | 0 <= k < n1 + n2
        ensures IsAlnum(s[k])
      {
        if k >= n1 {
          assert s[k] == a[k - n1];
        }
      }
      if n1 + n2 < |s| {
        assert s[n1 + n2] == a[n2];
      }
      RunLengthExact(IsAlnum, s, n1 + n2);
    }
  }

  /// Reserved-keyword rejection and identifier shape: `Identifier::parse`
  /// succeeds exactly on input that starts with a letter and whose leading
  /// word is neither `let` nor `in`. It takes the whole word, so what is
  /// left starts with neither a letter nor a digit (`_`, a space and `(`
  /// all end a name), and the identifier displays as the text it consumed.
  lemma IdentifierShape(s: seq<char>)
    ensures ParseIdentifier(s).Ok? <==> |s| > 0 && IsAlpha(s[0]) && !IsReservedKeyword(Word(s))
    ensures ParseIdentifier(s).Ok? ==>
      ParseIdentifier(s).value == Identifier(Word(s), None) && ParseIdentifier(s).rest == AfterWord(s)
    ensures ParseIdentifier(s).Ok? ==> s == ParseIdentifier(s).value.ToString() + ParseIdentifier(s).rest
    ensures ParseIdentifier(s).Ok? ==> ParseIdentifier(s).rest == [] || !IsAlnum(ParseIdentifier(s).rest[0])
  {
    MaybeReservedShape(s);
    RunLengthClass(IsAlnum, s);
    TakeDrop(s, RunLength(IsAlnum, s));
  }

  /// A word followed by something that cannot continue it is read as
  /// exactly that word.
  lemma WordOf(word: string, rest: seq<char>)
    requires forall k :: 0 <= k < |word| ==> IsAlnum(word[k])
    requires rest == [] || !IsAlnum(rest[0])
    ensures Word(word + rest) == word && AfterWord(word + rest) == rest
  {
    var s := word + rest;
    forall k | 0 <= k < |word|
      ensures IsAlnum(s[k])
    {
      assert s[k] == word[k];
    }
    if rest != [] {
      assert s[|word|] == rest[0];
    }
    RunLengthExact(IsAlnum, s, |word|);
    assert s[..|word|] == word;
    assert s[|word|..] == rest;
  }

  /// The two keywords, on their own or followed by anything but a letter or
  /// digit, are rejected as identifiers, although they have identifier
  /// shape.
  lemma KeywordsRejected(rest: seq<char>)
    requires rest == [] || !IsAlnum(rest[0])
    ensures ParseMaybeReserved("let" + rest).Ok? && ParseIdentifier("let" + rest).Err?
    ensures ParseMaybeReserved("in" + rest).Ok? && ParseIdentifier("in" + rest).Err?
  {
    AsciiClasses('l');
    AsciiClasses('e');
    AsciiClasses('t');
    AsciiClasses('i');
    AsciiClasses('n');
    WordOf("let", rest);
    WordOf("in", rest);
    IdentifierShape("let" + rest);
    IdentifierShape("in" + rest);
  }

  predicate IsNumberChar(c: char) {
    c in "0123456789_"
  }

  lemma NumberCharIs(c: char)
    ensures IsNumberChar(c) <==> IsAsciiDigit(c) || c == '_'
  {
  }

  /// The length of the run of digits and underscores at the front of `s`.
  function NumberLength(s: seq<char>): nat {
    RunLength(IsNumberChar, s)
  }

  lemma NumberStep(s: seq<char>, acc: seq<char>)
    requires |s| > 0 && IsNumberChar(s[0])
    ensures Many1Loop(NumberChar, s, acc) == Many1Loop(NumberChar, s[1..], acc + [s[0]])
  {
    assert NumberChar(s) == Ok(s[0], s[1..]);
  }

  lemma NumberStop(s: seq<char>, acc: seq<char>)
    requires !(|s| > 0 && IsNumberChar(s[0]))
    ensures Many1Loop(NumberChar, s, acc) == Ok(acc, s)
  {
    assert NumberChar(s).Err?;
  }

  /// The loop of `many1(one_of("0123456789_"))` takes the whole run of
  /// digits and underscores.
  lemma {:induction false} NumberLoop(s: seq<char>, acc: seq<char>)
    ensures Many1Loop(NumberChar, s, acc).Ok?
    ensures Many1Loop(NumberChar, s, acc).value == acc + s[..NumberLength(s)]
    ensures Many1Loop(NumberChar, s, acc).rest == s[NumberLength(s)..]
    decreases |s|
  {
    var n := NumberLength(s);
    if |s| > 0 && IsNumberChar(s[0]) {
      var m := NumberLength(s[1..]);
      assert n == 1 + m;
      NumberStep(s, acc);
      NumberLoop(s[1..], acc + [s[0]]);
      SliceCons(s, n, acc);
    } else {
      NumberStop(s, acc);
      assert acc + s[..0] == acc;
    }
  }

  /// `many1(one_of("0123456789_"))` succeeds when the input starts with a
  /// digit or underscore and then takes the whole run of them.
  lemma NumberRun(s: seq<char>)
    ensures Many1(NumberChar, s).Ok? <==> |s| > 0 && IsNumberChar(s[0])
    ensures Many1(NumberChar, s).Ok? ==>
      Many1(NumberChar, s).value == s[..NumberLength(s)] && Many1(NumberChar, s).rest == s[NumberLength(s)..]
  {
    if |s| > 0 && IsNumberChar(s[0]) {
      NumberLoop(s[1..], [s[0]]);
      assert [s[0]] + s[1..][..NumberLength(s) - 1] == s[..NumberLength(s)];
      assert s[1..][NumberLength(s) - 1..] == s[NumberLength(s)..];
    }
  }

  /// `parse_num`: the run of digits and underscores at the front is read,
  /// underscores dropped, as a decimal number. It fails when the run holds
  /// no digit or its value does not fit in a `u64`.
  lemma NumberValueShape(s: seq<char>)
    ensures
      var run := s[..NumberLength(s)];
      NumberValue(s).Ok? <==> AsciiDigits(run) != [] && DecimalValue(AsciiDigits(run)) <= U64_MAX
    ensures
      var run := s[..NumberLength(s)];
      NumberValue(s).Ok? ==> NumberValue(s).value == DecimalValue(AsciiDigits(run)) && NumberValue(s).rest == s[NumberLength(s)..]
  {
    NumberRun(s);
  }

  /// The same, in the context "number", as an expression.
  lemma NumberShape(s: seq<char>)
    ensures
      var run := s[..NumberLength(s)];
      ParseNum(s).Ok? <==> AsciiDigits(run) != [] && DecimalValue(AsciiDigits(run)) <= U64_MAX
    ensures
      var run := s[..NumberLength(s)];
      ParseNum(s).Ok? ==> ParseNum(s).value == Number(DecimalValue(AsciiDigits(run))) && ParseNum(s).rest == s[NumberLength(s)..]
  {
    NumberValueShape(s);
  }

  /// `Operator::parse`: exactly one of `+ - * /` is consumed and mapped to
  /// its operator; anything else fails.
  lemma OperatorShape(s: seq<char>)
    ensures ParseOperator(s).Ok? <==> |s| > 0 && s[0] in "+-*/"
    ensures ParseOperator(s).Ok? ==> ParseOperator(s).rest == s[1..]
    ensures |s| > 0 && s[0] == '+' ==> ParseOperator(s).Ok? && ParseOperator(s).value == Add
    ensures |s| > 0 && s[0] == '-' ==> ParseOperator(s).Ok? && ParseOperator(s).value == Sub
    ensures |s| > 0 && s[0] == '*' ==> ParseOperator(s).Ok? && ParseOperator(s).value == Mul
    ensures |s| > 0 && s[0] == '/' ==> ParseOperator(s).Ok? && ParseOperator(s).value == Div
  {
  }

  /// `bracketed(child)` succeeds exactly when `(` comes first, the child
  /// succeeds after it and `)` follows the child; the value is the child's
  /// and what is left is what follows the `)`.
  lemma BracketedShape<T>(child: Parser<T>, s: seq<char>)
    requires |s| > 0 ==> Sound(child, |s| - 1)
    ensures Bracketed(child, s).Ok? <==>
      && |s| > 0 && s[0] == '('
      && child(s[1..]).Ok?
      && |child(s[1..]).rest| > 0 && child(s[1..]).rest[0] == ')'
    ensures Bracketed(child, s).Ok? ==>
      Bracketed(child, s) == Ok(child(s[1..]).value, child(s[1..]).rest[1..])
  {
  }

  /// `Expression::parse` tries its alternatives in a fixed order, each on
  /// the same input: the result is the first that succeeds. Arithmetic is
  /// tried first ...
  lemma ExpressionIsArithmetic(s: seq<char>)
    requires ParseArithmetic(s).Ok?
    ensures ParseExpression(s) == ParseArithmetic(s)
  {
  }

  /// ... then a number ...
  lemma ExpressionIsNumber(s: seq<char>)
    requires ParseArithmetic(s).Err? && ParseNum(s).Ok?
    ensures ParseExpression(s) == ParseNum(s)
  {
  }

  /// ... then a let-in block ...
  lemma ExpressionIsLetIn(s: seq<char>)
    requires ParseArithmetic(s).Err? && ParseNum(s).Err? && ParseLetIn(s).Ok?
    ensures ParseExpression(s) == ParseLetIn(s)
  {
  }

  /// ... then a function invocation ...
  lemma ExpressionIsInvocation(s: seq<char>)
    requires ParseArithmetic(s).Err? && ParseNum(s).Err? && ParseLetIn(s).Err? && ParseInvocation(s).Ok?
    ensures ParseExpression(s).Ok?
    ensures ParseExpression(s).value == Invocation(ParseInvocation(s).value)
    ensures ParseExpression(s).rest == ParseInvocation(s).rest
  {
  }

  /// ... and last a name.
  lemma ExpressionIsName(s: seq<char>)
    requires ParseArithmetic(s).Err? && ParseNum(s).Err? && ParseLetIn(s).Err? && ParseInvocation(s).Err?
    requires ParseIdentifier(s).Ok?
    ensures ParseExpression(s).Ok?
    ensures ParseExpression(s).value == Name(ParseIdentifier(s).value)
    ensures ParseExpression(s).rest == ParseIdentifier(s).rest
  {
  }

  /// When every alternative fails, the error is the last alternative's (the
  /// name's) with `alt` and then the "expression" context added: nom's
  /// `VerboseError` keeps only the error of the last branch tried.
  lemma ExpressionError(s: seq<char>)
    ensures ParseExpression(s).Err? <==>
      && ParseArithmetic(s).Err? && ParseNum(s).Err? && ParseLetIn(s).Err?
      && ParseInvocation(s).Err? && ParseIdentifier(s).Err?
    ensures ParseExpression(s).Err? ==>
      ParseExpression(s).trail
      == ParseIdentifier(s).trail + [Entry(|s|, Nom(AltKind)), Entry(|s|, Context("expression"))]
  {
    var last := ParseIdentifier(s).Map(NameOf);
    var alternatives :=
      Or(ParseArithmetic(s),
      Or(ParseNum(s),
      Or(ParseLetIn(s),
      Or(ParseInvocation(s).Map(InvocationOf), last))));
    assert ParseExpression(s) == WithContext("expression", s, Alt(s, alternatives));
    if alternatives.Err? {
      assert alternatives == last;
      AppendTwo(ParseIdentifier(s).trail, Entry(|s|, Nom(AltKind)), Entry(|s|, Context("expression")));
    }
  }

  lemma ArithmeticNeedsParen(s: seq<char>)
    requires s == [] || s[0] != '('
    ensures ParseArithmetic(s).Err?
  {
  }

  lemma NumberNeedsDigit(s: seq<char>)
    requires s == [] || !IsNumberChar(s[0])
    ensures ParseNum(s).Err?
  {
    NumberRun(s);
  }

  lemma LetInNeedsLet(s: seq<char>)
    requires s == [] || s[0] != 'l'
    ensures ParseLetIn(s).Err?
  {
  }

  lemma InvocationNeedsName(s: seq<char>)
    requires ParseIdentifier(s).Err?
    ensures ParseInvocation(s).Err?
  {
  }

  /// A name not followed by `(` is not an invocation.
  lemma InvocationNeedsParen(s: seq<char>)
    requires ParseIdentifier(s).Ok?
    requires ParseIdentifier(s).rest == [] || ParseIdentifier(s).rest[0] != '('
    ensures ParseInvocation(s).Err?
  {
  }
  /// The arguments of a call are followed by its closing `)`.
  lemma InvocationNeedsClose(s: seq<char>, args: seq<char>)
    requires ParseIdentifier(s).Ok? && ParseIdentifier(s).rest == "(" + args
    requires
      var list := SeparatedList0(", ", ExpressionParser(|args|), args);
      !(list.Ok? && |list.rest| > 0 && list.rest[0] == ')')
    ensures ParseInvocation(s).Err?
  {
    ConcatSplit("(", args);
    assert OneChar('(', ParseIdentifier(s).rest).rest == args;
  }


  /// Input that starts with none of `(`, a digit, an underscore or a letter
  /// is not an expression.
  lemma ExpressionNeedsStart(s: seq<char>)
    requires s == [] || (s[0] != '(' && !IsNumberChar(s[0]) && !IsAlpha(s[0]))
    ensures ParseExpression(s).Err?
  {
    ArithmeticNeedsParen(s);
    NumberNeedsDigit(s);
    if |s| > 0 {
      AsciiClasses('l');
    }
    LetInNeedsLet(s);
    IdentifierShape(s);
    InvocationNeedsName(s);
    ExpressionError(s);
  }

  /// The end of a let-in block, as text: optional whitespace, `in`,
  /// optional whitespace, then `body` read as an expression, leaving `rest`.
  predicate ClosesBlock(t: seq<char>, body: Expression, rest: seq<char>) {
    var u := MultiSpace0(t).rest;
    && "in" <= u
    && ParseExpression(MultiSpace0(u[2..]).rest) == Ok(body, rest)
  }

  /// `terminated(preceded(multispace0, tag("in")), multispace0)` followed
  /// by the body succeeds exactly when `in` comes after the whitespace and
  /// an expression after the whitespace that follows it.
  lemma InThenBodyShape(t: seq<char>)
    ensures InThenBody(t).Ok? <==>
      var u := MultiSpace0(t).rest;
      "in" <= u && ParseExpression(MultiSpace0(u[2..]).rest).Ok?
    ensures InThenBody(t).Ok? ==> ClosesBlock(t, InThenBody(t).value, InThenBody(t).rest)
  {
    var u := MultiSpace0(t).rest;
    if "in" <= u {
      assert Tag("in", u).rest == u[2..];
    }
  }

  /// A binding line is optional whitespace, an assignment and a newline:
  /// it succeeds exactly when the assignment does and is followed by `\n`,
  /// which is consumed.
  lemma BindingLineShape(t: seq<char>)
    ensures BindingLine(t).Ok? <==>
      var a := ParseAssignment(MultiSpace0(t).rest);
      a.Ok? && |a.rest| > 0 && a.rest[0] == '\n'
    ensures BindingLine(t).Ok? ==>
      var a := ParseAssignment(MultiSpace0(t).rest);
      BindingLine(t).value == a.value && BindingLine(t).rest == a.rest[1..]
  {
  }

  /// `Expression::parse_let_in` reads nothing that does not start with
  /// `let` and a newline.
  lemma LetInStartsWithLet(s: seq<char>)
    ensures ParseLetIn(s).Ok? ==> "let\n" <= s
  {
    LetHeader(s);
    if !("let\n" <= s) {
      LetInNeedsHeader(s);
    }
  }

  /// `Expression::parse_let_in` after `let` and a newline: one or more
  /// binding lines, then the end of the block (`in` between optional
  /// whitespace, and the body). It succeeds exactly when both are there;
  /// the bindings are the lines read and the body is what follows `in`.
  lemma LetInShape(lines: seq<char>)
    ensures
      var s := "let" + ("\n" + lines);
      var read := Many1(BindingLineParser(|lines|), lines);
      && (ParseLetIn(s).Ok? <==>
          && read.Ok?
          && (var u := MultiSpace0(read.rest).rest;
              "in" <= u && ParseExpression(MultiSpace0(u[2..]).rest).Ok?))
      && (ParseLetIn(s).Ok? ==>
          && read.Ok?
          && ParseLetIn(s).value.LetIn?
          && ParseLetIn(s).value.bindings == read.value
          && |read.value| > 0
          && ClosesBlock(read.rest, ParseLetIn(s).value.body, ParseLetIn(s).rest))
  {
    var s := "let" + ("\n" + lines);
    ConcatSplit("let", "\n" + lines);
    ConcatSplit("\n", lines);
    assert Tag("let", s).rest == "\n" + lines;
    LetInStages(s, lines, |lines|);
    var read := Many1(BindingLineParser(|lines|), lines);
    if read.Ok? {
      InThenBodyShape(read.rest);
    }
  }

  lemma LetInNeedsHeader(s: seq<char>)
    requires !(Tag("let", s).Ok? && Newline(Tag("let", s).rest).Ok?)
    ensures ParseLetIn(s).Err?
  {
  }

  /// The stages of `Expression::parse_let_in` after `let\n`, which leaves
  /// `t`.
  lemma LetInStages(s: seq<char>, t: seq<char>, bound: nat)
    requires Tag("let", s).Ok? && Newline(Tag("let", s).rest).Ok?
    requires Newline(Tag("let", s).rest).rest == t && bound == |t|
    ensures
      var lines := Many1(BindingLineParser(bound), t);
      && (ParseLetIn(s).Ok? <==> lines.Ok? && InThenBody(lines.rest).Ok?)
      && (ParseLetIn(s).Ok? ==> ParseLetIn(s) == Ok(LetIn(lines.value, InThenBody(lines.rest).value), InThenBody(lines.rest).rest))
  {
  }

  /// `tag("let")` then `newline` succeed exactly on `let\n`, and leave what
  /// follows it.
  lemma LetHeader(s: seq<char>)
    ensures Tag("let", s).Ok? && Newline(Tag("let", s).rest).Ok? <==> "let\n" <= s
    ensures "let\n" <= s ==> Newline(Tag("let", s).rest).rest == s[4..]
  {
    if "let" <= s && |s| > 3 && s[3] == '\n' {
      assert s[..4] == s[..3] + [s[3]];
    }
  }

  /// `Assignment::parse` composed from its parts: a name, ` = `, an
  /// expression.
  lemma AssignmentComposed(s: seq<char>, afterEq: seq<char>)
    requires ParseIdentifier(s).Ok? && ParseIdentifier(s).rest == " = " + afterEq
    requires ParseExpression(afterEq).Ok?
    ensures ParseAssignment(s).Ok?
    ensures ParseAssignment(s).value == Assignment(ParseIdentifier(s).value, ParseExpression(afterEq).value)
    ensures ParseAssignment(s).rest == ParseExpression(afterEq).rest
  {
    var r1 := ParseIdentifier(s).rest;
    ConcatSplit(" = ", afterEq);
    assert Tag(" = ", r1).rest == afterEq;
  }

  /// A binding line composed from its parts: whitespace, an assignment, a
  /// newline.
  lemma BindingLineComposed(s: seq<char>, line: seq<char>, more: seq<char>)
    requires MultiSpace0(s).rest == line
    requires ParseAssignment(line).Ok? && ParseAssignment(line).rest == "\n" + more
    ensures BindingLine(s).Ok?
    ensures BindingLine(s).value == ParseAssignment(line).value
    ensures BindingLine(s).rest == more
  {
    ConcatSplit("\n", more);
    assert Newline("\n" + more).rest == more;
  }

  /// The end of a let-in block composed from its parts: whitespace, `in`,
  /// whitespace, the body.
  lemma InThenBodyComposed(s: seq<char>, afterIn: seq<char>, body: seq<char>)
    requires MultiSpace0(s).rest == "in" + afterIn
    requires MultiSpace0(afterIn).rest == body
    requires ParseExpression(body).Ok?
    ensures InThenBody(s).Ok?
    ensures InThenBody(s).value == ParseExpression(body).value
    ensures InThenBody(s).rest == ParseExpression(body).rest
  {
    ConcatSplit("in", afterIn);
    assert Tag("in", "in" + afterIn).rest == afterIn;
  }

  /// A let-in block composed from its parts: `let`, a newline, the binding
  /// lines, the end of the block.
  lemma LetInComposed(lines: seq<char>)
    requires Many1(BindingLineParser(|lines|), lines).Ok?
    requires InThenBody(Many1(BindingLineParser(|lines|), lines).rest).Ok?
    ensures
      var s := "let" + ("\n" + lines);
      var bindings := Many1(BindingLineParser(|lines|), lines);
      var end := InThenBody(bindings.rest);
      && ParseLetIn(s).Ok?
      && ParseLetIn(s).value == LetIn(bindings.value, end.value)
      && ParseLetIn(s).rest == end.rest
  {
    var s := "let" + ("\n" + lines);
    ConcatSplit("let", "\n" + lines);
    ConcatSplit("\n", lines);
    var r1 := Tag("let", s);
    assert r1.Ok? && r1.rest == "\n" + lines;
    var r2 := Newline(r1.rest);
    assert r2.Ok? && r2.rest == lines;
    var bindings := Many1(BindingLineParser(|lines|), lines);
    var end := InThenBody(bindings.rest);
    var parts := LetInParts(s);
    assert parts.Ok?;
    assert parts.value == LetIn(bindings.value, end.value);
  }

  /// A function invocation composed from its parts: a name, `(`, the
  /// arguments, `)`.
  lemma InvocationComposed(s: seq<char>, args: seq<char>, rest: seq<char>)
    requires ParseIdentifier(s).Ok? && ParseIdentifier(s).rest == "(" + args
    requires SeparatedList0(", ", ExpressionParser(|args|), args).Ok?
    requires SeparatedList0(", ", ExpressionParser(|args|), args).rest == ")" + rest
    ensures ParseInvocation(s).Ok?
    ensures ParseInvocation(s).value ==
      FnInvocation(ParseIdentifier(s).value, SeparatedList0(", ", ExpressionParser(|args|), args).value)
    ensures ParseInvocation(s).rest == rest
  {
    var name := ParseIdentifier(s);
    ConcatSplit("(", args);
    var open := OneChar('(', name.rest);
    assert open.Ok? && open.rest == args;
    var list := SeparatedList0(", ", ExpressionParser(|args|), args);
    ConcatSplit(")", rest);
    var close := OneChar(')', list.rest);
    assert close.Ok? && close.rest == rest;
    var parts := InvocationParts(s);
    assert parts.Ok? && parts.value == FnInvocation(name.value, list.value) && parts.rest == rest;
  }

  /// Arithmetic composed from its parts: `(`, the inside, `)`.
  lemma ArithmeticComposed(inner: seq<char>, rest: seq<char>)
    requires ArithmeticParts(inner).Ok? && ArithmeticParts(inner).rest == ")" + rest
    ensures ParseArithmetic("(" + inner).Ok?
    ensures ParseArithmetic("(" + inner).value == ArithmeticOf(ArithmeticParts(inner).value)
    ensures ParseArithmetic("(" + inner).rest == rest
  {
    var s := "(" + inner;
    assert s[1..] == inner;
    var child := ArithmeticPartsParser(|s| - 1);
    assert child(inner) == ArithmeticParts(inner);
    BracketedShape(child, s);
    assert ArithmeticParts(inner).rest[1..] == rest;
  }

  /// The inside of arithmetic composed from its parts: an expression, a
  /// space, an operator, a space, an expression.
  lemma ArithmeticPartsComposed(s: seq<char>, afterLhs: seq<char>, afterOp: seq<char>)
    requires ParseExpression(s).Ok? && ParseExpression(s).rest == " " + afterLhs
    requires ParseOperator(afterLhs).Ok? && ParseOperator(afterLhs).rest == " " + afterOp
    requires ParseExpression(afterOp).Ok?
    ensures ArithmeticParts(s).Ok?
    ensures ArithmeticParts(s).value ==
      (ParseExpression(s).value, ParseOperator(afterLhs).value, ParseExpression(afterOp).value)
    ensures ArithmeticParts(s).rest == ParseExpression(afterOp).rest
  {
    ConcatSplit(" ", afterLhs);
    ConcatSplit(" ", afterOp);
    var lhs := ParseExpression(s);
    var space1 := OneChar(' ', lhs.rest);
    assert space1.Ok? && space1.rest == afterLhs;
    var op := ParseOperator(afterLhs);
    var space2 := OneChar(' ', op.rest);
    assert space2.Ok? && space2.rest == afterOp;
    var rhs := ParseExpression(afterOp);
    var parts := ArithmeticParts(s);
    assert parts.Ok?;
    assert parts.value == (lhs.value, op.value, rhs.value);
  }

  /// An assignment starts with a name.
  lemma AssignmentNeedsName(s: seq<char>)
    requires ParseIdentifier(s).Err?
    ensures ParseAssignment(s).Err?
  {
  }

  /// The name of an assignment is followed by exactly ` = `.
  lemma AssignmentNeedsEquals(s: seq<char>)
    requires ParseIdentifier(s).Ok?
    requires !(" = " <= ParseIdentifier(s).rest)
    ensures ParseAssignment(s).Err?
  {
  }

  /// A binding line holds an assignment after its indentation.
  lemma BindingLineNeedsAssignment(s: seq<char>)
    requires ParseAssignment(MultiSpace0(s).rest).Err?
    ensures BindingLine(s).Err?
  {
  }

  /// A parameter starts with a name.
  lemma ParameterNeedsName(s: seq<char>)
    requires ParseIdentifier(s).Err?
    ensures ParseParameter(s).Err?
  {
  }

  /// The name of a parameter is followed by exactly `: `.
  lemma ParameterNeedsColon(s: seq<char>)
    requires ParseIdentifier(s).Ok?
    requires !(": " <= ParseIdentifier(s).rest)
    ensures ParseParameter(s).Err?
  {
  }

  /// A parameter composed from its parts: a name, `: `, a type name.
  lemma ParameterComposed(s: seq<char>, afterColon: seq<char>)
    requires ParseIdentifier(s).Ok? && ParseIdentifier(s).rest == ": " + afterColon
    requires ParseIdentifier(afterColon).Ok?
    ensures ParseParameter(s).Ok?
    ensures ParseParameter(s).value == Parameter(ParseIdentifier(s).value, ParseIdentifier(afterColon).value)
    ensures ParseParameter(s).rest == ParseIdentifier(afterColon).rest
  {
    ConcatSplit(": ", afterColon);
    var colon := Tag(": ", ParseIdentifier(s).rest);
    assert colon.Ok? && colon.rest == afterColon;
  }

  /// A type signature composed from its parts: the parameter list, ` -> `,
  /// the return type.
  lemma SignatureComposed(s: seq<char>, afterArrow: seq<char>)
    requires SeparatedList0(", ", ParseParameter, s).Ok?
    requires SeparatedList0(", ", ParseParameter, s).rest == " -> " + afterArrow
    requires ParseIdentifier(afterArrow).Ok?
    ensures SignatureParts(s).Ok?
    ensures SignatureParts(s).value == (SeparatedList0(", ", ParseParameter, s).value, ParseIdentifier(afterArrow).value)
    ensures SignatureParts(s).rest == ParseIdentifier(afterArrow).rest
  {
    ConcatSplit(" -> ", afterArrow);
    var arrow := Tag(" -> ", " -> " + afterArrow);
    assert arrow.Ok? && arrow.rest == afterArrow;
  }

  /// A bracketed type signature: `(`, the signature, `)`.
  lemma BracketedSignature(inner: seq<char>, rest: seq<char>)
    requires SignatureParts(inner).Ok? && SignatureParts(inner).rest == ")" + rest
    ensures Bracketed(SignatureParts, "(" + inner).Ok?
    ensures Bracketed(SignatureParts, "(" + inner).value == SignatureParts(inner).value
    ensures Bracketed(SignatureParts, "(" + inner).rest == rest
  {
    var s := "(" + inner;
    assert s[1..] == inner;
    BracketedShape(SignatureParts, s);
    assert SignatureParts(inner).rest[1..] == rest;
  }

  /// ` =>` and the whitespace after it.
  lemma ArrowThenSpaceShape(space: seq<char>, body: seq<char>)
    requires MultiSpace0(space + body).rest == body
    ensures ArrowThenSpace(" =>" + (space + body)).Ok?
    ensures ArrowThenSpace(" =>" + (space + body)).rest == body
  {
    ConcatSplit(" =>", space + body);
    var arrow := Tag(" =>", " =>" + (space + body));
    assert arrow.Ok? && arrow.rest == space + body;
  }

  /// A function definition composed from its parts: a name, ` = `, the
  /// bracketed signature, ` =>` with whitespace, the body.
  lemma FnDefComposed(s: seq<char>, afterEq: seq<char>, body: seq<char>)
    requires ParseIdentifier(s).Ok? && ParseIdentifier(s).rest == " = " + afterEq
    requires Bracketed(SignatureParts, afterEq).Ok?
    requires ArrowThenSpace(Bracketed(SignatureParts, afterEq).rest).Ok?
    requires ArrowThenSpace(Bracketed(SignatureParts, afterEq).rest).rest == body
    requires ParseExpression(body).Ok?
    ensures ParseFnDef(s).Ok?
    ensures
      var signature := Bracketed(SignatureParts, afterEq).value;
      ParseFnDef(s).value == FnDef(ParseIdentifier(s).value, signature.0, signature.1, ParseExpression(body).value)
    ensures ParseFnDef(s).rest == ParseExpression(body).rest
  {
    ConcatSplit(" = ", afterEq);
    var eq := Tag(" = ", ParseIdentifier(s).rest);
    assert eq.Ok? && eq.rest == afterEq;
    var parts := FnDefParts(s);
    assert parts.Ok?;
  }
}
