/// The grammar reads back what the printer writes: for every well-formed
/// node and every layout of the optional whitespace, parsing the printed
/// text yields the node and leaves what followed it untouched.
module RoundTrip {
  import opened Chars
  import opened Combinators
  import opened Seqs
  import opened Ast
  import opened Grammar
  import opened GrammarFacts
  import opened Printer

  /// What may follow a printed expression without changing how it is read:
  /// nothing, or a character that can neither continue a name or number nor
  /// turn a name into a call.
  predicate SafeFollower(rest: seq<char>) {
    rest == [] || (!IsAlnum(rest[0]) && rest[0] != '_' && rest[0] != '(')
  }

  /// The printed digits read back as the number.
  lemma {:induction false} DigitsValue(n: nat)
    ensures AsciiDigits(Digits(n)) == Digits(n)
    ensures DecimalValue(Digits(n)) == n
  {
    var ds := Digits(n);
    var last := DigitChar(n % 10);
    if n < 10 {
      assert ds == [last];
      assert ds[..0] == [];
    } else {
      var front := Digits(n / 10);
      assert ds == front + [last];
      assert ds[..|ds| - 1] == front;
      DigitsValue(n / 10);
      assert AsciiDigits(ds) == front + [last];
      assert DecimalValue(ds) == (n / 10) * 10 + n % 10;
    }
  }

  lemma NumberRoundTrip(n: U64, rest: seq<char>)
    requires rest == [] || !IsNumberChar(rest[0])
    ensures ParseNum(Digits(n) + rest).Ok?
    ensures ParseNum(Digits(n) + rest).value == Number(n)
    ensures ParseNum(Digits(n) + rest).rest == rest
  {
    var ds := Digits(n);
    var s := ds + rest;
    forall k | 0 <= k < |ds|
      ensures IsNumberChar(s[k])
    {
      assert s[k] == ds[k];
      NumberCharIs(s[k]);
    }
    if rest != [] {
      assert s[|ds|] == rest[0];
    }
    RunLengthExact(IsNumberChar, s, |ds|);
    ConcatSplit(ds, rest);
    NumberShape(s);
    DigitsValue(n);
  }

  lemma IdentifierRoundTrip(id: Identifier, rest: seq<char>)
    requires ValidName(id)
    requires rest == [] || !IsAlnum(rest[0])
    ensures ParseIdentifier(id.text + rest).Ok?
    ensures ParseIdentifier(id.text + rest).value == id
    ensures ParseIdentifier(id.text + rest).rest == rest
  {
    WordOf(id.text, rest);
    IdentifierShape(id.text + rest);
  }

  /// Printed expressions start with `(`, a digit or a letter: never with
  /// whitespace, so the `multispace0` before one stops exactly at its start.
  lemma StartChar(e: Expression, lay: Layout)
    requires WellFormed(e)
    ensures |PrintExpression(e, lay)| > 0
    ensures var c := PrintExpression(e, lay)[0]; c == '(' || IsAsciiDigit(c) || IsAlpha(c)
    ensures !IsMultispace(PrintExpression(e, lay)[0])
  {
    var p := PrintExpression(e, lay);
    match e
    case Number(n) =>
      assert p == Digits(n);
      assert IsAsciiDigit(p[0]);
    case Invocation(call) =>
      var text := call.fnName.text;
      assert p == PrintCall(call, lay);
      assert p == text + "(" + PrintArgs(call.args, lay) + ")";
      assert p[0] == text[0];
    case Name(id) =>
      assert p[0] == id.text[0];
    case LetIn(_, _) =>
      assert p[0] == 'l';
      AsciiClasses('l');
    case Arithmetic(_, _, _) =>
      assert p[0] == '(';
  }

  /// A word other than `let` followed by a character that ends it is not
  /// the start of a let-in block.
  lemma NotLetBlock(word: string, rest: seq<char>)
    requires |word| > 0 && word != "let"
    requires forall k :: 0 <= k < |word| ==> IsAlnum(word[k])
    requires rest == [] || !IsAlnum(rest[0])
    ensures !("let\n" <= word + rest)
  {
    var s := word + rest;
    AsciiClasses('\n');
    if |word| >= 4 {
      assert s[3] == word[3];
    } else if |word| == 3 {
      assert s[..3] == word;
    } else if |s| > |word| {
      assert s[|word|] == rest[0];
      AsciiClasses('l');
      AsciiClasses('e');
      AsciiClasses('t');
    }
  }

  /// A name is read by the last alternative of `Expression::parse`.
  lemma NameCase(id: Identifier, lay: Layout, rest: seq<char>)
    requires ValidName(id)
    requires SafeFollower(rest)
    ensures ParseExpression(id.text + rest).Ok?
    ensures ParseExpression(id.text + rest).value == Name(id)
    ensures ParseExpression(id.text + rest).rest == rest
  {
    var s := id.text + rest;
    assert s[0] == id.text[0];
    AsciiClasses(s[0]);
    AsciiClasses('_');
    NumberCharIs(s[0]);
    ArithmeticNeedsParen(s);
    NumberNeedsDigit(s);
    NotLetBlock(id.text, rest);
    LetInStartsWithLet(s);
    IdentifierRoundTrip(id, rest);
    InvocationNeedsParen(s);
    ExpressionIsName(s);
  }

  /// `multispace0` skips exactly the whitespace in front of text that does
  /// not start with whitespace.
  lemma SkipSpace(ws: string, t: seq<char>)
    requires AllSpace(ws)
    requires t == [] || !IsMultispace(t[0])
    ensures MultiSpace0(ws + t).rest == t
  {
    var s := ws + t;
    forall k | 0 <= k < |ws|
      ensures IsMultispace(s[k])
    {
      assert s[k] == ws[k];
    }
    if t != [] {
      assert s[|ws|] == t[0];
    }
    RunLengthExact(IsMultispace, s, |ws|);
    ConcatSplit(ws, t);
  }

  /// Every well-formed expression, printed with any layout and followed by
  /// anything that cannot extend it, parses back to itself.
  lemma ExprRoundTrip(e: Expression, lay: Layout, rest: seq<char>)
    requires WellFormed(e) && ValidLayout(lay) && SafeFollower(rest)
    ensures ParseExpression(PrintExpression(e, lay) + rest).Ok?
    ensures ParseExpression(PrintExpression(e, lay) + rest).value == e
    ensures ParseExpression(PrintExpression(e, lay) + rest).rest == rest
    decreases e, 3, 0
  {
    match e
    case Number(n) =>
      NumberCase(n, lay, rest);
    case Invocation(call) =>
      InvocationCase(e, lay, rest);
    case Name(id) =>
      NameCase(id, lay, rest);
    case LetIn(_, _) =>
      LetInCase(e, lay, rest);
    case Arithmetic(_, _, _) =>
      ArithmeticCase(e, lay, rest);
  }

  /// A number is read by the second alternative.
  lemma NumberCase(n: U64, lay: Layout, rest: seq<char>)
    requires SafeFollower(rest)
    ensures ParseExpression(PrintExpression(Number(n), lay) + rest).Ok?
    ensures ParseExpression(PrintExpression(Number(n), lay) + rest).value == Number(n)
    ensures ParseExpression(PrintExpression(Number(n), lay) + rest).rest == rest
  {
    var s := Digits(n) + rest;
    assert s[0] == Digits(n)[0];
    AsciiClasses('(');
    ArithmeticNeedsParen(s);
    if rest != [] {
      AsciiClasses(rest[0]);
      NumberCharIs(rest[0]);
    }
    NumberRoundTrip(n, rest);
    ExpressionIsNumber(s);
  }

  /// `( lhs op rhs )` is read by the first alternative.
  lemma ArithmeticCase(e: Expression, lay: Layout, rest: seq<char>)
    requires e.Arithmetic? && WellFormed(e) && ValidLayout(lay) && SafeFollower(rest)
    ensures ParseExpression(PrintExpression(e, lay) + rest).Ok?
    ensures ParseExpression(PrintExpression(e, lay) + rest).value == e
    ensures ParseExpression(PrintExpression(e, lay) + rest).rest == rest
    decreases e, 2, 0
  {
    var tail := ")" + rest;
    var inner := PrintExpression(e.lhs, lay) + (" " + ([OperatorChar(e.op)] + (" " + (PrintExpression(e.rhs, lay) + tail))));
    var s := PrintExpression(e, lay) + rest;
    Regroup8("(", PrintExpression(e.lhs, lay), " ", [OperatorChar(e.op)], " ", PrintExpression(e.rhs, lay), ")", rest);
    assert s == "(" + inner;
    AsciiClasses(')');
    ArithmeticPartsRoundTrip(e, lay, tail);
    ArithmeticComposed(inner, rest);
    ExpressionIsArithmetic(s);
  }

  /// The inside of the brackets: `lhs op rhs`, the operator between single
  /// spaces.
  lemma ArithmeticPartsRoundTrip(e: Expression, lay: Layout, tail: seq<char>)
    requires e.Arithmetic? && WellFormed(e) && ValidLayout(lay) && SafeFollower(tail)
    ensures
      var inner := PrintExpression(e.lhs, lay) + (" " + ([OperatorChar(e.op)] + (" " + (PrintExpression(e.rhs, lay) + tail))));
      && ArithmeticParts(inner).Ok?
      && ArithmeticParts(inner).value == (e.lhs, e.op, e.rhs)
      && ArithmeticParts(inner).rest == tail
    decreases e, 1, 0
  {
    var afterOp := PrintExpression(e.rhs, lay) + tail;
    var afterLhs := [OperatorChar(e.op)] + (" " + afterOp);
    var inner := PrintExpression(e.lhs, lay) + (" " + afterLhs);
    AsciiClasses(' ');
    ExprRoundTrip(e.lhs, lay, " " + afterLhs);
    OperatorRoundTrip(e.op, " " + afterOp);
    ExprRoundTrip(e.rhs, lay, tail);
    ArithmeticPartsComposed(inner, afterLhs, afterOp);
  }

  /// `Operator::parse` reads back the operator's symbol.
  lemma OperatorRoundTrip(op: Operator, rest: seq<char>)
    ensures ParseOperator([OperatorChar(op)] + rest).Ok?
    ensures ParseOperator([OperatorChar(op)] + rest).value == op
    ensures ParseOperator([OperatorChar(op)] + rest).rest == rest
  {
    var s := [OperatorChar(op)] + rest;
    OperatorShape(s);
    assert s[1..] == rest;
  }

  /// What follows an argument: `", "` and the next one, or the closing
  /// bracket.
  lemma ArgsFollower(args: seq<Expression>, lay: Layout, tail: seq<char>)
    requires |tail| > 0 && tail[0] == ')'
    ensures SafeFollower(PrintMoreArgs(args, lay) + tail)
    ensures |PrintMoreArgs(args, lay) + tail| > 0
    ensures (PrintMoreArgs(args, lay) + tail)[0] in ",)"
  {
    AsciiClasses(')');
    AsciiClasses(',');
    if args != [] {
      assert (PrintMoreArgs(args, lay) + tail)[0] == ',';
    }
  }

  /// A function invocation is read by the fourth alternative: its name is
  /// followed by `(`, so it is neither a number nor a let-in block.
  lemma InvocationCase(e: Expression, lay: Layout, rest: seq<char>)
    requires e.Invocation? && WellFormed(e) && ValidLayout(lay) && SafeFollower(rest)
    ensures ParseExpression(PrintExpression(e, lay) + rest).Ok?
    ensures ParseExpression(PrintExpression(e, lay) + rest).value == e
    ensures ParseExpression(PrintExpression(e, lay) + rest).rest == rest
    decreases e, 2, 0
  {
    var name := e.call.fnName.text;
    var afterName := "(" + (PrintArgs(e.call.args, lay) + (")" + rest));
    var s := PrintExpression(e, lay) + rest;
    assert PrintExpression(e, lay) == PrintCall(e.call, lay);
    assert s == name + afterName;
    assert s[0] == name[0];
    AsciiClasses(s[0]);
    AsciiClasses('_');
    AsciiClasses('(');
    NumberCharIs(s[0]);
    ArithmeticNeedsParen(s);
    NumberNeedsDigit(s);
    NotLetBlock(name, afterName);
    LetInStartsWithLet(s);
    InvocationRoundTrip(e, lay, rest);
    ExpressionIsInvocation(s);
  }

  /// `FnInvocation::parse` reads back a printed call, whatever follows it.
  lemma InvocationRoundTrip(e: Expression, lay: Layout, rest: seq<char>)
    requires e.Invocation? && WellFormed(e) && ValidLayout(lay)
    ensures
      var s := e.call.fnName.text + ("(" + (PrintArgs(e.call.args, lay) + (")" + rest)));
      && ParseInvocation(s).Ok?
      && ParseInvocation(s).value == e.call
      && ParseInvocation(s).rest == rest
    decreases e, 1, |e.call.args| + 2
  {
    var args := PrintArgs(e.call.args, lay) + (")" + rest);
    var s := e.call.fnName.text + ("(" + args);
    AsciiClasses('(');
    IdentifierRoundTrip(e.call.fnName, "(" + args);
    ArgsRoundTrip(e, e.call.args, lay, ")" + rest, |args|);
    InvocationComposed(s, args, rest);
  }

  /// `separated_list0(tag(", "), Expression::parse)` reads back the
  /// printed arguments and stops at the closing bracket.
  lemma ArgsRoundTrip(parent: Expression, args: seq<Expression>, lay: Layout, tail: seq<char>, bound: nat)
    requires forall a | a in args :: a < parent && WellFormed(a)
    requires ValidLayout(lay)
    requires |tail| > 0 && tail[0] == ')'
    requires |PrintArgs(args, lay) + tail| <= bound
    ensures SeparatedList0(", ", ExpressionParser(bound), PrintArgs(args, lay) + tail).Ok?
    ensures SeparatedList0(", ", ExpressionParser(bound), PrintArgs(args, lay) + tail).value == args
    ensures SeparatedList0(", ", ExpressionParser(bound), PrintArgs(args, lay) + tail).rest == tail
    decreases parent, 1, |args| + 1
  {
    var p := ExpressionParser(bound);
    var s := PrintArgs(args, lay) + tail;
    SoundWeaken(p, bound, |s|);
    if args == [] {
      assert PrintArgs(args, lay) == [];
      assert s == tail;
      AsciiClasses(')');
      NumberCharIs(')');
      ExpressionNeedsStart(tail);
      ExpressionParserIs(bound, tail);
      SeparatedEmpty(", ", p, tail);
    } else {
      var more := PrintMoreArgs(args[1..], lay) + tail;
      assert PrintArgs(args, lay) == PrintExpression(args[0], lay) + PrintMoreArgs(args[1..], lay);
      assert s == PrintExpression(args[0], lay) + more;
      assert args[0] in args;
      ArgsFollower(args[1..], lay, tail);
      ExprRoundTrip(args[0], lay, more);
      ExpressionParserIs(bound, s);
      SeparatedFirst(", ", p, s);
      assert forall a | a in args[1..] :: a in args;
      ArgsLoop(parent, args[1..], lay, tail, bound, [args[0]]);
      var loop := SeparatedListLoop(", ", p, more, [args[0]]);
      assert SeparatedList0(", ", p, s) == loop;
      HeadTail(args);
    }
  }

  /// The loop of `separated_list0`: each `", "` is followed by an argument,
  /// and the closing bracket ends the list.
  lemma ArgsLoop(parent: Expression, args: seq<Expression>, lay: Layout, tail: seq<char>, bound: nat, acc: seq<Expression>)
    requires forall a | a in args :: a < parent && WellFormed(a)
    requires ValidLayout(lay)
    requires |tail| > 0 && tail[0] == ')'
    requires |PrintMoreArgs(args, lay) + tail| <= bound
    ensures SeparatedListLoop(", ", ExpressionParser(bound), PrintMoreArgs(args, lay) + tail, acc).Ok?
    ensures SeparatedListLoop(", ", ExpressionParser(bound), PrintMoreArgs(args, lay) + tail, acc).value == acc + args
    ensures SeparatedListLoop(", ", ExpressionParser(bound), PrintMoreArgs(args, lay) + tail, acc).rest == tail
    decreases parent, 1, |args|
  {
    var p := ExpressionParser(bound);
    var s := PrintMoreArgs(args, lay) + tail;
    SoundWeaken(p, bound, |s|);
    if args == [] {
      assert PrintMoreArgs(args, lay) == [];
      assert s == tail;
      SeparatedStop(", ", p, s, acc);
      AppendNil(acc, args);
    } else {
      var more := PrintMoreArgs(args[1..], lay) + tail;
      var item := PrintExpression(args[0], lay) + more;
      assert PrintMoreArgs(args, lay) == ", " + PrintExpression(args[0], lay) + PrintMoreArgs(args[1..], lay);
      assert s == ", " + item;
      ConcatSplit(", ", item);
      assert args[0] in args;
      ArgsFollower(args[1..], lay, tail);
      ExprRoundTrip(args[0], lay, more);
      ExpressionParserIs(bound, item);
      SeparatedStep(", ", p, s, acc);
      assert forall a | a in args[1..] :: a in args;
      ArgsLoop(parent, args[1..], lay, tail, bound, acc + [args[0]]);
      var loop := SeparatedListLoop(", ", p, more, acc + [args[0]]);
      assert SeparatedListLoop(", ", p, s, acc) == loop;
      AppendHead(acc, args);
    }
  }

  /// A let-in block is read by the third alternative.
  lemma LetInCase(e: Expression, lay: Layout, rest: seq<char>)
    requires e.LetIn? && WellFormed(e) && ValidLayout(lay) && SafeFollower(rest)
    ensures ParseExpression(PrintExpression(e, lay) + rest).Ok?
    ensures ParseExpression(PrintExpression(e, lay) + rest).value == e
    ensures ParseExpression(PrintExpression(e, lay) + rest).rest == rest
    decreases e, 2, 0
  {
    var lines := PrintBindings(e.bindings, lay) + BlockEnd(e.body, lay, rest);
    var s := PrintExpression(e, lay) + rest;
    Regroup8("let", "\n", PrintBindings(e.bindings, lay), lay.beforeIn, "in", lay.afterIn, PrintExpression(e.body, lay), rest);
    assert s == "let" + ("\n" + lines);
    assert s[0] == 'l';
    AsciiClasses('l');
    NumberCharIs('l');
    ArithmeticNeedsParen(s);
    NumberNeedsDigit(s);
    LetInRoundTrip(e, lay, rest);
    ExpressionIsLetIn(s);
  }

  /// The end of a block: `in` between the layout's whitespace, then the
  /// body.
  function BlockEnd(body: Expression, lay: Layout, rest: seq<char>): string {
    lay.beforeIn + ("in" + (lay.afterIn + (PrintExpression(body, lay) + rest)))
  }

  /// `Expression::parse_let_in` reads back a printed block.
  lemma LetInRoundTrip(e: Expression, lay: Layout, rest: seq<char>)
    requires e.LetIn? && WellFormed(e) && ValidLayout(lay) && SafeFollower(rest)
    ensures
      var s := "let" + ("\n" + (PrintBindings(e.bindings, lay) + BlockEnd(e.body, lay, rest)));
      && ParseLetIn(s).Ok?
      && ParseLetIn(s).value == e
      && ParseLetIn(s).rest == rest
    decreases e, 1, |e.bindings| + 2
  {
    var tail := BlockEnd(e.body, lay, rest);
    var lines := PrintBindings(e.bindings, lay) + tail;
    assert forall b | b in e.bindings :: b.value < e;
    BlockEndIsNoBinding(e.body, lay, rest);
    BindingsRoundTrip(e, e.bindings, lay, tail, |lines|);
    InThenBodyRoundTrip(e, e.body, lay, rest);
    LetInComposed(lines);
  }

  /// The line after the last binding is not a binding: it starts with the
  /// keyword `in`, which is not a name.
  lemma BlockEndIsNoBinding(body: Expression, lay: Layout, rest: seq<char>)
    requires ValidLayout(lay)
    ensures BindingLine(BlockEnd(body, lay, rest)).Err?
  {
    var afterIn := lay.afterIn + (PrintExpression(body, lay) + rest);
    AsciiClasses('i');
    SkipSpace(lay.beforeIn, "in" + afterIn);
    assert afterIn[0] == lay.afterIn[0];
    AsciiClasses(afterIn[0]);
    KeywordsRejected(afterIn);
    AssignmentNeedsName("in" + afterIn);
    BindingLineNeedsAssignment(BlockEnd(body, lay, rest));
  }

  /// `in`, the whitespace around it and the body.
  lemma InThenBodyRoundTrip(parent: Expression, body: Expression, lay: Layout, rest: seq<char>)
    requires body < parent && WellFormed(body) && ValidLayout(lay) && SafeFollower(rest)
    ensures InThenBody(BlockEnd(body, lay, rest)).Ok?
    ensures InThenBody(BlockEnd(body, lay, rest)).value == body
    ensures InThenBody(BlockEnd(body, lay, rest)).rest == rest
    decreases parent, 1, 0
  {
    var printed := PrintExpression(body, lay) + rest;
    var afterIn := lay.afterIn + printed;
    AsciiClasses('i');
    SkipSpace(lay.beforeIn, "in" + afterIn);
    StartChar(body, lay);
    assert printed[0] == PrintExpression(body, lay)[0];
    SkipSpace(lay.afterIn, printed);
    ExprRoundTrip(body, lay, rest);
    InThenBodyComposed(BlockEnd(body, lay, rest), afterIn, printed);
  }

  /// `many1` of binding lines reads back the printed bindings and stops at
  /// the end of the block.
  lemma BindingsRoundTrip(parent: Expression, bindings: seq<Assignment>, lay: Layout, tail: seq<char>, bound: nat)
    requires |bindings| > 0
    requires forall b | b in bindings :: b.value < parent && WellFormedAssignment(b)
    requires ValidLayout(lay)
    requires BindingLine(tail).Err?
    requires |PrintBindings(bindings, lay) + tail| <= bound
    ensures Many1(BindingLineParser(bound), PrintBindings(bindings, lay) + tail).Ok?
    ensures Many1(BindingLineParser(bound), PrintBindings(bindings, lay) + tail).value == bindings
    ensures Many1(BindingLineParser(bound), PrintBindings(bindings, lay) + tail).rest == tail
    decreases parent, 1, |bindings| + 1
  {
    var p := BindingLineParser(bound);
    var more := PrintBindings(bindings[1..], lay) + tail;
    var s := PrintBindings(bindings, lay) + tail;
    SoundWeaken(p, bound, |s|);
    assert PrintBindings(bindings, lay) ==
      lay.indent + PrintAssignment(bindings[0], lay) + "\n" + PrintBindings(bindings[1..], lay);
    Regroup(lay.indent, PrintAssignment(bindings[0], lay), "\n", PrintBindings(bindings[1..], lay), tail);
    assert bindings[0] in bindings;
    BindingLineRoundTrip(parent, bindings[0], lay, more);
    BindingLineParserIs(bound, s);
    Many1First(p, s);
    assert forall b | b in bindings[1..] :: b in bindings;
    BindingsLoop(parent, bindings[1..], lay, tail, bound, [bindings[0]]);
    var loop := Many1Loop(p, more, [bindings[0]]);
    assert Many1(p, s) == loop;
    HeadTail(bindings);
  }

  /// The loop of `many1`: one binding line per binding.
  lemma BindingsLoop(parent: Expression, bindings: seq<Assignment>, lay: Layout, tail: seq<char>, bound: nat, acc: seq<Assignment>)
    requires forall b | b in bindings :: b.value < parent && WellFormedAssignment(b)
    requires ValidLayout(lay)
    requires BindingLine(tail).Err?
    requires |PrintBindings(bindings, lay) + tail| <= bound
    ensures Many1Loop(BindingLineParser(bound), PrintBindings(bindings, lay) + tail, acc).Ok?
    ensures Many1Loop(BindingLineParser(bound), PrintBindings(bindings, lay) + tail, acc).value == acc + bindings
    ensures Many1Loop(BindingLineParser(bound), PrintBindings(bindings, lay) + tail, acc).rest == tail
    decreases parent, 1, |bindings|
  {
    var p := BindingLineParser(bound);
    var s := PrintBindings(bindings, lay) + tail;
    SoundWeaken(p, bound, |s|);
    if bindings == [] {
      assert PrintBindings(bindings, lay) == [];
      assert s == tail;
      BindingLineParserIs(bound, tail);
      Many1LoopStop(p, tail, acc);
      AppendNil(acc, bindings);
    } else {
      var more := PrintBindings(bindings[1..], lay) + tail;
      assert PrintBindings(bindings, lay) ==
        lay.indent + PrintAssignment(bindings[0], lay) + "\n" + PrintBindings(bindings[1..], lay);
      Regroup(lay.indent, PrintAssignment(bindings[0], lay), "\n", PrintBindings(bindings[1..], lay), tail);
      assert bindings[0] in bindings;
      BindingLineRoundTrip(parent, bindings[0], lay, more);
      BindingLineParserIs(bound, s);
      Many1LoopStep(p, s, acc);
      assert forall b | b in bindings[1..] :: b in bindings;
      BindingsLoop(parent, bindings[1..], lay, tail, bound, acc + [bindings[0]]);
      var loop := Many1Loop(p, more, acc + [bindings[0]]);
      assert Many1Loop(p, s, acc) == loop;
      AppendHead(acc, bindings);
    }
  }

  /// One binding line: its indentation, the assignment and the newline.
  lemma BindingLineRoundTrip(parent: Expression, b: Assignment, lay: Layout, more: seq<char>)
    requires b.value < parent && WellFormedAssignment(b) && ValidLayout(lay)
    ensures BindingLine(lay.indent + (PrintAssignment(b, lay) + ("\n" + more))).Ok?
    ensures BindingLine(lay.indent + (PrintAssignment(b, lay) + ("\n" + more))).value == b
    ensures BindingLine(lay.indent + (PrintAssignment(b, lay) + ("\n" + more))).rest == more
    decreases parent, 0, 0
  {
    var line := PrintAssignment(b, lay) + ("\n" + more);
    assert line[0] == b.identifier.text[0];
    AsciiClasses(line[0]);
    SkipSpace(lay.indent, line);
    AsciiClasses('\n');
    AssignmentRoundTrip(b, lay, "\n" + more);
    BindingLineComposed(lay.indent + line, line, more);
  }

  /// `Assignment::parse` reads back `name = value`.
  lemma AssignmentRoundTrip(a: Assignment, lay: Layout, rest: seq<char>)
    requires WellFormedAssignment(a) && ValidLayout(lay) && SafeFollower(rest)
    ensures ParseAssignment(PrintAssignment(a, lay) + rest).Ok?
    ensures ParseAssignment(PrintAssignment(a, lay) + rest).value == a
    ensures ParseAssignment(PrintAssignment(a, lay) + rest).rest == rest
    decreases a.value, 4, 0
  {
    var afterEq := PrintExpression(a.value, lay) + rest;
    var s := PrintAssignment(a, lay) + rest;
    assert s == a.identifier.text + (" = " + afterEq);
    AsciiClasses(' ');
    IdentifierRoundTrip(a.identifier, " = " + afterEq);
    ExprRoundTrip(a.value, lay, rest);
    AssignmentComposed(s, afterEq);
  }

  /// `Parameter::parse` reads back `name: Type`.
  lemma ParameterRoundTrip(prm: Parameter, rest: seq<char>)
    requires WellFormedParameter(prm)
    requires rest == [] || !IsAlnum(rest[0])
    ensures ParseParameter(PrintParameter(prm) + rest).Ok?
    ensures ParseParameter(PrintParameter(prm) + rest).value == prm
    ensures ParseParameter(PrintParameter(prm) + rest).rest == rest
  {
    var afterColon := prm.kclType.text + rest;
    var s := PrintParameter(prm) + rest;
    assert s == prm.name.text + (": " + afterColon);
    AsciiClasses(':');
    IdentifierRoundTrip(prm.name, ": " + afterColon);
    IdentifierRoundTrip(prm.kclType, rest);
    ParameterComposed(s, afterColon);
  }

  /// What follows a parameter: `", "` and the next one, or the ` -> ` of
  /// the signature.
  lemma ParamsFollower(params: seq<Parameter>, tail: seq<char>)
    requires |tail| > 0 && tail[0] == ' '
    ensures |PrintMoreParams(params) + tail| > 0
    ensures (PrintMoreParams(params) + tail)[0] in ", "
    ensures !IsAlnum((PrintMoreParams(params) + tail)[0])
  {
    AsciiClasses(' ');
    AsciiClasses(',');
    if params != [] {
      assert (PrintMoreParams(params) + tail)[0] == ',';
    }
  }

  /// `separated_list0(tag(", "), Parameter::parse)` reads back the printed
  /// parameters and stops at the ` -> ` after them.
  lemma {:induction false} ParamsRoundTrip(params: seq<Parameter>, tail: seq<char>)
    requires forall prm | prm in params :: WellFormedParameter(prm)
    requires |tail| > 0 && tail[0] == ' '
    ensures SeparatedList0(", ", ParseParameter, PrintParams(params) + tail).Ok?
    ensures SeparatedList0(", ", ParseParameter, PrintParams(params) + tail).value == params
    ensures SeparatedList0(", ", ParseParameter, PrintParams(params) + tail).rest == tail
  {
    var s := PrintParams(params) + tail;
    if params == [] {
      assert PrintParams(params) == [];
      assert s == tail;
      AsciiClasses(' ');
      IdentifierShape(tail);
      ParameterNeedsName(tail);
      SeparatedEmpty(", ", ParseParameter, tail);
    } else {
      var more := PrintMoreParams(params[1..]) + tail;
      assert PrintParams(params) == PrintParameter(params[0]) + PrintMoreParams(params[1..]);
      assert s == PrintParameter(params[0]) + more;
      assert params[0] in params;
      ParamsFollower(params[1..], tail);
      ParameterRoundTrip(params[0], more);
      SeparatedFirst(", ", ParseParameter, s);
      assert forall prm | prm in params[1..] :: prm in params;
      ParamsLoop(params[1..], tail, [params[0]]);
      var loop := SeparatedListLoop(", ", ParseParameter, more, [params[0]]);
      assert SeparatedList0(", ", ParseParameter, s) == loop;
      HeadTail(params);
    }
  }

  /// The loop of `separated_list0` over parameters.
  lemma {:induction false} ParamsLoop(params: seq<Parameter>, tail: seq<char>, acc: seq<Parameter>)
    requires forall prm | prm in params :: WellFormedParameter(prm)
    requires |tail| > 0 && tail[0] == ' '
    ensures SeparatedListLoop(", ", ParseParameter, PrintMoreParams(params) + tail, acc).Ok?
    ensures SeparatedListLoop(", ", ParseParameter, PrintMoreParams(params) + tail, acc).value == acc + params
    ensures SeparatedListLoop(", ", ParseParameter, PrintMoreParams(params) + tail, acc).rest == tail
    decreases |params|
  {
    var s := PrintMoreParams(params) + tail;
    if params == [] {
      assert PrintMoreParams(params) == [];
      assert s == tail;
      SeparatedStop(", ", ParseParameter, s, acc);
      AppendNil(acc, params);
    } else {
      var more := PrintMoreParams(params[1..]) + tail;
      var item := PrintParameter(params[0]) + more;
      assert PrintMoreParams(params) == ", " + PrintParameter(params[0]) + PrintMoreParams(params[1..]);
      assert s == ", " + item;
      ConcatSplit(", ", item);
      assert params[0] in params;
      ParamsFollower(params[1..], tail);
      ParameterRoundTrip(params[0], more);
      SeparatedStep(", ", ParseParameter, s, acc);
      assert forall prm | prm in params[1..] :: prm in params;
      ParamsLoop(params[1..], tail, acc + [params[0]]);
      var loop := SeparatedListLoop(", ", ParseParameter, more, acc + [params[0]]);
      assert SeparatedListLoop(", ", ParseParameter, s, acc) == loop;
      AppendHead(acc, params);
    }
  }

  /// The inside of a type signature: the parameters, ` -> ` and the return
  /// type.
  lemma SignatureRoundTrip(f: FnDef, rest: seq<char>)
    requires WellFormedFnDef(f)
    ensures
      var s := PrintParams(f.params) + (" -> " + (f.returnType.text + (")" + rest)));
      && SignatureParts(s).Ok?
      && SignatureParts(s).value == (f.params, f.returnType)
      && SignatureParts(s).rest == ")" + rest
  {
    var afterArrow := f.returnType.text + (")" + rest);
    var s := PrintParams(f.params) + (" -> " + afterArrow);
    AsciiClasses(')');
    ParamsRoundTrip(f.params, " -> " + afterArrow);
    IdentifierRoundTrip(f.returnType, ")" + rest);
    SignatureComposed(s, afterArrow);
  }

  /// Every well-formed function definition, printed with any layout and
  /// followed by anything that cannot extend its body, parses back to
  /// itself.
  lemma FnDefRoundTrip(f: FnDef, lay: Layout, rest: seq<char>)
    requires WellFormedFnDef(f) && ValidLayout(lay) && SafeFollower(rest)
    ensures ParseFnDef(PrintFnDef(f, lay) + rest).Ok?
    ensures ParseFnDef(PrintFnDef(f, lay) + rest).value == f
    ensures ParseFnDef(PrintFnDef(f, lay) + rest).rest == rest
  {
    var bodyText := PrintExpression(f.body, lay) + rest;
    var afterSig := " =>" + (lay.afterArrow + bodyText);
    var inner := PrintParams(f.params) + (" -> " + (f.returnType.text + (")" + afterSig)));
    var afterEq := "(" + inner;
    var s := f.fnName.text + (" = " + afterEq);
    Regroup10(f.fnName.text, " = ", "(", PrintParams(f.params), " -> ", f.returnType.text, ")", " =>",
      lay.afterArrow, bodyText);
    assert PrintFnDef(f, lay) + rest == s;
    SignatureRoundTrip(f, afterSig);
    BracketedSignature(inner, afterSig);
    StartChar(f.body, lay);
    assert bodyText[0] == PrintExpression(f.body, lay)[0];
    SkipSpace(lay.afterArrow, bodyText);
    ArrowThenSpaceShape(lay.afterArrow, bodyText);
    AsciiClasses(' ');
    IdentifierRoundTrip(f.fnName, " = " + afterEq);
    ExprRoundTrip(f.body, lay, rest);
    FnDefComposed(s, afterEq, bodyText);
  }

  /// The round trips on a whole input: the printed text alone parses to the
  /// node with nothing left over.
  lemma ExprParsesPrinted(e: Expression, lay: Layout, s: seq<char>)
    requires WellFormed(e) && ValidLayout(lay) && s == PrintExpression(e, lay)
    ensures ParseExpression(s).Ok? && ParseExpression(s).value == e && ParseExpression(s).rest == []
  {
    ExprRoundTrip(e, lay, []);
    AppendNil(s, []);
  }

  lemma AssignmentParsesPrinted(a: Assignment, lay: Layout, s: seq<char>)
    requires WellFormedAssignment(a) && ValidLayout(lay) && s == PrintAssignment(a, lay)
    ensures ParseAssignment(s).Ok? && ParseAssignment(s).value == a && ParseAssignment(s).rest == []
  {
    AssignmentRoundTrip(a, lay, []);
    AppendNil(s, []);
  }

  lemma FnDefParsesPrinted(f: FnDef, lay: Layout, s: seq<char>)
    requires WellFormedFnDef(f) && ValidLayout(lay) && s == PrintFnDef(f, lay)
    ensures ParseFnDef(s).Ok? && ParseFnDef(s).value == f && ParseFnDef(s).rest == []
  {
    FnDefRoundTrip(f, lay, []);
    AppendNil(s, []);
  }
}
