/// The earlier grammar reads back what its own concrete syntax writes:
/// numbers as decimal digits, invocations as `name(arg, arg)`, assignments
/// as `name = value`.
module LegacyRoundTrip {
  import opened Chars
  import opened Combinators
  import opened Seqs
  import opened Legacy
  import GrammarFacts
  import Printer
  import RoundTrip

  /// A name the earlier grammar reads: a letter, then letters and digits.
  /// No word is reserved there.
  predicate ValidName(name: string) {
    && |name| > 0
    && IsAlpha(name[0])
    && (forall k :: 0 <= k < |name| ==> IsAlnum(name[k]))
  }

  predicate WellFormed(e: Expression) {
    match e
    case Number(_) => true
    case Invocation(call) => ValidName(call.fnName) && forall a | a in call.args :: WellFormed(a)
  }

  function PrintExpression(e: Expression): string {
    match e
    case Number(n) => Printer.Digits(n)
    case Invocation(call) => call.fnName + "(" + PrintArgs(call.args) + ")"
  }

  /// The arguments separated by `", "`.
  function PrintArgs(args: seq<Expression>): string {
    if args == [] then "" else PrintExpression(args[0]) + PrintMoreArgs(args[1..])
  }

  /// Each argument preceded by its `", "`.
  function PrintMoreArgs(args: seq<Expression>): string {
    if args == [] then "" else ", " + PrintExpression(args[0]) + PrintMoreArgs(args[1..])
  }

  function PrintAssignment(a: Assignment): string {
    a.identifier + " = " + PrintExpression(a.value)
  }

  /// What may follow a printed expression: anything that cannot continue a
  /// number.
  predicate Follower(rest: seq<char>) {
    rest == [] || !GrammarFacts.IsNumberChar(rest[0])
  }

  lemma IdentifierRoundTrip(name: string, rest: seq<char>)
    requires ValidName(name)
    requires rest == [] || !IsAlnum(rest[0])
    ensures IdentifierSpec(name + rest).Ok?
    ensures IdentifierSpec(name + rest).value == name
    ensures IdentifierSpec(name + rest).rest == rest
  {
    assert (name + rest)[0] == name[0];
    GrammarFacts.WordOf(name, rest);
  }

  lemma NumberRoundTrip(n: Ast.U64, rest: seq<char>)
    requires Follower(rest)
    ensures ParseNum(Printer.Digits(n) + rest).Ok?
    ensures ParseNum(Printer.Digits(n) + rest).value == Number(n)
    ensures ParseNum(Printer.Digits(n) + rest).rest == rest
  {
    RoundTrip.NumberRoundTrip(n, rest);
    NumberAgreesWithCurrent(Printer.Digits(n) + rest);
  }

  /// Neither alternative of `Expression::parse` starts with anything but a
  /// digit, `_` or a letter.
  lemma ExpressionNeedsStart(s: seq<char>)
    requires s == [] || (!GrammarFacts.IsNumberChar(s[0]) && !IsAlpha(s[0]))
    ensures ParseExpression(s).Err?
  {
    GrammarFacts.NumberNeedsDigit(s);
    NumberAgreesWithCurrent(s);
    ExpressionOrder(s);
  }

  lemma ExprRoundTrip(e: Expression, rest: seq<char>)
    requires WellFormed(e) && Follower(rest)
    ensures ParseExpression(PrintExpression(e) + rest).Ok?
    ensures ParseExpression(PrintExpression(e) + rest).value == e
    ensures ParseExpression(PrintExpression(e) + rest).rest == rest
    decreases e, 2
  {
    var s := PrintExpression(e) + rest;
    match e
    case Number(n) =>
      NumberRoundTrip(n, rest);
      ExpressionOrder(s);
    case Invocation(call) =>
      var afterName := "(" + (PrintArgs(call.args) + (")" + rest));
      assert s == call.fnName + afterName;
      assert s[0] == call.fnName[0];
      AsciiClasses(s[0]);
      GrammarFacts.NumberCharIs(s[0]);
      GrammarFacts.NumberNeedsDigit(s);
      NumberAgreesWithCurrent(s);
      InvocationRoundTrip(e, rest);
      ExpressionOrder(s);
  }

  /// An invocation composed from its parts: a name, `(`, the arguments,
  /// `)`.
  lemma InvocationComposed(s: seq<char>, args: seq<char>, rest: seq<char>)
    requires IdentifierSpec(s).Ok? && IdentifierSpec(s).rest == "(" + args
    requires SeparatedList0(", ", ExpressionParser(|args|), args).Ok?
    requires SeparatedList0(", ", ExpressionParser(|args|), args).rest == ")" + rest
    ensures ParseFnInvocation(s).Ok?
    ensures ParseFnInvocation(s).value ==
      Invocation(FnInvocation(IdentifierSpec(s).value, SeparatedList0(", ", ExpressionParser(|args|), args).value))
    ensures ParseFnInvocation(s).rest == rest
  {
    var name := IdentifierSpec(s);
    ConcatSplit("(", args);
    var open := OneChar('(', name.rest);
    assert open.Ok? && open.rest == args;
    var list := SeparatedList0(", ", ExpressionParser(|args|), args);
    ConcatSplit(")", rest);
    var close := OneChar(')', list.rest);
    assert close.Ok? && close.rest == rest;
  }

  /// `Expression::parse_fn_invocation` reads back a printed call, whatever
  /// follows it.
  lemma InvocationRoundTrip(e: Expression, rest: seq<char>)
    requires e.Invocation? && WellFormed(e)
    ensures
      var s := e.call.fnName + ("(" + (PrintArgs(e.call.args) + (")" + rest)));
      && ParseFnInvocation(s).Ok?
      && ParseFnInvocation(s).value == e
      && ParseFnInvocation(s).rest == rest
    decreases e, 1
  {
    var args := PrintArgs(e.call.args) + (")" + rest);
    var s := e.call.fnName + ("(" + args);
    AsciiClasses('(');
    IdentifierRoundTrip(e.call.fnName, "(" + args);
    ArgsRoundTrip(e, e.call.args, ")" + rest, |args|);
    InvocationComposed(s, args, rest);
  }

  /// What follows an argument: `", "` and the next one, or the closing
  /// bracket.
  lemma ArgsFollower(args: seq<Expression>, tail: seq<char>)
    requires |tail| > 0 && tail[0] == ')'
    ensures Follower(PrintMoreArgs(args) + tail)
  {
    GrammarFacts.NumberCharIs(')');
    GrammarFacts.NumberCharIs(',');
    if args != [] {
      assert (PrintMoreArgs(args) + tail)[0] == ',';
    }
  }

  /// `separated_list0(tag(", "), Expression::parse)` reads back the printed
  /// arguments and stops at the closing bracket.
  lemma ArgsRoundTrip(parent: Expression, args: seq<Expression>, tail: seq<char>, bound: nat)
    requires forall a | a in args :: a < parent && WellFormed(a)
    requires |tail| > 0 && tail[0] == ')'
    requires |PrintArgs(args) + tail| <= bound
    ensures SeparatedList0(", ", ExpressionParser(bound), PrintArgs(args) + tail).Ok?
    ensures SeparatedList0(", ", ExpressionParser(bound), PrintArgs(args) + tail).value == args
    ensures SeparatedList0(", ", ExpressionParser(bound), PrintArgs(args) + tail).rest == tail
    decreases parent, 0, |args| + 1
  {
    var p := ExpressionParser(bound);
    var s := PrintArgs(args) + tail;
    SoundWeaken(p, bound, |s|);
    if args == [] {
      assert s == tail;
      AsciiClasses(')');
      GrammarFacts.NumberCharIs(')');
      ExpressionNeedsStart(tail);
      ExpressionParserIs(bound, tail);
      SeparatedEmpty(", ", p, tail);
    } else {
      var more := PrintMoreArgs(args[1..]) + tail;
      assert s == PrintExpression(args[0]) + more;
      assert args[0] in args;
      ArgsFollower(args[1..], tail);
      ExprRoundTrip(args[0], more);
      ExpressionParserIs(bound, s);
      SeparatedFirst(", ", p, s);
      assert forall a | a in args[1..] :: a in args;
      ArgsLoop(parent, args[1..], tail, bound, [args[0]]);
      var loop := SeparatedListLoop(", ", p, more, [args[0]]);
      assert SeparatedList0(", ", p, s) == loop;
      HeadTail(args);
    }
  }

  /// The loop of `separated_list0`: each `", "` is followed by an argument,
  /// and the closing bracket ends the list.
  lemma ArgsLoop(parent: Expression, args: seq<Expression>, tail: seq<char>, bound: nat, acc: seq<Expression>)
    requires forall a | a in args :: a < parent && WellFormed(a)
    requires |tail| > 0 && tail[0] == ')'
    requires |PrintMoreArgs(args) + tail| <= bound
    ensures SeparatedListLoop(", ", ExpressionParser(bound), PrintMoreArgs(args) + tail, acc).Ok?
    ensures SeparatedListLoop(", ", ExpressionParser(bound), PrintMoreArgs(args) + tail, acc).value == acc + args
    ensures SeparatedListLoop(", ", ExpressionParser(bound), PrintMoreArgs(args) + tail, acc).rest == tail
    decreases parent, 0, |args|
  {
    var p := ExpressionParser(bound);
    var s := PrintMoreArgs(args) + tail;
    SoundWeaken(p, bound, |s|);
    if args == [] {
      assert s == tail;
      SeparatedStop(", ", p, s, acc);
      AppendNil(acc, args);
    } else {
      var more := PrintMoreArgs(args[1..]) + tail;
      var item := PrintExpression(args[0]) + more;
      assert s == ", " + item;
      ConcatSplit(", ", item);
      assert args[0] in args;
      ArgsFollower(args[1..], tail);
      ExprRoundTrip(args[0], more);
      ExpressionParserIs(bound, item);
      SeparatedStep(", ", p, s, acc);
      assert forall a | a in args[1..] :: a in args;
      ArgsLoop(parent, args[1..], tail, bound, acc + [args[0]]);
      var loop := SeparatedListLoop(", ", p, more, acc + [args[0]]);
      assert SeparatedListLoop(", ", p, s, acc) == loop;
      AppendHead(acc, args);
    }
  }

  /// An assignment composed from its parts: a name, ` = `, a value.
  lemma AssignmentComposed(s: seq<char>, afterEq: seq<char>)
    requires IdentifierSpec(s).Ok? && IdentifierSpec(s).rest == " = " + afterEq
    requires ParseExpression(afterEq).Ok?
    ensures ParseAssignment(s).Ok?
    ensures ParseAssignment(s).value == Assignment(IdentifierSpec(s).value, ParseExpression(afterEq).value)
    ensures ParseAssignment(s).rest == ParseExpression(afterEq).rest
  {
    ConcatSplit(" = ", afterEq);
    assert Tag(" = ", IdentifierSpec(s).rest).rest == afterEq;
  }

  /// `Assignment::parse` reads back `name = value`, whatever follows it.
  lemma AssignmentRoundTrip(a: Assignment, rest: seq<char>)
    requires ValidName(a.identifier) && WellFormed(a.value) && Follower(rest)
    ensures ParseAssignment(PrintAssignment(a) + rest).Ok?
    ensures ParseAssignment(PrintAssignment(a) + rest).value == a
    ensures ParseAssignment(PrintAssignment(a) + rest).rest == rest
  {
    var value := PrintExpression(a.value) + rest;
    var s := PrintAssignment(a) + rest;
    Regroup4(a.identifier, " = ", PrintExpression(a.value), rest);
    AsciiClasses(' ');
    IdentifierRoundTrip(a.identifier, " = " + value);
    ExprRoundTrip(a.value, rest);
    AssignmentComposed(s, value);
  }

  /// A printed expression on its own reads back whole.
  lemma ExprParsesPrinted(e: Expression, s: seq<char>)
    requires WellFormed(e) && s == PrintExpression(e)
    ensures ParseExpression(s).Ok? && ParseExpression(s).value == e && ParseExpression(s).rest == []
  {
    ExprRoundTrip(e, []);
    AppendNil(s, []);
  }

  /// A printed assignment on its own reads back whole.
  lemma AssignmentParsesPrinted(a: Assignment, s: seq<char>)
    requires ValidName(a.identifier) && WellFormed(a.value) && s == PrintAssignment(a)
    ensures ParseAssignment(s).Ok? && ParseAssignment(s).value == a && ParseAssignment(s).rest == []
  {
    AssignmentRoundTrip(a, []);
    AppendNil(s, []);
  }
}
