/// The earlier grammar on the inputs its unit tests fix. Where a test
/// builds its input with `format!("{lhs} = 100")`, the text here is the
/// same concatenation.
module LegacyCases {
  import opened Chars
  import opened Combinators
  import opened Legacy
  import opened LegacyRoundTrip
  import GrammarFacts
  import GrammarCases
  import Printer

  /// Underscores inside a number are dropped: `12_3` is 123.
  lemma NumberWithUnderscore()
    ensures ParseExpression("12_3").Ok?
    ensures ParseExpression("12_3").value == Number(123)
    ensures ParseExpression("12_3").rest == []
  {
    var s := "12_3";
    RunLengthExact(GrammarFacts.IsNumberChar, s, 4);
    assert s[..GrammarFacts.NumberLength(s)] == s;
    assert s[GrammarFacts.NumberLength(s)..] == [];
    GrammarCases.UnderscoreDigits();
    GrammarFacts.NumberValueShape(s);
    ExpressionOrder(s);
  }

  lemma PlainNumber()
    ensures ParseExpression("123").Ok?
    ensures ParseExpression("123").value == Number(123)
    ensures ParseExpression("123").rest == []
  {
    assert Printer.Digits(123) == "123";
    ExprParsesPrinted(Number(123), "123");
  }

  /// `sphere(1, 2)`
  function SphereCall(): Expression {
    Invocation(FnInvocation("sphere", [Number(1), Number(2)]))
  }

  const SphereCallText: string := "sphere" + "(" + ("1" + (", " + "2" + "")) + ")"

  lemma SphereCallPrinted()
    ensures PrintExpression(SphereCall()) == SphereCallText
  {
    var args := SphereCall().call.args;
    assert Printer.Digits(1) == "1";
    assert Printer.Digits(2) == "2";
    assert args[1..] == [Number(2)];
    assert args[1..][1..] == [];
    assert PrintMoreArgs(args[1..]) == ", " + "2" + "";
  }

  lemma SphereCallWellFormed()
    ensures WellFormed(SphereCall())
  {
  }

  /// A call with two number arguments.
  lemma SphereInvocation()
    ensures ParseExpression(SphereCallText).Ok?
    ensures ParseExpression(SphereCallText).value == SphereCall()
    ensures ParseExpression(SphereCallText).rest == []
  {
    SphereCallPrinted();
    SphereCallWellFormed();
    ExprParsesPrinted(SphereCall(), SphereCallText);
  }

  /// Any name the earlier grammar reads can be bound to a number:
  /// `lhs = 100`.
  lemma AssignsNumber(lhs: string)
    requires ValidName(lhs)
    ensures ParseAssignment(lhs + " = 100").Ok?
    ensures ParseAssignment(lhs + " = 100").value == Assignment(lhs, Number(100))
    ensures ParseAssignment(lhs + " = 100").rest == []
  {
    var a := Assignment(lhs, Number(100));
    assert Printer.Digits(100) == "100";
    assert PrintAssignment(a) == lhs + " = 100";
    AssignmentParsesPrinted(a, lhs + " = 100");
  }

  /// The left-hand sides the assignment test accepts, a name in Chinese
  /// characters among them.
  lemma ValidLhsNames()
    ensures ValidName("亞當")
    ensures ValidName("n")
    ensures ValidName("n123")
  {
  }

  /// `²` is numeric, so it may follow a name's first letter: `x² = 100`
  /// binds `x²`.
  lemma SuperscriptName()
    ensures ParseAssignment("x²" + " = 100").Ok?
    ensures ParseAssignment("x²" + " = 100").value == Assignment("x²", Number(100))
  {
    AssignsNumber("x²");
  }

  /// The earlier grammar reserves no word: `let` can be bound there.
  lemma KeywordsBindable()
    ensures ParseAssignment("let" + " = 100").Ok?
    ensures ParseAssignment("let" + " = 100").value == Assignment("let", Number(100))
  {
    AsciiClasses('l');
    AsciiClasses('e');
    AsciiClasses('t');
    AssignsNumber("let");
  }

  /// A name followed by something other than ` = ` is no assignment.
  lemma BadFollower(name: string, rest: string)
    requires ValidName(name)
    requires |rest| > 0 && !IsAlnum(rest[0]) && !(" = " <= rest)
    ensures ParseAssignment(name + rest).Err?
  {
    IdentifierRoundTrip(name, rest);
  }

  /// `(`, a space and `_` all end the name `n`, so `n( = 100`, `n h = 100`
  /// and `n_hello = 100` are not assignments.
  lemma NameEndsAtParen()
    ensures ParseAssignment("n" + "( = 100").Err?
  {
    AsciiClasses('n');
    AsciiClasses('(');
    BadFollower("n", "( = 100");
  }

  lemma NameEndsAtSpace()
    ensures ParseAssignment("n" + " h = 100").Err?
  {
    AsciiClasses('n');
    AsciiClasses(' ');
    assert " h = 100"[1] != ' ';
    BadFollower("n", " h = 100");
  }

  lemma NameEndsAtUnderscore()
    ensures ParseAssignment("n" + "_hello = 100").Err?
  {
    AsciiClasses('n');
    AsciiClasses('_');
    BadFollower("n", "_hello = 100");
  }

  /// A name cannot start with a digit.
  lemma DigitLed(s: string)
    requires |s| > 0 && IsAsciiDigit(s[0])
    ensures ParseAssignment(s).Err?
  {
    AsciiClasses(s[0]);
    IdentifierSplits(s);
  }

  /// `123 = 100` and a long name led by digits, bound to 100.
  lemma DigitLedNames()
    ensures ParseAssignment("123" + " = 100").Err?
    ensures ParseAssignment("0000000aassdfasdfasdfasdf" + "013423452342134234234234" + " = 100").Err?
  {
    DigitLed("123" + " = 100");
    DigitLed("0000000aassdfasdfasdfasdf" + "013423452342134234234234" + " = 100");
  }
}
