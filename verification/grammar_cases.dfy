/// The current grammar on the inputs its unit tests fix: what each accepts
/// and produces, and what each rejects. The longer texts are written as the
/// printer's tokens joined together; each is exactly the string of the
/// corresponding test.
module GrammarCases {
  import opened Chars
  import opened Combinators
  import opened Ast
  import opened Grammar
  import opened GrammarFacts
  import opened Printer
  import opened RoundTrip
  import opened GrammarShapes
  import opened Seqs

  /// A name as the parser produces it.
  function Id(text: string): Identifier {
    Identifier(text, None)
  }

  /// The whitespace of a one-line definition or expression.
  const Inline := Layout(" ", "", "", " ")

  /// A word of ASCII letters and digits that starts with a letter and is no
  /// keyword is a name the grammar produces.
  lemma AsciiName(text: string)
    requires |text| > 0 && IsAsciiLetter(text[0])
    requires forall k :: 0 <= k < |text| ==> IsAsciiLetter(text[k]) || IsAsciiDigit(text[k])
    requires text != "let" && text != "in"
    ensures ValidName(Id(text))
  {
    forall k | 0 <= k < |text|
      ensures IsAlnum(text[k])
    {
      AsciiClasses(text[k]);
    }
  }

  /// The digits of `12_3` are `123`, worth 123.
  lemma UnderscoreDigits()
    ensures AsciiDigits("12_3") == "123"
    ensures DecimalValue("123") == 123
  {
    assert "12_3"[..3] == "12_";
    assert "12_"[..2] == "12";
    assert "12"[..1] == "1";
    assert "1"[..0] == [];
    assert "123"[..2] == "12";
  }

  /// Underscores inside a number are dropped: `12_3` is 123.
  lemma NumberWithUnderscore()
    ensures ParseExpression("12_3").Ok?
    ensures ParseExpression("12_3").value == Number(123)
    ensures ParseExpression("12_3").rest == []
  {
    var s := "12_3";
    RunLengthExact(IsNumberChar, s, 4);
    assert s[..NumberLength(s)] == s;
    assert s[NumberLength(s)..] == [];
    UnderscoreDigits();
    NumberShape(s);
    ArithmeticNeedsParen(s);
    ExpressionIsNumber(s);
  }

  /// A number written with digits only reads as its decimal value.
  lemma PlainNumber()
    ensures ParseExpression("123").Ok?
    ensures ParseExpression("123").value == Number(123)
    ensures ParseExpression("123").rest == []
  {
    assert Digits(123) == "123";
    ExprParsesPrinted(Number(123), Inline, "123");
  }

  /// `(1 + 2)` is an addition of two numbers.
  lemma Addition()
    ensures ParseExpression("(1 + 2)").Ok?
    ensures ParseExpression("(1 + 2)").value == Arithmetic(Number(1), Add, Number(2))
    ensures ParseExpression("(1 + 2)").rest == []
  {
    var e := Arithmetic(Number(1), Add, Number(2));
    assert PrintExpression(e, Inline) == "(1 + 2)";
    ExprParsesPrinted(e, Inline, "(1 + 2)");
  }

  /// `sphere(1, 2)` is a call with two arguments, not the name `sphere`.
  function Sphere(): Expression {
    Invocation(FnInvocation(Id("sphere"), [Number(1), Number(2)]))
  }

  lemma SpherePrinted()
    ensures PrintExpression(Sphere(), Inline) == "sphere(1, 2)"
  {
    assert PrintArgs([Number(1), Number(2)], Inline) == "1, 2" by {
      assert [Number(1), Number(2)][1..] == [Number(2)];
      assert [Number(2)][1..] == [];
    }
  }

  lemma SphereCall()
    ensures ParseExpression("sphere(1, 2)").Ok?
    ensures ParseExpression("sphere(1, 2)").value == Sphere()
    ensures ParseExpression("sphere(1, 2)").rest == []
  {
    SpherePrinted();
    ExprParsesPrinted(Sphere(), Inline, "sphere(1, 2)");
  }

  /// `let`, two bindings indented by four spaces, `in` at the start of a
  /// line: `"let\n    x = 1\n    y = x\nin y"`.
  function TwoBindings(): Expression {
    LetIn([Assignment(Id("x"), Number(1)), Assignment(Id("y"), Name(Id("x")))], Name(Id("y")))
  }

  const FourSpaces := Layout("", "    ", "", " ")

  const TwoBindingsText: string :=
    "let" + "\n" + ("    " + ("x" + " = " + "1") + "\n" + ("    " + ("y" + " = " + "x") + "\n" + "")) + "" + "in" + " " + "y"

  lemma TwoBindingsPrinted()
    ensures PrintExpression(TwoBindings(), FourSpaces) == TwoBindingsText
  {
    var bindings := TwoBindings().bindings;
    assert Digits(1) == "1";
    assert bindings[1..] == [Assignment(Id("y"), Name(Id("x")))];
    assert bindings[1..][1..] == [];
  }

  lemma TwoBindingsWellFormed()
    ensures WellFormed(TwoBindings())
  {
  }

  /// The bindings are kept in order and the body follows `in`.
  lemma LetInTwoBindings()
    ensures ParseExpression(TwoBindingsText).Ok?
    ensures ParseExpression(TwoBindingsText).value == TwoBindings()
    ensures ParseExpression(TwoBindingsText).rest == []
  {
    TwoBindingsPrinted();
    TwoBindingsWellFormed();
    ExprParsesPrinted(TwoBindings(), FourSpaces, TwoBindingsText);
  }

  /// `let radius = (14 * 100) in circle(radius, center)`
  function RadiusBlock(): Expression {
    LetIn([Assignment(Id("radius"), Arithmetic(Number(14), Mul, Number(100)))],
      Invocation(FnInvocation(Id("circle"), [Name(Id("radius")), Name(Id("center"))])))
  }

  /// The block printed with any whitespace.
  function RadiusBlockText(lay: Layout): string {
    "let" + "\n" + (lay.indent + ("radius" + " = " + ("(" + "14" + " " + "*" + " " + "100" + ")")) + "\n" + "")
    + lay.beforeIn + "in" + lay.afterIn + ("circle" + "(" + ("radius" + (", " + "center" + "")) + ")")
  }

  lemma RadiusBindingPrinted(lay: Layout)
    ensures PrintBindings(RadiusBlock().bindings, lay)
         == lay.indent + ("radius" + " = " + ("(" + "14" + " " + "*" + " " + "100" + ")")) + "\n" + ""
  {
    assert Digits(14) == "14";
    assert Digits(100) == "100";
    assert PrintExpression(RadiusBlock().bindings[0].value, lay) == "(" + "14" + " " + "*" + " " + "100" + ")";
    assert RadiusBlock().bindings[1..] == [];
  }

  lemma RadiusCallPrinted(lay: Layout)
    ensures PrintExpression(RadiusBlock().body, lay) == "circle" + "(" + ("radius" + (", " + "center" + "")) + ")"
  {
    var args := RadiusBlock().body.call.args;
    assert args[1..] == [Name(Id("center"))];
    assert args[1..][1..] == [];
    assert PrintMoreArgs(args[1..], lay) == ", " + "center" + "";
    assert PrintArgs(args, lay) == "radius" + (", " + "center" + "");
  }

  lemma RadiusBlockPrinted(lay: Layout)
    ensures PrintExpression(RadiusBlock(), lay) == RadiusBlockText(lay)
  {
    RadiusBindingPrinted(lay);
    RadiusCallPrinted(lay);
  }

  lemma RadiusBlockWellFormed()
    ensures WellFormed(RadiusBlock())
  {
    AsciiName("radius");
    AsciiName("circle");
    AsciiName("center");
  }

  /// The block reads back whatever the whitespace.
  lemma RadiusBlockAnyLayout(lay: Layout)
    requires ValidLayout(lay)
    ensures ParseExpression(RadiusBlockText(lay)).Ok?
    ensures ParseExpression(RadiusBlockText(lay)).value == RadiusBlock()
    ensures ParseExpression(RadiusBlockText(lay)).rest == []
  {
    RadiusBlockPrinted(lay);
    RadiusBlockWellFormed();
    ExprParsesPrinted(RadiusBlock(), lay, RadiusBlockText(lay));
  }

  /// The block with its binding twelve spaces in and `in` eight:
  /// `"let\n            radius = (14 * 100)\n        in circle(radius, center)"`.
  const IndentedBlock := Layout("", "            ", "        ", " ")

  lemma LetInRadius()
    ensures ParseExpression(RadiusBlockText(IndentedBlock)).Ok?
    ensures ParseExpression(RadiusBlockText(IndentedBlock)).value == RadiusBlock()
    ensures ParseExpression(RadiusBlockText(IndentedBlock)).rest == []
  {
    RadiusBlockAnyLayout(IndentedBlock);
  }

  /// `bigCircle = (radius: Distance, center: Point2D -> Solid2D) => circle(radius)`
  function BigCircleCall(): FnDef {
    FnDef(Id("bigCircle"), [Parameter(Id("radius"), Id("Distance")), Parameter(Id("center"), Id("Point2D"))],
      Id("Solid2D"), Invocation(FnInvocation(Id("circle"), [Name(Id("radius"))])))
  }

  const BigCircleCallText: string :=
    "bigCircle" + " = " + "(" + ("radius" + ": " + "Distance" + (", " + ("center" + ": " + "Point2D") + ""))
    + " -> " + "Solid2D" + ")" + " =>" + " " + ("circle" + "(" + ("radius" + "") + ")")

  lemma BigCircleCallPrinted()
    ensures PrintFnDef(BigCircleCall(), Inline) == BigCircleCallText
  {
    var f := BigCircleCall();
    assert f.params[1..] == [Parameter(Id("center"), Id("Point2D"))];
    assert f.params[1..][1..] == [];
    assert f.body.call.args[1..] == [];
  }

  lemma BigCircleCallWellFormed()
    ensures WellFormedFnDef(BigCircleCall())
  {
    AsciiName("bigCircle");
    AsciiName("radius");
    AsciiName("Distance");
    AsciiName("center");
    AsciiName("Point2D");
    AsciiName("Solid2D");
    AsciiName("circle");
  }

  /// A definition with two parameters whose body is a call.
  lemma BigCircleOneLine()
    ensures ParseFnDef(BigCircleCallText).Ok?
    ensures ParseFnDef(BigCircleCallText).value == BigCircleCall()
    ensures ParseFnDef(BigCircleCallText).rest == []
  {
    BigCircleCallPrinted();
    BigCircleCallWellFormed();
    FnDefParsesPrinted(BigCircleCall(), Inline, BigCircleCallText);
  }

  /// `bigCircle = (center: Point2D -> Solid2D) => let radius = (14 * 100) in circle(radius, center)`
  function BigCircleLetIn(): FnDef {
    FnDef(Id("bigCircle"), [Parameter(Id("center"), Id("Point2D"))], Id("Solid2D"), RadiusBlock())
  }

  /// The definition printed with any whitespace.
  function BigCircleLetInText(lay: Layout): string {
    "bigCircle" + " = " + "(" + ("center" + ": " + "Point2D" + "") + " -> " + "Solid2D" + ")" + " =>"
    + lay.afterArrow + RadiusBlockText(lay)
  }

  lemma BigCircleLetInPrinted(lay: Layout)
    ensures PrintFnDef(BigCircleLetIn(), lay) == BigCircleLetInText(lay)
  {
    assert BigCircleLetIn().params[1..] == [];
    RadiusBlockPrinted(lay);
  }

  lemma BigCircleLetInWellFormed()
    ensures WellFormedFnDef(BigCircleLetIn())
  {
    AsciiName("bigCircle");
    AsciiName("center");
    AsciiName("Point2D");
    AsciiName("Solid2D");
    RadiusBlockWellFormed();
  }

  /// The definition reads back whatever the whitespace.
  lemma BigCircleLetInAnyLayout(lay: Layout)
    requires ValidLayout(lay)
    ensures ParseFnDef(BigCircleLetInText(lay)).Ok?
    ensures ParseFnDef(BigCircleLetInText(lay)).value == BigCircleLetIn()
    ensures ParseFnDef(BigCircleLetInText(lay)).rest == []
  {
    BigCircleLetInPrinted(lay);
    BigCircleLetInWellFormed();
    FnDefParsesPrinted(BigCircleLetIn(), lay, BigCircleLetInText(lay));
  }

  /// The body starts on the next line, sixteen spaces in; the binding is
  /// twenty spaces in and `in` sixteen.
  const OverLines := Layout("\n                ", "                    ", "                ", " ")

  /// A definition whose body, a let-in block, starts on the next line.
  lemma BigCircleOverLines()
    ensures ParseFnDef(BigCircleLetInText(OverLines)).Ok?
    ensures ParseFnDef(BigCircleLetInText(OverLines)).value == BigCircleLetIn()
    ensures ParseFnDef(BigCircleLetInText(OverLines)).rest == []
  {
    BigCircleLetInAnyLayout(OverLines);
  }

  /// `foo(100)`
  function FooCall(): Expression {
    Invocation(FnInvocation(Id("foo"), [Number(100)]))
  }

  lemma FooCallPrinted()
    ensures PrintExpression(FooCall(), Inline) == "foo(100)"
  {
    assert Digits(100) == "100";
    assert [Number(100)][1..] == [];
  }

  /// Any valid name can be bound to a call: `lhs = foo(100)`.
  lemma AssignsCall(lhs: string)
    requires ValidName(Id(lhs))
    ensures ParseAssignment(lhs + " = foo(100)").Ok?
    ensures ParseAssignment(lhs + " = foo(100)").value == Assignment(Id(lhs), FooCall())
    ensures ParseAssignment(lhs + " = foo(100)").rest == []
  {
    var a := Assignment(Id(lhs), FooCall());
    FooCallPrinted();
    assert PrintAssignment(a, Inline) == lhs + " = foo(100)";
    AssignmentParsesPrinted(a, Inline, lhs + " = foo(100)");
  }

  /// Any valid name can be bound to a number: `lhs = 100`.
  lemma AssignsNumber(lhs: string)
    requires ValidName(Id(lhs))
    ensures ParseAssignment(lhs + " = 100").Ok?
    ensures ParseAssignment(lhs + " = 100").value == Assignment(Id(lhs), Number(100))
    ensures ParseAssignment(lhs + " = 100").rest == []
  {
    var a := Assignment(Id(lhs), Number(100));
    assert Digits(100) == "100";
    assert PrintAssignment(a, Inline) == lhs + " = 100";
    AssignmentParsesPrinted(a, Inline, lhs + " = 100");
  }

  /// The left-hand sides the assignment test accepts, a name in Chinese
  /// characters among them; each is kept exactly as written.
  lemma ValidLhsNames()
    ensures ValidName(Id("亞當"))
    ensures ValidName(Id("n"))
    ensures ValidName(Id("n123"))
  {
  }

  /// `²` is numeric, so it may follow a name's first letter: `x² = 100`
  /// binds `x²`.
  lemma SuperscriptName()
    ensures ParseAssignment("x²" + " = 100").Ok?
    ensures ParseAssignment("x²" + " = 100").value == Assignment(Id("x²"), Number(100))
  {
    AssignsNumber("x²");
  }

  /// The line `inx` is no binding, since no ` = ` follows the name.
  lemma InxIsNoBinding()
    ensures BindingLine("inx").Err?
  {
    AsciiClasses('i');
    assert RunLength(IsMultispace, "inx") == 0;
    IdentifierRoundTrip(Id("inx"), []);
    AssignmentNeedsEquals("inx" + []);
  }

  lemma XBindingPrinted()
    ensures PrintBindings([Assignment(Id("x"), Number(1))], Inline) == "x = 1\n"
  {
    assert Digits(1) == "1";
  }

  /// One binding line, printed inline, followed by a line that is no binding.
  lemma OneBindingThen(a: Assignment, tail: seq<char>, bound: nat)
    requires WellFormedAssignment(a)
    requires BindingLine(tail).Err?
    requires bound == |PrintBindings([a], Inline) + tail|
    ensures Many1(BindingLineParser(bound), PrintBindings([a], Inline) + tail) == Ok([a], tail)
  {
    BindingsRoundTrip(LetIn([a], Number(0)), [a], Inline, tail, bound);
  }

  lemma XBoundToOne()
    ensures
      var lines := "x = 1\n" + "inx";
      Many1(BindingLineParser(|lines|), lines) == Ok([Assignment(Id("x"), Number(1))], "inx")
  {
    InxIsNoBinding();
    XBindingPrinted();
    OneBindingThen(Assignment(Id("x"), Number(1)), "inx", |"x = 1\n" + "inx"|);
  }

  lemma InxCloses()
    ensures InThenBody("inx") == Ok(Name(Id("x")), [])
  {
    AsciiClasses('i');
    AsciiClasses('x');
    assert RunLength(IsMultispace, "inx") == 0;
    assert RunLength(IsMultispace, "x") == 0;
    NameCase(Id("x"), Inline, []);
    InThenBodyComposed("inx", "x", "x" + []);
  }

  /// The whitespace after `in` may be empty: `in` closes the block even
  /// when the body follows it directly, as in `let` / `x = 1` / `inx`,
  /// whose body is `x`.
  lemma NoSpaceAfterIn()
    ensures ParseLetIn("let" + ("\n" + ("x = 1\n" + "inx"))).Ok?
    ensures ParseLetIn("let" + ("\n" + ("x = 1\n" + "inx"))).value
      == LetIn([Assignment(Id("x"), Number(1))], Name(Id("x")))
  {
    XBoundToOne();
    InxCloses();
    LetInComposed("x = 1\n" + "inx");
  }

  /// A name followed by something other than ` = ` is no assignment.
  lemma BadFollower(name: string, rest: string)
    requires |name| > 0
    requires forall k :: 0 <= k < |name| ==> IsAsciiLetter(name[k])
    requires !IsReservedKeyword(name)
    requires |rest| > 0 && !IsAlnum(rest[0]) && !(" = " <= rest)
    ensures ParseAssignment(name + rest).Err?
  {
    forall k | 0 <= k < |name|
      ensures IsAlnum(name[k])
    {
      AsciiClasses(name[k]);
    }
    AsciiClasses(name[0]);
    WordOf(name, rest);
    IdentifierShape(name + rest);
    AssignmentNeedsEquals(name + rest);
  }

  /// `(`, a space and `_` all end the name `n`, so `n( = 100`, `n h = 100`
  /// and `n_hello = 100` are not assignments.
  lemma NameEndsAtParen()
    ensures ParseAssignment("n" + "( = 100").Err?
  {
    AsciiClasses('(');
    BadFollower("n", "( = 100");
  }

  lemma NameEndsAtSpace()
    ensures ParseAssignment("n" + " h = 100").Err?
  {
    AsciiClasses(' ');
    assert " h = 100"[1] != ' ';
    BadFollower("n", " h = 100");
  }

  lemma NameEndsAtUnderscore()
    ensures ParseAssignment("n" + "_hello = 100").Err?
  {
    AsciiClasses('_');
    BadFollower("n", "_hello = 100");
  }

  /// A name cannot start with a digit.
  lemma DigitLed(s: string)
    requires |s| > 0 && IsAsciiDigit(s[0])
    ensures ParseAssignment(s).Err?
  {
    AsciiClasses(s[0]);
    IdentifierShape(s);
    AssignmentNeedsName(s);
  }

  /// `123 = 100` and a long name led by digits, bound to 100.
  lemma DigitLedNames()
    ensures ParseAssignment("123" + " = 100").Err?
    ensures ParseAssignment("0000000aassdfasdfasdfasdf" + "013423452342134234234234" + " = 100").Err?
  {
    DigitLed("123" + " = 100");
    DigitLed("0000000aassdfasdfasdfasdf" + "013423452342134234234234" + " = 100");
  }

  /// The keywords cannot be bound.
  lemma KeywordNames(rest: string)
    requires rest == [] || !IsAlnum(rest[0])
    ensures ParseAssignment("let" + rest).Err?
    ensures ParseAssignment("in" + rest).Err?
  {
    KeywordsRejected(rest);
    AssignmentNeedsName("let" + rest);
    AssignmentNeedsName("in" + rest);
  }

  /// A parameter's name and type are separated by exactly `: `, so
  /// `x:T` and `x : T` are no parameters.
  lemma ColonNeedsSpace()
    ensures ParseParameter("x" + ":T").Err?
    ensures ParseParameter("x" + " : T").Err?
  {
    AsciiClasses(':');
    AsciiClasses(' ');
    IdentifierRoundTrip(Id("x"), ":T");
    IdentifierRoundTrip(Id("x"), " : T");
    NotPrefixAt(": ", ":T", 1);
    NotPrefixAt(": ", " : T", 0);
    ParameterNeedsColon("x" + ":T");
    ParameterNeedsColon("x" + " : T");
  }

  /// A call must be closed: `f(` is no call.
  lemma UnclosedCall()
    ensures ParseInvocation("f" + "(").Err?
  {
    IdentifierRoundTrip(Id("f"), "(");
    ExpressionNeedsStart([]);
    ExpressionParserIs(0, []);
    InvocationNeedsClose("f" + "(", []);
  }

  /// The parameter `x: T`, followed by something that neither continues
  /// its type nor separates a next parameter.
  lemma OneParameter(tail: seq<char>)
    requires |tail| > 0 && !IsAlnum(tail[0]) && !(", " <= tail)
    ensures SeparatedList0(", ", ParseParameter, "x: T" + tail) == Ok([Parameter(Id("x"), Id("T"))], tail)
  {
    var prm := Parameter(Id("x"), Id("T"));
    assert PrintParameter(prm) == "x: T";
    ParameterRoundTrip(prm, tail);
    ParameterSound(|"x: T" + tail|);
    SeparatedFirst(", ", ParseParameter, "x: T" + tail);
    ParameterSound(|tail|);
    SeparatedStop(", ", ParseParameter, tail, [prm]);
  }

  /// The name `f` before a space.
  lemma NameF(rest: seq<char>)
    requires |rest| > 0 && rest[0] == ' '
    ensures ParseIdentifier("f" + rest).Ok? && ParseIdentifier("f" + rest).rest == rest
  {
    AsciiClasses(' ');
    IdentifierRoundTrip(Id("f"), rest);
  }

  /// `f = (x: T` followed by something other than ` -> ` or `, ` and a
  /// parameter is no definition.
  lemma ArrowMissing(tail: seq<char>)
    requires |tail| > 0 && !IsAlnum(tail[0]) && !(", " <= tail) && !(" -> " <= tail)
    ensures ParseFnDef("f" + (" = " + ("(" + ("x: T" + tail)))).Err?
  {
    OneParameter(tail);
    NameF(" = " + ("(" + ("x: T" + tail)));
    FnDefNeedsArrow("f" + (" = " + ("(" + ("x: T" + tail))), "x: T" + tail);
  }

  /// `f = (x: T -> U` followed by something other than `) =>` is no
  /// definition.
  lemma CloseMissing(tail: seq<char>)
    requires |tail| > 0 && !IsAlnum(tail[0]) && !(") =>" <= tail)
    ensures ParseFnDef("f" + (" = " + ("(" + ("x: T" + (" -> " + ("U" + tail)))))).Err?
  {
    var afterArrow := "U" + tail;
    var inner := "x: T" + (" -> " + afterArrow);
    assert SeparatedList0(", ", ParseParameter, inner) == Ok([Parameter(Id("x"), Id("T"))], " -> " + afterArrow) by {
      AsciiClasses(' ');
      NotPrefixAt(", ", " -> " + afterArrow, 0);
      OneParameter(" -> " + afterArrow);
    }
    NameF(" = " + ("(" + inner));
    IdentifierRoundTrip(Id("U"), tail);
    FnDefNeedsClose("f" + (" = " + ("(" + inner)), inner, afterArrow);
  }

  /// `f=(x: T -> U) => 1`: the name is followed by exactly ` = `.
  lemma NoSpaceAroundEquals()
    ensures ParseFnDef("f" + "=(x: T -> U) => 1").Err?
  {
    AsciiClasses('=');
    IdentifierRoundTrip(Id("f"), "=(x: T -> U) => 1");
    FnDefNeedsEquals("f" + "=(x: T -> U) => 1");
  }

  /// `f = (x: T ->U) => 1`: the return type arrow is exactly ` -> `.
  lemma NoSpaceAfterArrow()
    ensures ParseFnDef("f" + (" = " + ("(" + ("x: T" + " ->U) => 1")))).Err?
  {
    AsciiClasses(' ');
    NotPrefixAt(", ", " ->U) => 1", 0);
    NotPrefixAt(" -> ", " ->U) => 1", 3);
    ArrowMissing(" ->U) => 1");
  }

  /// `f = (x: T,y: U -> V) => 1`: parameters are separated by exactly `, `.
  lemma NoSpaceAfterComma()
    ensures ParseFnDef("f" + (" = " + ("(" + ("x: T" + ",y: U -> V) => 1")))).Err?
  {
    AsciiClasses(',');
    NotPrefixAt(", ", ",y: U -> V) => 1", 1);
    NotPrefixAt(" -> ", ",y: U -> V) => 1", 0);
    ArrowMissing(",y: U -> V) => 1");
  }

  /// `f = (x: T -> U)=> 1`: the signature is followed by exactly ` =>`.
  lemma NoSpaceBeforeFatArrow()
    ensures ParseFnDef("f" + (" = " + ("(" + ("x: T" + (" -> " + ("U" + ")=> 1")))))).Err?
  {
    AsciiClasses(')');
    NotPrefixAt(") =>", ")=> 1", 1);
    CloseMissing(")=> 1");
  }
}
