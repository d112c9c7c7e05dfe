/// What a successful parse of a parameter, a parameter list, a type
/// signature and a function definition consumed, as text: exactly what the
/// printer writes for the values read, up to the whitespace the grammar
/// lets vary. Each separator is required exactly as written.
module GrammarShapes {
  import opened Combinators
  import opened Seqs
  import opened Ast
  import opened Grammar
  import opened GrammarFacts
  import opened Printer

  /// The bracketed type signature as written: `(params -> ReturnType)`.
  function Signature(f: FnDef): string {
    "(" + PrintParams(f.params) + " -> " + f.returnType.ToString() + ")"
  }

  /// A function definition up to the whitespace before its body:
  /// `name = (params -> ReturnType) =>`.
  function Header(f: FnDef): string {
    f.fnName.ToString() + " = " + Signature(f) + " =>"
  }

  /// `Parameter::parse`: a name, `: `, a type name. It succeeds exactly when
  /// all three are there, and consumes the parameter as printed.
  lemma ParameterShape(s: seq<char>)
    ensures ParseParameter(s).Ok? <==>
      && ParseIdentifier(s).Ok?
      && ": " <= ParseIdentifier(s).rest
      && ParseIdentifier(ParseIdentifier(s).rest[2..]).Ok?
    ensures ParseParameter(s).Ok? ==> s == PrintParameter(ParseParameter(s).value) + ParseParameter(s).rest
  {
    var name := ParseIdentifier(s);
    IdentifierShape(s);
    if name.Ok? && ": " <= name.rest {
      var afterColon := name.rest[2..];
      IdentifierShape(afterColon);
      PrefixRest(": ", name.rest);
      if ParseIdentifier(afterColon).Ok? {
        var kclType := ParseIdentifier(afterColon);
        ParameterComposed(s, afterColon);
        Regroup4(name.value.ToString(), ": ", kclType.value.ToString(), kclType.rest);
      }
    }
  }

  lemma ParameterSound(n: nat)
    ensures Sound(ParseParameter, n)
  {
  }

  /// The rounds of `separated_list0(tag(", "), Parameter::parse)` after the
  /// first consume `, ` and a printed parameter each.
  lemma {:induction false} ParamsLoopShape(s: seq<char>, acc: seq<Parameter>)
    ensures
      var r := SeparatedListLoop(", ", ParseParameter, s, acc);
      r.Ok? ==> acc <= r.value && s == PrintMoreParams(r.value[|acc|..]) + r.rest
    decreases |s|
  {
    ParameterSound(|s|);
    var r := SeparatedListLoop(", ", ParseParameter, s, acc);
    if ", " <= s && ParseParameter(s[2..]).Ok? {
      var next := ParseParameter(s[2..]);
      SeparatedStep(", ", ParseParameter, s, acc);
      ParamsLoopShape(next.rest, acc + [next.value]);
      if r.Ok? {
        var more := r.value[|acc|..];
        assert more[0] == next.value;
        assert more[1..] == r.value[|acc + [next.value]|..];
        ParameterShape(s[2..]);
        PrefixRest(", ", s);
        Regroup4(", ", PrintParameter(next.value), PrintMoreParams(more[1..]), r.rest);
      }
    } else if !(", " <= s) {
      SeparatedStop(", ", ParseParameter, s, acc);
    } else {
      assert r == Ok(acc, s);
    }
  }

  /// `separated_list0(tag(", "), Parameter::parse)` consumes the printed
  /// parameter list.
  lemma ParamsShape(s: seq<char>)
    ensures
      var r := SeparatedList0(", ", ParseParameter, s);
      r.Ok? ==> s == PrintParams(r.value) + r.rest
  {
    ParameterSound(|s|);
    var first := ParseParameter(s);
    if first.Ok? {
      SeparatedFirst(", ", ParseParameter, s);
      var r := SeparatedList0(", ", ParseParameter, s);
      if r.Ok? {
        ParameterShape(s);
        ParamsLoopShape(first.rest, [first.value]);
        ParamsText(s, r.value, first.rest, r.rest);
      }
    } else {
      SeparatedEmpty(", ", ParseParameter, s);
    }
  }

  lemma ParamsText(s: seq<char>, params: seq<Parameter>, afterFirst: seq<char>, rest: seq<char>)
    requires |params| > 0
    requires s == PrintParameter(params[0]) + afterFirst
    requires afterFirst == PrintMoreParams(params[1..]) + rest
    ensures s == PrintParams(params) + rest
  {
    assert PrintParams(params) == PrintParameter(params[0]) + PrintMoreParams(params[1..]);
  }

  /// The signature inside the brackets: the parameter list, then exactly
  /// ` -> `, then the return type. It succeeds exactly when all three are
  /// there, and consumes them as printed.
  lemma SignatureShape(s: seq<char>)
    ensures SignatureParts(s).Ok? <==>
      var list := SeparatedList0(", ", ParseParameter, s);
      list.Ok? && " -> " <= list.rest && ParseIdentifier(list.rest[4..]).Ok?
    ensures SignatureParts(s).Ok? ==>
      var signature := SignatureParts(s);
      s == PrintParams(signature.value.0) + " -> " + signature.value.1.ToString() + signature.rest
  {
    var list := SeparatedList0(", ", ParseParameter, s);
    if list.Ok? && " -> " <= list.rest {
      var afterArrow := list.rest[4..];
      PrefixRest(" -> ", list.rest);
      if ParseIdentifier(afterArrow).Ok? {
        var returnType := ParseIdentifier(afterArrow);
        SignatureComposed(s, afterArrow);
        IdentifierShape(afterArrow);
        ParamsShape(s);
        Regroup4(PrintParams(list.value), " -> ", returnType.value.ToString(), returnType.rest);
      }
    }
  }

  /// The stages of `FnDef::parse`, each run on what the one before left:
  /// the definition succeeds exactly when every stage does.
  lemma FnDefStages(s: seq<char>)
    ensures ParseFnDef(s).Ok? <==> FnDefParts(s).Ok?
    ensures FnDefParts(s).Ok? ==> ParseFnDef(s) == FnDefParts(s)
    ensures FnDefParts(s).Ok? <==>
      && ParseIdentifier(s).Ok?
      && " = " <= ParseIdentifier(s).rest
      && Bracketed(SignatureParts, ParseIdentifier(s).rest[3..]).Ok?
      && ArrowThenSpace(Bracketed(SignatureParts, ParseIdentifier(s).rest[3..]).rest).Ok?
      && ParseExpression(ArrowThenSpace(Bracketed(SignatureParts, ParseIdentifier(s).rest[3..]).rest).rest).Ok?
    ensures FnDefParts(s).Ok? ==>
      var signature := Bracketed(SignatureParts, ParseIdentifier(s).rest[3..]);
      var body := ParseExpression(ArrowThenSpace(signature.rest).rest);
      FnDefParts(s) == Ok(FnDef(ParseIdentifier(s).value, signature.value.0, signature.value.1, body.value), body.rest)
  {
  }

  /// `FnDef::parse`: a successful parse read exactly the header of the
  /// definition it returns, `name = (params -> ReturnType) =>`, then
  /// optional whitespace, then the body.
  lemma FnDefShape(s: seq<char>)
    ensures ParseFnDef(s).Ok? ==>
      var f := ParseFnDef(s).value;
      && Header(f) <= s
      && ParseExpression(MultiSpace0(s[|Header(f)|..]).rest) == Ok(f.body, ParseFnDef(s).rest)
  {
    FnDefStages(s);
    if ParseFnDef(s).Ok? {
      var f := ParseFnDef(s).value;
      var afterClose := Bracketed(SignatureParts, ParseIdentifier(s).rest[3..]).rest;
      StagesText(s, f);
      ArrowThenSpaceIs(afterClose);
      HeaderThenBody(s, f, afterClose[3..], ParseFnDef(s).rest);
    }
  }

  /// The text the stages before the body consumed is the header of the
  /// definition they build.
  lemma StagesText(s: seq<char>, f: FnDef)
    requires ParseIdentifier(s).Ok? && " = " <= ParseIdentifier(s).rest
    requires
      var signature := Bracketed(SignatureParts, ParseIdentifier(s).rest[3..]);
      && signature.Ok? && " =>" <= signature.rest
      && f.fnName == ParseIdentifier(s).value
      && f.params == signature.value.0
      && f.returnType == signature.value.1
    ensures s == Header(f) + Bracketed(SignatureParts, ParseIdentifier(s).rest[3..]).rest[3..]
  {
    var name := ParseIdentifier(s);
    var afterEq := name.rest[3..];
    var signature := Bracketed(SignatureParts, afterEq);
    var afterClose := signature.rest;
    IdentifierShape(s);
    PrefixRest(" = ", name.rest);
    BracketedSignatureText(afterEq);
    PrefixRest(" =>", afterClose);
    HeaderText(f, name.rest, afterEq, afterClose, afterClose[3..], s);
  }

  lemma HeaderThenBody(s: seq<char>, f: FnDef, body: seq<char>, rest: seq<char>)
    requires s == Header(f) + body
    requires ParseExpression(MultiSpace0(body).rest) == Ok(f.body, rest)
    ensures Header(f) <= s
    ensures ParseExpression(MultiSpace0(s[|Header(f)|..]).rest) == Ok(f.body, rest)
  {
    ConcatSplit(Header(f), body);
  }

  /// The bracketed signature consumes `(`, the signature as printed and `)`.
  lemma BracketedSignatureText(t: seq<char>)
    ensures
      var signature := Bracketed(SignatureParts, t);
      signature.Ok? ==>
        t == "(" + (PrintParams(signature.value.0) + " -> " + signature.value.1.ToString() + (")" + signature.rest))
  {
    var signature := Bracketed(SignatureParts, t);
    BracketedShape(SignatureParts, t);
    if signature.Ok? {
      var inner := t[1..];
      PrefixRest("(", t);
      var sig := SignatureParts(inner);
      SignatureShape(inner);
      HeadRest(')', sig.rest);
    }
  }

  /// `terminated(tag(" =>"), multispace0)` needs ` =>` and skips the
  /// whitespace after it.
  lemma ArrowThenSpaceIs(t: seq<char>)
    ensures ArrowThenSpace(t).Ok? <==> " =>" <= t
    ensures ArrowThenSpace(t).Ok? ==> ArrowThenSpace(t).rest == MultiSpace0(t[3..]).rest
  {
  }

  /// The text before the body, reassembled from the pieces the parser
  /// split off one after another.
  lemma HeaderText(f: FnDef, afterName: seq<char>, afterEq: seq<char>, afterClose: seq<char>, body: seq<char>, s: seq<char>)
    requires s == f.fnName.ToString() + afterName
    requires afterName == " = " + afterEq
    requires afterEq == "(" + (PrintParams(f.params) + " -> " + f.returnType.ToString() + (")" + afterClose))
    requires afterClose == " =>" + body
    ensures s == Header(f) + body
  {
    var name, params, returnType := f.fnName.ToString(), PrintParams(f.params), f.returnType.ToString();
    calc {
      s;
      name + (" = " + ("(" + (params + " -> " + returnType + (")" + (" =>" + body)))));
      { Regroup8(name, " = ", "(", params, " -> ", returnType, ")", " =>" + body); }
      name + " = " + "(" + params + " -> " + returnType + ")" + (" =>" + body);
      Header(f) + body;
    }
  }

  /// The name of a definition is followed by exactly ` = (`.
  lemma FnDefNeedsEquals(s: seq<char>)
    requires ParseIdentifier(s).Ok?
    requires !(" = (" <= ParseIdentifier(s).rest)
    ensures ParseFnDef(s).Err?
  {
    FnDefStages(s);
    var afterName := ParseIdentifier(s).rest;
    if " = " <= afterName {
      EqualsThenParen(afterName);
      BracketedShape(SignatureParts, afterName[3..]);
    }
  }

  lemma EqualsThenParen(t: seq<char>)
    requires " = " <= t
    ensures " = (" <= t <==> |t[3..]| > 0 && t[3..][0] == '('
  {
    if |t| > 3 && t[3] == '(' {
      assert t[..4] == t[..3] + [t[3]];
    }
  }

  /// The parameter list inside the brackets is followed by exactly ` -> `:
  /// a parameter list that stops anywhere else rejects the definition.
  lemma FnDefNeedsArrow(s: seq<char>, inner: seq<char>)
    requires ParseIdentifier(s).Ok? && ParseIdentifier(s).rest == " = " + ("(" + inner)
    requires
      var list := SeparatedList0(", ", ParseParameter, inner);
      !(list.Ok? && " -> " <= list.rest)
    ensures ParseFnDef(s).Err?
  {
    SignatureShape(inner);
    var afterEq := "(" + inner;
    ConcatSplit(" = ", afterEq);
    ConcatSplit("(", inner);
    BracketedShape(SignatureParts, afterEq);
  }

  /// The return type is followed by exactly `) =>`.
  lemma FnDefNeedsClose(s: seq<char>, inner: seq<char>, afterArrow: seq<char>)
    requires ParseIdentifier(s).Ok? && ParseIdentifier(s).rest == " = " + ("(" + inner)
    requires SeparatedList0(", ", ParseParameter, inner).Ok?
    requires SeparatedList0(", ", ParseParameter, inner).rest == " -> " + afterArrow
    requires ParseIdentifier(afterArrow).Ok?
    requires !(") =>" <= ParseIdentifier(afterArrow).rest)
    ensures ParseFnDef(s).Err?
  {
    FnDefStages(s);
    SignatureComposed(inner, afterArrow);
    var afterEq := "(" + inner;
    ConcatSplit(" = ", afterEq);
    ConcatSplit("(", inner);
    BracketedShape(SignatureParts, afterEq);
    var afterType := ParseIdentifier(afterArrow).rest;
    if Bracketed(SignatureParts, afterEq).Ok? {
      CloseThenArrow(afterType);
      ArrowThenSpaceIs(afterType[1..]);
    }
  }

  lemma CloseThenArrow(t: seq<char>)
    requires |t| > 0 && t[0] == ')'
    ensures ") =>" <= t <==> " =>" <= t[1..]
  {
    if " =>" <= t[1..] {
      assert t[..4] == [')'] + t[1..][..3];
    }
  }
}
