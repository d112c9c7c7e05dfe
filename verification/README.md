# KCL parser core, modelled in Dafny

KCL is a small language for describing CAD models. A program is a series of
function definitions such as

    bigCircle = (radius: Distance, center: Point2D -> Solid2D) => circle(radius, center)

This project models the compiler's front end:

- the abstract syntax tree;
- the current parser, written with nom combinators;
- the earlier, smaller parser that it replaced;
- the pass that lists each function's name with where that name sits.

The current grammar (`Grammar`, over `Combinators`) has one function per
production. Each one maps an input string to one of two results:

- the parsed node with the input left over;
- an error trail in nom's `VerboseError` form, deepest entry first.

The nom pieces the productions use are written out as functions with
nom 7's semantics: `tag`, `char`, `one_of`, `alpha1`, `alphanumeric0`,
`multispace0`, `newline`, `alt`, `many1`, `separated_list0` and `context`.
`map` and `map_res` are written inline in the productions that use them.
For `map_res` these are `Grammar.ParseIdentifier`, `Grammar.NumberValue` and
`Grammar.ParseOperator`, and a rejected value fails with nom's `MapRes` kind.
`Combinators.WellBehaved` is the contract every parser keeps: on success,
what is left is a suffix of the input.
Recursive productions are handed to combinators as `ExpressionParser(bound)`:
`ParseExpression` restricted to inputs no longer than `bound`. This makes
termination a matter of input length.

`GrammarFacts` states what each production accepts:

- exactly which inputs succeed, usually as an if-and-only-if;
- the value and the rest on success;
- for `Expression::parse`, which error trail is kept on failure
  (`GrammarFacts.ExpressionError`); the other productions' contracts in
  `Grammar` give the outermost context entry of a failure.

`Printer` writes an AST back as KCL text. The `Layout` parameter chooses the
whitespace at the points where the grammar allows any amount.
`RoundTrip` proves that every well-formed expression, assignment, parameter
and function definition reads back from its printed form, under every valid
layout, when what follows cannot extend it. For expressions, assignments
and definitions, the follower must satisfy `RoundTrip.SafeFollower`: it is
empty, or its first character is not alphanumeric, `_` or `(`. Without that,
`x` followed by `(1)` reads as a call and `1` followed by `2` reads as 12.
A parameter's follower need only not start with an alphanumeric character.
`GrammarCases` restates the unit tests of the current grammar on their own
inputs.

The earlier grammar (`Legacy`) reads only numbers, calls and assignments.
Its `parse_identifier` builds the name step by step, so it is the method
`Legacy.ParseIdentifier`, proved equal to the specification function
`Legacy.IdentifierSpec`. That grammar reserves no keywords.
It also rejects `n_hello`, as its own test records with a TODO.
`LegacyRoundTrip` and `LegacyCases` hold its printer, its round trips and
its unit tests.

`Semantics.AllFunctions` lists every function's name with a line, a column
and a length. The length is the name's size in bytes of UTF-8, which is what
Rust's `str::len` returns. `Semantics.Encode` writes UTF-8 following RFC 3629,
section 3, and `Semantics.EncodeCharDecodes` proves it is read back.

## Model

| member | source | states |
|---|---|---|
| Grammar.ParseMaybeReserved | compiler/src/parser/implementations.rs:35-46 | on success some input was consumed and the rest is a suffix of the input |
| GrammarFacts.MaybeReservedShape | compiler/src/parser/implementations.rs:35-46 | succeeds iff the input starts with a letter; the name is then the whole leading run of letters and digits and the rest is what follows it |
| Grammar.ParseIdentifier | compiler/src/parser/implementations.rs:16-33 | on failure the outermost trail entry is the "identifier" context at the input; on success the rest is a strict suffix |
| GrammarFacts.IdentifierShape | compiler/src/parser/implementations.rs:13-33 | succeeds iff the input starts with a letter and the leading word is not `let` or `in`; name followed by rest is the input, and no letter or digit follows the name |
| GrammarFacts.KeywordsRejected | compiler/src/parser/implementations.rs:13-31 | `let` and `in` are read as words by `parse_maybe_reserved` but rejected by `Identifier::parse`, whatever follows them |
| RoundTrip.IdentifierRoundTrip | compiler/src/ast.rs:15-21 | a valid name followed by a non-alphanumeric character parses to the same identifier, whose `Display` text is the name, leaving the follower |
| Grammar.ParseFnDef | compiler/src/parser/implementations.rs:48-86 | a failure carries the "function definition" context outermost; a success consumes input |
| RoundTrip.FnDefRoundTrip | compiler/src/parser/implementations.rs:48-86 | every well-formed function definition printed under any valid layout parses back to itself, leaving what follows, when that follower satisfies `SafeFollower` |
| GrammarShapes.FnDefShape | compiler/src/parser/implementations.rs:51-86 | a definition read from the text starts with its own header, `name = (params -> Type) =>`, and its body is the expression read after optional whitespace, leaving what the body leaves |
| GrammarShapes.SignatureShape | compiler/src/parser/implementations.rs:58-65 | the bracketed signature succeeds iff the parameter list, ` -> ` and a type name follow `(`; the text read is the printed parameters, ` -> ` and the type |
| GrammarShapes.FnDefNeedsEquals | compiler/src/parser/implementations.rs:54-55 | no definition when ` = (` does not follow the name |
| GrammarShapes.FnDefNeedsArrow | compiler/src/parser/implementations.rs:61-63 | no definition when ` -> ` does not follow the parameter list |
| GrammarShapes.FnDefNeedsClose | compiler/src/parser/implementations.rs:64-70 | no definition when `) =>` does not follow the return type |
| GrammarCases.NoSpaceAroundEquals | compiler/src/parser/implementations.rs:54-55 | `f=(x: T -> U) => 1` is no definition |
| GrammarCases.NoSpaceAfterArrow | compiler/src/parser/implementations.rs:61-63 | `f = (x: T ->U) => 1` is no definition |
| GrammarCases.NoSpaceAfterComma | compiler/src/parser/implementations.rs:60-61 | `f = (x: T,y: U -> V) => 1` is no definition |
| GrammarCases.NoSpaceBeforeFatArrow | compiler/src/parser/implementations.rs:64-70 | `f = (x: T -> U)=> 1` is no definition |
| Grammar.ParseParameter | compiler/src/parser/implementations.rs:88-97 | a failure carries the "parameter" context outermost; a success consumes input |
| GrammarFacts.ParameterComposed | compiler/src/parser/implementations.rs:88-97 | `name: Type` composes into the parameter and leaves what follows the type |
| GrammarShapes.ParameterShape | compiler/src/parser/implementations.rs:88-97 | succeeds iff a name, `: ` and a type name follow in turn; the text read is then the printed parameter |
| GrammarShapes.ParamsShape | compiler/src/parser/implementations.rs:60-61 | a parameter list read from the text is exactly the printed list, and what follows it is the rest |
| GrammarFacts.ParameterNeedsColon | compiler/src/parser/implementations.rs:88-97 | no parameter when `: ` does not follow the name |
| GrammarCases.ColonNeedsSpace | compiler/src/parser/implementations.rs:88-97 | `x:T` and `x : T` are no parameters |
| RoundTrip.ParameterRoundTrip | compiler/src/parser/implementations.rs:88-97 | a printed parameter parses back to itself |
| RoundTrip.ParamsRoundTrip | compiler/src/parser/implementations.rs:61 | the `separated_list0(", ", Parameter::parse)` of a definition reads back any printed parameter list, the empty one included |
| Grammar.ParseInvocation | compiler/src/parser/implementations.rs:99-113 | a failure carries the "function invocation" context outermost; a success consumes input |
| GrammarFacts.InvocationNeedsParen | compiler/src/parser/implementations.rs:99-113 | a name not followed by `(` is no invocation |
| GrammarFacts.InvocationNeedsClose | compiler/src/parser/implementations.rs:99-113 | no invocation when the argument list is not followed by `)` |
| GrammarCases.UnclosedCall | compiler/src/parser/implementations.rs:99-113 | `f(` is no invocation |
| RoundTrip.InvocationRoundTrip | compiler/src/parser/implementations.rs:99-113 | a printed call, with any number of arguments, parses back to the same call |
| RoundTrip.ArgsRoundTrip | compiler/src/parser/implementations.rs:104 | the `separated_list0(", ", Expression::parse)` reads back the printed arguments in order and stops at `)` |
| Grammar.ParseExpression | compiler/src/parser/implementations.rs:115-126 | a failure carries the "expression" context outermost; a success consumes input |
| GrammarFacts.ExpressionIsArithmetic | compiler/src/parser/implementations.rs:115-126 | arithmetic is tried first: when it succeeds it is the result |
| GrammarFacts.ExpressionIsNumber | compiler/src/parser/implementations.rs:115-126 | a number is the result when arithmetic fails and the number succeeds |
| GrammarFacts.ExpressionIsLetIn | compiler/src/parser/implementations.rs:115-126 | a let-in block is the result when arithmetic and number fail |
| GrammarFacts.ExpressionIsInvocation | compiler/src/parser/implementations.rs:115-126 | a call is the result when the three before it fail |
| GrammarFacts.ExpressionIsName | compiler/src/parser/implementations.rs:115-126 | a bare name is the last alternative |
| GrammarFacts.ExpressionError | compiler/src/parser/implementations.rs:115-126 | fails iff all five alternatives fail; the error kept is the name's, with `alt` and the "expression" context added |
| GrammarFacts.ExpressionNeedsStart | compiler/src/parser/implementations.rs:115-126 | no expression starts with anything other than `(`, a digit, `_` or a letter |
| RoundTrip.ExprRoundTrip | compiler/src/parser/implementations.rs:115-201 | every well-formed expression printed under any valid layout parses back to itself when what follows cannot extend it |
| Grammar.ParseOperator | compiler/src/parser/implementations.rs:128-144 | a failure carries the "operator" context outermost |
| GrammarFacts.OperatorShape | compiler/src/parser/implementations.rs:128-144 | succeeds iff the first character is one of `+ - * /`, consumes exactly it and maps each symbol to its operator |
| RoundTrip.OperatorRoundTrip | compiler/src/parser/implementations.rs:128-144 | each operator's symbol parses back to that operator |
| Grammar.ParseArithmetic | compiler/src/parser/implementations.rs:146-161 | a failure carries the "arithmetic" context outermost; a success consumes input |
| GrammarFacts.ArithmeticNeedsParen | compiler/src/parser/implementations.rs:146-161 | arithmetic needs a leading `(` |
| RoundTrip.ArithmeticCase | compiler/src/parser/implementations.rs:146-161 | a printed `(lhs op rhs)` parses back to the same arithmetic node |
| Grammar.ParseLetIn | compiler/src/parser/implementations.rs:162-188 | a failure carries the "let-in" context outermost; a success consumes input |
| GrammarFacts.LetInShape | compiler/src/parser/implementations.rs:163-188 | after `let` and a newline, succeeds iff `many1` reads at least one binding line and then `in`, with optional whitespace before and after it, is followed by an expression; the bindings are exactly the lines read and the body is the expression after `in` |
| GrammarFacts.LetInStartsWithLet | compiler/src/parser/implementations.rs:166-167 | a successful let-in starts with `let` and a newline |
| GrammarFacts.BindingLineShape | compiler/src/parser/implementations.rs:168-172 | a binding line succeeds iff optional whitespace, an assignment and a newline follow in turn; the value is the assignment and the rest follows the newline |
| GrammarFacts.InThenBodyShape | compiler/src/parser/implementations.rs:173-177 | the close of a block succeeds iff `in` follows optional whitespace and an expression follows optional whitespace after it; the body is that expression |
| RoundTrip.BindingsRoundTrip | compiler/src/parser/implementations.rs:168-172 | `many1` over binding lines reads back every printed binding in order and stops where the block's `in` starts |
| RoundTrip.LetInCase | compiler/src/parser/implementations.rs:162-188 | a printed let-in block, under any valid layout, parses back to itself |
| GrammarCases.NoSpaceAfterIn | compiler/src/parser/implementations.rs:173-177 | the whitespace after `in` may be empty: `inx` closes a block with the body `x` |
| Grammar.ParseNum | compiler/src/parser/implementations.rs:189-202 | a failure carries the "number" context outermost; a success consumes input |
| GrammarFacts.NumberShape | compiler/src/parser/implementations.rs:189-202 | takes the whole run of digits and underscores; succeeds iff that run holds a digit and its digits fit in a `u64`; the value is the digits read in decimal |
| GrammarFacts.NumberNeedsDigit | compiler/src/parser/implementations.rs:189-202 | input not starting with a digit or `_` is no number |
| RoundTrip.NumberRoundTrip | compiler/src/ast.rs:63-64 | every `u64` printed in decimal parses back to itself |
| RoundTrip.DigitsValue | compiler/src/parser/implementations.rs:195-200 | the decimal digits of `n`, filtered and read back, are `n` |
| Grammar.ParseAssignment | compiler/src/parser/implementations.rs:204-215 | a failure carries the "assignment" context outermost; a success consumes input |
| GrammarFacts.AssignmentNeedsName | compiler/src/parser/implementations.rs:204-215 | no assignment without a leading identifier |
| GrammarFacts.AssignmentNeedsEquals | compiler/src/parser/implementations.rs:204-215 | no assignment when ` = ` does not follow the name |
| RoundTrip.AssignmentRoundTrip | compiler/src/parser/implementations.rs:204-215 | every printed assignment parses back to itself |
| Grammar.Bracketed | compiler/src/parser/implementations.rs:217-233 | a success consumes the two brackets at least |
| GrammarFacts.BracketedShape | compiler/src/parser/implementations.rs:217-233 | succeeds iff `(` comes first, the child succeeds after it and `)` follows; the value is the child's |
| GrammarCases.NumberWithUnderscore | compiler/src/parser/implementations.rs:306-314 | `12_3` is the number 123 |
| GrammarCases.PlainNumber | compiler/src/parser/implementations.rs:306-314 | `123` is the number 123 |
| GrammarCases.Addition | compiler/src/parser/implementations.rs:316-329 | `(1 + 2)` is the sum of the numbers 1 and 2 |
| GrammarCases.SphereCall | compiler/src/parser/implementations.rs:331-340 | `sphere(1, 2)` is a call with two number arguments |
| GrammarCases.BigCircleOneLine | compiler/src/parser/implementations.rs:342-399 | the one-line `bigCircle` definition parses to the expected definition |
| GrammarCases.BigCircleLetInAnyLayout | compiler/src/parser/implementations.rs:342-399 | the `bigCircle` definition with a let-in body parses to the same definition whatever the whitespace |
| GrammarCases.BigCircleOverLines | compiler/src/parser/implementations.rs:342-399 | the same, written over several indented lines as in the test |
| GrammarCases.LetInTwoBindings | compiler/src/parser/implementations.rs:401-446 | a block binding `x` and `y` parses to both bindings and its body |
| GrammarCases.RadiusBlockAnyLayout | compiler/src/parser/implementations.rs:401-446 | the block binding an arithmetic `radius` parses whatever the whitespace |
| GrammarCases.LetInRadius | compiler/src/parser/implementations.rs:401-446 | the same block with the test's indentation |
| GrammarCases.AssignsCall | compiler/src/parser/implementations.rs:448-480 | any valid name can be bound to `foo(100)` |
| GrammarCases.AssignsNumber | compiler/src/parser/implementations.rs:448-480 | any valid name can be bound to `100` |
| GrammarCases.ValidLhsNames | compiler/src/parser/implementations.rs:448-480 | `亞當`, `n` and `n123` are valid names |
| GrammarCases.BadFollower | compiler/src/parser/implementations.rs:482-499 | a name followed by a non-alphanumeric character other than ` = ` is no assignment |
| GrammarCases.NameEndsAtParen | compiler/src/parser/implementations.rs:482-499 | `n( = 100` is no assignment |
| GrammarCases.NameEndsAtSpace | compiler/src/parser/implementations.rs:482-499 | `n h = 100` is no assignment |
| GrammarCases.NameEndsAtUnderscore | compiler/src/parser/implementations.rs:482-499 | `n_hello = 100` is no assignment |
| GrammarCases.DigitLed | compiler/src/parser/implementations.rs:482-499 | no input starting with a digit is an assignment |
| GrammarCases.DigitLedNames | compiler/src/parser/implementations.rs:482-499 | `123 = 100` and the long digit-led name are no assignments |
| GrammarCases.KeywordNames | compiler/src/parser/implementations.rs:13-31 | `let` and `in` cannot be assigned to |
| GrammarCases.SuperscriptName | compiler/src/parser/implementations.rs:35-46 | a letter followed by a superscript digit is a name, since `alphanumeric0` takes Unicode numerics |
| Legacy.IdentifierSpec | compiler/src/parser.rs:80-93 | on success some input was consumed and the rest is a suffix |
| Legacy.ParseIdentifier | compiler/src/parser.rs:80-93 | the method that runs `alpha1` then `alphanumeric0` and joins the two slices returns exactly `IdentifierSpec` |
| Legacy.IdentifierSplits | compiler/src/parser.rs:80-93 | succeeds iff the input starts with a letter; the name is the whole leading word of letters and digits and name plus rest is the input; a failure is `alpha1`'s error at the input |
| Legacy.IdentifierAgreesWithCurrent | compiler/src/parser.rs:80-93 | reads the same names as the current `parse_maybe_reserved`, and every name the current `Identifier::parse` accepts |
| LegacyCases.SuperscriptName | compiler/src/parser.rs:80-93 | a letter followed by a superscript digit is a name in the earlier grammar too |
| Legacy.ParseNum | compiler/src/parser.rs:58-69 | on success input was consumed |
| Legacy.NumberShape | compiler/src/parser.rs:58-69 | takes the whole run of digits and underscores; succeeds iff it holds a digit and the digits fit in a `u64`; the value is those digits in decimal |
| Legacy.ParseExpression | compiler/src/parser.rs:37-41 | on success input was consumed |
| Legacy.ExpressionOrder | compiler/src/parser.rs:37-41 | a number is tried first and a call second; the expression fails iff both do, keeping the call's error under `alt` |
| Legacy.ParseFnInvocation | compiler/src/parser.rs:43-56 | on success input was consumed |
| LegacyRoundTrip.InvocationRoundTrip | compiler/src/parser.rs:43-56 | a printed call parses back to the same call, whatever follows |
| LegacyRoundTrip.ExprRoundTrip | compiler/src/parser.rs:37-69 | every well-formed expression printed parses back to itself when what follows cannot extend a number |
| Legacy.ParseAssignment | compiler/src/parser.rs:95-108 | on success input was consumed |
| LegacyRoundTrip.AssignmentRoundTrip | compiler/src/parser.rs:95-108 | every printed assignment parses back to itself |
| LegacyCases.NumberWithUnderscore | compiler/src/parser.rs:142-148 | `12_3` is the number 123 |
| LegacyCases.PlainNumber | compiler/src/parser.rs:142-148 | `123` is the number 123 |
| LegacyCases.SphereInvocation | compiler/src/parser.rs:150-159 | `sphere(1, 2)` is a call with two number arguments |
| LegacyCases.AssignsNumber | compiler/src/parser.rs:161-177 | any name the earlier grammar reads can be bound to `100` |
| LegacyCases.ValidLhsNames | compiler/src/parser.rs:161-177 | `亞當`, `n` and `n123` are names there |
| LegacyCases.KeywordsBindable | compiler/src/parser.rs:80-108 | the earlier grammar reserves no word: `let = 100` is an assignment |
| LegacyCases.BadFollower | compiler/src/parser.rs:179-194 | a name followed by a non-alphanumeric character other than ` = ` is no assignment |
| LegacyCases.NameEndsAtParen | compiler/src/parser.rs:179-194 | `n( = 100` is no assignment |
| LegacyCases.NameEndsAtSpace | compiler/src/parser.rs:179-194 | `n h = 100` is no assignment |
| LegacyCases.NameEndsAtUnderscore | compiler/src/parser.rs:179-194 | `n_hello = 100` is no assignment |
| LegacyCases.DigitLed | compiler/src/parser.rs:179-194 | no input starting with a digit is an assignment |
| LegacyCases.DigitLedNames | compiler/src/parser.rs:179-194 | `123 = 100` and the long digit-led name are no assignments |
| Semantics.AllFunctions | compiler/src/semantics.rs:10-27 | one entry per function, in order: its name, the name's line and column, and its length in UTF-8 bytes |
| Semantics.AllFunctionsAppend | compiler/src/semantics.rs:13-14 | listing two parts of a program lists the first part, then the second |
| Semantics.EncodeChar | compiler/src/semantics.rs:23 | one to four bytes; a single byte iff the character is ASCII, and then the byte is the code; later bytes are continuation bytes and the first is not |
| Semantics.EncodeCharDecodes | compiler/src/semantics.rs:23 | the leading byte gives the sequence's length, and decoding gives back the character |
| Semantics.Encode | compiler/src/semantics.rs:23 | a string of `n` characters takes between `n` and `4n` bytes |
| Semantics.EncodeAppend | compiler/src/semantics.rs:23 | encoding a concatenation concatenates the encodings |
| Semantics.AsciiLength | compiler/src/semantics.rs:23 | the byte length equals the character count iff every character is ASCII |
| Semantics.ChineseNameLength | compiler/src/semantics.rs:23 | `亞當` is six bytes long |

## Left out

- The command-line tool in `cli/src/main.rs` is not modelled. It reads files, prints and exits.
- Error rendering in `compiler/src/displayable_error.rs` is not modelled. Trails are kept as data.
- `lib.rs` calls `AbstractSyntaxTree::parse`. That whole-program production is not part of this model.
- The `dbg!` trace in the operator parser (compiler/src/parser/implementations.rs:133) is not modelled. It prints and changes no result.
- The test helpers that render tables of results are not modelled.
- Chars.IsAlpha: Unicode alphabetic classification is exact for ASCII. Elsewhere a table of common letter ranges (Latin, Greek without the unassigned U+03A2, Cyrillic, CJK, Hangul, the Roman numeral letters and others) stands in for the full Unicode property.
- Chars.IsAlnum: numerics beyond the ASCII digits are a table of common ranges (superscripts, fractions, Arabic-Indic, Devanagari, circled and fullwidth digits), not the full Unicode numeric property.
- Grammar.ParseIdentifier: the message `map_res` builds for a reserved keyword is dropped. `VerboseError` keeps only the `MapRes` kind, and so does the model.
- Combinators.Fail: nom's separate `Error` and `Failure` outcomes are one `Err`. No parser here uses `cut`, so nothing produces a `Failure`.
- Legacy.ParseIdentifier: the earlier grammar's error type is nom's simple `Error`, which keeps one entry. The model keeps the whole trail; `Legacy.Innermost` gives the entry the simple type would report.
- Semantics.AllFunctions: it requires every name to carry its span. The parser's plain string input has no positions, so line and column are taken from the located input rather than computed.
- Semantics.AllFunctions: the `u32` and `usize` widths of the range fields are not modelled. The fields are unbounded naturals.
- Semantics.AllFunctions: `semantics.rs` reads names through located spans (`fragment`, `location_line`, `get_utf8_column`) and a `functions` field. The AST in `ast.rs` holds plain `&str` slices in a vector. The model follows `ast.rs` and gives each identifier an optional span.
- Recursive productions take the expression parser restricted to shorter inputs. This gives the same results as the unrestricted parser on every input it is called on, because every production consumes input before it recurses.
