/// The listing of a program's functions that editor tooling reads: each
/// function's name with where it sits in the source.
module Semantics {
  import opened Ast

  /// Where a name sits: the line and column it starts at, and its length
  /// in bytes of UTF-8.
  datatype SourceRange = SourceRange(startLine: nat, startColumn: nat, length: nat)

  type Byte = b: int | 0 <= b < 0x100

  /// A continuation byte of UTF-8: `10xxxxxx`.
  predicate IsContinuation(b: Byte) {
    0x80 <= b < 0xC0
  }

  /// The UTF-8 encoding of one character (RFC 3629, section 3): one byte
  /// below U+0080, two below U+0800, three below U+10000, four above; a
  /// leading byte that announces the length, then continuation bytes
  /// holding six bits each.
  function EncodeChar(c: char): (bytes: seq<Byte>)
    ensures 1 <= |bytes| <= 4
    ensures |bytes| == 1 <==> c as int < 0x80
    ensures |bytes| == 1 ==> bytes[0] == c as int
    ensures forall k :: 1 <= k < |bytes| ==> IsContinuation(bytes[k])
    ensures !IsContinuation(bytes[0])
  {
    var n := c as int;
    if n < 0x80 then [n]
    else if n < 0x800 then [0xC0 + n / 0x40, 0x80 + n % 0x40]
    else if n < 0x1_0000 then [0xE0 + n / 0x1000, 0x80 + n / 0x40 % 0x40, 0x80 + n % 0x40]
    else [0xF0 + n / 0x4_0000, 0x80 + n / 0x1000 % 0x40, 0x80 + n / 0x40 % 0x40, 0x80 + n % 0x40]
  }

  /// The number of bytes a leading byte announces.
  function SequenceLength(lead: Byte): nat {
    if lead < 0x80 then 1 else if lead < 0xE0 then 2 else if lead < 0xF0 then 3 else 4
  }

  /// Reads one character back from its bytes: the leading byte's payload
  /// followed by six bits from each continuation byte.
  function DecodeChar(bytes: seq<Byte>): int
    requires 1 <= |bytes| <= 4
  {
    var lead: int := bytes[0];
    var payload := seq(|bytes| - 1, k requires 0 <= k < |bytes| - 1 => bytes[k + 1] as int - 0x80);
    if |bytes| == 1 then lead
    else if |bytes| == 2 then (lead - 0xC0) * 0x40 + payload[0]
    else if |bytes| == 3 then (lead - 0xE0) * 0x1000 + payload[0] * 0x40 + payload[1]
    else (lead - 0xF0) * 0x4_0000 + payload[0] * 0x1000 + payload[1] * 0x40 + payload[2]
  }

  lemma TwoBytes(n: int)
    requires 0x80 <= n < 0x800
    ensures (n / 0x40) * 0x40 + n % 0x40 == n
    ensures 0xC0 + n / 0x40 < 0xE0
  {
  }

  lemma ThreeBytes(n: int)
    requires 0x800 <= n < 0x1_0000
    ensures (n / 0x1000) * 0x1000 + (n / 0x40 % 0x40) * 0x40 + n % 0x40 == n
    ensures 0xE0 + n / 0x1000 < 0xF0
  {
    assert n / 0x40 == (n / 0x1000) * 0x40 + n / 0x40 % 0x40;
  }

  lemma FourBytes(n: int)
    requires 0x1_0000 <= n < 0x11_0000
    ensures (n / 0x4_0000) * 0x4_0000 + (n / 0x1000 % 0x40) * 0x1000 + (n / 0x40 % 0x40) * 0x40 + n % 0x40 == n
    ensures 0xF0 <= 0xF0 + n / 0x4_0000
  {
    assert n / 0x1000 == (n / 0x4_0000) * 0x40 + n / 0x1000 % 0x40;
    assert n / 0x40 == (n / 0x1000) * 0x40 + n / 0x40 % 0x40;
  }

  /// The encoding is read back, and its leading byte says how long it is.
  lemma EncodeCharDecodes(c: char)
    ensures SequenceLength(EncodeChar(c)[0]) == |EncodeChar(c)|
    ensures DecodeChar(EncodeChar(c)) == c as int
  {
    var n := c as int;
    if n < 0x80 {
    } else if n < 0x800 {
      TwoBytes(n);
    } else if n < 0x1_0000 {
      ThreeBytes(n);
    } else {
      FourBytes(n);
    }
  }

  /// The UTF-8 encoding of a string, character by character.
  function Encode(s: string): (bytes: seq<Byte>)
    ensures |s| <= |bytes| <= 4 * |s|
  {
    if s == [] then [] else EncodeChar(s[0]) + Encode(s[1..])
  }

  /// Rust's `str::len`: the length of the text in bytes of UTF-8.
  function Utf8Length(s: string): nat {
    |Encode(s)|
  }

  /// The encoding of a concatenation is the concatenation of the
  /// encodings.
  lemma {:induction false} EncodeAppend(a: string, b: string)
    ensures Encode(a + b) == Encode(a) + Encode(b)
  {
    if a == [] {
      assert a + b == b;
    } else {
      assert (a + b)[0] == a[0];
      assert (a + b)[1..] == a[1..] + b;
      EncodeAppend(a[1..], b);
      calc {
        Encode(a + b);
        EncodeChar(a[0]) + Encode(a[1..] + b);
        EncodeChar(a[0]) + (Encode(a[1..]) + Encode(b));
        (EncodeChar(a[0]) + Encode(a[1..])) + Encode(b);
      }
    }
  }

  /// One byte per character exactly when every character is ASCII.
  lemma {:induction false} AsciiLength(s: string)
    ensures Utf8Length(s) == |s| <==> forall k :: 0 <= k < |s| ==> s[k] as int < 0x80
  {
    if s != [] {
      AsciiLength(s[1..]);
      assert forall k :: 1 <= k < |s| ==> s[k] == s[1..][k - 1];
      assert |Encode(s[1..])| >= |s[1..]|;
    }
  }

  /// A name in two Chinese characters takes six bytes.
  lemma ChineseNameLength()
    ensures Utf8Length("亞當") == 6
  {
    assert "亞當"[1..] == "當";
    assert "當"[1..] == [];
  }

  /// Where a function's name is: the span it was parsed from, with the
  /// name's length in bytes.
  function NameRange(f: FnDef): SourceRange
    requires f.fnName.span.Some?
  {
    SourceRange(f.fnName.span.value.line, f.fnName.span.value.column, Utf8Length(f.fnName.text))
  }

  /// `AbstractSyntaxTree::all_functions`: every function, in order, as its
  /// name and the range of the name. The identifiers are read from the
  /// located input, so each carries its span.
  function AllFunctions(ast: AbstractSyntaxTree): (r: seq<(string, SourceRange)>)
    requires forall f | f in ast :: f.fnName.span.Some?
    ensures |r| == |ast|
    ensures forall i :: 0 <= i < |ast| ==>
      && r[i].0 == ast[i].fnName.text
      && r[i].1.startLine == ast[i].fnName.span.value.line
      && r[i].1.startColumn == ast[i].fnName.span.value.column
      && r[i].1.length == |Encode(ast[i].fnName.text)|
  {
    if ast == [] then []
    else
      assert ast[0] in ast;
      assert forall f | f in ast[1..] :: f in ast;
      var rest := AllFunctions(ast[1..]);
      assert forall i :: 1 <= i < |ast| ==> ast[i] == ast[1..][i - 1];
      [(ast[0].fnName.text, NameRange(ast[0]))] + rest
  }

  /// Listing a program made of two parts lists the first part, then the
  /// second.
  lemma {:induction false} AllFunctionsAppend(a: AbstractSyntaxTree, b: AbstractSyntaxTree)
    requires forall f | f in a + b :: f.fnName.span.Some?
    ensures forall f | f in a :: f.fnName.span.Some?
    ensures forall f | f in b :: f.fnName.span.Some?
    ensures AllFunctions(a + b) == AllFunctions(a) + AllFunctions(b)
  {
    assert forall f | f in a :: f in a + b;
    assert forall f | f in b :: f in a + b;
  }
}
