/// The nom combinators the grammar is built from, with nom 7's behaviour on
/// complete (fully buffered) input: what each consumes, what it returns and
/// which error entries it adds to a `VerboseError`.
module Combinators {
  import opened Chars

  /// The `ErrorKind` codes this grammar can raise (`ErrorKind::Tag` is
  /// `TagKind` here, and so on).
  datatype ErrorKind = TagKind | OneOfKind | AlphaKind | Many1Kind | MapResKind | AltKind | SeparatedListKind

  /// What one entry of the error trail says: a nom error code, an expected
  /// character (from `char`), or a name added by `context`.
  datatype Reason = Nom(kind: ErrorKind) | Char(expected: char) | Context(name: string)

  /// One entry of the trail. `remaining` is how much input was left where the
  /// entry was recorded, so the entry's offset in a source `src` is
  /// `|src| - remaining`.
  datatype Entry = Entry(remaining: nat, reason: Reason)

  /// Read from the innermost entry outwards, each entry was recorded at the
  /// same place or earlier in the input than the one before it.
  predicate InOrder(entries: seq<Entry>) {
    forall i, j :: 0 <= i < j < |entries| ==> entries[i].remaining <= entries[j].remaining
  }

  /// The entries of a `VerboseError`, deepest first; never empty.
  type Trail = entries: seq<Entry> | |entries| > 0 && InOrder(entries)
    witness [Entry(0, Nom(TagKind))]

  /// Where the outermost entry was recorded.
  function Outermost(trail: Trail): nat {
    trail[|trail| - 1].remaining
  }

  /// `IResult<Input, T, VerboseError<Input>>` on complete input: either the
  /// parsed value and the input left over, or the trail of error entries,
  /// deepest first. (`Incomplete` cannot arise and nothing here raises the
  /// non-recoverable `Failure`.)
  datatype Res<+T> = Ok(value: T, rest: seq<char>) | Err(trail: Trail) {
    predicate IsFailure() {
      Err?
    }

    function PropagateFailure<U>(): Res<U>
      requires Err?
    {
      Err(trail)
    }

    function Extract(): (T, seq<char>)
      requires Ok?
    {
      (value, rest)
    }

    /// nom's `map`
    function Map<U>(f: T -> U): (r: Res<U>)
      ensures Ok? <==> r.Ok?
      ensures Ok? ==> r.value == f(value) && r.rest == rest
      ensures Err? ==> r.trail == trail
    {
      match this
      case Ok(v, rest) => Ok(f(v), rest)
      case Err(trail) => Err(trail)
    }
  }

  /// A parser over complete input. It is partial so that a recursive grammar
  /// can hand a combinator a parser that may only be called on shorter input.
  type Parser<T> = seq<char> --> Res<T>

  /// `s` with its first `k` characters removed, one at a time.
  function Drop(s: seq<char>, k: nat): (d: seq<char>)
    requires k <= |s|
    ensures |d| == |s| - k
    decreases k
  {
    if k == 0 then s else Drop(s[1..], k - 1)
  }

  lemma {:induction false} DropIsSlice(s: seq<char>, k: nat)
    requires k <= |s|
    ensures Drop(s, k) == s[k..]
    decreases k
  {
    if k > 0 {
      DropIsSlice(s[1..], k - 1);
      assert s[1..][k - 1..] == s[k..];
    }
  }

  /// `t` is what is left of `s` once some prefix of it has been consumed.
  predicate IsSuffix(t: seq<char>, s: seq<char>) {
    |t| <= |s| && Drop(s, |s| - |t|) == t
  }

  lemma SuffixOf(p: seq<char>, t: seq<char>)
    ensures IsSuffix(t, p + t)
  {
    DropIsSlice(p + t, |p|);
    assert (p + t)[|p|..] == t;
  }

  /// Dropping the first character leaves a suffix.
  lemma Rest1(s: seq<char>)
    requires |s| > 0
    ensures IsSuffix(s[1..], s)
  {
    SuffixOf([s[0]], s[1..]);
    assert [s[0]] + s[1..] == s;
  }

  lemma SuffixTransitive(u: seq<char>, t: seq<char>, s: seq<char>)
    requires IsSuffix(u, t) && IsSuffix(t, s)
    ensures IsSuffix(u, s)
  {
    DropIsSlice(s, |s| - |t|);
    DropIsSlice(t, |t| - |u|);
    DropIsSlice(s, |s| - |u|);
    assert s[|s| - |t|..][|t| - |u|..] == s[|s| - |u|..];
  }

  /// What every parser here guarantees: a success leaves a suffix of its
  /// input, a failure's trail ends no earlier than where the parse started.
  ghost predicate WellBehaved<T>(s: seq<char>, r: Res<T>) {
    match r
    case Ok(_, rest) => IsSuffix(rest, s)
    case Err(trail) => Outermost(trail) <= |s|
  }

  /// `p` may be called on every input of length at most `n` and is well
  /// behaved there.
  ghost predicate Sound<T>(p: Parser<T>, n: nat) {
    forall t: seq<char> {:trigger p.requires(t)} {:trigger p(t)} | |t| <= n :: p.requires(t) && WellBehaved(t, p(t))
  }

  lemma SoundWeaken<T>(p: Parser<T>, n: nat, m: nat)
    requires Sound(p, n) && m <= n
    ensures Sound(p, m)
  {
  }

  /// A single-entry error at input `s`.
  function Fail<T>(s: seq<char>, reason: Reason): (r: Res<T>)
    ensures WellBehaved(s, r)
  {
    Err([Entry(|s|, reason)])
  }

  /// The trail with one more entry, recorded at the start of input of
  /// length `at`, outermost.
  function Push(trail: Trail, at: nat, reason: Reason): (t: Trail)
    requires Outermost(trail) <= at
    ensures t == trail + [Entry(at, reason)]
    ensures Outermost(t) == at
  {
    var t := trail + [Entry(at, reason)];
    assert forall i, j :: 0 <= i < j < |t| ==> t[i].remaining <= t[j].remaining by {
      forall i, j | 0 <= i < j < |t| ensures t[i].remaining <= t[j].remaining {
        if j == |trail| && i < |trail| - 1 {
          assert trail[i].remaining <= trail[|trail| - 1].remaining;
        }
      }
    }
    t
  }

  /// nom's `context(name, p)`: on failure, records the name at the input
  /// the wrapped parser was given.
  function WithContext<T>(name: string, s: seq<char>, r: Res<T>): (c: Res<T>)
    requires WellBehaved(s, r)
    ensures WellBehaved(s, c)
    ensures r.Ok? ==> c == r
    ensures r.Err? ==> c.Err? && c.trail == r.trail + [Entry(|s|, Context(name))]
  {
    match r
    case Ok(_, _) => r
    case Err(trail) => Err(Push(trail, |s|, Context(name)))
  }

  /// nom's `tag(t)`: matches the literal `t` at the front of the input.
  function Tag(t: string, s: seq<char>): (r: Res<string>)
    ensures WellBehaved(s, r)
    ensures r.Ok? <==> t <= s
    ensures r.Ok? ==> r.value == t && r.rest == s[|t|..]
  {
    if t <= s then
      assert s == t + s[|t|..];
      SuffixOf(t, s[|t|..]);
      Ok(t, s[|t|..])
    else Fail(s, Nom(TagKind))
  }

  /// nom's `char(c)`
  function OneChar(c: char, s: seq<char>): (r: Res<char>)
    ensures WellBehaved(s, r)
    ensures r.Ok? <==> |s| > 0 && s[0] == c
    ensures r.Ok? ==> r.value == c && r.rest == s[1..]
    ensures r.Err? ==> r.trail == [Entry(|s|, Char(c))]
  {
    if |s| > 0 && s[0] == c then Rest1(s); Ok(c, s[1..]) else Fail(s, Char(c))
  }

  /// nom's `one_of(chars)`
  function OneOf(chars: string, s: seq<char>): (r: Res<char>)
    ensures WellBehaved(s, r)
    ensures r.Ok? <==> |s| > 0 && s[0] in chars
    ensures r.Ok? ==> r.value == s[0] && r.rest == s[1..]
  {
    if |s| > 0 && s[0] in chars then Rest1(s); Ok(s[0], s[1..]) else Fail(s, Nom(OneOfKind))
  }

  /// nom's `character::complete::newline`, which is `char('\n')`.
  function Newline(s: seq<char>): (r: Res<char>)
    ensures WellBehaved(s, r)
    ensures r.Ok? <==> |s| > 0 && s[0] == '\n'
    ensures r.Ok? ==> r.rest == s[1..]
  {
    OneChar('\n', s)
  }

  /// The length of the longest prefix of `s` whose characters are all in
  /// the class `inClass`.
  function RunLength(inClass: char -> bool, s: seq<char>): (n: nat)
    ensures n <= |s|
    decreases |s|
  {
    if |s| > 0 && inClass(s[0]) then 1 + RunLength(inClass, s[1..]) else 0
  }

  /// The run is all in the class and is followed by a non-member, if
  /// anything.
  lemma {:induction false} RunLengthClass(inClass: char -> bool, s: seq<char>)
    ensures forall k :: 0 <= k < RunLength(inClass, s) ==> inClass(s[k])
    ensures RunLength(inClass, s) == |s| || !inClass(s[RunLength(inClass, s)])
    decreases |s|
  {
    if |s| > 0 && inClass(s[0]) {
      RunLengthClass(inClass, s[1..]);
      forall k | 1 <= k < RunLength(inClass, s)
        ensures inClass(s[k])
      {
        assert s[k] == s[1..][k - 1];
      }
    }
  }

  /// The run ends exactly where the class does: a prefix of class members
  /// followed by a non-member (or nothing) is the whole run.
  lemma {:induction false} RunLengthExact(inClass: char -> bool, s: seq<char>, m: nat)
    requires m <= |s|
    requires forall k :: 0 <= k < m ==> inClass(s[k])
    requires m == |s| || !inClass(s[m])
    ensures RunLength(inClass, s) == m
    decreases |s|
  {
    if m > 0 {
      RunLengthExact(inClass, s[1..], m - 1);
    }
  }

  /// nom's `multispace0`: skips spaces, tabs, carriage returns and line
  /// feeds; never fails.
  function MultiSpace0(s: seq<char>): (r: Res<seq<char>>)
    ensures r.Ok? && WellBehaved(s, r)
    ensures r.value == s[..RunLength(IsMultispace, s)]
    ensures r.rest == s[RunLength(IsMultispace, s)..]
  {
    var n := RunLength(IsMultispace, s);
    DropIsSlice(s, n);
    Ok(s[..n], s[n..])
  }

  /// nom_unicode's `alpha1`: one or more alphabetic characters.
  function Alpha1(s: seq<char>): (r: Res<seq<char>>)
    ensures WellBehaved(s, r)
    ensures r.Ok? <==> |s| > 0 && IsAlpha(s[0])
    ensures r.Ok? ==> r.value == s[..RunLength(IsAlpha, s)] && r.rest == s[RunLength(IsAlpha, s)..]
  {
    var n := RunLength(IsAlpha, s);
    if n == 0 then Fail(s, Nom(AlphaKind))
    else DropIsSlice(s, n); Ok(s[..n], s[n..])
  }

  /// nom_unicode's `alphanumeric0`: zero or more alphanumeric characters.
  function Alphanumeric0(s: seq<char>): (r: Res<seq<char>>)
    ensures r.Ok? && WellBehaved(s, r)
    ensures r.value == s[..RunLength(IsAlnum, s)]
    ensures r.rest == s[RunLength(IsAlnum, s)..]
  {
    var n := RunLength(IsAlnum, s);
    DropIsSlice(s, n);
    Ok(s[..n], s[n..])
  }

  /// The choice inside nom's `alt`: the first result if it succeeded,
  /// otherwise the second (`VerboseError::or` keeps the later error).
  function Or<T>(first: Res<T>, second: Res<T>): (r: Res<T>)
    ensures first.Ok? ==> r == first
    ensures first.Err? ==> r == second
  {
    if first.Ok? then first else second
  }

  /// nom's `alt` on input `s`, given the `Or` of its alternatives' results:
  /// a failure gets an `Alt` entry at `s`.
  function Alt<T>(s: seq<char>, r: Res<T>): (a: Res<T>)
    requires WellBehaved(s, r)
    ensures WellBehaved(s, a)
    ensures r.Ok? ==> a == r
    ensures r.Err? ==> a.Err? && a.trail == r.trail + [Entry(|s|, Nom(AltKind))]
  {
    match r
    case Ok(_, _) => r
    case Err(trail) => Err(Push(trail, |s|, Nom(AltKind)))
  }

  /// nom's `many1(p)`: `p` once, then as often as it keeps succeeding.
  function Many1<T>(p: Parser<T>, s: seq<char>): (r: Res<seq<T>>)
    requires Sound(p, |s|)
    ensures WellBehaved(s, r)
    ensures r.Ok? ==> |r.value| > 0 && |r.rest| < |s|
  {
    var first := p(s);
    match first
    case Err(trail) => Err(Push(trail, |s|, Nom(Many1Kind)))
    case Ok(v, rest) =>
      // nom checks for progress only inside the loop, where an element that
      // consumed nothing is parsed again from the same input and fails there
      if |rest| == |s| then
        assert rest == s;
        Many1Loop(p, rest, [v])
      else
        var r := Many1Loop(p, rest, [v]);
        if r.Err? then r
        else SuffixTransitive(r.rest, rest, s); r
  }

  /// The loop of `many1` after the first element, with the elements so far.
  function Many1Loop<T>(p: Parser<T>, s: seq<char>, acc: seq<T>): (r: Res<seq<T>>)
    requires Sound(p, |s|)
    ensures WellBehaved(s, r)
    ensures r.Ok? ==> |r.value| >= |acc|
    decreases |s|
  {
    var next := p(s);
    match next
    case Err(_) => Ok(acc, s)
    case Ok(v, rest) =>
      if |rest| == |s| then
        // infinite-loop guard: an element that consumes nothing is an error
        Fail(s, Nom(Many1Kind))
      else
        var r := Many1Loop(p, rest, acc + [v]);
        if r.Err? then r
        else SuffixTransitive(r.rest, rest, s); r
  }

  /// nom's `separated_list0(tag(sep), p)`: zero or more `p`, separated by
  /// `sep`. A separator not followed by an element is left unconsumed.
  function SeparatedList0<T>(sep: string, p: Parser<T>, s: seq<char>): (r: Res<seq<T>>)
    requires Sound(p, |s|)
    ensures WellBehaved(s, r)
  {
    var first := p(s);
    match first
    case Err(_) => Ok([], s)
    case Ok(v, rest) =>
      var r := SeparatedListLoop(sep, p, rest, [v]);
      if r.Err? then r
      else SuffixTransitive(r.rest, rest, s); r
  }

  /// The loop of `separated_list0` after the first element.
  function SeparatedListLoop<T>(sep: string, p: Parser<T>, s: seq<char>, acc: seq<T>): (r: Res<seq<T>>)
    requires Sound(p, |s|)
    ensures WellBehaved(s, r)
    ensures r.Ok? ==> |r.value| >= |acc|
    decreases |s|
  {
    var afterSep := Tag(sep, s);
    if afterSep.Err? then Ok(acc, s)
    else if |afterSep.rest| == |s| then
      // infinite-loop guard: a separator that consumes nothing is an error
      Fail(afterSep.rest, Nom(SeparatedListKind))
    else
      var next := p(afterSep.rest);
      if next.Err? then Ok(acc, s)
      else
        SuffixTransitive(next.rest, afterSep.rest, s);
        SoundWeaken(p, |s|, |next.rest|);
        var r := SeparatedListLoop(sep, p, next.rest, acc + [next.value]);
        if r.Err? then r
        else SuffixTransitive(r.rest, next.rest, s); r
  }

  /// `many1` whose first element succeeds and consumes input goes on to its
  /// loop after that element.
  lemma Many1First<T>(p: Parser<T>, s: seq<char>)
    requires Sound(p, |s|)
    requires p(s).Ok? && |p(s).rest| < |s|
    ensures Many1(p, s) == Many1Loop(p, p(s).rest, [p(s).value])
  {
  }

  /// One more round of the `many1` loop: an element that succeeds and
  /// consumes input is appended.
  lemma Many1LoopStep<T>(p: Parser<T>, s: seq<char>, acc: seq<T>)
    requires Sound(p, |s|)
    requires p(s).Ok? && |p(s).rest| < |s|
    ensures Many1Loop(p, s, acc) == Many1Loop(p, p(s).rest, acc + [p(s).value])
  {
  }

  /// The `many1` loop ends, successfully, at the first element that fails.
  lemma Many1LoopStop<T>(p: Parser<T>, s: seq<char>, acc: seq<T>)
    requires Sound(p, |s|)
    requires p(s).Err?
    ensures Many1Loop(p, s, acc).Ok?
    ensures Many1Loop(p, s, acc).value == acc
    ensures Many1Loop(p, s, acc).rest == s
  {
  }

  /// `separated_list0` whose first element succeeds goes on to its loop.
  lemma SeparatedFirst<T>(sep: string, p: Parser<T>, s: seq<char>)
    requires Sound(p, |s|)
    requires p(s).Ok?
    ensures SeparatedList0(sep, p, s) == SeparatedListLoop(sep, p, p(s).rest, [p(s).value])
  {
  }

  /// `separated_list0` whose first element fails is the empty list.
  lemma SeparatedEmpty<T>(sep: string, p: Parser<T>, s: seq<char>)
    requires Sound(p, |s|)
    requires p(s).Err?
    ensures SeparatedList0(sep, p, s).Ok?
    ensures SeparatedList0(sep, p, s).value == []
    ensures SeparatedList0(sep, p, s).rest == s
  {
  }

  /// One more round of the `separated_list0` loop: a separator, then an
  /// element that succeeds.
  lemma SeparatedStep<T>(sep: string, p: Parser<T>, s: seq<char>, acc: seq<T>)
    requires Sound(p, |s|)
    requires |sep| > 0 && sep <= s
    requires p(s[|sep|..]).Ok?
    ensures SeparatedListLoop(sep, p, s, acc) ==
      SeparatedListLoop(sep, p, p(s[|sep|..]).rest, acc + [p(s[|sep|..]).value])
  {
  }

  /// The `separated_list0` loop ends, successfully, where no separator
  /// follows.
  lemma SeparatedStop<T>(sep: string, p: Parser<T>, s: seq<char>, acc: seq<T>)
    requires Sound(p, |s|)
    requires !(sep <= s)
    ensures SeparatedListLoop(sep, p, s, acc).Ok?
    ensures SeparatedListLoop(sep, p, s, acc).value == acc
    ensures SeparatedListLoop(sep, p, s, acc).rest == s
  {
  }
}
