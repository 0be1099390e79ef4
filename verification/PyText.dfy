/** The parts of Python's text operations that the modelled code relies on. */
module PyText {
  import opened Prelude

  /** A Python character: any code point, lone surrogates included. */
  type CodePoint = n: nat | n < 0x110000

  /** A Python `str`. */
  type Text = seq<CodePoint>

  /** The text that an ASCII literal of the source denotes. */
  function T(s: string): (t: Text)
    ensures |t| == |s|
  {
    seq(|s|, i requires 0 <= i < |s| => s[i] as int as CodePoint)
  }

  /** `str.isspace` on one character. */
  predicate IsSpace(c: int) {
    || 0x09 <= c <= 0x0D || 0x1C <= c <= 0x20 || c == 0x85 || c == 0xA0 || c == 0x1680
    || 0x2000 <= c <= 0x200A || c == 0x2028 || c == 0x2029 || c == 0x202F || c == 0x205F || c == 0x3000
  }

  predicate IsDigit(c: int) {
    0x30 <= c <= 0x39
  }

  predicate CharIsSpace(c: char) { IsSpace(c as int) }
  predicate CodeIsSpace(c: CodePoint) { IsSpace(c) }

  /** Drop leading elements that satisfy `p`. */
  function DropWhile<A>(s: seq<A>, p: A -> bool): (r: seq<A>)
    ensures |r| <= |s| && r == s[|s| - |r|..]
    ensures r != [] ==> !p(r[0])
    ensures forall i :: 0 <= i < |s| - |r| ==> p(s[i])
  {
    if s != [] && p(s[0]) then DropWhile(s[1..], p) else s
  }

  /** Drop trailing elements that satisfy `p`. */
  function DropTail<A>(s: seq<A>, p: A -> bool): (r: seq<A>)
    ensures |r| <= |s| && r == s[..|r|]
    ensures r != [] ==> !p(r[|r| - 1])
    ensures forall i :: |r| <= i < |s| ==> p(s[i])
  {
    if s != [] && p(s[|s| - 1]) then DropTail(s[..|s| - 1], p) else s
  }

  function StripBy<A>(s: seq<A>, p: A -> bool): seq<A> {
    DropTail(DropWhile(s, p), p)
  }

  /** `str.strip()` */
  function Strip(s: string): string { StripBy(s, CharIsSpace) }

  /** What a strip leaves has nothing to strip at either end, so a second strip changes nothing. */
  lemma StripByTwice<A>(s: seq<A>, p: A -> bool)
    ensures StripBy(StripBy(s, p), p) == StripBy(s, p)
  {
    var front := DropWhile(s, p);
    var r := DropTail(front, p);
    if r != [] {
      assert r[0] == front[0];
    }
  }

  /** What stands between spaces, and neither starts nor ends with one, is what a strip leaves. */
  lemma StripBetween<A>(before: seq<A>, core: seq<A>, after: seq<A>, p: A -> bool)
    requires (forall i :: 0 <= i < |before| ==> p(before[i])) && (forall i :: 0 <= i < |after| ==> p(after[i]))
    requires core != [] && !p(core[0]) && !p(core[|core| - 1])
    ensures StripBy(before + core + after, p) == core
  {
    hide DropWhile, DropTail;
    var s := before + core + after;
    var front := DropWhile(s, p);
    assert s[|before|] == core[0];
    assert |s| - |front| <= |before|;
    assert forall i :: 0 <= i < |before| ==> s[i] == before[i];
    assert front == s[|s| - |front|..];
    assert front == core + after;
    var r := DropTail(front, p);
    assert front[|core| - 1] == core[|core| - 1];
    assert |r| >= |core|;
    assert forall i :: |core| <= i < |front| ==> front[i] == after[i - |core|];
  }

  /** `str.lower()` on ASCII letters; other characters are left alone. */
  function LowerChar(c: char): char {
    if 'A' <= c <= 'Z' then (c as int + 32) as char else c
  }

  function Lower(s: string): (r: string)
    ensures |r| == |s|
    ensures forall i :: 0 <= i < |s| ==> r[i] == LowerChar(s[i])
  {
    seq(|s|, i requires 0 <= i < |s| => LowerChar(s[i]))
  }

  predicate IsWordChar(c: int) {
    IsDigit(c) || 0x41 <= c <= 0x5A || 0x61 <= c <= 0x7A || c == 0x5F
  }

  /** `\b` at position i. */
  predicate WordBoundary(s: Text, i: nat)
    requires i <= |s|
  {
    (i > 0 && IsWordChar(s[i - 1])) != (i < |s| && IsWordChar(s[i]))
  }

  /** The ASCII word `word`, in either case, at position i. */
  predicate WordAt(s: Text, i: nat, word: Text)
    requires i <= |s|
  {
    |word| <= |s| - i && forall k :: 0 <= k < |word| ==> s[i + k] == word[k] || s[i + k] as int + 0x20 == word[k] as int
  }

  /** `int(text.strip())` for ASCII digits: a sign, then digits with single underscores between them. */
  function ParseInt(text: Text): Option<int> {
    var s := StripBy(text, CodeIsSpace);
    var signed := s != [] && (s[0] == 0x2D || s[0] == 0x2B);
    match Digits(if signed then s[1..] else s)
    case Some(n) => Some(if signed && s[0] == 0x2D then -(n as int) else n)
    case None => None
  }

  /** A run of digits, an underscore allowed between two of them. */
  function Digits(s: Text): Option<nat> {
    if s == [] || !IsDigit(s[|s| - 1]) then None
    else
      var d := s[|s| - 1] - 0x30;
      var front := s[..|s| - 1];
      if front == [] then Some(d)
      else
        var higher := if front[|front| - 1] == 0x5F then front[..|front| - 1] else front;
        match Digits(higher)
        case Some(n) => Some(10 * n + d)
        case None => None
  }
}
