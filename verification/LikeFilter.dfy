/**
  A SQL LIKE pattern compiled to a regular expression, the reading of that
  expression, and when matching it is LIKE.
 */
module LikeFilter {
  import opened Prelude
  import opened PyText

  const PERCENT: CodePoint := 0x25
  const UNDERSCORE: CodePoint := 0x5F
  const DOT: CodePoint := 0x2E
  const STAR: CodePoint := 0x2A
  const BACKSLASH: CodePoint := 0x5C
  const CARET: CodePoint := 0x5E
  const DOLLAR: CodePoint := 0x24
  const NEWLINE: CodePoint := 0x0A

  // ----------------------------------------------------------------- compilation

  /** The characters that `re.escape` puts a backslash before. */
  predicate NeedsEscape(c: CodePoint) {
    || c == 0x28 || c == 0x29 || c == 0x5B || c == 0x5D || c == 0x7B || c == 0x7D || c == 0x3F || c == STAR
    || c == 0x2B || c == 0x2D || c == 0x7C || c == CARET || c == DOLLAR || c == BACKSLASH || c == DOT
    || c == 0x26 || c == 0x7E || c == 0x23 || c == 0x20 || 0x09 <= c <= 0x0D
  }

  /** The part of the expression that one pattern character gives. */
  function RegexPart(c: CodePoint): Text {
    if c == PERCENT then [DOT, STAR]
    else if c == UNDERSCORE then [DOT]
    else if NeedsEscape(c) then [BACKSLASH, c]
    else [c]
  }

  function RegexParts(pattern: Text): Text {
    if pattern == [] then [] else RegexPart(pattern[0]) + RegexParts(pattern[1..])
  }

  function Compiled(pattern: Text): Text {
    [CARET] + RegexParts(pattern) + [DOLLAR]
  }

  lemma {:induction false} RegexPartsAppend(pattern: Text, c: CodePoint)
    ensures RegexParts(pattern + [c]) == RegexParts(pattern) + RegexPart(c)
  {
    if pattern == [] {
      assert [c][1..] == [];
    } else {
      assert (pattern + [c])[1..] == pattern[1..] + [c];
      RegexPartsAppend(pattern[1..], c);
    }
  }

  method CompileSqlLikePattern(nameLike: Text) returns (regex: Text)
    ensures regex == Compiled(nameLike)
  {
    var parts: Text := [];
    for i := 0 to |nameLike|
      invariant parts == RegexParts(nameLike[..i])
    {
      RegexPartsAppend(nameLike[..i], nameLike[i]);
      assert nameLike[..i + 1] == nameLike[..i] + [nameLike[i]];
      if nameLike[i] == PERCENT {
        parts := parts + [DOT, STAR];
      } else if nameLike[i] == UNDERSCORE {
        parts := parts + [DOT];
      } else if NeedsEscape(nameLike[i]) {
        parts := parts + [BACKSLASH, nameLike[i]];
      } else {
        parts := parts + [nameLike[i]];
      }
    }
    assert nameLike[..|nameLike|] == nameLike;
    regex := [CARET] + parts + [DOLLAR];
  }

  // --------------------------------------------------- what the expression means

  datatype Atom = AnyChar | AnyRun | Literal(c: CodePoint)

  /** Characters with a meaning of their own in an expression, outside the forms read below. */
  predicate IsMeta(c: CodePoint) {
    || c == 0x28 || c == 0x29 || c == 0x5B || c == 0x5D || c == 0x7B || c == 0x7D || c == 0x3F
    || c == STAR || c == 0x2B || c == 0x7C || c == CARET || c == DOLLAR || c == BACKSLASH || c == DOT
  }

  predicate IsAsciiAlnum(c: CodePoint) {
    IsDigit(c) || 0x41 <= c <= 0x5A || 0x61 <= c <= 0x7A
  }

  /** The atoms of `...$`: dots, dot-stars, escaped punctuation and plain characters; None for any other syntax. */
  function ReadAtoms(s: Text): Option<seq<Atom>>
    decreases |s|
  {
    if s == [] then None
    else if s == [DOLLAR] then Some([])
    else if |s| >= 2 && s[0] == DOT && s[1] == STAR then Then(AnyRun, ReadAtoms(s[2..]))
    else if s[0] == DOT then Then(AnyChar, ReadAtoms(s[1..]))
    else if |s| >= 2 && s[0] == BACKSLASH && !IsAsciiAlnum(s[1]) then Then(Literal(s[1]), ReadAtoms(s[2..]))
    else if !IsMeta(s[0]) then Then(Literal(s[0]), ReadAtoms(s[1..]))
    else None
  }

  function Then(atom: Atom, rest: Option<seq<Atom>>): Option<seq<Atom>> {
    match rest
    case None => None
    case Some(atoms) => Some([atom] + atoms)
  }

  function ReadRegex(s: Text): Option<seq<Atom>> {
    if s != [] && s[0] == CARET then ReadAtoms(s[1..]) else None
  }

  /** `fullmatch`: a dot matches any character but a newline. */
  predicate Matches(atoms: seq<Atom>, name: Text)
    decreases |atoms|
  {
    if atoms == [] then name == []
    else
      match atoms[0]
      case AnyChar => name != [] && name[0] != NEWLINE && Matches(atoms[1..], name[1..])
      case Literal(c) => name != [] && name[0] == c && Matches(atoms[1..], name[1..])
      case AnyRun => exists k :: 0 <= k <= |name| && NEWLINE !in name[..k] && Matches(atoms[1..], name[k..])
  }

  function AtomOf(c: CodePoint): Atom {
    if c == PERCENT then AnyRun else if c == UNDERSCORE then AnyChar else Literal(c)
  }

  function AtomsOf(pattern: Text): seq<Atom> {
    if pattern == [] then [] else [AtomOf(pattern[0])] + AtomsOf(pattern[1..])
  }

  /** The text of every part is read back as its atom: nothing in a pattern escapes its escape. */
  lemma {:induction false} ReadParts(pattern: Text, end: Text)
    requires end == [DOLLAR]
    ensures ReadAtoms(RegexParts(pattern) + end) == Some(AtomsOf(pattern))
  {
    var s := RegexParts(pattern) + end;
    if pattern == [] {
      assert s == [DOLLAR];
    } else {
      var part, tail := RegexPart(pattern[0]), RegexParts(pattern[1..]) + end;
      assert s == part + tail;
      ReadParts(pattern[1..], end);
      TailStart(pattern[1..], end);
      assert s[|part|..] == tail && s[|part|] == tail[0];
      assert AtomsOf(pattern) == [AtomOf(pattern[0])] + AtomsOf(pattern[1..]);
      ReadPart(pattern[0], s, tail);
    }
  }

  lemma ReadPart(c: CodePoint, s: Text, tail: Text)
    requires s == RegexPart(c) + tail && tail != [] && tail[0] != STAR
    ensures ReadAtoms(s) == Then(AtomOf(c), ReadAtoms(tail))
  {
    hide AtomsOf, RegexParts;
    var part := RegexPart(c);
    assert s[|part|..] == tail && s[0] == part[0] && s[|part|] == tail[0];
    if c == PERCENT {
      assert s[1] == STAR && s[2..] == tail;
    } else if c == UNDERSCORE {
      assert s[0] == DOT && s[1..] == tail;
    } else if NeedsEscape(c) {
      assert s[1] == c && s[2..] == tail;
    } else {
      assert s[0] == c && s[1..] == tail && !IsMeta(c);
    }
  }

  /** What follows a part never starts with a star. */
  lemma TailStart(pattern: Text, end: Text)
    requires end == [DOLLAR]
    ensures RegexParts(pattern) + end != [] && (RegexParts(pattern) + end)[0] != STAR
  {
    if pattern != [] {
      assert (RegexParts(pattern) + end)[0] == RegexPart(pattern[0])[0];
    }
  }

  lemma ReadCompiled(pattern: Text)
    ensures ReadRegex(Compiled(pattern)) == Some(AtomsOf(pattern))
  {
    assert Compiled(pattern)[1..] == RegexParts(pattern) + [DOLLAR];
    ReadParts(pattern, [DOLLAR]);
  }

  // ------------------------------------------------------------ the LIKE predicate

  /**
    LIKE without an escape character (ISO/IEC 9075-2, section 8.5): the name is cut
    into one piece per pattern character; a percent sign takes any piece, an
    underscore any one character, another character itself.  With `newlines`
    false, the pieces of the wildcards are without newlines.
   */
  ghost predicate Fits(pattern: Text, name: Text, cuts: seq<nat>, newlines: bool) {
    && |cuts| == |pattern| + 1
    && cuts[0] == 0 && cuts[|pattern|] == |name|
    && forall i :: 0 <= i < |pattern| ==> FitsPiece(pattern[i], name, cuts[i], cuts[i + 1], newlines)
  }

  predicate FitsPiece(c: CodePoint, name: Text, from: nat, to: nat, newlines: bool) {
    && from <= to <= |name|
    && (c == PERCENT ==> newlines || NEWLINE !in name[from..to])
    && (c != PERCENT ==> to == from + 1)
    && (c == UNDERSCORE ==> newlines || name[from] != NEWLINE)
    && (c != PERCENT && c != UNDERSCORE ==> name[from] == c)
  }

  ghost predicate Like(pattern: Text, name: Text) {
    exists cuts :: Fits(pattern, name, cuts, true)
  }

  /** The same with wildcards that stop at a newline. */
  ghost predicate LikeInLine(pattern: Text, name: Text) {
    exists cuts :: Fits(pattern, name, cuts, false)
  }

  /** Cuts of the whole name from the first cut and the cuts of what is left. */
  lemma ConsCuts(pattern: Text, name: Text, k: nat, rest: seq<nat>)
    requires pattern != [] && k <= |name|
    requires FitsPiece(pattern[0], name, 0, k, false) && Fits(pattern[1..], name[k..], rest, false)
    ensures LikeInLine(pattern, name)
  {
    var cuts := [0] + seq(|rest|, i requires 0 <= i < |rest| => rest[i] + k);
    forall i | 0 <= i < |pattern| ensures FitsPiece(pattern[i], name, cuts[i], cuts[i + 1], false) {
      if i > 0 {
        assert FitsPiece(pattern[1..][i - 1], name[k..], rest[i - 1], rest[i], false);
        assert name[k..][rest[i - 1]..rest[i]] == name[cuts[i]..cuts[i + 1]];
      }
    }
    assert Fits(pattern, name, cuts, false);
  }

  lemma UnconsCuts(pattern: Text, name: Text, cuts: seq<nat>)
    requires pattern != [] && Fits(pattern, name, cuts, false)
    ensures cuts[1] <= |name| && FitsPiece(pattern[0], name, 0, cuts[1], false)
    ensures LikeInLine(pattern[1..], name[cuts[1]..])
  {
    var k := cuts[1];
    assert FitsPiece(pattern[0], name, cuts[0], cuts[1], false);
    CutsAbove(pattern, name, cuts, 1);
    var rest: seq<nat> := seq(|pattern|, i requires 0 <= i < |pattern| => assert cuts[i + 1] >= k; cuts[i + 1] - k);
    forall i | 0 <= i < |pattern| - 1 ensures FitsPiece(pattern[1..][i], name[k..], rest[i], rest[i + 1], false) {
      assert FitsPiece(pattern[i + 1], name, cuts[i + 1], cuts[i + 2], false);
      assert name[k..][rest[i]..rest[i + 1]] == name[cuts[i + 1]..cuts[i + 2]];
    }
    assert Fits(pattern[1..], name[k..], rest, false);
  }

  /** Cuts only go up. */
  lemma {:induction false} CutsAbove(pattern: Text, name: Text, cuts: seq<nat>, i: nat)
    requires Fits(pattern, name, cuts, false) && i <= |pattern|
    ensures forall j :: i <= j <= |pattern| ==> cuts[j] >= cuts[i]
    decreases |pattern| - i
  {
    if i < |pattern| {
      assert FitsPiece(pattern[i], name, cuts[i], cuts[i + 1], false);
      CutsAbove(pattern, name, cuts, i + 1);
    }
  }

  /** Matching the atoms of a pattern is LIKE with wildcards that stop at a newline. */
  lemma {:induction false} MatchesIsLikeInLine(pattern: Text, name: Text)
    ensures Matches(AtomsOf(pattern), name) <==> LikeInLine(pattern, name)
    decreases |pattern|
  {
    if pattern == [] {
      if name == [] { assert Fits(pattern, name, [0], false); }
    } else {
      if Matches(AtomsOf(pattern), name) {
        var k := FirstPiece(pattern, name);
        MatchesIsLikeInLine(pattern[1..], name[k..]);
        var rest :| Fits(pattern[1..], name[k..], rest, false);
        ConsCuts(pattern, name, k, rest);
      }
      if LikeInLine(pattern, name) {
        var cuts :| Fits(pattern, name, cuts, false);
        UnconsCuts(pattern, name, cuts);
        MatchesIsLikeInLine(pattern[1..], name[cuts[1]..]);
        PieceThenRest(pattern, name, cuts[1]);
      }
    }
  }

  lemma FirstPiece(pattern: Text, name: Text) returns (k: nat)
    requires pattern != [] && Matches(AtomsOf(pattern), name)
    ensures k <= |name| && FitsPiece(pattern[0], name, 0, k, false)
    ensures Matches(AtomsOf(pattern[1..]), name[k..])
  {
    assert AtomsOf(pattern)[1..] == AtomsOf(pattern[1..]);
    if pattern[0] == PERCENT {
      k :| 0 <= k <= |name| && NEWLINE !in name[..k] && Matches(AtomsOf(pattern)[1..], name[k..]);
    } else {
      k := 1;
    }
  }

  lemma PieceThenRest(pattern: Text, name: Text, k: nat)
    requires pattern != [] && k <= |name| && FitsPiece(pattern[0], name, 0, k, false)
    requires Matches(AtomsOf(pattern[1..]), name[k..])
    ensures Matches(AtomsOf(pattern), name)
  {
    assert AtomsOf(pattern)[1..] == AtomsOf(pattern[1..]);
    assert name[0..k] == name[..k];
  }

  predicate RegexMatches(pattern: Text, name: Text) {
    ReadRegex(Compiled(pattern)).Some? && Matches(ReadRegex(Compiled(pattern)).value, name)
  }

  /** The compiled expression full-matches a name without newlines exactly when the name satisfies LIKE. */
  lemma CompiledIsLike(pattern: Text, name: Text)
    requires NEWLINE !in name
    ensures RegexMatches(pattern, name) <==> Like(pattern, name)
  {
    ReadCompiled(pattern);
    MatchesIsLikeInLine(pattern, name);
    forall cuts ensures Fits(pattern, name, cuts, false) <==> Fits(pattern, name, cuts, true) {
      forall i | 0 <= i < |pattern| && |cuts| == |pattern| + 1
        ensures FitsPiece(pattern[i], name, cuts[i], cuts[i + 1], false) <==> FitsPiece(pattern[i], name, cuts[i], cuts[i + 1], true)
      {
      }
    }
  }

  lemma PieceNewlines(c: CodePoint, name: Text, k: nat)
    requires k <= |name| && FitsPiece(c, name, 0, k, false)
    ensures multiset(name)[NEWLINE] == multiset([c])[NEWLINE] + multiset(name[k..])[NEWLINE]
  {
    assert name == name[0..k] + name[k..];
    if c != PERCENT {
      assert name[0..k] == [name[0]];
    }
  }

  /** A match has the newlines of the pattern and no others. */
  lemma {:induction false} NewlinesOfMatch(pattern: Text, name: Text)
    requires Matches(AtomsOf(pattern), name)
    ensures multiset(name)[NEWLINE] == multiset(pattern)[NEWLINE]
  {
    hide FitsPiece;
    if pattern != [] {
      hide Matches, AtomsOf;
      var k := FirstPiece(pattern, name);
      NewlinesOfMatch(pattern[1..], name[k..]);
      PieceNewlines(pattern[0], name, k);
      assert pattern == [pattern[0]] + pattern[1..];
    }
  }

  /** The two agree on a name for every pattern exactly when the name is without newlines. */
  lemma AgreesForAllPatternsExactly(name: Text)
    ensures (forall pattern :: RegexMatches(pattern, name) <==> Like(pattern, name)) <==> NEWLINE !in name
  {
    if NEWLINE in name {
      var pattern := [PERCENT];
      assert Fits(pattern, name, [0, |name|], true);
      ReadCompiled(pattern);
      if RegexMatches(pattern, name) {
        NewlinesOfMatch(pattern, name);
      }
      assert Like(pattern, name) && !RegexMatches(pattern, name);
    } else {
      forall pattern ensures RegexMatches(pattern, name) <==> Like(pattern, name) {
        CompiledIsLike(pattern, name);
      }
    }
  }

  predicate HasWildcard(pattern: Text) {
    PERCENT in pattern || UNDERSCORE in pattern
  }

  /** The pattern with a newline for every wildcard. */
  function Faced(pattern: Text): Text {
    if pattern == [] then [] else
      [if pattern[0] == PERCENT || pattern[0] == UNDERSCORE then NEWLINE else pattern[0]] + Faced(pattern[1..])
  }

  lemma {:induction false} FacedPieces(pattern: Text)
    ensures |Faced(pattern)| == |pattern|
    ensures forall i :: 0 <= i < |pattern| ==> FitsPiece(pattern[i], Faced(pattern), i, i + 1, true)
  {
    if pattern != [] {
      FacedPieces(pattern[1..]);
      forall i | 0 <= i < |pattern| ensures FitsPiece(pattern[i], Faced(pattern), i, i + 1, true) {
        if i > 0 {
          assert FitsPiece(pattern[1..][i - 1], Faced(pattern[1..]), i - 1, i, true);
        }
      }
    }
  }

  lemma {:induction false} FacedNewlines(pattern: Text)
    ensures multiset(Faced(pattern))[NEWLINE] >= multiset(pattern)[NEWLINE]
    ensures HasWildcard(pattern) ==> multiset(Faced(pattern))[NEWLINE] > multiset(pattern)[NEWLINE]
  {
    if pattern != [] {
      FacedNewlines(pattern[1..]);
      assert pattern == [pattern[0]] + pattern[1..];
    }
  }

  /** The two agree on every name exactly when the pattern has no wildcard. */
  lemma AgreesForAllNamesExactly(pattern: Text)
    ensures (forall name :: RegexMatches(pattern, name) <==> Like(pattern, name)) <==> !HasWildcard(pattern)
  {
    ReadCompiled(pattern);
    if HasWildcard(pattern) {
      var name := Faced(pattern);
      FacedPieces(pattern);
      FacedNewlines(pattern);
      assert Fits(pattern, name, seq(|pattern| + 1, i => i), true);
      if RegexMatches(pattern, name) {
        NewlinesOfMatch(pattern, name);
      }
      assert Like(pattern, name) && !RegexMatches(pattern, name);
    } else {
      forall name ensures RegexMatches(pattern, name) <==> Like(pattern, name) {
        MatchesIsLikeInLine(pattern, name);
        forall cuts ensures Fits(pattern, name, cuts, false) <==> Fits(pattern, name, cuts, true) {
          assert forall i :: 0 <= i < |pattern| ==> pattern[i] in pattern;
        }
      }
    }
  }
}
