/** The SQL dialect rewrite `SELECT FIRST n` to `SELECT TOP n`, and the check for unsupported words. */
module Dialect {
  import opened Prelude
  import opened PyText

  // ------------------------------------------------------------- unsupported words

  /** `\bword\b` at position i. */
  predicate WordFrom(s: Text, i: nat, word: Text)
    requires i <= |s|
  {
    && WordAt(s, i, word)
    && WordBoundary(s, i) && WordBoundary(s, i + |word|)
  }

  predicate HasWord(s: Text, word: Text) {
    exists i: nat :: i <= |s| && WordFrom(s, i, word)
  }

  /** The unsupported words of a statement, sorted. */
  function DetectUnsupportedFeatures(s: Text): seq<string> {
    (if HasWord(s, T("fetch")) then ["FETCH"] else []) +
    (if HasWord(s, T("limit")) then ["LIMIT"] else []) +
    (if HasWord(s, T("offset")) then ["OFFSET"] else [])
  }

  /** The word somewhere in the text, its letters in either case, with no word character next to it. */
  ghost predicate StandsAlone(s: Text, word: Text) {
    exists i: nat :: StandsAloneAt(s, i, word)
  }

  predicate StandsAloneAt(s: Text, i: nat, word: Text) {
    && i + |word| <= |s|
    && (forall k :: 0 <= k < |word| ==> s[i + k] == word[k] || s[i + k] as int + 0x20 == word[k] as int)
    && (i == 0 || !IsWordChar(s[i - 1]))
    && (i + |word| == |s| || !IsWordChar(s[i + |word|]))
  }

  predicate IsSmallWord(word: Text) {
    word != [] && forall k :: 0 <= k < |word| ==> 0x61 <= word[k] <= 0x7A
  }

  lemma WordFromExactly(s: Text, i: nat, word: Text)
    requires i <= |s| && IsSmallWord(word)
    ensures WordFrom(s, i, word) <==> StandsAloneAt(s, i, word)
  {
    if WordAt(s, i, word) {
      var n := |word| - 1;
      assert s[i + 0] == word[0] || s[i + 0] as int + 0x20 == word[0] as int;
      assert s[i + n] == word[n] || s[i + n] as int + 0x20 == word[n] as int;
      assert i + |word| - 1 == i + n;
    }
  }

  lemma HasWordExactly(s: Text, word: Text)
    requires IsSmallWord(word)
    ensures HasWord(s, word) <==> StandsAlone(s, word)
  {
    hide WordFrom, IsSmallWord;
    forall i: nat | i <= |s| ensures WordFrom(s, i, word) <==> StandsAloneAt(s, i, word) { WordFromExactly(s, i, word); }
    hide StandsAloneAt;
    if StandsAlone(s, word) {
      var i: nat :| StandsAloneAt(s, i, word);
      AloneInside(s, i, word);
      assert WordFrom(s, i, word);
    }
  }

  lemma AloneInside(s: Text, i: nat, word: Text)
    requires StandsAloneAt(s, i, word)
    ensures i <= |s|
  {
  }

  /** Reported are exactly those of LIMIT, OFFSET and FETCH that stand alone in the statement, each once, in alphabetical order. */
  lemma FeaturesExactly(s: Text)
    ensures var r := DetectUnsupportedFeatures(s);
      && ("FETCH" in r <==> StandsAlone(s, T("fetch")))
      && ("LIMIT" in r <==> StandsAlone(s, T("limit")))
      && ("OFFSET" in r <==> StandsAlone(s, T("offset")))
      && (forall f :: f in r ==> f in {"FETCH", "LIMIT", "OFFSET"})
      && forall i, j :: 0 <= i < j < |r| ==> r[i] != "" && r[j] != "" && r[i][0] < r[j][0]
  {
    assert IsSmallWord(T("fetch")) && IsSmallWord(T("limit")) && IsSmallWord(T("offset"));
    hide HasWord, StandsAlone, T, IsSmallWord;
    HasWordExactly(s, T("fetch"));
    HasWordExactly(s, T("limit"));
    HasWordExactly(s, T("offset"));
    assert "FETCH"[0] == 'F' && "LIMIT"[0] == 'L' && "OFFSET"[0] == 'O';
  }

  // -------------------------------------------------------------------- the rewrite

  /** The positions of the words SELECT and FIRST, and the ends of the number after it. */
  datatype Match = Match(select: nat, first: nat, number: nat, end: nat)

  /** The text up to `i` from `from` on satisfies `p` throughout. */
  predicate AllIn(s: Text, from: nat, i: nat, p: CodePoint -> bool)
    requires i <= |s|
  {
    forall k :: from <= k < i ==> p(s[k])
  }

  predicate CodeIsDigit(c: CodePoint) { IsDigit(c) }

  /** `(\s*SELECT\s+)FIRST\s+(\d+)\b` at the start of the statement, in either case. */
  predicate IsMatch(s: Text, m: Match) {
    && m.select + 6 < m.first && m.first + 5 < m.number < m.end <= |s|
    && AllIn(s, 0, m.select, CodeIsSpace)
    && WordAt(s, m.select, T("select"))
    && AllIn(s, m.select + 6, m.first, CodeIsSpace)
    && WordAt(s, m.first, T("first"))
    && AllIn(s, m.first + 5, m.number, CodeIsSpace)
    && AllIn(s, m.number, m.end, CodeIsDigit)
    && WordBoundary(s, m.end)
  }

  /** Where a run of characters that satisfy `p` ends. */
  function RunEnd(s: Text, from: nat, p: CodePoint -> bool): (end: nat)
    requires from <= |s|
    ensures from <= end <= |s| && AllIn(s, from, end, p)
    ensures end < |s| ==> !p(s[end])
    decreases |s| - from
  {
    if from < |s| && p(s[from]) then RunEnd(s, from + 1, p) else from
  }

  function FindMatch(s: Text): Option<Match> {
    var select := RunEnd(s, 0, CodeIsSpace);
    if !WordAt(s, select, T("select")) then None
    else
      var first := RunEnd(s, select + 6, CodeIsSpace);
      if first == select + 6 || !WordAt(s, first, T("first")) then None
      else
        var number := RunEnd(s, first + 5, CodeIsSpace);
        var end := RunEnd(s, number, CodeIsDigit);
        if number == first + 5 || end == number || !WordBoundary(s, end) then None
        else Some(Match(select, first, number, end))
  }

  /** The statement, and whether it was rewritten. */
  function NormalizeSelectFirstToTop(s: Text): (Text, bool) {
    match FindMatch(s)
    case None => (s, false)
    case Some(m) => (s[..m.first] + T("TOP ") + s[m.number..m.end] + s[m.end..], true)
  }

  /** A run that stops before a character outside it is the maximal run. */
  lemma RunEndIs(s: Text, from: nat, end: nat, p: CodePoint -> bool)
    requires from <= end <= |s| && AllIn(s, from, end, p)
    requires end < |s| ==> !p(s[end])
    ensures RunEnd(s, from, p) == end
  {
  }

  /** The expression matches in at most one way, and the search finds it. */
  lemma FindMatchExactly(s: Text, m: Match)
    ensures FindMatch(s) == Some(m) <==> IsMatch(s, m)
  {
    hide RunEnd;
    if IsMatch(s, m) {
      assert T("select")[0] == 0x73 && T("first")[0] == 0x66;
      RunEndIs(s, 0, m.select, CodeIsSpace);
      RunEndIs(s, m.select + 6, m.first, CodeIsSpace);
      RunEndIs(s, m.first + 5, m.number, CodeIsSpace);
      RunEndIs(s, m.number, m.end, CodeIsDigit);
    }
  }

  /**
    The statement is rewritten exactly when the expression matches, and then keeps
    what precedes FIRST, the number, and what follows it.
   */
  lemma RewriteExactly(s: Text, m: Match)
    requires IsMatch(s, m)
    ensures NormalizeSelectFirstToTop(s) == (s[..m.first] + T("TOP ") + s[m.number..], true)
    ensures NormalizeSelectFirstToTop(s).0 != s
  {
    FindMatchExactly(s, m);
    assert s[m.number..] == s[m.number..m.end] + s[m.end..];
    assert s[..m.first] + T("TOP ") + s[m.number..] == s[..m.first] + T("TOP ") + s[m.number..m.end] + s[m.end..];
    var r := NormalizeSelectFirstToTop(s).0;
    assert r[m.first] == T("TOP ")[0] == 0x54;
    assert T("first")[0] == 0x66;
  }

  lemma UnchangedExactly(s: Text)
    ensures NormalizeSelectFirstToTop(s) == (s, false) <==> forall m :: !IsMatch(s, m)
  {
    hide IsMatch;
    match FindMatch(s) {
      case None => forall m ensures !IsMatch(s, m) { FindMatchExactly(s, m); }
      case Some(m) => FindMatchExactly(s, m);
    }
  }

  /** A second rewrite finds nothing to rewrite. */
  lemma RewriteIdempotent(s: Text)
    ensures var r := NormalizeSelectFirstToTop(s).0;
      NormalizeSelectFirstToTop(r) == (r, false)
  {
    var r := NormalizeSelectFirstToTop(s).0;
    if FindMatch(s).Some? {
      var m := FindMatch(s).value;
      FindMatchExactly(s, m);
      RewriteExactly(s, m);
      NoSecondMatch(s, m);
    } else {
      assert r == s;
    }
  }

  lemma NoSecondMatch(s: Text, m: Match)
    requires IsMatch(s, m)
    ensures FindMatch(s[..m.first] + T("TOP ") + s[m.number..]).None?
  {
    hide RunEnd;
    var r := s[..m.first] + T("TOP ") + s[m.number..];
    assert T("select")[0] == 0x73 && T("first")[0] == 0x66 && T("TOP ")[0] == 0x54;
    assert forall k :: 0 <= k < m.first ==> r[k] == s[k];
    assert r[m.first] == 0x54;
    RunEndIs(r, 0, m.select, CodeIsSpace);
    RunEndIs(r, m.select + 6, m.first, CodeIsSpace);
  }

  // ------------------------------------------------- the rewrite and the check commute

  /** A text in lower case letters. */
  predicate IsLowerWord(word: Text) {
    word != [] && forall k :: 0 <= k < |word| ==> 0x61 <= word[k] <= 0x7A
  }

  /** A statement around one of its words: what precedes it, the word, the spaces after it, the rest. */
  datatype Around = Around(before: Text, word: Text, gap: Text, after: Text)

  function Whole(a: Around): Text {
    a.before + a.word + a.gap + a.after
  }

  predicate Delimited(a: Around) {
    && a.before != [] && CodeIsSpace(a.before[|a.before| - 1])
    && a.word != [] && (forall k :: 0 <= k < |a.word| ==> IsWordChar(a.word[k]))
    && a.gap != [] && (forall k :: 0 <= k < |a.gap| ==> CodeIsSpace(a.gap[k]))
    && a.after != [] && IsDigit(a.after[0])
  }

  /** A word found in the whole is found before or after, unless it is the delimited word itself. */
  lemma WordOutside(a: Around, word: Text, i: nat)
    requires Delimited(a) && IsLowerWord(word) && i <= |Whole(a)| && WordFrom(Whole(a), i, word)
    requires !(|word| == |a.word| && WordAt(a.word, 0, word))
    ensures HasWord(a.before, word) || HasWord(a.after, word)
  {
    var s, b, g, n := Whole(a), |a.before|, |a.before| + |a.word|, |a.before| + |a.word| + |a.gap|;
    var j := i + |word|;
    assert forall k :: i <= k < j ==> IsWordChar(s[k]) && !CodeIsSpace(s[k]) && !IsDigit(s[k]) by {
      assert forall k :: i <= k < j ==> s[k] == word[k - i] || s[k] as int + 0x20 == word[k - i] as int;
    }
    assert s[b - 1] == a.before[b - 1] && s[g] == a.gap[0] && s[n] == a.after[0];
    assert forall k :: b <= k < g ==> s[k] == a.word[k - b];
    assert forall k :: g <= k < n ==> s[k] == a.gap[k - g];
    assert i != b || j != g;
    if j < b {
      FoundBefore(a, word, i);
    } else {
      FoundAfter(a, word, i);
    }
  }

  lemma FoundBefore(a: Around, word: Text, i: nat)
    requires i <= |Whole(a)| && WordFrom(Whole(a), i, word) && i + |word| < |a.before|
    ensures HasWord(a.before, word)
  {
    WordInPrefix(Whole(a), a.before, word, i);
  }

  lemma FoundAfter(a: Around, word: Text, i: nat)
    requires |a.before| + |a.word| + |a.gap| < i <= |Whole(a)| && WordFrom(Whole(a), i, word)
    ensures HasWord(a.after, word)
  {
    WordInSuffix(Whole(a), |a.before| + |a.word| + |a.gap|, a.after, word, i);
  }

  lemma WordInPrefix(s: Text, prefix: Text, word: Text, i: nat)
    requires |prefix| <= |s| && prefix == s[..|prefix|]
    requires i + |word| < |prefix| && WordFrom(s, i, word)
    ensures HasWord(prefix, word)
  {
    assert WordFrom(prefix, i, word);
  }

  lemma WordInSuffix(s: Text, n: nat, suffix: Text, word: Text, i: nat)
    requires n < i <= |s| && suffix == s[n..] && WordFrom(s, i, word)
    ensures HasWord(suffix, word)
  {
    assert forall k :: 0 <= k < |suffix| ==> suffix[k] == s[n + k];
    assert WordFrom(suffix, i - n, word);
  }

  lemma WordInside(a: Around, word: Text)
    requires Delimited(a) && IsLowerWord(word)
    requires HasWord(a.before, word) || HasWord(a.after, word)
    ensures HasWord(Whole(a), word)
  {
    var s, b, n := Whole(a), |a.before|, |a.before| + |a.word| + |a.gap|;
    assert s[b] == a.word[0] && s[n - 1] == a.gap[|a.gap| - 1];
    if HasWord(a.before, word) {
      var i: nat :| i <= |a.before| && WordFrom(a.before, i, word);
      assert WordFrom(s, i, word);
    } else {
      var i: nat :| i <= |a.after| && WordFrom(a.after, i, word);
      assert a.after[i] == word[0] || a.after[i] as int + 0x20 == word[0] as int;
      assert WordFrom(s, n + i, word);
    }
  }

  /** A word other than the delimited one is in the whole exactly when it is before or after. */
  lemma WordsAround(a: Around, word: Text)
    requires Delimited(a) && IsLowerWord(word) && !(|word| == |a.word| && WordAt(a.word, 0, word))
    ensures HasWord(Whole(a), word) <==> HasWord(a.before, word) || HasWord(a.after, word)
  {
    if HasWord(Whole(a), word) {
      var i: nat :| i <= |Whole(a)| && WordFrom(Whole(a), i, word);
      WordOutside(a, word, i);
    } else if HasWord(a.before, word) || HasWord(a.after, word) {
      WordInside(a, word);
    }
  }

  /** A match cuts the statement around FIRST. */
  function AroundFirst(s: Text, m: Match): Around
    requires IsMatch(s, m)
  {
    Around(s[..m.first], s[m.first..m.first + 5], s[m.first + 5..m.number], s[m.number..])
  }

  lemma FirstIsDelimited(s: Text, m: Match, first: Text)
    requires IsMatch(s, m) && first == T("first")
    ensures Delimited(AroundFirst(s, m)) && Whole(AroundFirst(s, m)) == s
    ensures WordAt(AroundFirst(s, m).word, 0, first)
  {
    LowerTop(T("TOP "), T("top"), first);
    hide T;
    WordCut(s, m.first, first);
    GapCut(s, m.first + 5, m.number);
    var a := AroundFirst(s, m);
    assert a.before + a.word == s[..m.first + 5];
    assert a.before + a.word + a.gap == s[..m.number];
  }

  lemma WordCut(s: Text, i: nat, word: Text)
    requires i + |word| <= |s| && WordAt(s, i, word) && IsLowerWord(word)
    ensures var cut := s[i..i + |word|];
      WordAt(cut, 0, word) && forall k :: 0 <= k < |cut| ==> IsWordChar(cut[k])
  {
    var cut := s[i..i + |word|];
    forall k | 0 <= k < |cut|
      ensures IsWordChar(cut[k]) && (cut[0 + k] == word[k] || cut[0 + k] as int + 0x20 == word[k] as int)
    {
      assert s[i + k] == word[k] || s[i + k] as int + 0x20 == word[k] as int;
      assert 0x61 <= word[k] <= 0x7A;
    }
  }

  lemma GapCut(s: Text, i: nat, j: nat)
    requires i <= j <= |s| && AllIn(s, i, j, CodeIsSpace)
    ensures var cut := s[i..j]; forall k :: 0 <= k < |cut| ==> CodeIsSpace(cut[k])
  {
    var cut := s[i..j];
    assert forall k :: 0 <= k < |cut| ==> cut[k] == s[i + k];
  }

  lemma TopIsDelimited(s: Text, m: Match, top: Text)
    requires IsMatch(s, m) && top == T("TOP ")
    ensures var a := Around(s[..m.first], top[..3], top[3..], s[m.number..]);
      Delimited(a) && Whole(a) == s[..m.first] + top + s[m.number..]
  {
    assert top == [0x54, 0x4F, 0x50, 0x20];
    assert top[..3] + top[3..] == top;
    assert s[..m.first] + top[..3] + top[3..] == s[..m.first] + top;
  }

  /** Two words that one text is an occurrence of are equal. */
  lemma SameWord(s: Text, first: Text, word: Text)
    requires WordAt(s, 0, first) && WordAt(s, 0, word) && |s| == |first| == |word|
    requires IsLowerWord(word) && IsLowerWord(first)
    ensures word == first
  {
    assert forall k :: 0 <= k < |word| ==> s[0 + k] == s[k];
  }

  /** The rewrite replaces one word and brings in or loses no other. */
  lemma RewriteKeepsWords(s: Text, word: Text)
    requires IsLowerWord(word) && word != T("first") && word != T("top")
    ensures HasWord(NormalizeSelectFirstToTop(s).0, word) <==> HasWord(s, word)
  {
    if FindMatch(s).Some? {
      var m := FindMatch(s).value;
      FindMatchExactly(s, m);
      RewriteExactly(s, m);
      KeepsWordsAt(s, m, word, T("first"), T("top"), T("TOP "));
    }
  }

  lemma KeepsWordsAt(s: Text, m: Match, word: Text, first: Text, lowerTop: Text, top: Text)
    requires IsMatch(s, m) && IsLowerWord(word)
    requires first == T("first") && lowerTop == T("top") && top == T("TOP ")
    requires word != first && word != lowerTop
    ensures HasWord(s[..m.first] + top + s[m.number..], word) <==> HasWord(s, word)
  {
    FirstIsDelimited(s, m, first);
    TopIsDelimited(s, m, top);
    LowerTop(top, lowerTop, first);
    hide T, IsMatch, Delimited, HasWord, Whole;
    var given := AroundFirst(s, m);
    var rewritten := Around(given.before, top[..3], top[3..], given.after);
    assert !(|word| == |given.word| && WordAt(given.word, 0, word)) by {
      if |word| == |given.word| && WordAt(given.word, 0, word) { SameWord(given.word, first, word); }
    }
    assert !(|word| == |rewritten.word| && WordAt(rewritten.word, 0, word)) by {
      if |word| == |rewritten.word| && WordAt(rewritten.word, 0, word) { SameWord(rewritten.word, lowerTop, word); }
    }
    WordsAround(given, word);
    WordsAround(rewritten, word);
  }

  lemma LowerTop(top: Text, lowerTop: Text, first: Text)
    requires top == T("TOP ") && lowerTop == T("top") && first == T("first")
    ensures |top| == 4 && |lowerTop| == 3 && |first| == 5 && WordAt(top[..3], 0, lowerTop)
    ensures IsLowerWord(lowerTop) && IsLowerWord(first)
  {
    assert top == [0x54, 0x4F, 0x50, 0x20] && lowerTop == [0x74, 0x6F, 0x70];
  }

  /** Rewriting first and checking first report the same unsupported words. */
  lemma RewriteAndCheckCommute(s: Text)
    ensures DetectUnsupportedFeatures(NormalizeSelectFirstToTop(s).0) == DetectUnsupportedFeatures(s)
  {
    assert T("first")[0] == 0x66 && T("fetch")[1] == 0x65 && T("first")[1] == 0x69 && T("top")[0] == 0x74;
    assert T("limit")[0] == 0x6C && T("offset")[0] == 0x6F && T("fetch")[0] == 0x66;
    RewriteKeepsWords(s, T("fetch"));
    RewriteKeepsWords(s, T("limit"));
    RewriteKeepsWords(s, T("offset"));
  }
}
