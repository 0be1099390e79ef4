/**
  The paths of validation errors: printed with dots and brackets, converted to a
  JSON Pointer, and read back as RFC 6901 says.
 */
module JsonPointer {
  import opened Prelude
  import opened PyText
  import opened JsonText

  const PERIOD: CodePoint := 0x2E
  const OPEN: CodePoint := 0x5B
  const CLOSE: CodePoint := 0x5D
  const SLASH: CodePoint := 0x2F
  const TILDE: CodePoint := 0x7E

  datatype Token = Key(name: Text) | Index(i: nat)

  function TokenText(t: Token): Text {
    match t
    case Key(name) => name
    case Index(i) => Decimal(i)
  }

  function TokenTexts(tokens: seq<Token>): (texts: seq<Text>)
    ensures |texts| == |tokens|
    ensures forall i :: 0 <= i < |tokens| ==> texts[i] == TokenText(tokens[i])
  {
    seq(|tokens|, i requires 0 <= i < |tokens| => TokenText(tokens[i]))
  }

  // ------------------------------------------------------------------- the path

  /** `payload.a[0].b` */
  function Print(tokens: seq<Token>): Text {
    if tokens != [] && tokens[0].Key? then tokens[0].name + PrintMore(tokens[1..]) else PrintMore(tokens)
  }

  function PrintMore(tokens: seq<Token>): Text {
    if tokens == [] then []
    else PrintToken(tokens[0]) + PrintMore(tokens[1..])
  }

  function PrintToken(t: Token): Text {
    match t
    case Key(name) => [PERIOD] + name
    case Index(i) => [OPEN] + Decimal(i) + [CLOSE]
  }

  // -------------------------------------------------------------- path to pointer

  /** A character of a path that belongs to no key. */
  predicate IsPunctuation(c: CodePoint) {
    c == PERIOD || c == OPEN || c == CLOSE
  }

  /** The characters up to the first punctuation. */
  function KeySpan(s: Text): (key: Text)
    ensures |key| <= |s| && key == s[..|key|]
    ensures forall c :: c in key ==> !IsPunctuation(c)
    ensures |key| < |s| ==> IsPunctuation(s[|key|])
  {
    if s != [] && !IsPunctuation(s[0]) then [s[0]] + KeySpan(s[1..]) else []
  }

  /** `re.findall(r"[^.\[\]]+|\[\d+\]", path)` */
  function FindTokens(s: Text): seq<Text>
    decreases |s|
  {
    if s == [] then []
    else
      var key := KeySpan(s);
      if key != [] then [key] + FindTokens(s[|key|..])
      else
        var digits := DigitSpan(s[1..]);
        if s[0] == OPEN && digits != [] && |digits| + 1 < |s| && s[|digits| + 1] == CLOSE then
          [[OPEN] + digits + [CLOSE]] + FindTokens(s[|digits| + 2..])
        else
          FindTokens(s[1..])
  }

  /** An index token without its brackets, another as it is. */
  function Unbracket(token: Text): Text {
    if |token| >= 2 && token[0] == OPEN && token[|token| - 1] == CLOSE then token[1..|token| - 1] else token
  }

  function Unbracketed(tokens: seq<Text>): seq<Text> {
    if tokens == [] then [] else [Unbracket(tokens[0])] + Unbracketed(tokens[1..])
  }

  /** `str.replace` of one character. */
  function Replace(s: Text, c: CodePoint, with: Text): Text {
    if s == [] then [] else (if s[0] == c then with else [s[0]]) + Replace(s[1..], c, with)
  }

  function EscapeToken(part: Text): Text {
    Replace(Replace(part, TILDE, [TILDE, 0x30]), SLASH, [TILDE, 0x31])
  }

  /** `"/" + "/".join(escaped)` */
  function JoinParts(parts: seq<Text>): Text {
    if parts == [] then [SLASH]
    else if |parts| == 1 then [SLASH] + EscapeToken(parts[0])
    else [SLASH] + EscapeToken(parts[0]) + JoinParts(parts[1..])
  }

  function ToJsonPointer(path: Text): Text {
    JoinParts(Unbracketed(FindTokens(path)))
  }

  // ------------------------------------------------- reading a pointer (RFC 6901)

  /** The characters up to the first slash. */
  function UpToSlash(s: Text): (part: Text)
    ensures |part| <= |s| && part == s[..|part|] && SLASH !in part
    ensures |part| < |s| ==> s[|part|] == SLASH
  {
    if s != [] && s[0] != SLASH then [s[0]] + UpToSlash(s[1..]) else []
  }

  /** Replace every `~x`, left to right, by a character. */
  function ReplacePair(s: Text, x: CodePoint, with: CodePoint): Text
    decreases |s|
  {
    if s == [] then []
    else if |s| >= 2 && s[0] == TILDE && s[1] == x then [with] + ReplacePair(s[2..], x, with)
    else [s[0]] + ReplacePair(s[1..], x, with)
  }

  /** Section 4: first `~1` to a slash, then `~0` to a tilde. */
  function Unescape(part: Text): Text {
    ReplacePair(ReplacePair(part, 0x31, SLASH), 0x30, TILDE)
  }

  /** Section 3: the reference tokens of a pointer; None for a text that is no pointer. */
  function ReadPointer(s: Text): Option<seq<Text>>
    decreases |s|
  {
    if s == [] then Some([])
    else if s[0] != SLASH then None
    else
      var part := UpToSlash(s[1..]);
      match ReadPointer(s[1 + |part|..])
      case None => None
      case Some(rest) => Some([Unescape(part)] + rest)
  }

  // --------------------------------------------------------- escape and unescape

  /** The escaped text one character at a time; `slash` says whether slashes are escaped too. */
  function Escaped(part: Text, slash: bool): Text {
    if part == [] then []
    else
      (if part[0] == TILDE then [TILDE, 0x30] else if slash && part[0] == SLASH then [TILDE, 0x31] else [part[0]])
      + Escaped(part[1..], slash)
  }

  lemma {:induction false} EscapeIsCharwise(part: Text)
    ensures Replace(part, TILDE, [TILDE, 0x30]) == Escaped(part, false)
    ensures EscapeToken(part) == Escaped(part, true)
  {
    if part != [] {
      EscapeIsCharwise(part[1..]);
      var rest := Escaped(part[1..], false);
      if part[0] == TILDE {
        var two: Text := [TILDE, 0x30];
        ReplaceTwo(two, rest);
      } else {
        assert ([part[0]] + rest)[1..] == rest;
      }
    }
  }

  lemma ReplaceTwo(two: Text, rest: Text)
    requires two == [TILDE, 0x30]
    ensures Replace(two + rest, SLASH, [TILDE, 0x31]) == two + Replace(rest, SLASH, [TILDE, 0x31])
  {
    var tail := (two + rest)[1..];
    assert tail == [two[1]] + rest && tail[1..] == rest;
  }

  lemma {:induction false} NoSlash(part: Text)
    ensures SLASH !in Escaped(part, true)
  {
    if part != [] {
      NoSlash(part[1..]);
    }
  }

  lemma {:induction false} SlashesBack(part: Text)
    ensures ReplacePair(Escaped(part, true), 0x31, SLASH) == Escaped(part, false)
  {
    if part != [] {
      SlashesBack(part[1..]);
      var s, rest := Escaped(part, true), Escaped(part[1..], true);
      if part[0] == TILDE {
        assert s[1..] == [0x30] + rest && s[1..][1..] == rest;
      } else if part[0] == SLASH {
        assert s[2..] == rest;
      } else {
        assert s[1..] == rest;
      }
    }
  }

  lemma {:induction false} TildesBack(part: Text)
    ensures ReplacePair(Escaped(part, false), 0x30, TILDE) == part
  {
    if part != [] {
      TildesBack(part[1..]);
      var s, rest := Escaped(part, false), Escaped(part[1..], false);
      if part[0] == TILDE {
        assert s[2..] == rest;
      } else {
        assert s[1..] == rest;
      }
    }
  }

  /** An escaped token holds no slash and unescapes to itself, whatever characters it has. */
  lemma UnescapeEscape(part: Text)
    ensures Unescape(EscapeToken(part)) == part && SLASH !in EscapeToken(part)
  {
    EscapeIsCharwise(part);
    NoSlash(part);
    SlashesBack(part);
    TildesBack(part);
  }

  lemma {:induction false} PartThenRest(part: Text, rest: Text)
    requires rest == [] || rest[0] == SLASH
    requires SLASH !in part
    ensures UpToSlash(part + rest) == part
  {
    if part == [] {
      assert part + rest == rest;
    } else {
      assert (part + rest)[1..] == part[1..] + rest;
      PartThenRest(part[1..], rest);
    }
  }

  /** A pointer after its first token. */
  lemma ReadStep(part: Text, rest: Text)
    requires rest == [] || rest[0] == SLASH
    ensures ReadPointer([SLASH] + EscapeToken(part) + rest) ==
      match ReadPointer(rest) case None => None case Some(more) => Some([part] + more)
  {
    UnescapeEscape(part);
    hide UpToSlash, Unescape, EscapeToken;
    var e := EscapeToken(part);
    var pointer := [SLASH] + e + rest;
    PartThenRest(e, rest);
    assert pointer[1..] == e + rest;
    assert pointer[1 + |e|..] == rest;
  }

  /** A joined pointer reads back as its parts; no part at all reads as one empty part. */
  lemma {:induction false} ReadJoined(parts: seq<Text>)
    ensures ReadPointer(JoinParts(parts)) == Some(if parts == [] then [[]] else parts)
  {
    hide ReadPointer, EscapeToken;
    ReadEnd([]);
    if |parts| > 1 {
      ReadJoined(parts[1..]);
      ReadStep(parts[0], JoinParts(parts[1..]));
      assert parts == [parts[0]] + parts[1..];
    } else {
      var part := if parts == [] then [] else parts[0];
      EscapeNothing([]);
      ReadStep(part, []);
      assert JoinParts(parts) == [SLASH] + EscapeToken(part) + [];
      assert [part] + [] == if parts == [] then [[]] else parts;
    }
  }

  lemma ReadEnd(s: Text)
    requires s == []
    ensures ReadPointer(s) == Some([])
  {
  }

  lemma EscapeNothing(part: Text)
    requires part == []
    ensures EscapeToken(part) == []
  {
  }

  // ------------------------------------------------------------- print and find

  /** A key that the path keeps apart from its neighbours. */
  predicate PlainKey(t: Token) {
    t.Key? ==> t.name != [] && forall c :: c in t.name ==> !IsPunctuation(c)
  }

  lemma {:induction false} SpanOfKey(name: Text, rest: Text)
    requires forall c :: c in name ==> !IsPunctuation(c)
    requires rest == [] || IsPunctuation(rest[0])
    ensures KeySpan(name + rest) == name
  {
    if name == [] {
      assert name + rest == rest;
    } else {
      assert (name + rest)[1..] == name[1..] + rest;
      SpanOfKey(name[1..], rest);
    }
  }

  lemma KeyThenRest(name: Text, rest: Text)
    requires name != [] && (forall c :: c in name ==> !IsPunctuation(c))
    requires rest == [] || IsPunctuation(rest[0])
    ensures FindTokens(name + rest) == [name] + FindTokens(rest)
  {
    SpanOfKey(name, rest);
    assert (name + rest)[|name|..] == rest;
  }

  lemma IndexThenRest(i: nat, rest: Text)
    ensures FindTokens([OPEN] + Decimal(i) + [CLOSE] + rest) == [[OPEN] + Decimal(i) + [CLOSE]] + FindTokens(rest)
  {
    hide Decimal;
    var digits := Decimal(i);
    var s := [OPEN] + digits + [CLOSE] + rest;
    assert s[1..] == digits + ([CLOSE] + rest);
    SpanOfDigits(digits, [CLOSE] + rest);
    assert s[|digits| + 1] == CLOSE && s[|digits| + 2..] == rest;
    assert KeySpan(s) == [];
  }

  lemma PeriodThenRest(rest: Text)
    ensures FindTokens([PERIOD] + rest) == FindTokens(rest)
  {
    var s := [PERIOD] + rest;
    assert s[1..] == rest;
    assert KeySpan(s) == [];
  }

  lemma UnbracketToken(t: Token)
    requires PlainKey(t)
    ensures Unbracket(if t.Key? then t.name else [OPEN] + Decimal(t.i) + [CLOSE]) == TokenText(t)
  {
    match t {
      case Key(name) => assert name[0] in name;
      case Index(i) =>
        var s := [OPEN] + Decimal(i) + [CLOSE];
        assert s[1..|s| - 1] == Decimal(i);
    }
  }

  lemma UnbracketedCons(first: Text, rest: seq<Text>)
    ensures Unbracketed([first] + rest) == [Unbracket(first)] + Unbracketed(rest)
  {
    assert ([first] + rest)[1..] == rest;
  }

  lemma FoundToken(t: Token, rest: Text)
    requires PlainKey(t) && (rest == [] || IsPunctuation(rest[0]))
    ensures Unbracketed(FindTokens(PrintToken(t) + rest)) == [TokenText(t)] + Unbracketed(FindTokens(rest))
  {
    UnbracketToken(t);
    if t.Key? {
      PlainKeyMeans(t);
      hide FindTokens, Unbracket, Unbracketed, PlainKey, IsPunctuation;
      assert PrintToken(t) + rest == [PERIOD] + (t.name + rest);
      PeriodThenRest(t.name + rest);
      KeyThenRest(t.name, rest);
      UnbracketedCons(t.name, FindTokens(rest));
    } else {
      hide FindTokens, Unbracket, Unbracketed, Decimal;
      IndexThenRest(t.i, rest);
      UnbracketedCons([OPEN] + Decimal(t.i) + [CLOSE], FindTokens(rest));
    }
  }

  lemma {:induction false} FindPrintedMore(tokens: seq<Token>)
    requires forall t :: t in tokens ==> PlainKey(t)
    ensures Unbracketed(FindTokens(PrintMore(tokens))) == TokenTexts(tokens)
  {
    hide FindTokens, Unbracketed, PlainKey, TokenText, PrintToken;
    if tokens == [] {
      FindNothing([]);
    } else {
      FindPrintedMore(tokens[1..]);
      PrintMoreStart(tokens[1..]);
      FoundToken(tokens[0], PrintMore(tokens[1..]));
      assert TokenTexts(tokens) == [TokenText(tokens[0])] + TokenTexts(tokens[1..]);
    }
  }

  lemma PlainKeyMeans(t: Token)
    requires PlainKey(t) && t.Key?
    ensures t.name != [] && (forall c :: c in t.name ==> !IsPunctuation(c)) && TokenText(t) == t.name
  {
  }

  lemma FindNothing(s: Text)
    requires s == []
    ensures Unbracketed(FindTokens(s)) == []
  {
  }

  lemma PrintMoreStart(tokens: seq<Token>)
    ensures PrintMore(tokens) == [] || IsPunctuation(PrintMore(tokens)[0])
  {
  }

  lemma FoundFirstKey(t: Token, rest: Text)
    requires PlainKey(t) && t.Key? && (rest == [] || IsPunctuation(rest[0]))
    ensures Unbracketed(FindTokens(t.name + rest)) == [TokenText(t)] + Unbracketed(FindTokens(rest))
  {
    UnbracketToken(t);
    PlainKeyMeans(t);
    hide FindTokens, Unbracketed, Unbracket, PlainKey, IsPunctuation, TokenText;
    KeyThenRest(t.name, rest);
    UnbracketedCons(t.name, FindTokens(rest));
  }

  lemma FindPrinted(tokens: seq<Token>)
    requires forall t :: t in tokens ==> PlainKey(t)
    ensures Unbracketed(FindTokens(Print(tokens))) == TokenTexts(tokens)
  {
    hide FindTokens, Unbracketed, PlainKey, IsPunctuation, TokenText, PrintMore;
    if tokens != [] && tokens[0].Key? {
      var more := tokens[1..];
      FindPrintedMore(more);
      PrintMoreStart(more);
      FoundFirstKey(tokens[0], PrintMore(more));
      TextsCons(tokens);
    } else {
      FindPrintedMore(tokens);
    }
  }

  lemma TextsCons(tokens: seq<Token>)
    requires tokens != []
    ensures TokenTexts(tokens) == [TokenText(tokens[0])] + TokenTexts(tokens[1..])
  {
    hide TokenText;
  }

  /** Every text could be a key of a path. */
  predicate AllPlain(parts: seq<Text>) {
    forall part :: part in parts ==> PlainKey(Key(part))
  }

  lemma AllPlainCons(first: Text, rest: seq<Text>)
    requires PlainKey(Key(Unbracket(first))) && AllPlain(Unbracketed(rest))
    ensures AllPlain(Unbracketed([first] + rest))
  {
    UnbracketedCons(first, rest);
  }

  lemma DigitsArePlain(digits: Text)
    requires digits != [] && forall d :: d in digits ==> IsDigit(d)
    ensures PlainKey(Key(Unbracket([OPEN] + digits + [CLOSE])))
  {
    var token := [OPEN] + digits + [CLOSE];
    assert token[1..|token| - 1] == digits;
  }

  /** Every token found is not empty and free of punctuation once its brackets are gone. */
  lemma {:induction false} FoundArePlain(s: Text)
    ensures AllPlain(Unbracketed(FindTokens(s)))
    decreases |s|
  {
    hide AllPlain, PlainKey, IsPunctuation, Unbracket;
    if s == [] {
      NothingIsPlain([]);
    } else {
      var key, digits := KeySpan(s), DigitSpan(s[1..]);
      if key != [] {
        FoundArePlain(s[|key|..]);
        PlainSpan(key, s);
        AllPlainCons(key, FindTokens(s[|key|..]));
      } else if s[0] == OPEN && digits != [] && |digits| + 1 < |s| && s[|digits| + 1] == CLOSE {
        FoundArePlain(s[|digits| + 2..]);
        DigitsArePlain(digits);
        AllPlainCons([OPEN] + digits + [CLOSE], FindTokens(s[|digits| + 2..]));
      } else {
        FoundArePlain(s[1..]);
      }
    }
  }

  lemma NothingIsPlain(parts: seq<Text>)
    requires parts == []
    ensures AllPlain(Unbracketed(parts))
  {
  }

  lemma PlainSpan(key: Text, s: Text)
    requires key == KeySpan(s) && key != []
    ensures PlainKey(Key(key)) && PlainKey(Key(Unbracket(key)))
  {
    assert key[0] in key;
  }

  /** What a reader of the pointer takes from the printed path of `tokens`. */
  function Recovered(tokens: seq<Token>): Option<seq<Text>> {
    ReadPointer(ToJsonPointer(Print(tokens)))
  }

  /**
    The pointer of a printed path leads back to the tokens exactly when there is one
    and no key is empty or has a dot or bracket (or the path is the empty key alone).
    Tildes and slashes in keys do no harm.
   */
  lemma PointerRoundTripExactly(tokens: seq<Token>)
    ensures Recovered(tokens) == Some(TokenTexts(tokens)) <==>
      (tokens != [] && forall t :: t in tokens ==> PlainKey(t)) || tokens == [Key([])]
  {
    hide Print, FindTokens, Unbracketed, JoinParts, ReadPointer;
    var parts := Unbracketed(FindTokens(Print(tokens)));
    ReadJoined(parts);
    FoundArePlain(Print(tokens));
    if tokens != [] && forall t :: t in tokens ==> PlainKey(t) {
      FindPrinted(tokens);
    }
    if parts == [] {
      if |tokens| == 1 && TokenText(tokens[0]) == [] {
        assert tokens == [tokens[0]];
      }
      if tokens == [Key([])] {
        assert TokenTexts(tokens) == [[]];
      }
    } else if parts == TokenTexts(tokens) {
      forall t | t in tokens ensures PlainKey(t) {
        var i :| 0 <= i < |tokens| && tokens[i] == t;
        assert parts[i] in parts;
      }
    }
    if tokens == [Key([])] {
      EmptyKeyPath(tokens);
    }
  }

  lemma EmptyKeyPath(tokens: seq<Token>)
    requires tokens == [Key([])]
    ensures Unbracketed(FindTokens(Print(tokens))) == []
  {
  }
}
