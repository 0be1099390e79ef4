/**
  JSON text as the continuation tokens and the error bodies use it: what
  `json.loads` reads (RFC 8259, with Python's NaN and Infinity) and what
  `json.dumps` writes for a string and an integer (`ensure_ascii`).
 */
module JsonText {
  import opened Prelude
  import opened PyText

  /** A value as `json.loads` builds it: dictionaries keep the order of insertion, floats their text. */
  datatype Doc =
    | DNull
    | DBool(b: bool)
    | DInt(n: int)
    | DFloat(lexeme: Text)
    | DStr(text: Text)
    | DList(items: seq<Doc>)
    | DDict(members: seq<Member>)

  datatype Member = Member(key: Text, value: Doc)

  /** `dict.get(key)`, None standing for an absent key as for null. */
  function Get(members: seq<Member>, key: Text): (value: Doc)
    ensures (forall m :: m in members ==> m.key != key) ==> value == DNull
    ensures value != DNull ==> Member(key, value) in members
  {
    if members == [] then DNull
    else if members[0].key == key then members[0].value
    else Get(members[1..], key)
  }

  /** `dict[key] = value`: replace in place, or append. */
  function Put(members: seq<Member>, key: Text, value: Doc): seq<Member> {
    if members == [] then [Member(key, value)]
    else if members[0].key == key then [Member(key, value)] + members[1..]
    else [members[0]] + Put(members[1..], key, value)
  }

  // ------------------------------------------------------------------- reading

  /** What a reader took from the front of a text, and what is left. */
  datatype Parsed<+A> = Fail | Got(value: A, rest: Text)

  predicate IsJsonSpace(c: CodePoint) {
    c == 0x20 || c == 0x09 || c == 0x0A || c == 0x0D
  }

  function SkipSpace(s: Text): (r: Text)
    ensures |r| <= |s|
  {
    DropWhile(s, IsJsonSpace)
  }

  predicate StartsWith(s: Text, prefix: Text) {
    |prefix| <= |s| && s[..|prefix|] == prefix
  }

  function HexDigit(c: CodePoint): Option<nat> {
    if 0x30 <= c <= 0x39 then Some(c - 0x30)
    else if 0x61 <= c <= 0x66 then Some(c - 0x57)
    else if 0x41 <= c <= 0x46 then Some(c - 0x37)
    else None
  }

  /** Four hexadecimal digits at the front of `s`. */
  function HexUnit(s: Text): (u: Option<nat>)
    ensures u.Some? ==> |s| >= 4 && u.value < 0x10000
  {
    if |s| < 4 then None
    else
      match (HexDigit(s[0]), HexDigit(s[1]), HexDigit(s[2]), HexDigit(s[3]))
      case (Some(a), Some(b), Some(c), Some(d)) =>
        var u := 0x1000 * a + 0x100 * b + 0x10 * c + d;
        if u < 0x10000 then Some(u) else None
      case _ => None
  }

  predicate IsHigh(u: int) { 0xD800 <= u <= 0xDBFF }
  predicate IsLow(u: int) { 0xDC00 <= u <= 0xDFFF }

  function Join(high: nat, low: nat): CodePoint
    requires IsHigh(high) && IsLow(low)
  {
    0x10000 + 0x400 * (high - 0xD800) + (low - 0xDC00)
  }

  /** The character that a one-letter escape stands for. */
  function ShortEscape(c: CodePoint): Option<CodePoint> {
    if c == 0x22 || c == 0x5C || c == 0x2F then Some(c)
    else if c == 0x62 then Some(0x08)
    else if c == 0x66 then Some(0x0C)
    else if c == 0x6E then Some(0x0A)
    else if c == 0x72 then Some(0x0D)
    else if c == 0x74 then Some(0x09)
    else None
  }

  /** One character of a string literal, escapes resolved; a pair of surrogate escapes is one character. */
  function ReadChar(s: Text): (r: Parsed<CodePoint>)
    ensures r.Got? ==> |r.rest| < |s|
  {
    if s == [] || s[0] < 0x20 then Fail
    else if s[0] != 0x5C then Got(s[0], s[1..])
    else if |s| < 2 then Fail
    else if s[1] != 0x75 then
      (match ShortEscape(s[1])
       case Some(c) => Got(c, s[2..])
       case None => Fail)
    else
      match HexUnit(s[2..])
      case None => Fail
      case Some(u) =>
        var next := s[6..];
        if IsHigh(u) && |next| >= 2 && next[0] == 0x5C && next[1] == 0x75
           && HexUnit(next[2..]).Some? && IsLow(HexUnit(next[2..]).value) then
          Got(Join(u, HexUnit(next[2..]).value), next[6..])
        else
          Got(u, next)
  }

  /** The rest of a string literal, after its opening quote. */
  function ReadString(s: Text): (r: Parsed<Text>)
    ensures r.Got? ==> |r.rest| < |s|
    decreases |s|
  {
    if s == [] then Fail
    else if s[0] == 0x22 then Got([], s[1..])
    else
      match ReadChar(s)
      case Fail => Fail
      case Got(c, rest) =>
        match ReadString(rest)
        case Fail => Fail
        case Got(text, end) => Got([c] + text, end)
  }

  /** The digits at the front of `s`. */
  function DigitSpan(s: Text): (digits: Text)
    ensures |digits| <= |s| && digits == s[..|digits|]
    ensures forall d :: d in digits ==> IsDigit(d)
  {
    if s != [] && IsDigit(s[0]) then [s[0]] + DigitSpan(s[1..]) else []
  }

  function DigitsValue(digits: Text): nat
    requires forall d :: d in digits ==> IsDigit(d)
  {
    if digits == [] then 0
    else
      var last := digits[|digits| - 1];
      assert last in digits && IsDigit(last);
      10 * DigitsValue(digits[..|digits| - 1]) + (last as int - 0x30)
  }

  /** The length of an optional fraction, then of an optional exponent. */
  function FractionLength(s: Text): (n: nat)
    ensures n <= |s|
  {
    if s != [] && s[0] == 0x2E && DigitSpan(s[1..]) != [] then 1 + |DigitSpan(s[1..])| else 0
  }

  function ExponentLength(s: Text): (n: nat)
    ensures n <= |s|
  {
    if s != [] && (s[0] == 0x65 || s[0] == 0x45) then
      var sign := if |s| > 1 && (s[1] == 0x2B || s[1] == 0x2D) then 1 else 0;
      var digits := DigitSpan(s[1 + sign..]);
      if digits != [] then 1 + sign + |digits| else 0
    else 0
  }

  function ReadNumber(s: Text): (r: Parsed<Doc>)
    ensures r.Got? ==> |r.rest| < |s|
  {
    var negative := s != [] && s[0] == 0x2D;
    var unsigned := if negative then s[1..] else s;
    var span := DigitSpan(unsigned);
    if span == [] then Fail
    else
      var whole := if span[0] == 0x30 then span[..1] else span;
      var tail := unsigned[|whole|..];
      var fraction := FractionLength(tail);
      var exponent := ExponentLength(tail[fraction..]);
      if fraction + exponent == 0 then
        Got(DInt(if negative then -(DigitsValue(whole) as int) else DigitsValue(whole)), tail)
      else
        Got(DFloat(s[..|s| - |tail| + fraction + exponent]), tail[fraction + exponent..])
  }

  function ReadWord(s: Text, word: Text, value: Doc): (r: Parsed<Doc>)
    requires word != []
    ensures r.Got? ==> |r.rest| < |s|
  {
    if StartsWith(s, word) then Got(value, s[|word|..]) else Fail
  }

  function ReadValue(s: Text): (r: Parsed<Doc>)
    ensures r.Got? ==> |r.rest| < |s|
    decreases |s|, 0
  {
    if s == [] then Fail
    else if s[0] == 0x22 then
      (match ReadString(s[1..])
       case Fail => Fail
       case Got(text, rest) => Got(DStr(text), rest))
    else if s[0] == 0x7B then
      var inner := SkipSpace(s[1..]);
      if inner != [] && inner[0] == 0x7D then Got(DDict([]), inner[1..]) else ReadMembers(inner, [])
    else if s[0] == 0x5B then
      var inner := SkipSpace(s[1..]);
      if inner != [] && inner[0] == 0x5D then Got(DList([]), inner[1..]) else ReadItems(inner, [])
    else if s[0] == 0x6E then ReadWord(s, T("null"), DNull)
    else if s[0] == 0x74 then ReadWord(s, T("true"), DBool(true))
    else if s[0] == 0x66 then ReadWord(s, T("false"), DBool(false))
    else if s[0] == 0x4E then ReadWord(s, T("NaN"), DFloat(T("NaN")))
    else if s[0] == 0x49 then ReadWord(s, T("Infinity"), DFloat(T("Infinity")))
    else if StartsWith(s, T("-Infinity")) then ReadWord(s, T("-Infinity"), DFloat(T("-Infinity")))
    else ReadNumber(s)
  }

  /** The members of an object, from a key's opening quote to the closing brace. */
  function ReadMembers(s: Text, members: seq<Member>): (r: Parsed<Doc>)
    ensures r.Got? ==> |r.rest| < |s|
    decreases |s|, 1
  {
    if s == [] || s[0] != 0x22 then Fail
    else
      match ReadString(s[1..])
      case Fail => Fail
      case Got(key, afterKey) =>
        var colon := SkipSpace(afterKey);
        if colon == [] || colon[0] != 0x3A then Fail
        else
          match ReadValue(SkipSpace(colon[1..]))
          case Fail => Fail
          case Got(value, afterValue) =>
            var next := SkipSpace(afterValue);
            if next == [] then Fail
            else if next[0] == 0x7D then Got(DDict(Put(members, key, value)), next[1..])
            else if next[0] == 0x2C then ReadMembers(SkipSpace(next[1..]), Put(members, key, value))
            else Fail
  }

  /** The items of an array, from an item to the closing bracket. */
  function ReadItems(s: Text, items: seq<Doc>): (r: Parsed<Doc>)
    ensures r.Got? ==> |r.rest| < |s|
    decreases |s|, 1
  {
    match ReadValue(s)
    case Fail => Fail
    case Got(item, afterItem) =>
      var next := SkipSpace(afterItem);
      if next == [] then Fail
      else if next[0] == 0x5D then Got(DList(items + [item]), next[1..])
      else if next[0] == 0x2C then ReadItems(SkipSpace(next[1..]), items + [item])
      else Fail
  }

  /** `json.loads`: one value, with nothing but space around it. */
  function Loads(s: Text): Option<Doc> {
    match ReadValue(SkipSpace(s))
    case Fail => None
    case Got(value, rest) => if SkipSpace(rest) == [] then Some(value) else None
  }

  lemma SkipNoSpace(s: Text)
    requires s != [] && !IsJsonSpace(s[0])
    ensures SkipSpace(s) == s
  {
  }

  lemma SkipOneSpace(s: Text, rest: Text)
    requires s != [] && IsJsonSpace(s[0]) && s[1..] == rest
    requires rest != [] && !IsJsonSpace(rest[0])
    ensures SkipSpace(s) == rest
  {
    assert DropWhile(rest, IsJsonSpace) == rest;
  }

  // ------------------------------------------------------------------- writing

  function HexChar(d: nat): CodePoint
    requires d < 16
  {
    if d < 10 then 0x30 + d else 0x57 + d
  }

  /** A four-digit escape of a UTF-16 code unit. */
  function UnitEscape(u: nat): (t: Text)
    requires u < 0x10000
    ensures |t| == 6
  {
    [0x5C, 0x75, HexChar(u / 0x1000), HexChar(u / 0x100 % 0x10), HexChar(u / 0x10 % 0x10), HexChar(u % 0x10)]
  }

  function HighOf(c: CodePoint): nat
    requires c >= 0x10000
    ensures IsHigh(HighOf(c))
  {
    0xD800 + (c - 0x10000) / 0x400
  }

  function LowOf(c: CodePoint): nat
    requires c >= 0x10000
    ensures IsLow(LowOf(c))
  {
    0xDC00 + (c - 0x10000) % 0x400
  }

  /** One character inside a string literal written with `ensure_ascii`. */
  function EscapeChar(c: CodePoint): (t: Text)
    ensures t != [] && t[0] != 0x22
  {
    if c == 0x22 || c == 0x5C then [0x5C, c]
    else if c == 0x0A then [0x5C, 0x6E]
    else if c == 0x0D then [0x5C, 0x72]
    else if c == 0x09 then [0x5C, 0x74]
    else if c == 0x0C then [0x5C, 0x66]
    else if c == 0x08 then [0x5C, 0x62]
    else if 0x20 <= c <= 0x7E then [c]
    else if c < 0x10000 then UnitEscape(c)
    else UnitEscape(HighOf(c)) + UnitEscape(LowOf(c))
  }

  /** The short escapes, and the characters that need none. */
  lemma EscapesRead(c: CodePoint)
    ensures EscapeChar(0x22) == T("\\\"") && EscapeChar(0x5C) == T("\\\\") && EscapeChar(0x0A) == T("\\n") && EscapeChar(0x0D) == T("\\r")
    ensures EscapeChar(0x09) == T("\\t") && EscapeChar(0x0C) == T("\\f") && EscapeChar(0x08) == T("\\b")
    ensures 0x20 <= c <= 0x7E && c != 0x22 && c != 0x5C ==> EscapeChar(c) == [c]
  {
    hide UnitEscape;
  }

  function Escape(text: Text): Text {
    if text == [] then [] else EscapeChar(text[0]) + Escape(text[1..])
  }

  function StringLiteral(text: Text): Text {
    [0x22] + Escape(text) + [0x22]
  }

  function Decimal(n: nat): (t: Text)
    ensures t != [] && forall d :: d in t ==> IsDigit(d)
    ensures n > 0 ==> t[0] != 0x30
    ensures n < 10 ==> |t| == 1
  {
    if n < 10 then [0x30 + n] else Decimal(n / 10) + [0x30 + n % 10]
  }

  // ---------------------------------------------------------------- round trips

  /** Adjacent surrogate code points fuse into one character, left to right. */
  function Fuse(text: Text): (fused: Text)
    ensures |fused| <= |text|
    decreases |text|
  {
    if text == [] then []
    else if |text| >= 2 && IsHigh(text[0]) && IsLow(text[1]) then [Join(text[0], text[1])] + Fuse(text[2..])
    else [text[0]] + Fuse(text[1..])
  }

  /** A high surrogate directly followed by a low one. */
  predicate HasSplitPair(text: Text) {
    exists i :: 0 <= i && i + 1 < |text| && IsHigh(text[i]) && IsLow(text[i + 1])
  }

  lemma {:induction false} FuseExactly(text: Text)
    ensures Fuse(text) == text <==> !HasSplitPair(text)
    ensures HasSplitPair(text) ==> |Fuse(text)| < |text|
    decreases |text|
  {
    if text == [] {
    } else if |text| >= 2 && IsHigh(text[0]) && IsLow(text[1]) {
      assert HasSplitPair(text);
    } else {
      hide Join;
      var tail := text[1..];
      FuseExactly(tail);
      assert text == [text[0]] + tail;
      if HasSplitPair(text) {
        var i :| 0 <= i && i + 1 < |text| && IsHigh(text[i]) && IsLow(text[i + 1]);
        assert IsHigh(tail[i - 1]) && IsLow(tail[i]);
      }
      if HasSplitPair(tail) {
        var i :| 0 <= i && i + 1 < |tail| && IsHigh(tail[i]) && IsLow(tail[i + 1]);
        assert IsHigh(text[i + 1]) && IsLow(text[i + 2]);
      }
    }
  }

  /** What is fused has no pair left to fuse. */
  lemma {:induction false} FusedHasNoPair(text: Text)
    ensures !HasSplitPair(Fuse(text))
    ensures text != [] ==> Fuse(text) != [] && (Fuse(text)[0] == text[0] || Fuse(text)[0] >= 0x10000)
    decreases |text|
  {
    if text != [] {
      var rest := if |text| >= 2 && IsHigh(text[0]) && IsLow(text[1]) then text[2..] else text[1..];
      FusedHasNoPair(rest);
      var fused, tail := Fuse(text), Fuse(rest);
      assert fused == [fused[0]] + tail;
      forall i | 0 <= i && i + 1 < |fused| ensures !(IsHigh(fused[i]) && IsLow(fused[i + 1])) {
        if i > 0 {
          assert fused[i] == tail[i - 1] && fused[i + 1] == tail[i];
        }
      }
    }
  }

  lemma FuseUnfolds(text: Text)
    ensures Fuse([]) == []
    ensures |text| >= 2 && IsHigh(text[0]) && IsLow(text[1]) ==> Fuse(text) == [Join(text[0], text[1])] + Fuse(text[2..])
    ensures text != [] && !(|text| >= 2 && IsHigh(text[0]) && IsLow(text[1])) ==> Fuse(text) == [text[0]] + Fuse(text[1..])
  {
    hide Join, IsHigh, IsLow;
  }

  /** A pair is not split across a text that does not end in its first half. */
  lemma {:induction false} FuseApart(front: Text, back: Text)
    requires front != [] ==> !IsHigh(front[|front| - 1])
    ensures Fuse(front + back) == Fuse(front) + Fuse(back)
    decreases |front|
  {
    hide Join, Fuse, IsHigh, IsLow;
    FuseUnfolds(front);
    FuseUnfolds(front + back);
    if front == [] {
      assert front + back == back;
    } else if |front| >= 2 && IsHigh(front[0]) && IsLow(front[1]) {
      assert (front + back)[2..] == front[2..] + back;
      FuseApart(front[2..], back);
    } else {
      assert (front + back)[1..] == front[1..] + back;
      FuseApart(front[1..], back);
    }
  }

  lemma FuseKeepsSome(text: Text)
    requires text != []
    ensures Fuse(text) != []
  {
  }

  lemma HexDigitRoundTrip(d: nat)
    requires d < 16
    ensures HexDigit(HexChar(d)) == Some(d)
  {
  }

  lemma HexOfDigits(a: nat, b: nat, c: nat, d: nat, rest: Text)
    requires a < 16 && b < 16 && c < 16 && d < 16
    ensures HexUnit([HexChar(a), HexChar(b), HexChar(c), HexChar(d)] + rest) ==
      Some(0x1000 * a + 0x100 * b + 0x10 * c + d)
  {
    HexDigitRoundTrip(a);
    HexDigitRoundTrip(b);
    HexDigitRoundTrip(c);
    HexDigitRoundTrip(d);
  }

  lemma HexSum(u: nat)
    requires u < 0x10000
    ensures u / 0x1000 < 16
    ensures 0x1000 * (u / 0x1000) + 0x100 * (u / 0x100 % 0x10) + 0x10 * (u / 0x10 % 0x10) + u % 0x10 == u
  {
    assert u / 0x100 == 0x10 * (u / 0x1000) + u / 0x100 % 0x10;
    assert u / 0x10 == 0x10 * (u / 0x100) + u / 0x10 % 0x10;
  }

  lemma HexRoundTrip(u: nat, rest: Text)
    requires u < 0x10000
    ensures HexUnit((UnitEscape(u) + rest)[2..]) == Some(u)
    ensures (UnitEscape(u) + rest)[6..] == rest
  {
    HexSum(u);
    var digits := [HexChar(u / 0x1000), HexChar(u / 0x100 % 0x10), HexChar(u / 0x10 % 0x10), HexChar(u % 0x10)];
    assert (UnitEscape(u) + rest)[2..] == digits + rest;
    HexOfDigits(u / 0x1000, u / 0x100 % 0x10, u / 0x10 % 0x10, u % 0x10, rest);
  }

  /** The unit escape that `s` starts with, if it does. */
  predicate StartsWithLowEscape(s: Text) {
    |s| >= 2 && s[0] == 0x5C && s[1] == 0x75 && HexUnit(s[2..]).Some? && IsLow(HexUnit(s[2..]).value)
  }

  /** A written character starts with a low escape exactly when it is a low surrogate. */
  lemma LowEscapeOfChar(c: CodePoint, tail: Text)
    ensures StartsWithLowEscape(EscapeChar(c) + tail) <==> IsLow(c)
  {
    if c >= 0x10000 {
      assert EscapeChar(c) + tail == UnitEscape(HighOf(c)) + (UnitEscape(LowOf(c)) + tail);
      HexRoundTrip(HighOf(c), UnitEscape(LowOf(c)) + tail);
    } else if EscapeChar(c) == UnitEscape(c) {
      HexRoundTrip(c, tail);
    }
  }

  lemma LowEscapeExactly(text: Text, rest: Text)
    ensures StartsWithLowEscape(Escape(text) + [0x22] + rest) <==> text != [] && IsLow(text[0])
  {
    if text == [] {
      assert (Escape(text) + [0x22] + rest)[0] == 0x22;
    } else {
      var tail := Escape(text[1..]) + [0x22] + rest;
      assert Escape(text) + [0x22] + rest == EscapeChar(text[0]) + tail;
      LowEscapeOfChar(text[0], tail);
    }
  }

  /** Reading back one written character that does not fuse with the next. */
  lemma ReadEscapedChar(c: CodePoint, tail: Text)
    requires IsHigh(c) ==> !StartsWithLowEscape(tail)
    ensures ReadChar(EscapeChar(c) + tail) == Got(c, tail)
  {
    hide HexUnit, HexChar;
    var s := EscapeChar(c) + tail;
    if c >= 0x10000 {
      var rest := UnitEscape(LowOf(c)) + tail;
      assert s == UnitEscape(HighOf(c)) + rest;
      HexRoundTrip(HighOf(c), rest);
      HexRoundTrip(LowOf(c), tail);
      assert Join(HighOf(c), LowOf(c)) == c;
    } else if c == 0x22 || c == 0x5C || c == 0x0A || c == 0x0D || c == 0x09 || c == 0x0C || c == 0x08 {
      assert s[2..] == tail;
    } else if 0x20 <= c <= 0x7E {
      assert s[1..] == tail;
    } else {
      HexRoundTrip(c, tail);
    }
  }

  lemma ReadEscapedPair(high: CodePoint, low: CodePoint, tail: Text)
    requires IsHigh(high) && IsLow(low)
    ensures ReadChar(EscapeChar(high) + (EscapeChar(low) + tail)) == Got(Join(high, low), tail)
  {
    HexRoundTrip(high, UnitEscape(low) + tail);
    HexRoundTrip(low, tail);
  }

  /** Reading a written string gives its fused form, and stops at the closing quote. */
  lemma {:induction false} ReadEscaped(text: Text, rest: Text)
    ensures ReadString(Escape(text) + [0x22] + rest) == Got(Fuse(text), rest)
    decreases |text|
  {
    hide ReadChar, EscapeChar, StartsWithLowEscape;
    var s := Escape(text) + [0x22] + rest;
    if text == [] {
      assert s[1..] == rest;
    } else if |text| >= 2 && IsHigh(text[0]) && IsLow(text[1]) {
      var tail := Escape(text[2..]) + [0x22] + rest;
      assert text[1..][1..] == text[2..];
      assert Escape(text) == EscapeChar(text[0]) + (EscapeChar(text[1]) + Escape(text[2..]));
      assert s == EscapeChar(text[0]) + (EscapeChar(text[1]) + tail);
      ReadEscapedPair(text[0], text[1], tail);
      ReadEscaped(text[2..], rest);
    } else {
      var tail := Escape(text[1..]) + [0x22] + rest;
      assert s == EscapeChar(text[0]) + tail;
      LowEscapeExactly(text[1..], rest);
      ReadEscapedChar(text[0], tail);
      ReadEscaped(text[1..], rest);
    }
  }

  lemma {:induction false} DecimalValue(n: nat)
    ensures DigitsValue(Decimal(n)) == n
  {
    if n >= 10 {
      DecimalValue(n / 10);
      var t := Decimal(n);
      assert t[..|t| - 1] == Decimal(n / 10);
    }
  }

  lemma {:induction false} SpanOfDigits(digits: Text, rest: Text)
    requires forall d :: d in digits ==> IsDigit(d)
    requires rest == [] || !IsDigit(rest[0])
    ensures DigitSpan(digits + rest) == digits
  {
    if digits == [] {
      assert digits + rest == rest;
    } else {
      assert (digits + rest)[1..] == digits[1..] + rest;
      SpanOfDigits(digits[1..], rest);
    }
  }

  /** A written integer is read back when no digit, point or exponent follows. */
  lemma ReadDecimal(n: nat, rest: Text)
    requires rest == [] || (!IsDigit(rest[0]) && rest[0] != 0x2E && rest[0] != 0x65 && rest[0] != 0x45)
    ensures ReadValue(Decimal(n) + rest) == Got(DInt(n), rest)
  {
    hide ReadMembers, ReadItems, ReadString, Decimal, DigitSpan, DigitsValue;
    var s := Decimal(n) + rest;
    assert IsDigit(s[0]) by { assert s[0] == Decimal(n)[0]; }
    SpanOfDigits(Decimal(n), rest);
    DecimalValue(n);
    var whole := if Decimal(n)[0] == 0x30 then Decimal(n)[..1] else Decimal(n);
    assert whole == Decimal(n);
    assert s[|whole|..] == rest;
    assert ReadNumber(s) == Got(DInt(n), rest);
    assert !StartsWith(s, T("-Infinity"));
  }
}
