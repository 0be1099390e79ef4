/**
  base64url (RFC 4648, section 5) as Python's `base64` module writes and reads
  it, and UTF-8 as `bytes.decode` reads it.  The reader is the lenient one: it
  skips characters outside both base64 alphabets and stops at complete padding.
 */
module Base64Url {
  import opened Prelude
  import opened PyText

  type Byte = n: nat | n < 256

  function Symbol(v: nat): (c: CodePoint)
    requires v < 64
    ensures c < 128 && c != 0x3D
  {
    if v < 26 then 0x41 + v
    else if v < 52 then 0x61 + (v - 26)
    else if v < 62 then 0x30 + (v - 52)
    else if v == 62 then 0x2D
    else 0x5F
  }

  /** `urlsafe_b64decode` maps '-' and '_' to '+' and '/', so all four are read. */
  function SymbolValue(c: CodePoint): (v: Option<nat>)
    ensures v.Some? ==> v.value < 64
  {
    if 0x41 <= c <= 0x5A then Some(c - 0x41)
    else if 0x61 <= c <= 0x7A then Some(c - 0x61 + 26)
    else if 0x30 <= c <= 0x39 then Some(c - 0x30 + 52)
    else if c == 0x2D || c == 0x2B then Some(62)
    else if c == 0x5F || c == 0x2F then Some(63)
    else None
  }

  function Encode(bytes: seq<Byte>): Text {
    if |bytes| == 0 then []
    else if |bytes| == 1 then
      [Symbol(bytes[0] / 4), Symbol(bytes[0] % 4 * 16), 0x3D, 0x3D]
    else if |bytes| == 2 then
      [Symbol(bytes[0] / 4), Symbol(bytes[0] % 4 * 16 + bytes[1] / 16), Symbol(bytes[1] % 16 * 4), 0x3D]
    else
      [Symbol(bytes[0] / 4), Symbol(bytes[0] % 4 * 16 + bytes[1] / 16),
       Symbol(bytes[1] % 16 * 4 + bytes[2] / 64), Symbol(bytes[2] % 64)] + Encode(bytes[3..])
  }

  /** Of a text of at least four symbols, the number that the first four are in base 64. */
  function GroupNumber(s: Text): Option<nat>
    requires |s| >= 4
  {
    match (SymbolValue(s[0]), SymbolValue(s[1]), SymbolValue(s[2]), SymbolValue(s[3]))
    case (Some(a), Some(b), Some(c), Some(d)) => Some(((a * 64 + b) * 64 + c) * 64 + d)
    case _ => None
  }

  lemma SameNumber(a: int, b: int, c: int)
    requires 0 <= a < 256 && 0 <= b < 256 && 0 <= c < 256
    ensures ((a / 4 * 64 + (a % 4 * 16 + b / 16)) * 64 + (b % 16 * 4 + c / 64)) * 64 + c % 64 == (a * 256 + b) * 256 + c
    ensures a / 4 < 64 && a % 4 * 16 + b / 16 < 64 && b % 16 * 4 + c / 64 < 64
  {
  }

  /** Three bytes are written as four symbols: the same number, in base 256 and in base 64. */
  lemma GroupIsNumber(a: Byte, b: Byte, c: Byte, rest: seq<Byte>)
    ensures var s := Encode([a, b, c] + rest);
      && |s| >= 4 && s[4..] == Encode(rest)
      && GroupNumber(s) == Some((a as int * 256 + b as int) * 256 + c as int)
  {
    hide Symbol, SymbolValue;
    SameNumber(a, b, c);
    var v0, v1, v2, v3: nat := a / 4, a % 4 * 16 + b / 16, b % 16 * 4 + c / 64, c % 64;
    SymbolRoundTrip(v0);
    SymbolRoundTrip(v1);
    SymbolRoundTrip(v2);
    SymbolRoundTrip(v3);
    FirstGroup(a, b, c, rest);
  }

  lemma FirstGroup(a: Byte, b: Byte, c: Byte, rest: seq<Byte>)
    ensures a / 4 < 64 && a % 4 * 16 + b / 16 < 64 && b % 16 * 4 + c / 64 < 64
    ensures Encode([a, b, c] + rest) ==
      [Symbol(a / 4), Symbol(a % 4 * 16 + b / 16), Symbol(b % 16 * 4 + c / 64), Symbol(c % 64)] + Encode(rest)
  {
    assert ([a, b, c] + rest)[3..] == rest;
  }

  /** Where the reader stands in a group: symbols seen, bits left over, padding seen. */
  datatype Group = Group(symbols: nat, left: nat, pads: nat)

  predicate ValidGroup(g: Group) {
    g.symbols < 4 && match g.symbols case 0 => g.left == 0 case 1 => g.left < 64 case 2 => g.left < 16 case _ => g.left < 4
  }

  const FRESH_GROUP := Group(0, 0, 0)

  /** The bytes of the rest of the input, or None for wrong padding. */
  function DecodeFrom(s: Text, g: Group): Option<seq<Byte>>
    requires ValidGroup(g)
    decreases |s|
  {
    if s == [] then (if g.symbols == 0 then Some([]) else None)
    else if s[0] == 0x3D then
      if g.symbols >= 2 && g.symbols + g.pads + 1 >= 4 then Some([])
      else DecodeFrom(s[1..], g.(pads := if g.symbols >= 2 then g.pads + 1 else g.pads))
    else
      match SymbolValue(s[0])
      case None => DecodeFrom(s[1..], g)
      case Some(v) => Emit(Feed(g, v).0, DecodeFrom(s[1..], Feed(g, v).1))
  }

  /** One more symbol: the byte it completes, if any, and where the group then stands. */
  function Feed(g: Group, v: nat): (r: (Option<Byte>, Group))
    requires ValidGroup(g) && v < 64
    ensures ValidGroup(r.1)
  {
    if g.symbols == 0 then (None, Group(1, v, 0))
    else if g.symbols == 1 then (Some(g.left * 4 + v / 16), Group(2, v % 16, 0))
    else if g.symbols == 2 then (Some(g.left * 16 + v / 4), Group(3, v % 4, 0))
    else (Some(g.left * 64 + v), FRESH_GROUP)
  }

  function Emit(b: Option<Byte>, rest: Option<seq<Byte>>): Option<seq<Byte>> {
    if b.None? then rest
    else if rest.None? then None
    else Some([b.value] + rest.value)
  }

  function Decode(s: Text): Option<seq<Byte>> {
    DecodeFrom(s, FRESH_GROUP)
  }

  lemma SymbolRoundTrip(v: nat)
    requires v < 64
    ensures SymbolValue(Symbol(v)) == Some(v)
  {
  }

  /** Reading one symbol of an encoded group. */
  lemma ReadSymbol(v: nat, tail: Text, g: Group)
    requires v < 64 && ValidGroup(g)
    ensures DecodeFrom([Symbol(v)] + tail, g) == Emit(Feed(g, v).0, DecodeFrom(tail, Feed(g, v).1))
  {
    SymbolRoundTrip(v);
    assert ([Symbol(v)] + tail)[1..] == tail;
  }

  /** Six bits and two: the first byte of a group is spread over two symbols. */
  lemma FirstByte(b0: Byte, low: nat)
    requires low < 16
    ensures var v := b0 % 4 * 16 + low;
      v < 64 && Feed(Group(1, b0 / 4, 0), v) == (Some(b0), Group(2, low, 0))
  {
    var v := b0 % 4 * 16 + low;
    assert v / 16 == b0 % 4 && v % 16 == low;
  }

  lemma SecondByte(b1: Byte, low: nat)
    requires low < 4
    ensures var v := b1 % 16 * 4 + low;
      v < 64 && Feed(Group(2, b1 / 16, 0), v) == (Some(b1), Group(3, low, 0))
  {
    var v := b1 % 16 * 4 + low;
    assert v / 4 == b1 % 16 && v % 4 == low;
  }

  lemma ReadPair(b0: Byte, low: nat, tail: Text)
    requires low < 16
    ensures DecodeFrom([Symbol(b0 / 4)] + ([Symbol(b0 % 4 * 16 + low)] + tail), FRESH_GROUP) ==
      Emit(Some(b0), DecodeFrom(tail, Group(2, low, 0)))
  {
    hide DecodeFrom;
    FirstByte(b0, low);
    var v := b0 % 4 * 16 + low;
    ReadSymbol(b0 / 4, [Symbol(v)] + tail, FRESH_GROUP);
    ReadSymbol(v, tail, Group(1, b0 / 4, 0));
  }

  lemma ReadThird(b1: Byte, low: nat, tail: Text)
    requires low < 4
    ensures DecodeFrom([Symbol(b1 % 16 * 4 + low)] + tail, Group(2, b1 / 16, 0)) ==
      Emit(Some(b1), DecodeFrom(tail, Group(3, low, 0)))
  {
    hide DecodeFrom;
    SecondByte(b1, low);
    ReadSymbol(b1 % 16 * 4 + low, tail, Group(2, b1 / 16, 0));
  }

  /** A whole group of four symbols. */
  lemma ReadGroup(b0: Byte, b1: Byte, b2: Byte, rest: Text)
    ensures DecodeFrom(
      [Symbol(b0 / 4)] + ([Symbol(b0 % 4 * 16 + b1 / 16)] + ([Symbol(b1 % 16 * 4 + b2 / 64)] + ([Symbol(b2 % 64)] + rest))),
      FRESH_GROUP) == Emit(Some(b0), Emit(Some(b1), Emit(Some(b2), DecodeFrom(rest, FRESH_GROUP))))
  {
    hide DecodeFrom, Symbol;
    FirstByte(b0, b1 / 16);
    var last := [Symbol(b2 % 64)] + rest;
    ReadPair(b0, b1 / 16, [Symbol(b1 % 16 * 4 + b2 / 64)] + last);
    ReadThird(b1, b2 / 64, last);
    ReadSymbol(b2 % 64, rest, Group(3, b2 / 64, 0));
  }

  /** One or two padding characters after two or three symbols end the input. */
  lemma ReadPadding(pad: Text, g: Group)
    requires ValidGroup(g) && g.pads == 0 && 2 <= g.symbols && |pad| == 4 - g.symbols
    requires forall i :: 0 <= i < |pad| ==> pad[i] == 0x3D
    ensures DecodeFrom(pad, g) == Some([])
  {
    if g.symbols == 2 {
      assert DecodeFrom(pad[1..], g.(pads := 1)) == Some([]);
    }
  }

  /** A last group of two symbols and two paddings. */
  lemma ReadOneByte(b0: Byte, low: nat, pad: Text)
    requires low == 0 && |pad| == 2 && pad[0] == pad[1] == 0x3D
    ensures DecodeFrom([Symbol(b0 / 4)] + ([Symbol(b0 % 4 * 16 + low)] + pad), FRESH_GROUP) == Some([b0])
  {
    hide DecodeFrom;
    ReadPair(b0, low, pad);
    ReadPadding(pad, Group(2, low, 0));
    assert [b0] + [] == [b0];
  }

  /** A last group of three symbols and one padding. */
  lemma ReadTwoBytes(b0: Byte, b1: Byte, low: nat, pad: Text)
    requires low == 0 && |pad| == 1 && pad[0] == 0x3D
    ensures DecodeFrom(
      [Symbol(b0 / 4)] + ([Symbol(b0 % 4 * 16 + b1 / 16)] + ([Symbol(b1 % 16 * 4 + low)] + pad)), FRESH_GROUP) == Some([b0, b1])
  {
    hide DecodeFrom;
    ReadPair(b0, b1 / 16, [Symbol(b1 % 16 * 4 + low)] + pad);
    ReadThird(b1, low, pad);
    ReadPadding(pad, Group(3, low, 0));
    assert [b1] + [] == [b1] && [b0] + [b1] == [b0, b1];
  }

  lemma DecodeNothing(s: Text)
    requires s == []
    ensures Decode(s) == Some([])
  {
  }

  lemma {:induction false} DecodeEncode(bytes: seq<Byte>)
    ensures Decode(Encode(bytes)) == Some(bytes)
  {
    hide DecodeFrom, Symbol;
    if |bytes| == 0 {
      DecodeNothing(Encode(bytes));
    } else if |bytes| == 1 {
      var pad: Text := Encode(bytes)[2..];
      ReadOneByte(bytes[0], 0, pad);
      assert Encode(bytes) == [Symbol(bytes[0] / 4)] + ([Symbol(bytes[0] % 4 * 16 + 0)] + pad);
      assert bytes == [bytes[0]];
    } else if |bytes| == 2 {
      var pad: Text := Encode(bytes)[3..];
      ReadTwoBytes(bytes[0], bytes[1], 0, pad);
      assert Encode(bytes) == [Symbol(bytes[0] / 4)] + ([Symbol(bytes[0] % 4 * 16 + bytes[1] / 16)] + ([Symbol(bytes[1] % 16 * 4 + 0)] + pad));
      assert bytes == [bytes[0], bytes[1]];
    } else {
      EncodeUnfold(bytes);
      ReadGroup(bytes[0], bytes[1], bytes[2], Encode(bytes[3..]));
      DecodeEncode(bytes[3..]);
      assert bytes == [bytes[0]] + ([bytes[1]] + ([bytes[2]] + bytes[3..]));
    }
  }

  lemma EncodeUnfold(bytes: seq<Byte>)
    requires |bytes| >= 3
    ensures Encode(bytes) == [Symbol(bytes[0] / 4)] + ([Symbol(bytes[0] % 4 * 16 + bytes[1] / 16)]
      + ([Symbol(bytes[1] % 16 * 4 + bytes[2] / 64)] + ([Symbol(bytes[2] % 64)] + Encode(bytes[3..]))))
  {
  }

  lemma {:induction false} EncodeIsAscii(bytes: seq<Byte>)
    ensures forall c :: c in Encode(bytes) ==> c < 128
  {
    if |bytes| >= 3 {
      EncodeIsAscii(bytes[3..]);
    }
  }

  // ----------------------------------------------------------------------- UTF-8

  predicate IsContinuation(b: Byte) { 0x80 <= b <= 0xBF }

  /** `bytes.decode("utf-8")`, strict: no overlong forms, no surrogates. */
  function Utf8Decode(bytes: seq<Byte>): Option<Text> {
    if bytes == [] then Some([])
    else if bytes[0] < 0x80 then Cons(bytes[0], Utf8Decode(bytes[1..]))
    else if 0xC2 <= bytes[0] <= 0xDF && |bytes| >= 2 && IsContinuation(bytes[1]) then
      Cons((bytes[0] as int - 0xC0) * 0x40 + (bytes[1] as int - 0x80), Utf8Decode(bytes[2..]))
    else if 0xE0 <= bytes[0] <= 0xEF && |bytes| >= 3 && IsContinuation(bytes[1]) && IsContinuation(bytes[2]) then
      var c := (bytes[0] as int - 0xE0) * 0x1000 + (bytes[1] as int - 0x80) * 0x40 + (bytes[2] as int - 0x80);
      if c < 0x800 || 0xD800 <= c <= 0xDFFF then None else Cons(c, Utf8Decode(bytes[3..]))
    else if 0xF0 <= bytes[0] <= 0xF4 && |bytes| >= 4
            && IsContinuation(bytes[1]) && IsContinuation(bytes[2]) && IsContinuation(bytes[3]) then
      var c := (bytes[0] as int - 0xF0) * 0x40000 + (bytes[1] as int - 0x80) * 0x1000 + (bytes[2] as int - 0x80) * 0x40 + (bytes[3] as int - 0x80);
      if c < 0x10000 || c > 0x10FFFF then None else Cons(c, Utf8Decode(bytes[4..]))
    else None
  }

  function Cons(c: CodePoint, rest: Option<Text>): Option<Text> {
    match rest
    case None => None
    case Some(text) => Some([c] + text)
  }

  predicate IsAscii(t: Text) {
    forall c :: c in t ==> c < 128
  }

  /** `str.encode` of ASCII text, to ASCII or to UTF-8. */
  function AsciiBytes(t: Text): (bytes: seq<Byte>)
    requires IsAscii(t)
    ensures |bytes| == |t|
    ensures forall i :: 0 <= i < |t| ==> bytes[i] == t[i]
  {
    if t == [] then []
    else
      assert t[0] in t && forall c :: c in t[1..] ==> c in t;
      var first: Byte := t[0];
      [first] + AsciiBytes(t[1..])
  }

  lemma {:induction false} Utf8OfAscii(t: Text)
    requires IsAscii(t)
    ensures Utf8Decode(AsciiBytes(t)) == Some(t)
  {
    if t != [] {
      assert t[0] in t;
      assert forall c :: c in t[1..] ==> c in t;
      assert AsciiBytes(t)[1..] == AsciiBytes(t[1..]);
      Utf8OfAscii(t[1..]);
      assert t == [t[0]] + t[1..];
    }
  }
}
