/** Continuation tokens: `{"offset": ..., "order_by": ...}` as JSON inside base64url. */
module ContinuationToken {
  import opened Prelude
  import opened PyText
  import opened JsonText
  import opened JsonObject
  import Base64Url

  datatype Cursor = Cursor(offset: int, orderBy: Option<Text>)

  const OFFSET_KEY := T("offset")
  const ORDER_BY_KEY := T("order_by")

  /** `json.dumps` of the token dictionary: `{"offset": ..., "order_by": ...}`. */
  function TokenJson(offset: nat, orderBy: Option<Text>): Text {
    PairJson("offset", offset, "order_by", orderBy)
  }

  function Encode(offset: nat, orderBy: Option<Text>): Text {
    TokenJsonIsAscii(offset, orderBy);
    Base64Url.Encode(Base64Url.AsciiBytes(TokenJson(offset, orderBy)))
  }

  /** The two members a decoded dictionary must have, or None for a validation failure.  A bool passes for an int. */
  function CursorOf(data: Doc): (cursor: Option<Cursor>)
    ensures cursor.Some? ==> cursor.value.offset >= 0
  {
    if !data.DDict? then None
    else
      var offset := match Get(data.members, OFFSET_KEY)
                    case DInt(n) => if n < 0 then None else Some(n)
                    case DBool(b) => Some(if b then 1 else 0)
                    case _ => None;
      match (offset, Get(data.members, ORDER_BY_KEY))
      case (Some(n), DNull) => Some(Cursor(n, None))
      case (Some(n), DStr(text)) => Some(Cursor(n, Some(text)))
      case _ => None
  }

  /** Whatever the text, what is accepted has an offset that is not negative. */
  function Decode(token: Text): (cursor: Option<Cursor>)
    ensures cursor.Some? ==> cursor.value.offset >= 0
  {
    if !Base64Url.IsAscii(token) then None
    else
      match Base64Url.Decode(token)
      case None => None
      case Some(bytes) =>
        match Base64Url.Utf8Decode(bytes)
        case None => None
        case Some(text) =>
          match Loads(text)
          case None => None
          case Some(data) => CursorOf(data)
  }

  /** The text inside a token. */
  lemma TokenReads(offset: nat, orderBy: Option<Text>)
    ensures TokenJson(offset, orderBy) ==
      T("{\"offset\": ") + Decimal(offset) + T(", \"order_by\": ") + TextOrNullJson(orderBy) + T("}")
  {
    TokenPieces();
    hide T, Decimal, TextOrNullJson;
    Assemble(Decimal(offset), TextOrNullJson(orderBy), T("offset"), T("order_by"));
  }

  lemma TokenPieces()
    ensures T("{\"offset\": ") == [0x7B, 0x22] + T("offset") + [0x22, 0x3A, 0x20]
    ensures T(", \"order_by\": ") == [0x2C, 0x20, 0x22] + T("order_by") + [0x22, 0x3A, 0x20]
    ensures T("}") == [0x7D]
  {
  }

  lemma Assemble(n: Text, text: Text, k1: Text, k2: Text)
    ensures
      [0x7B] + ([0x22] + (k1 + [0x22] + ([0x3A, 0x20] + (n + ([0x2C, 0x20] + ([0x22] + (k2 + [0x22] + ([0x3A, 0x20] + (text + [0x7D]))))))))) ==
      ([0x7B, 0x22] + k1 + [0x22, 0x3A, 0x20]) + n + ([0x2C, 0x20, 0x22] + k2 + [0x22, 0x3A, 0x20]) + text + [0x7D]
  {
    var tail: Text := [0x22] + (k2 + [0x22] + ([0x3A, 0x20] + (text + [0x7D])));
    assert tail == [0x22] + k2 + [0x22, 0x3A, 0x20] + text + [0x7D];
    var rest: Text := n + ([0x2C, 0x20] + tail);
    assert rest == n + ([0x2C, 0x20, 0x22] + k2 + [0x22, 0x3A, 0x20]) + text + [0x7D];
    assert [0x7B] + ([0x22] + (k1 + [0x22] + ([0x3A, 0x20] + rest))) == ([0x7B, 0x22] + k1 + [0x22, 0x3A, 0x20]) + rest;
  }

  /** What the two members may be: a number that is not negative, or a bool; and null, nothing, or a text. */
  lemma CursorExactly(data: Doc, cursor: Cursor)
    ensures CursorOf(data) == Some(cursor) <==>
      && data.DDict?
      && (Get(data.members, T("offset")) == DInt(cursor.offset) || Get(data.members, T("offset")) == DBool(cursor.offset == 1))
      && cursor.offset >= 0 && (Get(data.members, T("offset")).DBool? ==> cursor.offset <= 1)
      && Get(data.members, T("order_by")) == (if cursor.orderBy.Some? then DStr(cursor.orderBy.value) else DNull)
  {
    hide T, Get;
  }

  lemma EscapedCharIsAscii(c: CodePoint)
    ensures Base64Url.IsAscii(EscapeChar(c))
  {
  }

  lemma {:induction false} EscapeIsAscii(text: Text)
    ensures Base64Url.IsAscii(Escape(text))
  {
    hide EscapeChar;
    if text != [] {
      EscapedCharIsAscii(text[0]);
      EscapeIsAscii(text[1..]);
    }
  }

  lemma LiteralIsAscii(s: string)
    requires forall i :: 0 <= i < |s| ==> s[i] as int < 128
    ensures Base64Url.IsAscii(T(s))
  {
  }

  lemma DecimalIsAscii(n: nat)
    ensures Base64Url.IsAscii(Decimal(n))
  {
    forall c | c in Decimal(n) ensures c < 128 { assert IsDigit(c); }
  }

  lemma MemberIsAscii(key: string, value: Text)
    requires PlainKey(key) && Base64Url.IsAscii(value)
    ensures Base64Url.IsAscii(MemberJson(key, value))
  {
    LiteralIsAscii(key);
  }

  lemma TokenJsonIsAscii(offset: nat, orderBy: Option<Text>)
    ensures Base64Url.IsAscii(TokenJson(offset, orderBy))
  {
    hide MemberJson, Escape, Decimal;
    if orderBy.Some? { EscapeIsAscii(orderBy.value); }
    DecimalIsAscii(offset);
    LiteralIsAscii("null");
    MemberIsAscii("order_by", TextOrNullJson(orderBy) + [0x7D]);
    var last := MemberJson("order_by", TextOrNullJson(orderBy) + [0x7D]);
    MemberIsAscii("offset", Decimal(offset) + ([0x2C, 0x20] + last));
  }

  lemma KeysDiffer()
    ensures OFFSET_KEY != ORDER_BY_KEY
  {
    assert |OFFSET_KEY| == 6 && |ORDER_BY_KEY| == 8;
  }

  /** The members of the token's dictionary when it is read back. */
  function TokenMembers(offset: nat, orderBy: Option<Text>): seq<Member> {
    PairMembers("offset", offset, "order_by", orderBy)
  }

  lemma LoadsTokenJson(offset: nat, orderBy: Option<Text>)
    ensures Loads(TokenJson(offset, orderBy)) == Some(DDict(TokenMembers(offset, orderBy)))
  {
    hide Loads, PairJson, PairMembers;
    KeysDiffer();
    LoadsPair("offset", offset, "order_by", orderBy);
  }

  lemma CursorOfTokenMembers(offset: nat, orderBy: Option<Text>)
    ensures CursorOf(DDict(TokenMembers(offset, orderBy))) ==
      Some(Cursor(offset, match orderBy case None => None case Some(text) => Some(Fuse(text))))
  {
    KeysDiffer();
    var members := TokenMembers(offset, orderBy);
    assert members[1..][0] == members[1];
    assert Get(members, ORDER_BY_KEY) == Get(members[1..], ORDER_BY_KEY) == members[1].value;
  }

  /** Decoding an encoded cursor gives the offset, and the order_by with surrogate pairs fused. */
  lemma DecodeEncode(offset: nat, orderBy: Option<Text>)
    ensures Decode(Encode(offset, orderBy)) ==
      Some(Cursor(offset, match orderBy case None => None case Some(text) => Some(Fuse(text))))
  {
    hide TokenJson, Loads, CursorOf, TokenMembers, Base64Url.Encode, Base64Url.Decode, Base64Url.Utf8Decode, Base64Url.AsciiBytes, Fuse;
    var json := TokenJson(offset, orderBy);
    TokenJsonIsAscii(offset, orderBy);
    var bytes := Base64Url.AsciiBytes(json);
    Base64Url.EncodeIsAscii(bytes);
    Base64Url.DecodeEncode(bytes);
    Base64Url.Utf8OfAscii(json);
    LoadsTokenJson(offset, orderBy);
    CursorOfTokenMembers(offset, orderBy);
  }

  /** The round trip is exact unless order_by spells a character as two surrogate code points. */
  lemma RoundTripExactly(offset: nat, orderBy: Option<Text>)
    ensures Decode(Encode(offset, orderBy)) == Some(Cursor(offset, orderBy)) <==>
      (orderBy.Some? ==> !HasSplitPair(orderBy.value))
  {
    hide Encode, Decode, Fuse, HasSplitPair;
    DecodeEncode(offset, orderBy);
    if orderBy.Some? { FuseExactly(orderBy.value); }
  }

  /** The failing family, by its smallest member. */
  lemma SplitPairIsFused()
    ensures Decode(Encode(0, Some([0xD83D, 0xDE00]))) == Some(Cursor(0, Some([0x1F600])))
  {
    DecodeEncode(0, Some([0xD83D, 0xDE00]));
    var pair: Text := [0xD83D, 0xDE00];
    assert pair[2..] == [];
    assert Fuse(pair) == [Join(0xD83D, 0xDE00)] + Fuse(pair[2..]) == [0x1F600];
  }
}
