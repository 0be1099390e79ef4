/** A JSON object of two members, a number and a text or null, written and read back. */
module JsonObject {
  import opened Prelude
  import opened PyText
  import opened JsonText

  /** Keys that need no escape. */
  predicate PlainKey(key: string) {
    forall i :: 0 <= i < |key| ==> 0x20 <= key[i] as int < 0x7F && key[i] != '"' && key[i] != '\\'
  }

  /** `"key": value` */
  function MemberJson(key: string, value: Text): Text {
    [0x22] + (T(key) + [0x22] + ([0x3A, 0x20] + value))
  }

  function TextOrNullJson(text: Option<Text>): Text {
    match text
    case None => T("null")
    case Some(t) => StringLiteral(t)
  }

  /** `json.dumps` of a dictionary of two: `{"k1": n, "k2": text}`. */
  function PairJson(k1: string, n: nat, k2: string, text: Option<Text>): Text {
    [0x7B] + MemberJson(k1, Decimal(n) + ([0x2C, 0x20] + MemberJson(k2, TextOrNullJson(text) + [0x7D])))
  }

  /** The members of that dictionary when it is read back. */
  function PairMembers(k1: string, n: nat, k2: string, text: Option<Text>): seq<Member> {
    [Member(T(k1), DInt(n)), Member(T(k2), match text case None => DNull case Some(t) => DStr(Fuse(t)))]
  }

  /** Reading back the string, or null, that ends the object. */
  lemma ReadTextOrNull(text: Option<Text>, rest: Text)
    ensures ReadValue(TextOrNullJson(text) + rest) ==
      Got(match text case None => DNull case Some(t) => DStr(Fuse(t)), rest)
  {
    hide ReadMembers, ReadItems, ReadNumber, ReadString, Escape, Fuse;
    match text {
      case None =>
        assert StartsWith(T("null") + rest, T("null"));
        assert (T("null") + rest)[4..] == rest;
      case Some(t) =>
        var s := StringLiteral(t) + rest;
        assert s[1..] == Escape(t) + [0x22] + rest;
        ReadEscaped(t, rest);
    }
  }

  lemma ReadKey(key: string, rest: Text)
    requires PlainKey(key)
    ensures ReadString(T(key) + [0x22] + rest) == Got(T(key), rest)
    decreases |key|
  {
    var s := T(key) + [0x22] + rest;
    if key == "" {
      assert s[1..] == rest;
    } else {
      assert T(key) == [key[0] as int as CodePoint] + T(key[1..]);
      assert s[1..] == T(key[1..]) + [0x22] + rest;
      ReadKey(key[1..], rest);
    }
  }

  /** Reading one written member of an object, up to what follows its value. */
  lemma ReadMember(key: string, value: Text, doc: Doc, next: Text, members: seq<Member>)
    requires PlainKey(key)
    requires value != [] && !IsJsonSpace(value[0])
    requires next != [] && !IsJsonSpace(next[0])
    requires ReadValue(value + next) == Got(doc, next)
    ensures ReadMembers(MemberJson(key, value + next), members) ==
      if next[0] == 0x7D then Got(DDict(Put(members, T(key), doc)), next[1..])
      else if next[0] == 0x2C then ReadMembers(SkipSpace(next[1..]), Put(members, T(key), doc))
      else Fail
  {
    hide ReadValue, ReadString, Put, SkipSpace;
    var colon := [0x3A, 0x20] + (value + next);
    var s := MemberJson(key, value + next);
    assert s[1..] == T(key) + [0x22] + colon;
    ReadKey(key, colon);
    assert (value + next)[0] == value[0] && colon[1..][0] == 0x20;
    SkipNoSpace(colon);
    SkipNoSpace(next);
    SkipOneSpace(colon[1..], value + next);
  }

  /** A written member with another after it. */
  lemma ReadMemberThenMore(key: string, value: Text, doc: Doc, comma: Text, last: Text, members: seq<Member>)
    requires PlainKey(key) && value != [] && !IsJsonSpace(value[0])
    requires |comma| == 2 && comma[0] == 0x2C && comma[1] == 0x20 && last != [] && last[0] == 0x22
    requires ReadValue(value + (comma + last)) == Got(doc, comma + last)
    ensures ReadMembers(MemberJson(key, value + (comma + last)), members) == ReadMembers(last, Put(members, T(key), doc))
  {
    hide ReadValue, ReadMembers, ReadString, Put, MemberJson;
    var next := comma + last;
    ReadMember(key, value, doc, next, members);
    assert next[1..][0] == 0x20;
    SkipOneSpace(next[1..], last);
  }

  /** The last written member and the closing brace. */
  lemma ReadLastMember(key: string, value: Text, doc: Doc, close: Text, members: seq<Member>)
    requires PlainKey(key) && value != [] && !IsJsonSpace(value[0])
    requires |close| == 1 && close[0] == 0x7D
    requires ReadValue(value + close) == Got(doc, close)
    ensures ReadMembers(MemberJson(key, value + close), members) == Got(DDict(Put(members, T(key), doc)), [])
  {
    hide ReadValue, ReadMembers, ReadString, Put, MemberJson;
    ReadMember(key, value, doc, close, members);
    assert close[1..] == [];
  }

  /** Two written members. */
  lemma ReadTwoMembers(
    k1: string, v1: Text, d1: Doc, comma: Text, k2: string, v2: Text, d2: Doc, close: Text, members: seq<Member>)
    requires PlainKey(k1) && v1 != [] && !IsJsonSpace(v1[0])
    requires PlainKey(k2) && v2 != [] && !IsJsonSpace(v2[0])
    requires |comma| == 2 && comma[0] == 0x2C && comma[1] == 0x20 && |close| == 1 && close[0] == 0x7D
    requires ReadValue(v1 + (comma + MemberJson(k2, v2 + close))) == Got(d1, comma + MemberJson(k2, v2 + close))
    requires ReadValue(v2 + close) == Got(d2, close)
    ensures ReadMembers(MemberJson(k1, v1 + (comma + MemberJson(k2, v2 + close))), members) ==
      Got(DDict(Put(Put(members, T(k1), d1), T(k2), d2)), [])
  {
    hide ReadValue, ReadMembers, ReadString, Put;
    var last := MemberJson(k2, v2 + close);
    ReadMemberThenMore(k1, v1, d1, comma, last, members);
    ReadLastMember(k2, v2, d2, close, Put(members, T(k1), d1));
  }

  lemma PutTwo(first: Member, second: Member)
    requires first.key != second.key
    ensures Put(Put([], first.key, first.value), second.key, second.value) == [first, second]
  {
    assert [first][1..] == [];
  }

  /** An object whose first member's key starts right after the brace. */
  lemma ReadObject(s: Text)
    requires |s| >= 2 && s[0] == 0x7B && s[1] == 0x22
    ensures ReadValue(s) == ReadMembers(s[1..], [])
    ensures SkipSpace(s) == s
  {
    hide ReadMembers, ReadString, ReadItems, ReadNumber, ReadWord, StartsWith, SkipSpace;
    SkipNoSpace(s);
    SkipNoSpace(s[1..]);
  }

  lemma LoadsObject(members: Text, data: Doc, end: Text)
    requires members != [] && members[0] == 0x22 && end == []
    requires ReadMembers(members, []) == Got(data, end)
    ensures Loads([0x7B] + members) == Some(data)
  {
    hide ReadMembers, ReadValue;
    var s := [0x7B] + members;
    assert s[1..] == members;
    ReadObject(s);
    assert SkipSpace(end) == [];
  }

  /** The object reads back as its members, the text with its surrogate pairs fused. */
  lemma LoadsPair(k1: string, n: nat, k2: string, text: Option<Text>)
    requires PlainKey(k1) && PlainKey(k2) && T(k1) != T(k2)
    ensures Loads(PairJson(k1, n, k2, text)) == Some(DDict(PairMembers(k1, n, k2, text)))
  {
    LoadsWith(k1, k2, [0x2C, 0x20], [0x7D], n, text);
  }

  /** The same with the punctuation as variables. */
  lemma LoadsWith(k1: string, k2: string, comma: Text, close: Text, n: nat, text: Option<Text>)
    requires PlainKey(k1) && PlainKey(k2) && T(k1) != T(k2) && comma == [0x2C, 0x20] && close == [0x7D]
    ensures Loads([0x7B] + MemberJson(k1, Decimal(n) + (comma + MemberJson(k2, TextOrNullJson(text) + close)))) ==
      Some(DDict(PairMembers(k1, n, k2, text)))
  {
    hide ReadValue, ReadMembers, ReadString, Put, Loads, Fuse, Decimal, Escape, T, PlainKey;
    var next := comma + MemberJson(k2, TextOrNullJson(text) + close);
    var first, second := PairMembers(k1, n, k2, text)[0], PairMembers(k1, n, k2, text)[1];
    ReadDecimal(n, next);
    assert IsDigit(Decimal(n)[0]);
    ReadTextOrNull(text, close);
    TextOrNullStarts(text);
    ReadTwoMembers(k1, Decimal(n), first.value, comma, k2, TextOrNullJson(text), second.value, close, []);
    PutTwo(first, second);
    LoadsObject(MemberJson(k1, Decimal(n) + next), DDict([first, second]), []);
  }

  lemma TextOrNullStarts(text: Option<Text>)
    ensures TextOrNullJson(text) != [] && !IsJsonSpace(TextOrNullJson(text)[0])
  {
    hide Escape;
  }
}
