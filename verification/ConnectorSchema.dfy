/**
  The local schema check of connector payloads: a loop that accumulates errors,
  against the predicate of the payloads that have none.
 */
module ConnectorSchema {
  import opened PyText
  import opened JsonValue
  import opened ConnectorTransform
  import JsonPointer
  import Prelude

  // -------------------------------------------------------------------------- issues

  datatype Reason =
    | Required | InvalidType | InvalidFormat | InvalidEnum | InvalidArguments | UnknownField | UnregisteredService

  /** What an error points at. */
  datatype Where = AtPayload | AtField(field: string) | AtEntry(index: nat) | AtEntryField(index: nat, field: string)

  datatype Issue = Issue(where: Where, reason: Reason)

  /** 0 for the payload and its fields, i + 1 for entry i of the property map. */
  function Rank(x: Issue): nat {
    match x.where
    case AtEntry(i) => i + 1
    case AtEntryField(i, _) => i + 1
    case _ => 0
  }

  ghost predicate InOrder(errors: seq<Issue>) {
    forall i, j :: 0 <= i < j < |errors| ==> Rank(errors[i]) <= Rank(errors[j])
  }

  /** The path of an error, `payload.propertyMapList[i].field`. */
  function PathOf(w: Where): seq<JsonPointer.Token> {
    [JsonPointer.Key(T("payload"))] +
    match w
    case AtPayload => []
    case AtField(field) => [JsonPointer.Key(T(field))]
    case AtEntry(i) => [JsonPointer.Key(T("propertyMapList")), JsonPointer.Index(i)]
    case AtEntryField(i, field) =>
      [JsonPointer.Key(T("propertyMapList")), JsonPointer.Index(i), JsonPointer.Key(T(field))]
  }

  // ------------------------------------------------------------------ one map entry

  predicate IsEntryKey(key: string) {
    key in {
      "propertyName", "propertyPath", "tagName", "tagId", "modbusDataAccess", "modbusDataAddress", "modbusDataType",
      "modbusRegisterType", "modbusDataLen", "modbusUnitId", "modbusConvertToFloat", "modbusDivisor",
      "modbusDecimalDigits", "bitStartPosition", "scale"
    }
  }

  predicate IsAccess(s: string) {
    s in {"holdingregister", "inputregister", "coil", "discreteinput"}
  }

  predicate IsDataType(s: string) {
    s in {"int16SignedAB", "int16UnsignedAB", "int32SignedABCD", "int32UnsignedABCD", "float32ABCD", "bitBoolean"}
  }

  /** The data type that an entry names under either key; "" for none. */
  function TypeOf(e: Fields): string {
    if IsText(Field(e, "modbusDataType")) then Strip(e["modbusDataType"].s)
    else if IsText(Field(e, "modbusRegisterType")) then Strip(e["modbusRegisterType"].s)
    else ""
  }

  predicate TypesConflict(e: Fields) {
    && IsText(Field(e, "modbusDataType")) && IsText(Field(e, "modbusRegisterType"))
    && Strip(e["modbusDataType"].s) != Strip(e["modbusRegisterType"].s)
  }

  /** The access of an entry, in lower case; "" for none. */
  function AccessOf(e: Fields): string {
    if Field(e, "modbusDataAccess").Str? then Lower(Strip(e["modbusDataAccess"].s)) else ""
  }

  /** A bit of a coil needs its position. */
  predicate NeedsBit(e: Fields) {
    (AccessOf(e) == "coil" || AccessOf(e) == "discreteinput") && TypeOf(e) == "bitBoolean"
  }

  predicate HasTarget(e: Fields) {
    || IsText(Field(e, "propertyName")) || IsText(Field(e, "propertyPath")) || IsText(Field(e, "tagName"))
    || IsInt(Field(e, "tagId"))
  }

  /** The property map entries that are accepted. */
  predicate EntryOk(entry: Json) {
    && entry.Obj?
    && var e := entry.fields;
    && (forall key :: key in e ==> IsEntryKey(key))
    && IsText(Field(e, "modbusDataAccess")) && IsAccess(AccessOf(e))
    && IsNumber(Field(e, "modbusDataAddress"))
    && !TypesConflict(e)
    && (TypeOf(e) != "" ==> IsDataType(TypeOf(e)))
    && (NeedsBit(e) ==> IsNumber(Field(e, "bitStartPosition")))
    && HasTarget(e)
  }

  /** One of the words, in any case and with any space around it. */
  predicate Says(v: Json, words: set<string>) {
    v.Str? && Lower(Strip(v.s)) in words
  }

  /** The data type under either name is this one. */
  predicate IsTyped(e: Fields, data: string) {
    || (IsText(Field(e, "modbusDataType")) && Strip(Field(e, "modbusDataType").s) == data)
    || (!IsText(Field(e, "modbusDataType")) && IsText(Field(e, "modbusRegisterType")) && Strip(Field(e, "modbusRegisterType").s) == data)
  }

  /** The two names, if both are texts, name one type, and it is one of six. */
  ghost predicate TypeFits(e: Fields) {
    && (IsText(Field(e, "modbusDataType")) && IsText(Field(e, "modbusRegisterType")) ==>
          Strip(Field(e, "modbusDataType").s) == Strip(Field(e, "modbusRegisterType").s))
    && forall data :: IsTyped(e, data) ==>
         data in {"int16SignedAB", "int16UnsignedAB", "int32SignedABCD", "int32UnsignedABCD", "float32ABCD", "bitBoolean"}
  }

  /** An accepted entry, field by field. */
  lemma EntryReads(e: Fields)
    ensures EntryOk(Obj(e)) <==>
      && (forall key :: key in e ==> IsEntryKey(key))
      && Says(Field(e, "modbusDataAccess"), {"holdingregister", "inputregister", "coil", "discreteinput"})
      && IsNumber(Field(e, "modbusDataAddress"))
      && TypeFits(e)
      && (Says(Field(e, "modbusDataAccess"), {"coil", "discreteinput"}) && IsTyped(e, "bitBoolean") ==> IsNumber(Field(e, "bitStartPosition")))
      && (IsText(Field(e, "propertyName")) || IsText(Field(e, "propertyPath")) || IsText(Field(e, "tagName"))
          || IsInt(Field(e, "tagId")))
  {
    AccessReads(Field(e, "modbusDataAccess"));
    TypesRead(e);
    hide IsEntryKey, TypeOf, TypesConflict, TypeFits, IsDataType, IsTyped, Strip, Lower, IsNumber;
  }

  lemma AccessReads(access: Json)
    ensures IsText(access) && IsAccess(Lower(Strip(access.s))) <==> Says(access, {"holdingregister", "inputregister", "coil", "discreteinput"})
  {
    hide Strip;
    if access.Str? { assert |Lower(Strip(access.s))| == |Strip(access.s)|; }
  }

  lemma TypesRead(e: Fields)
    ensures !TypesConflict(e) && (TypeOf(e) != "" ==> IsDataType(TypeOf(e))) <==> TypeFits(e)
    ensures forall data :: data != "" ==> (TypeOf(e) == data <==> IsTyped(e, data))
  {
    hide IsDataType, Strip;
    assert forall data :: IsDataType(data) <==>
      data in {"int16SignedAB", "int16UnsignedAB", "int32SignedABCD", "int32UnsignedABCD", "float32ABCD", "bitBoolean"} by {
      DataTypesRead();
    }
    assert TypeOf(e) != "" ==> IsTyped(e, TypeOf(e));
    assert forall data :: IsTyped(e, data) ==> data == TypeOf(e) && data != "";
  }

  lemma DataTypesRead()
    ensures forall data :: IsDataType(data) <==>
      data in {"int16SignedAB", "int16UnsignedAB", "int32SignedABCD", "int32UnsignedABCD", "float32ABCD", "bitBoolean"}
  {
  }

  ghost predicate UnknownIssue(i: nat, e: Fields, x: Issue) {
    exists key :: key in e && !IsEntryKey(key) && x == Issue(AtEntryField(i, key), UnknownField)
  }

  ghost predicate AccessIssue(i: nat, e: Fields, x: Issue) {
    && x.where == AtEntryField(i, "modbusDataAccess")
    && if IsText(Field(e, "modbusDataAccess")) then x.reason == InvalidEnum && !IsAccess(AccessOf(e)) else x.reason == Required
  }

  ghost predicate AddressIssue(i: nat, e: Fields, x: Issue) {
    !IsNumber(Field(e, "modbusDataAddress")) && x == Issue(AtEntryField(i, "modbusDataAddress"), Required)
  }

  ghost predicate TypeIssue(i: nat, e: Fields, x: Issue) {
    || (TypesConflict(e) && x == Issue(AtEntry(i), InvalidArguments))
    || (TypeOf(e) != "" && !IsDataType(TypeOf(e)) && x == Issue(AtEntryField(i, "modbusDataType"), InvalidEnum))
  }

  ghost predicate BitIssue(i: nat, e: Fields, x: Issue) {
    NeedsBit(e) && !IsNumber(Field(e, "bitStartPosition")) && x == Issue(AtEntryField(i, "bitStartPosition"), Required)
  }

  ghost predicate TargetIssue(i: nat, e: Fields, x: Issue) {
    !HasTarget(e) && x == Issue(AtEntry(i), Required)
  }

  /** The errors of entry i. */
  ghost predicate EntryIssue(i: nat, entry: Json, x: Issue) {
    if entry.Obj? then
      var e := entry.fields;
      || UnknownIssue(i, e, x) || AccessIssue(i, e, x) || AddressIssue(i, e, x)
      || TypeIssue(i, e, x) || BitIssue(i, e, x) || TargetIssue(i, e, x)
    else x == Issue(AtEntry(i), InvalidType)
  }

  lemma EntryIssueRank(i: nat, entry: Json, x: Issue)
    requires EntryIssue(i, entry, x)
    ensures Rank(x) == i + 1
  {
    hide IsText, IsAccess, IsDataType, TypeOf, AccessOf, IsEntryKey, TypesConflict, NeedsBit, HasTarget;
  }

  /** An entry has no errors exactly when it is accepted. */
  lemma EntryOkExactly(i: nat, entry: Json)
    ensures (forall x :: !EntryIssue(i, entry, x)) <==> EntryOk(entry)
  {
    hide IsText, IsAccess, IsDataType, TypeOf, AccessOf, IsEntryKey, TypesConflict, NeedsBit, HasTarget, IsNumber, Field;
    if EntryOk(entry) {
    } else if !entry.Obj? {
      assert EntryIssue(i, entry, Issue(AtEntry(i), InvalidType));
    } else {
      var e := entry.fields;
      if key :| key in e && !IsEntryKey(key) {
        var x := Issue(AtEntryField(i, key), UnknownField);
        assert UnknownIssue(i, e, x) && EntryIssue(i, entry, x);
      } else {
        FieldIssue(i, e);
        var x :| AccessIssue(i, e, x) || AddressIssue(i, e, x) || TypeIssue(i, e, x) || BitIssue(i, e, x) || TargetIssue(i, e, x);
        assert EntryIssue(i, entry, x);
      }
    }
  }

  lemma FieldIssue(i: nat, e: Fields)
    requires !EntryOk(Obj(e)) && forall key :: key in e ==> IsEntryKey(key)
    ensures exists x ::
      AccessIssue(i, e, x) || AddressIssue(i, e, x) || TypeIssue(i, e, x) || BitIssue(i, e, x) || TargetIssue(i, e, x)
  {
    hide IsText, IsAccess, IsDataType, TypeOf, AccessOf, IsEntryKey, TypesConflict, NeedsBit, HasTarget, IsNumber, Field;
    assert AccessIssue(i, e, Issue(AtEntryField(i, "modbusDataAccess"), Required))
      || AccessIssue(i, e, Issue(AtEntryField(i, "modbusDataAccess"), InvalidEnum))
      || AddressIssue(i, e, Issue(AtEntryField(i, "modbusDataAddress"), Required))
      || TypeIssue(i, e, Issue(AtEntry(i), InvalidArguments))
      || TypeIssue(i, e, Issue(AtEntryField(i, "modbusDataType"), InvalidEnum))
      || BitIssue(i, e, Issue(AtEntryField(i, "bitStartPosition"), Required))
      || TargetIssue(i, e, Issue(AtEntry(i), Required));
  }

  // ------------------------------------------------------- the checks of one entry

  /** The unknown fields, in whatever order the dictionary has them. */
  method UnknownFields(i: nat, e: Fields) returns (errors: seq<Issue>)
    ensures forall x :: x in errors <==> UnknownIssue(i, e, x)
  {
    hide IsEntryKey;
    errors := [];
    var left := e.Keys;
    while left != {}
      invariant left <= e.Keys
      invariant forall x :: x in errors <==>
        exists key :: key in e && key !in left && !IsEntryKey(key) && x == Issue(AtEntryField(i, key), UnknownField)
      decreases |left|
    {
      var key :| key in left;
      left := left - {key};
      if IsEntryKey(key) {
        continue;
      }
      errors := errors + [Issue(AtEntryField(i, key), UnknownField)];
    }
  }

  method CheckAccess(i: nat, e: Fields) returns (errors: seq<Issue>)
    ensures forall x :: x in errors <==> AccessIssue(i, e, x)
  {
    var access := Field(e, "modbusDataAccess");
    if !IsText(access) {
      errors := [Issue(AtEntryField(i, "modbusDataAccess"), Required)];
    } else if !IsAccess(Lower(Strip(access.s))) {
      errors := [Issue(AtEntryField(i, "modbusDataAccess"), InvalidEnum)];
    } else {
      errors := [];
    }
  }

  method CheckAddress(i: nat, e: Fields) returns (errors: seq<Issue>)
    ensures forall x :: x in errors <==> AddressIssue(i, e, x)
  {
    errors := if IsNumber(Field(e, "modbusDataAddress")) then [] else [Issue(AtEntryField(i, "modbusDataAddress"), Required)];
  }

  lemma TextMeans(v: Json)
    ensures IsText(v) ==> v.Str? && Strip(v.s) != ""
  {
  }

  /** The errors about the data type, and the type itself. */
  method CheckType(i: nat, e: Fields) returns (errors: seq<Issue>, dataType: string)
    ensures forall x :: x in errors <==> TypeIssue(i, e, x)
    ensures dataType == TypeOf(e)
  {
    hide IsDataType, IsText, Strip;
    errors, dataType := [], "";
    var data, register := Field(e, "modbusDataType"), Field(e, "modbusRegisterType");
    TextMeans(data);
    TextMeans(register);
    if IsText(data) {
      dataType := Strip(data.s);
    }
    if IsText(register) {
      if dataType == "" {
        dataType := Strip(register.s);
      } else if Strip(register.s) != dataType {
        errors := errors + [Issue(AtEntry(i), InvalidArguments)];
      }
    }
    if dataType != "" && !IsDataType(dataType) {
      errors := errors + [Issue(AtEntryField(i, "modbusDataType"), InvalidEnum)];
    }
  }

  method CheckBit(i: nat, e: Fields, dataType: string) returns (errors: seq<Issue>)
    requires dataType == TypeOf(e)
    ensures forall x :: x in errors <==> BitIssue(i, e, x)
  {
    hide TypeOf;
    var access := Field(e, "modbusDataAccess");
    var normalized := if access.Str? then Lower(Strip(access.s)) else "";
    errors := [];
    if (normalized == "coil" || normalized == "discreteinput") && dataType == "bitBoolean"
       && !IsNumber(Field(e, "bitStartPosition")) {
      errors := [Issue(AtEntryField(i, "bitStartPosition"), Required)];
    }
  }

  method CheckTarget(i: nat, e: Fields) returns (errors: seq<Issue>)
    ensures forall x :: x in errors <==> TargetIssue(i, e, x)
  {
    hide IsText;
    var found := false;
    var names := ["propertyName", "propertyPath", "tagName"];
    for n := 0 to |names|
      invariant found <==> exists m :: 0 <= m < n && IsText(Field(e, names[m]))
    {
      found := found || IsText(Field(e, names[n]));
    }
    assert found <==> IsText(Field(e, names[0])) || IsText(Field(e, names[1])) || IsText(Field(e, names[2]));
    errors := if found || IsInt(Field(e, "tagId")) then [] else [Issue(AtEntry(i), Required)];
  }

  method CheckEntry(i: nat, entry: Json) returns (errors: seq<Issue>)
    ensures forall x :: x in errors <==> EntryIssue(i, entry, x)
  {
    if !entry.Obj? {
      return [Issue(AtEntry(i), InvalidType)];
    }
    hide UnknownIssue, AccessIssue, AddressIssue, TypeIssue, BitIssue, TargetIssue, TypeOf;
    var e := entry.fields;
    var unknown := UnknownFields(i, e);
    var access := CheckAccess(i, e);
    var address := CheckAddress(i, e);
    var types, dataType := CheckType(i, e);
    var bit := CheckBit(i, e, dataType);
    var target := CheckTarget(i, e);
    errors := unknown + access + address + types + bit + target;
  }

  // ------------------------------------------------------------------- the payload

  function RequiredKeys(a: Action): seq<string> {
    if IsOutputAction(a) then ["outputName", "serviceName", "tableName", "sourceFields", "settings"]
    else ["connectorName", "serviceName", "tableName", "modbusProtocol", "modbusServer", "modbusServerPort", "propertyMapList"]
  }

  /** A required field with no value, or a blank string. */
  predicate Missing(v: Json) {
    v.Null? || (v.Str? && !IsText(v))
  }

  predicate HasScheme(s: string) {
    exists i :: 0 <= i && i + 3 <= |s| && s[i] == ':' && s[i + 1] == '/' && s[i + 2] == '/'
  }

  /** `[^/:]+:\d+` on the whole text. */
  predicate HasPort(s: string) {
    exists i :: 0 < i < |s| - 1 && s[i] == ':' && IsHost(s[..i]) && AllDigits(s[i + 1..])
  }

  predicate IsHost(s: string) {
    forall k :: 0 <= k < |s| ==> s[k] != '/' && s[k] != ':'
  }

  predicate AllDigits(s: string) {
    forall k :: 0 <= k < |s| ==> '0' <= s[k] <= '9'
  }

  predicate BareHost(server: Json) {
    IsText(server) ==> !HasScheme(Strip(server.s)) && !HasPort(Strip(server.s))
  }

  /** An int (or a whole float, or true) from 1 to 65535. */
  predicate IsPort(v: Json) {
    IsInt(WholeToInt(v)) && 1 <= IntOf(WholeToInt(v)) <= 65535
  }

  /** A port is any number, whole and from 1 to 65535. */
  lemma PortReads(v: Json)
    ensures IsPort(v) <==> IsNumber(v) && IsWhole(NumberOf(v)) && 1.0 <= NumberOf(v) <= 65535.0
  {
  }

  predicate IsMapList(v: Json) {
    v.Arr? && v.items != []
  }

  function ServiceOf(p: Fields): string {
    if IsText(Field(p, "serviceName")) then Lower(Strip(p["serviceName"].s)) else ""
  }

  /** The service, if the list of registered services is known, is on it. */
  predicate Registered(a: Action, p: Fields, registry: set<string>) {
    Defines(a) && registry != {} ==> ServiceOf(p) in registry
  }

  predicate RequiredPresent(a: Action, p: Fields) {
    forall key :: key in RequiredKeys(a) ==> !Missing(Field(p, key))
  }

  predicate IsInputDefinition(a: Action) { a == CreateInput || a == AlterInput }

  predicate ModbusInputOk(p: Fields) {
    && IsText(Field(p, "modbusProtocol"))
    && BareHost(Field(p, "modbusServer"))
    && IsPort(Field(p, "modbusServerPort"))
    && IsMapList(Field(p, "propertyMapList"))
    && forall i :: 0 <= i < |p["propertyMapList"].items| ==> EntryOk(p["propertyMapList"].items[i])
  }

  predicate IsDeletion(a: Action) { a == DeleteInput || a == DeleteOutput || a == DeleteIntegrationTables }

  predicate HasIdentifier(a: Action, p: Fields) {
    match a
    case DeleteInput => IsText(Field(p, "inputName")) || IsText(Field(p, "connectorName"))
    case DeleteOutput => IsText(Field(p, "connectorName"))
    case _ =>
      var names := Field(p, "tableNames");
      names.Arr? && exists i :: 0 <= i < |names.items| && IsText(names.items[i])
  }

  /** The payloads that have no errors. */
  predicate Acceptable(a: Action, p: Fields, registry: set<string>) {
    p == map[] ||
    if IsDeletion(a) then HasIdentifier(a, p)
    else
      !IsText(Field(p, "serviceName")) || (
        && Registered(a, p, registry)
        && (ServiceOf(p) == "modbus" && Defines(a) ==> RequiredPresent(a, p))
        && (ServiceOf(p) == "modbus" && IsInputDefinition(a) ==> ModbusInputOk(p)))
  }

  /** A value, and no blank text. */
  predicate IsGiven(p: Fields, key: string) {
    var v := Field(p, key);
    v != Null && (v.Str? ==> IsText(v))
  }

  lemma RequiredReads(a: Action, p: Fields)
    ensures RequiredPresent(a, p) <==>
      if IsOutputAction(a) then
        && IsGiven(p, "outputName") && IsGiven(p, "serviceName") && IsGiven(p, "tableName")
        && IsGiven(p, "sourceFields") && IsGiven(p, "settings")
      else
        && IsGiven(p, "connectorName") && IsGiven(p, "serviceName") && IsGiven(p, "tableName") && IsGiven(p, "modbusProtocol")
        && IsGiven(p, "modbusServer") && IsGiven(p, "modbusServerPort") && IsGiven(p, "propertyMapList")
  {
    hide IsGiven, RequiredPresent, RequiredKeys, IsOutputAction;
    PresentExactly(a, p);
    RequiredKeysAre(a);
    if IsOutputAction(a) { FiveGiven(p, RequiredKeys(a)); } else { SevenGiven(p, RequiredKeys(a)); }
  }

  lemma PresentExactly(a: Action, p: Fields)
    ensures RequiredPresent(a, p) <==> forall i :: 0 <= i < |RequiredKeys(a)| ==> IsGiven(p, RequiredKeys(a)[i])
  {
    hide RequiredKeys, IsGiven, Missing;
    forall key ensures IsGiven(p, key) <==> !Missing(Field(p, key)) { GivenExactly(p, key); }
  }

  lemma RequiredKeysAre(a: Action)
    ensures var keys := RequiredKeys(a);
      if IsOutputAction(a) then
        && |keys| == 5 && keys[0] == "outputName" && keys[1] == "serviceName" && keys[2] == "tableName"
        && keys[3] == "sourceFields" && keys[4] == "settings"
      else
        && |keys| == 7 && keys[0] == "connectorName" && keys[1] == "serviceName" && keys[2] == "tableName"
        && keys[3] == "modbusProtocol" && keys[4] == "modbusServer" && keys[5] == "modbusServerPort" && keys[6] == "propertyMapList"
  {
  }

  lemma GivenExactly(p: Fields, key: string)
    ensures IsGiven(p, key) <==> !Missing(Field(p, key))
  {
  }

  lemma FiveGiven(p: Fields, keys: seq<string>)
    requires |keys| == 5
    ensures (forall i :: 0 <= i < |keys| ==> IsGiven(p, keys[i])) <==>
      IsGiven(p, keys[0]) && IsGiven(p, keys[1]) && IsGiven(p, keys[2]) && IsGiven(p, keys[3]) && IsGiven(p, keys[4])
  {
    hide IsGiven;
  }

  lemma SevenGiven(p: Fields, keys: seq<string>)
    requires |keys| == 7
    ensures (forall i :: 0 <= i < |keys| ==> IsGiven(p, keys[i])) <==>
      && IsGiven(p, keys[0]) && IsGiven(p, keys[1]) && IsGiven(p, keys[2]) && IsGiven(p, keys[3])
      && IsGiven(p, keys[4]) && IsGiven(p, keys[5]) && IsGiven(p, keys[6])
  {
    hide IsGiven;
  }

  /** The text is the scheme and the rest of an address, or a host and its port. */
  ghost predicate IsAddress(s: string) {
    || (exists scheme, rest :: IsJoined(s, scheme, "://", rest))
    || (exists host, port :: IsJoined(s, host, ":", port) && host != "" && port != "" && IsHost(host) && AllDigits(port))
  }

  predicate IsJoined(s: string, before: string, mark: string, after: string) {
    s == before + mark + after
  }

  lemma AddressExactly(s: string)
    ensures IsAddress(s) <==> HasScheme(s) || HasPort(s)
  {
    hide HasScheme, HasPort, IsJoined, IsHost, AllDigits;
    forall scheme, rest | IsJoined(s, scheme, "://", rest) ensures HasScheme(s) { JoinedHasScheme(s, scheme, rest); }
    forall host, port | IsJoined(s, host, ":", port) && host != "" && port != "" && IsHost(host) && AllDigits(port)
      ensures HasPort(s)
    {
      JoinedHasPort(s, host, port);
    }
    if HasScheme(s) { var scheme, rest := SplitAtScheme(s); }
    if HasPort(s) { var host, port := SplitAtPort(s); }
  }

  lemma JoinedHasScheme(s: string, scheme: string, rest: string)
    requires IsJoined(s, scheme, "://", rest)
    ensures HasScheme(s)
  {
    var i := |scheme|;
    assert s[i] == ':' && s[i + 1] == '/' && s[i + 2] == '/';
  }

  lemma JoinedHasPort(s: string, host: string, port: string)
    requires IsJoined(s, host, ":", port) && host != "" && port != "" && IsHost(host) && AllDigits(port)
    ensures HasPort(s)
  {
    hide IsHost, AllDigits;
    var i := |host|;
    assert s[i] == ':' && s[..i] == host && s[i + 1..] == port;
  }

  lemma SplitAtScheme(s: string) returns (scheme: string, rest: string)
    requires HasScheme(s)
    ensures IsJoined(s, scheme, "://", rest)
  {
    var i :| 0 <= i && i + 3 <= |s| && s[i] == ':' && s[i + 1] == '/' && s[i + 2] == '/';
    scheme, rest := s[..i], s[i + 3..];
    assert s[i..i + 3] == "://";
    assert s == s[..i] + s[i..i + 3] + s[i + 3..];
  }

  lemma SplitAtPort(s: string) returns (host: string, port: string)
    requires HasPort(s)
    ensures IsJoined(s, host, ":", port) && host != "" && port != "" && IsHost(host) && AllDigits(port)
  {
    hide IsHost, AllDigits;
    var i :| 0 < i < |s| - 1 && s[i] == ':' && IsHost(s[..i]) && AllDigits(s[i + 1..]);
    host, port := s[..i], s[i + 1..];
    assert s == s[..i] + [s[i]] + s[i + 1..];
  }

  /** A modbus server may be anything but an address with a scheme or a port. */
  lemma BareHostReads(server: Json)
    ensures BareHost(server) <==> !(IsText(server) && IsAddress(Strip(server.s)))
  {
    hide IsAddress, HasScheme, HasPort, Strip;
    if server.Str? { AddressExactly(Strip(server.s)); }
  }

  /** The payload names this service, in any case and with any space around it. */
  predicate IsFor(p: Fields, service: string) {
    IsText(Field(p, "serviceName")) && Lower(Strip(Field(p, "serviceName").s)) == service
  }

  /** An accepted payload, field by field. */
  lemma AcceptableReads(a: Action, p: Fields, registry: set<string>)
    ensures Acceptable(a, p, registry) <==>
      || p == map[]
      || (a == DeleteInput && (IsText(Field(p, "inputName")) || IsText(Field(p, "connectorName"))))
      || (a == DeleteOutput && IsText(Field(p, "connectorName")))
      || (a == DeleteIntegrationTables && Field(p, "tableNames").Arr?
            && exists i :: 0 <= i < |Field(p, "tableNames").items| && IsText(Field(p, "tableNames").items[i]))
      || (a !in {DeleteInput, DeleteOutput, DeleteIntegrationTables} && (
            || !IsText(Field(p, "serviceName"))
            || a !in {CreateInput, AlterInput, CreateOutput, AlterOutput}
            || (&& (registry == {} || exists service :: service in registry && IsFor(p, service))
                && (IsFor(p, "modbus") ==> RequiredPresent(a, p))
                && (IsFor(p, "modbus") && a in {CreateInput, AlterInput} ==>
                      && IsText(Field(p, "modbusProtocol")) && BareHost(Field(p, "modbusServer")) && IsPort(Field(p, "modbusServerPort"))
                      && Field(p, "propertyMapList").Arr? && Field(p, "propertyMapList").items != []
                      && forall i :: 0 <= i < |Field(p, "propertyMapList").items| ==> EntryOk(Field(p, "propertyMapList").items[i])))))
  {
    hide RequiredPresent, BareHost, IsPort, EntryOk, IsText, Strip, Lower;
    NullIsNoText();
    if IsText(Field(p, "serviceName")) { assert IsFor(p, ServiceOf(p)); }
  }

  // ----------------------------------------------------------- the errors of a payload

  ghost predicate RequiredIssue(a: Action, p: Fields, x: Issue) {
    exists key :: key in RequiredKeys(a) && Missing(Field(p, key)) && x == Issue(AtField(key), Required)
  }

  ghost predicate ServerIssue(p: Fields, x: Issue) {
    || (!IsText(Field(p, "modbusProtocol")) && x == Issue(AtField("modbusProtocol"), Required))
    || (!BareHost(Field(p, "modbusServer")) && x == Issue(AtField("modbusServer"), InvalidFormat))
    || (!IsPort(Field(p, "modbusServerPort")) && x == Issue(AtField("modbusServerPort"), Required))
  }

  /** The errors of the first n entries. */
  ghost predicate EntriesIssue(entries: seq<Json>, n: nat, x: Issue)
    requires n <= |entries|
  {
    exists i: nat :: i < n && EntryIssue(i, entries[i], x)
  }

  ghost predicate MapListIssue(p: Fields, x: Issue) {
    var list := Field(p, "propertyMapList");
    if IsMapList(list) then EntriesIssue(list.items, |list.items|, x)
    else x == Issue(AtField("propertyMapList"), InvalidType)
  }

  ghost predicate ServiceIssue(a: Action, p: Fields, registry: set<string>, x: Issue) {
    !Registered(a, p, registry) && x == Issue(AtField("serviceName"), UnregisteredService)
  }

  /** The errors that the check reports. */
  ghost predicate Reports(a: Action, p: Fields, registry: set<string>, x: Issue) {
    p != map[] &&
    if IsDeletion(a) then !HasIdentifier(a, p) && x == Issue(AtPayload, Required)
    else
      IsText(Field(p, "serviceName")) && (
        || ServiceIssue(a, p, registry, x)
        || (ServiceOf(p) == "modbus" && Defines(a) && RequiredIssue(a, p, x))
        || (ServiceOf(p) == "modbus" && IsInputDefinition(a) && (ServerIssue(p, x) || MapListIssue(p, x))))
  }

  lemma MapListOkExactly(p: Fields)
    requires IsMapList(Field(p, "propertyMapList"))
    ensures (forall x :: !MapListIssue(p, x)) <==>
      forall i :: 0 <= i < |p["propertyMapList"].items| ==> EntryOk(p["propertyMapList"].items[i])
  {
    hide EntryIssue, EntryOk;
    var entries := p["propertyMapList"].items;
    if i :| 0 <= i < |entries| && !EntryOk(entries[i]) {
      EntryOkExactly(i, entries[i]);
      var x :| EntryIssue(i, entries[i], x);
      assert MapListIssue(p, x);
    } else {
      forall x ensures !MapListIssue(p, x) {
        forall i: nat | i < |entries| ensures !EntryIssue(i, entries[i], x) { EntryOkExactly(i, entries[i]); }
      }
    }
  }

  lemma ModbusInputOkExactly(p: Fields)
    ensures (forall x :: !ServerIssue(p, x) && !MapListIssue(p, x)) <==> ModbusInputOk(p)
  {
    hide IsText, BareHost, IsPort, EntriesIssue, EntryOk;
    if IsMapList(Field(p, "propertyMapList")) {
      MapListOkExactly(p);
    } else {
      assert MapListIssue(p, Issue(AtField("propertyMapList"), InvalidType));
    }
    if !IsText(Field(p, "modbusProtocol")) { assert ServerIssue(p, Issue(AtField("modbusProtocol"), Required)); }
    if !BareHost(Field(p, "modbusServer")) { assert ServerIssue(p, Issue(AtField("modbusServer"), InvalidFormat)); }
    if !IsPort(Field(p, "modbusServerPort")) { assert ServerIssue(p, Issue(AtField("modbusServerPort"), Required)); }
  }

  lemma RequiredPresentExactly(a: Action, p: Fields)
    ensures (forall x :: !RequiredIssue(a, p, x)) <==> RequiredPresent(a, p)
  {
    hide RequiredKeys, Missing;
    if key :| key in RequiredKeys(a) && Missing(Field(p, key)) {
      assert RequiredIssue(a, p, Issue(AtField(key), Required));
    }
  }

  /** A payload has no errors exactly when it is acceptable. */
  lemma AcceptableExactly(a: Action, p: Fields, registry: set<string>)
    ensures (forall x :: !Reports(a, p, registry, x)) <==> Acceptable(a, p, registry)
  {
    hide RequiredIssue, RequiredPresent, ServerIssue, MapListIssue, ModbusInputOk, Registered, HasIdentifier, IsText, ServiceOf;
    RequiredPresentExactly(a, p);
    ModbusInputOkExactly(p);
    if !Acceptable(a, p, registry) {
      if IsDeletion(a) {
        assert Reports(a, p, registry, Issue(AtPayload, Required));
      } else if !Registered(a, p, registry) {
        assert Reports(a, p, registry, Issue(AtField("serviceName"), UnregisteredService));
      } else if Defines(a) && !RequiredPresent(a, p) {
        var x :| RequiredIssue(a, p, x);
        assert Reports(a, p, registry, x);
      } else {
        var x :| ServerIssue(p, x) || MapListIssue(p, x);
        assert Reports(a, p, registry, x);
      }
    }
  }

  // ------------------------------------------------------------- the check as a loop

  datatype Status = Unvalidated | Validated | Invalid

  datatype Validation = Validation(status: Status, errors: seq<Issue>)

  /** The payloads that a local profile covers. */
  predicate HasProfile(a: Action, p: Fields) {
    p != map[] && (IsDeletion(a) || ServiceOf(p) == "modbus")
  }

  predicate StatusFits(a: Action, p: Fields, v: Validation) {
    v.status == if v.errors != [] then Invalid else if HasProfile(a, p) then Validated else Unvalidated
  }

  method CheckRequired(a: Action, p: Fields) returns (errors: seq<Issue>)
    ensures forall x :: x in errors <==> RequiredIssue(a, p, x)
  {
    hide RequiredKeys, Missing;
    errors := [];
    var keys := RequiredKeys(a);
    for n := 0 to |keys|
      invariant forall x :: x in errors <==>
        exists m :: 0 <= m < n && Missing(Field(p, keys[m])) && x == Issue(AtField(keys[m]), Required)
    {
      if Missing(Field(p, keys[n])) {
        errors := errors + [Issue(AtField(keys[n]), Required)];
      }
    }
    forall x ensures x in errors <==> RequiredIssue(a, p, x) {
      if RequiredIssue(a, p, x) {
        var key :| key in keys && Missing(Field(p, key)) && x == Issue(AtField(key), Required);
        var m :| 0 <= m < |keys| && keys[m] == key;
      }
    }
  }

  method CheckServer(p: Fields) returns (errors: seq<Issue>)
    ensures forall x :: x in errors <==> ServerIssue(p, x)
  {
    hide IsText, HasScheme, HasPort, Lower, Strip;
    errors := [];
    if !IsText(Field(p, "modbusProtocol")) {
      errors := errors + [Issue(AtField("modbusProtocol"), Required)];
    }
    var server := Field(p, "modbusServer");
    if IsText(server) {
      assert server.Str? by { TextIsStr(server); }
      if HasScheme(Strip(server.s)) {
        errors := errors + [Issue(AtField("modbusServer"), InvalidFormat)];
      } else if HasPort(Strip(server.s)) {
        errors := errors + [Issue(AtField("modbusServer"), InvalidFormat)];
      }
    }
    var port := WholeToInt(Field(p, "modbusServerPort"));
    if !IsInt(port) || !(1 <= IntOf(port) <= 65535) {
      errors := errors + [Issue(AtField("modbusServerPort"), Required)];
    }
  }

  lemma InOrderAppend(errors: seq<Issue>, more: seq<Issue>, rank: nat)
    requires InOrder(errors) && forall x :: x in errors ==> Rank(x) <= rank
    requires forall x :: x in more ==> Rank(x) == rank
    ensures InOrder(errors + more) && forall x :: x in errors + more ==> Rank(x) <= rank
  {
    hide Rank;
    var all := errors + more;
    forall i, j | 0 <= i < j < |all| ensures Rank(all[i]) <= Rank(all[j]) {
      assert all[i] in errors || all[i] in more;
      assert all[j] in more || (j < |errors| && all[i] == errors[i] && all[j] == errors[j]);
    }
  }

  method CheckMapList(p: Fields) returns (errors: seq<Issue>)
    ensures forall x :: x in errors <==> MapListIssue(p, x)
    ensures InOrder(errors)
  {
    hide EntryIssue, Rank, InOrder, EntriesIssue;
    NoErrorsInOrder();
    var list := Field(p, "propertyMapList");
    if !IsMapList(list) {
      OneErrorInOrder(Issue(AtField("propertyMapList"), InvalidType));
      return [Issue(AtField("propertyMapList"), InvalidType)];
    }
    errors := [];
    NoEntriesNoIssues(list.items);
    for i := 0 to |list.items|
      invariant forall x :: x in errors <==> EntriesIssue(list.items, i, x)
      invariant InOrder(errors) && forall x :: x in errors ==> Rank(x) <= i
    {
      var more := CheckEntry(i, list.items[i]);
      forall x | x in more ensures Rank(x) == i + 1 { EntryIssueRank(i, list.items[i], x); }
      InOrderAppend(errors, more, i + 1);
      forall x ensures EntriesIssue(list.items, i + 1, x) <==> EntriesIssue(list.items, i, x) || EntryIssue(i, list.items[i], x) {
        OneMoreEntry(list.items, i, x);
      }
      errors := errors + more;
    }
  }

  lemma NoErrorsInOrder()
    ensures InOrder([])
  {
  }

  lemma OneErrorInOrder(x: Issue)
    ensures InOrder([x])
  {
  }

  lemma NoEntriesNoIssues(entries: seq<Json>)
    ensures forall x :: !EntriesIssue(entries, 0, x)
  {
  }

  lemma OneMoreEntry(entries: seq<Json>, i: nat, x: Issue)
    requires i < |entries|
    ensures EntriesIssue(entries, i + 1, x) <==> EntriesIssue(entries, i, x) || EntryIssue(i, entries[i], x)
  {
    hide EntryIssue;
  }

  /** An error about the payload or one of its fields comes before those of the entries. */
  lemma PayloadErrorsFirst(first: seq<Issue>, entries: seq<Issue>)
    requires InOrder(entries) && forall x :: x in first ==> Rank(x) == 0
    ensures InOrder(first + entries)
  {
    hide Rank;
    var all := first + entries;
    forall i, j | 0 <= i < j < |all| ensures Rank(all[i]) <= Rank(all[j]) {
      assert all[i] in first || (i >= |first| && all[i] == entries[i - |first|] && all[j] == entries[j - |first|]);
    }
  }

  /**
    `_validate_connector_schema`: the errors are those of the payload, and they come
    in the order of the entries they are about.
   */
  method ValidateConnectorSchema(a: Action, p: Fields, registry: set<string>) returns (v: Validation)
    ensures forall x :: x in v.errors <==> Reports(a, p, registry, x)
    ensures v.errors == [] <==> Acceptable(a, p, registry)
    ensures StatusFits(a, p, v) && InOrder(v.errors)
  {
    hide Acceptable, HasIdentifier, RequiredIssue, ServerIssue, MapListIssue, InOrder, IsText, Registered;
    AcceptableExactly(a, p, registry);
    NoErrorsInOrder();
    if p == map[] {
      v := Validation(Unvalidated, []);
    } else if IsDeletion(a) {
      if HasIdentifier(a, p) {
        v := Validation(Validated, []);
      } else {
        OneErrorInOrder(Issue(AtPayload, Required));
        v := Validation(Invalid, [Issue(AtPayload, Required)]);
      }
      assert v.errors != [] ==> v.errors[0] in v.errors;
    } else if !IsText(Field(p, "serviceName")) {
      v := Validation(Unvalidated, []);
    } else {
      v := ValidateService(a, p, registry);
    }
    assert v.errors != [] ==> v.errors[0] in v.errors;
  }

  method ValidateService(a: Action, p: Fields, registry: set<string>) returns (v: Validation)
    requires p != map[] && !IsDeletion(a) && IsText(Field(p, "serviceName"))
    ensures forall x :: x in v.errors <==> Reports(a, p, registry, x)
    ensures StatusFits(a, p, v) && InOrder(v.errors)
  {
    hide RequiredIssue, ServerIssue, MapListIssue, InOrder, IsText, Registered, ServiceOf;
    var errors := if Registered(a, p, registry) then [] else [Issue(AtField("serviceName"), UnregisteredService)];
    if ServiceOf(p) != "modbus" {
      if errors == [] { NoErrorsInOrder(); } else { OneErrorInOrder(errors[0]); }
      assert forall x :: x in errors <==> ServiceIssue(a, p, registry, x);
      return Validation(if errors == [] then Unvalidated else Invalid, errors);
    }
    if Defines(a) {
      var missing := CheckRequired(a, p);
      errors := errors + missing;
    }
    var entries: seq<Issue> := [];
    NoErrorsInOrder();
    if IsInputDefinition(a) {
      var server := CheckServer(p);
      errors := errors + server;
      entries := CheckMapList(p);
    }
    assert forall x :: x in errors ==> Rank(x) == 0 by { FieldErrorsRank(a, p, registry, errors); }
    PayloadErrorsFirst(errors, entries);
    errors := errors + entries;
    v := Validation(if errors == [] then Validated else Invalid, errors);
  }

  lemma FieldErrorsRank(a: Action, p: Fields, registry: set<string>, errors: seq<Issue>)
    requires forall x :: x in errors ==> ServiceIssue(a, p, registry, x) || RequiredIssue(a, p, x) || ServerIssue(p, x)
    ensures forall x :: x in errors ==> Rank(x) == 0
  {
    hide IsText, BareHost, IsPort, Registered, Missing, RequiredKeys;
  }

  // ------------------------------------------------------------ where errors point

  /** An error about an entry is about one that the list has. */
  lemma EntryErrorsInRange(a: Action, p: Fields, registry: set<string>, x: Issue)
    requires Reports(a, p, registry, x) && Rank(x) > 0
    ensures IsMapList(Field(p, "propertyMapList")) && Rank(x) <= |p["propertyMapList"].items|
  {
    hide IsText, BareHost, IsPort, Registered, Missing, RequiredKeys, EntryIssue, ServiceOf;
    var list := Field(p, "propertyMapList");
    if IsMapList(list) && EntriesIssue(list.items, |list.items|, x) {
      var i: nat :| i < |list.items| && EntryIssue(i, list.items[i], x);
      EntryIssueRank(i, list.items[i], x);
    }
  }

  /** A name without dots and brackets. */
  predicate IsPlainName(s: string) {
    s != "" && forall k :: 0 <= k < |s| ==> s[k] != '.' && s[k] != '[' && s[k] != ']'
  }

  /** The field that an error points at, if any, is such a name. */
  predicate HasPlainField(w: Where) {
    match w
    case AtField(field) => IsPlainName(field)
    case AtEntryField(_, field) => IsPlainName(field)
    case _ => true
  }

  lemma PlainNameIsPlainKey(s: string)
    ensures JsonPointer.PlainKey(JsonPointer.Key(T(s))) <==> IsPlainName(s)
  {
    var t := T(s);
    forall k | 0 <= k < |s|
      ensures JsonPointer.IsPunctuation(t[k]) <==> s[k] == '.' || s[k] == '[' || s[k] == ']'
    {
    }
    if JsonPointer.PlainKey(JsonPointer.Key(t)) {
      forall k | 0 <= k < |s| ensures !JsonPointer.IsPunctuation(t[k]) { assert t[k] in t; }
    }
  }

  lemma LiteralsArePlain()
    ensures IsPlainName("payload") && IsPlainName("propertyMapList")
  {
  }

  /** The pointer of an error leads a reader to what the error is about exactly when the field's name is plain. */
  lemma PointerLeadsBackExactly(w: Where)
    ensures JsonPointer.Recovered(PathOf(w)) == Prelude.Some(JsonPointer.TokenTexts(PathOf(w))) <==> HasPlainField(w)
  {
    hide JsonPointer.Recovered, JsonPointer.TokenTexts, JsonPointer.PlainKey, T, IsPlainName;
    JsonPointer.PointerRoundTripExactly(PathOf(w));
    LiteralsArePlain();
    PlainNameIsPlainKey("payload");
    PlainNameIsPlainKey("propertyMapList");
    var name := match w case AtField(f) => f case AtEntryField(_, f) => f case _ => "payload";
    PlainNameIsPlainKey(name);
    var path := PathOf(w);
    assert path[0] == JsonPointer.Key(T("payload"));
    assert forall i {:trigger JsonPointer.PlainKey(JsonPointer.Index(i))} :: JsonPointer.PlainKey(JsonPointer.Index(i)) by {
      forall i ensures JsonPointer.PlainKey(JsonPointer.Index(i)) { IndexIsPlain(i); }
    }
    if !HasPlainField(w) {
      assert JsonPointer.Key(T(name)) in path;
      assert JsonPointer.Key([]) != path[0];
    }
  }

  lemma IndexIsPlain(i: nat)
    ensures JsonPointer.PlainKey(JsonPointer.Index(i))
  {
  }

  lemma PayloadNamesArePlain()
    ensures IsPlainName("connectorName") && IsPlainName("outputName") && IsPlainName("serviceName")
    ensures IsPlainName("tableName") && IsPlainName("sourceFields") && IsPlainName("settings")
  {
  }

  lemma ModbusNamesArePlain()
    ensures IsPlainName("modbusProtocol") && IsPlainName("modbusServer") && IsPlainName("modbusServerPort")
    ensures IsPlainName("propertyMapList")
  {
  }

  lemma EntryNamesArePlain()
    ensures IsPlainName("modbusDataAccess") && IsPlainName("modbusDataAddress")
    ensures IsPlainName("modbusDataType") && IsPlainName("bitStartPosition")
  {
  }

  lemma RequiredNamesArePlain(a: Action, p: Fields, x: Issue)
    requires RequiredIssue(a, p, x)
    ensures HasPlainField(x.where)
  {
    hide IsPlainName, Missing, IsOutputAction;
    PayloadNamesArePlain();
    ModbusNamesArePlain();
  }

  lemma ServerNamesArePlain(p: Fields, x: Issue)
    requires ServerIssue(p, x)
    ensures HasPlainField(x.where)
  {
    hide IsPlainName, IsText, BareHost, IsPort;
    ModbusNamesArePlain();
  }

  lemma EntryNamePlain(i: nat, entry: Json, x: Issue)
    requires EntryIssue(i, entry, x) && x.reason != UnknownField
    ensures HasPlainField(x.where)
  {
    hide IsPlainName, IsText, IsNumber, TypeOf, IsDataType, IsAccess, AccessOf, NeedsBit, TypesConflict, HasTarget, IsEntryKey, Field;
    EntryNamesArePlain();
  }

  /** Only an unknown field can have a name that is not plain. */
  lemma KnownFieldsArePlain(a: Action, p: Fields, registry: set<string>, x: Issue)
    requires Reports(a, p, registry, x) && x.reason != UnknownField
    ensures HasPlainField(x.where)
  {
    hide IsPlainName, IsText, RequiredIssue, ServerIssue, MapListIssue, Registered, ServiceOf, HasIdentifier;
    PayloadNamesArePlain();
    if RequiredIssue(a, p, x) { RequiredNamesArePlain(a, p, x); }
    if ServerIssue(p, x) { ServerNamesArePlain(p, x); }
    if MapListIssue(p, x) { MapListNamesArePlain(p, x); }
  }

  lemma MapListNamesArePlain(p: Fields, x: Issue)
    requires MapListIssue(p, x) && x.reason != UnknownField
    ensures HasPlainField(x.where)
  {
    hide IsPlainName, EntryIssue;
    ModbusNamesArePlain();
    var list := Field(p, "propertyMapList");
    if IsMapList(list) {
      var i: nat :| i < |list.items| && EntryIssue(i, list.items[i], x);
      EntryNamePlain(i, list.items[i], x);
    }
  }
}
