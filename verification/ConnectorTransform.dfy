/** The last rewrite of a connector payload before it is sent, `transform_connector_request`. */
module ConnectorTransform {
  import opened Prelude
  import opened PyText
  import opened JsonValue

  datatype Action =
    | ListInputs | DescribeInputs
    | CreateInput | AlterInput | DeleteInput
    | CreateOutput | AlterOutput | DeleteOutput
    | DeleteIntegrationTables | OtherAction

  predicate IsInputAction(a: Action) { a == CreateInput || a == AlterInput || a == DeleteInput }
  predicate IsOutputAction(a: Action) { a == CreateOutput || a == AlterOutput || a == DeleteOutput }

  /** The actions that define a connector. */
  predicate Defines(a: Action) { a == CreateInput || a == AlterInput || a == CreateOutput || a == AlterOutput }

  /** The settings keys that are also kept at the top level. */
  predicate IsMirrorKey(key: string) {
    key in {"transformName", "dataCollectionIntervalMilliseconds", "disableTransformSteps", "enabled", "description"}
  }

  predicate IsSettingsKey(key: string) {
    IsMirrorKey(key) || key in {
      "modbusProtocol", "modbusServer", "modbusServerPort", "modbusDataAddressType", "modbusSerialPort",
      "modbusBaudRate", "modbusDataBits", "modbusParity", "modbusStopBits", "modbusTimeoutMs", "modbusRetryCount",
      "modbusByteOrder", "modbusWordOrder", "propertyMapList"
    }
  }

  predicate StaysAtTop(key: string) {
    !IsSettingsKey(key) || IsMirrorKey(key)
  }

  // ------------------------------------------------------------------ the rewrite

  /** A key under its new name, unless the new name is taken. */
  function Renamed(p: Fields, from: string, to: string): Fields {
    if to !in p && from in p then Without(p, from)[to := p[from]] else p
  }

  /** A single name as the list of names: a text alone in the list, nothing for a blank, a list as it is. */
  function NameList(p: Fields, from: string, to: string): Fields {
    if to in p || from !in p then p
    else
      var rest := Without(p, from);
      match p[from]
      case Str(s) => rest[to := Arr(if Strip(s) == "" then [] else [Str(Strip(s))])]
      case Arr(items) => rest[to := Arr(items)]
      case _ => rest
  }

  function WithFilters(p: Fields): Fields {
    NameList(
      Renamed(Renamed(p, "connectorNameLike", "inputNameLike"), "connectorNames", "inputNames"),
      "inputName", "inputNames")
  }

  /** The text under `from` moved to `to`, unless there is a text already; `from` is dropped in any case. */
  function NameMoved(p: Fields, from: string, to: string): Fields {
    var connector := Field(p, from);
    Without(if !IsText(Field(p, to)) && IsText(connector) then p[to := Str(Strip(connector.s))] else p, from)
  }

  function Named(a: Action, p: Fields): Fields {
    if IsInputAction(a) then NameMoved(p, "connectorName", "inputName")
    else if IsOutputAction(a) then NameMoved(p, "connectorName", "outputName")
    else p
  }

  predicate IsModbus(p: Fields) {
    var service := Field(p, "serviceName");
    service.Str? && Lower(Strip(service.s)) == "modbus"
  }

  /** The settings after nesting: the old ones, overridden by what is at the top level, and the default. */
  function NestedSettings(a: Action, p: Fields): Fields {
    var merged := FieldsOf(Field(p, "settings")) + (map k | k in p && IsSettingsKey(k) :: p[k]);
    if a == CreateInput && "modbusDataAddressType" !in merged then
      merged["modbusDataAddressType" := Str("zeroBased")]
    else merged
  }

  /** The top level after nesting. */
  function Nested(a: Action, p: Fields): Fields {
    (map k | k in p && StaysAtTop(k) :: p[k])["settings" := Obj(NestedSettings(a, p))]
  }

  function Rewrite(a: Action, p: Fields): Fields {
    if a == ListInputs || a == DescribeInputs then WithFilters(p)
    else if Defines(a) && IsModbus(p) then Nested(a, Named(a, p))
    else Named(a, p)
  }

  function Transform(a: Action, payload: Option<Fields>): Option<Fields> {
    match payload
    case None => None
    case Some(p) => Some(Rewrite(a, p))
  }

  /** The name keys do not touch the service. */
  lemma NamedKeeps(a: Action, p: Fields, key: string)
    requires key != "connectorName" && key != "inputName" && key != "outputName"
    ensures (key in Named(a, p) <==> key in p) && Field(Named(a, p), key) == Field(p, key)
  {
  }

  // -------------------------------------------------- the rewrite as the code does it

  /** With the keys of `left` still to visit, what is left at the top. */
  ghost predicate TopSoFar(p: Fields, left: set<string>, top: Fields) {
    && (forall k :: k in top <==> k in p && (k in left || StaysAtTop(k)))
    && (forall k :: k in top ==> top[k] == p[k])
  }

  /** And what the settings have become. */
  ghost predicate SettingsSoFar(p: Fields, existing: Fields, left: set<string>, settings: Fields) {
    && (forall k :: k in settings <==> k in existing || (k in p && k !in left && IsSettingsKey(k)))
    && (forall k :: k in settings ==>
          settings[k] == if k in p && k !in left && IsSettingsKey(k) then p[k] else existing[k])
  }

  lemma VisitTop(p: Fields, left: set<string>, key: string, top: Fields)
    requires key in left && left <= p.Keys && TopSoFar(p, left, top)
    ensures TopSoFar(p, left - {key}, if StaysAtTop(key) then top else Without(top, key))
    ensures key in top && top[key] == p[key]
  {
    hide StaysAtTop;
  }

  lemma VisitSettings(p: Fields, existing: Fields, left: set<string>, key: string, settings: Fields)
    requires key in left && left <= p.Keys && SettingsSoFar(p, existing, left, settings)
    ensures SettingsSoFar(p, existing, left - {key}, if IsSettingsKey(key) then settings[key := p[key]] else settings)
  {
    hide IsSettingsKey;
  }

  lemma StartMoving(p: Fields, existing: Fields)
    ensures TopSoFar(p, p.Keys, p) && SettingsSoFar(p, existing, p.Keys, existing)
  {
  }

  lemma DoneMoving(p: Fields, existing: Fields, top: Fields, settings: Fields)
    requires TopSoFar(p, {}, top) && SettingsSoFar(p, existing, {}, settings)
    ensures top == map k | k in p && StaysAtTop(k) :: p[k]
    ensures settings == existing + (map k | k in p && IsSettingsKey(k) :: p[k])
  {
    hide IsSettingsKey, StaysAtTop;
  }

  /** The loop over the keys, in whatever order the dictionary has them. */
  method MoveSettings(p: Fields, existing: Fields) returns (top: Fields, settings: Fields)
    ensures top == map k | k in p && StaysAtTop(k) :: p[k]
    ensures settings == existing + (map k | k in p && IsSettingsKey(k) :: p[k])
  {
    hide IsSettingsKey, IsMirrorKey, TopSoFar, SettingsSoFar;
    StartMoving(p, existing);
    top, settings := p, existing;
    var left := p.Keys;
    while left != {}
      invariant left <= p.Keys
      invariant TopSoFar(p, left, top) && SettingsSoFar(p, existing, left, settings)
      decreases |left|
    {
      var key :| key in left;
      VisitTop(p, left, key, top);
      VisitSettings(p, existing, left, key, settings);
      if IsSettingsKey(key) {
        settings := settings[key := top[key]];
        if !IsMirrorKey(key) {
          top := Without(top, key);
        }
      }
      left := left - {key};
    }
    DoneMoving(p, existing, top, settings);
  }

  method TransformConnectorRequest(a: Action, payload: Option<Fields>) returns (r: Option<Fields>)
    ensures r == Transform(a, payload)
  {
    hide NameMoved, Nested, IsModbus, Renamed, NameList;
    if payload.None? {
      return None;
    }
    var transformed := payload.value;
    if a == ListInputs || a == DescribeInputs {
      transformed := RenameKey(transformed, "connectorNameLike", "inputNameLike");
      transformed := RenameKey(transformed, "connectorNames", "inputNames");
      transformed := ListName(transformed, "inputName", "inputNames");
      return Some(transformed);
    }
    if IsInputAction(a) {
      transformed := MoveName(transformed, "connectorName", "inputName");
    }
    if IsOutputAction(a) {
      transformed := MoveName(transformed, "connectorName", "outputName");
    }
    NamedIsModbus(a, payload.value);
    if Defines(a) && IsModbus(transformed) {
      transformed := Nest(a, transformed);
    }
    r := Some(transformed);
  }

  method Nest(a: Action, p: Fields) returns (r: Fields)
    ensures r == Nested(a, p)
  {
    hide IsSettingsKey, StaysAtTop;
    var existing := Field(p, "settings");
    var top, settings := MoveSettings(p, if existing.Obj? then existing.fields else map[]);
    if a == CreateInput && "modbusDataAddressType" !in settings {
      settings := settings["modbusDataAddressType" := Str("zeroBased")];
    }
    r := top["settings" := Obj(settings)];
  }

  method MoveName(p: Fields, from: string, to: string) returns (r: Fields)
    ensures r == NameMoved(p, from, to)
  {
    hide IsText;
    r := p;
    if !IsText(Field(p, to)) {
      var connector := Field(p, from);
      if IsText(connector) {
        assert connector.Str? by { TextIsStr(connector); }
        r := r[to := Str(Strip(connector.s))];
      }
    }
    r := Without(r, from);
  }

  lemma TextIsStr(v: Json)
    requires IsText(v)
    ensures v.Str?
  {
  }

  method RenameKey(p: Fields, from: string, to: string) returns (r: Fields)
    ensures r == Renamed(p, from, to)
  {
    r := p;
    if to !in r && from in r {
      r := Without(r, from);
      r := r[to := p[from]];
    }
  }

  method ListName(p: Fields, from: string, to: string) returns (r: Fields)
    ensures r == NameList(p, from, to)
  {
    r := p;
    if to !in r && from in r {
      var name := r[from];
      r := Without(r, from);
      if name.Str? {
        r := r[to := Arr(if Strip(name.s) != "" then [Str(Strip(name.s))] else [])];
      } else if name.Arr? {
        r := r[to := name];
      }
    }
  }

  lemma NamedIsModbus(a: Action, p: Fields)
    ensures IsModbus(Named(a, p)) <==> IsModbus(p)
  {
    NamedKeeps(a, p, "serviceName");
  }

  // ------------------------------------------------------------------- idempotence

  lemma NameMovedTwice(p: Fields, from: string, to: string)
    requires from != to
    ensures NameMoved(NameMoved(p, from, to), from, to) == NameMoved(p, from, to)
  {
    hide IsText;
    assert !IsText(Null) by { NullIsNoText(); }
    var r := NameMoved(p, from, to);
    assert Without(r, from) == r;
  }

  lemma NullIsNoText()
    ensures !IsText(Null)
  {
  }

  lemma NamedTwice(a: Action, p: Fields)
    ensures Named(a, Named(a, p)) == Named(a, p)
  {
    hide NameMoved;
    NameMovedTwice(p, "connectorName", "inputName");
    NameMovedTwice(p, "connectorName", "outputName");
  }

  lemma FiltersTwice(p: Fields)
    ensures WithFilters(WithFilters(p)) == WithFilters(p)
  {
  }

  /** Nesting changes neither the names nor the service. */
  lemma NestedKeeps(a: Action, p: Fields, key: string)
    requires key == "connectorName" || key == "inputName" || key == "outputName" || key == "serviceName"
    ensures (key in Nested(a, p) <==> key in p) && Field(Nested(a, p), key) == Field(p, key)
  {
    assert !IsSettingsKey(key) && key != "settings";
    hide IsSettingsKey, NestedSettings;
  }

  /** The settings that the rewrite starts from are those of the nested payload. */
  lemma SettingsOfNested(a: Action, p: Fields)
    ensures Field(Nested(a, p), "settings") == Obj(NestedSettings(a, p))
  {
    hide NestedSettings, StaysAtTop;
  }

  /** What is at the top of a nested payload is in its settings already. */
  lemma NestedSettingsTwice(a: Action, p: Fields, n: Fields)
    requires n == Nested(a, p) && Field(n, "settings") == Obj(NestedSettings(a, p)) && !IsSettingsKey("settings")
    ensures NestedSettings(a, n) == NestedSettings(a, p)
  {
    hide IsSettingsKey, StaysAtTop;
    var nested := NestedSettings(a, p);
    forall k | k in n && IsSettingsKey(k) ensures k in nested && nested[k] == n[k] {
    }
    assert nested + (map k | k in n && IsSettingsKey(k) :: n[k]) == nested;
    assert a == CreateInput ==> "modbusDataAddressType" in nested;
  }

  lemma NestedTopTwice(n: Fields, settings: string, value: Json)
    requires settings in n && n[settings] == value && (forall k :: k in n && k != settings ==> StaysAtTop(k))
    ensures (map k | k in n && StaysAtTop(k) :: n[k])[settings := value] == n
  {
    hide StaysAtTop;
  }

  /** Nothing is left to nest. */
  lemma NestedTwice(a: Action, p: Fields)
    ensures Nested(a, Nested(a, p)) == Nested(a, p)
  {
    assert !IsSettingsKey("settings");
    hide IsSettingsKey, StaysAtTop, NestedSettings;
    var n := Nested(a, p);
    SettingsOfNested(a, p);
    NestedSettingsTwice(a, p, n);
    NestedTopTwice(n, "settings", Obj(NestedSettings(a, p)));
  }

  lemma NameMovedFixed(p: Fields, from: string, to: string)
    requires from != to && from !in p
    ensures NameMoved(p, from, to) == p
  {
    assert !IsText(Null) by { NullIsNoText(); }
    hide IsText;
    assert Without(p, from) == p;
  }

  lemma NamedOfNested(a: Action, p: Fields)
    ensures Named(a, Nested(a, Named(a, p))) == Nested(a, Named(a, p))
  {
    var q := Named(a, p);
    NestedKeeps(a, q, "connectorName");
    hide IsText, Nested, NameMoved;
    NameMovedMeans(p, "connectorName", "inputName");
    NameMovedMeans(p, "connectorName", "outputName");
    if IsInputAction(a) || IsOutputAction(a) {
      NameMovedFixed(Nested(a, q), "connectorName", "inputName");
      NameMovedFixed(Nested(a, q), "connectorName", "outputName");
    }
  }

  /** A second rewrite changes nothing, whatever the action and the payload. */
  lemma TransformIdempotent(a: Action, payload: Option<Fields>)
    ensures Transform(a, Transform(a, payload)) == Transform(a, payload)
  {
    if payload.Some? {
      var p := payload.value;
      if a == ListInputs || a == DescribeInputs {
        FiltersTwice(p);
      } else {
        hide Named, Nested, IsModbus, WithFilters;
        NamedTwice(a, p);
        NamedOfNested(a, p);
        NestedTwice(a, Named(a, p));
        NamedIsModbus(a, p);
        NamedIsModbus(a, Named(a, p));
        NestedIsModbus(a, Named(a, p));
      }
    }
  }

  lemma NestedIsModbus(a: Action, p: Fields)
    ensures IsModbus(Nested(a, p)) <==> IsModbus(p)
  {
    hide Nested;
    NestedKeeps(a, p, "serviceName");
  }

  // ------------------------------------------------------------------ conservation

  /** The settings of a payload. */
  function SettingsOf(p: Fields): Fields {
    FieldsOf(Field(p, "settings"))
  }

  /** A payload whose settings keys are to be nested. */
  predicate Nests(a: Action, p: Fields) {
    Defines(a) && IsModbus(p)
  }

  predicate IsIdentityKey(key: string) {
    key == "connectorName" || key == "inputName" || key == "outputName"
  }

  /**
    What a nested payload holds: every field that names no connector keeps its value
    at the top level or in the settings; the top level wins over the old settings;
    mirrored fields are in both places with one value; no other settings key is left
    at the top level; and the settings hold nothing else, but for the default that
    createInput adds.
   */
  lemma NestingConserves(a: Action, p: Fields, key: string)
    requires Nests(a, p) && key != "settings" && !IsIdentityKey(key)
    ensures var r := Rewrite(a, p);
      && (key in r <==> key in p && StaysAtTop(key))
      && (key in r ==> r[key] == p[key])
      && (key in SettingsOf(r) <==>
            (key in p && IsSettingsKey(key)) || key in SettingsOf(p) || (key == "modbusDataAddressType" && a == CreateInput))
      && (key in SettingsOf(r) ==> SettingsOf(r)[key] == SettingsValue(p, key))
  {
    hide IsSettingsKey, Named, IsModbus, IsMirrorKey, Nested;
    NamedKeeps(a, p, key);
    NamedKeeps(a, p, "settings");
    NestedAt(a, Named(a, p), key, "settings", "modbusDataAddressType");
  }

  /** The same by name: what moves into the settings, what is in both places, and what stays. */
  lemma NestingByName(a: Action, p: Fields, key: string)
    requires Nests(a, p) && key != "settings" && !IsIdentityKey(key) && key in p
    ensures var r := Rewrite(a, p);
      if key in {"modbusProtocol", "modbusServer", "modbusServerPort", "modbusDataAddressType", "modbusSerialPort",
                 "modbusBaudRate", "modbusDataBits", "modbusParity", "modbusStopBits", "modbusTimeoutMs", "modbusRetryCount",
                 "modbusByteOrder", "modbusWordOrder", "propertyMapList"}
      then key !in r && key in SettingsOf(r) && SettingsOf(r)[key] == p[key]
      else if key in {"transformName", "dataCollectionIntervalMilliseconds", "disableTransformSteps", "enabled", "description"}
      then key in r && r[key] == p[key] && key in SettingsOf(r) && SettingsOf(r)[key] == p[key]
      else key in r && r[key] == p[key] && (key in SettingsOf(r) ==> key in SettingsOf(p) && SettingsOf(r)[key] == SettingsOf(p)[key])
  {
    hide Rewrite, Nests;
    NestingConserves(a, p, key);
  }

  /** The value a key has in the settings: the one at the top level, else the old one, else the default. */
  function SettingsValue(p: Fields, key: string): Json {
    if key in p && IsSettingsKey(key) then p[key]
    else if key in SettingsOf(p) then SettingsOf(p)[key]
    else Str("zeroBased")
  }

  lemma NestedAt(a: Action, q: Fields, key: string, settings: string, addressType: string)
    requires settings == "settings" && addressType == "modbusDataAddressType" && key != settings
    ensures var r := Nested(a, q);
      && (key in r <==> key in q && StaysAtTop(key))
      && (key in r ==> r[key] == q[key])
      && (key in SettingsOf(r) <==>
            (key in q && IsSettingsKey(key)) || key in SettingsOf(q) || (key == addressType && a == CreateInput))
      && (key in SettingsOf(r) ==> SettingsOf(r)[key] == SettingsValue(q, key))
  {
    hide IsSettingsKey, StaysAtTop;
  }

  /** The names: the action's own key has its text, or else the text of `connectorName`, which is gone. */
  lemma NamesConserved(a: Action, p: Fields)
    requires IsInputAction(a) || IsOutputAction(a)
    ensures var r, to := Rewrite(a, p), if IsInputAction(a) then "inputName" else "outputName";
      && "connectorName" !in r
      && Field(r, to) ==
           if !IsText(Field(p, to)) && IsText(Field(p, "connectorName")) then Str(Strip(Field(p, "connectorName").s))
           else Field(p, to)
  {
    hide Nested, NameMoved, IsText;
    var q := Named(a, p);
    NestedKeeps(a, q, "connectorName");
    NestedKeeps(a, q, "inputName");
    NestedKeeps(a, q, "outputName");
    NameMovedMeans(p, "connectorName", "inputName");
    NameMovedMeans(p, "connectorName", "outputName");
  }

  /** Where nothing is nested, every field but the two names keeps its value and nothing is added. */
  lemma UnnestedConserves(a: Action, p: Fields, key: string)
    requires !Nests(a, p) && a != ListInputs && a != DescribeInputs
    ensures !IsInputAction(a) && !IsOutputAction(a) ==> Rewrite(a, p) == p
    ensures key != "connectorName" && key != (if IsInputAction(a) then "inputName" else "outputName") ==>
      (key in Rewrite(a, p) <==> key in p) && Field(Rewrite(a, p), key) == Field(p, key)
  {
    hide IsModbus, IsText, Strip;
  }

  /** The name key of the other kind of connector is a field like any other. */
  lemma OtherNameKept(a: Action, p: Fields)
    requires IsInputAction(a) || IsOutputAction(a)
    ensures var r, other := Rewrite(a, p), if IsInputAction(a) then "outputName" else "inputName";
      (other in r <==> other in p) && Field(r, other) == Field(p, other)
  {
    hide IsModbus, Nested, IsText, Strip;
    NestedKeeps(a, Named(a, p), if IsInputAction(a) then "outputName" else "inputName");
  }

  lemma NameMovedMeans(p: Fields, from: string, to: string)
    requires from != to
    ensures var r := NameMoved(p, from, to);
      && from !in r
      && Field(r, to) ==
           if !IsText(Field(p, to)) && IsText(Field(p, from)) then Str(Strip(Field(p, from).s)) else Field(p, to)
  {
    hide IsText;
    assert IsText(Field(p, from)) ==> Field(p, from).Str? by {
      if IsText(Field(p, from)) { TextIsStr(Field(p, from)); }
    }
  }

  /** The value of a field is still to be found in the rewritten payload. */
  predicate Survives(p: Fields, r: Fields, key: string)
    requires key in p
  {
    || (key in r && r[key] == p[key])
    || (key in SettingsOf(r) && SettingsOf(r)[key] == p[key])
    || (key == "settings" && p[key].Obj? && "settings" in r && r[key].Obj? &&
          forall k :: k in p[key].fields ==>
            k in r[key].fields && (r[key].fields[k] == p[key].fields[k] || (k in p && IsSettingsKey(k))))
  }

  /** Every field but the names survives nesting exactly when the old settings, if any, are an object. */
  lemma NothingLostExactly(a: Action, p: Fields)
    requires Nests(a, p)
    ensures (forall key :: key in p && !IsIdentityKey(key) ==> Survives(p, Rewrite(a, p), key)) <==>
      ("settings" in p ==> p["settings"].Obj?)
  {
    hide Survives, Rewrite, Nests;
    forall key | !IsIdentityKey(key) && key != "settings" ensures key in p ==> Survives(p, Rewrite(a, p), key) {
      FieldSurvives(a, p, key);
    }
    if "settings" in p {
      if p["settings"].Obj? {
        OldSettingsSurvive(a, p);
      } else {
        OtherSettingsAreLost(a, p);
        assert !IsIdentityKey("settings");
      }
    }
  }

  lemma FieldSurvives(a: Action, p: Fields, key: string)
    requires Nests(a, p) && !IsIdentityKey(key) && key != "settings"
    ensures key in p ==> Survives(p, Rewrite(a, p), key)
  {
    hide Rewrite, IsSettingsKey, IsMirrorKey;
    NestingConserves(a, p, key);
  }

  lemma OtherSettingsAreLost(a: Action, p: Fields)
    requires Nests(a, p) && "settings" in p && !p["settings"].Obj?
    ensures !Survives(p, Rewrite(a, p), "settings")
  {
    hide Rewrite;
    SettingsDiscarded(a, p);
  }

  lemma OldSettingsSurvive(a: Action, p: Fields)
    requires Nests(a, p) && "settings" in p && p["settings"].Obj?
    ensures Survives(p, Rewrite(a, p), "settings")
  {
    hide IsSettingsKey, Named, IsModbus;
    NamedKeeps(a, p, "settings");
    var q := Named(a, p);
    forall k | k in p["settings"].fields
      ensures k in NestedSettings(a, q) && (NestedSettings(a, q)[k] == p["settings"].fields[k] || (k in p && IsSettingsKey(k)))
    {
      if IsSettingsKey(k) { NotIdentity(k); NamedKeeps(a, p, k); }
    }
  }

  lemma NotIdentity(key: string)
    requires IsSettingsKey(key)
    ensures !IsIdentityKey(key)
  {
  }

  /** Settings that are no object are replaced by the nested ones. */
  lemma SettingsDiscarded(a: Action, p: Fields)
    requires Nests(a, p) && "settings" in p && !p["settings"].Obj?
    ensures Field(Rewrite(a, p), "settings").Obj? && "settings" !in SettingsOf(Rewrite(a, p))
  {
    hide Named, IsModbus, Nested;
    NamedKeeps(a, p, "settings");
    NotASettingsKey(a, Named(a, p), "settings", "modbusDataAddressType");
  }

  lemma NotASettingsKey(a: Action, q: Fields, settings: string, addressType: string)
    requires settings == "settings" && addressType == "modbusDataAddressType" && !Field(q, settings).Obj?
    ensures Field(Nested(a, q), settings).Obj? && settings !in SettingsOf(Nested(a, q))
  {
    assert !IsSettingsKey(settings);
    hide IsSettingsKey, StaysAtTop;
  }

  lemma RenamedAt(p: Fields, from: string, to: string, key: string)
    requires from != to
    ensures var r := Renamed(p, from, to);
      && (key != from && key != to ==> (key in r <==> key in p) && (key in p ==> r[key] == p[key]))
      && (from in r <==> from in p && to in p) && (from in r ==> r[from] == p[from])
      && (to in r <==> from in p || to in p) && (to in r ==> r[to] == if to in p then p[to] else p[from])
  {
  }

  /** A name as a list of names, if it is one. */
  function AsNames(name: Json): Option<Json> {
    match name
    case Str(s) => Some(Arr(if Strip(s) == "" then [] else [Str(Strip(s))]))
    case Arr(items) => Some(Arr(items))
    case _ => None
  }

  lemma NameListAt(p: Fields, from: string, to: string, key: string)
    requires from != to
    ensures var r := NameList(p, from, to);
      && (key != from && key != to ==> (key in r <==> key in p) && (key in p ==> r[key] == p[key]))
      && (from in r <==> from in p && to in p) && (from in r ==> r[from] == p[from])
      && (to in r <==> to in p || (from in p && AsNames(p[from]).Some?))
      && (to in r ==> r[to] == if to in p then p[to] else AsNames(p[from]).value)
  {
  }

  /** Where a filter of the listing actions has gone. */
  function FilterHome(p: Fields, key: string): string {
    if key == "connectorNameLike" && "inputNameLike" !in p then "inputNameLike"
    else if key == "connectorNames" && "inputNames" !in p then "inputNames"
    else if key == "inputName" && "inputNames" !in p && "connectorNames" !in p then "inputNames"
    else key
  }

  /** The value a filter has there; None when it is dropped. */
  function FilterValue(p: Fields, key: string): Option<Json>
    requires key in p
  {
    if key == "inputName" && FilterHome(p, key) == "inputNames" then AsNames(p[key]) else Some(p[key])
  }

  /** The listing actions add nothing: what is there was there, under this name or its old one. */
  lemma FiltersAddNothing(a: Action, p: Fields, key: string)
    requires (a == ListInputs || a == DescribeInputs) && key in Rewrite(a, p)
    ensures key in p
      || (key == "inputNameLike" && "connectorNameLike" in p)
      || (key == "inputNames" && ("connectorNames" in p || "inputName" in p))
  {
    hide Strip;
  }

  /**
    The listing actions keep every field, under its new name or its own, except an
    `inputName` that is neither a string nor a list when no other names are given:
    that one is dropped, and the listing is unfiltered.
   */
  lemma FilterKeptExactly(a: Action, p: Fields, key: string)
    requires (a == ListInputs || a == DescribeInputs) && key in p
    ensures var r, home := Rewrite(a, p), FilterHome(p, key);
      if FilterValue(p, key).Some? then home in r && r[home] == FilterValue(p, key).value
      else home !in r && key !in r
  {
    hide Renamed, NameList, AsNames;
    var p1 := Renamed(p, "connectorNameLike", "inputNameLike");
    var p2 := Renamed(p1, "connectorNames", "inputNames");
    RenamedAt(p, "connectorNameLike", "inputNameLike", key);
    RenamedAt(p, "connectorNameLike", "inputNameLike", "connectorNames");
    RenamedAt(p, "connectorNameLike", "inputNameLike", "inputNames");
    RenamedAt(p, "connectorNameLike", "inputNameLike", "inputName");
    RenamedAt(p1, "connectorNames", "inputNames", key);
    RenamedAt(p1, "connectorNames", "inputNames", "inputName");
    RenamedAt(p1, "connectorNames", "inputNames", "inputNameLike");
    RenamedAt(p1, "connectorNames", "inputNames", "connectorNameLike");
    NameListAt(p2, "inputName", "inputNames", key);
    NameListAt(p2, "inputName", "inputNames", "inputNameLike");
    NameListAt(p2, "inputName", "inputNames", "connectorNameLike");
    NameListAt(p2, "inputName", "inputNames", "connectorNames");
  }
}
