/** How one entry of a modbus property map is normalized, and what that leaves as it was. */
module ConnectorEntry {
  import opened PyText
  import opened JsonValue
  import opened ConnectorTransform
  import opened ConnectorSchema

  // --------------------------------------------------------------------- the steps

  /** The data type, stripped, under both of its names; a type that is there is not overwritten. */
  function MirrorTypes(e: Fields, data: string, register: string): Fields {
    if IsText(Field(e, data)) then
      var named := e[data := Str(Strip(e[data].s))];
      if register in named then named else named[register := named[data]]
    else if IsText(Field(e, register)) then
      var name := Str(Strip(e[register].s));
      e[register := name][data := name]
    else e
  }

  /** The name as the path, if there is no path. */
  function DefaultPath(e: Fields, name: string, path: string): Fields {
    if IsText(Field(e, name)) && path !in e then e[path := Str(Strip(e[name].s))] else e
  }

  /** The unit of the payload, if it has one and the entry has none. */
  function DefaultUnit(e: Fields, key: string, unit: Json): Fields {
    if unit != Null && key !in e then e[key := unit] else e
  }

  /** The whole number n > 1 such that `scale` is 1 / n; 0 if there is none. */
  function DivisorOf(scale: Json): int {
    if IsNumber(scale) && NumberOf(scale) != 0.0 && NumberOf(scale) != 1.0
       && IsWhole(1.0 / NumberOf(scale)) && 1.0 / NumberOf(scale) > 0.0 then (1.0 / NumberOf(scale)).Floor
    else 0
  }

  /** A scale of 1 / n as a division by n, unless a conversion or a divisor is given. */
  function ScaleToDivisor(e: Fields, scale: string, convert: string, divisor: string): Fields {
    if DivisorOf(Field(e, scale)) != 0 && convert !in e && divisor !in e then
      e[convert := Str("divideByInteger")][divisor := Int(DivisorOf(Field(e, scale)))]
    else e
  }

  /** A whole float divisor as an int; a divisor above 1 without a conversion divides by an integer. */
  function ConvertDivisor(e: Fields, convert: string, divisor: string): Fields {
    var d := WholeToInt(Field(e, divisor));
    var whole := if divisor in e then e[divisor := d] else e;
    if IsInt(d) && IntOf(d) > 1 && convert !in whole then whole[convert := Str("divideByInteger")] else whole
  }

  /** The steps after the types, which leave those alone. */
  function Rest(typed: Fields, unit: Json): Fields {
    var placed := DefaultPath(typed, "propertyName", "propertyPath");
    var addressed := DefaultUnit(placed, "modbusUnitId", unit);
    var scaled := ScaleToDivisor(addressed, "scale", "modbusConvertToFloat", "modbusDivisor");
    ConvertDivisor(scaled, "modbusConvertToFloat", "modbusDivisor")
  }

  function Normalized(e: Fields, unit: Json): Fields {
    Rest(MirrorTypes(e, "modbusDataType", "modbusRegisterType"), unit)
  }

  /** The same steps as assignments to a copied dictionary. */
  method NormalizeEntry(e: Fields, unit: Json) returns (r: Fields)
    ensures r == Normalized(e, unit)
  {
    r := NormalizeTypes(e, "modbusDataType", "modbusRegisterType");
    hide MirrorTypes, IsText, Strip, DivisorOf;
    var name := Field(r, "propertyName");
    if IsText(name) && "propertyPath" !in r {
      assert name.Str? by { TextIsStr(name); }
      r := r["propertyPath" := Str(Strip(name.s))];
    }
    if unit != Null && "modbusUnitId" !in r {
      r := r["modbusUnitId" := unit];
    }
    r := NormalizeScale(r, "scale", "modbusConvertToFloat", "modbusDivisor");
    r := NormalizeDivisor(r, "modbusConvertToFloat", "modbusDivisor");
  }

  method NormalizeTypes(e: Fields, data: string, register: string) returns (r: Fields)
    ensures r == MirrorTypes(e, data, register)
  {
    hide Strip;
    r := e;
    var dataType, registerType := Field(e, data), Field(e, register);
    if IsText(dataType) {
      r := r[data := Str(Strip(dataType.s))];
      if register !in r {
        r := r[register := Str(Strip(dataType.s))];
      }
    } else if IsText(registerType) {
      r := r[register := Str(Strip(registerType.s))];
      r := r[data := Str(Strip(registerType.s))];
    }
  }

  method NormalizeScale(e: Fields, scale: string, convert: string, divisor: string) returns (r: Fields)
    requires convert != divisor
    ensures r == ScaleToDivisor(e, scale, convert, divisor)
  {
    r := e;
    var s := Field(e, scale);
    if IsNumber(s) && NumberOf(s) != 0.0 && NumberOf(s) != 1.0 && convert !in e && divisor !in e {
      var inverse := 1.0 / NumberOf(s);
      if IsWhole(inverse) && inverse > 0.0 {
        assert inverse.Floor as real == inverse;
        r := r[convert := Str("divideByInteger")];
        r := r[divisor := Int(inverse.Floor)];
      }
    }
  }

  method NormalizeDivisor(e: Fields, convert: string, divisor: string) returns (r: Fields)
    requires convert != divisor
    ensures r == ConvertDivisor(e, convert, divisor)
  {
    r := e;
    var d := Field(e, divisor);
    if d.Float? && IsWhole(d.x) {
      d := Int(d.x.Floor);
      r := r[divisor := d];
    }
    if IsInt(d) && IntOf(d) > 1 && convert !in r {
      r := r[convert := Str("divideByInteger")];
    }
    assert divisor in e && !(Field(e, divisor).Float? && IsWhole(Field(e, divisor).x)) ==> e[divisor := e[divisor]] == e;
  }

  // --------------------------------------------------------------- the scale rule

  lemma InverseOfInverse(x: real, n: int)
    requires x != 0.0 && n >= 1
    ensures 1.0 / x == n as real <==> x == 1.0 / n as real
  {
    assert x * (1.0 / x) == 1.0;
  }

  lemma InverseAboveOne(n: int)
    requires n >= 2
    ensures 0.0 < 1.0 / n as real < 1.0
  {
    assert (1.0 / n as real) * n as real == 1.0;
  }

  /** A divisor comes from a scale exactly when the scale is 1 / n for a whole n above 1, and is then n. */
  lemma DivisorExactly(scale: Json, n: int)
    requires n >= 2
    ensures DivisorOf(scale) == n <==> IsNumber(scale) && NumberOf(scale) == 1.0 / n as real
  {
    InverseAboveOne(n);
    if IsNumber(scale) && NumberOf(scale) != 0.0 {
      InverseOfInverse(NumberOf(scale), n);
    }
  }

  lemma NoOtherDivisor(scale: Json)
    ensures DivisorOf(scale) == 0 || DivisorOf(scale) >= 2
  {
    var d := DivisorOf(scale);
    if d != 0 {
      assert d as real == 1.0 / NumberOf(scale) > 0.0;
      if d == 1 {
        InverseOfInverse(NumberOf(scale), 1);
      }
    }
  }

  // ------------------------------------------------------------ what a step touches

  /** The field is the same in both. */
  predicate Same(e: Fields, r: Fields, key: string) {
    (key in e <==> key in r) && Field(e, key) == Field(r, key)
  }

  lemma MirrorTypesKeeps(e: Fields, data: string, register: string, key: string)
    requires key != data && key != register
    ensures Same(e, MirrorTypes(e, data, register), key)
  {
    hide IsText, Strip;
  }

  lemma DefaultPathKeeps(e: Fields, name: string, path: string, key: string)
    requires key != path || key in e
    ensures Same(e, DefaultPath(e, name, path), key)
  {
    hide IsText, Strip;
  }

  lemma DefaultUnitKeeps(e: Fields, unitKey: string, unit: Json, key: string)
    requires key != unitKey || key in e
    ensures Same(e, DefaultUnit(e, unitKey, unit), key)
  {
  }

  lemma ScaleKeeps(e: Fields, scale: string, convert: string, divisor: string, key: string)
    requires (key != convert && key != divisor) || key in e
    ensures Same(e, ScaleToDivisor(e, scale, convert, divisor), key)
  {
    hide DivisorOf;
  }

  lemma DivisorKeeps(e: Fields, convert: string, divisor: string, key: string)
    requires key != divisor && (key != convert || key in e)
    ensures Same(e, ConvertDivisor(e, convert, divisor), key)
  {
    hide WholeToInt;
  }

  lemma RestKeeps(typed: Fields, unit: Json, key: string)
    requires key != "modbusDivisor"
    requires key in typed || (key != "propertyPath" && key != "modbusUnitId" && key != "modbusConvertToFloat")
    ensures Same(typed, Rest(typed, unit), key)
  {
    hide DefaultPath, DefaultUnit, ScaleToDivisor, ConvertDivisor;
    var placed := DefaultPath(typed, "propertyName", "propertyPath");
    var addressed := DefaultUnit(placed, "modbusUnitId", unit);
    var scaled := ScaleToDivisor(addressed, "scale", "modbusConvertToFloat", "modbusDivisor");
    DefaultPathKeeps(typed, "propertyName", "propertyPath", key);
    DefaultUnitKeeps(placed, "modbusUnitId", unit, key);
    ScaleKeeps(addressed, "scale", "modbusConvertToFloat", "modbusDivisor", key);
    DivisorKeeps(scaled, "modbusConvertToFloat", "modbusDivisor", key);
  }

  /** A field with no default and no second name is kept; a field with a default is kept if it is there. */
  lemma NormalizedKeeps(e: Fields, unit: Json, key: string)
    requires key != "modbusDataType" && key != "modbusRegisterType" && key != "modbusDivisor"
    requires key in e || (key != "propertyPath" && key != "modbusUnitId" && key != "modbusConvertToFloat")
    ensures Same(e, Normalized(e, unit), key)
  {
    hide MirrorTypes, Rest;
    MirrorTypesKeeps(e, "modbusDataType", "modbusRegisterType", key);
    RestKeeps(MirrorTypes(e, "modbusDataType", "modbusRegisterType"), unit, key);
  }

  // ------------------------------------------------------------------- fixed point

  /** The text of a value is stripped already. */
  predicate IsStripped(v: Json) {
    IsText(v) ==> v == Str(Strip(v.s))
  }

  lemma StrippedText(s: string)
    requires Strip(s) != ""
    ensures IsText(Str(Strip(s))) && IsStripped(Str(Strip(s)))
  {
    StripTwice(s);
  }

  lemma MirrorTypesFixed(e: Fields, data: string, register: string)
    requires data != register
    requires if IsText(Field(e, data)) then IsStripped(Field(e, data)) && register in e else !IsText(Field(e, register))
    ensures MirrorTypes(e, data, register) == e
  {
    hide IsText, Strip;
  }

  lemma MirrorTypesMeans(e: Fields, data: string, register: string)
    requires data != register
    ensures var r := MirrorTypes(e, data, register);
      if IsText(Field(r, data)) then IsStripped(Field(r, data)) && register in r else !IsText(Field(r, register))
  {
    hide Strip;
    if IsText(Field(e, data)) {
      StrippedText(e[data].s);
    } else if IsText(Field(e, register)) {
      StrippedText(e[register].s);
    }
  }

  lemma DefaultPathFixed(e: Fields, name: string, path: string)
    requires IsText(Field(e, name)) ==> path in e
    ensures DefaultPath(e, name, path) == e
  {
  }

  lemma ScaleFixed(e: Fields, scale: string, convert: string, divisor: string)
    requires DivisorOf(Field(e, scale)) != 0 ==> convert in e || divisor in e
    ensures ScaleToDivisor(e, scale, convert, divisor) == e
  {
    hide DivisorOf;
  }

  /** A divisor that a second pass leaves alone. */
  predicate DivisorSettled(e: Fields, convert: string, divisor: string) {
    var d := Field(e, divisor);
    WholeToInt(d) == d && (IsInt(d) && IntOf(d) > 1 ==> convert in e)
  }

  lemma DivisorFixed(e: Fields, convert: string, divisor: string)
    requires DivisorSettled(e, convert, divisor)
    ensures ConvertDivisor(e, convert, divisor) == e
  {
    hide WholeToInt;
    assert divisor in e ==> e[divisor := e[divisor]] == e;
  }

  lemma DivisorMeans(e: Fields, convert: string, divisor: string)
    requires convert != divisor
    ensures DivisorSettled(ConvertDivisor(e, convert, divisor), convert, divisor)
    ensures divisor in ConvertDivisor(e, convert, divisor) <==> divisor in e
    ensures convert in e ==> convert in ConvertDivisor(e, convert, divisor)
  {
    WholeToIntTwice(Field(e, divisor));
    assert WholeToInt(Null) == Null;
    hide WholeToInt;
  }

  /** An entry that every step leaves as it is. */
  predicate Settled(e: Fields, unit: Json) {
    && (if IsText(Field(e, "modbusDataType")) then IsStripped(Field(e, "modbusDataType")) && "modbusRegisterType" in e
        else !IsText(Field(e, "modbusRegisterType")))
    && (IsText(Field(e, "propertyName")) ==> "propertyPath" in e)
    && (unit != Null ==> "modbusUnitId" in e)
    && (DivisorOf(Field(e, "scale")) != 0 ==> "modbusConvertToFloat" in e || "modbusDivisor" in e)
    && DivisorSettled(e, "modbusConvertToFloat", "modbusDivisor")
  }

  lemma SettledIsFixed(e: Fields, unit: Json)
    requires Settled(e, unit)
    ensures Normalized(e, unit) == e
  {
    hide MirrorTypes, DefaultPath, ScaleToDivisor, ConvertDivisor, IsText, DivisorOf, DivisorSettled;
    MirrorTypesFixed(e, "modbusDataType", "modbusRegisterType");
    DefaultPathFixed(e, "propertyName", "propertyPath");
    ScaleFixed(e, "scale", "modbusConvertToFloat", "modbusDivisor");
    DivisorFixed(e, "modbusConvertToFloat", "modbusDivisor");
  }

  /** After its step, the field of a default is there. */
  lemma DefaultsMean(e: Fields, name: string, path: string, unitKey: string, unit: Json)
    requires name != path
    ensures IsText(Field(DefaultPath(e, name, path), name)) ==> path in DefaultPath(e, name, path)
    ensures unit != Null ==> unitKey in DefaultUnit(e, unitKey, unit)
  {
    hide IsText, Strip;
  }

  lemma ScaleMeans(e: Fields, scale: string, convert: string, divisor: string)
    requires scale != convert && scale != divisor && convert != divisor
    ensures var r := ScaleToDivisor(e, scale, convert, divisor);
      DivisorOf(Field(r, scale)) != 0 ==> convert in r || divisor in r
  {
    hide DivisorOf;
  }

  lemma RestSettles(typed: Fields, unit: Json)
    ensures var r := Rest(typed, unit);
      && (IsText(Field(r, "propertyName")) ==> "propertyPath" in r)
      && (unit != Null ==> "modbusUnitId" in r)
      && (DivisorOf(Field(r, "scale")) != 0 ==> "modbusConvertToFloat" in r || "modbusDivisor" in r)
      && DivisorSettled(r, "modbusConvertToFloat", "modbusDivisor")
  {
    hide DefaultPath, DefaultUnit, ScaleToDivisor, ConvertDivisor, IsText, DivisorOf, DivisorSettled;
    var placed := DefaultPath(typed, "propertyName", "propertyPath");
    var addressed := DefaultUnit(placed, "modbusUnitId", unit);
    var scaled := ScaleToDivisor(addressed, "scale", "modbusConvertToFloat", "modbusDivisor");
    DefaultsMean(typed, "propertyName", "propertyPath", "modbusUnitId", unit);
    DefaultsMean(placed, "propertyName", "propertyPath", "modbusUnitId", unit);
    ScaleMeans(addressed, "scale", "modbusConvertToFloat", "modbusDivisor");
    DivisorMeans(scaled, "modbusConvertToFloat", "modbusDivisor");
    RestKeeps(typed, unit, "propertyName");
    DefaultPathKeeps(typed, "propertyName", "propertyPath", "propertyName");
    DefaultUnitKeeps(placed, "modbusUnitId", unit, "propertyPath");
    ScaleKeeps(addressed, "scale", "modbusConvertToFloat", "modbusDivisor", "propertyPath");
    ScaleKeeps(addressed, "scale", "modbusConvertToFloat", "modbusDivisor", "modbusUnitId");
    DivisorKeeps(scaled, "modbusConvertToFloat", "modbusDivisor", "propertyPath");
    DivisorKeeps(scaled, "modbusConvertToFloat", "modbusDivisor", "modbusUnitId");
    DivisorKeeps(scaled, "modbusConvertToFloat", "modbusDivisor", "scale");
  }

  lemma NormalizedIsSettled(e: Fields, unit: Json)
    ensures Settled(Normalized(e, unit), unit)
  {
    hide Rest, MirrorTypes, IsText, IsStripped, DivisorOf, DivisorSettled;
    var typed := MirrorTypes(e, "modbusDataType", "modbusRegisterType");
    MirrorTypesMeans(e, "modbusDataType", "modbusRegisterType");
    RestSettles(typed, unit);
    RestKeeps(typed, unit, "modbusDataType");
    RestKeeps(typed, unit, "modbusRegisterType");
  }

  /** Normalizing an entry again, under the same unit, changes nothing. */
  lemma NormalizedTwice(e: Fields, unit: Json)
    ensures Normalized(Normalized(e, unit), unit) == Normalized(e, unit)
  {
    hide Normalized, Settled;
    NormalizedIsSettled(e, unit);
    SettledIsFixed(Normalized(e, unit), unit);
  }

  // ---------------------------------------------------------------- what it means

  lemma MirrorTypesMeaning(e: Fields)
    ensures var r := MirrorTypes(e, "modbusDataType", "modbusRegisterType");
      TypeOf(r) == TypeOf(e) && (TypesConflict(r) <==> TypesConflict(e))
  {
    hide Strip;
    var data, register := Field(e, "modbusDataType"), Field(e, "modbusRegisterType");
    if IsText(data) {
      StripTwice(data.s);
      StrippedText(data.s);
    } else if IsText(register) {
      StripTwice(register.s);
      StrippedText(register.s);
    }
  }

  lemma RestMeaning(typed: Fields, unit: Json)
    ensures TypeOf(Rest(typed, unit)) == TypeOf(typed)
    ensures TypesConflict(Rest(typed, unit)) <==> TypesConflict(typed)
  {
    hide Rest, IsText, Strip;
    NullIsNoText();
    RestKeeps(typed, unit, "modbusDataType");
    RestKeeps(typed, unit, "modbusRegisterType");
  }

  /** Normalizing changes neither the data type of an entry nor whether its two names conflict. */
  lemma NormalizedType(e: Fields, unit: Json)
    ensures TypeOf(Normalized(e, unit)) == TypeOf(e)
    ensures TypesConflict(Normalized(e, unit)) <==> TypesConflict(e)
  {
    hide Rest, MirrorTypes, TypeOf, TypesConflict;
    MirrorTypesMeaning(e);
    RestMeaning(MirrorTypes(e, "modbusDataType", "modbusRegisterType"), unit);
  }

  /** Only fields that an entry may have are added. */
  lemma NormalizedKeys(e: Fields, unit: Json, key: string)
    ensures key in e ==> key in Normalized(e, unit)
    ensures key in Normalized(e, unit) && key !in e ==> IsEntryKey(key)
  {
    hide IsText, Strip, DivisorOf, WholeToInt;
  }

  lemma NormalizedTarget(e: Fields, unit: Json)
    ensures HasTarget(Normalized(e, unit)) <==> HasTarget(e)
  {
    NormalizedKeeps(e, unit, "propertyName");
    NormalizedKeeps(e, unit, "tagName");
    NormalizedKeeps(e, unit, "tagId");
    if "propertyPath" in e {
      NormalizedKeeps(e, unit, "propertyPath");
      hide Normalized, IsText;
    } else {
      PathComesFromName(e, unit);
      hide Normalized;
    }
  }

  lemma PathComesFromName(e: Fields, unit: Json)
    requires "propertyPath" !in e
    ensures "propertyPath" in Normalized(e, unit) ==> IsText(Field(e, "propertyName"))
  {
    hide IsText, Strip, DivisorOf, WholeToInt;
  }

  /** Normalizing an entry makes no bad entry good and no good entry bad. */
  lemma NormalizedVerdict(e: Fields, unit: Json)
    ensures EntryOk(Obj(Normalized(e, unit))) <==> EntryOk(Obj(e))
  {
    hide Normalized, TypeOf, TypesConflict, IsText, HasTarget, IsAccess, IsDataType, IsNumber, IsEntryKey, Strip, Lower;
    NormalizedKeeps(e, unit, "modbusDataAccess");
    NormalizedKeeps(e, unit, "modbusDataAddress");
    NormalizedKeeps(e, unit, "bitStartPosition");
    NormalizedType(e, unit);
    NormalizedTarget(e, unit);
    forall key ensures (key in e ==> key in Normalized(e, unit)) && (key in Normalized(e, unit) && key !in e ==> IsEntryKey(key)) {
      NormalizedKeys(e, unit, key);
    }
  }
}
