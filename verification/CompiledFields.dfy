/**
  What compilation writes, field by field: into an entry of the property map, and
  into the payload around it.
 */
module CompiledFields {
  import opened Prelude
  import opened PyText
  import opened JsonValue
  import opened ConnectorTransform
  import opened ConnectorEntry
  import opened ConnectorPayload

  // --------------------------------------------------------------------- an entry

  /** The number 1 / n for a whole n above 1. */
  predicate IsUnitFraction(v: Json, n: int) {
    n >= 2 && IsNumber(v) && NumberOf(v) == 1.0 / n as real
  }

  /** The stripped data type under its own name and, unless that is taken, under the other; else the register type under both. */
  predicate TypesFit(e: Fields, r: Fields, data: string, register: string) {
    if IsText(Field(e, data)) then
      && Field(r, data) == Str(Strip(e[data].s))
      && Field(r, register) == (if register in e then e[register] else Str(Strip(e[data].s)))
      && register in r
    else if IsText(Field(e, register)) then
      Field(r, data) == Str(Strip(e[register].s)) && Field(r, register) == Str(Strip(e[register].s))
    else Same(e, r, data) && Same(e, r, register)
  }

  /** An absent path is the stripped name. */
  predicate PathFits(e: Fields, r: Fields, name: string, path: string) {
    if path !in e && IsText(Field(e, name)) then Field(r, path) == Str(Strip(e[name].s)) else Same(e, r, path)
  }

  /** An absent unit is the payload's, if it has one. */
  predicate UnitFits(e: Fields, r: Fields, key: string, unit: Json) {
    if key !in e && unit != Null then Field(r, key) == unit else Same(e, r, key)
  }

  /** A given divisor is kept, a whole float as an int; without one, and without a conversion, a scale of 1 / n brings n. */
  ghost predicate DivisorFits(e: Fields, r: Fields, scale: string, convert: string, divisor: string) {
    if divisor in e then
      divisor in r && r[divisor] == if e[divisor].Float? && IsWhole(e[divisor].x) then Int(e[divisor].x.Floor) else e[divisor]
    else
      && (divisor in r <==> convert !in e && exists n :: IsUnitFraction(Field(e, scale), n))
      && (divisor in r ==> forall n :: IsUnitFraction(Field(e, scale), n) ==> r[divisor] == Int(n))
  }

  /** A given conversion is kept; without one, a divisor above 1 or a scale of 1 / n brings the division by an integer. */
  ghost predicate ConversionFits(e: Fields, r: Fields, scale: string, convert: string, divisor: string) {
    if convert in e then Same(e, r, convert)
    else
      && (convert in r <==>
            if divisor in e then IsNumber(e[divisor]) && IsWhole(NumberOf(e[divisor])) && NumberOf(e[divisor]) > 1.0
            else exists n :: IsUnitFraction(Field(e, scale), n))
      && (convert in r ==> r[convert] == Str("divideByInteger"))
  }

  /** An entry with its defaults; every other field is the same. */
  ghost predicate EntryFits(e: Fields, unit: Json, r: Fields) {
    && TypesFit(e, r, "modbusDataType", "modbusRegisterType")
    && PathFits(e, r, "propertyName", "propertyPath")
    && UnitFits(e, r, "modbusUnitId", unit)
    && DivisorFits(e, r, "scale", "modbusConvertToFloat", "modbusDivisor")
    && ConversionFits(e, r, "scale", "modbusConvertToFloat", "modbusDivisor")
    && (forall key :: !IsDefaulted(key) ==> Same(e, r, key))
  }

  predicate IsDefaulted(key: string) {
    key in {"modbusDataType", "modbusRegisterType", "propertyPath", "modbusUnitId", "modbusConvertToFloat", "modbusDivisor"}
  }

  lemma TypesAreMirrored(e: Fields, r: Fields, data: string, register: string)
    requires data != register
    requires Same(MirrorTypes(e, data, register), r, data) && Same(MirrorTypes(e, data, register), r, register)
    ensures TypesFit(e, r, data, register)
  {
    hide IsText, Strip;
    NullIsNoText();
  }

  lemma PathIsDefaulted(e: Fields, typed: Fields, r: Fields, name: string, path: string)
    requires Same(e, typed, name) && Same(e, typed, path) && Same(DefaultPath(typed, name, path), r, path)
    ensures PathFits(e, r, name, path)
  {
    hide IsText, Strip;
    NullIsNoText();
  }

  lemma UnitIsDefaulted(e: Fields, placed: Fields, r: Fields, key: string, unit: Json)
    requires Same(e, placed, key) && Same(DefaultUnit(placed, key, unit), r, key)
    ensures UnitFits(e, r, key, unit)
  {
  }

  /** The scale gives its divisor: n for 1 / n, and none for any other. */
  lemma ScaleGives(scale: Json)
    ensures DivisorOf(scale) != 0 <==> exists n :: IsUnitFraction(scale, n)
    ensures forall n :: IsUnitFraction(scale, n) ==> DivisorOf(scale) == n
    ensures DivisorOf(scale) == 0 || DivisorOf(scale) >= 2
  {
    NoOtherDivisor(scale);
    forall n | n >= 2 ensures DivisorOf(scale) == n <==> IsUnitFraction(scale, n) {
      DivisorExactly(scale, n);
    }
    hide DivisorOf;
    if DivisorOf(scale) != 0 {
      assert IsUnitFraction(scale, DivisorOf(scale));
    }
  }

  lemma WholeAboveOne(v: Json)
    ensures IsInt(WholeToInt(v)) && IntOf(WholeToInt(v)) > 1 <==> IsNumber(v) && IsWhole(NumberOf(v)) && NumberOf(v) > 1.0
  {
  }

  lemma DivisorIsDefaulted(e: Fields, placed: Fields, r: Fields, scale: string, convert: string, divisor: string)
    requires scale != convert && scale != divisor && convert != divisor
    requires Same(e, placed, scale) && Same(e, placed, convert) && Same(e, placed, divisor)
    requires r == ConvertDivisor(ScaleToDivisor(placed, scale, convert, divisor), convert, divisor)
    ensures DivisorFits(e, r, scale, convert, divisor) && ConversionFits(e, r, scale, convert, divisor)
  {
    ScaleGives(Field(e, scale));
    WholeAboveOne(Field(e, divisor));
    var d := DivisorOf(Field(e, scale));
    assert WholeToInt(Int(d)) == Int(d) && WholeToInt(Null) == Null;
    hide DivisorOf, IsUnitFraction, WholeToInt, IsWhole;
    var scaled := ScaleToDivisor(placed, scale, convert, divisor);
    if divisor in e {
      assert scaled == placed;
      DivisorOfGiven(e, placed, r, convert, divisor);
    } else if d != 0 && convert !in e {
      assert scaled == placed[convert := Str("divideByInteger")][divisor := Int(d)];
    } else {
      assert scaled == placed;
    }
  }

  lemma DivisorOfGiven(e: Fields, placed: Fields, r: Fields, convert: string, divisor: string)
    requires convert != divisor && divisor in e && Same(e, placed, convert) && Same(e, placed, divisor)
    requires r == ConvertDivisor(placed, convert, divisor)
    ensures divisor in r && r[divisor] == if e[divisor].Float? && IsWhole(e[divisor].x) then Int(e[divisor].x.Floor) else e[divisor]
    ensures convert in e ==> Same(e, r, convert)
    ensures convert !in e ==>
      && (convert in r <==> IsInt(WholeToInt(e[divisor])) && IntOf(WholeToInt(e[divisor])) > 1)
      && (convert in r ==> r[convert] == Str("divideByInteger"))
  {
  }

  /** What every field of a normalized entry is. */
  lemma NormalizedFits(e: Fields, unit: Json)
    ensures EntryFits(e, unit, Normalized(e, unit))
  {
    hide MirrorTypes, DefaultPath, DefaultUnit, ScaleToDivisor, ConvertDivisor, Same, TypesFit, PathFits, UnitFits, DivisorFits, ConversionFits;
    var r := Normalized(e, unit);
    NormalizedTypesFit(e, unit);
    NormalizedDefaultsFit(e, unit);
    forall key | !IsDefaulted(key) ensures Same(e, r, key) {
      NormalizedKeeps(e, unit, key);
    }
  }

  lemma NormalizedTypesFit(e: Fields, unit: Json)
    ensures TypesFit(e, Normalized(e, unit), "modbusDataType", "modbusRegisterType")
  {
    hide MirrorTypes, Rest, Same, TypesFit;
    var typed := MirrorTypes(e, "modbusDataType", "modbusRegisterType");
    RestKeeps(typed, unit, "modbusDataType");
    RestKeeps(typed, unit, "modbusRegisterType");
    TypesAreMirrored(e, Normalized(e, unit), "modbusDataType", "modbusRegisterType");
  }

  lemma SameChain(e: Fields, f: Fields, g: Fields, key: string)
    requires Same(e, f, key) && Same(f, g, key)
    ensures Same(e, g, key)
  {
  }

  /** The steps, with the keys as variables. */
  lemma StepsFit(e: Fields, typed: Fields, unit: Json, name: string, path: string, key: string, scale: string, convert: string, divisor: string)
    requires name != path && path != key && key != scale && key != convert && key != divisor && path != scale && path != convert && path != divisor
    requires scale != convert && scale != divisor && convert != divisor
    requires Same(e, typed, name) && Same(e, typed, path) && Same(e, typed, key)
    requires Same(e, typed, scale) && Same(e, typed, convert) && Same(e, typed, divisor)
    ensures var placed := DefaultPath(typed, name, path);
      var addressed := DefaultUnit(placed, key, unit);
      var r := ConvertDivisor(ScaleToDivisor(addressed, scale, convert, divisor), convert, divisor);
      && PathFits(e, r, name, path) && UnitFits(e, r, key, unit)
      && DivisorFits(e, r, scale, convert, divisor) && ConversionFits(e, r, scale, convert, divisor)
  {
    hide DefaultPath, DefaultUnit, ScaleToDivisor, ConvertDivisor, Same, PathFits, UnitFits, DivisorFits, ConversionFits;
    var placed := DefaultPath(typed, name, path);
    var addressed := DefaultUnit(placed, key, unit);
    var scaled := ScaleToDivisor(addressed, scale, convert, divisor);
    var r := ConvertDivisor(scaled, convert, divisor);
    forall k | k != path && k != key && Same(e, typed, k) ensures Same(e, addressed, k) {
      DefaultPathKeeps(typed, name, path, k);
      SameChain(e, typed, placed, k);
      DefaultUnitKeeps(placed, key, unit, k);
      SameChain(e, placed, addressed, k);
    }
    forall k | k == path || k == key ensures Same(addressed, r, k) {
      ScaleKeeps(addressed, scale, convert, divisor, k);
      DivisorKeeps(scaled, convert, divisor, k);
      SameChain(addressed, scaled, r, k);
    }
    DefaultUnitKeeps(placed, key, unit, path);
    SameChain(placed, addressed, r, path);
    PathIsDefaulted(e, typed, r, name, path);
    DefaultPathKeeps(typed, name, path, key);
    SameChain(e, typed, placed, key);
    UnitIsDefaulted(e, placed, r, key, unit);
    DivisorIsDefaulted(e, addressed, r, scale, convert, divisor);
  }

  lemma NormalizedDefaultsFit(e: Fields, unit: Json)
    ensures var r := Normalized(e, unit);
      && PathFits(e, r, "propertyName", "propertyPath") && UnitFits(e, r, "modbusUnitId", unit)
      && DivisorFits(e, r, "scale", "modbusConvertToFloat", "modbusDivisor")
      && ConversionFits(e, r, "scale", "modbusConvertToFloat", "modbusDivisor")
  {
    hide MirrorTypes, DefaultPath, DefaultUnit, ScaleToDivisor, ConvertDivisor, Same, PathFits, UnitFits, DivisorFits, ConversionFits;
    var typed := MirrorTypes(e, "modbusDataType", "modbusRegisterType");
    forall key | key != "modbusDataType" && key != "modbusRegisterType" ensures Same(e, typed, key) {
      MirrorTypesKeeps(e, "modbusDataType", "modbusRegisterType", key);
    }
    StepsFit(e, typed, unit, "propertyName", "propertyPath", "modbusUnitId", "scale", "modbusConvertToFloat", "modbusDivisor");
  }

  // --------------------------------------------------------------------- a payload

  /** The unit that a payload gives its entries: an int, a bool, or a whole float as an int. */
  predicate GivesUnit(v: Json, unit: Json) {
    match v
    case Int(_) => unit == v
    case Bool(_) => unit == v
    case Float(x) => unit == if IsWhole(x) then Int(x.Floor) else Null
    case _ => unit == Null
  }

  /** An object is an entry with its defaults, anything else is left alone. */
  ghost predicate ItemFits(item: Json, unit: Json, r: Json) {
    if item.Obj? then r.Obj? && EntryFits(item.fields, unit, r.fields) else r == item
  }

  ghost predicate ItemsFit(items: seq<Json>, unit: Json, r: seq<Json>) {
    |r| == |items| && forall i :: 0 <= i < |items| ==> ItemFits(items[i], unit, r[i])
  }

  /** The stripped name under its key, and under the alias unless that has a text of its own. */
  predicate NamesFit(p: Fields, r: Fields, key: string, alias: string) {
    if IsText(Field(p, key)) then
      && Field(r, key) == Str(Strip(p[key].s))
      && (alias != "" ==> Field(r, alias) == if IsText(Field(p, alias)) then p[alias] else Str(Strip(p[key].s)))
    else
      && alias != "" && IsText(Field(p, alias))
      && Field(r, key) == Str(Strip(p[alias].s)) && Field(r, alias) == p[alias]
  }

  /** For modbus, a list of entries under the unit of the payload; for any other service, as it is. */
  ghost predicate ListFits(p: Fields, r: Fields, list: string, unitKey: string) {
    if IsModbus(p) && Field(p, list).Arr? then
      && Field(r, list).Arr?
      && exists unit :: GivesUnit(Field(p, unitKey), unit) && ItemsFit(p[list].items, unit, r[list].items)
    else Same(p, r, list)
  }

  /** A payload as it is compiled, before an output's settings are nested; every other field is the same. */
  ghost predicate PayloadFits(a: Action, p: Fields, r: Fields) {
    var alias := if IsInputAction(a) then "inputName" else if IsOutputAction(a) then "outputName" else "";
    && NamesFit(p, r, "connectorName", alias)
    && ListFits(p, r, "propertyMapList", "unitId")
    && forall key :: key != "connectorName" && key != alias && key != "propertyMapList" ==> Same(p, r, key)
  }

  lemma FitsKeeps(a: Action, p: Fields, r: Fields, key: string)
    requires PayloadFits(a, p, r)
    requires key != "connectorName" && key != "inputName" && key != "outputName" && key != "" && key != "propertyMapList"
    ensures Field(r, key) == Field(p, key)
  {
    hide NamesFit, ListFits;
    assert Same(p, r, key);
  }

  lemma UnitIsGiven(p: Fields)
    ensures GivesUnit(Field(p, "unitId"), UnitOf(p))
  {
  }

  lemma ListIsNormalized(items: seq<Json>, unit: Json)
    ensures ItemsFit(items, unit, NormalizedList(items, unit))
  {
    hide Normalized, EntryFits;
    forall i | 0 <= i < |items| ensures ItemFits(items[i], unit, NormalizedList(items, unit)[i]) {
      if items[i].Obj? { NormalizedFits(items[i].fields, unit); }
    }
  }

  lemma NamesAreSet(p: Fields, r: Fields, key: string, alias: string)
    requires key != alias && NameOf(p, key, alias) != ""
    requires Same(WithName(p, key, alias), r, key) && (alias != "" ==> Same(WithName(p, key, alias), r, alias))
    ensures NamesFit(p, r, key, alias)
  {
    hide Strip;
    NullIsNoText();
  }

  lemma ListIsSet(p: Fields, named: Fields)
    requires Same(p, named, "serviceName") && Same(p, named, "unitId") && Same(p, named, "propertyMapList")
    ensures ListFits(p, WithEntries(named), "propertyMapList", "unitId")
  {
    hide UnitOf, NormalizedList, IsModbus, GivesUnit, ItemsFit;
    SameService(p, named);
    SameUnit(p, named);
    UnitIsGiven(p);
    if IsModbus(p) && Field(p, "propertyMapList").Arr? {
      ListIsNormalized(p["propertyMapList"].items, UnitOf(p));
    }
  }

  lemma SameUnit(p: Fields, r: Fields)
    requires Same(p, r, "unitId")
    ensures UnitOf(r) == UnitOf(p)
  {
  }

  /** What every field of a compiled payload is; an output's payload is then rewritten as it will be sent. */
  lemma CompiledFits(a: Action, p: Fields) returns (q: Fields)
    requires HasName(a, p)
    ensures PayloadFits(a, p, q)
    ensures Compiled(a, p) == if IsOutputAction(a) then Rewrite(a, q) else q
  {
    hide WithName, WithEntries, Rewrite, NameOf, NamesFit, ListFits, Same;
    AliasIsNotName(a);
    var alias := AliasOf(a);
    var named := WithName(p, "connectorName", alias);
    q := WithEntries(named);
    forall key | key != "connectorName" && key != alias ensures Same(p, named, key) {
      WithNameKeeps(p, "connectorName", alias, key);
    }
    forall key | key != "propertyMapList" ensures Same(named, q, key) {
      WithEntriesKeeps(named, key);
    }
    forall key | key != "connectorName" && key != alias && key != "propertyMapList" ensures Same(p, q, key) {
      SameChain(p, named, q, key);
    }
    NamesAreSet(p, q, "connectorName", alias);
    ListIsSet(p, named);
  }
}
