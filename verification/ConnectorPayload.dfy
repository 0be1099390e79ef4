/**
  The connector payload compiler: names, property map and settings are normalized,
  the result is checked, and what is previewed is what is posted.
 */
module ConnectorPayload {
  import opened Prelude
  import opened PyText
  import opened JsonValue
  import opened ConnectorTransform
  import opened ConnectorSchema
  import opened ConnectorEntry

  /** Why a payload is refused. */
  datatype Refusal = PayloadRequired | NameRequired | SchemaInvalid(payload: Fields, errors: seq<Issue>)

  // ---------------------------------------------------------------------- the names

  /** The key that an action accepts as an alias of `connectorName`; "" for none. */
  function AliasOf(a: Action): string {
    if IsInputAction(a) then "inputName" else if IsOutputAction(a) then "outputName" else ""
  }

  /** The stripped name of the connector, from `connectorName` or the alias; "" for none. */
  function NameOf(p: Fields, key: string, alias: string): string {
    if IsText(Field(p, key)) then Strip(p[key].s)
    else if alias != "" && IsText(Field(p, alias)) then Strip(p[alias].s)
    else ""
  }

  /** The name under its key, and under the alias unless that has a text. */
  function WithName(p: Fields, key: string, alias: string): Fields {
    var name := Str(NameOf(p, key, alias));
    var named := p[key := name];
    if alias != "" && !IsText(Field(named, alias)) then named[alias := name] else named
  }

  // --------------------------------------------------------------- the property map

  /** The unit that the entries default to: an int (or whole float); Null for none. */
  function UnitOf(p: Fields): Json {
    if IsInt(WholeToInt(Field(p, "unitId"))) then WholeToInt(Field(p, "unitId")) else Null
  }

  function NormalizedEntry(entry: Json, unit: Json): Json {
    if entry.Obj? then Obj(Normalized(entry.fields, unit)) else entry
  }

  function NormalizedList(entries: seq<Json>, unit: Json): (r: seq<Json>)
    ensures |r| == |entries|
    ensures forall i :: 0 <= i < |entries| ==> r[i] == NormalizedEntry(entries[i], unit)
  {
    seq(|entries|, i requires 0 <= i < |entries| => NormalizedEntry(entries[i], unit))
  }

  function WithEntries(p: Fields): Fields {
    if IsModbus(p) && Field(p, "propertyMapList").Arr? then
      p["propertyMapList" := Arr(NormalizedList(p["propertyMapList"].items, UnitOf(p)))]
    else p
  }

  // -------------------------------------------------------------------- the compiler

  /** The payload before its check. */
  function Compiled(a: Action, p: Fields): Fields {
    var q := WithEntries(WithName(p, "connectorName", AliasOf(a)));
    if IsOutputAction(a) then Rewrite(a, q) else q
  }

  predicate HasName(a: Action, p: Fields) {
    NameOf(p, "connectorName", AliasOf(a)) != ""
  }

  /** The payloads that are accepted. */
  predicate Accepts(a: Action, payload: Option<Fields>, registry: set<string>) {
    && payload.Some? && payload.value != map[]
    && HasName(a, payload.value)
    && Acceptable(a, Compiled(a, payload.value), registry)
  }

  lemma AcceptedIsAcceptable(a: Action, payload: Option<Fields>, registry: set<string>)
    requires Accepts(a, payload, registry)
    ensures payload.Some? && Acceptable(a, Compiled(a, payload.value), registry)
  {
    hide HasName, Acceptable, Compiled;
  }

  lemma AcceptedIsGiven(a: Action, payload: Option<Fields>, registry: set<string>)
    requires Accepts(a, payload, registry)
    ensures payload.Some?
  {
    hide HasName, Acceptable, Compiled;
  }

  /** The refusal that fits: no payload, no name, or exactly the errors of the schema. */
  ghost predicate Refuses(a: Action, payload: Option<Fields>, registry: set<string>, reason: Refusal) {
    match reason
    case PayloadRequired => payload.None? || payload.value == map[]
    case NameRequired => payload.Some? && payload.value != map[] && !HasName(a, payload.value)
    case SchemaInvalid(compiled, errors) =>
      && payload.Some? && payload.value != map[] && HasName(a, payload.value)
      && compiled == Compiled(a, payload.value) && errors != [] && InOrder(errors)
      && forall x :: x in errors <==> Reports(a, compiled, registry, x)
  }

  method RequireConnectorPayload(a: Action, payload: Option<Fields>, registry: set<string>) returns (r: Result<Fields, Refusal>)
    ensures r.Ok? <==> Accepts(a, payload, registry)
    ensures r.Ok? ==> r.value == Compiled(a, payload.value)
    ensures r == Err(PayloadRequired) <==> payload.None? || payload.value == map[]
    ensures r == Err(NameRequired) <==> payload.Some? && payload.value != map[] && !HasName(a, payload.value)
    ensures r.Err? && r.error.SchemaInvalid? ==>
      r.error.payload == Compiled(a, payload.value) && r.error.errors != [] && InOrder(r.error.errors) &&
      forall x :: x in r.error.errors <==> Reports(a, r.error.payload, registry, x)
    ensures r.Err? ==> Refuses(a, payload, registry, r.error)
  {
    hide Acceptable, Reports, WithEntries, Rewrite, InOrder, WithName, NameOf, AliasOf, HasProfile;
    if payload.None? || payload.value == map[] {
      return Err(PayloadRequired);
    }
    var named, normalized := NameConnector(payload.value, "connectorName", AliasOf(a));
    if !named {
      return Err(NameRequired);
    }
    normalized := NormalizeEntries(normalized);
    if IsOutputAction(a) {
      var transformed := TransformConnectorRequest(a, Some(normalized));
      normalized := transformed.value;
    }
    var validation := ValidateConnectorSchema(a, normalized, registry);
    if validation.status == Invalid {
      return Err(SchemaInvalid(normalized, validation.errors));
    }
    r := Ok(normalized);
  }

  method NameConnector(p: Fields, key: string, alias: string) returns (named: bool, r: Fields)
    ensures named <==> NameOf(p, key, alias) != ""
    ensures named ==> r == WithName(p, key, alias)
  {
    hide Strip;
    r := p;
    var name := Field(p, key);
    if !IsText(name) && alias != "" && IsText(Field(p, alias)) {
      name := Str(Strip(p[alias].s));
      StripTwice(p[alias].s);
    }
    if !IsText(name) {
      return false, r;
    }
    named := true;
    r := r[key := Str(Strip(name.s))];
    if alias != "" && !IsText(Field(r, alias)) {
      r := r[alias := Str(Strip(name.s))];
    }
  }

  method NormalizeEntries(p: Fields) returns (r: Fields)
    ensures r == WithEntries(p)
  {
    hide IsModbus, NormalizedList, UnitOf;
    r := p;
    if IsModbus(p) {
      var list := Field(p, "propertyMapList");
      if list.Arr? {
        var entries := NormalizeList(list.items, UnitOf(p));
        r := r["propertyMapList" := Arr(entries)];
      }
    }
  }

  method NormalizeList(entries: seq<Json>, unit: Json) returns (r: seq<Json>)
    ensures r == NormalizedList(entries, unit)
  {
    hide Normalized;
    r := [];
    for i := 0 to |entries|
      invariant r == NormalizedList(entries[..i], unit)
    {
      if entries[i].Obj? {
        var normalized := NormalizeEntry(entries[i].fields, unit);
        r := r + [Obj(normalized)];
      } else {
        r := r + [entries[i]];
      }
    }
    assert entries[..|entries|] == entries;
  }

  // ------------------------------------------------------------------- fixed point

  /** The names of a payload that was named. */
  predicate NameSettled(p: Fields, key: string, alias: string) {
    && IsText(Field(p, key)) && IsStripped(Field(p, key))
    && (alias != "" ==> IsText(Field(p, alias)))
  }

  lemma WithNameSettles(p: Fields, key: string, alias: string)
    requires key != alias && NameOf(p, key, alias) != ""
    ensures NameSettled(WithName(p, key, alias), key, alias)
    ensures key in WithName(p, key, alias)
  {
    hide Strip;
    if IsText(Field(p, key)) {
      StrippedText(p[key].s);
    } else {
      StrippedText(p[alias].s);
    }
  }

  lemma WithNameFixed(p: Fields, key: string, alias: string)
    requires key != alias && NameSettled(p, key, alias)
    ensures WithName(p, key, alias) == p && NameOf(p, key, alias) != ""
  {
    hide Strip;
    assert p[key := p[key]] == p;
  }

  lemma WithNameKeeps(p: Fields, key: string, alias: string, other: string)
    requires other != key && other != alias
    ensures Same(p, WithName(p, key, alias), other)
  {
    hide IsText, Strip;
  }

  lemma NormalizedEntryTwice(entry: Json, unit: Json)
    ensures NormalizedEntry(NormalizedEntry(entry, unit), unit) == NormalizedEntry(entry, unit)
  {
    hide Normalized;
    if entry.Obj? {
      NormalizedTwice(entry.fields, unit);
    }
  }

  lemma NormalizedListTwice(entries: seq<Json>, unit: Json)
    ensures NormalizedList(NormalizedList(entries, unit), unit) == NormalizedList(entries, unit)
  {
    hide NormalizedEntry;
    forall i | 0 <= i < |entries|
      ensures NormalizedEntry(NormalizedList(entries, unit)[i], unit) == NormalizedList(entries, unit)[i]
    {
      NormalizedEntryTwice(entries[i], unit);
    }
  }

  lemma WithEntriesKeeps(p: Fields, key: string)
    requires key != "propertyMapList"
    ensures Same(p, WithEntries(p), key)
  {
    hide IsModbus, UnitOf;
  }

  lemma SameService(p: Fields, r: Fields)
    requires Same(p, r, "serviceName")
    ensures IsModbus(r) <==> IsModbus(p)
  {
  }

  /** A payload whose entries a second pass leaves as they are. */
  predicate EntriesSettled(p: Fields) {
    IsModbus(p) && Field(p, "propertyMapList").Arr? ==>
      NormalizedList(p["propertyMapList"].items, UnitOf(p)) == p["propertyMapList"].items
  }

  lemma EntriesFixed(p: Fields)
    requires EntriesSettled(p)
    ensures WithEntries(p) == p
  {
    hide IsModbus, UnitOf, NormalizedList;
    assert "propertyMapList" in p ==> p["propertyMapList" := p["propertyMapList"]] == p;
  }

  lemma WithEntriesSettles(p: Fields)
    ensures EntriesSettled(WithEntries(p))
  {
    var r := WithEntries(p);
    WithEntriesKeeps(p, "serviceName");
    WithEntriesKeeps(p, "unitId");
    SameService(p, r);
    assert UnitOf(r) == UnitOf(p);
    hide IsModbus, UnitOf, NormalizedList;
    if IsModbus(p) && Field(p, "propertyMapList").Arr? {
      NormalizedListTwice(p["propertyMapList"].items, UnitOf(p));
    }
  }

  lemma AliasIsNotName(a: Action)
    ensures AliasOf(a) != "connectorName" && AliasOf(a) != "serviceName" && AliasOf(a) != "unitId"
    ensures AliasOf(a) != "propertyMapList"
  {
  }

  lemma EntriesKeepNames(p: Fields, alias: string)
    requires alias != "propertyMapList"
    ensures NameSettled(WithEntries(p), "connectorName", alias) <==> NameSettled(p, "connectorName", alias)
  {
    WithEntriesKeeps(p, "connectorName");
    if alias != "" { WithEntriesKeeps(p, alias); }
    hide WithEntries, IsText, IsStripped;
  }

  /** The payload of an action that nests nothing: named, with its entries normalized. */
  lemma UnnestedTwice(a: Action, p: Fields)
    requires HasName(a, p)
    ensures var q := WithEntries(WithName(p, "connectorName", AliasOf(a)));
      && NameSettled(q, "connectorName", AliasOf(a)) && EntriesSettled(q)
      && WithEntries(WithName(q, "connectorName", AliasOf(a))) == q
      && HasName(a, q)
  {
    hide NameOf, WithName, WithEntries, NameSettled, EntriesSettled, AliasOf;
    AliasIsNotName(a);
    var named := WithName(p, "connectorName", AliasOf(a));
    WithNameSettles(p, "connectorName", AliasOf(a));
    EntriesKeepNames(named, AliasOf(a));
    WithEntriesSettles(named);
    var q := WithEntries(named);
    WithNameFixed(q, "connectorName", AliasOf(a));
    EntriesFixed(q);
  }

  lemma NameFromAlias(p: Fields, key: string, alias: string)
    requires key !in p && key != alias && alias != "" && IsText(Field(p, alias))
    ensures WithName(p, key, alias) == p[key := Str(Strip(p[alias].s))]
    ensures NameOf(p, key, alias) != ""
  {
    assert !IsText(Null) by { NullIsNoText(); }
    hide Strip;
  }

  lemma NameMovedIgnores(p: Fields, key: string, alias: string, v: Json)
    requires key !in p && key != alias && IsText(Field(p, alias))
    ensures NameMoved(p[key := v], key, alias) == p
  {
    hide IsText, Strip;
    assert Without(p[key := v], key) == p;
  }

  /** For an output, the entries are settled after the rewrite: they are nested, or as they were. */
  lemma RewriteSettlesEntries(a: Action, m: Fields)
    requires IsOutputAction(a) && EntriesSettled(m)
    ensures EntriesSettled(Rewrite(a, m))
  {
    hide Rewrite, EntriesSettled, Nests;
    if Nests(a, m) {
      NestedMapList(a, m);
    } else {
      UnnestedKeeps(a, m, "propertyMapList");
      UnnestedKeeps(a, m, "serviceName");
      UnnestedKeeps(a, m, "unitId");
      SameEntriesSettled(m, Rewrite(a, m));
    }
  }

  lemma NestedMapList(a: Action, m: Fields)
    requires Nests(a, m)
    ensures EntriesSettled(Rewrite(a, m))
  {
    hide Rewrite, Nests, IsModbus, UnitOf;
    assert !StaysAtTop("propertyMapList");
    NestingConserves(a, m, "propertyMapList");
  }

  lemma UnnestedKeeps(a: Action, m: Fields, key: string)
    requires IsOutputAction(a) && !Nests(a, m) && key != "connectorName" && key != "inputName" && key != "outputName"
    ensures Same(m, Rewrite(a, m), key)
  {
    hide Named, IsModbus;
    NamedKeeps(a, m, key);
  }

  lemma NamedIgnoresName(a: Action, q: Fields, v: Json)
    requires IsOutputAction(a) && "connectorName" !in q && IsText(Field(q, "outputName"))
    ensures Named(a, q["connectorName" := v]) == q && Named(a, q) == q
  {
    NameMovedIgnores(q, "connectorName", "outputName", v);
    NameMovedFixed(q, "connectorName", "outputName");
    hide NameMoved, IsText;
  }

  lemma SameButName(q: Fields, name: string, v: Json, key: string)
    requires key != name
    ensures Same(q, q[name := v], key)
  {
  }

  lemma RewriteIgnoresName(a: Action, q: Fields, v: Json)
    requires IsOutputAction(a) && "connectorName" !in q && IsText(Field(q, "outputName"))
    ensures Rewrite(a, q["connectorName" := v]) == Rewrite(a, q)
  {
    hide Named, Nested, IsText, Same, IsModbus;
    NamedIgnoresName(a, q, v);
    SameButName(q, "connectorName", v, "serviceName");
    SameService(q, q["connectorName" := v]);
  }

  lemma EntriesIgnoreName(q: Fields, v: Json)
    requires EntriesSettled(q)
    ensures WithEntries(q["connectorName" := v]) == q["connectorName" := v]
  {
    hide EntriesSettled, Same, WithEntries;
    SameButName(q, "connectorName", v, "serviceName");
    SameButName(q, "connectorName", v, "unitId");
    SameButName(q, "connectorName", v, "propertyMapList");
    SameEntriesSettled(q, q["connectorName" := v]);
    EntriesFixed(q["connectorName" := v]);
  }

  /** An output's names after the rewrite: only its own key. */
  lemma OutputNamed(a: Action, m: Fields)
    requires IsOutputAction(a) && NameSettled(m, "connectorName", "outputName")
    ensures var q := Rewrite(a, m);
      "connectorName" !in q && IsText(Field(q, "outputName"))
  {
    hide Rewrite, IsText, Strip;
    NamesConserved(a, m);
  }

  lemma OutputTwice(a: Action, m: Fields)
    requires IsOutputAction(a) && NameSettled(m, "connectorName", "outputName") && EntriesSettled(m)
    ensures var q := Rewrite(a, m);
      HasName(a, q) && Rewrite(a, WithEntries(WithName(q, "connectorName", "outputName"))) == q
  {
    assert AliasOf(a) == "outputName";
    hide Rewrite, EntriesSettled, WithName, WithEntries, IsText, NameOf, Strip, NameSettled, AliasOf, IsOutputAction;
    var q := Rewrite(a, m);
    OutputNamed(a, m);
    RewriteSettlesEntries(a, m);
    NameFromAlias(q, "connectorName", "outputName");
    assert Field(q, "outputName").Str? by { TextIsStr(Field(q, "outputName")); }
    var name := Str(Strip(q["outputName"].s));
    EntriesIgnoreName(q, name);
    RewriteIgnoresName(a, q, name);
    RewriteTwice(a, m);
  }

  lemma SameEntriesSettled(q: Fields, n: Fields)
    requires EntriesSettled(q)
    requires Same(q, n, "serviceName") && Same(q, n, "unitId") && Same(q, n, "propertyMapList")
    ensures EntriesSettled(n)
  {
    hide NormalizedList;
  }

  lemma RewriteTwice(a: Action, m: Fields)
    ensures Rewrite(a, Rewrite(a, m)) == Rewrite(a, m)
  {
    hide Rewrite;
    TransformIdempotent(a, Some(m));
  }

  lemma OutputAlias(a: Action)
    ensures IsOutputAction(a) <==> AliasOf(a) == "outputName"
  {
  }

  lemma CompiledTwice(a: Action, p: Fields)
    requires HasName(a, p)
    ensures Compiled(a, Compiled(a, p)) == Compiled(a, p) && HasName(a, Compiled(a, p))
  {
    hide WithName, WithEntries, Rewrite, HasName, NameSettled, EntriesSettled, AliasOf, IsOutputAction;
    UnnestedTwice(a, p);
    OutputAlias(a);
    if IsOutputAction(a) {
      OutputTwice(a, WithEntries(WithName(p, "connectorName", AliasOf(a))));
    }
  }

  lemma CompiledNonempty(a: Action, p: Fields)
    requires HasName(a, p)
    ensures Compiled(a, p) != map[]
  {
    CompiledTwice(a, p);
    hide Compiled;
    assert !IsText(Null) by { NullIsNoText(); }
    hide IsText;
    assert HasName(a, Compiled(a, p)) && !HasName(a, map[]);
  }

  /** An accepted payload, compiled again under the same registry, is accepted and unchanged. */
  lemma CompilationIsFixedPoint(a: Action, p: Fields, registry: set<string>)
    requires Accepts(a, Some(p), registry)
    ensures Accepts(a, Some(Compiled(a, p)), registry)
    ensures Compiled(a, Compiled(a, p)) == Compiled(a, p)
  {
    CompiledTwice(a, p);
    CompiledNonempty(a, p);
    hide Compiled, Acceptable, HasName;
  }

  // ------------------------------------------------------------ checking before or after

  lemma EntriesVerdict(entries: seq<Json>, unit: Json)
    ensures (forall i :: 0 <= i < |entries| ==> EntryOk(NormalizedList(entries, unit)[i])) <==>
      forall i :: 0 <= i < |entries| ==> EntryOk(entries[i])
  {
    forall i | 0 <= i < |entries| ensures EntryOk(NormalizedList(entries, unit)[i]) <==> EntryOk(entries[i]) {
      hide EntryOk, Normalized;
      OneVerdict(entries[i], unit);
    }
    hide EntryOk, NormalizedList;
  }

  lemma OneVerdict(entry: Json, unit: Json)
    ensures EntryOk(NormalizedEntry(entry, unit)) <==> EntryOk(entry)
  {
    hide EntryOk, Normalized;
    if entry.Obj? {
      NormalizedVerdict(entry.fields, unit);
    }
  }

  lemma MapListSurvives(p: Fields)
    ensures IsMapList(Field(WithEntries(p), "propertyMapList")) <==> IsMapList(Field(p, "propertyMapList"))
    ensures Missing(Field(WithEntries(p), "propertyMapList")) <==> Missing(Field(p, "propertyMapList"))
  {
    hide IsModbus, UnitOf;
  }

  lemma InputVerdict(p: Fields)
    ensures ModbusInputOk(WithEntries(p)) <==> ModbusInputOk(p)
  {
    WithEntriesKeeps(p, "modbusProtocol");
    WithEntriesKeeps(p, "modbusServer");
    WithEntriesKeeps(p, "modbusServerPort");
    MapListSurvives(p);
    if Field(p, "propertyMapList").Arr? {
      EntriesVerdict(p["propertyMapList"].items, UnitOf(p));
    }
    hide EntryOk, IsModbus, UnitOf, NormalizedList, IsText, IsPort, BareHost;
  }

  lemma RequiredVerdict(a: Action, p: Fields)
    ensures RequiredPresent(a, WithEntries(p)) <==> RequiredPresent(a, p)
  {
    MapListSurvives(p);
    hide WithEntries, Missing, RequiredKeys;
    forall key ensures Missing(Field(WithEntries(p), key)) <==> Missing(Field(p, key)) {
      if key != "propertyMapList" { WithEntriesKeeps(p, key); }
    }
  }

  lemma ServiceVerdict(p: Fields)
    ensures ServiceOf(WithEntries(p)) == ServiceOf(p)
    ensures IsText(Field(WithEntries(p), "serviceName")) <==> IsText(Field(p, "serviceName"))
  {
    WithEntriesKeeps(p, "serviceName");
    hide WithEntries, IsText;
  }

  /**
    For inputs, normalizing the entries first makes no difference to the check: a
    payload is accepted exactly when it is acceptable as it came, once named.
   */
  lemma NormalizeAndCheckCommute(a: Action, p: Fields, registry: set<string>)
    requires IsInputDefinition(a)
    ensures Accepts(a, Some(p), registry) <==>
      p != map[] && HasName(a, p) && Acceptable(a, WithName(p, "connectorName", AliasOf(a)), registry)
  {
    hide WithName, HasName, AliasOf, Acceptable, WithEntries;
    AcceptableAfterEntries(a, WithName(p, "connectorName", AliasOf(a)), registry);
  }

  lemma EntriesKeepEmpty(p: Fields)
    ensures WithEntries(p) == map[] <==> p == map[]
  {
    hide IsModbus, UnitOf, NormalizedList;
  }

  lemma AcceptableAfterEntries(a: Action, p: Fields, registry: set<string>)
    requires IsInputDefinition(a)
    ensures Acceptable(a, WithEntries(p), registry) <==> Acceptable(a, p, registry)
  {
    hide ModbusInputOk, RequiredPresent, WithEntries, IsText, ServiceOf, HasIdentifier;
    InputVerdict(p);
    RequiredVerdict(a, p);
    ServiceVerdict(p);
    EntriesKeepEmpty(p);
  }

  // --------------------------------------------------------------- preview and commit

  /** What the adapter posts for an accepted payload; a deleted output is posted as it is. */
  function Posted(a: Action, resolved: Fields): Fields {
    if a == DeleteOutput then resolved else Rewrite(a, resolved)
  }

  datatype Preview =
    | Success(payload: Fields, forwarded: Fields, profiled: bool)
    | Refused(reason: Refusal, draft: Option<Fields>)

  /** `_connector_preview` */
  method ConnectorPreview(a: Action, payload: Option<Fields>, registry: set<string>) returns (preview: Preview)
    ensures preview.Success? <==> Accepts(a, payload, registry)
    ensures preview.Success? ==>
      preview.payload == Compiled(a, payload.value) && preview.forwarded == Rewrite(a, Compiled(a, payload.value))
    ensures preview.Success? ==> (preview.profiled <==> HasProfile(a, Compiled(a, payload.value)))
    ensures preview.Refused? ==> preview.draft == Transform(a, payload) && Refuses(a, payload, registry, preview.reason)
  {
    hide Accepts, Compiled, Rewrite, Reports, Acceptable, InOrder, HasName, HasProfile, Refuses;
    var resolved := RequireConnectorPayload(a, payload, registry);
    match resolved {
      case Err(refusal) =>
        var forwarded := TransformConnectorRequest(a, payload);
        preview := Refused(refusal, forwarded);
      case Ok(normalized) =>
        AcceptedIsAcceptable(a, payload, registry);
        var validation := ValidateConnectorSchema(a, normalized, registry);
        var forwarded := TransformConnectorRequest(a, Some(normalized));
        preview := Success(normalized, forwarded.value, validation.status == Validated);
    }
  }

  /** The dictionary that a confirmed call sends, or the refusal that it raises. */
  method CommittedPayload(a: Action, payload: Option<Fields>, registry: set<string>) returns (posted: Result<Fields, Refusal>)
    ensures posted.Ok? <==> Accepts(a, payload, registry)
    ensures posted.Ok? ==> posted.value == Posted(a, Compiled(a, payload.value))
    ensures posted.Err? ==> Refuses(a, payload, registry, posted.error)
  {
    hide Accepts, Compiled, Rewrite, Reports, InOrder, HasName, Refuses;
    var resolved := RequireConnectorPayload(a, payload, registry);
    match resolved {
      case Err(refusal) => posted := Err(refusal);
      case Ok(normalized) =>
        if a == DeleteOutput {
          posted := Ok(normalized);
        } else {
          var forwarded := TransformConnectorRequest(a, Some(normalized));
          posted := Ok(forwarded.value);
        }
    }
  }

  /**
    What an accepted payload is previewed as is what the confirmed call posts, and
    confirming the previewed payload instead posts it too.  An output is posted just
    as it was compiled: the rewrite it went through already has nothing left to do.
   */
  lemma PreviewIsCommit(a: Action, p: Fields, registry: set<string>)
    requires Accepts(a, Some(p), registry)
    ensures var resolved := Compiled(a, p);
      && Posted(a, resolved) == Rewrite(a, resolved)
      && Accepts(a, Some(resolved), registry) && Posted(a, Compiled(a, resolved)) == Posted(a, resolved)
      && (IsOutputAction(a) ==> Posted(a, resolved) == resolved)
  {
    hide Compiled, Rewrite, Accepts, IsOutputAction;
    CompilationIsFixedPoint(a, p, registry);
    assert Posted(a, Compiled(a, p)) == Rewrite(a, Compiled(a, p)) by {
      if a == DeleteOutput { DeleteOutputIsRejected(Some(p), registry); }
    }
    if IsOutputAction(a) {
      CompiledOutputIsRewritten(a, p);
    }
  }

  lemma CompiledOutputIsRewritten(a: Action, p: Fields)
    requires IsOutputAction(a)
    ensures Rewrite(a, Compiled(a, p)) == Compiled(a, p)
  {
    hide Rewrite, WithEntries, WithName;
    RewriteTwice(a, WithEntries(WithName(p, "connectorName", AliasOf(a))));
  }

  /** The name of an output to delete is dropped before the check that requires it. */
  lemma DeleteOutputIsRejected(payload: Option<Fields>, registry: set<string>)
    ensures !Accepts(DeleteOutput, payload, registry)
  {
    hide Compiled, HasName;
    if payload.Some? && HasName(DeleteOutput, payload.value) {
      CompiledNonempty(DeleteOutput, payload.value);
      DeletedOutputUnnamed(payload.value);
    }
  }

  lemma DeletedOutputUnnamed(p: Fields)
    ensures !HasIdentifier(DeleteOutput, Compiled(DeleteOutput, p))
  {
    hide Rewrite, WithEntries, WithName;
    NamesConserved(DeleteOutput, WithEntries(WithName(p, "connectorName", "outputName")));
    assert !IsText(Null) by { NullIsNoText(); }
  }

  /**
    A previewed payload can be submitted as it is forwarded, and is accepted again, exactly
    when it is no definition of a modbus input: the settings of one are no longer where the
    check looks for them.
   */
  lemma ForwardedExactly(a: Action, p: Fields, registry: set<string>)
    requires Accepts(a, Some(p), registry)
    ensures Accepts(a, Some(Rewrite(a, Compiled(a, p))), registry) <==> !(IsInputDefinition(a) && IsModbus(Compiled(a, p)))
  {
    hide Compiled, Rewrite, Accepts, IsModbus;
    if IsInputDefinition(a) && IsModbus(Compiled(a, p)) {
      ForwardedInputIsRejected(a, p, registry);
    } else if IsInputAction(a) {
      ForwardedInputIsAccepted(a, p, registry);
    } else if IsOutputAction(a) {
      PreviewIsCommit(a, p, registry);
      CompiledOutputIsRewritten(a, p);
    } else {
      ForwardedOtherIsAccepted(a, p, registry);
    }
  }

  /** The other inputs: the name is kept under the alias, and the check asks for no more than the service. */
  lemma ForwardedInputIsAccepted(a: Action, p: Fields, registry: set<string>)
    requires IsInputAction(a) && Accepts(a, Some(p), registry)
    requires IsInputDefinition(a) ==> !IsModbus(Compiled(a, p))
    ensures Accepts(a, Some(Rewrite(a, Compiled(a, p))), registry)
  {
    hide Rewrite, Acceptable, WithName, WithEntries, NameOf, NameSettled, EntriesSettled, IsModbus, Same;
    assert HasName(a, p) && Acceptable(a, Compiled(a, p), registry) && AliasOf(a) == "inputName";
    var q := Compiled(a, p);
    UnnestedTwice(a, p);
    CompiledNonempty(a, p);
    var forwarded := Rewrite(a, q);
    ForwardedName(a, q);
    NamedFromAlias(forwarded, "connectorName", "inputName");
    var named := WithName(forwarded, "connectorName", "inputName");
    if a == DeleteInput {
      EntriesKeepField(named, "inputName");
      DeletedInputIsAccepted(WithEntries(named), registry);
    } else {
      ForwardedKeepsService(a, q);
      WithNameKeeps(forwarded, "connectorName", "inputName", "serviceName");
      SameTwice(q, forwarded, named, "serviceName");
      SameServiceAccepted(a, q, named, registry);
      NormalizeAndCheckCommute(a, forwarded, registry);
    }
  }

  lemma ForwardedName(a: Action, q: Fields)
    requires IsInputAction(a) && NameSettled(q, "connectorName", "inputName")
    ensures "connectorName" !in Rewrite(a, q) && IsText(Field(Rewrite(a, q), "inputName"))
  {
    hide Rewrite, IsText, Strip;
    NamesConserved(a, q);
  }

  lemma NamedFromAlias(f: Fields, key: string, alias: string)
    requires key !in f && key != alias && alias != "" && IsText(Field(f, alias))
    ensures f != map[] && NameOf(f, key, alias) != "" && IsText(Field(WithName(f, key, alias), alias))
  {
    NullIsNoText();
    NameFromAlias(f, key, alias);
    hide IsText, NameOf, WithName;
  }

  lemma EntriesKeepField(p: Fields, key: string)
    requires key != "propertyMapList" && IsText(Field(p, key))
    ensures IsText(Field(WithEntries(p), key))
  {
    hide WithEntries, IsText;
    WithEntriesKeeps(p, key);
  }

  lemma DeletedInputIsAccepted(q: Fields, registry: set<string>)
    requires IsText(Field(q, "inputName"))
    ensures Acceptable(DeleteInput, q, registry)
  {
    hide IsText;
  }

  lemma ForwardedKeepsService(a: Action, q: Fields)
    requires IsInputDefinition(a) && !IsModbus(q)
    ensures Same(q, Rewrite(a, q), "serviceName")
  {
    hide Named, IsModbus;
    NamedKeeps(a, q, "serviceName");
  }

  /** Without a modbus service the check depends on the service alone. */
  lemma SameServiceAccepted(a: Action, q: Fields, r: Fields, registry: set<string>)
    requires IsInputDefinition(a) && Acceptable(a, q, registry) && q != map[] && !IsModbus(q) && Same(q, r, "serviceName")
    ensures Acceptable(a, r, registry)
  {
    assert ServiceOf(q) != "modbus" && ServiceOf(r) == ServiceOf(q);
    hide ServiceOf, RequiredPresent, ModbusInputOk, IsText;
  }

  /** The remaining actions keep `connectorName`, and the check asks a listing for nothing. */
  lemma ForwardedOtherIsAccepted(a: Action, p: Fields, registry: set<string>)
    requires !IsInputAction(a) && !IsOutputAction(a) && Accepts(a, Some(p), registry)
    ensures Accepts(a, Some(Rewrite(a, Compiled(a, p))), registry)
  {
    hide Compiled, Accepts;
    CompilationIsFixedPoint(a, p, registry);
    if a == ListInputs || a == DescribeInputs {
      ListingIsAccepted(a, Compiled(a, p), registry);
    }
  }

  lemma ListingIsAccepted(a: Action, q: Fields, registry: set<string>)
    requires (a == ListInputs || a == DescribeInputs) && Accepts(a, Some(q), registry)
    ensures Accepts(a, Some(WithFilters(q)), registry)
  {
    hide WithFilters, Compiled, Acceptable, NameOf;
    FiltersKeepName(q);
    SameName(q, WithFilters(q), "connectorName");
    ListingIsAcceptable(a, Compiled(a, WithFilters(q)), registry);
  }

  lemma SameName(q: Fields, r: Fields, key: string)
    requires Same(q, r, key) && NameOf(q, key, "") != ""
    ensures NameOf(r, key, "") != "" && r != map[]
  {
    NullIsNoText();
    hide IsText, Strip;
  }

  lemma ListingIsAcceptable(a: Action, q: Fields, registry: set<string>)
    requires a == ListInputs || a == DescribeInputs
    ensures Acceptable(a, q, registry)
  {
    hide IsText, RequiredPresent, ModbusInputOk, ServiceOf;
  }

  lemma FiltersKeepName(q: Fields)
    ensures Same(q, WithFilters(q), "connectorName")
  {
  }

  lemma ForwardedInputIsRejected(a: Action, p: Fields, registry: set<string>)
    requires IsInputDefinition(a) && Accepts(a, Some(p), registry) && IsModbus(Compiled(a, p))
    ensures !Accepts(a, Some(Rewrite(a, Compiled(a, p))), registry)
  {
    hide Compiled, Rewrite, Accepts;
    ProtocolIsNested(a, Compiled(a, p));
    UnprotocolledIsRejected(a, Compiled(a, p), Rewrite(a, Compiled(a, p)), registry);
  }

  lemma ProtocolIsNested(a: Action, q: Fields)
    requires Nests(a, q)
    ensures "modbusProtocol" !in Rewrite(a, q) && Same(q, Rewrite(a, q), "serviceName")
  {
    hide Rewrite, Nests;
    assert !StaysAtTop("modbusProtocol") && StaysAtTop("serviceName");
    NestingConserves(a, q, "modbusProtocol");
    NestingConserves(a, q, "serviceName");
  }

  lemma UnprotocolledIsRejected(a: Action, q: Fields, forwarded: Fields, registry: set<string>)
    requires IsInputDefinition(a) && IsModbus(q) && Same(q, forwarded, "serviceName") && "modbusProtocol" !in forwarded
    ensures !Accepts(a, Some(forwarded), registry)
  {
    hide Acceptable, Same, HasName, IsModbus;
    NormalizeAndCheckCommute(a, forwarded, registry);
    var named := WithName(forwarded, "connectorName", "inputName");
    WithNameKeeps(forwarded, "connectorName", "inputName", "modbusProtocol");
    WithNameKeeps(forwarded, "connectorName", "inputName", "serviceName");
    hide WithName;
    SameTwice(q, forwarded, named, "serviceName");
    SameService(q, named);
    ProtocolIsRequired(a, named, forwarded, registry);
  }

  lemma SameTwice(q: Fields, r: Fields, s: Fields, key: string)
    requires Same(q, r, key) && Same(r, s, key)
    ensures Same(q, s, key)
  {
  }

  lemma ProtocolIsRequired(a: Action, named: Fields, forwarded: Fields, registry: set<string>)
    requires IsInputDefinition(a) && IsModbus(named) && "modbusProtocol" !in forwarded && Same(forwarded, named, "modbusProtocol")
    ensures !Acceptable(a, named, registry)
  {
    assert !IsText(Null) by { NullIsNoText(); }
    assert IsText(Field(named, "serviceName")) && ServiceOf(named) == "modbus";
    hide IsText, ServiceOf, RequiredPresent;
  }

  // --------------------------------------------------------------------- the preflight

  /** One result of `validate_connector_payloads`: what an item would be posted as, or None. */
  type Outcome = Option<Fields>

  predicate ItemAccepted(a: Action, item: Json, registry: set<string>) {
    item.Obj? && Accepts(a, Some(item.fields), registry)
  }

  /** How many of the first items are accepted. */
  function AcceptedCount(a: Action, items: seq<Json>, registry: set<string>): nat {
    if items == [] then 0
    else
      AcceptedCount(a, items[..|items| - 1], registry) +
        if ItemAccepted(a, items[|items| - 1], registry) then 1 else 0
  }

  /** A valid item is one that a confirmed call would pass, forwarded as that call would post it. */
  predicate OutcomeFits(a: Action, item: Json, registry: set<string>, outcome: Outcome) {
    if ItemAccepted(a, item, registry) then outcome == Some(Posted(a, Compiled(a, item.fields))) else outcome.None?
  }

  method CheckItem(a: Action, item: Json, registry: set<string>) returns (outcome: Outcome)
    ensures OutcomeFits(a, item, registry, outcome)
  {
    hide Accepts, Compiled, Rewrite, Reports, InOrder, HasName;
    if !item.Obj? {
      return None;
    }
    var resolved := RequireConnectorPayload(a, Some(item.fields), registry);
    if resolved.Err? {
      return None;
    }
    DeleteOutputIsRejected(Some(item.fields), registry);
    outcome := TransformConnectorRequest(a, Some(resolved.value));
  }

  /** The preflight of a batch, one outcome an item, and its counts. */
  method Preflight(a: Action, items: seq<Json>, registry: set<string>)
    returns (outcomes: seq<Outcome>, valid: nat, invalid: nat)
    ensures |outcomes| == |items| == valid + invalid
    ensures valid == AcceptedCount(a, items, registry)
    ensures forall i :: 0 <= i < |items| ==> OutcomeFits(a, items[i], registry, outcomes[i])
  {
    hide OutcomeFits, ItemAccepted;
    outcomes, valid, invalid := [], 0, 0;
    for n := 0 to |items|
      invariant |outcomes| == n == valid + invalid
      invariant valid == AcceptedCount(a, items[..n], registry)
      invariant forall i :: 0 <= i < n ==> OutcomeFits(a, items[i], registry, outcomes[i])
    {
      assert items[..n + 1][..n] == items[..n];
      var outcome := CheckItem(a, items[n], registry);
      FitsWhenAccepted(a, items[n], registry, outcome);
      outcomes := outcomes + [outcome];
      if outcome.None? {
        invalid := invalid + 1;
      } else {
        valid := valid + 1;
      }
    }
    assert items[..|items|] == items;
  }

  lemma FitsWhenAccepted(a: Action, item: Json, registry: set<string>, outcome: Outcome)
    requires OutcomeFits(a, item, registry, outcome)
    ensures outcome.Some? <==> ItemAccepted(a, item, registry)
  {
  }

  /** A batch is all valid exactly when every item on its own is. */
  lemma {:induction false} AllValidExactly(a: Action, items: seq<Json>, registry: set<string>)
    ensures AcceptedCount(a, items, registry) <= |items|
    ensures AcceptedCount(a, items, registry) == |items| <==>
      forall i :: 0 <= i < |items| ==> ItemAccepted(a, items[i], registry)
  {
    hide ItemAccepted;
    if items != [] {
      AllValidExactly(a, items[..|items| - 1], registry);
    }
  }
}
