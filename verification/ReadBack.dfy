/**
  Read-back after a write: `alter_input`, `configure_topic` and
  `alter_integration_table` poll the upstream's description of what they wrote
  until it shows the change or six seconds have passed.
 */
module ReadBack {
  import opened Prelude
  import opened PyText
  import opened JsonValue

  datatype Target = InputTarget | TopicTarget | TableTarget

  // ------------------------------------------------------------------ the records

  /** The objects of a list. */
  function Objects(items: seq<Json>): seq<Fields> {
    if items == [] then []
    else (if items[0].Obj? then [items[0].fields] else []) + Objects(items[1..])
  }

  function ObjectsAt(reply: Fields, key: string): seq<Fields> {
    var list := Field(reply, key);
    if list.Arr? then Objects(list.items) else []
  }

  function ListKey(t: Target): string {
    match t
    case InputTarget => "inputs"
    case TopicTarget => "topics"
    case TableTarget => "tables"
  }

  function NameKey(t: Target): string {
    match t
    case InputTarget => "inputName"
    case TopicTarget => "topic"
    case TableTarget => "tableName"
  }

  /** The records of a description: the objects under its list keys, or the reply itself. */
  function Records(t: Target, described: Json): seq<Fields> {
    match described
    case Arr(items) => Objects(items)
    case Obj(reply) =>
      var direct := ObjectsAt(reply, ListKey(t)) + ObjectsAt(reply, "results") + ObjectsAt(reply, "data") + ObjectsAt(reply, "items");
      if direct != [] then direct else [reply]
    case _ => []
  }

  predicate HasName(record: Fields, key: string, name: string) {
    Field(record, key).Str? && Strip(record[key].s) == name
  }

  /** The first record with the name, or else the first record. */
  function Matching(records: seq<Fields>, key: string, name: string): Option<Fields> {
    match FirstNamed(records, key, name)
    case Some(record) => Some(record)
    case None => if records != [] then Some(records[0]) else None
  }

  function FirstNamed(records: seq<Fields>, key: string, name: string): Option<Fields> {
    if records == [] then None
    else if HasName(records[0], key, name) then Some(records[0])
    else FirstNamed(records[1..], key, name)
  }

  predicate IsFirstNamed(records: seq<Fields>, key: string, name: string, i: nat) {
    i < |records| && HasName(records[i], key, name) && forall j :: 0 <= j < i ==> !HasName(records[j], key, name)
  }

  lemma {:induction false} FirstNamedExactly(records: seq<Fields>, key: string, name: string)
    ensures match FirstNamed(records, key, name)
      case None => forall i :: 0 <= i < |records| ==> !HasName(records[i], key, name)
      case Some(record) => exists i :: 0 <= i < |records| && records[i] == record && IsFirstNamed(records, key, name, i)
  {
    hide HasName;
    if records != [] && !HasName(records[0], key, name) {
      FirstNamedExactly(records[1..], key, name);
      var rest := records[1..];
      assert forall i :: 0 < i < |records| ==> records[i] == rest[i - 1];
      if FirstNamed(rest, key, name).Some? {
        var i :| 0 <= i < |rest| && rest[i] == FirstNamed(rest, key, name).value && IsFirstNamed(rest, key, name, i);
        assert records[i + 1] == rest[i] && IsFirstNamed(records, key, name, i + 1);
      }
    }
  }

  /**
    A name with space around it is compared with stripped names, so no record ever
    matches it and the first record stands in, whatever its name.
   */
  lemma PaddedNameMatchesNothing(records: seq<Fields>, key: string, name: string)
    requires Strip(name) != name
    ensures Matching(records, key, name) == if records != [] then Some(records[0]) else None
  {
    FirstNamedExactly(records, key, name);
    forall i | 0 <= i < |records| ensures !HasName(records[i], key, name) {
      if Field(records[i], key).Str? { StripTwice(records[i][key].s); }
    }
  }

  /** The record that is used bears the name exactly when some record does. */
  lemma MatchBearsNameExactly(records: seq<Fields>, key: string, name: string)
    requires records != []
    ensures Matching(records, key, name).Some?
    ensures HasName(Matching(records, key, name).value, key, name) <==>
      exists i :: 0 <= i < |records| && HasName(records[i], key, name)
  {
    hide HasName;
    FirstNamedExactly(records, key, name);
  }

  /** A description has a record of the name. */
  ghost predicate ShowsName(t: Target, described: Json, name: string) {
    exists i :: 0 <= i < |Records(t, described)| && HasName(Records(t, described)[i], NameKey(t), name)
  }

  /** Some description has a record of the name exactly when the name has no space around it. */
  lemma SomeReplyShowsNameExactly(t: Target, name: string)
    ensures (exists described :: ShowsName(t, described, name)) <==> Strip(name) == name
  {
    hide Strip;
    if described :| ShowsName(t, described, name) {
      var records := Records(t, described);
      var i :| 0 <= i < |records| && HasName(records[i], NameKey(t), name);
      StripTwice(records[i][NameKey(t)].s);
    }
    if Strip(name) == name {
      var record := map[NameKey(t) := Str(name)];
      OneRecord(t, record);
      assert HasName(Records(t, Arr([Obj(record)]))[0], NameKey(t), name);
      assert ShowsName(t, Arr([Obj(record)]), name);
    }
  }

  lemma OneRecord(t: Target, record: Fields)
    ensures Records(t, Arr([Obj(record)])) == [record]
  {
    var items := [Obj(record)];
    assert Objects(items[1..]) == [];
  }

  // ------------------------------------------------------------------ comparison

  predicate IsDecimal(s: string) {
    s != "" && forall i :: 0 <= i < |s| ==> '0' <= s[i] <= '9'
  }

  function DecimalValue(s: string): nat
    requires forall i :: 0 <= i < |s| ==> '0' <= s[i] <= '9'
  {
    if s == "" then 0 else 10 * DecimalValue(s[..|s| - 1]) + (s[|s| - 1] as int - '0' as int)
  }

  predicate SaysTrue(t: Target, word: string) {
    word in {"true", "yes", "on", "enabled"} || (t != TopicTarget && word in {"running", "active"})
  }

  predicate SaysFalse(t: Target, word: string) {
    word in {"false", "no", "off", "disabled"} || (t != TopicTarget && word in {"stopped", "inactive"})
  }

  function CoerceComparable(t: Target, v: Json): Json {
    match v
    case Str(s) =>
      var stripped := Strip(s);
      if SaysTrue(t, Lower(stripped)) then Bool(true)
      else if SaysFalse(t, Lower(stripped)) then Bool(false)
      else if IsDecimal(stripped) then Int(DecimalValue(stripped))
      else Str(stripped)
    case _ => WholeToInt(v)
  }

  predicate Agrees(t: Target, observed: Json, expected: Json) {
    PyEq(CoerceComparable(t, observed), CoerceComparable(t, expected))
  }

  /** Where a record shows a field: inputs may have it in their settings. */
  function Observed(t: Target, record: Fields, key: string): Option<Json> {
    if key in record then Some(record[key])
    else if t == InputTarget && key in FieldsOf(Field(record, "settings")) then Some(FieldsOf(Field(record, "settings"))[key])
    else None
  }

  /** A digit string is no word. */
  lemma DecimalIsNoWord(t: Target, s: string)
    requires IsDecimal(s)
    ensures !SaysTrue(t, Lower(s)) && !SaysFalse(t, Lower(s))
  {
    assert '0' <= s[0] <= '9';
    assert Lower(s)[0] == s[0];
  }

  /** A shown text agrees with true exactly when it is one of the words for it or the number 1, for true equals 1. */
  lemma TrueAgreesExactly(t: Target, s: string)
    ensures Agrees(t, Str(s), Bool(true)) <==>
      SaysTrue(t, Lower(Strip(s))) || (IsDecimal(Strip(s)) && DecimalValue(Strip(s)) == 1)
  {
    hide Strip, SaysTrue, SaysFalse, IsDecimal;
    if IsDecimal(Strip(s)) { DecimalIsNoWord(t, Strip(s)); }
    assert WholeToInt(Bool(true)) == Bool(true);
    WordsExclude(t, Lower(Strip(s)));
  }

  lemma WordsExclude(t: Target, word: string)
    ensures !(SaysTrue(t, word) && SaysFalse(t, word))
  {
  }

  // ---------------------------------------------------------------- what is checked

  /** The identity that is looked up and the fields that were asked for. */
  datatype Check = Check(target: Target, name: string, keys: seq<string>, resolved: Fields)

  datatype SkipReason = MissingIdentity | NoVerifiableFields

  datatype Plan = Skipped(reason: SkipReason) | Verify(check: Check)

  function VerifiableKeys(t: Target): seq<string> {
    match t
    case InputTarget => ["dataCollectionIntervalMilliseconds", "enabled", "description", "tableName", "transformName"]
    case TopicTarget => ["tableName", "databaseName", "transformName", "downgradeQoS", "maxDeliveryRatePerSecond"]
    case TableTarget => ["disableTransformSteps", "logTransformOverwrites", "retentionPolicy", "retentionPeriod", "retentionUnit"]
  }

  /** The keys of the list that are in the payload, in the list's order. */
  function Requested(keys: seq<string>, resolved: Fields): (requested: seq<string>)
    ensures forall key :: key in requested <==> key in keys && key in resolved
  {
    if keys == [] then []
    else (if keys[0] in resolved then [keys[0]] else []) + Requested(keys[1..], resolved)
  }

  /** The strings of a list, or the strings under a key of its objects. */
  function Texts(v: Json): set<string> {
    if v.Arr? then set i | 0 <= i < |v.items| && v.items[i].Str? :: v.items[i].s else {}
  }

  function TextsUnder(v: Json, key: string): set<string> {
    if v.Arr? then
      set i | 0 <= i < |v.items| && v.items[i].Obj? && Field(v.items[i].fields, key).Str? :: v.items[i].fields[key].s
    else {}
  }

  function AddedFields(p: Fields): set<string> { TextsUnder(Field(p, "addFields"), "name") }
  function DeletedFields(p: Fields): set<string> { Texts(Field(p, "deleteFields")) }
  function WantedCode(p: Fields): set<string> { TextsUnder(Field(p, "transformSteps"), "codeName") }
  predicate Renames(p: Fields) { IsText(Field(p, "newTableName")) }

  function PlanFor(t: Target, p: Fields): Plan {
    var keys := Requested(VerifiableKeys(t), p);
    match t
    case InputTarget =>
      if IsText(Field(p, "inputName")) then PlanNamed(t, p["inputName"].s, keys, p)
      else if IsText(Field(p, "connectorName")) then PlanNamed(t, Strip(p["connectorName"].s), keys, p)
      else Skipped(MissingIdentity)
    case TopicTarget =>
      if IsText(Field(p, "topic")) then PlanNamed(t, p["topic"].s, keys, p) else Skipped(MissingIdentity)
    case TableTarget =>
      if !IsText(Field(p, "tableName")) then Skipped(MissingIdentity)
      else if keys == [] && AddedFields(p) == {} && DeletedFields(p) == {} && WantedCode(p) == {} && !Renames(p) then
        Skipped(NoVerifiableFields)
      else
        Verify(Check(t, if Renames(p) then Strip(p["newTableName"].s) else p["tableName"].s, keys, p))
  }

  function PlanNamed(t: Target, name: string, keys: seq<string>, p: Fields): Plan {
    if keys == [] then Skipped(NoVerifiableFields) else Verify(Check(t, name, keys, p))
  }

  // -------------------------------------------------------------------- one record

  datatype Judgement =
    | Verified(fields: seq<string>)
    | NoRecord
    | NotObservable
    | NotApplied(mismatches: seq<string>)

  predicate Exposed(c: Check, record: Fields, key: string) {
    Observed(c.target, record, key).Some?
  }

  predicate Mismatched(c: Check, record: Fields, key: string) {
    Exposed(c, record, key) && !Agrees(c.target, Observed(c.target, record, key).value, Field(c.resolved, key))
  }

  /** The keys that satisfy `p`, in order. */
  function KeysWhere(keys: seq<string>, p: string -> bool): (r: seq<string>)
    ensures forall key :: key in r <==> key in keys && p(key)
  {
    if keys == [] then []
    else
      var front := keys[..|keys| - 1];
      KeysWhere(front, p) + (if p(keys[|front|]) then [keys[|front|]] else [])
  }

  lemma NoKeys(keys: seq<string>, p: string -> bool)
    requires keys == []
    ensures KeysWhere(keys, p) == []
  {
  }

  lemma OneMoreKey(keys: seq<string>, i: nat, p: string -> bool)
    requires i < |keys|
    ensures KeysWhere(keys[..i + 1], p) == KeysWhere(keys[..i], p) + (if p(keys[i]) then [keys[i]] else [])
  {
    assert keys[..i + 1][..i] == keys[..i];
  }

  function ExposedKeys(c: Check, record: Fields): seq<string> {
    KeysWhere(c.keys, key => Exposed(c, record, key))
  }

  function MismatchedKeys(c: Check, record: Fields): seq<string> {
    KeysWhere(c.keys, key => Mismatched(c, record, key))
  }

  predicate RenameMissed(c: Check, record: Fields) {
    Renames(c.resolved) && Field(record, "tableName") != Str(c.name)
  }

  predicate FieldsMissing(c: Check, record: Fields) {
    AddedFields(c.resolved) - TextsUnder(Field(record, "fields"), "name") != {}
  }

  predicate FieldsLeft(c: Check, record: Fields) {
    DeletedFields(c.resolved) * TextsUnder(Field(record, "fields"), "name") != {}
  }

  predicate CodeMissing(c: Check, record: Fields) {
    WantedCode(c.resolved) - TextsUnder(Field(record, "transformSteps"), "codeName") != {}
  }

  function Noted(mismatches: seq<string>, missed: bool, part: string): seq<string> {
    if missed then mismatches + [part] else mismatches
  }

  /** The parts of a table change that the record does not show. */
  function TableMismatches(c: Check, record: Fields): seq<string> {
    var named := Noted([], RenameMissed(c, record), "newTableName") + MismatchedKeys(c, record);
    var added := Noted(named, FieldsMissing(c, record), "addFields");
    var deleted := Noted(added, FieldsLeft(c, record), "deleteFields");
    Noted(deleted, CodeMissing(c, record), "transformSteps")
  }

  function JudgeRecord(c: Check, record: Fields): Judgement {
    if c.target == TableTarget then
      if TableMismatches(c, record) == [] then Verified([]) else NotApplied(TableMismatches(c, record))
    else if ExposedKeys(c, record) == [] then NotObservable
    else if MismatchedKeys(c, record) == [] then Verified(ExposedKeys(c, record))
    else NotApplied(MismatchedKeys(c, record))
  }

  function Judge(c: Check, described: Json): Judgement {
    match Matching(Records(c.target, described), NameKey(c.target), c.name)
    case None => NoRecord
    case Some(record) => JudgeRecord(c, record)
  }

  /** The comparison of the requested fields with a record, as the loop collects it. */
  method CompareFields(c: Check, record: Fields) returns (comparable: seq<string>, mismatches: seq<string>)
    ensures comparable == ExposedKeys(c, record)
    ensures mismatches == MismatchedKeys(c, record)
  {
    hide Observed, Agrees, KeysWhere;
    ghost var exposed := (key: string) => Exposed(c, record, key);
    ghost var mismatched := (key: string) => Mismatched(c, record, key);
    NoKeys([], exposed);
    NoKeys([], mismatched);
    comparable, mismatches := [], [];
    for i := 0 to |c.keys|
      invariant comparable == KeysWhere(c.keys[..i], exposed)
      invariant mismatches == KeysWhere(c.keys[..i], mismatched)
    {
      OneMoreKey(c.keys, i, exposed);
      OneMoreKey(c.keys, i, mismatched);
      var observed := Observed(c.target, record, c.keys[i]);
      if observed.None? {
        continue;
      }
      comparable := comparable + [c.keys[i]];
      if !Agrees(c.target, observed.value, Field(c.resolved, c.keys[i])) {
        mismatches := mismatches + [c.keys[i]];
      }
    }
    assert c.keys[..|c.keys|] == c.keys;
  }

  method JudgeReply(c: Check, described: Json) returns (j: Judgement)
    ensures j == Judge(c, described)
  {
    hide Records, Matching, ExposedKeys, MismatchedKeys, TableMismatches;
    var record := Matching(Records(c.target, described), NameKey(c.target), c.name);
    if record.None? {
      return NoRecord;
    }
    var comparable, mismatches := CompareFields(c, record.value);
    if c.target == TableTarget {
      j := JudgeTable(c, record.value, mismatches);
    } else if comparable != [] && mismatches == [] {
      j := Verified(comparable);
    } else if comparable != [] {
      j := NotApplied(mismatches);
    } else {
      j := NotObservable;
    }
  }

  method JudgeTable(c: Check, record: Fields, scalars: seq<string>) returns (j: Judgement)
    requires c.target == TableTarget && scalars == MismatchedKeys(c, record)
    ensures j == JudgeRecord(c, record)
  {
    hide MismatchedKeys, RenameMissed, FieldsMissing, FieldsLeft, CodeMissing;
    var mismatches: seq<string> := [];
    if RenameMissed(c, record) {
      mismatches := mismatches + ["newTableName"];
    }
    mismatches := mismatches + scalars;
    if FieldsMissing(c, record) {
      mismatches := mismatches + ["addFields"];
    }
    if FieldsLeft(c, record) {
      mismatches := mismatches + ["deleteFields"];
    }
    if CodeMissing(c, record) {
      mismatches := mismatches + ["transformSteps"];
    }
    j := if mismatches == [] then Verified([]) else NotApplied(mismatches);
  }

  /** A record verifies an input or a topic exactly when it shows a requested field and every one it shows agrees. */
  lemma VerifiedExactly(c: Check, described: Json)
    requires c.target != TableTarget
    ensures Judge(c, described).Verified? <==>
      var record := Matching(Records(c.target, described), NameKey(c.target), c.name);
      && record.Some?
      && (exists key :: key in c.keys && Exposed(c, record.value, key))
      && (forall key :: key in c.keys && Exposed(c, record.value, key) ==>
            Agrees(c.target, Observed(c.target, record.value, key).value, Field(c.resolved, key)))
  {
    hide Records, Matching, Observed, Agrees;
    var found := Matching(Records(c.target, described), NameKey(c.target), c.name);
    if found.Some? {
      var record := found.value;
      var exposed, mismatched := ExposedKeys(c, record), MismatchedKeys(c, record);
      if exposed != [] { assert exposed[0] in exposed; }
      if mismatched != [] { assert mismatched[0] in mismatched; }
    }
  }

  /** A scalar field that the record shows with another value. */
  predicate ScalarMissed(c: Check, record: Fields, key: string) {
    key in c.keys && key in record && !Agrees(c.target, record[key], Field(c.resolved, key))
  }

  /** What a record may not show for a table change; a scalar field that it does not show counts as met. */
  ghost predicate Contradicts(c: Check, record: Fields) {
    || RenameMissed(c, record)
    || (exists key :: ScalarMissed(c, record, key))
    || !(AddedFields(c.resolved) <= TextsUnder(Field(record, "fields"), "name"))
    || !(DeletedFields(c.resolved) !! TextsUnder(Field(record, "fields"), "name"))
    || !(WantedCode(c.resolved) <= TextsUnder(Field(record, "transformSteps"), "codeName"))
  }

  lemma ScalarsMissedExactly(c: Check, record: Fields)
    requires c.target == TableTarget
    ensures MismatchedKeys(c, record) != [] <==> exists key :: ScalarMissed(c, record, key)
  {
    hide Agrees;
    var mismatched := MismatchedKeys(c, record);
    if mismatched != [] {
      assert mismatched[0] in mismatched && ScalarMissed(c, record, mismatched[0]);
    }
    assert forall key :: ScalarMissed(c, record, key) ==> key in mismatched;
  }

  lemma PartsMissedExactly(c: Check, record: Fields)
    ensures FieldsMissing(c, record) <==> !(AddedFields(c.resolved) <= TextsUnder(Field(record, "fields"), "name"))
    ensures FieldsLeft(c, record) <==> !(DeletedFields(c.resolved) !! TextsUnder(Field(record, "fields"), "name"))
    ensures CodeMissing(c, record) <==> !(WantedCode(c.resolved) <= TextsUnder(Field(record, "transformSteps"), "codeName"))
  {
    hide TextsUnder, Texts, AddedFields, DeletedFields, WantedCode;
    Differences(AddedFields(c.resolved), TextsUnder(Field(record, "fields"), "name"));
    Differences(DeletedFields(c.resolved), TextsUnder(Field(record, "fields"), "name"));
    Differences(WantedCode(c.resolved), TextsUnder(Field(record, "transformSteps"), "codeName"));
  }

  lemma Differences(wanted: set<string>, shown: set<string>)
    ensures wanted - shown != {} <==> !(wanted <= shown)
    ensures wanted * shown != {} <==> !(wanted !! shown)
  {
    if !(wanted <= shown) {
      var x :| x in wanted && x !in shown;
      assert x in wanted - shown;
    }
    if x :| x in wanted && x in shown {
      assert x in wanted * shown;
    }
  }

  lemma NothingMissedExactly(c: Check, record: Fields)
    requires c.target == TableTarget
    ensures TableMismatches(c, record) == [] <==> !Contradicts(c, record)
  {
    hide MismatchedKeys, ScalarMissed, TextsUnder, RenameMissed, FieldsMissing, FieldsLeft, CodeMissing, AddedFields, DeletedFields, WantedCode;
    ScalarsMissedExactly(c, record);
    PartsMissedExactly(c, record);
  }

  /** A record verifies a table exactly when it contradicts nothing that was asked. */
  lemma TableVerifiedExactly(c: Check, described: Json)
    requires c.target == TableTarget
    ensures Judge(c, described).Verified? <==>
      var record := Matching(Records(c.target, described), NameKey(c.target), c.name);
      record.Some? && !Contradicts(c, record.value)
  {
    hide Records, Matching, Contradicts, TableMismatches;
    var record := Matching(Records(c.target, described), NameKey(c.target), c.name);
    if record.Some? {
      NothingMissedExactly(c, record.value);
    }
  }

  /** Asked for scalar fields alone, a record that shows none of them verifies the change, whatever it is. */
  lemma UnseenScalarsAreAccepted(c: Check, described: Json, record: Fields)
    requires c.target == TableTarget
    requires AddedFields(c.resolved) == {} && DeletedFields(c.resolved) == {} && WantedCode(c.resolved) == {}
    requires !Renames(c.resolved)
    requires Matching(Records(c.target, described), NameKey(c.target), c.name) == Some(record)
    requires forall key :: key in c.keys ==> key !in record
    ensures Judge(c, described).Verified?
  {
    hide Records, Matching, Agrees, TextsUnder, Texts;
    TableVerifiedExactly(c, described);
    assert !Contradicts(c, record);
  }

  /** A description whose records all bear another name, and which verifies the write. */
  ghost predicate VerifiedByOther(c: Check, described: Json, other: string) {
    && Judge(c, described).Verified?
    && forall record :: record in Records(c.target, described) ==> Field(record, NameKey(c.target)) == Str(other)
  }

  /**
    A record of another name can verify a write, whatever the two names are, of every input
    and topic, and of every table unless it is renamed or a field is both added and deleted.
   */
  lemma VerifiedByOtherExactly(t: Target, p: Fields, c: Check, other: string)
    requires PlanFor(t, p) == Verify(c) && Strip(other) != c.name
    ensures (exists described :: VerifiedByOther(c, described, other)) <==>
      t != TableTarget || (!Renames(p) && AddedFields(p) !! DeletedFields(p))
  {
    hide PlanFor, Judge, Renames, AddedFields, DeletedFields, Strip;
    PlanIsFor(t, p, c);
    if described :| VerifiedByOther(c, described, other) {
      if t == TableTarget { OtherTableIsCompatible(p, c, described, other); }
    }
    if t != TableTarget {
      OtherRecordVerifies(t, p, c, other);
    } else if !Renames(p) && AddedFields(p) !! DeletedFields(p) {
      OtherTableVerifies(p, c, other);
    }
  }

  lemma PlanIsFor(t: Target, p: Fields, c: Check)
    requires PlanFor(t, p) == Verify(c)
    ensures c.target == t && c.resolved == p && c.keys == Requested(VerifiableKeys(t), p)
    ensures t != TableTarget ==> c.keys != []
    ensures t == TableTarget && Renames(p) ==> Strip(c.name) == c.name
  {
    hide Strip, AddedFields, DeletedFields, WantedCode;
    if t == TableTarget && Renames(p) { StripTwice(p["newTableName"].s); }
  }

  lemma NamesAreNotVerified(t: Target)
    ensures NameKey(t) !in VerifiableKeys(t)
    ensures t == TableTarget ==> "fields" !in VerifiableKeys(t) && "transformSteps" !in VerifiableKeys(t)
  {
  }

  /** The description of an input or topic of another name that shows what was asked. */
  lemma OtherRecordVerifies(t: Target, p: Fields, c: Check, other: string)
    requires t != TableTarget && c.target == t && c.resolved == p && c.keys == Requested(VerifiableKeys(t), p) && c.keys != []
    ensures exists described :: VerifiedByOther(c, described, other)
  {
    hide Judge, Records, Matching, Agrees, NameKey, VerifiableKeys, Requested;
    NamesAreNotVerified(t);
    var record := (map key | key in p && key in VerifiableKeys(t) :: p[key])[NameKey(t) := Str(other)];
    var described := Arr([Obj(record)]);
    OneRecord(t, record);
    OnlyMatch(record, NameKey(t), c.name);
    forall key | key in c.keys ensures Exposed(c, record, key) && Agrees(t, Observed(t, record, key).value, Field(p, key)) {
      assert record[key] == p[key];
      AgreesWithItself(t, p[key]);
    }
    assert c.keys[0] in c.keys;
    VerifiedExactly(c, described);
    assert VerifiedByOther(c, described, other);
  }

  lemma OnlyMatch(record: Fields, key: string, name: string)
    ensures Matching([record], key, name) == Some(record)
  {
    hide HasName;
    assert FirstNamed([record][1..], key, name).None?;
  }

  lemma AgreesWithItself(t: Target, v: Json)
    ensures Agrees(t, v, v)
  {
    hide Canon, CoerceComparable;
  }

  /** The description of a table of another name that shows the added fields and the code. */
  lemma OtherTableVerifies(p: Fields, c: Check, other: string)
    requires c.target == TableTarget && c.resolved == p && c.keys == Requested(VerifiableKeys(TableTarget), p)
    requires !Renames(p) && AddedFields(p) !! DeletedFields(p)
    ensures exists described :: VerifiedByOther(c, described, other)
  {
    hide Judge, Records, Matching, Agrees, VerifiableKeys, Requested, TextsUnder, Texts, Renames;
    NamesAreNotVerified(TableTarget);
    var record := map["tableName" := Str(other), "fields" := Field(p, "addFields"), "transformSteps" := Field(p, "transformSteps")];
    var described := Arr([Obj(record)]);
    OneRecord(TableTarget, record);
    OnlyMatch(record, "tableName", c.name);
    TableVerifiedExactly(c, described);
    assert !Contradicts(c, record);
    assert VerifiedByOther(c, described, other);
  }

  /** A table of another name that verifies contradicts neither the name nor the fields. */
  lemma OtherTableIsCompatible(p: Fields, c: Check, described: Json, other: string)
    requires c.target == TableTarget && c.resolved == p && VerifiedByOther(c, described, other)
    requires Renames(p) ==> Strip(c.name) == c.name
    requires Strip(other) != c.name
    ensures !Renames(p) && AddedFields(p) !! DeletedFields(p)
  {
    hide Judge, Records, Matching, Agrees, TextsUnder, Texts, Renames, Strip, ScalarMissed;
    TableVerifiedExactly(c, described);
    var records := Records(c.target, described);
    MatchIsARecord(records, "tableName", c.name);
  }

  lemma MatchIsARecord(records: seq<Fields>, key: string, name: string)
    ensures Matching(records, key, name).Some? ==> Matching(records, key, name).value in records
  {
    hide HasName;
    FirstNamedExactly(records, key, name);
  }

  // ---------------------------------------------------------------------- the loop

  /** A describe call raises, or returns a description. */
  datatype Reply = Raised | Described(value: Json)

  const TIMEOUT: int := 6000
  const INTERVAL: int := 300
  const MAX_ATTEMPTS: nat := 21

  function Deadline(start: int): int { start + TIMEOUT }

  datatype Report = Report(reason: Judgement, mismatches: seq<string>)

  datatype PollEnd = Confirmed(fields: seq<string>) | TimedOut(report: Report) | DescribeFailed

  /** The clock readings, in milliseconds: none before the start, and each sleep lasts at least its time. */
  ghost predicate IsClock(clock: nat -> int, start: int) {
    clock(0) >= start && forall k: nat :: Slept(clock, k)
  }

  predicate Slept(clock: nat -> int, k: nat) {
    clock(k + 1) >= clock(k) + INTERVAL
  }

  /** What the error of a timeout reports after n polls: the last record seen decides, the last mismatches stay. */
  function ReportAfter(c: Check, replies: nat -> Reply, n: nat): Report {
    if n == 0 then Report(NoRecord, [])
    else
      var before := ReportAfter(c, replies, n - 1);
      match replies(n - 1)
      case Raised => before
      case Described(value) =>
        match Judge(c, value)
        case NoRecord => before
        case Verified(_) => before
        case NotObservable => Report(NotObservable, before.mismatches)
        case NotApplied(mismatches) => Report(NotApplied(mismatches), mismatches)
  }

  /** The poll goes on after reply k. */
  predicate Undecided(c: Check, replies: nat -> Reply, clock: nat -> int, deadline: int, k: nat) {
    replies(k).Described? && !Judge(c, replies(k).value).Verified? && clock(k) < deadline
  }

  lemma {:induction false} ClockAdvances(clock: nat -> int, start: int, k: nat)
    requires IsClock(clock, start)
    ensures clock(k) >= start + k * INTERVAL
  {
    if k > 0 {
      ClockAdvances(clock, start, k - 1);
      assert Slept(clock, k - 1);
    }
  }

  /** Six seconds are over after at most 21 polls. */
  lemma DeadlinePasses(c: Check, replies: nat -> Reply, clock: nat -> int, start: int, k: nat)
    requires IsClock(clock, start) && Undecided(c, replies, clock, Deadline(start), k)
    ensures k + 1 < MAX_ATTEMPTS
  {
    hide Judge;
    ClockAdvances(clock, start, k);
  }

  /** How many polls there are, from poll k on; the bound is never what ends them. */
  function Polls(c: Check, replies: nat -> Reply, clock: nat -> int, deadline: int, k: nat): (n: nat)
    requires k < MAX_ATTEMPTS
    ensures k < n <= MAX_ATTEMPTS
    decreases MAX_ATTEMPTS - k
  {
    if Undecided(c, replies, clock, deadline, k) && k + 1 < MAX_ATTEMPTS then Polls(c, replies, clock, deadline, k + 1)
    else k + 1
  }

  /** How the poll ends, from the reply that ended it. */
  function EndAfter(c: Check, replies: nat -> Reply, n: nat): PollEnd
    requires n > 0
  {
    match replies(n - 1)
    case Raised => DescribeFailed
    case Described(value) =>
      if Judge(c, value).Verified? then Confirmed(Judge(c, value).fields) else TimedOut(ReportAfter(c, replies, n))
  }

  /** The first poll that decides, or is past the deadline, is the last. */
  lemma {:induction false} PollsStop(c: Check, replies: nat -> Reply, clock: nat -> int, start: int, k: nat)
    requires IsClock(clock, start) && k < MAX_ATTEMPTS
    ensures var n := Polls(c, replies, clock, Deadline(start), k);
      && (forall j: nat :: k <= j < n - 1 ==> Undecided(c, replies, clock, Deadline(start), j))
      && !Undecided(c, replies, clock, Deadline(start), n - 1)
    decreases MAX_ATTEMPTS - k
  {
    hide Undecided;
    if Undecided(c, replies, clock, Deadline(start), k) {
      DeadlinePasses(c, replies, clock, start, k);
      PollsStop(c, replies, clock, start, k + 1);
    }
  }

  /**
    Poll at least once, until a reply decides or the deadline has passed.  Whatever
    ends the poll, every earlier reply left it open.
   */
  method Poll(c: Check, replies: nat -> Reply, clock: nat -> int, start: int) returns (end: PollEnd, attempts: nat)
    requires IsClock(clock, start)
    ensures 1 <= attempts <= MAX_ATTEMPTS
    ensures forall k: nat :: k < attempts - 1 ==> Undecided(c, replies, clock, Deadline(start), k)
    ensures !Undecided(c, replies, clock, Deadline(start), attempts - 1)
    ensures attempts == Polls(c, replies, clock, Deadline(start), 0)
    ensures end == EndAfter(c, replies, attempts)
  {
    hide Judge, IsClock;
    var deadline := Deadline(start);
    attempts := 0;
    var report := Report(NoRecord, []);
    PollsStop(c, replies, clock, start, 0);
    while true
      invariant attempts < MAX_ATTEMPTS
      invariant forall k: nat :: k < attempts ==> Undecided(c, replies, clock, deadline, k)
      invariant Polls(c, replies, clock, deadline, 0) == Polls(c, replies, clock, deadline, attempts)
      invariant report == ReportAfter(c, replies, attempts)
      decreases MAX_ATTEMPTS - attempts
    {
      attempts := attempts + 1;
      var reply := replies(attempts - 1);
      if reply.Raised? {
        return DescribeFailed, attempts;
      }
      var judgement := JudgeReply(c, reply.value);
      match judgement {
        case Verified(fields) => return Confirmed(fields), attempts;
        case NoRecord =>
        case NotObservable => report := report.(reason := NotObservable);
        case NotApplied(mismatches) => report := Report(judgement, mismatches);
      }
      if clock(attempts - 1) >= deadline {
        return TimedOut(report), attempts;
      }
      DeadlinePasses(c, replies, clock, start, attempts - 1);
    }
  }

  /** A poll confirms only what the last description shows. */
  lemma ConfirmedMeans(c: Check, replies: nat -> Reply, n: nat)
    requires n > 0
    ensures EndAfter(c, replies, n).Confirmed? <==> replies(n - 1).Described? && Judge(c, replies(n - 1).value).Verified?
  {
    hide Judge;
  }

  datatype Outcome = Skip(reason: SkipReason) | Polled(end: PollEnd, attempts: nat)

  function OutcomeOf(t: Target, resolved: Fields, replies: nat -> Reply, clock: nat -> int, start: int): Outcome {
    match PlanFor(t, resolved)
    case Skipped(reason) => Skip(reason)
    case Verify(c) =>
      var n := Polls(c, replies, clock, Deadline(start), 0);
      Polled(EndAfter(c, replies, n), n)
  }

  /** Verification as a whole: nothing to look for is no failure. */
  method VerifyMutation(t: Target, resolved: Fields, replies: nat -> Reply, clock: nat -> int, start: int)
    returns (outcome: Outcome)
    requires IsClock(clock, start)
    ensures outcome == OutcomeOf(t, resolved, replies, clock, start)
  {
    hide PlanFor, Judge, EndAfter;
    var plan := PlanFor(t, resolved);
    match plan {
      case Skipped(reason) => outcome := Skip(reason);
      case Verify(c) =>
        var end, attempts := Poll(c, replies, clock, start);
        outcome := Polled(end, attempts);
    }
  }
}
