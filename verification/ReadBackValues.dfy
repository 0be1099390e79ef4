/**
  What the read-back compares: when a shown value agrees with a requested one, which
  records a description has, and what is looked for in them.
 */
module ReadBackValues {
  import opened Prelude
  import opened PyText
  import opened JsonValue
  import opened ReadBack

  // ------------------------------------------------------------- numbers as they are written

  /** `str(n)` */
  function Digits(n: nat): (s: string)
    ensures s != ""
  {
    if n < 10 then [('0' as int + n) as char] else Digits(n / 10) + [('0' as int + n % 10) as char]
  }

  function Zeros(k: nat): string { seq(k, _ => '0') }

  /** The number in decimal, zeros before it or not. */
  ghost predicate Spells(s: string, n: nat) {
    exists k: nat :: s == Zeros(k) + Digits(n)
  }

  lemma {:induction false} ZerosAreZero(k: nat)
    ensures DecimalValue(Zeros(k)) == 0
  {
    if k > 0 {
      ZerosAreZero(k - 1);
      assert Zeros(k)[..k - 1] == Zeros(k - 1);
    }
  }

  /** One digit more. */
  lemma NextDigit(front: string, d: nat)
    requires (forall i :: 0 <= i < |front| ==> '0' <= front[i] <= '9') && d < 10
    ensures var s := front + [('0' as int + d) as char];
      IsDecimal(s) && DecimalValue(s) == 10 * DecimalValue(front) + d
  {
    var s := front + [('0' as int + d) as char];
    assert s[..|s| - 1] == front;
  }

  lemma {:induction false} SpelledIsRead(k: nat, n: nat)
    ensures IsDecimal(Zeros(k) + Digits(n)) && DecimalValue(Zeros(k) + Digits(n)) == n
    decreases n
  {
    hide DecimalValue;
    if n < 10 {
      ZerosAreZero(k);
      NextDigit(Zeros(k), n);
    } else {
      SpelledIsRead(k, n / 10);
      NextDigit(Zeros(k) + Digits(n / 10), n % 10);
      assert Zeros(k) + Digits(n) == Zeros(k) + Digits(n / 10) + [('0' as int + n % 10) as char];
    }
  }

  lemma WriteAfterNumber(k: nat, m: nat, d: nat)
    requires m > 0 && d < 10
    ensures Zeros(k) + Digits(m) + [('0' as int + d) as char] == Zeros(k) + Digits(10 * m + d)
  {
    hide Zeros;
    assert Digits(10 * m + d) == Digits(m) + [('0' as int + d) as char];
  }

  lemma WriteAfterZeros(k: nat, d: nat)
    requires d < 10
    ensures Zeros(k) + Digits(0) + [('0' as int + d) as char] == Zeros(k + 1) + Digits(d)
  {
    assert Zeros(k) + Digits(0) == Zeros(k + 1);
  }

  lemma WriteAlone(d: nat)
    requires d < 10
    ensures Zeros(0) + Digits(d) == [('0' as int + d) as char]
  {
    assert Zeros(0) == [];
  }

  lemma {:induction false} ReadIsSpelled(s: string) returns (k: nat)
    requires IsDecimal(s)
    ensures s == Zeros(k) + Digits(DecimalValue(s))
    decreases |s|
  {
    hide DecimalValue, Digits, Zeros;
    var front := s[..|s| - 1];
    NoDigits();
    k := 0;
    if front != "" {
      k := ReadIsSpelled(front);
    }
    k := ReadNextDigit(s, front, k);
  }

  lemma ReadNextDigit(s: string, front: string, zeros: nat) returns (k: nat)
    requires IsDecimal(s) && front == s[..|s| - 1]
    requires front != "" ==> front == Zeros(zeros) + Digits(DecimalValue(front))
    requires front == "" ==> DecimalValue(front) == 0
    ensures s == Zeros(k) + Digits(DecimalValue(s))
  {
    hide DecimalValue, Digits, Zeros;
    var d: nat := s[|s| - 1] as int - '0' as int;
    var m := DecimalValue(front);
    var last := [('0' as int + d) as char];
    assert s == front + last;
    NextDigit(front, d);
    hide IsDecimal;
    if front == "" {
      k := 0;
      WriteAlone(d);
    } else if m > 0 {
      k := zeros;
      WriteAfterNumber(k, m, d);
    } else {
      k := zeros + 1;
      WriteAfterZeros(zeros, d);
    }
  }

  lemma NoDigits()
    ensures DecimalValue("") == 0
  {
  }

  lemma SpellsExactly(s: string, n: nat)
    ensures Spells(s, n) <==> IsDecimal(s) && DecimalValue(s) == n
  {
    hide DecimalValue, IsDecimal, Digits, Zeros;
    if k: nat :| s == Zeros(k) + Digits(n) {
      SpelledIsRead(k, n);
    }
    if IsDecimal(s) {
      DecimalHasDigits(s);
      var k := ReadIsSpelled(s);
    }
  }

  lemma DecimalHasDigits(s: string)
    requires IsDecimal(s)
    ensures forall i :: 0 <= i < |s| ==> '0' <= s[i] <= '9'
  {
  }

  // ------------------------------------------------------------------------- agreement

  /** The text, stripped, is the number in decimal, or one of the words for 1 or for 0, in any case. */
  ghost predicate Denotes(t: Target, s: string, n: nat) {
    var word := Lower(Strip(s));
    || Spells(Strip(s), n)
    || (n == 1 && (word in {"true", "yes", "on", "enabled"} || (t != TopicTarget && word in {"running", "active"})))
    || (n == 0 && (word in {"false", "no", "off", "disabled"} || (t != TopicTarget && word in {"stopped", "inactive"})))
  }

  /** What a text is compared as: the one number that it denotes, or itself, stripped. */
  lemma ComparedAs(t: Target, s: string)
    ensures var v := CoerceComparable(t, Str(s));
      && (forall n: nat :: Denotes(t, s, n) <==> IsNumber(v) && NumberOf(v) == n as real)
      && (IsNumber(v) <==> exists n: nat :: Denotes(t, s, n))
      && (!IsNumber(v) ==> v == Str(Strip(s)))
  {
    hide Strip, IsDecimal, DecimalValue, Spells, Lower;
    var stripped := Strip(s);
    forall n: nat ensures Spells(stripped, n) <==> IsDecimal(stripped) && DecimalOf(stripped) == n {
      DecimalOfExactly(stripped, n);
    }
    if IsDecimal(stripped) { DecimalIsNoWord(t, stripped); }
    WordsExclude(t, Lower(stripped));
    var v := CoerceComparable(t, Str(s));
    CoercedText(t, s);
    if IsNumber(v) {
      var n: nat := if v.Bool? then (if v.b then 1 else 0) else DecimalOf(stripped);
      assert Denotes(t, s, n);
    }
  }

  /** The value of a decimal; 0 for any other text. */
  function DecimalOf(s: string): nat {
    if IsDecimal(s) then DecimalValue(s) else 0
  }

  lemma DecimalOfExactly(s: string, n: nat)
    ensures Spells(s, n) <==> IsDecimal(s) && DecimalOf(s) == n
  {
    hide DecimalValue, Spells;
    SpellsExactly(s, n);
  }

  lemma CoercedText(t: Target, s: string)
    ensures CoerceComparable(t, Str(s)) ==
      if SaysTrue(t, Lower(Strip(s))) then Bool(true)
      else if SaysFalse(t, Lower(Strip(s))) then Bool(false)
      else if IsDecimal(Strip(s)) then Int(DecimalOf(Strip(s)))
      else Str(Strip(s))
  {
    hide Strip, Lower, SaysTrue, SaysFalse, DecimalValue;
  }

  /** Numbers of any kind compare by value. */
  lemma NumberCanon(v: Json)
    requires IsNumber(v)
    ensures IsNumber(WholeToInt(v)) && Canon(WholeToInt(v)) == Canon(v) == Float(NumberOf(v))
  {
  }

  lemma NumbersAgreeExactly(t: Target, v: Json, w: Json)
    requires IsNumber(v) && IsNumber(w)
    ensures Agrees(t, v, w) <==> NumberOf(v) == NumberOf(w)
  {
    NumberCanon(v);
    NumberCanon(w);
    hide Canon, WholeToInt;
  }

  /** A text agrees with a number exactly when it denotes it; true counts as 1, false as 0, and the order does not matter. */
  lemma NumberAgreesExactly(t: Target, s: string, v: Json)
    requires IsNumber(v)
    ensures Agrees(t, Str(s), v) <==> exists n: nat :: Denotes(t, s, n) && NumberOf(v) == n as real
    ensures Agrees(t, v, Str(s)) <==> Agrees(t, Str(s), v)
  {
    ComparedAs(t, s);
    NumberCanon(v);
    var c := CoerceComparable(t, Str(s));
    assert CoerceComparable(t, v) == WholeToInt(v);
    hide CoerceComparable, WholeToInt, Denotes, Strip;
    if IsNumber(c) { NumberCanon(c); }
  }

  /** A text agrees with true exactly when it denotes 1, and with false exactly when it denotes 0. */
  lemma TruthAgreesExactly(t: Target, s: string, b: bool)
    ensures Agrees(t, Str(s), Bool(b)) <==> Denotes(t, s, if b then 1 else 0)
  {
    hide Agrees, Denotes;
    NumberAgreesExactly(t, s, Bool(b));
  }

  /** Two texts agree exactly when they denote one number, or neither denotes any and they strip alike. */
  lemma TextsAgreeExactly(t: Target, s: string, r: string)
    ensures Agrees(t, Str(s), Str(r)) <==>
      || (exists n: nat :: Denotes(t, s, n) && Denotes(t, r, n))
      || ((forall n: nat :: !Denotes(t, s, n) && !Denotes(t, r, n)) && Strip(s) == Strip(r))
  {
    ComparedAs(t, s);
    ComparedAs(t, r);
    var c, d := CoerceComparable(t, Str(s)), CoerceComparable(t, Str(r));
    hide CoerceComparable, WholeToInt, Denotes, Strip;
    if IsNumber(c) { NumberCanon(c); }
    if IsNumber(d) { NumberCanon(d); }
  }

  /** A text agrees with nothing but texts and numbers. */
  lemma TextAgreesWithNoOther(t: Target, s: string, v: Json)
    requires v.Null? || v.Arr? || v.Obj?
    ensures !Agrees(t, Str(s), v) && !Agrees(t, v, Str(s))
  {
    ComparedAs(t, s);
    hide Denotes, Strip, SaysTrue, SaysFalse, IsDecimal;
  }

  // ----------------------------------------------------------------- records and plans

  /** The record is an object of the list under the key. */
  predicate ListedUnder(reply: Fields, key: string, record: Fields) {
    Field(reply, key).Arr? && Obj(record) in Field(reply, key).items
  }

  predicate IsListed(t: Target, reply: Fields, record: Fields) {
    || ListedUnder(reply, match t case InputTarget => "inputs" case TopicTarget => "topics" case TableTarget => "tables", record)
    || ListedUnder(reply, "results", record)
    || ListedUnder(reply, "data", record)
    || ListedUnder(reply, "items", record)
  }

  lemma {:induction false} ObjectsExactly(items: seq<Json>, record: Fields)
    ensures record in Objects(items) <==> Obj(record) in items
  {
    if items != [] {
      ObjectsExactly(items[1..], record);
      assert items == [items[0]] + items[1..];
    }
  }

  /** The records of a description: the objects of a list, or of the lists under four keys, or, without any, the object itself. */
  lemma RecordsExactly(t: Target, described: Json, record: Fields)
    ensures record in Records(t, described) <==>
      || (described.Arr? && Obj(record) in described.items)
      || (described.Obj? && IsListed(t, described.fields, record))
      || (described == Obj(record) && forall other :: !IsListed(t, record, other))
  {
    hide Objects, ListedUnder;
    if described.Arr? {
      ObjectsExactly(described.items, record);
    } else if described.Obj? {
      var reply := described.fields;
      forall other, key ensures other in ObjectsAt(reply, key) <==> ListedUnder(reply, key, other) {
        ListedExactly(reply, key, other);
      }
      hide ObjectsAt;
      var direct := ObjectsAt(reply, ListKey(t)) + ObjectsAt(reply, "results") + ObjectsAt(reply, "data") + ObjectsAt(reply, "items");
      assert forall other :: other in direct <==> IsListed(t, reply, other);
      if direct != [] { assert direct[0] in direct; }
    }
  }

  lemma ListedExactly(reply: Fields, key: string, record: Fields)
    ensures record in ObjectsAt(reply, key) <==> ListedUnder(reply, key, record)
  {
    hide Objects;
    if Field(reply, key).Arr? { ObjectsExactly(reply[key].items, record); }
  }

  /** A requested field that is compared. */
  predicate IsCompared(t: Target, key: string) {
    match t
    case InputTarget => key in {"dataCollectionIntervalMilliseconds", "enabled", "description", "tableName", "transformName"}
    case TopicTarget => key in {"tableName", "databaseName", "transformName", "downgradeQoS", "maxDeliveryRatePerSecond"}
    case TableTarget => key in {"disableTransformSteps", "logTransformOverwrites", "retentionPolicy", "retentionPeriod", "retentionUnit"}
  }

  /** The name that is looked for: the last of these that is a text, a second name stripped. */
  function NameSought(t: Target, p: Fields): Option<string> {
    match t
    case InputTarget =>
      if IsText(Field(p, "inputName")) then Some(p["inputName"].s)
      else if IsText(Field(p, "connectorName")) then Some(Strip(p["connectorName"].s))
      else None
    case TopicTarget => if IsText(Field(p, "topic")) then Some(p["topic"].s) else None
    case TableTarget =>
      if !IsText(Field(p, "tableName")) then None
      else if IsText(Field(p, "newTableName")) then Some(Strip(p["newTableName"].s))
      else Some(p["tableName"].s)
  }

  /** A text under `name` of an object in the list under `key`. */
  ghost predicate NamesUnder(p: Fields, key: string, name: string, text: string) {
    Field(p, key).Arr? && exists o :: Obj(o) in Field(p, key).items && Field(o, name) == Str(text)
  }

  /** Something to verify: a field that is compared, or, for a table, a field added or deleted, code, or a new name. */
  ghost predicate HasSomething(t: Target, p: Fields) {
    || (exists key :: key in p && IsCompared(t, key))
    || (t == TableTarget && (
         || (exists text :: NamesUnder(p, "addFields", "name", text))
         || (exists text :: Field(p, "deleteFields").Arr? && Str(text) in Field(p, "deleteFields").items)
         || (exists text :: NamesUnder(p, "transformSteps", "codeName", text))
         || IsText(Field(p, "newTableName"))))
  }

  lemma ComparedExactly(t: Target, key: string)
    ensures key in VerifiableKeys(t) <==> IsCompared(t, key)
  {
  }

  lemma TextsUnderExactly(p: Fields, key: string, name: string, text: string)
    ensures text in TextsUnder(Field(p, key), name) <==> NamesUnder(p, key, name, text)
  {
    if NamesUnder(p, key, name, text) {
      var items := Field(p, key).items;
      var o :| Obj(o) in items && Field(o, name) == Str(text);
      var i :| 0 <= i < |items| && items[i] == Obj(o);
    }
  }

  lemma SetIsEmpty(s: set<string>)
    ensures s == {} <==> forall x :: x !in s
  {
  }

  lemma TableHasExactly(p: Fields)
    ensures AddedFields(p) != {} <==> exists text :: NamesUnder(p, "addFields", "name", text)
    ensures WantedCode(p) != {} <==> exists text :: NamesUnder(p, "transformSteps", "codeName", text)
    ensures DeletedFields(p) != {} <==> exists text :: Field(p, "deleteFields").Arr? && Str(text) in Field(p, "deleteFields").items
  {
    forall text { TextsUnderExactly(p, "addFields", "name", text); }
    forall text { TextsUnderExactly(p, "transformSteps", "codeName", text); }
    assert forall text :: text in DeletedFields(p) <==> Field(p, "deleteFields").Arr? && Str(text) in Field(p, "deleteFields").items;
    hide TextsUnder, Texts, NamesUnder;
    SetIsEmpty(AddedFields(p));
    SetIsEmpty(WantedCode(p));
    SetIsEmpty(DeletedFields(p));
  }

  /** What is verified: the name sought and the compared fields of the payload; nothing without a name or without something to verify. */
  lemma PlanExactly(t: Target, p: Fields)
    ensures PlanFor(t, p) == Skipped(MissingIdentity) <==> NameSought(t, p).None?
    ensures PlanFor(t, p) == Skipped(NoVerifiableFields) <==> NameSought(t, p).Some? && !HasSomething(t, p)
    ensures PlanFor(t, p).Verify? ==>
      var c := PlanFor(t, p).check;
      && c.target == t && c.resolved == p && NameSought(t, p) == Some(c.name)
      && forall key :: key in c.keys <==> key in p && IsCompared(t, key)
  {
    hide VerifiableKeys, Requested, IsCompared, HasSomething, AddedFields, DeletedFields, WantedCode, Strip, IsText;
    RequestedExactly(t, p);
    SomethingExactly(t, p);
  }

  lemma RequestedExactly(t: Target, p: Fields)
    ensures var keys := Requested(VerifiableKeys(t), p);
      && (forall key :: key in keys <==> key in p && IsCompared(t, key))
      && (keys != [] <==> exists key :: key in p && IsCompared(t, key))
  {
    hide VerifiableKeys, IsCompared;
    forall key ensures key in VerifiableKeys(t) <==> IsCompared(t, key) { ComparedExactly(t, key); }
    var keys := Requested(VerifiableKeys(t), p);
    if keys != [] { assert keys[0] in keys; }
  }

  lemma SomethingExactly(t: Target, p: Fields)
    ensures HasSomething(t, p) <==>
      || Requested(VerifiableKeys(t), p) != []
      || (t == TableTarget && (AddedFields(p) != {} || DeletedFields(p) != {} || WantedCode(p) != {} || Renames(p)))
  {
    hide VerifiableKeys, Requested, IsCompared, NamesUnder, AddedFields, DeletedFields, WantedCode, IsText;
    RequestedExactly(t, p);
    TableHasExactly(p);
  }

  // -------------------------------------------------------------------- the judgement

  /** A requested field that the record shows, with another value. */
  predicate Differs(c: Check, record: Fields, key: string) {
    && key in c.keys && Observed(c.target, record, key).Some?
    && !Agrees(c.target, Observed(c.target, record, key).value, Field(c.resolved, key))
  }

  /** An input or topic: no record, nothing of it shown, all that is shown agrees, or exactly what differs. */
  lemma JudgementExactly(c: Check, described: Json)
    requires c.target != TableTarget
    ensures var record := Matching(Records(c.target, described), NameKey(c.target), c.name);
      match Judge(c, described)
      case NoRecord => record.None?
      case NotObservable => record.Some? && forall key :: key in c.keys ==> Observed(c.target, record.value, key).None?
      case Verified(fields) =>
        && record.Some? && fields != [] && (forall key :: !Differs(c, record.value, key))
        && forall key :: key in fields <==> key in c.keys && Observed(c.target, record.value, key).Some?
      case NotApplied(mismatches) =>
        record.Some? && mismatches != [] && forall key :: key in mismatches <==> Differs(c, record.value, key)
  {
    hide Records, Matching, Observed, Agrees;
    var found := Matching(Records(c.target, described), NameKey(c.target), c.name);
    if found.Some? {
      var exposed, mismatched := ExposedKeys(c, found.value), MismatchedKeys(c, found.value);
      assert forall key :: key in mismatched <==> Differs(c, found.value, key);
      assert forall key :: key in exposed <==> key in c.keys && Observed(c.target, found.value, key).Some?;
      hide KeysWhere;
      NoMember(exposed);
      NoMember(mismatched);
    }
  }

  lemma NoMember(keys: seq<string>)
    ensures keys == [] <==> forall key :: key !in keys
  {
    if keys != [] { assert keys[0] in keys; }
  }

  /** A table: no record, or exactly the fields and the parts that it contradicts. */
  lemma TableJudgementExactly(c: Check, described: Json)
    requires c.target == TableTarget
    ensures var record := Matching(Records(c.target, described), NameKey(c.target), c.name);
      match Judge(c, described)
      case NoRecord => record.None?
      case NotObservable => false
      case Verified(fields) => record.Some? && !Contradicts(c, record.value)
      case NotApplied(mismatches) =>
        && record.Some? && Contradicts(c, record.value)
        && forall part :: part in mismatches <==>
             || Differs(c, record.value, part)
             || (part == "newTableName" && RenameMissed(c, record.value))
             || (part == "addFields" && FieldsMissing(c, record.value))
             || (part == "deleteFields" && FieldsLeft(c, record.value))
             || (part == "transformSteps" && CodeMissing(c, record.value))
  {
    hide Records, Matching, Observed, Agrees, Contradicts, RenameMissed, FieldsMissing, FieldsLeft, CodeMissing;
    TableVerifiedExactly(c, described);
    var found := Matching(Records(c.target, described), NameKey(c.target), c.name);
    if found.Some? {
      var mismatched := MismatchedKeys(c, found.value);
      assert forall key :: key in mismatched <==> Differs(c, found.value, key);
      hide MismatchedKeys;
    }
  }

  // -------------------------------------------------------------- what a timeout reports

  /** A record shows a field itself, or, for an input, in its settings if not itself. */
  lemma ObservedExactly(t: Target, record: Fields, key: string, v: Json)
    ensures Observed(t, record, key) == Some(v) <==>
      || (key in record && record[key] == v)
      || (key !in record && t == InputTarget && exists settings: Fields ::
            Field(record, "settings") == Obj(settings) && key in settings && settings[key] == v)
  {
  }

  /** Reply k had a record, which did not verify the write. */
  predicate HadRecord(c: Check, replies: nat -> Reply, k: nat) {
    replies(k).Described? && (Judge(c, replies(k).value).NotObservable? || Judge(c, replies(k).value).NotApplied?)
  }

  predicate HadMismatches(c: Check, replies: nat -> Reply, k: nat) {
    replies(k).Described? && Judge(c, replies(k).value).NotApplied?
  }

  ghost predicate IsLastRecord(c: Check, replies: nat -> Reply, k: nat, n: nat) {
    k < n && HadRecord(c, replies, k) && forall j: nat :: k < j < n ==> !HadRecord(c, replies, j)
  }

  ghost predicate AreLastMismatches(c: Check, replies: nat -> Reply, k: nat, n: nat) {
    k < n && HadMismatches(c, replies, k) && forall j: nat :: k < j < n ==> !HadMismatches(c, replies, j)
  }

  lemma ReportStep(c: Check, replies: nat -> Reply, m: nat)
    ensures ReportAfter(c, replies, 0) == Report(NoRecord, [])
    ensures ReportAfter(c, replies, m + 1).reason ==
      if HadRecord(c, replies, m) then Judge(c, replies(m).value) else ReportAfter(c, replies, m).reason
    ensures ReportAfter(c, replies, m + 1).mismatches ==
      if HadMismatches(c, replies, m) then Judge(c, replies(m).value).mismatches else ReportAfter(c, replies, m).mismatches
  {
    hide Judge;
  }

  /** The reason is that of the last reply with a record. */
  lemma {:induction false} ReasonExactly(c: Check, replies: nat -> Reply, n: nat)
    ensures (forall k: nat :: k < n ==> !HadRecord(c, replies, k)) ==> ReportAfter(c, replies, n).reason == NoRecord
    ensures forall k: nat :: IsLastRecord(c, replies, k, n) ==> ReportAfter(c, replies, n).reason == Judge(c, replies(k).value)
    decreases n
  {
    hide Judge, ReportAfter, HadMismatches;
    ReportStep(c, replies, if n > 0 then n - 1 else 0);
    if n > 0 {
      var m: nat := n - 1;
      ReasonExactly(c, replies, m);
      forall k: nat | IsLastRecord(c, replies, k, n) ensures ReportAfter(c, replies, n).reason == Judge(c, replies(k).value) {
        if k < m {
          assert IsLastRecord(c, replies, k, m) && !HadRecord(c, replies, m);
        }
      }
    }
  }

  /** The mismatches are those of the last reply with any. */
  lemma {:induction false} MismatchesExactly(c: Check, replies: nat -> Reply, n: nat)
    ensures (forall k: nat :: k < n ==> !HadMismatches(c, replies, k)) ==> ReportAfter(c, replies, n).mismatches == []
    ensures forall k: nat :: AreLastMismatches(c, replies, k, n) ==>
      ReportAfter(c, replies, n).mismatches == MismatchesOf(c, replies, k)
    decreases n
  {
    hide Judge, ReportAfter, HadRecord, HadMismatches, MismatchesOf;
    ReportStep(c, replies, if n > 0 then n - 1 else 0);
    if n > 0 {
      var m: nat := n - 1;
      MismatchesExactly(c, replies, m);
      MismatchesAre(c, replies, m);
      forall k: nat | AreLastMismatches(c, replies, k, n) ensures ReportAfter(c, replies, n).mismatches == MismatchesOf(c, replies, k) {
        if k < m {
          assert AreLastMismatches(c, replies, k, m) && !HadMismatches(c, replies, m);
        }
      }
    }
  }

  /** The mismatches of reply k; none if it has none. */
  function MismatchesOf(c: Check, replies: nat -> Reply, k: nat): seq<string> {
    if HadMismatches(c, replies, k) then Judge(c, replies(k).value).mismatches else []
  }

  lemma MismatchesAre(c: Check, replies: nat -> Reply, k: nat)
    ensures HadMismatches(c, replies, k) ==> MismatchesOf(c, replies, k) == Judge(c, replies(k).value).mismatches
  {
    hide Judge;
  }

  /**
    A poll of n replies: all but the last described something that did not verify the write,
    within six seconds; the last raised, verified the write, or came when they were over.
   */
  lemma PollExactly(c: Check, replies: nat -> Reply, clock: nat -> int, start: int)
    requires IsClock(clock, start)
    ensures var n := Polls(c, replies, clock, Deadline(start), 0);
      var end := EndAfter(c, replies, n);
      && (forall k: nat :: k < n - 1 ==> IsOpen(c, replies, clock, start, k))
      && (end.DescribeFailed? <==> replies(n - 1).Raised?)
      && (end.Confirmed? <==> replies(n - 1).Described? && Judge(c, replies(n - 1).value).Verified?)
      && (end.TimedOut? ==> clock(n - 1) >= start + 6000)
  {
    hide Judge, Polls, IsClock;
    PollsStop(c, replies, clock, start, 0);
    var n := Polls(c, replies, clock, Deadline(start), 0);
    forall k: nat | k < n - 1 ensures IsOpen(c, replies, clock, start, k) {
      assert Undecided(c, replies, clock, Deadline(start), k);
    }
  }

  /** A reply that leaves the question open, in time. */
  predicate IsOpen(c: Check, replies: nat -> Reply, clock: nat -> int, start: int, k: nat) {
    replies(k).Described? && !Judge(c, replies(k).value).Verified? && clock(k) < start + 6000
  }
}
