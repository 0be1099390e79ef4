/**
  The LIKE filter of `list_tables`: the loop over the upstream's entries, its
  counts, and the reply that carries what is left.
 */
module TableListing {
  import opened Prelude
  import opened PyText
  import opened JsonText
  import opened LikeFilter

  /** The name an entry goes by: a string itself, or the first of four keys that holds one. */
  function TableName(entry: Doc): Option<Text> {
    match entry
    case DStr(text) => Some(text)
    case DDict(members) => FirstText(members, [T("tableName"), T("table_name"), T("name"), T("table")])
    case _ => None
  }

  function FirstText(members: seq<Member>, keys: seq<Text>): Option<Text> {
    if keys == [] then None
    else
      match Get(members, keys[0])
      case DStr(text) => Some(text)
      case _ => FirstText(members, keys[1..])
  }

  /** The dictionary has this text under the key. */
  predicate HoldsText(entry: Doc, key: Text, name: Text) {
    entry.DDict? && Get(entry.members, key) == DStr(name)
  }

  predicate HoldsNoText(entry: Doc, key: Text) {
    entry.DDict? && !Get(entry.members, key).DStr?
  }

  /** A text names itself; a dictionary has its name under the first of four keys that holds a text. */
  lemma TableNameExactly(entry: Doc, name: Text)
    ensures TableName(entry) == Some(name) <==>
      var k1, k2, k3, k4 := T("tableName"), T("table_name"), T("name"), T("table");
      || entry == DStr(name)
      || HoldsText(entry, k1, name)
      || (HoldsNoText(entry, k1) && HoldsText(entry, k2, name))
      || (HoldsNoText(entry, k1) && HoldsNoText(entry, k2) && HoldsText(entry, k3, name))
      || (HoldsNoText(entry, k1) && HoldsNoText(entry, k2) && HoldsNoText(entry, k3) && HoldsText(entry, k4, name))
  {
    hide Get, T, FirstText;
    if entry.DDict? {
      var k1, k2, k3, k4 := T("tableName"), T("table_name"), T("name"), T("table");
      assert [k1, k2, k3, k4][1..] == [k2, k3, k4] && [k2, k3, k4][1..] == [k3, k4] && [k3, k4][1..] == [k4];
      FirstTextUnfolds(entry.members, [k1, k2, k3, k4]);
      FirstTextUnfolds(entry.members, [k2, k3, k4]);
      FirstTextUnfolds(entry.members, [k3, k4]);
      var last: seq<Text> := [k4];
      FirstTextUnfolds(entry.members, last);
      assert last[1..] == [];
    }
  }

  lemma FirstTextUnfolds(members: seq<Member>, keys: seq<Text>)
    requires keys != []
    ensures FirstText(members, []) == None
    ensures FirstText(members, keys) ==
      match Get(members, keys[0])
      case DStr(text) => Some(text)
      case _ => FirstText(members, keys[1..])
  {
  }

  datatype Verdict = Kept | Dropped | Unnamed

  function VerdictOf(nameLike: Text, entry: Doc): Verdict {
    match TableName(entry)
    case None => Unnamed
    case Some(name) => if RegexMatches(nameLike, name) then Kept else Dropped
  }

  /** The positions with one verdict, in order. */
  function Positions(nameLike: Text, entries: seq<Doc>, v: Verdict): seq<nat> {
    if entries == [] then []
    else
      var front := entries[..|entries| - 1];
      Positions(nameLike, front, v) +
        (if VerdictOf(nameLike, entries[|front|]) == v then [|front|] else [])
  }

  /** The entries at some positions. */
  function Select(entries: seq<Doc>, positions: seq<nat>): (selected: seq<Doc>)
    requires forall p :: p in positions ==> p < |entries|
    ensures |selected| == |positions|
    ensures forall i :: 0 <= i < |positions| ==> positions[i] in positions && selected[i] == entries[positions[i]]
  {
    seq(|positions|, i requires 0 <= i < |positions| => assert positions[i] in positions; entries[positions[i]])
  }

  lemma PositionsOfPrefix(nameLike: Text, entries: seq<Doc>, i: nat, v: Verdict)
    requires i < |entries|
    ensures Positions(nameLike, entries[..i + 1], v) ==
      Positions(nameLike, entries[..i], v) + (if VerdictOf(nameLike, entries[i]) == v then [i] else [])
  {
    hide VerdictOf;
    assert entries[..i + 1][..i] == entries[..i];
  }

  /** `ps` is strictly increasing and holds the positions below `n` with the verdict, no others. */
  ghost predicate AreThePositions(nameLike: Text, entries: seq<Doc>, n: nat, v: Verdict, ps: seq<nat>)
    requires n <= |entries|
  {
    && (forall i, j :: 0 <= i < j < |ps| ==> ps[i] < ps[j])
    && (forall p :: p in ps <==> 0 <= p < n && VerdictOf(nameLike, entries[p]) == v)
  }

  lemma OneMorePosition(nameLike: Text, entries: seq<Doc>, n: nat, v: Verdict, ps: seq<nat>)
    requires n < |entries| && AreThePositions(nameLike, entries, n, v, ps)
    ensures AreThePositions(nameLike, entries, n + 1, v, ps + (if VerdictOf(nameLike, entries[n]) == v then [n] else []))
  {
    hide VerdictOf;
    assert forall i :: 0 <= i < |ps| ==> ps[i] in ps;
  }

  lemma {:induction false} PrefixExactly(nameLike: Text, entries: seq<Doc>, n: nat, v: Verdict)
    requires n <= |entries|
    ensures AreThePositions(nameLike, entries, n, v, Positions(nameLike, entries[..n], v))
  {
    if n > 0 {
      hide AreThePositions, Positions, VerdictOf;
      PrefixExactly(nameLike, entries, n - 1, v);
      PositionsOfPrefix(nameLike, entries, n - 1, v);
      OneMorePosition(nameLike, entries, n - 1, v, Positions(nameLike, entries[..n - 1], v));
    }
  }

  /** The positions of a verdict come in order, each once, and there are no others. */
  lemma PositionsExactly(nameLike: Text, entries: seq<Doc>, v: Verdict)
    ensures AreThePositions(nameLike, entries, |entries|, v, Positions(nameLike, entries, v))
  {
    hide AreThePositions, Positions, VerdictOf;
    PrefixExactly(nameLike, entries, |entries|, v);
    assert entries[..|entries|] == entries;
  }

  /** Every entry is kept, dropped or unnamed, and only one of them. */
  lemma {:induction false} CountsPartition(nameLike: Text, entries: seq<Doc>)
    ensures |Positions(nameLike, entries, Kept)| + |Positions(nameLike, entries, Dropped)| +
      |Positions(nameLike, entries, Unnamed)| == |entries|
  {
    hide VerdictOf;
    if entries != [] {
      CountsPartition(nameLike, entries[..|entries| - 1]);
    }
  }

  /** What the filter keeps. */
  function Filtered(nameLike: Text, entries: seq<Doc>): seq<Doc> {
    PositionsExactly(nameLike, entries, Kept);
    Select(entries, Positions(nameLike, entries, Kept))
  }

  lemma FilteredOfPrefix(nameLike: Text, entries: seq<Doc>, i: nat)
    requires i < |entries|
    ensures Filtered(nameLike, entries[..i + 1]) ==
      Filtered(nameLike, entries[..i]) + (if VerdictOf(nameLike, entries[i]) == Kept then [entries[i]] else [])
  {
    hide VerdictOf;
    PositionsOfPrefix(nameLike, entries, i, Kept);
    PositionsExactly(nameLike, entries[..i], Kept);
    PositionsExactly(nameLike, entries[..i + 1], Kept);
  }

  /** `_filter_entries` with its three counts. */
  method FilterEntries(nameLike: Text, entries: seq<Doc>)
    returns (filtered: seq<Doc>, source: nat, matched: nat, unknown: nat)
    ensures filtered == Filtered(nameLike, entries)
    ensures source == |entries| && matched == |filtered|
    ensures unknown == |Positions(nameLike, entries, Unnamed)|
  {
    source, matched, unknown := |entries|, 0, 0;
    filtered := [];
    for i := 0 to |entries|
      invariant filtered == Filtered(nameLike, entries[..i])
      invariant unknown == |Positions(nameLike, entries[..i], Unnamed)|
    {
      hide RegexMatches, Positions, Filtered;
      PositionsOfPrefix(nameLike, entries, i, Unnamed);
      FilteredOfPrefix(nameLike, entries, i);
      var name := TableName(entries[i]);
      if name.None? {
        unknown := unknown + 1;
        continue;
      }
      if RegexMatches(nameLike, name.value) {
        filtered := filtered + [entries[i]];
      }
    }
    assert entries[..|entries|] == entries;
    matched := |filtered|;
  }

  lemma FilteredNothing(nameLike: Text, entries: seq<Doc>)
    requires entries == []
    ensures Filtered(nameLike, entries) == [] && forall v :: Positions(nameLike, entries, v) == []
  {
  }

  predicate PlainName(entry: Doc) {
    TableName(entry).Some? && NEWLINE !in TableName(entry).value
  }

  /** Where names are without newlines, what is kept is what satisfies LIKE, in order, each entry once. */
  lemma FilterKeepsLike(nameLike: Text, entries: seq<Doc>) returns (kept: seq<nat>)
    ensures forall i, j :: 0 <= i < j < |kept| ==> kept[i] < kept[j] < |entries|
    ensures |Filtered(nameLike, entries)| == |kept|
    ensures forall i :: 0 <= i < |kept| ==> kept[i] < |entries| && Filtered(nameLike, entries)[i] == entries[kept[i]]
    ensures forall p :: 0 <= p < |entries| && PlainName(entries[p]) ==>
      (p in kept <==> Like(nameLike, TableName(entries[p]).value))
  {
    kept := Positions(nameLike, entries, Kept);
    PositionsExactly(nameLike, entries, Kept);
    assert forall i :: 0 <= i < |kept| ==> kept[i] in kept;
    forall p | 0 <= p < |entries| && PlainName(entries[p])
      ensures p in kept <==> Like(nameLike, TableName(entries[p]).value)
    {
      CompiledIsLike(nameLike, TableName(entries[p]).value);
    }
  }

  /** Filtering what was already filtered removes nothing. */
  lemma FilteredTwice(nameLike: Text, entries: seq<Doc>)
    ensures Filtered(nameLike, Filtered(nameLike, entries)) == Filtered(nameLike, entries)
  {
    hide VerdictOf;
    PositionsExactly(nameLike, entries, Kept);
    var once := Filtered(nameLike, entries);
    forall i | 0 <= i < |once| ensures VerdictOf(nameLike, once[i]) == Kept {
      assert Positions(nameLike, entries, Kept)[i] in Positions(nameLike, entries, Kept);
    }
    AllKept(nameLike, once);
  }

  lemma {:induction false} AllKept(nameLike: Text, entries: seq<Doc>)
    requires forall i :: 0 <= i < |entries| ==> VerdictOf(nameLike, entries[i]) == Kept
    ensures Filtered(nameLike, entries) == entries
    decreases |entries|
  {
    hide VerdictOf;
    if entries != [] {
      var n := |entries| - 1;
      AllKept(nameLike, entries[..n]);
      FilteredOfPrefix(nameLike, entries, n);
      assert entries[..n + 1] == entries && entries == entries[..n] + [entries[n]];
    }
  }

  // -------------------------------------------------------------------- the reply

  /** Where a reply carries its list of tables. */
  datatype Shape = AtTables(entries: seq<Doc>) | AtResultData(block: seq<Member>, data: seq<Doc>) | Unsupported

  function ShapeOf(members: seq<Member>): Shape {
    match Get(members, T("tables"))
    case DList(entries) => AtTables(entries)
    case _ =>
      match Get(members, T("result"))
      case DDict(block) =>
        (match Get(block, T("data"))
         case DList(data) => AtResultData(block, data)
         case _ => Unsupported)
      case _ => Unsupported
  }

  /** The entries that a reply lists. */
  function Entries(members: seq<Member>): seq<Doc> {
    match ShapeOf(members)
    case AtTables(entries) => entries
    case AtResultData(_, data) => data
    case Unsupported => []
  }

  /** The `filter` member of the reply. */
  function FilterInfo(nameLike: Text, applied: bool, source: nat, matched: nat, unknown: nat): Doc {
    DDict([
      Member(T("name_like"), DStr(nameLike)), Member(T("applied"), DBool(applied)),
      Member(T("source_count"), DInt(source)), Member(T("matched_count"), DInt(matched)),
      Member(T("unknown_name_count"), DInt(unknown)),
      Member(T("reason"), DStr(if applied then T("local_like_filter") else T("unsupported_list_tables_response_shape")))
    ])
  }

  /** `list_tables` on the upstream's reply. */
  method ListTables(result: Doc, nameLike: Option<Text>) returns (updated: Doc)
    ensures nameLike.None? || !result.DDict? ==> updated == result
    ensures nameLike.Some? && result.DDict? ==> updated.DDict? && IsFilteredReply(nameLike.value, result.members, updated.members)
  {
    if nameLike.None? || !result.DDict? {
      return result;
    }
    hide T, Get, Put, Filtered, Positions, FilterInfo;
    var source, matched, unknown := 0, 0, 0;
    var members := result.members;
    var applied := false;
    var tables := Get(members, T("tables"));
    if tables.DList? {
      var kept;
      kept, source, matched, unknown := FilterEntries(nameLike.value, tables.items);
      members := Put(members, T("tables"), DList(kept));
      applied := true;
    } else {
      var block := Get(members, T("result"));
      if block.DDict? {
        var data := Get(block.members, T("data"));
        if data.DList? {
          var kept;
          kept, source, matched, unknown := FilterEntries(nameLike.value, data.items);
          members := Put(members, T("result"), DDict(Put(block.members, T("data"), DList(kept))));
          applied := true;
        }
      }
    }
    FilteredNothing(nameLike.value, []);
    ghost var listed := members;
    members := Put(members, T("filter"), FilterInfo(nameLike.value, applied, source, matched, unknown));
    updated := DDict(members);
    ReplyIsFiltered(nameLike.value, result.members, listed, members, applied, source, matched, unknown);
  }

  /**
    The reply lists what the filter keeps, in the place where it was, says how many
    there were, are left and could not be named, and is otherwise as it came.
   */
  ghost predicate IsFilteredReply(nameLike: Text, before: seq<Member>, after: seq<Member>) {
    && ShapeOf(after).AtTables? == ShapeOf(before).AtTables?
    && ShapeOf(after).AtResultData? == ShapeOf(before).AtResultData?
    && Entries(after) == Filtered(nameLike, Entries(before))
    && Get(after, T("filter")) == FilterInfo(
         nameLike, !ShapeOf(before).Unsupported?, |Entries(before)|, |Entries(after)|,
         |Positions(nameLike, Entries(before), Unnamed)|)
    && (forall key :: key != T("tables") && key != T("result") && key != T("filter") ==> Get(after, key) == Get(before, key))
    && (!ShapeOf(before).AtTables? ==> Get(after, T("tables")) == Get(before, T("tables")))
    && (!ShapeOf(before).AtResultData? ==> Get(after, T("result")) == Get(before, T("result")))
    && (ShapeOf(before).AtResultData? ==>
          forall key :: key != T("data") ==> Get(ShapeOf(after).block, key) == Get(ShapeOf(before).block, key))
  }

  lemma {:induction false} GetPut(members: seq<Member>, key: Text, value: Doc, other: Text)
    ensures Get(Put(members, key, value), other) == if other == key then value else Get(members, other)
  {
    if members != [] {
      GetPut(members[1..], key, value, other);
      assert Put(members, key, value)[1..] == if members[0].key == key then members[1..] else Put(members[1..], key, value);
    }
  }

  lemma KeysDiffer()
    ensures T("tables") != T("result") && T("tables") != T("filter") && T("result") != T("filter")
  {
    assert T("tables")[0] == 0x74 && T("result")[0] == 0x72 && T("filter")[0] == 0x66;
  }

  /** The members between the filtering and the `filter` member: one list replaced. */
  ghost predicate Listed(nameLike: Text, before: seq<Member>, listed: seq<Member>) {
    match ShapeOf(before)
    case AtTables(entries) => listed == Put(before, T("tables"), DList(Filtered(nameLike, entries)))
    case AtResultData(block, data) =>
      listed == Put(before, T("result"), DDict(Put(block, T("data"), DList(Filtered(nameLike, data)))))
    case Unsupported => listed == before
  }

  lemma ReplyIsFiltered(
    nameLike: Text, before: seq<Member>, listed: seq<Member>, after: seq<Member>,
    applied: bool, source: nat, matched: nat, unknown: nat)
    requires Listed(nameLike, before, listed)
    requires applied == !ShapeOf(before).Unsupported? && source == |Entries(before)|
    requires matched == |Filtered(nameLike, Entries(before))|
    requires unknown == |Positions(nameLike, Entries(before), Unnamed)|
    requires after == Put(listed, T("filter"), FilterInfo(nameLike, applied, source, matched, unknown))
    ensures IsFilteredReply(nameLike, before, after)
  {
    hide T, Get, Put, Filtered, Positions, FilterInfo;
    KeysDiffer();
    forall key ensures Get(after, key) == if key == T("filter") then
        FilterInfo(nameLike, applied, source, matched, unknown) else Get(listed, key)
    {
      GetPut(listed, T("filter"), FilterInfo(nameLike, applied, source, matched, unknown), key);
    }
    match ShapeOf(before) {
      case AtTables(entries) =>
        forall key { GetPut(before, T("tables"), DList(Filtered(nameLike, entries)), key); }
      case AtResultData(block, data) =>
        var kept := DList(Filtered(nameLike, data));
        forall key { GetPut(before, T("result"), DDict(Put(block, T("data"), kept)), key); }
        forall key { GetPut(block, T("data"), kept, key); }
      case Unsupported => FilteredNothing(nameLike, []);
    }
  }

  /** The members of the `filter` member, key by key. */
  predicate Informs(info: Doc, nameLike: Text, applied: bool, source: nat, matched: nat, unknown: nat) {
    && info.DDict?
    && Get(info.members, T("name_like")) == DStr(nameLike)
    && Get(info.members, T("applied")) == DBool(applied)
    && Get(info.members, T("source_count")) == DInt(source)
    && Get(info.members, T("matched_count")) == DInt(matched)
    && Get(info.members, T("unknown_name_count")) == DInt(unknown)
    && Get(info.members, T("reason")) == DStr(if applied then T("local_like_filter") else T("unsupported_list_tables_response_shape"))
  }

  lemma GetSixth(members: seq<Member>, k1: Text, k2: Text, k3: Text, k4: Text, k5: Text, k6: Text)
    requires |members| == 6 && members[0].key == k1 && members[1].key == k2 && members[2].key == k3
    requires members[3].key == k4 && members[4].key == k5 && members[5].key == k6
    requires k1 != k2 && k1 != k3 && k1 != k4 && k1 != k5 && k1 != k6 && k2 != k3 && k2 != k4 && k2 != k5 && k2 != k6
    requires k3 != k4 && k3 != k5 && k3 != k6 && k4 != k5 && k4 != k6 && k5 != k6
    ensures Get(members, k1) == members[0].value && Get(members, k2) == members[1].value && Get(members, k3) == members[2].value
    ensures Get(members, k4) == members[3].value && Get(members, k5) == members[4].value && Get(members, k6) == members[5].value
  {
    var m1 := members[1..];
    var m2 := m1[1..];
    var m3 := m2[1..];
    var m4 := m3[1..];
    var m5 := m4[1..];
    assert Get(m5, k6) == members[5].value;
    assert Get(m4, k5) == members[4].value && Get(m4, k6) == Get(m5, k6);
    assert Get(m3, k4) == members[3].value && Get(m3, k5) == Get(m4, k5) && Get(m3, k6) == Get(m4, k6);
    assert Get(m2, k3) == members[2].value && Get(m2, k4) == Get(m3, k4) && Get(m2, k5) == Get(m3, k5) && Get(m2, k6) == Get(m3, k6);
    assert Get(m1, k2) == members[1].value && Get(m1, k3) == Get(m2, k3) && Get(m1, k4) == Get(m2, k4)
      && Get(m1, k5) == Get(m2, k5) && Get(m1, k6) == Get(m2, k6);
  }

  lemma InfoReads(nameLike: Text, applied: bool, source: nat, matched: nat, unknown: nat)
    ensures Informs(FilterInfo(nameLike, applied, source, matched, unknown), nameLike, applied, source, matched, unknown)
  {
    hide T, Get;
    InfoKeysDiffer();
    GetSixth(FilterInfo(nameLike, applied, source, matched, unknown).members,
      T("name_like"), T("applied"), T("source_count"), T("matched_count"), T("unknown_name_count"), T("reason"));
  }

  lemma InfoKeysDiffer()
    ensures T("name_like") != T("applied") && T("name_like") != T("source_count") && T("name_like") != T("matched_count")
    ensures T("name_like") != T("unknown_name_count") && T("name_like") != T("reason") && T("applied") != T("source_count")
    ensures T("applied") != T("matched_count") && T("applied") != T("unknown_name_count") && T("applied") != T("reason")
    ensures T("source_count") != T("matched_count") && T("source_count") != T("unknown_name_count") && T("source_count") != T("reason")
    ensures T("matched_count") != T("unknown_name_count") && T("matched_count") != T("reason") && T("unknown_name_count") != T("reason")
  {
    assert T("name_like")[0] == 0x6E && T("applied")[0] == 0x61 && T("source_count")[0] == 0x73;
    assert T("matched_count")[0] == 0x6D && T("unknown_name_count")[0] == 0x75 && T("reason")[0] == 0x72;
  }

  /**
    A filtered reply, read key by key: the list under `tables`, or else the one under `data` in
    `result`, is the filtered one, and `filter` counts what was listed, what is left and what
    could not be named; without either list nothing is filtered, and `filter` says so.
   */
  lemma FilteredReplyReads(nameLike: Text, before: seq<Member>, after: seq<Member>)
    requires IsFilteredReply(nameLike, before, after)
    ensures match Get(before, T("tables"))
      case DList(entries) => ListsFiltered(nameLike, entries, Get(after, T("tables")), Get(after, T("filter")))
      case _ =>
        match Get(before, T("result"))
        case DDict(block) =>
          (match Get(block, T("data"))
           case DList(entries) =>
             && Get(after, T("result")).DDict?
             && ListsFiltered(nameLike, entries, Get(Get(after, T("result")).members, T("data")), Get(after, T("filter")))
           case _ => Informs(Get(after, T("filter")), nameLike, false, 0, 0, 0))
        case _ => Informs(Get(after, T("filter")), nameLike, false, 0, 0, 0)
  {
    hide T, Get, Filtered, Positions, Informs, FilterInfo;
    NothingListed(nameLike);
    InfoReads(nameLike, !ShapeOf(before).Unsupported?, |Entries(before)|, |Entries(after)|, |Positions(nameLike, Entries(before), Unnamed)|);
  }

  lemma NothingListed(nameLike: Text)
    ensures Filtered(nameLike, []) == [] && Positions(nameLike, [], Unnamed) == []
  {
    FilteredNothing(nameLike, []);
  }

  /** The list is the filtered one, and the counts are right. */
  predicate ListsFiltered(nameLike: Text, entries: seq<Doc>, list: Doc, info: Doc) {
    && list == DList(Filtered(nameLike, entries))
    && Informs(info, nameLike, true, |entries|, |Filtered(nameLike, entries)|, |Positions(nameLike, entries, Unnamed)|)
  }
}
