/** Paged queries: the request one call sends, and the walk over all pages by continuation tokens. */
module SqlPaging {
  import opened Prelude
  import opened PyText
  import ContinuationToken
  import JsonText

  // ------------------------------------------------------------------ statements

  /** `\border\s+by\b` from position i to position j + 2. */
  predicate OrderByBetween(s: Text, i: nat, j: nat)
    requires i <= |s| && j + 2 <= |s|
  {
    && i + 5 < j
    && WordBoundary(s, i) && WordAt(s, i, T("order"))
    && (forall k :: i + 5 <= k < j ==> CodeIsSpace(s[k]))
    && WordAt(s, j, T("by")) && WordBoundary(s, j + 2)
  }

  predicate HasOrderBy(s: Text) {
    exists i: nat, j: nat :: i < |s| && j + 2 <= |s| && OrderByBetween(s, i, j)
  }

  const ORDER_BY := T(" ORDER BY ")

  function NormalizeStatement(statement: Text, orderBy: Option<Text>): Text {
    var normalized := StripBy(statement, CodeIsSpace);
    match orderBy
    case Some(column) => normalized + ORDER_BY + column
    case None => if HasOrderBy(normalized) then normalized else normalized + ORDER_BY + T("1")
  }

  /** The letters of a word, small or capital, from position i on. */
  predicate Spelled(s: Text, i: nat, word: Text) {
    && i + |word| <= |s|
    && forall k :: 0 <= k < |word| ==> s[i + k] == word[k] || s[i + k] as int + 0x20 == word[k] as int
  }

  /** The words ORDER and BY with space between them and no word character before or after. */
  ghost predicate IsOrderedStatement(s: Text) {
    exists i: nat, j: nat :: OrderedAt(s, i, j)
  }

  predicate OrderedAt(s: Text, i: nat, j: nat) {
    && Spelled(s, i, T("order")) && Spelled(s, j, T("by"))
    && i + 5 < j
    && (forall k :: i + 5 <= k < j ==> CodeIsSpace(s[k]))
    && (i == 0 || !IsWordChar(s[i - 1])) && (j + 2 == |s| || !IsWordChar(s[j + 2]))
  }

  lemma OrderByExactly(s: Text, i: nat, j: nat, order: Text, conj: Text)
    requires order == T("order") && conj == T("by") && i <= |s| && j + 2 <= |s|
    ensures OrderByBetween(s, i, j) <==> OrderedAt(s, i, j)
  {
    assert |order| == 5 && |conj| == 2 && order[0] == 0x6F && conj[1] == 0x79;
    hide T, CodeIsSpace;
    if i + 5 < j {
      assert WordAt(s, i, order) <==> Spelled(s, i, order);
      assert WordAt(s, j, conj) <==> Spelled(s, j, conj);
      if Spelled(s, i, order) && Spelled(s, j, conj) {
        assert s[i + 0] == order[0] || s[i + 0] as int + 0x20 == order[0] as int;
        assert s[j + 1] == conj[1] || s[j + 1] as int + 0x20 == conj[1] as int;
        assert IsWordChar(s[i]) && IsWordChar(s[j + 1]);
        assert j + 2 - 1 == j + 1;
      }
    }
  }

  lemma HasOrderByExactly(s: Text)
    ensures HasOrderBy(s) <==> IsOrderedStatement(s)
  {
    hide OrderByBetween, OrderedAt, T;
    forall i: nat, j: nat | i <= |s| && j + 2 <= |s| ensures OrderByBetween(s, i, j) <==> OrderedAt(s, i, j) {
      OrderByExactly(s, i, j, T("order"), T("by"));
    }
    if IsOrderedStatement(s) {
      var i: nat, j: nat :| OrderedAt(s, i, j);
      OrderedInside(s, i, j);
      assert OrderByBetween(s, i, j);
    }
  }

  lemma OrderedInside(s: Text, i: nat, j: nat)
    requires OrderedAt(s, i, j)
    ensures i < |s| && j + 2 <= |s|
  {
  }

  /**
    The SQL that is sent for a statement: the statement, stripped, then the caller's order; or
    else, unless it names an order itself, the first column.
   */
  lemma NormalizedExactly(statement: Text, orderBy: Option<Text>)
    ensures var stripped := StripBy(statement, CodeIsSpace);
      NormalizeStatement(statement, orderBy) ==
        if orderBy.Some? then stripped + T(" ORDER BY ") + orderBy.value
        else if IsOrderedStatement(stripped) then stripped
        else stripped + T(" ORDER BY 1")
  {
    hide HasOrderBy, IsOrderedStatement, StripBy;
    var stripped := StripBy(statement, CodeIsSpace);
    HasOrderByExactly(stripped);
    assert T(" ORDER BY ") + T("1") == T(" ORDER BY 1");
    assert stripped + ORDER_BY + T("1") == stripped + (ORDER_BY + T("1"));
  }

  /** Strip removes nothing between two characters that are not spaces. */
  lemma StripSpan(s: Text, i: nat, j: nat)
    requires i <= j < |s| && !CodeIsSpace(s[i]) && !CodeIsSpace(s[j])
    ensures |StripBy(s, CodeIsSpace)| >= j - i + 1
  {
    hide DropWhile, DropTail;
    var front := DropWhile(s, CodeIsSpace);
    var dropped := |s| - |front|;
    assert dropped <= i;
    assert front[j - dropped] == s[j];
  }

  lemma OrderByChars()
    ensures |ORDER_BY| == 10 && ORDER_BY[1] == 0x4F && ORDER_BY[7] == 0x42
  {
  }

  lemma StrippedStart(s: Text)
    requires s != [] && StripBy(s, CodeIsSpace) == s
    ensures !CodeIsSpace(s[0])
  {
    assert |DropWhile(s, CodeIsSpace)| == |s|;
  }

  /** Stripping `s + ORDER_BY + column` keeps at least `s` and the keyword. */
  lemma StripKeepsKeyword(s: Text, column: Text)
    requires StripBy(s, CodeIsSpace) == s
    ensures |StripBy(s + ORDER_BY + column, CodeIsSpace)| > |s|
  {
    OrderByChars();
    hide StripBy;
    var whole := s + ORDER_BY + column;
    assert whole[|s| + 7] == ORDER_BY[7] && whole[|s| + 1] == ORDER_BY[1];
    if s == [] {
      StripSpan(whole, 1, 7);
    } else {
      StrippedStart(s);
      assert whole[0] == s[0];
      StripSpan(whole, 0, |s| + 7);
    }
  }

  /** What is stripped starts where the text does, unless that is a space. */
  lemma StripIsPrefix(s: Text)
    requires s != [] && !CodeIsSpace(s[0])
    ensures StripBy(s, CodeIsSpace) <= s
  {
    assert DropWhile(s, CodeIsSpace) == s;
  }

  // ---------------------------------------------------------------------- one page

  type Row = JsonText.Doc

  datatype Request = Request(sql: Text, skip: int, max: int)

  /** A reply: not a dictionary, or its `result.data` list (if any) and whether `moreRecords` is true. */
  datatype Reply = NotDict | Page(rows: Option<seq<Row>>, more: bool)

  datatype PageInfo = PageInfo(offset: int, limit: int, count: nat, hasMore: bool, nextPage: Option<int>, token: Option<Text>)

  datatype PageError = PolicyDenied | PageTooSmall | PageSizeTooSmall | InvalidToken

  /** What the caller gets: the request sent, the reply, and the metadata added unless the reply is no dictionary. */
  datatype Answer = Answer(request: Request, reply: Reply, info: Option<PageInfo>)

  datatype Call = Call(statement: Text, page: int, pageSize: int, token: Option<Text>, orderBy: Option<Text>)

  function HasMore(reply: Reply, pageSize: int): bool
    requires reply.Page?
  {
    reply.more || (reply.rows.Some? && |reply.rows.value| == pageSize)
  }

  function WithPaginationMetadata(reply: Reply, call: Call, offset: int): Option<PageInfo>
    requires offset >= 0 && call.pageSize >= 1
  {
    if reply.NotDict? then None
    else
      var hasMore := HasMore(reply, call.pageSize);
      Some(PageInfo(
        offset, call.pageSize, if reply.rows.Some? then |reply.rows.value| else 0, hasMore,
        if hasMore then Some(call.page + 1) else None,
        if hasMore then Some(ContinuationToken.Encode(offset + call.pageSize, call.orderBy)) else None))
  }

  /** The request that a call leads to, or the error it raises before sending. */
  function RequestOf(call: Call, allowed: bool): (r: Result<Request, PageError>)
    ensures r.Ok? ==> call.pageSize >= 1 && r.value.skip >= 0
  {
    if !allowed then Err(PolicyDenied)
    else if call.page < 1 then Err(PageTooSmall)
    else if call.pageSize < 1 then Err(PageSizeTooSmall)
    else
      var sql := NormalizeStatement(call.statement, call.orderBy);
      match call.token
      case None => Ok(Request(sql, (call.page - 1) * call.pageSize, call.pageSize))
      case Some(token) =>
        match ContinuationToken.Decode(token)
        case None => Err(InvalidToken)
        case Some(cursor) =>
          Ok(Request(
            if cursor.orderBy.Some? then NormalizeStatement(sql, cursor.orderBy) else sql, cursor.offset, call.pageSize))
  }

  function AnswerOf(call: Call, allowed: bool, upstream: Request -> Reply): Result<Answer, PageError> {
    match RequestOf(call, allowed)
    case Err(e) => Err(e)
    case Ok(request) =>
      var reply := upstream(request);
      Ok(Answer(request, reply, WithPaginationMetadata(reply, call, request.skip)))
  }

  /** The offset that a call asks for: that of its token, or of its page. */
  function OffsetOf(call: Call): int {
    match call.token
    case None => (call.page - 1) * call.pageSize
    case Some(token) =>
      match ContinuationToken.Decode(token)
      case None => 0
      case Some(cursor) => cursor.offset
  }

  predicate IsRefused(call: Call, allowed: bool) {
    !allowed || call.page < 1 || call.pageSize < 1 || (call.token.Some? && ContinuationToken.Decode(call.token.value).None?)
  }

  /**
    The answer to a call: the rows asked for are those from its offset on, the SQL starts with
    the caller's statement and is ordered, the reply is the upstream's, and a token is offered
    exactly when there is more, which leads to the next offset.
   */
  ghost predicate IsAnswerTo(a: Answer, call: Call, upstream: Request -> Reply) {
    && a.request.skip == OffsetOf(call) && a.request.max == call.pageSize
    && StripBy(call.statement, CodeIsSpace) <= a.request.sql && HasOrderBy(a.request.sql)
    && a.reply == upstream(a.request)
    && (a.info.Some? <==> a.reply.Page?)
    && (a.info.Some? ==>
          && a.info.value.offset == OffsetOf(call) && a.info.value.limit == call.pageSize
          && a.info.value.count == (if a.reply.rows.Some? then |a.reply.rows.value| else 0)
          && (a.info.value.hasMore <==> a.reply.more || (a.reply.rows.Some? && |a.reply.rows.value| == call.pageSize))
          && (a.info.value.token.Some? <==> a.info.value.hasMore)
          && a.info.value.nextPage == (if a.info.value.hasMore then Some(call.page + 1) else None)
          && (a.info.value.token.Some? ==> LeadsTo(a.info.value.token.value, OffsetOf(call) + call.pageSize, call.orderBy)))
  }

  /** Whoever follows the token asks from the offset on, under the order. */
  predicate LeadsTo(token: Text, offset: int, order: Option<Text>) {
    ContinuationToken.Decode(token) ==
      Some(ContinuationToken.Cursor(offset, match order case None => None case Some(c) => Some(JsonText.Fuse(c))))
  }

  /** `query_page`, in the order in which the original assigns its variables. */
  method QueryPage(call: Call, allowed: bool, upstream: Request -> Reply) returns (r: Result<Answer, PageError>)
    ensures r.Err? <==> IsRefused(call, allowed)
    ensures r == Err(PolicyDenied) <==> !allowed
    ensures r == Err(PageTooSmall) <==> allowed && call.page < 1
    ensures r == Err(PageSizeTooSmall) <==> allowed && call.page >= 1 && call.pageSize < 1
    ensures r.Ok? ==> IsAnswerTo(r.value, call, upstream)
    ensures r == AnswerOf(call, allowed, upstream)
  {
    hide ContinuationToken.Encode, ContinuationToken.Decode, NormalizeStatement, WithPaginationMetadata, IsAnswerTo;
    if !allowed { return Err(PolicyDenied); }
    if call.page < 1 { return Err(PageTooSmall); }
    if call.pageSize < 1 { return Err(PageSizeTooSmall); }
    var normalizedStatement := NormalizeStatement(call.statement, call.orderBy);
    var offset := (call.page - 1) * call.pageSize;
    if call.token.Some? {
      var decoded := ContinuationToken.Decode(call.token.value);
      if decoded.None? { return Err(InvalidToken); }
      offset := decoded.value.offset;
      if decoded.value.orderBy.Some? {
        normalizedStatement := NormalizeStatement(normalizedStatement, decoded.value.orderBy);
      }
    }
    var request := Request(normalizedStatement, offset, call.pageSize);
    var reply := upstream(request);
    r := Ok(Answer(request, reply, WithPaginationMetadata(reply, call, offset)));
    AnswerIsAnswer(call, upstream);
  }

  lemma AnswerIsAnswer(call: Call, upstream: Request -> Reply)
    requires !IsRefused(call, true)
    ensures IsAnswerTo(AnswerOf(call, true, upstream).value, call, upstream)
  {
    hide ContinuationToken.Encode, ContinuationToken.Decode, NormalizeStatement, HasOrderBy, StripBy, JsonText.Fuse;
    var a := AnswerOf(call, true, upstream).value;
    var offset: nat := OffsetOf(call);
    ContinuationToken.DecodeEncode(offset + call.pageSize, call.orderBy);
    KeepsStatement(call.statement, call.orderBy);
    IsOrdered(call.statement, call.orderBy);
    if call.token.Some? {
      var cursor := ContinuationToken.Decode(call.token.value).value;
      KeepsStatementTwice(call.statement, call.orderBy, cursor.orderBy);
      IsOrdered(NormalizeStatement(call.statement, call.orderBy), cursor.orderBy);
    }
  }

  lemma KeepsStatement(statement: Text, orderBy: Option<Text>)
    ensures StripBy(statement, CodeIsSpace) <= NormalizeStatement(statement, orderBy)
  {
    hide HasOrderBy, StripBy, T;
  }

  lemma KeepsStatementTwice(statement: Text, first: Option<Text>, second: Option<Text>)
    ensures StripBy(statement, CodeIsSpace) <= NormalizeStatement(NormalizeStatement(statement, first), second)
  {
    hide HasOrderBy, StripBy, T;
    var s, q := StripBy(statement, CodeIsSpace), NormalizeStatement(statement, first);
    StripByTwice(statement, CodeIsSpace);
    KeepsStatement(q, second);
    if q != s && s != [] {
      var x := if first.Some? then first.value else T("1");
      StripKeepsKeyword(s, x);
      StrippedStart(s);
      assert q[0] == s[0] && q[..|s|] == s;
      StripIsPrefix(q);
    }
  }

  /** Every SQL that is sent has an ORDER BY. */
  lemma IsOrdered(statement: Text, orderBy: Option<Text>)
    ensures HasOrderBy(NormalizeStatement(statement, orderBy))
  {
    hide HasOrderBy, StripBy;
    var s := StripBy(statement, CodeIsSpace);
    if !(orderBy.None? && HasOrderBy(s)) {
      OrderByIsFound(s, ORDER_BY, if orderBy.Some? then orderBy.value else T("1"), T("order"), T("by"));
    }
  }

  lemma OrderByIsFound(s: Text, keyword: Text, x: Text, order: Text, conj: Text)
    requires keyword == ORDER_BY && order == T("order") && conj == T("by")
    ensures HasOrderBy(s + keyword + x)
  {
    var sql := s + keyword + x;
    assert keyword == [0x20, 0x4F, 0x52, 0x44, 0x45, 0x52, 0x20, 0x42, 0x59, 0x20];
    assert order == [0x6F, 0x72, 0x64, 0x65, 0x72] && conj == [0x62, 0x79];
    assert forall k :: 0 <= k < 10 ==> sql[|s| + k] == keyword[k];
    var i: nat, j: nat := |s| + 1, |s| + 7;
    KeywordAt(sql, s, keyword, order, conj);
    assert OrderByBetween(sql, i, j);
  }

  lemma KeywordAt(sql: Text, s: Text, keyword: Text, order: Text, conj: Text)
    requires |sql| >= |s| + 10 && keyword == [0x20, 0x4F, 0x52, 0x44, 0x45, 0x52, 0x20, 0x42, 0x59, 0x20]
    requires order == [0x6F, 0x72, 0x64, 0x65, 0x72] && conj == [0x62, 0x79]
    requires forall k :: 0 <= k < 10 ==> sql[|s| + k] == keyword[k]
    ensures WordAt(sql, |s| + 1, order) && WordAt(sql, |s| + 7, conj)
    ensures WordBoundary(sql, |s| + 1) && WordBoundary(sql, |s| + 9) && CodeIsSpace(sql[|s| + 6])
  {
    forall k | 0 <= k < 5 ensures sql[|s| + 1 + k] as int + 0x20 == order[k] as int {
      assert sql[|s| + (1 + k)] == keyword[1 + k];
    }
    forall k | 0 <= k < 2 ensures sql[|s| + 7 + k] as int + 0x20 == conj[k] as int {
      assert sql[|s| + (7 + k)] == keyword[7 + k];
    }
    assert sql[|s| + 0] == keyword[0] && sql[|s| + 1] == keyword[1] && sql[|s| + 6] == keyword[6];
    assert sql[|s| + 8] == keyword[8] && sql[|s| + 9] == keyword[9];
  }

  // ---------------------------------------------------------------------- the walk

  /** How many of `n` rows a page of `max` rows from `skip` on can hold. */
  function PageLength(n: nat, skip: int, max: int): nat
    requires skip >= 0 && max >= 1
  {
    if skip + max <= n then max else if skip < n then n - skip else 0
  }

  /** The upstream pages through `table` for this SQL, and never claims more records when none are left. */
  ghost predicate Serves(upstream: Request -> Reply, sql: Text, table: seq<Row>) {
    forall skip, max :: skip >= 0 && max >= 1 ==> ServesPage(upstream(Request(sql, skip, max)), skip, max, table)
  }

  ghost predicate ServesPage(reply: Reply, skip: int, max: int, table: seq<Row>)
    requires skip >= 0 && max >= 1
  {
    var length := PageLength(|table|, skip, max);
    && reply.Page?
    && reply.rows == Some(if length == 0 then [] else table[skip..skip + length])
    && (reply.more ==> skip + max < |table|)
  }

  /** What one call of a walk asks for besides its token. */
  datatype Turn = Turn(page: int, size: int, order: Option<Text>)

  predicate IsValid(turn: Turn) {
    turn.page >= 1 && turn.size >= 1
  }

  /** A turn that asks for no order. */
  predicate IsPlain(turn: Turn) {
    IsValid(turn) && turn.order.None?
  }

  /** The k-th call of a walk: its turn may differ from the others, its token comes from the call before. */
  function WalkCall(statement: Text, turns: nat -> Turn, k: nat, token: Option<Text>): Call {
    Call(statement, turns(k).page, turns(k).size, token, turns(k).order)
  }

  /** Following the tokens for at most `fuel` calls: the answers, in order. */
  function Walk(
    upstream: Request -> Reply, statement: Text, turns: nat -> Turn,
    k: nat, token: Option<Text>, fuel: nat): seq<Answer>
    decreases fuel
  {
    if fuel == 0 then []
    else
      match AnswerOf(WalkCall(statement, turns, k, token), true, upstream)
      case Err(_) => []
      case Ok(answer) =>
        if answer.info.Some? && answer.info.value.token.Some? then
          [answer] + Walk(upstream, statement, turns, k + 1, answer.info.value.token, fuel - 1)
        else [answer]
  }

  function RowsOf(answers: seq<Answer>): seq<Row> {
    if answers == [] then []
    else
      (if answers[0].reply.Page? && answers[0].reply.rows.Some? then answers[0].reply.rows.value else [])
      + RowsOf(answers[1..])
  }

  /** The last answer offers no token: the walk has ended on its own. */
  predicate Complete(answers: seq<Answer>) {
    answers != [] && var last := answers[|answers| - 1]; last.info.Some? && last.info.value.token.None?
  }

  /** A call asks for the rows from `offset` on: by its token, or by page number without one. */
  predicate Asks(token: Option<Text>, offset: nat, page: int, pageSize: int) {
    match token
    case None => (page - 1) * pageSize == offset
    case Some(text) => text == ContinuationToken.Encode(offset, None)
  }

  /** One call of the walk, with a token for `offset`. */
  lemma WalkStep(
    upstream: Request -> Reply, statement: Text, table: seq<Row>, turns: nat -> Turn,
    k: nat, token: Option<Text>, offset: nat)
    requires Serves(upstream, NormalizeStatement(statement, None), table)
    requires IsPlain(turns(k))
    requires Asks(token, offset, turns(k).page, turns(k).size)
    ensures var r := AnswerOf(WalkCall(statement, turns, k, token), true, upstream);
      && r.Ok?
      && r.value.request == Request(NormalizeStatement(statement, None), offset, turns(k).size)
      && ServesPage(r.value.reply, offset, turns(k).size, table)
      && r.value.info.Some?
      && r.value.info.value.token ==
         if offset + turns(k).size <= |table| then Some(ContinuationToken.Encode(offset + turns(k).size, None)) else None
  {
    hide ContinuationToken.Encode, ContinuationToken.Decode, NormalizeStatement;
    if token.Some? { ContinuationToken.RoundTripExactly(offset, None); }
    var request := Request(NormalizeStatement(statement, None), offset, turns(k).size);
    assert RequestOf(WalkCall(statement, turns, k, token), true) == Ok(request);
    assert ServesPage(upstream(request), offset, turns(k).size, table);
  }

  /** A full page, then the rows after it. */
  lemma RowsThenRest(first: Answer, rest: seq<Answer>, table: seq<Row>, offset: nat, size: nat)
    requires size >= 1 && ServesPage(first.reply, offset, size, table)
    requires offset + size <= |table| && RowsOf(rest) == table[offset + size..]
    ensures RowsOf([first] + rest) == table[offset..]
  {
    assert ([first] + rest)[1..] == rest;
    assert table[offset..] == table[offset..offset + size] + table[offset + size..];
  }

  lemma LastRows(last: Answer, table: seq<Row>, offset: nat, size: nat)
    requires size >= 1 && ServesPage(last.reply, offset, size, table)
    requires offset <= |table| < offset + size
    ensures RowsOf([last]) == table[offset..]
  {
    assert [last][1..] == [];
  }

  /** From a token for `offset` on, the walk returns the rows from there, with the same SQL each time. */
  lemma {:induction false} WalkFrom(
    upstream: Request -> Reply, statement: Text, table: seq<Row>, turns: nat -> Turn,
    k: nat, token: Option<Text>, offset: nat, fuel: nat)
    requires Serves(upstream, NormalizeStatement(statement, None), table)
    requires forall i :: IsPlain(turns(i))
    requires Asks(token, offset, turns(k).page, turns(k).size)
    requires offset <= |table| && fuel > |table| - offset
    ensures var answers := Walk(upstream, statement, turns, k, token, fuel);
      && Complete(answers)
      && RowsOf(answers) == table[offset..]
      && forall a :: a in answers ==> a.request.sql == NormalizeStatement(statement, None)
    decreases fuel
  {
    hide ContinuationToken.Encode, ContinuationToken.Decode, NormalizeStatement, AnswerOf, Serves, ServesPage, RowsOf;
    WalkStep(upstream, statement, table, turns, k, token, offset);
    var answers := Walk(upstream, statement, turns, k, token, fuel);
    var first := AnswerOf(WalkCall(statement, turns, k, token), true, upstream).value;
    var next := offset + turns(k).size;
    if next <= |table| {
      WalkFrom(upstream, statement, table, turns, k + 1, first.info.value.token, next, fuel - 1);
      var rest := Walk(upstream, statement, turns, k + 1, first.info.value.token, fuel - 1);
      assert answers == [first] + rest;
      RowsThenRest(first, rest, table, offset, turns(k).size);
    } else {
      assert answers == [first];
      LastRows(first, table, offset, turns(k).size);
    }
  }

  /**
    Walking from page 1 with tokens, whatever the page sizes: every request
    carries the same SQL, and the rows come back once each, in order.
   */
  lemma TokenWalkExact(
    upstream: Request -> Reply, statement: Text, table: seq<Row>, turns: nat -> Turn, fuel: nat)
    requires Serves(upstream, NormalizeStatement(statement, None), table)
    requires forall i :: IsPlain(turns(i))
    requires turns(0).page == 1 && fuel > |table|
    ensures var answers := Walk(upstream, statement, turns, 0, None, fuel);
      && Complete(answers)
      && RowsOf(answers) == table
      && forall a :: a in answers ==> a.request.sql == NormalizeStatement(statement, None)
  {
    WalkFrom(upstream, statement, table, turns, 0, None, 0, fuel);
    assert table[0..] == table;
  }

  /** The requests it takes to read n rows. */
  function Requests(n: nat, size: nat): nat
    requires size >= 1
  {
    n / size + 1
  }

  lemma LastRequest(n: nat, size: nat)
    requires size >= 1
    ensures n < size ==> Requests(n, size) == 1
  {
  }

  /** With one page size throughout, the walk over n rows takes n / size + 1 requests. */
  lemma {:induction false} WalkLength(
    upstream: Request -> Reply, statement: Text, table: seq<Row>, turns: nat -> Turn, size: nat,
    k: nat, token: Option<Text>, offset: nat, fuel: nat)
    requires Serves(upstream, NormalizeStatement(statement, None), table)
    requires size >= 1 && forall i :: IsPlain(turns(i)) && turns(i).size == size
    requires Asks(token, offset, turns(k).page, turns(k).size)
    requires offset <= |table| && fuel > |table| - offset
    ensures |Walk(upstream, statement, turns, k, token, fuel)| == Requests(|table| - offset, size)
    decreases fuel
  {
    hide ContinuationToken.Encode, ContinuationToken.Decode, NormalizeStatement, AnswerOf, Serves, ServesPage, Requests;
    WalkStep(upstream, statement, table, turns, k, token, offset);
    LastRequest(|table| - offset, size);
    var next := offset + size;
    if next <= |table| {
      var first := AnswerOf(WalkCall(statement, turns, k, token), true, upstream).value;
      WalkLength(upstream, statement, table, turns, size, k + 1, first.info.value.token, next, fuel - 1);
      OneMore(|table| - next, size);
    }
  }

  lemma AtLeastOneStep(d: int, size: nat)
    requires d >= 1
    ensures d * size >= size
  {
    assert d * size == (d - 1) * size + size;
  }

  lemma QuotientIsUnique(q: int, r: int, p: int, t: int, size: nat)
    requires q * size + r == p * size + t && 0 <= r < size && 0 <= t < size
    ensures q == p
  {
    assert (q - p) * size == q * size - p * size;
    assert (p - q) * size == p * size - q * size;
    if q > p { AtLeastOneStep(q - p, size); }
    if q < p { AtLeastOneStep(p - q, size); }
  }

  lemma OneMore(n: nat, size: nat)
    requires size >= 1
    ensures Requests(n + size, size) == Requests(n, size) + 1
  {
    assert (n / size + 1) * size == n / size * size + size;
    QuotientIsUnique((n + size) / size, (n + size) % size, n / size + 1, n % size, size);
  }

  lemma TokenWalkLength(
    upstream: Request -> Reply, statement: Text, table: seq<Row>, turns: nat -> Turn, size: nat, fuel: nat)
    requires Serves(upstream, NormalizeStatement(statement, None), table)
    requires size >= 1 && forall i :: IsPlain(turns(i)) && turns(i).size == size
    requires turns(0).page == 1 && fuel > |table|
    ensures |Walk(upstream, statement, turns, 0, None, fuel)| == |table| / size + 1
  {
    hide ContinuationToken.Encode, ContinuationToken.Decode, NormalizeStatement, AnswerOf, Serves, Walk;
    WalkLength(upstream, statement, table, turns, size, 0, None, 0, fuel);
  }

  // ------------------------------------------------------- when the walk is exact

  /** The rows of `table` from `offset` on, none past its end. */
  function Tail(table: seq<Row>, offset: nat): seq<Row> {
    if offset <= |table| then table[offset..] else []
  }

  /** An upstream whose pages hold the right rows but may be short, whatever it says about more records. */
  ghost predicate MayTruncate(upstream: Request -> Reply, sql: Text, table: seq<Row>) {
    forall skip, max :: skip >= 0 && max >= 1 ==> Truncated(upstream(Request(sql, skip, max)), skip, max, table)
  }

  ghost predicate Truncated(reply: Reply, skip: int, max: int, table: seq<Row>)
    requires skip >= 0 && max >= 1
  {
    && reply.Page? && reply.rows.Some?
    && |reply.rows.value| <= PageLength(|table|, skip, max)
    && (reply.rows.value != [] ==> reply.rows.value == table[skip..skip + |reply.rows.value|])
  }

  /** A page is full when it holds every row that its request could hold. */
  predicate Full(a: Answer, n: nat)
    requires a.request.skip >= 0 && a.request.max >= 1
  {
    a.reply.Page? && a.reply.rows.Some? && |a.reply.rows.value| == PageLength(n, a.request.skip, a.request.max)
  }

  predicate AllFull(answers: seq<Answer>, n: nat) {
    forall a :: a in answers ==> a.request.skip >= 0 && a.request.max >= 1 && Full(a, n)
  }

  /** One call of the walk against such an upstream. */
  lemma TruncatedStep(
    upstream: Request -> Reply, statement: Text, table: seq<Row>, turns: nat -> Turn,
    k: nat, token: Option<Text>, offset: nat)
    requires MayTruncate(upstream, NormalizeStatement(statement, None), table)
    requires IsPlain(turns(k))
    requires Asks(token, offset, turns(k).page, turns(k).size)
    ensures var r := AnswerOf(WalkCall(statement, turns, k, token), true, upstream);
      && r.Ok?
      && r.value.request == Request(NormalizeStatement(statement, None), offset, turns(k).size)
      && Truncated(r.value.reply, offset, turns(k).size, table)
      && r.value.info.Some?
      && r.value.info.value.token ==
         if HasMore(r.value.reply, turns(k).size) then Some(ContinuationToken.Encode(offset + turns(k).size, None)) else None
  {
    hide ContinuationToken.Encode, ContinuationToken.Decode, NormalizeStatement;
    if token.Some? { ContinuationToken.RoundTripExactly(offset, None); }
    var request := Request(NormalizeStatement(statement, None), offset, turns(k).size);
    assert RequestOf(WalkCall(statement, turns, k, token), true) == Ok(request);
    assert Truncated(upstream(request), offset, turns(k).size, table);
  }

  /** What one page adds: all of its stretch of the table exactly when it is full. */
  lemma PageThenTail(table: seq<Row>, offset: nat, size: nat, reply: Reply, rest: seq<Row>)
    requires size >= 1 && Truncated(reply, offset, size, table)
    requires |rest| <= |Tail(table, offset + size)|
    ensures |reply.rows.value + rest| <= |Tail(table, offset)|
    ensures reply.rows.value + rest == Tail(table, offset) <==>
      |reply.rows.value| == PageLength(|table|, offset, size) && rest == Tail(table, offset + size)
  {
    var rows := reply.rows.value;
    var length := PageLength(|table|, offset, size);
    assert |Tail(table, offset)| == length + |Tail(table, offset + size)|;
    if |rows| == length && rest == Tail(table, offset + size) {
      assert rows + rest == Tail(table, offset);
    }
    if rows + rest == Tail(table, offset) {
      assert rest == (rows + rest)[|rows|..];
      assert Tail(table, offset)[length..] == Tail(table, offset + size);
    }
  }

  lemma AllFullCons(first: Answer, rest: seq<Answer>, n: nat)
    requires first.request.skip >= 0 && first.request.max >= 1
    ensures AllFull([first] + rest, n) <==> Full(first, n) && AllFull(rest, n)
  {
    assert first in [first] + rest;
    assert forall a :: a in rest ==> a in [first] + rest;
  }

  /** The answers from `offset` on hold no more than the tail, and all of it exactly when all are full. */
  ghost predicate Covers(answers: seq<Answer>, table: seq<Row>, offset: nat) {
    && |RowsOf(answers)| <= |Tail(table, offset)|
    && (RowsOf(answers) == Tail(table, offset) <==> AllFull(answers, |table|))
  }

  lemma CoversCons(first: Answer, rest: seq<Answer>, table: seq<Row>, offset: nat, size: nat)
    requires size >= 1 && first.request.skip == offset && first.request.max == size
    requires Truncated(first.reply, offset, size, table)
    requires Covers(rest, table, offset + size)
    ensures Covers([first] + rest, table, offset)
  {
    assert ([first] + rest)[1..] == rest;
    PageThenTail(table, offset, size, first.reply, RowsOf(rest));
    AllFullCons(first, rest, |table|);
  }

  /** A page without more records ends the walk: if it is full, nothing is left. */
  lemma CoversLast(first: Answer, table: seq<Row>, offset: nat, size: nat)
    requires size >= 1 && first.request.skip == offset && first.request.max == size
    requires Truncated(first.reply, offset, size, table) && !HasMore(first.reply, size)
    ensures Covers([first], table, offset)
  {
    PageThenTail(table, offset, size, first.reply, []);
    AllFullCons(first, [], |table|);
    assert [first] + [] == [first] && [first][1..] == [];
    assert first.reply.rows.value + [] == first.reply.rows.value;
    if Full(first, |table|) {
      assert Tail(table, offset + size) == [];
    }
  }

  lemma {:induction false} WalkCoversFrom(
    upstream: Request -> Reply, statement: Text, table: seq<Row>, turns: nat -> Turn,
    k: nat, token: Option<Text>, offset: nat, fuel: nat)
    requires MayTruncate(upstream, NormalizeStatement(statement, None), table)
    requires forall i :: IsPlain(turns(i))
    requires Asks(token, offset, turns(k).page, turns(k).size)
    requires Complete(Walk(upstream, statement, turns, k, token, fuel))
    ensures Covers(Walk(upstream, statement, turns, k, token, fuel), table, offset)
    decreases fuel
  {
    hide ContinuationToken.Encode, ContinuationToken.Decode, NormalizeStatement, Covers, AnswerOf, MayTruncate;
    TruncatedStep(upstream, statement, table, turns, k, token, offset);
    var answers := Walk(upstream, statement, turns, k, token, fuel);
    var first := AnswerOf(WalkCall(statement, turns, k, token), true, upstream).value;
    if first.info.value.token.Some? {
      var rest := Walk(upstream, statement, turns, k + 1, first.info.value.token, fuel - 1);
      assert answers == [first] + rest;
      assert rest != [] ==> answers[|answers| - 1] == rest[|rest| - 1];
      WalkCoversFrom(upstream, statement, table, turns, k + 1, first.info.value.token, offset + turns(k).size, fuel - 1);
      CoversCons(first, rest, table, offset, turns(k).size);
    } else {
      assert answers == [first];
      CoversLast(first, table, offset, turns(k).size);
    }
  }

  /**
    The offset advances by the page size and not by the row count, so a walk that
    ends has returned the whole table exactly when every page was full: each page
    short of the rows it could hold loses the rows it leaves out.
   */
  lemma WalkCoversExactly(
    upstream: Request -> Reply, statement: Text, table: seq<Row>, turns: nat -> Turn, fuel: nat)
    requires MayTruncate(upstream, NormalizeStatement(statement, None), table)
    requires forall i :: IsPlain(turns(i))
    requires turns(0).page == 1
    requires Complete(Walk(upstream, statement, turns, 0, None, fuel))
    ensures var answers := Walk(upstream, statement, turns, 0, None, fuel);
      RowsOf(answers) == table <==> AllFull(answers, |table|)
  {
    WalkCoversFrom(upstream, statement, table, turns, 0, None, 0, fuel);
    assert Tail(table, 0) == table;
  }

  /** A page that holds nothing and claims no more is within what the walk has to expect, and loses the table. */
  lemma ShortPageLosesRows(statement: Text, table: seq<Row>, turns: nat -> Turn, fuel: nat) returns (upstream: Request -> Reply)
    requires table != [] && (forall i :: IsPlain(turns(i))) && turns(0).page == 1 && fuel >= 1
    ensures MayTruncate(upstream, NormalizeStatement(statement, None), table)
    ensures var answers := Walk(upstream, statement, turns, 0, None, fuel);
      Complete(answers) && RowsOf(answers) == []
  {
    hide NormalizeStatement, ContinuationToken.Encode;
    upstream := (r: Request) => Page(Some([]), false);
    var answers := Walk(upstream, statement, turns, 0, None, fuel);
    assert answers == [AnswerOf(WalkCall(statement, turns, 0, None), true, upstream).value];
    assert answers[1..] == [];
  }
}
