/** Walks whose calls name an order: which of them send one SQL on every page. */
module SqlOrders {
  import opened Prelude
  import opened PyText
  import opened SqlPaging
  import ContinuationToken
  import JsonText

  lemma StripStartsPlain(s: Text)
    requires StripBy(s, CodeIsSpace) != []
    ensures !CodeIsSpace(StripBy(s, CodeIsSpace)[0])
  {
    var front := DropWhile(s, CodeIsSpace);
    assert StripBy(s, CodeIsSpace)[0] == front[0];
  }

  /** A text that ends in something longer than what fusing took away is not the fused text. */
  lemma FusedIsNoTail(d: Text, v: Text)
    requires v != [] && !JsonText.IsHigh(v[|v| - 1])
    ensures d != v + JsonText.Fuse(d)
  {
    hide JsonText.Fuse, JsonText.HasSplitPair;
    var f := JsonText.Fuse(d);
    JsonText.FuseApart(v, f);
    JsonText.FusedHasNoPair(d);
    JsonText.FuseExactly(f);
    JsonText.FuseKeepsSome(v);
  }

  lemma OrderByEnds()
    ensures |ORDER_BY| == 10 && ORDER_BY[0] == 0x20 && ORDER_BY[9] == 0x20
  {
  }

  /** A second ORDER BY never gives the SQL of the first page, not even through fused surrogates. */
  lemma TwiceOrderedDiffers(s: Text, x: Text, d: Text)
    requires StripBy(s, CodeIsSpace) == s
    ensures StripBy(s + ORDER_BY + x, CodeIsSpace) + ORDER_BY + JsonText.Fuse(d) != s + ORDER_BY + d
  {
    hide T, StripBy, JsonText.Fuse;
    StripKeepsKeyword(s, x);
    OrderByEnds();
    var q := s + ORDER_BY + x;
    if s == [] {
      StripStartsPlain(q);
      StartsDiffer(StripBy(q, CodeIsSpace), ORDER_BY + JsonText.Fuse(d), ORDER_BY + d);
      assert StripBy(q, CodeIsSpace) + (ORDER_BY + JsonText.Fuse(d)) == StripBy(q, CodeIsSpace) + ORDER_BY + JsonText.Fuse(d);
      assert [] + ORDER_BY + d == ORDER_BY + d;
    } else {
      StrippedStart(s);
      assert q[0] == s[0];
      StripIsPrefix(q);
      assert q[..|s|] == s;
      AfterKeyword(s, StripBy(q, CodeIsSpace), d);
    }
  }

  lemma StartsDiffer(t: Text, more: Text, other: Text)
    requires t != [] && other != [] && t[0] != other[0]
    ensures t + more != other
  {
    assert (t + more)[0] == t[0];
  }

  lemma AfterKeyword(s: Text, t: Text, d: Text)
    requires |t| > |s| && s <= t
    ensures t + ORDER_BY + JsonText.Fuse(d) != s + ORDER_BY + d
  {
    hide T, JsonText.Fuse;
    OrderByEnds();
    var left, f := t + ORDER_BY, JsonText.Fuse(d);
    var v := left[|s| + 10..];
    assert v[|v| - 1] == ORDER_BY[9];
    FusedIsNoTail(d, v);
    assert (left + f)[|s| + 10..] == v + f && (s + ORDER_BY + d)[|s| + 10..] == d;
  }

  // ------------------------------------------------ walks whose calls name an order

  const ONE := T("1")

  /** Two arguments give one statement the same SQL: they are equal, or the default spelled out. */
  lemma SameNormalized(statement: Text, o: Option<Text>, p: Option<Text>)
    ensures NormalizeStatement(statement, o) == NormalizeStatement(statement, p) <==>
      || o == p
      || (!HasOrderBy(StripBy(statement, CodeIsSpace)) && (o.None? || o == Some(ONE)) && (p.None? || p == Some(ONE)))
  {
    OrderByEnds();
    hide HasOrderBy, StripBy, T;
    var s := StripBy(statement, CodeIsSpace);
    forall x: Text, y: Text ensures s + ORDER_BY + x == s + ORDER_BY + y <==> x == y {
      assert (s + ORDER_BY + x)[|s| + 10..] == x && (s + ORDER_BY + y)[|s| + 10..] == y;
    }
  }

  /**
    A token made under `order_by=column` is followed with `order_by=next`.  The page then
    sends the SQL of a page asked for with `column` exactly when the statement has an ORDER BY
    of its own, the caller does not name an order again, and the column comes through the token.
   */
  lemma FollowedSqlExactly(statement: Text, column: Text, next: Option<Text>)
    ensures NormalizeStatement(NormalizeStatement(statement, next), Some(JsonText.Fuse(column)))
        == NormalizeStatement(statement, Some(column))
      <==> next.None? && HasOrderBy(StripBy(statement, CodeIsSpace)) && !JsonText.HasSplitPair(column)
  {
    OrderByEnds();
    JsonText.FuseExactly(column);
    hide HasOrderBy, StripBy, JsonText.Fuse, JsonText.HasSplitPair, T;
    var s, f := StripBy(statement, CodeIsSpace), JsonText.Fuse(column);
    StripByTwice(statement, CodeIsSpace);
    if next.None? && HasOrderBy(s) {
      assert (s + ORDER_BY + f)[|s| + 10..] == f && (s + ORDER_BY + column)[|s| + 10..] == column;
    } else {
      TwiceOrderedDiffers(s, if next.Some? then next.value else ONE, column);
    }
  }

  /** The SQL of page k of a walk: the order that the token brings is the one that the call before named. */
  function PageSql(statement: Text, turns: nat -> Turn, k: nat): Text {
    var own := NormalizeStatement(statement, turns(k).order);
    if k == 0 || turns(k - 1).order.None? then own
    else NormalizeStatement(own, Some(JsonText.Fuse(turns(k - 1).order.value)))
  }

  /** The token that page k is asked for with. */
  ghost predicate TokenFits(turns: nat -> Turn, k: nat, token: Option<Text>) {
    if k == 0 then token.None?
    else IsTokenOf(token, turns(k - 1).order)
  }

  ghost predicate IsTokenOf(token: Option<Text>, order: Option<Text>) {
    exists offset: nat :: IsTokenFor(token, offset, order)
  }

  predicate IsTokenFor(token: Option<Text>, offset: nat, order: Option<Text>) {
    token == Some(ContinuationToken.Encode(offset, order))
  }

  lemma PageRequest(upstream: Request -> Reply, statement: Text, turns: nat -> Turn, k: nat, token: Option<Text>)
    requires IsValid(turns(k)) && TokenFits(turns, k, token)
    ensures var r := AnswerOf(WalkCall(statement, turns, k, token), true, upstream);
      && r.Ok? && r.value.request.sql == PageSql(statement, turns, k)
      && (r.value.info.Some? && r.value.info.value.token.Some? ==> TokenFits(turns, k + 1, r.value.info.value.token))
  {
    hide ContinuationToken.Encode, ContinuationToken.Decode, NormalizeStatement, JsonText.Fuse, HasMore;
    if k > 0 {
      var offset: nat :| IsTokenFor(token, offset, turns(k - 1).order);
      ContinuationToken.DecodeEncode(offset, turns(k - 1).order);
    }
    var r := AnswerOf(WalkCall(statement, turns, k, token), true, upstream);
    if r.value.info.Some? && r.value.info.value.token.Some? {
      var next: nat := r.value.request.skip + turns(k).size;
      assert IsTokenFor(r.value.info.value.token, next, turns(k + 1 - 1).order);
    }
  }

  /** The answers are those of the pages from k on. */
  ghost predicate SendPages(answers: seq<Answer>, statement: Text, turns: nat -> Turn, k: nat) {
    forall i: nat :: i < |answers| ==> answers[i].request.sql == PageSql(statement, turns, k + i)
  }

  lemma SendOneMore(first: Answer, rest: seq<Answer>, statement: Text, turns: nat -> Turn, k: nat)
    requires first.request.sql == PageSql(statement, turns, k) && SendPages(rest, statement, turns, k + 1)
    ensures SendPages([first] + rest, statement, turns, k)
  {
    hide PageSql;
    var answers := [first] + rest;
    forall i: nat | i < |answers| ensures answers[i].request.sql == PageSql(statement, turns, k + i) {
      if i > 0 {
        var j: nat := i - 1;
        assert rest[j].request.sql == PageSql(statement, turns, k + 1 + j);
      }
    }
  }

  lemma {:induction false} WalkSql(
    upstream: Request -> Reply, statement: Text, turns: nat -> Turn, k: nat, token: Option<Text>, fuel: nat)
    requires (forall i :: IsValid(turns(i))) && TokenFits(turns, k, token)
    ensures SendPages(Walk(upstream, statement, turns, k, token, fuel), statement, turns, k)
    decreases fuel
  {
    hide PageSql, AnswerOf, TokenFits;
    if fuel > 0 {
      PageRequest(upstream, statement, turns, k, token);
      var first := AnswerOf(WalkCall(statement, turns, k, token), true, upstream).value;
      if first.info.Some? && first.info.value.token.Some? {
        WalkSql(upstream, statement, turns, k + 1, first.info.value.token, fuel - 1);
        SendOneMore(first, Walk(upstream, statement, turns, k + 1, first.info.value.token, fuel - 1), statement, turns, k);
      }
    }
  }

  /**
    The orders under which n pages send one SQL.  Without an order on the first page: no order
    on any other, but the default may be spelled out on the last.  With one: a single page, or
    a statement with an ORDER BY of its own, a column that comes through the token, and every
    other call naming that column again.
   */
  predicate KeepsSql(statement: Text, turns: nat -> Turn, n: nat) {
    var ordered := HasOrderBy(StripBy(statement, CodeIsSpace));
    match turns(0).order
    case None => forall k: nat :: 1 <= k < n ==> IsUnordered(turns(k).order) || (!ordered && k == n - 1 && turns(k).order == Some(ONE))
    case Some(column) =>
      n <= 1 || (ordered && !JsonText.HasSplitPair(column) && forall k: nat :: k < n ==> turns(k).order == Alternating(column, k))
  }

  predicate IsUnordered(order: Option<Text>) { order.None? }

  /** The column on every other page, from the first on. */
  function Alternating(column: Text, k: nat): Option<Text> {
    if k % 2 == 0 then Some(column) else None
  }

  ghost predicate SameSql(statement: Text, turns: nat -> Turn, n: nat) {
    forall k: nat :: k < n ==> PageSql(statement, turns, k) == PageSql(statement, turns, 0)
  }

  /** One page more, when the first names no order. */
  lemma UnorderedPage(statement: Text, turns: nat -> Turn, k: nat)
    requires k >= 1 && turns(0).order.None?
    requires turns(k - 1).order.None? ||
      (turns(k - 1).order == Some(ONE) && !HasOrderBy(StripBy(statement, CodeIsSpace)))
    ensures PageSql(statement, turns, k) == PageSql(statement, turns, 0) <==>
      && turns(k - 1).order.None?
      && (turns(k).order.None? || (!HasOrderBy(StripBy(statement, CodeIsSpace)) && turns(k).order == Some(ONE)))
  {
    hide HasOrderBy, StripBy, JsonText.Fuse, JsonText.HasSplitPair, NormalizeStatement;
    SameNormalized(statement, turns(k).order, None);
    SameNormalized(statement, Some(ONE), None);
    FollowedSqlExactly(statement, ONE, turns(k).order);
  }

  /** One page more, when the first names an order. */
  lemma OrderedPage(statement: Text, turns: nat -> Turn, k: nat, column: Text)
    requires k >= 1 && turns(0).order == Some(column) && turns(k - 1).order == Alternating(column, k - 1)
    requires k >= 2 ==> HasOrderBy(StripBy(statement, CodeIsSpace)) && !JsonText.HasSplitPair(column)
    ensures PageSql(statement, turns, k) == PageSql(statement, turns, 0) <==>
      && HasOrderBy(StripBy(statement, CodeIsSpace)) && !JsonText.HasSplitPair(column)
      && turns(k).order == Alternating(column, k)
  {
    hide HasOrderBy, StripBy, JsonText.Fuse, JsonText.HasSplitPair, NormalizeStatement;
    SameNormalized(statement, turns(k).order, Some(column));
    FollowedSqlExactly(statement, column, turns(k).order);
  }

  lemma {:induction false} SameSqlExactly(statement: Text, turns: nat -> Turn, n: nat)
    ensures SameSql(statement, turns, n) <==> KeepsSql(statement, turns, n)
  {
    hide HasOrderBy, StripBy, JsonText.HasSplitPair, PageSql;
    if n > 1 {
      var m: nat := n - 1;
      SameSqlExactly(statement, turns, m);
      assert SameSql(statement, turns, n) <==>
        SameSql(statement, turns, m) && PageSql(statement, turns, m) == PageSql(statement, turns, 0);
      OneMorePage(statement, turns, m);
    }
  }

  lemma OneMorePage(statement: Text, turns: nat -> Turn, m: nat)
    requires m >= 1
    ensures KeepsSql(statement, turns, m + 1) <==>
      KeepsSql(statement, turns, m) && PageSql(statement, turns, m) == PageSql(statement, turns, 0)
  {
    hide HasOrderBy, StripBy, JsonText.HasSplitPair, PageSql;
    match turns(0).order {
      case None =>
        if KeepsSql(statement, turns, m) { UnorderedPage(statement, turns, m); }
      case Some(column) =>
        if KeepsSql(statement, turns, m) {
          assert turns(m - 1).order == Alternating(column, m - 1);
          OrderedPage(statement, turns, m, column);
        }
    }
  }

  /** All requests of a walk carry the SQL of the first exactly when the calls name their orders so. */
  lemma WalkKeepsSqlExactly(upstream: Request -> Reply, statement: Text, turns: nat -> Turn, fuel: nat)
    requires forall i :: IsValid(turns(i))
    ensures var answers := Walk(upstream, statement, turns, 0, None, fuel);
      (forall i :: 0 <= i < |answers| ==> answers[i].request.sql == answers[0].request.sql) <==>
      KeepsSql(statement, turns, |answers|)
  {
    hide PageSql, KeepsSql, Walk;
    WalkSql(upstream, statement, turns, 0, None, fuel);
    var answers := Walk(upstream, statement, turns, 0, None, fuel);
    SameSqlExactly(statement, turns, |answers|);
    SentPages(answers, statement, turns);
  }

  lemma SentPages(answers: seq<Answer>, statement: Text, turns: nat -> Turn)
    requires SendPages(answers, statement, turns, 0)
    ensures (forall i :: 0 <= i < |answers| ==> answers[i].request.sql == answers[0].request.sql) <==>
      SameSql(statement, turns, |answers|)
  {
    hide PageSql;
    forall k: nat | k < |answers| ensures answers[k].request.sql == PageSql(statement, turns, k) {
      assert answers[k].request.sql == PageSql(statement, turns, 0 + k);
    }
    if SameSql(statement, turns, |answers|) {
      forall i | 0 <= i < |answers| ensures answers[i].request.sql == answers[0].request.sql {
        var k: nat := i;
        assert PageSql(statement, turns, k) == PageSql(statement, turns, 0);
      }
    }
  }
}
