/** The search for an error code in a decoded reply, and the verdict on it. */
module ErrorCodes {
  import opened Prelude
  import opened PyText
  import opened JsonText

  const MAX_DEPTH: nat := 4
  const SESSION_EXPIRED_CODE := 12031

  /** A bool is an int in Python, but is refused first. */
  function CoerceErrorCode(value: Doc): Option<int> {
    match value
    case DInt(n) => Some(n)
    case DStr(text) => ParseInt(text)
    case _ => None
  }

  lemma {:induction false} ReadDigits(n: nat)
    ensures Digits(Decimal(n)) == Some(n)
    decreases n
  {
    if n < 10 {
      assert Decimal(n)[..0] == [];
    } else {
      ReadDigits(n / 10);
      var s := Decimal(n);
      assert s[..|s| - 1] == Decimal(n / 10);
    }
  }

  /** A code may be an int, or a text: an int in decimal, with a sign or not, and any space around it. */
  lemma ReadCode(n: nat, sign: Text, before: Text, after: Text)
    requires sign == [] || sign == [0x2B] || sign == [0x2D]
    requires (forall i :: 0 <= i < |before| ==> CodeIsSpace(before[i])) && (forall i :: 0 <= i < |after| ==> CodeIsSpace(after[i]))
    ensures CoerceErrorCode(DStr(before + (sign + Decimal(n)) + after)) == Some((if sign == [0x2D] then -1 else 1) * n)
  {
    hide Decimal, Digits, StripBy;
    var digits, core := Decimal(n), sign + Decimal(n);
    assert IsDigit(digits[0]) && IsDigit(digits[|digits| - 1]);
    assert core[|core| - 1] == digits[|digits| - 1];
    StripBetween(before, core, after, CodeIsSpace);
    ReadDigits(n);
    if sign == [] {
      assert core == digits;
    } else {
      assert core[1..] == digits;
    }
  }

  /** What the loops of the search run over: the values of a dictionary, the items of a list. */
  function Children(d: Doc): (children: seq<Doc>)
    ensures forall i :: 0 <= i < |children| ==> children[i] < d
  {
    match d
    case DDict(members) =>
      assert forall i :: 0 <= i < |members| ==> members[i].value < members[i] && members[i] in members;
      seq(|members|, i requires 0 <= i < |members| => members[i].value)
    case DList(items) => items
    case _ => []
  }

  function ExtractErrorCode(payload: Doc, depth: nat): Option<int>
    decreases payload, 1, 0
  {
    if depth > MAX_DEPTH then None
    else
      match payload
      case DDict(members) =>
        (match CoerceErrorCode(Get(members, T("errorCode")))
         case Some(direct) => Some(direct)
         case None => FirstAmongChildren(payload, 0, depth + 1))
      case DList(_) => FirstAmongChildren(payload, 0, depth + 1)
      case _ => CoerceErrorCode(payload)
  }

  function FirstAmongChildren(payload: Doc, from: nat, depth: nat): Option<int>
    requires from <= |Children(payload)|
    decreases payload, 0, |Children(payload)| - from
  {
    if from == |Children(payload)| then None
    else
      match ExtractErrorCode(Children(payload)[from], depth)
      case Some(nested) => Some(nested)
      case None => FirstAmongChildren(payload, from + 1, depth)
  }

  // ------------------------------------------- the same, by position in the reply

  /** A position: the child indices from the root. */
  type Position = seq<nat>

  function At(d: Doc, p: Position): Option<Doc>
    decreases |p|
  {
    if p == [] then Some(d)
    else if p[0] < |Children(d)| then At(Children(d)[p[0]], p[1..])
    else None
  }

  /** A value that is itself a code, or a dictionary whose own `errorCode` is one. */
  function OwnCode(d: Doc): Option<int> {
    match d
    case DDict(members) => CoerceErrorCode(Get(members, T("errorCode")))
    case DList(_) => None
    case _ => CoerceErrorCode(d)
  }

  predicate Candidate(d: Doc, p: Position, levels: nat, code: int) {
    |p| <= levels && At(d, p).Some? && OwnCode(At(d, p).value) == Some(code)
  }

  /** Preorder: a position comes before its descendants, and before later siblings and theirs. */
  predicate Before(p: Position, q: Position)
    decreases |p|
  {
    q != [] && (p == [] || p[0] < q[0] || (p[0] == q[0] && Before(p[1..], q[1..])))
  }

  /** Position `p` holds the first candidate of preorder. */
  ghost predicate FirstCandidate(d: Doc, p: Position, levels: nat, code: int) {
    && Candidate(d, p, levels, code)
    && forall q, c :: Candidate(d, q, levels, c) ==> !Before(q, p)
  }

  ghost predicate NoCandidate(d: Doc, levels: nat) {
    forall q, c :: !Candidate(d, q, levels, c)
  }

  /** The first candidate among the children from `from` on, as a position under the parent. */
  ghost predicate FirstAmong(d: Doc, from: nat, p: Position, levels: nat, code: int) {
    && p != [] && from <= p[0]
    && Candidate(d, p, levels, code)
    && forall q, c :: q != [] && from <= q[0] && Candidate(d, q, levels, c) ==> !Before(q, p)
  }

  ghost predicate NoneAmong(d: Doc, from: nat, levels: nat) {
    forall q, c :: q != [] && from <= q[0] ==> !Candidate(d, q, levels, c)
  }

  /** A search result is the code of the first candidate, at `p`, or there is no candidate. */
  ghost predicate SearchVerdict(d: Doc, levels: nat, result: Option<int>, p: Position) {
    match result
    case Some(code) => FirstCandidate(d, p, levels, code)
    case None => NoCandidate(d, levels)
  }

  ghost predicate ChildrenVerdict(d: Doc, from: nat, levels: nat, result: Option<int>, p: Position) {
    match result
    case Some(code) => FirstAmong(d, from, p, levels, code)
    case None => NoneAmong(d, from, levels)
  }

  /**
    The search returns the first candidate of preorder down to depth 4, and
    None exactly when there is none.  `depth` is the depth of `d` in the reply.
   */
  lemma {:induction false} ExtractIsFirstCandidate(d: Doc, depth: nat) returns (p: Position)
    requires depth <= MAX_DEPTH
    ensures SearchVerdict(d, MAX_DEPTH - depth, ExtractErrorCode(d, depth), p)
    decreases d, 1, 0
  {
    var levels := MAX_DEPTH - depth;
    p := [];
    if OwnCode(d).Some? {
      assert Candidate(d, [], levels, OwnCode(d).value);
    } else {
      p := ChildrenFirst(d, 0, depth);
      forall q, c | Candidate(d, q, levels, c) ensures q != [] {}
    }
  }

  lemma {:induction false} ChildrenFirst(d: Doc, from: nat, depth: nat) returns (p: Position)
    requires depth <= MAX_DEPTH && from <= |Children(d)|
    ensures ChildrenVerdict(d, from, MAX_DEPTH - depth, FirstAmongChildren(d, from, depth + 1), p)
    decreases d, 0, |Children(d)| - from
  {
    p := [];
    var levels := MAX_DEPTH - depth;
    if from == |Children(d)| {
      forall q, c | q != [] && from <= q[0] && Candidate(d, q, levels, c) ensures false {
        CandidateOfChild(d, q, levels, c);
      }
    } else {
      var nested := ExtractErrorCode(Children(d)[from], depth + 1);
      var inner: Position := [];
      if levels > 0 {
        inner := ExtractIsFirstCandidate(Children(d)[from], depth + 1);
      }
      var later := ChildrenFirst(d, from + 1, depth);
      p := if nested.Some? then [from] + inner else later;
      ChildThenLater(d, from, levels, nested, inner, FirstAmongChildren(d, from + 1, depth + 1), later);
    }
  }

  /** A candidate under child `q[0]` is a candidate of that child, one level up. */
  lemma CandidateOfChild(d: Doc, q: Position, levels: nat, c: int)
    requires q != [] && Candidate(d, q, levels, c)
    ensures levels > 0 && q[0] < |Children(d)| && Candidate(Children(d)[q[0]], q[1..], levels - 1, c)
  {
  }

  /** The verdict on the children from `from` on, from that on child `from` and that on the later ones. */
  lemma ChildThenLater(
    d: Doc, from: nat, levels: nat, nested: Option<int>, inner: Position, rest: Option<int>, later: Position)
    requires from < |Children(d)|
    requires if levels > 0 then SearchVerdict(Children(d)[from], levels - 1, nested, inner) else nested.None?
    requires ChildrenVerdict(d, from + 1, levels, rest, later)
    ensures ChildrenVerdict(d, from, levels,
      if nested.Some? then nested else rest, if nested.Some? then [from] + inner else later)
  {
    if nested.Some? {
      var p := [from] + inner;
      assert p[1..] == inner;
      assert Candidate(Children(d)[from], inner, levels - 1, nested.value);
      assert Candidate(d, p, levels, nested.value);
      forall q, c | q != [] && from <= q[0] && Candidate(d, q, levels, c) ensures !Before(q, p) {
        CandidateOfChild(d, q, levels, c);
      }
    } else {
      forall q, c | q != [] && q[0] == from && Candidate(d, q, levels, c) ensures false {
        CandidateOfChild(d, q, levels, c);
      }
    }
  }

  // ------------------------------------------------------------------ verdicts

  /** `_raise_if_api_error`: the code it raises with, or None when it returns. */
  function ApiError(payload: Doc): Option<int> {
    if !payload.DDict? then None
    else
      match ExtractErrorCode(payload, 0)
      case Some(code) => if code == 0 then None else Some(code)
      case None => None
  }

  /** A reply raises exactly when it is a dictionary whose first candidate exists and is not zero. */
  lemma ApiErrorExactly(payload: Doc, code: int)
    ensures ApiError(payload) == Some(code) <==>
      payload.DDict? && code != 0 && exists p :: FirstCandidate(payload, p, MAX_DEPTH, code)
  {
    var first := ExtractIsFirstCandidate(payload, 0);
    forall p | FirstCandidate(payload, p, MAX_DEPTH, code)
      ensures ExtractErrorCode(payload, 0) == Some(code)
    {
      assert Candidate(payload, p, MAX_DEPTH, code);
      assert !Before(p, first) && !Before(first, p);
      BeforeTotal(p, first);
    }
  }

  lemma {:induction false} BeforeTotal(p: Position, q: Position)
    ensures p == q || Before(p, q) || Before(q, p)
    decreases |p|
  {
    if p != [] && q != [] && p[0] == q[0] {
      BeforeTotal(p[1..], q[1..]);
      assert p == [p[0]] + p[1..] && q == [q[0]] + q[1..];
    }
  }

  /** A top-level zero decides success, whatever is nested below it. */
  lemma TopLevelZeroDecides(members: seq<Member>)
    requires CoerceErrorCode(Get(members, T("errorCode"))) == Some(0)
    ensures ApiError(DDict(members)) == None
  {
    hide CoerceErrorCode, FirstAmongChildren, Get, T;
  }

  /**
    Without a top-level code, any nested integer is taken for one: a success
    reply that carries a row count raises.
   */
  lemma NestedCountRaises(key: Text, count: int)
    requires key != T("errorCode") && count != 0
    ensures ApiError(DDict([Member(key, DInt(count))])) == Some(count)
  {
    var reply := DDict([Member(key, DInt(count))]);
    assert Children(reply)[0] == DInt(count);
    assert reply.members[1..] == [];
    assert ExtractErrorCode(Children(reply)[0], 1) == Some(count);
    assert FirstAmongChildren(reply, 0, 1) == Some(count);
  }
}
