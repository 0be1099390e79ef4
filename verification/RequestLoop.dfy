/**
  `_request_json_internal`: the bounded retry loop around one request, the verdict
  on the outcome that ends it, and the classification of an error as an expired session.
 */
module RequestLoop {
  import opened Prelude
  import opened PyText
  import opened JsonText
  import opened ErrorCodes
  import JsonObject
  import SessionProtocol

  /** What one send leads to. */
  datatype Outcome = Timeout | RequestFailed | Response(status: int, text: Text)

  /** The parts of an error's details that decide what happens next. */
  datatype Details = Details(code: Option<int>, message: Option<Text>, body: Option<Text>)

  datatype Verdict =
    | Returned(payload: Doc)
    | TransportError(retryable: bool)
    | UpstreamError(details: Details, retryable: bool)

  /** `response.text[:2000]` */
  function Excerpt(text: Text): (t: Text)
    ensures t <= text && (t == text || |t| == 2000) && |t| <= 2000
  {
    if |text| <= 2000 then text else text[..2000]
  }

  function TextAt(members: seq<Member>, key: Text): Option<Text> {
    match Get(members, key)
    case DStr(text) => Some(text)
    case _ => None
  }

  /** The details of an HTTP error: from a JSON object if the body is one. */
  function HttpErrorDetails(text: Text): Details {
    match Loads(text)
    case Some(DDict(members)) =>
      Details(CoerceErrorCode(Get(members, T("errorCode"))), TextAt(members, T("errorMessage")), Some(Excerpt(text)))
    case _ => Details(None, None, Some(Excerpt(text)))
  }

  /** The verdict on an outcome that is not retried. */
  function VerdictOn(outcome: Outcome, canRetry: bool): Verdict {
    match outcome
    case Timeout => TransportError(canRetry)
    case RequestFailed => TransportError(canRetry)
    case Response(status, text) =>
      if status >= 400 then
        UpstreamError(HttpErrorDetails(text), status >= 500 || HttpErrorDetails(text).code == Some(SESSION_EXPIRED_CODE))
      else
        match Loads(text)
        case None => UpstreamError(Details(None, None, None), false)
        case Some(payload) =>
          match ApiError(payload)
          case None => Returned(payload)
          case Some(code) => UpstreamError(Details(Some(code), TextAt(payload.members, T("errorMessage")), None), false)
  }

  predicate Transient(o: Outcome) {
    o.Timeout? || o.RequestFailed? || o.status >= 500
  }

  // ------------------------------------------------------------------------ the loop

  /** `_is_retryable_read` */
  predicate IsRetryableRead(httpMethod: string, idempotent: Option<bool>) {
    match idempotent
    case Some(given) => given
    case None => httpMethod in {"GET", "HEAD", "OPTIONS"}
  }

  /** Skip transient outcomes as long as attempts are left; the verdict is on the next one. */
  function Run(outcomes: nat -> Outcome, k: nat, attempts: nat, canRetry: bool): (nat, Verdict)
    requires k < attempts
    decreases attempts - k
  {
    if canRetry && Transient(outcomes(k)) && k + 1 < attempts then Run(outcomes, k + 1, attempts, canRetry)
    else (k + 1, VerdictOn(outcomes(k), canRetry))
  }

  function Attempts(maxReadRetries: nat, canRetry: bool): nat {
    if canRetry then maxReadRetries + 1 else 1
  }

  /** Sending stops after `sends`: all but the last outcome were transient, and the last was not or was the last allowed. */
  ghost predicate StopsAfter(outcomes: nat -> Outcome, sends: nat, attempts: nat) {
    && 1 <= sends <= attempts
    && (forall j: nat :: j + 1 < sends ==> Transient(outcomes(j)))
    && (sends < attempts ==> !Transient(outcomes(sends - 1)))
  }

  lemma {:induction false} RunStops(outcomes: nat -> Outcome, k: nat, attempts: nat, canRetry: bool)
    requires k < attempts && (canRetry || attempts == 1)
    requires forall j: nat :: j < k ==> Transient(outcomes(j))
    ensures var (sends, verdict) := Run(outcomes, k, attempts, canRetry);
      k < sends && StopsAfter(outcomes, sends, attempts) && verdict == VerdictOn(outcomes(sends - 1), canRetry)
    decreases attempts - k
  {
    hide VerdictOn;
    if canRetry && Transient(outcomes(k)) && k + 1 < attempts {
      RunStops(outcomes, k + 1, attempts, canRetry);
    }
  }

  /** There is one place to stop. */
  lemma StopIsUnique(outcomes: nat -> Outcome, m: nat, n: nat, attempts: nat)
    requires StopsAfter(outcomes, m, attempts) && StopsAfter(outcomes, n, attempts)
    ensures m == n
  {
  }

  /** Every outcome but the last is a timeout, a failure or a server error; the last is none of these, or no try is left. */
  ghost predicate IsPatient(outcomes: nat -> Outcome, sends: nat, maxReadRetries: nat, mayRepeat: bool) {
    && 1 <= sends <= (if mayRepeat then maxReadRetries + 1 else 1)
    && (forall j: nat :: j + 1 < sends && outcomes(j).Response? ==> outcomes(j).status >= 500)
    && (mayRepeat && sends <= maxReadRetries ==> outcomes(sends - 1).Response? && outcomes(sends - 1).status < 500)
  }

  lemma StoppingIsPatient(outcomes: nat -> Outcome, sends: nat, maxReadRetries: nat, httpMethod: string, idempotent: Option<bool>)
    requires StopsAfter(outcomes, sends, Attempts(maxReadRetries, IsRetryableRead(httpMethod, idempotent)))
    ensures IsPatient(outcomes, sends, maxReadRetries,
      idempotent == Some(true) || (idempotent.None? && httpMethod in {"GET", "HEAD", "OPTIONS"}))
    ensures IsRetryableRead(httpMethod, idempotent) <==>
      idempotent == Some(true) || (idempotent.None? && httpMethod in {"GET", "HEAD", "OPTIONS"})
  {
    forall j: nat | j + 1 < sends && outcomes(j).Response? ensures outcomes(j).status >= 500 {
      assert Transient(outcomes(j));
    }
  }

  /** The loop; the raise after it is not reached. */
  method RequestJson(outcomes: nat -> Outcome, maxReadRetries: nat, httpMethod: string, idempotent: Option<bool>)
    returns (sends: nat, verdict: Verdict)
    ensures var canRetry := IsRetryableRead(httpMethod, idempotent);
      var attempts := Attempts(maxReadRetries, canRetry);
      && (sends, verdict) == Run(outcomes, 0, attempts, canRetry)
      && StopsAfter(outcomes, sends, attempts)
      && verdict == VerdictOn(outcomes(sends - 1), canRetry)
    ensures IsPatient(outcomes, sends, maxReadRetries, idempotent == Some(true) || (idempotent.None? && httpMethod in {"GET", "HEAD", "OPTIONS"}))
    ensures verdict.TransportError? <==> !outcomes(sends - 1).Response?
    ensures verdict.TransportError? ==>
      (verdict.retryable <==> idempotent == Some(true) || (idempotent.None? && httpMethod in {"GET", "HEAD", "OPTIONS"}))
  {
    hide IsRetryableRead, Loads, ApiError, HttpErrorDetails, StopsAfter, IsPatient;
    var canRetry := IsRetryableRead(httpMethod, idempotent);
    var attempts := if canRetry then maxReadRetries + 1 else 1;
    RunStops(outcomes, 0, attempts, canRetry);
    StoppingIsPatient(outcomes, Run(outcomes, 0, attempts, canRetry).0, maxReadRetries, httpMethod, idempotent);
    var attempt := 1;
    while attempt <= attempts
      invariant 1 <= attempt <= attempts
      invariant Run(outcomes, 0, attempts, canRetry) == Run(outcomes, attempt - 1, attempts, canRetry)
      decreases attempts - attempt
    {
      var outcome := outcomes(attempt - 1);
      if outcome.Timeout? || outcome.RequestFailed? {
        if canRetry && attempt < attempts {
          attempt := attempt + 1;
          continue;
        }
        return attempt, TransportError(canRetry);
      }
      if outcome.status >= 500 && canRetry && attempt < attempts {
        attempt := attempt + 1;
        continue;
      }
      verdict := Judge(outcome.status, outcome.text, canRetry);
      return attempt, verdict;
    }
    assert false;
  }

  /** The first candidate of preorder, down to depth 4, is the code. */
  ghost predicate FirstIs(payload: Doc, code: int) {
    exists p :: FirstCandidate(payload, p, MAX_DEPTH, code)
  }

  ghost predicate FirstCode(payload: Doc, code: int) {
    payload.DDict? && FirstIs(payload, code)
  }

  /** The text is a JSON object with this error code of its own. */
  predicate TopCode(text: Text, code: int) {
    && Loads(text).Some? && Loads(text).value.DDict?
    && CoerceErrorCode(Get(Loads(text).value.members, T("errorCode"))) == Some(code)
  }

  /** And with this error message. */
  predicate TopMessage(text: Text, message: Text) {
    && Loads(text).Some? && Loads(text).value.DDict?
    && Get(Loads(text).value.members, T("errorMessage")) == DStr(message)
  }

  /** An upstream error with the code. */
  predicate Reports(v: Verdict, code: int) {
    v.UpstreamError? && v.details.code == Some(code)
  }

  /**
    What the loop does with a response that it does not retry.  It returns exactly the JSON
    replies below status 400 without a first code other than 0; below 400 a code is reported
    exactly when it is the reply's first and not 0; from 400 on the error keeps the start of the body;
    and it is offered for another try exactly from 500 on or with the code of an expired session.
   */
  method Judge(status: int, text: Text, canRetry: bool) returns (verdict: Verdict)
    ensures verdict == VerdictOn(Response(status, text), canRetry)
    ensures forall payload :: verdict == Returned(payload) <==>
      status < 400 && Loads(text) == Some(payload) && forall code :: FirstCode(payload, code) ==> code == 0
    ensures status < 400 ==> forall code ::
      Reports(verdict, code) <==> Loads(text).Some? && code != 0 && FirstCode(Loads(text).value, code)
    ensures !verdict.TransportError?
    ensures verdict.UpstreamError? ==>
      && (verdict.details.body.Some? <==> status >= 400)
      && (verdict.details.body.Some? ==> verdict.details.body.value == if |text| <= 2000 then text else text[..2000])
      && (verdict.retryable <==> status >= 500 || (status >= 400 && TopCode(text, 12031)))
      && (forall message :: verdict.details.message == Some(message) <==> TopMessage(text, message))
    ensures status >= 400 ==> verdict.UpstreamError? && forall code :: Reports(verdict, code) <==> TopCode(text, code)
  {
    TextIsMember(text);
    HttpDetailsExactly(text);
    hide Loads, ApiError, HttpErrorDetails, FirstCode, TopCode, TopMessage, TextAt;
    if status >= 400 {
      var details := HttpErrorDetails(text);
      return UpstreamError(details, status >= 500 || details.code == Some(SESSION_EXPIRED_CODE));
    }
    var payload := Loads(text);
    if payload.None? {
      return UpstreamError(Details(None, None, None), false);
    }
    verdict := RaiseIfApiError(payload.value);
  }

  /** Raises exactly with the first code of the reply, if that is not 0, and with its message. */
  method RaiseIfApiError(payload: Doc) returns (verdict: Verdict)
    ensures verdict ==
      match ApiError(payload)
      case None => Returned(payload)
      case Some(code) => UpstreamError(Details(Some(code), TextAt(payload.members, T("errorMessage")), None), false)
    ensures verdict == Returned(payload) <==> forall code :: FirstCode(payload, code) ==> code == 0
    ensures forall code :: Reports(verdict, code) <==> code != 0 && FirstCode(payload, code)
    ensures verdict != Returned(payload) ==>
      && verdict.UpstreamError? && payload.DDict? && !verdict.retryable && verdict.details.body.None?
      && verdict.details.message == TextAt(payload.members, T("errorMessage"))
  {
    hide ExtractErrorCode, FirstCode;
    forall code ensures ApiError(payload) == Some(code) <==> code != 0 && FirstCode(payload, code) {
      FirstCodeIsRaised(payload, code);
    }
    if !payload.DDict? {
      return Returned(payload);
    }
    var code := ExtractErrorCode(payload, 0);
    if code.None? || code.value == 0 {
      return Returned(payload);
    }
    verdict := UpstreamError(Details(code, TextAt(payload.members, T("errorMessage")), None), false);
  }

  lemma FirstCodeIsRaised(payload: Doc, code: int)
    ensures ApiError(payload) == Some(code) <==> code != 0 && FirstCode(payload, code)
  {
    hide ApiError, FirstCandidate;
    ApiErrorExactly(payload, code);
  }

  lemma TextIsMember(text: Text)
    ensures Loads(text).Some? && Loads(text).value.DDict? ==>
      forall message :: TextAt(Loads(text).value.members, T("errorMessage")) == Some(message) <==> TopMessage(text, message)
    ensures !(Loads(text).Some? && Loads(text).value.DDict?) ==> forall message :: !TopMessage(text, message)
  {
    hide Loads, Get, T;
  }

  /** What an HTTP error keeps of its text. */
  lemma HttpDetailsExactly(text: Text)
    ensures var d := HttpErrorDetails(text);
      && (forall code :: d.code == Some(code) <==> TopCode(text, code))
      && (forall message :: d.message == Some(message) <==> TopMessage(text, message))
      && d.body == Some(if |text| <= 2000 then text else text[..2000])
  {
    hide Loads, Get, CoerceErrorCode, T;
  }

  /** A request that may not be retried is sent once, whatever its outcome. */
  lemma SentOnce(outcomes: nat -> Outcome, maxReadRetries: nat)
    ensures Run(outcomes, 0, Attempts(maxReadRetries, false), false) == (1, VerdictOn(outcomes(0), false))
  {
  }

  // ------------------------------------------------------------------ expired sessions

  /** `str.lower()` on ASCII letters. */
  function LowerText(t: Text): (r: Text)
    ensures |r| == |t|
    ensures forall i :: 0 <= i < |t| ==> r[i] == if 0x41 <= t[i] <= 0x5A then t[i] + 0x20 else t[i]
  {
    seq(|t|, i requires 0 <= i < |t| => if 0x41 <= t[i] <= 0x5A then t[i] + 0x20 else t[i])
  }

  predicate HoldsAt(t: Text, i: nat, part: Text) {
    i + |part| <= |t| && t[i..i + |part|] == part
  }

  predicate Contains(t: Text, part: Text) {
    exists i :: 0 <= i <= |t| && HoldsAt(t, i, part)
  }

  /** The wording that counts as an expired session. */
  predicate Mentions(t: Text) {
    var lowered := LowerText(t);
    Contains(lowered, T("12031")) || (Contains(lowered, T("authtoken")) && Contains(lowered, T("session")))
  }

  /** A code in a body that is JSON. */
  predicate BodyCarriesCode(body: Text) {
    match Loads(body)
    case None => false
    case Some(doc) =>
      || ExtractErrorCode(doc, 0) == Some(SESSION_EXPIRED_CODE)
      || (doc.DDict? && TextAt(doc.members, T("errorMessage")).Some?
          && Contains(TextAt(doc.members, T("errorMessage")).value, T("12031")))
  }

  /** `_is_session_expired_error` */
  predicate IsSessionExpired(d: Details) {
    || d.code == Some(SESSION_EXPIRED_CODE)
    || (d.message.Some? && Mentions(d.message.value))
    || (d.body.Some? && StripBy(d.body.value, CodeIsSpace) != [] && (Mentions(d.body.value) || BodyCarriesCode(d.body.value)))
  }

  /** How the session protocol sees the verdict on a posted action. */
  function ReplyOf(v: Verdict): SessionProtocol.Reply {
    match v
    case Returned(_) => SessionProtocol.Success
    case TransportError(_) => SessionProtocol.Failed
    case UpstreamError(details, _) => if IsSessionExpired(details) then SessionProtocol.Expired else SessionProtocol.Failed
  }

  /** Timeouts and broken connections are never taken for an expired session, so never lead to a second post. */
  lemma TransportNeverExpires(outcome: Outcome)
    requires outcome.Timeout? || outcome.RequestFailed?
    ensures ReplyOf(VerdictOn(outcome, false)) == SessionProtocol.Failed
  {
  }

  // ------------------------------------------------------- the classification, exactly

  /** The part stands in the text at i, its small letters in either case. */
  predicate StandsAt(t: Text, i: nat, part: Text) {
    && i + |part| <= |t|
    && forall k :: 0 <= k < |part| ==> t[i + k] == part[k] || (0x41 <= t[i + k] <= 0x5A && t[i + k] + 0x20 == part[k])
  }

  ghost predicate Quotes(t: Text, part: Text) {
    exists i: nat :: StandsAt(t, i, part)
  }

  predicate IsSmall(part: Text) {
    forall k :: 0 <= k < |part| ==> !(0x41 <= part[k] <= 0x5A)
  }

  lemma LoweredHoldsExactly(t: Text, i: nat, part: Text)
    requires IsSmall(part)
    ensures HoldsAt(LowerText(t), i, part) <==> StandsAt(t, i, part)
  {
    var lowered := LowerText(t);
    if i + |part| <= |t| {
      var slice := lowered[i..i + |part|];
      assert forall k :: 0 <= k < |part| ==> slice[k] == lowered[i + k];
      if StandsAt(t, i, part) {
        assert slice == part;
      } else if slice == part {
        forall k | 0 <= k < |part| ensures t[i + k] == part[k] || (0x41 <= t[i + k] <= 0x5A && t[i + k] + 0x20 == part[k]) {
          assert slice[k] == part[k];
        }
      }
    }
  }

  lemma LoweredContainsExactly(t: Text, part: Text)
    requires IsSmall(part)
    ensures Contains(LowerText(t), part) <==> Quotes(t, part)
  {
    hide StandsAt, LowerText;
    forall i: nat ensures HoldsAt(LowerText(t), i, part) <==> StandsAt(t, i, part) { LoweredHoldsExactly(t, i, part); }
    if Quotes(t, part) {
      var i: nat :| StandsAt(t, i, part);
      assert i + |part| <= |t| by { StandsInside(t, i, part); }
      assert HoldsAt(LowerText(t), i, part);
    }
  }

  lemma StandsInside(t: Text, i: nat, part: Text)
    requires StandsAt(t, i, part)
    ensures i + |part| <= |t|
  {
  }

  /** The digits 12031, or both words, in any case. */
  ghost predicate IsWorded(t: Text) {
    Quotes(t, T("12031")) || (Quotes(t, T("authtoken")) && Quotes(t, T("session")))
  }

  lemma MentionsExactly(t: Text)
    ensures Mentions(t) <==> IsWorded(t)
  {
    var digits, token, session := T("12031"), T("authtoken"), T("session");
    assert IsSmall(digits) && IsSmall(token) && IsSmall(session);
    hide Contains, LowerText, Quotes, T, IsSmall;
    LoweredContainsExactly(t, digits);
    LoweredContainsExactly(t, token);
    LoweredContainsExactly(t, session);
  }

  lemma VisibleExactly(t: Text)
    ensures StripBy(t, CodeIsSpace) != [] <==> exists i :: 0 <= i < |t| && !CodeIsSpace(t[i])
  {
    var front := DropWhile(t, CodeIsSpace);
    var r := DropTail(front, CodeIsSpace);
    if r != [] {
      assert r[0] == front[0] == t[|t| - |front|];
    }
  }

  lemma FirstIsExtracted(payload: Doc, code: int)
    ensures ExtractErrorCode(payload, 0) == Some(code) <==> FirstIs(payload, code)
  {
    hide ExtractErrorCode, Candidate, Before;
    var first := ExtractIsFirstCandidate(payload, 0);
    forall p | FirstCandidate(payload, p, MAX_DEPTH, code) ensures ExtractErrorCode(payload, 0) == Some(code) {
      assert Candidate(payload, p, MAX_DEPTH, code);
      OneCandidate(payload, p, code, first);
    }
  }

  /** Two first candidates are one. */
  lemma OneCandidate(payload: Doc, p: Position, code: int, first: Position)
    requires FirstCandidate(payload, p, MAX_DEPTH, code)
    requires SearchVerdict(payload, MAX_DEPTH, ExtractErrorCode(payload, 0), first)
    ensures ExtractErrorCode(payload, 0) == Some(code)
  {
    hide ExtractErrorCode, At, OwnCode;
    assert Candidate(payload, p, MAX_DEPTH, code);
    BeforeTotal(p, first);
  }

  /** The start of a body says that the session has expired: in its wording, or as JSON. */
  ghost predicate SaysExpired(start: Text) {
    && (exists i :: 0 <= i < |start| && !CodeIsSpace(start[i]))
    && (
      || IsWorded(start)
      || (Loads(start).Some? && FirstIs(Loads(start).value, 12031))
      || HasDigitsOnTop(start))
  }

  /** A JSON object whose message has the wording. */
  ghost predicate IsWordedOnTop(text: Text) {
    exists message :: TopMessage(text, message) && IsWorded(message)
  }

  ghost predicate HasDigitsOnTop(text: Text) {
    exists message :: TopMessage(text, message) && Contains(message, T("12031"))
  }

  lemma OnTopExactly(text: Text, message: Option<Text>)
    requires forall m :: message == Some(m) <==> TopMessage(text, m)
    ensures IsWordedOnTop(text) <==> message.Some? && Mentions(message.value)
    ensures HasDigitsOnTop(text) <==> message.Some? && Contains(message.value, T("12031"))
  {
    hide TopMessage, IsWorded, Mentions, Contains, T;
    if message.Some? {
      MentionsExactly(message.value);
      assert TopMessage(text, message.value);
    }
  }

  /** The message of a text that is a JSON object. */
  function MessageOf(text: Text): Option<Text> {
    match Loads(text)
    case Some(DDict(members)) => TextAt(members, T("errorMessage"))
    case _ => None
  }

  lemma MessageIsOnTop(text: Text)
    ensures forall m :: MessageOf(text) == Some(m) <==> TopMessage(text, m)
  {
    hide Loads, Get, T;
  }

  lemma BodySaysExpired(start: Text)
    ensures SaysExpired(start) <==>
      StripBy(start, CodeIsSpace) != [] && (Mentions(start) || BodyCarriesCode(start))
  {
    hide Mentions, IsWorded, ExtractErrorCode, FirstIs, Contains, StripBy, HasDigitsOnTop, BodyCarriesCode, Loads, T;
    VisibleExactly(start);
    MentionsExactly(start);
    BodyCarriesExactly(start);
  }

  lemma BodyCarriesExactly(start: Text)
    ensures BodyCarriesCode(start) <==> (Loads(start).Some? && FirstIs(Loads(start).value, 12031)) || HasDigitsOnTop(start)
  {
    hide Loads, ExtractErrorCode, FirstIs, Contains, TopMessage, HasDigitsOnTop, T, Get, Mentions, IsWordedOnTop;
    MessageIsOnTop(start);
    OnTopExactly(start, MessageOf(start));
    if Loads(start).Some? { FirstIsExtracted(Loads(start).value, 12031); }
  }

  /**
    An HTTP error counts as an expired session exactly when its text is a JSON object with
    the code 12031 or with a message in the wording, or when the first 2000 characters of the
    text say so: in the wording, or as JSON whose first code is 12031 or whose message has the digits.
   */
  lemma HttpErrorExpiresExactly(status: int, text: Text, canRetry: bool)
    requires status >= 400
    ensures ReplyOf(VerdictOn(Response(status, text), canRetry)) == SessionProtocol.Expired <==>
      || TopCode(text, 12031)
      || IsWordedOnTop(text)
      || SaysExpired(if |text| <= 2000 then text else text[..2000])
  {
    hide Loads, Mentions, BodyCarriesCode, TopMessage, TopCode, SaysExpired, StripBy, HttpErrorDetails, IsWordedOnTop, HasDigitsOnTop;
    HttpDetailsExactly(text);
    var d := HttpErrorDetails(text);
    BodySaysExpired(d.body.value);
    OnTopExactly(text, d.message);
  }

  /**
    An application error counts as an expired session exactly when its code is 12031
    or the message says so: a message that merely contains the digits is enough.
   */
  lemma AppErrorExpiresExactly(status: int, text: Text, canRetry: bool, code: int)
    requires status < 400 && Loads(text).Some? && code != 0 && FirstCode(Loads(text).value, code)
    ensures ReplyOf(VerdictOn(Response(status, text), canRetry)) == SessionProtocol.Expired <==>
      || code == 12031
      || IsWordedOnTop(text)
  {
    hide Loads, Mentions, BodyCarriesCode, TopMessage, FirstIs, ApiError, IsWordedOnTop, HasDigitsOnTop, TextAt;
    FirstCodeIsRaised(Loads(text).value, code);
    MessageIsOnTop(text);
    OnTopExactly(text, MessageOf(text));
  }

  /** A success never expires: whatever a reply without an error says, it is returned. */
  lemma SuccessIsReturned(status: int, text: Text, payload: Doc)
    requires status < 400 && Loads(text) == Some(payload) && ApiError(payload).None?
    ensures ReplyOf(VerdictOn(Response(status, text), false)) == SessionProtocol.Success
  {
    hide Loads, Mentions, BodyCarriesCode, ExtractErrorCode;
  }

  lemma ContainsItself(t: Text, part: Text, i: nat)
    requires i + |part| <= |t| && t[i..i + |part|] == part
    ensures Contains(t, part)
  {
    assert HoldsAt(t, i, part);
  }

  lemma DigitsInAnyCase(t: Text, i: nat, digits: Text)
    requires digits == T("12031") && i + 5 <= |t| && t[i..i + 5] == digits
    ensures Mentions(t)
  {
    var lowered := LowerText(t);
    forall k | 0 <= k < 5 ensures lowered[i..i + 5][k] == digits[k] {
      assert t[i..i + 5][k] == t[i + k];
    }
    assert lowered[i..i + 5] == digits;
    ContainsItself(lowered, digits, i);
  }

  /**
    An error of another code whose message quotes a record number 12031 is replayed as
    if the session had expired.
   */
  lemma ForeignErrorIsReplayed(code: int, before: Text, after: Text, status: int, text: Text)
    requires code != 0 && status < 400
    requires Loads(text) == Some(DDict([
      Member(T("errorCode"), DInt(code)), Member(T("errorMessage"), DStr(before + T("12031") + after))]))
    ensures ReplyOf(VerdictOn(Response(status, text), false)) == SessionProtocol.Expired
  {
    hide T, Get, Loads, ApiError, Mentions, IsWorded, FirstCode, VerdictOn, ReplyOf;
    var message := before + T("12031") + after;
    TwoMembers(T("errorCode"), DInt(code), T("errorMessage"), DStr(message));
    var members := [Member(T("errorCode"), DInt(code)), Member(T("errorMessage"), DStr(message))];
    MessageMentions(before, T("12031"), after);
    ApiErrorOfCode(members, code);
    FirstCodeIsRaised(DDict(members), code);
    MentionsExactly(message);
    assert TopMessage(text, message) && IsWordedOnTop(text);
    AppErrorExpiresExactly(status, text, false, code);
  }

  /**
    There is such a reply for every code above 0 and any text without a split surrogate
    pair around the digits: `{"errorCode": code, "errorMessage": message}` as `json.dumps` writes it.
   */
  lemma ForeignReply(code: nat, before: Text, after: Text, status: int) returns (text: Text)
    requires code != 0 && status < 400 && !HasSplitPair(before + T("12031") + after)
    ensures text == JsonObject.PairJson("errorCode", code, "errorMessage", Some(before + T("12031") + after))
    ensures ReplyOf(VerdictOn(Response(status, text), false)) == SessionProtocol.Expired
  {
    hide Loads, VerdictOn, ReplyOf, Fuse, HasSplitPair, JsonObject.PairJson;
    var message := before + T("12031") + after;
    text := JsonObject.PairJson("errorCode", code, "errorMessage", Some(message));
    assert T("errorCode") != T("errorMessage") by { assert |T("errorCode")| != |T("errorMessage")|; }
    JsonObject.LoadsPair("errorCode", code, "errorMessage", Some(message));
    FuseExactly(message);
    ForeignErrorIsReplayed(code, before, after, status, text);
  }

  lemma TwoMembers(first: Text, value: Doc, second: Text, other: Doc)
    requires first == T("errorCode") && second == T("errorMessage")
    ensures Get([Member(first, value), Member(second, other)], first) == value
    ensures Get([Member(first, value), Member(second, other)], second) == other
  {
    var members := [Member(first, value), Member(second, other)];
    assert first[5] == 0x43 && second[5] == 0x4D;
    assert members[1..] == [members[1]];
  }

  lemma MessageMentions(before: Text, digits: Text, after: Text)
    requires digits == T("12031")
    ensures Mentions(before + digits + after)
  {
    var message := before + digits + after;
    assert message[|before|..|before| + 5] == digits;
    DigitsInAnyCase(message, |before|, digits);
  }

  lemma ApiErrorOfCode(members: seq<Member>, code: int)
    requires Get(members, T("errorCode")) == DInt(code) && code != 0
    ensures ApiError(DDict(members)) == Some(code)
  {
  }
}
