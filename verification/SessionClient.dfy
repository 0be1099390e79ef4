/**
  The client object itself: the token field, `_get_action_auth_token`,
  `_invalidate_session_auth_token` and `json_action`, as one thread runs them.
  Every method is proved to be a run of the session protocol by that thread, so
  everything proved there about all runs holds of the object.
 */
module SessionClient {
  import opened Prelude
  import opened SessionProtocol
  import RequestLoop

  /** What the upstream does with one post: does the action take effect, and how does the reply read. */
  datatype PostAnswer = PostAnswer(executed: bool, reply: Reply)

  /** The upstream's answers to the at most four requests of one `json_action`. */
  datatype Script = Script(
    firstSession: SessionReply, firstPost: PostAnswer,
    secondSession: SessionReply, secondPost: PostAnswer)

  /** How `json_action` ends: with the reply of the last post, or before it for want of a session. */
  datatype CallEnd = Replied(reply: Reply) | NoSession

  /** The trace a call leaves, the cache it leaves and how it ends. */
  datatype CallRun = CallRun(wire: seq<Wire>, cache: Option<Token>, end: CallEnd)

  /** Fetch a token and post: from the cache, or through createSession. */
  function FetchAndPost(
    config: Config, cache: Option<Token>, call: CallId, attempt: nat, session: SessionReply, post: PostAnswer): CallRun
  {
    if cache.Some? then
      CallRun([Posted(PostRecord(call, attempt, cache, post.executed, post.reply))], cache, Replied(post.reply))
    else if config.hasCredentials && session.Issued? then
      var token := Some(session.token);
      CallRun([Created(session.token), Posted(PostRecord(call, attempt, token, post.executed, post.reply))], token, Replied(post.reply))
    else
      CallRun([], None, NoSession)
  }

  /** What forgetting the session leaves on the trace. */
  function Removal(config: Config, cache: Option<Token>, call: CallId): seq<Wire> {
    if config.token.None? && cache.Some? then [Cleared(call, cache.value)] else []
  }

  /** One uninterrupted `json_action`. */
  function CallSpec(config: Config, cache: Option<Token>, call: CallId, script: Script): CallRun {
    var first := FetchAndPost(config, cache, call, 1, script.firstSession, script.firstPost);
    if first.end != Replied(Expired) then first
    else
      var kept := if config.token.Some? then first.cache else None;
      var second := FetchAndPost(config, kept, call, 2, script.secondSession, script.secondPost);
      CallRun(first.wire + Removal(config, first.cache, call) + second.wire, second.cache, second.end)
  }

  /** The posts of a trace. */
  function PostCount(wire: seq<Wire>): nat {
    if wire == [] then 0 else (if wire[0].Posted? then 1 else 0) + PostCount(wire[1..])
  }

  lemma {:induction false} PostCountOfTwo(first: seq<Wire>, second: seq<Wire>)
    ensures PostCount(first + second) == PostCount(first) + PostCount(second)
  {
    if first == [] {
      assert first + second == second;
    } else {
      assert (first + second)[1..] == first[1..] + second;
      PostCountOfTwo(first[1..], second);
    }
  }

  /** A token can be had: from the cache, or from createSession. */
  predicate HasToken(config: Config, cache: Option<Token>, session: SessionReply) {
    cache.Some? || (config.hasCredentials && session.Issued?)
  }

  lemma OneFetch(config: Config, cache: Option<Token>, call: CallId, attempt: nat, session: SessionReply, post: PostAnswer)
    ensures var run := FetchAndPost(config, cache, call, attempt, session, post);
      && PostCount(run.wire) == (if HasToken(config, cache, session) then 1 else 0)
      && (run.end == Replied(post.reply) <==> HasToken(config, cache, session))
      && forall w :: w in run.wire && w.Posted? ==> w.post.token.Some?
  {
    var run := FetchAndPost(config, cache, call, attempt, session, post);
    if run.wire != [] {
      var last := run.wire[|run.wire| - 1];
      OnePost([last]);
      assert run.wire == [last] || run.wire[1..] == [last];
    }
  }

  lemma OnePost(wire: seq<Wire>)
    requires |wire| == 1
    ensures PostCount(wire) == if wire[0].Posted? then 1 else 0
  {
    assert wire[1..] == [];
  }

  /**
    Alone on its client, a call posts twice exactly when its first post went out and came
    back as an expired session, and a second token could be had; and it never posts a
    null token.
   */
  lemma PostsTwiceExactly(config: Config, cache: Option<Token>, call: CallId, script: Script)
    requires config.token.Some? ==> cache.Some?
    ensures var run := CallSpec(config, cache, call, script);
      && (PostCount(run.wire) == 2 <==>
            && HasToken(config, cache, script.firstSession) && script.firstPost.reply == Expired
            && (config.token.Some? || (config.hasCredentials && script.secondSession.Issued?)))
      && PostCount(run.wire) <= 2
      && forall w :: w in run.wire && w.Posted? ==> w.post.token.Some?
  {
    hide FetchAndPost;
    OneFetch(config, cache, call, 1, script.firstSession, script.firstPost);
    var first := FetchAndPost(config, cache, call, 1, script.firstSession, script.firstPost);
    if first.end == Replied(Expired) {
      FirstCache(config, cache, call, script);
      var kept := if config.token.Some? then first.cache else None;
      var cleared := Removal(config, first.cache, call);
      OneFetch(config, kept, call, 2, script.secondSession, script.secondPost);
      var second := FetchAndPost(config, kept, call, 2, script.secondSession, script.secondPost);
      PostCountOfTwo(first.wire, cleared);
      PostCountOfTwo(first.wire + cleared, second.wire);
    }
  }

  lemma FirstCache(config: Config, cache: Option<Token>, call: CallId, script: Script)
    requires config.token.Some? ==> cache.Some?
    ensures var first := FetchAndPost(config, cache, call, 1, script.firstSession, script.firstPost);
      (config.token.Some? ==> first.cache.Some?)
      && (first.end == Replied(Expired) ==> script.firstPost.reply == Expired)
  {
  }

  /** The reply of the last post on a trace. */
  function LastReply(wire: seq<Wire>): Option<Reply> {
    if wire == [] then None
    else
      var last := wire[|wire| - 1];
      if last.Posted? then Some(last.post.reply) else LastReply(wire[..|wire| - 1])
  }

  /** The first post goes out, and comes back as an expired session. */
  predicate IsResent(config: Config, cache: Option<Token>, script: Script) {
    HasToken(config, cache, script.firstSession) && script.firstPost.reply == Expired
  }

  /** A token can be had for the second post: the configured one, or a new session. */
  predicate HasNewToken(config: Config, script: Script) {
    config.token.Some? || (config.hasCredentials && script.secondSession.Issued?)
  }

  /** The call ends without a reply exactly when its last fetch got no token, and else with the reply of its last post. */
  predicate EndsWithLastPost(config: Config, cache: Option<Token>, script: Script, wire: seq<Wire>, end: CallEnd) {
    && (end == NoSession <==>
          if IsResent(config, cache, script) then !HasNewToken(config, script) else !HasToken(config, cache, script.firstSession))
    && (end.Replied? ==> LastReply(wire) == Some(end.reply))
    && (end.Replied? ==> end.reply == if IsResent(config, cache, script) then script.secondPost.reply else script.firstPost.reply)
  }

  lemma LastReplyOfOne(before: seq<Wire>, w: Wire)
    ensures LastReply(before + [w]) == if w.Posted? then Some(w.post.reply) else LastReply(before)
  {
    assert (before + [w])[..|before|] == before;
  }

  /** A fetch that gets a token ends the trace with its post. */
  lemma FetchEndsWithPost(
    config: Config, cache: Option<Token>, call: CallId, attempt: nat, session: SessionReply, post: PostAnswer, before: seq<Wire>)
    ensures var run := FetchAndPost(config, cache, call, attempt, session, post);
      && (run.end == if HasToken(config, cache, session) then Replied(post.reply) else NoSession)
      && (HasToken(config, cache, session) ==> LastReply(before + run.wire) == Some(post.reply))
  {
    var run := FetchAndPost(config, cache, call, attempt, session, post);
    if run.wire != [] {
      var n := |run.wire| - 1;
      LastReplyOfOne(before + run.wire[..n], run.wire[n]);
      assert before + run.wire == before + run.wire[..n] + [run.wire[n]];
    }
  }

  lemma CallEndsWithLastPost(config: Config, cache: Option<Token>, call: CallId, script: Script)
    requires config.token.Some? ==> cache.Some?
    ensures var run := CallSpec(config, cache, call, script);
      EndsWithLastPost(config, cache, script, run.wire, run.end)
  {
    hide FetchAndPost, LastReply;
    FetchEndsWithPost(config, cache, call, 1, script.firstSession, script.firstPost, []);
    var first := FetchAndPost(config, cache, call, 1, script.firstSession, script.firstPost);
    assert [] + first.wire == first.wire;
    if first.end == Replied(Expired) {
      FirstCache(config, cache, call, script);
      var kept := if config.token.Some? then first.cache else None;
      FetchEndsWithPost(config, kept, call, 2, script.secondSession, script.secondPost, first.wire + Removal(config, first.cache, call));
    }
  }

  /** The upstream's answer to a post, as the request loop reads it: a post is sent once and not retried. */
  function Answered(executed: bool, outcome: RequestLoop.Outcome): PostAnswer {
    PostAnswer(executed, RequestLoop.ReplyOf(RequestLoop.VerdictOn(outcome, false)))
  }

  /** After a timeout or a broken connection the call ends with its one post. */
  lemma TransportFailureIsNotResent(
    config: Config, cache: Option<Token>, call: CallId, script: Script, executed: bool, outcome: RequestLoop.Outcome)
    requires config.token.Some? ==> cache.Some?
    requires outcome.Timeout? || outcome.RequestFailed?
    requires script.firstPost == Answered(executed, outcome)
    ensures PostCount(CallSpec(config, cache, call, script).wire) <= 1
  {
    hide CallSpec;
    RequestLoop.TransportNeverExpires(outcome);
    PostsTwiceExactly(config, cache, call, script);
  }

  class ApiClient {
    const config: Config
    var sessionAuthToken: Option<Token>
    var calls: nat
    var sent: seq<Wire>
    ghost var history: seq<Event>
    ghost var machine: State

    /** The object agrees with the machine state that its history of events leads to. */
    ghost predicate Consistent()
      reads this
    {
      && ValidConfig(config)
      && IsRun(Init(config, {0}), history)
      && machine == After(Init(config, {0}), history)
      && machine.config == config
      && machine.threads.Keys == {0}
      && machine.cache == sessionAuthToken
      && machine.wire == sent
      && machine.nextCall == calls
    }

    /** Between calls the thread is idle and the lock is free. */
    ghost predicate Valid()
      reads this
    {
      Consistent() && machine.threads[0].Idle? && machine.lock.None?
    }

    constructor (config: Config)
      requires ValidConfig(config)
      ensures Valid() && this.config == config
      ensures sent == [] && sessionAuthToken == config.token
    {
      this.config := config;
      sessionAuthToken := config.token;
      calls := 0;
      sent := [];
      history := [];
      machine := Init(config, {0});
    }

    /** Record that the object has just taken this step of the protocol. */
    ghost method Step(act: Act)
      requires IsRun(Init(config, {0}), history) && machine == After(Init(config, {0}), history)
      requires machine.threads.Keys == {0}
      requires Enabled(machine, Event(0, act))
      modifies this`history, this`machine
      ensures machine == Next(old(machine), Event(0, act))
      ensures machine.threads.Keys == {0} && machine.config == old(machine.config)
      ensures IsRun(Init(config, {0}), history) && machine == After(Init(config, {0}), history)
      ensures old(history) <= history
    {
      hide IsRun, After, Init, Enabled;
      var longer, next := Extend(Init(config, {0}), history, machine, Event(0, act));
      history, machine := longer, next;
    }

    /** The token to send, or None where the original raises. */
    method GetActionAuthToken(session: SessionReply) returns (token: Option<Token>)
      requires Consistent() && machine.lock.None? && AtPc(machine, 0, FirstRead)
      modifies this`sessionAuthToken, this`sent, this`history, this`machine
      ensures Consistent() && machine.lock.None? && old(history) <= history
      ensures old(sessionAuthToken).Some? ==>
        token == sessionAuthToken == old(sessionAuthToken) && sent == old(sent)
      ensures old(sessionAuthToken).None? && config.hasCredentials && session.Issued? ==>
        token == sessionAuthToken == Some(session.token) && sent == old(sent) + [Created(session.token)]
      ensures old(sessionAuthToken).None? && !(config.hasCredentials && session.Issued?) ==>
        token == sessionAuthToken == None && sent == old(sent)
      ensures machine.threads[0] ==
        if token.Some? then old(machine.threads[0]).(pc := Ready, token := token) else Idle
    {
      hide IsRun, After, Init, ValidConfig;
      Step(ReadFirst);
      if sessionAuthToken.Some? {
        Step(ReadSecond);
        return sessionAuthToken;
      }
      token := CreateUnderLock(session);
    }

    /** The part under the lock: test again, and ask for a session. */
    method CreateUnderLock(session: SessionReply) returns (token: Option<Token>)
      requires Consistent() && machine.lock.None? && AtPc(machine, 0, WantLock) && sessionAuthToken.None?
      modifies this`sessionAuthToken, this`sent, this`history, this`machine
      ensures Consistent() && machine.lock.None? && old(history) <= history
      ensures token == sessionAuthToken == if config.hasCredentials && session.Issued? then Some(session.token) else None
      ensures sent == old(sent) + (if token.Some? then [Created(token.value)] else [])
      ensures machine.threads[0] ==
        if token.Some? then old(machine.threads[0]).(pc := Ready, token := token) else Idle
    {
      hide IsRun, After, Init, ValidConfig;
      Step(Acquire);
      Step(RecheckField);
      if !config.hasCredentials {
        return None;
      }
      Step(Answer(session));
      match session {
        case NoToken => return None;
        case Issued(issued) =>
          sessionAuthToken := Some(issued);
          sent := sent + [Created(issued)];
          return sessionAuthToken;
      }
    }

    /** Forget the session, except in token mode. */
    method InvalidateSessionAuthToken(call: CallId)
      requires Consistent() && machine.lock.None? && AtPc(machine, 0, Invalidating) && machine.threads[0].call == call
      modifies this`sessionAuthToken, this`sent, this`history, this`machine
      ensures Consistent() && machine.lock.None? && old(history) <= history
      ensures machine.threads[0] == Again(old(machine.threads[0]))
      ensures sessionAuthToken == if config.token.Some? then old(sessionAuthToken) else None
      ensures sent == old(sent) +
        Removal(config, old(sessionAuthToken), call)
    {
      hide IsRun, After, Init, ValidConfig;
      Step(EnterInvalidate);
      if config.token.Some? {
        return;
      }
      Step(AcquireForClear);
      Step(ClearField);
      if sessionAuthToken.Some? {
        sent := sent + [Cleared(call, sessionAuthToken.value)];
      }
      sessionAuthToken := None;
    }

    /** Fetch a token and post the action once. */
    method FetchThenPost(call: CallId, attempt: nat, session: SessionReply, answer: PostAnswer) returns (end: CallEnd)
      requires Consistent() && machine.lock.None?
      requires machine.threads[0] == Busy(call, attempt, FirstRead, None)
      modifies this`sessionAuthToken, this`sent, this`history, this`machine
      ensures Consistent() && machine.lock.None? && old(history) <= history
      ensures var run := FetchAndPost(config, old(sessionAuthToken), call, attempt, session, answer);
        sent == old(sent) + run.wire && sessionAuthToken == run.cache && end == run.end
      ensures if end == Replied(Expired) && attempt == 1
              then AtPc(machine, 0, Invalidating) && machine.threads[0].call == call
              else machine.threads[0].Idle?
    {
      hide IsRun, After, Init, ValidConfig;
      var token := GetActionAuthToken(session);
      if token.None? {
        return NoSession;
      }
      Step(Post(answer.executed, answer.reply));
      sent := sent + [Posted(PostRecord(call, attempt, token, answer.executed, answer.reply))];
      Step(Receive);
      return Replied(answer.reply);
    }

    /** In token mode the cache is the configured token. */
    lemma ConfiguredIsCached()
      requires Valid()
      ensures config.token.Some? ==> sessionAuthToken.Some?
    {
      hide IsRun, After;
      if config.token.Some? { TokenModeIsInert(config, {0}, history); }
    }

    /** Post once; after an expired reply forget the session and post once more. */
    method JsonAction(script: Script) returns (end: CallEnd)
      requires Valid()
      modifies this`sessionAuthToken, this`calls, this`sent, this`history, this`machine
      ensures Valid() && old(history) <= history && calls == old(calls) + 1
      ensures var run := CallSpec(config, old(sessionAuthToken), old(calls), script);
        sent == old(sent) + run.wire && sessionAuthToken == run.cache && end == run.end
      ensures old(sent) <= sent
      ensures EndsWithLastPost(config, old(sessionAuthToken), script, sent[|old(sent)|..], end)
    {
      hide IsRun, After, Init, ValidConfig, EndsWithLastPost;
      ConfiguredIsCached();
      CallEndsWithLastPost(config, sessionAuthToken, calls, script);
      var call := calls;
      Step(Begin);
      calls := calls + 1;
      end := FetchThenPost(call, 1, script.firstSession, script.firstPost);
      if end != Replied(Expired) {
        return;
      }
      end := InvalidateAndResend(call, script);
    }

    /** The expired branch: forget the session, fetch a token again, post the refreshed body. */
    method InvalidateAndResend(call: CallId, script: Script) returns (end: CallEnd)
      requires Consistent() && machine.lock.None? && AtPc(machine, 0, Invalidating) && machine.threads[0].call == call
      requires sessionAuthToken.Some?
      modifies this`sessionAuthToken, this`sent, this`history, this`machine
      ensures Valid() && old(history) <= history
      ensures
        var kept := if config.token.Some? then old(sessionAuthToken) else None;
        var run := FetchAndPost(config, kept, call, 2, script.secondSession, script.secondPost);
        && sent == old(sent) + (Removal(config, old(sessionAuthToken), call) + run.wire)
        && sessionAuthToken == run.cache && end == run.end
    {
      InvalidateSessionAuthToken(call);
      end := FetchThenPost(call, 2, script.secondSession, script.secondPost);
    }
  }
}
