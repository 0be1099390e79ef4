/**
  What can go wrong when threads share one client: a post without a token, a clear
  of somebody else's session, an action that takes effect twice.  For each, exactly
  which clients and servers have a run in which it happens.
 */
module SessionRaces {
  import opened Prelude
  import opened SessionProtocol

  // ----------------------------------------------------------------- building runs

  /** A run of the client's threads that ends in `s`. */
  ghost predicate Reaches(config: Config, tids: set<Tid>, events: seq<Event>, s: State) {
    IsRun(Init(config, tids), events) && After(Init(config, tids), events) == s
  }

  lemma ReachStart(config: Config, tids: set<Tid>)
    ensures Reaches(config, tids, [], Init(config, tids))
  {
  }

  lemma ReachMore(config: Config, tids: set<Tid>, events: seq<Event>, s: State, e: Event)
    returns (longer: seq<Event>, next: State)
    requires Reaches(config, tids, events, s) && Enabled(s, e)
    ensures Reaches(config, tids, longer, next) && next == Next(s, e)
  {
    longer, next := Extend(Init(config, tids), events, s, e);
  }

  /** Thread t stands at `pc` in its first round, with this token in hand. */
  predicate Stands(s: State, t: Tid, call: CallId, attempt: nat, pc: Pc, token: Option<Token>) {
    t in s.threads && s.threads[t] == Busy(call, attempt, pc, token)
  }

  /** A thread without a cached token gets a session of its own and stands ready to post. */
  lemma ReachSession(config: Config, tids: set<Tid>, events: seq<Event>, s: State, t: Tid, call: CallId, attempt: nat, token: Token)
    returns (longer: seq<Event>, next: State)
    requires Reaches(config, tids, events, s) && s.config.hasCredentials && s.cache.None? && s.lock.None?
    requires Stands(s, t, call, attempt, FirstRead, None)
    ensures Reaches(config, tids, longer, next) && next.lock.None? && next.cache == Some(token)
    ensures next.threads == s.threads[t := Busy(call, attempt, Ready, Some(token))]
    ensures next.wire == s.wire + [Created(token)] && next.nextCall == s.nextCall && next.config == s.config
  {
    hide Reaches;
    longer, next := ReachMore(config, tids, events, s, Event(t, ReadFirst));
    longer, next := ReachMore(config, tids, longer, next, Event(t, Acquire));
    longer, next := ReachMore(config, tids, longer, next, Event(t, RecheckField));
    longer, next := ReachMore(config, tids, longer, next, Event(t, Answer(Issued(token))));
  }

  /** A thread with a cached token stands ready to post it. */
  lemma ReachCached(config: Config, tids: set<Tid>, events: seq<Event>, s: State, t: Tid, call: CallId, attempt: nat)
    returns (longer: seq<Event>, next: State)
    requires Reaches(config, tids, events, s) && s.cache.Some?
    requires Stands(s, t, call, attempt, FirstRead, None)
    ensures Reaches(config, tids, longer, next)
    ensures next == s.(threads := s.threads[t := Busy(call, attempt, Ready, s.cache)])
  {
    hide Reaches;
    longer, next := ReachMore(config, tids, events, s, Event(t, ReadFirst));
    longer, next := ReachMore(config, tids, longer, next, Event(t, ReadSecond));
  }

  /** A thread clears what is cached, after its first post came back as expired, and starts its second round. */
  lemma ReachClear(config: Config, tids: set<Tid>, events: seq<Event>, s: State, t: Tid, call: CallId, token: Option<Token>)
    returns (longer: seq<Event>, next: State)
    requires Reaches(config, tids, events, s) && s.config.token.None? && s.lock.None? && s.cache.Some?
    requires Stands(s, t, call, 1, Awaiting(Expired), token)
    ensures Reaches(config, tids, longer, next) && next.lock.None? && next.cache.None?
    ensures next.threads == s.threads[t := Busy(call, 2, FirstRead, None)]
    ensures next.wire == s.wire + [Cleared(call, s.cache.value)] && next.nextCall == s.nextCall && next.config == s.config
  {
    hide Reaches;
    longer, next := ReachMore(config, tids, events, s, Event(t, Receive));
    longer, next := ReachMore(config, tids, longer, next, Event(t, EnterInvalidate));
    longer, next := ReachMore(config, tids, longer, next, Event(t, AcquireForClear));
    longer, next := ReachMore(config, tids, longer, next, Event(t, ClearField));
  }

  /** On a fresh client in password mode, thread t gets session "a" and posts, to be told that it expired. */
  lemma ReachFirstExpired(config: Config, tids: set<Tid>, t: Tid, executed: bool) returns (events: seq<Event>, s: State)
    requires config.token.None? && config.hasCredentials && t in tids
    ensures Reaches(config, tids, events, s) && s.lock.None? && s.cache == Some("a") && s.nextCall == 1 && s.config == config
    ensures s.threads == Init(config, tids).threads[t := Busy(0, 1, Awaiting(Expired), Some("a"))]
    ensures s.wire == [Created("a"), Posted(PostRecord(0, 1, Some("a"), executed, Expired))]
  {
    hide Reaches;
    ReachStart(config, tids);
    events, s := ReachMore(config, tids, [], Init(config, tids), Event(t, Begin));
    events, s := ReachSession(config, tids, events, s, t, 0, 1, "a");
    events, s := ReachMore(config, tids, events, s, Event(t, Post(executed, Expired)));
  }

  // ------------------------------------------------------- what one thread alone keeps

  /** The states between having a token in hand and clearing the field. */
  predicate HasTokenInHand(pc: Pc) {
    pc == Ready || pc.Awaiting? || pc == Invalidating || pc == WantClear || pc == Clearing
  }

  /** A thread that nobody interferes with finds the field as it last saw it. */
  predicate Undisturbed(s: State, l: Local) {
    l.Busy? ==>
      && (l.pc == SecondRead ==> s.cache.Some?)
      && (HasTokenInHand(l.pc) ==> s.cache.Some? && l.token == s.cache)
  }

  ghost predicate AllUndisturbed(s: State) {
    forall t :: t in s.threads ==> Undisturbed(s, s.threads[t])
  }

  /** At most one thread. */
  ghost predicate Solo(tids: set<Tid>) {
    forall t, u :: t in tids && u in tids ==> t == u
  }

  lemma SoloStep(s: State, e: Event)
    requires AllUndisturbed(s) && Solo(s.threads.Keys) && Enabled(s, e)
    ensures AllUndisturbed(Next(s, e))
  {
    assert Undisturbed(s, s.threads[e.thread]);
    forall t | t in Next(s, e).threads ensures t == e.thread {
      assert t in s.threads.Keys && e.thread in s.threads.Keys;
    }
  }

  lemma {:induction false} SoloRun(s: State, events: seq<Event>)
    requires AllUndisturbed(s) && Solo(s.threads.Keys) && IsRun(s, events)
    ensures AllUndisturbed(After(s, events))
    decreases |events|
  {
    if events != [] {
      SoloStep(s, events[0]);
      SoloRun(Next(s, events[0]), events[1..]);
    }
  }

  /** A property of the trace that every step from a state of the run keeps holds after the run. */
  ghost predicate NoNullPost(wire: seq<Wire>) {
    forall w :: w in wire && w.Posted? ==> w.post.token.Some?
  }

  lemma {:induction false} SoloPosts(s: State, events: seq<Event>)
    requires AllUndisturbed(s) && Solo(s.threads.Keys) && IsRun(s, events) && NoNullPost(s.wire)
    ensures NoNullPost(After(s, events).wire)
    decreases |events|
  {
    if events != [] {
      var n := Next(s, events[0]);
      SoloStep(s, events[0]);
      assert Undisturbed(s, s.threads[events[0].thread]);
      SoloPosts(n, events[1..]);
    }
  }

  // ------------------------------------------------------------ posts without a token

  /** No run of the client posts without a token. */
  ghost predicate NeverNull(config: Config, tids: set<Tid>) {
    forall events :: IsRun(Init(config, tids), events) ==> NoNullPost(After(Init(config, tids), events).wire)
  }

  /** The race: t clears between the two unlocked reads of u, whose post then has no token. */
  lemma NullTokenRace(config: Config, tids: set<Tid>, t: Tid, u: Tid) returns (events: seq<Event>, s: State)
    requires config.token.None? && config.hasCredentials && t in tids && u in tids && t != u
    ensures Reaches(config, tids, events, s)
    ensures Posted(PostRecord(1, 1, None, false, Failed)) in s.wire
  {
    hide Reaches;
    events, s := ReachFirstExpired(config, tids, t, false);
    events, s := ReachMore(config, tids, events, s, Event(u, Begin));
    events, s := ReachMore(config, tids, events, s, Event(u, ReadFirst));
    assert Stands(s, u, 1, 1, SecondRead, None);
    events, s := ReachClear(config, tids, events, s, t, 0, Some("a"));
    events, s := ReachMore(config, tids, events, s, Event(u, ReadSecond));
    assert Stands(s, u, 1, 1, Ready, None);
    events, s := ReachMore(config, tids, events, s, Event(u, Post(false, Failed)));
    assert s.wire[|s.wire| - 1] == Posted(PostRecord(1, 1, None, false, Failed));
  }

  lemma NullNeedsPasswordMode(config: Config, tids: set<Tid>, events: seq<Event>)
    requires config.token.Some? && IsRun(Init(config, tids), events)
    ensures NoNullPost(After(Init(config, tids), events).wire)
  {
    var wire := After(Init(config, tids), events).wire;
    forall w | w in wire && w.Posted? ensures w.post.token.Some? {
      var i :| 0 <= i < |wire| && wire[i] == w;
      if w.post.token.None? {
        NullTokenOnlyAfterClear(config, tids, events, i);
      }
    }
  }

  /**
    No run posts without a token exactly when the client has a configured token or no
    second thread: with user and password, any two threads can race.
   */
  lemma NeverNullExactly(config: Config, tids: set<Tid>)
    requires ValidConfig(config)
    ensures NeverNull(config, tids) <==> config.token.Some? || Solo(tids)
  {
    hide IsRun, After, NoNullPost;
    if config.token.Some? {
      forall events | IsRun(Init(config, tids), events) ensures NoNullPost(After(Init(config, tids), events).wire) {
        NullNeedsPasswordMode(config, tids, events);
      }
    } else if Solo(tids) {
      forall events | IsRun(Init(config, tids), events) ensures NoNullPost(After(Init(config, tids), events).wire) {
        SoloStart(config, tids);
        SoloPosts(Init(config, tids), events);
      }
    } else {
      var t, u :| t in tids && u in tids && t != u;
      var events, s := NullTokenRace(config, tids, t, u);
      NullIsSeen(config, tids, events, s, PostRecord(1, 1, None, false, Failed));
    }
  }

  lemma SoloStart(config: Config, tids: set<Tid>)
    ensures AllUndisturbed(Init(config, tids)) && Init(config, tids).threads.Keys == tids && NoNullPost(Init(config, tids).wire)
  {
  }

  lemma NullIsSeen(config: Config, tids: set<Tid>, events: seq<Event>, s: State, p: PostRecord)
    requires Reaches(config, tids, events, s) && Posted(p) in s.wire && p.token.None?
    ensures !NeverNull(config, tids)
  {
    assert !NoNullPost(After(Init(config, tids), events).wire);
  }

  // ------------------------------------------------------- clears of other sessions

  /** The clear at position i removes the token that its own call's post was answered as expired for. */
  ghost predicate IsOwnClear(wire: seq<Wire>, i: nat)
    requires i < |wire| && wire[i].Cleared?
  {
    var posts := PostsOf(wire[..i], wire[i].clearedBy);
    posts != [] && posts[0].reply == Expired && posts[0].token == Some(wire[i].removed)
  }

  ghost predicate OnlyOwnClears(wire: seq<Wire>) {
    forall i :: 0 <= i < |wire| && wire[i].Cleared? ==> IsOwnClear(wire, i)
  }

  /** A thread on its way to clear has posted the token that it holds. */
  ghost predicate PostedItsToken(s: State, l: Local) {
    OwesClear(l) ==>
      var posts := PostsOf(s.wire, l.call);
      posts != [] && posts[0].reply == Expired && posts[0].token == l.token
  }

  ghost predicate AllPostedTheirTokens(s: State) {
    forall t :: t in s.threads ==> PostedItsToken(s, s.threads[t])
  }

  lemma StepPostedToken(s: State, e: Event, n: State, t: Tid)
    requires CallsInv(s) && AllPostedTheirTokens(s) && Enabled(s, e) && n == Next(s, e)
    requires t in s.threads && t in n.threads
    ensures PostedItsToken(n, n.threads[t])
  {
    hide PostsOf, HistoryInv, Progress, OwesClear, Next, Enabled, DistinctCalls;
    assert PostedItsToken(s, s.threads[t]);
    if t != e.thread {
      OtherKeeps(s, e, t);
    } else if e.act.Post? {
      PosterPosted(s, e, t);
    } else {
      ActorKeeps(s, e, t);
    }
  }

  /** The threads that do not step keep what they have posted. */
  lemma OtherKeeps(s: State, e: Event, t: Tid)
    requires CallsInv(s) && Enabled(s, e) && t in s.threads && t != e.thread && PostedItsToken(s, s.threads[t])
    ensures t in Next(s, e).threads && Next(s, e).threads[t] == s.threads[t] && PostedItsToken(Next(s, e), s.threads[t])
  {
    hide PostsOf, HistoryInv, Progress;
    if s.threads[t].Busy? {
      PostsStep(s, e, s.threads[t].call);
    }
  }

  /** A first post that comes back as expired carried the token that the thread holds. */
  lemma PosterPosted(s: State, e: Event, t: Tid)
    requires CallsInv(s) && Enabled(s, e) && e.act.Post? && t == e.thread && t in s.threads
    ensures t in Next(s, e).threads && PostedItsToken(Next(s, e), Next(s, e).threads[t])
  {
    hide PostsOf, HistoryInv, DistinctCalls;
    assert ThreadOk(s, t);
    PostsStep(s, e, s.threads[t].call);
  }

  /** Any other step of a thread on its way to clear changes neither its token nor its posts. */
  lemma ActorKeeps(s: State, e: Event, t: Tid)
    requires CallsInv(s) && Enabled(s, e) && !e.act.Post? && t == e.thread && t in s.threads && PostedItsToken(s, s.threads[t])
    ensures t in Next(s, e).threads && PostedItsToken(Next(s, e), Next(s, e).threads[t])
  {
    hide PostsOf, HistoryInv, DistinctCalls, Progress, CallsInv;
    if s.threads[t].Busy? {
      PostsStep(s, e, s.threads[t].call);
    }
  }

  lemma StepPostedTokens(s: State, e: Event)
    requires CallsInv(s) && AllPostedTheirTokens(s) && Enabled(s, e)
    ensures AllPostedTheirTokens(Next(s, e))
  {
    hide PostedItsToken, CallsInv, Next;
    forall t | t in Next(s, e).threads ensures PostedItsToken(Next(s, e), Next(s, e).threads[t]) {
      StepKeepsThreads(s, e);
      StepPostedToken(s, e, Next(s, e), t);
    }
  }

  lemma StepKeepsThreads(s: State, e: Event)
    requires Enabled(s, e)
    ensures Next(s, e).threads.Keys == s.threads.Keys
  {
  }

  /** A clear by a thread that nobody disturbed removes the token it posted. */
  lemma StepOwnClear(s: State, e: Event)
    requires AllPostedTheirTokens(s) && AllUndisturbed(s) && OnlyOwnClears(s.wire) && Enabled(s, e)
    requires Inv(s)
    ensures OnlyOwnClears(Next(s, e).wire)
  {
    hide PostsOf, Inv, Count;
    EmittedIsAppended(s, e);
    var n := Next(s, e);
    assert PostedItsToken(s, s.threads[e.thread]) && Undisturbed(s, s.threads[e.thread]);
    ClearerOwes(s, e);
    forall i | 0 <= i < |n.wire| && n.wire[i].Cleared? ensures IsOwnClear(n.wire, i) {
      if i < |s.wire| {
        assert n.wire[..i] == s.wire[..i];
        assert IsOwnClear(s.wire, i);
      } else {
        assert n.wire[..i] == s.wire;
      }
    }
  }

  lemma ClearerOwes(s: State, e: Event)
    requires Inv(s) && Enabled(s, e)
    ensures e.act == ClearField ==> OwesClear(s.threads[e.thread])
  {
    hide PostsOf, HistoryInv, LockInv, Conserved, Provenance, TokenModeInv, ClearsPaidFor, DistinctCalls;
    assert ThreadOk(s, e.thread);
  }

  lemma {:induction false} SoloClears(s: State, events: seq<Event>)
    requires Inv(s) && AllPostedTheirTokens(s) && AllUndisturbed(s) && Solo(s.threads.Keys) && OnlyOwnClears(s.wire)
    requires IsRun(s, events)
    ensures OnlyOwnClears(After(s, events).wire)
    decreases |events|
  {
    if events != [] {
      hide Inv, AllPostedTheirTokens, AllUndisturbed, OnlyOwnClears, Next;
      var e := events[0];
      StepInv(s, e);
      StepPostedTokensOf(s, e);
      SoloStep(s, e);
      StepKeepsThreads(s, e);
      StepOwnClear(s, e);
      SoloClears(Next(s, e), events[1..]);
    }
  }

  lemma StepPostedTokensOf(s: State, e: Event)
    requires Inv(s) && AllPostedTheirTokens(s) && Enabled(s, e)
    ensures AllPostedTheirTokens(Next(s, e))
  {
    hide AllPostedTheirTokens, CallsInv;
    StepPostedTokens(s, e);
  }

  lemma {:induction false} CountsOne(wire: seq<Wire>, i: nat, p: Wire -> bool)
    requires i < |wire| && p(wire[i])
    ensures Count(wire, p) >= 1
  {
    if i < |wire| - 1 {
      CountsOne(wire[..|wire| - 1], i, p);
    }
  }

  /** No run of the client clears a session other than the one that was reported as expired to the clearing call. */
  ghost predicate NeverClearsAnother(config: Config, tids: set<Tid>) {
    forall events :: IsRun(Init(config, tids), events) ==> OnlyOwnClears(After(Init(config, tids), events).wire)
  }

  /**
    The race: t and u both post session "a" and are both told that it expired; t clears it
    and gets session "b"; u clears "b", which nobody has posted yet.
   */
  lemma StaleClearRace(config: Config, tids: set<Tid>, t: Tid, u: Tid) returns (events: seq<Event>, s: State)
    requires config.token.None? && config.hasCredentials && t in tids && u in tids && t != u
    ensures Reaches(config, tids, events, s)
    ensures s.wire == [
      Created("a"), Posted(PostRecord(0, 1, Some("a"), false, Expired)), Posted(PostRecord(1, 1, Some("a"), false, Expired)),
      Cleared(0, "a"), Created("b"), Cleared(1, "b")]
  {
    hide Reaches;
    events, s := ReachFirstExpired(config, tids, t, false);
    events, s := ReachMore(config, tids, events, s, Event(u, Begin));
    events, s := ReachCached(config, tids, events, s, u, 1, 1);
    events, s := ReachMore(config, tids, events, s, Event(u, Post(false, Expired)));
    assert Stands(s, u, 1, 1, Awaiting(Expired), Some("a"));
    events, s := ReachClear(config, tids, events, s, t, 0, Some("a"));
    events, s := ReachSession(config, tids, events, s, t, 0, 2, "b");
    events, s := ReachClear(config, tids, events, s, u, 1, Some("a"));
  }

  lemma StaleClearIsSeen(wire: seq<Wire>, before: seq<Wire>)
    requires before == [
      Created("a"), Posted(PostRecord(0, 1, Some("a"), false, Expired)), Posted(PostRecord(1, 1, Some("a"), false, Expired)),
      Cleared(0, "a"), Created("b")]
    requires wire == before + [Cleared(1, "b")]
    ensures !OnlyOwnClears(wire)
  {
    assert wire[..5] == before;
    var third := before[2].post;
    PostsOfAppend(before[..4], before[4], 1);
    PostsOfAppend(before[..3], before[3], 1);
    PostsOfAppend(before[..2], before[2], 1);
    PostsOfAppend(before[..1], before[1], 1);
    PostsOfAppend([], before[0], 1);
    assert before[..4] + [before[4]] == before && before[..3] + [before[3]] == before[..4];
    assert before[..2] + [before[2]] == before[..3] && before[..1] + [before[1]] == before[..2];
    assert [] + [before[0]] == before[..1];
    assert PostsOf(wire[..5], 1) == [third];
    assert !IsOwnClear(wire, 5);
  }

  lemma TokenModeNeverClears(config: Config, tids: set<Tid>, events: seq<Event>)
    requires config.token.Some? && IsRun(Init(config, tids), events)
    ensures OnlyOwnClears(After(Init(config, tids), events).wire)
  {
    hide Count;
    TokenModeIsInert(config, tids, events);
    var wire := After(Init(config, tids), events).wire;
    forall i | 0 <= i < |wire| ensures !wire[i].Cleared? {
      if wire[i].Cleared? { CountsOne(wire, i, IsCleared); }
    }
  }

  /**
    In every run every clear is of the session that expired on the clearing call exactly when
    the client has a configured token or no second thread: the clear does not compare tokens.
   */
  lemma NeverClearsAnotherExactly(config: Config, tids: set<Tid>)
    requires ValidConfig(config)
    ensures NeverClearsAnother(config, tids) <==> config.token.Some? || Solo(tids)
  {
    hide IsRun, After, OnlyOwnClears, Inv;
    if config.token.Some? {
      forall events | IsRun(Init(config, tids), events) ensures OnlyOwnClears(After(Init(config, tids), events).wire) {
        TokenModeNeverClears(config, tids, events);
      }
    } else if Solo(tids) {
      forall events | IsRun(Init(config, tids), events) ensures OnlyOwnClears(After(Init(config, tids), events).wire) {
        InitInv(config, tids);
        SoloStart(config, tids);
        SoloStartClears(config, tids);
        SoloClears(Init(config, tids), events);
      }
    } else {
      var t, u :| t in tids && u in tids && t != u;
      var events, s := StaleClearRace(config, tids, t, u);
      StaleClearIsSeen(s.wire, s.wire[..5]);
      ReachedIsAfter(config, tids, events, s);
    }
  }

  lemma SoloStartClears(config: Config, tids: set<Tid>)
    ensures AllPostedTheirTokens(Init(config, tids)) && OnlyOwnClears(Init(config, tids).wire)
  {
  }

  lemma ReachedIsAfter(config: Config, tids: set<Tid>, events: seq<Event>, s: State)
    requires Reaches(config, tids, events, s)
    ensures IsRun(Init(config, tids), events) && After(Init(config, tids), events) == s
  {
  }

  // ------------------------------------------------------------------ double effects

  /** A server: which pairs of executing a post and answering it are possible. */
  type Server = (bool, Reply) -> bool

  /** Every post of the trace was treated as this server may. */
  ghost predicate Obeys(wire: seq<Wire>, server: Server) {
    forall w :: w in wire && w.Posted? ==> server(w.post.executed, w.post.reply)
  }

  /** Against this server no run of the client executes the action of any call twice. */
  ghost predicate NeverTwice(config: Config, tids: set<Tid>, server: Server) {
    forall events, c :: IsRun(Init(config, tids), events) && Obeys(After(Init(config, tids), events).wire, server) ==>
      Executions(PostsOf(After(Init(config, tids), events).wire, c)) <= 1
  }

  /** A call that executes its action twice, against a server that executes what it answers as expired. */
  lemma DoubleEffectRun(config: Config, tids: set<Tid>, t: Tid) returns (events: seq<Event>, s: State)
    requires ValidConfig(config) && t in tids
    ensures Reaches(config, tids, events, s)
    ensures s.wire ==
      if config.token.Some? then
        [Posted(PostRecord(0, 1, config.token, true, Expired)), Posted(PostRecord(0, 2, config.token, true, Expired))]
      else
        [Created("a"), Posted(PostRecord(0, 1, Some("a"), true, Expired)), Cleared(0, "a"), Created("b"),
         Posted(PostRecord(0, 2, Some("b"), true, Expired))]
  {
    hide Reaches;
    if config.token.Some? {
      ReachStart(config, tids);
      events, s := ReachMore(config, tids, [], Init(config, tids), Event(t, Begin));
      events, s := ReachCached(config, tids, events, s, t, 0, 1);
      events, s := ReachMore(config, tids, events, s, Event(t, Post(true, Expired)));
      events, s := ReachMore(config, tids, events, s, Event(t, Receive));
      events, s := ReachMore(config, tids, events, s, Event(t, EnterInvalidate));
      assert Stands(s, t, 0, 2, FirstRead, None) && s.cache == config.token;
      events, s := ReachCached(config, tids, events, s, t, 0, 2);
      events, s := ReachMore(config, tids, events, s, Event(t, Post(true, Expired)));
    } else {
      events, s := ReachFirstExpired(config, tids, t, true);
      events, s := ReachClear(config, tids, events, s, t, 0, Some("a"));
      events, s := ReachSession(config, tids, events, s, t, 0, 2, "b");
      events, s := ReachMore(config, tids, events, s, Event(t, Post(true, Expired)));
    }
  }

  lemma {:induction false} PostsOfTwo(first: seq<Wire>, second: seq<Wire>, c: CallId)
    ensures PostsOf(first + second, c) == PostsOf(first, c) + PostsOf(second, c)
    decreases |second|
  {
    hide PostsOf;
    if second == [] {
      NothingPosted(second, c);
      assert first + second == first;
    } else {
      var front, last := second[..|second| - 1], second[|second| - 1];
      PostsOfTwo(first, front, c);
      PostsOfAppend(first + front, last, c);
      PostsOfAppend(front, last, c);
      assert first + second == first + front + [last] && second == front + [last];
    }
  }

  lemma NothingPosted(wire: seq<Wire>, c: CallId)
    requires wire == []
    ensures PostsOf(wire, c) == []
  {
  }

  /** Two executed posts of one call, whatever is between them. */
  lemma TwoExecutions(wire: seq<Wire>, before: seq<Wire>, p: PostRecord, between: seq<Wire>, q: PostRecord)
    requires wire == before + [Posted(p)] + between + [Posted(q)]
    requires p.call == q.call && p.executed && q.executed
    requires PostsOf(before, p.call) == [] && PostsOf(between, p.call) == []
    ensures Executions(PostsOf(wire, p.call)) == 2
  {
    hide PostsOf, Executions;
    PostsOfTwo(before + [Posted(p)] + between, [Posted(q)], p.call);
    PostsOfTwo(before + [Posted(p)], between, p.call);
    PostsOfTwo(before, [Posted(p)], p.call);
    OnePost(p);
    OnePost(q);
    TwoExecuted(PostsOf(wire, p.call), p, q);
  }

  lemma OnePost(p: PostRecord)
    ensures PostsOf([Posted(p)], p.call) == [p]
  {
    assert [Posted(p)][..0] == [];
  }

  lemma TwoExecuted(posts: seq<PostRecord>, p: PostRecord, q: PostRecord)
    requires posts == [p, q] && p.executed && q.executed
    ensures Executions(posts) == 2
  {
    assert posts[1..] == [q] && posts[1..][1..] == [];
    assert Executions(posts[1..]) == 1 + Executions(posts[1..][1..]);
  }

  lemma DoubleEffectIsSeen(config: Config, tids: set<Tid>, t: Tid, server: Server)
    requires ValidConfig(config) && t in tids && server(true, Expired)
    ensures !NeverTwice(config, tids, server)
  {
    hide Reaches, Executions, IsRun, After;
    var events, s := DoubleEffectRun(config, tids, t);
    if config.token.Some? {
      var p, q := PostRecord(0, 1, config.token, true, Expired), PostRecord(0, 2, config.token, true, Expired);
      TwoExecutions(s.wire, [], p, [], q);
    } else {
      var p, q := PostRecord(0, 1, Some("a"), true, Expired), PostRecord(0, 2, Some("b"), true, Expired);
      SilentPosts("a", "b");
      TwoExecutions(s.wire, [Created("a")], p, [Cleared(0, "a"), Created("b")], q);
    }
    ReachedIsAfter(config, tids, events, s);
    assert Obeys(s.wire, server);
    assert Executions(PostsOf(After(Init(config, tids), events).wire, 0)) == 2;
  }

  lemma SilentPosts(a: Token, b: Token)
    ensures PostsOf([Created(a)], 0) == [] && PostsOf([Cleared(0, a), Created(b)], 0) == []
  {
    assert [Created(a)][..0] == [] && [Cleared(0, a), Created(b)][..1] == [Cleared(0, a)] && [Cleared(0, a)][..0] == [];
  }

  lemma NoThreadsNoPosts(config: Config, tids: set<Tid>, events: seq<Event>, c: CallId)
    requires tids == {} && IsRun(Init(config, tids), events)
    ensures PostsOf(After(Init(config, tids), events).wire, c) == []
  {
    assert events == [];
  }

  /**
    Against a server, no run of the client executes an action twice exactly when the server
    never executes a post that it answers as expired, or there is no thread to call it.
   */
  lemma NeverTwiceExactly(config: Config, tids: set<Tid>, server: Server)
    requires ValidConfig(config)
    ensures NeverTwice(config, tids, server) <==> tids == {} || !server(true, Expired)
  {
    hide IsRun, After, Executions, PostsOf, Init;
    if tids == {} {
      forall events, c | IsRun(Init(config, tids), events) ensures Executions(PostsOf(After(Init(config, tids), events).wire, c)) <= 1 {
        NoThreadsNoPosts(config, tids, events, c);
        NoExecutions(PostsOf(After(Init(config, tids), events).wire, c));
      }
    } else if server(true, Expired) {
      var t :| t in tids;
      DoubleEffectIsSeen(config, tids, t, server);
    } else {
      forall events, c | IsRun(Init(config, tids), events) && Obeys(After(Init(config, tids), events).wire, server)
        ensures Executions(PostsOf(After(Init(config, tids), events).wire, c)) <= 1
      {
        AtMostOnceEffect(config, tids, events, c);
      }
    }
  }

  lemma NoExecutions(posts: seq<PostRecord>)
    requires posts == []
    ensures Executions(posts) == 0
  {
  }
}
