/**
  The upstream session protocol of the API client, as a state machine over the
  atomic steps of any number of threads that share one client object.

  Each thread runs `json_action` calls.  A step is one read or write of the
  shared token field, one acquisition of the session lock, or one message to or
  from the server.  The server is unconstrained: every reply, and whether the
  action behind a reply was executed, is part of the event.
 */
module SessionProtocol {
  import opened Prelude

  /** A token that Python regards as true. */
  type Token = s: string | s != "" witness "t"

  type Tid = nat
  type CallId = nat

  /** `hasCredentials`: both a user name and a password are configured. */
  datatype Config = Config(token: Option<Token>, hasCredentials: bool)

  /** The client's constructor refuses a configuration with neither. */
  predicate ValidConfig(c: Config) {
    c.token.Some? || c.hasCredentials
  }

  /** What a posted action leads to: a return, an error classified as an expired session, or another error. */
  datatype Reply = Success | Expired | Failed

  datatype SessionReply = Issued(token: Token) | NoToken

  /** Where a thread stands inside `json_action`. */
  datatype Pc =
    | FirstRead            // about to test the token field, without the lock
    | SecondRead           // about to return the token field, without the lock
    | WantLock             // about to take the lock
    | Recheck              // holds the lock, about to test the field again
    | Creating             // holds the lock, createSession in flight
    | Ready                // about to post
    | Awaiting(reply: Reply)
    | Invalidating         // the first post came back as expired
    | WantClear            // about to take the lock in order to clear
    | Clearing             // holds the lock, about to clear the field

  datatype Local =
    | Idle
    | Busy(call: CallId, attempt: nat, pc: Pc, token: Option<Token>)

  /** The observable trace: sessions stored, non-empty caches cleared, actions posted. */
  datatype Wire =
    | Created(issued: Token)
    | Cleared(clearedBy: CallId, removed: Token)
    | Posted(post: PostRecord)

  /** One post of an action: which call, its first or second, with what token, executed or not, answered how. */
  datatype PostRecord = PostRecord(call: CallId, attempt: nat, token: Option<Token>, executed: bool, reply: Reply)

  datatype State = State(
    config: Config,
    cache: Option<Token>,
    lock: Option<Tid>,
    threads: map<Tid, Local>,
    nextCall: CallId,
    wire: seq<Wire>)

  datatype Act =
    | Begin
    | ReadFirst
    | ReadSecond
    | Acquire
    | RecheckField
    | Answer(sessionReply: SessionReply)
    | Post(executed: bool, reply: Reply)
    | Receive
    | EnterInvalidate
    | AcquireForClear
    | ClearField

  datatype Event = Event(thread: Tid, act: Act)

  function Init(config: Config, tids: set<Tid>): State {
    State(config, config.token, None, map t | t in tids :: Idle, 0, [])
  }

  predicate AtPc(s: State, t: Tid, pc: Pc) {
    t in s.threads && s.threads[t].Busy? && s.threads[t].pc == pc
  }

  predicate Enabled(s: State, e: Event) {
    var t := e.thread;
    match e.act
    case Begin => t in s.threads && s.threads[t].Idle?
    case ReadFirst => AtPc(s, t, FirstRead)
    case ReadSecond => AtPc(s, t, SecondRead)
    case Acquire => AtPc(s, t, WantLock) && s.lock.None?
    case RecheckField => AtPc(s, t, Recheck)
    case Answer(_) => AtPc(s, t, Creating)
    case Post(_, _) => AtPc(s, t, Ready)
    case Receive => t in s.threads && s.threads[t].Busy? && s.threads[t].pc.Awaiting?
    case EnterInvalidate => AtPc(s, t, Invalidating)
    case AcquireForClear => AtPc(s, t, WantClear) && s.lock.None?
    case ClearField => AtPc(s, t, Clearing)
  }

  function With(s: State, t: Tid, l: Local): State {
    s.(threads := s.threads[t := l])
  }

  function Next(s: State, e: Event): State
    requires Enabled(s, e)
  {
    var t := e.thread;
    var l := s.threads[t];
    match e.act
    case Begin =>
      With(s, t, Busy(s.nextCall, 1, FirstRead, None)).(nextCall := s.nextCall + 1)
    case ReadFirst =>
      With(s, t, l.(pc := if s.cache.Some? then SecondRead else WantLock))
    case ReadSecond =>
      With(s, t, l.(pc := Ready, token := s.cache))
    case Acquire =>
      With(s, t, l.(pc := Recheck)).(lock := Some(t))
    case RecheckField =>
      if s.cache.Some? then
        With(s, t, l.(pc := Ready, token := s.cache)).(lock := None)
      else if !s.config.hasCredentials then
        With(s, t, Idle).(lock := None)
      else
        With(s, t, l.(pc := Creating))
    case Answer(r) =>
      (match r
       case Issued(token) =>
         With(s, t, l.(pc := Ready, token := Some(token)))
         .(lock := None, cache := Some(token), wire := s.wire + [Created(token)])
       case NoToken =>
         With(s, t, Idle).(lock := None))
    case Post(executed, reply) =>
      With(s, t, l.(pc := Awaiting(reply)))
      .(wire := s.wire + [Posted(PostRecord(l.call, l.attempt, l.token, executed, reply))])
    case Receive =>
      With(s, t, if l.attempt == 1 && l.pc.reply == Expired then l.(pc := Invalidating) else Idle)
    case EnterInvalidate =>
      With(s, t, if s.config.token.Some? then Again(l) else l.(pc := WantClear))
    case AcquireForClear =>
      With(s, t, l.(pc := Clearing)).(lock := Some(t))
    case ClearField =>
      With(s, t, Again(l))
      .(lock := None, cache := None,
        wire := if s.cache.Some? then s.wire + [Cleared(l.call, s.cache.value)] else s.wire)
  }

  /** The second round of a call: fetch a token again, then post the refreshed body. */
  function Again(l: Local): Local
    requires l.Busy?
  {
    l.(attempt := 2, pc := FirstRead, token := None)
  }

  /** A run: every event enabled where it happens. */
  ghost predicate IsRun(s: State, events: seq<Event>)
    decreases |events|
  {
    events == [] || (Enabled(s, events[0]) && IsRun(Next(s, events[0]), events[1..]))
  }

  function After(s: State, events: seq<Event>): State
    requires IsRun(s, events)
    decreases |events|
  {
    if events == [] then s else After(Next(s, events[0]), events[1..])
  }

  // ---------------------------------------------------------------- counting

  function Count(wire: seq<Wire>, p: Wire -> bool): nat {
    if wire == [] then 0
    else Count(wire[..|wire| - 1], p) + (if p(wire[|wire| - 1]) then 1 else 0)
  }

  predicate IsCreated(w: Wire) { w.Created? }
  predicate IsCleared(w: Wire) { w.Cleared? }
  predicate IsExpiredFirst(w: Wire) { w.Posted? && w.post.attempt == 1 && w.post.reply == Expired }

  lemma CountAppend(wire: seq<Wire>, w: Wire, p: Wire -> bool)
    ensures Count(wire + [w], p) == Count(wire, p) + (if p(w) then 1 else 0)
  {
    assert (wire + [w])[..|wire|] == wire;
  }

  /** The posts of one call, in order. */
  function PostsOf(wire: seq<Wire>, c: CallId): seq<PostRecord> {
    if wire == [] then []
    else PostsOf(wire[..|wire| - 1], c) + PostBy(wire[|wire| - 1], c)
  }

  function PostBy(w: Wire, c: CallId): seq<PostRecord> {
    if w.Posted? && w.post.call == c then [w.post] else []
  }

  lemma PostsOfAppend(wire: seq<Wire>, w: Wire, c: CallId)
    ensures PostsOf(wire + [w], c) == PostsOf(wire, c) + PostBy(w, c)
  {
    assert (wire + [w])[..|wire|] == wire;
  }

  // -------------------------------------------------------------- invariants

  predicate HoldsLock(l: Local) {
    l.Busy? && (l.pc == Recheck || l.pc == Creating || l.pc == Clearing)
  }

  /** The lock is held exactly by the thread inside one of the locked regions. */
  ghost predicate LockInv(s: State) {
    && (s.lock.Some? ==> s.lock.value in s.threads && HoldsLock(s.threads[s.lock.value]))
    && (forall t :: t in s.threads && HoldsLock(s.threads[t]) ==> s.lock == Some(t))
    && (forall t :: t in s.threads && s.threads[t].Busy? && s.threads[t].pc == Creating ==> s.cache.None?)
  }

  predicate LockFree(l: Local) {
    l.Busy? ==> l.pc != WantLock && !HoldsLock(l) && l.pc != WantClear
  }

  /** In token mode the lock is never needed and the cache is the configured token. */
  ghost predicate TokenModeInv(s: State) {
    s.config.token.Some? ==>
      && s.cache == s.config.token
      && Count(s.wire, IsCreated) == Count(s.wire, IsCleared) == 0
      && forall t :: t in s.threads ==> LockFree(s.threads[t])
  }

  ghost predicate Conserved(s: State) {
    s.config.token.None? ==>
      Count(s.wire, IsCreated) == Count(s.wire, IsCleared) + (if s.cache.Some? then 1 else 0)
  }

  ghost predicate KnownBefore(config: Config, wire: seq<Wire>, token: Token) {
    config.token == Some(token) || Created(token) in wire
  }

  ghost predicate Known(config: Config, wire: seq<Wire>, token: Option<Token>) {
    token.Some? ==> KnownBefore(config, wire, token.value)
  }

  ghost predicate Provenance(s: State) {
    && Known(s.config, s.wire, s.cache)
    && (forall t :: t in s.threads && s.threads[t].Busy? ==> Known(s.config, s.wire, s.threads[t].token))
    && (forall i :: 0 <= i < |s.wire| && s.wire[i].Posted? ==> Known(s.config, s.wire[..i], s.wire[i].post.token))
  }

  /** A finished or running call has posted at most twice, the second time after an expired reply. */
  predicate WellPosted(posts: seq<PostRecord>) {
    && |posts| <= 2
    && (|posts| >= 1 ==> posts[0].attempt == 1)
    && (|posts| == 2 ==> posts[1].attempt == 2 && posts[0].reply == Expired)
  }

  /** How many posts the call of a thread has behind it, by where the thread stands. */
  predicate Progress(l: Local, posts: seq<PostRecord>)
    requires l.Busy?
  {
    && 1 <= l.attempt <= 2
    && match l.pc
       case Awaiting(reply) => |posts| == l.attempt && posts[l.attempt - 1].reply == reply
       case Invalidating => l.attempt == 1 && |posts| == 1 && posts[0].reply == Expired
       case WantClear => l.attempt == 1 && |posts| == 1 && posts[0].reply == Expired
       case Clearing => l.attempt == 1 && |posts| == 1 && posts[0].reply == Expired
       case _ => |posts| == l.attempt - 1 && (l.attempt == 2 ==> posts[0].reply == Expired)
  }

  ghost predicate HistoryInv(s: State) {
    && (forall c :: WellPosted(PostsOf(s.wire, c)))
    && (forall c :: s.nextCall <= c ==> PostsOf(s.wire, c) == [])
  }

  ghost predicate ThreadOk(s: State, t: Tid)
    requires t in s.threads
  {
    s.threads[t].Busy? ==> s.threads[t].call < s.nextCall && Progress(s.threads[t], PostsOf(s.wire, s.threads[t].call))
  }

  ghost predicate DistinctCalls(s: State) {
    forall t, u :: t in s.threads && u in s.threads && t != u && s.threads[t].Busy? && s.threads[u].Busy? ==>
      s.threads[t].call != s.threads[u].call
  }

  ghost predicate CallsInv(s: State) {
    && HistoryInv(s)
    && (forall t :: t in s.threads ==> ThreadOk(s, t))
    && DistinctCalls(s)
  }

  /** A thread that has seen, or is about to see, an expired first reply and has not cleared yet. */
  predicate OwesClear(l: Local) {
    l.Busy? && l.attempt == 1 &&
    (l.pc == Awaiting(Expired) || l.pc == Invalidating || l.pc == WantClear || l.pc == Clearing)
  }

  function Owing(threads: map<Tid, Local>): set<Tid> {
    set t | t in threads && OwesClear(threads[t])
  }

  ghost predicate ClearsPaidFor(s: State) {
    Count(s.wire, IsCleared) + |Owing(s.threads)| <= Count(s.wire, IsExpiredFirst)
  }

  ghost predicate Inv(s: State) {
    && ValidConfig(s.config)
    && LockInv(s)
    && TokenModeInv(s)
    && Conserved(s)
    && Provenance(s)
    && CallsInv(s)
    && ClearsPaidFor(s)
  }

  lemma InitInv(config: Config, tids: set<Tid>)
    requires ValidConfig(config)
    ensures Inv(Init(config, tids))
  {
    assert Owing(Init(config, tids).threads) == {};
  }

  // ------------------------------------------------------------ preservation

  /** A step appends at most one entry to the trace. */
  function Emitted(s: State, e: Event): seq<Wire>
    requires Enabled(s, e)
  {
    var l := s.threads[e.thread];
    match e.act
    case Answer(Issued(token)) => [Created(token)]
    case Post(executed, reply) => [Posted(PostRecord(l.call, l.attempt, l.token, executed, reply))]
    case ClearField => if s.cache.Some? then [Cleared(l.call, s.cache.value)] else []
    case _ => []
  }

  lemma EmittedIsAppended(s: State, e: Event)
    requires Enabled(s, e)
    ensures Next(s, e).wire == s.wire + Emitted(s, e)
    ensures |Emitted(s, e)| <= 1
    ensures forall p: Wire -> bool ::
      Count(Next(s, e).wire, p) == Count(s.wire, p) + (if Emitted(s, e) != [] && p(Emitted(s, e)[0]) then 1 else 0)
    ensures forall c ::
      PostsOf(Next(s, e).wire, c) == PostsOf(s.wire, c) + (if Emitted(s, e) != [] then PostBy(Emitted(s, e)[0], c) else [])
  {
    if Emitted(s, e) != [] {
      var w := Emitted(s, e)[0];
      assert Emitted(s, e) == [w];
      forall p: Wire -> bool { CountAppend(s.wire, w, p); }
      forall c { PostsOfAppend(s.wire, w, c); }
    }
  }

  lemma StepLock(s: State, e: Event)
    requires LockInv(s) && Enabled(s, e)
    ensures LockInv(Next(s, e))
  {
  }

  lemma StepTokenMode(s: State, e: Event)
    requires LockInv(s) && TokenModeInv(s) && Enabled(s, e)
    ensures TokenModeInv(Next(s, e))
  {
    hide Count;
    EmittedIsAppended(s, e);
  }

  lemma StepConserved(s: State, e: Event)
    requires LockInv(s) && Conserved(s) && Enabled(s, e)
    ensures Conserved(Next(s, e))
  {
    hide Count;
    EmittedIsAppended(s, e);
  }

  lemma KnownGrows(config: Config, wire: seq<Wire>, more: seq<Wire>, token: Option<Token>)
    requires Known(config, wire, token)
    ensures Known(config, wire + more, token)
  {
  }

  lemma StepProvenance(s: State, e: Event)
    requires Provenance(s) && Enabled(s, e)
    ensures Provenance(Next(s, e))
  {
    EmittedIsAppended(s, e);
    var n := Next(s, e);
    var more := Emitted(s, e);
    forall token | Known(s.config, s.wire, token) ensures Known(n.config, n.wire, token) {
      KnownGrows(s.config, s.wire, more, token);
    }
    assert Known(n.config, n.wire, n.cache);
    forall i | 0 <= i < |n.wire| && n.wire[i].Posted?
      ensures Known(n.config, n.wire[..i], n.wire[i].post.token)
    {
      if i < |s.wire| {
        assert n.wire[..i] == s.wire[..i];
      } else {
        assert n.wire[..i] == s.wire;
      }
    }
  }

  /** Only the acting thread's call gets a post, and only by the post step. */
  lemma PostsStep(s: State, e: Event, c: CallId)
    requires CallsInv(s) && Enabled(s, e)
    ensures !(e.act.Post? && s.threads[e.thread].call == c) ==> PostsOf(Next(s, e).wire, c) == PostsOf(s.wire, c)
    ensures e.act.Post? && s.threads[e.thread].call == c ==>
      PostsOf(Next(s, e).wire, c) ==
      PostsOf(s.wire, c) + [PostRecord(c, s.threads[e.thread].attempt, s.threads[e.thread].token, e.act.executed, e.act.reply)]
  {
    EmittedIsAppended(s, e);
  }

  /** The call that a step is about. */
  function CallOf(s: State, e: Event): CallId
    requires Enabled(s, e)
  {
    if s.threads[e.thread].Busy? then s.threads[e.thread].call else s.nextCall
  }

  lemma StepActor(s: State, e: Event)
    requires CallsInv(s) && Enabled(s, e)
    ensures ThreadOk(Next(s, e), e.thread)
    ensures WellPosted(PostsOf(Next(s, e).wire, CallOf(s, e)))
  {
    hide PostsOf, WellPosted, Progress, DistinctCalls;
    PostsStep(s, e, CallOf(s, e));
    assert ThreadOk(s, e.thread);
    ActorProgress(s, e, PostsOf(s.wire, CallOf(s, e)), PostsOf(Next(s, e).wire, CallOf(s, e)));
  }

  /** The same, about the posts of the acting call before and after. */
  lemma ActorProgress(s: State, e: Event, before: seq<PostRecord>, after: seq<PostRecord>)
    requires Enabled(s, e)
    requires WellPosted(before) && (e.act.Begin? ==> before == [])
    requires s.threads[e.thread].Busy? ==> Progress(s.threads[e.thread], before)
    requires var l := s.threads[e.thread];
      after == if e.act.Post? then before + [PostRecord(l.call, l.attempt, l.token, e.act.executed, e.act.reply)] else before
    ensures WellPosted(after)
    ensures Next(s, e).threads[e.thread].Busy? ==> Progress(Next(s, e).threads[e.thread], after)
  {
  }

  lemma StepOther(s: State, e: Event, t: Tid)
    requires CallsInv(s) && Enabled(s, e) && t in s.threads && t != e.thread
    ensures ThreadOk(Next(s, e), t)
  {
    hide PostsOf, HistoryInv;
    assert ThreadOk(s, t);
    if s.threads[t].Busy? { PostsStep(s, e, s.threads[t].call); }
  }

  lemma StepHistory(s: State, e: Event)
    requires CallsInv(s) && Enabled(s, e)
    ensures HistoryInv(Next(s, e))
  {
    hide PostsOf, WellPosted, Progress;
    var n := Next(s, e);
    StepActor(s, e);
    assert ThreadOk(s, e.thread);
    forall c ensures WellPosted(PostsOf(n.wire, c)) && (n.nextCall <= c ==> PostsOf(n.wire, c) == []) {
      PostsStep(s, e, c);
      assert WellPosted(PostsOf(s.wire, c));
    }
  }

  lemma StepDistinct(s: State, e: Event)
    requires CallsInv(s) && Enabled(s, e)
    ensures DistinctCalls(Next(s, e))
  {
    var n := Next(s, e);
    forall t, u | t in n.threads && u in n.threads && t != u && n.threads[t].Busy? && n.threads[u].Busy?
      ensures n.threads[t].call != n.threads[u].call
    {
      StepKeepsCallId(s, e, t);
      StepKeepsCallId(s, e, u);
      assert ThreadOk(s, t) && ThreadOk(s, u);
    }
  }

  lemma StepCalls(s: State, e: Event)
    requires CallsInv(s) && Enabled(s, e)
    ensures CallsInv(Next(s, e))
  {
    hide PostsOf, HistoryInv, DistinctCalls, ThreadOk;
    StepHistory(s, e);
    StepActor(s, e);
    StepDistinct(s, e);
    forall t | t in Next(s, e).threads ensures ThreadOk(Next(s, e), t) {
      if t != e.thread { StepOther(s, e, t); }
    }
  }

  /** A busy thread keeps its call number; a thread that begins gets the next one. */
  lemma StepKeepsCallId(s: State, e: Event, t: Tid)
    requires Enabled(s, e) && t in s.threads && Next(s, e).threads[t].Busy?
    ensures if e == Event(t, Begin) then Next(s, e).threads[t].call == s.nextCall
            else s.threads[t].Busy? && Next(s, e).threads[t].call == s.threads[t].call
  {
  }

  lemma OwingRest(threads: map<Tid, Local>, t: Tid, l: Local)
    requires t in threads
    ensures Owing(threads[t := l]) == (Owing(threads) - {t}) + (if OwesClear(l) then {t} else {})
  {
    hide OwesClear;
  }

  lemma CountMember(rest: set<Tid>, t: Tid, member: bool)
    requires t !in rest
    ensures |rest + (if member then {t} else {})| == |rest| + (if member then 1 else 0)
  {
    assert !member ==> rest + {} == rest;
  }

  lemma OwingUpdate(threads: map<Tid, Local>, t: Tid, l: Local)
    requires t in threads
    ensures |Owing(threads[t := l])| ==
      |Owing(threads)| - (if OwesClear(threads[t]) then 1 else 0) + (if OwesClear(l) then 1 else 0)
  {
    hide OwesClear, Owing;
    OwingRest(threads, t, l);
    OwingRest(threads, t, threads[t]);
    assert threads[t := threads[t]] == threads;
    CountMember(Owing(threads) - {t}, t, OwesClear(l));
    CountMember(Owing(threads) - {t}, t, OwesClear(threads[t]));
  }

  /** What a step does to the acting thread's debt, set against what it appends to the trace. */
  lemma StepDebt(s: State, e: Event, posts: seq<PostRecord>)
    requires Enabled(s, e)
    requires s.threads[e.thread].Busy? ==> Progress(s.threads[e.thread], posts)
    ensures Next(s, e).threads == s.threads[e.thread := Next(s, e).threads[e.thread]]
    ensures
      var more := Emitted(s, e);
      (if more != [] && IsCleared(more[0]) then 1 else 0)
      + (if OwesClear(Next(s, e).threads[e.thread]) then 1 else 0)
      <= (if more != [] && IsExpiredFirst(more[0]) then 1 else 0)
         + (if OwesClear(s.threads[e.thread]) then 1 else 0)
  {
  }

  lemma StepClears(s: State, e: Event)
    requires CallsInv(s) && ClearsPaidFor(s) && Enabled(s, e)
    ensures ClearsPaidFor(Next(s, e))
  {
    hide PostsOf, Count, Owing, OwesClear, HistoryInv, DistinctCalls, Progress, Next, Emitted;
    EmittedIsAppended(s, e);
    assert ThreadOk(s, e.thread);
    StepDebt(s, e, PostsOf(s.wire, CallOf(s, e)));
    OwingUpdate(s.threads, e.thread, Next(s, e).threads[e.thread]);
  }

  lemma StepInv(s: State, e: Event)
    requires Inv(s) && Enabled(s, e)
    ensures Inv(Next(s, e))
  {
    StepLock(s, e);
    StepTokenMode(s, e);
    StepConserved(s, e);
    StepProvenance(s, e);
    StepCalls(s, e);
    StepClears(s, e);
  }

  /** The invariant holds after every run, whatever the schedule and the server. */
  lemma {:induction false} RunInv(s: State, events: seq<Event>)
    requires Inv(s) && IsRun(s, events)
    ensures Inv(After(s, events))
    decreases |events|
  {
    if events != [] {
      StepInv(s, events[0]);
      RunInv(Next(s, events[0]), events[1..]);
    }
  }

  // ---------------------------------------------------------------- theorems

  /** Password mode: sessions stored are the non-empty caches cleared, plus the one still cached. */
  lemma SessionConservation(config: Config, tids: set<Tid>, events: seq<Event>)
    requires ValidConfig(config) && config.token.None?
    requires IsRun(Init(config, tids), events)
    ensures var s := After(Init(config, tids), events);
      Count(s.wire, IsCreated) == Count(s.wire, IsCleared) + (if s.cache.Some? then 1 else 0)
  {
    InitInv(config, tids);
    RunInv(Init(config, tids), events);
    ConfigFixed(Init(config, tids), events);
  }

  lemma {:induction false} ConfigFixed(s: State, events: seq<Event>)
    requires IsRun(s, events)
    ensures After(s, events).config == s.config
    ensures After(s, events).threads.Keys == s.threads.Keys
    decreases |events|
  {
    if events != [] {
      ConfigFixed(Next(s, events[0]), events[1..]);
    }
  }

  /** However threads race, the sessions created never exceed one more than the expired first replies. */
  lemma SessionsBounded(config: Config, tids: set<Tid>, events: seq<Event>)
    requires ValidConfig(config)
    requires IsRun(Init(config, tids), events)
    ensures var s := After(Init(config, tids), events);
      Count(s.wire, IsCreated) <= 1 + Count(s.wire, IsExpiredFirst)
  {
    InitInv(config, tids);
    RunInv(Init(config, tids), events);
  }

  /** Mutual exclusion: one createSession in flight at a time, and only while nothing is cached. */
  lemma OneCreateInFlight(config: Config, tids: set<Tid>, events: seq<Event>, t: Tid, u: Tid)
    requires ValidConfig(config)
    requires IsRun(Init(config, tids), events)
    requires AtPc(After(Init(config, tids), events), t, Creating)
    requires AtPc(After(Init(config, tids), events), u, Creating)
    ensures t == u
    ensures After(Init(config, tids), events).cache.None?
  {
    InitInv(config, tids);
    RunInv(Init(config, tids), events);
  }

  /** Every token put on the wire was configured, or issued by an earlier createSession. */
  lemma SentTokensAreKnown(config: Config, tids: set<Tid>, events: seq<Event>, i: nat)
    requires ValidConfig(config)
    requires IsRun(Init(config, tids), events)
    requires i < |After(Init(config, tids), events).wire|
    requires var w := After(Init(config, tids), events).wire[i]; w.Posted? && w.post.token.Some?
    ensures var wire := After(Init(config, tids), events).wire;
      KnownBefore(config, wire[..i], wire[i].post.token.value)
  {
    InitInv(config, tids);
    RunInv(Init(config, tids), events);
    ConfigFixed(Init(config, tids), events);
  }

  /** Token mode: no session is created, none is cleared, and the cache keeps the configured token. */
  lemma TokenModeIsInert(config: Config, tids: set<Tid>, events: seq<Event>)
    requires config.token.Some?
    requires IsRun(Init(config, tids), events)
    ensures var s := After(Init(config, tids), events);
      s.cache == config.token && Count(s.wire, IsCreated) == 0 && Count(s.wire, IsCleared) == 0 && s.lock.None?
  {
    InitInv(config, tids);
    RunInv(Init(config, tids), events);
    ConfigFixed(Init(config, tids), events);
  }

  /** The credentials check under the lock never fails in a client the constructor accepted. */
  lemma CredentialsNeverMissing(config: Config, tids: set<Tid>, events: seq<Event>, t: Tid)
    requires ValidConfig(config)
    requires IsRun(Init(config, tids), events)
    requires AtPc(After(Init(config, tids), events), t, Recheck)
    ensures config.hasCredentials
  {
    InitInv(config, tids);
    RunInv(Init(config, tids), events);
    ConfigFixed(Init(config, tids), events);
  }

  /** A call posts its action at most twice, and the second time only after an expired reply. */
  lemma AtMostTwoPosts(config: Config, tids: set<Tid>, events: seq<Event>, c: CallId)
    requires ValidConfig(config)
    requires IsRun(Init(config, tids), events)
    ensures var posts := PostsOf(After(Init(config, tids), events).wire, c);
      |posts| <= 2 && (|posts| == 2 ==> posts[0].reply == Expired)
  {
    InitInv(config, tids);
    RunInv(Init(config, tids), events);
    assert WellPosted(PostsOf(After(Init(config, tids), events).wire, c));
  }

  function Executions(posts: seq<PostRecord>): nat {
    if posts == [] then 0 else (if posts[0].executed then 1 else 0) + Executions(posts[1..])
  }

  /**
    An action takes effect twice exactly when the server executed a post that it
    answered as expired and then executed the second post.
   */
  lemma DoubleEffectExactly(config: Config, tids: set<Tid>, events: seq<Event>, c: CallId)
    requires ValidConfig(config)
    requires IsRun(Init(config, tids), events)
    ensures var posts := PostsOf(After(Init(config, tids), events).wire, c);
      Executions(posts) >= 2 <==>
        |posts| == 2 && posts[0].reply == Expired && posts[0].executed && posts[1].executed
  {
    AtMostTwoPosts(config, tids, events, c);
    var posts := PostsOf(After(Init(config, tids), events).wire, c);
    if |posts| == 2 {
      assert Executions(posts[1..]) == (if posts[1].executed then 1 else 0) + Executions(posts[1..][1..]);
    }
  }

  lemma {:induction false} PostsOnWire(wire: seq<Wire>, c: CallId, p: PostRecord)
    requires p in PostsOf(wire, c)
    ensures Posted(p) in wire && p.call == c
  {
    if p in PostsOf(wire[..|wire| - 1], c) {
      PostsOnWire(wire[..|wire| - 1], c, p);
    }
  }

  /** A server that never executes what it answers as expired: no call takes effect twice. */
  lemma AtMostOnceEffect(config: Config, tids: set<Tid>, events: seq<Event>, c: CallId)
    requires ValidConfig(config)
    requires IsRun(Init(config, tids), events)
    requires forall w :: w in After(Init(config, tids), events).wire && w.Posted? && w.post.reply == Expired ==> !w.post.executed
    ensures Executions(PostsOf(After(Init(config, tids), events).wire, c)) <= 1
  {
    DoubleEffectExactly(config, tids, events, c);
    var wire := After(Init(config, tids), events).wire;
    if |PostsOf(wire, c)| == 2 {
      PostsOnWire(wire, c, PostsOf(wire, c)[0]);
    }
  }

  // -------------------------------------------------------- null first tokens

  /** A thread that holds, or is about to read, no token. */
  predicate Tokenless(s: State, l: Local) {
    l.Busy? && ((l.pc == SecondRead && s.cache.None?) || (l.pc == Ready && l.token.None?))
  }

  /** A missing token needs an earlier clear, in a thread as on the wire. */
  ghost predicate NullNeedsClear(s: State) {
    && (forall t :: t in s.threads && Tokenless(s, s.threads[t]) ==> Count(s.wire, IsCleared) >= 1)
    && (forall i :: 0 <= i < |s.wire| && s.wire[i].Posted? && s.wire[i].post.token.None? ==>
          Count(s.wire[..i], IsCleared) >= 1)
  }

  lemma StepNullThread(s: State, e: Event, t: Tid)
    requires NullNeedsClear(s) && Enabled(s, e) && t in s.threads
    requires Tokenless(Next(s, e), Next(s, e).threads[t])
    ensures Count(Next(s, e).wire, IsCleared) >= 1
  {
    hide Count, PostsOf;
    EmittedIsAppended(s, e);
    assert t != e.thread ==> Next(s, e).threads[t] == s.threads[t];
    assert Tokenless(s, s.threads[t]) ==> Count(s.wire, IsCleared) >= 1;
    assert Tokenless(s, s.threads[e.thread]) ==> Count(s.wire, IsCleared) >= 1;
  }

  lemma StepNull(s: State, e: Event)
    requires NullNeedsClear(s) && Enabled(s, e)
    ensures NullNeedsClear(Next(s, e))
  {
    hide Count, PostsOf;
    var n := Next(s, e);
    forall t | t in n.threads && Tokenless(n, n.threads[t]) ensures Count(n.wire, IsCleared) >= 1 {
      StepNullThread(s, e, t);
    }
    EmittedIsAppended(s, e);
    forall i | 0 <= i < |n.wire| && n.wire[i].Posted? && n.wire[i].post.token.None?
      ensures Count(n.wire[..i], IsCleared) >= 1
    {
      if i < |s.wire| {
        assert n.wire[..i] == s.wire[..i];
      } else {
        assert n.wire[..i] == s.wire;
        assert Tokenless(s, s.threads[e.thread]);
      }
    }
  }

  lemma {:induction false} RunNull(s: State, events: seq<Event>)
    requires NullNeedsClear(s) && IsRun(s, events)
    ensures NullNeedsClear(After(s, events))
    decreases |events|
  {
    if events != [] {
      StepNull(s, events[0]);
      RunNull(Next(s, events[0]), events[1..]);
    }
  }

  /** An action goes out without a token only after some call's expired reply has emptied the cache. */
  lemma NullTokenOnlyAfterClear(config: Config, tids: set<Tid>, events: seq<Event>, i: nat)
    requires ValidConfig(config)
    requires IsRun(Init(config, tids), events)
    requires i < |After(Init(config, tids), events).wire|
    requires var w := After(Init(config, tids), events).wire[i]; w.Posted? && w.post.token.None?
    ensures Count(After(Init(config, tids), events).wire[..i], IsCleared) >= 1
    ensures config.token.None?
    ensures Count(After(Init(config, tids), events).wire, IsExpiredFirst) >= 1
  {
    var s := After(Init(config, tids), events);
    InitInv(config, tids);
    RunInv(Init(config, tids), events);
    ConfigFixed(Init(config, tids), events);
    RunNull(Init(config, tids), events);
    CountPrefix(s.wire, i, IsCleared);
  }

  lemma {:induction false} CountPrefix(wire: seq<Wire>, i: nat, p: Wire -> bool)
    requires i <= |wire|
    ensures Count(wire[..i], p) <= Count(wire, p)
  {
    if i < |wire| {
      CountPrefix(wire[..|wire| - 1], i, p);
      assert wire[..|wire| - 1][..i] == wire[..i];
    } else {
      assert wire[..i] == wire;
    }
  }

  /** One more step at the end of a run. */
  lemma {:induction false} Extend(s0: State, events: seq<Event>, s: State, e: Event)
    returns (longer: seq<Event>, next: State)
    requires IsRun(s0, events) && After(s0, events) == s && Enabled(s, e)
    ensures longer == events + [e] && next == Next(s, e)
    ensures IsRun(s0, longer) && After(s0, longer) == next
    decreases |events|
  {
    longer, next := events + [e], Next(s, e);
    if events == [] {
      assert longer[1..] == [];
    } else {
      var tail, _ := Extend(Next(s0, events[0]), events[1..], s, e);
      assert longer[1..] == tail;
    }
  }

  // ------------------------------------------------------------------ progress

  /** No deadlock: while any call is running, some thread can take a step. */
  lemma DeadlockFree(config: Config, tids: set<Tid>, events: seq<Event>, t: Tid)
    requires ValidConfig(config)
    requires IsRun(Init(config, tids), events)
    requires var s := After(Init(config, tids), events); t in s.threads && s.threads[t].Busy?
    ensures exists e :: Enabled(After(Init(config, tids), events), e) && !e.act.Begin?
  {
    hide TokenModeInv, Conserved, Provenance, CallsInv, ClearsPaidFor;
    InitInv(config, tids);
    RunInv(Init(config, tids), events);
    var s := After(Init(config, tids), events);
    var holder := if s.lock.Some? then s.lock.value else t;
    assert Enabled(s, NextEvent(s, holder));
  }

  /** The step that a busy thread is waiting to take. */
  function NextEvent(s: State, t: Tid): Event
    requires t in s.threads && s.threads[t].Busy?
  {
    Event(t,
      match s.threads[t].pc
      case FirstRead => ReadFirst
      case SecondRead => ReadSecond
      case WantLock => Acquire
      case Recheck => RecheckField
      case Creating => Answer(NoToken)
      case Ready => Post(false, Failed)
      case Awaiting(_) => Receive
      case Invalidating => EnterInvalidate
      case WantClear => AcquireForClear
      case Clearing => ClearField)
  }
}
