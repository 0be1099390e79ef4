/**
  Any number of calls of the writing tools at once: their emissions interleave in
  any order, and what holds of every prefix of every interleaving.
 */
module WriteRuns {
  import opened Prelude
  import opened JsonValue
  import opened GuardedWrites
  import opened WriteCalls
  import SessionProtocol

  // -------------------------------------------------------------------- the machine

  /** Which call emitted what. */
  datatype Logged = Logged(call: nat, emission: Emission)

  /** How far each call has come, and the log that they share. */
  datatype State = State(next: seq<nat>, log: seq<Logged>)

  predicate CanStep(calls: seq<Call>, allowed: set<string>, s: State, i: nat) {
    |s.next| == |calls| && i < |calls| && s.next[i] < |Script(calls[i], allowed)|
  }

  /** Call i emits its next item. */
  function Step(calls: seq<Call>, allowed: set<string>, s: State, i: nat): State
    requires CanStep(calls, allowed, s, i)
  {
    State(s.next[i := s.next[i] + 1], s.log + [Logged(i, Script(calls[i], allowed)[s.next[i]])])
  }

  function Start(calls: seq<Call>): State {
    State(seq(|calls|, _ => 0), [])
  }

  /** The state after a schedule; None if the schedule asks a finished call for more. */
  function After(calls: seq<Call>, allowed: set<string>, schedule: seq<nat>): Option<State> {
    if schedule == [] then Some(Start(calls))
    else
      match After(calls, allowed, schedule[..|schedule| - 1])
      case None => None
      case Some(s) =>
        var i := schedule[|schedule| - 1];
        if CanStep(calls, allowed, s, i) then Some(Step(calls, allowed, s, i)) else None
  }

  /** What one call has emitted. */
  function EmittedBy(log: seq<Logged>, i: nat): seq<Emission> {
    if log == [] then []
    else
      var last := log[|log| - 1];
      EmittedBy(log[..|log| - 1], i) + (if last.call == i then [last.emission] else [])
  }

  /** Each call has emitted the start of its script. */
  ghost predicate Interleaved(calls: seq<Call>, allowed: set<string>, s: State) {
    && |s.next| == |calls|
    && (forall k :: 0 <= k < |s.log| ==> s.log[k].call < |calls|)
    && forall i :: 0 <= i < |calls| ==> Started(calls[i], allowed, s.next[i], EmittedBy(s.log, i))
  }

  predicate Started(c: Call, allowed: set<string>, next: nat, emitted: seq<Emission>) {
    next <= |Script(c, allowed)| && emitted == Script(c, allowed)[..next]
  }

  lemma EmittedByNext(log: seq<Logged>, e: Logged, i: nat)
    ensures EmittedBy(log + [e], i) == EmittedBy(log, i) + (if e.call == i then [e.emission] else [])
  {
    assert (log + [e])[..|log|] == log;
  }

  lemma StepInterleaves(calls: seq<Call>, allowed: set<string>, s: State, i: nat)
    requires Interleaved(calls, allowed, s) && CanStep(calls, allowed, s, i)
    ensures Interleaved(calls, allowed, Step(calls, allowed, s, i))
  {
    hide Script;
    var e := Logged(i, Script(calls[i], allowed)[s.next[i]]);
    var after := Step(calls, allowed, s, i);
    forall j | 0 <= j < |calls| ensures Started(calls[j], allowed, after.next[j], EmittedBy(after.log, j)) {
      EmittedByNext(s.log, e, j);
      assert Started(calls[j], allowed, s.next[j], EmittedBy(s.log, j));
      if j == i {
        NextOf(Script(calls[i], allowed), s.next[i]);
      }
    }
  }

  lemma NextOf(script: seq<Emission>, n: nat)
    requires n < |script|
    ensures script[..n + 1] == script[..n] + [script[n]]
  {
  }

  /** Every reachable log is an interleaving of starts of the calls' scripts. */
  lemma {:induction false} ReachableIsInterleaved(calls: seq<Call>, allowed: set<string>, schedule: seq<nat>)
    requires After(calls, allowed, schedule).Some?
    ensures Interleaved(calls, allowed, After(calls, allowed, schedule).value)
    decreases |schedule|
  {
    hide CanStep, Step, Interleaved;
    if schedule == [] {
      StartInterleaved(calls, allowed);
    } else {
      var front := schedule[..|schedule| - 1];
      ReachableIsInterleaved(calls, allowed, front);
      StepInterleaves(calls, allowed, After(calls, allowed, front).value, schedule[|schedule| - 1]);
    }
  }

  lemma StartInterleaved(calls: seq<Call>, allowed: set<string>)
    ensures Interleaved(calls, allowed, Start(calls))
  {
    hide Script;
  }

  /** What is in the log was emitted by a call, from its script. */
  lemma LoggedIsScripted(calls: seq<Call>, allowed: set<string>, s: State, k: nat)
    requires Interleaved(calls, allowed, s) && k < |s.log|
    ensures s.log[k].call < |calls| && s.log[k].emission in Script(calls[s.log[k].call], allowed)
  {
    hide Script;
    var i := s.log[k].call;
    LoggedIsEmitted(s.log, k);
    assert Started(calls[i], allowed, s.next[i], EmittedBy(s.log, i));
  }

  lemma {:induction false} LoggedIsEmitted(log: seq<Logged>, k: nat)
    requires k < |log|
    ensures log[k].emission in EmittedBy(log, log[k].call)
    decreases |log|
  {
    if k < |log| - 1 {
      LoggedIsEmitted(log[..|log| - 1], k);
    }
  }

  /**
    Whatever calls run and however they interleave, every write request comes from a
    call that was confirmed, was no dry run, is of a group that the policy allows, and
    passed validation; and it carries the payload that the call was compiled to.
   */
  lemma ConfirmedWritesOnly(calls: seq<Call>, allowed: set<string>, schedule: seq<nat>, k: nat)
    requires After(calls, allowed, schedule).Some?
    requires k < |After(calls, allowed, schedule).value.log|
    requires IsWrite(After(calls, allowed, schedule).value.log[k].emission)
    ensures var logged := After(calls, allowed, schedule).value.log[k];
      logged.call < |calls| && Authorized(calls[logged.call], allowed, logged.emission.sent)
  {
    hide Authorized, Script, Interleaved;
    ReachableIsInterleaved(calls, allowed, schedule);
    var s := After(calls, allowed, schedule).value;
    LoggedIsScripted(calls, allowed, s, k);
    ScriptedWritesAreAuthorized(calls[s.log[k].call], allowed, s.log[k].emission);
  }

  /** In every log, a call has posted its write at most twice, whatever else runs on the client and beside the call. */
  lemma LoggedWritesAtMostTwice(calls: seq<Call>, allowed: set<string>, schedule: seq<nat>, i: nat,
                                config: SessionProtocol.Config, tids: set<SessionProtocol.Tid>,
                                events: seq<SessionProtocol.Event>, id: SessionProtocol.CallId)
    requires After(calls, allowed, schedule).Some? && i < |calls|
    requires IsClientRun(config, tids, events) && calls[i].env.posts == |PostsIn(config, tids, events, id)|
    ensures CountIf(EmittedBy(After(calls, allowed, schedule).value.log, i), IsWrite) <= 2
  {
    hide Script, CountIf, EmittedBy, After, IsClientRun, PostsIn, MayWrite;
    ReachableIsInterleaved(calls, allowed, schedule);
    var s := After(calls, allowed, schedule).value;
    assert Started(calls[i], allowed, s.next[i], EmittedBy(s.log, i));
    CountIfPrefix(Script(calls[i], allowed), s.next[i], IsWrite);
    WritesAtMostTwice(calls[i], allowed, config, tids, events, id);
  }

  // ---------------------------------------------------------------- counting in the log

  function Emissions(log: seq<Logged>): seq<Emission> {
    seq(|log|, k requires 0 <= k < |log| => log[k].emission)
  }

  function SumOver(log: seq<Logged>, n: nat, p: Emission -> bool): nat {
    if n == 0 then 0 else SumOver(log, n - 1, p) + CountIf(EmittedBy(log, n - 1), p)
  }

  lemma {:induction false} SumOfOneMore(log: seq<Logged>, e: Logged, n: nat, p: Emission -> bool)
    ensures SumOver(log + [e], n, p) == SumOver(log, n, p) + (if e.call < n && p(e.emission) then 1 else 0)
  {
    hide EmittedBy, CountIf;
    if n > 0 {
      SumOfOneMore(log, e, n - 1, p);
      EmittedByNext(log, e, n - 1);
      if e.call == n - 1 {
        CountIfAppend(EmittedBy(log, n - 1), [e.emission], p);
        CountIfOne([e.emission], p);
      } else {
        assert EmittedBy(log, n - 1) + [] == EmittedBy(log, n - 1);
      }
    }
  }

  lemma {:induction false} EmptySum(log: seq<Logged>, n: nat, p: Emission -> bool)
    requires log == []
    ensures SumOver(log, n, p) == 0
  {
    if n > 0 { EmptySum(log, n - 1, p); }
  }

  /** What the log counts is what the calls count together. */
  lemma {:induction false} LogCountIsSum(log: seq<Logged>, n: nat, p: Emission -> bool)
    requires forall k :: 0 <= k < |log| ==> log[k].call < n
    ensures CountIf(Emissions(log), p) == SumOver(log, n, p)
    decreases |log|
  {
    hide SumOver, EmittedBy;
    if log == [] {
      EmptySum(log, n, p);
    } else {
      var front, last := log[..|log| - 1], log[|log| - 1];
      LogCountIsSum(front, n, p);
      SumOfOneMore(front, last, n, p);
      assert front + [last] == log;
      assert Emissions(log)[..|log| - 1] == Emissions(front);
    }
  }

  /** Each of the first n calls emitted as many of the one kind as of the other. */
  predicate AllEqual(log: seq<Logged>, n: nat, p: Emission -> bool, q: Emission -> bool) {
    forall i: nat :: i < n ==> CountIf(EmittedBy(log, i), p) == CountIf(EmittedBy(log, i), q)
  }

  /** Sums compare as their terms do, and are equal exactly when all the terms are. */
  lemma {:induction false} SumsCompare(log: seq<Logged>, n: nat, p: Emission -> bool, q: Emission -> bool)
    requires forall i: nat :: i < n ==> CountIf(EmittedBy(log, i), p) <= CountIf(EmittedBy(log, i), q)
    ensures SumOver(log, n, p) <= SumOver(log, n, q)
    ensures SumOver(log, n, p) == SumOver(log, n, q) <==> AllEqual(log, n, p, q)
  {
    hide EmittedBy, CountIf;
    if n > 0 {
      SumsCompare(log, n - 1, p, q);
      assert CountIf(EmittedBy(log, n - 1), p) <= CountIf(EmittedBy(log, n - 1), q);
      assert AllEqual(log, n, p, q) <==>
        AllEqual(log, n - 1, p, q) && CountIf(EmittedBy(log, n - 1), p) == CountIf(EmittedBy(log, n - 1), q);
    }
  }

  /** In every log, of any calls in any order, a connector tool has no more results than real attempts. */
  lemma ResultsNeverAhead(calls: seq<Call>, allowed: set<string>, schedule: seq<nat>, t: Tool)
    requires After(calls, allowed, schedule).Some? && FamilyOf(t) == ConnectorFamily
    ensures var log := Emissions(After(calls, allowed, schedule).value.log);
      CountIf(log, ResultOf(t)) <= CountIf(log, RealAttempt(t))
  {
    hide Script, FamilyOf, CountIf, EmittedBy, After, Emissions;
    ReachableIsInterleaved(calls, allowed, schedule);
    var s := After(calls, allowed, schedule).value;
    forall i: nat | i < |calls|
      ensures CountIf(EmittedBy(s.log, i), ResultOf(t)) <= CountIf(EmittedBy(s.log, i), RealAttempt(t))
    {
      assert Started(calls[i], allowed, s.next[i], EmittedBy(s.log, i));
      PrefixIsBalanced(calls[i], allowed, s.next[i], t);
    }
    SumsCompare(s.log, |calls|, ResultOf(t), RealAttempt(t));
    LogCountIsSum(s.log, |calls|, ResultOf(t));
    LogCountIsSum(s.log, |calls|, RealAttempt(t));
  }

  /** Every call has run to its end. */
  predicate Finished(calls: seq<Call>, allowed: set<string>, s: State) {
    |s.next| == |calls| && forall i :: 0 <= i < |calls| ==> s.next[i] == |Script(calls[i], allowed)|
  }

  /** A real call of the tool is recorded. */
  predicate IsPaired(c: Call, t: Tool) {
    c.tool == t && !c.args.dryRun ==> IsRecorded(c)
  }

  lemma WholeCounts(c: Call, allowed: set<string>, t: Tool)
    requires FamilyOf(t) == ConnectorFamily
    ensures CountIf(Script(c, allowed), ResultOf(t)) == CountIf(Script(c, allowed), RealAttempt(t)) <==> IsPaired(c, t)
  {
    hide Script, FamilyOf, CountIf, IsRecorded;
    if c.tool == t {
      ConnectorCounts(c, allowed, t);
      RecordedIsReal(c);
    } else {
      ScriptIsOwned(c, allowed);
      CountIfNone(Script(c, allowed), ResultOf(t));
      CountIfNone(Script(c, allowed), RealAttempt(t));
    }
  }

  /** The share of one finished call in the log. */
  lemma FinishedShare(calls: seq<Call>, allowed: set<string>, s: State, i: nat, t: Tool)
    requires Interleaved(calls, allowed, s) && Finished(calls, allowed, s)
    requires i < |calls| && FamilyOf(t) == ConnectorFamily
    ensures CountIf(EmittedBy(s.log, i), ResultOf(t)) <= CountIf(EmittedBy(s.log, i), RealAttempt(t))
    ensures CountIf(EmittedBy(s.log, i), ResultOf(t)) == CountIf(EmittedBy(s.log, i), RealAttempt(t)) <==> IsPaired(calls[i], t)
  {
    hide Script, FamilyOf, CountIf, EmittedBy, IsPaired;
    assert Started(calls[i], allowed, s.next[i], EmittedBy(s.log, i));
    var script := Script(calls[i], allowed);
    assert script[..|script|] == script;
    PrefixIsBalanced(calls[i], allowed, |script|, t);
    WholeCounts(calls[i], allowed, t);
  }

  /**
    When all calls have ended, the results of a connector tool match its real attempts
    exactly when every one of its real calls was recorded: each got as far as writing, or
    its tool logs rejections.
   */
  lemma AuditPairsExactly(calls: seq<Call>, allowed: set<string>, schedule: seq<nat>, t: Tool)
    requires After(calls, allowed, schedule).Some? && FamilyOf(t) == ConnectorFamily
    requires Finished(calls, allowed, After(calls, allowed, schedule).value)
    ensures var log := Emissions(After(calls, allowed, schedule).value.log);
      CountIf(log, ResultOf(t)) == CountIf(log, RealAttempt(t)) <==> forall i :: 0 <= i < |calls| ==> IsPaired(calls[i], t)
  {
    hide Script, FamilyOf, CountIf, EmittedBy, After, Emissions, IsPaired, Finished;
    ReachableIsInterleaved(calls, allowed, schedule);
    var s := After(calls, allowed, schedule).value;
    forall i: nat | i < |calls|
      ensures CountIf(EmittedBy(s.log, i), ResultOf(t)) <= CountIf(EmittedBy(s.log, i), RealAttempt(t))
      ensures CountIf(EmittedBy(s.log, i), ResultOf(t)) == CountIf(EmittedBy(s.log, i), RealAttempt(t)) <==> IsPaired(calls[i], t)
    {
      FinishedShare(calls, allowed, s, i, t);
    }
    SumsCompare(s.log, |calls|, ResultOf(t), RealAttempt(t));
    LogCountIsSum(s.log, |calls|, ResultOf(t));
    LogCountIsSum(s.log, |calls|, RealAttempt(t));
    if AllEqual(s.log, |calls|, ResultOf(t), RealAttempt(t)) {
      forall i | 0 <= i < |calls| ensures IsPaired(calls[i], t) {
        assert CountIf(EmittedBy(s.log, i), ResultOf(t)) == CountIf(EmittedBy(s.log, i), RealAttempt(t));
      }
    }
    if forall i :: 0 <= i < |calls| ==> IsPaired(calls[i], t) {
      forall i: nat | i < |calls|
        ensures CountIf(EmittedBy(s.log, i), ResultOf(t)) == CountIf(EmittedBy(s.log, i), RealAttempt(t))
      {
        assert IsPaired(calls[i], t);
      }
    }
  }

  /** For the tools that log rejections they match exactly when no real call crashed on its scope. */
  lemma LoggingToolsPairExactly(calls: seq<Call>, allowed: set<string>, schedule: seq<nat>, t: Tool)
    requires After(calls, allowed, schedule).Some? && FamilyOf(t) == ConnectorFamily && LogsRejections(t)
    requires Finished(calls, allowed, After(calls, allowed, schedule).value)
    ensures var log := Emissions(After(calls, allowed, schedule).value.log);
      CountIf(log, ResultOf(t)) == CountIf(log, RealAttempt(t)) <==>
      forall i :: 0 <= i < |calls| ==> IsUncrashed(calls[i], t)
  {
    hide Script, CountIf, After, Emissions, Finished, IsPaired, IsUncrashed, FamilyOf, LogsRejections;
    AuditPairsExactly(calls, allowed, schedule, t);
    forall i | 0 <= i < |calls| ensures IsPaired(calls[i], t) <==> IsUncrashed(calls[i], t) {
      PairedUnlessCrashed(calls[i], t);
    }
  }

  /** A real call of the tool did not crash on its scope; only `test_integration_table_transform_steps` can. */
  predicate IsUncrashed(c: Call, t: Tool) {
    c.tool == t && !c.args.dryRun ==> !Crashes(t, c.args.payload)
  }

  lemma PairedUnlessCrashed(c: Call, t: Tool)
    requires LogsRejections(t) && FamilyOf(t) == ConnectorFamily
    ensures IsPaired(c, t) <==> IsUncrashed(c, t)
    ensures t != TestTransformSteps ==> IsUncrashed(c, t)
  {
    if c.tool == t && Crashes(t, c.args.payload) {
      CrashedIsUnresolved(c.args.payload, c.env);
    }
    hide Resolve;
  }

  lemma CrashedIsUnresolved(payload: Option<Fields>, env: Env)
    requires Crashes(TestTransformSteps, payload)
    ensures Resolve(TestTransformSteps, payload, env).None?
  {
    hide HasText;
  }

  lemma SuccessHasReadBack(c: Call, allowed: set<string>)
    requires FamilyOf(c.tool) == ConnectorFamily && IsRecorded(c) && OutcomeFor(c, allowed) == Succeeded
    ensures CallOf(c.tool, c.args, c.env, allowed).returned && ReadBackHolds(c)
  {
    hide FamilyOf, ReadBackHolds, CallOf, Resolve, MayWrite, RecordsRejection;
    ReturnsExactly(c, allowed);
  }

  /**
    In every log, a recorded success of a connector tool is the success of a call that
    returned, and if the tool reads back what it wrote, the last description confirmed it
    or there was nothing to verify.
   */
  lemma SuccessMeansVerified(calls: seq<Call>, allowed: set<string>, schedule: seq<nat>, k: nat)
    requires After(calls, allowed, schedule).Some?
    requires k < |After(calls, allowed, schedule).value.log|
    requires var e := After(calls, allowed, schedule).value.log[k].emission;
      e.Audit? && e.entry.Result? && e.entry.outcome == Succeeded && FamilyOf(e.entry.tool) == ConnectorFamily
    ensures var logged := After(calls, allowed, schedule).value.log[k];
      && logged.call < |calls|
      && var c := calls[logged.call];
         c.tool == logged.emission.entry.tool && CallOf(c.tool, c.args, c.env, allowed).returned && ReadBackHolds(c)
  {
    hide Script, Interleaved, FamilyOf, ReadBackHolds, After, CallOf;
    ReachableIsInterleaved(calls, allowed, schedule);
    var s := After(calls, allowed, schedule).value;
    LoggedIsScripted(calls, allowed, s, k);
    var c := calls[s.log[k].call];
    ScriptIsOwned(c, allowed);
    RecordedOutcome(c, allowed, Succeeded);
    SuccessHasReadBack(c, allowed);
  }
}
