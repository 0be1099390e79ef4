/**
  The writing tools as the server runs them: one object with its audit log, its
  counters and its connection, each tool a method that does to them exactly what
  `GuardedWrites.CallOf` says.
 */
module WriteServer {
  import opened Prelude
  import opened JsonValue
  import opened GuardedWrites
  import opened WriteCalls
  import opened CallRecords
  import CT = ConnectorTransform
  import ConnectorPayload
  import JsonText
  import Observability
  import ReadBack

  class Server {
    const allowed: set<string>
    const audit: Observability.AuditLog<Entry>
    const metrics: Observability.RuntimeMetrics<Counter>
    var trace: seq<Sent>
    ghost var timeline: seq<Emission>

    /** The log, the requests and the counters tell one story. */
    ghost predicate Valid()
      reads this, audit, metrics
    {
      && audit.events == AuditOf(timeline)
      && trace == TraceOf(timeline)
      && Tells(timeline, metrics.toolCalls)
    }

    constructor (allowed: set<string>)
      ensures Valid() && timeline == [] && this.allowed == allowed && fresh(audit) && fresh(metrics)
    {
      this.allowed := allowed;
      audit := new Observability.AuditLog();
      metrics := new Observability.RuntimeMetrics();
      trace := [];
      timeline := [];
    }

    method Record(e: Entry)
      requires Valid()
      modifies this`timeline, audit
      ensures Valid() && timeline == old(timeline) + [Audit(e)]
    {
      OneMore(timeline, Audit(e));
      audit.Record(e);
      timeline := timeline + [Audit(e)];
    }

    method Send(s: Sent)
      requires Valid()
      modifies this`timeline, this`trace
      ensures Valid() && timeline == old(timeline) + [Upstream(s)]
    {
      OneMore(timeline, Upstream(s));
      trace := trace + [s];
      timeline := timeline + [Upstream(s)];
    }

    method Count(t: Tool, ok: bool)
      requires Valid()
      modifies this`timeline, metrics
      ensures Valid() && timeline == old(timeline) + [Counted(t, ok)]
    {
      OneMore(timeline, Counted(t, ok));
      metrics.RecordToolCall((t, ok));
      timeline := timeline + [Counted(t, ok)];
    }

    method SendTimes(s: Sent, n: nat)
      requires Valid()
      modifies this`timeline, this`trace
      ensures Valid() && timeline == old(timeline) + Repeat(Upstream(s), n)
    {
      for i := 0 to n
        invariant Valid() && timeline == old(timeline) + Repeat(Upstream(s), i)
      {
        Send(s);
      }
    }

    /** The schema check's question to the upstream, if it asks. */
    method LookUp(a: CT.Action, p: Fields)
      requires Valid()
      modifies this`timeline, this`trace
      ensures Valid() && timeline == old(timeline) + LookupFor(a, p)
    {
      hide Valid, HasText;
      if CT.Defines(a) && p != map[] && HasText(p, "serviceName") {
        Send(Lookup);
      }
    }

    /** Validation, with the reads that it makes. */
    method Validate(t: Tool, payload: Option<Fields>, env: Env) returns (resolved: Option<Fields>)
      requires Valid()
      modifies this`timeline, this`trace
      ensures Valid() && timeline == old(timeline) + ValidationReads(t, payload)
      ensures resolved == Resolve(t, payload, env)
    {
      hide Valid, ConnectorPayload.Accepts, ConnectorPayload.Compiled, ConnectorPayload.HasName, ResolveFields, LookupFor, ActionOf, FamilyOf;
      var action := ActionOf(t);
      if action.None? {
        return Resolve(t, payload, env);
      }
      var r := ConnectorPayload.RequireConnectorPayload(action.value, payload, env.registry);
      if payload.Some? && payload.value != map[] && ConnectorPayload.HasName(action.value, payload.value) {
        LookUp(action.value, ConnectorPayload.Compiled(action.value, payload.value));
      }
      resolved := if r.Ok? then Some(r.value) else None;
    }

    /** The policy check of `_run_tool`; a denial is recorded. */
    method EnterTool(t: Tool) returns (ok: bool)
      requires Valid()
      modifies this`timeline, audit
      ensures Valid() && ok == (GroupOf(t) in allowed)
      ensures timeline == old(timeline) + (if ok then [] else [Audit(PolicyDenial(t, GroupOf(t)))])
    {
      hide Valid;
      ok := GroupOf(t) in allowed;
      if !ok {
        Record(PolicyDenial(t, GroupOf(t)));
      }
    }

    /** A preview inside `_run_tool`: validation, and the schema once more. */
    method RunPreview(t: Tool, payload: Option<Fields>, env: Env) returns (returned: bool)
      requires Valid() && FamilyOf(t) == ConnectorFamily
      modifies this`timeline, this`trace, audit, metrics
      ensures var part := RunTool(t, allowed, Part(PreviewReads(t, payload, env), true));
        Valid() && timeline == old(timeline) + part.emitted && returned == part.returned
    {
      hide Valid, ConnectorPayload.Accepts, ConnectorPayload.Compiled, ConnectorPayload.HasName, LookupFor, Resolve, GroupOf, FamilyOf, ActionOf;
      var ok := EnterTool(t);
      if !ok {
        return false;
      }
      var resolved := Validate(t, payload, env);
      ResolvedIsAccepted(t, payload, env);
      var action := ActionOf(t);
      if action.Some? {
        if resolved.Some? {
          LookUp(action.value, resolved.value);
        } else if payload.Some? {
          LookUp(action.value, payload.value);
        }
      }
      Count(t, true);
      returned := true;
    }

    /** The write request inside `_run_tool`. */
    method RunWriter(t: Tool, resolved: Fields, env: Env) returns (returned: bool)
      requires Valid()
      modifies this`timeline, this`trace, audit, metrics
      ensures var part := RunTool(t, allowed, Writer(t, resolved, env));
        Valid() && timeline == old(timeline) + part.emitted && returned == part.returned
    {
      hide Valid, PostedPayload, GroupOf;
      var ok := EnterTool(t);
      if !ok {
        return false;
      }
      if t == GuardedWrites.SqlExecute && !env.statementAllowed {
        Count(t, false);
        return false;
      }
      if t == RegisterPackage {
        Send(Describe);
      }
      SendTimes(Write(t, PostedPayload(t, resolved)), env.posts);
      returned := env.answer.WriteReturns?;
      Count(t, returned);
    }

    /** The read-back, if the tool has one. */
    method ReadBackWrite(t: Tool, resolved: Fields, env: Env) returns (returned: bool)
      requires Valid() && ReadBack.IsClock(env.clock, env.start)
      modifies this`timeline, this`trace
      ensures var part := Verification(t, resolved, env);
        Valid() && timeline == old(timeline) + part.emitted && returned == part.returned
    {
      hide Valid, ReadBack.OutcomeOf;
      var target := TargetOf(t);
      if target.None? {
        return true;
      }
      var outcome := ReadBack.VerifyMutation(target.value, resolved, env.replies, env.clock, env.start);
      match outcome {
        case Skip(_) => returned := true;
        case Polled(end, attempts) =>
          SendTimes(Describe, attempts);
          returned := end.Confirmed?;
      }
    }

    /** The writer once, the check of its reply, the read-back, and one result. */
    method ExecuteConnectorWrite(t: Tool, resolved: Fields, env: Env) returns (returned: bool)
      requires Valid() && ReadBack.IsClock(env.clock, env.start)
      modifies this`timeline, this`trace, audit, metrics
      ensures var part := GuardedWrites.ExecuteConnectorWrite(t, resolved, env, allowed);
        Valid() && timeline == old(timeline) + part.emitted && returned == part.returned
    {
      hide Valid, Verification, Writer, CarriesError, Redact;
      WriterReturns(t, resolved, env, allowed);
      returned := RunWriter(t, resolved, env);
      if !returned {
        Record(Result(t, Failed));
        return false;
      }
      if CarriesError(Redact(env.answer.reply)) {
        Record(Result(t, Failed));
        return false;
      }
      returned := ReadBackWrite(t, resolved, env);
      Record(Result(t, if returned then Succeeded else Failed));
    }

    method ExecutePackageWrite(t: Tool, resolved: Fields, env: Env) returns (returned: bool)
      requires Valid()
      modifies this`timeline, this`trace, audit, metrics
      ensures var part := GuardedWrites.ExecutePackageWrite(t, resolved, env, allowed);
        Valid() && timeline == old(timeline) + part.emitted && returned == part.returned
    {
      hide Valid, Writer;
      returned := RunWriter(t, resolved, env);
      Record(Result(t, if returned then Succeeded else Failed));
    }

    /** A rejected call, as the tools that record it do. */
    method Reject(t: Tool, payload: Option<Fields>)
      requires Valid()
      modifies this`timeline, audit
      ensures Valid() && timeline == old(timeline) + RejectionOf(t, payload).emitted
    {
      hide Valid, LogsRejections, Crashes;
      if RecordsRejection(t, payload) {
        Record(Result(t, Rejected));
      }
    }

    /** What a call has added to the log, the connection and the counters, from what it has added to the timeline. */
    twostate lemma CallIsTold(c: Call)
      requires old(Valid()) && Valid()
      requires timeline == old(timeline) + CallOf(c.tool, c.args, c.env, allowed).emitted
      ensures audit.events == old(audit.events) + AuditOf(Script(c, allowed))
      ensures old(trace) <= trace && SendsOnlyItsWrite(c, allowed, trace[|old(trace)|..])
      ensures CountsOnce(c, allowed, old(metrics.toolCalls), metrics.toolCalls)
      ensures !c.args.dryRun ==> (CallOf(c.tool, c.args, c.env, allowed).returned <==> Completes(c, allowed))
    {
      hide AuditOf, TraceOf, Tells, SendsOnlyItsWrite, CountsOnce, CallOf, Completes;
      var emitted := Script(c, allowed);
      assert emitted == CallOf(c.tool, c.args, c.env, allowed).emitted;
      SeenInParts(old(timeline), emitted);
      RequestsAreSeen(c, allowed);
      CallIsCounted(c, allowed, old(timeline), old(metrics.toolCalls), metrics.toolCalls);
      if !c.args.dryRun { ReturnsExactly(c, allowed); }
    }

    /** `create_input` and the other connector, table and topic tools. */
    method ConnectorTool(t: Tool, args: Args, env: Env) returns (returned: bool)
      requires Valid() && FamilyOf(t) == ConnectorFamily && ReadBack.IsClock(env.clock, env.start)
      modifies this`timeline, this`trace, audit, metrics
      ensures var part := CallOf(t, args, env, allowed);
        Valid() && timeline == old(timeline) + part.emitted && returned == part.returned
      ensures old(audit.events) <= audit.events
      ensures var c, records := Call(t, args, env), audit.events[|old(audit.events)|..];
        AttemptFirst(c, records) && TellsOutcome(c, records, returned)
      ensures old(trace) <= trace && SendsOnlyItsWrite(Call(t, args, env), allowed, trace[|old(trace)|..])
      ensures CountsOnce(Call(t, args, env), allowed, old(metrics.toolCalls), metrics.toolCalls)
      ensures !args.dryRun ==> (returned <==> Completes(Call(t, args, env), allowed))
    {
      hide Valid, CallOf, PreviewReads, ValidationReads, Resolve, GuardedWrites.ExecuteConnectorWrite, RejectionOf, GroupOf, FamilyOf;
      hide AuditOf, TraceOf, Completes, AttemptFirst, TellsOutcome, SendsOnlyItsWrite, CountsOnce;
      CallOfConnector(t, args, env, allowed);
      Record(Attempt(t, args.dryRun, args.confirm));
      if args.dryRun {
        returned := RunPreview(t, args.payload, env);
      } else {
        var resolved := Validate(t, args.payload, env);
        if resolved.None? || !args.confirm {
          Reject(t, args.payload);
          returned := false;
        } else {
          returned := ExecuteConnectorWrite(t, resolved.value, env);
        }
      }
      CallIsTold(Call(t, args, env));
      ConnectorIsSeen(Call(t, args, env), allowed);
    }

    method ManageService(args: Args, env: Env) returns (returned: bool)
      requires Valid()
      modifies this`timeline, this`trace, audit, metrics
      ensures var part := CallOf(GuardedWrites.ManageService, args, env, allowed);
        Valid() && timeline == old(timeline) + part.emitted && returned == part.returned
      ensures audit.events == old(audit.events) + Denial(Call(GuardedWrites.ManageService, args, env), allowed)
      ensures old(trace) <= trace && SendsOnlyItsWrite(Call(GuardedWrites.ManageService, args, env), allowed, trace[|old(trace)|..])
      ensures CountsOnce(Call(GuardedWrites.ManageService, args, env), allowed, old(metrics.toolCalls), metrics.toolCalls)
      ensures !args.dryRun ==> (returned <==> Completes(Call(GuardedWrites.ManageService, args, env), allowed))
    {
      hide Valid, CallOf, Writer, RunTool, Resolve, AuditOf, TraceOf, Denial, Completes, AttemptFirst, TellsOutcome, SendsOnlyItsWrite, CountsOnce;
      var t := GuardedWrites.ManageService;
      CallOfService(args, env, allowed);
      var resolved := Validate(t, args.payload, env);
      if resolved.None? {
        returned := false;
      } else if args.dryRun {
        returned := true;
      } else if !args.confirm {
        returned := false;
      } else {
        returned := RunWriter(t, resolved.value, env);
      }
      CallIsTold(Call(t, args, env));
      ServiceIsSeen(Call(t, args, env), allowed);
    }

    /** A dry run of a statement asks the SQL policy and nobody else. */
    method RunSqlPreview(t: Tool, env: Env) returns (returned: bool)
      requires Valid()
      modifies this`timeline, audit, metrics
      ensures var part := RunTool(t, allowed, Part([], env.statementAllowed));
        Valid() && timeline == old(timeline) + part.emitted && returned == part.returned
    {
      hide Valid, GroupOf;
      var ok := EnterTool(t);
      if !ok {
        return false;
      }
      Count(t, env.statementAllowed);
      returned := env.statementAllowed;
    }

    method SqlExecute(args: Args, env: Env) returns (returned: bool)
      requires Valid()
      modifies this`timeline, this`trace, audit, metrics
      ensures var part := CallOf(GuardedWrites.SqlExecute, args, env, allowed);
        Valid() && timeline == old(timeline) + part.emitted && returned == part.returned
      ensures audit.events == old(audit.events) +
        if Resolve(GuardedWrites.SqlExecute, args.payload, env).None? then []
        else [Attempt(GuardedWrites.SqlExecute, args.dryRun, args.confirm)] + Denial(Call(GuardedWrites.SqlExecute, args, env), allowed)
      ensures old(trace) <= trace && SendsOnlyItsWrite(Call(GuardedWrites.SqlExecute, args, env), allowed, trace[|old(trace)|..])
      ensures CountsOnce(Call(GuardedWrites.SqlExecute, args, env), allowed, old(metrics.toolCalls), metrics.toolCalls)
      ensures !args.dryRun ==> (returned <==> Completes(Call(GuardedWrites.SqlExecute, args, env), allowed))
    {
      hide Valid, CallOf, Writer, RunTool, Resolve, AuditOf, TraceOf, Denial, Completes, AttemptFirst, TellsOutcome, SendsOnlyItsWrite, CountsOnce;
      var t := GuardedWrites.SqlExecute;
      CallOfSql(args, env, allowed);
      var resolved := Validate(t, args.payload, env);
      if resolved.None? {
        returned := false;
      } else {
        Record(Attempt(t, args.dryRun, args.confirm));
        if args.dryRun {
          returned := RunSqlPreview(t, env);
        } else if !args.confirm {
          returned := false;
        } else {
          returned := RunWriter(t, resolved.value, env);
        }
      }
      CallIsTold(Call(t, args, env));
      SqlIsSeen(Call(t, args, env), allowed);
    }

    /** `register_code_package`, `clone_code_package` and `revert_code_package`. */
    method PackageTool(t: Tool, args: Args, env: Env) returns (returned: bool)
      requires Valid() && FamilyOf(t) == PackageFamily
      modifies this`timeline, this`trace, audit, metrics
      ensures var part := CallOf(t, args, env, allowed);
        Valid() && timeline == old(timeline) + part.emitted && returned == part.returned
      ensures old(audit.events) <= audit.events
      ensures var c, records := Call(t, args, env), audit.events[|old(audit.events)|..];
        AttemptFirst(c, records) && TellsOutcome(c, records, returned)
      ensures old(trace) <= trace && SendsOnlyItsWrite(Call(t, args, env), allowed, trace[|old(trace)|..])
      ensures CountsOnce(Call(t, args, env), allowed, old(metrics.toolCalls), metrics.toolCalls)
      ensures !args.dryRun ==> (returned <==> Completes(Call(t, args, env), allowed))
    {
      hide Valid, CallOf, Resolve, GuardedWrites.ExecutePackageWrite, RejectionOf, ValidationReads, FamilyOf;
      hide AuditOf, TraceOf, Completes, AttemptFirst, TellsOutcome, SendsOnlyItsWrite, CountsOnce;
      PackageReads(t, args, env, allowed);
      Record(Attempt(t, args.dryRun, args.confirm));
      if args.dryRun && t != RegisterPackage {
        returned := true;
      } else {
        var resolved := Validate(t, args.payload, env);
        if resolved.None? {
          Reject(t, args.payload);
          returned := false;
        } else if args.dryRun {
          Record(Result(t, Previewed));
          returned := true;
        } else if !args.confirm {
          Reject(t, args.payload);
          returned := false;
        } else {
          returned := ExecutePackageWrite(t, resolved.value, env);
        }
      }
      CallIsTold(Call(t, args, env));
      PackageIsSeen(Call(t, args, env), allowed);
    }
  }

  lemma ResolvedIsAccepted(t: Tool, payload: Option<Fields>, env: Env)
    ensures ActionOf(t).Some? ==>
      (Resolve(t, payload, env).Some? <==> ConnectorPayload.Accepts(ActionOf(t).value, payload, env.registry))
    ensures ActionOf(t).Some? && Resolve(t, payload, env).Some? ==>
      payload.Some? && Resolve(t, payload, env).value == ConnectorPayload.Compiled(ActionOf(t).value, payload.value)
  {
    hide ConnectorPayload.Compiled, ConnectorPayload.Accepts, ResolveFields, FamilyOf, ActionOf;
    if ActionOf(t).Some? && Resolve(t, payload, env).Some? {
      ConnectorPayload.AcceptedIsGiven(ActionOf(t).value, payload, env.registry);
    }
  }

  lemma CallOfConnector(t: Tool, args: Args, env: Env, allowed: set<string>)
    requires FamilyOf(t) == ConnectorFamily
    ensures CallOf(t, args, env, allowed) == ConnectorCall(t, args, env, allowed)
    ensures !RejectionOf(t, args.payload).returned
  {
    hide ConnectorCall;
  }

  lemma CallOfService(args: Args, env: Env, allowed: set<string>)
    ensures CallOf(ManageService, args, env, allowed) == ServiceCall(ManageService, args, env, allowed)
    ensures ValidationReads(ManageService, args.payload) == []
  {
    hide ServiceCall;
  }

  lemma CallOfSql(args: Args, env: Env, allowed: set<string>)
    ensures CallOf(SqlExecute, args, env, allowed) == SqlCall(SqlExecute, args, env, allowed)
    ensures ValidationReads(SqlExecute, args.payload) == []
  {
    hide SqlCall;
  }

  lemma PackageReads(t: Tool, args: Args, env: Env, allowed: set<string>)
    requires FamilyOf(t) == PackageFamily
    ensures CallOf(t, args, env, allowed) == PackageCall(t, args, env, allowed)
    ensures ValidationReads(t, args.payload) == [] && !RejectionOf(t, args.payload).returned
  {
    hide PackageCall;
    CallOfPackage(t, args, env, allowed);
  }
}
