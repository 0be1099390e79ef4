/** How often a call reads: the questions about the registered services, and the descriptions. */
module CallReads {
  import opened Prelude
  import opened JsonValue
  import opened GuardedWrites
  import opened WriteCalls
  import CT = ConnectorTransform
  import CompiledFields
  import ConnectorPayload
  import ReadBack

  predicate IsDescribe(e: Emission) { e.Upstream? && e.sent.Describe? }
  predicate IsLookup(e: Emission) { e.Upstream? && e.sent.Lookup? }

  lemma {:induction false} RepeatCountOf(e: Emission, n: nat, p: Emission -> bool)
    ensures CountIf(Repeat(e, n), p) == if p(e) then n else 0
  {
    if n > 0 {
      RepeatCountOf(e, n - 1, p);
      assert Repeat(e, n)[..n - 1] == Repeat(e, n - 1);
    }
  }

  // -------------------------------------------------------------------------- lookups

  /** The payload of a connector definition that names a service. */
  predicate NamesService(c: Call) {
    && ActionOf(c.tool).Some? && CT.Defines(ActionOf(c.tool).value)
    && c.args.payload.Some? && IsText(Field(c.args.payload.value, "serviceName"))
  }

  predicate NamesConnector(c: Call)
    requires ActionOf(c.tool).Some? && c.args.payload.Some?
  {
    var p, a := c.args.payload.value, ActionOf(c.tool).value;
    || IsText(Field(p, "connectorName"))
    || (CT.IsInputAction(a) && IsText(Field(p, "inputName")))
    || (CT.IsOutputAction(a) && IsText(Field(p, "outputName")))
  }

  lemma LookupCount(a: CT.Action, p: Fields)
    ensures CountIf(LookupFor(a, p), IsLookup) == if CT.Defines(a) && IsText(Field(p, "serviceName")) then 1 else 0
  {
    CT.NullIsNoText();
    hide IsText, CountIf;
    CountIfOne([Upstream(Lookup)], IsLookup);
    CountIfNone([], IsLookup);
  }

  /** Compilation keeps the service. */
  lemma ServiceIsCompiled(a: CT.Action, p: Fields)
    requires ConnectorPayload.HasName(a, p)
    ensures Field(ConnectorPayload.Compiled(a, p), "serviceName") == Field(p, "serviceName")
  {
    assert CT.StaysAtTop("serviceName") && !CT.IsIdentityKey("serviceName");
    hide ConnectorPayload.HasName, ConnectorPayload.Compiled, CT.Rewrite, CT.StaysAtTop, CT.IsIdentityKey, CompiledFields.PayloadFits;
    var q := CompiledFields.CompiledFits(a, p);
    CompiledFields.FitsKeeps(a, p, q, "serviceName");
    if CT.IsOutputAction(a) { TopIsRewritten(a, q, "serviceName"); }
  }

  /** The rewrite of an output leaves what stays at the top. */
  lemma TopIsRewritten(a: CT.Action, q: Fields, key: string)
    requires CT.IsOutputAction(a) && key != "settings" && !CT.IsIdentityKey(key) && CT.StaysAtTop(key)
    ensures Field(CT.Rewrite(a, q), key) == Field(q, key)
  {
    hide CT.Rewrite, CT.StaysAtTop, CT.IsSettingsKey, CT.Nests, CT.SettingsOf, CT.SettingsValue;
    if CT.Nests(a, q) { CT.NestingConserves(a, q, key); } else { CT.UnnestedConserves(a, q, key); }
  }

  lemma NamedExactly(c: Call)
    requires ActionOf(c.tool).Some? && c.args.payload.Some?
    ensures ConnectorPayload.HasName(ActionOf(c.tool).value, c.args.payload.value) <==> NamesConnector(c)
    ensures NamesConnector(c) ==> c.args.payload.value != map[]
  {
    CT.NullIsNoText();
    hide ActionOf;
  }

  lemma ValidationCount(c: Call)
    ensures CountIf(ValidationReads(c.tool, c.args.payload), IsLookup) == if NamesService(c) && NamesConnector(c) then 1 else 0
  {
    hide CountIf, ActionOf, LookupFor, ConnectorPayload.Compiled, ConnectorPayload.HasName, IsText;
    CountIfNone([], IsLookup);
    if ActionOf(c.tool).Some? && c.args.payload.Some? {
      var a, p := ActionOf(c.tool).value, c.args.payload.value;
      NamedExactly(c);
      if ConnectorPayload.HasName(a, p) {
        ServiceIsCompiled(a, p);
        LookupCount(a, ConnectorPayload.Compiled(a, p));
      }
    }
  }

  lemma PreviewCount(c: Call)
    ensures CountIf(PreviewReads(c.tool, c.args.payload, c.env), IsLookup) ==
      if NamesService(c) then (if NamesConnector(c) then 2 else 1) else 0
  {
    hide CountIf, ActionOf, LookupFor, ValidationReads, ConnectorPayload.Compiled, ConnectorPayload.HasName, ConnectorPayload.Accepts, IsText;
    CountIfNone([], IsLookup);
    ValidationCount(c);
    if ActionOf(c.tool).Some? {
      var a := ActionOf(c.tool).value;
      var looked := ValidationReads(c.tool, c.args.payload);
      if c.args.payload.Some? {
        var p := c.args.payload.value;
        LookupCount(a, p);
        CountIfAppend(looked, LookupFor(a, p), IsLookup);
        AcceptedHasName(a, p, c.env.registry);
        if ConnectorPayload.HasName(a, p) {
          ServiceIsCompiled(a, p);
          LookupCount(a, ConnectorPayload.Compiled(a, p));
          CountIfAppend(looked, LookupFor(a, ConnectorPayload.Compiled(a, p)), IsLookup);
        }
      } else {
        NothingIsAccepted(a, c.env.registry);
        CountIfAppend(looked, [], IsLookup);
      }
    }
  }

  lemma AcceptedHasName(a: CT.Action, p: Fields, registry: set<string>)
    ensures ConnectorPayload.Accepts(a, Some(p), registry) ==> ConnectorPayload.HasName(a, p)
  {
    hide ConnectorPayload.Compiled;
  }

  lemma NothingIsAccepted(a: CT.Action, registry: set<string>)
    ensures !ConnectorPayload.Accepts(a, None, registry)
  {
  }

  /** Neither lookups nor descriptions. */
  predicate ReadsNothing(emitted: seq<Emission>) {
    forall e :: e in emitted ==> !IsLookup(e) && !IsDescribe(e)
  }

  lemma NothingReadCounts(emitted: seq<Emission>)
    requires ReadsNothing(emitted)
    ensures CountIf(emitted, IsLookup) == 0 && CountIf(emitted, IsDescribe) == 0
  {
    CountIfNone(emitted, IsLookup);
    CountIfNone(emitted, IsDescribe);
  }

  lemma RecordsReadNothing(t: Tool, args: Args, outcome: Outcome)
    ensures ReadsNothing([]) && ReadsNothing(AttemptOf(t, args)) && ReadsNothing([Audit(Result(t, outcome))])
    ensures ReadsNothing(RejectionOf(t, args.payload).emitted)
  {
    hide RecordsRejection;
  }

  /** The policy and the count around a tool read nothing. */
  lemma RunReads(t: Tool, allowed: set<string>, inner: Part)
    ensures var run := RunTool(t, allowed, inner).emitted;
      && CountIf(run, IsLookup) == (if GroupOf(t) in allowed then CountIf(inner.emitted, IsLookup) else 0)
      && CountIf(run, IsDescribe) == (if GroupOf(t) in allowed then CountIf(inner.emitted, IsDescribe) else 0)
  {
    hide CountIf, GroupOf;
    var denied, counted := [Audit(PolicyDenial(t, GroupOf(t)))], [Counted(t, inner.returned)];
    NothingReadCounts(denied);
    NothingReadCounts(counted);
    CountIfAppend(inner.emitted, counted, IsLookup);
    CountIfAppend(inner.emitted, counted, IsDescribe);
  }

  lemma WriterReads(t: Tool, resolved: Fields, env: Env)
    ensures CountIf(Writer(t, resolved, env).emitted, IsLookup) == 0
    ensures CountIf(Writer(t, resolved, env).emitted, IsDescribe) == if t == RegisterPackage then 1 else 0
  {
    hide CountIf, PostedPayload;
    var before := if t == RegisterPackage then [Upstream(Describe)] else [];
    var write := Upstream(Write(t, PostedPayload(t, resolved)));
    var posts := Repeat(write, env.posts);
    NothingReadCounts([]);
    CountIfOne([Upstream(Describe)], IsDescribe);
    CountIfOne([Upstream(Describe)], IsLookup);
    RepeatCountOf(write, env.posts, IsLookup);
    RepeatCountOf(write, env.posts, IsDescribe);
    CountIfAppend(before, posts, IsLookup);
    CountIfAppend(before, posts, IsDescribe);
  }

  /** Three tools read back what they wrote. */
  lemma ReadBackToolsExactly(t: Tool)
    ensures TargetOf(t) == Some(ReadBack.InputTarget) <==> t == AlterInput
    ensures TargetOf(t) == Some(ReadBack.TableTarget) <==> t == AlterTable
    ensures TargetOf(t) == Some(ReadBack.TopicTarget) <==> t == ConfigureTopic
  {
  }

  /** How often the read-back of a tool polls. */
  function PollsOf(t: Tool, resolved: Fields, env: Env): nat {
    match TargetOf(t)
    case None => 0
    case Some(target) =>
      match ReadBack.OutcomeOf(target, resolved, env.replies, env.clock, env.start)
      case Skip(_) => 0
      case Polled(_, attempts) => attempts
  }

  lemma VerificationCount(t: Tool, resolved: Fields, env: Env)
    ensures CountIf(Verification(t, resolved, env).emitted, IsLookup) == 0
    ensures CountIf(Verification(t, resolved, env).emitted, IsDescribe) == PollsOf(t, resolved, env)
  {
    hide CountIf, ReadBack.OutcomeOf;
    NothingReadCounts([]);
    RepeatCountOf(Upstream(Describe), PollsOf(t, resolved, env), IsDescribe);
    RepeatCountOf(Upstream(Describe), PollsOf(t, resolved, env), IsLookup);
  }

  /** The write returned and its reply shows no error, so the read-back begins. */
  predicate IsReadBack(c: Call, allowed: set<string>) {
    && FamilyOf(c.tool) == ConnectorFamily
    && MayWrite(c, allowed) && c.env.answer.WriteReturns? && !CarriesError(Redact(c.env.answer.reply))
  }

  lemma ExecutionReads(t: Tool, resolved: Fields, env: Env, allowed: set<string>)
    requires t != SqlExecute && t != RegisterPackage
    ensures var emitted := ExecuteConnectorWrite(t, resolved, env, allowed).emitted;
      && CountIf(emitted, IsLookup) == 0
      && CountIf(emitted, IsDescribe) ==
           if GroupOf(t) in allowed && env.answer.WriteReturns? && !CarriesError(Redact(env.answer.reply)) then PollsOf(t, resolved, env) else 0
  {
    hide CountIf, RunTool, Writer, Verification, CarriesError, Redact, GroupOf, PollsOf;
    var writer, read := RunTool(t, allowed, Writer(t, resolved, env)), Verification(t, resolved, env).emitted;
    WriterReturnsExactly(t, resolved, env, allowed);
    RunReads(t, allowed, Writer(t, resolved, env));
    WriterReads(t, resolved, env);
    VerificationCount(t, resolved, env);
    forall outcome
      ensures CountIf(writer.emitted + [Audit(Result(t, outcome))], IsLookup) == CountIf(writer.emitted, IsLookup)
      ensures CountIf(writer.emitted + [Audit(Result(t, outcome))], IsDescribe) == CountIf(writer.emitted, IsDescribe)
      ensures CountIf(writer.emitted + read + [Audit(Result(t, outcome))], IsLookup) == CountIf(writer.emitted, IsLookup) + CountIf(read, IsLookup)
      ensures CountIf(writer.emitted + read + [Audit(Result(t, outcome))], IsDescribe) == CountIf(writer.emitted, IsDescribe) + CountIf(read, IsDescribe)
    {
      RecordsReadNothing(t, Args(None, false, false), outcome);
      NothingReadCounts([Audit(Result(t, outcome))]);
      CountIfAppend(writer.emitted, [Audit(Result(t, outcome))], IsLookup);
      CountIfAppend(writer.emitted, [Audit(Result(t, outcome))], IsDescribe);
      CountsOfThree(writer.emitted, read, [Audit(Result(t, outcome))], IsLookup);
      CountsOfThree(writer.emitted, read, [Audit(Result(t, outcome))], IsDescribe);
    }
  }

  /** The questions about the registered services. */
  function LookupsOf(c: Call, allowed: set<string>): nat {
    if !NamesService(c) then 0
    else if !c.args.dryRun then (if NamesConnector(c) then 1 else 0)
    else if GroupOf(c.tool) !in allowed then 0
    else if NamesConnector(c) then 2 else 1
  }

  /** The descriptions: of the package before it is registered, and those of the read-back. */
  function DescribesOf(c: Call, allowed: set<string>): nat {
    if c.tool == RegisterPackage then (if MayWrite(c, allowed) then 1 else 0)
    else if IsReadBack(c, allowed) then PollsOf(c.tool, Resolve(c.tool, c.args.payload, c.env).value, c.env)
    else 0
  }

  ghost predicate ReadsFit(c: Call, allowed: set<string>, emitted: seq<Emission>) {
    CountIf(emitted, IsLookup) == LookupsOf(c, allowed) && CountIf(emitted, IsDescribe) == DescribesOf(c, allowed)
  }

  lemma OnlyLookupsDescribe(emitted: seq<Emission>)
    requires OnlyLookups(emitted)
    ensures CountIf(emitted, IsDescribe) == 0
  {
    CountIfNone(emitted, IsDescribe);
  }

  lemma ConnectorReads(c: Call, allowed: set<string>)
    requires FamilyOf(c.tool) == ConnectorFamily
    ensures ReadsFit(c, allowed, ConnectorCall(c.tool, c.args, c.env, allowed).emitted)
  {
    hide CountIf, Resolve, RunTool, ExecuteConnectorWrite, ValidationReads, PreviewReads, GroupOf, AttemptOf, RejectionOf, FamilyOf, PollsOf, NamesService, NamesConnector, CarriesError, Redact, OnlyLookups;
    var resolved := Resolve(c.tool, c.args.payload, c.env);
    var some := if resolved.Some? then resolved.value else map[];
    var first, looked := AttemptOf(c.tool, c.args), ValidationReads(c.tool, c.args.payload);
    ConnectorIsNoOther(c.tool);
    RecordsReadNothing(c.tool, c.args, Rejected);
    NothingReadCounts(first);
    ReadsOnlyLookUp(c.tool, c.args.payload, c.env);
    ValidationCount(c);
    OnlyLookupsDescribe(looked);
    var rest: seq<Emission>;
    if c.args.dryRun {
      var inner := Part(PreviewReads(c.tool, c.args.payload, c.env), true);
      PreviewCount(c);
      OnlyLookupsDescribe(inner.emitted);
      RunReads(c.tool, allowed, inner);
      rest := RunTool(c.tool, allowed, inner).emitted;
    } else {
      var last := if resolved.None? || !c.args.confirm then RejectionOf(c.tool, c.args.payload) else ExecuteConnectorWrite(c.tool, some, c.env, allowed);
      NothingReadCounts(RejectionOf(c.tool, c.args.payload).emitted);
      ExecutionReads(c.tool, some, c.env, allowed);
      CountIfAppend(looked, last.emitted, IsLookup);
      CountIfAppend(looked, last.emitted, IsDescribe);
      rest := looked + last.emitted;
    }
    CountIfAppend(first, rest, IsLookup);
    CountIfAppend(first, rest, IsDescribe);
  }

  lemma ConnectorIsNoOther(t: Tool)
    requires FamilyOf(t) == ConnectorFamily
    ensures t != SqlExecute && t != RegisterPackage && t != ManageService
  {
  }

  lemma OthersRead(c: Call, allowed: set<string>)
    requires FamilyOf(c.tool) != ConnectorFamily
    ensures ReadsFit(c, allowed, Script(c, allowed))
  {
    hide CountIf, Script, Resolve, RunTool, Writer, GroupOf;
    if IsMeant(c) {
      var resolved := Resolve(c.tool, c.args.payload, c.env).value;
      var run := RunTool(c.tool, allowed, Writer(c.tool, resolved, c.env)).emitted;
      var before, after := OtherShape(c, allowed);
      NothingReadCounts(before);
      NothingReadCounts(after);
      CountsOfThree(before, run, after, IsLookup);
      CountsOfThree(before, run, after, IsDescribe);
      RunReads(c.tool, allowed, Writer(c.tool, resolved, c.env));
      WriterReads(c.tool, resolved, c.env);
    } else {
      OtherPreviewReadsNothing(c, allowed);
      NothingReadCounts(Script(c, allowed));
    }
  }

  lemma OtherShape(c: Call, allowed: set<string>) returns (before: seq<Emission>, after: seq<Emission>)
    requires FamilyOf(c.tool) != ConnectorFamily && IsMeant(c)
    ensures Script(c, allowed) ==
      before + RunTool(c.tool, allowed, Writer(c.tool, Resolve(c.tool, c.args.payload, c.env).value, c.env)).emitted + after
    ensures ReadsNothing(before) && ReadsNothing(after)
  {
    hide Resolve, Writer, RunTool, RejectionOf;
    var run := RunTool(c.tool, allowed, Writer(c.tool, Resolve(c.tool, c.args.payload, c.env).value, c.env));
    var first := AttemptOf(c.tool, c.args);
    before, after := if c.tool == ManageService then [] else first, [];
    if FamilyOf(c.tool) == PackageFamily {
      after := [Audit(Result(c.tool, if run.returned then Succeeded else Failed))];
      assert first + (run.emitted + after) == first + run.emitted + after;
    }
    assert before + run.emitted + [] == before + run.emitted;
    assert [] + run.emitted == run.emitted;
  }

  lemma OtherPreviewReadsNothing(c: Call, allowed: set<string>)
    requires FamilyOf(c.tool) != ConnectorFamily && !IsMeant(c)
    ensures ReadsNothing(Script(c, allowed))
  {
    hide Resolve, Writer, RecordsRejection, GroupOf, ExecutePackageWrite;
  }

  /**
    How often a call reads.  A connector definition that names a service asks for the registered
    ones once when it validates, and once more for a preview; `register_code_package` describes the
    package before its write; and the tools with a read-back describe as often as that polls.
   */
  lemma ReadsExactly(c: Call, allowed: set<string>)
    ensures CountIf(Script(c, allowed), IsLookup) == LookupsOf(c, allowed)
    ensures CountIf(Script(c, allowed), IsDescribe) == DescribesOf(c, allowed)
  {
    hide ConnectorCall, ServiceCall, SqlCall, PackageCall, FamilyOf, CountIf, LookupsOf, DescribesOf;
    if FamilyOf(c.tool) == ConnectorFamily {
      ConnectorReads(c, allowed);
    } else {
      OthersRead(c, allowed);
    }
  }
}
