/**
  What the writing tools post, in terms of the fields that they are given, and when
  they may post it.
 */
module PostedPayloads {
  import opened Prelude
  import opened PyText
  import opened JsonValue
  import opened GuardedWrites
  import opened WriteCalls
  import opened CompiledFields
  import CT = ConnectorTransform
  import ConnectorPayload

  // ----------------------------------------------------------------------- the group

  /** The policy allows the group of the tool. */
  predicate IsPermitted(t: Tool, allowed: set<string>) {
    match t
    case ManageService => "admin" in allowed
    case SqlExecute => "write" in allowed
    case RegisterPackage => "write" in allowed
    case ClonePackage => "write" in allowed
    case RevertPackage => "write" in allowed
    case _ => "connector" in allowed
  }

  /** The group that is looked up, and that a denial names. */
  lemma PermittedExactly(t: Tool, allowed: set<string>)
    ensures IsPermitted(t, allowed) <==> GroupOf(t) in allowed
    ensures IsPermitted(t, {GroupOf(t)}) && GroupOf(t) in {"admin", "write", "connector"}
  {
  }

  /**
    The tools that record a rejected call as a result; the transform test does not when its
    table is named and its scope is a list or an object.
   */
  lemma RejectionIsRecordedExactly(t: Tool, payload: Option<Fields>)
    ensures RecordsRejection(t, payload) <==>
      && t in {CreateInput, AlterInput, CreateTable, AlterTable, DeleteTables, TestTransformSteps, ConfigureTopic, DeleteTopic, RegisterPackage}
      && !(t == TestTransformSteps && payload.Some? && IsText(Field(payload.value, "tableName"))
             && (Field(payload.value, "testTransformScope").Arr? || Field(payload.value, "testTransformScope").Obj?))
  {
    hide IsText;
  }

  // --------------------------------------------------------------- what may be posted

  /** A service, one of the five commands in any case and with any space around it, and nothing else. */
  predicate IsServiceRequest(p: Fields) {
    && IsText(Field(p, "serviceName"))
    && (forall key :: key in p ==> key == "serviceName" || key == "command")
    && Field(p, "command").Str?
    && Lower(Strip(Field(p, "command").s)) in {"pause", "resume", "restart", "shutdown", "startup"}
  }

  /** A list of table names with a text in it. */
  ghost predicate NamesTables(p: Fields) {
    Field(p, "tableNames").Arr? && exists v :: v in Field(p, "tableNames").items && IsText(v)
  }

  /** The payload is one that the tool works with; SQL and packages are checked elsewhere. */
  ghost predicate IsGood(c: Call) {
    match c.tool
    case ManageService => c.args.payload.Some? && IsServiceRequest(c.args.payload.value)
    case DeleteTables => c.args.payload.Some? && NamesTables(c.args.payload.value)
    case CreateTable => c.args.payload.Some? && IsText(Field(c.args.payload.value, "tableName"))
    case AlterTable => c.args.payload.Some? && IsText(Field(c.args.payload.value, "tableName"))
    case TestTransformSteps =>
      && c.args.payload.Some? && IsText(Field(c.args.payload.value, "tableName"))
      && exists scope :: Field(c.args.payload.value, "testTransformScope") == Str(scope)
           && scope in {"allRecords", "stop", "firstRecord", "lastRecord", "specificRecords"}
    case ConfigureTopic =>
      && c.args.payload.Some?
      && IsText(Field(c.args.payload.value, "topic")) && IsText(Field(c.args.payload.value, "tableName"))
      && IsText(Field(c.args.payload.value, "databaseName"))
    case DeleteTopic => c.args.payload.Some? && IsText(Field(c.args.payload.value, "topic"))
    case CreateInput => ConnectorPayload.Accepts(CT.CreateInput, c.args.payload, c.env.registry)
    case AlterInput => ConnectorPayload.Accepts(CT.AlterInput, c.args.payload, c.env.registry)
    case DeleteInput => ConnectorPayload.Accepts(CT.DeleteInput, c.args.payload, c.env.registry)
    case CreateOutput => ConnectorPayload.Accepts(CT.CreateOutput, c.args.payload, c.env.registry)
    case AlterOutput => ConnectorPayload.Accepts(CT.AlterOutput, c.args.payload, c.env.registry)
    case DeleteOutput => false
    case SqlExecute => c.env.wellFormed && c.env.statementAllowed
    case _ => c.env.wellFormed
  }

  lemma ServiceIsGood(p: Fields)
    ensures ServicePayload(p).Some? <==> IsServiceRequest(p)
    ensures IsServiceRequest(p) ==>
      var r := ServicePayload(p).value;
      && (forall key :: key in r <==> key == "serviceName" || key == "command")
      && r["serviceName"] == Str(Strip(Field(p, "serviceName").s))
      && r["command"] == Str(Lower(Strip(Field(p, "command").s)))
  {
    hide Strip, Lower;
    assert (forall key :: key in p ==> key == "serviceName" || key == "command") <==> p.Keys <= {"serviceName", "command"};
    if Field(p, "command").Str? && Lower(Strip(Field(p, "command").s)) in {"pause", "resume", "restart", "shutdown", "startup"} {
      CommandIsText(Field(p, "command").s);
    }
  }

  /** A command is no blank. */
  lemma CommandIsText(s: string)
    requires Lower(Strip(s)) in {"pause", "resume", "restart", "shutdown", "startup"}
    ensures Strip(s) != ""
  {
    hide Strip;
    assert |Lower(Strip(s))| == |Strip(s)|;
  }

  lemma TablesAreNamed(p: Fields)
    ensures HasTableNames(p) <==> NamesTables(p)
  {
    hide IsText;
    if NamesTables(p) {
      var items := Field(p, "tableNames").items;
      var v :| v in items && IsText(v);
      var i :| 0 <= i < |items| && items[i] == v;
    }
  }

  lemma EmptyIsNotGood(t: Tool)
    ensures !IsServiceRequest(map[]) && !NamesTables(map[]) && !IsText(Field(map[], "tableName")) && !IsText(Field(map[], "topic"))
  {
    CT.NullIsNoText();
    hide IsText;
  }

  lemma FieldsAreGood(c: Call)
    requires FamilyOf(c.tool) == ConnectorFamily && ActionOf(c.tool).None? && c.args.payload.Some?
    ensures ResolveFields(c.tool, c.args.payload.value).Some? <==> IsGood(c)
    ensures IsGood(c) ==> ResolveFields(c.tool, c.args.payload.value) == Some(c.args.payload.value)
  {
    hide IsText, HasTableNames, NamesTables;
    TablesAreNamed(c.args.payload.value);
  }

  /** The payload passes exactly when it is good; SQL must also pass its policy before it is written. */
  lemma ResolvedExactly(c: Call)
    ensures Resolve(c.tool, c.args.payload, c.env).Some? && (c.tool == SqlExecute ==> c.env.statementAllowed) <==> IsGood(c)
  {
    hide Resolve, IsGood, ActionOf, FamilyOf;
    if ActionOf(c.tool).Some? {
      ConnectorResolves(c);
    } else if c.tool == ManageService {
      ServiceResolves(c);
    } else if FamilyOf(c.tool) == ConnectorFamily {
      FieldsResolve(c);
    } else {
      OtherResolves(c);
    }
  }

  lemma ConnectorResolves(c: Call)
    requires ActionOf(c.tool).Some?
    ensures Resolve(c.tool, c.args.payload, c.env).Some? <==> IsGood(c)
    ensures c.tool != SqlExecute && c.tool != ManageService
  {
    hide ConnectorPayload.Accepts, ConnectorPayload.Compiled;
    if c.tool == DeleteOutput { ConnectorPayload.DeleteOutputIsRejected(c.args.payload, c.env.registry); }
  }

  lemma FieldsResolve(c: Call)
    requires FamilyOf(c.tool) == ConnectorFamily && ActionOf(c.tool).None?
    ensures Resolve(c.tool, c.args.payload, c.env).Some? <==> IsGood(c)
    ensures c.tool != SqlExecute
  {
    hide ResolveFields, NamesTables, IsText;
    EmptyIsNotGood(c.tool);
    if c.args.payload.Some? {
      FieldsAreGood(c);
    }
  }

  lemma OtherResolves(c: Call)
    requires FamilyOf(c.tool) != ConnectorFamily && c.tool != ManageService
    ensures Resolve(c.tool, c.args.payload, c.env).Some? && (c.tool == SqlExecute ==> c.env.statementAllowed) <==> IsGood(c)
  {
  }

  lemma ServiceResolves(c: Call)
    requires c.tool == ManageService
    ensures Resolve(c.tool, c.args.payload, c.env).Some? <==> IsGood(c)
  {
    hide ServicePayload, IsServiceRequest;
    EmptyIsNotGood(c.tool);
    if c.args.payload.Some? { ServiceIsGood(c.args.payload.value); }
  }

  /** A call may write exactly if it is confirmed, no dry run, of a permitted group, and its payload is good. */
  lemma MayWriteExactly(c: Call, allowed: set<string>)
    ensures MayWrite(c, allowed) <==>
      c.args.confirm && !c.args.dryRun && IsPermitted(c.tool, allowed) && IsGood(c)
  {
    hide Resolve, IsGood, IsPermitted, GroupOf;
    ResolvedExactly(c);
    PermittedExactly(c.tool, allowed);
  }

  // ------------------------------------------------------------------ what is posted

  /** What a write carries of what its call was given. */
  ghost predicate Carries(c: Call, sent: Fields) {
    if c.tool == ManageService then
      && c.args.payload.Some? && IsServiceRequest(c.args.payload.value)
      && (forall key :: key in sent <==> key == "serviceName" || key == "command")
      && sent["serviceName"] == Str(Strip(Field(c.args.payload.value, "serviceName").s))
      && sent["command"] == Str(Lower(Strip(Field(c.args.payload.value, "command").s)))
    else if ActionOf(c.tool).Some? then
      && c.args.payload.Some?
      && exists q :: PayloadFits(ActionOf(c.tool).value, c.args.payload.value, q) && sent == CT.Rewrite(ActionOf(c.tool).value, q)
    else sent == if c.args.payload.Some? then c.args.payload.value else map[]
  }

  lemma ConnectorCarries(c: Call)
    requires ActionOf(c.tool).Some? && Resolve(c.tool, c.args.payload, c.env).Some?
    ensures Carries(c, PostedPayload(c.tool, Resolve(c.tool, c.args.payload, c.env).value))
  {
    hide PayloadFits, CT.Rewrite, ConnectorPayload.Compiled, ConnectorPayload.HasName, ActionOf;
    ConnectorResolves(c);
    var a := ActionOf(c.tool).value;
    assert ConnectorPayload.Accepts(a, c.args.payload, c.env.registry);
    var p := c.args.payload.value;
    var q := CompiledFits(a, p);
    ConnectorPayload.PreviewIsCommit(a, p, c.env.registry);
    assert ConnectorPayload.Posted(a, ConnectorPayload.Compiled(a, p)) == CT.Rewrite(a, q);
  }

  lemma OtherCarries(c: Call)
    requires ActionOf(c.tool).None? && Resolve(c.tool, c.args.payload, c.env).Some?
    ensures Carries(c, PostedPayload(c.tool, Resolve(c.tool, c.args.payload, c.env).value))
  {
    hide IsServiceRequest, ServicePayload, HasTableNames, NamesTables, IsText, PayloadFits, IsTestScope;
    if c.tool == ManageService { ServiceIsGood(c.args.payload.value); }
  }

  /** Every write of a call carries what the call was given, as its tool passes it on. */
  lemma WritesCarry(c: Call, allowed: set<string>, e: Emission)
    requires e in Script(c, allowed) && IsWrite(e)
    ensures e.sent.tool == c.tool && Carries(c, e.sent.payload)
  {
    hide Script, Resolve, PostedPayload, Carries, GroupOf;
    ScriptedWritesAreAuthorized(c, allowed, e);
    if ActionOf(c.tool).Some? { ConnectorCarries(c); } else { OtherCarries(c); }
  }
}
