/**
  One call of a writing tool, any of the seventeen: what it may write and how often,
  what it records, when it returns, and how often it is counted or denied.
 */
module WriteCalls {
  import opened Prelude
  import opened JsonValue
  import opened GuardedWrites
  import CT = ConnectorTransform
  import ConnectorPayload
  import ReadBack
  import SessionClient
  import SessionProtocol

  datatype Call = Call(tool: Tool, args: Args, env: Env)

  function Script(c: Call, allowed: set<string>): seq<Emission> {
    CallOf(c.tool, c.args, c.env, allowed).emitted
  }

  // ---------------------------------------------------------------- confirmed writes

  /** A write that a call was allowed to make. */
  predicate Authorized(c: Call, allowed: set<string>, w: Sent)
    requires w.Write?
  {
    && w.tool == c.tool
    && c.args.confirm && !c.args.dryRun
    && GroupOf(c.tool) in allowed
    && Resolve(c.tool, c.args.payload, c.env).Some?
    && w.payload == PostedPayload(c.tool, Resolve(c.tool, c.args.payload, c.env).value)
  }

  predicate IsWrite(e: Emission) {
    e.Upstream? && e.sent.Write?
  }

  predicate NoWrites(emitted: seq<Emission>) {
    forall e :: e in emitted ==> !IsWrite(e)
  }

  /** Only writes of this tool with this payload. */
  predicate OnlyWrites(emitted: seq<Emission>, t: Tool, payload: Fields) {
    forall e :: e in emitted && IsWrite(e) ==> e.sent == Write(t, payload)
  }

  /** Only requests that look something up. */
  predicate OnlyLookups(emitted: seq<Emission>) {
    forall e :: e in emitted ==> e == Upstream(Lookup)
  }

  lemma ReadsOnlyLookUp(t: Tool, payload: Option<Fields>, env: Env)
    ensures OnlyLookups(ValidationReads(t, payload)) && OnlyLookups(PreviewReads(t, payload, env))
  {
    hide LookupFor, ConnectorPayload.Accepts, ConnectorPayload.Compiled, ConnectorPayload.HasName;
    var action := ActionOf(t);
    if action.Some? {
      forall p ensures OnlyLookups(LookupFor(action.value, p)) { LookupOnlyLooksUp(action.value, p); }
    }
  }

  lemma LookupOnlyLooksUp(a: CT.Action, p: Fields)
    ensures OnlyLookups(LookupFor(a, p))
  {
    hide HasText;
  }

  lemma ReadsDoNotWrite(t: Tool, payload: Option<Fields>, env: Env)
    ensures NoWrites(ValidationReads(t, payload)) && NoWrites(PreviewReads(t, payload, env))
  {
    hide ValidationReads, PreviewReads;
    ReadsOnlyLookUp(t, payload, env);
  }

  lemma WriterWrites(t: Tool, resolved: Fields, env: Env, allowed: set<string>)
    ensures var part := RunTool(t, allowed, Writer(t, resolved, env));
      && OnlyWrites(part.emitted, t, PostedPayload(t, resolved))
      && (GroupOf(t) !in allowed ==> NoWrites(part.emitted))
  {
    hide PostedPayload, GroupOf;
  }

  lemma VerificationReads(t: Tool, resolved: Fields, env: Env)
    ensures NoWrites(Verification(t, resolved, env).emitted)
  {
    hide ReadBack.OutcomeOf;
  }

  lemma ExecutionWrites(t: Tool, resolved: Fields, env: Env, allowed: set<string>)
    ensures var part := ExecuteConnectorWrite(t, resolved, env, allowed);
      && OnlyWrites(part.emitted, t, PostedPayload(t, resolved))
      && (GroupOf(t) !in allowed ==> NoWrites(part.emitted))
    ensures var part := ExecutePackageWrite(t, resolved, env, allowed);
      && OnlyWrites(part.emitted, t, PostedPayload(t, resolved))
      && (GroupOf(t) !in allowed ==> NoWrites(part.emitted))
  {
    hide Writer, RunTool, Verification, CarriesError, Redact, PostedPayload, GroupOf;
    WriterWrites(t, resolved, env, allowed);
    VerificationReads(t, resolved, env);
  }

  /** Every write of a call is one it was allowed to make. */
  lemma ScriptedWritesAreAuthorized(c: Call, allowed: set<string>, e: Emission)
    requires e in Script(c, allowed) && IsWrite(e)
    ensures Authorized(c, allowed, e.sent)
  {
    hide Resolve, PostedPayload, GroupOf, ExecuteConnectorWrite, ExecutePackageWrite, Writer, ValidationReads, PreviewReads, RecordsRejection;
    var resolved := Resolve(c.tool, c.args.payload, c.env);
    ReadsDoNotWrite(c.tool, c.args.payload, c.env);
    if resolved.Some? {
      WriterWrites(c.tool, resolved.value, c.env, allowed);
      ExecutionWrites(c.tool, resolved.value, c.env, allowed);
    }
  }

  /** The requests among the emissions only look something up. */
  predicate OnlyReadsServices(emitted: seq<Emission>) {
    forall e :: e in emitted && e.Upstream? ==> e.sent == Lookup
  }

  /** A dry run, an unconfirmed call or a rejected one sends nothing but questions about the registered services. */
  lemma UnconfirmedOnlyLooksUp(c: Call, allowed: set<string>)
    requires c.args.dryRun || !c.args.confirm || Resolve(c.tool, c.args.payload, c.env).None?
    ensures OnlyReadsServices(Script(c, allowed))
  {
    hide Resolve, GroupOf, ExecuteConnectorWrite, ExecutePackageWrite, Writer, ValidationReads, PreviewReads, RecordsRejection;
    ReadsOnlyLookUp(c.tool, c.args.payload, c.env);
  }

  // ------------------------------------------------------------------- audit pairing

  function CountIf(emitted: seq<Emission>, p: Emission -> bool): nat {
    if emitted == [] then 0
    else CountIf(emitted[..|emitted| - 1], p) + (if p(emitted[|emitted| - 1]) then 1 else 0)
  }

  lemma {:induction false} CountIfAppend(a: seq<Emission>, b: seq<Emission>, p: Emission -> bool)
    ensures CountIf(a + b, p) == CountIf(a, p) + CountIf(b, p)
    decreases |b|
  {
    if b == [] {
      assert a + b == a;
    } else {
      var front := b[..|b| - 1];
      CountIfAppend(a, front, p);
      assert (a + b)[..|a + b| - 1] == a + front;
    }
  }

  lemma CountIfOne(emitted: seq<Emission>, p: Emission -> bool)
    requires |emitted| == 1
    ensures CountIf(emitted, p) == if p(emitted[0]) then 1 else 0
  {
    assert emitted[..0] == [];
  }

  lemma {:induction false} CountIfNone(emitted: seq<Emission>, p: Emission -> bool)
    requires forall e :: e in emitted ==> !p(e)
    ensures CountIf(emitted, p) == 0
    decreases |emitted|
  {
    if emitted != [] {
      CountIfNone(emitted[..|emitted| - 1], p);
    }
  }

  lemma {:induction false} CountIfPrefix(emitted: seq<Emission>, n: nat, p: Emission -> bool)
    requires n <= |emitted|
    ensures CountIf(emitted[..n], p) <= CountIf(emitted, p)
  {
    assert emitted == emitted[..n] + emitted[n..];
    CountIfAppend(emitted[..n], emitted[n..], p);
  }

  /** A recorded attempt of the tool that is no dry run. */
  function RealAttempt(t: Tool): Emission -> bool {
    (e: Emission) => e.Audit? && e.entry.Attempt? && e.entry.tool == t && !e.entry.dryRun
  }

  function ResultOf(t: Tool): Emission -> bool {
    (e: Emission) => e.Audit? && e.entry.Result? && e.entry.tool == t
  }

  /** Neither attempts nor results. */
  predicate Unpaired(emitted: seq<Emission>) {
    forall e :: e in emitted ==> !(e.Audit? && (e.entry.Attempt? || e.entry.Result?))
  }

  /** A real call whose outcome is recorded: it gets as far as writing, or its rejection is logged. */
  predicate IsRecorded(c: Call) {
    !c.args.dryRun && (RecordsRejection(c.tool, c.args.payload) || (c.args.confirm && Resolve(c.tool, c.args.payload, c.env).Some?))
  }

  lemma WriterIsUnpaired(t: Tool, resolved: Fields, env: Env, allowed: set<string>)
    ensures Unpaired(RunTool(t, allowed, Writer(t, resolved, env)).emitted)
  {
    hide PostedPayload, GroupOf;
  }

  lemma VerificationIsUnpaired(t: Tool, resolved: Fields, env: Env)
    ensures Unpaired(Verification(t, resolved, env).emitted)
  {
    hide ReadBack.OutcomeOf;
  }

  lemma ReadsAreUnpaired(t: Tool, payload: Option<Fields>, env: Env, allowed: set<string>)
    ensures Unpaired(ValidationReads(t, payload))
    ensures Unpaired(RunTool(t, allowed, Part(PreviewReads(t, payload, env), true)).emitted)
  {
    hide ValidationReads, PreviewReads, GroupOf;
    ReadsOnlyLookUp(t, payload, env);
  }

  /** What a write that is carried out emits: no attempts and no results, then one result, a success exactly if it returns. */
  lemma ExecutionShape(t: Tool, resolved: Fields, env: Env, allowed: set<string>) returns (middle: seq<Emission>)
    ensures var part := ExecuteConnectorWrite(t, resolved, env, allowed);
      part.emitted == middle + [Audit(Result(t, if part.returned then Succeeded else Failed))] && Unpaired(middle)
  {
    hide Writer, RunTool, Verification, CarriesError, Redact;
    WriterIsUnpaired(t, resolved, env, allowed);
    VerificationIsUnpaired(t, resolved, env);
    WriterReturns(t, resolved, env, allowed);
    var writer := RunTool(t, allowed, Writer(t, resolved, env));
    if !writer.returned || CarriesError(Redact(env.answer.reply)) {
      middle := writer.emitted;
    } else {
      middle := writer.emitted + Verification(t, resolved, env).emitted;
    }
  }

  /** The recorded outcome of a real call. */
  function OutcomeFor(c: Call, allowed: set<string>): Outcome {
    if !c.args.confirm || Resolve(c.tool, c.args.payload, c.env).None? then Rejected
    else if CallOf(c.tool, c.args, c.env, allowed).returned then Succeeded
    else Failed
  }

  function Tail(c: Call, allowed: set<string>): seq<Emission> {
    if IsRecorded(c) then [Audit(Result(c.tool, OutcomeFor(c, allowed)))] else []
  }

  /** A connector call: its attempt, then neither attempts nor results, then its result if that is recorded. */
  lemma ConnectorShape(c: Call, allowed: set<string>) returns (middle: seq<Emission>)
    requires FamilyOf(c.tool) == ConnectorFamily
    ensures Script(c, allowed) == AttemptOf(c.tool, c.args) + middle + Tail(c, allowed)
    ensures Unpaired(middle)
  {
    hide Resolve, ExecuteConnectorWrite, RunTool, ValidationReads, PreviewReads, RecordsRejection, FamilyOf, AttemptOf, Unpaired;
    ReadsAreUnpaired(c.tool, c.args.payload, c.env, allowed);
    var resolved := Resolve(c.tool, c.args.payload, c.env);
    var looked := ValidationReads(c.tool, c.args.payload);
    if c.args.dryRun {
      middle := RunTool(c.tool, allowed, Part(PreviewReads(c.tool, c.args.payload, c.env), true)).emitted;
    } else if resolved.None? || !c.args.confirm {
      middle := looked;
    } else {
      var inner := ExecutionShape(c.tool, resolved.value, c.env, allowed);
      middle := looked + inner;
      UnpairedAppend(looked, inner);
    }
  }

  lemma UnpairedAppend(a: seq<Emission>, b: seq<Emission>)
    requires Unpaired(a) && Unpaired(b)
    ensures Unpaired(a + b)
  {
  }

  lemma UnpairedCounts(middle: seq<Emission>, t: Tool)
    requires Unpaired(middle)
    ensures CountIf(middle, RealAttempt(t)) == 0 && CountIf(middle, ResultOf(t)) == 0
  {
    CountIfNone(middle, RealAttempt(t));
    CountIfNone(middle, ResultOf(t));
  }

  lemma ConnectorCounts(c: Call, allowed: set<string>, t: Tool)
    requires FamilyOf(c.tool) == ConnectorFamily
    ensures CountIf(Script(c, allowed), RealAttempt(t)) == (if c.tool == t && !c.args.dryRun then 1 else 0)
    ensures CountIf(Script(c, allowed), ResultOf(t)) == (if c.tool == t && IsRecorded(c) then 1 else 0)
  {
    hide Script, IsRecorded, OutcomeFor, Unpaired, FamilyOf, CountIf;
    var middle := ConnectorShape(c, allowed);
    var first, tail := AttemptOf(c.tool, c.args), Tail(c, allowed);
    UnpairedCounts(middle, t);
    CountsOfThree(first, middle, tail, RealAttempt(t));
    CountsOfThree(first, middle, tail, ResultOf(t));
    CountIfOne(first, RealAttempt(t));
    CountIfOne(first, ResultOf(t));
    if tail == [] {
      CountIfNone(tail, RealAttempt(t));
      CountIfNone(tail, ResultOf(t));
    } else {
      CountIfOne(tail, RealAttempt(t));
      CountIfOne(tail, ResultOf(t));
    }
  }

  lemma CountsOfThree(first: seq<Emission>, middle: seq<Emission>, tail: seq<Emission>, p: Emission -> bool)
    ensures CountIf(first + middle + tail, p) == CountIf(first, p) + CountIf(middle, p) + CountIf(tail, p)
  {
    hide CountIf;
    CountIfAppend(first + middle, tail, p);
    CountIfAppend(first, middle, p);
  }

  /** What a call records and counts is about its own tool. */
  predicate Owned(emitted: seq<Emission>, t: Tool) {
    forall e :: e in emitted ==> (e.Audit? ==> e.entry.tool == t) && (e.Counted? ==> e.tool == t)
  }

  lemma PartsAreOwned(t: Tool, resolved: Fields, env: Env, allowed: set<string>, payload: Option<Fields>)
    ensures Owned(RunTool(t, allowed, Writer(t, resolved, env)).emitted, t)
    ensures Owned(Verification(t, resolved, env).emitted, t)
    ensures Owned(ValidationReads(t, payload), t)
    ensures Owned(RunTool(t, allowed, Part(PreviewReads(t, payload, env), true)).emitted, t)
    ensures Owned(RunTool(t, allowed, Part([], env.statementAllowed)).emitted, t)
  {
    hide ValidationReads, PreviewReads, GroupOf, PostedPayload, ReadBack.OutcomeOf;
    ReadsOnlyLookUp(t, payload, env);
  }

  lemma ExecutionsAreOwned(t: Tool, resolved: Fields, env: Env, allowed: set<string>)
    ensures Owned(ExecuteConnectorWrite(t, resolved, env, allowed).emitted, t)
    ensures Owned(ExecutePackageWrite(t, resolved, env, allowed).emitted, t)
  {
    hide RunTool, Writer, Verification, CarriesError, Redact;
    PartsAreOwned(t, resolved, env, allowed, None);
  }

  lemma AppendIsOwned(a: seq<Emission>, b: seq<Emission>, t: Tool)
    requires Owned(a, t) && Owned(b, t)
    ensures Owned(a + b, t)
  {
  }

  lemma RecordIsOwned(t: Tool, args: Args, outcome: Outcome)
    ensures Owned([], t) && Owned(AttemptOf(t, args), t)
    ensures Owned([Audit(Result(t, outcome))], t) && Owned(RejectionOf(t, args.payload).emitted, t)
  {
    hide RecordsRejection;
  }

  lemma ConnectorIsOwned(c: Call, allowed: set<string>)
    ensures Owned(ConnectorCall(c.tool, c.args, c.env, allowed).emitted, c.tool)
  {
    hide Owned, Resolve, RunTool, ValidationReads, PreviewReads, ExecuteConnectorWrite, RejectionOf, AttemptOf;
    var resolved := Resolve(c.tool, c.args.payload, c.env);
    var some := if resolved.Some? then resolved.value else map[];
    RecordIsOwned(c.tool, c.args, Rejected);
    PartsAreOwned(c.tool, some, c.env, allowed, c.args.payload);
    ExecutionsAreOwned(c.tool, some, c.env, allowed);
    var first, looked := AttemptOf(c.tool, c.args), ValidationReads(c.tool, c.args.payload);
    var preview := RunTool(c.tool, allowed, Part(PreviewReads(c.tool, c.args.payload, c.env), true)).emitted;
    AppendIsOwned(first, preview, c.tool);
    var rest := if resolved.None? || !c.args.confirm then RejectionOf(c.tool, c.args.payload) else ExecuteConnectorWrite(c.tool, some, c.env, allowed);
    AppendIsOwned(looked, rest.emitted, c.tool);
    AppendIsOwned(first, looked + rest.emitted, c.tool);
  }

  lemma OthersAreOwned(c: Call, allowed: set<string>)
    ensures Owned(ServiceCall(c.tool, c.args, c.env, allowed).emitted, c.tool)
    ensures Owned(SqlCall(c.tool, c.args, c.env, allowed).emitted, c.tool)
    ensures Owned(PackageCall(c.tool, c.args, c.env, allowed).emitted, c.tool)
  {
    hide Owned, Resolve, RunTool, Writer, ExecutePackageWrite, RejectionOf, AttemptOf;
    var resolved := Resolve(c.tool, c.args.payload, c.env);
    var some := if resolved.Some? then resolved.value else map[];
    RecordIsOwned(c.tool, c.args, Previewed);
    PartsAreOwned(c.tool, some, c.env, allowed, c.args.payload);
    ExecutionsAreOwned(c.tool, some, c.env, allowed);
    var first := AttemptOf(c.tool, c.args);
    AppendIsOwned(first, [], c.tool);
    AppendIsOwned(first, RejectionOf(c.tool, c.args.payload).emitted, c.tool);
    AppendIsOwned(first, [Audit(Result(c.tool, Previewed))], c.tool);
    AppendIsOwned(first, ExecutePackageWrite(c.tool, some, c.env, allowed).emitted, c.tool);
    AppendIsOwned(first, RunTool(c.tool, allowed, Writer(c.tool, some, c.env)).emitted, c.tool);
    AppendIsOwned(first, RunTool(c.tool, allowed, Part([], c.env.statementAllowed)).emitted, c.tool);
  }

  lemma ScriptIsOwned(c: Call, allowed: set<string>)
    ensures Owned(Script(c, allowed), c.tool)
  {
    hide Owned, ConnectorCall, ServiceCall, SqlCall, PackageCall;
    ConnectorIsOwned(c, allowed);
    OthersAreOwned(c, allowed);
  }

  /** After any number of its steps, a call has recorded no more results of a connector tool than real attempts. */
  lemma PrefixIsBalanced(c: Call, allowed: set<string>, n: nat, t: Tool)
    requires n <= |Script(c, allowed)| && FamilyOf(t) == ConnectorFamily
    ensures CountIf(Script(c, allowed)[..n], ResultOf(t)) <= CountIf(Script(c, allowed)[..n], RealAttempt(t))
  {
    hide Script, FamilyOf, CountIf, IsRecorded;
    var script := Script(c, allowed);
    if c.tool != t {
      ScriptIsOwned(c, allowed);
      CountIfNone(script[..n], ResultOf(t));
    } else if n == 0 {
      CountIfNone(script[..n], ResultOf(t));
    } else {
      ConnectorCounts(c, allowed, t);
      CountIfPrefix(script, n, ResultOf(t));
      StartsWithAttempt(c, allowed);
      assert script[..n] == AttemptOf(c.tool, c.args) + script[1..n];
      CountIfAppend(AttemptOf(c.tool, c.args), script[1..n], RealAttempt(t));
      CountIfOne(AttemptOf(c.tool, c.args), RealAttempt(t));
      RecordedIsReal(c);
    }
  }

  lemma RecordedIsReal(c: Call)
    ensures IsRecorded(c) ==> !c.args.dryRun
  {
  }

  lemma StartsWithAttempt(c: Call, allowed: set<string>)
    requires FamilyOf(c.tool) == ConnectorFamily
    ensures Script(c, allowed) != [] && Script(c, allowed)[0] == AttemptOf(c.tool, c.args)[0]
  {
    hide FamilyOf, Script, Tail;
    var middle := ConnectorShape(c, allowed);
  }

  // ------------------------------------------------------------------ what a success means

  /** Every outcome that is recorded for a call is the one that the call had. */
  lemma RecordedOutcome(c: Call, allowed: set<string>, outcome: Outcome)
    requires FamilyOf(c.tool) == ConnectorFamily
    requires Audit(Result(c.tool, outcome)) in Script(c, allowed)
    ensures IsRecorded(c) && outcome == OutcomeFor(c, allowed)
  {
    hide Script, FamilyOf, IsRecorded, OutcomeFor;
    var middle := ConnectorShape(c, allowed);
    assert Audit(Result(c.tool, outcome)) !in middle;
  }

  /** A tool's read-back was confirmed, or there was nothing to read back. */
  predicate ReadBackHolds(c: Call) {
    && Resolve(c.tool, c.args.payload, c.env).Some?
    && (TargetOf(c.tool).Some? ==>
          var outcome := ReadBack.OutcomeOf(TargetOf(c.tool).value, Resolve(c.tool, c.args.payload, c.env).value,
                                            c.env.replies, c.env.clock, c.env.start);
          outcome.Skip? || outcome.end.Confirmed?)
  }

  /** The call is confirmed, no dry run, and valid: it is about to write. */
  predicate IsMeant(c: Call) {
    c.args.confirm && !c.args.dryRun && Resolve(c.tool, c.args.payload, c.env).Some?
  }

  /** And the policies let it. */
  predicate MayWrite(c: Call, allowed: set<string>) {
    IsMeant(c) && GroupOf(c.tool) in allowed && (c.tool == SqlExecute ==> c.env.statementAllowed)
  }

  lemma WriterReturnsExactly(t: Tool, resolved: Fields, env: Env, allowed: set<string>)
    ensures RunTool(t, allowed, Writer(t, resolved, env)).returned <==>
      GroupOf(t) in allowed && (t == SqlExecute ==> env.statementAllowed) && env.answer.WriteReturns?
  {
    hide PostedPayload, GroupOf;
  }

  lemma VerificationReturnsExactly(c: Call)
    requires Resolve(c.tool, c.args.payload, c.env).Some?
    ensures Verification(c.tool, Resolve(c.tool, c.args.payload, c.env).value, c.env).returned <==> ReadBackHolds(c)
  {
    hide Resolve, ReadBack.OutcomeOf;
  }

  /** The write may be made and returns, and a connector's reply and read-back show no error. */
  predicate Completes(c: Call, allowed: set<string>) {
    && MayWrite(c, allowed) && c.env.answer.WriteReturns?
    && (FamilyOf(c.tool) == ConnectorFamily ==> !CarriesError(Redact(c.env.answer.reply)) && ReadBackHolds(c))
  }

  /** A real call returns exactly if it completes. */
  lemma ReturnsExactly(c: Call, allowed: set<string>)
    requires !c.args.dryRun
    ensures CallOf(c.tool, c.args, c.env, allowed).returned <==> Completes(c, allowed)
  {
    hide Resolve, Writer, RunTool, Verification, ReadBackHolds, ValidationReads, PreviewReads, CarriesError, Redact, GroupOf, RejectionOf;
    var resolved := Resolve(c.tool, c.args.payload, c.env);
    RejectionRaises(c.tool, c.args.payload);
    if resolved.Some? {
      WriterReturnsExactly(c.tool, resolved.value, c.env, allowed);
      VerificationReturnsExactly(c);
    }
  }

  lemma RejectionRaises(t: Tool, payload: Option<Fields>)
    ensures !RejectionOf(t, payload).returned
  {
  }

  // ------------------------------------------------------------------ how often it writes

  lemma NoWritesCount(emitted: seq<Emission>)
    requires NoWrites(emitted)
    ensures CountIf(emitted, IsWrite) == 0
  {
    CountIfNone(emitted, IsWrite);
  }
  lemma {:induction false} RepeatCount(e: Emission, n: nat)
    requires IsWrite(e)
    ensures CountIf(Repeat(e, n), IsWrite) == n
  {
    if n > 0 {
      RepeatCount(e, n - 1);
      assert Repeat(e, n)[..n - 1] == Repeat(e, n - 1);
    }
  }

  lemma WriterCount(t: Tool, resolved: Fields, env: Env, allowed: set<string>)
    ensures CountIf(RunTool(t, allowed, Writer(t, resolved, env)).emitted, IsWrite) ==
      if GroupOf(t) in allowed && (t == SqlExecute ==> env.statementAllowed) then env.posts else 0
  {
    hide CountIf, GroupOf, PostedPayload;
    var before := if t == RegisterPackage then [Upstream(Describe)] else [];
    var posts := Repeat(Upstream(Write(t, PostedPayload(t, resolved))), env.posts);
    RepeatCount(Upstream(Write(t, PostedPayload(t, resolved))), env.posts);
    NoWritesCount([]);
    NoWritesCount(before);
    CountIfAppend(before, posts, IsWrite);
    var inner := Writer(t, resolved, env);
    var counted := [Counted(t, inner.returned)];
    NoWritesCount(counted);
    CountIfAppend(inner.emitted, counted, IsWrite);
    NoWritesCount([Audit(PolicyDenial(t, GroupOf(t)))]);
  }

  /** After the writer of a connector or package call come a read-back, if any, and one record. */
  lemma ExecutionEnds(t: Tool, resolved: Fields, env: Env, allowed: set<string>) returns (read: seq<Emission>, recorded: seq<Emission>)
    ensures var writer := RunTool(t, allowed, Writer(t, resolved, env)).emitted;
      && ExecuteConnectorWrite(t, resolved, env, allowed).emitted == writer + read
      && ExecutePackageWrite(t, resolved, env, allowed).emitted == writer + recorded
      && NoWrites(read) && NoWrites(recorded) && Plain(read) && Plain(recorded)
  {
    hide RunTool, Writer, Verification, CarriesError, Redact;
    VerificationReads(t, resolved, env);
    PartsArePlain(t, resolved, env, None);
    var writer := RunTool(t, allowed, Writer(t, resolved, env)).emitted;
    var connector, package := ExecuteConnectorWrite(t, resolved, env, allowed).emitted, ExecutePackageWrite(t, resolved, env, allowed).emitted;
    read, recorded := connector[|writer|..], package[|writer|..];
  }

  /** A call that is about to write: some reads and a record, the writer, some reads and a record. */
  lemma MeantShape(c: Call, allowed: set<string>) returns (before: seq<Emission>, after: seq<Emission>)
    requires IsMeant(c)
    ensures Script(c, allowed) ==
      before + RunTool(c.tool, allowed, Writer(c.tool, Resolve(c.tool, c.args.payload, c.env).value, c.env)).emitted + after
    ensures NoWrites(before) && NoWrites(after) && Plain(before) && Plain(after)
  {
    hide Script, Resolve, Writer, RunTool, FamilyOf;
    if FamilyOf(c.tool) == ConnectorFamily {
      before, after := MeantConnector(c, allowed);
    } else {
      before, after := MeantOther(c, allowed);
    }
  }

  lemma MeantConnector(c: Call, allowed: set<string>) returns (before: seq<Emission>, after: seq<Emission>)
    requires IsMeant(c) && FamilyOf(c.tool) == ConnectorFamily
    ensures Script(c, allowed) ==
      before + RunTool(c.tool, allowed, Writer(c.tool, Resolve(c.tool, c.args.payload, c.env).value, c.env)).emitted + after
    ensures NoWrites(before) && NoWrites(after) && Plain(before) && Plain(after)
  {
    hide Resolve, Writer, RunTool, ValidationReads, PreviewReads, ExecuteConnectorWrite, RejectionOf, FamilyOf;
    var resolved := Resolve(c.tool, c.args.payload, c.env).value;
    var writer := RunTool(c.tool, allowed, Writer(c.tool, resolved, c.env)).emitted;
    var read, recorded := ExecutionEnds(c.tool, resolved, c.env, allowed);
    PartsArePlain(c.tool, resolved, c.env, c.args.payload);
    ReadsDoNotWrite(c.tool, c.args.payload, c.env);
    var first, looked := AttemptOf(c.tool, c.args), ValidationReads(c.tool, c.args.payload);
    before, after := first + looked, read;
    assert first + (looked + (writer + read)) == (first + looked) + writer + read;
  }

  lemma MeantOther(c: Call, allowed: set<string>) returns (before: seq<Emission>, after: seq<Emission>)
    requires IsMeant(c) && FamilyOf(c.tool) != ConnectorFamily
    ensures Script(c, allowed) ==
      before + RunTool(c.tool, allowed, Writer(c.tool, Resolve(c.tool, c.args.payload, c.env).value, c.env)).emitted + after
    ensures NoWrites(before) && NoWrites(after) && Plain(before) && Plain(after)
  {
    hide Resolve, Writer, RunTool, ExecutePackageWrite, RejectionOf, FamilyOf;
    var resolved := Resolve(c.tool, c.args.payload, c.env).value;
    var writer := RunTool(c.tool, allowed, Writer(c.tool, resolved, c.env)).emitted;
    var read, recorded := ExecutionEnds(c.tool, resolved, c.env, allowed);
    var first := AttemptOf(c.tool, c.args);
    before := if FamilyOf(c.tool) == ServiceFamily then [] else first;
    after := if FamilyOf(c.tool) == PackageFamily then recorded else [];
    assert first + (writer + recorded) == first + writer + recorded;
    assert first + writer + [] == first + writer;
    assert [] + writer + [] == writer;
  }

  /** A call posts its write as often as the client posts it, if the policies let the call write; else never. */
  lemma WritesExactly(c: Call, allowed: set<string>)
    ensures CountIf(Script(c, allowed), IsWrite) == if MayWrite(c, allowed) then c.env.posts else 0
  {
    hide Script, Resolve, RunTool, Writer, CountIf, GroupOf;
    if IsMeant(c) {
      var resolved := Resolve(c.tool, c.args.payload, c.env).value;
      var before, after := MeantShape(c, allowed);
      WriterCount(c.tool, resolved, c.env, allowed);
      NoWritesCount(before);
      NoWritesCount(after);
      CountsOfThree(before, RunTool(c.tool, allowed, Writer(c.tool, resolved, c.env)).emitted, after, IsWrite);
    } else {
      UnconfirmedOnlyLooksUp(c, allowed);
      NoWritesCount(Script(c, allowed));
    }
  }

  /** The posts of one action in a run of the client, shared by any threads. */
  ghost function PostsIn(config: SessionProtocol.Config, tids: set<SessionProtocol.Tid>,
                         events: seq<SessionProtocol.Event>, id: SessionProtocol.CallId): seq<SessionProtocol.PostRecord>
    requires IsClientRun(config, tids, events)
  {
    SessionProtocol.PostsOf(SessionProtocol.After(SessionProtocol.Init(config, tids), events).wire, id)
  }

  ghost predicate IsClientRun(config: SessionProtocol.Config, tids: set<SessionProtocol.Tid>, events: seq<SessionProtocol.Event>) {
    SessionProtocol.ValidConfig(config) && SessionProtocol.IsRun(SessionProtocol.Init(config, tids), events)
  }

  /** At most two, and the second after an expired session. */
  ghost predicate FewPosts(posts: seq<SessionProtocol.PostRecord>) {
    |posts| <= 2 && (|posts| == 2 ==> posts[0].reply == SessionProtocol.Expired)
  }

  lemma PostsInAreFew(config: SessionProtocol.Config, tids: set<SessionProtocol.Tid>,
                      events: seq<SessionProtocol.Event>, id: SessionProtocol.CallId)
    requires IsClientRun(config, tids, events)
    ensures FewPosts(PostsIn(config, tids, events, id))
  {
    hide SessionProtocol.IsRun, SessionProtocol.After, SessionProtocol.PostsOf, SessionProtocol.Init;
    SessionProtocol.AtMostTwoPosts(config, tids, events, id);
  }

  /**
    The write of a call is one action of a client.  Whatever else runs on that client, a call
    of any tool posts its write at most twice, and twice only if it may write and the first
    post came back as an expired session.
   */
  lemma WritesAtMostTwice(c: Call, allowed: set<string>, config: SessionProtocol.Config, tids: set<SessionProtocol.Tid>,
                          events: seq<SessionProtocol.Event>, id: SessionProtocol.CallId)
    requires IsClientRun(config, tids, events) && c.env.posts == |PostsIn(config, tids, events, id)|
    ensures CountIf(Script(c, allowed), IsWrite) <= 2
    ensures CountIf(Script(c, allowed), IsWrite) == 2 ==>
      && MayWrite(c, allowed)
      && var posts := PostsIn(config, tids, events, id); |posts| == 2 && posts[0].reply == SessionProtocol.Expired
  {
    hide Script, CountIf, MayWrite, IsClientRun, PostsIn;
    WritesExactly(c, allowed);
    PostsInAreFew(config, tids, events, id);
  }

  /**
    Alone on the client, a call of any tool posts its write twice exactly if it may write, its
    first post came back as an expired session, and a token could be had both times.
   */
  lemma WritesTwiceExactly(c: Call, allowed: set<string>, config: SessionProtocol.Config, cache: Option<SessionProtocol.Token>,
                           id: SessionProtocol.CallId, script: SessionClient.Script)
    requires config.token.Some? ==> cache.Some?
    requires c.env.posts == SessionClient.PostCount(SessionClient.CallSpec(config, cache, id, script).wire)
    ensures CountIf(Script(c, allowed), IsWrite) <= 2
    ensures CountIf(Script(c, allowed), IsWrite) == 2 <==>
      && MayWrite(c, allowed)
      && SessionClient.HasToken(config, cache, script.firstSession) && script.firstPost.reply == SessionProtocol.Expired
      && (config.token.Some? || (config.hasCredentials && script.secondSession.Issued?))
  {
    hide Script, CountIf, MayWrite, SessionClient.CallSpec, SessionClient.PostCount;
    WritesExactly(c, allowed);
    SessionClient.PostsTwiceExactly(config, cache, id, script);
  }

  // --------------------------------------------------------------- counters and denials

  predicate IsCounted(e: Emission) { e.Counted? }
  predicate IsDenial(e: Emission) { e.Audit? && e.entry.PolicyDenial? }

  /** Neither counted nor denied. */
  predicate Plain(emitted: seq<Emission>) {
    forall e :: e in emitted ==> !IsCounted(e) && !IsDenial(e)
  }

  /** The call gets as far as running its tool. */
  predicate Enters(c: Call) {
    var resolved := Resolve(c.tool, c.args.payload, c.env).Some?;
    match FamilyOf(c.tool)
    case ConnectorFamily => c.args.dryRun || (c.args.confirm && resolved)
    case SqlFamily => resolved && (c.args.dryRun || c.args.confirm)
    case _ => resolved && !c.args.dryRun && c.args.confirm
  }

  /** One count if the policy allows the group, one denial if not. */
  ghost predicate RanOnce(emitted: seq<Emission>, permitted: bool) {
    && CountIf(emitted, IsCounted) == (if permitted then 1 else 0)
    && CountIf(emitted, IsDenial) == (if permitted then 0 else 1)
  }

  ghost predicate NeverRan(emitted: seq<Emission>) {
    CountIf(emitted, IsCounted) == 0 && CountIf(emitted, IsDenial) == 0
  }

  lemma PlainNeverRan(emitted: seq<Emission>)
    requires Plain(emitted)
    ensures NeverRan(emitted)
  {
    CountIfNone(emitted, IsCounted);
    CountIfNone(emitted, IsDenial);
  }

  lemma RunToolRanOnce(t: Tool, allowed: set<string>, inner: Part)
    requires Plain(inner.emitted)
    ensures RanOnce(RunTool(t, allowed, inner).emitted, GroupOf(t) in allowed)
  {
    hide GroupOf, CountIf;
    var denied, counted := [Audit(PolicyDenial(t, GroupOf(t)))], [Counted(t, inner.returned)];
    PlainNeverRan(inner.emitted);
    CountIfOne(denied, IsCounted);
    CountIfOne(denied, IsDenial);
    CountIfOne(counted, IsCounted);
    CountIfOne(counted, IsDenial);
    CountIfAppend(inner.emitted, counted, IsCounted);
    CountIfAppend(inner.emitted, counted, IsDenial);
  }

  lemma BeforeAndAfter(before: seq<Emission>, run: seq<Emission>, after: seq<Emission>, permitted: bool)
    requires Plain(before) && RanOnce(run, permitted) && Plain(after)
    ensures RanOnce(before + run + after, permitted) && RanOnce(before + run, permitted)
  {
    hide CountIf, Plain;
    PlainNeverRan(before);
    PlainNeverRan(after);
    CountsOfThree(before, run, after, IsCounted);
    CountsOfThree(before, run, after, IsDenial);
    CountIfAppend(before, run, IsCounted);
    CountIfAppend(before, run, IsDenial);
  }

  lemma PartsArePlain(t: Tool, resolved: Fields, env: Env, payload: Option<Fields>)
    ensures Plain(Writer(t, resolved, env).emitted) && Plain(Verification(t, resolved, env).emitted)
    ensures Plain(ValidationReads(t, payload)) && Plain(PreviewReads(t, payload, env))
  {
    hide PostedPayload, ValidationReads, PreviewReads, ReadBack.OutcomeOf;
    ReadsOnlyLookUp(t, payload, env);
  }

  lemma RecordsArePlain(t: Tool, args: Args, outcome: Outcome)
    ensures Plain([]) && Plain(AttemptOf(t, args)) && Plain([Audit(Result(t, outcome))]) && Plain(RejectionOf(t, args.payload).emitted)
  {
    hide RecordsRejection;
  }

  lemma ExecutionsRunOnce(t: Tool, resolved: Fields, env: Env, allowed: set<string>)
    ensures RanOnce(ExecuteConnectorWrite(t, resolved, env, allowed).emitted, GroupOf(t) in allowed)
    ensures RanOnce(ExecutePackageWrite(t, resolved, env, allowed).emitted, GroupOf(t) in allowed)
  {
    hide RunTool, Writer, Verification, CarriesError, Redact, GroupOf, RanOnce, Plain;
    PartsArePlain(t, resolved, env, None);
    RunToolRanOnce(t, allowed, Writer(t, resolved, env));
    var run, verification := RunTool(t, allowed, Writer(t, resolved, env)).emitted, Verification(t, resolved, env).emitted;
    forall outcome
      ensures RanOnce(run + [Audit(Result(t, outcome))], GroupOf(t) in allowed)
      ensures RanOnce(run + verification + [Audit(Result(t, outcome))], GroupOf(t) in allowed)
    {
      RecordsArePlain(t, Args(None, false, false), outcome);
      BeforeAndAfter([], run, [Audit(Result(t, outcome))], GroupOf(t) in allowed);
      assert [] + run == run;
      BeforeAndAfter([], run, verification, GroupOf(t) in allowed);
      BeforeAndAfter([], run + verification, [Audit(Result(t, outcome))], GroupOf(t) in allowed);
      assert [] + (run + verification) == run + verification;
    }
  }

  ghost predicate RunsAsOftenAsItEnters(c: Call, allowed: set<string>, emitted: seq<Emission>) {
    if Enters(c) then RanOnce(emitted, GroupOf(c.tool) in allowed) else NeverRan(emitted)
  }

  lemma ConnectorRuns(c: Call, allowed: set<string>)
    requires FamilyOf(c.tool) == ConnectorFamily
    ensures RunsAsOftenAsItEnters(c, allowed, ConnectorCall(c.tool, c.args, c.env, allowed).emitted)
  {
    hide Resolve, RunTool, ExecuteConnectorWrite, ValidationReads, PreviewReads, RanOnce, NeverRan, Plain, GroupOf, AttemptOf, RejectionOf, FamilyOf;
    var resolved := Resolve(c.tool, c.args.payload, c.env);
    var some := if resolved.Some? then resolved.value else map[];
    var first, looked := AttemptOf(c.tool, c.args), ValidationReads(c.tool, c.args.payload);
    var permitted := GroupOf(c.tool) in allowed;
    RecordsArePlain(c.tool, c.args, Rejected);
    PartsArePlain(c.tool, some, c.env, c.args.payload);
    if c.args.dryRun {
      RunToolRanOnce(c.tool, allowed, Part(PreviewReads(c.tool, c.args.payload, c.env), true));
      BeforeAndAfter(first, RunTool(c.tool, allowed, Part(PreviewReads(c.tool, c.args.payload, c.env), true)).emitted, [], permitted);
    } else if resolved.None? || !c.args.confirm {
      PlainAppend(looked, RejectionOf(c.tool, c.args.payload).emitted);
      PlainAppend(first, looked + RejectionOf(c.tool, c.args.payload).emitted);
      PlainNeverRan(first + (looked + RejectionOf(c.tool, c.args.payload).emitted));
    } else {
      ExecutionsRunOnce(c.tool, some, c.env, allowed);
      var run := ExecuteConnectorWrite(c.tool, some, c.env, allowed).emitted;
      BeforeAndAfter(looked, run, [], permitted);
      BeforeAndAfter(first, looked + run, [], permitted);
    }
    EntersConnector(c);
  }

  lemma EntersConnector(c: Call)
    requires FamilyOf(c.tool) == ConnectorFamily
    ensures Enters(c) <==> c.args.dryRun || (c.args.confirm && Resolve(c.tool, c.args.payload, c.env).Some?)
  {
    hide Resolve, FamilyOf;
  }

  lemma PlainAppend(a: seq<Emission>, b: seq<Emission>)
    requires Plain(a) && Plain(b)
    ensures Plain(a + b)
  {
  }

  lemma OthersRun(c: Call, allowed: set<string>)
    ensures FamilyOf(c.tool) == ServiceFamily ==>
      RunsAsOftenAsItEnters(c, allowed, ServiceCall(c.tool, c.args, c.env, allowed).emitted)
    ensures FamilyOf(c.tool) == SqlFamily ==>
      RunsAsOftenAsItEnters(c, allowed, SqlCall(c.tool, c.args, c.env, allowed).emitted)
    ensures FamilyOf(c.tool) == PackageFamily ==>
      RunsAsOftenAsItEnters(c, allowed, PackageCall(c.tool, c.args, c.env, allowed).emitted)
  {
    hide Resolve, RunTool, Writer, ExecutePackageWrite, RanOnce, NeverRan, Plain, GroupOf, AttemptOf, RejectionOf, FamilyOf;
    var resolved := Resolve(c.tool, c.args.payload, c.env);
    var some := if resolved.Some? then resolved.value else map[];
    var first := AttemptOf(c.tool, c.args);
    var permitted := GroupOf(c.tool) in allowed;
    RecordsArePlain(c.tool, c.args, Previewed);
    PartsArePlain(c.tool, some, c.env, c.args.payload);
    PlainNeverRan([]);
    PlainAppend(first, []);
    PlainNeverRan(first + []);
    PlainAppend(first, RejectionOf(c.tool, c.args.payload).emitted);
    PlainNeverRan(first + RejectionOf(c.tool, c.args.payload).emitted);
    PlainAppend(first, [Audit(Result(c.tool, Previewed))]);
    PlainNeverRan(first + [Audit(Result(c.tool, Previewed))]);
    RunToolRanOnce(c.tool, allowed, Writer(c.tool, some, c.env));
    BeforeAndAfter(first, RunTool(c.tool, allowed, Writer(c.tool, some, c.env)).emitted, [], permitted);
    RunToolRanOnce(c.tool, allowed, Part([], c.env.statementAllowed));
    BeforeAndAfter(first, RunTool(c.tool, allowed, Part([], c.env.statementAllowed)).emitted, [], permitted);
    ExecutionsRunOnce(c.tool, some, c.env, allowed);
    BeforeAndAfter(first, ExecutePackageWrite(c.tool, some, c.env, allowed).emitted, [], permitted);
  }

  /**
    A call that gets as far as running its tool is counted exactly once if the policy allows
    the tool's group and denied exactly once if not; any other call is neither.
   */
  lemma CountedOrDeniedOnce(c: Call, allowed: set<string>)
    ensures RunsAsOftenAsItEnters(c, allowed, Script(c, allowed))
  {
    hide ConnectorCall, ServiceCall, SqlCall, PackageCall, RunsAsOftenAsItEnters, FamilyOf;
    if FamilyOf(c.tool) == ConnectorFamily {
      ConnectorRuns(c, allowed);
    }
    OthersRun(c, allowed);
  }

  /** The status under which a call is counted: a dry run, unless SQL is refused, or a write that returned. */
  predicate CountsAsSuccess(c: Call) {
    (c.tool == SqlExecute ==> c.env.statementAllowed) && (c.args.dryRun || c.env.answer.WriteReturns?)
  }

  lemma {:induction false} NoneCounted(emitted: seq<Emission>, p: Emission -> bool)
    requires CountIf(emitted, p) == 0
    ensures forall e :: e in emitted ==> !p(e)
    decreases |emitted|
  {
    if emitted != [] {
      NoneCounted(emitted[..|emitted| - 1], p);
      assert emitted == emitted[..|emitted| - 1] + [emitted[|emitted| - 1]];
    }
  }

  lemma RunCountsOnce(t: Tool, allowed: set<string>, inner: Part, e: Emission)
    requires Plain(inner.emitted) && e in RunTool(t, allowed, inner).emitted && e.Counted?
    ensures e == Counted(t, inner.returned)
  {
    hide GroupOf;
  }

  lemma WriterStatus(t: Tool, resolved: Fields, env: Env)
    ensures Writer(t, resolved, env).returned <==> (t == SqlExecute ==> env.statementAllowed) && env.answer.WriteReturns?
  {
  }

  /** Whatever a call counts is its tool with that status. */
  lemma CountedAs(c: Call, allowed: set<string>, e: Emission)
    requires e in Script(c, allowed) && e.Counted?
    ensures e == Counted(c.tool, CountsAsSuccess(c))
  {
    hide Script, Resolve, RunTool, Writer, CountIf, GroupOf;
    if IsMeant(c) {
      var resolved := Resolve(c.tool, c.args.payload, c.env).value;
      var before, after := MeantShape(c, allowed);
      PartsArePlain(c.tool, resolved, c.env, None);
      RunCountsOnce(c.tool, allowed, Writer(c.tool, resolved, c.env), e);
      WriterStatus(c.tool, resolved, c.env);
    } else if c.args.dryRun && (FamilyOf(c.tool) == ConnectorFamily || FamilyOf(c.tool) == SqlFamily) {
      PreviewCountedAs(c, allowed, e);
    } else {
      CountedOrDeniedOnce(c, allowed);
      NoneCounted(Script(c, allowed), IsCounted);
    }
  }

  lemma PreviewCountedAs(c: Call, allowed: set<string>, e: Emission)
    requires c.args.dryRun && (FamilyOf(c.tool) == ConnectorFamily || FamilyOf(c.tool) == SqlFamily)
    requires e in Script(c, allowed) && e.Counted?
    ensures e == Counted(c.tool, c.tool == SqlExecute ==> c.env.statementAllowed)
  {
    hide Resolve, RunTool, PreviewReads, ValidationReads, ExecuteConnectorWrite, RejectionOf, Writer, GroupOf;
    PartsArePlain(c.tool, map[], c.env, c.args.payload);
    var inner := if c.tool == SqlExecute then Part([], c.env.statementAllowed) else Part(PreviewReads(c.tool, c.args.payload, c.env), true);
    assert e in RunTool(c.tool, allowed, inner).emitted;
    RunCountsOnce(c.tool, allowed, inner, e);
  }
}
