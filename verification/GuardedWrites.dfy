/**
  What a call of a writing tool does to the world, in order: audit records,
  requests to the upstream and tool-call counts.
 */
module GuardedWrites {
  import opened Prelude
  import opened PyText
  import opened JsonValue
  import CT = ConnectorTransform
  import ConnectorPayload
  import JsonText
  import ErrorCodes
  import ReadBack

  datatype Tool =
    | CreateInput | AlterInput | DeleteInput
    | CreateOutput | AlterOutput | DeleteOutput
    | CreateTable | AlterTable | DeleteTables | TestTransformSteps
    | ConfigureTopic | DeleteTopic
    | ManageService | SqlExecute
    | RegisterPackage | ClonePackage | RevertPackage

  datatype Family = ConnectorFamily | ServiceFamily | SqlFamily | PackageFamily

  function FamilyOf(t: Tool): Family {
    match t
    case ManageService => ServiceFamily
    case SqlExecute => SqlFamily
    case RegisterPackage => PackageFamily
    case ClonePackage => PackageFamily
    case RevertPackage => PackageFamily
    case _ => ConnectorFamily
  }

  /** The tool group that the policy must allow. */
  function GroupOf(t: Tool): string {
    match FamilyOf(t)
    case ConnectorFamily => "connector"
    case ServiceFamily => "admin"
    case SqlFamily => "write"
    case PackageFamily => "write"
  }

  /** The tools whose payload is compiled as a connector payload. */
  function ActionOf(t: Tool): Option<CT.Action> {
    match t
    case CreateInput => Some(CT.CreateInput)
    case AlterInput => Some(CT.AlterInput)
    case DeleteInput => Some(CT.DeleteInput)
    case CreateOutput => Some(CT.CreateOutput)
    case AlterOutput => Some(CT.AlterOutput)
    case DeleteOutput => Some(CT.DeleteOutput)
    case _ => None
  }

  /** The tools that read back what they wrote. */
  function TargetOf(t: Tool): Option<ReadBack.Target> {
    match t
    case AlterInput => Some(ReadBack.InputTarget)
    case AlterTable => Some(ReadBack.TableTarget)
    case ConfigureTopic => Some(ReadBack.TopicTarget)
    case _ => None
  }

  /** The tools that record a rejected call as a result. */
  predicate LogsRejections(t: Tool) {
    match FamilyOf(t)
    case ConnectorFamily => t != DeleteInput && t != CreateOutput && t != AlterOutput && t != DeleteOutput
    case PackageFamily => t == RegisterPackage
    case _ => false
  }

  datatype Args = Args(payload: Option<Fields>, confirm: bool, dryRun: bool)

  /** How the write request ends; a returned value is the upstream's reply. */
  datatype WriteAnswer = WriteRaises | WriteReturns(reply: JsonText.Doc)

  /**
    What the call does not decide itself: the registered services, whether SQL or code
    passes its own checks, the answer to the write and how often it is posted, and the
    descriptions and clock readings of the read-back.
   */
  datatype Env = Env(
    registry: set<string>, wellFormed: bool, statementAllowed: bool,
    answer: WriteAnswer, posts: nat,
    replies: nat -> ReadBack.Reply, clock: nat -> int, start: int)

  // -------------------------------------------------------------------- emissions

  datatype Outcome = Succeeded | Failed | Rejected | Previewed

  datatype Entry =
    | Attempt(tool: Tool, dryRun: bool, confirm: bool)
    | Result(tool: Tool, outcome: Outcome)
    | PolicyDenial(tool: Tool, group: string)

  /** Requests: two kinds of reads, and posts of a write. */
  datatype Sent = Lookup | Describe | Write(tool: Tool, payload: Fields)

  datatype Emission = Audit(entry: Entry) | Upstream(sent: Sent) | Counted(tool: Tool, ok: bool)

  /** A part of a call: what it emits, and whether it returns or raises. */
  datatype Part = Part(emitted: seq<Emission>, returned: bool)

  function Repeat(e: Emission, n: nat): (r: seq<Emission>)
    ensures |r| == n && forall i :: 0 <= i < n ==> r[i] == e
  {
    seq(n, _ => e)
  }

  // -------------------------------------------------------------------- validation

  predicate HasText(p: Fields, key: string) {
    IsText(Field(p, key))
  }

  predicate HasTableNames(p: Fields) {
    var names := Field(p, "tableNames");
    names.Arr? && exists i :: 0 <= i < |names.items| && IsText(names.items[i])
  }

  predicate IsTestScope(v: Json) {
    v.Str? && v.s in {"allRecords", "stop", "firstRecord", "lastRecord", "specificRecords"}
  }

  /**
    The scope is looked up in a set, which fails on a list or an object with an error that is
    no validation failure: the call raises and nothing records it.
   */
  predicate Crashes(t: Tool, payload: Option<Fields>) {
    && t == TestTransformSteps && payload.Some? && HasText(payload.value, "tableName")
    && var scope := Field(payload.value, "testTransformScope");
       scope.Arr? || scope.Obj?
  }

  predicate RecordsRejection(t: Tool, payload: Option<Fields>) {
    LogsRejections(t) && !Crashes(t, payload)
  }

  predicate IsCommand(v: Json) {
    IsText(v) && Lower(Strip(v.s)) in {"pause", "resume", "restart", "shutdown", "startup"}
  }

  /** `_validate_manage_service_payload` */
  function ServicePayload(p: Fields): Option<Fields> {
    if HasText(p, "serviceName") && p.Keys <= {"serviceName", "command"} && IsCommand(Field(p, "command")) then
      Some(map["serviceName" := Str(Strip(p["serviceName"].s)), "command" := Str(Lower(Strip(p["command"].s)))])
    else None
  }

  /** The payload that a call works with, if it passes validation. */
  function Resolve(t: Tool, payload: Option<Fields>, env: Env): Option<Fields> {
    match ActionOf(t)
    case Some(a) =>
      if ConnectorPayload.Accepts(a, payload, env.registry) then Some(ConnectorPayload.Compiled(a, payload.value)) else None
    case None =>
      if FamilyOf(t) == SqlFamily || FamilyOf(t) == PackageFamily then
        if env.wellFormed then Some(if payload.Some? then payload.value else map[]) else None
      else if payload.None? || payload.value == map[] then None
      else ResolveFields(t, payload.value)
  }

  function ResolveFields(t: Tool, p: Fields): Option<Fields> {
    match t
    case ManageService => ServicePayload(p)
    case DeleteTables => if HasTableNames(p) then Some(p) else None
    case ConfigureTopic =>
      if HasText(p, "topic") && HasText(p, "tableName") && HasText(p, "databaseName") then Some(p) else None
    case DeleteTopic => if HasText(p, "topic") then Some(p) else None
    case TestTransformSteps =>
      if HasText(p, "tableName") && IsTestScope(Field(p, "testTransformScope")) then Some(p) else None
    case _ => if HasText(p, "tableName") then Some(p) else None
  }

  /** Checking the schema of a connector definition asks the upstream for its services. */
  function LookupFor(a: CT.Action, p: Fields): seq<Emission> {
    if CT.Defines(a) && p != map[] && HasText(p, "serviceName") then [Upstream(Lookup)] else []
  }

  /** The reads of validating a payload. */
  function ValidationReads(t: Tool, payload: Option<Fields>): seq<Emission> {
    match ActionOf(t)
    case None => []
    case Some(a) =>
      if payload.Some? && payload.value != map[] && ConnectorPayload.HasName(a, payload.value) then
        LookupFor(a, ConnectorPayload.Compiled(a, payload.value))
      else []
  }

  /** A preview validates, then checks the schema once more: of the compiled payload, or of the refused one. */
  function PreviewReads(t: Tool, payload: Option<Fields>, env: Env): seq<Emission> {
    match ActionOf(t)
    case None => []
    case Some(a) =>
      ValidationReads(t, payload) +
      if ConnectorPayload.Accepts(a, payload, env.registry) then LookupFor(a, ConnectorPayload.Compiled(a, payload.value))
      else if payload.Some? then LookupFor(a, payload.value)
      else []
  }

  // ------------------------------------------------------------------ parts of a call

  /** `_run_tool`: the policy, then the action, then one count. */
  function RunTool(t: Tool, allowed: set<string>, inner: Part): Part {
    if GroupOf(t) !in allowed then Part([Audit(PolicyDenial(t, GroupOf(t)))], false)
    else Part(inner.emitted + [Counted(t, inner.returned)], inner.returned)
  }

  function PostedPayload(t: Tool, resolved: Fields): Fields {
    match ActionOf(t)
    case Some(a) => ConnectorPayload.Posted(a, resolved)
    case None => resolved
  }

  /** The request itself. */
  function Writer(t: Tool, resolved: Fields, env: Env): Part {
    if t == SqlExecute && !env.statementAllowed then Part([], false)
    else
      Part(
        (if t == RegisterPackage then [Upstream(Describe)] else []) +
        Repeat(Upstream(Write(t, PostedPayload(t, resolved))), env.posts),
        env.answer.WriteReturns?)
  }

  /** The reply without its tokens. */
  function Redact(d: JsonText.Doc): JsonText.Doc
    decreases d
  {
    match d
    case DList(items) => JsonText.DList(seq(|items|, i requires 0 <= i < |items| => Redact(items[i])))
    case DDict(members) => JsonText.DDict(RedactMembers(d, 0))
    case _ => d
  }

  predicate IsTokenKey(key: Text) {
    WordAt(key, 0, T("authtoken")) && |key| == 9
  }

  function RedactMembers(d: JsonText.Doc, from: nat): seq<JsonText.Member>
    requires d.DDict? && from <= |d.members|
    decreases d, |d.members| - from
  {
    if from == |d.members| then []
    else
      var m := d.members[from];
      assert m in d.members && m.value < m && m < d;
      (if IsTokenKey(m.key) then [] else [JsonText.Member(m.key, Redact(m.value))]) + RedactMembers(d, from + 1)
  }

  /** A reply that carries an error code of its own. */
  predicate CarriesError(d: JsonText.Doc) {
    && d.DDict?
    && var code := ErrorCodes.CoerceErrorCode(JsonText.Get(d.members, T("errorCode")));
    code.Some? && code.value != 0
  }

  /** The read-back of a tool that has one. */
  function Verification(t: Tool, resolved: Fields, env: Env): Part {
    match TargetOf(t)
    case None => Part([], true)
    case Some(target) =>
      match ReadBack.OutcomeOf(target, resolved, env.replies, env.clock, env.start)
      case Skip(_) => Part([], true)
      case Polled(end, attempts) => Part(Repeat(Upstream(Describe), attempts), end.Confirmed?)
  }

  /** `_execute_connector_write`: the writer once, then the check and the read-back, then one result. */
  function ExecuteConnectorWrite(t: Tool, resolved: Fields, env: Env, allowed: set<string>): Part {
    var writer := RunTool(t, allowed, Writer(t, resolved, env));
    if !writer.returned || CarriesError(Redact(env.answer.reply)) then
      Part(writer.emitted + [Audit(Result(t, Failed))], false)
    else
      var verification := Verification(t, resolved, env);
      Part(
        writer.emitted + verification.emitted + [Audit(Result(t, if verification.returned then Succeeded else Failed))],
        verification.returned)
  }

  /** `_execute_code_package_write` */
  function ExecutePackageWrite(t: Tool, resolved: Fields, env: Env, allowed: set<string>): Part {
    var writer := RunTool(t, allowed, Writer(t, resolved, env));
    Part(writer.emitted + [Audit(Result(t, if writer.returned then Succeeded else Failed))], writer.returned)
  }

  // ------------------------------------------------------------------------- the calls

  function RejectionOf(t: Tool, payload: Option<Fields>): Part {
    Part(if RecordsRejection(t, payload) then [Audit(Result(t, Rejected))] else [], false)
  }

  function Then(first: seq<Emission>, rest: Part): Part {
    Part(first + rest.emitted, rest.returned)
  }

  function AttemptOf(t: Tool, args: Args): seq<Emission> {
    [Audit(Attempt(t, args.dryRun, args.confirm))]
  }

  /** The twelve connector, table and topic tools. */
  function ConnectorCall(t: Tool, args: Args, env: Env, allowed: set<string>): Part {
    var resolved := Resolve(t, args.payload, env);
    Then(AttemptOf(t, args),
      if args.dryRun then RunTool(t, allowed, Part(PreviewReads(t, args.payload, env), true))
      else
        Then(ValidationReads(t, args.payload),
          if resolved.None? || !args.confirm then RejectionOf(t, args.payload)
          else ExecuteConnectorWrite(t, resolved.value, env, allowed)))
  }

  /** `manage_service`: nothing is recorded; a preview validates first. */
  function ServiceCall(t: Tool, args: Args, env: Env, allowed: set<string>): Part {
    var resolved := Resolve(t, args.payload, env);
    if resolved.None? then Part([], false)
    else if args.dryRun then Part([], true)
    else if !args.confirm then Part([], false)
    else RunTool(t, allowed, Writer(t, resolved.value, env))
  }

  /** `sql_execute`: the attempt is recorded once the statement has a valid shape. */
  function SqlCall(t: Tool, args: Args, env: Env, allowed: set<string>): Part {
    var resolved := Resolve(t, args.payload, env);
    if resolved.None? then Part([], false)
    else
      Then(AttemptOf(t, args),
        if args.dryRun then RunTool(t, allowed, Part([], env.statementAllowed))
        else if !args.confirm then Part([], false)
        else RunTool(t, allowed, Writer(t, resolved.value, env)))
  }

  /** `register_code_package` validates before a preview and records it; the other two preview unchecked. */
  function PackageCall(t: Tool, args: Args, env: Env, allowed: set<string>): Part {
    var resolved := Resolve(t, args.payload, env);
    Then(AttemptOf(t, args),
      if args.dryRun && t != RegisterPackage then Part([], true)
      else if resolved.None? then RejectionOf(t, args.payload)
      else if args.dryRun then Part([Audit(Result(t, Previewed))], true)
      else if !args.confirm then RejectionOf(t, args.payload)
      else ExecutePackageWrite(t, resolved.value, env, allowed))
  }

  function CallOf(t: Tool, args: Args, env: Env, allowed: set<string>): Part {
    match FamilyOf(t)
    case ConnectorFamily => ConnectorCall(t, args, env, allowed)
    case ServiceFamily => ServiceCall(t, args, env, allowed)
    case SqlFamily => SqlCall(t, args, env, allowed)
    case PackageFamily => PackageCall(t, args, env, allowed)
  }

  /** A writer that returns has a reply. */
  lemma WriterReturns(t: Tool, resolved: Fields, env: Env, allowed: set<string>)
    ensures RunTool(t, allowed, Writer(t, resolved, env)).returned ==> env.answer.WriteReturns?
  {
  }

  // ---------------------------------------------------------- the check of the reply

  lemma RedactKeepsLeaves(d: JsonText.Doc)
    ensures ErrorCodes.CoerceErrorCode(Redact(d)) == ErrorCodes.CoerceErrorCode(d)
  {
  }

  lemma {:induction false} GetRedacted(d: JsonText.Doc, from: nat, key: Text)
    requires d.DDict? && from <= |d.members| && !IsTokenKey(key)
    ensures JsonText.Get(RedactMembers(d, from), key) == Redact(JsonText.Get(d.members[from..], key))
    decreases |d.members| - from
  {
    hide IsTokenKey;
    if from < |d.members| {
      var m, rest := d.members[from], d.members[from..];
      GetRedacted(d, from + 1, key);
      assert rest[0] == m && rest[1..] == d.members[from + 1..];
      var tail := RedactMembers(d, from + 1);
      if !IsTokenKey(m.key) {
        var redacted := [JsonText.Member(m.key, Redact(m.value))] + tail;
        assert redacted[1..] == tail;
      } else {
        assert [] + tail == tail;
      }
    }
  }

  /**
    The client has already raised on a reply with an error code, and taking the
    tokens out leaves the code as it was: the second check never fires.
   */
  lemma SecondCheckNeverFires(reply: JsonText.Doc)
    requires ErrorCodes.ApiError(reply).None?
    ensures !CarriesError(Redact(reply))
  {
    hide ErrorCodes.CoerceErrorCode;
    if reply.DDict? {
      var key := T("errorCode");
      assert !IsTokenKey(key) by { assert key[0] == 0x65 && T("authtoken")[0] == 0x61; }
      GetRedacted(reply, 0, key);
      assert reply.members[0..] == reply.members;
      RedactKeepsLeaves(JsonText.Get(reply.members, key));
    }
  }
}
