/**
  What can be seen of a call afterwards: its audit records, its requests and its counts.
 */
module CallRecords {
  import opened Prelude
  import opened JsonValue
  import opened GuardedWrites
  import opened WriteCalls
  import opened PostedPayloads
  import Observability

  /** The audit records of a timeline. */
  function AuditOf(timeline: seq<Emission>): seq<Entry> {
    if timeline == [] then []
    else
      var last := timeline[|timeline| - 1];
      AuditOf(timeline[..|timeline| - 1]) + (if last.Audit? then [last.entry] else [])
  }

  /** Its requests. */
  function TraceOf(timeline: seq<Emission>): seq<Sent> {
    if timeline == [] then []
    else
      var last := timeline[|timeline| - 1];
      TraceOf(timeline[..|timeline| - 1]) + (if last.Upstream? then [last.sent] else [])
  }

  type Counter = (Tool, bool)

  /** How often it counts a tool with a status. */
  function CountIn(timeline: seq<Emission>, key: Counter): nat {
    if timeline == [] then 0
    else
      var last := timeline[|timeline| - 1];
      CountIn(timeline[..|timeline| - 1], key) + (if last == Counted(key.0, key.1) then 1 else 0)
  }

  lemma OneMore(timeline: seq<Emission>, e: Emission)
    ensures AuditOf(timeline + [e]) == AuditOf(timeline) + (if e.Audit? then [e.entry] else [])
    ensures TraceOf(timeline + [e]) == TraceOf(timeline) + (if e.Upstream? then [e.sent] else [])
    ensures forall key :: CountIn(timeline + [e], key) == CountIn(timeline, key) + (if e == Counted(key.0, key.1) then 1 else 0)
  {
    assert (timeline + [e])[..|timeline|] == timeline;
  }

  /** A timeline is seen part by part. */
  lemma {:induction false} SeenInParts(a: seq<Emission>, b: seq<Emission>)
    ensures AuditOf(a + b) == AuditOf(a) + AuditOf(b)
    ensures TraceOf(a + b) == TraceOf(a) + TraceOf(b)
    ensures forall key :: CountIn(a + b, key) == CountIn(a, key) + CountIn(b, key)
    decreases |b|
  {
    if b == [] {
      assert a + b == a;
    } else {
      var front, last := b[..|b| - 1], b[|b| - 1];
      SeenInParts(a, front);
      OneMore(a + front, last);
      OneMore(front, last);
      assert front + [last] == b && (a + front) + [last] == a + b;
      hide AuditOf, TraceOf, CountIn;
    }
  }

  /** Exactly what is emitted is seen. */
  lemma {:induction false} SeenExactly(emitted: seq<Emission>)
    ensures forall r :: r in AuditOf(emitted) <==> Audit(r) in emitted
    ensures forall s :: s in TraceOf(emitted) <==> Upstream(s) in emitted
    decreases |emitted|
  {
    if emitted != [] {
      var front, last := emitted[..|emitted| - 1], emitted[|emitted| - 1];
      SeenExactly(front);
      assert emitted == front + [last];
    }
  }

  // -------------------------------------------------------------------------- requests

  function WritesIn(sent: seq<Sent>): nat {
    if sent == [] then 0 else WritesIn(sent[..|sent| - 1]) + (if sent[|sent| - 1].Write? then 1 else 0)
  }

  lemma {:induction false} WritesAreSeen(emitted: seq<Emission>)
    ensures WritesIn(TraceOf(emitted)) == CountIf(emitted, IsWrite)
    decreases |emitted|
  {
    if emitted != [] {
      var front, last := emitted[..|emitted| - 1], emitted[|emitted| - 1];
      WritesAreSeen(front);
      assert front + [last] == emitted;
      OneMore(front, last);
      assert TraceOf(front) + [] == TraceOf(front);
      hide TraceOf;
      if last.Upstream? {
        assert (TraceOf(front) + [last.sent])[..|TraceOf(front)|] == TraceOf(front);
      }
    }
  }

  /**
    The requests of a call: its write as often as the client posts it if the call may write,
    each time confirmed, allowed, valid and with what the call was given; and nothing but
    questions about the registered services unless it is about to write.
   */
  ghost predicate SendsOnlyItsWrite(c: Call, allowed: set<string>, sent: seq<Sent>) {
    && WritesIn(sent) == (if MayWrite(c, allowed) then c.env.posts else 0)
    && (forall s :: s in sent && s.Write? ==> Authorized(c, allowed, s) && Carries(c, s.payload))
    && (!IsMeant(c) ==> forall s :: s in sent ==> s == Lookup)
  }

  lemma RequestsAreSeen(c: Call, allowed: set<string>)
    ensures SendsOnlyItsWrite(c, allowed, TraceOf(Script(c, allowed)))
  {
    hide Script, Authorized, Carries, MayWrite, CountIf, TraceOf, WritesIn;
    var emitted := Script(c, allowed);
    WritesAreSeen(emitted);
    WritesExactly(c, allowed);
    SeenExactly(emitted);
    forall s | s in TraceOf(emitted) && s.Write? ensures Authorized(c, allowed, s) && Carries(c, s.payload) {
      ScriptedWritesAreAuthorized(c, allowed, Upstream(s));
      WritesCarry(c, allowed, Upstream(s));
    }
    if !IsMeant(c) {
      UnconfirmedOnlyLooksUp(c, allowed);
      assert forall s :: s in TraceOf(emitted) ==> Upstream(s) in emitted && Upstream(s).sent == s;
    }
  }

  // ---------------------------------------------------------------------------- records

  /** One attempt, as the first record, and a result only as the last. */
  predicate AttemptFirst(c: Call, records: seq<Entry>) {
    && records != [] && records[0] == Attempt(c.tool, c.args.dryRun, c.args.confirm)
    && (forall k :: 0 < k < |records| ==> !records[k].Attempt?)
    && (forall k :: 0 <= k < |records| - 1 ==> !records[k].Result?)
  }

  /** A rejection that is recorded. */
  predicate IsRejected(c: Call) {
    && RecordsRejection(c.tool, c.args.payload)
    && if c.args.dryRun then c.tool == RegisterPackage && Resolve(c.tool, c.args.payload, c.env).None? else !IsMeant(c)
  }

  /** The outcome is recorded as it was. */
  predicate TellsOutcome(c: Call, records: seq<Entry>, returned: bool) {
    && (Result(c.tool, Succeeded) in records <==> returned && !c.args.dryRun)
    && (Result(c.tool, Failed) in records <==> !returned && IsMeant(c))
    && (Result(c.tool, Rejected) in records <==> IsRejected(c))
    && (Result(c.tool, Previewed) in records <==> returned && c.args.dryRun && c.tool == RegisterPackage)
  }

  lemma {:induction false} UnpairedRecords(middle: seq<Emission>)
    requires Unpaired(middle)
    ensures forall r :: r in AuditOf(middle) ==> !r.Attempt? && !r.Result?
  {
    SeenExactly(middle);
  }

  lemma RecordSeen(r: Entry)
    ensures AuditOf([Audit(r)]) == [r] && AuditOf([]) == []
  {
    assert [Audit(r)][..0] == [];
  }

  /** An attempt, neither attempts nor results, and at most one result. */
  lemma ShapeIsSeen(c: Call, middle: seq<Emission>, tail: seq<Emission>)
    requires Unpaired(middle)
    requires tail == [] || exists o :: tail == [Audit(Result(c.tool, o))]
    ensures var records := AuditOf(AttemptOf(c.tool, c.args) + middle + tail);
      AttemptFirst(c, records) && forall o :: Result(c.tool, o) in records <==> tail == [Audit(Result(c.tool, o))]
  {
    hide AuditOf;
    SeenInParts(AttemptOf(c.tool, c.args) + middle, tail);
    SeenInParts(AttemptOf(c.tool, c.args), middle);
    RecordSeen(Attempt(c.tool, c.args.dryRun, c.args.confirm));
    UnpairedRecords(middle);
    if tail != [] {
      var o :| tail == [Audit(Result(c.tool, o))];
      RecordSeen(Result(c.tool, o));
    }
  }

  lemma ConnectorIsSeen(c: Call, allowed: set<string>)
    requires FamilyOf(c.tool) == ConnectorFamily
    ensures AttemptFirst(c, AuditOf(Script(c, allowed)))
    ensures TellsOutcome(c, AuditOf(Script(c, allowed)), CallOf(c.tool, c.args, c.env, allowed).returned)
  {
    hide Script, AuditOf, CallOf, Resolve, RecordsRejection, MayWrite, ReadBackHolds, AttemptFirst, Unpaired;
    var middle := ConnectorShape(c, allowed);
    ShapeIsSeen(c, middle, Tail(c, allowed));
    if !c.args.dryRun && CallOf(c.tool, c.args, c.env, allowed).returned { MeantIfReturned(c, allowed); }
  }

  lemma MeantIfReturned(c: Call, allowed: set<string>)
    requires !c.args.dryRun && CallOf(c.tool, c.args, c.env, allowed).returned
    ensures IsMeant(c)
  {
    hide CallOf, Resolve, ReadBackHolds;
    ReturnsExactly(c, allowed);
  }

  /** How a package call ends: as the first result of its kind, or with none. */
  predicate EndsPackage(c: Call, returned: bool, tail: seq<Emission>) {
    if IsMeant(c) then tail == [Audit(Result(c.tool, if returned then Succeeded else Failed))]
    else if IsRejected(c) then tail == [Audit(Result(c.tool, Rejected))] && !returned
    else if c.args.dryRun && c.tool == RegisterPackage then tail == [Audit(Result(c.tool, Previewed))] && returned
    else tail == [] && (returned ==> c.args.dryRun)
  }

  lemma PackageShape(c: Call, allowed: set<string>) returns (middle: seq<Emission>, tail: seq<Emission>)
    requires FamilyOf(c.tool) == PackageFamily
    ensures Script(c, allowed) == AttemptOf(c.tool, c.args) + middle + tail && Unpaired(middle)
    ensures EndsPackage(c, CallOf(c.tool, c.args, c.env, allowed).returned, tail)
  {
    hide Resolve, Writer, RunTool, Unpaired, AttemptOf, FamilyOf, LogsRejections, RejectionOf, IsRejected;
    var first, resolved := AttemptOf(c.tool, c.args), Resolve(c.tool, c.args.payload, c.env);
    CallOfPackage(c.tool, c.args, c.env, allowed);
    RejectedExactly(c);
    NothingIsUnpaired();
    assert first + [] == first;
    if IsMeant(c) {
      WriterIsUnpaired(c.tool, resolved.value, c.env, allowed);
      var writer := RunTool(c.tool, allowed, Writer(c.tool, resolved.value, c.env));
      middle, tail := writer.emitted, [Audit(Result(c.tool, if writer.returned then Succeeded else Failed))];
      assert first + (middle + tail) == first + middle + tail;
    } else {
      middle := [];
      tail := if c.args.dryRun && c.tool != RegisterPackage then []
              else if c.args.dryRun && resolved.Some? then [Audit(Result(c.tool, Previewed))]
              else RejectionOf(c.tool, c.args.payload).emitted;
    }
  }

  lemma RejectedExactly(c: Call)
    requires FamilyOf(c.tool) == PackageFamily
    ensures var rejection := RejectionOf(c.tool, c.args.payload);
      && !rejection.returned
      && rejection.emitted == (if c.tool == RegisterPackage then [Audit(Result(c.tool, Rejected))] else [])
    ensures IsRejected(c) <==>
      c.tool == RegisterPackage && if c.args.dryRun then Resolve(c.tool, c.args.payload, c.env).None? else !IsMeant(c)
  {
    hide Resolve;
  }

  lemma CallOfPackage(t: Tool, args: Args, env: Env, allowed: set<string>)
    requires FamilyOf(t) == PackageFamily
    ensures CallOf(t, args, env, allowed) == PackageCall(t, args, env, allowed)
  {
    hide PackageCall;
  }

  lemma NothingIsUnpaired()
    ensures Unpaired([])
  {
  }

  lemma PackageIsSeen(c: Call, allowed: set<string>)
    requires FamilyOf(c.tool) == PackageFamily
    ensures AttemptFirst(c, AuditOf(Script(c, allowed)))
    ensures TellsOutcome(c, AuditOf(Script(c, allowed)), CallOf(c.tool, c.args, c.env, allowed).returned)
  {
    hide Script, AuditOf, CallOf, Resolve, RecordsRejection, MayWrite, AttemptFirst, Unpaired;
    var middle, tail := PackageShape(c, allowed);
    ShapeIsSeen(c, middle, tail);
  }

  /** A denial, if the call got as far as running its tool and the policy does not allow its group. */
  function Denial(c: Call, allowed: set<string>): seq<Entry> {
    if Enters(c) && GroupOf(c.tool) !in allowed then [PolicyDenial(c.tool, GroupOf(c.tool))] else []
  }

  /** What a tool records while it runs. */
  lemma RunIsSeen(t: Tool, allowed: set<string>, inner: Part)
    requires forall e :: e in inner.emitted ==> !e.Audit?
    ensures AuditOf(RunTool(t, allowed, inner).emitted) == if GroupOf(t) in allowed then [] else [PolicyDenial(t, GroupOf(t))]
  {
    hide GroupOf;
    var counted := [Counted(t, inner.returned)];
    SeenExactly(inner.emitted);
    SeenExactly(counted);
    RecordSeen(PolicyDenial(t, GroupOf(t)));
    SeenInParts(inner.emitted, counted);
    NoneIsEmpty(AuditOf(inner.emitted));
    NoneIsEmpty(AuditOf(counted));
    hide AuditOf;
  }

  lemma NoneIsEmpty(records: seq<Entry>)
    ensures (forall r :: r !in records) ==> records == []
  {
    if records != [] { assert records[0] in records; }
  }

  lemma WriterIsUnrecorded(t: Tool, resolved: Fields, env: Env)
    ensures forall e :: e in Writer(t, resolved, env).emitted ==> !e.Audit?
  {
    hide PostedPayload;
  }

  /** `manage_service` records a denial or nothing. */
  lemma ServiceIsSeen(c: Call, allowed: set<string>)
    requires c.tool == ManageService
    ensures AuditOf(Script(c, allowed)) == Denial(c, allowed)
  {
    hide Resolve, RunTool, Writer, GroupOf;
    var resolved := Resolve(c.tool, c.args.payload, c.env);
    if IsMeant(c) {
      WriterIsUnrecorded(c.tool, resolved.value, c.env);
      RunIsSeen(c.tool, allowed, Writer(c.tool, resolved.value, c.env));
    }
  }

  /** `sql_execute` records its attempt once the statement has a valid shape, then a denial or nothing. */
  lemma SqlIsSeen(c: Call, allowed: set<string>)
    requires c.tool == SqlExecute
    ensures AuditOf(Script(c, allowed)) ==
      if Resolve(c.tool, c.args.payload, c.env).None? then []
      else [Attempt(c.tool, c.args.dryRun, c.args.confirm)] + Denial(c, allowed)
  {
    hide Resolve, RunTool, Writer, GroupOf;
    var resolved := Resolve(c.tool, c.args.payload, c.env);
    if resolved.Some? {
      var inner := if c.args.dryRun then Part([], c.env.statementAllowed) else Writer(c.tool, resolved.value, c.env);
      WriterIsUnrecorded(c.tool, resolved.value, c.env);
      RunIsSeen(c.tool, allowed, inner);
      RecordSeen(Attempt(c.tool, c.args.dryRun, c.args.confirm));
      SeenInParts(AttemptOf(c.tool, c.args), RunTool(c.tool, allowed, inner).emitted);
      SeenInParts(AttemptOf(c.tool, c.args), []);
      hide AuditOf;
    }
  }

  // ----------------------------------------------------------------------------- counts

  type Counters = map<Counter, nat>

  /** The tool is counted once, as a success or not, if the call runs and its group is allowed; nothing else is counted. */
  ghost predicate CountsOnce(c: Call, allowed: set<string>, before: Counters, after: Counters) {
    forall key: Counter :: Observability.CountOf(after, key) == Observability.CountOf(before, key) +
      if key == (c.tool, CountsAsSuccess(c)) && Enters(c) && IsPermitted(c.tool, allowed) then 1 else 0
  }

  lemma {:induction false} CountsAreSeen(emitted: seq<Emission>, t: Tool, ok: bool)
    requires forall e :: e in emitted && e.Counted? ==> e == Counted(t, ok)
    ensures forall key: Counter :: CountIn(emitted, key) == if key == (t, ok) then CountIf(emitted, IsCounted) else 0
    decreases |emitted|
  {
    if emitted != [] {
      var front, last := emitted[..|emitted| - 1], emitted[|emitted| - 1];
      assert last in emitted;
      CountsAreSeen(front, t, ok);
    }
  }

  /** The counters of a timeline. */
  ghost predicate Tells(timeline: seq<Emission>, counters: Counters) {
    forall key :: Observability.CountOf(counters, key) == CountIn(timeline, key)
  }

  lemma CallIsCounted(c: Call, allowed: set<string>, timeline: seq<Emission>, before: Counters, after: Counters)
    requires Tells(timeline, before) && Tells(timeline + Script(c, allowed), after)
    ensures CountsOnce(c, allowed, before, after)
  {
    hide Script, Resolve, GroupOf, IsPermitted, CountsAsSuccess, Enters, CountIn, CountIf, Observability.CountOf;
    PermittedExactly(c.tool, allowed);
    forall e | e in Script(c, allowed) && e.Counted? ensures e == Counted(c.tool, CountsAsSuccess(c)) {
      CountedAs(c, allowed, e);
    }
    CountsAreSeen(Script(c, allowed), c.tool, CountsAsSuccess(c));
    CountedOrDeniedOnce(c, allowed);
    SeenInParts(timeline, Script(c, allowed));
  }
}
