/** The append-only audit log and the counters behind the tools. */
module Observability {

  class AuditLog<E> {
    var events: seq<E>

    constructor ()
      ensures events == []
    {
      events := [];
    }

    method Record(e: E)
      modifies this
      ensures events == old(events) + [e]
    {
      events := events + [e];
    }

    /** A copy: what is recorded later is not in it. */
    method Snapshot() returns (copy: seq<E>)
      ensures copy == events
    {
      copy := events;
    }
  }

  /** How often `key` was counted. */
  function CountOf<K(==)>(counts: map<K, nat>, key: K): nat {
    if key in counts then counts[key] else 0
  }

  class RuntimeMetrics<K(==,!new)> {
    var toolCalls: map<K, nat>

    constructor ()
      ensures toolCalls == map[]
    {
      toolCalls := map[];
    }

    method RecordToolCall(key: K)
      modifies this
      ensures CountOf(toolCalls, key) == old(CountOf(toolCalls, key)) + 1
      ensures forall other :: other != key ==> CountOf(toolCalls, other) == old(CountOf(toolCalls, other))
    {
      toolCalls := toolCalls[key := CountOf(toolCalls, key) + 1];
    }
  }
}
