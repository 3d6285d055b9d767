/** Names of a session's buffers and queues in the stream store. They share one key space. */
module QueueNames {
  function InputBufferName(sessionId: string): string { sessionId + ".input" }

  function OutputBufferName(sessionId: string): string { sessionId + ".output" }

  function IpcQueueName(sessionId: string): string { sessionId + ".ipc" }

  function RespQueueName(requestId: string): string { "req." + requestId + ".resp" }

  lemma SuffixInjective(a: string, b: string, suffix: string)
    requires a + suffix == b + suffix
    ensures a == b
  {
    assert |a| == |b|;
    assert (a + suffix)[..|a|] == a && (b + suffix)[..|b|] == b;
  }

  /** Each builder is injective, for arbitrary identifiers. */
  lemma NamesInjective(a: string, b: string)
    ensures InputBufferName(a) == InputBufferName(b) ==> a == b
    ensures OutputBufferName(a) == OutputBufferName(b) ==> a == b
    ensures IpcQueueName(a) == IpcQueueName(b) ==> a == b
    ensures RespQueueName(a) == RespQueueName(b) ==> a == b
  {
    if InputBufferName(a) == InputBufferName(b) { SuffixInjective(a, b, ".input"); }
    if OutputBufferName(a) == OutputBufferName(b) { SuffixInjective(a, b, ".output"); }
    if IpcQueueName(a) == IpcQueueName(b) { SuffixInjective(a, b, ".ipc"); }
    if RespQueueName(a) == RespQueueName(b) {
      SuffixInjective("req." + a, "req." + b, ".resp");
      assert ("req." + a)[4..] == a && ("req." + b)[4..] == b;
    }
  }

  lemma LastChars(s: string, suffix: string)
    requires |suffix| >= 4
    ensures var n := s + suffix;
            |n| >= 4 && n[|n|-1] == suffix[|suffix|-1] && n[|n|-4] == suffix[|suffix|-4]
  {
  }

  /** No name of one kind is a name of another kind, whatever the identifiers. */
  lemma NamesDisjoint(a: string, b: string)
    ensures InputBufferName(a) != OutputBufferName(b)
    ensures InputBufferName(a) != IpcQueueName(b)
    ensures InputBufferName(a) != RespQueueName(b)
    ensures OutputBufferName(a) != IpcQueueName(b)
    ensures OutputBufferName(a) != RespQueueName(b)
    ensures IpcQueueName(a) != RespQueueName(b)
  {
    LastChars(a, ".input");
    LastChars(a, ".output");
    LastChars(b, ".output");
    LastChars(a, ".ipc");
    LastChars(b, ".ipc");
    LastChars("req." + b, ".resp");
  }
}
