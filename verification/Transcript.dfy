// The chat transcript ontrak-genie/src/agent.ts keeps, and when it is one a provider accepts.

module Transcript {
  datatype ToolCall = ToolCall(id: string, name: string, arguments: string)

  datatype Message =
    | User(text: string)
    | Assistant(content: string, calls: seq<ToolCall>)
    | Tool(callId: string, name: string, result: string)

  // Exactly one tool message per call, in order and with matching ids.
  ghost predicate Answers(calls: seq<ToolCall>, replies: seq<Message>) {
    && |replies| == |calls|
    && forall i :: 0 <= i < |calls| ==> replies[i].Tool? && replies[i].callId == calls[i].id
  }

  // Each assistant message with tool calls is followed at once by the answers to exactly
  // those calls, and no tool message stands anywhere else.
  ghost predicate WellFormed(ms: seq<Message>)
    decreases |ms|
  {
    if ms == [] then true
    else match ms[0]
      case User(_) => WellFormed(ms[1..])
      case Tool(_, _, _) => false
      case Assistant(_, calls) =>
        |calls| < |ms| && Answers(calls, ms[1..1 + |calls|]) && WellFormed(ms[1 + |calls|..])
  }

  // The first message and its answers, and the rest.
  lemma {:induction false} WellFormedFirst(ms: seq<Message>, n: nat)
    requires ms != [] && n == if ms[0].Assistant? then 1 + |ms[0].calls| else 1
    ensures WellFormed(ms) <==>
            && n <= |ms| && WellFormed(ms[n..])
            && match ms[0] case User(_) => true
                           case Tool(_, _, _) => false
                           case Assistant(_, calls) => Answers(calls, ms[1..n])
  {
    hide Answers;
  }

  lemma {:induction false} WellFormedConcat(a: seq<Message>, b: seq<Message>)
    requires WellFormed(a) && WellFormed(b)
    ensures WellFormed(a + b)
    decreases |a|
  {
    if a == [] {
      assert a + b == b;
    } else {
      hide Answers;
      var n := if a[0].Assistant? then 1 + |a[0].calls| else 1;
      WellFormedFirst(a, n);
      WellFormedConcat(a[n..], b);
      assert (a + b)[0] == a[0] && (a + b)[n..] == a[n..] + b && (a + b)[1..n] == a[1..n];
      hide WellFormed;
      WellFormedFirst(a + b, n);
    }
  }

  lemma {:induction false} AppendPlain(ms: seq<Message>, m: Message)
    requires WellFormed(ms) && (m.User? || (m.Assistant? && m.calls == []))
    ensures WellFormed(ms + [m])
  {
    assert [m][1..] == [];
    assert m.Assistant? ==> Answers([], [m][1..1]);
    WellFormedConcat(ms, [m]);
  }

  lemma {:induction false} AppendExchange(ms: seq<Message>, content: string, calls: seq<ToolCall>,
                                          replies: seq<Message>)
    requires WellFormed(ms) && Answers(calls, replies)
    ensures WellFormed(ms + [Assistant(content, calls)] + replies)
  {
    var turn := [Assistant(content, calls)] + replies;
    assert turn[1..1 + |calls|] == replies && turn[1 + |calls|..] == [];
    WellFormedConcat(ms, turn);
    assert ms + [Assistant(content, calls)] + replies == ms + turn;
  }

  // ---- The stuck-loop counter ----

  // How many times in a row the last entry was repeated.
  function RunLength(xs: seq<string>): nat {
    if xs == [] then 0
    else if |xs| == 1 || xs[|xs| - 2] != xs[|xs| - 1] then 1
    else 1 + RunLength(xs[..|xs| - 1])
  }

  // It is the length of the longest suffix of equal entries.
  lemma {:induction false} RunLengthIsLongest(xs: seq<string>)
    ensures var n := RunLength(xs);
            && n <= |xs| && (xs != [] ==> n >= 1)
            && (forall i :: |xs| - n <= i < |xs| ==> xs[i] == xs[|xs| - 1])
            && (n < |xs| ==> xs[|xs| - n - 1] != xs[|xs| - 1])
  {
    if |xs| > 1 && xs[|xs| - 2] == xs[|xs| - 1] {
      RunLengthIsLongest(xs[..|xs| - 1]);
    }
  }

  lemma {:induction false} RunLengthStep(xs: seq<string>, x: string)
    ensures RunLength(xs + [x]) == if xs != [] && xs[|xs| - 1] == x then RunLength(xs) + 1 else 1
  {
    assert (xs + [x])[..|xs|] == xs;
  }
}
