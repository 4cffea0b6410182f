// One turn of the agent loop of ontrak-genie/src/agent.ts: model steps, tool calls behind
// an approval gate, the stuck-loop counter, the transcript and the events.

module AgentTurn {
  import opened Strings
  import opened TextBuffer
  import opened Wrappers
  import opened Transcript
  import opened ChainWalk
  import Approval

  const STUCK_AFTER := 3

  datatype Exit = Answered | Stopped | Failed | NoResult | Stuck | OutOfSteps

  // ---- What one tool call does ----

  predicate Runs(world: World, step: nat, i: nat) {
    world.gated(step, i) ==> world.decision(step, i) == Approval.Approve
  }

  function OutcomeOfCall(world: World, step: nat, i: nat): ToolOutcome {
    if Runs(world, step, i) then world.tool(step, i)
    else ToolOutcome(false, world.refusal(world.decision(step, i)))
  }

  function Signature(call: ToolCall): string {
    call.name + ":" + call.arguments
  }

  // The turn's failed calls after one more call.
  function FailedAfter(world: World, step: nat, i: nat, call: ToolCall, failed: seq<string>): seq<string> {
    if OutcomeOfCall(world, step, i).ok then failed else failed + [Signature(call)]
  }

  // The failed calls after the first `i` calls of the step.
  function FailedBy(world: World, step: nat, calls: seq<ToolCall>, i: nat, failed: seq<string>): seq<string>
    requires i <= |calls|
  {
    if i == 0 then failed
    else FailedAfter(world, step, i - 1, calls[i - 1], FailedBy(world, step, calls, i - 1, failed))
  }

  // The reply a call leaves in the transcript; a repeated failure is nudged.
  function ReplyTo(world: World, step: nat, i: nat, call: ToolCall, failed: seq<string>): Message {
    var outcome := OutcomeOfCall(world, step, i);
    var nudged := !outcome.ok && RunLength(FailedAfter(world, step, i, call, failed)) >= 2;
    Tool(call.id, call.name, if nudged then outcome.content + world.nudge else outcome.content)
  }

  function RepliesTo(world: World, step: nat, calls: seq<ToolCall>, i: nat, failed: seq<string>): (r: seq<Message>)
    requires i <= |calls|
    ensures |r| == i
  {
    if i == 0 then []
    else RepliesTo(world, step, calls, i - 1, failed) +
         [ReplyTo(world, step, i - 1, calls[i - 1], FailedBy(world, step, calls, i - 1, failed))]
  }

  lemma {:induction false} RepliesAnswer(world: World, step: nat, calls: seq<ToolCall>, i: nat, failed: seq<string>)
    requires i <= |calls|
    ensures Answers(calls[..i], RepliesTo(world, step, calls, i, failed))
  {
    if i > 0 {
      RepliesAnswer(world, step, calls, i - 1, failed);
    }
  }

  // ---- What the calls of a step mean ----

  // Calls of one tool have the same signature exactly when they have the same arguments; so
  // have calls of any tools whose names hold no colon, if the tool is the same too.
  lemma {:induction false} SignatureTells(c: ToolCall, d: ToolCall)
    ensures c.name == d.name ==> (Signature(c) == Signature(d) <==> c.arguments == d.arguments)
    ensures ':' !in c.name && ':' !in d.name ==>
              (Signature(c) == Signature(d) <==> c.name == d.name && c.arguments == d.arguments)
  {
    assert Signature(c)[..|c.name|] == c.name && Signature(c)[|c.name| + 1..] == c.arguments;
    assert Signature(d)[..|d.name|] == d.name && Signature(d)[|d.name| + 1..] == d.arguments;
    assert Signature(c)[|c.name|] == ':' && Signature(d)[|d.name|] == ':';
    assert forall i :: 0 <= i < |c.name| ==> Signature(c)[i] == c.name[i];
    assert forall i :: 0 <= i < |d.name| ==> Signature(d)[i] == d.name[i];
  }

  // The tool's own outcome if it may run, a refusal worded after the decision otherwise; its
  // content reaches the reply, and the nudge only follows a failure that repeats the last one.
  lemma {:induction false} CallMeans(world: World, step: nat, i: nat, call: ToolCall, failed: seq<string>)
    ensures var outcome, reply := OutcomeOfCall(world, step, i), ReplyTo(world, step, i, call, failed);
            && (outcome == if world.gated(step, i) && world.decision(step, i) != Approval.Approve
                           then ToolOutcome(false, world.refusal(world.decision(step, i))) else world.tool(step, i))
            && reply == Tool(call.id, call.name,
                             if !outcome.ok && failed != [] && failed[|failed| - 1] == Signature(call)
                             then outcome.content + world.nudge else outcome.content)
    ensures ToolStarted(step, i) in CallEvents(world, step, i, call, "") <==>
            (world.gated(step, i) ==> world.decision(step, i) == Approval.Approve)
  {
    RunLengthStep(failed, Signature(call));
    RunLengthIsLongest(failed);
    RunLengthIsLongest(failed + [Signature(call)]);
    hide RunLength, Signature;
    StartedIfRuns(world, step, i, call);
  }

  lemma {:induction false} StartedIfRuns(world: World, step: nat, i: nat, call: ToolCall)
    ensures ToolStarted(step, i) in CallEvents(world, step, i, call, "") <==> Runs(world, step, i)
  {
    var events := CallEvents(world, step, i, call, "");
    if Runs(world, step, i) {
      assert events[if world.gated(step, i) then 2 else 0] == ToolStarted(step, i);
    }
  }

  predicate CallFails(world: World, step: nat, i: nat) {
    !OutcomeOfCall(world, step, i).ok
  }

  // `at` lists the failing ones of the step's first `i` calls, each once and in order.
  ghost predicate FailingCalls(world: World, step: nat, i: nat, at: seq<nat>) {
    && (forall k :: 0 <= k < |at| ==> at[k] < i && CallFails(world, step, at[k]))
    && (forall j, k :: 0 <= j < k < |at| ==> at[j] < at[k])
    && (forall j :: 0 <= j < i && CallFails(world, step, j) ==> j in at)
  }

  function SignaturesAt(calls: seq<ToolCall>, at: seq<nat>): seq<string>
    requires forall k :: 0 <= k < |at| ==> at[k] < |calls|
  {
    seq(|at|, k requires 0 <= k < |at| => Signature(calls[at[k]]))
  }

  // A step adds the signatures of exactly its failing calls, in order: successes in between
  // add nothing and take nothing away.
  lemma {:induction false} FailedByMeans(world: World, step: nat, calls: seq<ToolCall>, i: nat, failed: seq<string>)
      returns (at: seq<nat>)
    requires i <= |calls|
    ensures FailingCalls(world, step, i, at)
    ensures FailedBy(world, step, calls, i, failed) == failed + SignaturesAt(calls, at)
  {
    if i == 0 {
      at := [];
    } else {
      at := FailedByMeans(world, step, calls, i - 1, failed);
      ghost var before := at;
      if CallFails(world, step, i - 1) {
        at := at + [i - 1];
        assert SignaturesAt(calls, at) == SignaturesAt(calls, before) + [Signature(calls[i - 1])];
        assert failed + SignaturesAt(calls, before) + [Signature(calls[i - 1])] == failed + SignaturesAt(calls, at);
        assert at[|before|] == i - 1 && forall j :: j in before ==> j in at;
      }
    }
  }

  // ---- Properties of the event stream ----

  // A gated tool was started only right after its own prompt was answered with approve.
  predicate StartedRightly(world: World, events: seq<Event>, k: nat)
    requires k < |events|
  {
    events[k].ToolStarted? && world.gated(events[k].step, events[k].call) ==>
      && k >= 2
      && events[k - 2] == ApprovalRequest(events[k].step, events[k].call)
      && events[k - 1] == ApprovalResult(events[k].step, events[k].call, Approval.Approve)
      && world.decision(events[k].step, events[k].call) == Approval.Approve
  }

  ghost predicate GateHeld(world: World, events: seq<Event>) {
    forall k :: 0 <= k < |events| ==> StartedRightly(world, events, k)
  }

  // The decisions the turn went by are those of a desk: every call it asked about opened a
  // prompt of its own, which is settled there as what the turn was told.
  ghost predicate DecidedBy(world: World, events: seq<Event>, history: seq<Approval.Op>, promptOf: (nat, nat) -> nat) {
    && (forall k :: 0 <= k < |events| && events[k].ApprovalRequest? ==>
          var f := Approval.FateOf(history, promptOf(events[k].step, events[k].call));
          f.Settled? && f.verdict.decision == world.decision(events[k].step, events[k].call))
    && (forall j, k :: 0 <= j < |events| && 0 <= k < |events| &&
                       events[j].ApprovalRequest? && events[k].ApprovalRequest? ==>
          promptOf(events[j].step, events[j].call) == promptOf(events[k].step, events[k].call) ==>
            events[j].step == events[k].step && events[j].call == events[k].call)
  }

  // A gated tool was started only if its own prompt was waiting when somebody approved it
  // by its id; nothing that reaches the desk later takes that back, and no other call that
  // was started shares that prompt.
  lemma {:induction false} StartedOnlyIfApproved(world: World, events: seq<Event>, history: seq<Approval.Op>,
                                                 more: seq<Approval.Op>, promptOf: (nat, nat) -> nat, k: nat)
    requires GateHeld(world, events) && DecidedBy(world, events, history, promptOf)
    requires k < |events| && events[k].ToolStarted? && world.gated(events[k].step, events[k].call)
    ensures var h := promptOf(events[k].step, events[k].call);
            && (exists n: nat :: n < |history| && Approval.ApprovedAt(history, h, n))
            && Approval.FateOf(history + more, h) == Approval.FateOf(history, h)
            && (forall j :: 0 <= j < |events| && events[j].ToolStarted? &&
                            world.gated(events[j].step, events[j].call) &&
                            promptOf(events[j].step, events[j].call) == h ==>
                  events[j].step == events[k].step && events[j].call == events[k].call)
  {
    assert StartedRightly(world, events, k) && events[k - 2].ApprovalRequest?;
    var h := promptOf(events[k].step, events[k].call);
    forall j | 0 <= j < |events| && events[j].ToolStarted? && world.gated(events[j].step, events[j].call) &&
               promptOf(events[j].step, events[j].call) == h
      ensures events[j].step == events[k].step && events[j].call == events[k].call
    {
      assert StartedRightly(world, events, j);
      assert events[j - 2].ApprovalRequest? && events[k - 2].ApprovalRequest?;
    }
    Approval.ApprovalIsAnAnswer(history, h);
    Approval.FirstDecisionStands(history, more, h);
  }

  function Dones(events: seq<Event>): nat {
    if events == [] then 0 else Dones(events[..|events| - 1]) + if events[|events| - 1].Done? then 1 else 0
  }

  function Steps(events: seq<Event>): nat {
    if events == [] then 0 else Steps(events[..|events| - 1]) + if events[|events| - 1].Step? then 1 else 0
  }

  lemma {:induction false} CountsConcat(a: seq<Event>, b: seq<Event>)
    ensures Dones(a + b) == Dones(a) + Dones(b) && Steps(a + b) == Steps(a) + Steps(b)
    decreases |b|
  {
    if b == [] {
      assert a + b == a;
    } else {
      var n := |b| - 1;
      assert (a + b)[..|a + b| - 1] == a + b[..n];
      CountsConcat(a, b[..n]);
    }
  }

  lemma {:induction false} GateConcat(world: World, a: seq<Event>, b: seq<Event>)
    requires GateHeld(world, a) && GateHeld(world, b)
    ensures GateHeld(world, a + b)
  {
    forall k | 0 <= k < |a + b|
      ensures StartedRightly(world, a + b, k)
    {
      if k < |a| {
        assert StartedRightly(world, a, k);
      } else {
        assert StartedRightly(world, b, k - |a|);
      }
    }
  }

  // Events of a piece of the turn that has no step or end marker in it.
  ghost predicate Inner(world: World, events: seq<Event>) {
    GateHeld(world, events) && Dones(events) == 0 && Steps(events) == 0
  }

  lemma {:induction false} InnerConcat(world: World, a: seq<Event>, b: seq<Event>)
    requires Inner(world, a) && Inner(world, b)
    ensures Inner(world, a + b)
  {
    GateConcat(world, a, b);
    CountsConcat(a, b);
  }

  lemma {:induction false} QuietIsInner(world: World, events: seq<Event>)
    requires AllQuiet(events)
    ensures Inner(world, events)
  {
    if events != [] {
      QuietIsInner(world, events[..|events| - 1]);
    }
  }

  lemma {:induction false} OneEvent(world: World, e: Event)
    ensures Dones([e]) == (if e.Done? then 1 else 0) && Steps([e]) == (if e.Step? then 1 else 0)
    ensures TextOf([e]) == if e.Text? then e.text else ""
    ensures !e.ToolStarted? ==> GateHeld(world, [e])
  {
    assert [e][..0] == [];
  }

  // The events of one tool call, exactly.
  function CallEvents(world: World, step: nat, i: nat, call: ToolCall, content: string): seq<Event> {
    (if world.gated(step, i) then [ApprovalRequest(step, i), ApprovalResult(step, i, world.decision(step, i))] else [])
    + (if Runs(world, step, i) then [ToolStarted(step, i)] else [])
    + [ToolResult(call.id, OutcomeOfCall(world, step, i).ok, content)]
  }

  lemma {:induction false} CallEventsInner(world: World, step: nat, i: nat, call: ToolCall, content: string)
    ensures Inner(world, CallEvents(world, step, i, call, content))
    ensures TextOf(CallEvents(world, step, i, call, content)) == ""
  {
    var asked := if world.gated(step, i)
                 then [ApprovalRequest(step, i), ApprovalResult(step, i, world.decision(step, i))] else [];
    var started := if Runs(world, step, i) then [ToolStarted(step, i)] else [];
    var ended := [ToolResult(call.id, OutcomeOfCall(world, step, i).ok, content)];
    var events := asked + started + ended;
    hide TextOf, Dones, Steps;
    NoCounts(asked);
    NoCounts(started);
    NoCounts(ended);
    CountsConcat(asked, started);
    CountsConcat(asked + started, ended);
    TextOfConcat(asked, started);
    TextOfConcat(asked + started, ended);
    forall k | 0 <= k < |events|
      ensures StartedRightly(world, events, k)
    {
      if events[k].ToolStarted? {
        assert k == |asked|;
      }
    }
  }

  lemma {:induction false} NoCounts(events: seq<Event>)
    requires forall k :: 0 <= k < |events| ==> !events[k].Done? && !events[k].Step? && !events[k].Text?
    ensures Dones(events) == 0 && Steps(events) == 0 && TextOf(events) == ""
  {
    if events != [] {
      NoCounts(events[..|events| - 1]);
    }
  }

  // The events of the first `i` calls of a step.
  function ToolEvents(world: World, step: nat, calls: seq<ToolCall>, i: nat, failed: seq<string>): seq<Event>
    requires i <= |calls|
  {
    if i == 0 then []
    else ToolEvents(world, step, calls, i - 1, failed) +
         CallEvents(world, step, i - 1, calls[i - 1], RepliesTo(world, step, calls, i, failed)[i - 1].result)
  }

  lemma {:induction false} ToolEventsStep(world: World, step: nat, calls: seq<ToolCall>, i: nat, failed: seq<string>)
      returns (content: string)
    requires 0 < i <= |calls|
    ensures ToolEvents(world, step, calls, i, failed) ==
            ToolEvents(world, step, calls, i - 1, failed) + CallEvents(world, step, i - 1, calls[i - 1], content)
  {
    content := RepliesTo(world, step, calls, i, failed)[i - 1].result;
  }

  lemma {:induction false} ToolEventsInner(world: World, step: nat, calls: seq<ToolCall>, i: nat, failed: seq<string>)
    requires i <= |calls|
    ensures Inner(world, ToolEvents(world, step, calls, i, failed))
    ensures TextOf(ToolEvents(world, step, calls, i, failed)) == ""
  {
    hide CallEvents, Inner, TextOf, RepliesTo;
    NothingInner(world);
    if i > 0 {
      var content := ToolEventsStep(world, step, calls, i, failed);
      ToolEventsInner(world, step, calls, i - 1, failed);
      CallEventsInner(world, step, i - 1, calls[i - 1], content);
      InnerConcat(world, ToolEvents(world, step, calls, i - 1, failed),
                  CallEvents(world, step, i - 1, calls[i - 1], content));
      TextOfConcat(ToolEvents(world, step, calls, i - 1, failed),
                   CallEvents(world, step, i - 1, calls[i - 1], content));
    }
  }

  lemma {:induction false} NothingInner(world: World)
    ensures Inner(world, []) && TextOf([]) == ""
  {
  }

  // ---- The turn ----

  ghost predicate AllWellFormed(saved: seq<seq<Message>>) {
    forall k :: 0 <= k < |saved| ==> WellFormed(saved[k])
  }

  // The counter and its last signature, against the failed calls of the turn.
  ghost predicate Counted(failed: seq<string>, repeated: nat, signature: string) {
    && repeated == RunLength(failed)
    && (forall k :: 0 <= k < |failed| ==> failed[k] != "")
    && signature == if failed == [] then "" else failed[|failed| - 1]
  }

  lemma {:induction false} CountedStep(failed: seq<string>, repeated: nat, signature: string, next: string)
    requires Counted(failed, repeated, signature) && next != ""
    ensures Counted(failed + [next], if next == signature then repeated + 1 else 1, next)
  {
    RunLengthStep(failed, next);
  }

  // ---- What one step did ----

  // The attempts and repeats of its walk, how it ended, the content of its last attempt,
  // the calls it carried out and the text it showed.
  datatype StepRecord = StepRecord(log: seq<Attempt>, made: nat, exit: Option<Exit>, content: string,
                                   calls: seq<ToolCall>, text: string)

  function ContentOf(world: World, step: nat, log: seq<Attempt>): string {
    if log == [] then "" else Concat(world.chat(step, |log| - 1).chunks)
  }

  // The model's own calls, or those salvaged from its text.
  function WantedCalls(world: World, step: nat, reply: Reply): seq<ToolCall>
    requires reply.Answer?
  {
    if reply.calls != [] then reply.calls else world.salvage(step, Concat(reply.chunks))
  }

  // How a step ends whose last attempt was good.
  function GoodExit(calls: seq<ToolCall>, failed: seq<string>): Option<Exit> {
    if calls == [] then Some(Answered) else if RunLength(failed) >= STUCK_AFTER then Some(Stuck) else None
  }

  lemma {:induction false} GoodExits(calls: seq<ToolCall>, failed: seq<string>)
    ensures GoodExit(calls, failed) != Some(NoResult)
    ensures GoodExit(calls, failed) == Some(Answered) <==> calls == []
  {
  }

  // What the step leaves in the transcript.
  function StepMessages(world: World, step: nat, exit: Option<Exit>, content: string, calls: seq<ToolCall>,
                        failed: seq<string>): seq<Message> {
    match exit
    case Some(Answered) => [Assistant(content, [])]
    case Some(Failed) => [Assistant(world.failureNote(step), [])]
    case Some(Stuck) =>
      [Assistant(content, calls)] + RepliesTo(world, step, calls, |calls|, failed) +
      [Assistant(world.stuckNote(step), [])]
    case None => [Assistant(content, calls)] + RepliesTo(world, step, calls, |calls|, failed)
    case _ => []
  }

  // Why a step without a good last attempt ended.
  ghost predicate BadExit(world: World, chain: seq<Target>, step: nat, toolsBefore: bool, r: StepRecord) {
    match r.exit
    case Some(NoResult) => r.log == []
    case Some(Stopped) =>
      r.log != [] && (IsAbort(r.log[|r.log| - 1].verdict) || (AllLeft(r.log) && world.abortedWaiting(step, r.made + 1)))
    case Some(Failed) =>
      r.log != [] && !IsAbort(r.log[|r.log| - 1].verdict) && NothingLeftToTry(world, chain, toolsBefore, r.log, r.made)
    case _ => false
  }

  ghost predicate EndedWell(r: StepRecord) {
    r.log != [] && r.log[|r.log| - 1].verdict.Good?
  }

  // The step walked the chain as it may, showed the content of its last attempt and no
  // other, whole if it answered, and carried out the calls that attempt asked for.
  ghost predicate RightStep(world: World, chain: seq<Target>, step: nat, toolsBefore: bool, r: StepRecord,
                            failed: seq<string>) {
    && Walked(world, chain, step, r.log, r.made) && (toolsBefore ==> r.made == 0)
    && r.content == ContentOf(world, step, r.log)
    && r.text == (if r.exit == Some(Answered) then r.content else LastShown(r.log)) && r.text <= r.content
    && if EndedWell(r) || r.exit == None || r.exit == Some(Answered) || r.exit == Some(Stuck)
       then && EndedWell(r) && world.chat(step, |r.log| - 1).Answer?
            && r.calls == WantedCalls(world, step, world.chat(step, |r.log| - 1))
            && r.exit == GoodExit(r.calls, FailedBy(world, step, r.calls, |r.calls|, failed))
       else r.calls == [] && BadExit(world, chain, step, toolsBefore, r)
  }

  // ---- What a turn did ----

  function FailedOver(world: World, records: seq<StepRecord>): seq<string> {
    if records == [] then []
    else
      var n := |records| - 1;
      FailedBy(world, n, records[n].calls, |records[n].calls|, FailedOver(world, records[..n]))
  }

  function MessagesOver(world: World, records: seq<StepRecord>): seq<Message> {
    if records == [] then []
    else
      var n, r := |records| - 1, records[|records| - 1];
      MessagesOver(world, records[..n]) +
      StepMessages(world, n, r.exit, r.content, r.calls, FailedOver(world, records[..n]))
  }

  function TextOver(records: seq<StepRecord>): string {
    if records == [] then "" else TextOver(records[..|records| - 1]) + records[|records| - 1].text
  }

  function AttemptsOver(records: seq<StepRecord>): nat {
    if records == [] then 0 else AttemptsOver(records[..|records| - 1]) + |records[|records| - 1].log|
  }

  // Every step is right about its place in the turn. All steps but the last ran tools, so
  // from the second step on the chain is never repeated.
  ghost predicate Turned(world: World, chain: seq<Target>, records: seq<StepRecord>) {
    forall k :: 0 <= k < |records| ==>
      RightStep(world, chain, k, k > 0, records[k], FailedOver(world, records[..k]))
  }

  // What the transcript ends with after a turn's last step: the answer, the note of the
  // failure or of the loop, or a tool's reply if the turn goes on. A stopped step, and one
  // without a result, leaves it as it was.
  lemma {:induction false} LastWord(world: World, records: seq<StepRecord>)
    requires records != []
    ensures var n := |records| - 1;
            var r, before, after := records[n], MessagesOver(world, records[..n]), MessagesOver(world, records);
            match r.exit
            case Some(Answered) => after != [] && after[|after| - 1] == Assistant(r.content, [])
            case Some(Failed) => after != [] && after[|after| - 1] == Assistant(world.failureNote(n), [])
            case Some(Stuck) => after != [] && after[|after| - 1] == Assistant(world.stuckNote(n), [])
            case None => r.calls != [] ==> after != [] && after[|after| - 1].Tool?
            case _ => after == before
  {
    hide FailedOver, RunLength, FailedBy;
  }

  // A call of the turn: the step that made it and its place there.
  datatype CallAt = CallAt(step: nat, index: nat)

  // Every call the turn carried out, in order.
  function CallsOver(records: seq<StepRecord>): (all: seq<CallAt>)
    ensures forall c :: c in all ==> c.step < |records| && c.index < |records[c.step].calls|
  {
    if records == [] then []
    else
      var n := |records| - 1;
      CallsOver(records[..n]) + CallsIn(n, |records[n].calls|)
  }

  function CallsIn(step: nat, n: nat): (all: seq<CallAt>)
    ensures |all| == n && forall i :: 0 <= i < n ==> all[i] == CallAt(step, i)
  {
    seq(n, i requires 0 <= i < n => CallAt(step, i))
  }

  // Every call of every record is there once, steps first.
  lemma {:induction false} CallsOverComplete(records: seq<StepRecord>)
    ensures forall step: nat, index: nat :: step < |records| && index < |records[step].calls| ==>
              CallAt(step, index) in CallsOver(records)
    ensures forall j, k :: 0 <= j < k < |CallsOver(records)| ==>
              var c, d := CallsOver(records)[j], CallsOver(records)[k];
              c.step < d.step || (c.step == d.step && c.index < d.index)
  {
    if records != [] {
      var n := |records| - 1;
      var front, last := CallsOver(records[..n]), CallsIn(n, |records[n].calls|);
      CallsOverComplete(records[..n]);
      forall step: nat, index: nat | step < |records| && index < |records[step].calls|
        ensures CallAt(step, index) in CallsOver(records)
      {
        if step == n {
          assert last[index] == CallAt(step, index);
        } else {
          assert CallAt(step, index) in front;
        }
      }
      forall k | 0 <= k < |front| ensures front[k].step < n {
        assert front[k] in front;
      }
    }
  }

  // The k-th failure listed is a failing call of the turn, under its own signature.
  ghost predicate FailureAt(world: World, records: seq<StepRecord>, failed: seq<string>, from: seq<nat>, k: nat)
    requires k < |from| && k < |failed|
  {
    var all := CallsOver(records);
    && from[k] < |all| && all[from[k]] in all
    && CallFails(world, all[from[k]].step, all[from[k]].index)
    && failed[k] == Signature(records[all[from[k]].step].calls[all[from[k]].index])
  }

  ghost predicate Increasing(from: seq<nat>) {
    forall j, k :: 0 <= j < k < |from| ==> from[j] < from[k]
  }

  // No failing call of the turn is missing.
  ghost predicate AllFailuresIn(world: World, records: seq<StepRecord>, from: seq<nat>) {
    var all := CallsOver(records);
    forall j :: 0 <= j < |all| && CallFails(world, all[j].step, all[j].index) ==> j in from
  }

  // `from` lists where the failing calls stand among all the turn's calls, each once and in
  // order, and `failed` their signatures.
  ghost predicate ListsFailures(world: World, records: seq<StepRecord>, failed: seq<string>, from: seq<nat>) {
    && |from| == |failed|
    && (forall k :: 0 <= k < |from| ==> FailureAt(world, records, failed, from, k))
    && Increasing(from) && AllFailuresIn(world, records, from)
  }

  function Behind(n: nat, at: seq<nat>): (r: seq<nat>)
    ensures |r| == |at| && forall k :: 0 <= k < |at| ==> r[k] == n + at[k]
  {
    seq(|at|, k requires 0 <= k < |at| => n + at[k])
  }

  // The calls of the longer turn.
  lemma {:induction false} CallsOverStep(front: seq<StepRecord>, r: StepRecord)
    ensures var all, before := CallsOver(front + [r]), CallsOver(front);
            && |all| == |before| + |r.calls|
            && (forall j :: 0 <= j < |before| ==>
                  && all[j] == before[j] && before[j] in before && all[j] in all
                  && (front + [r])[before[j].step] == front[before[j].step])
            && (forall i :: 0 <= i < |r.calls| ==>
                  all[|before| + i] == CallAt(|front|, i) && all[|before| + i] in all)
  {
    var records := front + [r];
    assert records[..|front|] == front;
    forall j | 0 <= j < |CallsOver(front)|
      ensures CallsOver(front)[j] in CallsOver(front) && CallsOver(records)[j] == CallsOver(front)[j]
      ensures CallsOver(records)[j] in CallsOver(records)
      ensures records[CallsOver(front)[j].step] == front[CallsOver(front)[j].step]
    {
    }
  }

  lemma {:induction false} FailureRight(world: World, front: seq<StepRecord>, r: StepRecord, failed: seq<string>,
                                        from: seq<nat>, at: seq<nat>, k: nat)
    requires ListsFailures(world, front, failed, from) && FailingCalls(world, |front|, |r.calls|, at)
    requires k < |from| + |at|
    ensures FailureAt(world, front + [r], failed + SignaturesAt(r.calls, at), from + Behind(|CallsOver(front)|, at), k)
  {
    hide CallFails, Signature, CallsOver, Increasing, AllFailuresIn;
    var all, n := CallsOver(front + [r]), |CallsOver(front)|;
    CallsOverStep(front, r);
    if k >= |from| {
      assert all[n + at[k - |from|]] == CallAt(|front|, at[k - |from|]);
    } else {
      assert FailureAt(world, front, failed, from, k);
      assert all[from[k]] == CallsOver(front)[from[k]];
    }
  }

  lemma {:induction false} FailureListed(world: World, front: seq<StepRecord>, r: StepRecord, from: seq<nat>,
                                         at: seq<nat>, j: nat)
    requires AllFailuresIn(world, front, from) && FailingCalls(world, |front|, |r.calls|, at)
    requires j < |CallsOver(front + [r])|
    requires CallFails(world, CallsOver(front + [r])[j].step, CallsOver(front + [r])[j].index)
    ensures j in from + Behind(|CallsOver(front)|, at)
  {
    hide CallFails, Signature, CallsOver;
    var n := |CallsOver(front)|;
    CallsOverStep(front, r);
    if j >= n {
      assert CallsOver(front + [r])[n + (j - n)] == CallAt(|front|, j - n);
      var k :| 0 <= k < |at| && at[k] == j - n;
      assert Behind(n, at)[k] == j && (from + Behind(n, at))[|from| + k] == j;
    } else {
      assert CallsOver(front + [r])[j] == CallsOver(front)[j];
    }
  }

  lemma {:induction false} StaysIncreasing(world: World, front: seq<StepRecord>, r: StepRecord, failed: seq<string>,
                                           from: seq<nat>, at: seq<nat>)
    requires ListsFailures(world, front, failed, from) && FailingCalls(world, |front|, |r.calls|, at)
    ensures Increasing(from + Behind(|CallsOver(front)|, at))
  {
    hide CallFails, Signature, CallsOver, AllFailuresIn;
    forall k | 0 <= k < |from|
      ensures from[k] < |CallsOver(front)|
    {
      assert FailureAt(world, front, failed, from, k);
    }
  }

  lemma {:induction false} AllListed(world: World, front: seq<StepRecord>, r: StepRecord, from: seq<nat>, at: seq<nat>)
    requires AllFailuresIn(world, front, from) && FailingCalls(world, |front|, |r.calls|, at)
    ensures AllFailuresIn(world, front + [r], from + Behind(|CallsOver(front)|, at))
  {
    hide CallsOver, CallFails, FailingCalls;
    var all := CallsOver(front + [r]);
    forall j | 0 <= j < |all| && CallFails(world, all[j].step, all[j].index)
      ensures j in from + Behind(|CallsOver(front)|, at)
    {
      FailureListed(world, front, r, from, at, j);
    }
  }

  lemma {:induction false} ListsFailuresStep(world: World, front: seq<StepRecord>, r: StepRecord, failed: seq<string>,
                                             from: seq<nat>, at: seq<nat>)
    requires ListsFailures(world, front, failed, from) && FailingCalls(world, |front|, |r.calls|, at)
    ensures ListsFailures(world, front + [r], failed + SignaturesAt(r.calls, at),
                          from + Behind(|CallsOver(front)|, at))
  {
    StaysIncreasing(world, front, r, failed, from, at);
    hide CallFails, Signature, CallsOver, Increasing, FailureAt, FailingCalls;
    var records := front + [r];
    var whole := from + Behind(|CallsOver(front)|, at);
    forall k | 0 <= k < |whole|
      ensures FailureAt(world, records, failed + SignaturesAt(r.calls, at), whole, k)
    {
      FailureRight(world, front, r, failed, from, at, k);
    }
    AllListed(world, front, r, from, at);
  }

  // The headline for the counter: what it counts in is exactly the turn's failed calls,
  // whatever succeeded in between.
  lemma {:induction false} FailedOverMeans(world: World, records: seq<StepRecord>) returns (from: seq<nat>)
    ensures ListsFailures(world, records, FailedOver(world, records), from)
  {
    from := [];
    if records != [] {
      var n := |records| - 1;
      var front, r := records[..n], records[n];
      from := FailedOverMeans(world, front);
      var at := FailedByMeans(world, n, r.calls, |r.calls|, FailedOver(world, front));
      ListsFailuresStep(world, front, r, FailedOver(world, front), from, at);
      assert front + [r] == records;
      hide ListsFailures, FailedBy;
      from := from + Behind(|CallsOver(front)|, at);
    }
  }

  lemma {:induction false} TurnedStep(world: World, chain: seq<Target>, records: seq<StepRecord>, r: StepRecord)
    requires Turned(world, chain, records)
    requires RightStep(world, chain, |records|, records != [], r, FailedOver(world, records))
    ensures var all := records + [r];
            && Turned(world, chain, all)
            && FailedOver(world, all) == FailedBy(world, |records|, r.calls, |r.calls|, FailedOver(world, records))
            && MessagesOver(world, all) ==
               MessagesOver(world, records) +
               StepMessages(world, |records|, r.exit, r.content, r.calls, FailedOver(world, records))
            && TextOver(all) == TextOver(records) + r.text
  {
    hide RightStep, FailedBy, StepMessages;
    var all := records + [r];
    assert all[..|records|] == records;
    hide FailedOver, MessagesOver, TextOver;
    forall k | 0 <= k < |all|
      ensures RightStep(world, chain, k, k > 0, all[k], FailedOver(world, all[..k]))
    {
      assert k < |records| ==> all[..k] == records[..k] && all[k] == records[k];
    }
  }

  // Over a whole turn only the first step repeats the chain, so the attempts are at most
  // the chain once per step and once per repeat of the first.
  lemma {:induction false} TurnAttemptsBounded(world: World, chain: seq<Target>, records: seq<StepRecord>)
    requires Turned(world, chain, records)
    ensures forall k :: 0 < k < |records| ==> records[k].made == 0
    ensures AttemptsOver(records) <= |chain| * (|records| + world.retryAttempts)
  {
    hide RightStep, FailedOver;
    if records != [] {
      var n := |records| - 1;
      TurnedFront(world, chain, records);
      TurnAttemptsBounded(world, chain, records[..n]);
      StepAttempts(world, chain, n, records[n], FailedOver(world, records[..n]));
      OneStepMore(|chain|, n, world.retryAttempts, |records[n].log|, AttemptsOver(records[..n]));
      assert forall k :: 0 < k < n ==> records[k] == records[..n][k];
    } else {
      Product(|chain|, world.retryAttempts);
    }
  }

  lemma {:induction false} TurnedFront(world: World, chain: seq<Target>, records: seq<StepRecord>)
    requires Turned(world, chain, records) && records != []
    ensures Turned(world, chain, records[..|records| - 1])
    ensures var n := |records| - 1; RightStep(world, chain, n, n > 0, records[n], FailedOver(world, records[..n]))
  {
    hide RightStep, FailedOver;
    var front := records[..|records| - 1];
    forall k | 0 <= k < |front|
      ensures RightStep(world, chain, k, k > 0, front[k], FailedOver(world, front[..k]))
    {
      assert front[k] == records[k] && front[..k] == records[..k];
    }
  }

  lemma {:induction false} StepAttempts(world: World, chain: seq<Target>, step: nat, r: StepRecord, failed: seq<string>)
    requires RightStep(world, chain, step, step > 0, r, failed)
    ensures |r.log| <= if step == 0 then |chain| * (1 + world.retryAttempts) else |chain|
    ensures step > 0 ==> r.made == 0
  {
    hide Walked;
    WalkedAttempts(world, chain, step, r.log, r.made);
    var retries := world.retryAttempts;
    assert |chain| * (r.made + 1) <= |chain| * (1 + retries) by {
      assert |chain| * (retries - r.made) >= 0;
    }
  }

  lemma {:induction false} Product(m: nat, n: nat)
    ensures m * n >= 0
  {
  }

  lemma {:induction false} OneStepMore(links: nat, steps: nat, retries: nat, attempts: nat, before: nat)
    requires attempts <= if steps == 0 then links * (1 + retries) else links
    requires before <= links * (steps + retries) && (steps == 0 ==> before == 0)
    ensures before + attempts <= links * (steps + 1 + retries)
  {
    assert links * (steps + retries) + links == links * (steps + 1 + retries);
  }

  lemma {:induction false} WalkedAttempts(world: World, chain: seq<Target>, step: nat, log: seq<Attempt>, made: nat)
    requires Walked(world, chain, step, log, made)
    ensures |log| <= |chain| * (made + 1) && made <= world.retryAttempts
  {
    AttemptsBounded(chain, log, made);
  }

  class Turn {
    const world: World
    const chain: seq<Target>
    const maxSteps: int
    var messages: seq<Message>
    var saved: seq<seq<Message>>
    var events: seq<Event>
    var repeatedFailures: nat
    var lastSignature: string
    var toolsRan: bool
    var gatewayOffline: seq<bool>     // empty until a gateway has answered
    ghost var failed: seq<string>

    ghost predicate Valid()
      reads this
    {
      && WellFormed(messages) && AllWellFormed(saved)
      && Counted(failed, repeatedFailures, lastSignature)
    }

    constructor (world: World, chain: seq<Target>, maxSteps: int, messages: seq<Message>)
      requires WellFormed(messages)
      ensures Valid() && this.messages == messages && saved == [] && events == [] && failed == [] && !toolsRan
      ensures this.world == world && this.chain == chain && this.maxSteps == maxSteps
    {
      this.world, this.chain, this.maxSteps, this.messages := world, chain, maxSteps, messages;
      saved, events, repeatedFailures, lastSignature, toolsRan := [], [], 0, "", false;
      gatewayOffline, failed := [], [];
    }

    method Save()
      requires WellFormed(messages) && AllWellFormed(saved)
      modifies this`saved
      ensures saved == old(saved) + [messages] && AllWellFormed(saved)
    {
      saved := saved + [messages];
    }

    // Ask if need be, run or refuse, count a failure, and put the reply in the transcript.
    method RunTool(step: nat, i: nat, call: ToolCall)
      requires Counted(failed, repeatedFailures, lastSignature)
      modifies this`messages, this`events, this`repeatedFailures, this`lastSignature, this`toolsRan, this`failed
      ensures Counted(failed, repeatedFailures, lastSignature)
      ensures toolsRan && failed == FailedAfter(world, step, i, call, old(failed))
      ensures !CallFails(world, step, i) ==>
                && failed == old(failed) && repeatedFailures == old(repeatedFailures)
                && lastSignature == old(lastSignature)
      ensures CallFails(world, step, i) ==> failed == old(failed) + [Signature(call)]
      ensures var reply := ReplyTo(world, step, i, call, old(failed));
              messages == old(messages) + [reply] &&
              events == old(events) + CallEvents(world, step, i, call, reply.result)
    {
      hide Counted, RunLength;
      var outcome;
      var asked, started: seq<Event> := [], [];
      if world.gated(step, i) {
        var decision := world.decision(step, i);
        asked := [ApprovalRequest(step, i), ApprovalResult(step, i, decision)];
        if decision == Approval.Approve {
          started := [ToolStarted(step, i)];
          outcome := world.tool(step, i);
        } else {
          outcome := ToolOutcome(false, world.refusal(decision));
        }
      } else {
        started := [ToolStarted(step, i)];
        outcome := world.tool(step, i);
      }
      toolsRan := true;
      var content := outcome.content;
      if !outcome.ok {
        CountFailure(Signature(call));
        if repeatedFailures >= 2 {
          content := content + world.nudge;
        }
      }
      messages := messages + [Tool(call.id, call.name, content)];
      events := events + (asked + started + [ToolResult(call.id, outcome.ok, content)]);
    }

    // Successes in between are ignored: only the previous failure is compared with.
    method CountFailure(signature: string)
      requires Counted(failed, repeatedFailures, lastSignature) && signature != ""
      modifies this`repeatedFailures, this`lastSignature, this`failed
      ensures Counted(failed, repeatedFailures, lastSignature)
      ensures failed == old(failed) + [signature] && repeatedFailures == RunLength(failed)
    {
      hide RunLength;
      CountedStep(failed, repeatedFailures, lastSignature, signature);
      if signature == lastSignature {
        repeatedFailures := repeatedFailures + 1;
      } else {
        lastSignature := signature;
        repeatedFailures := 1;
      }
      failed := failed + [signature];
    }

    method RunTools(step: nat, calls: seq<ToolCall>)
      requires Counted(failed, repeatedFailures, lastSignature)
      modifies this`messages, this`events, this`repeatedFailures, this`lastSignature, this`toolsRan, this`failed
      ensures Counted(failed, repeatedFailures, lastSignature)
      ensures calls != [] ==> toolsRan
      ensures failed == FailedBy(world, step, calls, |calls|, old(failed))
      ensures messages == old(messages) + RepliesTo(world, step, calls, |calls|, old(failed))
      ensures events == old(events) + ToolEvents(world, step, calls, |calls|, old(failed))
    {
      hide Counted, CallEvents, ReplyTo, FailedAfter;
      ghost var start := failed;
      for i := 0 to |calls|
        invariant Counted(failed, repeatedFailures, lastSignature)
        invariant i > 0 ==> toolsRan
        invariant failed == FailedBy(world, step, calls, i, start)
        invariant messages == old(messages) + RepliesTo(world, step, calls, i, start)
        invariant events == old(events) + ToolEvents(world, step, calls, i, start)
      {
        RunTool(step, i, calls[i]);
      }
    }

    // Put the assistant's calls in the transcript and carry them out.
    method CallTools(step: nat, content: string, calls: seq<ToolCall>)
        returns (exit: Option<Exit>, ghost added: seq<Event>)
      requires Valid() && calls != []
      modifies this
      ensures Valid() && toolsRan && saved == old(saved) + [messages]
      ensures exit == GoodExit(calls, failed)
      ensures failed == FailedBy(world, step, calls, |calls|, old(failed))
      ensures messages == old(messages) + StepMessages(world, step, exit, content, calls, old(failed))
      ensures events == old(events) + added && Inner(world, added) && TextOf(added) == ""
    {
      hide Counted, RepliesTo, FailedBy, ToolEvents, Inner, TextOf, RunLength, WellFormed, AllWellFormed, Answers;
      ghost var before, start := messages, failed;
      ghost var replies := RepliesTo(world, step, calls, |calls|, start);
      messages := messages + [Assistant(content, calls)];
      RunTools(step, calls);
      added := ToolEvents(world, step, calls, |calls|, start);
      ToolEventsInner(world, step, calls, |calls|, start);
      RepliesAnswer(world, step, calls, |calls|, start);
      assert calls[..|calls|] == calls;
      AppendExchange(before, content, calls, replies);
      Regrouped(before, [Assistant(content, calls)], replies, [Assistant(world.stuckNote(step), [])]);
      exit := None;
      CountedMeans(failed, repeatedFailures, lastSignature);
      if repeatedFailures >= STUCK_AFTER {
        AppendPlain(messages, Assistant(world.stuckNote(step), []));
        messages := messages + [Assistant(world.stuckNote(step), [])];
        Save();
        events := events + [Error];
        ErrorInner(world);
        InnerConcat(world, added, [Error]);
        TextOfConcat(added, [Error]);
        added := added + [Error];
        return Some(Stuck), added;
      }
      Save();
    }

    // The model's own calls, or those salvaged from its text.
    method Salvage(step: nat, reply: Reply) returns (calls: seq<ToolCall>, ghost added: seq<Event>)
      requires reply.Answer?
      modifies this`events
      ensures calls == WantedCalls(world, step, reply)
      ensures events == old(events) + added && Inner(world, added) && TextOf(added) == ""
      ensures calls == [] ==> added == []
    {
      hide Inner, TextOf, Concat;
      calls, added := reply.calls, [];
      NothingInner(world);
      if calls == [] {
        calls := world.salvage(step, Concat(reply.chunks));
        if calls != [] && !world.autoFree {
          Extend(world, added, Notice);
          added := added + [Notice];
          events := events + [Notice];
        }
      }
    }

    // No call: release what is still unsent and close the answer.
    method CloseAnswer(content: string, emitted: nat) returns (ghost added: seq<Event>)
      requires Valid() && emitted <= |content|
      modifies this`messages, this`saved, this`events
      ensures Valid() && saved == old(saved) + [messages]
      ensures messages == old(messages) + [Assistant(content, [])]
      ensures events == old(events) + added && Inner(world, added) && TextOf(added) == content[emitted..]
    {
      hide Counted, Inner, TextOf;
      var remaining := content[emitted..];
      added := [];
      NothingInner(world);
      if remaining != "" {
        Extend(world, added, Text(remaining));
        added := added + [Text(remaining)];
        events := events + [Text(remaining)];
      }
      AppendPlain(messages, Assistant(content, []));
      messages := messages + [Assistant(content, [])];
      Save();
    }

    // A good reply: salvage a text-mode call, release what is still unsent, go on or end.
    method Accept(step: nat, reply: Reply, emitted: nat)
        returns (exit: Option<Exit>, ghost calls: seq<ToolCall>, ghost added: seq<Event>)
      requires Valid() && reply.Answer? && emitted <= |Concat(reply.chunks)|
      modifies this
      ensures Valid() && saved == old(saved) + [messages]
      ensures calls == WantedCalls(world, step, reply) && exit == GoodExit(calls, failed)
      ensures toolsRan == (old(toolsRan) || calls != [])
      ensures failed == FailedBy(world, step, calls, |calls|, old(failed))
      ensures messages == old(messages) + StepMessages(world, step, exit, Concat(reply.chunks), calls, old(failed))
      ensures events == old(events) + added && Inner(world, added)
      ensures TextOf(added) == if exit == Some(Answered) then Concat(reply.chunks)[emitted..] else ""
    {
      hide Counted, Inner, TextOf, WellFormed, AllWellFormed, FailedBy, StepMessages, GoodExit, WantedCalls, Concat;
      var content, toolCalls := Concat(reply.chunks), [];
      toolCalls, added := Salvage(step, reply);
      calls := toolCalls;
      NoCallsAnswered(world, step, content, calls, failed);
      GoodExits(calls, failed);
      ghost var more;
      if toolCalls == [] {
        more := CloseAnswer(content, emitted);
        exit := Some(Answered);
        assert added + more == more;
      } else {
        exit, more := CallTools(step, content, toolCalls);
        GoodExits(calls, failed);
        InnerConcat(world, added, more);
        TextOfConcat(added, more);
      }
      added := added + more;
    }

    // Announce the step, walk the chain, and tell which gateway answered if it changed.
    method AskModels(step: nat)
        returns (outcome: Outcome, ghost said: seq<Event>, ghost log: seq<Attempt>, ghost made: nat)
      modifies this`events, this`gatewayOffline
      ensures events == old(events) + [Step(step + 1, maxSteps)] + said
      ensures Inner(world, said) && TextOf(said) == LastShown(log)
      ensures Walked(world, chain, step, log, made) && (toolsRan ==> made == 0)
      ensures OutcomeFits(world, chain, step, toolsRan, outcome, log, made)
    {
      hide TextOf, Inner, Walked, NothingLeftToTry, OutcomeOf, LastShown, AllLeft, AllQuiet, IsAbort, Concat;
      events := events + [Step(step + 1, maxSteps)];
      var shown;
      outcome, shown, log, made := Walk(world, chain, step, toolsRan);
      WalkOutcome(world, chain, step, toolsRan, log, made, outcome);
      QuietIsInner(world, shown);
      said := shown;
      events := events + shown;
      if outcome.Ended? && (outcome.verdict.Good? || outcome.verdict.Blank?) &&
          gatewayOffline != [outcome.target.offline] {
        gatewayOffline := [outcome.target.offline];
        Extend(world, said, Gateway(outcome.target.offline));
        Grouped(old(events) + [Step(step + 1, maxSteps)], said, [Gateway(outcome.target.offline)]);
        said := said + [Gateway(outcome.target.offline)];
        events := events + [Gateway(outcome.target.offline)];
      }
    }

    // No good answer: the person pressing Stop is not a failure worth reporting as one.
    method GiveUp(step: nat, outcome: Outcome) returns (exit: Option<Exit>, ghost word: Event)
      requires Valid() && !(outcome.Ended? && outcome.verdict.Good?)
      modifies this`messages, this`saved, this`events
      ensures Valid()
      ensures exit == Some(if outcome.StoppedWaiting? || (outcome.Ended? && IsAbort(outcome.verdict)) then Stopped
                           else if outcome.NoTargets? then NoResult else Failed)
      ensures word == (if exit == Some(Stopped) then Notice else Error)
      ensures events == old(events) + [word] + [Done(step + 1)]
      ensures messages == old(messages) + StepMessages(world, step, exit, "", [], failed)
      ensures saved == old(saved) + if exit == Some(NoResult) then [] else [messages]
    {
      hide Counted, WellFormed, IsAbort;
      var ended := if outcome.StoppedWaiting? || (outcome.Ended? && IsAbort(outcome.verdict)) then Stopped
                   else if outcome.NoTargets? then NoResult
                   else Failed;
      word := if ended == Stopped then Notice else Error;
      if ended == Failed {
        AppendPlain(messages, Assistant(world.failureNote(step), []));
        messages := messages + [Assistant(world.failureNote(step), [])];
      }
      if ended != NoResult {
        Save();
      }
      events := events + [if ended == Stopped then Notice else Error] + [Done(step + 1)];
      exit := Some(ended);
    }

    // One pass of the loop: ask the models, then do what their answer asks for.
    method RunStep(step: nat) returns (exit: Option<Exit>, ghost body: seq<Event>, ghost r: StepRecord)
      requires Valid() && step < maxSteps
      modifies this
      ensures Valid()
      ensures RightStep(world, chain, step, old(toolsRan), r, old(failed)) && r.exit == exit
      ensures events == old(events) + [Step(step + 1, maxSteps)] + body +
                        (if exit == None then [] else [Done(step + 1)])
      ensures Inner(world, body) && TextOf(body) == r.text
      ensures messages == old(messages) + StepMessages(world, step, exit, r.content, r.calls, old(failed))
      ensures failed == FailedBy(world, step, r.calls, |r.calls|, old(failed))
      ensures toolsRan == (old(toolsRan) || r.calls != [])
      ensures saved == old(saved) + if exit == Some(NoResult) then [] else [messages]
    {
      hide TextOf, Inner, Walked, NothingLeftToTry, LastShown, AllLeft, Counted, WellFormed, AllWellFormed, IsAbort,
           Concat, RightStep, FailedBy, StepMessages, GoodExit, ContentOf, WantedCalls, OutcomeFits;
      ghost var history, ranBefore, start := failed, toolsRan, events + [Step(step + 1, maxSteps)];
      var outcome;
      ghost var said, log, made, calls;
      outcome, said, log, made := AskModels(step);
      ghost var content := ContentOf(world, step, log);
      if outcome.Ended? && outcome.verdict.Good? {
        GoodOutcome(world, chain, step, ranBefore, outcome, log, made);
        ghost var added;
        exit, calls, added := Accept(step, outcome.reply, outcome.emitted);
        InnerConcat(world, said, added);
        TextOfConcat(said, added);
        Grouped(start, said, added);
        body := said + added;
        r := StepRecord(log, made, exit, content, calls, TextOf(body));
        RightGood(world, chain, step, ranBefore, r, history, outcome);
        GoodExits(calls, failed);
        if exit != None {
          events := events + [Done(step + 1)];
        }
        return;
      }
      ghost var word;
      exit, word := GiveUp(step, outcome);
      Extend(world, said, word);
      Grouped(start, said, [word]);
      body := said + [word];
      r := StepRecord(log, made, exit, content, [], TextOf(body));
      RightBad(world, chain, step, ranBefore, r, history, outcome);
      NoCalls(world, step, exit, content, history);
    }

    // The whole turn, from the person's message to the one `done`.
    method Run(userMessage: string) returns (exit: Exit, ghost records: seq<StepRecord>, ghost from: seq<nat>)
      requires Valid() && events == [] && failed == [] && !toolsRan
      modifies this
      ensures WellFormed(messages) && AllWellFormed(saved)
      ensures GateHeld(world, events)
      ensures events != [] && Dones(events) == 1 && events[|events| - 1] == Done(Steps(events))
      ensures Steps(events) <= (if maxSteps < 0 then 0 else maxSteps)
      ensures exit == OutOfSteps ==> Steps(events) == if maxSteps < 0 then 0 else maxSteps
      ensures |records| == Steps(events) && Turned(world, chain, records)
      ensures forall k :: 0 <= k < |records| ==>
                records[k].exit == if k < |records| - 1 || exit == OutOfSteps then None else Some(exit)
      ensures exit != OutOfSteps ==> records != []
      ensures AttemptsOver(records) <= |chain| * (Steps(events) + world.retryAttempts)
      ensures messages == old(messages) + [User(userMessage)] + MessagesOver(world, records) +
                          if exit == OutOfSteps then [Assistant(world.budgetNote, [])] else []
      ensures TextOf(events) == TextOver(records) + if exit == OutOfSteps then world.budgetNote else ""
      ensures exit != NoResult ==> saved != [] && saved[|saved| - 1] == messages
      ensures failed == FailedOver(world, records) && repeatedFailures == RunLength(failed)
      ensures ListsFailures(world, records, failed, from)
      ensures exit == Stuck <==> RunLength(failed) >= 3
    {
      hide ListsFailures, TextOf, Inner, Counted, WellFormed, AllWellFormed, RunLength, GateHeld, Dones, Steps,
           FailedBy, StepMessages, RightStep, Turned, FailedOver, MessagesOver, TextOver, AttemptsOver;
      ghost var opening := messages + [User(userMessage)];
      AppendPlain(messages, User(userMessage));
      messages := messages + [User(userMessage)];
      Save();
      NothingCounted(world, chain);
      var step := 0;
      records := [];
      while step < maxSteps
        invariant 0 <= step == |records| && (step == 0 || step <= maxSteps)
        invariant Valid() && GateHeld(world, events) && Dones(events) == 0 && Steps(events) == step
        invariant RunLength(failed) < STUCK_AFTER && (toolsRan <==> records != [])
        invariant Turned(world, chain, records) && failed == FailedOver(world, records)
        invariant messages == opening + MessagesOver(world, records) && TextOf(events) == TextOver(records)
        invariant forall k :: 0 <= k < |records| ==> records[k].exit == None
      {
        ghost var before, history := events, failed;
        var ended;
        ghost var body, r;
        ended, body, r := RunStep(step);
        StepCounts(world, before, Step(step + 1, maxSteps), body);
        TurnedStep(world, chain, records, r);
        RightMeans(world, chain, step, step > 0, r, history);
        Grouped(opening, MessagesOver(world, records), StepMessages(world, step, ended, r.content, r.calls, history));
        records := records + [r];
        if ended != None {
          TurnEnds(world, before + [Step(step + 1, maxSteps)] + body, Done(step + 1));
          TurnAttemptsBounded(world, chain, records);
          CountedMeans(failed, repeatedFailures, lastSignature);
          from := FailedOverMeans(world, records);
          return ended.value, records, from;
        }
        step := step + 1;
      }
      AppendPlain(messages, Assistant(world.budgetNote, []));
      messages := messages + [Assistant(world.budgetNote, [])];
      Save();
      TurnContinues(world, events, Text(world.budgetNote));
      TurnEnds(world, events + [Text(world.budgetNote)], Done(step));
      events := events + [Text(world.budgetNote)] + [Done(step)];
      CountedMeans(failed, repeatedFailures, lastSignature);
      TurnAttemptsBounded(world, chain, records);
      from := FailedOverMeans(world, records);
      exit := OutOfSteps;
    }
  }

  lemma {:induction false} NothingCounted(world: World, chain: seq<Target>)
    ensures GateHeld(world, []) && Dones([]) == 0 && Steps([]) == 0 && RunLength([]) == 0 && TextOf([]) == ""
    ensures Turned(world, chain, []) && FailedOver(world, []) == []
    ensures MessagesOver(world, []) == [] && TextOver([]) == ""
  {
  }

  lemma {:induction false} TurnContinues(world: World, events: seq<Event>, e: Event)
    requires GateHeld(world, events) && !e.ToolStarted? && !e.Done? && !e.Step?
    ensures GateHeld(world, events + [e])
    ensures Dones(events + [e]) == Dones(events) && Steps(events + [e]) == Steps(events)
    ensures TextOf(events + [e]) == TextOf(events) + if e.Text? then e.text else ""
  {
    OneEvent(world, e);
    GateConcat(world, events, [e]);
    CountsConcat(events, [e]);
    TextOfConcat(events, [e]);
  }

  lemma {:induction false} TurnEnds(world: World, events: seq<Event>, e: Event)
    requires GateHeld(world, events) && Dones(events) == 0 && e.Done?
    ensures var all := events + [e];
            && GateHeld(world, all) && Dones(all) == 1 && Steps(all) == Steps(events) && all[|all| - 1] == e
            && TextOf(all) == TextOf(events)
  {
    OneEvent(world, e);
    GateConcat(world, events, [e]);
    CountsConcat(events, [e]);
    TextOfConcat(events, [e]);
  }

  lemma {:induction false} StepCounts(world: World, events: seq<Event>, e: Event, body: seq<Event>)
    requires GateHeld(world, events) && Dones(events) == 0 && e.Step? && Inner(world, body)
    ensures var all := events + [e] + body;
            && GateHeld(world, all) && Dones(all) == 0 && Steps(all) == Steps(events) + 1
            && TextOf(all) == TextOf(events) + TextOf(body) && all + [] == all
  {
    OneEvent(world, e);
    GateConcat(world, events, [e]);
    CountsConcat(events, [e]);
    TextOfConcat(events, [e]);
    GateConcat(world, events + [e], body);
    CountsConcat(events + [e], body);
    TextOfConcat(events + [e], body);
  }

  // How a right step's exit, calls and failures hang together.
  lemma {:induction false} RightMeans(world: World, chain: seq<Target>, step: nat, toolsBefore: bool, r: StepRecord,
                                      failed: seq<string>)
    requires RightStep(world, chain, step, toolsBefore, r, failed) && RunLength(failed) < STUCK_AFTER
    ensures r.exit == None ==> r.calls != []
    ensures r.exit == Some(Stuck) <==> RunLength(FailedBy(world, step, r.calls, |r.calls|, failed)) >= STUCK_AFTER
    ensures r.exit != Some(OutOfSteps)
  {
    hide Walked, RunLength, NothingLeftToTry, IsAbort, AllLeft;
    assert r.calls == [] ==> FailedBy(world, step, r.calls, |r.calls|, failed) == failed;
  }

  lemma {:induction false} Grouped<T>(x: seq<T>, y: seq<T>, z: seq<T>)
    ensures (x + y) + z == x + (y + z)
  {
  }

  lemma {:induction false} Regrouped<T>(w: seq<T>, x: seq<T>, y: seq<T>, z: seq<T>)
    ensures w + x + y == w + (x + y) && w + x + y + z == w + (x + y + z)
  {
  }

  // What a walk's outcome says about its log.
  ghost predicate OutcomeFits(world: World, chain: seq<Target>, step: nat, toolsRan: bool, outcome: Outcome,
                              log: seq<Attempt>, made: nat) {
    && (outcome.NoTargets? ==> log == [])
    && (outcome.StoppedWaiting? ==> log != [] && AllLeft(log) && world.abortedWaiting(step, made + 1))
    && (log != [] ==> LastShown(log) <= Concat(world.chat(step, |log| - 1).chunks))
    && (outcome.Ended? ==>
          && log != [] && outcome.reply == world.chat(step, |log| - 1) && outcome.emitted == |LastShown(log)|
          && outcome.verdict == log[|log| - 1].verdict
          && (if outcome.verdict.Good? then outcome.reply.Answer?
              else NothingLeftToTry(world, chain, toolsRan, log, made)))
  }

  lemma {:induction false} WalkOutcome(world: World, chain: seq<Target>, step: nat, toolsRan: bool, log: seq<Attempt>,
                                       made: nat, outcome: Outcome)
    requires Walked(world, chain, step, log, made)
    requires outcome == OutcomeOf(world, step, log) ||
             (outcome.StoppedWaiting? && AllLeft(log) && log != [] && world.abortedWaiting(step, made + 1))
    requires outcome.Ended? && !outcome.verdict.Good? ==> NothingLeftToTry(world, chain, toolsRan, log, made)
    ensures OutcomeFits(world, chain, step, toolsRan, outcome, log, made)
  {
    hide Scheduled, AllLeft, Earned, NothingLeftToTry, Shown;
    if log != [] {
      ShownIsPrefix(world, world.chat(step, |log| - 1));
    }
  }

  lemma {:induction false} GoodOutcome(world: World, chain: seq<Target>, step: nat, toolsRan: bool, outcome: Outcome,
                                       log: seq<Attempt>, made: nat)
    requires OutcomeFits(world, chain, step, toolsRan, outcome, log, made) && outcome.Ended? && outcome.verdict.Good?
    ensures outcome.reply.Answer? && Concat(outcome.reply.chunks) == ContentOf(world, step, log)
    ensures outcome.emitted == |LastShown(log)| && LastShown(log) <= ContentOf(world, step, log)
  {
    hide AllLeft, NothingLeftToTry, LastShown, Concat;
  }

  // What was shown while the reply streamed, followed by what was released afterwards.
  lemma {:induction false} RightGood(world: World, chain: seq<Target>, step: nat, toolsBefore: bool, r: StepRecord,
                                     failed: seq<string>, outcome: Outcome)
    requires Walked(world, chain, step, r.log, r.made) && (toolsBefore ==> r.made == 0)
    requires OutcomeFits(world, chain, step, toolsBefore, outcome, r.log, r.made)
    requires outcome.Ended? && outcome.verdict.Good?
    requires outcome.reply.Answer? && r.calls == WantedCalls(world, step, outcome.reply)
    requires r.exit == GoodExit(r.calls, FailedBy(world, step, r.calls, |r.calls|, failed))
    requires r.content == ContentOf(world, step, r.log) && |LastShown(r.log)| <= |r.content|
    requires r.text == LastShown(r.log) + if r.exit == Some(Answered) then r.content[|LastShown(r.log)|..] else ""
    ensures RightStep(world, chain, step, toolsBefore, r, failed)
  {
    hide Walked, LastShown, AllLeft, NothingLeftToTry, FailedBy, RunLength, Concat, IsAbort;
    GoodOutcome(world, chain, step, toolsBefore, outcome, r.log, r.made);
    assert r.text == if r.exit == Some(Answered) then r.content else LastShown(r.log);
  }

  lemma {:induction false} RightBad(world: World, chain: seq<Target>, step: nat, toolsBefore: bool, r: StepRecord,
                                    failed: seq<string>, outcome: Outcome)
    requires Walked(world, chain, step, r.log, r.made) && (toolsBefore ==> r.made == 0)
    requires OutcomeFits(world, chain, step, toolsBefore, outcome, r.log, r.made)
    requires !(outcome.Ended? && outcome.verdict.Good?)
    requires r.exit == Some(if outcome.StoppedWaiting? || (outcome.Ended? && IsAbort(outcome.verdict)) then Stopped
                            else if outcome.NoTargets? then NoResult else Failed)
    requires r.content == ContentOf(world, step, r.log) && r.calls == [] && r.text == LastShown(r.log)
    ensures RightStep(world, chain, step, toolsBefore, r, failed)
  {
    hide Walked, NothingLeftToTry, FailedBy, RunLength, Concat, IsAbort;
    if r.log != [] {
      assert outcome.StoppedWaiting? ==> MayLeave(r.log[|r.log| - 1]);
    }
  }

  lemma {:induction false} NoCallsAnswered(world: World, step: nat, content: string, calls: seq<ToolCall>,
                                           failed: seq<string>)
    ensures calls == [] ==>
              StepMessages(world, step, Some(Answered), content, calls, failed) == [Assistant(content, [])]
    ensures calls == [] ==> FailedBy(world, step, calls, |calls|, failed) == failed
  {
  }

  lemma {:induction false} NoCalls(world: World, step: nat, exit: Option<Exit>, content: string, failed: seq<string>)
    requires exit != None && exit != Some(Answered) && exit != Some(Stuck)
    ensures StepMessages(world, step, exit, content, [], failed) == StepMessages(world, step, exit, "", [], failed)
    ensures FailedBy(world, step, [], 0, failed) == failed
  {
  }

  lemma {:induction false} CountedMeans(failed: seq<string>, repeated: nat, signature: string)
    requires Counted(failed, repeated, signature)
    ensures repeated == RunLength(failed)
  {
  }

  // One more event that is no step, end or tool start.
  lemma {:induction false} Extend(world: World, events: seq<Event>, e: Event)
    requires Inner(world, events) && !e.Step? && !e.Done? && !e.ToolStarted?
    ensures Inner(world, events + [e])
    ensures TextOf(events + [e]) == TextOf(events) + if e.Text? then e.text else ""
  {
    OneEvent(world, e);
    InnerConcat(world, events, [e]);
    TextOfConcat(events, [e]);
  }

  lemma {:induction false} ErrorInner(world: World)
    ensures Inner(world, [Error]) && TextOf([Error]) == ""
  {
    OneEvent(world, Error);
  }
}
