// The attempt loop of ontrak-genie/src/agent.ts: a fallback chain that grows while it is
// walked, with the gateway's answers as arbitrary inputs.

module ChainWalk {
  import opened Strings
  import opened TextBuffer
  import opened Transcript
  import Approval

  datatype Target = Target(model: string, offline: bool)

  // What the three failure tests of the gateway client say about an error.
  datatype Failure = Failure(abort: bool, retryable: bool, unknownModel: bool)

  // One attempt as the gateway plays it: text chunks, then an answer or an error. A
  // completed answer's content is the concatenation of its chunks.
  datatype Reply =
    | Answer(chunks: seq<string>, calls: seq<ToolCall>, filtered: bool)
    | Broken(chunks: seq<string>, failure: Failure)

  // Everything a turn does not decide itself, step by step.
  datatype World = World(
    chat: (nat, nat) -> Reply,              // step, attempt
    abortedWaiting: (nat, nat) -> bool,     // step, repeat
    looksLikeCall: string -> bool,
    salvage: (nat, string) -> seq<ToolCall>,
    gated: (nat, nat) -> bool,              // step, index of the call
    decision: (nat, nat) -> Approval.Decision,
    tool: (nat, nat) -> ToolOutcome,
    refusal: Approval.Decision -> string,
    nudge: string,
    failureNote: nat -> string,
    stuckNote: nat -> string,
    budgetNote: string,
    stream: bool,
    autoFree: bool,
    retryAttempts: nat
  )

  datatype ToolOutcome = ToolOutcome(ok: bool, content: string)

  // What the attempt showed before it ended, and what is to be made of it.
  datatype Verdict = Good | Blank | Blocked | Bad(failure: Failure)

  function Shown(world: World, reply: Reply): string {
    if world.stream then FeedAll(reply.chunks, world.looksLikeCall).shown else ""
  }

  function Judge(reply: Reply, emitted: nat): Verdict {
    match reply
    case Broken(_, failure) => Bad(failure)
    case Answer(chunks, calls, filtered) =>
      if filtered && emitted == 0 then Blocked
      else if IsBlank(Concat(chunks)) && calls == [] then Blank
      else Good
  }

  // An answer is good unless a filter stopped it before anything was shown, or it has
  // neither a call nor a character that is not white space; an error is that error.
  lemma {:induction false} JudgeMeans(reply: Reply, emitted: nat)
    ensures Judge(reply, emitted).Good? <==>
            && reply.Answer? && !(reply.filtered && emitted == 0)
            && (reply.calls != [] || exists c :: c in Concat(reply.chunks) && !IsSpace(c))
    ensures Judge(reply, emitted).Blocked? <==> reply.Answer? && reply.filtered && emitted == 0
    ensures Judge(reply, emitted).Bad? <==> reply.Broken?
    ensures reply.Broken? ==> Judge(reply, emitted).failure == reply.failure
  {
    BlankMeans(Concat(reply.chunks));
    hide IsBlank, IsSpace;
  }

  // Something that might clear later.
  predicate Temporary(v: Verdict) {
    v.Good? || v.Blank? || v.Blocked? || v.failure.retryable
  }

  predicate Unknown(v: Verdict) {
    v.Bad? && v.failure.unknownModel
  }

  predicate IsAbort(v: Verdict) {
    v.Bad? && v.failure.abort
  }

  // ---- Walks ----

  function Without(chain: seq<Target>, dropped: set<string>): (r: seq<Target>)
    ensures |r| <= |chain|
    ensures forall t :: t in r <==> t in chain && t.model !in dropped
  {
    if chain == [] then []
    else (if chain[0].model in dropped then [] else [chain[0]]) + Without(chain[1..], dropped)
  }

  // `from` lists where the entries of `left` stand in the chain, in order, and no other
  // entry of the chain has a name outside `dropped`.
  ghost predicate LeavesOut(chain: seq<Target>, dropped: set<string>, left: seq<Target>, from: seq<nat>) {
    && |from| == |left|
    && (forall k :: 0 <= k < |from| ==>
          from[k] < |chain| && chain[from[k]] == left[k] && left[k].model !in dropped)
    && (forall j, k :: 0 <= j < k < |from| ==> from[j] < from[k])
    && (forall i :: 0 <= i < |chain| && chain[i].model !in dropped ==> i in from)
  }

  lemma {:induction false} LeavesOutStep(front: seq<Target>, last: Target, dropped: set<string>, left: seq<Target>,
                                         from: seq<nat>)
    requires LeavesOut(front, dropped, left, from)
    ensures last.model in dropped ==> LeavesOut(front + [last], dropped, left, from)
    ensures last.model !in dropped ==> LeavesOut(front + [last], dropped, left + [last], from + [|front|])
  {
    var chain := front + [last];
    assert forall i :: 0 <= i < |front| ==> chain[i] == front[i];
    assert forall i :: i in from ==> i in from + [|front|];
    assert (from + [|front|])[|from|] == |front|;
  }

  // The entries left stand in the chain's order, each as often as there.
  lemma {:induction false} WithoutKeepsOrder(chain: seq<Target>, dropped: set<string>) returns (from: seq<nat>)
    ensures LeavesOut(chain, dropped, Without(chain, dropped), from)
  {
    hide *;
    if chain == [] {
      from := [];
      LeavesOutNothing(dropped);
    } else {
      var n := |chain| - 1;
      var front, last := chain[..n], chain[n];
      from := WithoutKeepsOrder(front, dropped);
      WithoutLast(front, last, dropped);
      LeavesOutStep(front, last, dropped, Without(front, dropped), from);
      assert chain == front + [last];
      if last.model !in dropped {
        from := from + [n];
      }
    }
  }

  lemma {:induction false} LeavesOutNothing(dropped: set<string>)
    ensures LeavesOut([], dropped, Without([], dropped), [])
  {
  }

  lemma {:induction false} WithoutFirst(first: Target, rest: seq<Target>, dropped: set<string>)
    ensures first.model in dropped ==> Without([first] + rest, dropped) == Without(rest, dropped)
    ensures first.model !in dropped ==> Without([first] + rest, dropped) == [first] + Without(rest, dropped)
  {
    assert ([first] + rest)[1..] == rest;
    assert [] + Without(rest, dropped) == Without(rest, dropped);
  }

  lemma {:induction false} WithoutNone(dropped: set<string>)
    ensures Without([], dropped) == []
  {
  }

  lemma {:induction false} WithoutLast(front: seq<Target>, last: Target, dropped: set<string>)
    ensures last.model in dropped ==> Without(front + [last], dropped) == Without(front, dropped)
    ensures last.model !in dropped ==> Without(front + [last], dropped) == Without(front, dropped) + [last]
  {
    hide *;
    if front == [] {
      WithoutNone(dropped);
      WithoutFirst(last, [], dropped);
      assert front + [last] == [last] + [];
    } else {
      WithoutLast(front[1..], last, dropped);
      WithoutFirst(front[0], front[1..] + [last], dropped);
      WithoutFirst(front[0], front[1..], dropped);
      assert front == [front[0]] + front[1..] && front + [last] == [front[0]] + (front[1..] + [last]);
    }
  }

  // One attempt of the step, and what became of it.
  datatype Attempt = Attempt(target: Target, shown: string, verdict: Verdict)

  function DroppedBy(log: seq<Attempt>): set<string> {
    set i | 0 <= i < |log| && Unknown(log[i].verdict) :: log[i].target.model
  }

  // The list being walked after `repeats` repeats: the chain, then for every repeat the
  // chain without the models that had turned out unknown when the list was exhausted.
  function TargetsAfter(chain: seq<Target>, log: seq<Attempt>, repeats: nat): seq<Target> {
    if repeats == 0 then chain
    else
      var t := TargetsAfter(chain, log, repeats - 1);
      if |t| <= |log| then t + Without(chain, DroppedBy(log[..|t|])) else t
  }

  // Where the walk under way started.
  function WalkStart(chain: seq<Target>, log: seq<Attempt>, repeats: nat): nat {
    if repeats == 0 then 0 else |TargetsAfter(chain, log, repeats - 1)|
  }

  // The attempts follow that list.
  ghost predicate Scheduled(chain: seq<Target>, log: seq<Attempt>, repeats: nat) {
    var targets := TargetsAfter(chain, log, repeats);
    && WalkStart(chain, log, repeats) <= |log| <= |targets|
    && forall i :: 0 <= i < |log| ==> log[i].target == targets[i]
  }

  // Every attempt is what the gateway and the buffer make of it, in order.
  ghost predicate Faithful(world: World, step: nat, log: seq<Attempt>) {
    forall i :: 0 <= i < |log| ==>
      && log[i].shown == Shown(world, world.chat(step, i))
      && log[i].verdict == Judge(world.chat(step, i), |log[i].shown|)
  }

  // An attempt that may be left for another one: nothing was shown, it was no success, and
  // the person did not stop it.
  predicate MayLeave(a: Attempt) {
    a.shown == "" && !a.verdict.Good? && !IsAbort(a.verdict)
  }

  ghost predicate AllLeft(log: seq<Attempt>) {
    forall i :: 0 <= i < |log| ==> MayLeave(log[i])
  }

  // Something in the walk under way might clear later.
  ghost predicate Throttled(log: seq<Attempt>, from: nat) {
    exists i :: from <= i < |log| && Temporary(log[i].verdict)
  }

  ghost predicate EndsWalk(chain: seq<Target>, log: seq<Attempt>, repeats: nat, n: nat) {
    exists m: nat :: 0 < m <= repeats && WalkStart(chain, log, m) == n
  }

  // Something in the walk before repeat `m` might clear later, and it did not end on a filter.
  ghost predicate RepeatEarned(chain: seq<Target>, log: seq<Attempt>, m: nat)
    requires m > 0
  {
    var from, n := WalkStart(chain, log, m - 1), WalkStart(chain, log, m);
    from < n <= |log| && Throttled(log[..n], from) && !log[n - 1].verdict.Blocked?
  }

  // The attempt was left because it may clear later, because its model is unknown, or
  // because it ended its walk.
  ghost predicate LeftRightly(chain: seq<Target>, log: seq<Attempt>, repeats: nat, i: nat)
    requires i < |log|
  {
    Temporary(log[i].verdict) || Unknown(log[i].verdict) || EndsWalk(chain, log, repeats, i + 1)
  }

  // Every attempt but the last was left rightly, and every repeat was earned.
  ghost predicate Earned(chain: seq<Target>, log: seq<Attempt>, repeats: nat) {
    && (forall i: nat :: i < |log| - 1 ==> LeftRightly(chain, log, repeats, i))
    && (forall m: nat :: 0 < m <= repeats ==> RepeatEarned(chain, log, m))
  }

  // A whole walk of one step: `made` repeats, and the attempts they and the chain call for.
  ghost predicate Walked(world: World, chain: seq<Target>, step: nat, log: seq<Attempt>, made: nat) {
    && Faithful(world, step, log) && Scheduled(chain, log, made) && made <= world.retryAttempts
    && (log == [] <==> chain == [])
    && (log != [] ==> AllLeft(log[..|log| - 1])) && Earned(chain, log, made)
  }

  // Why a step with an unsuccessful last attempt may end without another one: it showed
  // something or was stopped; or it failed for good; or the list is exhausted and a repeat
  // is pointless, forbidden, or has nothing in it.
  ghost predicate NothingLeftToTry(world: World, chain: seq<Target>, toolsRan: bool, log: seq<Attempt>, repeats: nat)
    requires log != []
  {
    var last, n := log[|log| - 1], |TargetsAfter(chain, log, repeats)|;
    || !MayLeave(last)
    || (|log| < n && !Temporary(last.verdict) && !Unknown(last.verdict))
    || (|log| == n &&
          (|| toolsRan || repeats == world.retryAttempts || last.verdict.Blocked?
           || !Throttled(log, WalkStart(chain, log, repeats)) || WalkStart(chain, log, repeats) == n))
  }

  datatype Outcome =
    | NoTargets
    | StoppedWaiting
    | Ended(reply: Reply, target: Target, emitted: nat, verdict: Verdict)

  datatype Event =
    | Step(index: nat, of: int)
    | Text(text: string)
    | ToolStarted(step: nat, call: nat)
    | ToolResult(id: string, ok: bool, content: string)
    | ApprovalRequest(step: nat, call: nat)
    | ApprovalResult(step: nat, call: nat, decision: Approval.Decision)
    | Gateway(offline: bool)
    | Notice
    | Error
    | Done(steps: nat)

  // The text the client saw.
  function TextOf(events: seq<Event>): string {
    if events == [] then ""
    else TextOf(events[..|events| - 1]) +
         (if events[|events| - 1].Text? then events[|events| - 1].text else "")
  }

  lemma {:induction false} TextOfConcat(a: seq<Event>, b: seq<Event>)
    ensures TextOf(a + b) == TextOf(a) + TextOf(b)
    decreases |b|
  {
    if b == [] {
      assert a + b == a;
    } else {
      var n := |b| - 1;
      assert (a + b)[..|a + b| - 1] == a + b[..n];
      TextOfConcat(a, b[..n]);
    }
  }

  predicate Quiet(e: Event) {
    e.Text? || e.Notice?
  }

  ghost predicate AllQuiet(events: seq<Event>) {
    forall i :: 0 <= i < |events| ==> Quiet(events[i])
  }

  function AsText(texts: seq<string>): (events: seq<Event>)
    ensures |events| == |texts| && forall i :: 0 <= i < |texts| ==> events[i] == Text(texts[i])
  {
    seq(|texts|, i requires 0 <= i < |texts| => Text(texts[i]))
  }

  lemma {:induction false} TextOfTexts(texts: seq<string>)
    ensures TextOf(AsText(texts)) == Concat(texts)
  {
    if texts != [] {
      var n := |texts| - 1;
      TextOfTexts(texts[..n]);
      assert AsText(texts)[..n] == AsText(texts[..n]);
    }
  }

  // One attempt: the reply is shown as far as the buffer lets it.
  method Try(world: World, step: nat, attempt: nat) returns (events: seq<Event>, emitted: nat)
    ensures TextOf(events) == Shown(world, world.chat(step, attempt)) && AllQuiet(events)
    ensures emitted == |Shown(world, world.chat(step, attempt))|
  {
    if world.stream {
      var chunks := world.chat(step, attempt).chunks;
      var texts;
      texts, emitted := StreamReply(chunks, world.looksLikeCall);
      events := AsText(texts);
      TextOfTexts(texts);
    } else {
      events, emitted := [], 0;
    }
  }

  // One attempt, judged.
  method TryTarget(world: World, step: nat, attempt: nat, target: Target)
      returns (shown: seq<Event>, emitted: nat, verdict: Verdict, ghost a: Attempt)
    ensures TextOf(shown) == a.shown && AllQuiet(shown) && emitted == |a.shown|
    ensures a.target == target && a.verdict == verdict
    ensures a.shown == Shown(world, world.chat(step, attempt))
    ensures a.verdict == Judge(world.chat(step, attempt), |a.shown|)
    ensures MayLeave(a) <==> emitted == 0 && !verdict.Good? && !IsAbort(verdict)
  {
    shown, emitted := Try(world, step, attempt);
    verdict := Judge(world.chat(step, attempt), emitted);
    a := Attempt(target, Shown(world, world.chat(step, attempt)), verdict);
  }

  // Whatever was shown is a prefix of that attempt's content.
  lemma {:induction false} ShownIsPrefix(world: World, reply: Reply)
    ensures Shown(world, reply) <= Concat(reply.chunks)
  {
    StreamSettles(reply.chunks, world.looksLikeCall);
  }

  // The loop variables of one step, against the attempts made so far.
  ghost predicate Walking(world: World, chain: seq<Target>, step: nat, toolsRan: bool, log: seq<Attempt>,
                          targets: seq<Target>, repeats: nat, dropped: set<string>, throttled: bool) {
    && targets == TargetsAfter(chain, log, repeats)
    && Scheduled(chain, log, repeats) && Faithful(world, step, log)
    && repeats <= world.retryAttempts && (toolsRan ==> repeats == 0)
    && dropped == DroppedBy(log) && (throttled <==> Throttled(log, WalkStart(chain, log, repeats)))
    && Earned(chain, log, repeats)
  }

  // The walk may go on: the last attempt was left rightly.
  ghost predicate MayGoOn(chain: seq<Target>, log: seq<Attempt>, repeats: nat) {
    log != [] ==> LeftRightly(chain, log, repeats, |log| - 1)
  }

  lemma {:induction false} TargetsGrow(chain: seq<Target>, log: seq<Attempt>, repeats: nat)
    ensures WalkStart(chain, log, repeats) <= |TargetsAfter(chain, log, repeats)|
  {
    hide DroppedBy, Without;
  }

  // A longer log does not change the list that was already being walked.
  lemma {:induction false} TargetsStable(chain: seq<Target>, log: seq<Attempt>, more: seq<Attempt>, repeats: nat)
    requires WalkStart(chain, log, repeats) <= |log|
    ensures TargetsAfter(chain, log + more, repeats) == TargetsAfter(chain, log, repeats)
    ensures WalkStart(chain, log + more, repeats) == WalkStart(chain, log, repeats)
  {
    hide DroppedBy, Without;
    if repeats > 0 {
      var t := TargetsAfter(chain, log, repeats - 1);
      TargetsGrow(chain, log, repeats - 1);
      TargetsStable(chain, log, more, repeats - 1);
      assert (log + more)[..|t|] == log[..|t|];
    }
  }

  lemma {:induction false} DroppedStep(log: seq<Attempt>, a: Attempt)
    ensures DroppedBy(log + [a]) == if Unknown(a.verdict) then DroppedBy(log) + {a.target.model} else DroppedBy(log)
  {
    var more := log + [a];
    forall m | m in DroppedBy(log)
      ensures m in DroppedBy(more)
    {
      var i :| 0 <= i < |log| && Unknown(log[i].verdict) && log[i].target.model == m;
      assert more[i] == log[i];
    }
    assert more[|log|] == a;
  }

  lemma {:induction false} ThrottledStep(log: seq<Attempt>, from: nat, a: Attempt)
    requires from <= |log|
    ensures Throttled(log + [a], from) <==> Throttled(log, from) || Temporary(a.verdict)
  {
    var more := log + [a];
    assert more[|log|] == a;
    if Throttled(log, from) {
      var i :| from <= i < |log| && Temporary(log[i].verdict);
      assert more[i] == log[i];
    }
  }

  lemma {:induction false} WalkingStart(world: World, chain: seq<Target>, step: nat, toolsRan: bool)
    ensures Walking(world, chain, step, toolsRan, [], chain, 0, {}, false) && MayGoOn(chain, [], 0)
  {
  }

  lemma {:induction false} WalkingTried(world: World, chain: seq<Target>, step: nat, toolsRan: bool, log: seq<Attempt>,
                                        targets: seq<Target>, repeats: nat, dropped: set<string>, throttled: bool,
                                        a: Attempt)
    requires Walking(world, chain, step, toolsRan, log, targets, repeats, dropped, throttled)
    requires MayGoOn(chain, log, repeats) && |log| < |targets| && a.target == targets[|log|]
    requires a.shown == Shown(world, world.chat(step, |log|))
    requires a.verdict == Judge(world.chat(step, |log|), |a.shown|)
    ensures Walking(world, chain, step, toolsRan, log + [a], targets, repeats,
                    if Unknown(a.verdict) then dropped + {a.target.model} else dropped,
                    throttled || Temporary(a.verdict))
  {
    hide Shown, Judge, Temporary, Unknown, DroppedBy, Without, Earned, LeftRightly;
    var more := log + [a];
    EarnedTried(chain, log, repeats, a);
    TargetsStable(chain, log, [a], repeats);
    DroppedStep(log, a);
    ThrottledStep(log, WalkStart(chain, log, repeats), a);
    assert more[|log|] == a;
    assert Scheduled(chain, more, repeats);
    assert Faithful(world, step, more);
  }

  lemma {:induction false} WalkingRepeat(world: World, chain: seq<Target>, step: nat, toolsRan: bool, log: seq<Attempt>,
                                         targets: seq<Target>, repeats: nat, dropped: set<string>, throttled: bool)
    requires Walking(world, chain, step, toolsRan, log, targets, repeats, dropped, throttled)
    requires |log| == |targets| && repeats < world.retryAttempts && !toolsRan && log != []
    requires throttled && !log[|log| - 1].verdict.Blocked?
    ensures var longer := targets + Without(chain, dropped);
            && Walking(world, chain, step, toolsRan, log, longer, repeats + 1, dropped, false)
            && MayGoOn(chain, log, repeats + 1)
            && (|longer| == |log| ==> NothingLeftToTry(world, chain, toolsRan, log, repeats + 1))
  {
    hide Earned, MayGoOn, TargetsAfter, DroppedBy, Without, Faithful, WalkStart, Scheduled, Throttled, NothingLeftToTry;
    ScheduledMeans(chain, log, repeats);
    RepeatLengthens(chain, log, repeats);
    EarnedRepeat(chain, log, repeats);
    if |targets + Without(chain, dropped)| == |log| {
      NothingAdded(world, chain, toolsRan, log, repeats + 1);
    }
  }

  lemma {:induction false} ScheduledMeans(chain: seq<Target>, log: seq<Attempt>, repeats: nat)
    requires Scheduled(chain, log, repeats)
    ensures |log| <= |TargetsAfter(chain, log, repeats)|
  {
  }

  lemma {:induction false} NothingAdded(world: World, chain: seq<Target>, toolsRan: bool, log: seq<Attempt>,
                                        repeats: nat)
    requires log != [] && |TargetsAfter(chain, log, repeats)| == |log| == WalkStart(chain, log, repeats)
    ensures NothingLeftToTry(world, chain, toolsRan, log, repeats)
  {
    hide TargetsAfter, WalkStart, Throttled;
  }

  lemma {:induction false} RepeatLengthens(chain: seq<Target>, log: seq<Attempt>, repeats: nat)
    requires Scheduled(chain, log, repeats) && |TargetsAfter(chain, log, repeats)| == |log|
    ensures Scheduled(chain, log, repeats + 1) && !Throttled(log, WalkStart(chain, log, repeats + 1))
    ensures TargetsAfter(chain, log, repeats + 1) == TargetsAfter(chain, log, repeats) + Without(chain, DroppedBy(log))
    ensures WalkStart(chain, log, repeats + 1) == |log|
  {
    hide DroppedBy, Without;
    assert log[..|log|] == log;
  }

  // The two reasons to walk on do not apply: the step has nothing left to try.
  lemma {:induction false} GivesUp(world: World, chain: seq<Target>, step: nat, toolsRan: bool, log: seq<Attempt>,
                                   targets: seq<Target>, repeats: nat, dropped: set<string>, throttled: bool)
    requires Walking(world, chain, step, toolsRan, log, targets, repeats, dropped, throttled)
    requires log != [] && !log[|log| - 1].verdict.Good?
    requires var last := log[|log| - 1];
             && !(|log| < |targets| && (Temporary(last.verdict) || Unknown(last.verdict)) && MayLeave(last))
             && !(|log| >= |targets| && throttled && !last.verdict.Blocked? && MayLeave(last) && !toolsRan &&
                  repeats < world.retryAttempts)
    ensures NothingLeftToTry(world, chain, toolsRan, log, repeats)
  {
  }

  lemma {:induction false} WalkingMeans(world: World, chain: seq<Target>, step: nat, toolsRan: bool, log: seq<Attempt>,
                                        targets: seq<Target>, repeats: nat, dropped: set<string>, throttled: bool)
    requires Walking(world, chain, step, toolsRan, log, targets, repeats, dropped, throttled)
    requires (log == [] <==> chain == []) && (log != [] ==> AllLeft(log[..|log| - 1]))
    ensures Walked(world, chain, step, log, repeats) && (toolsRan ==> repeats == 0)
  {
  }

  lemma {:induction false} EarnedTried(chain: seq<Target>, log: seq<Attempt>, repeats: nat, a: Attempt)
    requires Earned(chain, log, repeats) && MayGoOn(chain, log, repeats)
    ensures Earned(chain, log + [a], repeats)
  {
    hide Temporary, Unknown;
    hide EndsWalk;
    var more := log + [a];
    forall m: nat | 0 < m <= repeats
      ensures RepeatEarned(chain, more, m)
    {
      EarnedStays(chain, log, repeats, m, a);
    }
    forall i: nat | i < |log|
      ensures LeftRightly(chain, more, repeats, i)
    {
      LeftStays(chain, log, repeats, i, a);
    }
  }

  lemma {:induction false} LeftStays(chain: seq<Target>, log: seq<Attempt>, repeats: nat, i: nat, a: Attempt)
    requires Earned(chain, log, repeats) && i < |log| && LeftRightly(chain, log, repeats, i)
    ensures LeftRightly(chain, log + [a], repeats, i)
  {
    hide Temporary, Unknown, RepeatEarned;
    assert (log + [a])[i] == log[i];
    if EndsWalk(chain, log, repeats, i + 1) {
      var m: nat :| 0 < m <= repeats && WalkStart(chain, log, m) == i + 1;
      EarnedStays(chain, log, repeats, m, a);
    }
  }

  lemma {:induction false} EarnedStays(chain: seq<Target>, log: seq<Attempt>, repeats: nat, m: nat, a: Attempt)
    requires Earned(chain, log, repeats) && 0 < m <= repeats
    ensures WalkStart(chain, log + [a], m) == WalkStart(chain, log, m) && RepeatEarned(chain, log + [a], m)
  {
    hide TargetsAfter, WalkStart, LeftRightly;
    var more, n := log + [a], WalkStart(chain, log, m);
    assert RepeatEarned(chain, log, m);
    TargetsStable(chain, log, [a], m);
    TargetsStable(chain, log, [a], m - 1);
    assert more[..n] == log[..n] && more[n - 1] == log[n - 1];
  }

  lemma {:induction false} EarnedRepeat(chain: seq<Target>, log: seq<Attempt>, repeats: nat)
    requires log != [] && Scheduled(chain, log, repeats) && |log| == |TargetsAfter(chain, log, repeats)|
    requires Earned(chain, log, repeats)
    requires Throttled(log, WalkStart(chain, log, repeats)) && !log[|log| - 1].verdict.Blocked?
    ensures Earned(chain, log, repeats + 1) && MayGoOn(chain, log, repeats + 1)
  {
    hide Temporary, Unknown, TargetsAfter, DroppedBy;
    assert log[..|log|] == log;
    assert WalkStart(chain, log, repeats + 1) == |log|;
    assert RepeatEarned(chain, log, repeats + 1);
    var next := repeats + 1;
    forall i: nat | i < |log|
      ensures LeftRightly(chain, log, next, i)
    {
      if i < |log| - 1 {
        assert LeftRightly(chain, log, repeats, i);
        if EndsWalk(chain, log, repeats, i + 1) {
          var m: nat :| 0 < m <= repeats && WalkStart(chain, log, m) == i + 1;
          assert 0 < m <= next;
        }
      }
    }
  }

  lemma {:induction false} GoesOn(chain: seq<Target>, log: seq<Attempt>, repeats: nat, a: Attempt)
    requires Temporary(a.verdict) || Unknown(a.verdict)
    ensures MayGoOn(chain, log + [a], repeats)
  {
    hide Temporary, Unknown, EndsWalk;
  }

  lemma {:induction false} QuietConcat(events: seq<Event>, more: seq<Event>)
    requires AllQuiet(events) && AllQuiet(more) && TextOf(events) == ""
    ensures AllQuiet(events + more) && TextOf(events + more) == TextOf(more)
  {
    TextOfConcat(events, more);
  }

  function LastShown(log: seq<Attempt>): string {
    if log == [] then "" else log[|log| - 1].shown
  }

  function OutcomeOf(world: World, step: nat, log: seq<Attempt>): Outcome {
    if log == [] then NoTargets
    else
      var last := log[|log| - 1];
      Ended(world.chat(step, |log| - 1), last.target, |last.shown|, last.verdict)
  }

  method Walk(world: World, chain: seq<Target>, step: nat, toolsRan: bool)
      returns (outcome: Outcome, events: seq<Event>, ghost log: seq<Attempt>, ghost made: nat)
    ensures Walked(world, chain, step, log, made) && (toolsRan ==> made == 0)
    ensures AllQuiet(events) && TextOf(events) == LastShown(log)
    ensures outcome == OutcomeOf(world, step, log) ||
            (outcome.StoppedWaiting? && AllLeft(log) && log != [] && world.abortedWaiting(step, made + 1))
    ensures outcome.Ended? && !outcome.verdict.Good? ==>
              NothingLeftToTry(world, chain, toolsRan, log, made)
  {
    hide *;
    var targets, attempt, repeats := chain, 0, 0;
    var dropped, throttled := {}, false;
    outcome, events, log, made := NoTargets, [], [], 0;
    WalkingStart(world, chain, step, toolsRan);
    NothingYet(world, step);
    while attempt < |targets|
      invariant attempt == |log| <= |targets| && made == repeats
      invariant Walking(world, chain, step, toolsRan, log, targets, repeats, dropped, throttled)
      invariant AllLeft(log) && AllQuiet(events) && TextOf(events) == ""
      invariant MayGoOn(chain, log, repeats)
      invariant if log == [] then targets == chain else chain != []
      invariant outcome == OutcomeOf(world, step, log)
      invariant log != [] && attempt == |targets| ==> NothingLeftToTry(world, chain, toolsRan, log, repeats)
      decreases world.retryAttempts - repeats, |targets| - attempt
    {
      var target := targets[attempt];
      var shown, emitted, verdict;
      ghost var a;
      shown, emitted, verdict, a := TryTarget(world, step, attempt, target);
      QuietConcat(events, shown);
      events := events + shown;
      WalkingTried(world, chain, step, toolsRan, log, targets, repeats, dropped, throttled, a);
      Logged(world, step, log, a);
      log := log + [a];
      outcome := Ended(world.chat(step, attempt), target, emitted, verdict);
      throttled := throttled || Temporary(verdict);
      if Unknown(verdict) {
        dropped := dropped + {target.model};
      }
      if verdict.Good? {
        break;
      }
      var hasNext := attempt + 1 < |targets|;
      if hasNext && (Temporary(verdict) || Unknown(verdict)) && emitted == 0 && !IsAbort(verdict) {
        if Unknown(verdict) || !world.autoFree {
          QuietConcat(events, [Notice]);
          events := events + [Notice];
        }
        GoesOn(chain, log[..attempt], repeats, a);
        attempt := attempt + 1;
        continue;
      }
      var idle := emitted == 0 && !toolsRan && !IsAbort(verdict);
      if !hasNext && throttled && !verdict.Blocked? && idle && repeats < world.retryAttempts {
        QuietConcat(events, [Notice]);
        events := events + [Notice];
        if world.abortedWaiting(step, repeats + 1) {
          AllLeftPrefix(log);
          WalkingMeans(world, chain, step, toolsRan, log, targets, repeats, dropped, throttled);
          return StoppedWaiting, events, log, made;
        }
        WalkingRepeat(world, chain, step, toolsRan, log, targets, repeats, dropped, throttled);
        repeats, made := repeats + 1, made + 1;
        throttled := false;
        targets := targets + Without(chain, dropped);
        attempt := attempt + 1;
        continue;
      }
      GivesUp(world, chain, step, toolsRan, log, targets, repeats, dropped, throttled);
      break;
    }
    AllLeftPrefix(log);
    WalkingMeans(world, chain, step, toolsRan, log, targets, repeats, dropped, throttled);
  }

  // What one more entry in the log means.
  lemma {:induction false} Logged(world: World, step: nat, log: seq<Attempt>, a: Attempt)
    ensures var more := log + [a];
            && OutcomeOf(world, step, more) == Ended(world.chat(step, |log|), a.target, |a.shown|, a.verdict)
            && LastShown(more) == a.shown && more[..|more| - 1] == log && more[|more| - 1] == a
            && (AllLeft(log) && MayLeave(a) ==> AllLeft(more))
            && (MayLeave(a) ==> a.shown == "")
  {
  }

  lemma {:induction false} AllLeftPrefix(log: seq<Attempt>)
    ensures AllLeft(log) && log != [] ==> AllLeft(log[..|log| - 1])
    ensures AllLeft(log) ==> LastShown(log) == ""
  {
  }

  lemma {:induction false} NothingYet(world: World, step: nat)
    ensures AllQuiet([]) && TextOf([]) == "" && AllQuiet([Notice]) && TextOf([Notice]) == ""
    ensures AllLeft([]) && OutcomeOf(world, step, []) == NoTargets
  {
    assert [Notice][..0] == [];
  }

  // ---- What a walk means ----

  // The walk is bounded although its list grows while it is walked.
  lemma {:induction false} AttemptsBounded(chain: seq<Target>, log: seq<Attempt>, repeats: nat)
    requires Scheduled(chain, log, repeats)
    ensures |log| <= |chain| * (repeats + 1)
  {
    TargetsBounded(chain, log, repeats);
  }

  lemma {:induction false} TargetsBounded(chain: seq<Target>, log: seq<Attempt>, repeats: nat)
    ensures |TargetsAfter(chain, log, repeats)| <= |chain| * (repeats + 1)
  {
    hide DroppedBy, Without;
    if repeats > 0 {
      TargetsBounded(chain, log, repeats - 1);
      OneWalkMore(|chain|, repeats);
      WithoutBounded(chain, log, repeats);
    }
  }

  lemma {:induction false} WithoutBounded(chain: seq<Target>, log: seq<Attempt>, repeats: nat)
    requires repeats > 0
    ensures |TargetsAfter(chain, log, repeats)| <= |TargetsAfter(chain, log, repeats - 1)| + |chain|
  {
    hide DroppedBy;
  }

  lemma {:induction false} OneWalkMore(links: nat, repeats: nat)
    ensures links * repeats + links == links * (repeats + 1)
  {
  }

  // What repeat `m` walks.
  function RepeatWalk(chain: seq<Target>, log: seq<Attempt>, m: nat): seq<Target>
    requires m > 0
  {
    var start := WalkStart(chain, log, m);
    if start <= |log| then Without(chain, DroppedBy(log[..start])) else []
  }

  lemma {:induction false} RepeatAppends(chain: seq<Target>, log: seq<Attempt>, m: nat)
    requires m > 0
    ensures TargetsAfter(chain, log, m) == TargetsAfter(chain, log, m - 1) + RepeatWalk(chain, log, m)
  {
    hide Without, DroppedBy;
  }

  lemma {:induction false} TargetsPrefix(chain: seq<Target>, log: seq<Attempt>, m: nat, n: nat)
    requires m <= n
    ensures TargetsAfter(chain, log, m) <= TargetsAfter(chain, log, n)
    decreases n
  {
    hide TargetsAfter, RepeatWalk;
    if m < n {
      TargetsPrefix(chain, log, m, n - 1);
      RepeatAppends(chain, log, n);
    }
  }

  lemma {:induction false} RepeatStarts(chain: seq<Target>, log: seq<Attempt>, repeats: nat, m: nat)
    requires Scheduled(chain, log, repeats) && m <= repeats
    ensures WalkStart(chain, log, m) <= |log|
  {
    hide TargetsAfter;
    if m > 0 {
      TargetsPrefix(chain, log, m - 1, repeats - 1);
    }
  }

  // Repeat `m` walks exactly the chain's entries no earlier attempt at whose model name
  // turned out unknown, whichever gateway that attempt went to.
  lemma {:induction false} RepeatHolds(chain: seq<Target>, log: seq<Attempt>, repeats: nat, m: nat, t: Target)
    requires Scheduled(chain, log, repeats) && 0 < m <= repeats
    ensures WalkStart(chain, log, m) <= |log|
    ensures t in RepeatWalk(chain, log, m) <==>
            t in chain &&
            forall i :: 0 <= i < WalkStart(chain, log, m) && Unknown(log[i].verdict) ==> log[i].target.model != t.model
  {
    hide TargetsAfter, WalkStart, Scheduled, Unknown;
    RepeatStarts(chain, log, repeats, m);
    var start := WalkStart(chain, log, m);
    var before := log[..start];
    assert forall i :: 0 <= i < start ==> before[i] == log[i];
    if t.model in DroppedBy(before) {
      var i :| 0 <= i < |before| && Unknown(before[i].verdict) && before[i].target.model == t.model;
      assert log[i] == before[i];
    }
    forall i | 0 <= i < start && Unknown(log[i].verdict)
      ensures log[i].target.model in DroppedBy(before)
    {
      DroppedIn(before, i);
    }
  }

  // The walk an attempt belongs to.
  function WalkOf(chain: seq<Target>, log: seq<Attempt>, repeats: nat, j: nat): (m: nat)
    ensures m <= repeats && WalkStart(chain, log, m) <= j
    ensures m < repeats ==> j < WalkStart(chain, log, m + 1)
  {
    if WalkStart(chain, log, repeats) <= j then repeats else WalkOf(chain, log, repeats - 1, j)
  }

  // The attempts of a repeat follow its walk, entry by entry.
  lemma {:induction false} RepeatAttempts(chain: seq<Target>, log: seq<Attempt>, repeats: nat, j: nat)
    requires Scheduled(chain, log, repeats) && j < |log| && WalkOf(chain, log, repeats, j) > 0
    ensures var m := WalkOf(chain, log, repeats, j);
            var at := j - WalkStart(chain, log, m);
            at < |RepeatWalk(chain, log, m)| && log[j].target == RepeatWalk(chain, log, m)[at]
  {
    hide TargetsAfter, RepeatWalk, WalkOf;
    var m := WalkOf(chain, log, repeats, j);
    TargetsPrefix(chain, log, m, repeats);
    RepeatAppends(chain, log, m);
    assert j < |TargetsAfter(chain, log, m)|;
    assert log[j].target == TargetsAfter(chain, log, m)[j];
  }

  // Once a repeat has begun, no attempt of it or of any later one goes to a model name that
  // had turned out unknown before it.
  lemma {:induction false} RepeatSkipsUnknown(chain: seq<Target>, log: seq<Attempt>, repeats: nat, m: nat, i: nat,
                                              j: nat)
    requires Scheduled(chain, log, repeats) && 0 < m <= repeats
    requires i < WalkStart(chain, log, m) <= j < |log| && Unknown(log[i].verdict)
    ensures log[j].target.model != log[i].target.model
  {
    hide TargetsAfter, RepeatWalk, Scheduled, Unknown;
    var k := WalkOf(chain, log, repeats, j);
    if k < m {
      TargetsPrefix(chain, log, k, m - 1);
    } else {
      TargetsPrefix(chain, log, m - 1, k - 1);
      RepeatAttempts(chain, log, repeats, j);
      RepeatHolds(chain, log, repeats, k, log[j].target);
    }
  }

  lemma {:induction false} DroppedIn(log: seq<Attempt>, i: nat)
    requires i < |log| && Unknown(log[i].verdict)
    ensures log[i].target.model in DroppedBy(log)
  {
  }

  // ---- Who is left out of a repeat ----

  // An attempt before the repeat found this very entry unknown.
  ghost predicate RefusedItself(chain: seq<Target>, log: seq<Attempt>, m: nat, t: Target) {
    exists i :: 0 <= i < WalkStart(chain, log, m) && i < |log| && log[i].target == t && Unknown(log[i].verdict)
  }

  ghost predicate LeftOut(chain: seq<Target>, log: seq<Attempt>, m: nat, t: Target)
    requires m > 0
  {
    t in chain && t !in RepeatWalk(chain, log, m)
  }

  // Entries that share a model name are the same entry: no name is on both gateways.
  predicate NamesTellApart(chain: seq<Target>) {
    forall i, j :: 0 <= i < j < |chain| && chain[i].model == chain[j].model ==> chain[i] == chain[j]
  }

  lemma {:induction false} AttemptsInChain(chain: seq<Target>, log: seq<Attempt>, repeats: nat)
    ensures forall t :: t in TargetsAfter(chain, log, repeats) ==> t in chain
  {
    if repeats > 0 {
      AttemptsInChain(chain, log, repeats - 1);
    }
  }

  lemma {:induction false} LeftOutRefused(chain: seq<Target>, log: seq<Attempt>, repeats: nat, m: nat, t: Target)
    requires Scheduled(chain, log, repeats) && 0 < m <= repeats
    requires NamesTellApart(chain) && LeftOut(chain, log, m, t)
    ensures RefusedItself(chain, log, m, t)
  {
    hide RepeatWalk, WalkStart, TargetsAfter, Unknown;
    RepeatHolds(chain, log, repeats, m, t);
    AttemptsInChain(chain, log, repeats);
    var i :| 0 <= i < WalkStart(chain, log, m) && Unknown(log[i].verdict) && log[i].target.model == t.model;
    assert log[i].target == TargetsAfter(chain, log, repeats)[i];
    SameName(chain, log[i].target, t);
  }

  lemma {:induction false} SameName(chain: seq<Target>, t: Target, u: Target)
    requires NamesTellApart(chain) && t in chain && u in chain && t.model == u.model
    ensures t == u
  {
    var i :| 0 <= i < |chain| && chain[i] == t;
    var j :| 0 <= j < |chain| && chain[j] == u;
  }

  // A world in which entry `i` of the chain is unknown to its gateway and everything else
  // is busy.
  function OneUnknown(i: nat): World {
    World((step, attempt) => Broken([], if attempt == i then Failure(false, false, true)
        else Failure(false, true, false)),
          (step, repeat) => false, text => false, (step, text) => [], (step, call) => false,
          (step, call) => Approval.Deny, (step, call) => ToolOutcome(false, ""), decision => "", "", step => "",
          step => "", "", true, false, 1)
  }

  function OneUnknownLog(chain: seq<Target>, i: nat): seq<Attempt> {
    seq(|chain|, k requires 0 <= k < |chain| =>
      Attempt(chain[k], "", Bad(if k == i then Failure(false, false, true) else Failure(false, true, false))))
  }

  lemma {:induction false} OneUnknownFaithful(chain: seq<Target>, i: nat)
    ensures Faithful(OneUnknown(i), 0, OneUnknownLog(chain, i))
  {
    var world, log := OneUnknown(i), OneUnknownLog(chain, i);
    forall k | 0 <= k < |log|
      ensures log[k].shown == Shown(world, world.chat(0, k)) &&
          log[k].verdict == Judge(world.chat(0, k), |log[k].shown|)
    {
      assert world.chat(0, k).chunks == [];
    }
  }

  lemma {:induction false} OneUnknownEarned(chain: seq<Target>, i: nat, j: nat)
    requires i < |chain| && j < |chain| && i != j
    ensures var log := OneUnknownLog(chain, i);
            && WalkStart(chain, log, 1) == |chain| && log[..|chain|] == log
            && Scheduled(chain, log, 1) && AllLeft(log[..|log| - 1]) && Earned(chain, log, 1)
  {
    hide Without, DroppedBy;
    var log := OneUnknownLog(chain, i);
    assert log[..|chain|] == log;
    assert Temporary(log[j].verdict);
    assert RepeatEarned(chain, log, 1);
  }

  lemma {:induction false} OneUnknownWalked(chain: seq<Target>, i: nat, j: nat)
    requires i < |chain| && j < |chain| && i != j
    ensures Walked(OneUnknown(i), chain, 0, OneUnknownLog(chain, i), 1)
    ensures WalkStart(chain, OneUnknownLog(chain, i), 1) == |chain|
  {
    OneUnknownFaithful(chain, i);
    OneUnknownEarned(chain, i, j);
    assert OneUnknown(i).retryAttempts == 1;
    hide Faithful, Scheduled, AllLeft, Earned, OneUnknown, WalkStart;
  }

  // A name on both gateways: the entry that was only busy is left out of the repeat.
  lemma {:induction false} BusyEntryLeftOut(chain: seq<Target>, i: nat, j: nat)
    requires i < |chain| && j < |chain| && chain[i].model == chain[j].model && chain[i] != chain[j]
    ensures var log := OneUnknownLog(chain, i);
            && Walked(OneUnknown(i), chain, 0, log, 1)
            && LeftOut(chain, log, 1, chain[j]) && !RefusedItself(chain, log, 1, chain[j])
  {
    var log := OneUnknownLog(chain, i);
    OneUnknownWalked(chain, i, j);
    hide Walked, OneUnknown, TargetsAfter, WalkStart;
    assert log[..|chain|] == log;
    DroppedIn(log, i);
  }

  lemma {:induction false} WithoutAll(chain: seq<Target>, dropped: set<string>)
    requires forall t :: t in chain ==> t.model in dropped
    ensures Without(chain, dropped) == []
  {
    if chain != [] {
      WithoutAll(chain[1..], dropped);
    }
  }

  // The smallest such input: one name on both gateways. The repeat walks nothing at all,
  // although the offline gateway had only been busy.
  lemma {:induction false} OneNameOnBothGateways(name: string)
    ensures var chain := [Target(name, false), Target(name, true)];
            var log := OneUnknownLog(chain, 0);
            && Walked(OneUnknown(0), chain, 0, log, 1)
            && log[1].verdict == Bad(Failure(false, true, false))
            && RepeatWalk(chain, log, 1) == []
  {
    var chain := [Target(name, false), Target(name, true)];
    var log := OneUnknownLog(chain, 0);
    OneUnknownWalked(chain, 0, 1);
    hide Walked, OneUnknown, TargetsAfter, WalkStart, DroppedBy, Without;
    assert log[..|chain|] == log;
    DroppedIn(log, 0);
    WithoutAll(chain, DroppedBy(log));
  }

  // The headline: in every walk, whatever the gateways reply, only entries that were
  // themselves refused are left out of a repeat, if and only if no model name of the chain
  // is on both gateways.
  lemma {:induction false} OnlyRefusedLeftOutIff(chain: seq<Target>)
    ensures (forall world: World, step: nat, log, made: nat, m: nat, t ::
               Walked(world, chain, step, log, made) && 0 < m <= made && LeftOut(chain, log, m, t) ==>
                 RefusedItself(chain, log, m, t))
            <==> NamesTellApart(chain)
    ensures (forall i, j :: 0 <= i < j < |chain| ==> chain[i] != chain[j]) ==>
              (NamesTellApart(chain) <==> forall i, j :: 0 <= i < j < |chain| ==> chain[i].model != chain[j].model)
  {
    if NamesTellApart(chain) {
      forall world: World, step: nat, log, made: nat, m: nat, t
        | Walked(world, chain, step, log, made) && 0 < m <= made && LeftOut(chain, log, m, t)
        ensures RefusedItself(chain, log, m, t)
      {
        LeftOutRefused(chain, log, made, m, t);
      }
    } else {
      var i, j :| 0 <= i < j < |chain| && chain[i].model == chain[j].model && chain[i] != chain[j];
      hide LeftOut, RefusedItself, Walked, OneUnknown, OneUnknownLog;
      BusyEntryLeftOut(chain, i, j);
    }
  }
}
