// The approval desk of ontrak-genie/src/approval.ts: prompts that settle by an answer, a
// timeout or an abort, kept in one map by id and filed in one log.

module Approval {
  import opened Wrappers

  datatype Decision = Approve | Deny | Timeout | Aborted

  datatype Verdict = Verdict(decision: Decision, actor: string)

  datatype Info = Info(id: string, name: string, summary: string, requestedAt: nat, expiresAt: nat)

  datatype Record = Record(info: Info, verdict: Verdict)

  // Everything that can happen to the desk. A timer and an abort listener belong to the
  // prompt that installed them, so they name it by the order of opening.
  datatype Op =
    | Open(info: Info, aborted: bool)
    | Answer(id: string, approve: bool, actor: string)
    | Expire(prompt: nat)
    | Abort(prompt: nat)

  // ---- One prompt on its own: the first decision stands ----

  datatype Fate = Unopened | Waiting(info: Info) | Settled(info: Info, verdict: Verdict)

  function Opened(ops: seq<Op>): nat {
    if ops == [] then 0 else Opened(ops[..|ops| - 1]) + if ops[|ops| - 1].Open? then 1 else 0
  }

  // What one event means for prompt `h`, `count` prompts having been opened before it.
  function Next(f: Fate, op: Op, h: nat, count: nat): Fate {
    match f
    case Unopened =>
      if op.Open? && count == h then
        if op.aborted then Settled(op.info, Verdict(Aborted, "system")) else Waiting(op.info)
      else f
    case Waiting(info) =>
      (match op
       case Answer(id, approve, actor) =>
         if id == info.id then Settled(info, Verdict(if approve then Approve else Deny, actor)) else f
       case Expire(p) => if p == h then Settled(info, Verdict(Timeout, "system")) else f
       case Abort(p) => if p == h then Settled(info, Verdict(Aborted, "system")) else f
       case Open(_, _) => f)
    case Settled(_, _) => f
  }

  function FateOf(ops: seq<Op>, h: nat): Fate {
    if ops == [] then Unopened
    else
      var front := ops[..|ops| - 1];
      Next(FateOf(front, h), ops[|ops| - 1], h, Opened(front))
  }

  // A settled prompt keeps its first decision whatever happens afterwards.
  lemma {:induction false} FirstDecisionStands(ops: seq<Op>, more: seq<Op>, h: nat)
    requires FateOf(ops, h).Settled?
    ensures FateOf(ops + more, h) == FateOf(ops, h)
    decreases |more|
  {
    if more == [] {
      assert ops + more == ops;
    } else {
      var n := |more| - 1;
      assert (ops + more)[..|ops + more| - 1] == ops + more[..n];
      FirstDecisionStands(ops, more[..n], h);
    }
  }

  lemma {:induction false} UnopenedBeyond(ops: seq<Op>, h: nat)
    ensures FateOf(ops, h).Unopened? <==> Opened(ops) <= h
  {
    if ops != [] {
      UnopenedBeyond(ops[..|ops| - 1], h);
    }
  }

  // A prompt that is open settles at the latest when its timer runs out.
  lemma {:induction false} TimerSettles(ops: seq<Op>, h: nat)
    requires h < Opened(ops)
    ensures FateOf(ops + [Expire(h)], h).Settled?
  {
    UnopenedBeyond(ops, h);
    assert (ops + [Expire(h)])[..|ops|] == ops;
  }

  // The prompt was waiting when somebody approved it by its id.
  ghost predicate ApprovedAt(ops: seq<Op>, h: nat, n: nat)
    requires n < |ops|
  {
    && FateOf(ops[..n], h).Waiting?
    && ops[n].Answer? && ops[n].approve && ops[n].id == FateOf(ops[..n], h).info.id
  }

  // Only an approving answer to the waiting prompt approves it: no timer, abort or answer
  // to another id does.
  lemma {:induction false} ApprovalIsAnAnswer(ops: seq<Op>, h: nat)
    requires FateOf(ops, h).Settled?
    ensures FateOf(ops, h).verdict.decision == Approve <==> exists n: nat :: n < |ops| && ApprovedAt(ops, h, n)
  {
    var last := |ops| - 1;
    var front := ops[..last];
    if FateOf(front, h).Settled? {
      ApprovalIsAnAnswer(front, h);
      forall n: nat | n < last
        ensures ApprovedAt(front, h, n) <==> ApprovedAt(ops, h, n)
      {
        assert front[..n] == ops[..n];
      }
    } else {
      forall n: nat | n < last
        ensures !ApprovedAt(ops, h, n)
      {
        if ApprovedAt(ops, h, n) {
          ApprovedSettles(ops, h, n);
          assert front[..n + 1] == ops[..n + 1] && front == ops[..n + 1] + ops[n + 1..last];
          FirstDecisionStands(ops[..n + 1], ops[n + 1..last], h);
        }
      }
      assert ApprovedAt(ops, h, last) <==> FateOf(ops, h).verdict.decision == Approve;
    }
  }

  // The event that settled the prompt, and nobody before it: an answer to its id decides as
  // it says and under its actor's name; its own timer, its own abort, or a request that was
  // already aborted decide under the system's.
  ghost predicate SettledAt(ops: seq<Op>, h: nat, n: nat, v: Verdict)
    requires n < |ops|
  {
    var f := FateOf(ops[..n], h);
    match ops[n]
    case Open(_, aborted) => f.Unopened? && Opened(ops[..n]) == h && aborted && v == Verdict(Aborted, "system")
    case Answer(id, approve, actor) =>
      f.Waiting? && f.info.id == id && v == Verdict(if approve then Approve else Deny, actor)
    case Expire(p) => f.Waiting? && p == h && v == Verdict(Timeout, "system")
    case Abort(p) => f.Waiting? && p == h && v == Verdict(Aborted, "system")
  }

  // Every settled prompt was settled by exactly one such event, with that verdict.
  lemma {:induction false} VerdictMeans(ops: seq<Op>, h: nat, v: Verdict)
    ensures (FateOf(ops, h).Settled? && FateOf(ops, h).verdict == v) <==>
            exists n: nat :: n < |ops| && SettledAt(ops, h, n, v)
  {
    if ops != [] {
      var last := |ops| - 1;
      var front := ops[..last];
      VerdictMeans(front, h, v);
      forall n: nat | n < last
        ensures SettledAt(front, h, n, v) <==> SettledAt(ops, h, n, v)
      {
        assert front[..n] == ops[..n];
      }
      assert ops[..last] == front;
      if FateOf(front, h).Settled? {
        assert !SettledAt(ops, h, last, v);
      } else {
        SettledLast(ops, h, v);
      }
    }
  }

  lemma {:induction false} SettledLast(ops: seq<Op>, h: nat, v: Verdict)
    requires ops != [] && !FateOf(ops[..|ops| - 1], h).Settled?
    ensures (FateOf(ops, h).Settled? && FateOf(ops, h).verdict == v) <==> SettledAt(ops, h, |ops| - 1, v)
  {
  }

  lemma {:induction false} ApprovedSettles(ops: seq<Op>, h: nat, n: nat)
    requires n < |ops| && ApprovedAt(ops, h, n)
    ensures FateOf(ops[..n + 1], h).Settled?
  {
    assert ops[..n + 1][..n] == ops[..n];
  }

  // ---- The desk ----

  // What a prompt's promise and its `settled` flag come to.
  datatype Prompt = Prompt(info: Info, settled: Option<Verdict>)

  function AsFate(p: Prompt): Fate {
    match p.settled
    case None => Waiting(p.info)
    case Some(v) => Settled(p.info, v)
  }

  // The map lists exactly the waiting prompts, each under its id.
  ghost predicate Listed(pending: map<string, nat>, prompts: seq<Prompt>) {
    && (forall id :: id in pending ==>
          pending[id] < |prompts| && prompts[pending[id]].info.id == id && prompts[pending[id]].settled.None?)
    && (forall h :: 0 <= h < |prompts| && prompts[h].settled.None? ==>
          prompts[h].info.id in pending && pending[prompts[h].info.id] == h)
  }

  // The log files every settled prompt once, in the order of settling.
  ghost predicate Filed(log: seq<Record>, order: seq<nat>, prompts: seq<Prompt>) {
    && |order| == |log|
    && (forall i :: 0 <= i < |order| ==>
          order[i] < |prompts| && prompts[order[i]].settled == Some(log[i].verdict) &&
          prompts[order[i]].info == log[i].info)
    && (forall i, j :: 0 <= i < j < |order| ==> order[i] != order[j])
    && (forall h :: 0 <= h < |prompts| && prompts[h].settled.Some? ==> h in order)
  }

  ghost predicate Kept(pending: map<string, nat>, prompts: seq<Prompt>, log: seq<Record>, order: seq<nat>) {
    Listed(pending, prompts) && Filed(log, order, prompts) && |prompts| == |pending| + |log|
  }

  ghost predicate Fates(prompts: seq<Prompt>, ops: seq<Op>) {
    && |prompts| == Opened(ops)
    && forall h :: 0 <= h < |prompts| ==> AsFate(prompts[h]) == FateOf(ops, h)
  }

  // Every prompt is what it would be alone, is listed while it waits, and is filed once it
  // is settled; nothing is lost between the three.
  ghost predicate Consistent(pending: map<string, nat>, prompts: seq<Prompt>, log: seq<Record>, order: seq<nat>,
                             ops: seq<Op>) {
    Kept(pending, prompts, log, order) && Fates(prompts, ops)
  }

  ghost predicate Waits(prompts: seq<Prompt>, id: string) {
    exists h :: 0 <= h < |prompts| && prompts[h].settled.None? && prompts[h].info.id == id
  }

  // ---- The bare desk: what each event does, in order or not ----

  datatype State = State(pending: map<string, nat>, prompts: seq<Prompt>, log: seq<Record>)

  ghost predicate Sane(s: State) {
    forall id :: id in s.pending ==> s.pending[id] < |s.prompts|
  }

  function Close(s: State, h: nat, v: Verdict): State
    requires h < |s.prompts|
  {
    if s.prompts[h].settled.Some? then s
    else
      var info := s.prompts[h].info;
      State(s.pending - {info.id}, s.prompts[h := Prompt(info, Some(v))], s.log + [Record(info, v)])
  }

  function Do(s: State, op: Op): State {
    match op
    case Open(info, aborted) =>
      var all := s.(prompts := s.prompts + [Prompt(info, None)]);
      if aborted then Close(all, |s.prompts|, Verdict(Aborted, "system"))
      else all.(pending := s.pending[info.id := |s.prompts|])
    case Answer(id, approve, actor) =>
      if id in s.pending && s.pending[id] < |s.prompts|
      then Close(s, s.pending[id], Verdict(if approve then Approve else Deny, actor)) else s
    case Expire(h) => if h < |s.prompts| then Close(s, h, Verdict(Timeout, "system")) else s
    case Abort(h) => if h < |s.prompts| then Close(s, h, Verdict(Aborted, "system")) else s
  }

  function DoAll(s: State, ops: seq<Op>): State {
    if ops == [] then s else Do(DoAll(s, ops[..|ops| - 1]), ops[|ops| - 1])
  }

  // No id leads to the prompt: an answer cannot reach it.
  ghost predicate OutOfReach(s: State, h: nat) {
    h < |s.prompts| && forall id :: id in s.pending ==> s.pending[id] != h
  }

  // The prompt's own timer or abort.
  predicate EndsItself(op: Op, h: nat) {
    op == Expire(h) || op == Abort(h)
  }

  lemma {:induction false} StaysOutOfReach(s: State, op: Op, h: nat)
    requires OutOfReach(s, h) && !EndsItself(op, h)
    ensures OutOfReach(Do(s, op), h) && Do(s, op).prompts[h] == s.prompts[h]
  {
  }

  // Whatever is answered, opened or timed out afterwards, it keeps waiting; only its own
  // timer or abort ends it.
  lemma {:induction false} NoAnswerReaches(s: State, ops: seq<Op>, h: nat)
    requires OutOfReach(s, h) && forall i :: 0 <= i < |ops| ==> !EndsItself(ops[i], h)
    ensures OutOfReach(DoAll(s, ops), h) && DoAll(s, ops).prompts[h] == s.prompts[h]
  {
    hide Do, OutOfReach;
    if ops != [] {
      NoAnswerReaches(s, ops[..|ops| - 1], h);
      StaysOutOfReach(DoAll(s, ops[..|ops| - 1]), ops[|ops| - 1], h);
    } else {
      ReachMeans(s, h);
    }
  }

  lemma {:induction false} ReachMeans(s: State, h: nat)
    ensures OutOfReach(s, h) ==> h < |s.prompts|
  {
  }

  // Opening a second prompt under a waiting id puts the first out of reach. When the first
  // then times out, it takes the second's entry with it, and no answer reaches that either.
  lemma {:induction false} ReusedIdOrphans(s: State, info: Info)
    requires Listed(s.pending, s.prompts) && info.id in s.pending
    ensures var h, both := s.pending[info.id], Do(s, Open(info, false));
            && both.prompts[h].settled.None? && OutOfReach(both, h)
            && both.prompts[|s.prompts|] == Prompt(info, None) && both.pending[info.id] == |s.prompts|
            && var after := Do(both, Expire(h));
               after.prompts[|s.prompts|] == Prompt(info, None) && OutOfReach(after, |s.prompts|)
  {
  }

  // Open, Open, Answer: the second prompt is settled, the first still waits, and no answer
  // whatever changes that.
  lemma {:induction false} OpenOpenAnswer(first: Info, second: Info, approve: bool, actor: string, later: seq<Op>)
    requires first.id == second.id && forall i :: 0 <= i < |later| ==> !EndsItself(later[i], 0)
    ensures var s := Do(Do(Do(State(map[], [], []), Open(first, false)), Open(second, false)),
                        Answer(first.id, approve, actor));
            && s.prompts == [Prompt(first, None),
                             Prompt(second, Some(Verdict(if approve then Approve else Deny, actor)))]
            && |DoAll(s, later).prompts| > 0 && DoAll(s, later).prompts[0] == Prompt(first, None)
  {
    var s := Do(Do(Do(State(map[], [], []), Open(first, false)), Open(second, false)),
                Answer(first.id, approve, actor));
    assert OutOfReach(s, 0);
    NoAnswerReaches(s, later, 0);
    ReachMeans(DoAll(s, later), 0);
  }

  class Desk {
    var pending: map<string, nat>
    var prompts: seq<Prompt>
    var log: seq<Record>
    ghost var order: seq<nat>
    ghost var history: seq<Op>

    ghost predicate Valid()
      reads this
    {
      Consistent(pending, prompts, log, order, history)
    }

    ghost function Now(): State
      reads this
    {
      State(pending, prompts, log)
    }

    constructor ()
      ensures Valid() && history == [] && pending == map[] && prompts == [] && log == []
    {
      pending, prompts, log, order, history := map[], [], [], [], [];
    }

    // The closure every prompt carries: the first call settles, later calls do nothing.
    method Finish(h: nat, v: Verdict)
      requires h < |prompts|
      modifies this`pending, this`prompts, this`log, this`order
      ensures old(prompts)[h].settled.Some? ==>
                pending == old(pending) && prompts == old(prompts) && log == old(log) && order == old(order)
      ensures old(prompts)[h].settled.None? ==>
                && prompts == old(prompts)[h := Prompt(old(prompts)[h].info, Some(v))]
                && pending == old(pending) - {prompts[h].info.id}
                && log == old(log) + [Record(prompts[h].info, v)] && order == old(order) + [h]
    {
      if prompts[h].settled.None? {
        var info := prompts[h].info;
        prompts := prompts[h := Prompt(info, Some(v))];
        pending := pending - {info.id};
        log := log + [Record(info, v)];
        order := order + [h];
      }
    }

    // A desk in order stays so exactly when no prompt with that id is waiting.
    method RequestApproval(info: Info, aborted: bool) returns (h: nat)
      requires Sane(Now())
      modifies this
      ensures Sane(Now()) && Now() == Do(old(Now()), Open(info, aborted))
      ensures old(Valid()) ==> (Valid() <==> info.id !in old(pending))
      ensures history == old(history) + [Open(info, aborted)]
      ensures h == |old(prompts)| && |prompts| == h + 1 && prompts[h].info == info
    {
      hide Consistent;
      h := |prompts|;
      if Valid() {
        if info.id in pending {
          ReusedId(pending, prompts, log, order, history, info);
        } else {
          OpenWaits(pending, prompts, log, order, history, info);
          OpenSettles(pending, prompts, log, order, history, info);
        }
      }
      history := history + [Open(info, aborted)];
      prompts := prompts + [Prompt(info, None)];
      if aborted {
        ghost var all := prompts;
        Finish(h, Verdict(Aborted, "system"));
        assert prompts == all[..h] + [Prompt(info, Some(Verdict(Aborted, "system")))];
      } else {
        pending := pending[info.id := h];
      }
    }

    // True exactly when a prompt with that id is listed; in a desk in order, exactly when one
    // is waiting, and that one is settled by this answer.
    method ResolveApproval(id: string, approve: bool, actor: string) returns (answered: bool)
      requires Sane(Now())
      modifies this
      ensures Sane(Now()) && Now() == Do(old(Now()), Answer(id, approve, actor))
      ensures history == old(history) + [Answer(id, approve, actor)]
      ensures answered <==> id in old(pending)
      ensures old(Valid()) ==> Valid() && (answered <==> Waits(old(prompts), id))
      ensures !answered ==> prompts == old(prompts) && log == old(log)
      ensures old(Valid()) && answered ==>
                var h := old(pending)[id];
                && h < |old(prompts)| && old(prompts)[h].info.id == id
                && prompts == old(prompts)[h := Prompt(old(prompts)[h].info,
                                                       Some(Verdict(if approve then Approve else Deny, actor)))]
    {
      hide Consistent;
      var v := Verdict(if approve then Approve else Deny, actor);
      if Valid() {
        PendingMeansWaiting(pending, prompts, log, order, history, id);
        if id !in pending {
          Ignored(pending, prompts, log, order, history, Answer(id, approve, actor));
        } else {
          Settles(pending, prompts, log, order, history, Answer(id, approve, actor), pending[id], v);
        }
      }
      history := history + [Answer(id, approve, actor)];
      if id !in pending {
        return false;
      }
      Finish(pending[id], v);
      return true;
    }

    // A timer runs out or an abort signal arrives; a settled prompt does not notice.
    method Fire(h: nat, timeout: bool)
      requires Sane(Now()) && h < |prompts|
      modifies this
      ensures Sane(Now()) && Now() == Do(old(Now()), if timeout then Expire(h) else Abort(h))
      ensures old(Valid()) ==> Valid()
      ensures history == old(history) + [if timeout then Expire(h) else Abort(h)]
      ensures |prompts| == |old(prompts)|
    {
      hide Consistent;
      ghost var op := if timeout then Expire(h) else Abort(h);
      var v := Verdict(if timeout then Timeout else Aborted, "system");
      if Valid() {
        if prompts[h].settled.None? {
          Settles(pending, prompts, log, order, history, op, h, v);
        } else {
          Ignored(pending, prompts, log, order, history, op);
        }
      }
      history := history + [op];
      Finish(h, v);
    }
  }

  // A desk in order is a sane one.
  lemma {:induction false} ConsistentIsSane(pending: map<string, nat>, prompts: seq<Prompt>, log: seq<Record>,
                                            order: seq<nat>, ops: seq<Op>)
    requires Consistent(pending, prompts, log, order, ops)
    ensures Sane(State(pending, prompts, log))
  {
  }

  // ---- Why each step keeps the desk in order ----

  lemma {:induction false} PendingMeansWaiting(pending: map<string, nat>, prompts: seq<Prompt>, log: seq<Record>,
                                               order: seq<nat>, ops: seq<Op>, id: string)
    requires Consistent(pending, prompts, log, order, ops)
    ensures id in pending <==> Waits(prompts, id)
    ensures id in pending ==>
              pending[id] < |prompts| && prompts[pending[id]].settled.None? && prompts[pending[id]].info.id == id
  {
  }

  // No desk in order lists a second prompt under a waiting id.
  lemma {:induction false} ReusedId(pending: map<string, nat>, prompts: seq<Prompt>, log: seq<Record>, order: seq<nat>,
                                    ops: seq<Op>, info: Info)
    requires Consistent(pending, prompts, log, order, ops) && info.id in pending
    ensures forall p, pending', log', order', ops' ::
              info.id !in pending' || pending'[info.id] == |prompts| ==>
                !Consistent(pending', prompts + [p], log', order', ops')
  {
    var h := pending[info.id];
    forall p, pending', log', order', ops' | info.id !in pending' || pending'[info.id] == |prompts|
      ensures !Consistent(pending', prompts + [p], log', order', ops')
    {
      assert (prompts + [p])[h] == prompts[h];
    }
  }

  // The event decides nothing for any prompt that is waiting.
  lemma {:induction false} Ignored(pending: map<string, nat>, prompts: seq<Prompt>, log: seq<Record>, order: seq<nat>,
                                   ops: seq<Op>, op: Op)
    requires Consistent(pending, prompts, log, order, ops) && !op.Open?
    requires forall h :: 0 <= h < |prompts| && prompts[h].settled.None? ==>
               Next(Waiting(prompts[h].info), op, h, Opened(ops)) == Waiting(prompts[h].info)
    ensures Consistent(pending, prompts, log, order, ops + [op])
  {
    assert (ops + [op])[..|ops|] == ops;
  }

  lemma {:induction false} KeptSettling(pending: map<string, nat>, prompts: seq<Prompt>, log: seq<Record>,
                                        order: seq<nat>, h: nat, v: Verdict)
    requires Kept(pending, prompts, log, order) && h < |prompts| && prompts[h].settled.None?
    ensures Kept(pending - {prompts[h].info.id}, prompts[h := Prompt(prompts[h].info, Some(v))],
                 log + [Record(prompts[h].info, v)], order + [h])
  {
    var info := prompts[h].info;
    var pending', prompts' := pending - {info.id}, prompts[h := Prompt(info, Some(v))];
    Removed(pending, info.id);
    assert Listed(pending', prompts');
    forall k | 0 <= k < |prompts'| && prompts'[k].settled.Some?
      ensures k in order + [h]
    {
      assert k != h ==> k in order;
    }
    assert Filed(log + [Record(info, v)], order + [h], prompts');
  }

  lemma {:induction false} KeptOpening(pending: map<string, nat>, prompts: seq<Prompt>, log: seq<Record>,
                                       order: seq<nat>, info: Info)
    requires Kept(pending, prompts, log, order) && info.id !in pending
    ensures Kept(pending[info.id := |prompts|], prompts + [Prompt(info, None)], log, order)
  {
    Added(pending, info.id, |prompts|);
    assert Listed(pending[info.id := |prompts|], prompts + [Prompt(info, None)]);
    assert Filed(log, order, prompts + [Prompt(info, None)]);
  }

  // The event settles prompt `h` and no other.
  lemma {:induction false} Settles(pending: map<string, nat>, prompts: seq<Prompt>, log: seq<Record>, order: seq<nat>,
                                   ops: seq<Op>, op: Op, h: nat, v: Verdict)
    requires Consistent(pending, prompts, log, order, ops) && !op.Open?
    requires h < |prompts| && prompts[h].settled.None?
    requires Next(Waiting(prompts[h].info), op, h, Opened(ops)) == Settled(prompts[h].info, v)
    ensures Consistent(pending - {prompts[h].info.id}, prompts[h := Prompt(prompts[h].info, Some(v))],
                       log + [Record(prompts[h].info, v)], order + [h], ops + [op])
  {
    KeptSettling(pending, prompts, log, order, h, v);
    assert (ops + [op])[..|ops|] == ops;
    forall k | 0 <= k < |prompts| && k != h
      ensures AsFate(prompts[k]) == FateOf(ops + [op], k)
    {
      OthersUntouched(pending, prompts, log, order, ops, op, h, k);
    }
  }

  lemma {:induction false} OthersUntouched(pending: map<string, nat>, prompts: seq<Prompt>, log: seq<Record>,
                                           order: seq<nat>, ops: seq<Op>, op: Op, h: nat, k: nat)
    requires Consistent(pending, prompts, log, order, ops) && !op.Open?
    requires h < |prompts| && prompts[h].settled.None? && k < |prompts| && k != h
    requires Next(Waiting(prompts[h].info), op, h, Opened(ops)).Settled?
    ensures Next(FateOf(ops, k), op, k, Opened(ops)) == AsFate(prompts[k])
  {
    hide Filed;
    assert AsFate(prompts[k]) == FateOf(ops, k);
    assert Listed(pending, prompts);
  }

  lemma {:induction false} OpenFates(prompts: seq<Prompt>, ops: seq<Op>, info: Info, aborted: bool)
    requires Fates(prompts, ops)
    ensures Fates(prompts + [Prompt(info, if aborted then Some(Verdict(Aborted, "system")) else None)],
                  ops + [Open(info, aborted)])
  {
    assert (ops + [Open(info, aborted)])[..|ops|] == ops;
    UnopenedBeyond(ops, |prompts|);
  }

  lemma {:induction false} OpenWaits(pending: map<string, nat>, prompts: seq<Prompt>, log: seq<Record>, order: seq<nat>,
                                     ops: seq<Op>, info: Info)
    requires Consistent(pending, prompts, log, order, ops) && info.id !in pending
    ensures Consistent(pending[info.id := |prompts|], prompts + [Prompt(info, None)], log, order,
                       ops + [Open(info, false)])
  {
    hide Kept, Fates;
    KeptOpening(pending, prompts, log, order, info);
    OpenFates(prompts, ops, info, false);
  }

  lemma {:induction false} OpenSettles(pending: map<string, nat>, prompts: seq<Prompt>, log: seq<Record>,
                                       order: seq<nat>, ops: seq<Op>, info: Info)
    requires Consistent(pending, prompts, log, order, ops) && info.id !in pending
    ensures var v := Verdict(Aborted, "system");
            Consistent(pending - {info.id}, prompts + [Prompt(info, Some(v))], log + [Record(info, v)],
                       order + [|prompts|], ops + [Open(info, true)])
  {
    hide Kept, Fates;
    var n, v := |prompts|, Verdict(Aborted, "system");
    var listed, all := pending[info.id := n], prompts + [Prompt(info, None)];
    KeptOpening(pending, prompts, log, order, info);
    KeptSettling(listed, all, log, order, n, v);
    assert listed - {info.id} == pending - {info.id};
    assert all[n := Prompt(info, Some(v))] == prompts + [Prompt(info, Some(v))];
    OpenFates(prompts, ops, info, true);
  }

  lemma {:induction false} Removed(m: map<string, nat>, k: string)
    requires k in m
    ensures |m - {k}| == |m| - 1
  {
    assert (m - {k}).Keys == m.Keys - {k};
  }

  lemma {:induction false} Added(m: map<string, nat>, k: string, v: nat)
    requires k !in m
    ensures |m[k := v]| == |m| + 1
  {
    assert m[k := v].Keys == m.Keys + {k};
  }
}
