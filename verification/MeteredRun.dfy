// The metered run of g0dm0d3/src/app.js over the credit calls of g0dm0d3/src/credits.js:
// charge, run, relay or refund, with any number of attempts interleaved and any answer lost.

module MeteredRun {
  import opened Wrappers


  // ---- The plane: a ledger that deduplicates on the reference ----

  datatype Row = Debit(run: string, credits: nat) | Grant(run: string, credits: nat)

  // `booksZero` says whether a grant of no credits makes a row and so uses up its reference.
  datatype Plane = Plane(metered: bool, unlimited: bool, booksZero: bool, price: nat, balance: int, ledger: seq<Row>)

  predicate IsFor(row: Row, debit: bool, run: string) {
    row.Debit? == debit && row.run == run
  }

  predicate Seen(ledger: seq<Row>, debit: bool, run: string) {
    exists i :: 0 <= i < |ledger| && IsFor(ledger[i], debit, run)
  }

  // What a run was charged, or given back, in total.
  function Total(ledger: seq<Row>, debit: bool, run: string): nat {
    if ledger == [] then 0
    else
      var row := ledger[|ledger| - 1];
      Total(ledger[..|ledger| - 1], debit, run) + if IsFor(row, debit, run) then row.credits else 0
  }

  // What the whole ledger did to the balance.
  function Effect(ledger: seq<Row>): int {
    if ledger == [] then 0
    else
      var row := ledger[|ledger| - 1];
      var credits: int := row.credits;
      Effect(ledger[..|ledger| - 1]) + if row.Debit? then -credits else credits
  }

  // A call that got lost may have been carried out or not.
  datatype Delivery = Answered | LostBefore | LostAfter

  datatype Charge = Spent(credits: nat) | Refused | NoAnswer

  function Append(p: Plane, row: Row): Plane {
    p.(balance := if row.Debit? then p.balance - row.credits else p.balance + row.credits, ledger := p.ledger + [row])
  }

  // `spend` keyed on the run id: a duplicate or an unlimited account spends 0.
  function Spend(p: Plane, run: string, d: Delivery): (Plane, Charge) {
    if !p.metered then (p, Spent(0))
    else if d.LostBefore? then (p, NoAnswer)
    else
      var first := !p.unlimited && !Seen(p.ledger, true, run);
      if first && p.balance < p.price then (p, if d.Answered? then Refused else NoAnswer)
      else
        var p' := if first then Append(p, Debit(run, p.price)) else p;
        (p', if d.Answered? then Spent(if first then p.price else 0) else NoAnswer)
  }

  // `refund` keyed on refund-<run id>: a second one for the same run does nothing.
  function Refund(p: Plane, run: string, credits: nat, d: Delivery): Plane {
    if !p.metered || d.LostBefore? || (credits == 0 && !p.booksZero) || Seen(p.ledger, false, run) then p
    else Append(p, Grant(run, credits))
  }

  // ---- Attempts ----

  datatype Phase =
    | Charging
    | Connecting(spent: nat)
    | Refunding(spent: nat)
    | Relaying(spent: nat, bytes: nat)
    | Over(bytes: nat)

  // The response Genie gave, if any.
  datatype Upstream = Unreachable | NotOk | Streaming

  // What the attempt met when it connected, and what it had spent by then.
  datatype Met = Nothing | Response(upstream: Upstream, spent: nat)

  // One request for a run; `asked` records whether it called `refund`.
  datatype Attempt = Attempt(run: string, phase: Phase, asked: bool, met: Met)

  datatype System = System(plane: Plane, attempts: seq<Attempt>)

  datatype Step =
    | Arrive(run: string)
    | DoSpend(i: nat, d: Delivery)
    | DoConnect(i: nat, u: Upstream)
    | DoRefund(i: nat, d: Delivery)
    | Chunk(i: nat, bytes: nat)
    | Finish(i: nat)

  // An unreachable upstream is refunded whatever was spent, a refusing one only when
  // something was.
  function AfterConnect(spent: nat, u: Upstream): Phase {
    match u
    case Unreachable => Refunding(spent)
    case NotOk => if spent > 0 then Refunding(spent) else Over(0)
    case Streaming => Relaying(spent, 0)
  }

  function Next(s: System, step: Step): System {
    if step.Arrive? then s.(attempts := s.attempts + [Attempt(step.run, Charging, false, Nothing)])
    else if step.i >= |s.attempts| then s
    else
      var a := s.attempts[step.i];
      match (step, a.phase)
      case (DoSpend(i, d), Charging) =>
        var (p, charge) := Spend(s.plane, a.run, d);
        System(p, s.attempts[i := a.(phase := if charge.Spent? then Connecting(charge.credits) else Over(0))])
      case (DoConnect(i, u), Connecting(spent)) =>
        s.(attempts := s.attempts[i := a.(phase := AfterConnect(spent, u), met := Response(u, spent))])
      case (DoRefund(i, d), Refunding(spent)) =>
        System(Refund(s.plane, a.run, spent, d), s.attempts[i := a.(phase := Over(0), asked := true)])
      case (Chunk(i, n), Relaying(spent, bytes)) =>
        s.(attempts := s.attempts[i := a.(phase := Relaying(spent, bytes + n))])
      case (Finish(i), Relaying(_, bytes)) =>
        s.(attempts := s.attempts[i := a.(phase := Over(bytes))])
      case _ => s
  }

  function Run(s: System, steps: seq<Step>): System {
    if steps == [] then s else Next(Run(s, steps[..|steps| - 1]), steps[|steps| - 1])
  }

  // ---- What every run keeps ----

  function Spending(a: Attempt): nat {
    if a.phase.Connecting? || a.phase.Refunding? || a.phase.Relaying? then a.phase.spent else 0
  }

  // One row per reference and kind; debits at the price; a grant gives back no more than
  // was taken; and who believes to have spent something has a debit to show for it.
  ghost predicate OneRowEach(ledger: seq<Row>) {
    forall i, j, debit, run :: 0 <= i < j < |ledger| && IsFor(ledger[i], debit, run) ==> !IsFor(ledger[j], debit, run)
  }

  ghost predicate Priced(p: Plane) {
    forall i :: 0 <= i < |p.ledger| ==>
      var row := p.ledger[i];
      if row.Debit? then row.credits == p.price
      else row.credits == 0 || (row.credits == p.price && Seen(p.ledger, true, row.run))
  }

  predicate Sound(p: Plane, a: Attempt) {
    && (Spending(a) == 0 || (Spending(a) == p.price && Seen(p.ledger, true, a.run)))
    && (a.asked ==> a.phase == Over(0))
  }

  ghost predicate Valid(s: System, start: int) {
    && OneRowEach(s.plane.ledger) && Priced(s.plane)
    && s.plane.balance == start + Effect(s.plane.ledger)
    && forall i :: 0 <= i < |s.attempts| ==> Sound(s.plane, s.attempts[i])
  }

  lemma {:induction false} SeenAppend(ledger: seq<Row>, row: Row, debit: bool, run: string)
    ensures Seen(ledger + [row], debit, run) <==> Seen(ledger, debit, run) || IsFor(row, debit, run)
  {
    var more := ledger + [row];
    assert more[|ledger|] == row;
    if Seen(ledger, debit, run) {
      var i :| 0 <= i < |ledger| && IsFor(ledger[i], debit, run);
      assert more[i] == ledger[i];
    }
  }

  lemma {:induction false} AppendValid(s: System, row: Row, start: int)
    requires Valid(s, start) && !Seen(s.plane.ledger, row.Debit?, row.run)
    requires if row.Debit? then row.credits == s.plane.price
             else row.credits == 0 || (row.credits == s.plane.price && Seen(s.plane.ledger, true, row.run))
    ensures Valid(s.(plane := Append(s.plane, row)), start)
  {
    var p, p' := s.plane, Append(s.plane, row);
    assert p'.ledger[..|p.ledger|] == p.ledger;
    forall i, j, debit, run | 0 <= i < j < |p'.ledger| && IsFor(p'.ledger[i], debit, run)
      ensures !IsFor(p'.ledger[j], debit, run)
    {
      assert IsFor(p.ledger[i], debit, run);
    }
    forall run
      ensures Seen(p.ledger, true, run) ==> Seen(p'.ledger, true, run)
    {
      SeenAppend(p.ledger, row, true, run);
    }
    assert Priced(p');
  }

  lemma {:induction false} NextValid(s: System, step: Step, start: int)
    requires Valid(s, start)
    ensures Valid(Next(s, step), start)
  {
    hide OneRowEach, Priced, Effect;
    if !step.Arrive? && step.i < |s.attempts| {
      var a := s.attempts[step.i];
      assert Sound(s.plane, a);
      match (step, a.phase) {
        case (DoSpend(i, d), Charging) =>
          SpendValid(s, a.run, d, start);
        case (DoRefund(i, d), Refunding(spent)) =>
          RefundValid(s, a.run, spent, d, start);
        case _ =>
      }
    }
  }

  lemma {:induction false} SpendValid(s: System, run: string, d: Delivery, start: int)
    requires Valid(s, start)
    ensures var (p, charge) := Spend(s.plane, run, d);
            && Valid(s.(plane := p), start) && p.price == s.plane.price
            && (charge.Spent? ==> charge.credits == 0 || (charge.credits == p.price && Seen(p.ledger, true, run)))
  {
    hide OneRowEach, Priced, Effect;
    if s.plane.metered && !Seen(s.plane.ledger, true, run) {
      AppendValid(s, Debit(run, s.plane.price), start);
      SeenAppend(s.plane.ledger, Debit(run, s.plane.price), true, run);
    }
  }

  lemma {:induction false} RefundValid(s: System, run: string, credits: nat, d: Delivery, start: int)
    requires Valid(s, start)
    requires credits == 0 || (credits == s.plane.price && Seen(s.plane.ledger, true, run))
    ensures Valid(s.(plane := Refund(s.plane, run, credits, d)), start)
  {
    hide OneRowEach, Priced, Effect;
    if !Seen(s.plane.ledger, false, run) {
      AppendValid(s, Grant(run, credits), start);
    }
  }

  // The headline: whatever the interleaving and whatever was lost, the invariant holds
  // after every step.
  lemma {:induction false} RunValid(s: System, steps: seq<Step>, start: int)
    requires Valid(s, start)
    ensures Valid(Run(s, steps), start)
  {
    hide Valid, Next;
    if steps != [] {
      RunValid(s, steps[..|steps| - 1], start);
      NextValid(Run(s, steps[..|steps| - 1]), steps[|steps| - 1], start);
    }
  }

  // ---- What the invariant means ----

  lemma {:induction false} NotSeenTotal(ledger: seq<Row>, debit: bool, run: string)
    requires !Seen(ledger, debit, run)
    ensures Total(ledger, debit, run) == 0
  {
    if ledger != [] {
      var n := |ledger| - 1;
      assert !IsFor(ledger[n], debit, run);
      assert forall i :: 0 <= i < n ==> ledger[..n][i] == ledger[i];
      NotSeenTotal(ledger[..n], debit, run);
    }
  }

  lemma {:induction false} OneRowTotal(ledger: seq<Row>, debit: bool, run: string, i: nat)
    requires OneRowEach(ledger) && i < |ledger| && IsFor(ledger[i], debit, run)
    ensures Total(ledger, debit, run) == ledger[i].credits
  {
    var n := |ledger| - 1;
    var front := ledger[..n];
    assert forall k :: 0 <= k < n ==> front[k] == ledger[k];
    if i == n {
      assert forall k :: 0 <= k < n ==> !IsFor(front[k], debit, run);
      NotSeenTotal(front, debit, run);
    } else {
      OneRowTotal(front, debit, run, i);
      assert !IsFor(ledger[n], debit, run);
    }
  }

  // Every run was charged nothing or one price, and given back no more than it was charged.
  lemma {:induction false} RunCharges(s: System, start: int, run: string)
    requires Valid(s, start)
    ensures var taken := Total(s.plane.ledger, true, run);
            var back := Total(s.plane.ledger, false, run);
            && (taken == 0 || taken == s.plane.price)
            && (back == 0 || back == s.plane.price)
            && back <= taken
  {
    var ledger := s.plane.ledger;
    if Seen(ledger, true, run) {
      var i :| 0 <= i < |ledger| && IsFor(ledger[i], true, run);
      OneRowTotal(ledger, true, run, i);
    } else {
      NotSeenTotal(ledger, true, run);
    }
    if Seen(ledger, false, run) {
      var i :| 0 <= i < |ledger| && IsFor(ledger[i], false, run);
      OneRowTotal(ledger, false, run, i);
      assert ledger[i].credits == 0 || Seen(ledger, true, ledger[i].run);
    } else {
      NotSeenTotal(ledger, false, run);
    }
  }

  // From an empty ledger, after any steps: every run was charged nothing or one price and
  // given back no more, and the balance is what the ledger says it is.
  lemma {:induction false} AnyInterleaving(metered: bool, unlimited: bool, booksZero: bool, price: nat, start: int,
                                           steps: seq<Step>, run: string)
    ensures var plane := Run(System(Plane(metered, unlimited, booksZero, price, start, []), []), steps).plane;
            var taken, back := Total(plane.ledger, true, run), Total(plane.ledger, false, run);
            && (taken == 0 || taken == price) && (back == 0 || back == price) && back <= taken
            && plane.balance == start + Effect(plane.ledger)
  {
    var s := System(Plane(metered, unlimited, booksZero, price, start, []), []);
    assert Valid(s, start);
    RunValid(s, steps, start);
    RunCharges(Run(s, steps), start, run);
    PriceStays(s, steps);
  }

  lemma {:induction false} PriceStays(s: System, steps: seq<Step>)
    ensures Run(s, steps).plane.price == s.plane.price
  {
    if steps != [] {
      PriceStays(s, steps[..|steps| - 1]);
    }
  }

  // ---- One row decides ----

  lemma {:induction false} AppendTotal(ledger: seq<Row>, row: Row, debit: bool, run: string)
    ensures Total(ledger + [row], debit, run) ==
            Total(ledger, debit, run) + if IsFor(row, debit, run) then row.credits else 0
  {
    assert (ledger + [row])[..|ledger|] == ledger;
  }

  lemma {:induction false} NextRowStands(s: System, step: Step, debit: bool, run: string)
    requires Seen(s.plane.ledger, debit, run)
    ensures Seen(Next(s, step).plane.ledger, debit, run)
    ensures Total(Next(s, step).plane.ledger, debit, run) == Total(s.plane.ledger, debit, run)
  {
    hide Seen, Total;
    if !step.Arrive? && step.i < |s.attempts| {
      var a := s.attempts[step.i];
      match (step, a.phase) {
        case (DoSpend(i, d), Charging) =>
          SeenAppend(s.plane.ledger, Debit(a.run, s.plane.price), debit, run);
          AppendTotal(s.plane.ledger, Debit(a.run, s.plane.price), debit, run);
        case (DoRefund(i, d), Refunding(spent)) =>
          SeenAppend(s.plane.ledger, Grant(a.run, spent), debit, run);
          AppendTotal(s.plane.ledger, Grant(a.run, spent), debit, run);
        case _ =>
      }
    }
  }

  // Once a run has a charge, or a refund, on the ledger, no later step changes its amount:
  // a retry is free, and a refund is the first one made.
  lemma {:induction false} FirstRowStands(s: System, steps: seq<Step>, debit: bool, run: string)
    requires Seen(s.plane.ledger, debit, run)
    ensures Seen(Run(s, steps).plane.ledger, debit, run)
    ensures Total(Run(s, steps).plane.ledger, debit, run) == Total(s.plane.ledger, debit, run)
  {
    hide Next, Seen, Total;
    if steps != [] {
      FirstRowStands(s, steps[..|steps| - 1], debit, run);
      NextRowStands(Run(s, steps[..|steps| - 1]), steps[|steps| - 1], debit, run);
    }
  }

  // The first refund call that reaches the plane fixes what the run gets back for good:
  // exactly what the attempt that made it had spent, be that the price or nothing. Only one
  // of nothing, at a plane that does not book it, leaves everything open.
  lemma {:induction false} FirstRefundDecides(s: System, i: nat, d: Delivery, later: seq<Step>)
    requires s.plane.metered && i < |s.attempts| && s.attempts[i].phase.Refunding? && !d.LostBefore?
    requires !Seen(s.plane.ledger, false, s.attempts[i].run)
    ensures var done := Run(Next(s, DoRefund(i, d)), later);
            if s.attempts[i].phase.spent > 0 || s.plane.booksZero
            then Total(done.plane.ledger, false, s.attempts[i].run) == s.attempts[i].phase.spent
            else Next(s, DoRefund(i, d)).plane == s.plane
  {
    hide Seen, Total, Run;
    var run, spent := s.attempts[i].run, s.attempts[i].phase.spent;
    if spent > 0 || s.plane.booksZero {
      SeenAppend(s.plane.ledger, Grant(run, spent), false, run);
      AppendTotal(s.plane.ledger, Grant(run, spent), false, run);
      NotSeenTotal(s.plane.ledger, false, run);
      FirstRowStands(Next(s, DoRefund(i, d)), later, false, run);
    }
  }

  // Two attempts of one run find the upstream unreachable. The duplicate, which spent
  // nothing, refunds nothing under the run's reference first. If the plane books that, the
  // payer's refund is then dropped as a repeat, and the customer pays for an outage,
  // whatever happens later; if it does not, the payer gets the price back.
  lemma {:induction false} DuplicateSwallowsRefund(booksZero: bool, start: nat, price: nat, run: string,
                                                   later: seq<Step>)
    requires 0 < price <= start
    ensures var s0 := System(Plane(true, false, booksZero, price, start, []), []);
            var s1 := Next(Next(s0, Arrive(run)), Arrive(run));
            var s2 := Next(Next(s1, DoSpend(0, Answered)), DoSpend(1, Answered));
            var s3 := Next(Next(s2, DoConnect(0, Unreachable)), DoConnect(1, Unreachable));
            var s4 := Next(Next(s3, DoRefund(1, Answered)), DoRefund(0, Answered));
            && s4.attempts == [Attempt(run, Over(0), true, Response(Unreachable, price)),
                               Attempt(run, Over(0), true, Response(Unreachable, 0))]
            && s4.plane.balance == (if booksZero then start - price else start)
            && Total(Run(s4, later).plane.ledger, true, run) == price
            && Total(Run(s4, later).plane.ledger, false, run) == if booksZero then 0 else price
  {
    hide Total, Run;
    var paid := [Debit(run, price)];
    var s0 := System(Plane(true, false, booksZero, price, start, []), []);
    var s1 := Next(Next(s0, Arrive(run)), Arrive(run));
    assert s1.attempts == [Attempt(run, Charging, false, Nothing), Attempt(run, Charging, false, Nothing)];
    var s2a := Next(s1, DoSpend(0, Answered));
    assert s2a.plane.ledger == paid && IsFor(paid[0], true, run);
    var s2 := Next(s2a, DoSpend(1, Answered));
    assert s2.attempts ==
           [Attempt(run, Connecting(price), false, Nothing), Attempt(run, Connecting(0), false, Nothing)];
    var s3 := Next(Next(s2, DoConnect(0, Unreachable)), DoConnect(1, Unreachable));
    var paidMet, freeMet := Response(Unreachable, price), Response(Unreachable, 0);
    assert s3.attempts == [Attempt(run, Refunding(price), false, paidMet), Attempt(run, Refunding(0), false, freeMet)];
    assert s3.plane.ledger == paid;
    var s4a := Next(s3, DoRefund(1, Answered));
    assert s4a.plane.ledger == if booksZero then paid + [Grant(run, 0)] else paid;
    var s4 := Next(s4a, DoRefund(0, Answered));
    var back := Grant(run, if booksZero then 0 else price);
    assert booksZero ==> IsFor(s4a.plane.ledger[1], false, run);
    assert s4.plane.ledger == paid + [back];
    assert IsFor(s4.plane.ledger[0], true, run) && IsFor(s4.plane.ledger[1], false, run);
    assert s4.attempts == [Attempt(run, Over(0), true, paidMet), Attempt(run, Over(0), true, freeMet)];
    FirstRowStands(s4, later, true, run);
    FirstRowStands(s4, later, false, run);
    LedgerOfTwo(paid, Debit(run, price), back, run);
  }

  lemma {:induction false} LedgerOfTwo(paid: seq<Row>, x: Row, y: Row, run: string)
    requires paid == [x] && IsFor(x, true, run) && IsFor(y, false, run)
    ensures Total(paid + [y], true, run) == x.credits && Total(paid + [y], false, run) == y.credits
  {
    AppendTotal(paid, y, true, run);
    AppendTotal(paid, y, false, run);
    AppendTotal([], x, true, run);
    AppendTotal([], x, false, run);
    assert [] + [x] == paid;
  }

  // ---- Streams ----

  predicate Opened(p: Phase) {
    p.Relaying? || p.Over?
  }

  lemma {:induction false} NextKeepsAsked(s: System, step: Step, i: nat)
    requires i < |s.attempts| && Opened(s.attempts[i].phase)
    ensures var s' := Next(s, step);
            i < |s'.attempts| && Opened(s'.attempts[i].phase) && s'.attempts[i].asked == s.attempts[i].asked
  {
    hide Seen;
  }

  // An attempt that got a 200 never refunds, not even when its stream dies before the
  // first byte: the code does not follow the promise about a run without a byte that far.
  lemma {:induction false} StreamedNeverRefunds(s: System, steps: seq<Step>, start: int, i: nat)
    requires Valid(s, start) && i < |s.attempts| && s.attempts[i].phase.Relaying?
    ensures i < |Run(s, steps).attempts| && !Run(s, steps).attempts[i].asked
  {
    assert Sound(s.plane, s.attempts[i]);
    KeepsAsked(s, steps, i);
  }

  lemma {:induction false} KeepsAsked(s: System, steps: seq<Step>, i: nat)
    requires i < |s.attempts| && Opened(s.attempts[i].phase)
    ensures var s' := Run(s, steps);
            i < |s'.attempts| && Opened(s'.attempts[i].phase) && s'.attempts[i].asked == s.attempts[i].asked
  {
    hide Next;
    if steps != [] {
      KeepsAsked(s, steps[..|steps| - 1], i);
      NextKeepsAsked(Run(s, steps[..|steps| - 1]), steps[|steps| - 1], i);
    }
  }

  // ---- Who asks for a refund ----

  // Unreachable, or a refusal of a run that had been paid for.
  predicate Owes(met: Met) {
    met.Response? && (met.upstream.Unreachable? || (met.upstream.NotOk? && met.spent > 0))
  }

  predicate Told(a: Attempt) {
    match a.phase
    case Charging => !a.asked && a.met.Nothing?
    case Connecting(_) => !a.asked && a.met.Nothing?
    case Refunding(spent) => !a.asked && Owes(a.met) && a.met.spent == spent
    case Relaying(spent, _) => !a.asked && a.met == Response(Streaming, spent)
    case Over(bytes) => (a.asked <==> Owes(a.met)) && (bytes > 0 ==> a.met.Response? && a.met.upstream.Streaming?)
  }

  ghost predicate AllTold(s: System) {
    forall i :: 0 <= i < |s.attempts| ==> Told(s.attempts[i])
  }

  lemma {:induction false} NextTold(s: System, step: Step)
    requires AllTold(s)
    ensures AllTold(Next(s, step))
  {
    hide Seen, Spend, Refund;
  }

  lemma {:induction false} RunTold(s: System, steps: seq<Step>)
    requires AllTold(s)
    ensures AllTold(Run(s, steps))
  {
    hide Next, Told;
    if steps != [] {
      RunTold(s, steps[..|steps| - 1]);
      NextTold(Run(s, steps[..|steps| - 1]), steps[|steps| - 1]);
    }
  }

  // In every run, an attempt that is over called `refund` if and only if it found the
  // upstream unreachable, or refusing what it had paid for; before it is over it never did.
  // So among the attempts that were told of a charge and relayed no byte, exactly those did
  // not call whose upstream had answered well and then sent nothing.
  lemma {:induction false} RefundAskedIff(plane: Plane, steps: seq<Step>, i: nat)
    requires i < |Run(System(plane, []), steps).attempts|
    ensures var a := Run(System(plane, []), steps).attempts[i];
            && (a.asked <==> a.phase.Over? && Owes(a.met))
            && (a.phase == Over(0) && a.met.Response? && a.met.spent > 0 ==>
                  (!a.asked <==> a.met.upstream.Streaming?))
  {
    RunTold(System(plane, []), steps);
    assert Told(Run(System(plane, []), steps).attempts[i]);
  }

  // ---- Who reaches the upstream ----

  predicate Reached(a: Attempt) {
    a.phase.Connecting? || a.phase.Refunding? || a.phase.Relaying? || a.met.Response?
  }

  // On a metered account without a flat rate, whoever reaches the upstream has a debit for
  // its run on the ledger.
  ghost predicate ReachedIsCharged(s: System) {
    s.plane.metered && !s.plane.unlimited ==>
      forall i :: 0 <= i < |s.attempts| && Reached(s.attempts[i]) ==> Seen(s.plane.ledger, true, s.attempts[i].run)
  }

  lemma {:induction false} NextReached(s: System, step: Step)
    requires ReachedIsCharged(s)
    ensures ReachedIsCharged(Next(s, step))
    ensures Next(s, step).plane.metered == s.plane.metered && Next(s, step).plane.unlimited == s.plane.unlimited
  {
    var next := Next(s, step);
    forall i | 0 <= i < |next.attempts| && s.plane.metered && !s.plane.unlimited && Reached(next.attempts[i])
      ensures Seen(next.plane.ledger, true, next.attempts[i].run)
    {
      var run := next.attempts[i].run;
      if Seen(s.plane.ledger, true, run) {
        NextRowStands(s, step, true, run);
      } else {
        SeenAppend(s.plane.ledger, Debit(run, s.plane.price), true, run);
      }
    }
  }

  // The headline: from an empty ledger, after any steps, every attempt that connects, relays
  // or has met a response belongs to a run that was charged. A refused one never connects.
  lemma {:induction false} NothingRunsUncharged(plane: Plane, steps: seq<Step>)
    ensures ReachedIsCharged(Run(System(plane, []), steps))
    ensures var end := Run(System(plane, []), steps).plane;
            end.metered == plane.metered && end.unlimited == plane.unlimited
  {
    hide Next, Reached;
    if steps != [] {
      var front := steps[..|steps| - 1];
      NothingRunsUncharged(plane, front);
      NextReached(Run(System(plane, []), front), steps[|steps| - 1]);
    }
  }

  // A charge that is answered is refused exactly when the account is metered, has no flat
  // rate, was not charged for the run before, and cannot pay; it costs the price exactly
  // when it is the first one that can.
  lemma {:induction false} RefusedIff(s: System, i: nat)
    requires i < |s.attempts| && s.attempts[i].phase.Charging?
    ensures var pays := s.plane.metered && !s.plane.unlimited && !Seen(s.plane.ledger, true, s.attempts[i].run);
            var next := Next(s, DoSpend(i, Answered)).attempts[i].phase;
            && (next == Over(0) <==> pays && s.plane.balance < s.plane.price)
            && (next != Over(0) ==> next == Connecting(if pays then s.plane.price else 0))
  {
  }

  // No charge overdraws the account.
  lemma {:induction false} NeverOverdrawn(s: System, steps: seq<Step>)
    requires s.plane.balance >= 0
    ensures Run(s, steps).plane.balance >= 0
  {
    if steps != [] {
      var front := Run(s, steps[..|steps| - 1]);
      NeverOverdrawn(s, steps[..|steps| - 1]);
      NextCovered(front, steps[|steps| - 1]);
    }
  }

  lemma {:induction false} NextCovered(s: System, step: Step)
    requires s.plane.balance >= 0
    ensures Next(s, step).plane.balance >= 0
  {
    hide Seen;
  }

  // What this step relays for attempt `i`.
  function Relays(s: System, step: Step, i: nat): nat {
    if step.Chunk? && step.i == i && i < |s.attempts| && s.attempts[i].phase.Relaying? then step.bytes else 0
  }

  function RelayedOver(s: System, steps: seq<Step>, i: nat): nat {
    if steps == [] then 0
    else RelayedOver(s, steps[..|steps| - 1], i) + Relays(Run(s, steps[..|steps| - 1]), steps[|steps| - 1], i)
  }

  function BytesOf(a: Attempt): nat {
    match a.phase
    case Relaying(_, bytes) => bytes
    case Over(bytes) => bytes
    case _ => 0
  }

  // An attempt's bytes are those of the chunks relayed while its stream was open.
  lemma {:induction false} BytesAreRelayed(plane: Plane, steps: seq<Step>, i: nat)
    ensures var s := Run(System(plane, []), steps);
            RelayedOver(System(plane, []), steps, i) == if i < |s.attempts| then BytesOf(s.attempts[i]) else 0
  {
    if steps != [] {
      var front := steps[..|steps| - 1];
      BytesAreRelayed(plane, front, i);
      hide Run, RelayedOver;
      NextBytes(Run(System(plane, []), front), steps[|steps| - 1], i);
      RunUnfolds(System(plane, []), steps);
      RelayedUnfolds(System(plane, []), steps, i);
    }
  }

  lemma {:induction false} NextBytes(s: System, step: Step, i: nat)
    ensures var next := Next(s, step);
            (if i < |next.attempts| then BytesOf(next.attempts[i]) else 0) ==
            (if i < |s.attempts| then BytesOf(s.attempts[i]) else 0) + Relays(s, step, i)
  {
    hide Seen, Spend, Refund;
  }

  lemma {:induction false} RunUnfolds(s: System, steps: seq<Step>)
    requires steps != []
    ensures Run(s, steps) == Next(Run(s, steps[..|steps| - 1]), steps[|steps| - 1])
  {
  }

  lemma {:induction false} RelayedUnfolds(s: System, steps: seq<Step>, i: nat)
    requires steps != []
    ensures RelayedOver(s, steps, i) ==
            RelayedOver(s, steps[..|steps| - 1], i) + Relays(Run(s, steps[..|steps| - 1]), steps[|steps| - 1], i)
  {
  }

  // ---- What a run gets back ----

  // The refund call of this step reaches the plane, which books it unless the run's
  // reference is used up.
  predicate Books(s: System, step: Step, run: string, credits: nat) {
    && step.DoRefund? && step.i < |s.attempts| && !step.d.LostBefore?
    && s.attempts[step.i].run == run && s.attempts[step.i].phase == Refunding(credits)
    && s.plane.metered && (credits > 0 || s.plane.booksZero)
  }

  // What the first such call for the run had spent.
  function FirstBooked(s: System, steps: seq<Step>, run: string): Option<nat> {
    if steps == [] then None
    else
      var front, last := Run(s, steps[..|steps| - 1]), steps[|steps| - 1];
      match FirstBooked(s, steps[..|steps| - 1], run)
      case Some(credits) => Some(credits)
      case None =>
        if last.DoRefund? && last.i < |front.attempts| && front.attempts[last.i].phase.Refunding? &&
           Books(front, last, run, front.attempts[last.i].phase.spent)
        then Some(front.attempts[last.i].phase.spent)
        else None
  }

  lemma {:induction false} BooksFirst(s: System, step: Step, run: string, credits: nat)
    requires Books(s, step, run, credits) && !Seen(s.plane.ledger, false, run)
    ensures Seen(Next(s, step).plane.ledger, false, run) && Total(Next(s, step).plane.ledger, false, run) == credits
  {
    hide Seen, Total;
    SeenAppend(s.plane.ledger, Grant(run, credits), false, run);
    AppendTotal(s.plane.ledger, Grant(run, credits), false, run);
    NotSeenTotal(s.plane.ledger, false, run);
  }

  lemma {:induction false} BooksNothing(s: System, step: Step, run: string)
    requires forall credits :: !Books(s, step, run, credits)
    requires !Seen(s.plane.ledger, false, run)
    ensures !Seen(Next(s, step).plane.ledger, false, run)
  {
    hide Seen, Total;
    if !step.Arrive? && step.i < |s.attempts| {
      var a := s.attempts[step.i];
      match (step, a.phase) {
        case (DoSpend(i, d), Charging) =>
          SeenAppend(s.plane.ledger, Debit(a.run, s.plane.price), false, run);
        case (DoRefund(i, d), Refunding(spent)) =>
          assert !Books(s, step, run, spent);
          SeenAppend(s.plane.ledger, Grant(a.run, spent), false, run);
        case _ =>
      }
    }
  }

  // A run gets back what the first booked refund call for it had spent, and nothing if
  // there is none.
  lemma {:induction false} BackIsFirstBooked(s: System, steps: seq<Step>, run: string)
    requires !Seen(s.plane.ledger, false, run)
    ensures var ledger, first := Run(s, steps).plane.ledger, FirstBooked(s, steps, run);
            && (Seen(ledger, false, run) <==> first.Some?)
            && Total(ledger, false, run) == if first.Some? then first.value else 0
  {
    hide Seen, Total, Next, Books;
    if steps == [] {
      NotSeenTotal(s.plane.ledger, false, run);
    } else {
      var front, last := Run(s, steps[..|steps| - 1]), steps[|steps| - 1];
      BackIsFirstBooked(s, steps[..|steps| - 1], run);
      if Seen(front.plane.ledger, false, run) {
        NextRowStands(front, last, false, run);
      } else if FirstBooked(s, steps, run).Some? {
        BooksFirst(front, last, run, FirstBooked(s, steps, run).value);
      } else {
        BooksOnly(front, last, run);
        BooksNothing(front, last, run);
        NotSeenTotal(Next(front, last).plane.ledger, false, run);
      }
    }
  }

  lemma {:induction false} BooksOnly(s: System, step: Step, run: string)
    ensures forall credits :: Books(s, step, run, credits) ==>
              && step.DoRefund? && step.i < |s.attempts| && s.attempts[step.i].phase.Refunding?
              && s.attempts[step.i].phase.spent == credits
  {
  }

  ghost predicate NoneBooked(s: System, steps: seq<Step>, run: string, k: nat)
    requires k <= |steps|
  {
    forall j, credits :: 0 <= j < k ==> !Books(Run(s, steps[..j]), steps[j], run, credits)
  }

  lemma {:induction false} FirstBookedAt(s: System, steps: seq<Step>, run: string) returns (k: nat)
    ensures k <= |steps| && NoneBooked(s, steps, run, k)
    ensures FirstBooked(s, steps, run).None? <==> k == |steps|
    ensures k < |steps| ==> Books(Run(s, steps[..k]), steps[k], run, FirstBooked(s, steps, run).value)
  {
    hide Run, Books;
    if steps == [] {
      return 0;
    }
    var n := |steps| - 1;
    var front := steps[..n];
    k := FirstBookedAt(s, front, run);
    assert forall j :: 0 <= j <= n ==> front[..j] == steps[..j];
    BooksOnly(Run(s, front), steps[n], run);
    if k == n && FirstBooked(s, steps, run).None? {
      k := n + 1;
    }
  }

  // The attempt that was told of the charge met no 200, and its refund call is booked.
  predicate PayerCalls(s: System, step: Step, run: string, price: nat) {
    && Books(s, step, run, price)
    && s.attempts[step.i].met.Response? && s.attempts[step.i].met.spent == price
    && !s.attempts[step.i].met.upstream.Streaming?
  }

  ghost predicate PayerComesFirst(s: System, steps: seq<Step>, run: string, price: nat, k: nat)
    requires k < |steps|
  {
    && PayerCalls(Run(s, steps[..k]), steps[k], run, price)
    && forall j :: 0 <= j < k ==> !Books(Run(s, steps[..j]), steps[j], run, 0)
  }

  lemma {:induction false} FirstIsPayer(s: System, steps: seq<Step>, run: string, start: int)
    requires Valid(s, start) && AllTold(s) && s.plane.price > 0
    ensures FirstBooked(s, steps, run) == Some(s.plane.price) <==>
            exists k :: 0 <= k < |steps| && PayerComesFirst(s, steps, run, s.plane.price, k)
  {
    hide Run, Books, Valid, AllTold;
    var first := FirstBookedAt(s, steps, run);
    if first < |steps| {
      var credits := FirstBooked(s, steps, run).value;
      BookedByPayer(s, steps[..first], steps[first], run, start, credits);
      if credits != 0 {
        assert PayerComesFirst(s, steps, run, s.plane.price, first);
      }
      forall k | 0 <= k < |steps| && PayerComesFirst(s, steps, run, s.plane.price, k)
        ensures credits != 0
      {
        assert first <= k;
        BooksOnly(Run(s, steps[..k]), steps[k], run);
      }
    }
  }

  // The headline: whatever the interleaving and whatever was lost, a run gets its price back
  // if and only if the attempt that was told of the charge met no 200, its refund call
  // arrived, and no refund of zero had been booked for the run before it. In every other
  // case it gets nothing.
  lemma {:induction false} GivenBackIff(metered: bool, unlimited: bool, booksZero: bool, price: nat, start: int,
                                        steps: seq<Step>, run: string)
    ensures var s := System(Plane(metered, unlimited, booksZero, price, start, []), []);
            var back := Total(Run(s, steps).plane.ledger, false, run);
            && (back > 0 <==>
                price > 0 && (exists k :: 0 <= k < |steps| && PayerComesFirst(s, steps, run, price, k)))
            && (back == price || back == 0)
  {
    var s := System(Plane(metered, unlimited, booksZero, price, start, []), []);
    BackIsFirstBooked(s, steps, run);
    AnyInterleaving(metered, unlimited, booksZero, price, start, steps, run);
    assert Valid(s, start);
    hide Run, PayerComesFirst, Total, FirstBooked;
    if price > 0 {
      FirstIsPayer(s, steps, run, start);
    }
  }

  lemma {:induction false} BookedByPayer(s: System, steps: seq<Step>, step: Step, run: string, start: int, credits: nat)
    requires Valid(s, start) && AllTold(s) && Books(Run(s, steps), step, run, credits)
    ensures credits == 0 || (credits == s.plane.price && PayerCalls(Run(s, steps), step, run, s.plane.price))
  {
    hide Run, OneRowEach, Priced, Effect;
    RunValid(s, steps, start);
    RunTold(s, steps);
    PriceStays(s, steps);
    assert Sound(Run(s, steps).plane, Run(s, steps).attempts[step.i]);
    assert Told(Run(s, steps).attempts[step.i]);
  }

  // ---- Only one attempt is told of the charge ----

  predicate ToldOfCharge(a: Attempt) {
    (a.phase.Connecting? && a.phase.spent > 0) || (a.met.Response? && a.met.spent > 0)
  }

  ghost predicate OnePayer(s: System, run: string) {
    && (forall i :: 0 <= i < |s.attempts| && s.attempts[i].run == run && ToldOfCharge(s.attempts[i]) ==>
          Seen(s.plane.ledger, true, run))
    && (forall i, j :: 0 <= i < j < |s.attempts| && s.attempts[i].run == run && s.attempts[j].run == run ==>
          !ToldOfCharge(s.attempts[i]) || !ToldOfCharge(s.attempts[j]))
  }

  lemma {:induction false} NextOnePayer(s: System, step: Step, run: string)
    requires OnePayer(s, run) && AllTold(s)
    ensures OnePayer(Next(s, step), run)
  {
    hide Seen;
    if Seen(s.plane.ledger, true, run) {
      NextRowStands(s, step, true, run);
    }
    if !step.Arrive? && step.i < |s.attempts| {
      var a := s.attempts[step.i];
      assert Told(a);
      if step.DoSpend? && a.phase.Charging? {
        SeenAppend(s.plane.ledger, Debit(a.run, s.plane.price), true, run);
      }
    }
  }

  // Of all attempts that share a run id at most one is ever told that it spent something.
  lemma {:induction false} OnlyOneToldOfCharge(plane: Plane, steps: seq<Step>, run: string)
    ensures OnePayer(Run(System(plane, []), steps), run)
  {
    hide Next, OnePayer;
    if steps == [] {
      NobodyTold(plane, run);
    } else {
      var front := steps[..|steps| - 1];
      OnlyOneToldOfCharge(plane, front, run);
      RunTold(System(plane, []), front);
      NextOnePayer(Run(System(plane, []), front), steps[|steps| - 1], run);
    }
  }

  lemma {:induction false} NobodyTold(plane: Plane, run: string)
    ensures OnePayer(System(plane, []), run)
  {
  }

  // ---- Runs that pay for nothing ----

  // The run is paid for, none of its attempts still has that money, and nothing was given back.
  ghost predicate PaidForGood(s: System, run: string) {
    && s.plane.metered && Seen(s.plane.ledger, true, run) && Total(s.plane.ledger, false, run) == 0
    && forall i :: 0 <= i < |s.attempts| && s.attempts[i].run == run ==> Spending(s.attempts[i]) == 0
  }

  lemma {:induction false} StaysPaid(s: System, step: Step, run: string)
    requires PaidForGood(s, run)
    ensures PaidForGood(Next(s, step), run)
  {
    NextRowStands(s, step, true, run);
    if !step.Arrive? && step.i < |s.attempts| {
      var a := s.attempts[step.i];
      hide Seen, Total, IsFor;
      if step.DoRefund? && a.phase.Refunding? {
        RefundAdds(s.plane, a.run, a.phase.spent, step.d, run);
      } else if step.DoSpend? && a.phase.Charging? {
        SpendAdds(s.plane, a.run, step.d, run);
      }
    }
  }

  lemma {:induction false} RefundAdds(p: Plane, of: string, credits: nat, d: Delivery, run: string)
    requires of == run ==> credits == 0
    ensures Total(Refund(p, of, credits, d).ledger, false, run) == Total(p.ledger, false, run)
    ensures Refund(p, of, credits, d).metered == p.metered
  {
    AppendTotal(p.ledger, Grant(of, credits), false, run);
  }

  lemma {:induction false} SpendAdds(p: Plane, of: string, d: Delivery, run: string)
    requires Seen(p.ledger, true, run) && p.metered
    ensures Total(Spend(p, of, d).0.ledger, false, run) == Total(p.ledger, false, run)
    ensures of == run && Spend(p, of, d).1.Spent? ==> Spend(p, of, d).1.credits == 0
    ensures Spend(p, of, d).0.metered == p.metered
  {
    AppendTotal(p.ledger, Debit(of, p.price), false, run);
  }

  lemma {:induction false} RunStaysPaid(s: System, steps: seq<Step>, run: string)
    requires PaidForGood(s, run)
    ensures PaidForGood(Run(s, steps), run)
  {
    hide Next, PaidForGood;
    if steps != [] {
      RunStaysPaid(s, steps[..|steps| - 1], run);
      StaysPaid(Run(s, steps[..|steps| - 1]), steps[|steps| - 1], run);
    }
  }

  // One attempt pays, gets a 200, and its stream dies before the first byte. The customer
  // has paid for nothing, and no retry, duplicate or refund call ever changes that.
  lemma {:induction false} DeadStreamIsPaid(booksZero: bool, start: nat, price: nat, run: string, later: seq<Step>)
    requires 0 < price <= start
    ensures var s0 := System(Plane(true, false, booksZero, price, start, []), []);
            var s := Run(s0, [Arrive(run), DoSpend(0, Answered), DoConnect(0, Streaming), Finish(0)]);
            && s.attempts == [Attempt(run, Over(0), false, Response(Streaming, price))]
            && s.plane.balance == start - price
            && Total(Run(s, later).plane.ledger, true, run) == price
            && Total(Run(s, later).plane.ledger, false, run) == 0
  {
    hide Run, Total;
    var s0 := System(Plane(true, false, booksZero, price, start, []), []);
    var s1 := Next(s0, Arrive(run));
    var s2 := Next(s1, DoSpend(0, Answered));
    var s3 := Next(s2, DoConnect(0, Streaming));
    var s := Next(s3, Finish(0));
    FourSteps(s0, Arrive(run), DoSpend(0, Answered), DoConnect(0, Streaming), Finish(0));
    assert s1.attempts == [Attempt(run, Charging, false, Nothing)] && s1.plane == s0.plane;
    assert s2.attempts == [Attempt(run, Connecting(price), false, Nothing)] && s2.plane.ledger == [Debit(run, price)];
    assert s3.attempts == [Attempt(run, Relaying(price, 0), false, Response(Streaming, price))];
    assert s.attempts == [Attempt(run, Over(0), false, Response(Streaming, price))];
    ChargedOnce(s.plane, run);
    RunStaysPaid(s, later, run);
    FirstRowStands(s, later, true, run);
  }

  lemma {:induction false} FourSteps(s0: System, a: Step, b: Step, c: Step, d: Step)
    ensures Run(s0, [a, b, c, d]) == Next(Next(Next(Next(s0, a), b), c), d)
  {
    hide Next;
    assert [a, b, c, d][..3] == [a, b, c] && [a, b, c][..2] == [a, b] && [a, b][..1] == [a] && [a][..0] == [];
    assert Run(s0, [a]) == Next(s0, a);
    assert Run(s0, [a, b]) == Next(Run(s0, [a]), b);
    assert Run(s0, [a, b, c]) == Next(Run(s0, [a, b]), c);
  }

  lemma {:induction false} ChargedOnce(plane: Plane, run: string)
    requires plane.ledger == [Debit(run, plane.price)]
    ensures Seen(plane.ledger, true, run) && Total(plane.ledger, true, run) == plane.price
    ensures Total(plane.ledger, false, run) == 0
  {
    AppendTotal([], plane.ledger[0], true, run);
    AppendTotal([], plane.ledger[0], false, run);
    assert [] + [plane.ledger[0]] == plane.ledger;
    assert IsFor(plane.ledger[0], true, run);
  }

  // The upstream is unreachable and the refund call is lost: nobody calls again.
  lemma {:induction false} LostRefundIsPaid(booksZero: bool, start: nat, price: nat, run: string, later: seq<Step>)
    requires 0 < price <= start
    ensures var s0 := System(Plane(true, false, booksZero, price, start, []), []);
            var s := Run(s0, [Arrive(run), DoSpend(0, Answered), DoConnect(0, Unreachable), DoRefund(0, LostBefore)]);
            && s.attempts == [Attempt(run, Over(0), true, Response(Unreachable, price))]
            && Total(Run(s, later).plane.ledger, true, run) == price
            && Total(Run(s, later).plane.ledger, false, run) == 0
  {
    hide Run, Total;
    var s0 := System(Plane(true, false, booksZero, price, start, []), []);
    var s1 := Next(s0, Arrive(run));
    var s2 := Next(s1, DoSpend(0, Answered));
    var s3 := Next(s2, DoConnect(0, Unreachable));
    var s := Next(s3, DoRefund(0, LostBefore));
    FourSteps(s0, Arrive(run), DoSpend(0, Answered), DoConnect(0, Unreachable), DoRefund(0, LostBefore));
    assert s1.attempts == [Attempt(run, Charging, false, Nothing)] && s1.plane == s0.plane;
    assert s2.attempts == [Attempt(run, Connecting(price), false, Nothing)] && s2.plane.ledger == [Debit(run, price)];
    assert s3.attempts == [Attempt(run, Refunding(price), false, Response(Unreachable, price))];
    assert s.attempts == [Attempt(run, Over(0), true, Response(Unreachable, price))] && s.plane == s2.plane;
    ChargedOnce(s.plane, run);
    RunStaysPaid(s, later, run);
    FirstRowStands(s, later, true, run);
  }

  // The charge is booked and its answer lost; the retry is free and refused. Nobody was told
  // of the charge, so nobody ever calls `refund`.
  lemma {:induction false} LostAnswerIsPaid(booksZero: bool, start: nat, price: nat, run: string, later: seq<Step>)
    requires 0 < price <= start
    ensures var s0 := System(Plane(true, false, booksZero, price, start, []), []);
            var s := Next(Run(s0, [Arrive(run), DoSpend(0, LostAfter), Arrive(run), DoSpend(1, Answered)]),
                          DoConnect(1, NotOk));
            && s.attempts == [Attempt(run, Over(0), false, Nothing), Attempt(run, Over(0), false, Response(NotOk, 0))]
            && Total(Run(s, later).plane.ledger, true, run) == price
            && Total(Run(s, later).plane.ledger, false, run) == 0
  {
    hide Run, Total;
    var s0 := System(Plane(true, false, booksZero, price, start, []), []);
    var s1 := Next(s0, Arrive(run));
    var s2 := Next(s1, DoSpend(0, LostAfter));
    var s3 := Next(s2, Arrive(run));
    var s4 := Next(s3, DoSpend(1, Answered));
    FourSteps(s0, Arrive(run), DoSpend(0, LostAfter), Arrive(run), DoSpend(1, Answered));
    assert s1.attempts == [Attempt(run, Charging, false, Nothing)] && s1.plane == s0.plane;
    assert s2.attempts == [Attempt(run, Over(0), false, Nothing)] && s2.plane.ledger == [Debit(run, price)];
    ChargedOnce(s2.plane, run);
    assert s3.attempts == [Attempt(run, Over(0), false, Nothing), Attempt(run, Charging, false, Nothing)];
    assert s4.attempts == [Attempt(run, Over(0), false, Nothing), Attempt(run, Connecting(0), false, Nothing)];
    assert s4.plane == s2.plane;
    var s := Next(s4, DoConnect(1, NotOk));
    assert s.attempts == [Attempt(run, Over(0), false, Nothing), Attempt(run, Over(0), false, Response(NotOk, 0))];
    RunStaysPaid(s, later, run);
    FirstRowStands(s, later, true, run);
  }
}
