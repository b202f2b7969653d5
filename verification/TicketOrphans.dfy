/**
  Purchases whose tier was deleted while they waited: deleting a tier nulls `price_tier` on its tickets
  (tickets/models.py), and the sweep cancels the tickets only of a purchase it finds a tier for
  (tickets/tasks.py).
*/
module TicketOrphans {
  import opened Options
  import opened TicketLedger
  import opened TicketSystem

  /** A purchase with tickets, all of them in one tier, or in none any more. */
  predicate InTier(p: Purchase, tier: Option<TierId>) {
    p.tickets != [] && forall k | 0 <= k < |p.tickets| :: p.tickets[k].tier == tier
  }

  lemma OrderInTier(t: TierId, q: nat, until: Time)
    requires q > 0
    ensures InTier(Order(t, q, until), Some(t)) && TicketsFollow(Order(t, q, until))
  {}

  /** Expiry cancels the tickets of a pending purchase exactly when its tier is still known. */
  lemma ExpireCancelsExactly(l: Ledger, i: nat)
    requires i < |l.purchases| && l.purchases[i].status == Pending && TicketsFollow(l.purchases[i])
    requires l.purchases[i].quantity > 0 && ExpireRow(l, i).Some?
    ensures var p := ExpireRow(l, i).value.purchases[i];
            && (AllMarked(p.tickets, Cancelled) <==> TierOf(l.purchases[i]).Some?)
            && (AllMarked(p.tickets, Reserved) <==> TierOf(l.purchases[i]).None?)
  {
    var p := ExpireRow(l, i).value.purchases[i];
    assert p.tickets[0].status == if TierOf(l.purchases[i]).Some? then Cancelled else Reserved;
  }

  // ---- over runs -----------------------------------------------------------------

  /** The tier is deleted while row i waits. */
  predicate EverOrphaned(s: System, steps: seq<Step>, i: nat, t: TierId)
    decreases |steps|
  {
    && steps != [] && i < |s.ledger.purchases| && s.ledger.purchases[i].status == Pending
    && (steps[0] == DropTier(t) || EverOrphaned(Apply(s, steps[0]), steps[1..], i, t))
  }

  /** The one thing that a step can do to a row that waits. */
  lemma WaitingRowStep(s: System, step: Step, i: nat, tier: Option<TierId>)
    requires Valid(s) && i < |s.ledger.purchases|
    requires s.ledger.purchases[i].status == Pending && InTier(s.ledger.purchases[i], tier)
    ensures i < |Apply(s, step).ledger.purchases|
    ensures var p, p' := s.ledger.purchases[i], Apply(s, step).ledger.purchases[i];
            && p'.quantity == p.quantity
            && (p'.status != Removed ==>
                  InTier(p', if tier.Some? && step == DropTier(tier.value) then None else tier))
            && match p'.status
               case Pending => true
               case Expired => step.CommitExpiry? && ExpireRow(s.ledger, i).Some?
                               && p' == ExpireRow(s.ledger, i).value.purchases[i]
               case _ => true
  {
    match step
    case DropTier(t) => UnlinkedTier(s.ledger.purchases[i], t, tier);
    case CommitExpiry(w) =>
    case Settle(h, paid) => SettlesExactly(s, h, paid);
    case _ =>
  }

  lemma UnlinkedTier(p: Purchase, t: TierId, tier: Option<TierId>)
    requires InTier(p, tier)
    ensures InTier(p.(tickets := Unlink(p.tickets, t)), if tier == Some(t) then None else tier)
  {}

  /** A settled row never waits or expires again. */
  lemma SettledRowStep(s: System, step: Step, i: nat)
    requires Valid(s) && i < |s.ledger.purchases| && s.ledger.purchases[i].status != Pending
    ensures i < |Apply(s, step).ledger.purchases|
    ensures var p, p' := s.ledger.purchases[i], Apply(s, step).ledger.purchases[i];
            && p'.status != Pending && (p.status != Expired ==> p'.status != Expired)
            && (p'.status == Expired ==>
                  |p'.tickets| == |p.tickets|
                  && forall k | 0 <= k < |p.tickets| :: p'.tickets[k].status == p.tickets[k].status)
  {
    if step.CommitExpiry? && step.worker < |s.workers| && Holding(s.workers[step.worker]) {
      assert Releasable(s.ledger, s.workers[step.worker].todo[0], s.workers[step.worker].now);
    }
  }

  lemma {:induction false} SettledRowRun(s: System, steps: seq<Step>, i: nat)
    requires Valid(s) && i < |s.ledger.purchases| && s.ledger.purchases[i].status != Pending
    ensures i < |Run(s, steps).ledger.purchases|
    ensures var p, p' := s.ledger.purchases[i], Run(s, steps).ledger.purchases[i];
            && p'.status != Pending && (p.status != Expired ==> p'.status != Expired)
            && (p'.status == Expired ==>
                  |p'.tickets| == |p.tickets|
                  && forall k | 0 <= k < |p.tickets| :: p'.tickets[k].status == p.tickets[k].status)
    decreases |steps|
  {
    if steps != [] {
      SettledRowStep(s, steps[0], i);
      StepKeepsValid(s, steps[0]);
      SettledRowRun(Apply(s, steps[0]), steps[1..], i);
    }
  }

  /** What an expiry leaves of a row in the given tier. */
  lemma ExpiredRowRun(s: System, steps: seq<Step>, i: nat, tier: Option<TierId>, l: Ledger)
    requires Valid(s) && i < |l.purchases| && l.purchases[i].status == Pending && TicketsFollow(l.purchases[i])
    requires InTier(l.purchases[i], tier) && ExpireRow(l, i).Some?
    requires i < |s.ledger.purchases| && s.ledger.purchases[i] == ExpireRow(l, i).value.purchases[i]
    requires i < |Run(s, steps).ledger.purchases| && Run(s, steps).ledger.purchases[i].status == Expired
    ensures AllMarked(Run(s, steps).ledger.purchases[i].tickets, if tier.Some? then Cancelled else Reserved)
  {
    SettledRowRun(s, steps, i);
    ExpireCancelsExactly(l, i);
  }

  /** A purchase ordered in tier t and expired in the end has its tickets cancelled if and only if the tier
      was not deleted while the purchase waited; otherwise they stay reserved. */
  lemma {:induction false} TicketsCancelledExactly(s: System, steps: seq<Step>, i: nat, tier: Option<TierId>)
    requires Valid(s) && i < |s.ledger.purchases|
    requires s.ledger.purchases[i].status == Pending && InTier(s.ledger.purchases[i], tier)
    requires i < |Run(s, steps).ledger.purchases| && Run(s, steps).ledger.purchases[i].status == Expired
    ensures var orphaned := tier.None? || EverOrphaned(s, steps, i, tier.value);
            AllMarked(Run(s, steps).ledger.purchases[i].tickets, if orphaned then Reserved else Cancelled)
    decreases |steps|
  {
    var step, s' := steps[0], Apply(s, steps[0]);
    var tier' := if tier.Some? && step == DropTier(tier.value) then None else tier;
    WaitingRowStep(s, step, i, tier);
    StepKeepsValid(s, step);
    match s'.ledger.purchases[i].status
    case Pending => TicketsCancelledExactly(s', steps[1..], i, tier');
    case Expired =>
      assert TicketsFollow(s.ledger.purchases[i]);
      ExpiredRowRun(s', steps[1..], i, tier, s.ledger);
    case _ => SettledRowRun(s', steps[1..], i);
  }

  /** From the order on: whatever happens after a successful order, if the purchase is expired in the end its
      tickets are cancelled exactly when its tier was not deleted before that. */
  lemma OrderedTicketsCancelledExactly(s: System, t: TierId, q: nat, until: Time, steps: seq<Step>)
    requires Valid(s) && q > 0 && ReserveRow(s.ledger, t, q, until).Some?
    ensures var s1, i := Apply(s, Reserve(t, q, until, true)), |s.ledger.purchases|;
            var l := Run(s1, steps).ledger;
            && i < |l.purchases|
            && (l.purchases[i].status == Expired ==>
                  && (AllMarked(l.purchases[i].tickets, Cancelled) <==> !EverOrphaned(s1, steps, i, t))
                  && (AllMarked(l.purchases[i].tickets, Reserved) <==> EverOrphaned(s1, steps, i, t)))
  {
    var s1, i := Apply(s, Reserve(t, q, until, true)), |s.ledger.purchases|;
    StepKeepsValid(s, Reserve(t, q, until, true));
    RunKeepsValid(s1, steps);
    OrderInTier(t, q, until);
    assert s1.ledger.purchases[i] == Order(t, q, until);
    var l := Run(s1, steps).ledger;
    if l.purchases[i].status == Expired {
      TicketsCancelledExactly(s1, steps, i, Some(t));
      RowKeepsQuantity(s1, steps, i);
      assert TicketsFollow(l.purchases[i]);
      assert |l.purchases[i].tickets| > 0;
      assert l.purchases[i].tickets[0].status == if EverOrphaned(s1, steps, i, t) then Reserved else Cancelled;
    }
  }

  lemma {:induction false} RowKeepsQuantity(s: System, steps: seq<Step>, i: nat)
    requires i < |s.ledger.purchases|
    ensures i < |Run(s, steps).ledger.purchases|
    ensures Run(s, steps).ledger.purchases[i].quantity == s.ledger.purchases[i].quantity
    decreases |steps|
  {
    if steps != [] { RowKeepsQuantity(Apply(s, steps[0]), steps[1..], i); }
  }

  // ---- a run that leaves reserved tickets behind -------------------------------------

  function OrphanRun(t: TierId, q: nat, until: Time): seq<Step> {
    [Reserve(t, q, until, true)] + ([DropTier(t)] +
        ([StartSweep(until, 1, [0])] + ([Lock(0)] + ([CommitExpiry(0)] + []))))
  }

  /** Order, delete the tier, sweep: the purchase expires and all its tickets stay reserved. */
  lemma OrphanKeepsTickets(t: TierId, seats: nat, q: nat, until: Time)
    requires 0 < q <= seats
    ensures var s := Run(Opening(t, seats), OrphanRun(t, q, until));
            && |s.ledger.purchases| == 1 && s.ledger.purchases[0].status == Expired
            && |s.ledger.purchases[0].tickets| == q && AllMarked(s.ledger.purchases[0].tickets, Reserved)
  {
    var s0 := Opening(t, seats);
    var p := Order(t, q, until);
    var orphan := p.(tickets := Unlink(p.tickets, t));
    ReserveEffect(s0, t, q, until);
    var s1 := Apply(s0, Reserve(t, q, until, true));
    var s2 := Apply(s1, DropTier(t));
    assert s2.ledger == Ledger(map[], [orphan]);
    RunCons(s0, Reserve(t, q, until, true), OrphanRun(t, q, until)[1..], t);
    RunCons(s1, DropTier(t), OrphanRun(t, q, until)[2..], t);
    OrphanSwept(s2, orphan, until, t);
    assert OrphanRun(t, q, until)[2..] == [StartSweep(until, 1, [0])] + ([Lock(0)] + ([CommitExpiry(0)] + []));
    assert OrphanRun(t, q, until) == [Reserve(t, q, until, true)] + OrphanRun(t, q, until)[1..];
    assert OrphanRun(t, q, until)[1..] == [DropTier(t)] + OrphanRun(t, q, until)[2..];
  }

  lemma OrphanSwept(s: System, orphan: Purchase, until: Time, t: TierId)
    requires s == System(Ledger(map[], [orphan]), [], [])
    requires orphan.status == Pending && orphan.reservedUntil == Some(until) && TierOf(orphan).None?
    ensures Run(s, [StartSweep(until, 1, [0])] + ([Lock(0)] + ([CommitExpiry(0)] + []))).ledger
            == Ledger(map[], [orphan.(status := Expired)])
  {
    var s1 := Apply(s, StartSweep(until, 1, [0]));
    var s2 := Apply(s1, Lock(0));
    RunCons(s, StartSweep(until, 1, [0]), [Lock(0)] + ([CommitExpiry(0)] + []), t);
    RunCons(s1, Lock(0), [CommitExpiry(0)] + [], t);
    RunCons(s2, CommitExpiry(0), [], t);
    assert s1.workers == [Worker(until, [0], false, 0, true)];
    assert s2.workers == [Worker(until, [0], true, 0, true)];
  }
}
