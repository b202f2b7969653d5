/**
  The other counter of a tier: `quantity_sold` against the purchases that are paid for.  Confirmation
  reads its purchase without a lock (`verify_purchase`), and both the buyer's request and the gateway's
  callback come through it.
*/
module TicketSales {
  import opened Options
  import opened TicketLedger
  import opened TicketSystem

  /** A settle that commits on a row already sold, in a tier that is still there. */
  predicate Resettles(s: System, step: Step) {
    && step.Settle? && CanSettle(s, step.handler, step.paid)
    && var p := s.ledger.purchases[s.handlers[step.handler].row];
       p.status == Successful && p.quantity > 0 && TierOf(p).Some? && TierOf(p).value in s.ledger.tiers
  }

  /** What a step adds to the sold counter of tier `t` beyond what it adds to the sold purchases. */
  function Oversold(s: System, step: Step, t: TierId): nat {
    if Resettles(s, step) then
      var p := s.ledger.purchases[s.handlers[step.handler].row];
      if TierOf(p) == Some(t) then p.quantity else 0
    else 0
  }

  function TotalOversold(s: System, steps: seq<Step>, t: TierId): nat
    decreases |steps|
  {
    if steps == [] then 0 else Oversold(s, steps[0], t) + TotalOversold(Apply(s, steps[0]), steps[1..], t)
  }

  /** The deletion of a paid purchase, in a tier that stays. */
  predicate Forgets(s: System, step: Step) {
    && step.Remove? && step.row < |s.ledger.purchases| && !Locked(s, step.row)
    && var p := s.ledger.purchases[step.row];
       p.status == Successful && p.quantity > 0 && TierOf(p).Some? && TierOf(p).value in s.ledger.tiers
  }

  /** What a step leaves sold in tier `t` without a purchase. */
  function Forgotten(s: System, step: Step, t: TierId): nat {
    if Forgets(s, step) && TierOf(s.ledger.purchases[step.row]) == Some(t) then s.ledger.purchases[step.row].quantity
    else 0
  }

  function TotalForgotten(s: System, steps: seq<Step>, t: TierId): nat
    decreases |steps|
  {
    if steps == [] then 0 else Forgotten(s, steps[0], t) + TotalForgotten(Apply(s, steps[0]), steps[1..], t)
  }

  lemma RemoveSoldDrift(s: System, row: nat, t: TierId)
    requires t in s.ledger.tiers
    ensures var l' := Apply(s, Remove(row)).ledger;
            t in l'.tiers && SoldDrift(l', t) == SoldDrift(s.ledger, t) + Forgotten(s, Remove(row), t)
  {
    if row < |s.ledger.purchases| && !Locked(s, row) { RemoveDrift(s.ledger, row, t); }
  }

  lemma StepSoldDrift(s: System, step: Step, t: TierId)
    requires Valid(s) && t in Apply(s, step).ledger.tiers
    ensures t in s.ledger.tiers
    ensures SoldDrift(Apply(s, step).ledger, t)
            == SoldDrift(s.ledger, t) + Oversold(s, step, t) + Forgotten(s, step, t)
  {
    match step
    case Reserve(t0, q, until, _) =>
      if ReserveRow(s.ledger, t0, q, until).Some? { ReserveDrift(s.ledger, t0, q, until, t); }
    case DropTier(t0) => DropDrift(s.ledger, t0, t);
    case CommitExpiry(w) =>
      if w < |s.workers| && Holding(s.workers[w]) {
        var i := s.workers[w].todo[0];
        assert Releasable(s.ledger, i, s.workers[w].now);
        if ExpireRow(s.ledger, i).Some? { ExpireDrift(s.ledger, i, t); }
      }
    case Settle(h, paid) =>
      SettlesExactly(s, h, paid);
      if SettleResult(s, h, paid).Some? { SettleSoldDrift(s, h, paid, t); }
    case Remove(row) => RemoveSoldDrift(s, row, t);
    case _ =>
  }

  lemma SettleSoldDrift(s: System, h: nat, paid: bool, t: TierId)
    requires SettleResult(s, h, paid).Some? && t in s.ledger.tiers
    ensures t in SettleResult(s, h, paid).value.tiers
    ensures SoldDrift(SettleResult(s, h, paid).value, t) == SoldDrift(s.ledger, t) + Oversold(s, Settle(h, paid), t)
  {
    var i := s.handlers[h].row;
    SettlesExactly(s, h, paid);
    if paid { TakeBackDrift(s.ledger, i, Successful, Sold, t); }
    else { TakeBackDrift(s.ledger, i, Failed, Cancelled, t); }
  }

  /** Over any run the sold counter runs ahead of the sold purchases by exactly the quantities that were
      settled again or whose purchase was deleted. */
  lemma {:induction false} SoldLaw(s: System, steps: seq<Step>, t: TierId)
    requires Valid(s) && t in Run(s, steps).ledger.tiers
    ensures t in s.ledger.tiers
    ensures SoldDrift(Run(s, steps).ledger, t)
            == SoldDrift(s.ledger, t) + TotalOversold(s, steps, t) + TotalForgotten(s, steps, t)
    decreases |steps|
  {
    if steps != [] {
      StepKeepsValid(s, steps[0]);
      SoldLaw(Apply(s, steps[0]), steps[1..], t);
      StepSoldDrift(s, steps[0], t);
    }
  }

  predicate SalesMatch(l: Ledger) {
    forall t | t in l.tiers :: l.tiers[t].sold == SoldTotal(l.purchases, t)
  }

  predicate AlwaysMatch(s: System, steps: seq<Step>)
    decreases |steps|
  {
    SalesMatch(s.ledger) && (steps != [] ==> AlwaysMatch(Apply(s, steps[0]), steps[1..]))
  }

  predicate EverResettles(s: System, steps: seq<Step>)
    decreases |steps|
  {
    steps != [] && (Resettles(s, steps[0]) || EverResettles(Apply(s, steps[0]), steps[1..]))
  }

  predicate EverForgets(s: System, steps: seq<Step>)
    decreases |steps|
  {
    steps != [] && (Forgets(s, steps[0]) || EverForgets(Apply(s, steps[0]), steps[1..]))
  }

  lemma StepMatchIff(s: System, step: Step)
    requires Valid(s) && SalesMatch(s.ledger)
    ensures SalesMatch(Apply(s, step).ledger) <==> !Resettles(s, step) && !Forgets(s, step)
  {
    var l' := Apply(s, step).ledger;
    forall t | t in l'.tiers
      ensures l'.tiers[t].sold == SoldTotal(l'.purchases, t) + Oversold(s, step, t) + Forgotten(s, step, t)
    {
      StepSoldDrift(s, step, t);
    }
    if Forgets(s, step) {
      var t := TierOf(s.ledger.purchases[step.row]).value;
      assert t in l'.tiers && Forgotten(s, step, t) > 0;
    } else if Resettles(s, step) {
      SettlesExactly(s, step.handler, step.paid);
      var t := TierOf(s.ledger.purchases[s.handlers[step.handler].row]).value;
      assert t in l'.tiers && Oversold(s, step, t) > 0;
    }
  }

  /** `quantity_sold` equals the paid purchases throughout a run exactly when no payment transaction
      commits on a row that is already paid and no paid purchase is deleted. */
  lemma {:induction false} SalesExactly(s: System, steps: seq<Step>)
    requires Valid(s) && SalesMatch(s.ledger)
    ensures AlwaysMatch(s, steps) <==> !EverResettles(s, steps) && !EverForgets(s, steps)
    decreases |steps|
  {
    if steps != [] {
      StepMatchIff(s, steps[0]);
      StepKeepsValid(s, steps[0]);
      if !Resettles(s, steps[0]) && !Forgets(s, steps[0]) { SalesExactly(Apply(s, steps[0]), steps[1..]); }
      else { assert !SalesMatch(Apply(s, steps[0]).ledger); }
    }
  }

  // ---- two confirmations of one purchase -------------------------------------------

  lemma ResettlesCons(s: System, step: Step, rest: seq<Step>)
    ensures EverResettles(s, [step] + rest) <==> Resettles(s, step) || EverResettles(Apply(s, step), rest)
  {
    assert ([step] + rest)[1..] == rest;
  }

  /** The buyer's request and the gateway's callback both read the purchase before either commits. */
  function TwoConfirmations(s: System, i: nat): seq<Step> {
    var h := |s.handlers|;
    [OpenVerify(i)] + ([OpenVerify(i)] + ([Settle(h, true)] + ([Settle(h + 1, true)] + [])))
  }

  lemma BothOpen(s: System, i: nat)
    requires i < |s.ledger.purchases| && s.ledger.purchases[i].status == Pending
    ensures Apply(Apply(s, OpenVerify(i)), OpenVerify(i))
            == s.(handlers := s.handlers + [Handler(i, true, true), Handler(i, true, true)])
  {
    var one := [Handler(i, true, true)];
    assert s.handlers + one + one == s.handlers + [Handler(i, true, true), Handler(i, true, true)];
  }

  /** In any state where others still hold as many seats of the tier, the second confirmation is
      accepted and sells the seats again. */
  lemma DoubleConfirmationResells(s: System, i: nat, now: Time, t: TierId)
    requires Valid(s) && Contended(s, i, now, t)
    ensures EverResettles(s, TwoConfirmations(s, i))
  {
    var h := |s.handlers|;
    var s2 := Apply(Apply(s, OpenVerify(i)), OpenVerify(i));
    BothOpen(s, i);
    assert TicketsFollow(s.ledger.purchases[i]);
    var s3 := Apply(s2, Settle(h, true));
    assert SettleResult(s2, h, true).Some?;
    assert s3.handlers[h + 1] == Handler(i, true, true);
    assert SettleResult(s3, h + 1, true).Some?;
    ResettlesCons(s3, Settle(h + 1, true), []);
    ResettlesCons(s2, Settle(h, true), [Settle(h + 1, true)] + []);
    ResettlesCons(Apply(s, OpenVerify(i)), OpenVerify(i), [Settle(h, true)] + ([Settle(h + 1, true)] + []));
    ResettlesCons(s, OpenVerify(i), [OpenVerify(i)] + ([Settle(h, true)] + ([Settle(h + 1, true)] + [])));
  }
}
