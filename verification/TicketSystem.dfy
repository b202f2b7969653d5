/**
  Interleavings of everything that touches a reservation: any number of sweep workers
  (tickets/tasks.py `release_expired_reservations`, including retries and redeliveries,
  which are further workers), buyers, and payment handlers.  One step is one lock
  acquisition, one read or one committed transaction.
*/
module TicketSystem {
  import opened TicketLedger
  import opened Options

  /** A sweep in progress; `held` means the row `todo[0]` is locked by this worker. */
  datatype Worker = Worker(now: Time, todo: seq<nat>, held: bool, released: nat, alive: bool)

  /** A payment callback that has read its purchase row, without a lock. */
  datatype Handler = Handler(row: nat, mayConfirm: bool, open: bool)

  datatype System = System(ledger: Ledger, workers: seq<Worker>, handlers: seq<Handler>)

  datatype Step =
    | Reserve(tier: TierId, quantity: nat, until: Time, gatewayUp: bool)
    | DropTier(tier: TierId)
    | StartSweep(now: Time, batchSize: nat, listing: seq<nat>)
    | Lock(worker: nat)
    | SkipRow(worker: nat)   // skip_locked: a payment transaction holds the row, and may yet roll back
    | CommitExpiry(worker: nat)
    | Crash(worker: nat)
    | OpenVerify(row: nat)   // verify_purchase past its `already_confirmed` test
    | OpenFailed(row: nat)   // _handle_charge_failed: no test at all
    | Settle(handler: nat, paid: bool)
    | Abandon(handler: nat)
    | Remove(row: nat)       // the buyer's account is deleted, with its purchases

  /** The filter of the listing and of the locked re-check. */
  predicate Releasable(l: Ledger, i: nat, now: Time) {
    i < |l.purchases| && Due(l.purchases[i], now)
  }

  /** `filter(..)[:batch_size]` in whatever order the database returns the rows. */
  predicate IsListing(l: Ledger, now: Time, batchSize: nat, listing: seq<nat>) {
    && |listing| <= batchSize
    && (forall k | 0 <= k < |listing| :: Releasable(l, listing[k], now))
    && (forall j, k | 0 <= j < k < |listing| :: listing[j] != listing[k])
    && (|listing| < batchSize ==> forall i: nat | i < |l.purchases| && Releasable(l, i, now) :: i in listing)
  }

  predicate Holding(w: Worker) {
    w.alive && w.held && w.todo != []
  }

  predicate Locked(s: System, row: nat) {
    exists w | 0 <= w < |s.workers| :: Holding(s.workers[w]) && s.workers[w].todo[0] == row
  }

  /** The transaction a settling handler commits; it waits while a sweep holds the row. */
  function SettleResult(s: System, h: nat, paid: bool): Option<Ledger> {
    if h >= |s.handlers| then None
    else
      var hd := s.handlers[h];
      if !hd.open || hd.row >= |s.ledger.purchases| || Locked(s, hd.row) || (paid && !hd.mayConfirm) then None
      else if paid then ConfirmRow(s.ledger, hd.row)
      else FailRow(s.ledger, hd.row)
  }

  /** When it commits: the handler may, no sweep holds the row, the row is still there with a ticket to
      confirm, and its tier, if it has one, has that much reserved. */
  predicate CanSettle(s: System, h: nat, paid: bool) {
    && h < |s.handlers| && s.handlers[h].open && s.handlers[h].row < |s.ledger.purchases|
    && !Locked(s, s.handlers[h].row)
    && var p := s.ledger.purchases[s.handlers[h].row];
       && p.status != Removed && (paid ==> s.handlers[h].mayConfirm && p.tickets != [])
       && (TierOf(p).Some? && TierOf(p).value in s.ledger.tiers ==>
             s.ledger.tiers[TierOf(p).value].reserved >= p.quantity)
  }

  lemma SettlesExactly(s: System, h: nat, paid: bool)
    ensures SettleResult(s, h, paid).Some? <==> CanSettle(s, h, paid)
  {}

  /** A payment handler is at work on the row, so its transaction may hold the row's lock. */
  predicate InPayment(s: System, row: nat) {
    exists h | 0 <= h < |s.handlers| :: s.handlers[h].open && s.handlers[h].row == row
  }

  function LockRow(s: System, w: nat): Worker
    requires w < |s.workers| && s.workers[w].todo != []
  {
    var me := s.workers[w];
    if !Locked(s, me.todo[0]) && Releasable(s.ledger, me.todo[0], me.now)
    then me.(held := true)
    else me.(todo := me.todo[1..])  // skip_locked, or paid or expired since it was listed
  }

  /** One step; a step that is not enabled leaves the system as it is. */
  function Apply(s: System, step: Step): System {
    match step
    case Reserve(t, q, until, gatewayUp) =>
      var r := ReserveRow(s.ledger, t, q, until);
      if r.Some? && gatewayUp then s.(ledger := r.value) else s
    case DropTier(t) => s.(ledger := DropTierRow(s.ledger, t))
    case StartSweep(now, batchSize, listing) =>
      if IsListing(s.ledger, now, batchSize, listing)
      then s.(workers := s.workers + [Worker(now, listing, false, 0, true)]) else s
    case Lock(w) =>
      if w < |s.workers| && s.workers[w].alive && !s.workers[w].held && s.workers[w].todo != []
      then s.(workers := s.workers[w := LockRow(s, w)]) else s
    case SkipRow(w) =>
      if w < |s.workers| && s.workers[w].alive && !s.workers[w].held && s.workers[w].todo != []
         && InPayment(s, s.workers[w].todo[0])
      then s.(workers := s.workers[w := s.workers[w].(todo := s.workers[w].todo[1..])]) else s
    case CommitExpiry(w) =>
      if w < |s.workers| && Holding(s.workers[w]) && s.workers[w].todo[0] < |s.ledger.purchases| then
        var me := s.workers[w];
        match ExpireRow(s.ledger, me.todo[0])
        case None => s.(workers := s.workers[w := me.(alive := false)])
        case Some(l) =>
          System(l, s.workers[w := me.(todo := me.todo[1..], held := false, released := me.released + 1)], s.handlers)
      else s
    case Crash(w) => if w < |s.workers| then s.(workers := s.workers[w := s.workers[w].(alive := false)]) else s
    case OpenVerify(row) =>
      if row < |s.ledger.purchases| && s.ledger.purchases[row].status !in {Successful, Removed}
      then s.(handlers := s.handlers + [Handler(row, true, true)]) else s
    case OpenFailed(row) =>
      if row < |s.ledger.purchases| && s.ledger.purchases[row].status != Removed
      then s.(handlers := s.handlers + [Handler(row, false, true)]) else s
    case Settle(h, paid) =>
      var r := SettleResult(s, h, paid);
      if r.Some? then System(r.value, s.workers, s.handlers[h := s.handlers[h].(open := false)]) else s
    case Abandon(h) => if h < |s.handlers| then s.(handlers := s.handlers[h := s.handlers[h].(open := false)]) else s
    case Remove(row) =>
      if row < |s.ledger.purchases| && !Locked(s, row) then s.(ledger := RemoveRow(s.ledger, row)) else s
  }

  function Run(s: System, steps: seq<Step>): System
    decreases |steps|
  {
    if steps == [] then s else Run(Apply(s, steps[0]), steps[1..])
  }

  // ---- invariant of every run ------------------------------------------------

  predicate HeldRowsPending(s: System) {
    forall w | 0 <= w < |s.workers| && Holding(s.workers[w]) ::
      Releasable(s.ledger, s.workers[w].todo[0], s.workers[w].now)
  }

  /** `select_for_update` gives a row to one worker at a time. */
  predicate ExclusiveLocks(s: System) {
    forall v, w | 0 <= v < w < |s.workers| && Holding(s.workers[v]) && Holding(s.workers[w]) ::
      s.workers[v].todo[0] != s.workers[w].todo[0]
  }

  predicate AllTicketsFollow(l: Ledger) {
    forall i | 0 <= i < |l.purchases| :: TicketsFollow(l.purchases[i])
  }

  predicate Valid(s: System) {
    HeldRowsPending(s) && ExclusiveLocks(s) && WithinCapacity(s.ledger) && AllTicketsFollow(s.ledger)
  }

  lemma ExpireKeeps(l: Ledger, i: nat)
    requires i < |l.purchases| && ExpireRow(l, i).Some?
    requires WithinCapacity(l) && AllTicketsFollow(l) && l.purchases[i].status == Pending
    ensures WithinCapacity(ExpireRow(l, i).value) && AllTicketsFollow(ExpireRow(l, i).value)
  {}

  lemma SettleKeeps(l: Ledger, i: nat)
    requires i < |l.purchases| && WithinCapacity(l) && AllTicketsFollow(l)
    ensures FailRow(l, i).Some? ==> WithinCapacity(FailRow(l, i).value) && AllTicketsFollow(FailRow(l, i).value)
    ensures ConfirmRow(l, i).Some? ==>
              WithinCapacity(ConfirmRow(l, i).value) && AllTicketsFollow(ConfirmRow(l, i).value)
  {}

  lemma DropKeeps(l: Ledger, t: TierId)
    requires WithinCapacity(l) && AllTicketsFollow(l)
    ensures WithinCapacity(DropTierRow(l, t)) && AllTicketsFollow(DropTierRow(l, t))
  {
    forall i | 0 <= i < |l.purchases| ensures TicketsFollow(DropTierRow(l, t).purchases[i]) {
      assert TicketsFollow(l.purchases[i]);
    }
  }

  lemma LockKeeps(s: System, w: nat)
    requires Valid(s) && w < |s.workers| && s.workers[w].alive && !s.workers[w].held && s.workers[w].todo != []
    ensures Valid(s.(workers := s.workers[w := LockRow(s, w)]))
  {}

  lemma SkipKeeps(s: System, w: nat)
    requires Valid(s)
    ensures Valid(Apply(s, SkipRow(w)))
  {}

  lemma CommitKeeps(s: System, w: nat)
    requires Valid(s) && w < |s.workers| && Holding(s.workers[w])
    ensures Valid(Apply(s, CommitExpiry(w)))
  {
    var i := s.workers[w].todo[0];
    assert Releasable(s.ledger, i, s.workers[w].now);
    if ExpireRow(s.ledger, i).Some? { ExpireKeeps(s.ledger, i); }
  }

  lemma SettleStepKeeps(s: System, h: nat, paid: bool)
    requires Valid(s)
    ensures Valid(Apply(s, Settle(h, paid)))
  {
    if SettleResult(s, h, paid).Some? { SettleKeeps(s.ledger, s.handlers[h].row); }
  }

  lemma StepKeepsValid(s: System, step: Step)
    requires Valid(s)
    ensures Valid(Apply(s, step))
  {
    match step
    case DropTier(t) => DropKeeps(s.ledger, t);
    case Lock(w) =>
      if w < |s.workers| && s.workers[w].alive && !s.workers[w].held && s.workers[w].todo != [] { LockKeeps(s, w); }
    case SkipRow(w) => SkipKeeps(s, w);
    case CommitExpiry(w) =>
      if w < |s.workers| && Holding(s.workers[w]) { CommitKeeps(s, w); }
    case Settle(h, paid) => SettleStepKeeps(s, h, paid);
    case Remove(row) => RemoveStepKeeps(s, row);
    case _ =>
  }

  lemma RemoveStepKeeps(s: System, row: nat)
    requires Valid(s)
    ensures Valid(Apply(s, Remove(row)))
  {
    if row < |s.ledger.purchases| && !Locked(s, row) {
      forall w | 0 <= w < |s.workers| && Holding(s.workers[w]) ensures s.workers[w].todo[0] != row {}
    }
  }

  /** Every interleaving: capacity is kept, locks exclude, and tickets follow their purchase. */
  lemma {:induction false} RunKeepsValid(s: System, steps: seq<Step>)
    requires Valid(s)
    ensures Valid(Run(s, steps)) && |s.ledger.purchases| <= |Run(s, steps).ledger.purchases|
    decreases |steps|
  {
    if steps != [] {
      StepKeepsValid(s, steps[0]);
      RunKeepsValid(Apply(s, steps[0]), steps[1..]);
    }
  }

  // ---- conservation ----------------------------------------------------------

  /** A settle that commits on a row no longer pending, and still takes tickets from a tier. */
  predicate StaleSettle(s: System, step: Step) {
    && step.Settle? && CanSettle(s, step.handler, step.paid)
    && var p := s.ledger.purchases[s.handlers[step.handler].row];
       p.status != Pending && p.quantity > 0 && TierOf(p).Some? && TierOf(p).value in s.ledger.tiers
  }

  /** What a step takes from tier `t` for a reservation that was already given back or sold. */
  function StaleTake(s: System, step: Step, t: TierId): nat {
    if StaleSettle(s, step) then
      var p := s.ledger.purchases[s.handlers[step.handler].row];
      if TierOf(p) == Some(t) then p.quantity else 0
    else 0
  }

  function TotalStale(s: System, steps: seq<Step>, t: TierId): nat
    decreases |steps|
  {
    if steps == [] then 0 else StaleTake(s, steps[0], t) + TotalStale(Apply(s, steps[0]), steps[1..], t)
  }

  /** The deletion of a purchase that waits for payment, in a tier that stays. */
  predicate Strands(s: System, step: Step) {
    && step.Remove? && step.row < |s.ledger.purchases| && !Locked(s, step.row)
    && var p := s.ledger.purchases[step.row];
       p.status == Pending && p.quantity > 0 && TierOf(p).Some? && TierOf(p).value in s.ledger.tiers
  }

  /** What a step leaves reserved in tier `t` with nobody to give it back. */
  function Stranded(s: System, step: Step, t: TierId): nat {
    if Strands(s, step) && TierOf(s.ledger.purchases[step.row]) == Some(t) then s.ledger.purchases[step.row].quantity
    else 0
  }

  function TotalStranded(s: System, steps: seq<Step>, t: TierId): nat
    decreases |steps|
  {
    if steps == [] then 0 else Stranded(s, steps[0], t) + TotalStranded(Apply(s, steps[0]), steps[1..], t)
  }

  predicate Conserved(l: Ledger) {
    forall t | t in l.tiers :: l.tiers[t].reserved == PendingTotal(l.purchases, t)
  }

  lemma SettleDrift(s: System, h: nat, paid: bool, t: TierId)
    requires SettleResult(s, h, paid).Some? && t in s.ledger.tiers
    ensures t in SettleResult(s, h, paid).value.tiers
    ensures Drift(SettleResult(s, h, paid).value, t) == Drift(s.ledger, t) - StaleTake(s, Settle(h, paid), t)
  {
    var i := s.handlers[h].row;
    SettlesExactly(s, h, paid);
    if paid { TakeBackDrift(s.ledger, i, Successful, Sold, t); }
    else { TakeBackDrift(s.ledger, i, Failed, Cancelled, t); }
  }

  lemma RemoveStepDrift(s: System, row: nat, t: TierId)
    requires t in s.ledger.tiers
    ensures var l' := Apply(s, Remove(row)).ledger;
            t in l'.tiers && Drift(l', t) == Drift(s.ledger, t) + Stranded(s, Remove(row), t)
  {
    if row < |s.ledger.purchases| && !Locked(s, row) { RemoveDrift(s.ledger, row, t); }
  }

  /** One step moves `reserved - pending` of a surviving tier by what it takes twice or strands, and by
      nothing else. */
  lemma StepDrift(s: System, step: Step, t: TierId)
    requires Valid(s) && t in Apply(s, step).ledger.tiers
    ensures t in s.ledger.tiers
    ensures Drift(Apply(s, step).ledger, t) == Drift(s.ledger, t) - StaleTake(s, step, t) + Stranded(s, step, t)
  {
    match step
    case Reserve(t0, q, until, _) =>
      if ReserveRow(s.ledger, t0, q, until).Some? { ReserveDrift(s.ledger, t0, q, until, t); }
    case DropTier(t0) => DropDrift(s.ledger, t0, t);
    case CommitExpiry(w) =>
      if w < |s.workers| && Holding(s.workers[w]) {
        var i := s.workers[w].todo[0];
        assert Releasable(s.ledger, i, s.workers[w].now);
        if ExpireRow(s.ledger, i).Some? { ExpireDrift(s.ledger, i, t); }
      }
    case Settle(h, paid) =>
      SettlesExactly(s, h, paid);
      if SettleResult(s, h, paid).Some? { SettleDrift(s, h, paid, t); }
    case Remove(row) => RemoveStepDrift(s, row, t);
    case _ =>
  }

  /** The ledger law of every run, whatever payment handlers and account deletions do. */
  lemma {:induction false} DriftLaw(s: System, steps: seq<Step>, t: TierId)
    requires Valid(s) && t in Run(s, steps).ledger.tiers
    ensures t in s.ledger.tiers
    ensures Drift(Run(s, steps).ledger, t)
            == Drift(s.ledger, t) - TotalStale(s, steps, t) + TotalStranded(s, steps, t)
    decreases |steps|
  {
    if steps != [] {
      StepKeepsValid(s, steps[0]);
      DriftLaw(Apply(s, steps[0]), steps[1..], t);
      StepDrift(s, steps[0], t);
    }
  }

  lemma StepConservedIff(s: System, step: Step)
    requires Valid(s) && Conserved(s.ledger)
    ensures Conserved(Apply(s, step).ledger) <==> !StaleSettle(s, step) && !Strands(s, step)
  {
    var l' := Apply(s, step).ledger;
    forall t | t in l'.tiers
      ensures l'.tiers[t].reserved == PendingTotal(l'.purchases, t) - StaleTake(s, step, t) + Stranded(s, step, t)
    {
      StepDrift(s, step, t);
    }
    if StaleSettle(s, step) {
      SettlesExactly(s, step.handler, step.paid);
      var t := TierOf(s.ledger.purchases[s.handlers[step.handler].row]).value;
      assert t in l'.tiers && StaleTake(s, step, t) > 0;
    } else if Strands(s, step) {
      var t := TierOf(s.ledger.purchases[step.row]).value;
      assert t in l'.tiers && Stranded(s, step, t) > 0;
    }
  }

  predicate EverStale(s: System, steps: seq<Step>)
    decreases |steps|
  {
    steps != [] && (StaleSettle(s, steps[0]) || EverStale(Apply(s, steps[0]), steps[1..]))
  }

  predicate EverStrands(s: System, steps: seq<Step>)
    decreases |steps|
  {
    steps != [] && (Strands(s, steps[0]) || EverStrands(Apply(s, steps[0]), steps[1..]))
  }

  predicate AlwaysConserved(s: System, steps: seq<Step>)
    decreases |steps|
  {
    Conserved(s.ledger) && (steps != [] ==> AlwaysConserved(Apply(s, steps[0]), steps[1..]))
  }

  /** `quantity_reserved` equals the pending reservations throughout a run exactly when no payment
      transaction commits on a row that is no longer pending and no pending purchase is deleted. */
  lemma {:induction false} ConservationExactly(s: System, steps: seq<Step>)
    requires Valid(s) && Conserved(s.ledger)
    ensures AlwaysConserved(s, steps) <==> !EverStale(s, steps) && !EverStrands(s, steps)
    decreases |steps|
  {
    if steps != [] {
      StepConservedIff(s, steps[0]);
      StepKeepsValid(s, steps[0]);
      if !StaleSettle(s, steps[0]) && !Strands(s, steps[0]) { ConservationExactly(Apply(s, steps[0]), steps[1..]); }
      else { assert !Conserved(Apply(s, steps[0]).ledger); }
    }
  }

  /** In a conserved state no expiry can hit the non-negativity check, so no sweep dies of it. */
  lemma ExpiryNeverUnderflows(s: System, w: nat)
    requires Valid(s) && Conserved(s.ledger) && w < |s.workers| && Holding(s.workers[w])
    ensures s.workers[w].todo[0] < |s.ledger.purchases| && ExpireRow(s.ledger, s.workers[w].todo[0]).Some?
  {
    var i := s.workers[w].todo[0];
    assert Releasable(s.ledger, i, s.workers[w].now);
    var p := s.ledger.purchases[i];
    if TierOf(p).Some? && TierOf(p).value in s.ledger.tiers {
      TotalAtLeast(s.ledger.purchases, i, TierOf(p).value, Pending);
    }
  }

  // ---- each reservation is settled once --------------------------------------

  /** A settle that commits on row i after it has been settled. */
  predicate Overwrites(s: System, step: Step, i: nat) {
    && step.Settle? && CanSettle(s, step.handler, step.paid)
    && s.handlers[step.handler].row == i && s.ledger.purchases[i].status != Pending
  }

  predicate EverOverwrites(s: System, steps: seq<Step>, i: nat)
    decreases |steps|
  {
    steps != [] && (Overwrites(s, steps[0], i) || EverOverwrites(Apply(s, steps[0]), steps[1..], i))
  }

  predicate Deletes(s: System, step: Step, i: nat) { step == Remove(i) && i < |s.ledger.purchases| && !Locked(s, i) }

  predicate EverDeletes(s: System, steps: seq<Step>, i: nat)
    decreases |steps|
  {
    steps != [] && (Deletes(s, steps[0], i) || EverDeletes(Apply(s, steps[0]), steps[1..], i))
  }

  lemma StepSettlesOnce(s: System, step: Step, i: nat)
    requires Valid(s) && i < |s.ledger.purchases| && s.ledger.purchases[i].status != Pending && !Overwrites(s, step, i)
    ensures i < |Apply(s, step).ledger.purchases|
    ensures Apply(s, step).ledger.purchases[i].status
            == if Deletes(s, step, i) then Removed else s.ledger.purchases[i].status
  {
    if step.Settle? { SettlesExactly(s, step.handler, step.paid); }
    if step.CommitExpiry? && step.worker < |s.workers| && Holding(s.workers[step.worker]) {
      assert Releasable(s.ledger, s.workers[step.worker].todo[0], s.workers[step.worker].now);
    }
  }

  /** Sweeps alone, however many race, never settle a row twice: only a payment overwrite of that row can
      change its status, as long as the row exists. */
  lemma {:induction false} SettledOnce(s: System, steps: seq<Step>, i: nat)
    requires Valid(s) && i < |s.ledger.purchases| && s.ledger.purchases[i].status != Pending
    requires !EverOverwrites(s, steps, i)
    ensures i < |Run(s, steps).ledger.purchases|
    ensures Run(s, steps).ledger.purchases[i].status
            == if EverDeletes(s, steps, i) then Removed else s.ledger.purchases[i].status
    decreases |steps|
  {
    if steps != [] {
      StepSettlesOnce(s, steps[0], i);
      StepKeepsValid(s, steps[0]);
      SettledOnce(Apply(s, steps[0]), steps[1..], i);
    }
  }

  // ---- only what has run out expires ------------------------------------------

  /** A sweep commits the expiry of row i, pending with a deadline that is not after the sweep's own time. */
  predicate ExpiresOnTime(s: System, step: Step, i: nat) {
    && step.CommitExpiry? && step.worker < |s.workers| && i < |s.ledger.purchases|
    && s.ledger.purchases[i].status == Pending && s.ledger.purchases[i].reservedUntil.Some?
    && s.ledger.purchases[i].reservedUntil.value <= s.workers[step.worker].now
  }

  lemma ExpiryMeetsDeadline(s: System, step: Step, i: nat)
    requires Valid(s) && i < |s.ledger.purchases|
    ensures i < |Apply(s, step).ledger.purchases|
    ensures Apply(s, step).ledger.purchases[i].status == Expired && s.ledger.purchases[i].status != Expired ==>
              ExpiresOnTime(s, step, i)
  {
    match step
    case CommitExpiry(w) =>
      if w < |s.workers| && Holding(s.workers[w]) {
        assert Releasable(s.ledger, s.workers[w].todo[0], s.workers[w].now);
      }
    case _ =>
  }

  predicate EverExpiresOnTime(s: System, steps: seq<Step>, i: nat)
    decreases |steps|
  {
    steps != [] && (ExpiresOnTime(s, steps[0], i) || EverExpiresOnTime(Apply(s, steps[0]), steps[1..], i))
  }

  /** In every run a purchase ends expired only if some sweep found it pending after its deadline. */
  lemma {:induction false} ExpiredOnlyOnTime(s: System, steps: seq<Step>, i: nat)
    requires Valid(s) && i < |s.ledger.purchases| && s.ledger.purchases[i].status != Expired
    ensures i < |Run(s, steps).ledger.purchases|
    ensures Run(s, steps).ledger.purchases[i].status == Expired ==> EverExpiresOnTime(s, steps, i)
    decreases |steps|
  {
    if steps != [] {
      var s' := Apply(s, steps[0]);
      ExpiryMeetsDeadline(s, steps[0], i);
      StepKeepsValid(s, steps[0]);
      if s'.ledger.purchases[i].status != Expired { ExpiredOnlyOnTime(s', steps[1..], i); }
      else { RunKeepsValid(s', steps[1..]); }
    }
  }

  // ---- orders and confirmations -------------------------------------------------

  /** An order is taken exactly when the gateway answers and the tier is on sale with that many seats free, and
      then it is a pending purchase of that many reserved tickets. */
  lemma OrderTakenExactly(s: System, t: TierId, q: nat, until: Time, gatewayUp: bool)
    ensures var s', n := Apply(s, Reserve(t, q, until, gatewayUp)), |s.ledger.purchases|;
            if gatewayUp && t in s.ledger.tiers && s.ledger.tiers[t].active
               && s.ledger.tiers[t].sold + s.ledger.tiers[t].reserved + q <= s.ledger.tiers[t].quantity
            then
              && |s'.ledger.purchases| == n + 1 && s'.ledger.purchases[..n] == s.ledger.purchases
              && s'.ledger.purchases[n].status == Pending && s'.ledger.purchases[n].quantity == q
              && s'.ledger.purchases[n].reservedUntil == Some(until) && |s'.ledger.purchases[n].tickets| == q
              && (forall k | 0 <= k < q :: s'.ledger.purchases[n].tickets[k] == Ticket(Some(t), Reserved))
              && s'.ledger.tiers == s.ledger.tiers[t := s.ledger.tiers[t].(reserved := s.ledger.tiers[t].reserved + q)]
            else s' == s
  {}

  /** No callback is at work on row i. */
  predicate Undisturbed(s: System, i: nat) {
    forall h | 0 <= h < |s.handlers| :: s.handlers[h].open ==> s.handlers[h].row != i
  }

  predicate Touches(step: Step, i: nat) { step == OpenFailed(i) || step == Remove(i) }

  lemma ConfirmedStep(s: System, step: Step, i: nat)
    requires Valid(s) && i < |s.ledger.purchases| && s.ledger.purchases[i].status == Successful
    requires Undisturbed(s, i) && !Touches(step, i)
    ensures var s' := Apply(s, step);
            Undisturbed(s', i) && i < |s'.ledger.purchases| && s'.ledger.purchases[i].status == Successful
  {
    match step
    case Settle(h, paid) => SettlesExactly(s, h, paid);
    case CommitExpiry(w) =>
      if w < |s.workers| && Holding(s.workers[w]) {
        assert Releasable(s.ledger, s.workers[w].todo[0], s.workers[w].now);
      }
    case _ =>
  }

  /** A confirmed purchase that no callback is at work on stays confirmed, whatever sweeps, buyers and further
      confirmations do, until a payment is reported as failed or the buyer is deleted. */
  lemma {:induction false} ConfirmedStays(s: System, steps: seq<Step>, i: nat)
    requires Valid(s) && i < |s.ledger.purchases| && s.ledger.purchases[i].status == Successful && Undisturbed(s, i)
    requires forall k | 0 <= k < |steps| :: !Touches(steps[k], i)
    ensures i < |Run(s, steps).ledger.purchases| && Run(s, steps).ledger.purchases[i].status == Successful
    decreases |steps|
  {
    if steps != [] {
      assert !Touches(steps[0], i);
      assert forall k | 0 <= k < |steps[1..]| :: steps[1..][k] == steps[k + 1];
      ConfirmedStep(s, steps[0], i);
      StepKeepsValid(s, steps[0]);
      ConfirmedStays(Apply(s, steps[0]), steps[1..], i);
    }
  }

  // ---- accounting of released_count ------------------------------------------

  function ReleasedTotal(ws: seq<Worker>): nat {
    if ws == [] then 0 else ReleasedTotal(ws[..|ws| - 1]) + ws[|ws| - 1].released
  }

  function ExpiredCount(ps: seq<Purchase>): nat {
    if ps == [] then 0 else ExpiredCount(ps[..|ps| - 1]) + if ps[|ps| - 1].status == Expired then 1 else 0
  }

  /** Settles that overwrite a row a sweep had expired, and deletions of one. */
  function Revived(s: System, step: Step): nat {
    match step
    case Settle(h, _) =>
      if h < |s.handlers| && Overwrites(s, step, s.handlers[h].row)
         && s.ledger.purchases[s.handlers[h].row].status == Expired then 1 else 0
    case Remove(row) => if Deletes(s, step, row) && s.ledger.purchases[row].status == Expired then 1 else 0
    case _ => 0
  }

  function TotalRevived(s: System, steps: seq<Step>): nat
    decreases |steps|
  {
    if steps == [] then 0 else Revived(s, steps[0]) + TotalRevived(Apply(s, steps[0]), steps[1..])
  }

  lemma {:induction false} ReleasedTotalUpdate(ws: seq<Worker>, i: nat, w: Worker)
    requires i < |ws|
    ensures ReleasedTotal(ws[i := w]) == ReleasedTotal(ws) - ws[i].released + w.released
  {
    var n := |ws| - 1;
    if i < n {
      ReleasedTotalUpdate(ws[..n], i, w);
      assert ws[i := w][..n] == ws[..n][i := w];
    } else {
      assert ws[i := w][..n] == ws[..n];
    }
  }

  lemma {:induction false} ExpiredCountUpdate(ps: seq<Purchase>, i: nat, p: Purchase)
    requires i < |ps|
    ensures ExpiredCount(ps[i := p])
            == ExpiredCount(ps) - (if ps[i].status == Expired then 1 else 0) + (if p.status == Expired then 1 else 0)
  {
    var n := |ps| - 1;
    if i < n {
      ExpiredCountUpdate(ps[..n], i, p);
      assert ps[i := p][..n] == ps[..n][i := p];
    } else {
      assert ps[i := p][..n] == ps[..n];
    }
  }

  lemma {:induction false} ExpiredCountSame(ps: seq<Purchase>, qs: seq<Purchase>)
    requires |ps| == |qs| && forall i | 0 <= i < |ps| :: ps[i].status == qs[i].status
    ensures ExpiredCount(ps) == ExpiredCount(qs)
  {
    if ps != [] { ExpiredCountSame(ps[..|ps| - 1], qs[..|qs| - 1]); }
  }

  function Balance(s: System): int { ReleasedTotal(s.workers) - ExpiredCount(s.ledger.purchases) }

  lemma CommitAccounting(s: System, w: nat)
    requires Valid(s) && w < |s.workers| && Holding(s.workers[w])
    ensures Balance(Apply(s, CommitExpiry(w))) == Balance(s)
  {
    var i := s.workers[w].todo[0];
    assert Releasable(s.ledger, i, s.workers[w].now);
    var s' := Apply(s, CommitExpiry(w));
    ReleasedTotalUpdate(s.workers, w, s'.workers[w]);
    if ExpireRow(s.ledger, i).Some? { ExpiredCountUpdate(s.ledger.purchases, i, s'.ledger.purchases[i]); }
  }

  lemma SettleAccounting(s: System, h: nat, paid: bool)
    requires SettleResult(s, h, paid).Some?
    ensures Balance(Apply(s, Settle(h, paid))) == Balance(s) + Revived(s, Settle(h, paid))
  {
    var i := s.handlers[h].row;
    SettlesExactly(s, h, paid);
    ExpiredCountUpdate(s.ledger.purchases, i, SettleResult(s, h, paid).value.purchases[i]);
  }

  lemma RemoveAccounting(s: System, row: nat)
    ensures Balance(Apply(s, Remove(row))) == Balance(s) + Revived(s, Remove(row))
  {
    if Deletes(s, Remove(row), row) {
      ExpiredCountUpdate(s.ledger.purchases, row, RemoveRow(s.ledger, row).purchases[row]);
    }
  }

  lemma DropAccounting(s: System, t: TierId)
    ensures Balance(Apply(s, DropTier(t))) == Balance(s)
  {
    ExpiredCountSame(s.ledger.purchases, DropTierRow(s.ledger, t).purchases);
  }

  lemma StartAccounting(s: System, now: Time, batchSize: nat, listing: seq<nat>)
    ensures Balance(Apply(s, StartSweep(now, batchSize, listing))) == Balance(s)
  {
    ReleasedTotalSnoc(s.workers, Worker(now, listing, false, 0, true));
  }

  lemma ReserveAccounting(s: System, t: TierId, q: nat, until: Time, gatewayUp: bool)
    ensures Balance(Apply(s, Reserve(t, q, until, gatewayUp))) == Balance(s)
  {
    ExpiredCountSnoc(s.ledger.purchases, Order(t, q, until));
  }

  lemma ReleasedTotalSnoc(ws: seq<Worker>, w: Worker)
    ensures ReleasedTotal(ws + [w]) == ReleasedTotal(ws) + w.released
  {
    assert (ws + [w])[..|ws|] == ws;
  }

  lemma ExpiredCountSnoc(ps: seq<Purchase>, p: Purchase)
    ensures ExpiredCount(ps + [p]) == ExpiredCount(ps) + if p.status == Expired then 1 else 0
  {
    assert (ps + [p])[..|ps|] == ps;
  }

  lemma StepAccounting(s: System, step: Step)
    requires Valid(s)
    ensures Balance(Apply(s, step)) == Balance(s) + Revived(s, step)
  {
    match step
    case Lock(w) =>
      if w < |s.workers| { ReleasedTotalUpdate(s.workers, w, Apply(s, step).workers[w]); }
    case SkipRow(w) =>
      if w < |s.workers| { ReleasedTotalUpdate(s.workers, w, Apply(s, step).workers[w]); }
    case Crash(w) =>
      if w < |s.workers| { ReleasedTotalUpdate(s.workers, w, Apply(s, step).workers[w]); }
    case CommitExpiry(w) =>
      if w < |s.workers| && Holding(s.workers[w]) { CommitAccounting(s, w); }
    case Settle(h, paid) =>
      SettlesExactly(s, h, paid);
      if SettleResult(s, h, paid).Some? { SettleAccounting(s, h, paid); }
    case Remove(row) => RemoveAccounting(s, row);
    case Reserve(t, q, until, gatewayUp) => ReserveAccounting(s, t, q, until, gatewayUp);
    case DropTier(t) => DropAccounting(s, t);
    case StartSweep(now, batchSize, listing) => StartAccounting(s, now, batchSize, listing);
    case _ =>
  }

  /** Over any run the workers' `released_count`s add up to the rows newly expired,
      plus the expired rows a payment handler overwrote or an account deletion took. */
  lemma {:induction false} ReleasedAccounting(s: System, steps: seq<Step>)
    requires Valid(s)
    ensures Balance(Run(s, steps)) == Balance(s) + TotalRevived(s, steps)
    decreases |steps|
  {
    if steps != [] {
      StepAccounting(s, steps[0]);
      StepKeepsValid(s, steps[0]);
      ReleasedAccounting(Apply(s, steps[0]), steps[1..]);
    }
  }

  // ---- what an overwrite costs -----------------------------------------------

  /** With conservation, sold plus waiting tickets fit in the tier. */
  lemma NoOversell(s: System, steps: seq<Step>, t: TierId)
    requires Valid(s) && Conserved(s.ledger) && !EverStale(s, steps)
    requires t in Run(s, steps).ledger.tiers
    ensures var l := Run(s, steps).ledger;
            l.tiers[t].sold + PendingTotal(l.purchases, t) <= l.tiers[t].quantity
  {
    RunKeepsValid(s, steps);
    StaleFreeTotals(s, steps, t);
    DriftLaw(s, steps, t);
    assert t in s.ledger.tiers;
  }

  lemma {:induction false} StaleFreeTotals(s: System, steps: seq<Step>, t: TierId)
    requires !EverStale(s, steps)
    ensures TotalStale(s, steps, t) == 0
    decreases |steps|
  {
    if steps != [] { StaleFreeTotals(Apply(s, steps[0]), steps[1..], t); }
  }

  lemma RunCons(s: System, step: Step, rest: seq<Step>, t: TierId)
    ensures Run(s, [step] + rest) == Run(Apply(s, step), rest)
    ensures EverStale(s, [step] + rest) <==> StaleSettle(s, step) || EverStale(Apply(s, step), rest)
    ensures TotalStale(s, [step] + rest, t) == StaleTake(s, step, t) + TotalStale(Apply(s, step), rest, t)
    ensures EverStrands(s, [step] + rest) <==> Strands(s, step) || EverStrands(Apply(s, step), rest)
    ensures TotalStranded(s, [step] + rest, t) == Stranded(s, step, t) + TotalStranded(Apply(s, step), rest, t)
  {
    assert ([step] + rest)[0] == step && ([step] + rest)[1..] == rest;
  }

  /** A reservation that has run out, in a tier where somebody else still waits for at least as much. */
  predicate Contended(s: System, i: nat, now: Time, t: TierId) {
    && Releasable(s.ledger, i, now) && !Locked(s, i)
    && var p := s.ledger.purchases[i];
       && p.quantity > 0 && TierOf(p) == Some(t) && t in s.ledger.tiers
       && s.ledger.tiers[t].reserved >= 2 * p.quantity
  }

  function SweepOne(s: System, i: nat, now: Time): System {
    Apply(Apply(Apply(s, StartSweep(now, 1, [i])), Lock(|s.workers|)), CommitExpiry(|s.workers|))
  }

  lemma SweepOneExpires(s: System, i: nat, now: Time, t: TierId)
    requires Valid(s) && Contended(s, i, now, t)
    ensures var s' := SweepOne(s, i, now);
            && Valid(s') && i < |s'.ledger.purchases| && s'.ledger.purchases[i].status == Expired
            && s'.ledger.purchases[i].quantity == s.ledger.purchases[i].quantity
            && TierOf(s'.ledger.purchases[i]) == Some(t) && t in s'.ledger.tiers
            && s'.ledger.tiers[t].reserved >= s.ledger.purchases[i].quantity
            && !Locked(s', i)
  {
    var w := |s.workers|;
    var s1 := Apply(s, StartSweep(now, 1, [i]));
    assert s1.workers[w] == Worker(now, [i], false, 0, true);
    assert forall v | 0 <= v < w :: s1.workers[v] == s.workers[v];
    StepKeepsValid(s, StartSweep(now, 1, [i]));
    var s2 := Apply(s1, Lock(w));
    StepKeepsValid(s1, Lock(w));
    StepKeepsValid(s2, CommitExpiry(w));
  }

  /** A callback for a failed payment, from its read to its commit. */
  function FailedPayment(s: System, i: nat): seq<Step> {
    [OpenFailed(i)] + ([Settle(|s.handlers|, false)] + [])
  }

  lemma LateSettleIsStale(s: System, i: nat, t: TierId)
    requires i < |s.ledger.purchases| && !Locked(s, i)
    requires var p := s.ledger.purchases[i];
             p.status !in {Pending, Removed} && p.quantity > 0 && TierOf(p) == Some(t) && t in s.ledger.tiers
             && s.ledger.tiers[t].reserved >= p.quantity
    ensures var steps := FailedPayment(s, i);
            && EverStale(s, steps) && TotalStale(s, steps, t) > 0 && TotalStranded(s, steps, t) == 0
            && t in Run(s, steps).ledger.tiers
  {
    var h := |s.handlers|;
    var s1 := Apply(s, OpenFailed(i));
    assert s1.handlers[h] == Handler(i, false, true);
    assert SettleResult(s1, h, false).Some?;
    RunCons(s, OpenFailed(i), [Settle(h, false)] + [], t);
    RunCons(s1, Settle(h, false), [], t);
  }

  /** One worker's sweep of row i, and what follows it. */
  function SweepThen(s: System, i: nat, now: Time, rest: seq<Step>): seq<Step> {
    [StartSweep(now, 1, [i])] + ([Lock(|s.workers|)] + ([CommitExpiry(|s.workers|)] + rest))
  }

  lemma AfterSweepOne(s: System, i: nat, now: Time, rest: seq<Step>, t: TierId)
    ensures var s', steps := SweepOne(s, i, now), SweepThen(s, i, now, rest);
            && Run(s, steps) == Run(s', rest) && TotalStale(s', rest, t) <= TotalStale(s, steps, t)
            && TotalStranded(s', rest, t) == TotalStranded(s, steps, t)
            && (EverStale(s', rest) ==> EverStale(s, steps))
  {
    var w := |s.workers|;
    var s1 := Apply(s, StartSweep(now, 1, [i]));
    var s2 := Apply(s1, Lock(w));
    RunCons(s, StartSweep(now, 1, [i]), [Lock(w)] + ([CommitExpiry(w)] + rest), t);
    RunCons(s1, Lock(w), [CommitExpiry(w)] + rest, t);
    RunCons(s2, CommitExpiry(w), rest, t);
  }

  /** A `payment failed` callback that arrives after the sweep gives the same reservation back
      a second time: conservation really is lost from every contended state. */
  lemma LateFailureBreaksConservation(s: System, i: nat, now: Time, t: TierId)
    requires Valid(s) && Conserved(s.ledger) && Contended(s, i, now, t)
    ensures var steps := SweepThen(s, i, now, FailedPayment(SweepOne(s, i, now), i));
            EverStale(s, steps) && !Conserved(Run(s, steps).ledger)
  {
    var s' := SweepOne(s, i, now);
    SweepOneExpires(s, i, now, t);
    LateSettleIsStale(s', i, t);
    AfterSweepOne(s, i, now, FailedPayment(s', i), t);
    StaleIsLost(s, SweepThen(s, i, now, FailedPayment(s', i)), t);
  }

  lemma StaleIsLost(s: System, steps: seq<Step>, t: TierId)
    requires Valid(s) && Conserved(s.ledger) && t in Run(s, steps).ledger.tiers
    requires TotalStale(s, steps, t) > TotalStranded(s, steps, t)
    ensures !Conserved(Run(s, steps).ledger)
  {
    DriftLaw(s, steps, t);
    assert t in s.ledger.tiers;
  }

  /** A tier on sale and nothing else. */
  function Opening(t: TierId, seats: nat): System {
    System(Ledger(map[t := Tier(seats, 0, 0, true)], []), [], [])
  }

  function TwoOrders(t: TierId, q: nat, until: Time): seq<Step> {
    [Reserve(t, q, until, true)] + ([Reserve(t, q, until, true)] + [])
  }

  lemma AfterTwoOrders(s: System, t: TierId, q: nat, until: Time)
    ensures Run(s, TwoOrders(t, q, until)) == Apply(Apply(s, Reserve(t, q, until, true)), Reserve(t, q, until, true))
  {
    var order := Reserve(t, q, until, true);
    RunCons(s, order, [order] + [], t);
    RunCons(Apply(s, order), order, [], t);
  }

  /** Such a state is reached by any two equal orders that fit in a fresh tier. */
  lemma ContendedIsReachable(t: TierId, seats: nat, q: nat, until: Time)
    requires q > 0 && 2 * q <= seats
    ensures var s := Run(Opening(t, seats), TwoOrders(t, q, until));
            Valid(s) && Conserved(s.ledger) && Contended(s, 0, until, t)
  {
    var order, p := Reserve(t, q, until, true), Order(t, q, until);
    var s0 := Opening(t, seats);
    ReserveEffect(s0, t, q, until);
    var s1 := Apply(s0, order);
    ReserveEffect(s1, t, q, until);
    AfterTwoOrders(s0, t, q, until);
    TotalSnoc([], p, t, Pending);
    TotalSnoc([] + [p], p, t, Pending);
    assert TierOf(p) == Some(t);
  }

  function OrderThenDelete(t: TierId, q: nat, until: Time): seq<Step> {
    [Reserve(t, q, until, true)] + ([Remove(0)] + [])
  }

  /** A buyer who orders and deletes the account leaves the seats reserved for nobody, and whatever else
      happens to them later is counted on top. */
  lemma DeletedBuyerStrandsSeats(t: TierId, seats: nat, q: nat, until: Time)
    requires 0 < q <= seats
    ensures var s := Run(Opening(t, seats), OrderThenDelete(t, q, until));
            && EverStrands(Opening(t, seats), OrderThenDelete(t, q, until))
            && t in s.ledger.tiers && s.ledger.tiers[t].reserved == q && PendingTotal(s.ledger.purchases, t) == 0
  {
    var s0 := Opening(t, seats);
    var s1 := Apply(s0, Reserve(t, q, until, true));
    ReserveEffect(s0, t, q, until);
    assert s1.ledger.purchases == [Order(t, q, until)] && TierOf(s1.ledger.purchases[0]) == Some(t);
    RunCons(s0, Reserve(t, q, until, true), [Remove(0)] + [], t);
    RunCons(s1, Remove(0), [], t);
    TotalSnoc([], Order(t, q, until), t, Pending);
    assert [] + [Order(t, q, until)] == s1.ledger.purchases;
    RemoveStepDrift(s1, 0, t);
  }

  lemma ReserveEffect(s: System, t: TierId, q: nat, until: Time)
    requires t in s.ledger.tiers && s.ledger.tiers[t].active
    requires var row := s.ledger.tiers[t]; row.sold + row.reserved + q <= row.quantity
    ensures var row := s.ledger.tiers[t];
            Apply(s, Reserve(t, q, until, true))
            == s.(ledger := Ledger(s.ledger.tiers[t := row.(reserved := row.reserved + q)],
                                   s.ledger.purchases + [Order(t, q, until)]))
  {}
}
