/**
  The rows behind ticket sales (tickets/models.py) and every transaction that moves a
  reservation: `initialize_purchase`, `verify_purchase` and `_release_reservation` of
  tickets/services/ticket_service.py, and the row transaction inside
  `release_expired_reservations` (tickets/tasks.py).

  A purchase is named by its position in `purchases`; rows are only appended, and a row that is deleted
  keeps its place with the status `Removed`.
  `reserved` and `sold` are naturals because both columns carry a non-negativity check:
  an UPDATE that would go below zero aborts its transaction, which is the result `None`.
*/
module TicketLedger {
  import opened Options

  type TierId = nat
  type Time = int

  datatype PaymentStatus = Pending | Successful | Failed | Expired | Removed
  datatype TicketStatus = Reserved | Sold | Cancelled
  datatype Ticket = Ticket(tier: Option<TierId>, status: TicketStatus)
  datatype Purchase = Purchase(quantity: nat, status: PaymentStatus, reservedUntil: Option<Time>, tickets: seq<Ticket>)
  datatype Tier = Tier(quantity: nat, sold: nat, reserved: nat, active: bool)
  datatype Ledger = Ledger(tiers: map<TierId, Tier>, purchases: seq<Purchase>)

  /** `tickets.values_list("price_tier_id").first()` */
  function TierOf(p: Purchase): Option<TierId> {
    if p.tickets == [] then None else p.tickets[0].tier
  }

  function Mark(tickets: seq<Ticket>, st: TicketStatus): seq<Ticket> {
    seq(|tickets|, i requires 0 <= i < |tickets| => tickets[i].(status := st))
  }

  predicate AllMarked(tickets: seq<Ticket>, st: TicketStatus) {
    forall i | 0 <= i < |tickets| :: tickets[i].status == st
  }

  /** What purchase `p` has of tier `t` while its status is `st`. */
  function Holds(p: Purchase, t: TierId, st: PaymentStatus): nat {
    if p.status == st && TierOf(p) == Some(t) then p.quantity else 0
  }

  function Total(ps: seq<Purchase>, t: TierId, st: PaymentStatus): nat {
    if ps == [] then 0 else Total(ps[..|ps| - 1], t, st) + Holds(ps[|ps| - 1], t, st)
  }

  function PendingTotal(ps: seq<Purchase>, t: TierId): nat { Total(ps, t, Pending) }

  function SoldTotal(ps: seq<Purchase>, t: TierId): nat { Total(ps, t, Successful) }

  /** `filter(payment_status=PENDING, reserved_until__lte=now)`; a null deadline never matches. */
  predicate Due(p: Purchase, now: Time) {
    p.status == Pending && p.reservedUntil.Some? && p.reservedUntil.value <= now
  }

  // ---- transactions ----------------------------------------------------------

  /** `PriceTier.objects.filter(id=tier).update(quantity_reserved=F(..) - q, quantity_sold=F(..) + sold)` */
  function TakeReserved(tiers: map<TierId, Tier>, tier: Option<TierId>, q: nat, sold: nat): Option<map<TierId, Tier>> {
    if tier.None? || tier.value !in tiers then Some(tiers)
    else
      var row := tiers[tier.value];
      if row.reserved < q then None
      else Some(tiers[tier.value := row.(reserved := row.reserved - q, sold := row.sold + sold)])
  }

  /** The body of the sweep's transaction once the row lock is held. */
  function ExpireRow(l: Ledger, i: nat): Option<Ledger>
    requires i < |l.purchases|
  {
    var p := l.purchases[i];
    var tier := TierOf(p);
    match TakeReserved(l.tiers, tier, p.quantity, 0)
    case None => None
    case Some(tiers) =>
      var tickets := if tier.Some? then Mark(p.tickets, Cancelled) else p.tickets;
      Some(Ledger(tiers, l.purchases[i := p.(status := Expired, tickets := tickets)]))
  }

  /** `_release_reservation`: the row is overwritten whatever its status is; saving a row that was deleted
      fails. */
  function FailRow(l: Ledger, i: nat): Option<Ledger>
    requires i < |l.purchases|
  {
    var p := l.purchases[i];
    match TakeReserved(l.tiers, TierOf(p), p.quantity, 0)
    case None => None
    case Some(tiers) =>
      if p.status == Removed then None else
      Some(Ledger(tiers, l.purchases[i := p.(status := Failed, tickets := Mark(p.tickets, Cancelled))]))
  }

  /** The confirming transaction of `verify_purchase`; without tickets `tickets.first()` fails. */
  function ConfirmRow(l: Ledger, i: nat): Option<Ledger>
    requires i < |l.purchases|
  {
    var p := l.purchases[i];
    if p.tickets == [] || p.status == Removed then None
    else
      match TakeReserved(l.tiers, TierOf(p), p.quantity, p.quantity)
      case None => None
      case Some(tiers) =>
        Some(Ledger(tiers, l.purchases[i := p.(status := Successful, tickets := Mark(p.tickets, Sold))]))
  }

  /** A new purchase and its tickets. */
  function Order(t: TierId, q: nat, until: Time): Purchase {
    Purchase(q, Pending, Some(until), seq(q, _ => Ticket(Some(t), Reserved)))
  }

  /** The transaction of `initialize_purchase`, under the tier's row lock. */
  function ReserveRow(l: Ledger, t: TierId, q: nat, until: Time): Option<Ledger> {
    if t !in l.tiers || !l.tiers[t].active then None
    else
      var row := l.tiers[t];
      if row.quantity - row.sold - row.reserved < q then None
      else
        Some(Ledger(l.tiers[t := row.(reserved := row.reserved + q)], l.purchases + [Order(t, q, until)]))
  }

  /** Deleting a tier sets `price_tier` to null on its tickets. */
  function Unlink(tickets: seq<Ticket>, t: TierId): seq<Ticket> {
    seq(|tickets|, i requires 0 <= i < |tickets| =>
      if tickets[i].tier == Some(t) then tickets[i].(tier := None) else tickets[i])
  }

  function DropTierRow(l: Ledger, t: TierId): Ledger {
    Ledger(l.tiers - {t},
           seq(|l.purchases|, i requires 0 <= i < |l.purchases| =>
             l.purchases[i].(tickets := Unlink(l.purchases[i].tickets, t))))
  }

  /** Deleting the buyer's account deletes the purchase and its tickets; no handler touches the tier. */
  function RemoveRow(l: Ledger, i: nat): Ledger
    requires i < |l.purchases|
  {
    l.(purchases := l.purchases[i := l.purchases[i].(status := Removed, tickets := [])])
  }

  // ---- facts about one transaction -------------------------------------------

  function Drift(l: Ledger, t: TierId): int
    requires t in l.tiers
  {
    l.tiers[t].reserved - PendingTotal(l.purchases, t)
  }

  function SoldDrift(l: Ledger, t: TierId): int
    requires t in l.tiers
  {
    l.tiers[t].sold - SoldTotal(l.purchases, t)
  }

  /** Stock is never promised twice: sold and reserved tickets fit in the tier. */
  predicate WithinCapacity(l: Ledger) {
    forall t | t in l.tiers :: l.tiers[t].sold + l.tiers[t].reserved <= l.tiers[t].quantity
  }

  /** As many tickets as paid for, and they follow their purchase; only a purchase without a tier can
      expire and keep its tickets. */
  predicate TicketsFollow(p: Purchase) {
    (if p.status == Removed then p.tickets == [] else |p.tickets| == p.quantity) &&
    match p.status
    case Removed => true
    case Pending => AllMarked(p.tickets, Reserved)
    case Successful => AllMarked(p.tickets, Sold)
    case Failed => AllMarked(p.tickets, Cancelled)
    case Expired => AllMarked(p.tickets, Cancelled) || TierOf(p).None?
  }

  lemma {:induction false} TotalUpdate(ps: seq<Purchase>, i: nat, p: Purchase, t: TierId, st: PaymentStatus)
    requires i < |ps|
    ensures Total(ps[i := p], t, st) == Total(ps, t, st) - Holds(ps[i], t, st) + Holds(p, t, st)
  {
    var n := |ps| - 1;
    if i < n {
      TotalUpdate(ps[..n], i, p, t, st);
      assert ps[i := p][..n] == ps[..n][i := p];
    } else {
      assert ps[i := p][..n] == ps[..n];
    }
  }

  lemma {:induction false} TotalAtLeast(ps: seq<Purchase>, i: nat, t: TierId, st: PaymentStatus)
    requires i < |ps|
    ensures Holds(ps[i], t, st) <= Total(ps, t, st)
  {
    var n := |ps| - 1;
    if i < n { TotalAtLeast(ps[..n], i, t, st); }
  }

  lemma {:induction false} TotalSame(ps: seq<Purchase>, qs: seq<Purchase>, t: TierId, st: PaymentStatus)
    requires |ps| == |qs|
    requires forall i | 0 <= i < |ps| :: Holds(ps[i], t, st) == Holds(qs[i], t, st)
    ensures Total(ps, t, st) == Total(qs, t, st)
  {
    if ps != [] { TotalSame(ps[..|ps| - 1], qs[..|qs| - 1], t, st); }
  }

  lemma TotalSnoc(ps: seq<Purchase>, p: Purchase, t: TierId, st: PaymentStatus)
    ensures Total(ps + [p], t, st) == Total(ps, t, st) + Holds(p, t, st)
  {
    assert (ps + [p])[..|ps|] == ps;
  }

  /** Any transaction that takes back `quantity` from its tier drifts by exactly what the row did not hold,
      and what a row had already sold is from then on counted without a purchase. */
  lemma TakeBackDrift(l: Ledger, i: nat, st: PaymentStatus, mark: TicketStatus, t: TierId)
    requires i < |l.purchases| && st != Pending && t in l.tiers
    requires var p := l.purchases[i];
             TakeReserved(l.tiers, TierOf(p), p.quantity, if st == Successful then p.quantity else 0).Some?
    ensures var p := l.purchases[i];
            var l' := Ledger(TakeReserved(l.tiers, TierOf(p), p.quantity,
                                          if st == Successful then p.quantity else 0).value,
                             l.purchases[i := p.(status := st, tickets := Mark(p.tickets, mark))]);
            && t in l'.tiers
            && Drift(l', t) == Drift(l, t) - (if TierOf(p) == Some(t) && p.status != Pending then p.quantity else 0)
            && SoldDrift(l', t) == SoldDrift(l, t)
                  + (if TierOf(p) == Some(t) && p.status == Successful then p.quantity else 0)
  {
    var p := l.purchases[i];
    var p' := p.(status := st, tickets := Mark(p.tickets, mark));
    assert TierOf(p') == TierOf(p);
    TotalUpdate(l.purchases, i, p', t, Pending);
    TotalUpdate(l.purchases, i, p', t, Successful);
  }

  /** Expiry marks tickets only when the purchase has a tier. */
  lemma ExpireDrift(l: Ledger, i: nat, t: TierId)
    requires i < |l.purchases| && l.purchases[i].status == Pending && t in l.tiers && ExpireRow(l, i).Some?
    ensures var l' := ExpireRow(l, i).value;
            t in l'.tiers && Drift(l', t) == Drift(l, t) && SoldDrift(l', t) == SoldDrift(l, t)
  {
    var p := l.purchases[i];
    if TierOf(p).Some? {
      TakeBackDrift(l, i, Expired, Cancelled, t);
    } else {
      TotalUpdate(l.purchases, i, p.(status := Expired), t, Pending);
      TotalUpdate(l.purchases, i, p.(status := Expired), t, Successful);
    }
  }

  /** A deleted purchase leaves behind what it had reserved or bought. */
  lemma RemoveDrift(l: Ledger, i: nat, t: TierId)
    requires i < |l.purchases| && t in l.tiers
    ensures Drift(RemoveRow(l, i), t) == Drift(l, t) + Holds(l.purchases[i], t, Pending)
    ensures SoldDrift(RemoveRow(l, i), t) == SoldDrift(l, t) + Holds(l.purchases[i], t, Successful)
  {
    var p := l.purchases[i].(status := Removed, tickets := []);
    TotalUpdate(l.purchases, i, p, t, Pending);
    TotalUpdate(l.purchases, i, p, t, Successful);
  }

  lemma ReserveDrift(l: Ledger, t0: TierId, q: nat, until: Time, t: TierId)
    requires ReserveRow(l, t0, q, until).Some? && t in l.tiers
    ensures var l' := ReserveRow(l, t0, q, until).value;
            t in l'.tiers && Drift(l', t) == Drift(l, t) && SoldDrift(l', t) == SoldDrift(l, t)
  {
    TotalSnoc(l.purchases, Order(t0, q, until), t, Pending);
    TotalSnoc(l.purchases, Order(t0, q, until), t, Successful);
  }

  lemma DropDrift(l: Ledger, t0: TierId, t: TierId)
    requires t in l.tiers && t != t0
    ensures var l' := DropTierRow(l, t0);
            t in l'.tiers && Drift(l', t) == Drift(l, t) && SoldDrift(l', t) == SoldDrift(l, t)
  {
    TotalSame(l.purchases, DropTierRow(l, t0).purchases, t, Pending);
    TotalSame(l.purchases, DropTierRow(l, t0).purchases, t, Successful);
  }
}
