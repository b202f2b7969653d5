/**
  `release_expired_reservations` (tickets/tasks.py) as one worker executes it, with nobody else
  on the rows.  The loop updates the store in place; it is proved to be a run of `TicketSystem`,
  to be exact about `released_count`, and to make progress.
*/
module SweepTask {
  import opened Options
  import opened TicketLedger
  import opened TicketSystem

  datatype Outcome = Outcome(ledger: Ledger, released: nat, ok: bool)

  /** The candidate rows from position `i` on, at most `batchSize` of them, in table order. */
  function ListFrom(ps: seq<Purchase>, now: Time, batchSize: nat, i: nat): seq<nat>
    requires i <= |ps|
    decreases |ps| - i
  {
    if batchSize == 0 || i == |ps| then []
    else if Due(ps[i], now)
    then [i] + ListFrom(ps, now, batchSize - 1, i + 1)
    else ListFrom(ps, now, batchSize, i + 1)
  }

  /** Rows expired one by one; a violated check ends the task with an exception. */
  function SweepRows(l: Ledger, ids: seq<nat>, now: Time): Outcome
    decreases |ids|
  {
    if ids == [] then Outcome(l, 0, true)
    else if !Releasable(l, ids[0], now) then SweepRows(l, ids[1..], now)
    else
      match ExpireRow(l, ids[0])
      case None => Outcome(l, 0, false)
      case Some(l') =>
        var rest := SweepRows(l', ids[1..], now);
        rest.(released := rest.released + 1)
  }

  function Sweep(l: Ledger, now: Time, batchSize: nat): Outcome {
    SweepRows(l, ListFrom(l.purchases, now, batchSize, 0), now)
  }

  function ReleasableFrom(ps: seq<Purchase>, now: Time, i: nat): nat
    requires i <= |ps|
    decreases |ps| - i
  {
    if i == |ps| then 0
    else (if Due(ps[i], now) then 1 else 0) + ReleasableFrom(ps, now, i + 1)
  }

  function Min(a: nat, b: nat): nat { if a < b then a else b }

  // ---- the listing -----------------------------------------------------------

  predicate Ascending(ids: seq<nat>) {
    forall j, k | 0 <= j < k < |ids| :: ids[j] < ids[k]
  }

  lemma {:induction false} ListFromShape(l: Ledger, now: Time, batchSize: nat, i: nat)
    requires i <= |l.purchases|
    ensures var ids := ListFrom(l.purchases, now, batchSize, i);
            && Ascending(ids)
            && (forall k | 0 <= k < |ids| :: i <= ids[k] && Releasable(l, ids[k], now))
            && |ids| == Min(batchSize, ReleasableFrom(l.purchases, now, i))
            && (|ids| < batchSize ==> forall j: nat | i <= j < |l.purchases| && Releasable(l, j, now) :: j in ids)
    decreases |l.purchases| - i
  {
    if batchSize != 0 && i != |l.purchases| {
      if Releasable(l, i, now) {
        ListFromShape(l, now, batchSize - 1, i + 1);
        var rest := ListFrom(l.purchases, now, batchSize - 1, i + 1);
        assert ListFrom(l.purchases, now, batchSize, i) == [i] + rest;
      } else {
        ListFromShape(l, now, batchSize, i + 1);
      }
    }
  }

  /** The query's answer is one the concurrent model allows. */
  lemma ListingIsAllowed(l: Ledger, now: Time, batchSize: nat)
    ensures IsListing(l, now, batchSize, ListFrom(l.purchases, now, batchSize, 0))
  {
    ListFromShape(l, now, batchSize, 0);
  }

  // ---- one sweep -------------------------------------------------------------

  lemma {:induction false} ReleasableFromUpdate(ps: seq<Purchase>, now: Time, k: nat, p: Purchase, i: nat)
    requires i <= |ps| && k < |ps| && p.status != Pending
    requires Due(ps[k], now)
    ensures ReleasableFrom(ps[k := p], now, i) == ReleasableFrom(ps, now, i) - (if i <= k then 1 else 0)
    decreases |ps| - i
  {
    if i < |ps| { ReleasableFromUpdate(ps, now, k, p, i + 1); }
  }

  lemma ExpireConserves(l: Ledger, i: nat)
    requires Conserved(l) && i < |l.purchases| && l.purchases[i].status == Pending
    ensures ExpireRow(l, i).Some? && Conserved(ExpireRow(l, i).value)
  {
    var p := l.purchases[i];
    if TierOf(p).Some? && TierOf(p).value in l.tiers { TotalAtLeast(l.purchases, i, TierOf(p).value, Pending); }
    var l' := ExpireRow(l, i).value;
    forall t | t in l'.tiers ensures l'.tiers[t].reserved == PendingTotal(l'.purchases, t) {
      ExpireDrift(l, i, t);
      assert Drift(l, t) == 0;
    }
  }

  /** Conservation, completeness and exactness of one pass over rows that can all be released. */
  lemma {:induction false} SweepRowsExact(l: Ledger, ids: seq<nat>, now: Time)
    requires Conserved(l) && Ascending(ids)
    requires forall k | 0 <= k < |ids| :: Releasable(l, ids[k], now)
    ensures var r := SweepRows(l, ids, now);
            && r.ok && r.released == |ids| && Conserved(r.ledger)
            && |r.ledger.purchases| == |l.purchases|
            && ReleasableFrom(r.ledger.purchases, now, 0) == ReleasableFrom(l.purchases, now, 0) - |ids|
            && (forall i | 0 <= i < |l.purchases| ::
                  if i in ids then r.ledger.purchases[i].status == Expired else r.ledger.purchases[i] == l.purchases[i])
    decreases |ids|
  {
    if ids != [] {
      assert Releasable(l, ids[0], now);
      ExpireConserves(l, ids[0]);
      var l' := ExpireRow(l, ids[0]).value;
      ReleasableFromUpdate(l.purchases, now, ids[0], l'.purchases[ids[0]], 0);
      SweepRowsExact(l', ids[1..], now);
      forall i | 0 <= i < |l.purchases| ensures i in ids <==> i == ids[0] || i in ids[1..] {}
    }
  }

  /** One uncontended sweep of a conserved ledger expires min(batch, backlog) rows. */
  lemma SweepExact(l: Ledger, now: Time, batchSize: nat)
    requires Conserved(l)
    ensures var n := ReleasableFrom(l.purchases, now, 0);
            var r := Sweep(l, now, batchSize);
            && r.ok && Conserved(r.ledger) && r.released == Min(batchSize, n)
            && ReleasableFrom(r.ledger.purchases, now, 0) == n - Min(batchSize, n)
  {
    ListFromShape(l, now, batchSize, 0);
    SweepRowsExact(l, ListFrom(l.purchases, now, batchSize, 0), now);
  }

  /** What a sweep at `now` does to each purchase, by the purchase's own deadline: one that still runs, has no
      deadline or is not pending is left alone, and if the batch was not full every pending one whose deadline
      has come is expired. */
  lemma SweepByDeadline(l: Ledger, now: Time, batchSize: nat, i: nat)
    requires Conserved(l) && i < |l.purchases|
    ensures var p, r := l.purchases[i], Sweep(l, now, batchSize);
            && i < |r.ledger.purchases|
            && (p.status != Pending || p.reservedUntil.None? || p.reservedUntil.value > now ==>
                  r.ledger.purchases[i] == p)
            && (r.released < batchSize
                && p.status == Pending && p.reservedUntil.Some? && p.reservedUntil.value <= now ==>
                  r.ledger.purchases[i].status == Expired)
  {
    var ids := ListFrom(l.purchases, now, batchSize, 0);
    ListFromShape(l, now, batchSize, 0);
    SweepRowsExact(l, ids, now);
    if i in ids {
      var k :| 0 <= k < |ids| && ids[k] == i;
      assert Releasable(l, ids[k], now);
    } else if |ids| < batchSize {
      assert !Releasable(l, i, now);
    }
  }

  function Sweeps(l: Ledger, now: Time, batchSize: nat, k: nat): Ledger
    decreases k
  {
    if k == 0 then l else Sweeps(Sweep(l, now, batchSize).ledger, now, batchSize, k - 1)
  }

  function CeilDiv(n: nat, b: nat): nat
    requires b > 0
  {
    (n + b - 1) / b
  }

  /** ceil(n / batch_size) sweeps clear a backlog of n, and no fewer do. */
  lemma {:induction false} SweepsClearBacklog(l: Ledger, now: Time, batchSize: nat, k: nat)
    requires Conserved(l) && batchSize > 0
    ensures var n := ReleasableFrom(l.purchases, now, 0);
            && Conserved(Sweeps(l, now, batchSize, k))
            && ReleasableFrom(Sweeps(l, now, batchSize, k).purchases, now, 0)
               == (if k * batchSize <= n then n - k * batchSize else 0)
            && (ReleasableFrom(Sweeps(l, now, batchSize, k).purchases, now, 0) == 0 <==> CeilDiv(n, batchSize) <= k)
    decreases k
  {
    var n := ReleasableFrom(l.purchases, now, 0);
    if k > 0 {
      SweepExact(l, now, batchSize);
      SweepsClearBacklog(Sweep(l, now, batchSize).ledger, now, batchSize, k - 1);
      assert k * batchSize == (k - 1) * batchSize + batchSize;
    }
    CeilDivAtMost(n, batchSize, k);
  }

  lemma CeilDivAtMost(n: nat, b: nat, k: nat)
    requires b > 0
    ensures CeilDiv(n, b) <= k <==> n <= k * b
  {
    var c := CeilDiv(n, b);
    assert c * b <= n + b - 1 < c * b + b;
    if c <= k { TimesMonotone(c, k, b); } else { TimesMonotone(k + 1, c, b); }
  }

  lemma TimesMonotone(m: nat, n: nat, b: nat)
    requires m <= n
    ensures m * b <= n * b && (m + 1) * b == m * b + b
  {}

  // ---- the task --------------------------------------------------------------

  class TicketStore {
    var tiers: map<TierId, Tier>
    var purchases: seq<Purchase>

    constructor (l: Ledger)
      ensures View() == l
    {
      tiers, purchases := l.tiers, l.purchases;
    }

    function View(): Ledger
      reads this
    {
      Ledger(tiers, purchases)
    }

    method ListCandidates(now: Time, batchSize: nat) returns (ids: seq<nat>)
      ensures ids == ListFrom(purchases, now, batchSize, 0)
    {
      ids := [];
      var i := 0;
      while i < |purchases| && |ids| < batchSize
        invariant i <= |purchases| && |ids| <= batchSize
        invariant ListFrom(purchases, now, batchSize, 0) == ids + ListFrom(purchases, now, batchSize - |ids|, i)
      {
        if Due(purchases[i], now) { ids := ids + [i]; }
        i := i + 1;
      }
    }

    /** The transaction of one locked row; `ok` is false when the database rejects the update. */
    method ExpireLocked(i: nat) returns (ok: bool)
      requires i < |purchases|
      modifies this
      ensures ok == ExpireRow(old(View()), i).Some?
      ensures View() == if ok then ExpireRow(old(View()), i).value else old(View())
    {
      var p := purchases[i];
      var tier := TierOf(p);
      if tier.Some? {
        if tier.value in tiers {
          var row := tiers[tier.value];
          if row.reserved < p.quantity { return false; }
          tiers := tiers[tier.value := row.(reserved := row.reserved - p.quantity)];
        }
        p := p.(tickets := Mark(p.tickets, Cancelled));
      }
      purchases := purchases[i := p.(status := Expired)];
      ok := true;
    }

    method ReleaseExpired(now: Time, batchSize: nat) returns (releasedCount: nat, ok: bool)
      modifies this
      ensures Outcome(View(), releasedCount, ok) == Sweep(old(View()), now, batchSize)
    {
      var candidates := ListCandidates(now, batchSize);
      releasedCount, ok := 0, true;
      var k := 0;
      while k < |candidates|
        invariant k <= |candidates|
        invariant Sweep(old(View()), now, batchSize)
               == var rest := SweepRows(View(), candidates[k..], now); rest.(released := rest.released + releasedCount)
      {
        var id := candidates[k];
        if id < |purchases| && Due(purchases[id], now) {
          ok := ExpireLocked(id);
          if !ok { return; }
          releasedCount := releasedCount + 1;
        }
        k := k + 1;
      }
    }
  }

  // ---- the task is a run of the concurrent model -------------------------------

  lemma {:induction false} RunAppend(s: System, xs: seq<Step>, ys: seq<Step>)
    ensures Run(s, xs + ys) == Run(Run(s, xs), ys)
    decreases |xs|
  {
    if xs == [] { assert xs + ys == ys; }
    else {
      assert (xs + ys)[0] == xs[0] && (xs + ys)[1..] == xs[1..] + ys;
      RunAppend(Apply(s, xs[0]), xs[1..], ys);
    }
  }

  function OneWorker(l: Ledger, now: Time, todo: seq<nat>, released: nat): System {
    System(l, [Worker(now, todo, false, released, true)], [])
  }

  function LoopSteps(ids: seq<nat>): seq<Step>
    decreases |ids|
  {
    if ids == [] then [] else [Lock(0), CommitExpiry(0)] + LoopSteps(ids[1..])
  }

  lemma {:induction false} LoopIsRun(l: Ledger, now: Time, ids: seq<nat>, released: nat)
    requires Conserved(l) && Ascending(ids) && forall k | 0 <= k < |ids| :: Releasable(l, ids[k], now)
    ensures var r := SweepRows(l, ids, now);
            Run(OneWorker(l, now, ids, released), LoopSteps(ids)) == OneWorker(r.ledger, now, [], released + r.released)
    decreases |ids|
  {
    if ids != [] {
      assert Releasable(l, ids[0], now);
      ExpireConserves(l, ids[0]);
      var l' := ExpireRow(l, ids[0]).value;
      var s0 := OneWorker(l, now, ids, released);
      var s1 := Apply(s0, Lock(0));
      assert s1.workers == [Worker(now, ids, true, released, true)];
      var s2 := Apply(s1, CommitExpiry(0));
      assert s2 == OneWorker(l', now, ids[1..], released + 1);
      var pair := [Lock(0), CommitExpiry(0)];
      assert pair[1..] == [CommitExpiry(0)] && pair[1..][1..] == [];
      assert Run(s0, pair) == Run(s1, pair[1..]);
      RunAppend(s0, pair, LoopSteps(ids[1..]));
      LoopIsRun(l', now, ids[1..], released + 1);
    }
  }

  /** What the task computes alone is what its steps do in `TicketSystem`. */
  lemma SweepIsRun(l: Ledger, now: Time, batchSize: nat)
    requires Conserved(l)
    ensures var ids := ListFrom(l.purchases, now, batchSize, 0);
            var s := Run(System(l, [], []), [StartSweep(now, batchSize, ids)] + LoopSteps(ids));
            s.ledger == Sweep(l, now, batchSize).ledger && ReleasedTotal(s.workers) == Sweep(l, now, batchSize).released
  {
    var ids := ListFrom(l.purchases, now, batchSize, 0);
    ListingIsAllowed(l, now, batchSize);
    ListFromShape(l, now, batchSize, 0);
    var start := StartSweep(now, batchSize, ids);
    var s0 := System(l, [], []);
    assert Apply(s0, start) == OneWorker(l, now, ids, 0);
    assert ([start] + LoopSteps(ids))[1..] == LoopSteps(ids);
    LoopIsRun(l, now, ids, 0);
  }
}
