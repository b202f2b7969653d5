/**
  Login attempts for one identifier that overlap: `AuthenticationService.login`
  (accounts/services/authentication.py) tests the cooldown, checks the password, counts the failure and
  starts the cooldown in separate steps.  The limiter is the in-memory one; `LoginLockout.OthersUnaffected`
  is why one identifier is enough.
*/
module LoginRace {
  import opened Options
  import Lockout = LoginLockout

  datatype Phase =
    | Tested    // not cooling down when it looked
    | Wrong     // password rejected; the failure is not counted yet
    | Over      // counted above the limit; the cooldown is not started yet
    | Right     // password accepted; the counter is not reset yet
    | Done

  /** `late` counts the password checks made after the cooldown has started. */
  datatype State = State(count: nat, cooling: bool, late: nat, attempts: seq<Phase>)

  datatype Verdict = Rejected | Accepted | Inactive

  datatype Step =
    | Arrive
    | Check(attempt: nat, verdict: Verdict)
    | Hit(attempt: nat)
    | Lock(attempt: nat)
    | Reset(attempt: nat)

  function CountIn(ps: seq<Phase>, which: set<Phase>): nat {
    if ps == [] then 0 else CountIn(ps[..|ps| - 1], which) + if ps[|ps| - 1] in which then 1 else 0
  }

  function InFlight(ps: seq<Phase>): nat { CountIn(ps, {Tested, Wrong, Over, Right}) }

  predicate At(s: State, i: nat, p: Phase) { i < |s.attempts| && s.attempts[i] == p }

  function Move(s: State, i: nat, p: Phase): State
    requires i < |s.attempts|
  {
    s.(attempts := s.attempts[i := p])
  }

  /** With at most `k` attempts in flight; an attempt that finds the cooldown is refused and does nothing. */
  function Apply(s: State, maxFailed: nat, k: nat, step: Step): State {
    match step
    case Arrive => if !s.cooling && InFlight(s.attempts) < k then s.(attempts := s.attempts + [Tested]) else s
    case Check(i, verdict) =>
      if At(s, i, Tested) then
        var next := match verdict case Rejected => Wrong case Accepted => Right case Inactive => Done;
        Move(s, i, next).(late := if s.cooling then s.late + 1 else s.late)
      else s
    case Hit(i) =>
      if At(s, i, Wrong) then Move(s, i, if s.count + 1 <= maxFailed then Done else Over).(count := s.count + 1) else s
    case Lock(i) => if At(s, i, Over) then Move(s, i, Done).(cooling := true) else s
    case Reset(i) => if At(s, i, Right) then Move(s, i, Done).(count := 0) else s
  }

  function Run(s: State, maxFailed: nat, k: nat, steps: seq<Step>): State
    decreases |steps|
  {
    if steps == [] then s else Run(Apply(s, maxFailed, k, steps[0]), maxFailed, k, steps[1..])
  }

  function Start(): State { State(0, false, 0, []) }

  // ---- every run ---------------------------------------------------------------------

  lemma {:induction false} CountMove(ps: seq<Phase>, i: nat, p: Phase, which: set<Phase>)
    requires i < |ps|
    ensures CountIn(ps[i := p], which)
            == CountIn(ps, which) - (if ps[i] in which then 1 else 0) + (if p in which then 1 else 0)
  {
    var n := |ps| - 1;
    if i < n {
      CountMove(ps[..n], i, p, which);
      assert ps[i := p][..n] == ps[..n][i := p];
    } else {
      assert ps[i := p][..n] == ps[..n];
    }
  }

  lemma CountSnoc(ps: seq<Phase>, p: Phase, which: set<Phase>)
    ensures CountIn(ps + [p], which) == CountIn(ps, which) + if p in which then 1 else 0
  {
    assert (ps + [p])[..|ps|] == ps;
  }

  /** The four phases of flight make up the number in flight. */
  lemma {:induction false} FlightParts(ps: seq<Phase>)
    ensures CountIn(ps, {Tested}) + CountIn(ps, {Wrong}) + CountIn(ps, {Over}) + CountIn(ps, {Right}) == InFlight(ps)
  {
    if ps != [] { FlightParts(ps[..|ps| - 1]); }
  }

  /** Before the cooldown only attempts still in flight have counted above the limit; once it has started,
      no attempt comes in, and those in flight count and check at most once each. */
  predicate Valid(s: State, maxFailed: nat, k: nat) {
    var tested, wrong, over := CountIn(s.attempts, {Tested}), CountIn(s.attempts, {Wrong}), CountIn(s.attempts, {Over});
    && InFlight(s.attempts) <= k
    && if s.cooling then s.count + tested + wrong <= maxFailed + k && s.late + tested < k
       else s.count <= maxFailed + over && s.late == 0
  }

  lemma MoveCounts(ps: seq<Phase>, i: nat, p: Phase)
    requires i < |ps|
    ensures forall q :: CountIn(ps[i := p], {q})
                    == CountIn(ps, {q}) - (if ps[i] == q then 1 else 0) + (if p == q then 1 else 0)
    ensures ps[i] != Done ==> InFlight(ps[i := p]) <= InFlight(ps)
  {
    forall q
      ensures CountIn(ps[i := p], {q}) == CountIn(ps, {q}) - (if ps[i] == q then 1 else 0) + (if p == q then 1 else 0)
    {
      CountMove(ps, i, p, {q});
    }
    CountMove(ps, i, p, {Tested, Wrong, Over, Right});
  }

  lemma StepKeepsValid(s: State, maxFailed: nat, k: nat, step: Step)
    requires Valid(s, maxFailed, k)
    ensures Valid(Apply(s, maxFailed, k, step), maxFailed, k)
  {
    var ps := s.attempts;
    FlightParts(ps);
    if step.Arrive? {
      CountSnoc(ps, Tested, {Tested});
      CountSnoc(ps, Tested, {Wrong});
      CountSnoc(ps, Tested, {Over});
      CountSnoc(ps, Tested, {Tested, Wrong, Over, Right});
    } else if step.attempt < |ps| && Apply(s, maxFailed, k, step) != s {
      MoveCounts(ps, step.attempt, Apply(s, maxFailed, k, step).attempts[step.attempt]);
    }
  }

  lemma {:induction false} RunKeepsValid(s: State, maxFailed: nat, k: nat, steps: seq<Step>)
    requires Valid(s, maxFailed, k)
    ensures Valid(Run(s, maxFailed, k, steps), maxFailed, k)
    decreases |steps|
  {
    if steps != [] {
      StepKeepsValid(s, maxFailed, k, steps[0]);
      RunKeepsValid(Apply(s, maxFailed, k, steps[0]), maxFailed, k, steps[1..]);
    }
  }

  /** With at most k attempts in flight the counter stays within max_failed + k, and fewer than k passwords are
      checked after the lock: none if attempts follow one another. */
  lemma OverlappingAttempts(maxFailed: nat, k: nat, steps: seq<Step>)
    requires k > 0
    ensures var s := Run(Start(), maxFailed, k, steps);
            s.count <= maxFailed + k && s.late < k && (s.cooling || s.late == 0)
  {
    RunKeepsValid(Start(), maxFailed, k, steps);
    FlightParts(Run(Start(), maxFailed, k, steps).attempts);
  }

  // ---- one attempt after the other ------------------------------------------------------

  /** The steps of attempt number i when nobody interferes. */
  function Undisturbed(i: nat, user: Option<Lockout.Account>): seq<Step> {
    match user
    case None => [Arrive] + ([Check(i, Rejected)] + ([Hit(i)] + ([Lock(i)] + [])))
    case Some(u) =>
      if u.active && !u.deleted then [Arrive] + ([Check(i, Accepted)] + ([Reset(i)] + []))
      else [Arrive] + ([Check(i, Inactive)] + [])
  }

  lemma RunCons(s: State, maxFailed: nat, k: nat, step: Step, rest: seq<Step>)
    ensures Run(s, maxFailed, k, [step] + rest) == Run(Apply(s, maxFailed, k, step), maxFailed, k, rest)
  {
    assert ([step] + rest)[1..] == rest;
  }

  /** The counter and the cooldown of an identifier, as the limiter holds them. */
  predicate Mirrors(s: State, l: Lockout.Limiter, identifier: string) {
    var key := Lockout.KeyOf(identifier);
    s.count == Lockout.CountOf(l, key) && (s.cooling <==> key in l.cooldowns)
  }

  lemma RejectedAlone(s: State, maxFailed: nat, k: nat)
    requires k > 0 && InFlight(s.attempts) == 0 && !s.cooling
    ensures Run(s, maxFailed, k, Undisturbed(|s.attempts|, None))
            == State(s.count + 1, s.count + 1 > maxFailed, s.late, s.attempts + [Done])
  {
    var i, ps := |s.attempts|, s.attempts;
    var s1 := Apply(s, maxFailed, k, Arrive);
    var s2 := Apply(s1, maxFailed, k, Check(i, Rejected));
    var s3 := Apply(s2, maxFailed, k, Hit(i));
    RunCons(s, maxFailed, k, Arrive, [Check(i, Rejected)] + ([Hit(i)] + ([Lock(i)] + [])));
    RunCons(s1, maxFailed, k, Check(i, Rejected), [Hit(i)] + ([Lock(i)] + []));
    RunCons(s2, maxFailed, k, Hit(i), [Lock(i)] + []);
    RunCons(s3, maxFailed, k, Lock(i), []);
    assert s2.attempts == ps + [Wrong];
    assert s3.attempts == ps + [if s.count + 1 > maxFailed then Over else Done];
    assert Apply(s3, maxFailed, k, Lock(i)).attempts == ps + [Done];
  }

  lemma AcceptedAlone(s: State, maxFailed: nat, k: nat, u: Lockout.Account)
    requires k > 0 && InFlight(s.attempts) == 0 && !s.cooling
    ensures Run(s, maxFailed, k, Undisturbed(|s.attempts|, Some(u)))
            == State(if u.active && !u.deleted then 0 else s.count, false, s.late, s.attempts + [Done])
  {
    var i, ps := |s.attempts|, s.attempts;
    var s1 := Apply(s, maxFailed, k, Arrive);
    if u.active && !u.deleted {
      var s2 := Apply(s1, maxFailed, k, Check(i, Accepted));
      RunCons(s, maxFailed, k, Arrive, [Check(i, Accepted)] + ([Reset(i)] + []));
      RunCons(s1, maxFailed, k, Check(i, Accepted), [Reset(i)] + []);
      RunCons(s2, maxFailed, k, Reset(i), []);
      assert s2.attempts == ps + [Right];
      assert Apply(s2, maxFailed, k, Reset(i)).attempts == ps + [Done];
    } else {
      RunCons(s, maxFailed, k, Arrive, [Check(i, Inactive)] + []);
      RunCons(s1, maxFailed, k, Check(i, Inactive), []);
      assert Apply(s1, maxFailed, k, Check(i, Inactive)).attempts == ps + [Done];
    }
  }

  lemma RefusedAlone(s: State, maxFailed: nat, k: nat, user: Option<Lockout.Account>)
    requires s.cooling
    ensures Run(s, maxFailed, k, Undisturbed(|s.attempts|, user)) == s
  {
    var i := |s.attempts|;
    RunCons(s, maxFailed, k, Arrive, [Check(i, Rejected)] + ([Hit(i)] + ([Lock(i)] + [])));
    RunCons(s, maxFailed, k, Check(i, Rejected), [Hit(i)] + ([Lock(i)] + []));
    RunCons(s, maxFailed, k, Hit(i), [Lock(i)] + []);
    RunCons(s, maxFailed, k, Lock(i), []);
    RunCons(s, maxFailed, k, Arrive, [Check(i, Accepted)] + ([Reset(i)] + []));
    RunCons(s, maxFailed, k, Check(i, Accepted), [Reset(i)] + []);
    RunCons(s, maxFailed, k, Reset(i), []);
    RunCons(s, maxFailed, k, Arrive, [Check(i, Inactive)] + []);
    RunCons(s, maxFailed, k, Check(i, Inactive), []);
  }

  /** An attempt that nobody disturbs is the call of LoginLockout: it leaves the counter and the cooldown of its
      identifier as that call does, and nothing in flight. */
  lemma UndisturbedIsLogin(s: State, maxFailed: nat, k: nat, l: Lockout.Limiter, a: Lockout.Attempt)
    requires k > 0 && InFlight(s.attempts) == 0 && Mirrors(s, l, Lockout.Identifier(a))
    requires Lockout.Identifier(a) != "" && a.password != ""
    ensures var s' := Run(s, maxFailed, k, Undisturbed(|s.attempts|, a.user));
            && Mirrors(s', Lockout.Login(l, maxFailed, a).limiter, Lockout.Identifier(a))
            && InFlight(s'.attempts) == 0 && s'.late == s.late
  {
    CountSnoc(s.attempts, Done, {Tested, Wrong, Over, Right});
    if s.cooling { RefusedAlone(s, maxFailed, k, a.user); }
    else if a.user.None? { RejectedAlone(s, maxFailed, k); }
    else { AcceptedAlone(s, maxFailed, k, a.user.value); }
  }

  // ---- the bounds are reached ------------------------------------------------------------

  ghost predicate Reached(maxFailed: nat, k: nat, s: State) {
    exists steps :: Run(Start(), maxFailed, k, steps) == s
  }

  lemma {:induction false} RunSnoc(s: State, maxFailed: nat, k: nat, steps: seq<Step>, step: Step)
    ensures Run(s, maxFailed, k, steps + [step]) == Apply(Run(s, maxFailed, k, steps), maxFailed, k, step)
    decreases |steps|
  {
    if steps == [] {
      assert Run(s, maxFailed, k, [step]) == Run(Apply(s, maxFailed, k, step), maxFailed, k, []);
    } else {
      assert (steps + [step])[1..] == steps[1..] + [step];
      RunSnoc(Apply(s, maxFailed, k, steps[0]), maxFailed, k, steps[1..], step);
    }
  }

  lemma ReachOn(maxFailed: nat, k: nat, s: State, step: Step)
    requires Reached(maxFailed, k, s)
    ensures Reached(maxFailed, k, Apply(s, maxFailed, k, step))
  {
    var steps :| Run(Start(), maxFailed, k, steps) == s;
    RunSnoc(Start(), maxFailed, k, steps, step);
  }

  function Fill(p: Phase, n: nat): seq<Phase> { seq(n, _ => p) }

  lemma {:induction false} CountFill(ps: seq<Phase>, p: Phase, n: nat, which: set<Phase>)
    ensures CountIn(ps + Fill(p, n), which) == CountIn(ps, which) + if p in which then n else 0
    decreases n
  {
    if n == 0 {
      assert ps + Fill(p, 0) == ps;
    } else {
      CountFill(ps, p, n - 1, which);
      CountSnoc(ps + Fill(p, n - 1), p, which);
      assert ps + Fill(p, n) == ps + Fill(p, n - 1) + [p];
    }
  }

  /** One more attempt looks, while there is room, and has its password rejected. */
  lemma RejectedReached(maxFailed: nat, k: nat, count: nat, ps: seq<Phase>)
    requires Reached(maxFailed, k, State(count, false, 0, ps)) && InFlight(ps) < k
    ensures Reached(maxFailed, k, State(count, false, 0, ps + [Wrong]))
  {
    ReachOn(maxFailed, k, State(count, false, 0, ps), Arrive);
    ReachOn(maxFailed, k, State(count, false, 0, ps + [Tested]), Check(|ps|, Rejected));
    assert (ps + [Tested])[|ps| := Wrong] == ps + [Wrong];
  }

  lemma NoneInFlight(n: nat)
    ensures InFlight(Fill(Done, n)) == 0
  {
    CountFill([], Done, n, {Tested, Wrong, Over, Right});
    assert [] + Fill(Done, n) == Fill(Done, n);
  }

  /** `n` failures, one after the other. */
  lemma {:induction false} FailuresReached(maxFailed: nat, k: nat, n: nat)
    requires k > 0 && n <= maxFailed
    ensures Reached(maxFailed, k, State(n, false, 0, Fill(Done, n)))
    decreases n
  {
    if n == 0 {
      assert Run(Start(), maxFailed, k, []) == State(0, false, 0, Fill(Done, 0));
    } else {
      FailuresReached(maxFailed, k, n - 1);
      var ps := Fill(Done, n - 1);
      NoneInFlight(n - 1);
      RejectedReached(maxFailed, k, n - 1, ps);
      ReachOn(maxFailed, k, State(n - 1, false, 0, ps + [Wrong]), Hit(n - 1));
      assert (ps + [Wrong])[n - 1 := Done] == Fill(Done, n);
    }
  }

  /** `n` attempts in flight, their passwords rejected, none of them counted yet. */
  lemma {:induction false} VolleyReached(maxFailed: nat, k: nat, n: nat)
    requires 0 < k && n <= k
    ensures Reached(maxFailed, k, State(maxFailed, false, 0, Fill(Done, maxFailed) + Fill(Wrong, n)))
    decreases n
  {
    if n == 0 {
      FailuresReached(maxFailed, k, maxFailed);
      assert Fill(Done, maxFailed) + Fill(Wrong, 0) == Fill(Done, maxFailed);
    } else {
      VolleyReached(maxFailed, k, n - 1);
      var ps := Fill(Done, maxFailed) + Fill(Wrong, n - 1);
      NoneInFlight(maxFailed);
      CountFill(Fill(Done, maxFailed), Wrong, n - 1, {Tested, Wrong, Over, Right});
      RejectedReached(maxFailed, k, maxFailed, ps);
      assert ps + [Wrong] == Fill(Done, maxFailed) + Fill(Wrong, n);
    }
  }

  /** `n` of the k attempts in flight have been counted. */
  lemma {:induction false} VolleyCounted(maxFailed: nat, k: nat, n: nat)
    requires 0 < k && n <= k
    ensures Reached(maxFailed, k,
              State(maxFailed + n, false, 0, Fill(Done, maxFailed) + Fill(Over, n) + Fill(Wrong, k - n)))
    decreases n
  {
    if n == 0 {
      VolleyReached(maxFailed, k, k);
      assert Fill(Done, maxFailed) + Fill(Over, 0) + Fill(Wrong, k) == Fill(Done, maxFailed) + Fill(Wrong, k);
    } else {
      VolleyCounted(maxFailed, k, n - 1);
      var ps := Fill(Done, maxFailed) + Fill(Over, n - 1) + Fill(Wrong, k - (n - 1));
      var i := maxFailed + (n - 1);
      assert ps[i] == Wrong;
      ReachOn(maxFailed, k, State(maxFailed + (n - 1), false, 0, ps), Hit(i));
      assert ps[i := Over] == Fill(Done, maxFailed) + Fill(Over, n) + Fill(Wrong, k - n);
    }
  }

  /** k attempts that look at the same time take the counter to max_failed + k. */
  lemma BoundReached(maxFailed: nat, k: nat)
    requires k > 0
    ensures exists s :: Reached(maxFailed, k, s) && s.count == maxFailed + k
  {
    VolleyCounted(maxFailed, k, k);
  }

  /** "At most max_failed + 1" holds in every run exactly when attempts do not overlap. */
  lemma SequentialBoundExactly(maxFailed: nat, k: nat)
    ensures BoundedByOneMore(maxFailed, k) <==> k <= 1
  {
    if k <= 1 {
      forall steps ensures Run(Start(), maxFailed, k, steps).count <= maxFailed + 1 {
        RunKeepsValid(Start(), maxFailed, k, steps);
        FlightParts(Run(Start(), maxFailed, k, steps).attempts);
      }
    } else {
      BoundReached(maxFailed, k);
      var s :| Reached(maxFailed, k, s) && s.count == maxFailed + k;
      var steps :| Run(Start(), maxFailed, k, steps) == s;
      assert Run(Start(), maxFailed, k, steps).count > maxFailed + 1;
    }
  }

  ghost predicate BoundedByOneMore(maxFailed: nat, k: nat) {
    forall steps :: Run(Start(), maxFailed, k, steps).count <= maxFailed + 1
  }

  /** Further attempts look while one with a rejected password is still to be counted. */
  lemma {:induction false} LookersReached(maxFailed: nat, k: nat, n: nat)
    requires 0 < k && n < k
    ensures Reached(maxFailed, k,
              State(maxFailed, false, 0, Fill(Done, maxFailed) + [Wrong] + Fill(Tested, n)))
    decreases n
  {
    var flight := {Tested, Wrong, Over, Right};
    var base := Fill(Done, maxFailed);
    NoneInFlight(maxFailed);
    if n == 0 {
      FailuresReached(maxFailed, k, maxFailed);
      RejectedReached(maxFailed, k, maxFailed, base);
      assert base + [Wrong] + Fill(Tested, 0) == base + [Wrong];
    } else {
      LookersReached(maxFailed, k, n - 1);
      CountSnoc(base, Wrong, flight);
      CountFill(base + [Wrong], Tested, n - 1, flight);
      ReachOn(maxFailed, k, State(maxFailed, false, 0, base + [Wrong] + Fill(Tested, n - 1)), Arrive);
      assert base + [Wrong] + Fill(Tested, n - 1) + [Tested] == base + [Wrong] + Fill(Tested, n);
    }
  }

  /** The lock is on, and `n` of those that had looked before have had their password checked after it. */
  lemma {:induction false} LateChecksReached(maxFailed: nat, k: nat, n: nat)
    requires 0 < k && n < k
    ensures Reached(maxFailed, k,
              State(maxFailed + 1, true, n, Fill(Done, maxFailed) + [Done] + Fill(Wrong, n) + Fill(Tested, k - 1 - n)))
    decreases n
  {
    var base := Fill(Done, maxFailed);
    if n == 0 {
      LookersReached(maxFailed, k, k - 1);
      var ps := base + [Wrong] + Fill(Tested, k - 1);
      ReachOn(maxFailed, k, State(maxFailed, false, 0, ps), Hit(maxFailed));
      ReachOn(maxFailed, k, State(maxFailed + 1, false, 0, ps[maxFailed := Over]), Lock(maxFailed));
      assert ps[maxFailed := Over][maxFailed := Done] == base + [Done] + Fill(Wrong, 0) + Fill(Tested, k - 1);
    } else {
      LateChecksReached(maxFailed, k, n - 1);
      var ps, i := base + [Done] + Fill(Wrong, n - 1) + Fill(Tested, k - n), maxFailed + n;
      assert ps[i] == Tested;
      ReachOn(maxFailed, k, State(maxFailed + 1, true, n - 1, ps), Check(i, Rejected));
      assert ps[i := Wrong] == base + [Done] + Fill(Wrong, n) + Fill(Tested, k - 1 - n);
    }
  }

  /** k - 1 passwords can be checked after the lock. */
  lemma LateBoundReached(maxFailed: nat, k: nat)
    requires k > 0
    ensures exists s :: Reached(maxFailed, k, s) && s.late == k - 1
  {
    LateChecksReached(maxFailed, k, k - 1);
  }
}
