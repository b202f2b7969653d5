/**
  The lockout logic of `AuthenticationService.login` (accounts/services/authentication.py) over the
  limiter contract of accounts/services/interfaces.py, as the in-memory limiter of conftest.py keeps
  it: counters never expire and a cooldown, once started, stays.  The credential store enters as the
  outcome of the password check.
*/
module LoginLockout {
  import opened Options
  import opened Text

  datatype Account = Account(active: bool, deleted: bool)

  /** `password` is what was submitted; `user` is what `authenticate` would return for it. */
  datatype Attempt = Attempt(email: string, username: string, phone: string, password: string, user: Option<Account>)

  datatype Result =
    | LoggedIn
    | ValidationError
    | AccountLocked
    | AuthenticationError
    | AccountInactive

  datatype Limiter = Limiter(counts: map<string, nat>, cooldowns: set<string>)

  /** What one call did: its result and whether the password was checked. */
  datatype Outcome = Outcome(limiter: Limiter, result: Result, checked: bool)

  /** An empty string stands for an absent field, as in `email or username or phone_number or ""`. */
  function Identifier(a: Attempt): string {
    if a.email != "" then Lower(Strip(a.email))
    else if a.username != "" then Strip(a.username)
    else Strip(a.phone)
  }

  function KeyOf(identifier: string): string { "login:" + identifier }

  function CountOf(l: Limiter, key: string): nat { if key in l.counts then l.counts[key] else 0 }

  function Login(l: Limiter, maxFailed: nat, a: Attempt): Outcome {
    var identifier := Identifier(a);
    var key := KeyOf(identifier);
    if identifier == "" || a.password == "" then Outcome(l, ValidationError, false)
    else if key in l.cooldowns then Outcome(l, AccountLocked, false)
    else
      match a.user
      case None =>
        var n := CountOf(l, key) + 1;
        var l' := l.(counts := l.counts[key := n]);
        if n <= maxFailed then Outcome(l', AuthenticationError, true)
        else Outcome(l'.(cooldowns := l.cooldowns + {key}), AccountLocked, true)
      case Some(u) =>
        if !u.active then Outcome(l, AccountInactive, true)
        else if u.deleted then Outcome(l, AuthenticationError, true)
        else Outcome(l.(counts := l.counts - {key}), LoggedIn, true)
  }

  class AuthenticationService {
    const maxFailed: nat
    var counts: map<string, nat>
    var cooldowns: set<string>

    constructor (maxFailed: nat)
      ensures this.maxFailed == maxFailed && View() == Limiter(map[], {})
    {
      this.maxFailed := maxFailed;
      counts, cooldowns := map[], {};
    }

    function View(): Limiter
      reads this
    {
      Limiter(counts, cooldowns)
    }

    method Hit(key: string, limit: nat) returns (allowed: bool, count: nat)
      modifies this`counts
      ensures count == CountOf(old(View()), key) + 1 && allowed == (count <= limit)
      ensures counts == old(counts)[key := count]
    {
      count := (if key in counts then counts[key] else 0) + 1;
      counts := counts[key := count];
      allowed := count <= limit;
    }

    method Attempted(a: Attempt) returns (result: Result, checked: bool)
      modifies this
      ensures Outcome(View(), result, checked) == Login(old(View()), maxFailed, a)
    {
      var identifier := Identifier(a);
      if identifier == "" || a.password == "" { return ValidationError, false; }
      var key := KeyOf(identifier);
      if key in cooldowns { return AccountLocked, false; }
      if a.user.None? {
        var allowed, _ := Hit(key, maxFailed);
        if !allowed {
          cooldowns := cooldowns + {key};
          return AccountLocked, true;
        }
        return AuthenticationError, true;
      }
      if !a.user.value.active { return AccountInactive, true; }
      if a.user.value.deleted { return AuthenticationError, true; }
      counts := counts - {key};
      return LoggedIn, true;
    }
  }

  // ---- runs of attempts ----------------------------------------------------------

  function After(l: Limiter, maxFailed: nat, attempts: seq<Attempt>): Limiter
    decreases |attempts|
  {
    if attempts == [] then l
    else Login(After(l, maxFailed, attempts[..|attempts| - 1]), maxFailed, attempts[|attempts| - 1]).limiter
  }

  function LimiterAfter(maxFailed: nat, attempts: seq<Attempt>): Limiter
  {
    After(Limiter(map[], {}), maxFailed, attempts)
  }

  /** The wrong passwords of `identifier` since its last success, told from the attempts alone.  An attempt
      counts for nothing when identifier or password is missing, or once max_failed + 1 failures are reached;
      a right password ends the series only for an account that is active and not deleted. */
  function FailuresSinceSuccess(maxFailed: nat, attempts: seq<Attempt>, identifier: string): nat
    decreases |attempts|
  {
    if attempts == [] then 0
    else
      var before := FailuresSinceSuccess(maxFailed, attempts[..|attempts| - 1], identifier);
      var a := attempts[|attempts| - 1];
      if Identifier(a) != identifier || identifier == "" || a.password == "" || before > maxFailed then before
      else if a.user.None? then before + 1
      else if a.user.value.active && !a.user.value.deleted then 0
      else before
  }

  /** The identifier has failed once more than allowed without a success in between. */
  predicate WasLocked(maxFailed: nat, attempts: seq<Attempt>, identifier: string) {
    FailuresSinceSuccess(maxFailed, attempts, identifier) > maxFailed
  }

  lemma KeyInjective(x: string, y: string)
    ensures KeyOf(x) == KeyOf(y) ==> x == y
  {
    assert KeyOf(x)[6..] == x && KeyOf(y)[6..] == y;
  }

  /** One attempt on a counter that is in step with its lock. */
  lemma AttemptCounts(l: Limiter, maxFailed: nat, a: Attempt)
    requires var n := CountOf(l, KeyOf(Identifier(a)));
             n <= maxFailed + 1 && (KeyOf(Identifier(a)) in l.cooldowns <==> n == maxFailed + 1)
    ensures var key, o := KeyOf(Identifier(a)), Login(l, maxFailed, a);
            var n, n' := CountOf(l, key), CountOf(o.limiter, key);
            && n' == (if Identifier(a) == "" || a.password == "" || n > maxFailed then n
                      else if a.user.None? then n + 1
                      else if a.user.value.active && !a.user.value.deleted then 0
                      else n)
            && n' <= maxFailed + 1 && (key in o.limiter.cooldowns <==> n' == maxFailed + 1)
  {}

  /** The counter is the number of failures since the last success, it stops one above the limit,
      and the identifier is cooling down exactly when the counter has gone above the limit. */
  lemma {:induction false} CounterMeaning(maxFailed: nat, attempts: seq<Attempt>, identifier: string)
    ensures var l := LimiterAfter(maxFailed, attempts);
            var n := CountOf(l, KeyOf(identifier));
            && n == FailuresSinceSuccess(maxFailed, attempts, identifier)
            && n <= maxFailed + 1
            && (KeyOf(identifier) in l.cooldowns <==> n == maxFailed + 1)
            && (WasLocked(maxFailed, attempts, identifier) <==> n == maxFailed + 1)
    decreases |attempts|
  {
    if attempts != [] {
      var init, a := attempts[..|attempts| - 1], attempts[|attempts| - 1];
      CounterMeaning(maxFailed, init, identifier);
      if Identifier(a) == identifier { AttemptCounts(LimiterAfter(maxFailed, init), maxFailed, a); }
      else { OtherAttemptAgrees(LimiterAfter(maxFailed, init), maxFailed, a, identifier); }
    }
  }

  /** How each attempt of a run is answered, and what it leaves: a success is an active, undeleted account with
      the right password under an identifier that is not locked, and nothing else resets a counter. */
  lemma AnsweredExactly(maxFailed: nat, attempts: seq<Attempt>, a: Attempt)
    ensures var id, l := Identifier(a), LimiterAfter(maxFailed, attempts);
            var o, n := Login(l, maxFailed, a), FailuresSinceSuccess(maxFailed, attempts, id);
            if id == "" || a.password == "" then o.result == ValidationError && o.limiter == l && !o.checked
            else if n > maxFailed then o.result == AccountLocked && o.limiter == l && !o.checked
            else
              && o.checked
              && match a.user
                 case None =>
                   && o.result == (if n == maxFailed then AccountLocked else AuthenticationError)
                   && CountOf(o.limiter, KeyOf(id)) == n + 1
                   && (KeyOf(id) in o.limiter.cooldowns <==> n == maxFailed)
                 case Some(u) =>
                   && (o.result == LoggedIn <==> u.active && !u.deleted)
                   && (o.result == LoggedIn ==> CountOf(o.limiter, KeyOf(id)) == 0)
                   && (!u.active ==> o.result == AccountInactive && o.limiter == l)
                   && (u.active && u.deleted ==> o.result == AuthenticationError && o.limiter == l)
  {
    CounterMeaning(maxFailed, attempts, Identifier(a));
  }

  /** Spellings of one email that differ in case or in padding share a counter. */
  lemma SpellingsShareCounter(a: Attempt, email: string, c: char)
    requires email != "" && IsSpace(c)
    ensures Identifier(a.(email := Upper(email))) == Identifier(a.(email := email))
    ensures Identifier(a.(email := [c] + email)) == Identifier(a.(email := email))
    ensures Identifier(a.(email := email + [c])) == Identifier(a.(email := email))
  {
    StripPadding(email, c);
    StripUpper(email);
    LowerOfUpper(Strip(email));
  }

  /** The first of email, user name and phone number that is given identifies the attempt; what is already
      stripped, and an email already in lower case, identifies itself. */
  lemma FirstGivenIdentifies(a: Attempt, username: string, phone: string)
    ensures a.email != "" ==> Identifier(a.(username := username, phone := phone)) == Identifier(a)
    ensures a.email == "" && a.username != "" ==> Identifier(a.(phone := phone)) == Identifier(a)
    ensures a.email != "" && Stripped(a.email) && (forall c | c in a.email :: !('A' <= c <= 'Z')) ==>
              Identifier(a) == a.email
    ensures a.email == "" && a.username != "" && Stripped(a.username) ==> Identifier(a) == a.username
    ensures a.email == "" && a.username == "" && Stripped(a.phone) ==> Identifier(a) == a.phone
  {
    StripShape(a.email);
    StripShape(a.username);
    StripShape(a.phone);
    if forall c | c in a.email :: !('A' <= c <= 'Z') {
      forall i | 0 <= i < |a.email| ensures Lower(a.email)[i] == a.email[i] { assert a.email[i] in a.email; }
    }
  }

  /** Once locked, no later attempt for the identifier reaches the password check, not even a right one. */
  lemma NoCheckOnceLocked(maxFailed: nat, attempts: seq<Attempt>, a: Attempt)
    requires WasLocked(maxFailed, attempts, Identifier(a))
    ensures var o := Login(LimiterAfter(maxFailed, attempts), maxFailed, a);
            !o.checked && o.limiter == LimiterAfter(maxFailed, attempts)
            && o.result == (if Identifier(a) == "" || a.password == "" then ValidationError else AccountLocked)
  {
    CounterMeaning(maxFailed, attempts, Identifier(a));
  }

  /** The attempt that locks is the failure number maxFailed + 1 since the last success. */
  lemma LocksExactlyAfter(maxFailed: nat, attempts: seq<Attempt>, a: Attempt)
    requires Identifier(a) != "" && a.password != "" && !WasLocked(maxFailed, attempts, Identifier(a))
    ensures WasLocked(maxFailed, attempts + [a], Identifier(a)) <==>
            a.user.None? && FailuresSinceSuccess(maxFailed, attempts, Identifier(a)) == maxFailed
  {
    CounterMeaning(maxFailed, attempts, Identifier(a));
    assert (attempts + [a])[..|attempts|] == attempts;
  }

  function Only(attempts: seq<Attempt>, identifier: string): seq<Attempt>
    decreases |attempts|
  {
    if attempts == [] then []
    else
      var a := attempts[|attempts| - 1];
      Only(attempts[..|attempts| - 1], identifier) + if Identifier(a) == identifier then [a] else []
  }

  predicate Agree(l: Limiter, m: Limiter, key: string) {
    CountOf(l, key) == CountOf(m, key) && (key in l.cooldowns <==> key in m.cooldowns)
  }

  lemma SameAttemptAgrees(l: Limiter, m: Limiter, maxFailed: nat, a: Attempt)
    requires Agree(l, m, KeyOf(Identifier(a)))
    ensures Agree(Login(l, maxFailed, a).limiter, Login(m, maxFailed, a).limiter, KeyOf(Identifier(a)))
  {}

  lemma OtherAttemptAgrees(l: Limiter, maxFailed: nat, a: Attempt, identifier: string)
    requires Identifier(a) != identifier
    ensures Agree(Login(l, maxFailed, a).limiter, l, KeyOf(identifier))
  {
    KeyInjective(identifier, Identifier(a));
  }

  /** Attempts for other identifiers leave this one exactly where it was. */
  lemma {:induction false} OthersUnaffected(maxFailed: nat, attempts: seq<Attempt>, identifier: string)
    ensures Agree(LimiterAfter(maxFailed, attempts),
                  LimiterAfter(maxFailed, Only(attempts, identifier)), KeyOf(identifier))
    decreases |attempts|
  {
    if attempts != [] {
      var init, a := attempts[..|attempts| - 1], attempts[|attempts| - 1];
      OthersUnaffected(maxFailed, init, identifier);
      if Identifier(a) == identifier {
        assert Only(attempts, identifier)[..|Only(init, identifier)|] == Only(init, identifier);
        SameAttemptAgrees(LimiterAfter(maxFailed, init), LimiterAfter(maxFailed, Only(init, identifier)), maxFailed, a);
      } else {
        assert Only(attempts, identifier) == Only(init, identifier);
        OtherAttemptAgrees(LimiterAfter(maxFailed, init), maxFailed, a, identifier);
      }
    }
  }
}
