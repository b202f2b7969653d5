/**
  The user-list cache of accounts/cache.py, accounts/signals.py and `UserListView.get`:
  every entry's key carries a version, and every saved row bumps the version afterwards.
  Requests and saves interleave step by step.  A response is known by the number of commits its
  rows reflect (`asOf`); hashes of query strings are taken as injective.
*/
module ListCache {
  import opened Options

  datatype Phase = Initialising | Looking | Missed | Loaded | Answered

  /** One request; `readAt` is the step at which it learnt its version. */
  datatype Reader = Reader(query: nat, version: nat, readAt: nat, phase: Phase, asOf: nat)

  /** One save; its post_save handler has run when `bumpedAt` is set. */
  datatype Writer = Writer(commit: nat, missed: bool, bumpedAt: Option<nat>, bumpedTo: nat)

  datatype Cache = Cache(version: Option<nat>, entries: map<(nat, nat), nat>)

  datatype State = State(clock: nat, commits: nat, cache: Cache, readers: seq<Reader>, writers: seq<Writer>)

  datatype Step =
    | Open(query: nat)       // _get_list_version: cache.get
    | Initialise(reader: nat) // _get_list_version: cache.set(.., 1)
    | Look(reader: nat)      // cache.get(cache_key)
    | Load(reader: nat)      // the database query
    | Store(reader: nat)     // cache.set(cache_key, ..)
    | Save                   // a row is committed
    | Bump(writer: nat)      // bump_list_version: cache.incr
    | BumpMissing(writer: nat) // bump_list_version: cache.set(.., 2) after ValueError
    | Expire(version: nat, query: nat)
    | LoseVersion            // the version key itself disappears

  function Advance(s: State, step: Step): State {
    match step
    case Open(q) =>
      var r := if s.cache.version.Some? then Reader(q, s.cache.version.value, s.clock, Looking, 0)
               else Reader(q, 1, s.clock, Initialising, 0);
      s.(readers := s.readers + [r])
    case Initialise(r) =>
      if r < |s.readers| && s.readers[r].phase == Initialising
      then s.(cache := s.cache.(version := Some(1)),
              readers := s.readers[r := s.readers[r].(readAt := s.clock, phase := Looking)])
      else s
    case Look(r) =>
      if r < |s.readers| && s.readers[r].phase == Looking then
        var rd := s.readers[r];
        var key := (rd.version, rd.query);
        s.(readers := s.readers[r := if key in s.cache.entries then rd.(phase := Answered, asOf := s.cache.entries[key])
                                     else rd.(phase := Missed)])
      else s
    case Load(r) =>
      if r < |s.readers| && s.readers[r].phase == Missed
      then s.(readers := s.readers[r := s.readers[r].(phase := Loaded, asOf := s.commits)]) else s
    case Store(r) =>
      if r < |s.readers| && s.readers[r].phase == Loaded then
        var rd := s.readers[r];
        s.(cache := s.cache.(entries := s.cache.entries[(rd.version, rd.query) := rd.asOf]),
           readers := s.readers[r := rd.(phase := Answered)])
      else s
    case Save => s.(commits := s.commits + 1, writers := s.writers + [Writer(s.commits + 1, false, None, 0)])
    case Bump(w) =>
      if w < |s.writers| && s.writers[w].bumpedAt.None? && !s.writers[w].missed then
        if s.cache.version.Some? then
          var v := s.cache.version.value + 1;
          s.(cache := s.cache.(version := Some(v)),
             writers := s.writers[w := s.writers[w].(bumpedAt := Some(s.clock), bumpedTo := v)])
        else s.(writers := s.writers[w := s.writers[w].(missed := true)])
      else s
    case BumpMissing(w) =>
      if w < |s.writers| && s.writers[w].bumpedAt.None? && s.writers[w].missed
      then s.(cache := s.cache.(version := Some(2)),
              writers := s.writers[w := s.writers[w].(bumpedAt := Some(s.clock), bumpedTo := 2)])
      else s
    case Expire(v, q) => s.(cache := s.cache.(entries := s.cache.entries - {(v, q)}))
    case LoseVersion => s.(cache := s.cache.(version := None))
  }

  function Apply(s: State, step: Step): State {
    Advance(s, step).(clock := s.clock + 1)
  }

  function Run(s: State, steps: seq<Step>): State
    decreases |steps|
  {
    if steps == [] then s else Run(Apply(s, steps[0]), steps[1..])
  }

  predicate HasData(r: Reader) { r.phase == Loaded || r.phase == Answered }

  /** The reader learnt its version after the writer's bump. */
  predicate After(r: Reader, w: Writer) {
    r.phase != Initialising && w.bumpedAt.Some? && w.bumpedAt.value < r.readAt
  }

  /** Whoever reads the version after a save's bump is answered with rows that reflect the save. */
  predicate Fresh(s: State) {
    forall r, w | 0 <= r < |s.readers| && 0 <= w < |s.writers| ::
      s.readers[r].phase == Answered && After(s.readers[r], s.writers[w]) ==> s.writers[w].commit <= s.readers[r].asOf
  }

  // ---- invariant -------------------------------------------------------------

  predicate WritersKnown(s: State, version: nat) {
    forall w | 0 <= w < |s.writers| ::
      && s.writers[w].commit <= s.commits
      && (s.writers[w].bumpedAt.Some? ==> s.writers[w].bumpedTo <= version && s.writers[w].bumpedAt.value < s.clock)
  }

  predicate ReadersKnown(s: State, version: nat) {
    forall r | 0 <= r < |s.readers| ::
      s.readers[r].version <= version && s.readers[r].readAt < s.clock
  }

  predicate Covers(s: State, version: nat, asOf: nat) {
    forall w | 0 <= w < |s.writers| ::
      s.writers[w].bumpedAt.Some? && s.writers[w].bumpedTo <= version ==> s.writers[w].commit <= asOf
  }

  /** An entry under version v was loaded after v was current. */
  predicate EntriesCover(s: State, version: nat) {
    forall key | key in s.cache.entries :: key.0 <= version && Covers(s, key.0, s.cache.entries[key])
  }

  predicate ReadersCover(s: State) {
    forall r | 0 <= r < |s.readers| && HasData(s.readers[r]) :: Covers(s, s.readers[r].version, s.readers[r].asOf)
  }

  predicate BumpOrder(s: State) {
    forall r, w | 0 <= r < |s.readers| && 0 <= w < |s.writers| ::
      After(s.readers[r], s.writers[w]) ==> s.writers[w].bumpedTo <= s.readers[r].version
  }

  /** What is cached and what requests have read goes back to the versions as they were bumped. */
  predicate Consistent(s: State) {
    s.cache.version.Some? ==>
      var v := s.cache.version.value;
      WritersKnown(s, v) && ReadersKnown(s, v) && EntriesCover(s, v) && ReadersCover(s) && BumpOrder(s)
  }

  /** The version key exists, and nobody who found it missing is still about to set it. */
  predicate Settled(s: State) {
    && s.cache.version.Some?
    && (forall r | 0 <= r < |s.readers| :: s.readers[r].phase != Initialising)
    && (forall w | 0 <= w < |s.writers| :: s.writers[w].missed ==> s.writers[w].bumpedAt.Some?)
  }

  predicate Valid(s: State) { Settled(s) && Consistent(s) }

  /** Replacing one reader by one that knows no more than the cache or the database keeps the invariant. */
  lemma ReplaceReader(s: State, r: nat, rd: Reader)
    requires Valid(s) && r < |s.readers| && s.readers[r].phase != Initialising
    requires rd.version == s.readers[r].version && rd.readAt == s.readers[r].readAt && rd.phase != Initialising
    requires HasData(rd) ==> Covers(s, rd.version, rd.asOf)
    ensures Valid(s.(readers := s.readers[r := rd], clock := s.clock + 1))
  {
    var s' := s.(readers := s.readers[r := rd], clock := s.clock + 1);
    assert forall version: nat, asOf: nat :: Covers(s', version, asOf) == Covers(s, version, asOf);
    forall x, w | 0 <= x < |s'.readers| && 0 <= w < |s'.writers| && After(s'.readers[x], s'.writers[w])
      ensures s'.writers[w].bumpedTo <= s'.readers[x].version
    {
      assert After(s.readers[x], s.writers[w]);
    }
  }

  lemma TickKeepsValid(s: State)
    requires Valid(s)
    ensures Valid(s.(clock := s.clock + 1))
  {
    var s' := s.(clock := s.clock + 1);
    assert forall version: nat, asOf: nat :: Covers(s', version, asOf) == Covers(s, version, asOf);
  }

  lemma OpenKeepsValid(s: State, q: nat)
    requires Valid(s)
    ensures Valid(Apply(s, Open(q)))
  {
    var s' := Apply(s, Open(q));
    assert forall version: nat, asOf: nat :: Covers(s', version, asOf) == Covers(s, version, asOf);
  }

  lemma StoreKeepsValid(s: State, r: nat)
    requires Valid(s) && r < |s.readers| && s.readers[r].phase == Loaded
    ensures Valid(Apply(s, Store(r)))
  {
    var rd := s.readers[r];
    var s1 := s.(cache := s.cache.(entries := s.cache.entries[(rd.version, rd.query) := rd.asOf]));
    assert forall version: nat, asOf: nat :: Covers(s1, version, asOf) == Covers(s, version, asOf);
    assert Covers(s, rd.version, rd.asOf);
    ReplaceReader(s1, r, rd.(phase := Answered));
  }

  lemma ReaderStepKeepsValid(s: State, step: Step)
    requires Valid(s) && (step.Look? || step.Load? || step.Store? || step.Open? || step.Initialise?)
    ensures Valid(Apply(s, step))
  {
    if Advance(s, step) == s { TickKeepsValid(s); return; }
    match step
    case Open(q) => OpenKeepsValid(s, q);
    case Look(r) =>
      var key := (s.readers[r].version, s.readers[r].query);
      if key in s.cache.entries { assert Covers(s, key.0, s.cache.entries[key]); }
      ReplaceReader(s, r, Advance(s, step).readers[r]);
    case Load(r) =>
      assert Covers(s, s.readers[r].version, s.commits);
      ReplaceReader(s, r, Advance(s, step).readers[r]);
    case Store(r) => StoreKeepsValid(s, r);
    case Initialise(r) => assert false;
  }

  lemma WriterStepKeepsValid(s: State, step: Step)
    requires Valid(s) && (step.Save? || step.Bump? || step.BumpMissing? || step.Expire?)
    ensures Valid(Apply(s, step))
  {
    var s', v := Apply(s, step), s.cache.version.value;
    assert forall version: nat, asOf: nat :: version <= v && Covers(s, version, asOf) ==> Covers(s', version, asOf);
  }

  lemma {:induction false} RunKeepsValid(s: State, steps: seq<Step>)
    requires Valid(s) && LoseVersion !in steps
    ensures Valid(Run(s, steps))
    decreases |steps|
  {
    if steps != [] {
      var step := steps[0];
      if step.Look? || step.Load? || step.Store? || step.Open? || step.Initialise? { ReaderStepKeepsValid(s, step); }
      else { WriterStepKeepsValid(s, step); }
      RunKeepsValid(Apply(s, step), steps[1..]);
    }
  }

  /** However requests and saves interleave, as long as the version key is not lost. */
  lemma AlwaysFresh(s: State, steps: seq<Step>)
    requires Valid(s) && LoseVersion !in steps
    ensures Fresh(Run(s, steps))
  {
    RunKeepsValid(s, steps);
    var s' := Run(s, steps);
    forall r, w | 0 <= r < |s'.readers| && 0 <= w < |s'.writers|
                    && s'.readers[r].phase == Answered && After(s'.readers[r], s'.writers[w])
      ensures s'.writers[w].commit <= s'.readers[r].asOf
    {
      assert Covers(s', s'.readers[r].version, s'.readers[r].asOf);
    }
  }

  // ---- a cold start ------------------------------------------------------------

  function Cold(c: nat, n: nat): State { State(c, n, Cache(None, map[]), [], []) }

  /** The step finds no version key and has yet to set one. */
  predicate FindsNoKey(s: State, step: Step) {
    && s.cache.version.None?
    && (step.Open? || (step.Bump? && step.writer < |s.writers| && s.writers[step.writer].bumpedAt.None?
                       && !s.writers[step.writer].missed))
  }

  function SetKey(s: State, step: Step): Step
    requires FindsNoKey(s, step)
  {
    if step.Open? then Initialise(|s.readers|) else BumpMissing(step.writer)
  }

  /** Whoever finds no version key sets it before anybody else moves. */
  predicate AtomicInit(s: State, steps: seq<Step>)
    decreases |steps|
  {
    if steps == [] then true
    else if !FindsNoKey(s, steps[0]) then AtomicInit(Apply(s, steps[0]), steps[1..])
    else |steps| == 1 || (steps[1] == SetKey(s, steps[0])
                          && AtomicInit(Apply(Apply(s, steps[0]), steps[1]), steps[2..]))
  }

  /** Nothing has been cached or asked for yet; rows may have been saved. */
  predicate Untouched(s: State) {
    && s.cache == Cache(None, map[]) && s.readers == []
    && forall w | 0 <= w < |s.writers| ::
         s.writers[w].commit <= s.commits && s.writers[w].bumpedAt.None? && !s.writers[w].missed
  }

  lemma KeyedIsValid(s: State, step: Step)
    requires Untouched(s) && FindsNoKey(s, step)
    ensures Valid(Apply(Apply(s, step), SetKey(s, step)))
  {
    var s' := Apply(Apply(s, step), SetKey(s, step));
    assert forall version: nat, asOf: nat | version <= 1 :: Covers(s', version, asOf);
  }

  lemma UntouchedStep(s: State, step: Step)
    requires Untouched(s) && !FindsNoKey(s, step)
    ensures Untouched(Apply(s, step))
  {
  }

  /** From an empty cache too, every response is fresh, when a missing version key is set atomically. */
  lemma {:induction false} ColdStartFresh(s: State, steps: seq<Step>)
    requires Untouched(s) && LoseVersion !in steps && AtomicInit(s, steps)
    ensures Fresh(Run(s, steps))
    decreases |steps|
  {
    if steps != [] {
      if !FindsNoKey(s, steps[0]) {
        UntouchedStep(s, steps[0]);
        ColdStartFresh(Apply(s, steps[0]), steps[1..]);
      } else if |steps| == 1 {
        assert Run(s, steps) == Apply(s, steps[0]);
      } else {
        KeyedIsValid(s, steps[0]);
        assert steps[1..][1..] == steps[2..];
        AlwaysFresh(Apply(Apply(s, steps[0]), steps[1]), steps[2..]);
      }
    }
  }

  // ---- exactly when every response stays fresh ---------------------------------------

  /** However the requests and saves go on, no response is ever outdated. */
  ghost predicate StaysFresh(s: State) {
    forall steps :: LoseVersion !in steps ==> Fresh(Run(s, steps))
  }

  lemma StaleBefore(s: State, step: Step)
    requires step != LoseVersion && !StaysFresh(Apply(s, step))
    ensures !StaysFresh(s)
  {
    var steps :| LoseVersion !in steps && !Fresh(Run(Apply(s, step), steps));
    assert LoseVersion !in [step] + steps;
    RunCons(s, step, steps);
  }

  lemma StaleNow(s: State)
    requires !Fresh(s)
    ensures !StaysFresh(s)
  {
    assert Run(s, []) == s && LoseVersion !in [];
  }

  /** Version v still has an entry from before a save whose bump is over. */
  predicate Outdated(s: State, v: nat, q: nat, w: nat) {
    && (v, q) in s.cache.entries && w < |s.writers| && s.writers[w].bumpedAt.Some?
    && s.writers[w].bumpedAt.value < s.clock && s.cache.entries[(v, q)] < s.writers[w].commit
  }

  lemma OutdatedServed(s: State, v: nat, q: nat, w: nat)
    requires Outdated(s, v, q, w) && s.cache.version == Some(v)
    ensures !StaysFresh(s)
  {
    var n := |s.readers|;
    var s1 := Apply(s, Open(q));
    var s2 := Apply(s1, Look(n));
    assert s1.readers[n] == Reader(q, v, s.clock, Looking, 0);
    assert s2.readers[n].phase == Answered && After(s2.readers[n], s2.writers[w]);
    StaleNow(s2);
    StaleBefore(s1, Look(n));
    StaleBefore(s, Open(q));
  }

  /** Below an outdated version, saves bring the version up to it again. */
  lemma {:induction false} OutdatedReachedAgain(s: State, v: nat, q: nat, w: nat)
    requires Outdated(s, v, q, w) && s.cache.version.Some? && s.cache.version.value <= v
    ensures !StaysFresh(s)
    decreases v - s.cache.version.value
  {
    if s.cache.version.value == v {
      OutdatedServed(s, v, q, w);
    } else {
      var n := |s.writers|;
      var s1 := Apply(s, Save);
      var s2 := Apply(s1, Bump(n));
      OutdatedReachedAgain(s2, v, q, w);
      StaleBefore(s1, Bump(n));
      StaleBefore(s, Save);
    }
  }

  /** The step sets the version key, to `v` or less, whatever it is by now. */
  predicate TurnsBack(s: State, step: Step, v: nat) {
    match step
    case Initialise(r) => r < |s.readers| && s.readers[r].phase == Initialising && 1 <= v
    case BumpMissing(w) => w < |s.writers| && s.writers[w].missed && s.writers[w].bumpedAt.None? && 2 <= v
    case _ => false
  }

  lemma TurnedBack(s: State, step: Step, v: nat, q: nat, w: nat)
    requires Outdated(s, v, q, w) && TurnsBack(s, step, v)
    ensures !StaysFresh(s)
  {
    OutdatedReachedAgain(Apply(s, step), v, q, w);
    StaleBefore(s, step);
  }

  /** One request fills the cache under the current version and one save makes the entry outdated. */
  lemma EntryMadeOutdated(s: State, step: Step, v: nat)
    requires s.cache.version == Some(v) && TurnsBack(s, step, v)
    ensures !StaysFresh(s)
  {
    var n, m := |s.readers|, |s.writers|;
    var s1 := Apply(s, Expire(v, 0));
    var s2 := Apply(s1, Open(0));
    var s3 := Apply(s2, Look(n));
    assert s3.readers[n] == Reader(0, v, s1.clock, Missed, 0);
    var s4 := Apply(s3, Load(n));
    var s5 := Apply(s4, Store(n));
    assert s5.cache.entries[(v, 0)] == s.commits && s5.commits == s.commits && s5.writers == s.writers;
    assert TurnsBack(s5, step, v);
    OutdatedBySave(s5, step, v);
    StaleBefore(s4, Store(n));
    StaleBefore(s3, Load(n));
    StaleBefore(s2, Look(n));
    StaleBefore(s1, Open(0));
    StaleBefore(s, Expire(v, 0));
  }

  lemma OutdatedBySave(s: State, step: Step, v: nat)
    requires s.cache.version.Some? && TurnsBack(s, step, v)
    requires (v, 0) in s.cache.entries && s.cache.entries[(v, 0)] <= s.commits
    ensures !StaysFresh(s)
  {
    var m := |s.writers|;
    var s1 := Apply(s, Save);
    var s2 := Apply(s1, Bump(m));
    TurnedBack(s2, step, v, 0, m);
    StaleBefore(s1, Bump(m));
    StaleBefore(s, Save);
  }

  /** Whoever is late to set the key can do harm whatever the version is: saves take it far enough first. */
  lemma {:induction false} LateSetServesStale(s: State, step: Step, spare: nat)
    requires s.cache.version.Some? && TurnsBack(s, step, s.cache.version.value + spare)
    ensures !StaysFresh(s)
    decreases spare
  {
    if TurnsBack(s, step, s.cache.version.value) {
      EntryMadeOutdated(s, step, s.cache.version.value);
    } else {
      var n := |s.writers|;
      var s1 := Apply(s, Save);
      var s2 := Apply(s1, Bump(n));
      LateSetServesStale(s2, step, spare - 1);
      StaleBefore(s1, Bump(n));
      StaleBefore(s, Save);
    }
  }

  /** Two requests that find no key are enough. */
  lemma MissingKeyServesStale(s: State)
    requires s.cache.version.None?
    ensures !StaysFresh(s)
  {
    var n := |s.readers|;
    var s1 := Apply(s, Open(0));
    var s2 := Apply(s1, Open(0));
    var s3 := Apply(s2, Initialise(n + 1));
    assert s3.cache.version == Some(1) && s3.readers[n].phase == Initialising;
    LateSetServesStale(s3, Initialise(n), 0);
    StaleBefore(s2, Initialise(n + 1));
    StaleBefore(s1, Open(0));
    StaleBefore(s, Open(0));
  }

  /** From a consistent state all future responses are fresh if and only if the version key is there and
      nobody who once found it missing has yet to set it. */
  lemma FreshExactly(s: State)
    requires Consistent(s)
    ensures StaysFresh(s) <==> Settled(s)
  {
    if Settled(s) {
      forall steps | LoseVersion !in steps ensures Fresh(Run(s, steps)) { AlwaysFresh(s, steps); }
    } else if s.cache.version.None? {
      MissingKeyServesStale(s);
    } else if r :| 0 <= r < |s.readers| && s.readers[r].phase == Initialising {
      LateSetServesStale(s, Initialise(r), 1);
    } else {
      var w :| 0 <= w < |s.writers| && s.writers[w].missed && s.writers[w].bumpedAt.None?;
      LateSetServesStale(s, BumpMissing(w), 2);
    }
  }

  // ---- the race from a cold cache ------------------------------------------------

  /** A request that is between the get and the set of `_get_list_version`, while version 1 already
      has an entry: its set turns the version back, and the old entry is served again. */
  predicate AboutToTurnBack(s: State, r: nat, q: nat, w: nat) {
    s.cache.version.Some? && Outdated(s, 1, q, w) && TurnsBack(s, Initialise(r), 1)
  }

  lemma RunCons(s: State, step: Step, rest: seq<Step>)
    ensures Run(s, [step] + rest) == Run(Apply(s, step), rest)
  {
    assert ([step] + rest)[1..] == rest;
  }

  lemma InitialisationRaceServesStale(s: State, r: nat, q: nat, w: nat)
    requires AboutToTurnBack(s, r, q, w)
    ensures !Fresh(Run(s, [Initialise(r)] + ([Open(q)] + ([Look(|s.readers|)] + []))))
  {
    var n := |s.readers|;
    var s1 := Apply(s, Initialise(r));
    var s2 := Apply(s1, Open(q));
    var s3 := Apply(s2, Look(n));
    RunCons(s, Initialise(r), [Open(q)] + ([Look(n)] + []));
    RunCons(s1, Open(q), [Look(n)] + []);
    RunCons(s2, Look(n), []);
    assert s2.readers[n] == Reader(q, 1, s1.clock, Looking, 0);
    assert s3.readers[n].phase == Answered && s3.readers[n].asOf == s.cache.entries[(1, q)];
    assert After(s3.readers[n], s3.writers[w]) && s3.writers[w] == s.writers[w];
  }

  ghost predicate Reachable(s0: State, s: State) {
    exists steps :: LoseVersion !in steps && Run(s0, steps) == s
  }

  lemma {:induction false} RunSnoc(s: State, steps: seq<Step>, step: Step)
    ensures Run(s, steps + [step]) == Apply(Run(s, steps), step)
    decreases |steps|
  {
    if steps == [] { assert Run(s, [step]) == Run(Apply(s, step), []); }
    else {
      assert (steps + [step])[1..] == steps[1..] + [step];
      RunSnoc(Apply(s, steps[0]), steps[1..], step);
    }
  }

  lemma ReachOn(s0: State, s: State, step: Step)
    requires Reachable(s0, s) && step != LoseVersion
    ensures Reachable(s0, Apply(s, step))
  {
    var steps :| LoseVersion !in steps && Run(s0, steps) == s;
    RunSnoc(s0, steps, step);
    assert LoseVersion !in steps + [step];
  }

  lemma TwoInitialise(c: nat, n: nat)
    ensures Reachable(Cold(c, n), State(c + 4, n, Cache(Some(1), map[]),
                      [Reader(7, 1, c, Initialising, 0), Reader(7, 1, c + 2, Missed, 0)], []))
  {
    var s0 := Cold(c, n);
    assert Run(s0, []) == s0 && LoseVersion !in [];
    ReachOn(s0, s0, Open(7));
    var s1 := Apply(s0, Open(7));
    ReachOn(s0, s1, Open(7));
    var s2 := Apply(s1, Open(7));
    assert s2.readers == [Reader(7, 1, c, Initialising, 0), Reader(7, 1, c + 1, Initialising, 0)];
    ReachOn(s0, s2, Initialise(1));
    ReachOn(s0, Apply(s2, Initialise(1)), Look(1));
  }

  lemma OldEntryStored(c: nat, n: nat)
    ensures Reachable(Cold(c, n), State(c + 6, n, Cache(Some(1), map[(1, 7) := n]),
                      [Reader(7, 1, c, Initialising, 0), Reader(7, 1, c + 2, Answered, n)], []))
  {
    TwoInitialise(c, n);
    var s0 := Cold(c, n);
    var s := State(c + 4, n, Cache(Some(1), map[]),
                   [Reader(7, 1, c, Initialising, 0), Reader(7, 1, c + 2, Missed, 0)], []);
    ReachOn(s0, s, Load(1));
    ReachOn(s0, Apply(s, Load(1)), Store(1));
  }

  /** The race is reached from a cold cache by two requests and one save, without losing any key. */
  lemma RaceIsReachable(c: nat, n: nat)
    ensures exists s :: Reachable(Cold(c, n), s) && AboutToTurnBack(s, 0, 7, 0)
  {
    OldEntryStored(c, n);
    var s0 := Cold(c, n);
    var s := State(c + 6, n, Cache(Some(1), map[(1, 7) := n]),
                   [Reader(7, 1, c, Initialising, 0), Reader(7, 1, c + 2, Answered, n)], []);
    ReachOn(s0, s, Save);
    ReachOn(s0, Apply(s, Save), Bump(0));
    assert AboutToTurnBack(Apply(Apply(s, Save), Bump(0)), 0, 7, 0);
  }

  // ---- the functions as one request executes them ---------------------------------

  function Key(c: Cache, q: nat): (nat, nat) { (if c.version.Some? then c.version.value else 1, q) }

  /** One request alone: the cache it leaves and the commits its answer reflects. */
  function Serve(c: Cache, q: nat, commits: nat): (Cache, nat) {
    var key := Key(c, q);
    var c' := c.(version := Some(key.0));
    if key in c.entries then (c', c.entries[key]) else (c'.(entries := c.entries[key := commits]), commits)
  }

  class UserListCache {
    var version: Option<nat>
    var entries: map<(nat, nat), nat>

    constructor ()
      ensures View() == Cache(None, map[])
    {
      version, entries := None, map[];
    }

    function View(): Cache
      reads this
    {
      Cache(version, entries)
    }

    method GetListVersion() returns (v: nat)
      modifies this`version
      ensures v == Key(old(View()), 0).0 && version == Some(v)
    {
      match version
      case Some(n) => v := n;
      case None =>
        v := 1;
        version := Some(v);
    }

    method BumpListVersion()
      modifies this`version
      ensures version == Some(if old(version).Some? then old(version).value + 1 else 2)
    {
      if version.Some? { version := Some(version.value + 1); } else { version := Some(2); }
    }

    method GetUserList(q: nat, commits: nat) returns (asOf: nat)
      modifies this
      ensures (View(), asOf) == Serve(old(View()), q, commits)
    {
      var v := GetListVersion();
      if (v, q) in entries { return entries[(v, q)]; }
      asOf := commits;
      entries := entries[(v, q) := asOf];
    }
  }

  predicate AnsweredAs(s: State, outcome: (Cache, nat)) {
    s.cache == outcome.0 && |s.readers| == 1 && s.readers[0].phase == Answered && s.readers[0].asOf == outcome.1
  }

  /** Served alone, a request is answered as its steps in the concurrent model answer it. */
  lemma ServeIsRun(c: Cache, q: nat, commits: nat, clock: nat)
    requires c.version.Some?
    ensures exists s :: Reachable(State(clock, commits, c, [], []), s) && AnsweredAs(s, Serve(c, q, commits))
  {
    var s0 := State(clock, commits, c, [], []);
    assert Run(s0, []) == s0 && LoseVersion !in [];
    ReachOn(s0, s0, Open(q));
    var s1 := Apply(s0, Open(q));
    ReachOn(s0, s1, Look(0));
    var s2 := Apply(s1, Look(0));
    ReachOn(s0, s2, Load(0));
    var s3 := Apply(s2, Load(0));
    ReachOn(s0, s3, Store(0));
    var s4 := Apply(s3, Store(0));
    assert s4.readers[0].phase == Answered;
  }
}
