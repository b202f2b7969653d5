/**
  Read-through caches that are invalidated on save and expire after a TTL: the user-detail cache
  (accounts/views.py `UserDetailView.get`, TTL 3600, deleted by accounts/signals.py) and the map of
  settings (config/runtime.py `_db_values`, TTL 300, deleted by `invalidate_cache`).  A load that is
  under way when an invalidation runs stores its old value afterwards; this module bounds how old a
  served value can be.  `V` is what is cached, and `truth` what a query of the tables would give.
*/
module TimedCache {
  import opened Options

  /** A cached value with the request that loaded it. */
  datatype Entry<V> = Entry(value: V, start: int, storedAt: int)

  /** A request on its way from the miss to the set. */
  datatype Loader<V> = Missed(start: int) | Loaded(start: int, value: V) | Finished(start: int)

  /** A value handed out at time `at`, loaded by a request that ran from `start` to `storedAt`. */
  datatype Served<V> = Served(value: V, at: int, start: int, storedAt: int)

  datatype State<V> = State(now: int, truth: V, entry: Option<Entry<V>>, loaders: seq<Loader<V>>,
                            served: seq<Served<V>>, past: seq<(int, V)>)   // (time, truth) after every step

  datatype Step<V> =
    | Tick(seconds: nat)
    | Save(value: V)
    | Invalidate
    | Evict
    | Get
    | Load(loader: nat)
    | Store(loader: nat)

  function Advance<V>(s: State<V>, ttl: nat, step: Step<V>): State<V> {
    match step
    case Tick(d) => s.(now := s.now + d)
    case Save(v) => s.(truth := v)
    case Invalidate => s.(entry := None)
    case Evict => s.(entry := None)
    case Get =>
      if s.entry.Some? && s.now < s.entry.value.storedAt + ttl then
        var e := s.entry.value;
        s.(served := s.served + [Served(e.value, s.now, e.start, e.storedAt)])
      else s.(loaders := s.loaders + [Missed(s.now)])
    case Load(l) =>
      if l < |s.loaders| && s.loaders[l].Missed?
      then s.(loaders := s.loaders[l := Loaded(s.loaders[l].start, s.truth)]) else s
    case Store(l) =>
      if l < |s.loaders| && s.loaders[l].Loaded? then
        var ld := s.loaders[l];
        s.(entry := Some(Entry(ld.value, ld.start, s.now)), loaders := s.loaders[l := Finished(ld.start)],
           served := s.served + [Served(ld.value, s.now, ld.start, s.now)])
      else s
  }

  function Apply<V>(s: State<V>, ttl: nat, step: Step<V>): State<V> {
    var s' := Advance(s, ttl, step);
    s'.(past := s'.past + [(s'.now, s'.truth)])
  }

  function Run<V>(s: State<V>, ttl: nat, steps: seq<Step<V>>): State<V>
    decreases |steps|
  {
    if steps == [] then s else Run(Apply(s, ttl, steps[0]), ttl, steps[1..])
  }

  function Start<V>(now: int, truth: V): State<V> { State(now, truth, None, [], [], [(now, truth)]) }

  /** `value` was the saved value at some instant between the two times. */
  ghost predicate TrueWithin<V>(past: seq<(int, V)>, value: V, from: int, to: int) {
    exists i | 0 <= i < |past| :: past[i].1 == value && from <= past[i].0 <= to
  }

  ghost predicate Timely<V>(s: State<V>, ttl: nat, sv: Served<V>) {
    && sv.start <= sv.storedAt <= sv.at && (sv.at == sv.storedAt || sv.at < sv.storedAt + ttl)
    && TrueWithin(s.past, sv.value, sv.start, sv.storedAt)
  }

  ghost predicate Valid<V>(s: State<V>, ttl: nat) {
    && s.past != [] && s.past[|s.past| - 1] == (s.now, s.truth)
    && (s.entry.Some? ==> s.entry.value.start <= s.entry.value.storedAt <= s.now
                          && TrueWithin(s.past, s.entry.value.value, s.entry.value.start, s.entry.value.storedAt))
    && (forall l | 0 <= l < |s.loaders| :: s.loaders[l].start <= s.now
         && (s.loaders[l].Loaded? ==> TrueWithin(s.past, s.loaders[l].value, s.loaders[l].start, s.now)))
    && (forall k | 0 <= k < |s.served| :: Timely(s, ttl, s.served[k]))
  }

  lemma TrueWithinGrows<V>(past: seq<(int, V)>, more: seq<(int, V)>, value: V, from: int, to: int, later: int)
    requires TrueWithin(past, value, from, to) && to <= later
    ensures TrueWithin(past + more, value, from, later)
  {
    var i :| 0 <= i < |past| && past[i].1 == value && from <= past[i].0 <= to;
    assert (past + more)[i] == past[i];
  }

  /** The invariant survives any later snapshot. */
  lemma SnapshotKeepsValid<V>(s: State<V>, ttl: nat, s': State<V>)
    requires Valid(s, ttl) && s.now <= s'.now
    requires s'.past == s.past + [(s'.now, s'.truth)]
    requires s'.entry == s.entry || s'.entry.None?
    requires s'.loaders == s.loaders && s'.served == s.served
    ensures Valid(s', ttl)
  {
    var more := [(s'.now, s'.truth)];
    if s'.entry.Some? {
      var e := s.entry.value;
      TrueWithinGrows(s.past, more, e.value, e.start, e.storedAt, e.storedAt);
    }
    forall l | 0 <= l < |s.loaders| && s.loaders[l].Loaded?
      ensures TrueWithin(s'.past, s.loaders[l].value, s.loaders[l].start, s'.now)
    {
      TrueWithinGrows(s.past, more, s.loaders[l].value, s.loaders[l].start, s.now, s'.now);
    }
    forall k | 0 <= k < |s.served| ensures Timely(s', ttl, s.served[k]) {
      var sv := s.served[k];
      assert Timely(s, ttl, sv);
      TrueWithinGrows(s.past, more, sv.value, sv.start, sv.storedAt, sv.storedAt);
    }
  }

  lemma StepKeepsValid<V>(s: State<V>, ttl: nat, step: Step<V>)
    requires Valid(s, ttl)
    ensures Valid(Apply(s, ttl, step), ttl)
  {
    var s' := Apply(s, ttl, step);
    var snapped := s.(now := s'.now, truth := s'.truth, entry := if s'.entry.None? then None else s.entry,
                      past := s'.past);
    SnapshotKeepsValid(s, ttl, snapped);
    var last := |s'.past| - 1;
    match step
    case Get =>
      if |s'.served| > |s.served| {
        assert TrueWithin(snapped.past, s.entry.value.value, s.entry.value.start, s.entry.value.storedAt);
        forall k | 0 <= k < |s'.served| ensures Timely(s', ttl, s'.served[k]) {
          if k < |s.served| { assert Timely(snapped, ttl, s.served[k]); }
        }
      }
    case Load(l) =>
      if l < |s.loaders| && s.loaders[l].Missed? { assert s'.past[last].1 == s'.loaders[l].value; }
    case Store(l) =>
      if l < |s.loaders| && s.loaders[l].Loaded? {
        assert TrueWithin(snapped.past, s.loaders[l].value, s.loaders[l].start, s.now);
        forall k | 0 <= k < |s'.served| ensures Timely(s', ttl, s'.served[k]) {
          if k < |s.served| { assert Timely(snapped, ttl, s.served[k]); }
        }
      }
    case _ =>
  }

  lemma {:induction false} RunKeepsValid<V>(s: State<V>, ttl: nat, steps: seq<Step<V>>)
    requires Valid(s, ttl)
    ensures Valid(Run(s, ttl, steps), ttl)
    decreases |steps|
  {
    if steps != [] {
      StepKeepsValid(s, ttl, steps[0]);
      RunKeepsValid(Apply(s, ttl, steps[0]), ttl, steps[1..]);
    }
  }

  /** A cached value is never served again once its TTL is over. */
  lemma ExpiredIsNotServed<V>(now: int, truth: V, ttl: nat, steps: seq<Step<V>>, k: nat)
    requires k < |Run(Start(now, truth), ttl, steps).served|
    ensures var sv := Run(Start(now, truth), ttl, steps).served[k];
            sv.start <= sv.storedAt <= sv.at && (sv.at == sv.storedAt || sv.at < sv.storedAt + ttl)
  {
    RunKeepsValid(Start(now, truth), ttl, steps);
  }

  /** Every value served in any run was true at most TTL plus the loading request's duration ago. */
  lemma BoundedStaleness<V>(now: int, truth: V, ttl: nat, steps: seq<Step<V>>, k: nat)
    requires k < |Run(Start(now, truth), ttl, steps).served|
    ensures var s := Run(Start(now, truth), ttl, steps);
            var sv := s.served[k];
            TrueWithin(s.past, sv.value, sv.at - ttl - (sv.storedAt - sv.start), sv.at)
  {
    RunKeepsValid(Start(now, truth), ttl, steps);
    var s := Run(Start(now, truth), ttl, steps);
    TimelyIsRecent(s, ttl, s.served[k]);
  }

  lemma TimelyIsRecent<V>(s: State<V>, ttl: nat, sv: Served<V>)
    requires Timely(s, ttl, sv)
    ensures TrueWithin(s.past, sv.value, sv.at - ttl - (sv.storedAt - sv.start), sv.at)
  {
    var i :| 0 <= i < |s.past| && s.past[i].1 == sv.value && sv.start <= s.past[i].0 <= sv.storedAt;
    assert s.past[i].1 == sv.value && sv.at - ttl - (sv.storedAt - sv.start) <= s.past[i].0 <= sv.at;
  }

  // ---- the bound is reached --------------------------------------------------------

  lemma RunCons<V>(s: State<V>, ttl: nat, step: Step<V>, rest: seq<Step<V>>)
    ensures Run(s, ttl, [step] + rest) == Run(Apply(s, ttl, step), ttl, rest)
  {
    assert ([step] + rest)[1..] == rest;
  }

  /** A request misses and loads; the row is then saved and the cache invalidated; the slow request
      stores the old value `duration` later, and it is still served just before it expires. */
  function Overtaken<V>(value: V, ttl: nat, duration: nat): seq<Step<V>>
    requires ttl > 0
  {
    [Get] + ([Load(0)] + ([Save(value)] + ([Invalidate] + LateStore(ttl, duration))))
  }

  function LateStore<V>(ttl: nat, duration: nat): seq<Step<V>>
    requires ttl > 0
  {
    [Tick(duration)] + ([Store(0)] + ([Tick(ttl - 1)] + ([Get] + [])))
  }

  /** After the invalidation, with the old value still in the slow request's hands. */
  function OldInHand<V>(now: int, truth: V, value: V): State<V> {
    State(now, value, None, [Loaded(now, truth)], [],
          [(now, truth), (now, truth), (now, truth), (now, value), (now, value)])
  }

  lemma LoadOvertaken<V>(now: int, truth: V, value: V, ttl: nat, rest: seq<Step<V>>)
    ensures Run(Start(now, truth), ttl, [Get] + ([Load(0)] + ([Save(value)] + ([Invalidate] + rest))))
            == Run(OldInHand(now, truth, value), ttl, rest)
  {
    var s0 := Start(now, truth);
    var s1 := Apply(s0, ttl, Get);
    var s2 := Apply(s1, ttl, Load(0));
    var s3 := Apply(s2, ttl, Save(value));
    RunCons(s0, ttl, Get, [Load(0)] + ([Save(value)] + ([Invalidate] + rest)));
    RunCons(s1, ttl, Load(0), [Save(value)] + ([Invalidate] + rest));
    RunCons(s2, ttl, Save(value), [Invalidate] + rest);
    RunCons(s3, ttl, Invalidate, rest);
    assert s2.loaders == [Loaded(now, truth)];
    assert Apply(s3, ttl, Invalidate).past == OldInHand(now, truth, value).past;
    assert Apply(s3, ttl, Invalidate) == OldInHand(now, truth, value);
  }

  lemma OldStored<V>(now: int, truth: V, value: V, ttl: nat, duration: nat)
    requires ttl > 0
    ensures var s := Run(OldInHand(now, truth, value), ttl, LateStore(ttl, duration));
            var late, last := now + duration, now + duration + (ttl - 1);
            && s.now == last && |s.served| == 2 && s.served[1] == Served(truth, last, now, late)
            && s.past == OldInHand(now, truth, value).past
                         + [(late, value), (late, value), (last, value), (last, value)]
  {
    var s0 := OldInHand(now, truth, value);
    var s1 := Apply(s0, ttl, Tick(duration));
    var s2 := Apply(s1, ttl, Store(0));
    var s3 := Apply(s2, ttl, Tick(ttl - 1));
    assert s2.entry == Some(Entry(truth, now, now + duration)) && |s2.served| == 1;
    RunCons(s0, ttl, Tick(duration), [Store(0)] + ([Tick(ttl - 1)] + ([Get] + [])));
    RunCons(s1, ttl, Store(0), [Tick(ttl - 1)] + ([Get] + []));
    RunCons(s2, ttl, Tick(ttl - 1), [Get] + []);
    RunCons(s3, ttl, Get, []);
  }

  lemma StalenessReached<V>(now: int, truth: V, value: V, ttl: nat, duration: nat)
    requires ttl > 0 && value != truth
    ensures var s := Run(Start(now, truth), ttl, Overtaken(value, ttl, duration));
            && |s.served| == 2 && s.served[1] == Served(truth, now + duration + (ttl - 1), now, now + duration)
            && !TrueWithin(s.past, truth, now + 1, s.now)
  {
    LoadOvertaken(now, truth, value, ttl, LateStore(ttl, duration));
    OldStored(now, truth, value, ttl, duration);
  }
}
