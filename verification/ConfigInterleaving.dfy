/**
  Settings lookups that overlap with edits, outages and each other: `_db_values` of config/runtime.py is a
  cache read, a query and a cache write, and an edit commits before its invalidation runs.  Processes share
  the cached map, which is the cache of TimedCache with the active rows as its truth; each process has its
  own back-off clock.
*/
module ConfigInterleaving {
  import opened Options
  import Config = ConfigRuntime
  import Cache = TimedCache

  type Values = map<string, string>

  /** An edit that is committed; its process still has to invalidate. */
  datatype Pending = Pending(process: nat, open: bool)

  /** What one call of `_db_values` returned, and when. */
  datatype Reply = Reply(process: nat, values: Values, at: int, cutOff: bool)

  /** `owners[l]` is the process of load l, `failures` are the times of failed queries, and `tables` are the rows
      at the times recorded in `shared.past`. */
  datatype State = State(shared: Cache.State<Values>, rows: Config.Rows, up: bool, until: seq<int>,
                         owners: seq<nat>, abandoned: set<nat>, edits: seq<Pending>, failures: seq<int>,
                         replies: seq<Reply>, tables: seq<Config.Rows>)

  datatype Step =
    | Wait(seconds: nat)
    | Outage
    | Recovery
    | Evict
    | Commit(edit: Config.Step)  // the rows change
    | Invalidate(pending: nat)   // invalidate_cache of the process that committed
    | Begin(process: nat)        // the back-off test and cache.get
    | Query(load: nat)           // the query, which fails during an outage
    | Store(load: nat)           // cache.set

  function Shared(s: State, step: Cache.Step<Values>): State {
    s.(shared := Cache.Apply(s.shared, Config.CACHE_TTL, step), tables := s.tables + [s.rows])
  }

  function Answer(s: State, p: nat, values: Values, cutOff: bool): State {
    s.(replies := s.replies + [Reply(p, values, s.shared.now, cutOff)])
  }

  /** `cache.get`: a hit is returned, a miss starts a load. */
  function Get(s: State, p: nat): State {
    var s' := Shared(s, Cache.Get);
    var n := |s.shared.served|;
    if |s'.shared.served| > n then Answer(s', p, s'.shared.served[n].value, false) else s'.(owners := s.owners + [p])
  }

  predicate CanQuery(s: State, l: nat) {
    l < |s.owners| && l < |s.shared.loaders| && s.shared.loaders[l].Missed? && l !in s.abandoned
  }

  /** The query raised: `_mark_unavailable`, and an empty map. */
  function Fail(s: State, l: nat): State
    requires l < |s.owners| && s.owners[l] < |s.until|
  {
    var p, now := s.owners[l], s.shared.now;
    Answer(s.(abandoned := s.abandoned + {l}, failures := s.failures + [now],
              until := s.until[p := now + Config.UNAVAILABLE_BACKOFF]), p, map[], true)
  }

  function Apply(s: State, step: Step): State {
    match step
    case Wait(d) => Shared(s, Cache.Tick(d))
    case Outage => s.(up := false)
    case Recovery => s.(up := true)
    case Evict => Shared(s, Cache.Evict)
    case Commit(edit) =>
      if s.up && Config.Writes(edit) && edit.process < |s.until| then
        var rows := Config.Edited(s.rows, edit);
        Shared(s.(rows := rows), Cache.Save(Config.Active(rows))).(edits := s.edits + [Pending(edit.process, true)])
      else s
    case Invalidate(k) =>
      if k < |s.edits| && s.edits[k].open && s.edits[k].process < |s.until| then
        Shared(s, Cache.Invalidate).(edits := s.edits[k := s.edits[k].(open := false)],
                                     until := s.until[s.edits[k].process := 0])
      else s
    case Begin(p) =>
      if p >= |s.until| then s
      else if s.shared.now < s.until[p] then Answer(s, p, map[], true)
      else Get(s, p)
    case Query(l) =>
      if !CanQuery(s, l) || s.owners[l] >= |s.until| then s
      else if s.up then Shared(s, Cache.Load(l))
      else Fail(s, l)
    case Store(l) =>
      if l < |s.owners| && l < |s.shared.loaders| && s.shared.loaders[l].Loaded?
      then Answer(Shared(s, Cache.Store(l)), s.owners[l], s.shared.loaders[l].value, false)
      else s
  }

  function Run(s: State, steps: seq<Step>): State
    decreases |steps|
  {
    if steps == [] then s else Run(Apply(s, steps[0]), steps[1..])
  }

  function Start(processes: nat, rows: Config.Rows): State {
    State(Cache.Start(0, Config.Active(rows)), rows, true, seq(processes, _ => 0), [], {}, [], [], [], [rows])
  }

  // ---- every run ---------------------------------------------------------------------

  /** A query failed at most half a minute before. */
  predicate FailedBefore(failures: seq<int>, at: int) {
    exists i | 0 <= i < |failures| :: failures[i] <= at < failures[i] + Config.UNAVAILABLE_BACKOFF
  }

  ghost predicate ServedAs(shared: Cache.State<Values>, r: Reply, j: nat) {
    j < |shared.served| && shared.served[j].value == r.values && shared.served[j].at == r.at
  }

  /** A reply is what the cache or a load served at that time, or empty after a failed query. */
  ghost predicate Backed(s: State, r: Reply) {
    if r.cutOff then r.values == map[] && FailedBefore(s.failures, r.at) else exists j: nat :: ServedAs(s.shared, r, j)
  }

  /** A clock that is set was set by a failed query. */
  predicate ClocksBacked(s: State) {
    forall p | 0 <= p < |s.until| && s.until[p] > 0 ::
      exists i | 0 <= i < |s.failures| :: s.until[p] == s.failures[i] + Config.UNAVAILABLE_BACKOFF
  }

  /** The cache's truth has been the active rows all along. */
  predicate Tracked(s: State) {
    |s.tables| == |s.shared.past|
    && forall i | 0 <= i < |s.tables| :: s.shared.past[i].1 == Config.Active(s.tables[i])
  }

  ghost predicate Valid(s: State) {
    && Tracked(s)
    && Cache.Valid(s.shared, Config.CACHE_TTL) && s.shared.truth == Config.Active(s.rows) && s.shared.now >= 0
    && (forall i | 0 <= i < |s.failures| :: s.failures[i] <= s.shared.now)
    && ClocksBacked(s)
    && (forall k | 0 <= k < |s.replies| :: Backed(s, s.replies[k]))
  }

  lemma SharedGrows(s: Cache.State<Values>, step: Cache.Step<Values>)
    ensures var s' := Cache.Apply(s, Config.CACHE_TTL, step);
            && s.served <= s'.served && s.now <= s'.now
            && (!step.Save? ==> s'.truth == s.truth)
  {}

  /** What was backed stays backed. */
  lemma BackedLater(s: State, s': State, r: Reply)
    requires Backed(s, r) && s.shared.served <= s'.shared.served && s.failures <= s'.failures
    ensures Backed(s', r)
  {
    if r.cutOff {
      var i :| 0 <= i < |s.failures| && s.failures[i] <= r.at < s.failures[i] + Config.UNAVAILABLE_BACKOFF;
      assert s'.failures[i] == s.failures[i];
    } else {
      var j: nat :| ServedAs(s.shared, r, j);
      assert ServedAs(s'.shared, r, j);
    }
  }

  lemma AnswerKeepsValid(s: State, p: nat, values: Values, cutOff: bool)
    requires Valid(s) && Backed(s, Reply(p, values, s.shared.now, cutOff))
    ensures Valid(Answer(s, p, values, cutOff))
  {
    var s' := Answer(s, p, values, cutOff);
    forall k | 0 <= k < |s'.replies| ensures Backed(s', s'.replies[k]) {
      BackedLater(s, s', s'.replies[k]);
    }
  }

  lemma SharedKeepsValid(s: State, step: Cache.Step<Values>)
    requires Valid(s) && !step.Save?
    ensures Valid(Shared(s, step))
  {
    var s' := Shared(s, step);
    SharedGrows(s.shared, step);
    Cache.StepKeepsValid(s.shared, Config.CACHE_TTL, step);
    forall k | 0 <= k < |s'.replies| ensures Backed(s', s'.replies[k]) { BackedLater(s, s', s.replies[k]); }
  }

  lemma CommitKeepsValid(s: State, edit: Config.Step)
    requires Valid(s)
    ensures Valid(Apply(s, Commit(edit)))
  {
    var s' := Apply(s, Commit(edit));
    var save := Cache.Save(Config.Active(Config.Edited(s.rows, edit)));
    SharedGrows(s.shared, save);
    Cache.StepKeepsValid(s.shared, Config.CACHE_TTL, save);
    forall k | 0 <= k < |s'.replies| ensures Backed(s', s'.replies[k]) { BackedLater(s, s', s.replies[k]); }
  }

  lemma InvalidateKeepsValid(s: State, k: nat)
    requires Valid(s) && k < |s.edits| && s.edits[k].process < |s.until|
    ensures Valid(Apply(s, Invalidate(k)))
  {
    var s', s1 := Apply(s, Invalidate(k)), Shared(s, Cache.Invalidate);
    SharedKeepsValid(s, Cache.Invalidate);
    if s' != s {
      forall n | 0 <= n < |s'.replies| ensures Backed(s', s'.replies[n]) { BackedLater(s1, s', s1.replies[n]); }
    }
  }

  lemma BeginKeepsValid(s: State, p: nat)
    requires Valid(s) && p < |s.until|
    ensures Valid(Apply(s, Begin(p)))
  {
    if s.shared.now < s.until[p] {
      var i :| 0 <= i < |s.failures| && s.until[p] == s.failures[i] + Config.UNAVAILABLE_BACKOFF;
      AnswerKeepsValid(s, p, map[], true);
    } else {
      var s', n := Shared(s, Cache.Get), |s.shared.served|;
      SharedKeepsValid(s, Cache.Get);
      if |s'.shared.served| > n {
        assert ServedAs(s'.shared, Reply(p, s'.shared.served[n].value, s'.shared.now, false), n);
        AnswerKeepsValid(s', p, s'.shared.served[n].value, false);
      } else {
        var s'' := s'.(owners := s.owners + [p]);
        forall k | 0 <= k < |s''.replies| ensures Backed(s'', s''.replies[k]) { BackedLater(s', s'', s'.replies[k]); }
      }
    }
  }

  lemma FailKeepsValid(s: State, l: nat)
    requires Valid(s) && l < |s.owners| && s.owners[l] < |s.until|
    ensures Valid(Fail(s, l))
  {
    var p, now := s.owners[l], s.shared.now;
    var s1 := s.(abandoned := s.abandoned + {l}, failures := s.failures + [now],
                 until := s.until[p := now + Config.UNAVAILABLE_BACKOFF]);
    assert s1.failures[|s.failures|] == now;
    forall q | 0 <= q < |s1.until| && s1.until[q] > 0
      ensures exists i | 0 <= i < |s1.failures| :: s1.until[q] == s1.failures[i] + Config.UNAVAILABLE_BACKOFF
    {
      if q != p {
        var i :| 0 <= i < |s.failures| && s.until[q] == s.failures[i] + Config.UNAVAILABLE_BACKOFF;
        assert s1.failures[i] == s.failures[i];
      }
    }
    forall k | 0 <= k < |s1.replies| ensures Backed(s1, s1.replies[k]) { BackedLater(s, s1, s.replies[k]); }
    AnswerKeepsValid(s1, p, map[], true);
  }

  lemma StoreKeepsValid(s: State, l: nat)
    requires Valid(s) && l < |s.owners| && l < |s.shared.loaders| && s.shared.loaders[l].Loaded?
    ensures Valid(Apply(s, Store(l)))
  {
    var s', n := Shared(s, Cache.Store(l)), |s.shared.served|;
    SharedKeepsValid(s, Cache.Store(l));
    assert ServedAs(s'.shared, Reply(s.owners[l], s.shared.loaders[l].value, s'.shared.now, false), n);
    AnswerKeepsValid(s', s.owners[l], s.shared.loaders[l].value, false);
  }

  lemma SwitchKeepsValid(s: State, up: bool)
    requires Valid(s)
    ensures Valid(s.(up := up))
  {
    var s' := s.(up := up);
    forall k | 0 <= k < |s'.replies| ensures Backed(s', s'.replies[k]) { BackedLater(s, s', s.replies[k]); }
  }

  lemma StepKeepsValid(s: State, step: Step)
    requires Valid(s)
    ensures Valid(Apply(s, step))
  {
    match step
    case Wait(d) => SharedKeepsValid(s, Cache.Tick(d));
    case Outage => SwitchKeepsValid(s, false);
    case Recovery => SwitchKeepsValid(s, true);
    case Evict => SharedKeepsValid(s, Cache.Evict);
    case Commit(edit) => CommitKeepsValid(s, edit);
    case Invalidate(k) => if k < |s.edits| && s.edits[k].process < |s.until| { InvalidateKeepsValid(s, k); }
    case Begin(p) => if p < |s.until| { BeginKeepsValid(s, p); }
    case Query(l) =>
      if CanQuery(s, l) && s.owners[l] < |s.until| {
        if s.up { SharedKeepsValid(s, Cache.Load(l)); } else { FailKeepsValid(s, l); }
      }
    case Store(l) =>
      if l < |s.owners| && l < |s.shared.loaders| && s.shared.loaders[l].Loaded? { StoreKeepsValid(s, l); }
  }

  lemma {:induction false} RunKeepsValid(s: State, steps: seq<Step>)
    requires Valid(s)
    ensures Valid(Run(s, steps))
    decreases |steps|
  {
    if steps != [] {
      StepKeepsValid(s, steps[0]);
      RunKeepsValid(Apply(s, steps[0]), steps[1..]);
    }
  }

  // ---- how old a setting can be --------------------------------------------------------

  /** The values were the active rows at some instant within the cache's lifetime, and the duration of the
      load that fetched them, before they were returned. */
  ghost predicate Recent(shared: Cache.State<Values>, r: Reply) {
    exists j: nat :: ServedAs(shared, r, j)
      && Cache.TrueWithin(shared.past, r.values,
                          r.at - Config.CACHE_TTL - (shared.served[j].storedAt - shared.served[j].start), r.at)
  }

  lemma BackedIsRecent(s: State, r: Reply)
    requires Valid(s) && Backed(s, r) && !r.cutOff
    ensures Recent(s.shared, r)
  {
    var j: nat :| ServedAs(s.shared, r, j);
    Cache.TimelyIsRecent(s.shared, Config.CACHE_TTL, s.shared.served[j]);
  }

  /** In every interleaving each lookup is resolved against rows that were active that recently, or against no
      rows within half a minute of a failed query; and a secret is resolved without the table in any case. */
  lemma SettingsAreRecent(processes: nat, rows: Config.Rows, steps: seq<Step>, k: nat,
                          src: Config.Sources, name: string)
    requires k < |Run(Start(processes, rows), steps).replies|
    ensures var s := Run(Start(processes, rows), steps);
            var r := s.replies[k];
            && (if r.cutOff then r.values == map[] && FailedBefore(s.failures, r.at) else Recent(s.shared, r))
            && (Config.IsSecret(src, Config.NormalKey(name)) ==> Config.SameLookups(src, r.values, map[], name))
  {
    var s0 := Start(processes, rows);
    RunKeepsValid(s0, steps);
    var s := Run(s0, steps);
    var r := s.replies[k];
    if !r.cutOff { BackedIsRecent(s, r); }
    Config.SameLookupsExactly(src, r.values, map[], name);
  }

  /** `rows` was the table at a time within the cache's lifetime, and the duration of the load, before the reply. */
  ghost predicate ReadLately(s: State, r: Reply, rows: Config.Rows) {
    exists i, j: nat | 0 <= i < |s.tables| && i < |s.shared.past| && ServedAs(s.shared, r, j) ::
      && s.tables[i] == rows
      && r.at - Config.CACHE_TTL - (s.shared.served[j].storedAt - s.shared.served[j].start)
         <= s.shared.past[i].0 <= r.at
  }

  /** In every interleaving each lookup that is not cut off gives, for every setting, the value of the setting's own
      row in one table that was stored so recently, or what it gives without a table where that row is missing,
      inactive, blank or a secret's; a lookup that is cut off gives what it gives without a table. */
  lemma RepliesReadTheRows(processes: nat, rows: Config.Rows, steps: seq<Step>, k: nat)
    requires k < |Run(Start(processes, rows), steps).replies|
    ensures var s := Run(Start(processes, rows), steps);
            var r := s.replies[k];
            if r.cutOff then forall src, name :: Config.SameLookups(src, r.values, map[], name)
            else exists table :: ReadLately(s, r, table)
                                 && forall src, name :: Config.AnswersFrom(src, r.values, table, name)
  {
    var s := Run(Start(processes, rows), steps);
    RunKeepsValid(Start(processes, rows), steps);
    var r := s.replies[k];
    assert Backed(s, r);
    if !r.cutOff {
      var j: nat :| ServedAs(s.shared, r, j);
      Cache.TimelyIsRecent(s.shared, Config.CACHE_TTL, s.shared.served[j]);
      var i :| 0 <= i < |s.shared.past| && s.shared.past[i].1 == r.values
               && r.at - Config.CACHE_TTL - (s.shared.served[j].storedAt - s.shared.served[j].start)
                  <= s.shared.past[i].0 <= r.at;
      assert r.values == Config.Active(s.tables[i]) && ReadLately(s, r, s.tables[i]);
      forall src, name ensures Config.AnswersFrom(src, r.values, s.tables[i], name) {
        Config.ActiveAnswers(src, s.tables[i], name);
      }
    }
  }

  /** Every load belongs to a process. */
  predicate Owned(s: State) {
    && |s.owners| == |s.shared.loaders| && (forall l | 0 <= l < |s.owners| :: s.owners[l] < |s.until|)
    && (forall l | l in s.abandoned :: l < |s.owners|)
  }

  lemma StepKeepsOwned(s: State, step: Step)
    requires Owned(s)
    ensures Owned(Apply(s, step)) && |Apply(s, step).until| == |s.until|
  {}

  lemma {:induction false} RunKeepsOwned(s: State, steps: seq<Step>)
    requires Owned(s)
    ensures Owned(Run(s, steps)) && |Run(s, steps).until| == |s.until|
    decreases |steps|
  {
    if steps != [] {
      StepKeepsOwned(s, steps[0]);
      RunKeepsOwned(Apply(s, steps[0]), steps[1..]);
    }
  }

  // ---- when an edit is live -----------------------------------------------------------

  /** Nobody edits, and the table does not go down. */
  predicate Quiet(step: Step) { !step.Commit? && !step.Outage? }

  predicate AllQuiet(steps: seq<Step>) { forall k | 0 <= k < |steps| :: Quiet(steps[k]) }

  /** The replies given during the run hold the rows as they are. */
  predicate RepliesCurrent(s: State, steps: seq<Step>) {
    forall k | |s.replies| <= k < |Run(s, steps).replies| :: Run(s, steps).replies[k].values == Config.Active(s.rows)
  }

  /** From now on every lookup of every process works with the rows as they are. */
  ghost predicate StaysLive(s: State) {
    forall steps :: AllQuiet(steps) ==> RepliesCurrent(s, steps)
  }

  /** An outdated entry that some process can still get to before it expires. */
  predicate StaleEntry(s: State) {
    && s.shared.entry.Some? && s.shared.entry.value.value != Config.Active(s.rows)
    && exists p | 0 <= p < |s.until| ::
         s.shared.now < s.shared.entry.value.storedAt + Config.CACHE_TTL
         && s.until[p] < s.shared.entry.value.storedAt + Config.CACHE_TTL
  }

  /** A load that has queried other rows than there are now, and still has to store them. */
  predicate StaleLoad(s: State) {
    exists l | 0 <= l < |s.shared.loaders| ::
      s.shared.loaders[l].Loaded? && s.shared.loaders[l].value != Config.Active(s.rows)
  }

  /** There is something to see, and a process that does not look, or may find the table down. */
  predicate Blind(s: State) {
    && Config.Active(s.rows) != map[] && s.until != []
    && (!s.up || exists p | 0 <= p < |s.until| :: s.shared.now < s.until[p])
  }

  lemma QuietKeepsRows(s: State, step: Step)
    requires Quiet(step)
    ensures Apply(s, step).rows == s.rows && s.replies <= Apply(s, step).replies
  {}

  predicate Current(s: State) { !StaleEntry(s) && !StaleLoad(s) && !Blind(s) }

  lemma QuietStepCurrent(s: State, step: Step)
    requires Valid(s) && Owned(s) && Current(s) && Quiet(step)
    ensures Current(Apply(s, step))
    ensures forall k | |s.replies| <= k < |Apply(s, step).replies| ::
              Apply(s, step).replies[k].values == Config.Active(s.rows)
  {
    match step
    case Begin(p) => if p < |s.until| { BeginCurrent(s, p); }
    case Query(l) => if CanQuery(s, l) && s.owners[l] < |s.until| { QueryCurrent(s, l); }
    case Store(l) =>
      if l < |s.owners| && l < |s.shared.loaders| && s.shared.loaders[l].Loaded? { StoreCurrent(s, l); }
    case _ =>
  }

  lemma StoreCurrent(s: State, l: nat)
    requires Valid(s) && Owned(s) && Current(s)
    requires l < |s.owners| && l < |s.shared.loaders| && s.shared.loaders[l].Loaded?
    ensures Current(Apply(s, Store(l))) && s.shared.loaders[l].value == Config.Active(s.rows)
  {
    var s' := Apply(s, Store(l));
    assert forall m | 0 <= m < |s'.shared.loaders| && s'.shared.loaders[m].Loaded? ::
        s'.shared.loaders[m] == s.shared.loaders[m];
  }

  lemma BeginCurrent(s: State, p: nat)
    requires Valid(s) && Owned(s) && Current(s) && p < |s.until|
    ensures var s' := Apply(s, Begin(p));
            && Current(s')
            && forall k | |s.replies| <= k < |s'.replies| :: s'.replies[k].values == Config.Active(s.rows)
  {
    var s' := Apply(s, Begin(p));
    assert s'.until == s.until && s'.up == s.up && s'.rows == s.rows && s'.shared.entry == s.shared.entry;
    assert forall l | 0 <= l < |s'.shared.loaders| && s'.shared.loaders[l].Loaded? ::
        l < |s.shared.loaders| && s'.shared.loaders[l] == s.shared.loaders[l];
  }

  /** No clock reaches further than half a minute ahead. */
  lemma ClockBound(s: State)
    requires Valid(s)
    ensures forall p | 0 <= p < |s.until| :: s.until[p] <= s.shared.now + Config.UNAVAILABLE_BACKOFF
  {
    forall p | 0 <= p < |s.until| ensures s.until[p] <= s.shared.now + Config.UNAVAILABLE_BACKOFF {
      if s.until[p] > 0 {
        var i :| 0 <= i < |s.failures| && s.until[p] == s.failures[i] + Config.UNAVAILABLE_BACKOFF;
      }
    }
  }

  lemma FailCurrent(s: State, l: nat)
    requires Valid(s) && Owned(s) && Current(s) && !s.up && l < |s.owners|
    ensures Current(Fail(s, l)) && Config.Active(s.rows) == map[]
  {
    var s' := Fail(s, l);
    ClockBound(s);
    assert forall p | 0 <= p < |s.until| :: s.until[p] <= s'.until[p];
  }

  lemma QueryCurrent(s: State, l: nat)
    requires Valid(s) && Owned(s) && Current(s) && CanQuery(s, l) && s.owners[l] < |s.until|
    ensures var s' := Apply(s, Query(l));
            && Current(s')
            && forall k | |s.replies| <= k < |s'.replies| :: s'.replies[k].values == Config.Active(s.rows)
  {
    var s' := Apply(s, Query(l));
    if s.up {
      forall m | 0 <= m < |s'.shared.loaders| && s'.shared.loaders[m].Loaded?
        ensures s'.shared.loaders[m].value == Config.Active(s.rows)
      {
        if m != l { assert s'.shared.loaders[m] == s.shared.loaders[m]; }
      }
    } else {
      FailCurrent(s, l);
    }
  }

  lemma {:induction false} CurrentRun(s: State, steps: seq<Step>)
    requires Valid(s) && Owned(s) && Current(s) && AllQuiet(steps)
    ensures RepliesCurrent(s, steps)
    decreases |steps|
  {
    if steps != [] {
      var s' := Apply(s, steps[0]);
      assert Quiet(steps[0]);
      assert forall k | 0 <= k < |steps[1..]| :: steps[1..][k] == steps[k + 1];
      QuietKeepsRows(s, steps[0]);
      QuietStepCurrent(s, steps[0]);
      StepKeepsValid(s, steps[0]);
      StepKeepsOwned(s, steps[0]);
      CurrentRun(s', steps[1..]);
      QuietRunKeeps(s', steps[1..]);
      forall k | |s.replies| <= k < |Run(s, steps).replies|
        ensures Run(s, steps).replies[k].values == Config.Active(s.rows)
      {
        if k < |s'.replies| { assert Run(s, steps).replies[k] == s'.replies[k]; }
      }
    }
  }

  lemma {:induction false} QuietRunKeeps(s: State, steps: seq<Step>)
    requires AllQuiet(steps)
    ensures Run(s, steps).rows == s.rows && s.replies <= Run(s, steps).replies
    decreases |steps|
  {
    if steps != [] {
      assert Quiet(steps[0]);
      assert forall k | 0 <= k < |steps[1..]| :: steps[1..][k] == steps[k + 1];
      QuietKeepsRows(s, steps[0]);
      QuietRunKeeps(Apply(s, steps[0]), steps[1..]);
    }
  }

  lemma RunCons(s: State, step: Step, rest: seq<Step>)
    ensures Run(s, [step] + rest) == Run(Apply(s, step), rest)
  {
    assert ([step] + rest)[1..] == rest;
  }

  lemma StaleNow(s: State, step: Step)
    requires Quiet(step) && |Apply(s, step).replies| > |s.replies|
    requires Apply(s, step).replies[|s.replies|].values != Config.Active(s.rows)
    ensures !StaysLive(s)
  {
    RunCons(s, step, []);
    assert AllQuiet([step] + []) && !RepliesCurrent(s, [step] + []);
  }

  lemma StaleLater(s: State, step: Step)
    requires Quiet(step) && !StaysLive(Apply(s, step))
    ensures !StaysLive(s)
  {
    var s' := Apply(s, step);
    var steps :| AllQuiet(steps) && !RepliesCurrent(s', steps);
    QuietKeepsRows(s, step);
    RunCons(s, step, steps);
    var k :| |s'.replies| <= k < |Run(s', steps).replies|
             && Run(s', steps).replies[k].values != Config.Active(s'.rows);
    assert AllQuiet([step] + steps);
    assert Run(s, [step] + steps).replies[k].values != Config.Active(s.rows);
    assert !RepliesCurrent(s, [step] + steps);
  }

  lemma StaleEntryIsSeen(s: State)
    requires Valid(s) && Owned(s) && StaleEntry(s)
    ensures !StaysLive(s)
  {
    var p :| 0 <= p < |s.until| && s.until[p] < s.shared.entry.value.storedAt + Config.CACHE_TTL;
    var d: nat := if s.until[p] > s.shared.now then s.until[p] - s.shared.now else 0;
    StaleNow(Apply(s, Wait(d)), Begin(p));
    StaleLater(s, Wait(d));
  }

  lemma StoreReplies(s: State, l: nat)
    requires l < |s.owners| && l < |s.shared.loaders| && s.shared.loaders[l].Loaded?
    ensures Apply(s, Store(l)).replies
            == s.replies + [Reply(s.owners[l], s.shared.loaders[l].value, s.shared.now, false)]
  {}

  lemma StaleLoadIsSeen(s: State)
    requires Valid(s) && Owned(s) && StaleLoad(s)
    ensures !StaysLive(s)
  {
    var l :| 0 <= l < |s.shared.loaders| && s.shared.loaders[l].Loaded?
             && s.shared.loaders[l].value != Config.Active(s.rows);
    StoreReplies(s, l);
    StaleNow(s, Store(l));
  }

  lemma BlindIsSeen(s: State)
    requires Valid(s) && Owned(s) && Blind(s)
    ensures !StaysLive(s)
  {
    if p :| 0 <= p < |s.until| && s.shared.now < s.until[p] {
      StaleNow(s, Begin(p));
    } else {
      var l := |s.owners|;
      var s1 := Apply(s, Evict);
      var s2 := Apply(s1, Begin(0));
      assert s2.shared.loaders[l] == Cache.Missed(s.shared.now) && s2.owners[l] == 0;
      StaleNow(s2, Query(l));
      StaleLater(s1, Begin(0));
      StaleLater(s, Evict);
    }
  }

  /** Every lookup from now on works with the rows as they are, as long as nobody edits and the table stays up
      or comes back, if and only if no outdated entry is in reach, no load holds outdated rows, and no process
      is blind. */
  lemma StaysLiveExactly(s: State)
    requires Valid(s) && Owned(s)
    ensures StaysLive(s) <==> Current(s)
  {
    if Current(s) {
      forall steps | AllQuiet(steps) ensures RepliesCurrent(s, steps) { CurrentRun(s, steps); }
    } else if StaleEntry(s) {
      StaleEntryIsSeen(s);
    } else if StaleLoad(s) {
      StaleLoadIsSeen(s);
    } else {
      BlindIsSeen(s);
    }
  }

  /** After its invalidation an edit is live for good if and only if no load still holds outdated rows, and,
      unless no override is left, the table is up and no other process is backing off. */
  lemma EditIsLiveExactly(s: State, k: nat)
    requires Valid(s) && Owned(s) && k < |s.edits| && s.edits[k].open && s.edits[k].process < |s.until|
    ensures StaysLive(Apply(s, Invalidate(k)))
            <==> && !StaleLoad(s)
                 && (Config.Active(s.rows) == map[]
                     || (s.up && forall q | 0 <= q < |s.until| && q != s.edits[k].process ::
                                   s.until[q] <= s.shared.now))
  {
    var s' := Apply(s, Invalidate(k));
    StepKeepsValid(s, Invalidate(k));
    StepKeepsOwned(s, Invalidate(k));
    StaysLiveExactly(s');
    assert s'.shared.loaders == s.shared.loaders && s'.rows == s.rows;
    assert s'.until == s.until[s.edits[k].process := 0];
    if q :| 0 <= q < |s.until| && q != s.edits[k].process && s.until[q] > s.shared.now {
      assert s'.until[q] > s'.shared.now;
    }
  }

  // ---- an edit that its own process does not see ---------------------------------------------

  /** A lookup has queried; its own process edits and invalidates; the lookup stores what it had. */
  function OvertakenLookup(edit: Config.Step, seconds: nat): seq<Step> {
    [Begin(0)] + ([Query(0)] + ([Commit(edit)] + ([Invalidate(0)] + StoreThenLook(seconds))))
  }

  function StoreThenLook(seconds: nat): seq<Step> {
    [Store(0)] + ([Wait(seconds)] + ([Begin(0)] + []))
  }

  /** One load of process 0 that holds `values`, and nothing cached. */
  predicate InHand(s: State, values: Values, processes: nat) {
    && s.shared.entry == None && s.shared.loaders == [Cache.Loaded(0, values)] && s.shared.now == 0
    && |s.until| == processes > 0 && s.until[0] == 0 && s.owners == [0] && s.replies == [] && s.shared.served == []
  }

  lemma FirstLookup(processes: nat, rows: Config.Rows)
    requires processes > 0
    ensures var s := Apply(Apply(Start(processes, rows), Begin(0)), Query(0));
            InHand(s, Config.Active(rows), processes) && s.edits == [] && s.rows == rows && s.up
  {
    var s1 := Apply(Start(processes, rows), Begin(0));
    assert s1.shared.loaders == [Cache.Missed(0)] && s1.owners == [0];
  }

  lemma EditOvertakes(s: State, values: Values, processes: nat, edit: Config.Step)
    requires InHand(s, values, processes) && s.edits == [] && s.up && Config.Writes(edit) && edit.process == 0
    ensures var s' := Apply(Apply(s, Commit(edit)), Invalidate(0));
            InHand(s', values, processes) && s'.rows == Config.Edited(s.rows, edit)
  {
    assert Apply(s, Commit(edit)).edits == [Pending(0, true)];
  }

  lemma OldRowsStored(s: State, values: Values, processes: nat, seconds: nat)
    requires InHand(s, values, processes) && seconds < Config.CACHE_TTL
    ensures var s' := Run(s, StoreThenLook(seconds));
            && s'.rows == s.rows && |s'.until| == processes && s'.until[0] == 0
            && |s'.replies| == 2 && s'.replies[1] == Reply(0, values, seconds, false)
  {
    var s1 := Apply(s, Store(0));
    var s2 := Apply(s1, Wait(seconds));
    RunCons(s, Store(0), [Wait(seconds)] + ([Begin(0)] + []));
    RunCons(s1, Wait(seconds), [Begin(0)] + []);
    RunCons(s2, Begin(0), []);
    assert s1.shared.entry == Some(Cache.Entry(values, 0, 0));
  }

  /** The process that made the edit, not backing off, still gets the old rows up to 300 seconds later. */
  lemma OvertakenEditNotSeen(processes: nat, rows: Config.Rows, edit: Config.Step, seconds: nat)
    requires processes > 0 && Config.Writes(edit) && edit.process == 0 && seconds < Config.CACHE_TTL
    ensures var s := Run(Start(processes, rows), OvertakenLookup(edit, seconds));
            && s.rows == Config.Edited(rows, edit) && |s.until| == processes && s.until[0] == 0
            && |s.replies| == 2 && s.replies[1] == Reply(0, Config.Active(rows), seconds, false)
  {
    var s0 := Start(processes, rows);
    var s1 := Apply(s0, Begin(0));
    var s2 := Apply(s1, Query(0));
    var s3 := Apply(s2, Commit(edit));
    RunCons(s0, Begin(0), [Query(0)] + ([Commit(edit)] + ([Invalidate(0)] + StoreThenLook(seconds))));
    RunCons(s1, Query(0), [Commit(edit)] + ([Invalidate(0)] + StoreThenLook(seconds)));
    RunCons(s2, Commit(edit), [Invalidate(0)] + StoreThenLook(seconds));
    RunCons(s3, Invalidate(0), StoreThenLook(seconds));
    FirstLookup(processes, rows);
    EditOvertakes(s2, Config.Active(rows), processes, edit);
    OldRowsStored(Apply(s3, Invalidate(0)), Config.Active(rows), processes, seconds);
  }

  // ---- back-off ends ------------------------------------------------------------------------

  predicate NoOutage(steps: seq<Step>) { forall k | 0 <= k < |steps| :: !steps[k].Outage? }

  predicate NoneBeyond(s: State, bound: int) {
    s.up && bound >= 0 && forall p | 0 <= p < |s.until| :: s.until[p] <= bound
  }

  lemma {:induction false} BackoffNotRenewed(s: State, steps: seq<Step>, bound: int)
    requires Valid(s) && NoneBeyond(s, bound) && NoOutage(steps)
    ensures Valid(Run(s, steps)) && NoneBeyond(Run(s, steps), bound) && s.shared.now <= Run(s, steps).shared.now
    ensures s.replies <= Run(s, steps).replies
    ensures s.shared.now >= bound ==>
              forall k | |s.replies| <= k < |Run(s, steps).replies| :: !Run(s, steps).replies[k].cutOff
    decreases |steps|
  {
    if steps != [] {
      var s' := Apply(s, steps[0]);
      assert !steps[0].Outage?;
      assert forall k | 0 <= k < |steps[1..]| :: steps[1..][k] == steps[k + 1];
      StepKeepsValid(s, steps[0]);
      UpStep(s, steps[0], bound);
      BackoffNotRenewed(s', steps[1..], bound);
      forall k | s.shared.now >= bound && |s.replies| <= k < |Run(s, steps).replies|
        ensures !Run(s, steps).replies[k].cutOff
      {
        if k < |s'.replies| { assert Run(s, steps).replies[k] == s'.replies[k]; }
      }
    }
  }

  lemma UpStep(s: State, step: Step, bound: int)
    requires NoneBeyond(s, bound) && !step.Outage?
    ensures NoneBeyond(Apply(s, step), bound) && s.shared.now <= Apply(s, step).shared.now
    ensures s.replies <= Apply(s, step).replies
    ensures s.shared.now >= bound ==>
              forall k | |s.replies| <= k < |Apply(s, step).replies| :: !Apply(s, step).replies[k].cutOff
  {}

  /** Half a minute after the table is back for good, no lookup is cut off any more: each works with rows that
      were active within the cache's lifetime and its load's duration. */
  lemma RecoversWithinBackoff(s: State, steps: seq<Step>, more: seq<Step>, k: nat)
    requires Valid(s) && s.up && NoOutage(steps) && NoOutage(more)
    requires Run(s, steps).shared.now >= s.shared.now + Config.UNAVAILABLE_BACKOFF
    requires |Run(s, steps).replies| <= k < |Run(Run(s, steps), more).replies|
    ensures var s' := Run(Run(s, steps), more);
            !s'.replies[k].cutOff && Recent(s'.shared, s'.replies[k])
  {
    var bound := s.shared.now + Config.UNAVAILABLE_BACKOFF;
    ClockBound(s);
    BackoffNotRenewed(s, steps, bound);
    BackoffNotRenewed(Run(s, steps), more, bound);
    BackedIsRecent(Run(Run(s, steps), more), Run(Run(s, steps), more).replies[k]);
  }
}
