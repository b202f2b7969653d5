/**
  The stored counters of social/signals.py and displays/signals.py against the rows they count.
  A request that deletes a row fetches it first; other requests come in between, and the handler that
  follows the DELETE works with the fetched instance whether or not there was still a row to delete.
  Everything else is one transaction with its handlers.  Counter columns refuse negative values: a
  transaction that would store one is rolled back as a whole.
*/
module CounterSignals {
  /** A counter column of one row; it is present while its row exists. */
  datatype Target =
    | FollowingCount(user: nat)
    | FollowersCount(user: nat)
    | PostLikes(post: nat)
    | CommentLikes(comment: nat)
    | Reshares(post: nat)
    | DisplayComments(display: nat)
    | DisplayLikes(display: nat)

  datatype Row =
    | Follow(follower: nat, following: nat, accepted: bool)
    | PostLike(user: nat, post: nat)
    | CommentLike(user: nat, comment: nat)
    | OtherLike(user: nat, other: nat)       // a content type without a counter
    | Reshare(user: nat, post: nat)
    | DisplayComment(author: nat, display: nat, isDeleted: bool)
    | DisplayLike(user: nat, display: nat)

  datatype Tables = Tables(rows: map<nat, Row>, counters: map<Target, int>)

  /** A row as some request holds it in memory, to delete it. */
  datatype Instance = Instance(id: nat, row: Row, open: bool)

  /** `gone` are the ids of deleted rows; an id is never used again. */
  datatype State = State(tables: Tables, gone: set<nat>, fetched: seq<Instance>)

  /** The counters a row is counted in. */
  function CountedIn(r: Row): set<Target> {
    match r
    case Follow(a, b, accepted) => if accepted then {FollowingCount(a), FollowersCount(b)} else {}
    case PostLike(_, p) => {PostLikes(p)}
    case CommentLike(_, c) => {CommentLikes(c)}
    case OtherLike(_, _) => {}
    case Reshare(_, p) => {Reshares(p)}
    case DisplayComment(_, d, _) => {DisplayComments(d)}
    case DisplayLike(_, d) => {DisplayLikes(d)}
  }

  /** unique_together of the models; comments have none. */
  predicate SameKey(r: Row, q: Row) {
    match (r, q)
    case (Follow(a, b, _), Follow(c, d, _)) => a == c && b == d
    case (DisplayComment(_, _, _), DisplayComment(_, _, _)) => false
    case _ => r == q
  }

  predicate Duplicate(rows: map<nat, Row>, r: Row) { exists i | i in rows :: SameKey(rows[i], r) }

  /** `update(counter=F("counter") + delta)` on every target whose row exists */
  function Shift(counters: map<Target, int>, ts: set<Target>, delta: int): map<Target, int> {
    map t | t in counters :: if t in ts then counters[t] + delta else counters[t]
  }

  /** None of the stored counters goes below zero when each of `ts` loses `times`. */
  predicate CanLose(counters: map<Target, int>, ts: set<Target>, times: nat) {
    forall t | t in ts && t in counters :: counters[t] >= times
  }

  /** A new row with its handler: `times` is 2 for a display like, which the service counts once more. */
  function Added(t: Tables, id: nat, r: Row, times: nat): Tables {
    Tables(t.rows[id := r], Shift(t.counters, CountedIn(r), times))
  }

  /** `instance.delete()` with its handler, and the service's own update when `times` is 2. */
  function Deleted(t: Tables, i: Instance, times: nat): Tables {
    Tables(t.rows - {i.id}, Shift(t.counters, CountedIn(i.row), 0 - times))
  }

  datatype Op =
    | Insert(id: nat, row: Row)
    | GiveLike(id: nat, user: nat, display: nat)     // DisplayService.toggle_like of a display not liked yet
    | EditFollow(id: nat, accepted: bool)            // a later save: the handler returns at once
    | SoftDeleteComment(id: nat)
    | DropCounter(target: Target)                    // its row is removed once nothing refers to it
    | Fetch(id: nat)
    | Delete(instance: nat, counted: bool)           // `counted`: rolled back when no row was deleted (unfollow)
    | TakeLike(instance: nat)                        // DisplayService.toggle_like of a display liked before

  predicate CanAdd(s: State, id: nat, r: Row) { id !in s.tables.rows && id !in s.gone && !Duplicate(s.tables.rows, r) }

  predicate Holds(s: State, k: nat) { k < |s.fetched| && s.fetched[k].open }

  /** The delete commits: some row was deleted if the caller counts, and no counter goes below zero. */
  predicate CanDelete(s: State, k: nat, counted: bool) {
    && Holds(s, k) && (counted ==> s.fetched[k].id in s.tables.rows)
    && CanLose(s.tables.counters, CountedIn(s.fetched[k].row), 1)
  }

  predicate CanTakeLike(s: State, k: nat) {
    Holds(s, k) && s.fetched[k].row.DisplayLike? && CanLose(s.tables.counters, CountedIn(s.fetched[k].row), 2)
  }

  function Close(s: State, k: nat): State
    requires k < |s.fetched|
  {
    s.(fetched := s.fetched[k := s.fetched[k].(open := false)])
  }

  function AfterDelete(s: State, k: nat, times: nat): State
    requires k < |s.fetched|
  {
    Close(s, k).(tables := Deleted(s.tables, s.fetched[k], times), gone := s.gone + {s.fetched[k].id})
  }

  function Apply(s: State, op: Op): State {
    var t := s.tables;
    match op
    case Insert(id, r) => if CanAdd(s, id, r) then s.(tables := Added(t, id, r, 1)) else s
    case GiveLike(id, user, display) =>
      if CanAdd(s, id, DisplayLike(user, display))
      then s.(tables := Added(t, id, DisplayLike(user, display), 2)) else s
    case EditFollow(id, accepted) =>
      if id in t.rows && t.rows[id].Follow?
      then s.(tables := t.(rows := t.rows[id := t.rows[id].(accepted := accepted)])) else s
    case SoftDeleteComment(id) =>
      if id in t.rows && t.rows[id].DisplayComment?
      then s.(tables := t.(rows := t.rows[id := t.rows[id].(isDeleted := true)])) else s
    case DropCounter(target) =>
      if CountedRows(t.rows, target) == {} then s.(tables := t.(counters := t.counters - {target})) else s
    case Fetch(id) => if id in t.rows then s.(fetched := s.fetched + [Instance(id, t.rows[id], true)]) else s
    case Delete(k, counted) =>
      if CanDelete(s, k, counted) then AfterDelete(s, k, 1) else if Holds(s, k) then Close(s, k) else s
    case TakeLike(k) =>
      if CanTakeLike(s, k) then AfterDelete(s, k, 2) else if Holds(s, k) then Close(s, k) else s
  }

  function Run(s: State, ops: seq<Op>): State
    decreases |ops|
  {
    if ops == [] then s else Run(Apply(s, ops[0]), ops[1..])
  }

  // ---- counters against rows ------------------------------------------------------

  /** The rows each counter column is there to count: accepted follows by either side, likes of posts and of
      comments, reshares, and the comments and likes of a display, soft-deleted comments included. */
  function CountedRows(rows: map<nat, Row>, target: Target): set<nat> {
    match target
    case FollowingCount(user) => set i | i in rows && rows[i].Follow? && rows[i].accepted && rows[i].follower == user
    case FollowersCount(user) => set i | i in rows && rows[i].Follow? && rows[i].accepted && rows[i].following == user
    case PostLikes(post) => set i | i in rows && rows[i].PostLike? && rows[i].post == post
    case CommentLikes(comment) => set i | i in rows && rows[i].CommentLike? && rows[i].comment == comment
    case Reshares(post) => set i | i in rows && rows[i].Reshare? && rows[i].post == post
    case DisplayComments(display) => set i | i in rows && rows[i].DisplayComment? && rows[i].display == display
    case DisplayLikes(display) => set i | i in rows && rows[i].DisplayLike? && rows[i].display == display
  }

  /** The handlers update the columns that count the row. */
  lemma CountedRowsAre(rows: map<nat, Row>, target: Target)
    ensures CountedRows(rows, target) == set i | i in rows && target in CountedIn(rows[i])
  {}

  function Drift(t: Tables, target: Target): int
    requires target in t.counters
  {
    t.counters[target] - |CountedRows(t.rows, target)|
  }

  /** The counters that count row `id` as it is stored now. */
  function CountedNow(t: Tables, id: nat): set<Target> { if id in t.rows then CountedIn(t.rows[id]) else {} }

  function One(b: bool): int { if b then 1 else 0 }

  /** What deleting an instance adds to counter minus rows: the row goes, if it is there, and the counters of
      the instance go down. */
  function DeleteDrift(t: Tables, i: Instance, times: nat, target: Target): int {
    One(target in CountedNow(t, i.id)) - (if target in CountedIn(i.row) then times else 0)
  }

  /** What an operation adds to a counter beyond what it adds to the rows. */
  function OpDrift(s: State, op: Op, target: Target): int {
    var t := s.tables;
    match op
    case GiveLike(id, user, display) =>
      if CanAdd(s, id, DisplayLike(user, display)) then One(target == DisplayLikes(display)) else 0
    case EditFollow(id, accepted) =>
      if id in t.rows && t.rows[id].Follow?
      then One(target in CountedIn(t.rows[id])) - One(target in CountedIn(t.rows[id].(accepted := accepted)))
      else 0
    case Delete(k, counted) => if CanDelete(s, k, counted) then DeleteDrift(t, s.fetched[k], 1, target) else 0
    case TakeLike(k) => if CanTakeLike(s, k) then DeleteDrift(t, s.fetched[k], 2, target) else 0
    case _ => 0
  }

  function TotalDrift(s: State, ops: seq<Op>, target: Target): int
    decreases |ops|
  {
    if ops == [] then 0 else OpDrift(s, ops[0], target) + TotalDrift(Apply(s, ops[0]), ops[1..], target)
  }

  lemma AddedRow(rows: map<nat, Row>, id: nat, r: Row, target: Target)
    requires id !in rows
    ensures |CountedRows(rows[id := r], target)|
            == |CountedRows(rows, target)| + (if target in CountedIn(r) then 1 else 0)
    ensures |rows[id := r]| == |rows| + 1
  {
    CountedRowsAre(rows, target);
    CountedRowsAre(rows[id := r], target);
    assert CountedRows(rows[id := r], target)
           == CountedRows(rows, target) + (if target in CountedIn(r) then {id} else {});
  }

  lemma RemovedRow(rows: map<nat, Row>, id: nat, target: Target)
    requires id in rows
    ensures |CountedRows(rows - {id}, target)|
            == |CountedRows(rows, target)| - (if target in CountedIn(rows[id]) then 1 else 0)
    ensures |rows - {id}| == |rows| - 1
  {
    var rest := rows - {id};
    assert rest[id := rows[id]] == rows;
    AddedRow(rest, id, rows[id], target);
  }

  lemma ChangedRow(rows: map<nat, Row>, id: nat, r: Row, target: Target)
    requires id in rows
    ensures |CountedRows(rows[id := r], target)| == |CountedRows(rows, target)|
              + (if target in CountedIn(r) then 1 else 0) - (if target in CountedIn(rows[id]) then 1 else 0)
  {
    RemovedRow(rows, id, target);
    AddedRow(rows - {id}, id, r, target);
    assert (rows - {id})[id := r] == rows[id := r];
  }

  lemma AddedDrift(t: Tables, id: nat, r: Row, times: nat, target: Target)
    requires id !in t.rows && target in t.counters
    ensures Drift(Added(t, id, r, times), target)
            == Drift(t, target) + (if target in CountedIn(r) then times as int - 1 else 0)
  {
    AddedRow(t.rows, id, r, target);
  }

  lemma DeletedDrift(t: Tables, i: Instance, times: nat, target: Target)
    requires target in t.counters
    ensures Drift(Deleted(t, i, times), target) == Drift(t, target) + DeleteDrift(t, i, times, target)
  {
    if i.id in t.rows { RemovedRow(t.rows, i.id, target); } else { assert t.rows - {i.id} == t.rows; }
  }

  lemma EditDrift(s: State, op: Op, target: Target)
    requires (op.EditFollow? || op.SoftDeleteComment?) && target in s.tables.counters
    ensures target in Apply(s, op).tables.counters
    ensures Drift(Apply(s, op).tables, target) == Drift(s.tables, target) + OpDrift(s, op, target)
  {
    var rows := s.tables.rows;
    if op.id in rows && Apply(s, op) != s { ChangedRow(rows, op.id, Apply(s, op).tables.rows[op.id], target); }
  }

  /** One operation moves counter minus rows by its own drift and nothing else. */
  lemma StepDrift(s: State, op: Op, target: Target)
    requires target in Apply(s, op).tables.counters
    ensures target in s.tables.counters
    ensures Drift(Apply(s, op).tables, target) == Drift(s.tables, target) + OpDrift(s, op, target)
  {
    assert target in s.tables.counters;
    match op
    case Insert(id, r) => if CanAdd(s, id, r) { AddedDrift(s.tables, id, r, 1, target); }
    case GiveLike(id, user, display) =>
      if CanAdd(s, id, DisplayLike(user, display)) { AddedDrift(s.tables, id, DisplayLike(user, display), 2, target); }
    case EditFollow(_, _) => EditDrift(s, op, target);
    case SoftDeleteComment(_) => EditDrift(s, op, target);
    case Delete(k, counted) => if CanDelete(s, k, counted) { DeletedDrift(s.tables, s.fetched[k], 1, target); }
    case TakeLike(k) => if CanTakeLike(s, k) { DeletedDrift(s.tables, s.fetched[k], 2, target); }
    case _ =>
  }

  /** Every counter in every run: its distance from its rows is the sum of the drifts. */
  lemma {:induction false} DriftLaw(s: State, ops: seq<Op>, target: Target)
    requires target in Run(s, ops).tables.counters
    ensures target in s.tables.counters
    ensures Drift(Run(s, ops).tables, target) == Drift(s.tables, target) + TotalDrift(s, ops, target)
    decreases |ops|
  {
    if ops != [] {
      DriftLaw(Apply(s, ops[0]), ops[1..], target);
      StepDrift(s, ops[0], target);
    }
  }

  // ---- exactly when the counters match ------------------------------------------------

  /** Some stored counter counts the fetched row and not the row there is now, or the other way round: the row
      is gone, or its acceptance has changed since it was fetched. */
  predicate Miscounted(t: Tables, i: Instance) {
    exists target | target in t.counters :: target in CountedNow(t, i.id) + CountedIn(i.row)
                                            && (target in CountedNow(t, i.id) <==> target !in CountedIn(i.row))
  }

  /** The operations that break the match: a change of a follow's acceptance that some stored counter should
      have seen, a display like given or taken back through the service, and the deletion of an instance that
      no longer is what is stored. */
  predicate Breaks(s: State, op: Op) {
    var t := s.tables;
    match op
    case GiveLike(id, user, display) =>
      DisplayLikes(display) in t.counters && CanAdd(s, id, DisplayLike(user, display))
    case EditFollow(id, accepted) =>
      && id in t.rows && t.rows[id].Follow? && t.rows[id].accepted != accepted
      && (FollowingCount(t.rows[id].follower) in t.counters || FollowersCount(t.rows[id].following) in t.counters)
    case Delete(k, counted) => CanDelete(s, k, counted) && Miscounted(t, s.fetched[k])
    case TakeLike(k) => CanTakeLike(s, k) && DisplayLikes(s.fetched[k].row.display) in t.counters
    case _ => false
  }

  lemma BreakDrifts(s: State, op: Op) returns (target: Target)
    requires Breaks(s, op) && KeysStable(s)
    ensures target in s.tables.counters && target in Apply(s, op).tables.counters && OpDrift(s, op, target) != 0
  {
    var t := s.tables;
    match op
    case GiveLike(_, _, display) => target := DisplayLikes(display);
    case EditFollow(id, _) =>
      var f := FollowingCount(t.rows[id].follower);
      target := if f in t.counters then f else FollowersCount(t.rows[id].following);
    case Delete(k, _) =>
      target :| target in t.counters && target in CountedNow(t, s.fetched[k].id) + CountedIn(s.fetched[k].row)
                && (target in CountedNow(t, s.fetched[k].id) <==> target !in CountedIn(s.fetched[k].row));
    case TakeLike(k) => target := DisplayLikes(s.fetched[k].row.display);
  }

  lemma NoBreakNoDrift(s: State, op: Op, target: Target)
    requires KeysStable(s) && !Breaks(s, op) && target in s.tables.counters
    ensures OpDrift(s, op, target) == 0
  {
    if op.TakeLike? && CanTakeLike(s, op.instance) { assert SameThing(s.tables, s.fetched[op.instance]); }
  }

  /** A fetched instance and the stored row of its id differ at most in what can be edited. */
  predicate SameThing(t: Tables, i: Instance) {
    i.id in t.rows ==>
      match (t.rows[i.id], i.row)
      case (Follow(a, b, _), Follow(c, d, _)) => a == c && b == d
      case (DisplayComment(a, d, _), DisplayComment(b, e, _)) => a == b && d == e
      case (q, r) => q == r
  }

  /** Ids are not used again, so an id means one row for good. */
  predicate KeysStable(s: State) {
    && (forall k | 0 <= k < |s.fetched| :: s.fetched[k].id in s.tables.rows || s.fetched[k].id in s.gone)
    && (forall k | 0 <= k < |s.fetched| :: SameThing(s.tables, s.fetched[k]))
    && (forall id | id in s.gone :: id !in s.tables.rows)
  }

  lemma StepKeepsStable(s: State, op: Op)
    requires KeysStable(s)
    ensures KeysStable(Apply(s, op))
  {}

  predicate Matched(t: Tables) {
    forall target | target in t.counters :: Drift(t, target) == 0
  }

  lemma StepMatchedIff(s: State, op: Op)
    requires KeysStable(s) && Matched(s.tables)
    ensures Matched(Apply(s, op).tables) <==> !Breaks(s, op)
  {
    var t' := Apply(s, op).tables;
    forall target | target in t'.counters
      ensures target in s.tables.counters && Drift(t', target) == OpDrift(s, op, target)
    {
      StepDrift(s, op, target);
      assert Drift(s.tables, target) == 0;
    }
    if Breaks(s, op) {
      var target := BreakDrifts(s, op);
      assert Drift(t', target) != 0;
    } else {
      forall target | target in t'.counters ensures Drift(t', target) == 0 { NoBreakNoDrift(s, op, target); }
    }
  }

  predicate EverBreaks(s: State, ops: seq<Op>)
    decreases |ops|
  {
    ops != [] && (Breaks(s, ops[0]) || EverBreaks(Apply(s, ops[0]), ops[1..]))
  }

  predicate AlwaysMatched(s: State, ops: seq<Op>)
    decreases |ops|
  {
    Matched(s.tables) && (ops != [] ==> AlwaysMatched(Apply(s, ops[0]), ops[1..]))
  }

  /** However requests overlap, all counters equal their rows throughout a run exactly when no operation of it
      breaks the match. */
  lemma {:induction false} MatchedExactly(s: State, ops: seq<Op>)
    requires KeysStable(s) && Matched(s.tables)
    ensures AlwaysMatched(s, ops) <==> !EverBreaks(s, ops)
    decreases |ops|
  {
    if ops != [] {
      StepMatchedIff(s, ops[0]);
      StepKeepsStable(s, ops[0]);
      if !Breaks(s, ops[0]) { MatchedExactly(Apply(s, ops[0]), ops[1..]); }
      else { assert !Matched(Apply(s, ops[0]).tables); }
    }
  }

  // ---- what else an operation leaves --------------------------------------------------

  /** A new row raises exactly the counter columns that count it, by one each, and is stored as it is. */
  lemma InsertCounts(s: State, id: nat, r: Row, target: Target)
    requires CanAdd(s, id, r) && target in s.tables.counters
    ensures var t' := Apply(s, Insert(id, r)).tables;
            && t'.rows == s.tables.rows[id := r] && target in t'.counters
            && t'.counters[target] == s.tables.counters[target] + (if id in CountedRows(t'.rows, target) then 1 else 0)
  {
    CountedRowsAre(s.tables.rows[id := r], target);
  }

  /** A soft delete flags its comment and changes nothing else. */
  lemma SoftDeleteFlags(s: State, id: nat)
    requires id in s.tables.rows && s.tables.rows[id].DisplayComment?
    ensures var t' := Apply(s, SoftDeleteComment(id)).tables;
            && t'.counters == s.tables.counters && t'.rows.Keys == s.tables.rows.Keys
            && t'.rows[id] == DisplayComment(s.tables.rows[id].author, s.tables.rows[id].display, true)
            && forall i | i in t'.rows && i != id :: t'.rows[i] == s.tables.rows[i]
  {}

  predicate NoneNegative(t: Tables) { forall target | target in t.counters :: t.counters[target] >= 0 }

  /** No run, matching or not, stores a negative counter. */
  lemma {:induction false} NeverNegative(s: State, ops: seq<Op>)
    requires NoneNegative(s.tables)
    ensures NoneNegative(Run(s, ops).tables)
    decreases |ops|
  {
    if ops != [] { NeverNegative(Apply(s, ops[0]), ops[1..]); }
  }

  // ---- two requests that delete the same row -------------------------------------------

  lemma RunCons(s: State, op: Op, rest: seq<Op>)
    ensures Run(s, [op] + rest) == Run(Apply(s, op), rest)
    ensures EverBreaks(s, [op] + rest) <==> Breaks(s, op) || EverBreaks(Apply(s, op), rest)
  {
    assert ([op] + rest)[1..] == rest;
  }

  /** Both requests fetch the row before either deletes it. */
  function TwoDeletes(s: State, id: nat, counted: bool): seq<Op> {
    var n := |s.fetched|;
    [Fetch(id)] + ([Fetch(id)] + ([Delete(n, counted)] + ([Delete(n + 1, counted)] + [])))
  }

  lemma BothFetched(s: State, id: nat, counted: bool)
    requires id in s.tables.rows
    ensures var i := Instance(id, s.tables.rows[id], true);
            var s2 := s.(fetched := s.fetched + [i] + [i]);
            && Run(s, TwoDeletes(s, id, counted))
               == Apply(Apply(s2, Delete(|s.fetched|, counted)), Delete(|s.fetched| + 1, counted))
            && (EverBreaks(s, TwoDeletes(s, id, counted))
                <==> Breaks(s2, Delete(|s.fetched|, counted))
                     || Breaks(Apply(s2, Delete(|s.fetched|, counted)), Delete(|s.fetched| + 1, counted)))
  {
    var n := |s.fetched|;
    var i := Instance(id, s.tables.rows[id], true);
    var s1 := Apply(s, Fetch(id));
    var s2 := Apply(s1, Fetch(id));
    var s3 := Apply(s2, Delete(n, counted));
    assert s2 == s.(fetched := s.fetched + [i] + [i]);
    RunCons(s, Fetch(id), [Fetch(id)] + ([Delete(n, counted)] + ([Delete(n + 1, counted)] + [])));
    RunCons(s1, Fetch(id), [Delete(n, counted)] + ([Delete(n + 1, counted)] + []));
    RunCons(s2, Delete(n, counted), [Delete(n + 1, counted)] + []);
    RunCons(s3, Delete(n + 1, counted), []);
  }

  /** Two overlapping unlikes take a counter of two or more down twice, for one row: exactly then, and not at
      all when the second caller notices that nothing was deleted. */
  lemma OverlappingDeletes(s: State, id: nat, target: Target, counted: bool)
    requires KeysStable(s) && Matched(s.tables) && id in s.tables.rows && target in s.tables.counters
    requires CountedIn(s.tables.rows[id]) == {target}
    ensures var s' := Run(s, TwoDeletes(s, id, counted));
            && target in s'.tables.counters && id !in s'.tables.rows
            && Drift(s'.tables, target) == (if !counted && s.tables.counters[target] >= 2 then -1 else 0)
            && (EverBreaks(s, TwoDeletes(s, id, counted)) <==> !counted && s.tables.counters[target] >= 2)
  {
    var n, r := |s.fetched|, s.tables.rows[id];
    var i := Instance(id, r, true);
    BothFetched(s, id, counted);
    var s2 := s.(fetched := s.fetched + [i] + [i]);
    OneCounted(s.tables, id, target);
    assert CanDelete(s2, n, counted) && !Miscounted(s2.tables, s2.fetched[n]);
    var s3 := Apply(s2, Delete(n, counted));
    assert s3.fetched[n + 1] == i && s3.tables.counters[target] == s.tables.counters[target] - 1;
    StepDrift(s2, Delete(n, counted), target);
    StepDrift(s3, Delete(n + 1, counted), target);
    assert Drift(s.tables, target) == 0;
  }

  /** A counted row is counted. */
  lemma OneCounted(t: Tables, id: nat, target: Target)
    requires Matched(t) && id in t.rows && target in t.counters && target in CountedIn(t.rows[id])
    ensures t.counters[target] >= 1
  {
    CountedRowsAre(t.rows, target);
    assert Drift(t, target) == 0 && id in CountedRows(t.rows, target);
  }

  /** While counters match, deleting a row as it is stored is never refused. */
  lemma DeleteNotRefused(s: State, k: nat, counted: bool)
    requires Matched(s.tables) && Holds(s, k)
    requires s.fetched[k].id in s.tables.rows && s.tables.rows[s.fetched[k].id] == s.fetched[k].row
    ensures CanDelete(s, k, counted) && Apply(s, Delete(k, counted)).tables.rows == s.tables.rows - {s.fetched[k].id}
  {
    forall target | target in CountedIn(s.fetched[k].row) && target in s.tables.counters
      ensures s.tables.counters[target] >= 1
    {
      OneCounted(s.tables, s.fetched[k].id, target);
    }
  }

  /** A delete is refused exactly when its caller finds the row gone and minds, or a stored counter of the
      instance stands at zero; then nothing changes. */
  lemma DeleteRefusedExactly(s: State, k: nat, counted: bool)
    requires Holds(s, k) && (forall target | target in s.tables.counters :: s.tables.counters[target] >= 0)
    requires s.fetched[k].id in s.tables.rows || CountedIn(s.fetched[k].row) * s.tables.counters.Keys != {}
    ensures Apply(s, Delete(k, counted)).tables == s.tables
            <==> || (counted && s.fetched[k].id !in s.tables.rows)
                 || exists target | target in CountedIn(s.fetched[k].row) ::
                      target in s.tables.counters && s.tables.counters[target] == 0
  {
    var i, t := s.fetched[k], s.tables;
    if CanDelete(s, k, counted) {
      if i.id in t.rows {
        assert i.id !in Deleted(t, i, 1).rows;
      } else {
        var target :| target in CountedIn(i.row) * t.counters.Keys;
        assert Deleted(t, i, 1).counters[target] == t.counters[target] - 1;
      }
    }
  }

  /** After an acceptance the handler did not see, the unfollow is refused by the database. */
  lemma UnseenAcceptanceBlocksUnfollow(s: State, id: nat)
    requires var rows := s.tables.rows; id in rows && rows[id].Follow? && !rows[id].accepted
    requires var f := FollowersCount(s.tables.rows[id].following);
             f in s.tables.counters && s.tables.counters[f] == 0
    ensures var s1 := Apply(s, EditFollow(id, true));
            var s2 := Apply(Apply(s1, Fetch(id)), Delete(|s.fetched|, true));
            s2.tables == s1.tables && id in s2.tables.rows
  {
    var s1 := Apply(s, EditFollow(id, true));
    var f := FollowersCount(s.tables.rows[id].following);
    assert f in CountedIn(s1.tables.rows[id]) && s1.tables.counters[f] == 0;
  }

  // ---- one row per key -----------------------------------------------------------------

  /** At most one follow per pair of users, one like per user and post, comment, other object or display, and
      one reshare per user and post. */
  predicate OneEach(rows: map<nat, Row>) {
    && (forall i, j | i in rows && j in rows && rows[i].Follow? && rows[j].Follow? ::
          rows[i].follower == rows[j].follower && rows[i].following == rows[j].following ==> i == j)
    && (forall i, j | i in rows && j in rows && rows[i].PostLike? && rows[j].PostLike? ::
          rows[i].user == rows[j].user && rows[i].post == rows[j].post ==> i == j)
    && (forall i, j | i in rows && j in rows && rows[i].CommentLike? && rows[j].CommentLike? ::
          rows[i].user == rows[j].user && rows[i].comment == rows[j].comment ==> i == j)
    && (forall i, j | i in rows && j in rows && rows[i].OtherLike? && rows[j].OtherLike? ::
          rows[i].user == rows[j].user && rows[i].other == rows[j].other ==> i == j)
    && (forall i, j | i in rows && j in rows && rows[i].Reshare? && rows[j].Reshare? ::
          rows[i].user == rows[j].user && rows[i].post == rows[j].post ==> i == j)
    && (forall i, j | i in rows && j in rows && rows[i].DisplayLike? && rows[j].DisplayLike? ::
          rows[i].user == rows[j].user && rows[i].display == rows[j].display ==> i == j)
  }

  lemma KeysUniqueIsOneEach(rows: map<nat, Row>)
    ensures KeysUnique(rows) <==> OneEach(rows)
  {}

  predicate KeysUnique(rows: map<nat, Row>) {
    forall i, j | i in rows && j in rows && i != j :: !SameKey(rows[i], rows[j])
  }

  /** No run stores a second row with the same key, so no user is counted for two rows. */
  lemma RunKeepsOneEach(s: State, ops: seq<Op>)
    requires OneEach(s.tables.rows)
    ensures OneEach(Run(s, ops).tables.rows)
  {
    KeysUniqueIsOneEach(s.tables.rows);
    RunKeepsUnique(s, ops);
    KeysUniqueIsOneEach(Run(s, ops).tables.rows);
  }

  lemma {:induction false} RunKeepsUnique(s: State, ops: seq<Op>)
    requires KeysUnique(s.tables.rows)
    ensures KeysUnique(Run(s, ops).tables.rows)
    decreases |ops|
  {
    if ops != [] {
      StepKeepsUnique(s, ops[0]);
      RunKeepsUnique(Apply(s, ops[0]), ops[1..]);
    }
  }

  lemma SameKeySymmetric(r: Row, q: Row)
    ensures SameKey(r, q) <==> SameKey(q, r)
  {}

  lemma InsertKeepsUnique(rows: map<nat, Row>, id: nat, r: Row)
    requires KeysUnique(rows) && id !in rows && !Duplicate(rows, r)
    ensures KeysUnique(rows[id := r])
  {
    forall i | i in rows ensures !SameKey(rows[i], r) && !SameKey(r, rows[i]) { SameKeySymmetric(rows[i], r); }
  }

  lemma EditKeepsUnique(rows: map<nat, Row>, id: nat, r: Row)
    requires KeysUnique(rows) && id in rows
    requires forall q :: (SameKey(q, r) <==> SameKey(q, rows[id])) && (SameKey(r, q) <==> SameKey(rows[id], q))
    ensures KeysUnique(rows[id := r])
  {}

  lemma StepKeepsUnique(s: State, op: Op)
    requires KeysUnique(s.tables.rows)
    ensures KeysUnique(Apply(s, op).tables.rows)
  {
    var rows := s.tables.rows;
    match op
    case Insert(id, r) => if CanAdd(s, id, r) { InsertKeepsUnique(rows, id, r); }
    case GiveLike(id, user, display) =>
      if CanAdd(s, id, DisplayLike(user, display)) { InsertKeepsUnique(rows, id, DisplayLike(user, display)); }
    case EditFollow(id, accepted) =>
      if id in rows && rows[id].Follow? { EditKeepsUnique(rows, id, rows[id].(accepted := accepted)); }
    case SoftDeleteComment(id) =>
      if id in rows && rows[id].DisplayComment? { EditKeepsUnique(rows, id, rows[id].(isDeleted := true)); }
    case _ =>
  }

  // ---- likes of a display -----------------------------------------------------------

  function Likes(t: Tables, display: nat): nat { |CountedRows(t.rows, DisplayLikes(display))| }

  /** Service and signal both count a display like, so the column shows it twice. */
  predicate LikesDoubled(t: Tables) {
    forall target | target in t.counters && target.DisplayLikes? :: t.counters[target] == 2 * Likes(t, target.display)
  }

  /** What an operation adds to a like counter beyond twice what it adds to the likes. */
  function DoubleDrift(s: State, op: Op, display: nat): int {
    var t, likes := s.tables, DisplayLikes(display);
    match op
    case Insert(id, r) => if CanAdd(s, id, r) then -One(likes in CountedIn(r)) else 0
    case Delete(k, counted) =>
      if CanDelete(s, k, counted)
      then 2 * One(likes in CountedNow(t, s.fetched[k].id)) - One(likes in CountedIn(s.fetched[k].row)) else 0
    case TakeLike(k) =>
      if CanTakeLike(s, k)
      then 2 * One(likes in CountedNow(t, s.fetched[k].id)) - 2 * One(likes in CountedIn(s.fetched[k].row)) else 0
    case _ => 0
  }

  /** Likes that come or go past the service, and a like that two requests take back. */
  predicate BreaksDoubling(s: State, op: Op) {
    match op
    case Insert(id, r) => CanAdd(s, id, r) && r.DisplayLike? && DisplayLikes(r.display) in s.tables.counters
    case Delete(k, counted) =>
      CanDelete(s, k, counted) && s.fetched[k].row.DisplayLike?
      && DisplayLikes(s.fetched[k].row.display) in s.tables.counters
    case TakeLike(k) =>
      CanTakeLike(s, k) && s.fetched[k].id !in s.tables.rows
      && DisplayLikes(s.fetched[k].row.display) in s.tables.counters
    case _ => false
  }

  lemma StepDoubleDrift(s: State, op: Op, display: nat)
    requires DisplayLikes(display) in Apply(s, op).tables.counters
    ensures var likes, t' := DisplayLikes(display), Apply(s, op).tables;
            && likes in s.tables.counters
            && t'.counters[likes] - 2 * Likes(t', display)
               == s.tables.counters[likes] - 2 * Likes(s.tables, display) + DoubleDrift(s, op, display)
  {
    var t, likes := s.tables, DisplayLikes(display);
    match op
    case Insert(id, r) => if CanAdd(s, id, r) { AddedRow(t.rows, id, r, likes); }
    case GiveLike(id, user, d) =>
      if CanAdd(s, id, DisplayLike(user, d)) { AddedRow(t.rows, id, DisplayLike(user, d), likes); }
    case EditFollow(id, accepted) =>
      if id in t.rows && t.rows[id].Follow? { ChangedRow(t.rows, id, t.rows[id].(accepted := accepted), likes); }
    case SoftDeleteComment(id) =>
      if id in t.rows && t.rows[id].DisplayComment? { ChangedRow(t.rows, id, t.rows[id].(isDeleted := true), likes); }
    case Delete(k, counted) => if CanDelete(s, k, counted) { DeletedLikes(t, s.fetched[k], 1, likes); }
    case TakeLike(k) => if CanTakeLike(s, k) { DeletedLikes(t, s.fetched[k], 2, likes); }
    case _ =>
  }

  lemma DeletedLikes(t: Tables, i: Instance, times: nat, target: Target)
    requires target in t.counters
    ensures var t' := Deleted(t, i, times);
            && |CountedRows(t'.rows, target)| == |CountedRows(t.rows, target)| - One(target in CountedNow(t, i.id))
            && t'.counters[target] == t.counters[target] - (if target in CountedIn(i.row) then times else 0)
  {
    if i.id in t.rows { RemovedRow(t.rows, i.id, target); } else { assert t.rows - {i.id} == t.rows; }
  }

  lemma StepDoubledIff(s: State, op: Op)
    requires KeysStable(s) && LikesDoubled(s.tables)
    ensures LikesDoubled(Apply(s, op).tables) <==> !BreaksDoubling(s, op)
  {
    var t' := Apply(s, op).tables;
    forall display | DisplayLikes(display) in t'.counters
      ensures DisplayLikes(display) in s.tables.counters
      ensures t'.counters[DisplayLikes(display)] == 2 * Likes(t', display) + DoubleDrift(s, op, display)
      ensures !BreaksDoubling(s, op) ==> DoubleDrift(s, op, display) == 0
    {
      StepDoubleDrift(s, op, display);
      if !BreaksDoubling(s, op) { NoBreakNoDoubleDrift(s, op, display); }
    }
    if BreaksDoubling(s, op) {
      var display := match op case Insert(_, r) => r.display case Delete(k, _) => s.fetched[k].row.display
                              case TakeLike(k) => s.fetched[k].row.display case _ => 0;
      assert DisplayLikes(display) in t'.counters && DoubleDrift(s, op, display) != 0;
    }
  }

  lemma NoBreakNoDoubleDrift(s: State, op: Op, display: nat)
    requires KeysStable(s) && DisplayLikes(display) in s.tables.counters && !BreaksDoubling(s, op)
    ensures DoubleDrift(s, op, display) == 0
  {
    match op
    case Delete(k, counted) => if CanDelete(s, k, counted) { assert SameThing(s.tables, s.fetched[k]); }
    case TakeLike(k) => if CanTakeLike(s, k) { assert SameThing(s.tables, s.fetched[k]); }
    case _ =>
  }

  predicate EverBreaksDoubling(s: State, ops: seq<Op>)
    decreases |ops|
  {
    ops != [] && (BreaksDoubling(s, ops[0]) || EverBreaksDoubling(Apply(s, ops[0]), ops[1..]))
  }

  predicate AlwaysDoubled(s: State, ops: seq<Op>)
    decreases |ops|
  {
    LikesDoubled(s.tables) && (ops != [] ==> AlwaysDoubled(Apply(s, ops[0]), ops[1..]))
  }

  /** `likes_count` is twice the number of likes throughout a run exactly when likes come and go through the
      service only and no two requests take back the same like. */
  lemma {:induction false} DoubledExactly(s: State, ops: seq<Op>)
    requires KeysStable(s) && LikesDoubled(s.tables)
    ensures AlwaysDoubled(s, ops) <==> !EverBreaksDoubling(s, ops)
    decreases |ops|
  {
    if ops != [] {
      StepDoubledIff(s, ops[0]);
      StepKeepsStable(s, ops[0]);
      if !BreaksDoubling(s, ops[0]) { DoubledExactly(Apply(s, ops[0]), ops[1..]); }
      else { assert !LikesDoubled(Apply(s, ops[0]).tables); }
    }
  }

  // ---- the handlers, as they update the stored columns --------------------------------

  class CounterColumns {
    var counters: map<Target, int>

    constructor (counters: map<Target, int>)
      ensures this.counters == counters
    {
      this.counters := counters;
    }

    method AddTo(target: Target, delta: int)
      modifies this
      ensures counters == Shift(old(counters), {target}, delta)
    {
      if target in counters { counters := counters[target := counters[target] + delta]; }
    }

    /** The post_save and post_delete receivers of all counted models. */
    method RowChanged(instance: Row, delta: int)
      modifies this
      ensures counters == Shift(old(counters), CountedIn(instance), delta)
    {
      match instance {
        case Follow(follower, following, accepted) =>
          if accepted {
            AddTo(FollowingCount(follower), delta);
            AddTo(FollowersCount(following), delta);
          }
        case PostLike(_, post) => AddTo(PostLikes(post), delta);
        case CommentLike(_, comment) => AddTo(CommentLikes(comment), delta);
        case OtherLike(_, _) =>
        case Reshare(_, post) => AddTo(Reshares(post), delta);
        case DisplayComment(_, display, _) => AddTo(DisplayComments(display), delta);
        case DisplayLike(_, display) => AddTo(DisplayLikes(display), delta);
      }
    }
  }
}
