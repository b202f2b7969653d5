/**
  The profile-image pipeline: `_dispatch_profile_image_upload` and `_delete_profile_image`
  (accounts/views.py), `process_profile_image` (accounts/tasks.py) and the staged bytes of
  utils/staging.py, for one image slot of one profile.  Uploads compete; every task may fail, crash,
  be retried or be delivered again at any point, but the attempts of one task do not overlap.
  Task number i owns media number i and staged blob number i.
*/
module ProfileImage {
  import opened Options

  datatype Phase =
    | Queued                        // waiting for a worker, or for a retry
    | Peeked                        // the bytes were found and decoded
    | Uploaded                      // stored; the blob is still staged
    | Dropped                       // the blob is gone
    | Swapped(prev: Option<nat>)    // committed; cleanup of `prev` not queued yet
    | Finished
    | Failed

  datatype Task = Task(phase: Phase, staged: bool)

  /** A removal that has read the slot and not saved yet. */
  datatype Removal = Removal(seen: nat, open: bool)

  /** `swappedIn`, `swappedOut` record what the slot went through. */
  datatype State = State(slot: Option<nat>, tasks: seq<Task>, removals: seq<Removal>, cleanups: seq<nat>,
                         swappedIn: seq<nat>, swappedOut: seq<nat>)

  datatype Step =
    | Dispatch
    | ExpireBlob(task: nat)
    | Peek(task: nat)
    | Reject(task: nat)
    | Upload(task: nat)
    | Drop(task: nat)
    | Swap(task: nat, profile: bool)
    | Enqueue(task: nat)
    | Retry(task: nat)              // an exception, a crash or a redelivery
    | ReadSlot
    | ClearSlot(removal: nat)

  predicate At(s: State, i: nat, phase: Phase) { i < |s.tasks| && s.tasks[i].phase == phase }

  function Put(s: State, i: nat, t: Task): State
    requires i < |s.tasks|
  {
    s.(tasks := s.tasks[i := t])
  }

  /** What leaves the slot when `next` takes its place. */
  function Leaves(slot: Option<nat>, next: Option<nat>): seq<nat> {
    if slot.Some? && slot != next then [slot.value] else []
  }

  function SwapIn(s: State, i: nat): State
    requires i < |s.tasks|
  {
    var prev := if s.slot.Some? && s.slot.value != i then s.slot else None;
    Put(s, i, s.tasks[i].(phase := Swapped(prev)))
      .(slot := Some(i), swappedIn := s.swappedIn + [i], swappedOut := s.swappedOut + Leaves(s.slot, Some(i)))
  }

  function Apply(s: State, step: Step): State {
    match step
    case Dispatch => s.(tasks := s.tasks + [Task(Queued, true)])
    case ExpireBlob(i) => if i < |s.tasks| then Put(s, i, s.tasks[i].(staged := false)) else s
    case Peek(i) =>
      if At(s, i, Queued) then Put(s, i, s.tasks[i].(phase := if s.tasks[i].staged then Peeked else Failed)) else s
    case Reject(i) => if At(s, i, Peeked) then Put(s, i, Task(Failed, false)) else s
    case Upload(i) => if At(s, i, Peeked) then Put(s, i, s.tasks[i].(phase := Uploaded)) else s
    case Drop(i) => if At(s, i, Uploaded) then Put(s, i, Task(Dropped, false)) else s
    case Swap(i, profile) =>
      if !At(s, i, Dropped) then s
      else if profile then SwapIn(s, i)
      else Put(s, i, s.tasks[i].(phase := Failed))
    case Enqueue(i) =>
      if i < |s.tasks| && s.tasks[i].phase.Swapped? then
        var prev := s.tasks[i].phase.prev;
        Put(s, i, s.tasks[i].(phase := Finished))
          .(cleanups := if prev.Some? then s.cleanups + [prev.value] else s.cleanups)
      else s
    case Retry(i) => if i < |s.tasks| then Put(s, i, s.tasks[i].(phase := Queued)) else s
    case ReadSlot => if s.slot.Some? then s.(removals := s.removals + [Removal(s.slot.value, true)]) else s
    case ClearSlot(r) =>
      if r < |s.removals| && s.removals[r].open then
        s.(slot := None, removals := s.removals[r := s.removals[r].(open := false)],
           cleanups := s.cleanups + [s.removals[r].seen], swappedOut := s.swappedOut + Leaves(s.slot, None))
      else s
  }

  function Run(s: State, steps: seq<Step>): State
    decreases |steps|
  {
    if steps == [] then s else Run(Apply(s, steps[0]), steps[1..])
  }

  function Empty(): State { State(None, [], [], [], [], []) }

  predicate NoDup(xs: seq<nat>) {
    forall i, j | 0 <= i < j < |xs| :: xs[i] != xs[j]
  }

  // ---- every run -------------------------------------------------------------------

  predicate Active(p: Phase) { p == Peeked || p == Uploaded || p == Dropped }

  /** A media that was swapped in can never get to the swap again: its bytes are gone. */
  predicate SpentTasks(s: State) {
    && (forall i | 0 <= i < |s.tasks| && i in s.swappedIn :: !s.tasks[i].staged && !Active(s.tasks[i].phase))
    && (forall i | 0 <= i < |s.tasks| && s.tasks[i].phase == Dropped :: !s.tasks[i].staged)
    && (forall i | 0 <= i < |s.tasks| && s.tasks[i].phase.Swapped? :: i in s.swappedIn)
    && (forall k | 0 <= k < |s.swappedIn| :: s.swappedIn[k] < |s.tasks|)
  }

  function Current(s: State): seq<nat> { if s.slot.Some? then [s.slot.value] else [] }

  /** Everything ever swapped in is the current media or was swapped out, once. */
  predicate SlotBalanced(s: State) {
    && NoDup(s.swappedIn) && NoDup(s.swappedOut + Current(s))
    && multiset(s.swappedIn) == multiset(s.swappedOut) + multiset(Current(s))
  }

  predicate Valid(s: State) { SpentTasks(s) && SlotBalanced(s) }

  lemma MemberOfSum(s: State, m: nat)
    requires SlotBalanced(s)
    ensures m in s.swappedIn <==> m in s.swappedOut || s.slot == Some(m)
  {
    assert m in s.swappedIn <==> m in multiset(s.swappedIn);
    assert m in s.swappedOut <==> m in multiset(s.swappedOut);
  }

  lemma SwapKeepsValid(s: State, i: nat)
    requires Valid(s) && At(s, i, Dropped)
    ensures i !in s.swappedIn && s.slot != Some(i) && Valid(SwapIn(s, i))
  {
    MemberOfSum(s, i);
    var s' := SwapIn(s, i);
    assert s'.swappedOut == s.swappedOut + Current(s);
    assert multiset(s'.swappedOut) == multiset(s.swappedOut) + multiset(Current(s));
    assert s'.swappedOut + Current(s') == s.swappedOut + Current(s) + [i];
  }

  lemma ClearKeepsBalance(s: State, r: nat)
    requires Valid(s) && r < |s.removals| && s.removals[r].open
    ensures Valid(Apply(s, ClearSlot(r)))
  {
    var s' := Apply(s, ClearSlot(r));
    assert s'.swappedOut == s.swappedOut + Current(s);
    assert multiset(s'.swappedOut) == multiset(s.swappedOut) + multiset(Current(s));
    assert s'.swappedOut + Current(s') == s.swappedOut + Current(s);
  }

  /** A task may move while the slot stays, but a media that was swapped in stays spent. */
  lemma PutKeepsValid(s: State, i: nat, t: Task)
    requires Valid(s) && i < |s.tasks|
    requires i in s.swappedIn ==> !t.staged && !Active(t.phase)
    requires t.phase == Dropped ==> !t.staged
    requires t.phase.Swapped? ==> i in s.swappedIn
    ensures Valid(Put(s, i, t))
  {}

  lemma SlotBalanceCarries(s: State, s': State)
    requires SlotBalanced(s) && s'.slot == s.slot && s'.swappedIn == s.swappedIn && s'.swappedOut == s.swappedOut
    ensures SlotBalanced(s')
  {}

  lemma TaskStepKeepsValid(s: State, step: Step, i: nat)
    requires Valid(s) && i < |s.tasks|
    requires step in {ExpireBlob(i), Peek(i), Reject(i), Upload(i), Drop(i), Swap(i, false), Retry(i)}
    ensures Valid(Apply(s, step))
  {
    if Apply(s, step) != s { PutKeepsValid(s, i, Apply(s, step).tasks[i]); }
  }

  lemma EnqueueKeepsValid(s: State, i: nat)
    requires Valid(s)
    ensures Valid(Apply(s, Enqueue(i)))
  {
    if i < |s.tasks| && s.tasks[i].phase.Swapped? {
      PutKeepsValid(s, i, s.tasks[i].(phase := Finished));
      SlotBalanceCarries(s, Apply(s, Enqueue(i)));
    }
  }

  lemma StepKeepsValid(s: State, step: Step)
    requires Valid(s)
    ensures Valid(Apply(s, step))
  {
    match step
    case Dispatch => SlotBalanceCarries(s, Apply(s, step));
    case ReadSlot => SlotBalanceCarries(s, Apply(s, step));
    case Swap(i, true) => if At(s, i, Dropped) { SwapKeepsValid(s, i); }
    case Enqueue(i) => EnqueueKeepsValid(s, i);
    case ClearSlot(r) => if r < |s.removals| && s.removals[r].open { ClearKeepsBalance(s, r); }
    case _ => if step.task < |s.tasks| { TaskStepKeepsValid(s, step, step.task); }
  }

  lemma StepKeepsTasks(s: State, step: Step)
    ensures |s.tasks| <= |Apply(s, step).tasks|
  {}

  lemma {:induction false} RunKeepsValid(s: State, steps: seq<Step>)
    requires Valid(s)
    ensures Valid(Run(s, steps)) && |s.tasks| <= |Run(s, steps).tasks|
    decreases |steps|
  {
    if steps != [] {
      StepKeepsValid(s, steps[0]);
      StepKeepsTasks(s, steps[0]);
      RunKeepsValid(Apply(s, steps[0]), steps[1..]);
    }
  }

  /** In every interleaving each staged upload is swapped in at most once, and all committed media are
      exactly the current one plus those swapped out. */
  lemma SwappedAtMostOnce(steps: seq<Step>)
    ensures var s := Run(Empty(), steps);
            && NoDup(s.swappedIn)
            && multiset(s.swappedIn) == multiset(s.swappedOut) + multiset(Current(s))
            && forall k | 0 <= k < |s.swappedIn| :: s.swappedIn[k] < |s.tasks| && !s.tasks[s.swappedIn[k]].staged
  {
    RunKeepsValid(Empty(), steps);
  }

  // ---- the cleanup queue --------------------------------------------------------------

  /** Task i has committed a swap and still has to queue the cleanup of `m`. */
  predicate Owes(s: State, i: nat, m: nat) { i < |s.tasks| && s.tasks[i].phase == Swapped(Some(m)) }

  predicate Promised(s: State, m: nat) { m in s.cleanups || exists i | 0 <= i < |s.tasks| :: Owes(s, i, m) }

  /** No media is queued twice, now or by what is still owed, and only media that left the slot are. */
  predicate CleanQueue(s: State) {
    && NoDup(s.cleanups) && (forall k | 0 <= k < |s.cleanups| :: s.cleanups[k] in s.swappedOut)
    && (forall i | 0 <= i < |s.tasks| && s.tasks[i].phase.Swapped? && s.tasks[i].phase.prev.Some? ::
          s.tasks[i].phase.prev.value in s.swappedOut && s.tasks[i].phase.prev.value !in s.cleanups)
    && (forall i, j | 0 <= i < j < |s.tasks| && s.tasks[i].phase.Swapped? && s.tasks[j].phase.Swapped? ::
          s.tasks[i].phase.prev.Some? ==> s.tasks[i].phase.prev != s.tasks[j].phase.prev)
  }

  /** The removal's save comes too late: the slot no longer holds what it read.  The row, read again
      under its lock before the save, would tell. */
  predicate Overtaken(s: State, step: Step) {
    && step.ClearSlot? && step.removal < |s.removals| && s.removals[step.removal].open
    && s.slot != Some(s.removals[step.removal].seen)
  }

  /** What a removal has read was committed at some time. */
  predicate RemovalsSawCommitted(s: State) {
    forall r | 0 <= r < |s.removals| :: s.removals[r].seen in s.swappedIn
  }

  lemma CurrentIsNotOut(s: State)
    requires Valid(s) && s.slot.Some?
    ensures s.slot.value !in s.swappedOut
  {
    var all := s.swappedOut + Current(s);
    assert all[|s.swappedOut|] == s.slot.value;
    forall k | 0 <= k < |s.swappedOut| ensures s.swappedOut[k] != s.slot.value {
      assert all[k] == s.swappedOut[k];
    }
  }

  lemma SwapKeepsQueue(s: State, i: nat)
    requires Valid(s) && CleanQueue(s) && At(s, i, Dropped)
    ensures CleanQueue(SwapIn(s, i))
  {
    SwapKeepsValid(s, i);
    var s' := SwapIn(s, i);
    if s.slot.Some? {
      var prev := s.slot.value;
      CurrentIsNotOut(s);
      assert forall m | m in s.swappedOut :: m in s'.swappedOut;
      assert s'.swappedOut[|s.swappedOut|] == prev;
    }
  }

  lemma EnqueueKeepsQueue(s: State, i: nat)
    requires CleanQueue(s)
    ensures CleanQueue(Apply(s, Enqueue(i)))
  {}

  /** A removal that finds the slot as it read it adds a cleanup that nobody else has promised. */
  lemma TimelyRemovalKeepsQueue(s: State, r: nat)
    requires Valid(s) && CleanQueue(s) && r < |s.removals| && s.removals[r].open && s.slot == Some(s.removals[r].seen)
    ensures CleanQueue(Apply(s, ClearSlot(r)))
  {
    CurrentIsNotOut(s);
    UnpromisedMayBeQueued(s, r);
  }

  lemma UnpromisedMayBeQueued(s: State, r: nat)
    requires CleanQueue(s) && r < |s.removals| && s.removals[r].open
    requires !Promised(s, s.removals[r].seen) && s.removals[r].seen in s.swappedOut + Current(s)
    ensures CleanQueue(Apply(s, ClearSlot(r)))
  {
    var m, s' := s.removals[r].seen, Apply(s, ClearSlot(r));
    assert s'.swappedOut == s.swappedOut + Current(s);
    assert forall k | 0 <= k < |s.cleanups| :: s.cleanups[k] in s'.swappedOut;
    forall i | 0 <= i < |s.tasks| && s.tasks[i].phase.Swapped? && s.tasks[i].phase.prev.Some?
      ensures s.tasks[i].phase.prev.value != m
    {
      assert !Owes(s, i, m);
    }
  }

  lemma PromisedTwice(s: State, r: nat)
    requires r < |s.removals| && s.removals[r].open && Promised(s, s.removals[r].seen)
    ensures !CleanQueue(Apply(s, ClearSlot(r)))
  {
    var m, s' := s.removals[r].seen, Apply(s, ClearSlot(r));
    assert s'.cleanups[|s.cleanups|] == m;
    if m in s.cleanups {
      var k :| 0 <= k < |s.cleanups| && s.cleanups[k] == m;
      assert s'.cleanups[k] == m;
    } else {
      var i: nat :| i < |s.tasks| && Owes(s, i, m);
      assert s'.tasks[i].phase.prev.value == m && m in s'.cleanups;
    }
  }

  lemma StepKeepsSeen(s: State, step: Step)
    requires Valid(s) && RemovalsSawCommitted(s)
    ensures RemovalsSawCommitted(Apply(s, step))
  {
    if step.ReadSlot? && s.slot.Some? { MemberOfSum(s, s.slot.value); }
  }

  /** Only a removal can spoil the queue. */
  lemma OtherStepKeepsQueue(s: State, step: Step)
    requires Valid(s) && CleanQueue(s) && !step.ClearSlot?
    ensures CleanQueue(Apply(s, step))
  {
    match step
    case Swap(i, true) => if At(s, i, Dropped) { SwapKeepsQueue(s, i); }
    case Enqueue(i) => EnqueueKeepsQueue(s, i);
    case Dispatch =>
    case ReadSlot =>
    case ClearSlot(_) =>
    case _ => if step.task < |s.tasks| { TaskStepKeepsQueue(s, step, step.task); }
  }

  lemma TaskStepKeepsQueue(s: State, step: Step, i: nat)
    requires CleanQueue(s) && i < |s.tasks|
    requires step in {ExpireBlob(i), Peek(i), Reject(i), Upload(i), Drop(i), Swap(i, false), Retry(i)}
    ensures CleanQueue(Apply(s, step))
  {}

  // ---- cleanups that got lost -------------------------------------------------------------

  /** The media whose cleanup a step loses: a crash after the swap forgets what it owed, and an overtaken
      removal empties the slot of another media than the one it queues. */
  function LostBy(s: State, step: Step): set<nat> {
    match step
    case Retry(i) => if i < |s.tasks| && s.tasks[i].phase.Swapped? && s.tasks[i].phase.prev.Some?
                     then {s.tasks[i].phase.prev.value} else {}
    case ClearSlot(r) => if Overtaken(s, step) && s.slot.Some? then {s.slot.value} else {}
    case _ => {}
  }

  /** The media a removal queues, lost or not. */
  function FoundBy(s: State, step: Step): set<nat> {
    if step.ClearSlot? && step.removal < |s.removals| && s.removals[step.removal].open
    then {s.removals[step.removal].seen} else {}
  }

  function Lost(s: State, lost: set<nat>, step: Step): set<nat> { lost + LostBy(s, step) - FoundBy(s, step) }

  /** Everything that left the slot is promised a cleanup, or its cleanup got lost. */
  predicate Tracked(s: State, lost: set<nat>) {
    && (forall m | m in s.swappedOut :: Promised(s, m) || m in lost)
    && (forall m | m in lost :: m in s.swappedOut && !Promised(s, m))
  }

  lemma PromisesCarry(s: State, s': State)
    requires s'.cleanups == s.cleanups && |s.tasks| <= |s'.tasks|
    requires forall i | 0 <= i < |s.tasks| :: s.tasks[i].phase == s'.tasks[i].phase
                                              || (!Owing(s.tasks[i]) && !Owing(s'.tasks[i]))
    requires forall i | |s.tasks| <= i < |s'.tasks| :: !Owing(s'.tasks[i])
    ensures forall m :: Promised(s, m) <==> Promised(s', m)
  {
    forall m ensures Promised(s, m) <==> Promised(s', m) {
      if i :| 0 <= i < |s.tasks| && Owes(s, i, m) { assert Owing(s.tasks[i]); assert Owes(s', i, m); }
      if i :| 0 <= i < |s'.tasks| && Owes(s', i, m) { assert Owing(s'.tasks[i]); assert Owes(s, i, m); }
    }
  }

  predicate Owing(t: Task) { t.phase.Swapped? && t.phase.prev.Some? }

  lemma SwapTracked(s: State, lost: set<nat>, i: nat)
    requires Valid(s) && Tracked(s, lost) && At(s, i, Dropped)
    ensures Tracked(SwapIn(s, i), lost)
  {
    SwapKeepsValid(s, i);
    var s' := SwapIn(s, i);
    if s.slot.Some? { CurrentIsNotOut(s); assert Owes(s', i, s.slot.value); }
    forall m | m in s.swappedOut ensures Promised(s, m) <==> Promised(s', m) {
      if j :| 0 <= j < |s.tasks| && Owes(s, j, m) { assert Owes(s', j, m); }
      if j :| 0 <= j < |s'.tasks| && Owes(s', j, m) && m !in s.cleanups { assert Owes(s, j, m); }
    }
  }

  lemma EnqueueTracked(s: State, lost: set<nat>, i: nat)
    requires CleanQueue(s) && Tracked(s, lost)
    ensures Tracked(Apply(s, Enqueue(i)), lost)
  {
    var s' := Apply(s, Enqueue(i));
    forall m ensures Promised(s, m) <==> Promised(s', m) {
      if j :| 0 <= j < |s.tasks| && Owes(s, j, m) { assert m in s'.cleanups || Owes(s', j, m); }
      if j :| 0 <= j < |s'.tasks| && Owes(s', j, m) { assert Owes(s, j, m); }
      if m in s'.cleanups && m !in s.cleanups { assert Owes(s, i, m); }
    }
  }

  lemma CrashTracked(s: State, lost: set<nat>, i: nat)
    requires CleanQueue(s) && Tracked(s, lost) && i < |s.tasks| && Owing(s.tasks[i])
    ensures Tracked(Apply(s, Retry(i)), Lost(s, lost, Retry(i)))
  {
    var s', gone := Apply(s, Retry(i)), s.tasks[i].phase.prev.value;
    forall m ensures Promised(s', m) <==> Promised(s, m) && m != gone {
      if j :| 0 <= j < |s'.tasks| && Owes(s', j, m) { assert Owes(s, j, m); }
      if j :| 0 <= j < |s.tasks| && Owes(s, j, m) && m != gone { assert Owes(s', j, m); }
    }
  }

  lemma RemovalTracked(s: State, lost: set<nat>, r: nat)
    requires Valid(s) && CleanQueue(s) && Tracked(s, lost) && r < |s.removals| && s.removals[r].open
    requires s.slot == Some(s.removals[r].seen) || s.removals[r].seen in lost
    ensures Tracked(Apply(s, ClearSlot(r)), Lost(s, lost, ClearSlot(r)))
  {
    var s', seen := Apply(s, ClearSlot(r)), s.removals[r].seen;
    if s.slot.Some? { CurrentIsNotOut(s); CurrentNeverQueued(s); }
    assert s'.swappedOut == s.swappedOut + Current(s);
    forall m ensures Promised(s', m) <==> Promised(s, m) || m == seen {
      assert s'.cleanups[|s.cleanups|] == seen;
      if j :| 0 <= j < |s'.tasks| && Owes(s', j, m) { assert Owes(s, j, m); }
      if j :| 0 <= j < |s.tasks| && Owes(s, j, m) { assert Owes(s', j, m); }
    }
  }

  /** A step that neither swaps, removes nor touches a promise. */
  lemma QuietTracked(s: State, lost: set<nat>, step: Step)
    requires Tracked(s, lost) && LostBy(s, step) == {}
    requires !step.Enqueue? && !step.ClearSlot? && !(step.Swap? && step.profile)
    ensures Tracked(Apply(s, step), Lost(s, lost, step))
  {
    PromisesCarry(s, Apply(s, step));
    assert FoundBy(s, step) == {};
  }

  lemma StepTracked(s: State, lost: set<nat>, step: Step)
    requires Valid(s) && CleanQueue(s) && Tracked(s, lost) && (Overtaken(s, step) ==> FoundBy(s, step) <= lost)
    ensures Tracked(Apply(s, step), Lost(s, lost, step))
  {
    match step
    case Swap(i, true) => if At(s, i, Dropped) { SwapTracked(s, lost, i); }
    case Enqueue(i) => EnqueueTracked(s, lost, i);
    case Retry(i) =>
      if i < |s.tasks| && Owing(s.tasks[i]) { CrashTracked(s, lost, i); } else { QuietTracked(s, lost, step); }
    case ClearSlot(r) =>
      if r < |s.removals| && s.removals[r].open {
        assert s.removals[r].seen in FoundBy(s, step);
        RemovalTracked(s, lost, r);
      }
    case _ => QuietTracked(s, lost, step);
  }

  // ---- exactly when the queue stays clean ----------------------------------------------------

  /** An overtaken removal of a media whose cleanup is not lost: somebody else has it in hand. */
  predicate Requeues(s: State, lost: set<nat>, step: Step) { Overtaken(s, step) && !(FoundBy(s, step) <= lost) }

  lemma StepCleanExactly(s: State, lost: set<nat>, step: Step)
    requires Valid(s) && CleanQueue(s) && RemovalsSawCommitted(s) && Tracked(s, lost)
    ensures CleanQueue(Apply(s, step)) <==> !Requeues(s, lost, step)
  {
    if !step.ClearSlot? || step.removal >= |s.removals| || !s.removals[step.removal].open {
      if !step.ClearSlot? { OtherStepKeepsQueue(s, step); }
    } else {
      var r := step.removal;
      MemberOfSum(s, s.removals[r].seen);
      if s.slot == Some(s.removals[r].seen) { TimelyRemovalKeepsQueue(s, r); }
      else if s.removals[r].seen in lost { UnpromisedMayBeQueued(s, r); }
      else { PromisedTwice(s, r); }
    }
  }

  predicate AlwaysClean(s: State, steps: seq<Step>)
    decreases |steps|
  {
    CleanQueue(s) && (steps != [] ==> AlwaysClean(Apply(s, steps[0]), steps[1..]))
  }

  predicate EverRequeues(s: State, lost: set<nat>, steps: seq<Step>)
    decreases |steps|
  {
    steps != [] && (Requeues(s, lost, steps[0])
                    || EverRequeues(Apply(s, steps[0]), Lost(s, lost, steps[0]), steps[1..]))
  }

  /** In every run: nothing is queued twice and only media that left the slot are queued, exactly when
      each removal that comes too late finds a media whose cleanup a crash or another late removal lost. */
  lemma {:induction false} CleanExactly(s: State, lost: set<nat>, steps: seq<Step>)
    requires Valid(s) && CleanQueue(s) && RemovalsSawCommitted(s) && Tracked(s, lost)
    ensures AlwaysClean(s, steps) <==> !EverRequeues(s, lost, steps)
    decreases |steps|
  {
    if steps != [] {
      StepCleanExactly(s, lost, steps[0]);
      StepKeepsValid(s, steps[0]);
      StepKeepsSeen(s, steps[0]);
      if !Requeues(s, lost, steps[0]) {
        StepTracked(s, lost, steps[0]);
        CleanExactly(Apply(s, steps[0]), Lost(s, lost, steps[0]), steps[1..]);
      } else {
        assert !CleanQueue(Apply(s, steps[0]));
      }
    }
  }

  predicate EverOvertaken(s: State, steps: seq<Step>)
    decreases |steps|
  {
    steps != [] && (Overtaken(s, steps[0]) || EverOvertaken(Apply(s, steps[0]), steps[1..]))
  }

  /** A task is retried between its swap and the queueing of the cleanup it owes. */
  predicate EverForgets(s: State, steps: seq<Step>)
    decreases |steps|
  {
    steps != [] && ((steps[0].Retry? && LostBy(s, steps[0]) != {}) || EverForgets(Apply(s, steps[0]), steps[1..]))
  }

  lemma {:induction false} NothingForgotten(s: State, steps: seq<Step>)
    requires !EverForgets(s, steps)
    ensures EverRequeues(s, {}, steps) <==> EverOvertaken(s, steps)
    decreases |steps|
  {
    if steps != [] && !Overtaken(s, steps[0]) {
      assert Lost(s, {}, steps[0]) == {};
      NothingForgotten(Apply(s, steps[0]), steps[1..]);
    } else if steps != [] {
      assert s.removals[steps[0].removal].seen in FoundBy(s, steps[0]);
    }
  }

  /** As long as no task forgets a cleanup, the queue stays clean exactly when every removal finds the slot
      as it read it. */
  lemma QueueCleanExactly(steps: seq<Step>)
    requires !EverForgets(Empty(), steps)
    ensures AlwaysClean(Empty(), steps) <==> !EverOvertaken(Empty(), steps)
  {
    CleanExactly(Empty(), {}, steps);
    NothingForgotten(Empty(), steps);
  }

  /** In every run that test alone is enough. */
  lemma {:induction false} GuardSuffices(s: State, steps: seq<Step>)
    requires Valid(s) && CleanQueue(s) && RemovalsSawCommitted(s) && !EverOvertaken(s, steps)
    ensures AlwaysClean(s, steps)
    decreases |steps|
  {
    if steps != [] {
      if steps[0].ClearSlot? {
        var r := steps[0].removal;
        if r < |s.removals| && s.removals[r].open { TimelyRemovalKeepsQueue(s, r); }
      } else {
        OtherStepKeepsQueue(s, steps[0]);
      }
      StepKeepsValid(s, steps[0]);
      StepKeepsSeen(s, steps[0]);
      GuardSuffices(Apply(s, steps[0]), steps[1..]);
    }
  }

  /** With a clean queue the picture on show is never up for deletion. */
  lemma CurrentNeverQueued(s: State)
    requires Valid(s) && CleanQueue(s) && s.slot.Some?
    ensures !Promised(s, s.slot.value)
  {
    CurrentIsNotOut(s);
  }

  lemma OvertakenCons(s: State, step: Step, rest: seq<Step>)
    ensures EverOvertaken(s, [step] + rest) <==> Overtaken(s, step) || EverOvertaken(Apply(s, step), rest)
    ensures EverForgets(s, [step] + rest)
            <==> (step.Retry? && LostBy(s, step) != {}) || EverForgets(Apply(s, step), rest)
    ensures AlwaysClean(s, [step] + rest) <==> CleanQueue(s) && AlwaysClean(Apply(s, step), rest)
  {
    assert ([step] + rest)[1..] == rest;
  }

  /** The steps of two removals that read the slot before either of them saves. */
  function TwoRemovals(n: nat): seq<Step> {
    [ReadSlot] + ([ReadSlot] + ([ClearSlot(n)] + ([ClearSlot(n + 1)] + [])))
  }

  /** Two removals that read the same picture queue it twice. */
  lemma DoubleRemoval(s: State)
    requires Valid(s) && CleanQueue(s) && RemovalsSawCommitted(s) && s.slot.Some?
    ensures EverOvertaken(s, TwoRemovals(|s.removals|)) && !AlwaysClean(s, TwoRemovals(|s.removals|))
  {
    var n := |s.removals|;
    var r3: seq<Step> := [ClearSlot(n + 1)] + [];
    var r2 := [ClearSlot(n)] + r3;
    var s1 := Apply(s, ReadSlot);
    var s2 := Apply(s1, ReadSlot);
    assert s2.removals == s.removals + [Removal(s.slot.value, true)] + [Removal(s.slot.value, true)];
    SecondRemoval(s2, n);
    OvertakenCons(s2, ClearSlot(n), r3);
    OvertakenCons(s1, ReadSlot, r2);
    OvertakenCons(s, ReadSlot, [ReadSlot] + r2);
  }

  lemma SecondRemoval(s: State, n: nat)
    requires n + 1 < |s.removals| && s.slot.Some?
    requires s.removals[n] == s.removals[n + 1] == Removal(s.slot.value, true)
    ensures var s', last := Apply(s, ClearSlot(n)), [ClearSlot(n + 1)] + [];
            EverOvertaken(s', last) && !AlwaysClean(s', last)
  {
    var s' := Apply(s, ClearSlot(n));
    assert s'.cleanups[|s.cleanups|] == s.slot.value;
    PromisedTwice(s', n + 1);
    OvertakenCons(s', ClearSlot(n + 1), []);
  }

  /** A picture is read for removal, a competing upload takes its place and dies before it queues the
      cleanup; the removal is overtaken, and yet it queues a media nobody else has in hand. */
  function ForgottenCleanup(n: nat, i: nat): seq<Step> {
    [ReadSlot] + ([Swap(i, true)] + ([Retry(i)] + ([ClearSlot(n)] + [])))
  }

  lemma GuardNotNeeded(s: State, i: nat)
    requires Valid(s) && CleanQueue(s) && RemovalsSawCommitted(s) && s.slot.Some? && At(s, i, Dropped)
    requires Tracked(s, {})
    ensures EverOvertaken(s, ForgottenCleanup(|s.removals|, i)) && AlwaysClean(s, ForgottenCleanup(|s.removals|, i))
  {
    var n := |s.removals|;
    ReadThenSwap(s, i);
    var s1 := Apply(s, ReadSlot);
    CrashThenRemoval(Apply(s1, Swap(i, true)), i, n);
    OvertakenCons(s1, Swap(i, true), [Retry(i)] + ([ClearSlot(n)] + []));
    OvertakenCons(s, ReadSlot, [Swap(i, true)] + ([Retry(i)] + ([ClearSlot(n)] + [])));
  }

  /** Some run has a removal that comes too late and keeps the queue clean throughout. */
  ghost predicate HarmlessAhead(s: State) { exists steps :: EverOvertaken(s, steps) && AlwaysClean(s, steps) }

  lemma HarmlessBefore(s: State, step: Step)
    requires CleanQueue(s) && HarmlessAhead(Apply(s, step))
    ensures HarmlessAhead(s)
  {
    var steps :| EverOvertaken(Apply(s, step), steps) && AlwaysClean(Apply(s, step), steps);
    OvertakenCons(s, step, steps);
  }

  /** One undisturbed upload into a system without removals and cleanups. */
  lemma HarmlessBeforeUpload(slot: Option<nat>, tasks: seq<Task>, swappedIn: seq<nat>)
    requires HarmlessAhead(State(slot, tasks + [Task(Dropped, false)], [], [], swappedIn, []))
    requires forall i | 0 <= i < |tasks| :: !Owing(tasks[i])
    ensures HarmlessAhead(State(slot, tasks, [], [], swappedIn, []))
  {
    var n := |tasks|;
    var s0 := State(slot, tasks, [], [], swappedIn, []);
    var s1 := s0.(tasks := tasks + [Task(Queued, true)]);
    var s2 := s0.(tasks := tasks + [Task(Peeked, true)]);
    var s3 := s0.(tasks := tasks + [Task(Uploaded, true)]);
    var s4 := s0.(tasks := tasks + [Task(Dropped, false)]);
    assert Apply(s3, Drop(n)) == s4;
    HarmlessBefore(s3, Drop(n));
    assert Apply(s2, Upload(n)) == s3;
    HarmlessBefore(s2, Upload(n));
    assert Apply(s1, Peek(n)) == s2;
    HarmlessBefore(s1, Peek(n));
    HarmlessBefore(s0, Dispatch);
  }

  /** Picture 0 is on show, and upload 1 is about to swap. */
  function SecondUpload(): State {
    State(Some(0), [Task(Finished, false)] + [Task(Dropped, false)], [], [], [0], [])
  }

  lemma SecondUploadReady()
    ensures var s := SecondUpload();
            Valid(s) && CleanQueue(s) && RemovalsSawCommitted(s) && Tracked(s, {}) && At(s, 1, Dropped)
  {}

  /** The first upload of all, from its swap on. */
  lemma HarmlessBeforeFirst()
    requires HarmlessAhead(State(Some(0), [Task(Finished, false)], [], [], [0], []))
    ensures HarmlessAhead(State(None, [] + [Task(Dropped, false)], [], [], [], []))
  {
    var swapped := State(Some(0), [Task(Swapped(None), false)], [], [], [0], []);
    assert Apply(swapped, Enqueue(0)) == State(Some(0), [Task(Finished, false)], [], [], [0], []);
    HarmlessBefore(swapped, Enqueue(0));
    var dropped := State(None, [] + [Task(Dropped, false)], [], [], [], []);
    assert Apply(dropped, Swap(0, true)) == swapped;
    HarmlessBefore(dropped, Swap(0, true));
  }

  /** It happens in a run of the empty system. */
  lemma LateRemovalCanBeHarmless()
    ensures HarmlessAhead(Empty())
  {
    SecondUploadReady();
    GuardNotNeeded(SecondUpload(), 1);
    HarmlessBeforeUpload(Some(0), [Task(Finished, false)], [0]);
    HarmlessBeforeFirst();
    HarmlessBeforeUpload(None, [], []);
  }

  lemma ReadThenSwap(s: State, i: nat)
    requires Valid(s) && CleanQueue(s) && RemovalsSawCommitted(s) && s.slot.Some? && At(s, i, Dropped)
    requires Tracked(s, {})
    ensures var n, s1 := |s.removals|, Apply(s, ReadSlot);
            var s2 := Apply(s1, Swap(i, true));
            && CleanQueue(s1) && i < |s2.tasks| && n < |s2.removals|
            && s2.removals[n] == Removal(s.slot.value, true) && s.slot.value != i && s2.slot == Some(i)
            && s2.tasks[i].phase == Swapped(Some(s.slot.value))
            && Valid(s2) && CleanQueue(s2) && RemovalsSawCommitted(s2) && Tracked(s2, {})
  {
    SwapKeepsValid(s, i);
    var s1 := Apply(s, ReadSlot);
    StepForgets(s, {}, ReadSlot);
    assert Lost(s, {}, ReadSlot) == {};
    StepForgets(s1, {}, Swap(i, true));
    assert Lost(s1, {}, Swap(i, true)) == {};
  }

  lemma CrashThenRemoval(s: State, i: nat, n: nat)
    requires Valid(s) && CleanQueue(s) && RemovalsSawCommitted(s) && Tracked(s, {}) && s.slot == Some(i)
    requires i < |s.tasks| && n < |s.removals| && s.removals[n].open && s.removals[n].seen != i
    requires s.tasks[i].phase == Swapped(Some(s.removals[n].seen))
    ensures var steps := [Retry(i)] + ([ClearSlot(n)] + []); EverOvertaken(s, steps) && AlwaysClean(s, steps)
  {
    var s1 := Apply(s, Retry(i));
    StepForgets(s, {}, Retry(i));
    assert Lost(s, {}, Retry(i)) == {s.removals[n].seen};
    StepForgets(s1, {s.removals[n].seen}, ClearSlot(n));
    OvertakenCons(s1, ClearSlot(n), []);
    OvertakenCons(s, Retry(i), [ClearSlot(n)] + []);
  }

  /** One step of a run in which no removal queues what somebody else has in hand. */
  lemma StepForgets(s: State, lost: set<nat>, step: Step)
    requires Valid(s) && CleanQueue(s) && RemovalsSawCommitted(s) && Tracked(s, lost) && !Requeues(s, lost, step)
    ensures var s' := Apply(s, step);
            Valid(s') && CleanQueue(s') && RemovalsSawCommitted(s') && Tracked(s', Lost(s, lost, step))
  {
    StepCleanExactly(s, lost, step);
    StepKeepsValid(s, step);
    StepKeepsSeen(s, step);
    StepTracked(s, lost, step);
  }

  // ---- one attempt of the task, in order ------------------------------------------------

  /** How the world treats one attempt: the image decodes, the store accepts it, the profile exists. */
  datatype World = World(decodes: bool, stores: bool, profile: bool)

  /** The steps one undisturbed attempt takes. */
  function AttemptSteps(i: nat, staged: bool, w: World): seq<Step> {
    if !staged then [Peek(i)]
    else if !w.decodes then [Peek(i), Reject(i)]
    else if !w.stores then [Peek(i), Retry(i)]
    else if !w.profile then [Peek(i), Upload(i), Drop(i), Swap(i, false)]
    else [Peek(i), Upload(i), Drop(i), Swap(i, true), Enqueue(i)]
  }

  class Pipeline {
    var state: State

    constructor ()
      ensures state == Empty()
    {
      state := Empty();
    }

    method Take(step: Step)
      modifies this
      ensures state == Apply(old(state), step)
    {
      state := Apply(state, step);
    }

    /** `process_profile_image`, one attempt; the result is its `success` flag. */
    method Process(i: nat, w: World) returns (success: bool)
      requires At(state, i, Queued)
      modifies this
      ensures state == Run(old(state), AttemptSteps(i, old(state).tasks[i].staged, w))
      ensures success == (old(state).tasks[i].staged && w.decodes && w.stores && w.profile)
      ensures success ==> state.slot == Some(i) && state.swappedIn == old(state).swappedIn + [i]
      ensures !success ==> state.slot == old(state).slot && state.swappedIn == old(state).swappedIn
      ensures success && old(state).slot.Some? && old(state).slot != Some(i) ==>
                state.cleanups == old(state).cleanups + [old(state).slot.value]
      ensures |state.tasks| == |old(state).tasks| && state.removals == old(state).removals
      ensures state.tasks[i] == if !old(state).tasks[i].staged then Task(Failed, false)
                                else if !w.decodes then Task(Failed, false)
                                else if !w.stores then Task(Queued, true)
                                else if !w.profile then Task(Failed, false)
                                else Task(Finished, false)
      ensures forall j | 0 <= j < |state.tasks| && j != i :: state.tasks[j] == old(state).tasks[j]
    {
      ghost var s0 := state;
      var staged := state.tasks[i].staged;
      Take(Peek(i));
      if !staged { assert Run(s0, [Peek(i)]) == Run(state, [Peek(i)][1..]); return false; }
      ghost var s1 := state;
      if !w.decodes {
        Take(Reject(i));
        RunTwo(s0, Peek(i), Reject(i));
        return false;
      }
      if !w.stores {
        Take(Retry(i));
        RunTwo(s0, Peek(i), Retry(i));
        return false;
      }
      Take(Upload(i));
      Take(Drop(i));
      ghost var s3 := state;
      RunThree(s0, Peek(i), Upload(i), Drop(i), AttemptSteps(i, staged, w)[3..]);
      assert AttemptSteps(i, staged, w) == [Peek(i), Upload(i), Drop(i)] + AttemptSteps(i, staged, w)[3..];
      Take(Swap(i, w.profile));
      if !w.profile {
        assert AttemptSteps(i, staged, w)[3..] == [Swap(i, false)];
        assert Run(s3, [Swap(i, false)]) == Run(state, [Swap(i, false)][1..]);
        return false;
      }
      Take(Enqueue(i));
      assert AttemptSteps(i, staged, w)[3..] == [Swap(i, true), Enqueue(i)];
      RunTwo(s3, Swap(i, true), Enqueue(i));
      success := true;
    }
  }

  lemma RunTwo(s: State, a: Step, b: Step)
    ensures Run(s, [a, b]) == Apply(Apply(s, a), b)
  {
    var all: seq<Step> := [a, b];
    assert all[1..] == [b];
    assert Run(Apply(s, a), [b]) == Run(Apply(Apply(s, a), b), [b][1..]);
  }

  lemma RunThree(s: State, a: Step, b: Step, c: Step, rest: seq<Step>)
    ensures Run(s, [a, b, c] + rest) == Run(Apply(Apply(Apply(s, a), b), c), rest)
  {
    var all := [a, b, c] + rest;
    var bc, last := [b, c] + rest, [c] + rest;
    assert all[1..] == bc && bc[1..] == last && last[1..] == rest;
    assert Run(s, all) == Run(Apply(s, a), bc);
    assert Run(Apply(s, a), bc) == Run(Apply(Apply(s, a), b), last);
  }
}
