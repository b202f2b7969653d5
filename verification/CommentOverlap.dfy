/**
  Hard deletes of comments that overlap.  The deletion collector reads the rows it is going to delete into
  memory; other requests come in between; then the rows are deleted by id and `comment_deleted`
  (social/signals.py) runs for every collected instance, whether or not its row was still there.  A deletion
  that would leave a reply without its parent, a comment without its post or a counter below zero is rolled
  back.
*/
module CommentOverlap {
  import opened Options
  import opened CommentForest

  /** What one deletion holds in memory: comments, and the posts that go with them. */
  datatype Collection = Collection(rows: map<CommentId, Comment>, posts: set<PostId>, open: bool)

  /** `deleted` are the ids of removed comments; an id is never used again. */
  datatype State = State(t: Tables, deleted: set<CommentId>, collected: seq<Collection>)

  datatype Step =
    | Write(id: CommentId, post: PostId, parent: Option<CommentId>)
    | Hide(id: CommentId)
    | Collect(roots: set<CommentId>, posts: set<PostId>)
    | Purge(deletion: nat)

  /** The subtrees of the roots and of all comments on the posts: a hard delete, a post, or an account. */
  function Collected(t: Tables, roots: set<CommentId>, posts: set<PostId>): map<CommentId, Comment> {
    var all := Doomed(t.comments, roots + OnPosts(t, posts));
    map c | c in t.comments && c in all :: t.comments[c]
  }

  function OnPosts(t: Tables, posts: set<PostId>): set<CommentId> {
    set c | c in t.comments && t.comments[c].post in posts
  }

  /** The rows of the ids go, and every handler takes one from its post and its parent, where they still are. */
  function Purged(t: Tables, c: Collection): Tables {
    Tables(map p | p in t.posts && p !in c.posts :: t.posts[p] - |OnPost(c.rows, c.rows.Keys, p)|,
           map d | d in t.comments && d !in c.rows ::
             t.comments[d].(replies := t.comments[d].replies - |RepliesTo(c.rows, c.rows.Keys, d)|))
  }

  /** The deletion leaves nothing hanging, and no handler takes a counter below zero; the posts that go with it
      are deleted after the handlers of their comments. */
  predicate CanPurge(s: State, k: nat) {
    && k < |s.collected| && s.collected[k].open
    && var c, cs := s.collected[k], s.t.comments;
       && (forall d | d in cs && d !in c.rows ::
             cs[d].post !in c.posts && (cs[d].parent.Some? ==> cs[d].parent.value !in c.rows))
       && (forall p | p in s.t.posts :: s.t.posts[p] >= |OnPost(c.rows, c.rows.Keys, p)|)
       && (forall d | d in cs && d !in c.rows :: cs[d].replies >= |RepliesTo(c.rows, c.rows.Keys, d)|)
  }

  function Apply(s: State, step: Step): State {
    match step
    case Write(id, p, parent) => if id in s.deleted then s else s.(t := Create(s.t, id, p, parent))
    case Hide(id) => s.(t := SoftDelete(s.t, id))
    case Collect(roots, posts) => s.(collected := s.collected + [Collection(Collected(s.t, roots, posts), posts, true)])
    case Purge(k) =>
      if k >= |s.collected| then s
      else
        var closed := s.(collected := s.collected[k := s.collected[k].(open := false)]);
        if CanPurge(s, k)
        then closed.(t := Purged(s.t, s.collected[k]), deleted := s.deleted + s.collected[k].rows.Keys)
        else closed
  }

  function Run(s: State, steps: seq<Step>): State
    decreases |steps|
  {
    if steps == [] then s else Run(Apply(s, steps[0]), steps[1..])
  }

  // ---- what is in memory -----------------------------------------------------------------

  /** A collected row is gone, or is still the reply to the same comment on the same post. */
  predicate Faithful(t: Tables, deleted: set<CommentId>, c: Collection) {
    forall d | d in c.rows :: d in deleted
      || (d in t.comments && t.comments[d].post == c.rows[d].post && t.comments[d].parent == c.rows[d].parent)
  }

  predicate Valid(s: State) {
    && Forest(s.t) && (forall d | d in s.deleted :: d !in s.t.comments)
    && (forall k | 0 <= k < |s.collected| :: Faithful(s.t, s.deleted, s.collected[k]))
  }

  lemma PurgeKeepsValid(s: State, k: nat)
    requires Valid(s) && CanPurge(s, k)
    ensures Valid(Apply(s, Purge(k)))
  {
    var s' := Apply(s, Purge(k));
    forall j | 0 <= j < |s'.collected| ensures Faithful(s'.t, s'.deleted, s'.collected[j]) {
      assert Faithful(s.t, s.deleted, s.collected[j]);
    }
  }

  lemma WriteKeepsValid(s: State, id: CommentId, p: PostId, parent: Option<CommentId>)
    requires Valid(s)
    ensures Valid(Apply(s, Write(id, p, parent)))
  {
    var s' := Apply(s, Write(id, p, parent));
    CreateKeepsForest(s.t, id, p, parent);
    forall j | 0 <= j < |s'.collected| ensures Faithful(s'.t, s'.deleted, s'.collected[j]) {
      assert Faithful(s.t, s.deleted, s.collected[j]);
    }
  }

  lemma HideKeepsValid(s: State, id: CommentId)
    requires Valid(s)
    ensures Valid(Apply(s, Hide(id)))
  {
    var s' := Apply(s, Hide(id));
    SoftDeleteKeepsForest(s.t, id);
    forall j | 0 <= j < |s'.collected| ensures Faithful(s'.t, s'.deleted, s'.collected[j]) {
      assert Faithful(s.t, s.deleted, s.collected[j]);
    }
  }

  lemma StepKeepsValid(s: State, step: Step)
    requires Valid(s)
    ensures Valid(Apply(s, step))
  {
    match step
    case Write(id, p, parent) => WriteKeepsValid(s, id, p, parent);
    case Hide(id) => HideKeepsValid(s, id);
    case Collect(roots, posts) =>
    case Purge(k) => if CanPurge(s, k) { PurgeKeepsValid(s, k); }
  }

  // ---- exactly when the counters stay right ------------------------------------------------

  /** Collected rows that somebody else has deleted since. */
  function Ghosts(t: Tables, c: Collection): set<CommentId> { c.rows.Keys - t.comments.Keys }

  /** A handler runs for a row that is gone, and its post or its parent is still there. */
  predicate Breaks(s: State, step: Step) {
    && step.Purge? && CanPurge(s, step.deletion)
    && exists d | d in Ghosts(s.t, s.collected[step.deletion]) :: StillCounted(s.t, s.collected[step.deletion], d)
  }

  /** The post or the parent of a collected comment stays. */
  predicate StillCounted(t: Tables, c: Collection, d: CommentId)
    requires d in c.rows
  {
    || (c.rows[d].post in t.posts && c.rows[d].post !in c.posts)
    || (c.rows[d].parent.Some? && c.rows[d].parent.value in t.comments && c.rows[d].parent.value !in c.rows)
  }

  /** Rows on a post, in memory and in the table. */
  lemma PostParts(t: Tables, deleted: set<CommentId>, c: Collection, p: PostId)
    requires Faithful(t, deleted, c) && forall d | d in deleted :: d !in t.comments
    ensures var keys, t' := t.comments.Keys, Purged(t, c);
            |OnPost(c.rows, c.rows.Keys, p)|
            == |OnPost(t.comments, keys, p)| - |OnPost(t'.comments, keys - c.rows.Keys, p)|
               + |OnPost(c.rows, Ghosts(t, c), p)|
  {
    var keys, mem := t.comments.Keys, c.rows.Keys;
    var both := keys * mem;
    CountsSplit(t.comments, both, p, 0);
    SameLinks(t.comments, Purged(t, c).comments, keys - mem);
    assert keys - both == keys - mem;
    CountsSplit(c.rows, both, p, 0);
    assert mem - both == Ghosts(t, c);
    SameLinks(t.comments, c.rows, both);
  }

  lemma ReplyParts(t: Tables, deleted: set<CommentId>, c: Collection, d: CommentId)
    requires Faithful(t, deleted, c) && forall e | e in deleted :: e !in t.comments
    ensures var keys, t' := t.comments.Keys, Purged(t, c);
            |RepliesTo(c.rows, c.rows.Keys, d)|
            == |RepliesTo(t.comments, keys, d)| - |RepliesTo(t'.comments, keys - c.rows.Keys, d)|
               + |RepliesTo(c.rows, Ghosts(t, c), d)|
  {
    var keys, mem := t.comments.Keys, c.rows.Keys;
    var both := keys * mem;
    CountsSplit(t.comments, both, 0, d);
    SameLinks(t.comments, Purged(t, c).comments, keys - mem);
    assert keys - both == keys - mem;
    CountsSplit(c.rows, both, 0, d);
    assert mem - both == Ghosts(t, c);
    SameLinks(t.comments, c.rows, both);
  }

  /** A counter falls short of its rows by the number of ghosts it was handled for. */
  lemma PurgeDrift(s: State, k: nat)
    requires Valid(s) && Counted(s.t) && k < |s.collected|
    ensures var c := s.collected[k];
            var t' := Purged(s.t, c);
            && (forall p | p in t'.posts ::
                  t'.posts[p] == |OnPost(t'.comments, t'.comments.Keys, p)| - |OnPost(c.rows, Ghosts(s.t, c), p)|)
            && (forall d | d in t'.comments ::
                  t'.comments[d].replies
                  == |RepliesTo(t'.comments, t'.comments.Keys, d)| - |RepliesTo(c.rows, Ghosts(s.t, c), d)|)
  {
    var c := s.collected[k];
    var t' := Purged(s.t, c);
    assert t'.comments.Keys == s.t.comments.Keys - c.rows.Keys;
    assert Faithful(s.t, s.deleted, c);
    forall p | p in t'.posts
      ensures t'.posts[p] == |OnPost(t'.comments, t'.comments.Keys, p)| - |OnPost(c.rows, Ghosts(s.t, c), p)|
    {
      PostParts(s.t, s.deleted, c, p);
    }
    forall d | d in t'.comments
      ensures t'.comments[d].replies
              == |RepliesTo(t'.comments, t'.comments.Keys, d)| - |RepliesTo(c.rows, Ghosts(s.t, c), d)|
    {
      ReplyParts(s.t, s.deleted, c, d);
    }
  }

  lemma GhostsUncounted(s: State, k: nat, d: CommentId)
    requires Valid(s) && Counted(s.t) && CanPurge(s, k)
    requires d in Ghosts(s.t, s.collected[k]) && StillCounted(s.t, s.collected[k], d)
    ensures !Counted(Purged(s.t, s.collected[k]))
  {
    var c := s.collected[k];
    var t', ghosts := Purged(s.t, c), Ghosts(s.t, c);
    PurgeDrift(s, k);
    if c.rows[d].post in t'.posts {
      assert d in OnPost(c.rows, ghosts, c.rows[d].post);
    } else {
      assert c.rows[d].parent.value in t'.comments;
      assert d in RepliesTo(c.rows, ghosts, c.rows[d].parent.value);
    }
  }

  lemma NoGhostsCounted(s: State, k: nat)
    requires Valid(s) && Counted(s.t) && CanPurge(s, k)
    requires forall d | d in Ghosts(s.t, s.collected[k]) :: !StillCounted(s.t, s.collected[k], d)
    ensures Counted(Purged(s.t, s.collected[k]))
  {
    var c := s.collected[k];
    var t', ghosts := Purged(s.t, c), Ghosts(s.t, c);
    PurgeDrift(s, k);
    forall p | p in t'.posts ensures OnPost(c.rows, ghosts, p) == {} {}
    forall d | d in t'.comments ensures RepliesTo(c.rows, ghosts, d) == {} {}
  }

  lemma StepCountedIff(s: State, step: Step)
    requires Valid(s) && Counted(s.t)
    ensures Counted(Apply(s, step).t) <==> !Breaks(s, step)
  {
    match step
    case Write(id, p, parent) => CreateKeeps(s.t, id, p, parent);
    case Hide(id) => SoftDeleteKeeps(s.t, id);
    case Collect(_, _) =>
    case Purge(k) =>
      if Breaks(s, step) {
        var d :| d in Ghosts(s.t, s.collected[k]) && StillCounted(s.t, s.collected[k], d);
        GhostsUncounted(s, k, d);
      } else if CanPurge(s, k) {
        NoGhostsCounted(s, k);
      }
  }

  predicate EverBreaks(s: State, steps: seq<Step>)
    decreases |steps|
  {
    steps != [] && (Breaks(s, steps[0]) || EverBreaks(Apply(s, steps[0]), steps[1..]))
  }

  predicate AlwaysRight(s: State, steps: seq<Step>)
    decreases |steps|
  {
    Counted(s.t) && (steps != [] ==> AlwaysRight(Apply(s, steps[0]), steps[1..]))
  }

  /** However deletions overlap, both counters equal their rows throughout a run exactly when no deletion
      commits for a row that another one has taken while its post or its parent remains. */
  lemma {:induction false} RightExactly(s: State, steps: seq<Step>)
    requires Valid(s) && Counted(s.t)
    ensures AlwaysRight(s, steps) <==> !EverBreaks(s, steps)
    decreases |steps|
  {
    if steps != [] {
      StepCountedIff(s, steps[0]);
      StepKeepsValid(s, steps[0]);
      if !Breaks(s, steps[0]) { RightExactly(Apply(s, steps[0]), steps[1..]); }
      else { assert !Counted(Apply(s, steps[0]).t); }
    }
  }

  predicate NoneNegative(t: Tables) {
    (forall p | p in t.posts :: t.posts[p] >= 0) && (forall c | c in t.comments :: t.comments[c].replies >= 0)
  }

  /** No run, counters right or not, stores a negative counter. */
  lemma {:induction false} NeverNegative(s: State, steps: seq<Step>)
    requires NoneNegative(s.t)
    ensures NoneNegative(Run(s, steps).t)
    decreases |steps|
  {
    if steps != [] { NeverNegative(Apply(s, steps[0]), steps[1..]); }
  }

  // ---- a deletion alone, and two together -------------------------------------------------

  lemma CollectedAlone(t: Tables, roots: set<CommentId>)
    ensures var rows, gone := Collected(t, roots, {}), Doomed(t.comments, roots);
            && rows.Keys == gone
            && (forall p :: OnPost(rows, rows.Keys, p) == OnPost(t.comments, gone, p))
            && (forall d :: RepliesTo(rows, rows.Keys, d) == RepliesTo(t.comments, gone, d))
  {
    var rows, gone := Collected(t, roots, {}), Doomed(t.comments, roots);
    assert roots + OnPosts(t, {}) == roots;
    assert rows.Keys == gone;
    SameLinks(t.comments, rows, gone);
  }

  lemma PurgedAlone(t: Tables, roots: set<CommentId>)
    ensures Purged(t, Collection(Collected(t, roots, {}), {}, true)) == HardDelete(t, roots)
  {
    CollectedAlone(t, roots);
  }

  lemma AloneFits(t: Tables, roots: set<CommentId>)
    requires Counted(t)
    ensures var rows := Collected(t, roots, {});
            && (forall p | p in t.posts :: t.posts[p] >= |OnPost(rows, rows.Keys, p)|)
            && (forall d | d in t.comments && d !in rows :: t.comments[d].replies >= |RepliesTo(rows, rows.Keys, d)|)
  {
    var gone := Doomed(t.comments, roots);
    CollectedAlone(t, roots);
    forall p | p in t.posts ensures t.posts[p] >= |OnPost(t.comments, gone, p)| { CountsSplit(t.comments, gone, p, 0); }
    forall d | d in t.comments ensures t.comments[d].replies >= |RepliesTo(t.comments, gone, d)| {
      CountsSplit(t.comments, gone, 0, d);
    }
  }

  /** Nobody in between: the deletion is never refused and does what a hard delete does. */
  lemma AloneIsHardDelete(s: State, roots: set<CommentId>)
    requires Valid(s) && Counted(s.t)
    ensures var s1 := Apply(s, Collect(roots, {}));
            CanPurge(s1, |s.collected|) && Apply(s1, Purge(|s.collected|)).t == HardDelete(s.t, roots)
  {
    var s1, n := Apply(s, Collect(roots, {})), |s.collected|;
    assert s1.collected[n] == Collection(Collected(s.t, roots, {}), {}, true);
    CollectedAlone(s.t, roots);
    AloneFits(s.t, roots);
    PurgedAlone(s.t, roots);
    var cs, rows := s.t.comments, s1.collected[n].rows;
    forall d | d in cs && d !in rows ensures cs[d].parent.Some? ==> cs[d].parent.value !in rows {}
  }

  /** The handlers of a lonely comment, run a second time. */
  lemma SecondPurge(s: State, k: nat, root: CommentId, row: Comment)
    requires k < |s.collected| && s.collected[k] == Collection(map[root := row], {}, true) && row.parent.None?
    requires Forest(s.t) && root !in s.t.comments && row.post in s.t.posts && s.t.posts[row.post] >= 1
    requires forall p | p in s.t.posts :: s.t.posts[p] >= 0
    requires forall d | d in s.t.comments :: s.t.comments[d].replies >= 0
    requires forall d | d in s.t.comments :: s.t.comments[d].parent != Some(root)
    ensures Breaks(s, Purge(k))
    ensures row.post in Apply(s, Purge(k)).t.posts && Apply(s, Purge(k)).t.posts[row.post] == s.t.posts[row.post] - 1
  {
    var rows := map[root := row];
    assert forall p :: OnPost(rows, rows.Keys, p) == if row.post == p then {root} else {};
    assert forall d :: RepliesTo(rows, rows.Keys, d) == {};
    assert root in Ghosts(s.t, s.collected[k]) && StillCounted(s.t, s.collected[k], root);
  }

  /** Everything on the posts and below is collected, so nothing is left hanging. */
  lemma CollectedWhole(t: Tables, roots: set<CommentId>, posts: set<PostId>)
    ensures var rows := Collected(t, roots, posts);
            && rows == Collected(t, roots + OnPosts(t, posts), {})
            && (forall d | d in rows :: d in t.comments)
            && forall d | d in t.comments && d !in rows ::
                 t.comments[d].post !in posts
                 && (t.comments[d].parent.Some? && t.comments[d].parent.value < d ==>
                       t.comments[d].parent.value !in rows)
  {
    var all := roots + OnPosts(t, posts);
    assert all + OnPosts(t, {}) == all;
  }

  lemma AloneFitsWhole(s: State, roots: set<CommentId>, posts: set<PostId>)
    requires Valid(s) && Counted(s.t)
    ensures CanPurge(Apply(s, Collect(roots, posts)), |s.collected|)
  {
    CollectedWhole(s.t, roots, posts);
    AloneFits(s.t, roots + OnPosts(s.t, posts));
  }

  /** An account or a post is deleted whole: alone, its deletion is never refused either. */
  lemma AloneNeverRefused(s: State, roots: set<CommentId>, posts: set<PostId>)
    requires Valid(s) && Counted(s.t)
    ensures var s1 := Apply(s, Collect(roots, posts));
            CanPurge(s1, |s.collected|) && Counted(Apply(s1, Purge(|s.collected|)).t)
  {
    var s1, n := Apply(s, Collect(roots, posts)), |s.collected|;
    AloneFitsWhole(s, roots, posts);
    StepKeepsValid(s, Collect(roots, posts));
    FreshlyCollected(s, roots, posts);
    StepCountedIff(s1, Purge(n));
  }

  lemma FreshlyCollected(s: State, roots: set<CommentId>, posts: set<PostId>)
    ensures !Breaks(Apply(s, Collect(roots, posts)), Purge(|s.collected|))
  {
    var s1, n := Apply(s, Collect(roots, posts)), |s.collected|;
    assert forall d | d in s1.collected[n].rows :: d in s.t.comments;
    assert Ghosts(s1.t, s1.collected[n]) == {};
  }

  /** Two deletions of one comment without replies, both collected before either deletes: a post with a second
      comment ends one short of its rows. */
  lemma OverlappingHardDeletes(s: State, root: CommentId)
    requires Valid(s) && Counted(s.t) && root in s.t.comments && s.t.comments[root].parent.None?
    requires Doomed(s.t.comments, {root}) == {root}
    requires s.t.comments[root].post in s.t.posts && s.t.posts[s.t.comments[root].post] >= 2
    ensures var n, p := |s.collected|, s.t.comments[root].post;
            var s3 := FirstOfTwo(s, root);
            && Counted(s3.t) && Breaks(s3, Purge(n + 1))
            && p in Apply(s3, Purge(n + 1)).t.posts
            && Apply(s3, Purge(n + 1)).t.posts[p] == s.t.posts[p] - 2
  {
    var n := |s.collected|;
    var row := s.t.comments[root];
    LonelyRow(s, root);
    FirstOfTwoDeletes(s, root);
    LonelyDeleted(s.t, root);
    var s3 := FirstOfTwo(s, root);
    SecondPurge(s3, n + 1, root, row);
  }

  function FirstOfTwo(s: State, root: CommentId): State {
    Apply(Apply(Apply(s, Collect({root}, {})), Collect({root}, {})), Purge(|s.collected|))
  }

  lemma LonelyRow(s: State, root: CommentId)
    requires root in s.t.comments && Doomed(s.t.comments, {root}) == {root}
    ensures Collected(s.t, {root}, {}) == map[root := s.t.comments[root]]
  {
    CollectedAlone(s.t, {root});
  }

  lemma FirstOfTwoDeletes(s: State, root: CommentId)
    requires Valid(s) && Counted(s.t) && root in s.t.comments && Doomed(s.t.comments, {root}) == {root}
    ensures var s3, n := FirstOfTwo(s, root), |s.collected|;
            && s3.t == HardDelete(s.t, {root}) && n + 1 < |s3.collected|
            && s3.collected[n + 1] == Collection(map[root := s.t.comments[root]], {}, true)
  {
    var n := |s.collected|;
    var s1 := Apply(s, Collect({root}, {}));
    var s2 := Apply(s1, Collect({root}, {}));
    LonelyRow(s, root);
    AloneIsHardDelete(s, {root});
    PurgedAlone(s.t, {root});
    assert s2.collected[n] == s1.collected[n] && s2.collected[n + 1] == s1.collected[n];
    assert CanPurge(s2, n) <==> CanPurge(s1, n);
  }

  lemma LonelyDeleted(t: Tables, root: CommentId)
    requires Forest(t) && Counted(t) && root in t.comments && Doomed(t.comments, {root}) == {root}
    ensures var t', p := HardDelete(t, {root}), t.comments[root].post;
            && Counted(t') && Forest(t') && root !in t'.comments && p in t'.posts && t'.posts[p] == t.posts[p] - 1
            && (forall q | q in t'.posts :: t'.posts[q] >= 0)
            && (forall d | d in t'.comments :: t'.comments[d].replies >= 0)
            && (forall d | d in t'.comments :: t'.comments[d].parent != Some(root))
  {
    HardDeleteKeeps(t, {root});
    assert OnPost(t.comments, {root}, t.comments[root].post) == {root};
  }
}
