/**
  Comments, their replies and the two counters kept by social/signals.py: `Post.comments_count` and
  `Comment.replies_count`.  Removing a comment removes everything below it (social/models.py: `parent`
  cascades); the model's own `delete` only flags the row (utils/models.py).
  Comments are numbered in order of creation, so a parent has a smaller number than its replies.
*/
module CommentForest {
  import opened Options

  type PostId = nat
  type CommentId = nat

  datatype Comment = Comment(post: PostId, parent: Option<CommentId>, isDeleted: bool, replies: int)

  datatype Tables = Tables(posts: map<PostId, int>, comments: map<CommentId, Comment>)

  // ---- rows behind the counters ------------------------------------------------

  function OnPost(cs: map<CommentId, Comment>, among: set<CommentId>, p: PostId): set<CommentId> {
    set c | c in among && c in cs && cs[c].post == p
  }

  function RepliesTo(cs: map<CommentId, Comment>, among: set<CommentId>, c: CommentId): set<CommentId> {
    set d | d in among && d in cs && cs[d].parent == Some(c)
  }

  predicate Forest(t: Tables) {
    forall c | c in t.comments ::
      && t.comments[c].post in t.posts
      && (t.comments[c].parent.Some? ==> t.comments[c].parent.value in t.comments && t.comments[c].parent.value < c)
  }

  /** Both counters equal the rows they count, soft-deleted ones included. */
  predicate Counted(t: Tables) {
    && (forall p | p in t.posts :: t.posts[p] == |OnPost(t.comments, t.comments.Keys, p)|)
    && (forall c | c in t.comments :: t.comments[c].replies == |RepliesTo(t.comments, t.comments.Keys, c)|)
  }

  // ---- operations ---------------------------------------------------------------

  /** `Comment.objects.create(..)` with the handler `comment_created`; a refused row changes nothing. */
  function Create(t: Tables, id: CommentId, p: PostId, parent: Option<CommentId>): Tables {
    if id in t.comments || p !in t.posts || (parent.Some? && (parent.value !in t.comments || id <= parent.value)) then t
    else
      var posts := t.posts[p := t.posts[p] + 1];
      var cs := t.comments[id := Comment(p, parent, false, 0)];
      if parent.None? then Tables(posts, cs)
      else Tables(posts, cs[parent.value := cs[parent.value].(replies := cs[parent.value].replies + 1)])
  }

  /** `comment.delete()` */
  function SoftDelete(t: Tables, id: CommentId): Tables {
    if id in t.comments then t.(comments := t.comments[id := t.comments[id].(isDeleted := true)]) else t
  }

  /** `id` is one of the roots or hangs below one, by its chain of parents. */
  predicate Below(cs: map<CommentId, Comment>, roots: set<CommentId>, id: CommentId)
    decreases id
  {
    id in cs &&
    (id in roots || (cs[id].parent.Some? && cs[id].parent.value < id && Below(cs, roots, cs[id].parent.value)))
  }

  function Doomed(cs: map<CommentId, Comment>, roots: set<CommentId>): set<CommentId> {
    set c | c in cs && Below(cs, roots, c)
  }

  /** The rows that go, and what their `comment_deleted` handlers do to the rows that stay. */
  function HardDelete(t: Tables, roots: set<CommentId>): Tables {
    var gone := Doomed(t.comments, roots);
    Tables(map p | p in t.posts :: t.posts[p] - |OnPost(t.comments, gone, p)|,
           map c | c in t.comments && c !in gone ::
             t.comments[c].(replies := t.comments[c].replies - |RepliesTo(t.comments, gone, c)|))
  }

  /** Removing a post removes its comments and all replies to them, wherever those were posted. */
  function DeletePost(t: Tables, p: PostId): Tables {
    var t' := HardDelete(t, OnPost(t.comments, t.comments.Keys, p));
    t'.(posts := t'.posts - {p})
  }

  // ---- the counters stay right -----------------------------------------------------

  lemma OnPostGrows(cs: map<CommentId, Comment>, among: set<CommentId>, d: CommentId, p: PostId)
    requires d in cs && d !in among
    ensures |OnPost(cs, among + {d}, p)| == |OnPost(cs, among, p)| + (if cs[d].post == p then 1 else 0)
  {
    assert OnPost(cs, among + {d}, p) == OnPost(cs, among, p) + (if cs[d].post == p then {d} else {});
  }

  lemma RepliesGrow(cs: map<CommentId, Comment>, among: set<CommentId>, d: CommentId, c: CommentId)
    requires d in cs && d !in among
    ensures |RepliesTo(cs, among + {d}, c)| == |RepliesTo(cs, among, c)| + (if cs[d].parent == Some(c) then 1 else 0)
  {
    assert RepliesTo(cs, among + {d}, c) == RepliesTo(cs, among, c) + (if cs[d].parent == Some(c) then {d} else {});
  }

  /** Only posts and parents matter to the counts, not the counters inside the rows. */
  lemma SameLinks(cs: map<CommentId, Comment>, ds: map<CommentId, Comment>, among: set<CommentId>)
    requires forall c | c in among :: c in cs && c in ds && cs[c].post == ds[c].post && cs[c].parent == ds[c].parent
    ensures forall p :: OnPost(cs, among, p) == OnPost(ds, among, p)
    ensures forall c :: RepliesTo(cs, among, c) == RepliesTo(ds, among, c)
  {}

  lemma CreateKeeps(t: Tables, id: CommentId, p: PostId, parent: Option<CommentId>)
    requires Forest(t) && Counted(t)
    ensures Forest(Create(t, id, p, parent)) && Counted(Create(t, id, p, parent))
  {
    var t' := Create(t, id, p, parent);
    if t' != t {
      CreateKeepsForest(t, id, p, parent);
      assert t'.comments.Keys == t.comments.Keys + {id};
      forall q | q in t'.posts ensures t'.posts[q] == |OnPost(t'.comments, t'.comments.Keys, q)| {
        CreateCountsPost(t, id, p, parent, q);
      }
      forall c | c in t'.comments ensures t'.comments[c].replies == |RepliesTo(t'.comments, t'.comments.Keys, c)| {
        CreateCountsReplies(t, id, p, parent, c);
      }
    }
  }

  /** A comment is stored under its parent, neither flagged nor answered; its post counts one comment more and its
      parent one reply more.  Nothing else changes. */
  lemma CreateStores(t: Tables, id: CommentId, p: PostId, parent: Option<CommentId>)
    requires id !in t.comments && p in t.posts
    requires parent.Some? ==> parent.value in t.comments && parent.value < id
    ensures var t' := Create(t, id, p, parent);
            && t'.posts.Keys == t.posts.Keys && t'.comments.Keys == t.comments.Keys + {id}
            && t'.posts[p] == t.posts[p] + 1 && (forall q | q in t.posts && q != p :: t'.posts[q] == t.posts[q])
            && t'.comments[id].post == p && t'.comments[id].parent == parent
            && !t'.comments[id].isDeleted && t'.comments[id].replies == 0
            && (forall c | c in t.comments && Some(c) != parent :: t'.comments[c] == t.comments[c])
            && (parent.Some? ==>
                  var before, now := t.comments[parent.value], t'.comments[parent.value];
                  now == Comment(before.post, before.parent, before.isDeleted, before.replies + 1))
  {
    var t' := Create(t, id, p, parent);
    assert t'.comments.Keys == t.comments.Keys + {id};
  }

  /** A soft delete flags its comment and nothing else. */
  lemma SoftDeleteFlags(t: Tables, id: CommentId)
    requires id in t.comments
    ensures var t', c := SoftDelete(t, id), t.comments[id];
            && t'.posts == t.posts && t'.comments.Keys == t.comments.Keys
            && t'.comments[id] == Comment(c.post, c.parent, true, c.replies)
            && forall d | d in t.comments && d != id :: t'.comments[d] == t.comments[d]
  {}

  lemma CreateKeepsForest(t: Tables, id: CommentId, p: PostId, parent: Option<CommentId>)
    requires Forest(t)
    ensures Forest(Create(t, id, p, parent))
  {}

  lemma CreateCountsPost(t: Tables, id: CommentId, p: PostId, parent: Option<CommentId>, q: PostId)
    requires Counted(t) && Create(t, id, p, parent) != t && q in t.posts
    ensures var t' := Create(t, id, p, parent);
            q in t'.posts && t'.posts[q] == |OnPost(t'.comments, t.comments.Keys + {id}, q)|
  {
    var t', keys := Create(t, id, p, parent), t.comments.Keys;
    SameLinks(t.comments, t'.comments, keys);
    OnPostGrows(t'.comments, keys, id, q);
  }

  lemma CreateCountsReplies(t: Tables, id: CommentId, p: PostId, parent: Option<CommentId>, c: CommentId)
    requires Forest(t) && Counted(t) && id !in t.comments && p in t.posts && (c in t.comments || c == id)
    requires parent.Some? ==> parent.value in t.comments && parent.value < id
    ensures var t' := Create(t, id, p, parent);
            t'.comments[c].replies == |RepliesTo(t'.comments, t.comments.Keys + {id}, c)|
  {
    var t', keys := Create(t, id, p, parent), t.comments.Keys;
    SameLinks(t.comments, t'.comments, keys);
    RepliesGrow(t'.comments, keys, id, c);
    if c == id { assert RepliesTo(t.comments, keys, c) == {}; }
  }

  /** A soft delete changes no counter and no row but its own flag. */
  lemma SoftDeleteKeeps(t: Tables, id: CommentId)
    requires Forest(t) && Counted(t)
    ensures var t' := SoftDelete(t, id);
            && Forest(t') && Counted(t') && t'.posts == t.posts && t'.comments.Keys == t.comments.Keys
            && forall c | c in t.comments :: t'.comments[c].replies == t.comments[c].replies
  {
    var t' := SoftDelete(t, id);
    SoftDeleteKeepsForest(t, id);
    assert t'.comments.Keys == t.comments.Keys;
    SameLinks(t.comments, t'.comments, t.comments.Keys);
  }

  lemma SoftDeleteKeepsForest(t: Tables, id: CommentId)
    requires Forest(t)
    ensures Forest(SoftDelete(t, id))
  {}

  lemma SurvivorsKeepParents(t: Tables, roots: set<CommentId>)
    requires Forest(t)
    ensures Forest(HardDelete(t, roots))
  {}

  lemma CountsSplit(cs: map<CommentId, Comment>, gone: set<CommentId>, p: PostId, c: CommentId)
    requires gone <= cs.Keys
    ensures |OnPost(cs, cs.Keys, p)| == |OnPost(cs, cs.Keys - gone, p)| + |OnPost(cs, gone, p)|
    ensures |RepliesTo(cs, cs.Keys, c)| == |RepliesTo(cs, cs.Keys - gone, c)| + |RepliesTo(cs, gone, c)|
  {
    assert OnPost(cs, cs.Keys, p) == OnPost(cs, cs.Keys - gone, p) + OnPost(cs, gone, p);
    assert RepliesTo(cs, cs.Keys, c) == RepliesTo(cs, cs.Keys - gone, c) + RepliesTo(cs, gone, c);
  }

  /** A hard delete of any set of comments leaves every counter equal to the rows that remain. */
  lemma HardDeleteKeeps(t: Tables, roots: set<CommentId>)
    requires Forest(t) && Counted(t)
    ensures Forest(HardDelete(t, roots)) && Counted(HardDelete(t, roots))
  {
    var gone := Doomed(t.comments, roots);
    var t' := HardDelete(t, roots);
    SurvivorsKeepParents(t, roots);
    var left := t.comments.Keys - gone;
    assert t'.comments.Keys == left;
    SameLinks(t.comments, t'.comments, left);
    forall p | p in t'.posts
      ensures t'.posts[p] == |OnPost(t'.comments, left, p)|
    { CountsSplit(t.comments, gone, p, 0); }
    forall c | c in t'.comments
      ensures t'.comments[c].replies == |RepliesTo(t'.comments, left, c)|
    { CountsSplit(t.comments, gone, 0, c); }
  }

  /** Deleting one comment: each post loses exactly its comments in the subtree, the surviving parent
      loses exactly one reply, and no other surviving comment loses any. */
  lemma HardDeleteOne(t: Tables, root: CommentId)
    requires Forest(t) && Counted(t) && root in t.comments
    ensures var gone := Doomed(t.comments, {root});
            var t' := HardDelete(t, {root});
            && t'.comments.Keys == t.comments.Keys - gone
            && (forall c | c in t.comments ::
                  c in gone <==> c == root || (t.comments[c].parent.Some? && t.comments[c].parent.value in gone))
            && (t.comments[root].parent.Some? ==> t.comments[root].parent.value in t'.comments)
            && (forall p | p in t.posts ::
                  t'.posts[p] == t.posts[p] - |OnPost(t.comments, gone, p)|
                  && t'.posts[p] == |OnPost(t'.comments, t'.comments.Keys, p)|)
            && (forall c | c in t'.comments ::
                  t'.comments[c].replies
                  == t.comments[c].replies - (if t.comments[root].parent == Some(c) then 1 else 0))
  {
    var gone := Doomed(t.comments, {root});
    HardDeleteKeeps(t, {root});
    SubtreeClosed(t, root);
    if t.comments[root].parent.Some? { NothingAboveRoot(t, root, t.comments[root].parent.value); }
    forall c | c in t.comments && c !in gone
      ensures RepliesTo(t.comments, gone, c) == if t.comments[root].parent == Some(c) then {root} else {}
    {
      assert forall d | d in RepliesTo(t.comments, gone, c) :: d == root;
    }
  }

  /** The subtree is the root and whatever hangs below a member of it. */
  lemma SubtreeClosed(t: Tables, root: CommentId)
    requires Forest(t) && root in t.comments
    ensures var gone := Doomed(t.comments, {root});
            forall c | c in t.comments ::
              c in gone <==> c == root || (t.comments[c].parent.Some? && t.comments[c].parent.value in gone)
  {}

  /** Numbers only grow downwards, so nothing above the root is below it. */
  lemma {:induction false} NothingAboveRoot(t: Tables, root: CommentId, c: CommentId)
    requires Forest(t) && c < root
    ensures !Below(t.comments, {root}, c)
    decreases c
  {
    if c in t.comments && t.comments[c].parent.Some? { NothingAboveRoot(t, root, t.comments[c].parent.value); }
  }

  lemma DeletePostKeeps(t: Tables, p: PostId)
    requires Forest(t) && Counted(t)
    ensures Forest(DeletePost(t, p)) && Counted(DeletePost(t, p))
  {
    HardDeleteKeeps(t, OnPost(t.comments, t.comments.Keys, p));
  }

  datatype Op =
    | OpCreate(id: CommentId, post: PostId, parent: Option<CommentId>)
    | OpSoftDelete(id: CommentId)
    | OpHardDelete(roots: set<CommentId>)
    | OpDeletePost(post: PostId)

  function Apply(t: Tables, op: Op): Tables {
    match op
    case OpCreate(id, p, parent) => Create(t, id, p, parent)
    case OpSoftDelete(id) => SoftDelete(t, id)
    case OpHardDelete(roots) => HardDelete(t, roots)
    case OpDeletePost(p) => DeletePost(t, p)
  }

  function Run(t: Tables, ops: seq<Op>): Tables
    decreases |ops|
  {
    if ops == [] then t else Run(Apply(t, ops[0]), ops[1..])
  }

  /** In every reachable state both counters equal their rows, so neither can be negative. */
  lemma {:induction false} AlwaysCounted(t: Tables, ops: seq<Op>)
    requires Forest(t) && Counted(t)
    ensures Forest(Run(t, ops)) && Counted(Run(t, ops))
    decreases |ops|
  {
    if ops != [] {
      match ops[0] {
        case OpCreate(id, p, parent) => CreateKeeps(t, id, p, parent);
        case OpSoftDelete(id) => SoftDeleteKeeps(t, id);
        case OpHardDelete(roots) => HardDeleteKeeps(t, roots);
        case OpDeletePost(p) => DeletePostKeeps(t, p);
      }
      AlwaysCounted(Apply(t, ops[0]), ops[1..]);
    }
  }

  // ---- collecting and deleting, step by step --------------------------------------

  function ChildrenOf(cs: map<CommentId, Comment>, batch: set<CommentId>): set<CommentId> {
    set c | c in cs && cs[c].parent.Some? && cs[c].parent.value in batch
  }

  lemma {:induction false} ClosedHoldsAllBelow(t: Tables, roots: set<CommentId>, all: set<CommentId>, id: CommentId)
    requires Forest(t) && roots * t.comments.Keys <= all
    requires ChildrenOf(t.comments, all) <= all && Below(t.comments, roots, id)
    ensures id in all
    decreases id
  {
    if id !in roots {
      ClosedHoldsAllBelow(t, roots, all, t.comments[id].parent.value);
      assert id in ChildrenOf(t.comments, all);
    }
  }

  /** Part of the handlers have run: those of the removed rows in `done`. */
  predicate Handled(t: Tables, gone: set<CommentId>, done: set<CommentId>, t': Tables) {
    && t'.posts.Keys == t.posts.Keys && t'.comments.Keys == t.comments.Keys - gone
    && (forall p | p in t.posts :: t'.posts[p] == t.posts[p] - |OnPost(t.comments, done, p)|)
    && (forall c | c in t'.comments ::
          t'.comments[c] == t.comments[c].(replies := t.comments[c].replies - |RepliesTo(t.comments, done, c)|))
  }

  /** The handler `comment_deleted` of one removed row. */
  function AfterHandler(t: Tables, instance: Comment): Tables {
    var posts := if instance.post in t.posts then t.posts[instance.post := t.posts[instance.post] - 1] else t.posts;
    if instance.parent.Some? && instance.parent.value in t.comments then
      var p := instance.parent.value;
      Tables(posts, t.comments[p := t.comments[p].(replies := t.comments[p].replies - 1)])
    else Tables(posts, t.comments)
  }

  lemma HandledStep(t: Tables, gone: set<CommentId>, done: set<CommentId>, t': Tables, d: CommentId)
    requires Handled(t, gone, done, t') && d in t.comments && d !in done
    ensures Handled(t, gone, done + {d}, AfterHandler(t', t.comments[d]))
  {
    var t'' := AfterHandler(t', t.comments[d]);
    forall p | p in t.posts ensures t''.posts[p] == t.posts[p] - |OnPost(t.comments, done + {d}, p)| {
      OnPostGrows(t.comments, done, d, p);
    }
    forall c | c in t''.comments
      ensures t''.comments[c]
              == t.comments[c].(replies := t.comments[c].replies - |RepliesTo(t.comments, done + {d}, c)|)
    {
      RepliesGrow(t.comments, done, d, c);
    }
  }

  lemma HandledStart(t: Tables, gone: set<CommentId>)
    ensures Handled(t, gone, {}, Tables(t.posts, t.comments - gone))
  {
    assert forall p :: OnPost(t.comments, {}, p) == {};
    assert forall c :: RepliesTo(t.comments, {}, c) == {};
  }

  lemma HandledEnd(t: Tables, roots: set<CommentId>, t': Tables)
    requires Handled(t, Doomed(t.comments, roots), Doomed(t.comments, roots), t')
    ensures t' == HardDelete(t, roots)
  {}

  class SocialTables {
    var posts: map<PostId, int>
    var comments: map<CommentId, Comment>

    constructor (t: Tables)
      ensures View() == t
    {
      posts, comments := t.posts, t.comments;
    }

    function View(): Tables
      reads this
    {
      Tables(posts, comments)
    }

    /** The deletion collector: batch after batch of replies, until no new row appears. */
    method Collect(roots: set<CommentId>) returns (all: set<CommentId>)
      requires Forest(View())
      ensures all == Doomed(comments, roots)
    {
      var batch := roots * comments.Keys;
      all := batch;
      while batch != {}
        invariant batch <= all <= Doomed(comments, roots) && roots * comments.Keys <= all
        invariant ChildrenOf(comments, all - batch) <= all
        decreases comments.Keys - all, batch
      {
        var next := ChildrenOf(comments, batch) - all;
        assert ChildrenOf(comments, all) <= ChildrenOf(comments, all - batch) + ChildrenOf(comments, batch);
        assert (all + next) - next == all;
        all := all + next;
        batch := next;
      }
      forall id | id in Doomed(comments, roots) ensures id in all { ClosedHoldsAllBelow(View(), roots, all, id); }
    }

    method CommentDeleted(instance: Comment)
      modifies this
      ensures View() == AfterHandler(old(View()), instance)
    {
      if instance.post in posts { posts := posts[instance.post := posts[instance.post] - 1]; }
      if instance.parent.Some? && instance.parent.value in comments {
        var parent := comments[instance.parent.value];
        comments := comments[instance.parent.value := parent.(replies := parent.replies - 1)];
      }
    }

    /** Rows go first, then the handlers run, in whatever order. */
    method HardDeleteRows(roots: set<CommentId>)
      requires Forest(View())
      modifies this
      ensures View() == HardDelete(old(View()), roots)
    {
      var gone := Collect(roots);
      ghost var before := View();
      var rows := comments;
      HandledStart(before, gone);
      comments := comments - gone;
      var todo, done := gone, {};
      while todo != {}
        invariant todo !! done && todo + done == gone && Handled(before, gone, done, View())
        decreases todo
      {
        var d :| d in todo;
        HandledStep(before, gone, done, View(), d);
        CommentDeleted(rows[d]);
        todo, done := todo - {d}, done + {d};
      }
      HandledEnd(before, roots, View());
    }
  }
}
