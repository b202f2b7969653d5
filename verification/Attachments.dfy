/**
  The attachment tasks `process_post_media` and `process_comment_media` (social/tasks.py) and
  `attach_ad_creatives` (advertisements/tasks.py), which have the same body, and the edit of a post's
  media in social/services/post.py.  The rows of one parent are a map from media to position: the
  table is unique on the pair of parent and media, and conflicting inserts are ignored.
*/
module Attachments {
  import opened Options

  type Id = string

  datatype Media = Media(owner: nat, deleted: bool)

  datatype Row = Row(media: Id, position: nat)

  type Rows = map<Id, nat>

  /** The author's own media that are not deleted, among the ids asked for. */
  function Owned(ids: seq<Id>, medias: map<Id, Media>, author: nat): set<Id> {
    set m | m in ids && m in medias && medias[m].owner == author && !medias[m].deleted
  }

  /** The rows built for `ids`, whose first one stands at position `base`. */
  function RowsFrom(ids: seq<Id>, owned: set<Id>, base: nat): seq<Row> {
    if ids == [] then []
    else (if ids[0] in owned then [Row(ids[0], base)] else []) + RowsFrom(ids[1..], owned, base + 1)
  }

  function SkippedOf(ids: seq<Id>, owned: set<Id>): seq<Id> {
    if ids == [] then [] else (if ids[0] in owned then [] else [ids[0]]) + SkippedOf(ids[1..], owned)
  }

  /** `bulk_create(rows, ignore_conflicts=True)` */
  function Insert(table: Rows, rows: seq<Row>): Rows
    decreases |rows|
  {
    if rows == [] then table
    else Insert(if rows[0].media in table then table else table[rows[0].media := rows[0].position], rows[1..])
  }

  /** What one delivery leaves. */
  function Delivered(table: Rows, ids: seq<Id>, owned: set<Id>): Rows {
    Insert(table, RowsFrom(ids, owned, 0))
  }

  /** The rows of one parent. */
  class ParentAttachments {
    var rows: Rows

    constructor ()
      ensures rows == map[]
    {
      rows := map[];
    }

    /** One delivery of the task; `author` is None when the parent does not exist. */
    method Process(author: Option<nat>, ids: seq<Id>, medias: map<Id, Media>)
      returns (attached: nat, skipped: seq<Id>)
      modifies this
      ensures author.None? ==> rows == old(rows) && attached == 0 && skipped == ids
      ensures author.Some? ==>
                var owned := Owned(ids, medias, author.value);
                && rows == Delivered(old(rows), ids, owned)
                && attached == |RowsFrom(ids, owned, 0)| && skipped == SkippedOf(ids, owned)
    {
      if ids == [] { return 0, []; }
      if author.None? { return 0, ids; }
      var owned := Owned(ids, medias, author.value);
      var built: seq<Row> := [];
      skipped := [];
      for position := 0 to |ids|
        invariant built + RowsFrom(ids[position..], owned, position) == RowsFrom(ids, owned, 0)
        invariant skipped + SkippedOf(ids[position..], owned) == SkippedOf(ids, owned)
      {
        assert ids[position..][1..] == ids[position + 1..];
        if ids[position] !in owned {
          skipped := skipped + [ids[position]];
        } else {
          built := built + [Row(ids[position], position)];
        }
      }
      assert ids[|ids|..] == [];
      assert built == RowsFrom(ids, owned, 0) && skipped == SkippedOf(ids, owned);
      if built == [] { return 0, skipped; }
      rows := Insert(rows, built);
      attached := |built|;
    }
  }

  // ---- the split merges back ---------------------------------------------------------

  /** Reads rows at their positions and fills the other positions with the skipped ids. */
  function Merge(rows: seq<Row>, skipped: seq<Id>, from: nat, count: nat): seq<Id>
    decreases count
  {
    if count == 0 then []
    else if rows != [] && rows[0].position == from then [rows[0].media] + Merge(rows[1..], skipped, from + 1, count - 1)
    else if skipped != [] then [skipped[0]] + Merge(rows, skipped[1..], from + 1, count - 1)
    else []
  }

  predicate Placed(r: Row, ids: seq<Id>, owned: set<Id>, base: nat) {
    base <= r.position < base + |ids| && r.media in owned && ids[r.position - base] == r.media
  }

  /** Every row stands where its media was listed. */
  lemma {:induction false} RowsArePlaced(ids: seq<Id>, owned: set<Id>, base: nat, k: nat)
    requires k < |RowsFrom(ids, owned, base)|
    ensures Placed(RowsFrom(ids, owned, base)[k], ids, owned, base)
  {
    var rest := RowsFrom(ids[1..], owned, base + 1);
    var head := if ids[0] in owned then 1 else 0;
    if k >= head {
      assert RowsFrom(ids, owned, base)[k] == rest[k - head];
      RowsArePlaced(ids[1..], owned, base + 1, k - head);
    }
  }

  /** The rows are in the order of the list. */
  lemma {:induction false} PositionsRise(ids: seq<Id>, owned: set<Id>, base: nat, j: nat, k: nat)
    requires j < k < |RowsFrom(ids, owned, base)|
    ensures RowsFrom(ids, owned, base)[j].position < RowsFrom(ids, owned, base)[k].position
  {
    var rest := RowsFrom(ids[1..], owned, base + 1);
    var head := if ids[0] in owned then 1 else 0;
    assert RowsFrom(ids, owned, base)[k] == rest[k - head];
    if j >= head {
      assert RowsFrom(ids, owned, base)[j] == rest[j - head];
      PositionsRise(ids[1..], owned, base + 1, j - head, k - head);
    } else {
      RowsArePlaced(ids[1..], owned, base + 1, k - head);
    }
  }

  /** Nothing is lost or moved: attached rows and skipped ids merge back to the input by position. */
  lemma {:induction false} SplitMergesBack(ids: seq<Id>, owned: set<Id>, base: nat)
    ensures Merge(RowsFrom(ids, owned, base), SkippedOf(ids, owned), base, |ids|) == ids
    ensures forall k | 0 <= k < |SkippedOf(ids, owned)| :: SkippedOf(ids, owned)[k] !in owned
  {
    if ids != [] {
      var rows, skipped := RowsFrom(ids, owned, base), SkippedOf(ids, owned);
      var rest, others := RowsFrom(ids[1..], owned, base + 1), SkippedOf(ids[1..], owned);
      SplitMergesBack(ids[1..], owned, base + 1);
      if rest != [] { RowsArePlaced(ids[1..], owned, base + 1, 0); }
      if ids[0] in owned {
        assert rows == [Row(ids[0], base)] + rest && skipped == others;
        assert rows[1..] == rest;
        assert Merge(rows, skipped, base, |ids|) == [ids[0]] + Merge(rest, others, base + 1, |ids[1..]|);
      } else {
        assert rows == rest && skipped == [ids[0]] + others;
        assert skipped[1..] == others;
        assert Merge(rows, skipped, base, |ids|) == [ids[0]] + Merge(rest, others, base + 1, |ids[1..]|);
      }
    }
  }

  // ---- at-least-once delivery -----------------------------------------------------------

  /** The first place of m. */
  function FirstIndex(ids: seq<Id>, m: Id): (i: nat)
    requires m in ids
    ensures i < |ids| && ids[i] == m && m !in ids[..i]
  {
    if ids[0] == m then 0 else
      var i := FirstIndex(ids[1..], m);
      assert ids[..i + 1] == [ids[0]] + ids[1..][..i];
      i + 1
  }

  /** Row m after a delivery: what was there stays, and a new row has its first position. */
  lemma {:induction false} DeliveredRow(table: Rows, ids: seq<Id>, owned: set<Id>, base: nat, m: Id)
    ensures var after := Insert(table, RowsFrom(ids, owned, base));
            && (m in after <==> m in table || (m in ids && m in owned))
            && (m in table ==> after[m] == table[m])
            && (m in after && m !in table ==> after[m] == base + FirstIndex(ids, m))
    decreases |ids|
  {
    if ids != [] {
      var rows := RowsFrom(ids, owned, base);
      if ids[0] in owned {
        assert rows[0] == Row(ids[0], base) && rows[1..] == RowsFrom(ids[1..], owned, base + 1);
        DeliveredRow(if ids[0] in table then table else table[ids[0] := base], ids[1..], owned, base + 1, m);
      } else {
        assert rows == RowsFrom(ids[1..], owned, base + 1);
        DeliveredRow(table, ids[1..], owned, base + 1, m);
      }
    }
  }

  predicate AuthorsOwn(medias: map<Id, Media>, author: nat, m: Id) {
    m in medias && medias[m].owner == author && !medias[m].deleted
  }

  lemma {:induction false} SkippedExactly(ids: seq<Id>, owned: set<Id>, m: Id)
    ensures m in SkippedOf(ids, owned) <==> m in ids && m !in owned
  {
    if ids != [] { SkippedExactly(ids[1..], owned, m); }
  }

  /** A delivery attaches exactly the listed media that are the author's own and not deleted, each at its first
      place, skips exactly the others and leaves the rows that were there. */
  lemma AttachesOwnMediaExactly(table: Rows, ids: seq<Id>, medias: map<Id, Media>, author: nat, m: Id)
    ensures var owned := Owned(ids, medias, author);
            var after := Delivered(table, ids, owned);
            && (m in after <==> m in table || (m in ids && AuthorsOwn(medias, author, m)))
            && (m in table ==> after[m] == table[m])
            && (m in after && m !in table ==> after[m] < |ids| && ids[after[m]] == m && m !in ids[..after[m]])
            && (m in SkippedOf(ids, owned) <==> m in ids && !AuthorsOwn(medias, author, m))
  {
    var owned := Owned(ids, medias, author);
    DeliveredRow(table, ids, owned, 0, m);
    SkippedExactly(ids, owned, m);
  }

  /** One delivery: the ids it carried and those its author owned at that time. */
  datatype Delivery = Delivery(ids: seq<Id>, owned: set<Id>)

  function Deliveries(table: Rows, ds: seq<Delivery>): Rows
    decreases |ds|
  {
    if ds == [] then table else Deliveries(Delivered(table, ds[0].ids, ds[0].owned), ds[1..])
  }

  predicate Brings(d: Delivery, m: Id) { m in d.ids && m in d.owned }

  /** The position m gets from the first delivery that brings it. */
  function FirstBrought(ds: seq<Delivery>, m: Id): Option<nat>
  {
    if ds == [] then None
    else if Brings(ds[0], m) then Some(FirstIndex(ds[0].ids, m))
    else FirstBrought(ds[1..], m)
  }

  /** Any history of deliveries, redeliveries and outdated deliveries in any order: a row that exists is
      never moved, a missing one comes from the first delivery that brings it, at its first occurrence
      there, and no delivery attaches what its author did not own. */
  lemma {:induction false} RowAfterDeliveries(table: Rows, ds: seq<Delivery>, m: Id)
    ensures var after := Deliveries(table, ds);
            && (m in after <==> m in table || FirstBrought(ds, m).Some?)
            && (m in table ==> after[m] == table[m])
            && (m !in table && m in after ==> after[m] == FirstBrought(ds, m).value)
    decreases |ds|
  {
    if ds != [] {
      DeliveredRow(table, ds[0].ids, ds[0].owned, 0, m);
      RowAfterDeliveries(Delivered(table, ds[0].ids, ds[0].owned), ds[1..], m);
    }
  }

  lemma {:induction false} FirstBroughtSame(d: Delivery, n: nat, m: Id)
    ensures FirstBrought(seq(n + 1, _ => d), m) == FirstBrought([d], m)
  {
    var ds := seq(n + 1, _ => d);
    if !Brings(d, m) && n > 0 {
      assert ds[1..] == seq(n, _ => d);
      FirstBroughtSame(d, n - 1, m);
    }
  }

  /** Any number of deliveries of one task leaves the rows of one delivery. */
  lemma RedeliveryChangesNothing(table: Rows, ids: seq<Id>, owned: set<Id>, n: nat)
    ensures Deliveries(table, seq(n + 1, _ => Delivery(ids, owned))) == Delivered(table, ids, owned)
  {
    var d := Delivery(ids, owned);
    var many, once := Deliveries(table, seq(n + 1, _ => d)), Deliveries(table, [d]);
    forall m: Id ensures (m in many <==> m in once) && (m in many ==> many[m] == once[m]) {
      RowAfterDeliveries(table, seq(n + 1, _ => d), m);
      RowAfterDeliveries(table, [d], m);
      FirstBroughtSame(d, n, m);
    }
    assert once == Deliveries(Delivered(table, ids, owned), [d][1..]);
  }

  // ---- the reported number -------------------------------------------------------------

  predicate AllNew(table: Rows, rows: seq<Row>) {
    && (forall k | 0 <= k < |rows| :: rows[k].media !in table)
    && (forall j, k | 0 <= j < k < |rows| :: rows[j].media != rows[k].media)
  }

  /** `attached` never undercounts, and it is the number of rows added exactly when every id attached is
      new to the parent and listed once. */
  lemma {:induction false} AttachedCountExactly(table: Rows, rows: seq<Row>)
    ensures |Insert(table, rows)| <= |table| + |rows|
    ensures |Insert(table, rows)| == |table| + |rows| <==> AllNew(table, rows)
    decreases |rows|
  {
    if rows != [] {
      var r := rows[0];
      var next := if r.media in table then table else table[r.media := r.position];
      AttachedCountExactly(next, rows[1..]);
      if r.media !in table {
        assert next.Keys == table.Keys + {r.media};
        assert |next.Keys| == |table.Keys| + 1;
        AllNewStep(table, rows);
      }
    }
  }

  lemma AllNewStep(table: Rows, rows: seq<Row>)
    requires rows != [] && rows[0].media !in table
    ensures AllNew(table, rows) <==> AllNew(table[rows[0].media := rows[0].position], rows[1..])
  {
    var r, rest := rows[0], rows[1..];
    var next := table[r.media := r.position];
    assert forall k | 1 <= k < |rows| :: rows[k] == rest[k - 1];
    if AllNew(next, rest) {
      forall k | 0 <= k < |rows| ensures rows[k].media !in table {
        if k > 0 { assert rest[k - 1].media !in next; }
      }
      forall j, k | 0 <= j < k < |rows| ensures rows[j].media != rows[k].media {
        assert rest[k - 1].media !in next;
        if j > 0 { assert rest[j - 1].media != rest[k - 1].media; }
      }
    }
  }

  // ---- editing the media of a post --------------------------------------------------------

  /** `PostService.update` with `media_ids`: a different set of media clears the rows and queues the
      task; the flag says whether it was queued. */
  function Edit(table: Rows, ids: seq<Id>): (Rows, bool) {
    if (set m | m in ids) != table.Keys then (map[], true) else (table, false)
  }

  function EditAndDeliver(table: Rows, ids: seq<Id>, owned: set<Id>): Rows {
    if Edit(table, ids).1 then Delivered(Edit(table, ids).0, ids, owned) else Edit(table, ids).0
  }

  /** An edit by an author who owns the media puts them at their positions exactly when it changes the
      set of media or nothing had to move: a pure reordering is dropped. */
  lemma EditOrdersExactly(table: Rows, ids: seq<Id>, owned: set<Id>)
    requires forall m | m in ids :: m in owned
    ensures (forall m | m in ids :: m in EditAndDeliver(table, ids, owned)
                                    && EditAndDeliver(table, ids, owned)[m] == FirstIndex(ids, m))
            <==> || (set m | m in ids) != table.Keys
                 || forall m | m in ids :: m in table && table[m] == FirstIndex(ids, m)
  {
    forall m | m in ids
      ensures m in Delivered(map[], ids, owned) && Delivered(map[], ids, owned)[m] == FirstIndex(ids, m)
    {
      DeliveredRow(map[], ids, owned, 0, m);
    }
  }

  /** Delivery k is the first of `ds` that brings m. */
  predicate BringsFirst(ds: seq<Delivery>, k: nat, m: Id) {
    k < |ds| && Brings(ds[k], m) && forall j | 0 <= j < k :: !Brings(ds[j], m)
  }

  /** No delivery brings a media that `edited` does not bring. */
  predicate NothingElse(ds: seq<Delivery>, edited: Delivery) {
    forall k, i | 0 <= k < |ds| && 0 <= i < |ds[k].ids| :: Brings(ds[k], ds[k].ids[i]) ==> Brings(edited, ds[k].ids[i])
  }

  /** What `ds` brings first, it brings at the place it has in the edited list. */
  predicate SamePlaces(ds: seq<Delivery>, ids: seq<Id>) {
    forall k, i | 0 <= k < |ds| && 0 <= i < |ds[k].ids| && BringsFirst(ds, k, ds[k].ids[i]) ::
      ds[k].ids[i] in ids && FirstIndex(ds[k].ids, ds[k].ids[i]) == FirstIndex(ids, ds[k].ids[i])
  }

  lemma {:induction false} FirstBroughtIs(ds: seq<Delivery>, k: nat, m: Id)
    requires BringsFirst(ds, k, m)
    ensures FirstBrought(ds, m) == Some(FirstIndex(ds[k].ids, m))
  {
    if k > 0 {
      assert !Brings(ds[0], m);
      assert forall j | 0 <= j < |ds[1..]| :: ds[1..][j] == ds[j + 1];
      FirstBroughtIs(ds[1..], k - 1, m);
    }
  }

  lemma {:induction false} FirstBroughtBy(ds: seq<Delivery>, m: Id) returns (k: nat)
    requires FirstBrought(ds, m).Some?
    ensures BringsFirst(ds, k, m)
  {
    if Brings(ds[0], m) {
      k := 0;
    } else {
      var j := FirstBroughtBy(ds[1..], m);
      k := j + 1;
      assert forall l | 1 <= l < |ds| :: ds[l] == ds[1..][l - 1];
    }
  }

  lemma {:induction false} FirstBroughtSplit(pre: seq<Delivery>, ds: seq<Delivery>, m: Id)
    ensures FirstBrought(pre + ds, m)
            == if FirstBrought(pre, m).Some? then FirstBrought(pre, m) else FirstBrought(ds, m)
  {
    if pre == [] {
      assert pre + ds == ds;
    } else {
      assert (pre + ds)[0] == pre[0] && (pre + ds)[1..] == pre[1..] + ds;
      FirstBroughtSplit(pre[1..], ds, m);
    }
  }

  /** The condition on the deliveries settles where each media comes from. */
  lemma RightSources(pre: seq<Delivery>, edited: Delivery, post: seq<Delivery>, m: Id)
    requires NothingElse(pre + [edited] + post, edited) && SamePlaces(pre, edited.ids)
    ensures FirstBrought(pre + [edited] + post, m) == FirstBrought([edited], m)
  {
    var ds := pre + [edited] + post;
    FirstBroughtSplit(pre + [edited], post, m);
    FirstBroughtSplit(pre, [edited], m);
    if FirstBrought(pre, m).Some? {
      var k := FirstBroughtBy(pre, m);
      FirstBroughtIs(pre, k, m);
      var i := FirstIndex(pre[k].ids, m);
      assert BringsFirst(pre, k, pre[k].ids[i]);
      assert ds[k] == pre[k] && Brings(ds[k], ds[k].ids[i]);
      assert Brings(edited, m);
    } else if FirstBrought(post, m).Some? {
      var k := FirstBroughtBy(post, m);
      var j := |pre| + 1 + k;
      assert ds[j] == post[k];
      assert Brings(ds[j], ds[j].ids[FirstIndex(ds[j].ids, m)]);
    }
  }

  lemma WrongMediaShows(ds: seq<Delivery>, edited: Delivery)
    requires !NothingElse(ds, edited)
    ensures exists m :: m in Deliveries(map[], ds) && m !in Delivered(map[], edited.ids, edited.owned)
  {
    var k, i :| 0 <= k < |ds| && 0 <= i < |ds[k].ids| && Brings(ds[k], ds[k].ids[i]) && !Brings(edited, ds[k].ids[i]);
    var m := ds[k].ids[i];
    SomebodyBrings(ds, k, m);
    RowAfterDeliveries(map[], ds, m);
    DeliveredRow(map[], edited.ids, edited.owned, 0, m);
  }

  lemma {:induction false} SomebodyBrings(ds: seq<Delivery>, k: nat, m: Id)
    requires k < |ds| && Brings(ds[k], m)
    ensures FirstBrought(ds, m).Some?
  {
    if !Brings(ds[0], m) { SomebodyBrings(ds[1..], k - 1, m); }
  }

  lemma WrongPlaceShows(pre: seq<Delivery>, edited: Delivery, post: seq<Delivery>)
    requires !SamePlaces(pre, edited.ids)
    ensures Deliveries(map[], pre + [edited] + post) != Delivered(map[], edited.ids, edited.owned)
  {
    var k, i :| 0 <= k < |pre| && 0 <= i < |pre[k].ids| && BringsFirst(pre, k, pre[k].ids[i])
                && (pre[k].ids[i] in edited.ids ==>
                      FirstIndex(pre[k].ids, pre[k].ids[i]) != FirstIndex(edited.ids, pre[k].ids[i]));
    var m := pre[k].ids[i];
    FirstBroughtIs(pre, k, m);
    FirstBroughtSplit(pre, [edited] + post, m);
    assert pre + [edited] + post == pre + ([edited] + post);
    RowAfterDeliveries(map[], pre + [edited] + post, m);
    DeliveredRow(map[], edited.ids, edited.owned, 0, m);
  }

  /** After an edit, whatever is delivered before and after the new task, the rows end up being those of the
      edited list if and only if no delivery brings another media and the deliveries that overtake the new
      task bring each media first at its new place. */
  lemma EditSurvivesExactly(pre: seq<Delivery>, ids: seq<Id>, owned: set<Id>, post: seq<Delivery>)
    ensures var edited := Delivery(ids, owned);
            var ds := pre + [edited] + post;
            Deliveries(map[], ds) == Delivered(map[], ids, owned) <==> NothingElse(ds, edited) && SamePlaces(pre, ids)
  {
    var edited := Delivery(ids, owned);
    var ds := pre + [edited] + post;
    var after, wanted := Deliveries(map[], ds), Deliveries(map[], [edited]);
    assert wanted == Deliveries(Delivered(map[], ids, owned), [edited][1..]);
    if !NothingElse(ds, edited) {
      WrongMediaShows(ds, edited);
    } else if !SamePlaces(pre, ids) {
      WrongPlaceShows(pre, edited, post);
    } else {
      forall m: Id ensures (m in after <==> m in wanted) && (m in after ==> after[m] == wanted[m]) {
        RightSources(pre, edited, post, m);
        RowAfterDeliveries(map[], ds, m);
        RowAfterDeliveries(map[], [edited], m);
      }
      assert after == wanted;
    }
  }

  /** A redelivery of the list from before an edit brings a removed picture back. */
  lemma OutdatedDeliveryRestores(before: seq<Id>, after: seq<Id>, owned: set<Id>, m: Id)
    requires m in before && m in owned && m !in after
    ensures m !in Delivered(map[], after, owned)
    ensures m in Deliveries(map[], [Delivery(after, owned), Delivery(before, owned)])
    ensures !NothingElse([Delivery(after, owned), Delivery(before, owned)], Delivery(after, owned))
  {
    var ds := [Delivery(after, owned), Delivery(before, owned)];
    DeliveredRow(map[], after, owned, 0, m);
    SomebodyBrings(ds, 1, m);
    RowAfterDeliveries(map[], ds, m);
    assert Brings(ds[1], ds[1].ids[FirstIndex(before, m)]);
    EditSurvivesExactly([], after, owned, [Delivery(before, owned)]);
    assert [] + [Delivery(after, owned)] + [Delivery(before, owned)] == ds;
  }
}
