/**
  `_is_sensitive_key` and `redact` of utils/logging.py: a depth-bounded transform of the values
  a log record carries.
*/
module LogRedact {
  import opened Text
  import opened LogScrub

  const MAX_STRING := 512
  const MAX_ITEMS := 50
  const TOO_DEEP: string := "[truncated: too deep]"

  /** A dict key; only `str(key)` matters to the redactor. */
  datatype Key = StrKey(text: string) | OtherKey(id: int, text: string)

  datatype Scalar = Int(i: int) | Real(r: real) | Flag(b: bool) | Null

  datatype Entry = Entry(key: Key, value: Value)

  datatype Value =
    | Str(s: string)
    | Atom(a: Scalar)
    | Dict(entries: seq<Entry>)
    | List(items: seq<Value>)    // list or tuple
    | Other(text: string)        // anything else, known by its `str`

  /** The two tables of key names: exact names that are safe, and parts that make a key sensitive. */
  datatype Policy = Policy(safe: set<string>, parts: set<string>)

  predicate IsSensitiveKey(pol: Policy, key: Key) {
    var lowered := Lower(key.text);
    lowered !in pol.safe && exists part | part in pol.parts :: Contains(lowered, part)
  }

  function Prefix<T>(s: seq<T>, n: nat): seq<T> { if |s| <= n then s else s[..n] }

  function RedactString(s: string): string {
    var scrubbed := Scrub(s);
    if |scrubbed| > MAX_STRING then scrubbed[..MAX_STRING] + "...[" + Dec(|scrubbed|) + " chars]" else scrubbed
  }

  /** `cleaned[key] = value` on an insertion-ordered dict */
  function Put(es: seq<Entry>, key: Key, v: Value): seq<Entry>
    decreases |es|
  {
    if es == [] then [Entry(key, v)]
    else if es[0].key == key then [Entry(key, v)] + es[1..]
    else [es[0]] + Put(es[1..], key, v)
  }

  function Redact(pol: Policy, v: Value, depth: nat): Value
    decreases v
  {
    if depth > 6 then Str(TOO_DEEP)
    else
      match v
      case Dict(entries) =>
        var cleaned := RedactEntries(pol, Prefix(entries, MAX_ITEMS), depth);
        Dict(if |entries| > MAX_ITEMS
             then Put(cleaned, StrKey("..."), Str("[" + Dec(|entries| - MAX_ITEMS) + " more keys]"))
             else cleaned)
      case List(items) =>
        var cleaned := RedactItems(pol, Prefix(items, MAX_ITEMS), depth);
        List(if |items| > MAX_ITEMS then cleaned + [Str("[" + Dec(|items| - MAX_ITEMS) + " more items]")] else cleaned)
      case Str(s) => Str(RedactString(s))
      case Atom(_) => v
      case Other(text) => Str(Prefix(Scrub(text), MAX_STRING))
  }

  function RedactEntry(pol: Policy, e: Entry, depth: nat): Entry
    decreases e
  {
    Entry(e.key, if IsSensitiveKey(pol, e.key) then Str(REDACTED) else Redact(pol, e.value, depth + 1))
  }

  function RedactEntries(pol: Policy, es: seq<Entry>, depth: nat): (r: seq<Entry>)
    ensures |r| == |es|
    decreases es
  {
    if es == [] then [] else [RedactEntry(pol, es[0], depth)] + RedactEntries(pol, es[1..], depth)
  }

  function RedactItems(pol: Policy, vs: seq<Value>, depth: nat): (r: seq<Value>)
    ensures |r| == |vs|
    decreases vs
  {
    if vs == [] then [] else [Redact(pol, vs[0], depth + 1)] + RedactItems(pol, vs[1..], depth)
  }

  // ---- noninterference -------------------------------------------------------

  /** The two values differ at most under sensitive keys, past the item limit of a container,
      or below the depth limit. */
  predicate Alike(pol: Policy, v: Value, w: Value, depth: nat)
    decreases v
  {
    depth > 6 ||
    match (v, w)
    case (Dict(es), Dict(fs)) =>
      |es| == |fs| && forall i | 0 <= i < |es| && i < MAX_ITEMS :: AlikeEntry(pol, es[i], fs[i], depth)
    case (List(xs), List(ys)) =>
      |xs| == |ys| && forall i | 0 <= i < |xs| && i < MAX_ITEMS :: Alike(pol, xs[i], ys[i], depth + 1)
    case _ => v == w
  }

  predicate AlikeEntry(pol: Policy, e: Entry, f: Entry, depth: nat)
    decreases e
  {
    e.key == f.key && (IsSensitiveKey(pol, e.key) || Alike(pol, e.value, f.value, depth + 1))
  }

  /** What is alike is redacted to the very same value: nothing under a sensitive key gets out. */
  lemma {:induction false} Noninterference(pol: Policy, v: Value, w: Value, depth: nat)
    requires Alike(pol, v, w, depth)
    ensures Redact(pol, v, depth) == Redact(pol, w, depth)
    decreases v
  {
    if depth <= 6 {
      match (v, w)
      case (Dict(es), Dict(fs)) => EntriesNoninterference(pol, Prefix(es, MAX_ITEMS), Prefix(fs, MAX_ITEMS), depth);
      case (List(xs), List(ys)) => ItemsNoninterference(pol, Prefix(xs, MAX_ITEMS), Prefix(ys, MAX_ITEMS), depth);
      case _ =>
    }
  }

  lemma {:induction false} EntryNoninterference(pol: Policy, e: Entry, f: Entry, depth: nat)
    requires AlikeEntry(pol, e, f, depth)
    ensures RedactEntry(pol, e, depth) == RedactEntry(pol, f, depth)
    decreases e
  {
    if !IsSensitiveKey(pol, e.key) { Noninterference(pol, e.value, f.value, depth + 1); }
  }

  lemma {:induction false} EntriesNoninterference(pol: Policy, es: seq<Entry>, fs: seq<Entry>, depth: nat)
    requires |es| == |fs| && forall i | 0 <= i < |es| :: AlikeEntry(pol, es[i], fs[i], depth)
    ensures RedactEntries(pol, es, depth) == RedactEntries(pol, fs, depth)
    decreases es
  {
    if es != [] {
      EntryNoninterference(pol, es[0], fs[0], depth);
      EntriesNoninterference(pol, es[1..], fs[1..], depth);
    }
  }

  lemma {:induction false} ItemsNoninterference(pol: Policy, xs: seq<Value>, ys: seq<Value>, depth: nat)
    requires |xs| == |ys| && forall i | 0 <= i < |xs| :: Alike(pol, xs[i], ys[i], depth + 1)
    ensures RedactItems(pol, xs, depth) == RedactItems(pol, ys, depth)
    decreases xs
  {
    if xs != [] {
      Noninterference(pol, xs[0], ys[0], depth + 1);
      ItemsNoninterference(pol, xs[1..], ys[1..], depth);
    }
  }

  // ---- shape of the output ---------------------------------------------------

  /** A string the redactor may emit: a marker, scrubbed text, or a prefix of scrubbed text. */
  ghost predicate Emitted(s: string) {
    || s == REDACTED || s == TOO_DEEP
    || (exists n: nat :: s == "[" + Dec(n) + " more keys]")
    || (exists n: nat :: s == "[" + Dec(n) + " more items]")
    || (exists t :: ScrubbedLeaf(s, t))
  }

  ghost predicate ScrubbedLeaf(s: string, t: string) {
    if |Scrub(t)| <= MAX_STRING then s == Scrub(t)
    else s == Scrub(t)[..MAX_STRING] || s == Scrub(t)[..MAX_STRING] + "...[" + Dec(|Scrub(t)|) + " chars]"
  }

  /** Every string leaf is one the redactor may emit, and every sensitive key holds the marker only. */
  ghost predicate Sealed(pol: Policy, v: Value)
    decreases v
  {
    match v
    case Str(s) => Emitted(s)
    case Atom(_) => true
    case Dict(es) => forall i | 0 <= i < |es| :: SealedEntry(pol, es[i])
    case List(vs) => forall i | 0 <= i < |vs| :: Sealed(pol, vs[i])
    case Other(_) => false
  }

  ghost predicate SealedEntry(pol: Policy, e: Entry)
    decreases e
  {
    (IsSensitiveKey(pol, e.key) ==> e.value == Str(REDACTED)) && Sealed(pol, e.value)
  }

  function Nodes(v: Value): nat
    decreases v
  {
    match v
    case Dict(es) => 1 + NodesOfEntries(es)
    case List(vs) => 1 + NodesOfItems(vs)
    case _ => 1
  }

  function EntryNodes(e: Entry): nat
    decreases e
  {
    Nodes(e.value)
  }

  function NodesOfEntries(es: seq<Entry>): nat
    decreases es
  {
    if es == [] then 0 else EntryNodes(es[0]) + NodesOfEntries(es[1..])
  }

  function NodesOfItems(vs: seq<Value>): nat
    decreases vs
  {
    if vs == [] then 0 else Nodes(vs[0]) + NodesOfItems(vs[1..])
  }

  /** At most `d` containers inside each other, each with at most `w` entries. */
  predicate Within(v: Value, d: nat, w: nat)
    decreases v
  {
    match v
    case Dict(es) => d > 0 && |es| <= w && forall i | 0 <= i < |es| :: WithinEntry(es[i], d - 1, w)
    case List(vs) => d > 0 && |vs| <= w && forall i | 0 <= i < |vs| :: Within(vs[i], d - 1, w)
    case _ => true
  }

  predicate WithinEntry(e: Entry, d: nat, w: nat)
    decreases e
  {
    Within(e.value, d, w)
  }

  /** The node bound: one leaf below the last level, else the container, 50 children and one notice. */
  function SizeBound(depth: nat): nat
    decreases 7 - depth
  {
    if depth >= 7 then 1 else 2 + MAX_ITEMS * SizeBound(depth + 1)
  }

  ghost predicate Bounded(pol: Policy, v: Value, depth: nat)
    requires depth <= 7
  {
    Sealed(pol, v) && Within(v, 7 - depth, MAX_ITEMS + 1) && Nodes(v) <= SizeBound(depth)
  }

  ghost predicate BoundedEntry(pol: Policy, e: Entry, depth: nat)
    requires depth <= 7
  {
    SealedEntry(pol, e) && Bounded(pol, e.value, depth)
  }

  lemma {:induction false} NodesOfEntriesAtMost(es: seq<Entry>, b: nat)
    requires forall i | 0 <= i < |es| :: Nodes(es[i].value) <= b
    ensures NodesOfEntries(es) <= |es| * b
    decreases |es|
  {
    if es != [] { NodesOfEntriesAtMost(es[1..], b); assert |es| * b == b + (|es| - 1) * b; }
  }

  lemma {:induction false} NodesOfItemsAtMost(vs: seq<Value>, b: nat)
    requires forall i | 0 <= i < |vs| :: Nodes(vs[i]) <= b
    ensures NodesOfItems(vs) <= |vs| * b
    decreases |vs|
  {
    if vs != [] { NodesOfItemsAtMost(vs[1..], b); assert |vs| * b == b + (|vs| - 1) * b; }
  }

  lemma {:induction false} NodesOfItemsAppend(vs: seq<Value>, w: Value)
    ensures NodesOfItems(vs + [w]) == NodesOfItems(vs) + Nodes(w)
    decreases |vs|
  {
    if vs == [] { assert [w][1..] == [] && vs + [w] == [w]; }
    else { assert (vs + [w])[1..] == vs[1..] + [w]; NodesOfItemsAppend(vs[1..], w); }
  }

  lemma {:induction false} PutShape(es: seq<Entry>, key: Key, v: Value)
    ensures |es| <= |Put(es, key, v)| <= |es| + 1
    ensures forall e | e in Put(es, key, v) :: e in es || e == Entry(key, v)
    ensures NodesOfEntries(Put(es, key, v)) <= NodesOfEntries(es) + Nodes(v)
    decreases |es|
  {
    if es != [] && es[0].key != key { PutShape(es[1..], key, v); }
  }

  lemma RedactedStringEmitted(s: string)
    ensures Emitted(RedactString(s)) && Emitted(Prefix(Scrub(s), MAX_STRING))
  {
    assert ScrubbedLeaf(RedactString(s), s) && ScrubbedLeaf(Prefix(Scrub(s), MAX_STRING), s);
  }

  lemma SizeBoundPositive(depth: nat)
    ensures SizeBound(depth) >= 1
  {}

  /** For every value: strings and sensitive keys are sealed, nesting stops at seven containers,
      no container exceeds 51 entries, and the whole output has at most SizeBound(depth) nodes. */
  lemma {:induction false} RedactBounded(pol: Policy, v: Value, depth: nat)
    requires !IsSensitiveKey(pol, StrKey("...")) && depth <= 7
    ensures Bounded(pol, Redact(pol, v, depth), depth)
    decreases v
  {
    SizeBoundPositive(depth);
    if depth <= 6 {
      match v
      case Str(s) => RedactedStringEmitted(s);
      case Other(s) => RedactedStringEmitted(s);
      case Atom(_) =>
      case Dict(es) =>
        RedactEntriesBounded(pol, Prefix(es, MAX_ITEMS), depth);
        DictBounded(pol, es, RedactEntries(pol, Prefix(es, MAX_ITEMS), depth), depth);
      case List(vs) =>
        RedactItemsBounded(pol, Prefix(vs, MAX_ITEMS), depth);
        ListBounded(pol, vs, RedactItems(pol, Prefix(vs, MAX_ITEMS), depth), depth);
    }
  }

  lemma {:induction false} RedactEntryBounded(pol: Policy, e: Entry, depth: nat)
    requires !IsSensitiveKey(pol, StrKey("...")) && depth <= 6
    ensures BoundedEntry(pol, RedactEntry(pol, e, depth), depth + 1)
    decreases e
  {
    SizeBoundPositive(depth + 1);
    if !IsSensitiveKey(pol, e.key) { RedactBounded(pol, e.value, depth + 1); }
  }

  lemma {:induction false} RedactEntriesBounded(pol: Policy, es: seq<Entry>, depth: nat)
    requires !IsSensitiveKey(pol, StrKey("...")) && depth <= 6
    ensures forall i | 0 <= i < |es| :: BoundedEntry(pol, RedactEntries(pol, es, depth)[i], depth + 1)
    decreases es
  {
    if es != [] {
      RedactEntryBounded(pol, es[0], depth);
      RedactEntriesBounded(pol, es[1..], depth);
      forall i | 0 <= i < |es| ensures BoundedEntry(pol, RedactEntries(pol, es, depth)[i], depth + 1) {
        if i > 0 { assert RedactEntries(pol, es, depth)[i] == RedactEntries(pol, es[1..], depth)[i - 1]; }
      }
    }
  }

  ghost predicate AllBounded(pol: Policy, vs: seq<Value>, depth: nat)
    requires depth <= 7
  {
    forall i | 0 <= i < |vs| :: Bounded(pol, vs[i], depth)
  }

  lemma {:induction false} RedactItemsBounded(pol: Policy, vs: seq<Value>, depth: nat)
    requires !IsSensitiveKey(pol, StrKey("...")) && depth <= 6
    ensures AllBounded(pol, RedactItems(pol, vs, depth), depth + 1)
    decreases vs
  {
    if vs != [] {
      RedactBounded(pol, vs[0], depth + 1);
      RedactItemsBounded(pol, vs[1..], depth);
      AllBoundedCons(pol, Redact(pol, vs[0], depth + 1), RedactItems(pol, vs[1..], depth), depth + 1);
    }
  }

  lemma AllBoundedCons(pol: Policy, x: Value, xs: seq<Value>, depth: nat)
    requires depth <= 7 && Bounded(pol, x, depth) && AllBounded(pol, xs, depth)
    ensures AllBounded(pol, [x] + xs, depth)
  {
    forall i | 0 <= i < |[x] + xs| ensures Bounded(pol, ([x] + xs)[i], depth) {
      if i > 0 { assert ([x] + xs)[i] == xs[i - 1]; }
    }
  }

  lemma ProductAtMost(n: nat, m: nat, b: nat)
    requires n <= m
    ensures n * b <= m * b
  {}

  lemma EntriesNodes(pol: Policy, cleaned: seq<Entry>, depth: nat)
    requires depth <= 6 && |cleaned| <= MAX_ITEMS
    requires forall i | 0 <= i < |cleaned| :: BoundedEntry(pol, cleaned[i], depth + 1)
    ensures NodesOfEntries(cleaned) + 2 <= SizeBound(depth)
  {
    var b := SizeBound(depth + 1);
    forall i | 0 <= i < |cleaned| ensures Nodes(cleaned[i].value) <= b
    { assert BoundedEntry(pol, cleaned[i], depth + 1); }
    NodesOfEntriesAtMost(cleaned, b);
    ProductAtMost(|cleaned|, MAX_ITEMS, b);
  }

  lemma NoticeBounded(pol: Policy, n: nat, depth: nat)
    requires !IsSensitiveKey(pol, StrKey("...")) && depth <= 7
    ensures BoundedEntry(pol, Entry(StrKey("..."), Str("[" + Dec(n) + " more keys]")), depth)
  {
    SizeBoundPositive(depth);
    assert Emitted("[" + Dec(n) + " more keys]");
  }

  lemma AssembleDict(pol: Policy, out: seq<Entry>, depth: nat)
    requires depth <= 6 && |out| <= MAX_ITEMS + 1 && NodesOfEntries(out) + 1 <= SizeBound(depth)
    requires forall i | 0 <= i < |out| :: BoundedEntry(pol, out[i], depth + 1)
    ensures Bounded(pol, Dict(out), depth)
  {
    forall i | 0 <= i < |out| ensures SealedEntry(pol, out[i]) && WithinEntry(out[i], 6 - depth, MAX_ITEMS + 1) {
      assert BoundedEntry(pol, out[i], depth + 1);
    }
  }

  lemma DictBounded(pol: Policy, es: seq<Entry>, cleaned: seq<Entry>, depth: nat)
    requires !IsSensitiveKey(pol, StrKey("...")) && depth <= 6 && |cleaned| == |Prefix(es, MAX_ITEMS)|
    requires forall i | 0 <= i < |cleaned| :: BoundedEntry(pol, cleaned[i], depth + 1)
    ensures var notice := Str("[" + Dec(if |es| > MAX_ITEMS then |es| - MAX_ITEMS else 0) + " more keys]");
            Bounded(pol, Dict(if |es| > MAX_ITEMS then Put(cleaned, StrKey("..."), notice) else cleaned), depth)
  {
    EntriesNodes(pol, cleaned, depth);
    if |es| > MAX_ITEMS {
      var notice := Str("[" + Dec(|es| - MAX_ITEMS) + " more keys]");
      var out := Put(cleaned, StrKey("..."), notice);
      PutShape(cleaned, StrKey("..."), notice);
      NoticeBounded(pol, |es| - MAX_ITEMS, depth + 1);
      forall i | 0 <= i < |out| ensures BoundedEntry(pol, out[i], depth + 1) { assert out[i] in out; }
      AssembleDict(pol, out, depth);
    } else {
      AssembleDict(pol, cleaned, depth);
    }
  }

  lemma ListBounded(pol: Policy, vs: seq<Value>, cleaned: seq<Value>, depth: nat)
    requires depth <= 6 && |cleaned| == |Prefix(vs, MAX_ITEMS)|
    requires AllBounded(pol, cleaned, depth + 1)
    ensures var notice := Str("[" + Dec(if |vs| > MAX_ITEMS then |vs| - MAX_ITEMS else 0) + " more items]");
            Bounded(pol, List(if |vs| > MAX_ITEMS then cleaned + [notice] else cleaned), depth)
  {
    var b := SizeBound(depth + 1);
    SizeBoundPositive(depth + 1);
    NodesOfItemsAtMost(cleaned, b);
    ProductAtMost(|cleaned|, MAX_ITEMS, b);
    if |vs| > MAX_ITEMS {
      var notice := Str("[" + Dec(|vs| - MAX_ITEMS) + " more items]");
      NodesOfItemsAppend(cleaned, notice);
      assert Emitted(notice.s);
    }
  }

  // ---- the bound is reached ----------------------------------------------------

  /** 51 copies at every level. */
  function Widest(levels: nat): Value {
    if levels == 0 then Atom(Null) else List(seq(MAX_ITEMS + 1, i => Widest(levels - 1)))
  }

  lemma {:induction false} SameItems(pol: Policy, x: Value, n: nat, depth: nat)
    ensures NodesOfItems(RedactItems(pol, seq(n, i => x), depth)) == n * Nodes(Redact(pol, x, depth + 1))
    decreases n
  {
    if n > 0 {
      assert seq(n, i => x)[1..] == seq(n - 1, i => x);
      SameItems(pol, x, n - 1, depth);
      assert RedactItems(pol, seq(n, i => x), depth)[1..] == RedactItems(pol, seq(n - 1, i => x), depth);
      assert n * Nodes(Redact(pol, x, depth + 1))
             == Nodes(Redact(pol, x, depth + 1)) + (n - 1) * Nodes(Redact(pol, x, depth + 1));
    }
  }

  lemma {:induction false} SizeBoundReached(pol: Policy, depth: nat)
    requires depth <= 7
    ensures Nodes(Redact(pol, Widest(7 - depth), depth)) == SizeBound(depth)
    decreases 7 - depth
  {
    if depth < 7 {
      var x := Widest(6 - depth);
      var items := seq(MAX_ITEMS + 1, i => x);
      assert Widest(7 - depth) == List(items);
      assert Prefix(items, MAX_ITEMS) == seq(MAX_ITEMS, i => x);
      SizeBoundReached(pol, depth + 1);
      SameItems(pol, x, MAX_ITEMS, depth);
      NodesOfItemsAppend(RedactItems(pol, seq(MAX_ITEMS, i => x), depth), Str("[" + Dec(1) + " more items]"));
    }
  }

  // ---- the loops of the function -------------------------------------------------

  predicate DistinctKeys(es: seq<Entry>) {
    forall i, j | 0 <= i < j < |es| :: es[i].key != es[j].key
  }

  /** The keys of a dict are distinct. */
  predicate WellFormed(v: Value)
    decreases v
  {
    match v
    case Dict(es) => DistinctKeys(es) && forall i | 0 <= i < |es| :: WellFormedEntry(es[i])
    case List(vs) => forall i | 0 <= i < |vs| :: WellFormed(vs[i])
    case _ => true
  }

  predicate WellFormedEntry(e: Entry)
    decreases e
  {
    WellFormed(e.value)
  }

  lemma {:induction false} PutFresh(es: seq<Entry>, key: Key, v: Value)
    requires forall i | 0 <= i < |es| :: es[i].key != key
    ensures Put(es, key, v) == es + [Entry(key, v)]
    decreases |es|
  {
    if es != [] { PutFresh(es[1..], key, v); }
  }

  lemma {:induction false} RedactEntriesAppend(pol: Policy, es: seq<Entry>, e: Entry, depth: nat)
    ensures RedactEntries(pol, es + [e], depth) == RedactEntries(pol, es, depth) + [RedactEntry(pol, e, depth)]
    decreases |es|
  {
    if es != [] {
      assert (es + [e])[1..] == es[1..] + [e];
      RedactEntriesAppend(pol, es[1..], e, depth);
    }
  }

  lemma {:induction false} RedactItemsAppend(pol: Policy, vs: seq<Value>, v: Value, depth: nat)
    ensures RedactItems(pol, vs + [v], depth) == RedactItems(pol, vs, depth) + [Redact(pol, v, depth + 1)]
    decreases |vs|
  {
    if vs != [] {
      assert (vs + [v])[1..] == vs[1..] + [v];
      RedactItemsAppend(pol, vs[1..], v, depth);
    }
  }

  lemma {:induction false} RedactEntriesKeys(pol: Policy, es: seq<Entry>, depth: nat)
    ensures forall i | 0 <= i < |es| :: RedactEntries(pol, es, depth)[i].key == es[i].key
    decreases |es|
  {
    if es != [] { RedactEntriesKeys(pol, es[1..], depth); }
  }

  method RedactValue(pol: Policy, value: Value, depth: nat) returns (r: Value)
    requires WellFormed(value)
    ensures r == Redact(pol, value, depth)
    decreases value
  {
    if depth > 6 { return Str(TOO_DEEP); }
    match value {
      case Dict(entries) =>
        var cleaned: seq<Entry> := [];
        var index := 0;
        while index < |entries| && index < MAX_ITEMS
          invariant index <= |entries| && index <= MAX_ITEMS
          invariant cleaned == RedactEntries(pol, entries[..index], depth)
        {
          var e := entries[index];
          var item := RedactEntryValue(pol, e, depth);
          RedactEntriesKeys(pol, entries[..index], depth);
          PutFresh(cleaned, e.key, item);
          RedactEntriesAppend(pol, entries[..index], e, depth);
          assert entries[..index] + [e] == entries[..index + 1];
          cleaned := Put(cleaned, e.key, item);
          index := index + 1;
        }
        assert entries[..index] == Prefix(entries, MAX_ITEMS);
        if index < |entries| {
          cleaned := Put(cleaned, StrKey("..."), Str("[" + Dec(|entries| - MAX_ITEMS) + " more keys]"));
        }
        r := Dict(cleaned);
      case List(vs) =>
        var items: seq<Value> := [];
        var index := 0;
        while index < |vs| && index < MAX_ITEMS
          invariant index <= |vs| && index <= MAX_ITEMS
          invariant items == RedactItems(pol, vs[..index], depth)
        {
          var item := RedactValue(pol, vs[index], depth + 1);
          RedactItemsAppend(pol, vs[..index], vs[index], depth);
          assert vs[..index] + [vs[index]] == vs[..index + 1];
          items := items + [item];
          index := index + 1;
        }
        assert vs[..index] == Prefix(vs, MAX_ITEMS);
        if |vs| > MAX_ITEMS { items := items + [Str("[" + Dec(|vs| - MAX_ITEMS) + " more items]")]; }
        r := List(items);
      case Str(s) => r := Str(RedactString(s));
      case Atom(_) => r := value;
      case Other(text) => r := Str(Prefix(Scrub(text), MAX_STRING));
    }
  }

  method RedactEntryValue(pol: Policy, e: Entry, depth: nat) returns (item: Value)
    requires WellFormedEntry(e)
    ensures item == RedactEntry(pol, e, depth).value
    decreases e
  {
    if IsSensitiveKey(pol, e.key) { return Str(REDACTED); }
    item := RedactValue(pol, e.value, depth + 1);
  }
}
