/**
  What `redact` of utils/logging.py keeps: everything that is neither sensitive nor too much comes out as it
  went in, texts come out scrubbed, and every cut says how much it left out.
*/
module LogFidelity {
  import opened Text
  import opened LogScrub
  import opened LogRedact

  ghost predicate PlainText(s: string) { |s| <= 512 && forall p: Pattern :: Clean(p, s) }

  /** Nothing sensitive, nothing to scrub, at most 50 entries in a container and seven levels. */
  ghost predicate Plain(pol: Policy, v: Value, depth: nat)
    decreases v
  {
    depth <= 6 &&
    match v
    case Str(s) => PlainText(s)
    case Atom(_) => true
    case Dict(es) => |es| <= 50 && forall i | 0 <= i < |es| :: PlainEntry(pol, es[i], depth)
    case List(vs) => |vs| <= 50 && forall i | 0 <= i < |vs| :: Plain(pol, vs[i], depth + 1)
    case Other(_) => false
  }

  ghost predicate PlainEntry(pol: Policy, e: Entry, depth: nat)
    decreases e
  {
    !IsSensitiveKey(pol, e.key) && Plain(pol, e.value, depth + 1)
  }

  /** A plain value is its own redaction, keys, their order and atoms included. */
  lemma {:induction false} PlainUnchanged(pol: Policy, v: Value, depth: nat)
    requires Plain(pol, v, depth)
    ensures Redact(pol, v, depth) == v
    decreases v
  {
    match v
    case Str(s) => ScrubIdempotent(s);
    case Dict(es) => PlainEntries(pol, es, depth);
    case List(vs) => PlainItems(pol, vs, depth);
    case Atom(_) =>
  }

  lemma {:induction false} PlainEntries(pol: Policy, es: seq<Entry>, depth: nat)
    requires forall i | 0 <= i < |es| :: PlainEntry(pol, es[i], depth)
    ensures RedactEntries(pol, es, depth) == es
    decreases es
  {
    if es != [] {
      PlainEntryUnchanged(pol, es[0], depth);
      assert forall i | 0 <= i < |es[1..]| :: es[1..][i] == es[i + 1];
      PlainEntries(pol, es[1..], depth);
    }
  }

  lemma {:induction false} PlainEntryUnchanged(pol: Policy, e: Entry, depth: nat)
    requires PlainEntry(pol, e, depth)
    ensures RedactEntry(pol, e, depth) == e
    decreases e
  {
    PlainUnchanged(pol, e.value, depth + 1);
  }

  lemma {:induction false} PlainItems(pol: Policy, vs: seq<Value>, depth: nat)
    requires forall i | 0 <= i < |vs| :: Plain(pol, vs[i], depth + 1)
    ensures RedactItems(pol, vs, depth) == vs
    decreases vs
  {
    if vs != [] {
      PlainUnchanged(pol, vs[0], depth + 1);
      assert forall i | 0 <= i < |vs[1..]| :: vs[1..][i] == vs[i + 1];
      PlainItems(pol, vs[1..], depth);
    }
  }

  // ---- texts -----------------------------------------------------------------------

  predicate WritesNumber(d: string, n: nat) { d != "" && AllDigits(d) && DecValue(d) == n }

  /** `text` is a number between two fixed pieces of text. */
  ghost predicate Names(text: string, before: string, n: nat, after: string) {
    exists d :: WritesNumber(d, n) && text == before + d + after
  }

  lemma NamesDec(before: string, n: nat, after: string)
    ensures Names(before + Dec(n) + after, before, n, after)
  {
    DecRoundTrip(n);
    assert WritesNumber(Dec(n), n);
  }

  /** `out` is `t`, or its first 512 characters and a note of its length. */
  ghost predicate CutAt512(out: string, t: string) {
    if |t| <= 512 then out == t
    else |out| >= 512 && out[..512] == t[..512] && Names(out[512..], "...[", |t|, " chars]")
  }

  /** Every text comes out as its own scrubbed text, or as the first 512 characters of that and its length. */
  lemma TextsAreScrubbed(pol: Policy, s: string, depth: nat)
    requires depth <= 6
    ensures Redact(pol, Str(s), depth).Str? && CutAt512(Redact(pol, Str(s), depth).s, Scrub(s))
  {
    var t := Scrub(s);
    if |t| > 512 {
      var note := "...[" + Dec(|t|) + " chars]";
      var out := Redact(pol, Str(s), depth).s;
      NamesDec("...[", |t|, " chars]");
      assert out == t[..512] + note;
      assert out[..512] == t[..512] && out[512..] == note;
    }
  }

  /** Whatever lies deeper than seven levels comes out as one fixed note. */
  lemma DeeperIsCut(pol: Policy, depth: nat)
    ensures depth > 6 <==> forall w :: Redact(pol, w, depth) == Str("[truncated: too deep]")
  {
    if depth <= 6 { assert Redact(pol, Atom(Null), depth) == Atom(Null); }
  }

  /** A value of another type comes out as its scrubbed text, or the first 512 characters of that. */
  lemma OthersAreScrubbed(pol: Policy, text: string, depth: nat)
    requires depth <= 6
    ensures Redact(pol, Other(text), depth) == Str(if |Scrub(text)| <= 512 then Scrub(text) else Scrub(text)[..512])
  {}

  // ---- containers ------------------------------------------------------------------

  lemma {:induction false} ItemAt(pol: Policy, vs: seq<Value>, depth: nat, i: nat)
    requires i < |vs|
    ensures RedactItems(pol, vs, depth)[i] == Redact(pol, vs[i], depth + 1)
    decreases |vs|
  {
    if i > 0 { ItemAt(pol, vs[1..], depth, i - 1); }
  }

  lemma {:induction false} EntryAt(pol: Policy, es: seq<Entry>, depth: nat, i: nat)
    requires i < |es|
    ensures RedactEntries(pol, es, depth)[i].key == es[i].key
    ensures RedactEntries(pol, es, depth)[i].value
            == if IsSensitiveKey(pol, es[i].key) then Str("[redacted]") else Redact(pol, es[i].value, depth + 1)
    decreases |es|
  {
    if i > 0 { EntryAt(pol, es[1..], depth, i - 1); }
  }

  /** A list keeps its first 50 items, each redacted in its place; a longer one says how many follow. */
  lemma ListsAreCut(pol: Policy, vs: seq<Value>, depth: nat)
    requires depth <= 6
    ensures Redact(pol, List(vs), depth).List?
    ensures var out := Redact(pol, List(vs), depth).items;
            && |out| == (if |vs| <= 50 then |vs| else 51)
            && (forall i | 0 <= i < |vs| && i < 50 :: out[i] == Redact(pol, vs[i], depth + 1))
            && (|vs| > 50 ==> out[50].Str? && Names(out[50].s, "[", |vs| - 50, " more items]"))
  {
    var kept := Prefix(vs, 50);
    forall i | 0 <= i < |kept| ensures RedactItems(pol, kept, depth)[i] == Redact(pol, kept[i], depth + 1) {
      ItemAt(pol, kept, depth, i);
    }
    if |vs| > 50 { NamesDec("[", |vs| - 50, " more items]"); }
  }

  /** `cleaned["..."] = note` changes no other entry, and the note is there afterwards. */
  lemma {:induction false} PutKeepsOthers(es: seq<Entry>, key: Key, v: Value)
    ensures |Put(es, key, v)| >= |es|
    ensures forall i | 0 <= i < |es| && es[i].key != key :: Put(es, key, v)[i] == es[i]
    ensures Entry(key, v) in Put(es, key, v)
    decreases |es|
  {
    if es != [] && es[0].key != key {
      PutKeepsOthers(es[1..], key, v);
      forall i | 1 <= i < |es| && es[i].key != key ensures Put(es, key, v)[i] == es[i] {
        assert es[1..][i - 1] == es[i];
      }
    }
  }

  /** A dict keeps its first 50 keys in order, each with the marker or with its redacted value; a longer one
      says under "..." how many keys follow, in place of what a key of that name may have held. */
  lemma DictsAreCut(pol: Policy, es: seq<Entry>, depth: nat)
    requires depth <= 6
    ensures Redact(pol, Dict(es), depth).Dict?
    ensures var out := Redact(pol, Dict(es), depth).entries;
            && |out| >= (if |es| <= 50 then |es| else 50)
            && (forall i | 0 <= i < |es| && i < 50 && (|es| > 50 ==> es[i].key != StrKey("...")) ::
                  out[i] == Entry(es[i].key, if IsSensitiveKey(pol, es[i].key) then Str("[redacted]")
                                             else Redact(pol, es[i].value, depth + 1)))
            && (|es| > 50 ==> exists note :: Entry(StrKey("..."), Str(note)) in out
                                             && Names(note, "[", |es| - 50, " more keys]"))
  {
    var kept := Prefix(es, 50);
    var cleaned := RedactEntries(pol, kept, depth);
    forall i | 0 <= i < |kept|
      ensures cleaned[i] == Entry(es[i].key, if IsSensitiveKey(pol, es[i].key) then Str("[redacted]")
                                             else Redact(pol, es[i].value, depth + 1))
    {
      EntryAt(pol, kept, depth, i);
      assert kept[i] == es[i];
    }
    if |es| > 50 {
      var note := "[" + Dec(|es| - 50) + " more keys]";
      NamesDec("[", |es| - 50, " more keys]");
      PutKeepsOthers(cleaned, StrKey("..."), Str(note));
      assert Entry(StrKey("..."), Str(note)) in Redact(pol, Dict(es), depth).entries;
    }
  }
}
