/**
  Layered settings: `_db_values`, `_mark_unavailable`, `invalidate_cache` and `get_config` of
  config/runtime.py, the writes of config/admin.py that end in an invalidation, and the signal handler
  of config/signals.py.  All processes share the cached map; each has its own back-off clock.  Cache
  operations succeed and a write and its invalidation are one step (TimedCache bounds what a load that
  overlaps an invalidation can do).
*/
module ConfigRuntime {
  import opened Options
  import opened Text
  import opened SettingCast

  const CACHE_TTL: nat := 300
  const UNAVAILABLE_BACKOFF: nat := 30

  datatype Row = Row(value: string, active: bool)

  type Rows = map<string, Row>

  datatype Spec = Spec(valueType: string, fallback: Raw, envOnly: bool)

  /** Everything below the table: the registry, the Django settings, the environment. */
  datatype Sources = Sources(registry: map<string, Spec>, django: map<string, Raw>, environ: map<string, string>,
                             isJson: string -> bool)

  datatype Answer = AsIs(raw: Raw) | Typed(value: Value)

  function NormalKey(key: string): string { Upper(Strip(key)) }

  predicate Blank(raw: Raw) { Strip(Shown(raw)) == "" }

  /** The overrides: active rows with a value. */
  function Active(rows: Rows): map<string, string> {
    map k | k in rows && rows[k].active && Strip(rows[k].value) != "" :: rows[k].value
  }

  // ---- the priority chain -----------------------------------------------------------

  /** What one source has to say about a key; a blank Django setting ends the search. */
  datatype Layer = Silent | Speaks(raw: Raw) | Ends(raw: Raw)

  function TableLayer(db: map<string, string>, spec: Option<Spec>, key: string): Layer {
    if (spec.Some? && spec.value.envOnly) || key !in db || Blank(Str(db[key])) then Silent else Speaks(Str(db[key]))
  }

  function DjangoLayer(src: Sources, key: string): Layer {
    if key !in src.django || src.django[key].Absent? then Silent
    else if Blank(src.django[key]) then Ends(src.django[key])
    else Speaks(src.django[key])
  }

  function EnvLayer(src: Sources, key: string): Layer {
    if key !in src.environ || Blank(Str(src.environ[key])) then Silent else Speaks(Str(src.environ[key]))
  }

  /** The first layer that is not silent. */
  function Answering(layers: seq<Layer>): Layer {
    if layers == [] then Silent else if layers[0].Silent? then Answering(layers[1..]) else layers[0]
  }

  function SpecFor(src: Sources, key: string): Option<Spec> {
    if key in src.registry then Some(src.registry[key]) else None
  }

  function Fallback(default: Option<Raw>, spec: Option<Spec>): Raw {
    if default.Some? then default.value else if spec.Some? then spec.value.fallback else Str("")
  }

  function Layers(src: Sources, db: map<string, string>, key: string): seq<Layer> {
    [TableLayer(db, SpecFor(src, key), key), DjangoLayer(src, key), EnvLayer(src, key)]
  }

  /** The uncached resolution of a setting against an override map. */
  function Resolve(src: Sources, db: map<string, string>, name: string, default: Option<Raw>, cast: bool): Answer {
    var key := NormalKey(name);
    var spec := SpecFor(src, key);
    match Answering(Layers(src, db, key))
    case Ends(raw) => AsIs(if default.Some? then default.value else raw)
    case Silent => AsIs(Fallback(default, spec))
    case Speaks(raw) =>
      if !cast || spec.None? then AsIs(raw)
      else
        var typed := Cast(raw, spec.value.valueType, src.isJson);
        if typed.Some? then Typed(typed.value) else AsIs(Fallback(default, spec))
  }

  lemma Pick(a: Layer, b: Layer, c: Layer)
    ensures Answering([a, b, c]) == if !a.Silent? then a else if !b.Silent? then b else c
  {
    var abc, bc, last := [a, b, c], [b, c], [c];
    assert abc[1..] == bc && bc[1..] == last && last[1..] == [];
    assert Answering(last) == c;
    assert Answering(bc) == if !b.Silent? then b else c;
  }

  predicate IsSecret(src: Sources, key: string) { key in src.registry && src.registry[key].envOnly }

  /** The value a lookup finds: a secret never comes from the table, an active row with a value comes before
      everything else, and a blank Django setting hides the environment. */
  function FoundValue(src: Sources, db: map<string, string>, key: string): Option<Raw> {
    if !IsSecret(src, key) && key in db && Strip(db[key]) != "" then Some(Str(db[key]))
    else if key in src.django && !src.django[key].Absent?
    then if Blank(src.django[key]) then None else Some(src.django[key])
    else if key in src.environ && Strip(src.environ[key]) != "" then Some(Str(src.environ[key]))
    else None
  }

  /** What a lookup returns when it finds nothing: a blank Django setting stands for itself. */
  function NothingFound(src: Sources, key: string, default: Option<Raw>): Raw {
    if default.None? && key in src.django && !src.django[key].Absent? then src.django[key]
    else Fallback(default, SpecFor(src, key))
  }

  /** What a found value becomes. */
  function Delivered(src: Sources, key: string, raw: Raw, default: Option<Raw>, cast: bool): Answer {
    if !cast || key !in src.registry then AsIs(raw)
    else match Cast(raw, src.registry[key].valueType, src.isJson)
         case Some(v) => Typed(v)
         case None => AsIs(Fallback(default, SpecFor(src, key)))
  }

  /** The whole chain: a found value is cast if the registry knows the key, and only a failing cast gives way
      to the default. */
  lemma ChainInOrder(src: Sources, db: map<string, string>, name: string, default: Option<Raw>, cast: bool)
    ensures var key := NormalKey(name);
            Resolve(src, db, name, default, cast)
            == match FoundValue(src, db, key)
               case None => AsIs(NothingFound(src, key, default))
               case Some(raw) => Delivered(src, key, raw, default, cast)
  {
    var key := NormalKey(name);
    Pick(TableLayer(db, SpecFor(src, key), key), DjangoLayer(src, key), EnvLayer(src, key));
  }

  /** `get_bool` on what `get_config` returned for a boolean key, or for a key without a type. */
  function ReadBool(answer: Answer): bool
    requires answer.Typed? ==> answer.value.Truth?
  {
    match answer
    case Typed(v) => v.b
    case AsIs(raw) => if raw.Flag? then raw.b else Lower(Strip(Shown(raw))) in TRUE_WORDS
  }

  /** Declaring a key boolean changes what `get_bool` makes of a found value exactly when the value is no
      boolean word and the default is true. */
  lemma BoolTypeMattersExactly(src: Sources, db: map<string, string>, name: string, default: bool)
    requires var key := NormalKey(name);
             key in src.registry && src.registry[key].valueType == "boolean" && FoundValue(src, db, key).Some?
    ensures var uncast := Resolve(src, db, name, Some(Flag(default)), false);
            var typed := Resolve(src, db, name, Some(Flag(default)), true);
            && uncast.AsIs? && (typed.Typed? ==> typed.value.Truth?)
            && (ReadBool(typed) == ReadBool(uncast) <==> Cast(uncast.raw, "boolean", src.isJson).Some? || !default)
  {
    var key := NormalKey(name);
    ChainInOrder(src, db, name, Some(Flag(default)), false);
    ChainInOrder(src, db, name, Some(Flag(default)), true);
    CastAsBoolean(FoundValue(src, db, key).value, src.isJson);
  }

  lemma CastAsBoolean(raw: Raw, isJson: string -> bool)
    requires !raw.Absent?
    ensures var word := Lower(Strip(Shown(raw)));
            Cast(raw, "boolean", isJson) == if raw.Flag? then Some(Truth(raw.b))
                                            else if word in TRUE_WORDS then Some(Truth(true))
                                            else if word in FALSE_WORDS then Some(Truth(false))
                                            else None
  {}

  lemma {:induction false} UpperIsIdempotent(s: string)
    ensures Upper(Upper(s)) == Upper(s)
  {
    forall k | 0 <= k < |s| ensures Upper(Upper(s))[k] == Upper(s)[k] {}
  }

  lemma NormalKeyIsNormal(name: string)
    ensures NormalKey(NormalKey(name)) == NormalKey(name)
  {
    StripShape(name);
    StripShape(NormalKey(name));
    UpperIsIdempotent(Strip(name));
  }

  /** `save` does not normalise keys, lookups do: a row is out of every lookup's reach exactly when its
      key is not in normal form. */
  lemma RowReachable(k: string)
    ensures (exists name :: NormalKey(name) == k) <==> NormalKey(k) == k
    ensures NormalKey(k) == k <==> Stripped(k) && forall c | c in k :: !('a' <= c <= 'z')
  {
    if name :| NormalKey(name) == k { NormalKeyIsNormal(name); }
    StripShape(k);
    if NormalKey(k) == k {
      StripUpper(k);
      StripShape(Upper(k));
      forall c | c in k ensures !('a' <= c <= 'z') {
        var i :| 0 <= i < |k| && k[i] == c;
        assert k[i] == UpperChar(Strip(k)[i]);
      }
    } else if Stripped(k) && forall c | c in k :: !('a' <= c <= 'z') {
      assert Strip(k) == k;
      assert forall i | 0 <= i < |k| :: k[i] in k && Upper(k)[i] == k[i];
    }
  }

  /** Padding and case of the name do not matter to a lookup. */
  lemma SpellingsShareSetting(src: Sources, db: map<string, string>, name: string, c: char, default: Option<Raw>,
                              cast: bool)
    ensures IsSpace(c) ==> Resolve(src, db, [c] + name, default, cast) == Resolve(src, db, name, default, cast)
                           == Resolve(src, db, name + [c], default, cast)
    ensures Resolve(src, db, Upper(name), default, cast) == Resolve(src, db, name, default, cast)
  {
    if IsSpace(c) { StripPadding(name, c); }
    StripUpper(name);
    UpperIsIdempotent(Strip(name));
  }

  lemma UnreachableRowIgnored(src: Sources, db: map<string, string>, k: string, value: string, name: string,
                              default: Option<Raw>, cast: bool)
    requires NormalKey(k) != k
    ensures Resolve(src, db[k := value], name, default, cast) == Resolve(src, db, name, default, cast)
  {
    NormalKeyIsNormal(name);
  }

  /** Two override maps answer every lookup of a key alike, cast or not and for every default. */
  ghost predicate SameLookups(src: Sources, db: map<string, string>, db': map<string, string>, name: string) {
    forall default, cast :: Resolve(src, db, name, default, cast) == Resolve(src, db', name, default, cast)
  }

  /** They do so exactly when they make the lookup find the same value. */
  lemma SameLookupsExactly(src: Sources, db: map<string, string>, db': map<string, string>, name: string)
    ensures SameLookups(src, db, db', name)
            <==> FoundValue(src, db, NormalKey(name)) == FoundValue(src, db', NormalKey(name))
  {
    var key := NormalKey(name);
    forall default, cast ensures FoundValue(src, db, key) == FoundValue(src, db', key) ==>
                                   Resolve(src, db, name, default, cast) == Resolve(src, db', name, default, cast)
    {
      ChainInOrder(src, db, name, default, cast);
      ChainInOrder(src, db', name, default, cast);
    }
    if FoundValue(src, db, key) != FoundValue(src, db', key) {
      var found := if FoundValue(src, db, key).Some? then FoundValue(src, db, key) else FoundValue(src, db', key);
      var other := if found == Some(Absent) then Flag(true) else Absent;
      ChainInOrder(src, db, name, Some(other), false);
      ChainInOrder(src, db', name, Some(other), false);
      assert Resolve(src, db, name, Some(other), false) != Resolve(src, db', name, Some(other), false);
    }
  }

  /** `sync_config` stores the environment's value as a row.  That leaves every lookup of the setting as it was
      exactly when there was nothing to store or no Django setting said something else. */
  lemma SeedingNeutralExactly(src: Sources, db: map<string, string>, key: string)
    requires NormalKey(key) == key && key !in db && key in src.environ
    requires !IsSecret(src, key)
    ensures SameLookups(src, db[key := src.environ[key]], db, key)
            <==> || Strip(src.environ[key]) == ""
                 || DjangoLayer(src, key).Silent?
                 || src.django[key] == Str(src.environ[key])
  {
    SameLookupsExactly(src, db[key := src.environ[key]], db, key);
  }

  /** The table has an override for the setting: it is no secret, and its row is active and not blank. */
  predicate Overrides(src: Sources, rows: Rows, name: string) {
    var key := NormalKey(name);
    !IsSecret(src, key) && key in rows && rows[key].active && Strip(rows[key].value) != ""
  }

  /** Lookups in `db` answer as the rows demand: with the value of the row itself where that is an override, and
      without the table everywhere else. */
  ghost predicate AnswersFrom(src: Sources, db: map<string, string>, rows: Rows, name: string) {
    var key := NormalKey(name);
    if Overrides(src, rows, name)
    then forall default, cast :: Resolve(src, db, name, default, cast)
                                 == Delivered(src, key, Str(rows[key].value), default, cast)
    else SameLookups(src, db, map[], name)
  }

  lemma ActiveAnswers(src: Sources, rows: Rows, name: string)
    ensures AnswersFrom(src, Active(rows), rows, name)
  {
    var key := NormalKey(name);
    if Overrides(src, rows, name) {
      forall default, cast ensures Resolve(src, Active(rows), name, default, cast)
                                   == Delivered(src, key, Str(rows[key].value), default, cast)
      {
        ChainInOrder(src, Active(rows), name, default, cast);
      }
    } else {
      SameLookupsExactly(src, Active(rows), map[], name);
    }
  }

  // ---- one process -----------------------------------------------------------------

  datatype Entry = Entry(values: map<string, string>, expiresAt: nat)

  /** What a process consults before it asks the table: the shared map and its own back-off clock. */
  datatype View = View(entry: Option<Entry>, until: nat)

  predicate Live(entry: Option<Entry>, now: nat) { entry.Some? && now < entry.value.expiresAt }

  /** `_db_values`; `table` is None when the query raises. */
  function Load(v: View, now: nat, table: Option<Rows>): (map<string, string>, View) {
    if now < v.until then (map[], v)
    else if Live(v.entry, now) then (v.entry.value.values, v)
    else if table.None? then (map[], v.(until := now + UNAVAILABLE_BACKOFF))
    else (Active(table.value), v.(entry := Some(Entry(Active(table.value), now + CACHE_TTL))))
  }

  /** One process; `cached` is the shared entry. */
  class Runtime {
    var cached: Option<Entry>
    var unavailableUntil: nat

    constructor ()
      ensures Current() == View(None, 0)
    {
      cached, unavailableUntil := None, 0;
    }

    function Current(): View
      reads this
    {
      View(cached, unavailableUntil)
    }

    method MarkUnavailable(now: nat)
      modifies this
      ensures Current() == old(Current()).(until := now + UNAVAILABLE_BACKOFF)
    {
      unavailableUntil := now + UNAVAILABLE_BACKOFF;
    }

    method InvalidateCache()
      modifies this
      ensures Current() == View(None, 0)
    {
      unavailableUntil := 0;
      cached := None;
    }

    method DbValues(now: nat, table: Option<Rows>) returns (values: map<string, string>)
      modifies this
      ensures (values, Current()) == Load(old(Current()), now, table)
    {
      if now < unavailableUntil { return map[]; }
      if cached.Some? && now < cached.value.expiresAt { return cached.value.values; }
      if table.None? {
        MarkUnavailable(now);
        return map[];
      }
      values := Active(table.value);
      cached := Some(Entry(values, now + CACHE_TTL));
    }

    /** `get_config`, layer by layer, refines the priority chain on the map that `_db_values` gives. */
    method GetConfig(src: Sources, name: string, default: Option<Raw>, cast: bool, now: nat, table: Option<Rows>)
      returns (answer: Answer)
      modifies this
      ensures answer == Resolve(src, Load(old(Current()), now, table).0, name, default, cast)
      ensures Current() == if NormalKey(name) in src.registry && src.registry[NormalKey(name)].envOnly
                           then old(Current()) else Load(old(Current()), now, table).1
    {
      var key := NormalKey(name);
      var spec := SpecFor(src, key);
      ghost var db := Load(Current(), now, table).0;
      Pick(TableLayer(db, spec, key), DjangoLayer(src, key), EnvLayer(src, key));
      var raw: Option<Raw> := None;
      if spec.None? || !spec.value.envOnly {
        var values := DbValues(now, table);
        if key in values && !Blank(Str(values[key])) { raw := Some(Str(values[key])); }
      }
      if raw.None? && key in src.django && !src.django[key].Absent? {
        if Blank(src.django[key]) { return AsIs(if default.Some? then default.value else src.django[key]); }
        raw := Some(src.django[key]);
      }
      if raw.None? && key in src.environ && !Blank(Str(src.environ[key])) { raw := Some(Str(src.environ[key])); }
      if raw.None? || Blank(raw.value) { return AsIs(Fallback(default, spec)); }
      if !cast || spec.None? { return AsIs(raw.value); }
      var typed := Cast(raw.value, spec.value.valueType, src.isJson);
      if typed.None? { return AsIs(Fallback(default, spec)); }
      answer := Typed(typed.value);
    }
  }

  // ---- all processes -----------------------------------------------------------------

  datatype Change = Activate | Deactivate | Reset

  datatype Step =
    | Wait(seconds: nat)
    | Outage
    | Recovery
    | Evict
    | Save(process: nat, key: string, row: Row)
    | Delete(process: nat, key: string)
    | Bulk(process: nat, keys: set<string>, change: Change)
    | Lookup(process: nat)

  datatype State = State(now: nat, up: bool, rows: Rows, entry: Option<Entry>, until: seq<nat>)

  function Changed(row: Row, change: Change): Row {
    match change
    case Activate => row.(active := true)
    case Deactivate => row.(active := false)
    case Reset => row.(value := "")
  }

  function Edited(rows: Rows, step: Step): Rows {
    match step
    case Save(_, key, row) => rows[key := row]
    case Delete(_, key) => rows - {key}
    case Bulk(_, keys, change) => map k | k in rows :: if k in keys then Changed(rows[k], change) else rows[k]
    case _ => rows
  }

  predicate Writes(step: Step) { step.Save? || step.Delete? || step.Bulk? }

  function Table(s: State): Option<Rows> { if s.up then Some(s.rows) else None }

  function ViewOf(s: State, p: nat): View
    requires p < |s.until|
  {
    View(s.entry, s.until[p])
  }

  /** The map that a lookup by process p works with. */
  function Seen(s: State, p: nat): map<string, string>
    requires p < |s.until|
  {
    Load(ViewOf(s, p), s.now, Table(s)).0
  }

  function Apply(s: State, step: Step): State {
    match step
    case Wait(d) => s.(now := s.now + d)
    case Outage => s.(up := false)
    case Recovery => s.(up := true)
    case Evict => s.(entry := None)
    case Lookup(p) =>
      if p < |s.until| then
        var v := Load(ViewOf(s, p), s.now, Table(s)).1;
        s.(entry := v.entry, until := s.until[p := v.until])
      else s
    case _ =>
      if s.up && step.process < |s.until|
      then s.(rows := Edited(s.rows, step), entry := None, until := s.until[step.process := 0])
      else s
  }

  function Run(s: State, steps: seq<Step>): State
    decreases |steps|
  {
    if steps == [] then s else Run(Apply(s, steps[0]), steps[1..])
  }

  function Start(processes: nat, rows: Rows): State {
    State(0, true, rows, None, seq(processes, _ => 0))
  }

  /** The cached map is never out of date, and no back-off reaches further than half a minute ahead. */
  predicate Valid(s: State) {
    && (s.entry.Some? ==> s.entry.value.values == Active(s.rows) && s.entry.value.expiresAt <= s.now + CACHE_TTL)
    && (forall p | 0 <= p < |s.until| :: s.until[p] <= s.now + UNAVAILABLE_BACKOFF)
  }

  lemma StepKeepsValid(s: State, step: Step)
    requires Valid(s)
    ensures Valid(Apply(s, step)) && |Apply(s, step).until| == |s.until|
  {}

  lemma {:induction false} RunKeepsValid(s: State, steps: seq<Step>)
    requires Valid(s)
    ensures Valid(Run(s, steps)) && |Run(s, steps).until| == |s.until|
    decreases |steps|
  {
    if steps != [] {
      StepKeepsValid(s, steps[0]);
      RunKeepsValid(Apply(s, steps[0]), steps[1..]);
    }
  }

  /** A process is cut off from the table: backing off, or about to start. */
  predicate CutOff(s: State, p: nat)
    requires p < |s.until|
  {
    s.now < s.until[p] || (!s.up && !Live(s.entry, s.now))
  }

  /** After any run, a lookup by any process answers as the plain chain does on the rows as they are,
      or on an empty table while the process is cut off from it. */
  lemma CachedRefinesPlain(processes: nat, rows: Rows, steps: seq<Step>, p: nat, src: Sources, name: string,
                           default: Option<Raw>, cast: bool)
    requires p < processes
    ensures var s := Run(Start(processes, rows), steps);
            && |s.until| == processes
            && Resolve(src, Seen(s, p), name, default, cast)
               == Resolve(src, if CutOff(s, p) then map[] else Active(s.rows), name, default, cast)
  {
    RunKeepsValid(Start(processes, rows), steps);
  }

  /** After any run, a lookup by a process that is not cut off gives the value of the setting's own row, if that
      is active and not blank; every other lookup is one without the table. */
  lemma LookupsReadTheRows(processes: nat, rows: Rows, steps: seq<Step>, p: nat, src: Sources, name: string)
    requires p < processes
    ensures var s := Run(Start(processes, rows), steps);
            && |s.until| == processes
            && if CutOff(s, p) then SameLookups(src, Seen(s, p), map[], name)
               else AnswersFrom(src, Seen(s, p), s.rows, name)
  {
    var s := Run(Start(processes, rows), steps);
    RunKeepsValid(Start(processes, rows), steps);
    ActiveAnswers(src, s.rows, name);
    assert Seen(s, p) == if CutOff(s, p) then map[] else Active(s.rows);
  }

  /** What the five edits leave in the table: a saved row is stored as given, a deleted one is gone, a bulk action
      touches one field of the selected rows, and every other row stays as it was.  The process that made the
      edit reads the new rows at once. */
  lemma EditTakesEffect(s: State, step: Step, key: string, src: Sources, name: string)
    requires Valid(s) && s.up && Writes(step) && step.process < |s.until|
    ensures var s' := Apply(s, step);
            var before := if key in s.rows then Some(s.rows[key]) else None;
            && |s'.until| == |s.until| && AnswersFrom(src, Seen(s', step.process), s'.rows, name)
            && (if key in s'.rows then Some(s'.rows[key]) else None)
               == if step.Save? && key == step.key then Some(step.row)
                  else if step.Delete? && key == step.key then None
                  else if before.Some? && step.Bulk? && key in step.keys
                  then Some(match step.change
                            case Activate => Row(before.value.value, true)
                            case Deactivate => Row(before.value.value, false)
                            case Reset => Row("", before.value.active))
                  else before
  {
    ActiveAnswers(src, Apply(s, step).rows, name);
  }

  /** Blanked rows let every lookup of their settings through to the Django settings and the environment. */
  lemma ResetFallsThrough(src: Sources, rows: Rows, p: nat, keys: set<string>, name: string)
    requires NormalKey(name) in keys
    ensures SameLookups(src, Active(Edited(rows, Bulk(p, keys, Reset))), map[], name)
  {
    var rows' := Edited(rows, Bulk(p, keys, Reset));
    assert Strip("") == "";
    assert !Overrides(src, rows', name);
    ActiveAnswers(src, rows', name);
  }

  /** Between lookups, an edit is live at once exactly for the processes that are not backing off, the process
      that made it among them, or when it leaves no override at all. */
  lemma EditIsLiveWithoutOverlap(s: State, step: Step, q: nat)
    requires Valid(s) && s.up && Writes(step) && step.process < |s.until| && q < |s.until|
    ensures var s' := Apply(s, step);
            Seen(s', q) == Active(s'.rows)
            <==> q == step.process || s.until[q] <= s.now || Active(Edited(s.rows, step)) == map[]
  {
    StepKeepsValid(s, step);
  }

  // ---- back-off ends ---------------------------------------------------------------------

  predicate NoOutage(steps: seq<Step>) {
    forall k | 0 <= k < |steps| :: !steps[k].Outage?
  }

  predicate NoneBeyond(s: State, bound: nat) {
    s.up && forall p | 0 <= p < |s.until| :: s.until[p] <= bound
  }

  lemma {:induction false} BackoffNotRenewed(s: State, steps: seq<Step>, bound: nat)
    requires NoneBeyond(s, bound) && NoOutage(steps)
    ensures NoneBeyond(Run(s, steps), bound)
    decreases |steps|
  {
    if steps != [] {
      assert !steps[0].Outage?;
      assert NoOutage(steps[1..]) by {
        forall k | 0 <= k < |steps[1..]| ensures !steps[1..][k].Outage? { assert steps[1..][k] == steps[k + 1]; }
      }
      BackoffNotRenewed(Apply(s, steps[0]), steps[1..], bound);
    }
  }

  /** Half a minute after the table is back for good, every process works with the rows again, as long as
      lookups and edits do not overlap. */
  lemma RecoversWithoutOverlap(s: State, steps: seq<Step>, p: nat)
    requires Valid(s) && s.up && NoOutage(steps) && p < |s.until|
    requires Run(s, steps).now >= s.now + UNAVAILABLE_BACKOFF
    ensures var s' := Run(s, steps);
            |s'.until| == |s.until| && !CutOff(s', p) && Seen(s', p) == Active(s'.rows)
  {
    BackoffNotRenewed(s, steps, s.now + UNAVAILABLE_BACKOFF);
    RunKeepsValid(s, steps);
  }

  /** A loaded map bridges an outage of the table for exactly the cache's lifetime. */
  lemma OutageBridgedExactly(s: State, p: nat, seconds: nat)
    requires Valid(s) && s.up && s.entry.None? && p < |s.until| && s.until[p] <= s.now
    ensures var s' := Apply(Apply(Apply(s, Lookup(p)), Outage), Wait(seconds));
            Seen(s', p) == Active(s.rows) <==> seconds < CACHE_TTL || Active(s.rows) == map[]
  {
    var s1 := Apply(s, Lookup(p));
    assert s1.until == s.until;
  }

  /** A failed lookup cuts its process off for exactly the back-off, even if the table returns at once. */
  lemma BackoffLastsExactly(s: State, p: nat, seconds: nat)
    requires Valid(s) && !s.up && !Live(s.entry, s.now) && p < |s.until| && s.until[p] <= s.now
    ensures var s' := Apply(Apply(Apply(s, Lookup(p)), Recovery), Wait(seconds));
            Seen(s', p) == Active(s.rows) <==> seconds >= UNAVAILABLE_BACKOFF || Active(s.rows) == map[]
  {
    var s1 := Apply(s, Lookup(p));
    assert s1.until[p] == s.now + UNAVAILABLE_BACKOFF;
  }

  /** A row's override survives a bulk deactivation exactly when the row was not selected, and comes
      back unchanged when the selection is activated again, together with every other selected row. */
  lemma DeactivateThenActivate(s: State, p: nat, keys: set<string>)
    requires s.up && p < |s.until|
    ensures var s1 := Apply(s, Bulk(p, keys, Deactivate));
            var s2 := Apply(s1, Bulk(p, keys, Activate));
            && Active(s1.rows) == (map k | k in Active(s.rows) && k !in keys :: Active(s.rows)[k])
            && s2.rows == Apply(s, Bulk(p, keys, Activate)).rows
            && (s2.rows == s.rows <==> forall k | k in s.rows && k in keys :: s.rows[k].active)
  {
    var s2 := Apply(Apply(s, Bulk(p, keys, Deactivate)), Bulk(p, keys, Activate));
    forall k | k in s.rows
      ensures k in s2.rows && s2.rows[k] == if k in keys then s.rows[k].(active := true) else s.rows[k]
    {}
  }
}
