/**
  `Setting.cast` of config/models.py: how the text of a setting, or an already typed value from the
  settings module, becomes a value of the type the registry asks for.  Text is ASCII; `json.loads` is
  the parameter `isJson`, which says which texts it accepts.
*/
module SettingCast {
  import opened Options
  import opened Text

  /** What `cast` is given.  `shown` is Python's `str` of the value. */
  datatype Raw =
    | Absent
    | Str(text: string)
    | Number(n: int)
    | Flag(b: bool)
    | Items(items: seq<string>, isList: bool, shown: string)   // a list or tuple, by the `str` of its elements
    | Table(shown: string)
    | Other(shown: string)

  datatype Value =
    | Integer(n: int)
    | Truth(b: bool)
    | Given(raw: Raw)
    | Parsed(json: string)
    | Parts(parts: seq<string>)
    | Plain(text: string)

  /** `str(n)` of an integer */
  function IntText(n: int): string { if n < 0 then "-" + Dec(-n) else Dec(n) }

  function BoolText(b: bool): string { if b then "True" else "False" }

  /** `str(raw)` */
  function Shown(raw: Raw): string {
    match raw
    case Absent => "None"
    case Str(t) => t
    case Number(n) => IntText(n)
    case Flag(b) => BoolText(b)
    case Items(_, _, shown) => shown
    case Table(shown) => shown
    case Other(shown) => shown
  }

  // ---- int(text) ------------------------------------------------------------------

  /** Digits, single underscores allowed between two of them. */
  predicate Grouped(t: string) {
    && t != ""
    && forall k | 0 <= k < |t| ::
         IsDigit(t[k]) || (t[k] == '_' && 0 < k < |t| - 1 && IsDigit(t[k - 1]) && IsDigit(t[k + 1]))
  }

  function DigitsOf(t: string): (r: string)
    ensures AllDigits(r)
    ensures AllDigits(t) ==> r == t
  {
    if t == "" then "" else (if IsDigit(t[0]) then [t[0]] else "") + DigitsOf(t[1..])
  }

  function ParseNat(t: string): Option<int> {
    if Grouped(t) then Some(DecValue(DigitsOf(t))) else None
  }

  /** Whether the text has a minus sign, and what follows its sign. */
  function SignOf(t: string): (bool, string) {
    if t != "" && (t[0] == '-' || t[0] == '+') then (t[0] == '-', t[1..]) else (false, t)
  }

  /** `int(text)` on stripped text */
  function ParseInt(t: string): Option<int> {
    match ParseNat(SignOf(t).1)
    case None => None
    case Some(n) => Some(if SignOf(t).0 then -n else n)
  }

  lemma ParseNatInvertsPrint(n: nat)
    ensures ParseNat(Dec(n)) == Some(n) && IsDigit(Dec(n)[0]) && Stripped(Dec(n))
  {
    DecRoundTrip(n);
    var d := Dec(n);
    assert Grouped(d) && DigitsOf(d) == d;
  }

  lemma SignOfDigits(d: string)
    requires d != "" && IsDigit(d[0]) && Stripped(d)
    ensures SignOf(d) == (false, d) && SignOf("-" + d) == (true, d) && Stripped("-" + d)
  {
    var minus := "-" + d;
    assert minus[1..] == d && minus[0] == '-' && minus[|minus| - 1] == d[|d| - 1];
  }

  lemma ParseIntInvertsPrint(n: int)
    ensures ParseInt(IntText(n)) == Some(n) && Stripped(IntText(n))
  {
    var m: nat := if n < 0 then -n else n;
    ParseNatInvertsPrint(m);
    SignOfDigits(Dec(m));
  }

  lemma GroupedPair(x: string, y: string)
    requires x != "" && y != "" && AllDigits(x) && AllDigits(y)
    ensures Grouped(x + "_" + y)
  {
    var t := x + "_" + y;
    forall k | 0 <= k < |t|
      ensures IsDigit(t[k]) || (t[k] == '_' && 0 < k < |t| - 1 && IsDigit(t[k - 1]) && IsDigit(t[k + 1]))
    {
      if k == |x| { assert t[k - 1] == x[k - 1] && t[k + 1] == y[0]; }
    }
  }

  lemma {:induction false} DigitsOfPair(x: string, y: string)
    requires AllDigits(x) && AllDigits(y)
    ensures DigitsOf(x + "_" + y) == x + y
  {
    var t := x + "_" + y;
    if x == "" {
      assert t[1..] == y && t[0] == '_';
    } else {
      assert t[1..] == x[1..] + "_" + y && t[0] == x[0];
      DigitsOfPair(x[1..], y);
    }
  }

  lemma ParseDigits(t: string)
    requires t != "" && AllDigits(t)
    ensures ParseInt(t) == Some(DecValue(t)) && ParseInt("+" + t) == Some(DecValue(t))
  {
    assert Grouped(t) && DigitsOf(t) == t && SignOf(t) == (false, t);
    assert ("+" + t)[1..] == t;
    assert SignOf("+" + t) == (false, t);
  }

  lemma ParsePair(x: string, y: string)
    requires x != "" && y != "" && AllDigits(x) && AllDigits(y)
    ensures ParseInt(x + "_" + y) == ParseNat(x + "_" + y) == Some(DecValue(x + y))
  {
    var t := x + "_" + y;
    GroupedPair(x, y);
    DigitsOfPair(x, y);
    assert IsDigit(t[0]);
    assert SignOf(t) == (false, t);
  }

  /** `int` takes a plus sign, and an underscore between two digits, for nothing. */
  lemma IntegerSpellings(x: string, y: string)
    requires x != "" && y != "" && AllDigits(x) && AllDigits(y)
    ensures ParseInt("+" + x) == Some(DecValue(x)) && ParseInt(x + "_" + y) == ParseInt(x + y) == Some(DecValue(x + y))
  {
    ParseDigits(x);
    ParseDigits(x + y);
    ParsePair(x, y);
  }

  // ---- text.split(",") ---------------------------------------------------------------

  predicate CommaFree(s: string) { ',' !in s }

  function Split(t: string): (r: seq<string>)
    ensures r != [] && forall k | 0 <= k < |r| :: CommaFree(r[k])
  {
    if t == "" then [""]
    else
      var rest := Split(t[1..]);
      if t[0] == ',' then [""] + rest else [[t[0]] + rest[0]] + rest[1..]
  }

  /** `",".join(items)` */
  function Join(items: seq<string>): string {
    if items == [] then "" else if |items| == 1 then items[0] else items[0] + "," + Join(items[1..])
  }

  /** `[item.strip() for item in items if item.strip()]` */
  function Clean(items: seq<string>): seq<string> {
    if items == [] then [] else Kept(items[0]) + Clean(items[1..])
  }

  function Kept(item: string): seq<string> { if Strip(item) != "" then [Strip(item)] else [] }

  function Csv(t: string): seq<string> { Clean(Split(t)) }

  // ---- cast ---------------------------------------------------------------------------

  const TRUE_WORDS: set<string> := {"1", "true", "yes", "on"}
  const FALSE_WORDS: set<string> := {"0", "false", "no", "off", ""}

  function CastText(text: string, valueType: string, isJson: string -> bool): Option<Value> {
    if valueType == "integer" then
      var n := ParseInt(text);
      if n.None? then None else Some(Integer(n.value))
    else if valueType == "boolean" then
      if Lower(text) in TRUE_WORDS then Some(Truth(true))
      else if Lower(text) in FALSE_WORDS then Some(Truth(false))
      else None
    else if valueType == "json" then if isJson(text) then Some(Parsed(text)) else None
    else if valueType == "csv" then Some(Parts(Csv(text)))
    else Some(Plain(text))
  }

  /** `None` stands for the exceptions `cast` raises. */
  function Cast(raw: Raw, valueType: string, isJson: string -> bool): Option<Value> {
    if valueType == "integer" && raw.Number? then Some(Integer(raw.n))
    else if valueType == "boolean" && raw.Flag? then Some(Truth(raw.b))
    else if valueType == "json" && (raw.Table? || (raw.Items? && raw.isList)) then Some(Given(raw))
    else if valueType == "csv" && raw.Items? then Some(Parts(Clean(raw.items)))
    else CastText(if raw.Absent? then "" else Strip(Shown(raw)), valueType, isJson)
  }

  /** The nine words of a boolean, in any case and padding; every other text is refused. */
  lemma BooleanWords(t: string, isJson: string -> bool)
    ensures var word := Lower(Strip(t));
            && (Cast(Str(t), "boolean", isJson) == Some(Truth(true))
                <==> word == "1" || word == "true" || word == "yes" || word == "on")
            && (Cast(Str(t), "boolean", isJson) == Some(Truth(false))
                <==> word == "0" || word == "false" || word == "no" || word == "off" || word == "")
            && (Cast(Str(t), "boolean", isJson).Some? ==> Cast(Str(t), "boolean", isJson).value.Truth?)
  {
    assert "boolean"[0] != "integer"[0];
  }

  lemma FlagIsNoInteger(b: bool, isJson: string -> bool)
    ensures Cast(Flag(b), "integer", isJson) == None
  {
    var word := BoolText(b);
    StripShape(word);
    assert Strip(word) == word && !IsDigit(word[0]) && word[0] != '-' && word[0] != '+';
    assert SignOf(word) == (false, word);
    assert !Grouped(word);
  }

  /** A number or boolean of the type asked for comes back as it is; a boolean is no integer. */
  lemma TypedValuesPass(n: int, b: bool, isJson: string -> bool)
    ensures Cast(Number(n), "integer", isJson) == Some(Integer(n))
    ensures Cast(Flag(b), "boolean", isJson) == Some(Truth(b)) && Cast(Flag(b), "integer", isJson) == None
  {
    assert "boolean"[0] != "integer"[0];
    FlagIsNoInteger(b, isJson);
  }

  /** A list or table passes as JSON; a tuple does so, and a table as a list, by its text only. */
  lemma TypedListsPass(items: seq<string>, shown: string, isJson: string -> bool)
    ensures Cast(Items(items, true, shown), "json", isJson) == Some(Given(Items(items, true, shown)))
    ensures Cast(Items(items, false, shown), "json", isJson) == Cast(Str(shown), "json", isJson)
    ensures Cast(Table(shown), "json", isJson) == Some(Given(Table(shown)))
    ensures Cast(Table(shown), "csv", isJson) == Cast(Str(shown), "csv", isJson)
  {
    assert "json"[0] != "integer"[0] && "json"[0] != "boolean"[0] && "json"[0] != "csv"[0];
    assert "csv"[0] != "integer"[0] && "csv"[0] != "boolean"[0];
  }

  // ---- padding -------------------------------------------------------------------------

  /** A character of padding on either side of a text changes no cast. */
  lemma PaddingIgnored(t: string, c: char, valueType: string, isJson: string -> bool)
    requires IsSpace(c)
    ensures Cast(Str([c] + t), valueType, isJson) == Cast(Str(t), valueType, isJson)
    ensures Cast(Str(t + [c]), valueType, isJson) == Cast(Str(t), valueType, isJson)
  {
    StripPadding(t, c);
  }

  /** Letter case does not matter to a boolean. */
  lemma BooleanIgnoresCase(t: string, isJson: string -> bool)
    ensures Cast(Str(Upper(t)), "boolean", isJson) == Cast(Str(t), "boolean", isJson)
  {
    StripUpper(t);
    LowerOfUpper(Strip(t));
  }

  // ---- csv ------------------------------------------------------------------------------

  lemma {:induction false} CleanConcat(a: seq<string>, b: seq<string>)
    ensures Clean(a + b) == Clean(a) + Clean(b)
  {
    if a == [] { assert a + b == b; }
    else {
      CleanConcat(a[1..], b);
      CleanCons(a[0], a[1..] + b);
      Regroup(a[..1], a[1..], b);
      assert a[..1] == [a[0]] && a[..1] + a[1..] == a;
      Regroup(Kept(a[0]), Clean(a[1..]), Clean(b));
    }
  }

  lemma Regroup<T>(x: seq<T>, y: seq<T>, z: seq<T>)
    ensures x + (y + z) == (x + y) + z
  {}

  lemma CleanCons(x: string, xs: seq<string>)
    ensures Clean([x] + xs) == Kept(x) + Clean(xs)
  {
    assert ([x] + xs)[1..] == xs;
  }

  /** Every part is stripped, not empty, and an item's own text. */
  lemma {:induction false} CleanShape(items: seq<string>, k: nat)
    requires k < |Clean(items)|
    ensures Clean(items)[k] != "" && Stripped(Clean(items)[k])
    ensures (forall i | 0 <= i < |items| :: CommaFree(items[i])) ==> CommaFree(Clean(items)[k])
  {
    StripShape(items[0]);
    var head := Kept(items[0]);
    if k >= |head| { CleanShape(items[1..], k - |head|); }
  }

  lemma {:induction false} CleanOfClean(items: seq<string>)
    requires forall k | 0 <= k < |items| :: items[k] != "" && Stripped(items[k])
    ensures Clean(items) == items
  {
    if items != [] {
      StripShape(items[0]);
      CleanOfClean(items[1..]);
      assert items == [items[0]] + items[1..];
    }
  }

  lemma {:induction false} CleanKeepsCommas(items: seq<string>, i: nat)
    requires i < |items| && !CommaFree(items[i])
    ensures exists k | 0 <= k < |Clean(items)| :: !CommaFree(Clean(items)[k])
  {
    var head := Kept(items[0]);
    if i == 0 {
      StripKeepsCommas(items[0]);
      assert !CommaFree(Clean(items)[0]);
    } else {
      CleanKeepsCommas(items[1..], i - 1);
      var k :| 0 <= k < |Clean(items[1..])| && !CommaFree(Clean(items[1..])[k]);
      assert Clean(items)[|head| + k] == Clean(items[1..])[k];
    }
  }

  lemma {:induction false} StripKeepsCommas(t: string)
    requires ',' in t
    ensures ',' in Strip(t)
    decreases |t|
  {
    if IsSpace(t[0]) {
      StripKeepsCommas(t[1..]);
    } else if IsSpace(t[|t| - 1]) {
      var s, c := t[..|t| - 1], t[|t| - 1];
      assert t == s + [c];
      StripKeepsCommas(s);
      StripPadding(s, c);
    }
  }

  lemma {:induction false} SplitAppend(t: string, c: char)
    requires c != ','
    ensures var r := Split(t); Split(t + [c]) == r[..|r| - 1] + [r[|r| - 1] + [c]]
  {
    var all := t + [c];
    if t == "" {
      assert all[1..] == "" && all[0] == c;
      assert Split(all) == [[c] + ""] && Split(t) == [""];
      assert [c] + "" == "" + [c];
    } else {
      SplitAppend(t[1..], c);
      assert all[1..] == t[1..] + [c] && all[0] == t[0];
      var rest := Split(t[1..]);
      if t[0] != ',' && |rest| == 1 {
        assert [t[0]] + (rest[0] + [c]) == ([t[0]] + rest[0]) + [c];
      }
    }
  }

  lemma CsvPadding(t: string, c: char)
    requires IsSpace(c)
    ensures Csv([c] + t) == Csv(t) == Csv(t + [c])
  {
    var r := Split(t);
    assert ([c] + t)[1..] == t;
    StripPadding(r[0], c);
    assert Split([c] + t) == [[c] + r[0]] + r[1..];
    var n := |r| - 1;
    SplitAppend(t, c);
    StripPadding(r[n], c);
    assert r == r[..n] + [r[n]];
    CleanConcat(r[..n], [r[n]]);
    CleanConcat(r[..n], [r[n] + [c]]);
  }

  lemma {:induction false} CsvOfStrip(t: string)
    ensures Csv(Strip(t)) == Csv(t)
    decreases |t|
  {
    if t != "" && IsSpace(t[0]) {
      assert t == [t[0]] + t[1..];
      CsvPadding(t[1..], t[0]);
      CsvOfStrip(t[1..]);
    } else if t != "" && IsSpace(t[|t| - 1]) {
      var s, c := t[..|t| - 1], t[|t| - 1];
      assert t == s + [c];
      CsvPadding(s, c);
      StripPadding(s, c);
      CsvOfStrip(s);
    }
  }

  lemma {:induction false} SplitFirst(x: string, t: string)
    requires CommaFree(x)
    ensures Split(x + "," + t) == [x] + Split(t) && Split(x) == [x]
  {
    var all := x + "," + t;
    if x == "" {
      assert all[1..] == t && all[0] == ',';
    } else {
      SplitFirst(x[1..], t);
      assert all[1..] == x[1..] + "," + t && all[0] == x[0];
      assert [x[0]] + x[1..] == x;
    }
  }

  lemma {:induction false} SplitJoin(items: seq<string>)
    requires items != [] && forall k | 0 <= k < |items| :: CommaFree(items[k])
    ensures Split(Join(items)) == items
  {
    if |items| == 1 { SplitFirst(items[0], ""); }
    else {
      SplitFirst(items[0], Join(items[1..]));
      SplitJoin(items[1..]);
    }
  }

  lemma CastCsv(items: seq<string>, isList: bool, shown: string, t: string, isJson: string -> bool)
    ensures Cast(Items(items, isList, shown), "csv", isJson) == Some(Parts(Clean(items)))
    ensures Cast(Str(t), "csv", isJson) == Some(Parts(Csv(t)))
  {
    CsvOfStrip(t);
    assert "csv"[0] != "integer"[0] && "csv"[0] != "boolean"[0] && "csv"[0] != "json"[0];
  }

  /** A list and its comma-joined text mean the same setting exactly when no item holds a comma. */
  lemma TextAndListAgree(items: seq<string>, isList: bool, shown: string, isJson: string -> bool)
    ensures Cast(Str(Join(items)), "csv", isJson) == Cast(Items(items, isList, shown), "csv", isJson)
            <==> forall k | 0 <= k < |items| :: CommaFree(items[k])
  {
    CastCsv(items, isList, shown, Join(items), isJson);
    if forall k | 0 <= k < |items| :: CommaFree(items[k]) {
      if items != [] { SplitJoin(items); }
    } else {
      var i :| 0 <= i < |items| && !CommaFree(items[i]);
      CleanKeepsCommas(items, i);
      var k :| 0 <= k < |Clean(items)| && !CommaFree(Clean(items)[k]);
      if k < |Csv(Join(items))| { CleanShape(Split(Join(items)), k); }
    }
  }

  // ---- normal form ---------------------------------------------------------------------

  /** The text that a value is stored as. */
  function Stored(v: Value): string
    requires !v.Given? && !v.Parsed?
  {
    match v
    case Integer(n) => IntText(n)
    case Truth(b) => BoolText(b)
    case Parts(parts) => Join(parts)
    case Plain(t) => t
  }

  lemma CsvNormalForm(raw: Raw, isJson: string -> bool)
    requires Cast(raw, "csv", isJson).Some?
    ensures var parts := Cast(raw, "csv", isJson).value.parts;
            Csv(Strip(Join(parts))) == parts <==> forall k | 0 <= k < |parts| :: CommaFree(parts[k])
  {
    var parts := Cast(raw, "csv", isJson).value.parts;
    forall k | 0 <= k < |parts| ensures parts[k] != "" && Stripped(parts[k]) {
      if raw.Items? { CleanShape(raw.items, k); }
      else { CleanShape(Split(if raw.Absent? then "" else Strip(Shown(raw))), k); }
    }
    CleanOfClean(parts);
    TextAndListAgree(parts, true, "", isJson);
  }

  lemma IntegerNormalForm(n: int, isJson: string -> bool)
    ensures Cast(Str(IntText(n)), "integer", isJson) == Some(Integer(n))
  {
    ParseIntInvertsPrint(n);
    CastStripped(IntText(n), "integer", isJson);
  }

  lemma CastStripped(t: string, valueType: string, isJson: string -> bool)
    requires Stripped(t)
    ensures Cast(Str(t), valueType, isJson) == CastText(t, valueType, isJson)
  {
    StripShape(t);
  }

  lemma TruthNormalForm(b: bool, isJson: string -> bool)
    ensures Cast(Str(BoolText(b)), "boolean", isJson) == Some(Truth(b))
  {
    StripShape(BoolText(b));
    assert Lower(BoolText(b)) == if b then "true" else "false";
    assert "boolean"[0] != "integer"[0];
  }

  lemma TextNormalForm(raw: Raw, valueType: string, isJson: string -> bool)
    requires Cast(raw, valueType, isJson).Some? && Cast(raw, valueType, isJson).value.Plain?
    ensures Cast(Str(Cast(raw, valueType, isJson).value.text), valueType, isJson) == Cast(raw, valueType, isJson)
  {
    var t := Cast(raw, valueType, isJson).value.text;
    if !raw.Absent? { StripShape(Shown(raw)); }
    StripShape(t);
  }

  /** Which kind of value each type gives. */
  lemma CastKind(raw: Raw, valueType: string, isJson: string -> bool)
    requires valueType != "json" && Cast(raw, valueType, isJson).Some?
    ensures var v := Cast(raw, valueType, isJson).value;
            && (v.Integer? <==> valueType == "integer") && (v.Truth? <==> valueType == "boolean")
            && (v.Parts? <==> valueType == "csv") && !v.Given? && !v.Parsed?
  {}

  /** Casting is a normal form: a cast value, stored as text and cast again, is that value; the only
      exception is a list with a comma inside an item. */
  lemma CastNormalForm(raw: Raw, valueType: string, isJson: string -> bool)
    requires valueType != "json" && Cast(raw, valueType, isJson).Some?
    ensures var v := Cast(raw, valueType, isJson).value;
            && !v.Given? && !v.Parsed?
            && (Cast(Str(Stored(v)), valueType, isJson) == Some(v)
                <==> (v.Parts? ==> forall k | 0 <= k < |v.parts| :: CommaFree(v.parts[k])))
  {
    CastKind(raw, valueType, isJson);
    var v := Cast(raw, valueType, isJson).value;
    match v
    case Integer(n) => IntegerNormalForm(n, isJson);
    case Truth(b) => TruthNormalForm(b, isJson);
    case Parts(parts) =>
      CsvNormalForm(raw, isJson);
      CastCsv([], true, "", Join(parts), isJson);
      CsvOfStrip(Join(parts));
    case Plain(t) => TextNormalForm(raw, valueType, isJson);
  }

  /** Stored settings are text, and for text casting is a normal form without exception. */
  lemma TextCastNormalForm(raw: Raw, valueType: string, isJson: string -> bool)
    requires valueType != "json" && !raw.Items? && Cast(raw, valueType, isJson).Some?
    ensures var v := Cast(raw, valueType, isJson).value;
            !v.Given? && !v.Parsed? && Cast(Str(Stored(v)), valueType, isJson) == Some(v)
  {
    CastNormalForm(raw, valueType, isJson);
    CastKind(raw, valueType, isJson);
    if valueType == "csv" {
      forall k | 0 <= k < |Cast(raw, "csv", isJson).value.parts|
        ensures CommaFree(Cast(raw, "csv", isJson).value.parts[k])
      {
        TextPartsCommaFree(raw, isJson, k);
      }
    }
  }

  /** Text never yields an item with a comma. */
  lemma TextPartsCommaFree(raw: Raw, isJson: string -> bool, k: nat)
    requires !raw.Items? && k < |Cast(raw, "csv", isJson).value.parts|
    ensures CommaFree(Cast(raw, "csv", isJson).value.parts[k])
  {
    CleanShape(Split(if raw.Absent? then "" else Strip(Shown(raw))), k);
  }
}
