/**
  `scrub_text` of utils/logging.py: three substitutions of fixed patterns by "[redacted]".
  The patterns are given twice: as languages with word boundaries, and as the deterministic
  scan a leftmost, greedy matcher performs.  `\w` and `\d` are ASCII.
*/
module LogScrub {
  import opened Options
  import opened Text

  const REDACTED: string := "[redacted]"

  datatype Pattern = Email | Phone | LongDigits

  datatype Class = Local | Domain | Tail | Digits

  predicate IsWord(c: char) { 'a' <= c <= 'z' || 'A' <= c <= 'Z' || IsDigit(c) || c == '_' }

  predicate In(cl: Class, c: char) {
    match cl
    case Local => IsWord(c) || c == '.' || c == '+' || c == '-'
    case Domain => IsWord(c) || c == '-'
    case Tail => IsWord(c) || c == '.' || c == '-'
    case Digits => IsDigit(c)
  }

  predicate AllIn(cl: Class, w: string) {
    forall k | 0 <= k < |w| :: In(cl, w[k])
  }

  // ---- the patterns as languages ---------------------------------------------

  /** [\w.+-]+@[\w-]+\.[\w.-]+ */
  predicate EmailSplit(w: string, a: nat, b: nat) {
    && 0 < a && a + 1 < b && b + 1 < |w| && w[a] == '@' && w[b] == '.'
    && AllIn(Local, w[..a]) && AllIn(Domain, w[a + 1..b]) && AllIn(Tail, w[b + 1..])
  }

  predicate IsEmail(w: string) {
    exists a, b | 0 <= a < b < |w| :: EmailSplit(w, a, b)
  }

  /** (?:\+?234|0)[789]\d{9} */
  predicate PhoneAfter(w: string, prefix: string) {
    && |w| == |prefix| + 10 && prefix <= w && w[|prefix|] in "789" && AllIn(Digits, w[|prefix|..])
  }

  predicate IsPhone(w: string) {
    PhoneAfter(w, "+234") || PhoneAfter(w, "234") || PhoneAfter(w, "0")
  }

  /** \d{10,19} */
  predicate IsLongDigits(w: string) {
    10 <= |w| <= 19 && AllIn(Digits, w)
  }

  predicate Language(p: Pattern, w: string) {
    match p
    case Email => IsEmail(w)
    case Phone => IsPhone(w)
    case LongDigits => IsLongDigits(w)
  }

  /** `\b` at position i */
  predicate Boundary(t: string, i: nat) {
    i <= |t| && ((i > 0 && IsWord(t[i - 1])) != (i < |t| && IsWord(t[i])))
  }

  /** The pattern matches t[i..j] in its context. */
  predicate Hit(p: Pattern, t: string, i: nat, j: nat) {
    i <= j <= |t| && Language(p, t[i..j]) && (p != Email ==> Boundary(t, i) && Boundary(t, j))
  }

  predicate Clean(p: Pattern, t: string) {
    forall i, j | 0 <= i <= j <= |t| :: !Hit(p, t, i, j)
  }

  const SMALL: string := "abcdefghijklmnopqrstuvwxyz"
  const CAPITAL: string := "ABCDEFGHIJKLMNOPQRSTUVWXYZ"
  const DIGITS: string := "0123456789"

  /** The character classes spelled out: \w is letters, digits and underscore, and the three parts of an email
      add `.+-`, `-` and `.-`. */
  lemma ClassesSpelledOut(c: char)
    ensures In(Digits, c) <==> c in DIGITS
    ensures IsWord(c) <==> c in SMALL || c in CAPITAL || c in DIGITS || c == '_'
    ensures In(Local, c) <==> IsWord(c) || c in ".+-"
    ensures In(Domain, c) <==> IsWord(c) || c in "-"
    ensures In(Tail, c) <==> IsWord(c) || c in ".-"
  {
    SmallSpelledOut(c);
    CapitalSpelledOut(c);
    DigitsSpelledOut(c);
  }

  lemma SmallSpelledOut(c: char)
    ensures 'a' <= c <= 'z' <==> c in SMALL
  {
    if 'a' <= c <= 'z' { assert SMALL[(c - 'a') as int] == c; }
  }

  lemma CapitalSpelledOut(c: char)
    ensures 'A' <= c <= 'Z' <==> c in CAPITAL
  {
    if 'A' <= c <= 'Z' { assert CAPITAL[(c - 'A') as int] == c; }
  }

  lemma DigitsSpelledOut(c: char)
    ensures IsDigit(c) <==> c in DIGITS
  {
    if IsDigit(c) { assert DIGITS[(c - '0') as int] == c; }
  }

  // ---- the matcher -----------------------------------------------------------

  function RunEnd(cl: Class, t: string, i: nat): (e: nat)
    requires i <= |t|
    ensures i <= e <= |t| && AllIn(cl, t[i..e]) && (e < |t| ==> !In(cl, t[e]))
    decreases |t| - i
  {
    if i < |t| && In(cl, t[i]) then RunEnd(cl, t, i + 1) else i
  }

  function EmailEnd(t: string, i: nat): Option<nat>
    requires i < |t|
  {
    var a := RunEnd(Local, t, i);
    if a == i || a == |t| || t[a] != '@' then None
    else
      var b := RunEnd(Domain, t, a + 1);
      if b == a + 1 || b == |t| || t[b] != '.' then None
      else
        var c := RunEnd(Tail, t, b + 1);
        if c == b + 1 then None else Some(c)
  }

  function PhoneEnd(t: string, i: nat): Option<nat>
    requires i < |t|
  {
    var n := if t[i] == '+' then 14 else if t[i] == '2' then 13 else 11;
    if i + n <= |t| && IsPhone(t[i..i + n]) && Boundary(t, i) && Boundary(t, i + n) then Some(i + n) else None
  }

  function LongDigitsEnd(t: string, i: nat): Option<nat>
    requires i < |t|
  {
    var e := RunEnd(Digits, t, i);
    if Boundary(t, i) && 10 <= e - i <= 19 && Boundary(t, e) then Some(e) else None
  }

  /** Where the match that starts at i ends, if there is one. */
  function End(p: Pattern, t: string, i: nat): Option<nat>
    requires i < |t|
  {
    match p
    case Email => EmailEnd(t, i)
    case Phone => PhoneEnd(t, i)
    case LongDigits => LongDigitsEnd(t, i)
  }

  lemma {:induction false} RunEndIs(cl: Class, t: string, i: nat, e: nat)
    requires i <= e <= |t| && AllIn(cl, t[i..e])
    ensures e <= RunEnd(cl, t, i)
    ensures e < |t| && !In(cl, t[e]) ==> RunEnd(cl, t, i) == e
    ensures e == |t| ==> RunEnd(cl, t, i) == e
    decreases e - i
  {
    if i < e {
      assert t[i..e][0] == t[i] && t[i + 1..e] == t[i..e][1..];
      RunEndIs(cl, t, i + 1, e);
    }
  }

  /** An email match by absolute positions: "@" at a, the first dot of the rest at b. */
  predicate EmailAt(t: string, i: nat, a: nat, b: nat, j: nat) {
    && i < a && a + 1 < b && b + 1 < j <= |t| && t[a] == '@' && t[b] == '.'
    && AllIn(Local, t[i..a]) && AllIn(Domain, t[a + 1..b]) && AllIn(Tail, t[b + 1..j])
  }

  lemma SliceOfSlice(t: string, i: nat, j: nat, x: nat, y: nat)
    requires i <= x <= y <= j <= |t|
    ensures t[i..j][x - i..y - i] == t[x..y]
  {
    forall m | 0 <= m < y - x ensures t[i..j][x - i..y - i][m] == t[x..y][m] {
      assert t[i..j][x - i + m] == t[x + m];
    }
  }

  lemma EmailAtIsSplit(t: string, i: nat, a: nat, b: nat, j: nat)
    requires i <= a < b < j <= |t|
    ensures EmailAt(t, i, a, b, j) <==> EmailSplit(t[i..j], a - i, b - i)
  {
    var w := t[i..j];
    assert w[a - i] == t[a] && w[b - i] == t[b];
    SliceOfSlice(t, i, j, i, a);
    SliceOfSlice(t, i, j, a + 1, b);
    SliceOfSlice(t, i, j, b + 1, j);
    assert w[b + 1 - i..j - i] == w[b - i + 1..];
  }

  lemma EmailEndSound(t: string, i: nat)
    requires i < |t| && EmailEnd(t, i).Some?
    ensures i < EmailEnd(t, i).value <= |t| && Hit(Email, t, i, EmailEnd(t, i).value)
  {
    var a := RunEnd(Local, t, i);
    var b := RunEnd(Domain, t, a + 1);
    EmailAtIsSplit(t, i, a, b, RunEnd(Tail, t, b + 1));
  }

  lemma EmailAtFound(t: string, i: nat, a: nat, b: nat, j: nat)
    requires EmailAt(t, i, a, b, j)
    ensures EmailEnd(t, i).Some? && j <= EmailEnd(t, i).value
  {
    RunEndIs(Local, t, i, a);
    RunEndIs(Domain, t, a + 1, b);
    RunEndIs(Tail, t, b + 1, j);
  }

  lemma EmailEndComplete(t: string, i: nat, j: nat)
    requires Hit(Email, t, i, j)
    ensures i < |t| && EmailEnd(t, i).Some? && j <= EmailEnd(t, i).value
  {
    var w := t[i..j];
    var x, y :| 0 <= x < y < |w| && EmailSplit(w, x, y);
    EmailAtIsSplit(t, i, i + x, i + y, j);
    EmailAtFound(t, i, i + x, i + y, j);
  }

  lemma PhoneEndComplete(t: string, i: nat, j: nat)
    requires Hit(Phone, t, i, j)
    ensures i < |t| && PhoneEnd(t, i) == Some(j)
  {
    var w := t[i..j];
    assert w[0] == t[i];
  }

  lemma LongDigitsEndComplete(t: string, i: nat, j: nat)
    requires Hit(LongDigits, t, i, j)
    ensures i < |t| && LongDigitsEnd(t, i) == Some(j)
  {
    assert t[i..j][j - i - 1] == t[j - 1];
    RunEndIs(Digits, t, i, j);
  }

  /** The scan finds a match exactly where the pattern has one, and then the longest. */
  lemma EndIsLongestHit(p: Pattern, t: string, i: nat)
    requires i < |t|
    ensures End(p, t, i).Some? <==> exists j | i <= j <= |t| :: Hit(p, t, i, j)
    ensures End(p, t, i).Some? ==> i < End(p, t, i).value <= |t| && Hit(p, t, i, End(p, t, i).value)
    ensures forall j | i <= j <= |t| && Hit(p, t, i, j) :: End(p, t, i).Some? && j <= End(p, t, i).value
  {
    forall j | i <= j <= |t| && Hit(p, t, i, j) ensures End(p, t, i).Some? && j <= End(p, t, i).value {
      match p
      case Email => EmailEndComplete(t, i, j);
      case Phone => PhoneEndComplete(t, i, j);
      case LongDigits => LongDigitsEndComplete(t, i, j);
    }
    if End(p, t, i).Some? {
      if p == Email { EmailEndSound(t, i); }
      var j := End(p, t, i).value;
      assert Hit(p, t, i, j);
    }
  }

  // ---- substitution ----------------------------------------------------------

  /** `ends[i]` is where a match starting at i ends. */
  predicate Forward(t: string, ends: seq<Option<nat>>) {
    |ends| == |t| && forall i | 0 <= i < |t| && ends[i].Some? :: i < ends[i].value <= |t|
  }

  function Ends(p: Pattern, t: string): (ends: seq<Option<nat>>)
    ensures Forward(t, ends)
  {
    EndsForward(p, t);
    seq(|t|, i requires 0 <= i < |t| => End(p, t, i))
  }

  lemma EndsForward(p: Pattern, t: string)
    ensures forall i | 0 <= i < |t| && End(p, t, i).Some? :: i < End(p, t, i).value <= |t|
  {
    forall i | 0 <= i < |t| && End(p, t, i).Some? ensures i < End(p, t, i).value <= |t| { EndIsLongestHit(p, t, i); }
  }

  /** Substitution from position i on: leftmost matches, never overlapping. */
  function SubFrom(t: string, ends: seq<Option<nat>>, i: nat): string
    requires Forward(t, ends) && i <= |t|
    decreases |t| - i
  {
    if i == |t| then ""
    else
      match ends[i]
      case Some(j) => REDACTED + SubFrom(t, ends, j)
      case None => [t[i]] + SubFrom(t, ends, i + 1)
  }

  /** `pattern.sub(REDACTED, t)` */
  function Sub(p: Pattern, t: string): string { SubFrom(t, Ends(p, t), 0) }

  function Scrub(t: string): string { Sub(LongDigits, Sub(Phone, Sub(Email, t))) }

  /** Where output character `a` was copied from; None inside a marker. */
  function Src(t: string, ends: seq<Option<nat>>, i: nat, a: nat): Option<nat>
    requires Forward(t, ends) && i <= |t| && a < |SubFrom(t, ends, i)|
    decreases |t| - i
  {
    match ends[i]
    case Some(j) => if a < |REDACTED| then None else Src(t, ends, j, a - |REDACTED|)
    case None => if a == 0 then Some(i) else Src(t, ends, i + 1, a - 1)
  }

  lemma {:induction false} CopiedFaithfully(t: string, ends: seq<Option<nat>>, i: nat, a: nat)
    requires Forward(t, ends) && i <= |t| && a < |SubFrom(t, ends, i)|
    ensures match Src(t, ends, i, a)
            case Some(c) => i <= c < |t| && SubFrom(t, ends, i)[a] == t[c] && ends[c].None?
            case None => SubFrom(t, ends, i)[a] in REDACTED
    decreases |t| - i
  {
    match ends[i]
    case Some(j) =>
      if a >= |REDACTED| { CopiedFaithfully(t, ends, j, a - |REDACTED|); }
      else { assert SubFrom(t, ends, i)[a] == REDACTED[a]; }
    case None => if a > 0 { CopiedFaithfully(t, ends, i + 1, a - 1); }
  }

  /** What follows a copied character: the next one, the start of a match, or the end. */
  lemma {:induction false} AfterCopy(t: string, ends: seq<Option<nat>>, i: nat, a: nat)
    requires Forward(t, ends) && i <= |t| && a < |SubFrom(t, ends, i)| && Src(t, ends, i, a).Some?
    ensures var o, c := SubFrom(t, ends, i), Src(t, ends, i, a).value;
            if a + 1 == |o| then c + 1 == |t|
            else c + 1 < |t| && (if ends[c + 1].Some? then o[a + 1] == '[' else Src(t, ends, i, a + 1) == Some(c + 1))
    decreases |t| - i
  {
    match ends[i]
    case Some(j) => AfterCopy(t, ends, j, a - |REDACTED|);
    case None =>
      if a > 0 { AfterCopy(t, ends, i + 1, a - 1); }
      else {
        assert SubFrom(t, ends, i)[1..] == SubFrom(t, ends, i + 1);
        if i + 1 < |t| { assert SubFrom(t, ends, i + 1) != ""; }
      }
  }

  /** What precedes a copied character: the previous one, the end of a match, or the start. */
  lemma {:induction false} BeforeCopy(t: string, ends: seq<Option<nat>>, i: nat, a: nat)
    requires Forward(t, ends) && i <= |t| && a < |SubFrom(t, ends, i)| && Src(t, ends, i, a).Some?
    ensures var c := Src(t, ends, i, a).value;
            if a == 0 then c == i
            else i < c <= |t| && (Src(t, ends, i, a - 1) == Some(c - 1)
                                   || exists k | 0 <= k < |t| :: ends[k] == Some(c))
    decreases |t| - i
  {
    match ends[i]
    case Some(j) => BeforeCopy(t, ends, j, a - |REDACTED|);
    case None => if a > 0 { BeforeCopy(t, ends, i + 1, a - 1); }
  }

  /** Inside a marker only "]" is followed by text again. */
  lemma {:induction false} InsideMarker(t: string, ends: seq<Option<nat>>, i: nat, a: nat)
    requires Forward(t, ends) && i <= |t| && a < |SubFrom(t, ends, i)|
    requires Src(t, ends, i, a).None? && SubFrom(t, ends, i)[a] != ']'
    ensures a + 1 < |SubFrom(t, ends, i)| && Src(t, ends, i, a + 1).None?
    decreases |t| - i
  {
    match ends[i]
    case Some(j) => if a >= |REDACTED| { InsideMarker(t, ends, j, a - |REDACTED|); }
    case None => InsideMarker(t, ends, i + 1, a - 1);
  }

  predicate Bracketless(w: string) { '[' !in w && ']' !in w }

  lemma {:induction false} MarkerSwallows(p: Pattern, t: string, a: nat, b: nat)
    requires a < b <= |Sub(p, t)| && Bracketless(Sub(p, t)[a..b]) && Src(t, Ends(p, t), 0, a).None?
    ensures forall k | a <= k < b :: Src(t, Ends(p, t), 0, k).None? && Sub(p, t)[k] in REDACTED
    decreases b - a
  {
    CopiedFaithfully(t, Ends(p, t), 0, a);
    assert Sub(p, t)[a..b][0] == Sub(p, t)[a];
    if a + 1 < b {
      InsideMarker(t, Ends(p, t), 0, a);
      assert Sub(p, t)[a + 1..b] == Sub(p, t)[a..b][1..];
      MarkerSwallows(p, t, a + 1, b);
    }
  }

  lemma {:induction false} CopyContinues(p: Pattern, t: string, a: nat, b: nat)
    requires a < b <= |Sub(p, t)| && Bracketless(Sub(p, t)[a..b]) && Src(t, Ends(p, t), 0, a).Some?
    ensures forall k | a <= k < b :: Src(t, Ends(p, t), 0, k) == Some(Src(t, Ends(p, t), 0, a).value + k - a)
    decreases b - a
  {
    if a + 1 < b {
      AfterCopy(t, Ends(p, t), 0, a);
      assert Sub(p, t)[a..b][1] == Sub(p, t)[a + 1];
      assert Sub(p, t)[a + 1..b] == Sub(p, t)[a..b][1..];
      CopyContinues(p, t, a + 1, b);
    }
  }

  lemma SameText(p: Pattern, t: string, a: nat, b: nat, c: nat)
    requires a <= b <= |Sub(p, t)|
    requires forall k | a <= k < b :: Src(t, Ends(p, t), 0, k) == Some(c + k - a)
    ensures b > a ==> c + (b - a) <= |t| && t[c..c + (b - a)] == Sub(p, t)[a..b]
  {
    forall k | a <= k < b ensures c + k - a < |t| && t[c + k - a] == Sub(p, t)[k] {
      CopiedFaithfully(t, Ends(p, t), 0, k);
    }
    if b > a {
      CopiedFaithfully(t, Ends(p, t), 0, b - 1);
      assert Src(t, Ends(p, t), 0, b - 1) == Some(c + (b - 1) - a);
      assert forall m | 0 <= m < b - a :: t[c..c + (b - a)][m] == t[c + (a + m) - a] == Sub(p, t)[a..b][m];
    }
  }

  /** Text without brackets in the output that is not marker text stood in the input, contiguously. */
  lemma CopiedText(p: Pattern, t: string, a: nat, b: nat, k: nat) returns (c: nat)
    requires a <= k < b <= |Sub(p, t)| && Bracketless(Sub(p, t)[a..b]) && Sub(p, t)[k] !in REDACTED
    ensures c + (b - a) <= |t| && t[c..c + (b - a)] == Sub(p, t)[a..b]
    ensures Src(t, Ends(p, t), 0, a) == Some(c) && Src(t, Ends(p, t), 0, b - 1) == Some(c + (b - 1 - a))
  {
    if Src(t, Ends(p, t), 0, a).None? { MarkerSwallows(p, t, a, b); }
    CopyContinues(p, t, a, b);
    c := Src(t, Ends(p, t), 0, a).value;
    SameText(p, t, a, b, c);
  }

  /** Every match holds a character no marker has, and no bracket. */
  lemma HitCharacters(q: Pattern, t: string, i: nat, j: nat) returns (k: nat)
    requires Hit(q, t, i, j)
    ensures i <= k < j && t[k] !in REDACTED && Bracketless(t[i..j])
  {
    var w := t[i..j];
    match q {
      case Email =>
        var x, y :| 0 <= x < y < |w| && EmailSplit(w, x, y);
        k := i + x;
        EmailBracketless(w, x, y);
      case Phone =>
        var n := if w[0] == '+' then 4 else if w[0] == '2' then 3 else 1;
        k := i + n;
        PhoneBracketless(w, n);
      case LongDigits => k := i;
    }
  }

  lemma EmailBracketless(w: string, x: nat, y: nat)
    requires 0 <= x < y < |w| && EmailSplit(w, x, y)
    ensures Bracketless(w)
  {
    forall m | 0 <= m < |w| ensures w[m] != '[' && w[m] != ']' {
      if m < x { assert w[..x][m] == w[m]; }
      else if x < m < y { assert w[x + 1..y][m - x - 1] == w[m]; }
      else if y < m { assert w[y + 1..][m - y - 1] == w[m]; }
    }
  }

  lemma PhoneBracketless(w: string, n: nat)
    requires IsPhone(w) && n == if w[0] == '+' then 4 else if w[0] == '2' then 3 else 1
    ensures Bracketless(w) && n < |w| && IsDigit(w[n])
  {
    var prefix := w[..n];
    assert prefix[0] == w[0];
    assert PhoneAfter(w, prefix);
    assert forall m | n <= m < |w| :: w[m] == w[n..][m - n];
    assert forall m | 0 <= m < n :: w[m] == prefix[m];
  }

  /** An email in the output of any pass was already in its input. */
  lemma EmailNotCreated(p: Pattern, t: string)
    requires Clean(Email, t)
    ensures Clean(Email, Sub(p, t))
  {
    forall a, b | 0 <= a <= b <= |Sub(p, t)| ensures !Hit(Email, Sub(p, t), a, b) {
      if Hit(Email, Sub(p, t), a, b) {
        var k := HitCharacters(Email, Sub(p, t), a, b);
        var c := CopiedText(p, t, a, b, k);
        assert Hit(Email, t, c, c + (b - a));
      }
    }
  }

  lemma SameLeftBoundary(p: Pattern, t: string, a: nat)
    requires a < |Sub(p, t)| && Src(t, Ends(p, t), 0, a).Some? && Boundary(Sub(p, t), a)
    ensures p == Email || Boundary(t, Src(t, Ends(p, t), 0, a).value)
  {
    CopiedFaithfully(t, Ends(p, t), 0, a);
    BeforeCopy(t, Ends(p, t), 0, a);
    if a > 0 && Src(t, Ends(p, t), 0, a - 1).Some? { CopiedFaithfully(t, Ends(p, t), 0, a - 1); }
  }

  lemma SameRightBoundary(p: Pattern, t: string, a: nat)
    requires a < |Sub(p, t)| && Src(t, Ends(p, t), 0, a).Some? && Boundary(Sub(p, t), a + 1)
    ensures p == Email || Boundary(t, Src(t, Ends(p, t), 0, a).value + 1)
  {
    var c := Src(t, Ends(p, t), 0, a).value;
    CopiedFaithfully(t, Ends(p, t), 0, a);
    AfterCopy(t, Ends(p, t), 0, a);
    if a + 1 < |Sub(p, t)| {
      CopiedFaithfully(t, Ends(p, t), 0, a + 1);
      EndIsLongestHit(p, t, c + 1);
    }
  }

  /** A match in the output would have been a match in the input, at the same characters. */
  lemma HitWasThere(p: Pattern, t: string, a: nat, b: nat) returns (c: nat)
    requires Hit(p, Sub(p, t), a, b)
    ensures a < |Sub(p, t)| && Src(t, Ends(p, t), 0, a) == Some(c) && Hit(p, t, c, c + (b - a))
  {
    var k := HitCharacters(p, Sub(p, t), a, b);
    c := CopiedText(p, t, a, b, k);
    if p != Email {
      SameLeftBoundary(p, t, a);
      SameRightBoundary(p, t, b - 1);
    }
  }

  /** A pass leaves no match of its own pattern. */
  lemma SubClean(p: Pattern, t: string)
    ensures Clean(p, Sub(p, t))
  {
    forall a, b | 0 <= a <= b <= |Sub(p, t)| ensures !Hit(p, Sub(p, t), a, b) {
      if Hit(p, Sub(p, t), a, b) {
        var c := HitWasThere(p, t, a, b);
        CopiedFaithfully(t, Ends(p, t), 0, a);
        EndIsLongestHit(p, t, c);
      }
    }
  }

  /** A phone number contains an all-digit word of 11 or 13 digits. */
  lemma PhoneDigits(w: string)
    requires IsPhone(w)
    ensures AllIn(Digits, if w[0] == '+' then w[1..] else w)
    ensures |w| == if w[0] == '+' then 14 else if w[0] == '2' then 13 else 11
    ensures w[0] == '+' ==> w[1] == '2'
  {
    var n := if PhoneAfter(w, "+234") then 4 else if PhoneAfter(w, "234") then 3 else 1;
    var prefix := if n == 4 then "+234" else if n == 3 then "234" else "0";
    assert PhoneAfter(w, prefix);
    forall m | 1 <= m < |w| ensures IsDigit(w[m]) {
      if m < n { assert w[m] == prefix[m]; } else { assert w[m] == w[n..][m - n]; }
    }
    assert w[0] == prefix[0];
  }

  /** A phone number contains an all-digit word of 11 or 13 digits. */
  lemma PhoneHasDigitWord(t: string, i: nat, j: nat)
    requires Hit(Phone, t, i, j)
    ensures exists k: nat | i <= k <= j :: Hit(LongDigits, t, k, j)
  {
    var w := t[i..j];
    PhoneDigits(w);
    var k := if w[0] == '+' then i + 1 else i;
    assert t[k..j] == w[k - i..];
    assert t[i] == w[0];
    if k == i + 1 { assert t[k] == w[1] && Boundary(t, k); }
    assert Hit(LongDigits, t, k, j);
  }

  lemma NoDigitWordsNoPhones(t: string)
    requires Clean(LongDigits, t)
    ensures Clean(Phone, t)
  {
    forall i, j | 0 <= i <= j <= |t| ensures !Hit(Phone, t, i, j) {
      if Hit(Phone, t, i, j) { PhoneHasDigitWord(t, i, j); }
    }
  }

  /** The scrubbed text holds no email, no phone number and no word of 10 to 19 digits. */
  lemma ScrubClean(t: string)
    ensures forall p: Pattern :: Clean(p, Scrub(t))
  {
    var e := Sub(Email, t);
    SubClean(Email, t);
    EmailNotCreated(Phone, e);
    EmailNotCreated(LongDigits, Sub(Phone, e));
    SubClean(LongDigits, Sub(Phone, e));
    NoDigitWordsNoPhones(Scrub(t));
    forall p: Pattern ensures Clean(p, Scrub(t)) {
      match p case Email => case Phone => case LongDigits =>
    }
  }

  lemma {:induction false} CleanUnchanged(p: Pattern, t: string, i: nat)
    requires Clean(p, t) && i <= |t|
    ensures SubFrom(t, Ends(p, t), i) == t[i..]
    decreases |t| - i
  {
    if i < |t| {
      EndIsLongestHit(p, t, i);
      assert Ends(p, t)[i].None?;
      CleanUnchanged(p, t, i + 1);
    }
  }

  /** Scrubbing twice is scrubbing once; text without a match is not touched at all. */
  lemma ScrubIdempotent(t: string)
    ensures Scrub(Scrub(t)) == Scrub(t)
    ensures (forall p: Pattern :: Clean(p, t)) ==> Scrub(t) == t
  {
    ScrubClean(t);
    CleanTextUnchanged(Scrub(t));
    if forall p: Pattern :: Clean(p, t) { CleanTextUnchanged(t); }
  }

  lemma CleanTextUnchanged(t: string)
    requires Clean(Email, t) && Clean(Phone, t) && Clean(LongDigits, t)
    ensures Scrub(t) == t
  {
    CleanUnchanged(Email, t, 0);
    CleanUnchanged(Phone, t, 0);
    CleanUnchanged(LongDigits, t, 0);
  }

  // ---- what passes through ---------------------------------------------------

  datatype Piece = Keep(c: char) | Cut(w: string)

  function Source(ps: seq<Piece>): string
    decreases |ps|
  {
    if ps == [] then "" else (match ps[0] case Keep(c) => [c] case Cut(w) => w) + Source(ps[1..])
  }

  function Rendered(ps: seq<Piece>): string
    decreases |ps|
  {
    if ps == [] then "" else (match ps[0] case Keep(c) => [c] case Cut(_) => REDACTED) + Rendered(ps[1..])
  }

  predicate CutsMatch(p: Pattern, ps: seq<Piece>) {
    forall k | 0 <= k < |ps| && ps[k].Cut? :: Language(p, ps[k].w)
  }

  /** `o` is `t` with some words of the pattern replaced and everything else kept in order. */
  ghost predicate Replaced(p: Pattern, t: string, o: string) {
    exists ps: seq<Piece> :: CutsMatch(p, ps) && Source(ps) == t && Rendered(ps) == o
  }

  predicate EndsMatch(p: Pattern, t: string, ends: seq<Option<nat>>) {
    Forward(t, ends) && forall i | 0 <= i < |t| && ends[i].Some? :: Language(p, t[i..ends[i].value])
  }

  lemma {:induction false} SubPieces(p: Pattern, t: string, ends: seq<Option<nat>>, i: nat) returns (ps: seq<Piece>)
    requires EndsMatch(p, t, ends) && i <= |t|
    ensures CutsMatch(p, ps) && Source(ps) == t[i..] && Rendered(ps) == SubFrom(t, ends, i)
    decreases |t| - i
  {
    if i == |t| { return []; }
    match ends[i] {
      case Some(j) =>
        var rest := SubPieces(p, t, ends, j);
        ps := [Cut(t[i..j])] + rest;
        ConsPiece(p, Cut(t[i..j]), rest);
        assert t[i..] == t[i..j] + t[j..];
      case None =>
        var rest := SubPieces(p, t, ends, i + 1);
        ps := [Keep(t[i])] + rest;
        ConsPiece(p, Keep(t[i]), rest);
        assert t[i..] == [t[i]] + t[i + 1..];
    }
  }

  lemma ConsPiece(p: Pattern, x: Piece, ps: seq<Piece>)
    requires CutsMatch(p, ps) && (x.Cut? ==> Language(p, x.w))
    ensures CutsMatch(p, [x] + ps)
    ensures Source([x] + ps) == (match x case Keep(c) => [c] case Cut(w) => w) + Source(ps)
    ensures Rendered([x] + ps) == (match x case Keep(c) => [c] case Cut(_) => REDACTED) + Rendered(ps)
  {
    assert ([x] + ps)[1..] == ps;
  }

  lemma SubReplaces(p: Pattern, t: string)
    ensures Replaced(p, t, Sub(p, t))
  {
    forall i | 0 <= i < |t| && Ends(p, t)[i].Some? ensures Language(p, t[i..Ends(p, t)[i].value]) {
      EndIsLongestHit(p, t, i);
    }
    var ps := SubPieces(p, t, Ends(p, t), 0);
    assert t[0..] == t;
  }

  /** Only emails, then phone numbers, then long digit words are cut; all other text survives in order. */
  lemma ScrubReplaces(t: string)
    ensures var e := Sub(Email, t);
            var f := Sub(Phone, e);
            Replaced(Email, t, e) && Replaced(Phone, e, f) && Replaced(LongDigits, f, Scrub(t))
  {
    SubReplaces(Email, t);
    SubReplaces(Phone, Sub(Email, t));
    SubReplaces(LongDigits, Sub(Phone, Sub(Email, t)));
  }
}
