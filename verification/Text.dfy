/** Decimal printing, ASCII case and whitespace, as the text-handling modules need them. */
module Text {
  predicate IsDigit(c: char) { '0' <= c <= '9' }

  predicate AllDigits(s: string) { forall k | 0 <= k < |s| :: IsDigit(s[k]) }

  function DigitChar(d: nat): char
    requires d < 10
  {
    '0' + d as char
  }

  function DigitValue(c: char): nat
    requires IsDigit(c)
  {
    (c - '0') as nat
  }

  /** `str(n)` */
  function Dec(n: nat): (s: string)
    ensures s != "" && AllDigits(s)
  {
    if n < 10 then [DigitChar(n)] else Dec(n / 10) + [DigitChar(n % 10)]
  }

  /** `int(s)` of a digit string */
  function DecValue(s: string): nat
    requires AllDigits(s)
    decreases |s|
  {
    if s == "" then 0 else DecValue(s[..|s| - 1]) * 10 + DigitValue(s[|s| - 1])
  }

  lemma {:induction false} DecRoundTrip(n: nat)
    ensures DecValue(Dec(n)) == n
    decreases n
  {
    if n >= 10 {
      DecRoundTrip(n / 10);
      assert Dec(n)[..|Dec(n)| - 1] == Dec(n / 10);
    }
  }

  function LowerChar(c: char): char {
    if 'A' <= c <= 'Z' then c - 'A' + 'a' else c
  }

  function Lower(s: string): string {
    seq(|s|, i requires 0 <= i < |s| => LowerChar(s[i]))
  }

  function UpperChar(c: char): char {
    if 'a' <= c <= 'z' then c - 'a' + 'A' else c
  }

  function Upper(s: string): string {
    seq(|s|, i requires 0 <= i < |s| => UpperChar(s[i]))
  }

  predicate IsSpace(c: char) { c == ' ' || '\t' <= c <= '\r' || '\U{001C}' <= c <= '\U{001F}' }

  function StripLeft(s: string): string
    decreases |s|
  {
    if s != "" && IsSpace(s[0]) then StripLeft(s[1..]) else s
  }

  function StripRight(s: string): string
    decreases |s|
  {
    if s != "" && IsSpace(s[|s| - 1]) then StripRight(s[..|s| - 1]) else s
  }

  /** `s.strip()` */
  function Strip(s: string): string { StripRight(StripLeft(s)) }

  predicate Stripped(s: string) { s != "" ==> !IsSpace(s[0]) && !IsSpace(s[|s| - 1]) }

  /** `part in s` */
  predicate Contains(s: string, part: string) {
    exists i | 0 <= i <= |s| :: part <= s[i..]
  }

  lemma {:induction false} StripRightShape(s: string)
    ensures StripRight(s) <= s
    ensures StripRight(s) != "" ==> !IsSpace(StripRight(s)[|StripRight(s)| - 1])
    ensures s != "" && !IsSpace(s[|s| - 1]) ==> StripRight(s) == s
    decreases |s|
  {
    if s != "" && IsSpace(s[|s| - 1]) { StripRightShape(s[..|s| - 1]); }
  }

  lemma {:induction false} StripLeftShape(s: string)
    ensures exists k | 0 <= k <= |s| :: StripLeft(s) == s[k..]
    ensures StripLeft(s) != "" ==> !IsSpace(StripLeft(s)[0])
    decreases |s|
  {
    if s != "" && IsSpace(s[0]) {
      StripLeftShape(s[1..]);
      var k :| 0 <= k <= |s[1..]| && StripLeft(s[1..]) == s[1..][k..];
      assert s[1..][k..] == s[k + 1..];
    } else {
      assert StripLeft(s) == s[0..];
    }
  }

  /** The result of `strip` starts and ends with text, and stripped text is left alone. */
  lemma StripShape(s: string)
    ensures Stripped(Strip(s))
    ensures Stripped(s) ==> Strip(s) == s
    ensures forall c :: c in Strip(s) ==> c in s
  {
    StripLeftShape(s);
    StripRightShape(StripLeft(s));
  }

  lemma {:induction false} StripPadding(t: string, c: char)
    requires IsSpace(c)
    ensures Strip([c] + t) == Strip(t) == Strip(t + [c])
    decreases |t|
  {
    assert ([c] + t)[1..] == t;
    if t != "" && IsSpace(t[0]) {
      StripPadding(t[1..], c);
      assert (t + [c])[1..] == t[1..] + [c];
      assert Strip(t) == Strip(t[1..]);
    } else {
      assert (t + [c])[..|t|] == t;
      if t == "" { assert (t + [c])[1..] == ""; }
    }
  }

  lemma {:induction false} StripUpper(t: string)
    ensures Strip(Upper(t)) == Upper(Strip(t))
    decreases |t|
  {
    var u := Upper(t);
    if t != "" && IsSpace(t[0]) {
      assert u[1..] == Upper(t[1..]);
      StripUpper(t[1..]);
    } else {
      StripRightUpper(t);
    }
  }

  lemma {:induction false} StripRightUpper(t: string)
    ensures StripRight(Upper(t)) == Upper(StripRight(t))
    decreases |t|
  {
    if t != "" && IsSpace(t[|t| - 1]) {
      assert Upper(t)[..|t| - 1] == Upper(t[..|t| - 1]);
      StripRightUpper(t[..|t| - 1]);
    }
  }

  lemma LowerOfUpper(s: string)
    ensures Lower(Upper(s)) == Lower(s)
  {
    forall k | 0 <= k < |s| ensures Lower(Upper(s))[k] == Lower(s)[k] {}
  }

  /** `part in s` means that s reads `part` somewhere. */
  lemma ContainsExactly(s: string, part: string)
    ensures Contains(s, part) <==> exists before, after :: s == before + part + after
  {
    if i :| 0 <= i <= |s| && part <= s[i..] {
      assert s == s[..i] + part + s[i + |part|..];
    }
    if before, after :| s == before + part + after {
      assert s[|before|..] == part + after;
    }
  }
}
