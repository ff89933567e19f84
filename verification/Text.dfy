/** Text facts shared by the modules whose keys and encodings are strings. */
module Text {

  /** The characters Python's str.isspace and str.strip treat as whitespace. */
  predicate IsSpace(c: char) {
    var o := c as int;
    || 9 <= o <= 13 || 28 <= o <= 32 || o == 0x85 || o == 0xA0 || o == 0x1680 || 0x2000 <= o <= 0x200A
    || o == 0x2028 || o == 0x2029 || o == 0x202F || o == 0x205F || o == 0x3000
  }

  predicate HasSpace(s: string) {
    exists i :: 0 <= i < |s| && IsSpace(s[i])
  }

  function Strip(s: string): string {
    if s != "" && IsSpace(s[0]) then Strip(s[1..])
    else if s != "" && IsSpace(s[|s| - 1]) then Strip(s[..|s| - 1])
    else s
  }

  predicate AllSpace(s: string) {
    forall i :: 0 <= i < |s| ==> IsSpace(s[i])
  }

  predicate Trimmed(s: string) {
    s != "" ==> !IsSpace(s[0]) && !IsSpace(s[|s| - 1])
  }

  /** Strip cuts off nothing but spaces, and all of them: it yields the one such slice that no space borders. */
  lemma {:induction false} StripCutsSpaces(s: string) returns (from: nat, to: nat)
    ensures from <= to <= |s| && Strip(s) == s[from..to]
    ensures AllSpace(s[..from]) && AllSpace(s[to..]) && Trimmed(Strip(s))
  {
    hide IsSpace;
    if s != "" && IsSpace(s[0]) {
      from, to := StripCutsSpaces(s[1..]);
      assert s[1..][from..to] == s[from + 1..to + 1] && s[1..][to..] == s[to + 1..];
      assert s[..from + 1] == [s[0]] + s[1..][..from];
      from, to := from + 1, to + 1;
    } else if s != "" && IsSpace(s[|s| - 1]) {
      var n := |s| - 1;
      from, to := StripCutsSpaces(s[..n]);
      assert s[..n][from..to] == s[from..to] && s[..n][..from] == s[..from];
      assert s[to..] == s[..n][to..] + [s[n]];
    } else {
      from, to := 0, |s|;
      assert s[..0] == "" && s[|s|..] == "" && s[0..|s|] == s;
    }
  }

  lemma Borders(s: string, from: nat, to: nat)
    requires from <= to <= |s| && AllSpace(s[..from]) && AllSpace(s[to..]) && Trimmed(s[from..to])
    ensures forall i :: 0 <= i < from || to <= i < |s| ==> IsSpace(s[i])
    ensures from < to ==> !IsSpace(s[from]) && !IsSpace(s[to - 1])
  {
    forall i | 0 <= i < from || to <= i < |s| ensures IsSpace(s[i]) {
      if i < from { assert s[i] == s[..from][i]; } else { assert s[i] == s[to..][i - to]; }
    }
    if from < to { assert s[from] == s[from..to][0] && s[to - 1] == s[from..to][to - from - 1]; }
  }

  lemma StripUnique(s: string, from: nat, to: nat)
    requires from <= to <= |s| && AllSpace(s[..from]) && AllSpace(s[to..]) && Trimmed(s[from..to])
    ensures Strip(s) == s[from..to]
  {
    var f, t := StripCutsSpaces(s);
    Borders(s, from, to);
    Borders(s, f, t);
    hide IsSpace, Strip, AllSpace, Trimmed;
  }

  // --- order -----------------------------------------------------------------------------------

  /** Python's order on str: the first difference decides, and a proper prefix comes first. */
  predicate Less(a: string, b: string) {
    b != "" && (a == "" || a[0] < b[0] || (a[0] == b[0] && Less(a[1..], b[1..])))
  }

  lemma {:induction false} LessTotal(a: string, b: string)
    ensures Less(a, b) || Less(b, a) || a == b
    ensures !(Less(a, b) && Less(b, a))
    ensures !Less(a, a)
  {
    if a != "" { LessTotal(a[1..], a[1..]); }
    if a != "" && b != "" && a[0] == b[0] {
      LessTotal(a[1..], b[1..]);
      if a[1..] == b[1..] { assert a == [a[0]] + a[1..] == b; }
    }
  }

  lemma {:induction false} LessTransitive(a: string, b: string, c: string)
    requires Less(a, b) && Less(b, c)
    ensures Less(a, c)
  {
    if a != "" && a[0] == b[0] == c[0] { LessTransitive(a[1..], b[1..], c[1..]); }
  }

  /** Texts with parts of equal length are compared part by part. */
  lemma {:induction false} LessByParts(a: string, b: string, x: string, y: string)
    requires |a| == |b|
    ensures Less(a + x, b + y) <==> Less(a, b) || (a == b && Less(x, y))
  {
    if a == "" {
      assert a + x == x && b + y == y;
    } else {
      assert (a + x)[1..] == a[1..] + x && (b + y)[1..] == b[1..] + y;
      LessByParts(a[1..], b[1..], x, y);
      if a[0] == b[0] && a[1..] == b[1..] { assert a == [a[0]] + a[1..] == b; }
    }
  }

  // --- digits ----------------------------------------------------------------------------------

  predicate IsDigit(c: char) {
    '0' <= c <= '9'
  }

  predicate AllDigits(s: string) {
    forall i :: 0 <= i < |s| ==> IsDigit(s[i])
  }

  function DigitChar(n: int): (c: char)
    requires 0 <= n < 10
    ensures IsDigit(c) && DigitValue(c) == n
  {
    '0' + n as char
  }

  function DigitValue(c: char): (n: int)
    requires IsDigit(c)
    ensures 0 <= n < 10
  {
    (c - '0') as int
  }

  lemma DigitOfValue(c: char)
    requires IsDigit(c)
    ensures DigitChar(DigitValue(c)) == c
  {
  }

  /** str(n). */
  function Decimal(n: nat): (s: string)
    ensures s != "" && AllDigits(s) && (s[0] == '0' ==> n == 0)
  {
    if n < 10 then [DigitChar(n)] else Decimal(n / 10) + [DigitChar(n % 10)]
  }

  /** int(s) on ASCII digits. */
  function Value(s: string): nat
    requires AllDigits(s)
  {
    if s == "" then 0 else Value(s[..|s| - 1]) * 10 + DigitValue(s[|s| - 1])
  }

  lemma {:induction false} ValueOfDecimal(n: nat)
    ensures Value(Decimal(n)) == n
  {
    if n >= 10 {
      ValueOfDecimal(n / 10);
      assert Decimal(n)[..|Decimal(n)| - 1] == Decimal(n / 10);
    } else {
      assert Decimal(n)[..0] == "";
    }
  }

  /** The texts str(n) yields: no leading zero, except "0" itself. */
  predicate CanonicalDecimal(s: string) {
    s != "" && AllDigits(s) && (s[0] == '0' ==> |s| == 1)
  }

  lemma {:induction false} DecimalIsCanonical(n: nat)
    ensures CanonicalDecimal(Decimal(n))
  {
  }

  lemma {:induction false} DecimalOfValue(s: string)
    requires CanonicalDecimal(s)
    ensures Decimal(Value(s)) == s && (s[0] != '0' ==> Value(s) > 0)
  {
    var (front, last) := (s[..|s| - 1], s[|s| - 1]);
    assert s == front + [last];
    if front == "" {
      assert Value(front) == 0;
      DigitOfValue(last);
    } else {
      DecimalOfValue(front);
      DigitOfValue(last);
      assert front[0] == s[0];
      assert Value(s) / 10 == Value(front) && Value(s) % 10 == DigitValue(last);
    }
  }

  // --- separators ------------------------------------------------------------------------------

  /** Texts that agree, with a separator that occurs in neither first part, agree part by part. */
  lemma SplitAtSeparator(a: string, x: string, b: string, y: string, sep: char)
    requires sep !in a && sep !in b
    requires a + [sep] + x == b + [sep] + y
    ensures a == b && x == y
  {
    var t := a + [sep] + x;
    SeparatorAt(a, x, sep, t);
    SeparatorAt(b, y, sep, t);
    assert |a| == |b|;
    assert a == t[..|a|] == b && x == t[|a| + 1..] == y;
  }

  lemma SeparatorAt(a: string, x: string, sep: char, t: string)
    requires t == a + [sep] + x
    ensures |a| < |t| && t[|a|] == sep && forall i :: 0 <= i < |a| ==> t[i] == a[i]
  {
  }

  /** The same from the end: the separator may occur in the first parts, but in neither last part. */
  lemma SplitAtLastSeparator(a: string, x: string, b: string, y: string, sep: char)
    requires sep !in x && sep !in y
    requires a + [sep] + x == b + [sep] + y
    ensures a == b && x == y
  {
    var t := a + [sep] + x;
    LastSeparatorAt(a, x, sep, t);
    LastSeparatorAt(b, y, sep, t);
    assert |a| == |b|;
    assert a == t[..|a|] == b && x == t[|a| + 1..] == y;
  }

  lemma LastSeparatorAt(a: string, x: string, sep: char, t: string)
    requires t == a + [sep] + x && sep !in x
    ensures |a| < |t| && t[|a|] == sep && forall i :: |a| < i < |t| ==> t[i] != sep
  {
    forall i | |a| < i < |t| ensures t[i] != sep {
      assert t[i] == x[i - |a| - 1];
    }
  }

  lemma DecimalInjective(m: nat, n: nat)
    requires Decimal(m) == Decimal(n)
    ensures m == n
  {
    ValueOfDecimal(m);
    ValueOfDecimal(n);
  }

  lemma DigitsHaveNo(s: string, sep: char)
    requires AllDigits(s) && !IsDigit(sep)
    ensures sep !in s
  {
  }
}
