/**
  The few pieces of Python's `str` behaviour the checkpoint relies on:
  `strip()`, `split(',')`, `isalpha()`, `isdigit()`, `in`, `int(...)` of a
  digit string and `str(...)` of a non-negative integer. Character classes
  are the ASCII ones.
 */
module Text {

  /** Python's `str.isspace()` on ASCII: space, \t \n \x0b \x0c \r and \x1c..\x1f. */
  predicate IsSpace(c: char) {
    c == ' ' || ('\t' <= c <= '\r') || ('\U{1C}' <= c <= '\U{1F}')
  }

  predicate IsDigit(c: char) {
    '0' <= c <= '9'
  }

  predicate IsLetter(c: char) {
    ('A' <= c <= 'Z') || ('a' <= c <= 'z')
  }

  /** `s.isalpha()`: false on the empty string. */
  predicate IsAlpha(s: string) {
    |s| > 0 && forall i :: 0 <= i < |s| ==> IsLetter(s[i])
  }

  /** `s.isdigit()`: false on the empty string. */
  predicate IsDigits(s: string) {
    |s| > 0 && forall i :: 0 <= i < |s| ==> IsDigit(s[i])
  }

  predicate AllDigits(s: string) {
    forall i :: 0 <= i < |s| ==> IsDigit(s[i])
  }

  predicate StartsWith(s: string, prefix: string) {
    |prefix| <= |s| && s[..|prefix|] == prefix
  }

  /** `sub in s`: some position of `s` starts a copy of `sub`. */
  predicate Contains(s: string, sub: string)
    decreases |s|
  {
    |sub| <= |s| && (s[..|sub|] == sub || Contains(s[1..], sub))
  }

  lemma {:induction false} ContainsAt(s: string, sub: string, i: nat)
    requires i + |sub| <= |s| && s[i..i + |sub|] == sub
    ensures Contains(s, sub)
    decreases i
  {
    if i > 0 {
      assert s[1..][i - 1..i - 1 + |sub|] == sub;
      ContainsAt(s[1..], sub, i - 1);
    }
  }

  // ---------------------------------------------------------------------------
  // strip()
  // ---------------------------------------------------------------------------

  /** Scanning forward from `i`: the first position that is not whitespace, or `|s|`. */
  function LeadingEnd(s: string, i: nat): (a: nat)
    requires i <= |s|
    ensures i <= a <= |s|
    ensures forall k :: i <= k < a ==> IsSpace(s[k])
    ensures a < |s| ==> !IsSpace(s[a])
    decreases |s| - i
  {
    if i < |s| && IsSpace(s[i]) then LeadingEnd(s, i + 1) else i
  }

  /** Scanning backward from `j` down to `lo`: the end of the last non-whitespace character, or `lo`. */
  function TrailingStart(s: string, lo: nat, j: nat): (b: nat)
    requires lo <= j <= |s|
    ensures lo <= b <= j
    ensures forall k :: b <= k < j ==> IsSpace(s[k])
    ensures b > lo ==> !IsSpace(s[b - 1])
    decreases j
  {
    if j > lo && IsSpace(s[j - 1]) then TrailingStart(s, lo, j - 1) else j
  }

  /** Where the text kept by `strip()` begins. */
  function StripStart(s: string): (a: nat)
    ensures a <= |s|
  {
    LeadingEnd(s, 0)
  }

  /** `s.strip()`: no whitespace left at either end. */
  function Strip(s: string): (r: string)
    ensures |r| <= |s|
    ensures |r| > 0 ==> !IsSpace(r[0]) && !IsSpace(r[|r| - 1])
  {
    var a := StripStart(s);
    var b := TrailingStart(s, a, |s|);
    s[a..b]
  }

  /** What `strip()` removes is whitespace only, and only at the two ends. */
  lemma StripIsInfix(s: string)
    ensures var r := Strip(s); var a := StripStart(s);
      && a + |r| <= |s|
      && r == s[a..a + |r|]
      && (forall i :: 0 <= i < a ==> IsSpace(s[i]))
      && (forall i :: a + |r| <= i < |s| ==> IsSpace(s[i]))
  {
    var a := StripStart(s);
    var b := TrailingStart(s, a, |s|);
    assert Strip(s) == s[a..b];
  }

  /** A string with no whitespace at either end is its own strip. */
  lemma StripUnpadded(s: string)
    requires |s| > 0 ==> !IsSpace(s[0]) && !IsSpace(s[|s| - 1])
    ensures Strip(s) == s
  {
    var a := StripStart(s);
    if |s| > 0 {
      assert a == 0;
      assert TrailingStart(s, 0, |s|) == |s|;
    }
  }

  lemma StripIdempotent(s: string)
    ensures Strip(Strip(s)) == Strip(s)
  {
    StripUnpadded(Strip(s));
  }

  lemma {:induction false} ContainsWitness(s: string, sub: string) returns (i: nat)
    requires Contains(s, sub)
    ensures i + |sub| <= |s| && s[i..i + |sub|] == sub
    decreases |s|
  {
    if s[..|sub|] == sub {
      i := 0;
    } else {
      var j := ContainsWitness(s[1..], sub);
      i := j + 1;
      assert s[i..i + |sub|] == s[1..][j..j + |sub|];
    }
  }

  /**
    Stripping cannot create or destroy an occurrence of a non-empty word
    without whitespace: `w in s.strip()` exactly when `w in s`.
   */
  lemma StripKeepsWord(s: string, w: string)
    requires |w| > 0 && forall k :: 0 <= k < |w| ==> !IsSpace(w[k])
    ensures Contains(Strip(s), w) <==> Contains(s, w)
  {
    StripIsInfix(s);
    if Contains(Strip(s), w) {
      WordOfStripIsWordOf(s, w);
    }
    if Contains(s, w) {
      WordOfIsWordOfStrip(s, w);
    }
  }

  /** An occurrence inside an infix is an occurrence in the whole. */
  lemma ContainsInInfix(s: string, lo: nat, hi: nat, w: string)
    requires lo <= hi <= |s| && Contains(s[lo..hi], w)
    ensures Contains(s, w)
  {
    var i := ContainsWitness(s[lo..hi], w);
    var x, y := s[lo + i..lo + i + |w|], s[lo..hi][i..i + |w|];
    forall k | 0 <= k < |w|
      ensures x[k] == y[k]
    {
      assert x[k] == s[lo + i + k] && y[k] == s[lo..hi][i + k];
    }
    assert x == y;
    ContainsAt(s, w, lo + i);
  }

  /** An occurrence that lies between `lo` and `hi` is an occurrence in that infix. */
  lemma ContainsInsideInfix(s: string, lo: nat, hi: nat, w: string, i: nat)
    requires lo <= i && i + |w| <= hi <= |s| && s[i..i + |w|] == w
    ensures Contains(s[lo..hi], w)
  {
    var x, y := s[lo..hi][i - lo..i - lo + |w|], s[i..i + |w|];
    forall k | 0 <= k < |w|
      ensures x[k] == y[k]
    {
      assert x[k] == s[lo..hi][i - lo + k] && y[k] == s[i + k];
    }
    assert x == y;
    ContainsAt(s[lo..hi], w, i - lo);
  }

  lemma WordOfStripIsWordOf(s: string, w: string)
    requires Contains(Strip(s), w)
    ensures Contains(s, w)
  {
    var r := Strip(s);
    var a := StripStart(s);
    StripIsInfix(s);
    ContainsInInfix(s, a, a + |r|, w);
  }

  lemma WordOfIsWordOfStrip(s: string, w: string)
    requires |w| > 0 && forall k :: 0 <= k < |w| ==> !IsSpace(w[k])
    requires Contains(s, w)
    ensures Contains(Strip(s), w)
  {
    var i := ContainsWitness(s, w);
    var last := i + |w| - 1;
    WitnessEnds(s, w, i);
    StripKeepsInner(s, i, last);
    var a := StripStart(s);
    ContainsInsideInfix(s, a, a + |Strip(s)|, w, i);
  }

  /** An occurrence of `w` at `i` starts and ends with the first and last characters of `w`. */
  lemma WitnessEnds(s: string, w: string, i: nat)
    requires |w| > 0 && i + |w| <= |s| && s[i..i + |w|] == w
    ensures s[i] == w[0] && s[i + |w| - 1] == w[|w| - 1]
  {
    assert s[i..i + |w|][0] == s[i];
    assert s[i..i + |w|][|w| - 1] == s[i + |w| - 1];
  }

  /** Non-whitespace at `i` and at `last` means the whole stretch between them survives `strip()`. */
  lemma StripKeepsInner(s: string, i: nat, last: nat)
    requires i <= last < |s|
    requires !IsSpace(s[i]) && !IsSpace(s[last])
    ensures var a := StripStart(s);
      && a <= i && last < a + |Strip(s)| <= |s|
      && Strip(s) == s[a..a + |Strip(s)|]
  {
    StripIsInfix(s);
  }

  // ---------------------------------------------------------------------------
  // split(sep)
  // ---------------------------------------------------------------------------

  function Occurrences(s: string, c: char): (n: nat)
    ensures n <= |s|
    ensures n == 0 <==> c !in s
    decreases |s|
  {
    if |s| == 0 then 0 else (if s[0] == c then 1 else 0) + Occurrences(s[1..], c)
  }

  /** Counting a character is additive over concatenation. */
  lemma {:induction false} OccurrencesAppend(a: string, b: string, c: char)
    ensures Occurrences(a + b, c) == Occurrences(a, c) + Occurrences(b, c)
    decreases |a|
  {
    if |a| == 0 {
      assert a + b == b;
    } else {
      assert (a + b)[1..] == a[1..] + b;
      OccurrencesAppend(a[1..], b, c);
    }
  }

  /** `sep.join(parts)`. */
  function Join(parts: seq<string>, sep: char): string
    requires |parts| > 0
    decreases |parts|
  {
    if |parts| == 1 then parts[0] else parts[0] + [sep] + Join(parts[1..], sep)
  }

  /**
    `s.split(sep)`: one more field than there are separators, no field holds
    the separator, and joining the fields back gives `s`.
   */
  function Split(s: string, sep: char): (parts: seq<string>)
    ensures |parts| == Occurrences(s, sep) + 1
    ensures forall k :: 0 <= k < |parts| ==> sep !in parts[k]
    ensures Join(parts, sep) == s
    decreases |s|
  {
    if |s| == 0 then
      [""]
    else
      var rest := Split(s[1..], sep);
      if s[0] == sep then
        assert s == [sep] + s[1..];
        [""] + rest
      else
        var parts := [[s[0]] + rest[0]] + rest[1..];
        assert parts[1..] == rest[1..];
        assert Join(parts, sep) == [s[0]] + Join(rest, sep);
        assert s == [s[0]] + s[1..];
        parts
  }

  /** Fields free of the separator survive a join followed by a split. */
  lemma {:induction false} SplitJoin(parts: seq<string>, sep: char)
    requires |parts| > 0
    requires forall k :: 0 <= k < |parts| ==> sep !in parts[k]
    ensures Split(Join(parts, sep), sep) == parts
    decreases |parts|
  {
    if |parts| == 1 {
      SplitWithout(parts[0], sep);
    } else {
      SplitJoin(parts[1..], sep);
      SplitAfterField(parts[0], Join(parts[1..], sep), sep);
      assert parts == [parts[0]] + parts[1..];
    }
  }

  lemma {:induction false} SplitWithout(s: string, sep: char)
    requires sep !in s
    ensures Split(s, sep) == [s]
    decreases |s|
  {
    if |s| > 0 {
      SplitWithout(s[1..], sep);
      assert s == [s[0]] + s[1..];
    }
  }

  lemma {:induction false} SplitAfterField(field: string, tail: string, sep: char)
    requires sep !in field
    ensures Split(field + [sep] + tail, sep) == [field] + Split(tail, sep)
    decreases |field|
  {
    var s := field + [sep] + tail;
    if |field| == 0 {
      assert s[0] == sep && s[1..] == tail;
    } else {
      assert s[0] == field[0] != sep;
      assert s[1..] == field[1..] + [sep] + tail;
      SplitAfterField(field[1..], tail, sep);
      var rest := Split(s[1..], sep);
      assert rest == [field[1..]] + Split(tail, sep);
      assert rest[0] == field[1..] && rest[1..] == Split(tail, sep);
      assert Split(s, sep) == [[s[0]] + rest[0]] + rest[1..];
      assert [field[0]] + field[1..] == field;
    }
  }

  // ---------------------------------------------------------------------------
  // digits, int(...) and str(...)
  // ---------------------------------------------------------------------------

  /** `''.join(c for c in s if c.isdigit())`. */
  function KeepDigits(s: string): (r: string)
    ensures AllDigits(r)
    ensures |r| <= |s|
    ensures |r| == 0 <==> forall i :: 0 <= i < |s| ==> !IsDigit(s[i])
    ensures AllDigits(s) ==> r == s
    ensures |s| == 1 && !IsDigit(s[0]) ==> r == ""
    decreases |s|
  {
    if |s| == 0 then
      ""
    else
      var rest := KeepDigits(s[1..]);
      assert forall i :: 1 <= i < |s| ==> s[i] == s[1..][i - 1];
      if IsDigit(s[0]) then [s[0]] + rest else rest
  }

  /**
    Keeping digits commutes with concatenation: the digits of `a + b` are
    those of `a` followed by those of `b`. With the one-character case this
    says the result is the digits of `s`, all of them, in their order.
   */
  lemma {:induction false} KeepDigitsAppend(a: string, b: string)
    ensures KeepDigits(a + b) == KeepDigits(a) + KeepDigits(b)
    decreases |a|
  {
    if |a| == 0 {
      assert a + b == b;
    } else {
      assert (a + b)[1..] == a[1..] + b;
      KeepDigitsAppend(a[1..], b);
    }
  }

  function DigitValue(c: char): nat
    requires IsDigit(c)
  {
    (c as int) - ('0' as int)
  }

  function DigitChar(d: nat): (c: char)
    requires d < 10
    ensures IsDigit(c) && DigitValue(c) == d
  {
    (('0' as int) + d) as char
  }

  /** `int(ds)` for a string of decimal digits (leading zeros allowed; "" is 0). */
  function DecimalValue(ds: string): nat
    requires AllDigits(ds)
    decreases |ds|
  {
    if |ds| == 0 then 0 else DecimalValue(ds[..|ds| - 1]) * 10 + DigitValue(ds[|ds| - 1])
  }

  /** `str(n)` for `n >= 0`: a canonical decimal numeral that `int(...)` reads back as `n`. */
  function NatToString(n: nat): (s: string)
    ensures |s| > 0 && AllDigits(s)
    ensures DecimalValue(s) == n
    ensures s[0] == '0' <==> n == 0
    decreases n
  {
    if n < 10 then
      [DigitChar(n)]
    else
      var front := NatToString(n / 10);
      var s := front + [DigitChar(n % 10)];
      assert s[..|s| - 1] == front;
      s
  }
}
