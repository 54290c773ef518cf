/** The pieces of JavaScript string behaviour the backend relies on:
    `Number#toString()` on non-negative integers, `String#padStart` with a
    one-character pad, and `String#trim` (which Mongoose's `trim: true`
    schema option applies), and the truthiness test `!field` applied to a
    request field. */
module JsText {

  import opened Wrappers

  /** JavaScript truthiness of an optional string field: present and
      non-empty. */
  predicate Truthy(f: Option<string>) {
    f.Some? && f.value != ""
  }

  predicate IsDigit(c: char) {
    '0' <= c <= '9'
  }

  predicate IsDigits(s: string) {
    forall i :: 0 <= i < |s| ==> IsDigit(s[i])
  }

  function DigitChar(d: nat): (c: char)
    requires d < 10
    ensures IsDigit(c)
  {
    '0' + d as char
  }

  function DigitValue(c: char): (d: nat)
    requires IsDigit(c)
    ensures d < 10 && DigitChar(d) == c
  {
    (c - '0') as nat
  }

  /** `n.toString()` for an integer `n >= 0` that a JavaScript number holds
      exactly and writes without an exponent (below 2^53): shortest decimal
      form, no leading zero unless the number is zero. */
  function NumberToString(n: nat): (s: string)
    ensures |s| >= 1 && IsDigits(s)
    ensures n > 0 ==> s[0] != '0'
  {
    if n < 10 then [DigitChar(n)] else NumberToString(n / 10) + [DigitChar(n % 10)]
  }

  /** The number a string of decimal digits denotes (leading zeros allowed). */
  function DecimalValue(s: string): nat
    requires IsDigits(s)
  {
    if s == [] then 0 else DecimalValue(s[..|s| - 1]) * 10 + DigitValue(s[|s| - 1])
  }

  lemma {:induction false} DecimalValueOfNumberToString(n: nat)
    ensures DecimalValue(NumberToString(n)) == n
  {
    var s := NumberToString(n);
    if n >= 10 {
      DecimalValueOfNumberToString(n / 10);
      assert s[..|s| - 1] == NumberToString(n / 10);
    }
  }

  /** `n.toString()` is injective. */
  lemma NumberToStringInjective(m: nat, n: nat)
    requires NumberToString(m) == NumberToString(n)
    ensures m == n
  {
    DecimalValueOfNumberToString(m);
    DecimalValueOfNumberToString(n);
  }

  function Repeat(c: char, k: nat): (r: string)
    ensures |r| == k && forall i :: 0 <= i < k ==> r[i] == c
  {
    if k == 0 then [] else [c] + Repeat(c, k - 1)
  }

  /** `s.padStart(width, fill)` for a one-character `fill`: exactly as long
      as the wider of the text and the width. */
  function PadStart(s: string, width: nat, fill: char): (r: string)
    ensures |r| == (if |s| >= width then |s| else width)
  {
    if |s| >= width then s else Repeat(fill, width - |s|) + s
  }

  /** padStart never truncates: the original text is a suffix of the
      result, and everything before it is padding. */
  lemma PadStartShape(s: string, width: nat, fill: char)
    ensures var r := PadStart(s, width, fill);
      && r[|r| - |s|..] == s
      && forall i :: 0 <= i < |r| - |s| ==> r[i] == fill
  {
  }

  /** Leading zeros do not change the value of a digit string. */
  lemma {:induction false} DecimalValueLeadingZeros(k: nat, s: string)
    requires IsDigits(s)
    ensures IsDigits(Repeat('0', k) + s)
    ensures DecimalValue(Repeat('0', k) + s) == DecimalValue(s)
  {
    var z := Repeat('0', k);
    if s == [] {
      assert z + s == z;
      ZerosValue(k);
    } else {
      var t := z + s;
      assert t[..|t| - 1] == z + s[..|s| - 1];
      DecimalValueLeadingZeros(k, s[..|s| - 1]);
    }
  }

  lemma {:induction false} ZerosValue(k: nat)
    ensures IsDigits(Repeat('0', k)) && DecimalValue(Repeat('0', k)) == 0
  {
    if k > 0 {
      var z := Repeat('0', k);
      assert z[..k - 1] == Repeat('0', k - 1);
      ZerosValue(k - 1);
    }
  }

  /** Zero-padding a number's decimal form keeps its value. */
  lemma PaddedNumberValue(n: nat, width: nat)
    ensures IsDigits(PadStart(NumberToString(n), width, '0'))
    ensures DecimalValue(PadStart(NumberToString(n), width, '0')) == n
  {
    var s := NumberToString(n);
    DecimalValueOfNumberToString(n);
    if |s| < width {
      DecimalValueLeadingZeros(width - |s|, s);
    }
  }

  /** WhiteSpace and LineTerminator code points of ECMAScript (sections
      12.2 and 12.3 of ECMA-262), which `String#trim` removes: tab, vertical
      tab, form feed, space, no-break space, byte order mark, the Unicode
      Space_Separator characters, and LF, CR, LS and PS. */
  predicate IsJsWhitespace(c: char) {
    c == '\t' || c == '\n' || c == '\U{000B}' || c == '\U{000C}' || c == '\r' || c == ' '
    || c == '\U{00A0}' || c == '\U{1680}' || ('\U{2000}' <= c <= '\U{200A}')
    || c == '\U{2028}' || c == '\U{2029}' || c == '\U{202F}' || c == '\U{205F}'
    || c == '\U{3000}' || c == '\U{FEFF}'
  }

  predicate AllWhitespace(s: string) {
    forall i :: 0 <= i < |s| ==> IsJsWhitespace(s[i])
  }

  /** The first position from `from` on that does not hold whitespace
      (`|s|` when there is none): where `trim` starts keeping characters. */
  function WhitespaceEnd(s: string, from: nat): (n: nat)
    requires from <= |s|
    decreases |s| - from
    ensures from <= n <= |s|
    ensures forall k :: from <= k < n ==> IsJsWhitespace(s[k])
    ensures n < |s| ==> !IsJsWhitespace(s[n])
  {
    if from < |s| && IsJsWhitespace(s[from]) then WhitespaceEnd(s, from + 1) else from
  }

  /** Where the run of whitespace that ends at `hi` begins, not going below
      `lo`: where `trim` stops keeping characters. */
  function WhitespaceStart(s: string, lo: nat, hi: nat): (n: nat)
    requires lo <= hi <= |s|
    decreases hi
    ensures lo <= n <= hi
    ensures forall k :: n <= k < hi ==> IsJsWhitespace(s[k])
    ensures n > lo ==> !IsJsWhitespace(s[n - 1])
  {
    if hi > lo && IsJsWhitespace(s[hi - 1]) then WhitespaceStart(s, lo, hi - 1) else hi
  }

  /** `s.trim()`: the input without its leading and trailing whitespace.
      The result is the piece of the input between two cut points with only
      whitespace outside them, and when it is not empty its first and last
      characters are not whitespace. */
  function Trim(s: string): (r: string)
    ensures var i := WhitespaceEnd(s, 0);
      var j := WhitespaceStart(s, i, |s|);
      && i <= j <= |s| && r == s[i..j]
      && (forall k :: 0 <= k < i ==> IsJsWhitespace(s[k]))
      && (forall k :: j <= k < |s| ==> IsJsWhitespace(s[k]))
      && (i < j ==> !IsJsWhitespace(r[0]) && !IsJsWhitespace(r[|r| - 1]))
  {
    var i := WhitespaceEnd(s, 0);
    s[i..WhitespaceStart(s, i, |s|)]
  }

  /** Neither starts nor ends with whitespace. */
  predicate IsTrimmed(s: string) {
    s == [] || (!IsJsWhitespace(s[0]) && !IsJsWhitespace(s[|s| - 1]))
  }

  /** The trimmed strings are exactly those trimming leaves alone, and
      every result of trimming is one. */
  lemma TrimmedIsTrimFixed(s: string)
    ensures IsTrimmed(s) <==> Trim(s) == s
    ensures IsTrimmed(Trim(s))
  {
    var i := WhitespaceEnd(s, 0);
    var j := WhitespaceStart(s, i, |s|);
    var r := Trim(s);
    if i < j {
      assert r[0] == s[i] && r[|r| - 1] == s[j - 1];
    }
    if IsTrimmed(s) && s != [] {
      assert i == 0;
      assert j == |s|;
    }
  }

  /** Trimming twice is trimming once. */
  lemma TrimIdempotent(s: string)
    ensures Trim(Trim(s)) == Trim(s)
  {
    TrimmedIsTrimFixed(s);
    TrimmedIsTrimFixed(Trim(s));
  }

  /** A string is empty after trimming exactly when it is all whitespace. */
  lemma TrimEmpty(s: string)
    ensures Trim(s) == [] <==> AllWhitespace(s)
  {
  }
}
