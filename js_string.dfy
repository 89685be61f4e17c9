/**
 * The JavaScript string built-ins the client relies on, stated over `string`
 * (a sequence of UTF-16 code units, one `char` per code unit, so that `|s|`
 * is JavaScript's `s.length`).
 */
module JsString {

  /** A value that may be missing (`undefined`). */
  datatype Option<T> = None | Some(value: T)

  // ---------------------------------------------------------------------------
  // Character classes (the bracket expressions of the client's regular expressions)
  // ---------------------------------------------------------------------------

  predicate IsAsciiUpper(c: char) { 'A' <= c <= 'Z' }

  predicate IsAsciiLower(c: char) { 'a' <= c <= 'z' }

  predicate IsAsciiDigit(c: char) { '0' <= c <= '9' }

  /** `[a-zA-Z0-9]` */
  predicate IsAsciiAlnum(c: char) { IsAsciiUpper(c) || IsAsciiLower(c) || IsAsciiDigit(c) }

  /** `[a-fA-F0-9]` */
  predicate IsHexDigit(c: char) { IsAsciiDigit(c) || 'a' <= c <= 'f' || 'A' <= c <= 'F' }

  /**
   * The code units that `String.prototype.trim` removes: WhiteSpace
   * (TAB, VT, FF, ZWNBSP and the space separators) and LineTerminator.
   */
  predicate IsJsWhitespace(c: char) {
    || c == '\U{0009}' || c == '\U{000A}' || c == '\U{000B}' || c == '\U{000C}' || c == '\U{000D}'
    || c == '\U{0020}' || c == '\U{00A0}' || c == '\U{1680}'
    || ('\U{2000}' <= c <= '\U{200A}')
    || c == '\U{2028}' || c == '\U{2029}' || c == '\U{202F}' || c == '\U{205F}'
    || c == '\U{3000}' || c == '\U{FEFF}'
  }

  /** `!s.trim()`: trimming leaves the empty string exactly when every code unit is whitespace. */
  predicate IsBlank(s: string): (blank: bool)
    ensures s == [] ==> blank
    ensures blank ==> forall i :: 0 <= i < |s| ==> !IsAsciiAlnum(s[i])
  {
    forall i :: 0 <= i < |s| ==> IsJsWhitespace(s[i])
  }

  // ---------------------------------------------------------------------------
  // Lower-casing
  // ---------------------------------------------------------------------------

  /** U+212A KELVIN SIGN: the one code unit outside ASCII that `toLowerCase` maps into ASCII, to "k". */
  const KelvinSign: char := '\U{212A}'

  /**
   * `toLowerCase` on one code unit, for the code units whose lower case is
   * ASCII: A..Z become a..z and the Kelvin sign becomes "k"; every other code
   * unit is kept. Lower-casing into other scripts, and U+0130, which becomes
   * two code units, are not modelled, so `Lower` keeps the length.
   */
  function LowerChar(c: char): (r: char)
    ensures !IsAsciiUpper(r)
    ensures IsHexDigit(r) <==> IsHexDigit(c)
    ensures (r == c) <==> !IsAsciiUpper(c) && c != KelvinSign
    ensures IsAsciiUpper(c) ==> IsAsciiLower(r) && r as int == c as int + 32
    ensures c == KelvinSign ==> r == 'k'
    ensures c != KelvinSign ==> (IsAsciiAlnum(r) <==> IsAsciiAlnum(c))
  {
    if IsAsciiUpper(c) then (c as int + 32) as char
    else if c == KelvinSign then 'k'
    else c
  }

  /** No code unit of `s` is the Kelvin sign, so lower-casing changes only ASCII letters. */
  predicate NoKelvinSign(s: string) {
    forall i :: 0 <= i < |s| ==> s[i] != KelvinSign
  }

  function Lower(s: string): (r: string)
    ensures |r| == |s|
    ensures forall i :: 0 <= i < |s| ==> r[i] == LowerChar(s[i])
  {
    seq(|s|, i requires 0 <= i < |s| => LowerChar(s[i]))
  }

  lemma LowerIdempotent(s: string)
    ensures Lower(Lower(s)) == Lower(s)
  {
  }

  lemma LowerAppend(a: string, b: string)
    ensures Lower(a + b) == Lower(a) + Lower(b)
  {
  }

  // ---------------------------------------------------------------------------
  // Prefix, suffix, substring
  // ---------------------------------------------------------------------------

  /** `s.startsWith(p)` */
  predicate StartsWith(s: string, p: string) {
    |p| <= |s| && s[..|p|] == p
  }

  /** `s.endsWith(p)` */
  predicate EndsWith(s: string, p: string) {
    |p| <= |s| && s[|s| - |p|..] == p
  }

  /** `w` occurs in `s` starting at offset `i`. */
  ghost predicate OccursAt(s: string, w: string, i: int) {
    0 <= i && i + |w| <= |s| && s[i..i + |w|] == w
  }

  /** The specification of a substring: `w` occurs in `s` at some offset. */
  ghost predicate Contains(s: string, w: string) {
    exists i :: OccursAt(s, w, i)
  }

  /** `s.includes(w)`, as a left-to-right scan. */
  function Includes(s: string, w: string): (found: bool)
    ensures found ==> |w| <= |s|
    ensures w == [] ==> found
    decreases |s|
  {
    if |w| > |s| then false
    else if s[..|w|] == w then true
    else Includes(s[1..], w)
  }

  /** The scan finds `w` exactly when `w` occurs in `s`. */
  lemma {:induction false} IncludesIsContains(s: string, w: string)
    ensures Includes(s, w) <==> Contains(s, w)
    decreases |s|
  {
    if |w| > |s| {
    } else if s[..|w|] == w {
      assert OccursAt(s, w, 0);
    } else {
      IncludesIsContains(s[1..], w);
      if Contains(s, w) {
        var i :| OccursAt(s, w, i);
        assert i != 0;
        assert s[1..][i - 1..i - 1 + |w|] == s[i..i + |w|];
        assert OccursAt(s[1..], w, i - 1);
      }
      if Contains(s[1..], w) {
        var j :| OccursAt(s[1..], w, j);
        assert s[j + 1..j + 1 + |w|] == w;
        assert OccursAt(s, w, j + 1);
      }
    }
  }

  lemma ContainsSelf(s: string)
    ensures Contains(s, s)
  {
    assert OccursAt(s, s, 0);
  }

  /** A word occurs only in a string at least as long as itself. */
  lemma ContainsLength(s: string, w: string)
    requires Contains(s, w)
    ensures |w| <= |s|
  {
  }

  /**
   * Lower-casing preserves every occurrence of a word made of code units
   * that lower-casing leaves alone (such as "--").
   */
  lemma ContainsUnderLower(s: string, w: string)
    requires forall k :: 0 <= k < |w| ==> !IsAsciiUpper(w[k]) && !IsAsciiLower(w[k]) && w[k] != KelvinSign
    ensures Contains(Lower(s), w) <==> Contains(s, w)
  {
    var ls := Lower(s);
    if Contains(ls, w) {
      var i :| OccursAt(ls, w, i);
      forall k | 0 <= k < |w| ensures s[i + k] == w[k] {
        assert ls[i + k] == w[k];
      }
      assert OccursAt(s, w, i);
    }
    if Contains(s, w) {
      var i :| OccursAt(s, w, i);
      forall k | 0 <= k < |w| ensures ls[i + k] == w[k] {
        assert s[i + k] == w[k];
      }
      assert OccursAt(ls, w, i);
    }
  }

  // ---------------------------------------------------------------------------
  // String.prototype.slice
  // ---------------------------------------------------------------------------

  /** How `slice` turns a relative index into an offset within `0..len`. */
  function RelativeIndex(k: int, len: nat): (r: nat)
    ensures r <= len
    ensures 0 <= k <= len ==> r == k
    ensures k < 0 && -k <= len ==> r == len + k
  {
    if k < 0 then (if len + k < 0 then 0 else len + k)
    else if k > len then len
    else k
  }

  /** `s.slice(start, end)`: negative indices count from the end; an empty range gives "". */
  function JsSlice(s: string, start: int, end: int): (r: string)
    ensures |r| <= |s|
    ensures 0 <= start <= end <= |s| ==> r == s[start..end]
  {
    var from, to := RelativeIndex(start, |s|), RelativeIndex(end, |s|);
    if from < to then s[from..to] else ""
  }

  /** `s.slice(start)` */
  function JsSliceFrom(s: string, start: int): (r: string)
    ensures |r| <= |s|
    ensures start < 0 && -start <= |s| ==> r == s[|s| + start..]
    ensures start < 0 && -start > |s| ==> r == s
  {
    JsSlice(s, start, |s|)
  }

  // ---------------------------------------------------------------------------
  // Numbers as text
  // ---------------------------------------------------------------------------

  function DigitChar(d: nat): (c: char)
    requires d < 10
    ensures IsAsciiDigit(c) && c as int - '0' as int == d
  {
    ('0' as int + d) as char
  }

  /** The decimal digits of `n`, as template-literal interpolation of a whole number writes them. */
  function DecimalString(n: nat): (r: string)
    ensures 1 <= |r|
    ensures forall i :: 0 <= i < |r| ==> IsAsciiDigit(r[i])
    ensures n < 10 <==> |r| == 1
  {
    if n < 10 then [DigitChar(n)] else DecimalString(n / 10) + [DigitChar(n % 10)]
  }

  /** Reading the digits back gives the number. */
  function DecimalValue(s: string): (n: nat)
    requires forall i :: 0 <= i < |s| ==> IsAsciiDigit(s[i])
  {
    if s == [] then 0
    else
      assert IsAsciiDigit(s[|s| - 1]);
      10 * DecimalValue(s[..|s| - 1]) + (s[|s| - 1] as int - '0' as int)
  }

  lemma {:induction false} DecimalRoundTrip(n: nat)
    ensures DecimalValue(DecimalString(n)) == n
  {
    if n >= 10 {
      DecimalRoundTrip(n / 10);
      var s := DecimalString(n);
      assert s[..|s| - 1] == DecimalString(n / 10);
    }
  }
}
