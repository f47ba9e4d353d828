/** The optional value used throughout the model for JavaScript's `null` / `undefined`. */
module Wrappers {
  datatype Option<+T> = None | Some(value: T) {
    function GetOr(default: T): T {
      match this
      case Some(v) => v
      case None => default
    }
  }
}

/**
 * The small pieces of JavaScript string behaviour the dashboard relies on:
 * `indexOf` / `String.prototype.replace` with a string pattern, the `.` of a
 * regular expression (which stops at a line terminator), `Number.prototype.toString`
 * on a non-negative integer, `padStart`, and `parseInt(text, 10)`.
 */
module Text {
  import opened Wrappers

  // ---------------------------------------------------------------------------
  // Searching and replacing

  /** `p` occurs in `s` starting at index `i`. */
  predicate OccursAt(s: string, p: string, i: nat) {
    i + |p| <= |s| && s[i..i + |p|] == p
  }

  /** The first occurrence of `p` in `s` at or after index `from`. */
  function IndexFrom(s: string, p: string, from: nat): (r: Option<nat>)
    decreases |s| - from
    ensures r.Some? ==> from <= r.value && OccursAt(s, p, r.value)
    ensures r.Some? ==> forall k :: from <= k < r.value ==> !OccursAt(s, p, k)
    ensures r.None? ==> forall k :: from <= k ==> !OccursAt(s, p, k)
  {
    if from + |p| > |s| then None
    else if s[from..from + |p|] == p then Some(from)
    else IndexFrom(s, p, from + 1)
  }

  /** JavaScript `s.indexOf(p)`, with `None` for -1. */
  function IndexOf(s: string, p: string): Option<nat> {
    IndexFrom(s, p, 0)
  }

  /** The first occurrence is wherever `p` occurs with no earlier occurrence. */
  lemma IndexOfFirst(s: string, p: string, i: nat)
    requires OccursAt(s, p, i)
    requires forall k :: 0 <= k < i ==> !OccursAt(s, p, k)
    ensures IndexOf(s, p) == Some(i)
  {
    var r := IndexOf(s, p);
    assert OccursAt(s, p, r.value);
  }

  /**
   * When the first character of `p` does not appear in `s[..i]` and `p` occurs at
   * `i`, then `i` is the first occurrence.
   */
  lemma IndexOfByFirstChar(s: string, p: string, i: nat)
    requires |p| > 0 && OccursAt(s, p, i)
    requires forall k :: 0 <= k < i ==> s[k] != p[0]
    ensures IndexOf(s, p) == Some(i)
  {
    forall k | 0 <= k < i
      ensures !OccursAt(s, p, k)
    {
      if k + |p| <= |s| {
        assert s[k..k + |p|][0] == s[k] != p[0];
      }
    }
    IndexOfFirst(s, p, i);
  }

  /** JavaScript `s.replace(p, r)` with a string pattern: only the first occurrence is replaced. */
  function ReplaceFirst(s: string, p: string, r: string): (t: string)
    ensures IndexOf(s, p).None? ==> t == s
    ensures IndexOf(s, p).Some? ==>
      var i := IndexOf(s, p).value;
      |t| == |s| - |p| + |r| && t[..i] == s[..i] && t[i..i + |r|] == r && t[i + |r|..] == s[i + |p|..]
  {
    match IndexOf(s, p)
    case None => s
    case Some(i) => s[..i] + r + s[i + |p|..]
  }

  // ---------------------------------------------------------------------------
  // Lines

  /** The characters a regular-expression `.` does not match. */
  predicate IsLineTerminator(c: char) {
    c == '\n' || c == '\r' || c == '\U{2028}' || c == '\U{2029}'
  }

  predicate NoLineTerminator(s: string) {
    forall i :: 0 <= i < |s| ==> !IsLineTerminator(s[i])
  }

  /** What a greedy `(.*)` captures at the start of `s`: everything up to the first line terminator. */
  function TakeLine(s: string): (r: string)
    ensures |r| <= |s| && r == s[..|r|]
    ensures NoLineTerminator(r)
    ensures |r| < |s| ==> IsLineTerminator(s[|r|])
  {
    if s == [] || IsLineTerminator(s[0]) then []
    else [s[0]] + TakeLine(s[1..])
  }

  lemma {:induction false} TakeLineWhole(s: string)
    requires NoLineTerminator(s)
    ensures TakeLine(s) == s
  {
    if s != [] {
      TakeLineWhole(s[1..]);
    }
  }

  // ---------------------------------------------------------------------------
  // Decimal numerals

  predicate IsDigit(c: char) {
    '0' <= c <= '9'
  }

  predicate AllDigits(s: string) {
    forall i :: 0 <= i < |s| ==> IsDigit(s[i])
  }

  function DigitChar(d: nat): (c: char)
    requires d < 10
    ensures IsDigit(c) && DigitValue(c) == d
  {
    ('0' as int + d) as char
  }

  function DigitValue(c: char): nat
    requires IsDigit(c)
  {
    c as int - '0' as int
  }

  /** The value of a string of decimal digits (leading zeros allowed). */
  function DecimalValue(s: string): nat
    requires AllDigits(s)
  {
    if s == [] then 0 else DecimalValue(s[..|s| - 1]) * 10 + DigitValue(s[|s| - 1])
  }

  /** `n.toString()` for a non-negative integer: decimal digits, no leading zero. */
  function NatToString(n: nat): (r: string)
    ensures |r| >= 1 && AllDigits(r)
    ensures |r| > 1 ==> r[0] != '0'
  {
    if n < 10 then [DigitChar(n)] else NatToString(n / 10) + [DigitChar(n % 10)]
  }

  lemma {:induction false} NatToStringValue(n: nat)
    ensures DecimalValue(NatToString(n)) == n
  {
    if n >= 10 {
      var s := NatToString(n);
      assert s[..|s| - 1] == NatToString(n / 10);
      NatToStringValue(n / 10);
    }
  }

  /** The number of leading decimal digits of `s`. */
  function DigitSpan(s: string): (k: nat)
    ensures k <= |s| && AllDigits(s[..k])
    ensures k < |s| ==> !IsDigit(s[k])
  {
    if s == [] || !IsDigit(s[0]) then 0
    else
      var k := 1 + DigitSpan(s[1..]);
      assert s[..k] == [s[0]] + s[1..][..k - 1];
      k
  }

  lemma {:induction false} DigitSpanPrefix(a: string, b: string)
    requires AllDigits(a)
    requires b == [] || !IsDigit(b[0])
    ensures DigitSpan(a + b) == |a|
  {
    if a != [] {
      assert (a + b)[1..] == a[1..] + b;
      DigitSpanPrefix(a[1..], b);
    }
  }

  /** Splits `s` into the value of its leading digits and the rest, `None` when it has no leading digit. */
  function LeadingNumber(s: string): (r: Option<(nat, string)>)
    ensures r.Some? ==> |r.value.1| < |s|
  {
    var k := DigitSpan(s);
    if k == 0 then None else Some((DecimalValue(s[..k]), s[k..]))
  }

  /** Reading back a printed number: `NatToString` followed by a non-digit is parsed to the same number. */
  lemma LeadingNumberOfNatToString(n: nat, tail: string)
    requires tail == [] || !IsDigit(tail[0])
    ensures LeadingNumber(NatToString(n) + tail) == Some((n, tail))
  {
    var s := NatToString(n);
    DigitSpanPrefix(s, tail);
    assert (s + tail)[..|s|] == s;
    assert (s + tail)[|s|..] == tail;
    NatToStringValue(n);
  }

  /** `s.padStart(2, '0')`. */
  function PadStart2(s: string): (r: string)
    ensures |s| < 2 ==> |r| == 2 && r[2 - |s|..] == s
    ensures |s| < 2 ==> forall i :: 0 <= i < 2 - |s| ==> r[i] == '0'
    ensures |s| >= 2 ==> r == s
  {
    if |s| < 2 then seq(2 - |s|, _ => '0') + s else s
  }

  // ---------------------------------------------------------------------------
  // parseInt(text, 10)

  /** The white-space and line-terminator characters that `parseInt` skips at the start. */
  predicate IsJsWhiteSpace(c: char) {
    c == ' ' || c == '\t' || c == '\n' || c == '\r' || c == '\U{000B}' || c == '\U{000C}'
    || c == '\U{00A0}' || c == '\U{1680}' || ('\U{2000}' <= c <= '\U{200A}')
    || c == '\U{2028}' || c == '\U{2029}' || c == '\U{202F}' || c == '\U{205F}'
    || c == '\U{3000}' || c == '\U{FEFF}'
  }

  function TrimStart(s: string): (r: string)
    ensures |r| <= |s| && r == s[|s| - |r|..]
    ensures r == [] || !IsJsWhiteSpace(r[0])
    ensures forall i :: 0 <= i < |s| - |r| ==> IsJsWhiteSpace(s[i])
  {
    if s != [] && IsJsWhiteSpace(s[0]) then TrimStart(s[1..]) else s
  }

  /**
   * `parseInt(text, 10)`: skip leading white space, read an optional sign and the
   * longest run of decimal digits; `None` stands for `NaN` (no digit).
   */
  function ParseInt(text: string): (r: Option<int>)
    ensures var t := TrimStart(text);
      var body := if t != [] && (t[0] == '-' || t[0] == '+') then t[1..] else t;
      && (r.None? <==> body == [] || !IsDigit(body[0]))
      && (r.Some? ==> var v: int := DecimalValue(body[..DigitSpan(body)]);
            r.value == (if t[0] == '-' then -v else v))
  {
    var t := TrimStart(text);
    var negative := t != [] && t[0] == '-';
    var body := if t != [] && (t[0] == '-' || t[0] == '+') then t[1..] else t;
    match LeadingNumber(body)
    case None => None
    case Some((v, _)) => var x: int := v; Some(if negative then -x else x)
  }

  /** A printed non-negative integer parses back to itself. */
  lemma ParseIntOfNatToString(n: nat)
    ensures ParseInt(NatToString(n)) == Some(n)
  {
    var s := NatToString(n);
    assert !IsJsWhiteSpace(s[0]);
    assert TrimStart(s) == s;
    assert s + [] == s;
    LeadingNumberOfNatToString(n, []);
    assert LeadingNumber(s) == Some((n, []));
  }

  // ---------------------------------------------------------------------------
  // Clock arithmetic

  /** Whole minutes of a millisecond count are the whole minutes of its whole seconds. */
  lemma MillisToSeconds(ms: nat)
    ensures ms / 60000 == (ms / 1000) / 60
  {
    var q, r := ms / 1000, ms % 1000;
    var a, b := q / 60, q % 60;
    assert ms == a * 60000 + (b * 1000 + r);
    assert 0 <= b * 1000 + r < 60000;
  }

  /** Minutes modulo 60 and seconds modulo 60 together give the seconds modulo one hour. */
  lemma MinutesAndSeconds(q: nat)
    ensures ((q / 60) % 60) * 60 + q % 60 == q % 3600
  {
    var a, r := q / 3600, q % 3600;
    var m, s := r / 60, r % 60;
    assert q == a * 3600 + r;
    assert q == (a * 60 + m) * 60 + s;
    assert q / 60 == a * 60 + m && q % 60 == s;
    assert (a * 60 + m) % 60 == m;
  }
}
