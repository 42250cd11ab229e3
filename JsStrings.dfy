/**
 * The JavaScript string operations the slider tool relies on, written out over
 * `seq<char>`: `trim`, `startsWith`, `lastIndexOf`, `split(',')[1]`, the
 * `replace(/[^a-zA-Z0-9.-]/g, '_')` sanitiser and the decimal rendering of a
 * non-negative number inside a template literal.
 */
module JsStrings {
  import opened SliderTypes

  // ---------------------------------------------------------------------------
  // String.prototype.trim
  // ---------------------------------------------------------------------------

  /** ECMAScript WhiteSpace and LineTerminator code points, which `trim` removes. */
  predicate IsJsWhitespace(c: char) {
    || c == '\t' || c == '\n' || c == '\U{B}' || c == '\U{C}' || c == '\r' || c == ' '
    || c == '\U{A0}' || c == '\U{1680}' || ('\U{2000}' <= c <= '\U{200A}')
    || c == '\U{2028}' || c == '\U{2029}' || c == '\U{202F}' || c == '\U{205F}'
    || c == '\U{3000}' || c == '\U{FEFF}'
  }

  predicate AllWhitespace(s: string) {
    forall i :: 0 <= i < |s| ==> IsJsWhitespace(s[i])
  }

  /** Drops leading whitespace; the result is a suffix that is empty or starts with a non-space. */
  function TrimStart(s: string): (r: string)
    ensures |r| <= |s| && r == s[|s| - |r|..]
    ensures r == [] <==> AllWhitespace(s)
    ensures r != [] ==> !IsJsWhitespace(r[0])
    ensures AllWhitespace(s[..|s| - |r|])
  {
    if s == [] then []
    else if IsJsWhitespace(s[0]) then
      var t := s[1..];
      var r := TrimStart(t);
      assert r == s[|s| - |r|..] by { assert t[|t| - |r|..] == s[|s| - |r|..]; }
      var cut := s[..|s| - |r|];
      assert AllWhitespace(cut) by {
        forall i | 0 <= i < |cut| ensures IsJsWhitespace(cut[i]) {
          if i > 0 { assert cut[i] == t[..|t| - |r|][i - 1]; }
        }
      }
      assert AllWhitespace(s) ==> AllWhitespace(t) by {
        if AllWhitespace(s) {
          forall i | 0 <= i < |t| ensures IsJsWhitespace(t[i]) { assert t[i] == s[i + 1]; }
        }
      }
      r
    else s
  }

  /** Drops trailing whitespace; the result is a prefix that is empty or ends with a non-space. */
  function TrimEnd(s: string): (r: string)
    ensures |r| <= |s| && r == s[..|r|]
    ensures r == [] <==> AllWhitespace(s)
    ensures r != [] ==> !IsJsWhitespace(r[|r| - 1])
    ensures AllWhitespace(s[|r|..])
  {
    if s == [] then []
    else if IsJsWhitespace(s[|s| - 1]) then
      var r := TrimEnd(s[..|s| - 1]);
      assert s[|r|..] == s[..|s| - 1][|r|..] + [s[|s| - 1]];
      r
    else s
  }

  /** `s.trim()` */
  function Trim(s: string): string {
    TrimEnd(TrimStart(s))
  }

  /**
   * The trimmed string is empty exactly when the string is blank, and otherwise it
   * is a slice of the string that neither starts nor ends with whitespace, with
   * only whitespace cut away on either side.
   */
  lemma TrimSpec(s: string)
    ensures Trim(s) == [] <==> AllWhitespace(s)
    ensures Trim(s) != [] ==>
      exists a, b :: 0 <= a <= b <= |s| && Trim(s) == s[a..b]
        && AllWhitespace(s[..a]) && AllWhitespace(s[b..])
        && !IsJsWhitespace(s[a]) && !IsJsWhitespace(s[b - 1])
  {
    var t := TrimStart(s);
    var a := |s| - |t|;
    if t == [] {
      assert AllWhitespace(t);
    } else {
      var r := TrimEnd(t);
      assert r != [] by { assert !IsJsWhitespace(t[0]); }
      var b := a + |r|;
      assert r == s[a..b];
      assert s[b..] == t[|r|..];
      assert r[0] == t[0];
      assert !AllWhitespace(s) by { assert s[a] == t[0]; }
    }
  }

  /** Trimming twice is trimming once. */
  lemma TrimIdempotent(s: string)
    ensures Trim(Trim(s)) == Trim(s)
  {
    var t := Trim(s);
    if t != [] {
      assert !IsJsWhitespace(t[0]) by {
        var u := TrimStart(s);
        assert t == u[..|t|];
      }
      assert TrimStart(t) == t;
    } else {
      assert TrimStart(t) == [];
    }
  }

  // ---------------------------------------------------------------------------
  // String.prototype.startsWith
  // ---------------------------------------------------------------------------

  /** `s.startsWith(prefix)` */
  predicate StartsWith(s: string, prefix: string) {
    |prefix| <= |s| && s[..|prefix|] == prefix
  }

  // ---------------------------------------------------------------------------
  // String.prototype.lastIndexOf for a single character
  // ---------------------------------------------------------------------------

  /** `s.lastIndexOf(c)`: the index of the last `c`, or -1 when there is none. */
  function LastIndexOf(s: string, c: char): (r: int)
    ensures -1 <= r < |s|
    ensures r == -1 <==> c !in s
    ensures r >= 0 ==> s[r] == c
    ensures forall j :: r < j < |s| ==> s[j] != c
  {
    if s == [] then -1
    else if s[|s| - 1] == c then |s| - 1
    else
      var r := LastIndexOf(s[..|s| - 1], c);
      assert c in s ==> c in s[..|s| - 1] by {
        if c in s {
          var k :| 0 <= k < |s| && s[k] == c;
          assert s[..|s| - 1][k] == c;
        }
      }
      r
  }

  // ---------------------------------------------------------------------------
  // s.split(',')[1]
  // ---------------------------------------------------------------------------

  /** The text before the first comma of `s`, or all of `s` when it has none. */
  function BeforeComma(s: string): (r: string)
    ensures |r| <= |s| && r == s[..|r|] && ',' !in r
    ensures |r| < |s| ==> s[|r|] == ','
  {
    if s == [] || s[0] == ',' then [] else [s[0]] + BeforeComma(s[1..])
  }

  /**
   * `s.split(',')[1]`: `undefined` when `s` has no comma, otherwise the field
   * between the first comma and the second one (or the end of `s`).
   */
  function SecondField(s: string): (r: Option<string>)
    ensures r.None? <==> ',' !in s
    ensures r.Some? ==>
      exists k :: 0 <= k < |s| && s[k] == ',' && ',' !in s[..k]
        && r.value == BeforeComma(s[k + 1..])
  {
    var head := BeforeComma(s);
    if |head| == |s| then
      assert s == head;
      None
    else
      assert s[..|head|] == head;
      Some(BeforeComma(s[|head| + 1..]))
  }

  /** A data URL with a single comma yields everything after that comma. */
  lemma SecondFieldOfDataUrl(header: string, payload: string)
    requires ',' !in header && ',' !in payload
    ensures SecondField(header + "," + payload) == Some(payload)
  {
    var s := header + "," + payload;
    BeforeCommaStops(header, "," + payload);
    assert s[|header| + 1..] == payload;
    BeforeCommaWhole(payload);
  }

  lemma {:induction false} BeforeCommaStops(a: string, b: string)
    requires ',' !in a && b != [] && b[0] == ','
    ensures BeforeComma(a + b) == a
  {
    if a != [] {
      assert (a + b)[1..] == a[1..] + b;
      BeforeCommaStops(a[1..], b);
    } else {
      assert a + b == b;
    }
  }

  lemma {:induction false} BeforeCommaWhole(a: string)
    requires ',' !in a
    ensures BeforeComma(a) == a
  {
    if a != [] {
      BeforeCommaWhole(a[1..]);
    }
  }

  // ---------------------------------------------------------------------------
  // replace(/[^a-zA-Z0-9.-]/g, '_')
  // ---------------------------------------------------------------------------

  /** A character of the class `[a-zA-Z0-9.-]`. */
  predicate IsSafeChar(c: char) {
    ('a' <= c <= 'z') || ('A' <= c <= 'Z') || ('0' <= c <= '9') || c == '.' || c == '-'
  }

  predicate AllSafe(s: string) {
    forall i :: 0 <= i < |s| ==> IsSafeChar(s[i])
  }

  /** Replaces every character outside `[a-zA-Z0-9.-]` by `_`, one for one. */
  function SafeName(s: string): (r: string)
    ensures |r| == |s|
    ensures forall i :: 0 <= i < |s| ==> r[i] == (if IsSafeChar(s[i]) then s[i] else '_')
  {
    if s == [] then []
    else SafeName(s[..|s| - 1]) + [if IsSafeChar(s[|s| - 1]) then s[|s| - 1] else '_']
  }

  /**
   * A sanitised name is as long as the original, every character but the
   * replacement `_` is in `[a-zA-Z0-9.-]`, and sanitising again changes nothing.
   */
  lemma SafeNameIdempotent(s: string)
    ensures SafeName(SafeName(s)) == SafeName(s)
    ensures forall i :: 0 <= i < |s| ==> IsSafeChar(SafeName(s)[i]) || SafeName(s)[i] == '_'
  {
  }

  /** A name that is already safe is left as it is. */
  lemma SafeNameOfSafe(s: string)
    requires AllSafe(s)
    ensures SafeName(s) == s
  {
  }

  /** Sanitising works character by character, so it distributes over concatenation. */
  lemma SafeNameAppend(a: string, b: string)
    ensures SafeName(a + b) == SafeName(a) + SafeName(b)
  {
    assert forall i :: 0 <= i < |b| ==> (a + b)[|a| + i] == b[i];
  }

  /** Sanitising keeps every `.` where it was and creates no new one. */
  lemma SafeNameDots(s: string)
    ensures forall i :: 0 <= i < |s| ==> (SafeName(s)[i] == '.' <==> s[i] == '.')
    ensures LastIndexOf(SafeName(s), '.') == LastIndexOf(s, '.')
  {
  }

  // ---------------------------------------------------------------------------
  // Decimal rendering of a number in a template literal
  // ---------------------------------------------------------------------------

  /** The value of a digit character. */
  function DigitValue(c: char): int {
    c as int - '0' as int
  }

  function DigitChar(d: nat): (c: char)
    requires d < 10
    ensures '0' <= c <= '9' && DigitValue(c) == d
  {
    ('0' as int + d) as char
  }

  /** The number a string of decimal digits denotes, read left to right. */
  function DigitsValue(s: string): int {
    if s == [] then 0 else DigitsValue(s[..|s| - 1]) * 10 + DigitValue(s[|s| - 1])
  }

  /** `${n}` for a non-negative integer: its decimal digits, no sign, no leading zero. */
  function Decimal(n: nat): (s: string)
    ensures s != []
    ensures forall i :: 0 <= i < |s| ==> '0' <= s[i] <= '9'
    ensures |s| > 1 ==> s[0] != '0'
  {
    if n < 10 then [DigitChar(n)] else Decimal(n / 10) + [DigitChar(n % 10)]
  }

  /** The digits `Decimal` writes denote the number itself. */
  lemma {:induction false} DecimalValue(n: nat)
    ensures DigitsValue(Decimal(n)) == n
  {
    var s := Decimal(n);
    if n < 10 {
      assert s[..|s| - 1] == [];
    } else {
      DecimalValue(n / 10);
      assert s[..|s| - 1] == Decimal(n / 10);
    }
  }

  /** Different numbers are written differently. */
  lemma DecimalInjective(m: nat, n: nat)
    ensures Decimal(m) == Decimal(n) ==> m == n
  {
    DecimalValue(m);
    DecimalValue(n);
  }
}
