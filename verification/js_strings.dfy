/**
 The small slice of JavaScript string and value semantics the editor relies on:
 optional values, truthiness of strings, `trim`, `split` on a literal separator,
 `replace` of the first occurrence of a character, ASCII lower-casing and the
 decimal rendering of a count inside a template literal.

 JavaScript strings are sequences of UTF-16 code units; here a `string` is a
 `seq<char>` of Unicode scalar values, so a character outside the Basic
 Multilingual Plane is one element here but two code units there. Only ASCII
 whitespace and ASCII letters are given meaning.
 */
module JsStrings {

  /** An optional property: `None` when the key is absent (or `undefined`). */
  datatype Option<+T> = None | Some(value: T)

  /** JavaScript truthiness of an optional string: present and not empty. */
  predicate Truthy(o: Option<string>) {
    o.Some? && |o.value| > 0
  }

  /** `o || fallback` for an optional string. */
  function OrElse(o: Option<string>, fallback: string): (r: string)
    ensures Truthy(o) ==> r == o.value
    ensures !Truthy(o) ==> r == fallback
  {
    if Truthy(o) then o.value else fallback
  }

  /** `s || fallback` for a required string (the empty string is falsy). */
  function StrOr(s: string, fallback: string): (r: string)
    ensures |s| > 0 ==> r == s
    ensures |s| == 0 ==> r == fallback
  {
    if |s| > 0 then s else fallback
  }

  // ---------------------------------------------------------------------------
  // Whitespace and trim

  /** The ASCII characters `String.prototype.trim` removes. */
  predicate IsWhitespace(c: char) {
    c == ' ' || c == '\t' || c == '\n' || c == '\r' || c == '\U{000B}' || c == '\U{000C}'
  }

  /** A string made only of whitespace (the empty string included). */
  predicate IsBlank(s: string) {
    forall i :: 0 <= i < |s| ==> IsWhitespace(s[i])
  }

  /** The first position at or after `i` that does not hold whitespace, or
      `|s|` when there is none. */
  function SkipLeading(s: string, i: nat): (k: nat)
    requires i <= |s|
    ensures i <= k <= |s|
    ensures forall m :: i <= m < k ==> IsWhitespace(s[m])
    ensures k < |s| ==> !IsWhitespace(s[k])
    decreases |s| - i
  {
    if i < |s| && IsWhitespace(s[i]) then SkipLeading(s, i + 1) else i
  }

  /** Walking back from `j` towards `lo`, the end of the last character that
      is not whitespace, or `lo` when there is none. */
  function SkipTrailing(s: string, lo: nat, j: nat): (k: nat)
    requires lo <= j <= |s|
    ensures lo <= k <= j
    ensures forall m :: k <= m < j ==> IsWhitespace(s[m])
    ensures k > lo ==> !IsWhitespace(s[k - 1])
    decreases j
  {
    if j > lo && IsWhitespace(s[j - 1]) then SkipTrailing(s, lo, j - 1) else j
  }

  /** `t` occurs in `s` as a contiguous piece. */
  predicate IsInfix(t: string, s: string) {
    exists a, b :: 0 <= a <= b <= |s| && t == s[a..b]
  }

  /** `s.trim()`: the piece of `s` left after cutting a blank prefix and a
      blank suffix, and which neither starts nor ends with whitespace; so it
      is empty exactly when `s` is blank. */
  function Trim(s: string): (r: string)
    ensures |r| <= |s|
    ensures |r| == 0 <==> IsBlank(s)
    ensures |r| > 0 ==> !IsWhitespace(r[0]) && !IsWhitespace(r[|r| - 1])
    ensures exists a, b :: 0 <= a <= b <= |s| && r == s[a..b] && IsBlank(s[..a]) && IsBlank(s[b..])
  {
    var a := SkipLeading(s, 0);
    var b := SkipTrailing(s, a, |s|);
    BlankEnds(s, a, b);
    s[a..b]
  }

  /** The pieces `Trim` cuts off are blank, and when nothing is left the
      whole string is. */
  lemma BlankEnds(s: string, a: nat, b: nat)
    requires a == SkipLeading(s, 0) && b == SkipTrailing(s, a, |s|)
    ensures IsBlank(s[..a]) && IsBlank(s[b..])
    ensures a == b <==> IsBlank(s)
  {
    forall m | 0 <= m < a ensures IsWhitespace(s[..a][m]) {
      assert s[..a][m] == s[m];
    }
    forall m | 0 <= m < |s| - b ensures IsWhitespace(s[b..][m]) {
      assert s[b..][m] == s[b + m];
    }
    if a < b {
      assert !IsWhitespace(s[a]);
    }
  }

  /** A piece of a piece is a piece. */
  lemma InfixOfInfix(u: string, t: string, s: string)
    requires IsInfix(u, t) && IsInfix(t, s)
    ensures IsInfix(u, s)
  {
    var a, b :| 0 <= a <= b <= |t| && u == t[a..b];
    var c, d :| 0 <= c <= d <= |s| && t == s[c..d];
    forall i | 0 <= i < |u| ensures u[i] == s[c + a..c + b][i] {
      assert u[i] == t[a + i];
    }
    assert u == s[c + a..c + b];
  }

  /** Trimming yields a piece of the input. */
  lemma TrimIsInfix(s: string)
    ensures IsInfix(Trim(s), s)
  {
  }

  // ---------------------------------------------------------------------------
  // First occurrence of a character, and `replace` with a string pattern

  /** Index of the first `c` in `s`, or `|s|` when there is none. */
  function IndexOf(s: string, c: char): (k: nat)
    ensures k <= |s|
    ensures k < |s| ==> s[k] == c
    ensures forall j :: 0 <= j < k ==> s[j] != c
    ensures k == |s| <==> c !in s
  {
    if |s| == 0 then 0
    else if s[0] == c then 0
    else 1 + IndexOf(s[1..], c)
  }

  /** `s.replace(c, '')` with a one-character string pattern: only the first
      occurrence is removed. */
  function RemoveFirst(s: string, c: char): (r: string)
    ensures c !in s ==> r == s
    ensures c in s ==> |r| == |s| - 1
    ensures c in s ==> var k := IndexOf(s, c); r[..k] == s[..k] && r[k..] == s[k + 1..]
  {
    var k := IndexOf(s, c);
    if k == |s| then s else s[..k] + s[k + 1..]
  }

  /** Removing the first `c` drops exactly one `c` and keeps every other
      character, counted with multiplicity. */
  lemma RemoveFirstDropsOne(s: string, c: char)
    ensures multiset(RemoveFirst(s, c)) == multiset(s) - multiset{c}
  {
    var k := IndexOf(s, c);
    if k < |s| {
      var front, back := s[..k], s[k + 1..];
      var mid := front + [c];
      assert s == mid + back;
      assert multiset(mid) == multiset(front) + multiset{c};
      assert multiset(s) == multiset(mid) + multiset(back);
      assert RemoveFirst(s, c) == front + back;
      assert multiset(front + back) == multiset(front) + multiset(back);
    } else {
      assert RemoveFirst(s, c) == s;
      assert multiset(s)[c] == 0;
    }
  }

  // ---------------------------------------------------------------------------
  // `split` on the two-character separator backslash followed by `n`

  /** The separator `'\\n'` as written in a JavaScript single-quoted literal:
      a backslash and the letter n, not a line feed. */
  const LiteralBackslashN: string := ['\\', 'n']

  /** Does `s` contain the backslash-n pair somewhere? */
  predicate HasSeparator(s: string) {
    exists i :: 0 <= i < |s| - 1 && s[i] == '\\' && s[i + 1] == 'n'
  }

  /** A piece of a string without the separator has none either. */
  lemma InfixKeepsNoSeparator(t: string, s: string)
    requires IsInfix(t, s) && !HasSeparator(s)
    ensures !HasSeparator(t)
  {
    var a, b :| 0 <= a <= b <= |s| && t == s[a..b];
    forall i | 0 <= i < |t| - 1 ensures !(t[i] == '\\' && t[i + 1] == 'n') {
      assert t[i] == s[a + i] && t[i + 1] == s[a + i + 1];
    }
  }

  /** Joins non-empty `parts` with the separator in between. */
  function JoinOnSeparator(parts: seq<string>): string {
    if |parts| == 0 then ""
    else if |parts| == 1 then parts[0]
    else parts[0] + LiteralBackslashN + JoinOnSeparator(parts[1..])
  }

  /** Scanning step of the split: `cur` is the segment read so far. */
  function SplitFrom(s: string, cur: string): (parts: seq<string>)
    requires !HasSeparator(cur)
    requires !(|cur| > 0 && |s| > 0 && cur[|cur| - 1] == '\\' && s[0] == 'n')
    ensures |parts| >= 1
    ensures JoinOnSeparator(parts) == cur + s
    ensures forall k :: 0 <= k < |parts| ==> !HasSeparator(parts[k])
    decreases |s|
  {
    if |s| < 2 then
      assert !HasSeparator(cur + s) by {
        if |s| == 1 {
          forall i | 0 <= i < |cur + s| - 1
            ensures !((cur + s)[i] == '\\' && (cur + s)[i + 1] == 'n')
          {
            if i < |cur| - 1 {
              assert (cur + s)[i] == cur[i] && (cur + s)[i + 1] == cur[i + 1];
            }
          }
        }
      }
      [cur + s]
    else if s[0] == '\\' && s[1] == 'n' then
      var rest := SplitFrom(s[2..], "");
      assert s == LiteralBackslashN + s[2..];
      [cur] + rest
    else
      var cur' := cur + [s[0]];
      assert !HasSeparator(cur') by {
        forall i | 0 <= i < |cur'| - 1
          ensures !(cur'[i] == '\\' && cur'[i + 1] == 'n')
        {
          if i < |cur| - 1 {
            assert cur'[i] == cur[i] && cur'[i + 1] == cur[i + 1];
          }
        }
      }
      var parts := SplitFrom(s[1..], cur');
      assert cur' + s[1..] == cur + s;
      parts
  }

  /** `s.split('\\n')`: the segments carry no separator and joining them back
      with the separator gives `s` again. */
  function SplitOnSeparator(s: string): (parts: seq<string>)
    ensures |parts| >= 1
    ensures JoinOnSeparator(parts) == s
    ensures forall k :: 0 <= k < |parts| ==> !HasSeparator(parts[k])
  {
    SplitFrom(s, "")
  }

  // ---------------------------------------------------------------------------
  // ASCII classification and case

  predicate IsAsciiAlnum(c: char) {
    ('a' <= c <= 'z') || ('A' <= c <= 'Z') || ('0' <= c <= '9')
  }

  /** `toLowerCase` restricted to ASCII: upper-case letters map to lower case,
      every other character is left alone. */
  function LowerAscii(c: char): (r: char)
    ensures 'A' <= c <= 'Z' ==> 'a' <= r <= 'z' && r as int == c as int + 32
    ensures !('A' <= c <= 'Z') ==> r == c
    ensures IsAsciiAlnum(c) <==> IsAsciiAlnum(r)
  {
    if 'A' <= c <= 'Z' then (c as int - 'A' as int + 'a' as int) as char else c
  }

  // ---------------------------------------------------------------------------
  // Decimal rendering of a natural number, as in `${n}`

  function DigitChar(d: nat): (c: char)
    requires d < 10
    ensures '0' <= c <= '9'
  {
    ('0' as int + d) as char
  }

  /** The digit a character in '0'..'9' stands for. */
  function DigitValue(c: char): nat
    requires '0' <= c <= '9'
  {
    c as int - '0' as int
  }

  predicate AllDigits(s: string) {
    forall i :: 0 <= i < |s| ==> '0' <= s[i] <= '9'
  }

  /** The number a string of decimal digits denotes, most significant first. */
  function DecimalValue(s: string): nat
    requires AllDigits(s)
    decreases |s|
  {
    if |s| == 0 then 0 else 10 * DecimalValue(s[..|s| - 1]) + DigitValue(s[|s| - 1])
  }

  /** `${n}`: the decimal digits of `n`, without leading zeros, which denote
      `n`. */
  function NatToString(n: nat): (s: string)
    ensures |s| >= 1
    ensures AllDigits(s)
    ensures n >= 10 ==> s[0] != '0'
    ensures DecimalValue(s) == n
  {
    if n < 10 then [DigitChar(n)]
    else
      var front := NatToString(n / 10);
      var s := front + [DigitChar(n % 10)];
      assert s[..|s| - 1] == front;
      s
  }

  /** Different numbers print differently. */
  lemma NatToStringInjective(m: nat, n: nat)
    ensures NatToString(m) == NatToString(n) <==> m == n
  {
    if NatToString(m) == NatToString(n) {
      assert DecimalValue(NatToString(m)) == DecimalValue(NatToString(n));
    }
  }
}
