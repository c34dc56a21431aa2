/**
 * The string operations the core relies on: `toLowerCase`, `includes`, JavaScript whitespace
 * (`trim`, `\s`), ASCII digits (`\d`) and the decimal rendering of a non-negative integer.
 */
module Text {
  import opened Wrappers

  /** Lower-cases one character; only the ASCII letters A-Z are mapped. */
  function LowerChar(c: char): (r: char)
    ensures 'A' <= c <= 'Z' ==> 'a' <= r <= 'z' && r as int - c as int == 32
    ensures !('A' <= c <= 'Z') ==> r == c
  {
    if 'A' <= c <= 'Z' then (c as int + 32) as char else c
  }

  /** `s.toLowerCase()`, restricted to ASCII letters. */
  function ToLower(s: string): (r: string)
    ensures |r| == |s|
    ensures forall i :: 0 <= i < |s| ==> r[i] == LowerChar(s[i])
  {
    seq(|s|, i requires 0 <= i < |s| => LowerChar(s[i]))
  }

  /** Lower-casing twice is lower-casing once. */
  lemma LowerIsIdempotent(s: string)
    ensures ToLower(ToLower(s)) == ToLower(s)
  {
  }

  /** A text that contains a non-empty `sub` contains its first character. */
  lemma ContainsHead(s: string, sub: string)
    requires Contains(s, sub) && sub != []
    ensures sub[0] in s
  {
    var k :| 0 <= k <= |s| - |sub| && OccursAt(s, sub, k);
    assert s[k] == s[k..k + |sub|][0] == sub[0];
  }

  /** `s.includes(sub)`: `sub` occurs in `s` at some position. */
  predicate Contains(s: string, sub: string)
  {
    exists k :: 0 <= k <= |s| - |sub| && OccursAt(s, sub, k)
  }

  /** `sub` occurs in `s` starting at position `k`. */
  predicate OccursAt(s: string, sub: string, k: nat)
  {
    k + |sub| <= |s| && s[k..k + |sub|] == sub
  }

  /** `s.startsWith(p)`. */
  predicate StartsWith(s: string, p: string)
  {
    |p| <= |s| && s[..|p|] == p
  }

  /** The characters matched by `\s` and removed by `trim()`. */
  predicate IsWhitespace(c: char)
  {
    || ('\t' <= c <= '\r')
    || c == ' ' || c == '\U{00A0}' || c == '\U{1680}'
    || ('\U{2000}' <= c <= '\U{200A}')
    || c == '\U{2028}' || c == '\U{2029}' || c == '\U{202F}' || c == '\U{205F}'
    || c == '\U{3000}' || c == '\U{FEFF}'
  }

  /** `s.trim() === ''`. */
  predicate IsBlank(s: string)
  {
    forall i :: 0 <= i < |s| ==> IsWhitespace(s[i])
  }

  /** `\d`: an ASCII digit. */
  predicate IsDigit(c: char)
  {
    '0' <= c <= '9'
  }

  /** The number of leading characters of `s` that are digits. */
  function DigitPrefixLength(s: string): (n: nat)
    ensures n <= |s|
    ensures forall i :: 0 <= i < n ==> IsDigit(s[i])
    ensures n < |s| ==> !IsDigit(s[n])
  {
    if s == [] || !IsDigit(s[0]) then 0 else 1 + DigitPrefixLength(s[1..])
  }

  /** The value of a string of decimal digits (`parseInt` on a digit run). */
  function DigitsValue(ds: string): nat
    requires forall i :: 0 <= i < |ds| ==> IsDigit(ds[i])
  {
    if ds == [] then 0
    else
      assert IsDigit(ds[|ds| - 1]);
      10 * DigitsValue(ds[..|ds| - 1]) + (ds[|ds| - 1] as int - '0' as int)
  }

  /**
   * `run` occurs in `s` at `k`, no digit comes before it and none right after it: with a run of
   * digits, the leftmost maximal one.
   */
  ghost predicate FirstRunAt(s: string, run: string, k: nat)
  {
    && k + |run| <= |s|
    && s[k..k + |run|] == run
    && (forall i :: 0 <= i < k ==> !IsDigit(s[i]))
    && (k + |run| == |s| || !IsDigit(s[k + |run|]))
  }

  /** The first maximal run of digits in `s` (the capture of `s.match(/(\d+)/)`), if any. */
  function FirstDigitRun(s: string): (r: Option<string>)
    ensures r.Some? ==> |r.value| > 0 && forall i :: 0 <= i < |r.value| ==> IsDigit(r.value[i])
    ensures r.Some? ==> exists k: nat :: FirstRunAt(s, r.value, k)
    ensures r.None? <==> forall i :: 0 <= i < |s| ==> !IsDigit(s[i])
  {
    if s == [] then None
    else if IsDigit(s[0]) then
      var n := DigitPrefixLength(s);
      assert FirstRunAt(s, s[..n], 0);
      Some(s[..n])
    else
      assert forall i :: 1 <= i < |s| ==> s[i] == s[1..][i - 1];
      var r := FirstDigitRun(s[1..]);
      assert r.Some? ==> exists k: nat :: FirstRunAt(s, r.value, k) by {
        if r.Some? {
          var k: nat :| FirstRunAt(s[1..], r.value, k);
          FirstRunAfterNonDigit(s, r.value, k);
        }
      }
      r
  }

  /** A run found after a leading non-digit is found one position further in the whole string. */
  lemma FirstRunAfterNonDigit(s: string, run: string, k: nat)
    requires s != [] && !IsDigit(s[0])
    requires FirstRunAt(s[1..], run, k)
    ensures FirstRunAt(s, run, k + 1)
  {
    assert s[1..][k..k + |run|] == s[k + 1..k + 1 + |run|];
    assert forall i :: 1 <= i < k + 1 ==> s[i] == s[1..][i - 1];
  }

  /** One decimal digit. */
  function DigitChar(d: nat): (c: char)
    requires d < 10
    ensures IsDigit(c) && c as int - '0' as int == d
  {
    ('0' as int + d) as char
  }

  /** The decimal rendering of `n` (`String(n)` for a non-negative integer). */
  function Decimal(n: nat): (r: string)
    ensures |r| > 0
    ensures forall i :: 0 <= i < |r| ==> IsDigit(r[i])
    ensures DigitsValue(r) == n
    ensures n >= 10 ==> r[0] != '0'
  {
    if n < 10 then [DigitChar(n)]
    else
      var r := Decimal(n / 10) + [DigitChar(n % 10)];
      assert r[..|r| - 1] == Decimal(n / 10);
      r
  }

  /** Distinct numbers have distinct decimal renderings. */
  lemma DecimalInjective(m: nat, n: nat)
    requires Decimal(m) == Decimal(n)
    ensures m == n
  {
  }

  /** The number of leading characters of `s` that are whitespace. */
  function WhitespacePrefixLength(s: string): (n: nat)
    ensures n <= |s|
    ensures forall i :: 0 <= i < n ==> IsWhitespace(s[i])
    ensures n < |s| ==> !IsWhitespace(s[n])
  {
    if s == [] || !IsWhitespace(s[0]) then 0 else 1 + WhitespacePrefixLength(s[1..])
  }

  /** `s.split(sep)` for a one-character separator: the pieces between separators, empty ones included. */
  function Split(s: string, sep: char): (parts: seq<string>)
    ensures |parts| > 0
    ensures forall i :: 0 <= i < |parts| ==> sep !in parts[i]
  {
    if s == [] then [""]
    else
      var rest := Split(s[1..], sep);
      if s[0] == sep then [""] + rest
      else
        assert forall i :: 1 <= i < |rest| ==> sep !in rest[i];
        [[s[0]] + rest[0]] + rest[1..]
  }

  /** `parts.join(sep)`. */
  function Join(parts: seq<string>, sep: char): string
    requires |parts| > 0
  {
    if |parts| == 1 then parts[0] else parts[0] + [sep] + Join(parts[1..], sep)
  }

  /** Joining the pieces of a split with the separator gives back the text. */
  lemma {:induction false} JoinSplit(s: string, sep: char)
    ensures Join(Split(s, sep), sep) == s
  {
    if s != [] {
      JoinSplit(s[1..], sep);
      var rest := Split(s[1..], sep);
      if s[0] != sep {
        var parts := Split(s, sep);
        if |rest| > 1 {
          assert parts[1..] == rest[1..];
        }
      }
    }
  }

  /** Splitting a join of separator-free pieces gives back the pieces. */
  lemma {:induction false} SplitJoin(parts: seq<string>, sep: char)
    requires |parts| > 0
    requires forall i :: 0 <= i < |parts| ==> sep !in parts[i]
    ensures Split(Join(parts, sep), sep) == parts
    decreases |parts|, |parts[0]|
  {
    var p := parts[0];
    if p == [] {
      if |parts| > 1 {
        SplitJoin(parts[1..], sep);
        var j := Join(parts, sep);
        assert j == [sep] + Join(parts[1..], sep);
        assert j[1..] == Join(parts[1..], sep);
      }
    } else {
      var tail := [p[1..]] + parts[1..];
      assert p[0] != sep by { assert p[0] in p; }
      assert forall i :: 0 <= i < |tail| ==> sep !in tail[i] by {
        assert forall c :: c in p[1..] ==> c in p;
      }
      SplitJoin(tail, sep);
      var j := Join(parts, sep);
      assert Join(tail, sep) == j[1..] by {
        if |parts| > 1 {
          assert tail[1..] == parts[1..];
        }
      }
      assert j[0] == p[0];
      assert Split(j, sep) == [[p[0]] + tail[0]] + tail[1..];
      assert [p[0]] + p[1..] == p;
      assert parts == [p] + parts[1..];
    }
  }

  /** `/^\d+\./`: the line starts with digits followed by a full stop. */
  predicate HasNumberPrefix(line: string)
  {
    var n := DigitPrefixLength(line);
    0 < n < |line| && line[n] == '.'
  }

  /**
   * `line` is `d` digits (at least one), a full stop, `w` whitespace characters and then `rest`,
   * which does not start with whitespace.
   */
  ghost predicate NumberedAs(line: string, d: nat, w: nat, rest: string)
  {
    && d > 0 && d + 1 + w + |rest| == |line|
    && (forall i :: 0 <= i < d ==> IsDigit(line[i]))
    && line[d] == '.'
    && (forall i :: d < i <= d + w ==> IsWhitespace(line[i]))
    && line[d + 1 + w..] == rest
    && (rest == [] || !IsWhitespace(rest[0]))
  }

  /** `line.replace(/^\d+\.\s*\/, '')`: drops a leading "12." and the whitespace after it. */
  function StripNumberPrefix(line: string): (r: string)
    ensures HasNumberPrefix(line) ==> |r| < |line| && r == line[|line| - |r|..]
    ensures HasNumberPrefix(line) ==> exists d: nat, w: nat :: NumberedAs(line, d, w, r)
    ensures !HasNumberPrefix(line) ==> r == line
    ensures r == [] || !HasNumberPrefix(line) || !IsWhitespace(r[0])
  {
    if HasNumberPrefix(line) then
      var d := DigitPrefixLength(line);
      var w := WhitespacePrefixLength(line[d + 1..]);
      var r := line[d + 1 + w..];
      assert forall i :: d < i <= d + w ==> line[i] == line[d + 1..][i - d - 1];
      assert NumberedAs(line, d, w, r);
      r
    else line
  }
}
