/**
 * The JavaScript string operations the application relies on:
 * `includes`, `toLowerCase`, `trim`, `split("-")`, `join("-")`,
 * `String(n)` for non-negative integers and `padStart`.
 * Strings are sequences of characters; a character is a Unicode code
 * point, so a character outside the Basic Multilingual Plane has length 1
 * here where JavaScript counts two UTF-16 code units.
 */
module Text {

  datatype Option<T> = None | Some(value: T)

  // ---------------------------------------------------------------------
  // s.includes(sub)
  // ---------------------------------------------------------------------

  /** `sub` occurs in `s` starting at position `i`. */
  predicate OccursAt(s: string, sub: string, i: int) {
    0 <= i && i + |sub| <= |s| && s[i..i + |sub|] == sub
  }

  /** `s.includes(sub)`. */
  predicate Contains(s: string, sub: string) {
    exists i | 0 <= i <= |s| - |sub| :: OccursAt(s, sub, i)
  }

  lemma ContainsSelf(s: string)
    ensures Contains(s, s)
  {
    assert OccursAt(s, s, 0);
  }

  /** Every slice of a string occurs in it. */
  lemma ContainsSlice(s: string, i: int, j: int)
    requires 0 <= i <= j <= |s|
    ensures Contains(s, s[i..j])
  {
    assert OccursAt(s, s[i..j], i);
  }

  /** Containment is transitive. */
  lemma ContainsTransitive(a: string, b: string, c: string)
    requires Contains(a, b) && Contains(b, c)
    ensures Contains(a, c)
  {
    var i :| 0 <= i <= |a| - |b| && OccursAt(a, b, i);
    var j :| 0 <= j <= |b| - |c| && OccursAt(b, c, j);
    forall k | 0 <= k < |c| ensures a[i + j + k] == c[k] {
      assert c[k] == b[j..j + |c|][k] == b[j + k];
      assert b[j + k] == a[i..i + |b|][j + k];
    }
    assert a[i + j..i + j + |c|] == c;
    assert OccursAt(a, c, i + j);
  }

  /** What occurs in `b` occurs in `a + b`, and `a` itself does too. */
  lemma ContainsConcat(a: string, b: string, sub: string)
    ensures Contains(b, sub) ==> Contains(a + b, sub)
    ensures Contains(a + b, a)
  {
    if Contains(b, sub) {
      var i :| 0 <= i <= |b| - |sub| && OccursAt(b, sub, i);
      assert (a + b)[|a| + i..|a| + i + |sub|] == b[i..i + |sub|];
      assert OccursAt(a + b, sub, |a| + i);
    }
    assert (a + b)[0..|a|] == a;
    assert OccursAt(a + b, a, 0);
  }

  /** A non-empty string whose first character is absent from `s` does not occur in `s`. */
  lemma NotContainsWithoutFirstChar(s: string, sub: string)
    requires |sub| > 0 && sub[0] !in s
    ensures !Contains(s, sub)
  {
  }

  /** Position of the first of `keys` that occurs in `s`, or `|keys|` when none does. */
  function FirstContainedKey(keys: seq<string>, s: string): (i: nat)
    ensures i <= |keys|
    ensures i < |keys| ==> Contains(s, keys[i])
    ensures forall j | 0 <= j < i :: !Contains(s, keys[j])
  {
    if |keys| == 0 then 0
    else if Contains(s, keys[0]) then 0
    else 1 + FirstContainedKey(keys[1..], s)
  }

  /** The scan stops at a contained key when no earlier key is contained. */
  lemma FirstContainedKeyAt(keys: seq<string>, s: string, i: int)
    requires 0 <= i < |keys| && Contains(s, keys[i])
    requires forall j | 0 <= j < i :: !Contains(s, keys[j])
    ensures FirstContainedKey(keys, s) == i
  {
  }

  /** A key that contains an earlier key is never the first match. */
  lemma ShadowedKey(keys: seq<string>, s: string, i: int, k: int)
    requires 0 <= i < k < |keys| && Contains(keys[k], keys[i])
    ensures FirstContainedKey(keys, s) != k
  {
    if FirstContainedKey(keys, s) == k {
      ContainsTransitive(s, keys[k], keys[i]);
    }
  }

  /** Every key before position `i` is non-empty and its first character is absent from `s`. */
  predicate NoInitialBefore(keys: seq<string>, s: string, i: int) {
    forall j | 0 <= j < i && j < |keys| :: |keys[j]| > 0 && keys[j][0] !in s
  }

  /**
   * The scan stops at a contained key when the first character of every
   * earlier key is absent from `s`.
   */
  lemma FirstContainedKeyByFirstChars(keys: seq<string>, s: string, i: int)
    requires 0 <= i <= |keys| && (i < |keys| ==> Contains(s, keys[i]))
    requires NoInitialBefore(keys, s, i)
    ensures FirstContainedKey(keys, s) == i
  {
    forall j | 0 <= j < i ensures !Contains(s, keys[j]) {
      NotContainsWithoutFirstChar(s, keys[j]);
    }
    if i < |keys| {
      FirstContainedKeyAt(keys, s, i);
    }
  }

  // ---------------------------------------------------------------------
  // toLowerCase
  // ---------------------------------------------------------------------

  /** Lower-case mapping of one character; only the ASCII capitals change. */
  function LowerChar(c: char): char {
    if 'A' <= c <= 'Z' then (c as int + 32) as char else c
  }

  /** `s` holds no ASCII capital. */
  predicate NoCapitals(s: string) {
    forall i | 0 <= i < |s| :: !('A' <= s[i] <= 'Z')
  }

  /** `s.toLowerCase()`, character by character. */
  function Lower(s: string): (r: string)
    ensures |r| == |s|
    ensures forall i :: 0 <= i < |s| ==> r[i] == LowerChar(s[i])
  {
    seq(|s|, i requires 0 <= i < |s| => LowerChar(s[i]))
  }

  /** Lower-casing commutes with taking a slice. */
  lemma LowerSlice(s: string, i: int, j: int)
    requires 0 <= i <= j <= |s|
    ensures Lower(s[i..j]) == Lower(s)[i..j]
  {
  }

  /** Lower-casing keeps containment. */
  lemma LowerContains(s: string, sub: string)
    requires Contains(s, sub)
    ensures Contains(Lower(s), Lower(sub))
  {
    var i :| 0 <= i <= |s| - |sub| && OccursAt(s, sub, i);
    LowerSlice(s, i, i + |sub|);
    assert OccursAt(Lower(s), Lower(sub), i);
  }

  // ---------------------------------------------------------------------
  // trim
  // ---------------------------------------------------------------------

  /** The characters `String.prototype.trim` removes: WhiteSpace and LineTerminator of ECMAScript. */
  predicate IsWhitespace(c: char) {
    || c == '\t' || c == '\n' || c == '\U{B}' || c == '\U{C}' || c == '\r' || c == ' '
    || c == '\U{A0}' || c == '\U{1680}' || ('\U{2000}' <= c <= '\U{200A}')
    || c == '\U{2028}' || c == '\U{2029}' || c == '\U{202F}' || c == '\U{205F}'
    || c == '\U{3000}' || c == '\U{FEFF}'
  }

  /** Drops leading whitespace: the result is a suffix starting at the first non-whitespace character. */
  function TrimStart(s: string): (r: string)
    ensures |r| <= |s| && r == s[|s| - |r|..]
    ensures forall i :: 0 <= i < |s| - |r| ==> IsWhitespace(s[i])
    ensures r == [] || !IsWhitespace(r[0])
  {
    if s != [] && IsWhitespace(s[0]) then TrimStart(s[1..]) else s
  }

  /** Drops trailing whitespace: the result is a prefix ending at the last non-whitespace character. */
  function TrimEnd(s: string): (r: string)
    ensures |r| <= |s| && r == s[..|r|]
    ensures forall i :: |r| <= i < |s| ==> IsWhitespace(s[i])
    ensures r == [] || !IsWhitespace(r[|r| - 1])
  {
    if s != [] && IsWhitespace(s[|s| - 1]) then TrimEnd(s[..|s| - 1]) else s
  }

  /** `s.trim()`. */
  function Trim(s: string): string {
    TrimEnd(TrimStart(s))
  }

  /** `s.trim()` is no longer than `s` and neither starts nor ends with whitespace. */
  lemma TrimShape(s: string)
    ensures |Trim(s)| <= |s|
    ensures Trim(s) == [] || (!IsWhitespace(Trim(s)[0]) && !IsWhitespace(Trim(s)[|Trim(s)| - 1]))
  {
    var t := TrimStart(s);
    if Trim(s) != [] {
      assert Trim(s)[0] == t[0];
    }
  }

  /** Trimming adds no capital. */
  lemma TrimNoCapitals(s: string)
    requires NoCapitals(s)
    ensures NoCapitals(Trim(s))
  {
    var t := TrimStart(s);
    var k := |s| - |t|;
    assert Trim(s) == s[k..k + |Trim(s)|];
    SliceNoCapitals(s, k, k + |Trim(s)|);
  }

  lemma SliceNoCapitals(s: string, i: int, j: int)
    requires 0 <= i <= j <= |s| && NoCapitals(s)
    ensures NoCapitals(s[i..j])
  {
    forall k | 0 <= k < j - i ensures !('A' <= s[i..j][k] <= 'Z') {
      assert s[i..j][k] == s[i + k];
    }
  }

  /** `s.trim()` is empty exactly when `s` holds whitespace only. */
  lemma TrimEmpty(s: string)
    ensures Trim(s) == [] <==> forall i :: 0 <= i < |s| ==> IsWhitespace(s[i])
  {
    var t := TrimStart(s);
    if Trim(s) == [] {
      assert t == [];
    } else {
      assert !IsWhitespace(t[0]);
      assert t[0] == s[|s| - |t|];
    }
  }

  /** A string that neither starts nor ends with whitespace is its own trim. */
  lemma TrimIdentity(s: string)
    requires s != [] && !IsWhitespace(s[0]) && !IsWhitespace(s[|s| - 1])
    ensures Trim(s) == s
  {
  }

  // ---------------------------------------------------------------------
  // split("-") and join("-")
  // ---------------------------------------------------------------------

  /** `s.split("-")`: the pieces between hyphens; an empty string gives one empty piece. */
  function Split(s: string): (parts: seq<string>)
    ensures |parts| >= 1
    ensures forall k :: 0 <= k < |parts| ==> '-' !in parts[k]
  {
    if s == [] then [[]]
    else
      var rest := Split(s[1..]);
      if s[0] == '-' then [[]] + rest else [[s[0]] + rest[0]] + rest[1..]
  }

  /** `parts.join(sep)` for a one-character separator. */
  function Join(parts: seq<string>, sep: char): string {
    if |parts| == 0 then []
    else if |parts| == 1 then parts[0]
    else parts[0] + [sep] + Join(parts[1..], sep)
  }

  /** Joining a piece in front of further pieces. */
  lemma JoinCons(x: string, rest: seq<string>, sep: char)
    ensures Join([x] + rest, sep) == if rest == [] then x else x + [sep] + Join(rest, sep)
  {
    assert ([x] + rest)[1..] == rest;
  }

  lemma JoinConsFirst(c: char, p: string, rest: seq<string>, sep: char)
    ensures Join([[c] + p] + rest, sep) == [c] + Join([p] + rest, sep)
  {
    JoinCons([c] + p, rest, sep);
    JoinCons(p, rest, sep);
    if rest != [] {
      var j := Join(rest, sep);
      assert ([c] + p) + [sep] + j == [c] + (p + [sep] + j);
    }
  }

  /** Splitting on hyphens and joining with hyphens gives back the string. */
  lemma {:induction false} JoinSplit(s: string)
    ensures Join(Split(s), '-') == s
  {
    if s != [] {
      var rest := Split(s[1..]);
      JoinSplit(s[1..]);
      if s[0] == '-' {
        assert ([[]] + rest)[1..] == rest;
        assert s == "-" + s[1..];
      } else {
        assert rest == [rest[0]] + rest[1..];
        JoinConsFirst(s[0], rest[0], rest[1..], '-');
        assert s == [s[0]] + s[1..];
      }
    }
  }

  /** Joining splits at any inner piece boundary into two joins separated by one hyphen. */
  lemma {:induction false} JoinAt(parts: seq<string>, i: int, sep: char)
    requires 1 <= i < |parts|
    ensures Join(parts, sep) == Join(parts[..i], sep) + [sep] + Join(parts[i..], sep)
  {
    if i > 1 {
      JoinAt(parts[1..], i - 1, sep);
      assert parts[1..][..i - 1] == parts[..i][1..];
      assert parts[1..][i - 1..] == parts[i..];
      assert parts[..i][0] == parts[0];
    }
  }

  /** Every piece occurs in the joined string. */
  lemma {:induction false} JoinContainsPart(parts: seq<string>, k: int, sep: char)
    requires 0 <= k < |parts|
    ensures Contains(Join(parts, sep), parts[k])
  {
    if |parts| == 1 {
      ContainsSelf(parts[0]);
    } else {
      var tail := Join(parts[1..], sep);
      assert Join(parts, sep) == parts[0] + ([sep] + tail);
      if k == 0 {
        ContainsConcat(parts[0], [sep] + tail, parts[0]);
      } else {
        JoinContainsPart(parts[1..], k - 1, sep);
        ContainsConcat([sep], tail, parts[k]);
        ContainsConcat(parts[0], [sep] + tail, parts[k]);
      }
    }
  }

  /** Every piece of `s.split("-")` occurs in `s`. */
  lemma SplitPartContained(s: string, k: int)
    requires 0 <= k < |Split(s)|
    ensures Contains(s, Split(s)[k])
  {
    JoinSplit(s);
    JoinContainsPart(Split(s), k, '-');
  }

  /** Splitting a hyphen-free segment followed by a hyphen puts that segment first. */
  lemma {:induction false} SplitCons(p: string, rest: string)
    requires '-' !in p
    ensures Split(p + "-" + rest) == [p] + Split(rest)
  {
    if p != [] {
      SplitCons(p[1..], rest);
      assert (p + "-" + rest)[1..] == p[1..] + "-" + rest;
      assert (p + "-" + rest)[0] == p[0];
      assert [p[0]] + p[1..] == p;
    } else {
      assert ("-" + rest)[1..] == rest;
    }
  }

  /** A hyphen-free string splits into itself. */
  lemma {:induction false} SplitSingle(p: string)
    requires '-' !in p
    ensures Split(p) == [p]
  {
    if p != [] {
      SplitSingle(p[1..]);
      assert p == [p[0]] + p[1..];
    }
  }

  /** `s.split("-")` has one more piece than `s` has hyphens. */
  lemma {:induction false} SplitCount(s: string)
    ensures |Split(s)| == multiset(s)['-'] + 1
  {
    if s != [] {
      SplitCount(s[1..]);
      assert s == [s[0]] + s[1..];
      assert multiset(s) == multiset{s[0]} + multiset(s[1..]);
    }
  }

  // ---------------------------------------------------------------------
  // String(n) and padStart
  // ---------------------------------------------------------------------

  function DigitChar(d: int): char
    requires 0 <= d < 10
  {
    ('0' as int + d) as char
  }

  /** Every character of `s` is a decimal digit. */
  predicate IsDigits(s: string) {
    forall i | 0 <= i < |s| :: '0' <= s[i] <= '9'
  }

  /** Digit strings stay digit strings when concatenated. */
  lemma DigitsConcat(a: string, b: string)
    requires IsDigits(a) && IsDigits(b)
    ensures IsDigits(a + b)
  {
    forall i | 0 <= i < |a + b| ensures '0' <= (a + b)[i] <= '9' {
      if i >= |a| {
        assert (a + b)[i] == b[i - |a|];
      }
    }
  }

  /** `String(n)` for a non-negative integer: its decimal digits without leading zeros. */
  function NatToDecimal(n: nat): (r: string)
    ensures |r| >= 1 && IsDigits(r)
    ensures n < 10 ==> |r| == 1
    ensures 10 <= n < 100 ==> |r| == 2
  {
    if n < 10 then [DigitChar(n)] else NatToDecimal(n / 10) + [DigitChar(n % 10)]
  }

  /** The value of a string of decimal digits (leading zeros allowed). */
  function DecimalValue(s: string): int {
    if s == [] then 0 else DecimalValue(s[..|s| - 1]) * 10 + (s[|s| - 1] as int - '0' as int)
  }

  /** Reading back the digits of `String(n)` gives `n`. */
  lemma {:induction false} DecimalRoundTrip(n: nat)
    ensures DecimalValue(NatToDecimal(n)) == n
  {
    if n >= 10 {
      var r := NatToDecimal(n);
      assert r[..|r| - 1] == NatToDecimal(n / 10);
      DecimalRoundTrip(n / 10);
    }
  }

  /** `s.padStart(width, fill)`. */
  function PadStart(s: string, width: nat, fill: char): (r: string)
    ensures |r| == if |s| >= width then |s| else width
    ensures r[|r| - |s|..] == s
    ensures forall i :: 0 <= i < |r| - |s| ==> r[i] == fill
  {
    if |s| >= width then s else seq(width - |s|, _ => fill) + s
  }

  /** `String(n).padStart(2, "0")`. */
  function TwoDigits(n: nat): string {
    PadStart(NatToDecimal(n), 2, '0')
  }

  /** For `n < 100`, `String(n).padStart(2, "0")` is two digits that read back as `n`. */
  lemma TwoDigitsRoundTrip(n: nat)
    requires n < 100
    ensures |TwoDigits(n)| == 2 && IsDigits(TwoDigits(n))
    ensures DecimalValue(TwoDigits(n)) == n
  {
    var t := TwoDigits(n);
    if n < 10 {
      assert t == ['0', DigitChar(n)];
      assert t[..1] == ['0'];
      assert ['0'][..0] == [];
    } else {
      DecimalRoundTrip(n);
    }
  }
}
