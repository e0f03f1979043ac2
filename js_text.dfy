/**
 * The parts of JavaScript's string library that the gateway's identifier
 * handling relies on, stated over `string` (a sequence of Unicode scalar
 * values): `String.prototype.trim`, `toLowerCase` for the characters whose
 * lower case is ASCII, `startsWith`,
 * `split` on a one-character separator (and its inverse, `join`), the regular
 * expression classes `\d` and `.`, and `parseInt(s, 10)`.
 */
module JsText {

  datatype Option<+T> = None | Some(value: T)

  // ---------------------------------------------------------------------
  // Character classes
  // ---------------------------------------------------------------------

  /** ECMAScript WhiteSpace: TAB, VT, FF, ZWNBSP and the Zs category. */
  predicate IsWhiteSpace(c: char) {
    c == '\U{9}' || c == '\U{B}' || c == '\U{C}' || c == ' ' || c == '\U{A0}' || c == '\U{FEFF}'
    || c == '\U{1680}' || ('\U{2000}' <= c <= '\U{200A}') || c == '\U{202F}' || c == '\U{205F}'
    || c == '\U{3000}'
  }

  /** ECMAScript LineTerminator: LF, CR, LINE SEPARATOR, PARAGRAPH SEPARATOR. */
  predicate IsLineTerminator(c: char) {
    c == '\n' || c == '\r' || c == '\U{2028}' || c == '\U{2029}'
  }

  /** The code points `trim` removes (and `parseInt` skips). */
  predicate IsTrimmable(c: char) {
    IsWhiteSpace(c) || IsLineTerminator(c)
  }

  predicate AllTrimmable(s: string) {
    forall i :: 0 <= i < |s| ==> IsTrimmable(s[i])
  }

  /** `s` has nothing `trim` would remove. */
  predicate IsTrimmed(s: string) {
    s == [] || (!IsTrimmable(s[0]) && !IsTrimmable(s[|s| - 1]))
  }

  /** The regular-expression class `\d`: ASCII digits only. */
  predicate IsDigit(c: char) {
    '0' <= c <= '9'
  }

  /** A non-empty run of `\d`, i.e. what `\d+` matches. */
  predicate IsDigits(s: string) {
    |s| > 0 && forall i :: 0 <= i < |s| ==> IsDigit(s[i])
  }

  /** Every character matches the regular-expression `.` (no `s` flag). */
  predicate MatchesDots(s: string) {
    forall i :: 0 <= i < |s| ==> !IsLineTerminator(s[i])
  }

  // ---------------------------------------------------------------------
  // trim
  // ---------------------------------------------------------------------

  /** The first index at or after `i` holding a character `trim` keeps, or `|s|`. */
  function SkipLeading(s: string, i: nat): (n: nat)
    requires i <= |s|
    ensures i <= n <= |s|
    ensures forall k :: i <= k < n ==> IsTrimmable(s[k])
    ensures n == |s| || !IsTrimmable(s[n])
    decreases |s| - i
  {
    if i < |s| && IsTrimmable(s[i]) then SkipLeading(s, i + 1) else i
  }

  /** The end of `s[lo..j]` once the trailing characters `trim` removes are dropped. */
  function SkipTrailing(s: string, lo: nat, j: nat): (n: nat)
    requires lo <= j <= |s|
    ensures lo <= n <= j
    ensures forall k :: n <= k < j ==> IsTrimmable(s[k])
    ensures n == lo || !IsTrimmable(s[n - 1])
    decreases j
  {
    if j > lo && IsTrimmable(s[j - 1]) then SkipTrailing(s, lo, j - 1) else j
  }

  /** `String.prototype.trim`. */
  function Trim(s: string): (r: string)
    ensures IsTrimmed(r)
    ensures exists k :: 0 <= k <= |s| - |r| && r == s[k..k + |r|]
                        && AllTrimmable(s[..k]) && AllTrimmable(s[k + |r|..])
  {
    var a := SkipLeading(s, 0);
    var b := SkipTrailing(s, a, |s|);
    var r := s[a..b];
    assert r == [] || (r[0] == s[a] && r[|r| - 1] == s[b - 1]);
    assert AllTrimmable(s[..a]) && AllTrimmable(s[b..]);
    r
  }

  /** The leading run of removable characters ends at the first kept one. */
  lemma SkipLeadingAt(s: string, i: nat, n: nat)
    requires i <= n <= |s|
    requires forall k :: i <= k < n ==> IsTrimmable(s[k])
    requires n == |s| || !IsTrimmable(s[n])
    ensures SkipLeading(s, i) == n
  {
  }

  /** The trailing run of removable characters starts after the last kept one. */
  lemma SkipTrailingAt(s: string, lo: nat, j: nat, n: nat)
    requires lo <= n <= j <= |s|
    requires forall k :: n <= k < j ==> IsTrimmable(s[k])
    requires n == lo || !IsTrimmable(s[n - 1])
    ensures SkipTrailing(s, lo, j) == n
  {
  }

  /** Trimming removes exactly the padding around a trimmed core. */
  lemma TrimPadded(p: string, r: string, q: string)
    requires AllTrimmable(p) && AllTrimmable(q) && IsTrimmed(r)
    ensures Trim(p + r + q) == r
  {
    var s := p + r + q;
    assert forall k :: 0 <= k < |p| ==> s[k] == p[k];
    assert forall k :: |p| + |r| <= k < |s| ==> s[k] == q[k - |p| - |r|];
    if r == [] {
      SkipLeadingAt(s, 0, |s|);
      SkipTrailingAt(s, |s|, |s|, |s|);
    } else {
      assert s[|p|] == r[0] && s[|p| + |r| - 1] == r[|r| - 1];
      SkipLeadingAt(s, 0, |p|);
      SkipTrailingAt(s, |p|, |s|, |p| + |r|);
      assert s[|p|..|p| + |r|] == r;
    }
  }

  /** Trimming only removes characters: nothing outside `s` is in `Trim(s)`. */
  lemma TrimKeepsOut(s: string, c: char)
    requires c !in s
    ensures c !in Trim(s)
  {
    var a := SkipLeading(s, 0);
    SliceKeepsOut(s, a, SkipTrailing(s, a, |s|), c);
  }

  lemma SliceKeepsOut(s: string, i: nat, j: nat, c: char)
    requires c !in s && i <= j <= |s|
    ensures c !in s[i..j]
  {
    forall k | 0 <= k < j - i
      ensures s[i..j][k] != c
    {
      assert s[i..j][k] == s[i + k];
    }
  }

  /** `trim` is idempotent. */
  lemma TrimIdempotent(s: string)
    ensures Trim(Trim(s)) == Trim(s)
  {
    var r := Trim(s);
    assert [] + r + [] == r;
    TrimPadded([], r, []);
  }

  // ---------------------------------------------------------------------
  // toLowerCase, startsWith
  // ---------------------------------------------------------------------

  /** KELVIN SIGN, the one non-ASCII character whose lower case is a single ASCII letter (`k`). */
  const Kelvin: char := '\U{212A}'

  /** Lower case of one character, for the characters whose lower case is ASCII. */
  function LowerChar(c: char): char {
    if 'A' <= c <= 'Z' then (c as int + 32) as char
    else if c == Kelvin then 'k'
    else c
  }

  /** `toLowerCase`, restricted to the characters whose lower case is ASCII. */
  function ToLower(s: string): string {
    seq(|s|, i requires 0 <= i < |s| => LowerChar(s[i]))
  }

  /**
   * Lowercasing changes only letters that have an ASCII lower case, leaves
   * nothing for a second pass to change, and keeps the length.
   */
  lemma ToLowerOnlyFoldsCase(s: string)
    ensures |ToLower(s)| == |s|
    ensures forall i :: 0 <= i < |s| ==> ToLower(s)[i] == s[i] || 'A' <= s[i] <= 'Z' || s[i] == Kelvin
    ensures forall i :: 0 <= i < |s| ==> 'a' <= ToLower(s)[i] <= 'z' || ToLower(s)[i] == s[i]
    ensures ToLower(ToLower(s)) == ToLower(s)
  {
  }

  /** `u` spells `k` up to ASCII letter case. */
  predicate SameLetters(u: string, k: string) {
    |u| == |k| && forall i :: 0 <= i < |u| ==> LowerChar(u[i]) == LowerChar(k[i])
  }

  lemma ToLowerConcat(a: string, b: string)
    ensures ToLower(a + b) == ToLower(a) + ToLower(b)
  {
  }

  function StartsWith(s: string, prefix: string): bool {
    |prefix| <= |s| && s[..|prefix|] == prefix
  }

  // ---------------------------------------------------------------------
  // Decimal digits
  // ---------------------------------------------------------------------

  /** The value of a (possibly empty) run of ASCII digits. */
  function DecimalValue(s: string): nat
    requires forall i :: 0 <= i < |s| ==> IsDigit(s[i])
  {
    if s == [] then 0 else DecimalValue(s[..|s| - 1]) * 10 + DigitValue(s[|s| - 1])
  }

  function DigitValue(c: char): nat
    requires IsDigit(c)
  {
    c as int - '0' as int
  }

  function DigitChar(d: nat): char
    requires d < 10
  {
    ('0' as int + d) as char
  }

  /** The canonical decimal spelling of `n`: digits only, no leading zero. */
  function NatToDecimal(n: nat): (r: string)
    ensures IsDigits(r)
    ensures DecimalValue(r) == n
    ensures r[0] == '0' ==> r == "0"
  {
    if n < 10 then [DigitChar(n)]
    else
      var r := NatToDecimal(n / 10) + [DigitChar(n % 10)];
      assert r[..|r| - 1] == NatToDecimal(n / 10);
      r
  }

  /** A leading `0` does not change the value of a digit run. */
  lemma {:induction false} LeadingZeroIgnored(s: string)
    requires forall i :: 0 <= i < |s| ==> IsDigit(s[i])
    ensures DecimalValue("0" + s) == DecimalValue(s)
  {
    if s != [] {
      assert ("0" + s)[..|"0" + s| - 1] == "0" + s[..|s| - 1];
      LeadingZeroIgnored(s[..|s| - 1]);
    }
  }

  // ---------------------------------------------------------------------
  // parseInt(s, 10)
  // ---------------------------------------------------------------------

  /** The longest prefix of `s` made of ASCII digits. */
  function DigitPrefix(s: string): (r: string)
    ensures |r| <= |s| && r == s[..|r|]
    ensures forall i :: 0 <= i < |r| ==> IsDigit(r[i])
    ensures |r| < |s| ==> !IsDigit(s[|r|])
  {
    if s != [] && IsDigit(s[0]) then [s[0]] + DigitPrefix(s[1..]) else []
  }

  /**
   * `parseInt(s, 10)`: skip leading white space, read an optional sign, then
   * the longest run of digits; `None` stands for NaN (no digit at all).
   */
  function ParseInt10(s: string): Option<int> {
    var t := s[SkipLeading(s, 0)..];
    var negative := t != [] && t[0] == '-';
    var body := if t != [] && (t[0] == '-' || t[0] == '+') then t[1..] else t;
    var digits := DigitPrefix(body);
    if digits == [] then None
    else
      var magnitude: int := DecimalValue(digits);
      Some(if negative then -magnitude else magnitude)
  }

  /** On a `\d+` match `parseInt` never yields NaN: it is the decimal value. */
  lemma ParseInt10OfDigits(s: string)
    requires IsDigits(s)
    ensures ParseInt10(s) == Some(DecimalValue(s))
  {
    assert IsDigit(s[0]) && !IsTrimmable(s[0]);
    SkipLeadingAt(s, 0, 0);
    assert s[0] != '-' && s[0] != '+';
    DigitPrefixOfDigits(s);
  }

  /**
   * `parseInt` reads only the leading digits: whatever follows the first
   * non-digit is ignored.
   */
  lemma ParseInt10ReadsDigitPrefix(d: string, c: char, rest: string)
    requires IsDigits(d) && !IsDigit(c)
    ensures ParseInt10(d + [c] + rest) == Some(DecimalValue(d))
  {
    var s := d + [c] + rest;
    assert s[0] == d[0] && IsDigit(s[0]) && !IsTrimmable(s[0]);
    SkipLeadingAt(s, 0, 0);
    assert s[0] != '-' && s[0] != '+';
    DigitPrefixStops(d, c, rest);
  }

  lemma {:induction false} DigitPrefixStops(d: string, c: char, rest: string)
    requires forall i :: 0 <= i < |d| ==> IsDigit(d[i])
    requires !IsDigit(c)
    ensures DigitPrefix(d + [c] + rest) == d
  {
    if d == [] {
      assert d + [c] + rest == [c] + rest;
    } else {
      var s := d + [c] + rest;
      assert s[0] == d[0];
      assert s[1..] == d[1..] + [c] + rest;
      DigitPrefixStops(d[1..], c, rest);
    }
  }

  lemma {:induction false} DigitPrefixOfDigits(s: string)
    requires forall i :: 0 <= i < |s| ==> IsDigit(s[i])
    ensures DigitPrefix(s) == s
  {
    if s != [] {
      DigitPrefixOfDigits(s[1..]);
    }
  }

  // ---------------------------------------------------------------------
  // split / join on a single-character separator
  // ---------------------------------------------------------------------

  /** Number of occurrences of `c` in `s`. */
  function Occurrences(s: string, c: char): nat {
    if s == [] then 0 else (if s[0] == c then 1 else 0) + Occurrences(s[1..], c)
  }

  /** `s.split(sep)` for a one-character separator; `"".split(",")` is `[""]`. */
  function Split(s: string, sep: char): (r: seq<string>)
    ensures |r| >= 1
  {
    if s == [] then [""]
    else
      var rest := Split(s[1..], sep);
      if s[0] == sep then [""] + rest
      else [[s[0]] + rest[0]] + rest[1..]
  }

  /** `split` yields one more piece than there are separators. */
  lemma {:induction false} SplitCount(s: string, sep: char)
    ensures |Split(s, sep)| == Occurrences(s, sep) + 1
  {
    if s != [] {
      SplitCount(s[1..], sep);
    }
  }

  /** No piece of a `split` holds the separator. */
  lemma {:induction false} SplitPiecesFree(s: string, sep: char)
    ensures forall i :: 0 <= i < |Split(s, sep)| ==> sep !in Split(s, sep)[i]
  {
    if s != [] {
      SplitPiecesFree(s[1..], sep);
      var rest := Split(s[1..], sep);
      if s[0] != sep {
        assert sep !in [s[0]] + rest[0];
      }
    }
  }

  /** `parts.join(sep)`. */
  function Join(parts: seq<string>, sep: char): string {
    if parts == [] then ""
    else if |parts| == 1 then parts[0]
    else parts[0] + [sep] + Join(parts[1..], sep)
  }

  /** Joining the pieces again gives back the split string. */
  lemma {:induction false} JoinSplit(s: string, sep: char)
    ensures Join(Split(s, sep), sep) == s
  {
    if s != [] {
      var c, tail := s[0], s[1..];
      assert s == [c] + tail;
      JoinSplit(tail, sep);
      SplitStep(c, tail, sep);
      var rest := Split(tail, sep);
      if c == sep {
        JoinCons("", rest, sep);
      } else if |rest| == 1 {
        JoinCons([c] + rest[0], [], sep);
        assert rest == [rest[0]] + [];
        JoinCons(rest[0], [], sep);
      } else {
        assert rest == [rest[0]] + rest[1..];
        JoinCons([c] + rest[0], rest[1..], sep);
        JoinCons(rest[0], rest[1..], sep);
        Associative([c] + rest[0], [sep], Join(rest[1..], sep));
        Associative([c], rest[0], [sep] + Join(rest[1..], sep));
        Associative(rest[0], [sep], Join(rest[1..], sep));
      }
    }
  }

  /** `join` of a list with first piece `x`, in terms of the rest. */
  lemma JoinCons(x: string, rest: seq<string>, sep: char)
    ensures Join([x] + rest, sep) == if rest == [] then x else x + [sep] + Join(rest, sep)
  {
    DropFirstOfConcat([x], rest);
  }

  /** Splitting a join of separator-free pieces gives the pieces back. */
  lemma {:induction false} SplitJoin(parts: seq<string>, sep: char)
    requires |parts| > 0
    requires forall i :: 0 <= i < |parts| ==> sep !in parts[i]
    ensures Split(Join(parts, sep), sep) == parts
  {
    if |parts| == 1 {
      SplitFree(parts[0], sep);
    } else {
      SplitJoin(parts[1..], sep);
      SplitFree(parts[0], sep);
      SplitConcat(parts[0], Join(parts[1..], sep), sep);
      assert [parts[0]] + parts[1..] == parts;
    }
  }

  lemma {:induction false} SplitFree(s: string, sep: char)
    requires sep !in s
    ensures Split(s, sep) == [s]
  {
    if s != [] {
      assert s[0] != sep && sep !in s[1..];
      SplitFree(s[1..], sep);
      assert [s[0]] + s[1..] == s;
    }
  }

  /** Splitting at a separator splits the two sides independently. */
  lemma {:induction false} SplitConcat(a: string, b: string, sep: char)
    ensures Split(a + [sep] + b, sep) == Split(a, sep) + Split(b, sep)
  {
    if a == [] {
      assert a + [sep] + b == [sep] + b;
      SplitStep(sep, b, sep);
    } else {
      SplitConcat(a[1..], b, sep);
      assert a == [a[0]] + a[1..];
      SplitConcatCons(a[0], a[1..], b, sep);
    }
  }

  lemma SplitConcatCons(c: char, tail: string, b: string, sep: char)
    requires Split(tail + [sep] + b, sep) == Split(tail, sep) + Split(b, sep)
    ensures Split([c] + tail + [sep] + b, sep) == Split([c] + tail, sep) + Split(b, sep)
  {
    Associative([c], tail, [sep]);
    Associative([c], tail + [sep], b);
    SplitStep(c, tail + [sep] + b, sep);
    SplitStep(c, tail, sep);
    var left, right := Split(tail, sep), Split(b, sep);
    if c != sep {
      DropFirstOfConcat(left, right);
      Associative([[c] + left[0]], left[1..], right);
    } else {
      Associative([""], left, right);
    }
  }

  lemma Associative<T>(x: seq<T>, y: seq<T>, z: seq<T>)
    ensures x + (y + z) == (x + y) + z
  {
  }

  lemma DropFirstOfConcat<T>(x: seq<T>, y: seq<T>)
    requires |x| >= 1
    ensures (x + y)[0] == x[0] && (x + y)[1..] == x[1..] + y
  {
  }

  /** `split` of a string with first character `c`, in terms of the rest. */
  lemma SplitStep(c: char, t: string, sep: char)
    ensures Split([c] + t, sep)
            == if c == sep then [""] + Split(t, sep) else [[c] + Split(t, sep)[0]] + Split(t, sep)[1..]
  {
    assert ([c] + t)[1..] == t;
  }
}
