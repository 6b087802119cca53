/**
 * The Python string operations the dashboard applies to cell values and
 * option labels: str.strip(), the pieces of str.split(sep), str.replace of a
 * single character, str() of a missing value, and decimal digits.
 */
module Text {
  import opened Wrappers

  /** The characters for which Python's str.isspace() holds; str.strip() removes exactly these. */
  predicate IsSpace(c: char) {
    ('\t' <= c <= '\r') || ('\U{1C}' <= c <= ' ') || c == '\U{85}' || c == '\U{A0}'
    || c == '\U{1680}' || ('\U{2000}' <= c <= '\U{200A}') || c == '\U{2028}' || c == '\U{2029}'
    || c == '\U{202F}' || c == '\U{205F}' || c == '\U{3000}'
  }

  predicate AllSpace(s: string) {
    forall k :: 0 <= k < |s| ==> IsSpace(s[k])
  }

  /** Neither starts nor ends with whitespace. */
  predicate Trimmed(s: string) {
    s == [] || (!IsSpace(s[0]) && !IsSpace(s[|s| - 1]))
  }

  /** The index of the first character at or after i that is not whitespace, or |s|. */
  function SkipSpaces(s: string, i: nat): (j: nat)
    requires i <= |s|
    ensures i <= j <= |s|
    ensures forall k :: i <= k < j ==> IsSpace(s[k])
    ensures j < |s| ==> !IsSpace(s[j])
    decreases |s| - i
  {
    if i < |s| && IsSpace(s[i]) then SkipSpaces(s, i + 1) else i
  }

  /** The end of s[..i] once its trailing whitespace is dropped. */
  function TrimEnd(s: string, i: nat): (j: nat)
    requires i <= |s|
    ensures j <= i
    ensures forall k :: j <= k < i ==> IsSpace(s[k])
    ensures j > 0 ==> !IsSpace(s[j - 1])
  {
    if i > 0 && IsSpace(s[i - 1]) then TrimEnd(s, i - 1) else i
  }

  /** str.strip(): s without its leading and trailing whitespace. */
  function Strip(s: string): (r: string)
    ensures Trimmed(r)
    ensures |r| <= |s|
  {
    var i, j := SkipSpaces(s, 0), TrimEnd(s, |s|);
    if j <= i then [] else s[i..j]
  }

  /** str.strip() keeps out every character the input did not have. */
  lemma StripKeepsOut(s: string, c: char)
    requires c !in s
    ensures c !in Strip(s)
  {
  }

  /** str.strip() removes exactly the surrounding whitespace and nothing of the trimmed core. */
  lemma {:induction false} StripPadded(a: string, x: string, b: string)
    requires AllSpace(a) && AllSpace(b) && Trimmed(x)
    ensures Strip(a + x + b) == x
  {
    var s := a + x + b;
    var i, j := SkipSpaces(s, 0), TrimEnd(s, |s|);
    if x == [] {
      assert AllSpace(s) by {
        forall k | 0 <= k < |s| ensures IsSpace(s[k]) {
          if k < |a| { assert s[k] == a[k]; } else { assert s[k] == b[k - |a|]; }
        }
      }
      assert i == |s|;
    } else {
      assert s[|a|] == x[0];
      assert s[|a| + |x| - 1] == x[|x| - 1];
      assert forall k :: 0 <= k < |a| ==> s[k] == a[k];
      assert i == |a|;
      assert forall k :: |a| + |x| <= k < |s| ==> s[k] == b[k - |a| - |x|];
      assert j == |a| + |x|;
      assert s[i..j] == x;
    }
  }

  /** Every string is its stripped core with whitespace around it. */
  lemma {:induction false} StripSplits(s: string) returns (a: string, b: string)
    ensures AllSpace(a) && AllSpace(b) && s == a + Strip(s) + b
  {
    var i, j := SkipSpaces(s, 0), TrimEnd(s, |s|);
    if j <= i {
      assert AllSpace(s);
      a, b := s, [];
      assert s == a + [] + b;
    } else {
      a, b := s[..i], s[j..];
      assert s == a + s[i..j] + b;
    }
  }

  /** Stripping a string that is already trimmed changes nothing. */
  lemma {:induction false} StripTrimmed(s: string)
    requires Trimmed(s)
    ensures Strip(s) == s
  {
    StripPadded([], s, []);
    assert [] + s + [] == s;
  }

  /** Appending whitespace does not change what str.strip() returns. */
  lemma {:induction false} StripIgnoresTrailingSpace(s: string, c: char)
    requires IsSpace(c)
    ensures Strip(s + [c]) == Strip(s)
  {
    var a, b := StripSplits(s);
    assert s + [c] == a + Strip(s) + (b + [c]);
    StripPadded(a, Strip(s), b + [c]);
  }

  // ---------------------------------------------------------------------------
  // Occurrences of a separator and the pieces of str.split(sep)

  predicate OccursAt(s: string, pat: string, i: nat) {
    i + |pat| <= |s| && forall k :: 0 <= k < |pat| ==> s[i + k] == pat[k]
  }

  ghost predicate Contains(s: string, pat: string) {
    exists i: nat :: i <= |s| && OccursAt(s, pat, i)
  }

  function FindFrom(s: string, pat: string, i: nat): (r: Option<nat>)
    requires i <= |s|
    ensures r.Some? ==> i <= r.value <= |s| && OccursAt(s, pat, r.value)
    ensures forall j: nat :: i <= j <= |s| && (r.None? || j < r.value) ==> !OccursAt(s, pat, j)
    decreases |s| - i
  {
    if OccursAt(s, pat, i) then Some(i)
    else if i == |s| then None
    else FindFrom(s, pat, i + 1)
  }

  /** The first position at which `pat` occurs in `s` (str.find, with None for -1). */
  function IndexOf(s: string, pat: string): (r: Option<nat>)
    ensures r.Some? ==> r.value <= |s| && OccursAt(s, pat, r.value)
    ensures r.Some? ==> forall j: nat :: j < r.value ==> !OccursAt(s, pat, j)
    ensures r.None? <==> !Contains(s, pat)
  {
    FindFrom(s, pat, 0)
  }

  /** s.split(sep)[0]: everything before the first occurrence of `sep`. */
  function Before(s: string, sep: string): (r: string)
    requires sep != []
    ensures r <= s
    ensures r == s <==> !Contains(s, sep)
    ensures r != s ==> OccursAt(s, sep, |r|)
    ensures r != s ==> IndexOf(s, sep) == Some(|r|)
    ensures !Contains(r, sep)
  {
    match IndexOf(s, sep)
    case None => s
    case Some(i) =>
      var r := s[..i];
      assert forall j: nat :: j <= |r| && OccursAt(r, sep, j) ==> OccursAt(s, sep, j);
      r
  }

  /**
   * s.split(sep)[1]: the piece between the first and the second occurrence of
   * `sep`; None where Python raises IndexError (no occurrence at all).
   */
  function Second(s: string, sep: string): (r: Option<string>)
    requires sep != []
    ensures r.None? <==> !Contains(s, sep)
    ensures r.Some? ==> !Contains(r.value, sep)
    ensures r.Some? ==> var i := |Before(s, sep)| + |sep|;
      i <= |s| && r.value <= s[i..] && (r.value == s[i..] || OccursAt(s, sep, i + |r.value|))
      && forall j :: i <= j < i + |r.value| ==> !OccursAt(s, sep, j)
  {
    match IndexOf(s, sep)
    case None => None
    case Some(i) =>
      var t := s[i + |sep|..];
      var r := Before(t, sep);
      assert r != t ==> OccursAt(s, sep, i + |sep| + |r|) by {
        if r != t {
          forall k | 0 <= k < |sep| ensures s[i + |sep| + |r| + k] == sep[k] {
            assert t[|r| + k] == sep[k];
          }
        }
      }
      assert forall j :: i + |sep| <= j < i + |sep| + |r| ==> !OccursAt(s, sep, j) by {
        forall j | i + |sep| <= j < i + |sep| + |r| && OccursAt(s, sep, j) ensures false {
          var j' := j - i - |sep|;
          assert OccursAt(t, sep, j') by {
            forall k | 0 <= k < |sep| ensures t[j' + k] == sep[k] {
              assert s[j + k] == sep[k];
            }
          }
        }
      }
      Some(r)
  }

  /** Where the first occurrence of `sep` is known, split(sep)[1] is what follows it up to the next one. */
  lemma SecondAfter(s: string, sep: string, i: nat)
    requires sep != [] && IndexOf(s, sep) == Some(i)
    ensures Second(s, sep) == Some(Before(s[i + |sep|..], sep))
  {
  }

  /** s.replace(c, ""): every occurrence of `c` removed, the rest kept in order. */
  function RemoveChar(s: string, c: char): (r: string)
    ensures c !in r && |r| <= |s|
    ensures |r| == |s| - multiset(s)[c]
    ensures c !in s ==> r == s
  {
    if s == [] then []
    else
      assert s == [s[0]] + s[1..];
      (if s[0] == c then [] else [s[0]]) + RemoveChar(s[1..], c)
  }

  lemma {:induction false} RemoveCharConcat(a: string, b: string, c: char)
    ensures RemoveChar(a + b, c) == RemoveChar(a, c) + RemoveChar(b, c)
  {
    if a != [] {
      assert (a + b)[1..] == a[1..] + b;
      RemoveCharConcat(a[1..], b, c);
    } else {
      assert a + b == b;
    }
  }

  /** f"{x}" of a value that may be Python's None. */
  function Show(o: Option<string>): string {
    match o
    case Some(v) => v
    case None => "None"
  }

  /** Python truthiness of a cell value: present and not the empty string. */
  predicate Truthy(o: Option<string>) {
    o.Some? && o.value != ""
  }

  // ---------------------------------------------------------------------------
  // Decimal digits

  predicate IsDigit(c: char) {
    '0' <= c <= '9'
  }

  predicate AllDigits(s: string) {
    forall k :: 0 <= k < |s| ==> IsDigit(s[k])
  }

  function DigitChar(n: nat): (c: char)
    requires n < 10
    ensures IsDigit(c)
  {
    ('0' as int + n) as char
  }

  function DigitValue(c: char): (n: nat)
    requires IsDigit(c)
    ensures n < 10 && DigitChar(n) == c
  {
    c as int - '0' as int
  }

  function Pow10(w: nat): (p: nat)
    ensures p >= 1
  {
    if w == 0 then 1 else 10 * Pow10(w - 1)
  }

  /** The last `width` decimal digits of `n`, zero-padded ("%0*d" for n < 10^width). */
  function Digits(n: nat, width: nat): (r: string)
    ensures |r| == width && AllDigits(r)
  {
    if width == 0 then [] else Digits(n / 10, width - 1) + [DigitChar(n % 10)]
  }

  /** The value of a string of decimal digits, as int() reads it. */
  function Number(s: string): nat
    requires AllDigits(s)
  {
    if s == [] then 0 else Number(s[..|s| - 1]) * 10 + DigitValue(s[|s| - 1])
  }

  /** str(n) for a natural number. */
  function Decimal(n: nat): (r: string)
    ensures r != [] && AllDigits(r)
  {
    if n < 10 then [DigitChar(n)] else Decimal(n / 10) + [DigitChar(n % 10)]
  }

  /** Reading back zero-padded digits gives the number, when it fits the width. */
  lemma {:induction false} NumberOfDigits(n: nat, width: nat)
    requires n < Pow10(width)
    ensures Number(Digits(n, width)) == n
  {
    if width > 0 {
      var s := Digits(n, width);
      assert s[..|s| - 1] == Digits(n / 10, width - 1);
      NumberOfDigits(n / 10, width - 1);
      assert DigitValue(DigitChar(n % 10)) == n % 10;
    }
  }

  /** A digit string is the zero-padded rendering of its own value. */
  lemma {:induction false} DigitsOfNumber(s: string)
    requires AllDigits(s)
    ensures Digits(Number(s), |s|) == s
  {
    if s != [] {
      var init := s[..|s| - 1];
      var v := DigitValue(s[|s| - 1]);
      assert (Number(init) * 10 + v) / 10 == Number(init);
      assert (Number(init) * 10 + v) % 10 == v;
      DigitsOfNumber(init);
      assert s == init + [s[|s| - 1]];
    }
  }

  /** int(str(n)) == n */
  lemma {:induction false} NumberOfDecimal(n: nat)
    ensures Number(Decimal(n)) == n
  {
    if n >= 10 {
      var s := Decimal(n);
      assert s[..|s| - 1] == Decimal(n / 10);
      NumberOfDecimal(n / 10);
      assert DigitValue(DigitChar(n % 10)) == n % 10;
    } else {
      assert DigitValue(DigitChar(n)) == n;
    }
  }
}
