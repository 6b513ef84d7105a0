/** Character classes, ASCII case mapping and the small string searches shared by
    every scanner of the model.  The source runs on Python `str` and JavaScript
    strings; the model restricts whitespace, digits, letters and case mapping to
    ASCII. */
module Text {
  import opened Wrappers

  const VT: char := '\U{B}'
  const FF: char := '\U{C}'

  predicate IsDigit(c: char) { '0' <= c <= '9' }
  predicate IsUpper(c: char) { 'A' <= c <= 'Z' }
  predicate IsLower(c: char) { 'a' <= c <= 'z' }
  predicate IsLetter(c: char) { IsUpper(c) || IsLower(c) }

  /** Python's `\s`, `str.isspace` and `str.split()` separators, on ASCII. */
  predicate IsSpace(c: char) { c == ' ' || c == '\t' || c == '\n' || c == '\r' || c == VT || c == FF }

  /** The class `[ \t]` collapsed by the listing parser's `clean_space`. */
  predicate IsBlank(c: char) { c == ' ' || c == '\t' }

  /** A regex word character (`\w`, and the sides of `\b`). */
  predicate IsWordChar(c: char) { IsLetter(c) || IsDigit(c) || c == '_' }

  /** The character classes that the scanners repeat with `*`, `+` or `{m,n}`. */
  datatype Cls =
    | Space        // \s
    | Digit        // \d, [0-9]
    | Letter       // [A-Za-z]
    | DigitComma   // [\d,], [0-9,]
    | DigitDot     // [\d\.]
    | Symbol       // [A-Z0-9\.\-] under re.IGNORECASE
    | Cusip        // [A-Z0-9 ] under re.IGNORECASE

  predicate InCls(c: char, k: Cls) {
    match k
    case Space => IsSpace(c)
    case Digit => IsDigit(c)
    case Letter => IsLetter(c)
    case DigitComma => IsDigit(c) || c == ','
    case DigitDot => IsDigit(c) || c == '.'
    case Symbol => IsLetter(c) || IsDigit(c) || c == '.' || c == '-'
    case Cusip => IsLetter(c) || IsDigit(c) || c == ' '
  }

  /** The end of the longest run of class `k` starting at `i` (greedy repetition). */
  function SpanEnd(s: string, i: nat, k: Cls): (e: nat)
    requires i <= |s|
    ensures i <= e <= |s|
    ensures forall j :: i <= j < e ==> InCls(s[j], k)
    ensures e == |s| || !InCls(s[e], k)
    decreases |s| - i
  {
    if i < |s| && InCls(s[i], k) then SpanEnd(s, i + 1, k) else i
  }

  /** A run of class `k` from `i` that stops at `j` ends at `j`. */
  lemma {:induction false} SpanEndIs(s: string, i: nat, j: nat, k: Cls)
    requires i <= j <= |s| && forall p :: i <= p < j ==> InCls(s[p], k)
    requires j == |s| || !InCls(s[j], k)
    ensures SpanEnd(s, i, k) == j
    decreases j - i
  {
    if i < j { SpanEndIs(s, i + 1, j, k); }
  }

  /** Every character of `s[i..j]` is in class `k`. */
  predicate AllIn(s: string, i: nat, j: nat, k: Cls)
    requires i <= j <= |s|
  {
    forall p :: i <= p < j ==> InCls(s[p], k)
  }

  function ToLower(c: char): char { if IsUpper(c) then (c as int + 32) as char else c }
  function ToUpper(c: char): char { if IsLower(c) then (c as int - 32) as char else c }

  /** JavaScript `toLowerCase` and Python `lower`, on ASCII. */
  function Lower(s: string): (r: string)
    ensures |r| == |s|
    ensures forall i :: 0 <= i < |s| ==> r[i] == ToLower(s[i])
  {
    seq(|s|, i requires 0 <= i < |s| => ToLower(s[i]))
  }

  /** JavaScript `toUpperCase` and Python `upper`, on ASCII. */
  function Upper(s: string): (r: string)
    ensures |r| == |s|
    ensures forall i :: 0 <= i < |s| ==> r[i] == ToUpper(s[i])
  {
    seq(|s|, i requires 0 <= i < |s| => ToUpper(s[i]))
  }

  /** `w` occurs in `s` at position `i`. */
  predicate At(s: string, i: nat, w: string) {
    i + |w| <= |s| && s[i..i + |w|] == w
  }

  /** `w` occurs in `s` at position `i`, ignoring ASCII case (`re.IGNORECASE`). */
  predicate IAt(s: string, i: nat, w: string) {
    i + |w| <= |s| && forall k :: 0 <= k < |w| ==> ToLower(s[i + k]) == ToLower(w[k])
  }

  /** The first position at or after `from` where `w` occurs ignoring case. */
  function IFind(s: string, w: string, from: nat): (r: Option<nat>)
    ensures r.Some? ==> from <= r.value && IAt(s, r.value, w)
    ensures r.Some? ==> forall j :: from <= j < r.value ==> !IAt(s, j, w)
    ensures r.None? ==> forall j :: from <= j ==> !IAt(s, j, w)
    decreases |s| - from
  {
    if from + |w| > |s| then None
    else if IAt(s, from, w) then Some(from)
    else IFind(s, w, from + 1)
  }

  /** Substring test: Python `w in s`, JavaScript `s.includes(w)`. */
  predicate Contains(s: string, w: string) {
    exists i :: 0 <= i <= |s| - |w| && At(s, i, w)
  }

  /** Case-insensitive substring test. */
  predicate IContains(s: string, w: string) {
    IFind(s, w, 0).Some?
  }

  /** The value of a string of decimal digits, most significant first. */
  function DigitsValue(s: string): nat
  {
    if s == [] then 0
    else DigitsValue(s[..|s| - 1]) * 10 + DigitVal(s[|s| - 1])
  }

  function DigitVal(c: char): nat { if IsDigit(c) then c as int - '0' as int else 0 }

  /** `s` with every comma removed: Python `s.replace(",", "")`. */
  function RemoveCommas(s: string): (r: string)
    ensures |r| <= |s|
    ensures forall c :: c in r ==> c in s && c != ','
  {
    if s == [] then []
    else (if s[0] == ',' then [] else [s[0]]) + RemoveCommas(s[1..])
  }

  /** The index of the first non-whitespace character of `s` at or after `i`. */
  function LeadEnd(s: string, i: nat): (k: nat)
    requires i <= |s|
    ensures i <= k <= |s|
    ensures forall j :: i <= j < k ==> IsSpace(s[j])
    ensures k == |s| || !IsSpace(s[k])
    decreases |s| - i
  {
    if i < |s| && IsSpace(s[i]) then LeadEnd(s, i + 1) else i
  }

  /** One past the last non-whitespace character of `s[..j]`. */
  function TrailStart(s: string, j: nat): (k: nat)
    requires j <= |s|
    ensures k <= j
    ensures forall p :: k <= p < j ==> IsSpace(s[p])
    ensures k == 0 || !IsSpace(s[k - 1])
  {
    if j > 0 && IsSpace(s[j - 1]) then TrailStart(s, j - 1) else j
  }

  /** Python `str.lstrip()`: drops leading whitespace. */
  function LStrip(s: string): (r: string)
    ensures r == [] || !IsSpace(r[0])
    ensures r == s[LeadEnd(s, 0)..]
  {
    s[LeadEnd(s, 0)..]
  }

  /** Python `str.rstrip()`: drops trailing whitespace. */
  function RStrip(s: string): (r: string)
    ensures r == [] || !IsSpace(r[|r| - 1])
    ensures r == s[..TrailStart(s, |s|)]
  {
    s[..TrailStart(s, |s|)]
  }

  /** Python `str.strip()` and JavaScript `trim()`: no whitespace at either end,
      and what remains is the part between the whitespace runs at the ends. */
  function Strip(s: string): (r: string)
    ensures r == [] || (!IsSpace(r[0]) && !IsSpace(r[|r| - 1]))
    ensures |r| <= |s|
    ensures forall c :: c in r ==> c in s
  {
    RStrip(LStrip(s))
  }

  /** Text with no whitespace at either end is unchanged by stripping. */
  lemma StripIdentity(s: string)
    requires s == [] || (!IsSpace(s[0]) && !IsSpace(s[|s| - 1]))
    ensures LStrip(s) == s && RStrip(s) == s && Strip(s) == s
  {
  }

  /** The characters of `s` that are not whitespace, in order. */
  function NonSpace(s: string): (r: string)
    ensures |r| <= |s|
    ensures forall k :: 0 <= k < |r| ==> !IsSpace(r[k])
  {
    if s == [] then [] else (if IsSpace(s[0]) then [] else [s[0]]) + NonSpace(s[1..])
  }

  lemma {:induction false} NonSpaceConcat(a: string, b: string)
    ensures NonSpace(a + b) == NonSpace(a) + NonSpace(b)
  {
    if a != [] {
      var head := if IsSpace(a[0]) then [] else [a[0]];
      assert (a + b)[0] == a[0] && (a + b)[1..] == a[1..] + b;
      calc {
        NonSpace(a + b);
        head + NonSpace(a[1..] + b);
        { NonSpaceConcat(a[1..], b); }
        head + (NonSpace(a[1..]) + NonSpace(b));
        NonSpace(a) + NonSpace(b);
      }
    } else {
      assert a + b == b;
    }
  }

  /** Whitespace contributes nothing, and text without whitespace is kept
      whole. */
  lemma {:induction false} NonSpaceOfRuns(s: string)
    ensures (forall k :: 0 <= k < |s| ==> IsSpace(s[k])) ==> NonSpace(s) == []
    ensures (forall k :: 0 <= k < |s| ==> !IsSpace(s[k])) ==> NonSpace(s) == s
  {
    if s != [] {
      NonSpaceOfRuns(s[1..]);
      assert s == [s[0]] + s[1..];
    }
  }

  /** Dropping leading whitespace keeps the other characters. */
  lemma LStripKeepsNonSpace(s: string)
    ensures NonSpace(LStrip(s)) == NonSpace(s)
  {
    var i := LeadEnd(s, 0);
    assert s == s[..i] + s[i..];
    NonSpaceConcat(s[..i], s[i..]);
    NonSpaceOfRuns(s[..i]);
  }

  /** Dropping trailing whitespace keeps the other characters. */
  lemma RStripKeepsNonSpace(s: string)
    ensures NonSpace(RStrip(s)) == NonSpace(s)
  {
    var j := TrailStart(s, |s|);
    assert s == s[..j] + s[j..];
    NonSpaceConcat(s[..j], s[j..]);
    NonSpaceOfRuns(s[j..]);
  }

  /** Stripping removes whitespace only. */
  lemma StripKeepsNonSpace(s: string)
    ensures NonSpace(Strip(s)) == NonSpace(s)
  {
    LStripKeepsNonSpace(s);
    RStripKeepsNonSpace(LStrip(s));
  }

  /** The decimal numeral of `n`, as JavaScript's `String(n)` writes it. */
  function NatToString(n: nat): (r: string)
    ensures |r| >= 1
    ensures forall c :: c in r ==> IsDigit(c)
  {
    if n < 10 then [('0' as int + n) as char]
    else NatToString(n / 10) + [('0' as int + n % 10) as char]
  }

  function DigitChar(n: int): char
    requires 0 <= n <= 9
  {
    ('0' as int + n) as char
  }

  /** `n` written with exactly `w` digits, zero-padded on the left. */
  function Pad(n: nat, w: nat): (r: string)
    ensures |r| == w
    ensures forall k :: 0 <= k < w ==> IsDigit(r[k])
  {
    if w == 0 then [] else Pad(n / 10, w - 1) + [DigitChar(n % 10)]
  }

  lemma {:induction false} PadValue(n: nat, w: nat)
    requires n < Pow10(w)
    ensures DigitsValue(Pad(n, w)) == n
  {
    if w > 0 {
      PadValue(n / 10, w - 1);
      var r := Pad(n, w);
      assert r[..|r| - 1] == Pad(n / 10, w - 1);
    }
  }

  function Pow10(w: nat): nat { if w == 0 then 1 else 10 * Pow10(w - 1) }

  /** The leftmost position in `[from, |s|]` where `p` holds: the start that
      `re.search` reports for a pattern whose match at a position is `p`. */
  function FirstWhere(s: string, from: nat, p: nat -> bool): (r: Option<nat>)
    ensures r.Some? ==> from <= r.value <= |s| && p(r.value)
    ensures r.Some? ==> forall j :: from <= j < r.value ==> !p(j)
    ensures r.None? ==> forall j :: from <= j <= |s| ==> !p(j)
    decreases |s| + 1 - from
  {
    if from > |s| then None
    else if p(from) then Some(from)
    else FirstWhere(s, from + 1, p)
  }

  /** `FirstWhere` finds `i` when `p` holds there and nowhere before it. */
  lemma {:induction false} FirstWhereIs(s: string, from: nat, p: nat -> bool, i: nat)
    requires from <= i <= |s| && p(i)
    requires forall j :: from <= j < i ==> !p(j)
    ensures FirstWhere(s, from, p) == Some(i)
    decreases i - from
  {
    if from < i { FirstWhereIs(s, from + 1, p, i); }
  }

  /** The last position in `[lo, hi]` where `p` holds: what a greedy `.*` before
      the rest of a pattern settles on. */
  function LastWhere(lo: nat, hi: nat, p: nat -> bool): (r: Option<nat>)
    ensures r.Some? ==> lo <= r.value <= hi && p(r.value)
    ensures r.Some? ==> forall j :: r.value < j <= hi ==> !p(j)
    ensures r.None? ==> forall j :: lo <= j <= hi ==> !p(j)
    decreases hi
  {
    if hi < lo then None
    else if p(hi) then Some(hi)
    else if hi == lo then None
    else LastWhere(lo, hi - 1, p)
  }

  /** `^` under `re.MULTILINE`: the start of the text or just after a newline. */
  predicate LineStart(s: string, i: nat) {
    i == 0 || (0 < i <= |s| && s[i - 1] == '\n')
  }

  /** The end of the line that contains position `i`: the first `'\n'` at or
      after `i`, or the end of the text. */
  function LineEnd(s: string, i: nat): (e: nat)
    requires i <= |s|
    ensures i <= e <= |s|
    ensures forall j :: i <= j < e ==> s[j] != '\n'
    ensures e == |s| || s[e] == '\n'
    decreases |s| - i
  {
    if i == |s| || s[i] == '\n' then i else LineEnd(s, i + 1)
  }

  lemma {:induction false} RemoveCommasConcat(a: string, b: string)
    ensures RemoveCommas(a + b) == RemoveCommas(a) + RemoveCommas(b)
  {
    if a != [] {
      assert (a + b)[1..] == a[1..] + b;
      RemoveCommasConcat(a[1..], b);
    } else {
      assert a + b == b;
    }
  }

  lemma {:induction false} RemoveCommasNone(a: string)
    requires ',' !in a
    ensures RemoveCommas(a) == a
  {
    if a != [] {
      RemoveCommasNone(a[1..]);
      assert a == [a[0]] + a[1..];
    }
  }

  lemma {:induction false} DigitsValueConcat(a: string, b: string)
    ensures DigitsValue(a + b) == DigitsValue(a) * Pow10(|b|) + DigitsValue(b)
    decreases |b|
  {
    if b != [] {
      var ab := a + b;
      assert ab[..|ab| - 1] == a + b[..|b| - 1];
      DigitsValueConcat(a, b[..|b| - 1]);
    } else {
      assert a + b == a;
    }
  }

  lemma {:induction false} NatToStringValue(n: nat)
    ensures DigitsValue(NatToString(n)) == n
  {
    if n >= 10 {
      NatToStringValue(n / 10);
      var r := NatToString(n);
      assert r[..|r| - 1] == NatToString(n / 10);
    }
  }

  /** String order of JavaScript's `<` and PostgreSQL's text order on the ISO
      dates compared here: lexicographic by character code. */
  predicate LexLess(a: string, b: string)
    decreases |a|
  {
    if a == [] then b != []
    else if b == [] then false
    else if a[0] != b[0] then a[0] < b[0]
    else LexLess(a[1..], b[1..])
  }

  lemma {:induction false} LexLessIrreflexive(a: string)
    ensures !LexLess(a, a)
  {
    if a != [] { LexLessIrreflexive(a[1..]); }
  }

  lemma {:induction false} LexLessTransitive(a: string, b: string, c: string)
    requires LexLess(a, b) && LexLess(b, c)
    ensures LexLess(a, c)
    decreases |a|
  {
    if a != [] && b != [] && c != [] && a[0] == b[0] && b[0] == c[0] {
      LexLessTransitive(a[1..], b[1..], c[1..]);
    }
  }

  lemma {:induction false} LexLessTotal(a: string, b: string)
    ensures a == b || LexLess(a, b) || LexLess(b, a)
    decreases |a|
  {
    if a != [] && b != [] && a[0] == b[0] {
      LexLessTotal(a[1..], b[1..]);
      if a[1..] == b[1..] {
        assert a == [a[0]] + a[1..] && b == [b[0]] + b[1..];
      }
    }
  }

  lemma {:induction false} LexLessAsymmetric(a: string, b: string)
    requires LexLess(a, b)
    ensures !LexLess(b, a)
    decreases |a|
  {
    if a != [] && b != [] && a[0] == b[0] {
      LexLessAsymmetric(a[1..], b[1..]);
    }
  }

  /** -1, 0 or 1 as `a` comes before, with or after `b` in string order. */
  function LexCompare(a: string, b: string): (r: int)
    ensures r == 0 <==> a == b
    ensures r < 0 <==> LexLess(a, b)
    ensures -1 <= r <= 1
  {
    LexLessIrreflexive(a);
    if a == b then 0 else if LexLess(a, b) then -1 else 1
  }

  /** Swapping the arguments negates the comparison. */
  lemma LexCompareAntisymmetric(a: string, b: string)
    ensures LexCompare(a, b) == -LexCompare(b, a)
  {
    if a != b {
      LexLessTotal(a, b);
      if LexLess(a, b) { LexLessAsymmetric(a, b); }
    }
  }
}
