/** The part of Python's `datetime.strptime` that the parsers rely on: the
    directives `%Y`, `%m`, `%d`, `%b`, `%B`, literal characters and runs of
    whitespace in the format, matched the way `_strptime` does it.  A format is
    turned into a regular expression whose alternatives are tried in a fixed
    order with backtracking; the first match wins, it must reach the end of the
    text, and the fields must then form a real calendar date. */
module DateFormats {
  import opened Wrappers
  import opened Text

  /** A calendar date (proleptic Gregorian, like `datetime.date`). */
  datatype Date = Date(year: int, month: int, day: int)

  predicate IsLeap(y: int) { (y % 4 == 0 && y % 100 != 0) || y % 400 == 0 }

  function DaysInMonth(y: int, m: int): int {
    if m == 2 then (if IsLeap(y) then 29 else 28)
    else if m == 4 || m == 6 || m == 9 || m == 11 then 30
    else 31
  }

  /** What `datetime.date(year, month, day)` accepts (years up to 9999). */
  predicate ValidDate(d: Date) {
    1 <= d.year <= 9999 && 1 <= d.month <= 12 && 1 <= d.day <= DaysInMonth(d.year, d.month)
  }

  /** One element of a format string after `_strptime` has compiled it. */
  datatype Tok =
    | Year             // %Y   \d\d\d\d
    | MonthNum         // %m   1[0-2]|0[1-9]|[1-9]
    | Day              // %d   3[01]|[12]\d|0[1-9]|[1-9]| [1-9]
    | MonthAbbr        // %b   jan|feb|...  (case-insensitive)
    | MonthFull        // %B   january|...  (case-insensitive)
    | Lit(c: char)     // a literal character such as '-', '/' or ','
    | Spaces           // whitespace in the format: \s+

  type Format = seq<Tok>

  /** "%Y-%m-%d" */
  const FmtIsoDash: Format := [Year, Lit('-'), MonthNum, Lit('-'), Day]
  /** "%d-%m-%Y" */
  const FmtDayDash: Format := [Day, Lit('-'), MonthNum, Lit('-'), Year]
  /** "%Y/%m/%d" */
  const FmtIsoSlash: Format := [Year, Lit('/'), MonthNum, Lit('/'), Day]
  /** "%d/%m/%Y" */
  const FmtDaySlash: Format := [Day, Lit('/'), MonthNum, Lit('/'), Year]
  /** "%d-%b-%Y" */
  const FmtDayAbbr: Format := [Day, Lit('-'), MonthAbbr, Lit('-'), Year]
  /** "%B %d, %Y" */
  const FmtLong: Format := [MonthFull, Spaces, Day, Lit(','), Spaces, Year]
  /** "%b %d, %Y" */
  const FmtShort: Format := [MonthAbbr, Spaces, Day, Lit(','), Spaces, Year]

  const MonthNames: seq<string> := ["january", "february", "march", "april", "may", "june", "july",
                                    "august", "september", "october", "november", "december"]
  const MonthAbbrs: seq<string> := ["jan", "feb", "mar", "apr", "may", "jun", "jul",
                                    "aug", "sep", "oct", "nov", "dec"]

  /** Which field a directive fills. */
  datatype Slot = NoSlot | YearSlot | MonthSlot | DaySlot

  function SlotOf(t: Tok): Slot {
    match t
    case Year => YearSlot
    case MonthNum => MonthSlot
    case MonthAbbr => MonthSlot
    case MonthFull => MonthSlot
    case Day => DaySlot
    case _ => NoSlot
  }

  /** One way a directive can match at a position: where it ends and the value it reads. */
  datatype Cand = Cand(end: nat, val: int)

  /** The value of the two digits at `i`. */
  function Two(s: string, i: nat): int
    requires i + 2 <= |s|
  {
    DigitVal(s[i]) * 10 + DigitVal(s[i + 1])
  }

  /** The month names (1-based) that occur at `i`, ignoring case.  No name is a
      prefix of another, so at most one of them matches; the order of the
      alternation in `_strptime` therefore does not matter. */
  function NameCands(s: string, i: nat, names: seq<string>, k: nat): seq<Cand>
    requires k <= |names|
    decreases |names| - k
  {
    if k == |names| then []
    else (if IAt(s, i, names[k]) then [Cand(i + |names[k]|, k + 1)] else [])
         + NameCands(s, i, names, k + 1)
  }

  /** The ends of a run of at least one whitespace character at `i`, longest first. */
  function SpaceCands(i: nat, e: nat): seq<Cand>
    requires i <= e
    decreases e - i
  {
    if e == i then [] else [Cand(e, 0)] + SpaceCands(i, e - 1)
  }

  function D(s: string, i: nat): bool { i < |s| && IsDigit(s[i]) }
  function C(s: string, i: nat, c: char): bool { i < |s| && s[i] == c }
  function R(s: string, i: nat, lo: char, hi: char): bool { i < |s| && lo <= s[i] <= hi }

  /** Every way token `t` can match at position `i`, in the order the regular
      expression tries them. */
  function Cands(t: Tok, s: string, i: nat): (cs: seq<Cand>)
    requires i <= |s|
    ensures forall k :: 0 <= k < |cs| ==> i < cs[k].end <= |s|
  {
    match t
    case Year =>
      if D(s, i) && D(s, i + 1) && D(s, i + 2) && D(s, i + 3)
      then [Cand(i + 4, DigitsValue(s[i..i + 4]))] else []
    case MonthNum =>
      (if C(s, i, '1') && R(s, i + 1, '0', '2') then [Cand(i + 2, Two(s, i))] else [])
      + (if C(s, i, '0') && R(s, i + 1, '1', '9') then [Cand(i + 2, Two(s, i))] else [])
      + (if R(s, i, '1', '9') then [Cand(i + 1, DigitVal(s[i]))] else [])
    case Day =>
      (if C(s, i, '3') && R(s, i + 1, '0', '1') then [Cand(i + 2, Two(s, i))] else [])
      + (if R(s, i, '1', '2') && D(s, i + 1) then [Cand(i + 2, Two(s, i))] else [])
      + (if C(s, i, '0') && R(s, i + 1, '1', '9') then [Cand(i + 2, Two(s, i))] else [])
      + (if R(s, i, '1', '9') then [Cand(i + 1, DigitVal(s[i]))] else [])
      + (if C(s, i, ' ') && R(s, i + 1, '1', '9') then [Cand(i + 2, DigitVal(s[i + 1]))] else [])
    case MonthAbbr => NameCandsBounded(s, i, MonthAbbrs)
    case MonthFull => NameCandsBounded(s, i, MonthNames)
    case Lit(c) => if C(s, i, c) then [Cand(i + 1, 0)] else []
    case Spaces => SpaceCandsBounded(s, i)
  }

  function NameCandsBounded(s: string, i: nat, names: seq<string>): (cs: seq<Cand>)
    requires forall k :: 0 <= k < |names| ==> |names[k]| > 0
    ensures forall k :: 0 <= k < |cs| ==> i < cs[k].end <= |s|
  {
    NameCandsEnds(s, i, names, 0);
    NameCands(s, i, names, 0)
  }

  lemma {:induction false} NameCandsEnds(s: string, i: nat, names: seq<string>, k: nat)
    requires k <= |names|
    requires forall j :: 0 <= j < |names| ==> |names[j]| > 0
    ensures forall j :: 0 <= j < |NameCands(s, i, names, k)| ==>
              i < NameCands(s, i, names, k)[j].end <= |s|
    decreases |names| - k
  {
    if k < |names| { NameCandsEnds(s, i, names, k + 1); }
  }

  function SpaceCandsBounded(s: string, i: nat): (cs: seq<Cand>)
    requires i <= |s|
    ensures forall k :: 0 <= k < |cs| ==> i < cs[k].end <= |s|
  {
    SpaceCandsEnds(i, SpanEnd(s, i, Space));
    SpaceCands(i, SpanEnd(s, i, Space))
  }

  lemma {:induction false} SpaceCandsEnds(i: nat, e: nat)
    requires i <= e
    ensures forall k :: 0 <= k < |SpaceCands(i, e)| ==> i < SpaceCands(i, e)[k].end <= e
    decreases e - i
  {
    if e > i { SpaceCandsEnds(i, e - 1); }
  }

  /** The fields read so far. */
  datatype Parts = Parts(year: int, month: int, day: int)

  function Put(p: Parts, t: Tok, v: int): Parts {
    match SlotOf(t)
    case YearSlot => p.(year := v)
    case MonthSlot => p.(month := v)
    case DaySlot => p.(day := v)
    case NoSlot => p
  }

  /** The first match of `toks` at `i` that the backtracking regex finds:
      where it ends and what it read. */
  function MatchFrom(toks: Format, s: string, i: nat, p: Parts): Option<(nat, Parts)>
    requires i <= |s|
    decreases |toks|, 1, 0
  {
    if toks == [] then Some((i, p))
    else TryCands(toks, s, Cands(toks[0], s, i), 0, p)
  }

  /** Tries the candidates of `toks[0]` from index `k` on, the first one for which
      the rest of the format matches wins. */
  function TryCands(toks: Format, s: string, cs: seq<Cand>, k: nat, p: Parts): Option<(nat, Parts)>
    requires toks != [] && k <= |cs|
    requires forall j :: 0 <= j < |cs| ==> cs[j].end <= |s|
    decreases |toks|, 0, |cs| - k
  {
    if k == |cs| then None
    else
      match MatchFrom(toks[1..], s, cs[k].end, Put(p, toks[0], cs[k].val))
      case Some(r) => Some(r)
      case None => TryCands(toks, s, cs, k + 1, p)
  }

  /** `datetime.strptime(s, fmt)` on the date part: `None` where Python raises
      `ValueError` (no match, unconverted data remains, or no such date). */
  function Strptime(s: string, fmt: Format): (r: Option<Date>)
    ensures r.Some? ==> ValidDate(r.value)
  {
    match MatchFrom(fmt, s, 0, Parts(1900, 1, 1))
    case None => None
    case Some((e, p)) =>
      var d := Date(p.year, p.month, p.day);
      if e == |s| && ValidDate(d) then Some(d) else None
  }

  /** Tries `formats` in order and returns the first date that parses. */
  function ParseFirst(s: string, formats: seq<Format>): (r: Option<Date>)
    ensures r.Some? ==> ValidDate(r.value)
    ensures r.Some? <==> exists k :: 0 <= k < |formats| && Strptime(s, formats[k]).Some?
    ensures formats != [] && Strptime(s, formats[0]).Some? ==> r == Strptime(s, formats[0])
  {
    if formats == [] then None
    else if Strptime(s, formats[0]).Some? then Strptime(s, formats[0])
    else
      var r := ParseFirst(s, formats[1..]);
      assert forall k :: 1 <= k < |formats| ==> formats[k] == formats[1..][k - 1];
      r
  }

  /** The loop `for fmt in formats: try: return strptime(...)` that every
      parser runs. */
  method TryFormats(s: string, formats: seq<Format>) returns (r: Option<Date>)
    ensures r == ParseFirst(s, formats)
  {
    var k := 0;
    while k < |formats|
      invariant 0 <= k <= |formats|
      invariant ParseFirst(s, formats) == ParseFirst(s, formats[k..])
    {
      assert formats[k..][1..] == formats[k + 1..];
      var d := Strptime(s, formats[k]);
      if d.Some? {
        return d;
      }
      k := k + 1;
    }
    return None;
  }

  // ---------------------------------------------------------------------------
  // Long dates in running text
  // ---------------------------------------------------------------------------

  /** Four digits (`\d{4}`) start at `i`. */
  predicate FourDigitsAt(s: string, i: nat) {
    i + 4 <= |s| && IsDigit(s[i]) && IsDigit(s[i + 1]) && IsDigit(s[i + 2]) && IsDigit(s[i + 3])
  }

  /** The end of `\d{1,2}` at the digit `b`: two digits when there are two. */
  function DayEnd(s: string, b: nat): (d: nat)
    requires b < |s| && IsDigit(s[b])
    ensures b < d <= b + 2 && d <= |s|
  {
    if b + 1 < |s| && IsDigit(s[b + 1]) then b + 2 else b + 1
  }

  /** `[A-Za-z]+\s+\d{1,2},\s*\d{4}` at `p`: its end.  Each repetition is
      followed by a character it cannot take, so Python's backtracking never
      shortens one: the day is one or two digits directly before the comma. */
  function LongDateEnd(s: string, p: nat): (r: Option<nat>)
    ensures r.Some? ==> p < r.value <= |s| && IsLetter(s[p])
  {
    if p > |s| then None
    else
      var a := SpanEnd(s, p, Letter);
      if a == p then None
      else
        var b := SpanEnd(s, a, Space);
        if b == a || b == |s| || !IsDigit(s[b]) then None
        else
          var d := DayEnd(s, b);
          if !(d < |s| && s[d] == ',') then None
          else
            var c := SpanEnd(s, d + 1, Space);
            if FourDigitsAt(s, c) then Some(c + 4) else None
  }

  /** `date.strftime("%Y-%m-%d")` and `date.isoformat()` for years 1..9999. */
  function Iso(d: Date): (r: string)
    requires ValidDate(d)
    ensures |r| == 10 && r[4] == '-' && r[7] == '-'
    ensures forall k :: 0 <= k < 10 && k != 4 && k != 7 ==> IsDigit(r[k])
  {
    Pad(d.year, 4) + "-" + Pad(d.month, 2) + "-" + Pad(d.day, 2)
  }

  /** The shape of an ISO date string: `dddd-dd-dd`. */
  predicate IsoShaped(s: string) {
    |s| == 10 && s[4] == '-' && s[7] == '-' &&
    forall k :: 0 <= k < 10 && k != 4 && k != 7 ==> IsDigit(s[k])
  }

  /** Reading back the ISO text of a date with the "%Y-%m-%d" format gives the
      same date: the first alternative of each directive that matches is the
      two-digit one. */
  lemma {:induction false} IsoRoundTrip(d: Date)
    requires ValidDate(d)
    ensures Strptime(Iso(d), FmtIsoDash) == Some(d)
  {
    var s := Iso(d);
    PadValue(d.year, 4);
    PadValue(d.month, 2);
    PadValue(d.day, 2);
    assert s[..4] == Pad(d.year, 4);
    assert s[5..7] == Pad(d.month, 2);
    assert s[8..10] == Pad(d.day, 2);
    assert Two(s, 5) == d.month by { TwoIsValue(s, 5); }
    assert Two(s, 8) == d.day by { TwoIsValue(s, 8); }
    assert s[0..4] == s[..4];
    IsoMatch(s, d.year, d.month, d.day);
  }

  /** An ISO-shaped text whose parts read as `y`, `m` and `dd` matches "%Y-%m-%d" in
      full, taking the two-digit alternative of the month and of the day. */
  lemma IsoMatch(s: string, y: int, m: int, dd: int)
    requires IsoShaped(s)
    requires DigitsValue(s[0..4]) == y && Two(s, 5) == m && Two(s, 8) == dd
    requires 1 <= m <= 12 && 1 <= dd <= 31
    ensures MatchFrom(FmtIsoDash, s, 0, Parts(1900, 1, 1)) == Some((10, Parts(y, m, dd)))
  {
    var p1 := Parts(y, 1, 1);
    IsoMonthMatch(s, p1, m, dd);
    assert MatchFrom(FmtIsoDash[1..], s, 4, p1) == Some((10, Parts(y, m, dd)));
  }

  /** From the month on, "%Y-%m-%d" matches the rest of an ISO-shaped text. */
  lemma IsoMonthMatch(s: string, p: Parts, m: int, dd: int)
    requires IsoShaped(s) && Two(s, 5) == m && Two(s, 8) == dd
    requires 1 <= m <= 12 && 1 <= dd <= 31
    ensures MatchFrom(FmtIsoDash[2..], s, 5, p) == Some((10, p.(month := m, day := dd)))
  {
    var p3 := Put(p, MonthNum, m);
    assert p3 == p.(month := m);
    IsoSepDayMatch(s, p3, dd);
    var monC := Cands(MonthNum, s, 5);
    assert monC[0] == Cand(7, m);
    assert FmtIsoDash[2..][1..] == FmtIsoDash[3..];
  }

  /** From the second dash on, "%Y-%m-%d" matches the rest of an ISO-shaped text. */
  lemma IsoSepDayMatch(s: string, p: Parts, dd: int)
    requires IsoShaped(s) && Two(s, 8) == dd && 1 <= dd <= 31
    ensures MatchFrom(FmtIsoDash[3..], s, 7, p) == Some((10, p.(day := dd)))
  {
    var toks := FmtIsoDash[3..];
    assert toks[0] == Lit('-') && toks[1..] == FmtIsoDash[4..];
    assert s[7] == '-';
    LitStep(toks, s, 7, p, '-');
    IsoDayMatch(s, p, dd);
  }

  /** A literal that is present is consumed and the rest of the format goes on
      right after it. */
  lemma LitStep(toks: Format, s: string, i: nat, p: Parts, c: char)
    requires toks != [] && toks[0] == Lit(c) && i < |s| && s[i] == c
    ensures MatchFrom(toks, s, i, p) == MatchFrom(toks[1..], s, i + 1, p)
  {
    var cs := Cands(Lit(c), s, i);
    assert cs == [Cand(i + 1, 0)];
    assert Put(p, Lit(c), 0) == p;
    assert TryCands(toks, s, cs, 1, p) == None;
  }

  /** The day is the last directive of "%Y-%m-%d": its first candidate ends the match. */
  lemma IsoDayMatch(s: string, p: Parts, dd: int)
    requires IsoShaped(s) && Two(s, 8) == dd && 1 <= dd <= 31
    ensures MatchFrom(FmtIsoDash[4..], s, 8, p) == Some((10, p.(day := dd)))
  {
    var dayC := Cands(Day, s, 8);
    assert dayC[0] == Cand(10, dd);
    assert MatchFrom(FmtIsoDash[5..], s, 10, p.(day := dd)) == Some((10, p.(day := dd)));
  }

  lemma TwoIsValue(s: string, i: nat)
    requires i + 2 <= |s|
    ensures Two(s, i) == DigitsValue(s[i..i + 2])
  {
    var t := s[i..i + 2];
    assert t[..1] == [s[i]];
    assert DigitsValue(t[..1]) == DigitsValue([]) * 10 + DigitVal(s[i]);
  }

  // ---------------------------------------------------------------------------
  // Month-name dates read back
  // ---------------------------------------------------------------------------

  /** The text "<Month> <d>, <yyyy>" of a date: the month written as `name`, the
      day without a leading zero and the year in four digits. */
  function NamedDateText(name: string, d: Date): string
    requires ValidDate(d)
  {
    name + " " + NatToString(d.day) + ", " + Pad(d.year, 4)
  }

  /** Every month name begins with its three-letter abbreviation; both are
      lower case. */
  lemma MonthNameHeads(k: nat)
    requires k < 12
    ensures 3 <= |MonthNames[k]| <= 9 && |MonthAbbrs[k]| == 3
    ensures forall q :: 0 <= q < 3 ==> MonthNames[k][q] == MonthAbbrs[k][q]
    ensures forall q :: 0 <= q < |MonthNames[k]| ==> IsLower(MonthNames[k][q])
    ensures forall q :: 0 <= q < 3 ==> IsLower(MonthAbbrs[k][q])
    ensures k != 4 ==> |MonthNames[k]| >= 4
  {
  }

  /** The twelve abbreviations are different. */
  lemma AbbrsDistinct(a: nat, b: nat)
    requires a < 12 && b < 12 && a != b
    ensures MonthAbbrs[a] != MonthAbbrs[b]
  {
  }

  /** Where the `m`-th name (full or abbreviated) occurs at the start of `s`,
      no other month's name does. */
  lemma OnlyMonthAt(s: string, names: seq<string>, m: nat, j: nat)
    requires names == MonthNames || names == MonthAbbrs
    requires m < 12 && j < 12 && j != m && IAt(s, 0, names[m])
    ensures !IAt(s, 0, names[j])
  {
    MonthNameHeads(m);
    MonthNameHeads(j);
    AbbrsDistinct(m, j);
    var q :| 0 <= q < 3 && MonthAbbrs[m][q] != MonthAbbrs[j][q];
    assert ToLower(s[q]) == MonthAbbrs[m][q];
    assert ToLower(names[j][q]) == MonthAbbrs[j][q];
  }

  /** The candidates of a month-name directive from the `k`-th name on begin
      with the `m`-th name when that one occurs at the start of `s`. */
  lemma {:induction false} NameCandsFirst(s: string, names: seq<string>, m: nat, k: nat)
    requires names == MonthNames || names == MonthAbbrs
    requires k <= m < 12 && IAt(s, 0, names[m])
    ensures NameCands(s, 0, names, k) == [Cand(|names[m]|, m + 1)] + NameCands(s, 0, names, m + 1)
    decreases m - k
  {
    if k < m {
      OnlyMonthAt(s, names, m, k);
      NameCandsFirst(s, names, m, k + 1);
    }
  }

  /** Text that starts with `name` written in any letter case starts with the
      lower-case `name` under `IAt`. */
  lemma NameAtStart(name: string, w: string, rest: string)
    requires Lower(name) == w
    ensures IAt(name + rest, 0, w)
  {
    var s := name + rest;
    forall k | 0 <= k < |w|
      ensures ToLower(s[k]) == ToLower(w[k])
    {
      assert s[k] == name[k];
    }
  }

  /** ", yyyy" at `c` up to the end of the text: the comma, the one space and
      the year. */
  lemma YearTailMatch(s: string, c: nat, p: Parts, y: int)
    requires c + 6 == |s| && s[c] == ',' && s[c + 1] == ' '
    requires FourDigitsAt(s, c + 2) && DigitsValue(s[c + 2..c + 6]) == y
    ensures MatchFrom([Lit(','), Spaces, Year], s, c, p) == Some((|s|, p.(year := y)))
  {
    var toks: Format := [Lit(','), Spaces, Year];
    LitStep(toks, s, c, p, ',');
    assert toks[1..] == [Spaces, Year];
    OneSpaceCand(s, c + 1);
    assert Put(p, Spaces, 0) == p;
    assert Cands(Year, s, c + 2) == [Cand(c + 6, y)];
    assert [Spaces, Year][1..] == [Year];
    assert MatchFrom([Year], s, c + 2, p) == Some((c + 6, p.(year := y)));
  }

  /** A single whitespace character before a non-blank one is the only way
      `\s+` matches there. */
  lemma OneSpaceCand(s: string, i: nat)
    requires i + 1 < |s| && IsSpace(s[i]) && !IsSpace(s[i + 1])
    ensures Cands(Spaces, s, i) == [Cand(i + 1, 0)]
  {
    SpanEndIs(s, i, i + 1, Space);
    assert SpaceCands(i, i + 1) == [Cand(i + 1, 0)] + SpaceCands(i, i);
  }

  /** The first way "%d" matches a day written without a leading zero and
      followed by a comma takes all of its digits. */
  lemma DayCandFirst(s: string, b: nat, day: int)
    requires 1 <= day <= 31
    requires b + |NatToString(day)| < |s| && s[b..b + |NatToString(day)|] == NatToString(day)
    requires s[b + |NatToString(day)|] == ','
    ensures Cands(Day, s, b) != [] && Cands(Day, s, b)[0] == Cand(b + |NatToString(day)|, day)
  {
    var ds := NatToString(day);
    if day < 10 {
      assert s[b] == ds[0] && s[b + 1] == ',';
    } else {
      assert ds == NatToString(day / 10) + [('0' as int + day % 10) as char];
      assert s[b] == ds[0] && s[b + 1] == ds[1];
      assert Two(s, b) == day;
    }
  }

  /** "%d, %Y" from the day at `b` to the end of the text. */
  lemma DayTailMatch(s: string, b: nat, p: Parts, day: int, y: int)
    requires 1 <= day <= 31
    requires b + |NatToString(day)| + 6 == |s| && s[b..b + |NatToString(day)|] == NatToString(day)
    requires s[b + |NatToString(day)|] == ',' && s[b + |NatToString(day)| + 1] == ' '
    requires FourDigitsAt(s, b + |NatToString(day)| + 2)
    requires DigitsValue(s[b + |NatToString(day)| + 2..|s|]) == y
    ensures MatchFrom([Day, Lit(','), Spaces, Year], s, b, p) == Some((|s|, p.(day := day, year := y)))
  {
    var c := b + |NatToString(day)|;
    DayCandFirst(s, b, day);
    assert Put(p, Day, day) == p.(day := day);
    YearTailMatch(s, c, p.(day := day), y);
    assert [Day, Lit(','), Spaces, Year][1..] == [Lit(','), Spaces, Year];
  }

  /** " %d, %Y" from the space at `a` to the end of the text. */
  lemma SpaceDayTailMatch(s: string, a: nat, p: Parts, day: int, y: int)
    requires 1 <= day <= 31
    requires a + 1 + |NatToString(day)| + 6 == |s| && s[a] == ' '
    requires s[a + 1..a + 1 + |NatToString(day)|] == NatToString(day)
    requires s[a + 1 + |NatToString(day)|] == ',' && s[a + 2 + |NatToString(day)|] == ' '
    requires FourDigitsAt(s, a + 3 + |NatToString(day)|)
    requires DigitsValue(s[a + 3 + |NatToString(day)|..|s|]) == y
    ensures MatchFrom([Spaces, Day, Lit(','), Spaces, Year], s, a, p) == Some((|s|, p.(day := day, year := y)))
  {
    assert IsDigit(s[a + 1]) by { assert s[a + 1] == NatToString(day)[0]; }
    OneSpaceCand(s, a);
    assert Put(p, Spaces, 0) == p;
    DayTailMatch(s, a + 1, p, day, y);
    assert [Spaces, Day, Lit(','), Spaces, Year][1..] == [Day, Lit(','), Spaces, Year];
  }

  /** The layout of a month-name date text: the name, a space, the day, ", "
      and the four year digits. */
  lemma NamedDateLayout(name: string, d: Date)
    requires ValidDate(d)
    ensures var s := NamedDateText(name, d);
            var a := |name|;
            var ds := NatToString(d.day);
            s[..a] == name && a + 1 + |ds| + 6 == |s| && s[a] == ' ' &&
            s[a + 1..a + 1 + |ds|] == ds &&
            s[a + 1 + |ds|] == ',' && s[a + 2 + |ds|] == ' ' &&
            s[a + 3 + |ds|..] == Pad(d.year, 4) && FourDigitsAt(s, a + 3 + |ds|)
  {
  }

  /** "%B %d, %Y" (with `names` the month names) or "%b %d, %Y" (with the
      abbreviations) matches the whole text of a date written with its
      month's name, and reads that date. */
  lemma NamedDateMatch(name: string, d: Date, fmt: Format, names: seq<string>)
    requires ValidDate(d)
    requires (fmt == FmtLong && names == MonthNames) || (fmt == FmtShort && names == MonthAbbrs)
    requires Lower(name) == names[d.month - 1]
    ensures MatchFrom(fmt, NamedDateText(name, d), 0, Parts(1900, 1, 1)) ==
            Some((|NamedDateText(name, d)|, Parts(d.year, d.month, d.day)))
  {
    var s := NamedDateText(name, d);
    NamedTailMatch(name, d);
    NameAtStart(name, names[d.month - 1], s[|name|..]);
    assert s == name + s[|name|..];
    if fmt == FmtLong {
      assert fmt == [MonthFull] + NAMED_TAIL;
      NameStep(s, MonthFull, names, d.month, |s|, Parts(d.year, d.month, d.day));
    } else {
      assert fmt == [MonthAbbr] + NAMED_TAIL;
      NameStep(s, MonthAbbr, names, d.month, |s|, Parts(d.year, d.month, d.day));
    }
  }

  /** After the month name, " %d, %Y" matches the rest of a month-name date
      text and reads its day and year. */
  lemma NamedTailMatch(name: string, d: Date)
    requires ValidDate(d)
    ensures MatchFrom(NAMED_TAIL, NamedDateText(name, d), |name|, Parts(1900, d.month, 1)) ==
            Some((|NamedDateText(name, d)|, Parts(d.year, d.month, d.day)))
  {
    var s := NamedDateText(name, d);
    var a := |name|;
    NamedDateLayout(name, d);
    PadValue(d.year, 4);
    assert s[a + 3 + |NatToString(d.day)|..|s|] == Pad(d.year, 4);
    SpaceDayTailMatch(s, a, Parts(1900, d.month, 1), d.day, d.year);
  }

  /** What follows the month in "%B %d, %Y" and "%b %d, %Y". */
  const NAMED_TAIL: Format := [Spaces, Day, Lit(','), Spaces, Year]

  /** The month name at the start of `s` is read first, and the rest of the
      format goes on after it. */
  lemma NameStep(s: string, t: Tok, names: seq<string>, m: nat, e: nat, q: Parts)
    requires (t == MonthFull && names == MonthNames) || (t == MonthAbbr && names == MonthAbbrs)
    requires 1 <= m <= 12 && IAt(s, 0, names[m - 1])
    requires MatchFrom(NAMED_TAIL, s, |names[m - 1]|, Parts(1900, m, 1)) == Some((e, q))
    ensures MatchFrom([t] + NAMED_TAIL, s, 0, Parts(1900, 1, 1)) == Some((e, q))
  {
    var c := Cand(|names[m - 1]|, m);
    MonthCands(s, t, names, m);
    assert Put(Parts(1900, 1, 1), t, m) == Parts(1900, m, 1);
    assert ([t] + NAMED_TAIL)[1..] == NAMED_TAIL;
    FirstCandStep([t] + NAMED_TAIL, s, 0, Parts(1900, 1, 1), c, NameCands(s, 0, names, m), e, q);
  }

  /** The candidates of a month directive when the `m`-th name starts the
      text: that name first. */
  lemma MonthCands(s: string, t: Tok, names: seq<string>, m: nat)
    requires (t == MonthFull && names == MonthNames) || (t == MonthAbbr && names == MonthAbbrs)
    requires 1 <= m <= 12 && IAt(s, 0, names[m - 1])
    ensures Cands(t, s, 0) == [Cand(|names[m - 1]|, m)] + NameCands(s, 0, names, m)
    ensures |names[m - 1]| <= |s|
  {
    NameCandsFirst(s, names, m - 1, 0);
  }

  /** When the rest of the format matches after the first candidate of its
      first token, that is the match. */
  lemma FirstCandStep(toks: Format, s: string, i: nat, p: Parts, c: Cand, rest: seq<Cand>, e: nat, q: Parts)
    requires toks != [] && i <= |s| && Cands(toks[0], s, i) == [c] + rest && c.end <= |s|
    requires MatchFrom(toks[1..], s, c.end, Put(p, toks[0], c.val)) == Some((e, q))
    ensures MatchFrom(toks, s, i, p) == Some((e, q))
  {
  }

  /** "%B %d, %Y" reads back a date written with its month's full name in any
      letter case. */
  lemma LongNameRoundTrip(name: string, d: Date)
    requires ValidDate(d) && Lower(name) == MonthNames[d.month - 1]
    ensures Strptime(NamedDateText(name, d), FmtLong) == Some(d)
  {
    NamedDateMatch(name, d, FmtLong, MonthNames);
  }

  /** "%b %d, %Y" reads back a date written with its month's abbreviation in
      any letter case. */
  lemma ShortNameRoundTrip(name: string, d: Date)
    requires ValidDate(d) && Lower(name) == MonthAbbrs[d.month - 1]
    ensures Strptime(NamedDateText(name, d), FmtShort) == Some(d)
  {
    NamedDateMatch(name, d, FmtShort, MonthAbbrs);
  }

  /** No full month name occurs at the start of a date written with an
      abbreviation other than "may": the space after the three letters stops
      every longer name. */
  lemma {:induction false} AbbrNoLongCands(s: string, m: nat, k: nat)
    requires m < 12 && m != 4 && k <= 12
    requires IAt(s, 0, MonthAbbrs[m]) && 3 < |s| && s[3] == ' '
    ensures NameCands(s, 0, MonthNames, k) == []
    decreases 12 - k
  {
    if k < 12 {
      MonthNameHeads(m);
      MonthNameHeads(k);
      if k == m {
        assert ToLower(s[3]) != ToLower(MonthNames[k][3]);
      } else {
        AbbrsDistinct(m, k);
        var q :| 0 <= q < 3 && MonthAbbrs[m][q] != MonthAbbrs[k][q];
        assert ToLower(s[q]) != ToLower(MonthNames[k][q]);
      }
      AbbrNoLongCands(s, m, k + 1);
    }
  }

  /** "%B %d, %Y" does not read a date written with an abbreviation other
      than "may". */
  lemma AbbrNotLong(name: string, d: Date)
    requires ValidDate(d) && d.month != 5 && Lower(name) == MonthAbbrs[d.month - 1]
    ensures Strptime(NamedDateText(name, d), FmtLong) == None
  {
    var s := NamedDateText(name, d);
    NamedDateLayout(name, d);
    NameAtStart(name, MonthAbbrs[d.month - 1], s[3..]);
    assert s == name + s[3..];
    AbbrNoLongCands(s, d.month - 1, 0);
    assert Cands(MonthFull, s, 0) == [];
  }

  /** `name` spells the month of `d`, in full or abbreviated, in any letter case. */
  predicate SpellsMonth(name: string, d: Date)
    requires ValidDate(d)
  {
    Lower(name) == MonthNames[d.month - 1] || Lower(name) == MonthAbbrs[d.month - 1]
  }

  /** A spelled month is a non-empty run of letters. */
  lemma SpelledMonthLetters(name: string, d: Date)
    requires ValidDate(d) && SpellsMonth(name, d)
    ensures name != [] && forall k :: 0 <= k < |name| ==> IsLetter(name[k])
  {
    MonthNameHeads(d.month - 1);
    var w := Lower(name);
    forall k | 0 <= k < |name|
      ensures IsLetter(name[k])
    {
      assert ToLower(name[k]) == w[k] && IsLower(w[k]);
    }
  }

  /** Trying "%B %d, %Y" first and "%b %d, %Y" second reads back a date
      written with its month's name or abbreviation.  "May" is both, and both
      formats then read the same date. */
  lemma NamedDateFirst(name: string, d: Date, rest: seq<Format>)
    requires ValidDate(d) && SpellsMonth(name, d)
    ensures ParseFirst(NamedDateText(name, d), [FmtLong, FmtShort] + rest) == Some(d)
  {
    var s := NamedDateText(name, d);
    var fmts := [FmtLong, FmtShort] + rest;
    assert MonthAbbrs[4] == MonthNames[4];
    if Lower(name) == MonthNames[d.month - 1] {
      LongNameRoundTrip(name, d);
    } else {
      AbbrNotLong(name, d);
      ShortNameRoundTrip(name, d);
      assert fmts[1..][0] == FmtShort;
    }
  }

  /** The characters of a month-name date text placed after `pre`: the
      letters of the name, a space, the day digits, ", " and the year digits. */
  lemma NamedDateAt(pre: string, name: string, d: Date)
    requires ValidDate(d) && forall k :: 0 <= k < |name| ==> IsLetter(name[k])
    ensures var s := pre + NamedDateText(name, d);
            var a := |pre| + |name|;
            var n := |NatToString(d.day)|;
            1 <= n <= 2 && a + 1 + n + 6 == |s| &&
            (forall k :: |pre| <= k < a ==> IsLetter(s[k])) && s[a] == ' ' &&
            IsDigit(s[a + 1]) && (n == 2 ==> IsDigit(s[a + 2])) &&
            s[a + 1 + n] == ',' && s[a + 2 + n] == ' ' && FourDigitsAt(s, a + 3 + n)
  {
    var t := NamedDateText(name, d);
    var s := pre + t;
    var ds := NatToString(d.day);
    NamedDateLayout(name, d);
    assert forall k :: 0 <= k < |t| ==> s[|pre| + k] == t[k];
    assert forall k :: 0 <= k < |name| ==> t[k] == name[k];
    assert t[|name| + 1] == ds[0];
    if d.day >= 10 {
      assert ds == NatToString(d.day / 10) + [('0' as int + d.day % 10) as char];
      assert t[|name| + 2] == ds[1];
    }
  }

  /** `[A-Za-z]+\s+\d{1,2},\s*\d{4}` matches a month-name date text that
      follows `pre`, up to the end of the text. */
  lemma LongDateEndNamed(pre: string, name: string, d: Date)
    requires ValidDate(d) && name != [] && forall k :: 0 <= k < |name| ==> IsLetter(name[k])
    ensures LongDateEnd(pre + NamedDateText(name, d), |pre|) == Some(|pre + NamedDateText(name, d)|)
  {
    NamedDateAt(pre, name, d);
    LongDateEndLaid(pre + NamedDateText(name, d), |pre|, |pre| + |name|, |NatToString(d.day)|);
  }

  /** `[A-Za-z]+\s+\d{1,2},\s*\d{4}` from `p` to the end of `s` when the
      letters run from `p` to `a`, one space follows, then an `n`-digit day,
      ", " and four digits. */
  lemma LongDateEndLaid(s: string, p: nat, a: nat, n: nat)
    requires p < a && 1 <= n <= 2 && a + 1 + n + 6 == |s|
    requires forall k :: p <= k < a ==> IsLetter(s[k])
    requires s[a] == ' ' && IsDigit(s[a + 1]) && (n == 2 ==> IsDigit(s[a + 2]))
    requires s[a + 1 + n] == ',' && s[a + 2 + n] == ' ' && FourDigitsAt(s, a + 3 + n)
    ensures LongDateEnd(s, p) == Some(|s|)
  {
    SpanEndIs(s, p, a, Letter);
    SpanEndIs(s, a, a + 1, Space);
    assert DayEnd(s, a + 1) == a + 1 + n;
    SpanEndIs(s, a + 2 + n, a + 3 + n, Space);
  }
}
