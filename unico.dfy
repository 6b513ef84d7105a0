/** The pattern-based parser of "NEW LISTING-CPC-SHARES" bulletins of class
    "Unico" (`cpc_birth_unico_parser.py`).  It fills the same 37-column row as
    the label-only parser of module `Depurar` and reuses its normalizers; the
    columns come from text patterns of the bulletin body, each modelled by a
    scanner that follows Python's leftmost, backtracking match order for that
    one pattern. */
module Unico {
  import opened Wrappers
  import opened Text
  import opened DateFormats
  import opened Depurar

  // ---------------------------------------------------------------------------
  // Prospectus date: `Prospectus(?:.*)? dated (<long date>)`, IGNORECASE | DOTALL
  // ---------------------------------------------------------------------------

  /** " dated <long date>" starts at `g`. */
  predicate DatedAt(s: string, g: nat) {
    IAt(s, g, " dated ") && LongDateEnd(s, g + 7).Some?
  }

  /** The greedy DOTALL gap: the last " dated <long date>" at or after `from`. */
  function LastDated(s: string, from: nat): (r: Option<nat>)
    ensures r.Some? ==> from <= r.value && DatedAt(s, r.value)
    ensures r.Some? ==> forall g :: r.value < g <= |s| ==> !DatedAt(s, g)
    ensures r.None? ==> forall g :: from <= g <= |s| ==> !DatedAt(s, g)
  {
    var p := (g: nat) => DatedAt(s, g);
    assert forall g: nat :: p(g) == DatedAt(s, g);
    LastWhere(from, |s|, p)
  }

  /** The pattern matches when it starts at `i`. */
  predicate ProspectusAt(s: string, i: nat) {
    IAt(s, i, "prospectus") && LastDated(s, i + 10).Some?
  }

  /** The date text of the " dated " clause at `g`. */
  function DatedText(s: string, g: nat): string
    requires DatedAt(s, g)
  {
    s[g + 7..LongDateEnd(s, g + 7).value]
  }

  /** `re.search` of the prospectus pattern: group 1 of the leftmost match. */
  function ProspectusDateText(s: string): (r: Option<string>)
    ensures r.None? <==> forall i :: 0 <= i <= |s| ==> !ProspectusAt(s, i)
  {
    var p := (i: nat) => ProspectusAt(s, i);
    assert forall i: nat :: p(i) == ProspectusAt(s, i);
    match FirstWhere(s, 0, p)
    case None => None
    case Some(i) => Some(DatedText(s, LastDated(s, i + 10).value))
  }

  /** The prospectus date is the last " dated <long date>" after the FIRST
      "Prospectus" of the body; there is none when the first one has none. */
  lemma ProspectusAfterFirst(s: string)
    ensures IFind(s, "prospectus", 0).None? ==> ProspectusDateText(s).None?
    ensures IFind(s, "prospectus", 0).Some? ==>
              var i := IFind(s, "prospectus", 0).value;
              ProspectusDateText(s) ==
                (if LastDated(s, i + 10).Some? then Some(DatedText(s, LastDated(s, i + 10).value)) else None)
  {
    var p := (i: nat) => ProspectusAt(s, i);
    match IFind(s, "prospectus", 0)
    case None =>
      forall i | 0 <= i <= |s| ensures !ProspectusAt(s, i) { }
    case Some(i0) =>
      if LastDated(s, i0 + 10).Some? {
        assert p(i0);
        match FirstWhere(s, 0, p)
        case Some(i) =>
          assert IAt(s, i, "prospectus");
          assert i == i0;
        case None =>
      } else {
        forall i | 0 <= i <= |s| ensures !ProspectusAt(s, i) {
          if IAt(s, i, "prospectus") {
            assert i0 <= i;
          }
        }
      }
  }

  // ---------------------------------------------------------------------------
  // Effective date: last of re.findall(`effective\s+(<long date>)`), IGNORECASE
  // ---------------------------------------------------------------------------

  /** A match of the effective pattern starts at `i`. */
  predicate EffectiveAt(s: string, i: nat) {
    IAt(s, i, "effective") && SpanEnd(s, i + 9, Space) > i + 9 &&
    LongDateEnd(s, SpanEnd(s, i + 9, Space)).Some?
  }

  /** Group 1 of the match at `i`, as a span, and the end of the match. */
  function EffectiveSpan(s: string, i: nat): (r: (nat, nat))
    requires EffectiveAt(s, i)
    ensures i < r.0 < r.1 <= |s|
  {
    var b := SpanEnd(s, i + 9, Space);
    (b, LongDateEnd(s, b).value)
  }

  /** The leftmost match of the effective pattern at or after `from`. */
  function NextEffective(s: string, from: nat): (r: Option<nat>)
    ensures r.Some? ==> from <= r.value <= |s| && EffectiveAt(s, r.value)
    ensures r.Some? ==> forall j :: from <= j < r.value ==> !EffectiveAt(s, j)
    ensures r.None? <==> forall j :: from <= j <= |s| ==> !EffectiveAt(s, j)
  {
    var p := (j: nat) => EffectiveAt(s, j);
    assert forall j: nat :: p(j) == EffectiveAt(s, j);
    FirstWhere(s, from, p)
  }

  /** `re.findall` from `from`: the non-overlapping matches, left to right,
      each search resuming where the previous match ended. */
  function EffectiveMatches(s: string, from: nat): (ms: seq<(nat, nat)>)
    ensures forall m | m in ms :: m.0 < m.1 <= |s|
    decreases |s| + 1 - from
  {
    match NextEffective(s, from)
    case None => []
    case Some(i) =>
      var sp := EffectiveSpan(s, i);
      [sp] + EffectiveMatches(s, sp.1)
  }

  /** `findall` finds nothing exactly when no match starts at or after `from`. */
  lemma EffectiveMatchesEmpty(s: string, from: nat)
    ensures EffectiveMatches(s, from) == [] <==> forall j :: from <= j <= |s| ==> !EffectiveAt(s, j)
  {
  }

  /** The last match `findall` reports starts at some `i` and no match starts
      after its end. */
  lemma {:induction false} EffectiveMatchesLast(s: string, from: nat) returns (i: nat)
    requires EffectiveMatches(s, from) != []
    ensures from <= i <= |s| && EffectiveAt(s, i)
    ensures EffectiveSpan(s, i) == Last(EffectiveMatches(s, from))
    ensures forall j :: EffectiveSpan(s, i).1 <= j <= |s| ==> !EffectiveAt(s, j)
    decreases |s| + 1 - from
  {
    var i0 := NextEffective(s, from).value;
    var sp := EffectiveSpan(s, i0);
    var rest := EffectiveMatches(s, sp.1);
    assert EffectiveMatches(s, from) == [sp] + rest;
    if rest == [] {
      i := i0;
      EffectiveMatchesEmpty(s, sp.1);
      assert Last([sp] + rest) == sp;
    } else {
      LastOfCons(sp, rest);
      i := EffectiveMatchesLast(s, sp.1);
    }
  }

  lemma LastOfCons(m: (nat, nat), ms: seq<(nat, nat)>)
    requires ms != []
    ensures Last([m] + ms) == Last(ms)
  {
  }

  /** The last element of a non-empty sequence of spans. */
  function Last(ms: seq<(nat, nat)>): (m: (nat, nat))
    requires ms != []
    ensures m in ms
  {
    ms[|ms| - 1]
  }

  /** `effs[-1] if effs else None`. */
  function EffectiveDateText(s: string): (r: Option<string>)
  {
    var ms := EffectiveMatches(s, 0);
    if ms == [] then None else Some(s[Last(ms).0..Last(ms).1])
  }

  /** The effective date is `None` exactly when no "effective <long date>"
      occurs; otherwise it is the date of a match after whose end no further
      match starts: the last one `findall` reports. */
  lemma EffectiveIsLast(s: string)
    ensures EffectiveDateText(s).None? <==> forall j :: 0 <= j <= |s| ==> !EffectiveAt(s, j)
    ensures EffectiveDateText(s).Some? ==>
              exists i :: 0 <= i <= |s| && EffectiveAt(s, i) &&
                EffectiveDateText(s).value == s[EffectiveSpan(s, i).0..EffectiveSpan(s, i).1] &&
                forall j :: EffectiveSpan(s, i).1 <= j <= |s| ==> !EffectiveAt(s, j)
  {
    EffectiveMatchesEmpty(s, 0);
    if EffectiveMatches(s, 0) != [] {
      var i := EffectiveMatchesLast(s, 0);
    }
  }

  // ---------------------------------------------------------------------------
  // Commence date: the rest of the "Commence Date:" line, then p1, p2, p3
  // ---------------------------------------------------------------------------

  /** `(?mi)^\s*Commence Date:(.*)$` matches at `i`: a line start, optional
      whitespace (which may cross blank lines), then the label. */
  predicate CommenceLineAt(s: string, i: nat) {
    i <= |s| && LineStart(s, i) && IAt(s, SpanEnd(s, i, Space), "commence date:")
  }

  /** Group 1 of the leftmost match: the rest of the line after the label. */
  function CommenceLine(s: string): (r: Option<string>)
    ensures r.None? <==> forall i :: 0 <= i <= |s| ==> !CommenceLineAt(s, i)
  {
    var p := (i: nat) => CommenceLineAt(s, i);
    assert forall i: nat :: p(i) == CommenceLineAt(s, i);
    match FirstWhere(s, 0, p)
    case None => None
    case Some(i) =>
      var j := SpanEnd(s, i, Space) + 14;
      Some(s[j..LineEnd(s, j)])
  }

  /** `[A-Za-z]+\s+\d{1,2}(?:,\s*\d{4}| \d{4})` at `a`: its end.  With two day
      digits the only way back is one digit, which leaves a digit where the
      comma or the space must be. */
  function CommenceDateEnd(s: string, a: nat): (r: Option<nat>)
    ensures r.Some? ==> a < r.value <= |s|
  {
    if a > |s| then None
    else
      var l := SpanEnd(s, a, Letter);
      if l == a then None
      else
        var b := SpanEnd(s, l, Space);
        if b == l || b == |s| || !IsDigit(s[b]) then None
        else
          var d := DayEnd(s, b);
          if d < |s| && s[d] == ',' && FourDigitsAt(s, SpanEnd(s, d + 1, Space)) then
            Some(SpanEnd(s, d + 1, Space) + 4)
          else if d < |s| && s[d] == ' ' && FourDigitsAt(s, d + 1) then Some(d + 5)
          else None
  }

  /** The date group of p2 and p1 can start at `a`. */
  predicate DateAt(s: string, a: nat) {
    CommenceDateEnd(s, a).Some?
  }

  /** Where p2 (`([A-Za-z]+\s+\d{1,2}(?:,\s*\d{4}| \d{4}))`) matches first. */
  function P2Start(s: string): (r: Option<nat>)
    ensures r.Some? ==> r.value <= |s| && DateAt(s, r.value)
    ensures r.None? <==> forall a :: 0 <= a <= |s| ==> !DateAt(s, a)
  {
    var p := (a: nat) => DateAt(s, a);
    assert forall a: nat :: p(a) == DateAt(s, a);
    FirstWhere(s, 0, p)
  }

  /** p2: group 1 of the leftmost match. */
  function P2(s: string): (r: Option<string>)
    ensures r.None? <==> P2Start(s).None?
  {
    match P2Start(s)
    case None => None
    case Some(a) => Some(s[a..CommenceDateEnd(s, a).value])
  }

  /** The weekday alternatives of p1, in the order the regex tries them. */
  const WEEKDAYS: seq<string> :=
    ["Mon", "Tues", "Tue", "Wed", "Thu", "Thur", "Fri", "Sat", "Sun",
     "Monday", "Tuesday", "Wednesday", "Thursday", "Friday", "Saturday", "Sunday"]

  /** Where the date group starts after `\s*,?\s*` from `y`.  Giving back a
      space or the comma only puts a character that cannot start the group
      where the group must start. */
  function AfterComma(s: string, y: nat): (g: nat)
    requires y <= |s|
    ensures y <= g <= |s|
  {
    var z := SpanEnd(s, y, Space);
    if z < |s| && s[z] == ',' then SpanEnd(s, z + 1, Space) else z
  }

  /** The group starts after each weekday of `ws` that occurs at `x`, in order. */
  function WeekdayStarts(s: string, x: nat, ws: seq<string>): (gs: seq<nat>)
    requires x <= |s|
    ensures forall k :: 0 <= k < |gs| ==> gs[k] <= |s|
  {
    if ws == [] then []
    else
      (if IAt(s, x, ws[0]) then [AfterComma(s, x + |ws[0]|)] else []) + WeekdayStarts(s, x, ws[1..])
  }

  /** The group starts the optional weekday leaves after `x`: each weekday that
      matches, then the skipped weekday. */
  function GroupStarts(s: string, x: nat): (gs: seq<nat>)
    requires x <= |s|
    ensures gs != [] && gs[|gs| - 1] == AfterComma(s, x)
    ensures forall k :: 0 <= k < |gs| ==> gs[k] <= |s|
  {
    WeekdayStarts(s, x, WEEKDAYS) + [AfterComma(s, x)]
  }

  /** Every group start p1 tries from `a`, in backtracking order: first with
      the optional `on\s+` taken, then without it.  (Giving back spaces of
      `\s+` leads only to starts already tried.) */
  function P1Starts(s: string, a: nat): (gs: seq<nat>)
    requires a <= |s|
    ensures forall k :: 0 <= k < |gs| ==> gs[k] <= |s|
    ensures AfterComma(s, a) in gs
  {
    var on := if IAt(s, a, "on") && SpanEnd(s, a + 2, Space) > a + 2
              then GroupStarts(s, SpanEnd(s, a + 2, Space)) else [];
    var own := GroupStarts(s, a);
    assert own[|own| - 1] in on + own;
    on + own
  }

  /** The first start of `gs` where the date group matches. */
  function FirstDate(s: string, gs: seq<nat>): (r: Option<nat>)
    ensures r.Some? ==> r.value in gs && DateAt(s, r.value)
    ensures r.None? <==> forall g :: g in gs ==> !DateAt(s, g)
  {
    if gs == [] then None
    else if DateAt(s, gs[0]) then Some(gs[0])
    else
      var r := FirstDate(s, gs[1..]);
      assert forall g :: g in gs ==> g == gs[0] || g in gs[1..];
      r
  }

  /** p1, `(?:on\s+)?(?:Mon|...|Sunday)?\s*,?\s*(<p2's group>)`, matches at `a`. */
  predicate P1At(s: string, a: nat) {
    a <= |s| && FirstDate(s, P1Starts(s, a)).Some?
  }

  /** p1: group 1 of the leftmost match.  A weekday alternative that is a
      prefix of a longer name leaves the rest of the name to the group, so
      "Tuesday 5 2008" gives "day 5 2008". */
  function P1(s: string): (r: Option<string>)
    ensures r.None? <==> forall a :: 0 <= a <= |s| ==> !P1At(s, a)
  {
    var p := (a: nat) => P1At(s, a);
    assert forall a: nat :: p(a) == P1At(s, a);
    match FirstWhere(s, 0, p)
    case None => None
    case Some(a) =>
      var g := FirstDate(s, P1Starts(s, a)).value;
      Some(s[g..CommenceDateEnd(s, g).value])
  }

  /** The lookahead `,?\s*\d{4}` succeeds at `d`. */
  predicate YearAhead(s: string, d: nat)
    requires d <= |s|
  {
    if d < |s| && s[d] == ',' then FourDigitsAt(s, SpanEnd(s, d + 1, Space))
    else FourDigitsAt(s, SpanEnd(s, d, Space))
  }

  /** p3, `([A-Za-z]+\s+\d{1,2})(?!,?\s*\d{4})` at `a`: its end.  When two day
      digits are followed by a year, the regex backs off to one digit, and
      that one matches unless the digits after it are themselves four. */
  function P3End(s: string, a: nat): (r: Option<nat>)
    ensures r.Some? ==> a < r.value <= |s|
  {
    if a > |s| then None
    else
      var l := SpanEnd(s, a, Letter);
      if l == a then None
      else
        var b := SpanEnd(s, l, Space);
        if b == l || b == |s| || !IsDigit(s[b]) then None
        else if b + 1 < |s| && IsDigit(s[b + 1]) && !YearAhead(s, b + 2) then Some(b + 2)
        else if !YearAhead(s, b + 1) then Some(b + 1)
        else None
  }

  predicate P3At(s: string, a: nat) {
    P3End(s, a).Some?
  }

  /** p3: group 1 of the leftmost match. */
  function P3(s: string): (r: Option<string>)
    ensures r.None? <==> forall a :: 0 <= a <= |s| ==> !P3At(s, a)
  {
    var p := (a: nat) => P3At(s, a);
    assert forall a: nat :: p(a) == P3At(s, a);
    match FirstWhere(s, 0, p)
    case None => None
    case Some(a) => Some(s[a..P3End(s, a).value])
  }

  /** The group of the first pattern that matched, stripped: what the loop
      `for p in (p1, p2, p3)` with its `break` leaves in `commence_date_raw`. */
  function FirstMatch(ms: seq<Option<string>>): (r: Option<string>)
    ensures r.None? <==> forall k :: 0 <= k < |ms| ==> ms[k].None?
    ensures r.Some? ==> exists k :: 0 <= k < |ms| && ms[k].Some? && r.value == Strip(ms[k].value) &&
                          forall j :: 0 <= j < k ==> ms[j].None?
  {
    if ms == [] then None
    else if ms[0].Some? then Some(Strip(ms[0].value))
    else
      var r := FirstMatch(ms[1..]);
      assert forall k :: 1 <= k < |ms| ==> ms[k] == ms[1..][k - 1];
      r
  }

  /** The loop over the three patterns, breaking at the first that matched. */
  method PickCommence(line: string) returns (raw: Option<string>)
    ensures raw == FirstMatch([P1(line), P2(line), P3(line)])
  {
    var ps := [P1(line), P2(line), P3(line)];
    raw := None;
    var k := 0;
    while k < |ps|
      invariant 0 <= k <= |ps|
      invariant FirstMatch(ps[k..]) == FirstMatch(ps)
    {
      if ps[k].Some? {
        raw := Some(Strip(ps[k].value));
        break;
      }
      assert ps[k..][1..] == ps[k + 1..];
      k := k + 1;
    }
  }

  /** Where the date group matches, p1 matches too, with both optional parts
      skipped. */
  lemma DateStartsP1(line: string, a: nat)
    requires a <= |line| && DateAt(line, a)
    ensures P1At(line, a)
  {
    assert AfterComma(line, a) == a;
  }

  /** Wherever p2 matches p1 matches, so p2 never decides the commence date. */
  lemma P2NeverDecides(line: string)
    ensures P1(line).None? ==> P2(line).None?
  {
    if P2Start(line).Some? {
      DateStartsP1(line, P2Start(line).value);
    }
  }

  /** The first of three groups, when a missing first one implies a missing second. */
  lemma FirstOfThree(a: Option<string>, b: Option<string>, c: Option<string>)
    requires a.None? ==> b.None?
    ensures FirstMatch([a, b, c]) ==
              if a.Some? then Some(Strip(a.value)) else if c.Some? then Some(Strip(c.value)) else None
  {
    var ms := [a, b, c];
    assert ms[1..] == [b, c];
    assert ms[1..][1..] == [c];
    assert [c][1..] == [];
    if a.None? {
      assert FirstMatch(ms) == FirstMatch([b, c]) == FirstMatch([c]);
    }
  }

  /** The commence date is p1's group when p1 matches, else p3's, else none. */
  lemma CommencePick(line: string)
    ensures FirstMatch([P1(line), P2(line), P3(line)]) ==
              if P1(line).Some? then Some(Strip(P1(line).value))
              else if P3(line).Some? then Some(Strip(P3(line).value))
              else None
  {
    P2NeverDecides(line);
    FirstOfThree(P1(line), P2(line), P3(line));
  }

  /** `commence_date_raw`: `None` when the body has no "Commence Date:" line. */
  function CommenceRaw(body: string): (r: Option<string>)
    ensures CommenceLine(body).None? ==> r.None?
    ensures CommenceLine(body).Some? ==>
              var line := CommenceLine(body).value;
              r == FirstMatch([P1(line), P2(line), P3(line)])
  {
    match CommenceLine(body)
    case None => None
    case Some(line) => FirstMatch([P1(line), P2(line), P3(line)])
  }

  // ---------------------------------------------------------------------------
  // Gross proceeds: `gross proceeds.*?(?:were|was)\s*(\$\s?[\d,]+(?:\.\d{2})?)`
  // ---------------------------------------------------------------------------

  /** `(?:were|was)\s*(\$\s?[\d,]+(?:\.\d{2})?)` at `g`: the group's span.  No
      repetition here can give anything back that the next element would take. */
  function GrossSpan(s: string, g: nat): (r: Option<(nat, nat)>)
    ensures r.Some? ==> g < r.value.0 && r.value.0 + 2 <= r.value.1 <= |s| && s[r.value.0] == '$'
  {
    var t := if IAt(s, g, "were") then g + 4 else if IAt(s, g, "was") then g + 3 else g;
    if t == g then None
    else
      var u := SpanEnd(s, t, Space);
      if !(u < |s| && s[u] == '$') then None
      else
        var v := if u + 1 < |s| && IsSpace(s[u + 1]) then u + 2 else u + 1;
        var w := SpanEnd(s, v, DigitComma);
        if w == v then None
        else if w + 2 < |s| && s[w] == '.' && IsDigit(s[w + 1]) && IsDigit(s[w + 2]) then Some((u, w + 3))
        else Some((u, w))
  }

  /** The lazy DOTALL gap `.*?`: the first "were"/"was" clause at or after `from`. */
  function GrossGap(s: string, from: nat): (r: Option<nat>)
    ensures r.Some? ==> from <= r.value <= |s| && GrossSpan(s, r.value).Some?
    ensures r.Some? ==> forall g :: from <= g < r.value ==> GrossSpan(s, g).None?
    ensures r.None? <==> forall g :: from <= g <= |s| ==> GrossSpan(s, g).None?
  {
    var p := (g: nat) => GrossSpan(s, g).Some?;
    assert forall g: nat :: p(g) == GrossSpan(s, g).Some?;
    FirstWhere(s, from, p)
  }

  /** The pattern matches when it starts at `i`. */
  predicate GrossAt(s: string, i: nat) {
    IAt(s, i, "gross proceeds") && GrossGap(s, i + 14).Some?
  }

  /** `gross_proceeds`: group 1 of the leftmost match. */
  function GrossProceedsText(s: string): (r: Option<string>)
    ensures r.None? <==> forall i :: 0 <= i <= |s| ==> !GrossAt(s, i)
    ensures r.Some? ==> |r.value| >= 2 && r.value[0] == '$'
  {
    var p := (i: nat) => GrossAt(s, i);
    assert forall i: nat :: p(i) == GrossAt(s, i);
    match FirstWhere(s, 0, p)
    case None => None
    case Some(i) => Some(GrossValueAt(s, i))
  }

  /** Group 1 of the pattern matched at `i`: the dollar amount. */
  function GrossValueAt(s: string, i: nat): (v: string)
    requires GrossAt(s, i)
    ensures |v| >= 2 && v[0] == '$'
  {
    var sp := GrossSpan(s, GrossGap(s, i + 14).value).value;
    s[sp.0..sp.1]
  }

  /** `\(([\d,]+)\s+common shares at \$?([\d\.]+)\s+per share\)` at `a`: the
      share count and the unit price as written. */
  function ShPrAt(s: string, a: nat): (r: Option<(string, string)>)
  {
    if !(a < |s| && s[a] == '(') then None
    else
      var c := SpanEnd(s, a + 1, DigitComma);
      var d := SpanEnd(s, c, Space);
      if c == a + 1 || d == c || !IAt(s, d, "common shares at ") then None
      else
        var e := d + 17;
        var f := if e < |s| && s[e] == '$' then e + 1 else e;
        var g := SpanEnd(s, f, DigitDot);
        var h := SpanEnd(s, g, Space);
        if g == f || h == g || !IAt(s, h, "per share)") then None
        else Some((s[a + 1..c], s[f..g]))
  }

  /** `sh_pr.groups()` of the leftmost match. */
  function ShPr(s: string): (r: Option<(string, string)>)
    ensures r.None? <==> forall a :: 0 <= a <= |s| ==> ShPrAt(s, a).None?
  {
    var p := (a: nat) => ShPrAt(s, a).Some?;
    assert forall a: nat :: p(a) == ShPrAt(s, a).Some?;
    match FirstWhere(s, 0, p)
    case None => None
    case Some(a) => ShPrAt(s, a)
  }

  // ---------------------------------------------------------------------------
  // Capitalization: `([\d,]+)\s+common shares are issued and outstanding`
  // ---------------------------------------------------------------------------

  function IosAt(s: string, a: nat): (r: Option<string>)
  {
    if a > |s| then None
    else
      var c := SpanEnd(s, a, DigitComma);
      var d := SpanEnd(s, c, Space);
      if c == a || d == c || !IAt(s, d, "common shares are issued and outstanding") then None
      else Some(s[a..c])
  }

  /** `ios_match.group(1)` of the leftmost match. */
  function Ios(s: string): (r: Option<string>)
    ensures r.None? <==> forall a :: 0 <= a <= |s| ==> IosAt(s, a).None?
  {
    var p := (a: nat) => IosAt(s, a).Some?;
    assert forall a: nat :: p(a) == IosAt(s, a).Some?;
    match FirstWhere(s, 0, p)
    case None => None
    case Some(a) => IosAt(s, a)
  }

  // ---------------------------------------------------------------------------
  // Transfer agent, trading symbol, CUSIP, sponsoring member, agent:
  // `(?mi)^\s*<label>\s*(...)`
  // ---------------------------------------------------------------------------

  /** Where the label `lbl` begins when `^\s*<lbl>` matches at `i`. */
  function LabelStart(s: string, i: nat): (j: nat)
    requires i <= |s|
    ensures i <= j <= |s|
  {
    SpanEnd(s, i, Space)
  }

  /** `(?mi)^\s*<lbl>\s*(.+)$` matches at `i`: group 1, the rest of the line from
      the last point `\s*` can give back to. */
  function LineValueAt(s: string, lbl: string, i: nat): (r: Option<string>)
    ensures r.Some? ==> r.value != [] && '\n' !in r.value
  {
    if !(i <= |s| && LineStart(s, i) && IAt(s, LabelStart(s, i), lbl)) then None
    else
      var k := LabelStart(s, i) + |lbl|;
      match LastNonNewline(s, k, SpanEnd(s, k, Space))
      case None => None
      case Some(p) =>
        assert forall c :: c in s[p..LineEnd(s, p)] ==> c != '\n';
        Some(s[p..LineEnd(s, p)])
  }

  /** `re.search` of an anchored line pattern: the leftmost match's group. */
  function LineValue(s: string, lbl: string): (r: Option<string>)
    ensures r.None? <==> forall i :: 0 <= i <= |s| ==> LineValueAt(s, lbl, i).None?
  {
    var p := (i: nat) => LineValueAt(s, lbl, i).Some?;
    assert forall i: nat :: p(i) == LineValueAt(s, lbl, i).Some?;
    match FirstWhere(s, 0, p)
    case None => None
    case Some(i) => LineValueAt(s, lbl, i)
  }

  /** `^\s*Trading Symbol:\s*([A-Z0-9\.\-]+)` at `i`: group 1. */
  function SymbolAt(s: string, i: nat): (r: Option<string>)
    ensures r.Some? ==> r.value != []
  {
    if !(i <= |s| && LineStart(s, i) && IAt(s, LabelStart(s, i), "trading symbol:")) then None
    else
      var e := SpanEnd(s, LabelStart(s, i) + 15, Space);
      if e < |s| && InCls(s[e], Symbol) then Some(s[e..SpanEnd(s, e, Symbol)]) else None
  }

  function TradingSymbol(s: string): (r: Option<string>)
    ensures r.None? <==> forall i :: 0 <= i <= |s| ==> SymbolAt(s, i).None?
  {
    var p := (i: nat) => SymbolAt(s, i).Some?;
    assert forall i: nat :: p(i) == SymbolAt(s, i).Some?;
    match FirstWhere(s, 0, p)
    case None => None
    case Some(i) => SymbolAt(s, i)
  }

  /** `^\s*CUSIP Number:\s*([A-Z0-9 ]+)` at `i`: group 1.  When no letter, digit
      or space follows the whitespace, `\s*` gives back to its last space, and
      the group is whitespace only. */
  function CusipAt(s: string, i: nat): (r: Option<string>)
  {
    if !(i <= |s| && LineStart(s, i) && IAt(s, LabelStart(s, i), "cusip number:")) then None
    else
      var k := LabelStart(s, i) + 13;
      var e := SpanEnd(s, k, Space);
      if e < |s| && InCls(s[e], Cusip) then Some(s[e..SpanEnd(s, e, Cusip)])
      else if e == k then None
      else
        var q := (p: nat) => p < |s| && s[p] == ' ';
        match LastWhere(k, e - 1, q)
        case None => None
        case Some(p) => Some(s[p..SpanEnd(s, p, Cusip)])
  }

  function CusipNumber(s: string): (r: Option<string>)
    ensures r.None? <==> forall i :: 0 <= i <= |s| ==> CusipAt(s, i).None?
  {
    var p := (i: nat) => CusipAt(s, i).Some?;
    assert forall i: nat :: p(i) == CusipAt(s, i).Some?;
    match FirstWhere(s, 0, p)
    case None => None
    case Some(i) => CusipAt(s, i)
  }

  /** `re.sub(r"\s*\(.*?\)\s*$", "", t)` matches from `p`: whitespace, then "(",
      then a line's worth of text up to the last non-space character, which is ")". */
  predicate ParenFrom(t: string, p: nat) {
    p <= |t| &&
    var q := SpanEnd(t, p, Space);
    var z := TrailStart(t, |t|);
    q < |t| && t[q] == '(' && q + 2 <= z && t[z - 1] == ')' &&
    forall k :: q < k < z - 1 ==> t[k] != '\n'
  }

  /** The transfer agent with a trailing parenthetical removed: the substitution
      from the leftmost match to the end, then `strip()`. */
  function StripParen(t: string): (r: string)
  {
    var m := (p: nat) => ParenFrom(t, p);
    match FirstWhere(t, 0, m)
    case None => Strip(t)
    case Some(p) => Strip(t[..p])
  }

  /** `ta`: the stripped "Transfer Agent:" line, then without its parenthetical. */
  function TransferAgent(body: string): (r: Option<string>)
    ensures LineValue(body, "transfer agent:").None? ==> r.None?
  {
    match LineValue(body, "transfer agent:")
    case None => None
    case Some(v) => if Strip(v) == "" then Some("") else Some(StripParen(Strip(v)))
  }

  /** "Name (City)" loses its parenthetical and keeps the name, provided the
      name itself has no "(". */
  lemma StripParenName(n: string, x: string)
    requires n != [] && '(' !in n && !IsSpace(n[0]) && !IsSpace(n[|n| - 1])
    requires '\n' !in x
    ensures StripParen(n + " (" + x + ")") == n
  {
    var t := n + " (" + x + ")";
    var m := (p: nat) => ParenFrom(t, p);
    assert t[..|n|] == n;
    assert t[|n|] == ' ' && t[|n| + 1] == '(';
    forall j | 0 <= j < |n| ensures !m(j) {
      var q := SpanEnd(t, j, Space);
      assert !InCls(t[|n| - 1], Space);
      assert q < |n|;
      assert t[q] == n[q];
      assert n[q] in n;
    }
    assert SpanEnd(t, |n|, Space) == |n| + 1;
    assert TrailStart(t, |t|) == |t|;
    forall k | |n| + 1 < k < |t| - 1 ensures t[k] != '\n' {
      assert t[k] == x[k - |n| - 2];
      assert x[k - |n| - 2] in x;
    }
    assert m(|n|);
    FirstWhereIs(t, 0, m, |n|);
    StripIdentity(n);
  }

  // ---------------------------------------------------------------------------
  // Agent's options
  // ---------------------------------------------------------------------------

  /** `Agent's Options:\s*none` matches at `i` (case-insensitive). */
  predicate NoneAt(s: string, i: nat) {
    IAt(s, i, "agent's options:") && IAt(s, SpanEnd(s, i + 16, Space), "none")
  }

  /** The body declares that there are no agent's options. */
  predicate NoneOption(s: string) {
    FirstWhere(s, 0, (i: nat) => NoneAt(s, i)).Some?
  }

  /** Where the lazy `(.+?)` that starts at `b` may stop, from `m` on: the first
      point where `\n\n` follows or `$` matches (the end, or just before a
      final newline). */
  function BlockEnd(s: string, m: nat): (r: nat)
    requires m <= |s|
    ensures m <= r <= |s|
    decreases |s| - m
  {
    if m == |s| || (m + 1 < |s| && s[m] == '\n' && s[m + 1] == '\n') || (m + 1 == |s| && s[m] == '\n') then m
    else BlockEnd(s, m + 1)
  }

  /** `Agent's Options:\s*(.+?)(?:\n\n|$)` (case-insensitive, DOTALL) at `i`:
      the span of the group.  When only whitespace follows the label, `\s*`
      gives its last character back to the group. */
  function BlockAt(s: string, i: nat): (r: Option<(nat, nat)>)
    ensures r.Some? ==> r.value.0 < r.value.1 <= |s|
  {
    if !IAt(s, i, "agent's options:") then None
    else
      var k := i + 16;
      var e := SpanEnd(s, k, Space);
      if e == |s| && e == k then None
      else
        var b := if e < |s| then e else e - 1;
        Some((b, BlockEnd(s, b + 1)))
  }

  /** `ao_block`: the group of the leftmost match, or "" without one. */
  function OptionBlock(s: string): (r: string)
  {
    var p := (i: nat) => BlockAt(s, i).Some?;
    match FirstWhere(s, 0, p)
    case None => ""
    case Some(i) => s[BlockAt(s, i).value.0..BlockAt(s, i).value.1]
  }

  /** `non[ -]?transferable|transferable` at `d`: where it ends.  The three
      ways it can match exclude each other. */
  function QualEnd(t: string, d: nat): (r: Option<nat>)
    ensures r.Some? ==> d < r.value <= |t|
  {
    if IAt(t, d, "non") && d + 3 < |t| && (t[d + 3] == ' ' || t[d + 3] == '-') && IAt(t, d + 4, "transferable")
    then Some(d + 16)
    else if IAt(t, d, "non") && IAt(t, d + 3, "transferable") then Some(d + 15)
    else if IAt(t, d, "transferable") then Some(d + 12)
    else None
  }

  /** `\s+(?:stock options|options|Agent's Options)` from `q`: where it ends. */
  function KindEnd(t: string, q: nat): (r: Option<nat>)
    requires q <= |t|
    ensures r.Some? ==> q < r.value <= |t|
  {
    var u := SpanEnd(t, q, Space);
    if u == q then None
    else if IAt(t, u, "stock options") then Some(u + 13)
    else if IAt(t, u, "options") then Some(u + 7)
    else if IAt(t, u, "agent's options") then Some(u + 15)
    else None
  }

  /** The qualifier and the kind of options, from `d`: where they end. */
  function OptionKindEnd(t: string, d: nat): (r: Option<nat>)
    ensures r.Some? ==> d < r.value <= |t|
  {
    match QualEnd(t, d)
    case None => None
    case Some(q) => KindEnd(t, q)
  }

  /** `([\d,]+)\s+<qualifier>\s+<kind>` at `a`: group 1. */
  function QtyAt(t: string, a: nat): (r: Option<string>)
  {
    if a > |t| then None
    else
      var c := SpanEnd(t, a, DigitComma);
      var d := SpanEnd(t, c, Space);
      if c == a || d == c || OptionKindEnd(t, d).None? then None else Some(t[a..c])
  }

  /** `qty`: group 1 of the leftmost match. */
  function Qty(t: string): (r: Option<string>)
    ensures r.None? <==> forall a :: 0 <= a <= |t| ==> QtyAt(t, a).None?
  {
    var p := (a: nat) => QtyAt(t, a).Some?;
    assert forall a: nat :: p(a) == QtyAt(t, a).Some?;
    match FirstWhere(t, 0, p)
    case None => None
    case Some(a) => QtyAt(t, a)
  }

  /** `\b(<qualifier>\s+<kind>)` at `d`: group 1. */
  function KlassAt(t: string, d: nat): (r: Option<string>)
  {
    if d > |t| || !(d == 0 || !IsWordChar(t[d - 1])) then None
    else
      match OptionKindEnd(t, d)
      case None => None
      case Some(e) => Some(t[d..e])
  }

  /** `agent_option_class`: group 1 of the leftmost match, stripped. */
  function Klass(t: string): (r: Option<string>)
    ensures r.None? <==> forall d :: 0 <= d <= |t| ==> KlassAt(t, d).None?
  {
    var p := (d: nat) => KlassAt(t, d).Some?;
    assert forall d: nat :: p(d) == KlassAt(t, d).Some?;
    match FirstWhere(t, 0, p)
    case None => None
    case Some(d) => Some(Strip(KlassAt(t, d).value))
  }

  /** `(?:common\s+)?share` at `c`: where it ends. */
  function ShareEnd(t: string, c: nat): (r: Option<nat>)
    requires c <= |t|
    ensures r.Some? ==> c < r.value <= |t|
  {
    var x := if IAt(t, c, "common") && SpanEnd(t, c + 6, Space) > c + 6 then SpanEnd(t, c + 6, Space) else c;
    if IAt(t, x, "share") then Some(x + 5) else None
  }

  /** `\s*\$([\d\.]+)\s+per\s+(?:common\s+)?share` from `x`: group 1. */
  function PriceTail(t: string, x: nat): (r: Option<string>)
    requires x <= |t|
    ensures r.Some? ==> r.value != [] && forall k :: 0 <= k < |r.value| ==> InCls(r.value[k], DigitDot)
  {
    var e := SpanEnd(t, x, Space);
    if !(e < |t| && t[e] == '$') then None
    else
      var g := SpanEnd(t, e + 1, DigitDot);
      var h := SpanEnd(t, g, Space);
      if g == e + 1 || h == g || !IAt(t, h, "per") then None
      else
        var k := SpanEnd(t, h + 3, Space);
        if k == h + 3 || ShareEnd(t, k).None? then None else Some(t[e + 1..g])
  }

  /** The alternatives `at|at an exercise price of|exercisable at`, in order. */
  const PRICE_LEADS: seq<string> := ["at", "at an exercise price of", "exercisable at"]

  /** The first alternative of `leads` at `y` after which the rest matches: the group. */
  function LeadPrice(t: string, y: nat, leads: seq<string>): (r: Option<string>)
    requires y <= |t|
    ensures r.Some? ==> r.value != [] && forall k :: 0 <= k < |r.value| ==> InCls(r.value[k], DigitDot)
  {
    if leads == [] then None
    else if IAt(t, y, leads[0]) && PriceTail(t, y + |leads[0]|).Some? then PriceTail(t, y + |leads[0]|)
    else LeadPrice(t, y, leads[1..])
  }

  /** `(?:one|each)\s+(?:common\s+)?share\s+(?:<lead>)\s*\$([\d\.]+)...` at `a`. */
  function PriceAt(t: string, a: nat): (r: Option<string>)
    ensures r.Some? ==> r.value != [] && forall k :: 0 <= k < |r.value| ==> InCls(r.value[k], DigitDot)
  {
    var w := if IAt(t, a, "one") then a + 3 else if IAt(t, a, "each") then a + 4 else a;
    if w == a then None
    else
      var b := SpanEnd(t, w, Space);
      if b == w then None
      else
        match ShareEnd(t, b)
        case None => None
        case Some(c) =>
          var y := SpanEnd(t, c, Space);
          if y == c then None else LeadPrice(t, y, PRICE_LEADS)
  }

  /** `price_match.group(1)` of the leftmost match. */
  function Price(t: string): (r: Option<string>)
    ensures r.None? <==> forall a :: 0 <= a <= |t| ==> PriceAt(t, a).None?
    ensures r.Some? ==> r.value != [] && forall k :: 0 <= k < |r.value| ==> InCls(r.value[k], DigitDot)
  {
    var p := (a: nat) => PriceAt(t, a).Some?;
    assert forall a: nat :: p(a) == PriceAt(t, a).Some?;
    match FirstWhere(t, 0, p)
    case None => None
    case Some(a) => PriceAt(t, a)
  }

  /** `float(x)` of a `[\d\.]+` text: its exact value, or `None` where Python
      raises `ValueError` (a second dot, or no digit at all). */
  function FloatText(x: string): (r: Option<Decimal>)
    ensures r.Some? ==> r.value.mantissa >= 0
  {
    var p := (k: nat) => k < |x| && x[k] == '.';
    match FirstWhere(x, 0, p)
    case None => if x == "" then None else Some(Decimal(DigitsValue(x), 0))
    case Some(k) =>
      assert p(k);
      var whole := x[..k];
      var frac := x[k + 1..];
      if '.' in frac || (whole == "" && frac == "") then None
      else Some(Decimal(DigitsValue(whole + frac), |frac|))
  }

  /** The alternatives `for|for a period of|for up to|up to|exercisable for`, in order. */
  const DUR_LEADS: seq<string> := ["for", "for a period of", "for up to", "up to", "exercisable for"]

  /** The optional `\s+a\s+period\s+of` from `x`: where it ends when it matches. */
  function PeriodEnd(t: string, x: nat): (r: Option<nat>)
    requires x <= |t|
    ensures r.Some? ==> x < r.value <= |t|
  {
    var a1 := SpanEnd(t, x, Space);
    if a1 == x || !IAt(t, a1, "a") then None
    else
      var a2 := SpanEnd(t, a1 + 1, Space);
      if a2 == a1 + 1 || !IAt(t, a2, "period") then None
      else
        var a3 := SpanEnd(t, a2 + 6, Space);
        if a3 == a2 + 6 || !IAt(t, a3, "of") then None else Some(a3 + 2)
  }

  /** `\s+(\d{1,3})\s*months?` from `x`: the number of months. */
  function MonthsTail(t: string, x: nat): (r: Option<nat>)
    requires x <= |t|
    ensures r.Some? ==> r.value <= 999
  {
    var u := SpanEnd(t, x, Space);
    if u == x || !MonthsAt(t, u) then None
    else
      var v := SpanEnd(t, u, Digit);
      DigitsBound(t[u..v]);
      Some(DigitsValue(t[u..v]))
  }

  /** The first alternative of `leads` at `a` after which the rest matches,
      each tried with the optional "a period of" first and then without it. */
  function LeadMonths(t: string, a: nat, leads: seq<string>): (r: Option<nat>)
    ensures r.Some? ==> r.value <= 999
  {
    if leads == [] then None
    else if IAt(t, a, leads[0]) then
      var x := a + |leads[0]|;
      var withPeriod := if PeriodEnd(t, x).Some? then MonthsTail(t, PeriodEnd(t, x).value) else None;
      if withPeriod.Some? then withPeriod
      else if MonthsTail(t, x).Some? then MonthsTail(t, x)
      else LeadMonths(t, a, leads[1..])
    else LeadMonths(t, a, leads[1..])
  }

  /** The duration pattern at `a`: group 1 as a number. */
  function DurationAt(t: string, a: nat): (r: Option<nat>)
    ensures r.Some? ==> r.value <= 999
  {
    LeadMonths(t, a, DUR_LEADS)
  }

  /** `int(dur_match.group(1))` of the leftmost match. */
  function Duration(t: string): (r: Option<nat>)
    ensures r.None? <==> forall a :: 0 <= a <= |t| ==> DurationAt(t, a).None?
    ensures r.Some? ==> r.value <= 999
  {
    var p := (a: nat) => DurationAt(t, a).Some?;
    assert forall a: nat :: p(a) == DurationAt(t, a).Some?;
    match FirstWhere(t, 0, p)
    case None => None
    case Some(a) => DurationAt(t, a)
  }

  /** `agents_options_duration_months`: the explicit duration of the block;
      without one, `extract_months(ao_block) or extract_months(body)`. */
  function DurationMonths(block: string, body: string): (r: Option<nat>)
    ensures Duration(block).Some? ==> r == Duration(block)
    ensures Duration(block).None? && ExtractMonths(Some(block)).Some? && ExtractMonths(Some(block)).value != 0 ==>
              r == ExtractMonths(Some(block))
    ensures Duration(block).None? && (ExtractMonths(Some(block)).None? || ExtractMonths(Some(block)).value == 0) ==>
              r == ExtractMonths(Some(body))
    ensures r.Some? ==> r.value <= 999
  {
    match Duration(block)
    case Some(n) => Some(n)
    case None => IntOr(ExtractMonths(Some(block)), ExtractMonths(Some(body)))
  }

  /** The `float(...)` of the unit price raises. */
  predicate PriceRaises(body: string) {
    !NoneOption(body) && Price(OptionBlock(body)).Some? && FloatText(Price(OptionBlock(body)).value).None?
  }

  // ---------------------------------------------------------------------------
  // parse_cpc_birth_unico (pattern variant)
  // ---------------------------------------------------------------------------

  /** The prospectus, effective and commence dates, each as written and in ISO form. */
  method UnicoDates(row0: BirthRow, body: string) returns (row: BirthRow)
    ensures var p := ProspectusDateText(body);
            var e := EffectiveDateText(body);
            var c := CommenceRaw(body);
            row == row0.(prospectusDate := StrOrNull(p), prospectusDateIso := StrOrNull(NormalizedDate(p)),
                         effectiveDate := StrOrNull(e), effectiveDateIso := StrOrNull(NormalizedDate(e)),
                         commenceDate := StrOrNull(c), commenceDateIso := StrOrNull(NormalizedDate(c)))
  {
    row := row0;
    var prospectus := ProspectusDateText(body);
    var prospectusIso := NormalizeDate(prospectus);
    row := row.(prospectusDate := StrOrNull(prospectus), prospectusDateIso := StrOrNull(prospectusIso));

    var effective := EffectiveDateText(body);
    var effectiveIso := NormalizeDate(effective);
    row := row.(effectiveDate := StrOrNull(effective), effectiveDateIso := StrOrNull(effectiveIso));

    var line := CommenceLine(body);
    var commence: Option<string> := None;
    if line.Some? {
      commence := PickCommence(line.value);
    }
    var commenceIso := NormalizeDate(commence);
    row := row.(commenceDate := StrOrNull(commence), commenceDateIso := StrOrNull(commenceIso));
  }

  /** The corporate jurisdiction and the gross proceeds.  The share figures come
      from "(N common shares at $P per share)" when the body has it, and only
      otherwise from the generic readers of the gross proceeds text. */
  method UnicoGross(row0: BirthRow, body: string) returns (row: BirthRow)
    ensures var g := GrossProceedsText(body);
            var sp := ShPr(body);
            row == row0.(corporateJurisdiction := StrOrNull(ExtractedField(body, ["Corporate Jurisdiction"])),
                         grossProceeds := StrOrNull(g),
                         grossProceedsValue := NumOrNull(ParseNumericValue(g)),
                         grossProceedsClass :=
                           if sp.Some? then Str("common shares") else StrOrNull(ParseCurrencyClass(g)),
                         grossProceedsClassVolume :=
                           IntOrNull(ParseIntegerValue(if sp.Some? then Some(sp.value.0) else g)),
                         grossProceedsVolumeValue :=
                           IntOrNull(ParseIntegerValue(if sp.Some? then Some(sp.value.0) else g)),
                         grossProceedsValuePerShare :=
                           NumOrNull(if sp.Some? then ParseNumericValue(Some(sp.value.1)) else ExtractPricePerShare(g)))
  {
    row := row0;
    var jurisdiction := ExtractField(body, ["Corporate Jurisdiction"]);
    row := row.(corporateJurisdiction := StrOrNull(jurisdiction));

    var gross := GrossProceedsText(body);
    row := row.(grossProceeds := StrOrNull(gross));
    row := row.(grossProceedsValue := NumOrNull(ParseNumericValue(gross)));

    var shPr := ShPr(body);
    if shPr.Some? {
      var sh := shPr.value.0;
      var pr := shPr.value.1;
      row := row.(grossProceedsClass := Str("common shares"));
      row := row.(grossProceedsClassVolume := IntOrNull(ParseIntegerValue(Some(sh))));
      row := row.(grossProceedsVolumeValue := IntOrNull(ParseIntegerValue(Some(sh))));
      row := row.(grossProceedsValuePerShare := NumOrNull(ParseNumericValue(Some(pr))));
    } else {
      row := row.(grossProceedsClass := StrOrNull(ParseCurrencyClass(gross)));
      row := row.(grossProceedsClassVolume := IntOrNull(ParseIntegerValue(gross)));
      row := row.(grossProceedsVolumeValue := IntOrNull(ParseIntegerValue(gross)));
      row := row.(grossProceedsValuePerShare := NumOrNull(ExtractPricePerShare(gross)));
    }
  }

  /** Capitalization and escrowed shares.  "N common shares are issued and
      outstanding" decides the capitalization volume and class when present. */
  method UnicoCapital(row0: BirthRow, body: string) returns (row: BirthRow)
    ensures var k := ExtractedField(body, ["Capitalization"]);
            var e := ExtractedField(body, ["Escrowed Shares"]);
            var volume := ParseIntegerValue(if Ios(body).Some? then Ios(body) else k);
            row == row0.(capitalization := StrOrNull(k),
                         capitalizationVolume := IntOrNull(volume),
                         capitalizationVolumeValue := IntOrNull(volume),
                         capitalizationClass :=
                           if Ios(body).Some? then Str("common shares") else StrOrNull(ParseCurrencyClass(k)),
                         escrowedShares := StrOrNull(e),
                         escrowedSharesValue := IntOrNull(ParseIntegerValue(e)),
                         escrowedSharesClass := StrOrNull(ParseCurrencyClass(e)))
  {
    row := row0;
    var capitalization := ExtractField(body, ["Capitalization"]);
    row := row.(capitalization := StrOrNull(capitalization));
    var ios := Ios(body);
    if ios.Some? {
      row := row.(capitalizationVolume := IntOrNull(ParseIntegerValue(ios)));
      row := row.(capitalizationVolumeValue := IntOrNull(ParseIntegerValue(ios)));
      row := row.(capitalizationClass := Str("common shares"));
    } else {
      row := row.(capitalizationVolume := IntOrNull(ParseIntegerValue(capitalization)));
      row := row.(capitalizationVolumeValue := IntOrNull(ParseIntegerValue(capitalization)));
      row := row.(capitalizationClass := StrOrNull(ParseCurrencyClass(capitalization)));
    }

    var escrow := ExtractField(body, ["Escrowed Shares"]);
    row := row.(escrowedShares := StrOrNull(escrow));
    row := row.(escrowedSharesValue := IntOrNull(ParseIntegerValue(escrow)));
    row := row.(escrowedSharesClass := StrOrNull(ParseCurrencyClass(escrow)));
  }

  /** Transfer agent, trading symbol (the record's ticker when the body has
      none), CUSIP, sponsoring member and agent, each from its own line. */
  method UnicoParties(row0: BirthRow, rec: Record, body: string) returns (row: BirthRow)
    ensures var sm := LineValue(body, "sponsoring member:");
            var ag := LineValue(body, "agent:");
            var cu := CusipNumber(body);
            var ts := TradingSymbol(body);
            row == row0.(transferAgent := StrOrNull(TransferAgent(body)),
                         tradingSymbol := if ts.Some? then Str(Strip(ts.value)) else Str(CleanOpt(Get(rec, "ticker"))),
                         cusipNumber := if cu.Some? then Str(Strip(cu.value)) else Null,
                         sponsoringMember := if sm.Some? then Str(Strip(sm.value)) else Null,
                         agent := if ag.Some? then Str(Strip(ag.value)) else Null)
  {
    row := row0;
    var taRaw := LineValue(body, "transfer agent:");
    var ta: Option<string> := if taRaw.Some? then Some(Strip(taRaw.value)) else None;
    if ta.Some? && ta.value != "" {
      ta := Some(StripParen(ta.value));
    }
    row := row.(transferAgent := StrOrNull(ta));

    var ts := TradingSymbol(body);
    row := row.(tradingSymbol := if ts.Some? then Str(Strip(ts.value)) else Str(CleanOpt(Get(rec, "ticker"))));

    var cu := CusipNumber(body);
    row := row.(cusipNumber := if cu.Some? then Str(Strip(cu.value)) else Null);

    var sm := LineValue(body, "sponsoring member:");
    row := row.(sponsoringMember := if sm.Some? then Str(Strip(sm.value)) else Null);

    var ag := LineValue(body, "agent:");
    row := row.(agent := if ag.Some? then Str(Strip(ag.value)) else Null);
  }

  /** The agent's options: the fixed "none" columns when the body says so;
      otherwise the block after the label with the quantity, class, unit price
      and duration read from it.  `raised` reports the `ValueError` of
      `float(...)` on a malformed price. */
  method UnicoOption(row0: BirthRow, body: string) returns (row: BirthRow, raised: bool)
    ensures raised <==> PriceRaises(body)
    ensures !raised ==>
              var none := NoneOption(body);
              var t := OptionBlock(body);
              var pr := Price(t);
              row == row0.(agentOption := if none then Str("none") else if t != "" then Str(CleanSpace(t)) else Null,
                           agentOptionValue := if none then Int(0) else IntOrNull(ParseIntegerValue(Qty(t))),
                           agentOptionClass := if none then Null else StrOrNull(Klass(t)),
                           agentOptionPricePerShare :=
                             if none || pr.None? then Null else Num(FloatText(pr.value).value),
                           agentsOptionsDurationMonths :=
                             if none then Int(0) else IntOrNull(DurationMonths(t, body)))
  {
    row := row0;
    raised := false;
    if NoneOption(body) {
      row := row.(agentOption := Str("none"));
      row := row.(agentOptionValue := Int(0));
      row := row.(agentOptionClass := Null);
      row := row.(agentOptionPricePerShare := Null);
      row := row.(agentsOptionsDurationMonths := Int(0));
      return;
    }
    var block := OptionBlock(body);
    row := row.(agentOption := if block != "" then Str(CleanSpace(block)) else Null);

    var qty := Qty(block);
    row := row.(agentOptionValue := IntOrNull(ParseIntegerValue(qty)));

    var klass := Klass(block);
    row := row.(agentOptionClass := StrOrNull(klass));

    var price := Price(block);
    if price.Some? {
      var value := FloatText(price.value);
      if value.None? {
        raised := true;
        return;
      }
      row := row.(agentOptionPricePerShare := Num(value.value));
    } else {
      row := row.(agentOptionPricePerShare := Null);
    }

    var months := Duration(block);
    if months.Some? {
      row := row.(agentsOptionsDurationMonths := Int(months.value));
    } else {
      row := row.(agentsOptionsDurationMonths := IntOrNull(IntOr(ExtractMonths(Some(block)), ExtractMonths(Some(body)))));
    }
  }

  /** Every column the pattern parser fills, in the order it fills them, before
      `normalize_row`; `raised` when `float(...)` raised on the option price. */
  method UnicoRow(rec: Record, body: string) returns (row: BirthRow, raised: bool)
    requires "composite_key" in rec
    ensures raised <==> PriceRaises(body)
    ensures !raised ==> row.canonicalType == Str(CPC_SHARES) && row.parseVersion == Null
    ensures !raised ==> row.effectiveDate == StrOrNull(EffectiveDateText(body))
    ensures !raised ==> row.commenceDate == StrOrNull(CommenceRaw(body))
    ensures !raised && ShPr(body).Some? ==> row.grossProceedsClass == Str("common shares")
    ensures !raised && NoneOption(body) ==>
              row.agentOption == Str("none") && row.agentOptionValue == Int(0) && row.agentOptionClass == Null &&
              row.agentOptionPricePerShare == Null && row.agentsOptionsDurationMonths == Int(0)
  {
    row := LabelHeader(rec);
    row := UnicoDates(row, body);
    row := UnicoGross(row, body);
    row := UnicoCapital(row, body);
    row := UnicoParties(row, rec, body);
    row, raised := UnicoOption(row, body);
  }

  /** The columns the pattern parser promises something about, read back from
      the normalized row. */
  lemma UnicoColumns(filled: BirthRow, normalized: Row)
    requires IsRow(normalized)
    requires forall f: Field :: Col(normalized, f) == NormValue(ColumnValue(filled, f))
    ensures Col(normalized, CanonicalType) == NormValue(filled.canonicalType)
    ensures Col(normalized, ParseVersion) == NormValue(filled.parseVersion)
    ensures Col(normalized, EffectiveDate) == NormValue(filled.effectiveDate)
    ensures Col(normalized, CommenceDate) == NormValue(filled.commenceDate)
    ensures Col(normalized, GrossProceedsClass) == NormValue(filled.grossProceedsClass)
  {
    UnicoFields(filled);
    assert Col(normalized, CanonicalType) == NormValue(ColumnValue(filled, CanonicalType));
    assert Col(normalized, ParseVersion) == NormValue(ColumnValue(filled, ParseVersion));
    assert Col(normalized, EffectiveDate) == NormValue(ColumnValue(filled, EffectiveDate));
    assert Col(normalized, CommenceDate) == NormValue(ColumnValue(filled, CommenceDate));
    assert Col(normalized, GrossProceedsClass) == NormValue(ColumnValue(filled, GrossProceedsClass));
  }

  /** The record fields behind the columns of `UnicoColumns`. */
  lemma UnicoFields(filled: BirthRow)
    ensures ColumnValue(filled, CanonicalType) == filled.canonicalType
    ensures ColumnValue(filled, ParseVersion) == filled.parseVersion
    ensures ColumnValue(filled, EffectiveDate) == filled.effectiveDate
    ensures ColumnValue(filled, CommenceDate) == filled.commenceDate
    ensures ColumnValue(filled, GrossProceedsClass) == filled.grossProceedsClass
  {
  }

  /** The agent's option columns, read back from the normalized row. */
  lemma OptionColumns(filled: BirthRow, normalized: Row)
    requires IsRow(normalized)
    requires forall f: Field :: Col(normalized, f) == NormValue(ColumnValue(filled, f))
    ensures Col(normalized, AgentOption) == NormValue(filled.agentOption)
    ensures Col(normalized, AgentOptionValue) == NormValue(filled.agentOptionValue)
    ensures Col(normalized, AgentOptionClass) == NormValue(filled.agentOptionClass)
    ensures Col(normalized, AgentOptionPricePerShare) == NormValue(filled.agentOptionPricePerShare)
    ensures Col(normalized, AgentsOptionsDurationMonths) == NormValue(filled.agentsOptionsDurationMonths)
  {
    OptionFields(filled);
    OptionTermFields(filled);
    assert Col(normalized, AgentOption) == NormValue(ColumnValue(filled, AgentOption));
    assert Col(normalized, AgentOptionValue) == NormValue(ColumnValue(filled, AgentOptionValue));
    assert Col(normalized, AgentOptionClass) == NormValue(ColumnValue(filled, AgentOptionClass));
    assert Col(normalized, AgentOptionPricePerShare) == NormValue(ColumnValue(filled, AgentOptionPricePerShare));
    assert Col(normalized, AgentsOptionsDurationMonths) == NormValue(ColumnValue(filled, AgentsOptionsDurationMonths));
  }

  /** The record fields behind the agent's option columns. */
  lemma OptionFields(filled: BirthRow)
    ensures ColumnValue(filled, AgentOption) == filled.agentOption
    ensures ColumnValue(filled, AgentOptionValue) == filled.agentOptionValue
    ensures ColumnValue(filled, AgentOptionClass) == filled.agentOptionClass
  {
  }

  /** The record fields behind the option price and duration columns. */
  lemma OptionTermFields(filled: BirthRow)
    ensures ColumnValue(filled, AgentOptionPricePerShare) == filled.agentOptionPricePerShare
    ensures ColumnValue(filled, AgentsOptionsDurationMonths) == filled.agentsOptionsDurationMonths
  {
  }

  /** The fixed texts the parser writes are left alone by `normalize_row`. */
  lemma FixedTextsClean()
    ensures CleanSpace("none") == "none"
    ensures CleanSpace("common shares") == "common shares"
  {
    NoneClean();
    CommonSharesClean();
  }

  lemma NoneClean()
    ensures CleanSpace("none") == "none"
  {
    var a := "none";
    assert forall k :: 0 <= k < |a| ==> a[k] in {'n', 'o', 'e'};
    assert NoTab(a) && NoDoubleSpace(a) && !IsSpace(a[0]) && !IsSpace(a[|a| - 1]);
    CleanSpaceFixed(a);
  }

  lemma CommonSharesClean()
    ensures CleanSpace("common shares") == "common shares"
  {
    var b := "common shares";
    assert forall k :: 0 <= k < |b| && k != 6 ==> b[k] in {'c', 'o', 'm', 'n', 's', 'h', 'a', 'r', 'e'};
    assert b[6] == ' ';
    assert NoTab(b) && NoDoubleSpace(b) && !IsSpace(b[0]) && !IsSpace(b[|b| - 1]);
    CleanSpaceFixed(b);
  }

  /** The pattern-based parser `parse_cpc_birth_unico` of `cpc_birth_unico_parser.py`. */
  method ParseUnico(rec: Record) returns (out: Outcome)
    ensures !IsUnicoListing(rec) <==> out == Rejected
    ensures out.Raised? <==> IsUnicoListing(rec) && ("composite_key" !in rec || PriceRaises(BodyText(rec)))
    ensures out.Parsed? ==> IsRow(out.row)
    ensures out.Parsed? ==> Col(out.row, CanonicalType) == Str(CPC_SHARES)
    ensures out.Parsed? ==> Col(out.row, ParseVersion) == Null
    ensures out.Parsed? ==> Col(out.row, EffectiveDate) == NormValue(StrOrNull(EffectiveDateText(BodyText(rec))))
    ensures out.Parsed? ==> Col(out.row, CommenceDate) == NormValue(StrOrNull(CommenceRaw(BodyText(rec))))
    ensures out.Parsed? && ShPr(BodyText(rec)).Some? ==> Col(out.row, GrossProceedsClass) == Str("common shares")
    ensures out.Parsed? && NoneOption(BodyText(rec)) ==>
              Col(out.row, AgentOption) == Str("none") && Col(out.row, AgentOptionValue) == Int(0) &&
              Col(out.row, AgentOptionClass) == Null && Col(out.row, AgentOptionPricePerShare) == Null &&
              Col(out.row, AgentsOptionsDurationMonths) == Int(0)
    ensures out.Parsed? ==> forall k :: 0 <= k < |out.row| ==> NormValue(out.row[k]) == out.row[k]
  {
    if !IsUnicoListing(rec) {
      return Rejected;
    }
    if "composite_key" !in rec {
      return Raised("KeyError: composite_key");
    }
    var body := BodyText(rec);
    var filled, raised := UnicoRow(rec, body);
    if raised {
      return Raised("ValueError: could not convert string to float");
    }
    var normalized := NormalizeFilled(filled);
    UnicoColumns(filled, normalized);
    OptionColumns(filled, normalized);
    CpcSharesIsClean();
    CleanStringFixed(CPC_SHARES);
    FixedTextsClean();
    CleanStringFixed("none");
    CleanStringFixed("common shares");
    return Parsed(normalized);
  }
}
