/** The CPC information-circular event parser
    (`cpc_events_information_circular_v1_parser.py`): one bulletin, chosen by
    its composite key, becomes one event row; the circular's own date and its
    stated purpose are read from the body.  Every step that fails raises, and
    the parser touches no status column. */
module Circular {
  import opened Wrappers
  import opened Text
  import opened DateFormats
  import opened Spacing
  import opened Depurar
  import opened Events

  const DEFAULT_PROFILE: string := "cpc_events_information_circular_v1"
  const CIRCULAR_TYPE: string := "INFORMATION_CIRCULAR"
  const PLAIN_SUMMARY: string := "CPC Information Circular accepted for filing."

  /** The summary that names the circular's date. */
  function DatedSummary(iso: string): string {
    "CPC Information Circular accepted for filing (circular dated " + iso + ")."
  }

  // ---------------------------------------------------------------------------
  // _parse_long_date
  // ---------------------------------------------------------------------------

  const LONG_DATE_FORMATS: seq<Format> := [FmtLong, FmtShort]

  /** What `_parse_long_date` returns: `None` for blank text; otherwise the ISO
      text of the first of "%B %d, %Y" and "%b %d, %Y" that parses the stripped
      text with its whitespace runs collapsed. */
  function LongDate(s: string): (r: Option<string>)
    ensures Strip(s) == "" ==> r.None?
    ensures r.Some? ==> IsoShaped(r.value)
    ensures r.Some? <==> Strip(s) != "" &&
                         (Strptime(Collapse(Strip(s), false), FmtLong).Some? ||
                          Strptime(Collapse(Strip(s), false), FmtShort).Some?)
  {
    var t := Strip(s);
    if t == "" then None
    else
      var d := ParseFirst(Collapse(t, false), LONG_DATE_FORMATS);
      assert LONG_DATE_FORMATS[1..][1..] == [];
      if d.Some? then Some(Iso(d.value)) else None
  }

  /** A date written "<Month> <d>, <yyyy>", with the month's name or
      abbreviation in any letter case, reads back as that date's ISO text. */
  lemma LongDateReadsBack(name: string, d: Date)
    requires ValidDate(d) && SpellsMonth(name, d)
    ensures LongDate(NamedDateText(name, d)) == Some(Iso(d))
  {
    var s := NamedDateText(name, d);
    NamedDateClean(name, d);
    StripIdentity(s);
    CollapseIdentity(s, false);
    NamedDateFirst(name, d, []);
    assert LONG_DATE_FORMATS == [FmtLong, FmtShort] + [];
  }

  /** `_parse_long_date`: the loop over the two formats with early return. */
  method ParseLongDate(s: string) returns (r: Option<string>)
    ensures r == LongDate(s)
  {
    var t := Strip(s);
    if t == "" {
      return None;
    }
    var d := TryFormats(Collapse(t, false), LONG_DATE_FORMATS);
    if d.Some? {
      return Some(Iso(d.value));
    }
    return None;
  }

  // ---------------------------------------------------------------------------
  // cpc\s+information\s+circular\s+dated\s+([A-Za-z]{3,9}\s+\d{1,2},\s+\d{4})
  // ---------------------------------------------------------------------------

  /** The end of `[A-Za-z]{3,9}\s+\d{1,2},\s+\d{4}` at `p`.  A run of more than
      nine letters fails: the tenth letter is not whitespace. */
  function CircDateEnd(s: string, p: nat): (r: Option<nat>)
    requires p <= |s|
    ensures r.Some? ==> p + 3 <= SpanEnd(s, p, Letter) <= p + 9 && SpanEnd(s, p, Letter) < r.value <= |s|
    ensures r.Some? ==> GroupShape(s, p, r.value)
  {
    var a := SpanEnd(s, p, Letter);
    if a < p + 3 || a > p + 9 then None
    else
      var b := SpanEnd(s, a, Space);
      if b == a || b == |s| || !IsDigit(s[b]) then None
      else
        var d := DayEnd(s, b);
        if !(d < |s| && s[d] == ',') then None
        else
          var c := SpanEnd(s, d + 1, Space);
          if c == d + 1 || !FourDigitsAt(s, c) then None else Some(c + 4)
  }

  /** A date group from `a` to `b`: it starts with a letter and ends with a digit. */
  predicate GroupShape(s: string, a: nat, b: nat) {
    a < b <= |s| && IsLetter(s[a]) && IsDigit(s[b - 1])
  }

  const CIRCULAR_DATED: seq<string> := ["cpc", "information", "circular", "dated"]

  /** The date group of a match at `i`. */
  function CircDateMatchAt(s: string, i: nat): (r: Option<(nat, nat)>)
    ensures r.Some? ==> GroupShape(s, r.value.0, r.value.1)
  {
    var ph := PhraseThenSpace(s, i, CIRCULAR_DATED);
    if ph.None? then None
    else
      var p := ph.value.1;
      var e := CircDateEnd(s, p);
      if e.None? then None else Some((p, e.value))
  }

  predicate CircDateMatches(s: string, i: nat) { CircDateMatchAt(s, i).Some? }

  /** No match starts before `i`. */
  predicate FirstCircDate(s: string, i: nat) { forall j :: 0 <= j < i ==> !CircDateMatches(s, j) }

  /** The leftmost match. */
  function CircDateMatch(s: string): (r: Option<(nat, nat)>)
    ensures r.Some? <==> exists i :: 0 <= i <= |s| && CircDateMatches(s, i)
    ensures r.Some? ==> exists i :: 0 <= i <= |s| && CircDateMatchAt(s, i) == r && FirstCircDate(s, i)
    ensures r.Some? ==> r.value.0 < r.value.1 <= |s|
  {
    var cp := (i: nat) => CircDateMatches(s, i);
    assert forall i: nat :: cp(i) == CircDateMatches(s, i);
    var f := FirstWhere(s, 0, cp);
    if f.None? then
      assert forall i :: 0 <= i <= |s| ==> !CircDateMatches(s, i);
      None
    else
      var i := f.value;
      assert 0 <= i <= |s| && CircDateMatches(s, i) && FirstCircDate(s, i);
      CircDateMatchAt(s, i)
  }

  // ---------------------------------------------------------------------------
  // for\s+the\s+purpose\s+of\s+(.+?)(?:\.\s|$)        IGNORECASE | DOTALL
  // ---------------------------------------------------------------------------

  /** `(?:\.\s|$)` at `x`; without MULTILINE, `$` matches at the end of the text
      and before a newline that ends it. */
  predicate PurposeStop(s: string, x: nat) {
    (x + 1 < |s| && s[x] == '.' && IsSpace(s[x + 1])) || x == |s| || (x + 1 == |s| && s[x] == '\n')
  }

  /** The lazy group when the whitespace after "of" runs from `e` to `p`: it
      ends at the first stop after its first character.  When the whitespace
      reaches the end of the text, the regex gives its last character back to
      the group, whose match then needs at least two whitespace characters. */
  function PurposeGroup(s: string, e: nat, p: nat): (r: Option<(nat, nat)>)
    requires e < p <= |s|
    ensures r.Some? ==> r.value.0 < r.value.1 <= |s| && PurposeStop(s, r.value.1)
    ensures p < |s| ==> r.Some? && r.value.0 == p
    ensures r.Some? && r.value.0 == p ==> forall x :: p < x < r.value.1 ==> !PurposeStop(s, x)
  {
    if p < |s| then
      var sp := (x: nat) => PurposeStop(s, x);
      assert forall x: nat :: sp(x) == PurposeStop(s, x);
      var x := FirstWhere(s, p + 1, sp);
      assert sp(|s|);
      Some((p, x.value))
    else if p - e >= 2 then Some((p - 1, p))
    else None
  }

  const PURPOSE_OF: seq<string> := ["for", "the", "purpose", "of"]

  function PurposeMatchAt(s: string, i: nat): (r: Option<(nat, nat)>)
    ensures r.Some? ==> r.value.0 < r.value.1 <= |s|
  {
    var ph := PhraseThenSpace(s, i, PURPOSE_OF);
    if ph.None? then None else PurposeGroup(s, ph.value.0, ph.value.1)
  }

  predicate PurposeMatches(s: string, i: nat) { PurposeMatchAt(s, i).Some? }

  /** No match starts before `i`. */
  predicate FirstPurpose(s: string, i: nat) { forall j :: 0 <= j < i ==> !PurposeMatches(s, j) }

  /** The leftmost match. */
  function PurposeMatch(s: string): (r: Option<(nat, nat)>)
    ensures r.Some? <==> exists i :: 0 <= i <= |s| && PurposeMatches(s, i)
    ensures r.Some? ==> exists i :: 0 <= i <= |s| && PurposeMatchAt(s, i) == r && FirstPurpose(s, i)
    ensures r.Some? ==> r.value.0 < r.value.1 <= |s|
  {
    var pp := (i: nat) => PurposeMatches(s, i);
    assert forall i: nat :: pp(i) == PurposeMatches(s, i);
    var f := FirstWhere(s, 0, pp);
    if f.None? then None else PurposeMatchAt(s, f.value)
  }

  /** The phrase followed by whitespace and at least one more character always
      gives a match: the end of the text is a stop. */
  lemma PurposeAlwaysStops(s: string, i: nat)
    requires PhraseThenSpace(s, i, PURPOSE_OF).Some? && PhraseThenSpace(s, i, PURPOSE_OF).value.1 < |s|
    ensures PurposeMatch(s).Some?
  {
    assert PurposeMatches(s, i);
  }

  /** Python `s.rstrip(c)`: drops trailing copies of `c`. */
  function RStripChar(s: string, c: char): (r: string)
    ensures r == [] || r[|r| - 1] != c
    ensures |r| <= |s| && r == s[..|r|]
    ensures forall k :: |r| <= k < |s| ==> s[k] == c
  {
    if s != [] && s[|s| - 1] == c then RStripChar(s[..|s| - 1], c) else s
  }

  /** The purpose text: the group with whitespace collapsed, stripped, and
      trailing full stops removed; `None` when nothing remains. */
  function Purpose(body: string): (r: Option<string>)
    ensures PurposeMatch(body).None? ==> r.None?
    ensures r.Some? ==> r.value != "" && r.value[|r.value| - 1] != '.' &&
                        OnlyPlainSpaces(r.value) && Spacing.NoDoubleSpace(r.value) && !IsSpace(r.value[0])
    ensures PurposeMatch(body).Some? ==>
              var m := PurposeMatch(body).value;
              var u := RStripChar(CleanWs(body[m.0..m.1]), '.');
              r == (if u == "" then None else Some(u))
  {
    var m := PurposeMatch(body);
    if m.None? then None
    else
      var t := CleanWs(body[m.value.0..m.value.1]);
      var u := RStripChar(t, '.');
      PrefixKeepsSpacing(t, |u|);
      if u == "" then None else Some(u)
  }

  /** A prefix of clean text has single plain spaces and no leading blank. */
  lemma PrefixKeepsSpacing(t: string, n: nat)
    requires WsClean(t) && n <= |t|
    ensures OnlyPlainSpaces(t[..n]) && Spacing.NoDoubleSpace(t[..n])
    ensures n > 0 ==> !IsSpace(t[..n][0])
  {
    var u := t[..n];
    assert forall k :: 0 <= k < |u| ==> u[k] == t[k];
  }

  /** `parse_information_circular`: the circular's date and the purpose. */
  function ParseInformationCircular(body: string): (r: (Option<string>, Option<string>))
    ensures r.0.Some? ==> IsoShaped(r.0.value) && CircDateMatch(body).Some?
    ensures var m := CircDateMatch(body);
            m.Some? ==> r.0 == LongDate(body[m.value.0..m.value.1])
    ensures r.1 == Purpose(body)
  {
    var m := CircDateMatch(body);
    var date := if m.Some? then LongDate(body[m.value.0..m.value.1]) else None;
    (date, Purpose(body))
  }

  // ---------------------------------------------------------------------------
  // Reading back "CPC Information Circular dated <Month d, yyyy>"
  // ---------------------------------------------------------------------------

  const CIRCULAR_LEAD: string := "CPC Information Circular dated "

  /** The words of the lead phrase, matched ignoring case. */
  lemma CircularLeadWords(s: string)
    requires 31 <= |s| && s[..31] == CIRCULAR_LEAD
    ensures IAt(s, 0, "cpc") && IAt(s, 4, "information") && IAt(s, 16, "circular") && IAt(s, 25, "dated")
  {
    assert forall k :: 0 <= k < 31 ==> s[k] == CIRCULAR_LEAD[k];
    LeadWordAt(s, 0, "CPC", "cpc");
    LeadWordAt(s, 4, "Information", "information");
    LeadWordAt(s, 16, "Circular", "circular");
    LeadWordAt(s, 25, "dated", "dated");
  }

  /** The word `v` of the lead phrase at `i` matches the pattern word `w`. */
  lemma LeadWordAt(s: string, i: nat, v: string, w: string)
    requires 31 <= |s| && i + |v| <= 31 && |v| == |w|
    requires forall k :: 0 <= k < |v| ==> s[i + k] == v[k] && ToLower(v[k]) == ToLower(w[k])
    ensures IAt(s, i, w)
  {
  }

  /** The single spaces between the words of the lead phrase. */
  lemma CircularLeadSpaces(s: string)
    requires 31 <= |s| && s[..31] == CIRCULAR_LEAD
    ensures SpanEnd(s, 3, Space) == 4 && SpanEnd(s, 15, Space) == 16 && SpanEnd(s, 24, Space) == 25
    ensures s[30] == ' '
  {
    var lead := s[..31];
    assert s[3] == lead[3] == ' ' && s[4] == lead[4] == 'I';
    assert s[15] == lead[15] == ' ' && s[16] == lead[16] == 'C';
    assert s[24] == lead[24] == ' ' && s[25] == lead[25] == 'd';
    assert s[30] == lead[30] == ' ';
    SpanEndIs(s, 3, 4, Space);
    SpanEndIs(s, 15, 16, Space);
    SpanEndIs(s, 24, 25, Space);
  }

  /** The lead phrase followed by a non-blank character: the phrase ends at 30
      and its whitespace at 31. */
  lemma CircularLeadPhrase(s: string)
    requires 31 < |s| && s[..31] == CIRCULAR_LEAD && !IsSpace(s[31])
    ensures PhraseThenSpace(s, 0, CIRCULAR_DATED) == Some((30, 31))
  {
    CircularLeadWords(s);
    CircularLeadSpaces(s);
    SpanEndIs(s, 30, 31, Space);
    assert PhraseEnd(s, 25, ["dated"]) == Some(30);
    assert CIRCULAR_DATED[1..][1..][1..] == ["dated"];
    assert PhraseEnd(s, 16, ["circular", "dated"]) == Some(30);
    assert PhraseEnd(s, 4, ["information", "circular", "dated"]) == Some(30);
  }

  /** `[A-Za-z]{3,9}\s+\d{1,2},\s+\d{4}` from `p` to the end of `s` when
      three to nine letters run from `p` to `a`, one space follows, then an
      `n`-digit day, ", " and four digits. */
  lemma CircDateEndLaid(s: string, p: nat, a: nat, n: nat)
    requires p + 3 <= a <= p + 9 && 1 <= n <= 2 && a + 1 + n + 6 == |s|
    requires forall k :: p <= k < a ==> IsLetter(s[k])
    requires s[a] == ' ' && IsDigit(s[a + 1]) && (n == 2 ==> IsDigit(s[a + 2]))
    requires s[a + 1 + n] == ',' && s[a + 2 + n] == ' ' && FourDigitsAt(s, a + 3 + n)
    ensures CircDateEnd(s, p) == Some(|s|)
  {
    SpanEndIs(s, p, a, Letter);
    SpanEndIs(s, a, a + 1, Space);
    assert DayEnd(s, a + 1) == a + 1 + n;
    SpanEndIs(s, a + 2 + n, a + 3 + n, Space);
  }

  /** A text that starts with the lead phrase and whose date group runs to its
      end: the leftmost match is at the start and its group is the rest. */
  lemma CircDateMatchLaid(s: string)
    requires 31 < |s| && s[..31] == CIRCULAR_LEAD && !IsSpace(s[31])
    requires CircDateEnd(s, 31) == Some(|s|)
    ensures CircDateMatch(s) == Some((31, |s|))
  {
    CircularLeadPhrase(s);
    assert CircDateMatchAt(s, 0) == Some((31, |s|));
    assert CircDateMatches(s, 0);
  }

  /** A date written with a three-to-nine-letter month word matches the
      circular's date group to its end. */
  lemma CircDateEndNamed(pre: string, name: string, d: Date)
    requires ValidDate(d) && 3 <= |name| <= 9 && forall k :: 0 <= k < |name| ==> IsLetter(name[k])
    ensures CircDateEnd(pre + NamedDateText(name, d), |pre|) == Some(|pre + NamedDateText(name, d)|)
  {
    NamedDateAt(pre, name, d);
    CircDateEndLaid(pre + NamedDateText(name, d), |pre|, |pre| + |name|, |NatToString(d.day)|);
  }

  /** Under the layout of `CircDateMatchLaid`, the circular's date is
      `_parse_long_date` of everything after the lead phrase. */
  lemma CircularDateLaid(s: string)
    requires 31 < |s| && s[..31] == CIRCULAR_LEAD && !IsSpace(s[31])
    requires CircDateEnd(s, 31) == Some(|s|)
    ensures ParseInformationCircular(s).0 == LongDate(s[31..|s|])
  {
    CircDateMatchLaid(s);
  }

  /** Where the lead phrase and the date sit in their concatenation. */
  lemma CircularConcat(date: string)
    requires date != []
    ensures var s := CIRCULAR_LEAD + date;
            |s| == 31 + |date| && s[..31] == CIRCULAR_LEAD && s[31] == date[0] && s[31..|s|] == date
  {
    var s := CIRCULAR_LEAD + date;
    assert s[31..|s|] == date;
  }

  /** A body "CPC Information Circular dated <Month d, yyyy>", with the month's
      name or abbreviation in any letter case, gives that date's ISO text. */
  lemma CircularReadsBack(name: string, d: Date)
    requires ValidDate(d) && SpellsMonth(name, d)
    ensures ParseInformationCircular(CIRCULAR_LEAD + NamedDateText(name, d)).0 == Some(Iso(d))
  {
    var date := NamedDateText(name, d);
    SpelledMonthLetters(name, d);
    MonthNameHeads(d.month - 1);
    assert |Lower(name)| == |name|;
    CircDateEndNamed(CIRCULAR_LEAD, name, d);
    CircularConcat(date);
    CircularDateLaid(CIRCULAR_LEAD + date);
    LongDateReadsBack(name, d);
  }

  // ---------------------------------------------------------------------------
  // find_cpc_birth_id
  // ---------------------------------------------------------------------------

  /** The company name contains `c`, ignoring case (`ilike.%c%`). */
  predicate NameHas(b: Birth, c: string) {
    b.companyName.Some? && IContains(b.companyName.value, c)
  }

  /** `find_cpc_birth_id`: the stripped ticker exactly, else the stripped
      company anywhere in the company name; the earliest bulletin date wins. */
  function CircularBirthId(births: seq<Birth>, company: string, ticker: string): (r: Option<string>)
    ensures r.Some? ==> exists k :: 0 <= k < |births| && births[k].id == r.value &&
                          ((Strip(ticker) != "" && births[k].ticker == Some(Strip(ticker))) ||
                           (Strip(company) != "" && NameHas(births[k], Strip(company))))
    ensures r.None? <==> forall k :: 0 <= k < |births| ==>
                          !(Strip(ticker) != "" && births[k].ticker == Some(Strip(ticker))) &&
                          !(Strip(company) != "" && NameHas(births[k], Strip(company)))
  {
    var c := Strip(company);
    var t := Strip(ticker);
    var byTicker := if t != "" then EarliestLookup(births, (b: Birth) => b.ticker == Some(t)) else None;
    if byTicker.Some? then byTicker
    else if c != "" then EarliestLookup(births, (b: Birth) => NameHas(b, c))
    else None
  }

  /** A row the ticker lookup returns has no earlier bulletin date than any
      other row with that ticker. */
  lemma CircularTickerEarliest(births: seq<Birth>, company: string, ticker: string)
    requires Strip(ticker) != ""
    requires exists k :: 0 <= k < |births| && births[k].ticker == Some(Strip(ticker))
    ensures var r := CircularBirthId(births, company, ticker);
            r.Some? && (exists k :: 0 <= k < |births| && births[k].id == r.value &&
                          births[k].ticker == Some(Strip(ticker)) &&
                          forall j :: 0 <= j < |births| && births[j].ticker == Some(Strip(ticker)) ==>
                                      !Before(births[j], births[k]))
  {
    var t := Strip(ticker);
    var p := (b: Birth) => b.ticker == Some(t);
    assert exists k :: 0 <= k < |births| && p(births[k]);
  }

  // ---------------------------------------------------------------------------
  // main
  // ---------------------------------------------------------------------------

  /** `fetch_bulletin_by_key`: the first row of the view with that composite key. */
  function FetchBulletin(view: seq<Record>, key: string): (r: Option<Record>)
    ensures r.Some? <==> exists k :: 0 <= k < |view| && Get(view[k], "composite_key") == Some(key)
    ensures r.Some? ==> Get(r.value, "composite_key") == Some(key) && r.value in view
    decreases |view|
  {
    if view == [] then None
    else if Get(view[0], "composite_key") == Some(key) then Some(view[0])
    else
      var r := FetchBulletin(view[1..], key);
      assert forall k :: 1 <= k < |view| ==> view[k] == view[1..][k - 1];
      r
  }

  /** The event row `main` builds for bulletin `rec` under composite key `key`
      once the birth row `id` is known: its body is parsed and the circular's
      date and purpose go into `EventRowOf`. */
  function CircularRow(key: string, rec: Record, id: string, profileEnv: Option<string>): EventRow
  {
    var body := Get(rec, "body_text").GetOr("");
    var parsed := ParseInformationCircular(body);
    EventRowOf(key, id, Get(rec, "bulletin_date"), parsed.0, parsed.1, body, profileEnv)
  }

  /** The dictionary `main` inserts, from the parsed circular date and purpose. */
  function EventRowOf(key: string, id: string, bulletinDate: Option<string>, date: Option<string>,
                      purpose: Option<string>, body: string, profileEnv: Option<string>): (row: EventRow)
    requires date.Some? ==> date.value != ""
    ensures row.cpcBirthId == Some(id) && row.compositeKey == Some(key) && row.eventType == CIRCULAR_TYPE
    ensures row.bulletinDate == bulletinDate && row.effectiveDate == (if date.Some? then date else bulletinDate)
    ensures row.effectiveTime.None? && row.effectiveText == purpose
    ensures row.summary == (if date.Some? then DatedSummary(date.value) else PLAIN_SUMMARY)
    ensures row.bodyRaw == body && row.parseVersion == OrElse(profileEnv, Some(DEFAULT_PROFILE)).value
  {
    var summary := if date.Some? then DatedSummary(date.value) else PLAIN_SUMMARY;
    EventRow(Some(id), Some(key), CIRCULAR_TYPE, bulletinDate, OrElse(date, bulletinDate),
             None, purpose, summary, body, OrElse(profileEnv, Some(DEFAULT_PROFILE)).value)
  }

  /** `main`: the event row for the bulletin named by `COMPOSITE_KEY`, or the
      error raised first: no key, key not in the view, blank body, birth row
      not found.  `insert_event` is the caller's business. */
  function CircularMain(keyEnv: Option<string>, profileEnv: Option<string>,
                        view: seq<Record>, births: seq<Birth>): (out: EventOutcome)
    ensures !out.NoEvent?
    ensures keyEnv.None? || keyEnv.value == "" ==> out.Failed?
    ensures out.Event? ==>
              var key := Strip(keyEnv.value);
              var b := FetchBulletin(view, key);
              b.Some? && Strip(Get(b.value, "body_text").GetOr("")) != "" &&
              var id := CircularBirthId(births, Get(b.value, "company").GetOr(""), Get(b.value, "ticker").GetOr(""));
              id.Some? && id.value != "" && out.row == CircularRow(key, b.value, id.value, profileEnv)
    ensures keyEnv.Some? && keyEnv.value != "" ==>
              var key := Strip(keyEnv.value);
              var b := FetchBulletin(view, key);
              (out.Failed? <==>
                 b.None? || Strip(Get(b.value, "body_text").GetOr("")) == "" ||
                 CircularBirthId(births, Get(b.value, "company").GetOr(""), Get(b.value, "ticker").GetOr("")).GetOr("") == "")
  {
    if keyEnv.None? || keyEnv.value == "" then Failed("RuntimeError: COMPOSITE_KEY not set")
    else
      var key := Strip(keyEnv.value);
      var b := FetchBulletin(view, key);
      if b.None? then Failed("RuntimeError: composite key not found in the view")
      else
        var rec := b.value;
        var company := Get(rec, "company").GetOr("");
        var ticker := Get(rec, "ticker").GetOr("");
        var body := Get(rec, "body_text").GetOr("");
        if Strip(body) == "" then Failed("RuntimeError: empty body_text")
        else
          var id := CircularBirthId(births, company, ticker);
          if id.None? || id.value == "" then Failed("RuntimeError: cpc_birth_id not found")
          else Event(CircularRow(key, rec, id.value, profileEnv))
  }
}
