/** The CPC filing-statement event parser (`cpc_filing_statement_parser_v1.py`):
    the effective date is the first "dated <Month> <d>, <yyyy>" of the bulletin
    body, the birth row is resolved by ticker, and the status updates clear
    `parser_parsed_at` when a record is claimed. */
module Filing {
  import opened Wrappers
  import opened Text
  import opened DateFormats
  import opened Spacing
  import opened Depurar
  import opened Events
  import opened Status

  const DEFAULT_PROFILE: string := "cpc_filing_statement_v1"
  const DEFAULT_TYPE: string := "CPC-FILING STATEMENT"
  const FILING_SUMMARY: string := "Exchange accepted for filing the Company's CPC Filing Statement."

  /** `PARSER_PROFILE_ENV`: the stripped environment value, or the default when
      that is unset or blank.  It is also the `parse_version` of every row. */
  function Profile(env: Option<string>): (r: string)
    ensures r != ""
    ensures env.None? ==> r == DEFAULT_PROFILE
    ensures env.Some? && Strip(env.value) != "" ==> r == Strip(env.value)
    ensures env.Some? && Strip(env.value) == "" ==> r == DEFAULT_PROFILE
  {
    var v := Strip(env.GetOr(DEFAULT_PROFILE));
    if v == "" then DEFAULT_PROFILE else v
  }

  // ---------------------------------------------------------------------------
  // parse_dated_to_yyyy_mm_dd
  // ---------------------------------------------------------------------------

  /** `text.replace("\r", "")`. */
  function DropCR(s: string): (r: string)
    ensures '\r' !in r
    ensures forall c :: c in r ==> c in s
  {
    if s == [] then []
    else (if s[0] == '\r' then [] else [s[0]]) + DropCR(s[1..])
  }

  /** `\b` before a word character at `i`: the start of the text or a non-word
      character before it. */
  predicate WordStart(s: string, i: nat) {
    i == 0 || (i <= |s| && !IsWordChar(s[i - 1]))
  }

  /** `\b` after a word character at `i`: the end of the text or a non-word
      character at it. */
  predicate WordStop(s: string, i: nat) {
    i >= |s| || !IsWordChar(s[i])
  }

  /** `\bdated\s+([A-Za-z]+)\s+(\d{1,2}),\s*(\d{4})\b` at `i`, ignoring case:
      month start and end, day start and end, year start.  Each repetition is
      followed by a character it cannot take, so none gives anything back. */
  function DatedMatchAt(s: string, i: nat): (r: Option<(nat, nat, nat, nat, nat)>)
    ensures r.Some? ==> WordStart(s, i) && IAt(s, i, "dated")
    ensures r.Some? ==> var (k, a, b, d, c) := r.value;
                        k < a < b < d < c && c + 4 <= |s| && d <= b + 2
    ensures r.Some? ==> var (k, a, b, d, c) := r.value;
                        (forall j :: k <= j < a ==> IsLetter(s[j])) &&
                        (forall j :: b <= j < d ==> IsDigit(s[j])) &&
                        (forall j :: c <= j < c + 4 ==> IsDigit(s[j])) && WordStop(s, c + 4)
  {
    if !WordStart(s, i) then None
    else
      var ph := PhraseThenSpace(s, i, ["dated"]);
      if ph.None? then None
      else
        var k := ph.value.1;
        var a := SpanEnd(s, k, Letter);
        if a == k then None
        else DatedTail(s, k, a)
  }

  /** The part of the pattern after the month name, `\s+(\d{1,2}),\s*(\d{4})\b`. */
  function DatedTail(s: string, k: nat, a: nat): (r: Option<(nat, nat, nat, nat, nat)>)
    requires k < a <= |s| && forall j :: k <= j < a ==> IsLetter(s[j])
    ensures r.Some? ==> var (k', a', b, d, c) := r.value;
                        k' == k && a' == a && a < b < d < c && c + 4 <= |s| && d <= b + 2 &&
                        (forall j :: b <= j < d ==> IsDigit(s[j])) &&
                        (forall j :: c <= j < c + 4 ==> IsDigit(s[j])) && WordStop(s, c + 4)
  {
    var b := SpanEnd(s, a, Space);
    if b == a || b == |s| || !IsDigit(s[b]) then None
    else
      var d := DayEnd(s, b);
      if !(d < |s| && s[d] == ',') then None
      else
        var c := SpanEnd(s, d + 1, Space);
        if FourDigitsAt(s, c) && WordStop(s, c + 4) then Some((k, a, b, d, c)) else None
  }

  predicate DatedMatches(s: string, i: nat) { DatedMatchAt(s, i).Some? }

  /** No match starts before `i`. */
  predicate FirstDated(s: string, i: nat) { forall j :: 0 <= j < i ==> !DatedMatches(s, j) }

  /** `RE_DATED.search`: the leftmost match. */
  function DatedMatch(s: string): (r: Option<(nat, nat, nat, nat, nat)>)
    ensures r.Some? <==> exists i :: 0 <= i <= |s| && DatedMatches(s, i)
    ensures r.Some? ==> exists i :: 0 <= i <= |s| && DatedMatchAt(s, i) == r && FirstDated(s, i)
    ensures r.Some? ==> var (k, a, b, d, c) := r.value;
                        k < a < b < d < c && c + 4 <= |s| && d <= b + 2
  {
    var dp := (i: nat) => DatedMatches(s, i);
    assert forall i: nat :: dp(i) == DatedMatches(s, i);
    var f := FirstWhere(s, 0, dp);
    if f.None? then
      assert forall i :: 0 <= i <= |s| ==> !DatedMatches(s, i);
      None
    else
      var i := f.value;
      assert 0 <= i <= |s| && DatedMatches(s, i) && FirstDated(s, i);
      DatedMatchAt(s, i)
  }

  /** `MONTHS.get(name)`: the number of a full English month name in lower case. */
  function MonthNumber(name: string): (r: Option<nat>)
    ensures r.Some? ==> 1 <= r.value <= 12 && MonthNames[r.value - 1] == name
    ensures r.None? <==> name !in MonthNames
  {
    var f := MonthIndex(name, 0);
    if f.None? then None else Some(f.value + 1)
  }

  /** The first index from `k` on whose month name is `name`. */
  function MonthIndex(name: string, k: nat): (r: Option<nat>)
    requires k <= |MonthNames|
    ensures r.Some? ==> k <= r.value < |MonthNames| && MonthNames[r.value] == name
    ensures r.None? ==> forall j :: k <= j < |MonthNames| ==> MonthNames[j] != name
    decreases |MonthNames| - k
  {
    if k == |MonthNames| then None
    else if MonthNames[k] == name then Some(k)
    else MonthIndex(name, k + 1)
  }

  /** The parts the match captures, as numbers: year, month (when the name is a
      month), day. */
  function DatedParts(body: string): (r: Option<(nat, Option<nat>, nat)>)
    ensures r.Some? ==> r.value.0 < 10000 && r.value.2 < 100
  {
    var t := DropCR(body);
    var m := DatedMatch(t);
    if m.None? then None
    else
      var (k, a, b, d, c) := m.value;
      Some((NumberAt(t, c, c + 4), MonthNumber(Lower(t[k..a])), NumberAt(t, b, d)))
  }

  /** `int(s[i..j])` for a run of at most four digits. */
  function NumberAt(s: string, i: nat, j: nat): (v: nat)
    requires i <= j <= |s| && j - i <= 4
    ensures j - i <= 2 ==> v < 100
    ensures v < 10000
  {
    var w := s[i..j];
    if |w| <= 2 then TwoDigitsBound(w); DigitsValue(w)
    else if |w| == 4 then FourDigitsBound(w); DigitsValue(w)
    else DigitsBound3(w); DigitsValue(w)
  }

  lemma DigitsBound3(s: string)
    requires |s| == 3
    ensures DigitsValue(s) < 10000
  {
    TwoDigitsBound(s[..2]);
    assert s[..3 - 1] == s[..2];
  }

  lemma TwoDigitsBound(s: string)
    requires |s| <= 2
    ensures DigitsValue(s) < 100
  {
    if |s| > 0 {
      assert s[..|s| - 1][..|s[..|s| - 1]|] == s[..|s| - 1];
    }
  }

  lemma FourDigitsBound(s: string)
    requires |s| == 4
    ensures DigitsValue(s) < 10000
  {
    TwoDigitsBound(s[..2]);
    assert s[..3][..2] == s[..2];
    assert s[..4 - 1] == s[..3];
  }

  /** `f"{yy:04d}-{mm:02d}-{dd:02d}"`. */
  function Format4_2_2(yy: nat, mm: nat, dd: nat): string {
    Pad(yy, 4) + "-" + Pad(mm, 2) + "-" + Pad(dd, 2)
  }

  /** `parse_dated_to_yyyy_mm_dd`: the first match, its month name looked up,
      and the numbers written out.  The day is not checked against the month. */
  function ParseDated(body: string): (r: Option<string>)
    ensures r.Some? ==> IsoShaped(r.value)
    ensures r.Some? <==> DatedParts(body).Some? && DatedParts(body).value.1.Some?
  {
    var p := DatedParts(body);
    if p.None? || p.value.1.None? then None
    else
      var r := Format4_2_2(p.value.0, p.value.1.value, p.value.2);
      ShapedFormat(p.value.0, p.value.1.value, p.value.2);
      Some(r)
  }

  /** When the captured numbers form a real date, the text reads back as that
      date under "%Y-%m-%d". */
  lemma ParseDatedReadsBack(body: string)
    requires ParseDated(body).Some?
    requires var p := DatedParts(body).value; ValidDate(Date(p.0, p.1.value, p.2))
    ensures var p := DatedParts(body).value;
            ParseDated(body) == Some(Iso(Date(p.0, p.1.value, p.2))) &&
            Strptime(ParseDated(body).value, FmtIsoDash) == Some(Date(p.0, p.1.value, p.2))
  {
    var p := DatedParts(body).value;
    IsoRoundTrip(Date(p.0, p.1.value, p.2));
  }

  lemma ShapedFormat(yy: nat, mm: nat, dd: nat)
    ensures IsoShaped(Format4_2_2(yy, mm, dd))
  {
    var r := Format4_2_2(yy, mm, dd);
    assert r[..4] == Pad(yy, 4) && r[5..7] == Pad(mm, 2) && r[8..10] == Pad(dd, 2);
    assert forall k :: 0 <= k < 4 ==> r[k] == Pad(yy, 4)[k];
  }

  // ---------------------------------------------------------------------------
  // find_cpc_birth_id and build_event_row
  // ---------------------------------------------------------------------------

  /** `find_cpc_birth_id`: ticker and company cleaned by splitting on
      whitespace, upper-cased, then the same two lookups as the halt parser. */
  function FilingBirthId(births: seq<Birth>, company: Option<string>, ticker: Option<string>): (r: Option<string>)
    ensures Upper(CleanSplit(ticker)) == "" ==> r.None?
    ensures r.Some? ==> exists k :: 0 <= k < |births| && births[k].id == r.value &&
                          births[k].ticker == Some(Upper(CleanSplit(ticker)))
  {
    TickerThenCompany(births, Upper(CleanSplit(company)), Upper(CleanSplit(ticker)))
  }

  lemma DefaultTypeClean()
    ensures WsClean(DEFAULT_TYPE)
  {
    var w1, w2 := "CPC-FILING", "STATEMENT";
    assert IsWord(w1) by { assert forall k :: 0 <= k < |w1| ==> !IsSpace(w1[k]); }
    assert IsWord(w2) by { assert forall k :: 0 <= k < |w2| ==> !IsSpace(w2[k]); }
    JoinSpaceClean([w1, w2]);
    assert JoinSpace([w1, w2]) == DEFAULT_TYPE by { assert [w1, w2][1..] == [w2]; }
  }

  /** `clean_space(canonical_type or "CPC-FILING STATEMENT")` is clean text:
      the default when there is no canonical type, the canonical type cleaned
      otherwise. */
  lemma EventTypeShape(ct: Option<string>)
    ensures WsClean(CleanSplit(OrElse(ct, Some(DEFAULT_TYPE))))
    ensures ct.GetOr("") == "" ==> CleanSplit(OrElse(ct, Some(DEFAULT_TYPE))) == DEFAULT_TYPE
    ensures ct.GetOr("") != "" ==> CleanSplit(OrElse(ct, Some(DEFAULT_TYPE))) == CleanSplit(ct)
  {
    CleanSplitShape(OrElse(ct, Some(DEFAULT_TYPE)));
    if ct.GetOr("") == "" {
      DefaultTypeClean();
      CleanSplitShape(Some(DEFAULT_TYPE));
    }
  }

  /** `build_event_row`: no row without a date; otherwise a row whether or not
      the birth row is found. */
  function BuildEventRow(rec: Record, births: seq<Birth>, profile: string): (out: EventOutcome)
    ensures !out.Failed?
    ensures out.Event? <==> ParseDated(Get(rec, "body_text").GetOr("")).Some?
    ensures out.Event? ==>
              var body := Get(rec, "body_text").GetOr("");
              out.row.cpcBirthId == FilingBirthId(births, Get(rec, "company"), Get(rec, "ticker")) &&
              out.row.compositeKey == Get(rec, "composite_key") &&
              WsClean(out.row.eventType) &&
              (Get(rec, "canonical_type").GetOr("") == "" ==> out.row.eventType == DEFAULT_TYPE) &&
              (Get(rec, "canonical_type").GetOr("") != "" ==> out.row.eventType == CleanSplit(Get(rec, "canonical_type"))) &&
              out.row.bulletinDate == Get(rec, "bulletin_date") &&
              out.row.effectiveDate == ParseDated(body) &&
              out.row.effectiveTime.None? && out.row.effectiveText.None? &&
              out.row.summary == FILING_SUMMARY && out.row.bodyRaw == body && out.row.parseVersion == profile
  {
    var body := Get(rec, "body_text").GetOr("");
    var date := ParseDated(body);
    if date.None? then NoEvent
    else
      var ct := OrElse(Get(rec, "canonical_type"), Some(DEFAULT_TYPE));
      EventTypeShape(Get(rec, "canonical_type"));
      Event(EventRow(FilingBirthId(births, Get(rec, "company"), Get(rec, "ticker")),
                     Get(rec, "composite_key"), CleanSplit(ct), Get(rec, "bulletin_date"),
                     date, None, None, FILING_SUMMARY, body, profile))
  }

  // ---------------------------------------------------------------------------
  // mark_status and main
  // ---------------------------------------------------------------------------

  /** The payload of `mark_status(ids, status, set_parsed_at)`: the timestamp is
      cleared for "ready" and "running" and set when asked for. */
  function StatusPayload(status: State, setParsedAt: bool, now: string): (p: Payload)
    ensures p.status == status
    ensures setParsedAt ==> p.parsedAt == SetTo(now)
    ensures !setParsedAt && (status == Ready || status == Running) ==> p.parsedAt == Clear
    ensures !setParsedAt && status != Ready && status != Running ==> p.parsedAt == Keep
  {
    var base := if status == Ready || status == Running then Clear else Keep;
    Payload(status, if setParsedAt then SetTo(now) else base)
  }

  function FilingOutcomes(batch: seq<Bulletin>, births: seq<Birth>, profile: string): (r: seq<EventOutcome>)
    ensures |r| == |batch| && forall k :: 0 <= k < |batch| ==> r[k] == BuildEventRow(batch[k].rec, births, profile)
  {
    seq(|batch|, k requires 0 <= k < |batch| => BuildEventRow(batch[k].rec, births, profile))
  }

  /** The loop of `main` over the bulletins: the rows, and which bulletins gave one. */
  method FilingBatch(batch: seq<Bulletin>, births: seq<Birth>, profile: string)
    returns (rows: seq<EventRow>, produced: seq<bool>)
    ensures rows == RowsOf(FilingOutcomes(batch, births, profile))
    ensures produced == ProducedOf(FilingOutcomes(batch, births, profile))
  {
    ghost var outs := FilingOutcomes(batch, births, profile);
    rows := [];
    produced := [];
    var k := 0;
    while k < |batch|
      invariant 0 <= k <= |batch|
      invariant rows == RowsOf(outs[..k])
      invariant produced == ProducedOf(outs[..k])
    {
      var out := BuildEventRow(batch[k].rec, births, profile);
      assert outs[..k + 1] == outs[..k] + [out];
      RowsOfSnoc(outs[..k], out);
      ProducedOfSnoc(outs[..k], out);
      if out.Event? {
        rows := rows + [out.row];
      }
      produced := produced + [out.Event?];
      k := k + 1;
    }
    assert outs[..k] == outs;
  }

  /** `main`: nothing at all for an empty batch; otherwise claim the records
      ("running", timestamp cleared), mark "error" each record without a row,
      and mark "done" with the timestamp `now` those with one. */
  method FilingMain(batch: seq<Bulletin>, births: seq<Birth>, board: Board, now: string, env: Option<string>)
    returns (rows: seq<EventRow>, idsDone: seq<int>)
    modifies board
    ensures rows == RowsOf(FilingOutcomes(batch, births, Profile(env)))
    ensures idsDone == DoneIds(IdsOf(batch), ProducedOf(FilingOutcomes(batch, births, Profile(env))))
    ensures board.entries.Keys == old(board.entries).Keys
    ensures forall id | id in board.entries && Succeeded(IdsOf(batch), ProducedOf(FilingOutcomes(batch, births, Profile(env))), id) ::
              board.entries[id] == Entry(Done, Some(now))
    ensures forall id | id in board.entries && Claimed(IdsOf(batch), id) &&
                        !Succeeded(IdsOf(batch), ProducedOf(FilingOutcomes(batch, births, Profile(env))), id) ::
              board.entries[id] == Entry(Error, None)
    ensures forall id | id in board.entries && !Claimed(IdsOf(batch), id) :: board.entries[id] == old(board.entries)[id]
  {
    var profile := Profile(env);
    if |batch| == 0 {
      return [], [];
    }
    var produced;
    rows, produced := FilingBatch(batch, births, profile);
    idsDone := board.RunBatch(IdsOf(batch), produced, StatusPayload(Running, false, now),
                              StatusPayload(Error, false, now), StatusPayload(Done, true, now));
  }
}
