/** The resume-trading event parser (`cpc_events_resume_trading_parser_v1.py`):
    it links a bulletin whose canonical type mentions "RESUME TRADING" to its
    `cpc_birth` row and reads the resumption date from "effective at the
    opening <Weekday>, <Month d, yyyy>" or, failing that, from "effective at
    the opening <Month d, yyyy>". */
module Resume {
  import opened Wrappers
  import opened Text
  import opened DateFormats
  import opened Spacing
  import opened Depurar
  import opened Events
  import opened Status

  const RESUME_VERSION: string := "events_resume_trading_v1"
  const RESUME_TYPE: string := "RESUME_TRADING"
  const RESUME_SUMMARY: string := "Trading resumed in the common shares of the Company."

  // ---------------------------------------------------------------------------
  // find_cpc_birth_id: exact ticker, ticker ignoring case, company and ticker,
  // company ignoring case
  // ---------------------------------------------------------------------------

  function ResumeBirthId(births: seq<Birth>, company: Option<string>, ticker: Option<string>): (r: Option<string>)
    ensures CleanWsOpt(ticker) == "" && CleanWsOpt(company) == "" ==> r.None?
    ensures r.Some? ==> exists k :: 0 <= k < |births| && births[k].id == r.value
  {
    var t := CleanWsOpt(ticker);
    var c := CleanWsOpt(company);
    var s1 := if t != "" then Lookup(births, (b: Birth) => b.ticker == Some(t)) else None;
    var s2 := if t != "" then Lookup(births, (b: Birth) => ILike(b.ticker, t)) else None;
    var s3 := if c != "" && t != "" then Lookup(births, (b: Birth) => b.companyName == Some(c) && b.ticker == Some(t)) else None;
    var s4 := if c != "" then Lookup(births, (b: Birth) => ILike(b.companyName, c)) else None;
    if s1.Some? then s1 else if s2.Some? then s2 else if s3.Some? then s3 else s4
  }

  /** The row a resolver may accept: its ticker or its company name equals the
      cleaned input up to case. */
  predicate Acceptable(b: Birth, c: string, t: string) {
    (t != "" && ILike(b.ticker, t)) || (c != "" && ILike(b.companyName, c))
  }

  /** The resolver finds a row exactly when some row is acceptable, and what it
      finds is the id of an acceptable row. */
  lemma ResumeBirthIdSound(births: seq<Birth>, company: Option<string>, ticker: Option<string>)
    ensures var t := CleanWsOpt(ticker);
            var c := CleanWsOpt(company);
            var r := ResumeBirthId(births, company, ticker);
            (r.Some? <==> exists k :: 0 <= k < |births| && Acceptable(births[k], c, t)) &&
            (r.Some? ==> exists k :: 0 <= k < |births| && Acceptable(births[k], c, t) && births[k].id == r.value)
  {
    var t := CleanWsOpt(ticker);
    var c := CleanWsOpt(company);
    var r := ResumeBirthId(births, company, ticker);
    if exists k :: 0 <= k < |births| && Acceptable(births[k], c, t) {
      var k :| 0 <= k < |births| && Acceptable(births[k], c, t);
      if t != "" && ILike(births[k].ticker, t) {
        assert Lookup(births, (b: Birth) => ILike(b.ticker, t)).Some?;
      } else {
        assert Lookup(births, (b: Birth) => ILike(b.companyName, c)).Some?;
      }
    }
  }

  /** The company-and-ticker lookup never decides: it only runs after the
      exact-ticker lookup has found nothing, and every row it could find has
      that exact ticker. */
  lemma CompanyTickerNeverDecides(births: seq<Birth>, company: Option<string>, ticker: Option<string>)
    ensures var t := CleanWsOpt(ticker);
            var c := CleanWsOpt(company);
            var s1 := if t != "" then Lookup(births, (b: Birth) => b.ticker == Some(t)) else None;
            var s2 := if t != "" then Lookup(births, (b: Birth) => ILike(b.ticker, t)) else None;
            var s4 := if c != "" then Lookup(births, (b: Birth) => ILike(b.companyName, c)) else None;
            ResumeBirthId(births, company, ticker) == if s1.Some? then s1 else if s2.Some? then s2 else s4
  {
  }

  // ---------------------------------------------------------------------------
  // effective\s+at\s+the\s+opening\s+([A-Za-z]+)\s*,\s*(<long date>)
  // effective\s+at\s+the\s+opening\s+(<long date>)         IGNORECASE | DOTALL
  // ---------------------------------------------------------------------------

  const AT_THE_OPENING: seq<string> := ["effective", "at", "the", "opening"]

  /** The rest of the weekday pattern after `opening\s+`, at `p`: weekday end,
      date start and end.  No repetition of it can give back characters to
      the next one. */
  function WeekdayTail(s: string, p: nat): (r: Option<(nat, nat, nat)>)
    requires p <= |s|
    ensures r.Some? ==> p < r.value.0 < r.value.1 < r.value.2 <= |s| && IsLetter(s[r.value.1])
    ensures r.Some? ==> forall k :: p <= k < r.value.0 ==> IsLetter(s[k])
  {
    var a := SpanEnd(s, p, Letter);
    if a == p then None
    else
      var b := SpanEnd(s, a, Space);
      if b == |s| || s[b] != ',' then None
      else
        var c := SpanEnd(s, b + 1, Space);
        var de := LongDateEnd(s, c);
        if de.None? then None else Some((a, c, de.value))
  }

  /** The weekday pattern at `i`: weekday start and end, date start and end. */
  function WeekdayMatchAt(s: string, i: nat): (r: Option<(nat, nat, nat, nat)>)
    ensures r.Some? ==> r.value.0 < r.value.1 < r.value.2 < r.value.3 <= |s| && IsLetter(s[r.value.2])
    ensures r.Some? ==> forall k :: r.value.0 <= k < r.value.1 ==> IsLetter(s[k])
  {
    var ph := PhraseThenSpace(s, i, AT_THE_OPENING);
    if ph.None? then None
    else
      var t := WeekdayTail(s, ph.value.1);
      if t.None? then None else Some((ph.value.1, t.value.0, t.value.1, t.value.2))
  }

  predicate WeekdayMatches(s: string, i: nat) { WeekdayMatchAt(s, i).Some? }

  /** No match of the weekday pattern starts before `i`. */
  predicate FirstWeekday(s: string, i: nat) { forall j :: 0 <= j < i ==> !WeekdayMatches(s, j) }

  /** The leftmost match of the weekday pattern. */
  function WeekdayMatch(s: string): (r: Option<(nat, nat, nat, nat)>)
    ensures r.Some? <==> exists i :: 0 <= i <= |s| && WeekdayMatches(s, i)
    ensures r.Some? ==> exists i :: 0 <= i <= |s| && WeekdayMatchAt(s, i) == r && FirstWeekday(s, i)
    ensures r.Some? ==> r.value.0 < r.value.1 < r.value.2 < r.value.3 <= |s| && IsLetter(s[r.value.2])
    ensures r.Some? ==> forall k :: r.value.0 <= k < r.value.1 ==> IsLetter(s[k])
  {
    var wp := (i: nat) => WeekdayMatches(s, i);
    assert forall i: nat :: wp(i) == WeekdayMatches(s, i);
    var f := FirstWhere(s, 0, wp);
    if f.None? then None else WeekdayMatchAt(s, f.value)
  }

  /** The weekday-less pattern at `i`: date start and end. */
  function DateOnlyMatchAt(s: string, i: nat): (r: Option<(nat, nat)>)
    ensures r.Some? ==> r.value.0 < r.value.1 <= |s| && IsLetter(s[r.value.0])
  {
    var ph := PhraseThenSpace(s, i, AT_THE_OPENING);
    if ph.None? then None
    else
      var de := LongDateEnd(s, ph.value.1);
      if de.None? then None else Some((ph.value.1, de.value))
  }

  predicate DateOnlyMatches(s: string, i: nat) { DateOnlyMatchAt(s, i).Some? }

  /** No match of the weekday-less pattern starts before `i`. */
  predicate FirstDateOnly(s: string, i: nat) { forall j :: 0 <= j < i ==> !DateOnlyMatches(s, j) }

  /** The leftmost match of the weekday-less pattern. */
  function DateOnlyMatch(s: string): (r: Option<(nat, nat)>)
    ensures r.Some? <==> exists i :: 0 <= i <= |s| && DateOnlyMatches(s, i)
    ensures r.Some? ==> exists i :: 0 <= i <= |s| && DateOnlyMatchAt(s, i) == r && FirstDateOnly(s, i)
    ensures r.Some? ==> r.value.0 < r.value.1 <= |s| && IsLetter(s[r.value.0])
  {
    var dp := (i: nat) => DateOnlyMatches(s, i);
    assert forall i: nat :: dp(i) == DateOnlyMatches(s, i);
    var f := FirstWhere(s, 0, dp);
    if f.None? then None else DateOnlyMatchAt(s, f.value)
  }

  /** A run of letters is already clean. */
  lemma LettersClean(s: string, a: nat, b: nat)
    requires a < b <= |s| && forall k :: a <= k < b ==> IsLetter(s[k])
    ensures CleanWs(s[a..b]) == s[a..b]
  {
    var w := s[a..b];
    assert forall k :: 0 <= k < |w| ==> IsLetter(w[k]) && !IsSpace(w[k]);
    CleanWsFixed(w);
  }

  /** `(effective_time, effective_date_text, effective_text)`: the weekday
      pattern first; the other only when it gave no date text. */
  function ResumeEffective(body: string): (r: (Option<string>, Option<string>, Option<string>))
    ensures r.0 == Some("opening") <==> WeekdayMatch(body).Some? || DateOnlyMatch(body).Some?
    ensures r.0.None? ==> r == (None, None, None)
    ensures WeekdayMatch(body).None? && DateOnlyMatch(body).None? ==> r == (None, None, None)
    ensures r.0.Some? ==> r.1.Some? && r.1.value != "" && WsClean(r.1.value)
    ensures WeekdayMatch(body).Some? ==>
              var m := WeekdayMatch(body);
              r.2 == Some("opening " + body[m.value.0..m.value.1] + ", " + r.1.value)
    ensures WeekdayMatch(body).None? && DateOnlyMatch(body).Some? ==> r.2 == Some("opening " + r.1.value)
    ensures WeekdayMatch(body).Some? ==>
              var m := WeekdayMatch(body).value;
              r.1 == Some(CleanWs(body[m.2..m.3]))
    ensures WeekdayMatch(body).None? && DateOnlyMatch(body).Some? ==>
              var m := DateOnlyMatch(body).value;
              r.1 == Some(CleanWs(body[m.0..m.1]))
  {
    var m := WeekdayMatch(body);
    if m.Some? then
      LettersClean(body, m.value.0, m.value.1);
      var weekday := CleanWs(body[m.value.0..m.value.1]);
      var date := GroupText(body, m.value.2, m.value.3);
      (Some("opening"), Some(date), Some("opening " + weekday + ", " + date))
    else
      var m2 := DateOnlyMatch(body);
      if m2.Some? then
        var date := GroupText(body, m2.value.0, m2.value.1);
        (Some("opening"), Some(date), Some("opening " + date))
      else (None, None, None)
  }

  /** The canonical type mentions "RESUME TRADING", ignoring case. */
  predicate IsResume(rec: Record)
    ensures IsResume(rec) ==> Get(rec, "canonical_type").Some? && |Get(rec, "canonical_type").value| >= 14
  {
    Contains(Upper(Get(rec, "canonical_type").GetOr("")), "RESUME TRADING")
  }

  /** `parse_event_resume_trading`. */
  function ParseEventResume(rec: Record, births: seq<Birth>): (out: EventOutcome)
    ensures !IsResume(rec) ==> out == NoEvent
    ensures IsResume(rec) ==>
              var id := ResumeBirthId(births, Get(rec, "company"), Get(rec, "ticker"));
              (out == NoEvent <==> id.None? || id.value == "") &&
              (out.Failed? <==> id.Some? && id.value != "" && "composite_key" !in rec)
    ensures out.Event? ==>
              var body := Get(rec, "body_text").GetOr("");
              var eff := ResumeEffective(body);
              out.row.cpcBirthId == ResumeBirthId(births, Get(rec, "company"), Get(rec, "ticker")) &&
              out.row.cpcBirthId.Some? && out.row.cpcBirthId.value != "" &&
              out.row.compositeKey == rec["composite_key"] &&
              out.row.eventType == RESUME_TYPE && out.row.summary == RESUME_SUMMARY &&
              out.row.bulletinDate == Get(rec, "bulletin_date") &&
              out.row.bodyRaw == body && out.row.parseVersion == RESUME_VERSION &&
              out.row.effectiveTime == eff.0 &&
              (out.row.effectiveTime == Some("opening") <==> WeekdayMatch(body).Some? || DateOnlyMatch(body).Some?) &&
              out.row.effectiveText == eff.2 &&
              (if EventDate(eff.1).Some? then out.row.effectiveDate == EventDate(eff.1)
               else out.row.effectiveDate == Get(rec, "bulletin_date"))
  {
    if !IsResume(rec) then NoEvent
    else
      var id := ResumeBirthId(births, Get(rec, "company"), Get(rec, "ticker"));
      if id.None? || id.value == "" then NoEvent
      else if "composite_key" !in rec then Failed("KeyError: composite_key")
      else
        var body := Get(rec, "body_text").GetOr("");
        var eff := ResumeEffective(body);
        Event(EventRow(id, rec["composite_key"], RESUME_TYPE, Get(rec, "bulletin_date"),
                       OrElse(EventDate(eff.1), Get(rec, "bulletin_date")),
                       eff.0, eff.2, RESUME_SUMMARY, body, RESUME_VERSION))
  }

  // ---------------------------------------------------------------------------
  // main
  // ---------------------------------------------------------------------------

  function ResumeOutcomes(batch: seq<Bulletin>, births: seq<Birth>): (r: seq<EventOutcome>)
    ensures |r| == |batch| && forall k :: 0 <= k < |batch| ==> r[k] == ParseEventResume(batch[k].rec, births)
  {
    seq(|batch|, k requires 0 <= k < |batch| => ParseEventResume(batch[k].rec, births))
  }

  lemma ResumeStep(batch: seq<Bulletin>, births: seq<Birth>, k: nat)
    requires k < |batch|
    ensures ResumeOutcomes(batch, births)[..k + 1] == ResumeOutcomes(batch, births)[..k] + [ParseEventResume(batch[k].rec, births)]
  {
    var outs := ResumeOutcomes(batch, births);
    assert outs[..k + 1] == outs[..k] + [outs[k]];
  }

  /** The loop of `main` over the bulletins: the rows, and which bulletins gave one. */
  method ResumeBatch(batch: seq<Bulletin>, births: seq<Birth>) returns (rows: seq<EventRow>, produced: seq<bool>)
    ensures rows == RowsOf(ResumeOutcomes(batch, births))
    ensures produced == ProducedOf(ResumeOutcomes(batch, births))
  {
    ghost var outs := ResumeOutcomes(batch, births);
    rows := [];
    produced := [];
    var k := 0;
    while k < |batch|
      invariant 0 <= k <= |batch|
      invariant rows == RowsOf(outs[..k])
      invariant produced == ProducedOf(outs[..k])
    {
      var out := ParseEventResume(batch[k].rec, births);
      ResumeStep(batch, births, k);
      RowsOfSnoc(outs[..k], out);
      ProducedOfSnoc(outs[..k], out);
      if out.Event? {
        rows := rows + [out.row];
      }
      produced := produced + [out.Event?];
      k := k + 1;
    }
    assert outs[..k] == outs;
  }

  /** `main`: parse every bulletin, collect the rows, and keep the status table
      up to date (running, then error for each bulletin without a row, then
      done with the timestamp `now`). */
  method ResumeMain(batch: seq<Bulletin>, births: seq<Birth>, board: Board, now: string)
    returns (rows: seq<EventRow>, idsDone: seq<int>)
    modifies board
    ensures rows == RowsOf(ResumeOutcomes(batch, births))
    ensures idsDone == DoneIds(IdsOf(batch), ProducedOf(ResumeOutcomes(batch, births)))
    ensures board.entries.Keys == old(board.entries).Keys
    ensures forall id | id in board.entries && Succeeded(IdsOf(batch), ProducedOf(ResumeOutcomes(batch, births)), id) ::
              board.entries[id] == Entry(Done, Some(now))
    ensures forall id | id in board.entries && Claimed(IdsOf(batch), id) &&
                        !Succeeded(IdsOf(batch), ProducedOf(ResumeOutcomes(batch, births)), id) ::
              board.entries[id] == Entry(Error, old(board.entries)[id].parsedAt)
    ensures forall id | id in board.entries && !Claimed(IdsOf(batch), id) :: board.entries[id] == old(board.entries)[id]
  {
    var produced;
    rows, produced := ResumeBatch(batch, births);
    idsDone := board.RunBatch(IdsOf(batch), produced, Payload(Running, Keep), Payload(Error, Keep), Payload(Done, SetTo(now)));
  }
}
