/** The trading-halt event parser (`cpc_events_halt_parser_v1.py`): it links a
    bulletin whose canonical type mentions "HALT" to its `cpc_birth` row, reads
    the halt time and date from "Effective at <time>, <Month d, yyyy>" and picks
    one of two fixed summaries. */
module Halt {
  import opened Wrappers
  import opened Text
  import opened DateFormats
  import opened Spacing
  import opened Depurar
  import opened Events
  import opened Status

  const HALT_VERSION: string := "events_halt_v1"
  const HALT_SUMMARY: string := "Trading halted pending an announcement."
  const REQUEST_SUMMARY: string := "Trading halted at the request of the Company, pending an announcement."

  // ---------------------------------------------------------------------------
  // find_cpc_birth_id: exact ticker, then company and ticker
  // ---------------------------------------------------------------------------

  /** `find_cpc_birth_id`: ticker and company cleaned with `clean_space` and
      upper-cased, then the exact-ticker lookup and the company-and-ticker one. */
  function HaltBirthId(births: seq<Birth>, company: Option<string>, ticker: Option<string>): (r: Option<string>)
    ensures Upper(CleanWsOpt(ticker)) == "" ==> r.None?
    ensures r.Some? ==> exists k :: 0 <= k < |births| && births[k].id == r.value &&
                          births[k].ticker == Some(Upper(CleanWsOpt(ticker)))
  {
    TickerThenCompany(births, Upper(CleanWsOpt(company)), Upper(CleanWsOpt(ticker)))
  }

  // ---------------------------------------------------------------------------
  // Effective\s+at\s+(.+?),\s*([A-Za-z]+\s+\d{1,2},\s*\d{4})   IGNORECASE | DOTALL
  // ---------------------------------------------------------------------------

  /** The lazy group `(.+?)` may end at `x`: a comma follows, then optional
      whitespace and a long date. */
  predicate TimeEndsAt(s: string, x: nat) {
    x < |s| && s[x] == ',' && LongDateEnd(s, SpanEnd(s, x + 1, Space)).Some?
  }

  /** The end of the time group when it starts at `p`: the first position after
      `p` where the rest matches.  When there is none and the whitespace before
      `p` had two or more characters, the regex gives one of them back to the
      group, which may then end at `p` itself. */
  function TimeGroup(s: string, e: nat, p: nat): (r: Option<(nat, nat)>)
    requires e < p <= |s|
    ensures r.Some? ==> r.value.0 < r.value.1 < |s| && TimeEndsAt(s, r.value.1)
    ensures (exists x :: p < x <= |s| && TimeEndsAt(s, x)) ==> r.Some? && r.value.0 == p
    ensures r.Some? && r.value.0 == p ==> forall x :: p < x < r.value.1 ==> !TimeEndsAt(s, x)
  {
    var tp := (x: nat) => TimeEndsAt(s, x);
    assert forall x: nat :: tp(x) == TimeEndsAt(s, x);
    match FirstWhere(s, p + 1, tp)
    case Some(x) => Some((p, x))
    case None => if p - e >= 2 && TimeEndsAt(s, p) then Some((p - 1, p)) else None
  }

  /** The date group after the comma at `x`: its start and end. */
  function DateGroup(s: string, x: nat): (r: (nat, nat))
    requires TimeEndsAt(s, x)
    ensures x < r.0 < r.1 <= |s| && IsLetter(s[r.0])
  {
    var d := SpanEnd(s, x + 1, Space);
    (d, LongDateEnd(s, d).value)
  }

  const EFFECTIVE_AT: seq<string> := ["effective", "at"]

  /** The groups of a match at `i`: time start and end, date start and end. */
  function HaltMatchAt(s: string, i: nat): (r: Option<(nat, nat, nat, nat)>)
    ensures r.Some? ==> r.value.0 < r.value.1 <= r.value.2 < r.value.3 <= |s| && IsLetter(s[r.value.2])
  {
    var ph := PhraseThenSpace(s, i, EFFECTIVE_AT);
    if ph.None? then None
    else
      var t := TimeGroup(s, ph.value.0, ph.value.1);
      if t.None? then None
      else
        var g := DateGroup(s, t.value.1);
        Some((t.value.0, t.value.1, g.0, g.1))
  }

  predicate HaltMatches(s: string, i: nat) { HaltMatchAt(s, i).Some? }

  /** `re.search`: the match at the leftmost position where there is one. */
  function HaltMatch(s: string): (r: Option<(nat, nat, nat, nat)>)
    ensures r.Some? <==> exists i :: 0 <= i <= |s| && HaltMatches(s, i)
    ensures r.Some? ==> exists i :: 0 <= i <= |s| && HaltMatchAt(s, i) == r &&
                          forall j :: 0 <= j < i ==> !HaltMatches(s, j)
    ensures r.Some? ==> r.value.0 < r.value.1 <= r.value.2 < r.value.3 <= |s| && IsLetter(s[r.value.2])
  {
    var hp := (i: nat) => HaltMatches(s, i);
    assert forall i: nat :: hp(i) == HaltMatches(s, i);
    match FirstWhere(s, 0, hp)
    case None => None
    case Some(i) => HaltMatchAt(s, i)
  }

  /** The three effective fields: `(effective_time, effective_date_text, effective_text)`. */
  function HaltEffective(body: string): (r: (Option<string>, Option<string>, Option<string>))
    ensures HaltMatch(body).None? ==> r == (None, None, None)
    ensures HaltMatch(body).Some? ==>
              r.0.Some? && r.1.Some? && r.2 == Some(r.0.value + ", " + r.1.value) &&
              WsClean(r.0.value) && WsClean(r.1.value) && r.1.value != ""
    ensures HaltMatch(body).Some? ==>
              var m := HaltMatch(body).value;
              r.0 == Some(CleanWs(body[m.0..m.1])) && r.1 == Some(CleanWs(body[m.2..m.3]))
  {
    var m := HaltMatch(body);
    if m.None? then (None, None, None)
    else
      var time := CleanWs(body[m.value.0..m.value.1]);
      var date := GroupText(body, m.value.2, m.value.3);
      (Some(time), Some(date), Some(time + ", " + date))
  }

  /** `at\s+the\s+request\s+of\s+the\s+Company` occurs, ignoring case. */
  predicate AtRequest(body: string) {
    exists i :: 0 <= i <= |body| && PhraseEnd(body, i, ["at", "the", "request", "of", "the", "company"]).Some?
  }

  /** The event summary: the "at the request" variant exactly when that phrase
      occurs. */
  function HaltSummary(body: string): (r: string)
    ensures r == REQUEST_SUMMARY <==> AtRequest(body)
    ensures r == HALT_SUMMARY <==> !AtRequest(body)
  {
    var rp := (i: nat) => PhraseEnd(body, i, ["at", "the", "request", "of", "the", "company"]).Some?;
    assert forall i: nat :: rp(i) == PhraseEnd(body, i, ["at", "the", "request", "of", "the", "company"]).Some?;
    if FirstWhere(body, 0, rp).Some? then REQUEST_SUMMARY else HALT_SUMMARY
  }

  /** The canonical type mentions "HALT", ignoring case. */
  predicate IsHalt(rec: Record)
    ensures IsHalt(rec) ==> Get(rec, "canonical_type").Some? && |Get(rec, "canonical_type").value| >= 4
  {
    Contains(Upper(Get(rec, "canonical_type").GetOr("")), "HALT")
  }

  /** `parse_event_halt`: no event for a bulletin that is not a halt or whose
      birth row is not found; a `KeyError` when the bulletin has no composite
      key; otherwise the event row. */
  function ParseEventHalt(rec: Record, births: seq<Birth>): (out: EventOutcome)
    ensures !IsHalt(rec) ==> out == NoEvent
    ensures IsHalt(rec) ==>
              var id := HaltBirthId(births, Get(rec, "company"), Get(rec, "ticker"));
              (out == NoEvent <==> id.None? || id.value == "") &&
              (out.Failed? <==> id.Some? && id.value != "" && "composite_key" !in rec)
    ensures out.Event? ==>
              out.row.cpcBirthId.Some? && out.row.cpcBirthId.value != "" &&
              exists k :: 0 <= k < |births| && births[k].id == out.row.cpcBirthId.value &&
                          births[k].ticker == Some(Upper(CleanWsOpt(Get(rec, "ticker"))))
    ensures out.Event? ==>
              var body := Get(rec, "body_text").GetOr("");
              var eff := HaltEffective(body);
              out.row.compositeKey == rec["composite_key"] &&
              out.row.bulletinDate == Get(rec, "bulletin_date") &&
              out.row.bodyRaw == body && out.row.parseVersion == HALT_VERSION &&
              WsClean(out.row.eventType) &&
              Get(rec, "canonical_type").Some? && out.row.eventType == CleanWs(Get(rec, "canonical_type").value) &&
              (out.row.effectiveTime.Some? <==> HaltMatch(body).Some?) &&
              out.row.effectiveText == eff.2 && out.row.effectiveTime == eff.0 &&
              (out.row.summary == REQUEST_SUMMARY <==> AtRequest(body)) &&
              (if EventDate(eff.1).Some? then out.row.effectiveDate == EventDate(eff.1)
               else out.row.effectiveDate == Get(rec, "bulletin_date"))
  {
    if !IsHalt(rec) then NoEvent
    else
      var id := HaltBirthId(births, Get(rec, "company"), Get(rec, "ticker"));
      if id.None? || id.value == "" then NoEvent
      else if "composite_key" !in rec then Failed("KeyError: composite_key")
      else
        var body := Get(rec, "body_text").GetOr("");
        var eff := HaltEffective(body);
        HaltTypeGiven(rec);
        Event(EventRow(id, rec["composite_key"], CleanWs(OrElse(Get(rec, "canonical_type"), Some("HALT")).value),
                       Get(rec, "bulletin_date"), OrElse(EventDate(eff.1), Get(rec, "bulletin_date")),
                       eff.0, eff.2, HaltSummary(body), body, HALT_VERSION))
  }

  /** A halt bulletin has a non-empty canonical type, so the "HALT" default of
      `event_type` never applies. */
  lemma HaltTypeGiven(rec: Record)
    requires IsHalt(rec)
    ensures Get(rec, "canonical_type").Some? && Get(rec, "canonical_type").value != ""
    ensures OrElse(Get(rec, "canonical_type"), Some("HALT")) == Get(rec, "canonical_type")
  {
    var t := Get(rec, "canonical_type").GetOr("");
    assert |Upper(t)| >= 4;
  }

  // ---------------------------------------------------------------------------
  // Reading back "Effective at <time>, <Month d, yyyy>"
  // ---------------------------------------------------------------------------

  /** "Effective at " followed by a non-blank character: the phrase ends at 12
      and its whitespace at 13. */
  lemma EffectiveAtPhrase(s: string)
    requires 13 < |s| && s[..13] == "Effective at " && !IsSpace(s[13])
    ensures PhraseThenSpace(s, 0, EFFECTIVE_AT) == Some((12, 13))
  {
    assert forall k :: 0 <= k < 13 ==> s[k] == "Effective at "[k];
    assert IAt(s, 0, "effective");
    SpanEndIs(s, 9, 10, Space);
    assert IAt(s, 10, "at");
    assert EFFECTIVE_AT[1..] == ["at"];
    assert PhraseEnd(s, 10, ["at"]) == Some(12);
    SpanEndIs(s, 12, 13, Space);
  }

  /** With no comma between `p` and `x` and the rest matching at `x`, the time
      group runs from `p` to `x`. */
  lemma TimeGroupFirstComma(s: string, e: nat, p: nat, x: nat)
    requires e < p < x && TimeEndsAt(s, x)
    requires forall y :: p <= y < x ==> s[y] != ','
    ensures TimeGroup(s, e, p) == Some((p, x))
  {
    var r := TimeGroup(s, e, p);
    assert r.Some? && r.value.0 == p;
    assert r.value.1 == x;
  }

  /** A text that starts "Effective at " and a non-blank character, has no
      comma before `x`, and a comma, one space and a long date from `x` to
      its end: the pattern matches at the start with the time group ending
      at `x`. */
  lemma HaltMatchLaid(s: string, x: nat)
    requires 13 < x && x + 2 < |s| && s[..13] == "Effective at " && !IsSpace(s[13])
    requires forall y :: 13 <= y < x ==> s[y] != ','
    requires s[x] == ',' && s[x + 1] == ' ' && LongDateEnd(s, x + 2) == Some(|s|)
    ensures HaltMatch(s) == Some((13, x, x + 2, |s|))
  {
    EffectiveAtPhrase(s);
    SpanEndIs(s, x + 1, x + 2, Space);
    assert TimeEndsAt(s, x);
    TimeGroupFirstComma(s, 12, 13, x);
    assert HaltMatchAt(s, 0) == Some((13, x, x + 2, |s|));
    assert HaltMatches(s, 0);
  }

  /** The layout of "Effective at <t>, <date>": where the time and the date sit. */
  lemma EffectiveConcat(t: string, date: string)
    requires t != [] && ',' !in t
    ensures var s := "Effective at " + t + ", " + date;
            var x := 13 + |t|;
            |s| == x + 2 + |date| && s[..13] == "Effective at " && s[13] == t[0] &&
            (forall y :: 13 <= y < x ==> s[y] != ',') && s[x] == ',' && s[x + 1] == ' ' &&
            s[13..x] == t && s[x + 2..|s|] == date
  {
    var s := "Effective at " + t + ", " + date;
    var x := 13 + |t|;
    assert forall y :: 13 <= y < x ==> s[y] == t[y - 13];
    assert s[13..x] == t;
    assert s[x + 2..|s|] == date;
  }

  /** When the pattern matches and the date group is already clean, the
      date text is that group as it stands. */
  lemma HaltEffectiveOfMatch(s: string)
    requires HaltMatch(s).Some? && WsClean(s[HaltMatch(s).value.2..HaltMatch(s).value.3])
    ensures var m := HaltMatch(s).value;
            HaltEffective(s) == (Some(CleanWs(s[m.0..m.1])), Some(s[m.2..m.3]), Some(CleanWs(s[m.0..m.1]) + ", " + s[m.2..m.3]))
  {
    var m := HaltMatch(s).value;
    CleanWsFixed(s[m.2..m.3]);
  }

  /** Under the layout of `HaltMatchLaid`, with a clean date text, the time
      is the text between "Effective at " and the comma, cleaned, and the
      date text is the rest. */
  lemma HaltEffectiveLaid(s: string, x: nat)
    requires 13 < x && x + 2 < |s| && s[..13] == "Effective at " && !IsSpace(s[13])
    requires forall y :: 13 <= y < x ==> s[y] != ','
    requires s[x] == ',' && s[x + 1] == ' ' && LongDateEnd(s, x + 2) == Some(|s|)
    requires WsClean(s[x + 2..|s|])
    ensures HaltEffective(s) == (Some(CleanWs(s[13..x])), Some(s[x + 2..|s|]), Some(CleanWs(s[13..x]) + ", " + s[x + 2..|s|]))
  {
    HaltMatchLaid(s, x);
    HaltEffectiveOfMatch(s);
  }

  /** A bulletin "Effective at <t>, <Month d, yyyy>" whose time has no comma
      gives that time, cleaned, and the date text, which normalizes to the
      date's ISO text. */
  lemma HaltReadsBack(t: string, name: string, d: Date)
    requires t != [] && !IsSpace(t[0]) && ',' !in t
    requires ValidDate(d) && SpellsMonth(name, d)
    ensures var date := NamedDateText(name, d);
            var body := "Effective at " + t + ", " + date;
            HaltEffective(body) == (Some(CleanWs(t)), Some(date), Some(CleanWs(t) + ", " + date)) &&
            EventDate(HaltEffective(body).1) == Some(Iso(d))
  {
    var date := NamedDateText(name, d);
    var pre := "Effective at " + t + ", ";
    assert |pre| == 15 + |t|;
    SpelledMonthLetters(name, d);
    LongDateEndNamed(pre, name, d);
    NamedDateClean(name, d);
    EffectiveConcat(t, date);
    HaltEffectiveLaid(pre + date, 13 + |t|);
    EventDateReadsBack(name, d);
  }

  /** The outcomes of a batch. */
  function HaltOutcomes(batch: seq<Bulletin>, births: seq<Birth>): (r: seq<EventOutcome>)
    ensures |r| == |batch| && forall k :: 0 <= k < |batch| ==> r[k] == ParseEventHalt(batch[k].rec, births)
  {
    seq(|batch|, k requires 0 <= k < |batch| => ParseEventHalt(batch[k].rec, births))
  }

  lemma HaltStep(batch: seq<Bulletin>, births: seq<Birth>, k: nat)
    requires k < |batch|
    ensures HaltOutcomes(batch, births)[..k + 1] == HaltOutcomes(batch, births)[..k] + [ParseEventHalt(batch[k].rec, births)]
  {
    var outs := HaltOutcomes(batch, births);
    assert outs[..k + 1] == outs[..k] + [outs[k]];
  }

  /** The loop of `main` over the bulletins: the rows, and which bulletins gave one. */
  method HaltBatch(batch: seq<Bulletin>, births: seq<Birth>) returns (rows: seq<EventRow>, produced: seq<bool>)
    ensures rows == RowsOf(HaltOutcomes(batch, births))
    ensures produced == ProducedOf(HaltOutcomes(batch, births))
  {
    ghost var outs := HaltOutcomes(batch, births);
    rows := [];
    produced := [];
    var k := 0;
    while k < |batch|
      invariant 0 <= k <= |batch|
      invariant rows == RowsOf(outs[..k])
      invariant produced == ProducedOf(outs[..k])
    {
      var out := ParseEventHalt(batch[k].rec, births);
      HaltStep(batch, births, k);
      ProducedOfSnoc(outs[..k], out);
      RowsOfSnoc(outs[..k], out);
      if out.Event? {
        rows := rows + [out.row];
      }
      produced := produced + [out.Event?];
      k := k + 1;
    }
    assert outs[..k] == outs;
  }

  /** `main`: parse every bulletin, collect the rows, and keep the status table
      up to date (running, then error for each bulletin without a row, then
      done with the timestamp `now`). */
  method HaltMain(batch: seq<Bulletin>, births: seq<Birth>, board: Board, now: string)
    returns (rows: seq<EventRow>, idsDone: seq<int>)
    modifies board
    ensures rows == RowsOf(HaltOutcomes(batch, births))
    ensures idsDone == DoneIds(IdsOf(batch), ProducedOf(HaltOutcomes(batch, births)))
    ensures board.entries.Keys == old(board.entries).Keys
    ensures forall id | id in board.entries && Succeeded(IdsOf(batch), ProducedOf(HaltOutcomes(batch, births)), id) ::
              board.entries[id] == Entry(Done, Some(now))
    ensures forall id | id in board.entries && Claimed(IdsOf(batch), id) &&
                        !Succeeded(IdsOf(batch), ProducedOf(HaltOutcomes(batch, births)), id) ::
              board.entries[id] == Entry(Error, old(board.entries)[id].parsedAt)
    ensures forall id | id in board.entries && !Claimed(IdsOf(batch), id) :: board.entries[id] == old(board.entries)[id]
  {
    var produced;
    rows, produced := HaltBatch(batch, births);
    idsDone := board.RunBatch(IdsOf(batch), produced, Payload(Running, Keep), Payload(Error, Keep), Payload(Done, SetTo(now)));
  }
}
