/** What the four event parsers share: the `cpc_birth` rows they link an event
    to, the `cpc_events` row they emit, the lookups their resolvers run against
    the birth table, and the `\s+`-separated key phrases their patterns start
    with.  Every lookup that the source sends to the database as a REST query
    is modelled as a search of a given sequence of birth rows. */
module Events {
  import opened Wrappers
  import opened Text
  import opened DateFormats
  import opened Spacing
  import opened Depurar

  /** A row of the `cpc_birth` table, as the resolvers see it. */
  datatype Birth = Birth(id: string, ticker: Option<string>, companyName: Option<string>, bulletinDate: Option<string>)

  /** A bulletin handed to a parser's main loop: its row id and its columns. */
  datatype Bulletin = Bulletin(id: Option<int>, rec: Record)

  /** A row of `cpc_events` (without `parsed_at` and `source_hash`). */
  datatype EventRow = EventRow(
    cpcBirthId: Option<string>,
    compositeKey: Option<string>,
    eventType: string,
    bulletinDate: Option<string>,
    effectiveDate: Option<string>,
    effectiveTime: Option<string>,
    effectiveText: Option<string>,
    summary: string,
    bodyRaw: string,
    parseVersion: string)

  /** What parsing one bulletin gives: no event (the parser returns `None`), an
      event row, or an exception. */
  datatype EventOutcome = NoEvent | Event(row: EventRow) | Failed(error: string)

  /** The rows a main loop collects: those of the outcomes that are events, in
      order. */
  function RowsOf(outs: seq<EventOutcome>): (rows: seq<EventRow>)
    ensures forall r :: r in rows <==> Event(r) in outs
  {
    if outs == [] then []
    else
      var rest := RowsOf(outs[1..]);
      assert forall r :: Event(r) in outs <==> outs[0] == Event(r) || Event(r) in outs[1..] by {
        assert outs == [outs[0]] + outs[1..];
      }
      (if outs[0].Event? then [outs[0].row] else []) + rest
  }

  lemma RowsOfSnoc(outs: seq<EventOutcome>, o: EventOutcome)
    ensures RowsOf(outs + [o]) == RowsOf(outs) + (if o.Event? then [o.row] else [])
    decreases |outs|
  {
    if outs != [] {
      assert (outs + [o])[1..] == outs[1..] + [o];
      RowsOfSnoc(outs[1..], o);
    }
  }

  /** Which outcomes gave a row. */
  function ProducedOf(outs: seq<EventOutcome>): (r: seq<bool>)
    ensures |r| == |outs| && forall k :: 0 <= k < |outs| ==> (r[k] <==> outs[k].Event?)
  {
    seq(|outs|, k requires 0 <= k < |outs| => outs[k].Event?)
  }

  lemma ProducedOfSnoc(outs: seq<EventOutcome>, o: EventOutcome)
    ensures ProducedOf(outs + [o]) == ProducedOf(outs) + [o.Event?]
  {
  }

  /** The ids of the bulletins of a batch. */
  function IdsOf(batch: seq<Bulletin>): (r: seq<Option<int>>)
    ensures |r| == |batch| && forall k :: 0 <= k < |batch| ==> r[k] == batch[k].id
  {
    seq(|batch|, k requires 0 <= k < |batch| => batch[k].id)
  }

  // ---------------------------------------------------------------------------
  // Birth-table lookups
  // ---------------------------------------------------------------------------

  /** The first row from `from` on that satisfies `p`: what a query with
      `limit=1` and no `order` returns, taking the table in its given order. */
  function FirstIndex(bs: seq<Birth>, p: Birth -> bool, from: nat): (r: Option<nat>)
    ensures r.Some? ==> from <= r.value < |bs| && p(bs[r.value])
    ensures r.Some? ==> forall j :: from <= j < r.value ==> !p(bs[j])
    ensures r.None? ==> forall j :: from <= j < |bs| ==> !p(bs[j])
    decreases |bs| - from
  {
    if from >= |bs| then None
    else if p(bs[from]) then Some(from)
    else FirstIndex(bs, p, from + 1)
  }

  /** The id of the first matching row, or `None` when no row matches. */
  function Lookup(bs: seq<Birth>, p: Birth -> bool): (r: Option<string>)
    ensures r.Some? <==> exists k :: 0 <= k < |bs| && p(bs[k])
    ensures r.Some? ==> exists k :: 0 <= k < |bs| && p(bs[k]) && bs[k].id == r.value
  {
    var k := FirstIndex(bs, p, 0);
    if k.Some? then Some(bs[k.value].id) else None
  }

  /** The resolver of the halt and filing-statement parsers, given the
      normalized company `c` and ticker `t`: `ticker=eq.T` when there is a
      ticker, then `company_name=eq.C&ticker=eq.T` when there are both. */
  function TickerThenCompany(bs: seq<Birth>, c: string, t: string): (r: Option<string>)
    ensures t == "" ==> r.None?
    ensures r.Some? ==> exists k :: 0 <= k < |bs| && bs[k].id == r.value && bs[k].ticker == Some(t)
  {
    var first := if t != "" then Lookup(bs, (b: Birth) => b.ticker == Some(t)) else None;
    if first.Some? then first
    else if c != "" && t != "" then Lookup(bs, (b: Birth) => b.companyName == Some(c) && b.ticker == Some(t))
    else None
  }

  /** The company-and-ticker lookup only runs after the ticker lookup found
      nothing, and any row it could find has that ticker: it never finds
      anything, and the resolver is the ticker lookup alone. */
  lemma CompanyStepNeverDecides(bs: seq<Birth>, c: string, t: string)
    ensures TickerThenCompany(bs, c, t) == if t != "" then Lookup(bs, (b: Birth) => b.ticker == Some(t)) else None
  {
    if t != "" && c != "" && Lookup(bs, (b: Birth) => b.ticker == Some(t)).None? {
      var q := (b: Birth) => b.companyName == Some(c) && b.ticker == Some(t);
      if Lookup(bs, q).Some? {
        var k :| 0 <= k < |bs| && q(bs[k]);
        assert bs[k].ticker == Some(t);
      }
    }
  }

  /** `bulletin_date` of `a` sorts before that of `b` under `order=bulletin_date.asc`
      (ISO dates compare as text; `NULL` sorts last). */
  predicate Before(a: Birth, b: Birth) {
    a.bulletinDate.Some? && (b.bulletinDate.None? || LexLess(a.bulletinDate.value, b.bulletinDate.value))
  }

  lemma BeforeTransitive(a: Birth, b: Birth, c: Birth)
    requires Before(a, b) && Before(b, c)
    ensures Before(a, c)
  {
    if c.bulletinDate.Some? {
      LexLessTransitive(a.bulletinDate.value, b.bulletinDate.value, c.bulletinDate.value);
    }
  }

  lemma BeforeAsymmetric(a: Birth, b: Birth)
    requires Before(a, b)
    ensures !Before(b, a)
  {
    if b.bulletinDate.Some? {
      LexLessAsymmetric(a.bulletinDate.value, b.bulletinDate.value);
    }
  }

  /** Two rows that neither sorts before the other tie on `bulletin_date`. */
  lemma BeforeTotal(a: Birth, b: Birth)
    requires !Before(a, b) && !Before(b, a)
    ensures a.bulletinDate == b.bulletinDate
  {
    if a.bulletinDate.Some? && b.bulletinDate.Some? {
      LexLessTotal(a.bulletinDate.value, b.bulletinDate.value);
    }
  }

  /** The row among the first `n` that satisfy `p` with the earliest
      `bulletin_date`; of rows that tie, the first.  What a query with
      `order=bulletin_date.asc&limit=1` returns. */
  function EarliestIn(bs: seq<Birth>, p: Birth -> bool, n: nat): (r: Option<nat>)
    requires n <= |bs|
    ensures r.Some? ==> r.value < n && p(bs[r.value])
    ensures r.None? ==> forall j :: 0 <= j < n ==> !p(bs[j])
    ensures r.Some? ==> forall j :: 0 <= j < n && p(bs[j]) ==> !Before(bs[j], bs[r.value])
    ensures r.Some? ==> forall j :: 0 <= j < r.value && p(bs[j]) ==> Before(bs[r.value], bs[j])
  {
    if n == 0 then None
    else
      var prev := EarliestIn(bs, p, n - 1);
      if p(bs[n - 1]) && (prev.None? || Before(bs[n - 1], bs[prev.value])) then
        var r := n - 1;
        assert forall j :: 0 <= j < n && p(bs[j]) ==> !Before(bs[j], bs[r]) by {
          forall j | 0 <= j < n && p(bs[j]) ensures !Before(bs[j], bs[r]) {
            if j < r {
              if Before(bs[j], bs[r]) {
                BeforeTransitive(bs[j], bs[r], bs[prev.value]);
                assert false;
              }
            } else {
              BeforeIrreflexive(bs[r]);
            }
          }
        }
        assert forall j :: 0 <= j < r && p(bs[j]) ==> Before(bs[r], bs[j]) by {
          forall j | 0 <= j < r && p(bs[j]) ensures Before(bs[r], bs[j]) {
            var q := prev.value;
            if !Before(bs[q], bs[j]) {
              assert !Before(bs[j], bs[q]);
              BeforeTotal(bs[q], bs[j]);
              assert Before(bs[r], bs[j]);
            } else {
              BeforeTransitive(bs[r], bs[q], bs[j]);
            }
          }
        }
        Some(r)
      else
        assert prev.Some? && p(bs[n - 1]) ==> !Before(bs[n - 1], bs[prev.value]);
        prev
  }

  lemma BeforeIrreflexive(a: Birth)
    ensures !Before(a, a)
  {
    if a.bulletinDate.Some? {
      LexLessIrreflexive(a.bulletinDate.value);
    }
  }

  /** The id of the earliest matching row, or `None` when no row matches. */
  function EarliestLookup(bs: seq<Birth>, p: Birth -> bool): (r: Option<string>)
    ensures r.Some? <==> exists k :: 0 <= k < |bs| && p(bs[k])
    ensures r.Some? ==> exists k :: 0 <= k < |bs| && p(bs[k]) && bs[k].id == r.value &&
                          forall j :: 0 <= j < |bs| && p(bs[j]) ==> !Before(bs[j], bs[k])
  {
    var k := EarliestIn(bs, p, |bs|);
    if k.Some? then Some(bs[k.value].id) else None
  }

  /** PostgREST `ilike` against a pattern without wildcards: equality up to case. */
  predicate ILike(v: Option<string>, pat: string) {
    v.Some? && Lower(v.value) == Lower(pat)
  }

  // ---------------------------------------------------------------------------
  // Key phrases
  // ---------------------------------------------------------------------------

  /** Where the words `ws`, matched ignoring case and separated by `\s+`, end when
      they start at `i`.  Every word starts with a letter, so the whitespace run
      between two words is always taken whole. */
  function PhraseEnd(s: string, i: nat, ws: seq<string>): (r: Option<nat>)
    ensures r.Some? ==> i <= r.value <= |s|
    decreases |ws|
  {
    if ws == [] then (if i <= |s| then Some(i) else None)
    else if !IAt(s, i, ws[0]) then None
    else if |ws| == 1 then Some(i + |ws[0]|)
    else
      var j := i + |ws[0]|;
      var k := SpanEnd(s, j, Space);
      if k == j then None else PhraseEnd(s, k, ws[1..])
  }

  /** Whitespace (`\s+`, at least one character) after the phrase `ws` at `i`:
      where that run starts and where it ends. */
  function PhraseThenSpace(s: string, i: nat, ws: seq<string>): (r: Option<(nat, nat)>)
    ensures r.Some? ==> i <= r.value.0 < r.value.1 <= |s|
    ensures r.Some? ==> r.value.1 == |s| || !IsSpace(s[r.value.1])
  {
    match PhraseEnd(s, i, ws)
    case None => None
    case Some(e) =>
      var k := SpanEnd(s, e, Space);
      if k == e then None else Some((e, k))
  }

  /** A captured group after `clean_space`; a group that starts with a
      non-blank character stays non-empty. */
  function GroupText(s: string, d: nat, de: nat): (r: string)
    requires d < de <= |s| && !IsSpace(s[d])
    ensures WsClean(r) && r != ""
  {
    CleanWsNonBlank(s[d..de]);
    CleanWs(s[d..de])
  }

  // ---------------------------------------------------------------------------
  // normalize_date of the halt and resume-trading parsers
  // ---------------------------------------------------------------------------

  /** "%B %d, %Y", "%b %d, %Y", "%Y-%m-%d", in the order they are tried. */
  const EVENT_DATE_FORMATS: seq<Format> := [FmtLong, FmtShort, FmtIsoDash]

  /** What `normalize_date` returns: `None` for `None` or `""`; otherwise the ISO
      text of the first of the three formats that parses the cleaned text. */
  function EventDate(raw: Option<string>): (r: Option<string>)
    ensures raw.None? || raw.value == "" ==> r.None?
    ensures r.Some? ==> IsoShaped(r.value)
    ensures r.Some? <==> raw.Some? && raw.value != "" &&
                         exists k :: 0 <= k < 3 && Strptime(CleanWs(raw.value), EVENT_DATE_FORMATS[k]).Some?
  {
    if raw.None? || raw.value == "" then None
    else
      var d := ParseFirst(CleanWs(raw.value), EVENT_DATE_FORMATS);
      if d.Some? then Some(Iso(d.value)) else None
  }

  /** `normalize_date`: the loop over the three formats with early return. */
  method NormalizeEventDate(raw: Option<string>) returns (r: Option<string>)
    ensures r == EventDate(raw)
  {
    if raw.None? || raw.value == "" {
      return None;
    }
    var text := CleanWs(raw.value);
    var d := TryFormats(text, EVENT_DATE_FORMATS);
    if d.Some? {
      return Some(Iso(d.value));
    }
    return None;
  }

  /** A text that starts with a digit matches no month name. */
  lemma NoNameAtDigit(s: string, names: seq<string>, k: nat)
    requires s != [] && IsDigit(s[0]) && k <= |names|
    requires forall j :: 0 <= j < |names| ==> names[j] != [] && IsLetter(names[j][0])
    ensures NameCands(s, 0, names, k) == []
    decreases |names| - k
  {
    if k < |names| {
      assert !IAt(s, 0, names[k]) by {
        assert ToLower(s[0]) != ToLower(names[k][0]);
      }
      NoNameAtDigit(s, names, k + 1);
    }
  }

  /** A text that starts with a digit matches neither month-name format. */
  lemma NoNameFormatAtDigit(s: string)
    requires s != [] && IsDigit(s[0])
    ensures Strptime(s, FmtLong) == None && Strptime(s, FmtShort) == None
  {
    NoLongAtDigit(s);
    NoShortAtDigit(s);
  }

  lemma NoLongAtDigit(s: string)
    requires s != [] && IsDigit(s[0])
    ensures Strptime(s, FmtLong) == None
  {
    MonthNamesStartWithLetter();
    NoNameAtDigit(s, MonthNames, 0);
    assert Cands(FmtLong[0], s, 0) == [];
    assert MatchFrom(FmtLong, s, 0, Parts(1900, 1, 1)) == None;
  }

  lemma NoShortAtDigit(s: string)
    requires s != [] && IsDigit(s[0])
    ensures Strptime(s, FmtShort) == None
  {
    MonthNamesStartWithLetter();
    NoNameAtDigit(s, MonthAbbrs, 0);
    assert Cands(FmtShort[0], s, 0) == [];
    assert MatchFrom(FmtShort, s, 0, Parts(1900, 1, 1)) == None;
  }

  lemma MonthNamesStartWithLetter()
    ensures forall j :: 0 <= j < |MonthNames| ==> MonthNames[j] != [] && IsLetter(MonthNames[j][0])
    ensures forall j :: 0 <= j < |MonthAbbrs| ==> MonthAbbrs[j] != [] && IsLetter(MonthAbbrs[j][0])
  {
  }

  lemma IsoWsClean(s: string)
    requires IsoShaped(s)
    ensures WsClean(s)
  {
    assert forall k :: 0 <= k < |s| ==> !IsSpace(s[k]);
  }

  /** An ISO date is a fixed point of `normalize_date`: the two month-name
      formats cannot read its leading digits, and "%Y-%m-%d" reads it back. */
  lemma EventDateOfIso(dt: Date)
    requires ValidDate(dt)
    ensures EventDate(Some(Iso(dt))) == Some(Iso(dt))
  {
    var s := Iso(dt);
    IsoWsClean(s);
    CleanWsFixed(s);
    NoNameFormatAtDigit(s);
    IsoRoundTrip(dt);
    assert ParseFirst(s, EVENT_DATE_FORMATS) == Some(dt) by {
      assert EVENT_DATE_FORMATS[1..][1..] == [FmtIsoDash];
    }
  }

  /** A month-name date text is clean: its two spaces are single and inside it. */
  lemma NamedDateClean(name: string, d: Date)
    requires ValidDate(d) && SpellsMonth(name, d)
    ensures WsClean(NamedDateText(name, d))
  {
    var s := NamedDateText(name, d);
    var a := |name|;
    var ds := NatToString(d.day);
    SpelledMonthLetters(name, d);
    NamedDateLayout(name, d);
    assert forall k :: 0 <= k < |s| && IsSpace(s[k]) ==> s[k] == ' ' && (k == a || k == a + 2 + |ds|);
    assert s[0] == name[0] && s[|s| - 1] == Pad(d.year, 4)[3];
  }

  /** `normalize_date` reads a date written "<Month> <d>, <yyyy>", with the
      month's name or abbreviation in any letter case, as that date's ISO text. */
  lemma EventDateReadsBack(name: string, d: Date)
    requires ValidDate(d) && SpellsMonth(name, d)
    ensures EventDate(Some(NamedDateText(name, d))) == Some(Iso(d))
  {
    var s := NamedDateText(name, d);
    NamedDateClean(name, d);
    CleanWsFixed(s);
    NamedDateFirst(name, d, [FmtIsoDash]);
    assert EVENT_DATE_FORMATS == [FmtLong, FmtShort] + [FmtIsoDash];
  }
}
