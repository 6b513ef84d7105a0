/** The normalizers and label extraction of the CPC listing cleaner
    (`robot_depurar.py`), and its label-only parser of "NEW LISTING-CPC-SHARES"
    bulletins of class "Unico".  The pattern-based parser in module `Unico` uses
    the same definitions. */
module Depurar {
  import opened Wrappers
  import opened Text
  import opened DateFormats

  // ---------------------------------------------------------------------------
  // Records and rows
  // ---------------------------------------------------------------------------

  /** An exact decimal `mantissa / 10^scale`, standing for the Python `float`
      that `float(...)` reads from the same digits. */
  datatype Decimal = Decimal(mantissa: int, scale: nat)

  /** A JSON value of an output row. */
  datatype Value = Null | Str(s: string) | Int(n: int) | Num(d: Decimal)

  /** An input bulletin record: a key that is absent is missing from the dict,
      a key mapped to `None` holds JSON `null`. */
  type Record = map<string, Option<string>>

  /** `rec.get(k)`: `None` for a missing key and for `null`. */
  function Get(rec: Record, k: string): Option<string> {
    if k in rec then rec[k] else None
  }

  /** The string column, or `null` when there is none. */
  function StrOrNull(o: Option<string>): Value {
    if o.Some? then Str(o.value) else Null
  }

  function IntOrNull(o: Option<nat>): Value {
    if o.Some? then Int(o.value) else Null
  }

  function NumOrNull(o: Option<Decimal>): Value {
    if o.Some? then Num(o.value) else Null
  }

  /** The 37 columns of a `cpc_birth` row (`FIELDS`). */
  datatype Field =
    | CompanyName | Ticker | CompositeKey | CanonicalType | BulletinDate | Tier
    | ProspectusDate | ProspectusDateIso | EffectiveDate | EffectiveDateIso
    | GrossProceeds | GrossProceedsValue | GrossProceedsClass | GrossProceedsClassVolume
    | GrossProceedsVolumeValue | GrossProceedsValuePerShare | CommenceDate | CommenceDateIso
    | CorporateJurisdiction | Capitalization | CapitalizationVolume | CapitalizationVolumeValue
    | CapitalizationClass | EscrowedShares | EscrowedSharesValue | EscrowedSharesClass
    | TransferAgent | TradingSymbol | CusipNumber | SponsoringMember | Agent | AgentOption
    | AgentOptionValue | AgentOptionClass | AgentOptionPricePerShare
    | AgentsOptionsDurationMonths | ParseVersion

  /** The column name each field has in the table. */
  function Column(f: Field): string {
    match f
    case CompanyName => "company_name"
    case Ticker => "ticker"
    case CompositeKey => "composite_key"
    case CanonicalType => "canonical_type"
    case BulletinDate => "bulletin_date"
    case Tier => "tier"
    case ProspectusDate => "prospectus_date"
    case ProspectusDateIso => "prospectus_date_iso"
    case EffectiveDate => "effective_date"
    case EffectiveDateIso => "effective_date_iso"
    case GrossProceeds => "gross_proceeds"
    case GrossProceedsValue => "gross_proceeds_value"
    case GrossProceedsClass => "gross_proceeds_class"
    case GrossProceedsClassVolume => "gross_proceeds_class_volume"
    case GrossProceedsVolumeValue => "gross_proceeds_volume_value"
    case GrossProceedsValuePerShare => "gross_proceeds_value_per_share"
    case CommenceDate => "commence_date"
    case CommenceDateIso => "commence_date_iso"
    case CorporateJurisdiction => "corporate_jurisdiction"
    case Capitalization => "capitalization"
    case CapitalizationVolume => "capitalization_volume"
    case CapitalizationVolumeValue => "capitalization_volume_value"
    case CapitalizationClass => "capitalization_class"
    case EscrowedShares => "escrowed_shares"
    case EscrowedSharesValue => "escrowed_shares_value"
    case EscrowedSharesClass => "escrowed_shares_class"
    case TransferAgent => "transfer_agent"
    case TradingSymbol => "trading_symbol"
    case CusipNumber => "cusip_number"
    case SponsoringMember => "sponsoring_member"
    case Agent => "agent"
    case AgentOption => "agent_option"
    case AgentOptionValue => "agent_option_value"
    case AgentOptionClass => "agent_option_class"
    case AgentOptionPricePerShare => "agent_option_price_per_share"
    case AgentsOptionsDurationMonths => "agents_options_duration_months"
    case ParseVersion => "parse_version"
  }

  /** The number of columns. */
  const WIDTH: nat := 37

  /** The column at position `i` of `FIELDS`. */
  function FieldNo(i: nat): Field
    requires i < WIDTH
  {
    match i
    case 0 => CompanyName
    case 1 => Ticker
    case 2 => CompositeKey
    case 3 => CanonicalType
    case 4 => BulletinDate
    case 5 => Tier
    case 6 => ProspectusDate
    case 7 => ProspectusDateIso
    case 8 => EffectiveDate
    case 9 => EffectiveDateIso
    case 10 => GrossProceeds
    case 11 => GrossProceedsValue
    case 12 => GrossProceedsClass
    case 13 => GrossProceedsClassVolume
    case 14 => GrossProceedsVolumeValue
    case 15 => GrossProceedsValuePerShare
    case 16 => CommenceDate
    case 17 => CommenceDateIso
    case 18 => CorporateJurisdiction
    case 19 => Capitalization
    case 20 => CapitalizationVolume
    case 21 => CapitalizationVolumeValue
    case 22 => CapitalizationClass
    case 23 => EscrowedShares
    case 24 => EscrowedSharesValue
    case 25 => EscrowedSharesClass
    case 26 => TransferAgent
    case 27 => TradingSymbol
    case 28 => CusipNumber
    case 29 => SponsoringMember
    case 30 => Agent
    case 31 => AgentOption
    case 32 => AgentOptionValue
    case 33 => AgentOptionClass
    case 34 => AgentOptionPricePerShare
    case 35 => AgentsOptionsDurationMonths
    case _ => ParseVersion
  }

  /** `FIELDS`, in table order. */
  const FIELDS: seq<Field> := seq(WIDTH, i requires 0 <= i < WIDTH => FieldNo(i))

  /** The position of a column in `FIELDS`. */
  function Idx(f: Field): (i: nat)
    ensures i < WIDTH && FieldNo(i) == f
  {
    match f
    case CompanyName => 0
    case Ticker => 1
    case CompositeKey => 2
    case CanonicalType => 3
    case BulletinDate => 4
    case Tier => 5
    case ProspectusDate => 6
    case ProspectusDateIso => 7
    case EffectiveDate => 8
    case EffectiveDateIso => 9
    case GrossProceeds => 10
    case GrossProceedsValue => 11
    case GrossProceedsClass => 12
    case GrossProceedsClassVolume => 13
    case GrossProceedsVolumeValue => 14
    case GrossProceedsValuePerShare => 15
    case CommenceDate => 16
    case CommenceDateIso => 17
    case CorporateJurisdiction => 18
    case Capitalization => 19
    case CapitalizationVolume => 20
    case CapitalizationVolumeValue => 21
    case CapitalizationClass => 22
    case EscrowedShares => 23
    case EscrowedSharesValue => 24
    case EscrowedSharesClass => 25
    case TransferAgent => 26
    case TradingSymbol => 27
    case CusipNumber => 28
    case SponsoringMember => 29
    case Agent => 30
    case AgentOption => 31
    case AgentOptionValue => 32
    case AgentOptionClass => 33
    case AgentOptionPricePerShare => 34
    case AgentsOptionsDurationMonths => 35
    case ParseVersion => 36
  }

  /** The dict a parser fills, one entry per column of `FIELDS`. */
  datatype BirthRow = BirthRow(
    companyName: Value, ticker: Value, compositeKey: Value, canonicalType: Value,
    bulletinDate: Value, tier: Value, prospectusDate: Value, prospectusDateIso: Value,
    effectiveDate: Value, effectiveDateIso: Value, grossProceeds: Value, grossProceedsValue: Value,
    grossProceedsClass: Value, grossProceedsClassVolume: Value, grossProceedsVolumeValue: Value,
    grossProceedsValuePerShare: Value, commenceDate: Value, commenceDateIso: Value,
    corporateJurisdiction: Value, capitalization: Value, capitalizationVolume: Value,
    capitalizationVolumeValue: Value, capitalizationClass: Value, escrowedShares: Value,
    escrowedSharesValue: Value, escrowedSharesClass: Value, transferAgent: Value,
    tradingSymbol: Value, cusipNumber: Value, sponsoringMember: Value, agent: Value,
    agentOption: Value, agentOptionValue: Value, agentOptionClass: Value,
    agentOptionPricePerShare: Value, agentsOptionsDurationMonths: Value, parseVersion: Value)

  /** `{f: None for f in FIELDS}`. */
  const EMPTY_ROW: BirthRow :=
    BirthRow(Null, Null, Null, Null, Null, Null, Null, Null, Null, Null, Null, Null, Null, Null, Null,
             Null, Null, Null, Null, Null, Null, Null, Null, Null, Null, Null, Null, Null, Null, Null,
             Null, Null, Null, Null, Null, Null, Null)

  /** `row[Column(f)]`. */
  function ColumnValue(b: BirthRow, f: Field): Value {
    match f
    case CompanyName => b.companyName
    case Ticker => b.ticker
    case CompositeKey => b.compositeKey
    case CanonicalType => b.canonicalType
    case BulletinDate => b.bulletinDate
    case Tier => b.tier
    case ProspectusDate => b.prospectusDate
    case ProspectusDateIso => b.prospectusDateIso
    case EffectiveDate => b.effectiveDate
    case EffectiveDateIso => b.effectiveDateIso
    case GrossProceeds => b.grossProceeds
    case GrossProceedsValue => b.grossProceedsValue
    case GrossProceedsClass => b.grossProceedsClass
    case GrossProceedsClassVolume => b.grossProceedsClassVolume
    case GrossProceedsVolumeValue => b.grossProceedsVolumeValue
    case GrossProceedsValuePerShare => b.grossProceedsValuePerShare
    case CommenceDate => b.commenceDate
    case CommenceDateIso => b.commenceDateIso
    case CorporateJurisdiction => b.corporateJurisdiction
    case Capitalization => b.capitalization
    case CapitalizationVolume => b.capitalizationVolume
    case CapitalizationVolumeValue => b.capitalizationVolumeValue
    case CapitalizationClass => b.capitalizationClass
    case EscrowedShares => b.escrowedShares
    case EscrowedSharesValue => b.escrowedSharesValue
    case EscrowedSharesClass => b.escrowedSharesClass
    case TransferAgent => b.transferAgent
    case TradingSymbol => b.tradingSymbol
    case CusipNumber => b.cusipNumber
    case SponsoringMember => b.sponsoringMember
    case Agent => b.agent
    case AgentOption => b.agentOption
    case AgentOptionValue => b.agentOptionValue
    case AgentOptionClass => b.agentOptionClass
    case AgentOptionPricePerShare => b.agentOptionPricePerShare
    case AgentsOptionsDurationMonths => b.agentsOptionsDurationMonths
    case ParseVersion => b.parseVersion
  }

  /** An output row: its values in the order of `FIELDS` (Python's dict keeps
      insertion order, and every parser's dict starts from `FIELDS`). */
  type Row = seq<Value>

  predicate IsRow(row: Row) { |row| == WIDTH }

  /** The value of column `f` of an output row. */
  function Col(row: Row, f: Field): Value
    requires IsRow(row)
  {
    row[Idx(f)]
  }

  /** `row.items()` of a filled dict, in key order. */
  function Values(b: BirthRow): (r: Row)
    ensures IsRow(r)
    ensures forall f: Field :: Col(r, f) == ColumnValue(b, f)
  {
    seq(WIDTH, i requires 0 <= i < WIDTH => ColumnValue(b, FieldNo(i)))
  }



  const PARSE_VERSION: string := "cpc_birth_unico_v1"
  const CPC_SHARES: string := "NEW LISTING-CPC-SHARES"

  // ---------------------------------------------------------------------------
  // clean_space: runs of spaces and tabs become one space, then strip
  // ---------------------------------------------------------------------------

  predicate NoTab(s: string) { forall k :: 0 <= k < |s| ==> s[k] != '\t' }

  predicate NoDoubleSpace(s: string) {
    forall k :: 0 <= k < |s| - 1 ==> !(s[k] == ' ' && s[k + 1] == ' ')
  }

  /** `re.sub(r"[ \t]+", " ", s)`; `inRun` says the previous character was a
      space or tab, so this one belongs to the same run. */
  function Squeeze(s: string, inRun: bool): (r: string)
    ensures NoTab(r) && NoDoubleSpace(r)
    ensures inRun ==> r == [] || r[0] != ' '
  {
    if s == [] then []
    else if IsBlank(s[0]) then (if inRun then [] else [' ']) + Squeeze(s[1..], true)
    else [s[0]] + Squeeze(s[1..], false)
  }

  /** `clean_space` of `robot_depurar.py`. */
  function CleanSpace(s: string): (r: string)
    ensures NoTab(r) && NoDoubleSpace(r)
    ensures r == [] || (!IsSpace(r[0]) && !IsSpace(r[|r| - 1]))
  {
    var q := Squeeze(s, false);
    var l := LStrip(q);
    assert NoTab(l) && NoDoubleSpace(l) by {
      assert l == q[LeadEnd(q, 0)..];
    }
    var r := RStrip(l);
    assert NoTab(r) && NoDoubleSpace(r) by {
      assert r == l[..TrailStart(l, |l|)];
    }
    r
  }

  /** Squeezing `[ \t]` runs keeps every non-whitespace character, in order. */
  lemma {:induction false} SqueezeKeepsNonSpace(s: string, inRun: bool)
    ensures NonSpace(Squeeze(s, inRun)) == NonSpace(s)
  {
    if s != [] {
      SqueezeKeepsNonSpace(s[1..], IsBlank(s[0]));
      var head := if IsBlank(s[0]) then (if inRun then [] else [' ']) else [s[0]];
      NonSpaceConcat(head, Squeeze(s[1..], IsBlank(s[0])));
      assert NonSpace(head) == if IsSpace(s[0]) then [] else [s[0]];
    }
  }

  /** `clean_space` removes whitespace only: the non-whitespace characters of
      the result are those of the input, in order. */
  lemma CleanSpaceKeepsNonSpace(s: string)
    ensures NonSpace(CleanSpace(s)) == NonSpace(s)
  {
    var q := Squeeze(s, false);
    SqueezeKeepsNonSpace(s, false);
    LStripKeepsNonSpace(q);
    RStripKeepsNonSpace(LStrip(q));
  }


  /** `clean_space(value)` for a value that may be `None`. */
  function CleanOpt(o: Option<string>): (r: string)
    ensures o.None? ==> r == ""
    ensures o.Some? ==> r == CleanSpace(o.value)
    ensures NoTab(r) && NoDoubleSpace(r) && (r == [] || (!IsSpace(r[0]) && !IsSpace(r[|r| - 1])))
    ensures CleanSpace(r) == r
  {
    if o.None? then "" else CleanSpaceIdempotent(o.value); CleanSpace(o.value)
  }

  lemma {:induction false} SqueezeIdentity(s: string, inRun: bool)
    requires NoTab(s) && NoDoubleSpace(s)
    requires inRun ==> s == [] || s[0] != ' '
    ensures Squeeze(s, inRun) == s
  {
    if s != [] {
      assert NoTab(s[1..]) && NoDoubleSpace(s[1..]);
      if s[0] == ' ' {
        assert |s| > 1 ==> s[1] != ' ';
        SqueezeIdentity(s[1..], true);
      } else {
        SqueezeIdentity(s[1..], false);
      }
      assert s == [s[0]] + s[1..];
    }
  }

  /** Text that is already clean is a fixed point of `clean_space`. */
  lemma CleanSpaceFixed(s: string)
    requires NoTab(s) && NoDoubleSpace(s)
    requires s == [] || (!IsSpace(s[0]) && !IsSpace(s[|s| - 1]))
    ensures CleanSpace(s) == s
  {
    SqueezeIdentity(s, false);
    StripIdentity(s);
  }

  /** Cleaning is idempotent: a cleaned value has no tab, no double space and
      no surrounding whitespace, so cleaning it again changes nothing. */
  lemma CleanSpaceIdempotent(s: string)
    ensures CleanSpace(CleanSpace(s)) == CleanSpace(s)
  {
    CleanSpaceFixed(CleanSpace(s));
  }

  // ---------------------------------------------------------------------------
  // normalize_date
  // ---------------------------------------------------------------------------

  /** `DATE_FORMATS`, in the order they are tried. */
  const DATE_FORMATS: seq<Format> := [FmtIsoDash, FmtDayDash, FmtIsoSlash, FmtDaySlash,
                                      FmtDayAbbr, FmtLong, FmtShort]

  /** `re.sub(r",(\d{4})", r", \1", s)`: a comma glued to four digits gets a
      space after it; matches do not overlap and are replaced left to right. */
  function GlueComma(s: string): (r: string)
    ensures ',' !in s ==> r == s
    decreases |s|
  {
    if s == [] then []
    else if s[0] == ',' && FourDigitsAt(s, 1) then ", " + s[1..5] + GlueComma(s[5..])
    else [s[0]] + GlueComma(s[1..])
  }

  /** Text without a comma passes through `GlueComma` unchanged, whatever follows it. */
  lemma {:induction false} GlueCommaPrefix(x: string, y: string)
    requires ',' !in x
    ensures GlueComma(x + y) == x + GlueComma(y)
    decreases |x|
  {
    if x == [] {
      assert x + y == y;
    } else {
      var c, rest := x[0], x[1..];
      assert c != ',' by { assert c in x; }
      calc {
        GlueComma(x + y);
        { assert (x + y)[0] == c && (x + y)[1..] == rest + y; }
        [c] + GlueComma(rest + y);
        { GlueCommaPrefix(rest, y); }
        [c] + (rest + GlueComma(y));
        { assert x == [c] + rest; }
        x + GlueComma(y);
      }
    }
  }

  /** A comma glued to four digits gets one space after it, and the scan goes
      on after the four digits. */
  lemma GlueCommaRewrite(x: string, d4: string, y: string)
    requires ',' !in x
    requires |d4| == 4 && forall k :: 0 <= k < 4 ==> IsDigit(d4[k])
    ensures GlueComma(x + "," + d4 + y) == x + ", " + d4 + GlueComma(y)
  {
    var t := "," + d4 + y;
    assert x + "," + d4 + y == x + t;
    GlueCommaPrefix(x, t);
    assert t[1..5] == d4 && t[5..] == y;
    assert FourDigitsAt(t, 1);
  }

  /** A comma that is not followed by four digits is kept as it is. */
  lemma GlueCommaKeeps(x: string, y: string)
    requires ',' !in x
    requires !FourDigitsAt("," + y, 1)
    ensures GlueComma(x + "," + y) == x + "," + GlueComma(y)
  {
    var t := "," + y;
    assert x + "," + y == x + t;
    GlueCommaPrefix(x, t);
    GlueCommaAtComma(y);
  }

  lemma GlueCommaAtComma(y: string)
    requires !FourDigitsAt("," + y, 1)
    ensures GlueComma("," + y) == "," + GlueComma(y)
  {
    assert ("," + y)[1..] == y;
  }

  /** What `normalize_date` returns: `None` for `None` or `""`; otherwise the ISO
      text of the first format of `DATE_FORMATS` that parses the cleaned text. */
  function NormalizedDate(raw: Option<string>): (r: Option<string>)
    ensures raw.None? || raw.value == "" ==> r.None?
    ensures r.Some? ==> IsoShaped(r.value)
  {
    if raw.None? || raw.value == "" then None
    else
      var d := ParseFirst(GlueComma(CleanSpace(raw.value)), DATE_FORMATS);
      if d.Some? then Some(Iso(d.value)) else None
  }

  /** `normalize_date`: the loop over `DATE_FORMATS` with early return. */
  method NormalizeDate(raw: Option<string>) returns (r: Option<string>)
    ensures r == NormalizedDate(raw)
  {
    if raw.None? || raw.value == "" {
      return None;
    }
    var text := CleanSpace(raw.value);
    text := GlueComma(text);
    var d := TryFormats(text, DATE_FORMATS);
    if d.Some? {
      return Some(Iso(d.value));
    }
    return None;
  }

  /** Every ISO date is a fixed point of `normalize_date`. */
  lemma NormalizeDateIdempotent(d: Date)
    requires ValidDate(d)
    ensures NormalizedDate(Some(Iso(d))) == Some(Iso(d))
  {
    var s := Iso(d);
    IsoIsClean(s);
    assert ',' !in s;
    IsoRoundTrip(d);
  }

  lemma IsoIsClean(s: string)
    requires IsoShaped(s)
    ensures CleanSpace(s) == s
  {
    assert NoTab(s) && NoDoubleSpace(s);
    CleanSpaceFixed(s);
  }

  /** The output of `normalize_date` survives `normalize_row` unchanged. */
  lemma NormalizedDateIsClean(raw: Option<string>)
    ensures NormalizedDate(raw).Some? ==> CleanSpace(NormalizedDate(raw).value) == NormalizedDate(raw).value
  {
    if NormalizedDate(raw).Some? {
      IsoIsClean(NormalizedDate(raw).value);
    }
  }

  // ---------------------------------------------------------------------------
  // Numbers
  // ---------------------------------------------------------------------------

  /** The unsigned decimal `[0-9][0-9,]*\.?[0-9]*` that starts at digit `i`:
      digits of the whole part with commas dropped, then the fraction. */
  function DecimalAt(s: string, i: nat, negative: bool): (r: Decimal)
    requires i < |s| && IsDigit(s[i])
  {
    var e1 := SpanEnd(s, i, DigitComma);
    var whole := RemoveCommas(s[i..e1]);
    var frac := if e1 < |s| && s[e1] == '.' then s[e1 + 1..SpanEnd(s, e1 + 1, Digit)] else "";
    var m: int := DigitsValue(whole + frac);
    Decimal(if negative then -m else m, |frac|)
  }

  predicate IsSign(c: char) { c == '+' || c == '-' }

  /** `[-+]?[0-9]` can start a match at `i`. */
  predicate NumStartsAt(s: string, i: nat) {
    (i < |s| && IsDigit(s[i])) || (i + 1 < |s| && IsSign(s[i]) && IsDigit(s[i + 1]))
  }

  predicate HasDigit(s: string) { exists k :: 0 <= k < |s| && IsDigit(s[k]) }

  /** `parse_numeric_value`: the first `[-+]?[0-9][0-9,]*\.?[0-9]*` with commas
      removed, read as a number; `None` for empty text or text without a digit. */
  function ParseNumericValue(text: Option<string>): (r: Option<Decimal>)
    ensures r.Some? <==> text.Some? && HasDigit(text.value)
  {
    if text.None? || text.value == "" then None
    else
      var s := text.value;
      var p := (i: nat) => NumStartsAt(s, i);
      match FirstWhere(s, 0, p)
      case None =>
        assert !HasDigit(s) by {
          forall k | 0 <= k < |s| ensures !IsDigit(s[k]) { assert !p(k); }
        }
        None
      case Some(i) =>
        if IsDigit(s[i]) then Some(DecimalAt(s, i, false))
        else Some(DecimalAt(s, i + 1, s[i] == '-'))
  }

  /** The number read is the one at the first position where `[-+]?[0-9]` can
      start, with its sign. */
  lemma ParseNumericValueFirst(s: string, i: nat)
    requires i <= |s| && NumStartsAt(s, i)
    requires forall j :: 0 <= j < i ==> !NumStartsAt(s, j)
    ensures ParseNumericValue(Some(s)) ==
              Some(if IsDigit(s[i]) then DecimalAt(s, i, false) else DecimalAt(s, i + 1, s[i] == '-'))
  {
    FirstWhereIs(s, 0, (j: nat) => NumStartsAt(s, j), i);
  }

  /** A grouped count, with or without a sign, after text without digits or a
      trailing sign reads back as that number: "-3,050,600" gives -3050600. */
  lemma NumericRoundTrip(pre: string, sign: string, n: nat, post: string)
    requires !HasDigit(pre) && (pre == [] || !IsSign(pre[|pre| - 1]))
    requires sign == "" || sign == "-" || sign == "+"
    requires post == [] || !(IsDigit(post[0]) || post[0] == ',' || post[0] == '.')
    ensures ParseNumericValue(Some(pre + sign + Grouped(n) + post)) ==
              Some(Decimal(if sign == "-" then -(n as int) else n, 0))
  {
    var g := Grouped(n);
    var s := pre + sign + g + post;
    var i := |pre|;
    var d := i + |sign|;
    PartsAt(pre, sign, g, post);
    NoNumberBefore(pre, sign + g + post);
    GroupedAtFirstNumber(s, i, d, n);
  }

  /** Where the parts of `pre + sign + g + post` sit. */
  lemma PartsAt(pre: string, sign: string, g: string, post: string)
    ensures var s, d := pre + sign + g + post, |pre| + |sign|;
            s == pre + (sign + g + post) && d + |g| <= |s| && s[d..d + |g|] == g &&
            (d + |g| < |s| ==> s[d + |g|] == post[0]) &&
            (sign != "" ==> s[|pre|] == sign[0])
  {
  }

  /** A grouped count at the first place a number can start, after an optional
      sign, is the number read. */
  lemma GroupedAtFirstNumber(s: string, i: nat, d: nat, n: nat)
    requires d == i || (d == i + 1 && i < |s| && IsSign(s[i]))
    requires d + |Grouped(n)| <= |s| && s[d..d + |Grouped(n)|] == Grouped(n)
    requires var e := d + |Grouped(n)|; e == |s| || !(IsDigit(s[e]) || s[e] == ',' || s[e] == '.')
    requires forall j :: 0 <= j < i ==> !NumStartsAt(s, j)
    ensures ParseNumericValue(Some(s)) == Some(Decimal(if d == i + 1 && s[i] == '-' then -(n as int) else n, 0))
  {
    assert IsDigit(s[d]) by { assert s[d] == Grouped(n)[0]; }
    ParseNumericValueFirst(s, i);
    DecimalAtGrouped(s, d, n, d == i + 1 && s[i] == '-');
  }

  /** No number starts inside a prefix without digits that does not end in a sign. */
  lemma NoNumberBefore(pre: string, t: string)
    requires !HasDigit(pre) && (pre == [] || !IsSign(pre[|pre| - 1]))
    ensures forall j :: 0 <= j < |pre| ==> !NumStartsAt(pre + t, j)
  {
    var s := pre + t;
    forall j | 0 <= j < |pre| ensures !NumStartsAt(s, j) {
      assert s[j] == pre[j];
      if j + 1 < |pre| {
        assert s[j + 1] == pre[j + 1];
      }
    }
  }

  /** The reading of a grouped count that stands alone in the text. */
  lemma DecimalAtGrouped(s: string, d: nat, n: nat, negative: bool)
    requires d + |Grouped(n)| <= |s| && s[d..d + |Grouped(n)|] == Grouped(n)
    requires var e := d + |Grouped(n)|; e == |s| || !(IsDigit(s[e]) || s[e] == ',' || s[e] == '.')
    ensures DecimalAt(s, d, negative) == Decimal(if negative then -(n as int) else n, 0)
  {
    var g := Grouped(n);
    var e := d + |g|;
    assert IsDigit(s[d]) by { assert s[d] == g[0]; }
    forall j | d <= j < e
      ensures InCls(s[j], DigitComma)
    {
      assert s[j] == g[j - d];
    }
    SpanEndExact(s, d, e, DigitComma);
    assert e == |s| || s[e] != '.';
    GroupedValue(n);
    assert RemoveCommas(g) + "" == RemoveCommas(g);
  }

  /** `parse_integer_value`: the first `[0-9][0-9,]*` run with its commas removed;
      `None` for empty text or text without a digit. */
  function ParseIntegerValue(text: Option<string>): (r: Option<nat>)
    ensures r.Some? <==> text.Some? && HasDigit(text.value)
  {
    if text.None? || text.value == "" then None
    else
      var s := text.value;
      var p := (i: nat) => i < |s| && IsDigit(s[i]);
      match FirstWhere(s, 0, p)
      case None =>
        forall k | 0 <= k < |s| ensures !IsDigit(s[k]) { assert !p(k); }
        None
      case Some(i) => Some(DigitsValue(RemoveCommas(s[i..SpanEnd(s, i, DigitComma)])))
  }

  /** `n` with thousands separators, as bulletins print share counts: "3,050,600". */
  function Grouped(n: nat): (r: string)
    ensures |r| >= 1 && IsDigit(r[0])
    ensures forall k :: 0 <= k < |r| ==> IsDigit(r[k]) || r[k] == ','
  {
    if n < 1000 then NatToString(n)
    else Grouped(n / 1000) + "," + Pad(n % 1000, 3)
  }

  lemma {:induction false} GroupedValue(n: nat)
    ensures DigitsValue(RemoveCommas(Grouped(n))) == n
  {
    if n < 1000 {
      assert ',' !in NatToString(n);
      RemoveCommasNone(NatToString(n));
      NatToStringValue(n);
    } else {
      var g := Grouped(n / 1000);
      var p := Pad(n % 1000, 3);
      assert Grouped(n) == (g + ",") + p;
      assert ',' !in p;
      RemoveCommasNone(p);
      RemoveCommasConcat(g + ",", p);
      RemoveCommasConcat(g, ",");
      assert RemoveCommas(",") == [];
      assert RemoveCommas(Grouped(n)) == RemoveCommas(g) + p;
      GroupedValue(n / 1000);
      Pow10Three();
      PadValue(n % 1000, 3);
      DigitsValueConcat(RemoveCommas(g), p);
      assert DigitsValue(RemoveCommas(g) + p) == (n / 1000) * 1000 + n % 1000;
    }
  }

  /** A grouped count after text without digits reads back as the count, so
      "3,050,600" gives 3050600. */
  lemma GroupedRoundTrip(pre: string, n: nat, post: string)
    requires !HasDigit(pre)
    requires post == [] || !(IsDigit(post[0]) || post[0] == ',')
    ensures ParseIntegerValue(Some(pre + Grouped(n) + post)) == Some(n)
  {
    var g := Grouped(n);
    var s := pre + g + post;
    var i := |pre|;
    assert forall j :: 0 <= j < i ==> !IsDigit(s[j]) by {
      forall j | 0 <= j < i ensures !IsDigit(s[j]) { assert s[j] == pre[j]; }
    }
    assert IsDigit(s[i]);
    FirstWhereIs(s, 0, (j: nat) => j < |s| && IsDigit(s[j]), i);
    assert SpanEnd(s, i, DigitComma) == i + |g| by {
      SpanEndExact(s, i, i + |g|, DigitComma);
    }
    assert s[i..i + |g|] == g;
    GroupedValue(n);
  }

  lemma {:induction false} SpanEndExact(s: string, i: nat, e: nat, k: Cls)
    requires i <= e <= |s|
    requires forall j :: i <= j < e ==> InCls(s[j], k)
    requires e == |s| || !InCls(s[e], k)
    ensures SpanEnd(s, i, k) == e
    decreases e - i
  {
    if i < e { SpanEndExact(s, i + 1, e, k); }
  }

  // ---------------------------------------------------------------------------
  // parse_currency_class
  // ---------------------------------------------------------------------------

  /** The currency markers that `parse_currency_class` looks for, in its order. */
  predicate CadMarked(s: string) { Contains(Upper(s), "CAD") || Contains(Upper(s), "C$") }
  predicate UsdMarked(s: string) {
    Contains(Upper(s), "USD") || Contains(Upper(s), "US$") || Contains(Upper(s), "U$")
  }

  /** `parse_currency_class`: CAD markers first, then USD markers, then a bare "$". */
  function ParseCurrencyClass(text: Option<string>): (r: Option<string>)
    ensures r.None? || r == Some("CAD") || r == Some("USD")
    ensures r == Some("USD") ==> text.Some? && !CadMarked(text.value)
    ensures r.None? <==> text.None? || (!CadMarked(text.value) && !UsdMarked(text.value) && '$' !in text.value)
    ensures r == Some("USD") <==> text.Some? && !CadMarked(text.value) && UsdMarked(text.value)
    ensures r == Some("CAD") <==>
              text.Some? && (CadMarked(text.value) || (!UsdMarked(text.value) && '$' in text.value))
  {
    if text.None? || text.value == "" then None
    else if CadMarked(text.value) then Some("CAD")
    else if UsdMarked(text.value) then Some("USD")
    else if '$' in text.value then Some("CAD")
    else None
  }

  lemma ContainsConcat(x: string, w: string, y: string)
    ensures Contains(x + w + y, w)
  {
    var s := x + w + y;
    assert s[|x|..|x| + |w|] == w;
    assert At(s, |x|, w);
  }

  lemma UpperConcat(x: string, y: string)
    ensures Upper(x + y) == Upper(x) + Upper(y)
  {
  }

  /** A "CAD" anywhere wins, whatever else the text says about US dollars. */
  lemma CadWinsOverUsd(x: string, y: string)
    ensures ParseCurrencyClass(Some(x + "CAD" + y)) == Some("CAD")
  {
    UpperConcat(x + "CAD", y);
    UpperConcat(x, "CAD");
    assert Upper("CAD") == "CAD";
    ContainsConcat(Upper(x), "CAD", Upper(y));
  }

  // ---------------------------------------------------------------------------
  // extract_field: `{label}\s*:\s*(.+)`, case-insensitive, no word boundary
  // ---------------------------------------------------------------------------

  /** The largest position `p` in `[lo, e]` with a character that is not a
      newline: where `\s*` gives back characters until `(.+)` can start. */
  function LastNonNewline(s: string, lo: nat, e: nat): (r: Option<nat>)
    requires lo <= e <= |s|
    ensures r.Some? ==> lo <= r.value <= e && r.value < |s| && s[r.value] != '\n'
    ensures r.Some? ==> forall p :: r.value < p <= e ==> p == |s| || s[p] == '\n'
    ensures r.None? ==> forall p :: lo <= p <= e ==> p == |s| || s[p] == '\n'
    decreases e - lo
  {
    if e < |s| && s[e] != '\n' then Some(e)
    else if e == lo then None
    else LastNonNewline(s, lo, e - 1)
  }

  /** The captured value when `label\s*:\s*(.+)` matches at `i`. */
  function FieldAt(s: string, lbl: string, i: nat): (r: Option<string>)
    ensures r.Some? ==> IAt(s, i, lbl) && r.value != [] && '\n' !in r.value
  {
    if !IAt(s, i, lbl) then None
    else
      var j := SpanEnd(s, i + |lbl|, Space);
      if !(j < |s| && s[j] == ':') then None
      else
        var e := SpanEnd(s, j + 1, Space);
        match LastNonNewline(s, j + 1, e)
        case None => None
        case Some(p) => Some(s[p..LineEnd(s, p)])
  }

  /** `re.search` for one label: the match at the leftmost position. */
  function FieldSearch(s: string, lbl: string): (r: Option<string>)
    ensures r.Some? <==> exists i :: 0 <= i <= |s| && FieldAt(s, lbl, i).Some?
  {
    var p := (i: nat) => FieldAt(s, lbl, i).Some?;
    match FirstWhere(s, 0, p)
    case None =>
      forall i | 0 <= i <= |s| ensures FieldAt(s, lbl, i).None? { assert !p(i); }
      None
    case Some(i) => FieldAt(s, lbl, i)
  }

  /** What `extract_field` returns: the cleaned value of the first label, in list
      order, whose pattern matches anywhere in the body. */
  function ExtractedField(body: string, labels: seq<string>): (r: Option<string>)
    ensures r.Some? ==> exists k :: 0 <= k < |labels| && FieldSearch(body, labels[k]).Some?
    ensures r.None? <==> forall k :: 0 <= k < |labels| ==> FieldSearch(body, labels[k]).None?
    ensures labels != [] && FieldSearch(body, labels[0]).Some? ==>
              r == Some(CleanSpace(FieldSearch(body, labels[0]).value))
  {
    if labels == [] then None
    else match FieldSearch(body, labels[0])
      case Some(v) => Some(CleanSpace(v))
      case None =>
        var r := ExtractedField(body, labels[1..]);
        assert forall k :: 1 <= k < |labels| ==> labels[k] == labels[1..][k - 1];
        r
  }

  /** `extract_field`: the loop over the labels with early return. */
  method ExtractField(body: string, labels: seq<string>) returns (r: Option<string>)
    ensures r == ExtractedField(body, labels)
    ensures r.Some? ==> r.value == CleanSpace(r.value)
  {
    var k := 0;
    while k < |labels|
      invariant 0 <= k <= |labels|
      invariant ExtractedField(body, labels) == ExtractedField(body, labels[k..])
    {
      assert labels[k..][1..] == labels[k + 1..];
      var m := FieldSearch(body, labels[k]);
      if m.Some? {
        CleanSpaceIdempotent(m.value);
        return Some(CleanSpace(m.value));
      }
      k := k + 1;
    }
    return None;
  }

  /** Labels are not word-bounded: the "Agent" label reads the value of a
      "Transfer Agent:" line. */
  lemma AgentMatchesInsideTransferAgent(v: string)
    requires v != [] && '\n' !in v && !IsSpace(v[0])
    ensures FieldSearch("Transfer Agent: " + v, "Agent") == Some(v)
    ensures ExtractedField("Transfer Agent: " + v, AGENT_LABELS) == Some(CleanSpace(v))
  {
    var s := "Transfer Agent: " + v;
    var p := (i: nat) => FieldAt(s, "Agent", i).Some?;
    NoAgentInTransfer(s);
    AgentValueAfterTransfer(v);
    FirstWhereIs(s, 0, p, 9);
  }

  /** "Agent" does not start anywhere in the word "Transfer ". */
  lemma NoAgentInTransfer(s: string)
    requires |s| >= 16 && s[..16] == "Transfer Agent: "
    ensures forall i :: 0 <= i < 9 ==> !IAt(s, i, "Agent")
  {
    forall i | 0 <= i < 9 ensures !IAt(s, i, "Agent") {
      assert s[i] == s[..16][i];
      if i == 2 {
        assert s[3] == s[..16][3];
        assert ToLower(s[3]) != ToLower("Agent"[1]);
      } else {
        assert ToLower(s[i]) != ToLower("Agent"[0]);
      }
    }
  }

  /** The "Agent" pattern at position 9 of a "Transfer Agent:" line captures its value. */
  lemma AgentValueAfterTransfer(v: string)
    requires v != [] && '\n' !in v && !IsSpace(v[0])
    ensures FieldAt("Transfer Agent: " + v, "Agent", 9) == Some(v)
  {
    var s := "Transfer Agent: " + v;
    assert IAt(s, 9, "Agent");
    assert s[14] == ':' && s[15] == ' ';
    assert s[16] == v[0];
    SpanEndExact(s, 14, 14, Space);
    SpanEndExact(s, 15, 16, Space);
    LineEndNoNewline(s, 16);
    FieldAtLine(s, "Agent", 9, 14, 16);
    assert s[16..|s|] == v;
  }

  /** `label\s*:\s*(.+)` at `i` whose colon is at `j` and whose value starts, after the
      blanks, at a non-newline `e`: the value runs to the end of the line. */
  lemma FieldAtLine(s: string, lbl: string, i: nat, j: nat, e: nat)
    requires IAt(s, i, lbl)
    requires j < |s| && s[j] == ':' && SpanEnd(s, i + |lbl|, Space) == j
    requires e < |s| && s[e] != '\n' && SpanEnd(s, j + 1, Space) == e
    ensures FieldAt(s, lbl, i) == Some(s[e..LineEnd(s, e)])
  {
    assert LastNonNewline(s, j + 1, e) == Some(e);
  }

  lemma LineEndNoNewline(s: string, i: nat)
    requires i <= |s|
    requires forall j :: i <= j < |s| ==> s[j] != '\n'
    ensures LineEnd(s, i) == |s|
  {
  }

  // ---------------------------------------------------------------------------
  // extract_price_per_share and extract_months
  // ---------------------------------------------------------------------------

  /** `\$\s*[0-9]` can start a match at `i`. */
  predicate DollarNumberAt(s: string, i: nat) {
    i < |s| && s[i] == '$' && SpanEnd(s, i + 1, Space) < |s| && IsDigit(s[SpanEnd(s, i + 1, Space)])
  }

  /** `extract_price_per_share`: the number after the first "$" that is
      followed, after optional whitespace, by a digit. */
  function ExtractPricePerShare(text: Option<string>): (r: Option<Decimal>)
    ensures r.Some? <==> text.Some? && exists i :: 0 <= i <= |text.value| && DollarNumberAt(text.value, i)
    ensures r.Some? ==> r.value.mantissa >= 0
  {
    if text.None? || text.value == "" then None
    else
      var s := text.value;
      var p := (i: nat) => DollarNumberAt(s, i);
      match FirstWhere(s, 0, p)
      case None =>
        forall i | 0 <= i <= |s| ensures !DollarNumberAt(s, i) { assert !p(i); }
        None
      case Some(i) => Some(DecimalAt(s, SpanEnd(s, i + 1, Space), false))
  }

  /** The price read is the number after the first "$" that whitespace and a
      digit follow. */
  lemma ExtractPricePerShareFirst(s: string, i: nat)
    requires i <= |s| && DollarNumberAt(s, i)
    requires forall j :: 0 <= j < i ==> !DollarNumberAt(s, j)
    ensures ExtractPricePerShare(Some(s)) == Some(DecimalAt(s, SpanEnd(s, i + 1, Space), false))
  {
    FirstWhereIs(s, 0, (j: nat) => DollarNumberAt(s, j), i);
  }

  /** "$" and a grouped amount after text without a "$" read back as that amount:
      "at $ 1,250 each" gives 1250. */
  lemma PriceRoundTrip(pre: string, ws: string, n: nat, post: string)
    requires '$' !in pre
    requires forall k :: 0 <= k < |ws| ==> IsSpace(ws[k])
    requires post == [] || !(IsDigit(post[0]) || post[0] == ',' || post[0] == '.')
    ensures ExtractPricePerShare(Some(pre + "$" + ws + Grouped(n) + post)) == Some(Decimal(n, 0))
  {
    var g := Grouped(n);
    var s := pre + "$" + ws + g + post;
    var i := |pre|;
    var d := i + 1 + |ws|;
    assert s[i] == '$';
    assert s[d..d + |g|] == g;
    assert IsDigit(s[d]);
    forall k | i + 1 <= k < d ensures InCls(s[k], Space) {
      assert s[k] == ws[k - i - 1];
    }
    SpanEndExact(s, i + 1, d, Space);
    forall j | 0 <= j < i ensures !DollarNumberAt(s, j) {
      assert s[j] == pre[j];
    }
    ExtractPricePerShareFirst(s, i);
    assert d + |g| < |s| ==> s[d + |g|] == post[0];
    DecimalAtGrouped(s, d, n, false);
  }

  /** `([0-9]{1,3})\s*month` matches at `i`: the digit run that starts at `i` is
      one to three digits long (a longer run leaves a digit where `\s*month`
      must start) and is followed by optional whitespace and "month". */
  predicate MonthsAt(s: string, i: nat) {
    i < |s| && IsDigit(s[i]) &&
    SpanEnd(s, i, Digit) - i <= 3 &&
    IAt(s, SpanEnd(s, SpanEnd(s, i, Digit), Space), "month")
  }

  /** `extract_months`: the number of the first "N month" (case-insensitive),
      at most three digits. */
  function ExtractMonths(text: Option<string>): (r: Option<nat>)
    ensures r.Some? ==> r.value <= 999
    ensures r.Some? <==> text.Some? && exists i :: 0 <= i <= |text.value| && MonthsAt(text.value, i)
  {
    if text.None? || text.value == "" then None
    else
      var s := text.value;
      var p := (i: nat) => MonthsAt(s, i);
      match FirstWhere(s, 0, p)
      case None =>
        forall i | 0 <= i <= |s| ensures !MonthsAt(s, i) { assert !p(i); }
        None
      case Some(i) =>
        var e := SpanEnd(s, i, Digit);
        DigitsBound(s[i..e]);
        Some(DigitsValue(s[i..e]))
  }

  /** The months read are the number of the first "N month". */
  lemma ExtractMonthsFirst(s: string, i: nat)
    requires i <= |s| && MonthsAt(s, i)
    requires forall j :: 0 <= j < i ==> !MonthsAt(s, j)
    ensures ExtractMonths(Some(s)) == Some(DigitsValue(s[i..SpanEnd(s, i, Digit)]))
  {
    FirstWhereIs(s, 0, (j: nat) => MonthsAt(s, j), i);
  }

  /** "N month" after text without digits reads back as N: "for 18 months" gives 18. */
  lemma MonthsRoundTrip(pre: string, n: nat, post: string)
    requires !HasDigit(pre) && n <= 999
    ensures ExtractMonths(Some(pre + NatToString(n) + " month" + post)) == Some(n)
  {
    var w := NatToString(n);
    var s := pre + w + " month" + post;
    var i := |pre|;
    var e := i + |w|;
    assert s[i..e] == w;
    NatToStringShort(n);
    assert s[e] == ' ';
    forall k | i <= k < e ensures InCls(s[k], Digit) {
      assert s[k] == w[k - i];
    }
    SpanEndExact(s, i, e, Digit);
    SpanEndExact(s, e, e + 1, Space);
    assert s[e + 1..e + 6] == "month";
    assert IAt(s, e + 1, "month");
    forall j | 0 <= j < i ensures !MonthsAt(s, j) {
      assert s[j] == pre[j];
    }
    ExtractMonthsFirst(s, i);
    NatToStringValue(n);
  }

  lemma NatToStringShort(n: nat)
    requires n <= 999
    ensures |NatToString(n)| <= 3
  {
    if n >= 10 {
      assert NatToString(n) == NatToString(n / 10) + [('0' as int + n % 10) as char];
      if n / 10 >= 10 {
        assert NatToString(n / 10) == NatToString(n / 100) + [('0' as int + (n / 10) % 10) as char];
        assert n / 100 < 10;
      }
    }
  }

  lemma {:induction false} DigitsBound(s: string)
    requires forall k :: 0 <= k < |s| ==> IsDigit(s[k])
    ensures DigitsValue(s) < Pow10(|s|)
  {
    if s != [] {
      DigitsBound(s[..|s| - 1]);
    }
  }

  lemma Pow10Three()
    ensures Pow10(0) == 1 && Pow10(1) == 10 && Pow10(2) == 100 && Pow10(3) == 1000
  {
  }

  // ---------------------------------------------------------------------------
  // normalize_row
  // ---------------------------------------------------------------------------

  /** What `normalize_row` does to one value: strings are cleaned and an empty
      result becomes `null`; other values are kept. */
  function NormValue(v: Value): (r: Value)
    ensures !v.Str? ==> r == v
    ensures v.Str? ==> (CleanSpace(v.s) == "" <==> r == Null)
    ensures v.Str? && CleanSpace(v.s) != "" ==> r == Str(CleanSpace(v.s))
    ensures r.Str? ==> r.s != "" && r.s == CleanSpace(r.s)
  {
    if v.Str? then
      CleanSpaceIdempotent(v.s);
      var c := CleanSpace(v.s); if c == "" then Null else Str(c)
    else v
  }

  /** `normalize_row`: the same columns, each value normalized. */
  method NormalizeRow(row: Row) returns (r: Row)
    ensures |r| == |row|
    ensures forall k :: 0 <= k < |r| ==> r[k] == NormValue(row[k])
    ensures forall k :: 0 <= k < |r| ==> NormValue(r[k]) == r[k]
  {
    r := row;
    var k := 0;
    while k < |row|
      invariant 0 <= k <= |row| && |r| == |row|
      invariant forall j :: 0 <= j < k ==> r[j] == NormValue(row[j]) && NormValue(r[j]) == r[j]
      invariant forall j :: k <= j < |row| ==> r[j] == row[j]
    {
      NormValueIdempotent(row[k]);
      r := r[k := NormValue(row[k])];
      k := k + 1;
    }
  }

  /** Normalizing a normalized row changes nothing. */
  lemma NormValueIdempotent(v: Value)
    ensures NormValue(NormValue(v)) == NormValue(v)
  {
  }

  // ---------------------------------------------------------------------------
  // parse_cpc_birth_unico (label variant)
  // ---------------------------------------------------------------------------

  /** Python's `str.capitalize` on ASCII. */
  function Capitalize(s: string): (r: string)
    ensures |r| == |s|
    ensures s != [] ==> r[0] == ToUpper(s[0])
    ensures forall i :: 0 < i < |s| ==> r[i] == ToLower(s[i])
  {
    if s == [] then [] else [ToUpper(s[0])] + Lower(s[1..])
  }

  /** The record is a "NEW LISTING-CPC-SHARES" bulletin of class "Unico". */
  predicate IsUnicoListing(rec: Record)
    ensures IsUnicoListing(rec) <==>
              Contains(Upper(Get(rec, "canonical_type").GetOr("")), CPC_SHARES) &&
              Get(rec, "canonical_class").Some? && Lower(Get(rec, "canonical_class").value) == "unico"
  {
    var cls := Get(rec, "canonical_class").GetOr("");
    CapitalizedUnico(cls);
    Contains(Upper(Get(rec, "canonical_type").GetOr("")), CPC_SHARES) && Capitalize(cls) == "Unico"
  }

  /** `str.capitalize()` gives "Unico" exactly for a text that lower-cases to
      "unico": the class test ignores case. */
  lemma CapitalizedUnico(s: string)
    ensures Capitalize(s) == "Unico" <==> Lower(s) == "unico"
  {
    var r := Capitalize(s);
    if r == "Unico" {
      assert |s| == 5;
      assert ToUpper(s[0]) == 'U';
      assert ToLower(s[0]) == 'u';
      forall i | 1 <= i < 5
        ensures Lower(s)[i] == "unico"[i]
      {
        assert r[i] == ToLower(s[i]);
      }
    }
    if Lower(s) == "unico" {
      assert |s| == 5;
      assert ToLower(s[0]) == 'u';
      assert ToUpper(s[0]) == 'U';
      forall i | 1 <= i < 5
        ensures r[i] == "Unico"[i]
      {
        assert Lower(s)[i] == ToLower(s[i]);
      }
    }
  }

  lemma ParseVersionIsClean()
    ensures CleanSpace(PARSE_VERSION) == PARSE_VERSION
  {
    assert NoTab(PARSE_VERSION) && NoDoubleSpace(PARSE_VERSION);
    assert !IsSpace(PARSE_VERSION[0]) && !IsSpace(PARSE_VERSION[|PARSE_VERSION| - 1]);
    CleanSpaceFixed(PARSE_VERSION);
  }

  lemma CpcSharesIsClean()
    ensures CleanSpace(CPC_SHARES) == CPC_SHARES
  {
    assert NoTab(CPC_SHARES) && NoDoubleSpace(CPC_SHARES);
    assert !IsSpace(CPC_SHARES[0]) && !IsSpace(CPC_SHARES[|CPC_SHARES| - 1]);
    CleanSpaceFixed(CPC_SHARES);
  }

  /** Result of a parser on one record. */
  datatype Outcome = Rejected | Parsed(row: Row) | Raised(error: string)

  /** The label lists `parse_cpc_birth_unico` tries, in order, for each column. */
  const PROSPECTUS_LABELS: seq<string> := ["Prospectus Date"]
  const EFFECTIVE_LABELS: seq<string> := ["Effective Date"]
  const COMMENCE_LABELS: seq<string> := ["Commence Date", "Commence Trading Date"]
  const GROSS_LABELS: seq<string> := ["Gross Proceeds"]
  const JURISDICTION_LABELS: seq<string> := ["Corporate Jurisdiction", "Incorporation"]
  const CAPITALIZATION_LABELS: seq<string> := ["Capitalization"]
  const ESCROW_LABELS: seq<string> := ["Escrowed Shares", "Escrow"]
  const TRANSFER_AGENT_LABELS: seq<string> := ["Transfer Agent"]
  const SYMBOL_LABELS: seq<string> := ["Trading Symbol", "Symbol"]
  const CUSIP_LABELS: seq<string> := ["CUSIP", "CUSIP Number"]
  const SPONSOR_LABELS: seq<string> := ["Sponsoring Member"]
  const AGENT_LABELS: seq<string> := ["Agent"]
  const OPTION_LABELS: seq<string> := ["Agent's Option", "Agents' Option", "Agent Option"]

  /** The header columns: names, keys and the constant canonical type. */
  method LabelHeader(rec: Record) returns (row: BirthRow)
    requires "composite_key" in rec
    ensures row == EMPTY_ROW.(
              companyName := Str(CleanOpt(OrElse(Get(rec, "company_name"), Get(rec, "company")))),
              ticker := Str(CleanOpt(Get(rec, "ticker"))),
              compositeKey := StrOrNull(rec["composite_key"]),
              canonicalType := Str(CPC_SHARES),
              bulletinDate := StrOrNull(Get(rec, "bulletin_date")),
              tier := Str(CleanOpt(Get(rec, "tier"))))
  {
    row := EMPTY_ROW;
    row := row.(companyName := Str(CleanOpt(OrElse(Get(rec, "company_name"), Get(rec, "company")))));
    row := row.(ticker := Str(CleanOpt(Get(rec, "ticker"))));
    row := row.(compositeKey := StrOrNull(rec["composite_key"]));
    row := row.(canonicalType := Str(CPC_SHARES));
    row := row.(bulletinDate := StrOrNull(Get(rec, "bulletin_date")));
    row := row.(tier := Str(CleanOpt(Get(rec, "tier"))));
  }

  /** The three dates, each as written and in ISO form. */
  method LabelDates(row0: BirthRow, body: string) returns (row: BirthRow)
    ensures var p := ExtractedField(body, PROSPECTUS_LABELS);
            var e := ExtractedField(body, EFFECTIVE_LABELS);
            var c := ExtractedField(body, COMMENCE_LABELS);
            row == row0.(prospectusDate := StrOrNull(p), prospectusDateIso := StrOrNull(NormalizedDate(p)),
                         effectiveDate := StrOrNull(e), effectiveDateIso := StrOrNull(NormalizedDate(e)),
                         commenceDate := StrOrNull(c), commenceDateIso := StrOrNull(NormalizedDate(c)))
  {
    row := row0;
    var prospectus := ExtractField(body, PROSPECTUS_LABELS);
    var prospectusIso := NormalizeDate(prospectus);
    row := row.(prospectusDate := StrOrNull(prospectus), prospectusDateIso := StrOrNull(prospectusIso));

    var effective := ExtractField(body, EFFECTIVE_LABELS);
    var effectiveIso := NormalizeDate(effective);
    row := row.(effectiveDate := StrOrNull(effective), effectiveDateIso := StrOrNull(effectiveIso));

    var commence := ExtractField(body, COMMENCE_LABELS);
    var commenceIso := NormalizeDate(commence);
    row := row.(commenceDate := StrOrNull(commence), commenceDateIso := StrOrNull(commenceIso));
  }

  /** Gross proceeds, jurisdiction, capitalization and escrow, with the amounts,
      currency and share counts read from them. */
  method LabelAmounts(row0: BirthRow, body: string) returns (row: BirthRow)
    ensures var g := ExtractedField(body, GROSS_LABELS);
            var k := ExtractedField(body, CAPITALIZATION_LABELS);
            var e := ExtractedField(body, ESCROW_LABELS);
            row == row0.(grossProceeds := StrOrNull(g),
                         grossProceedsValue := NumOrNull(ParseNumericValue(g)),
                         grossProceedsClass := StrOrNull(ParseCurrencyClass(g)),
                         grossProceedsClassVolume := Null,
                         grossProceedsVolumeValue := IntOrNull(ParseIntegerValue(g)),
                         grossProceedsValuePerShare := NumOrNull(ExtractPricePerShare(g)),
                         corporateJurisdiction := StrOrNull(ExtractedField(body, JURISDICTION_LABELS)),
                         capitalization := StrOrNull(k),
                         capitalizationVolume := Null,
                         capitalizationVolumeValue := IntOrNull(ParseIntegerValue(k)),
                         capitalizationClass := Null,
                         escrowedShares := StrOrNull(e),
                         escrowedSharesValue := IntOrNull(ParseIntegerValue(e)),
                         escrowedSharesClass := Null)
  {
    row := row0;
    var gross := ExtractField(body, GROSS_LABELS);
    row := row.(grossProceeds := StrOrNull(gross));
    row := row.(grossProceedsValue := NumOrNull(ParseNumericValue(gross)));
    row := row.(grossProceedsClass := StrOrNull(ParseCurrencyClass(gross)));
    row := row.(grossProceedsClassVolume := Null);
    row := row.(grossProceedsVolumeValue := IntOrNull(ParseIntegerValue(gross)));
    row := row.(grossProceedsValuePerShare := NumOrNull(ExtractPricePerShare(gross)));

    var jurisdiction := ExtractField(body, JURISDICTION_LABELS);
    row := row.(corporateJurisdiction := StrOrNull(jurisdiction));

    var capitalization := ExtractField(body, CAPITALIZATION_LABELS);
    row := row.(capitalization := StrOrNull(capitalization));
    row := row.(capitalizationVolume := Null);
    row := row.(capitalizationVolumeValue := IntOrNull(ParseIntegerValue(capitalization)));
    row := row.(capitalizationClass := Null);

    var escrowed := ExtractField(body, ESCROW_LABELS);
    row := row.(escrowedShares := StrOrNull(escrowed));
    row := row.(escrowedSharesValue := IntOrNull(ParseIntegerValue(escrowed)));
    row := row.(escrowedSharesClass := Null);
  }

  /** Transfer agent, trading symbol, CUSIP, sponsoring member and agent, as extracted. */
  method LabelParties(row0: BirthRow, body: string) returns (row: BirthRow)
    ensures row == row0.(transferAgent := StrOrNull(ExtractedField(body, TRANSFER_AGENT_LABELS)),
                         tradingSymbol := StrOrNull(ExtractedField(body, SYMBOL_LABELS)),
                         cusipNumber := StrOrNull(ExtractedField(body, CUSIP_LABELS)),
                         sponsoringMember := StrOrNull(ExtractedField(body, SPONSOR_LABELS)),
                         agent := StrOrNull(ExtractedField(body, AGENT_LABELS)))
  {
    row := row0;
    var transferAgent := ExtractField(body, TRANSFER_AGENT_LABELS);
    row := row.(transferAgent := StrOrNull(transferAgent));
    var symbol := ExtractField(body, SYMBOL_LABELS);
    row := row.(tradingSymbol := StrOrNull(symbol));
    var cusip := ExtractField(body, CUSIP_LABELS);
    row := row.(cusipNumber := StrOrNull(cusip));
    var sponsor := ExtractField(body, SPONSOR_LABELS);
    row := row.(sponsoringMember := StrOrNull(sponsor));
    var agent := ExtractField(body, AGENT_LABELS);
    row := row.(agent := StrOrNull(agent));
  }

  /** The agent's option with the amount, unit price and duration read from it,
      then the parse version. */
  method LabelOption(row0: BirthRow, body: string) returns (row: BirthRow)
    ensures var t := ExtractedField(body, OPTION_LABELS);
            row == row0.(agentOption := StrOrNull(t),
                         agentOptionValue := NumOrNull(ParseNumericValue(t)),
                         agentOptionClass := Null,
                         agentOptionPricePerShare := NumOrNull(ExtractPricePerShare(t)),
                         agentsOptionsDurationMonths := IntOrNull(ExtractMonths(t)),
                         parseVersion := Str(PARSE_VERSION))
  {
    row := row0;
    var option := ExtractField(body, OPTION_LABELS);
    row := row.(agentOption := StrOrNull(option));
    row := row.(agentOptionValue := NumOrNull(ParseNumericValue(option)));
    row := row.(agentOptionClass := Null);
    row := row.(agentOptionPricePerShare := NumOrNull(ExtractPricePerShare(option)));
    row := row.(agentsOptionsDurationMonths := IntOrNull(ExtractMonths(option)));
    row := row.(parseVersion := Str(PARSE_VERSION));
  }

  /** Every column of `parse_cpc_birth_unico` before `normalize_row`: the header from
      the record, the rest from the labelled fields of the body and the readers
      applied to them; the columns it never fills stay `None`. */
  function LabeledRow(rec: Record, body: string): (row: BirthRow)
    requires "composite_key" in rec
    ensures row.grossProceedsClassVolume == Null && row.capitalizationVolume == Null
    ensures row.capitalizationClass == Null && row.escrowedSharesClass == Null && row.agentOptionClass == Null
    ensures row.canonicalType == Str(CPC_SHARES) && row.parseVersion == Str(PARSE_VERSION)
  {
    var p := ExtractedField(body, PROSPECTUS_LABELS);
    var e := ExtractedField(body, EFFECTIVE_LABELS);
    var c := ExtractedField(body, COMMENCE_LABELS);
    var g := ExtractedField(body, GROSS_LABELS);
    var k := ExtractedField(body, CAPITALIZATION_LABELS);
    var es := ExtractedField(body, ESCROW_LABELS);
    var t := ExtractedField(body, OPTION_LABELS);
    EMPTY_ROW.(
      companyName := Str(CleanOpt(OrElse(Get(rec, "company_name"), Get(rec, "company")))),
      ticker := Str(CleanOpt(Get(rec, "ticker"))),
      compositeKey := StrOrNull(rec["composite_key"]),
      canonicalType := Str(CPC_SHARES),
      bulletinDate := StrOrNull(Get(rec, "bulletin_date")),
      tier := Str(CleanOpt(Get(rec, "tier"))),
      prospectusDate := StrOrNull(p), prospectusDateIso := StrOrNull(NormalizedDate(p)),
      effectiveDate := StrOrNull(e), effectiveDateIso := StrOrNull(NormalizedDate(e)),
      commenceDate := StrOrNull(c), commenceDateIso := StrOrNull(NormalizedDate(c)),
      grossProceeds := StrOrNull(g),
      grossProceedsValue := NumOrNull(ParseNumericValue(g)),
      grossProceedsClass := StrOrNull(ParseCurrencyClass(g)),
      grossProceedsVolumeValue := IntOrNull(ParseIntegerValue(g)),
      grossProceedsValuePerShare := NumOrNull(ExtractPricePerShare(g)),
      corporateJurisdiction := StrOrNull(ExtractedField(body, JURISDICTION_LABELS)),
      capitalization := StrOrNull(k),
      capitalizationVolumeValue := IntOrNull(ParseIntegerValue(k)),
      escrowedShares := StrOrNull(es),
      escrowedSharesValue := IntOrNull(ParseIntegerValue(es)),
      transferAgent := StrOrNull(ExtractedField(body, TRANSFER_AGENT_LABELS)),
      tradingSymbol := StrOrNull(ExtractedField(body, SYMBOL_LABELS)),
      cusipNumber := StrOrNull(ExtractedField(body, CUSIP_LABELS)),
      sponsoringMember := StrOrNull(ExtractedField(body, SPONSOR_LABELS)),
      agent := StrOrNull(ExtractedField(body, AGENT_LABELS)),
      agentOption := StrOrNull(t),
      agentOptionValue := NumOrNull(ParseNumericValue(t)),
      agentOptionPricePerShare := NumOrNull(ExtractPricePerShare(t)),
      agentsOptionsDurationMonths := IntOrNull(ExtractMonths(t)),
      parseVersion := Str(PARSE_VERSION))
  }

  /** Every column `parse_cpc_birth_unico` fills, in the order it fills them, before
      `normalize_row`. */
  method LabelRow(rec: Record, body: string) returns (row: BirthRow)
    requires "composite_key" in rec
    ensures row == LabeledRow(rec, body)
    ensures row.compositeKey == StrOrNull(rec["composite_key"])
    ensures row.canonicalType == Str(CPC_SHARES)
    ensures row.prospectusDateIso == StrOrNull(NormalizedDate(ExtractedField(body, PROSPECTUS_LABELS)))
    ensures row.agent == StrOrNull(ExtractedField(body, AGENT_LABELS))
    ensures row.agentsOptionsDurationMonths == IntOrNull(ExtractMonths(ExtractedField(body, OPTION_LABELS)))
    ensures row.parseVersion == Str(PARSE_VERSION)
  {
    row := LabelHeader(rec);
    row := LabelDates(row, body);
    row := LabelAmounts(row, body);
    row := LabelParties(row, body);
    row := LabelOption(row, body);
  }


  /** Column `f` of a normalized row is the normalized value the filled record holds for `f`. */
  lemma NormalizedColumn(filled: BirthRow, row: Row, normalized: Row, f: Field)
    requires row == Values(filled)
    requires |normalized| == |row|
    requires forall k :: 0 <= k < |normalized| ==> normalized[k] == NormValue(row[k])
    ensures IsRow(normalized) && Col(normalized, f) == NormValue(ColumnValue(filled, f))
  {
  }

  /** `normalize_row` applied to a filled row: every column holds the normalized value
      of the same column of `filled`. */
  method NormalizeFilled(filled: BirthRow) returns (normalized: Row)
    ensures IsRow(normalized)
    ensures forall f: Field :: Col(normalized, f) == NormValue(ColumnValue(filled, f))
    ensures forall k :: 0 <= k < |normalized| ==> NormValue(normalized[k]) == normalized[k]
  {
    var row := Values(filled);
    normalized := NormalizeRow(row);
    forall f: Field ensures Col(normalized, f) == NormValue(ColumnValue(filled, f)) {
      NormalizedColumn(filled, row, normalized, f);
    }
  }

  /** The columns the label parser promises something about, read back from the
      normalized row. */
  lemma FilledColumns(filled: BirthRow, normalized: Row)
    requires IsRow(normalized)
    requires forall f: Field :: Col(normalized, f) == NormValue(ColumnValue(filled, f))
    ensures Col(normalized, ParseVersion) == NormValue(filled.parseVersion)
    ensures Col(normalized, CanonicalType) == NormValue(filled.canonicalType)
    ensures Col(normalized, Agent) == NormValue(filled.agent)
    ensures Col(normalized, AgentsOptionsDurationMonths) == NormValue(filled.agentsOptionsDurationMonths)
    ensures Col(normalized, ProspectusDateIso) == NormValue(filled.prospectusDateIso)
  {
    FilledFields(filled);
    assert Col(normalized, ParseVersion) == NormValue(ColumnValue(filled, ParseVersion));
    assert Col(normalized, CanonicalType) == NormValue(ColumnValue(filled, CanonicalType));
    assert Col(normalized, Agent) == NormValue(ColumnValue(filled, Agent));
    assert Col(normalized, AgentsOptionsDurationMonths) == NormValue(ColumnValue(filled, AgentsOptionsDurationMonths));
    assert Col(normalized, ProspectusDateIso) == NormValue(ColumnValue(filled, ProspectusDateIso));
  }

  /** The record fields behind five of the columns. */
  lemma FilledFields(filled: BirthRow)
    ensures ColumnValue(filled, ParseVersion) == filled.parseVersion
    ensures ColumnValue(filled, CanonicalType) == filled.canonicalType
    ensures ColumnValue(filled, Agent) == filled.agent
    ensures ColumnValue(filled, AgentsOptionsDurationMonths) == filled.agentsOptionsDurationMonths
    ensures ColumnValue(filled, ProspectusDateIso) == filled.prospectusDateIso
  {
  }

  /** A non-empty string `clean_space` leaves alone survives normalization. */
  lemma CleanStringFixed(s: string)
    requires s != "" && CleanSpace(s) == s
    ensures NormValue(Str(s)) == Str(s)
  {
  }

  /** A normalized date column is left alone by `normalize_row`. */
  lemma NormalizedDateFixed(raw: Option<string>)
    ensures NormValue(StrOrNull(NormalizedDate(raw))) == StrOrNull(NormalizedDate(raw))
  {
    NormalizedDateIsClean(raw);
  }

  /** `rec.get("body_text", "") or ""`. */
  function BodyText(rec: Record): string {
    Get(rec, "body_text").GetOr("")
  }

  /** The label-only parser `parse_cpc_birth_unico` of `robot_depurar.py`: every
      column of the row it returns is the normalized column of `LabeledRow`. */
  method ParseCpcBirthUnico(rec: Record) returns (out: Outcome)
    ensures !IsUnicoListing(rec) <==> out == Rejected
    ensures out.Raised? <==> IsUnicoListing(rec) && "composite_key" !in rec
    ensures out.Parsed? ==> "composite_key" in rec && IsRow(out.row)
    ensures out.Parsed? ==> forall f: Field :: Col(out.row, f) == NormValue(ColumnValue(LabeledRow(rec, BodyText(rec)), f))
    ensures out.Parsed? ==> forall k :: 0 <= k < |out.row| ==> NormValue(out.row[k]) == out.row[k]
  {
    if !IsUnicoListing(rec) {
      return Rejected;
    }
    if "composite_key" !in rec {
      return Raised("KeyError: composite_key");
    }
    var body := BodyText(rec);
    var filled := LabelRow(rec, body);
    var normalized := NormalizeFilled(filled);
    return Parsed(normalized);
  }

  /** What a parsed row holds in the columns with a fixed or directly read value:
      the parse version, the canonical type, the agent, the option months and
      the ISO prospectus date. */
  lemma LabeledColumns(rec: Record, row: Row)
    requires "composite_key" in rec && IsRow(row)
    requires forall f: Field :: Col(row, f) == NormValue(ColumnValue(LabeledRow(rec, BodyText(rec)), f))
    ensures Col(row, ParseVersion) == Str(PARSE_VERSION)
    ensures Col(row, CanonicalType) == Str(CPC_SHARES)
    ensures Col(row, Agent) == NormValue(StrOrNull(ExtractedField(BodyText(rec), AGENT_LABELS)))
    ensures Col(row, AgentsOptionsDurationMonths) == IntOrNull(ExtractMonths(ExtractedField(BodyText(rec), OPTION_LABELS)))
    ensures Col(row, ProspectusDateIso) == StrOrNull(NormalizedDate(ExtractedField(BodyText(rec), PROSPECTUS_LABELS)))
  {
    var body := BodyText(rec);
    FilledColumns(LabeledRow(rec, body), row);
    ParseVersionIsClean();
    CleanStringFixed(PARSE_VERSION);
    CpcSharesIsClean();
    CleanStringFixed(CPC_SHARES);
    NormalizedDateFixed(ExtractedField(body, PROSPECTUS_LABELS));
  }
}
