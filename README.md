# CPC bulletin extraction, modelled in Dafny

This project models the core of a pipeline that reads TSX Venture Exchange
bulletins about capital pool companies (CPCs) and turns their free text into
typed rows. It also models the small list and string helpers of the web pages
that browse those rows.

- **Normalizers and the label parser** (`depurar.dfy`, with `strptime.dfy` and
  `spacing.dfy`). These cover whitespace cleaning, the fixed list of date
  formats and the number, currency, months and price readers. They also cover
  `extract_field`, `normalize_row` and the label-based `parse_cpc_birth_unico`.
- **The pattern-based CPC listing ("Unico") parser** (`unico.dfy`). It fills
  the same row from category-specific patterns: the prospectus, effective and
  commence dates, gross proceeds, capitalization, the parties and the agent's
  options.
- **The four event parsers** (`halt.dfy`, `resume.dfy`, `filing.dfy`,
  `circular.dfy`, with the shared `events.dfy`). Each has its own rejection
  rule and its own `find_cpc_birth_id` fallback policy. That policy is
  modelled as a search over a given sequence of `cpc_birth` rows.
- **The status bookkeeping of the parsers' main loops** (`status.dfy`). A
  `Board` class holds the `parser_status` and `parser_parsed_at` columns of
  `all_data` as a map from record id, and its methods are the PATCH updates.
- **The page helpers**:
  - the binary-search date window of the notices page (`notices.dfy`);
  - the path order and tree of the glossary page (`glossary.dfy`);
  - ticker normalization, chunking and anchor dates of the CPC lifecycle page
    (`lifecycle.dfy`);
  - HTML and regex escaping and the single-highlight loop of `TermView`
    (`termview.dfy`);
  - the table filter, comparator and sort toggle of `ViewAllData`
    (`viewall.dfy`).

Code that updates state step by step is written as methods with loops, each
proved equal to a specification function. Examples are the format and label
loops, the dict-filling extractors, the main loops, the binary searches, the
tree building and the highlight loop. The properties the source promises are
proved as lemmas about those functions.

Several lemmas record behaviour that the code has as written:

- The glossary's `comparePaths` is not transitive: "2" < "10" < "1a" < "2".
- A glossary row whose parent path is its own path becomes its own child.
- The ViewAllData comparator calls each of two missing values larger than the
  other.
- In the Unico parser, the commence pattern `p2` can never decide the result.
- A tag "39" highlights inside the `&#39;` entity of an escaped apostrophe.
- The label "Agent" reads the value of a "Transfer Agent:" line.

## Model

| member | source | states |
|---|---|---|
| Depurar.CleanSpace | src/robot_depurar.py:69-72 | the result has no tab, no two spaces in a row and no whitespace at either end |
| Depurar.CleanOpt | src/robot_depurar.py:69-72 | `None` gives `""`; a string gives a clean text (no tab, no two spaces in a row, no whitespace at either end) that cleaning leaves unchanged |
| Depurar.CleanSpaceFixed | src/robot_depurar.py:69-72 | text that is already clean is returned unchanged |
| Depurar.CleanSpaceIdempotent | src/robot_depurar.py:69-72 | cleaning twice gives the same text as cleaning once |
| Depurar.SqueezeKeepsNonSpace | src/robot_depurar.py:72 | squeezing space and tab runs keeps every non-whitespace character, in order |
| Depurar.CleanSpaceKeepsNonSpace | src/robot_depurar.py:69-72 | cleaning removes whitespace only: the non-whitespace characters of the result are those of the input, in order |
| Depurar.GlueComma | src/robot_depurar.py:79 | text without a comma is unchanged |
| Depurar.GlueCommaPrefix | src/robot_depurar.py:79 | text before the first comma is kept as it is |
| Depurar.GlueCommaRewrite | src/robot_depurar.py:79 | a comma directly before four digits becomes ", " |
| Depurar.GlueCommaKeeps | src/robot_depurar.py:79 | a comma not directly followed by four digits is kept as it is |
| Depurar.NormalizedDate | src/robot_depurar.py:75-85 | `None` and `""` give `None`; any result is an ISO `YYYY-MM-DD` date |
| Depurar.NormalizeDate | src/robot_depurar.py:75-85 | the format loop with early return computes `NormalizedDate`: the first format in `DATE_FORMATS` that parses the cleaned text |
| Depurar.NormalizeDateIdempotent | src/robot_depurar.py:58-85 | every valid ISO date normalizes to itself |
| Depurar.NormalizedDateIsClean | src/robot_depurar.py:75-85 | a normalized date is already clean, so `normalize_row` keeps it |
| Depurar.ParseNumericValue | src/robot_depurar.py:88-98 | a value exists exactly when the text is present and holds a digit |
| Depurar.ParseNumericValueFirst | src/robot_depurar.py:88-98 | the value is the decimal read at the first digit, or at the first sign followed by a digit, negative after a "-" |
| Depurar.NumericRoundTrip | src/robot_depurar.py:88-98 | a signed comma-grouped count after text without digits reads back as that count, negated after "-" |
| Depurar.ParseIntegerValue | src/robot_depurar.py:101-110 | a value exists exactly when the text is present and holds a digit |
| Depurar.GroupedRoundTrip | src/robot_depurar.py:101-110 | a comma-grouped count such as "3,050,600", after text without digits, reads back as the count |
| Depurar.GroupedValue | src/robot_depurar.py:108 | removing the thousands separators of a grouped count gives back its value |
| Depurar.ParseCurrencyClass | src/robot_depurar.py:113-123 | CAD exactly when a CAD marker occurs, or no USD marker does and a `$` does; USD exactly when a USD marker occurs and no CAD marker; none exactly when no marker and no `$` occur |
| Depurar.CadWinsOverUsd | src/robot_depurar.py:117-118 | text containing "CAD" is CAD whatever else it says |
| Depurar.FieldAt | src/robot_depurar.py:128-131 | a capture starts with the label (ignoring case), is non-empty and stays on one line |
| Depurar.FieldSearch | src/robot_depurar.py:129 | the search finds a value exactly when the pattern matches at some position |
| Depurar.ExtractedField | src/robot_depurar.py:126-132 | none exactly when no label matches; the first label that matches decides, and its value is cleaned |
| Depurar.ExtractField | src/robot_depurar.py:126-132 | the label loop with early return computes `ExtractedField`, and its value is clean |
| Depurar.AgentMatchesInsideTransferAgent | src/robot_depurar.py:225 | labels are not word-bounded: "Agent" reads the value of a "Transfer Agent:" line |
| Depurar.FieldAtLine | src/robot_depurar.py:128 | when the colon and the value start are known, the capture runs from the value to the end of its line |
| Depurar.ExtractPricePerShare | src/robot_depurar.py:135-144 | a price exists exactly when a `$`, optional whitespace and a digit occur; it is never negative |
| Depurar.ExtractPricePerShareFirst | src/robot_depurar.py:135-144 | the price is the decimal read after the first `$` and the whitespace after it |
| Depurar.PriceRoundTrip | src/robot_depurar.py:135-144 | "$", spaces and a comma-grouped count, after text without `$`, read back as the count |
| Depurar.ExtractMonths | src/robot_depurar.py:147-156 | a count exists exactly when one to three digits, optional whitespace and "month" occur; it is at most 999 |
| Depurar.ExtractMonthsFirst | src/robot_depurar.py:147-156 | the count is the value of the first digit run that is followed by "month" |
| Depurar.MonthsRoundTrip | src/robot_depurar.py:147-156 | a count of at most 999 written before " month", after text without digits, reads back as that count |
| Depurar.NormValue | src/robot_depurar.py:159-167 | non-strings are kept; a string becomes `null` exactly when it cleans to `""`; a non-blank string becomes `Str` of its `clean_space` text, which is non-empty and clean |
| Depurar.NormalizeRow | src/robot_depurar.py:159-167 | same columns, each value normalized, and the result is a fixed point of normalization |
| Depurar.NormValueIdempotent | src/robot_depurar.py:159-167 | normalizing a value twice gives the same as once |
| Depurar.LabelHeader | src/robot_depurar.py:176-183 | the header columns: cleaned `company_name or company`, ticker and tier, the key, the constant canonical type and the bulletin date |
| Depurar.LabelDates | src/robot_depurar.py:187-197 | each of the three dates as extracted and as normalized |
| Depurar.LabelAmounts | src/robot_depurar.py:199-218 | gross proceeds, jurisdiction, capitalization and escrow with their parsed amounts, currency and counts; the unused volume and class columns are `null` |
| Depurar.LabelParties | src/robot_depurar.py:220-226 | transfer agent, symbol, CUSIP, sponsoring member and agent, each from its own label list |
| Depurar.LabelOption | src/robot_depurar.py:228-235 | the agent's option text with its amount, unit price and months, and the parse version |
| Depurar.LabelRow | src/robot_depurar.py:176-235 | the section loop fills exactly the `LabeledRow` of the record: the key, the canonical type, the ISO prospectus date, the agent, the option months and the parse version among its columns |
| Depurar.LabeledRow | src/robot_depurar.py:176-235 | the columns the parser never fills are null, the canonical type and parse version are the fixed constants |
| Depurar.LabeledColumns | src/robot_depurar.py:237 | in a row whose columns are the normalized `LabeledRow` columns: the parse version, canonical type, agent, option months and ISO prospectus date |
| Depurar.NormalizeFilled | src/robot_depurar.py:237 | every column of the output is the normalized value of the filled column, and the output is fixed by normalization |
| Depurar.ParseCpcBirthUnico | src/robot_depurar.py:170-237 | rejected exactly when the record is not a "NEW LISTING-CPC-SHARES" bulletin of class "Unico"; raises exactly when it is one but has no `composite_key`; otherwise every column of the row is the normalized column of `LabeledRow`, and the row is fixed by normalization |
| Depurar.IsoIsClean | src/robot_depurar.py:69-85 | an ISO date text is unchanged by `clean_space` |
| Depurar.Values | src/robot_depurar.py:159-167 | the row's columns in table order, one value per field |
| Depurar.NoAgentInTransfer | src/robot_depurar.py:225 | "Agent" does not occur in "Transfer Agent: " before the word "Agent" itself |
| Depurar.AgentValueAfterTransfer | src/robot_depurar.py:225 | on a "Transfer Agent: v" line, the "Agent" label captures v |
| Depurar.FilledColumns | src/robot_depurar.py:237 | `normalize_row` keeps the parse version, type, agent and option months in their columns, each normalized |
| Depurar.CleanStringFixed | src/robot_depurar.py:159-167 | a clean non-empty string is kept by normalization |
| Depurar.NormalizedDateFixed | src/robot_depurar.py:159-167 | a normalized date, or none, is kept by normalization |
| Depurar.Capitalize | src/robot_depurar.py:172 | `str.capitalize`: the first character upper-cased, every other character lower-cased |
| Depurar.CapitalizedUnico | src/robot_depurar.py:172-173 | the capitalized class is "Unico" exactly when the class is "unico" ignoring case |
| Depurar.IsUnicoListing | src/robot_depurar.py:171-174 | a record is taken exactly when its upper-cased type contains "NEW LISTING-CPC-SHARES" and it has a class that is "unico" ignoring case |
| DateFormats.Strptime | src/robot_depurar.py:82 | a parsed date is a valid calendar date; the month-name formats read "<Month> <d>, <yyyy>" back as that date (see `LongNameRoundTrip`, `ShortNameRoundTrip`) |
| DateFormats.ParseFirst | src/robot_depurar.py:80-85 | a date exists exactly when some format parses the text; the first format that parses decides; the date is valid |
| DateFormats.TryFormats | src/robot_depurar.py:80-85 | the loop over formats with early return computes `ParseFirst` |
| DateFormats.Iso | src/robot_depurar.py:82 | `strftime("%Y-%m-%d")`: ten characters, dashes at 4 and 7, digits elsewhere |
| DateFormats.IsoRoundTrip | src/robot_depurar.py:59 | the ISO text of a valid date parses back to that date with `%Y-%m-%d` |
| DateFormats.LongNameRoundTrip | src/robot_depurar.py:64 | `%B %d, %Y` reads "<full month name in any case> <d>, <yyyy>" back as that date |
| DateFormats.ShortNameRoundTrip | src/robot_depurar.py:65 | `%b %d, %Y` reads "<month abbreviation in any case> <d>, <yyyy>" back as that date |
| DateFormats.AbbrNotLong | src/robot_depurar.py:64 | `%B` rejects an abbreviation that is not also a full name (every month but May), so the `%b` format decides |
| DateFormats.NamedDateFirst | src/robot_depurar.py:64-65 | a format list starting with `%B %d, %Y`, `%b %d, %Y` reads a month-name date text as that date |
| DateFormats.LongDateEndNamed | src/robot_depurar.py:64-65 | the month-name date shape matched after any prefix ends at the end of the text |
| DateFormats.LongDateEnd | src/robot_depurar.py:64-65 | a month name found by `%B`/`%b` starts with a letter and ends inside the text |
| Spacing.CleanWs | src/cpc_events_halt_parser_v1.py:24-27 | the result has only single plain spaces between non-blank characters and nothing at either end |
| Spacing.CleanWsOpt | src/cpc_events_resume_trading_parser_v1.py:24-27 | `None` gives `""`; a string is cleaned |
| Spacing.CleanWsFixed | src/cpc_events_halt_parser_v1.py:24-27 | clean text is returned unchanged |
| Spacing.CleanWsIdempotent | src/cpc_events_halt_parser_v1.py:24-27 | cleaning twice gives the same as once |
| Spacing.CleanWsNonBlank | src/cpc_events_halt_parser_v1.py:24-27 | text that starts with a non-blank character does not clean to `""` |
| Spacing.CleanWsKeepsNonSpace | src/cpc_events_halt_parser_v1.py:24-27 | cleaning removes whitespace only: the non-whitespace characters of the result are those of the input, in order |
| Spacing.Words | src/cpc_filing_statement_parser_v1.py:53 | `split()` yields non-empty words without whitespace |
| Spacing.CleanSplit | src/cpc_filing_statement_parser_v1.py:50-53 | `None` and `""` give `""` |
| Spacing.JoinSpaceClean | src/cpc_filing_statement_parser_v1.py:53 | words joined by single spaces give clean text |
| Spacing.JoinWordsOfClean | src/cpc_filing_statement_parser_v1.py:53 | splitting clean text and joining it again gives the text back |
| Spacing.CleanSplitShape | src/cpc_filing_statement_parser_v1.py:50-53 | the result is clean, and clean text is returned unchanged |
| Spacing.CleanSplitIdempotent | src/cpc_filing_statement_parser_v1.py:50-53 | cleaning twice gives the same as once |
| Spacing.JoinWordsKeepsNonSpace | src/cpc_filing_statement_parser_v1.py:53 | splitting into words and joining with single spaces keeps every non-whitespace character, in order |
| Spacing.CleanSplitKeepsNonSpace | src/cpc_filing_statement_parser_v1.py:50-53 | cleaning removes whitespace only: the non-whitespace characters of the result are those of the input, in order |
| Spacing.Collapse | src/cpc_events_information_circular_v1_parser.py:52 | `re.sub(r"\s+", " ", s)`: only plain spaces, never two in a row |
| Spacing.CollapseIdentity | src/cpc_events_information_circular_v1_parser.py:52 | text with single plain spaces is unchanged |
| Spacing.CollapseKeepsNonSpace | src/cpc_events_information_circular_v1_parser.py:52 | collapsing whitespace runs keeps every non-whitespace character, in order |
| Spacing.StripOfClean | src/cpc_events_halt_parser_v1.py:27 | stripping a cleaned text changes nothing |
| Unico.ProspectusDateText | src/cpc_birth_unico_parser.py:33-38 | none exactly when the prospectus pattern matches nowhere |
| Unico.ProspectusAfterFirst | src/cpc_birth_unico_parser.py:33-38 | the greedy `(?:.*)?` makes the capture the LAST "dated <date>" after the first "Prospectus" |
| Unico.LastDated | src/cpc_birth_unico_parser.py:34 | the chosen position holds a "dated <date>" and no later position does |
| Unico.NextEffective | src/cpc_birth_unico_parser.py:43-47 | the next "effective <date>" position at or after a start, and none before it |
| Unico.EffectiveMatches | src/cpc_birth_unico_parser.py:43-47 | `findall`: every match span lies inside the text |
| Unico.EffectiveMatchesEmpty | src/cpc_birth_unico_parser.py:43-48 | `findall` finds nothing exactly when no position matches |
| Unico.EffectiveMatchesLast | src/cpc_birth_unico_parser.py:43-48 | the last `findall` match is the span of a match after which no further match starts |
| Unico.EffectiveIsLast | src/cpc_birth_unico_parser.py:43-48 | `effs[-1]`: the effective date is the capture of a match after which no further match starts; none exactly when nothing matches |
| Unico.CommenceLine | src/cpc_birth_unico_parser.py:56 | none exactly when no line starts with "Commence Date:" (ignoring case) |
| Unico.P1 | src/cpc_birth_unico_parser.py:62-66 | none exactly when the weekday-prefixed date pattern matches nowhere on the line |
| Unico.P2 | src/cpc_birth_unico_parser.py:67-71 | none exactly when no "<word> <day>, <year>" occurs on the line |
| Unico.P3 | src/cpc_birth_unico_parser.py:72-76 | none exactly when no "<word> <day>" without a following year occurs |
| Unico.FirstMatch | src/cpc_birth_unico_parser.py:78-81 | none exactly when all three fail; otherwise the stripped capture of the first that matched |
| Unico.PickCommence | src/cpc_birth_unico_parser.py:78-81 | the `for p in (p1, p2, p3)` loop with `break` computes `FirstMatch` |
| Unico.DateStartsP1 | src/cpc_birth_unico_parser.py:62-71 | wherever `p2` can match, `p1` can match too |
| Unico.P2NeverDecides | src/cpc_birth_unico_parser.py:62-81 | `p2` never matches when `p1` fails |
| Unico.FirstOfThree | src/cpc_birth_unico_parser.py:78-81 | when the second pattern can only match where the first does, the first-of-three pick is the first capture, else the third, else none |
| Unico.CommencePick | src/cpc_birth_unico_parser.py:78-81 | the commence date is `p1`'s capture, else `p3`'s, else none: `p2` is never used |
| Unico.CommenceRaw | src/cpc_birth_unico_parser.py:56-83 | no commence line gives none; otherwise the first of the three patterns decides |
| Unico.GrossProceedsText | src/cpc_birth_unico_parser.py:95-100 | none exactly when the pattern matches nowhere; a capture starts with `$` |
| Unico.ShPr | src/cpc_birth_unico_parser.py:104-110 | none exactly when "(N common shares at $P per share)" occurs nowhere |
| Unico.Ios | src/cpc_birth_unico_parser.py:129-135 | none exactly when "N common shares are issued and outstanding" occurs nowhere |
| Unico.LineValue | src/cpc_birth_unico_parser.py:178-188 | none exactly when no line starting with the label (ignoring case) carries a value |
| Unico.TradingSymbol | src/cpc_birth_unico_parser.py:164-167 | none exactly when no "Trading Symbol:" line has a symbol |
| Unico.CusipNumber | src/cpc_birth_unico_parser.py:172-176 | none exactly when no "CUSIP Number:" line has a number |
| Unico.TransferAgent | src/cpc_birth_unico_parser.py:155-162 | no "Transfer Agent:" line with a value gives none |
| Unico.StripParenName | src/cpc_birth_unico_parser.py:159-161 | a trailing "(...)" is removed from "Name (...)", leaving the name |
| Unico.Qty | src/cpc_birth_unico_parser.py:211-217 | none exactly when no "N (non-)transferable options" occurs in the block |
| Unico.Klass | src/cpc_birth_unico_parser.py:221-229 | none exactly when no word-bounded "(non-)transferable options" occurs in the block |
| Unico.Price | src/cpc_birth_unico_parser.py:232-238 | none exactly when no price phrase matches; a price is made of digits and dots |
| Unico.FloatText | src/cpc_birth_unico_parser.py:240 | `float` of a digits-and-dots capture, when it reads, is not negative |
| Unico.Duration | src/cpc_birth_unico_parser.py:244-249 | none exactly when no duration phrase matches; at most 999 months |
| Unico.DurationMonths | src/cpc_birth_unico_parser.py:250-255 | the duration phrase wins; else `extract_months(ao_block) or extract_months(body)`, where a count of 0 counts as false |
| Unico.UnicoDates | src/cpc_birth_unico_parser.py:33-84 | the prospectus, effective and commence dates, each as found and as normalized |
| Unico.UnicoGross | src/cpc_birth_unico_parser.py:89-121 | jurisdiction and gross proceeds; with a "(N common shares at $P per share)" phrase the class is "common shares" and the counts and price come from it, else from the proceeds text |
| Unico.UnicoCapital | src/cpc_birth_unico_parser.py:126-150 | capitalization from "issued and outstanding" when present, else from the field; escrow with count and currency |
| Unico.UnicoParties | src/cpc_birth_unico_parser.py:155-188 | transfer agent, trading symbol (falling back to the cleaned ticker), CUSIP, sponsoring member and agent |
| Unico.UnicoOption | src/cpc_birth_unico_parser.py:193-255 | raises exactly when the price capture is not a number; "Agent's Options: none" gives "none", 0, null, null, 0; otherwise the block, quantity, class, price and months |
| Unico.UnicoRow | src/cpc_birth_unico_parser.py:15-255 | the filled row: canonical type, no parse version, the effective and commence dates, the share class and the "none" option columns |
| Unico.UnicoColumns | src/cpc_birth_unico_parser.py:258 | `normalize_row` keeps the type, parse version, effective and commence dates and share class in their columns, each normalized |
| Unico.OptionColumns | src/cpc_birth_unico_parser.py:193-258 | `normalize_row` keeps the five agent-option columns, each normalized |
| Unico.FixedTextsClean | src/cpc_birth_unico_parser.py:112-194 | the literal texts "none" and "common shares" are unchanged by `clean_space` |
| Unico.ParseUnico | src/cpc_birth_unico_parser.py:1-258 | rejected exactly when the record is not a Unico CPC listing; raises exactly when the key is missing or the price is not a number; otherwise a normalized full row with the columns above |
| Events.RowsOf | src/cpc_events_halt_parser_v1.py:218-225 | the rows collected are exactly the rows of the records whose parse gave a row |
| Events.RowsOfSnoc | src/cpc_events_halt_parser_v1.py:218-225 | one more record appends its row, if it gave one, and nothing else |
| Events.ProducedOf | src/cpc_events_halt_parser_v1.py:218-234 | per record, whether its parse gave a row |
| Events.ProducedOfSnoc | src/cpc_events_halt_parser_v1.py:218-234 | one more record appends one flag |
| Events.IdsOf | src/cpc_events_halt_parser_v1.py:212-219 | per record, its `id` column |
| Events.FirstIndex | src/cpc_events_halt_parser_v1.py:81-87 | the first birth row at or after a position satisfying a condition, and none before it |
| Events.Lookup | src/cpc_events_halt_parser_v1.py:81-87 | a `limit 1` query finds an id exactly when some birth row satisfies the filter, and the id is that of such a row |
| Events.TickerThenCompany | src/cpc_events_halt_parser_v1.py:69-98 | an empty ticker finds nothing; a found id belongs to a birth row with exactly that ticker |
| Events.CompanyStepNeverDecides | src/cpc_events_halt_parser_v1.py:89-96 | the "company and ticker" query never finds a row the ticker-only query missed, so the result is the ticker-only query's |
| Events.BeforeTransitive | src/cpc_events_information_circular_v1_parser.py:81 | `order=bulletin_date.asc` is transitive |
| Events.BeforeAsymmetric | src/cpc_events_information_circular_v1_parser.py:81 | and asymmetric |
| Events.BeforeIrreflexive | src/cpc_events_information_circular_v1_parser.py:81 | and irreflexive |
| Events.BeforeTotal | src/cpc_events_information_circular_v1_parser.py:81 | rows that neither precedes have the same bulletin date |
| Events.EarliestIn | src/cpc_events_information_circular_v1_parser.py:81-86 | among the first n rows, one satisfying the filter that no other satisfying row precedes, the first of its date |
| Events.EarliestLookup | src/cpc_events_information_circular_v1_parser.py:80-99 | an `order=bulletin_date.asc&limit=1` query finds an id exactly when some row satisfies the filter, and that row has the earliest bulletin date among those that do |
| Events.PhraseEnd | src/cpc_events_halt_parser_v1.py:175 | a match of `\s+`-separated words ends inside the text |
| Events.PhraseThenSpace | src/cpc_events_halt_parser_v1.py:175 | a key phrase followed by `\s+` ends before a non-space character or the end |
| Events.GroupText | src/cpc_events_halt_parser_v1.py:181 | a captured group after `clean_space` is non-empty and has single spaces |
| Events.EventDate | src/cpc_events_halt_parser_v1.py:29-38 | `normalize_date`: none for a missing or empty text; otherwise a date exactly when one of the three formats reads the cleaned text, written as yyyy-mm-dd |
| Events.NormalizeEventDate | src/cpc_events_halt_parser_v1.py:29-38 | the `for fmt in ...` loop with its `try/except` computes `EventDate` |
| Events.NoNameAtDigit | src/cpc_events_halt_parser_v1.py:33 | a text starting with a digit has no month name at its start |
| Events.NoNameFormatAtDigit | src/cpc_events_halt_parser_v1.py:33 | neither month-name format reads a text starting with a digit |
| Events.IsoWsClean | src/cpc_events_halt_parser_v1.py:35 | a yyyy-mm-dd text has no spaces to clean |
| Events.EventDateOfIso | src/cpc_events_halt_parser_v1.py:29-38 | `normalize_date` of a valid yyyy-mm-dd date gives it back |
| Events.NamedDateClean | src/cpc_events_halt_parser_v1.py:32 | a month-name date text is already clean, so `clean_space` keeps it |
| Events.EventDateReadsBack | src/cpc_events_halt_parser_v1.py:29-38 | `normalize_date` of "<Month> <d>, <yyyy>", with the name or abbreviation in any case, is that date's yyyy-mm-dd text |
| Halt.HaltBirthId | src/cpc_events_halt_parser_v1.py:69-98 | an empty cleaned ticker finds nothing; a found id belongs to a birth row whose ticker is the cleaned, upper-cased ticker |
| Halt.TimeGroup | src/cpc_events_halt_parser_v1.py:175 | the lazy `(.+?)` time group ends at the first place where ", <Month d, yyyy>" can follow |
| Halt.DateGroup | src/cpc_events_halt_parser_v1.py:175 | the date group follows the time and starts with a letter |
| Halt.HaltMatchAt | src/cpc_events_halt_parser_v1.py:174-178 | a match at a position has an ordered time group and a date group that starts with a letter |
| Halt.HaltMatch | src/cpc_events_halt_parser_v1.py:174-178 | `re.search`: a match exactly when some position matches, and it is the leftmost one |
| Halt.HaltEffective | src/cpc_events_halt_parser_v1.py:174-182 | no match gives three nones; a match gives the cleaned time group, the cleaned date group (non-empty) and the text "<time>, <date>"; "Effective at <t>, <Month d, yyyy>" reads back exactly (see `HaltReadsBack`) |
| Halt.TimeGroupFirstComma | src/cpc_events_halt_parser_v1.py:175 | the lazy time group stops at the first comma after which ", <Month d, yyyy>" follows to the end |
| Halt.HaltMatchLaid | src/cpc_events_halt_parser_v1.py:174-178 | "Effective at <t>, <date>" with a comma-free time and a month-name date matches at 0 with the time and date groups in place |
| Halt.HaltEffectiveLaid | src/cpc_events_halt_parser_v1.py:174-182 | for such a text, the time is the cleaned time group and the date is the date group |
| Halt.HaltReadsBack | src/cpc_events_halt_parser_v1.py:174-182 | "Effective at <t>, <Month d, yyyy>" gives the cleaned t, the date text and "<t>, <date>", and the date normalizes to that date |
| Halt.HaltSummary | src/cpc_events_halt_parser_v1.py:186-188 | the "at the request of the Company" summary exactly when that phrase occurs, the plain summary otherwise |
| Halt.ParseEventHalt | src/cpc_events_halt_parser_v1.py:152-204 | no event unless the type contains "HALT" and a birth id is found; raises exactly when the key is missing; a row links the birth row with the cleaned ticker and carries the key, the cleaned canonical type as event type, bulletin date, body, version, the effective time/text, the summary, and the normalized date or else the bulletin date |
| Halt.HaltTypeGiven | src/cpc_events_halt_parser_v1.py:193 | a halt record has a non-empty canonical type, so the "HALT" fallback never applies |
| Halt.HaltOutcomes | src/cpc_events_halt_parser_v1.py:218-234 | the outcome of each record in the batch, in order |
| Halt.HaltBatch | src/cpc_events_halt_parser_v1.py:218-234 | the loop collects exactly the rows, and the per-record flags, of the outcomes |
| Halt.HaltMain | src/cpc_events_halt_parser_v1.py:206-242 | the rows and done ids of the batch; records that gave a row end "done" with the run's timestamp, other claimed records end "error" with their old timestamp, unclaimed records are unchanged |
| Halt.IsHalt | src/cpc_events_halt_parser_v1.py:157-158 | the `"HALT" in ctype` test: a halt record has a canonical type of at least four characters |
| Resume.ResumeBirthIdSound | src/cpc_events_resume_trading_parser_v1.py:66-104 | an id is found exactly when some birth row has the cleaned ticker (exactly or ignoring case) or a company name like the cleaned company, and it is that row's id |
| Resume.CompanyTickerNeverDecides | src/cpc_events_resume_trading_parser_v1.py:88-94 | the "company and ticker" query never decides: the result is exact ticker, else ticker ignoring case, else company ignoring case |
| Resume.WeekdayTail | src/cpc_events_resume_trading_parser_v1.py:176 | the weekday group is letters and the date group starts with a letter |
| Resume.WeekdayMatchAt | src/cpc_events_resume_trading_parser_v1.py:175-179 | a match at a position has an all-letter weekday group and a date group starting with a letter |
| Resume.WeekdayMatch | src/cpc_events_resume_trading_parser_v1.py:175-179 | `re.search` with the weekday: a match exactly when some position matches, the leftmost |
| Resume.DateOnlyMatchAt | src/cpc_events_resume_trading_parser_v1.py:187-191 | a match at a position has a date group starting with a letter |
| Resume.DateOnlyMatch | src/cpc_events_resume_trading_parser_v1.py:187-191 | `re.search` without the weekday: a match exactly when some position matches, the leftmost |
| Resume.LettersClean | src/cpc_events_resume_trading_parser_v1.py:181 | `clean_space` leaves a run of letters unchanged |
| Resume.ResumeEffective | src/cpc_events_resume_trading_parser_v1.py:171-195 | time "opening" exactly when either pattern matches; the date is the cleaned date group of the weekday match, else of the date-only match, non-empty; the text is "opening <weekday>, <date>" from the first pattern, else "opening <date>"; with neither match all three stay none |
| Resume.ParseEventResume | src/cpc_events_resume_trading_parser_v1.py:157-213 | no event unless the type contains "RESUME TRADING" and a birth id is found; raises exactly when the key is missing; a row carries the id, key, fixed type and summary, body, version, the effective time and text of `ResumeEffective` (none when no pattern matches) and the normalized date or else the bulletin date |
| Resume.ResumeOutcomes | src/cpc_events_resume_trading_parser_v1.py:228-244 | the outcome of each record in the batch, in order |
| Resume.ResumeBatch | src/cpc_events_resume_trading_parser_v1.py:228-244 | the loop collects exactly the rows, and the per-record flags, of the outcomes |
| Resume.ResumeMain | src/cpc_events_resume_trading_parser_v1.py:216-252 | the rows and done ids of the batch; "done" with the timestamp for records that gave a row, "error" for the other claimed records, others unchanged |
| Resume.ResumeBirthId | src/cpc_events_resume_trading_parser_v1.py:66-104 | no ticker and no company find nothing; a found id is the id of a birth row (which row: `ResumeBirthIdSound`) |
| Resume.IsResume | src/cpc_events_resume_trading_parser_v1.py:158-159 | the `"RESUME TRADING" in ctype` test: such a record has a canonical type of at least fourteen characters |
| Filing.Profile | src/cpc_filing_statement_parser_v1.py:19 | the profile is the stripped environment value when that is set and not blank, and "cpc_filing_statement_v1" otherwise; never empty |
| Filing.DropCR | src/cpc_filing_statement_parser_v1.py:56 | `replace("\r", "")` leaves no carriage return and adds no character |
| Filing.DatedMatchAt | src/cpc_filing_statement_parser_v1.py:23 | a match is a word-bounded "dated", a month word, one or two digits, a comma and four digits ending at a word boundary |
| Filing.DatedTail | src/cpc_filing_statement_parser_v1.py:23 | the day has one or two digits and the year four, ending at a word boundary |
| Filing.DatedMatch | src/cpc_filing_statement_parser_v1.py:56 | `RE_DATED.search`: a match exactly when some position matches, the leftmost |
| Filing.MonthNumber | src/cpc_filing_statement_parser_v1.py:25-38 | `MONTHS.get`: a month number 1-12 exactly for the twelve lower-case English month names |
| Filing.MonthIndex | src/cpc_filing_statement_parser_v1.py:25-38 | the position of a name in the month list, or none when it is not there |
| Filing.DatedParts | src/cpc_filing_statement_parser_v1.py:55-67 | the year is below 10000 and the day below 100 |
| Filing.NumberAt | src/cpc_filing_statement_parser_v1.py:64-65 | `int` of at most two digits is below 100, of at most four below 10000 |
| Filing.DigitsBound3 | src/cpc_filing_statement_parser_v1.py:65 | three digits read below 10000 |
| Filing.TwoDigitsBound | src/cpc_filing_statement_parser_v1.py:64 | two digits read below 100 |
| Filing.FourDigitsBound | src/cpc_filing_statement_parser_v1.py:65 | four digits read below 10000 |
| Filing.ParseDated | src/cpc_filing_statement_parser_v1.py:55-68 | a date exactly when the pattern matches and the month word is a month name; it is shaped yyyy-mm-dd, with no check that the day exists |
| Filing.ParseDatedReadsBack | src/cpc_filing_statement_parser_v1.py:68 | for a day that exists, the text is its ISO form and reads back as that date |
| Filing.ShapedFormat | src/cpc_filing_statement_parser_v1.py:68 | `{yy:04d}-{mm:02d}-{dd:02d}` of numbers in range is yyyy-mm-dd shaped |
| Filing.FilingBirthId | src/cpc_filing_statement_parser_v1.py:91-120 | an empty cleaned ticker finds nothing; a found id belongs to a birth row with the cleaned, upper-cased ticker |
| Filing.DefaultTypeClean | src/cpc_filing_statement_parser_v1.py:139 | the default type needs no cleaning |
| Filing.EventTypeShape | src/cpc_filing_statement_parser_v1.py:139 | the event type is clean; the default when the canonical type is missing or empty, the cleaned canonical type otherwise |
| Filing.BuildEventRow | src/cpc_filing_statement_parser_v1.py:122-149 | never raises; a row exactly when the body has a "dated" date; the row carries the looked-up birth id (possibly none), key, the cleaned canonical type (or the default when it is missing or empty), bulletin date, the parsed date, no time or text, the fixed summary, body and profile |
| Filing.StatusPayload | src/cpc_filing_statement_parser_v1.py:164-175 | the payload sets the status; sets the timestamp when asked; else clears it for "ready" and "running" and leaves it otherwise |
| Filing.FilingOutcomes | src/cpc_filing_statement_parser_v1.py:206-221 | the outcome of each record in the batch, in order |
| Filing.FilingBatch | src/cpc_filing_statement_parser_v1.py:206-221 | the loop collects exactly the rows, and the per-record flags, of the outcomes |
| Filing.FilingMain | src/cpc_filing_statement_parser_v1.py:193-229 | the rows and done ids; "done" with the timestamp for records that gave a row, "error" with the timestamp cleared for the other claimed records, others unchanged |
| Circular.LongDate | src/cpc_events_information_circular_v1_parser.py:47-58 | none for a blank text; otherwise a yyyy-mm-dd date exactly when one of the two month-name formats reads the stripped, space-collapsed text; a "<Month> <d>, <yyyy>" text reads back as that date (see `LongDateReadsBack`) |
| Circular.ParseLongDate | src/cpc_events_information_circular_v1_parser.py:47-58 | the format loop with its `try/except` computes `LongDate` |
| Circular.LongDateReadsBack | src/cpc_events_information_circular_v1_parser.py:47-58 | `_parse_long_date` of "<Month> <d>, <yyyy>", with the name or abbreviation in any case, is that date's ISO text |
| Circular.CircDateEnd | src/cpc_events_information_circular_v1_parser.py:113 | the date group is a three-to-nine-letter word followed by a day and a year, ending in a digit |
| Circular.CircDateMatchAt | src/cpc_events_information_circular_v1_parser.py:112-116 | a match's date group starts with a letter and ends with a digit |
| Circular.CircDateMatch | src/cpc_events_information_circular_v1_parser.py:112-116 | `re.search`: a match exactly when some position matches, the leftmost |
| Circular.PurposeGroup | src/cpc_events_information_circular_v1_parser.py:120 | the lazy `(.+?)` group starts right after the phrase and stops at the first ". " or the end |
| Circular.PurposeMatchAt | src/cpc_events_information_circular_v1_parser.py:119-123 | a match's group lies inside the text |
| Circular.PurposeMatch | src/cpc_events_information_circular_v1_parser.py:119-123 | `re.search`: a match exactly when some position matches, the leftmost |
| Circular.PurposeAlwaysStops | src/cpc_events_information_circular_v1_parser.py:120 | since `$` always matches, the phrase with a character after it always gives a match |
| Circular.RStripChar | src/cpc_events_information_circular_v1_parser.py:126 | `rstrip(".")` removes exactly the trailing dots |
| Circular.Purpose | src/cpc_events_information_circular_v1_parser.py:119-126 | no match gives none; otherwise the first match's group with whitespace runs collapsed, stripped and trailing dots removed, none when that is empty; a purpose is non-empty, single-spaced, not ending in "." and not starting with a space |
| Circular.PrefixKeepsSpacing | src/cpc_events_information_circular_v1_parser.py:126 | a prefix of a cleaned text is still single-spaced |
| Circular.ParseInformationCircular | src/cpc_events_information_circular_v1_parser.py:104-128 | a date only when the circular-dated pattern matches, and then it is `LongDate` of the first match's date group, shaped yyyy-mm-dd; the purpose as above; "CPC Information Circular dated <Month d, yyyy>" gives that date (see `CircularReadsBack`) |
| Circular.CircDateEndNamed | src/cpc_events_information_circular_v1_parser.py:113 | the `[A-Za-z]{3,9}\s+\d{1,2},\s+\d{4}` group matches a month-name date text to its end |
| Circular.CircDateMatchLaid | src/cpc_events_information_circular_v1_parser.py:112-116 | "CPC Information Circular dated " followed by such a date matches at 0, with the date group running to the end |
| Circular.CircularDateLaid | src/cpc_events_information_circular_v1_parser.py:112-117 | for such a text the circular date is `_parse_long_date` of the group |
| Circular.CircularReadsBack | src/cpc_events_information_circular_v1_parser.py:112-117 | "CPC Information Circular dated <Month> <d>, <yyyy>" gives that date's ISO text |
| Circular.CircularBirthId | src/cpc_events_information_circular_v1_parser.py:75-101 | an id exactly when some birth row has the stripped ticker or a company name containing the stripped company (ignoring case), and it is such a row's id |
| Circular.CircularTickerEarliest | src/cpc_events_information_circular_v1_parser.py:80-86 | when some row has the ticker, the id is of a ticker row with the earliest bulletin date |
| Circular.FetchBulletin | src/cpc_events_information_circular_v1_parser.py:61-72 | a bulletin exactly when the view has a row with the key, and it is such a row |
| Circular.EventRowOf | src/cpc_events_information_circular_v1_parser.py:159-175 | given the parsed date and purpose: the id, key, fixed type, bulletin date, the date or else the bulletin date, no time, the purpose, the summary naming the date when there is one, the body and the profile |
| Circular.CircularMain | src/cpc_events_information_circular_v1_parser.py:138-177 | never "no event"; raises exactly when the key is missing or empty, the bulletin is missing, the body is blank or no birth id is found; otherwise the row above |
| Status.Patched | src/cpc_filing_statement_parser_v1.py:171-175 | a PATCH sets the status and keeps, clears or sets `parser_parsed_at` as the payload says |
| Status.PatchedLaws | src/cpc_filing_statement_parser_v1.py:177-181 | repeating a patch changes nothing more; a patch that keeps the timestamp is overridden by the next |
| Status.PresentIds | src/cpc_events_halt_parser_v1.py:212 | `ids_all`: exactly the ids of records that have one |
| Status.DoneIds | src/cpc_events_halt_parser_v1.py:224-225 | `ids_done`: exactly the ids of records that gave a row |
| Status.DoneIdsSnoc | src/cpc_events_halt_parser_v1.py:224-225 | one more record appends its id when it has one and gave a row |
| Status.Board.constructor | src/cpc_filing_statement_parser_v1.py:165 | the table starts with the given entries |
| Status.Board.Patch | src/cpc_filing_statement_parser_v1.py:177-181 | updates the record with that id when there is one and nothing else |
| Status.Board.PatchAll | src/cpc_filing_statement_parser_v1.py:177-181 | updates every listed record present in the table and nothing else |
| Status.Board.RunBatch | src/cpc_events_halt_parser_v1.py:214-242 | records that gave a row end as running then done; other claimed records as running then error; the rest unchanged; returns the done ids |
| Status.Board.MarkFailures | src/cpc_events_halt_parser_v1.py:218-234 | in the loop, each record without a row is marked "error"; returns the done ids |
| Status.FailedSomeSnoc | src/cpc_events_halt_parser_v1.py:226-234 | one more record adds its id to the failed ones exactly when it has an id and gave no row |
| Notices.LowerBound | src/app/datamining/bulletins/notices/page.tsx:49-57 | on sorted dates, the index that splits the dates below x from those at or above it |
| Notices.UpperBound | src/app/datamining/bulletins/notices/page.tsx:59-67 | on sorted dates, the index that splits the dates at or below x from those above it |
| Notices.BelowAt | src/app/datamining/bulletins/notices/page.tsx:49-57 | a date lies before the lower bound exactly when it is below x |
| Notices.AboveAt | src/app/datamining/bulletins/notices/page.tsx:59-67 | a date lies before the upper bound exactly when it is at most x |
| Notices.SplitsBelowUnique | src/app/datamining/bulletins/notices/page.tsx:49-57 | the lower bound is the only index with that split |
| Notices.SplitsAboveUnique | src/app/datamining/bulletins/notices/page.tsx:59-67 | the upper bound is the only index with that split |
| Notices.BoundsOrdered | src/app/datamining/bulletins/notices/page.tsx:147-149 | the lower bound of x is at most its upper bound, and every date between them equals x |
| Notices.Dates | src/app/datamining/bulletins/notices/page.tsx:144 | the dates of the rows, in order |
| Notices.EffectiveCompanies | src/app/datamining/bulletins/notices/page.tsx:133-140 | "__ALL__" selects every non-empty company of the rows; otherwise the selection itself |
| Notices.BaseRows | src/app/datamining/bulletins/notices/page.tsx:142-153 | the rows whose date lies in the window (defaulting to the first and last dates) and, when companies are selected, whose company is one of them, in order |
| Notices.Filtered | src/app/datamining/bulletins/notices/page.tsx:155-159 | no selected type keeps all base rows; otherwise exactly the base rows whose type is selected |
| Notices.AllCompaniesDropsBlank | src/app/datamining/bulletins/notices/page.tsx:139-152 | with "__ALL__", a row without a company is dropped |
| Notices.AllCompaniesKeepsNamed | src/app/datamining/bulletins/notices/page.tsx:139-152 | with "__ALL__", a row with a company and a date in the window is kept |
| Notices.InBase | src/app/datamining/bulletins/notices/page.tsx:142-153 | a kept row always lies in the date window; with no company selected exactly the rows in the window are kept |
| Glossary.SplitDots | src/app/jrpedia/page.tsx:22 | `split(/\./)` gives at least one piece and no piece has a dot |
| Glossary.SplitDotsJoin | src/app/jrpedia/page.tsx:22 | joining the pieces with dots gives the path back |
| Glossary.SplitNoDot | src/app/jrpedia/page.tsx:22 | a text without dots is one piece |
| Glossary.SplitAtDot | src/app/jrpedia/page.tsx:22 | a dot splits off the piece before it |
| Glossary.Trimmed | src/app/jrpedia/page.tsx:23 | each piece trimmed, in order |
| Glossary.Segments | src/app/jrpedia/page.tsx:25-28 | each piece as a number when it reads as one, else as text |
| Glossary.ParsePathSegments | src/app/jrpedia/page.tsx:20-29 | no more segments than pieces |
| Glossary.KeptShape | src/app/jrpedia/page.tsx:22-24 | every trimmed, non-empty piece of dot-free pieces is non-empty, dot-free and has no space at its ends |
| Glossary.SegmentShape | src/app/jrpedia/page.tsx:20-29 | a text segment is non-empty, dot-free and trimmed |
| Glossary.SmallNumerals | src/app/jrpedia/page.tsx:26 | "1", "2" and "10" read as 1, 2 and 10 |
| Glossary.EmptyPieceDropped | src/app/jrpedia/page.tsx:20-29 | between two digit pieces an empty piece is dropped: "a..b" gives exactly the two numbers |
| Glossary.DoubleDotDropsEmpty | src/app/jrpedia/page.tsx:20-29 | "1..2" gives the segments 1 and 2: the empty piece is dropped |
| Glossary.TwoNumbers | src/app/jrpedia/page.tsx:20-29 | "a.b" with digit pieces gives two numbers |
| Glossary.TwoPieces | src/app/jrpedia/page.tsx:22 | "a.b" with digit pieces splits into a and b |
| Glossary.CleanPieces | src/app/jrpedia/page.tsx:23 | digit pieces need no trimming |
| Glossary.Kept | src/app/jrpedia/page.tsx:24-28 | non-empty digit pieces become their numbers |
| Glossary.OneSegment | src/app/jrpedia/page.tsx:20-29 | a trimmed, dot-free, non-empty text is one segment |
| Glossary.PathOrder | src/app/jrpedia/page.tsx:31-34 | two missing paths are equal; a missing path sorts after a present one |
| Glossary.OrderStep | src/app/jrpedia/page.tsx:40-55 | each step: differing numbers decide by difference, differing texts by lower-case order, equal segments go on |
| Glossary.ComparePaths | src/app/jrpedia/page.tsx:31-58 | the `for` loop with its early returns computes `PathOrder` |
| Glossary.PrefixFirst | src/app/jrpedia/page.tsx:44 | a proper prefix sorts first |
| Glossary.SegmentOrderReflexive | src/app/jrpedia/page.tsx:57 | a path equals itself |
| Glossary.SegmentOrderAntisymmetric | src/app/jrpedia/page.tsx:40-57 | swapping the segment lists flips the sign |
| Glossary.PathOrderAntisymmetric | src/app/jrpedia/page.tsx:31-58 | swapping the paths flips the sign |
| Glossary.NumericSegments | src/app/jrpedia/page.tsx:47-48 | "a.b" sorts before "a.c" when b < c as numbers |
| Glossary.PairOrder | src/app/jrpedia/page.tsx:47-48 | numeric second segments decide |
| Glossary.TwoBeforeTen | src/app/jrpedia/page.tsx:47-48 | "1.2" sorts before "1.10" |
| Glossary.SingleTextOrder | src/app/jrpedia/page.tsx:52-54 | single segments, not both numbers, sort by their lower-case text |
| Glossary.CycleTexts | src/app/jrpedia/page.tsx:52-54 | "10" < "1a" < "2" as texts |
| Glossary.PathOrderNotTransitive | src/app/jrpedia/page.tsx:31-58 | "2" < "10", "10" < "1a" and "1a" < "2": the comparator is not a total order |
| Glossary.PathIndex | src/app/jrpedia/page.tsx:61-71 | `nodesByPath`: each truthy path maps to the LAST row carrying it |
| Glossary.KeyOrder | src/app/jrpedia/page.tsx:75 | the map's keys in first-insertion order, each once |
| Glossary.Nodes | src/app/jrpedia/page.tsx:75 | the map's nodes in key order |
| Glossary.Loose | src/app/jrpedia/page.tsx:62-70 | `looseNodes`: exactly the rows without a truthy path |
| Glossary.IndexPaths | src/app/jrpedia/page.tsx:61-71 | the `forEach` loop computes the map, its key order and the loose nodes |
| Glossary.ChildrenAfter | src/app/jrpedia/page.tsx:75-82 | after attaching some nodes, each parent's children are those of them that name it |
| Glossary.AttachChild | src/app/jrpedia/page.tsx:77-78 | attaching a node to its parent appends it to that parent's children only |
| Glossary.AttachRoot | src/app/jrpedia/page.tsx:79-80 | a node whose parent path is missing or unknown is appended to the roots |
| Glossary.AttachAll | src/app/jrpedia/page.tsx:75-82 | the second `forEach` loop computes the roots (the loose nodes, then the unattached ones in key order) and every node's children |
| Glossary.BuildTree | src/app/jrpedia/page.tsx:60-82 | the roots are the loose rows then the unattached nodes; each row's children are the nodes whose parent path names it, in key order |
| Glossary.LooseRowIsRoot | src/app/jrpedia/page.tsx:66-73 | a row without a path is a root |
| Glossary.PathRowPlacement | src/app/jrpedia/page.tsx:75-82 | a mapped node is under its parent when the parent path is known, else a root |
| Glossary.RepeatedPathDropped | src/app/jrpedia/page.tsx:67 | a row whose path a later row repeats appears nowhere in the tree |
| Glossary.SelfParentIsOwnChild | src/app/jrpedia/page.tsx:77-78 | a row whose parent path is its own path becomes its own child, so it is reachable from no root |
| Glossary.SiblingOrder | src/app/jrpedia/page.tsx:90-100 | below level 2 a path difference decides; from level 2 on only the lower-case terms |
| Glossary.SiblingOrderAntisymmetric | src/app/jrpedia/page.tsx:90-100 | swapping two siblings flips the sign |
| Glossary.DeepLevelsIgnorePaths | src/app/jrpedia/page.tsx:92-100 | from level 2 on, terms equal ignoring case compare equal whatever their paths |
| Glossary.AnyTokenHas | src/app/jrpedia/page.tsx:184-185 | true exactly when some non-empty token contains the query, ignoring case |
| Glossary.FilteredEntries | src/app/jrpedia/page.tsx:172-188 | an empty query keeps everything; otherwise exactly the entries with a token containing the query |
| Glossary.SegmentOrder | src/app/jrpedia/page.tsx:40-57 | equal segment lists compare 0; once one list runs out it sorts first: the empty list before a non-empty one, a non-empty one after the empty list (sign flip: `SegmentOrderAntisymmetric`) |
| Glossary.TermOrder | src/app/jrpedia/page.tsx:97-100 | -1, 0 or 1, and 0 exactly when the terms are equal ignoring case |
| Glossary.Tokens | src/app/jrpedia/page.tsx:177-184 | five tokens plus the tags, containing the term, every present translation and path, and every tag |
| Lifecycle.DropPoolSuffix | src/app/datamining/lifecycle/cpc/page.tsx:75 | `.replace(/\.P$/, "")` removes one trailing ".P" and nothing else |
| Lifecycle.NormalizeTicker | src/app/datamining/lifecycle/cpc/page.tsx:74-76 | a missing ticker gives ""; otherwise the trimmed, upper-cased ticker less one trailing ".P", with no lower-case letter left |
| Lifecycle.UpperConcat | src/app/datamining/lifecycle/cpc/page.tsx:75 | upper-casing distributes over concatenation |
| Lifecycle.NormalizeClean | src/app/datamining/lifecycle/cpc/page.tsx:74-76 | for a trimmed ticker, normalizing is upper-casing then dropping the suffix |
| Lifecycle.SuffixUpper | src/app/datamining/lifecycle/cpc/page.tsx:75 | ".p" upper-cases to ".P" |
| Lifecycle.SuffixDropped | src/app/datamining/lifecycle/cpc/page.tsx:74-76 | "X.P" and "X.p" both normalize to the upper-cased X |
| Lifecycle.PoolSuffixIgnored | src/app/datamining/lifecycle/cpc/page.tsx:74-76 | "X", "X.P" and "X.p" normalize to the same root |
| Lifecycle.OneSuffixOnly | src/app/datamining/lifecycle/cpc/page.tsx:75 | only one ".P" is removed: "X.P.P" gives "X.P" |
| Lifecycle.KeyCompanyShape | src/app/datamining/lifecycle/cpc/page.tsx:274 | `k.split("\|")[0]` is the pipe-free prefix of the key up to its first pipe |
| Lifecycle.KeyCompanyPrefix | src/app/datamining/lifecycle/cpc/page.tsx:274 | the company part of "a\|b" is a when a has no pipe |
| Lifecycle.Chunk | src/app/datamining/lifecycle/cpc/page.tsx:111-115 | the loop computes `Chunks` |
| Lifecycle.ChunksFlatten | src/app/datamining/lifecycle/cpc/page.tsx:111-115 | the chunks concatenated give the input back |
| Lifecycle.ChunksSizes | src/app/datamining/lifecycle/cpc/page.tsx:111-115 | every chunk is non-empty and at most `size` long, and all but the last are exactly `size` |
| Lifecycle.AnchorMap | src/app/datamining/lifecycle/cpc/page.tsx:219-226 | every anchor date is non-empty |
| Lifecycle.AnchorCompanies | src/app/datamining/lifecycle/cpc/page.tsx:226 | every anchor company is non-empty |
| Lifecycle.BuildAnchors | src/app/datamining/lifecycle/cpc/page.tsx:217-227 | the loop computes the anchor map and the set of anchor companies |
| Lifecycle.AnchorFromRow | src/app/datamining/lifecycle/cpc/page.tsx:219-225 | each anchor is the date of a dated CPC row with that key |
| Lifecycle.AnchorBelowRow | src/app/datamining/lifecycle/cpc/page.tsx:219-225 | every dated CPC row has an anchor for its key, no later than its own date |
| Lifecycle.NotBelowTransitive | src/app/datamining/lifecycle/cpc/page.tsx:225 | order step used by the anchor proofs |
| Lifecycle.AnchorCompaniesAre | src/app/datamining/lifecycle/cpc/page.tsx:219-226 | the anchor companies are exactly the non-empty companies of dated CPC rows |
| Lifecycle.ReduceMin | src/app/datamining/lifecycle/cpc/page.tsx:128 | the reduction returns one of its inputs |
| Lifecycle.ReduceMax | src/app/datamining/lifecycle/cpc/page.tsx:129 | the reduction returns one of its inputs |
| Lifecycle.ReduceMinIsLeast | src/app/datamining/lifecycle/cpc/page.tsx:128 | no input is below the result |
| Lifecycle.ReduceMaxIsGreatest | src/app/datamining/lifecycle/cpc/page.tsx:129 | no input is above the result |
| Lifecycle.NotBelowByOrder | src/app/datamining/lifecycle/cpc/page.tsx:128 | order step used by the reduction proofs |
| Lifecycle.NotAboveByOrder | src/app/datamining/lifecycle/cpc/page.tsx:129 | order step used by the reduction proofs |
| Lifecycle.AnchorRange | src/app/datamining/lifecycle/cpc/page.tsx:125-131 | none exactly when no date is non-empty; otherwise a least and a greatest non-empty date, both taken from the dates |
| Lifecycle.AnchorRangeBounds | src/app/datamining/lifecycle/cpc/page.tsx:125-131 | every non-empty date lies between the range's min and max |
| Lifecycle.AnchorRangeOrderFree | src/app/datamining/lifecycle/cpc/page.tsx:125-131 | the range does not depend on the map's iteration order |
| Lifecycle.MinStepKeeps | src/app/datamining/lifecycle/cpc/page.tsx:273-278 | one loop step keeps "least date per company" over the keys seen so far |
| Lifecycle.CompaniesOfAdd | src/app/datamining/lifecycle/cpc/page.tsx:274 | one more key adds its company |
| Lifecycle.MinStepKeys | src/app/datamining/lifecycle/cpc/page.tsx:276-277 | a step adds the key's company and keeps dates non-empty |
| Lifecycle.MinStepLeast | src/app/datamining/lifecycle/cpc/page.tsx:276-277 | after a step, no seen key's date is below its company's minimum |
| Lifecycle.MinStepAttained | src/app/datamining/lifecycle/cpc/page.tsx:276-277 | after a step, each company's minimum is the date of one of its keys |
| Lifecycle.ComputeMinAnchorByCompany | src/app/datamining/lifecycle/cpc/page.tsx:271-280 | each company of the anchor keys maps to the least anchor date among its keys, attained by one of them |
| Lifecycle.ChunkMin | src/app/datamining/lifecycle/cpc/page.tsx:293-298 | the loop computes `ChunkMinOf`: at most "9999-12-31" and the entry of every chunk company that has one, and equal to that bound or one of those entries; a company without an entry is skipped |
| Lifecycle.ChunkMinIsLeast | src/app/datamining/lifecycle/cpc/page.tsx:293-298 | the chunk minimum is at or below "9999-12-31" and every entry of the chunk's companies |
| Lifecycle.ChunkMinAttained | src/app/datamining/lifecycle/cpc/page.tsx:293-298 | the chunk minimum is "9999-12-31" or the entry of one of the chunk's companies |
| Lifecycle.KeyCompanyTrimmed | src/app/datamining/lifecycle/cpc/page.tsx:84-86 | the company part of a key never starts with whitespace |
| Lifecycle.UntrimmedCompanySkipped | src/app/datamining/lifecycle/cpc/page.tsx:228 | a collected company with leading whitespace has no per-company entry, though its key has an anchor, so its chunk queries from "9999-12-31" |
| Lifecycle.KeyCompanyBarFree | src/app/datamining/lifecycle/cpc/page.tsx:274 | the company part of a key does not depend on the ticker |
| Lifecycle.NotBelowChain | src/app/datamining/lifecycle/cpc/page.tsx:296 | order step used by the chunk proofs |
| Lifecycle.AnchorUnderPart | src/app/datamining/lifecycle/cpc/page.tsx:217-280 | an anchor row's key has an anchor at or below the row's date and at or above its company part's entry |
| Lifecycle.ChunkMinKeyedBelow | src/app/datamining/lifecycle/cpc/page.tsx:293-298 | looked up by company part, the chunk minimum is at or below every entry of the chunk's companies |
| Lifecycle.ChunkMinKeyedCovers | src/app/datamining/lifecycle/cpc/page.tsx:217-298 | looked up by company part, every anchor company has an entry and the chunk minimum is at or below the anchor and date of each of its anchor rows |
| Lifecycle.AppendAfterAnchor | src/app/datamining/lifecycle/cpc/page.tsx:308-314 | the loop appends exactly the rows whose key has an anchor and whose date is not before it, in order |
| Lifecycle.AppendStep | src/app/datamining/lifecycle/cpc/page.tsx:308-314 | one row is appended exactly when its key is anchored and its date is not before the anchor |
| Lifecycle.CpcRowsSurvive | src/app/datamining/lifecycle/cpc/page.tsx:217-314 | a dated CPC row passes the anchor filter built from the same rows |
| Lifecycle.EarlierRowsDropped | src/app/datamining/lifecycle/cpc/page.tsx:310-312 | a row with no anchor or dated before its anchor is dropped |
| Lifecycle.WithBodyTextFilled | src/app/datamining/lifecycle/cpc/page.tsx:78-83 | only the body text changes; rows with a body or without a key are untouched; the others get the mapped text or "" |
| Lifecycle.WithBodyTextFilledIdempotent | src/app/datamining/lifecycle/cpc/page.tsx:78-83 | filling twice is filling once |
| Lifecycle.FilledRowsHaveText | src/app/datamining/lifecycle/cpc/page.tsx:78-83 | a keyed row ends with a body when it had one or the map has a non-empty text for its key |
| Lifecycle.KeyCT | src/app/datamining/lifecycle/cpc/page.tsx:84-86 | for a company without a pipe, the company part of the key (`split("\|")[0]`) is the trimmed company |
| Lifecycle.Chunks | src/app/datamining/lifecycle/cpc/page.tsx:111-115 | every chunk is non-empty and at most `size` long, and a non-empty input gives at least one chunk (contents: `ChunksFlatten`, `ChunksSizes`) |
| TermView.ReplaceChar | src/app/jrpedia/components/TermView.tsx:16 | a `/c/g` replacement leaves a text without c unchanged |
| TermView.ReplaceCharConcat | src/app/jrpedia/components/TermView.tsx:16-20 | a global replacement distributes over concatenation |
| TermView.ReplaceCharOne | src/app/jrpedia/components/TermView.tsx:16-20 | on one character it replaces exactly that character |
| TermView.EscapeChar | src/app/jrpedia/components/TermView.tsx:14-21 | a special character becomes an entity starting with "&"; any other stays as it is |
| TermView.EscapeEachSafe | src/app/jrpedia/components/TermView.tsx:14-21 | the per-character escape has no `< > " '` and leaves plain text alone |
| TermView.EscapeHtmlConcat | src/app/jrpedia/components/TermView.tsx:14-21 | `escapeHtml` distributes over concatenation |
| TermView.LaterKeep | src/app/jrpedia/components/TermView.tsx:17-20 | the later four replacements leave an already escaped text alone |
| TermView.EscapeAmp | src/app/jrpedia/components/TermView.tsx:16 | "&" becomes "&amp;" |
| TermView.EscapeLt | src/app/jrpedia/components/TermView.tsx:17 | "<" becomes "&lt;" |
| TermView.EscapeGt | src/app/jrpedia/components/TermView.tsx:18 | ">" becomes "&gt;" |
| TermView.EscapeQuot | src/app/jrpedia/components/TermView.tsx:19 | a double quote becomes "&quot;" |
| TermView.EscapeApos | src/app/jrpedia/components/TermView.tsx:20 | an apostrophe becomes "&#39;" |
| TermView.EscapePlain | src/app/jrpedia/components/TermView.tsx:14-21 | any other character is kept |
| TermView.EscapeHtmlOne | src/app/jrpedia/components/TermView.tsx:14-21 | the chain on one character is its entity |
| TermView.EscapeHtmlIsEach | src/app/jrpedia/components/TermView.tsx:14-21 | the five chained global replacements escape each character independently (the "&" first, so no entity is escaped twice) |
| TermView.EscapeHtmlSafe | src/app/jrpedia/components/TermView.tsx:14-21 | the escaped text has no `< > " '`, and plain text is unchanged |
| TermView.NotAtBySecond | src/app/jrpedia/components/TermView.tsx:16-20 | helper: texts differing in their second character do not match |
| TermView.NotAtByFirst | src/app/jrpedia/components/TermView.tsx:16-20 | helper: texts differing in their first character do not match |
| TermView.AtPrefix | src/app/jrpedia/components/TermView.tsx:16-20 | helper: a text starts with its own prefix |
| TermView.UnescapeStep | src/app/jrpedia/components/TermView.tsx:16-20 | decoding an entity gives its character back |
| TermView.EscapeHtmlRoundTrip | src/app/jrpedia/components/TermView.tsx:14-21 | decoding the five entities undoes `escapeHtml` |
| TermView.EscapeEachRoundTrip | src/app/jrpedia/components/TermView.tsx:14-21 | decoding undoes the per-character escape |
| TermView.EscapeRegExp | src/app/jrpedia/components/TermView.tsx:23-25 | the escaped text is never shorter and plain text is unchanged |
| TermView.EscapeRegExpRoundTrip | src/app/jrpedia/components/TermView.tsx:23-25 | removing the backslashes gives the text back, so no information is lost |
| TermView.FirstMatch | src/app/jrpedia/components/TermView.tsx:55-57 | the leftmost position from a start where the pattern matches, ignoring case, not after "&" and between word boundaries |
| TermView.ReplaceFirstMeaning | src/app/jrpedia/components/TermView.tsx:55-59 | the text changes exactly when the pattern matches somewhere; then the leftmost match, with its own text, is wrapped in a `<mark>` of the class |
| TermView.MatchAtLower | src/app/jrpedia/components/TermView.tsx:55 | the "i" flag: patterns equal ignoring case match at the same places |
| TermView.MarkAt | src/app/jrpedia/components/TermView.tsx:58 | a text containing a `<mark>` element contains "<mark" |
| TermView.MarkFound | src/app/jrpedia/components/TermView.tsx:56-61 | a replacement that changed the text put "<mark" into it |
| TermView.NoMarkWithoutLt | src/app/jrpedia/components/TermView.tsx:82 | a text without "<" contains no "<mark" |
| TermView.MarkSplitsApostropheEntity | src/app/jrpedia/components/TermView.tsx:20-58 | the pattern "39" matches inside the "&#39;" entity of an apostrophe (the look-behind only checks the character before it), so the mark splits the entity |
| TermView.FirstChangeIsOne | src/app/jrpedia/components/TermView.tsx:46-68 | the result is the escaped text exactly when no pattern matches; otherwise it is the first matching pattern's replacement and no other pattern is applied |
| TermView.MissByLower | src/app/jrpedia/components/TermView.tsx:47-50 | a pattern whose lower-cased value was already tried does not match |
| TermView.MissAdded | src/app/jrpedia/components/TermView.tsx:51 | adding a pattern that did not match keeps the "seen patterns did not match" invariant |
| TermView.DedupeIrrelevant | src/app/jrpedia/components/TermView.tsx:44-68 | skipping case-insensitive repeats never changes the result |
| TermView.ApplyHighlight | src/app/jrpedia/components/TermView.tsx:39-71 | the loop with `continue` and `break` gives the escaped text with only the first matching pattern marked |
| TermView.MarkIffMatched | src/app/jrpedia/components/TermView.tsx:39-82 | the result contains "<mark" exactly when some pattern matches the escaped text |
| TermView.NoPatternsEscapes | src/app/jrpedia/components/TermView.tsx:85 | with no pattern the result is only escaped, with no mark |
| TermView.TagPatterns | src/app/jrpedia/components/TermView.tsx:75-78 | each tag becomes a green pattern, in order |
| TermView.PatternsShape | src/app/jrpedia/components/TermView.tsx:73-79 | every pattern has a non-blank value; a usable term comes first; every usable tag is included; a blank term leaves only tags |
| TermView.HighlightWithTags | src/app/jrpedia/components/TermView.tsx:27-89 | no term: both parts only escaped; the body is highlighted when present, else ""; the header is highlighted only when the body has no mark; never both parts marked |
| TermView.EscapeHtml | src/app/jrpedia/components/TermView.tsx:14-21 | the escaped text is never shorter than the input; its content is stated by `EscapeHtmlIsEach`, `EscapeHtmlSafe` and `EscapeHtmlRoundTrip` |
| ViewAll.Check | src/app/database/view/ViewAllData.tsx:110-114 | an empty filter passes; "is:null" passes exactly the falsy or blank values; otherwise a case-insensitive substring test |
| ViewAll.CheckNull | src/app/database/view/ViewAllData.tsx:110-114 | a null passes exactly the empty filter and "is:null" |
| ViewAll.CheckSelf | src/app/database/view/ViewAllData.tsx:110-114 | a value passes a filter equal to its own display |
| ViewAll.CheckIgnoresCase | src/app/database/view/ViewAllData.tsx:113 | filters equal ignoring case, other than "is:null", give the same answer |
| ViewAll.UpperIsNullIsSubstring | src/app/database/view/ViewAllData.tsx:112 | "IS:NULL" is a substring filter, so it rejects a null |
| ViewAll.Filtered | src/app/database/view/ViewAllData.tsx:116-130 | exactly the rows passing the five text checks and the date window |
| ViewAll.DateWindow | src/app/database/view/ViewAllData.tsx:124-127 | a row passes the date check exactly when it has a date within the set bounds, both inclusive |
| ViewAll.UndatedExcluded | src/app/database/view/ViewAllData.tsx:125-127 | a row without a date is never kept |
| ViewAll.NoFiltersKeepsDated | src/app/database/view/ViewAllData.tsx:116-130 | with no filter, exactly the dated rows are kept |
| ViewAll.CellLessTotal | src/app/database/view/ViewAllData.tsx:144-145 | the `<` on cells of one column is a strict total order |
| ViewAll.CompareAntisymmetric | src/app/database/view/ViewAllData.tsx:132-147 | on rows with values in the column, swapping flips the result, and 0 means equal values |
| ViewAll.CellLessTransitive | src/app/database/view/ViewAllData.tsx:144 | the `<` on cells is transitive |
| ViewAll.CompareTransitive | src/app/database/view/ViewAllData.tsx:132-147 | on rows with values in the column, the comparator is transitive |
| ViewAll.MissingLast | src/app/database/view/ViewAllData.tsx:142-143 | a missing value sorts last in both directions |
| ViewAll.MissingPairInconsistent | src/app/database/view/ViewAllData.tsx:142 | two missing values each claim to sort after the other |
| ViewAll.MissingDateFirst | src/app/database/view/ViewAllData.tsx:134-138 | a missing date sorts first ascending, as "" |
| ViewAll.HandleSort | src/app/database/view/ViewAllData.tsx:149-156 | the column becomes the clicked one; the same column flips the direction, a new one starts ascending |
| ViewAll.HandleSortTwice | src/app/database/view/ViewAllData.tsx:149-156 | clicking the same column twice restores the state |
| ViewAll.HandleSortReverses | src/app/database/view/ViewAllData.tsx:132-156 | clicking the sorted column reverses the comparator |
| ViewAll.ReplaceBreaks | src/app/database/view/ViewAllData.tsx:160 | no line break is left, the text never grows, and text without breaks is unchanged |
| ViewAll.SanitizeCell | src/app/database/view/ViewAllData.tsx:158-161 | a falsy text gives ""; the result has no line break; a text without breaks is unchanged |
| ViewAll.ReplaceBreaksKeepsText | src/app/database/view/ViewAllData.tsx:160 | the visible characters stay the same, in order |
| ViewAll.CrLfOneSpace | src/app/database/view/ViewAllData.tsx:160 | a CRLF pair becomes one space, not two |
| ViewAll.ReplaceBreaksPlain | src/app/database/view/ViewAllData.tsx:160 | a break-free prefix is kept |
| ViewAll.Compare | src/app/database/view/ViewAllData.tsx:132-147 | the result is -1, 0 or 1; no sort column gives 0; outside the date column a missing value of the first row gives 1 and a missing value of only the second gives -1, in either direction (antisymmetry and transitivity: `CompareAntisymmetric`, `CompareTransitive`) |
| ViewAll.TextOk | src/app/database/view/ViewAllData.tsx:117-122 | with all five text filters empty every row passes the text checks |
| ViewAll.DateOk | src/app/database/view/ViewAllData.tsx:124-127 | a row passing has a non-empty date; with both bounds unset a row passes exactly when its date is truthy |

## Left out

- Every HTTP call to the database is left out: PostgREST reads, upserts,
  inserts and PATCHes. A resolver query is a search of a given sequence of
  birth rows, and a fetch of marked records is a given batch. The status
  updates act on the `Board` map.
- HTTP failures (`raise_for_status`) are not modelled. No resolver or update
  raises in the model.
- A PostgREST `limit=1` query without an `order` returns the first matching
  row of the given sequence. The database makes no such promise.
- In `ilike`, the `%` and `_` characters inside a searched value are treated
  literally.
- Environment variables become parameters (`Filing.Profile`,
  `Circular.CircularMain`). Logging with `print` and the scripts' exit
  behaviour are not modelled.
- The `sha1` source hash and the `parsed_at` column are left out of
  `Events.EventRow`.
- The clock (`utcnow`, `now_iso`) is a parameter `now` of the main loops.
- Python floats and JavaScript numbers are modelled as exact decimals (digits
  and a scale). Rounding is not modelled.
- `Unico.FloatText`: only states that a reading is not negative. It fails
  exactly where `float` raises on a digits-and-dots capture.
- Whitespace is six characters: space, tab, newline, carriage return,
  vertical tab and form feed (`Text.IsSpace`). Python's `\s`, `str.split`
  and `strip` also count the separators `\x1c` to `\x1f`, `\x85`, `\xa0`
  and the other Unicode spaces. JavaScript's `trim` also counts `\xa0`, the
  line and paragraph separators and the Unicode spaces, but not `\x1c` to
  `\x1f`. Text holding any of these is cleaned differently in the model.
- Letters, case mapping, digits and word characters are ASCII only. Python's
  `upper` and `capitalize` and JavaScript's `toLowerCase` also map other
  Unicode letters. Python's `\d` and `int` also accept other Unicode decimal
  digits ("٣"), and its `\w` and `\b` count every Unicode letter ("é") as a
  word character. The `\d{1,2}` and `\d{4}` date groups and the word
  boundaries of the filing "dated" pattern therefore accept less text in the
  model.
- There is no general regex engine or `strptime`. Each cited pattern is a
  scanner written for that pattern, and each date format is a fixed token
  list with English month names.
- JavaScript's `localeCompare` is modelled as plain lexicographic order on
  character codes.
- `Date.UTC`, `toISOString`, the notices page's `toUtcMs` and the lifecycle
  page's date-tick and formatting functions are left out. The notices rows
  carry their millisecond date as given.
- `Notices.LowerBound`, `Notices.UpperBound` and `Notices.BaseRows` require
  the dates to be sorted. The page sorts the rows when it loads them.
- `Glossary.Segments` reads only runs of decimal digits as numbers. JavaScript's
  `Number` also reads a sign, a fraction, an exponent, a "0x", "0b" or "0o"
  prefix and "Infinity" ("-3", "1.5", "1e1", "0x1F"); the model keeps such
  segments as text. Digit runs beyond 2^53 lose precision in JavaScript, not in
  the model.
- `Glossary.ParsePathSegments` inherits this: a path piece such as "1e1" is a
  `Word` in the model but the number 10 in the page.
- `Glossary.PathOrder` inherits this: `PathOrder(Some("1e1"), Some("2"))`
  compares the texts "1e1" and "2", where the page compares the numbers 10
  and 2.
- `Glossary.BuildTree` models the grouping of `buildTree`, but not the
  `sortNodes` pass. `Array.prototype.sort` is engine-defined, and
  `comparePaths` is not a consistent comparator (see
  `Glossary.PathOrderNotTransitive`), so the resulting order is not
  determined. The comparator used at each level is modelled by
  `Glossary.SiblingOrder`.
- The ViewAllData `sorted` array is left out for the same reason. Only its
  comparator, `ViewAll.Compare`, is modelled.
- `ViewAll.Filtered`: states which rows are kept, not that their order is
  kept. It is defined as an order-preserving filter.
- `Notices.Filtered`: states which rows are kept when types are selected, not
  their order. It is defined as an order-preserving filter.
- `Glossary.FilteredEntries`: states which entries are kept, not their order.
  It is defined as an order-preserving filter.
- `Lifecycle.ComputeMinAnchorByCompany`: requires every anchor date to be
  non-empty. Every map built by `Lifecycle.BuildAnchors` satisfies this (see
  `Lifecycle.AnchorMap`).
- `Lifecycle.Chunk` requires a positive size. With a size of 0 or less and a non-empty input, the
  source loop does not terminate.
- `Unico.UnicoRow`: the contract names only some columns of the filled row:
  the canonical type, the parse version, the effective and commence dates,
  the share class and the "none" option columns. The other columns are stated
  exactly by the section methods it calls in order (`Unico.UnicoDates`,
  `Unico.UnicoGross`, `Unico.UnicoCapital`, `Unico.UnicoParties`,
  `Unico.UnicoOption`), but not by its own contract. Lifting all 37 columns
  into one contract goes beyond the verifier's resource limit.
- `Unico.ParseUnico`: for the same reason, its contract names the same columns
  of the normalized row, not every column.
- `Unico.TransferAgent`: the contract only covers a missing line. The removal
  of a trailing parenthetical is stated by `Unico.StripParenName` for names
  without "(".
- In `TermView`, the `try`/`catch` around the regex construction is not
  modelled. Every escaped pattern is a valid regex there.
- A class name containing `$` would be read as a replacement pattern. This is
  not modelled: class names are the two fixed constants.
- React state, effects, rendering, charts, modals and the pages' other derived
  lists are left out. This includes:
  - the notices page's `typesForCompanies`, `events` and chart data;
  - the lifecycle page's window, option and table filters;
  - ViewAllData's `exportTxt`.
- The glossary `SearchBar` filter is not modelled. It repeats
  `Glossary.FilteredEntries` and only trims the query.
- `load_records_from_json` and the script entry points of `robot_depurar.py`
  are not modelled.
- No bulletin block segmenter appears among these files, so none is
  modelled.

## Findings

| source | as written | input that shows it | evidently intended | confidence | as-written member | corrected member |
|---|---|---|---|---|---|---|
| src/app/datamining/lifecycle/cpc/page.tsx:293-297 | each chunk company is looked up in `perCompanyMin` as collected, untrimmed (line 228), while the minima are keyed by the trimmed company part of the key (lines 220 and 274); a company without an entry gives `undefined`, `undefined < chunkMin` is false, and the company does not lower the chunk minimum | one CPC listing row with company " Foo " dated 2020-01-01: its key "Foo\|…" has that anchor, but the chunk [" Foo "] queries from "9999-12-31", so none of its rows are fetched | look each company up by the company part of its key, so the chunk minimum is at or below every anchor of the chunk's companies | not executed; medium (needs company names with surrounding whitespace or a bar in the data) | Lifecycle.UntrimmedCompanySkipped | Lifecycle.ChunkMinKeyedCovers |
