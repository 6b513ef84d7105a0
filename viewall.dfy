/** The bulletin table page (`database/view/ViewAllData.tsx`): the text
    filters, the date window, the column sort and the cleaning of cells for
    the text export. */
module ViewAll {
  import opened Wrappers
  import opened Text
  import opened Seqs

  // ---------------------------------------------------------------------------
  // check
  // ---------------------------------------------------------------------------

  /** A cell value, `string | number | null`. */
  datatype Cell = Null | Str(s: string) | Num(n: int)

  /** JavaScript's `String(n)` for an integer. */
  function IntToString(n: int): string {
    if n < 0 then "-" + NatToString(-n) else NatToString(n)
  }

  /** `String(val ?? '')`. */
  function Display(v: Cell): string {
    match v
    case Null => ""
    case Str(s) => s
    case Num(n) => IntToString(n)
  }

  /** `!val`: null, the empty string and zero are falsy. */
  predicate Falsy(v: Cell) { v == Null || v == Str("") || v == Num(0) }

  /** `check`: an empty filter accepts everything, `is:null` accepts the falsy
      and blank values, and any other filter is a case-insensitive substring
      test. */
  function Check(val: Cell, filter: string): (r: bool)
    ensures filter == "" ==> r
    ensures filter == "is:null" ==> (r <==> Falsy(val) || Strip(Display(val)) == "")
    ensures filter != "" && filter != "is:null" ==> (r <==> Contains(Lower(Display(val)), Lower(filter)))
  {
    if filter == "" then true
    else if filter == "is:null" then Falsy(val) || Strip(Display(val)) == ""
    else Contains(Lower(Display(val)), Lower(filter))
  }

  /** A missing value passes only the empty filter and `is:null`. */
  lemma CheckNull(filter: string)
    ensures Check(Null, filter) <==> filter == "" || filter == "is:null"
  {
    if filter != "" && filter != "is:null" {
      assert |Lower(filter)| > 0;
    }
  }

  /** Every value passes the filter made of its own text, unless that text is
      `is:null`. */
  lemma CheckSelf(val: Cell)
    requires Display(val) != "is:null"
    ensures Check(val, Display(val))
  {
    var d := Lower(Display(val));
    assert d[0..0 + |d|] == d;
    assert At(d, 0, d);
  }

  /** Filters that differ only in ASCII case give the same answer, except for
      `is:null`, which is recognised only in lower case. */
  lemma CheckIgnoresCase(val: Cell, f: string, g: string)
    requires Lower(f) == Lower(g) && f != "is:null" && g != "is:null"
    ensures Check(val, f) == Check(val, g)
  {
    assert |f| == |g|;
  }

  /** `IS:NULL` is an ordinary substring filter: it does not select missing
      values. */
  lemma UpperIsNullIsSubstring()
    ensures !Check(Null, "IS:NULL")
  {
    CheckNull("IS:NULL");
  }

  // ---------------------------------------------------------------------------
  // filtered
  // ---------------------------------------------------------------------------

  /** The visible columns of a row. */
  datatype Row = Row(
    id: int,
    blockId: int,
    company: Option<string>,
    ticker: Option<string>,
    bulletinType: Option<string>,
    bulletinDate: Option<string>,
    tier: Option<string>)

  /** The five text filters and the two date bounds, `''` when unset. */
  datatype Filters = Filters(
    blockId: string,
    company: string,
    ticker: string,
    bulletinType: string,
    tier: string,
    startDate: string,
    endDate: string)

  function OptCell(s: Option<string>): Cell {
    if s.Some? then Str(s.value) else Null
  }

  /** `textOk`: every text filter accepts its column. */
  predicate TextOk(r: Row, f: Filters)
    ensures f.blockId == f.company == f.ticker == f.bulletinType == f.tier == "" ==> TextOk(r, f)
  {
    Check(Num(r.blockId), f.blockId) && Check(OptCell(r.company), f.company)
    && Check(OptCell(r.ticker), f.ticker) && Check(OptCell(r.bulletinType), f.bulletinType)
    && Check(OptCell(r.tier), f.tier)
  }

  /** `dateOk`: a row without a date is excluded; otherwise an unset bound is
      ignored and a set one is compared as a string. */
  predicate DateOk(r: Row, f: Filters)
    ensures DateOk(r, f) ==> r.bulletinDate.Some? && r.bulletinDate.value != ""
    ensures f.startDate == "" && f.endDate == "" ==> (DateOk(r, f) <==> Truthy(r.bulletinDate))
  {
    Truthy(r.bulletinDate)
    && (f.startDate == "" || !LexLess(r.bulletinDate.value, f.startDate))
    && (f.endDate == "" || !LexLess(f.endDate, r.bulletinDate.value))
  }

  function Keeps(f: Filters): Row -> bool {
    (r: Row) => TextOk(r, f) && DateOk(r, f)
  }

  /** `filtered`: the rows both tests accept, in their original order. */
  function Filtered(rows: seq<Row>, f: Filters): (out: seq<Row>)
    ensures forall r :: r in out <==> r in rows && TextOk(r, f) && DateOk(r, f)
  {
    Filter(rows, Keeps(f))
  }

  /** `a <= b` on strings. */
  predicate LexAtMost(a: string, b: string) { a == b || LexLess(a, b) }

  /** The date window is inclusive at both ends: a dated row passes exactly
      when its date lies between the set bounds. */
  lemma DateWindow(r: Row, f: Filters)
    ensures DateOk(r, f) <==>
              r.bulletinDate.Some? && r.bulletinDate.value != ""
              && (f.startDate == "" || LexAtMost(f.startDate, r.bulletinDate.value))
              && (f.endDate == "" || LexAtMost(r.bulletinDate.value, f.endDate))
  {
    if r.bulletinDate.Some? {
      var d := r.bulletinDate.value;
      LexLessTotal(d, f.startDate);
      LexLessTotal(d, f.endDate);
      LexLessIrreflexive(d);
      if LexLess(f.startDate, d) { LexLessAsymmetric(f.startDate, d); }
      if LexLess(d, f.endDate) { LexLessAsymmetric(d, f.endDate); }
    }
  }

  /** A row without a bulletin date is never shown, whatever the filters. */
  lemma UndatedExcluded(rows: seq<Row>, f: Filters, r: Row)
    requires !Truthy(r.bulletinDate)
    ensures r !in Filtered(rows, f)
  {
  }

  /** With every filter and bound unset, exactly the dated rows are shown. */
  lemma NoFiltersKeepsDated(rows: seq<Row>, r: Row)
    ensures r in Filtered(rows, Filters("", "", "", "", "", "", "")) <==> r in rows && Truthy(r.bulletinDate)
  {
  }

  // ---------------------------------------------------------------------------
  // sorted
  // ---------------------------------------------------------------------------

  datatype Column = Id | BlockId | Company | Ticker | BulletinType | BulletinDate | Tier
  datatype Direction = Asc | Desc

  /** `a[sortColumn]`. */
  function Field(r: Row, c: Column): Cell {
    match c
    case Id => Num(r.id)
    case BlockId => Num(r.blockId)
    case Company => OptCell(r.company)
    case Ticker => OptCell(r.ticker)
    case BulletinType => OptCell(r.bulletinType)
    case BulletinDate => OptCell(r.bulletinDate)
    case Tier => OptCell(r.tier)
  }

  /** `valA < valB` on two values of one column: numbers by value, strings by
      string order. */
  predicate CellLess(a: Cell, b: Cell) {
    (a.Num? && b.Num? && a.n < b.n) || (a.Str? && b.Str? && LexLess(a.s, b.s))
  }

  /** The comparator of `sorted`.  The date column compares `bulletin_date ??
      ''` as strings; any other column puts a missing value after the others
      and compares the rest, the direction deciding the sign. */
  function Compare(a: Row, b: Row, column: Option<Column>, dir: Direction): (r: int)
    ensures -1 <= r <= 1
    ensures column.None? ==> r == 0
    ensures column.Some? && column.value != BulletinDate && Field(a, column.value).Null? ==> r == 1
    ensures column.Some? && column.value != BulletinDate && !Field(a, column.value).Null? && Field(b, column.value).Null? ==> r == -1
  {
    if column.None? then 0
    else if column.value == BulletinDate then
      var res := LexCompare(a.bulletinDate.GetOr(""), b.bulletinDate.GetOr(""));
      if dir == Asc then res else -res
    else
      var va := Field(a, column.value);
      var vb := Field(b, column.value);
      if va.Null? then 1
      else if vb.Null? then -1
      else if CellLess(va, vb) then (if dir == Asc then -1 else 1)
      else if CellLess(vb, va) then (if dir == Asc then 1 else -1)
      else 0
  }

  /** Whether the column's value is present, so that the comparator is
      well-behaved on it. */
  predicate Present(r: Row, column: Option<Column>) {
    column.None? || column.value == BulletinDate || !Field(r, column.value).Null?
  }

  lemma CellLessTotal(a: Cell, b: Cell)
    requires (a.Num? && b.Num?) || (a.Str? && b.Str?)
    ensures a == b || CellLess(a, b) || CellLess(b, a)
    ensures !(CellLess(a, b) && CellLess(b, a)) && !CellLess(a, a)
  {
    if a.Str? {
      LexLessTotal(a.s, b.s);
      LexLessIrreflexive(a.s);
      if LexLess(a.s, b.s) { LexLessAsymmetric(a.s, b.s); }
    }
  }

  /** On present values the comparator is antisymmetric, and it reports a tie
      exactly for equal values. */
  lemma CompareAntisymmetric(a: Row, b: Row, column: Option<Column>, dir: Direction)
    requires Present(a, column) && Present(b, column)
    ensures Compare(a, b, column, dir) == -Compare(b, a, column, dir)
    ensures column.Some? ==> (Compare(a, b, column, dir) == 0 <==>
              (if column.value == BulletinDate then a.bulletinDate.GetOr("") == b.bulletinDate.GetOr("")
               else Field(a, column.value) == Field(b, column.value)))
  {
    if column.Some? {
      if column.value == BulletinDate {
        LexCompareAntisymmetric(a.bulletinDate.GetOr(""), b.bulletinDate.GetOr(""));
      } else {
        CellLessTotal(Field(a, column.value), Field(b, column.value));
      }
    }
  }

  lemma CellLessTransitive(a: Cell, b: Cell, c: Cell)
    requires CellLess(a, b) && CellLess(b, c)
    ensures CellLess(a, c)
  {
    if a.Str? {
      LexLessTransitive(a.s, b.s, c.s);
    }
  }

  /** On present values the comparator is transitive, so the sort is
      consistent. */
  lemma CompareTransitive(a: Row, b: Row, c: Row, column: Option<Column>, dir: Direction)
    requires Present(a, column) && Present(b, column) && Present(c, column)
    requires Compare(a, b, column, dir) < 0 && Compare(b, c, column, dir) < 0
    ensures Compare(a, c, column, dir) < 0
  {
    var col := column.value;
    if col == BulletinDate {
      var x, y, z := a.bulletinDate.GetOr(""), b.bulletinDate.GetOr(""), c.bulletinDate.GetOr("");
      if dir == Asc {
        LexLessTransitive(x, y, z);
      } else {
        LexCompareAntisymmetric(x, y);
        LexCompareAntisymmetric(y, z);
        LexCompareAntisymmetric(x, z);
        LexLessTransitive(z, y, x);
      }
    } else {
      var x, y, z := Field(a, col), Field(b, col), Field(c, col);
      if dir == Asc {
        CellLessTransitive(x, y, z);
      } else {
        CellLessTotal(x, y);
        CellLessTotal(y, z);
        CellLessTransitive(z, y, x);
        CellLessTotal(x, z);
      }
    }
  }

  /** On a column other than the date, a missing value goes after every
      present one in both directions. */
  lemma MissingLast(a: Row, b: Row, column: Column, dir: Direction)
    requires column != BulletinDate && Field(a, column).Null? && !Field(b, column).Null?
    ensures Compare(a, b, Some(column), dir) > 0 && Compare(b, a, Some(column), dir) < 0
  {
  }

  /** Two missing values each claim to go after the other: the comparator is
      not antisymmetric there. */
  lemma MissingPairInconsistent(a: Row, b: Row, column: Column, dir: Direction)
    requires column != BulletinDate && Field(a, column).Null? && Field(b, column).Null?
    ensures Compare(a, b, Some(column), dir) == 1 && Compare(b, a, Some(column), dir) == 1
  {
  }

  /** On the date column a missing date counts as `''` and so comes first in
      ascending order, unlike a missing value in any other column. */
  lemma MissingDateFirst(a: Row, b: Row)
    requires a.bulletinDate.None? && Truthy(b.bulletinDate)
    ensures Compare(a, b, Some(BulletinDate), Asc) < 0
  {
  }

  // ---------------------------------------------------------------------------
  // handleSort
  // ---------------------------------------------------------------------------

  datatype SortState = SortState(column: Option<Column>, direction: Direction)

  function Flip(d: Direction): Direction { if d == Asc then Desc else Asc }

  /** `handleSort`: clicking the sorted column flips the direction; clicking
      another selects it in ascending order. */
  function HandleSort(s: SortState, column: Option<Column>): (r: SortState)
    ensures r.column == column
    ensures s.column == column ==> r.direction != s.direction
    ensures s.column != column ==> r.direction == Asc
  {
    if s.column == column then SortState(s.column, Flip(s.direction))
    else SortState(column, Asc)
  }

  /** Two clicks on the sorted column restore the state; two clicks on another
      column leave it sorted descending. */
  lemma HandleSortTwice(s: SortState, column: Option<Column>)
    ensures HandleSort(HandleSort(s, column), column) ==
              if s.column == column then s else SortState(column, Desc)
  {
  }

  /** Clicking the sorted column reverses the order of every pair of present
      values. */
  lemma HandleSortReverses(s: SortState, a: Row, b: Row)
    requires Present(a, s.column) && Present(b, s.column)
    ensures Compare(a, b, HandleSort(s, s.column).column, HandleSort(s, s.column).direction)
            == -Compare(a, b, s.column, s.direction)
  {
  }

  // ---------------------------------------------------------------------------
  // sanitizeCell
  // ---------------------------------------------------------------------------

  /** `text.replace(/(\r\n|\n|\r)/g, ' ')`: a CR LF pair, a lone LF and a lone
      CR each become one space. */
  function ReplaceBreaks(s: string): (r: string)
    ensures '\r' !in r && '\n' !in r
    ensures |r| <= |s|
    ensures ('\r' !in s && '\n' !in s) ==> r == s
    decreases |s|
  {
    if s == [] then []
    else if |s| >= 2 && s[0] == '\r' && s[1] == '\n' then " " + ReplaceBreaks(s[2..])
    else if s[0] == '\n' || s[0] == '\r' then " " + ReplaceBreaks(s[1..])
    else [s[0]] + ReplaceBreaks(s[1..])
  }

  /** `sanitizeCell`: a missing or empty cell becomes `''`; otherwise every
      line break becomes a space, so the cell fits on one export line. */
  function SanitizeCell(text: Option<string>): (r: string)
    ensures !Truthy(text) ==> r == ""
    ensures '\r' !in r && '\n' !in r
    ensures Truthy(text) && '\r' !in text.value && '\n' !in text.value ==> r == text.value
  {
    if !Truthy(text) then "" else ReplaceBreaks(text.value)
  }

  /** Neither a line break nor a space. */
  predicate Visible(c: char) { c != ' ' && c != '\r' && c != '\n' }

  function IsVisible(): char -> bool { (c: char) => Visible(c) }

  /** The replacement only turns line breaks into spaces: the other
      characters come through unchanged and in order. */
  lemma {:induction false} ReplaceBreaksKeepsText(s: string)
    ensures Filter(ReplaceBreaks(s), IsVisible()) == Filter(s, IsVisible())
    decreases |s|
  {
    if s != [] {
      var r := ReplaceBreaks(s);
      var v := IsVisible();
      if |s| >= 2 && s[0] == '\r' && s[1] == '\n' {
        assert r == " " + ReplaceBreaks(s[2..]);
        ReplaceBreaksKeepsText(s[2..]);
        FilterConcat(" ", ReplaceBreaks(s[2..]), v);
        assert Filter(" ", v) == [];
        assert s[1..][1..] == s[2..];
        assert Filter(s, v) == Filter(s[1..], v) == Filter(s[2..], v);
      } else if s[0] == '\n' || s[0] == '\r' {
        assert r == " " + ReplaceBreaks(s[1..]);
        ReplaceBreaksKeepsText(s[1..]);
        FilterConcat(" ", ReplaceBreaks(s[1..]), v);
        assert Filter(" ", v) == [];
        assert Filter(s, v) == Filter(s[1..], v);
      } else {
        assert r == [s[0]] + ReplaceBreaks(s[1..]);
        ReplaceBreaksKeepsText(s[1..]);
        FilterConcat([s[0]], ReplaceBreaks(s[1..]), v);
        assert Filter([s[0]], v) == if v(s[0]) then [s[0]] else [];
      }
    }
  }

  /** A Windows line break gives one space, not two. */
  lemma CrLfOneSpace(a: string, b: string)
    requires '\r' !in a && '\n' !in a && '\r' !in b && '\n' !in b
    ensures SanitizeCell(Some(a + "\r\n" + b)) == a + " " + b
  {
    ReplaceBreaksPlain(a, "\r\n" + b);
    var t := "\r\n" + b;
    assert t[2..] == b;
    assert a + "\r\n" + b == a + t;
    assert a + " " + b == a + (" " + b);
  }

  lemma {:induction false} ReplaceBreaksPlain(a: string, t: string)
    requires '\r' !in a && '\n' !in a
    ensures ReplaceBreaks(a + t) == a + ReplaceBreaks(t)
  {
    if a != [] {
      var u := a + t;
      assert u[0] == a[0] && u[0] != '\r' && u[0] != '\n';
      assert u[1..] == a[1..] + t;
      assert ReplaceBreaks(u) == [a[0]] + ReplaceBreaks(a[1..] + t);
      ReplaceBreaksPlain(a[1..], t);
      AppendAssoc([a[0]], a[1..], ReplaceBreaks(t));
      assert [a[0]] + a[1..] == a;
    } else {
      assert a + t == t;
    }
  }
}
