/** The bulletin notices page (`notices/page.tsx`): rows sorted by bulletin date
    are cut to a date window with two binary searches, then filtered by the
    selected companies and canonical types.  Dates are the millisecond
    timestamps the page computes from the ISO dates; the conversion itself is
    not part of this model. */
module Notices {
  import opened Wrappers
  import opened Seqs

  /** One row of `vw_bulletins_with_canonical` as the page keeps it. */
  datatype NoticeRow = NoticeRow(id: int, company: Option<string>, canonicalType: Option<string>, dateMs: int)

  predicate Sorted(a: seq<int>) { forall i, j :: 0 <= i < j < |a| ==> a[i] <= a[j] }

  /** `l` separates the entries below `x` from those at or above it. */
  predicate SplitsBelow(a: seq<int>, x: int, l: nat) {
    l <= |a| && (forall j :: 0 <= j < l ==> a[j] < x) && (forall j :: l <= j < |a| ==> a[j] >= x)
  }

  /** `u` separates the entries at or below `x` from those above it. */
  predicate SplitsAbove(a: seq<int>, x: int, u: nat) {
    u <= |a| && (forall j :: 0 <= j < u ==> a[j] <= x) && (forall j :: u <= j < |a| ==> a[j] > x)
  }

  /** `lowerBound`: the first index whose entry is not below `x`.  The midpoint
      `(l + r) >> 1` is `(l + r) / 2` for the non-negative indices used. */
  method LowerBound(arr: seq<int>, x: int) returns (l: nat)
    requires Sorted(arr)
    ensures SplitsBelow(arr, x, l)
  {
    l := 0;
    var r := |arr|;
    while l < r
      invariant l <= r <= |arr|
      invariant forall j :: 0 <= j < l ==> arr[j] < x
      invariant forall j :: r <= j < |arr| ==> arr[j] >= x
      decreases r - l
    {
      var m := (l + r) / 2;
      if arr[m] < x {
        l := m + 1;
      } else {
        r := m;
      }
    }
  }

  /** `upperBound`: the first index whose entry is above `x`. */
  method UpperBound(arr: seq<int>, x: int) returns (l: nat)
    requires Sorted(arr)
    ensures SplitsAbove(arr, x, l)
  {
    l := 0;
    var r := |arr|;
    while l < r
      invariant l <= r <= |arr|
      invariant forall j :: 0 <= j < l ==> arr[j] <= x
      invariant forall j :: r <= j < |arr| ==> arr[j] > x
      decreases r - l
    {
      var m := (l + r) / 2;
      if arr[m] <= x {
        l := m + 1;
      } else {
        r := m;
      }
    }
  }

  /** Where an entry lies relative to a lower split. */
  lemma BelowAt(a: seq<int>, x: int, l: nat, i: nat)
    requires SplitsBelow(a, x, l) && i < |a|
    ensures a[i] < x <==> i < l
  {
  }

  /** Where an entry lies relative to an upper split. */
  lemma AboveAt(a: seq<int>, x: int, u: nat, i: nat)
    requires SplitsAbove(a, x, u) && i < |a|
    ensures a[i] <= x <==> i < u
  {
  }

  /** The split `lowerBound` finds is the only one: its result is determined. */
  lemma SplitsBelowUnique(a: seq<int>, x: int, l1: nat, l2: nat)
    requires SplitsBelow(a, x, l1) && SplitsBelow(a, x, l2)
    ensures l1 == l2
  {
    var i := if l1 < l2 then l1 else l2;
    if i < |a| {
      BelowAt(a, x, l1, i);
      BelowAt(a, x, l2, i);
    }
  }

  /** The split `upperBound` finds is the only one. */
  lemma SplitsAboveUnique(a: seq<int>, x: int, u1: nat, u2: nat)
    requires SplitsAbove(a, x, u1) && SplitsAbove(a, x, u2)
    ensures u1 == u2
  {
    var i := if u1 < u2 then u1 else u2;
    if i < |a| {
      AboveAt(a, x, u1, i);
      AboveAt(a, x, u2, i);
    }
  }

  /** For the same key, the lower bound never passes the upper bound; the
      entries between them are exactly those equal to the key. */
  lemma BoundsOrdered(a: seq<int>, x: int, l: nat, u: nat)
    requires SplitsBelow(a, x, l) && SplitsAbove(a, x, u)
    ensures l <= u
    ensures forall j :: l <= j < u ==> a[j] == x
  {
    if u < |a| {
      BelowAt(a, x, l, u);
      AboveAt(a, x, u, u);
    }
  }

  // ---------------------------------------------------------------------------
  // baseRows and filtered
  // ---------------------------------------------------------------------------

  /** `rows.map(r => r.dateMs!)`. */
  function Dates(rows: seq<NoticeRow>): (d: seq<int>)
    ensures |d| == |rows| && forall k :: 0 <= k < |rows| ==> d[k] == rows[k].dateMs
  {
    seq(|rows|, k requires 0 <= k < |rows| => rows[k].dateMs)
  }

  /** `sMs`: the chosen start date, or the first row's date when none is chosen. */
  function WindowStart(rows: seq<NoticeRow>, startMs: Option<int>): int {
    if startMs.Some? then startMs.value else if rows == [] then 0 else rows[0].dateMs
  }

  /** `eMs`: the chosen end date, or the last row's date when none is chosen. */
  function WindowEnd(rows: seq<NoticeRow>, endMs: Option<int>): int {
    if endMs.Some? then endMs.value else if rows == [] then 0 else rows[|rows| - 1].dateMs
  }

  /** `effectiveCompanies`: every non-blank company of the rows when the
      "__ALL__" option is selected, else the selection itself. */
  function EffectiveCompanies(selected: seq<string>, rows: seq<NoticeRow>): (r: set<string>)
    ensures "__ALL__" !in selected ==> forall c :: c in r <==> c in selected
    ensures "__ALL__" in selected ==>
              forall c :: c in r <==> exists k :: 0 <= k < |rows| && rows[k].company == Some(c) && c != ""
  {
    if "__ALL__" in selected then set k | 0 <= k < |rows| && rows[k].company.Some? && rows[k].company.value != "" :: rows[k].company.value
    else set c | c in selected
  }

  /** What `baseRows` keeps: a date inside the window and, when companies are
      selected, a selected company (`r.company ?? ''`). */
  function InBase(s: int, e: int, companies: set<string>): (keep: NoticeRow -> bool)
    ensures forall row :: keep(row) ==> InWindow(s, e)(row)
    ensures companies == {} ==> forall row :: keep(row) == InWindow(s, e)(row)
  {
    (row: NoticeRow) => s <= row.dateMs <= e && (companies == {} || row.company.GetOr("") in companies)
  }

  /** The date window alone. */
  function InWindow(s: int, e: int): NoticeRow -> bool {
    (row: NoticeRow) => s <= row.dateMs <= e
  }

  /** The company test alone. */
  function HasCompany(companies: set<string>): NoticeRow -> bool {
    (row: NoticeRow) => companies == {} || row.company.GetOr("") in companies
  }

  /** `rows.slice(i0, i1)`: empty when the bounds cross. */
  function Slice(rows: seq<NoticeRow>, i0: nat, i1: nat): seq<NoticeRow>
    requires i0 <= |rows| && i1 <= |rows|
  {
    if i0 <= i1 then rows[i0..i1] else []
  }

  /** `baseRows`: on rows sorted by date, the slice between the two binary
      searches is exactly the rows inside the window, in order; the company
      filter then keeps the selected companies. */
  method BaseRows(rows: seq<NoticeRow>, startMs: Option<int>, endMs: Option<int>, companies: set<string>)
    returns (r: seq<NoticeRow>)
    requires Sorted(Dates(rows))
    ensures r == Filter(rows, InBase(WindowStart(rows, startMs), WindowEnd(rows, endMs), companies))
  {
    var s := WindowStart(rows, startMs);
    var e := WindowEnd(rows, endMs);
    if |rows| == 0 {
      return [];
    }
    var dates := Dates(rows);
    var i0 := LowerBound(dates, s);
    var i1 := UpperBound(dates, e);
    var sliced := Slice(rows, i0, i1);
    assert sliced == Filter(rows, InWindow(s, e)) by {
      if i0 <= i1 {
        FilterIsSlice(rows, InWindow(s, e), i0, i1);
      } else {
        FilterNone(rows, InWindow(s, e));
      }
    }
    FilterTwice(rows, InWindow(s, e), HasCompany(companies), InBase(s, e, companies));
    if companies == {} {
      FilterAll(sliced, HasCompany(companies));
      return sliced;
    }
    r := Filter(sliced, HasCompany(companies));
  }

  /** What `filtered` keeps of `baseRows`: every row when no type is selected,
      else the rows whose canonical type (`?? ''`) is selected. */
  function Filtered(base: seq<NoticeRow>, selectedTypes: seq<string>): (r: seq<NoticeRow>)
    ensures selectedTypes == [] ==> r == base
    ensures selectedTypes != [] ==> forall row :: row in r <==> row in base && row.canonicalType.GetOr("") in selectedTypes
  {
    if selectedTypes == [] then base
    else Filter(base, (row: NoticeRow) => row.canonicalType.GetOr("") in selectedTypes)
  }

  /** Selecting "__ALL__" companies is not the same as selecting none: it drops
      the rows of the window that have no company. */
  lemma AllCompaniesDropsBlank(selected: seq<string>, rows: seq<NoticeRow>, s: int, e: int, row: NoticeRow)
    requires "__ALL__" in selected && row in rows
    requires EffectiveCompanies(selected, rows) != {}
    requires row.company.None? || row.company == Some("")
    ensures row !in Filter(rows, InBase(s, e, EffectiveCompanies(selected, rows)))
  {
    var cs := EffectiveCompanies(selected, rows);
    assert "" !in cs;
  }

  /** With "__ALL__" selected, every row of the window with a company is kept. */
  lemma AllCompaniesKeepsNamed(selected: seq<string>, rows: seq<NoticeRow>, s: int, e: int, row: NoticeRow)
    requires "__ALL__" in selected && row in rows
    requires row.company.Some? && row.company.value != "" && s <= row.dateMs <= e
    ensures row in Filter(rows, InBase(s, e, EffectiveCompanies(selected, rows)))
  {
    var k :| 0 <= k < |rows| && rows[k] == row;
    assert row.company.value in EffectiveCompanies(selected, rows);
  }
}
