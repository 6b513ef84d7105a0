/** The CPC lifecycle page (`datamining/lifecycle/cpc/page.tsx`).  Every
    company and ticker pair gets an anchor: the date of its first CPC listing
    bulletin.  The post-anchor timeline keeps a pair's bulletins from its
    anchor on.  Dates are the ISO "YYYY-MM-DD" strings that the page compares
    with `<`, so their order is `LexLess`. */
module Lifecycle {
  import opened Wrappers
  import opened Text
  import opened Seqs

  /** The canonical type of a CPC listing bulletin. */
  const CPC_CANONICAL := "NEW LISTING-CPC-SHARES"

  /** A row of `vw_bulletins_with_canonical`, holding the columns the page reads. */
  datatype LifecycleRow = LifecycleRow(
    id: int,
    company: Option<string>,
    ticker: Option<string>,
    bulletinType: Option<string>,
    canonicalType: Option<string>,
    bulletinDate: Option<string>,
    compositeKey: Option<string>,
    bodyText: Option<string>)

  // ---------------------------------------------------------------------------
  // normalizeTicker and keyCT
  // ---------------------------------------------------------------------------

  /** The text ends with the CPC ticker suffix ".P". */
  predicate EndsWithP(u: string) { |u| >= 2 && u[|u| - 2..] == ".P" }

  /** `.replace(/\.P$/, "")`: one trailing ".P" removed. */
  function DropPoolSuffix(u: string): (r: string)
    ensures EndsWithP(u) ==> r + ".P" == u
    ensures !EndsWithP(u) ==> r == u
  {
    if EndsWithP(u) then u[..|u| - 2] else u
  }

  /** `normalizeTicker`: the trimmed, upper-cased ticker with one trailing
      ".P" removed.  An absent ticker gives "". */
  function NormalizeTicker(t: Option<string>): (r: string)
    ensures t.None? ==> r == ""
    ensures var u := Upper(Strip(t.GetOr("")));
            (EndsWithP(u) ==> r + ".P" == u) && (!EndsWithP(u) ==> r == u)
    ensures forall i :: 0 <= i < |r| ==> !IsLower(r[i])
  {
    DropPoolSuffix(Upper(Strip(t.GetOr(""))))
  }

  /** Upper-casing works character by character, so it distributes over
      concatenation. */
  lemma UpperConcat(a: string, b: string)
    ensures Upper(a + b) == Upper(a) + Upper(b)
  {
    assert forall i :: 0 <= i < |a| ==> (a + b)[i] == a[i];
    assert forall i :: |a| <= i < |a| + |b| ==> (a + b)[i] == b[i - |a|];
  }

  /** On a ticker without whitespace at its ends, trimming does nothing. */
  lemma NormalizeClean(y: string)
    requires y == [] || (!IsSpace(y[0]) && !IsSpace(y[|y| - 1]))
    ensures NormalizeTicker(Some(y)) == DropPoolSuffix(Upper(y))
  {
    StripIdentity(y);
  }

  lemma SuffixUpper()
    ensures Upper(".P") == ".P" && Upper(".p") == ".P" && Upper(".P.P") == ".P.P"
  {
  }

  /** A clean ticker followed by a suffix that upper-cases to ".P". */
  lemma SuffixDropped(x: string, suffix: string)
    requires x != [] && !IsSpace(x[0]) && |suffix| == 2 && Upper(suffix) == ".P"
    ensures NormalizeTicker(Some(x + suffix)) == Upper(x)
  {
    assert (x + suffix)[|x + suffix| - 1] == suffix[1];
    NormalizeClean(x + suffix);
    UpperConcat(x, suffix);
    var u := Upper(x) + ".P";
    assert u[|u| - 2..] == ".P";
    assert u[..|u| - 2] == Upper(x);
  }

  /** A ticker and the same ticker with the CPC suffix, in either case,
      normalize alike: the suffix does not split a pool into two keys. */
  lemma PoolSuffixIgnored(x: string)
    requires x != [] && !IsSpace(x[0]) && !IsSpace(x[|x| - 1])
    requires !EndsWithP(Upper(x))
    ensures NormalizeTicker(Some(x + ".P")) == Upper(x)
    ensures NormalizeTicker(Some(x + ".p")) == Upper(x)
    ensures NormalizeTicker(Some(x)) == Upper(x)
  {
    SuffixUpper();
    SuffixDropped(x, ".P");
    SuffixDropped(x, ".p");
    NormalizeClean(x);
  }

  /** Only one suffix is removed: "X.P.P" keeps a ".P". */
  lemma OneSuffixOnly(x: string)
    requires x != [] && !IsSpace(x[0]) && Upper(x) == x
    ensures NormalizeTicker(Some(x + ".P.P")) == x + ".P"
  {
    SuffixUpper();
    assert x + ".P.P" == (x + ".P") + ".P";
    SuffixDropped(x + ".P", ".P");
    UpperConcat(x, ".P");
  }

  /** `keyCT`: the trimmed company, a bar and the normalized ticker.  Splitting
      the key at its first bar recovers the trimmed company, as long as the
      company name itself has no bar. */
  function KeyCT(company: Option<string>, ticker: Option<string>): (r: string)
    ensures '|' !in company.GetOr("") ==> KeyCompany(r) == Strip(company.GetOr(""))
  {
    var c := Strip(company.GetOr(""));
    var t := NormalizeTicker(ticker);
    if '|' in c then c + "|" + t
    else KeyCompanyPrefix(c, t); c + "|" + t
  }

  /** `k.split("|")[0]`: the text before the first bar, or all of it. */
  function KeyCompany(k: string): string {
    if k == [] || k[0] == '|' then []
    else [k[0]] + KeyCompany(k[1..])
  }

  /** The company part is the longest prefix of the key without a bar: it is
      the whole key, or the key continues with a bar. */
  lemma {:induction false} KeyCompanyShape(k: string)
    ensures var c := KeyCompany(k);
            '|' !in c && |c| <= |k| && k[..|c|] == c && (c == k || k[|c|] == '|')
  {
    if k != [] && k[0] != '|' {
      KeyCompanyShape(k[1..]);
      assert k == [k[0]] + k[1..];
    }
  }

  /** The company part of `a + "|" + b` is `a` when `a` has no bar. */
  lemma {:induction false} KeyCompanyPrefix(a: string, b: string)
    requires '|' !in a
    ensures KeyCompany(a + "|" + b) == a
  {
    if a != [] {
      assert (a + "|" + b)[1..] == a[1..] + "|" + b;
      KeyCompanyPrefix(a[1..], b);
      assert a == [a[0]] + a[1..];
    }
  }

  // ---------------------------------------------------------------------------
  // chunk
  // ---------------------------------------------------------------------------

  /** The pieces `chunk` produces: consecutive slices of `size` elements, the
      last one possibly shorter. */
  function Chunks<T>(arr: seq<T>, size: nat): (r: seq<seq<T>>)
    requires size > 0
    ensures forall k :: 0 <= k < |r| ==> 0 < |r[k]| <= size
    ensures arr != [] ==> r != []
    decreases |arr|
  {
    if arr == [] then []
    else if |arr| <= size then [arr]
    else [arr[..size]] + Chunks(arr[size..], size)
  }

  /** The pieces glued back together. */
  function Flatten<T>(cs: seq<seq<T>>): seq<T> {
    if cs == [] then [] else cs[0] + Flatten(cs[1..])
  }

  /** `chunk`: the loop that pushes `arr.slice(i, i + size)` for i = 0, size,
      2 * size, ...; `slice` clamps its end to the length. */
  method Chunk<T>(arr: seq<T>, size: nat) returns (out: seq<seq<T>>)
    requires size > 0
    ensures out == Chunks(arr, size)
  {
    out := [];
    var i := 0;
    while i < |arr|
      invariant i < |arr| ==> out + Chunks(arr[i..], size) == Chunks(arr, size)
      invariant i >= |arr| ==> out == Chunks(arr, size)
      decreases |arr| - i
    {
      var end := if i + size < |arr| then i + size else |arr|;
      var piece := arr[i..end];
      if i + size < |arr| {
        assert arr[i..][..size] == piece && arr[i..][size..] == arr[i + size..];
        out := out + [piece];
        assert out + Chunks(arr[i + size..], size) == Chunks(arr, size);
      } else {
        assert arr[i..] == piece;
        out := out + [piece];
      }
      i := i + size;
    }
  }

  /** The chunks concatenate to the input. */
  lemma {:induction false} ChunksFlatten<T>(arr: seq<T>, size: nat)
    requires size > 0
    ensures Flatten(Chunks(arr, size)) == arr
    decreases |arr|
  {
    if |arr| > size {
      ChunksFlatten(arr[size..], size);
      assert ([arr[..size]] + Chunks(arr[size..], size))[1..] == Chunks(arr[size..], size);
      assert arr == arr[..size] + arr[size..];
    } else if arr != [] {
      assert [arr][1..] == [];
    }
  }

  /** No chunk is empty or longer than `size`, and every chunk but the last
      has exactly `size` elements. */
  lemma {:induction false} ChunksSizes<T>(arr: seq<T>, size: nat, k: nat)
    requires size > 0 && k < |Chunks(arr, size)|
    ensures 0 < |Chunks(arr, size)[k]| <= size
    ensures k < |Chunks(arr, size)| - 1 ==> |Chunks(arr, size)[k]| == size
    decreases |arr|
  {
    if |arr| > size && k > 0 {
      ChunksSizes(arr[size..], size, k - 1);
      assert Chunks(arr, size)[k] == Chunks(arr[size..], size)[k - 1];
    }
  }

  // ---------------------------------------------------------------------------
  // the anchor map
  // ---------------------------------------------------------------------------

  /** The row is marked as a CPC listing: by its canonical type, or by the
      upper-cased bulletin type containing it. */
  predicate HasCpc(r: LifecycleRow) {
    r.canonicalType == Some(CPC_CANONICAL) || Contains(Upper(r.bulletinType.GetOr("")), CPC_CANONICAL)
  }

  /** A row that can anchor its key: it has a date and a CPC marker. */
  predicate IsAnchorRow(r: LifecycleRow) { Truthy(r.bulletinDate) && HasCpc(r) }

  function KeyOf(r: LifecycleRow): string { KeyCT(r.company, r.ticker) }

  /** The anchor map after the rows `data` in order: a key enters with the
      first anchor row that has it and is replaced by any strictly earlier
      date. */
  function AnchorMap(data: seq<LifecycleRow>): (m: map<string, string>)
    ensures forall key :: key in m ==> m[key] != ""
    decreases |data|
  {
    if data == [] then map[]
    else
      var m := AnchorMap(data[..|data| - 1]);
      var r := data[|data| - 1];
      if IsAnchorRow(r) && (KeyOf(r) !in m || LexLess(r.bulletinDate.value, m[KeyOf(r)]))
      then m[KeyOf(r) := r.bulletinDate.value]
      else m
  }

  /** The companies collected with the anchors: the untrimmed company of every
      anchor row that has one. */
  function AnchorCompanies(data: seq<LifecycleRow>): (cs: set<string>)
    ensures forall c :: c in cs ==> c != ""
    decreases |data|
  {
    if data == [] then {}
    else
      var cs := AnchorCompanies(data[..|data| - 1]);
      var r := data[|data| - 1];
      if IsAnchorRow(r) && Truthy(r.company) then cs + {r.company.value} else cs
  }

  /** The loop that fills the anchor map and the company set. */
  method BuildAnchors(data: seq<LifecycleRow>) returns (anchors: map<string, string>, companies: set<string>)
    ensures anchors == AnchorMap(data) && companies == AnchorCompanies(data)
  {
    anchors := map[];
    companies := {};
    for i := 0 to |data|
      invariant anchors == AnchorMap(data[..i]) && companies == AnchorCompanies(data[..i])
    {
      AnchorStep(data, i);
      var r := data[i];
      var key := KeyCT(r.company, r.ticker);
      var d := if Truthy(r.bulletinDate) then r.bulletinDate.value else "";
      if d == "" {
        continue;
      }
      var hasCpc := r.canonicalType == Some(CPC_CANONICAL) || Contains(Upper(r.bulletinType.GetOr("")), CPC_CANONICAL);
      if !hasCpc {
        continue;
      }
      if key !in anchors || LexLess(d, anchors[key]) {
        anchors := anchors[key := d];
      }
      if Truthy(r.company) {
        companies := companies + {r.company.value};
      }
    }
    assert data[..|data|] == data;
  }

  /** The anchor map and the company set after one more row. */
  lemma AnchorStep(data: seq<LifecycleRow>, i: nat)
    requires i < |data|
    ensures var r, m := data[i], AnchorMap(data[..i]);
            AnchorMap(data[..i + 1]) ==
              if IsAnchorRow(r) && (KeyOf(r) !in m || LexLess(r.bulletinDate.value, m[KeyOf(r)]))
              then m[KeyOf(r) := r.bulletinDate.value] else m
    ensures var r, cs := data[i], AnchorCompanies(data[..i]);
            AnchorCompanies(data[..i + 1]) == if IsAnchorRow(r) && Truthy(r.company) then cs + {r.company.value} else cs
  {
    assert data[..i + 1][..i] == data[..i];
  }

  /** Every anchor is the date of an anchor row with that key. */
  lemma {:induction false} AnchorFromRow(data: seq<LifecycleRow>, key: string)
    requires key in AnchorMap(data)
    ensures exists k :: 0 <= k < |data| && IsAnchorRow(data[k]) && KeyOf(data[k]) == key &&
                        data[k].bulletinDate.value == AnchorMap(data)[key]
    decreases |data|
  {
    var n := |data| - 1;
    var init := data[..n];
    var r := data[n];
    if AnchorMap(data) != AnchorMap(init) && KeyOf(r) == key {
      assert IsAnchorRow(data[n]) && data[n].bulletinDate.value == AnchorMap(data)[key];
    } else {
      AnchorFromRow(init, key);
      var k :| 0 <= k < |init| && IsAnchorRow(init[k]) && KeyOf(init[k]) == key &&
               init[k].bulletinDate.value == AnchorMap(init)[key];
      assert data[k] == init[k];
    }
  }

  /** Every anchor row has an anchor for its key, and the anchor is not after
      the row's date: the anchor is the earliest date of its key. */
  lemma {:induction false} AnchorBelowRow(data: seq<LifecycleRow>, k: nat)
    requires k < |data| && IsAnchorRow(data[k])
    ensures KeyOf(data[k]) in AnchorMap(data)
    ensures !LexLess(data[k].bulletinDate.value, AnchorMap(data)[KeyOf(data[k])])
    decreases |data|
  {
    var n := |data| - 1;
    var init := data[..n];
    var m := AnchorMap(init);
    var r := data[n];
    var updated := IsAnchorRow(r) && (KeyOf(r) !in m || LexLess(r.bulletinDate.value, m[KeyOf(r)]));
    if k == n {
      if updated {
        LexLessIrreflexive(r.bulletinDate.value);
      }
    } else {
      assert data[k] == init[k];
      AnchorBelowRow(init, k);
      if updated && KeyOf(r) == KeyOf(data[k]) {
        NotBelowTransitive(data[k].bulletinDate.value, r.bulletinDate.value, m[KeyOf(r)]);
      }
    }
  }

  /** A date at or above `p` is at or above any `d` below `p`. */
  lemma NotBelowTransitive(a: string, d: string, p: string)
    requires !LexLess(a, p) && LexLess(d, p)
    ensures !LexLess(a, d)
  {
    if LexLess(a, d) {
      LexLessTransitive(a, d, p);
    }
  }

  /** The companies are exactly the non-empty companies of the anchor rows. */
  lemma {:induction false} AnchorCompaniesAre(data: seq<LifecycleRow>)
    ensures forall c :: c in AnchorCompanies(data) <==>
              exists k :: 0 <= k < |data| && IsAnchorRow(data[k]) && data[k].company == Some(c) && c != ""
    decreases |data|
  {
    if data != [] {
      var n := |data| - 1;
      AnchorCompaniesAre(data[..n]);
      assert forall k :: 0 <= k < n ==> data[k] == data[..n][k];
    }
  }

  // ---------------------------------------------------------------------------
  // computeAnchorRange
  // ---------------------------------------------------------------------------

  /** `reduce((a, b) => (a < b ? a : b))` started at `acc`. */
  function ReduceMin(acc: string, rest: seq<string>): (m: string)
    ensures m == acc || m in rest
    decreases |rest|
  {
    if rest == [] then acc
    else ReduceMin(if LexLess(acc, rest[0]) then acc else rest[0], rest[1..])
  }

  /** `reduce((a, b) => (a > b ? a : b))` started at `acc`. */
  function ReduceMax(acc: string, rest: seq<string>): (m: string)
    ensures m == acc || m in rest
    decreases |rest|
  {
    if rest == [] then acc
    else ReduceMax(if LexLess(rest[0], acc) then acc else rest[0], rest[1..])
  }

  /** The minimum found by `ReduceMin` is below or equal to every element. */
  lemma {:induction false} ReduceMinIsLeast(acc: string, rest: seq<string>)
    ensures !LexLess(acc, ReduceMin(acc, rest))
    ensures forall v :: v in rest ==> !LexLess(v, ReduceMin(acc, rest))
    decreases |rest|
  {
    if rest == [] {
      LexLessIrreflexive(acc);
    } else {
      var next := if LexLess(acc, rest[0]) then acc else rest[0];
      ReduceMinIsLeast(next, rest[1..]);
      var m := ReduceMin(acc, rest);
      assert forall v :: v in rest ==> v == rest[0] || v in rest[1..];
      // acc and rest[0] are both at or above `next`, which is at or above m.
      LexLessTotal(acc, rest[0]);
      if LexLess(acc, rest[0]) {
        LexLessAsymmetric(acc, rest[0]);
        NotBelowByOrder(rest[0], acc, m);
      } else {
        NotBelowByOrder(acc, rest[0], m);
      }
    }
  }

  /** The maximum found by `ReduceMax` is above or equal to every element. */
  lemma {:induction false} ReduceMaxIsGreatest(acc: string, rest: seq<string>)
    ensures !LexLess(ReduceMax(acc, rest), acc)
    ensures forall v :: v in rest ==> !LexLess(ReduceMax(acc, rest), v)
    decreases |rest|
  {
    if rest == [] {
      LexLessIrreflexive(acc);
    } else {
      var next := if LexLess(rest[0], acc) then acc else rest[0];
      ReduceMaxIsGreatest(next, rest[1..]);
      var m := ReduceMax(acc, rest);
      assert forall v :: v in rest ==> v == rest[0] || v in rest[1..];
      LexLessTotal(acc, rest[0]);
      if LexLess(rest[0], acc) {
        LexLessAsymmetric(rest[0], acc);
        NotAboveByOrder(rest[0], acc, m);
      } else {
        NotAboveByOrder(acc, rest[0], m);
      }
    }
  }

  /** `b` not below `a` and `a` not below `m` give `b` not below `m`. */
  lemma NotBelowByOrder(b: string, a: string, m: string)
    requires !LexLess(b, a) && !LexLess(a, m)
    ensures !LexLess(b, m)
  {
    LexLessTotal(b, a);
    LexLessTotal(a, m);
    if LexLess(b, m) {
      if a != b && a != m {
        LexLessTransitive(a, b, m);
        LexLessAsymmetric(a, m);
      } else if a == m {
        LexLessAsymmetric(a, b);
      }
    }
  }

  /** `b` not above `a` and `a` not above `m` gives `b` not above `m`. */
  lemma NotAboveByOrder(b: string, a: string, m: string)
    requires !LexLess(a, b) && !LexLess(m, a)
    ensures !LexLess(m, b)
  {
    NotBelowByOrder(m, a, b);
  }

  datatype Range = Range(min: string, max: string)

  function NonBlank(): string -> bool { (s: string) => s != "" }

  /** `computeAnchorRange` on the map's values `dates` (in the map's iteration
      order): none when no value is non-empty, else the least and the greatest
      non-empty value. */
  function AnchorRange(dates: seq<string>): (r: Option<Range>)
    ensures r.None? <==> forall v :: v in dates ==> v == ""
    ensures r.Some? ==> r.value.min in dates && r.value.max in dates
    ensures r.Some? ==> r.value.min != "" && r.value.max != ""
  {
    var ds := Filter(dates, NonBlank());
    if ds == [] then None
    else
      assert ds[0] in ds;
      Some(Range(ReduceMin(ds[0], ds[1..]), ReduceMax(ds[0], ds[1..])))
  }

  /** Every non-empty value lies between the two ends of the range. */
  lemma AnchorRangeBounds(dates: seq<string>)
    requires AnchorRange(dates).Some?
    ensures var r := AnchorRange(dates).value;
            forall v :: v in dates && v != "" ==> !LexLess(v, r.min) && !LexLess(r.max, v)
  {
    var ds := Filter(dates, NonBlank());
    ReduceMinIsLeast(ds[0], ds[1..]);
    ReduceMaxIsGreatest(ds[0], ds[1..]);
    assert forall v :: v in ds ==> v == ds[0] || v in ds[1..];
  }

  /** The range depends only on which values occur, not on their order or
      repetition: the iteration order of the map does not matter. */
  lemma AnchorRangeOrderFree(d1: seq<string>, d2: seq<string>)
    requires forall v :: v in d1 <==> v in d2
    ensures AnchorRange(d1) == AnchorRange(d2)
  {
    if AnchorRange(d1).Some? {
      AnchorRangeBounds(d1);
      AnchorRangeBounds(d2);
      var r1, r2 := AnchorRange(d1).value, AnchorRange(d2).value;
      LexLessTotal(r1.min, r2.min);
      LexLessTotal(r1.max, r2.max);
    }
  }

  // ---------------------------------------------------------------------------
  // computeMinAnchorByCompany and the chunk minimum
  // ---------------------------------------------------------------------------

  /** The companies of a set of keys. */
  function CompaniesOf(keys: set<string>): set<string> {
    set k | k in keys :: KeyCompany(k)
  }

  /** `perCompany` holds, for the company of every key in `done`, the least
      anchor among the keys of `done` with that company. */
  predicate LeastPerCompany(anchors: map<string, string>, done: set<string>, perCompany: map<string, string>)
    requires done <= anchors.Keys
  {
    perCompany.Keys == CompaniesOf(done) &&
    (forall c :: c in perCompany ==> perCompany[c] != "") &&
    (forall k :: k in done ==> !LexLess(anchors[k], perCompany[KeyCompany(k)])) &&
    (forall c :: c in perCompany ==> exists k :: k in done && KeyCompany(k) == c && anchors[k] == perCompany[c])
  }

  /** One step of the loop: the key's date replaces the company's entry when
      there is none, it is empty, or the date is earlier. */
  function MinStep(perCompany: map<string, string>, company: string, d: string): map<string, string> {
    if company !in perCompany || perCompany[company] == "" || LexLess(d, perCompany[company])
    then perCompany[company := d]
    else perCompany
  }

  /** The step keeps `LeastPerCompany` for one more key. */
  lemma MinStepKeeps(anchors: map<string, string>, done: set<string>, perCompany: map<string, string>, k: string)
    requires done <= anchors.Keys && k in anchors && k !in done && anchors[k] != ""
    requires LeastPerCompany(anchors, done, perCompany)
    ensures LeastPerCompany(anchors, done + {k}, MinStep(perCompany, KeyCompany(k), anchors[k]))
  {
    CompaniesOfAdd(done, k);
    MinStepKeys(perCompany, KeyCompany(k), anchors[k]);
    MinStepLeast(anchors, done, perCompany, k);
    MinStepAttained(anchors, done, perCompany, k);
  }

  lemma CompaniesOfAdd(done: set<string>, k: string)
    ensures CompaniesOf(done + {k}) == CompaniesOf(done) + {KeyCompany(k)}
  {
  }

  lemma MinStepKeys(perCompany: map<string, string>, company: string, d: string)
    ensures MinStep(perCompany, company, d).Keys == perCompany.Keys + {company}
    ensures d != "" && (forall c :: c in perCompany ==> perCompany[c] != "") ==>
              forall c :: c in MinStep(perCompany, company, d) ==> MinStep(perCompany, company, d)[c] != ""
  {
  }

  lemma MinStepLeast(anchors: map<string, string>, done: set<string>, perCompany: map<string, string>, k: string)
    requires done <= anchors.Keys && k in anchors && k !in done && anchors[k] != ""
    requires LeastPerCompany(anchors, done, perCompany)
    ensures var next := MinStep(perCompany, KeyCompany(k), anchors[k]);
            forall j :: j in done + {k} ==> KeyCompany(j) in next && !LexLess(anchors[j], next[KeyCompany(j)])
  {
    var company, d := KeyCompany(k), anchors[k];
    var next := MinStep(perCompany, company, d);
    assert forall j :: j in done ==> KeyCompany(j) in CompaniesOf(done);
    if company !in perCompany || LexLess(d, perCompany[company]) {
      LexLessIrreflexive(d);
      forall j | j in done + {k}
        ensures KeyCompany(j) in next && !LexLess(anchors[j], next[KeyCompany(j)])
      {
        if j != k && KeyCompany(j) == company {
          NotBelowTransitive(anchors[j], d, perCompany[company]);
        }
      }
    } else {
      LexLessTotal(d, perCompany[company]);
      if d != perCompany[company] {
        LexLessAsymmetric(perCompany[company], d);
      } else {
        LexLessIrreflexive(d);
      }
    }
  }

  lemma MinStepAttained(anchors: map<string, string>, done: set<string>, perCompany: map<string, string>, k: string)
    requires done <= anchors.Keys && k in anchors && k !in done && anchors[k] != ""
    requires LeastPerCompany(anchors, done, perCompany)
    ensures var next := MinStep(perCompany, KeyCompany(k), anchors[k]);
            forall c :: c in next ==> exists j :: j in done + {k} && KeyCompany(j) == c && anchors[j] == next[c]
  {
    var next := MinStep(perCompany, KeyCompany(k), anchors[k]);
    forall c | c in next
      ensures exists j :: j in done + {k} && KeyCompany(j) == c && anchors[j] == next[c]
    {
      if c == KeyCompany(k) && next[c] == anchors[k] {
        assert k in done + {k};
      } else {
        var j :| j in done && KeyCompany(j) == c && anchors[j] == perCompany[c];
        assert j in done + {k};
      }
    }
  }

  /** `computeMinAnchorByCompany`: the loop over the anchor keys that keeps,
      for every company part, the least anchor date among its keys.  The
      anchors the page builds are never empty, which the loop's `!prev` test
      relies on. */
  method ComputeMinAnchorByCompany(anchors: map<string, string>) returns (perCompany: map<string, string>)
    requires forall k :: k in anchors ==> anchors[k] != ""
    ensures LeastPerCompany(anchors, anchors.Keys, perCompany)
  {
    perCompany := map[];
    var todo := anchors.Keys;
    assert CompaniesOf({}) == {};
    while todo != {}
      invariant todo <= anchors.Keys
      invariant LeastPerCompany(anchors, anchors.Keys - todo, perCompany)
      decreases |todo|
    {
      var k :| k in todo;
      var company := KeyCompany(k);
      var d := anchors[k];
      ghost var next := MinStep(perCompany, company, d);
      MinStepKeeps(anchors, anchors.Keys - todo, perCompany, k);
      var prev := if company in perCompany then perCompany[company] else "";
      if prev == "" || LexLess(d, prev) {
        perCompany := perCompany[company := d];
      }
      assert perCompany == next;
      TakeKey(anchors.Keys, todo, k);
      todo := todo - {k};
    }
    assert anchors.Keys - todo == anchors.Keys;
  }

  /** Moving the key `k` from the keys still to visit to the visited ones. */
  lemma TakeKey(all: set<string>, todo: set<string>, k: string)
    requires k in todo && todo <= all
    ensures all - (todo - {k}) == (all - todo) + {k}
    ensures |todo - {k}| < |todo|
  {
  }

  /** The chunk minimum after the companies `companies` in order, starting
      from "9999-12-31".  `perCompanyMin.get(c)!` is `undefined` for a
      company without an entry, and `undefined < chunkMin` is false, so such
      a company leaves the minimum as it is. */
  function ChunkMinOf(companies: seq<string>, perCompanyMin: map<string, string>): string
    decreases |companies|
  {
    if companies == [] then "9999-12-31"
    else
      var acc := ChunkMinOf(companies[..|companies| - 1], perCompanyMin);
      var c := companies[|companies| - 1];
      if c in perCompanyMin && LexLess(perCompanyMin[c], acc) then perCompanyMin[c] else acc
  }

  /** The chunk minimum is at or below "9999-12-31" and the entry of every
      company of the chunk that has one. */
  lemma {:induction false} ChunkMinIsLeast(companies: seq<string>, perCompanyMin: map<string, string>)
    ensures !LexLess("9999-12-31", ChunkMinOf(companies, perCompanyMin))
    ensures forall i :: 0 <= i < |companies| && companies[i] in perCompanyMin ==>
              !LexLess(perCompanyMin[companies[i]], ChunkMinOf(companies, perCompanyMin))
    decreases |companies|
  {
    if companies == [] {
      LexLessIrreflexive("9999-12-31");
    } else {
      var n := |companies| - 1;
      var init := companies[..n];
      ChunkMinIsLeast(init, perCompanyMin);
      var acc := ChunkMinOf(init, perCompanyMin);
      var c := companies[n];
      if c in perCompanyMin && LexLess(perCompanyMin[c], acc) {
        var d := perCompanyMin[c];
        LexLessIrreflexive(d);
        NotBelowTransitive("9999-12-31", d, acc);
        forall i | 0 <= i < n && companies[i] in perCompanyMin
          ensures !LexLess(perCompanyMin[companies[i]], d)
        {
          assert companies[i] == init[i];
          NotBelowTransitive(perCompanyMin[companies[i]], d, acc);
        }
      } else {
        forall i | 0 <= i < n && companies[i] in perCompanyMin
          ensures !LexLess(perCompanyMin[companies[i]], acc)
        {
          assert companies[i] == init[i];
        }
      }
    }
  }

  /** The chunk minimum is "9999-12-31" or the entry of a company of the
      chunk. */
  lemma {:induction false} ChunkMinAttained(companies: seq<string>, perCompanyMin: map<string, string>)
    ensures var m := ChunkMinOf(companies, perCompanyMin);
            m == "9999-12-31" ||
            exists i :: 0 <= i < |companies| && companies[i] in perCompanyMin && perCompanyMin[companies[i]] == m
    decreases |companies|
  {
    if companies != [] {
      var n := |companies| - 1;
      var init := companies[..n];
      ChunkMinAttained(init, perCompanyMin);
      var acc := ChunkMinOf(init, perCompanyMin);
      var c := companies[n];
      if !(c in perCompanyMin && LexLess(perCompanyMin[c], acc)) && acc != "9999-12-31" {
        var j :| 0 <= j < n && init[j] in perCompanyMin && perCompanyMin[init[j]] == acc;
        assert companies[j] == init[j];
      }
    }
  }

  /** The loop over one chunk of companies that computes `chunkMin`. */
  method ChunkMin(companies: seq<string>, perCompanyMin: map<string, string>) returns (chunkMin: string)
    ensures chunkMin == ChunkMinOf(companies, perCompanyMin)
    ensures !LexLess("9999-12-31", chunkMin)
    ensures forall i :: 0 <= i < |companies| && companies[i] in perCompanyMin ==>
              !LexLess(perCompanyMin[companies[i]], chunkMin)
    ensures chunkMin == "9999-12-31" ||
            exists i :: 0 <= i < |companies| && companies[i] in perCompanyMin && perCompanyMin[companies[i]] == chunkMin
  {
    chunkMin := "9999-12-31";
    for i := 0 to |companies|
      invariant chunkMin == ChunkMinOf(companies[..i], perCompanyMin)
    {
      assert companies[..i + 1][..i] == companies[..i];
      if companies[i] in perCompanyMin {
        var d := perCompanyMin[companies[i]];
        if LexLess(d, chunkMin) {
          chunkMin := d;
        }
      }
    }
    assert companies[..|companies|] == companies;
    ChunkMinIsLeast(companies, perCompanyMin);
    ChunkMinAttained(companies, perCompanyMin);
  }

  /** The company part of a key never starts with whitespace: the company is
      trimmed before the bar is added. */
  lemma KeyCompanyTrimmed(company: Option<string>, ticker: Option<string>)
    ensures var p := KeyCompany(KeyCT(company, ticker));
            p == [] || !IsSpace(p[0])
  {
    var s := Strip(company.GetOr(""));
    var k := KeyCT(company, ticker);
    if s != [] {
      assert k[0] == s[0];
    } else {
      assert k[0] == '|';
    }
  }

  /** As written, a company collected with leading whitespace is looked up
      untrimmed while the per-company minima are keyed by the trimmed company:
      it has no entry, and a chunk of that company alone queries from
      "9999-12-31" although its key has an anchor. */
  lemma UntrimmedCompanySkipped(data: seq<LifecycleRow>, perCompany: map<string, string>, k: nat)
    requires k < |data| && IsAnchorRow(data[k]) && Truthy(data[k].company)
    requires IsSpace(data[k].company.value[0])
    requires LeastPerCompany(AnchorMap(data), AnchorMap(data).Keys, perCompany)
    ensures data[k].company.value in AnchorCompanies(data)
    ensures KeyOf(data[k]) in AnchorMap(data)
    ensures data[k].company.value !in perCompany
    ensures ChunkMinOf([data[k].company.value], perCompany) == "9999-12-31"
  {
    var c := data[k].company.value;
    AnchorCompaniesAre(data);
    AnchorBelowRow(data, k);
    if c in perCompany {
      var key :| key in AnchorMap(data).Keys && KeyCompany(key) == c;
      AnchorFromRow(data, key);
      var j :| 0 <= j < |data| && IsAnchorRow(data[j]) && KeyOf(data[j]) == key &&
               data[j].bulletinDate.value == AnchorMap(data)[key];
      KeyCompanyTrimmed(data[j].company, data[j].ticker);
      assert false;
    }
    assert [c][..0] == [];
  }

  /** The company part a chunk company has in its keys,
      `keyCT(c, ticker).split("|")[0]`: the trimmed company up to its first
      bar, whatever the ticker. */
  function CompanyPart(c: string): string {
    KeyCompany(Strip(c) + "|")
  }

  /** The company part of a key does not depend on what follows the bar. */
  lemma {:induction false} KeyCompanyBarFree(a: string, b: string)
    ensures KeyCompany(a + "|" + b) == KeyCompany(a + "|")
  {
    if a != [] && a[0] != '|' {
      assert (a + "|" + b)[1..] == a[1..] + "|" + b;
      assert (a + "|")[1..] == a[1..] + "|";
      KeyCompanyBarFree(a[1..], b);
    }
  }

  /** The chunk minimum with every company looked up by its company part. */
  function ChunkMinKeyed(companies: seq<string>, perCompanyMin: map<string, string>): string {
    ChunkMinOf(seq(|companies|, i requires 0 <= i < |companies| => CompanyPart(companies[i])), perCompanyMin)
  }

  /** A date at or above `p` is at or above anything at or below `p`. */
  lemma NotBelowChain(a: string, p: string, m: string)
    requires !LexLess(a, p) && !LexLess(p, m)
    ensures !LexLess(a, m)
  {
    if LexLess(a, m) {
      LexLessTotal(a, p);
      if a != p {
        LexLessTransitive(p, a, m);
      }
    }
  }

  /** The anchor of an anchor row's key is at or below the row's date and at
      or above the entry of the key's company part. */
  lemma AnchorUnderPart(data: seq<LifecycleRow>, perCompany: map<string, string>, k: nat)
    requires LeastPerCompany(AnchorMap(data), AnchorMap(data).Keys, perCompany)
    requires k < |data| && IsAnchorRow(data[k])
    ensures KeyOf(data[k]) in AnchorMap(data) && KeyCompany(KeyOf(data[k])) in perCompany
    ensures !LexLess(data[k].bulletinDate.value, AnchorMap(data)[KeyOf(data[k])])
    ensures !LexLess(AnchorMap(data)[KeyOf(data[k])], perCompany[KeyCompany(KeyOf(data[k]))])
  {
    AnchorBelowRow(data, k);
    assert KeyOf(data[k]) in AnchorMap(data).Keys;
  }

  /** Looked up by company part, the chunk minimum is at or below the entry of
      every company of the chunk that has one. */
  lemma ChunkMinKeyedBelow(companies: seq<string>, perCompanyMin: map<string, string>, i: nat)
    requires i < |companies| && CompanyPart(companies[i]) in perCompanyMin
    ensures !LexLess(perCompanyMin[CompanyPart(companies[i])], ChunkMinKeyed(companies, perCompanyMin))
  {
    var parts := seq(|companies|, j requires 0 <= j < |companies| => CompanyPart(companies[j]));
    ChunkMinIsLeast(parts, perCompanyMin);
    assert parts[i] == CompanyPart(companies[i]);
  }

  /** Looked up by company part, every company of an anchor row has an entry,
      and the chunk minimum is at or below the anchor of the row's key and the
      row's own date: the chunk query `gte("bulletin_date", chunkMin)` keeps
      every row the post-anchor filter would keep for it. */
  lemma ChunkMinKeyedCovers(data: seq<LifecycleRow>, perCompany: map<string, string>, companies: seq<string>,
                            i: nat, k: nat)
    requires LeastPerCompany(AnchorMap(data), AnchorMap(data).Keys, perCompany)
    requires i < |companies| && k < |data| && IsAnchorRow(data[k]) && data[k].company == Some(companies[i])
    ensures CompanyPart(companies[i]) in perCompany
    ensures KeyOf(data[k]) in AnchorMap(data) &&
            !LexLess(AnchorMap(data)[KeyOf(data[k])], ChunkMinKeyed(companies, perCompany))
    ensures !LexLess(data[k].bulletinDate.value, ChunkMinKeyed(companies, perCompany))
  {
    var key := KeyOf(data[k]);
    AnchorUnderPart(data, perCompany, k);
    KeyCompanyBarFree(Strip(companies[i]), NormalizeTicker(data[k].ticker));
    assert KeyCompany(key) == CompanyPart(companies[i]);
    ChunkMinKeyedBelow(companies, perCompany, i);
    var m := ChunkMinKeyed(companies, perCompany);
    NotBelowChain(AnchorMap(data)[key], perCompany[CompanyPart(companies[i])], m);
    NotBelowChain(data[k].bulletinDate.value, AnchorMap(data)[key], m);
  }

  // ---------------------------------------------------------------------------
  // the post-anchor filter
  // ---------------------------------------------------------------------------

  /** What the post-anchor loop keeps: a row whose key has an anchor and whose
      date is present and not before that anchor. */
  function AfterAnchorKeeps(anchors: map<string, string>): LifecycleRow -> bool {
    (r: LifecycleRow) =>
      KeyOf(r) in anchors && anchors[KeyOf(r)] != "" && Truthy(r.bulletinDate) &&
      !LexLess(r.bulletinDate.value, anchors[KeyOf(r)])
  }

  /** The inner loop of `fetchTimelineAfterAnchor` over one chunk's rows:
      the kept rows are appended to `all` in their order. */
  method AppendAfterAnchor(all: seq<LifecycleRow>, data: seq<LifecycleRow>, anchors: map<string, string>)
    returns (out: seq<LifecycleRow>)
    ensures out == all + Filter(data, AfterAnchorKeeps(anchors))
  {
    var allowedKeys := anchors.Keys;
    out := all;
    for i := 0 to |data|
      invariant out == all + Filter(data[..i], AfterAnchorKeeps(anchors))
    {
      var r := data[i];
      AppendStep(all, data, i, anchors);
      var key := KeyOf(r);
      if key !in allowedKeys {
        continue;
      }
      var anchor := anchors[key];
      if anchor == "" || !Truthy(r.bulletinDate) || LexLess(r.bulletinDate.value, anchor) {
        continue;
      }
      out := out + [r];
    }
    assert data[..|data|] == data;
  }

  /** One row more: it is appended exactly when the filter keeps it. */
  lemma AppendStep(all: seq<LifecycleRow>, data: seq<LifecycleRow>, i: nat, anchors: map<string, string>)
    requires i < |data|
    ensures var r := data[i];
            all + Filter(data[..i + 1], AfterAnchorKeeps(anchors)) ==
              if KeyOf(r) in anchors && anchors[KeyOf(r)] != "" && Truthy(r.bulletinDate) &&
                 !LexLess(r.bulletinDate.value, anchors[KeyOf(r)])
              then all + Filter(data[..i], AfterAnchorKeeps(anchors)) + [r]
              else all + Filter(data[..i], AfterAnchorKeeps(anchors))
  {
    assert data[..i + 1] == data[..i] + [data[i]];
    FilterSnoc(data[..i], data[i], AfterAnchorKeeps(anchors));
  }

  /** Every CPC listing row that made an anchor survives the post-anchor
      filter: its date is at or after the anchor of its key. */
  lemma CpcRowsSurvive(anchorData: seq<LifecycleRow>, k: nat)
    requires k < |anchorData| && IsAnchorRow(anchorData[k])
    ensures AfterAnchorKeeps(AnchorMap(anchorData))(anchorData[k])
  {
    AnchorBelowRow(anchorData, k);
  }

  /** A row dated before its key's anchor is dropped, and so is a row whose
      key made no anchor. */
  lemma EarlierRowsDropped(anchors: map<string, string>, data: seq<LifecycleRow>, r: LifecycleRow)
    requires KeyOf(r) !in anchors || (Truthy(r.bulletinDate) && LexLess(r.bulletinDate.value, anchors[KeyOf(r)]))
    ensures r !in Filter(data, AfterAnchorKeeps(anchors))
  {
  }

  // ---------------------------------------------------------------------------
  // withBodyTextFilled
  // ---------------------------------------------------------------------------

  /** The map callback: a row with body text, or without a composite key, is
      returned as is; otherwise its body is the map's text for its key, or "". */
  function FillBody(r: LifecycleRow, m: map<string, string>): LifecycleRow {
    if Truthy(r.bodyText) || !Truthy(r.compositeKey) then r
    else r.(bodyText := Some(if r.compositeKey.value in m then m[r.compositeKey.value] else ""))
  }

  /** `withBodyTextFilled`: same length and order; only body texts change,
      and only those that were missing on rows with a composite key. */
  function WithBodyTextFilled(rows: seq<LifecycleRow>, m: map<string, string>): (r: seq<LifecycleRow>)
    ensures |r| == |rows|
    ensures forall i :: 0 <= i < |rows| ==> r[i].(bodyText := rows[i].bodyText) == rows[i]
    ensures forall i :: 0 <= i < |rows| && (Truthy(rows[i].bodyText) || !Truthy(rows[i].compositeKey)) ==> r[i] == rows[i]
    ensures forall i :: 0 <= i < |rows| && !Truthy(rows[i].bodyText) && Truthy(rows[i].compositeKey) ==>
              r[i].bodyText == Some(if rows[i].compositeKey.value in m then m[rows[i].compositeKey.value] else "")
  {
    seq(|rows|, i requires 0 <= i < |rows| => FillBody(rows[i], m))
  }

  /** Filling twice is filling once. */
  lemma WithBodyTextFilledIdempotent(rows: seq<LifecycleRow>, m: map<string, string>)
    ensures WithBodyTextFilled(WithBodyTextFilled(rows, m), m) == WithBodyTextFilled(rows, m)
  {
  }

  /** After filling, a row has body text when it had some or when the map has
      non-empty text for its key. */
  lemma FilledRowsHaveText(rows: seq<LifecycleRow>, m: map<string, string>, i: nat)
    requires i < |rows| && Truthy(rows[i].compositeKey)
    requires Truthy(rows[i].bodyText) || (rows[i].compositeKey.value in m && m[rows[i].compositeKey.value] != "")
    ensures Truthy(WithBodyTextFilled(rows, m)[i].bodyText)
  {
  }
}
