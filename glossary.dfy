/** The glossary page (`jrpedia/page.tsx`): dotted paths such as "1.2.10" order
    the entries, `buildTree` hangs each entry under the entry its parent path
    names, and the search box filters the entries before the tree is built.
    JavaScript's `localeCompare` is modelled as plain lexicographic order on
    the lower-cased text. */
module Glossary {
  import opened Wrappers
  import opened Text
  import opened Seqs

  /** A glossary row: the columns the page reads. */
  datatype GlossaryRow = GlossaryRow(
    id: int,
    term: string,
    pt: Option<string>,
    en: Option<string>,
    fr: Option<string>,
    path: Option<string>,
    parentPath: Option<string>,
    tags: Option<seq<string>>)

  // ---------------------------------------------------------------------------
  // parsePathSegments
  // ---------------------------------------------------------------------------

  /** A path segment: `Number(segment)` when that is a number, else the text. */
  datatype Segment = Num(n: nat) | Word(w: string)

  /** `path.split(/\./)`: the pieces between the dots, empty ones included. */
  function SplitDots(s: string): (parts: seq<string>)
    ensures |parts| >= 1
    ensures forall k :: 0 <= k < |parts| ==> '.' !in parts[k]
  {
    if s == [] then [""]
    else if s[0] == '.' then [""] + SplitDots(s[1..])
    else
      var rest := SplitDots(s[1..]);
      [[s[0]] + rest[0]] + rest[1..]
  }

  /** The pieces glued back with dots. */
  function JoinDots(parts: seq<string>): string
    requires |parts| >= 1
  {
    if |parts| == 1 then parts[0] else parts[0] + "." + JoinDots(parts[1..])
  }

  /** Splitting loses nothing: joining the pieces with dots gives the path back. */
  lemma {:induction false} SplitDotsJoin(s: string)
    ensures JoinDots(SplitDots(s)) == s
  {
    if s != [] {
      SplitDotsJoin(s[1..]);
      var rest := SplitDots(s[1..]);
      if s[0] == '.' {
        assert SplitDots(s)[1..] == rest;
      } else {
        var parts := SplitDots(s);
        assert parts[1..] == rest[1..];
        if |rest| > 1 {
          assert JoinDots(rest) == rest[0] + "." + JoinDots(rest[1..]);
        }
      }
      assert s == [s[0]] + s[1..];
    }
  }

  /** A path without dots is one piece. */
  lemma {:induction false} SplitNoDot(s: string)
    requires '.' !in s
    ensures SplitDots(s) == [s]
  {
    if s != [] {
      SplitNoDot(s[1..]);
      assert s == [s[0]] + s[1..];
    }
  }

  /** The piece before the first dot comes first. */
  lemma {:induction false} SplitAtDot(a: string, b: string)
    requires '.' !in a
    ensures SplitDots(a + "." + b) == [a] + SplitDots(b)
  {
    if a == [] {
      assert a + "." + b == ['.'] + b;
      assert (['.'] + b)[1..] == b;
    } else {
      assert (a + "." + b)[1..] == a[1..] + "." + b;
      SplitAtDot(a[1..], b);
      assert a == [a[0]] + a[1..];
    }
  }

  /** The segments the model reads as numbers: runs of decimal digits, which
      JavaScript's `Number` reads as their value.  `Number` also reads signs,
      fractions, exponents, "0x", "0b" and "0o" prefixes and "Infinity" as
      numbers; the model keeps those segments as text. */
  predicate AllDigits(t: string) { t != [] && forall k :: 0 <= k < |t| ==> IsDigit(t[k]) }

  function ToSegment(t: string): Segment {
    if AllDigits(t) then Num(DigitsValue(t)) else Word(t)
  }

  /** `.map(segment => segment.trim())`. */
  function Trimmed(parts: seq<string>): (r: seq<string>)
    ensures |r| == |parts| && forall k :: 0 <= k < |parts| ==> r[k] == Strip(parts[k])
  {
    seq(|parts|, k requires 0 <= k < |parts| => Strip(parts[k]))
  }

  function Segments(ts: seq<string>): (r: seq<Segment>)
    ensures |r| == |ts| && forall k :: 0 <= k < |ts| ==> r[k] == ToSegment(ts[k])
  {
    seq(|ts|, k requires 0 <= k < |ts| => ToSegment(ts[k]))
  }

  function NonEmpty(): string -> bool { (t: string) => |t| > 0 }

  /** `parsePathSegments`: the trimmed, non-empty pieces between the dots;
      digit runs become numbers. */
  function ParsePathSegments(path: string): (segs: seq<Segment>)
    ensures |segs| <= |SplitDots(path)|
  {
    Segments(Filter(Trimmed(SplitDots(path)), NonEmpty()))
  }

  /** A textual segment is never empty, never contains a dot and has no
      whitespace at either end; a numeric one came from a digit run. */
  lemma SegmentShape(path: string, k: nat)
    requires k < |ParsePathSegments(path)|
    ensures var g := ParsePathSegments(path)[k];
            g.Word? ==> g.w != "" && '.' !in g.w && !IsSpace(g.w[0]) && !IsSpace(g.w[|g.w| - 1])
  {
    var parts := SplitDots(path);
    var kept := Filter(Trimmed(parts), NonEmpty());
    KeptShape(parts, k);
    assert ParsePathSegments(path)[k] == ToSegment(kept[k]);
  }

  /** Every kept piece of dot-free parts is non-empty, dot-free and trimmed. */
  lemma KeptShape(parts: seq<string>, k: nat)
    requires forall j :: 0 <= j < |parts| ==> '.' !in parts[j]
    requires k < |Filter(Trimmed(parts), NonEmpty())|
    ensures var t := Filter(Trimmed(parts), NonEmpty())[k];
            t != [] && '.' !in t && !IsSpace(t[0]) && !IsSpace(t[|t| - 1])
  {
    var trimmed := Trimmed(parts);
    var t := Filter(trimmed, NonEmpty())[k];
    assert t in trimmed && NonEmpty()(t);
    var j :| 0 <= j < |parts| && trimmed[j] == t;
    PieceShape(parts[j]);
  }

  /** A trimmed piece has no whitespace at its ends and no dot when the piece
      had none. */
  lemma PieceShape(piece: string)
    requires '.' !in piece
    ensures var t := Strip(piece); '.' !in t && (t == [] || (!IsSpace(t[0]) && !IsSpace(t[|t| - 1])))
  {
  }

  /** The values of the numerals used in the examples below. */
  lemma SmallNumerals()
    ensures DigitsValue("1") == 1 && DigitsValue("2") == 2 && DigitsValue("10") == 10
    ensures AllDigits("1") && AllDigits("2") && AllDigits("10")
  {
    assert "1"[..0] == "" && "2"[..0] == "";
    assert "10"[..1] == "1";
  }

  /** Empty pieces are dropped: "1..2" has the two segments 1 and 2. */
  lemma DoubleDotDropsEmpty()
    ensures ParsePathSegments("1..2") == [Num(1), Num(2)]
  {
    assert "1..2" == "1" + ".." + "2";
    SmallNumerals();
    EmptyPieceDropped("1", "2");
  }

  /** The empty piece between two dots is dropped: "a..b" has the same
      segments as "a.b". */
  lemma EmptyPieceDropped(a: string, b: string)
    requires AllDigits(a) && AllDigits(b)
    ensures ParsePathSegments(a + ".." + b) == [Num(DigitsValue(a)), Num(DigitsValue(b))]
  {
    SplitDoubleDot(a, b);
    KeptAroundEmpty(a, b);
    TwoSegments(a, b);
  }

  lemma TwoSegments(a: string, b: string)
    requires AllDigits(a) && AllDigits(b)
    ensures Segments([a, b]) == [Num(DigitsValue(a)), Num(DigitsValue(b))]
  {
    var r := Segments([a, b]);
    assert r[0] == ToSegment(a) == Num(DigitsValue(a));
    assert r[1] == ToSegment(b) == Num(DigitsValue(b));
  }

  lemma SplitDoubleDot(a: string, b: string)
    requires AllDigits(a) && AllDigits(b)
    ensures SplitDots(a + ".." + b) == [a, "", b]
  {
    assert '.' !in a && '.' !in b;
    assert a + ".." + b == a + "." + ("" + "." + b);
    SplitNoDot(b);
    SplitAtDot("", b);
    SplitAtDot(a, "" + "." + b);
  }

  lemma KeptAroundEmpty(a: string, b: string)
    requires AllDigits(a) && AllDigits(b)
    ensures Filter(Trimmed([a, "", b]), NonEmpty()) == [a, b]
  {
    var parts := [a, "", b];
    DigitsUnstripped(a);
    StripIdentity("");
    DigitsUnstripped(b);
    assert Trimmed(parts) == parts;
    var p := NonEmpty();
    assert p(a) && !p("") && p(b);
    assert [b][1..] == [];
    assert Filter([b], p) == [b];
    assert ["", b][1..] == [b];
    assert Filter(["", b], p) == [b];
    assert parts[1..] == ["", b];
    assert Filter(parts, p) == [a] + [b];
  }

  /** A numeral has no whitespace to strip. */
  lemma DigitsUnstripped(t: string)
    requires AllDigits(t)
    ensures Strip(t) == t
  {
    assert IsDigit(t[0]) && IsDigit(t[|t| - 1]);
    StripIdentity(t);
  }

  /** The segments of a two-number path "a.b" whose numerals have no dots or
      spaces. */
  lemma TwoNumbers(a: string, b: string)
    requires AllDigits(a) && AllDigits(b)
    ensures ParsePathSegments(a + "." + b) == [Num(DigitsValue(a)), Num(DigitsValue(b))]
  {
    TwoPieces(a, b);
    CleanPieces([a, b]);
    Kept([a, b]);
  }

  lemma TwoPieces(a: string, b: string)
    requires AllDigits(a) && AllDigits(b)
    ensures SplitDots(a + "." + b) == [a, b]
  {
    assert '.' !in a && '.' !in b;
    SplitNoDot(b);
    SplitAtDot(a, b);
  }

  lemma CleanPieces(parts: seq<string>)
    requires forall k :: 0 <= k < |parts| ==> AllDigits(parts[k])
    ensures Trimmed(parts) == parts
  {
    forall k | 0 <= k < |parts| ensures Strip(parts[k]) == parts[k] {
      StripIdentity(parts[k]);
    }
  }

  lemma Kept(parts: seq<string>)
    requires forall k :: 0 <= k < |parts| ==> AllDigits(parts[k])
    ensures Segments(Filter(parts, NonEmpty())) == seq(|parts|, k requires 0 <= k < |parts| => Num(DigitsValue(parts[k])))
  {
    FilterAll(parts, NonEmpty());
  }

  /** The single segment of a path without dots and spaces at its ends. */
  lemma OneSegment(a: string)
    requires a != [] && '.' !in a && !IsSpace(a[0]) && !IsSpace(a[|a| - 1])
    ensures ParsePathSegments(a) == [ToSegment(a)]
  {
    SplitNoDot(a);
    StripIdentity(a);
    var t := Trimmed([a]);
    assert t == [a];
    assert [a][1..] == [];
    var kept := Filter(t, NonEmpty());
    assert kept == [a];
    assert Segments(kept) == [ToSegment(a)];
  }

  // ---------------------------------------------------------------------------
  // comparePaths
  // ---------------------------------------------------------------------------

  /** `String(seg).toLowerCase()`. */
  function SegText(s: Segment): string {
    match s
    case Num(n) => NatToString(n)
    case Word(w) => Lower(w)
  }

  /** The segment-by-segment comparison of the loop in `comparePaths`: numbers
      compare by value (the difference is returned), other pairs by their
      lower-cased text, and a path that runs out first comes first. */
  function SegmentOrder(x: seq<Segment>, y: seq<Segment>): (r: int)
    ensures x == y ==> r == 0
    ensures x == [] && y != [] ==> r < 0
    ensures x != [] && y == [] ==> r > 0
    decreases |x|
  {
    if x == [] && y == [] then 0
    else if x == [] then -1
    else if y == [] then 1
    else if x[0].Num? && y[0].Num? && x[0].n != y[0].n then x[0].n - y[0].n
    else if x[0].Num? && y[0].Num? then SegmentOrder(x[1..], y[1..])
    else if SegText(x[0]) != SegText(y[0]) then LexCompare(SegText(x[0]), SegText(y[0]))
    else SegmentOrder(x[1..], y[1..])
  }

  /** The value `comparePaths(a, b)` returns: two absent paths tie, an absent
      path sorts after a present one, and otherwise the segments decide. */
  function PathOrder(a: Option<string>, b: Option<string>): (r: int)
    ensures !Truthy(a) && !Truthy(b) ==> r == 0
    ensures !Truthy(a) && Truthy(b) ==> r == 1
    ensures Truthy(a) && !Truthy(b) ==> r == -1
  {
    if !Truthy(a) && !Truthy(b) then 0
    else if !Truthy(a) then 1
    else if !Truthy(b) then -1
    else SegmentOrder(ParsePathSegments(a.value), ParsePathSegments(b.value))
  }

  /** One step of the loop of `comparePaths` at position `i`. */
  lemma OrderStep(x: seq<Segment>, y: seq<Segment>, i: nat)
    requires i < |x| && i < |y|
    ensures SegmentOrder(x[i..], y[i..]) ==
              if x[i].Num? && y[i].Num? && x[i].n != y[i].n then x[i].n - y[i].n
              else if !(x[i].Num? && y[i].Num?) && SegText(x[i]) != SegText(y[i]) then LexCompare(SegText(x[i]), SegText(y[i]))
              else SegmentOrder(x[i + 1..], y[i + 1..])
  {
    assert x[i..][1..] == x[i + 1..] && y[i..][1..] == y[i + 1..];
  }

  /** `comparePaths`: the indexed loop over the longer segment list. */
  method ComparePaths(a: Option<string>, b: Option<string>) returns (r: int)
    ensures r == PathOrder(a, b)
  {
    if !Truthy(a) && !Truthy(b) {
      return 0;
    }
    if !Truthy(a) {
      return 1;
    }
    if !Truthy(b) {
      return -1;
    }
    var segmentsA := ParsePathSegments(a.value);
    var segmentsB := ParsePathSegments(b.value);
    ghost var whole := SegmentOrder(segmentsA, segmentsB);
    assert whole == PathOrder(a, b);
    var length := if |segmentsA| < |segmentsB| then |segmentsB| else |segmentsA|;
    var index := 0;
    while index < length
      invariant index <= |segmentsA| && index <= |segmentsB|
      invariant SegmentOrder(segmentsA[index..], segmentsB[index..]) == whole
      decreases length - index
    {
      if index == |segmentsA| {
        return -1;
      }
      if index == |segmentsB| {
        return 1;
      }
      var segA := segmentsA[index];
      var segB := segmentsB[index];
      OrderStep(segmentsA, segmentsB, index);
      if segA.Num? && segB.Num? {
        if segA.n != segB.n {
          return segA.n - segB.n;
        }
      } else {
        var stringA := SegText(segA);
        var stringB := SegText(segB);
        if stringA != stringB {
          return LexCompare(stringA, stringB);
        }
      }
      index := index + 1;
    }
    return 0;
  }

  /** A path every segment of which starts another path sorts before it
      ("1.1" before "1.1.1"). */
  lemma {:induction false} PrefixFirst(x: seq<Segment>, y: seq<Segment>)
    requires |x| < |y| && x == y[..|x|]
    ensures SegmentOrder(x, y) < 0
  {
    if x != [] {
      assert y[1..][..|x| - 1] == x[1..];
      PrefixFirst(x[1..], y[1..]);
    }
  }

  /** Every path ties with itself. */
  lemma {:induction false} SegmentOrderReflexive(x: seq<Segment>)
    ensures SegmentOrder(x, x) == 0
  {
    if x != [] { SegmentOrderReflexive(x[1..]); }
  }

  function Sign(n: int): int { if n < 0 then -1 else if n > 0 then 1 else 0 }

  /** Swapping the paths flips the sign of the comparison. */
  lemma {:induction false} SegmentOrderAntisymmetric(x: seq<Segment>, y: seq<Segment>)
    ensures Sign(SegmentOrder(x, y)) == -Sign(SegmentOrder(y, x))
    decreases |x|
  {
    if x != [] && y != [] {
      if !(x[0].Num? && y[0].Num?) && SegText(x[0]) != SegText(y[0]) {
        LexLessTotal(SegText(x[0]), SegText(y[0]));
        if LexLess(SegText(x[0]), SegText(y[0])) {
          LexLessAsymmetric(SegText(x[0]), SegText(y[0]));
        }
      } else {
        SegmentOrderAntisymmetric(x[1..], y[1..]);
      }
    }
  }

  /** `comparePaths` is antisymmetric on all inputs. */
  lemma PathOrderAntisymmetric(a: Option<string>, b: Option<string>)
    ensures Sign(PathOrder(a, b)) == -Sign(PathOrder(b, a))
  {
    if Truthy(a) && Truthy(b) {
      SegmentOrderAntisymmetric(ParsePathSegments(a.value), ParsePathSegments(b.value));
    }
  }

  /** Numeric segments compare by value, not by text: "a.b" sorts before
      "a.c" when the number b is smaller than c. */
  lemma NumericSegments(a: string, b: string, c: string)
    requires AllDigits(a) && AllDigits(b) && AllDigits(c)
    requires DigitsValue(b) < DigitsValue(c)
    ensures PathOrder(Some(a + "." + b), Some(a + "." + c)) < 0
  {
    TwoNumbers(a, b);
    TwoNumbers(a, c);
    PairOrder(DigitsValue(a), DigitsValue(b), DigitsValue(c));
  }

  lemma PairOrder(p: nat, q: nat, r: nat)
    requires q < r
    ensures SegmentOrder([Num(p), Num(q)], [Num(p), Num(r)]) < 0
  {
    assert [Num(p), Num(q)][1..] == [Num(q)] && [Num(p), Num(r)][1..] == [Num(r)];
  }

  /** "1.2" sorts before "1.10". */
  lemma TwoBeforeTen()
    ensures PathOrder(Some("1.2"), Some("1.10")) < 0
  {
    SmallNumerals();
    assert "1.2" == "1" + "." + "2" && "1.10" == "1" + "." + "10";
    NumericSegments("1", "2", "10");
  }

  /** Single segments that are not both numbers compare by their text. */
  lemma SingleTextOrder(x: Segment, y: Segment)
    requires !(x.Num? && y.Num?) && LexLess(SegText(x), SegText(y))
    ensures SegmentOrder([x], [y]) < 0
  {
    LexLessIrreflexive(SegText(x));
  }

  /** The texts of the segments in the cycle below. */
  lemma CycleTexts()
    ensures SegText(Num(10)) == "10" && SegText(Num(2)) == "2" && SegText(Word("1a")) == "1a"
    ensures LexLess("10", "1a") && LexLess("1a", "2")
  {
    assert NatToString(1) == "1" && NatToString(0) == "0";
    assert Lower("1a") == [ToLower('1')] + Lower("a");
  }

  /** Mixing numeric and textual comparison makes the order cyclic:
      "2" < "10" by value, "10" < "1a" and "1a" < "2" by text.  The sort of
      `buildTree` is therefore given a comparator that is not a total order. */
  lemma PathOrderNotTransitive()
    ensures PathOrder(Some("2"), Some("10")) < 0
    ensures PathOrder(Some("10"), Some("1a")) < 0
    ensures PathOrder(Some("1a"), Some("2")) < 0
  {
    TwoBeforeTenPath();
    TenBeforeWordPath();
    WordBeforeTwoPath();
  }

  lemma TwoBeforeTenPath()
    ensures PathOrder(Some("2"), Some("10")) < 0
  {
    SmallNumerals();
    OneSegment("2");
    OneSegment("10");
    TwoBeforeTenSingle();
  }

  lemma TenBeforeWordPath()
    ensures PathOrder(Some("10"), Some("1a")) < 0
  {
    SmallNumerals();
    OneSegment("10");
    OneSegment("1a");
    WordSegment();
    CycleTexts();
    SingleTextOrder(Num(10), Word("1a"));
  }

  lemma WordBeforeTwoPath()
    ensures PathOrder(Some("1a"), Some("2")) < 0
  {
    SmallNumerals();
    OneSegment("2");
    OneSegment("1a");
    WordSegment();
    CycleTexts();
    SingleTextOrder(Word("1a"), Num(2));
  }

  /** "1a" is a textual segment. */
  lemma WordSegment()
    ensures ToSegment("1a") == Word("1a")
  {
    assert !AllDigits("1a") by { assert !IsDigit("1a"[1]); }
  }

  /** The single numbers 2 and 10 compare by value. */
  lemma TwoBeforeTenSingle()
    ensures SegmentOrder([Num(2)], [Num(10)]) < 0
  {
  }

  // ---------------------------------------------------------------------------
  // buildTree
  // ---------------------------------------------------------------------------

  /** `nodesByPath` after the first loop: each non-empty path maps to the last
      row that has it (a later `set` replaces the earlier node). */
  function PathIndex(rows: seq<GlossaryRow>): (m: map<string, nat>)
    ensures forall p :: p in m ==> m[p] < |rows| && rows[m[p]].path == Some(p) && p != ""
    ensures forall k :: 0 <= k < |rows| && Truthy(rows[k].path) ==> rows[k].path.value in m && k <= m[rows[k].path.value]
  {
    if rows == [] then map[]
    else
      var m := PathIndex(rows[..|rows| - 1]);
      var last := rows[|rows| - 1];
      if Truthy(last.path) then m[last.path.value := |rows| - 1] else m
  }

  /** The keys of `nodesByPath` in the order a JavaScript `Map` iterates them:
      the order in which each path was first set. */
  function KeyOrder(rows: seq<GlossaryRow>): (ks: seq<string>)
    ensures forall i :: 0 <= i < |ks| ==> ks[i] in PathIndex(rows)
    ensures forall p :: p in PathIndex(rows) ==> p in ks
    ensures forall i, j :: 0 <= i < j < |ks| ==> ks[i] != ks[j]
  {
    if rows == [] then []
    else
      var ks := KeyOrder(rows[..|rows| - 1]);
      var last := rows[|rows| - 1];
      if Truthy(last.path) && last.path.value !in ks then ks + [last.path.value] else ks
  }

  /** The rows of the map's nodes, in iteration order. */
  function Nodes(rows: seq<GlossaryRow>): (ns: seq<nat>)
    ensures |ns| == |KeyOrder(rows)|
    ensures forall i :: 0 <= i < |ns| ==> ns[i] == PathIndex(rows)[KeyOrder(rows)[i]]
  {
    var ks := KeyOrder(rows);
    seq(|ks|, i requires 0 <= i < |ks| => PathIndex(rows)[ks[i]])
  }

  /** `looseNodes`: the rows without a path, in order. */
  function Loose(rows: seq<GlossaryRow>): (ls: seq<nat>)
    ensures forall k :: k in ls <==> 0 <= k < |rows| && !Truthy(rows[k].path)
  {
    if rows == [] then []
    else
      var ls := Loose(rows[..|rows| - 1]);
      assert forall k :: 0 <= k < |rows| - 1 ==> rows[..|rows| - 1][k] == rows[k];
      if Truthy(rows[|rows| - 1].path) then ls else ls + [|rows| - 1]
  }

  /** The node of row `n` goes under the node that `idx` (the map of
      `buildTree`) gives for its parent path. */
  predicate AttachedTo(rows: seq<GlossaryRow>, idx: map<string, nat>, n: nat, p: nat) {
    n < |rows| && Truthy(rows[n].parentPath) && rows[n].parentPath.value in idx && idx[rows[n].parentPath.value] == p
  }

  predicate Attached(rows: seq<GlossaryRow>, idx: map<string, nat>, n: nat) {
    n < |rows| && Truthy(rows[n].parentPath) && rows[n].parentPath.value in idx
  }

  function Unattached(rows: seq<GlossaryRow>, idx: map<string, nat>): nat -> bool {
    (n: nat) => !Attached(rows, idx, n)
  }

  function ChildOf(rows: seq<GlossaryRow>, idx: map<string, nat>, p: nat): nat -> bool {
    (n: nat) => AttachedTo(rows, idx, n, p)
  }

  /** The map, its key order and the loose rows after one more row. */
  lemma IndexStep(rows: seq<GlossaryRow>, k: nat)
    requires k < |rows|
    ensures var r, m := rows[k], PathIndex(rows[..k]);
            PathIndex(rows[..k + 1]) == if Truthy(r.path) then m[r.path.value := k] else m
    ensures var r, ks := rows[k], KeyOrder(rows[..k]);
            KeyOrder(rows[..k + 1]) == if Truthy(r.path) && r.path.value !in PathIndex(rows[..k]) then ks + [r.path.value] else ks
    ensures Loose(rows[..k + 1]) == if Truthy(rows[k].path) then Loose(rows[..k]) else Loose(rows[..k]) + [k]
  {
    assert rows[..k + 1][..k] == rows[..k];
  }

  /** The first loop of `buildTree`: one node per path (the last row with it
      wins), the paths in first-insertion order, and the loose rows. */
  method IndexPaths(rows: seq<GlossaryRow>) returns (nodesByPath: map<string, nat>, order: seq<string>, looseNodes: seq<nat>)
    ensures nodesByPath == PathIndex(rows) && order == KeyOrder(rows) && looseNodes == Loose(rows)
  {
    nodesByPath := map[];
    order := [];
    looseNodes := [];
    var k := 0;
    while k < |rows|
      invariant k <= |rows|
      invariant nodesByPath == PathIndex(rows[..k])
      invariant order == KeyOrder(rows[..k])
      invariant looseNodes == Loose(rows[..k])
    {
      var row := rows[k];
      IndexStep(rows, k);
      if Truthy(row.path) {
        var path := row.path.value;
        if path !in nodesByPath {
          order := order + [path];
        }
        nodesByPath := nodesByPath[path := k];
      } else {
        looseNodes := looseNodes + [k];
      }
      k := k + 1;
    }
    assert rows[..k] == rows;
  }

  /** The roots once the nodes `done` have been placed on top of `loose`. */
  function RootsAfter(rows: seq<GlossaryRow>, idx: map<string, nat>, loose: seq<nat>, done: seq<nat>): seq<nat> {
    loose + Filter(done, Unattached(rows, idx))
  }

  /** The children lists once the nodes `done` have been placed. */
  function ChildrenAfter(rows: seq<GlossaryRow>, idx: map<string, nat>, done: seq<nat>): (cs: seq<seq<nat>>)
    ensures |cs| == |rows|
    ensures forall p :: 0 <= p < |rows| ==> cs[p] == Filter(done, ChildOf(rows, idx, p))
  {
    seq(|rows|, p requires 0 <= p < |rows| => Filter(done, ChildOf(rows, idx, p)))
  }

  /** Placing a node whose parent path names a node appends it to that
      node's children and leaves the roots alone. */
  lemma AttachChild(rows: seq<GlossaryRow>, idx: map<string, nat>, loose: seq<nat>, ns: seq<nat>, i: nat, parent: nat)
    requires i < |ns| && AttachedTo(rows, idx, ns[i], parent) && parent < |rows|
    ensures RootsAfter(rows, idx, loose, ns[..i + 1]) == RootsAfter(rows, idx, loose, ns[..i])
    ensures ChildrenAfter(rows, idx, ns[..i + 1]) ==
              ChildrenAfter(rows, idx, ns[..i])[parent := ChildrenAfter(rows, idx, ns[..i])[parent] + [ns[i]]]
  {
    var done, node := ns[..i], ns[i];
    assert ns[..i + 1] == done + [node];
    FilterSnoc(done, node, Unattached(rows, idx));
    forall p | 0 <= p < |rows|
      ensures Filter(done + [node], ChildOf(rows, idx, p)) ==
                Filter(done, ChildOf(rows, idx, p)) + (if p == parent then [node] else [])
    {
      FilterSnoc(done, node, ChildOf(rows, idx, p));
    }
    var before, after := ChildrenAfter(rows, idx, done), ChildrenAfter(rows, idx, done + [node]);
    forall p | 0 <= p < |rows|
      ensures after[p] == before[parent := before[parent] + [node]][p]
    {
      if p != parent {
        assert after[p] == before[p] + [];
      }
    }
  }

  /** Placing a node whose parent path names no node makes it a root. */
  lemma AttachRoot(rows: seq<GlossaryRow>, idx: map<string, nat>, loose: seq<nat>, ns: seq<nat>, i: nat)
    requires i < |ns| && ns[i] < |rows| && !Attached(rows, idx, ns[i])
    ensures RootsAfter(rows, idx, loose, ns[..i + 1]) == RootsAfter(rows, idx, loose, ns[..i]) + [ns[i]]
    ensures ChildrenAfter(rows, idx, ns[..i + 1]) == ChildrenAfter(rows, idx, ns[..i])
  {
    var done, node := ns[..i], ns[i];
    assert ns[..i + 1] == done + [node];
    FilterSnoc(done, node, Unattached(rows, idx));
    AppendAssoc(loose, Filter(done, Unattached(rows, idx)), [node]);
    forall p | 0 <= p < |rows|
      ensures Filter(done + [node], ChildOf(rows, idx, p)) == Filter(done, ChildOf(rows, idx, p))
    {
      FilterSnoc(done, node, ChildOf(rows, idx, p));
    }
  }

  /** The second loop of `buildTree`: each node of the map, in iteration order,
      is pushed onto its parent's children when its parent path names a node,
      and onto the roots (which start as the loose nodes) otherwise. */
  method AttachAll(rows: seq<GlossaryRow>, nodesByPath: map<string, nat>, ns: seq<nat>, looseNodes: seq<nat>)
    returns (roots: seq<nat>, children: seq<seq<nat>>)
    requires forall j :: 0 <= j < |ns| ==> ns[j] < |rows|
    requires forall p :: p in nodesByPath ==> nodesByPath[p] < |rows|
    ensures roots == RootsAfter(rows, nodesByPath, looseNodes, ns)
    ensures children == ChildrenAfter(rows, nodesByPath, ns)
  {
    roots := looseNodes;
    children := seq(|rows|, _ => []);
    assert ns[..0] == [];
    assert children == ChildrenAfter(rows, nodesByPath, []);
    var i := 0;
    while i < |ns|
      invariant i <= |ns|
      invariant roots == RootsAfter(rows, nodesByPath, looseNodes, ns[..i])
      invariant children == ChildrenAfter(rows, nodesByPath, ns[..i])
    {
      var node := ns[i];
      var parentPath := rows[node].parentPath;
      if Truthy(parentPath) && parentPath.value in nodesByPath {
        var parent := nodesByPath[parentPath.value];
        AttachChild(rows, nodesByPath, looseNodes, ns, i, parent);
        children := children[parent := children[parent] + [node]];
      } else {
        AttachRoot(rows, nodesByPath, looseNodes, ns, i);
        roots := roots + [node];
      }
      i := i + 1;
    }
    assert ns[..i] == ns;
  }

  /** `buildTree` up to the sort: the roots (loose rows first, then every node
      whose parent path names no node) and, for every row, the rows hung
      under it.  The children lists are shared node objects in the source;
      here they are lists of row positions. */
  method BuildTree(rows: seq<GlossaryRow>) returns (roots: seq<nat>, children: seq<seq<nat>>)
    ensures roots == Loose(rows) + Filter(Nodes(rows), Unattached(rows, PathIndex(rows)))
    ensures |children| == |rows|
    ensures forall p :: 0 <= p < |rows| ==> children[p] == Filter(Nodes(rows), ChildOf(rows, PathIndex(rows), p))
  {
    var nodesByPath, order, looseNodes := IndexPaths(rows);
    NodesFollowOrder(rows, nodesByPath, order);
    var ns := seq(|order|, j requires 0 <= j < |order| => nodesByPath[order[j]]);
    assert ns == Nodes(rows);
    roots, children := AttachAll(rows, nodesByPath, ns, looseNodes);
  }

  /** The node list follows the key order through the path index. */
  lemma NodesFollowOrder(rows: seq<GlossaryRow>, idx: map<string, nat>, order: seq<string>)
    requires idx == PathIndex(rows) && order == KeyOrder(rows)
    ensures |Nodes(rows)| == |order|
    ensures forall j :: 0 <= j < |order| ==> order[j] in idx && Nodes(rows)[j] == idx[order[j]]
  {
  }

  /** A row without a path is a root. */
  lemma LooseRowIsRoot(rows: seq<GlossaryRow>, k: nat)
    requires k < |rows| && !Truthy(rows[k].path)
    ensures k in Loose(rows) + Filter(Nodes(rows), Unattached(rows, PathIndex(rows)))
  {
  }

  /** The node of a path goes under the node its parent path names when there
      is one, and is a root otherwise. */
  lemma PathRowPlacement(rows: seq<GlossaryRow>, p: string)
    requires p in PathIndex(rows)
    ensures var n := PathIndex(rows)[p];
            if Attached(rows, PathIndex(rows), n)
            then n in Filter(Nodes(rows), ChildOf(rows, PathIndex(rows), PathIndex(rows)[rows[n].parentPath.value]))
            else n in Loose(rows) + Filter(Nodes(rows), Unattached(rows, PathIndex(rows)))
  {
    var ks := KeyOrder(rows);
    var i :| 0 <= i < |ks| && ks[i] == p;
    assert Nodes(rows)[i] == PathIndex(rows)[p];
  }

  /** A row whose path reappears later is in no list at all: only the last row
      with a given path makes it into the tree. */
  lemma RepeatedPathDropped(rows: seq<GlossaryRow>, k: nat, p: nat)
    requires k < |rows| && Truthy(rows[k].path) && PathIndex(rows)[rows[k].path.value] != k
    ensures k !in Loose(rows) + Filter(Nodes(rows), Unattached(rows, PathIndex(rows)))
    ensures k !in Filter(Nodes(rows), ChildOf(rows, PathIndex(rows), p))
  {
    assert k !in Nodes(rows);
  }

  /** A row whose parent path is its own path is hung under itself: the tree
      has a cycle, and the recursive `sortNodes` never finishes on it. */
  lemma SelfParentIsOwnChild(rows: seq<GlossaryRow>, k: nat)
    requires k < |rows| && Truthy(rows[k].path) && rows[k].parentPath == rows[k].path
    requires PathIndex(rows)[rows[k].path.value] == k
    ensures k in Filter(Nodes(rows), ChildOf(rows, PathIndex(rows), k))
  {
    PathRowPlacement(rows, rows[k].path.value);
  }

  // ---------------------------------------------------------------------------
  // sortNodes comparator
  // ---------------------------------------------------------------------------

  /** `(x.term || "").toLowerCase().localeCompare(...)`. */
  function TermOrder(a: GlossaryRow, b: GlossaryRow): (r: int)
    ensures r == 0 <==> Lower(a.term) == Lower(b.term)
    ensures -1 <= r <= 1
  {
    LexCompare(Lower(a.term), Lower(b.term))
  }

  /** The comparator of `sortNodes` at depth `level`: at the two top levels the
      paths decide first, and the lower-cased term breaks a tie; deeper down
      only the term counts. */
  function SiblingOrder(level: nat, a: GlossaryRow, b: GlossaryRow): (r: int)
    ensures level >= 2 ==> r == TermOrder(a, b)
    ensures level < 2 && PathOrder(a.path, b.path) != 0 ==> r == PathOrder(a.path, b.path)
  {
    if level < 2 && PathOrder(a.path, b.path) != 0 then PathOrder(a.path, b.path)
    else TermOrder(a, b)
  }

  /** The sibling comparator is antisymmetric at every level. */
  lemma SiblingOrderAntisymmetric(level: nat, a: GlossaryRow, b: GlossaryRow)
    ensures Sign(SiblingOrder(level, a, b)) == -Sign(SiblingOrder(level, b, a))
  {
    PathOrderAntisymmetric(a.path, b.path);
    LexCompareAntisymmetric(Lower(a.term), Lower(b.term));
  }

  /** From the third level down, entries with the same lower-cased term tie
      whatever their paths. */
  lemma DeepLevelsIgnorePaths(level: nat, a: GlossaryRow, b: GlossaryRow)
    requires level >= 2 && Lower(a.term) == Lower(b.term)
    ensures SiblingOrder(level, a, b) == 0
  {
  }

  // ---------------------------------------------------------------------------
  // filteredEntries
  // ---------------------------------------------------------------------------

  /** The texts the search looks at: term, the three translations, the path
      and every tag, absent ones as "". */
  function Tokens(row: GlossaryRow): (r: seq<string>)
    ensures |r| == 5 + |row.tags.GetOr([])|
    ensures row.term in r && (row.pt.Some? ==> row.pt.value in r) && (row.en.Some? ==> row.en.value in r)
    ensures (row.fr.Some? ==> row.fr.value in r) && (row.path.Some? ==> row.path.value in r)
    ensures forall t :: t in row.tags.GetOr([]) ==> t in r
  {
    [row.term, row.pt.GetOr(""), row.en.GetOr(""), row.fr.GetOr(""), row.path.GetOr("")] + row.tags.GetOr([])
  }

  /** `tokens.some(token => token.toLowerCase().includes(normalizedQuery))`
      over the non-empty tokens. */
  function AnyTokenHas(tokens: seq<string>, query: string): (r: bool)
    ensures r <==> exists i :: 0 <= i < |tokens| && tokens[i] != "" && IContains(tokens[i], query)
  {
    if tokens == [] then false
    else (tokens[0] != "" && IContains(tokens[0], query)) || AnyTokenHas(tokens[1..], query)
  }

  /** The filter callback: an empty query keeps the row; otherwise some
      non-empty token contains the query, ignoring case. */
  function SearchKeeps(query: string): GlossaryRow -> bool {
    (row: GlossaryRow) => query == "" || AnyTokenHas(Tokens(row), query)
  }

  /** `filteredEntries`. */
  function FilteredEntries(entries: seq<GlossaryRow>, query: string): (r: seq<GlossaryRow>)
    ensures query == "" ==> r == entries
    ensures forall row :: row in r <==>
              (row in entries &&
               (query == "" || exists i :: 0 <= i < |Tokens(row)| && Tokens(row)[i] != "" && IContains(Tokens(row)[i], query)))
  {
    var r := Filter(entries, SearchKeeps(query));
    if query == "" then
      FilterAll(entries, SearchKeeps(query));
      r
    else r
  }
}
