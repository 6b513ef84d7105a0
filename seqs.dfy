/** Order-preserving filtering, the model of JavaScript's `Array.prototype.filter`
    on the pages whose filters are modelled here. */
module Seqs {

  /** The elements of `s` that satisfy `p`, in their original order. */
  function Filter<T>(s: seq<T>, p: T -> bool): (r: seq<T>)
    ensures |r| <= |s|
    ensures forall x :: x in r ==> x in s && p(x)
    ensures forall x :: x in s && p(x) ==> x in r
  {
    if s == [] then []
    else (if p(s[0]) then [s[0]] else []) + Filter(s[1..], p)
  }

  /** Filtering distributes over concatenation. */
  lemma {:induction false} FilterConcat<T>(a: seq<T>, b: seq<T>, p: T -> bool)
    ensures Filter(a + b, p) == Filter(a, p) + Filter(b, p)
  {
    if a == [] {
      assert a + b == b;
    } else {
      var h := if p(a[0]) then [a[0]] else [];
      assert (a + b)[0] == a[0];
      assert (a + b)[1..] == a[1..] + b;
      FilterConcat(a[1..], b, p);
      assert Filter(a + b, p) == h + (Filter(a[1..], p) + Filter(b, p));
      assert Filter(a, p) == h + Filter(a[1..], p);
      AppendAssoc(h, Filter(a[1..], p), Filter(b, p));
    }
  }

  /** Concatenation is associative. */
  lemma AppendAssoc<T>(x: seq<T>, y: seq<T>, z: seq<T>)
    ensures (x + y) + z == x + (y + z)
  {
  }

  /** Filtering a sequence extended by one element. */
  lemma FilterSnoc<T>(s: seq<T>, x: T, p: T -> bool)
    ensures Filter(s + [x], p) == Filter(s, p) + (if p(x) then [x] else [])
  {
    FilterConcat(s, [x], p);
  }

  /** A filter that keeps everything is the identity. */
  lemma {:induction false} FilterAll<T>(s: seq<T>, p: T -> bool)
    requires forall k :: 0 <= k < |s| ==> p(s[k])
    ensures Filter(s, p) == s
  {
    if s != [] {
      FilterAll(s[1..], p);
      assert s == [s[0]] + s[1..];
    }
  }

  /** A filter that keeps nothing gives the empty sequence. */
  lemma {:induction false} FilterNone<T>(s: seq<T>, p: T -> bool)
    requires forall k :: 0 <= k < |s| ==> !p(s[k])
    ensures Filter(s, p) == []
  {
    if s != [] {
      FilterNone(s[1..], p);
    }
  }

  /** A prefix on which `p` never holds does not contribute to the filter. */
  lemma {:induction false} FilterSkip<T>(s: seq<T>, p: T -> bool, i: nat)
    requires i <= |s|
    requires forall k :: 0 <= k < i ==> !p(s[k])
    ensures Filter(s, p) == Filter(s[i..], p)
  {
    if i > 0 {
      var t := s[1..];
      assert !p(s[0]);
      assert Filter(s, p) == Filter(t, p);
      forall k | 0 <= k < i - 1 ensures !p(t[k]) {
        assert t[k] == s[k + 1];
      }
      FilterSkip(t, p, i - 1);
      assert t[i - 1..] == s[i..];
    }
  }

  /** When `p` holds on `[i, j)` and fails from `j` on, filtering the suffix from
      `i` gives the slice `s[i..j]`. */
  lemma {:induction false} FilterPrefix<T>(s: seq<T>, p: T -> bool, i: nat, j: nat)
    requires i <= j <= |s|
    requires forall k :: i <= k < j ==> p(s[k])
    requires forall k :: j <= k < |s| ==> !p(s[k])
    ensures Filter(s[i..], p) == s[i..j]
    decreases j - i
  {
    var t := s[i..];
    if i == j {
      forall k | 0 <= k < |t| ensures !p(t[k]) {
        assert t[k] == s[i + k];
      }
      FilterNone(t, p);
    } else {
      assert t[0] == s[i] && p(s[i]);
      assert t[1..] == s[i + 1..];
      assert Filter(t, p) == [s[i]] + Filter(s[i + 1..], p);
      FilterPrefix(s, p, i + 1, j);
      assert s[i..j] == [s[i]] + s[i + 1..j];
    }
  }

  /** When `p` fails before `i`, holds on `[i, j)` and fails from `j` on, the
      filter is the slice `s[i..j]`. */
  lemma FilterIsSlice<T>(s: seq<T>, p: T -> bool, i: nat, j: nat)
    requires i <= j <= |s|
    requires forall k :: 0 <= k < i ==> !p(s[k])
    requires forall k :: i <= k < j ==> p(s[k])
    requires forall k :: j <= k < |s| ==> !p(s[k])
    ensures Filter(s, p) == s[i..j]
  {
    FilterSkip(s, p, i);
    FilterPrefix(s, p, i, j);
  }

  /** Filtering with `p` and then with `q` keeps what satisfies both. */
  lemma {:induction false} FilterTwice<T>(s: seq<T>, p: T -> bool, q: T -> bool, pq: T -> bool)
    requires forall x :: pq(x) == (p(x) && q(x))
    ensures Filter(Filter(s, p), q) == Filter(s, pq)
  {
    if s != [] {
      FilterTwice(s[1..], p, q, pq);
      FilterConcat(if p(s[0]) then [s[0]] else [], Filter(s[1..], p), q);
      assert Filter([s[0]], q) == if q(s[0]) then [s[0]] else [];
    }
  }
}
