/** The whitespace normalizers of the event parsers.  The halt, resume-trading
    and information-circular parsers collapse every whitespace run
    (`re.sub(r"\s+", " ", v).strip()`); the filing-statement parser splits on
    whitespace and joins with single spaces (`" ".join(s.strip().split())`). */
module Spacing {
  import opened Wrappers
  import opened Text

  /** Whitespace other than the plain space does not occur. */
  predicate OnlyPlainSpaces(s: string) { forall k :: 0 <= k < |s| ==> IsSpace(s[k]) ==> s[k] == ' ' }

  predicate NoDoubleSpace(s: string) {
    forall k :: 0 <= k < |s| - 1 ==> !(s[k] == ' ' && s[k + 1] == ' ')
  }

  /** The shape every normalizer of this module produces: single plain spaces
      between non-blank characters and nothing at either end. */
  predicate WsClean(s: string) {
    OnlyPlainSpaces(s) && NoDoubleSpace(s) && (s == [] || (!IsSpace(s[0]) && !IsSpace(s[|s| - 1])))
  }

  /** `re.sub(r"\s+", " ", s)`; `inRun` says the previous character was
      whitespace, so this one belongs to the same run. */
  function Collapse(s: string, inRun: bool): (r: string)
    ensures OnlyPlainSpaces(r) && NoDoubleSpace(r)
    ensures inRun ==> r == [] || r[0] != ' '
  {
    if s == [] then []
    else if IsSpace(s[0]) then (if inRun then [] else [' ']) + Collapse(s[1..], true)
    else [s[0]] + Collapse(s[1..], false)
  }

  /** `clean_space` of the halt and resume-trading parsers. */
  function CleanWs(s: string): (r: string)
    ensures WsClean(r)
  {
    var q := Collapse(s, false);
    var l := LStrip(q);
    assert OnlyPlainSpaces(l) && NoDoubleSpace(l) by {
      assert l == q[LeadEnd(q, 0)..];
    }
    var r := RStrip(l);
    assert OnlyPlainSpaces(r) && NoDoubleSpace(r) by {
      assert r == l[..TrailStart(l, |l|)];
    }
    r
  }

  /** `clean_space(value)` for a value that may be `None`. */
  function CleanWsOpt(o: Option<string>): (r: string)
    ensures o.None? ==> r == ""
    ensures o.Some? ==> r == CleanWs(o.value)
  {
    if o.None? then "" else CleanWs(o.value)
  }

  lemma {:induction false} CollapseIdentity(s: string, inRun: bool)
    requires OnlyPlainSpaces(s) && NoDoubleSpace(s)
    requires inRun ==> s == [] || s[0] != ' '
    ensures Collapse(s, inRun) == s
  {
    if s != [] {
      assert OnlyPlainSpaces(s[1..]) && NoDoubleSpace(s[1..]);
      if IsSpace(s[0]) {
        assert |s| > 1 ==> s[1] != ' ';
        CollapseIdentity(s[1..], true);
      } else {
        CollapseIdentity(s[1..], false);
      }
      assert s == [s[0]] + s[1..];
    }
  }

  /** `re.sub(r"\s+", " ", s)` keeps every non-whitespace character, in
      order. */
  lemma {:induction false} CollapseKeepsNonSpace(s: string, inRun: bool)
    ensures NonSpace(Collapse(s, inRun)) == NonSpace(s)
  {
    if s != [] {
      CollapseKeepsNonSpace(s[1..], IsSpace(s[0]));
      var head := if IsSpace(s[0]) then (if inRun then [] else [' ']) else [s[0]];
      NonSpaceConcat(head, Collapse(s[1..], IsSpace(s[0])));
      assert NonSpace(head) == if IsSpace(s[0]) then [] else [s[0]];
    }
  }

  /** `clean_space` removes whitespace only: the non-whitespace characters of
      the result are those of the input, in order. */
  lemma CleanWsKeepsNonSpace(s: string)
    ensures NonSpace(CleanWs(s)) == NonSpace(s)
  {
    var q := Collapse(s, false);
    CollapseKeepsNonSpace(s, false);
    LStripKeepsNonSpace(q);
    RStripKeepsNonSpace(LStrip(q));
  }

  /** Clean text is a fixed point of `clean_space`. */
  lemma CleanWsFixed(s: string)
    requires WsClean(s)
    ensures CleanWs(s) == s
  {
    CollapseIdentity(s, false);
  }

  /** A text that starts with a non-blank character is not blank after
      `clean_space`. */
  lemma CleanWsNonBlank(t: string)
    requires t != [] && !IsSpace(t[0])
    ensures CleanWs(t) != ""
  {
    var q := Collapse(t, false);
    assert q[0] == t[0];
    assert LeadEnd(q, 0) == 0;
  }

  /** `clean_space` is idempotent. */
  lemma CleanWsIdempotent(s: string)
    ensures CleanWs(CleanWs(s)) == CleanWs(s)
  {
    CleanWsFixed(CleanWs(s));
  }

  // ---------------------------------------------------------------------------
  // str.split() and " ".join(...)
  // ---------------------------------------------------------------------------

  /** The end of the run of non-whitespace characters starting at `i`. */
  function WordEnd(s: string, i: nat): (e: nat)
    requires i <= |s|
    ensures i <= e <= |s|
    ensures forall j :: i <= j < e ==> !IsSpace(s[j])
    ensures e == |s| || IsSpace(s[e])
    decreases |s| - i
  {
    if i < |s| && !IsSpace(s[i]) then WordEnd(s, i + 1) else i
  }

  /** A word of `str.split()`: non-empty, without whitespace. */
  predicate IsWord(w: string) { w != [] && forall k :: 0 <= k < |w| ==> !IsSpace(w[k]) }

  /** Python `s.split()` with no argument: the maximal whitespace-free runs. */
  function Words(s: string): (ws: seq<string>)
    ensures forall k :: 0 <= k < |ws| ==> IsWord(ws[k])
    decreases |s|
  {
    var i := LeadEnd(s, 0);
    if i == |s| then []
    else
      var e := WordEnd(s, i);
      [s[i..e]] + Words(s[e..])
  }

  /** `" ".join(ws)`. */
  function JoinSpace(ws: seq<string>): (r: string)
  {
    if ws == [] then ""
    else if |ws| == 1 then ws[0]
    else ws[0] + " " + JoinSpace(ws[1..])
  }

  /** `clean_space` of the filing-statement parser: `""` for `None` and `""`,
      otherwise the words of the stripped text joined by single spaces. */
  function CleanSplit(o: Option<string>): (r: string)
    ensures o.None? || o.value == "" ==> r == ""
  {
    if o.None? || o.value == "" then "" else JoinSpace(Words(Strip(o.value)))
  }

  /** Whitespace, then a word, then a rest: the non-whitespace characters are
      the word's and then the rest's. */
  lemma SpaceWordRest(p: string, w: string, t: string)
    requires forall k :: 0 <= k < |p| ==> IsSpace(p[k])
    requires forall k :: 0 <= k < |w| ==> !IsSpace(w[k])
    ensures NonSpace(p + w + t) == w + NonSpace(t)
  {
    NonSpaceConcat(p + w, t);
    NonSpaceConcat(p, w);
    NonSpaceOfRuns(p);
    NonSpaceOfRuns(w);
  }

  /** A word joined in front of others is kept whole. */
  lemma JoinFrontNonSpace(w: string, rest: seq<string>)
    requires IsWord(w)
    ensures NonSpace(JoinSpace([w] + rest)) == w + NonSpace(JoinSpace(rest))
  {
    NonSpaceOfRuns(w);
    assert ([w] + rest)[1..] == rest;
    if rest != [] {
      NonSpaceConcat(w + " ", JoinSpace(rest));
      NonSpaceConcat(w, " ");
    }
  }

  /** Splitting into words and joining them with single spaces keeps every
      non-whitespace character, in order. */
  lemma {:induction false} JoinWordsKeepsNonSpace(s: string)
    ensures NonSpace(JoinSpace(Words(s))) == NonSpace(s)
    decreases |s|
  {
    var i := LeadEnd(s, 0);
    if i < |s| {
      var e := WordEnd(s, i);
      SpaceWordRest(s[..i], s[i..e], s[e..]);
      assert s == s[..i] + s[i..e] + s[e..];
      JoinWordsKeepsNonSpace(s[e..]);
      JoinFrontNonSpace(s[i..e], Words(s[e..]));
    } else {
      assert s == s[..i];
      NonSpaceOfRuns(s);
    }
  }

  /** The filing-statement `clean_space` removes whitespace only. */
  lemma CleanSplitKeepsNonSpace(s: string)
    ensures NonSpace(CleanSplit(Some(s))) == NonSpace(s)
  {
    if s != "" {
      JoinWordsKeepsNonSpace(Strip(s));
      StripKeepsNonSpace(s);
    }
  }

  /** Joining words with single spaces gives clean text. */
  lemma {:induction false} JoinSpaceClean(ws: seq<string>)
    requires forall k :: 0 <= k < |ws| ==> IsWord(ws[k])
    ensures WsClean(JoinSpace(ws))
  {
    if |ws| > 1 {
      JoinSpaceClean(ws[1..]);
      var t := JoinSpace(ws[1..]);
      var r := ws[0] + " " + t;
      assert t == [] || !IsSpace(t[0]);
      assert forall k :: 0 <= k < |ws[0]| ==> r[k] == ws[0][k];
      assert forall k :: 0 <= k < |t| ==> r[|ws[0]| + 1 + k] == t[k];
      assert OnlyPlainSpaces(r) by {
        forall k | 0 <= k < |r| && IsSpace(r[k])
          ensures r[k] == ' '
        {
          if k > |ws[0]| { assert r[k] == t[k - |ws[0]| - 1]; }
        }
      }
      assert NoDoubleSpace(r) by {
        forall k | 0 <= k < |r| - 1
          ensures !(r[k] == ' ' && r[k + 1] == ' ')
        {
          if k > |ws[0]| { assert r[k] == t[k - |ws[0]| - 1] && r[k + 1] == t[k + 1 - |ws[0]| - 1]; }
        }
      }
    }
  }

  /** The words of a text that starts with a non-blank character. */
  lemma WordsFront(s: string)
    requires s != [] && !IsSpace(s[0])
    ensures Words(s) == [s[..WordEnd(s, 0)]] + Words(s[WordEnd(s, 0)..])
  {
  }

  /** One leading space does not change the words. */
  lemma {:induction false} WordsSpace(t: string)
    requires t != [] && !IsSpace(t[0])
    ensures Words(" " + t) == Words(t)
  {
    var s := " " + t;
    assert LeadEnd(s, 0) == 1 by { assert LeadEnd(s, 1) == 1; }
    WordEndShift(t, 0);
    var e := WordEnd(s, 1);
    assert s[1..e] == t[..WordEnd(t, 0)];
    assert s[e..] == t[WordEnd(t, 0)..];
    WordsFront(t);
  }

  lemma {:induction false} WordEndShift(t: string, i: nat)
    requires i <= |t|
    ensures WordEnd(" " + t, i + 1) == WordEnd(t, i) + 1
    decreases |t| - i
  {
    if i < |t| && !IsSpace(t[i]) { WordEndShift(t, i + 1); }
  }

  /** Clean text reads back unchanged through split and join. */
  lemma {:induction false} JoinWordsOfClean(s: string)
    requires WsClean(s)
    ensures JoinSpace(Words(s)) == s
    decreases |s|
  {
    if s != [] {
      var e := WordEnd(s, 0);
      if e < |s| {
        var t := CleanTail(s, e);
        var w := s[..e];
        WordsStep(s, e, t);
        JoinWordsOfClean(t);
        JoinFront(w, Words(t));
        calc {
          JoinSpace(Words(s));
          JoinSpace([w] + Words(t));
          w + " " + JoinSpace(Words(t));
          w + " " + t;
          { RejoinAt(s, e, t); }
          s;
        }
      } else {
        WordsWhole(s);
      }
    }
  }

  lemma RejoinAt(s: string, e: nat, t: string)
    requires e <= |s| && s[e..] == " " + t
    ensures s[..e] + " " + t == s
  {
    assert s == s[..e] + s[e..];
  }

  lemma WordsStep(s: string, e: nat, t: string)
    requires s != [] && !IsSpace(s[0]) && e == WordEnd(s, 0) && e < |s|
    requires t != [] && !IsSpace(t[0]) && s[e..] == " " + t
    ensures Words(s) == [s[..e]] + Words(t) && Words(t) != []
  {
    WordsFront(s);
    WordsSpace(t);
    WordsFront(t);
  }

  lemma WordsWhole(s: string)
    requires s != [] && !IsSpace(s[0]) && WordEnd(s, 0) == |s|
    ensures Words(s) == [s]
  {
    WordsFront(s);
    assert s[..|s|] == s;
    assert Words(s[|s|..]) == [] by { assert s[|s|..] == []; }
  }

  /** What follows the first word of clean text: one space, then clean text. */
  lemma CleanTail(s: string, e: nat) returns (t: string)
    requires WsClean(s) && s != [] && e == WordEnd(s, 0) && e < |s|
    ensures t == s[e + 1..] && s[e..] == " " + t
    ensures t != [] && !IsSpace(t[0]) && WsClean(t)
  {
    t := s[e + 1..];
    assert s[e] == ' ';
    assert forall k :: 0 <= k < |t| ==> t[k] == s[e + 1 + k];
  }

  lemma JoinFront(w: string, ws: seq<string>)
    requires ws != []
    ensures JoinSpace([w] + ws) == w + " " + JoinSpace(ws)
  {
    assert ([w] + ws)[1..] == ws;
  }

  /** The filing parser's `clean_space` produces clean text, and leaves clean
      text unchanged; so applying it twice is applying it once. */
  lemma CleanSplitShape(o: Option<string>)
    ensures WsClean(CleanSplit(o))
    ensures o.Some? && WsClean(o.value) ==> CleanSplit(o) == o.value
  {
    if o.Some? && o.value != "" {
      JoinSpaceClean(Words(Strip(o.value)));
      if WsClean(o.value) {
        StripOfClean(o.value);
        JoinWordsOfClean(o.value);
      }
    }
  }

  lemma StripOfClean(s: string)
    requires WsClean(s)
    ensures Strip(s) == s
  {
    assert LeadEnd(s, 0) == 0;
    assert TrailStart(s, |s|) == |s|;
  }

  lemma CleanSplitIdempotent(o: Option<string>)
    ensures CleanSplit(Some(CleanSplit(o))) == CleanSplit(o)
  {
    CleanSplitShape(o);
    CleanSplitShape(Some(CleanSplit(o)));
  }
}
