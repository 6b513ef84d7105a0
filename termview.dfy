/** The glossary term view (`jrpedia/components/TermView.tsx`): the header and
    body of a bulletin example are HTML-escaped, and the first whole-word
    occurrence of the selected term, or failing that of one of its tags, is
    wrapped in a `<mark>` element.  Case is compared on ASCII letters, and a
    word character is an ASCII letter, digit or `_`, as in a JavaScript
    regular expression without the `u` flag. */
module TermView {
  import opened Wrappers
  import opened Text
  import opened Seqs
  import Glossary

  // ---------------------------------------------------------------------------
  // escapeHtml
  // ---------------------------------------------------------------------------

  /** `s.replace(/c/g, rep)`: every occurrence of the character `c` becomes `rep`. */
  function ReplaceChar(s: string, c: char, rep: string): (r: string)
    ensures c !in s ==> r == s
    ensures |rep| >= 1 ==> |r| >= |s|
  {
    if s == [] then [] else (if s[0] == c then rep else [s[0]]) + ReplaceChar(s[1..], c, rep)
  }

  lemma {:induction false} ReplaceCharConcat(a: string, b: string, c: char, rep: string)
    ensures ReplaceChar(a + b, c, rep) == ReplaceChar(a, c, rep) + ReplaceChar(b, c, rep)
  {
    if a == [] {
      assert a + b == b;
    } else {
      assert (a + b)[1..] == a[1..] + b;
      ReplaceCharConcat(a[1..], b, c, rep);
    }
  }

  lemma ReplaceCharOne(x: char, c: char, rep: string)
    ensures ReplaceChar([x], c, rep) == if x == c then rep else [x]
  {
    assert [x][1..] == [];
  }

  /** `escapeHtml`: five global replacements, `&` first so that the entities
      the later ones introduce are not escaped again. */
  function EscapeHtml(text: string): (r: string)
    ensures |r| >= |text|
  {
    ReplaceChar(ReplaceChar(ReplaceChar(ReplaceChar(ReplaceChar(
      text, '&', "&amp;"), '<', "&lt;"), '>', "&gt;"), '"', "&quot;"), '\'', "&#39;")
  }

  /** The five characters `escapeHtml` rewrites. */
  predicate IsHtmlSpecial(c: char) { c == '&' || c == '<' || c == '>' || c == '"' || c == '\'' }

  /** The entity one character is written as. */
  function EscapeChar(c: char): (r: string)
    ensures IsHtmlSpecial(c) ==> |r| > 1 && r[0] == '&'
    ensures !IsHtmlSpecial(c) ==> r == [c]
  {
    if c == '&' then "&amp;"
    else if c == '<' then "&lt;"
    else if c == '>' then "&gt;"
    else if c == '"' then "&quot;"
    else if c == '\'' then "&#39;"
    else [c]
  }

  /** The reference definition: each character replaced by its entity.  The
      result holds none of the characters that open a tag or end an
      attribute, and text without special characters comes back unchanged. */
  function EscapeEach(text: string): (r: string)
    ensures |r| >= |text|
  {
    if text == [] then [] else EscapeChar(text[0]) + EscapeEach(text[1..])
  }

  /** The per-character escape holds none of the characters that open a tag
      or end an attribute, and leaves text without special characters alone. */
  lemma EscapeEachSafe(text: string)
    ensures var r := EscapeEach(text); '<' !in r && '>' !in r && '"' !in r && '\'' !in r
    ensures (forall c :: c in text ==> !IsHtmlSpecial(c)) ==> EscapeEach(text) == text
  {
    EscapeEachNoSpecial(text);
    if forall c :: c in text ==> !IsHtmlSpecial(c) {
      EscapeEachPlain(text);
    }
  }

  lemma {:induction false} EscapeEachNoSpecial(text: string)
    ensures var r := EscapeEach(text); '<' !in r && '>' !in r && '"' !in r && '\'' !in r
  {
    if text != [] {
      EscapeEachNoSpecial(text[1..]);
      EscapeCharSafe(text[0]);
    }
  }

  lemma {:induction false} EscapeEachPlain(text: string)
    requires forall c :: c in text ==> !IsHtmlSpecial(c)
    ensures EscapeEach(text) == text
  {
    if text != [] {
      assert text[0] in text;
      assert forall c :: c in text[1..] ==> c in text;
      EscapeEachPlain(text[1..]);
      assert text == [text[0]] + text[1..];
    }
  }

  /** No entity holds `<`, `>`, `"` or `'`. */
  lemma EscapeCharSafe(c: char)
    ensures var e := EscapeChar(c); '<' !in e && '>' !in e && '"' !in e && '\'' !in e
  {
    var e := EscapeChar(c);
    if c == '&' {
      assert e == ['&', 'a', 'm', 'p', ';'];
    } else if c == '<' {
      assert e == ['&', 'l', 't', ';'];
    } else if c == '>' {
      assert e == ['&', 'g', 't', ';'];
    } else if c == '"' {
      assert e == ['&', 'q', 'u', 'o', 't', ';'];
    } else if c == '\'' {
      assert e == ['&', '#', '3', '9', ';'];
    }
  }

  lemma EscapeHtmlConcat(a: string, b: string)
    ensures EscapeHtml(a + b) == EscapeHtml(a) + EscapeHtml(b)
  {
    var a1 := ReplaceChar(a, '&', "&amp;");
    var b1 := ReplaceChar(b, '&', "&amp;");
    ReplaceCharConcat(a, b, '&', "&amp;");
    var a2 := ReplaceChar(a1, '<', "&lt;");
    var b2 := ReplaceChar(b1, '<', "&lt;");
    ReplaceCharConcat(a1, b1, '<', "&lt;");
    var a3 := ReplaceChar(a2, '>', "&gt;");
    var b3 := ReplaceChar(b2, '>', "&gt;");
    ReplaceCharConcat(a2, b2, '>', "&gt;");
    var a4 := ReplaceChar(a3, '"', "&quot;");
    var b4 := ReplaceChar(b3, '"', "&quot;");
    ReplaceCharConcat(a3, b3, '"', "&quot;");
    ReplaceCharConcat(a4, b4, '\'', "&#39;");
  }

  /** An entity without `<`, `>`, `"` or `'` is left alone by the later
      replacements. */
  lemma LaterKeep(e: string)
    requires '<' !in e && '>' !in e && '"' !in e && '\'' !in e
    ensures ReplaceChar(ReplaceChar(ReplaceChar(ReplaceChar(e, '<', "&lt;"), '>', "&gt;"), '"', "&quot;"), '\'', "&#39;") == e
  {
  }

  lemma EscapeAmp()
    ensures EscapeHtml("&") == "&amp;"
  {
    ReplaceCharOne('&', '&', "&amp;");
    LaterKeep("&amp;");
  }

  lemma EscapeLt()
    ensures EscapeHtml("<") == "&lt;"
  {
    ReplaceCharOne('<', '&', "&amp;");
    ReplaceCharOne('<', '<', "&lt;");
    var e := "&lt;";
    assert forall k :: 0 <= k < |e| ==> e[k] in {'&', 'l', 't', ';'};
    assert '>' !in e && '"' !in e && '\'' !in e;
  }

  lemma EscapeGt()
    ensures EscapeHtml(">") == "&gt;"
  {
    ReplaceCharOne('>', '&', "&amp;");
    ReplaceCharOne('>', '<', "&lt;");
    ReplaceCharOne('>', '>', "&gt;");
    var e := "&gt;";
    assert forall k :: 0 <= k < |e| ==> e[k] in {'&', 'g', 't', ';'};
    assert '"' !in e && '\'' !in e;
  }

  lemma EscapeQuot()
    ensures EscapeHtml("\"") == "&quot;"
  {
    ReplaceCharOne('"', '&', "&amp;");
    ReplaceCharOne('"', '<', "&lt;");
    ReplaceCharOne('"', '>', "&gt;");
    ReplaceCharOne('"', '"', "&quot;");
    var e := "&quot;";
    assert forall k :: 0 <= k < |e| ==> e[k] in {'&', 'q', 'u', 'o', 't', ';'};
    assert '\'' !in e;
  }

  lemma EscapeApos()
    ensures EscapeHtml("'") == "&#39;"
  {
    ReplaceCharOne('\'', '&', "&amp;");
    ReplaceCharOne('\'', '<', "&lt;");
    ReplaceCharOne('\'', '>', "&gt;");
    ReplaceCharOne('\'', '"', "&quot;");
    ReplaceCharOne('\'', '\'', "&#39;");
  }

  lemma EscapePlain(x: char)
    requires !IsHtmlSpecial(x)
    ensures EscapeHtml([x]) == [x]
  {
    ReplaceCharOne(x, '&', "&amp;");
    ReplaceCharOne(x, '<', "&lt;");
    ReplaceCharOne(x, '>', "&gt;");
    ReplaceCharOne(x, '"', "&quot;");
    ReplaceCharOne(x, '\'', "&#39;");
  }

  lemma EscapeHtmlOne(x: char)
    ensures EscapeHtml([x]) == EscapeChar(x)
  {
    if x == '&' {
      EscapeAmp();
    } else if x == '<' {
      EscapeLt();
    } else if x == '>' {
      EscapeGt();
    } else if x == '"' {
      EscapeQuot();
    } else if x == '\'' {
      EscapeApos();
    } else {
      EscapePlain(x);
    }
  }

  /** The chained replacements escape each character on its own: no entity
      introduced by one replacement is rewritten by a later one. */
  lemma {:induction false} EscapeHtmlIsEach(text: string)
    ensures EscapeHtml(text) == EscapeEach(text)
  {
    if text != [] {
      assert text == [text[0]] + text[1..];
      EscapeHtmlConcat([text[0]], text[1..]);
      EscapeHtmlOne(text[0]);
      EscapeHtmlIsEach(text[1..]);
    }
  }

  /** The escaped text opens no tag and closes no attribute value, and text
      without special characters is left as it is. */
  lemma EscapeHtmlSafe(text: string)
    ensures '<' !in EscapeHtml(text) && '>' !in EscapeHtml(text)
    ensures '"' !in EscapeHtml(text) && '\'' !in EscapeHtml(text)
    ensures (forall c :: c in text ==> !IsHtmlSpecial(c)) ==> EscapeHtml(text) == text
  {
    EscapeHtmlIsEach(text);
    EscapeEachSafe(text);
  }

  /** The inverse of `escapeHtml`: each of the five entities back to its
      character. */
  function UnescapeHtml(s: string): string
    decreases |s|
  {
    if s == [] then []
    else if At(s, 0, "&amp;") then "&" + UnescapeHtml(s[5..])
    else if At(s, 0, "&lt;") then "<" + UnescapeHtml(s[4..])
    else if At(s, 0, "&gt;") then ">" + UnescapeHtml(s[4..])
    else if At(s, 0, "&quot;") then "\"" + UnescapeHtml(s[6..])
    else if At(s, 0, "&#39;") then "'" + UnescapeHtml(s[5..])
    else [s[0]] + UnescapeHtml(s[1..])
  }

  /** A text that differs from `w` in its second character does not start
      with `w`. */
  lemma NotAtBySecond(s: string, w: string)
    requires |s| >= 2 && |w| >= 2 && s[1] != w[1]
    ensures !At(s, 0, w)
  {
  }

  /** A text that differs from `w` in its first character does not start
      with `w`. */
  lemma NotAtByFirst(s: string, w: string)
    requires |s| >= 1 && |w| >= 1 && s[0] != w[0]
    ensures !At(s, 0, w)
  {
  }

  lemma AtPrefix(e: string, rest: string)
    ensures At(e + rest, 0, e) && (e + rest)[|e|..] == rest
  {
    assert (e + rest)[..|e|] == e;
  }

  lemma UnescapeStep(x: char, rest: string)
    ensures UnescapeHtml(EscapeChar(x) + rest) == [x] + UnescapeHtml(rest)
  {
    var e := EscapeChar(x);
    var s := e + rest;
    AtPrefix(e, rest);
    if !IsHtmlSpecial(x) {
      assert s[0] == x && s[1..] == rest;
      NotAtByFirst(s, "&amp;");
      NotAtByFirst(s, "&lt;");
      NotAtByFirst(s, "&gt;");
      NotAtByFirst(s, "&quot;");
      NotAtByFirst(s, "&#39;");
    } else if x != '&' {
      assert s[1] == e[1];
      NotAtBySecond(s, "&amp;");
      if x != '<' {
        NotAtBySecond(s, "&lt;");
        if x != '>' {
          NotAtBySecond(s, "&gt;");
          if x != '"' {
            NotAtBySecond(s, "&quot;");
          }
        }
      }
    }
  }

  /** Unescaping the escaped text gives the text back: the escaping loses
      nothing. */
  lemma {:induction false} EscapeHtmlRoundTrip(text: string)
    ensures UnescapeHtml(EscapeHtml(text)) == text
  {
    EscapeHtmlIsEach(text);
    EscapeEachRoundTrip(text);
  }

  lemma {:induction false} EscapeEachRoundTrip(text: string)
    ensures UnescapeHtml(EscapeEach(text)) == text
  {
    if text != [] {
      UnescapeStep(text[0], EscapeEach(text[1..]));
      EscapeEachRoundTrip(text[1..]);
      assert text == [text[0]] + text[1..];
    }
  }

  // ---------------------------------------------------------------------------
  // escapeRegExp
  // ---------------------------------------------------------------------------

  /** The characters of the class `[.*+?^${}()|[\]\\]`. */
  predicate IsRegExpSpecial(c: char) {
    c == '.' || c == '*' || c == '+' || c == '?' || c == '^' || c == '$' || c == '{' || c == '}'
    || c == '(' || c == ')' || c == '|' || c == '[' || c == ']' || c == '\\'
  }

  /** `escapeRegExp`: a backslash before every special character, so that the
      pattern built from the text matches the text literally. */
  function EscapeRegExp(s: string): (r: string)
    ensures |r| >= |s|
    ensures (forall c :: c in s ==> !IsRegExpSpecial(c)) ==> r == s
  {
    if s == [] then []
    else (if IsRegExpSpecial(s[0]) then ['\\', s[0]] else [s[0]]) + EscapeRegExp(s[1..])
  }

  /** How a regular expression reads an escaped literal: `\c` stands for `c`. */
  function UnescapeRegExp(s: string): string
    decreases |s|
  {
    if s == [] then []
    else if s[0] == '\\' && |s| >= 2 then [s[1]] + UnescapeRegExp(s[2..])
    else [s[0]] + UnescapeRegExp(s[1..])
  }

  /** The escaped pattern stands for exactly the text it was built from. */
  lemma {:induction false} EscapeRegExpRoundTrip(s: string)
    ensures UnescapeRegExp(EscapeRegExp(s)) == s
  {
    if s != [] {
      var rest := EscapeRegExp(s[1..]);
      var e := EscapeRegExp(s);
      EscapeRegExpRoundTrip(s[1..]);
      if IsRegExpSpecial(s[0]) {
        assert e == ['\\', s[0]] + rest;
        assert e[2..] == rest;
      } else {
        assert e == [s[0]] + rest;
        assert e[1..] == rest;
      }
      assert s == [s[0]] + s[1..];
    }
  }

  // ---------------------------------------------------------------------------
  // The match of `(?<!&)\b(value)\b` with the `i` flag
  // ---------------------------------------------------------------------------

  /** A highlight pattern: the text to find and the class of its mark. */
  datatype Pattern = Pattern(value: string, className: string)

  predicate WordBefore(s: string, j: nat) { 0 < j <= |s| && IsWordChar(s[j - 1]) }
  predicate WordAfter(s: string, j: nat) { j < |s| && IsWordChar(s[j]) }

  /** `\b` at position `j`: a word character on exactly one side. */
  predicate Boundary(s: string, j: nat) { WordBefore(s, j) != WordAfter(s, j) }

  /** The pattern matches `v` at `i`: the text there equals `v` ignoring case,
      the character before is not `&`, and both ends are word boundaries. */
  predicate MatchAt(s: string, i: nat, v: string) {
    IAt(s, i, v) && (i == 0 || s[i - 1] != '&') && Boundary(s, i) && Boundary(s, i + |v|)
  }

  /** The leftmost match at or after `from`. */
  function FirstMatch(s: string, v: string, from: nat): (r: Option<nat>)
    ensures r.Some? ==> from <= r.value && MatchAt(s, r.value, v)
    ensures r.Some? ==> forall j :: from <= j < r.value ==> !MatchAt(s, j, v)
    ensures r.None? ==> forall j :: from <= j ==> !MatchAt(s, j, v)
    decreases |s| - from
  {
    if from + |v| > |s| then None
    else if MatchAt(s, from, v) then Some(from)
    else FirstMatch(s, v, from + 1)
  }

  /** The replacement `<mark class="${className}">$1</mark>`. */
  function Mark(className: string, matched: string): string {
    "<mark class=\"" + className + "\">" + matched + "</mark>"
  }

  /** `result.replace(regex, ...)` without the `g` flag: the leftmost match is
      wrapped in a mark, keeping its own letters; without a match the text is
      unchanged. */
  function ReplaceFirst(s: string, p: Pattern): (r: string)
    ensures r == s <==> FirstMatch(s, p.value, 0).None?
  {
    match FirstMatch(s, p.value, 0)
    case None => s
    case Some(i) => MarkedAt(s, p, i)
  }

  /** The text with the `|p.value|` characters at `i` wrapped in a mark of the
      pattern's class, keeping their own letters. */
  function MarkedAt(s: string, p: Pattern, i: nat): (r: string)
    requires i + |p.value| <= |s|
    ensures |r| > |s|
  {
    s[..i] + Mark(p.className, s[i..i + |p.value|]) + s[i + |p.value|..]
  }

  /** The replacement changes the text exactly when the pattern matches
      somewhere, and then it marks the leftmost match with its own text. */
  lemma ReplaceFirstMeaning(s: string, p: Pattern)
    ensures ReplaceFirst(s, p) == s <==> forall i: nat :: !MatchAt(s, i, p.value)
    ensures ReplaceFirst(s, p) != s ==>
              var i := FirstMatch(s, p.value, 0).value;
              MatchAt(s, i, p.value) && (forall j :: 0 <= j < i ==> !MatchAt(s, j, p.value))
              && ReplaceFirst(s, p) == MarkedAt(s, p, i)
  {
    ReplaceFirstUnchanged(s, p);
    var m := FirstMatch(s, p.value, 0);
    if m.Some? {
      ReplaceFirstAt(s, p, m.value);
    }
  }

  lemma ReplaceFirstUnchanged(s: string, p: Pattern)
    ensures ReplaceFirst(s, p) == s <==> forall i: nat :: !MatchAt(s, i, p.value)
  {
    var m := FirstMatch(s, p.value, 0);
    if m.Some? {
      assert MatchAt(s, m.value, p.value);
    }
  }

  lemma ReplaceFirstAt(s: string, p: Pattern, i: nat)
    requires FirstMatch(s, p.value, 0) == Some(i)
    ensures MatchAt(s, i, p.value) && (forall j :: 0 <= j < i ==> !MatchAt(s, j, p.value))
    ensures ReplaceFirst(s, p) == MarkedAt(s, p, i)
  {
  }

  /** Whether `v` matches depends on `v` only through its lower-case form. */
  lemma MatchAtLower(s: string, i: nat, v: string, w: string)
    requires Lower(v) == Lower(w)
    ensures MatchAt(s, i, v) == MatchAt(s, i, w)
  {
    assert |v| == |w|;
    forall k | 0 <= k < |v|
      ensures ToLower(v[k]) == ToLower(w[k])
    {
      assert Lower(v)[k] == Lower(w)[k];
    }
  }

  lemma MarkAt(a: string, className: string, m: string, b: string)
    ensures Contains(a + Mark(className, m) + b, "<mark")
  {
    var mk := Mark(className, m);
    var r := a + mk + b;
    assert mk[..5] == "<mark";
    assert r[|a|..|a| + 5] == mk[..5];
    assert 0 <= |a| <= |r| - 5 && At(r, |a|, "<mark");
  }

  /** A mark put in the text is found by `includes("<mark")`. */
  lemma MarkFound(s: string, p: Pattern)
    requires ReplaceFirst(s, p) != s
    ensures Contains(ReplaceFirst(s, p), "<mark")
  {
    var i := FirstMatch(s, p.value, 0).value;
    MarkAt(s[..i], p.className, s[i..i + |p.value|], s[i + |p.value|..]);
  }

  /** Text without `<` holds no mark. */
  lemma NoMarkWithoutLt(s: string)
    requires '<' !in s
    ensures !Contains(s, "<mark")
  {
    forall i | 0 <= i <= |s| - 5
      ensures !At(s, i, "<mark")
    {
      assert s[i] in s;
    }
  }

  /** The look-behind only stops a match from starting right after `&`: the
      value `39` still matches inside the entity `&#39;` that an apostrophe is
      escaped to, and the mark then splits that entity. */
  lemma MarkSplitsApostropheEntity(className: string)
    ensures ReplaceFirst(EscapeHtml("'"), Pattern("39", className)) == "&#" + Mark(className, "39") + ";"
  {
    EscapeApos();
    var e := "&#39;";
    EntityMatch();
    assert FirstMatch(e, "39", 0) == Some(2);
    ReplaceFirstAt(e, Pattern("39", className), 2);
    assert e[..2] == "&#" && e[2..4] == "39" && e[4..] == ";";
  }

  /** In "&#39;" the value "39" matches at 2 and not before. */
  lemma EntityMatch()
    ensures !MatchAt("&#39;", 0, "39") && !MatchAt("&#39;", 1, "39") && MatchAt("&#39;", 2, "39")
  {
    var e, v := "&#39;", "39";
    assert e[0] == '&' && e[1] == '#' && e[2] == '3' && e[3] == '9' && e[4] == ';';
    assert v[0] == '3' && v[1] == '9';
    assert !IAt(e, 0, v) by { assert ToLower(e[0]) != ToLower(v[0]); }
    assert !IAt(e, 1, v) by { assert ToLower(e[1]) != ToLower(v[0]); }
    assert IAt(e, 2, v) by {
      assert ToLower(e[2]) == ToLower(v[0]) && ToLower(e[3]) == ToLower(v[1]);
    }
    assert !IsWordChar('#') && IsWordChar('3') && IsWordChar('9') && !IsWordChar(';');
    assert Boundary(e, 2) && Boundary(e, 4);
  }

  // ---------------------------------------------------------------------------
  // applyHighlight
  // ---------------------------------------------------------------------------

  /** What the loop of `applyHighlight` computes from the escaped text: patterns
      are tried in order, one whose lower-cased value was already tried is
      skipped, and the first that changes the text gives the result. */
  function Highlight(escaped: string, patterns: seq<Pattern>, seen: set<string>): string
    decreases |patterns|
  {
    if patterns == [] then escaped
    else if Lower(patterns[0].value) in seen then Highlight(escaped, patterns[1..], seen)
    else
      var n := ReplaceFirst(escaped, patterns[0]);
      if n != escaped then n else Highlight(escaped, patterns[1..], seen + {Lower(patterns[0].value)})
  }

  /** The reference definition: the first pattern that matches anywhere is
      applied, and only it. */
  function FirstChange(escaped: string, patterns: seq<Pattern>): string
    decreases |patterns|
  {
    if patterns == [] then escaped
    else
      var n := ReplaceFirst(escaped, patterns[0]);
      if n != escaped then n else FirstChange(escaped, patterns[1..])
  }

  /** At most one pattern is applied: the result is the escaped text, or the
      text with the first matching pattern applied once. */
  lemma {:induction false} FirstChangeIsOne(escaped: string, patterns: seq<Pattern>)
    ensures FirstChange(escaped, patterns) == escaped
            <==> forall k :: 0 <= k < |patterns| ==> ReplaceFirst(escaped, patterns[k]) == escaped
    ensures FirstChange(escaped, patterns) != escaped ==>
              exists k :: 0 <= k < |patterns| && FirstChange(escaped, patterns) == ReplaceFirst(escaped, patterns[k])
                          && forall j :: 0 <= j < k ==> ReplaceFirst(escaped, patterns[j]) == escaped
    decreases |patterns|
  {
    if patterns != [] && ReplaceFirst(escaped, patterns[0]) == escaped {
      var tail := patterns[1..];
      FirstChangeIsOne(escaped, tail);
      assert forall k :: 1 <= k < |patterns| ==> patterns[k] == tail[k - 1];
      if FirstChange(escaped, tail) != escaped {
        var k :| 0 <= k < |tail| && FirstChange(escaped, tail) == ReplaceFirst(escaped, tail[k])
                 && forall j :: 0 <= j < k ==> ReplaceFirst(escaped, tail[j]) == escaped;
        assert forall j :: 0 <= j < k + 1 ==> ReplaceFirst(escaped, patterns[j]) == escaped by {
          forall j | 0 <= j < k + 1
            ensures ReplaceFirst(escaped, patterns[j]) == escaped
          {
            if j > 0 {
              assert patterns[j] == tail[j - 1];
            }
          }
        }
        assert FirstChange(escaped, patterns) == ReplaceFirst(escaped, patterns[k + 1]);
      }
    } else if patterns != [] {
      assert FirstChange(escaped, patterns) == ReplaceFirst(escaped, patterns[0]);
    }
  }

  /** No value already tried matches the text. */
  ghost predicate SeenMiss(escaped: string, seen: set<string>) {
    forall v: string :: Lower(v) in seen ==> ReplaceFirst(escaped, Pattern(v, "")) == escaped
  }

  lemma MissByLower(escaped: string, seen: set<string>, p: Pattern)
    requires SeenMiss(escaped, seen) && Lower(p.value) in seen
    ensures ReplaceFirst(escaped, p) == escaped
  {
    assert ReplaceFirst(escaped, Pattern(p.value, "")) == escaped;
  }

  lemma MissAdded(escaped: string, seen: set<string>, p: Pattern)
    requires SeenMiss(escaped, seen) && ReplaceFirst(escaped, p) == escaped
    ensures SeenMiss(escaped, seen + {Lower(p.value)})
  {
    forall v: string | Lower(v) in seen + {Lower(p.value)}
      ensures ReplaceFirst(escaped, Pattern(v, "")) == escaped
    {
      if Lower(v) == Lower(p.value) {
        var m := FirstMatch(escaped, v, 0);
        if m.Some? {
          MatchAtLower(escaped, m.value, v, p.value);
          assert false;
        }
      }
    }
  }

  /** Skipping a value already tried never changes the outcome: a pattern
      whose value equals an earlier one ignoring case matches exactly where
      the earlier one did, and the earlier one matched nowhere. */
  lemma {:induction false} DedupeIrrelevant(escaped: string, patterns: seq<Pattern>, seen: set<string>)
    requires SeenMiss(escaped, seen)
    ensures Highlight(escaped, patterns, seen) == FirstChange(escaped, patterns)
    decreases |patterns|
  {
    if patterns != [] {
      var p := patterns[0];
      if Lower(p.value) in seen {
        MissByLower(escaped, seen, p);
        DedupeIrrelevant(escaped, patterns[1..], seen);
      } else if ReplaceFirst(escaped, p) == escaped {
        MissAdded(escaped, seen, p);
        DedupeIrrelevant(escaped, patterns[1..], seen + {Lower(p.value)});
      }
    }
  }

  /** `applyHighlight`: escapes the text, then tries the patterns in order,
      stopping at the first whose replacement changes the text.  The result
      is the text with the leftmost match of the first matching pattern
      marked, or the escaped text when none matches. */
  method ApplyHighlight(text: string, patterns: seq<Pattern>) returns (result: string)
    ensures result == FirstChange(EscapeHtml(text), patterns)
  {
    var escaped := EscapeHtml(text);
    result := escaped;
    var seen: set<string> := {};
    var k := 0;
    while k < |patterns|
      invariant 0 <= k <= |patterns|
      invariant result == escaped
      invariant SeenMiss(escaped, seen)
      invariant Highlight(escaped, patterns[k..], seen) == Highlight(escaped, patterns, {})
    {
      var p := patterns[k];
      HighlightStep(escaped, patterns, k, seen);
      var key := Lower(p.value);
      if key in seen {
        k := k + 1;
        continue;
      }
      var newResult := ReplaceFirst(result, p);
      if newResult != result {
        result := newResult;
        assert result == Highlight(escaped, patterns, {});
        break;
      }
      MissAdded(escaped, seen, p);
      seen := seen + {key};
      k := k + 1;
    }
    assert result == Highlight(escaped, patterns, {}) by {
      if k == |patterns| {
        assert patterns[k..] == [];
      }
    }
    DedupeIrrelevant(escaped, patterns, {});
  }

  /** One turn of the loop of `applyHighlight`. */
  lemma HighlightStep(escaped: string, patterns: seq<Pattern>, k: nat, seen: set<string>)
    requires k < |patterns|
    ensures var p, rest := patterns[k], patterns[k + 1..];
            Highlight(escaped, patterns[k..], seen) ==
              if Lower(p.value) in seen then Highlight(escaped, rest, seen)
              else if ReplaceFirst(escaped, p) != escaped then ReplaceFirst(escaped, p)
              else Highlight(escaped, rest, seen + {Lower(p.value)})
  {
    assert patterns[k..][0] == patterns[k];
    assert patterns[k..][1..] == patterns[k + 1..];
  }

  /** The highlighted text holds a mark exactly when a pattern matched:
      escaped text has no `<` of its own. */
  lemma {:induction false} MarkIffMatched(text: string, patterns: seq<Pattern>)
    ensures Contains(FirstChange(EscapeHtml(text), patterns), "<mark")
            <==> exists k :: 0 <= k < |patterns| && ReplaceFirst(EscapeHtml(text), patterns[k]) != EscapeHtml(text)
  {
    var e := EscapeHtml(text);
    var r := FirstChange(e, patterns);
    EscapeHtmlSafe(text);
    FirstChangeIsOne(e, patterns);
    if r == e {
      NoMarkWithoutLt(e);
    } else {
      var k :| 0 <= k < |patterns| && r == ReplaceFirst(e, patterns[k]);
      MarkFound(e, patterns[k]);
    }
  }

  /** With no patterns the text is only escaped. */
  lemma NoPatternsEscapes(text: string)
    ensures FirstChange(EscapeHtml(text), []) == EscapeHtml(text)
    ensures !Contains(EscapeHtml(text), "<mark")
  {
    EscapeHtmlSafe(text);
    NoMarkWithoutLt(EscapeHtml(text));
  }

  // ---------------------------------------------------------------------------
  // highlightWithTags
  // ---------------------------------------------------------------------------

  const TERM_CLASS := "bg-yellow-200"
  const TAG_CLASS := "bg-green-200"

  /** A pattern is used when its value is truthy and not blank once trimmed. */
  predicate Usable(p: Pattern) { p.value != "" && |Strip(p.value)| > 0 }

  function IsUsable(): Pattern -> bool { (p: Pattern) => Usable(p) }

  function TagPatterns(tags: seq<string>): (r: seq<Pattern>)
    ensures |r| == |tags| && forall k :: 0 <= k < |tags| ==> r[k] == Pattern(tags[k], TAG_CLASS)
  {
    seq(|tags|, k requires 0 <= k < |tags| => Pattern(tags[k], TAG_CLASS))
  }

  /** `patterns`: the term with the yellow class, then each tag with the green
      class, keeping only the usable ones in that order. */
  function Patterns(term: Glossary.GlossaryRow): seq<Pattern> {
    Filter([Pattern(term.term, TERM_CLASS)] + TagPatterns(term.tags.GetOr([])), IsUsable())
  }

  /** Every pattern is usable; a usable term comes first, and a term that is
      not usable leaves only tag patterns; every usable tag is included. */
  lemma PatternsShape(term: Glossary.GlossaryRow)
    ensures forall p :: p in Patterns(term) ==> Usable(p)
    ensures Usable(Pattern(term.term, TERM_CLASS)) ==> |Patterns(term)| > 0 && Patterns(term)[0] == Pattern(term.term, TERM_CLASS)
    ensures !Usable(Pattern(term.term, TERM_CLASS)) ==> forall p :: p in Patterns(term) ==> p.className == TAG_CLASS
    ensures forall t :: t in term.tags.GetOr([]) && Usable(Pattern(t, TAG_CLASS)) ==> Pattern(t, TAG_CLASS) in Patterns(term)
  {
    PatternsHead(term);
    PatternsTags(term);
  }

  lemma PatternsHead(term: Glossary.GlossaryRow)
    ensures Usable(Pattern(term.term, TERM_CLASS)) ==> |Patterns(term)| > 0 && Patterns(term)[0] == Pattern(term.term, TERM_CLASS)
    ensures !Usable(Pattern(term.term, TERM_CLASS)) ==> forall p :: p in Patterns(term) ==> p.className == TAG_CLASS
  {
    var head, tags := [Pattern(term.term, TERM_CLASS)], TagPatterns(term.tags.GetOr([]));
    FilterConcat(head, tags, IsUsable());
    assert head[1..] == [];
    if !Usable(Pattern(term.term, TERM_CLASS)) {
      assert Filter(head, IsUsable()) == [];
      forall p | p in Patterns(term)
        ensures p.className == TAG_CLASS
      {
        assert p in tags;
      }
    }
  }

  lemma PatternsTags(term: Glossary.GlossaryRow)
    ensures forall t :: t in term.tags.GetOr([]) && Usable(Pattern(t, TAG_CLASS)) ==> Pattern(t, TAG_CLASS) in Patterns(term)
  {
    var ts := term.tags.GetOr([]);
    var all := [Pattern(term.term, TERM_CLASS)] + TagPatterns(ts);
    forall t | t in ts
      ensures Pattern(t, TAG_CLASS) in all
    {
      var k :| 0 <= k < |ts| && ts[k] == t;
      assert all[k + 1] == Pattern(t, TAG_CLASS);
    }
  }

  /** `highlightWithTags`: without a term both parts are only escaped.  With a
      term the body is highlighted with the patterns when it is truthy, else
      empty; the header likewise, but with no patterns at all once the body
      holds a mark, so the term is marked at most once in the pair. */
  method HighlightWithTags(header: Option<string>, body: Option<string>, term: Option<Glossary.GlossaryRow>)
    returns (headerHtml: string, bodyHtml: string)
    ensures term.None? ==> headerHtml == EscapeHtml(header.GetOr("")) && bodyHtml == EscapeHtml(body.GetOr(""))
    ensures term.Some? ==> bodyHtml == (if Truthy(body) then FirstChange(EscapeHtml(body.value), Patterns(term.value)) else "")
    ensures term.Some? && Contains(bodyHtml, "<mark") ==> headerHtml == (if Truthy(header) then EscapeHtml(header.value) else "")
    ensures term.Some? && !Contains(bodyHtml, "<mark") ==>
              headerHtml == (if Truthy(header) then FirstChange(EscapeHtml(header.value), Patterns(term.value)) else "")
    ensures !(Contains(headerHtml, "<mark") && Contains(bodyHtml, "<mark"))
  {
    if term.None? {
      headerHtml := EscapeHtml(header.GetOr(""));
      bodyHtml := EscapeHtml(body.GetOr(""));
      NoPatternsEscapes(header.GetOr(""));
      return;
    }
    var patterns := Patterns(term.value);
    if Truthy(body) {
      bodyHtml := ApplyHighlight(body.value, patterns);
    } else {
      bodyHtml := "";
    }
    var foundInBody := Contains(bodyHtml, "<mark");
    if Truthy(header) {
      headerHtml := ApplyHighlight(header.value, if foundInBody then [] else patterns);
      if foundInBody {
        NoPatternsEscapes(header.value);
      }
    } else {
      headerHtml := "";
      assert !Contains(headerHtml, "<mark");
    }
  }
}
