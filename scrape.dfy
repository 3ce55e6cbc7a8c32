/**
 The scraper side of the support bot: `slugify`, which turns an article title
 into the base name of its markdown file, and the `url_mapping` dictionary that
 `Scraper.save_article` keeps from markdown file names to article URLs.

 `slugify(title)` is `re.sub(r"[^a-z0-9]+", "-", title.lower()).strip("-")`.
 It is modelled as three string functions: `LowerAll`, `Substitute` (every
 maximal run of characters outside `[a-z0-9]` becomes one `-`) and `Strip`
 (every `-` at either end is removed).
 */
module Scrape {

  /** The characters the regular expression `[a-z0-9]` matches. */
  predicate IsSlugChar(c: char) {
    'a' <= c <= 'z' || '0' <= c <= '9'
  }

  /** `str.lower()` on one character, for ASCII: 'A'..'Z' become 'a'..'z', everything else is kept. */
  function Lower(c: char): (l: char)
    ensures 'A' <= c <= 'Z' ==> 'a' <= l <= 'z' && l as int - 'a' as int == c as int - 'A' as int
    ensures !('A' <= c <= 'Z') ==> l == c
    ensures IsSlugChar(l) <==> IsSlugChar(c) || 'A' <= c <= 'Z'
  {
    if 'A' <= c <= 'Z' then (c as int + 32) as char else c
  }

  function LowerAll(s: string): (r: string)
    ensures |r| == |s| && forall i :: 0 <= i < |s| ==> r[i] == Lower(s[i])
  {
    seq(|s|, i requires 0 <= i < |s| => Lower(s[i]))
  }

  /** Every character of `s` is in `[a-z0-9-]`. */
  predicate InSlugAlphabet(s: string) {
    forall i :: 0 <= i < |s| ==> IsSlugChar(s[i]) || s[i] == '-'
  }

  /** `s` never holds two `-` in a row. */
  predicate NoDoubleDash(s: string) {
    forall i :: 0 <= i < |s| - 1 ==> s[i] != '-' || s[i + 1] != '-'
  }

  /** Neither the first nor the last character of `s` is `-`. */
  predicate NoEdgeDash(s: string) {
    s == [] || (s[0] != '-' && s[|s| - 1] != '-')
  }

  /** The shape of every string `slugify` returns. */
  predicate IsSlug(s: string) {
    InSlugAlphabet(s) && NoDoubleDash(s) && NoEdgeDash(s)
  }

  /** The `[a-z0-9]` characters of `s`, in order. */
  function SlugChars(s: string): string {
    if s == [] then [] else (if IsSlugChar(s[0]) then [s[0]] else []) + SlugChars(s[1..])
  }

  lemma {:induction false} SlugCharsAppend(a: string, b: string)
    ensures SlugChars(a + b) == SlugChars(a) + SlugChars(b)
  {
    if a == [] {
      assert a + b == b;
    } else {
      calc {
        SlugChars(a + b);
        (if IsSlugChar(a[0]) then [a[0]] else []) + SlugChars((a + b)[1..]);
        { assert (a + b)[1..] == a[1..] + b; }
        (if IsSlugChar(a[0]) then [a[0]] else []) + SlugChars(a[1..] + b);
        { SlugCharsAppend(a[1..], b); }
        SlugChars(a) + SlugChars(b);
      }
    }
  }

  /** Drops the maximal run of characters outside `[a-z0-9]` at the front of `s`. */
  function DropRun(s: string): (r: string)
    ensures |r| <= |s| && r == s[|s| - |r|..]
    ensures r == [] || IsSlugChar(r[0])
  {
    if s == [] || IsSlugChar(s[0]) then s else DropRun(s[1..])
  }

  /** Every character `DropRun` drops is outside `[a-z0-9]`, so the `[a-z0-9]` characters are kept. */
  lemma {:induction false} DropRunDropsNonSlug(s: string)
    ensures forall i :: 0 <= i < |s| - |DropRun(s)| ==> !IsSlugChar(s[i])
    ensures SlugChars(DropRun(s)) == SlugChars(s)
  {
    if s != [] && !IsSlugChar(s[0]) {
      var t := s[1..];
      DropRunDropsNonSlug(t);
      assert DropRun(s) == DropRun(t);
      forall i | 0 <= i < |s| - |DropRun(s)| ensures !IsSlugChar(s[i]) {
        if i > 0 {
          assert s[i] == t[i - 1];
        }
      }
      assert SlugChars(s) == [] + SlugChars(t);
    }
  }

  /**
   `re.sub(r"[^a-z0-9]+", "-", s)`: each maximal run of characters outside
   `[a-z0-9]` is replaced by a single `-`; the `[a-z0-9]` characters stay in order.
   */
  function Substitute(s: string): string
    decreases |s|
  {
    if s == [] then []
    else if IsSlugChar(s[0]) then [s[0]] + Substitute(s[1..])
    else
      "-" + Substitute(DropRun(s))
  }

  /** The substitution writes only `[a-z0-9-]`, never `--`, and starts with the input's first character when that is in `[a-z0-9]`. */
  lemma {:induction false} SubstituteShape(s: string)
    ensures InSlugAlphabet(Substitute(s))
    ensures NoDoubleDash(Substitute(s))
    ensures Substitute(s) != [] && IsSlugChar(Substitute(s)[0]) ==> s != [] && Substitute(s)[0] == s[0]
    decreases |s|
  {
    if s != [] {
      var c: char := if IsSlugChar(s[0]) then s[0] else '-';
      var t := if IsSlugChar(s[0]) then s[1..] else DropRun(s);
      var rt := Substitute(t);
      SubstituteShape(t);
      assert Substitute(s) == [c] + rt;
      assert c == '-' ==> rt == [] || IsSlugChar(rt[0]);
      PrependKeepsShape(c, rt);
    }
  }

  lemma PrependKeepsShape(c: char, r: string)
    requires IsSlugChar(c) || c == '-'
    requires InSlugAlphabet(r) && NoDoubleDash(r)
    requires c == '-' ==> r == [] || r[0] != '-'
    ensures InSlugAlphabet([c] + r) && NoDoubleDash([c] + r)
  {
    var x := [c] + r;
    forall i | 1 <= i < |x| ensures x[i] == r[i - 1] {
    }
  }

  /** The substitution keeps the `[a-z0-9]` characters of its input, in order. */
  lemma {:induction false} SubstituteKeepsSlugChars(s: string)
    ensures SlugChars(Substitute(s)) == SlugChars(s)
    decreases |s|
  {
    if s != [] {
      if IsSlugChar(s[0]) {
        SubstituteKeepsSlugChars(s[1..]);
        assert ([s[0]] + Substitute(s[1..]))[1..] == Substitute(s[1..]);
      } else {
        var d := DropRun(s);
        SubstituteKeepsSlugChars(d);
        DropRunDropsNonSlug(s);
        assert ("-" + Substitute(d))[1..] == Substitute(d);
      }
    }
  }

  /** `s.lstrip("-")`. */
  function StripStart(s: string): (r: string)
    ensures |r| <= |s| && r == s[|s| - |r|..]
    ensures r == [] || r[0] != '-'
  {
    if s != [] && s[0] == '-' then StripStart(s[1..]) else s
  }

  /** `s.rstrip("-")`. */
  function StripEnd(s: string): (r: string)
    ensures |r| <= |s| && r == s[..|r|]
    ensures r == [] || r[|r| - 1] != '-'
  {
    if s != [] && s[|s| - 1] == '-' then StripEnd(s[..|s| - 1]) else s
  }

  /** What `lstrip` removes is all `-`. */
  lemma {:induction false} StripStartDropsDashes(s: string)
    ensures forall i :: 0 <= i < |s| - |StripStart(s)| ==> s[i] == '-'
  {
    if s != [] && s[0] == '-' {
      StripStartDropsDashes(s[1..]);
    }
  }

  /** What `rstrip` removes is all `-`. */
  lemma {:induction false} StripEndDropsDashes(s: string)
    ensures forall i :: |StripEnd(s)| <= i < |s| ==> s[i] == '-'
  {
    if s != [] && s[|s| - 1] == '-' {
      StripEndDropsDashes(s[..|s| - 1]);
    }
  }

  /** `s.strip("-")`. */
  function Strip(s: string): string {
    StripEnd(StripStart(s))
  }

  /** `slugify(title)` of scrape.py. */
  function Slugify(title: string): string {
    Strip(Substitute(LowerAll(title)))
  }

  /** A word of a title: a non-empty run of `[a-z0-9]` characters. */
  predicate IsWord(w: string) {
    w != [] && forall i :: 0 <= i < |w| ==> IsSlugChar(w[i])
  }

  /** The longest prefix of `s` made of `[a-z0-9]` characters. */
  function TakeRun(s: string): (r: string)
    ensures |r| <= |s| && r == s[..|r|]
    ensures forall i :: 0 <= i < |r| ==> IsSlugChar(r[i])
    ensures |r| < |s| ==> !IsSlugChar(s[|r|])
  {
    if s == [] || !IsSlugChar(s[0]) then [] else [s[0]] + TakeRun(s[1..])
  }

  /** The maximal runs of `[a-z0-9]` characters of `s`, in order. */
  function Words(s: string): (ws: seq<string>)
    ensures forall i :: 0 <= i < |ws| ==> IsWord(ws[i])
    decreases |s|
  {
    if s == [] then []
    else if !IsSlugChar(s[0]) then Words(s[1..])
    else
      var w := TakeRun(s);
      [w] + Words(s[|w|..])
  }

  /** The words joined by single `-`. */
  function JoinDash(ws: seq<string>): string {
    if ws == [] then [] else if |ws| == 1 then ws[0] else ws[0] + "-" + JoinDash(ws[1..])
  }

  /** Words joined by `-` neither start nor end with `-`, and are empty only when there are no words. */
  lemma {:induction false} JoinDashEdges(ws: seq<string>)
    requires forall i :: 0 <= i < |ws| ==> IsWord(ws[i])
    ensures JoinDash(ws) == [] <==> ws == []
    ensures JoinDash(ws) != [] ==> IsSlugChar(JoinDash(ws)[0]) && IsSlugChar(JoinDash(ws)[|JoinDash(ws)| - 1])
  {
    if |ws| > 1 {
      var rest := ws[1..];
      assert IsWord(ws[0]) && IsWord(ws[1]);
      JoinDashEdges(rest);
      assert JoinDash(ws) == ws[0] + ("-" + JoinDash(rest));
    } else if |ws| == 1 {
      assert IsWord(ws[0]);
    }
  }

  /** A leading run outside `[a-z0-9]` holds no word. */
  lemma {:induction false} WordsSkipRun(s: string)
    requires s != [] && !IsSlugChar(s[0])
    ensures Words(s) == Words(DropRun(s))
    decreases |s|
  {
    var t := s[1..];
    if t != [] && !IsSlugChar(t[0]) {
      WordsSkipRun(t);
    }
  }

  /** A string without words has no `[a-z0-9]` character. */
  lemma {:induction false} NoWordsNoSlugChars(s: string)
    requires Words(s) == []
    ensures forall i :: 0 <= i < |s| ==> !IsSlugChar(s[i])
    decreases |s|
  {
    if s != [] {
      NoWordsNoSlugChars(s[1..]);
      forall i | 0 <= i < |s| ensures !IsSlugChar(s[i]) {
        if i > 0 {
          assert s[i] == s[1..][i - 1];
        }
      }
    }
  }

  /** The substitution copies a leading run of `[a-z0-9]` characters as it is. */
  lemma {:induction false} SubstituteRun(s: string)
    requires s != [] && IsSlugChar(s[0])
    ensures Substitute(s) == TakeRun(s) + Substitute(s[|TakeRun(s)|..])
    decreases |s|
  {
    var t := s[1..];
    var run := TakeRun(t);
    assert Substitute(s) == [s[0]] + Substitute(t);
    assert TakeRun(s) == [s[0]] + run;
    if t != [] && IsSlugChar(t[0]) {
      SubstituteRun(t);
      assert t[|run|..] == s[|run| + 1..];
      ConcatAssoc([s[0]], run, Substitute(t[|run|..]));
    } else {
      assert run == [];
      assert s[1..] == t;
    }
  }

  /** Concatenation is associative. */
  lemma ConcatAssoc(a: string, b: string, c: string)
    ensures a + (b + c) == a + b + c
  {
  }

  /** The `-` the substitution puts in front of `s`: one when `s` starts outside `[a-z0-9]`. */
  function Lead(s: string): string {
    if s != [] && !IsSlugChar(s[0]) then "-" else ""
  }

  /** The `-` the substitution puts after the last word: one when `s` ends outside `[a-z0-9]`. */
  function Trail(s: string): string {
    if s != [] && Words(s) != [] && !IsSlugChar(s[|s| - 1]) then "-" else ""
  }

  /**
   `re.sub(r"[^a-z0-9]+", "-", s)` is the words of `s` joined by single `-`,
   with one more `-` for a run at the front and one for a run after the last word.
   */
  lemma {:induction false} SubstituteSeparates(s: string)
    ensures Substitute(s) == Lead(s) + JoinDash(Words(s)) + Trail(s)
    decreases |s|
  {
    if s != [] && !IsSlugChar(s[0]) {
      SeparatesAfterRun(s);
    } else if s != [] {
      SeparatesAfterWord(s);
    }
  }

  /** `SubstituteSeparates` for a string that starts outside `[a-z0-9]`. */
  lemma {:induction false} SeparatesAfterRun(s: string)
    requires s != [] && !IsSlugChar(s[0])
    ensures Substitute(s) == Lead(s) + JoinDash(Words(s)) + Trail(s)
    decreases |s|, 0
  {
    var d := DropRun(s);
    WordsSkipRun(s);
    if d == [] {
      assert Words(s) == [];
    } else {
      DropRunShortens(s);
      SubstituteSeparates(d);
      TrailOfSuffix(s, d);
      assert Substitute(s) == "-" + Substitute(d);
      GlueRun(Substitute(s), Substitute(d), JoinDash(Words(s)), Trail(s));
    }
  }

  /** Sequence algebra for `SeparatesAfterRun`: one `-` followed by the substitution of the rest. */
  lemma GlueRun(x: string, y: string, j: string, t: string)
    requires x == "-" + y && y == "" + j + t
    ensures x == "-" + j + t
  {
  }

  /** A suffix that starts with a word and keeps all the words gets no leading `-` and the same trailing one. */
  lemma TrailOfSuffix(s: string, d: string)
    requires d != [] && |d| <= |s| && d == s[|s| - |d|..] && IsSlugChar(d[0])
    requires Words(s) == Words(d)
    ensures Lead(d) == "" && Trail(d) == Trail(s)
  {
    assert d[|d| - 1] == s[|s| - 1];
  }

  /** `DropRun` of a string that starts outside `[a-z0-9]` is shorter. */
  lemma DropRunShortens(s: string)
    requires s != [] && !IsSlugChar(s[0])
    ensures |DropRun(s)| < |s|
  {
    var d := DropRun(s);
    if d != [] {
      assert d[0] == s[|s| - |d|];
    }
  }

  /** `SubstituteSeparates` for a string that starts with a word. */
  lemma {:induction false} SeparatesAfterWord(s: string)
    requires s != [] && IsSlugChar(s[0])
    ensures Substitute(s) == Lead(s) + JoinDash(Words(s)) + Trail(s)
    decreases |s|, 0
  {
    var w := TakeRun(s);
    var rest := s[|w|..];
    SubstituteRun(s);
    assert Words(s) == [w] + Words(rest);
    assert Lead(s) == "";
    if rest == [] {
      assert s == w;
      assert Trail(s) == "";
      GlueWords(Substitute(s), w, Substitute(rest), [], "");
    } else {
      SubstituteSeparates(rest);
      assert Lead(rest) == "-";
      assert rest[|rest| - 1] == s[|s| - 1];
      if Words(rest) == [] {
        NoWordsNoSlugChars(rest);
        assert Trail(rest) == "" && Trail(s) == "-";
        GlueWords(Substitute(s), w, Substitute(rest), [], "-");
      } else {
        assert Trail(rest) == Trail(s);
        assert ([w] + Words(rest))[1..] == Words(rest);
        var jr := JoinDash(Words(rest));
        assert JoinDash(Words(s)) == w + "-" + jr;
        GlueWords(Substitute(s), w, Substitute(rest), jr, Trail(s));
      }
    }
  }

  /** Sequence algebra for `SeparatesAfterWord`: a word followed by the substitution of the rest. */
  lemma GlueWords(x: string, w: string, y: string, jr: string, t: string)
    requires x == w + y
    requires jr == [] && t == "" ==> y == []
    requires jr == [] && t == "-" ==> y == "-" + [] + []
    requires jr != [] ==> y == "-" + jr + t
    ensures jr == [] && t == "" ==> x == "" + w + ""
    ensures jr == [] && t == "-" ==> x == "" + w + "-"
    ensures jr != [] ==> x == "" + (w + "-" + jr) + t
  {
  }

  /** `lstrip("-")` removes one `-` put in front of a string that does not start with `-`. */
  lemma StripStartPad(lead: string, x: string)
    requires lead == "" || lead == "-"
    requires x == [] || x[0] != '-'
    ensures StripStart(lead + x) == x
  {
    if lead == "-" {
      assert (lead + x)[1..] == x;
    } else {
      assert lead + x == x;
    }
  }

  /** `rstrip("-")` removes one `-` put after a string that does not end with `-`. */
  lemma StripEndPad(j: string, trail: string)
    requires trail == "" || trail == "-"
    requires j != [] ==> j[|j| - 1] != '-'
    ensures StripEnd(j + trail) == j
  {
    if trail == "-" {
      var s := j + trail;
      assert s[|s| - 1] == '-' && s[..|s| - 1] == j;
      assert StripEnd(s) == StripEnd(j);
      assert StripEnd(j) == j;
    } else {
      assert j + trail == j;
    }
  }

  /** Stripping `-` from a word list joined by `-`, with at most one extra `-` at each end, gives the joined list. */
  lemma StripPadded(j: string, lead: string, trail: string)
    requires lead == "" || lead == "-"
    requires trail == "" || trail == "-"
    requires j != [] ==> j[0] != '-' && j[|j| - 1] != '-'
    ensures Strip(lead + j + trail) == j
  {
    if j == [] && trail == "-" {
      var s := lead + j + trail;
      assert forall i :: 0 <= i < |s| ==> s[i] == '-';
      assert StripStart(s) == [];
    } else {
      ConcatAssoc(lead, j, trail);
      StripStartPad(lead, j + trail);
      StripEndPad(j, trail);
    }
  }

  /** `slugify(t)` is the maximal `[a-z0-9]` runs of `t.lower()` joined by single `-`. */
  lemma SlugifyJoinsWords(title: string)
    ensures Slugify(title) == JoinDash(Words(LowerAll(title)))
  {
    var s := LowerAll(title);
    SubstituteSeparates(s);
    JoinDashEdges(Words(s));
    StripPadded(JoinDash(Words(s)), Lead(s), Trail(s));
  }

  /** Removing `-` at the front or the back never removes an `[a-z0-9]` character. */
  lemma StripKeepsSlugChars(s: string)
    ensures SlugChars(Strip(s)) == SlugChars(s)
  {
    StripStartKeepsSlugChars(s);
    StripEndKeepsSlugChars(StripStart(s));
  }

  lemma StripStartKeepsSlugChars(s: string)
    ensures SlugChars(StripStart(s)) == SlugChars(s)
  {
    var a := StripStart(s);
    var front := s[..|s| - |a|];
    assert s == front + a;
    StripStartDropsDashes(s);
    SlugCharsAppend(front, a);
    DashesHaveNoSlugChars(front);
  }

  lemma StripEndKeepsSlugChars(s: string)
    ensures SlugChars(StripEnd(s)) == SlugChars(s)
  {
    var b := StripEnd(s);
    var back := s[|b|..];
    assert s == b + back;
    StripEndDropsDashes(s);
    SlugCharsAppend(b, back);
    DashesHaveNoSlugChars(back);
  }

  lemma {:induction false} DashesHaveNoSlugChars(s: string)
    requires forall i :: 0 <= i < |s| ==> s[i] == '-'
    ensures SlugChars(s) == []
  {
    if s != [] {
      DashesHaveNoSlugChars(s[1..]);
    }
  }

  /** A slice of a string in `[a-z0-9-]` without `--` is again such a string. */
  lemma SliceKeepsShape(s: string, lo: nat, hi: nat)
    requires lo <= hi <= |s| && InSlugAlphabet(s) && NoDoubleDash(s)
    ensures InSlugAlphabet(s[lo..hi]) && NoDoubleDash(s[lo..hi])
  {
    var r := s[lo..hi];
    forall i | 0 <= i < |r| ensures IsSlugChar(r[i]) || r[i] == '-' {
      assert r[i] == s[lo + i];
    }
    forall i | 0 <= i < |r| - 1 ensures r[i] != '-' || r[i + 1] != '-' {
      assert r[i] == s[lo + i] && r[i + 1] == s[lo + i + 1];
    }
  }

  /** Stripping a string in `[a-z0-9-]` without `--` leaves a slug. */
  lemma StripMakesSlug(s: string)
    requires InSlugAlphabet(s) && NoDoubleDash(s)
    ensures IsSlug(Strip(s))
  {
    var a := StripStart(s);
    SliceKeepsShape(s, |s| - |a|, |s|);
    var r := StripEnd(a);
    SliceKeepsShape(a, 0, |r|);
    assert r != [] ==> r[0] == a[0];
  }

  /** The output of `slugify` is in `[a-z0-9-]`, has no `--` and no `-` at either end. */
  lemma SlugifyIsSlug(title: string)
    ensures IsSlug(Slugify(title))
  {
    SubstituteShape(LowerAll(title));
    StripMakesSlug(Substitute(LowerAll(title)));
  }

  /** `slugify` keeps exactly the `[a-z0-9]` characters of the lowered title, in their order. */
  lemma SlugifyKeepsSlugChars(title: string)
    ensures SlugChars(Slugify(title)) == SlugChars(LowerAll(title))
  {
    SubstituteKeepsSlugChars(LowerAll(title));
    StripKeepsSlugChars(Substitute(LowerAll(title)));
  }

  /** A slug is empty exactly when the lowered title has no `[a-z0-9]` character. */
  lemma SlugifyEmpty(title: string)
    ensures Slugify(title) == [] <==> SlugChars(LowerAll(title)) == []
  {
    var r := Slugify(title);
    SlugifyKeepsSlugChars(title);
    SlugifyIsSlug(title);
    if r != [] {
      assert IsSlugChar(r[0]);
      assert SlugChars(r) == [r[0]] + SlugChars(r[1..]);
    }
  }

  /** A string that already has the shape of a slug is its own slug. */
  lemma SlugIsFixedPoint(s: string)
    requires IsSlug(s)
    ensures Slugify(s) == s
  {
    assert LowerAll(s) == s;
    SubstituteFixesSlug(s);
  }

  lemma {:induction false} SubstituteFixesSlug(s: string)
    requires InSlugAlphabet(s) && NoDoubleDash(s)
    ensures Substitute(s) == s
  {
    if s != [] {
      var t := s[1..];
      SliceKeepsShape(s, 1, |s|);
      SubstituteFixesSlug(t);
      if IsSlugChar(s[0]) {
        assert Substitute(s) == [s[0]] + t;
      } else {
        DashBeforeSlugChar(s);
        assert Substitute(s) == "-" + t;
      }
      assert s == [s[0]] + t;
    }
  }

  /** In a slug-shaped string a leading `-` is a run of its own. */
  lemma DashBeforeSlugChar(s: string)
    requires s != [] && !IsSlugChar(s[0])
    requires InSlugAlphabet(s) && NoDoubleDash(s)
    ensures s[0] == '-' && DropRun(s) == s[1..]
  {
    assert |s| > 1 ==> IsSlugChar(s[1]);
  }

  /** `slugify(slugify(t)) == slugify(t)`. */
  lemma SlugifyIdempotent(title: string)
    ensures Slugify(Slugify(title)) == Slugify(title)
  {
    SlugifyIsSlug(title);
    SlugIsFixedPoint(Slugify(title));
  }

  /** One article as returned by the help-centre API. */
  datatype Article = Article(title: string, body: string, htmlUrl: string)

  /** The key `save_article` writes into `url_mapping`: the markdown file name. */
  function MarkdownName(title: string): string {
    Slugify(title) + ".md"
  }

  /**
   What `save_article` writes for each article, in order: the key `name`
   gives its title, and its URL. The scraper's key is `MarkdownName`.
   */
  function Saves(articles: seq<Article>, name: string -> string): seq<(string, string)> {
    if articles == [] then []
    else
      var last := articles[|articles| - 1];
      Saves(articles[..|articles| - 1], name) + [(name(last.title), last.htmlUrl)]
  }

  lemma SavesStep(articles: seq<Article>, name: string -> string, i: nat)
    requires i < |articles|
    ensures Saves(articles[..i + 1], name) == Saves(articles[..i], name) + [(name(articles[i].title), articles[i].htmlUrl)]
  {
    assert articles[..i + 1][..i] == articles[..i];
  }

  /** One write per article. */
  lemma {:induction false} SavesLength(articles: seq<Article>, name: string -> string)
    ensures |Saves(articles, name)| == |articles|
  {
    if articles != [] {
      SavesLength(articles[..|articles| - 1], name);
    }
  }

  /** The `i`-th write is that of the `i`-th article. */
  lemma {:induction false} SavesAt(articles: seq<Article>, name: string -> string, i: nat)
    requires i < |articles|
    ensures |Saves(articles, name)| == |articles|
    ensures Saves(articles, name)[i] == (name(articles[i].title), articles[i].htmlUrl)
  {
    var n := |articles| - 1;
    var init := articles[..n];
    SavesLength(init, name);
    if i < n {
      SavesAt(init, name, i);
      assert init[i] == articles[i];
    }
  }

  /** `url_mapping` after the writes `saves`, in order. */
  function Recorded(mapping: map<string, string>, saves: seq<(string, string)>): map<string, string> {
    if saves == [] then mapping
    else
      var last := saves[|saves| - 1];
      Recorded(mapping, saves[..|saves| - 1])[last.0 := last.1]
  }

  lemma RecordedStep(mapping: map<string, string>, saves: seq<(string, string)>, save: (string, string))
    ensures Recorded(mapping, saves + [save]) == Recorded(mapping, saves)[save.0 := save.1]
  {
    assert (saves + [save])[..|saves|] == saves;
  }

  /** Some write among `saves` is under `key`. */
  predicate SavedUnder(saves: seq<(string, string)>, key: string) {
    exists i :: 0 <= i < |saves| && saves[i].0 == key
  }

  /** After the writes, `key` is present exactly when it was before or some write was under it. */
  lemma {:induction false} RecordedKeys(mapping: map<string, string>, saves: seq<(string, string)>, key: string)
    ensures key in Recorded(mapping, saves) <==> key in mapping || SavedUnder(saves, key)
  {
    if saves != [] {
      var n := |saves| - 1;
      var init := saves[..n];
      RecordedKeys(mapping, init, key);
      if SavedUnder(saves, key) && saves[n].0 != key {
        var i :| 0 <= i < |saves| && saves[i].0 == key;
        assert init[i] == saves[i];
      }
      if SavedUnder(init, key) {
        var i :| 0 <= i < n && init[i].0 == key;
        assert init[i] == saves[i];
      }
    }
  }

  /** A key no write was under keeps the value it had. */
  lemma {:induction false} RecordedKeepsOthers(mapping: map<string, string>, saves: seq<(string, string)>, key: string)
    requires key in mapping && !SavedUnder(saves, key)
    ensures key in Recorded(mapping, saves) && Recorded(mapping, saves)[key] == mapping[key]
  {
    if saves != [] {
      var n := |saves| - 1;
      var init := saves[..n];
      assert !SavedUnder(init, key) by {
        forall i | 0 <= i < n ensures init[i].0 != key {
          assert init[i] == saves[i];
        }
      }
      RecordedKeepsOthers(mapping, init, key);
    }
  }

  /** After the writes, a key maps to the value of the last write under it. */
  lemma {:induction false} RecordedLastWins(mapping: map<string, string>, saves: seq<(string, string)>, i: nat)
    requires i < |saves|
    requires forall j :: i < j < |saves| ==> saves[j].0 != saves[i].0
    ensures saves[i].0 in Recorded(mapping, saves)
    ensures Recorded(mapping, saves)[saves[i].0] == saves[i].1
  {
    var n := |saves| - 1;
    if i < n {
      var init := saves[..n];
      assert init[i] == saves[i];
      forall j | i < j < |init| ensures init[j].0 != init[i].0 {
        assert init[j] == saves[j];
      }
      RecordedLastWins(mapping, init, i);
    }
  }

  /** A write is under `key` exactly when some article's title gives that key. */
  lemma SavedUnderArticles(articles: seq<Article>, name: string -> string, key: string)
    ensures SavedUnder(Saves(articles, name), key) <==> exists i :: 0 <= i < |articles| && name(articles[i].title) == key
  {
    SavesLength(articles, name);
    if SavedUnder(Saves(articles, name), key) {
      var i :| 0 <= i < |Saves(articles, name)| && Saves(articles, name)[i].0 == key;
      SavesAt(articles, name, i);
    }
    if exists i :: 0 <= i < |articles| && name(articles[i].title) == key {
      var i :| 0 <= i < |articles| && name(articles[i].title) == key;
      SavesAt(articles, name, i);
    }
  }

  /**
   After saving `articles` in order, `key` is in the mapping exactly when it was
   loaded or is the markdown name of some article.
   */
  lemma SavedKeys(mapping: map<string, string>, articles: seq<Article>, key: string)
    ensures key in Recorded(mapping, Saves(articles, MarkdownName))
            <==> key in mapping || exists i :: 0 <= i < |articles| && MarkdownName(articles[i].title) == key
  {
    RecordedKeys(mapping, Saves(articles, MarkdownName), key);
    SavedUnderArticles(articles, MarkdownName, key);
  }

  /** The URL under an article's markdown name is that of the last article with that name. */
  lemma SavedLastWins(mapping: map<string, string>, articles: seq<Article>, i: nat)
    requires i < |articles|
    requires forall j :: i < j < |articles| ==> MarkdownName(articles[j].title) != MarkdownName(articles[i].title)
    ensures MarkdownName(articles[i].title) in Recorded(mapping, Saves(articles, MarkdownName))
    ensures Recorded(mapping, Saves(articles, MarkdownName))[MarkdownName(articles[i].title)] == articles[i].htmlUrl
  {
    var saves := Saves(articles, MarkdownName);
    SavesAt(articles, MarkdownName, i);
    forall j | i < j < |saves| ensures saves[j].0 != saves[i].0 {
      SavesAt(articles, MarkdownName, j);
    }
    RecordedLastWins(mapping, saves, i);
  }

  /** The part of `Scraper` this model keeps: the file-name to URL mapping. */
  class Scraper {
    var urlMapping: map<string, string>

    /** The mapping as loaded from `url_mapping.json`, or empty when that file is missing. */
    constructor (loaded: map<string, string>)
      ensures urlMapping == loaded
    {
      urlMapping := loaded;
    }

    /** The mapping update of `save_article`: the article's markdown name now maps to its URL. */
    method SaveArticle(article: Article)
      modifies this
      ensures urlMapping == old(urlMapping)[MarkdownName(article.title) := article.htmlUrl]
    {
      var slug := Slugify(article.title);
      var key := slug + ".md";
      assert key == MarkdownName(article.title);
      urlMapping := urlMapping[key := article.htmlUrl];
    }

    /** `run`: `save_article` on every fetched article, in order. */
    method Run(articles: seq<Article>)
      modifies this
      ensures urlMapping == Recorded(old(urlMapping), Saves(articles, MarkdownName))
    {
      for i := 0 to |articles|
        invariant urlMapping == Recorded(old(urlMapping), Saves(articles[..i], MarkdownName))
      {
        SaveArticle(articles[i]);
        SavesStep(articles, MarkdownName, i);
        RecordedStep(old(urlMapping), Saves(articles[..i], MarkdownName), (MarkdownName(articles[i].title), articles[i].htmlUrl));
      }
      assert articles[..|articles|] == articles;
    }
  }
}
