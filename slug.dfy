/**
 * `slugify(text, fallback)` of the document assembler: lower-cases the text,
 * turns every run of characters other than `a`-`z`, `0`-`9` and the CJK
 * ideographs U+4E00..U+9FA5 into one `-`, and trims `-` from both ends.
 */
module Slug {
  import opened Common

  /** The characters `[a-z0-9一-龥]` keeps. */
  predicate IsSlugChar(c: char) {
    ('a' <= c <= 'z') || ('0' <= c <= '9') || ('\U{4E00}' <= c <= '\U{9FA5}')
  }

  /** The kept characters of `s`, in order: what a slug is made of. */
  function Kept(s: string): string
    decreases |s|
  {
    if s == [] then [] else (if IsSlugChar(s[0]) then [s[0]] else []) + Kept(s[1..])
  }

  lemma {:induction false} KeptConcat(a: string, b: string)
    ensures Kept(a + b) == Kept(a) + Kept(b)
    decreases |a|
  {
    if a != [] {
      assert (a + b)[0] == a[0] && (a + b)[1..] == a[1..] + b;
      KeptConcat(a[1..], b);
    } else {
      assert a + b == b;
    }
  }

  /** `s` without its leading run of characters the slug does not keep. */
  function SkipRun(s: string): (r: string)
    ensures |r| <= |s| && r == s[|s| - |r|..]
    ensures r == [] || IsSlugChar(r[0])
    ensures s != [] && !IsSlugChar(s[0]) ==> |r| < |s|
    ensures Kept(r) == Kept(s)
    decreases |s|
  {
    if s == [] || IsSlugChar(s[0]) then s else SkipRun(s[1..])
  }

  /** Only kept characters and single `-` separators: no `--` anywhere. */
  predicate Collapsed(s: string) {
    (forall i :: 0 <= i < |s| ==> IsSlugChar(s[i]) || s[i] == '-') &&
    (forall i :: 0 <= i < |s| - 1 ==> !(s[i] == '-' && s[i + 1] == '-'))
  }

  /** `.replace(/[^a-z0-9一-龥]+/gi, "-")`: each maximal run of other characters becomes one `-`. */
  function Collapse(s: string): (r: string)
    ensures Collapsed(r)
    ensures Kept(r) == Kept(s)
    ensures s == [] <==> r == []
    ensures s != [] && IsSlugChar(s[0]) ==> r[0] == s[0]
    decreases |s|
  {
    if s == [] then []
    else if IsSlugChar(s[0]) then
      var rest := Collapse(s[1..]);
      KeptConcat([s[0]], rest);
      [s[0]] + rest
    else
      var t := SkipRun(s);
      var rest := Collapse(t);
      KeptConcat("-", rest);
      "-" + rest
  }

  function DropLeadingHyphens(s: string): (r: string)
    ensures |r| <= |s| && r == s[|s| - |r|..]
    ensures r == [] || r[0] != '-'
    ensures forall i :: 0 <= i < |s| - |r| ==> s[i] == '-'
    decreases |s|
  {
    if s != [] && s[0] == '-' then DropLeadingHyphens(s[1..]) else s
  }

  function DropTrailingHyphens(s: string): (r: string)
    ensures |r| <= |s| && r == s[..|r|]
    ensures r == [] || r[|r| - 1] != '-'
    ensures forall i :: |r| <= i < |s| ==> s[i] == '-'
    decreases |s|
  {
    if s != [] && s[|s| - 1] == '-' then DropTrailingHyphens(s[..|s| - 1]) else s
  }

  /** `.replace(/^-+|-+$/g, "")`. */
  function TrimHyphens(s: string): string {
    DropTrailingHyphens(DropLeadingHyphens(s))
  }

  /** The normalisation chain of `slugify`, before the `|| fallback`. */
  function Normalize(text: string): string {
    TrimHyphens(Collapse(Lower(Trim(text))))
  }

  /** `slugify(text, fallback)`: the fallback for empty text, and when normalisation leaves nothing. */
  function Slugify(text: string, fallback: string): string {
    if text == "" then fallback
    else
      var r := Normalize(text);
      if r == "" then fallback else r
  }

  /** A well-formed slug: non-empty, kept characters and single inner `-` only. */
  predicate IsSlug(s: string) {
    s != [] && Collapsed(s) && s[0] != '-' && s[|s| - 1] != '-'
  }

  lemma KeptOfHyphens(s: string)
    requires forall i :: 0 <= i < |s| ==> s[i] == '-'
    ensures Kept(s) == []
    decreases |s|
  {
    if s != [] {
      KeptOfHyphens(s[1..]);
    }
  }

  lemma {:induction false} LowerConcat(a: string, b: string)
    ensures Lower(a + b) == Lower(a) + Lower(b)
  {
  }

  lemma CollapsedSlice(s: string, i: nat, j: nat)
    requires Collapsed(s) && i <= j <= |s|
    ensures Collapsed(s[i..j])
  {
    var t := s[i..j];
    assert forall k :: 0 <= k < |t| ==> t[k] == s[i + k];
  }

  lemma {:induction false} KeptDropLeading(s: string)
    ensures Kept(DropLeadingHyphens(s)) == Kept(s)
    decreases |s|
  {
    if s != [] && s[0] == '-' {
      KeptDropLeading(s[1..]);
    }
  }

  lemma {:induction false} KeptDropTrailing(s: string)
    ensures Kept(DropTrailingHyphens(s)) == Kept(s)
    decreases |s|
  {
    if s != [] && s[|s| - 1] == '-' {
      var init := s[..|s| - 1];
      KeptDropTrailing(init);
      assert s == init + ['-'];
      KeptConcat(init, ['-']);
    }
  }

  lemma TrimHyphensKept(s: string)
    ensures Kept(TrimHyphens(s)) == Kept(s)
  {
    KeptDropLeading(s);
    KeptDropTrailing(DropLeadingHyphens(s));
  }

  lemma TrimHyphensEnds(s: string)
    ensures TrimHyphens(s) == [] || (TrimHyphens(s)[0] != '-' && TrimHyphens(s)[|TrimHyphens(s)| - 1] != '-')
  {
    var a := DropLeadingHyphens(s);
    var b := DropTrailingHyphens(a);
    if b != [] {
      assert b[0] == a[0];
    }
  }

  /** Trimming hyphens keeps a collapsed string collapsed and loses no kept character. */
  lemma TrimHyphensFacts(s: string)
    requires Collapsed(s)
    ensures Collapsed(TrimHyphens(s)) && Kept(TrimHyphens(s)) == Kept(s)
    ensures TrimHyphens(s) == [] || (TrimHyphens(s)[0] != '-' && TrimHyphens(s)[|TrimHyphens(s)| - 1] != '-')
  {
    var a := DropLeadingHyphens(s);
    CollapsedSlice(s, |s| - |a|, |s|);
    CollapsedSlice(a, 0, |DropTrailingHyphens(a)|);
    TrimHyphensKept(s);
    TrimHyphensEnds(s);
  }

  lemma {:induction false} KeptLowerTrimStart(s: string)
    ensures Kept(Lower(TrimStart(s))) == Kept(Lower(s))
    decreases |s|
  {
    if s != [] && IsJsSpace(s[0]) {
      KeptLowerTrimStart(s[1..]);
      assert Lower(s) == [LowerChar(s[0])] + Lower(s[1..]);
      KeptConcat([LowerChar(s[0])], Lower(s[1..]));
    }
  }

  lemma {:induction false} KeptLowerTrimEnd(s: string)
    ensures Kept(Lower(TrimEnd(s))) == Kept(Lower(s))
    decreases |s|
  {
    if s != [] && IsJsSpace(s[|s| - 1]) {
      var init, last := s[..|s| - 1], [s[|s| - 1]];
      KeptLowerTrimEnd(init);
      assert s == init + last;
      LowerConcat(init, last);
      KeptConcat(Lower(init), Lower(last));
      SpaceKeepsNothing(last);
    }
  }

  lemma SpaceKeepsNothing(last: string)
    requires |last| == 1 && IsJsSpace(last[0])
    ensures Kept(Lower(last)) == []
  {
    assert Lower(last) == [LowerChar(last[0])];
    assert Lower(last)[1..] == [];
  }

  /** Leading and trailing whitespace holds no kept character, so `trim` changes no kept character. */
  lemma KeptIgnoresTrim(text: string)
    ensures Kept(Lower(Trim(text))) == Kept(Lower(text))
  {
    KeptLowerTrimStart(text);
    KeptLowerTrimEnd(TrimStart(text));
  }

  /**
   * A slug that is not the fallback is well formed, and it is made of exactly
   * the kept characters of the lower-cased text, in order; the fallback is used
   * exactly when the text is empty or has no kept character.
   */
  lemma SlugifySpec(text: string, fallback: string)
    ensures Slugify(text, fallback) == fallback || IsSlug(Slugify(text, fallback))
    ensures (text == "" || Kept(Lower(text)) == []) ==> Slugify(text, fallback) == fallback
    ensures text != "" && Kept(Lower(text)) != [] ==>
      IsSlug(Slugify(text, fallback)) && Kept(Slugify(text, fallback)) == Kept(Lower(text))
  {
    var c := Collapse(Lower(Trim(text)));
    TrimHyphensFacts(c);
    KeptIgnoresTrim(text);
    if Normalize(text) == [] {
      assert Kept(Normalize(text)) == [];
    } else if text != "" {
      assert Kept(Lower(text)) == Kept(Normalize(text));
    }
  }

  lemma {:induction false} CollapseFixes(s: string)
    requires Collapsed(s)
    ensures Collapse(s) == s
    decreases |s|
  {
    if s != [] {
      var rest := s[1..];
      CollapsedSlice(s, 1, |s|);
      CollapseFixes(rest);
      assert s == [s[0]] + rest;
      if IsSlugChar(s[0]) {
        assert Collapse(s) == [s[0]] + Collapse(rest);
      } else {
        assert s[0] == '-';
        assert rest == [] || IsSlugChar(rest[0]) by {
          if rest != [] {
            assert rest[0] == s[1];
          }
        }
        assert SkipRun(s) == SkipRun(rest) == rest;
        assert Collapse(s) == "-" + Collapse(rest);
      }
    }
  }

  lemma {:induction false} LowerFixes(s: string)
    requires forall i :: 0 <= i < |s| ==> IsSlugChar(s[i]) || s[i] == '-'
    ensures Lower(s) == s
  {
  }

  /** Normalisation leaves a well-formed slug as it is. */
  lemma NormalizeFixesSlugs(s: string)
    requires IsSlug(s)
    ensures Normalize(s) == s
  {
    assert !IsJsSpace(s[0]) && !IsJsSpace(s[|s| - 1]);
    assert TrimStart(s) == s;
    assert TrimEnd(s) == s;
    LowerFixes(s);
    CollapseFixes(s);
  }

  /** `slugify` maps its own non-fallback output to itself. */
  lemma SlugifyIdempotent(text: string, fallback: string, fallback2: string)
    requires IsSlug(Slugify(text, fallback))
    ensures Slugify(Slugify(text, fallback), fallback2) == Slugify(text, fallback)
  {
    NormalizeFixesSlugs(Slugify(text, fallback));
  }

  /** `"intro"` is already a slug. */
  lemma IntroSlug(text: string, fallback: string)
    requires text == "intro"
    ensures Slugify(text, fallback) == "intro"
  {
    assert IsSlug(text);
    NormalizeFixesSlugs(text);
  }

  /** Upper-case letters are folded, so `"Intro"` and `"intro"` share one slug. */
  lemma CapitalisedIntroSlug(text: string, fallback: string)
    requires text == "Intro"
    ensures Slugify(text, fallback) == "intro"
  {
    TrimUnspaced(text);
    var t := LowerIntro(text);
    SlugSurvives(t);
  }

  lemma LowerIntro(s: string) returns (t: string)
    requires s == "Intro"
    ensures t == Lower(s) && t == "intro" && IsSlug(t)
  {
    t := Lower(s);
    assert t[0] == 'i';
    assert t == "intro";
  }

  /** A well-formed slug passes the run replacement and the hyphen trimming unchanged. */
  lemma SlugSurvives(t: string)
    requires IsSlug(t)
    ensures TrimHyphens(Collapse(t)) == t
  {
    CollapseFixes(t);
    assert DropLeadingHyphens(t) == t;
  }

  /** Text with no whitespace at either end is left as it is by `trim`. */
  lemma TrimUnspaced(s: string)
    requires s != [] && !IsJsSpace(s[0]) && !IsJsSpace(s[|s| - 1])
    ensures Trim(s) == s
  {
    assert TrimStart(s) == s;
  }

  /** Trailing punctuation is trimmed away, so `"Intro!"` and `"intro"` share one slug too. */
  lemma PunctuatedIntroSlug(text: string, fallback: string)
    requires text == "Intro!"
    ensures Slugify(text, fallback) == "intro"
  {
    TrimUnspaced(text);
    var t := Lower(text);
    assert t[0] == 'i';
    assert t == "intro!";
    var c := PunctuatedIntroCollapsed(t);
    PunctuatedIntroTrimmed(c);
  }

  lemma PunctuatedIntroCollapsed(t: string) returns (c: string)
    requires t == "intro!"
    ensures c == Collapse(t) && c == "intro-"
  {
    var a := t[..5];
    var b := t[5..];
    assert t == a + b;
    CollapseLoneMark(b);
    IntroLetters(a);
    CollapseKeptPrefix(a, b);
    c := Collapse(t);
  }

  lemma IntroLetters(a: string)
    requires a == "intro"
    ensures forall i :: 0 <= i < |a| ==> IsSlugChar(a[i])
  {
    forall i | 0 <= i < |a| ensures IsSlugChar(a[i]) {
      assert 'a' <= a[i] <= 'z';
    }
  }

  /** One character the slug does not keep collapses to a single `-`. */
  lemma CollapseLoneMark(b: string)
    requires |b| == 1 && !IsSlugChar(b[0])
    ensures Collapse(b) == "-"
  {
    assert SkipRun(b[1..]) == [];
  }

  lemma PunctuatedIntroTrimmed(c: string)
    requires c == "intro-"
    ensures TrimHyphens(c) == "intro"
  {
    assert DropLeadingHyphens(c) == c;
    assert DropTrailingHyphens(c) == DropTrailingHyphens(c[..5]);
    assert c[..5] == "intro";
  }

  lemma ConsSplit(a: string, c: string)
    requires a != []
    ensures [a[0]] + (a[1..] + c) == a + c
  {
    assert a == [a[0]] + a[1..];
  }

  /** Skipping a run of characters the slug does not keep stops exactly where the run ends. */
  lemma {:induction false} SkipRunPast(w: string, t: string)
    requires forall i :: 0 <= i < |w| ==> !IsSlugChar(w[i])
    requires t == [] || IsSlugChar(t[0])
    ensures SkipRun(w + t) == t
    decreases |w|
  {
    if w == [] {
      assert w + t == t;
    } else {
      assert (w + t)[0] == w[0] && (w + t)[1..] == w[1..] + t;
      SkipRunPast(w[1..], t);
    }
  }

  /**
   * A maximal run of characters the slug does not keep (followed by a kept
   * character or by the end) becomes exactly one `-`, in its place.
   */
  lemma CollapseRun(w: string, t: string)
    requires w != [] && forall i :: 0 <= i < |w| ==> !IsSlugChar(w[i])
    requires t == [] || IsSlugChar(t[0])
    ensures Collapse(w + t) == "-" + Collapse(t)
  {
    assert (w + t)[0] == w[0];
    SkipRunPast(w, t);
  }

  /** No whitespace character is kept, even after lower-casing. */
  lemma SpaceNotKept(c: char)
    requires IsJsSpace(c)
    ensures !IsSlugChar(LowerChar(c))
  {
  }

  /**
   * Two words of kept characters (after lower-casing) separated by a run of
   * anything else give the two lower-cased words joined by one `-`: the run
   * is neither dropped nor doubled. So `"Getting Started"` gives `getting-started`.
   */
  lemma SlugifyWords(a: string, w: string, b: string, fallback: string)
    requires a != [] && forall i :: 0 <= i < |a| ==> IsSlugChar(LowerChar(a[i]))
    requires b != [] && forall i :: 0 <= i < |b| ==> IsSlugChar(LowerChar(b[i]))
    requires w != [] && forall i :: 0 <= i < |w| ==> !IsSlugChar(LowerChar(w[i]))
    ensures Slugify(a + w + b, fallback) == Lower(a) + "-" + Lower(b)
  {
    var s, la, lw, lb := a + w + b, Lower(a), Lower(w), Lower(b);
    WordsUntrimmed(a, w, b);
    WordsLowered(a, w, b);
    LoweredKept(a, true);
    LoweredKept(b, true);
    LoweredKept(w, false);
    WordsNormalized(la, lw, lb);
    SlugifyChain(s, la + lw + lb, la + "-" + lb, fallback);
  }

  /** Lower-casing preserves whether every character is kept (`kept`) or none is. */
  lemma LoweredKept(a: string, kept: bool)
    requires forall i :: 0 <= i < |a| ==> IsSlugChar(LowerChar(a[i])) == kept
    ensures |Lower(a)| == |a| && forall i :: 0 <= i < |a| ==> IsSlugChar(Lower(a)[i]) == kept
  {
  }

  /** Two kept words around a run collapse and trim to the words joined by one `-`. */
  lemma WordsNormalized(la: string, lw: string, lb: string)
    requires la != [] && forall i :: 0 <= i < |la| ==> IsSlugChar(la[i])
    requires lb != [] && forall i :: 0 <= i < |lb| ==> IsSlugChar(lb[i])
    requires lw != [] && forall i :: 0 <= i < |lw| ==> !IsSlugChar(lw[i])
    ensures TrimHyphens(Collapse(la + lw + lb)) == la + "-" + lb
  {
    WordsCollapse(la, lw, lb);
    UnhyphenatedEnds(la + "-" + lb);
  }

  /** `slugify` of a non-empty text, step by step through `trim`, lower-casing, run replacement and trimming. */
  lemma SlugifyChain(s: string, lowered: string, r: string, fallback: string)
    requires s != [] && Trim(s) == s && Lower(s) == lowered
    requires r != [] && TrimHyphens(Collapse(lowered)) == r
    ensures Slugify(s, fallback) == r
  {
  }

  lemma WordsLowered(a: string, w: string, b: string)
    ensures Lower(a + w + b) == Lower(a) + Lower(w) + Lower(b)
  {
    LowerConcat(a + w, b);
    LowerConcat(a, w);
  }

  lemma WordsUntrimmed(a: string, w: string, b: string)
    requires a != [] && IsSlugChar(LowerChar(a[0]))
    requires b != [] && IsSlugChar(LowerChar(b[|b| - 1]))
    ensures Trim(a + w + b) == a + w + b
  {
    var s := a + w + b;
    assert s[0] == a[0] && s[|s| - 1] == b[|b| - 1];
    if IsJsSpace(a[0]) {
      SpaceNotKept(a[0]);
    }
    if IsJsSpace(b[|b| - 1]) {
      SpaceNotKept(b[|b| - 1]);
    }
    TrimUnspaced(s);
  }

  lemma WordsCollapse(la: string, lw: string, lb: string)
    requires la != [] && forall i :: 0 <= i < |la| ==> IsSlugChar(la[i])
    requires lb != [] && forall i :: 0 <= i < |lb| ==> IsSlugChar(lb[i])
    requires lw != [] && forall i :: 0 <= i < |lw| ==> !IsSlugChar(lw[i])
    ensures Collapse(la + lw + lb) == la + "-" + lb
    ensures var r := la + "-" + lb; r != [] && r[0] != '-' && r[|r| - 1] != '-'
  {
    assert la + lw + lb == la + (lw + lb);
    CollapseKeptPrefix(la, lw + lb);
    RunThenWord(lw, lb);
    assert la + ("-" + lb) == la + "-" + lb;
    HyphenJoinEnds(la, lb);
  }

  lemma RunThenWord(lw: string, lb: string)
    requires forall i :: 0 <= i < |lb| ==> IsSlugChar(lb[i])
    requires lb != [] && lw != [] && forall i :: 0 <= i < |lw| ==> !IsSlugChar(lw[i])
    ensures Collapse(lw + lb) == "-" + lb
  {
    CollapseRun(lw, lb);
    KeptIsCollapsed(lb);
    CollapseFixes(lb);
  }

  lemma HyphenJoinEnds(la: string, lb: string)
    requires la != [] && lb != [] && IsSlugChar(la[0]) && IsSlugChar(lb[|lb| - 1])
    ensures var r := la + "-" + lb; r != [] && r[0] != '-' && r[|r| - 1] != '-'
  {
    var r := la + "-" + lb;
    assert r[0] == la[0];
    assert r[|r| - 1] == lb[|lb| - 1];
  }

  lemma KeptIsCollapsed(s: string)
    requires forall i :: 0 <= i < |s| ==> IsSlugChar(s[i])
    ensures Collapsed(s)
  {
  }

  lemma UnhyphenatedEnds(r: string)
    requires r != [] && r[0] != '-' && r[|r| - 1] != '-'
    ensures TrimHyphens(r) == r
  {
    assert DropLeadingHyphens(r) == r;
  }

  /** A prefix of kept characters passes through `Collapse` untouched. */
  lemma {:induction false} CollapseKeptPrefix(a: string, b: string)
    requires forall i :: 0 <= i < |a| ==> IsSlugChar(a[i])
    ensures Collapse(a + b) == a + Collapse(b)
    decreases |a|
  {
    if a != [] {
      var ab := a + b;
      assert ab[0] == a[0] && ab[1..] == a[1..] + b;
      assert IsSlugChar(ab[0]);
      assert Collapse(ab) == [a[0]] + Collapse(a[1..] + b);
      CollapseKeptPrefix(a[1..], b);
      ConsSplit(a, Collapse(b));
    } else {
      assert a + b == b;
    }
  }

  /** The title of a failed page is four kept ideographs, so every failed page gets the same slug. */
  lemma FailedTitleSlug(title: string, fallback: string)
    requires title == "抓取失败"
    ensures Slugify(title, fallback) == "抓取失败"
  {
    assert IsSlug(title);
    NormalizeFixesSlugs(title);
  }
}
