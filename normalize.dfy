/** The text normaliser `clean_text` of scripts/ticket_ai.py: lower-case the
    text, drop every character other than `a`-`z`, `0`-`9` and whitespace,
    turn every whitespace run into one space, and strip the ends. */
module Normalize {
  import opened Strings

  /** The characters `[a-z0-9\s]` that the second step keeps. */
  predicate IsKept(c: char) { IsLower(c) || IsDigit(c) || IsSpace(c) }

  /** `re.sub(r"[^a-z0-9\s]", "", s)`: the kept characters, each as often as in `s`. */
  function RemoveDisallowed(s: string): (r: string)
    ensures |r| <= |s|
    ensures forall i :: 0 <= i < |r| ==> IsKept(r[i])
    ensures forall c {:trigger multiset(r)[c]} :: IsKept(c) ==> multiset(r)[c] == multiset(s)[c]
    ensures (forall i :: 0 <= i < |s| ==> IsKept(s[i])) ==> r == s
  {
    if s == [] then []
    else
      assert s == [s[0]] + s[1..];
      if IsKept(s[0]) then [s[0]] + RemoveDisallowed(s[1..])
      else RemoveDisallowed(s[1..])
  }

  /** Concatenation is associative. */
  lemma AppendAssoc(h: string, a: string, b: string)
    ensures h + (a + b) == (h + a) + b
  {
  }

  /** The filter looks at the first character, then at the rest. */
  lemma RemoveDisallowedCons(x: string, y: string)
    requires x != []
    ensures RemoveDisallowed(x + y) ==
      (if IsKept(x[0]) then [x[0]] else []) + RemoveDisallowed(x[1..] + y)
  {
    assert (x + y)[0] == x[0];
    assert (x + y)[1..] == x[1..] + y;
  }

  /** The filter works character by character: it distributes over `+`, so
      the kept characters stay in their order. */
  lemma {:induction false} RemoveDisallowedConcat(x: string, y: string)
    ensures RemoveDisallowed(x + y) == RemoveDisallowed(x) + RemoveDisallowed(y)
    decreases |x|
  {
    if x == [] {
      assert x + y == y;
    } else {
      var h := if IsKept(x[0]) then [x[0]] else [];
      RemoveDisallowedCons(x, y);
      RemoveDisallowedConcat(x[1..], y);
      AppendAssoc(h, RemoveDisallowed(x[1..]), RemoveDisallowed(y));
    }
  }

  /** The collapse of `s` ends as `s` does: in `' '` after a whitespace
      character, otherwise in that same last character. */
  predicate EndsAsCollapsed(s: string, r: string)
    requires s != [] && r != []
  {
    if IsSpace(s[|s| - 1]) then r[|r| - 1] == ' ' else r[|r| - 1] == s[|s| - 1]
  }

  /** `[c] + rest` ends as `s` does, where `c` replaces what precedes the
      suffix `t` of `s` and `rest`, the collapse of `t`, ends as `t` does. */
  lemma EndsAsCollapsedCons(s: string, t: string, c: char, rest: string)
    requires |t| < |s| && t == s[|s| - |t|..]
    requires t == [] ==> rest == [] && (if IsSpace(s[|s| - 1]) then c == ' ' else c == s[|s| - 1])
    requires t != [] ==> rest != [] && EndsAsCollapsed(t, rest)
    ensures EndsAsCollapsed(s, [c] + rest)
  {
    if t != [] {
      assert t[|t| - 1] == s[|s| - 1];
      assert ([c] + rest)[|rest|] == rest[|rest| - 1];
    }
  }

  /** `re.sub(r"\s+", " ", s)`: every maximal run of whitespace becomes one
      space; other characters are copied. */
  function CollapseWhitespace(s: string): (r: string)
    ensures |r| <= |s|
    ensures r == [] <==> s == []
    ensures s != [] && IsSpace(s[0]) ==> r[0] == ' '
    ensures s != [] && !IsSpace(s[0]) ==> r[0] == s[0]
    ensures forall i :: 0 <= i < |r| && IsSpace(r[i]) ==> r[i] == ' '
    ensures NoSpacePair(r)
    ensures forall i :: 0 <= i < |r| && !IsSpace(r[i]) ==> r[i] in s
    decreases |s|
  {
    if s == [] then []
    else if IsSpace(s[0]) then
      var t := TrimStart(s);
      var rest := CollapseWhitespace(t);
      NoSpacePairCons(' ', rest);
      [' '] + rest
    else
      var rest := CollapseWhitespace(s[1..]);
      NoSpacePairCons(s[0], rest);
      [s[0]] + rest
  }

  /** The collapse ends as its input does: a trailing whitespace run becomes
      one `' '`, and any other last character is kept. */
  lemma {:induction false} CollapseWhitespaceEnd(s: string)
    requires s != []
    ensures EndsAsCollapsed(s, CollapseWhitespace(s))
    decreases |s|
  {
    if IsSpace(s[0]) {
      var t := TrimStart(s);
      if t != [] {
        CollapseWhitespaceEnd(t);
      }
      EndsAsCollapsedCons(s, t, ' ', CollapseWhitespace(t));
    } else {
      var t := s[1..];
      if t != [] {
        CollapseWhitespaceEnd(t);
      }
      EndsAsCollapsedCons(s, t, s[0], CollapseWhitespace(t));
    }
  }

  /** The characters `clean_text` can return: `a`-`z`, `0`-`9` and `' '`. */
  predicate IsCleanChar(c: char) { IsLower(c) || IsDigit(c) || c == ' ' }

  /** What `clean_text` returns: only `a`-`z`, `0`-`9` and spaces, no space
      at either end and no two spaces in a row. */
  predicate IsClean(t: string) {
    && AllCleanChars(t)
    && IsSingleSpaced(t)
  }

  /** Stripping text whose only whitespace is lone spaces leaves clean text. */
  lemma StripGivesClean(c: string)
    requires AllCleanChars(c)
    requires NoSpacePair(c)
    ensures IsClean(Strip(c))
  {
    var r := Strip(c);
    StripKeepsNoSpacePair(c);
    assert AllCleanChars(r) by {
      forall i | 0 <= i < |r|
        ensures IsCleanChar(r[i])
      {
        StripAt(c, i);
      }
    }
    assert BlankSpacesOnly(r) by {
      forall i | 0 <= i < |r| && IsSpace(r[i])
        ensures r[i] == ' '
      {
        if r[i] != ' ' { WordCharNotSpace(r[i]); }
      }
    }
  }

  /** `clean_text(text)` */
  function CleanText(text: string): (r: string)
    ensures IsClean(r)
    ensures |r| <= |text|
  {
    var kept := RemoveDisallowed(Lower(text));
    var c := CollapseWhitespace(kept);
    assert forall i :: 0 <= i < |c| ==> IsCleanChar(c[i]) by {
      forall i | 0 <= i < |c| && !IsSpace(c[i])
        ensures IsLower(c[i]) || IsDigit(c[i])
      {
        assert c[i] in kept;
      }
    }
    StripGivesClean(c);
    Strip(c)
  }

  /** Text whose whitespace is already lone spaces is left alone by the collapse. */
  lemma {:induction false} CollapseFixpoint(t: string)
    requires BlankSpacesOnly(t) && NoSpacePair(t)
    ensures CollapseWhitespace(t) == t
    decreases |t|
  {
    if t != [] {
      SpacingTail(t);
      CollapseFixpoint(t[1..]);
      if IsSpace(t[0]) {
        assert TrimStart(t) == t[1..] by {
          if |t| > 1 { assert !SpacePairAt(t, 0); }
        }
      }
      HeadTail(t);
    }
  }

  /** Clean text is a fixed point of `clean_text`. */
  lemma CleanFixpoint(t: string)
    requires IsClean(t)
    ensures CleanText(t) == t
  {
    CleanCharsKept(t);
    CollapseFixpoint(t);
    assert TrimStart(t) == t;
  }

  /** `clean_text` is idempotent. */
  lemma CleanTextIdempotent(s: string)
    ensures CleanText(CleanText(s)) == CleanText(s)
  {
    CleanFixpoint(CleanText(s));
  }

  /** Only `a`-`z`, `0`-`9` and `' '`. */
  predicate AllCleanChars(t: string) {
    forall i :: 0 <= i < |t| ==> IsCleanChar(t[i])
  }

  /** Lowering and filtering leave text of clean characters alone. */
  lemma CleanCharsKept(t: string)
    requires AllCleanChars(t)
    ensures RemoveDisallowed(Lower(t)) == t
  {
    assert Lower(t) == t;
  }

  /** Words of clean characters joined by single spaces are clean characters. */
  lemma {:induction false} JoinCleanChars(ws: seq<string>)
    requires forall k :: 0 <= k < |ws| ==> AllCleanChars(ws[k])
    ensures AllCleanChars(JoinSpaces(ws))
    decreases |ws|
  {
    if |ws| > 1 {
      JoinCleanChars(ws[1..]);
      var t := JoinSpaces(ws);
      var w, u := ws[0], JoinSpaces(ws[1..]);
      assert t == w + [' '] + u;
      forall i | 0 <= i < |t|
        ensures IsCleanChar(t[i])
      {
        if i < |w| {
          assert t[i] == w[i];
        } else if i > |w| {
          assert t[i] == u[i - |w| - 1];
        }
      }
    }
  }

  /** Collapsing whitespace runs does not change the tokens. */
  lemma {:induction false} CollapseKeepsWords(s: string)
    ensures Split(CollapseWhitespace(s)) == Split(s)
    decreases |s|
  {
    if s != [] {
      if IsSpace(s[0]) {
        var t := TrimStart(s);
        CollapseKeepsWords(t);
        SplitSpaceCons(' ', CollapseWhitespace(t));
        SplitTrimStart(s);
      } else {
        CollapseKeepsWords(s[1..]);
        SplitWordCons(s[0], CollapseWhitespace(s[1..]));
        SplitWordCons(s[0], s[1..]);
        HeadTail(s);
      }
    }
  }

  /** The tokens of the cleaned text are the tokens of the lowered text
      with the disallowed characters removed. */
  lemma CleanTextWords(s: string)
    ensures Split(CleanText(s)) == Split(RemoveDisallowed(Lower(s)))
  {
    var c := CollapseWhitespace(RemoveDisallowed(Lower(s)));
    SplitStrip(c);
    CollapseKeepsWords(RemoveDisallowed(Lower(s)));
  }

  /** `clean_text(s) == " ".join(re.sub(r"[^a-z0-9\s]", "", s.lower()).split())`:
      the regular-expression pipeline equals the usual split-and-join idiom. */
  lemma CleanTextIsJoinedWords(s: string)
    ensures CleanText(s) == JoinSpaces(Split(RemoveDisallowed(Lower(s))))
  {
    JoinSplitSingleSpaced(CleanText(s));
    CleanTextWords(s);
  }

  /** Lowering and filtering, one character at a time. */
  lemma KeptCons(c: char, x: string)
    ensures RemoveDisallowed(Lower([c] + x)) ==
      if IsKept(ToLower(c)) then [ToLower(c)] + RemoveDisallowed(Lower(x))
      else RemoveDisallowed(Lower(x))
  {
    LowerCons(c, x);
    assert ([ToLower(c)] + Lower(x))[1..] == Lower(x);
  }

  /** Lowering and removing characters never adds a token: whitespace is kept
      and nothing else is inserted. */
  lemma {:induction false} KeptWordsBound(s: string)
    ensures |Split(RemoveDisallowed(Lower(s)))| + StartsOutsideWord(RemoveDisallowed(Lower(s)))
      <= |Split(s)| + StartsOutsideWord(s)
    ensures StartsOutsideWord(s) <= StartsOutsideWord(RemoveDisallowed(Lower(s)))
    decreases |s|
  {
    if s != [] {
      KeptWordsBound(s[1..]);
      HeadTail(s);
      KeptWordsStep(s[0], s[1..]);
    }
  }

  /** The inductive step of `KeptWordsBound`. */
  lemma KeptWordsStep(c: char, x: string)
    requires |Split(RemoveDisallowed(Lower(x)))| + StartsOutsideWord(RemoveDisallowed(Lower(x)))
      <= |Split(x)| + StartsOutsideWord(x)
    requires StartsOutsideWord(x) <= StartsOutsideWord(RemoveDisallowed(Lower(x)))
    ensures |Split(RemoveDisallowed(Lower([c] + x)))| + StartsOutsideWord(RemoveDisallowed(Lower([c] + x)))
      <= |Split([c] + x)| + StartsOutsideWord([c] + x)
    ensures StartsOutsideWord([c] + x) <= StartsOutsideWord(RemoveDisallowed(Lower([c] + x)))
  {
    var d := ToLower(c);
    var fx := RemoveDisallowed(Lower(x));
    KeptCons(c, x);
    ConsWordCount(c, x);
    ConsWordCount(d, fx);
  }

  /** `clean_text` never yields more tokens than `text.split()`. */
  lemma CleanTextWordBound(s: string)
    ensures |Split(CleanText(s))| <= |Split(s)|
  {
    CleanTextWords(s);
    KeptWordsBound(s);
  }
}
