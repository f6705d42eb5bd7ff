/** Character classes and the Python `str` builtins that the ticket pipeline
    relies on (`lower`, `split`, `strip`, `in`, `capitalize`, slicing), over
    Dafny strings. `JoinSpaces`, the single-space join of a word list, is
    not used by the pipeline: it is the split-and-join form that
    `clean_text` is proved equal to.

    Letters, digits and word characters are the ASCII ones. Whitespace is
    Python's whole whitespace set, so `IsSpace` agrees with `str.isspace()`,
    with the `\s` class of a `str` regular expression and with the
    separators of `str.split()` on every character. */
module Strings {

  /** Python's whitespace characters. */
  predicate IsSpace(c: char) {
    var n := c as int;
    9 <= n <= 13 || 28 <= n <= 32 || n == 0x85 || n == 0xA0 || n == 0x1680 ||
    0x2000 <= n <= 0x200A || n == 0x2028 || n == 0x2029 || n == 0x202F ||
    n == 0x205F || n == 0x3000
  }

  predicate IsUpper(c: char) { 'A' <= c <= 'Z' }

  predicate IsLower(c: char) { 'a' <= c <= 'z' }

  predicate IsDigit(c: char) { '0' <= c <= '9' }

  /** The `\w` class of a regular expression: letters, digits and `_`. */
  predicate IsWordChar(c: char) { IsUpper(c) || IsLower(c) || IsDigit(c) || c == '_' }

  /** Word characters are never whitespace. */
  lemma WordCharNotSpace(c: char)
    requires IsWordChar(c)
    ensures !IsSpace(c)
  {
  }

  function ToLower(c: char): (d: char)
    ensures IsSpace(d) == IsSpace(c)
    ensures !IsUpper(d)
    ensures IsUpper(c) ==> IsLower(d) && d as int == c as int + 32
    ensures !IsUpper(c) ==> d == c
  {
    if IsUpper(c) then
      var d := (c as int + 32) as char;
      WordCharNotSpace(c);
      WordCharNotSpace(d);
      d
    else c
  }

  function ToUpper(c: char): (d: char)
    ensures !IsLower(d)
    ensures IsLower(c) ==> IsUpper(d) && d as int == c as int - 32
    ensures !IsLower(c) ==> d == c
    ensures ToLower(d) == ToLower(c)
  {
    if IsLower(c) then (c as int - 32) as char else c
  }

  /** `s.lower()`: every character lowered, nothing else changed. */
  function Lower(s: string): (r: string)
    ensures |r| == |s|
    ensures forall i :: 0 <= i < |s| ==> r[i] == ToLower(s[i])
  {
    seq(|s|, i requires 0 <= i < |s| => ToLower(s[i]))
  }

  lemma LowerCons(c: char, x: string)
    ensures Lower([c] + x) == [ToLower(c)] + Lower(x)
  {
  }

  lemma LowerIdempotent(s: string)
    ensures Lower(Lower(s)) == Lower(s)
  {
  }

  /** The text with its leading run of whitespace removed (`s.lstrip()`). */
  function TrimStart(s: string): (r: string)
    ensures |r| <= |s| && r == s[|s| - |r|..]
    ensures forall i :: 0 <= i < |s| - |r| ==> IsSpace(s[i])
    ensures r == [] || !IsSpace(r[0])
  {
    if s != [] && IsSpace(s[0]) then TrimStart(s[1..]) else s
  }

  /** The text with its trailing run of whitespace removed (`s.rstrip()`). */
  function TrimEnd(s: string): (r: string)
    ensures |r| <= |s| && r == s[..|r|]
    ensures forall i :: |r| <= i < |s| ==> IsSpace(s[i])
    ensures r == [] || !IsSpace(r[|r| - 1])
  {
    if s != [] && IsSpace(s[|s| - 1]) then TrimEnd(s[..|s| - 1]) else s
  }

  /** `s.strip()`: leading and trailing whitespace removed; the result is a
      slice of `s` that starts and ends with a non-whitespace character. */
  function Strip(s: string): (r: string)
    ensures |r| <= |s|
    ensures r == [] || (!IsSpace(r[0]) && !IsSpace(r[|r| - 1]))
    ensures |r| <= |TrimStart(s)| && r == TrimStart(s)[..|r|]
    ensures forall i :: |r| <= i < |TrimStart(s)| ==> IsSpace(TrimStart(s)[i])
  {
    TrimEnd(TrimStart(s))
  }

  /** Character `i` of `s.strip()` is character `i` after the leading whitespace of `s`. */
  lemma StripAt(s: string, i: nat)
    requires i < |Strip(s)|
    ensures |s| - |TrimStart(s)| + i < |s|
    ensures Strip(s)[i] == s[|s| - |TrimStart(s)| + i]
  {
  }

  /** The leading run of non-whitespace characters of `s`. */
  function WordPrefix(s: string): (r: string)
    ensures |r| <= |s| && r == s[..|r|]
    ensures forall i :: 0 <= i < |r| ==> !IsSpace(r[i])
    ensures |r| == |s| || IsSpace(s[|r|])
  {
    if s == [] || IsSpace(s[0]) then [] else [s[0]] + WordPrefix(s[1..])
  }

  /** A token of `str.split()`: non-empty and free of whitespace. */
  predicate IsWord(w: string) {
    w != [] && forall i :: 0 <= i < |w| ==> !IsSpace(w[i])
  }

  /** `s.split()` with no separator: the maximal runs of non-whitespace
      characters, in order. Every token is non-empty and free of whitespace. */
  function Split(s: string): (ws: seq<string>)
    ensures forall k :: 0 <= k < |ws| ==> IsWord(ws[k])
    decreases |s|
  {
    var t := TrimStart(s);
    if t == [] then []
    else
      var w := WordPrefix(t);
      var rest := Split(t[|w|..]);
      WordsCons(w, rest);
      [w] + rest
  }

  /** A word in front of a list of words gives a list of words. */
  lemma WordsCons(w: string, ws: seq<string>)
    requires IsWord(w)
    requires forall k :: 0 <= k < |ws| ==> IsWord(ws[k])
    ensures forall k :: 0 <= k < |ws| + 1 ==> IsWord(([w] + ws)[k])
  {
    forall k | 0 <= k < |ws| + 1
      ensures IsWord(([w] + ws)[k])
    {
      if k > 0 {
        assert ([w] + ws)[k] == ws[k - 1];
      }
    }
  }

  /** Text that starts with a non-whitespace character: its first token is
      its word prefix. */
  lemma SplitUnfold(s: string)
    requires s != [] && !IsSpace(s[0])
    ensures Split(s) == [WordPrefix(s)] + Split(s[|WordPrefix(s)|..])
  {
    assert TrimStart(s) == s;
  }

  /** `" ".join(ws)` */
  function JoinSpaces(ws: seq<string>): string {
    if ws == [] then []
    else if |ws| == 1 then ws[0]
    else ws[0] + [' '] + JoinSpaces(ws[1..])
  }

  /** Two whitespace characters in a row, at index `i`. */
  predicate SpacePairAt(t: string, i: nat)
    requires i + 1 < |t|
  {
    IsSpace(t[i]) && IsSpace(t[i + 1])
  }

  /** No two whitespace characters in a row. */
  predicate NoSpacePair(t: string) {
    forall i: nat :: i + 1 < |t| ==> !SpacePairAt(t, i)
  }

  /** Prepending a character keeps `NoSpacePair` unless it makes a new pair. */
  lemma NoSpacePairCons(x: char, t: string)
    requires NoSpacePair(t)
    requires t == [] || !IsSpace(x) || !IsSpace(t[0])
    ensures NoSpacePair([x] + t)
  {
    var r := [x] + t;
    forall i: nat | i + 1 < |r|
      ensures !SpacePairAt(r, i)
    {
      if i > 0 {
        assert !SpacePairAt(t, i - 1);
      }
    }
  }

  /** A whitespace pair in `s.strip()` would be one in `s`. */
  lemma StripPairAt(s: string, i: nat)
    requires NoSpacePair(s)
    requires i + 1 < |Strip(s)|
    ensures !SpacePairAt(Strip(s), i)
  {
    var k := |s| - |TrimStart(s)|;
    var r := Strip(s);
    StripAt(s, i);
    StripAt(s, i + 1);
    assert r[i] == s[k + i] && r[i + 1] == s[k + i + 1];
    assert !SpacePairAt(s, k + i);
  }

  /** Stripping text without whitespace pairs leaves none. */
  lemma StripKeepsNoSpacePair(s: string)
    requires NoSpacePair(s)
    ensures NoSpacePair(Strip(s))
  {
    forall i: nat | i + 1 < |Strip(s)|
      ensures !SpacePairAt(Strip(s), i)
    {
      StripPairAt(s, i);
    }
  }

  /** Text in which the only whitespace is single `' '` characters strictly
      between non-whitespace ones. */
  predicate IsSingleSpaced(t: string) {
    && BlankSpacesOnly(t)
    && (t == [] || (!IsSpace(t[0]) && !IsSpace(t[|t| - 1])))
    && NoSpacePair(t)
  }

  /** The only whitespace character in `t` is `' '`. */
  predicate BlankSpacesOnly(t: string) {
    forall i :: 0 <= i < |t| && IsSpace(t[i]) ==> t[i] == ' '
  }

  /** Both properties carry over to the tail. */
  lemma SpacingTail(t: string)
    requires t != []
    ensures BlankSpacesOnly(t) ==> BlankSpacesOnly(t[1..])
    ensures NoSpacePair(t) ==> NoSpacePair(t[1..])
  {
    if NoSpacePair(t) {
      forall i: nat | i + 1 < |t[1..]|
        ensures !SpacePairAt(t[1..], i)
      {
        assert !SpacePairAt(t, i + 1);
      }
    }
  }

  lemma SplitOfSpaces(s: string)
    requires forall i :: 0 <= i < |s| ==> IsSpace(s[i])
    ensures Split(s) == []
  {
  }

  /** A leading whitespace character does not change the tokens. */
  lemma SplitSpaceCons(c: char, s: string)
    requires IsSpace(c)
    ensures Split([c] + s) == Split(s)
  {
    assert ([c] + s)[1..] == s;
  }

  /** A leading non-whitespace character either starts a new first token or
      joins the first token of the rest. */
  lemma SplitWordCons(c: char, s: string)
    requires !IsSpace(c)
    ensures Split([c] + s) ==
      if s == [] || IsSpace(s[0]) then [[c]] + Split(s)
      else [[c] + Split(s)[0]] + Split(s)[1..]
    ensures |Split([c] + s)| == |Split(s)| + if s == [] || IsSpace(s[0]) then 1 else 0
  {
    var cs := [c] + s;
    assert cs[1..] == s;
    var w := WordPrefix(s);
    assert WordPrefix(cs) == [c] + w;
    assert cs[|[c] + w|..] == s[|w|..];
    SplitUnfold(cs);
    if s != [] && !IsSpace(s[0]) {
      SplitUnfold(s);
    }
  }

  /** The word prefix of a word followed by whitespace or nothing is the word. */
  lemma {:induction false} WordPrefixOfWord(w: string, rest: string)
    requires forall i :: 0 <= i < |w| ==> !IsSpace(w[i])
    requires rest == [] || IsSpace(rest[0])
    ensures WordPrefix(w + rest) == w
    decreases |w|
  {
    if w != [] {
      assert (w + rest)[1..] == w[1..] + rest;
      WordPrefixOfWord(w[1..], rest);
      HeadTail(w);
    } else {
      assert w + rest == rest;
    }
  }

  /** A word, one space, and more text: the word is the first token. */
  lemma SplitWordSpace(w: string, rest: string)
    requires IsWord(w)
    ensures Split(w + [' '] + rest) == [w] + Split(rest)
  {
    var s := w + [' '] + rest;
    assert s == w + ([' '] + rest);
    WordPrefixOfWord(w, [' '] + rest);
    SplitUnfold(s);
    assert s[|w|..] == [' '] + rest;
    SplitSpaceCons(' ', rest);
  }

  /** A single word is its own only token. */
  lemma SplitWord(w: string)
    requires IsWord(w)
    ensures Split(w) == [w]
  {
    assert w + [] == w;
    WordPrefixOfWord(w, []);
    SplitUnfold(w);
    assert w[|w|..] == [];
  }

  /** Joining words with single spaces and splitting again gives the words back. */
  lemma {:induction false} SplitJoinWords(ws: seq<string>)
    requires forall k :: 0 <= k < |ws| ==> IsWord(ws[k])
    ensures Split(JoinSpaces(ws)) == ws
    decreases |ws|
  {
    if |ws| == 1 {
      SplitWord(ws[0]);
    } else if |ws| > 1 {
      SplitJoinWords(ws[1..]);
      SplitWordSpace(ws[0], JoinSpaces(ws[1..]));
      assert ws == [ws[0]] + ws[1..];
    }
  }

  /** 1 when `x` does not start with a token character, else 0. */
  function StartsOutsideWord(x: string): nat {
    if x == [] || IsSpace(x[0]) then 1 else 0
  }

  /** How one leading character changes the token count. */
  lemma ConsWordCount(c: char, x: string)
    ensures |Split([c] + x)| + StartsOutsideWord([c] + x) ==
      |Split(x)| + (if IsSpace(c) then 1 else StartsOutsideWord(x))
  {
    assert ([c] + x)[0] == c;
    if IsSpace(c) {
      SplitSpaceCons(c, x);
    } else {
      SplitWordCons(c, x);
    }
  }

  lemma SplitTrimStart(s: string)
    ensures Split(TrimStart(s)) == Split(s)
  {
  }

  /** Trailing whitespace does not change the tokens. */
  lemma {:induction false} SplitAppendSpaces(x: string, sp: string)
    requires forall i :: 0 <= i < |sp| ==> IsSpace(sp[i])
    ensures Split(x + sp) == Split(x)
    decreases |x|
  {
    if x == [] {
      assert x + sp == sp;
      SplitOfSpaces(sp);
    } else {
      var c, rest := x[0], x[1..];
      assert x == [c] + rest;
      assert x + sp == [c] + (rest + sp);
      SplitAppendSpaces(rest, sp);
      if IsSpace(c) {
        SplitSpaceCons(c, rest + sp);
        SplitSpaceCons(c, rest);
      } else {
        SplitWordCons(c, rest + sp);
        SplitWordCons(c, rest);
        if rest != [] {
          assert (rest + sp)[0] == rest[0];
        }
      }
    }
  }

  /** Stripping does not change the tokens. */
  lemma SplitStrip(s: string)
    ensures Split(Strip(s)) == Split(s)
  {
    var t := TrimStart(s);
    var r := TrimEnd(t);
    assert t == r + t[|r|..];
    SplitAppendSpaces(r, t[|r|..]);
    SplitTrimStart(s);
  }

  /** A non-empty string is its head followed by its tail. */
  lemma HeadTail(s: string)
    requires s != []
    ensures s == [s[0]] + s[1..]
  {
  }

  /** Cutting a string around index `k`. */
  lemma SliceAround(t: string, k: nat)
    requires k < |t|
    ensures t[k..] == [t[k]] + t[k + 1..]
    ensures t == t[..k] + [t[k]] + t[k + 1..]
  {
  }

  /** In single-spaced text, the first token is either all of it or is
      followed by one space and more single-spaced text. */
  lemma SingleSpacedAfterWord(t: string)
    requires IsSingleSpaced(t) && t != []
    ensures var w := WordPrefix(t);
      |w| == |t| || (|w| + 2 <= |t| && t[|w|] == ' ' && IsSingleSpaced(t[|w| + 1..]))
  {
    var w := WordPrefix(t);
    if |w| < |t| {
      assert t[|w|] == ' ';
      assert |w| + 1 < |t|;
      var t' := t[|w| + 1..];
      assert t'[0] == t[|w| + 1];
      assert !SpacePairAt(t, |w|);
      assert t'[|t'| - 1] == t[|t| - 1];
      forall i: nat | i + 1 < |t'|
        ensures !SpacePairAt(t', i)
      {
        assert t'[i] == t[|w| + 1 + i] && t'[i + 1] == t[|w| + 1 + i + 1];
        assert !SpacePairAt(t, |w| + 1 + i);
      }
      forall i | 0 <= i < |t'| && IsSpace(t'[i])
        ensures t'[i] == ' '
      {
        assert t'[i] == t[|w| + 1 + i];
      }
    }
  }

  /** On single-spaced text, `" ".join(t.split())` gives back `t`. */
  lemma {:induction false} JoinSplitSingleSpaced(t: string)
    requires IsSingleSpaced(t)
    ensures JoinSpaces(Split(t)) == t
    decreases |t|, 1
  {
    if t != [] {
      if |WordPrefix(t)| == |t| {
        JoinSplitOneWord(t);
      } else {
        JoinSplitWords(t);
      }
    }
  }

  /** Single-spaced text of more than one word: the first word, one space,
      and the rest, which joins back to itself by induction. */
  lemma {:induction false} JoinSplitWords(t: string)
    requires IsSingleSpaced(t) && t != [] && |WordPrefix(t)| < |t|
    ensures JoinSpaces(Split(t)) == t
    decreases |t|, 0
  {
    var w := WordPrefix(t);
    SingleSpacedAfterWord(t);
    var t' := t[|w| + 1..];
    JoinSplitSingleSpaced(t');
    JoinSplitStep(t, t');
  }

  /** Text without whitespace joins back to itself. */
  lemma JoinSplitOneWord(t: string)
    requires t != [] && |WordPrefix(t)| == |t|
    ensures JoinSpaces(Split(t)) == t
  {
    assert WordPrefix(t) == t;
    SplitWord(t);
  }

  /** The inductive step of `JoinSplitSingleSpaced`: one word, one space,
      and text that already joins back to itself. */
  lemma JoinSplitStep(t: string, t': string)
    requires t != [] && !IsSpace(t[0])
    requires |WordPrefix(t)| + 2 <= |t| && t[|WordPrefix(t)|] == ' '
    requires t' == t[|WordPrefix(t)| + 1..] && !IsSpace(t'[0])
    requires JoinSpaces(Split(t')) == t'
    ensures JoinSpaces(Split(t)) == t
  {
    var w := WordPrefix(t);
    var ws := Split(t');
    assert Split(t) == [w] + ws by {
      SplitUnfold(t);
      SliceAround(t, |w|);
      SplitSpaceCons(' ', t');
    }
    assert ws != [] by { SplitUnfold(t'); }
    assert JoinSpaces([w] + ws) == w + [' '] + JoinSpaces(ws) by {
      assert ([w] + ws)[1..] == ws;
    }
    assert t == w + [' '] + t' by { SliceAround(t, |w|); }
  }

  /** `OccursAt` states that `needle` starts at index `i` of `hay`. */
  predicate OccursAt(hay: string, needle: string, i: nat) {
    i + |needle| <= |hay| && hay[i..i + |needle|] == needle
  }

  lemma ShiftOccurrence(hay: string, needle: string)
    requires hay != []
    ensures forall j: nat :: OccursAt(hay[1..], needle, j) ==> OccursAt(hay, needle, j + 1)
    ensures forall i: nat :: 1 <= i && OccursAt(hay, needle, i) ==> OccursAt(hay[1..], needle, i - 1)
  {
    forall j: nat | OccursAt(hay[1..], needle, j)
      ensures OccursAt(hay, needle, j + 1)
    {
      assert hay[1..][j..j + |needle|] == hay[j + 1..j + 1 + |needle|];
    }
    forall i: nat | 1 <= i && OccursAt(hay, needle, i)
      ensures OccursAt(hay[1..], needle, i - 1)
    {
      assert hay[1..][i - 1..i - 1 + |needle|] == hay[i..i + |needle|];
    }
  }

  /** Python's `needle in hay` on strings: a substring test. */
  function Contains(hay: string, needle: string): (b: bool)
    ensures b <==> exists i: nat :: OccursAt(hay, needle, i)
    decreases |hay|
  {
    if |needle| > |hay| then false
    else if hay[..|needle|] == needle then assert OccursAt(hay, needle, 0); true
    else
      ShiftOccurrence(hay, needle);
      assert !OccursAt(hay, needle, 0);
      Contains(hay[1..], needle)
  }

  /** `s.capitalize()`: the first character in upper case, the rest in lower case. */
  function Capitalize(s: string): (r: string)
    ensures |r| == |s|
    ensures Lower(r) == Lower(s)
    ensures r != [] ==> !IsLower(r[0])
    ensures forall i :: 1 <= i < |r| ==> !IsUpper(r[i])
  {
    if s == [] then [] else [ToUpper(s[0])] + Lower(s[1..])
  }

  /** The slice `s[:n]`: the first `n` characters, or all of `s` when it is shorter. */
  function Take(s: string, n: nat): (r: string)
    ensures |r| == if |s| < n then |s| else n
    ensures r == s[..|r|]
  {
    if |s| <= n then s else s[..n]
  }
}
