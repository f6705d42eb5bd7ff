/** Entity extraction of scripts/ticket_ai.py: the error codes found by
    `re.findall(r"\b\d{3,4}\b", text)` and the device keywords among the
    tokens of `text.lower().split()`. */
module Entities {
  import opened Strings

  datatype Option<T> = None | Some(value: T)

  /** One match of the error-code pattern: where it starts and how many
      characters it covers. */
  datatype Match = Match(start: nat, len: nat)

  /** The regular-expression anchor `\b` at position `k` of `s`: a word
      character on exactly one side. */
  predicate WordBoundary(s: string, k: nat)
    requires k <= |s|
  {
    (k > 0 && IsWordChar(s[k - 1])) != (k < |s| && IsWordChar(s[k]))
  }

  /** `n` digits start at index `i` of `s`. */
  predicate DigitsAt(s: string, i: nat, n: nat) {
    i + n <= |s| && forall j :: i <= j < i + n ==> IsDigit(s[j])
  }

  /** `\b\d{n}\b` with `n` three or four matches at index `i` of `s`. */
  predicate CodeAt(s: string, i: nat, n: nat) {
    3 <= n <= 4 && DigitsAt(s, i, n) && WordBoundary(s, i) && WordBoundary(s, i + n)
  }

  /** A run of four digits continues past its third digit, so no position
      starts a three-digit and a four-digit code at once. */
  lemma CodeLengthUnique(s: string, i: nat)
    ensures !(CodeAt(s, i, 3) && CodeAt(s, i, 4))
  {
    if CodeAt(s, i, 4) {
      assert IsDigit(s[i + 2]) && IsDigit(s[i + 3]);
    }
  }

  /** The attempt of the pattern at index `i`: `\d{3,4}` is greedy and
      tries four digits before three. */
  function MatchAt(s: string, i: nat): (r: Option<nat>)
    ensures forall n: nat :: CodeAt(s, i, n) <==> r == Some(n)
  {
    CodeLengthUnique(s, i);
    if CodeAt(s, i, 4) then Some(4)
    else if CodeAt(s, i, 3) then Some(3)
    else None
  }

  /** The scan of `re.findall` from index `i`: after a match the search
      resumes at its end, after a failed attempt one character further on.
      Every match it reports is an occurrence of the pattern at or after `i`. */
  function MatchesFrom(s: string, i: nat): (ms: seq<Match>)
    requires i <= |s|
    ensures forall m :: m in ms ==> i <= m.start && CodeAt(s, m.start, m.len)
    decreases |s| - i
  {
    if i == |s| then []
    else
      match MatchAt(s, i)
      case Some(n) => [Match(i, n)] + MatchesFrom(s, i + n)
      case None => MatchesFrom(s, i + 1)
  }

  /** Every occurrence of the pattern at or after `i` is found by the scan
      from `i`: a match that the scan consumes cannot end inside another
      occurrence, since that occurrence would not start at a word boundary. */
  lemma {:induction false} MatchesComplete(s: string, i: nat, p: nat, n: nat)
    requires i <= p && i <= |s|
    requires CodeAt(s, p, n)
    ensures Match(p, n) in MatchesFrom(s, i)
    decreases |s| - i
  {
    if i == p {
      assert MatchAt(s, i) == Some(n);
    } else {
      match MatchAt(s, i)
      case Some(m) =>
        assert i + m <= p;
        MatchesComplete(s, i + m, p, n);
      case None =>
        MatchesComplete(s, i + 1, p, n);
    }
  }

  /** Each match ends before the next one starts. */
  predicate InOrder(ms: seq<Match>) {
    forall k, l :: 0 <= k < l < |ms| ==> ms[k].start + ms[k].len <= ms[l].start
  }

  /** A match that ends before every later one keeps the list in order. */
  lemma InOrderCons(m: Match, rest: seq<Match>)
    requires InOrder(rest)
    requires forall x :: x in rest ==> m.start + m.len <= x.start
    ensures InOrder([m] + rest)
  {
    var ms := [m] + rest;
    forall k, l | 0 <= k < l < |ms|
      ensures ms[k].start + ms[k].len <= ms[l].start
    {
      assert ms[l] == rest[l - 1] && rest[l - 1] in rest;
      if k > 0 {
        assert ms[k] == rest[k - 1];
      }
    }
  }

  /** The matches of the scan from `i` come in order and do not overlap. */
  lemma {:induction false} MatchesInOrder(s: string, i: nat)
    requires i <= |s|
    ensures InOrder(MatchesFrom(s, i))
    decreases |s| - i
  {
    if i < |s| {
      match MatchAt(s, i)
      case Some(n) =>
        MatchesInOrder(s, i + n);
        InOrderCons(Match(i, n), MatchesFrom(s, i + n));
      case None =>
        MatchesInOrder(s, i + 1);
    }
  }

  /** The matches of `re.findall(r"\b\d{3,4}\b", text)`: exactly the
      occurrences of the pattern, in order and without overlap. */
  function Matches(text: string): (ms: seq<Match>)
    ensures forall m :: m in ms <==> CodeAt(text, m.start, m.len)
    ensures InOrder(ms)
  {
    assert forall m: Match | CodeAt(text, m.start, m.len) :: m in MatchesFrom(text, 0) by {
      forall m: Match | CodeAt(text, m.start, m.len)
        ensures m in MatchesFrom(text, 0)
      {
        MatchesComplete(text, 0, m.start, m.len);
      }
    }
    MatchesInOrder(text, 0);
    MatchesFrom(text, 0)
  }

  /** `extract_error_codes(text)`: the text of every match, in order, with
      repeats kept. */
  function ExtractErrorCodes(text: string): (codes: seq<string>)
    ensures |codes| == |Matches(text)|
    ensures forall k :: 0 <= k < |codes| ==>
      var m := Matches(text)[k];
      CodeAt(text, m.start, m.len) && codes[k] == text[m.start..m.start + m.len]
  {
    var ms := Matches(text);
    seq(|ms|, k requires 0 <= k < |ms| => text[ms[k].start..ms[k].start + ms[k].len])
  }

  /** Each error code is three or four digits standing as a whole word: the
      characters around it in the text are not word characters. */
  lemma ErrorCodeShape(text: string, k: nat)
    requires k < |ExtractErrorCodes(text)|
    ensures var c := ExtractErrorCodes(text)[k];
      var m := Matches(text)[k];
      && 3 <= |c| <= 4
      && (forall j :: 0 <= j < |c| ==> IsDigit(c[j]))
      && (m.start == 0 || !IsWordChar(text[m.start - 1]))
      && (m.start + |c| == |text| || !IsWordChar(text[m.start + |c|]))
  {
    var c := ExtractErrorCodes(text)[k];
    var m := Matches(text)[k];
    forall j | 0 <= j < |c|
      ensures IsDigit(c[j])
    {
      assert c[j] == text[m.start + j];
    }
  }

  /** A code repeated in the text is reported once per occurrence. */
  lemma RepeatedCodeKept()
    ensures ExtractErrorCodes("404 404") == ["404", "404"]
  {
    var s := "404 404";
    assert CodeAt(s, 0, 3) && CodeAt(s, 4, 3);
    assert MatchAt(s, 0) == Some(3) && MatchAt(s, 4) == Some(3);
    assert MatchAt(s, 3) == None;
    assert MatchesFrom(s, 7) == [];
    assert MatchesFrom(s, 3) == MatchesFrom(s, 4) == [Match(4, 3)];
    assert Matches(s) == [Match(0, 3), Match(4, 3)];
    var codes := ExtractErrorCodes(s);
    assert codes[0] == s[0..3] == "404";
    assert codes[1] == s[4..7] == "404";
  }

  /** Five digits in a row are no error code: neither end of a three- or
      four-digit run inside them is a word boundary. */
  lemma FiveDigitsNoCode()
    ensures ExtractErrorCodes("12345") == []
  {
    var s := "12345";
    forall p: nat, n: nat
      ensures !CodeAt(s, p, n)
    {
      if 0 < p < |s| {
        assert IsWordChar(s[p - 1]) && IsWordChar(s[p]);
      } else if p == 0 && 3 <= n <= 4 {
        assert IsWordChar(s[n - 1]) && IsWordChar(s[n]);
      }
    }
    var ms := Matches(s);
    if ms != [] {
      assert false;
    }
  }

  /** The device names looked for among the tokens. */
  const DeviceKeywords: seq<string> :=
    ["laptop", "mouse", "keyboard", "printer", "wifi", "router", "monitor", "cpu"]

  /** Every device name is made of the letters `a`-`z`, so no token with a
      digit, an upper-case letter or punctuation in it names a device. */
  lemma KeywordsAreLetters()
    ensures forall k, i :: k in DeviceKeywords && 0 <= i < |k| ==> IsLower(k[i])
  {
  }

  /** The tokens that are device names, in order, with repeats: the list
      `devices` that the loop of `extract_entities` builds. It holds exactly
      the tokens that are device names, and no more of them than there are
      tokens. */
  function DeviceMentions(tokens: seq<string>): (ds: seq<string>)
    ensures |ds| <= |tokens|
    ensures forall d :: d in ds <==> d in tokens && d in DeviceKeywords
  {
    if tokens == [] then []
    else
      var init, last := tokens[..|tokens| - 1], tokens[|tokens| - 1];
      assert tokens == init + [last];
      DeviceMentions(init) + (if last in DeviceKeywords then [last] else [])
  }

  /** One more token, one more step of the loop. */
  lemma MentionsStep(tokens: seq<string>, i: nat)
    requires i < |tokens|
    ensures DeviceMentions(tokens[..i + 1]) ==
      DeviceMentions(tokens[..i]) + (if tokens[i] in DeviceKeywords then [tokens[i]] else [])
  {
    assert tokens[..i + 1][..i] == tokens[..i];
  }

  /** The value `extract_entities` returns. The device list `list(set(...))`
      has no defined order, so it is a set here. */
  datatype EntitySet = EntitySet(devices: set<string>, errorCodes: seq<string>)

  /** Python's `set(xs)`: the distinct elements of a list. */
  function ToSet(xs: seq<string>): set<string> {
    set x | x in xs
  }

  /** The devices named in `text`: the keywords that are whole tokens of
      the lowered text. */
  function DevicesOf(text: string): (devices: set<string>)
    ensures forall d :: d in devices <==> d in DeviceKeywords && d in Split(Lower(text))
  {
    ToSet(DeviceMentions(Split(Lower(text))))
  }

  /** The result of `extract_entities(text)`. */
  function EntitiesOf(text: string): EntitySet {
    EntitySet(DevicesOf(text), ExtractErrorCodes(text))
  }

  /** `extract_entities(text)`: one pass over the tokens of the lowered text
      collecting the device names, then the error codes. */
  method ExtractEntities(text: string) returns (e: EntitySet)
    ensures e == EntitiesOf(text)
  {
    var tokens := Split(Lower(text));
    var devices: seq<string> := [];
    var i := 0;
    while i < |tokens|
      invariant 0 <= i <= |tokens|
      invariant devices == DeviceMentions(tokens[..i])
    {
      if tokens[i] in DeviceKeywords {
        devices := devices + [tokens[i]];
      }
      assert devices == DeviceMentions(tokens[..i + 1]) by {
        MentionsStep(tokens, i);
      }
      i := i + 1;
    }
    assert devices == DeviceMentions(Split(Lower(text))) by {
      assert tokens[..i] == tokens;
    }
    e := EntitySet(ToSet(devices), ExtractErrorCodes(text));
  }

  /** The tokens of "mouse, keyboard". */
  lemma MouseKeyboardTokens()
    ensures Split(Lower("mouse, keyboard")) == ["mouse,", "keyboard"]
  {
    var s := "mouse, keyboard";
    var ws := ["mouse,", "keyboard"];
    assert Lower(s) == s;
    assert s == JoinSpaces(ws);
    assert IsWord(ws[0]) && IsWord(ws[1]);
    SplitJoinWords(ws);
  }

  /** Among the tokens "mouse," and "keyboard" only the second names a
      device. */
  lemma KeyboardOnly(devices: set<string>, ws: seq<string>)
    requires ws == ["mouse,", "keyboard"]
    requires forall d :: d in devices <==> d in DeviceKeywords && d in ws
    ensures devices == {"keyboard"}
  {
    assert ws[0] !in DeviceKeywords by {
      KeywordsAreLetters();
      assert !IsLower(ws[0][5]);
    }
    assert ws[1] in devices;
    forall d | d in devices
      ensures d == ws[1]
    {
      assert d in ws;
    }
  }

  /** A keyword followed by punctuation is a different token and names no
      device: in "mouse, keyboard" only the keyboard is found. */
  lemma PunctuationHidesDevice()
    ensures DevicesOf("mouse, keyboard") == {"keyboard"}
  {
    MouseKeyboardTokens();
    KeyboardOnly(DevicesOf("mouse, keyboard"), Split(Lower("mouse, keyboard")));
  }
}
