/** The priority rule of `generate_ticket` in scripts/ticket_ai.py: a ticket
    is urgent when its lowered text contains one of five phrases anywhere,
    even inside a longer word. */
module Priority {
  import opened Strings

  datatype Level = High | Low

  /** The phrases that make a ticket urgent. */
  const UrgentKeywords: seq<string> := ["urgent", "asap", "immediately", "not working", "down"]

  /** `any(word in hay for word in words)`. */
  function AnyContained(hay: string, words: seq<string>): (b: bool)
    ensures b <==> exists k :: 0 <= k < |words| && Contains(hay, words[k])
  {
    if words == [] then false
    else if Contains(hay, words[0]) then true
    else
      assert forall k :: 1 <= k < |words| ==> words[k] == words[1..][k - 1];
      AnyContained(hay, words[1..])
  }

  /** The priority of a ticket with description `text`, as the rule reads
      `text.lower()`: `High` exactly when some urgent phrase starts at some
      index of the lowered text, `Low` otherwise. */
  function PriorityOf(text: string): (p: Level)
    ensures p == High <==>
      exists k: nat, i: nat :: k < |UrgentKeywords| && OccursAt(Lower(text), UrgentKeywords[k], i)
  {
    if AnyContained(Lower(text), UrgentKeywords) then High else Low
  }

  /** An occurrence stays an occurrence when text is added on either side. */
  lemma OccursInConcat(x: string, y: string, w: string, i: nat)
    requires OccursAt(x, w, i)
    ensures OccursAt(x + y, w, i)
    ensures OccursAt(y + x, w, |y| + i)
  {
    assert (x + y)[i..i + |w|] == x[i..i + |w|];
    assert (y + x)[|y| + i..|y| + i + |w|] == x[i..i + |w|];
  }

  /** Lowering works character by character, so it distributes over `+`. */
  lemma LowerConcat(x: string, y: string)
    ensures Lower(x + y) == Lower(x) + Lower(y)
  {
  }

  /** More text never lowers the priority: an urgent ticket stays urgent
      whatever is written before or after it. */
  lemma UrgentStaysUrgent(a: string, b: string)
    requires PriorityOf(a) == High
    ensures PriorityOf(a + b) == High
    ensures PriorityOf(b + a) == High
  {
    var k: nat, i: nat :| k < |UrgentKeywords| && OccursAt(Lower(a), UrgentKeywords[k], i);
    LowerConcat(a, b);
    LowerConcat(b, a);
    OccursInConcat(Lower(a), Lower(b), UrgentKeywords[k], i);
  }

  /** The rule reads the raw text in lower case, so the case of the letters
      never matters. */
  lemma PriorityIgnoresCase(text: string)
    ensures PriorityOf(Lower(text)) == PriorityOf(text)
  {
    LowerIdempotent(text);
  }

  /** Every urgent phrase has at least four characters. */
  lemma UrgentPhrasesLong()
    ensures forall k :: 0 <= k < |UrgentKeywords| ==> |UrgentKeywords[k]| >= 4
  {
  }

  /** Text shorter than every urgent phrase is never urgent. */
  lemma ShortTextIsLow(text: string)
    requires |text| < 4
    ensures PriorityOf(text) == Low
  {
    UrgentPhrasesLong();
  }

  /** The phrase may sit inside a longer word: "shutdown" contains "down". */
  lemma PhraseInsideWord()
    ensures PriorityOf("shutdown") == High
  {
    var text := "shutdown";
    var h := Lower(text);
    assert h == text;
    assert h[4..8] == UrgentKeywords[4];
    assert OccursAt(h, UrgentKeywords[4], 4);
  }

  /** "mouse not working" is urgent: the rule sees the two-word phrase. */
  lemma TwoWordPhrase()
    ensures PriorityOf("mouse not working") == High
  {
    var text := "mouse not working";
    var h := Lower(text);
    assert h == text;
    assert h[6..17] == UrgentKeywords[3];
    assert OccursAt(h, UrgentKeywords[3], 6);
  }
}
