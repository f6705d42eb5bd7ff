/** The validity gate `is_valid_ticket` of scripts/ticket_ai.py: a ticket
    needs more than three words after cleaning and must not be one of the
    fixed greetings. */
module Validation {
  import opened Strings
  import opened Normalize

  /** The greetings and acknowledgements that are rejected outright. */
  const Greetings: seq<string> :=
    ["hi", "hello", "hey", "how are you", "thanks", "ok", "okay", "yes", "no"]

  /** `is_valid_ticket(text)`: the length test first, then the greeting test
      on the whole cleaned text. The greeting test never decides anything: a
      ticket is valid exactly when its cleaned text has more than three
      words. */
  function IsValidTicket(text: string): (valid: bool)
    ensures valid <==> |Split(CleanText(text))| > 3
  {
    GreetingsAreShort();
    var cleaned := CleanText(text);
    var words := Split(cleaned);
    if |words| <= 3 then false
    else if cleaned in Greetings then false
    else true
  }

  /** Every greeting has at most three words. */
  lemma GreetingsAreShort()
    ensures forall g :: g in Greetings ==> |Split(g)| <= 3
  {
    forall g | g in Greetings
      ensures |Split(g)| <= 3
    {
      if g == "how are you" {
        assert g == JoinSpaces(["how", "are", "you"]);
        SplitJoinWords(["how", "are", "you"]);
      } else {
        SplitWord(g);
      }
    }
  }

  /** Any input of at most three whitespace-separated tokens is rejected,
      whatever its characters. */
  lemma ShortInputRejected(text: string)
    requires |Split(text)| <= 3
    ensures !IsValidTicket(text)
  {
    CleanTextWordBound(text);
  }

  /** Every greeting, among them the inputs "hi" and "how are you" of the
      module's own example run, is rejected. */
  lemma GreetingsRejected()
    ensures forall g :: g in Greetings ==> !IsValidTicket(g)
  {
    GreetingsAreShort();
    forall g | g in Greetings
      ensures !IsValidTicket(g)
    {
      ShortInputRejected(g);
    }
  }

  /** The three-word complaint of the module's own example run is rejected,
      although it describes a real problem. */
  lemma ThreeWordExampleRejected()
    ensures !IsValidTicket("mouse not working")
  {
    assert "mouse not working" == JoinSpaces(["mouse", "not", "working"]);
    SplitJoinWords(["mouse", "not", "working"]);
    ShortInputRejected("mouse not working");
  }

  /** Words of clean characters, joined by single spaces: `clean_text`
      keeps exactly those words. */
  lemma CleanJoinedWords(ws: seq<string>)
    requires forall k :: 0 <= k < |ws| ==> IsWord(ws[k]) && AllCleanChars(ws[k])
    ensures Split(CleanText(JoinSpaces(ws))) == ws
  {
    JoinCleanChars(ws);
    CleanCharsKept(JoinSpaces(ws));
    CleanTextWords(JoinSpaces(ws));
    SplitJoinWords(ws);
  }

  /** The fourth input of the module's own example run is accepted. */
  lemma FourWordExampleAccepted()
    ensures IsValidTicket("server is down urgently")
  {
    var ws := ["server", "is", "down", "urgently"];
    assert "server is down urgently" == JoinSpaces(ws);
    CleanJoinedWords(ws);
  }
}
