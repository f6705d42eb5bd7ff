/** The ticket generator `generate_ticket` of scripts/ticket_ai.py: reject
    what is not a real issue, otherwise assemble a ticket from the cleaned
    text, the predicted category, the entities and the priority.

    The trained classifier, the random identifier and the clock are not
    modelled: the category comes from a function `classify` applied to the
    cleaned text, the identifier from the hex string `uuidHex` of a fresh
    UUID, and the creation time is the string `now`. */
module Tickets {
  import opened Strings
  import opened Normalize
  import opened Validation
  import opened Entities
  import opened Priority

  /** The message of the rejection record. */
  const InvalidMessage: string := "Input is not a valid support ticket. Please describe a real issue."

  /** What `generate_ticket` returns: the rejection record or a ticket. */
  datatype Record =
    | Invalid(status: string, message: string)
    | Ticket(
        ticketId: string,
        title: string,
        description: string,
        cleanedDescription: string,
        category: string,
        priority: Level,
        entities: EntitySet,
        status: string,
        createdAt: string)

  /** `predict_category(text)`: the classifier sees the cleaned text only. */
  function PredictCategory(classify: string -> string, text: string): (category: string)
    ensures category == classify(CleanText(text))
  {
    classify(CleanText(text))
  }

  /** Two inputs that clean to the same text get the same category. */
  lemma SameCleanTextSameCategory(classify: string -> string, a: string, b: string)
    requires CleanText(a) == CleanText(b)
    ensures PredictCategory(classify, a) == PredictCategory(classify, b)
  {
  }

  /** Cleaning an input before predicting does not change its category. */
  lemma PreCleaningKeepsCategory(classify: string -> string, text: string)
    ensures PredictCategory(classify, CleanText(text)) == PredictCategory(classify, text)
  {
    CleanTextIdempotent(text);
  }

  /** `f"{category.capitalize()} Issue"` */
  function Title(category: string): (t: string)
    ensures |t| == |category| + 6
    ensures t[|category|..] == " Issue"
    ensures Lower(t[..|category|]) == Lower(category)
    ensures |category| > 0 ==> !IsLower(t[0])
    ensures forall i :: 1 <= i < |category| ==> !IsUpper(t[i])
  {
    var c := Capitalize(category);
    assert (c + " Issue")[..|category|] == c;
    c + " Issue"
  }

  /** `generate_ticket(user_input)`. `uuidHex` is `uuid.uuid4().hex`, always
      32 hexadecimal digits. */
  method GenerateTicket(input: string, classify: string -> string, uuidHex: string, now: string)
    returns (r: Record)
    requires |uuidHex| == 32
    ensures r.Invalid? <==> |Split(CleanText(input))| <= 3
    ensures r.Invalid? ==> r == Invalid("invalid", InvalidMessage)
    ensures r.Ticket? ==>
      && r.ticketId == Take(uuidHex, 8)
      && |r.ticketId| == 8
      && r.title == Title(r.category)
      && r.description == input
      && r.cleanedDescription == CleanText(input)
      && r.category == classify(CleanText(input))
      && r.priority == PriorityOf(input)
      && r.entities == EntitiesOf(input)
      && r.status == "open"
      && r.createdAt == now
  {
    if !IsValidTicket(input) {
      return Invalid("invalid", InvalidMessage);
    }
    var cleanedDescription := CleanText(input);
    var category := PredictCategory(classify, input);
    var entities := ExtractEntities(input);
    var priority := PriorityOf(input);
    r := Ticket(
      Take(uuidHex, 8),
      Title(category),
      input,
      cleanedDescription,
      category,
      priority,
      entities,
      "open",
      now);
  }

  /** A ticket is only made from an input of more than three tokens, and its
      cleaned description is clean text with more than three words. */
  lemma TicketInputIsLong(input: string)
    requires |Split(CleanText(input))| > 3
    ensures |Split(input)| > 3
    ensures IsClean(CleanText(input))
  {
    CleanTextWordBound(input);
  }
}
