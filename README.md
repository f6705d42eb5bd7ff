# Rule-based support ticket pipeline, in Dafny

This project models the deterministic part of `scripts/ticket_ai.py`, the
backend that turns a user's free-text complaint into a support ticket:

- `clean_text` normalises text: it lowers the case, drops everything but
  `a`-`z`, `0`-`9` and whitespace, collapses whitespace runs and strips the
  ends.
- `is_valid_ticket` rejects inputs of three words or fewer and a fixed list
  of greetings.
- `extract_error_codes` finds the whole-word runs of three or four digits.
- `extract_entities` collects the device names among the lowered tokens.
- The priority rule marks a ticket `High` when one of five urgent phrases
  occurs anywhere in the lowered input.
- `generate_ticket` returns either the fixed rejection record or a ticket
  assembled from all of the above.

## Modules

- `strings.dfy` (`Strings`) holds the character classes and the Python `str`
  builtins the pipeline relies on: `lower`, `split()`, `strip()`, the
  substring test `in`, `capitalize` and the slice `[:n]`. It also defines
  `JoinSpaces`, the single-space join of a word list: the pipeline never
  joins words itself, but `clean_text` is proved equal to splitting its
  filtered text and joining the words again.
  Whitespace is Python's full whitespace set, which is also what `\s` and
  `str.split()` use.
- `normalize.dfy` (`Normalize`) is `clean_text`. It is proved to produce
  clean text, to be idempotent, to never lengthen its input, to equal the
  split-and-join idiom and to never add tokens.
- `validation.dfy` (`Validation`) is `is_valid_ticket`. Every greeting has
  at most three words, so the greeting test never decides anything.
  Validity is exactly "more than three words after cleaning".
- `entities.dfy` (`Entities`) is the `findall` scan and the device loop.
  - The scan is proved to return exactly the occurrences of
    `\b\d{3,4}\b`, in order and without overlap.
  - `ExtractEntities` is the loop of `extract_entities`, written as a method
    and proved against its specification `EntitiesOf`.
- `priority.dfy` (`Priority`) is the `any(word in user_input.lower() ...)`
  rule.
- `tickets.dfy` (`Tickets`) is `generate_ticket`. It takes three
  parameters:
  - the trained classifier, as a function `classify` applied to the cleaned
    text (which is what `predict_category` feeds it);
  - the hex form of a fresh UUID, `uuidHex`;
  - the creation time, `now`.

The code rejects the three-word input "mouse not working" of its own
example run (`scripts/ticket_ai.py:152`), although it describes a real
problem; `Validation.ThreeWordExampleRejected` proves the rejection.

## Model

| member | source | states |
|---|---|---|
| `Strings.ToLower` | scripts/ticket_ai.py:33 | lowering keeps whitespace as whitespace, turns an upper-case letter into the lower-case letter 32 code points above it (`A` to `a`) and leaves every other character alone |
| `Strings.ToUpper` | scripts/ticket_ai.py:134 | raising turns a lower-case letter into the upper-case letter 32 code points below it and leaves every other character alone |
| `Strings.Lower` | scripts/ticket_ai.py:33 | `s.lower()` has the length of `s` and lowers every character in place |
| `Strings.Strip` | scripts/ticket_ai.py:36 | `strip()` returns the text after its leading whitespace with only whitespace cut off the end, and the result neither starts nor ends with whitespace |
| `Strings.Split` | scripts/ticket_ai.py:67 | every token of `split()` is non-empty and contains no whitespace |
| `Strings.SplitJoinWords` | scripts/ticket_ai.py:67 | joining whitespace-free words with single spaces and splitting again gives back the same words |
| `Strings.JoinSplitSingleSpaced` | scripts/ticket_ai.py:35-36 | on single-spaced text, `" ".join(t.split())` is `t` itself |
| `Strings.Contains` | scripts/ticket_ai.py:127 | `needle in hay` holds exactly when `needle` starts at some index of `hay` |
| `Strings.Capitalize` | scripts/ticket_ai.py:134 | `capitalize()` keeps the length and the lowered text, puts no lower-case letter first and no upper-case letter after it |
| `Strings.Take` | scripts/ticket_ai.py:133 | the slice `[:8]` is the prefix of length eight, or the whole string when it is shorter |
| `Normalize.RemoveDisallowed` | scripts/ticket_ai.py:34 | the result has only `a`-`z`, digits and whitespace, keeps every such character as often as the input has it, and leaves text made only of them unchanged |
| `Normalize.RemoveDisallowedConcat` | scripts/ticket_ai.py:34 | filtering distributes over concatenation, so the kept characters stay in their order; with the single-character cases of `RemoveDisallowed` this fixes the result |
| `Normalize.CollapseWhitespace` | scripts/ticket_ai.py:35 | the result is empty only for empty input, is never longer, starts with `' '` where the input starts with whitespace and with the input's first character otherwise, contains no whitespace but `' '`, has no two whitespace characters in a row, and takes every other character from the input |
| `Normalize.CollapseWhitespaceEnd` | scripts/ticket_ai.py:35 | the result ends with one `' '` where the input ends in a whitespace run, and with the input's last character otherwise |
| `Normalize.CollapseKeepsWords` | scripts/ticket_ai.py:35 | collapsing whitespace runs leaves the tokens unchanged |
| `Normalize.StripGivesClean` | scripts/ticket_ai.py:36 | stripping text of clean characters without whitespace pairs yields clean text |
| `Normalize.CleanText` | scripts/ticket_ai.py:32-36 | the cleaned text has only `a`-`z`, `0`-`9` and single spaces, no space at either end and no two spaces together, and is never longer than the input |
| `Normalize.CleanFixpoint` | scripts/ticket_ai.py:32-36 | text that is already clean is returned unchanged |
| `Normalize.CleanTextIdempotent` | scripts/ticket_ai.py:32-36 | cleaning twice is the same as cleaning once |
| `Normalize.CleanTextWords` | scripts/ticket_ai.py:32-36 | the tokens of the cleaned text are the tokens of the lowered and filtered text |
| `Normalize.CleanTextIsJoinedWords` | scripts/ticket_ai.py:32-36 | `clean_text(s)` equals `" ".join(re.sub(r"[^a-z0-9\s]", "", s.lower()).split())` |
| `Normalize.KeptWordsBound` | scripts/ticket_ai.py:33-34 | lowering and filtering never create tokens: a removed character can only merge two tokens |
| `Normalize.CleanTextWordBound` | scripts/ticket_ai.py:32-36 | the cleaned text has no more tokens than `text.split()` |
| `Normalize.JoinCleanChars` | scripts/ticket_ai.py:35-36 | words of clean characters joined by single spaces consist of clean characters |
| `Normalize.CleanCharsKept` | scripts/ticket_ai.py:33-34 | lowering and filtering leave text of clean characters unchanged |
| `Validation.GreetingsAreShort` | scripts/ticket_ai.py:61-64 | every greeting of the list has at most three words |
| `Validation.IsValidTicket` | scripts/ticket_ai.py:60-77 | an input is valid exactly when its cleaned text has more than three words, so the greeting test never changes the verdict |
| `Validation.ShortInputRejected` | scripts/ticket_ai.py:66-71 | any input of at most three whitespace-separated tokens is rejected, whatever its characters |
| `Validation.GreetingsRejected` | scripts/ticket_ai.py:61-75 | every greeting, among them the example inputs "hi" and "how are you", is rejected |
| `Validation.ThreeWordExampleRejected` | scripts/ticket_ai.py:152 | the example input "mouse not working" is rejected |
| `Validation.CleanJoinedWords` | scripts/ticket_ai.py:66-67 | words of clean characters joined by single spaces keep exactly those words through cleaning |
| `Validation.FourWordExampleAccepted` | scripts/ticket_ai.py:153 | the example input "server is down urgently" is accepted |
| `Entities.CodeLengthUnique` | scripts/ticket_ai.py:82 | no position starts both a three-digit and a four-digit whole-word code |
| `Entities.MatchAt` | scripts/ticket_ai.py:82 | the greedy attempt of `\b\d{3,4}\b` at an index succeeds with length `n` exactly when a whole-word code of `n` digits starts there |
| `Entities.MatchesFrom` | scripts/ticket_ai.py:82 | every match of the scan is a whole-word run of three or four digits at or after the scan's start |
| `Entities.MatchesComplete` | scripts/ticket_ai.py:82 | every whole-word run of three or four digits at or after the scan's start is found by the scan |
| `Entities.InOrderCons` | scripts/ticket_ai.py:82 | a match that ends before all later matches keeps the list of matches in order |
| `Entities.MatchesInOrder` | scripts/ticket_ai.py:82 | the matches come in text order and do not overlap |
| `Entities.Matches` | scripts/ticket_ai.py:81-82 | the matches of `re.findall` are exactly the occurrences of the pattern, in order and without overlap |
| `Entities.ExtractErrorCodes` | scripts/ticket_ai.py:81-82 | there is one code per match, in order, each the text of an occurrence of the pattern |
| `Entities.ErrorCodeShape` | scripts/ticket_ai.py:82 | each code has three or four characters, all digits, and the characters around it in the text are not word characters |
| `Entities.RepeatedCodeKept` | scripts/ticket_ai.py:82 | a code that occurs twice is reported twice: "404 404" gives `["404", "404"]` |
| `Entities.FiveDigitsNoCode` | scripts/ticket_ai.py:82 | five digits in a row contain no code |
| `Entities.KeywordsAreLetters` | scripts/ticket_ai.py:89-92 | every device name consists of the letters `a`-`z` |
| `Entities.DeviceMentions` | scripts/ticket_ai.py:94-96 | the device list holds exactly the tokens that are device names and is never longer than the token list |
| `Entities.DevicesOf` | scripts/ticket_ai.py:86-99 | a device is reported exactly when it is one of the eight names and equals a token of `text.lower().split()` |
| `Entities.ExtractEntities` | scripts/ticket_ai.py:86-101 | the loop over the tokens followed by `set` and the error-code scan returns `EntitiesOf(text)`: the devices of `DevicesOf` and the codes of `ExtractErrorCodes` |
| `Entities.MouseKeyboardTokens` | scripts/ticket_ai.py:94 | the tokens of "mouse, keyboard" are "mouse," and "keyboard" |
| `Entities.PunctuationHidesDevice` | scripts/ticket_ai.py:94-95 | in "mouse, keyboard" only the keyboard is found, because "mouse," is not a device name |
| `Priority.AnyContained` | scripts/ticket_ai.py:127 | `any(w in hay for w in words)` holds exactly when some word of the list occurs in `hay` |
| `Priority.PriorityOf` | scripts/ticket_ai.py:126-130 | the priority is `High` exactly when some urgent phrase starts at some index of the lowered input, and `Low` otherwise |
| `Priority.OccursInConcat` | scripts/ticket_ai.py:127 | an occurrence of a phrase stays an occurrence when text is added on either side |
| `Priority.UrgentStaysUrgent` | scripts/ticket_ai.py:126-130 | adding text before or after an urgent input keeps it urgent |
| `Priority.PriorityIgnoresCase` | scripts/ticket_ai.py:127 | an input and its lowered form get the same priority |
| `Priority.ShortTextIsLow` | scripts/ticket_ai.py:126-130 | an input shorter than four characters is never urgent |
| `Priority.PhraseInsideWord` | scripts/ticket_ai.py:126-128 | "shutdown" is urgent, because the test looks for substrings and it contains "down" |
| `Priority.TwoWordPhrase` | scripts/ticket_ai.py:126-128 | "mouse not working" is urgent through the two-word phrase "not working" |
| `Tickets.SameCleanTextSameCategory` | scripts/ticket_ai.py:105-108 | two inputs with the same cleaned text get the same category |
| `Tickets.PreCleaningKeepsCategory` | scripts/ticket_ai.py:105-108 | cleaning an input before predicting does not change its category |
| `Tickets.Title` | scripts/ticket_ai.py:134 | the title is the capitalised category followed by " Issue": same length plus six, same letters up to case, no lower-case first letter and no upper-case letter after it |
| `Tickets.GenerateTicket` | scripts/ticket_ai.py:112-144 | the result is the fixed rejection record exactly when the cleaned input has at most three words; otherwise it is a ticket with the first eight characters of the 32-digit UUID (so an id of length eight), the title of the category, the input as description, the cleaned input, the category of the cleaned input, the specified priority and entities, status "open" and the given time |
| `Tickets.TicketInputIsLong` | scripts/ticket_ai.py:115-121 | an input that yields a ticket has more than three tokens |

## Left out

- Loading the ticket dataset and cleaning it with pandas
  (`scripts/ticket_ai.py:17-28, 40`) is file I/O in a library.
- TF-IDF vectorisation and naive Bayes training and prediction
  (`scripts/ticket_ai.py:49-55, 105-108`) are floating-point numerics inside
  scikit-learn. The classifier is the parameter `classify`, and
  `Tickets.PredictCategory` applies it to the cleaned text.
- The spaCy model (`scripts/ticket_ai.py:13`) is loaded and never used.
- `uuid.uuid4()` and `datetime.now().isoformat()`
  (`scripts/ticket_ai.py:133, 141`) are nondeterministic. They become the
  parameters `uuidHex` and `now`.
- The console loop of the example run (`scripts/ticket_ai.py:148-160`) only
  prints. Its four inputs are the subject of the lemmas in `Validation`, and
  "mouse not working" also of `Priority.TwoWordPhrase`.
- `app.py` (the Streamlit page) and `scripts/show_accuracy.py` (an offline
  accuracy report) are not part of this model.
- Unicode: letters, digits and word characters are ASCII only.
  - Python's `str.lower()` also lowers non-ASCII letters, and maps the
    Kelvin sign to `k` and U+0130 to two characters.
  - The `\d` and `\b` of a `str` pattern also accept non-ASCII digits and
    letters.
  - Whitespace is modelled in full, as Python's whitespace set.
- Entities.ExtractEntities: `list(set(devices))` has no defined order, so
  the devices are a set and the order of the returned list is not modelled.
- The priority is the datatype `Level` with `High` and `Low` rather than the
  strings "High" and "Low".
